/** What several subsystems share. */
module Common {

  ghost predicate Distinct(s: seq<int>) { forall j, k :: 0 <= j < k < |s| ==> s[j] != s[k] }

  function One(b: bool): int { if b then 1 else 0 }
}
