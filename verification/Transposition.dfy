/**
  Encrypting and decrypting a buffer (kernel/sys.c:187-216, 465-494): the columns of the buffer are
  walked in the key's order; the walk visits every position once, so the two undo each other.
 */
module Transposition {
  import opened Common
  import opened Cipher

  /** The positions c, c+width, c+2*width, ... below len. */
  function Column(c: int, width: int, len: int): seq<int>
    requires width >= 1
    decreases len - c
  {
    if c >= len then [] else [c] + Column(c + width, width, len)
  }

  /** The first k columns in the given order, one after the other. */
  function Walk(order: seq<int>, k: int, len: int): seq<int>
    requires 0 <= k <= |order|
    decreases k
  {
    if k == 0 then [] else Walk(order, k - 1, len) + Column(order[k - 1], |order|, len)
  }

  function FullWalk(key: seq<int>, len: int): seq<int> { Walk(ColumnOrder(key), |key|, len) }

  // ------------------------------------------------------------------ each position exactly once

  /** The column a position belongs to. */
  ghost function Residue(p: int, width: int): int
    requires width >= 1 && 0 <= p
    decreases p
  {
    if p < width then p else Residue(p - width, width)
  }

  lemma {:induction false} ResidueBelow(p: int, width: int)
    requires width >= 1 && 0 <= p
    ensures 0 <= Residue(p, width) < width && Residue(p, width) <= p
    decreases p
  {
    if p >= width { ResidueBelow(p - width, width); }
  }

  lemma {:induction false} ResidueDistinct(a: int, p: int, width: int)
    requires width >= 1 && 0 <= a < p < a + width
    ensures Residue(p, width) != Residue(a, width)
    decreases a
  {
    if a >= width { ResidueDistinct(a - width, p - width, width); }
  }

  /** A column holds the positions of its residue. */
  lemma {:induction false} ColumnHolds(c: int, width: int, len: int, p: int)
    requires width >= 1 && 0 <= c && 0 <= p
    ensures p in Column(c, width, len) <==> c <= p < len && Residue(p, width) == Residue(c, width)
    decreases len - c
  {
    if c < len {
      ColumnHolds(c + width, width, len, p);
      if c < p < c + width { ResidueDistinct(c, p, width); }
    }
  }

  lemma {:induction false} ColumnDistinct(c: int, width: int, len: int)
    requires width >= 1
    ensures forall k :: 0 <= k < |Column(c, width, len)| ==> c <= Column(c, width, len)[k] < len
    ensures Distinct(Column(c, width, len))
    decreases len - c
  {
    if c < len { ColumnDistinct(c + width, width, len); }
  }

  ghost predicate Permutation(order: seq<int>) {
    && (forall k :: 0 <= k < |order| ==> 0 <= order[k] < |order|)
    && Distinct(order)
    && (forall v :: 0 <= v < |order| ==> v in order)
  }

  /** After k columns exactly the positions of those columns have been visited, none twice. */
  lemma {:induction false} WalkHolds(order: seq<int>, k: int, len: int)
    requires Permutation(order) && 0 <= k <= |order|
    ensures Distinct(Walk(order, k, len))
    ensures forall j :: 0 <= j < |Walk(order, k, len)| ==> 0 <= Walk(order, k, len)[j] < len
    ensures forall p :: 0 <= p && |order| >= 1 ==> (p in Walk(order, k, len) <==>
            p < len && Residue(p, |order|) in order[..k])
    decreases k
  {
    if k > 0 {
      var c := order[k - 1];
      var before, column := Walk(order, k - 1, len), Column(c, |order|, len);
      WalkHolds(order, k - 1, len);
      ColumnDistinct(c, |order|, len);
      assert Residue(c, |order|) == c;
      forall p | 0 <= p ensures p in column <==> p < len && Residue(p, |order|) == c {
        ColumnHolds(c, |order|, len, p);
        ResidueBelow(p, |order|);
      }
      assert order[..k] == order[..k - 1] + [c];
      forall j, m | 0 <= j < |before| && 0 <= m < |column| ensures before[j] != column[m] {
        assert before[j] in before && column[m] in column;
        assert c !in order[..k - 1];
      }
    }
  }

  lemma {:induction false} DistinctCard(s: seq<int>)
    requires Distinct(s)
    ensures |(set x | x in s)| == |s|
  {
    if |s| > 0 {
      var t := s[..|s| - 1];
      DistinctCard(t);
      var last := s[|s| - 1];
      assert last !in t;
      assert (set x | x in s) == (set x | x in t) + {last};
    }
  }

  ghost function Below(n: nat): set<int> { if n == 0 then {} else Below(n - 1) + {n - 1} }

  lemma {:induction false} BelowCard(n: nat)
    ensures |Below(n)| == n && forall x :: x in Below(n) <==> 0 <= x < n
  {
    if n > 0 { BelowCard(n - 1); }
  }

  /** The whole walk is a permutation of the buffer's positions: it ends with counter == len. */
  lemma WalkIsPermutation(key: seq<int>, len: nat)
    requires |key| >= 1
    ensures |FullWalk(key, len)| == len && Permutation(FullWalk(key, len))
  {
    var order := ColumnOrder(key);
    ColumnOrderSorts(key);
    assert Permutation(order);
    WalkHolds(order, |order|, len);
    var w := FullWalk(key, len);
    forall p | 0 <= p < len ensures p in w {
      ResidueBelow(p, |order|);
      assert order[..|order|] == order;
    }
    BelowCard(len);
    assert (set x | x in w) == Below(len);
    DistinctCard(w);
  }

  lemma {:induction false} WalkGrows(order: seq<int>, k: int, m: int, len: int)
    requires 0 <= k <= m <= |order|
    ensures Walk(order, k, len) <= Walk(order, m, len)
    decreases m
  {
    if k < m { WalkGrows(order, k, m - 1, len); }
  }

  // ------------------------------------------------------------------ the two transformations

  /** buffer_encr: position c of the result is position walk[c] of the buffer. */
  function Encrypted(key: seq<int>, buf: seq<int>): (r: seq<int>)
    requires |key| >= 1
    ensures |r| == |buf|
  {
    WalkIsPermutation(key, |buf|);
    seq(|buf|, c requires 0 <= c < |buf| => buf[FullWalk(key, |buf|)[c]])
  }

  /** The first k elements of buf put at the positions w names, the rest as in base. */
  function Scatter(w: seq<int>, buf: seq<int>, k: int, base: seq<int>): (r: seq<int>)
    requires 0 <= k <= |w| && k <= |buf| && forall j :: 0 <= j < |w| ==> 0 <= w[j] < |base|
    ensures |r| == |base|
    decreases k
  {
    if k == 0 then base else Scatter(w, buf, k - 1, base)[w[k - 1] := buf[k - 1]]
  }

  /** buffer_decr: element c of the buffer goes to position walk[c]. */
  function Decrypted(key: seq<int>, buf: seq<int>): (r: seq<int>)
    requires |key| >= 1
    ensures |r| == |buf|
  {
    WalkIsPermutation(key, |buf|);
    Scatter(FullWalk(key, |buf|), buf, |buf|, buf)
  }

  lemma {:induction false} ScatterAt(w: seq<int>, buf: seq<int>, k: int, base: seq<int>, c: int)
    requires 0 <= c < k <= |w| && k <= |buf| && (forall j :: 0 <= j < |w| ==> 0 <= w[j] < |base|) && Distinct(w)
    ensures Scatter(w, buf, k, base)[w[c]] == buf[c]
    decreases k
  {
    if c < k - 1 { ScatterAt(w, buf, k - 1, base, c); }
  }

  /** Decryption undoes encryption, for every key and every buffer length. */
  lemma DecryptsEncrypted(key: seq<int>, buf: seq<int>)
    requires |key| >= 1
    ensures Decrypted(key, Encrypted(key, buf)) == buf
  {
    var w, e := FullWalk(key, |buf|), Encrypted(key, buf);
    WalkIsPermutation(key, |buf|);
    forall p | 0 <= p < |buf| ensures Decrypted(key, e)[p] == buf[p] {
      assert p in w;
      var c :| 0 <= c < |w| && w[c] == p;
      ScatterAt(w, e, |e|, e, c);
    }
  }

  /** Encryption undoes decryption. */
  lemma EncryptsDecrypted(key: seq<int>, buf: seq<int>)
    requires |key| >= 1
    ensures Encrypted(key, Decrypted(key, buf)) == buf
  {
    var w, d := FullWalk(key, |buf|), Decrypted(key, buf);
    WalkIsPermutation(key, |buf|);
    forall c | 0 <= c < |buf| ensures Encrypted(key, d)[c] == buf[c] {
      ScatterAt(w, buf, |buf|, buf, c);
    }
  }

  // ------------------------------------------------------------------ where everything goes

  /** How many rows column c of width w has in len positions. */
  function Rows(c: int, w: int, len: int): int
    requires w >= 1
  {
    if c < len then (len - c + w - 1) / w else 0
  }

  /** How many positions the first i columns in this order take. */
  function Before(order: seq<int>, i: nat, len: int): int
    requires i <= |order|
  {
    if i == 0 then 0 else Before(order, i - 1, len) + Rows(order[i - 1], |order|, len)
  }

  lemma DivStep(x: int, w: int)
    requires w >= 1
    ensures (x + w) / w == x / w + 1 && (0 <= x < w ==> x / w == 0)
  {
    var q, r, p := x / w, x % w, (x + w) / w;
    assert x + w == w * q + r + w == w * p + (x + w) % w;
    Multiples(w, p - q - 1, r - (x + w) % w);
    if 0 <= x < w { Multiples(w, q, x - r); }
  }

  /** A multiple of w between -w and w is zero. */
  lemma Multiples(w: int, k: int, d: int)
    requires w >= 1 && w * k == d && -w < d < w
    ensures k == 0
  {
    assert k >= 1 ==> w * k >= w;
    assert k <= -1 ==> w * k <= -w;
  }

  lemma {:induction false} ColumnRows(c: int, w: int, len: int)
    requires w >= 1 && 0 <= c
    ensures |Column(c, w, len)| == Rows(c, w, len)
    decreases len - c
  {
    if c < len {
      ColumnRows(c + w, w, len);
      DivStep(len - c - 1, w);
    }
  }

  lemma {:induction false} ColumnAt(c: int, w: int, len: int, r: nat)
    requires w >= 1 && 0 <= c && c + r * w < len
    ensures r < |Column(c, w, len)| && Column(c, w, len)[r] == c + r * w
    decreases r
  {
    if r > 0 {
      assert c + w + (r - 1) * w == c + r * w;
      ColumnAt(c + w, w, len, r - 1);
    } else {
      assert c + 0 * w == c;
    }
  }

  lemma {:induction false} WalkBefore(order: seq<int>, i: nat, len: int)
    requires i <= |order| && forall k :: 0 <= k < |order| ==> 0 <= order[k]
    ensures |Walk(order, i, len)| == Before(order, i, len)
  {
    if i > 0 {
      WalkBefore(order, i - 1, len);
      ColumnRows(order[i - 1], |order|, len);
    }
  }

  /** Row r of the i-th column in this order. */
  function InColumn(order: seq<int>, i: nat, r: nat): int
    requires i < |order|
  {
    order[i] + r * |order|
  }

  lemma WalkPlace(order: seq<int>, len: int, i: nat, r: nat)
    requires i < |order| && InColumn(order, i, r) < len && forall k :: 0 <= k < |order| ==> 0 <= order[k]
    ensures var c := Before(order, i, len) + r;
            0 <= c < |Walk(order, |order|, len)| && Walk(order, |order|, len)[c] == InColumn(order, i, r)
  {
    WalkBefore(order, i, len);
    ColumnAt(order[i], |order|, len, r);
    WalkGrows(order, i + 1, |order|, len);
    assert Walk(order, i + 1, len) == Walk(order, i, len) + Column(order[i], |order|, len);
  }

  /** Row r of the column that comes at place i in the key's order: encryption takes it from there and writes it after
      all the columns before; decryption puts it back. */
  lemma CipherPlaces(key: seq<int>, buf: seq<int>, i: nat, r: nat)
    requires i < |key| && 0 <= InColumn(ColumnOrder(key), i, r) < |buf|
    ensures var order := ColumnOrder(key);
            var p, c := InColumn(order, i, r), Before(order, i, |buf|) + r;
            && 0 <= c < |buf| && Encrypted(key, buf)[c] == buf[p] && Decrypted(key, buf)[p] == buf[c]
  {
    var order := ColumnOrder(key);
    ColumnOrderSorts(key);
    WalkPlace(order, |buf|, i, r);
    WalkMoves(key, buf, Before(order, i, |buf|) + r);
  }

  /** Cell c of the ciphertext and the place the walk visits as the c-th hold the same. */
  lemma WalkMoves(key: seq<int>, buf: seq<int>, c: nat)
    requires |key| >= 1 && c < |FullWalk(key, |buf|)|
    ensures c < |buf| && 0 <= FullWalk(key, |buf|)[c] < |buf|
    ensures Encrypted(key, buf)[c] == buf[FullWalk(key, |buf|)[c]]
    ensures Decrypted(key, buf)[FullWalk(key, |buf|)[c]] == buf[c]
  {
    WalkIsPermutation(key, |buf|);
    ScatterAt(FullWalk(key, |buf|), buf, |buf|, buf, c);
  }

  /** Whether a letter of the key is written large or small does not matter. */
  lemma CipherIgnoresCase(key: seq<int>, buf: seq<int>, i: nat)
    requires i < |key| && 65 <= key[i] <= 90
    ensures var small := key[i := key[i] + 32];
            Encrypted(small, buf) == Encrypted(key, buf) && Decrypted(small, buf) == Decrypted(key, buf)
  {
    CaseIgnored(key, i);
    var small := key[i := key[i] + 32];
    assert FullWalk(small, |buf|) == FullWalk(key, |buf|);
    assert Encrypted(small, buf) == Encrypted(key, buf);
  }

  // ------------------------------------------------------------------ in place

  method ToLowerCase(key: seq<int>) returns (r: array<int>)
    ensures fresh(r) && r[..] == Lower(key)
    ensures forall i :: 0 <= i < |key| ==> r[i] == if 65 <= key[i] <= 90 then key[i] + 32 else key[i]
  {
    r := new int[|key|];
    for i := 0 to |key|
      invariant forall k :: 0 <= k < i ==> r[k] == LowerChar(key[k])
    {
      if 65 <= key[i] <= 90 { r[i] := key[i] + 32; } else { r[i] := key[i]; }
    }
  }

  method Exchange(idx: array<int>, key: array<int>, i: int, j: int)
    requires idx != key && idx.Length == key.Length && 0 <= i < key.Length && 0 <= j < key.Length
    modifies idx, key
    ensures Keyed(key[..], idx[..]) == Swapped(old(Keyed(key[..], idx[..])), i, j)
  {
    key[i], key[j] := key[j], key[i];
    idx[i], idx[j] := idx[j], idx[i];
  }

  /** partition (sys.c:514-545). */
  method Partition(idx: array<int>, key: array<int>, low: int, high: int) returns (part: int)
    requires idx != key && idx.Length == key.Length && 0 <= low <= high < key.Length
    modifies idx, key
    ensures (Keyed(key[..], idx[..]), part) == Partitioned(old(Keyed(key[..], idx[..])), low, high)
  {
    ghost var a := Keyed(key[..], idx[..]);
    var pivot := key[high];
    var i := low - 1;
    for j := low to high
      invariant low - 1 <= i < j
      invariant Scan(Keyed(key[..], idx[..]), pivot, i, j, high) == Scan(a, pivot, low - 1, low, high)
    {
      if key[j] <= pivot {
        i := i + 1;
        Exchange(idx, key, i, j);
      }
    }
    Exchange(idx, key, i + 1, high);
    part := i + 1;
  }

  /** sort_index_and_global (sys.c:503-512). */
  method SortIndexAndGlobal(idx: array<int>, key: array<int>, low: int, high: int)
    requires idx != key && idx.Length == key.Length && 0 <= low && high < key.Length
    modifies idx, key
    ensures Keyed(key[..], idx[..]) == Sorted(old(Keyed(key[..], idx[..])), low, high)
    decreases high - low
  {
    ghost var a := Keyed(key[..], idx[..]);
    if low < high {
      var part := Partition(idx, key, low, high);
      ghost var p := Keyed(key[..], idx[..]);
      SortIndexAndGlobal(idx, key, low, part - 1);
      ghost var left := Keyed(key[..], idx[..]);
      assert left == Sorted(p, low, part - 1);
      SortIndexAndGlobal(idx, key, part + 1, high);
      SortedHalves(a, low, high);
    }
  }

  /** The index array both directions start from (sys.c:191-202, 469-480). */
  method IndexArray(key: seq<int>) returns (order: seq<int>)
    ensures order == ColumnOrder(key)
  {
    var idx := new int[|key|];
    for i := 0 to |key|
      invariant forall k :: 0 <= k < i ==> idx[k] == k
    {
      idx[i] := i;
    }
    var local := ToLowerCase(key);
    assert idx[..] == Identity(|key|);
    SortIndexAndGlobal(idx, local, 0, |key| - 1);
    order := idx[..];
  }

  method CopyToBuffer(buffer: array<int>) returns (r: array<int>)
    ensures fresh(r) && r[..] == buffer[..]
  {
    r := new int[buffer.Length];
    for i := 0 to buffer.Length
      invariant r[..i] == buffer[..i]
    {
      r[i] := buffer[i];
    }
  }

  lemma HeadOfRest(w: seq<int>, counter: int, upTo: seq<int>, num: int, width: int, len: int)
    requires width >= 1 && num < len && 0 <= counter <= |w| && upTo <= w &&
             w[..counter] + Column(num, width, len) == upTo
    ensures counter < |w| && w[counter] == num
    ensures w[..counter + 1] + Column(num + width, width, len) == upTo
  {
    assert upTo[counter] == Column(num, width, len)[0];
    assert w[..counter + 1] == w[..counter] + [num];
  }

  /** The inner loop of buffer_encr: one column to the front part of the buffer. */
  method EncrColumn(buffer: array<int>, oldBuffer: array<int>, first: int, gb: int, start: int, ghost w: seq<int>,
    ghost upTo: seq<int>)
    returns (counter: int)
    requires buffer != oldBuffer && buffer.Length == oldBuffer.Length == |w| && gb >= 1 && 0 <= first
    requires forall k :: 0 <= k < |w| ==> 0 <= w[k] < |w|
    requires 0 <= start <= |w| && upTo <= w && w[..start] + Column(first, gb, |w|) == upTo
    requires forall c :: 0 <= c < start ==> buffer[c] == oldBuffer[w[c]]
    modifies buffer
    ensures counter == |upTo| && forall c :: 0 <= c < counter ==> buffer[c] == oldBuffer[w[c]]
  {
    var len := buffer.Length;
    var num := first;
    counter := start;
    while num < len
      invariant 0 <= num && 0 <= counter <= len && w[..counter] + Column(num, gb, len) == upTo
      invariant forall c :: 0 <= c < counter ==> buffer[c] == oldBuffer[w[c]]
      decreases len - num
    {
      HeadOfRest(w, counter, upTo, num, gb, len);
      buffer[counter] := oldBuffer[num];
      counter := counter + 1;
      num := num + gb;
    }
  }

  lemma WalkStep(key: seq<int>, len: nat, i: int)
    requires |key| >= 1 && 0 <= i < |key|
    ensures var order, w := ColumnOrder(key), FullWalk(key, len);
            && Walk(order, i, len) <= w && Walk(order, i + 1, len) <= w && 0 <= order[i]
            && w[..|Walk(order, i, len)|] + Column(order[i], |key|, len) == Walk(order, i + 1, len)
  {
    ColumnOrderSorts(key);
    WalkGrows(ColumnOrder(key), i, |key|, len);
    WalkGrows(ColumnOrder(key), i + 1, |key|, len);
  }

  /** buffer_encr (sys.c:465-494). */
  method BufferEncr(buffer: array<int>, key: seq<int>)
    requires |key| >= 1
    modifies buffer
    ensures buffer[..] == Encrypted(key, old(buffer[..]))
  {
    var len, gb := buffer.Length, |key|;
    var oldBuffer := CopyToBuffer(buffer);
    var order := IndexArray(key);
    ghost var w := FullWalk(key, len);
    WalkIsPermutation(key, len);
    var counter := 0;
    for i := 0 to gb
      invariant counter == |Walk(order, i, len)| && counter <= len
      invariant forall c :: 0 <= c < counter ==> buffer[c] == oldBuffer[w[c]]
      invariant oldBuffer[..] == old(buffer[..])
    {
      WalkStep(key, len, i);
      counter := EncrColumn(buffer, oldBuffer, order[i], gb, counter, w, Walk(order, i + 1, len));
    }
  }

  /** The inner loop of buffer_decr: the next stretch of the buffer to one column. */
  method DecrColumn(buffer: array<int>, oldBuffer: array<int>, first: int, gb: int, start: int, ghost w: seq<int>,
    ghost upTo: seq<int>)
    returns (counter: int)
    requires buffer != oldBuffer && buffer.Length == oldBuffer.Length == |w| && gb >= 1 && 0 <= first
    requires forall k :: 0 <= k < |w| ==> 0 <= w[k] < |w|
    requires 0 <= start <= |w| && upTo <= w && w[..start] + Column(first, gb, |w|) == upTo
    requires buffer[..] == Scatter(w, oldBuffer[..], start, oldBuffer[..])
    modifies buffer
    ensures counter == |upTo| && counter <= |w| && buffer[..] == Scatter(w, oldBuffer[..], counter, oldBuffer[..])
  {
    var len := buffer.Length;
    var num := first;
    counter := start;
    while num < len
      invariant 0 <= num && 0 <= counter <= len && w[..counter] + Column(num, gb, len) == upTo
      invariant buffer[..] == Scatter(w, oldBuffer[..], counter, oldBuffer[..])
      decreases len - num
    {
      HeadOfRest(w, counter, upTo, num, gb, len);
      buffer[num] := oldBuffer[counter];
      counter := counter + 1;
      num := num + gb;
    }
  }

  /** buffer_decr (sys.c:187-216). */
  method BufferDecr(buffer: array<int>, key: seq<int>)
    requires |key| >= 1
    modifies buffer
    ensures buffer[..] == Decrypted(key, old(buffer[..]))
  {
    var len, gb := buffer.Length, |key|;
    var oldBuffer := CopyToBuffer(buffer);
    var order := IndexArray(key);
    ghost var w := FullWalk(key, len);
    WalkIsPermutation(key, len);
    var counter := 0;
    for i := 0 to gb
      invariant counter == |Walk(order, i, len)| && counter <= len
      invariant buffer[..] == Scatter(w, oldBuffer[..], counter, oldBuffer[..])
      invariant oldBuffer[..] == old(buffer[..])
    {
      WalkStep(key, len, i);
      counter := DecrColumn(buffer, oldBuffer, order[i], gb, counter, w, Walk(order, i + 1, len));
    }
  }
}
