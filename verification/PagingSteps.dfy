/**
  What each store sequence of mm/memory.c does to the invariant and to the tasks' views.
  One lemma per kind of step; the loops of the memory manager only compose them.
 */
module PagingSteps {
  import opened Paging

  /** Writing one table word changes that word and no other: tables are neither shared nor mapped. */
  lemma PteAfterSetPte(m: Mem, role: seq<Role>, d: int, i: int, w: int)
    requires Inv(m, role) && UserSlot(d, i) && Present(m.dir[d])
    ensures Shape(SetPte(m, d, i, w)) && DirRange(SetPte(m, d, i, w)) && Boot(SetPte(m, d, i, w))
    ensures forall d', i' :: UserSlot(d', i') ==>
              Pte(SetPte(m, d, i, w), d', i') == if d' == d && i' == i then w else Pte(m, d', i')
    ensures SameLow(m, SetPte(m, d, i, w))
  {
  }

  /** Views of slots whose word is unchanged and names no table. */
  lemma ViewsAfterSetPte(m: Mem, role: seq<Role>, d: int, i: int, w: int)
    requires Inv(m, role) && UserSlot(d, i) && Present(m.dir[d])
    requires PteOk(w) && (Present(w) ==> Frame(w) != Frame(m.dir[d]))
    ensures SameViewsBut(m, SetPte(m, d, i, w), d, i)
    ensures View(SetPte(m, d, i, w), d, i) == if Present(w) then m.phys[Frame(w)] else ZeroPage()
  {
    PteAfterSetPte(m, role, d, i, w);
    forall d', i' | UserSlot(d', i') && !(d' == d && i' == i)
      ensures View(SetPte(m, d, i, w), d', i') == View(m, d', i')
    {
      assert SlotOk(m, role, d', i');
    }
  }

  /** Changing a page no slot and no table names. */
  lemma UnnamedPageKeeps(m: Mem, role: seq<Role>, f: int, p: Page)
    requires Inv(m, role) && High(f) && !role[f].Data? && !role[f].Table? && |p| == ENTRIES
    ensures Inv(SetPage(m, f, p), role)
    ensures SameViews(m, SetPage(m, f, p)) && SameLow(m, SetPage(m, f, p))
  {
    var m' := SetPage(m, f, p);
    assert Shape(m') && DirRange(m');
    assert forall d, i :: UserSlot(d, i) ==> Pte(m', d, i) == Pte(m, d, i);
    forall d, i | UserSlot(d, i) ensures SlotOk(m', role, d, i) && View(m', d, i) == View(m, d, i) {
      assert SlotOk(m, role, d, i);
    }
    forall g | High(g) ensures FrameOk(m', role, g) {
      assert FrameOk(m, role, g);
      MappersSame(m, m', g);
    }
  }

  /** Changing the count and role of a frame no slot and no table names. */
  lemma UnnamedCountKeeps(m: Mem, role: seq<Role>, f: int, c: int, r: Role)
    requires Inv(m, role) && High(f) && !role[f].Data? && !role[f].Table?
    requires (r == Free && c == 0) || (r == Held && c == 1)
    ensures Inv(SetCount(m, f, c), role[f := r])
    ensures SameViews(m, SetCount(m, f, c)) && SameLow(m, SetCount(m, f, c))
  {
    var m' := SetCount(m, f, c);
    assert Shape(m') && DirRange(m');
    assert forall d, i :: UserSlot(d, i) ==> Pte(m', d, i) == Pte(m, d, i);
    forall d, i | UserSlot(d, i) ensures SlotOk(m', role[f := r], d, i) {
      assert SlotOk(m, role, d, i);
    }
    forall g | High(g) ensures FrameOk(m', role[f := r], g) {
      assert FrameOk(m, role, g);
      MappersSame(m, m', g);
    }
  }

  /** get_free_page on a frame of count 0: the kernel holds it, zeroed, and no view changes. */
  lemma AllocKeeps(m: Mem, role: seq<Role>, f: int)
    requires Inv(m, role) && High(f) && Count(m, f) == 0
    ensures role[f] == Free
    ensures Inv(SetPage(SetCount(m, f, 1), f, ZeroPage()), role[f := Held])
    ensures SameViews(m, SetPage(SetCount(m, f, 1), f, ZeroPage()))
    ensures SameLow(m, SetPage(SetCount(m, f, 1), f, ZeroPage()))
  {
    assert FrameOk(m, role, f);
    UnnamedCountKeeps(m, role, f, 1, Held);
    UnnamedPageKeeps(SetCount(m, f, 1), role[f := Held], f, ZeroPage());
  }

  /** Installing a zeroed page as a table: every page it covers still reads as zero. */
  lemma InstallTableKeeps(m: Mem, role: seq<Role>, d: int, f: int)
    requires Inv(m, role) && High(f) && role[f] == Held && m.phys[f] == ZeroPage() && UserDir(d) && m.dir[d] == 0
    ensures Inv(SetDir(m, d, Word(f, 7)), role[f := Table(d)])
    ensures SameViews(m, SetDir(m, d, Word(f, 7)))
  {
    var m' := SetDir(m, d, Word(f, 7));
    var role' := role[f := Table(d)];
    WordDecodes(f);
    assert Shape(m') && DirRange(m');
    assert forall d', i :: UserSlot(d', i) ==> Pte(m', d', i) == Pte(m, d', i);
    forall d', i | UserSlot(d', i) ensures SlotOk(m', role', d', i) && View(m', d', i) == View(m, d', i) {
      assert SlotOk(m, role, d', i);
    }
    forall g | High(g) ensures FrameOk(m', role', g) {
      assert FrameOk(m, role, g);
      MappersSame(m, m', g);
    }
  }

  /** put_page: a held page becomes the sole, writable mapping of an empty slot. */
  lemma InstallPageKeeps(m: Mem, role: seq<Role>, d: int, i: int, f: int)
    requires Inv(m, role) && High(f) && role[f] == Held && UserSlot(d, i) && Present(m.dir[d]) && Pte(m, d, i) == 0
    ensures Inv(SetPte(m, d, i, Word(f, 7)), role[f := Data(d % 16, i)])
    ensures SameViewsBut(m, SetPte(m, d, i, Word(f, 7)), d, i)
    ensures View(SetPte(m, d, i, Word(f, 7)), d, i) == m.phys[f]
    ensures SameLow(m, SetPte(m, d, i, Word(f, 7)))
  {
    var m' := SetPte(m, d, i, Word(f, 7));
    var role' := role[f := Data(d % 16, i)];
    WordDecodes(f);
    PteAfterSetPte(m, role, d, i, Word(f, 7));
    ViewsAfterSetPte(m, role, d, i, Word(f, 7));
    forall d', i' | UserSlot(d', i') ensures SlotOk(m', role', d', i') {
      assert SlotOk(m, role, d', i');
      assert FrameOk(m, role, f);
    }
    forall g | High(g) ensures FrameOk(m', role', g) {
      assert FrameOk(m, role, g);
      MappersChange(m, m', d, i, g);
      RoleOfNamed(m, role, g);
    }
  }

  // ------------------------------------------------------------------ dropping references

  /** Clearing a slot and giving up its reference (free_page then *pg_table = 0). */
  ghost function Dropped(m: Mem, d: int, i: int): Mem
    requires Shape(m) && DirRange(m) && UserSlot(d, i) && Present(m.dir[d])
  {
    SetPte(Released(m, Pte(m, d, i)), d, i, 0)
  }

  /** free_page on the frame a table word names. */
  function Released(m: Mem, w: int): Mem
    requires Shape(m)
  {
    if Present(w) && High(Frame(w)) then SetCount(m, Frame(w), Count(m, Frame(w)) - 1) else m
  }

  function RoleAfterRelease(m: Mem, role: seq<Role>, w: int): seq<Role>
    requires Shape(m) && |role| == FRAMES
  {
    if Present(w) && High(Frame(w)) && Count(m, Frame(w)) == 1 then role[Frame(w) := Free] else role
  }

  lemma DropPageKeeps(m: Mem, role: seq<Role>, d: int, i: int)
    requires Inv(m, role) && UserSlot(d, i) && Present(m.dir[d])
    ensures Inv(Dropped(m, d, i), RoleAfterRelease(m, role, Pte(m, d, i)))
    ensures SameViewsBut(m, Dropped(m, d, i), d, i)
    ensures SameLow(m, Dropped(m, d, i))
    ensures forall d', i' :: UserSlot(d', i') ==>
              Pte(Dropped(m, d, i), d', i') == if d' == d && i' == i then 0 else Pte(m, d', i')
  {
    var w := Pte(m, d, i);
    var m1 := SetPte(m, d, i, 0);
    var m' := Dropped(m, d, i);
    var role' := RoleAfterRelease(m, role, w);
    PteAfterSetPte(m, role, d, i, 0);
    ViewsAfterSetPte(m, role, d, i, 0);
    assert m' == Released(m1, w);
    assert SlotOk(m, role, d, i);
    assert forall d', i' :: UserSlot(d', i') ==> Pte(m', d', i') == Pte(m1, d', i');
    DropSlotsOk(m, role, d, i);
    DropFramesOk(m, role, d, i);
  }

  /** What dropping a slot does to the table words. */
  ghost predicate DroppedWords(m: Mem, d: int, i: int)
    requires Shape(m) && DirRange(m) && UserSlot(d, i) && Present(m.dir[d])
  {
    && Shape(Dropped(m, d, i)) && DirRange(Dropped(m, d, i))
    && forall d', i' :: UserSlot(d', i') ==>
         Pte(Dropped(m, d, i), d', i') == if d' == d && i' == i then 0 else Pte(m, d', i')
  }

  lemma DropSlotsOk(m: Mem, role: seq<Role>, d: int, i: int)
    requires Inv(m, role) && UserSlot(d, i) && Present(m.dir[d]) && DroppedWords(m, d, i)
    ensures SlotsOk(Dropped(m, d, i), RoleAfterRelease(m, role, Pte(m, d, i)))
  {
    var m', role' := Dropped(m, d, i), RoleAfterRelease(m, role, Pte(m, d, i));
    assert SlotOk(m, role, d, i);
    forall d', i' | UserSlot(d', i') ensures SlotOk(m', role', d', i') {
      assert SlotOk(m, role, d', i');
      if !(d' == d && i' == i) { SlotAfterRelease(m, role, d, i, d', i'); }
    }
  }

  lemma DropFramesOk(m: Mem, role: seq<Role>, d: int, i: int)
    requires Inv(m, role) && UserSlot(d, i) && Present(m.dir[d]) && DroppedWords(m, d, i)
    ensures FramesOk(Dropped(m, d, i), RoleAfterRelease(m, role, Pte(m, d, i)))
  {
    var m', role' := Dropped(m, d, i), RoleAfterRelease(m, role, Pte(m, d, i));
    assert SlotOk(m, role, d, i);
    forall g | High(g) ensures FrameOk(m', role', g) {
      assert FrameOk(m, role, g);
      MappersChange(m, m', d, i, g);
    }
  }

  /** A slot that still names the released frame was one of several, hence read-only. */
  lemma SlotAfterRelease(m: Mem, role: seq<Role>, d: int, i: int, d': int, i': int)
    requires Inv(m, role) && UserSlot(d, i) && UserSlot(d', i') && !(d' == d && i' == i)
    ensures Present(Pte(m, d, i)) && High(Frame(Pte(m, d, i))) && Names(Pte(m, d', i'), Frame(Pte(m, d, i)))
            ==> Count(m, Frame(Pte(m, d, i))) > 1 && !Writable(Pte(m, d', i'))
  {
    var w := Pte(m, d, i);
    assert SlotOk(m, role, d, i) && SlotOk(m, role, d', i');
    if Present(w) && High(Frame(w)) && Names(Pte(m, d', i'), Frame(w)) {
      assert FrameOk(m, role, Frame(w));
      if Count(m, Frame(w)) == 1 { SoleMapper(m, role, d, i, d', i'); }
    }
  }

  /** Giving up an emptied table (free_page then *dir = 0). */
  lemma DropTableKeeps(m: Mem, role: seq<Role>, d: int)
    requires Inv(m, role) && UserDir(d) && Present(m.dir[d])
    requires forall i :: 0 <= i < ENTRIES ==> Pte(m, d, i) == 0
    ensures Count(m, Frame(m.dir[d])) == 1
    ensures Inv(SetDir(SetCount(m, Frame(m.dir[d]), 0), d, 0), role[Frame(m.dir[d]) := Free])
    ensures SameViews(m, SetDir(SetCount(m, Frame(m.dir[d]), 0), d, 0))
  {
    var f := Frame(m.dir[d]);
    var m' := SetDir(SetCount(m, f, 0), d, 0);
    var role' := role[f := Free];
    assert FrameOk(m, role, f);
    assert Shape(m') && DirRange(m');
    assert forall d', i :: UserSlot(d', i) ==> Pte(m', d', i) == Pte(m, d', i);
    forall d', i | UserSlot(d', i) ensures SlotOk(m', role', d', i) && View(m', d', i) == View(m, d', i) {
      assert SlotOk(m, role, d', i);
    }
    forall g | High(g) ensures FrameOk(m', role', g) {
      assert FrameOk(m, role, g);
      MappersSame(m, m', g);
    }
  }

  // ------------------------------------------------------------------ write faults

  /** un_wp_page, sole owner: turning the write bit on. */
  lemma MakeWritableKeeps(m: Mem, role: seq<Role>, d: int, i: int)
    requires Inv(m, role) && UserSlot(d, i) && Present(Pte(m, d, i))
    requires High(Frame(Pte(m, d, i))) && Count(m, Frame(Pte(m, d, i))) == 1
    ensures Inv(SetPte(m, d, i, SetWrite(Pte(m, d, i))), role)
    ensures SameViews(m, SetPte(m, d, i, SetWrite(Pte(m, d, i))))
    ensures SameLow(m, SetPte(m, d, i, SetWrite(Pte(m, d, i))))
    ensures Pte(SetPte(m, d, i, SetWrite(Pte(m, d, i))), d, i) == SetWrite(Pte(m, d, i))
  {
    var w := SetWrite(Pte(m, d, i));
    var m' := SetPte(m, d, i, w);
    assert SlotOk(m, role, d, i);
    SetWriteDecodes(Pte(m, d, i));
    PteAfterSetPte(m, role, d, i, w);
    ViewsAfterSetPte(m, role, d, i, w);
    forall d', i' | UserSlot(d', i') ensures SlotOk(m', role, d', i') {
      assert SlotOk(m, role, d', i');
    }
    forall g | High(g) ensures FrameOk(m', role, g) {
      assert FrameOk(m, role, g);
      MappersChange(m, m', d, i, g);
    }
  }

  /** The state after un_wp_page has copied the frame of (d, i) to the held frame f. */
  ghost function Unshared(m: Mem, d: int, i: int, f: int): Mem
    requires Shape(m) && DirRange(m) && UserSlot(d, i) && Present(Pte(m, d, i)) && PteOk(Pte(m, d, i)) && High(f)
  {
    SetPage(SetPte(Released(m, Pte(m, d, i)), d, i, Word(f, 7)), f, m.phys[Frame(Pte(m, d, i))])
  }

  /** The same state reached as fill, drop, map: the order of the stores does not matter. */
  lemma UnsharedByParts(m: Mem, role: seq<Role>, d: int, i: int, f: int)
    requires Inv(m, role) && UserSlot(d, i) && Present(Pte(m, d, i)) && PteOk(Pte(m, d, i)) && High(f) &&
             role[f] == Held
    ensures var m1 := SetPage(m, f, m.phys[Frame(Pte(m, d, i))]);
            Shape(m1) && DirRange(m1) && Pte(m1, d, i) == Pte(m, d, i)
            && Shape(Dropped(m1, d, i)) && SetPte(Dropped(m1, d, i), d, i, Word(f, 7)) == Unshared(m, d, i, f)
  {
    var t := Frame(m.dir[d]);
    assert role[t] == Table(d) && t != f;
    var page := m.phys[Frame(Pte(m, d, i))];
    var m1 := SetPage(m, f, page);
    assert Shape(m1) && DirRange(m1) && Pte(m1, d, i) == Pte(m, d, i);
    var m2 := Dropped(m1, d, i);
    assert m2.phys[t] == m.phys[t][i := 0];
    assert m2.phys[t][i := Word(f, 7)] == m.phys[t][i := Word(f, 7)];
    assert SetPte(m2, d, i, Word(f, 7)).phys == Unshared(m, d, i, f).phys;
  }

  /** The private copy shows the task the same bytes as before, and every other view is untouched. */
  lemma UnshareKeeps(m: Mem, role: seq<Role>, d: int, i: int, f: int)
    requires Inv(m, role) && UserSlot(d, i) && Present(Pte(m, d, i)) && PteOk(Pte(m, d, i)) && High(f) &&
             role[f] == Held
    ensures Inv(Unshared(m, d, i, f), RoleAfterRelease(m, role, Pte(m, d, i))[f := Data(d % 16, i)])
    ensures SameViews(m, Unshared(m, d, i, f))
    ensures SameLow(m, Unshared(m, d, i, f))
    ensures Pte(Unshared(m, d, i, f), d, i) == Word(f, 7)
  {
    var w := Pte(m, d, i);
    FilledAndDropped(m, role, d, i, f);
    UnsharedByParts(m, role, d, i, f);
    var m2 := Dropped(SetPage(m, f, m.phys[Frame(w)]), d, i);
    var role2 := RoleAfterRelease(m, role, w);
    InstallPageKeeps(m2, role2, d, i, f);
    PteAfterSetPte(m2, role2, d, i, Word(f, 7));
  }

  /** The new page filled, the old mapping dropped: only the view of this slot is gone. */
  lemma FilledAndDropped(m: Mem, role: seq<Role>, d: int, i: int, f: int)
    requires Inv(m, role) && UserSlot(d, i) && Present(Pte(m, d, i)) && PteOk(Pte(m, d, i)) && High(f) &&
             role[f] == Held
    ensures var m1 := SetPage(m, f, m.phys[Frame(Pte(m, d, i))]);
            && Shape(m1) && DirRange(m1) && Present(m1.dir[d])
            && var m2, role2 := Dropped(m1, d, i), RoleAfterRelease(m, role, Pte(m, d, i));
            && Inv(m2, role2) && SameViewsBut(m, m2, d, i) && SameLow(m, m2) && role2[f] == Held
            && Pte(m2, d, i) == 0 && Present(m2.dir[d]) && m2.phys[f] == View(m, d, i)
  {
    var w := Pte(m, d, i);
    assert SlotOk(m, role, d, i);
    var page := m.phys[Frame(w)];
    var m1 := SetPage(m, f, page);
    UnnamedPageKeeps(m, role, f, page);
    assert Pte(m1, d, i) == w;
    assert RoleAfterRelease(m1, role, w) == RoleAfterRelease(m, role, w);
    DropPageKeeps(m1, role, d, i);
  }

  /** A store through a writable mapping reaches that page's view and no other. */
  lemma StoreKeeps(m: Mem, role: seq<Role>, d: int, i: int, p: Page)
    requires Inv(m, role) && UserSlot(d, i) && Present(Pte(m, d, i)) && Writable(Pte(m, d, i)) && |p| == ENTRIES
    ensures High(Frame(Pte(m, d, i)))
    ensures Inv(SetPage(m, Frame(Pte(m, d, i)), p), role)
    ensures SameViewsBut(m, SetPage(m, Frame(Pte(m, d, i)), p), d, i)
    ensures View(SetPage(m, Frame(Pte(m, d, i)), p), d, i) == p
    ensures SameLow(m, SetPage(m, Frame(Pte(m, d, i)), p))
  {
    assert SlotOk(m, role, d, i);
    var f := Frame(Pte(m, d, i));
    var m' := SetPage(m, f, p);
    assert Shape(m') && DirRange(m');
    assert forall d', i' :: UserSlot(d', i') ==> Pte(m', d', i') == Pte(m, d', i');
    forall d', i' | UserSlot(d', i')
      ensures SlotOk(m', role, d', i') && (!(d' == d && i' == i) ==> View(m', d', i') == View(m, d', i'))
    {
      assert SlotOk(m, role, d', i');
      if Names(Pte(m, d', i'), f) { SoleMapper(m, role, d, i, d', i'); }
    }
    forall g | High(g) ensures FrameOk(m', role, g) {
      assert FrameOk(m, role, g);
      MappersSame(m, m', g);
    }
  }

  // ------------------------------------------------------------------ sharing at fork

  /** One iteration of the copy loop on a frame below LOW_MEM: a read-only, uncounted mapping. */
  lemma ShareLowKeeps(m: Mem, role: seq<Role>, to: int, i: int, w: int)
    requires Inv(m, role) && UserSlot(to, i) && Present(m.dir[to]) && Pte(m, to, i) == 0
    requires 0 <= w && Present(w) && Frame(w) < LOW_FRAMES
    ensures Inv(SetPte(m, to, i, ClearWrite(w)), role)
    ensures SameViewsBut(m, SetPte(m, to, i, ClearWrite(w)), to, i)
    ensures View(SetPte(m, to, i, ClearWrite(w)), to, i) == m.phys[Frame(w)]
    ensures SameLow(m, SetPte(m, to, i, ClearWrite(w)))
    ensures forall d', i' :: UserSlot(d', i') && !(d' == to && i' == i) ==>
              Pte(SetPte(m, to, i, ClearWrite(w)), d', i') == Pte(m, d', i')
  {
    var m' := SetPte(m, to, i, ClearWrite(w));
    ClearWriteDecodes(w);
    PteAfterSetPte(m, role, to, i, ClearWrite(w));
    ViewsAfterSetPte(m, role, to, i, ClearWrite(w));
    forall d', i' | UserSlot(d', i') ensures SlotOk(m', role, d', i') {
      assert SlotOk(m, role, d', i');
    }
    forall g | High(g) ensures FrameOk(m', role, g) {
      assert FrameOk(m, role, g);
      MappersChange(m, m', to, i, g);
    }
  }

  /** Taking the write bit away from a slot changes no view. */
  lemma ProtectKeeps(m: Mem, role: seq<Role>, d: int, i: int)
    requires Inv(m, role) && UserSlot(d, i) && Present(Pte(m, d, i))
    ensures Inv(SetPte(m, d, i, ClearWrite(Pte(m, d, i))), role)
    ensures SameViews(m, SetPte(m, d, i, ClearWrite(Pte(m, d, i))))
    ensures SameLow(m, SetPte(m, d, i, ClearWrite(Pte(m, d, i))))
    ensures forall d', i' :: UserSlot(d', i') ==>
              Pte(SetPte(m, d, i, ClearWrite(Pte(m, d, i))), d', i')
              == if d' == d && i' == i then ClearWrite(Pte(m, d, i)) else Pte(m, d', i')
  {
    var w := ClearWrite(Pte(m, d, i));
    var m' := SetPte(m, d, i, w);
    assert SlotOk(m, role, d, i);
    ClearWriteDecodes(Pte(m, d, i));
    PteAfterSetPte(m, role, d, i, w);
    ViewsAfterSetPte(m, role, d, i, w);
    forall d', i' | UserSlot(d', i') ensures SlotOk(m', role, d', i') {
      assert SlotOk(m, role, d', i');
    }
    forall g | High(g) ensures FrameOk(m', role, g) {
      assert FrameOk(m, role, g);
      MappersChange(m, m', d, i, g);
    }
  }

  /** Adding a read-only mapping of a frame whose mappers are all read-only. */
  ghost function WithMapping(m: Mem, to: int, i: int, w: int): Mem
    requires Shape(m) && DirRange(m) && UserSlot(to, i) && Present(m.dir[to]) && Present(w) && High(Frame(w))
  {
    SetCount(SetPte(m, to, i, w), Frame(w), Count(m, Frame(w)) + 1)
  }

  lemma AddMappingKeeps(m: Mem, role: seq<Role>, from: int, to: int, i: int)
    requires Inv(m, role) && UserSlot(from, i) && UserSlot(to, i) && from != to && from % 16 == to % 16
    requires Present(m.dir[to]) && Pte(m, to, i) == 0
    requires Present(Pte(m, from, i)) && High(Frame(Pte(m, from, i))) && !Writable(Pte(m, from, i))
    ensures Inv(WithMapping(m, to, i, Pte(m, from, i)), role)
    ensures SameViewsBut(m, WithMapping(m, to, i, Pte(m, from, i)), to, i)
    ensures View(WithMapping(m, to, i, Pte(m, from, i)), to, i) == View(m, from, i)
    ensures SameLow(m, WithMapping(m, to, i, Pte(m, from, i)))
    ensures forall d', i' :: UserSlot(d', i') && !(d' == to && i' == i) ==>
              Pte(WithMapping(m, to, i, Pte(m, from, i)), d', i') == Pte(m, d', i')
  {
    var w := Pte(m, from, i);
    assert SlotOk(m, role, from, i);
    var m1 := SetPte(m, to, i, w);
    PteAfterSetPte(m, role, to, i, w);
    ViewsAfterSetPte(m, role, to, i, w);
    var m' := WithMapping(m, to, i, w);
    assert Shape(m') && DirRange(m');
    assert forall d', i' :: UserSlot(d', i') ==> Pte(m', d', i') == Pte(m1, d', i');
    forall d', i' | UserSlot(d', i') ensures SlotOk(m', role, d', i') {
      assert SlotOk(m, role, d', i');
      if Names(Pte(m, d', i'), Frame(w)) && Writable(Pte(m, d', i')) {
        SoleMapper(m, role, d', i', from, i);
      }
    }
    forall g | High(g) ensures FrameOk(m', role, g) {
      assert FrameOk(m, role, g);
      MappersChange(m, m', to, i, g);
    }
  }

  /** One user-to-user iteration of the copy loop on a counted frame (memory.c:162-172),
      in the order of the stores: new slot, old slot, count. */
  ghost function Shared(m: Mem, from: int, to: int, i: int): Mem
    requires Shape(m) && DirRange(m) && UserSlot(from, i) && UserSlot(to, i) && Present(m.dir[from]) &&
             Present(m.dir[to])
    requires Frame(m.dir[from]) != Frame(m.dir[to])
    requires Present(Pte(m, from, i)) && High(Frame(Pte(m, from, i)))
  {
    SetCount(SetPte(SetPte(m, to, i, ClearWrite(Pte(m, from, i))), from, i, ClearWrite(Pte(m, from, i))),
             Frame(Pte(m, from, i)), Count(m, Frame(Pte(m, from, i))) + 1)
  }

  lemma ShareKeeps(m: Mem, role: seq<Role>, from: int, to: int, i: int)
    requires Inv(m, role) && UserSlot(from, i) && UserSlot(to, i) && from != to && from % 16 == to % 16
    requires Present(m.dir[from]) && Present(m.dir[to]) && Pte(m, to, i) == 0
    requires Present(Pte(m, from, i)) && High(Frame(Pte(m, from, i)))
    ensures Frame(m.dir[from]) != Frame(m.dir[to])
    ensures Inv(Shared(m, from, to, i), role)
    ensures SameViewsBut(m, Shared(m, from, to, i), to, i)
    ensures View(Shared(m, from, to, i), to, i) == View(m, from, i)
    ensures SameLow(m, Shared(m, from, to, i))
    ensures forall d', i' :: UserSlot(d', i') && !(d' == to && i' == i) ==>
              Pte(Shared(m, from, to, i), d', i') == if d' == from && i' == i then ClearWrite(Pte(m, d', i'))
                else Pte(m, d', i')
  {
    var w := ClearWrite(Pte(m, from, i));
    assert SlotOk(m, role, from, i);
    ClearWriteDecodes(Pte(m, from, i));
    assert role[Frame(m.dir[from])] == Table(from) && role[Frame(m.dir[to])] == Table(to);
    ProtectKeeps(m, role, from, i);
    var m1 := SetPte(m, from, i, w);
    AddMappingKeeps(m1, role, from, to, i);
    var m' := WithMapping(m1, to, i, w);
    assert m' == Shared(m, from, to, i);
  }
}
