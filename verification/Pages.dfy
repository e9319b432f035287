/** The pages the lists of checkpoints are on: they hold the lists, nothing that is taken for a new
block overwrites them, and the reader accepts them. */
module Pages {
  import opened Extents
  import opened ExtentOps
  import opened Checkpoints
  import opened Protocol
  import opened Safety
  import opened Runs
  import opened IntPack
  import opened ListCodec
  import opened Format

  /** The pages written to a file, by offset. */
  type Store = map<nat, bytes>

  /** A list is on the page it is said to be on; an empty one may not have been written. */
  ghost predicate PageOf(pages: Store, at: Extent, list: set<int>) {
    if at.size == 0 then list == {}
    else
      && at.off in pages && ListAt(pages[at.off], 0).Some?
      && Canonical(ListAt(pages[at.off], 0).value) && Bytes(ListAt(pages[at.off], 0).value) == list
  }

  /** An avail list is two lists, one after the other, and is always written. The reader accepts it,
      and the block it is in was taken from it or from past the end of the file. */
  ghost predicate AvailOf(pages: Store, unit: nat, fileSize: nat, at: Extent, list: set<int>)
    requires 0 < unit
  {
    && at.size > 0 && at.off in pages && ListAt(pages[at.off], 0).Some?
    && Acceptable(ListAt(pages[at.off], 0).value, unit, fileSize, true)
    && Bytes(ListAt(pages[at.off], 0).value) == list
    && (Span(at) <= list || Span(at) !! list)
  }

  /** The lists of a checkpoint are on their pages, but for those to be written again. Offsets are
      signed 64-bit numbers. */
  ghost predicate PagedEntry(pages: Store, unit: nat, c: Ckpt)
    requires 0 < unit
  {
    c.fileSize < OFF_LIMIT ==>
      && (c.update || (PageOf(pages, c.allocAt, c.alloc) && PageOf(pages, c.discardAt, c.discard)))
      && AvailOf(pages, unit, c.fileSize, c.availAt, c.avail)
  }

  ghost predicate Paged(pages: Store, unit: nat, cs: seq<Ckpt>)
    requires 0 < unit
  {
    forall i | 0 <= i < |cs| :: PagedEntry(pages, unit, cs[i])
  }

  // ---- Pages and space ----

  /** A block cannot be taken again. */
  ghost predicate Taken(sp: Space, e: Extent) {
    e.size > 0 ==> Span(e) !! sp.avail && e.End() <= sp.size
  }

  ghost predicate SafeEntry(pages: Store, unit: nat, sp: Space, c: Ckpt)
    requires 0 < unit
  {
    && PagedEntry(pages, unit, c)
    && Taken(sp, c.allocAt) && Taken(sp, c.discardAt) && Taken(sp, c.availAt)
  }

  ghost predicate Safe(pages: Store, unit: nat, sp: Space, cs: seq<Ckpt>)
    requires 0 < unit
  {
    forall i | 0 <= i < |cs| :: SafeEntry(pages, unit, sp, cs[i])
  }

  function Stored(pages: Store, at: Extent, page: bytes): Store {
    if at.size == 0 then pages else pages[at.off := page]
  }

  lemma TakenStays(sp: Space, at: Extent, e: Extent)
    requires Taken(sp, e) && CanTake(sp, at)
    ensures Taken(Take(sp, at), e)
    ensures at.size > 0 && e.size > 0 ==> at.off != e.off
  {
    if at.size > 0 && e.size > 0 {
      assert at.off in Span(at) && e.off in Span(e);
    }
  }

  ghost predicate Bounded(sp: Space) {
    forall x | x in sp.avail :: x < sp.size
  }

  lemma NewTaken(sp: Space, at: Extent)
    requires Bounded(sp) && CanTake(sp, at)
    ensures Taken(Take(sp, at), at)
  {
    LastByte(at);
  }

  lemma StoredElsewhere(pages: Store, unit: nat, at: Extent, page: bytes, c: Ckpt)
    requires 0 < unit && PagedEntry(pages, unit, c)
    requires at.size > 0 ==>
               && (c.allocAt.size > 0 ==> at.off != c.allocAt.off)
               && (c.discardAt.size > 0 ==> at.off != c.discardAt.off)
               && at.off != c.availAt.off
    ensures PagedEntry(Stored(pages, at, page), unit, c)
  {
    hide Canonical, Bytes, ListAt, Span, Acceptable;
  }

  /** Writing a page to a newly taken block leaves the pages of all checkpoints alone. */
  lemma SafeStays(pages: Store, unit: nat, sp: Space, at: Extent, page: bytes, cs: seq<Ckpt>)
    requires 0 < unit && Safe(pages, unit, sp, cs) && CanTake(sp, at)
    ensures Safe(Stored(pages, at, page), unit, Take(sp, at), cs)
  {
    hide CanTake, Take, Taken, PagedEntry;
    forall i | 0 <= i < |cs| ensures SafeEntry(Stored(pages, at, page), unit, Take(sp, at), cs[i]) {
      EntryStays(pages, unit, sp, at, page, cs[i]);
    }
  }

  lemma EntryStays(pages: Store, unit: nat, sp: Space, at: Extent, page: bytes, c: Ckpt)
    requires 0 < unit && SafeEntry(pages, unit, sp, c) && CanTake(sp, at)
    ensures SafeEntry(Stored(pages, at, page), unit, Take(sp, at), c)
  {
    TakenStays(sp, at, c.allocAt);
    TakenStays(sp, at, c.discardAt);
    TakenStays(sp, at, c.availAt);
    if c.fileSize < OFF_LIMIT {
      hide CanTake, Take, Taken, ListAt, Canonical, Bytes, Acceptable, Span;
      assert c.availAt.size > 0;
      StoredElsewhere(pages, unit, at, page, c);
    }
  }

  /** A page is as it was. */
  ghost predicate SameAt(pages: Store, pages': Store, at: Extent) {
    at.size > 0 && at.off in pages ==> at.off in pages' && pages'[at.off] == pages[at.off]
  }

  ghost predicate SameFor(pages: Store, pages': Store, c: Ckpt) {
    SameAt(pages, pages', c.allocAt) && SameAt(pages, pages', c.discardAt) && SameAt(pages, pages', c.availAt)
  }

  /** The pages of the lists of some checkpoints are as they were. */
  ghost predicate SameForAll(pages: Store, pages': Store, cs: seq<Ckpt>) {
    forall i | 0 <= i < |cs| :: SameFor(pages, pages', cs[i])
  }

  lemma SameStays(pages: Store, unit: nat, sp: Space, at: Extent, page: bytes, cs: seq<Ckpt>)
    requires 0 < unit && Safe(pages, unit, sp, cs) && CanTake(sp, at)
    ensures SameForAll(pages, Stored(pages, at, page), cs)
  {
    hide CanTake, Take, Taken, PagedEntry;
    forall i | 0 <= i < |cs| ensures SameFor(pages, Stored(pages, at, page), cs[i]) {
      assert SafeEntry(pages, unit, sp, cs[i]);
      TakenStays(sp, at, cs[i].allocAt);
      TakenStays(sp, at, cs[i].discardAt);
      TakenStays(sp, at, cs[i].availAt);
    }
  }

  lemma SameTwice(pages: Store, pages1: Store, pages2: Store, cs: seq<Ckpt>)
    requires SameForAll(pages, pages1, cs) && SameForAll(pages1, pages2, cs)
    ensures SameForAll(pages, pages2, cs)
  {
    forall i | 0 <= i < |cs| ensures SameFor(pages, pages2, cs[i]) {
      assert SameFor(pages, pages1, cs[i]) && SameFor(pages1, pages2, cs[i]);
    }
  }

  lemma SameAlways(pages: Store, cs: seq<Ckpt>)
    ensures SameForAll(pages, pages, cs)
  {
  }

  lemma TakenTrimmed(sp: Space, e: Extent)
    requires Taken(sp, e)
    ensures Taken(Trim(sp), e)
  {
    TrimCuts(sp);
    if e.size > 0 {
      assert e.End() - 1 in Span(e);
      assert e.End() - 1 !in Range(Trim(sp).size, sp.size);
    }
  }

  lemma SafeTrimmed(pages: Store, unit: nat, sp: Space, cs: seq<Ckpt>)
    requires 0 < unit && Safe(pages, unit, sp, cs)
    ensures Safe(pages, unit, Trim(sp), cs)
  {
    hide Trim, Taken, PagedEntry;
    forall i | 0 <= i < |cs| ensures SafeEntry(pages, unit, Trim(sp), cs[i]) {
      TakenTrimmed(sp, cs[i].allocAt);
      TakenTrimmed(sp, cs[i].discardAt);
      TakenTrimmed(sp, cs[i].availAt);
    }
  }

  /** The pages of checkpoints whose list blocks are not available are safe. */
  lemma PagedIsSafe(pages: Store, unit: nat, sp: Space, cs: seq<Ckpt>)
    requires 0 < unit && Paged(pages, unit, cs) && Exts(cs) !! sp.avail && Exts(cs) <= Range(unit, sp.size)
    ensures Safe(pages, unit, sp, cs)
  {
    hide PagedEntry;
    forall i | 0 <= i < |cs| ensures SafeEntry(pages, unit, sp, cs[i]) {
      ExtIn(cs, i);
      LastByte(cs[i].allocAt);
      LastByte(cs[i].discardAt);
      LastByte(cs[i].availAt);
    }
  }

  lemma LastByte(e: Extent)
    ensures e.size > 0 ==> e.End() - 1 in Span(e)
  {
  }

  /** Deletions leave the pages of the survivors where they are, or mark them for writing. */
  lemma {:induction false} RollPaged(pages: Store, unit: nat, cs: seq<Ckpt>, del: seq<bool>)
    requires 0 < unit && |cs| == |del| > 0 && !del[|del| - 1]
    requires forall i | 0 <= i < |cs| - 1 && !del[i] :: PagedEntry(pages, unit, cs[i])
    ensures var r := Roll(cs, del).cs; Paged(pages, unit, r[..|r| - 1])
    decreases |cs|
  {
    hide PagedEntry, Roll, Span, Ext, Drops;
    if |cs| == 1 {
      assert Roll(cs, del).cs[..|Roll(cs, del).cs| - 1] == [] by { RollLast(cs, del); }
    } else if !del[0] {
      RollPaged(pages, unit, cs[1..], del[1..]);
      RollKeep(cs, del);
      var r := Roll(cs[1..], del[1..]).cs;
      assert ([cs[0]] + r)[..|r|] == [cs[0]] + r[..|r| - 1];
    } else {
      var t, both, lists := DropsOf(cs, del);
      var next := [t] + cs[2..];
      DropPaged(pages, unit, cs, del, t, both, lists);
      forall i | 0 <= i < |next| - 1 && !del[1..][i] ensures PagedEntry(pages, unit, next[i]) {
        assert i > 0 ==> next[i] == cs[i + 1];
      }
      RollPaged(pages, unit, next, del[1..]);
      RollDrop(cs, del, t, both, lists);
    }
  }

  lemma RollLast(cs: seq<Ckpt>, del: seq<bool>)
    requires |cs| == |del| == 1 && !del[0]
    ensures |Roll(cs, del).cs| == 1
  {
  }

  lemma DropPaged(pages: Store, unit: nat, cs: seq<Ckpt>, del: seq<bool>, t: Ckpt, both: set<int>, lists: set<int>)
    requires 0 < unit && |cs| == |del| > 1
    requires Drops(cs, del, t, both, lists) && (!del[1] && |cs| > 2 ==> PagedEntry(pages, unit, cs[1]))
    ensures !del[1] && |cs| > 2 ==> PagedEntry(pages, unit, t)
  {
    if !del[1] && |cs| > 2 {
      StalePaged(pages, unit, cs[1], t);
    }
  }

  ghost predicate InsideOwn(unit: nat, c: Ckpt) {
    c.alloc <= Range(unit, c.fileSize) && c.discard <= Range(unit, c.fileSize)
  }

  ghost predicate AllInside(unit: nat, cs: seq<Ckpt>) {
    forall i | 0 <= i < |cs| :: InsideOwn(unit, cs[i])
  }

  /** After the deletions the pages of the survivors, and those of the checkpoints there were before,
      are in blocks that cannot be taken, and the lists to be written are inside their files. */
  lemma DeletedSafe(pages: Store, s: State, order: nat, del: seq<bool>, root: Extent)
    requires Inv(s) && s.phase == InProgress && Formatted(s) && Paged(pages, s.unit, s.cur)
    requires CanTake(SpaceOf(s), root) && |del| == |s.cur|
    ensures var s1 := WithRoot(s, root);
            var r := Roll(s.cur + [NewCkpt(s1, order, root)], del + [false]).cs;
            && Safe(pages, s.unit, SpaceOf(s1), r[..|r| - 1]) && Safe(pages, s.unit, SpaceOf(s1), s.cur)
            && AllInside(s.unit, r[..|r| - 1])
  {
    hide Inv, CanTake, Roll, Chain, Spaced, Range, Span, Conserved, Apart, Base, Uses, Pick, PagedEntry, Safe, Exts;
    hide SpaceAligned, Inside, Aligned;
    var s1 := WithRoot(s, root);
    var all := s.cur + [NewCkpt(s1, order, root)];
    var r := Roll(all, del + [false]).cs;
    AfterDeletions(s, order, del, root);
    RollPaged(pages, s.unit, all, del + [false]);
    var kept := r[..|r| - 1];
    assert r == kept + [r[|r| - 1]];
    SpaceKept(s.unit, kept, r[|r| - 1], SpaceOf(s1), Roll(all, del + [false]).freed);
    PagedIsSafe(pages, s.unit, SpaceOf(s1), kept);
    CurSpace(s, s1);
    PagedIsSafe(pages, s.unit, SpaceOf(s1), s.cur);
    InsideAppend(s.unit, {}, s.cur, NewCkpt(s1, order, root));
    RollInside(s.unit, {}, all, del + [false]);
    forall k | 0 <= k < |kept| ensures InsideOwn(s.unit, kept[k]) {
      InsideAt(s.unit, {}, r, k, 1);
      ListsApart(r, k);
    }
  }

  lemma SpaceKept(unit: nat, cs: seq<Ckpt>, c: Ckpt, sp: Space, freed: set<int>)
    requires Conserved(unit, cs + [c], sp, freed, {})
    ensures Exts(cs) !! sp.avail && Exts(cs) <= Range(unit, sp.size)
  {
    hide Range, Spaced, Allocs, Exts;
    OneMore(cs, c);
  }

  lemma CurSpace(s: State, s1: State)
    requires Inv(s) && s1.avail <= s.avail && s.size <= s1.size
    ensures Exts(s.cur) !! s1.avail && Exts(s.cur) <= Range(s.unit, s1.size)
  {
    SpaceOut(s);
    hide Inv, Exts;
  }

  lemma SafePaged(pages: Store, unit: nat, sp: Space, cs: seq<Ckpt>)
    requires 0 < unit && Safe(pages, unit, sp, cs)
    ensures Paged(pages, unit, cs)
  {
    hide PagedEntry, Taken;
    forall i | 0 <= i < |cs| ensures PagedEntry(pages, unit, cs[i]) {
      assert SafeEntry(pages, unit, sp, cs[i]);
    }
  }

  lemma SafePagedNext(pages: Store, unit: nat, sp: Space, cs: seq<Ckpt>, c: Ckpt)
    requires 0 < unit && Safe(pages, unit, sp, cs) && SafeEntry(pages, unit, sp, c)
    ensures Paged(pages, unit, cs + [c])
  {
    hide PagedEntry, Taken;
    SafePaged(pages, unit, sp, cs);
  }

  lemma StalePaged(pages: Store, unit: nat, c: Ckpt, t: Ckpt)
    requires 0 < unit && PagedEntry(pages, unit, c) && t.update
    requires t.availAt == c.availAt && t.avail == c.avail && t.fileSize == c.fileSize
    ensures PagedEntry(pages, unit, t)
  {
  }

  // ---- Reading ----

  /** Read the list on a page: one that is there, of whole units inside the file, is read. */
  method ReadAt(pages: Store, at: Extent, unit: nat, fileSize: nat, ghost list: set<int>) returns (el: ExtentList)
    requires 0 < unit && PageOf(pages, at, list) && Aligned(unit, list) && list <= Range(unit, fileSize)
    ensures el.Valid() && el.Set() == list
  {
    hide Canonical, Bytes, Aligned, Range, InFile, Ascending;
    BytesNone();
    if at.size == 0 {
      return EMPTY;
    }
    ghost var s := ListAt(pages[at.off], 0).value;
    forall i | 0 <= i < |s| ensures InFile(s[i], unit, fileSize) {
      ExtentsInFile(unit, fileSize, s, i);
    }
    CanonicalAscends(s);
    var r := ReadList(pages[at.off], 0, unit, fileSize, false);
    el := r.value;
  }

  lemma CanonicalAscends(s: seq<Extent>)
    requires Canonical(s)
    ensures Ascending(s)
  {
  }

  /** Read an avail list: its parts are merged and the block it is in taken out. */
  method ReadAvailAt(pages: Store, at: Extent, unit: nat, fileSize: nat, ghost list: set<int>)
    returns (el: ExtentList)
    requires 0 < unit && AvailOf(pages, unit, fileSize, at, list)
    ensures el.Valid() && el.Set() == list - Span(at)
  {
    hide Canonical, Bytes, Acceptable, Range;
    var r := ReadList(pages[at.off], 0, unit, fileSize, true);
    el := r.value;
    var cut := RemoveOverlap(el, at.off, at.size);
    if cut.Removed? {
      el := cut.value;
    }
  }

  // ---- Writing ----

  /** A page holds a list. */
  ghost predicate PageHolds(page: bytes, s: seq<Extent>) {
    Storable(s) ==> ListAt(page, 0) == Some(s)
  }

  /** The page for a list. */
  method MakePage(el: seq<Extent>) returns (page: bytes)
    ensures PageHolds(page, el) && (Storable(el) ==> page == ListBytes(el, 0))
  {
    hide ListAt, ListBytes, Holds;
    page := [];
    if Storable(el) {
      page := WriteList(el, [], false);
      assert el + [] == el;
      HoldsAll(page);
      ListReads(page, 0, el, 0);
    }
  }

  lemma HeldByPage(page: bytes, more: bytes)
    ensures Holds(page + more, 0, page)
  {
  }

  lemma NotStorable(a: seq<Extent>, b: seq<Extent>)
    requires !Storable(a) || !Storable(b)
    ensures !Storable(a + b)
  {
    assert forall i | 0 <= i < |a| :: (a + b)[i] == a[i];
    assert forall i | 0 <= i < |b| :: (a + b)[|a| + i] == b[i];
  }

  /** Ranges past the description and below the limit of offsets can be written. */
  lemma InsideStorable(unit: nat, fileSize: nat, s: seq<Extent>)
    requires 0 < unit && fileSize < OFF_LIMIT && Bytes(s) <= Range(unit, fileSize)
    requires forall i | 0 <= i < |s| :: s[i].size > 0
    ensures Storable(s)
  {
    forall i | 0 <= i < |s| ensures IsRange(s[i].off, s[i].size) {
      SpanIn(s, i);
      assert s[i].off in Span(s[i]) && s[i].End() - 1 in Span(s[i]);
    }
  }

  /** A list that was written to a page is on it. */
  lemma NewPage(pages: Store, unit: nat, fileSize: nat, at: Extent, page: bytes, el: ExtentList)
    requires 0 < unit && el.Valid() && (at.size == 0 <==> el.Set() == {}) && (at.size > 0 ==> PageHolds(page, el.exts))
    requires at.size > 0 ==> at.off in pages && pages[at.off] == page
    requires el.Set() <= Range(unit, fileSize) && fileSize < OFF_LIMIT
    ensures PageOf(pages, at, el.Set())
  {
    hide Bytes, ListAt, Range;
    InsideStorable(unit, fileSize, el.exts);
  }

  lemma NewAvail(pages: Store, unit: nat, fileSize: nat, at: Extent, page: bytes, a: ExtentList, b: ExtentList)
    requires 0 < unit && a.Valid() && b.Valid() && a.Set() !! b.Set() && at.size > 0 && at.off in pages
    requires pages[at.off] == page && PageHolds(page, a.exts + b.exts)
    requires Aligned(unit, a.Set()) && Aligned(unit, b.Set())
    requires a.Set() + b.Set() <= Range(unit, fileSize) && fileSize < OFF_LIMIT
    requires Span(at) <= a.Set() || Span(at) !! a.Set() + b.Set()
    ensures AvailOf(pages, unit, fileSize, at, Bytes(a.exts + b.exts))
  {
    var s := a.exts + b.exts;
    BytesConcat(a.exts, b.exts);
    TwoApart(a, b);
    forall i | 0 <= i < |s| ensures InFile(s[i], unit, fileSize) && s[i].size > 0 {
      if i < |a.exts| {
        ExtentsInFile(unit, fileSize, a.exts, i);
      } else {
        ExtentsInFile(unit, fileSize, b.exts, i - |a.exts|);
      }
    }
    hide Bytes, ListAt, Range, InFile, Aligned;
    InsideStorable(unit, fileSize, s);
  }

  lemma TwoApart(a: ExtentList, b: ExtentList)
    requires a.Valid() && b.Valid() && a.Set() !! b.Set()
    ensures Disjoint(a.exts + b.exts)
  {
    var s, t := a.exts, b.exts;
    forall i, j | 0 <= i < j < |s + t| ensures Span((s + t)[i]) !! Span((s + t)[j]) {
      if i < |s| <= j {
        SpanIn(s, i);
        SpanIn(t, j - |s|);
      }
    }
  }

  // ---- The pages of rewritten and new checkpoints ----

  lemma BoundedTake(sp: Space, at: Extent)
    requires Bounded(sp) && CanTake(sp, at)
    ensures Bounded(Take(sp, at))
  {
  }

  /** Two pages, one after the other, in blocks taken for them. */
  lemma TwoPages(pages: Store, sp: Space, a: Extent, pa: bytes, d: Extent, pd: bytes)
    requires Bounded(sp) && CanTake(sp, a) && CanTake(Take(sp, a), d)
    ensures var pages2, sp2 := Stored(Stored(pages, a, pa), d, pd), Take(Take(sp, a), d);
            && Taken(sp2, a) && Taken(sp2, d)
            && (a.size > 0 ==> a.off in pages2 && pages2[a.off] == pa)
            && (d.size > 0 ==> d.off in pages2 && pages2[d.off] == pd)
  {
    hide CanTake, Take, Taken, Bounded;
    NewTaken(sp, a);
    BoundedTake(sp, a);
    NewTaken(Take(sp, a), d);
    TakenStays(Take(sp, a), d, a);
  }

  /** The alloc and discard lists of a checkpoint are written again. */
  lemma RewrittenSafe(pages: Store, unit: nat, sp: Space, a: Extent, pa: bytes, d: Extent, pd: bytes,
                      al: ExtentList, dl: ExtentList, c: Ckpt)
    requires 0 < unit && SafeEntry(pages, unit, sp, c) && Bounded(sp) && CanTake(sp, a) && CanTake(Take(sp, a), d)
    requires al.Valid() && dl.Valid() && c.alloc == al.Set() && c.discard == dl.Set()
    requires (a.size == 0 <==> al.Set() == {}) && (d.size == 0 <==> dl.Set() == {})
    requires PageHolds(pa, al.exts) && PageHolds(pd, dl.exts)
    requires c.alloc <= Range(unit, c.fileSize) && c.discard <= Range(unit, c.fileSize)
    ensures SafeEntry(Stored(Stored(pages, a, pa), d, pd), unit, Take(Take(sp, a), d), Rewrote(c, (a, d)))
  {
    hide CanTake, Take, Taken, Canonical, Bytes, ListAt, Acceptable, Range, Span, PageHolds, Bounded, Stored;
    var pages1, pages2 := Stored(pages, a, pa), Stored(Stored(pages, a, pa), d, pd);
    EntryStays(pages, unit, sp, a, pa, c);
    EntryStays(pages1, unit, Take(sp, a), d, pd, c);
    TwoPages(pages, sp, a, pa, d, pd);
    if c.fileSize < OFF_LIMIT {
      NewPage(pages2, unit, c.fileSize, a, pa, al);
      NewPage(pages2, unit, c.fileSize, d, pd, dl);
    }
  }

  lemma UpdateSafe(pages: Store, unit: nat, sp: Space, a: Extent, pa: bytes, d: Extent, pd: bytes,
                   al: ExtentList, dl: ExtentList, cs: seq<Ckpt>, k: nat, others: seq<Ckpt>)
    requires 0 < unit && Safe(pages, unit, sp, cs) && Safe(pages, unit, sp, others) && k < |cs|
    requires Bounded(sp) && CanTake(sp, a) && CanTake(Take(sp, a), d)
    requires al.Valid() && dl.Valid() && cs[k].alloc == al.Set() && cs[k].discard == dl.Set()
    requires (a.size == 0 <==> al.Set() == {}) && (d.size == 0 <==> dl.Set() == {})
    requires PageHolds(pa, al.exts) && PageHolds(pd, dl.exts)
    requires cs[k].alloc <= Range(unit, cs[k].fileSize) && cs[k].discard <= Range(unit, cs[k].fileSize)
    ensures var pages2, sp2 := Stored(Stored(pages, a, pa), d, pd), Take(Take(sp, a), d);
            Safe(pages2, unit, sp2, cs[k := Rewrote(cs[k], (a, d))]) && Safe(pages2, unit, sp2, others)
  {
    hide CanTake, Take, Canonical, Bytes, Range, PageHolds, Bounded, Stored, SafeEntry, Rewrote;
    SafeStays(pages, unit, sp, a, pa, cs);
    SafeStays(Stored(pages, a, pa), unit, Take(sp, a), d, pd, cs);
    SafeStays(pages, unit, sp, a, pa, others);
    SafeStays(Stored(pages, a, pa), unit, Take(sp, a), d, pd, others);
    RewrittenSafe(pages, unit, sp, a, pa, d, pd, al, dl, cs[k]);
  }

  /** The three lists of a new checkpoint are written. */
  lemma NewCkptSafe(pages: Store, unit: nat, sp: Space, a: Extent, pa: bytes, d: Extent, pd: bytes, v: Extent,
                    pv: bytes, al: ExtentList, dl: ExtentList, vl: ExtentList, fl: ExtentList, c: Ckpt)
    requires 0 < unit && Bounded(sp) && CanTake(sp, a) && CanTake(Take(sp, a), d)
    requires var sp2 := Take(Take(sp, a), d);
             && CanTake(sp2, v) && v.size > 0 && vl.Set() == sp2.avail
             && vl.Set() + fl.Set() <= Range(unit, Take(sp2, v).size)
    requires al.Valid() && dl.Valid() && vl.Valid() && fl.Valid() && vl.Set() !! fl.Set()
    requires (a.size == 0 <==> al.Set() == {}) && (d.size == 0 <==> dl.Set() == {})
    requires PageHolds(pa, al.exts) && PageHolds(pd, dl.exts) && PageHolds(pv, vl.exts + fl.exts)
    requires Aligned(unit, vl.Set()) && Aligned(unit, fl.Set())
    requires c.allocAt == a && c.discardAt == d && c.availAt == v && c.alloc == al.Set() && c.discard == dl.Set()
    requires c.avail == Bytes(vl.exts + fl.exts) && c.fileSize == Take(Take(Take(sp, a), d), v).size
    requires c.alloc <= Range(unit, c.fileSize) && c.discard <= Range(unit, c.fileSize)
    requires fl.Set() <= Range(unit, Take(Take(sp, a), d).size)
    ensures SafeEntry(Stored(Stored(Stored(pages, a, pa), d, pd), v, pv), unit, Take(Take(Take(sp, a), d), v), c)
  {
    hide CanTake, Take, Taken, Canonical, Bytes, ListAt, Acceptable, Range, Span, PageHolds, Bounded, Aligned;
    var sp2 := Take(Take(sp, a), d);
    var pages2 := Stored(Stored(pages, a, pa), d, pd);
    TwoPages(pages, sp, a, pa, d, pd);
    BoundedTake(sp, a);
    BoundedTake(Take(sp, a), d);
    NewTaken(sp2, v);
    TakenStays(sp2, v, a);
    TakenStays(sp2, v, d);
    FromSpace(sp2, v, fl.Set(), unit);
    if c.fileSize < OFF_LIMIT {
      var pages3 := Stored(pages2, v, pv);
      NewPage(pages3, unit, c.fileSize, a, pa, al);
      NewPage(pages3, unit, c.fileSize, d, pd, dl);
      NewAvail(pages3, unit, c.fileSize, v, pv, vl, fl);
    }
  }

  /** A block comes from what is available, or from past it and everything else in the file. */
  lemma FromSpace(sp: Space, at: Extent, freed: set<int>, unit: nat)
    requires CanTake(sp, at) && Bounded(sp) && freed <= Range(unit, sp.size) && at.size > 0
    ensures Span(at) <= sp.avail || Span(at) !! sp.avail + freed
  {
  }
}
