/** The block manager's handle for one file: block allocation, frees and checkpoints on extent
lists, each method refining a step of the checkpoint protocol. */
module BlockManager {
  import opened Extents
  import opened ExtentOps
  import opened Checkpoints
  import opened Protocol
  import opened Safety
  import opened IntPack
  import opened ListCodec
  import opened Rolling
  import opened Arithmetic
  import opened Format
  import opened Pages
  import opened Layout
  import opened Catalog
  import opened Recovery
  import Scan
  import opened Cookies
  import BackupBitmap
  import IncrementalBackup

  /** A checkpoint as the block manager reads it from its cookie and its pages. */
  datatype Info = Info(
    order: nat,
    root: Extent,
    alloc: ExtentList,
    discard: ExtentList,
    avail: seq<Extent>,     // as written: the avail list, then the list to become available
    allocAt: Extent,
    discardAt: Extent,
    availAt: Extent,
    fileSize: nat,
    ckptSize: int,
    sums: Sums,
    update: bool)
  {
    function Place(): Where {
      Where(root, allocAt, discardAt, availAt, fileSize, ckptSize, sums.root)
    }

    ghost predicate Valid() {
      alloc.Valid() && discard.Valid()
    }

    ghost function Abs(): Ckpt {
      Ckpt(order, root, alloc.Set(), discard.Set(), Bytes(avail), allocAt, discardAt, availAt,
           fileSize, ckptSize, sums.root, update)
    }
  }

  ghost function Ckpts(infos: seq<Info>): (r: seq<Ckpt>)
    ensures |r| == |infos|
  {
    seq(|infos|, i requires 0 <= i < |infos| => infos[i].Abs())
  }

  ghost predicate AllValid(infos: seq<Info>) {
    forall i | 0 <= i < |infos| :: infos[i].Valid()
  }

  /** An entry of the checkpoint array a caller passes in: the checkpoint's cookie, and whether the
      checkpoint is to be deleted. A fake checkpoint has no blocks. */
  datatype Entry = Entry(order: nat, cookie: bytes, fake: bool, del: bool)

  /** The real entries from entry i on are some checkpoints, in order. */
  ghost predicate ListedBy(unit: nat, pages: Store, crc: bytes -> Sum, es: seq<Entry>, i: nat, cs: seq<Ckpt>)
    requires 0 < unit && i <= |es|
    decreases |es| - i
  {
    if i == |es| then cs == []
    else if es[i].fake then ListedBy(unit, pages, crc, es, i + 1, cs)
    else
      && cs != [] && es[i].order == cs[0].order && CookieFor(unit, pages, crc, es[i].cookie, WhereOf(cs[0]))
      && ListedBy(unit, pages, crc, es, i + 1, cs[1..])
  }

  /** The checksums of a checkpoint's lists are right. */
  ghost predicate Summed(pages: Store, crc: bytes -> Sum, info: Info) {
    SumsOf(pages, crc, info.Place(), info.sums)
  }

  ghost predicate AllSummed(pages: Store, crc: bytes -> Sum, infos: seq<Info>) {
    forall i | 0 <= i < |infos| :: Summed(pages, crc, infos[i])
  }

  ghost predicate WorkSummed(pages: Store, crc: bytes -> Sum, es: seq<Entry>, ws: seq<Info>, i: nat)
    requires |es| == |ws|
  {
    forall k | i <= k < |es| && !es[k].fake :: Summed(pages, crc, ws[k])
  }

  lemma SummedStays(pages: Store, pages': Store, crc: bytes -> Sum, infos: seq<Info>)
    requires AllSummed(pages, crc, infos) && SameForAll(pages, pages', Ckpts(infos))
    ensures AllSummed(pages', crc, infos)
  {
    hide Bytes;
    forall i | 0 <= i < |infos| ensures Summed(pages', crc, infos[i]) {
      assert Summed(pages, crc, infos[i]) && SameFor(pages, pages', Ckpts(infos)[i]);
    }
  }

  /** The real checkpoints from entry i on, and which of them are to be deleted. */
  ghost function Reals(es: seq<Entry>, ws: seq<Info>, i: nat): (r: seq<Ckpt>)
    requires i <= |es| == |ws|
    ensures |r| == |Marks(es, i)|
    decreases |es| - i
  {
    if i == |es| then [] else (if es[i].fake then [] else [ws[i].Abs()]) + Reals(es, ws, i + 1)
  }

  ghost function Marks(es: seq<Entry>, i: nat): seq<bool>
    requires i <= |es|
    decreases |es| - i
  {
    if i == |es| then [] else (if es[i].fake then [] else [es[i].del]) + Marks(es, i + 1)
  }

  lemma RealsUnfold(es: seq<Entry>, ws: seq<Info>, i: nat)
    requires i < |es| == |ws|
    ensures Reals(es, ws, i) == (if es[i].fake then [] else [ws[i].Abs()]) + Reals(es, ws, i + 1)
    ensures Marks(es, i) == (if es[i].fake then [] else [es[i].del]) + Marks(es, i + 1)
  {
    hide Bytes;
  }

  lemma {:induction false} SkipFakes(es: seq<Entry>, ws: seq<Info>, i: nat, j: nat)
    requires i <= j <= |es| == |ws| && forall k | i <= k < j :: es[k].fake
    ensures Reals(es, ws, i) == Reals(es, ws, j) && Marks(es, i) == Marks(es, j)
    decreases j - i
  {
    hide Bytes, Reals, Marks;
    if i < j {
      RealsUnfold(es, ws, i);
      SkipFakes(es, ws, i + 1, j);
    }
  }

  lemma {:induction false} RealsFrame(es: seq<Entry>, ws: seq<Info>, vs: seq<Info>, i: nat)
    requires i <= |es| == |ws| == |vs| && forall k | i <= k < |es| :: ws[k] == vs[k]
    ensures Reals(es, ws, i) == Reals(es, vs, i)
    decreases |es| - i
  {
    hide Bytes, Reals;
    if i < |es| {
      RealsUnfold(es, ws, i);
      RealsUnfold(es, vs, i);
      RealsFrame(es, ws, vs, i + 1);
    } else {
      LastReal(es, ws);
      LastReal(es, vs);
    }
  }

  ghost predicate WorkValid(es: seq<Entry>, ws: seq<Info>, i: nat)
    requires |es| == |ws|
  {
    forall k | i <= k < |es| && !es[k].fake :: ws[k].Valid()
  }

  /** The entries a turn of the deletion loop looks at, and the list it leaves. */
  lemma TurnShape(es: seq<Entry>, ws: seq<Info>, i: nat, next: nat, live: Ckpt)
    requires i < next <= |es| == |ws| && !es[i].fake
    requires forall k | i < k < next :: es[k].fake
    requires next < |es| ==> !es[next].fake
    ensures var rest, marks := Reals(es, ws, i) + [live], Marks(es, i) + [false];
            && |rest| == |marks| && |rest| > 1 && rest[0] == ws[i].Abs() && marks[0] == es[i].del
            && marks[1..] == Marks(es, i + 1) + [false]
            && (next == |es| ==> rest == [ws[i].Abs(), live] && !marks[1])
            && (next < |es| ==> |rest| > 2 && rest[1] == ws[next].Abs() && marks[1] == es[next].del)
    ensures next == |es| ==> Reals(es, ws, i + 1) == []
    ensures forall t: Info | next < |es| ::
              Reals(es, ws[next := t], i + 1) + [live] == [t.Abs()] + (Reals(es, ws, i) + [live])[2..]
  {
    hide Bytes, Reals, Marks;
    SkipFakes(es, ws, i + 1, next);
    FirstReal(es, ws, i);
    if next < |es| {
      FirstReal(es, ws, next);
      Turned(ws[i].Abs(), ws[next].Abs(), Reals(es, ws, next + 1), live);
      Turned(es[i].del, es[next].del, Marks(es, next + 1), false);
      forall t: Info
        ensures Reals(es, ws[next := t], i + 1) + [live] == [t.Abs()] + (Reals(es, ws, i) + [live])[2..]
      {
        TurnTarget(es, ws, i, next, live, t);
      }
    } else {
      LastReal(es, ws);
    }
  }

  lemma FirstReal(es: seq<Entry>, ws: seq<Info>, i: nat)
    requires i < |es| == |ws| && !es[i].fake
    ensures Reals(es, ws, i) == [ws[i].Abs()] + Reals(es, ws, i + 1)
    ensures Marks(es, i) == [es[i].del] + Marks(es, i + 1)
  {
  }

  lemma LastReal(es: seq<Entry>, ws: seq<Info>)
    requires |es| == |ws|
    ensures Reals(es, ws, |es|) == [] && Marks(es, |es|) == []
  {
  }

  lemma Turned<T>(a: T, b: T, rest: seq<T>, live: T)
    ensures var s := [a] + ([b] + rest) + [live];
            |s| > 2 && s[0] == a && s[1] == b && s[1..] == [b] + rest + [live] && s[2..] == rest + [live]
  {
  }

  lemma TurnTarget(es: seq<Entry>, ws: seq<Info>, i: nat, next: nat, live: Ckpt, t: Info)
    requires i < next < |es| == |ws| && !es[i].fake && !es[next].fake
    requires forall k | i < k < next :: es[k].fake
    ensures |Reals(es, ws, i) + [live]| >= 2
    ensures Reals(es, ws[next := t], i + 1) + [live] == [t.Abs()] + (Reals(es, ws, i) + [live])[2..]
  {
    hide Bytes, Reals, Marks;
    SkipFakes(es, ws, i + 1, next);
    SkipFakes(es, ws[next := t], i + 1, next);
    RealsFrame(es, ws, ws[next := t], next + 1);
    FirstReal(es, ws, i);
    FirstReal(es, ws, next);
    FirstReal(es, ws[next := t], next);
    var rest := Reals(es, ws, next + 1);
    Turned(ws[i].Abs(), ws[next].Abs(), rest, live);
    assert [t.Abs()] + rest + [live] == [t.Abs()] + (rest + [live]);
  }

  lemma KeepShape(es: seq<Entry>, ws: seq<Info>, i: nat, live: Ckpt)
    requires i < |es| == |ws| && !es[i].fake
    ensures var rest, marks := Reals(es, ws, i) + [live], Marks(es, i) + [false];
            && |rest| == |marks| && |rest| > 1 && rest[0] == ws[i].Abs() && marks[0] == es[i].del
            && rest[1..] == Reals(es, ws, i + 1) + [live] && marks[1..] == Marks(es, i + 1) + [false]
  {
    hide Bytes;
    assert Reals(es, ws, i) + [live] == [ws[i].Abs()] + (Reals(es, ws, i + 1) + [live]);
    assert Marks(es, i) + [false] == [es[i].del] + (Marks(es, i + 1) + [false]);
  }

  lemma SummedUpdate(pages: Store, pages': Store, crc: bytes -> Sum, out: seq<Info>, k: nat, a: Extent, d: Extent,
                     sums: Sums)
    requires k < |out| && AllSummed(pages, crc, out) && SameForAll(pages, pages', Ckpts(out))
    requires sums.root == out[k].sums.root && sums.avail == out[k].sums.avail
    requires SumAt(pages', crc, a, sums.alloc) && SumAt(pages', crc, d, sums.discard)
    ensures AllSummed(pages', crc, out[k := out[k].(allocAt := a, discardAt := d, sums := sums, update := false)])
  {
    SummedStays(pages, pages', crc, out);
    hide Bytes;
  }

  lemma SummedNext(pages: Store, pages': Store, crc: bytes -> Sum, kept: seq<Info>, info: Info)
    requires AllSummed(pages, crc, kept) && SameForAll(pages, pages', Ckpts(kept)) && Summed(pages', crc, info)
    ensures AllSummed(pages', crc, kept + [info])
  {
    SummedStays(pages, pages', crc, kept);
    hide Summed;
  }

  lemma OneMoreValid(out: seq<Info>, info: Info)
    requires AllValid(out) && info.Valid()
    ensures AllValid(out + [info])
  {
  }

  lemma OneMoreInfo(out: seq<Info>, info: Info)
    ensures Ckpts(out + [info]) == Ckpts(out) + [info.Abs()]
  {
  }

  lemma EndShape(es: seq<Entry>, ws: seq<Info>, live: Ckpt)
    requires |es| == |ws|
    ensures Reals(es, ws, |es|) + [live] == [live] && Marks(es, |es|) + [false] == [false]
  {
  }

  // ---- Reading the lists of the checkpoint array ----

  /** The lists of a checkpoint can be read from its pages. */
  ghost predicate OnPages(pages: Store, unit: nat, c: Ckpt)
    requires 0 < unit
  {
    && PagedEntry(pages, unit, c) && !c.update && c.fileSize < OFF_LIMIT
    && EntryAligned(unit, c) && InsideOwn(unit, c)
  }

  ghost predicate AllOnPages(pages: Store, unit: nat, cs: seq<Ckpt>)
    requires 0 < unit
  {
    forall i | 0 <= i < |cs| :: OnPages(pages, unit, cs[i])
  }

  /** The lists of all checkpoints of a state can be read. */
  lemma StateOnPages(pages: Store, s: State)
    requires Inv(s) && Formatted(s) && Paged(pages, s.unit, s.cur)
    requires AllBelow(s.cur)
    ensures AllOnPages(pages, s.unit, s.cur)
  {
    hide Inv, WellFormed, PagedEntry, EntryAligned, SpaceAligned, Aligned, Range, Chain, Conserved;
    InvLists(s);
    forall i | 0 <= i < |s.cur| ensures OnPages(pages, s.unit, s.cur[i]) {
      ListsInFile(s.unit, s.cur, i);
      assert Settled(s.cur[i]);
    }
  }

  /** Unpack the cookie of one checkpoint and read its lists. The avail list is not needed for the
      deletions; it is read so that what is returned stands for the whole checkpoint. */
  method ReadEntry(pages: Store, unit: nat, ghost crc: bytes -> Sum, order: nat, cookie: bytes, ghost c: Ckpt)
    returns (info: Info)
    requires 0 < unit && OnPages(pages, unit, c) && order == c.order
    requires CookieFor(unit, pages, crc, cookie, WhereOf(c))
    ensures info.Valid() && info.Abs() == c && Summed(pages, crc, info)
  {
    hide Canonical, Bytes, Aligned, Range, Acceptable, ListAt, PageOf, Span, CookieFor, Whole, SumsOf;
    var at, sums := ReadCookie(unit, cookie, pages, crc, WhereOf(c));
    var al := ReadAt(pages, at.allocAt, unit, at.fileSize, c.alloc);
    var dl := ReadAt(pages, at.discardAt, unit, at.fileSize, c.discard);
    var r := ReadList(pages[at.availAt.off], 0, unit, at.fileSize, true);
    info := Info(order, at.root, al, dl, r.value.exts, at.allocAt, at.discardAt, at.availAt, at.fileSize,
                 at.ckptSize, sums, false);
  }

  /** Read the lists of every real entry of the checkpoint array. */
  method ReadEntries(pages: Store, unit: nat, ghost crc: bytes -> Sum, es: seq<Entry>, ghost cs: seq<Ckpt>)
    returns (ws: seq<Info>)
    requires 0 < unit && AllOnPages(pages, unit, cs) && ListedBy(unit, pages, crc, es, 0, cs)
    ensures |ws| == |es| && WorkValid(es, ws, 0) && Reals(es, ws, 0) == cs && WorkSummed(pages, crc, es, ws, 0)
  {
    hide OnPages, Reals, Marks, Bytes, Canonical, ListedBy, CookieFor, Summed;
    ws := [];
    ghost var rest := cs;
    NoReals(es, ws);
    assert [] + rest == cs;
    for i := 0 to |es|
      invariant |ws| == i && WorkValid(es[..i], ws, 0) && Reals(es[..i], ws, 0) + rest == cs
      invariant WorkSummed(pages, crc, es[..i], ws, 0)
      invariant ListedBy(unit, pages, crc, es, i, rest) && AllOnPages(pages, unit, rest)
    {
      NextListed(unit, pages, crc, es, i, rest);
      var w := Info(0, NOWHERE, EMPTY, EMPTY, [], NOWHERE, NOWHERE, NOWHERE, 0, 0, NO_SUMS, false);
      if !es[i].fake {
        w := ReadEntry(pages, unit, crc, es[i].order, es[i].cookie, rest[0]);
      }
      RealsNext(es[..i], ws, es[i], w);
      assert es[..i + 1] == es[..i] + [es[i]];
      ws := ws + [w];
      if !es[i].fake {
        assert rest == [rest[0]] + rest[1..];
        rest := rest[1..];
      }
    }
    LastListed(unit, pages, crc, es, rest);
    assert es[..|es|] == es && rest == [];
  }

  lemma NoReals(es: seq<Entry>, ws: seq<Info>)
    requires ws == []
    ensures Reals(es[..0], ws, 0) == []
  {
  }

  lemma NextListed(unit: nat, pages: Store, crc: bytes -> Sum, es: seq<Entry>, i: nat, rest: seq<Ckpt>)
    requires 0 < unit && i < |es| && ListedBy(unit, pages, crc, es, i, rest)
    ensures es[i].fake ==> ListedBy(unit, pages, crc, es, i + 1, rest)
    ensures !es[i].fake ==>
              && rest != [] && es[i].order == rest[0].order
              && CookieFor(unit, pages, crc, es[i].cookie, WhereOf(rest[0]))
              && ListedBy(unit, pages, crc, es, i + 1, rest[1..])
  {
    hide CookieFor;
  }

  lemma LastListed(unit: nat, pages: Store, crc: bytes -> Sum, es: seq<Entry>, rest: seq<Ckpt>)
    requires 0 < unit && ListedBy(unit, pages, crc, es, |es|, rest)
    ensures rest == []
  {
  }

  lemma {:induction false} RealsNextFrom(es: seq<Entry>, ws: seq<Info>, e: Entry, w: Info, i: nat)
    requires i <= |es| == |ws|
    ensures Reals(es + [e], ws + [w], i) == Reals(es, ws, i) + if e.fake then [] else [w.Abs()]
    decreases |es| - i
  {
    hide Bytes, Reals;
    var fs, vs := es + [e], ws + [w];
    RealsUnfold(fs, vs, i);
    if i < |es| {
      RealsUnfold(es, ws, i);
      RealsNextFrom(es, ws, e, w, i + 1);
    } else {
      LastReal(es, ws);
      LastReal(fs, vs);
    }
  }

  lemma RealsNext(es: seq<Entry>, ws: seq<Info>, e: Entry, w: Info)
    requires |es| == |ws|
    ensures Reals(es + [e], ws + [w], 0) == Reals(es, ws, 0) + if e.fake then [] else [w.Abs()]
  {
    RealsNextFrom(es, ws, e, w, 0);
  }

  // ---- Choosing a block ----

  /** The first extent large enough, in offset order. */
  method FirstFit(s: seq<Extent>, n: nat) returns (k: nat)
    ensures k <= |s| && (k < |s| ==> s[k].size >= n)
    ensures forall i | 0 <= i < k :: s[i].size < n
  {
    k := 0;
    while k < |s| && s[k].size < n
      invariant k <= |s| && forall i | 0 <= i < k :: s[i].size < n
    {
      k := k + 1;
    }
  }

  /** The smallest extent large enough, the lowest offset among those. */
  method BestFit(s: seq<Extent>, n: nat) returns (k: nat)
    ensures k <= |s| && (k < |s| ==> s[k].size >= n)
    ensures k == |s| ==> forall i | 0 <= i < |s| :: s[i].size < n
    ensures k < |s| ==> forall i | 0 <= i < |s| && s[i].size >= n ::
                          s[k].size < s[i].size || (s[k].size == s[i].size && k <= i)
  {
    k := |s|;
    var j := 0;
    while j < |s|
      invariant j <= |s| && (k < j || k == |s|)
      invariant k < |s| ==> s[k].size >= n
      invariant k == |s| ==> forall i | 0 <= i < j :: s[i].size < n
      invariant k < |s| ==> forall i | 0 <= i < j && s[i].size >= n ::
                              s[k].size < s[i].size || (s[k].size == s[i].size && k <= i)
    {
      if s[j].size >= n && (k == |s| || s[j].size < s[k].size) {
        k := j;
      }
      j := j + 1;
    }
  }

  /** The sizes and the avail list a file is opened with, from the cookie of its last checkpoint. */
  method OpenLists(unit: nat, pages: Store, ghost crc: bytes -> Sum, ghost cs: seq<Ckpt>, last: Option<bytes>)
    returns (size: nat, ckptSize: int, avail: ExtentList)
    requires 0 < unit && Paged(pages, unit, cs) && AllAligned(unit, cs)
    requires last.None? <==> cs == []
    requires last.Some? ==>
               CookieFor(unit, pages, crc, last.value, WhereOf(cs[|cs| - 1])) && cs[|cs| - 1].fileSize < OFF_LIMIT
    ensures avail.Valid()
    ensures State(unit, size, avail.Set(), {}, {}, {}, ckptSize, Idle, cs, cs) == Load(unit, cs)
  {
    hide Canonical, Bytes, AvailOf, PageOf, CookieFor, Aligned, Whole;
    size, ckptSize, avail := unit, 0, EMPTY;
    BytesNone();
    if last.Some? {
      assert PagedEntry(pages, unit, cs[|cs| - 1]) && EntryAligned(unit, cs[|cs| - 1]);
      var w, _ := ReadCookie(unit, last.value, pages, crc, WhereOf(cs[|cs| - 1]));
      size, ckptSize := w.fileSize, w.ckptSize;
      avail := ReadAvailAt(pages, w.availAt, unit, w.fileSize, cs[|cs| - 1].avail);
    }
  }

  lemma WellAligned(unit: nat, cs: seq<Ckpt>)
    requires 0 < unit && WellFormed(unit, cs)
    ensures AllAligned(unit, cs)
  {
  }

  lemma LoadKeeps(unit: nat, cs: seq<Ckpt>)
    ensures Load(unit, cs).unit == unit && Load(unit, cs).cur == cs && Load(unit, cs).durable == cs
  {
  }

  class Block {
    const unit: nat
    const crc: bytes -> Sum
    var size: nat
    var allocFirst: nat       // the operations that want first-fit allocation
    var avail: ExtentList
    var alloc: ExtentList
    var discard: ExtentList
    var ckptAvail: ExtentList
    var ckptSize: int
    var phase: Phase
    var pages: Store          // the pages written to the file for extent lists
    var writeGen: nat         // the tree's write generation
    ghost var cur: seq<Ckpt>
    ghost var durable: seq<Ckpt>

    /** The protocol state this handle is in. */
    ghost function St(): State
      reads this
    {
      State(unit, size, avail.Set(), alloc.Set(), discard.Set(), ckptAvail.Set(), ckptSize, phase, cur, durable)
    }

    ghost predicate Lists()
      reads this
    {
      && 0 < unit && SpaceAligned(unit, SpaceOf(St()))
      && avail.Valid() && alloc.Valid() && discard.Valid() && ckptAvail.Valid()
      && Below(avail.exts, size) && Below(alloc.exts, size)
      && avail.Set() !! alloc.Set()
    }

    ghost predicate Valid()
      reads this
    {
      && avail.Valid() && alloc.Valid() && discard.Valid() && ckptAvail.Valid()
      && Inv(St()) && Formatted(St())
      && Paged(pages, unit, cur) && Paged(pages, unit, durable)
    }

    /** Extend the file by a block. */
    method ExtendFile(n: nat) returns (at: Extent)
      requires Lists() && n > 0 && n % unit == 0
      modifies this`size, this`alloc
      ensures Lists() && at == Extent(old(size), n) && Whole(unit, at) && CanTake(old(SpaceOf(St())), at)
      ensures SpaceOf(St()) == Take(old(SpaceOf(St())), at)
      ensures alloc.Set() == old(alloc.Set()) + Span(at) && Span(at) !! old(alloc.Set())
    {
      hide Canonical, Bytes, Range, Below, Aligned;
      at := Extent(size, n);
      TakeAligned(unit, SpaceOf(St()), at);
      Past(avail.exts, size, n);
      Past(alloc.exts, size, n);
      alloc := Append(alloc, size, n);
      size := size + n;
      BelowAdd(avail.exts, avail.exts, old(size), old(size), n, size);
      BelowAdd(alloc.exts, old(alloc.exts), old(size), old(size), n, size);
    }

    /** Take a block from the front of an available extent. */
    method TakeFront(k: nat, n: nat) returns (at: Extent)
      requires Lists() && 0 < n && n % unit == 0 && k < |avail.exts| && n <= avail.exts[k].size
      modifies this`avail, this`alloc
      ensures Lists() && at == Extent(old(avail.exts)[k].off, n) && at.off < size && Whole(unit, at)
      ensures CanTake(old(SpaceOf(St())), at)
      ensures SpaceOf(St()) == Take(old(SpaceOf(St())), at)
      ensures alloc.Set() == old(alloc.Set()) + Span(at) && Span(at) !! old(alloc.Set())
    {
      hide Canonical, Bytes, Range, Below, Aligned;
      at := Extent(avail.exts[k].off, n);
      AlignedExtents(unit, avail.exts, k);
      TakeAligned(unit, SpaceOf(St()), at);
      FrontOf(avail.exts, size, k, n);
      var cut := RemoveOverlap(avail, at.off, n);
      var m := Merge(alloc, at.off, n);
      BelowSub(cut.value.exts, avail.exts, size);
      BelowAdd(m.value.exts, alloc.exts, size, at.off, n, size);
      avail, alloc := cut.value, m.value;
    }

    /** Take a block for n bytes, and put it on the live alloc list. */
    method TakeBlock(n: nat) returns (at: Extent)
      requires Lists() && n > 0 && n % unit == 0
      modifies this`size, this`avail, this`alloc
      ensures Lists() && Whole(unit, at)
      ensures at.size == n && CanTake(old(SpaceOf(St())), at)
      ensures SpaceOf(St()) == Take(old(SpaceOf(St())), at)
      ensures alloc.Set() == old(alloc.Set()) + Span(at) && Span(at) !! old(alloc.Set())
      // The file grows only when no extent is large enough.
      ensures at.off == old(size) <==> forall e | e in old(avail.exts) :: e.size < n
      // Otherwise the block is the start of the first extent that fits, or of the best one.
      ensures allocFirst > 0 ==> forall e | e in old(avail.exts) && e.size >= n :: at.off <= e.off
      ensures allocFirst > 0 ==> FirstFits(old(SpaceOf(St())), at)
      ensures allocFirst == 0 && at.off != old(size) ==>
                exists b :: b in old(avail.exts) && b.off == at.off && b.size >= n
                            && forall e | e in old(avail.exts) && e.size >= n :: b.size <= e.size
    {
      hide Bytes, Range, Below, Take, CanTake, Aligned;
      var k := |avail.exts|;
      SmallTotal(avail, n);
      if avail.bytes >= n {
        if allocFirst > 0 {
          k := FirstFit(avail.exts, n);
        } else {
          k := BestFit(avail.exts, n);
        }
      }
      ghost var was, end := avail.exts, size;
      if k == |avail.exts| {
        at := ExtendFile(n);
      } else {
        at := TakeFront(k, n);
      }
      if allocFirst > 0 {
        FirstFitIs(was, end, at);
      }
    }

    /** Open the file at a checkpoint, given by its cookie, or as a new file: the page of the avail list
        is read, its two parts are merged and the block holding it is removed; the live system has
        allocated nothing yet. */
    constructor (unit: nat, crc: bytes -> Sum, pages: Store, writeGen: nat, ghost cs: seq<Ckpt>, last: Option<bytes>)
      requires 0 < unit && Listed(unit, cs) && WellFormed(unit, cs) && Paged(pages, unit, cs)
      requires last.None? <==> cs == []
      requires last.Some? ==>
                 CookieFor(unit, pages, crc, last.value, WhereOf(cs[|cs| - 1])) && cs[|cs| - 1].fileSize < OFF_LIMIT
      ensures Valid() && this.unit == unit && this.crc == crc && this.pages == pages && this.writeGen == writeGen
      ensures St() == Load(unit, cs) && allocFirst == 0
    {
      hide Inv, Listed, WellFormed, AllAligned, Canonical, Bytes, Paged, Formatted, Load, CookieFor;
      BytesNone();
      InvLoad(unit, cs);
      LoadFormatted(unit, cs);
      LoadKeeps(unit, cs);
      WellAligned(unit, cs);
      var n, rolling, el := OpenLists(unit, pages, crc, cs, last);
      this.unit, this.crc, this.pages, this.writeGen := unit, crc, pages, writeGen;
      this.allocFirst := 0;
      this.alloc, this.discard, this.ckptAvail := EMPTY, EMPTY, EMPTY;
      this.phase := Idle;
      this.cur, this.durable := cs, cs;
      this.size, this.ckptSize, this.avail := n, rolling, el;
      new;
      assert St() == Load(unit, cs);
    }

    lemma ListsParts()
      requires Lists()
      ensures 0 < unit && avail.Valid() && alloc.Valid() && discard.Valid() && ckptAvail.Valid()
    {
    }

    lemma ListsValid()
      requires Valid()
      ensures Lists()
      ensures avail.Set() !! ckptAvail.Set() && avail.Set() + ckptAvail.Set() !! alloc.Set()
      ensures discard.Set() <= Base({}, cur) && Base({}, cur) !! alloc.Set()
    {
      CurFacts(St());
      InsideFile(St());
    }

    /** Allocate a block for the btree; a size that is not a multiple of the unit is refused. */
    method AllocBlock(n: nat) returns (r: Option<Extent>)
      requires Valid() && phase != Panicked && n > 0
      modifies this`size, this`avail, this`alloc
      ensures Valid()
      ensures r.Some? <==> unit > 0 && n % unit == 0
      ensures r.None? ==> St() == old(St())
      ensures r.Some? ==>
                && r.value.size == n && Whole(unit, r.value) && Enabled(old(St()), DoAlloc(r.value))
                && St() == Alloc(old(St()), r.value)
                && (r.value.off == old(size) <==> forall e | e in old(avail.exts) :: e.size < n)
                && (allocFirst > 0 ==> forall e | e in old(avail.exts) && e.size >= n :: r.value.off <= e.off)
                && (allocFirst == 0 && r.value.off != old(size) ==>
                      exists b :: b in old(avail.exts) && b.off == r.value.off && b.size >= n
                                  && forall e | e in old(avail.exts) && e.size >= n :: b.size <= e.size)
    {
      hide Inv, Canonical, Bytes, Range, Below, CanTake, Take, Formatted, Paged;
      ListsValid();
      if n % unit != 0 {
        return None;
      }
      ghost var s := St();
      var at := TakeBlock(n);
      InvAlloc(s, at);
      AllocFormatted(s, at);
      return Some(at);
    }

    /** Free a block: available at once if allocated since the last checkpoint, else discarded. */
    method FreeBlock(at: Extent)
      requires Valid() && phase != Panicked && Freeable(St(), at) && unit > 0 && Whole(unit, at)
      modifies this`avail, this`alloc, this`discard
      ensures Valid() && St() == Free(old(St()), at)
      // The live tree does not reference the block any more, and all else it did.
      ensures LiveUses(St()) == old(LiveUses(St())) - Span(at)
      // The block is available at once if it was allocated since the last checkpoint, else discarded; and
      // a byte is available at once exactly if no checkpoint references it.
      ensures if Span(at) <= old(alloc.Set())
              then alloc.Set() == old(alloc.Set()) - Span(at) && avail.Set() == old(avail.Set()) + Span(at)
                   && discard == old(discard)
              else discard.Set() == old(discard.Set()) + Span(at) && avail == old(avail) && alloc == old(alloc)
      ensures forall x | x in Span(at) :: x in avail.Set() <==> x !in Used({}, cur)
    {
      hide Inv, Canonical, Bytes, Range, Base, Formatted, Paged, Used, LiveUses, Span, Freeable;
      ghost var s := St();
      RootSpan(at);
      FreeCases(s, at);
      FreeMeans(s, at);
      InvFree(s, at);
      FreeFormatted(s, at);
      var r := RemoveOverlap(alloc, at.off, at.size);
      if r.Removed? {
        alloc := r.value;
        var m := Merge(avail, at.off, at.size);
        avail := m.value;
      } else {
        var m := Merge(discard, at.off, at.size);
        discard := m.value;
      }
    }

    method StartCheckpoint()
      requires Valid()
      modifies this`phase
      ensures Valid() && St() == Start(old(St()))
      ensures phase == (if old(phase) == Idle then InProgress else Panicked)
    {
      hide Inv, WellFormed, Aligned;
      InvStart(St());
      if phase == Idle {
        phase := InProgress;
      } else {
        phase := Panicked;
      }
    }

    /** The caller has written the new checkpoints' cookies to stable storage. */
    ghost method SaveMetadata()
      requires Valid() && phase == PanicOnFailure
      modifies this`durable
      ensures Valid() && St() == old(St()).(durable := old(cur))
    {
      hide Inv, WellFormed, Aligned;
      InvSave(St());
      durable := cur;
    }

    /** Resolve the checkpoint after its metadata was saved: what it freed becomes available. */
    method ResolveCheckpoint(failed: bool)
      requires Valid() && Enabled(St(), DoResolve(failed))
      modifies this`phase, this`avail, this`ckptAvail
      ensures Valid() && St() == Resolve(old(St()), failed)
      // A checkpoint that was started and not written is given up; one that was written ends here, and what
      // it freed is available, unless the caller failed.
      ensures phase == if old(phase) == InProgress || (old(phase) == PanicOnFailure && !failed) then Idle else Panicked
      ensures avail.Set() + ckptAvail.Set() == old(avail.Set() + ckptAvail.Set())
      ensures old(phase) == PanicOnFailure && !failed ==> ckptAvail.Set() == {}
      ensures old(phase) != PanicOnFailure || failed ==> avail == old(avail)
    {
      hide Inv, Canonical, Bytes, Range, Enabled, Formatted, Paged, Below;
      ghost var s := St();
      InsideFile(s);
      ReadyToResolve(s, failed);
      InvResolve(St(), failed);
      ResolveFormatted(St(), failed);
      BytesNone();
      if phase == InProgress {
        phase := Idle;
        return;
      }
      if phase != PanicOnFailure || failed {
        phase := Panicked;
        return;
      }
      var m := MergeLists(ckptAvail, avail);
      avail := m.value;
      ckptAvail := EMPTY;
      phase := Idle;
      assert St() == Resolve(s, failed);
    }

    // ---- Writing a checkpoint ----

    ghost function LiveEntry(order: nat, root: Extent): Ckpt
      reads this
    {
      NewCkpt(St(), order, root)
    }

    /** Free a block that held a list, if there is one, into the list of the pending checkpoint. */
    method FreeListBlock(at: Extent)
      requires ckptAvail.Valid() && Span(at) !! ckptAvail.Set()
      modifies this`ckptAvail
      ensures ckptAvail.Valid() && ckptAvail.Set() == old(ckptAvail.Set()) + Span(at)
    {
      hide Canonical, Bytes, Range;
      if at.size == 0 {
        NoBytes(at);
        return;
      }
      var m := Merge(ckptAvail, at.off, at.size);
      ckptAvail := m.value;
    }

    method FreeListBlocks(a: Info)
      requires ckptAvail.Valid() && ExtApart(a.Abs()) && ckptAvail.Set() !! Ext(a.Abs())
      modifies this`ckptAvail
      ensures ckptAvail.Valid() && ckptAvail.Set() == old(ckptAvail.Set()) + Ext(a.Abs())
    {
      hide Canonical, Bytes, Range, Span;
      FreeListBlock(a.allocAt);
      FreeListBlock(a.availAt);
      FreeListBlock(a.discardAt);
    }

    /** Delete checkpoint a: free its root into its discard list and its list blocks, and roll its
        lists into those of the next checkpoint. */
    method DeleteInto(a: Info, ba: ExtentList, bd: ExtentList) returns (na: ExtentList, nd: ExtentList)
      requires a.Valid() && ba.Valid() && bd.Valid() && ckptAvail.Valid()
      requires a.alloc.Set() !! ba.Set()
      requires Span(a.root) !! a.discard.Set() && a.discard.Set() + Span(a.root) !! bd.Set()
      requires ExtApart(a.Abs()) && ckptAvail.Set() !! Ext(a.Abs())
      modifies this`ckptAvail
      ensures na.Valid() && na.Set() == a.alloc.Set() + ba.Set()
      ensures nd.Valid() && nd.Set() == a.discard.Set() + Span(a.root) + bd.Set()
      ensures ckptAvail.Valid() && ckptAvail.Set() == old(ckptAvail.Set()) + Ext(a.Abs())
    {
      hide Canonical, Bytes, Range, Span, Ext, ExtApart;
      var ad := a.discard;
      if a.root.size > 0 {
        RootSpan(a.root);
        var m := Merge(ad, a.root.off, a.root.size);
        ad := m.value;
      } else {
        NoBytes(a.root);
      }
      FreeListBlocks(a);
      var ma := MergeLists(a.alloc, ba);
      var md := MergeLists(ad, bd);
      na, nd := ma.value, md.value;
    }

    /** Roll checkpoint a into checkpoint b, which is deleted in turn or gets its lists rewritten. */
    method RollInto(a: Info, b: Info, deleted: bool) returns (t: Info)
      requires a.Valid() && b.Valid() && ckptAvail.Valid()
      requires Neighbours(a.Abs(), b.Abs(), deleted, false, ckptAvail.Set())
      modifies this`ckptAvail
      ensures t.Valid() && t.Abs() == Target(a.Abs(), b.Abs(), deleted, false)
      ensures Summed(pages, crc, b) ==> Summed(pages, crc, t)
      ensures ckptAvail.Valid()
      ensures ckptAvail.Set() == old(ckptAvail.Set()) + Ext(a.Abs()) + Overlap(a.Abs(), b.Abs(), deleted)
                                 + ListBlocks(b.Abs(), deleted, false)
    {
      hide Canonical, Bytes, Range, Span, Ext, Target, Overlap, ListBlocks;
      TargetIs(a.Abs(), b.Abs(), deleted, false);
      var na, nd := DeleteInto(a, b.alloc, b.discard);
      if deleted {
        t := b.(alloc := na, discard := nd);
      } else {
        t := RewriteLater(b, na, nd);
      }
    }

    /** Move the overlap of a checkpoint's new lists to what becomes available, and free the blocks
        of its old ones. */
    method RewriteLater(b: Info, na: ExtentList, nd: ExtentList) returns (t: Info)
      requires b.Valid() && na.Valid() && nd.Valid() && ckptAvail.Valid()
      requires ckptAvail.Set() !! na.Set() * nd.Set() && Span(b.allocAt) !! Span(b.discardAt)
      requires ckptAvail.Set() + na.Set() * nd.Set() !! Span(b.allocAt) + Span(b.discardAt)
      modifies this`ckptAvail
      ensures t.Valid() && ckptAvail.Valid() && (Summed(pages, crc, b) ==> Summed(pages, crc, t))
      ensures var over := na.Set() * nd.Set();
              && t.Abs() == b.Abs().(alloc := na.Set() - over, discard := nd.Set() - over,
                                     allocAt := NOWHERE, discardAt := NOWHERE, update := true)
              && ckptAvail.Set() == old(ckptAvail.Set()) + over + (Span(b.allocAt) + Span(b.discardAt))
    {
      hide Canonical, Bytes, Range, Span;
      var m := MoveOverlap(na, nd, ckptAvail);
      ckptAvail := m.value.2;
      FreeListBlock(b.allocAt);
      FreeListBlock(b.discardAt);
      t := b.(alloc := m.value.0, discard := m.value.1, allocAt := NOWHERE, discardAt := NOWHERE, update := true);
    }

    /** Roll checkpoint a into the live system. */
    method RollIntoLive(a: Info, ghost order: nat, ghost root: Extent)
      requires a.Valid() && alloc.Valid() && discard.Valid() && ckptAvail.Valid()
      requires Neighbours(a.Abs(), LiveEntry(order, root), false, true, ckptAvail.Set())
      modifies this`alloc, this`discard, this`ckptAvail
      ensures alloc.Valid() && discard.Valid() && ckptAvail.Valid()
      ensures LiveEntry(order, root) == Target(a.Abs(), old(LiveEntry(order, root)), false, true)
      ensures ckptAvail.Set() == old(ckptAvail.Set()) + Ext(a.Abs())
                                 + Overlap(a.Abs(), old(LiveEntry(order, root)), false)
                                 + ListBlocks(old(LiveEntry(order, root)), false, true)
    {
      hide Canonical, Bytes, Range, Span, Ext, Target, Overlap, ListBlocks;
      TargetIs(a.Abs(), LiveEntry(order, root), false, true);
      var na, nd := DeleteInto(a, alloc, discard);
      var m := MoveOverlap(na, nd, ckptAvail);
      alloc, discard, ckptAvail := m.value.0, m.value.1, m.value.2;
    }

    /** One turn of the deletion loop: entry i goes into the next real checkpoint, or into the live
        system. */
    method DeleteOne(es: seq<Entry>, ws: seq<Info>, i: nat, ghost kept: seq<Ckpt>, ghost r: Rolled,
                     ghost order: nat, ghost root: Extent)
      returns (vs: seq<Info>)
      requires i < |es| == |ws| && !es[i].fake && es[i].del && WorkValid(es, ws, i)
      requires alloc.Valid() && discard.Valid() && ckptAvail.Valid() && WorkSummed(pages, crc, es, ws, i)
      requires Between(kept, Reals(es, ws, i) + [LiveEntry(order, root)], Marks(es, i) + [false], ckptAvail.Set(), r)
      modifies this`alloc, this`discard, this`ckptAvail
      ensures |vs| == |es| && WorkValid(es, vs, i + 1) && WorkSummed(pages, crc, es, vs, i + 1)
      ensures alloc.Valid() && discard.Valid() && ckptAvail.Valid()
      ensures Between(kept, Reals(es, vs, i + 1) + [LiveEntry(order, root)], Marks(es, i + 1) + [false],
                      ckptAvail.Set(), r)
    {
      hide Between, Canonical, Bytes, Range, Span, Ext, Neighbours, Reals, Marks, Summed;
      hide Target, Overlap, ListBlocks;
      ghost var rest, marks := Reals(es, ws, i) + [LiveEntry(order, root)], Marks(es, i) + [false];
      var next := i + 1;
      while next < |es| && es[next].fake
        invariant i < next <= |es| && forall k | i < k < next :: es[k].fake
      {
        next := next + 1;
      }
      TurnShape(es, ws, i, next, LiveEntry(order, root));
      NeighboursAre(kept, rest, marks, ckptAvail.Set(), r);
      Delete(kept, rest, marks, ckptAvail.Set(), r);
      if next == |es| {
        RollIntoLive(ws[i], order, root);
        vs := ws;
        assert Reals(es, vs, i + 1) + [LiveEntry(order, root)] == [LiveEntry(order, root)] + rest[2..];
      } else {
        var t := RollInto(ws[i], ws[next], es[next].del);
        vs := ws[next := t];
      }
    }

    /** Go through the checkpoint array and delete what is marked. */
    method DeleteMarked(es: seq<Entry>, ws0: seq<Info>, ghost order: nat, ghost root: Extent) returns (out: seq<Info>)
      requires alloc.Valid() && discard.Valid() && ckptAvail.Valid() && ckptAvail.Set() == {}
      requires |ws0| == |es| && WorkValid(es, ws0, 0) && WorkSummed(pages, crc, es, ws0, 0)
      requires Chain({}, {}, Reals(es, ws0, 0) + [LiveEntry(order, root)])
      requires Spaced(Reals(es, ws0, 0) + [LiveEntry(order, root)])
      modifies this`alloc, this`discard, this`ckptAvail
      ensures alloc.Valid() && discard.Valid() && ckptAvail.Valid() && AllValid(out) && AllSummed(pages, crc, out)
      ensures |Reals(es, ws0, 0)| == |Marks(es, 0)|
      ensures Roll(Reals(es, ws0, 0) + [old(LiveEntry(order, root))], Marks(es, 0) + [false])
           == Rolled(Ckpts(out) + [LiveEntry(order, root)], ckptAvail.Set())
    {
      hide Between, Canonical, Bytes, Reals, Marks, Roll, Chain, Spaced, Summed;
      var ws := ws0;
      ghost var all, marks := Reals(es, ws, 0) + [LiveEntry(order, root)], Marks(es, 0) + [false];
      ghost var r := Roll(all, marks);
      Begin(all, marks);
      out := [];
      var i := 0;
      assert Ckpts(out) == [];
      while i < |es|
        invariant i <= |es| == |ws| && WorkValid(es, ws, i) && AllValid(out)
        invariant WorkSummed(pages, crc, es, ws, i) && AllSummed(pages, crc, out)
        invariant alloc.Valid() && discard.Valid() && ckptAvail.Valid()
        invariant Between(Ckpts(out), Reals(es, ws, i) + [LiveEntry(order, root)], Marks(es, i) + [false],
                          ckptAvail.Set(), r)
      {
        if es[i].fake {
          SkipFakes(es, ws, i, i + 1);
        } else if !es[i].del {
          KeepShape(es, ws, i, LiveEntry(order, root));
          OneMoreInfo(out, ws[i]);
          Keep(Ckpts(out), Reals(es, ws, i) + [LiveEntry(order, root)], Marks(es, i) + [false], ckptAvail.Set(), r);
          out := out + [ws[i]];
        } else {
          ws := DeleteOne(es, ws, i, Ckpts(out), r, order, root);
        }
        i := i + 1;
      }
      EndShape(es, ws, LiveEntry(order, root));
      End(Ckpts(out), Reals(es, ws, i) + [LiveEntry(order, root)], Marks(es, i) + [false], ckptAvail.Set(), r);
    }

    /** Take the block for a page. It is taken from the live system and then removed from its alloc list
        again: a block holding a list is never on one. */
    method TakeListBlock(n: nat) returns (at: Extent)
      requires Lists() && allocFirst > 0
      modifies this`size, this`avail, this`alloc
      ensures Lists() && alloc == old(alloc) && Whole(unit, at)
      ensures at.size == RoundUp(BLOCK_HEADER + n, unit) > 0 && FirstFits(old(SpaceOf(St())), at)
      ensures CanTake(old(SpaceOf(St())), at) && SpaceOf(St()) == Take(old(SpaceOf(St())), at)
    {
      hide Canonical, Bytes, Range, CanTake, Take, Below, SpaceAligned, FirstFits;
      RoundsUp(BLOCK_HEADER + n, unit);
      at := TakeBlock(RoundUp(BLOCK_HEADER + n, unit));
      var r := RemoveOverlap(alloc, at.off, at.size);
      BelowSub(r.value.exts, alloc.exts, size);
      alloc := r.value;
      SameSetSameList(alloc, old(alloc), Span(at));
    }

    /** Write a list to a page of its own. An empty list is not written. */
    method WriteListBlock(el: seq<Extent>) returns (at: Extent, sum: Sum, ghost page: bytes)
      requires Lists() && allocFirst > 0
      modifies this`size, this`avail, this`alloc, this`pages
      ensures Lists() && alloc == old(alloc) && Whole(unit, at)
      ensures CanTake(old(SpaceOf(St())), at) && SpaceOf(St()) == Take(old(SpaceOf(St())), at)
      ensures FirstFits(old(SpaceOf(St())), at)
      ensures at.size == if el == [] then 0 else BlockSize(page, unit)
      ensures at.size == 0 <==> el == []
      ensures pages == Stored(old(pages), at, page)
      ensures PageHolds(page, el) && (Storable(el) ==> page == ListBytes(el, 0)) && (at.size > 0 ==> sum == crc(page))
    {
      hide Canonical, Bytes, Range, CanTake, Take, Below, PageHolds, SpaceAligned, ListBytes, RoundUp, FirstFits;
      var buf := MakePage(el);
      page := buf;
      if el == [] {
        NoBlock(SpaceOf(St()));
        NoFit(SpaceOf(St()));
        return NOWHERE, 0, page;
      }
      at := TakeListBlock(|buf|);
      pages := pages[at.off := buf];
      sum := crc(buf);
    }

    /** Write the avail list of the live system, and the list of what becomes available after it, to a
        page, with the information for a reader that has only the file. The page has the file size
        that allocating its block leads to. */
    method WriteFinalBlock(el: seq<Extent>, additional: seq<Extent>, f: Scan.Final)
      returns (at: Extent, sum: Sum, ghost page: bytes)
      requires Lists() && f.Valid() && allocFirst > 0
      modifies this`size, this`avail, this`alloc, this`pages
      ensures Lists() && alloc == old(alloc) && Whole(unit, at)
      ensures CanTake(old(SpaceOf(St())), at) && SpaceOf(St()) == Take(old(SpaceOf(St())), at)
      ensures at.size == BlockSize(page, unit) && at.size > 0 && sum == crc(page) && FirstFits(old(SpaceOf(St())), at)
      ensures pages == Stored(old(pages), at, page) && PageHolds(page, el + additional)
      ensures Storable(el + additional) && size < TWO64 ==> Informs(page, el + additional, f.(fileSize := size))
    {
      hide Canonical, Bytes, Range, CanTake, Take, Below, PageHolds, SpaceAligned, Informs, Unsized, RoundUp, FirstFits;
      var buf, sizeAt := BeginPage(el, additional, f);
      at := TakeListBlock(|buf|);
      var full := EndPage(buf, sizeAt, size, el + additional, f);
      page := full;
      pages := pages[at.off := full];
      sum := crc(full);
    }

    /** Write the alloc and discard lists of a checkpoint marked for update, and record the blocks of its
        lists for the backups. */
    method UpdateOne(info: Info, mods: seq<BackupBitmap.BlockMods>, recorded: bool, ghost cs: seq<Ckpt>, ghost k: nat,
                     ghost others: seq<Ckpt>, ghost marks: seq<set<int>>, ghost bytes: set<int>)
      returns (a: Extent, d: Extent, aSum: Sum, dSum: Sum, recorded': bool)
      requires Lists() && info.Valid() && k < |cs| && cs[k] == info.Abs() && InsideOwn(unit, info.Abs())
      requires allocFirst > 0
      requires Safe(pages, unit, SpaceOf(St()), cs) && Safe(pages, unit, SpaceOf(St()), others)
      requires BackupBitmap.Recording(mods, marks, bytes, recorded)
      modifies this`size, this`avail, this`alloc, this`pages, mods
      ensures Lists() && alloc == old(alloc) && Whole(unit, a) && Whole(unit, d)
      ensures var sp := old(SpaceOf(St()));
              && CanWrite(sp, cs[k].alloc, a) && CanWrite(Take(sp, a), cs[k].discard, d)
              && SpaceOf(St()) == Take(Take(sp, a), d) && FirstFits(sp, a) && FirstFits(Take(sp, a), d)
      ensures Safe(pages, unit, SpaceOf(St()), cs[k := Rewrote(cs[k], (a, d))])
      ensures Safe(pages, unit, SpaceOf(St()), others)
      ensures SumAt(pages, crc, a, aSum) && SumAt(pages, crc, d, dSum)
      ensures SameForAll(old(pages), pages, cs) && SameForAll(old(pages), pages, others)
      ensures AllFormed(old(pages), writeGen) && info.fileSize < OFF_LIMIT ==> AllFormed(pages, writeGen)
      ensures BackupBitmap.Recording(mods, marks, bytes + (Span(a) + Span(d) + Span(info.availAt)), recorded')
    {
      hide Canonical, Bytes, CanTake, Take, Below, Safe, PageHolds, Stored, SpaceAligned, Range, Span, AllFormed;
      hide BackupBitmap.Recording, ListBytes, Storable, FirstFits, RoundUp, SameForAll, Taken;
      EmptyIs(info.alloc);
      EmptyIs(info.discard);
      SpaceBounded(avail, size);
      ghost var pa, pd;
      a, aSum, pa := WriteListBlock(info.alloc.exts);
      d, dSum, pd := WriteListBlock(info.discard.exts);
      UpdateSafe(old(pages), unit, old(SpaceOf(St())), a, pa, d, pd, info.alloc, info.discard, cs, k, others);
      ListsFormed(old(pages), unit, info.fileSize, writeGen, a, pa, info.alloc, d, pd, info.discard);
      TwoPages(old(pages), old(SpaceOf(St())), a, pa, d, pd);
      TwoSame(old(pages), unit, old(SpaceOf(St())), a, pa, d, pd, cs);
      TwoSame(old(pages), unit, old(SpaceOf(St())), a, pa, d, pd, others);
      recorded' := recorded;
      if recorded {
        recorded' := BackupBitmap.RecordLists(mods, a, d, info.availAt, marks, bytes);
      } else {
        BackupBitmap.NoMoreRoom(mods, marks, bytes, Span(a) + Span(d) + Span(info.availAt));
      }
    }

    /** Write the alloc and discard lists of every checkpoint marked for update, and record their blocks
        for the backups. */
    method UpdateMarked(infos: seq<Info>, mods: seq<BackupBitmap.BlockMods>, recorded: bool, ghost others: seq<Ckpt>,
                        ghost marks: seq<set<int>>, ghost bytes: set<int>)
      returns (out: seq<Info>, recorded': bool, ghost lists: seq<(Extent, Extent)>)
      requires Lists() && AllValid(infos) && AllInside(unit, Ckpts(infos)) && allocFirst > 0
      requires AllSummed(pages, crc, infos)
      requires Safe(pages, unit, SpaceOf(St()), Ckpts(infos)) && Safe(pages, unit, SpaceOf(St()), others)
      requires BackupBitmap.Recording(mods, marks, bytes, recorded)
      modifies this`size, this`avail, this`alloc, this`pages, mods
      ensures Lists() && alloc == old(alloc) && AllValid(out) && |out| == |infos| == |lists| && WholeLists(unit, lists)
      ensures CanRewrite(Ckpts(infos), |infos|, lists, old(SpaceOf(St())))
      ensures FirstLists(Ckpts(infos), |infos|, lists, old(SpaceOf(St())))
      ensures Rewrite(Ckpts(infos), |infos|, lists, old(SpaceOf(St()))) == (Ckpts(out), SpaceOf(St()))
      ensures Safe(pages, unit, SpaceOf(St()), Ckpts(out)) && Safe(pages, unit, SpaceOf(St()), others)
      ensures AllSummed(pages, crc, out) && SameForAll(old(pages), pages, others)
      ensures AllFormed(old(pages), writeGen) && AllBelow(Ckpts(infos)) ==> AllFormed(pages, writeGen)
      ensures BackupBitmap.Recording(mods, marks,
                bytes + IncrementalBackup.RewriteRecords(Ckpts(infos), |infos|, lists), recorded')
    {
      hide Canonical, Bytes, CanTake, Take, Below, Rewrite, CanRewrite, Safe, SpaceAligned, Range, Span, InsideOwn;
      hide BackupBitmap.MarkedSince, BackupBitmap.Recording, IncrementalBackup.RewriteRecords, AllFormed;
      hide FirstFits, FirstLists;
      hide AllSummed, SameForAll, SumAt;
      out, recorded', lists := infos, recorded, [];
      ghost var cs, sp := Ckpts(infos), SpaceOf(St());
      SameAlways(pages, others);
      RewriteNone(cs, lists, sp);
      FirstNone(cs, lists, sp);
      NoRecords(cs, lists, bytes);
      var k := 0;
      while k < |out|
        invariant k <= |out| == |infos| && |lists| == k && out[k..] == infos[k..] && WholeLists(unit, lists)
        invariant Lists() && alloc == old(alloc) && AllValid(out)
        invariant CanRewrite(cs, k, lists, sp) && Rewrite(cs, k, lists, sp) == (Ckpts(out), SpaceOf(St()))
        invariant FirstLists(cs, k, lists, sp)
        invariant Safe(pages, unit, SpaceOf(St()), Ckpts(out)) && Safe(pages, unit, SpaceOf(St()), others)
        invariant AllSummed(pages, crc, out) && SameForAll(old(pages), pages, others)
        invariant AllFormed(old(pages), writeGen) && AllBelow(cs) ==> AllFormed(pages, writeGen)
        invariant BackupBitmap.Recording(mods, marks,
                    bytes + IncrementalBackup.RewriteRecords(cs, k, lists), recorded')
      {
        assert out[k] == out[k..][0] == infos[k..][0] == infos[k];
        assert out[k + 1..] == infos[k + 1..];
        ghost var before := out;
        var a, d, aSum, dSum := NOWHERE, NOWHERE, 0, 0;
        if out[k].update {
          ghost var pages0 := pages;
          assert InsideOwn(unit, cs[k]) && (AllBelow(cs) ==> cs[k].fileSize < OFF_LIMIT);
          a, d, aSum, dSum, recorded' := UpdateOne(out[k], mods, recorded', Ckpts(out), k, others, marks,
                                                   bytes + IncrementalBackup.RewriteRecords(cs, k, lists));
          var sums := out[k].sums.(alloc := aSum, discard := dSum);
          SameTwice(old(pages), pages0, pages, others);
          SummedUpdate(pages0, pages, crc, out, k, a, d, sums);
          out := out[k := out[k].(allocAt := a, discardAt := d, sums := sums, update := false)];
          assert Ckpts(out) == Ckpts(before)[k := Rewrote(cs[k], (a, d))];
        }
        RewriteOne(cs, k, lists, (a, d), sp);
        FirstOne(cs, k, lists, (a, d), sp);
        RecordsOne(cs, k, lists, (a, d), bytes);
        lists := lists + [(a, d)];
        k := k + 1;
      }
    }

    /** Truncate the file if the last available extent is at its end. */
    method TruncateFile()
      requires Lists()
      modifies this`size, this`avail
      ensures avail.Valid() && Below(avail.exts, size)
      ensures SpaceOf(St()) == Trim(old(SpaceOf(St()))) && SpaceAligned(unit, SpaceOf(St()))
    {
      hide Canonical, Bytes, Trim, Range, Below, SpaceAligned;
      TrimAligned(unit, SpaceOf(St()));
      var n := |avail.exts|;
      LastExtent(avail, size);
      if n == 0 || avail.exts[n - 1].End() < size {
        return;
      }
      var e := avail.exts[n - 1];
      var r := RemoveOverlap(avail, e.off, e.size);
      avail, size := r.value, e.off;
      LastCut(avail, old(avail), e);
    }

    /** Write the live system's own lists: the avail list comes last, with the list of what becomes
        available and, for a reader that has only the file, what the caller knows of the file and the
        checkpoint's cookie. The cookie lacks what the block it is in will be; its file size is not the
        final one either. */
    method WriteLiveLists(root: Extent, rootSum: Sum, rolling: int, metadata: bytes, list: bytes)
      returns (a: Extent, d: Extent, v: Extent, written: seq<Extent>, sums: Sums, ghost pa: bytes, ghost pd: bytes,
               ghost pv: bytes, ghost vl: ExtentList, ghost f: Scan.Final, ghost stale: nat)
      requires Lists() && Informing(writeGen + 1, metadata, list) && allocFirst > 0
      modifies this`size, this`avail, this`alloc, this`pages, this`writeGen
      ensures Lists() && alloc == old(alloc) && writeGen == old(writeGen) + 1
      ensures Whole(unit, a) && Whole(unit, d) && Whole(unit, v)
      ensures var sp := old(SpaceOf(St()));
              var sp1 := Take(sp, a);
              var sp2 := Take(sp1, d);
              && CanWrite(sp, alloc.Set(), a) && CanWrite(sp1, discard.Set(), d) && CanTake(sp2, v)
              && SpaceOf(St()) == Take(sp2, v) && vl.Valid() && vl.Set() == sp2.avail && stale == sp2.size
              && SpaceAligned(unit, sp2) && FirstFits(sp, a) && FirstFits(sp1, d) && FirstFits(sp2, v)
      ensures pages == Stored(Stored(Stored(old(pages), a, pa), d, pd), v, pv) && written == vl.exts + ckptAvail.exts
      ensures PageHolds(pa, alloc.exts) && (Storable(alloc.exts) ==> pa == ListBytes(alloc.exts, 0))
      ensures PageHolds(pd, discard.exts) && (Storable(discard.exts) ==> pd == ListBytes(discard.exts, 0))
      ensures PageHolds(pv, written) && v.size == BlockSize(pv, unit) && v.size > 0
      ensures Storable(written) && size < TWO64 ==> Informs(pv, written, f.(fileSize := size))
      ensures f.writeGen == writeGen && f.metadata == metadata && f.list == list
      ensures sums.root == rootSum && (a.size > 0 ==> sums.alloc == crc(pa)) && (d.size > 0 ==> sums.discard == crc(pd))
      ensures sums.avail == crc(pv)
      ensures Incomplete(unit, f.cookie, Where(root, a, d, v, size, rolling, rootSum), sums, stale)
    {
      hide Canonical, Bytes, CanTake, Take, Below, PageHolds, SpaceAligned, Informs, CookieBytes, ListBytes, Storable;
      hide Encodable, Whole, RoundUp, FirstFits;
      EmptyIs(alloc);
      EmptyIs(discard);
      var aSum, dSum, vSum;
      a, aSum, pa := WriteListBlock(alloc.exts);
      d, dSum, pd := WriteListBlock(discard.exts);
      vl, stale := avail, size;
      written := avail.exts + ckptAvail.exts;
      var cookie := PackWhere(unit, Where(root, a, d, NOWHERE, size, rolling, rootSum),
                              Sums(rootSum, aSum, dSum, 0), true);
      writeGen := writeGen + 1;
      var info := Scan.Final(writeGen, 0, metadata, list, cookie);
      f := info;
      v, vSum, pv := WriteFinalBlock(avail.exts, ckptAvail.exts, info);
      sums := Sums(rootSum, aSum, dSum, vSum);
    }

    /** Write the live system's own lists and make its checkpoint. */
    method FinishCheckpoint(order: nat, root: Extent, rootSum: Sum, rolling: int, metadata: bytes, list: bytes,
                            mods: seq<BackupBitmap.BlockMods>, recorded: bool, ghost plan0: Plan,
                            ghost kept: seq<Ckpt>, ghost others: seq<Ckpt>, ghost marks: seq<set<int>>,
                            ghost bytes: set<int>)
      returns (info: Info, recorded': bool, ghost plan: Plan)
      requires Lists() && Roomy(St()) && (root.size == 0 ==> rootSum == 0)
      requires Safe(pages, unit, SpaceOf(St()), kept) && Safe(pages, unit, SpaceOf(St()), others)
      requires BackupBitmap.Recording(mods, marks, bytes, recorded)
      requires Informing(writeGen + 1, metadata, list) && allocFirst > 0
      modifies this`size, this`avail, this`alloc, this`pages, this`writeGen, mods
      ensures Lists() && alloc == old(alloc) && info.Valid() && info.order == order && writeGen == old(writeGen) + 1
      ensures plan == plan0.(alloc := plan.alloc, discard := plan.discard, avail := plan.avail, rootSum := plan.rootSum)
      ensures Whole(unit, plan.alloc) && Whole(unit, plan.discard) && Whole(unit, plan.avail)
      ensures var sp, live := old(SpaceOf(St())), old(LiveEntry(order, root));
              && Placed(sp, live, plan)
              && Finished(live, plan, ckptAvail.Set(), sp, rolling) == (info.Abs(), SpaceOf(St()))
      ensures SafeEntry(pages, unit, SpaceOf(St()), info.Abs())
      ensures Safe(pages, unit, SpaceOf(St()), kept) && Safe(pages, unit, SpaceOf(St()), others)
      ensures Summed(pages, crc, info) && plan.rootSum == rootSum
      ensures SameForAll(old(pages), pages, kept) && SameForAll(old(pages), pages, others)
      ensures AllFormed(old(pages), old(writeGen)) ==> Recovers(pages, unit, writeGen, crc, info, metadata, list)
      ensures BackupBitmap.Recording(mods, marks,
                bytes + (Span(plan.alloc) + Span(plan.discard) + Span(plan.avail)), recorded')
    {
      hide Canonical, Bytes, CanTake, Take, Below, Safe, SafeEntry, PageHolds, Stored, SpaceAligned, Aligned, Range;
      hide BackupBitmap.Recording, Span, AllFormed, Informs, Recoverable, CookieBytes, ListBytes;
      hide Storable, Encodable, Incomplete, Whole, Informing, RoundUp, FirstFits, SameForAll, Summed;
      SpaceBounded(avail, size);
      EmptyIs(alloc);
      EmptyIs(discard);
      ghost var sp, pages0 := SpaceOf(St()), pages;
      var a, d, v, written, sums;
      ghost var pa, pd, pv, vl, f, stale;
      a, d, v, written, sums, pa, pd, pv, vl, f, stale := WriteLiveLists(root, rootSum, rolling, metadata, list);
      recorded' := recorded;
      if recorded {
        recorded' := BackupBitmap.RecordLists(mods, a, d, v, marks, bytes);
      } else {
        BackupBitmap.NoMoreRoom(mods, marks, bytes, Span(a) + Span(d) + Span(v));
      }
      plan := plan0.(alloc := a, discard := d, avail := v, rootSum := rootSum);
      info := Info(order, root, alloc, discard, written, a, d, v, size, rolling, sums, false);
      BytesConcat(vl.exts, ckptAvail.exts);
      FinishSafe(pages0, unit, sp, a, pa, d, pd, v, pv, alloc, discard, vl, ckptAvail, info.Abs());
      ThreeSums(pages0, crc, sp, a, pa, d, pd, v, pv, info);
      ThreeStay(pages0, unit, sp, a, pa, d, pd, v, pv, kept);
      ThreeStay(pages0, unit, sp, a, pa, d, pd, v, pv, others);
      WithinFinal(unit, sp, a, d, v);
      if AllFormed(pages0, writeGen - 1) && info.fileSize < OFF_LIMIT && Encodable(info.Place()) {
        NowRecoverable(pages0, unit, writeGen, crc, info.Place(), info.sums, pa, pd, pv, alloc, discard, vl, ckptAvail,
                       f, stale);
      }
    }

    /** Write the root page, if there is one. */
    method WriteRoot(rootLen: Option<nat>) returns (root: Extent)
      requires Lists() && allocFirst > 0
      modifies this`size, this`avail, this`alloc
      ensures Lists() && Whole(unit, root) && CanTake(old(SpaceOf(St())), root) && St() == WithRoot(old(St()), root)
      ensures FirstFits(old(SpaceOf(St())), root)
      ensures root.size == if rootLen.Some? then RoundUp(BLOCK_HEADER + rootLen.value, unit) else 0
      ensures rootLen.Some? ==> root.size > 0
    {
      hide Canonical, Bytes, CanTake, Take, Below, Span, Range, SpaceAligned, FirstFits;
      root := NOWHERE;
      NoBlock(SpaceOf(St()));
      NoFit(SpaceOf(St()));
      if rootLen.Some? {
        RoundsUp(BLOCK_HEADER + rootLen.value, unit);
        root := TakeBlock(RoundUp(BLOCK_HEADER + rootLen.value, unit));
      }
    }

    lemma ValidParts()
      requires Valid()
      ensures Inv(St()) && Formatted(St()) && Paged(pages, unit, cur) && Paged(pages, unit, durable)
    {
    }

    /** Nothing works any more. */
    method Panic()
      requires Valid()
      modifies this`phase
      ensures Valid() && St() == old(St()).(phase := Panicked)
    {
      hide Inv, Formatted, Paged, Canonical, Bytes;
      PanicKeeps(St());
      phase := Panicked;
    }

    /** A checkpoint was written that had not been started: the root page has been written. */
    method RefuseCheckpoint(root: Extent, ghost s: State)
      requires Lists() && Inv(s) && Formatted(s) && Paged(pages, s.unit, s.cur) && Paged(pages, s.unit, s.durable)
      requires CanTake(SpaceOf(s), root) && Whole(s.unit, root) && s.phase != Panicked && St() == WithRoot(s, root)
      modifies this`phase
      ensures Valid() && St() == Refused(s, root) && phase == Panicked
    {
      hide Inv, Formatted, Paged, Canonical, Bytes, Take, CanTake, Span;
      InvRefused(s, root);
      RefusedFormatted(s, root);
      phase := Panicked;
    }

    /** Write the checkpoint that was started, its root page being written. */
    method WriteStarted(order: nat, root: Extent, rootSum: Sum, es: seq<Entry>, metadata: bytes, list: bytes,
                        mods: seq<BackupBitmap.BlockMods>, created: bool, ghost marks: seq<set<int>>, ghost s: State)
      returns (cookies: seq<bytes>, reported: int, recorded: bool, ghost plan: Plan)
      requires Lists() && Inv(s) && Formatted(s) && s.phase == InProgress && Paged(pages, unit, s.cur)
      requires CanTake(SpaceOf(s), root) && Whole(unit, root) && St() == WithRoot(s, root)
      requires ListedBy(unit, pages, crc, es, 0, s.cur) && order !in Orders(s.cur)
      requires AllBelow(s.cur) && Informing(writeGen + 1, metadata, list) && BackupBitmap.MarkedSince(mods, marks, {})
      requires allocFirst > 0 && FirstFits(SpaceOf(s), root) && (root.size == 0 ==> rootSum == 0)
      modifies this`size, this`avail, this`alloc, this`discard, this`ckptAvail, this`ckptSize, this`phase, this`cur,
               this`pages, this`writeGen, mods
      ensures Valid() && plan.root == root && plan.rootSum == rootSum && writeGen == old(writeGen) + 1
      ensures Outcome(s, order, Marks(es, 0), plan, St())
      ensures reported == NewSize(s, root) && CookiesOf(unit, pages, crc, cookies, cur)
      ensures SameForAll(old(pages), pages, s.cur)
      ensures AllFormed(old(pages), old(writeGen)) ==> Found(pages, unit, writeGen, crc, cur, cookies, metadata, list)
      ensures BackupBitmap.Recording(mods, marks, Recorded(s, order, Marks(es, 0), plan, created), recorded)
    {
      hide Inv, Canonical, Bytes, CanTake, Take, Below, Reals, Marks, Span, Range, Formatted, Paged, ListedBy;
      hide AllOnPages, BackupBitmap.MarkedSince, BackupBitmap.Recording, SpaceAligned, WholePlan, Whole, Recorded;
      hide AllBelow, AllFormed;
      hide AllSummed, SameForAll, WorkSummed, CookiesOf, Found, Informing, Recovers, CookieBytes, Encodable;
      hide Outcome, Orders, WorkValid, AllValid;
      SameUnitOf(s, root);
      NothingPending(s);
      StateOnPages(pages, s);
      var ws := ReadEntries(pages, unit, crc, es, s.cur);
      var out;
      out, reported, recorded, plan := ProcessCheckpoint(order, root, rootSum, es, ws, metadata, list, mods, created,
                                                         marks, s);
      OutcomeKeeps(s, order, Marks(es, 0), plan, St());
      cookies := PackAll(unit, pages, crc, out);
      if AllFormed(old(pages), old(writeGen)) {
        NowFound(pages, unit, writeGen, crc, out, cookies, metadata, list);
      }
    }

    /** The same, and if a block could not be recorded, nothing works any more. */
    method WriteOrPanic(order: nat, root: Extent, rootSum: Sum, es: seq<Entry>, metadata: bytes, list: bytes,
                        mods: seq<BackupBitmap.BlockMods>, created: bool, ghost marks: seq<set<int>>, ghost s: State)
      returns (cookies: seq<bytes>, reported: int, recorded: bool, ghost plan: Plan)
      requires Lists() && Inv(s) && Formatted(s) && s.phase == InProgress && Paged(pages, unit, s.cur)
      requires CanTake(SpaceOf(s), root) && Whole(unit, root) && St() == WithRoot(s, root)
      requires ListedBy(unit, pages, crc, es, 0, s.cur) && order !in Orders(s.cur)
      requires AllBelow(s.cur) && Informing(writeGen + 1, metadata, list) && BackupBitmap.MarkedSince(mods, marks, {})
      requires allocFirst > 0 && FirstFits(SpaceOf(s), root) && (root.size == 0 ==> rootSum == 0)
      modifies this`size, this`avail, this`alloc, this`discard, this`ckptAvail, this`ckptSize, this`phase, this`cur,
               this`pages, this`writeGen, mods
      ensures Valid() && plan.root == root && plan.rootSum == rootSum && writeGen == old(writeGen) + 1
      ensures |Marks(es, 0)| == |s.cur| && PlanOk(s, order, Marks(es, 0), plan)
      ensures FirstPlan(s, order, Marks(es, 0), plan)
      ensures var s' := Checkpoint(s, order, Marks(es, 0), plan);
              St() == if recorded then s' else s'.(phase := Panicked)
      ensures reported == NewSize(s, root) && CookiesOf(unit, pages, crc, cookies, cur)
      ensures SameForAll(old(pages), pages, s.cur)
      ensures AllFormed(old(pages), old(writeGen)) ==> Found(pages, unit, writeGen, crc, cur, cookies, metadata, list)
      ensures BackupBitmap.Recording(mods, marks, Recorded(s, order, Marks(es, 0), plan, created), recorded)
    {
      hide Inv, Canonical, Bytes, CanTake, Take, Below, PlanOk, Checkpoint, Marks, Span, Range, Formatted, Paged;
      hide ListedBy, BackupBitmap.MarkedSince, BackupBitmap.Recording, SpaceAligned, Recorded, AllBelow;
      hide AllFormed, CookiesOf, Found, Informing, FirstPlan, FirstFits, SameForAll, Valid, Lists, NewSize, Orders;
      hide WithRoot, Whole;
      cookies, reported, recorded, plan := WriteStarted(order, root, rootSum, es, metadata, list, mods, created, marks,
                                                        s);
      if !recorded {
        Panic();
      }
    }

    /** Write a checkpoint while blocks are allocated first-fit. */
    method WriteFirst(order: nat, root: Option<(nat, Sum)>, es: seq<Entry>, metadata: bytes, list: bytes,
                      mods: seq<BackupBitmap.BlockMods>, created: bool, ghost marks: seq<set<int>>)
      returns (cookies: seq<bytes>, reported: int, recorded: bool, ghost plan: Plan)
      requires Valid() && phase != Panicked && allocFirst > 0 && BackupBitmap.MarkedSince(mods, marks, {})
      requires phase == InProgress ==> ListedBy(unit, pages, crc, es, 0, cur) && order !in Orders(cur)
      requires phase == InProgress ==> AllBelow(cur) && Informing(writeGen + 1, metadata, list)
      modifies this`size, this`avail, this`alloc, this`discard, this`ckptAvail, this`ckptSize, this`phase, this`cur,
               this`pages, this`writeGen, mods
      ensures Valid()
      ensures writeGen == old(writeGen) + if old(phase) == InProgress then 1 else 0
      ensures plan.root.size == if root.Some? then RoundUp(BLOCK_HEADER + root.value.0, unit) else 0
      ensures old(phase) != InProgress ==>
                && CanTake(old(SpaceOf(St())), plan.root) && St() == Refused(old(St()), plan.root)
                && phase == Panicked && pages == old(pages) && BackupBitmap.MarkedSince(mods, marks, {})
      ensures old(phase) == InProgress ==>
                && |Marks(es, 0)| == |old(cur)| && PlanOk(old(St()), order, Marks(es, 0), plan)
                && FirstPlan(old(St()), order, Marks(es, 0), plan)
                && var s' := Checkpoint(old(St()), order, Marks(es, 0), plan);
                   St() == if recorded then s' else s'.(phase := Panicked)
      ensures old(phase) == InProgress ==>
                && reported == NewSize(old(St()), plan.root) && CookiesOf(unit, pages, crc, cookies, cur)
                && plan.rootSum == (if root.Some? then root.value.1 else 0)
                && SameForAll(old(pages), pages, old(durable))
      ensures old(phase) == InProgress ==>
                BackupBitmap.Recording(mods, marks, Recorded(old(St()), order, Marks(es, 0), plan, created), recorded)
      ensures old(phase) == InProgress && AllFormed(old(pages), old(writeGen)) ==>
                Found(pages, unit, writeGen, crc, cur, cookies, metadata, list)
    {
      hide Inv, Canonical, Bytes, CanTake, Take, Below, PlanOk, Checkpoint, Marks, Span, Range, Formatted, Paged;
      hide ListedBy, BackupBitmap.MarkedSince, BackupBitmap.Recording, SpaceAligned, Recorded, AllBelow;
      hide AllFormed, CookiesOf, Found, Informing, FirstPlan, FirstFits, RoundUp, SameForAll;
      hide Valid, Lists, Refused, NewSize, Orders, WithRoot, Whole, Base;
      ghost var s := St();
      ListsValid();
      ValidParts();
      var at := WriteRoot(if root.Some? then Some(root.value.0) else None);
      if phase != InProgress {
        plan, cookies, reported, recorded := Plan(at, [], NOWHERE, NOWHERE, NOWHERE, 0), [], 0, false;
        RefuseCheckpoint(at, s);
      } else {
        NothingPending(s);
        cookies, reported, recorded, plan := WriteOrPanic(order, at, if root.Some? then root.value.1 else 0, es,
                                                          metadata, list, mods, created, marks, s);
      }
    }

    /** Write a checkpoint: the root page first, and the rest only if the checkpoint was started. The
        lists of the checkpoints there are, given by their cookies, are read from their pages, and what
        is written goes to pages that can be read again. The blocks written are recorded for the
        running incremental backups; where a bitmap has no room the assertion that stops a diagnostic
        build leaves the file unusable. The caller then saves the cookies that are returned, and
        resolves the checkpoint. */
    method WriteCheckpoint(order: nat, root: Option<(nat, Sum)>, es: seq<Entry>, metadata: bytes, list: bytes,
                           mods: seq<BackupBitmap.BlockMods>, created: bool, ghost marks: seq<set<int>>)
      returns (cookies: seq<bytes>, reported: int, recorded: bool, ghost plan: Plan)
      requires Valid() && phase != Panicked && BackupBitmap.MarkedSince(mods, marks, {})
      requires phase == InProgress ==> ListedBy(unit, pages, crc, es, 0, cur) && order !in Orders(cur)
      requires phase == InProgress ==> AllBelow(cur) && Informing(writeGen + 1, metadata, list)
      modifies this, mods
      ensures Valid() && allocFirst == old(allocFirst)
      ensures writeGen == old(writeGen) + if old(phase) == InProgress then 1 else 0
      ensures plan.root.size == if root.Some? then RoundUp(BLOCK_HEADER + root.value.0, unit) else 0
      ensures old(phase) != InProgress ==>
                && CanTake(old(SpaceOf(St())), plan.root) && St() == Refused(old(St()), plan.root)
                && phase == Panicked && pages == old(pages) && BackupBitmap.MarkedSince(mods, marks, {})
      ensures old(phase) == InProgress ==>
                && |Marks(es, 0)| == |old(cur)| && PlanOk(old(St()), order, Marks(es, 0), plan)
                && FirstPlan(old(St()), order, Marks(es, 0), plan)
                && var s' := Checkpoint(old(St()), order, Marks(es, 0), plan);
                   St() == if recorded then s' else s'.(phase := Panicked)
      ensures old(phase) == InProgress ==>
                && reported == NewSize(old(St()), plan.root) && CookiesOf(unit, pages, crc, cookies, cur)
                && plan.rootSum == (if root.Some? then root.value.1 else 0)
                && SameForAll(old(pages), pages, old(durable))
      ensures old(phase) == InProgress ==>
                BackupBitmap.Recording(mods, marks, Recorded(old(St()), order, Marks(es, 0), plan, created), recorded)
      ensures old(phase) == InProgress && AllFormed(old(pages), old(writeGen)) ==>
                Found(pages, unit, writeGen, crc, cur, cookies, metadata, list)
    {
      hide Inv, Canonical, Bytes, CanTake, Take, Below, PlanOk, Checkpoint, Marks, Span, Range, Formatted, Paged;
      hide ListedBy, BackupBitmap.MarkedSince, BackupBitmap.Recording, SpaceAligned, Recorded, AllBelow;
      hide AllFormed, CookiesOf, Found, Informing, FirstPlan, FirstFits, RoundUp, SameForAll, Refused, NewSize, Orders;
      allocFirst := allocFirst + 1;
      cookies, reported, recorded, plan := WriteFirst(order, root, es, metadata, list, mods, created, marks);
      allocFirst := allocFirst - 1;
    }

    /** Process the checkpoint array: delete what is marked, then write the lists of the checkpoints
        that took something in. Where nothing is marked for deletion the source skips both loops,
        which would change nothing. */
    method RollAndRewrite(order: nat, root: Extent, es: seq<Entry>, ws: seq<Info>, mods: seq<BackupBitmap.BlockMods>,
                          recorded: bool, ghost marks: seq<set<int>>, ghost bytes: set<int>, ghost s: State)
      returns (kept: seq<Info>, recorded': bool, ghost plan: Plan)
      requires Lists() && |ws| == |es| && WorkValid(es, ws, 0) && Reals(es, ws, 0) == s.cur
      requires WorkSummed(pages, crc, es, ws, 0)
      requires Inv(s) && s.phase == InProgress && CanTake(SpaceOf(s), root) && Formatted(s)
      requires St() == WithRoot(s, root).(phase := PanicOnFailure)
      requires Paged(pages, unit, s.cur) && allocFirst > 0
      requires BackupBitmap.Recording(mods, marks, bytes, recorded)
      modifies this`size, this`avail, this`alloc, this`discard, this`ckptAvail, this`pages, mods
      ensures Lists() && AllValid(kept) && |Marks(es, 0)| == |s.cur|
      ensures plan == Plan(root, plan.lists, NOWHERE, NOWHERE, NOWHERE, 0) && PlanStarts(s, order, Marks(es, 0), plan)
      ensures WholeLists(unit, plan.lists)
      ensures FirstLists(Deleted(s, order, Marks(es, 0), plan).cs, |plan.lists|, plan.lists, SpaceOf(WithRoot(s, root)))
      ensures Updated(s, order, Marks(es, 0), plan) == (Ckpts(kept) + [LiveEntry(order, root)], SpaceOf(St()))
      ensures ckptAvail.Set() == Deleted(s, order, Marks(es, 0), plan).freed
      ensures Safe(pages, unit, SpaceOf(St()), Ckpts(kept)) && Safe(pages, unit, SpaceOf(St()), s.cur)
      ensures AllSummed(pages, crc, kept) && SameForAll(old(pages), pages, s.cur)
      ensures AllFormed(old(pages), writeGen) && AllBelow(s.cur) ==> AllFormed(pages, writeGen)
      ensures BackupBitmap.Recording(mods, marks, bytes + IncrementalBackup.RewriteRecords(
                Deleted(s, order, Marks(es, 0), plan).cs, |plan.lists|, plan.lists), recorded')
    {
      hide Inv, Canonical, Bytes, CanTake, Take, Below, Rewrite, CanRewrite, Roll, Trim, Reals, Marks, Chain, Spaced;
      hide Range, Span, Conserved, Apart, Base, Uses, Pick, Ckpts, Formatted, Paged, Safe, AllInside, SpaceAligned;
      hide BackupBitmap.Recording, IncrementalBackup.RewriteRecords, AllFormed, AllBelow;
      hide AllSummed, SameForAll, WorkSummed, FirstLists;
      ghost var del := Marks(es, 0);
      ckptAvail := EMPTY;
      BytesNone();
      AfterDeletions(s, order, del, root);
      DeletedSafe(pages, s, order, del, root);
      if AllBelow(s.cur) {
        DeletedBelow(s.cur, NewCkpt(WithRoot(s, root), order, root), del);
      }
      kept := DeleteMarked(es, ws, order, root);
      ghost var r := Roll(s.cur + [NewCkpt(WithRoot(s, root), order, root)], del + [false]);
      LiveInside(s.unit, Ckpts(kept), LiveEntry(order, root), SpaceOf(St()), r.freed);
      InsideLists(alloc, avail, ckptAvail, s.unit, size);
      assert r.cs[..|r.cs| - 1] == Ckpts(kept);
      ghost var before, sp0 := kept, SpaceOf(St());
      ghost var lists;
      kept, recorded', lists := UpdateMarked(kept, mods, recorded, s.cur, marks, bytes);
      plan := Plan(root, lists + [(NOWHERE, NOWHERE)], NOWHERE, NOWHERE, NOWHERE, 0);
      UpdatedIs(s, order, del, plan, Ckpts(before), LiveEntry(order, root), r, lists, sp0, Ckpts(kept), SpaceOf(St()));
    }

    /** Process the checkpoint array, and cut the file if possible. What the live system has allocated is
        recorded before anything is merged into it. */
    method PrepareCheckpoint(order: nat, root: Extent, es: seq<Entry>, ws: seq<Info>,
                             mods: seq<BackupBitmap.BlockMods>, created: bool, ghost marks: seq<set<int>>,
                             ghost s: State)
      returns (kept: seq<Info>, recorded: bool, ghost plan: Plan)
      requires Lists() && |ws| == |es| && WorkValid(es, ws, 0) && Reals(es, ws, 0) == s.cur
      requires WorkSummed(pages, crc, es, ws, 0)
      requires Inv(s) && s.phase == InProgress && CanTake(SpaceOf(s), root)
      requires St() == WithRoot(s, root).(phase := PanicOnFailure)
      requires Formatted(s) && Whole(unit, root) && Paged(pages, unit, s.cur)
      requires BackupBitmap.MarkedSince(mods, marks, {}) && allocFirst > 0 && FirstFits(SpaceOf(s), root)
      modifies this`size, this`avail, this`alloc, this`discard, this`ckptAvail, this`pages, mods
      ensures Lists() && AllValid(kept) && |Marks(es, 0)| == |s.cur| && Roomy(St())
      ensures plan.root == root && WholePlan(unit, plan)
      ensures Prepared(s, order, Marks(es, 0), plan, Ckpts(kept), LiveEntry(order, root), SpaceOf(St()),
                       ckptAvail.Set())
      ensures Safe(pages, unit, SpaceOf(St()), Ckpts(kept)) && Safe(pages, unit, SpaceOf(St()), s.cur)
      ensures AllSummed(pages, crc, kept) && SameForAll(old(pages), pages, s.cur)
      ensures AllFormed(old(pages), writeGen) && AllBelow(s.cur) ==> AllFormed(pages, writeGen)
      ensures BackupBitmap.Recording(mods, marks, Begun(s, order, Marks(es, 0), plan, created), recorded)
    {
      hide Inv, Canonical, Bytes, CanTake, Take, Below, Rewrite, CanRewrite, Roll, Trim, Reals, Marks, Chain, Spaced;
      hide Range, Span, Conserved, Apart, Base, Uses, Pick, Ckpts, Formatted, Paged, Safe, SpaceAligned, Aligned;
      hide BackupBitmap.MarkedSince, BackupBitmap.Recording, IncrementalBackup.RewriteRecords, WholePlan, Whole;
      hide AllFormed, AllBelow, AllSummed, SameForAll, WorkSummed, FirstFits, FirstLists;
      ghost var del := Marks(es, 0);
      SizesPositive(alloc);
      recorded := BackupBitmap.RecordAlloc(mods, created, unit, alloc.exts, marks);
      ghost var bytes := alloc.Set() + if created then Range(0, unit) else {};
      kept, recorded, plan := RollAndRewrite(order, root, es, ws, mods, recorded, marks, bytes, s);
      BeforeFinish(s, order, del, plan);
      FreedAligned(s, order, del, plan);
      SafeTrimmed(pages, unit, SpaceOf(St()), Ckpts(kept));
      SafeTrimmed(pages, unit, SpaceOf(St()), s.cur);
      TruncateFile();
      LiveInside(s.unit, Ckpts(kept), LiveEntry(order, root), SpaceOf(St()), ckptAvail.Set());
      LiveDiscard(s.unit, Ckpts(kept), LiveEntry(order, root), SpaceOf(St()), ckptAvail.Set());
      InsideLists(alloc, avail, ckptAvail, s.unit, size);
    }

    /** Write the new checkpoint once the checkpoint array has been processed: the live system's lists
        start anew. */
    method CloseCheckpoint(order: nat, root: Extent, rootSum: Sum, reported: int, metadata: bytes, list: bytes,
                           kept: seq<Info>, mods: seq<BackupBitmap.BlockMods>, recorded: bool, ghost created: bool,
                           ghost del: seq<bool>, ghost plan0: Plan, ghost marks: seq<set<int>>, ghost s: State)
      returns (out: seq<Info>, recorded': bool, ghost plan: Plan)
      requires Lists() && AllValid(kept) && Roomy(St()) && AllSummed(pages, crc, kept)
      requires root.size == 0 ==> rootSum == 0
      requires Safe(pages, unit, SpaceOf(St()), Ckpts(kept)) && Safe(pages, unit, SpaceOf(St()), s.cur)
      requires Prepared(s, order, del, plan0, Ckpts(kept), LiveEntry(order, root), SpaceOf(St()), ckptAvail.Set())
      requires plan0.root == root && WholePlan(unit, plan0) && reported == NewSize(s, root)
      requires unit == s.unit && phase == PanicOnFailure && durable == s.durable
      requires Informing(writeGen + 1, metadata, list) && allocFirst > 0
      requires BackupBitmap.Recording(mods, marks, Begun(s, order, del, plan0, created), recorded)
      modifies this`size, this`avail, this`alloc, this`discard, this`ckptSize, this`cur, this`pages, this`writeGen, mods
      ensures avail.Valid() && alloc.Valid() && discard.Valid() && ckptAvail.Valid()
      ensures plan.root == root && plan.rootSum == rootSum && WholePlan(unit, plan)
      ensures Outcome(s, order, del, plan, St())
      ensures AllValid(out) && out != [] && Ckpts(out) == cur && writeGen == old(writeGen) + 1
      ensures Paged(pages, unit, cur) && Paged(pages, unit, s.cur)
      ensures AllSummed(pages, crc, out) && SameForAll(old(pages), pages, s.cur)
      ensures AllFormed(old(pages), old(writeGen)) ==>
                Recovers(pages, unit, writeGen, crc, out[|out| - 1], metadata, list)
      ensures BackupBitmap.Recording(mods, marks, Recorded(s, order, del, plan, created), recorded')
    {
      hide Canonical, Bytes, CanTake, Take, Below, Range, Span, Ckpts, Paged, Safe, SafeEntry, SpaceAligned, Aligned;
      hide BackupBitmap.Recording, Recorded, Begun, Finished, Prepared, Outcome;
      hide WholePlan, Whole, AllFormed, Recovers, Informing, NewSize, Roomy, Placed, Lists, NewCkpt, AllValid, Min;
      hide AllSummed, Summed, SameForAll;
      var rolling := Min(reported - root.size, size);
      ghost var live, sp := LiveEntry(order, root), SpaceOf(St());
      var info;
      PreparedStarts(s, order, del, plan0, Ckpts(kept), live, sp, ckptAvail.Set());
      info, recorded', plan := FinishCheckpoint(order, root, rootSum, rolling, metadata, list, mods, recorded, plan0,
                                                Ckpts(kept), s.cur, marks, Begun(s, order, del, plan0, created));
      BytesNone();
      ListsParts();
      OneMoreValid(kept, info);
      SummedNext(old(pages), pages, crc, kept, info);
      out := kept + [info];
      alloc, discard, ckptSize := EMPTY, EMPTY, rolling;
      cur := Ckpts(out);
      ClosedIs(pages, s, order, del, plan0, plan, kept, live, sp, info, created, St());
    }

    /** Process the checkpoint array and write the new checkpoint. */
    method ProcessCheckpoint(order: nat, root: Extent, rootSum: Sum, es: seq<Entry>, ws: seq<Info>, metadata: bytes,
                             list: bytes, mods: seq<BackupBitmap.BlockMods>, created: bool, ghost marks: seq<set<int>>,
                             ghost s: State)
      returns (out: seq<Info>, reported: int, recorded: bool, ghost plan: Plan)
      requires Lists() && |ws| == |es| && WorkValid(es, ws, 0) && Reals(es, ws, 0) == s.cur
      requires WorkSummed(pages, crc, es, ws, 0)
      requires Inv(s) && s.phase == InProgress && CanTake(SpaceOf(s), root) && St() == WithRoot(s, root)
      requires Formatted(s) && Whole(unit, root) && Paged(pages, unit, s.cur)
      requires BackupBitmap.MarkedSince(mods, marks, {}) && Informing(writeGen + 1, metadata, list)
      requires allocFirst > 0 && FirstFits(SpaceOf(s), root) && (root.size == 0 ==> rootSum == 0)
      modifies this`size, this`avail, this`alloc, this`discard, this`ckptAvail, this`ckptSize, this`phase, this`cur,
               this`pages, this`writeGen, mods
      ensures avail.Valid() && alloc.Valid() && discard.Valid() && ckptAvail.Valid()
      ensures plan.root == root && plan.rootSum == rootSum && WholePlan(unit, plan)
      ensures Outcome(s, order, Marks(es, 0), plan, St())
      ensures AllValid(out) && out != [] && Ckpts(out) == cur && reported == NewSize(s, root)
      ensures Paged(pages, unit, cur) && Paged(pages, unit, s.cur)
      ensures writeGen == old(writeGen) + 1
      ensures AllFormed(old(pages), old(writeGen)) && AllBelow(s.cur) ==>
                Recovers(pages, unit, writeGen, crc, out[|out| - 1], metadata, list)
      ensures AllSummed(pages, crc, out) && SameForAll(old(pages), pages, s.cur)
      ensures BackupBitmap.Recording(mods, marks, Recorded(s, order, Marks(es, 0), plan, created), recorded)
    {
      hide Inv, Canonical, Bytes, CanTake, Take, Below, Reals, Marks, Ckpts, Formatted, Paged, Safe, SpaceAligned;
      hide BackupBitmap.MarkedSince, BackupBitmap.Recording, Recorded, Begun, Aligned, Prepared, Outcome;
      hide WholePlan, Whole, WorkValid;
      hide AllFormed, AllBelow, Recovers, Informing, Range, Span, Roomy, AllSummed, SameForAll, WorkSummed;
      phase := PanicOnFailure;
      reported := ckptSize + alloc.bytes - discard.bytes;
      var kept;
      ghost var plan0;
      kept, recorded, plan0 := PrepareCheckpoint(order, root, es, ws, mods, created, marks, s);
      ghost var pages0 := pages;
      out, recorded, plan := CloseCheckpoint(order, root, rootSum, reported, metadata, list, kept, mods, recorded,
                                             created, Marks(es, 0), plan0, marks, s);
      SameTwice(old(pages), pages0, pages, s.cur);
    }
  }

  /** The deletions and the rewrites as their parts make them. */
  lemma UpdatedIs(s: State, order: nat, del: seq<bool>, plan: Plan, before: seq<Ckpt>, live: Ckpt, r: Rolled,
                  lists: seq<(Extent, Extent)>, sp0: Space, kept: seq<Ckpt>, sp: Space)
    requires |del| == |s.cur| && CanTake(SpaceOf(s), plan.root) && !live.update && |lists| == |before|
    requires r == Roll(s.cur + [NewCkpt(WithRoot(s, plan.root), order, plan.root)], del + [false])
    requires r.cs == before + [live] && sp0 == SpaceOf(WithRoot(s, plan.root))
    requires plan.lists == lists + [(NOWHERE, NOWHERE)] && CanRewrite(before, |before|, lists, sp0)
    requires Rewrite(before, |before|, lists, sp0) == (kept, sp) && FirstLists(before, |before|, lists, sp0)
    ensures PlanStarts(s, order, del, plan) && Updated(s, order, del, plan) == (kept + [live], sp)
    ensures Deleted(s, order, del, plan) == r && FirstLists(r.cs, |plan.lists|, plan.lists, sp0)
    ensures IncrementalBackup.RewriteRecords(Deleted(s, order, del, plan).cs, |plan.lists|, plan.lists)
         == IncrementalBackup.RewriteRecords(before, |before|, lists)
  {
    hide Roll, Rewrite, CanRewrite, CanTake, Take, Span, IncrementalBackup.RewriteRecords, FirstLists;
    RewriteAppend(before, live, lists, sp0);
    FirstAppend(before, live, lists, sp0);
    RecordsAppend(before, live, lists);
  }

  /** The live system's lists are inside the file, and what becomes available is apart from what is. */
  ghost predicate Roomy(s: State) {
    && 0 < s.unit && s.avail !! s.ckptAvail && Aligned(s.unit, s.ckptAvail)
    && s.alloc <= Range(s.unit, s.size) && s.discard <= Range(s.unit, s.size)
    && s.avail <= Range(s.unit, s.size) && s.ckptAvail <= Range(s.unit, s.size)
  }

  /** The lists of a checkpoint can be placed as planned. */
  ghost predicate Placed(sp: Space, live: Ckpt, plan: Plan) {
    var sp3 := Take(sp, plan.alloc);
    var sp4 := Take(sp3, plan.discard);
    && CanWrite(sp, live.alloc, plan.alloc) && CanWrite(sp3, live.discard, plan.discard)
    && CanTake(sp4, plan.avail) && plan.avail.size > 0
    && FirstFits(sp, plan.alloc) && FirstFits(sp3, plan.discard) && FirstFits(sp4, plan.avail)
  }

  /** The checkpoint array has been processed as planned: these entries are kept, the live system has
      become this one, and this is available, or will be. */
  ghost predicate Prepared(s: State, order: nat, del: seq<bool>, plan: Plan, kept: seq<Ckpt>, live: Ckpt, sp: Space,
                           freed: set<int>)
  {
    && PlanStarts(s, order, del, plan)
    && Updated(s, order, del, plan).0 == kept + [live] && Trim(Updated(s, order, del, plan).1) == sp
    && Deleted(s, order, del, plan).freed == freed && FirstFits(SpaceOf(s), plan.root)
    && FirstLists(Deleted(s, order, del, plan).cs, |plan.lists|, plan.lists, SpaceOf(WithRoot(s, plan.root)))
  }

  lemma PreparedStarts(s: State, order: nat, del: seq<bool>, plan: Plan, kept: seq<Ckpt>, live: Ckpt, sp: Space,
                       freed: set<int>)
    requires Prepared(s, order, del, plan, kept, live, sp, freed)
    ensures PlanStarts(s, order, del, plan)
  {
  }

  /** A checkpoint has been written as planned. */
  ghost predicate Outcome(s: State, order: nat, del: seq<bool>, plan: Plan, s': State) {
    && |del| == |s.cur| && PlanOk(s, order, del, plan) && FirstPlan(s, order, del, plan)
    && s' == Checkpoint(s, order, del, plan)
  }

  lemma OutcomeKeeps(s: State, order: nat, del: seq<bool>, plan: Plan, s': State)
    requires Inv(s) && Formatted(s) && s.phase == InProgress && order !in Orders(s.cur)
    requires Outcome(s, order, del, plan, s') && WholePlan(s.unit, plan)
    ensures Inv(s') && Formatted(s') && s'.durable == s.durable && s'.unit == s.unit
  {
    hide Inv, Formatted, PlanOk, Orders, WholePlan;
    InvCheckpoint(s, order, del, plan);
    CheckpointFormatted(s, order, del, plan);
    hide Roll, Rewrite, Trim, CanRewrite, CanTake, Take;
  }

  lemma SameUnitOf(s: State, root: Extent)
    ensures WithRoot(s, root).unit == s.unit && WithRoot(s, root).durable == s.durable
  {
  }

  /** The last checkpoint written can be found without its cookie, if its numbers fit one. */
  ghost predicate Recovers(pages: Store, unit: nat, gen: nat, crc: bytes -> Sum, info: Info, metadata: bytes,
                           list: bytes)
    requires 0 < unit
  {
    info.fileSize < OFF_LIMIT && Encodable(info.Place()) ==>
      Recoverable(pages, unit, gen, crc, info.Place(), CookieBytes(unit, CookieOf(info.Place(), info.sums)), metadata,
                  list)
  }

  /** The cookies of checkpoints, as far as their numbers fit one. */
  ghost predicate CookiesOf(unit: nat, pages: Store, crc: bytes -> Sum, cookies: seq<bytes>, cs: seq<Ckpt>)
    requires 0 < unit
  {
    && |cookies| == |cs|
    && forall i | 0 <= i < |cs| && Encodable(WhereOf(cs[i])) :: CookieFor(unit, pages, crc, cookies[i], WhereOf(cs[i]))
  }

  /** The last of some checkpoints can be found without its cookie, if its numbers fit one. */
  ghost predicate Found(pages: Store, unit: nat, gen: nat, crc: bytes -> Sum, cs: seq<Ckpt>, cookies: seq<bytes>,
                        metadata: bytes, list: bytes)
    requires 0 < unit
  {
    && cs != [] && |cookies| == |cs|
    && var w := WhereOf(cs[|cs| - 1]);
       (w.fileSize < OFF_LIMIT && Encodable(w) ==>
          Recoverable(pages, unit, gen, crc, w, cookies[|cs| - 1], metadata, list))
  }

  /** Pack the cookies of checkpoints. */
  method PackAll(unit: nat, ghost pages: Store, ghost crc: bytes -> Sum, infos: seq<Info>) returns (cookies: seq<bytes>)
    requires 0 < unit && AllSummed(pages, crc, infos)
    ensures |cookies| == |infos| && CookiesOf(unit, pages, crc, cookies, Ckpts(infos))
    ensures forall i | 0 <= i < |infos| && Encodable(infos[i].Place()) ::
              cookies[i] == CookieBytes(unit, CookieOf(infos[i].Place(), infos[i].sums))
  {
    hide CookieBytes, Encodable, Bytes, SumsOf;
    cookies := [];
    for i := 0 to |infos|
      invariant |cookies| == i
      invariant forall j | 0 <= j < i && Encodable(infos[j].Place()) ::
                  && CookieFor(unit, pages, crc, cookies[j], infos[j].Place())
                  && cookies[j] == CookieBytes(unit, CookieOf(infos[j].Place(), infos[j].sums))
    {
      assert Summed(pages, crc, infos[i]);
      var cookie := PackWhere(unit, infos[i].Place(), infos[i].sums, false);
      cookies := cookies + [cookie];
    }
    assert forall i | 0 <= i < |infos| :: WhereOf(Ckpts(infos)[i]) == infos[i].Place();
  }

  lemma NowFound(pages: Store, unit: nat, gen: nat, crc: bytes -> Sum, infos: seq<Info>, cookies: seq<bytes>,
                 metadata: bytes, list: bytes)
    requires 0 < unit && infos != [] && |cookies| == |infos|
    requires forall i | 0 <= i < |infos| && Encodable(infos[i].Place()) ::
               cookies[i] == CookieBytes(unit, CookieOf(infos[i].Place(), infos[i].sums))
    requires Recovers(pages, unit, gen, crc, infos[|infos| - 1], metadata, list)
    ensures Found(pages, unit, gen, crc, Ckpts(infos), cookies, metadata, list)
  {
    hide CookieBytes, Recoverable, Encodable, Bytes;
  }

  /** From the handle's pages to the cookie: after a checkpoint has been written, and whatever became of
      what was returned, scanning the file and repairing what is found gives the last of the cookies. */
  lemma ScanGivesLast(pages: Store, s: State, gen: nat, crc: bytes -> Sum, cookies: seq<bytes>, file: nat -> Scan.Page,
                      fileSize: nat, metadata: bytes, list: bytes)
    requires Inv(s) && Formatted(s) && Paged(pages, s.unit, s.cur) && s.unit % MIN_UNIT == 0
    requires Found(pages, s.unit, gen, crc, s.cur, cookies, metadata, list) && Shows(file, fileSize, s.unit, pages, crc)
    requires var c := s.cur[|s.cur| - 1];
             && c.fileSize < OFF_LIMIT && Encodable(WhereOf(c))
             && c.availAt.off < fileSize && file(c.availAt.off).manager
             && Scan.Sound(file(c.availAt.off), c.availAt.off, fileSize, s.unit)
             && NothingAcross(file, fileSize, s.unit, c.availAt.off)
    ensures var v := Scan.Scanned(file, 0, fileSize, s.unit, Scan.START);
            var avail := Addr(0, v.best.offset, v.best.size, v.best.checksum);
            && v.found && avail.Valid() && v.best.info.fileSize < TWO64
            && Repaired(s.unit, v.best.info.cookie, avail, v.best.info.fileSize) == Some(cookies[|cookies| - 1])
            && v.best.info.metadata == metadata && v.best.info.list == list
  {
    hide Inv, Inside, Aligned, SpaceAligned, Recoverable, Shows, NothingAcross, Encodable, Repaired, Acceptable, ListAt;
    hide Scan.Scanned, Scan.Sound, PageOf, Whole;
    var c := s.cur[|s.cur| - 1];
    assert EntryAligned(s.unit, c) && PagedEntry(pages, s.unit, c);
    RecoversLast(file, fileSize, s.unit, pages, crc, gen, WhereOf(c), cookies[|cookies| - 1], metadata, list);
  }

  lemma DeletedBelow(cs: seq<Ckpt>, c: Ckpt, del: seq<bool>)
    requires |del| == |cs| && AllBelow(cs)
    ensures var r := Roll(cs + [c], del + [false]).cs; AllBelow(r[..|r| - 1])
  {
    assert (cs + [c])[..|cs|] == cs;
    RollBelow(cs + [c], del + [false]);
  }

  /** The checkpoint as its parts make it. */
  lemma CheckpointIs(s: State, order: nat, del: seq<bool>, plan0: Plan, plan: Plan, kept: seq<Ckpt>, live: Ckpt,
                     sp: Space, freed: set<int>, rolling: int, c: Ckpt, s': State)
    requires Prepared(s, order, del, plan0, kept, live, sp, freed)
    requires plan == plan0.(alloc := plan.alloc, discard := plan.discard, avail := plan.avail, rootSum := plan.rootSum)
    requires Placed(sp, live, plan)
    requires rolling == Min(NewSize(s, plan.root) - plan.root.size, sp.size)
    requires Finished(live, plan, freed, sp, rolling) == (c, SpaceOf(s'))
    requires s' == State(s.unit, s'.size, s'.avail, {}, {}, freed, rolling, PanicOnFailure, kept + [c], s.durable)
    ensures Outcome(s, order, del, plan, s')
  {
    hide Roll, CanTake, Take, Trim, CanRewrite, Rewrite, Finished, FirstFits, FirstLists;
    assert PlanStarts(s, order, del, plan) && Updated(s, order, del, plan) == Updated(s, order, del, plan0);
    assert (kept + [live])[..|kept|] == kept;
  }

  /** What writing the new checkpoint's lists and starting the live system's anew comes to. */
  lemma ClosedIs(pages: Store, s: State, order: nat, del: seq<bool>, plan0: Plan, plan: Plan, kept: seq<Info>,
                 live: Ckpt, sp: Space, info: Info, created: bool, s': State)
    requires 0 < s.unit && WholePlan(s.unit, plan0)
    requires Safe(pages, s.unit, SpaceOf(s'), Ckpts(kept)) && Safe(pages, s.unit, SpaceOf(s'), s.cur)
    requires SafeEntry(pages, s.unit, SpaceOf(s'), info.Abs())
    requires Prepared(s, order, del, plan0, Ckpts(kept), live, sp, s'.ckptAvail)
    requires plan == plan0.(alloc := plan.alloc, discard := plan.discard, avail := plan.avail, rootSum := plan.rootSum)
    requires Whole(s.unit, plan.alloc) && Whole(s.unit, plan.discard) && Whole(s.unit, plan.avail)
    requires Placed(sp, live, plan) && s'.ckptSize == Min(NewSize(s, plan.root) - plan.root.size, sp.size)
    requires Finished(live, plan, s'.ckptAvail, sp, s'.ckptSize) == (info.Abs(), SpaceOf(s'))
    requires s' == State(s.unit, s'.size, s'.avail, {}, {}, s'.ckptAvail, s'.ckptSize, PanicOnFailure,
                         Ckpts(kept + [info]), s.durable)
    ensures Paged(pages, s.unit, s'.cur) && Paged(pages, s.unit, s.cur) && WholePlan(s.unit, plan)
    ensures PlanStarts(s, order, del, plan0) && Outcome(s, order, del, plan, s')
    ensures Recorded(s, order, del, plan, created)
         == Begun(s, order, del, plan0, created) + (Span(plan.alloc) + Span(plan.discard) + Span(plan.avail))
  {
    PreparedStarts(s, order, del, plan0, Ckpts(kept), live, sp, s'.ckptAvail);
    OneMoreInfo(kept, info);
    hide Safe, SafeEntry, Paged, Ckpts, Prepared, Placed, Finished, NewSize, Whole, Span, Bytes, Recorded, Begun;
    SafePaged(pages, s.unit, SpaceOf(s'), s.cur);
    SafePagedNext(pages, s.unit, SpaceOf(s'), Ckpts(kept), info.Abs());
    CheckpointIs(s, order, del, plan0, plan, Ckpts(kept), live, sp, s'.ckptAvail, s'.ckptSize, info.Abs(), s');
    RecordedIs(s, order, del, plan0, plan, created, s');
    WholeAgain(s.unit, plan0, plan);
  }

  lemma WholeAgain(unit: nat, plan0: Plan, plan: Plan)
    requires 0 < unit && WholePlan(unit, plan0)
    requires plan == plan0.(alloc := plan.alloc, discard := plan.discard, avail := plan.avail, rootSum := plan.rootSum)
    requires Whole(unit, plan.alloc) && Whole(unit, plan.discard) && Whole(unit, plan.avail)
    ensures WholePlan(unit, plan)
  {
  }

  /** What a checkpoint records for a backup, the description of a file that was created while the
      backup was running included. */
  ghost function Recorded(s: State, order: nat, del: seq<bool>, plan: Plan, created: bool): set<int>
    requires PlanOk(s, order, del, plan)
  {
    IncrementalBackup.Records(s, order, del, plan) + if created then Range(0, s.unit) else {}
  }

  /** What it has recorded before it writes its own lists. */
  ghost function Begun(s: State, order: nat, del: seq<bool>, plan: Plan, created: bool): set<int>
    requires PlanStarts(s, order, del, plan)
  {
    WithRoot(s, plan.root).alloc + (if created then Range(0, s.unit) else {})
    + IncrementalBackup.RewriteRecords(Deleted(s, order, del, plan).cs, |plan.lists|, plan.lists)
  }

  lemma RecordedIs(s: State, order: nat, del: seq<bool>, plan0: Plan, plan: Plan, created: bool, s': State)
    requires PlanStarts(s, order, del, plan0) && Outcome(s, order, del, plan, s')
    requires plan == plan0.(alloc := plan.alloc, discard := plan.discard, avail := plan.avail, rootSum := plan.rootSum)
    ensures Recorded(s, order, del, plan, created)
         == Begun(s, order, del, plan0, created) + (Span(plan.alloc) + Span(plan.discard) + Span(plan.avail))
  {
    hide CanRewrite, Rewrite, CanTake, Take, Trim, Span, Range, Roll, IncrementalBackup.RewriteRecords;
    assert Deleted(s, order, del, plan) == Deleted(s, order, del, plan0);
  }

  lemma RecordsAppend(cs: seq<Ckpt>, live: Ckpt, lists: seq<(Extent, Extent)>)
    requires |cs| == |lists| && !live.update
    ensures IncrementalBackup.RewriteRecords(cs + [live], |cs| + 1, lists + [(NOWHERE, NOWHERE)])
         == IncrementalBackup.RewriteRecords(cs, |cs|, lists)
  {
    RecordsBefore(cs, live, |cs|, lists, (NOWHERE, NOWHERE));
  }

  lemma {:induction false} RecordsBefore(cs: seq<Ckpt>, live: Ckpt, k: nat, lists: seq<(Extent, Extent)>,
                                         at: (Extent, Extent))
    requires k <= |cs| == |lists|
    ensures IncrementalBackup.RewriteRecords(cs + [live], k, lists + [at])
         == IncrementalBackup.RewriteRecords(cs, k, lists)
  {
    hide Span;
    if k > 0 {
      RecordsBefore(cs, live, k - 1, lists, at);
    }
  }

  lemma RefusedFormatted(s: State, root: Extent)
    requires Formatted(s) && Whole(s.unit, root)
    ensures Formatted(Refused(s, root))
  {
    hide SpaceAligned, Aligned, WellFormed, Take, Span;
    if root.size > 0 {
      AllocFormatted(s, root);
    }
  }

  lemma FreedAligned(s: State, order: nat, del: seq<bool>, plan: Plan)
    requires Formatted(s) && Whole(s.unit, plan.root) && PlanStarts(s, order, del, plan)
    requires WholeLists(s.unit, plan.lists) && plan == Plan(plan.root, plan.lists, NOWHERE, NOWHERE, NOWHERE, 0)
    ensures WholePlan(s.unit, plan) && Aligned(s.unit, Deleted(s, order, del, plan).freed)
  {
    hide Aligned, Roll, Rewrite, CanRewrite, SpaceAligned, WellFormed;
    UpdatedFormatted(s, order, del, plan);
  }

  /** The live system's entry lies inside the file and clear of what is available. */
  lemma LiveInside(unit: nat, cs: seq<Ckpt>, live: Ckpt, sp: Space, freed: set<int>)
    requires Conserved(unit, cs + [live], sp, freed, {})
    ensures live.alloc <= Range(unit, sp.size) && live.alloc !! sp.avail && sp.avail <= Range(unit, sp.size)
    ensures freed <= Range(unit, sp.size) && freed !! sp.avail
  {
    OneMore(cs, live);
    hide Allocs, Exts, Range;
  }

  /** What the live system discards was allocated by a checkpoint. */
  lemma LiveDiscard(unit: nat, cs: seq<Ckpt>, live: Ckpt, sp: Space, freed: set<int>)
    requires Conserved(unit, cs + [live], sp, freed, {}) && Chain({}, {}, cs + [live]) && Apart(cs + [live])
    ensures live.discard <= Range(unit, sp.size)
  {
    hide Chain, Exts, Range, Spaced, Apart;
    OneMore(cs, live);
    ListsApart(cs + [live], |cs|);
    assert (cs + [live])[..|cs|] == cs;
  }

  lemma InsideLists(alloc: ExtentList, avail: ExtentList, ckptAvail: ExtentList, unit: nat, size: nat)
    requires alloc.Set() <= Range(unit, size) && avail.Set() <= Range(unit, size)
    requires ckptAvail.Set() <= Range(unit, size)
    ensures Below(alloc.exts, size) && Below(avail.exts, size) && Below(ckptAvail.exts, size)
  {
  }

  lemma SpaceBounded(avail: ExtentList, size: nat)
    requires Below(avail.exts, size)
    ensures Bounded(Space(avail.Set(), size))
  {
  }

  lemma FirstNone(cs: seq<Ckpt>, lists: seq<(Extent, Extent)>, sp: Space)
    ensures FirstLists(cs, 0, lists, sp)
  {
  }

  lemma {:induction false} FirstPrefix(cs: seq<Ckpt>, k: nat, lists: seq<(Extent, Extent)>, at: (Extent, Extent),
                                       sp: Space)
    requires k <= |cs| && k <= |lists|
    ensures FirstLists(cs, k, lists + [at], sp) <==> FirstLists(cs, k, lists, sp)
  {
    hide FirstFits, Take, Rewrite;
    if k > 0 {
      FirstPrefix(cs, k - 1, lists, at, sp);
      RewritePrefix(cs, k - 1, lists, at, sp);
    }
  }

  lemma FirstOne(cs: seq<Ckpt>, k: nat, lists: seq<(Extent, Extent)>, at: (Extent, Extent), sp: Space)
    requires k < |cs| && |lists| == k && FirstLists(cs, k, lists, sp)
    requires var sp1 := Rewrite(cs, k, lists, sp).1;
             cs[k].update ==> FirstFits(sp1, at.0) && FirstFits(Take(sp1, at.0), at.1)
    ensures FirstLists(cs, k + 1, lists + [at], sp)
  {
    hide FirstFits, Take, Rewrite;
    FirstPrefix(cs, k, lists, at, sp);
    RewritePrefix(cs, k, lists, at, sp);
    assert (lists + [at])[k] == at;
  }

  lemma {:induction false} FirstBefore(cs: seq<Ckpt>, live: Ckpt, k: nat, lists: seq<(Extent, Extent)>,
                                       at: (Extent, Extent), sp: Space)
    requires k <= |cs| == |lists|
    ensures FirstLists(cs + [live], k, lists + [at], sp) <==> FirstLists(cs, k, lists, sp)
  {
    hide FirstFits, Take, Rewrite;
    if k > 0 {
      FirstBefore(cs, live, k - 1, lists, at, sp);
      RewriteBefore(cs, live, k - 1, lists, at, sp);
    }
  }

  lemma FirstAppend(cs: seq<Ckpt>, live: Ckpt, lists: seq<(Extent, Extent)>, sp: Space)
    requires |cs| == |lists| && !live.update && FirstLists(cs, |cs|, lists, sp)
    ensures FirstLists(cs + [live], |cs| + 1, lists + [(NOWHERE, NOWHERE)], sp)
  {
    hide FirstFits, Take, Rewrite;
    FirstBefore(cs, live, |cs|, lists, (NOWHERE, NOWHERE), sp);
  }

  lemma NoRecords(cs: seq<Ckpt>, lists: seq<(Extent, Extent)>, bytes: set<int>)
    ensures bytes + IncrementalBackup.RewriteRecords(cs, 0, lists) == bytes
  {
  }

  lemma RecordsOne(cs: seq<Ckpt>, k: nat, lists: seq<(Extent, Extent)>, at: (Extent, Extent), bytes: set<int>)
    requires k < |cs| && |lists| == k
    ensures bytes + IncrementalBackup.RewriteRecords(cs, k + 1, lists + [at])
         == (if cs[k].update
             then bytes + IncrementalBackup.RewriteRecords(cs, k, lists)
                  + (Span(at.0) + Span(at.1) + Span(cs[k].availAt))
             else bytes + IncrementalBackup.RewriteRecords(cs, k, lists))
  {
    hide Span;
    RecordsPrefix(cs, k, lists, at);
  }

  lemma {:induction false} RecordsPrefix(cs: seq<Ckpt>, k: nat, lists: seq<(Extent, Extent)>, at: (Extent, Extent))
    requires k <= |cs| && k <= |lists|
    ensures IncrementalBackup.RewriteRecords(cs, k, lists + [at]) == IncrementalBackup.RewriteRecords(cs, k, lists)
  {
    hide Span;
    if k > 0 {
      RecordsPrefix(cs, k - 1, lists, at);
    }
  }

  /** The checksums of the pages of a new checkpoint. */
  lemma ThreeSums(pages: Store, crc: bytes -> Sum, sp: Space, a: Extent, pa: bytes, d: Extent, pd: bytes, v: Extent,
                  pv: bytes, info: Info)
    requires Bounded(sp) && CanTake(sp, a) && CanTake(Take(sp, a), d) && CanTake(Take(Take(sp, a), d), v)
    requires info.allocAt == a && info.discardAt == d && info.availAt == v
    requires (a.size > 0 ==> info.sums.alloc == crc(pa)) && (d.size > 0 ==> info.sums.discard == crc(pd))
    requires info.sums.avail == crc(pv)
    requires info.root.size == 0 ==> info.sums.root == 0
    ensures Summed(Stored(Stored(Stored(pages, a, pa), d, pd), v, pv), crc, info)
  {
    hide CanTake, Take, Taken, Bounded, Bytes;
    TwoPages(pages, sp, a, pa, d, pd);
    TakenStays(Take(Take(sp, a), d), v, a);
    TakenStays(Take(Take(sp, a), d), v, d);
  }

  lemma TwoSame(pages: Store, unit: nat, sp: Space, a: Extent, pa: bytes, d: Extent, pd: bytes, cs: seq<Ckpt>)
    requires 0 < unit && Safe(pages, unit, sp, cs) && CanTake(sp, a) && CanTake(Take(sp, a), d)
    ensures SameForAll(pages, Stored(Stored(pages, a, pa), d, pd), cs)
  {
    hide Safe, CanTake, Take, Stored, SameForAll;
    SafeStays(pages, unit, sp, a, pa, cs);
    SameStays(pages, unit, sp, a, pa, cs);
    SameStays(Stored(pages, a, pa), unit, Take(sp, a), d, pd, cs);
    SameTwice(pages, Stored(pages, a, pa), Stored(Stored(pages, a, pa), d, pd), cs);
  }

  lemma ThreeStay(pages: Store, unit: nat, sp: Space, a: Extent, pa: bytes, d: Extent, pd: bytes, v: Extent, pv: bytes,
                  cs: seq<Ckpt>)
    requires 0 < unit && Safe(pages, unit, sp, cs)
    requires CanTake(sp, a) && CanTake(Take(sp, a), d) && CanTake(Take(Take(sp, a), d), v)
    ensures Safe(Stored(Stored(Stored(pages, a, pa), d, pd), v, pv), unit, Take(Take(Take(sp, a), d), v), cs)
    ensures SameForAll(pages, Stored(Stored(Stored(pages, a, pa), d, pd), v, pv), cs)
  {
    hide Safe, CanTake, Take, Stored, SameForAll;
    SafeStays(pages, unit, sp, a, pa, cs);
    SafeStays(Stored(pages, a, pa), unit, Take(sp, a), d, pd, cs);
    SafeStays(Stored(Stored(pages, a, pa), d, pd), unit, Take(Take(sp, a), d), v, pv, cs);
    TwoSame(pages, unit, sp, a, pa, d, pd, cs);
    SameStays(Stored(Stored(pages, a, pa), d, pd), unit, Take(Take(sp, a), d), v, pv, cs);
    SameTwice(pages, Stored(Stored(pages, a, pa), d, pd), Stored(Stored(Stored(pages, a, pa), d, pd), v, pv), cs);
  }

  lemma FinishSafe(pages: Store, unit: nat, sp: Space, a: Extent, pa: bytes, d: Extent, pd: bytes, v: Extent,
                   pv: bytes, al: ExtentList, dl: ExtentList, vl: ExtentList, fl: ExtentList, c: Ckpt)
    requires 0 < unit && Bounded(sp) && CanTake(sp, a) && CanTake(Take(sp, a), d)
    requires SpaceAligned(unit, Take(Take(sp, a), d))
    requires CanTake(Take(Take(sp, a), d), v) && v.size > 0 && vl.Set() == Take(Take(sp, a), d).avail
    requires al.Valid() && dl.Valid() && vl.Valid() && fl.Valid() && sp.avail !! fl.Set()
    requires (a.size == 0 <==> al.Set() == {}) && (d.size == 0 <==> dl.Set() == {})
    requires PageHolds(pa, al.exts) && PageHolds(pd, dl.exts) && PageHolds(pv, vl.exts + fl.exts)
    requires Aligned(unit, fl.Set())
    requires c.allocAt == a && c.discardAt == d && c.availAt == v && c.alloc == al.Set() && c.discard == dl.Set()
    requires c.avail == Bytes(vl.exts + fl.exts) && c.fileSize == Take(Take(Take(sp, a), d), v).size
    requires al.Set() <= Range(unit, sp.size) && dl.Set() <= Range(unit, sp.size)
    requires sp.avail <= Range(unit, sp.size) && fl.Set() <= Range(unit, sp.size)
    ensures SafeEntry(Stored(Stored(Stored(pages, a, pa), d, pd), v, pv), unit, Take(Take(Take(sp, a), d), v), c)
  {
    var sp1, sp2 := Take(sp, a), Take(Take(sp, a), d);
    TakeShrinks(sp, a);
    TakeShrinks(sp1, d);
    TakeShrinks(sp2, v);
    RangeGrows(unit, sp.size, sp2.size);
    RangeGrows(unit, sp.size, c.fileSize);
    hide CanTake, Take, Bytes, Canonical, Range, PageHolds, Bounded, Aligned, SafeEntry, Stored;
    NewCkptSafe(pages, unit, sp, a, pa, d, pd, v, pv, al, dl, vl, fl, c);
  }

  lemma WithinFinal(unit: nat, sp: Space, a: Extent, d: Extent, v: Extent)
    ensures var sp2 := Take(Take(sp, a), d);
            && Range(unit, sp.size) <= Range(unit, Take(sp2, v).size) && sp2.size <= Take(sp2, v).size
            && sp2.avail <= sp.avail
  {
    TakeShrinks(sp, a);
    TakeShrinks(Take(sp, a), d);
    TakeShrinks(Take(Take(sp, a), d), v);
  }

  lemma RangeGrows(unit: nat, n: nat, m: nat)
    requires n <= m
    ensures Range(unit, n) <= Range(unit, m)
  {
  }

  lemma NoFit(sp: Space)
    ensures FirstFits(sp, NOWHERE)
  {
  }

  lemma NoBlock(sp: Space)
    ensures CanTake(sp, NOWHERE) && Take(sp, NOWHERE) == sp
  {
  }

  lemma SameSetSameList(a: ExtentList, b: ExtentList, block: set<int>)
    requires a.Valid() && b.Valid() && block !! b.Set() && a.Set() == b.Set() + block - block
    ensures a == b
  {
    hide Canonical, Bytes;
    assert b.Set() + block - block == b.Set();
    CanonicalUnique(a.exts, b.exts);
  }

  lemma SizesPositive(el: ExtentList)
    requires el.Valid()
    ensures forall i | 0 <= i < |el.exts| :: 0 < el.exts[i].size
  {
  }

  lemma EmptyIs(el: ExtentList)
    requires el.Valid()
    ensures el.exts == [] <==> el.Set() == {}
  {
    NonEmpty(el.exts);
  }

  lemma {:induction false} RewriteBefore(cs: seq<Ckpt>, live: Ckpt, k: nat, lists: seq<(Extent, Extent)>,
                                         at: (Extent, Extent), sp: Space)
    requires k <= |cs| == |lists|
    ensures var (ds, sp1) := Rewrite(cs, k, lists, sp);
            Rewrite(cs + [live], k, lists + [at], sp) == (ds + [live], sp1)
    ensures CanRewrite(cs + [live], k, lists + [at], sp) <==> CanRewrite(cs, k, lists, sp)
  {
    hide Take, CanTake;
    if k > 0 {
      RewriteBefore(cs, live, k - 1, lists, at, sp);
      var (ds, sp1) := Rewrite(cs, k - 1, lists, sp);
      if cs[k - 1].update {
        var c := Rewrote(cs[k - 1], lists[k - 1]);
        assert (ds + [live])[k - 1 := c] == ds[k - 1 := c] + [live];
      }
    }
  }

  /** The live system's entry, not marked for update, is left alone. */
  lemma RewriteAppend(cs: seq<Ckpt>, live: Ckpt, lists: seq<(Extent, Extent)>, sp: Space)
    requires |cs| == |lists| && !live.update
    ensures var (ds, sp1) := Rewrite(cs, |cs|, lists, sp);
            Rewrite(cs + [live], |cs| + 1, lists + [(NOWHERE, NOWHERE)], sp) == (ds + [live], sp1)
    ensures CanRewrite(cs + [live], |cs| + 1, lists + [(NOWHERE, NOWHERE)], sp) <==> CanRewrite(cs, |cs|, lists, sp)
  {
    RewriteBefore(cs, live, |cs|, lists, (NOWHERE, NOWHERE), sp);
  }

  lemma {:induction false} TrimRange(avail: set<int>, lo: nat, size: nat)
    requires lo <= size && Range(lo, size) <= avail && lo - 1 !in avail
    ensures Trim(Space(avail, size)) == Space(avail - Range(lo, size), lo)
    decreases size
  {
    if lo == size {
      assert Range(lo, size) == {};
      assert avail - {} == avail;
    } else {
      assert size - 1 in Range(lo, size);
      assert Range(lo, size) == Range(lo, size - 1) + {size - 1};
      TrimRange(avail - {size - 1}, lo, size - 1);
      assert avail - {size - 1} - Range(lo, size - 1) == avail - Range(lo, size);
    }
  }

  ghost predicate SetBelow(s: set<int>, hi: int) {
    forall x | x in s :: x < hi
  }

  /** The last extent decides whether the file can be cut, and where. */
  lemma LastExtent(el: ExtentList, size: nat)
    requires el.Valid() && Below(el.exts, size)
    ensures var n := |el.exts|;
            && (n > 0 ==> el.exts[n - 1].End() <= size && el.exts[n - 1].size > 0 && Span(el.exts[n - 1]) <= el.Set())
            && (n == 0 || el.exts[n - 1].End() < size ==> Trim(Space(el.Set(), size)) == Space(el.Set(), size))
            && (n > 0 && el.exts[n - 1].End() == size ==>
                  && Trim(Space(el.Set(), size)) == Space(el.Set() - Span(el.exts[n - 1]), el.exts[n - 1].off)
                  && SetBelow(el.Set() - Span(el.exts[n - 1]), el.exts[n - 1].off))
  {
    var s := el.exts;
    var n := |s|;
    if n > 0 {
      var e := s[n - 1];
      SpanIn(s, n - 1);
      assert e.End() - 1 in Span(e);
      assert e.off - 1 !in Bytes(s);
      assert size > 0 && e.End() < size ==> size - 1 !in Bytes(s);
      if e.End() == size {
        TrimRange(el.Set(), e.off, size);
      }
    }
  }

  lemma LastCut(a: ExtentList, b: ExtentList, e: Extent)
    requires a.Set() == b.Set() - Span(e) && SetBelow(b.Set() - Span(e), e.off)
    ensures Below(a.exts, e.off)
  {
  }

  lemma RootSpan(at: Extent)
    ensures Span(at) == Range(at.off, at.off + at.size)
  {
  }

  lemma PanicKeeps(s: State)
    requires Inv(s) && Formatted(s)
    ensures Inv(s.(phase := Panicked)) && Formatted(s.(phase := Panicked))
  {
  }

  lemma ReadyToResolve(s: State, failed: bool)
    requires Enabled(s, DoResolve(failed))
    ensures s.phase == PanicOnFailure && !failed ==> s.durable == s.cur
  {
  }

  lemma NothingPending(s: State)
    requires Inv(s) && s.phase == InProgress
    ensures s.durable == s.cur
  {
  }

  lemma InsideFile(s: State)
    requires Inv(s)
    ensures s.avail <= Range(s.unit, s.size) && s.alloc <= Range(s.unit, s.size)
    ensures s.avail !! s.ckptAvail && s.avail + s.ckptAvail !! s.alloc
  {
  }

  /** The first extent with room for a block is the first place with room for it. */
  lemma FirstFitIs(s: seq<Extent>, size: nat, at: Extent)
    requires Canonical(s) && at.size > 0 && forall e | e in s && e.size >= at.size :: at.off <= e.off
    ensures FirstFits(Space(Bytes(s), size), at)
  {
    hide Bytes, Span;
    forall x: nat | x < at.off ensures !(Span(Extent(x, at.size)) <= Bytes(s)) {
      if Span(Extent(x, at.size)) <= Bytes(s) {
        var k := RangeInOneExtent(s, Extent(x, at.size));
      }
    }
  }

  lemma SmallTotal(el: ExtentList, n: nat)
    requires el.Valid()
    ensures el.bytes < n ==> forall i | 0 <= i < |el.exts| :: el.exts[i].size < n
  {
    forall i | 0 <= i < |el.exts| ensures el.exts[i].size <= el.bytes {
      var e := el.exts[i];
      SpanIn(el.exts, i);
      RangeSize(e.off, e.End());
      SubsetSize(Span(e), el.Set());
    }
  }

  lemma Past(s: seq<Extent>, size: nat, n: nat)
    requires Below(s, size)
    ensures Range(size, size + n) !! Bytes(s)
  {
  }

  /** A list inside the file stays inside it when the file, and perhaps the list, grow. */
  lemma BelowAdd(s: seq<Extent>, t: seq<Extent>, size: nat, off: nat, n: nat, size': nat)
    requires Below(t, size) && Bytes(s) <= Bytes(t) + Range(off, off + n)
    requires size <= size' && off + n <= size'
    ensures Below(s, size')
  {
  }

  lemma BelowSub(s: seq<Extent>, t: seq<Extent>, size: nat)
    requires Below(t, size) && Bytes(s) <= Bytes(t)
    ensures Below(s, size)
  {
  }

  /** The front of an extent of a list inside the file. */
  lemma FrontOf(s: seq<Extent>, size: nat, k: nat, n: nat)
    requires Canonical(s) && Below(s, size) && k < |s| && 0 < n <= s[k].size
    ensures Range(s[k].off, s[k].off + n) <= Bytes(s)
    ensures s[k].off + n <= size
    ensures forall i | k <= i < |s| :: s[k].off <= s[i].off
  {
    SpanIn(s, k);
    assert s[k].off + n - 1 in Span(s[k]);
  }
}
