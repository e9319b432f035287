/** Compaction: whether to compact a file, which pages to rewrite, and rewriting one. */
module Compaction {
  import opened Arithmetic
  import opened Extents
  import ExtentOps
  import opened Checkpoints
  import opened Protocol
  import opened Safety
  import opened BlockManager
  import Format
  import Pages
  import opened IntPack
  import Cookies

  const MEGABYTE := 1048576

  /** Where the part of the file starts that compaction empties. */
  function Limit(size: nat, tenths: nat): nat
    requires tenths <= 10
  {
    size - size / 10 * tenths
  }

  // ---- Bytes available before an offset ----

  /** The extents that start before an offset: in a sorted list, the first ones. */
  ghost function Starting(s: seq<Extent>, limit: nat): seq<Extent>
    ensures Starting(s, limit) <= s
  {
    if s == [] || s[0].off >= limit then [] else
    assert [s[0]] + s[1..] == s;
    [s[0]] + Starting(s[1..], limit)
  }

  ghost function AvailBefore(s: seq<Extent>, limit: nat): nat {
    |Bytes(Starting(s, limit))|
  }

  /** They are exactly the extents that start there. */
  lemma {:induction false} StartingIs(s: seq<Extent>, limit: nat)
    requires Canonical(s)
    ensures forall i | 0 <= i < |s| :: s[i].off < limit <==> i < |Starting(s, limit)|
  {
    if s != [] && s[0].off < limit {
      StartingIs(s[1..], limit);
      forall i | 0 < i < |s| ensures s[i].off < limit <==> i < |Starting(s, limit)| {
        assert s[1..][i - 1] == s[i];
      }
    }
  }

  lemma NoneBefore(s: seq<Extent>, limit: nat)
    ensures AvailBefore(s[..0], limit) == 0
  {
  }

  /** Adding an extent at the end of the sum, for a loop along the list. */
  lemma {:induction false} StartingNext(s: seq<Extent>, k: nat, limit: nat)
    requires Canonical(s) && k < |s|
    ensures AvailBefore(s[..k + 1], limit) == AvailBefore(s[..k], limit) + if s[k].off < limit then s[k].size else 0
  {
    var t := s[..k];
    assert s[..k + 1] == t + [s[k]];
    assert Canonical(t + [s[k]]);
    ExtentOps.BytesStep(s, k);
    if s[k].off < limit {
      AllStart(t, limit);
    }
    hide Canonical, Bytes, Starting, Range;
    StartingConcat(t, s[k], limit);
    if s[k].off < limit {
      RangeSize(s[k].off, s[k].End());
      SizeAdd(Bytes(t), Span(s[k]));
    }
  }

  lemma CanonicalTail(t: seq<Extent>, e: Extent)
    requires Canonical(t + [e])
    ensures t != [] ==> t[0].off < e.off && Canonical(t[1..] + [e])
  {
    if t != [] {
      var s := t + [e];
      assert s[0] == t[0] && s[|t|] == e && s[1..] == t[1..] + [e];
    }
  }

  lemma {:induction false} StartingConcat(t: seq<Extent>, e: Extent, limit: nat)
    requires Canonical(t + [e])
    ensures Starting(t + [e], limit) == if e.off < limit then t + [e] else Starting(t, limit)
  {
    hide Canonical;
    CanonicalTail(t, e);
    if t == [] {
      assert t + [e] == [e];
      assert [e][1..] == [];
    } else {
      assert (t + [e])[1..] == t[1..] + [e];
      StartingConcat(t[1..], e, limit);
    }
  }

  lemma {:induction false} AllStart(t: seq<Extent>, limit: nat)
    requires forall i | 0 <= i < |t| :: t[i].off < limit
    ensures Starting(t, limit) == t
  {
    if t != [] {
      AllStart(t[1..], limit);
    }
  }

  /** A page lies in the part to be emptied, and an available extent before it has room for it. */
  ghost predicate Movable(avail: seq<Extent>, limit: nat, at: Extent) {
    at.off > limit && exists i :: 0 <= i < |avail| && avail[i].off < limit && avail[i].size >= at.size
  }

  function Content(disk: int -> byte, at: Extent): bytes {
    seq(at.size, i requires 0 <= i < at.size => disk(at.off + i))
  }

  /** The file with one block's contents written to another. */
  function Relocating(disk: int -> byte, at: Extent, to: Extent): int -> byte {
    (x: int) => if to.off <= x < to.End() then disk(at.off + (x - to.off)) else disk(x)
  }

  lemma RelocatingIs(disk: int -> byte, at: Extent, to: Extent)
    requires to.size == at.size
    ensures Content(Relocating(disk, at, to), to) == Content(disk, at)
    ensures forall x | x !in Span(to) :: Relocating(disk, at, to)(x) == disk(x)
  {
    var a, b := Content(Relocating(disk, at, to), to), Content(disk, at);
    forall i | 0 <= i < at.size ensures a[i] == b[i] {
      var x := to.off + i;
      assert at.off + (x - to.off) == at.off + i && to.off <= x < to.End();
      assert a[i] == Relocating(disk, at, to)(x) == disk(at.off + (x - to.off));
    }
  }

  lemma Room(avail: seq<Extent>, limit: nat, at: Extent) returns (e: Extent)
    requires Movable(avail, limit, at)
    ensures e in avail && e.off < limit < at.off && e.size >= at.size
  {
    var i :| 0 <= i < |avail| && avail[i].off < limit && avail[i].size >= at.size;
    e := avail[i];
  }

  lemma HasBlock(s: State, at: Extent)
    requires Inv(s) && Freeable(s, at)
    ensures at.size > 0 && s.unit > 0
  {
  }

  /** Allocating another block leaves a block freeable, and the file as large as it is unless the
      block extends it. */
  lemma StillFreeable(s: State, to: Extent, at: Extent)
    requires Inv(s) && Enabled(s, DoAlloc(to)) && Freeable(s, at)
    ensures Freeable(Alloc(s, to), at)
    ensures to.off != s.size ==> Alloc(s, to).size == s.size
    ensures Free(Alloc(s, to), at).size == Alloc(s, to).size
  {
  }

  /** A block before the part to be emptied, of the size of one in it. */
  ghost predicate Lower(unit: nat, size: nat, tenths: nat, at: Extent, to: Extent) {
    && 0 < unit && tenths <= 10 && to.off < Limit(size, tenths) < at.off
    && to.size == at.size && Format.Whole(unit, to)
  }

  /** A block has been allocated, another's contents copied to it and that one freed. */
  ghost predicate Relocated(s: State, s': State, disk: int -> byte, disk': int -> byte, at: Extent, to: Extent) {
    && Enabled(s, DoAlloc(to)) && s' == Free(Alloc(s, to), at)
    && Content(disk', to) == Content(disk, at)
    && (forall x | x !in Span(to) :: disk'(x) == disk(x))
  }

  class Compact {
    const block: Block
    var tenths: nat
    var reviewed: nat
    var skipped: nat
    var rewritten: nat

    ghost predicate Valid()
      reads this
    {
      tenths <= 2 && reviewed == skipped + rewritten
    }

    /** A page is to be moved. */
    ghost predicate Moves(at: Extent)
      requires Valid()
      reads this, block
    {
      Movable(block.avail.exts, Limit(block.size, tenths), at)
    }

    constructor (block: Block)
      ensures Valid() && this.block == block && tenths == reviewed == skipped == rewritten == 0
    {
      this.block := block;
      tenths, reviewed, skipped, rewritten := 0, 0, 0, 0;
    }

    /** Start compacting: blocks are allocated first-fit from now on. */
    method Start()
      modifies this, block`allocFirst
      ensures Valid() && block.allocFirst == old(block.allocFirst) + 1
      ensures tenths == reviewed == skipped == rewritten == 0
    {
      block.allocFirst := block.allocFirst + 1;
      tenths, reviewed, skipped, rewritten := 0, 0, 0, 0;
    }

    /** Stop compacting: first-fit allocation lasts as long as another operation wants it. */
    method Stop()
      requires block.allocFirst > 0
      modifies block`allocFirst
      ensures block.allocFirst == old(block.allocFirst) - 1
    {
      block.allocFirst := block.allocFirst - 1;
    }

    /** Whether to skip a file. If not, what is available before the part to be emptied has room for
        all of that part: the last fifth if that is so, else the last tenth. */
    method Skip() returns (skip: bool)
      requires Valid() && block.avail.Valid()
      modifies this`tenths
      ensures Valid()
      ensures var fifth := AvailBefore(block.avail.exts, block.size - block.size / 10 * 2);
              var tenth := AvailBefore(block.avail.exts, block.size - block.size / 10);
              if block.size > MEGABYTE && fifth > MEGABYTE && fifth >= block.size / 10 * 2 then !skip && tenths == 2
              else if block.size > MEGABYTE && tenth > MEGABYTE && tenth >= block.size / 10 then !skip && tenths == 1
              else skip && tenths == old(tenths)
    {
      hide Canonical, Bytes, AvailBefore;
      var size, avail := block.size, block.avail.exts;
      if size <= MEGABYTE {
        return true;
      }
      NoneBefore(avail, Limit(size, 1));
      NoneBefore(avail, Limit(size, 2));
      var eighty, ninety := 0, 0;
      for k := 0 to |avail|
        invariant tenths == old(tenths)
        invariant ninety == AvailBefore(avail[..k], Limit(size, 1)) && eighty == AvailBefore(avail[..k], Limit(size, 2))
      {
        StartingNext(avail, k, Limit(size, 1));
        StartingNext(avail, k, Limit(size, 2));
        if avail[k].off < size - size / 10 {
          ninety := ninety + avail[k].size;
          if avail[k].off < size - size / 10 * 2 {
            eighty := eighty + avail[k].size;
          }
        }
      }
      assert avail[..|avail|] == avail;
      if eighty > MEGABYTE && eighty >= size / 10 * 2 {
        tenths := 2;
        return false;
      } else if ninety > MEGABYTE && ninety >= size / 10 {
        tenths := 1;
        return false;
      }
      return true;
    }

    /** Whether to leave a page where it is. */
    method PageSkip(at: Extent) returns (skip: bool)
      requires Valid() && block.avail.Valid()
      ensures var limit := block.size - block.size / 10 * tenths;
              skip <==> at.off <= limit || forall i | 0 <= i < |block.avail.exts| && block.avail.exts[i].off < limit ::
                                             block.avail.exts[i].size < at.size
      ensures skip <==> !Moves(at)
    {
      var limit, avail := Limit(block.size, tenths), block.avail.exts;
      if at.off > limit {
        for i := 0 to |avail|
          invariant forall j | 0 <= j < i :: avail[j].off < limit && avail[j].size < at.size
        {
          if avail[i].off >= limit {
            return true;
          }
          if avail[i].size >= at.size {
            return false;
          }
        }
      }
      return true;
    }

    /** Review a page, and count it. */
    method Review(at: Extent) returns (skip: bool)
      requires Valid() && block.avail.Valid()
      modifies this`reviewed, this`skipped, this`rewritten
      ensures Valid() && reviewed == old(reviewed) + 1
      ensures skip <==> !Moves(at)
      ensures skipped == old(skipped) + if skip then 1 else 0
    {
      skip := PageSkip(at);
      reviewed := reviewed + 1;
      if skip {
        skipped := skipped + 1;
      } else {
        rewritten := rewritten + 1;
      }
    }

    /** Rewrite a page: if it is not skipped it gets a strictly smaller offset, with the same size and
        the same contents, and neither the file grows nor does anything else in it change. */
    method Rewrite(at: Extent, disk: int -> byte) returns (moved: Option<Extent>, disk': int -> byte)
      requires Valid() && block.Valid() && block.phase != Panicked && block.allocFirst > 0
      requires Freeable(block.St(), at) && Format.Whole(block.unit, at)
      modifies block`size, block`avail, block`alloc, block`discard
      ensures block.Valid() && block.size == old(block.size)
      ensures moved.None? <==> !old(Moves(at))
      ensures moved.None? ==> block.St() == old(block.St()) && block.avail == old(block.avail) && disk' == disk
      ensures moved.Some? ==>
                && Lower(block.unit, block.size, tenths, at, moved.value)
                && Relocated(old(block.St()), block.St(), disk, disk', at, moved.value)
    {
      hide Inv, Canonical, Bytes, Freeable, CanTake, Movable, Format.Formatted, Pages.Paged;
      disk' := disk;
      var skip := PageSkip(at);
      if skip {
        return None, disk';
      }
      ghost var s := block.St();
      var e := Room(block.avail.exts, Limit(block.size, tenths), at);
      HasBlock(s, at);
      var r := block.AllocBlock(at.size);
      var to := r.value;
      StillFreeable(s, to, at);
      block.FreeBlock(at);
      disk' := Relocating(disk, at, to);
      RelocatingIs(disk, at, to);
      moved := Some(to);
    }

    /** Rewrite the page an address cookie names: a rewritten page's new cookie names the new block,
        with the same size and checksum. */
    method RewritePage(cookie: bytes, ghost a: Cookies.Addr, disk: int -> byte)
      returns (skip: bool, cookie': bytes, disk': int -> byte, ghost to: Extent)
      requires Valid() && block.Valid() && block.phase != Panicked && block.allocFirst > 0
      requires Aligned(block.unit, a) && CookieOf(cookie, block.unit, a)
      requires Freeable(block.St(), Extent(a.offset, a.size))
      modifies block`size, block`avail, block`alloc, block`discard
      ensures block.Valid() && block.size == old(block.size)
      ensures skip <==> !old(Moves(Extent(a.offset, a.size)))
      ensures skip ==> block.St() == old(block.St()) && disk' == disk && cookie' == cookie
      ensures !skip ==>
                && to.off < a.offset && to.size == a.size
                && CookieOf(cookie', block.unit, a.(offset := to.off))
                && Relocated(old(block.St()), block.St(), disk, disk', Extent(a.offset, a.size), to)
    {
      hide Inv, Canonical, Bytes, Freeable, CanTake, Movable, Relocated, Cookies.AddrBytes, Cookies.AddrAt;
      hide Format.Formatted, Pages.Paged;
      CookieReads(block.unit, a, cookie);
      var u := Cookies.UnpackAddr(cookie, 0, |cookie|, block.unit);
      var at := Extent(u.value.0.offset, u.value.0.size);
      var moved;
      moved, disk' := Rewrite(at, disk);
      skip, cookie', to := moved.None?, cookie, at;
      if moved.Some? {
        to := moved.value;
        cookie' := Cookies.PackAddr([], block.unit, false, u.value.0.(offset := moved.value.off));
      }
    }

    /** Rewrite one page of a tree if it is worth it. */
    method WalkPage(pages: seq<Extent>, k: nat, disk: int -> byte)
      returns (pages': seq<Extent>, disk': int -> byte, moved: nat)
      requires Valid() && block.Valid() && block.phase != Panicked && block.allocFirst > 0
      requires Tree(block.St(), pages) && k < |pages|
      modifies block`size, block`avail, block`alloc, block`discard
      ensures block.Valid() && block.size == old(block.size) && Tree(block.St(), pages')
      ensures SamePages(disk, pages, disk', pages') && moved + Offsets(pages') <= Offsets(pages)
      ensures moved == 0 ==> pages' == pages && block.avail == old(block.avail) && !old(Moves(pages[k]))
    {
      hide Inv, Freeable, Movable, Relocated, Content, Offsets, Format.Formatted, Pages.Paged;
      pages', moved := pages, 0;
      ghost var s := block.St();
      TreeUnit(s, pages, k);
      var to;
      to, disk' := Rewrite(pages[k], disk);
      if to.Some? {
        TreeMoves(s, block.St(), disk, disk', pages, k, to.value);
        MoveLowers(pages, k, to.value);
        pages', moved := pages[k := to.value], 1;
      }
    }

    /** Walk a tree once and rewrite the pages worth it. */
    method Walk(pages: seq<Extent>, disk: int -> byte) returns (pages': seq<Extent>, disk': int -> byte, moved: nat)
      requires Valid() && block.Valid() && block.phase != Panicked && block.allocFirst > 0
      requires Tree(block.St(), pages)
      modifies block`size, block`avail, block`alloc, block`discard
      ensures block.Valid() && block.size == old(block.size) && Tree(block.St(), pages')
      ensures SamePages(disk, pages, disk', pages')
      ensures moved + Offsets(pages') <= Offsets(pages)
      ensures moved == 0 ==> pages' == pages && forall i | 0 <= i < |pages| :: !Moves(pages[i])
    {
      hide Freeable, Movable, Content, Offsets, Tree, Block.Valid, Valid;
      pages', disk', moved := pages, disk, 0;
      for k := 0 to |pages|
        invariant block.Valid() && block.size == old(block.size) && Tree(block.St(), pages')
        invariant SamePages(disk, pages, disk', pages') && moved + Offsets(pages') <= Offsets(pages)
        invariant moved == 0 ==> block.avail == old(block.avail)
        invariant moved == 0 ==> pages' == pages && forall i | 0 <= i < k :: !Moves(pages[i])
      {
        ghost var pages0, disk0 := pages', disk';
        var n;
        pages', disk', n := WalkPage(pages', k, disk');
        SameAgain(disk, pages, disk0, pages0, disk', pages');
        moved := moved + n;
      }
    }

    /** Walk a tree until nothing is worth rewriting: that happens, after no more rewrites than the sum
        of the pages' offsets; every page keeps its size and contents, and the file does not grow. */
    method CompactTree(pages: seq<Extent>, disk: int -> byte)
      returns (pages': seq<Extent>, disk': int -> byte, moved: nat)
      requires Valid() && block.Valid() && block.phase != Panicked && block.allocFirst > 0
      requires Tree(block.St(), pages)
      modifies block`size, block`avail, block`alloc, block`discard
      ensures block.Valid() && block.size == old(block.size) && Tree(block.St(), pages')
      ensures SamePages(disk, pages, disk', pages')
      ensures forall i | 0 <= i < |pages'| :: !Moves(pages'[i])
      ensures moved + Offsets(pages') <= Offsets(pages)
    {
      hide Freeable, Movable, Content, Offsets, Tree, Block.Valid, Valid;
      pages', disk', moved := pages, disk, 0;
      var more := true;
      while more
        invariant block.Valid() && block.size == old(block.size) && Tree(block.St(), pages')
        invariant SamePages(disk, pages, disk', pages') && moved + Offsets(pages') <= Offsets(pages)
        invariant !more ==> forall i | 0 <= i < |pages'| :: !Moves(pages'[i])
        decreases Offsets(pages'), more
      {
        ghost var pages0, disk0 := pages', disk';
        var n;
        pages', disk', n := Walk(pages', disk');
        SameAgain(disk, pages, disk0, pages0, disk', pages');
        moved, more := moved + n, n > 0;
      }
    }
  }

  /** The address of an aligned block, as a cookie holds it. */
  ghost predicate Aligned(unit: nat, a: Cookies.Addr) {
    0 < unit && a.Valid() && a.objectid == 0 && 0 < a.size && a.offset % unit == 0 && a.size % unit == 0
  }

  ghost predicate CookieOf(cookie: bytes, unit: nat, a: Cookies.Addr) {
    0 < unit && a.Valid() && cookie == Cookies.AddrBytes(unit, false, a)
  }

  lemma CookieReads(unit: nat, a: Cookies.Addr, cookie: bytes)
    requires Aligned(unit, a) && CookieOf(cookie, unit, a)
    ensures Cookies.AddrAt(cookie, 0, |cookie|, unit) == Some((a, |cookie|))
  {
    hide Cookies.AddrBytes, Cookies.AddrAt, Cookies.Kept, Holds;
    Cookies.HoldsSelf(cookie);
    Cookies.AddrRoundTrip(cookie, 0, unit, false, a);
    Cookies.KeptIff(unit, false, a);
  }

  // ---- Compaction ends ----

  /** The sum of the offsets of some pages. */
  ghost function Offsets(pages: seq<Extent>): nat {
    if pages == [] then 0 else pages[0].off + Offsets(pages[1..])
  }

  lemma {:induction false} MoveLowers(pages: seq<Extent>, k: nat, to: Extent)
    requires k < |pages| && to.off < pages[k].off
    ensures Offsets(pages[k := to]) < Offsets(pages)
  {
    if k > 0 {
      MoveLowers(pages[1..], k - 1, to);
      assert pages[k := to][1..] == pages[1..][k - 1 := to];
    } else {
      assert pages[k := to][1..] == pages[1..];
    }
  }

  /** The pages of a tree: blocks the live tree references, no two of which overlap. */
  ghost predicate Tree(s: State, pages: seq<Extent>) {
    && 0 < s.unit
    && (forall i | 0 <= i < |pages| :: Freeable(s, pages[i]) && Format.Whole(s.unit, pages[i]))
    && (forall i, j | 0 <= i < j < |pages| :: Span(pages[i]) !! Span(pages[j]))
  }

  /** The pages have the sizes and the contents they had. */
  ghost predicate SamePages(disk: int -> byte, pages: seq<Extent>, disk': int -> byte, pages': seq<Extent>) {
    && |pages'| == |pages|
    && forall i | 0 <= i < |pages| ::
         pages'[i].size == pages[i].size && Content(disk', pages'[i]) == Content(disk, pages[i])
  }

  lemma TreeUnit(s: State, pages: seq<Extent>, k: nat)
    requires Tree(s, pages) && k < |pages|
    ensures 0 < s.unit && Freeable(s, pages[k]) && Format.Whole(s.unit, pages[k])
  {
  }

  /** A block that can be allocated overlaps nothing the live tree references. */
  lemma Elsewhere(s: State, to: Extent, p: Extent)
    requires Inv(s) && Enabled(s, DoAlloc(to)) && Freeable(s, p)
    ensures Span(to) !! Span(p)
  {
    CurFacts(s);
    SpaceOut(s);
    SpaceBounds(s);
    hide Inv, Base, Allocs, Exts, Conserved;
  }

  lemma ContentStays(disk: int -> byte, disk': int -> byte, to: Extent, p: Extent)
    requires Span(to) !! Span(p) && forall x | x !in Span(to) :: disk'(x) == disk(x)
    ensures Content(disk', p) == Content(disk, p)
  {
    var a, b := Content(disk', p), Content(disk, p);
    forall i | 0 <= i < p.size ensures a[i] == b[i] {
      assert p.off + i in Span(p);
    }
  }

  /** The other pages of a tree stay blocks of it when one is relocated. */
  lemma OtherStays(s: State, at: Extent, to: Extent, p: Extent)
    requires Freeable(s, p) && Freeable(s, at) && Span(at) !! Span(p)
    ensures Freeable(Free(Alloc(s, to), at), p)
  {
    hide Base;
  }

  lemma MovedIsTree(s: State, at: Extent, to: Extent)
    requires Span(to) !! Span(at) && to.size > 0
    ensures Freeable(Free(Alloc(s, to), at), to)
  {
    hide Base;
  }

  lemma TreeMoves(s: State, s': State, disk: int -> byte, disk': int -> byte, pages: seq<Extent>, k: nat, to: Extent)
    requires Inv(s) && Tree(s, pages) && k < |pages| && to.size == pages[k].size && Format.Whole(s.unit, to)
    requires Relocated(s, s', disk, disk', pages[k], to)
    ensures Tree(s', pages[k := to]) && SamePages(disk, pages, disk', pages[k := to])
  {
    hide Inv, Freeable, Content, Span, Enabled, Alloc, Free;
    var pages' := pages[k := to];
    forall i | 0 <= i < |pages| ensures Span(to) !! Span(pages[i]) {
      Elsewhere(s, to, pages[i]);
    }
    forall i | 0 <= i < |pages|
      ensures Freeable(s', pages'[i]) && Format.Whole(s.unit, pages'[i])
      ensures pages'[i].size == pages[i].size && Content(disk', pages'[i]) == Content(disk, pages[i])
    {
      if i == k {
        Positive(s, pages[k]);
        MovedIsTree(s, pages[k], to);
      } else {
        assert Span(pages[k]) !! Span(pages[i]);
        OtherStays(s, pages[k], to, pages[i]);
        ContentStays(disk, disk', to, pages[i]);
      }
    }
    SameUnit(s, pages[k], to);
  }

  lemma Positive(s: State, at: Extent)
    requires Freeable(s, at)
    ensures at.size > 0
  {
  }

  lemma SameUnit(s: State, at: Extent, to: Extent)
    ensures Free(Alloc(s, to), at).unit == s.unit
  {
  }

  lemma SameAgain(disk: int -> byte, pages: seq<Extent>, disk1: int -> byte, pages1: seq<Extent>,
                  disk2: int -> byte, pages2: seq<Extent>)
    requires SamePages(disk, pages, disk1, pages1) && SamePages(disk1, pages1, disk2, pages2)
    ensures SamePages(disk, pages, disk2, pages2)
  {
    hide Content;
  }
}
