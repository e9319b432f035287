/** The lists of checkpoints pass the tests of the reader: their ranges are aligned, past the
description and inside the file as it was when the checkpoint was written, in every reachable state
and through all rewrites. */
module Format {
  import opened Extents
  import opened Checkpoints
  import opened Protocol
  import opened Safety
  import opened Runs
  import opened Arithmetic
  import opened ListCodec

  // ---- Aligned sets ----

  ghost predicate SameUnit(unit: nat, x: int, y: int)
    requires 0 < unit
  {
    x / unit == y / unit
  }

  /** A set of whole units. */
  ghost predicate Aligned(unit: nat, s: set<int>)
    requires 0 < unit
  {
    forall x, y | SameUnit(unit, x, y) && x in s :: y in s
  }

  /** A block of whole units; no block is at offset 0. */
  predicate Whole(unit: nat, e: Extent)
    requires 0 < unit
  {
    e.off % unit == 0 && e.size % unit == 0 && (e.size == 0 ==> e.off == 0)
  }

  lemma AlignedOps(unit: nat, s: set<int>, t: set<int>)
    requires 0 < unit && Aligned(unit, s) && Aligned(unit, t)
    ensures Aligned(unit, s + t) && Aligned(unit, s - t) && Aligned(unit, s * t)
  {
    forall x, y | SameUnit(unit, x, y) ensures x in s <==> y in s {
      assert SameUnit(unit, y, x);
    }
    forall x, y | SameUnit(unit, x, y) ensures x in t <==> y in t {
      assert SameUnit(unit, y, x);
    }
  }

  lemma AlignedNone(unit: nat)
    requires 0 < unit
    ensures Aligned(unit, {})
  {
  }

  lemma AlignedRange(unit: nat, lo: nat, hi: nat)
    requires 0 < unit && lo % unit == 0 && hi % unit == 0
    ensures Aligned(unit, Range(lo, hi))
  {
    forall x: int, y: int | SameUnit(unit, x, y) && lo <= x < hi ensures lo <= y < hi {
      UnitBounds(unit, x, y, lo);
      UnitBounds(unit, x, y, hi);
    }
  }

  /** Bytes of the same unit lie on the same side of a unit's start. */
  lemma UnitBounds(unit: nat, x: int, y: int, at: nat)
    requires 0 < unit && SameUnit(unit, x, y) && at % unit == 0
    ensures x < at <==> y < at
  {
    var q := at / unit;
    DivMod(at, unit);
    Side(unit, x, q);
    Side(unit, y, q);
  }

  lemma Side(unit: nat, x: int, q: nat)
    requires 0 < unit
    ensures x < q * unit <==> x / unit < q
  {
    assert x == x / unit * unit + x % unit;
    var d := q - x / unit;
    AtLeast(d, unit);
    AtLeast(1 - d, unit);
    assert d * unit == q * unit - x / unit * unit;
    assert (1 - d) * unit == unit - d * unit;
  }

  lemma AlignedSpan(unit: nat, e: Extent)
    requires 0 < unit && Whole(unit, e)
    ensures Aligned(unit, Span(e))
  {
    WholeEnd(unit, e);
    AlignedRange(unit, e.off, e.End());
  }

  lemma WholeEnd(unit: nat, e: Extent)
    requires 0 < unit && Whole(unit, e)
    ensures e.End() % unit == 0
  {
    var a, b := e.off / unit, e.size / unit;
    DivMod(e.off, unit);
    DivMod(e.size, unit);
    assert e.End() == (a + b) * unit;
    DivMul(a + b, unit);
    DivMod(e.End(), unit);
  }

  /** The extents of a list that covers whole units are aligned. */
  lemma AlignedExtents(unit: nat, s: seq<Extent>, k: nat)
    requires 0 < unit && Canonical(s) && Aligned(unit, Bytes(s)) && k < |s|
    ensures Whole(unit, s[k])
  {
    var e := s[k];
    assert e.off in Span(e) && e.End() - 1 in Span(e);
    assert e.off in Bytes(s) && e.End() - 1 in Bytes(s);
    assert e.off - 1 !in Bytes(s) && e.End() !in Bytes(s);
    assert !SameUnit(unit, e.off, e.off - 1) && !SameUnit(unit, e.End() - 1, e.End());
    Starts(unit, e.off);
    Starts(unit, e.End());
    Difference(unit, e.off, e.End());
  }

  lemma Starts(unit: nat, x: nat)
    requires 0 < unit && x / unit != (x - 1) / unit
    ensures x % unit == 0
  {
    var q := x / unit;
    DivMod(x, unit);
    Side(unit, x - 1, q);
    Side(unit, x - 1, q + 1);
    assert (q + 1) * unit == q * unit + unit;
  }

  lemma Difference(unit: nat, a: nat, b: nat)
    requires 0 < unit && a <= b && a % unit == 0 && b % unit == 0
    ensures (b - a) % unit == 0
  {
    var p, q := a / unit, b / unit;
    DivMod(a, unit);
    DivMod(b, unit);
    Side(unit, a, q + 1);
    Side(unit, b, p);
    assert b - a == (q - p) * unit;
    DivMul(q - p, unit);
    DivMod(b - a, unit);
  }

  // ---- Checkpoints ----

  ghost predicate EntryAligned(unit: nat, c: Ckpt)
    requires 0 < unit
  {
    && Aligned(unit, c.alloc) && Aligned(unit, c.discard) && Aligned(unit, c.avail)
    && Whole(unit, c.root) && Whole(unit, c.allocAt) && Whole(unit, c.discardAt) && Whole(unit, c.availAt)
    && c.fileSize % unit == 0
  }

  ghost predicate AllAligned(unit: nat, cs: seq<Ckpt>)
    requires 0 < unit
  {
    forall i | 0 <= i < |cs| :: EntryAligned(unit, cs[i])
  }

  /** All that the checkpoints up to one have allocated lies in its file, and so does what it found
      available; the last skip entries may not have a file yet. */
  ghost predicate Inside(unit: nat, allocs: set<int>, cs: seq<Ckpt>, skip: nat)
    decreases |cs|
  {
    |cs| <= skip ||
    (&& allocs + cs[0].alloc <= Range(unit, cs[0].fileSize) && cs[0].avail <= Range(unit, cs[0].fileSize)
     && Inside(unit, allocs + cs[0].alloc, cs[1..], skip))
  }

  lemma {:induction false} InsideLess(unit: nat, allocs: set<int>, less: set<int>, cs: seq<Ckpt>, skip: nat)
    requires less <= allocs && Inside(unit, allocs, cs, skip)
    ensures Inside(unit, less, cs, skip)
    decreases |cs|
  {
    if |cs| > skip {
      InsideLess(unit, allocs + cs[0].alloc, less + cs[0].alloc, cs[1..], skip);
    }
  }

  /** Merging keeps the units whole. */
  lemma MergeAligned(unit: nat, a: Ckpt, b: Ckpt)
    requires 0 < unit && EntryAligned(unit, a) && EntryAligned(unit, b)
    ensures var m := MergeInto(a, b);
            && EntryAligned(unit, m) && EntryAligned(unit, Reconciled(m)) && EntryAligned(unit, Stale(Reconciled(m)))
            && Aligned(unit, Both(m)) && Aligned(unit, Ext(a)) && Aligned(unit, Rewritten(b, false))
  {
    hide Aligned, Span;
    AlignedSpan(unit, a.root);
    AlignedSpan(unit, a.allocAt);
    AlignedSpan(unit, a.discardAt);
    AlignedSpan(unit, a.availAt);
    AlignedSpan(unit, b.allocAt);
    AlignedSpan(unit, b.discardAt);
    AlignedOps(unit, a.alloc, b.alloc);
    AlignedOps(unit, a.discard, Span(a.root));
    AlignedOps(unit, a.discard + Span(a.root), b.discard);
    var m := MergeInto(a, b);
    AlignedOps(unit, m.alloc, m.discard);
    AlignedOps(unit, m.alloc, Both(m));
    AlignedOps(unit, m.discard, Both(m));
    AlignedOps(unit, Span(a.allocAt), Span(a.discardAt));
    AlignedOps(unit, Span(a.allocAt) + Span(a.discardAt), Span(a.availAt));
    AlignedOps(unit, Span(b.allocAt), Span(b.discardAt));
    AlignedNone(unit);
  }

  lemma {:induction false} RollAligned(unit: nat, cs: seq<Ckpt>, del: seq<bool>)
    requires 0 < unit && |cs| == |del| > 0 && !del[|del| - 1] && AllAligned(unit, cs)
    ensures AllAligned(unit, Roll(cs, del).cs) && Aligned(unit, Roll(cs, del).freed)
    decreases |cs|
  {
    hide EntryAligned, Aligned, MergeInto, Reconciled, Stale, Both, Rewritten, Ext;
    if |cs| == 1 {
      AlignedNone(unit);
    } else if !del[0] {
      RollAligned(unit, cs[1..], del[1..]);
    } else {
      var m := MergeInto(cs[0], cs[1]);
      MergeAligned(unit, cs[0], cs[1]);
      AlignedNone(unit);
      RewrittenLive(cs[1]);
      var live := |cs| == 2;
      var t := if del[1] then m else if live then Reconciled(m) else Stale(Reconciled(m));
      RollAligned(unit, [t] + cs[2..], del[1..]);
      var freed := Roll([t] + cs[2..], del[1..]).freed;
      AlignedOps(unit, Ext(cs[0]), freed);
      AlignedOps(unit, Ext(cs[0]), Both(m));
      AlignedOps(unit, Ext(cs[0]) + Both(m), Rewritten(cs[1], live));
      AlignedOps(unit, Ext(cs[0]) + Both(m) + Rewritten(cs[1], live), freed);
    }
  }

  lemma RewrittenLive(c: Ckpt)
    ensures Rewritten(c, true) == {}
  {
  }

  /** Deletions keep the lists inside: a target takes in only what an earlier checkpoint allocated. */
  lemma {:induction false} RollInside(unit: nat, allocs: set<int>, cs: seq<Ckpt>, del: seq<bool>)
    requires |cs| == |del| > 0 && !del[|del| - 1] && Inside(unit, allocs, cs, 1)
    ensures Inside(unit, allocs, Roll(cs, del).cs, 1)
    decreases |cs|
  {
    hide Range, Span;
    if |cs| == 1 {
    } else if !del[0] {
      RollInside(unit, allocs + cs[0].alloc, cs[1..], del[1..]);
      var r := Roll(cs[1..], del[1..]).cs;
      assert ([cs[0]] + r)[1..] == r;
    } else {
      var m := MergeInto(cs[0], cs[1]);
      var live := |cs| == 2;
      var t := if del[1] then m else if live then Reconciled(m) else Stale(Reconciled(m));
      MergeInside(unit, allocs, cs, t);
      RollInside(unit, allocs, [t] + cs[2..], del[1..]);
    }
  }

  lemma MergeInside(unit: nat, allocs: set<int>, cs: seq<Ckpt>, t: Ckpt)
    requires |cs| >= 2 && Inside(unit, allocs, cs, 1)
    requires t.alloc <= cs[0].alloc + cs[1].alloc && t.fileSize == cs[1].fileSize && t.avail == cs[1].avail
    ensures Inside(unit, allocs, [t] + cs[2..], 1)
  {
    hide Range;
    var rest := cs[1..];
    assert rest[0] == cs[1] && rest[1..] == cs[2..];
    assert ([t] + cs[2..])[1..] == cs[2..];
    if |cs| > 2 {
      assert Inside(unit, allocs + cs[0].alloc, rest, 1);
      InsideLess(unit, allocs + cs[0].alloc + cs[1].alloc, allocs + t.alloc, cs[2..], 1);
    }
  }

  // ---- Space ----

  ghost predicate SpaceAligned(unit: nat, sp: Space)
    requires 0 < unit
  {
    Aligned(unit, sp.avail) && sp.size % unit == 0
  }

  lemma TakeAligned(unit: nat, sp: Space, at: Extent)
    requires 0 < unit && SpaceAligned(unit, sp) && Whole(unit, at)
    ensures SpaceAligned(unit, Take(sp, at))
  {
    hide Aligned, Span;
    AlignedSpan(unit, at);
    AlignedOps(unit, sp.avail, Span(at));
    WholeEnd(unit, at);
  }

  /** What trimming cuts off is available space at the end of the file. */
  lemma {:induction false} TrimCuts(sp: Space)
    ensures var t := Trim(sp);
            && Range(t.size, sp.size) <= sp.avail && t.avail == sp.avail - Range(t.size, sp.size)
            && (t.size > 0 ==> t.size - 1 !in sp.avail)
    decreases sp.size
  {
    if sp.size > 0 && sp.size - 1 in sp.avail {
      TrimCuts(Space(sp.avail - {sp.size - 1}, sp.size - 1));
      var n := Trim(sp).size;
      assert Range(n, sp.size) == Range(n, sp.size - 1) + {sp.size - 1};
    }
  }

  lemma TrimAligned(unit: nat, sp: Space)
    requires 0 < unit && SpaceAligned(unit, sp)
    ensures SpaceAligned(unit, Trim(sp))
  {
    TrimCuts(sp);
    var n := Trim(sp).size;
    if 0 < n < sp.size {
      assert n in Range(n, sp.size);
      assert !SameUnit(unit, n, n - 1);
      Starts(unit, n);
    }
    AlignedRange(unit, n, sp.size);
    hide Aligned, Range;
    AlignedOps(unit, sp.avail, Range(n, sp.size));
  }

  lemma {:induction false} RewriteAligned(unit: nat, cs: seq<Ckpt>, k: nat, lists: seq<(Extent, Extent)>, sp: Space)
    requires 0 < unit && k <= |cs| && k <= |lists| && AllAligned(unit, cs) && SpaceAligned(unit, sp)
    requires forall i | 0 <= i < |lists| :: Whole(unit, lists[i].0) && Whole(unit, lists[i].1)
    ensures AllAligned(unit, Rewrite(cs, k, lists, sp).0) && SpaceAligned(unit, Rewrite(cs, k, lists, sp).1)
  {
    hide Aligned, Take, SpaceAligned;
    if k > 0 {
      RewriteAligned(unit, cs, k - 1, lists, sp);
      var sp1 := Rewrite(cs, k - 1, lists, sp).1;
      TakeAligned(unit, sp1, lists[k - 1].0);
      TakeAligned(unit, Take(sp1, lists[k - 1].0), lists[k - 1].1);
    }
  }

  lemma {:induction false} RewriteInside(unit: nat, allocs: set<int>, cs: seq<Ckpt>, ds: seq<Ckpt>, skip: nat)
    requires |ds| == |cs| && Inside(unit, allocs, cs, skip)
    requires forall i | 0 <= i < |cs| - skip ::
               ds[i].alloc == cs[i].alloc && ds[i].avail == cs[i].avail && ds[i].fileSize == cs[i].fileSize
    ensures Inside(unit, allocs, ds, skip)
    decreases |cs|
  {
    hide Range;
    if |cs| > skip {
      RewriteInside(unit, allocs + cs[0].alloc, cs[1..], ds[1..], skip);
    }
  }

  // ---- States and runs ----

  ghost predicate WellFormed(unit: nat, cs: seq<Ckpt>)
    requires 0 < unit
  {
    AllAligned(unit, cs) && Inside(unit, {}, cs, 0)
  }

  ghost predicate Formatted(s: State) {
    && 0 < s.unit
    && SpaceAligned(s.unit, SpaceOf(s)) && Aligned(s.unit, s.alloc) && Aligned(s.unit, s.discard)
    && Aligned(s.unit, s.ckptAvail)
    && WellFormed(s.unit, s.cur) && WellFormed(s.unit, s.durable)
  }

  ghost predicate WholePlan(unit: nat, plan: Plan)
    requires 0 < unit
  {
    && Whole(unit, plan.root) && Whole(unit, plan.alloc) && Whole(unit, plan.discard) && Whole(unit, plan.avail)
    && forall i | 0 <= i < |plan.lists| :: Whole(unit, plan.lists[i].0) && Whole(unit, plan.lists[i].1)
  }

  ghost predicate WholeLists(unit: nat, lists: seq<(Extent, Extent)>)
    requires 0 < unit
  {
    forall i | 0 <= i < |lists| :: Whole(unit, lists[i].0) && Whole(unit, lists[i].1)
  }

  /** Blocks are allocated, placed and freed in whole units. */
  ghost predicate WholeStep(unit: nat, step: Step)
    requires 0 < unit
  {
    match step
    case DoAlloc(at) => Whole(unit, at)
    case DoFree(at) => Whole(unit, at)
    case DoCheckpoint(_, _, plan) => WholePlan(unit, plan)
    case _ => true
  }

  lemma AllocFormatted(s: State, at: Extent)
    requires Formatted(s) && Whole(s.unit, at)
    ensures Formatted(Alloc(s, at))
  {
    hide Aligned, Span, Take, WellFormed;
    TakeAligned(s.unit, SpaceOf(s), at);
    AlignedSpan(s.unit, at);
    AlignedOps(s.unit, s.alloc, Span(at));
  }

  lemma FreeFormatted(s: State, at: Extent)
    requires Formatted(s) && Whole(s.unit, at)
    ensures Formatted(Free(s, at))
  {
    hide Aligned, Span, WellFormed;
    AlignedSpan(s.unit, at);
    AlignedOps(s.unit, s.alloc, Span(at));
    AlignedOps(s.unit, s.avail, Span(at));
    AlignedOps(s.unit, s.discard, Span(at));
  }

  lemma ResolveFormatted(s: State, failed: bool)
    requires Formatted(s)
    ensures Formatted(Resolve(s, failed))
  {
    hide Aligned, WellFormed;
    AlignedOps(s.unit, s.avail, s.ckptAvail);
    AlignedNone(s.unit);
  }

  lemma LoadFormatted(unit: nat, cs: seq<Ckpt>)
    requires 0 < unit && WellFormed(unit, cs)
    ensures Formatted(Load(unit, cs))
  {
    hide Aligned, Span, Inside;
    AlignedNone(unit);
    if cs != [] {
      var c := cs[|cs| - 1];
      assert EntryAligned(unit, c);
      AlignedSpan(unit, c.availAt);
      AlignedOps(unit, c.avail, Span(c.availAt));
    } else {
      DivMul(1, unit);
      DivMod(unit, unit);
    }
  }

  lemma {:induction false} InsideAppend(unit: nat, allocs: set<int>, cs: seq<Ckpt>, c: Ckpt)
    requires Inside(unit, allocs, cs, 0)
    ensures Inside(unit, allocs, cs + [c], 1)
    decreases |cs|
  {
    hide Range;
    if cs != [] {
      InsideAppend(unit, allocs + cs[0].alloc, cs[1..], c);
      assert (cs + [c])[1..] == cs[1..] + [c];
    }
  }

  lemma {:induction false} InsideWhole(unit: nat, allocs: set<int>, cs: seq<Ckpt>)
    requires cs != [] && Inside(unit, allocs, cs, 1)
    requires var c := cs[|cs| - 1];
             allocs + Allocs(cs) <= Range(unit, c.fileSize) && c.avail <= Range(unit, c.fileSize)
    ensures Inside(unit, allocs, cs, 0)
    decreases |cs|
  {
    hide Range;
    if |cs| > 1 {
      InsideWhole(unit, allocs + cs[0].alloc, cs[1..]);
    }
  }

  lemma {:induction false} RewriteSame(cs: seq<Ckpt>, k: nat, lists: seq<(Extent, Extent)>, sp: Space, i: nat)
    requires k <= |cs| && k <= |lists| && i < |cs|
    ensures var d := Rewrite(cs, k, lists, sp).0[i];
            d.alloc == cs[i].alloc && d.avail == cs[i].avail && d.fileSize == cs[i].fileSize
  {
    hide Take;
    if k > 0 {
      RewriteSame(cs, k - 1, lists, sp, i);
    }
  }

  /** The deletions and the rewrites keep the lists whole and inside. */
  lemma UpdatedFormatted(s: State, order: nat, del: seq<bool>, plan: Plan)
    requires Formatted(s) && PlanStarts(s, order, del, plan) && WholePlan(s.unit, plan)
    ensures var (cs, sp1) := Updated(s, order, del, plan);
            && AllAligned(s.unit, cs) && SpaceAligned(s.unit, sp1) && Inside(s.unit, {}, cs, 1)
            && Aligned(s.unit, Deleted(s, order, del, plan).freed)
  {
    hide Aligned, Span, Take, CanTake, Roll, Rewrite, CanRewrite, SpaceAligned, Inside;
    if plan.root.size > 0 {
      AllocFormatted(s, plan.root);
    }
    var s1 := WithRoot(s, plan.root);
    var c := NewCkpt(s1, order, plan.root);
    AlignedNone(s.unit);
    InsideAppend(s.unit, {}, s.cur, c);
    var all := s.cur + [c];
    assert s1.cur == s.cur;
    RollAligned(s.unit, all, del + [false]);
    RollInside(s.unit, {}, all, del + [false]);
    var cs := Deleted(s, order, del, plan).cs;
    RewriteAligned(s.unit, cs, |cs|, plan.lists, SpaceOf(s1));
    var ds := Updated(s, order, del, plan).0;
    forall i | 0 <= i < |cs|
      ensures ds[i].alloc == cs[i].alloc && ds[i].avail == cs[i].avail && ds[i].fileSize == cs[i].fileSize
    {
      RewriteSame(cs, |cs|, plan.lists, SpaceOf(s1), i);
    }
    RewriteInside(s.unit, {}, cs, ds, 1);
  }

  /** A list the file can be opened from lies inside it. */
  lemma LastInside(unit: nat, cs: seq<Ckpt>)
    requires Listed(unit, cs) && cs != []
    ensures var c := cs[|cs| - 1];
            Allocs(cs) <= Range(unit, c.fileSize) && c.avail <= Range(unit, c.fileSize)
  {
    hide Range, Allocs, Exts, Span, Chain, Spaced, AllSettled, Distinct, Base;
    var c := cs[|cs| - 1];
    ExtIn(cs, |cs| - 1);
    assert Conserved(unit, cs, Space(ReadAvail(c), c.fileSize), {}, {});
    assert c.avail <= ReadAvail(c) + Span(c.availAt);
  }

  lemma CheckpointFormatted(s: State, order: nat, del: seq<bool>, plan: Plan)
    requires Inv(s) && s.phase == InProgress && PlanOk(s, order, del, plan) && order !in Orders(s.cur)
    requires Formatted(s) && WholePlan(s.unit, plan)
    ensures Formatted(Checkpoint(s, order, del, plan))
  {
    hide Aligned, Span, Take, CanTake, Roll, Rewrite, CanRewrite, SpaceAligned, Inside, Trim, Conserved, Inv, Orders;
    hide Chain, Distinct, AllSettled, Base, NewSize, Whole;
    UpdatedFormatted(s, order, del, plan);
    var (cs, sp1) := Updated(s, order, del, plan);
    var sp2 := Trim(sp1);
    TrimAligned(s.unit, sp1);
    TakeAligned(s.unit, sp2, plan.alloc);
    var sp3 := Take(sp2, plan.alloc);
    TakeAligned(s.unit, sp3, plan.discard);
    var sp4 := Take(sp3, plan.discard);
    TakeAligned(s.unit, sp4, plan.avail);
    var s' := Checkpoint(s, order, del, plan);
    SpaceParts(s.unit, sp4, s'.ckptAvail);
    AlignedNone(s.unit);
    SpaceParts(s.unit, Take(sp4, plan.avail), {});
    InvCheckpoint(s, order, del, plan);
    InvLists(s');
    LastInside(s.unit, s'.cur);
    RewriteInside(s.unit, {}, cs, s'.cur, 1);
    InsideWhole(s.unit, {}, s'.cur);
  }

  lemma SpaceParts(unit: nat, sp: Space, freed: set<int>)
    requires 0 < unit && SpaceAligned(unit, sp) && Aligned(unit, freed)
    ensures Aligned(unit, sp.avail + freed) && sp.size % unit == 0 && Aligned(unit, sp.avail)
  {
    hide Aligned;
    AlignedOps(unit, sp.avail, freed);
  }

  lemma InvLists(s: State)
    requires Inv(s)
    ensures Listed(s.unit, s.cur)
  {
  }

  lemma FormattedStep(s: State, step: Step)
    requires Inv(s) && Formatted(s) && Enabled(s, step) && WholeStep(s.unit, step)
    ensures Formatted(Apply(s, step))
  {
    hide Checkpoint, PlanOk, CanTake, Take, Freeable, Load, Inv, Aligned, Inside, AllAligned, SpaceAligned;
    match step
    case DoAlloc(at) => AllocFormatted(s, at);
    case DoFree(at) => FreeFormatted(s, at);
    case DoCheckpoint(order, del, plan) =>
      if s.phase == InProgress {
        CheckpointFormatted(s, order, del, plan);
      } else if s.phase != Panicked && plan.root.size > 0 {
        AllocFormatted(s, plan.root);
      }
    case DoResolve(failed) => ResolveFormatted(s, failed);
    case DoCrash => LoadFormatted(s.unit, s.durable);
    case _ =>
  }

  lemma {:induction false} RunFormatted(unit: nat, ss: seq<State>, steps: seq<Step>, i: nat)
    requires Run(unit, ss, steps) && i < |ss| && forall j | 0 <= j < |steps| :: WholeStep(unit, steps[j])
    ensures Formatted(ss[i])
  {
    hide Inv, Apply, Enabled, Formatted, WholeStep;
    RunInv(unit, ss, steps, i);
    if i == 0 {
      LoadFormatted(unit, []);
    } else {
      RunFormatted(unit, ss, steps, i - 1);
      RunInv(unit, ss, steps, i - 1);
      assert Enabled(ss[i - 1], steps[i - 1]) && ss[i - 1 + 1] == Apply(ss[i - 1], steps[i - 1]);
      FormattedStep(ss[i - 1], steps[i - 1]);
    }
  }

  lemma {:induction false} InsideAt(unit: nat, allocs: set<int>, cs: seq<Ckpt>, k: nat, skip: nat)
    requires Inside(unit, allocs, cs, skip) && k + skip < |cs|
    ensures allocs + Allocs(cs[..k]) + cs[k].alloc <= Range(unit, cs[k].fileSize)
    ensures cs[k].avail <= Range(unit, cs[k].fileSize)
    decreases |cs|
  {
    hide Range;
    if k > 0 {
      InsideAt(unit, allocs + cs[0].alloc, cs[1..], k - 1, skip);
      assert cs[..k][1..] == cs[1..][..k - 1];
    }
  }

  /** The lists of a checkpoint that can be read back: of a state's, and so of a durable one's. */
  lemma ListsInFile(unit: nat, cs: seq<Ckpt>, k: nat)
    requires 0 < unit && Listed(unit, cs) && WellFormed(unit, cs) && k < |cs|
    ensures cs[k].alloc <= Range(unit, cs[k].fileSize) && cs[k].discard <= Range(unit, cs[k].fileSize)
    ensures cs[k].avail <= Range(unit, cs[k].fileSize) && EntryAligned(unit, cs[k])
  {
    hide Range, Chain, Spaced, Conserved, Distinct, Aligned, Inside;
    InsideAt(unit, {}, cs, k, 0);
    ProtectedIs(cs);
    ListsApart(cs, k);
  }

  /** Any list of a set of whole units inside the file passes the reader's tests, range by range. */
  lemma ExtentsInFile(unit: nat, fileSize: nat, s: seq<Extent>, i: nat)
    requires 0 < unit && Canonical(s) && Aligned(unit, Bytes(s)) && Bytes(s) <= Range(unit, fileSize) && i < |s|
    ensures InFile(s[i], unit, fileSize)
  {
    AlignedExtents(unit, s, i);
    assert s[i].off in Span(s[i]) && s[i].End() - 1 in Span(s[i]);
    assert s[i].off in Bytes(s) && s[i].End() - 1 in Bytes(s);
  }

  /** In every reachable state the alloc and discard lists of every checkpoint, current or durable, pass
      the tests the reader makes against that checkpoint's own file size, however often they have been
      rewritten. */
  lemma ReaderAccepts(unit: nat, ss: seq<State>, steps: seq<Step>, i: nat, cs: seq<Ckpt>, k: nat, s: seq<Extent>)
    requires Run(unit, ss, steps) && i < |ss| && forall j | 0 <= j < |steps| :: WholeStep(unit, steps[j])
    requires (cs == ss[i].cur || cs == ss[i].durable) && k < |cs|
    requires Canonical(s) && (Bytes(s) == cs[k].alloc || Bytes(s) == cs[k].discard)
    ensures forall j | 0 <= j < |s| :: InFile(s[j], unit, cs[k].fileSize)
  {
    RunInv(unit, ss, steps, i);
    RunFormatted(unit, ss, steps, i);
    hide Run, Canonical, Bytes, Aligned, Range, Conserved, Inside, AllAligned, InFile, Chain;
    ListsInFile(unit, cs, k);
    forall j | 0 <= j < |s| ensures InFile(s[j], unit, cs[k].fileSize) {
      ExtentsInFile(unit, cs[k].fileSize, s, j);
    }
  }
}
