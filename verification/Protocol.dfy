/** The checkpoint protocol as a state machine over sets of file bytes: allocate, free, start a
checkpoint, write it, fail while writing it, save its metadata, resolve it, crash and load. Each
step is atomic: it runs under the live system's lock. */
module Protocol {
  import opened Extents
  import opened Checkpoints

  /** WT_CKPT_NONE, WT_CKPT_INPROGRESS, WT_CKPT_PANIC_ON_FAILURE, and after a panic. */
  datatype Phase = Idle | InProgress | PanicOnFailure | Panicked

  datatype State = State(
    unit: nat,              // allocation size; the first unit describes the file
    size: nat,              // file size
    avail: set<int>,        // the live system's lists
    alloc: set<int>,
    discard: set<int>,
    ckptAvail: set<int>,    // to become available when the checkpoint is resolved
    ckptSize: int,
    phase: Phase,
    cur: seq<Ckpt>,         // the checkpoints the live system continues from
    durable: seq<Ckpt>)     // the checkpoints listed in stable storage

  /** The part of the state block allocation changes. */
  datatype Space = Space(avail: set<int>, size: nat)

  // ---- Allocation ----

  /** A block comes from the avail list or extends the file; size 0 is no block. */
  ghost predicate CanTake(sp: Space, at: Extent) {
    if at.size == 0 then at == NOWHERE else at.off == sp.size || Span(at) <= sp.avail
  }

  ghost function Take(sp: Space, at: Extent): Space {
    if at.size > 0 && at.off == sp.size then Space(sp.avail, sp.size + at.size)
    else Space(sp.avail - Span(at), sp.size)
  }

  /** The first place with room for a block: none before it has room. */
  ghost predicate FirstFits(sp: Space, at: Extent) {
    forall x: nat | x < at.off :: !(Span(Extent(x, at.size)) <= sp.avail)
  }

  /** Cut the available bytes at the end of the file off it. */
  ghost function Trim(sp: Space): (r: Space)
    ensures r.size <= sp.size
    decreases sp.size
  {
    if sp.size > 0 && sp.size - 1 in sp.avail
    then Trim(Space(sp.avail - {sp.size - 1}, sp.size - 1))
    else sp
  }

  /** Every byte past the description is in exactly one place: available, about to be, allocated by
      the live system, on a checkpoint's alloc list, or in a block holding a written list. */
  ghost predicate Conserved(unit: nat, cs: seq<Ckpt>, sp: Space, freed: set<int>, live: set<int>) {
    && Spaced(cs)
    && live !! Allocs(cs) + Exts(cs)
    && sp.avail !! freed
    && sp.avail + freed !! live + Allocs(cs) + Exts(cs)
    && sp.avail + freed + live + Allocs(cs) + Exts(cs) == Range(unit, sp.size)
    && unit <= sp.size
  }

  // ---- Writing the lists of changed checkpoints ----

  ghost predicate CanWrite(sp: Space, list: set<int>, at: Extent) {
    CanTake(sp, at) && (at.size == 0 <==> list == {})
  }

  ghost function Rewrote(c: Ckpt, at: (Extent, Extent)): Ckpt {
    c.(allocAt := at.0, discardAt := at.1, update := false)
  }

  /** The checkpoints and the space once the lists of those marked for update have been written,
      among the first k entries. */
  ghost function Rewrite(cs: seq<Ckpt>, k: nat, lists: seq<(Extent, Extent)>, sp: Space)
    : (r: (seq<Ckpt>, Space))
    requires k <= |cs| && k <= |lists|
    ensures |r.0| == |cs|
  {
    if k == 0 then (cs, sp)
    else
      var (ds, sp1) := Rewrite(cs, k - 1, lists, sp);
      if !cs[k - 1].update then (ds, sp1)
      else
        (ds[k - 1 := Rewrote(cs[k - 1], lists[k - 1])],
         Take(Take(sp1, lists[k - 1].0), lists[k - 1].1))
  }

  ghost predicate CanRewrite(cs: seq<Ckpt>, k: nat, lists: seq<(Extent, Extent)>, sp: Space)
    requires k <= |cs| && k <= |lists|
  {
    k == 0 ||
    (&& CanRewrite(cs, k - 1, lists, sp)
     && (cs[k - 1].update ==>
           var sp1 := Rewrite(cs, k - 1, lists, sp).1;
           && CanWrite(sp1, cs[k - 1].alloc, lists[k - 1].0)
           && CanWrite(Take(sp1, lists[k - 1].0), cs[k - 1].discard, lists[k - 1].1)))
  }

  /** The rewritten lists are where there is room for them first. */
  ghost predicate FirstLists(cs: seq<Ckpt>, k: nat, lists: seq<(Extent, Extent)>, sp: Space)
    requires k <= |cs| && k <= |lists|
  {
    k == 0 ||
    (&& FirstLists(cs, k - 1, lists, sp)
     && (cs[k - 1].update ==>
           var sp1 := Rewrite(cs, k - 1, lists, sp).1;
           FirstFits(sp1, lists[k - 1].0) && FirstFits(Take(sp1, lists[k - 1].0), lists[k - 1].1)))
  }

  // ---- The checkpoint ----

  /** Where a checkpoint puts its root page, the rewritten lists, and its own lists. */
  datatype Plan = Plan(
    root: Extent,
    lists: seq<(Extent, Extent)>,
    alloc: Extent,
    discard: Extent,
    avail: Extent,
    rootSum: nat)           // the root page's checksum

  ghost function SpaceOf(s: State): Space {
    Space(s.avail, s.size)
  }

  ghost function Alloc(s: State, at: Extent): State {
    var sp := Take(SpaceOf(s), at);
    s.(avail := sp.avail, size := sp.size, alloc := s.alloc + Span(at))
  }

  /** The live system's lists as a new checkpoint, not yet written. */
  ghost function NewCkpt(s: State, order: nat, root: Extent): Ckpt {
    Ckpt(order, root, s.alloc, s.discard, {}, NOWHERE, NOWHERE, NOWHERE, 0, 0, 0, false)
  }

  ghost function WithRoot(s: State, root: Extent): State {
    if root.size == 0 then s else Alloc(s, root)
  }

  ghost function Deleted(s: State, order: nat, del: seq<bool>, plan: Plan): Rolled
    requires |del| == |s.cur|
  {
    Roll(s.cur + [NewCkpt(WithRoot(s, plan.root), order, plan.root)], del + [false])
  }

  /** The root page and the rewritten lists can be placed as planned. */
  ghost predicate PlanStarts(s: State, order: nat, del: seq<bool>, plan: Plan) {
    && |del| == |s.cur|
    && CanTake(SpaceOf(s), plan.root)
    && |plan.lists| == |Deleted(s, order, del, plan).cs|
    && var cs := Deleted(s, order, del, plan).cs;
       CanRewrite(cs, |cs|, plan.lists, SpaceOf(WithRoot(s, plan.root)))
  }

  /** The checkpoints and the space once the deletions and the rewrites are done. */
  ghost function Updated(s: State, order: nat, del: seq<bool>, plan: Plan): (r: (seq<Ckpt>, Space))
    requires PlanStarts(s, order, del, plan)
    ensures r.0 != []
  {
    var cs := Deleted(s, order, del, plan).cs;
    Rewrite(cs, |cs|, plan.lists, SpaceOf(WithRoot(s, plan.root)))
  }

  ghost predicate PlanOk(s: State, order: nat, del: seq<bool>, plan: Plan) {
    && PlanStarts(s, order, del, plan)
    && var (cs, sp1) := Updated(s, order, del, plan);
       var c := cs[|cs| - 1];
       var sp2 := Trim(sp1);
       var sp3 := Take(sp2, plan.alloc);
       var sp4 := Take(sp3, plan.discard);
       && CanWrite(sp2, c.alloc, plan.alloc)
       && CanWrite(sp3, c.discard, plan.discard)
       && CanTake(sp4, plan.avail) && plan.avail.size > 0
  }

  /** Every block of a checkpoint is where there is room for it first. */
  ghost predicate FirstPlan(s: State, order: nat, del: seq<bool>, plan: Plan)
    requires PlanOk(s, order, del, plan)
  {
    var cs := Deleted(s, order, del, plan).cs;
    var sp2 := Trim(Updated(s, order, del, plan).1);
    var sp3 := Take(sp2, plan.alloc);
    && FirstFits(SpaceOf(s), plan.root)
    && FirstLists(cs, |cs|, plan.lists, SpaceOf(WithRoot(s, plan.root)))
    && FirstFits(sp2, plan.alloc) && FirstFits(sp3, plan.discard) && FirstFits(Take(sp3, plan.discard), plan.avail)
  }

  /** The size reported for a new checkpoint. */
  ghost function NewSize(s: State, root: Extent): int {
    s.ckptSize + |WithRoot(s, root).alloc| - |s.discard|
  }

  function Min(a: int, b: int): int {
    if a < b then a else b
  }

  /** The live system's checkpoint, written: its three list blocks, and what they make of it. */
  ghost function Finished(c: Ckpt, plan: Plan, freed: set<int>, sp: Space, ckptSize: int)
    : (Ckpt, Space)
  {
    var sp3 := Take(sp, plan.alloc);
    var sp4 := Take(sp3, plan.discard);
    var sp5 := Take(sp4, plan.avail);
    (c.(allocAt := plan.alloc, discardAt := plan.discard, availAt := plan.avail,
        avail := sp4.avail + freed, fileSize := sp5.size, ckptSize := ckptSize, rootSum := plan.rootSum),
     sp5)
  }

  ghost function Checkpoint(s: State, order: nat, del: seq<bool>, plan: Plan): State
    requires PlanOk(s, order, del, plan)
  {
    var r := Deleted(s, order, del, plan);
    var (cs, sp1) := Updated(s, order, del, plan);
    var sp2 := Trim(sp1);
    var rolling := Min(NewSize(s, plan.root) - plan.root.size, sp2.size);
    var (c, sp5) := Finished(cs[|cs| - 1], plan, r.freed, sp2, rolling);
    s.(size := sp5.size, avail := sp5.avail, alloc := {}, discard := {}, ckptAvail := r.freed,
       ckptSize := rolling, phase := PanicOnFailure, cur := cs[..|cs| - 1] + [c])
  }

  /** A checkpoint that was never started: the root page is written before that is found out. */
  ghost function Refused(s: State, root: Extent): State {
    WithRoot(s, root).(phase := Panicked)
  }

  // ---- The steps ----

  /** Writing a checkpoint may fail, or the system crash in it, at any point: DoFail. Some of the
      blocks it takes have been written, and available space at the end of the file may be gone; the
      failure is fatal, whatever has become of the lists in memory is not used again. */
  datatype Step =
    | DoAlloc(at: Extent)
    | DoFree(at: Extent)
    | DoStart
    | DoCheckpoint(order: nat, del: seq<bool>, plan: Plan)
    | DoFail(writes: set<int>)
    | DoSave
    | DoResolve(failed: bool)
    | DoCrash

  /** The btree frees only whole blocks the live tree references: either one allocated since the
      last checkpoint or one handed on by it. */
  ghost predicate Freeable(s: State, at: Extent) {
    at.size > 0 && (Span(at) <= s.alloc || Span(at) <= Base({}, s.cur) - s.discard)
  }

  /** What the live tree references. */
  ghost function LiveUses(s: State): set<int> {
    Base({}, s.cur) + s.alloc - s.discard
  }

  ghost function Free(s: State, at: Extent): State {
    if Span(at) <= s.alloc
    then s.(alloc := s.alloc - Span(at), avail := s.avail + Span(at))
    else s.(discard := s.discard + Span(at))
  }

  ghost function Start(s: State): State {
    s.(phase := if s.phase == Idle then InProgress else Panicked)
  }

  ghost function Resolve(s: State, failed: bool): State {
    match s.phase
    case InProgress => s.(phase := Idle)
    case PanicOnFailure =>
      if failed then s.(phase := Panicked)
      else s.(avail := s.avail + s.ckptAvail, ckptAvail := {}, phase := Idle)
    case _ => s.(phase := Panicked)
  }

  /** The avail list as it is read back: the block holding it is removed. */
  ghost function ReadAvail(c: Ckpt): set<int> {
    c.avail - Span(c.availAt)
  }

  /** Open the file at the last of some checkpoints; a new file holds only its description. */
  ghost function Load(unit: nat, cs: seq<Ckpt>): State {
    if cs == [] then State(unit, unit, {}, {}, {}, {}, 0, Idle, cs, cs)
    else
      var c := cs[|cs| - 1];
      State(unit, c.fileSize, ReadAvail(c), {}, {}, {}, c.ckptSize, Idle, cs, cs)
  }

  ghost function Orders(cs: seq<Ckpt>): set<nat> {
    set i | 0 <= i < |cs| :: cs[i].order
  }

  /** Bytes that can be taken for new blocks: available, or past the end of the file. */
  ghost predicate Fresh(s: State, block: set<int>) {
    forall x | x in block :: x in s.avail || s.size <= x
  }

  ghost predicate Enabled(s: State, step: Step) {
    match step
    case DoAlloc(at) => s.phase != Panicked && at.size > 0 && CanTake(SpaceOf(s), at)
    case DoFree(at) => s.phase != Panicked && Freeable(s, at)
    case DoStart => true
    case DoCheckpoint(order, del, plan) =>
      && (s.phase != Panicked ==> CanTake(SpaceOf(s), plan.root))
      && (s.phase == InProgress ==> PlanOk(s, order, del, plan) && order !in Orders(s.cur))
    case DoFail(writes) => s.phase == InProgress && Fresh(s, writes)
    case DoSave => s.phase == PanicOnFailure
    case DoResolve(failed) => s.phase == PanicOnFailure && !failed ==> s.durable == s.cur
    case DoCrash => true
  }

  ghost function Apply(s: State, step: Step): State
    requires Enabled(s, step)
  {
    match step
    case DoAlloc(at) => Alloc(s, at)
    case DoFree(at) => Free(s, at)
    case DoStart => Start(s)
    case DoCheckpoint(order, del, plan) =>
      if s.phase == InProgress then Checkpoint(s, order, del, plan)
      else if s.phase == Panicked then s
      else Refused(s, plan.root)
    case DoFail(_) => s.(phase := Panicked)
    case DoSave => s.(durable := s.cur)
    case DoResolve(failed) => Resolve(s, failed)
    case DoCrash => Load(s.unit, s.durable)
  }

  // ---- The invariant ----

  ghost predicate Distinct(cs: seq<Ckpt>) {
    forall i, j | 0 <= i < j < |cs| :: cs[i].order != cs[j].order
  }

  /** Checkpoints the file can be opened from. */
  ghost predicate Listed(unit: nat, cs: seq<Ckpt>) {
    && Chain({}, {}, cs)
    && AllSettled(cs)
    && Distinct(cs)
    && (cs != [] ==>
          var c := cs[|cs| - 1];
          && Conserved(unit, cs, Space(ReadAvail(c), c.fileSize), {}, {})
          && c.ckptSize == |Base({}, cs)|)
  }

  /** Checkpoints of the same order in two lists reference the same bytes. */
  ghost predicate Agree(u: seq<(nat, set<int>)>, v: seq<(nat, set<int>)>) {
    forall i, j | 0 <= i < |u| && 0 <= j < |v| && u[i].0 == v[j].0 :: u[i].1 == v[j].1
  }

  /** The bytes that must not be written: referenced by a checkpoint, or holding its lists. */
  ghost function Protected(cs: seq<Ckpt>): set<int> {
    Used({}, cs) + Exts(cs)
  }

  ghost predicate Inv(s: State) {
    && 0 < s.unit
    && Listed(s.unit, s.durable)
    && Listed(s.unit, s.cur)
    && s.discard <= Base({}, s.cur)
    && Conserved(s.unit, s.cur, SpaceOf(s), s.ckptAvail, s.alloc)
    && s.ckptSize == |Base({}, s.cur)|
    && Protected(s.durable) !! s.avail + s.alloc
    && Protected(s.durable) <= Range(s.unit, s.size)
    && Agree(Uses({}, s.durable), Uses({}, s.cur))
    && (s.phase.Idle? || s.phase.InProgress? ==> s.cur == s.durable && s.ckptAvail == {})
  }
}
