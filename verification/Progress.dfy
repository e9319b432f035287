/** What the steps of the checkpoint protocol achieve: what is allocated and not freed is in the next
checkpoint, what is freed is not, and a checkpoint can always be taken. */
module Progress {
  import opened Extents
  import opened Checkpoints
  import opened Protocol
  import opened Safety
  import opened Runs
  import opened Format
  import Arithmetic

  // ---- The live tree ----

  /** The blocks a step gives to the live tree. */
  ghost function Gives(s: State, step: Step): set<int> {
    match step
    case DoAlloc(at) => Span(at)
    case DoCheckpoint(_, _, plan) => if s.phase.Idle? || s.phase.PanicOnFailure? then Span(plan.root) else {}
    case _ => {}
  }

  ghost function TakesAway(step: Step): set<int> {
    match step
    case DoFree(at) => Span(at)
    case _ => {}
  }

  /** A checkpoint belongs to what it found: the live tree references after it what it did before. */
  lemma LiveAfter(s: State, order: nat, del: seq<bool>, plan: Plan)
    requires Inv(s) && s.phase == InProgress && PlanOk(s, order, del, plan) && order !in Orders(s.cur)
    ensures LiveUses(Checkpoint(s, order, del, plan)) == LiveUses(s)
  {
    hide CanTake, Take, CanRewrite, Rewrite, Trim, Roll, Base, Uses, Span, Inv, Orders, Checkpoint, PlanOk;
    NewSizesExact(s, order, del, plan);
    var s' := Checkpoint(s, order, del, plan);
    NewRoot(s, order, del, plan);
    LastHandsOn(s'.cur);
    RootFresh(s, plan.root);
  }

  lemma NewRoot(s: State, order: nat, del: seq<bool>, plan: Plan)
    requires Inv(s) && s.phase == InProgress && PlanOk(s, order, del, plan)
    ensures var s' := Checkpoint(s, order, del, plan);
            && s'.cur != [] && s'.cur[|s'.cur| - 1].root == plan.root && s'.alloc == {} && s'.discard == {}
            && CanTake(SpaceOf(s), plan.root)
  {
    hide CanTake, Take, CanRewrite, Rewrite, Trim, Roll, Base, Uses, Inv, Conserved, Chain, Apart, Pick;
    BeforeFinish(s, order, del, plan);
  }

  lemma LastHandsOn(cs: seq<Ckpt>)
    requires cs != []
    ensures Base({}, cs) == Uses({}, cs)[|cs| - 1].1 - Span(cs[|cs| - 1].root)
  {
    hide Span, Base, Chain, Allocs, Exts, ExtsApart;
    assert cs == cs[..|cs| - 1] + [cs[|cs| - 1]];
    OneMore(cs[..|cs| - 1], cs[|cs| - 1]);
  }

  lemma RootFresh(s: State, root: Extent)
    requires Inv(s) && CanTake(SpaceOf(s), root)
    ensures LiveUses(WithRoot(s, root)) == LiveUses(s) + Span(root) && Span(root) !! LiveUses(s)
  {
    hide Inv, Base, Conserved, Chain, Apart, CanTake, Take, Span;
    CurFacts(s);
    if root.size == 0 {
      NoBytes(root);
    } else {
      LiveTakes(s.unit, s.cur, SpaceOf(s), s.ckptAvail, s.alloc, root);
    }
  }

  /** What each step, but for a crash, does to what the live tree references. */
  lemma LiveStep(s: State, step: Step)
    requires Inv(s) && Enabled(s, step) && step != DoCrash
    ensures LiveUses(Apply(s, step)) == LiveUses(s) + Gives(s, step) - TakesAway(step)
  {
    hide Inv, CanTake, Take, PlanOk, Checkpoint, Base, Freeable, Span, Orders;
    match step
    case DoAlloc(at) => AllocGives(s, at);
    case DoFree(at) => FreeMeans(s, at);
    case DoCheckpoint(order, del, plan) =>
      if s.phase == InProgress {
        LiveAfter(s, order, del, plan);
      } else if s.phase != Panicked {
        RootFresh(s, plan.root);
      }
    case _ =>
  }

  lemma AllocGives(s: State, at: Extent)
    requires Inv(s) && CanTake(SpaceOf(s), at) && at.size > 0
    ensures LiveUses(Alloc(s, at)) == LiveUses(s) + Span(at)
  {
    hide Inv, Base, Span, CanTake, Take;
    RootFresh(s, at);
  }

  /** Over a stretch of a run without a crash that neither gives some bytes to the live tree nor takes
      them from it, it references all, or none, of them as before. */
  lemma {:induction false} LiveStretch(unit: nat, ss: seq<State>, steps: seq<Step>, i: nat, j: nat, block: set<int>)
    requires Run(unit, ss, steps) && i <= j < |ss|
    requires forall k | i <= k < j :: steps[k] != DoCrash
    ensures (forall k | i <= k < j :: Gives(ss[k], steps[k]) !! block) && block !! LiveUses(ss[i]) ==>
              block !! LiveUses(ss[j])
    ensures (forall k | i <= k < j :: TakesAway(steps[k]) !! block) && block <= LiveUses(ss[i]) ==>
              block <= LiveUses(ss[j])
    decreases j - i
  {
    hide Inv, Apply, Enabled, Gives, TakesAway, LiveUses;
    if i < j {
      LiveStretch(unit, ss, steps, i, j - 1, block);
      RunInv(unit, ss, steps, j - 1);
      assert Enabled(ss[j - 1], steps[j - 1]) && ss[j - 1 + 1] == Apply(ss[j - 1], steps[j - 1]);
      LiveStep(ss[j - 1], steps[j - 1]);
    }
  }

  /** The entry of the checkpoint a step writes. */
  ghost function NewEntry(s: State): set<int> {
    if s.cur == [] then {} else Uses({}, s.cur)[|s.cur| - 1].1
  }

  /** A block that is freed, and not allocated again, is in no checkpoint written after that; one that
      is allocated, and not freed, is in the next: as long as there is no crash in between. */
  lemma FreedIsOut(unit: nat, ss: seq<State>, steps: seq<Step>, i: nat, j: nat, at: Extent)
    requires Run(unit, ss, steps) && i < j < |steps| && steps[j].DoCheckpoint? && ss[j].phase == InProgress
    requires forall k | i < k < j :: steps[k] != DoCrash
    ensures (&& steps[i] == DoFree(at) && Span(at) !! Span(steps[j].plan.root)
             && forall k | i < k < j :: Gives(ss[k], steps[k]) !! Span(at)) ==>
              Span(at) !! NewEntry(ss[j + 1])
    ensures (steps[i] == DoAlloc(at) && forall k | i < k < j :: TakesAway(steps[k]) !! Span(at)) ==>
              Span(at) <= NewEntry(ss[j + 1])
  {
    hide Inv, Gives, TakesAway, LiveUses, Span, Uses, Apply, Enabled;
    RunInv(unit, ss, steps, i);
    RunInv(unit, ss, steps, j);
    assert Enabled(ss[i], steps[i]) && ss[i + 1] == Apply(ss[i], steps[i]);
    assert Enabled(ss[j], steps[j]) && ss[j + 1] == Apply(ss[j], steps[j]);
    FirstGives(ss[i], steps[i], at);
    LiveStretch(unit, ss, steps, i + 1, j, Span(at));
    EntryIs(ss[j], steps[j]);
  }

  lemma FirstGives(s: State, step: Step, at: Extent)
    requires Inv(s) && Enabled(s, step)
    ensures step == DoFree(at) ==> Span(at) !! LiveUses(Apply(s, step))
    ensures step == DoAlloc(at) ==> Span(at) <= LiveUses(Apply(s, step))
  {
    hide Inv, LiveUses, Span, CanTake, Take, Freeable;
    if step == DoFree(at) || step == DoAlloc(at) {
      LiveStep(s, step);
    }
  }

  lemma EntryIs(s: State, step: Step)
    requires Inv(s) && Enabled(s, step) && step.DoCheckpoint? && s.phase == InProgress
    ensures NewEntry(Apply(s, step)) == LiveUses(s) + Span(step.plan.root)
  {
    hide Inv, LiveUses, Span, CanTake, Take, PlanOk, Checkpoint, Uses, Orders;
    NewSizesExact(s, step.order, step.del, step.plan);
    NewRoot(s, step.order, step.del, step.plan);
    RootFresh(s, step.plan.root);
  }

  // ---- A checkpoint can be taken ----

  /** A block for a list at the end of the file; none for an empty one. */
  ghost function AtEnd(sp: Space, unit: nat, list: set<int>): Extent {
    if list == {} then NOWHERE else Extent(sp.size, unit)
  }

  lemma AtEndFits(sp: Space, unit: nat, list: set<int>)
    requires 0 < unit && SpaceAligned(unit, sp)
    ensures var at := AtEnd(sp, unit, list);
            CanWrite(sp, list, at) && Whole(unit, at) && SpaceAligned(unit, Take(sp, at))
  {
    hide SpaceAligned;
    WholeAtEnd(sp, unit);
    var at := AtEnd(sp, unit, list);
    TakeAligned(unit, sp, at);
  }

  lemma WholeAtEnd(sp: Space, unit: nat)
    requires 0 < unit && SpaceAligned(unit, sp)
    ensures Whole(unit, Extent(sp.size, unit)) && Whole(unit, NOWHERE)
  {
    Arithmetic.DivMul(1, unit);
    Arithmetic.DivMod(unit, unit);
  }

  /** There is room for the lists of all entries to be written again. */
  lemma {:induction false} ListsFit(unit: nat, cs: seq<Ckpt>, k: nat, sp: Space) returns (lists: seq<(Extent, Extent)>)
    requires 0 < unit && SpaceAligned(unit, sp) && k <= |cs|
    ensures |lists| == k && WholeLists(unit, lists) && CanRewrite(cs, k, lists, sp)
    ensures SpaceAligned(unit, Rewrite(cs, k, lists, sp).1)
  {
    hide SpaceAligned, CanTake, Take, Whole, CanRewrite, Rewrite;
    if k == 0 {
      lists := [];
      RewriteNone(cs, lists, sp);
    } else {
      lists := ListsFit(unit, cs, k - 1, sp);
      var sp1 := Rewrite(cs, k - 1, lists, sp).1;
      var a := AtEnd(sp1, unit, cs[k - 1].alloc);
      AtEndFits(sp1, unit, cs[k - 1].alloc);
      var d := AtEnd(Take(sp1, a), unit, cs[k - 1].discard);
      AtEndFits(Take(sp1, a), unit, cs[k - 1].discard);
      RewriteOne(cs, k - 1, lists, (a, d), sp);
      lists := lists + [(a, d)];
    }
  }

  /** A checkpoint can be written, whatever is to be deleted and wherever its root page is. */
  lemma PlanExists(s: State, order: nat, del: seq<bool>, root: Extent, rootSum: nat) returns (plan: Plan)
    requires Formatted(s) && |del| == |s.cur| && CanTake(SpaceOf(s), root) && Whole(s.unit, root)
    ensures plan.root == root && plan.rootSum == rootSum && PlanOk(s, order, del, plan) && WholePlan(s.unit, plan)
  {
    hide Roll, Rewrite, CanRewrite, CanTake, Take, Trim, SpaceAligned, Whole, WellFormed, Aligned;
    var s1 := WithRoot(s, root);
    RootAligned(s, root);
    var cs := Roll(s.cur + [NewCkpt(s1, order, root)], del + [false]).cs;
    var lists := ListsFit(s.unit, cs, |cs|, SpaceOf(s1));
    var plan0 := Plan(root, lists, NOWHERE, NOWHERE, NOWHERE, 0);
    assert PlanStarts(s, order, del, plan0);
    var sp := Rewrite(cs, |cs|, lists, SpaceOf(s1)).1;
    var c := Updated(s, order, del, plan0).0[|cs| - 1];
    TrimAligned(s.unit, sp);
    var sp2 := Trim(sp);
    AtEndFits(sp2, s.unit, c.alloc);
    var a := AtEnd(sp2, s.unit, c.alloc);
    AtEndFits(Take(sp2, a), s.unit, c.discard);
    var d := AtEnd(Take(sp2, a), s.unit, c.discard);
    AtEndFits(Take(Take(sp2, a), d), s.unit, {0});
    var v := AtEnd(Take(Take(sp2, a), d), s.unit, {0});
    plan := Plan(root, lists, a, d, v, rootSum);
    assert Updated(s, order, del, plan) == Updated(s, order, del, plan0);
  }

  lemma RootAligned(s: State, root: Extent)
    requires Formatted(s) && Whole(s.unit, root)
    ensures SpaceAligned(s.unit, SpaceOf(WithRoot(s, root)))
  {
    hide Take, Aligned, WellFormed;
    TakeAligned(s.unit, SpaceOf(s), root);
  }

  /** Starting a checkpoint and giving it up leaves everything as it was; starting one while another
      is under way is fatal. */
  lemma StartAndGiveUp(s: State, failed: bool)
    requires s.phase == Idle
    ensures Start(s).phase == InProgress && Resolve(Start(s), failed) == s && Start(Start(s)).phase == Panicked
  {
  }

  /** What later checkpoints do not change of a checkpoint: all but its alloc and discard lists, in which it
      takes in deleted ones, and where these are written. */
  ghost function Lasting(c: Ckpt): Ckpt {
    c.(alloc := {}, discard := {}, allocAt := NOWHERE, discardAt := NOWHERE, update := false)
  }

  ghost function AllLasting(cs: seq<Ckpt>): seq<Ckpt> {
    seq(|cs|, i requires 0 <= i < |cs| => Lasting(cs[i]))
  }

  /** Some checkpoints are those of others that are not to be deleted, and a new one. */
  ghost predicate Succeeds(cs: seq<Ckpt>, cs': seq<Ckpt>, del: seq<bool>, order: nat, root: Extent, rootSum: nat)
    requires |del| == |cs|
  {
    && cs' != []
    && var c := cs'[|cs'| - 1];
       && AllLasting(cs'[..|cs'| - 1]) == Pick(AllLasting(cs), del)
       && c.order == order && c.root == root && c.rootSum == rootSum
  }

  lemma {:induction false} RollLasting(cs: seq<Ckpt>, del: seq<bool>)
    requires |cs| == |del| > 0 && !del[|del| - 1]
    ensures AllLasting(Roll(cs, del).cs) == Pick(AllLasting(cs), del)
    decreases |cs|
  {
    hide Ext, Both, Rewritten, Span;
    var all := AllLasting(cs);
    assert all[1..] == AllLasting(cs[1..]);
    if |cs| == 1 {
      assert Pick(all[1..], del[1..]) == [];
    } else if !del[0] {
      RollLasting(cs[1..], del[1..]);
      var r := Roll(cs[1..], del[1..]).cs;
      assert AllLasting([cs[0]] + r) == [Lasting(cs[0])] + AllLasting(r);
    } else {
      var m := MergeInto(cs[0], cs[1]);
      var t := if del[1] then m else if |cs| == 2 then Reconciled(m) else Stale(Reconciled(m));
      assert Lasting(t) == Lasting(cs[1]);
      RollLasting([t] + cs[2..], del[1..]);
      assert AllLasting([t] + cs[2..]) == all[1..];
    }
  }

  lemma {:induction false} RewriteLasting(cs: seq<Ckpt>, k: nat, lists: seq<(Extent, Extent)>, sp: Space)
    requires k <= |cs| && k <= |lists|
    ensures AllLasting(Rewrite(cs, k, lists, sp).0) == AllLasting(cs)
  {
    hide Take;
    if k > 0 {
      RewriteLasting(cs, k - 1, lists, sp);
      var ds := Rewrite(cs, k - 1, lists, sp).0;
      var c := Rewrote(cs[k - 1], lists[k - 1]);
      assert AllLasting(ds[k - 1 := c]) == AllLasting(ds)[k - 1 := Lasting(c)];
      assert AllLasting(cs)[k - 1] == Lasting(cs[k - 1]) == Lasting(c);
    }
  }

  /** A checkpoint leaves those it does not delete as they are, but for their lists, and adds the new one. */
  lemma CheckpointSucceeds(s: State, order: nat, del: seq<bool>, plan: Plan)
    requires Inv(s) && s.phase == InProgress && PlanOk(s, order, del, plan)
    ensures Succeeds(s.cur, Checkpoint(s, order, del, plan).cur, del, order, plan.root, plan.rootSum)
  {
    hide CanTake, Take, CanRewrite, Rewrite, Trim, Roll, Base, Uses, Inv, Conserved, Chain, Apart, Pick, WithRoot;
    BeforeFinish(s, order, del, plan);
    var live := NewCkpt(WithRoot(s, plan.root), order, plan.root);
    var r, cs := Deleted(s, order, del, plan).cs, Updated(s, order, del, plan).0;
    RollLasting(s.cur + [live], del + [false]);
    RewriteLasting(r, |r|, plan.lists, SpaceOf(WithRoot(s, plan.root)));
    assert AllLasting(s.cur + [live]) == AllLasting(s.cur) + [Lasting(live)];
    PickLast(AllLasting(s.cur), Lasting(live), del);
    var n := |cs| - 1;
    assert AllLasting(cs)[..n] == AllLasting(cs[..n]);
    var cur := Checkpoint(s, order, del, plan).cur;
    assert cur[..|cur| - 1] == cs[..n];
  }

  /** The steps of a checkpoint. */
  ghost function Taking(order: nat, del: seq<bool>, plan: Plan): seq<Step> {
    [DoStart, DoCheckpoint(order, del, plan), DoSave, DoResolve(false)]
  }

  /** Steps lead from each state to the next. */
  ghost predicate Follow(ss: seq<State>, steps: seq<Step>) {
    && |ss| == |steps| + 1
    && forall i | 0 <= i < |steps| :: Enabled(ss[i], steps[i]) && ss[i + 1] == Apply(ss[i], steps[i])
  }

  lemma Followed(s: State, order: nat, del: seq<bool>, plan: Plan)
    requires Inv(s) && s.phase == Idle && PlanOk(Start(s), order, del, plan) && order !in Orders(s.cur)
    requires CanTake(SpaceOf(s), plan.root)
    ensures var t2 := Checkpoint(Start(s), order, del, plan);
            var t3 := t2.(durable := t2.cur);
            Follow([s, Start(s), t2, t3, Resolve(t3, false)], Taking(order, del, plan))
  {
    hide Inv, PlanOk, Orders, CanTake, Take, Trim, Roll, Rewrite, CanRewrite, Finished;
  }

  /** From every idle state a checkpoint can be taken: it is started, written, saved and resolved. The
      durable checkpoints are then those that were not to be deleted, each referencing what it did, and
      the new one, which references what the live tree does and its root page; the live tree is as it
      was, and what the deletions freed is available. */
  lemma TakeCheckpoint(s: State, order: nat, del: seq<bool>, root: Extent, rootSum: nat)
    returns (ts: seq<State>, plan: Plan)
    requires Inv(s) && Formatted(s) && s.phase == Idle && order !in Orders(s.cur) && |del| == |s.cur|
    requires CanTake(SpaceOf(s), root) && Whole(s.unit, root)
    ensures |ts| == 5 && ts[0] == s && plan.root == root && WholePlan(s.unit, plan) && s.cur == s.durable
    ensures Succeeds(s.durable, ts[4].durable, del, order, root, rootSum)
    ensures Follow(ts, Taking(order, del, plan))
    ensures ts[4].phase == Idle && order in Orders(ts[4].durable)
    ensures Uses({}, ts[4].durable)
         == Pick(Uses({}, s.durable) + [(order, LiveUses(s) + Span(root))], del + [false])
    ensures LiveUses(ts[4]) == LiveUses(s) && ts[4].ckptAvail == {}
    ensures Range(s.unit, ts[4].size) - (Protected(ts[4].durable) + LiveUses(ts[4])) == ts[4].avail
  {
    hide Inv, Formatted, PlanOk, Checkpoint, Orders, Uses, Pick, Span, CanTake, Take, Base, Range, Protected, Whole;
    hide Succeeds, Follow;
    var t1 := Start(s);
    InvStart(s);
    StartFormatted(s);
    plan := PlanExists(t1, order, del, root, rootSum);
    var t2 := Checkpoint(t1, order, del, plan);
    CheckpointTaken(t1, order, del, plan);
    CheckpointSucceeds(t1, order, del, plan);
    var t3 := t2.(durable := t2.cur);
    InvSave(t2);
    var t4 := Resolve(t3, false);
    InvResolve(t3, false);
    ts := [s, t1, t2, t3, t4];
    Followed(s, order, del, plan);
    SameStart(s);
    RootFresh(s, root);
    FreeExactly(t4);
    assert LiveUses(t4) == LiveUses(t2);
  }

  lemma StartFormatted(s: State)
    requires Formatted(s)
    ensures Formatted(Start(s))
  {
  }

  lemma SameStart(s: State)
    requires Inv(s) && s.phase == Idle
    ensures s.cur == s.durable && Start(s).phase == InProgress
    ensures LiveUses(Start(s)) == LiveUses(s)
    ensures forall root :: LiveUses(WithRoot(Start(s), root)) == LiveUses(WithRoot(s, root))
  {
  }

  lemma CheckpointTaken(s: State, order: nat, del: seq<bool>, plan: Plan)
    requires Inv(s) && s.phase == InProgress && PlanOk(s, order, del, plan) && order !in Orders(s.cur)
    ensures var s' := Checkpoint(s, order, del, plan);
            && Inv(s') && s'.phase == PanicOnFailure && order in Orders(s'.cur) && s'.unit == s.unit
            && Uses({}, s'.cur) == Pick(Uses({}, s.cur) + [(order, LiveUses(WithRoot(s, plan.root)))], del + [false])
            && LiveUses(s') == LiveUses(s)
  {
    InvCheckpoint(s, order, del, plan);
    LiveAfter(s, order, del, plan);
    NewOrder(s, order, del, plan);
    hide CanTake, Take, CanRewrite, Rewrite, Trim, Roll, Uses, Span, Inv, Orders, PlanOk, Pick, Base;
  }

  lemma NewOrder(s: State, order: nat, del: seq<bool>, plan: Plan)
    requires Inv(s) && s.phase == InProgress && PlanOk(s, order, del, plan)
    ensures order in Orders(Checkpoint(s, order, del, plan).cur)
  {
    hide CanTake, Take, CanRewrite, Rewrite, Trim, Roll, Base, Uses, Inv, Conserved, Chain, Apart, Pick;
    BeforeFinish(s, order, del, plan);
    var cs := Checkpoint(s, order, del, plan).cur;
    assert cs[|cs| - 1].order == order;
  }

  /** Over whole runs: from every reachable idle state the four steps of a checkpoint can be taken, and
      the run goes on from there. */
  lemma CheckpointsHappen(unit: nat, ss: seq<State>, steps: seq<Step>, order: nat, del: seq<bool>, root: Extent,
                          rootSum: nat)
    returns (ss': seq<State>, plan: Plan)
    requires Run(unit, ss, steps) && forall j | 0 <= j < |steps| :: WholeStep(unit, steps[j])
    requires var s := ss[|steps|];
             && s.phase == Idle && order !in Orders(s.cur) && |del| == |s.cur|
             && CanTake(SpaceOf(s), root) && Whole(unit, root)
    ensures Run(unit, ss', steps + Taking(order, del, plan)) && ss <= ss'
    ensures WholePlan(unit, plan) && plan.root == root && ss[|steps|].cur == ss[|steps|].durable
    ensures var s, s' := ss[|steps|], ss'[|steps| + 4];
            && s'.phase == Idle && order in Orders(s'.durable) && LiveUses(s') == LiveUses(s)
            && Uses({}, s'.durable) == Pick(Uses({}, s.durable) + [(order, LiveUses(s) + Span(root))], del + [false])
            && Succeeds(s.durable, s'.durable, del, order, root, rootSum)
  {
    hide Succeeds, Inv, Formatted, Apply, Enabled, WholeStep, Orders, Uses, Pick, LiveUses, Span, CanTake, Whole;
    hide WholePlan;
    RunInv(unit, ss, steps, |steps|);
    RunFormatted(unit, ss, steps, |steps|);
    var ts;
    ts, plan := TakeCheckpoint(ss[|steps|], order, del, root, rootSum);
    ss' := ss + ts[1..];
    var steps' := steps + Taking(order, del, plan);
    forall i | 0 <= i < |steps'| ensures Enabled(ss'[i], steps'[i]) && ss'[i + 1] == Apply(ss'[i], steps'[i]) {
      if i < |steps| {
        assert ss'[i] == ss[i] && ss'[i + 1] == ss[i + 1] && steps'[i] == steps[i];
      } else {
        var k := i - |steps|;
        assert ss'[i] == ts[k] && ss'[i + 1] == ts[k + 1] && steps'[i] == Taking(order, del, plan)[k];
      }
    }
  }

  /** Whatever has happened, opening the file again leads to an idle state with the durable checkpoints. */
  lemma AlwaysRecovers(unit: nat, ss: seq<State>, steps: seq<Step>)
    requires Run(unit, ss, steps)
    ensures var s := ss[|steps|];
            && Run(unit, ss + [Load(unit, s.durable)], steps + [DoCrash])
            && Load(unit, s.durable).phase == Idle && Load(unit, s.durable).durable == s.durable
  {
    hide Inv, Enabled, Load;
    RunInv(unit, ss, steps, |steps|);
    var s := ss[|steps|];
    Crashes(s);
    var ss', steps' := ss + [Load(unit, s.durable)], steps + [DoCrash];
    forall i | 0 <= i < |steps'| ensures Enabled(ss'[i], steps'[i]) && ss'[i + 1] == Apply(ss'[i], steps'[i]) {
      if i < |steps| {
        assert ss'[i] == ss[i] && ss'[i + 1] == ss[i + 1] && steps'[i] == steps[i];
      }
    }
  }

  lemma Crashes(s: State)
    ensures Enabled(s, DoCrash) && Apply(s, DoCrash) == Load(s.unit, s.durable)
    ensures Load(s.unit, s.durable).phase == Idle && Load(s.unit, s.durable).durable == s.durable
  {
  }
}
