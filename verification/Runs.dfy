/** What the checkpoint protocol guarantees over whole runs, crashes included. */
module Runs {
  import opened Extents
  import opened Checkpoints
  import opened Protocol
  import opened Safety

  lemma InvStep(s: State, step: Step)
    requires Inv(s) && Enabled(s, step)
    ensures Inv(Apply(s, step))
  {
    hide Checkpoint, PlanOk, CanTake, Take, Freeable, Load, Listed, Conserved, Base, Protected, Agree;
    match step
    case DoAlloc(at) => InvAlloc(s, at);
    case DoFree(at) => InvFree(s, at);
    case DoStart => InvStart(s);
    case DoCheckpoint(order, del, plan) =>
      if s.phase == InProgress {
        InvCheckpoint(s, order, del, plan);
      } else if s.phase != Panicked {
        InvRefused(s, plan.root);
      }
    case DoFail(_) =>
    case DoSave => InvSave(s);
    case DoResolve(failed) => InvResolve(s, failed);
    case DoCrash => InvLoad(s.unit, s.durable);
  }

  /** A run from a new file: any steps, in any order, as long as each is enabled. */
  ghost predicate Run(unit: nat, ss: seq<State>, steps: seq<Step>) {
    && 0 < unit && |ss| == |steps| + 1 && ss[0] == Load(unit, [])
    && forall i | 0 <= i < |steps| :: Enabled(ss[i], steps[i]) && ss[i + 1] == Apply(ss[i], steps[i])
  }

  lemma {:induction false} RunInv(unit: nat, ss: seq<State>, steps: seq<Step>, i: nat)
    requires Run(unit, ss, steps) && i < |ss|
    ensures Inv(ss[i]) && ss[i].unit == unit
  {
    hide Inv, Apply, Enabled;
    if i == 0 {
      NewFile(unit);
    } else {
      RunInv(unit, ss, steps, i - 1);
      assert Enabled(ss[i - 1], steps[i - 1]) && ss[i] == Apply(ss[i - 1], steps[i - 1]);
      InvStep(ss[i - 1], steps[i - 1]);
      UnitStays(ss[i - 1], steps[i - 1]);
    }
  }

  lemma NewFile(unit: nat)
    requires 0 < unit
    ensures Inv(Load(unit, [])) && Load(unit, []).unit == unit
  {
  }

  lemma UnitStays(s: State, step: Step)
    requires Enabled(s, step)
    ensures Apply(s, step).unit == s.unit
  {
  }

  // ---- Nothing a durable checkpoint needs can be allocated ----

  /** In every reachable state nothing available, and nothing the live system has allocated since
      its last checkpoint, is referenced by a checkpoint listed in stable storage or holds its lists;
      and so it is for the state a crash leads to. */
  lemma NothingDurableIsAvailable(unit: nat, ss: seq<State>, steps: seq<Step>, i: nat)
    requires Run(unit, ss, steps) && i < |ss|
    ensures ss[i].avail + ss[i].alloc !! Protected(ss[i].durable)
    ensures Load(unit, ss[i].durable).avail !! Protected(ss[i].durable)
  {
    RunInv(unit, ss, steps, i);
    InvLoad(unit, ss[i].durable);
  }

  /** Space is free exactly when nothing references it: no byte past the description leaks, and none
      is in two places. */
  lemma FreeIffUnreferenced(unit: nat, ss: seq<State>, steps: seq<Step>, i: nat)
    requires Run(unit, ss, steps) && i < |ss|
    ensures var s := ss[i];
            && Range(unit, s.size) - (Protected(s.cur) + LiveUses(s)) == s.avail + s.ckptAvail
            && s.avail !! s.ckptAvail
            && Allocs(s.cur) + s.alloc !! Exts(s.cur)
  {
    hide Inv, Run, Protected, LiveUses, Range, Allocs, Exts;
    RunInv(unit, ss, steps, i);
    FreeExactly(ss[i]);
  }

  lemma FreeExactly(s: State)
    requires Inv(s)
    ensures Range(s.unit, s.size) - (Protected(s.cur) + LiveUses(s)) == s.avail + s.ckptAvail
    ensures s.avail !! s.ckptAvail && Allocs(s.cur) + s.alloc !! Exts(s.cur)
  {
    hide Inv, Protected, Range, Base, Allocs, Exts;
    CurProtected(s);
    CurFacts(s);
    assert LiveUses(s) + Allocs(s.cur) == s.alloc + Allocs(s.cur);
  }

  /** ckpt_avail holds something only between a checkpoint and its resolution; a checkpoint that is
      allowed to start finds it empty, and resolving one moves it into avail. */
  lemma CkptAvailOnlyPending(unit: nat, ss: seq<State>, steps: seq<Step>, i: nat)
    requires Run(unit, ss, steps) && i < |ss|
    ensures ss[i].phase.Idle? || ss[i].phase.InProgress? ==> ss[i].ckptAvail == {}
    ensures i < |steps| && steps[i] == DoResolve(false) && ss[i].phase == PanicOnFailure ==>
              && ss[i + 1].avail == ss[i].avail + ss[i].ckptAvail
              && ss[i].avail !! ss[i].ckptAvail && ss[i + 1].ckptAvail == {}
  {
    RunInv(unit, ss, steps, i);
  }

  /** The lists of different checkpoints never overlap, in the durable list and in the pending one. */
  lemma ListsStayApart(unit: nat, ss: seq<State>, steps: seq<Step>, i: nat, k: nat)
    requires Run(unit, ss, steps) && i < |ss| && k < |ss[i].cur|
    ensures var cs := ss[i].cur;
            && cs[k].alloc !! Allocs(cs[..k]) && cs[k].discard !! Discards(cs[..k])
            && cs[k].discard <= Allocs(cs[..k])
            && (k == 0 ==> cs[k].discard == {})
  {
    RunInv(unit, ss, steps, i);
    CurFacts(ss[i]);
    ListsApart(ss[i].cur, k);
  }

  /** The rolling checkpoint size always counts exactly what the checkpoints hand on to the live
      system, and the size reported for a new checkpoint what that checkpoint references. */
  lemma SizesAreExact(unit: nat, ss: seq<State>, steps: seq<Step>, i: nat)
    requires Run(unit, ss, steps) && i < |steps|
    ensures ss[i].ckptSize == |Base({}, ss[i].cur)|
    ensures steps[i].DoCheckpoint? && ss[i].phase == InProgress ==>
              var root := steps[i].plan.root;
              var cs := ss[i + 1].cur;
              && Uses({}, cs)[|cs| - 1] == (steps[i].order, LiveUses(WithRoot(ss[i], root)))
              && NewSize(ss[i], root) == |LiveUses(WithRoot(ss[i], root))|
              && ss[i + 1].ckptSize == NewSize(ss[i], root) - root.size
  {
    RunInv(unit, ss, steps, i);
    var s, step := ss[i], steps[i];
    assert Enabled(s, step) && ss[i + 1] == Apply(s, step);
    if step.DoCheckpoint? && s.phase == InProgress {
      NewSizesExact(s, step.order, step.del, step.plan);
    }
  }

  lemma NewSizesExact(s: State, order: nat, del: seq<bool>, plan: Plan)
    requires Inv(s) && s.phase == InProgress && PlanOk(s, order, del, plan) && order !in Orders(s.cur)
    ensures var s' := Checkpoint(s, order, del, plan);
            && s'.cur != []
            && Uses({}, s'.cur)[|s'.cur| - 1] == (order, LiveUses(WithRoot(s, plan.root)))
            && NewSize(s, plan.root) == |LiveUses(WithRoot(s, plan.root))|
            && s'.ckptSize == NewSize(s, plan.root) - plan.root.size
  {
    hide CanTake, Take, CanRewrite, Rewrite, Trim, Roll, Chain, Base, Uses, Span, Range, Conserved;
    hide Protected, Distinct, Orders, Agree, Inv, Pick;
    BeforeFinish(s, order, del, plan);
    RootTaken(s, plan.root);
    InvCheckpoint(s, order, del, plan);
    var r := Deleted(s, order, del, plan);
    var (cs, sp1) := Updated(s, order, del, plan);
    NewSizeIs(s, plan.root, cs, Trim(sp1), r.freed);
    PickLast(Uses({}, s.cur), (order, LiveUses(WithRoot(s, plan.root))), del);
  }

  lemma {:induction false} PickLast<T>(u: seq<T>, last: T, del: seq<bool>)
    requires |u| == |del|
    ensures Pick(u + [last], del + [false]) == Pick(u, del) + [last]
  {
    if u == [] {
      assert u + [last] == [last];
    } else {
      assert (u + [last])[1..] == u[1..] + [last] && (del + [false])[1..] == del[1..] + [false];
      PickLast(u[1..], last, del[1..]);
    }
  }

  // ---- Checkpoints keep their contents ----

  /** The blocks written for rewritten lists, among the first k entries. */
  ghost function Rewrites(cs: seq<Ckpt>, k: nat, lists: seq<(Extent, Extent)>): set<int>
    requires k <= |cs| && k <= |lists|
  {
    if k == 0 then {} else
    Rewrites(cs, k - 1, lists)
    + (if cs[k - 1].update then Span(lists[k - 1].0) + Span(lists[k - 1].1) else {})
  }

  /** The bytes of the file a step writes. */
  ghost function Writes(s: State, step: Step): set<int>
    requires Enabled(s, step)
  {
    match step
    case DoAlloc(at) => Span(at)
    case DoCheckpoint(order, del, plan) =>
      if s.phase == Panicked then {} else if s.phase != InProgress then Span(plan.root) else
      Span(plan.root) + Rewrites(Deleted(s, order, del, plan).cs, |plan.lists|, plan.lists)
      + Span(plan.alloc) + Span(plan.discard) + Span(plan.avail)
    case DoFail(writes) => writes
    case _ => {}
  }

  /** A run with the contents of the file: a step changes only bytes it writes, and keeps no byte
      past the new end of the file. */
  ghost predicate Disk(ss: seq<State>, steps: seq<Step>, disk: seq<int -> int>)
    requires |ss| == |steps| + 1
    requires forall i | 0 <= i < |steps| :: Enabled(ss[i], steps[i])
  {
    && |disk| == |ss|
    && forall i, x | 0 <= i < |steps| && x !in Writes(ss[i], steps[i]) && x < ss[i + 1].size ::
         disk[i + 1](x) == disk[i](x)
  }

  /** A checkpoint listed in stable storage and the bytes it references. */
  ghost predicate Logged(s: State, order: nat, used: set<int>) {
    exists k :: 0 <= k < |s.durable| && Uses({}, s.durable)[k] == (order, used)
  }

  /** An intermediate space of a checkpoint: whatever can be taken from it is fresh. */
  ghost predicate Fresher(s: State, sp: Space) {
    sp.avail <= s.avail && forall x | sp.size <= x < s.size :: x in s.avail
  }

  lemma TakesFresh(s: State, sp: Space, at: Extent)
    requires Fresher(s, sp) && CanTake(sp, at)
    ensures Fresh(s, Span(at)) && Fresher(s, Take(sp, at))
  {
  }

  lemma {:induction false} RewritesFresh(s: State, cs: seq<Ckpt>, k: nat, lists: seq<(Extent, Extent)>, sp: Space)
    requires k <= |cs| && k <= |lists| && CanRewrite(cs, k, lists, sp) && Fresher(s, sp)
    ensures Fresh(s, Rewrites(cs, k, lists)) && Fresher(s, Rewrite(cs, k, lists, sp).1)
  {
    hide CanTake, Take, Span, Fresher;
    if k > 0 {
      RewritesFresh(s, cs, k - 1, lists, sp);
      if cs[k - 1].update {
        var sp1 := Rewrite(cs, k - 1, lists, sp).1;
        TakesFresh(s, sp1, lists[k - 1].0);
        TakesFresh(s, Take(sp1, lists[k - 1].0), lists[k - 1].1);
      }
    }
  }

  lemma {:induction false} TrimInside(s: State, sp: Space)
    requires Fresher(s, sp)
    ensures Fresher(s, Trim(sp))
    decreases sp.size
  {
    if sp.size > 0 && sp.size - 1 in sp.avail {
      TrimInside(s, Space(sp.avail - {sp.size - 1}, sp.size - 1));
    }
  }

  lemma CheckpointWritesFresh(s: State, order: nat, del: seq<bool>, plan: Plan)
    requires PlanOk(s, order, del, plan)
    ensures Fresh(s, Span(plan.root) + Rewrites(Deleted(s, order, del, plan).cs, |plan.lists|, plan.lists)
                     + Span(plan.alloc) + Span(plan.discard) + Span(plan.avail))
  {
    hide CanTake, Take, Span, Trim, Rewrite, CanRewrite, Roll, Rewrites;
    var sp := SpaceOf(s);
    TakesFresh(s, sp, plan.root);
    RootInside(s, plan.root);
    var sp0 := SpaceOf(WithRoot(s, plan.root));
    var r := Deleted(s, order, del, plan);
    RewritesFresh(s, r.cs, |r.cs|, plan.lists, sp0);
    var (cs, sp1) := Rewrite(r.cs, |r.cs|, plan.lists, sp0);
    TrimInside(s, sp1);
    var sp2 := Trim(sp1);
    TakesFresh(s, sp2, plan.alloc);
    TakesFresh(s, Take(sp2, plan.alloc), plan.discard);
    TakesFresh(s, Take(Take(sp2, plan.alloc), plan.discard), plan.avail);
  }

  lemma RootInside(s: State, root: Extent)
    requires CanTake(SpaceOf(s), root)
    ensures Fresher(s, SpaceOf(WithRoot(s, root)))
  {
  }

  /** No step writes a byte a durable checkpoint needs, and none cuts one off the file. */
  lemma WritesAvoidDurable(s: State, step: Step)
    requires Inv(s) && Enabled(s, step)
    ensures Writes(s, step) !! Protected(s.durable)
    ensures Protected(s.durable) <= Range(s.unit, Apply(s, step).size)
  {
    hide Listed, Conserved, Base, Agree, Protected, Checkpoint, PlanOk, CanTake, Take, Rewrites;
    match step {
      case DoAlloc(at) =>
        TakesFresh(s, SpaceOf(s), at);
      case DoCheckpoint(order, del, plan) =>
        if s.phase == InProgress {
          CheckpointWritesFresh(s, order, del, plan);
        } else if s.phase != Panicked {
          TakesFresh(s, SpaceOf(s), plan.root);
        }
      case _ =>
    }
    var w := Writes(s, step);
    assert Fresh(s, w);
    InvStep(s, step);
    if step != DoSave {
      DurableStays(s, step);
      UnitStays(s, step);
    }
  }

  lemma DurableStays(s: State, step: Step)
    requires Enabled(s, step) && step != DoSave
    ensures Apply(s, step).durable == s.durable
  {
  }

  lemma LoggedStays(s: State, step: Step, order: nat, used: set<int>)
    requires Inv(s) && Enabled(s, step) && Logged(s, order, used)
    requires order in Orders(Apply(s, step).durable)
    ensures Logged(Apply(s, step), order, used)
  {
    hide Listed, Conserved, Base, Protected, Checkpoint, PlanOk, CanTake, Take, Uses;
    if step == DoSave {
      var k :| 0 <= k < |s.durable| && Uses({}, s.durable)[k] == (order, used);
      var j :| 0 <= j < |s.cur| && s.cur[j].order == order;
      UsesOrders({}, s.cur, j);
      assert Uses({}, s.cur)[j] == (order, used);
    } else {
      DurableStays(s, step);
    }
  }

  lemma LoggedProtected(s: State, order: nat, used: set<int>)
    requires Logged(s, order, used)
    ensures used <= Protected(s.durable)
  {
    var k :| 0 <= k < |s.durable| && Uses({}, s.durable)[k] == (order, used);
    UsedBy({}, s.durable, k);
  }

  lemma {:induction false} UsedBy(base: set<int>, cs: seq<Ckpt>, k: nat)
    requires k < |cs|
    ensures Uses(base, cs)[k].1 <= Used(base, cs)
    decreases |cs|
  {
    if k > 0 {
      UsedBy(HandsOn(base, cs[0]), cs[1..], k - 1);
    }
  }

  /** A checkpoint listed in stable storage keeps what it references, byte set and contents, for as
      long as it stays listed there: through allocation, frees, other checkpoints coming and going,
      and crashes at any point. */
  lemma {:induction false} CheckpointsSurvive(unit: nat, ss: seq<State>, steps: seq<Step>, disk: seq<int -> int>,
                                              i: nat, j: nat, order: nat, used: set<int>)
    requires Run(unit, ss, steps) && Disk(ss, steps, disk) && i <= j < |ss|
    requires Logged(ss[i], order, used)
    requires forall m | i <= m <= j :: order in Orders(ss[m].durable)
    ensures Logged(ss[j], order, used)
    ensures forall x | x in used :: disk[j](x) == disk[i](x)
    decreases j - i
  {
    hide Inv, Logged, Orders, Apply, Enabled, Writes;
    if i < j {
      CheckpointsSurvive(unit, ss, steps, disk, i, j - 1, order, used);
      var s, step := ss[j - 1], steps[j - 1];
      assert Enabled(s, step) && ss[j] == Apply(s, step);
      RunInv(unit, ss, steps, j - 1);
      LoggedStays(s, step, order, used);
      WritesAvoidDurable(s, step);
      LoggedProtected(s, order, used);
      forall x | x in used ensures disk[j](x) == disk[j - 1](x) {
        assert x in Range(s.unit, ss[j].size) && x !in Writes(s, step);
        assert ss[j] == ss[j - 1 + 1];
      }
    }
  }
}
