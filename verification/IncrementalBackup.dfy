/** Incremental backup: copying the granules marked since a backup brings that backup up to the last
checkpoint. */
module IncrementalBackup {
  import opened Extents
  import opened Checkpoints
  import opened Protocol
  import opened Safety
  import opened Runs
  import opened BackupBitmap

  /** The granules marked with the checkpoints the live system continues from, and with those of
      stable storage: a bitmap is saved in the metadata with its checkpoint. */
  datatype Marks = Marks(cur: set<int>, durable: set<int>)

  /** What is recorded for the checkpoints that are rewritten, among the first k entries: the blocks of
      all their lists, the avail list, which stays where it is, included. */
  ghost function RewriteRecords(cs: seq<Ckpt>, k: nat, lists: seq<(Extent, Extent)>): set<int>
    requires k <= |cs| && k <= |lists|
  {
    if k == 0 then {} else
    RewriteRecords(cs, k - 1, lists)
    + (if cs[k - 1].update then Span(lists[k - 1].0) + Span(lists[k - 1].1) + Span(cs[k - 1].availAt) else {})
  }

  /** What a checkpoint records: the blocks allocated since the last one, its root page among them,
      before anything is merged into them; then the blocks of the lists that are written. */
  ghost function Records(s: State, order: nat, del: seq<bool>, plan: Plan): set<int>
    requires PlanOk(s, order, del, plan)
  {
    WithRoot(s, plan.root).alloc + RewriteRecords(Deleted(s, order, del, plan).cs, |plan.lists|, plan.lists)
    + (Span(plan.alloc) + Span(plan.discard) + Span(plan.avail))
  }

  ghost function Track(m: Marks, s: State, step: Step, g: nat): Marks
    requires Enabled(s, step) && 0 < g
  {
    match step
    case DoCheckpoint(order, del, plan) =>
      if s.phase == InProgress then m.(cur := m.cur + Granules(Records(s, order, del, plan), g)) else m
    case DoSave => m.(durable := m.cur)
    case DoCrash => m.(cur := m.durable)
    case _ => m
  }

  /** What opening a file at the last of some checkpoints needs: its blocks and those of its lists. */
  ghost function Needs(cs: seq<Ckpt>): set<int> {
    if cs == [] then {} else Uses({}, cs)[|cs| - 1].1 + Ext(cs[|cs| - 1])
  }

  /** An image agrees with the file on needed bytes, as far as their granules are not marked. */
  ghost predicate Covered(disk: int -> int, image: int -> int, needs: set<int>, marks: set<int>, g: nat)
    requires 0 < g
  {
    forall x | x in needs && x / g !in marks :: image(x) == disk(x)
  }

  ghost predicate Tracked(s: State, m: Marks, disk: int -> int, image: int -> int, g: nat)
    requires 0 < g
  {
    Covered(disk, image, Needs(s.durable), m.durable, g) && Covered(disk, image, Needs(s.cur), m.cur, g)
  }

  lemma NeedsProtected(cs: seq<Ckpt>)
    ensures Needs(cs) <= Protected(cs)
  {
    if cs != [] {
      UsedBy({}, cs, |cs| - 1);
      ExtIn(cs, |cs| - 1);
    }
  }

  lemma {:induction false} BaseInLast(base: set<int>, cs: seq<Ckpt>)
    requires cs != []
    ensures Base(base, cs) <= Uses(base, cs)[|cs| - 1].1
    decreases |cs|
  {
    if |cs| > 1 {
      BaseInLast(HandsOn(base, cs[0]), cs[1..]);
    }
  }

  /** Everything new in a checkpoint is recorded: what it needs beyond what the last one needed. */
  lemma NewIsRecorded(s: State, order: nat, del: seq<bool>, plan: Plan)
    requires Inv(s) && s.phase == InProgress && PlanOk(s, order, del, plan) && order !in Orders(s.cur)
    ensures Needs(Checkpoint(s, order, del, plan).cur) - Needs(s.cur) <= Records(s, order, del, plan)
  {
    hide CanTake, Take, CanRewrite, Rewrite, Trim, Roll, Inv, Uses, Base, PlanOk, Orders, Span, RewriteRecords;
    NewSizesExact(s, order, del, plan);
    if s.cur != [] {
      BaseInLast({}, s.cur);
    } else {
      NoBase();
    }
    SameDiscard(s, plan.root);
  }

  lemma NoBase()
    ensures Base({}, []) == {}
  {
  }

  lemma SameDiscard(s: State, root: Extent)
    ensures WithRoot(s, root).cur == s.cur
  {
  }

  lemma NeedsInFile(s: State)
    requires Inv(s)
    ensures Needs(s.durable) + Needs(s.cur) !! s.avail && Needs(s.durable) + Needs(s.cur) <= Range(s.unit, s.size)
  {
    NeedsProtected(s.durable);
    NeedsProtected(s.cur);
    hide Needs, Base, Agree, Listed, Conserved;
    CurProtected(s);
    SpaceOut(s);
  }

  /** Whatever can be written is needed by no checkpoint. */
  lemma FreshAvoids(s: State, block: set<int>)
    requires Inv(s) && Fresh(s, block)
    ensures block !! Needs(s.durable) && block !! Needs(s.cur)
  {
    hide Inv, Needs;
    NeedsInFile(s);
  }

  lemma WritesFresh(s: State, step: Step)
    requires Inv(s) && Enabled(s, step)
    ensures Fresh(s, Writes(s, step))
  {
    hide Checkpoint, PlanOk, CanTake, Take, Rewrites, Inv;
    match step {
      case DoAlloc(at) =>
        TakesFresh(s, SpaceOf(s), at);
      case DoCheckpoint(order, del, plan) =>
        if s.phase == InProgress {
          CheckpointWritesFresh(s, order, del, plan);
        } else if s.phase != Panicked {
          TakesFresh(s, SpaceOf(s), plan.root);
        }
      case _ =>
    }
  }

  /** Needed by a checkpoint of the next state and not marked: needed by one of this state before. */
  lemma NeededBefore(s: State, step: Step, m: Marks, g: nat)
    requires Inv(s) && Enabled(s, step) && 0 < g
    ensures var s', m' := Apply(s, step), Track(m, s, step, g);
            && (if step.DoSave? then Needs(s'.durable) == Needs(s.cur) && m'.durable == m.cur
                else Needs(s'.durable) == Needs(s.durable) && m'.durable == m.durable)
            && (if step.DoCrash? then Needs(s'.cur) == Needs(s.durable) && m'.cur == m.durable
                else m.cur <= m'.cur && forall x | x in Needs(s'.cur) && x / g !in m'.cur :: x in Needs(s.cur))
  {
    hide PlanOk, CanTake, Take, Freeable, Roll, Rewrite, Trim, Needs, Inv, Records;
    match step {
      case DoCheckpoint(order, del, plan) =>
        if s.phase == InProgress {
          NewIsRecorded(s, order, del, plan);
          var bytes := Records(s, order, del, plan);
          assert forall x | x in bytes :: x / g in Granules(bytes, g);
        }
      case _ =>
    }
  }

  lemma TrackedStep(s: State, step: Step, m: Marks, disk: int -> int, disk': int -> int, image: int -> int, g: nat)
    requires Inv(s) && Enabled(s, step) && 0 < g && Tracked(s, m, disk, image, g)
    requires forall x | x !in Writes(s, step) && x < Apply(s, step).size :: disk'(x) == disk(x)
    ensures Tracked(Apply(s, step), Track(m, s, step, g), disk', image, g)
  {
    hide Inv, Needs, Writes, Apply, Enabled, Track;
    InvStep(s, step);
    NeedsInFile(Apply(s, step));
    WritesFresh(s, step);
    FreshAvoids(s, Writes(s, step));
    NeededBefore(s, step, m, g);
  }

  /** The bitmaps over a run, starting empty at an idle state whose durable checkpoint an image
      holds. */
  ghost predicate Marking(ss: seq<State>, steps: seq<Step>, marks: seq<Marks>, g: nat, from: nat)
    requires |ss| == |steps| + 1 && forall i | 0 <= i < |steps| :: Enabled(ss[i], steps[i])
  {
    && 0 < g && from < |ss| == |marks| && marks[from] == Marks({}, {})
    && forall k | from <= k < |steps| :: marks[k + 1] == Track(marks[k], ss[k], steps[k], g)
  }

  ghost predicate Holds(image: int -> int, disk: int -> int, needs: set<int>) {
    forall x | x in needs :: image(x) == disk(x)
  }

  lemma TrackedFirst(unit: nat, ss: seq<State>, steps: seq<Step>, i: nat, m: Marks, disk: int -> int,
                     image: int -> int, g: nat)
    requires Run(unit, ss, steps) && i < |ss| && 0 < g
    requires ss[i].phase == Idle && Holds(image, disk, Needs(ss[i].durable))
    ensures Tracked(ss[i], m, disk, image, g)
  {
    hide Needs, Run, Listed, Conserved, Base, Protected, Agree;
    RunInv(unit, ss, steps, i);
  }

  lemma TrackedNext(unit: nat, ss: seq<State>, steps: seq<Step>, disk: seq<int -> int>,
                    marks: seq<Marks>, g: nat, i: nat, k: nat, image: int -> int)
    requires Run(unit, ss, steps) && Disk(ss, steps, disk) && Marking(ss, steps, marks, g, i) && i <= k < |steps|
    requires Tracked(ss[k], marks[k], disk[k], image, g)
    ensures Tracked(ss[k + 1], marks[k + 1], disk[k + 1], image, g)
  {
    hide Needs, Apply, Enabled, Track, Writes, Inv, Tracked;
    RunInv(unit, ss, steps, k);
    assert Enabled(ss[k], steps[k]) && ss[k + 1] == Apply(ss[k], steps[k]);
    assert marks[k + 1] == Track(marks[k], ss[k], steps[k], g);
    TrackedStep(ss[k], steps[k], marks[k], disk[k], disk[k + 1], image, g);
  }

  lemma {:induction false} TrackedOn(unit: nat, ss: seq<State>, steps: seq<Step>, disk: seq<int -> int>,
                                     marks: seq<Marks>, g: nat, i: nat, j: nat, image: int -> int)
    requires Run(unit, ss, steps) && Disk(ss, steps, disk) && Marking(ss, steps, marks, g, i) && i <= j < |ss|
    requires ss[i].phase == Idle && Holds(image, disk[i], Needs(ss[i].durable))
    ensures Tracked(ss[j], marks[j], disk[j], image, g)
    decreases j - i
  {
    hide Needs, Apply, Enabled, Track, Tracked, Holds, Writes;
    if i < j {
      TrackedOn(unit, ss, steps, disk, marks, g, i, j - 1, image);
      TrackedNext(unit, ss, steps, disk, marks, g, i, j - 1, image);
    } else {
      TrackedFirst(unit, ss, steps, i, marks[i], disk[i], image, g);
    }
  }

  /** An image with the marked granules of the file copied into it. */
  ghost function Copied(image: int -> int, disk: int -> int, marks: set<int>, g: nat): int -> int
    requires 0 < g
  {
    x => if x / g in marks then disk(x) else image(x)
  }

  /** Take any image of the file that holds what its last durable checkpoint needs. Whatever happens
      from then on, allocation, checkpoints that delete others, failures, crashes: copying the
      granules marked in stable storage into the image makes it hold all that the last durable
      checkpoint of that time needs. */
  lemma BackupRestores(unit: nat, ss: seq<State>, steps: seq<Step>, disk: seq<int -> int>,
                       marks: seq<Marks>, g: nat, i: nat, j: nat, image: int -> int)
    requires Run(unit, ss, steps) && Disk(ss, steps, disk) && Marking(ss, steps, marks, g, i) && i <= j < |ss|
    requires ss[i].phase == Idle && Holds(image, disk[i], Needs(ss[i].durable))
    ensures Holds(Copied(image, disk[j], marks[j].durable, g), disk[j], Needs(ss[j].durable))
  {
    hide Needs, Run, Disk;
    TrackedOn(unit, ss, steps, disk, marks, g, i, j, image);
  }
}
