/** What a list of checkpoints means, and what deleting some of them does to it.

Checkpoints are listed oldest first. Each one records, relative to the one before it, the bytes
allocated and the bytes discarded; its root page is on its alloc list and belongs to it alone. The
live system is treated as the last entry of the list. */
module Checkpoints {
  import opened Extents

  datatype Ckpt = Ckpt(
    order: nat,           // identifies the checkpoint: names may recur
    root: Extent,
    alloc: set<int>,
    discard: set<int>,
    avail: set<int>,      // the avail list as written, its own block possibly included
    allocAt: Extent,      // the blocks holding the written lists
    discardAt: Extent,
    availAt: Extent,
    fileSize: nat,
    ckptSize: int,
    rootSum: nat,         // the checksum of the root page
    update: bool)         // the alloc and discard lists have to be written again

  const NOWHERE := Extent(0, 0)

  // ---- Meaning ----

  /** The bytes a checkpoint references, given what its predecessor hands on. */
  ghost function Referenced(base: set<int>, c: Ckpt): set<int> {
    base + c.alloc - c.discard
  }

  /** What a checkpoint hands on to its successor: all it references but its own root page. */
  ghost function HandsOn(base: set<int>, c: Ckpt): set<int> {
    Referenced(base, c) - Span(c.root)
  }

  /** What a list of checkpoints hands on to whatever follows it. */
  ghost function Base(base: set<int>, cs: seq<Ckpt>): set<int>
    decreases |cs|
  {
    if cs == [] then base else Base(HandsOn(base, cs[0]), cs[1..])
  }

  /** Each checkpoint's order and the bytes it references. */
  ghost function Uses(base: set<int>, cs: seq<Ckpt>): (r: seq<(nat, set<int>)>)
    ensures |r| == |cs|
    decreases |cs|
  {
    if cs == [] then [] else
    [(cs[0].order, Referenced(base, cs[0]))] + Uses(HandsOn(base, cs[0]), cs[1..])
  }

  // ---- Space ----

  ghost function Allocs(cs: seq<Ckpt>): set<int> {
    if cs == [] then {} else cs[0].alloc + Allocs(cs[1..])
  }

  /** The blocks holding a checkpoint's written lists. */
  ghost function Ext(c: Ckpt): set<int> {
    Span(c.allocAt) + Span(c.discardAt) + Span(c.availAt)
  }

  ghost function Exts(cs: seq<Ckpt>): set<int> {
    if cs == [] then {} else Ext(cs[0]) + Exts(cs[1..])
  }

  // ---- Well-formed lists ----

  /** A checkpoint fits after others that allocated `allocs` and hand on `base`. */
  ghost predicate Link(allocs: set<int>, base: set<int>, c: Ckpt) {
    && c.alloc !! allocs
    && c.discard <= base + c.alloc
    && Span(c.root) <= c.alloc
    && Span(c.root) !! c.discard
  }

  ghost predicate Chain(allocs: set<int>, base: set<int>, cs: seq<Ckpt>)
    decreases |cs|
  {
    cs == [] ||
    (Link(allocs, base, cs[0]) && Chain(allocs + cs[0].alloc, HandsOn(base, cs[0]), cs[1..]))
  }

  /** No byte is on both lists of a checkpoint, and its lists are on disk. */
  ghost predicate Settled(c: Ckpt) {
    c.alloc !! c.discard && !c.update
  }

  ghost predicate AllSettled(cs: seq<Ckpt>) {
    forall i | 0 <= i < |cs| :: Settled(cs[i])
  }

  /** The blocks holding written lists overlap neither each other nor any alloc list. */
  ghost predicate ExtApart(c: Ckpt) {
    && Span(c.allocAt) !! Span(c.discardAt)
    && Span(c.allocAt) !! Span(c.availAt)
    && Span(c.discardAt) !! Span(c.availAt)
  }

  ghost predicate ExtsApart(cs: seq<Ckpt>) {
    cs == [] || (ExtApart(cs[0]) && Ext(cs[0]) !! Exts(cs[1..]) && ExtsApart(cs[1..]))
  }

  // ---- Deletion ----

  /** A deleted checkpoint's lists rolled into the next one's; its root page is discarded. */
  ghost function MergeInto(a: Ckpt, b: Ckpt): Ckpt {
    b.(alloc := a.alloc + b.alloc, discard := a.discard + Span(a.root) + b.discard)
  }

  ghost function Both(c: Ckpt): set<int> {
    c.alloc * c.discard
  }

  /** A checkpoint without the bytes found on both its lists. */
  ghost function Reconciled(c: Ckpt): Ckpt {
    c.(alloc := c.alloc - Both(c), discard := c.discard - Both(c))
  }

  /** A checkpoint whose alloc and discard lists were freed, to be written again. */
  ghost function Stale(c: Ckpt): Ckpt {
    c.(allocAt := NOWHERE, discardAt := NOWHERE, update := true)
  }

  datatype Rolled = Rolled(cs: seq<Ckpt>, freed: set<int>)

  /** Delete the marked checkpoints of a list that ends with the live system. */
  ghost function Roll(cs: seq<Ckpt>, del: seq<bool>): (r: Rolled)
    requires |cs| == |del| > 0 && !del[|del| - 1]
    ensures r.cs != []
    decreases |cs|
  {
    if |cs| == 1 then
      Rolled(cs, {})
    else if !del[0] then
      var r := Roll(cs[1..], del[1..]);
      Rolled([cs[0]] + r.cs, r.freed)
    else
      var m := MergeInto(cs[0], cs[1]);
      if del[1] then
        var r := Roll([m] + cs[2..], del[1..]);
        Rolled(r.cs, Ext(cs[0]) + r.freed)
      else
        var live := |cs| == 2;
        var t := if live then Reconciled(m) else Stale(Reconciled(m));
        var r := Roll([t] + cs[2..], del[1..]);
        Rolled(r.cs, Ext(cs[0]) + Both(m) + Rewritten(cs[1], live) + r.freed)
  }

  /** The list blocks freed when a checkpoint other than the live system takes in a deleted one. */
  ghost function Rewritten(c: Ckpt, live: bool): set<int> {
    if live then {} else Span(c.allocAt) + Span(c.discardAt)
  }

  ghost function Pick<T>(s: seq<T>, del: seq<bool>): seq<T>
    requires |s| == |del|
  {
    if s == [] then [] else (if del[0] then [] else [s[0]]) + Pick(s[1..], del[1..])
  }

  // ---- Deletion preserves meaning ----

  lemma MergeMeans(allocs: set<int>, base: set<int>, a: Ckpt, b: Ckpt)
    requires base <= allocs
    requires Link(allocs, base, a) && Link(allocs + a.alloc, HandsOn(base, a), b)
    ensures Link(allocs, base, MergeInto(a, b))
    ensures Referenced(base, MergeInto(a, b)) == Referenced(HandsOn(base, a), b)
    ensures HandsOn(base, MergeInto(a, b)) == HandsOn(HandsOn(base, a), b)
  {
    hide Span;
  }

  lemma ReconcileMeans(allocs: set<int>, base: set<int>, c: Ckpt)
    requires base <= allocs && Link(allocs, base, c)
    ensures Link(allocs, base, Reconciled(c))
    ensures Referenced(base, Reconciled(c)) == Referenced(base, c)
    ensures HandsOn(base, Reconciled(c)) == HandsOn(base, c)
    ensures Reconciled(c).alloc !! Reconciled(c).discard
  {
    hide Span;
  }

  /** A chain stays one when its predecessors are known to have allocated less. */
  lemma {:induction false} ChainShrink(allocs: set<int>, less: set<int>, base: set<int>, cs: seq<Ckpt>)
    requires Chain(allocs, base, cs) && less <= allocs
    ensures Chain(less, base, cs)
    decreases |cs|
  {
    if cs != [] {
      ChainShrink(allocs + cs[0].alloc, less + cs[0].alloc, HandsOn(base, cs[0]), cs[1..]);
    }
  }

  /** One deletion step of a roll: the first checkpoint goes into the second one. */
  lemma RollStep(allocs: set<int>, base: set<int>, cs: seq<Ckpt>, t: Ckpt)
    requires |cs| >= 2 && base <= allocs && Chain(allocs, base, cs)
    requires var m := MergeInto(cs[0], cs[1]);
             t == m || t == Reconciled(m) || t == Stale(Reconciled(m))
    ensures Chain(allocs, base, [t] + cs[2..])
    ensures Uses(base, [t] + cs[2..]) == Uses(base, cs)[1..]
    ensures Base(base, [t] + cs[2..]) == Base(base, cs)
  {
    var a, b := cs[0], cs[1];
    var m := MergeInto(a, b);
    assert cs[1..][0] == b && cs[1..][1..] == cs[2..];
    assert ([t] + cs[2..])[1..] == cs[2..];
    assert Link(allocs + a.alloc, HandsOn(base, a), b);
    hide Link, Referenced, HandsOn, Span;
    MergeMeans(allocs, base, a, b);
    ReconcileMeans(allocs, base, m);
    assert Link(allocs, base, t) by { TakesOver(allocs, base, m, t); }
    TakesOver(allocs, base, m, t);
    ChainShrink(allocs + a.alloc + b.alloc, allocs + t.alloc, HandsOn(base, t), cs[2..]);
  }

  lemma TakesOver(allocs: set<int>, base: set<int>, m: Ckpt, t: Ckpt)
    requires t == m || t == Reconciled(m) || t == Stale(Reconciled(m))
    requires Link(allocs, base, m) && base <= allocs
    ensures Link(allocs, base, t)
    ensures Referenced(base, t) == Referenced(base, m) && HandsOn(base, t) == HandsOn(base, m)
  {
    ReconcileMeans(allocs, base, m);
  }

  /** Deleting any set of checkpoints changes nothing any survivor, or the live system, references. */
  lemma {:induction false} RollMeans(allocs: set<int>, base: set<int>, cs: seq<Ckpt>, del: seq<bool>)
    requires |cs| == |del| > 0 && !del[|del| - 1]
    requires base <= allocs && Chain(allocs, base, cs)
    ensures var r := Roll(cs, del).cs;
            && Chain(allocs, base, r)
            && Uses(base, r) == Pick(Uses(base, cs), del)
            && Base(base, r) == Base(base, cs)
    decreases |cs|
  {
    if |cs| == 1 {
      assert cs == [cs[0]] && Uses(base, cs)[1..] == [];
    } else if !del[0] {
      var next := HandsOn(base, cs[0]);
      RollMeans(allocs + cs[0].alloc, next, cs[1..], del[1..]);
      var r := Roll(cs[1..], del[1..]).cs;
      assert ([cs[0]] + r)[1..] == r;
      assert Uses(base, cs)[1..] == Uses(next, cs[1..]);
    } else {
      var m := MergeInto(cs[0], cs[1]);
      var t := if del[1] then m else if |cs| == 2 then Reconciled(m) else Stale(Reconciled(m));
      RollStep(allocs, base, cs, t);
      RollMeans(allocs, base, [t] + cs[2..], del[1..]);
      assert Pick(Uses(base, cs), del) == Pick(Uses(base, cs)[1..], del[1..]);
    }
  }

  // ---- Deletion conserves space ----

  lemma {:induction false} ChainAllocs(allocs: set<int>, base: set<int>, cs: seq<Ckpt>)
    requires Chain(allocs, base, cs)
    ensures Allocs(cs) !! allocs
    decreases |cs|
  {
    if cs != [] {
      ChainAllocs(allocs + cs[0].alloc, HandsOn(base, cs[0]), cs[1..]);
    }
  }

  /** The space held by a list of checkpoints: alloc lists and, apart from them, list blocks. */
  ghost predicate Spaced(cs: seq<Ckpt>) {
    ExtsApart(cs) && Allocs(cs) !! Exts(cs)
  }

  /** What one deletion step frees, and that it frees nothing twice. */
  ghost predicate Frees(cs: seq<Ckpt>, freed: set<int>, r: seq<Ckpt>) {
    && Spaced(r)
    && freed !! Allocs(r) + Exts(r)
    && freed + Allocs(r) + Exts(r) == Allocs(cs) + Exts(cs)
  }

  /** A deletion step frees three disjoint things: the deleted checkpoint's list blocks, the bytes
      on both lists of the checkpoint it went into, and that one's list blocks if rewritten. */
  lemma RollStepSpace(cs: seq<Ckpt>, t: Ckpt, both: set<int>, lists: set<int>)
    requires |cs| >= 2 && Spaced(cs) && cs[0].alloc + cs[1].alloc !! Allocs(cs[2..])
    requires var m := MergeInto(cs[0], cs[1]);
             || (t == m && both == {} && lists == {})
             || (t == Reconciled(m) && both == Both(m) && lists == {})
             || (t == Stale(Reconciled(m)) && both == Both(m) && lists == Rewritten(cs[1], false))
    ensures Frees(cs, Ext(cs[0]) + both + lists, [t] + cs[2..])
    ensures Ext(cs[0]) !! both && Ext(cs[0]) + both !! lists
  {
    hide Span, Ext, ExtApart, MergeInto, Reconciled, Stale, Both, Rewritten;
    var a, b, q := cs[0], cs[1], cs[2..];
    assert cs[1..][0] == b && cs[1..][1..] == q;
    var n := [t] + q;
    assert n[0] == t && n[1..] == q;
    assert ExtsApart(cs[1..]);
    StepShape(a, b, t, both, lists);
    assert Exts(cs) == Ext(a) + Ext(b) + Exts(q);
    assert Allocs(cs) == a.alloc + b.alloc + Allocs(q);
  }

  lemma StepShape(a: Ckpt, b: Ckpt, t: Ckpt, both: set<int>, lists: set<int>)
    requires ExtApart(b)
    requires var m := MergeInto(a, b);
             || (t == m && both == {} && lists == {})
             || (t == Reconciled(m) && both == Both(m) && lists == {})
             || (t == Stale(Reconciled(m)) && both == Both(m) && lists == Rewritten(b, false))
    ensures t.alloc == a.alloc + b.alloc - both && both <= a.alloc + b.alloc
    ensures ExtApart(t) && Ext(t) == Ext(b) - lists && lists <= Ext(b)
  {
  }

  lemma ChainTail(allocs: set<int>, base: set<int>, cs: seq<Ckpt>)
    requires cs != [] && Chain(allocs, base, cs)
    ensures Link(allocs, base, cs[0]) && Chain(allocs + cs[0].alloc, HandsOn(base, cs[0]), cs[1..])
  {
  }

  lemma SpacedTail(cs: seq<Ckpt>)
    requires cs != [] && Spaced(cs)
    ensures Spaced(cs[1..]) && ExtApart(cs[0])
    ensures Allocs(cs[1..]) <= Allocs(cs) && Exts(cs[1..]) <= Exts(cs) && Ext(cs[0]) <= Exts(cs)
  {
    hide Ext, ExtApart;
  }

  lemma TailApart(allocs: set<int>, base: set<int>, cs: seq<Ckpt>)
    requires |cs| >= 2 && Chain(allocs, base, cs)
    ensures cs[0].alloc + cs[1].alloc !! Allocs(cs[2..])
    ensures cs[0].alloc !! cs[1].alloc
  {
    assert cs[1..][1..] == cs[2..];
    ChainAllocs(allocs + cs[0].alloc + cs[1].alloc, HandsOn(HandsOn(base, cs[0]), cs[1]), cs[2..]);
  }

  lemma RollOne(cs: seq<Ckpt>, del: seq<bool>)
    requires |cs| == |del| == 1 && !del[0] && Spaced(cs)
    ensures Frees(cs, Roll(cs, del).freed, Roll(cs, del).cs)
  {
    hide Allocs, Exts;
  }

  lemma RollKeep(cs: seq<Ckpt>, del: seq<bool>)
    requires |cs| == |del| > 1 && !del[|del| - 1] && !del[0]
    ensures var r := Roll(cs[1..], del[1..]); Roll(cs, del) == Rolled([cs[0]] + r.cs, r.freed)
  {
  }

  /** The target of a deletion, and what the deletion frees besides the deleted checkpoint's lists. */
  ghost predicate Drops(cs: seq<Ckpt>, del: seq<bool>, t: Ckpt, both: set<int>, lists: set<int>)
    requires |cs| == |del| > 1
  {
    var m := MergeInto(cs[0], cs[1]);
    if del[1] then t == m && both == {} && lists == {}
    else if |cs| == 2 then t == Reconciled(m) && both == Both(m) && lists == {}
    else t == Stale(Reconciled(m)) && both == Both(m) && lists == Rewritten(cs[1], false)
  }

  lemma DropsOf(cs: seq<Ckpt>, del: seq<bool>) returns (t: Ckpt, both: set<int>, lists: set<int>)
    requires |cs| == |del| > 1
    ensures Drops(cs, del, t, both, lists)
  {
    var m := MergeInto(cs[0], cs[1]);
    t := if del[1] then m else if |cs| == 2 then Reconciled(m) else Stale(Reconciled(m));
    both := if del[1] then {} else Both(m);
    lists := if del[1] then {} else Rewritten(cs[1], |cs| == 2);
  }

  lemma RollDrop(cs: seq<Ckpt>, del: seq<bool>, t: Ckpt, both: set<int>, lists: set<int>)
    requires |cs| == |del| > 1 && !del[|del| - 1] && del[0] && Drops(cs, del, t, both, lists)
    ensures var r := Roll([t] + cs[2..], del[1..]); Roll(cs, del) == Rolled(r.cs, Ext(cs[0]) + both + lists + r.freed)
  {
    hide Span, Ext, MergeInto, Reconciled, Stale, Both;
    var e := Ext(cs[0]);
    assert e + {} + {} == e;
  }

  lemma HandsOnInside(allocs: set<int>, base: set<int>, c: Ckpt)
    requires base <= allocs
    ensures HandsOn(base, c) <= allocs + c.alloc
  {
  }

  lemma FreesSpaced(cs: seq<Ckpt>, freed: set<int>, r: seq<Ckpt>)
    requires Frees(cs, freed, r)
    ensures Spaced(r)
  {
  }

  /** Space is conserved: what a roll frees and what the survivors hold is what was held before. */
  lemma {:induction false} RollSpace(allocs: set<int>, base: set<int>, cs: seq<Ckpt>, del: seq<bool>)
    requires |cs| == |del| > 0 && !del[|del| - 1]
    requires base <= allocs && Chain(allocs, base, cs) && Spaced(cs)
    ensures Frees(cs, Roll(cs, del).freed, Roll(cs, del).cs)
    decreases |cs|
  {
    hide Roll, Chain, Spaced, Frees, Allocs, Exts, Ext, Span, HandsOn, Link;
    if |cs| == 1 {
      RollOne(cs, del);
    } else if !del[0] {
      ChainTail(allocs, base, cs);
      SpacedTail(cs);
      HandsOnInside(allocs, base, cs[0]);
      RollSpace(allocs + cs[0].alloc, HandsOn(base, cs[0]), cs[1..], del[1..]);
      ChainAllocs(allocs + cs[0].alloc, HandsOn(base, cs[0]), cs[1..]);
      KeepSpace(cs, Roll(cs[1..], del[1..]));
      RollKeep(cs, del);
    } else {
      DropSpace(allocs, base, cs, del);
    }
  }

  /** The case of a deletion. */
  lemma {:induction false} DropSpace(allocs: set<int>, base: set<int>, cs: seq<Ckpt>, del: seq<bool>)
    requires |cs| == |del| > 1 && !del[|del| - 1] && del[0]
    requires base <= allocs && Chain(allocs, base, cs) && Spaced(cs)
    ensures Frees(cs, Roll(cs, del).freed, Roll(cs, del).cs)
    decreases |cs|, 0
  {
    hide Roll, Chain, Spaced, Frees, Allocs, Exts, Ext, Span, HandsOn, Link, MergeInto, Both, Reconciled, Stale;
    var t, both, lists := DropsOf(cs, del);
    TailApart(allocs, base, cs);
    RollStepSpace(cs, t, both, lists);
    RollStep(allocs, base, cs, t);
    FreesSpaced(cs, Ext(cs[0]) + both + lists, [t] + cs[2..]);
    RollSpace(allocs, base, [t] + cs[2..], del[1..]);
    FreesMore(cs, Ext(cs[0]) + both + lists, [t] + cs[2..], Roll([t] + cs[2..], del[1..]));
    RollDrop(cs, del, t, both, lists);
  }

  lemma KeepSpace(cs: seq<Ckpt>, r: Rolled)
    requires cs != [] && Spaced(cs) && Frees(cs[1..], r.freed, r.cs)
    requires cs[0].alloc !! Allocs(cs[1..])
    ensures Frees(cs, r.freed, [cs[0]] + r.cs)
  {
    var n := [cs[0]] + r.cs;
    assert n[0] == cs[0] && n[1..] == r.cs;
    hide Ext, ExtApart;
  }

  lemma FreesMore(cs: seq<Ckpt>, freed: set<int>, mid: seq<Ckpt>, r: Rolled)
    requires Frees(cs, freed, mid) && Frees(mid, r.freed, r.cs)
    ensures Frees(cs, freed + r.freed, r.cs)
    ensures freed !! r.freed
  {
  }

  // ---- Lists and their last entry ----

  lemma {:induction false} BaseConcat(base: set<int>, p: seq<Ckpt>, q: seq<Ckpt>)
    ensures Base(base, p + q) == Base(Base(base, p), q)
    ensures Uses(base, p + q) == Uses(base, p) + Uses(Base(base, p), q)
    decreases |p|
  {
    if p == [] {
      assert p + q == q;
    } else {
      assert (p + q)[0] == p[0] && (p + q)[1..] == p[1..] + q;
      BaseConcat(HandsOn(base, p[0]), p[1..], q);
    }
  }

  lemma {:induction false} HoldConcat(p: seq<Ckpt>, q: seq<Ckpt>)
    ensures Allocs(p + q) == Allocs(p) + Allocs(q)
    ensures Exts(p + q) == Exts(p) + Exts(q)
    ensures ExtsApart(p + q) <==> ExtsApart(p) && ExtsApart(q) && Exts(p) !! Exts(q)
    decreases |p|
  {
    if p == [] {
      assert p + q == q;
    } else {
      assert (p + q)[0] == p[0] && (p + q)[1..] == p[1..] + q;
      HoldConcat(p[1..], q);
    }
  }

  lemma {:induction false} ChainConcat(allocs: set<int>, base: set<int>, p: seq<Ckpt>, q: seq<Ckpt>)
    ensures Chain(allocs, base, p + q)
       <==> Chain(allocs, base, p) && Chain(allocs + Allocs(p), Base(base, p), q)
    decreases |p|
  {
    if p == [] {
      assert p + q == q;
      assert allocs + Allocs(p) == allocs;
    } else {
      assert (p + q)[0] == p[0] && (p + q)[1..] == p[1..] + q;
      ChainConcat(allocs + p[0].alloc, HandsOn(base, p[0]), p[1..], q);
      assert allocs + p[0].alloc + Allocs(p[1..]) == allocs + Allocs(p);
    }
  }

  /** Adding one checkpoint at the end of a list. */
  lemma OneMore(p: seq<Ckpt>, c: Ckpt)
    ensures Chain({}, {}, p + [c]) <==> Chain({}, {}, p) && Link(Allocs(p), Base({}, p), c)
    ensures Base({}, p + [c]) == HandsOn(Base({}, p), c)
    ensures Uses({}, p + [c]) == Uses({}, p) + [(c.order, Referenced(Base({}, p), c))]
    ensures Allocs(p + [c]) == Allocs(p) + c.alloc
    ensures Exts(p + [c]) == Exts(p) + Ext(c)
    ensures ExtsApart(p + [c]) <==> ExtsApart(p) && ExtApart(c) && Exts(p) !! Ext(c)
  {
    var one := [c];
    assert one[0] == c && one[1..] == [];
    ChainConcat({}, {}, p, one);
    BaseConcat({}, p, one);
    HoldConcat(p, one);
    assert {} + Allocs(p) == Allocs(p);
    assert Uses(Base({}, p), one) == [(c.order, Referenced(Base({}, p), c))];
    assert Allocs(one) == c.alloc && Exts(one) == Ext(c);
  }

  // ---- What is referenced ----

  /** All the bytes referenced by some checkpoint of a list. */
  ghost function Used(base: set<int>, cs: seq<Ckpt>): set<int>
    decreases |cs|
  {
    if cs == [] then {} else Referenced(base, cs[0]) + Used(HandsOn(base, cs[0]), cs[1..])
  }

  /** No checkpoint has a byte on both its lists. */
  ghost predicate Apart(cs: seq<Ckpt>) {
    forall i | 0 <= i < |cs| :: cs[i].alloc !! cs[i].discard
  }

  /** Nothing leaks: every byte on an alloc list is referenced by some checkpoint. */
  lemma {:induction false} AllocsAreUsed(allocs: set<int>, base: set<int>, cs: seq<Ckpt>)
    requires base <= allocs && Chain(allocs, base, cs) && Apart(cs)
    ensures Allocs(cs) <= Used(base, cs) <= base + Allocs(cs)
    decreases |cs|
  {
    if cs != [] {
      AllocsAreUsed(allocs + cs[0].alloc, HandsOn(base, cs[0]), cs[1..]);
    }
  }

  lemma {:induction false} BaseInAllocs(base: set<int>, cs: seq<Ckpt>)
    ensures Base(base, cs) <= base + Allocs(cs)
    decreases |cs|
  {
    if cs != [] {
      BaseInAllocs(HandsOn(base, cs[0]), cs[1..]);
    }
  }

  /** After a roll no survivor has a byte on both its lists. */
  lemma {:induction false} RollApart(cs: seq<Ckpt>, del: seq<bool>)
    requires |cs| == |del| > 0 && !del[|del| - 1]
    requires Apart(cs[1..]) && (del[0] || cs[0].alloc !! cs[0].discard)
    ensures Apart(Roll(cs, del).cs)
    decreases |cs|
  {
    if |cs| == 1 {
    } else if !del[0] {
      assert cs[1..][0].alloc !! cs[1..][0].discard;
      assert forall i | 0 <= i < |cs[1..][1..]| :: cs[1..][1..][i] == cs[1..][i + 1];
      RollApart(cs[1..], del[1..]);
    } else {
      var m := MergeInto(cs[0], cs[1]);
      var t := if del[1] then m else if |cs| == 2 then Reconciled(m) else Stale(Reconciled(m));
      var n := [t] + cs[2..];
      assert forall i | 0 <= i < |n[1..]| :: n[1..][i] == cs[1..][i + 1];
      RollApart(n, del[1..]);
    }
  }

  /** With nothing marked, nothing changes. */
  lemma {:induction false} RollNothing(cs: seq<Ckpt>, del: seq<bool>)
    requires |cs| == |del| > 0 && forall i | 0 <= i < |del| :: !del[i]
    ensures Roll(cs, del) == Rolled(cs, {})
    decreases |cs|
  {
    if |cs| > 1 {
      RollNothing(cs[1..], del[1..]);
      assert [cs[0]] + cs[1..] == cs;
    }
  }

  // ---- The closed form ----

  ghost function Discards(cs: seq<Ckpt>): set<int> {
    if cs == [] then {} else cs[0].discard + Discards(cs[1..])
  }

  ghost function Roots(cs: seq<Ckpt>): set<int> {
    if cs == [] then {} else Span(cs[0].root) + Roots(cs[1..])
  }

  lemma {:induction false} BaseClosed(allocs: set<int>, gone: set<int>, base: set<int>, cs: seq<Ckpt>)
    requires Chain(allocs, base, cs) && gone <= allocs && base == allocs - gone
    ensures Base(base, cs) == allocs + Allocs(cs) - (gone + Discards(cs) + Roots(cs))
    ensures Discards(cs) <= allocs + Allocs(cs) && Roots(cs) <= Allocs(cs)
    decreases |cs|
  {
    if cs != [] {
      hide Span;
      var c := cs[0];
      assert HandsOn(base, c) == allocs + c.alloc - (gone + c.discard + Span(c.root));
      BaseClosed(allocs + c.alloc, gone + c.discard + Span(c.root), HandsOn(base, c), cs[1..]);
    }
  }

  /** What checkpoint k references: everything allocated up to it, less everything discarded up to
      it and the root pages of the checkpoints before it. */
  lemma ClosedForm(cs: seq<Ckpt>, k: nat)
    requires Chain({}, {}, cs) && k < |cs|
    ensures Uses({}, cs)[k]
         == (cs[k].order, Allocs(cs[..k]) + cs[k].alloc - Discards(cs[..k]) - cs[k].discard - Roots(cs[..k]))
  {
    UsesAt(cs, k);
    var p, c := cs[..k], cs[k];
    BaseClosed({}, {}, {}, p);
    hide Allocs, Discards, Roots, Span, Base, Chain, Uses;
    assert Referenced(Base({}, p), c) == Allocs(p) + c.alloc - Discards(p) - c.discard - Roots(p);
  }

  /** Entry k of a list, seen from the entries before it. */
  lemma UsesAt(cs: seq<Ckpt>, k: nat)
    requires Chain({}, {}, cs) && k < |cs|
    ensures Chain({}, {}, cs[..k]) && Link(Allocs(cs[..k]), Base({}, cs[..k]), cs[k])
    ensures Uses({}, cs)[k] == (cs[k].order, Referenced(Base({}, cs[..k]), cs[k]))
  {
    var p, q := cs[..k], cs[k..];
    assert cs == p + q;
    ChainConcat({}, {}, p, q);
    BaseConcat({}, p, q);
    assert {} + Allocs(p) == Allocs(p);
  }

  lemma {:induction false} ExtIn(cs: seq<Ckpt>, i: nat)
    requires i < |cs|
    ensures Ext(cs[i]) <= Exts(cs)
  {
    if i > 0 {
      ExtIn(cs[1..], i - 1);
    }
  }

  /** The lists of different checkpoints never overlap, what a checkpoint discards was allocated by
      an earlier one still listed, and so the first checkpoint discards nothing. */
  lemma ListsApart(cs: seq<Ckpt>, k: nat)
    requires Chain({}, {}, cs) && Apart(cs) && k < |cs|
    ensures cs[k].alloc !! Allocs(cs[..k])
    ensures cs[k].discard !! Discards(cs[..k])
    ensures cs[k].discard <= Allocs(cs[..k])
    ensures k == 0 ==> cs[k].discard == {}
  {
    UsesAt(cs, k);
    BaseClosed({}, {}, {}, cs[..k]);
  }
}
