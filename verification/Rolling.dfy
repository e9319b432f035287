/** The deletion loop of a checkpoint, one checkpoint at a time: what is true between its turns. */
module Rolling {
  import opened Extents
  import opened Checkpoints

  /** Some checkpoints are kept for good, the rest still has to be gone through, some space has been
      freed; together they will come out as r. */
  ghost predicate Between(kept: seq<Ckpt>, rest: seq<Ckpt>, marks: seq<bool>, freed: set<int>, r: Rolled) {
    && |rest| == |marks| > 0 && !marks[|marks| - 1]
    && r == Rolled(kept + Roll(rest, marks).cs, freed + Roll(rest, marks).freed)
    && Base({}, kept) <= Allocs(kept)
    && Chain(Allocs(kept), Base({}, kept), rest)
    && Spaced(rest)
    && freed !! Allocs(rest) + Exts(rest)
  }

  lemma Begin(cs: seq<Ckpt>, marks: seq<bool>)
    requires |cs| == |marks| > 0 && !marks[|marks| - 1] && Chain({}, {}, cs) && Spaced(cs)
    ensures Between([], cs, marks, {}, Roll(cs, marks))
  {
    assert [] + Roll(cs, marks).cs == Roll(cs, marks).cs;
  }

  lemma Keep(kept: seq<Ckpt>, rest: seq<Ckpt>, marks: seq<bool>, freed: set<int>, r: Rolled)
    requires Between(kept, rest, marks, freed, r) && |rest| > 1 && !marks[0]
    ensures Between(kept + [rest[0]], rest[1..], marks[1..], freed, r)
  {
    hide Span, Ext, Base, Chain, ExtApart, Link, HandsOn, Uses;
    var c := rest[0];
    OneMore(kept, c);
    BaseInAllocs({}, kept + [c]);
    var t := Roll(rest[1..], marks[1..]);
    assert kept + ([c] + t.cs) == kept + [c] + t.cs;
    ChainTail(Allocs(kept), Base({}, kept), rest);
    SpacedTail(rest);
  }

  lemma End(kept: seq<Ckpt>, rest: seq<Ckpt>, marks: seq<bool>, freed: set<int>, r: Rolled)
    requires Between(kept, rest, marks, freed, r) && |rest| == 1
    ensures r == Rolled(kept + rest, freed)
  {
  }

  /** The checkpoint a deleted one goes into, as the roll leaves it for the next turn. */
  ghost function Target(a: Ckpt, b: Ckpt, deleted: bool, live: bool): Ckpt {
    var m := MergeInto(a, b);
    if deleted then m else if live then Reconciled(m) else Stale(Reconciled(m))
  }

  /** What one deletion puts on ckpt_avail: the deleted checkpoint's list blocks, then the overlap,
      then the list blocks of the checkpoint it went into. */
  ghost function Overlap(a: Ckpt, b: Ckpt, deleted: bool): set<int> {
    if deleted then {} else Both(MergeInto(a, b))
  }

  ghost function ListBlocks(b: Ckpt, deleted: bool, live: bool): set<int> {
    if deleted then {} else Rewritten(b, live)
  }

  lemma TargetIs(a: Ckpt, b: Ckpt, deleted: bool, live: bool)
    ensures var all, gone := a.alloc + b.alloc, a.discard + Span(a.root) + b.discard;
            var over := Overlap(a, b, deleted);
            && over == (if deleted then {} else all * gone)
            && ListBlocks(b, deleted, live)
               == (if deleted || live then {} else Span(b.allocAt) + Span(b.discardAt))
            && Target(a, b, deleted, live)
               == (if deleted || live then b.(alloc := all - over, discard := gone - over)
                   else b.(alloc := all - over, discard := gone - over,
                           allocAt := NOWHERE, discardAt := NOWHERE, update := true))
  {
  }

  lemma Delete(kept: seq<Ckpt>, rest: seq<Ckpt>, marks: seq<bool>, freed: set<int>, r: Rolled)
    requires Between(kept, rest, marks, freed, r) && |rest| > 1 && marks[0]
    ensures var a, b, live := rest[0], rest[1], |rest| == 2;
            var over, lists := Overlap(a, b, marks[1]), ListBlocks(b, marks[1], live);
            && Between(kept, [Target(a, b, marks[1], live)] + rest[2..], marks[1..],
                       freed + Ext(a) + over + lists, r)
            // Nothing is freed twice.
            && freed !! Ext(a) && freed + Ext(a) !! over && freed + Ext(a) + over !! lists
  {
    hide Span, Ext, Allocs, Exts, Base, Chain, ExtApart, ExtsApart;
    var a, b, live := rest[0], rest[1], |rest| == 2;
    var t := Target(a, b, marks[1], live);
    var over, lists := Overlap(a, b, marks[1]), ListBlocks(b, marks[1], live);
    var q := rest[2..];
    TailApart(Allocs(kept), Base({}, kept), rest);
    RollStepSpace(rest, t, over, lists);
    RollStep(Allocs(kept), Base({}, kept), rest, t);
    var next := Roll([t] + q, marks[1..]);
    assert Roll(rest, marks) == Rolled(next.cs, Ext(a) + over + lists + next.freed);
    assert freed + Ext(a) + over + lists + next.freed == freed + (Ext(a) + over + lists + next.freed);
  }

  /** The lists of two neighbours can be merged: they do not overlap. */
  lemma Mergeable(kept: seq<Ckpt>, rest: seq<Ckpt>, marks: seq<bool>, freed: set<int>, r: Rolled)
    requires Between(kept, rest, marks, freed, r) && |rest| > 1
    ensures var a, b := rest[0], rest[1];
            && a.alloc !! b.alloc
            && Span(a.root) !! a.discard && a.discard + Span(a.root) !! b.discard
            && ExtApart(a) && ExtApart(b)
            && Ext(a) <= Exts(rest) && Ext(b) <= Exts(rest)
            && freed !! Exts(rest)
  {
    hide Span, Ext, ExtApart, Allocs, Exts, Base, Chain, Roll, Spaced;
    var a, b := rest[0], rest[1];
    ChainTail(Allocs(kept), Base({}, kept), rest);
    ChainTail(Allocs(kept) + a.alloc, HandsOn(Base({}, kept), a), rest[1..]);
    SpacedTail(rest);
    SpacedTail(rest[1..]);
    assert rest[1..][0] == b;
  }

  /** Two neighbours the lists of which can be rolled together, and a free list clear of both. */
  ghost predicate Neighbours(a: Ckpt, b: Ckpt, deleted: bool, live: bool, freed: set<int>) {
    && a.alloc !! b.alloc
    && Span(a.root) !! a.discard && a.discard + Span(a.root) !! b.discard
    && ExtApart(a) && ExtApart(b)
    && freed !! Ext(a)
    && freed + Ext(a) !! Overlap(a, b, deleted)
    && freed + Ext(a) + Overlap(a, b, deleted) !! ListBlocks(b, deleted, live)
  }

  lemma NeighboursAre(kept: seq<Ckpt>, rest: seq<Ckpt>, marks: seq<bool>, freed: set<int>, r: Rolled)
    requires Between(kept, rest, marks, freed, r) && |rest| > 1 && marks[0]
    ensures Neighbours(rest[0], rest[1], marks[1], |rest| == 2, freed)
  {
    hide Between, Ext, ExtApart, Span, Overlap, ListBlocks, Exts;
    Mergeable(kept, rest, marks, freed, r);
    Delete(kept, rest, marks, freed, r);
  }
}
