/** Every step of the checkpoint protocol keeps its invariant, and what follows for whole runs. */
module Safety {
  import opened Extents
  import opened Checkpoints
  import opened Protocol

  // ---- Allocation and space ----

  /** A block taken comes out of the available bytes or from past the end of the file. */
  lemma TakeTakes(unit: nat, sp: Space, at: Extent)
    requires CanTake(sp, at) && sp.avail <= Range(unit, sp.size)
    ensures Take(sp, at).avail == sp.avail - Span(at)
    ensures Span(at) <= sp.avail + Range(sp.size, Take(sp, at).size)
    ensures Range(sp.size, Take(sp, at).size) <= Span(at)
    ensures sp.size <= Take(sp, at).size
  {
  }

  /** Grow what is held by bytes taken from the available space. */
  lemma Regrow(avail: set<int>, freed: set<int>, held: set<int>, unit: nat, size: nat, block: set<int>, size': nat)
    requires avail !! freed && avail + freed !! held && avail + freed + held == Range(unit, size)
    requires unit <= size <= size'
    requires block <= avail + Range(size, size') && Range(size, size') <= block
    ensures avail - block !! freed && avail - block + freed !! held + block
    ensures avail - block + freed + (held + block) == Range(unit, size')
    ensures block !! held && block !! freed
  {
  }

  lemma LiveTakes(unit: nat, cs: seq<Ckpt>, sp: Space, freed: set<int>, live: set<int>, at: Extent)
    requires Conserved(unit, cs, sp, freed, live) && CanTake(sp, at)
    ensures Conserved(unit, cs, Take(sp, at), freed, live + Span(at))
    ensures Span(at) !! live && Span(at) !! Allocs(cs) + Exts(cs)
  {
    hide Span, Range, Allocs, Exts, Spaced;
    TakeTakes(unit, sp, at);
    var held := live + Allocs(cs) + Exts(cs);
    Regrow(sp.avail, freed, held, unit, sp.size, Span(at), Take(sp, at).size);
  }

  lemma ProtectedIs(cs: seq<Ckpt>)
    requires Chain({}, {}, cs) && AllSettled(cs)
    ensures Protected(cs) == Allocs(cs) + Exts(cs)
    ensures Base({}, cs) <= Allocs(cs)
  {
    AllocsAreUsed({}, {}, cs);
    BaseInAllocs({}, cs);
  }

  lemma InvAlloc(s: State, at: Extent)
    requires Inv(s) && CanTake(SpaceOf(s), at)
    ensures Inv(Alloc(s, at))
    ensures Span(at) !! Protected(s.durable)
  {
    hide Span, Range, Listed, Agree, Protected, Base, Conserved;
    LiveTakes(s.unit, s.cur, SpaceOf(s), s.ckptAvail, s.alloc, at);
    SpaceBounds(s);
    TakeTakes(s.unit, SpaceOf(s), at);
    AwayFrom(Protected(s.durable), s.unit, s.size, s.avail, Span(at), Take(SpaceOf(s), at).size);
  }

  lemma SpaceBounds(s: State)
    requires Inv(s)
    ensures s.unit <= s.size && s.avail <= Range(s.unit, s.size)
  {
  }

  lemma AwayFrom(p: set<int>, unit: nat, size: nat, avail: set<int>, block: set<int>, size': nat)
    requires p !! avail && p <= Range(unit, size) && size <= size'
    requires block <= avail + Range(size, size')
    ensures p !! block && p <= Range(unit, size')
  {
  }

  lemma InvFree(s: State, at: Extent)
    requires Inv(s) && Freeable(s, at)
    ensures Inv(Free(s, at))
  {
    hide Span, Range, Listed, Agree, Protected, Base, Conserved;
    if Span(at) <= s.alloc {
      Returned(s.unit, s.cur, SpaceOf(s), s.ckptAvail, s.alloc, Span(at));
      assert s.avail + Span(at) + (s.alloc - Span(at)) == s.avail + s.alloc;
    }
  }

  /** What freeing a block means: the live tree does not reference it any more and references all else
      it did; its bytes are available at once exactly if no checkpoint references them; nothing else
      changes. */
  lemma FreeMeans(s: State, at: Extent)
    requires Inv(s) && Freeable(s, at)
    ensures LiveUses(Free(s, at)) == LiveUses(s) - Span(at) && Span(at) <= LiveUses(s)
    ensures forall x | x in Span(at) :: x in Free(s, at).avail <==> x !in Used({}, s.cur)
    ensures Free(s, at).avail - Span(at) == s.avail
    ensures Free(s, at) == s.(avail := Free(s, at).avail, alloc := Free(s, at).alloc, discard := Free(s, at).discard)
  {
    hide Inv, Span, Base, Used, Protected;
    CurFacts(s);
    CurProtected(s);
    SpaceOut(s);
    UsedIsAllocs(s);
    AllocApart(s);
  }

  /** A block to be freed is on the live alloc list, or clear of it and of what is discarded. */
  lemma FreeCases(s: State, at: Extent)
    requires Inv(s) && Freeable(s, at)
    ensures at.size > 0 && Span(at) !! s.avail
    ensures Span(at) <= s.alloc || (Span(at) !! s.alloc && Span(at) !! s.discard && !(Span(at) <= s.alloc))
  {
    hide Inv, Base;
    CurFacts(s);
    SpaceOut(s);
    AllocApart(s);
    assert at.off in Span(at);
  }

  lemma UsedIsAllocs(s: State)
    requires Inv(s)
    ensures Used({}, s.cur) == Allocs(s.cur)
  {
    AllocsAreUsed({}, {}, s.cur);
  }

  lemma AllocApart(s: State)
    requires Inv(s)
    ensures s.alloc !! s.avail
  {
  }

  /** A block allocated by the live system goes back to what is available. */
  lemma Returned(unit: nat, cs: seq<Ckpt>, sp: Space, freed: set<int>, live: set<int>, block: set<int>)
    requires Conserved(unit, cs, sp, freed, live) && block <= live
    ensures Conserved(unit, cs, Space(sp.avail + block, sp.size), freed, live - block)
  {
  }

  lemma InvStart(s: State)
    requires Inv(s)
    ensures Inv(Start(s))
  {
  }

  lemma InvSave(s: State)
    requires Inv(s) && s.phase == PanicOnFailure
    ensures Inv(s.(durable := s.cur))
  {
    hide Base, Conserved, Uses;
    ProtectedIs(s.cur);
    SpaceOut(s);
    AgreeSelf(s.cur);
  }

  lemma SpaceOut(s: State)
    requires Inv(s)
    ensures Allocs(s.cur) + Exts(s.cur) !! s.avail + s.alloc
    ensures Allocs(s.cur) + Exts(s.cur) <= Range(s.unit, s.size)
  {
  }

  lemma {:induction false} UsesOrders(base: set<int>, cs: seq<Ckpt>, i: nat)
    requires i < |cs|
    ensures Uses(base, cs)[i].0 == cs[i].order
    decreases |cs|
  {
    if i > 0 {
      UsesOrders(HandsOn(base, cs[0]), cs[1..], i - 1);
    }
  }

  lemma AgreeSelf(cs: seq<Ckpt>)
    requires Distinct(cs)
    ensures Agree(Uses({}, cs), Uses({}, cs))
  {
    var u := Uses({}, cs);
    forall i, j | 0 <= i < |u| && 0 <= j < |u| && u[i].0 == u[j].0 ensures u[i].1 == u[j].1 {
      UsesOrders({}, cs, i);
      UsesOrders({}, cs, j);
    }
  }

  lemma InvResolve(s: State, failed: bool)
    requires Inv(s) && (s.phase == PanicOnFailure && !failed ==> s.durable == s.cur)
    ensures Inv(Resolve(s, failed))
  {
    hide Listed, Agree, Base, Range, Protected, Conserved, Uses;
    if s.phase == PanicOnFailure && !failed {
      SpaceOut(s);
      CurProtected(s);
      ResolveConserved(s.unit, s.cur, SpaceOf(s), s.ckptAvail, s.alloc);
    }
  }

  /** What was to become available is available. */
  lemma ResolveConserved(unit: nat, cs: seq<Ckpt>, sp: Space, freed: set<int>, live: set<int>)
    requires Conserved(unit, cs, sp, freed, live)
    ensures Conserved(unit, cs, Space(sp.avail + freed, sp.size), {}, live)
    ensures freed !! Allocs(cs) + Exts(cs)
  {
    hide Allocs, Exts, Range, Spaced;
  }

  lemma CurProtected(s: State)
    requires Inv(s)
    ensures Protected(s.cur) == Allocs(s.cur) + Exts(s.cur)
  {
    ProtectedIs(s.cur);
  }

  lemma InvLoad(unit: nat, cs: seq<Ckpt>)
    requires 0 < unit && Listed(unit, cs)
    ensures Inv(Load(unit, cs))
  {
    if cs == [] {
      LoadEmpty(unit);
    } else {
      LoadLast(unit, cs);
    }
  }

  lemma LoadEmpty(unit: nat)
    requires 0 < unit
    ensures Inv(Load(unit, []))
  {
  }

  lemma LoadLast(unit: nat, cs: seq<Ckpt>)
    requires 0 < unit && Listed(unit, cs) && cs != []
    ensures Inv(Load(unit, cs))
  {
    hide Range, Base, Agree, Uses, Chain, Used, Spaced, Distinct, AllSettled, Allocs, Exts;
    ProtectedIs(cs);
    AgreeSelf(cs);
    var c := cs[|cs| - 1];
    assert Conserved(unit, cs, Space(ReadAvail(c), c.fileSize), {}, {});
  }

  // ---- A checkpoint: the new entry and the deletions ----

  /** The live system joins the list as its last entry. */
  lemma LiveJoins(s: State, order: nat, root: Extent)
    requires Inv(s) && Span(root) <= s.alloc && s.ckptAvail == {}
    ensures var cs := s.cur + [NewCkpt(s, order, root)];
            && Chain({}, {}, cs) && Apart(cs)
            && Conserved(s.unit, cs, SpaceOf(s), {}, {})
            && Base({}, cs) == Base({}, s.cur) + s.alloc - s.discard - Span(root)
            && Uses({}, cs) == Uses({}, s.cur) + [(order, Base({}, s.cur) + s.alloc - s.discard)]
  {
    hide Inv, Span, Range, Allocs, Exts, Base, Ext, ExtApart, ExtsApart, Chain, Uses, Conserved;
    var c := NewCkpt(s, order, root);
    OneMore(s.cur, c);
    BareEntry(s, order, root);
    CurFacts(s);
    LiveLinks(Allocs(s.cur), Base({}, s.cur), s.alloc, s.discard, Span(root));
    MoveLive(s.unit, s.cur, c, SpaceOf(s), s.alloc);
  }

  lemma BareEntry(s: State, order: nat, root: Extent)
    ensures Ext(NewCkpt(s, order, root)) == {} && ExtApart(NewCkpt(s, order, root))
  {
  }

  lemma CurFacts(s: State)
    requires Inv(s)
    ensures Chain({}, {}, s.cur) && Apart(s.cur) && Base({}, s.cur) <= Allocs(s.cur)
    ensures s.alloc !! Allocs(s.cur) && s.discard <= Base({}, s.cur)
    ensures Conserved(s.unit, s.cur, SpaceOf(s), s.ckptAvail, s.alloc)
    ensures s.unit <= s.size
  {
    ProtectedIs(s.cur);
  }

  lemma LiveLinks(allocs: set<int>, base: set<int>, alloc: set<int>, discard: set<int>, root: set<int>)
    requires base <= allocs && alloc !! allocs && discard <= base && root <= alloc
    ensures discard <= base + alloc && root !! discard && alloc !! discard
  {
  }

  lemma MoveLive(unit: nat, cs: seq<Ckpt>, c: Ckpt, sp: Space, live: set<int>)
    requires Conserved(unit, cs, sp, {}, live) && c.alloc == live && Ext(c) == {} && ExtApart(c)
    ensures Conserved(unit, cs + [c], sp, {}, {})
  {
    OneMore(cs, c);
    hide Allocs, Exts, Ext, ExtApart, ExtsApart, Range;
  }

  lemma RollConserves(unit: nat, cs: seq<Ckpt>, del: seq<bool>, sp: Space)
    requires |cs| == |del| > 0 && !del[|del| - 1]
    requires Chain({}, {}, cs) && Conserved(unit, cs, sp, {}, {})
    ensures Conserved(unit, Roll(cs, del).cs, sp, Roll(cs, del).freed, {})
  {
    RollSpace({}, {}, cs, del);
    hide Roll, Allocs, Exts, Range;
  }

  // ---- A checkpoint: writing lists ----

  /** Two lists of checkpoints that differ only in where their lists are written. */
  ghost predicate SameLists(cs: seq<Ckpt>, ds: seq<Ckpt>) {
    && |cs| == |ds|
    && forall i | 0 <= i < |cs| ::
         && cs[i].order == ds[i].order && cs[i].root == ds[i].root
         && cs[i].alloc == ds[i].alloc && cs[i].discard == ds[i].discard
  }

  lemma {:induction false} SameMeaning(allocs: set<int>, base: set<int>, cs: seq<Ckpt>, ds: seq<Ckpt>)
    requires SameLists(cs, ds)
    ensures Chain(allocs, base, cs) <==> Chain(allocs, base, ds)
    ensures Base(base, cs) == Base(base, ds)
    ensures Uses(base, cs) == Uses(base, ds)
    ensures Allocs(cs) == Allocs(ds)
    decreases |cs|
  {
    if cs != [] {
      assert SameLists(cs[1..], ds[1..]);
      SameMeaning(allocs + cs[0].alloc, HandsOn(base, cs[0]), cs[1..], ds[1..]);
    }
  }

  /** A block is taken to hold a list of entry k. */
  lemma EntryTakes(unit: nat, cs: seq<Ckpt>, k: nat, c: Ckpt, at: Extent, sp: Space, freed: set<int>)
    requires k < |cs| && Conserved(unit, cs, sp, freed, {}) && CanTake(sp, at)
    requires c.alloc == cs[k].alloc && Ext(c) == Ext(cs[k]) + Span(at)
    requires Span(at) !! Ext(cs[k]) && ExtApart(cs[k]) ==> ExtApart(c)
    ensures Conserved(unit, cs[k := c], Take(sp, at), freed, {})
  {
    hide Span, Range, Allocs, Exts, Ext, ExtApart, ExtsApart, CanTake, Take;
    TakeTakes(unit, sp, at);
    var held := Allocs(cs) + Exts(cs);
    Regrow(sp.avail, freed, held, unit, sp.size, Span(at), Take(sp, at).size);
    EntryGrows(cs, k, c, Span(at));
  }

  lemma EntryGrows(cs: seq<Ckpt>, k: nat, c: Ckpt, block: set<int>)
    requires k < |cs| && Spaced(cs) && block !! Allocs(cs) + Exts(cs)
    requires c.alloc == cs[k].alloc && Ext(c) == Ext(cs[k]) + block
    requires block !! Ext(cs[k]) && ExtApart(cs[k]) ==> ExtApart(c)
    ensures Allocs(cs[k := c]) == Allocs(cs) && Exts(cs[k := c]) == Exts(cs) + block
    ensures Spaced(cs[k := c])
  {
    hide Span, Allocs, Exts, Ext, ExtApart, ExtsApart;
    var p, q := cs[..k], cs[k + 1..];
    var one, new_ := [cs[k]], [c];
    assert cs == p + (one + q) && cs[k := c] == p + (new_ + q);
    HoldConcat(p, one + q);
    HoldConcat(one, q);
    HoldConcat(p, new_ + q);
    HoldConcat(new_, q);
    OneEntry(cs[k]);
    OneEntry(c);
  }

  lemma OneEntry(c: Ckpt)
    ensures Allocs([c]) == c.alloc && Exts([c]) == Ext(c) && (ExtsApart([c]) <==> ExtApart(c))
  {
  }

  /** The blocks of a stale entry's lists are free, and written again they stay apart. */
  lemma NoBytes(at: Extent)
    requires at.size == 0
    ensures Span(at) == {}
  {
  }

  lemma StaleTakes(unit: nat, cs: seq<Ckpt>, k: nat, at: (Extent, Extent), sp: Space, freed: set<int>)
    requires k < |cs| && Conserved(unit, cs, sp, freed, {})
    requires cs[k].allocAt == NOWHERE && cs[k].discardAt == NOWHERE
    requires CanTake(sp, at.0) && CanTake(Take(sp, at.0), at.1)
    ensures Conserved(unit, cs[k := Rewrote(cs[k], at)], Take(Take(sp, at.0), at.1), freed, {})
  {
    hide Span, CanTake, Take, Conserved;
    var c := cs[k];
    var c1 := c.(allocAt := at.0);
    var c2 := Rewrote(c, at);
    NoBytes(NOWHERE);
    EntryTakes(unit, cs, k, c1, at.0, sp, freed);
    assert Span(c1.discardAt) == {};
    EntryTakes(unit, cs[k := c1], k, c2, at.1, Take(sp, at.0), freed);
    assert cs[k := c1][k := c2] == cs[k := c2];
  }

  lemma RewriteNone(cs: seq<Ckpt>, lists: seq<(Extent, Extent)>, sp: Space)
    ensures CanRewrite(cs, 0, lists, sp) && Rewrite(cs, 0, lists, sp) == (cs, sp)
  {
  }

  lemma {:induction false} RewritePrefix(cs: seq<Ckpt>, k: nat, lists: seq<(Extent, Extent)>, at: (Extent, Extent),
                                         sp: Space)
    requires k <= |cs| && k <= |lists|
    ensures Rewrite(cs, k, lists + [at], sp) == Rewrite(cs, k, lists, sp)
    ensures CanRewrite(cs, k, lists + [at], sp) <==> CanRewrite(cs, k, lists, sp)
  {
    if k > 0 {
      RewritePrefix(cs, k - 1, lists, at, sp);
    }
  }

  lemma RewriteOne(cs: seq<Ckpt>, k: nat, lists: seq<(Extent, Extent)>, at: (Extent, Extent), sp: Space)
    requires k < |cs| && |lists| == k && CanRewrite(cs, k, lists, sp)
    requires var sp1 := Rewrite(cs, k, lists, sp).1;
             cs[k].update ==> CanWrite(sp1, cs[k].alloc, at.0) && CanWrite(Take(sp1, at.0), cs[k].discard, at.1)
    ensures CanRewrite(cs, k + 1, lists + [at], sp)
    ensures var (ds, sp1) := Rewrite(cs, k, lists, sp);
            Rewrite(cs, k + 1, lists + [at], sp) ==
            (if cs[k].update then (ds[k := Rewrote(cs[k], at)], Take(Take(sp1, at.0), at.1)) else (ds, sp1))
  {
    hide CanTake, Take;
    RewritePrefix(cs, k, lists, at, sp);
    assert (lists + [at])[k] == at;
  }

  /** An entry marked for update has no written alloc or discard list. */
  ghost predicate StaleFree(cs: seq<Ckpt>) {
    forall i | 0 <= i < |cs| && cs[i].update :: cs[i].allocAt == NOWHERE && cs[i].discardAt == NOWHERE
  }

  lemma {:induction false} RollStale(cs: seq<Ckpt>, del: seq<bool>)
    requires |cs| == |del| > 0 && !del[|del| - 1] && StaleFree(cs)
    ensures StaleFree(Roll(cs, del).cs)
    decreases |cs|
  {
    if |cs| == 1 {
    } else if !del[0] {
      RollStale(cs[1..], del[1..]);
    } else {
      var m := MergeInto(cs[0], cs[1]);
      var t := if del[1] then m else if |cs| == 2 then Reconciled(m) else Stale(Reconciled(m));
      RollStale([t] + cs[2..], del[1..]);
    }
  }

  lemma {:induction false} RewriteKeeps(unit: nat, cs: seq<Ckpt>, k: nat, lists: seq<(Extent, Extent)>, sp: Space,
                                        freed: set<int>)
    requires k <= |cs| && k <= |lists| && CanRewrite(cs, k, lists, sp)
    requires Conserved(unit, cs, sp, freed, {}) && StaleFree(cs)
    ensures var (ds, sp') := Rewrite(cs, k, lists, sp);
            && Conserved(unit, ds, sp', freed, {}) && SameLists(cs, ds)
            && (forall i | 0 <= i < k :: !ds[i].update) && ds[k..] == cs[k..]
            && sp'.avail <= sp.avail && sp.size <= sp'.size
  {
    hide Conserved, CanTake, Take, Span;
    if k > 0 {
      RewriteKeeps(unit, cs, k - 1, lists, sp, freed);
      var (ds, sp1) := Rewrite(cs, k - 1, lists, sp);
      assert ds[k - 1] == ds[k - 1..][0] == cs[k - 1..][0] == cs[k - 1];
      assert ds[k..] == ds[k - 1..][1..] && cs[k..] == cs[k - 1..][1..];
      if cs[k - 1].update {
        var at := lists[k - 1];
        StaleTakes(unit, ds, k - 1, at, sp1, freed);
        TakeShrinks(sp1, at.0);
        TakeShrinks(Take(sp1, at.0), at.1);
      }
    }
  }

  lemma TakeShrinks(sp: Space, at: Extent)
    ensures Take(sp, at).avail <= sp.avail && sp.size <= Take(sp, at).size
  {
  }

  lemma {:induction false} TrimKeeps(unit: nat, cs: seq<Ckpt>, sp: Space, freed: set<int>)
    requires Conserved(unit, cs, sp, freed, {})
    ensures Conserved(unit, cs, Trim(sp), freed, {})
    ensures Trim(sp).avail == sp.avail - Range(Trim(sp).size, sp.size)
    ensures Range(Trim(sp).size, sp.size) <= sp.avail
    decreases sp.size
  {
    if sp.size > 0 && sp.size - 1 in sp.avail {
      var less := Space(sp.avail - {sp.size - 1}, sp.size - 1);
      hide Allocs, Exts, Spaced;
      assert sp.size - 1 in Range(unit, sp.size);
      assert Range(unit, less.size) == Range(unit, sp.size) - {sp.size - 1};
      TrimKeeps(unit, cs, less, freed);
      assert Range(Trim(sp).size, sp.size) == Range(Trim(sp).size, less.size) + {sp.size - 1};
    } else {
      assert Range(sp.size, sp.size) == {};
    }
  }

  // ---- A checkpoint: the live system's own lists ----

  /** The live system's entry keeps its order and root, and is written only at the end. */
  ghost predicate Unwritten(c: Ckpt, order: nat, root: Extent) {
    && c.order == order && c.root == root && !c.update
    && c.allocAt == NOWHERE && c.discardAt == NOWHERE && c.availAt == NOWHERE
  }

  lemma {:induction false} RollLast(cs: seq<Ckpt>, del: seq<bool>, order: nat, root: Extent)
    requires |cs| == |del| > 0 && !del[|del| - 1] && Unwritten(cs[|cs| - 1], order, root)
    ensures var r := Roll(cs, del).cs; Unwritten(r[|r| - 1], order, root)
    decreases |cs|
  {
    if |cs| == 1 {
    } else if !del[0] {
      RollLast(cs[1..], del[1..], order, root);
    } else {
      var m := MergeInto(cs[0], cs[1]);
      var t := if del[1] then m else if |cs| == 2 then Reconciled(m) else Stale(Reconciled(m));
      RollLast([t] + cs[2..], del[1..], order, root);
    }
  }

  lemma {:induction false} RewriteLeaves(cs: seq<Ckpt>, k: nat, lists: seq<(Extent, Extent)>, sp: Space, i: nat)
    requires k <= |cs| && k <= |lists| && i < |cs| && !cs[i].update
    ensures Rewrite(cs, k, lists, sp).0[i] == cs[i]
  {
    if k > 0 {
      RewriteLeaves(cs, k - 1, lists, sp, i);
    }
  }

  lemma FinishKeeps(unit: nat, cs: seq<Ckpt>, plan: Plan, freed: set<int>, sp: Space, size: int)
    requires cs != [] && Conserved(unit, cs, sp, freed, {})
    requires var c := cs[|cs| - 1]; Unwritten(c, c.order, c.root)
    requires CanTake(sp, plan.alloc) && CanTake(Take(sp, plan.alloc), plan.discard)
    requires CanTake(Take(Take(sp, plan.alloc), plan.discard), plan.avail)
    ensures var (c, sp5) := Finished(cs[|cs| - 1], plan, freed, sp, size);
            var ds := cs[..|cs| - 1] + [c];
            && Conserved(unit, ds, sp5, freed, {})
            && Conserved(unit, ds, Space(ReadAvail(c), c.fileSize), {}, {})
            && SameLists(cs, ds)
            && sp5.avail <= sp.avail && sp.size <= sp5.size
  {
    hide Span, CanTake, Take, Conserved, Ext, ExtApart;
    var k := |cs| - 1;
    var c := cs[k];
    var sp3 := Take(sp, plan.alloc);
    var sp4 := Take(sp3, plan.discard);
    var (c3, sp5) := Finished(c, plan, freed, sp, size);
    var c1, c2 := c.(allocAt := plan.alloc), c.(allocAt := plan.alloc, discardAt := plan.discard);
    ThreeBlocks(c, c1, c2, c3);
    assert cs[k := c1][k := c2] == cs[k := c2] && cs[k := c2][k := c3] == cs[k := c3];
    EntryTakes(unit, cs, k, c1, plan.alloc, sp, freed);
    EntryTakes(unit, cs[k := c1], k, c2, plan.discard, sp3, freed);
    EntryTakes(unit, cs[k := c2], k, c3, plan.avail, sp4, freed);
    TakeShrinks(sp, plan.alloc);
    TakeShrinks(sp3, plan.discard);
    TakeShrinks(sp4, plan.avail);
    ReadsBack(unit, cs[k := c2], cs[k := c3], sp4, plan.avail, freed);
    assert cs[..k] + [c3] == cs[k := c3];
  }

  /** An entry's three blocks, placed one after the other. */
  lemma ThreeBlocks(c: Ckpt, c1: Ckpt, c2: Ckpt, c3: Ckpt)
    requires Unwritten(c, c.order, c.root)
    requires c1 == c.(allocAt := c1.allocAt) && c2 == c1.(discardAt := c2.discardAt)
    requires c3.allocAt == c1.allocAt && c3.discardAt == c2.discardAt
    ensures Ext(c1) == Ext(c) + Span(c1.allocAt)
    ensures Ext(c2) == Ext(c1) + Span(c2.discardAt)
    ensures Ext(c3) == Ext(c2) + Span(c3.availAt)
    ensures ExtApart(c1)
    ensures Span(c2.discardAt) !! Ext(c1) ==> ExtApart(c2)
    ensures Span(c3.availAt) !! Ext(c2) && ExtApart(c2) ==> ExtApart(c3)
  {
    assert Span(NOWHERE) == {};
    hide Span;
  }

  /** The avail list as read back is what is available once the checkpoint is resolved. */
  lemma ReadsBack(unit: nat, cs: seq<Ckpt>, ds: seq<Ckpt>, sp: Space, at: Extent, freed: set<int>)
    requires Conserved(unit, cs, sp, freed, {}) && CanTake(sp, at)
    requires Conserved(unit, ds, Take(sp, at), freed, {})
    ensures sp.avail + freed - Span(at) == Take(sp, at).avail + freed
    ensures Conserved(unit, ds, Space(sp.avail + freed - Span(at), Take(sp, at).size), {}, {})
  {
    hide Span, Range, Allocs, Exts, CanTake, Take, Spaced;
    TakeTakes(unit, sp, at);
    Regrow(sp.avail, freed, Allocs(cs) + Exts(cs), unit, sp.size, Span(at), Take(sp, at).size);
  }

  // ---- A checkpoint: names and sizes ----

  lemma {:induction false} PickFrom<T>(s: seq<T>, del: seq<bool>, i: nat) returns (k: nat)
    requires |s| == |del| && i < |Pick(s, del)|
    ensures k < |s| && Pick(s, del)[i] == s[k] && !del[k]
  {
    if del[0] {
      k := PickFrom(s[1..], del[1..], i);
      k := k + 1;
    } else if i == 0 {
      k := 0;
    } else {
      k := PickFrom(s[1..], del[1..], i - 1);
      k := k + 1;
    }
  }

  ghost predicate Unique(u: seq<(nat, set<int>)>) {
    forall i, j | 0 <= i < j < |u| :: u[i].0 != u[j].0
  }

  lemma {:induction false} PickUnique(u: seq<(nat, set<int>)>, del: seq<bool>)
    requires |u| == |del| && Unique(u)
    ensures Unique(Pick(u, del))
  {
    if u != [] {
      PickUnique(u[1..], del[1..]);
      var p := Pick(u[1..], del[1..]);
      forall j | 0 <= j < |p| ensures p[j].0 != u[0].0 {
        var k := PickFrom(u[1..], del[1..], j);
      }
    }
  }

  lemma DistinctUnique(cs: seq<Ckpt>)
    ensures Distinct(cs) <==> Unique(Uses({}, cs))
  {
    forall i | 0 <= i < |cs| ensures Uses({}, cs)[i].0 == cs[i].order {
      UsesOrders({}, cs, i);
    }
  }

  /** Survivors agree with the list they come from, and the new order is new. */
  lemma SurvivorsAgree(cs: seq<Ckpt>, order: nat, used: set<int>, del: seq<bool>)
    requires Distinct(cs) && order !in Orders(cs) && |del| == |cs| + 1
    ensures var u := Uses({}, cs) + [(order, used)];
            Unique(Pick(u, del)) && Agree(Uses({}, cs), Pick(u, del))
  {
    var v := Uses({}, cs);
    var u := v + [(order, used)];
    forall i | 0 <= i < |cs| ensures v[i].0 == cs[i].order && v[i].0 != order {
      UsesOrders({}, cs, i);
    }
    PickUnique(u, del);
    var p := Pick(u, del);
    forall i, j | 0 <= i < |v| && 0 <= j < |p| && v[i].0 == p[j].0 ensures v[i].1 == p[j].1 {
      var k := PickFrom(u, del, j);
    }
  }

  lemma SubsetSize(s: set<int>, t: set<int>)
    requires s <= t
    ensures |s| <= |t|
  {
    assert t == s + (t - s);
  }

  /** The size of a new checkpoint counts the bytes it references, with and without its root. */
  lemma SizeIs(base: set<int>, allocs: set<int>, alloc: set<int>, discard: set<int>, root: Extent)
    requires base <= allocs && alloc !! allocs && discard <= base && Span(root) <= alloc
    ensures |base + alloc - discard| == |base| + |alloc| - |discard|
    ensures |base + alloc - discard - Span(root)| == |base| + |alloc| - |discard| - root.size
  {
    RangeSize(root.off, root.End());
    hide Range, Span;
    SizeAdd(base, alloc);
    SizeSub(base + alloc, discard);
    SizeSub(base + alloc - discard, Span(root));
  }

  // ---- A checkpoint keeps the invariant ----

  lemma RootTaken(s: State, root: Extent)
    requires Inv(s) && CanTake(SpaceOf(s), root)
    ensures var s1 := WithRoot(s, root);
            && Inv(s1) && Span(root) <= s1.alloc
            && s1 == s.(size := s1.size, avail := s1.avail, alloc := s1.alloc)
  {
    hide Inv, CanTake, Take;
    if root.size == 0 {
      assert Span(root) == {};
    } else {
      InvAlloc(s, root);
    }
  }

  lemma InvRefused(s: State, root: Extent)
    requires Inv(s) && CanTake(SpaceOf(s), root)
    ensures Inv(Refused(s, root))
  {
    hide CanTake, Take, Listed, Conserved, Protected, Base, Agree;
    RootTaken(s, root);
  }

  /** The live system has joined the list and the deletions are done. */
  lemma AfterDeletions(s: State, order: nat, del: seq<bool>, root: Extent)
    requires Inv(s) && s.phase == InProgress && CanTake(SpaceOf(s), root) && |del| == |s.cur|
    ensures var s1 := WithRoot(s, root);
            var all := s.cur + [NewCkpt(s1, order, root)];
            var r := Roll(all, del + [false]);
            && Chain({}, {}, all) && Spaced(all)
            && Conserved(s.unit, r.cs, SpaceOf(s1), r.freed, {})
            && Chain({}, {}, r.cs) && Apart(r.cs) && StaleFree(r.cs)
            && Unwritten(r.cs[|r.cs| - 1], order, root)
            && Base({}, r.cs) == Base({}, s.cur) + s1.alloc - s.discard - Span(root)
            && Uses({}, r.cs)
               == Pick(Uses({}, s.cur) + [(order, Base({}, s.cur) + s1.alloc - s.discard)], del + [false])
            && s1.avail <= s.avail && s.size <= s1.size
  {
    hide Inv, CanTake, Take, Roll, Chain, Base, Uses, Span, Range, Conserved, Spaced;
    RootTaken(s, root);
    var s1 := WithRoot(s, root);
    IdleAvail(s1);
    LiveJoins(s1, order, root);
    var all, del' := s1.cur + [NewCkpt(s1, order, root)], del + [false];
    SpacedIf(s.unit, all, SpaceOf(s1));
    RollMeans({}, {}, all, del');
    RollConserves(s.unit, all, del', SpaceOf(s1));
    SettledStale(s1, order, root);
    RollApart(all, del');
    RollStale(all, del');
    RollLast(all, del', order, root);
    RootGrows(s, root);
  }

  lemma SpacedIf(unit: nat, cs: seq<Ckpt>, sp: Space)
    requires Conserved(unit, cs, sp, {}, {})
    ensures Spaced(cs)
  {
  }

  /** The list of checkpoints once the deletions and the rewrites are done. */
  lemma BeforeFinish(s: State, order: nat, del: seq<bool>, plan: Plan)
    requires Inv(s) && s.phase == InProgress && PlanStarts(s, order, del, plan)
    ensures var s1 := WithRoot(s, plan.root);
            var freed := Deleted(s, order, del, plan).freed;
            var (cs, sp1) := Updated(s, order, del, plan);
            && Conserved(s.unit, cs, Trim(sp1), freed, {})
            && Chain({}, {}, cs) && Apart(cs) && (forall i | 0 <= i < |cs| :: !cs[i].update)
            && cs != [] && Unwritten(cs[|cs| - 1], order, plan.root)
            && Base({}, cs) == Base({}, s.cur) + s1.alloc - s.discard - Span(plan.root)
            && Uses({}, cs)
               == Pick(Uses({}, s.cur) + [(order, Base({}, s.cur) + s1.alloc - s.discard)], del + [false])
            && sp1.avail <= s1.avail && s1.avail <= s.avail
            && Range(Trim(sp1).size, sp1.size) <= sp1.avail && Trim(sp1).avail <= sp1.avail
            && s1.size <= sp1.size && s.size <= s1.size
  {
    hide Inv, CanTake, Take, CanRewrite, Rewrite, Trim, Roll, Chain, Base, Uses, Span, Range, Conserved;
    AfterDeletions(s, order, del, plan.root);
    var sp0 := SpaceOf(WithRoot(s, plan.root));
    var r := Deleted(s, order, del, plan);
    RewriteKeeps(s.unit, r.cs, |r.cs|, plan.lists, sp0, r.freed);
    var (cs, sp1) := Updated(s, order, del, plan);
    SameMeaning({}, {}, r.cs, cs);
    RewriteLeaves(r.cs, |r.cs|, plan.lists, sp0, |cs| - 1);
    TrimKeeps(s.unit, cs, sp1, r.freed);
  }

  lemma IdleAvail(s: State)
    requires Inv(s) && s.phase == InProgress
    ensures s.ckptAvail == {} && s.cur == s.durable
  {
  }

  lemma SettledStale(s: State, order: nat, root: Extent)
    requires Inv(s)
    ensures var cs := s.cur + [NewCkpt(s, order, root)];
            StaleFree(cs) && Unwritten(cs[|cs| - 1], order, root)
            && (Apart(cs) ==> Apart(cs[1..]) && cs[0].alloc !! cs[0].discard)
  {
    hide Span, Base, Allocs, Exts, Conserved, Chain, Uses, Agree;
    assert AllSettled(s.cur);
  }

  lemma RootGrows(s: State, root: Extent)
    ensures WithRoot(s, root).avail <= s.avail && s.size <= WithRoot(s, root).size
  {
  }

  /** The reported size counts the bytes the new checkpoint references, the rolling size leaves out
      its root, and the bound by the file size never bites. */
  lemma NewSizeIs(s: State, root: Extent, cs: seq<Ckpt>, sp: Space, freed: set<int>)
    requires Inv(s) && CanTake(SpaceOf(s), root) && Conserved(s.unit, cs, sp, freed, {})
    requires Base({}, cs) == Base({}, s.cur) + WithRoot(s, root).alloc - s.discard - Span(root)
    ensures NewSize(s, root) == |Base({}, s.cur) + WithRoot(s, root).alloc - s.discard|
    ensures NewSize(s, root) - root.size == |Base({}, cs)| <= sp.size
  {
    hide Inv, CanTake, Take, Span, Base, Allocs, Exts, Range, Conserved, Chain, Apart;
    var s1 := WithRoot(s, root);
    RootTaken(s, root);
    CurFacts(s1);
    SizeBefore(s);
    BaseInside(s.unit, cs, sp, freed);
    SizeIs(Base({}, s.cur), Allocs(s.cur), s1.alloc, s.discard, root);
  }

  lemma SizeBefore(s: State)
    requires Inv(s)
    ensures s.ckptSize == |Base({}, s.cur)|
  {
  }

  lemma BaseInside(unit: nat, cs: seq<Ckpt>, sp: Space, freed: set<int>)
    requires Conserved(unit, cs, sp, freed, {})
    ensures |Base({}, cs)| <= sp.size
  {
    hide Base, Allocs, Exts, Range, Spaced;
    BaseInAllocs({}, cs);
    assert Allocs(cs) <= Range(unit, sp.size);
    SubsetSize(Base({}, cs), Range(unit, sp.size));
    RangeSize(unit, sp.size);
  }

  lemma StillGuarded(s: State, avail: set<int>, size: nat, size': nat)
    requires Inv(s) && avail <= s.avail && size <= size'
    requires s.size <= size || Range(size, s.size) <= s.avail
    ensures Protected(s.durable) !! avail + {} && Protected(s.durable) <= Range(s.unit, size')
  {
    hide Protected, Listed, Conserved, Base;
    forall x | x in Protected(s.durable) ensures x < size {
      assert x in Range(s.unit, s.size) && x !in s.avail;
      assert size <= x ==> x in Range(size, s.size);
    }
  }

  lemma InvParts(s: State)
    requires Inv(s)
    ensures 0 < s.unit && Listed(s.unit, s.durable) && Distinct(s.cur)
  {
  }

  lemma InvCheckpoint(s: State, order: nat, del: seq<bool>, plan: Plan)
    requires Inv(s) && s.phase == InProgress && PlanOk(s, order, del, plan) && order !in Orders(s.cur)
    ensures Inv(Checkpoint(s, order, del, plan))
    ensures Uses({}, Checkpoint(s, order, del, plan).cur)
         == Pick(Uses({}, s.cur)
                 + [(order, Base({}, s.cur) + WithRoot(s, plan.root).alloc - s.discard)], del + [false])
  {
    hide CanTake, Take, CanRewrite, Rewrite, Trim, Roll, Chain, Base, Uses, Span, Range, Conserved;
    hide Protected, Distinct, Orders, Agree, Inv, Pick, Unique, Updated;
    BeforeFinish(s, order, del, plan);
    var s1 := WithRoot(s, plan.root);
    var r := Deleted(s, order, del, plan);
    var (cs, sp1) := Updated(s, order, del, plan);
    var sp2 := Trim(sp1);
    var rolling := Min(NewSize(s, plan.root) - plan.root.size, sp2.size);
    var (c, sp5) := Finished(cs[|cs| - 1], plan, r.freed, sp2, rolling);
    var ds := cs[..|cs| - 1] + [c];
    var s' := Checkpoint(s, order, del, plan);
    assert s' == s.(size := sp5.size, avail := sp5.avail, alloc := {}, discard := {},
                    ckptAvail := r.freed, ckptSize := rolling, phase := PanicOnFailure, cur := ds);
    hide Checkpoint, Deleted, Finished;
    NewSizeIs(s, plan.root, cs, sp2, r.freed);
    FinishKeeps(s.unit, cs, plan, r.freed, sp2, rolling);
    SameMeaning({}, {}, cs, ds);
    IdleAvail(s);
    InvParts(s);
    SurvivorsAgree(s.cur, order, Base({}, s.cur) + s1.alloc - s.discard, del + [false]);
    DistinctUnique(ds);
    TrimGuard(s, sp1, sp2);
    StillGuarded(s, sp5.avail, sp2.size, sp5.size);
    Assembled(s', c);
  }

  lemma TrimGuard(s: State, sp1: Space, sp2: Space)
    requires s.size <= sp1.size && sp1.avail <= s.avail
    requires Range(sp2.size, sp1.size) <= sp1.avail
    ensures s.size <= sp2.size || Range(sp2.size, s.size) <= s.avail
  {
  }

  lemma Assembled(s: State, c: Ckpt)
    requires 0 < s.unit && Listed(s.unit, s.durable) && s.cur != [] && c == s.cur[|s.cur| - 1]
    requires Chain({}, {}, s.cur) && AllSettled(s.cur) && Distinct(s.cur)
    requires Conserved(s.unit, s.cur, Space(ReadAvail(c), c.fileSize), {}, {})
    requires c.ckptSize == s.ckptSize == |Base({}, s.cur)|
    requires s.alloc == {} && s.discard == {} && s.phase == PanicOnFailure
    requires Conserved(s.unit, s.cur, SpaceOf(s), s.ckptAvail, {})
    requires Protected(s.durable) !! s.avail + {} && Protected(s.durable) <= Range(s.unit, s.size)
    requires Agree(Uses({}, s.durable), Uses({}, s.cur))
    ensures Inv(s)
  {
    hide Chain, Base, Uses, Conserved, Protected, Distinct, Agree, Range;
  }
}
