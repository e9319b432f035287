/** The extent-list operations the checkpoint code is built from, each proved against the file
bytes its lists cover. An operation that finds its lists inconsistent returns None: the source
panics there. */
module ExtentOps {
  import opened Extents

  // ---- Insert a range, merging with its neighbours ----

  /** Does a range overlap the extent before or the extent after its offset? */
  predicate Clash(s: seq<Extent>, off: nat, size: nat) {
    var k := Search(s, off);
    || (k > 0 && s[k - 1].End() > off)
    || (k < |s| && off + size > s[k].off)
  }

  /** Looking at the two neighbours is enough. */
  lemma ClashIff(s: seq<Extent>, off: nat, size: nat)
    requires Canonical(s) && size > 0
    ensures Clash(s, off, size) <==> !(Range(off, off + size) !! Bytes(s))
  {
    hide Search;
    var k := Search(s, off);
    var range := Range(off, off + size);
    BytesCut(s, k);
    if k > 0 {
      BeforeSearch(s, k, off);
      assert s[k - 1].End() > off ==> off in range;
    }
    if k < |s| {
      BytesOrder(s, k);
      BytesSplit(s, k);
      assert s[k].off in Span(s[k]);
      assert off + size > s[k].off ==> s[k].off in range;
    }
  }

  lemma BeforeSearch(s: seq<Extent>, k: nat, off: nat)
    requires Canonical(s) && 0 < k <= |s| && s[k - 1].off < off
    ensures Below(s[..k], s[k - 1].End())
    ensures off in Bytes(s[..k]) <==> off < s[k - 1].End()
  {
    var t := s[..k];
    assert t[..k - 1] == s[..k - 1] && t[k..] == [];
    BytesSplit(t, k - 1);
    BytesOrder(s, k - 1);
  }

  /** The extents [lo, hi) a range merges with, and the extent that replaces them. */
  function Joined(s: seq<Extent>, off: nat, size: nat): (r: (nat, nat, Extent))
    ensures r.0 <= r.1 <= |s|
  {
    var k := Search(s, off);
    var before := k > 0 && s[k - 1].End() == off;
    var after := k < |s| && off + size == s[k].off;
    (if before then k - 1 else k,
     if after then k + 1 else k,
     Extent(if before then s[k - 1].off else off,
            size + (if before then s[k - 1].size else 0) + (if after then s[k].size else 0)))
  }

  lemma JoinedFits(s: seq<Extent>, off: nat, size: nat)
    requires Canonical(s) && size > 0 && !Clash(s, off, size)
    ensures var (lo, hi, ext) := Joined(s, off, size);
            && Canonical([ext])
            && (lo > 0 ==> s[lo - 1].End() < ext.off)
            && (hi < |s| ==> ext.End() < s[hi].off)
            && Bytes([ext]) == Bytes(s[lo..hi]) + Range(off, off + size)
  {
    hide Search, Bytes, Range;
    var k := Search(s, off);
    var before := k > 0 && s[k - 1].End() == off;
    var after := k < |s| && off + size == s[k].off;
    MergeSpan(s, k, before, after, off, size, Joined(s, off, size).2);
  }

  lemma MergedKeeps(s: seq<Extent>, off: nat, size: nat)
    requires Canonical(s) && size > 0 && !Clash(s, off, size)
    ensures var (lo, hi, ext) := Joined(s, off, size);
            && Canonical(Splice(s, lo, hi, [ext]))
            && Bytes(Splice(s, lo, hi, [ext])) == Bytes(s) + Range(off, off + size)
  {
    hide Canonical, Bytes, Splice, Clash, Joined;
    JoinedFits(s, off, size);
    var (lo, hi, ext) := Joined(s, off, size);
    SpliceKeeps(s, lo, hi, [ext]);
  }

  /** Add a range to a list, coalescing it with the extents it touches; an overlap is an error. */
  method Merge(el: ExtentList, off: nat, size: nat) returns (r: Option<ExtentList>)
    requires el.Valid() && size > 0
    ensures r.Some? <==> Range(off, off + size) !! el.Set()
    ensures r.Some? ==> r.value.Valid() && r.value.Set() == el.Set() + Range(off, off + size)
  {
    hide Canonical, Joined, Clash, Bytes;
    ClashIff(el.exts, off, size);
    if Clash(el.exts, off, size) {
      return None;
    }
    MergedKeeps(el.exts, off, size);
    RangeSize(off, off + size);
    var (lo, hi, ext) := Joined(el.exts, off, size);
    return Some(ExtentList(Splice(el.exts, lo, hi, [ext]), el.bytes + size));
  }

  lemma MergeSpan(s: seq<Extent>, k: nat, before: bool, after: bool, off: nat, size: nat, ext: Extent)
    requires k <= |s| && (before ==> k > 0 && s[k - 1].End() == off)
    requires after ==> k < |s| && off + size == s[k].off
    requires ext.off == if before then s[k - 1].off else off
    requires ext.End() == if after then s[k].End() else off + size
    ensures var lo, hi := if before then k - 1 else k, if after then k + 1 else k;
            Bytes([ext]) == Bytes(s[lo..hi]) + Range(off, off + size)
  {
    BytesOne(ext);
    var lo, hi := if before then k - 1 else k, if after then k + 1 else k;
    var mid := (if before then [s[k - 1]] else []) + (if after then [s[k]] else []);
    assert s[lo..hi] == mid;
    BytesConcat(if before then [s[k - 1]] else [], if after then [s[k]] else []);
    if before { BytesOne(s[k - 1]); }
    if after { BytesOne(s[k]); }
  }

  /** Add a range at or past the end of a list: the file has just been extended by it. */
  method Append(el: ExtentList, off: nat, size: nat) returns (r: ExtentList)
    requires size > 0
    ensures el.Valid() && Below(el.exts, off) ==> r.Valid() && r.Set() == el.Set() + Range(off, off + size)
  {
    hide Canonical, Bytes, Below, Splice, Range;
    var s, n := el.exts, |el.exts|;
    if n > 0 && s[n - 1].End() == off {
      if el.Valid() && Below(el.exts, off) {
        AppendGrows(el, off, size);
      }
      r := ExtentList(Splice(s, n - 1, n, [Extent(s[n - 1].off, s[n - 1].size + size)]), el.bytes + size);
    } else {
      if el.Valid() && Below(el.exts, off) {
        AppendAdds(el, off, size);
      }
      r := ExtentList(Splice(s, n, n, [Extent(off, size)]), el.bytes + size);
    }
  }

  lemma AppendGrows(el: ExtentList, off: nat, size: nat)
    requires el.Valid() && size > 0 && Below(el.exts, off)
    requires el.exts != [] && el.exts[|el.exts| - 1].End() == off
    ensures var s, n := el.exts, |el.exts|;
            var t := Splice(s, n - 1, n, [Extent(s[n - 1].off, s[n - 1].size + size)]);
            Canonical(t) && Bytes(t) == el.Set() + Range(off, off + size) && |Bytes(t)| == el.bytes + size
  {
    hide Canonical, Bytes, Below, Splice, Range;
    var s, n := el.exts, |el.exts|;
    RangeSize(off, off + size);
    LastBelow(s, off, size);
    SizeAdd(el.Set(), Range(off, off + size));
    LastGrows(s, off, size);
    SpliceKeeps(s, n - 1, n, [Extent(s[n - 1].off, s[n - 1].size + size)]);
    TradeUp(el.Set(), Bytes(s[n - 1..n]), Range(off, off + size));
  }

  lemma AppendAdds(el: ExtentList, off: nat, size: nat)
    requires el.Valid() && size > 0 && Below(el.exts, off)
    requires el.exts == [] || el.exts[|el.exts| - 1].End() != off
    ensures var t := Splice(el.exts, |el.exts|, |el.exts|, [Extent(off, size)]);
            Canonical(t) && Bytes(t) == el.Set() + Range(off, off + size) && |Bytes(t)| == el.bytes + size
  {
    hide Canonical, Bytes, Below, Splice, Range;
    var s, n := el.exts, |el.exts|;
    RangeSize(off, off + size);
    LastBelow(s, off, size);
    SizeAdd(el.Set(), Range(off, off + size));
    OneExtent(off, size);
    assert s[n..n] == [];
    BytesNone();
    SpliceKeeps(s, n, n, [Extent(off, size)]);
  }

  lemma OneExtent(off: nat, size: nat)
    requires size > 0
    ensures Canonical([Extent(off, size)]) && Bytes([Extent(off, size)]) == Range(off, off + size)
  {
    BytesOne(Extent(off, size));
  }

  lemma LastGrows(s: seq<Extent>, off: nat, size: nat)
    requires Canonical(s) && s != [] && s[|s| - 1].End() == off && size > 0
    ensures var n, last := |s|, Extent(s[|s| - 1].off, s[|s| - 1].size + size);
            && Canonical([last])
            && (n > 1 ==> s[n - 2].End() < last.off)
            && Bytes([last]) == Bytes(s[n - 1..n]) + Range(off, off + size)
  {
    var n, last := |s|, Extent(s[|s| - 1].off, s[|s| - 1].size + size);
    assert s[n - 1..n] == [s[n - 1]];
    BytesOne(s[n - 1]);
    BytesOne(last);
  }

  lemma LastBelow(s: seq<Extent>, off: nat, size: nat)
    requires Canonical(s) && Below(s, off)
    ensures s != [] ==> s[|s| - 1].End() <= off
    ensures Range(off, off + size) !! Bytes(s)
  {
    if s != [] {
      var e := s[|s| - 1];
      assert e.End() - 1 in Span(e);
      assert e.End() - 1 in Bytes(s);
    }
  }

  // ---- Remove a range ----

  /** The list without a range, the news that it has none of it, or the failure of a range that runs
      past the end of an extent: the source then computes a negative size for what is left. */
  datatype Removal = NotFound | Removed(value: ExtentList) | Overrun

  ghost predicate Overruns(s: seq<Extent>, off: nat, size: nat) {
    exists i :: 0 <= i < |s| && off < s[i].End() < off + size
  }

  /** Take a range out of the list. It need not hold all of it: what precedes the first extent that
      overlaps the range is ignored, but the range must not run past the end of that extent. */
  method RemoveOverlap(el: ExtentList, off: nat, size: nat) returns (r: Removal)
    requires el.Valid() && size > 0
    ensures r.NotFound? <==> Range(off, off + size) !! el.Set()
    ensures r.Overrun? <==> Overruns(el.exts, off, size)
    ensures r.Removed? ==> r.value.Valid() && r.value.Set() == el.Set() - Range(off, off + size)
    ensures Range(off, off + size) <= el.Set() ==> r.Removed?
  {
    hide Canonical, Bytes, Splice, Overruns, Range;
    var s := el.exts;
    var k := Search(s, off);
    ClashIff(s, off, size);
    if k > 0 && s[k - 1].End() > off {
      k := k - 1;
      OneBefore(s, k);
    } else if k < |s| && off + size > s[k].off {
      Positive(s, k);
    } else {
      NoOverrun(s, off, size);
      HasFirst(off, size);
      return NotFound;
    }
    OverrunIff(s, off, size, k);
    WholeFits(s, off, size, k);
    if off + size > s[k].End() {
      return Overrun;
    }
    var lo := if off < s[k].off then s[k].off else off;
    CutFront(el, off, size, k);
    return Removed(ExtentList(Splice(s, k, k + 1, Around(s[k], lo, off + size - lo)), el.bytes - (off + size - lo)));
  }

  lemma HasFirst(off: nat, size: nat)
    requires size > 0
    ensures off in Range(off, off + size)
  {
  }

  lemma OneBefore(s: seq<Extent>, k: nat)
    requires Canonical(s) && k < |s|
    ensures k > 0 ==> s[k - 1].End() < s[k].off
  {
  }

  lemma NoOverrun(s: seq<Extent>, off: nat, size: nat)
    requires Canonical(s) && Range(off, off + size) !! Bytes(s)
    ensures !Overruns(s, off, size)
  {
    forall i | 0 <= i < |s|
      ensures off < s[i].End() < off + size ==> s[i].End() - 1 in Range(off, off + size) * Bytes(s)
    {
      assert s[i].End() - 1 in Span(s[i]);
    }
  }

  /** The extent a removal picks is the first that overlaps the range. */
  ghost predicate Picked(s: seq<Extent>, off: nat, size: nat, k: nat) {
    && k < |s| && s[k].off < off + size && off < s[k].End()
    && (k > 0 ==> s[k - 1].End() <= off)
  }

  lemma OverrunIff(s: seq<Extent>, off: nat, size: nat, k: nat)
    requires Canonical(s) && Picked(s, off, size, k)
    ensures Overruns(s, off, size) <==> s[k].End() < off + size
  {
    if s[k].End() >= off + size {
      forall i | 0 <= i < |s| ensures !(off < s[i].End() < off + size) {
        if i < k {
          assert s[i].End() <= s[k - 1].End();
        }
      }
    }
  }

  lemma WholeFits(s: seq<Extent>, off: nat, size: nat, k: nat)
    requires Canonical(s) && size > 0 && Picked(s, off, size, k)
    ensures Range(off, off + size) <= Bytes(s) ==> off + size <= s[k].End()
  {
    if Range(off, off + size) <= Bytes(s) {
      HeldByOne(s, off, size, k);
    }
  }

  lemma CutFront(el: ExtentList, off: nat, size: nat, k: nat)
    requires el.Valid() && size > 0 && Picked(el.exts, off, size, k) && off + size <= el.exts[k].End()
    ensures var lo := if off < el.exts[k].off then el.exts[k].off else off;
            var t := Splice(el.exts, k, k + 1, Around(el.exts[k], lo, off + size - lo));
            && lo < off + size && Canonical(t) && Bytes(t) == el.Set() - Range(off, off + size)
            && |Bytes(t)| == el.bytes - (off + size - lo)
  {
    hide Canonical, Bytes, Splice, Around, Range, Span;
    var lo := if off < el.exts[k].off then el.exts[k].off else off;
    var rest := off + size - lo;
    NothingBefore(el.exts, off, lo, k);
    SpanIn(el.exts, k);
    Halves(off, lo, off + size);
    Inner(el.exts[k], lo, rest);
    CutKeeps(el.exts, k, lo, rest);
    SizeSub(el.Set(), Range(lo, lo + rest));
    RangeSize(lo, lo + rest);
    OnlyOne(el.Set(), Range(off, lo), Range(lo, lo + rest));
  }

  lemma OnlyOne(s: set<int>, a: set<int>, b: set<int>)
    requires a !! s
    ensures s - (a + b) == s - b
  {
  }

  lemma Halves(off: nat, lo: nat, hi: nat)
    requires off <= lo <= hi
    ensures Range(off, hi) == Range(off, lo) + Range(lo, hi)
  {
  }

  lemma Inner(e: Extent, off: nat, size: nat)
    requires e.off <= off && off + size <= e.End()
    ensures Range(off, off + size) <= Span(e)
  {
  }

  lemma NothingBefore(s: seq<Extent>, off: nat, lo: nat, k: nat)
    requires Canonical(s) && k < |s| && off <= lo && (off < lo ==> lo == s[k].off) && (k > 0 ==> s[k - 1].End() <= off)
    ensures Range(off, lo) !! Bytes(s)
  {
    forall x, i | x in Range(off, lo) && 0 <= i < |s| ensures x !in Span(s[i]) {
      if i < k {
        assert s[i].End() <= s[k - 1].End();
      }
    }
  }

  /** What is left of an extent when a range inside it goes: a piece before it, a piece after it. */
  function Around(e: Extent, off: nat, size: nat): seq<Extent> {
    (if e.off < off then [Extent(e.off, off - e.off)] else [])
    + (if off + size < e.End() then [Extent(off + size, e.End() - (off + size))] else [])
  }

  lemma CutKeeps(s: seq<Extent>, k: nat, off: nat, size: nat)
    requires Canonical(s) && size > 0 && Range(off, off + size) <= Bytes(s) && k < |s|
    requires s[k].off < off + size && off < s[k].End()
    ensures var t := Splice(s, k, k + 1, Around(s[k], off, size));
            Canonical(t) && Bytes(t) == Bytes(s) - Range(off, off + size)
  {
    hide Canonical, Bytes, Splice, Around;
    HeldByOne(s, off, size, k);
    AroundSpan(s[k], off, size);
    SpliceCut(s, k, Around(s[k], off, size));
    PutBack(Bytes(s), Span(s[k]), Range(off, off + size));
  }

  lemma Positive(s: seq<Extent>, k: nat)
    requires Canonical(s) && k < |s|
    ensures s[k].size > 0
  {
  }

  /** The extent a removal picks holds the whole range. */
  lemma HeldByOne(s: seq<Extent>, off: nat, size: nat, k: nat)
    requires Canonical(s) && size > 0 && Range(off, off + size) <= Bytes(s) && k < |s|
    requires s[k].off < off + size && off < s[k].End()
    ensures s[k].off <= off && off + size <= s[k].End()
  {
    var j := RangeInOneExtent(s, Extent(off, size));
  }

  lemma AroundSpan(e: Extent, off: nat, size: nat)
    requires e.off <= off && off + size <= e.End() && size > 0
    ensures var mid := Around(e, off, size);
            && Bytes(mid) == Span(e) - Range(off, off + size)
            && Canonical(mid)
            && (mid != [] ==> e.off <= mid[0].off && mid[|mid| - 1].End() <= e.End())
    ensures Range(off, off + size) <= Span(e)
  {
    var a := if e.off < off then [Extent(e.off, off - e.off)] else [];
    var b := if off + size < e.End() then [Extent(off + size, e.End() - (off + size))] else [];
    BytesConcat(a, b);
    if a != [] { BytesOne(a[0]); }
    if b != [] { BytesOne(b[0]); }
  }

  /** Replacing one extent by pieces of it keeps the list canonical. */
  lemma SpliceCut(s: seq<Extent>, k: nat, mid: seq<Extent>)
    requires Canonical(s) && k < |s| && Canonical(mid)
    requires mid != [] ==> s[k].off <= mid[0].off && mid[|mid| - 1].End() <= s[k].End()
    ensures Canonical(Splice(s, k, k + 1, mid))
    ensures Bytes(Splice(s, k, k + 1, mid)) == Bytes(s) - Span(s[k]) + Bytes(mid)
    ensures Span(s[k]) <= Bytes(s)
  {
    assert s[k..k + 1] == [s[k]];
    BytesOne(s[k]);
    assert mid != [] && k > 0 ==> s[k - 1].End() < mid[0].off;
    assert mid != [] && k + 1 < |s| ==> mid[|mid| - 1].End() < s[k + 1].off;
    hide Canonical, Bytes, Splice;
    SpliceKeeps(s, k, k + 1, mid);
  }

  // ---- Merge two lists ----

  /** Merge list a into list b. The longer of two lists of the same kind is kept and the shorter
      one merged into it. */
  method MergeLists(a: ExtentList, b: ExtentList) returns (r: Option<ExtentList>)
    requires a.Valid() && b.Valid()
    ensures r.Some? <==> a.Set() !! b.Set()
    ensures r.Some? ==> r.value.Valid() && r.value.Set() == a.Set() + b.Set()
  {
    hide Canonical, Bytes, Range, Merging;
    var from, into := a, b;
    if |a.exts| > |b.exts| {
      from, into := b, a;
    }
    ghost var into0 := into.Set();
    var i := 0;
    BytesNone();
    MergingNone(into, from.exts);
    while i < |from.exts|
      invariant 0 <= i <= |from.exts| && into.Valid() && Merging(into, into0, from.exts, i)
    {
      var e := from.exts[i];
      MergingNext(into, into0, from.exts, i);
      var m := Merge(into, e.off, e.size);
      if m.None? {
        return None;
      }
      into := m.value;
      i := i + 1;
    }
    MergingAll(into, into0, from.exts);
    return Some(into);
  }

  /** The first extents of a list have been merged into another. */
  ghost predicate Merging(into: ExtentList, into0: set<int>, from: seq<Extent>, i: nat) {
    i <= |from| && into.Set() == into0 + Bytes(from[..i]) && into0 !! Bytes(from[..i])
  }

  lemma MergingNone(into: ExtentList, from: seq<Extent>)
    ensures Merging(into, into.Set(), from, 0)
  {
  }

  /** Merging one more, or failing to because the lists overlap. */
  lemma MergingNext(into: ExtentList, into0: set<int>, from: seq<Extent>, i: nat)
    requires Canonical(from) && i < |from| && Merging(into, into0, from, i)
    ensures from[i].size > 0
    ensures var range := Range(from[i].off, from[i].off + from[i].size);
            && (!(range !! into.Set()) ==> !(Bytes(from) !! into0))
            && forall m: ExtentList | range !! into.Set() && m.Set() == into.Set() + range
                 :: Merging(m, into0, from, i + 1)
  {
    hide Canonical, Bytes, Range;
    BytesStep(from, i);
  }

  lemma MergingAll(into: ExtentList, into0: set<int>, from: seq<Extent>)
    requires Merging(into, into0, from, |from|)
    ensures into.Set() == into0 + Bytes(from) && into0 !! Bytes(from)
  {
  }

  lemma BytesNone()
    ensures Bytes([]) == {} && Canonical([])
  {
  }

  lemma BytesStep(s: seq<Extent>, i: nat)
    requires Canonical(s) && i < |s|
    ensures Bytes(s[..i + 1]) == Bytes(s[..i]) + Span(s[i])
    ensures s[i].size > 0 && Span(s[i]) !! Bytes(s[..i]) && Span(s[i]) <= Bytes(s)
  {
  }

  // ---- Move the overlap of two lists ----

  /** Reconcile two overlapping ranges: the range both hold, and what is left of each. */
  method Reconcile(a0: Extent, b0: Extent)
    returns (off: nat, size: nat, left: seq<Extent>, right: seq<Extent>)
    requires a0.size > 0 && b0.size > 0 && a0.off < b0.End() && b0.off < a0.End()
    ensures size > 0 && Range(off, off + size) == Span(a0) * Span(b0)
    ensures left == Around(a0, off, size) && right == Around(b0, off, size)
  {
    var a, b := a0, b0;
    var swap := a.off > b.off;
    if swap {
      a, b := b, a;
    }
    var la: seq<Extent>, lb: seq<Extent>;
    if a.off == b.off {
      off := b.off;
      if a.size == b.size {
        size, la, lb := b.size, [], [];
      } else if a.size > b.size {
        size, la, lb := b.size, [Extent(a.off + b.size, a.size - b.size)], [];
      } else {
        size, la, lb := a.size, [], [Extent(b.off + a.size, b.size - a.size)];
      }
    } else if a.End() == b.End() {
      off, size := b.off, b.size;
      la, lb := [Extent(a.off, a.size - b.size)], [];
    } else if a.End() < b.End() {
      off, size := b.off, a.End() - b.off;
      la, lb := [Extent(a.off, a.size - size)], [Extent(b.off + size, b.size - size)];
    } else {
      off, size := b.off, b.size;
      la := [Extent(a.off, b.off - a.off), Extent(b.End(), a.End() - b.End())];
      lb := [];
    }
    left, right := if swap then lb else la, if swap then la else lb;
  }

  /** Wherever the two lists overlap, move the range from both to a third one. */
  method MoveOverlap(alloc: ExtentList, discard: ExtentList, avail: ExtentList)
    returns (r: Option<(ExtentList, ExtentList, ExtentList)>)
    requires alloc.Valid() && discard.Valid() && avail.Valid()
    ensures r.Some? <==> avail.Set() !! alloc.Set() * discard.Set()
    ensures r.Some? ==>
              var (a, d, v) := r.value;
              var both := alloc.Set() * discard.Set();
              && a.Valid() && a.Set() == alloc.Set() - both
              && d.Valid() && d.Set() == discard.Set() - both
              && v.Valid() && v.Set() == avail.Set() + both
  {
    hide Canonical, Bytes, Around, Splice, Range, Moving;
    var a, d, v := alloc, discard, avail;
    var i, j := 0, 0;
    ghost var moved: set<int> := {};
    BytesNone();
    MovingNone(alloc, discard, avail);
    while i < |a.exts| && j < |d.exts|
      invariant a.Valid() && d.Valid() && v.Valid()
      invariant i <= |a.exts| && j <= |d.exts|
      invariant Moving(alloc.Set(), discard.Set(), avail.Set(), a, d, v, i, j, moved)
      decreases a.bytes + d.bytes, |a.exts| - i + |d.exts| - j
    {
      if a.exts[i].End() <= d.exts[j].off {
        MovingPast(alloc.Set(), discard.Set(), avail.Set(), a, d, v, i, j, moved);
        i := i + 1;
      } else if d.exts[j].End() <= a.exts[i].off {
        MovingPast(alloc.Set(), discard.Set(), avail.Set(), a, d, v, i, j, moved);
        j := j + 1;
      } else {
        Positive(a.exts, i);
        Positive(d.exts, j);
        var off, size, left, right := Reconcile(a.exts[i], d.exts[j]);
        CutOne(a, i, off, size);
        CutOne(d, j, off, size);
        MovingNext(alloc.Set(), discard.Set(), avail.Set(), a, d, v, i, j, moved, off, size);
        var m := Merge(v, off, size);
        if m.None? {
          return None;
        }
        v := m.value;
        a := ExtentList(Splice(a.exts, i, i + 1, left), a.bytes - size);
        d := ExtentList(Splice(d.exts, j, j + 1, right), d.bytes - size);
        moved := moved + Range(off, off + size);
      }
    }
    MovingAll(alloc.Set(), discard.Set(), avail.Set(), a, d, v, i, j, moved);
    return Some((a, d, v));
  }

  /** Some of what two lists share has been moved to a third; what the walk has passed of either is
      not in the other. */
  ghost predicate Moving(alloc: set<int>, discard: set<int>, avail: set<int>,
                         a: ExtentList, d: ExtentList, v: ExtentList, i: nat, j: nat, moved: set<int>) {
    && i <= |a.exts| && j <= |d.exts|
    && moved <= alloc * discard && moved !! avail
    && a.Set() == alloc - moved && d.Set() == discard - moved && v.Set() == avail + moved
    && Bytes(a.exts[..i]) !! d.Set() && Bytes(d.exts[..j]) !! a.Set()
  }

  lemma MovingNone(a: ExtentList, d: ExtentList, v: ExtentList)
    ensures Moving(a.Set(), d.Set(), v.Set(), a, d, v, 0, 0, {})
  {
  }

  /** The walk passes an extent that ends before the other list's current one. */
  lemma MovingPast(alloc: set<int>, discard: set<int>, avail: set<int>,
                   a: ExtentList, d: ExtentList, v: ExtentList, i: nat, j: nat, moved: set<int>)
    requires Moving(alloc, discard, avail, a, d, v, i, j, moved) && i < |a.exts| && j < |d.exts|
    requires a.Valid() && d.Valid()
    ensures a.exts[i].End() <= d.exts[j].off ==> Moving(alloc, discard, avail, a, d, v, i + 1, j, moved)
    ensures d.exts[j].End() <= a.exts[i].off ==> Moving(alloc, discard, avail, a, d, v, i, j + 1, moved)
  {
    hide Canonical, Bytes, Range;
    if a.exts[i].End() <= d.exts[j].off {
      Passed(a.exts, i, d.exts, j);
    }
    if d.exts[j].End() <= a.exts[i].off {
      Passed(d.exts, j, a.exts, i);
    }
  }

  /** Moving one more range, or failing to because the third list overlaps it. */
  lemma MovingNext(alloc: set<int>, discard: set<int>, avail: set<int>,
                   a: ExtentList, d: ExtentList, v: ExtentList, i: nat, j: nat, moved: set<int>, off: nat, size: nat)
    requires Moving(alloc, discard, avail, a, d, v, i, j, moved) && i < |a.exts| && j < |d.exts|
    requires Range(off, off + size) == Span(a.exts[i]) * Span(d.exts[j])
    ensures var range := Range(off, off + size);
            && (!(range !! v.Set()) ==> !(avail !! alloc * discard))
            && forall a': ExtentList, d': ExtentList, v': ExtentList |
                 && range !! v.Set() && v'.Set() == v.Set() + range
                 && a'.Set() == a.Set() - range && i <= |a'.exts| && a'.exts[..i] == a.exts[..i]
                 && d'.Set() == d.Set() - range && j <= |d'.exts| && d'.exts[..j] == d.exts[..j]
                 :: Moving(alloc, discard, avail, a', d', v', i, j, moved + range)
  {
    SpanIn(a.exts, i);
    SpanIn(d.exts, j);
    hide Bytes, Range, Span;
  }

  lemma MovingAll(alloc: set<int>, discard: set<int>, avail: set<int>,
                  a: ExtentList, d: ExtentList, v: ExtentList, i: nat, j: nat, moved: set<int>)
    requires Moving(alloc, discard, avail, a, d, v, i, j, moved) && (i == |a.exts| || j == |d.exts|)
    ensures moved == alloc * discard && moved !! avail
    ensures a.Set() == alloc - moved && d.Set() == discard - moved && v.Set() == avail + moved
  {
    hide Bytes;
    assert a.exts[..|a.exts|] == a.exts && d.exts[..|d.exts|] == d.exts;
    assert a.Set() !! d.Set();
    AllMoved(alloc, discard, moved);
  }

  lemma SpanIn(s: seq<Extent>, k: nat)
    requires k < |s|
    ensures Span(s[k]) <= Bytes(s)
  {
  }

  lemma AllMoved(s: set<int>, t: set<int>, moved: set<int>)
    requires moved <= s * t && s - moved !! t - moved
    ensures s * t == moved
  {
    forall x | x in s * t ensures x in moved {
      assert x !in s - moved || x !in t - moved;
    }
  }

  lemma Passed(s: seq<Extent>, i: nat, t: seq<Extent>, j: nat)
    requires Canonical(s) && Canonical(t) && i < |s| && j < |t|
    requires s[i].End() <= t[j].off
    requires Bytes(s[..i]) !! Bytes(t) && Bytes(t[..j]) !! Bytes(s)
    ensures Bytes(s[..i + 1]) !! Bytes(t)
  {
    BytesStep(s, i);
    BytesCut(t, j);
    BytesOrder(t, j);
  }

  lemma CutOne(el: ExtentList, k: nat, off: nat, size: nat)
    requires el.Valid() && k < |el.exts| && size > 0
    requires Range(off, off + size) <= Span(el.exts[k])
    ensures var t := Splice(el.exts, k, k + 1, Around(el.exts[k], off, size));
            && ExtentList(t, el.bytes - size).Valid()
            && Bytes(t) == el.Set() - Range(off, off + size)
            && k <= |t| && t[..k] == el.exts[..k]
  {
    hide Canonical, Bytes, Around;
    SpanIn(el.exts, k);
    assert off in Range(off, off + size);
    CutKeeps(el.exts, k, off, size);
    SizeSub(el.Set(), Range(off, off + size));
    RangeSize(off, off + size);
  }
}
