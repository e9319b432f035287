/** Extent lists and the file bytes they cover.

An extent list is kept by the source as a skiplist sorted by file offset; here it is the sequence
of its extents in offset order, with the byte count the source keeps beside it. */
module Extents {

  datatype Option<+T> = None | Some(value: T)

  /** A file range; a written block's address is one too (size 0: there is no block). */
  datatype Extent = Extent(off: nat, size: nat) {
    function End(): nat {
      off + size
    }
  }

  ghost predicate Within(lo: int, x: int, hi: int) {
    lo <= x < hi
  }

  /** The bytes from lo up to, not including, hi. */
  ghost function Range(lo: int, hi: int): set<int> {
    set x: int | lo <= x < hi && Within(lo, x, hi)
  }

  ghost function Span(e: Extent): set<int> {
    Range(e.off, e.End())
  }

  /** The file bytes covered by a list. */
  ghost function Bytes(s: seq<Extent>): set<int> {
    set i, x | 0 <= i < |s| && x in Span(s[i]) :: x
  }

  /** Sorted by offset, no empty extent, and adjacent extents always coalesced. */
  ghost predicate Canonical(s: seq<Extent>) {
    && (forall i | 0 <= i < |s| :: s[i].size > 0)
    && (forall i, j | 0 <= i < j < |s| :: s[i].End() < s[j].off)
  }

  /** WT_EXTLIST: the extents and the incrementally maintained byte count. */
  datatype ExtentList = ExtentList(exts: seq<Extent>, bytes: int) {
    ghost predicate Valid() {
      Canonical(exts) && bytes == |Bytes(exts)|
    }

    ghost function Set(): set<int> {
      Bytes(exts)
    }
  }

  const EMPTY := ExtentList([], 0)

  // ---- Lists as sets ----

  lemma BytesConcat(a: seq<Extent>, b: seq<Extent>)
    ensures Bytes(a + b) == Bytes(a) + Bytes(b)
  {
    var s := a + b;
    forall x | x in Bytes(a) ensures x in Bytes(s) {
      var i :| 0 <= i < |a| && x in Span(a[i]);
      assert s[i] == a[i];
    }
    forall x | x in Bytes(b) ensures x in Bytes(s) {
      var i :| 0 <= i < |b| && x in Span(b[i]);
      assert s[|a| + i] == b[i];
    }
  }

  lemma BytesOne(e: Extent)
    ensures Bytes([e]) == Span(e)
  {
    assert forall x | x in Span(e) :: x in Span([e][0]);
  }

  lemma BytesCut(s: seq<Extent>, k: nat)
    requires k <= |s|
    ensures Bytes(s) == Bytes(s[..k]) + Bytes(s[k..])
  {
  }

  /** A list is what precedes position k, the extent there, and what follows it. */
  lemma BytesSplit(s: seq<Extent>, k: nat)
    requires k < |s|
    ensures Bytes(s) == Bytes(s[..k]) + Span(s[k]) + Bytes(s[k + 1..])
  {
  }

  lemma {:induction false} RangeSize(lo: int, hi: int)
    requires lo <= hi
    ensures |Range(lo, hi)| == hi - lo
    decreases hi - lo
  {
    if lo < hi {
      RangeSize(lo, hi - 1);
      assert Range(lo, hi) == Range(lo, hi - 1) + {hi - 1};
    } else {
      assert Range(lo, hi) == {};
    }
  }

  // ---- Sizes of sets ----

  lemma SizeAdd(s: set<int>, t: set<int>)
    requires s !! t
    ensures |s + t| == |s| + |t|
  {
  }

  lemma SizeSub(s: set<int>, t: set<int>)
    requires t <= s
    ensures |s - t| == |s| - |t|
  {
  }

  /** Taking out a whole to put back all of it but a part is taking out the part. */
  lemma PutBack(s: set<int>, whole: set<int>, part: set<int>)
    requires part <= whole <= s
    ensures s - whole + (whole - part) == s - part
  {
  }

  lemma TradeUp(s: set<int>, was: set<int>, more: set<int>)
    requires was <= s
    ensures s - was + (was + more) == s + more
  {
  }

  // ---- Order ----

  ghost predicate Below(s: seq<Extent>, hi: int) {
    forall x | x in Bytes(s) :: x < hi
  }

  ghost predicate Above(s: seq<Extent>, lo: int) {
    forall x | x in Bytes(s) :: lo <= x
  }

  /** Bytes before position k lie below every byte from position k on, with a gap between. */
  lemma BytesOrder(s: seq<Extent>, k: nat)
    requires Canonical(s) && k < |s|
    ensures Below(s[..k], s[k].off - 1)
    ensures Above(s[k..], s[k].off)
    ensures Above(s[k + 1..], s[k].End() + 1)
  {
  }

  lemma NonEmpty(s: seq<Extent>)
    requires Canonical(s)
    ensures s == [] <==> Bytes(s) == {}
  {
    if s != [] {
      assert s[0].off in Span(s[0]);
      assert s[0].off in Bytes(s);
    }
  }

  /** Canonical lists are unique: two of them covering the same bytes are the same list. */
  lemma {:induction false} CanonicalUnique(s: seq<Extent>, t: seq<Extent>)
    requires Canonical(s) && Canonical(t) && Bytes(s) == Bytes(t)
    ensures s == t
  {
    hide Canonical, Bytes, Range;
    NonEmpty(s);
    NonEmpty(t);
    if s != [] {
      FirstByte(s, t);
      FirstByte(t, s);
      FirstEnd(s, t);
      FirstEnd(t, s);
      RestBytes(s);
      RestBytes(t);
      RestCanonical(s);
      RestCanonical(t);
      CanonicalUnique(s[1..], t[1..]);
      assert s == [s[0]] + s[1..] && t == [t[0]] + t[1..];
    }
  }

  lemma RestCanonical(s: seq<Extent>)
    requires Canonical(s) && s != []
    ensures Canonical(s[1..])
  {
  }

  lemma RestBytes(s: seq<Extent>)
    requires Canonical(s) && s != []
    ensures Bytes(s[1..]) == Bytes(s) - Span(s[0])
  {
  }

  lemma FirstByte(s: seq<Extent>, t: seq<Extent>)
    requires Canonical(s) && Canonical(t) && s != [] && t != [] && Bytes(s) == Bytes(t)
    ensures s[0].off <= t[0].off
  {
    var x := t[0].off;
    assert x in Span(t[0]);
    assert x in Bytes(s);
    var i :| 0 <= i < |s| && x in Span(s[i]);
  }

  lemma FirstEnd(s: seq<Extent>, t: seq<Extent>)
    requires Canonical(s) && Canonical(t) && s != [] && t != [] && Bytes(s) == Bytes(t)
    requires s[0].off == t[0].off
    ensures s[0].End() <= t[0].End()
  {
    var x, e := t[0].End(), s[0];
    assert x !in Bytes(t);
    assert x < e.End() ==> x in Span(e);
  }

  /** A non-empty range inside a canonical list lies inside one of its extents. */
  lemma RangeInOneExtent(s: seq<Extent>, e: Extent) returns (k: nat)
    requires Canonical(s) && e.size > 0 && Span(e) <= Bytes(s)
    ensures k < |s| && s[k].off <= e.off && e.End() <= s[k].End()
  {
    assert e.off in Span(e);
    k :| 0 <= k < |s| && e.off in Span(s[k]);
    var x := s[k].End();
    assert forall j | 0 <= j < |s| :: x !in Span(s[j]);
    assert x < e.End() ==> x in Span(e);
  }

  // ---- Searching and editing ----

  /** The number of extents starting before a file offset: the search for the before/after pair. */
  function Search(s: seq<Extent>, off: nat): (k: nat)
    ensures k <= |s|
    ensures forall i | 0 <= i < k :: s[i].off < off
    ensures k < |s| ==> off <= s[k].off
    ensures Canonical(s) ==> forall i | k <= i < |s| :: off <= s[i].off
  {
    if s == [] || off <= s[0].off then 0 else 1 + Search(s[1..], off)
  }

  /** Replace extents [lo, hi), which may be none, by others: the source removes records from the
      skiplist, adjusts them and inserts them again. */
  function Splice(s: seq<Extent>, lo: nat, hi: nat, mid: seq<Extent>): seq<Extent>
    requires lo <= hi <= |s|
  {
    s[..lo] + mid + s[hi..]
  }

  lemma SpliceKeeps(s: seq<Extent>, lo: nat, hi: nat, mid: seq<Extent>)
    requires Canonical(s) && lo <= hi <= |s| && Canonical(mid)
    requires mid != [] && lo > 0 ==> s[lo - 1].End() < mid[0].off
    requires mid != [] && hi < |s| ==> mid[|mid| - 1].End() < s[hi].off
    ensures Canonical(Splice(s, lo, hi, mid))
    ensures Bytes(Splice(s, lo, hi, mid)) == Bytes(s) - Bytes(s[lo..hi]) + Bytes(mid)
    ensures Bytes(s[lo..hi]) <= Bytes(s)
  {
    CanonicalJoin(s[..lo], mid);
    if mid == [] {
      assert s[..lo] + mid == s[..lo];
    }
    CanonicalJoin(s[..lo] + mid, s[hi..]);
    SpliceBytes(s, lo, hi, mid);
  }

  lemma CanonicalJoin(a: seq<Extent>, b: seq<Extent>)
    requires Canonical(a) && Canonical(b)
    requires a != [] && b != [] ==> a[|a| - 1].End() < b[0].off
    ensures Canonical(a + b)
  {
    forall i, j | 0 <= i < |a| && 0 <= j < |b| ensures a[i].End() < b[j].off {
      assert a[i].End() <= a[|a| - 1].End();
      assert b[0].off <= b[j].off;
    }
    CanonicalConcat(a, b);
  }

  lemma CanonicalConcat(a: seq<Extent>, b: seq<Extent>)
    requires Canonical(a) && Canonical(b) && forall i, j | 0 <= i < |a| && 0 <= j < |b| :: a[i].End() < b[j].off
    ensures Canonical(a + b)
  {
  }

  lemma SpliceBytes(s: seq<Extent>, lo: nat, hi: nat, mid: seq<Extent>)
    requires Canonical(s) && lo <= hi <= |s|
    ensures Bytes(Splice(s, lo, hi, mid)) == Bytes(s) - Bytes(s[lo..hi]) + Bytes(mid)
    ensures Bytes(s[lo..hi]) <= Bytes(s)
  {
    hide Bytes, Canonical;
    BytesConcat(s[..lo] + mid, s[hi..]);
    BytesConcat(s[..lo], mid);
    BytesCut(s, lo);
    BytesCut(s[lo..], hi - lo);
    assert s[lo..][..hi - lo] == s[lo..hi] && s[lo..][hi - lo..] == s[hi..];
    PartsDisjoint(s, lo, hi);
    SwapMiddle(Bytes(s[..lo]), Bytes(s[lo..hi]), Bytes(s[hi..]), Bytes(mid));
  }

  lemma SwapMiddle(l: set<int>, m: set<int>, r: set<int>, n: set<int>)
    requires l !! m && m !! r
    ensures l + n + r == l + (m + r) - m + n && m <= l + (m + r)
  {
  }

  lemma PartsDisjoint(s: seq<Extent>, lo: nat, hi: nat)
    requires Canonical(s) && lo <= hi <= |s|
    ensures Bytes(s[..lo]) !! Bytes(s[lo..hi])
    ensures Bytes(s[lo..hi]) !! Bytes(s[hi..])
  {
  }
}
