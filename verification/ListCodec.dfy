/** Extent lists as they are written to a page and read back. */
module ListCodec {
  import opened Extents
  import opened ExtentOps
  import opened IntPack
  import opened Arithmetic

  const MAGIC := 71002        // the offset that starts a list
  const VERSION_CKPT := 1     // checkpoint information follows the list
  const OFF_LIMIT := 0x8000_0000_0000_0000

  /** A range of a file: its end is a file offset, a signed number. */
  predicate IsRange(off: nat, size: nat) {
    0 < off && 0 < size && off + size < OFF_LIMIT
  }

  /** What the writers put on a list. */
  predicate Storable(s: seq<Extent>) {
    forall i | 0 <= i < |s| :: IsRange(s[i].off, s[i].size)
  }

  function Pair(off: nat, size: nat): bytes
    requires off < OFF_LIMIT && size < OFF_LIMIT
  {
    Pack(off) + Pack(size)
  }

  function Pairs(s: seq<Extent>): bytes
    requires Storable(s)
  {
    if s == [] then [] else Pairs(s[..|s| - 1]) + Pair(s[|s| - 1].off, s[|s| - 1].size)
  }

  /** A list on its page: a magic pair, the ranges, and a pair of offset 0 with the version. */
  function ListBytes(s: seq<Extent>, version: nat): bytes
    requires Storable(s) && version < OFF_LIMIT
  {
    Pair(MAGIC, 0) + Pairs(s) + Pair(0, version)
  }

  // ---- Writing ----

  lemma PairsStep(s: seq<Extent>, i: nat)
    requires Storable(s) && i < |s|
    ensures Pairs(s[..i + 1]) == Pairs(s[..i]) + Pair(s[i].off, s[i].size)
  {
    assert s[..i + 1][..i] == s[..i];
  }

  lemma NoPairs(s: seq<Extent>)
    requires Storable(s)
    ensures Pairs(s[..0]) == []
  {
  }

  /** Write a list and a second one after it. */
  method WriteList(el: seq<Extent>, additional: seq<Extent>, final: bool) returns (buf: bytes)
    requires Storable(el) && Storable(additional)
    ensures buf == ListBytes(el + additional, if final then VERSION_CKPT else 0)
  {
    hide Pack, Pair, Pairs;
    var all := el + additional;
    NoPairs(all);
    buf := Pair(MAGIC, 0);
    var i := 0;
    while i < |el|
      invariant 0 <= i <= |el| && buf == Pair(MAGIC, 0) + Pairs(all[..i])
    {
      PairsStep(all, i);
      buf := buf + Pair(el[i].off, el[i].size);
      i := i + 1;
    }
    i := 0;
    while i < |additional|
      invariant 0 <= i <= |additional| && buf == Pair(MAGIC, 0) + Pairs(all[..|el| + i])
    {
      PairsStep(all, |el| + i);
      buf := buf + Pair(additional[i].off, additional[i].size);
      i := i + 1;
    }
    assert all[..|all|] == all;
    buf := buf + Pair(0, if final then VERSION_CKPT else 0);
  }

  /** The buffer the writer reserves, two values of the largest size for each range and two more
      pairs, always suffices. */
  lemma {:induction false} ReservedSuffices(s: seq<Extent>, version: nat)
    requires Storable(s) && version < OFF_LIMIT
    ensures |ListBytes(s, version)| <= (|s| + 2) * 2 * INTPACK64_MAXSIZE
  {
    PairsSize(s);
    PackSize(MAGIC);
    PackSize(0);
    PackSize(version);
  }

  lemma {:induction false} PairsSize(s: seq<Extent>)
    requires Storable(s)
    ensures |Pairs(s)| <= |s| * 2 * INTPACK64_MAXSIZE
  {
    if s != [] {
      var e := s[|s| - 1];
      PairsSize(s[..|s| - 1]);
      PackSize(e.off);
      PackSize(e.size);
    }
  }

  // ---- Reading ----

  /** A range the reader accepts: aligned, past the description, inside the checkpoint's file. */
  predicate InFile(e: Extent, unit: nat, fileSize: nat)
    requires unit > 0
  {
    unit <= e.off && e.off % unit == 0 && e.size % unit == 0 && e.End() <= fileSize
  }

  ghost predicate Disjoint(s: seq<Extent>) {
    forall i, j | 0 <= i < j < |s| :: Span(s[i]) !! Span(s[j])
  }

  /** In the order an alloc or discard list is kept in. */
  ghost predicate Ascending(s: seq<Extent>) {
    forall i, j | 0 <= i < j < |s| :: s[i].End() <= s[j].off
  }

  /** A pair of values, if both can be read, and the position after them. */
  function PairAt(buf: bytes, p: nat): (r: Option<(nat, nat, nat)>)
    ensures r.Some? ==> p < r.value.2 && p < |buf|
  {
    var o := Unpack(buf, p);
    if o.None? then None else
    var n := Unpack(buf, o.value.1);
    if n.None? then None else Some((o.value.0, n.value.0, n.value.1))
  }

  /** The ranges on a page up to the first pair that is none, and the position of that pair. */
  function Leading(buf: bytes, p: nat): (seq<Extent>, nat)
    decreases |buf| - p
  {
    var e := PairAt(buf, p);
    if e.None? || !IsRange(e.value.0, e.value.1) then ([], p)
    else
      var (s, q) := Leading(buf, e.value.2);
      ([Extent(e.value.0, e.value.1)] + s, q)
  }

  /** The ranges on a page, if they end with a pair of offset 0. */
  function PairsAt(buf: bytes, p: nat): Option<seq<Extent>> {
    var (s, q) := Leading(buf, p);
    var e := PairAt(buf, q);
    if e.Some? && e.value.0 == 0 then Some(s) else None
  }

  /** Where the pairs of a page start, if it starts with the magic pair. */
  function Body(buf: bytes, p: nat): Option<nat> {
    var magic := PairAt(buf, p);
    if magic.None? || magic.value.0 != MAGIC || magic.value.1 != 0 then None else Some(magic.value.2)
  }

  /** A page that is a list: the magic pair, then ranges. */
  function ListAt(buf: bytes, p: nat): Option<seq<Extent>> {
    var q := Body(buf, p);
    if q.None? then None else PairsAt(buf, q.value)
  }

  /** File offsets and sizes are signed 64-bit numbers, and their sum wraps around. */
  function Signed(x: nat): int {
    if x < OFF_LIMIT then x else x - TWO64
  }

  function Wrapped(x: int): int {
    if x < OFF_LIMIT then x else x - TWO64
  }

  /** The tests the reader makes of a pair. */
  predicate Passes(off: int, size: int, unit: nat, fileSize: nat)
    requires unit > 0
  {
    unit <= off && off % unit == 0 && size % unit == 0 && Wrapped(off + size) <= fileSize
  }

  lemma PassesIff(off: nat, size: nat, unit: nat, fileSize: nat)
    requires unit > 0 && IsRange(off, size)
    ensures Passes(Signed(off), Signed(size), unit, fileSize) <==> InFile(Extent(off, size), unit, fileSize)
  {
  }

  /** A page on which ranges the reader accepts are followed by a pair that is no range, its size not
      positive or its end past all file offsets, and yet passes the tests. */
  ghost predicate OddAt(buf: bytes, p: nat, unit: nat, fileSize: nat, merging: bool)
    requires unit > 0
  {
    && Body(buf, p).Some?
    && var (s, q) := Leading(buf, Body(buf, p).value);
       && Acceptable(s, unit, fileSize, merging)
       && PairAt(buf, q).Some? && Passes(Signed(PairAt(buf, q).value.0), Signed(PairAt(buf, q).value.1), unit, fileSize)
  }

  lemma PairReads(buf: bytes, p: nat, off: nat, size: nat)
    requires off < OFF_LIMIT && size < OFF_LIMIT && Holds(buf, p, Pair(off, size))
    ensures Unpack(buf, p) == Some((off, p + |Pack(off)|))
    ensures Unpack(buf, p + |Pack(off)|) == Some((size, p + |Pair(off, size)|))
    ensures PairAt(buf, p) == Some((off, size, p + |Pair(off, size)|))
  {
    hide Pack, Unpack, Holds;
    HoldsTwo(buf, p, Pack(off), Pack(size));
    RoundTrip(buf, p, off);
    RoundTrip(buf, p + |Pack(off)|, size);
  }

  /** Where a written list's pairs are on its page. */
  lemma ListLayout(buf: bytes, p: nat, s: seq<Extent>, version: nat)
    requires Storable(s) && version < OFF_LIMIT && Holds(buf, p, ListBytes(s, version))
    ensures Holds(buf, p, Pair(MAGIC, 0)) && Holds(buf, p + |Pair(MAGIC, 0)|, Pairs(s))
    ensures Holds(buf, p + |Pair(MAGIC, 0)| + |Pairs(s)|, Pair(0, version))
  {
    hide Pack, Pair, Pairs, Holds;
    HoldsTwo(buf, p, Pair(MAGIC, 0) + Pairs(s), Pair(0, version));
    HoldsTwo(buf, p, Pair(MAGIC, 0), Pairs(s));
  }

  lemma {:induction false} PairsPrefix(s: seq<Extent>, i: nat)
    requires Storable(s) && i <= |s|
    ensures Pairs(s[..i]) <= Pairs(s)
    decreases |s| - i
  {
    if i == |s| {
      assert s[..i] == s;
    } else {
      PairsStep(s, i);
      PairsPrefix(s, i + 1);
    }
  }

  lemma PairOf(buf: bytes, q: nat, s: seq<Extent>, i: nat)
    requires Storable(s) && Holds(buf, q, Pairs(s)) && i < |s|
    ensures Holds(buf, q + |Pairs(s[..i])|, Pair(s[i].off, s[i].size))
    ensures |Pairs(s[..i + 1])| == |Pairs(s[..i])| + |Pair(s[i].off, s[i].size)|
  {
    hide Pack, Pair, Pairs, Holds;
    PairsStep(s, i);
    PairsPrefix(s, i + 1);
    var t := Pairs(s[..i + 1]);
    assert Pairs(s) == t + Pairs(s)[|t|..];
    HoldsTwo(buf, q, t, Pairs(s)[|t|..]);
    HoldsTwo(buf, q, Pairs(s[..i]), Pair(s[i].off, s[i].size));
  }

  lemma {:induction false} PairsRead(buf: bytes, q: nat, s: seq<Extent>, version: nat, i: nat)
    requires Storable(s) && version < OFF_LIMIT && Holds(buf, q, Pairs(s)) && i <= |s|
    requires Holds(buf, q + |Pairs(s)|, Pair(0, version))
    ensures PairsAt(buf, q + |Pairs(s[..i])|) == Some(s[i..])
    decreases |s| - i
  {
    hide Pack, Unpack, Holds, Pair, Pairs, PairAt;
    var p := q + |Pairs(s[..i])|;
    if i == |s| {
      assert s[..i] == s && s[i..] == [];
      PairReads(buf, p, 0, version);
    } else {
      PairOf(buf, q, s, i);
      PairReads(buf, p, s[i].off, s[i].size);
      PairsRead(buf, q, s, version, i + 1);
      assert s[i..] == [s[i]] + s[i + 1..];
    }
  }

  /** A page written for a list is that list. */
  lemma ListReads(buf: bytes, p: nat, s: seq<Extent>, version: nat)
    requires Storable(s) && version < OFF_LIMIT && Holds(buf, p, ListBytes(s, version))
    ensures ListAt(buf, p) == Some(s)
  {
    hide Pack, Unpack, Holds, Pair, Pairs, PairAt, PairsAt, ListBytes;
    ListLayout(buf, p, s, version);
    PairReads(buf, p, MAGIC, 0);
    NoPairs(s);
    PairsRead(buf, p + |Pair(MAGIC, 0)|, s, version, 0);
    assert s[0..] == s;
  }

  lemma BytesNext(s: seq<Extent>, e: Extent)
    ensures Bytes(s + [e]) == Bytes(s) + Span(e)
    ensures Ascending(s + [e]) ==> Ascending(s) && Below(s, e.off)
  {
    BytesConcat(s, [e]);
    BytesOne(e);
    if Ascending(s + [e]) {
      forall i | 0 <= i < |s| ensures s[i].End() <= e.off {
        assert (s + [e])[i] == s[i] && (s + [e])[|s|] == e;
      }
      assert forall i, j | 0 <= i < j < |s| :: (s + [e])[i] == s[i] && (s + [e])[j] == s[j];
    }
  }

  lemma DisjointNext(s: seq<Extent>, e: Extent)
    requires Disjoint(s)
    ensures Disjoint(s + [e]) <==> Span(e) !! Bytes(s)
  {
    var t := s + [e];
    if Disjoint(t) {
      forall i | 0 <= i < |s| ensures Span(s[i]) !! Span(e) {
        assert t[i] == s[i] && t[|s|] == e;
      }
    }
  }

  /** The outcome of reading a page: a list, a refusal, or a pair that is no range and passes the
      tests all the same. */
  datatype Reading = Read(value: ExtentList) | Corrupt | Odd

  /** What has been read so far is a list of these ranges. */
  ghost predicate ReadSoFar(el: ExtentList, s: seq<Extent>, merging: bool, unit: nat, fileSize: nat)
    requires unit > 0
  {
    && (forall i | 0 <= i < |s| :: s[i].size > 0 && InFile(s[i], unit, fileSize))
    && (merging ==> Disjoint(s))
    && (merging || Ascending(s) ==> el.Valid() && el.Set() == Bytes(s))
  }

  ghost predicate Acceptable(s: seq<Extent>, unit: nat, fileSize: nat, merging: bool)
    requires unit > 0
  {
    (forall i | 0 <= i < |s| :: InFile(s[i], unit, fileSize)) && (merging ==> Disjoint(s))
  }

  ghost function Prefixed(done: seq<Extent>, rest: (seq<Extent>, nat)): (seq<Extent>, nat) {
    (done + rest.0, rest.1)
  }

  lemma NothingRead(merging: bool, unit: nat, fileSize: nat, rest: (seq<Extent>, nat))
    requires unit > 0
    ensures ReadSoFar(EMPTY, [], merging, unit, fileSize) && Prefixed([], rest) == rest
  {
    BytesNone();
    assert [] + rest.0 == rest.0;
  }

  lemma PrefixedMore(done: seq<Extent>, e: Extent, rest: (seq<Extent>, nat))
    ensures Prefixed(done, ([e] + rest.0, rest.1)) == Prefixed(done + [e], rest)
  {
    assert done + ([e] + rest.0) == done + [e] + rest.0;
  }

  /** What has been read can be merged with. */
  lemma ReadMerging(el: ExtentList, s: seq<Extent>, unit: nat, fileSize: nat)
    requires unit > 0 && ReadSoFar(el, s, true, unit, fileSize)
    ensures el.Valid() && el.Set() == Bytes(s) && Disjoint(s)
  {
  }

  /** One more range is read into the list. */
  lemma ReadMore(el: ExtentList, s: seq<Extent>, merging: bool, unit: nat, fileSize: nat, e: Extent, m: ExtentList)
    requires unit > 0 && ReadSoFar(el, s, merging, unit, fileSize) && e.size > 0 && InFile(e, unit, fileSize)
    requires merging ==> Span(e) !! el.Set()
    requires merging || (el.Valid() && Below(el.exts, e.off)) ==> m.Valid() && m.Set() == el.Set() + Span(e)
    ensures ReadSoFar(m, s + [e], merging, unit, fileSize)
  {
    hide Canonical, InFile;
    BytesNext(s, e);
    if merging {
      DisjointNext(s, e);
    }
    hide Bytes, Disjoint, Ascending, Span;
    assert forall i | 0 <= i < |s + [e]| :: (s + [e])[i] == if i < |s| then s[i] else e;
  }

  lemma ReadAll(el: ExtentList, s: seq<Extent>, merging: bool, unit: nat, fileSize: nat)
    requires unit > 0 && ReadSoFar(el, s, merging, unit, fileSize)
    ensures Acceptable(s, unit, fileSize, merging)
    ensures merging || Ascending(s) ==>
              && el.Valid() && el.Set() == Bytes(s) && (Canonical(s) ==> el.exts == s)
  {
    hide Canonical, Bytes, InFile;
    if el.Valid() && el.Set() == Bytes(s) && Canonical(s) {
      CanonicalUnique(el.exts, s);
    }
  }

  /** A range that is refused refuses the page. */
  lemma Refuses(done: seq<Extent>, e: Extent, rest: seq<Extent>, unit: nat, fileSize: nat, merging: bool)
    requires unit > 0 && (!InFile(e, unit, fileSize) || (merging && !Disjoint(done + [e])))
    ensures !Acceptable(done + [e] + rest, unit, fileSize, merging)
  {
    hide InFile;
    var s := done + [e] + rest;
    assert s[|done|] == e;
    assert forall i | 0 <= i <= |done| :: s[i] == (done + [e])[i];
    if Disjoint(s) {
      assert Disjoint(done + [e]);
    }
  }

  lemma LeadingMore(buf: bytes, p: nat)
    ensures var e := PairAt(buf, p);
            if e.None? || !IsRange(e.value.0, e.value.1) then Leading(buf, p) == ([], p)
            else var (s, q) := Leading(buf, e.value.2);
                 Leading(buf, p) == ([Extent(e.value.0, e.value.1)] + s, q)
  {
  }

  method ReadPairs(buf: bytes, p0: nat, unit: nat, fileSize: nat, merging: bool) returns (r: Reading)
    requires unit > 0
    ensures r.Read? <==> ListAt(buf, p0).Some? && Acceptable(ListAt(buf, p0).value, unit, fileSize, merging)
    ensures r.Read? && (merging || Ascending(ListAt(buf, p0).value)) ==>
              && r.value.Valid() && r.value.Set() == Bytes(ListAt(buf, p0).value)
              && (Canonical(ListAt(buf, p0).value) ==> r.value.exts == ListAt(buf, p0).value)
    ensures r.Odd? <==> OddAt(buf, p0, unit, fileSize, merging)
  {
    hide Canonical, Bytes, Disjoint, Ascending, PairAt, InFile, ReadSoFar, Leading, Acceptable, Passes, Below, Range;
    var magic := PairAt(buf, p0);
    if magic.None? || magic.value.0 != MAGIC || magic.value.1 != 0 {
      return Corrupt;
    }
    var p, el := magic.value.2, EMPTY;
    ghost var start, done: seq<Extent> := p, [];
    NothingRead(merging, unit, fileSize, Leading(buf, p));
    while true
      invariant ReadSoFar(el, done, merging, unit, fileSize)
      invariant Leading(buf, start) == Prefixed(done, Leading(buf, p))
      decreases |buf| - p
    {
      LeadingMore(buf, p);
      ReadAll(el, done, merging, unit, fileSize);
      assert done + [] == done;
      var e := PairAt(buf, p);
      if e.None? {
        return Corrupt;
      }
      var (off, size, next) := e.value;
      if off == 0 {
        NeverPasses(size, unit, fileSize);
        break;
      }
      if !Passes(Signed(off), Signed(size), unit, fileSize) {
        if IsRange(off, size) {
          PassesIff(off, size, unit, fileSize);
          PrefixedMore(done, Extent(off, size), Leading(buf, next));
          Refuses(done, Extent(off, size), Leading(buf, next).0, unit, fileSize, merging);
        }
        return Corrupt;
      }
      if !IsRange(off, size) {
        return Odd;
      }
      PassesIff(off, size, unit, fileSize);
      PrefixedMore(done, Extent(off, size), Leading(buf, next));
      ghost var was := el;
      if merging {
        ReadMerging(el, done, unit, fileSize);
        var m := Merge(el, off, size);
        if m.None? {
          DisjointNext(done, Extent(off, size));
          Refuses(done, Extent(off, size), Leading(buf, next).0, unit, fileSize, merging);
          return Corrupt;
        }
        el := m.value;
      } else {
        el := Append(el, off, size);
      }
      ReadMore(was, done, merging, unit, fileSize, Extent(off, size), el);
      done, p := done + [Extent(off, size)], next;
    }
    return Read(el);
  }

  /** Read a page. An alloc or discard list is sorted and its ranges are appended; an avail list is two
      lists, not sorted together, and its ranges are merged. A page is read exactly if it is a list of
      ranges that lie in the file and, when merging, do not overlap; the result covers them. It is odd
      exactly if after such ranges a pair that is no range gets past the tests. */
  method ReadList(buf: bytes, p0: nat, unit: nat, fileSize: nat, merging: bool) returns (r: Reading)
    requires unit > 0
    ensures r.Read? <==>
            && ListAt(buf, p0).Some?
            && var s := ListAt(buf, p0).value;
               && (forall i | 0 <= i < |s| ::
                     unit <= s[i].off && s[i].off % unit == 0 && s[i].size % unit == 0 && s[i].End() <= fileSize)
               && (merging ==> forall i, j | 0 <= i < j < |s| :: Span(s[i]) !! Span(s[j]))
    ensures r.Read? <==> ListAt(buf, p0).Some? && Acceptable(ListAt(buf, p0).value, unit, fileSize, merging)
    ensures r.Read? && (merging || Ascending(ListAt(buf, p0).value)) ==>
              && r.value.Valid() && r.value.Set() == Bytes(ListAt(buf, p0).value)
              && (Canonical(ListAt(buf, p0).value) ==> r.value.exts == ListAt(buf, p0).value)
    ensures r.Odd? <==> OddAt(buf, p0, unit, fileSize, merging)
  {
    hide Canonical, Bytes, Span, Ascending, ListAt, OddAt;
    r := ReadPairs(buf, p0, unit, fileSize, merging);
  }

  lemma NeverPasses(size: nat, unit: nat, fileSize: nat)
    requires unit > 0
    ensures !Passes(Signed(0), Signed(size), unit, fileSize)
  {
  }

  // ---- Pages that are odd ----

  /** A page written for a list is never odd. */
  lemma WrittenNotOdd(buf: bytes, p: nat, s: seq<Extent>, version: nat, unit: nat, fileSize: nat, merging: bool)
    requires unit > 0 && Storable(s) && version < OFF_LIMIT && Holds(buf, p, ListBytes(s, version))
    ensures !OddAt(buf, p, unit, fileSize, merging)
  {
    ListReads(buf, p, s, version);
    hide Holds, ListBytes, PairAt, Leading;
    if Body(buf, p).Some? {
      var q := Leading(buf, Body(buf, p).value).1;
      if PairAt(buf, q).Some? {
        NeverPasses(PairAt(buf, q).value.1, unit, fileSize);
      }
    }
  }

  /** There are odd pages, in any file: one with an empty range, and one with a range so long that its
      end wraps around to below the end of the file. */
  lemma OddPages(unit: nat, fileSize: nat, size: nat, merging: bool)
    requires 0 < unit < OFF_LIMIT && unit <= fileSize && size < OFF_LIMIT && size % unit == 0
    requires size == 0 || unit + size >= OFF_LIMIT
    ensures OddAt(Pair(MAGIC, 0) + Pair(unit, size) + Pair(0, 0), 0, unit, fileSize, merging)
  {
    hide Pair, PairAt, Leading, Holds, Passes, InFile;
    var buf, p := Pair(MAGIC, 0) + Pair(unit, size) + Pair(0, 0), |Pair(MAGIC, 0)|;
    HoldsAll(buf);
    HoldsTwo(buf, 0, Pair(MAGIC, 0) + Pair(unit, size), Pair(0, 0));
    HoldsTwo(buf, 0, Pair(MAGIC, 0), Pair(unit, size));
    PairReads(buf, 0, MAGIC, 0);
    PairReads(buf, p, unit, size);
    LeadingMore(buf, p);
    OddPasses(unit, fileSize, size);
  }

  lemma OddPasses(unit: nat, fileSize: nat, size: nat)
    requires 0 < unit < OFF_LIMIT && unit <= fileSize && size < OFF_LIMIT && size % unit == 0
    requires size == 0 || unit + size >= OFF_LIMIT
    ensures Passes(Signed(unit), Signed(size), unit, fileSize)
  {
    DivMul(1, unit);
    DivMod(unit, unit);
  }

  lemma HoldsAll(buf: bytes)
    ensures Holds(buf, 0, buf)
  {
  }
}
