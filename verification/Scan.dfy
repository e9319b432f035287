/** The checkpoint information appended to a file's last avail list, and the scan that finds it again
without the file's metadata. */
module Scan {
  import opened Extents
  import opened IntPack
  import opened ListCodec
  import opened Cookies
  import opened Layout

  // ---- Writing the information ----

  function Zeros(n: nat): bytes {
    seq(n, _ => 0)
  }

  /** A packed file size in a fixed-size field. */
  function Field(x: nat): bytes
    requires x < TWO64
  {
    PackSize(x);
    Pack(x) + Zeros(INTPACK64_MAXSIZE - |Pack(x)|)
  }

  function Counted(s: bytes): bytes
    requires |s| < TWO64
  {
    Pack(|s|) + s
  }

  /** What follows the avail list: the write generation, the final file size, the file's metadata, its
      checkpoint list and the checkpoint's incomplete cookie. */
  datatype Final = Final(writeGen: nat, fileSize: nat, metadata: bytes, list: bytes, cookie: bytes) {
    predicate Valid() {
      && writeGen < TWO64 && fileSize < TWO64
      && |metadata| < TWO64 && |list| < TWO64 && |cookie| < TWO64
    }
  }

  function FinalBytes(f: Final): bytes
    requires f.Valid()
  {
    Pack(f.writeGen) + Field(f.fileSize) + Counted(f.metadata) + Counted(f.list) + Counted(f.cookie)
  }

  /** Append the information, with room for the file size, which is not known yet. */
  method AppendFinal(buf: bytes, writeGen: nat, metadata: bytes, list: bytes, cookie: bytes)
    returns (out: bytes, fileSizeAt: nat)
    requires Final(writeGen, 0, metadata, list, cookie).Valid()
    ensures out == buf + Pack(writeGen) + Zeros(INTPACK64_MAXSIZE) + Counted(metadata) + Counted(list) + Counted(cookie)
    ensures fileSizeAt == |buf| + |Pack(writeGen)| && fileSizeAt + INTPACK64_MAXSIZE <= |out|
    ensures forall fileSize: nat | fileSize < TWO64 ::
              InfoRead(WithSize(out, fileSizeAt, fileSize), |buf|)
              == Some(Final(writeGen, fileSize, metadata, list, cookie))
  {
    hide Pack, InfoRead, Counted;
    out := buf + Pack(writeGen);
    fileSizeAt := |out|;
    out := out + Zeros(INTPACK64_MAXSIZE);
    out := out + Pack(|metadata|);
    out := out + metadata;
    out := out + Pack(|list|);
    out := out + list;
    out := out + Pack(|cookie|);
    out := out + cookie;
    assert out == buf + Pack(writeGen) + Zeros(INTPACK64_MAXSIZE) + Counted(metadata) + Counted(list) + Counted(cookie)
      by { CountedIs(metadata); CountedIs(list); CountedIs(cookie); }
    forall fileSize: nat | fileSize < TWO64
      ensures InfoRead(WithSize(out, fileSizeAt, fileSize), |buf|)
              == Some(Final(writeGen, fileSize, metadata, list, cookie))
    {
      SizedReads(buf, Final(writeGen, fileSize, metadata, list, cookie), out);
    }
  }

  /** A buffer with a file size stored in its field. */
  function WithSize(buf: bytes, at: nat, fileSize: nat): bytes
    requires at + INTPACK64_MAXSIZE <= |buf| && fileSize < TWO64
  {
    buf[..at] + Field(fileSize) + buf[at + INTPACK64_MAXSIZE..]
  }

  lemma CountedIs(s: bytes)
    requires |s| < TWO64
    ensures Counted(s) == Pack(|s|) + s
  {
  }

  lemma SizedReads(buf: bytes, f: Final, out: bytes)
    requires f.Valid() && |buf| + |Pack(f.writeGen)| + INTPACK64_MAXSIZE <= |out|
    requires out == buf + Pack(f.writeGen) + Zeros(INTPACK64_MAXSIZE) + Counted(f.metadata) + Counted(f.list)
                    + Counted(f.cookie)
    ensures InfoRead(WithSize(out, |buf| + |Pack(f.writeGen)|, f.fileSize), |buf|) == Some(f)
  {
    hide Pack, InfoRead, Counted;
    var at, rest := |buf| + |Pack(f.writeGen)|, Counted(f.metadata) + Counted(f.list) + Counted(f.cookie);
    assert out == buf + Pack(f.writeGen) + Zeros(INTPACK64_MAXSIZE) + rest;
    assert out[..at] == buf + Pack(f.writeGen) && out[at + INTPACK64_MAXSIZE..] == rest;
    var data := WithSize(out, at, f.fileSize);
    assert data == buf + FinalBytes(f);
    HoldsAfter(buf, FinalBytes(f));
    FinalReads(data, |buf|, f);
  }

  /** Once space for the block is allocated the file has its final size: store it in its place. */
  method StoreFileSize(buf: bytes, at: nat, fileSize: nat, ghost before: bytes, ghost f: Final)
    returns (out: bytes)
    requires f.Valid() && f.fileSize == fileSize
    requires at == |before| + |Pack(f.writeGen)|
    requires buf == before + Pack(f.writeGen) + Zeros(INTPACK64_MAXSIZE) + Counted(f.metadata) + Counted(f.list)
                    + Counted(f.cookie)
    ensures out == before + FinalBytes(f)
  {
    hide Pack, Counted;
    PackSize(fileSize);
    var n := |Pack(fileSize)|;
    out := buf[..at] + Pack(fileSize) + buf[at + n..];
    var rest := Counted(f.metadata) + Counted(f.list) + Counted(f.cookie);
    assert buf == before + Pack(f.writeGen) + Zeros(INTPACK64_MAXSIZE) + rest;
    assert buf[..at] == before + Pack(f.writeGen);
    assert buf[at + n..] == Zeros(INTPACK64_MAXSIZE)[n..] + rest;
    assert Zeros(INTPACK64_MAXSIZE)[n..] == Zeros(INTPACK64_MAXSIZE - n);
  }

  // ---- Reading it strictly ----

  /** Skip the pairs of a list up to the one of offset 0: the position after it and its version. */
  function ListEnd(data: bytes, p: nat): (r: Option<(nat, nat)>)
    ensures r.Some? ==> p < r.value.0
    decreases |data| - p
  {
    var off := Unpack(data, p);
    if off.None? then None else
    var size := Unpack(data, off.value.1);
    if size.None? then None else
    if off.value.0 == 0 then Some((size.value.1, size.value.0))
    else ListEnd(data, size.value.1)
  }

  /** The size of a closing pair announces information: it is a signed number in the source. */
  predicate Announces(size: nat) {
    VERSION_CKPT <= size < OFF_LIMIT
  }

  /** The position of the checkpoint information of a page that starts with a list announcing it. */
  function InfoAt(data: bytes): Option<nat> {
    var off := Unpack(data, 0);
    if off.None? || off.value.0 != MAGIC then None else
    var size := Unpack(data, off.value.1);
    if size.None? || size.value.0 != 0 then None else
    var end := ListEnd(data, size.value.1);
    if end.None? || !Announces(end.value.1) then None else Some(end.value.0)
  }

  /** Bytes of a page; past its end they read as zero. */
  function Slice(data: bytes, p: nat, n: nat): bytes {
    seq(n, i requires 0 <= i => At(data, p + i))
  }

  function CountedAt(data: bytes, p: nat): Option<(bytes, nat)> {
    var n := Unpack(data, p);
    if n.None? then None else Some((Slice(data, n.value.1, n.value.0), n.value.1 + n.value.0))
  }

  /** The information at a position as far as its numbers can be read, and the position after it: the
      bytes announced last need not all be on the page. */
  function FieldsRead(data: bytes, p: nat): Option<(Final, nat)> {
    var w := Unpack(data, p);
    if w.None? then None else
    var f := Unpack(data, w.value.1);
    if f.None? then None else
    var m := CountedAt(data, w.value.1 + INTPACK64_MAXSIZE);
    if m.None? then None else
    var l := CountedAt(data, m.value.1);
    if l.None? then None else
    var c := CountedAt(data, l.value.1);
    if c.None? then None else
    Some((Final(w.value.0, f.value.0, m.value.0, l.value.0, c.value.0), c.value.1))
  }

  /** The information at a position, if all of it is on the page. */
  function InfoRead(data: bytes, p: nat): Option<Final> {
    var r := FieldsRead(data, p);
    if r.None? || r.value.1 > |data| then None else Some(r.value.0)
  }

  lemma SliceHeld(data: bytes, p: nat, s: bytes)
    requires Holds(data, p, s)
    ensures Slice(data, p, |s|) == s
  {
    forall i | 0 <= i < |s| ensures Slice(data, p, |s|)[i] == s[i] {
      assert Slice(data, p, |s|)[i] == At(data, p + i);
      assert data[p + i] == data[p..p + |s|][i] == s[i];
    }
  }

  lemma CountedReads(data: bytes, p: nat, s: bytes)
    requires |s| < TWO64 && Holds(data, p, Counted(s))
    ensures CountedAt(data, p) == Some((s, p + |Counted(s)|))
  {
    hide Pack, Unpack, Holds, Slice;
    HoldsTwo(data, p, Pack(|s|), s);
    RoundTrip(data, p, |s|);
    SliceHeld(data, p + |Pack(|s|)|, s);
  }

  /** Appended information is read back, whatever follows it on the page. */
  lemma FinalReads(data: bytes, p: nat, f: Final)
    requires f.Valid() && Holds(data, p, FinalBytes(f))
    ensures InfoRead(data, p) == Some(f)
  {
    hide Pack, Unpack, Counted, CountedAt;
    var a, b := Pack(f.writeGen), Field(f.fileSize);
    var m, l, c := Counted(f.metadata), Counted(f.list), Counted(f.cookie);
    HoldsTwo(data, p, a + b + m + l, c);
    FrontReads(data, p, f);
    CountedReads(data, p + |a| + |b| + |m| + |l|, f.cookie);
  }

  /** The parts before the cookie. */
  lemma FrontReads(data: bytes, p: nat, f: Final)
    requires f.Valid()
    requires Holds(data, p, Pack(f.writeGen) + Field(f.fileSize) + Counted(f.metadata) + Counted(f.list))
    ensures var q := p + |Pack(f.writeGen)|;
            var q1 := q + INTPACK64_MAXSIZE;
            && |Field(f.fileSize)| == INTPACK64_MAXSIZE
            && Unpack(data, p) == Some((f.writeGen, q))
            && Unpack(data, q).Some? && Unpack(data, q).value.0 == f.fileSize
            && CountedAt(data, q1) == Some((f.metadata, q1 + |Counted(f.metadata)|))
            && CountedAt(data, q1 + |Counted(f.metadata)|)
               == Some((f.list, q1 + |Counted(f.metadata)| + |Counted(f.list)|))
  {
    hide Pack, Unpack, Holds, Counted, CountedAt;
    var a, b, m, l := Pack(f.writeGen), Field(f.fileSize), Counted(f.metadata), Counted(f.list);
    HoldsTwo(data, p, a + b + m, l);
    HoldsTwo(data, p, a + b, m);
    HoldsTwo(data, p, a, b);
    RoundTrip(data, p, f.writeGen);
    PackSize(f.fileSize);
    HoldsTwo(data, p + |a|, Pack(f.fileSize), Zeros(INTPACK64_MAXSIZE - |Pack(f.fileSize)|));
    RoundTrip(data, p + |a|, f.fileSize);
    CountedReads(data, p + |a| + |b|, f.metadata);
    CountedReads(data, p + |a| + |b| + |m|, f.list);
  }

  lemma {:induction false} ListEndReads(data: bytes, q: nat, s: seq<Extent>, i: nat, version: nat)
    requires Storable(s) && version < OFF_LIMIT && i <= |s|
    requires Holds(data, q, Pairs(s)) && Holds(data, q + |Pairs(s)|, Pair(0, version))
    ensures ListEnd(data, q + |Pairs(s[..i])|) == Some((q + |Pairs(s)| + |Pair(0, version)|, version))
    decreases |s| - i
  {
    hide Pack, Unpack, Holds, Pairs;
    var p := q + |Pairs(s[..i])|;
    if i == |s| {
      assert s[..i] == s;
      PairReads(data, p, 0, version);
    } else {
      PairOf(data, q, s, i);
      PairReads(data, p, s[i].off, s[i].size);
      ListEndReads(data, q, s, i + 1, version);
    }
  }

  /** A page of an avail list with checkpoint information, as a checkpoint writes it. */
  lemma PageReads(data: bytes, s: seq<Extent>, f: Final)
    requires Storable(s) && f.Valid() && Holds(data, 0, ListBytes(s, VERSION_CKPT) + FinalBytes(f))
    ensures InfoAt(data) == Some(|ListBytes(s, VERSION_CKPT)|)
    ensures InfoRead(data, |ListBytes(s, VERSION_CKPT)|) == Some(f)
  {
    hide Pack, Unpack, Holds, ListBytes, InfoAt, InfoRead, FinalBytes;
    HoldsTwo(data, 0, ListBytes(s, VERSION_CKPT), FinalBytes(f));
    FinalReads(data, |ListBytes(s, VERSION_CKPT)|, f);
    InfoAtReads(data, s, VERSION_CKPT);
  }

  /** A page announces information exactly if its list was written with a version for it. */
  lemma InfoAtReads(data: bytes, s: seq<Extent>, version: nat)
    requires Storable(s) && version < OFF_LIMIT && Holds(data, 0, ListBytes(s, version))
    ensures InfoAt(data) == if Announces(version) then Some(|ListBytes(s, version)|) else None
  {
    hide Pack, Unpack, Holds, Pairs, Pair, ListEnd;
    ListLayout(data, 0, s, version);
    PairReads(data, 0, MAGIC, 0);
    NoPairs(s);
    ListEndReads(data, |Pair(MAGIC, 0)|, s, 0, version);
  }

  // ---- The scan, as it is written ----

  /** A block's page as the scan sees it at some offset of the file: what its header says, whether it
      reads correctly, whether it is one of the block manager's pages, and its contents. */
  datatype Page = Page(size: nat, checksum: nat, sound: bool, manager: bool, data: bytes)

  datatype Saved = Saved(offset: nat, size: nat, checksum: nat, info: Final)

  const NOTHING := Saved(0, 0, 0, Final(0, 0, [], [], []))

  /** The variables of the scan, kept from one block to the next. */
  datatype Vars = Vars(extOff: nat, extSize: nat, writeGen: nat, len: nat, current: Saved, best: Saved, found: bool)

  const START := Vars(0, 0, 0, 0, NOTHING, NOTHING, false)

  /** The `continue` of the macro around each read ends the macro's own loop, not the scan's turn: a
      value that cannot be read leaves the variable and the position as they were. */
  function Try(data: bytes, p: nat, was: nat): (r: (nat, nat)) {
    match Unpack(data, p)
    case Some((x, q)) => (x, q)
    case None => (was, p)
  }

  /** Read a pair into two variables: the first may be set and the second not. */
  function TryPair(data: bytes, p: nat, off: nat, size: nat): (r: (nat, nat, nat, bool)) {
    var a := Unpack(data, p);
    if a.None? then (off, size, p, false) else
    var b := Unpack(data, a.value.1);
    if b.None? then (a.value.0, size, a.value.1, false) else (a.value.0, b.value.0, b.value.1, true)
  }

  /** The inner loop: read pairs until one of offset 0, or one that cannot be read. */
  function TryPairs(data: bytes, p: nat, off: nat, size: nat): (r: (nat, nat, nat, bool))
    decreases |data| - p
  {
    var (o, s, q, ok) := TryPair(data, p, off, size);
    if !ok || o == 0 then (o, s, q, ok) else TryPairs(data, q, o, s)
  }

  /** One turn of the scan on a block that reads correctly. */
  function Visit(v: Vars, page: Page, offset: nat): Vars {
    if !page.manager then v else
    var data := page.data;
    var (off1, size1, p1, _) := TryPair(data, 0, v.extOff, v.extSize);
    var v1 := v.(extOff := off1, extSize := size1);
    if off1 != MAGIC || size1 != 0 then v1 else
    var (off2, size2, p2, ok) := TryPairs(data, p1, off1, size1);
    var v2 := v1.(extOff := off2, extSize := size2);
    if !ok || !Announces(size2) then v2 else
    var (w, p3) := Try(data, p2, v.writeGen);
    var v3 := v2.(writeGen := w);
    if w < v.best.info.writeGen then v3 else
    Adopt(v3, page, offset, p3)
  }

  /** Read the rest of the entry into the current record and make it the best one. */
  function Adopt(v: Vars, page: Page, offset: nat, p: nat): Vars {
    var data := page.data;
    var (fileSize, _) := Try(data, p, v.current.info.fileSize);
    var (n, p1) := Try(data, p + INTPACK64_MAXSIZE, v.len);
    var (l, p2) := Try(data, p1 + n, n);
    var (c, p3) := Try(data, p2 + l, l);
    var info := Final(v.writeGen, fileSize, Slice(data, p1, n), Slice(data, p2, l), Slice(data, p3, c));
    v.(len := c, best := Saved(offset, page.size, page.checksum, info), current := v.best, found := true)
  }

  // ---- What a turn should do, and when it does ----

  /** The entry a page holds, if it holds one that can be read completely. */
  function EntryOf(page: Page, offset: nat): Option<Saved> {
    if !page.manager then None else
    match InfoAt(page.data)
    case None => None
    case Some(p) =>
      match InfoRead(page.data, p)
      case None => None
      case Some(f) => Some(Saved(offset, page.size, page.checksum, f))
  }

  /** The best entry so far: only a completely read one, no older than it, replaces it. */
  function Better(found: bool, best: Saved, e: Option<Saved>): (bool, Saved) {
    if e.Some? && best.info.writeGen <= e.value.info.writeGen then (true, e.value) else (found, best)
  }

  /** The write generation the code goes by: the one read, or the one left from an earlier block. */
  function GenerationUsed(v: Vars, page: Page, p: nat): nat {
    Try(page.data, p, v.writeGen).0
  }

  /** The guard of the failing branch: information is announced and not all of it can be read, yet
      the generation gone by is not older than the best entry's. */
  predicate HalfRead(v: Vars, page: Page) {
    && page.manager
    && InfoAt(page.data).Some?
    && InfoRead(page.data, InfoAt(page.data).value).None?
    && v.best.info.writeGen <= GenerationUsed(v, page, InfoAt(page.data).value)
  }

  lemma {:induction false} TryPairsIs(data: bytes, p: nat, off: nat, size: nat)
    ensures var (o, s, q, ok) := TryPairs(data, p, off, size);
            ok <==> ListEnd(data, p).Some?
    ensures var (o, s, q, ok) := TryPairs(data, p, off, size);
            ok ==> ListEnd(data, p) == Some((q, s))
    decreases |data| - p
  {
    hide Unpack;
    var (o, s, q, ok) := TryPair(data, p, off, size);
    if ok && o != 0 {
      TryPairsIs(data, q, o, s);
    }
  }

  /** A page that announces no information leaves the best entry alone, stale variables or not. */
  lemma NotAnnounced(v: Vars, page: Page, offset: nat)
    requires page.manager ==> InfoAt(page.data).None?
    ensures Visit(v, page, offset).best == v.best && Visit(v, page, offset).found == v.found
    ensures Visit(v, page, offset).writeGen == v.writeGen
  {
    if page.manager {
      var data := page.data;
      var (off1, size1, p1, ok1) := TryPair(data, 0, v.extOff, v.extSize);
      TryPairsIs(data, p1, off1, size1);
      if !ok1 {
        StopsAtOnce(data, p1, off1, size1);
      }
    }
  }

  /** Where a pair could not be read, the next attempt starts at the byte that could not be read. */
  lemma StopsAtOnce(data: bytes, p: nat, off: nat, size: nat)
    requires Unpack(data, p).None?
    ensures ListEnd(data, p).None?
  {
  }

  /** A block that announces information is read on from the write generation. */
  lemma ReadsOn(v: Vars, page: Page, offset: nat) returns (v3: Vars, p3: nat)
    requires page.manager && InfoAt(page.data).Some?
    ensures var p := InfoAt(page.data).value;
            && v3.writeGen == GenerationUsed(v, page, p) && v3.best == v.best && v3.found == v.found
            && (Unpack(page.data, p).Some? ==> p3 == Unpack(page.data, p).value.1)
            && Visit(v, page, offset) == if v3.writeGen < v.best.info.writeGen then v3 else Adopt(v3, page, offset, p3)
  {
    var data := page.data;
    var (off1, size1, p1, ok1) := TryPair(data, 0, v.extOff, v.extSize);
    TryPairsIs(data, p1, off1, size1);
    hide ListEnd, TryPairs, Unpack, Adopt;
    var p := InfoAt(data).value;
    var (off2, size2, p2, ok) := TryPairs(data, p1, off1, size1);
    assert ok && p2 == p && Announces(size2);
    v3 := v.(extOff := off2, extSize := size2, writeGen := Try(data, p, v.writeGen).0);
    p3 := Try(data, p, v.writeGen).1;
  }

  lemma Adopted(v: Vars, page: Page, offset: nat, p: nat, p3: nat)
    requires Unpack(page.data, p).Some? ==> p3 == Unpack(page.data, p).value.1
    requires Unpack(page.data, p).Some? ==> v.writeGen == Unpack(page.data, p).value.0
    ensures var v' := Adopt(v, page, offset, p3);
            && v'.found && v'.writeGen == v.writeGen && v'.best.offset == offset && v'.best.size == page.size
            && v'.best.checksum == page.checksum && v'.best.info.writeGen == v.writeGen
            && (FieldsRead(page.data, p).Some? ==> v'.best.info == FieldsRead(page.data, p).value.0)
  {
    hide Unpack, Slice;
  }

  lemma Announced(v: Vars, page: Page, offset: nat)
    requires page.manager && InfoAt(page.data).Some?
    ensures var p := InfoAt(page.data).value;
            var v' := Visit(v, page, offset);
            var w := GenerationUsed(v, page, p);
            && v'.writeGen == w
            && (w < v.best.info.writeGen ==> v'.best == v.best && v'.found == v.found)
            && (w >= v.best.info.writeGen ==>
                  && v'.found && v'.best.offset == offset && v'.best.size == page.size
                  && v'.best.checksum == page.checksum && v'.best.info.writeGen == w
                  && (FieldsRead(page.data, p).Some? ==> v'.best.info == FieldsRead(page.data, p).value.0))
  {
    hide Visit, Adopt, InfoAt, FieldsRead, Unpack;
    var v3, p3 := ReadsOn(v, page, offset);
    Adopted(v3, page, offset, InfoAt(page.data).value, p3);
  }

  /** A turn of the scan does what it should exactly when it is not a half-read entry that wins. */
  lemma VisitIff(v: Vars, page: Page, offset: nat)
    requires v.found ==> v.best.offset < offset
    ensures var v' := Visit(v, page, offset);
            (v'.found, v'.best) == Better(v.found, v.best, EntryOf(page, offset)) <==> !HalfRead(v, page)
  {
    hide InfoAt, FieldsRead, Visit, Try;
    if !page.manager || InfoAt(page.data).None? {
      NotAnnounced(v, page, offset);
    } else {
      Announced(v, page, offset);
      Generation(v, page);
    }
  }

  lemma Generation(v: Vars, page: Page)
    requires page.manager && InfoAt(page.data).Some?
    ensures var p := InfoAt(page.data).value;
            InfoRead(page.data, p).Some? ==> GenerationUsed(v, page, p) == InfoRead(page.data, p).value.writeGen
  {
  }

  /** It does happen: a list announcing information that is not there is taken for an entry. */
  lemma HalfReadTaken(page: Page, offset: nat)
    requires page.manager && page.data == ListBytes([], VERSION_CKPT)
    ensures EntryOf(page, offset).None?
    ensures Visit(START, page, offset).found && HalfRead(START, page)
  {
    var data := page.data;
    HoldsSelf(data);
    InfoAtReads(data, [], VERSION_CKPT);
    assert Unpack(data, |data|).None?;
    hide InfoAt, Visit, ListBytes;
    Announced(START, page, offset);
  }

  /** Information that is cut off inside its last part, the cookie. */
  function CutBytes(f: Final, k: nat): bytes
    requires f.Valid() && k < |f.cookie|
  {
    Pack(f.writeGen) + Field(f.fileSize) + Counted(f.metadata) + Counted(f.list) + (Pack(|f.cookie|) + f.cookie[..k])
  }

  lemma CutSlice(data: bytes, p: nat, s: bytes, k: nat)
    requires k < |s| && Holds(data, p, s[..k]) && |data| == p + k
    ensures Slice(data, p, |s|) == s[..k] + Zeros(|s| - k)
  {
    var a, b := Slice(data, p, |s|), s[..k] + Zeros(|s| - k);
    assert |a| == |b| == |s|;
    forall i | 0 <= i < |s| ensures a[i] == b[i] {
      assert a[i] == At(data, p + i);
      if i < k {
        assert data[p + i] == data[p..p + k][i] == s[i] == b[i];
      } else {
        assert b[i] == Zeros(|s| - k)[i - k] == 0;
      }
    }
    assert a == b;
  }

  /** All numbers of cut-off information can be read; zeros stand for the bytes that are missing. */
  lemma CutReads(data: bytes, p: nat, f: Final, k: nat)
    requires f.Valid() && k < |f.cookie| && Holds(data, p, CutBytes(f, k)) && |data| == p + |CutBytes(f, k)|
    ensures FieldsRead(data, p) == Some((f.(cookie := f.cookie[..k] + Zeros(|f.cookie| - k)), |data| + |f.cookie| - k))
  {
    hide Pack, Unpack, Holds, Counted, Slice;
    var a, b := Pack(f.writeGen), Field(f.fileSize);
    var m, l, n := Counted(f.metadata), Counted(f.list), Pack(|f.cookie|);
    var q := p + |a| + |b| + |m| + |l|;
    HoldsTwo(data, p, a + b + m + l, n + f.cookie[..k]);
    HoldsTwo(data, q, n, f.cookie[..k]);
    FrontReads(data, p, f);
    RoundTrip(data, q, |f.cookie|);
    CutSlice(data, q + |n|, f.cookie, k);
  }

  /** It happens, too, with an entry that is cut off inside its cookie: it is taken for one, with a
      cookie that is not the one written. */
  lemma CutOffTaken(page: Page, offset: nat, s: seq<Extent>, f: Final, k: nat)
    requires page.manager && Storable(s) && f.Valid() && k < |f.cookie|
    requires page.data == ListBytes(s, VERSION_CKPT) + CutBytes(f, k)
    ensures EntryOf(page, offset).None? && HalfRead(START, page)
    ensures var v := Visit(START, page, offset);
            v.found && v.best.info == f.(cookie := f.cookie[..k] + Zeros(|f.cookie| - k))
  {
    hide ListBytes, CutBytes, InfoAt, Visit, FieldsRead, Holds, Try, Unpack;
    var data, p := page.data, |ListBytes(s, VERSION_CKPT)|;
    HoldsSelf(data);
    HoldsTwo(data, 0, ListBytes(s, VERSION_CKPT), CutBytes(f, k));
    InfoAtReads(data, s, VERSION_CKPT);
    CutReads(data, p, f, k);
    Announced(START, page, offset);
  }

  // ---- The whole scan ----

  const PAGE_MAX := 512 * 1024 * 1024

  /** A block whose header is not insane and which reads correctly. */
  predicate Sound(page: Page, offset: nat, fileSize: nat, unit: nat)
    requires 0 < unit
  {
    && page.size != 0 && page.size % unit == 0 && page.size <= PAGE_MAX
    && offset + page.size <= fileSize
    && page.sound
  }

  /** How far the scan moves on from an offset. */
  function Next(file: nat -> Page, offset: nat, fileSize: nat, unit: nat): (n: nat)
    requires 0 < unit
    ensures offset < n
  {
    if Sound(file(offset), offset, fileSize, unit) then offset + file(offset).size else offset + MIN_UNIT
  }

  /** Does the scan, started at `from`, look at the block at an offset? */
  ghost predicate Visits(file: nat -> Page, from: nat, fileSize: nat, unit: nat, offset: nat)
    requires 0 < unit
    decreases fileSize - from
  {
    && from < fileSize
    && ((offset == from && Sound(file(from), from, fileSize, unit))
        || Visits(file, Next(file, from, fileSize, unit), fileSize, unit, offset))
  }

  /** The scan's variables after it has gone through the file from an offset on. */
  ghost function Scanned(file: nat -> Page, from: nat, fileSize: nat, unit: nat, v: Vars): Vars
    requires 0 < unit
    decreases fileSize - from
  {
    if from >= fileSize then v
    else
      var v' := if Sound(file(from), from, fileSize, unit) then Visit(v, file(from), from) else v;
      Scanned(file, Next(file, from, fileSize, unit), fileSize, unit, v')
  }

  /** Scan a file for the last checkpoint information in it. */
  method ScanFile(file: nat -> Page, fileSize: nat, unit: nat) returns (r: Option<Saved>)
    requires 0 < unit
    ensures var v := Scanned(file, 0, fileSize, unit, START); r == if v.found then Some(v.best) else None
  {
    hide Visit, Sound;
    var v, offset := START, 0;
    while offset < fileSize
      invariant Scanned(file, offset, fileSize, unit, v) == Scanned(file, 0, fileSize, unit, START)
      decreases fileSize - offset
    {
      var page := file(offset);
      if Sound(page, offset, fileSize, unit) {
        v := Visit(v, page, offset);
      }
      offset := Next(file, offset, fileSize, unit);
    }
    return if v.found then Some(v.best) else None;
  }

  /** Every visited page that announces information can be read completely. */
  ghost predicate Decodable(file: nat -> Page, fileSize: nat, unit: nat)
    requires 0 < unit
  {
    forall offset: nat | Visits(file, 0, fileSize, unit, offset) ::
      file(offset).manager && InfoAt(file(offset).data).Some? ==> EntryOf(file(offset), offset).Some?
  }

  /** The entry at an offset is at least as good as one at another: newer, or later at a tie. */
  predicate NoWorse(e: Saved, f: Saved) {
    f.info.writeGen < e.info.writeGen || (f.info.writeGen == e.info.writeGen && f.offset <= e.offset)
  }

  /** What the scan has established when it reaches an offset. */
  ghost predicate BestSoFar(file: nat -> Page, upto: nat, fileSize: nat, unit: nat, v: Vars)
    requires 0 < unit
  {
    && (v.found ==> Visits(file, 0, fileSize, unit, v.best.offset) && v.best.offset < upto
                    && EntryOf(file(v.best.offset), v.best.offset) == Some(v.best))
    && (!v.found ==> v.best.info.writeGen == 0)
    && forall o: nat | o < upto && Visits(file, 0, fileSize, unit, o) && EntryOf(file(o), o).Some? ::
         v.found && NoWorse(v.best, EntryOf(file(o), o).value)
  }

  lemma {:induction false} VisitsBounds(file: nat -> Page, from: nat, fileSize: nat, unit: nat, offset: nat)
    requires 0 < unit && Visits(file, from, fileSize, unit, offset)
    ensures from <= offset < fileSize && Sound(file(offset), offset, fileSize, unit)
    ensures var page := file(offset);
            && page.sound && page.size != 0 && page.size % unit == 0 && page.size <= PAGE_MAX
            && offset + page.size <= fileSize
    decreases fileSize - from
  {
    if !(offset == from && Sound(file(from), from, fileSize, unit)) {
      VisitsBounds(file, Next(file, from, fileSize, unit), fileSize, unit, offset);
    }
  }

  /** From an offset on the scan looks at what it looks at from the start. */
  ghost predicate Reached(file: nat -> Page, from: nat, fileSize: nat, unit: nat)
    requires 0 < unit
  {
    forall o: nat | from <= o :: Visits(file, 0, fileSize, unit, o) <==> Visits(file, from, fileSize, unit, o)
  }

  lemma ReachedNext(file: nat -> Page, from: nat, fileSize: nat, unit: nat)
    requires 0 < unit && from < fileSize && Reached(file, from, fileSize, unit)
    ensures var n := Next(file, from, fileSize, unit);
            && Reached(file, n, fileSize, unit)
            && forall o: nat | from <= o < n :: Visits(file, 0, fileSize, unit, o) ==>
                 o == from && Sound(file(from), from, fileSize, unit)
  {
    var n := Next(file, from, fileSize, unit);
    forall o: nat | from <= o < n && Visits(file, 0, fileSize, unit, o)
      ensures o == from && Sound(file(from), from, fileSize, unit)
    {
      assert Visits(file, from, fileSize, unit, o);
      if Visits(file, n, fileSize, unit, o) {
        VisitsBounds(file, n, fileSize, unit, o);
      }
    }
  }

  lemma BestNext(file: nat -> Page, from: nat, fileSize: nat, unit: nat, v: Vars, v': Vars)
    requires 0 < unit && from < fileSize && Reached(file, from, fileSize, unit)
    requires Decodable(file, fileSize, unit) && BestSoFar(file, from, fileSize, unit, v)
    requires v' == if Sound(file(from), from, fileSize, unit) then Visit(v, file(from), from) else v
    ensures BestSoFar(file, Next(file, from, fileSize, unit), fileSize, unit, v')
  {
    hide Visit, InfoAt, InfoRead, Sound, Visits, GenerationUsed, Reached;
    ReachedNext(file, from, fileSize, unit);
    if Sound(file(from), from, fileSize, unit) {
      ReachedHere(file, from, fileSize, unit);
      VisitIff(v, file(from), from);
    }
  }

  lemma ReachedHere(file: nat -> Page, from: nat, fileSize: nat, unit: nat)
    requires 0 < unit && from < fileSize && Reached(file, from, fileSize, unit)
    requires Sound(file(from), from, fileSize, unit)
    ensures Visits(file, 0, fileSize, unit, from)
  {
    hide Sound;
    assert Visits(file, from, fileSize, unit, from);
  }

  lemma {:induction false} ScanBest(file: nat -> Page, from: nat, fileSize: nat, unit: nat, v: Vars)
    requires 0 < unit && Reached(file, from, fileSize, unit)
    requires Decodable(file, fileSize, unit) && BestSoFar(file, from, fileSize, unit, v)
    ensures BestSoFar(file, fileSize, fileSize, unit, Scanned(file, from, fileSize, unit, v))
    decreases fileSize - from
  {
    if from >= fileSize {
      forall o: nat | Visits(file, 0, fileSize, unit, o) ensures o < fileSize {
        VisitsBounds(file, 0, fileSize, unit, o);
      }
    } else {
      hide Visit, Sound, Decodable, BestSoFar, Reached;
      var v' := if Sound(file(from), from, fileSize, unit) then Visit(v, file(from), from) else v;
      BestNext(file, from, fileSize, unit, v, v');
      ReachedNext(file, from, fileSize, unit);
      ScanBest(file, Next(file, from, fileSize, unit), fileSize, unit, v');
    }
  }

  /** Over a file whose announced information can all be read, the scan finds an entry exactly when
      there is one, and returns the one of the greatest write generation, the last of those. */
  lemma ScanFindsLast(file: nat -> Page, fileSize: nat, unit: nat)
    requires 0 < unit && Decodable(file, fileSize, unit)
    ensures var v := Scanned(file, 0, fileSize, unit, START);
            && (v.found ==> Visits(file, 0, fileSize, unit, v.best.offset)
                            && EntryOf(file(v.best.offset), v.best.offset) == Some(v.best)
                            && file(v.best.offset).sound && v.best.offset + file(v.best.offset).size <= fileSize)
            && forall o: nat | Visits(file, 0, fileSize, unit, o) && EntryOf(file(o), o).Some? ::
                 v.found && NoWorse(v.best, EntryOf(file(o), o).value)
  {
    hide Visit, Sound, Decodable, EntryOf;
    ScanBest(file, 0, fileSize, unit, START);
    forall o: nat | Visits(file, 0, fileSize, unit, o)
      ensures o < fileSize && file(o).sound && o + file(o).size <= fileSize
    {
      VisitsBounds(file, 0, fileSize, unit, o);
    }
  }

  /** Recovering a file on its own: if its newest block-manager page is the avail list a checkpoint
      wrote, with that checkpoint's incomplete cookie appended, the scan followed by the repair
      yields the cookie the checkpoint returned. */
  lemma RecoversCookie(file: nat -> Page, fileSize: nat, unit: nat, o: nat, s: seq<Extent>, f: Final, c: Cookie,
                       stale: nat)
    requires 0 < unit && Decodable(file, fileSize, unit) && Visits(file, 0, fileSize, unit, o)
    requires Storable(s) && f.Valid() && c.Valid() && stale < TWO64
    requires Sizable(unit, c.root) && Sizable(unit, c.alloc) && Sizable(unit, c.discard)
    requires file(o).manager && Holds(file(o).data, 0, ListBytes(s, VERSION_CKPT) + FinalBytes(f))
    requires c.avail == Addr(0, o, file(o).size, file(o).checksum)
    requires f.cookie == CookieBytes(unit, c.(avail := NO_ADDR, fileSize := stale)) && f.fileSize == c.fileSize
    requires forall p: nat | Visits(file, 0, fileSize, unit, p) && p != o && EntryOf(file(p), p).Some? ::
               EntryOf(file(p), p).value.info.writeGen < f.writeGen
    ensures var v := Scanned(file, 0, fileSize, unit, START);
            v.found && v.best == Saved(o, c.avail.size, c.avail.checksum, f)
    ensures Repaired(unit, f.cookie, c.avail, f.fileSize) == Some(CookieBytes(unit, c))
  {
    hide Visits, Visit, InfoAt, InfoRead, Decodable, ListBytes, FinalBytes, Holds, CookieBytes, Repaired, Scanned;
    PageReads(file(o).data, s, f);
    var e := Saved(o, file(o).size, file(o).checksum, f);
    assert EntryOf(file(o), o) == Some(e);
    ScanFindsLast(file, fileSize, unit);
    var v := Scanned(file, 0, fileSize, unit, START);
    assert NoWorse(v.best, e);
    assert v.best == e;
    RepairIsComplete(unit, c, stale);
  }
}
