/** Address cookies and checkpoint cookies: packed triples of offset, size and checksum. */
module Cookies {
  import opened Arithmetic
  import opened Extents
  import opened IntPack
  import opened Layout

  const FILEID: byte := 1          // the following bytes are an object ID
  const CKPT_VERSION: byte := 1

  /** A block's address; the offset is the unsigned value of the source's signed one. */
  datatype Addr = Addr(objectid: nat, offset: nat, size: nat, checksum: nat) {
    predicate Valid() {
      objectid < TWO32 && offset < TWO64 && size < TWO32 && checksum < TWO32
    }
  }

  const NO_ADDR := Addr(0, 0, 0, 0)

  // ---- Address cookies ----

  /** The values stored for an address: a count of units past the description block, and a size in
      units; a size of 0 marks the empty address. */
  function StoredAs(unit: nat, a: Addr): (r: (nat, nat, nat, nat))
    requires 0 < unit && a.Valid()
    ensures r.0 < TWO64 && r.1 < TWO32 && r.2 < TWO32 && r.3 < TWO32
  {
    if a.size == 0 then (0, 0, 0, 0)
    else
      SmallerOver(a.offset, unit);
      SmallerOver(a.size, unit);
      ((a.offset / unit + TWO64 - 1) % TWO64, a.size / unit, a.checksum, a.objectid)
  }

  /** The bytes of an address; an object ID follows if there is one and the file has objects. */
  function AddrBytes(unit: nat, hasObjects: bool, a: Addr): bytes
    requires 0 < unit && a.Valid()
  {
    var (o, s, c, i) := StoredAs(unit, a);
    Pack(o) + Pack(s) + Pack(c) + (if i != 0 && hasObjects then [FILEID] + Pack(i) else [])
  }

  /** Append an address to a buffer: reading there gives the address, as far as it can be kept, and
      uses all that was appended. */
  method PackAddr(buf: bytes, unit: nat, hasObjects: bool, a: Addr) returns (out: bytes)
    requires 0 < unit && a.Valid()
    ensures out == buf + AddrBytes(unit, hasObjects, a)
    ensures AddrAt(out, |buf|, |out| - |buf|, unit) == Some((Kept(unit, hasObjects, a), |out|))
  {
    hide Pack, StoredAs, AddrAt, Kept, Holds;
    var (o, s, c, i) := StoredAs(unit, a);
    out := buf + Pack(o);
    out := out + Pack(s);
    out := out + Pack(c);
    if i != 0 && hasObjects {
      out := out + [FILEID];
      out := out + Pack(i);
    }
    assert out == buf + AddrBytes(unit, hasObjects, a);
    HoldsAfter(buf, AddrBytes(unit, hasObjects, a));
    AddrRoundTrip(out, |buf|, unit, hasObjects, a);
  }

  lemma HoldsAfter(buf: bytes, more: bytes)
    ensures Holds(buf + more, |buf|, more)
  {
  }

  /** A result is right for every address that may have been packed there. */
  ghost predicate ReadsAddr(buf: bytes, p: nat, addrSize: nat, unit: nat, r: Option<(Addr, nat)>)
    requires 0 < unit
  {
    forall h: bool, a: Addr |
      a.Valid() && Holds(buf, p, AddrBytes(unit, h, a)) && addrSize == |AddrBytes(unit, h, a)| ::
      r == Some((Kept(unit, h, a), p + addrSize))
  }

  lemma AddrsRead(buf: bytes, p: nat, addrSize: nat, unit: nat)
    requires 0 < unit
    ensures ReadsAddr(buf, p, addrSize, unit, AddrAt(buf, p, addrSize, unit))
  {
    hide AddrAt, AddrBytes, Kept, Holds;
    forall h: bool, a: Addr |
      a.Valid() && Holds(buf, p, AddrBytes(unit, h, a)) && addrSize == |AddrBytes(unit, h, a)|
      ensures AddrAt(buf, p, addrSize, unit) == Some((Kept(unit, h, a), p + addrSize))
    {
      AddrRoundTrip(buf, p, unit, h, a);
    }
  }

  function Bit0(flags: byte): bool {
    flags % 2 == 1
  }

  /** The address a stored triple stands for. */
  function Loaded(unit: nat, o: nat, s: nat, c: nat, i: nat): Addr {
    if s == 0 then NO_ADDR
    else Addr(i % TWO32, (o + 1) % TWO64 * unit % TWO64, s % TWO32 * unit % TWO32, c % TWO32)
  }

  /** Read an address. The size of the cookie tells whether an object ID follows the triple; size 0,
      used inside checkpoint cookies, means there is none. None: a value could not be read. Whatever
      address was packed there is returned, as it was kept. */
  method UnpackAddr(buf: bytes, p: nat, addrSize: nat, unit: nat) returns (r: Option<(Addr, nat)>)
    requires 0 < unit
    ensures r == AddrAt(buf, p, addrSize, unit)
    ensures ReadsAddr(buf, p, addrSize, unit, r)
  {
    hide Unpack, ReadsAddr;
    AddrsRead(buf, p, addrSize, unit);
    var o := Unpack(buf, p);
    if o.None? { return None; }
    var s := Unpack(buf, o.value.1);
    if s.None? { return None; }
    var c := Unpack(buf, s.value.1);
    if c.None? { return None; }
    var q, i := c.value.1, 0;
    if addrSize != 0 && q - p < addrSize {
      var flags := At(buf, q);
      q := q + 1;
      if Bit0(flags) {
        var x := Unpack(buf, q);
        if x.None? { return None; }
        i, q := x.value.0, x.value.1;
      }
    }
    return Some((Loaded(unit, o.value.0, s.value.0, c.value.0, i), q));
  }

  /** What is read from a buffer position. */
  function AddrAt(buf: bytes, p: nat, addrSize: nat, unit: nat): Option<(Addr, nat)>
    requires 0 < unit
  {
    var t := TripleAt(buf, p);
    if t.None? then None else
    var (o, s, c, q) := t.value;
    if addrSize != 0 && q - p < addrSize then
      if !Bit0(At(buf, q)) then Some((Loaded(unit, o, s, c, 0), q + 1))
      else
        var x := Unpack(buf, q + 1);
        if x.None? then None else Some((Loaded(unit, o, s, c, x.value.0), x.value.1))
    else
      Some((Loaded(unit, o, s, c, 0), q))
  }

  function TripleAt(buf: bytes, p: nat): Option<(nat, nat, nat, nat)> {
    var o := Unpack(buf, p);
    if o.None? then None else
    var s := Unpack(buf, o.value.1);
    if s.None? then None else
    var c := Unpack(buf, s.value.1);
    if c.None? then None else Some((o.value.0, s.value.0, c.value.0, c.value.1))
  }

  /** What an address becomes by being stored. */
  function Kept(unit: nat, hasObjects: bool, a: Addr): Addr
    requires 0 < unit
  {
    if a.size / unit == 0 then NO_ADDR
    else Addr(if hasObjects then a.objectid else 0, a.offset / unit * unit, a.size / unit * unit, a.checksum)
  }

  /** An address survives being stored exactly when it is aligned and its object ID can be kept, or
      when it is the empty address. */
  lemma KeptIff(unit: nat, hasObjects: bool, a: Addr)
    requires 0 < unit && a.Valid()
    ensures Kept(unit, hasObjects, a) == a <==>
            if a.size == 0 then a == NO_ADDR
            else a.offset % unit == 0 && a.size % unit == 0 && (hasObjects || a.objectid == 0)
  {
  }

  /** The format of an address: units past the description block, units, and the checksum. */
  lemma AddrFormat(unit: nat, n: nat, m: nat, checksum: nat)
    requires 0 < unit && 0 < m && Addr(0, (n + 1) * unit, m * unit, checksum).Valid()
    ensures n < TWO64 && m < TWO64
    ensures AddrBytes(unit, false, Addr(0, (n + 1) * unit, m * unit, checksum)) == Pack(n) + Pack(m) + Pack(checksum)
  {
    hide Pack;
    DivMul(n + 1, unit);
    DivMul(m, unit);
    SmallerOver((n + 1) * unit, unit);
    SmallerOver(m * unit, unit);
    assert m * unit != 0;
  }

  lemma LoadedStored(unit: nat, hasObjects: bool, a: Addr)
    requires 0 < unit && a.Valid()
    ensures var (o, s, c, i) := StoredAs(unit, a);
            Loaded(unit, o, s, c, if hasObjects then i else 0) == Kept(unit, hasObjects, a)
  {
    if a.size != 0 {
      UnitsBack(a.offset, unit, TWO64);
      UnitsBack(a.size, unit, TWO32);
      OneOff(a.offset / unit);
      SmallMod(a.size / unit, TWO32);
    } else {
      assert a.size / unit == 0;
    }
  }

  /** A number of whole units comes back from its quotient. */
  lemma UnitsBack(n: nat, unit: nat, limit: nat)
    requires 0 < unit && n < limit
    ensures n / unit < limit && n / unit * unit % limit == n / unit * unit
  {
    OverBounds(n, unit);
    SmallerOver(n, unit);
    SmallMod(n / unit * unit, limit);
  }

  lemma OneOff(o: nat)
    requires o < TWO64
    ensures ((o + TWO64 - 1) % TWO64 + 1) % TWO64 == o
  {
  }

  lemma TripleReads(buf: bytes, p: nat, o: nat, s: nat, c: nat)
    requires o < TWO64 && s < TWO64 && c < TWO64 && Holds(buf, p, Pack(o) + Pack(s) + Pack(c))
    ensures TripleAt(buf, p) == Some((o, s, c, p + |Pack(o) + Pack(s) + Pack(c)|))
  {
    hide Pack, Unpack, Holds;
    HoldsTwo(buf, p, Pack(o) + Pack(s), Pack(c));
    HoldsTwo(buf, p, Pack(o), Pack(s));
    RoundTrip(buf, p, o);
    RoundTrip(buf, p + |Pack(o)|, s);
    RoundTrip(buf, p + |Pack(o)| + |Pack(s)|, c);
  }

  /** Reading a packed address, whatever follows it, gives what the address was stored as and ends
      where the packed bytes end. */
  lemma AddrRoundTrip(buf: bytes, p: nat, unit: nat, hasObjects: bool, a: Addr)
    requires 0 < unit && a.Valid() && Holds(buf, p, AddrBytes(unit, hasObjects, a))
    ensures var n := |AddrBytes(unit, hasObjects, a)|;
            AddrAt(buf, p, n, unit) == Some((Kept(unit, hasObjects, a), p + n))
  {
    hide Pack, Unpack, Holds, TripleAt, Loaded, Kept, StoredAs;
    var (o, s, c, i) := StoredAs(unit, a);
    var triple := Pack(o) + Pack(s) + Pack(c);
    var more := if i != 0 && hasObjects then [FILEID] + Pack(i) else [];
    HoldsTwo(buf, p, triple, more);
    TripleReads(buf, p, o, s, c);
    LoadedStored(unit, hasObjects, a);
    if more != [] {
      var q := p + |triple|;
      HoldsTwo(buf, q, [FILEID], Pack(i));
      HoldsOne(buf, q, FILEID);
      RoundTrip(buf, q + 1, i);
    }
  }

  lemma HoldsOne(buf: bytes, p: nat, b: byte)
    requires Holds(buf, p, [b])
    ensures At(buf, p) == b
  {
  }

  /** Inside a checkpoint cookie an address has no object ID, and the next value follows at once. */
  lemma PlainAddrReads(buf: bytes, p: nat, unit: nat, a: Addr)
    requires 0 < unit && a.Valid() && Holds(buf, p, AddrBytes(unit, false, a))
    ensures AddrAt(buf, p, 0, unit) == Some((Kept(unit, false, a), p + |AddrBytes(unit, false, a)|))
  {
    hide Pack, Unpack, Holds, TripleAt, Loaded, Kept, StoredAs;
    var (o, s, c, i) := StoredAs(unit, a);
    assert Pack(o) + Pack(s) + Pack(c) + [] == Pack(o) + Pack(s) + Pack(c);
    TripleReads(buf, p, o, s, c);
    LoadedStored(unit, false, a);
  }

  // ---- Checkpoint cookies ----

  /** The parts of a checkpoint its cookie carries; all addresses share one object ID. */
  datatype Cookie = Cookie(root: Addr, alloc: Addr, avail: Addr, discard: Addr, fileSize: nat, ckptSize: nat,
                           objectid: nat) {
    predicate Valid() {
      && root.Valid() && alloc.Valid() && avail.Valid() && discard.Valid()
      && fileSize < TWO64 && ckptSize < TWO64 && objectid < TWO32
    }
  }

  function Sizes(c: Cookie): bytes
    requires c.Valid()
  {
    Pack(c.fileSize) + Pack(c.ckptSize)
  }

  /** Object IDs of zero are not stored. */
  function ObjectBytes(c: Cookie): bytes
    requires c.Valid()
  {
    if c.objectid == 0 then [] else [FILEID] + Pack(c.objectid)
  }

  function CookieBytes(unit: nat, c: Cookie): bytes
    requires 0 < unit && c.Valid()
  {
    [CKPT_VERSION] + AddrBytes(unit, false, c.root) + AddrBytes(unit, false, c.alloc)
    + AddrBytes(unit, false, c.avail) + AddrBytes(unit, false, c.discard) + Sizes(c) + ObjectBytes(c)
  }

  /** Pack a checkpoint cookie; skipping the avail list stores an empty address for it. */
  method PackCookie(unit: nat, version: byte, c: Cookie, skipAvail: bool) returns (r: Option<bytes>)
    requires 0 < unit && c.Valid()
    ensures r.Some? <==> version == CKPT_VERSION
    ensures r.Some? ==> r.value == CookieBytes(unit, if skipAvail then c.(avail := NO_ADDR) else c)
  {
    hide AddrBytes, Pack, AddrAt, Kept;
    if version != CKPT_VERSION {
      return None;
    }
    var buf := [version];
    buf := PackAddr(buf, unit, false, c.root);
    buf := PackAddr(buf, unit, false, c.alloc);
    buf := PackAddr(buf, unit, false, if skipAvail then NO_ADDR else c.avail);
    buf := PackAddr(buf, unit, false, c.discard);
    ghost var four := buf;
    buf := buf + Pack(c.fileSize);
    buf := buf + Pack(c.ckptSize);
    assert buf == four + Sizes(c);
    if c.objectid != 0 {
      buf := buf + [FILEID];
      buf := buf + Pack(c.objectid);
    }
    assert buf == four + Sizes(c) + ObjectBytes(c);
    return Some(buf);
  }

  /** A result is right for every cookie the buffer may be. */
  ghost predicate ReadsCookie(buf: bytes, size: nat, unit: nat, r: Option<(Cookie, nat)>)
    requires 0 < unit
  {
    forall c: Cookie | c.Valid() && buf == CookieBytes(unit, c) && size == |buf| ::
      r == Some((KeptCookie(unit, c), size))
  }

  lemma CookiesRead(buf: bytes, size: nat, unit: nat)
    requires 0 < unit
    ensures ReadsCookie(buf, size, unit, CookieAt(buf, size, unit))
  {
    hide CookieAt, CookieBytes, KeptCookie;
    forall c: Cookie | c.Valid() && buf == CookieBytes(unit, c) && size == |buf|
      ensures CookieAt(buf, size, unit) == Some((KeptCookie(unit, c), size))
    {
      CookieRoundTrip(unit, c);
    }
  }

  /** Read a checkpoint cookie of a given size: whatever cookie was packed is returned, as it was
      kept. */
  method UnpackCookie(buf: bytes, size: nat, unit: nat) returns (r: Option<(Cookie, nat)>)
    requires 0 < unit
    ensures r == CookieAt(buf, size, unit)
    ensures ReadsCookie(buf, size, unit, r)
  {
    hide AddrAt, Unpack, ReadsAddr, ReadsCookie;
    CookiesRead(buf, size, unit);
    if At(buf, 0) != CKPT_VERSION { return None; }
    var root := UnpackAddr(buf, 1, 0, unit);
    if root.None? { return None; }
    var alloc := UnpackAddr(buf, root.value.1, 0, unit);
    if alloc.None? { return None; }
    var avail := UnpackAddr(buf, alloc.value.1, 0, unit);
    if avail.None? { return None; }
    var discard := UnpackAddr(buf, avail.value.1, 0, unit);
    if discard.None? { return None; }
    var fileSize := Unpack(buf, discard.value.1);
    if fileSize.None? { return None; }
    var ckptSize := Unpack(buf, fileSize.value.1);
    if ckptSize.None? { return None; }
    var p, objectid := ckptSize.value.1, 0;
    if p != size {
      var flags := At(buf, p);
      p := p + 1;
      if Bit0(flags) {
        var x := Unpack(buf, p);
        if x.None? { return None; }
        objectid, p := x.value.0 % TWO32, x.value.1;
      }
    }
    return Some((Cookie(root.value.0, alloc.value.0, avail.value.0, discard.value.0,
                        fileSize.value.0, ckptSize.value.0, objectid), p));
  }

  /** Four addresses, one after the other. */
  function FourAt(buf: bytes, p: nat, unit: nat): Option<(Addr, Addr, Addr, Addr, nat)>
    requires 0 < unit
  {
    var root := AddrAt(buf, p, 0, unit);
    if root.None? then None else
    var alloc := AddrAt(buf, root.value.1, 0, unit);
    if alloc.None? then None else
    var avail := AddrAt(buf, alloc.value.1, 0, unit);
    if avail.None? then None else
    var discard := AddrAt(buf, avail.value.1, 0, unit);
    if discard.None? then None else
    Some((root.value.0, alloc.value.0, avail.value.0, discard.value.0, discard.value.1))
  }

  function ObjectAt(buf: bytes, p: nat, size: nat): Option<(nat, nat)> {
    if p == size then Some((0, p))
    else if !Bit0(At(buf, p)) then Some((0, p + 1))
    else
      var x := Unpack(buf, p + 1);
      if x.None? then None else Some((x.value.0 % TWO32, x.value.1))
  }

  function CookieAt(buf: bytes, size: nat, unit: nat): Option<(Cookie, nat)>
    requires 0 < unit
  {
    if At(buf, 0) != CKPT_VERSION then None else
    var four := FourAt(buf, 1, unit);
    if four.None? then None else
    var (root, alloc, avail, discard, p) := four.value;
    var f := Unpack(buf, p);
    if f.None? then None else
    var k := Unpack(buf, f.value.1);
    if k.None? then None else
    var i := ObjectAt(buf, k.value.1, size);
    if i.None? then None else
    Some((Cookie(root, alloc, avail, discard, f.value.0, k.value.0, i.value.0), i.value.1))
  }

  function KeptCookie(unit: nat, c: Cookie): Cookie
    requires 0 < unit
  {
    c.(root := Kept(unit, false, c.root), alloc := Kept(unit, false, c.alloc),
       avail := Kept(unit, false, c.avail), discard := Kept(unit, false, c.discard))
  }

  lemma FourRead(buf: bytes, p: nat, unit: nat, c: Cookie)
    requires 0 < unit && c.Valid() && Holds(buf, p, Four(unit, c))
    ensures var k := KeptCookie(unit, c);
            FourAt(buf, p, unit) == Some((k.root, k.alloc, k.avail, k.discard, p + |Four(unit, c)|))
  {
    hide AddrBytes, AddrAt, Holds, Kept;
    var a, b := AddrBytes(unit, false, c.root), AddrBytes(unit, false, c.alloc);
    var d, e := AddrBytes(unit, false, c.avail), AddrBytes(unit, false, c.discard);
    HoldsTwo(buf, p, a + b + d, e);
    HoldsTwo(buf, p, a + b, d);
    HoldsTwo(buf, p, a, b);
    PlainAddrReads(buf, p, unit, c.root);
    PlainAddrReads(buf, p + |a|, unit, c.alloc);
    PlainAddrReads(buf, p + |a| + |b|, unit, c.avail);
    PlainAddrReads(buf, p + |a| + |b| + |d|, unit, c.discard);
  }

  /** A packed cookie unpacks to what was packed, addresses as stored, and is consumed exactly. */
  lemma CookieRoundTrip(unit: nat, c: Cookie)
    requires 0 < unit && c.Valid()
    ensures var buf := CookieBytes(unit, c); CookieAt(buf, |buf|, unit) == Some((KeptCookie(unit, c), |buf|))
  {
    hide AddrBytes, Holds, FourAt, KeptCookie, Pack, Unpack, Sizes, ObjectBytes, ObjectAt, CookieBytes;
    var buf := CookieBytes(unit, c);
    var p := 1 + |Four(unit, c)|;
    CookieParts(buf, unit, c);
    FourRead(buf, 1, unit, c);
    SizesRead(buf, p, c);
    ObjectReads(buf, p + |Sizes(c)|, c);
    KeptRest(unit, c);
  }

  function Four(unit: nat, c: Cookie): bytes
    requires 0 < unit && c.Valid()
  {
    AddrBytes(unit, false, c.root) + AddrBytes(unit, false, c.alloc)
    + AddrBytes(unit, false, c.avail) + AddrBytes(unit, false, c.discard)
  }

  lemma CookieParts(buf: bytes, unit: nat, c: Cookie)
    requires 0 < unit && c.Valid() && buf == CookieBytes(unit, c)
    ensures At(buf, 0) == CKPT_VERSION
    ensures Holds(buf, 1, Four(unit, c))
    ensures Holds(buf, 1 + |Four(unit, c)|, Sizes(c))
    ensures Holds(buf, 1 + |Four(unit, c)| + |Sizes(c)|, ObjectBytes(c))
    ensures |buf| == 1 + |Four(unit, c)| + |Sizes(c)| + |ObjectBytes(c)|
  {
    hide AddrBytes, Pack, Holds;
    var four, more := Four(unit, c), ObjectBytes(c);
    assert buf == [CKPT_VERSION] + four + Sizes(c) + more;
    hide Sizes, ObjectBytes, CookieBytes, Four;
    HoldsSelf(buf);
    HoldsTwo(buf, 0, [CKPT_VERSION] + four + Sizes(c), more);
    HoldsTwo(buf, 0, [CKPT_VERSION] + four, Sizes(c));
    HoldsTwo(buf, 0, [CKPT_VERSION], four);
    HoldsOne(buf, 0, CKPT_VERSION);
  }

  lemma SizesRead(buf: bytes, p: nat, c: Cookie)
    requires c.Valid() && Holds(buf, p, Sizes(c))
    ensures Unpack(buf, p) == Some((c.fileSize, p + |Pack(c.fileSize)|))
    ensures Unpack(buf, p + |Pack(c.fileSize)|) == Some((c.ckptSize, p + |Sizes(c)|))
  {
    hide Pack, Unpack, Holds;
    HoldsTwo(buf, p, Pack(c.fileSize), Pack(c.ckptSize));
    RoundTrip(buf, p, c.fileSize);
    RoundTrip(buf, p + |Pack(c.fileSize)|, c.ckptSize);
  }

  lemma ObjectReads(buf: bytes, p: nat, c: Cookie)
    requires c.Valid() && Holds(buf, p, ObjectBytes(c)) && |buf| == p + |ObjectBytes(c)|
    ensures ObjectAt(buf, p, |buf|) == Some((c.objectid, |buf|))
  {
    hide Pack, Unpack, Holds;
    if c.objectid != 0 {
      HoldsTwo(buf, p, [FILEID], Pack(c.objectid));
      HoldsOne(buf, p, FILEID);
      RoundTrip(buf, p + 1, c.objectid);
    }
  }

  lemma HoldsSelf(buf: bytes)
    ensures Holds(buf, 0, buf)
  {
  }

  lemma KeptRest(unit: nat, c: Cookie)
    requires 0 < unit
    ensures var k := KeptCookie(unit, c);
            k == Cookie(k.root, k.alloc, k.avail, k.discard, c.fileSize, c.ckptSize, c.objectid)
  {
  }

  // ---- The buffer is large enough ----

  const CHECKPOINT_BUFFER := 1 + 14 * INTPACK64_MAXSIZE

  lemma AddrSize(unit: nat, a: Addr)
    requires 0 < unit && a.Valid()
    ensures |AddrBytes(unit, false, a)| <= 19
  {
    hide Pack;
    var (o, s, c, i) := StoredAs(unit, a);
    PackSize(o);
    PackSize(s);
    PackSize(c);
  }

  /** No checkpoint cookie outgrows the buffer reserved for it, object ID included. */
  lemma CookieFits(unit: nat, c: Cookie)
    requires 0 < unit && c.Valid()
    ensures |CookieBytes(unit, c)| <= CHECKPOINT_BUFFER
  {
    hide Pack, AddrBytes;
    AddrSize(unit, c.root);
    AddrSize(unit, c.alloc);
    AddrSize(unit, c.avail);
    AddrSize(unit, c.discard);
    PackSize(c.fileSize);
    PackSize(c.ckptSize);
    PackSize(c.objectid);
  }

  // ---- Repairing an incomplete cookie ----

  /** A result is right for every checkpoint whose incomplete cookie the buffer may be. */
  ghost predicate Completes(unit: nat, buf: bytes, avail: Addr, fileSize: nat, r: Option<bytes>)
    requires 0 < unit
  {
    forall c: Cookie, stale: nat |
      && c.Valid() && stale < TWO64 && Sizable(unit, c.root) && Sizable(unit, c.alloc) && Sizable(unit, c.discard)
      && buf == CookieBytes(unit, c.(avail := NO_ADDR, fileSize := stale))
      && avail == c.avail && fileSize == c.fileSize ::
      r == Some(CookieBytes(unit, c))
  }

  lemma AllComplete(unit: nat, buf: bytes, avail: Addr, fileSize: nat)
    requires 0 < unit && avail.Valid() && fileSize < TWO64
    ensures Completes(unit, buf, avail, fileSize, Repaired(unit, buf, avail, fileSize))
  {
    hide CookieBytes, Repaired;
    forall c: Cookie, stale: nat |
      && c.Valid() && stale < TWO64 && Sizable(unit, c.root) && Sizable(unit, c.alloc) && Sizable(unit, c.discard)
      && buf == CookieBytes(unit, c.(avail := NO_ADDR, fileSize := stale)) && avail == c.avail && fileSize == c.fileSize
      ensures Repaired(unit, buf, avail, fileSize) == Some(CookieBytes(unit, c))
    {
      RepairIsComplete(unit, c, stale);
    }
  }

  /** Complete a cookie found in a file: put in the avail list's address and the final file size. From
      an incomplete cookie, and where its avail list is, comes the complete one. */
  method Repair(unit: nat, buf: bytes, avail: Addr, fileSize: nat) returns (r: Option<bytes>)
    requires 0 < unit && avail.Valid() && fileSize < TWO64
    ensures r == Repaired(unit, buf, avail, fileSize)
    ensures Completes(unit, buf, avail, fileSize, r)
  {
    hide CookieAt, CookieBytes, Completes, ReadsCookie;
    AllComplete(unit, buf, avail, fileSize);
    var c := UnpackCookie(buf, |buf|, unit);
    if c.None? {
      return None;
    }
    CookieAtValid(buf, |buf|, unit);
    r := PackCookie(unit, CKPT_VERSION, c.value.0.(avail := avail, fileSize := fileSize), false);
  }

  lemma CookieAtValid(buf: bytes, size: nat, unit: nat)
    requires 0 < unit
    ensures CookieAt(buf, size, unit).Some? ==> CookieAt(buf, size, unit).value.0.Valid()
  {
    hide AddrAt, Unpack, At;
    var four := FourAt(buf, 1, unit);
    if four.Some? {
      FourValid(buf, 1, unit);
    }
  }

  lemma FourValid(buf: bytes, p: nat, unit: nat)
    requires 0 < unit && FourAt(buf, p, unit).Some?
    ensures var (a, b, c, d, _) := FourAt(buf, p, unit).value; a.Valid() && b.Valid() && c.Valid() && d.Valid()
  {
    forall q: nat ensures AddrAt(buf, q, 0, unit).Some? ==> AddrAt(buf, q, 0, unit).value.0.Valid() {
      if AddrAt(buf, q, 0, unit).Some? { AddrAtValid(buf, q, unit); }
    }
    hide AddrAt;
  }

  lemma AddrAtValid(buf: bytes, p: nat, unit: nat)
    requires 0 < unit && AddrAt(buf, p, 0, unit).Some?
    ensures AddrAt(buf, p, 0, unit).value.0.Valid()
  {
  }

  function Repaired(unit: nat, buf: bytes, avail: Addr, fileSize: nat): Option<bytes>
    requires 0 < unit && avail.Valid() && fileSize < TWO64
  {
    var c := CookieAt(buf, |buf|, unit);
    CookieAtValid(buf, |buf|, unit);
    if c.None? then None
    else Some(CookieBytes(unit, c.value.0.(avail := avail, fileSize := fileSize)))
  }

  /** An address as the block manager makes them: none, or at least one unit long. */
  predicate Sizable(unit: nat, a: Addr) {
    a.size == 0 || unit <= a.size
  }

  lemma KeptBytes(unit: nat, a: Addr)
    requires 0 < unit && a.Valid() && Sizable(unit, a)
    ensures Kept(unit, false, a).Valid()
    ensures AddrBytes(unit, false, Kept(unit, false, a)) == AddrBytes(unit, false, a)
  {
    hide Pack;
    var k := Kept(unit, false, a);
    if a.size == 0 {
      assert a.size / unit == 0;
    } else {
      DivMod(a.size, unit);
      DivMod(a.offset, unit);
      DivMul(a.size / unit, unit);
      DivMul(a.offset / unit, unit);
      Multiple(a.size / unit, unit);
    }
  }

  /** Completing the incomplete cookie that was written into the avail list's own block gives, byte
      for byte, the cookie the checkpoint returned: whatever file size the incomplete one carried. */
  lemma RepairIsComplete(unit: nat, c: Cookie, stale: nat)
    requires 0 < unit && c.Valid() && stale < TWO64
    requires Sizable(unit, c.root) && Sizable(unit, c.alloc) && Sizable(unit, c.discard)
    ensures Repaired(unit, CookieBytes(unit, c.(avail := NO_ADDR, fileSize := stale)), c.avail, c.fileSize)
         == Some(CookieBytes(unit, c))
  {
    hide AddrBytes, Kept, CookieAt;
    var incomplete := c.(avail := NO_ADDR, fileSize := stale);
    CookieRoundTrip(unit, incomplete);
    KeptBytes(unit, c.root);
    KeptBytes(unit, c.alloc);
    KeptBytes(unit, c.discard);
  }
}
