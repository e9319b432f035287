/** The variable-length encoding of unsigned integers used by every packed format of the block
manager: one byte below 2^6, two bytes below 2^13 + 2^6, and otherwise a length and that many bytes,
most significant first. */
module IntPack {
  import opened Extents

  newtype byte = x: int | 0 <= x < 256

  type bytes = seq<byte>

  const TWO64: int := 0x1_0000_0000_0000_0000

  const ONE_BYTE_MAX := 63
  const TWO_BYTE_MAX := 8255
  const INTPACK64_MAXSIZE := 9

  /** The significant bytes of a value: eight less its leading zero bytes. */
  function ByteLen(x: nat): (n: nat)
    ensures x == 0 <==> n == 0
  {
    if x == 0 then 0 else 1 + ByteLen(x / 256)
  }

  /** The low n bytes of a value, most significant first. */
  function BigEndian(x: nat, n: nat): (r: bytes)
    ensures |r| == n
  {
    if n == 0 then [] else BigEndian(x / 256, n - 1) + [(x % 256) as byte]
  }

  function Pack(x: nat): (r: bytes)
    requires x < TWO64
    ensures 0 < |r|
  {
    if x <= ONE_BYTE_MAX then
      [(0x80 + x) as byte]
    else if x <= TWO_BYTE_MAX then
      var y := x - (ONE_BYTE_MAX + 1);
      [(0xc0 + y / 256) as byte, (y % 256) as byte]
    else if x == TWO_BYTE_MAX + 1 then
      [0xe1, 0]
    else
      var y := x - (TWO_BYTE_MAX + 1);
      ByteLenBound(y, 8);
      [(0xe0 + ByteLen(y)) as byte] + BigEndian(y, ByteLen(y))
  }

  /** The byte at a position; positions past the end read as zero. */
  function At(s: bytes, p: nat): byte {
    if p < |s| then s[p] else 0
  }

  /** Accumulate n bytes into a 64-bit value. */
  function Shift(s: bytes, p: nat, n: nat, x: nat): (r: nat)
    requires x < TWO64
    ensures r < TWO64
    decreases n
  {
    if n == 0 then x else Shift(s, p + 1, n - 1, (x * 256 + At(s, p) as int) % TWO64)
  }

  /** The value at a position and the position after it; None if the byte there starts no value. */
  function Unpack(s: bytes, p: nat): (r: Option<(nat, nat)>)
    ensures r.Some? ==> r.value.0 < TWO64 && p < r.value.1 && p < |s|
  {
    var b := At(s, p) as int;
    if 0x80 <= b < 0xc0 then
      Some((b - 0x80, p + 1))
    else if 0xc0 <= b < 0xe0 then
      Some(((b - 0xc0) * 256 + At(s, p + 1) as int + (ONE_BYTE_MAX + 1), p + 2))
    else if 0xe0 <= b < 0xf0 then
      Some(((Shift(s, p + 1, b - 0xe0, 0) + (TWO_BYTE_MAX + 1)) % TWO64, p + 1 + (b - 0xe0)))
    else
      None
  }

  // ---- Powers of 256 ----

  function Pow(n: nat): (r: nat)
    ensures r > 0
  {
    if n == 0 then 1 else 256 * Pow(n - 1)
  }

  lemma {:induction false} ByteLenBound(x: nat, n: nat)
    requires x < Pow(n)
    ensures ByteLen(x) <= n
  {
    if x > 0 {
      assert x / 256 < Pow(n - 1);
      ByteLenBound(x / 256, n - 1);
    }
  }

  lemma Pow8()
    ensures Pow(8) == TWO64
  {
  }

  // ---- Packing round-trips ----

  /** A buffer holds some bytes at a position. */
  predicate Holds(s: bytes, p: nat, t: bytes) {
    p + |t| <= |s| && s[p..p + |t|] == t
  }

  lemma HoldsTwo(s: bytes, p: nat, t: bytes, u: bytes)
    requires Holds(s, p, t + u)
    ensures Holds(s, p, t) && Holds(s, p + |t|, u)
  {
    assert s[p..p + |t|] == (t + u)[..|t|];
    assert s[p + |t|..p + |t| + |u|] == (t + u)[|t|..];
  }

  lemma {:induction false} ByteLenFits(x: nat)
    ensures x < Pow(ByteLen(x))
  {
    if x > 0 {
      ByteLenFits(x / 256);
    }
  }

  lemma {:induction false} ShiftLast(s: bytes, p: nat, n: nat, x: nat)
    requires x < TWO64 && n > 0
    ensures Shift(s, p, n, x) == (Shift(s, p, n - 1, x) * 256 + At(s, p + n - 1) as int) % TWO64
    decreases n
  {
    if n > 1 {
      ShiftLast(s, p + 1, n - 1, (x * 256 + At(s, p) as int) % TWO64);
    }
  }

  lemma {:induction false} ShiftReads(s: bytes, p: nat, n: nat, x: nat)
    requires x < Pow(n) && x < TWO64 && Holds(s, p, BigEndian(x, n))
    ensures Shift(s, p, n, 0) == x
  {
    if n > 0 {
      HoldsTwo(s, p, BigEndian(x / 256, n - 1), [(x % 256) as byte]);
      ShiftReads(s, p, n - 1, x / 256);
      ShiftLast(s, p, n, 0);
      assert s[p + n - 1] == s[p + n - 1..p + n][0];
      assert x / 256 * 256 + x % 256 == x;
    }
  }

  /** Every 64-bit value is read back, whatever follows it. */
  lemma RoundTrip(s: bytes, p: nat, x: nat)
    requires x < TWO64 && Holds(s, p, Pack(x))
    ensures Unpack(s, p) == Some((x, p + |Pack(x)|))
  {
    if x <= TWO_BYTE_MAX + 1 {
      ShortTrip(s, p, x);
    } else {
      LongTrip(s, p, x);
    }
  }

  lemma ShortTrip(s: bytes, p: nat, x: nat)
    requires x <= TWO_BYTE_MAX + 1 && Holds(s, p, Pack(x))
    ensures Unpack(s, p) == Some((x, p + |Pack(x)|))
  {
    var t := Pack(x);
    assert s[p] == s[p..p + |t|][0];
    if x > ONE_BYTE_MAX {
      assert s[p + 1] == s[p..p + |t|][1];
      if x == TWO_BYTE_MAX + 1 {
        assert Shift(s, p + 1, 1, 0) == Shift(s, p + 2, 0, 0);
      }
    }
  }

  lemma LongTrip(s: bytes, p: nat, x: nat)
    requires TWO_BYTE_MAX + 1 < x < TWO64 && Holds(s, p, Pack(x))
    ensures Unpack(s, p) == Some((x, p + |Pack(x)|))
  {
    hide BigEndian, ByteLen, Holds, Shift, Pack, Unpack, At;
    var y := x - (TWO_BYTE_MAX + 1);
    var n := ByteLen(y);
    ByteLenFits(y);
    ByteLenBound8(y);
    var b := (0xe0 + n) as byte;
    PackLong(x);
    HoldsTwo(s, p, [b], BigEndian(y, n));
    FirstHeld(s, p, b);
    ShiftReads(s, p + 1, n, y);
    UnpackLong(s, p, n);
  }

  lemma PackLong(x: nat)
    requires TWO_BYTE_MAX + 1 < x < TWO64
    ensures var y := x - (TWO_BYTE_MAX + 1);
            var n := ByteLen(y);
            n <= 8 && Pack(x) == [(0xe0 + n) as byte] + BigEndian(y, n) && |BigEndian(y, n)| == n
  {
    ByteLenBound8(x - (TWO_BYTE_MAX + 1));
    hide BigEndian, ByteLen;
  }

  lemma UnpackLong(s: bytes, p: nat, n: nat)
    requires n <= 8 && At(s, p) as int == 0xe0 + n
    ensures Unpack(s, p) == Some(((Shift(s, p + 1, n, 0) + (TWO_BYTE_MAX + 1)) % TWO64, p + 1 + n))
  {
    hide Shift;
  }

  lemma FirstHeld(s: bytes, p: nat, b: byte)
    requires Holds(s, p, [b])
    ensures At(s, p) == b
  {
    assert s[p] == s[p..p + 1][0];
  }

  lemma ByteLenBound8(x: nat)
    requires x < TWO64
    ensures ByteLen(x) <= 8
  {
    Pow8();
    ByteLenBound(x, 8);
  }

  lemma PackSize(x: nat)
    requires x < TWO64
    ensures 1 <= |Pack(x)| <= INTPACK64_MAXSIZE
    ensures x < 0x1_0000_0000 ==> |Pack(x)| <= 5
  {
    if x > TWO_BYTE_MAX + 1 {
      var y := x - (TWO_BYTE_MAX + 1);
      ByteLenBound8(y);
      if x < 0x1_0000_0000 {
        assert Pow(4) == 0x1_0000_0000;
        ByteLenBound(y, 4);
      }
    }
  }

  // ---- Packing is as short as it can be ----

  /** Every one- or two-byte code below the long ones is the code of a value: none is left unused. */
  lemma ShortCodes(s: bytes, p: nat)
    requires p < |s| && 0x80 <= s[p] < 0xe0
    requires s[p] >= 0xc0 ==> p + 1 < |s|
    ensures var q := p + if s[p] < 0xc0 then 1 else 2;
            exists x :: 0 <= x < TWO64 && Pack(x) == s[p..q] && Unpack(s, p) == Some((x, q))
  {
    var b := s[p] as int;
    if b < 0xc0 {
      assert Pack(b - 0x80) == s[p..p + 1];
    } else {
      var y := (b - 0xc0) * 256 + s[p + 1] as int;
      assert y / 256 == b - 0xc0 && y % 256 == s[p + 1] as int;
      assert Pack(y + 64) == s[p..p + 2];
    }
  }

  lemma {:induction false} ByteLenIs(x: nat, n: nat)
    ensures ByteLen(x) <= n <==> x < Pow(n)
  {
    if x > 0 && n > 0 {
      ByteLenIs(x / 256, n - 1);
    }
  }

  /** The lengths: a byte for 2^6 values, two for the next 2^13 + 2^8, and each byte more for 256 times as
      many past the 2^6 + 2^13 short ones. */
  lemma PackLength(x: nat, n: nat)
    requires x < TWO64
    ensures |Pack(x)| == 1 <==> x < 0x40
    ensures 1 <= n ==> (|Pack(x)| <= 1 + n <==> x < 0x40 + 0x2000 + Pow(n))
  {
    if x > TWO_BYTE_MAX + 1 {
      PackLong(x);
      ByteLenIs(x - (TWO_BYTE_MAX + 1), n);
    }
  }

  // ---- Packing preserves order ----

  /** Lexicographic order on byte strings. */
  predicate Less(s: bytes, t: bytes) {
    t != [] && (s == [] || s[0] < t[0] || (s[0] == t[0] && Less(s[1..], t[1..])))
  }

  lemma {:induction false} LessAfter(p: bytes, s: bytes, t: bytes)
    requires Less(s, t)
    ensures Less(p + s, p + t)
  {
    if p == [] {
      assert p + s == s && p + t == t;
    } else {
      assert (p + s)[1..] == p[1..] + s && (p + t)[1..] == p[1..] + t;
      LessAfter(p[1..], s, t);
    }
  }

  lemma {:induction false} LessBefore(s: bytes, t: bytes, u: bytes, v: bytes)
    requires |s| == |t| && Less(s, t)
    ensures Less(s + u, t + v)
  {
    assert (s + u)[0] == s[0] && (t + v)[0] == t[0];
    assert (s + u)[1..] == s[1..] + u && (t + v)[1..] == t[1..] + v;
    if s[0] == t[0] {
      LessBefore(s[1..], t[1..], u, v);
    }
  }

  lemma {:induction false} BigEndianOrder(x: nat, y: nat, n: nat)
    requires x < y < Pow(n)
    ensures Less(BigEndian(x, n), BigEndian(y, n))
  {
    var s, t := BigEndian(x / 256, n - 1), BigEndian(y / 256, n - 1);
    var u, v := [(x % 256) as byte], [(y % 256) as byte];
    if x / 256 < y / 256 {
      BigEndianOrder(x / 256, y / 256, n - 1);
      LessBefore(s, t, u, v);
    } else {
      assert Less(u, v);
      LessAfter(s, u, v);
    }
  }

  lemma {:induction false} ByteLenOrder(x: nat, y: nat)
    requires x <= y
    ensures ByteLen(x) <= ByteLen(y)
  {
    if x > 0 {
      ByteLenOrder(x / 256, y / 256);
    }
  }

  /** Packed values sort as the values do. */
  lemma OrderPreserved(x: nat, y: nat)
    requires x < y < TWO64
    ensures Less(Pack(x), Pack(y))
  {
    if y <= TWO_BYTE_MAX + 1 {
      ShortOrder(x, y);
    } else if x > TWO_BYTE_MAX + 1 {
      LongOrder(x, y);
    } else {
      MixedOrder(x, y);
    }
  }

  lemma ShortOrder(x: nat, y: nat)
    requires x < y <= TWO_BYTE_MAX + 1
    ensures Less(Pack(x), Pack(y))
  {
    if x > ONE_BYTE_MAX {
      var s, t := Pack(x), Pack(y);
      assert Less(s[1..], t[1..]) || s[0] < t[0];
    }
  }

  lemma LongOrder(x: nat, y: nat)
    requires TWO_BYTE_MAX + 1 < x < y < TWO64
    ensures Less(Pack(x), Pack(y))
  {
    hide Pack, BigEndian, ByteLen;
    var a, b := x - (TWO_BYTE_MAX + 1), y - (TWO_BYTE_MAX + 1);
    PackLong(x);
    PackLong(y);
    ByteLenOrder(a, b);
    ByteLenFits(b);
    if ByteLen(a) == ByteLen(b) {
      var n := ByteLen(a);
      BigEndianOrder(a, b, n);
      LessAfter([(0xe0 + n) as byte], BigEndian(a, n), BigEndian(b, n));
    }
  }

  lemma MixedOrder(x: nat, y: nat)
    requires x <= TWO_BYTE_MAX + 1 < y < TWO64
    ensures Less(Pack(x), Pack(y))
  {
    var b := y - (TWO_BYTE_MAX + 1);
    var m := ByteLen(b);
    ByteLenBound8(b);
    ByteLenFits(b);
    if x == TWO_BYTE_MAX + 1 && m == 1 {
      var s, t := Pack(x), Pack(y);
      assert b < 256 by { assert Pow(1) == 256; }
      assert BigEndian(b, 1) == [] + [b as byte];
      assert t == [0xe1, b as byte];
      assert Less(s[1..], t[1..]);
    }
  }
}
