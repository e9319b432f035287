/** The bitmaps of blocks modified since an incremental backup's starting point. */
module BackupBitmap {
  import opened Arithmetic
  import opened Extents
  import opened Layout

  const LIST_MIN := 128              // the bits a bitmap starts with
  const BITS_LIMIT := TWO32 - 64     // the largest multiple of 64 that 32 bits hold

  // ---- Bits ----

  predicate Bit(b: bv8, k: nat)
    requires k < 8
  {
    b & (1 << k) != 0
  }

  predicate Test(bits: seq<bv8>, i: nat)
    requires i < 8 * |bits|
  {
    Bit(bits[i / 8], i % 8)
  }

  lemma FromBit(s: nat, k: nat)
    requires s < 8 && k < 8
    ensures Bit(0xff << s, k) <==> s <= k
  {
  }

  lemma ToBit(t: nat, k: nat)
    requires t < 8 && k < 8
    ensures Bit(0xff >> (7 - t), k) <==> k <= t
  {
  }

  lemma OneBit(a: bv8, b: bv8, w: bv8)
    requires w & (w - 1) == 0
    ensures (a | b) & w != 0 <==> a & w != 0 || b & w != 0
    ensures (a & b) & w != 0 <==> a & w != 0 && b & w != 0
  {
  }

  lemma SingleBit(k: nat)
    requires k < 8
    ensures (1 as bv8 << k) & ((1 as bv8 << k) - 1) == 0
  {
  }

  lemma BothBits(a: bv8, b: bv8, k: nat)
    requires k < 8
    ensures Bit(a | b, k) <==> Bit(a, k) || Bit(b, k)
    ensures Bit(a & b, k) <==> Bit(a, k) && Bit(b, k)
  {
    var w: bv8 := 1 << k;
    SingleBit(k);
    OneBit(a, b, w);
  }

  /** The bits start to stop of one byte of the bitmap, or-ed into it. */
  ghost predicate Mask(m: bv8, j: nat, start: nat, stop: nat) {
    forall k: nat | k < 8 :: Bit(m, k) <==> start <= 8 * j + k <= stop
  }

  lemma MaskOne(start: nat, stop: nat)
    requires start <= stop && start / 8 == stop / 8
    ensures Mask((0xff << (start % 8)) & (0xff >> (7 - stop % 8)), start / 8, start, stop)
  {
    var m: bv8 := (0xff << (start % 8)) & (0xff >> (7 - stop % 8));
    forall k: nat | k < 8 ensures Bit(m, k) <==> start <= 8 * (start / 8) + k <= stop {
      FromBit(start % 8, k);
      ToBit(stop % 8, k);
      BothBits(0xff << (start % 8), 0xff >> (7 - stop % 8), k);
    }
  }

  lemma MaskFirst(start: nat, stop: nat)
    requires start / 8 < stop / 8
    ensures Mask(0xff << (start % 8), start / 8, start, stop)
  {
  }

  lemma MaskLast(start: nat, stop: nat)
    requires start / 8 < stop / 8
    ensures Mask(0xff >> (7 - stop % 8), stop / 8, start, stop)
  {
  }

  lemma MaskMiddle(j: nat, start: nat, stop: nat)
    requires start / 8 < j < stop / 8
    ensures Mask(0xff, j, start, stop)
  {
  }

  /** The bits start to stop are added in the bytes before j. */
  ghost predicate AddedBelow(was: seq<bv8>, bits: seq<bv8>, j: nat, start: nat, stop: nat) {
    && |bits| == |was|
    && forall i: nat | i < 8 * |was| :: Test(bits, i) <==> Test(was, i) || (start <= i <= stop && i / 8 < j)
  }

  lemma NoneAdded(bits: seq<bv8>, start: nat, stop: nat)
    ensures AddedBelow(bits, bits, start / 8, start, stop)
  {
  }

  lemma AddByte(was: seq<bv8>, bits: seq<bv8>, j: nat, m: bv8, start: nat, stop: nat)
    requires AddedBelow(was, bits, j, start, stop) && j < |bits| && Mask(m, j, start, stop)
    ensures AddedBelow(was, bits[j := bits[j] | m], j + 1, start, stop)
  {
    hide Bit;
    var bits' := bits[j := bits[j] | m];
    forall i: nat | i < 8 * |was|
      ensures Test(bits', i) <==> Test(was, i) || (start <= i <= stop && i / 8 < j + 1)
    {
      BothBits(bits[j], m, i % 8);
      assert i == 8 * (i / 8) + i % 8;
    }
  }

  // ---- Growth ----

  /** The bytes of the file as granules. */
  ghost function Granules(bytes: set<int>, granularity: nat): set<int>
    requires 0 < granularity
  {
    set x | x in bytes :: x / granularity
  }

  lemma GranulesAdd(a: set<int>, b: set<int>, granularity: nat)
    requires 0 < granularity
    ensures Granules(a + b, granularity) == Granules(a, granularity) + Granules(b, granularity)
  {
  }

  /** A byte range touches the granules from that of its first byte to that of its last. */
  lemma GranulesRange(off: nat, len: nat, granularity: nat)
    requires 0 < granularity && 0 < len
    ensures Granules(Range(off, off + len), granularity)
         == Range(off / granularity, (off + len - 1) / granularity + 1)
  {
    RangeOver(off, off + len - 1, granularity);
  }

  lemma RangeOver(first: nat, last: nat, granularity: nat)
    requires 0 < granularity && first <= last
    ensures Granules(Range(first, last + 1), granularity)
         == Range(Over(first, granularity), Over(last, granularity) + 1)
  {
    GranulesOver(first, last + 1, granularity);
    hide Over, Granules;
    var lo, hi, all := Over(first, granularity), Over(last, granularity), Granules(Range(first, last + 1), granularity);
    forall i | lo <= i <= hi ensures i in all {
      var x := ByteOf(first, last, granularity, i);
    }
    forall i | i in all ensures lo <= i <= hi {
      var x: nat :| first <= x <= last && i == Over(x, granularity);
      OverMono(first, x, granularity);
      OverMono(x, last, granularity);
    }
  }

  lemma GranulesOver(first: nat, end: nat, granularity: nat)
    requires 0 < granularity
    ensures forall i :: i in Granules(Range(first, end), granularity) <==>
              exists x: nat :: first <= x < end && i == Over(x, granularity)
  {
    forall i ensures i in Granules(Range(first, end), granularity) <==>
                       exists x: nat :: first <= x < end && i == Over(x, granularity)
    {
      if i in Granules(Range(first, end), granularity) {
        var x :| x in Range(first, end) && i == x / granularity;
        assert i == Over(x, granularity);
      }
      if x: nat :| first <= x < end && i == Over(x, granularity) {
        assert x in Range(first, end);
      }
    }
  }

  lemma ByteOf(first: nat, last: nat, granularity: nat, i: nat) returns (x: nat)
    requires 0 < granularity && first <= last && Over(first, granularity) <= i <= Over(last, granularity)
    ensures first <= x <= last && Over(x, granularity) == i
  {
    hide Over, Times;
    if i == Over(first, granularity) {
      x := first;
    } else {
      x := Times(i, granularity);
      OverTimes(i, granularity);
      OverBounds(first, granularity);
      OverBounds(last, granularity);
      TimesMore(Over(first, granularity), i, granularity);
      TimesMore(i, Over(last, granularity), granularity);
    }
  }

  function Max(a: nat, b: nat): nat {
    if a < b then b else a
  }

  /** The bits wanted for a last bit: a multiple of 64, in 32-bit arithmetic. */
  function Wanted(endBit: nat): (r: nat)
    ensures LIST_MIN <= r <= BITS_LIMIT && r % 64 == 0
  {
    Max(((endBit % TWO32 / 64 + 1) * 64) % TWO32, LIST_MIN)
  }

  /** The bits of a bitmap once it has been extended for a last bit. */
  function Grown(nbits: nat, endBit: nat): nat {
    if (Wanted(endBit) + 7) / 8 > (nbits + 7) / 8 then Wanted(endBit) else nbits
  }

  ghost predicate Sized(nbits: nat) {
    nbits % 64 == 0 && nbits <= BITS_LIMIT
  }

  /** Growing a bitmap makes room for the last bit exactly if that bit, rounded up to a multiple of
      64, fits in 32 bits; it never shrinks and stays a multiple of 64. */
  lemma GrownFits(nbits: nat, endBit: nat)
    requires Sized(nbits)
    ensures Sized(Grown(nbits, endBit)) && nbits <= Grown(nbits, endBit)
    ensures endBit < Grown(nbits, endBit) <==> endBit < BITS_LIMIT
  {
    if endBit < BITS_LIMIT {
      assert endBit % TWO32 == endBit;
    }
  }

  lemma WholeBytes(n: nat)
    requires n % 64 == 0
    ensures 8 * ((n + 7) / 8) == n
  {
    var q := n / 64;
    assert n + 7 == 8 * (8 * q) + 7;
  }

  /** The bit the check against the 32-bit maximum still admits, and no room is made for. */
  lemma NoRoom()
    ensures BITS_LIMIT < TWO32 - 1 && Grown(0, BITS_LIMIT) == LIST_MIN
  {
  }

  function EndBit(off: nat, len: nat, granularity: nat): nat
    requires 0 < granularity && 0 < len
  {
    (off + len - 1) / granularity
  }

  // ---- The bitmap of one incremental backup ----

  class BlockMods {
    const granularity: nat
    const valid: bool              // the slot holds a backup's bitmap
    var bitstring: seq<bv8>
    var nbits: nat

    constructor (granularity: nat, valid: bool)
      requires 0 < granularity
      ensures Valid() && Marked() == {} && this.granularity == granularity && this.valid == valid
    {
      this.granularity := granularity;
      this.valid := valid;
      bitstring := [];
      nbits := 0;
    }

    ghost predicate Valid()
      reads this
    {
      0 < granularity && Sized(nbits) && 8 * |bitstring| == nbits
    }

    /** The granules whose bits are set. */
    ghost function Marked(): set<int>
      requires Valid()
      reads this
    {
      MarkedIn(bitstring)
    }

    /** Or the bits start to stop into the byte they are in. */
    method SetByte(start: nat, stop: nat)
      requires Valid() && start <= stop < nbits && start / 8 == stop / 8
      modifies this`bitstring
      ensures Valid() && AddedBelow(old(bitstring), bitstring, stop / 8 + 1, start, stop)
    {
      hide Bit, Test, AddedBelow, Mask;
      var j := start / 8;
      NoneAdded(bitstring, start, stop);
      MaskOne(start, stop);
      var m: bv8 := (0xff << (start % 8)) & (0xff >> (7 - stop % 8));
      AddByte(bitstring, bitstring, j, m, start, stop);
      bitstring := bitstring[j := bitstring[j] | m];
    }

    /** Or the bits start to stop into several bytes: the first, those between and the last. */
    method SetBytes(start: nat, stop: nat)
      requires Valid() && start <= stop < nbits && start / 8 < stop / 8
      modifies this`bitstring
      ensures Valid() && AddedBelow(old(bitstring), bitstring, stop / 8 + 1, start, stop)
    {
      hide Bit, Test, AddedBelow;
      var j, last := start / 8, stop / 8;
      NoneAdded(bitstring, start, stop);
      MaskFirst(start, stop);
      AddByte(bitstring, bitstring, j, 0xff << (start % 8), start, stop);
      bitstring := bitstring[j := bitstring[j] | (0xff << (start % 8))];
      j := j + 1;
      while j < last
        invariant start / 8 < j <= last && Valid() && AddedBelow(old(bitstring), bitstring, j, start, stop)
      {
        MaskMiddle(j, start, stop);
        AddByte(old(bitstring), bitstring, j, 0xff, start, stop);
        assert bitstring[j] | 0xff == 0xff;
        bitstring := bitstring[j := 0xff];
        j := j + 1;
      }
      MaskLast(start, stop);
      AddByte(old(bitstring), bitstring, last, 0xff >> (7 - stop % 8), start, stop);
      bitstring := bitstring[last := bitstring[last] | (0xff >> (7 - stop % 8))];
    }

    /** Set the bits start to stop. */
    method SetBits(start: nat, stop: nat)
      requires Valid() && start <= stop < nbits
      modifies this`bitstring
      ensures Valid() && Marked() == old(Marked()) + Range(start, stop + 1)
    {
      if start / 8 == stop / 8 {
        SetByte(start, stop);
      } else {
        SetBytes(start, stop);
      }
      AddedAll(old(bitstring), bitstring, start, stop);
    }

    /** Record a range of the file: exactly the granules it touches are marked besides those that
        were. If there is no room for the last bit an assertion fails: a diagnostic build stops, the model
        sets nothing. */
    method AddEntry(off: nat, len: nat) returns (ok: bool)
      requires Valid() && 0 < len
      modifies this`bitstring, this`nbits
      ensures Valid() && old(nbits) <= nbits
      ensures ok <==> EndBit(off, len, granularity) < BITS_LIMIT
      ensures Marked() == old(Marked()) + if ok then Granules(Range(off, off + len), granularity) else {}
    {
      hide Test, Range, Granules, Wanted, MarkedIn;
      var startBit := off / granularity;
      var endBit := (off + len - 1) / granularity;
      GrownFits(nbits, endBit);
      DivMono(off, off + len - 1, granularity);
      GranulesRange(off, len, granularity);
      Grow(endBit);
      ok := endBit < nbits;
      if ok {
        SetBits(startBit, endBit);
      }
    }

    /** Extend the bitmap for a last bit: the new bits are clear, the others as they were. */
    method Grow(endBit: nat)
      requires Valid()
      modifies this`bitstring, this`nbits
      ensures Valid() && nbits == Grown(old(nbits), endBit) && Marked() == old(Marked())
    {
      hide Test, MarkedIn, Wanted;
      var bits := Wanted(endBit);
      var bytes, held := (bits + 7) / 8, (nbits + 7) / 8;
      GrownFits(nbits, endBit);
      WholeBytes(bits);
      WholeBytes(nbits);
      if bytes > held {
        ExtendKeeps(bitstring, bytes - held);
        bitstring := bitstring + seq(bytes - held, _ => 0);
        nbits := bits;
      }
    }

    /** Record every extent of a list. */
    method AddList(exts: seq<Extent>) returns (ok: bool)
      requires Valid() && forall i | 0 <= i < |exts| :: 0 < exts[i].size
      modifies this`bitstring, this`nbits
      ensures Valid() && old(nbits) <= nbits && (ok <==> Recordable(exts, granularity))
      ensures ok ==> Marked() == old(Marked()) + Granules(Bytes(exts), granularity)
    {
      hide Bytes, Granules, MarkedIn;
      NoGranules(granularity);
      assert exts[..0] == [];
      for i := 0 to |exts|
        invariant Valid() && old(nbits) <= nbits && Recordable(exts[..i], granularity)
        invariant Marked() == old(Marked()) + Granules(Bytes(exts[..i]), granularity)
      {
        var e := exts[i];
        ok := AddEntry(e.off, e.size);
        if !ok {
          return;
        }
        assert exts[..i + 1] == exts[..i] + [e];
        BytesConcat(exts[..i], [e]);
        BytesOne(e);
        GranulesAdd(Bytes(exts[..i]), Span(e), granularity);
      }
      assert exts[..|exts|] == exts;
      ok := true;
    }
  }

  lemma NoGranules(granularity: nat)
    requires 0 < granularity
    ensures Granules(Bytes([]), granularity) == {}
  {
  }

  ghost function MarkedIn(bits: seq<bv8>): set<int> {
    set i: int | 0 <= i < 8 * |bits| && Test(bits, i)
  }

  lemma AddedAll(was: seq<bv8>, bits: seq<bv8>, start: nat, stop: nat)
    requires stop < 8 * |was| && AddedBelow(was, bits, stop / 8 + 1, start, stop)
    ensures MarkedIn(bits) == MarkedIn(was) + Range(start, stop + 1)
  {
  }

  lemma ExtendKeeps(bits: seq<bv8>, n: nat)
    ensures MarkedIn(bits + seq(n, _ => 0)) == MarkedIn(bits)
  {
  }

  /** The block's last bit can be recorded; size 0 is no block. */
  ghost predicate Fits(e: Extent, granularity: nat)
    requires 0 < granularity
  {
    0 < e.size ==> EndBit(e.off, e.size, granularity) < BITS_LIMIT
  }

  ghost predicate Recordable(exts: seq<Extent>, granularity: nat)
    requires 0 < granularity
  {
    forall i | 0 <= i < |exts| :: 0 < exts[i].size && Fits(exts[i], granularity)
  }

  // ---- The bitmaps of all backups a checkpoint tracks ----

  ghost predicate AllValid(mods: seq<BlockMods>)
    reads mods
  {
    && (forall i | 0 <= i < |mods| :: mods[i].Valid())
    && forall i, j | 0 <= i < j < |mods| :: mods[i] != mods[j]
  }

  /** Since the marks were these, some bytes of the file have been recorded in every valid bitmap, and
      nothing in the others. */
  ghost predicate MarkedSince(mods: seq<BlockMods>, marks: seq<set<int>>, bytes: set<int>)
    reads mods
  {
    && AllValid(mods) && |marks| == |mods|
    && forall i | 0 <= i < |mods| ::
         mods[i].Marked() == marks[i] + if mods[i].valid then Granules(bytes, mods[i].granularity) else {}
  }

  /** There is a bit for every granule of some bytes. */
  ghost predicate Room(bytes: set<int>, granularity: nat)
    requires 0 < granularity
  {
    forall k | k in Granules(bytes, granularity) :: k < BITS_LIMIT
  }

  ghost predicate RoomFor(mods: seq<BlockMods>, bytes: set<int>) {
    forall i | 0 <= i < |mods| && mods[i].valid && 0 < mods[i].granularity :: Room(bytes, mods[i].granularity)
  }

  /** Some bytes have been recorded since the marks were these, exactly if there is room for them. */
  ghost predicate Recording(mods: seq<BlockMods>, marks: seq<set<int>>, bytes: set<int>, ok: bool)
    reads mods
  {
    AllValid(mods) && (ok <==> RoomFor(mods, bytes)) && (ok ==> MarkedSince(mods, marks, bytes))
  }

  lemma RoomBoth(mods: seq<BlockMods>, a: set<int>, b: set<int>)
    ensures RoomFor(mods, a + b) <==> RoomFor(mods, a) && RoomFor(mods, b)
  {
    forall i | 0 <= i < |mods| && mods[i].valid && 0 < mods[i].granularity
      ensures Room(a + b, mods[i].granularity) <==> Room(a, mods[i].granularity) && Room(b, mods[i].granularity)
    {
      RoomAdd(a, b, mods[i].granularity);
    }
  }

  /** Once something could not be recorded, more cannot be. */
  lemma NoMoreRoom(mods: seq<BlockMods>, marks: seq<set<int>>, bytes: set<int>, more: set<int>)
    requires Recording(mods, marks, bytes, false)
    ensures Recording(mods, marks, bytes + more, false)
  {
    RoomBoth(mods, bytes, more);
  }

  /** The last bits of some extents tell whether there is room for all of their bytes. */
  lemma FitsIs(e: Extent, granularity: nat)
    requires 0 < granularity && 0 < e.size
    ensures Fits(e, granularity) <==> Room(Span(e), granularity)
  {
    GranulesRange(e.off, e.size, granularity);
    DivMono(e.off, e.off + e.size - 1, granularity);
    hide Granules;
    assert EndBit(e.off, e.size, granularity) in Granules(Span(e), granularity);
  }

  lemma RoomAdd(a: set<int>, b: set<int>, granularity: nat)
    requires 0 < granularity
    ensures Room(a + b, granularity) <==> Room(a, granularity) && Room(b, granularity)
  {
    hide Granules;
    GranulesAdd(a, b, granularity);
  }

  lemma {:induction false} RecordableIs(exts: seq<Extent>, granularity: nat)
    requires 0 < granularity && forall i | 0 <= i < |exts| :: 0 < exts[i].size
    ensures Recordable(exts, granularity) <==> Room(Bytes(exts), granularity)
  {
    hide Bytes, Span, Fits, Room;
    if exts == [] {
      NoRoomNeeded(granularity);
    } else {
      var n := |exts| - 1;
      var e, rest := exts[n], exts[..n];
      assert exts == rest + [e];
      RecordableIs(rest, granularity);
      BytesConcat(rest, [e]);
      BytesOne(e);
      RoomAdd(Bytes(rest), Span(e), granularity);
      FitsIs(e, granularity);
    }
  }

  lemma NoRoomNeeded(granularity: nat)
    requires 0 < granularity
    ensures Room(Bytes([]), granularity)
  {
    NoGranules(granularity);
  }

  /** Record the extents of a list in all valid bitmaps, after the file's description if the file was
      created while a backup was running. */
  method RecordAlloc(mods: seq<BlockMods>, created: bool, unit: nat, exts: seq<Extent>, ghost marks: seq<set<int>>)
    returns (ok: bool)
    requires 0 < unit && MarkedSince(mods, marks, {}) && forall i | 0 <= i < |exts| :: 0 < exts[i].size
    modifies mods
    ensures Recording(mods, marks, Bytes(exts) + if created then Range(0, unit) else {}, ok)
  {
    Described(created, unit, exts);
    ok := RecordAll(mods, if created then [Extent(0, unit)] + exts else exts, marks, {});
    assert forall s: set<int> :: {} + s == s;
  }

  lemma Described(created: bool, unit: nat, exts: seq<Extent>)
    ensures Bytes(if created then [Extent(0, unit)] + exts else exts)
         == Bytes(exts) + if created then Range(0, unit) else {}
  {
    if created {
      BytesConcat([Extent(0, unit)], exts);
      BytesOne(Extent(0, unit));
    }
  }

  /** Record some extents in every valid bitmap. */
  method RecordAll(mods: seq<BlockMods>, exts: seq<Extent>, ghost marks: seq<set<int>>, ghost bytes: set<int>)
    returns (ok: bool)
    requires MarkedSince(mods, marks, bytes) && forall i | 0 <= i < |exts| :: 0 < exts[i].size
    modifies mods
    ensures AllValid(mods) && (ok <==> RoomFor(mods, Bytes(exts)))
    ensures ok ==> MarkedSince(mods, marks, bytes + Bytes(exts))
  {
    hide Bytes, Granules, MarkedIn, Room, Recordable;
    for i := 0 to |mods|
      invariant AllValid(mods)
      invariant forall j | 0 <= j < i :: mods[j].Marked()
                  == marks[j] + if mods[j].valid then Granules(bytes + Bytes(exts), mods[j].granularity) else {}
      invariant forall j | 0 <= j < i && mods[j].valid :: Room(Bytes(exts), mods[j].granularity)
      invariant forall j | i <= j < |mods| :: mods[j].Marked()
                  == marks[j] + if mods[j].valid then Granules(bytes, mods[j].granularity) else {}
    {
      var m := mods[i];
      if m.valid {
        GranulesAdd(bytes, Bytes(exts), m.granularity);
        RecordableIs(exts, m.granularity);
        ok := m.AddList(exts);
        if !ok {
          return;
        }
      }
    }
    ok := true;
  }

  /** Record the blocks a checkpoint's lists were written to in all valid bitmaps; a list that was
      empty has no block. */
  method RecordLists(mods: seq<BlockMods>, alloc: Extent, discard: Extent, avail: Extent, ghost marks: seq<set<int>>,
                     ghost bytes: set<int>)
    returns (ok: bool)
    requires Recording(mods, marks, bytes, true)
    modifies mods
    ensures Recording(mods, marks, bytes + (Span(alloc) + Span(discard) + Span(avail)), ok)
  {
    hide RoomFor;
    BlocksBytes(alloc, discard, avail);
    RoomBoth(mods, bytes, Bytes(Blocks([alloc, discard, avail])));
    ok := RecordAll(mods, Blocks([alloc, discard, avail]), marks, bytes);
  }

  /** The blocks there are. */
  function Blocks(s: seq<Extent>): (r: seq<Extent>)
    ensures forall i | 0 <= i < |r| :: 0 < r[i].size
  {
    if s == [] then [] else (if s[0].size == 0 then [] else [s[0]]) + Blocks(s[1..])
  }

  lemma BlocksBytes(a: Extent, b: Extent, c: Extent)
    ensures Bytes(Blocks([a, b, c])) == Span(a) + Span(b) + Span(c)
  {
    OneBlock(a, [b, c]);
    OneBlock(b, [c]);
    OneBlock(c, []);
    assert Bytes([]) == {};
  }

  lemma OneBlock(a: Extent, s: seq<Extent>)
    ensures Bytes(Blocks([a] + s)) == Span(a) + Bytes(Blocks(s))
  {
    assert ([a] + s)[1..] == s;
    BytesConcat(if a.size == 0 then [] else [a], Blocks(s));
    BytesOne(a);
    assert a.size == 0 ==> Span(a) == {} && Bytes([]) == {};
  }
}
