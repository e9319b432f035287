/** Reads through the block cache against reads of the file. */
module CachedReads {
  import opened IntPack
  import opened BlockCache
  import opened Layout

  type Disk = (nat, nat) -> byte    // the contents of the files, by file and offset

  const COMPRESS_SKIP := 64

  function BlockAt(disk: Disk, id: Id): (r: bytes)
    ensures |r| == id.size
  {
    seq(id.size, i requires 0 <= i < id.size => disk(id.fid, id.offset + i))
  }

  // ---- One read ----

  datatype ReadResult = Good | TooSmall | Corrupt

  function HeaderChecksum(raw: seq<byte>): nat
    requires |raw| >= MIN_UNIT
  {
    raw[PAGE_HEADER + 4] as nat + 0x100 * raw[PAGE_HEADER + 5] as nat + 0x1_0000 * raw[PAGE_HEADER + 6] as nat
    + 0x100_0000 * raw[PAGE_HEADER + 7] as nat
  }

  function WithoutChecksum(raw: seq<byte>): (r: bytes)
    requires |raw| >= MIN_UNIT
    ensures |r| == |raw|
  {
    raw[PAGE_HEADER + 4 := 0][PAGE_HEADER + 5 := 0][PAGE_HEADER + 6 := 0][PAGE_HEADER + 7 := 0]
  }

  /** What a read makes of a block's image: the checksum in the header is zeroed before the block is
      checksummed, and stays so. */
  function Checked(raw: seq<byte>, checksum: nat, crc: bytes -> nat): (ReadResult, bytes)
    requires |raw| >= MIN_UNIT
  {
    if HeaderChecksum(raw) != checksum then (Corrupt, raw)
    else
      var z := WithoutChecksum(raw);
      var covered := if z[PAGE_HEADER + 8] % 2 == 1 then z else z[..COMPRESS_SKIP];
      (if crc(covered) == checksum then Good else Corrupt, z)
  }

  method CopyInto(buf: array<byte>, data: seq<byte>)
    requires buf.Length == |data|
    modifies buf
    ensures buf[..] == data
  {
    forall i | 0 <= i < |data| {
      buf[i] := data[i];
    }
  }

  /** Check a block read into a buffer, in place. */
  method Check(buf: array<byte>, checksum: nat, crc: bytes -> nat) returns (r: ReadResult)
    requires buf.Length >= MIN_UNIT
    modifies buf
    ensures (r, buf[..]) == Checked(old(buf[..]), checksum, crc)
  {
    hide HeaderChecksum;
    if HeaderChecksum(buf[..]) != checksum {
      return Corrupt;
    }
    buf[PAGE_HEADER + 4], buf[PAGE_HEADER + 5], buf[PAGE_HEADER + 6], buf[PAGE_HEADER + 7] := 0, 0, 0, 0;
    assert buf[..] == WithoutChecksum(old(buf[..]));
    var covered := if buf[PAGE_HEADER + 8] % 2 == 1 then buf[..] else buf[..COMPRESS_SKIP];
    assert buf[..COMPRESS_SKIP] == buf[..][..COMPRESS_SKIP];
    r := if crc(covered) == checksum then Good else Corrupt;
  }

  /** Read a block through the cache: if the cache holds it, it holds it as the file does; then the
      caller gets what reading the file would give, and whatever is cached is the file's image, not
      the one changed in the caller's buffer. */
  method ReadBlock(cache: Cache, disk: Disk, id: Id, unit: nat, dataFile: bool, bypass: bool, bypassPut: bool,
                   crc: bytes -> nat, buf: array<byte>)
    returns (r: ReadResult)
    requires cache.Valid() && MIN_UNIT <= unit && buf.Length == id.size
    requires id in cache.held ==> cache.held[id] == BlockAt(disk, id)
    modifies cache, buf
    ensures cache.Valid() && (old(cache.Balanced()) ==> cache.Balanced())
    ensures id.size < unit ==> r == TooSmall && unchanged(buf) && cache.held == old(cache.held)
    // The block is good exactly if its header holds the checksum asked for and the block, with that field
    // zeroed, has it: all of the block, or its start if its flag says so. The field is zeroed in the
    // caller's buffer once the header was found right.
    ensures id.size >= unit ==>
              var image := BlockAt(disk, id);
              var z := Zeroed(image);
              && (r == Good <==>
                    && HeaderChecksum(image) == id.checksum
                    && crc(if image[PAGE_HEADER + 8] % 2 == 1 then z else z[..COMPRESS_SKIP]) == id.checksum)
              && (r == Good || r == Corrupt)
              && buf[..] == if HeaderChecksum(image) == id.checksum then z else image
    // A block that was not cached is offered to the cache, as the file holds it, unless it was looked up
    // with the cache left out.
    ensures cache.held == old(cache.held) || cache.held == old(cache.held)[id := BlockAt(disk, id)]
    ensures id.size >= unit ==>
              (id in cache.held <==>
                 || id in old(cache.held)
                 || (&& dataFile && !bypass && cache.configured && cache.bytesUsed < cache.maxBytes && !bypassPut
                     && !HighOverhead(cache.lookups, old(cache.inserts) + cache.removals, cache.overheadPct)))
  {
    hide HeaderChecksum, HighOverhead, BlockCache.Table;
    if id.size < unit {
      return TooSmall;
    }
    if !dataFile {
      CopyInto(buf, BlockAt(disk, id));
    } else {
      var found, data := cache.Get(id, bypass);
      if found == Found {
        CopyInto(buf, data);
      } else {
        CopyInto(buf, BlockAt(disk, id));
        if found != Bypass {
          var put := cache.Put(id, buf[..], false, false, bypassPut);
        }
      }
    }
    assert buf[..] == BlockAt(disk, id);
    r := Check(buf, id.checksum, crc);
    CheckedIs(BlockAt(disk, id), id.checksum, crc);
  }

  /** A block whose checksum field is zeroed. */
  ghost function Zeroed(image: bytes): (z: bytes)
    requires |image| >= MIN_UNIT
    ensures |z| == |image|
  {
    image[..PAGE_HEADER + 4] + [0, 0, 0, 0] + image[PAGE_HEADER + 8..]
  }

  lemma CheckedIs(image: bytes, checksum: nat, crc: bytes -> nat)
    requires |image| >= MIN_UNIT
    ensures var (r, buf) := Checked(image, checksum, crc);
            var z := Zeroed(image);
            && (r == Good <==>
                  && HeaderChecksum(image) == checksum
                  && crc(if image[PAGE_HEADER + 8] % 2 == 1 then z else z[..COMPRESS_SKIP]) == checksum)
            && (r == Good || r == Corrupt)
            && buf == if HeaderChecksum(image) == checksum then z else image
  {
    hide HeaderChecksum;
    assert WithoutChecksum(image) == Zeroed(image);
  }

  /** The bytes of a block the checksum is taken of: all, or those of its start. */
  ghost predicate Covers(dataChecksum: bool, i: nat) {
    dataChecksum || i < COMPRESS_SKIP
  }

  ghost predicate InField(i: nat) {
    PAGE_HEADER + 4 <= i < PAGE_HEADER + 8
  }

  /** Damage is found: an image that differs from a written block in a byte the checksum is taken of,
      the checksum itself included, is good only if two different contents have the same checksum. */
  lemma DamageIsFound(data: bytes, dataChecksum: bool, crc: bytes -> nat, image: bytes, i: nat)
    requires |data| >= MIN_UNIT && forall s: bytes :: crc(s) < TWO32
    requires var (sealed, checksum) := Sealed(data, dataChecksum, crc);
             && |image| == |data| && i < |data| && image[i] != sealed[i] && Covers(dataChecksum, i)
             && image[PAGE_HEADER + 8] == sealed[PAGE_HEADER + 8]
    ensures var (sealed, checksum) := Sealed(data, dataChecksum, crc);
            Checked(image, checksum, crc).0 == Good ==>
              && !InField(i)
              && exists s: bytes, t: bytes :: s != t && |s| == |t| && crc(s) == crc(t)
  {
    var (sealed, checksum) := Sealed(data, dataChecksum, crc);
    SealedReads(data, dataChecksum, crc);
    CheckedIs(image, checksum, crc);
    CheckedIs(sealed, checksum, crc);
    SealedFlag(data, dataChecksum, crc);
    if Checked(image, checksum, crc).0 == Good {
      SameHeader(image, sealed);
      var y, z := Zeroed(image), Zeroed(sealed);
      assert y[i] != z[i];
      var s, t := if dataChecksum then y else y[..COMPRESS_SKIP], if dataChecksum then z else z[..COMPRESS_SKIP];
      assert s[i] != t[i];
      assert crc(s) == crc(t);
    }
  }

  lemma SealedFlag(data: bytes, dataChecksum: bool, crc: bytes -> nat)
    requires |data| >= MIN_UNIT && forall s: bytes :: crc(s) < TWO32
    ensures var (sealed, checksum) := Sealed(data, dataChecksum, crc);
            (sealed[PAGE_HEADER + 8] % 2 == 1) == dataChecksum
  {
  }

  /** Equal checksums in the header are equal bytes. */
  lemma SameHeader(a: bytes, b: bytes)
    requires |a| >= MIN_UNIT && |b| >= MIN_UNIT && HeaderChecksum(a) == HeaderChecksum(b)
    ensures forall i: nat | InField(i) :: a[i] == b[i]
  {
    var p := PAGE_HEADER + 4;
    FourDigits(a[p] as nat, a[p + 1] as nat, a[p + 2] as nat, a[p + 3] as nat,
               b[p] as nat, b[p + 1] as nat, b[p + 2] as nat, b[p + 3] as nat);
  }

  lemma FourDigits(a: nat, b: nat, c: nat, d: nat, e: nat, f: nat, g: nat, h: nat)
    requires a < 256 && b < 256 && c < 256 && e < 256 && f < 256 && g < 256
    requires a + 0x100 * b + 0x1_0000 * c + 0x100_0000 * d == e + 0x100 * f + 0x1_0000 * g + 0x100_0000 * h
    ensures a == e && b == f && c == g && d == h
  {
    LowDigit(a, b + 0x100 * c + 0x1_0000 * d, e, f + 0x100 * g + 0x1_0000 * h);
    LowDigit(b, c + 0x100 * d, f, g + 0x100 * h);
    LowDigit(c, d, g, h);
  }

  lemma LowDigit(a: nat, p: nat, b: nat, q: nat)
    requires a < 256 && b < 256 && a + 256 * p == b + 256 * q
    ensures a == b && p == q
  {
  }

  // ---- Writing a block ----

  /** A block's image with its header cleared and its checksum in place: what is written. */
  function Sealed(data: bytes, dataChecksum: bool, crc: bytes -> nat): (r: (bytes, nat))
    requires |data| >= MIN_UNIT
    requires forall s: bytes :: crc(s) < TWO32
    ensures |r.0| == |data|
  {
    var diskSize := Little(|data| % TWO32);
    var flags: byte := if dataChecksum then 1 else 0;
    var z := data[..PAGE_HEADER] + diskSize + [0, 0, 0, 0] + [flags, 0, 0, 0] + data[PAGE_HEADER + 12..];
    var checksum := crc(if dataChecksum then z else z[..COMPRESS_SKIP]);
    var c := Little(checksum);
    (z[PAGE_HEADER + 4 := c[0]][PAGE_HEADER + 5 := c[1]][PAGE_HEADER + 6 := c[2]][PAGE_HEADER + 7 := c[3]], checksum)
  }

  function Little(x: nat): (r: bytes)
    requires x < TWO32
    ensures |r| == 4
    ensures r[0] as nat + 0x100 * r[1] as nat + 0x1_0000 * r[2] as nat + 0x100_0000 * r[3] as nat == x
  {
    var q := x / 256;
    var r := q / 256;
    [(x % 256) as byte, (q % 256) as byte, (r % 256) as byte, (r / 256) as byte]
  }

  /** A block that was written passes the checks of a read under the checksum it was written with,
      whether all of it is checksummed or only its start, and no byte past the header has changed. */
  lemma SealedReads(data: bytes, dataChecksum: bool, crc: bytes -> nat)
    requires |data| >= MIN_UNIT && forall s: bytes :: crc(s) < TWO32
    ensures var (image, checksum) := Sealed(data, dataChecksum, crc);
            var (r, buf) := Checked(image, checksum, crc);
            && r == Good && |buf| == |data| && HeaderChecksum(image) == checksum
            // The header also has the size of the block and whether all of it is checksummed.
            && image[PAGE_HEADER..PAGE_HEADER + 4] == Little(|data| % TWO32)
            && image[PAGE_HEADER + 8] == (if dataChecksum then 1 else 0)
            && buf[..PAGE_HEADER] == data[..PAGE_HEADER] && buf[PAGE_HEADER + 12..] == data[PAGE_HEADER + 12..]
  {
    var (image, checksum) := Sealed(data, dataChecksum, crc);
    var diskSize := Little(|data| % TWO32);
    var flags: byte := if dataChecksum then 1 else 0;
    var z := data[..PAGE_HEADER] + diskSize + [0, 0, 0, 0] + [flags, 0, 0, 0] + data[PAGE_HEADER + 12..];
    assert WithoutChecksum(image) == z;
    assert z[PAGE_HEADER + 8] == flags;
  }

  // ---- Sessions reading, writing and freeing blocks, interleaved with removal and eviction ----

  /** A block read from or written to the file that its session has still to put into the cache. */
  datatype Pending = Pending(id: Id, data: bytes, write: bool)

  datatype State = State(
    disk: Disk,
    live: set<Id>,              // the blocks trees reference
    held: map<Id, bytes>,       // what the cache holds
    waiting: map<nat, Pending>) // by session

  datatype Step =
    | Hit(id: Id)                                     // a lookup finds the block
    | ReadFile(session: nat, id: Id)                  // it does not: the file is read
    | WriteFile(session: nat, id: Id, data: bytes)    // a new block is written
    | Store(session: nat, stored: bool)               // the put that follows either, which may be refused
    | FreeBlock(id: Id)                               // a block is given up, its space can be reused
    | Forget(ids: set<Id>)                            // removed after a free, or evicted

  predicate Overlap(a: Id, b: Id) {
    a.fid == b.fid && a.offset < b.offset + b.size && b.offset < a.offset + a.size
  }

  /** Only referenced blocks are read; a block is only written where no referenced one is, nor one
      another session has written. */
  ghost predicate Enabled(s: State, step: Step) {
    match step
    case Hit(id) => id in s.live && id in s.held
    case ReadFile(session, id) => id in s.live && session !in s.waiting
    case WriteFile(session, id, data) =>
      && session !in s.waiting && 0 < id.size == |data|
      && (forall other | other in s.live :: !Overlap(other, id))
      && (forall t | t in s.waiting && s.waiting[t].write :: !Overlap(s.waiting[t].id, id))
    case Store(session, _) => session in s.waiting
    case FreeBlock(id) => id in s.live
    case Forget(_) => true
  }

  function Overwritten(disk: Disk, id: Id, data: bytes): Disk
    requires |data| == id.size
  {
    (f: nat, x: nat) =>
      if f == id.fid && id.offset <= x < id.offset + id.size then data[x - id.offset] else disk(f, x)
  }

  /** What a put leaves in the cache: a block that is held is overwritten only on a write. */
  function Put(held: map<Id, bytes>, p: Pending, stored: bool): map<Id, bytes> {
    if !stored || (p.id in held && !p.write) then held else held[p.id := p.data]
  }

  /** The address of a block that was written is known to others only after its put. */
  ghost function Apply(s: State, step: Step): State
    requires Enabled(s, step)
  {
    match step
    case Hit(_) => s
    case ReadFile(session, id) => s.(waiting := s.waiting[session := Pending(id, BlockAt(s.disk, id), false)])
    case WriteFile(session, id, data) =>
      s.(disk := Overwritten(s.disk, id, data), waiting := s.waiting[session := Pending(id, data, true)])
    case Store(session, stored) =>
      var p := s.waiting[session];
      s.(held := Put(s.held, p, stored), waiting := s.waiting - {session},
         live := if p.write then s.live + {p.id} else s.live)
    case FreeBlock(id) => s.(live := s.live - {id})
    case Forget(ids) => s.(held := s.held - ids)
  }

  /** Whatever is cached, or about to be, of a referenced block is what the file holds, and so is
      whatever has been written. */
  ghost predicate Coherent(s: State) {
    && (forall id | id in s.held && id in s.live :: s.held[id] == BlockAt(s.disk, id))
    && (forall t | t in s.waiting && (s.waiting[t].write || s.waiting[t].id in s.live) ::
          s.waiting[t].data == BlockAt(s.disk, s.waiting[t].id))
  }

  /** A block that was written becomes readable: its put is accepted, or its id is not cached with
      other contents; and no other session is about to cache the id with other contents. */
  ghost predicate Clean(s: State, session: nat, stored: bool)
    requires session in s.waiting
  {
    var p := s.waiting[session];
    && (stored || (p.id in s.held ==> s.held[p.id] == p.data))
    && (forall t | t in s.waiting && t != session && s.waiting[t].id == p.id :: s.waiting[t].data == p.data)
  }

  lemma WrittenContent(disk: Disk, id: Id, data: bytes)
    requires |data| == id.size
    ensures BlockAt(Overwritten(disk, id, data), id) == data
  {
  }

  lemma WrittenElsewhere(disk: Disk, id: Id, data: bytes, other: Id)
    requires |data| == id.size && !Overlap(other, id)
    ensures BlockAt(Overwritten(disk, id, data), other) == BlockAt(disk, other)
  {
  }

  /** Making a written block readable keeps the cache coherent exactly if that is clean. */
  lemma PublishKeepsIff(s: State, session: nat, stored: bool)
    requires Coherent(s) && session in s.waiting && s.waiting[session].write
    ensures Coherent(Apply(s, Store(session, stored))) <==> Clean(s, session, stored)
  {
    hide BlockAt;
    var p, s' := s.waiting[session], Apply(s, Store(session, stored));
    assert p.data == BlockAt(s.disk, p.id);
    if Coherent(s') {
      forall t | t in s.waiting && t != session && s.waiting[t].id == p.id ensures s.waiting[t].data == p.data {
        assert s'.waiting[t] == s.waiting[t];
      }
      assert p.id in s.held ==> p.id in s'.held;
    }
  }

  lemma StepKeeps(s: State, step: Step)
    requires Coherent(s) && Enabled(s, step)
    requires step.Store? && s.waiting[step.session].write ==> Clean(s, step.session, step.stored)
    ensures Coherent(Apply(s, step))
  {
    if step.WriteFile? {
      WrittenContent(s.disk, step.id, step.data);
      forall other | !Overlap(other, step.id) ensures BlockAt(Apply(s, step).disk, other) == BlockAt(s.disk, other) {
        WrittenElsewhere(s.disk, step.id, step.data, other);
      }
    }
    hide BlockAt, Overwritten, Overlap;
    if step.Store? && s.waiting[step.session].write {
      PublishKeepsIff(s, step.session, step.stored);
    }
  }

  ghost predicate Run(ss: seq<State>, steps: seq<Step>) {
    && |ss| == |steps| + 1 && ss[0].held == map[] && ss[0].waiting == map[]
    && forall i | 0 <= i < |steps| :: Enabled(ss[i], steps[i]) && ss[i + 1] == Apply(ss[i], steps[i])
  }

  /** Every block written becomes readable cleanly: for one, because its id was removed from the
      cache, and no session still puts it there, before its space was written again. */
  ghost predicate AllClean(ss: seq<State>, steps: seq<Step>)
    requires Run(ss, steps)
  {
    forall i | 0 <= i < |steps| && steps[i].Store? ::
      && Enabled(ss[i], steps[i])
      && (ss[i].waiting[steps[i].session].write ==> Clean(ss[i], steps[i].session, steps[i].stored))
  }

  lemma {:induction false} RunCoherent(ss: seq<State>, steps: seq<Step>, i: nat)
    requires Run(ss, steps) && AllClean(ss, steps) && i < |ss|
    ensures Coherent(ss[i])
  {
    hide Apply, Clean;
    if i > 0 {
      RunCoherent(ss, steps, i - 1);
      assert Enabled(ss[i - 1], steps[i - 1]) && ss[i - 1 + 1] == Apply(ss[i - 1], steps[i - 1]);
      StepKeeps(ss[i - 1], steps[i - 1]);
    }
  }

  /** What a read delivers. */
  ghost function Delivered(s: State, id: Id, step: Step): bytes
    requires Enabled(s, step) && (step == Hit(id) || (step.ReadFile? && step.id == id))
  {
    if step.Hit? then s.held[id] else BlockAt(s.disk, id)
  }

  /** Cached reads refine file reads: whatever the interleaving, a read delivers what the file holds
      at that moment. */
  lemma ReadsAreFileReads(ss: seq<State>, steps: seq<Step>, i: nat, id: Id)
    requires Run(ss, steps) && AllClean(ss, steps) && i < |steps|
    requires steps[i] == Hit(id) || (steps[i].ReadFile? && steps[i].id == id)
    ensures Enabled(ss[i], steps[i]) && Delivered(ss[i], id, steps[i]) == BlockAt(ss[i].disk, id)
  {
    RunCoherent(ss, steps, i);
  }

  // ---- When blocks become readable cleanly ----

  /** Everything cached or about to be is what its id says. */
  ghost predicate Faithful(s: State, image: Id -> bytes) {
    && (forall id | id in s.held :: s.held[id] == image(id))
    && (forall t | t in s.waiting :: s.waiting[t].data == image(s.waiting[t].id))
    && (forall id | id in s.live :: BlockAt(s.disk, id) == image(id))
    && (forall t | t in s.waiting && s.waiting[t].write :: BlockAt(s.disk, s.waiting[t].id) == image(s.waiting[t].id))
  }

  lemma StepFaithful(s: State, step: Step, image: Id -> bytes)
    requires Faithful(s, image) && Enabled(s, step) && (step.WriteFile? ==> step.data == image(step.id))
    ensures Faithful(Apply(s, step), image)
  {
    if step.WriteFile? {
      WrittenContent(s.disk, step.id, step.data);
      forall other | !Overlap(other, step.id) ensures BlockAt(Apply(s, step).disk, other) == BlockAt(s.disk, other) {
        WrittenElsewhere(s.disk, step.id, step.data, other);
      }
    }
    hide BlockAt, Overwritten, Overlap;
  }

  lemma {:induction false} RunFaithful(ss: seq<State>, steps: seq<Step>, image: Id -> bytes, n: nat)
    requires Run(ss, steps) && n <= |steps|
    requires forall id | id in ss[0].live :: BlockAt(ss[0].disk, id) == image(id)
    requires forall i | 0 <= i < |steps| && steps[i].WriteFile? :: steps[i].data == image(steps[i].id)
    ensures Faithful(ss[n], image)
  {
    hide BlockAt, Enabled, Apply;
    if n > 0 {
      RunFaithful(ss, steps, image, n - 1);
      assert Enabled(ss[n - 1], steps[n - 1]) && ss[n - 1 + 1] == Apply(ss[n - 1], steps[n - 1]);
      StepFaithful(ss[n - 1], steps[n - 1], image);
    }
  }

  /** If an id, which has the block's checksum in it, tells the contents of a block, every run is
      clean: no matter that a block's space may be reused before the block is removed. */
  lemma TellingIdsAreClean(ss: seq<State>, steps: seq<Step>, image: Id -> bytes)
    requires Run(ss, steps)
    requires forall id | id in ss[0].live :: BlockAt(ss[0].disk, id) == image(id)
    requires forall i | 0 <= i < |steps| && steps[i].WriteFile? :: steps[i].data == image(steps[i].id)
    ensures AllClean(ss, steps)
  {
    hide BlockAt, Apply;
    forall i | 0 <= i < |steps| && steps[i].Store?
      ensures Enabled(ss[i], steps[i])
      ensures ss[i].waiting[steps[i].session].write ==> Clean(ss[i], steps[i].session, steps[i].stored)
    {
      assert Enabled(ss[i], steps[i]);
      RunFaithful(ss, steps, image, i);
    }
  }

  /** A run from an empty cache in which a read is stale: a block is read and cached, freed, its space
      written again under the same id, and the cache refuses the put of the new block. */
  lemma StaleHit(disk: Disk, id: Id, data: bytes) returns (ss: seq<State>, steps: seq<Step>)
    requires 0 < id.size == |data| && BlockAt(disk, id) != data
    ensures Run(ss, steps) && |steps| == 6 && steps[5] == Hit(id) && Enabled(ss[5], Hit(id))
    ensures Delivered(ss[5], id, Hit(id)) != BlockAt(ss[5].disk, id)
  {
    WrittenContent(disk, id, data);
    hide Overwritten;
    var was := BlockAt(disk, id);
    var s0 := State(disk, {id}, map[], map[]);
    var s1 := Apply(s0, ReadFile(0, id));
    var s2 := Apply(s1, Store(0, true));
    var s3 := Apply(s2, FreeBlock(id));
    var s4 := Apply(s3, WriteFile(0, id, data));
    var s5 := Apply(s4, Store(0, false));
    steps := [ReadFile(0, id), Store(0, true), FreeBlock(id), WriteFile(0, id, data), Store(0, false), Hit(id)];
    ss := [s0, s1, s2, s3, s4, s5, s5];
    assert s5.held[id] == was && s5.live == {id};
  }

  // ---- The cache does the steps ----

  /** Files, the cache before them, and what the sessions using them are about to do. */
  class CachedFile {
    const cache: Cache
    var disk: Disk
    ghost var live: set<Id>
    ghost var waiting: map<nat, Pending>

    ghost function St(): State
      reads this, cache
    {
      State(disk, live, cache.held, waiting)
    }

    ghost predicate Valid()
      reads this, cache
    {
      cache.Valid() && forall t | t in waiting :: 0 < waiting[t].id.size == |waiting[t].data|
    }

    constructor (cache: Cache, disk: Disk)
      requires cache.Valid()
      ensures Valid() && this.cache == cache && St() == State(disk, {}, cache.held, map[])
    {
      this.cache, this.disk := cache, disk;
      live, waiting := {}, map[];
    }

    /** Look a referenced block up, and read it from the file if it is not found. */
    method Read(session: nat, id: Id, bypass: bool) returns (data: bytes, found: Outcome, ghost step: Step)
      requires Valid() && id in live && 0 < id.size && session !in waiting
      modifies this`waiting, cache
      ensures Valid() && Enabled(old(St()), step) && St() == Apply(old(St()), step)
      ensures step == (if found == Found then Hit(id) else ReadFile(session, id))
      ensures data == Delivered(old(St()), id, step)
      ensures found == if !cache.configured then Absent else if bypass then Bypass
                       else if id in old(cache.held) then Found else Absent
    {
      found, data := cache.Get(id, bypass);
      step := Hit(id);
      if found != Found {
        step := ReadFile(session, id);
        data := BlockAt(disk, id);
        waiting := waiting[session := Pending(id, data, false)];
      }
    }

    /** Write a new block. */
    method Write(session: nat, id: Id, data: bytes)
      requires Valid() && Enabled(St(), WriteFile(session, id, data))
      modifies this`disk, this`waiting
      ensures Valid() && St() == Apply(old(St()), WriteFile(session, id, data))
    {
      disk := Overwritten(disk, id, data);
      waiting := waiting[session := Pending(id, data, true)];
    }

    /** Put what a session has read or written into the cache, which may refuse it. */
    method PutPending(session: nat, id: Id, data: bytes, write: bool, checkpointIo: bool, bypass: bool)
      returns (stored: bool)
      requires Valid() && session in waiting && waiting[session] == Pending(id, data, write)
      modifies this`live, this`waiting, cache
      ensures Valid() && St() == Apply(old(St()), Store(session, stored))
      ensures stored <==>
              && cache.configured && (write ==> cache.cacheOnWrites) && cache.bytesUsed < cache.maxBytes && !bypass
              && (checkpointIo ==> cache.cacheOnCheckpoint)
              && !HighOverhead(cache.lookups, old(cache.inserts) + cache.removals, cache.overheadPct)
    {
      hide BlockCache.Table, BlockCache.HighOverhead;
      var r := cache.Put(id, data, checkpointIo, write, bypass);
      stored := r == Found;
      waiting := waiting - {session};
      live := if write then live + {id} else live;
    }

    /** A block is no longer referenced. */
    ghost method Free(id: Id)
      requires Valid() && id in live
      modifies this`live
      ensures Valid() && St() == Apply(old(St()), FreeBlock(id))
    {
      live := live - {id};
    }

    /** Remove a freed block from the cache. */
    method Remove(id: Id)
      requires Valid()
      modifies cache
      ensures Valid() && St() == Apply(old(St()), Forget({id}))
    {
      cache.Remove(id);
    }

    /** Sweep a bucket of the cache. */
    method Sweep(b: nat, none: bool) returns (none': bool, ghost evicted: set<Id>)
      requires Valid() && cache.configured && b < cache.hashSize
      modifies cache
      ensures Valid() && St() == Apply(old(St()), Forget(evicted)) && evicted <= old(cache.held).Keys
      ensures cache.bytesUsed < cache.fullTarget ==> evicted == {}
      ensures forall id | id in evicted && id in old(cache.held) ::
                id in old(cache.visits) && old(cache.visits)[id] >= cache.aggressive + 2
    {
      hide BlockCache.Table, Ids, Aged, HighOverhead, Least, Gone, Survivors;
      ghost var held0, visits0, bucket := cache.held, cache.visits, cache.buckets[b];
      none' := cache.SweepBucket(b, none);
      evicted := held0.Keys - cache.held.Keys;
      AgedGone(held0, visits0, cache.held, cache.visits, Ids(bucket, |bucket|), cache.aggressive);
    }
  }
}
