/** A file that is found without its metadata: the pages a file's checkpoints have written let a scan
and a repair give back the cookie of the last checkpoint written. */
module Recovery {
  import opened Arithmetic
  import opened Extents
  import opened ExtentOps
  import opened Checkpoints
  import opened IntPack
  import opened Layout
  import opened ListCodec
  import opened Cookies
  import opened Scan
  import opened Format
  import opened Catalog
  import opened Pages

  /** A page as checkpoints write them: a list, alone or with checkpoint information of a generation
      that is not above some number. */
  ghost predicate Formed(page: bytes, gen: nat) {
    || (exists s: seq<Extent> :: Storable(s) && page == ListBytes(s, 0))
    || (exists s: seq<Extent>, f: Final :: Storable(s) && Informs(page, s, f) && f.writeGen <= gen)
  }

  ghost predicate Informs(page: bytes, s: seq<Extent>, f: Final) {
    Storable(s) && f.Valid() && page == ListBytes(s, VERSION_CKPT) + FinalBytes(f)
  }

  ghost predicate AllFormed(pages: Store, gen: nat) {
    forall o | o in pages :: Formed(pages[o], gen)
  }

  lemma FormedStays(pages: Store, at: Extent, page: bytes, gen: nat)
    requires AllFormed(pages, gen) && (at.size > 0 ==> Formed(page, gen))
    ensures AllFormed(Stored(pages, at, page), gen)
  {
    hide Formed;
  }

  lemma ListFormed(page: bytes, s: seq<Extent>, gen: nat)
    requires Storable(s) && page == ListBytes(s, 0)
    ensures Formed(page, gen)
  {
  }

  ghost predicate AllBelow(cs: seq<Ckpt>) {
    forall i | 0 <= i < |cs| :: cs[i].fileSize < OFF_LIMIT
  }

  /** Deletions leave the survivors' file sizes as they are. */
  lemma {:induction false} RollBelow(cs: seq<Ckpt>, del: seq<bool>)
    requires |cs| == |del| > 0 && !del[|del| - 1] && AllBelow(cs[..|cs| - 1])
    ensures var r := Roll(cs, del).cs; AllBelow(r[..|r| - 1])
    decreases |cs|
  {
    hide Span;
    forall i | 0 <= i < |cs| - 1 ensures cs[i].fileSize < OFF_LIMIT {
      assert cs[..|cs| - 1][i] == cs[i];
    }
    if |cs| == 1 {
    } else if !del[0] {
      RollBelow(cs[1..], del[1..]);
      var r := Roll(cs[1..], del[1..]).cs;
      assert ([cs[0]] + r)[..|r|] == [cs[0]] + r[..|r| - 1];
    } else {
      var m := MergeInto(cs[0], cs[1]);
      var live := |cs| == 2;
      var t := if del[1] then m else if live then Reconciled(m) else Stale(Reconciled(m));
      RollBelow([t] + cs[2..], del[1..]);
    }
  }

  /** The pages of the alloc and discard lists of a checkpoint. */
  lemma ListsFormed(pages: Store, unit: nat, fileSize: nat, gen: nat, a: Extent, pa: bytes, al: ExtentList,
                    d: Extent, pd: bytes, dl: ExtentList)
    requires 0 < unit && al.Valid() && dl.Valid()
    requires al.Set() <= Range(unit, fileSize) && dl.Set() <= Range(unit, fileSize)
    requires (Storable(al.exts) ==> pa == ListBytes(al.exts, 0)) && (Storable(dl.exts) ==> pd == ListBytes(dl.exts, 0))
    ensures AllFormed(pages, gen) && fileSize < OFF_LIMIT ==> AllFormed(Stored(Stored(pages, a, pa), d, pd), gen)
  {
    hide Bytes, Range, AllFormed, Formed, ListBytes, Stored;
    if AllFormed(pages, gen) && fileSize < OFF_LIMIT {
      InsideStorable(unit, fileSize, al.exts);
      InsideStorable(unit, fileSize, dl.exts);
      ListFormed(pa, al.exts, gen);
      ListFormed(pd, dl.exts, gen);
      FormedStays(pages, a, pa, gen);
      FormedStays(Stored(pages, a, pa), d, pd, gen);
    }
  }

  /** The block of a page. */
  function BlockSize(page: bytes, unit: nat): nat
    requires 0 < unit
  {
    RoundUp(BLOCK_HEADER + |page|, unit)
  }

  /** The page of the avail list of the last checkpoint written: its generation is the newest, and the
      information on it has the checkpoint's cookie, which lacks the avail list's own address and the
      final file size, and that file size. */
  ghost predicate LastPage(page: bytes, unit: nat, gen: nat, w: Where, sums: Sums, s: seq<Extent>, f: Final, stale: nat)
    requires 0 < unit
  {
    && Encodable(w) && stale < TWO64
    && Informs(page, s, f) && f.writeGen == gen && f.fileSize == w.fileSize
    && f.cookie == CookieBytes(unit, CookieOf(w, sums).(avail := NO_ADDR, fileSize := stale))
    && w.availAt.size == BlockSize(page, unit)
  }

  /** What a scan sees of a file: the block-manager pages that read correctly are pages that were
      written, as they were written. */
  ghost predicate Shows(file: nat -> Page, fileSize: nat, unit: nat, pages: Store, crc: bytes -> Sum)
    requires 0 < unit
  {
    forall o: nat | Visits(file, 0, fileSize, unit, o) && file(o).manager ::
      && o in pages && Holds(file(o).data, 0, pages[o])
      && file(o).size == BlockSize(pages[o], unit) && file(o).checksum == crc(pages[o])
  }

  /** A formed page announces no information, or all of it can be read. */
  lemma FormedReads(data: bytes, page: bytes, gen: nat)
    requires Formed(page, gen) && Holds(data, 0, page)
    ensures InfoAt(data).None? || (InfoRead(data, InfoAt(data).value).Some?
                                   && InfoRead(data, InfoAt(data).value).value.writeGen <= gen)
  {
    hide ListBytes, FinalBytes, Holds, InfoAt, InfoRead;
    if s: seq<Extent> :| Storable(s) && page == ListBytes(s, 0) {
      InfoAtReads(data, s, 0);
    } else {
      var s: seq<Extent>, f: Final :| Storable(s) && Informs(page, s, f) && f.writeGen <= gen;
      PageReads(data, s, f);
    }
  }

  // ---- Writing the page of an avail list ----

  /** What is put on the page of the avail list before its block is allocated. */
  ghost predicate Unsized(buf: bytes, at: nat, s: seq<Extent>, f: Final) {
    if !Storable(s) || !f.Valid() then buf == [] else
      && at == |ListBytes(s, VERSION_CKPT)| + |Pack(f.writeGen)|
      && buf == ListBytes(s, VERSION_CKPT) + Pack(f.writeGen) + Zeros(INTPACK64_MAXSIZE) + Counted(f.metadata)
                + Counted(f.list) + Counted(f.cookie)
  }

  method BeginPage(el: seq<Extent>, additional: seq<Extent>, f: Final) returns (buf: bytes, at: nat)
    requires f.Valid()
    ensures Unsized(buf, at, el + additional, f)
  {
    hide ListBytes, Pack, Counted, InfoRead;
    buf, at := [], 0;
    if Storable(el) && Storable(additional) {
      buf := WriteList(el, additional, true);
      buf, at := AppendFinal(buf, f.writeGen, f.metadata, f.list, f.cookie);
    } else {
      NotStorable(el, additional);
    }
  }

  /** Once the block is allocated the file has its final size. */
  method EndPage(buf: bytes, at: nat, fileSize: nat, ghost s: seq<Extent>, ghost f: Final) returns (page: bytes)
    requires Unsized(buf, at, s, f) && f.Valid()
    ensures |page| == |buf| && PageHolds(page, s)
    ensures Storable(s) && fileSize < TWO64 ==> Informs(page, s, f.(fileSize := fileSize))
  {
    hide ListBytes, Pack, Counted, ListAt, Holds;
    page := buf;
    if Storable(s) {
      UnsizedHolds(buf, at, s, f);
    }
    if fileSize < TWO64 && |buf| > 0 {
      page := StoreFileSize(buf, at, fileSize, ListBytes(s, VERSION_CKPT), f.(fileSize := fileSize));
      SizedIs(buf, at, fileSize, s, f);
    }
    if Storable(s) {
      ListReads(page, 0, s, VERSION_CKPT);
    }
  }

  lemma SizedIs(buf: bytes, at: nat, fileSize: nat, s: seq<Extent>, f: Final)
    requires Unsized(buf, at, s, f) && f.Valid() && Storable(s) && fileSize < TWO64
    ensures var page := ListBytes(s, VERSION_CKPT) + FinalBytes(f.(fileSize := fileSize));
            Holds(page, 0, ListBytes(s, VERSION_CKPT)) && |page| == |buf|
  {
    hide ListBytes, Pack, Counted;
    PackSize(fileSize);
    HeldByPage(ListBytes(s, VERSION_CKPT), FinalBytes(f.(fileSize := fileSize)));
  }

  lemma UnsizedHolds(buf: bytes, at: nat, s: seq<Extent>, f: Final)
    requires Unsized(buf, at, s, f) && f.Valid() && Storable(s)
    ensures Holds(buf, 0, ListBytes(s, VERSION_CKPT))
  {
    hide ListBytes, Pack, Counted;
    var list := ListBytes(s, VERSION_CKPT);
    var rest := Pack(f.writeGen) + Zeros(INTPACK64_MAXSIZE) + Counted(f.metadata) + Counted(f.list) + Counted(f.cookie);
    assert buf == list + rest;
    HeldByPage(list, rest);
  }

  // ---- The scan reaches a block ----

  /** No block that reads correctly lies across the start of another. */
  ghost predicate NothingAcross(file: nat -> Page, fileSize: nat, unit: nat, at: nat)
    requires 0 < unit
  {
    forall p: nat | p < at && Sound(file(p), p, fileSize, unit) :: p + file(p).size <= at
  }

  lemma {:induction false} ReachesFrom(file: nat -> Page, from: nat, fileSize: nat, unit: nat, at: nat)
    requires 0 < unit && unit % MIN_UNIT == 0 && at % MIN_UNIT == 0 && from % MIN_UNIT == 0
    requires from <= at < fileSize && Sound(file(at), at, fileSize, unit) && NothingAcross(file, fileSize, unit, at)
    ensures Visits(file, from, fileSize, unit, at)
    decreases at - from
  {
    hide Visits, Sound;
    if from < at {
      NextMultiple(file, from, fileSize, unit, at);
      ReachesFrom(file, Next(file, from, fileSize, unit), fileSize, unit, at);
      VisitsOn(file, from, fileSize, unit, at);
    } else {
      VisitsHere(file, at, fileSize, unit);
    }
  }

  lemma VisitsOn(file: nat -> Page, from: nat, fileSize: nat, unit: nat, at: nat)
    requires 0 < unit && from < fileSize && Visits(file, Next(file, from, fileSize, unit), fileSize, unit, at)
    ensures Visits(file, from, fileSize, unit, at)
  {
    hide Sound;
  }

  lemma VisitsHere(file: nat -> Page, at: nat, fileSize: nat, unit: nat)
    requires 0 < unit && at < fileSize && Sound(file(at), at, fileSize, unit)
    ensures Visits(file, at, fileSize, unit, at)
  {
  }

  /** The scan moves on by multiples of the smallest unit, and not past a block. */
  lemma NextMultiple(file: nat -> Page, from: nat, fileSize: nat, unit: nat, at: nat)
    requires 0 < unit && unit % MIN_UNIT == 0 && at % MIN_UNIT == 0 && from % MIN_UNIT == 0
    requires from < at && NothingAcross(file, fileSize, unit, at)
    ensures Next(file, from, fileSize, unit) % MIN_UNIT == 0 && Next(file, from, fileSize, unit) <= at
  {
    hide Sound;
    if Sound(file(from), from, fileSize, unit) {
      SoundMultiple(file(from), from, fileSize, unit);
    }
  }

  lemma SoundMultiple(page: Page, offset: nat, fileSize: nat, unit: nat)
    requires 0 < unit && unit % MIN_UNIT == 0 && Sound(page, offset, fileSize, unit)
    ensures page.size % MIN_UNIT == 0
  {
    MultipleOf(page.size, unit);
  }

  lemma MultipleOf(n: nat, unit: nat)
    requires 0 < unit && unit % MIN_UNIT == 0 && n % unit == 0
    ensures n % MIN_UNIT == 0
  {
    var k, m := n / unit, unit / MIN_UNIT;
    DivMod(n, unit);
    DivMod(unit, MIN_UNIT);
    assert n == k * (m * MIN_UNIT) == (k * m) * MIN_UNIT;
    DivMul(k * m, MIN_UNIT);
    DivMod(n, MIN_UNIT);
  }

  // ---- Recovery ----

  lemma ShownDecodable(file: nat -> Page, fileSize: nat, unit: nat, pages: Store, crc: bytes -> Sum, gen: nat)
    requires 0 < unit && Shows(file, fileSize, unit, pages, crc) && AllFormed(pages, gen)
    ensures Decodable(file, fileSize, unit)
    ensures forall o: nat | Visits(file, 0, fileSize, unit, o) && EntryOf(file(o), o).Some? ::
              o in pages && EntryOf(file(o), o).value.info.writeGen <= gen
  {
    hide InfoAt, InfoRead, Holds, Formed, Visits;
    forall o: nat | Visits(file, 0, fileSize, unit, o) && file(o).manager
      ensures InfoAt(file(o).data).None? || (InfoRead(file(o).data, InfoAt(file(o).data).value).Some?
                && InfoRead(file(o).data, InfoAt(file(o).data).value).value.writeGen <= gen)
    {
      FormedReads(file(o).data, pages[o], gen);
    }
  }

  lemma OlderElsewhere(file: nat -> Page, fileSize: nat, unit: nat, pages: Store, crc: bytes -> Sum, gen: nat, at: nat)
    requires 0 < unit && 0 < gen && Shows(file, fileSize, unit, pages, crc) && AllFormed(pages - {at}, gen - 1)
    ensures forall o: nat | Visits(file, 0, fileSize, unit, o) && o != at && EntryOf(file(o), o).Some? ::
              EntryOf(file(o), o).value.info.writeGen < gen
  {
    hide InfoAt, InfoRead, Holds, Formed, Visits;
    forall o: nat | Visits(file, 0, fileSize, unit, o) && o != at && EntryOf(file(o), o).Some?
      ensures EntryOf(file(o), o).value.info.writeGen < gen
    {
      assert o in pages - {at} && (pages - {at})[o] == pages[o];
      FormedReads(file(o).data, pages[o], gen - 1);
    }
  }

  lemma AllAre(pages: Store, gen: nat, at: nat, s: seq<Extent>, f: Final)
    requires 0 < gen && AllFormed(pages - {at}, gen - 1) && at in pages && Informs(pages[at], s, f) && f.writeGen == gen
    ensures AllFormed(pages, gen)
  {
    hide Informs, ListBytes;
    forall o | o in pages ensures Formed(pages[o], gen) {
      if o != at {
        assert (pages - {at})[o] == pages[o] && Formed(pages[o], gen - 1);
      } else {
        InformsFormed(pages[at], s, f);
      }
    }
  }

  lemma InformsFormed(page: bytes, s: seq<Extent>, f: Final)
    requires Informs(page, s, f)
    ensures Formed(page, f.writeGen)
  {
  }

  /** All that is needed to find the last checkpoint written is on its avail list's page, and nothing
      newer is on any other. */
  ghost predicate Recoverable(pages: Store, unit: nat, gen: nat, crc: bytes -> Sum, w: Where, cookie: bytes,
                              metadata: bytes, list: bytes)
    requires 0 < unit
  {
    && Encodable(w) && 0 < gen && w.availAt.off in pages && AllFormed(pages - {w.availAt.off}, gen - 1)
    && exists sums: Sums, s: seq<Extent>, f: Final, stale: nat ::
         && LastPage(pages[w.availAt.off], unit, gen, w, sums, s, f, stale)
         && f.metadata == metadata && f.list == list
         && sums.avail == crc(pages[w.availAt.off]) && cookie == CookieBytes(unit, CookieOf(w, sums))
  }

  lemma RecoverableFormed(pages: Store, unit: nat, gen: nat, crc: bytes -> Sum, w: Where, cookie: bytes,
                          metadata: bytes, list: bytes)
    requires 0 < unit && Recoverable(pages, unit, gen, crc, w, cookie, metadata, list)
    ensures AllFormed(pages, gen)
  {
    hide Informs, CookieBytes, AllFormed;
    var at := w.availAt.off;
    var sums: Sums, s: seq<Extent>, f: Final, stale: nat :| LastPage(pages[at], unit, gen, w, sums, s, f, stale)
      && f.metadata == metadata && f.list == list && sums.avail == crc(pages[at])
      && cookie == CookieBytes(unit, CookieOf(w, sums));
    AllAre(pages, gen, at, s, f);
  }

  /** The numbers of checkpoint information fit. */
  predicate Informing(gen: nat, metadata: bytes, list: bytes) {
    gen < TWO64 && |metadata| < TWO64 && |list| < TWO64
  }

  /** A checkpoint's cookie before its avail list has a page, as it is written on that page. */
  ghost predicate Incomplete(unit: nat, cookie: bytes, w: Where, sums: Sums, stale: nat)
    requires 0 < unit
  {
    var w0 := w.(availAt := NOWHERE, fileSize := stale);
    Encodable(w0) ==> cookie == CookieBytes(unit, CookieOf(w0, sums.(avail := 0)).(avail := NO_ADDR))
  }

  lemma IncompleteIs(unit: nat, cookie: bytes, w: Where, sums: Sums, stale: nat)
    requires 0 < unit && Incomplete(unit, cookie, w, sums, stale) && Encodable(w) && stale < TWO64
    ensures cookie == CookieBytes(unit, CookieOf(w, sums).(avail := NO_ADDR, fileSize := stale))
  {
    hide CookieBytes;
    var w0 := w.(availAt := NOWHERE, fileSize := stale);
    var c0, c := CookieOf(w0, sums.(avail := 0)), CookieOf(w, sums);
    assert c0.(avail := NO_ADDR) == c.(avail := NO_ADDR, fileSize := stale);
  }

  lemma AvailStorable(unit: nat, fileSize: nat, vl: ExtentList, fl: ExtentList)
    requires 0 < unit && vl.Valid() && fl.Valid() && fileSize < OFF_LIMIT
    requires vl.Set() <= Range(unit, fileSize) && fl.Set() <= Range(unit, fileSize)
    ensures Storable(vl.exts + fl.exts)
  {
    hide Bytes, Range;
    BytesConcat(vl.exts, fl.exts);
    InsideStorable(unit, fileSize, vl.exts);
    InsideStorable(unit, fileSize, fl.exts);
  }

  lemma WithoutLast(pages: Store, v: Extent, pv: bytes, gen: nat)
    requires AllFormed(pages, gen) && v.size > 0
    ensures AllFormed(Stored(pages, v, pv) - {v.off}, gen)
    ensures v.off in Stored(pages, v, pv) && Stored(pages, v, pv)[v.off] == pv
  {
    hide Formed;
  }

  /** Once the three lists of a checkpoint are written the checkpoint can be found. */
  lemma NowRecoverable(pages: Store, unit: nat, gen: nat, crc: bytes -> Sum, w: Where, sums: Sums, pa: bytes, pd: bytes,
                       pv: bytes, al: ExtentList, dl: ExtentList, vl: ExtentList, fl: ExtentList, f: Final, stale: nat)
    requires 0 < unit && 0 < gen && al.Valid() && dl.Valid() && vl.Valid() && fl.Valid()
    requires al.Set() <= Range(unit, w.fileSize) && dl.Set() <= Range(unit, w.fileSize)
    requires vl.Set() <= Range(unit, w.fileSize) && fl.Set() <= Range(unit, w.fileSize)
    requires (Storable(al.exts) ==> pa == ListBytes(al.exts, 0)) && (Storable(dl.exts) ==> pd == ListBytes(dl.exts, 0))
    requires Storable(vl.exts + fl.exts) && w.fileSize < TWO64 ==>
               Informs(pv, vl.exts + fl.exts, f.(fileSize := w.fileSize))
    requires w.availAt.size > 0 && w.availAt.size == BlockSize(pv, unit) && sums.avail == crc(pv)
    requires f.writeGen == gen && Incomplete(unit, f.cookie, w, sums, stale) && stale <= w.fileSize
    requires AllFormed(pages, gen - 1) && w.fileSize < OFF_LIMIT && Encodable(w)
    ensures Recoverable(Stored(Stored(Stored(pages, w.allocAt, pa), w.discardAt, pd), w.availAt, pv), unit, gen, crc, w,
                        CookieBytes(unit, CookieOf(w, sums)), f.metadata, f.list)
  {
    hide Bytes, Range, AllFormed, ListBytes, FinalBytes, Stored, CookieBytes, Incomplete, Informs, Storable;
    ListsFormed(pages, unit, w.fileSize, gen - 1, w.allocAt, pa, al, w.discardAt, pd, dl);
    WithoutLast(Stored(Stored(pages, w.allocAt, pa), w.discardAt, pd), w.availAt, pv, gen - 1);
    AvailStorable(unit, w.fileSize, vl, fl);
    IncompleteIs(unit, f.cookie, w, sums, stale);
    assert LastPage(pv, unit, gen, w, sums, vl.exts + fl.exts, f.(fileSize := w.fileSize), stale);
  }

  /** Whatever became of a file's metadata: scanning the file and repairing the cookie that is found
      gives the cookie of the last checkpoint written and what was written with it, as long as the page
      of its avail list reads correctly and what else reads correctly is what was written. */
  lemma RecoversLast(file: nat -> Page, fileSize: nat, unit: nat, pages: Store, crc: bytes -> Sum, gen: nat, w: Where,
                     cookie: bytes, metadata: bytes, list: bytes)
    requires 0 < unit && unit % MIN_UNIT == 0 && WholeWhere(unit, w) && w.availAt.size > 0
    requires Recoverable(pages, unit, gen, crc, w, cookie, metadata, list) && Shows(file, fileSize, unit, pages, crc)
    requires var at := w.availAt.off;
             && at < fileSize && file(at).manager
             && Sound(file(at), at, fileSize, unit) && NothingAcross(file, fileSize, unit, at)
    ensures var v := Scanned(file, 0, fileSize, unit, START);
            var avail := Addr(0, v.best.offset, v.best.size, v.best.checksum);
            && v.found && avail.Valid() && v.best.info.fileSize < TWO64
            && Repaired(unit, v.best.info.cookie, avail, v.best.info.fileSize) == Some(cookie)
            && v.best.info.metadata == metadata && v.best.info.list == list
  {
    hide Visits, Scanned, Decodable, AllFormed, ListBytes, FinalBytes, Holds, CookieBytes, Repaired, NothingAcross;
    var at := w.availAt.off;
    var sums: Sums, s: seq<Extent>, f: Final, stale: nat :| LastPage(pages[at], unit, gen, w, sums, s, f, stale)
      && f.metadata == metadata && f.list == list && sums.avail == crc(pages[at])
      && cookie == CookieBytes(unit, CookieOf(w, sums));
    MultipleOf(at, unit);
    ReachesFrom(file, 0, fileSize, unit, at);
    AllAre(pages, gen, at, s, f);
    ShownDecodable(file, fileSize, unit, pages, crc, gen);
    OlderElsewhere(file, fileSize, unit, pages, crc, gen, at);
    WholeSizable(unit, w.root);
    WholeSizable(unit, w.allocAt);
    WholeSizable(unit, w.discardAt);
    RecoversCookie(file, fileSize, unit, at, s, f, CookieOf(w, sums), stale);
  }

  lemma WholeSizable(unit: nat, e: Extent)
    requires 0 < unit && Whole(unit, e)
    ensures e.size == 0 || unit <= e.size
  {
  }
}
