/** Checkpoints as a caller keeps them: cookies that say where a checkpoint's root page and lists are. */
module Catalog {
  import opened Extents
  import opened Checkpoints
  import opened Format
  import opened IntPack
  import opened Layout
  import opened Cookies
  import opened Pages

  /** What a checkpoint's cookie says, but for the checksums of the lists. */
  datatype Where = Where(
    root: Extent,
    allocAt: Extent,
    discardAt: Extent,
    availAt: Extent,
    fileSize: nat,
    ckptSize: int,
    rootSum: nat)

  /** The checksums of a checkpoint's root page and of the pages of its lists. */
  datatype Sums = Sums(root: Sum, alloc: Sum, discard: Sum, avail: Sum)

  const NO_SUMS := Sums(0, 0, 0, 0)

  ghost function WhereOf(c: Ckpt): Where {
    Where(c.root, c.allocAt, c.discardAt, c.availAt, c.fileSize, c.ckptSize, c.rootSum)
  }

  predicate Small(e: Extent) {
    e.off < TWO64 && e.size < TWO32
  }

  /** The numbers fit the fields of a cookie. */
  predicate Encodable(w: Where) {
    && Small(w.root) && Small(w.allocAt) && Small(w.discardAt) && Small(w.availAt)
    && w.fileSize < TWO64 && 0 <= w.ckptSize < TWO64
  }

  predicate WholeWhere(unit: nat, w: Where)
    requires 0 < unit
  {
    Whole(unit, w.root) && Whole(unit, w.allocAt) && Whole(unit, w.discardAt) && Whole(unit, w.availAt)
  }

  function AddrOf(e: Extent, sum: Sum): Addr {
    if e.size == 0 then NO_ADDR else Addr(0, e.off, e.size, sum)
  }

  function CookieOf(w: Where, sums: Sums): (r: Cookie)
    requires Encodable(w)
    ensures r.Valid()
  {
    Cookie(AddrOf(w.root, sums.root), AddrOf(w.allocAt, sums.alloc), AddrOf(w.availAt, sums.avail),
           AddrOf(w.discardAt, sums.discard), w.fileSize, w.ckptSize, 0)
  }

  /** The checksum of the page at some place, if there is one. */
  ghost predicate SumAt(pages: Store, crc: bytes -> Sum, at: Extent, sum: Sum) {
    at.size > 0 ==> at.off in pages && sum == crc(pages[at.off])
  }

  /** The checksums of the lists of a checkpoint are those of their pages; no root page has checksum 0. */
  ghost predicate SumsOf(pages: Store, crc: bytes -> Sum, w: Where, sums: Sums) {
    && sums.root == w.rootSum && (w.root.size == 0 ==> w.rootSum == 0)
    && SumAt(pages, crc, w.allocAt, sums.alloc) && SumAt(pages, crc, w.discardAt, sums.discard)
    && SumAt(pages, crc, w.availAt, sums.avail)
  }

  /** The cookie of a checkpoint: where it is, and the checksums of its pages. */
  ghost predicate CookieFor(unit: nat, pages: Store, crc: bytes -> Sum, cookie: bytes, w: Where)
    requires 0 < unit
  {
    Encodable(w) && exists sums: Sums :: SumsOf(pages, crc, w, sums) && cookie == CookieBytes(unit, CookieOf(w, sums))
  }

  /** A cookie stays right as long as the checkpoint's pages stay. */
  lemma CookieStays(unit: nat, pages: Store, pages': Store, crc: bytes -> Sum, cookie: bytes, c: Ckpt)
    requires 0 < unit && CookieFor(unit, pages, crc, cookie, WhereOf(c)) && SameFor(pages, pages', c)
    ensures CookieFor(unit, pages', crc, cookie, WhereOf(c))
  {
    hide CookieBytes;
    var sums: Sums :| SumsOf(pages, crc, WhereOf(c), sums) && cookie == CookieBytes(unit, CookieOf(WhereOf(c), sums));
    assert SumsOf(pages', crc, WhereOf(c), sums);
  }

  /** Pack a checkpoint's cookie; leave the avail list out of it if that has no page yet. */
  method PackWhere(unit: nat, w: Where, sums: Sums, skipAvail: bool) returns (cookie: bytes)
    requires 0 < unit
    ensures Encodable(w) && !skipAvail ==>
              cookie == CookieBytes(unit, CookieOf(w, sums))
    ensures Encodable(w) && skipAvail ==> cookie == CookieBytes(unit, CookieOf(w, sums).(avail := NO_ADDR))
    ensures |cookie| < TWO64
  {
    hide CookieBytes;
    if !Encodable(w) {
      return [];
    }
    CookieFits(unit, if skipAvail then CookieOf(w, sums).(avail := NO_ADDR) else CookieOf(w, sums));
    var r := PackCookie(unit, CKPT_VERSION, CookieOf(w, sums), skipAvail);
    cookie := r.value;
  }

  lemma AddrKept(unit: nat, e: Extent, sum: Sum)
    requires 0 < unit && Whole(unit, e) && Small(e)
    ensures Kept(unit, false, AddrOf(e, sum)) == AddrOf(e, sum)
    ensures Extent(AddrOf(e, sum).offset, AddrOf(e, sum).size) == e
  {
    hide Kept;
    KeptIff(unit, false, AddrOf(e, sum));
  }

  /** A cookie of a checkpoint says where the checkpoint is, and which the checksums are. */
  method ReadCookie(unit: nat, cookie: bytes, ghost pages: Store, ghost crc: bytes -> Sum, ghost w: Where)
    returns (r: Where, sums: Sums)
    requires 0 < unit && CookieFor(unit, pages, crc, cookie, w) && WholeWhere(unit, w)
    ensures r == w && sums.root == w.rootSum && SumsOf(pages, crc, w, sums)
    ensures cookie == CookieBytes(unit, CookieOf(w, sums))
  {
    hide CookieBytes, Kept, Whole, CookieAt;
    ghost var ss: Sums :| SumsOf(pages, crc, w, ss) && cookie == CookieBytes(unit, CookieOf(w, ss));
    ghost var k := CookieOf(w, ss);
    AddrKept(unit, w.root, ss.root);
    AddrKept(unit, w.allocAt, ss.alloc);
    AddrKept(unit, w.discardAt, ss.discard);
    AddrKept(unit, w.availAt, ss.avail);
    var u := UnpackCookie(cookie, |cookie|, unit);
    assert u == Some((k, |cookie|));
    var c := u.value.0;
    r := Where(Extent(c.root.offset, c.root.size), Extent(c.alloc.offset, c.alloc.size),
               Extent(c.discard.offset, c.discard.size), Extent(c.avail.offset, c.avail.size), c.fileSize, c.ckptSize,
               c.root.checksum);
    sums := Sums(c.root.checksum, c.alloc.checksum, c.discard.checksum, c.avail.checksum);
    assert CookieOf(w, sums) == k;
  }
}
