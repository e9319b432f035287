# The block manager, verified

This project models WiredTiger's on-disk block manager (`src/block`) in Dafny and proves what it is
for: that space is allocated and freed so that a checkpoint in stable storage is never damaged, at
any moment a crash may come; that a checkpoint can always be taken; that checkpoints can be deleted
in any combination without changing what the others mean; that what is written can be read back;
that incremental backups are complete; that the block cache does not change what is read; and that
compaction makes progress and ends.

`dafny verify dfyconfig.toml` checks everything.

## How it is built

- `Extents`, `ExtentOps`: extent lists as sorted, coalesced sequences with the incrementally kept
  byte count, the operations of `block_ext.c` on them proved against the set of file bytes a list
  covers.
- `Checkpoints`, `Rolling`: a list of checkpoints with their alloc and discard lists, what each
  references, and the deletion pass that rolls deleted checkpoints into later ones.
- `Protocol`, `Safety`, `Runs`: the checkpoint protocol as a state machine over sets of bytes, with
  the steps allocate, free, start, checkpoint, fail while writing one, save metadata, resolve, crash;
  its invariant; and the theorems about whole runs. A step is what happens under the live system's
  lock.
- `Progress`: what the steps achieve. What is freed is out of the next checkpoint and what is allocated
  in it; from every reachable idle state a checkpoint can be taken.
- `Format`, `Pages`: the lists of checkpoints are in whole units and inside their files, in every
  state of every run; they are on pages that can be read, which nothing overwrites.
- `BlockManager`: the class `Block` with the lists as the source keeps them and the pages they are
  written to; each method is proved to do a step of the protocol. A checkpoint unpacks the cookies it
  is given, reads the lists from their pages, writes the new ones, records the blocks for incremental
  backups and returns the new cookies.
- `IntPack`, `ListCodec`, `Cookies`, `Scan`: variable-length integers, the pages of extent lists,
  address and checkpoint cookies, the checkpoint information appended to the last avail list and the
  scan that finds it again.
- `Catalog`, `Recovery`: what a checkpoint's cookie says; and that the pages a handle writes let scan
  and repair find the last checkpoint.
- `BackupBitmap`, `IncrementalBackup`: the bitmaps of modified blocks, and what copying the marked
  granules restores.
- `BlockCache`, `CachedReads`: the hash table with its counters and ageing sweep, a read through it,
  and all interleavings of sessions using it. A step is what happens under a bucket's lock.
- `Compaction`: the file test, the page test, the rewrite, and walking a tree until nothing is worth
  rewriting.
- `Arithmetic`, `Layout`: facts about division by a unit; sizes of headers and units.

A file is bytes; offsets and sizes are in bytes. What a checkpoint references is written `Uses`,
what it hands on to its successor `Base`; `Protected` adds the blocks its lists are in. The places a
checkpoint puts its blocks are a `Plan`: the theorems hold for every plan the allocator can follow,
and the class follows one. Checkpoints are told apart by their order, a number the metadata gives out
once (`src/include/meta.h:153`); their names play no part, and a checkpoint may be taken again under
the name of one it deletes.

## What does not hold, and when it does

- The scan for the last checkpoint means to skip a block whose appended information cannot be read
  completely, but the `continue` of the macro for that ends the macro's own loop, and the announced
  length of the cookie is not compared with the page. `Scan.VisitIff` states exactly when a turn of the
  scan is right; `Scan.HalfReadTaken` gives a page without information on which it is not, and
  `Scan.CutOffTaken` all those that end inside the cookie. No page a checkpoint writes is one of these
  (`Recovery.FormedReads`).
- The number of bits a backup bitmap is grown to is computed in 32 bits. The assertion before it
  admits bits for which the rounded number wraps to zero. `BackupBitmap.GrownFits` states exactly for
  which bits room is made, `BackupBitmap.NoRoom` gives the first for which it is not. A second assertion
  then fails; a build without assertions would go on.
- A block is removed from the block cache after its space has been given back, and a compaction
  rewrite does not remove it at all; a block written there under the same id is offered to the cache
  before anyone gets its address, but the cache may refuse it. `CachedReads.PublishKeepsIff` states
  exactly when the cache is coherent then: the put is accepted or the id is not held with other
  contents, and no other put of the id with other contents is under way. `CachedReads.StaleHit` is a
  run from an empty cache in which a read is stale, `CachedReads.TellingIdsAreClean` shows that it
  takes two blocks with equal ids and different contents.
- Removing a range from an extent list is not defined for every range: if some extent ends strictly
  inside the range, the size of what is left of it comes out negative. `ExtentOps.RemoveOverlap` states
  that this happens exactly then, and never for a range the list covers.
- Reading a page of a list takes a pair that is no range for one if it passes the tests against unit
  and file size: offsets and sizes are signed, so a size may be zero or negative, and the sum of the
  two may wrap around. `ListCodec.ReadList` states exactly for which pages this happens,
  `ListCodec.OddPages` gives some, `ListCodec.WrittenNotOdd` shows that no page written for a list is
  one.
- An address that is not aligned, or carries an object ID in a file without objects, is not read back
  as it was; `Cookies.KeptIff` states exactly which are.
- A checkpoint that was never started is noticed only after its root page has been written. The model
  follows the code (`Protocol.Refused`).

## Model

| member | source | states |
|---|---|---|
| `Extents.CanonicalUnique` | src/block/block_ext.c:976-1050 | A sorted list without empty or adjacent extents is determined by the bytes it covers: what merging produces depends on nothing else. |
| `Extents.Search` | src/block/block_ext.c:130-164 | The place of an offset in a list: every extent before it starts below the offset, and in a sorted list every later one at or after it. |
| `ExtentOps.ClashIff` | src/block/block_ext.c:985-1015 | The test against the neighbours finds an overlap exactly if the range shares a byte with the list. |
| `ExtentOps.Merge` | src/block/block_ext.c:976-1050 | Merging a range succeeds exactly if it overlaps nothing; the list then covers its old bytes and the range, is canonical again, and its byte count is the number of bytes covered. |
| `ExtentOps.Append` | src/block/block_ext.c:910-954 | Appending past the end of a canonical list extends the last extent or adds one: covered bytes, canonical form and byte count as for a merge. |
| `ExtentOps.RemoveOverlap` | src/block/block_ext.c:379-441 | For any list and range: nothing is found exactly if they share no byte; the arithmetic of the source fails exactly if some extent ends strictly inside the range; otherwise the list loses exactly the bytes of the range, canonical and counted. A range the list covers is always removed. |
| `ExtentOps.MergeLists` | src/block/block_ext.c:872-908 | Merging two lists succeeds exactly if they are disjoint and gives their union, whichever of the two is merged into the other. |
| `ExtentOps.Reconcile` | src/block/block_ext.c:697-870 | All seven ways two ranges overlap: the range found is exactly their intersection, and each keeps exactly the rest of itself. |
| `ExtentOps.MoveOverlap` | src/block/block_ext.c:664-695 | The walk along two lists moves exactly their intersection out of both and into the third list; it fails exactly if that list already holds some of it. |
| `Checkpoints.ClosedForm` | src/block/block_ckpt.c:612-675 | What checkpoint k references is the union of the alloc lists up to k, less the union of the discard lists up to k, less the roots before k. |
| `Checkpoints.RollMeans` | src/block/block_ckpt.c:612-694 | Deleting any set of checkpoints leaves unchanged what every surviving checkpoint references and what is handed on to the live tree, for every mix of neighbouring deletions and kept targets; the result is a well-formed chain. |
| `Checkpoints.RollSpace` | src/block/block_ckpt.c:643-691 | What a deletion pass frees and what the survivors still hold, alloc lists and list blocks, is together what was held before, each byte once. |
| `Checkpoints.AllocsAreUsed` | src/block/block_ckpt.c:636-675 | Every byte on an alloc list is referenced by some checkpoint of the chain, and nothing else is. |
| `Checkpoints.ListsApart` | src/block/block_ckpt.c:747-760 | In a chain each alloc list is disjoint from the earlier ones, each discard list from the earlier ones, everything discarded was allocated before, and the first discard list is empty. |
| `Checkpoints.RollNothing` | src/block/block_ckpt.c:604-606 | Where nothing is marked for deletion the pass changes nothing and frees nothing: skipping it is the same. |
| `Rolling.Delete` | src/block/block_ckpt.c:643-691 | One turn of the deletion loop: what it puts on ckpt_avail is, piece by piece, disjoint from what is there, so nothing is freed twice, and the rest of the loop still leads to the same result. |
| `Rolling.NeighboursAre` | src/block/block_ckpt.c:656-675 | At every turn the two checkpoints merged have lists that can be merged: no merge in the loop can fail. |
| `Safety.InvAlloc` | src/block/block_ext.c:478-555 | Allocating a block keeps the invariant of the protocol. |
| `Safety.InvFree` | src/block/block_ext.c:597-629 | Freeing a block, to avail if allocated since the last checkpoint and to discard otherwise, keeps the invariant. |
| `Safety.FreeMeans` | src/block/block_ext.c:597-629 | Freeing takes exactly the block from what the live tree references; a byte of it is available at once exactly if no checkpoint references it; nothing else changes. |
| `Safety.InvStart` | src/block/block_ckpt.c:189-211 | Starting a checkpoint, or panicking because one is running, keeps the invariant. |
| `Safety.InvCheckpoint` | src/block/block_ckpt.c:469-777 | Writing a checkpoint (root page, deletions, rewritten lists, truncation, three new lists, reset of the live lists) keeps the invariant, for every choice of deletions and every place the blocks are put. Checkpoints are told apart by their order, which is never used twice; names may recur. |
| `Safety.InvRefused` | src/block/block_ckpt.c:217-262 | A checkpoint that was not started has its root page written before that is noticed; the invariant holds all the same. |
| `Safety.InvResolve` | src/block/block_ckpt.c:899-953 | Resolving a checkpoint, successfully or not, keeps the invariant. |
| `Safety.InvLoad` | src/block/block_ckpt.c:38-135 | Opening a file at the last of any well-formed list of checkpoints, after a crash or not, establishes the invariant. |
| `Safety.NewSizeIs` | src/block/block_ckpt.c:706-732 | The clamp of the rolling checkpoint size to the file size never changes it. |
| `Runs.RunInv` | src/block/block_ckpt.c:189-953 | Every state of every run from a new file, any steps in any order, failures in the middle of writing a checkpoint and crashes anywhere, satisfies the invariant. |
| `Runs.NothingDurableIsAvailable` | src/block/block_ckpt.c:485-541 | In every reachable state, between checkpoint and resolve included, and after a crash there, nothing on live.avail or live.alloc is referenced by, or holds the lists of, a checkpoint listed in stable storage. |
| `Runs.FreeIffUnreferenced` | src/block/block_ckpt.c:663-703 | In every reachable state the bytes past the description that no checkpoint, list block or live tree references are exactly avail and ckpt_avail, which are disjoint: no leak, no double use. |
| `Runs.CkptAvailOnlyPending` | src/block/block_ckpt.c:505-541 | ckpt_avail is empty whenever a checkpoint may start, so the clean-out at the start of processing discards nothing; resolving moves all of it into avail, from which it was disjoint. |
| `Runs.ListsStayApart` | src/block/block_ckpt.c:747-760 | In every reachable state the lists of the checkpoints are apart as ListsApart says. |
| `Runs.SizesAreExact` | src/block/block_ckpt.c:589-596 | In every run the size reported for a checkpoint is the number of bytes it references, and the rolling size that number less its root page. |
| `Runs.WritesAvoidDurable` | src/block/block_ckpt.c:843-848 | No step of any run, and no part of a checkpoint that fails while it is written, writes a byte a durable checkpoint needs, or truncates the file below one. |
| `Runs.CheckpointsSurvive` | src/block/block_ckpt.c:469-953 | A checkpoint listed in stable storage keeps its set of bytes and their contents for as long as it stays listed there, through any further steps, failures and crashes. |
| `Progress.LiveStep` | src/block/block_ckpt.c:189-953 | What each step but a crash does to what the live tree references: it gains exactly what is allocated and loses exactly what is freed; starting, writing, saving and resolving a checkpoint leave it alone. |
| `Progress.FreedIsOut` | src/block/block_ext.c:597-629 | Over any stretch of a run without a crash: a block freed and not allocated again is in no checkpoint written later, one allocated and not freed is in it. |
| `Progress.PlanExists` | src/block/block_ext.c:478-555 | Whatever is to be deleted and wherever the root page is, there are places for all the blocks of a checkpoint. |
| `Progress.StartAndGiveUp` | src/block/block_ckpt.c:899-953 | A checkpoint that is started and resolved without having been written leaves everything as it was, whether the caller failed or not; starting a second one is fatal. |
| `Progress.CheckpointSucceeds` | src/block/block_ckpt.c:469-777 | The checkpoints after one is written: those not deleted, in order, unchanged but for their alloc and discard lists and where these are written, and the new one with its order, its root page and that page's checksum. |
| `Progress.TakeCheckpoint` | src/block/block_ckpt.c:189-953 | From every idle state a checkpoint can be started, written, saved and resolved: all four steps are enabled, the durable checkpoints are then the survivors, referencing what they did, and the new one, referencing the live tree and its root page; the live tree is unchanged, and exactly the unreferenced bytes are available. |
| `Progress.CheckpointsHappen` | src/block/block_ckpt.c:189-953 | So it is in every reachable idle state of every run, which goes on with these steps. |
| `Progress.AlwaysRecovers` | src/block/block_ckpt.c:38-135 | From every reachable state, panicked or not, opening the file again leads to an idle state with the durable checkpoints. |
| `Format.RollInside` | src/block/block_ckpt.c:612-694 | Deletions keep every list inside the file as it was at its own checkpoint: a target takes in only what earlier checkpoints allocated. |
| `Format.FormattedStep` | src/block/block_ckpt.c:189-953 | Every step that places blocks in whole units keeps all lists, live and of checkpoints, in whole units, past the description and inside their files. |
| `Format.RunFormatted` | src/block/block_ckpt.c:189-953 | So every state of every such run has all its lists that way. |
| `Format.ReaderAccepts` | src/block/block_ext.c:1137-1150 | In every reachable state the lists of every checkpoint, current or durable, pass the tests the reader makes range by range against that checkpoint's own file size, however often they were rewritten. |
| `Pages.SafeStays` | src/block/block_ext.c:1159-1245 | Writing a list to a newly taken block leaves the pages of all checkpoints as they are. |
| `Pages.RollPaged` | src/block/block_ckpt.c:612-694 | Deletions leave the lists of each survivor on their pages, or mark it for writing them again. |
| `Pages.DeletedSafe` | src/block/block_ckpt.c:612-699 | After the deletions no block that can be taken holds a page of a survivor, or of a checkpoint there was before. |
| `Pages.ReadAt` | src/block/block_ext.c:1092-1157 | A list that is on its page, in whole units and inside the file, is read back: the reader accepts it and the result covers exactly it. |
| `Pages.ReadAvailAt` | src/block/block_ext.c:1052-1090 | An avail list is read back with its two parts merged and without the block it is in. |
| `Pages.MakePage` | src/block/block_ext.c:1159-1245 | The page made for a list is, read from its start, that list. |
| `BlockManager.FirstFit` | src/block/block_ext.c:84-105 | The first extent large enough, or none. |
| `BlockManager.BestFit` | src/block/block_ext.c:107-128 | The smallest extent large enough, of several the one at the lowest offset, or none. |
| `BlockManager.Block.constructor` | src/block/block_ckpt.c:38-135 | Loading at the last checkpoint of any well-formed list on its pages, given by its cookie: the avail list is read from its page, tested, merged, and the block it is in removed; the handle is in the protocol state after a load, its invariant established, and allocates best-fit. |
| `BlockManager.OpenLists` | src/block/block_ckpt.c:38-135 | From the cookie of the last checkpoint, or for a new file, come the sizes and the avail list of the state after a load. |
| `BlockManager.ReadEntries` | src/block/block_ckpt.c:268-291 | The cookie of every real entry of the checkpoint array is unpacked and its lists are read from their pages; what is read are the checkpoints there are. |
| `BlockManager.Block.TakeBlock` | src/block/block_ext.c:478-555 | The block comes from the first or best extent that fits, the file grows exactly if none does, and the block is on the alloc list. |
| `BlockManager.Block.ExtendFile` | src/block/block_ext.c:443-476 | The block is the end of the file, which grows by it. |
| `BlockManager.Block.AllocBlock` | src/block/block_ext.c:478-555 | A size that is no multiple of the allocation size is refused without effect; otherwise the handle does the protocol's allocation step: the file grows exactly if no extent is large enough, the block starts the first extent that is if first-fit is wanted, else one of the smallest. |
| `BlockManager.Block.FreeBlock` | src/block/block_ext.c:597-629 | The live tree no longer references the block and all else as before; a block allocated since the last checkpoint moves from alloc to avail, any other joins discard; a byte of it is available at once exactly if no checkpoint references it. |
| `BlockManager.Block.StartCheckpoint` | src/block/block_ckpt.c:189-211 | A checkpoint is in progress exactly if none was, else the handle is unusable; nothing else changes. |
| `BlockManager.Block.SaveMetadata` | src/block/block_ckpt.c:485-498 | The caller's step between writing a checkpoint and resolving it: the new list of checkpoints becomes the durable one. |
| `BlockManager.Block.ResolveCheckpoint` | src/block/block_ckpt.c:899-953 | A started checkpoint is given up; a written one ends, and all of ckpt_avail is in avail, unless the caller failed; in every other case the handle is unusable. No byte is lost. |
| `BlockManager.Block.FreeListBlock` | src/block/block_ckpt.c:297-310 | The block of a written list joins ckpt_avail, if there is one. |
| `BlockManager.Block.RollInto` | src/block/block_ckpt.c:643-691 | Rolling a checkpoint into the next: its lists, and its root in discard, are merged into the target's; a kept target loses the overlap and its old list blocks to ckpt_avail and is marked for rewriting. |
| `BlockManager.Block.RollIntoLive` | src/block/block_ckpt.c:656-675 | The same where the next is the live system, which has no written lists. |
| `BlockManager.Block.DeleteMarked` | src/block/block_ckpt.c:612-694 | The deletion loop over the checkpoint array, fake entries skipped, computes the deletion pass on the real ones. |
| `BlockManager.Block.WriteListBlock` | src/block/block_ext.c:1159-1245 | A list goes to a page in a newly taken block of whole units, which is on no list afterwards; an empty one is not written. |
| `BlockManager.Block.WriteFinalBlock` | src/block/block_write.c:210-290 | The avail list's page holds both lists and the checkpoint information, with the file size that allocating its own block led to. |
| `BlockManager.Block.WriteLiveLists` | src/block/block_ckpt.c:800-848 | Alloc and discard list first; then the cookie that lacks its avail list; then the avail list's page with that cookie and the next write generation. |
| `BlockManager.Block.UpdateMarked` | src/block/block_ckpt.c:696-699 | The lists of exactly the checkpoints marked for update are written, each to newly taken blocks; all checkpoints, the durable ones too, have their lists on pages afterwards; the blocks are recorded for the backups. |
| `BlockManager.Block.TruncateFile` | src/block/block_ext.c:1247-1276 | The file loses exactly the available bytes at its end, in whole units. |
| `BlockManager.Block.FinishCheckpoint` | src/block/block_ckpt.c:783-893 | The new checkpoint has its lists on pages the reader accepts, the others keep theirs, the three blocks are recorded for the backups, and the checkpoint can be found from its avail list's page alone. |
| `BlockManager.Block.WriteCheckpoint` | src/block/block_ckpt.c:217-262 | Root page, of its rounded size, then the protocol's checkpoint step if a checkpoint was started, else the refused one. Every block goes where there is room first, and the allocation plan is restored. The handle keeps the invariant: all lists of current and durable checkpoints are on pages the reader accepts, the durable ones on the same pages as before. The cookies returned are those of the checkpoints, with the checksums of their root and list pages; the size reported is that of the new one; the last checkpoint can be found without its cookie, with the metadata and list given. The bitmaps have marked exactly what IncrementalBackup.Records says if there is room for all of it, and exactly then the handle is usable. |
| `BlockManager.Block.PrepareCheckpoint` | src/block/block_ckpt.c:598-732 | What was allocated is recorded before anything is merged into it; then deletions, rewrites and truncation leave the entries and the space the protocol says. |
| `BlockManager.Block.CloseCheckpoint` | src/block/block_ckpt.c:734-777 | Writing the new checkpoint and resetting the live lists completes the protocol's checkpoint step. |
| `BlockManager.Block.ProcessCheckpoint` | src/block/block_ckpt.c:469-777 | Records, deletions, updates, truncation and the new checkpoint in the order of the source compute the protocol's checkpoint step. |
| `BlockManager.PackAll` | src/block/block_ckpt.c:884-888 | The cookies of the kept and the new checkpoint, as far as their numbers fit one. |
| `BlockManager.ScanGivesLast` | src/block/block_ckpt_scan.c:213-391 | From the handle's pages to the cookie: scanning the file after a checkpoint and repairing what is found gives the last of the cookies the checkpoint returned, and the metadata and checkpoint list that were passed to it. |
| `IntPack.RoundTrip` | src/include/intpack_inline.h:85-285 | Every 64-bit value packed anywhere in a buffer unpacks to itself and to the position after it. |
| `IntPack.PackSize` | src/include/intpack_inline.h:187-216 | A packed value takes one to nine bytes, five at most below 2^32. |
| `IntPack.OrderPreserved` | src/include/intpack_inline.h:9-32 | Packed values compare, byte by byte, as the values do. |
| `IntPack.ShortCodes` | src/include/intpack_inline.h:20-40 | Every one- and two-byte code of the table is the code of a value, so each range starts where the one before it ends. |
| `IntPack.PackLength` | src/include/intpack_inline.h:20-40 | One byte exactly below 2^6, and at most n + 1 bytes exactly below 2^6 + 2^13 + 256^n. |
| `ListCodec.WriteList` | src/block/block_ext.c:1159-1245 | The page written for a list: the magic pair, every extent of the list and of the additional one, and the closing pair with the version. |
| `ListCodec.ReservedSuffices` | src/block/block_ext.c:1189-1195 | The bytes reserved for a page are enough for what is written. |
| `ListCodec.ListReads` | src/block/block_ext.c:1092-1157 | A page written for any list of ranges, followed by anything, is that list. |
| `ListCodec.ReadList` | src/block/block_ext.c:1092-1157 | Any page, damaged or not: it is read exactly if it is a list of ranges in whole units inside the file that, when merging, do not overlap, and the result covers exactly those ranges; it is odd exactly if such ranges are followed by a pair that is no range and passes the signed tests; otherwise it is refused. |
| `ListCodec.OddPages` | src/block/block_ext.c:1137-1150 | In every file there are odd pages: with a range of size 0, and with one so long that its end wraps around to below the end of the file. |
| `ListCodec.WrittenNotOdd` | src/block/block_ext.c:1137-1150 | No page written for a list, whatever follows it, is odd. |
| `Cookies.PackAddr` | src/block/block_addr.c:87-122 | Read from where it was appended, the address comes back as kept, and exactly the appended bytes are used. |
| `Cookies.UnpackAddr` | src/block/block_addr.c:18-81 | Wherever the bytes of a packed address are held, its object ID included or not, that address is returned as kept with the position after it. |
| `Cookies.KeptIff` | src/block/block_addr.c:87-122 | An address is stored without loss exactly if it is aligned and has no object ID that cannot be kept, or is the empty address. |
| `Cookies.AddrFormat` | src/block/block_addr.c:87-122 | An aligned address is packed as its units past the description block, its units, and its checksum. |
| `Cookies.AddrRoundTrip` | src/block/block_addr.c:18-122 | A packed address unpacks to the address as kept and uses exactly the cookie. |
| `Cookies.PackCookie` | src/block/block_addr.c:282-322 | A checkpoint cookie is packed only for the known version; leaving the avail list out changes only its triple. |
| `Cookies.UnpackCookie` | src/block/block_addr.c:196-251 | A buffer that is any packed checkpoint cookie gives back its four addresses as kept, both sizes and the object ID, and is used up. |
| `Cookies.CookieRoundTrip` | src/block/block_addr.c:196-322 | Four addresses, both sizes and the optional object ID unpack to what was packed and use exactly the cookie. |
| `Cookies.CookieFits` | src/include/block.h:135-139 | A checkpoint cookie fits the buffer it is packed into. |
| `Cookies.Repair` | src/block/block_ckpt_scan.c:168-201 | Given the cookie of any checkpoint without its avail triple, and with any file size, the avail triple and the file size: the complete cookie of that checkpoint. |
| `Cookies.RepairIsComplete` | src/block/block_ckpt_scan.c:168-201 | Repairing the incomplete cookie of any checkpoint gives, byte for byte, the complete one, whatever file size the incomplete one carried. |
| `Catalog.PackWhere` | src/block/block_ckpt.c:884-888 | The cookie packed for a checkpoint is one of that checkpoint; left out, its avail triple is empty. |
| `Catalog.ReadCookie` | src/block/block_addr.c:196-251 | From any cookie of a checkpoint of whole units come its places, its sizes, the checksum of its root page and those of the pages of its lists. |
| `Catalog.CookieStays` | src/block/block_ckpt.c:884-888 | A cookie is right, its checksums those of the pages, for as long as the pages of the checkpoint stay. |
| `Scan.AppendFinal` | src/block/block_ckpt_scan.c:41-149 | Whatever file size is stored in the field left open, the appended bytes are then read back as the metadata, the incomplete cookie and that file size. |
| `Scan.StoreFileSize` | src/block/block_write.c:279-284 | Storing the final file size in its field completes what was appended. |
| `Scan.FinalReads` | src/block/block_ckpt_scan.c:71-136 | The appended fields are read back as they were written, wherever they are. |
| `Scan.PageReads` | src/block/block_ckpt_scan.c:263-361 | The page of a final avail list announces the appended fields, and they are read back. |
| `Scan.VisitIff` | src/block/block_ckpt_scan.c:203-361 | A turn of the scan keeps the best complete entry so far exactly if it is not at a page that announces information it does not hold completely, a cookie cut off at the end of the page included, while the write generation in use is not older. |
| `Scan.HalfReadTaken` | src/block/block_ckpt_scan.c:203-207 | That branch is reachable: a page that announces information and ends is taken for an entry. |
| `Scan.CutOffTaken` | src/block/block_ckpt_scan.c:351-361 | So does an entry cut off anywhere inside its cookie, after any list and with any other fields: it is taken, with a cookie that was not written. |
| `Scan.ScanFile` | src/block/block_ckpt_scan.c:213-391 | The scan loop, with the file size less the offset as measure, computes the fold over the pages it visits. |
| `Scan.ScanFindsLast` | src/block/block_ckpt_scan.c:263-361 | Over a file whose announced information can all be read the scan finds an entry exactly if there is one; the one found is on a page that reads correctly and lies in the file, has the greatest write generation, and is the last of those. |
| `Scan.RecoversCookie` | src/block/block_ckpt_scan.c:168-391 | Scan and repair together recover the complete cookie of the checkpoint whose avail list is the newest. |
| `Recovery.EndPage` | src/block/block_write.c:279-284 | The page of an avail list, once its file size is stored, is the list and the information, as long as it was before. |
| `Recovery.FormedReads` | src/block/block_ckpt_scan.c:263-361 | Every page checkpoints write announces no information or holds all of it, of a generation no newer than theirs. |
| `Recovery.ReachesFrom` | src/block/block_ckpt_scan.c:257-283 | The scan looks at every block that reads correctly and has none lying across its start. |
| `Recovery.NowRecoverable` | src/block/block_ckpt.c:806-848 | Once the three lists of a checkpoint are written, its avail list's page has all that is needed to find it, and nothing newer is on any other. |
| `Recovery.RecoverableFormed` | src/block/block_ckpt_scan.c:41-149 | Its pages are again those of a file in which the next checkpoint can be found. |
| `Recovery.RecoversLast` | src/block/block_ckpt_scan.c:168-391 | Scanning such a file and repairing what is found gives the complete cookie of the last checkpoint written, and the metadata and checkpoint list written with it, if the page of its avail list reads correctly and what else reads correctly is what was written. |
| `BackupBitmap.GrownFits` | src/block/block_ckpt.c:365-388 | Growing a bitmap makes room for a last bit exactly if that bit rounded up to a multiple of 64 fits in 32 bits; it never shrinks. |
| `BackupBitmap.NoRoom` | src/block/block_ckpt.c:363-366 | The check against the 32-bit maximum admits a bit no room is made for. |
| `BackupBitmap.BlockMods.constructor` | src/block/block_ckpt.c:365-383 | A bitmap starts empty. |
| `BackupBitmap.BlockMods.SetBits` | src/include/bitstring_inline.h:135-157 | Exactly the bits of the range are set besides those that were: one byte, or first, middle and last bytes. |
| `BackupBitmap.BlockMods.Grow` | src/block/block_ckpt.c:365-383 | Growth keeps the marked bits, zeroes new ones and never shrinks. |
| `BackupBitmap.BlockMods.AddEntry` | src/block/block_ckpt.c:349-393 | Room is made for an entry's last bit exactly below the limit; then a granule is marked exactly if it was, or if the range has a byte in it. Without room the last assertion of the source fails, and the model sets nothing. |
| `BackupBitmap.BlockMods.AddList` | src/block/block_ckpt.c:399-429 | A list is recorded exactly if all its extents can be; then a granule is marked exactly if it was, or if the list has a byte in it. |
| `BackupBitmap.RecordAlloc` | src/block/block_ckpt.c:399-429 | Exactly if every valid bitmap has bits for all the bytes, each of them, and no other, records the list, and the file's description for a file created during a backup. |
| `BackupBitmap.RecordLists` | src/block/block_ckpt.c:435-463 | Exactly if every valid bitmap has bits for all the bytes, each of them, and no other, records the blocks there are of the three written lists. |
| `IncrementalBackup.NewIsRecorded` | src/block/block_ckpt.c:598-602 | Whatever a new checkpoint and its lists need and the one before did not is recorded, whichever checkpoints are merged in the same pass. |
| `IncrementalBackup.BackupRestores` | src/block/block_ckpt.c:399-463 | Over any run with crashes: copying the granules marked since an image was taken makes the image hold all the last durable checkpoint needs. |
| `BlockCache.Cache.constructor` | src/block/block_cache.c:589-647 | A new cache is empty, configured as asked, all its counters zero. |
| `BlockCache.Cache.Get` | src/block/block_cache.c:318-392 | A lookup is counted, finds a block exactly if it is cached, and delivers it as cached; the block has one reference more and counts up from zero at least, its age starts anew, and no other changes. |
| `BlockCache.Cache.Put` | src/block/block_cache.c:398-530 | The exact outcome: not wanted, full, bypassed or taken in. A new block is at the head of its list without references and with a count of one; one that is cached keeps both and is overwritten only on a write; ids stay unique, counters right. |
| `BlockCache.Cache.Remove` | src/block/block_cache.c:536-583 | Exactly this block is not cached any more; the others keep their data, their references and their ages; counters right. |
| `BlockCache.Cache.Aggregate` | src/block/block_cache.c:15-30 | The totals are the number of cached blocks and the sum of their sizes. |
| `BlockCache.OverheadIff` | src/block/block_cache.c:122-136 | The overhead is high exactly if inserts and removals are fewer than the lookups and exceed the configured percentage of them by a whole percent. |
| `BlockCache.EvictsLeastUsed` | src/block/block_cache.c:154-183 | Whatever is evicted was unused long enough and has fewer references than any such block visited before it, plus the increment. |
| `BlockCache.Cache.SweepBucket` | src/block/block_cache.c:236-263 | A block goes exactly if the cache is filled to its target, the overhead is not high at that moment, the block has been unused long enough, and it has fewer references than the least seen so far plus the increment. The others stay in order, a second older; no other bucket is touched; removals, the least number of references, and whether there was a candidate are exact. A block is evicted only after at least two more visits than the configured number of seconds since it was inserted or last hit, for any interleaving. |
| `BlockCache.Cache.SweepPass` | src/block/block_cache.c:211-272 | A pass visits every block exactly once, with the totals of its start. While there is room, or the overhead is high, nothing goes. The least number of references among unused blocks is carried on, raised by the increment exactly if there was no candidate. |
| `BlockCache.Cache.FreeAll` | src/block/block_cache.c:673-696 | Emptying the cache drives both totals to zero. |
| `BlockCache.Cache.Destroy` | src/block/block_cache.c:653-719 | Afterwards nothing is cached, the cache is unconfigured and its counters are zero. |
| `CachedReads.SealedReads` | src/block/block_write.c:287-325 | A block as a write seals it has its size, its checksum and the flag in its own header, and passes the check a read makes, whichever of the two ways it is checksummed. |
| `CachedReads.ReadBlock` | src/block/block_read.c:215-310 | A read succeeds exactly if the header has the checksum asked for and the block, or its start if the flag says so, has it with that field zeroed, whether it comes from the cache or the file; the buffer has the block so. Exactly when a block is cached is stated, and it is cached as the file holds it. |
| `CachedReads.DamageIsFound` | src/block/block_read.c:275-300 | An image that differs from a written block in any byte the checksum is taken of, or in the checksum, is refused, unless two contents of the same length have the same checksum. |
| `CachedReads.PublishKeepsIff` | src/block/block_write.c:327-340 | Once a written block has been offered to the cache and its address is returned, the cache is coherent exactly if the put was accepted or the id is not held with other contents, and no other put of the id with other contents is under way. |
| `CachedReads.RunCoherent` | src/block/block_cache.c:464-529 | Every state of every interleaving in which that condition holds has a coherent cache. |
| `CachedReads.ReadsAreFileReads` | src/block/block_read.c:258-288 | For every interleaving of lookups, file reads, puts, writes, frees, removals and evictions in which that condition holds, each read delivers what the file holds. |
| `CachedReads.TellingIdsAreClean` | src/block/block_ext.c:586-592 | If ids, which contain the checksum, tell the contents, the condition always holds, also where a block's space is reused before the block is removed. |
| `CachedReads.StaleHit` | src/block/block_ext.c:586-592 | Otherwise, from an empty cache: a block is read and cached, freed, its space rewritten under the same id, the put refused, and before the removal the block is read stale. |
| `CachedReads.CachedFile.Read` | src/block/block_read.c:215-310 | A lookup, and the read of the file if it fails, do the step Hit or ReadFile; which of them is exact. |
| `CachedReads.CachedFile.PutPending` | src/block/block_cache.c:398-530 | Putting what was read or written into the cache does the step Store, and stores it exactly if the cache takes it; for a write it is what makes the block readable. |
| `CachedReads.CachedFile.Remove` | src/block/block_cache.c:536-583 | Removing a block does the step Forget. |
| `CachedReads.CachedFile.Sweep` | src/block/block_cache.c:236-263 | Sweeping a bucket does the step Forget for the blocks it evicts, which were held and old enough, and none while there is room. |
| `Compaction.Compact.Start` | src/block/block_compact.c:17-32 | Compaction is one more operation that wants first-fit allocation, and its counters start at zero. |
| `Compaction.Compact.Stop` | src/block/block_compact.c:39-52 | First-fit allocation lasts as long as another operation wants it. |
| `Compaction.Compact.Skip` | src/block/block_compact.c:100-179 | The exact decision: the last fifth of a file over a megabyte is emptied if more than a megabyte, and at least as much as that fifth, is available before it, else the last tenth likewise, else the file is skipped. |
| `Compaction.StartingIs` | src/block/block_compact.c:130-150 | What is available before an offset are exactly the extents that start there. |
| `Compaction.Compact.PageSkip` | src/block/block_compact.c:185-215 | A page is skipped exactly if it is not in that part or no available extent before it has room. |
| `Compaction.Compact.Review` | src/block/block_compact.c:221-245 | Every page reviewed is counted as skipped or rewritten. |
| `Compaction.Compact.Rewrite` | src/block/block_compact.c:251-315 | A page that is not skipped gets a strictly smaller offset, with the same size and contents; nothing else in the file changes and the file does not grow. |
| `Compaction.Compact.RewritePage` | src/block/block_compact.c:251-315 | The same from and to the address cookie: the new one has the new offset and the same size and checksum. |
| `Compaction.Compact.Walk` | src/btree/bt_compact.c:294-370 | One walk over a tree's pages: every page keeps its size and contents, the pages stay blocks of the tree that overlap nowhere, and the sum of their offsets falls by at least the number of rewrites; without a rewrite nothing was worth one. |
| `Compaction.Compact.CompactTree` | src/block/block_compact.c:251-315 | Walking until nothing is worth rewriting ends, after no more rewrites than the sum of the offsets falls by; every page has its size and contents and the file has not grown. |

## Left out

- Files of several objects (tiered storage), salvage and verify: the model is of a single writable file.
- Skiplists: an extent list is a sequence in offset order; the by-size list, the cached last extent and the search stacks are not modelled, only what the searches find.
- I/O errors: a step either happens or does not, except that writing a checkpoint may fail, and panic, at any point.
- The wrap-around of 64-bit byte counts and 32-bit cache counters: these numbers are unbounded. File sizes are too, but a file is opened, and a checkpoint written in it, only below 2^63 bytes, where offsets are signed 64-bit numbers.
- BlockManager.Block.WriteCheckpoint: where a bitmap has no room for a block a diagnostic build stops at an assertion; the model writes the rest and is unusable from then on. What may have been written by then is what the step DoFail allows for any point. The root page is given by its length and its checksum. A build without assertions is not modelled there.
- BackupBitmap.BlockMods.AddEntry: a build without assertions sets bits past the end of a bitmap without room; the model sets none.
- BlockManager.Block.FinishCheckpoint: the text of the checkpoint list and the metadata on the avail list's page are given by the caller. The checksum of a page is taken of what is on it, not of its headers. The file size in the cookie on that page is the present one where the source has that of the checkpoint before; the repair replaces it in either case.
- Catalog.PackWhere: a checkpoint whose numbers do not fit the fields of a cookie gets an empty one; the source cuts the numbers off.
- Recovery.RecoversLast: assumes of the file that blocks which read correctly as pages of the block manager are pages it wrote, and that none lies across the start of the one looked for.
- BlockManager.ReadEntries: reads the lists of all checkpoints, where the source reads those a deletion needs, and their avail lists, which the source leaves alone, so that what is read stands for the whole checkpoint.
- ListCodec.ReadList: what the lists become after an odd pair (`Odd`) is not modelled; a sum past 2^63 is taken to wrap around. Bytes past the end of a page read as zero.
- Names of checkpoints and how the metadata chooses the ones to delete: any choice of deletions is covered.
- Checksums and hashes: functions nothing is assumed about. Byte order: values are written little-endian where the source writes them so, and never swapped.
- The cache on NVRAM, its statistics, reference histograms, file-size estimate (a parameter) and the unsynchronised updates of its approximate counters.
- BlockCache.Cache.SweepPass: the buckets are swept one after the other without other operations in between; `BlockCache.Cache.SweepBucket` holds for any interleaving.
- The reset of the flag that a file was created during a backup, and how bitmaps are stored in the metadata.
- BlockManager.Block.SaveMetadata: the caller's step, which the block manager does not see; it is a change of the record of what is durable and nothing else.
- Memory-mapped reads and preloading, the dispatch table of `block_mgr.c`, verbose and dump output, statistics.
- Time: the sleeping of the eviction thread; a sweep is a step.
