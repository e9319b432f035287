/** The block cache: a hash table of block images with per-bucket counters, and the sweep that ages
and evicts them. */
module BlockCache {
  import Arithmetic
  import opened IntPack

  const MINREF_INCREMENT := 20
  const MINREF_START := 1000

  /** What identifies a block. */
  datatype Id = Id(fid: nat, checksum: nat, size: nat, offset: nat)

  datatype Item = Item(id: Id, data: bytes, refs: nat, counter: int)

  datatype Counts = Counts(blocks: int, bytes: int)

  datatype Outcome = Found | Absent | Full | Bypass

  // ---- The table and what it holds ----

  function Slot(hash: Id -> nat, n: nat, id: Id): nat
    requires 0 < n
  {
    hash(id) % n
  }

  ghost function SumBytes(bucket: seq<Item>): nat {
    if bucket == [] then 0 else bucket[0].id.size + SumBytes(bucket[1..])
  }

  ghost function SumBlocks(counts: seq<Counts>): int {
    if counts == [] then 0 else SumBlocks(counts[..|counts| - 1]) + counts[|counts| - 1].blocks
  }

  ghost function SumUsed(counts: seq<Counts>): int {
    if counts == [] then 0 else SumUsed(counts[..|counts| - 1]) + counts[|counts| - 1].bytes
  }

  ghost predicate InBucket(bucket: seq<Item>, id: Id) {
    exists i :: 0 <= i < |bucket| && bucket[i].id == id
  }

  /** An item is as held, and was visited by the sweep, since it was inserted or last hit, at least
      as often as its counter has fallen below 1. */
  ghost predicate ItemOk(item: Item, held: map<Id, bytes>, visits: map<Id, nat>) {
    && item.id in held && held[item.id] == item.data
    && 0 < item.id.size == |item.data|
    && item.id in visits && item.counter + visits[item.id] >= 1
  }

  /** A bucket holds exactly the blocks whose hash selects it, each once. */
  ghost predicate BucketOk(hash: Id -> nat, n: nat, b: nat, bucket: seq<Item>, held: map<Id, bytes>, visits: map<Id,
                           nat>)
    requires 0 < n
  {
    && (forall i | 0 <= i < |bucket| :: Slot(hash, n, bucket[i].id) == b && ItemOk(bucket[i], held, visits))
    && (forall i, j | 0 <= i < j < |bucket| :: bucket[i].id != bucket[j].id)
    && (forall id | id in held && Slot(hash, n, id) == b :: InBucket(bucket, id))
  }

  ghost predicate Counted(bucket: seq<Item>, c: Counts) {
    c == Counts(|bucket|, SumBytes(bucket))
  }

  /** Two contents agree on everything but one slot. */
  ghost predicate SameElsewhere(hash: Id -> nat, n: nat, b: nat, held: map<Id, bytes>, visits: map<Id, nat>,
                                held': map<Id, bytes>, visits': map<Id, nat>)
    requires 0 < n
  {
    forall id | Slot(hash, n, id) != b ::
      && (id in held' <==> id in held) && (id in visits' <==> id in visits)
      && (id in held ==> held'[id] == held[id]) && (id in visits ==> visits'[id] == visits[id])
  }

  lemma BucketStays(hash: Id -> nat, n: nat, b: nat, c: nat, bucket: seq<Item>, held: map<Id, bytes>,
                    visits: map<Id, nat>,
                    held': map<Id, bytes>, visits': map<Id, nat>)
    requires 0 < n && c != b && BucketOk(hash, n, c, bucket, held, visits)
    requires SameElsewhere(hash, n, b, held, visits, held', visits')
    ensures BucketOk(hash, n, c, bucket, held', visits')
  {
  }

  lemma Replaced(hash: Id -> nat, n: nat, b: nat, bucket: seq<Item>, i: nat, item: Item, v: nat,
                 held: map<Id, bytes>, visits: map<Id, nat>)
    requires 0 < n && BucketOk(hash, n, b, bucket, held, visits) && i < |bucket| && item.id == bucket[i].id
    requires |item.data| == item.id.size && item.counter + v >= 1
    ensures BucketOk(hash, n, b, bucket[i := item], held[item.id := item.data], visits[item.id := v])
    ensures SameElsewhere(hash, n, b, held, visits, held[item.id := item.data], visits[item.id := v])
  {
    forall id | id in held && Slot(hash, n, id) == b ensures InBucket(bucket[i := item], id) {
      var k :| 0 <= k < |bucket| && bucket[k].id == id;
      assert bucket[i := item][k].id == id;
    }
  }

  lemma Removed(hash: Id -> nat, n: nat, b: nat, bucket: seq<Item>, i: nat, held: map<Id, bytes>, visits: map<Id, nat>)
    requires 0 < n && BucketOk(hash, n, b, bucket, held, visits) && i < |bucket|
    ensures BucketOk(hash, n, b, bucket[..i] + bucket[i + 1..], held - {bucket[i].id}, visits - {bucket[i].id})
    ensures SameElsewhere(hash, n, b, held, visits, held - {bucket[i].id}, visits - {bucket[i].id})
    ensures bucket[i].id in held && |held - {bucket[i].id}| == |held| - 1
  {
    RemovedHere(hash, n, b, bucket, i, held, visits);
    hide BucketOk;
    RemovedItems(hash, n, b, bucket, i, held, visits);
    KeysLess(held, bucket[i].id);
  }

  lemma RemovedHere(hash: Id -> nat, n: nat, b: nat, bucket: seq<Item>, i: nat, held: map<Id, bytes>,
                    visits: map<Id, nat>)
    requires 0 < n && BucketOk(hash, n, b, bucket, held, visits) && i < |bucket|
    ensures bucket[i].id in held && Slot(hash, n, bucket[i].id) == b
  {
    hide Slot, InBucket;
    assert ItemOk(bucket[i], held, visits);
  }

  /** Where an item of a bucket is once another one is gone. */
  function After(i: nat, k: nat): nat {
    if k < i then k else k + 1
  }

  lemma LessOne(bucket: seq<Item>, i: nat)
    requires i < |bucket|
    ensures var bucket' := bucket[..i] + bucket[i + 1..];
            && |bucket'| == |bucket| - 1
            && (forall k | 0 <= k < |bucket'| :: bucket'[k] == bucket[After(i, k)])
            && forall id | id != bucket[i].id && InBucket(bucket, id) :: InBucket(bucket', id)
  {
    var bucket' := bucket[..i] + bucket[i + 1..];
    forall id | id != bucket[i].id && InBucket(bucket, id) ensures InBucket(bucket', id) {
      var k :| 0 <= k < |bucket| && bucket[k].id == id;
      assert bucket'[if k < i then k else k - 1].id == id;
    }
  }

  lemma RemovedItems(hash: Id -> nat, n: nat, b: nat, bucket: seq<Item>, i: nat, held: map<Id, bytes>,
                     visits: map<Id, nat>)
    requires 0 < n && BucketOk(hash, n, b, bucket, held, visits) && i < |bucket|
    ensures BucketOk(hash, n, b, bucket[..i] + bucket[i + 1..], held - {bucket[i].id}, visits - {bucket[i].id})
  {
    hide Slot, InBucket;
    var id, bucket' := bucket[i].id, bucket[..i] + bucket[i + 1..];
    LessOne(bucket, i);
    forall k | 0 <= k < |bucket'|
      ensures Slot(hash, n, bucket'[k].id) == b && ItemOk(bucket'[k], held - {id}, visits - {id})
    {
      var j := After(i, k);
      assert bucket'[k] == bucket[j] && bucket[j].id != id && ItemOk(bucket[j], held, visits);
    }
    forall k, l | 0 <= k < l < |bucket'| ensures bucket'[k].id != bucket'[l].id {
      assert After(i, k) < After(i, l);
    }
  }

  lemma KeysLess<K, V>(m: map<K, V>, k: K)
    requires k in m
    ensures |m - {k}| == |m| - 1
  {
  }

  lemma Inserted(hash: Id -> nat, n: nat, b: nat, bucket: seq<Item>, item: Item, v: nat, held: map<Id, bytes>,
                 visits: map<Id, nat>)
    requires 0 < n && BucketOk(hash, n, b, bucket, held, visits) && Slot(hash, n, item.id) == b && item.id !in held
    requires 0 < item.id.size == |item.data| && item.counter + v >= 1
    ensures BucketOk(hash, n, b, [item] + bucket, held[item.id := item.data], visits[item.id := v])
    ensures SameElsewhere(hash, n, b, held, visits, held[item.id := item.data], visits[item.id := v])
    ensures |held[item.id := item.data]| == |held| + 1
  {
    var bucket' := [item] + bucket;
    forall id | id in held[item.id := item.data] && Slot(hash, n, id) == b ensures InBucket(bucket', id) {
      if id != item.id {
        var k :| 0 <= k < |bucket| && bucket[k].id == id;
        assert bucket'[k + 1].id == id;
      } else {
        assert bucket'[0].id == id;
      }
    }
    KeysMore(held, item.id, item.data);
  }

  lemma KeysMore<K, V>(m: map<K, V>, k: K, v: V)
    requires k !in m
    ensures |m[k := v]| == |m| + 1
  {
  }

  lemma {:induction false} BytesWithout(bucket: seq<Item>, i: nat)
    requires i < |bucket|
    ensures SumBytes(bucket[..i] + bucket[i + 1..]) == SumBytes(bucket) - bucket[i].id.size
  {
    if i == 0 {
      assert bucket[..0] + bucket[1..] == bucket[1..];
    } else {
      BytesWithout(bucket[1..], i - 1);
      var rest := bucket[..i] + bucket[i + 1..];
      assert rest[1..] == bucket[1..][..i - 1] + bucket[1..][i..];
    }
  }

  lemma {:induction false} BytesSame(bucket: seq<Item>, i: nat, item: Item)
    requires i < |bucket| && item.id == bucket[i].id
    ensures SumBytes(bucket[i := item]) == SumBytes(bucket)
  {
    if i > 0 {
      BytesSame(bucket[1..], i - 1, item);
      assert bucket[i := item][1..] == bucket[1..][i - 1 := item];
    } else {
      assert bucket[i := item][1..] == bucket[1..];
    }
  }

  lemma {:induction false} SumsChange(counts: seq<Counts>, b: nat, c: Counts)
    requires b < |counts|
    ensures SumBlocks(counts[b := c]) == SumBlocks(counts) - counts[b].blocks + c.blocks
    ensures SumUsed(counts[b := c]) == SumUsed(counts) - counts[b].bytes + c.bytes
  {
    var last := |counts| - 1;
    if b == last {
      assert counts[b := c][..last] == counts[..last];
    } else {
      SumsChange(counts[..last], b, c);
      assert counts[b := c][..last] == counts[..last][b := c];
    }
  }

  /** Every block sits, once, in the bucket its hash selects, as it is held; each bucket's counters
      count it; together they count all that is held. */
  ghost predicate Table(hash: Id -> nat, n: nat, buckets: seq<seq<Item>>, counts: seq<Counts>,
                        held: map<Id, bytes>, visits: map<Id, nat>) {
    && 0 < n == |buckets| == |counts|
    && (forall b | 0 <= b < n :: BucketOk(hash, n, b, buckets[b], held, visits))
    && (forall b | 0 <= b < n :: Counted(buckets[b], counts[b]))
    && SumBlocks(counts) == |held| && visits.Keys == held.Keys
  }

  /** Changing one bucket, and what is held of it, keeps the table. */
  lemma TableChange(hash: Id -> nat, n: nat, buckets: seq<seq<Item>>, counts: seq<Counts>,
                    held: map<Id, bytes>, visits: map<Id, nat>,
                    b: nat, bucket: seq<Item>, c: Counts, held': map<Id, bytes>, visits': map<Id, nat>)
    requires Table(hash, n, buckets, counts, held, visits) && b < n
    requires BucketOk(hash, n, b, bucket, held', visits') && Counted(bucket, c)
    requires SameElsewhere(hash, n, b, held, visits, held', visits')
    requires |held'| - |held| == |bucket| - |buckets[b]| && visits'.Keys == held'.Keys
    ensures Table(hash, n, buckets[b := bucket], counts[b := c], held', visits')
  {
    assert Counted(buckets[b], counts[b]);
    hide BucketOk, SumBytes, SumBlocks, SameElsewhere;
    SumsChange(counts, b, c);
    var buckets' := buckets[b := bucket];
    forall k | 0 <= k < n ensures BucketOk(hash, n, k, buckets'[k], held', visits') {
      if k != b {
        BucketStays(hash, n, b, k, buckets[k], held, visits, held', visits');
      }
    }
  }

  lemma TableSet(hash: Id -> nat, n: nat, buckets: seq<seq<Item>>, counts: seq<Counts>,
                 held: map<Id, bytes>, visits: map<Id, nat>, b: nat, i: nat, item: Item, v: nat)
    requires Table(hash, n, buckets, counts, held, visits) && b < n && i < |buckets[b]|
    requires item.id == buckets[b][i].id && |item.data| == item.id.size && item.counter + v >= 1
    ensures Table(hash, n, buckets[b := buckets[b][i := item]], counts, held[item.id := item.data],
                  visits[item.id := v])
    ensures item.id in held && |held[item.id := item.data]| == |held|
  {
    TableBucket(hash, n, buckets, counts, held, visits, b);
    hide Table, BucketOk;
    Replaced(hash, n, b, buckets[b], i, item, v, held, visits);
    BytesSame(buckets[b], i, item);
    var held' := held[item.id := item.data];
    assert held'.Keys == held.Keys && |held'.Keys| == |held'| && |held.Keys| == |held|;
    TableChange(hash, n, buckets, counts, held, visits, b, buckets[b][i := item], counts[b], held',
                visits[item.id := v]);
    assert counts[b := counts[b]] == counts;
  }

  lemma TableDrop(hash: Id -> nat, n: nat, buckets: seq<seq<Item>>, counts: seq<Counts>,
                  held: map<Id, bytes>, visits: map<Id, nat>, b: nat, i: nat)
    requires Table(hash, n, buckets, counts, held, visits) && b < n && i < |buckets[b]|
    ensures var id := buckets[b][i].id;
            && id in held && id in visits && |held - {id}| == |held| - 1 && |counts| == n
            && Table(hash, n, buckets[b := buckets[b][..i] + buckets[b][i + 1..]],
                     counts[b := Counts(counts[b].blocks - 1, counts[b].bytes - id.size)], held - {id}, visits - {id})
  {
    hide Table, BucketOk, SameElsewhere, SumBytes;
    TableBucket(hash, n, buckets, counts, held, visits, b);
    var id, bucket' := buckets[b][i].id, buckets[b][..i] + buckets[b][i + 1..];
    SameKeys(held, visits, id);
    Removed(hash, n, b, buckets[b], i, held, visits);
    BytesWithout(buckets[b], i);
    TableChange(hash, n, buckets, counts, held, visits, b, bucket',
                Counts(counts[b].blocks - 1, counts[b].bytes - id.size), held - {id}, visits - {id});
  }

  lemma SameKeys(held: map<Id, bytes>, visits: map<Id, nat>, id: Id)
    requires held.Keys == visits.Keys
    ensures (held - {id}).Keys == (visits - {id}).Keys
  {
  }

  lemma TableInsert(hash: Id -> nat, n: nat, buckets: seq<seq<Item>>, counts: seq<Counts>,
                    held: map<Id, bytes>, visits: map<Id, nat>, b: nat, item: Item)
    requires Table(hash, n, buckets, counts, held, visits) && b < n == |buckets| && b == Slot(hash, n, item.id)
    requires item.id !in held && 0 < item.id.size == |item.data| && item.counter >= 1
    ensures |held[item.id := item.data]| == |held| + 1 && |counts| == n
    ensures Table(hash, n, buckets[b := [item] + buckets[b]],
                  counts[b := Counts(counts[b].blocks + 1, counts[b].bytes + item.id.size)],
                  held[item.id := item.data], visits[item.id := 0])
  {
    TableBucket(hash, n, buckets, counts, held, visits, b);
    hide Table, BucketOk;
    Inserted(hash, n, b, buckets[b], item, 0, held, visits);
    assert ([item] + buckets[b])[1..] == buckets[b];
    TableChange(hash, n, buckets, counts, held, visits, b, [item] + buckets[b],
                Counts(counts[b].blocks + 1, counts[b].bytes + item.id.size), held[item.id := item.data],
                    visits[item.id := 0]);
  }

  /** What the table says of one bucket. */
  lemma BucketItem(hash: Id -> nat, n: nat, b: nat, bucket: seq<Item>, held: map<Id, bytes>,
                   visits: map<Id, nat>, i: nat)
    requires 0 < n && BucketOk(hash, n, b, bucket, held, visits) && i < |bucket|
    ensures ItemOk(bucket[i], held, visits) && Slot(hash, n, bucket[i].id) == b
  {
    hide Slot, ItemOk, InBucket;
  }

  lemma TableHas(hash: Id -> nat, n: nat, buckets: seq<seq<Item>>, counts: seq<Counts>,
                 held: map<Id, bytes>, visits: map<Id, nat>)
    requires Table(hash, n, buckets, counts, held, visits)
    ensures 0 < n == |buckets| == |counts| && visits.Keys == held.Keys
  {
  }

  lemma TableBucket(hash: Id -> nat, n: nat, buckets: seq<seq<Item>>, counts: seq<Counts>,
                    held: map<Id, bytes>, visits: map<Id, nat>, b: nat)
    requires Table(hash, n, buckets, counts, held, visits) && b < n
    ensures |buckets| == |counts| == n && visits.Keys == held.Keys
    ensures BucketOk(hash, n, b, buckets[b], held, visits) && Counted(buckets[b], counts[b])
  {
  }

  // ---- The sweep of one bucket ----

  predicate HighOverhead(lookups: nat, ops: nat, pct: nat) {
    lookups > ops && ops * 100 / lookups > pct
  }

  /** Without the division: inserts and removals are more than a percentage of the lookups, by a whole
      percent, and fewer than those. */
  lemma OverheadIff(lookups: nat, ops: nat, pct: nat)
    ensures HighOverhead(lookups, ops, pct) <==> ops < lookups && (pct + 1) * lookups <= 100 * ops
  {
    if ops < lookups {
      Arithmetic.AtLeastOver(ops * 100, lookups, pct + 1);
    }
  }

  /** What a sweep does not change; blocks are kept for this many seconds without a hit. */
  datatype Env = Env(aggressive: nat, bytesUsed: nat, fullTarget: nat, lookups: nat, inserts: nat, pct: nat)

  /** The sweep's progress: the items kept, and whether all others were evicted or too recent. */
  datatype Pass = Pass(kept: seq<Item>, minRefs: nat, removals: nat, none: bool)

  predicate Unused(env: Env, item: Item) {
    item.counter + env.aggressive < 0
  }

  /** Whether to evict an item, the smallest number of references seen, and whether the item is no
      candidate. */
  datatype Verdict = Verdict(evict: bool, minRefs: nat, recent: bool)

  function Judge(env: Env, minRefs: nat, removals: nat, item: Item): Verdict {
    var m := if Unused(env, item) && item.refs < minRefs then item.refs else minRefs;
    if env.bytesUsed < env.fullTarget || HighOverhead(env.lookups, env.inserts + removals, env.pct) then
      Verdict(false, m, false)
    else if Unused(env, item) && item.refs < m + MINREF_INCREMENT then
      Verdict(true, m, false)
    else
      Verdict(false, m, true)
  }

  function Visit(env: Env, p: Pass, item: Item): Pass {
    var v := Judge(env, p.minRefs, p.removals, item);
    Pass(p.kept + (if v.evict then [] else [item.(counter := item.counter - 1)]), v.minRefs,
         p.removals + (if v.evict then 1 else 0), p.none && (v.evict || v.recent))
  }

  /** The first k items of a bucket visited. */
  function Swept(env: Env, bucket: seq<Item>, k: nat, p: Pass): Pass
    requires k <= |bucket|
  {
    if k == 0 then p else Visit(env, Swept(env, bucket, k - 1, p), bucket[k - 1])
  }

  predicate Evicts(env: Env, p: Pass, item: Item) {
    Visit(env, p, item).kept == p.kept
  }

  lemma {:induction false} MinRefsFall(env: Env, bucket: seq<Item>, k: nat, p: Pass, i: nat)
    requires i < k <= |bucket| && Unused(env, bucket[i])
    ensures Swept(env, bucket, k, p).minRefs <= bucket[i].refs
  {
    if i < k - 1 {
      MinRefsFall(env, bucket, k - 1, p, i);
    }
  }

  /** Whatever is evicted was unused for long enough, and referenced less than the increment more
      often than any such block visited before it. */
  lemma EvictsLeastUsed(env: Env, bucket: seq<Item>, k: nat, p: Pass, i: nat)
    requires i <= k < |bucket| && Evicts(env, Swept(env, bucket, k, p), bucket[k])
    ensures Unused(env, bucket[k])
    ensures Unused(env, bucket[i]) ==> bucket[k].refs < bucket[i].refs + MINREF_INCREMENT
  {
    var q := Swept(env, bucket, k, p);
    assert |Visit(env, q, bucket[k]).kept| == |q.kept|;
    if i < k && Unused(env, bucket[i]) {
      MinRefsFall(env, bucket, k, p, i);
    }
  }

  /** How many of the first k items of a bucket are gone. */
  ghost function Gone(bucket: seq<Item>, k: nat, held: map<Id, bytes>): nat
    requires k <= |bucket|
  {
    if k == 0 then 0 else Gone(bucket, k - 1, held) + if bucket[k - 1].id in held then 0 else 1
  }

  /** Those that are not, in their order, a second older. */
  ghost function Survivors(bucket: seq<Item>, k: nat, held: map<Id, bytes>): seq<Item>
    requires k <= |bucket|
  {
    if k == 0 then [] else
    Survivors(bucket, k - 1, held)
    + if bucket[k - 1].id in held then [bucket[k - 1].(counter := bucket[k - 1].counter - 1)] else []
  }

  /** The least of a number and the references of the unused among the first k items. */
  ghost predicate Least(bucket: seq<Item>, k: nat, aggressive: nat, was: nat, m: nat)
    requires k <= |bucket|
  {
    && m <= was
    && (forall i | 0 <= i < k && bucket[i].counter + aggressive < 0 :: m <= bucket[i].refs)
    && (m == was || exists i :: 0 <= i < k && bucket[i].counter + aggressive < 0 && m == bucket[i].refs)
  }

  /** Evicting is being considered: there is little room, and not too much has come and gone. */
  predicate Pressed(env: Env, removals: nat) {
    env.fullTarget <= env.bytesUsed && !HighOverhead(env.lookups, env.inserts + removals, env.pct)
  }

  ghost predicate KeptAs(env: Env, bucket: seq<Item>, p0: Pass, held: map<Id, bytes>) {
    forall i | 0 <= i < |bucket| ::
      bucket[i].id in held <==> !Judge(env, Swept(env, bucket, i, p0).minRefs, Swept(env, bucket, i, p0).removals,
                                       bucket[i]).evict
  }

  /** Whatever is kept was kept for its own sake. */
  ghost predicate AllPressed(env: Env, bucket: seq<Item>, k: nat, removals: nat, held: map<Id, bytes>)
    requires k <= |bucket|
  {
    forall i | 0 <= i < k && bucket[i].id in held :: Pressed(env, removals + Gone(bucket, i, held))
  }

  lemma AllPressedNext(env: Env, bucket: seq<Item>, k: nat, removals: nat, held: map<Id, bytes>)
    requires k < |bucket|
    ensures AllPressed(env, bucket, k + 1, removals, held) <==>
            && AllPressed(env, bucket, k, removals, held)
            && (bucket[k].id in held ==> Pressed(env, removals + Gone(bucket, k, held)))
  {
    hide Pressed, Gone;
  }

  lemma NotAllPressed(env: Env, bucket: seq<Item>, removals: nat, held: map<Id, bytes>)
    requires !Pressed(env, removals) && forall i | 0 <= i < |bucket| :: bucket[i].id in held
    ensures AllPressed(env, bucket, |bucket|, removals, held) <==> bucket == []
  {
    hide Pressed;
    assert bucket != [] ==> Gone(bucket, 0, held) == 0;
  }

  /** The verdict on an item, by what it depends on. */
  lemma JudgeIs(env: Env, minRefs: nat, removals: nat, item: Item)
    ensures var v := Judge(env, minRefs, removals, item);
            var least := if Unused(env, item) && item.refs < minRefs then item.refs else minRefs;
            && v.minRefs == least && (v.evict || v.recent <==> Pressed(env, removals))
            && (v.evict <==> Pressed(env, removals) && Unused(env, item) && item.refs < least + MINREF_INCREMENT)
  {
    hide HighOverhead;
  }

  lemma VisitIs(env: Env, p: Pass, item: Item, kept: bool)
    requires kept <==> !Judge(env, p.minRefs, p.removals, item).evict
    ensures var q := Visit(env, p, item);
            && q.kept == p.kept + (if kept then [item.(counter := item.counter - 1)] else [])
            && q.minRefs == (if Unused(env, item) && item.refs < p.minRefs then item.refs else p.minRefs)
            && q.removals == p.removals + (if kept then 0 else 1)
            && (q.none <==> p.none && (kept ==> Pressed(env, p.removals)))
  {
    hide HighOverhead, Unused;
    JudgeIs(env, p.minRefs, p.removals, item);
  }

  lemma SweptNone(env: Env, bucket: seq<Item>, p0: Pass, held: map<Id, bytes>)
    ensures Swept(env, bucket, 0, p0) == p0 && AllPressed(env, bucket, 0, p0.removals, held)
    ensures Least(bucket, 0, env.aggressive, p0.minRefs, p0.minRefs)
  {
  }

  lemma KeptAt(env: Env, bucket: seq<Item>, p0: Pass, held: map<Id, bytes>, i: nat)
    requires KeptAs(env, bucket, p0, held) && i < |bucket|
    ensures bucket[i].id in held <==> !Judge(env, Swept(env, bucket, i, p0).minRefs,
                                             Swept(env, bucket, i, p0).removals, bucket[i]).evict
  {
    hide Judge, Swept;
  }

  lemma SweptStep(env: Env, bucket: seq<Item>, k: nat, p0: Pass)
    requires k < |bucket|
    ensures Swept(env, bucket, k + 1, p0) == Visit(env, Swept(env, bucket, k, p0), bucket[k])
  {
    hide Visit;
  }

  /** What the sweep of some items has come to, told by which of them are still held. */
  lemma {:induction false} SweptMeans(env: Env, bucket: seq<Item>, k: nat, p0: Pass, held: map<Id, bytes>)
    requires p0.kept == [] && k <= |bucket| && KeptAs(env, bucket, p0, held)
    ensures var p := Swept(env, bucket, k, p0);
            && p.kept == Survivors(bucket, k, held) && p.removals == p0.removals + Gone(bucket, k, held)
            && Least(bucket, k, env.aggressive, p0.minRefs, p.minRefs)
            && (p.none <==> p0.none && AllPressed(env, bucket, k, p0.removals, held))
  {
    hide Visit, Judge, Swept, Pressed, AllPressed, Least, Unused, KeptAs;
    if k == 0 {
      SweptNone(env, bucket, p0, held);
    } else {
      SweptMeans(env, bucket, k - 1, p0, held);
      var item, q := bucket[k - 1], Swept(env, bucket, k - 1, p0);
      SweptStep(env, bucket, k - 1, p0);
      KeptAt(env, bucket, p0, held, k - 1);
      VisitIs(env, q, item, item.id in held);
      LeastNext(bucket, k - 1, env, p0.minRefs, q.minRefs);
      AllPressedNext(env, bucket, k - 1, p0.removals, held);
    }
  }

  lemma LeastNext(bucket: seq<Item>, k: nat, env: Env, was: nat, m: nat)
    requires k < |bucket| && Least(bucket, k, env.aggressive, was, m)
    ensures Least(bucket, k + 1, env.aggressive, was,
                  if Unused(env, bucket[k]) && bucket[k].refs < m then bucket[k].refs else m)
  {
    if !(Unused(env, bucket[k]) && bucket[k].refs < m) && m != was {
      var i :| 0 <= i < k && bucket[i].counter + env.aggressive < 0 && m == bucket[i].refs;
      assert i < k + 1;
    }
  }

  /** A block goes exactly if evicting is being considered, and it is unused and little referenced. */
  lemma GoneIff(env: Env, bucket: seq<Item>, k: nat, p0: Pass, held: map<Id, bytes>)
    requires p0.kept == [] && k < |bucket| && KeptAs(env, bucket, p0, held)
    ensures bucket[k].id !in held <==>
            && Pressed(env, p0.removals + Gone(bucket, k, held)) && bucket[k].counter + env.aggressive < 0
            && bucket[k].refs < p0.minRefs + MINREF_INCREMENT
            && forall i | 0 <= i <= k && bucket[i].counter + env.aggressive < 0 ::
                 bucket[k].refs < bucket[i].refs + MINREF_INCREMENT
  {
    hide Visit, Judge, Swept, Pressed, AllPressed, Survivors, Gone;
    SweptMeans(env, bucket, k, p0, held);
    var q := Swept(env, bucket, k, p0);
    JudgeIs(env, q.minRefs, q.removals, bucket[k]);
    if Unused(env, bucket[k]) {
      LeastBelow(bucket, k, env, p0.minRefs, q.minRefs);
    }
  }

  /** The same for every item, in the terms of the cache. */
  lemma AllGoneIff(bytesUsed: nat, fullTarget: nat, lookups: nat, inserts: nat, pct: nat, aggressive: nat,
                   bucket: seq<Item>, p0: Pass, held: map<Id, bytes>)
    requires p0.kept == [] && KeptAs(Env(aggressive, bytesUsed, fullTarget, lookups, inserts, pct), bucket, p0, held)
    ensures forall k | 0 <= k < |bucket| ::
              bucket[k].id !in held <==>
              && fullTarget <= bytesUsed
              && !HighOverhead(lookups, inserts + (p0.removals + Gone(bucket, k, held)), pct)
              && bucket[k].counter + aggressive < 0
              && bucket[k].refs < p0.minRefs + MINREF_INCREMENT
              && forall i | 0 <= i <= k && bucket[i].counter + aggressive < 0 ::
                   bucket[k].refs < bucket[i].refs + MINREF_INCREMENT
    ensures AllPressed(Env(aggressive, bytesUsed, fullTarget, lookups, inserts, pct), bucket, |bucket|, p0.removals,
                       held)
            <==> forall k | 0 <= k < |bucket| && bucket[k].id in held ::
                   && fullTarget <= bytesUsed
                   && !HighOverhead(lookups, inserts + (p0.removals + Gone(bucket, k, held)), pct)
  {
    hide HighOverhead, Gone, KeptAs;
    var env := Env(aggressive, bytesUsed, fullTarget, lookups, inserts, pct);
    forall k | 0 <= k < |bucket|
      ensures bucket[k].id !in held <==>
              && fullTarget <= bytesUsed
              && !HighOverhead(lookups, inserts + (p0.removals + Gone(bucket, k, held)), pct)
              && bucket[k].counter + aggressive < 0
              && bucket[k].refs < p0.minRefs + MINREF_INCREMENT
              && forall i | 0 <= i <= k && bucket[i].counter + aggressive < 0 ::
                   bucket[k].refs < bucket[i].refs + MINREF_INCREMENT
    {
      GoneIff(env, bucket, k, p0, held);
    }
  }

  /** Being less than the least is being less than all. */
  lemma LeastBelow(bucket: seq<Item>, k: nat, env: Env, was: nat, m: nat)
    requires k < |bucket| && Least(bucket, k, env.aggressive, was, m) && Unused(env, bucket[k])
    ensures var least := if bucket[k].refs < m then bucket[k].refs else m;
            bucket[k].refs < least + MINREF_INCREMENT <==>
            && bucket[k].refs < was + MINREF_INCREMENT
            && forall i | 0 <= i <= k && bucket[i].counter + env.aggressive < 0 ::
                 bucket[k].refs < bucket[i].refs + MINREF_INCREMENT
  {
  }

  /** The items kept are those not evicted. */
  lemma {:induction false} KeptItems(env: Env, bucket: seq<Item>, n: nat, p0: Pass, k: nat)
    requires p0.kept == [] && k < n <= |bucket| && UniqueIds(bucket)
    ensures InBucket(Swept(env, bucket, n, p0).kept, bucket[k].id) <==>
            !Judge(env, Swept(env, bucket, k, p0).minRefs, Swept(env, bucket, k, p0).removals, bucket[k]).evict
  {
    hide Judge;
    var q, item := Swept(env, bucket, n - 1, p0), bucket[n - 1];
    var v := Judge(env, q.minRefs, q.removals, item);
    var more := if v.evict then [] else [item.(counter := item.counter - 1)];
    InEither(q.kept, more, bucket[k].id);
    if k < n - 1 {
      KeptItems(env, bucket, n - 1, p0, k);
    } else {
      KeptBefore(env, bucket, n - 1, p0);
      assert !v.evict ==> more[0].id == item.id;
    }
  }

  lemma InEither(s: seq<Item>, t: seq<Item>, id: Id)
    ensures InBucket(s + t, id) <==> InBucket(s, id) || InBucket(t, id)
  {
    if i :| 0 <= i < |s| && s[i].id == id {
      assert (s + t)[i].id == id;
    }
    if i :| 0 <= i < |t| && t[i].id == id {
      assert (s + t)[|s| + i].id == id;
    }
  }

  lemma KeptBefore(env: Env, bucket: seq<Item>, n: nat, p0: Pass)
    requires p0.kept == [] && n < |bucket| && UniqueIds(bucket)
    ensures !InBucket(Swept(env, bucket, n, p0).kept, bucket[n].id)
  {
    hide Swept;
    if InBucket(Swept(env, bucket, n, p0).kept, bucket[n].id) {
      KeptFrom(env, bucket, n, p0, bucket[n].id);
    }
  }

  lemma {:induction false} KeptFrom(env: Env, bucket: seq<Item>, n: nat, p0: Pass, id: Id)
    requires p0.kept == [] && n <= |bucket| && InBucket(Swept(env, bucket, n, p0).kept, id)
    ensures exists i :: 0 <= i < n && bucket[i].id == id
  {
    hide Judge;
    if n > 0 {
      var q, item := Swept(env, bucket, n - 1, p0), bucket[n - 1];
      var v := Judge(env, q.minRefs, q.removals, item);
      var more := if v.evict then [] else [item.(counter := item.counter - 1)];
      InEither(q.kept, more, id);
      if InBucket(q.kept, id) {
        KeptFrom(env, bucket, n - 1, p0, id);
      } else {
        assert bucket[n - 1].id == id;
      }
    }
  }

  /** After a sweep, what is held of the bucket is what was not evicted. */
  lemma HeldAfter(hash: Id -> nat, n: nat, buckets: seq<seq<Item>>, counts: seq<Counts>, held: map<Id, bytes>,
                  visits: map<Id, nat>, b: nat, env: Env, bucket: seq<Item>, p0: Pass)
    requires Table(hash, n, buckets, counts, held, visits) && b < n && p0.kept == [] && UniqueIds(bucket)
    requires buckets[b] == Swept(env, bucket, |bucket|, p0).kept
    requires forall i | 0 <= i < |bucket| :: Slot(hash, n, bucket[i].id) == b
    ensures KeptAs(env, bucket, p0, held)
  {
    TableBucket(hash, n, buckets, counts, held, visits, b);
    hide Table, Judge, Swept;
    forall k | 0 <= k < |bucket|
      ensures bucket[k].id in held <==> !Judge(env, Swept(env, bucket, k, p0).minRefs,
                                               Swept(env, bucket, k, p0).removals, bucket[k]).evict
    {
      KeptItems(env, bucket, |bucket|, p0, k);
    }
  }

  /** After a sweep visited some blocks: those left are as they were, their visits counted; those
      gone had been visited often enough. */
  ghost predicate Aged(held: map<Id, bytes>, visits: map<Id, nat>, held': map<Id, bytes>, visits': map<Id, nat>,
                       visited: set<Id>, aggressive: nat) {
    && held'.Keys <= held.Keys
    && forall id | id in held :: AgedOne(held, visits, held', visits', id, id in visited, aggressive)
  }

  ghost predicate AgedOne(held: map<Id, bytes>, visits: map<Id, nat>, held': map<Id, bytes>, visits': map<Id, nat>,
                          id: Id, visited: bool, aggressive: nat) {
    && id in held && id in visits
    && if id in held' then
         held'[id] == held[id] && id in visits' && visits'[id] == visits[id] + if visited then 1 else 0
       else
         visited && visits[id] >= aggressive + 2
  }

  /** One visit: the block is gone, or its visit is counted. */
  ghost predicate Moved(held: map<Id, bytes>, visits: map<Id, nat>, held': map<Id, bytes>, visits': map<Id, nat>,
                        id: Id, evicted: bool, aggressive: nat) {
    && id in held && id in visits
    && if evicted then
         visits[id] >= aggressive + 2 && held' == held - {id} && visits' == visits - {id}
       else
         held' == held[id := held[id]] && visits' == visits[id := visits[id] + 1]
  }

  lemma AgedMoved(held: map<Id, bytes>, visits: map<Id, nat>, held1: map<Id, bytes>, visits1: map<Id, nat>,
                  held2: map<Id, bytes>, visits2: map<Id, nat>, visited: set<Id>, id: Id, evicted: bool,
                      aggressive: nat)
    requires Aged(held, visits, held1, visits1, visited, aggressive) && id !in visited
    requires Moved(held1, visits1, held2, visits2, id, evicted, aggressive)
    ensures Aged(held, visits, held2, visits2, visited + {id}, aggressive)
  {
  }

  /** What a sweep leaves, and what has gone. */
  lemma AgedGone(held: map<Id, bytes>, visits: map<Id, nat>, held': map<Id, bytes>, visits': map<Id, nat>,
                 visited: set<Id>, aggressive: nat)
    requires Aged(held, visits, held', visits', visited, aggressive)
    ensures held' == held - (held.Keys - held'.Keys)
    ensures forall id | id in held && id !in held' :: id in visits && visits[id] >= aggressive + 2
  {
    forall id | id in held
      ensures id in held' ==> held'[id] == held[id]
      ensures id !in held' ==> id in visits && visits[id] >= aggressive + 2
    {
      assert AgedOne(held, visits, held', visits', id, id in visited, aggressive);
    }
    assert held' == held - (held.Keys - held'.Keys);
  }

  // ---- The cache ----

  class Cache {
    const hash: Id -> nat
    const hashSize: nat
    const cacheOnWrites: bool
    const cacheOnCheckpoint: bool
    const maxBytes: nat
    const fullTarget: nat
    const overheadPct: nat
    const aggressive: nat

    var configured: bool
    var buckets: seq<seq<Item>>
    var counts: seq<Counts>
    var bytesUsed: nat              // the totals, as of the last aggregation
    var numBlocks: nat
    var lookups: nat
    var inserts: nat
    var removals: nat
    var minRefs: nat

    ghost var held: map<Id, bytes>  // the blocks in the cache
    ghost var visits: map<Id, nat>  // a block's sweep visits since it was inserted or last hit

    constructor (hash: Id -> nat, hashSize: nat, cacheOnWrites: bool, cacheOnCheckpoint: bool, maxBytes: nat,
                 fullTarget: nat, overheadPct: nat, aggressive: nat)
      requires 0 < hashSize
      ensures Valid() && Balanced() && configured && held == map[]
      ensures this.hash == hash && this.hashSize == hashSize && this.aggressive == aggressive
      ensures this.cacheOnWrites == cacheOnWrites && this.cacheOnCheckpoint == cacheOnCheckpoint
      ensures this.maxBytes == maxBytes && this.fullTarget == fullTarget && this.overheadPct == overheadPct
      ensures bytesUsed == numBlocks == lookups == inserts == removals == 0 && minRefs == MINREF_START
    {
      this.hash, this.hashSize := hash, hashSize;
      this.cacheOnWrites, this.cacheOnCheckpoint := cacheOnWrites, cacheOnCheckpoint;
      this.maxBytes, this.fullTarget, this.overheadPct, this.aggressive := maxBytes, fullTarget, overheadPct,
          aggressive;
      configured := true;
      buckets := seq(hashSize, _ => []);
      counts := seq(hashSize, _ => Counts(0, 0));
      bytesUsed, numBlocks, lookups, inserts, removals := 0, 0, 0, 0, 0;
      minRefs := MINREF_START;
      held, visits := map[], map[];
      new;
      NoneCounted(counts);
    }

    ghost predicate Valid()
      reads this
    {
      if configured then 0 < hashSize == |buckets| && Table(hash, hashSize, buckets, counts, held, visits)
      else held == map[] && visits == map[]
    }

    /** Inserts less removals is what is in the cache. */
    ghost predicate Balanced()
      reads this
    {
      inserts - removals == |held|
    }

    method FindItem(b: nat, id: Id) returns (i: nat)
      requires Valid() && configured && b < hashSize && b == Slot(hash, hashSize, id)
      ensures i <= |buckets[b]| && (i < |buckets[b]| <==> id in held)
      ensures i < |buckets[b]| ==> buckets[b][i].id == id
    {
      i := 0;
      TableBucket(hash, hashSize, buckets, counts, held, visits, b);
      hide Table, Counted;
      while i < |buckets[b]| && buckets[b][i].id != id
        invariant i <= |buckets[b]| && forall j | 0 <= j < i :: buckets[b][j].id != id
      {
        i := i + 1;
      }
    }

    method SetItem(b: nat, i: nat, item: Item, ghost v: nat)
      requires Valid() && configured && b < hashSize && i < |buckets[b]| && item.id == buckets[b][i].id
      requires |item.data| == item.id.size && item.counter + v >= 1
      modifies this`buckets, this`held, this`visits
      ensures Valid() && held == old(held)[item.id := item.data] && visits == old(visits)[item.id := v]
      ensures buckets == old(buckets)[b := old(buckets)[b][i := item]]
      ensures item.id in old(held) && |held| == |old(held)|
    {
      hide Table;
      TableSet(hash, hashSize, buckets, counts, held, visits, b, i, item, v);
      held, visits := held[item.id := item.data], visits[item.id := v];
      buckets := buckets[b := buckets[b][i := item]];
    }

    /** Put an item at the head of its list and into the bucket's counters. */
    method InsertItem(b: nat, item: Item)
      requires Valid() && configured && b < hashSize && b == Slot(hash, hashSize, item.id) && item.id !in held
      requires 0 < item.id.size == |item.data| && item.counter >= 1
      modifies this`buckets, this`counts, this`held, this`visits
      ensures Valid() && |held| == |old(held)| + 1
      ensures held == old(held)[item.id := item.data] && visits == old(visits)[item.id := 0]
      ensures b < |old(buckets)| && buckets == old(buckets)[b := [item] + old(buckets)[b]]
    {
      hide Table;
      TableInsert(hash, hashSize, buckets, counts, held, visits, b, item);
      held, visits := held[item.id := item.data], visits[item.id := 0];
      buckets := buckets[b := [item] + buckets[b]];
      counts := counts[b := Counts(counts[b].blocks + 1, counts[b].bytes + item.id.size)];
    }

    /** Take an item off its list and out of the bucket's counters. */
    method DropItem(b: nat, i: nat)
      requires Valid() && configured && b < hashSize && i < |buckets[b]|
      modifies this`buckets, this`counts, this`held, this`visits
      ensures Valid() && buckets == old(buckets)[b := old(buckets)[b][..i] + old(buckets)[b][i + 1..]]
      ensures var id := old(buckets)[b][i].id;
              && id in old(held) && id in old(visits)
              && held == old(held) - {id} && visits == old(visits) - {id} && |held| == |old(held)| - 1
    {
      hide Table;
      var id := buckets[b][i].id;
      TableDrop(hash, hashSize, buckets, counts, held, visits, b, i);
      held, visits := held - {id}, visits - {id};
      buckets := buckets[b := buckets[b][..i] + buckets[b][i + 1..]];
      counts := counts[b := Counts(counts[b].blocks - 1, counts[b].bytes - id.size)];
    }

    /** Look a block up: found exactly if it is held, and then as it is held, its age starting
        anew. */
    method Get(id: Id, bypass: bool) returns (r: Outcome, data: bytes)
      requires Valid()
      modifies this`buckets, this`lookups, this`held, this`visits
      ensures Valid() && held == old(held) && (old(Balanced()) ==> Balanced())
      ensures r == if !configured then Absent else if bypass then Bypass else if id in held then Found else Absent
      ensures if r == Found then data == held[id] && visits == old(visits)[id := 0] else visits == old(visits)
      ensures lookups == old(lookups) + if configured then 1 else 0
      // A block that is found has one reference more, and counts up from zero at least.
      ensures r != Found ==> buckets == old(buckets)
      ensures r == Found ==>
                && 0 < hashSize && Slot(hash, hashSize, id) < |old(buckets)|
                && var b := Slot(hash, hashSize, id);
                   exists i | 0 <= i < |old(buckets)[b]| && old(buckets)[b][i].id == id ::
                     var item := old(buckets)[b][i];
                     buckets == old(buckets)[b := old(buckets)[b][i := item.(
                       refs := item.refs + 1, counter := 1 + if item.counter < 0 then 0 else item.counter)]]
    {
      hide Table, Counted, BucketOk;
      data := [];
      if !configured {
        return Absent, data;
      }
      lookups := lookups + 1;
      if bypass {
        return Bypass, data;
      }
      TableHas(hash, hashSize, buckets, counts, held, visits);
      var b := Slot(hash, hashSize, id);
      var i := FindItem(b, id);
      if i < |buckets[b]| {
        var item := buckets[b][i];
        TableBucket(hash, hashSize, buckets, counts, held, visits, b);
        BucketItem(hash, hashSize, b, buckets[b], held, visits, i);
        var c := if item.counter < 0 then 0 else item.counter;
        SetItem(b, i, item.(refs := item.refs + 1, counter := c + 1), 0);
        assert old(buckets)[b][i] == item;
        return Found, item.data;
      }
      return Absent, data;
    }

    /** Put a block in: a block that is held already is overwritten only on a write. */
    method Put(id: Id, data: bytes, checkpointIo: bool, write: bool, bypass: bool) returns (r: Outcome)
      requires Valid() && 0 < id.size == |data|
      modifies this`buckets, this`counts, this`inserts, this`held, this`visits
      ensures Valid() && (old(Balanced()) ==> Balanced())
      ensures r == if !configured || (write && !cacheOnWrites) then Absent
                   else if maxBytes <= bytesUsed then Full
                   else if bypass || (checkpointIo && !cacheOnCheckpoint)
                           || HighOverhead(lookups, old(inserts) + removals, overheadPct) then Bypass
                   else Found
      ensures r != Found ==> held == old(held) && visits == old(visits) && buckets == old(buckets)
      ensures inserts == old(inserts) + if r == Found && id !in old(held) then 1 else 0
      // A new block starts without references and with a count of one, at the head of its list; one that is
      // there keeps both.
      ensures r == Found ==> 0 < hashSize && Slot(hash, hashSize, id) < |old(buckets)|
      ensures r == Found && id !in old(held) ==>
                var b := Slot(hash, hashSize, id);
                buckets == old(buckets)[b := [Item(id, data, 0, 1)] + old(buckets)[b]]
      ensures r == Found && id in old(held) && !write ==> buckets == old(buckets)
      ensures r == Found && id in old(held) && write ==>
                var b := Slot(hash, hashSize, id);
                exists i | 0 <= i < |old(buckets)[b]| && old(buckets)[b][i].id == id ::
                  buckets == old(buckets)[b := old(buckets)[b][i := old(buckets)[b][i].(data := data)]]
      ensures r == Found && id in old(held) ==>
                held == (if write then old(held)[id := data] else old(held)) && visits == old(visits)
      ensures r == Found && id !in old(held) ==> held == old(held)[id := data] && visits == old(visits)[id := 0]
    {
      hide Table, HighOverhead;
      if !configured || (write && !cacheOnWrites) {
        return Absent;
      }
      if bytesUsed >= maxBytes {
        return Full;
      }
      if bypass || (!cacheOnCheckpoint && checkpointIo) || HighOverhead(lookups, inserts + removals, overheadPct) {
        return Bypass;
      }
      Place(id, data, write);
      return Found;
    }

    method Place(id: Id, data: bytes, write: bool)
      requires Valid() && configured && 0 < id.size == |data|
      modifies this`buckets, this`counts, this`inserts, this`held, this`visits
      ensures Valid() && inserts == old(inserts) + if id in old(held) then 0 else 1
      ensures |held| - |old(held)| == inserts - old(inserts)
      ensures id in old(held) ==> held == (if write then old(held)[id := data] else old(held)) && visits == old(visits)
      ensures id !in old(held) ==> held == old(held)[id := data] && visits == old(visits)[id := 0]
      ensures 0 < hashSize && Slot(hash, hashSize, id) < |old(buckets)|
      ensures id !in old(held) ==>
                var b := Slot(hash, hashSize, id);
                buckets == old(buckets)[b := [Item(id, data, 0, 1)] + old(buckets)[b]]
      ensures id in old(held) && !write ==> buckets == old(buckets)
      ensures id in old(held) && write ==>
                var b := Slot(hash, hashSize, id);
                exists i | 0 <= i < |old(buckets)[b]| && old(buckets)[b][i].id == id ::
                  buckets == old(buckets)[b := old(buckets)[b][i := old(buckets)[b][i].(data := data)]]
    {
      hide Table, Counted, BucketOk;
      TableHas(hash, hashSize, buckets, counts, held, visits);
      var b := Slot(hash, hashSize, id);
      var i := FindItem(b, id);
      TableBucket(hash, hashSize, buckets, counts, held, visits, b);
      if i < |buckets[b]| {
        if write {
          BucketItem(hash, hashSize, b, buckets[b], held, visits, i);
          SetItem(b, i, buckets[b][i].(data := data), visits[id]);
          assert visits == old(visits);
        }
        return;
      }
      InsertItem(b, Item(id, data, 0, 1));
      inserts := inserts + 1;
    }

    /** Remove a block, if it is held. */
    method Remove(id: Id)
      requires Valid()
      modifies this`buckets, this`counts, this`removals, this`held, this`visits
      ensures Valid() && held == old(held) - {id} && (old(Balanced()) ==> Balanced())
      ensures visits == old(visits) - {id} && removals == old(removals) + if id in old(held) then 1 else 0
      // The other blocks keep their references and counts.
      ensures id !in old(held) ==> buckets == old(buckets)
      ensures id in old(held) ==>
                && 0 < hashSize && Slot(hash, hashSize, id) < |old(buckets)|
                && var b := Slot(hash, hashSize, id);
                   exists i | 0 <= i < |old(buckets)[b]| && old(buckets)[b][i].id == id ::
                     buckets == old(buckets)[b := old(buckets)[b][..i] + old(buckets)[b][i + 1..]]
    {
      hide Table, BucketOk, Counted;
      if configured {
        TableHas(hash, hashSize, buckets, counts, held, visits);
        var b := Slot(hash, hashSize, id);
        var i := FindItem(b, id);
        if i < |buckets[b]| {
          DropItem(b, i);
          removals := removals + 1;
        }
      }
    }

    /** Sum the buckets' counters into the totals: the blocks held, and the bytes of the lists. */
    method Aggregate()
      requires Valid() && configured
      modifies this`bytesUsed, this`numBlocks
      ensures Valid() && numBlocks == |held| && bytesUsed == HeldBytes(held)
    {
      hide BucketOk, HeldBytes, SumBytes;
      var used, blocks := 0, 0;
      for b := 0 to hashSize
        invariant used == SumUsed(counts[..b]) && blocks == SumBlocks(counts[..b]) && 0 <= used && 0 <= blocks
      {
        assert counts[..b + 1][..b] == counts[..b];
        assert Counted(buckets[b], counts[b]);
        used := used + counts[b].bytes;
        blocks := blocks + counts[b].blocks;
      }
      assert counts[..hashSize] == counts;
      UsedIsHeld(hash, hashSize, buckets, counts, held, visits);
      bytesUsed, numBlocks := used, blocks;
    }

    ghost function Sweeping(): Env
      reads this
    {
      Env(aggressive, bytesUsed, fullTarget, lookups, inserts, overheadPct)
    }

    method ShouldEvict(item: Item) returns (v: Verdict)
      modifies this`minRefs
      ensures v == Judge(Sweeping(), old(minRefs), removals, item) && minRefs == v.minRefs
    {
      var unused := item.counter + aggressive < 0;
      if unused && item.refs < minRefs {
        minRefs := item.refs;
      }
      if bytesUsed < fullTarget {
        return Verdict(false, minRefs, false);
      }
      if HighOverhead(lookups, inserts + removals, overheadPct) {
        return Verdict(false, minRefs, false);
      }
      if unused && item.refs < minRefs + MINREF_INCREMENT {
        return Verdict(true, minRefs, false);
      }
      return Verdict(false, minRefs, true);
    }

    method VisitItem(b: nat, k: nat, none: bool) returns (v: Verdict, none': bool)
      requires Valid() && configured && b < hashSize && k < |buckets[b]|
      modifies this`buckets, this`counts, this`removals, this`minRefs, this`held, this`visits
      ensures Valid()
      ensures v == Judge(Sweeping(), old(minRefs), old(removals), old(buckets)[b][k])
      ensures minRefs == v.minRefs && none' == (none && (v.evict || v.recent))
      ensures removals == old(removals) + if v.evict then 1 else 0
      ensures removals - old(removals) == |old(held)| - |held|
      ensures buckets == Judged(old(buckets), b, k, v.evict) && |buckets| == |old(buckets)|
      ensures Moved(old(held), old(visits), held, visits, old(buckets)[b][k].id, v.evict, aggressive)
    {
      hide Table, Judge;
      var item := buckets[b][k];
      ItemHere(hash, hashSize, buckets, counts, held, visits, b, k);
      EvictedIsUnused(Sweeping(), minRefs, removals, item);
      v := ShouldEvict(item);
      none' := none && (v.evict || v.recent);
      if v.evict {
        DropItem(b, k);
        removals := removals + 1;
      } else {
        SetItem(b, k, item.(counter := item.counter - 1), visits[item.id] + 1);
      }
    }

    /** Visit the next item of a bucket's sweep. */
    method VisitNext(b: nat, k: nat, none: bool, ghost was: seq<seq<Item>>, ghost env: Env, ghost p: Pass, ghost j: nat,
                     ghost held0: map<Id, bytes>, ghost visits0: map<Id, nat>)
      returns (k': nat, none': bool)
      requires Valid() && configured && b < hashSize && k < |buckets[b]| && env == Sweeping()
      requires SweptTo(buckets, was, b, p, j, k, minRefs, removals, none) && UniqueIds(was[b])
      requires Aged(held0, visits0, held, visits, Ids(was[b], j), aggressive)
      modifies this`buckets, this`counts, this`removals, this`minRefs, this`held, this`visits
      ensures Valid() && |buckets| == hashSize && removals + |held| == old(removals + |held|) && j < |was[b]|
      ensures env == Sweeping()
      ensures SweptTo(buckets, was, b, Visit(env, p, was[b][j]), j + 1, k', minRefs, removals, none')
      ensures Aged(held0, visits0, held, visits, Ids(was[b], j + 1), aggressive)
    {
      hide Table, BucketOk, Judge, Judged, Visit, Aged, Moved, SweptTo, Ids, UniqueIds;
      TableHas(hash, hashSize, buckets, counts, held, visits);
      SweptHere(buckets, was, b, p, j, k, minRefs, removals, none);
      NotYet(was[b], j);
      var v;
      v, none' := VisitItem(b, k, none);
      SweptNext(old(buckets), was, b, env, p, j, k, old(minRefs), old(removals), none, buckets, v);
      AgedMoved(held0, visits0, old(held), old(visits), held, visits, Ids(was[b], j), was[b][j].id, v.evict,
                aggressive);
      k' := if v.evict then k else k + 1;
    }

    method SweepItems(b: nat, none: bool) returns (none': bool)
      requires Valid() && configured && b < hashSize && b < |buckets| && UniqueIds(buckets[b])
      requires Aged(held, visits, held, visits, Ids(buckets[b], 0), aggressive)
      requires SweptTo(buckets, buckets, b, Pass([], minRefs, removals, none), 0, 0, minRefs, removals, none)
      modifies this`buckets, this`counts, this`removals, this`minRefs, this`held, this`visits
      ensures Valid() && removals + |held| == old(removals + |held|) && b < |buckets|
      ensures AfterSome(Pass(buckets[b], minRefs, removals, none'), old(Sweeping()), old(buckets)[b], |old(buckets)[b]|,
                        Pass([], old(minRefs), old(removals), none))
      ensures buckets == old(buckets)[b := buckets[b]]
      ensures Aged(old(held), old(visits), held, visits, Ids(old(buckets)[b], |old(buckets)[b]|), aggressive)
    {
      hide Table, Visit, Aged, SweptTo, Ids, UniqueIds, AfterSome;
      ghost var was, env := buckets, Sweeping();
      ghost var p0 := Pass([], minRefs, removals, none);
      ghost var p, j: nat := p0, 0;
      var k: nat := 0;
      none' := none;
      AfterNone(env, was[b], p0);
      while k < |buckets[b]|
        invariant Valid() && |buckets| == hashSize && j <= |was[b]|
        invariant removals + |held| == old(removals + |held|) && env == Sweeping()
        invariant AfterSome(p, env, was[b], j, p0)
        invariant SweptTo(buckets, was, b, p, j, k, minRefs, removals, none')
        invariant Aged(old(held), old(visits), held, visits, Ids(was[b], j), aggressive)
        decreases |was[b]| - j
      {
        k, none' := VisitNext(b, k, none', was, env, p, j, old(held), old(visits));
        AfterNext(p, env, was[b], j, p0);
        p := Visit(env, p, was[b][j]);
        j := j + 1;
      }
      SweptAll(buckets, was, b, p, j, k, minRefs, removals, none');
    }

    method SweepLocked(b: nat, none: bool) returns (none': bool)
      requires Valid() && configured && b < hashSize
      modifies this`buckets, this`counts, this`removals, this`minRefs, this`held, this`visits
      ensures Valid() && (old(Balanced()) ==> Balanced()) && b < |buckets| == |old(buckets)|
      ensures KeptAs(Sweeping(), old(buckets)[b], Pass([], old(minRefs), old(removals), none), held)
      ensures old(!Pressed(Sweeping(), removals)) ==>
                held == old(held) && removals == old(removals) && (none' <==> none && old(buckets)[b] == [])
      ensures buckets == old(buckets)[b := Survivors(old(buckets)[b], |old(buckets)[b]|, held)]
      ensures removals == old(removals) + Gone(old(buckets)[b], |old(buckets)[b]|, held)
      ensures Least(old(buckets)[b], |old(buckets)[b]|, aggressive, old(minRefs), minRefs)
      ensures none' <==> none && AllPressed(Sweeping(), old(buckets)[b], |old(buckets)[b]|, old(removals), held)
      ensures Aged(old(held), old(visits), held, visits, Ids(old(buckets)[b], |old(buckets)[b]|), aggressive)
    {
      hide Table, Visit, Aged, SweptTo, Ids, UniqueIds, AfterSome, HighOverhead, Swept, KeptAs, Least, Gone, Survivors;
      hide AllPressed;
      SweptStart(buckets, b, minRefs, removals, none);
      AgedStart(hash, hashSize, buckets, counts, held, visits, b, aggressive);
      ghost var env, bucket, p0 := Sweeping(), buckets[b], Pass([], minRefs, removals, none);
      SlotsOf(hash, hashSize, buckets, counts, held, visits, b);
      none' := SweepItems(b, none);
      SweptIs(Pass(buckets[b], minRefs, removals, none'), env, bucket, p0);
      HeldAfter(hash, hashSize, buckets, counts, held, visits, b, env, bucket, p0);
      SweptMeans(env, bucket, |bucket|, p0, held);
      if !Pressed(env, p0.removals) {
        NoneGone(env, bucket, |bucket|, p0, held);
        AgedAll(old(held), old(visits), held, visits, bucket, aggressive);
        NotAllPressed(env, bucket, p0.removals, held);
      }
    }

    /** Sweep one bucket under its lock. A block is evicted only after the sweep has visited it, since
        it was inserted or last hit, more often than the configured number of seconds by two. */
    method SweepBucket(b: nat, none: bool) returns (none': bool)
      requires Valid() && configured && b < hashSize
      modifies this`buckets, this`counts, this`removals, this`minRefs, this`held, this`visits
      ensures Valid() && (old(Balanced()) ==> Balanced()) && b < |buckets| == |old(buckets)|
      // A block goes exactly if the cache is filled to its target, not too much has come and gone, the block
      // is unused, and it is referenced less than the increment more often than the least seen.
      ensures forall k | 0 <= k < |old(buckets)[b]| ::
                old(buckets)[b][k].id !in held <==>
                && fullTarget <= bytesUsed
                && !HighOverhead(lookups, inserts + (old(removals) + Gone(old(buckets)[b], k, held)), overheadPct)
                && old(buckets)[b][k].counter + aggressive < 0
                && old(buckets)[b][k].refs < old(minRefs) + MINREF_INCREMENT
                && forall i | 0 <= i <= k && old(buckets)[b][i].counter + aggressive < 0 ::
                     old(buckets)[b][k].refs < old(buckets)[b][i].refs + MINREF_INCREMENT
      ensures bytesUsed < fullTarget || HighOverhead(lookups, inserts + old(removals), overheadPct) ==>
                held == old(held) && removals == old(removals) && (none' <==> none && old(buckets)[b] == [])
      // The others are kept, a second older, and no other bucket is touched.
      ensures buckets == old(buckets)[b := Survivors(old(buckets)[b], |old(buckets)[b]|, held)]
      ensures removals == old(removals) + Gone(old(buckets)[b], |old(buckets)[b]|, held)
      ensures Least(old(buckets)[b], |old(buckets)[b]|, aggressive, old(minRefs), minRefs)
      // There was no candidate: whatever was kept was kept for its own sake.
      ensures none' <==> none && forall k | 0 <= k < |old(buckets)[b]| && old(buckets)[b][k].id in held ::
                           && fullTarget <= bytesUsed
                           && !HighOverhead(lookups, inserts + (old(removals) + Gone(old(buckets)[b], k, held)),
                                            overheadPct)
      ensures Aged(old(held), old(visits), held, visits, Ids(old(buckets)[b], |old(buckets)[b]|), aggressive)
    {
      hide Table, Aged, Ids, HighOverhead, KeptAs, Least, Gone, Survivors, AllPressed, Balanced;
      ghost var bucket, p0 := buckets[b], Pass([], minRefs, removals, none);
      none' := SweepLocked(b, none);
      AllGoneIff(bytesUsed, fullTarget, lookups, inserts, overheadPct, aggressive, bucket, p0, held);
    }

    method SweepAll() returns (none: bool)
      requires Valid() && configured
      modifies this`buckets, this`counts, this`removals, this`minRefs, this`held, this`visits
      ensures Valid() && (old(Balanced()) ==> Balanced()) && |old(buckets)| == hashSize
      ensures Aged(old(held), old(visits), held, visits, old(held).Keys, aggressive)
      ensures old(!Pressed(Sweeping(), removals)) ==>
                held == old(held) && removals == old(removals) && (none <==> AllEmpty(old(buckets), hashSize))
      ensures LeastOf(old(buckets), hashSize, aggressive, old(minRefs), minRefs)
    {
      hide Table, Aged, Ids, Below, HighOverhead, Gone, Survivors, Least, LeastOf, AllEmpty;
      none := true;
      TableHas(hash, hashSize, buckets, counts, held, visits);
      PassStart(hash, hashSize, buckets, counts, held, visits, aggressive);
      LeastStart(buckets, aggressive, minRefs);
      AllEmptyNext(buckets, 0);
      ghost var was, idle := buckets, !Pressed(Sweeping(), removals);
      for b := 0 to hashSize
        invariant Valid() && (old(Balanced()) ==> Balanced()) && |buckets| == hashSize
        invariant forall c | b <= c < hashSize :: buckets[c] == was[c]
        invariant Aged(old(held), old(visits), held, visits, Below(hash, hashSize, old(held), b), aggressive)
        invariant idle ==> held == old(held) && removals == old(removals) && (none <==> AllEmpty(was, b))
        invariant LeastOf(was, b, aggressive, old(minRefs), minRefs)
      {
        ghost var buckets0, counts0, held0, visits0, m0 := buckets, counts, held, visits, minRefs;
        AllEmptyNext(was, b);
        none := SweepBucket(b, none);
        PassNext(hash, hashSize, buckets0, counts0, held0, visits0, held, visits, b, old(held), old(visits),
                 aggressive);
        LeastMore(was, b, aggressive, old(minRefs), m0, minRefs);
      }
      PassEnd(hash, hashSize, old(held));
    }

    /** One pass of the eviction thread: every block is visited once. If there was no candidate, more is
        asked for in the next pass. */
    method SweepPass() returns (none: bool)
      requires Valid() && configured
      modifies this`bytesUsed, this`numBlocks, this`buckets, this`counts, this`removals, this`minRefs, this`held,
          this`visits
      ensures Valid() && (old(Balanced()) ==> Balanced())
      ensures Aged(old(held), old(visits), held, visits, old(held).Keys, aggressive)
      ensures numBlocks == |old(held)| && bytesUsed == HeldBytes(old(held)) && |old(buckets)| == hashSize
      // Nothing goes while there is room or too much has come and gone; then there are candidates exactly if
      // there are blocks.
      ensures bytesUsed < fullTarget || HighOverhead(lookups, inserts + old(removals), overheadPct) ==>
                held == old(held) && removals == old(removals) && (none <==> old(held) == map[])
      // The least number of references among the unused blocks, and the increment if there was no candidate.
      ensures (none ==> MINREF_INCREMENT <= minRefs)
              && LeastOf(old(buckets), hashSize, aggressive, old(minRefs),
                         if none then minRefs - MINREF_INCREMENT else minRefs)
    {
      hide Table, Aged, HeldBytes, HighOverhead, LeastOf, AllEmpty;
      Aggregate();
      NothingHeld(hash, hashSize, buckets, counts, held, visits);
      none := SweepAll();
      if none {
        minRefs := minRefs + MINREF_INCREMENT;
      }
    }

    method EmptyBuckets()
      requires Valid() && configured
      modifies this`buckets, this`counts, this`held, this`visits
      ensures Valid() && forall b | 0 <= b < hashSize :: buckets[b] == []
    {
      hide Table;
      for b := 0 to hashSize
        invariant Valid() && forall c | 0 <= c < b :: buckets[c] == []
      {
        while buckets[b] != []
          invariant Valid() && forall c | 0 <= c < b :: buckets[c] == []
          decreases |buckets[b]|
        {
          DropItem(b, 0);
        }
      }
    }

    /** Free every block; the totals come to zero. */
    method FreeAll()
      requires Valid() && configured
      modifies this`buckets, this`counts, this`held, this`visits, this`bytesUsed, this`numBlocks
      ensures Valid() && held == map[] && bytesUsed == 0 && numBlocks == 0
    {
      hide Table;
      Aggregate();
      if bytesUsed != 0 {
        EmptyBuckets();
        NothingHeld(hash, hashSize, buckets, counts, held, visits);
      } else {
        NoBytes(hash, hashSize, buckets, counts, held, visits);
      }
      Aggregate();
    }

    /** Free everything and forget the configuration. */
    method Destroy()
      requires Valid()
      modifies this
      ensures Valid() && Balanced() && !configured && held == map[] && buckets == [] && counts == []
      ensures bytesUsed == numBlocks == lookups == inserts == removals == minRefs == 0
    {
      if configured {
        FreeAll();
      }
      configured := false;
      visits := map[];
      buckets, counts := [], [];
      bytesUsed, numBlocks, lookups, inserts, removals, minRefs := 0, 0, 0, 0, 0, 0;
    }
  }

  /** The blocks of the buckets before b. */
  ghost function Below(hash: Id -> nat, n: nat, held: map<Id, bytes>, b: nat): set<Id>
    requires 0 < n
  {
    set id | id in held && Slot(hash, n, id) < b
  }

  lemma PassStart(hash: Id -> nat, n: nat, buckets: seq<seq<Item>>, counts: seq<Counts>,
                  held: map<Id, bytes>, visits: map<Id, nat>, aggressive: nat)
    requires Table(hash, n, buckets, counts, held, visits)
    ensures Aged(held, visits, held, visits, Below(hash, n, held, 0), aggressive)
  {
    AgedStart(hash, n, buckets, counts, held, visits, 0, aggressive);
    assert Below(hash, n, held, 0) == Ids(buckets[0], 0);
  }

  lemma PassEnd(hash: Id -> nat, n: nat, held: map<Id, bytes>)
    requires 0 < n
    ensures Below(hash, n, held, n) == held.Keys
  {
  }

  lemma PassNext(hash: Id -> nat, n: nat, buckets: seq<seq<Item>>, counts: seq<Counts>, held1: map<Id, bytes>,
                 visits1: map<Id, nat>,
                 held2: map<Id, bytes>, visits2: map<Id, nat>, b: nat, held: map<Id, bytes>, visits: map<Id, nat>,
                     aggressive: nat)
    requires Table(hash, n, buckets, counts, held1, visits1) && b < n == |buckets|
    requires Aged(held, visits, held1, visits1, Below(hash, n, held, b), aggressive)
    requires Aged(held1, visits1, held2, visits2, Ids(buckets[b], |buckets[b]|), aggressive)
    ensures Aged(held, visits, held2, visits2, Below(hash, n, held, b + 1), aggressive)
  {
    hide Table, BucketOk, Ids, Slot;
    TableBucket(hash, n, buckets, counts, held1, visits1, b);
    forall id | id in held
      ensures AgedOne(held, visits, held2, visits2, id, id in Below(hash, n, held, b + 1), aggressive)
    {
      assert AgedOne(held, visits, held1, visits1, id, id in Below(hash, n, held, b), aggressive);
      if id in held1 {
        assert AgedOne(held1, visits1, held2, visits2, id, id in Ids(buckets[b], |buckets[b]|), aggressive);
        InThisBucket(hash, n, b, buckets[b], held1, visits1, id);
      }
    }
  }

  lemma InThisBucket(hash: Id -> nat, n: nat, b: nat, bucket: seq<Item>, held: map<Id, bytes>, visits: map<Id, nat>,
                     id: Id)
    requires 0 < n && BucketOk(hash, n, b, bucket, held, visits) && id in held
    ensures id in Ids(bucket, |bucket|) <==> Slot(hash, n, id) == b
  {
  }

  /** The bytes of some blocks. */
  ghost function HeldBytes(held: map<Id, bytes>): nat {
    if held == map[] then 0 else
    var id :| id in held;
    |held[id]| + HeldBytes(held - {id})
  }

  lemma {:induction false} HeldWithout(held: map<Id, bytes>, id: Id)
    requires id in held
    ensures HeldBytes(held) == |held[id]| + HeldBytes(held - {id})
    decreases |held|
  {
    var other :| other in held && HeldBytes(held) == |held[other]| + HeldBytes(held - {other});
    if other != id {
      HeldWithout(held - {other}, id);
      HeldWithout(held - {id}, other);
      assert held - {other} - {id} == held - {id} - {other};
    }
  }

  /** What the counters sum up to is the bytes of the blocks held. */
  lemma {:induction false} UsedIsHeld(hash: Id -> nat, n: nat, buckets: seq<seq<Item>>, counts: seq<Counts>,
                                      held: map<Id, bytes>, visits: map<Id, nat>)
    requires Table(hash, n, buckets, counts, held, visits)
    ensures SumUsed(counts) == HeldBytes(held)
    decreases |held|
  {
    hide BucketOk, SumUsed, HeldBytes;
    NothingHeld(hash, n, buckets, counts, held, visits);
    if held == map[] {
      NothingUsed(buckets, counts);
    } else {
      var b :| 0 <= b < n && buckets[b] != [];
      TableBucket(hash, n, buckets, counts, held, visits, b);
      BucketItem(hash, n, b, buckets[b], held, visits, 0);
      var id, c := buckets[b][0].id, counts[b];
      hide Table;
      TableDrop(hash, n, buckets, counts, held, visits, b, 0);
      SumsChange(counts, b, Counts(c.blocks - 1, c.bytes - id.size));
      UsedIsHeld(hash, n, buckets[b := buckets[b][..0] + buckets[b][1..]],
                 counts[b := Counts(c.blocks - 1, c.bytes - id.size)], held - {id}, visits - {id});
      HeldWithout(held, id);
    }
  }

  lemma NothingUsed(buckets: seq<seq<Item>>, counts: seq<Counts>)
    requires |buckets| == |counts| && AllEmpty(buckets, |buckets|)
    requires forall b | 0 <= b < |buckets| :: Counted(buckets[b], counts[b])
    ensures SumUsed(counts) == HeldBytes(map[])
  {
    forall b | 0 <= b < |counts| ensures counts[b] == Counts(0, 0) {
      assert Counted(buckets[b], counts[b]);
    }
    NoneCounted(counts);
  }

  lemma NoBytes(hash: Id -> nat, n: nat, buckets: seq<seq<Item>>, counts: seq<Counts>, held: map<Id, bytes>,
                visits: map<Id, nat>)
    requires Table(hash, n, buckets, counts, held, visits) && HeldBytes(held) == 0
    ensures held == map[]
  {
    if held != map[] {
      hide BucketOk, HeldBytes;
      NothingHeld(hash, n, buckets, counts, held, visits);
      var b :| 0 <= b < n && buckets[b] != [];
      TableBucket(hash, n, buckets, counts, held, visits, b);
      BucketItem(hash, n, b, buckets[b], held, visits, 0);
      HeldWithout(held, buckets[b][0].id);
    }
  }

  /** A pass is the sweep of the first j items. */
  ghost predicate AfterSome(p: Pass, env: Env, bucket: seq<Item>, j: nat, p0: Pass)
    requires j <= |bucket|
  {
    p == Swept(env, bucket, j, p0)
  }

  /** The least of a number and the references of the unused items of the first n buckets. */
  ghost predicate LeastOf(buckets: seq<seq<Item>>, n: nat, aggressive: nat, was: nat, m: nat)
    requires n <= |buckets|
  {
    && m <= was
    && (forall b, i | 0 <= b < n && 0 <= i < |buckets[b]| && buckets[b][i].counter + aggressive < 0 ::
          m <= buckets[b][i].refs)
    && (m == was || exists b, i :: 0 <= b < n && 0 <= i < |buckets[b]| && buckets[b][i].counter + aggressive < 0
                                   && m == buckets[b][i].refs)
  }

  lemma LeastStart(buckets: seq<seq<Item>>, aggressive: nat, was: nat)
    ensures LeastOf(buckets, 0, aggressive, was, was)
  {
  }

  lemma LeastMore(buckets: seq<seq<Item>>, b: nat, aggressive: nat, was: nat, m: nat, m': nat)
    requires b < |buckets| && LeastOf(buckets, b, aggressive, was, m)
    requires Least(buckets[b], |buckets[b]|, aggressive, m, m')
    ensures LeastOf(buckets, b + 1, aggressive, was, m')
  {
    if m' != was {
      if m' == m {
        var c, i :| 0 <= c < b && 0 <= i < |buckets[c]| && buckets[c][i].counter + aggressive < 0
                    && m == buckets[c][i].refs;
        assert c < b + 1;
      } else {
        var i :| 0 <= i < |buckets[b]| && buckets[b][i].counter + aggressive < 0 && m' == buckets[b][i].refs;
        assert b < b + 1;
      }
    }
  }

  ghost predicate AllEmpty(buckets: seq<seq<Item>>, n: nat)
    requires n <= |buckets|
  {
    forall b | 0 <= b < n :: buckets[b] == []
  }

  lemma AllEmptyNext(buckets: seq<seq<Item>>, n: nat)
    requires n < |buckets|
    ensures AllEmpty(buckets, 0) && (AllEmpty(buckets, n + 1) <==> AllEmpty(buckets, n) && buckets[n] == [])
  {
  }

  lemma NothingHeld(hash: Id -> nat, n: nat, buckets: seq<seq<Item>>, counts: seq<Counts>, held: map<Id, bytes>,
                    visits: map<Id, nat>)
    requires Table(hash, n, buckets, counts, held, visits)
    ensures |buckets| == n && (AllEmpty(buckets, n) <==> held == map[])
  {
    if id :| id in held {
      var c := Slot(hash, n, id);
      TableBucket(hash, n, buckets, counts, held, visits, c);
      assert InBucket(buckets[c], id);
    }
    forall c | 0 <= c < n && buckets[c] != [] ensures held != map[] {
      SlotsOf(hash, n, buckets, counts, held, visits, c);
      assert buckets[c][0].id in held;
    }
  }

  lemma SweptIs(p: Pass, env: Env, bucket: seq<Item>, p0: Pass)
    requires AfterSome(p, env, bucket, |bucket|, p0)
    ensures p == Swept(env, bucket, |bucket|, p0)
  {
  }

  lemma SlotsOf(hash: Id -> nat, n: nat, buckets: seq<seq<Item>>, counts: seq<Counts>, held: map<Id, bytes>,
                visits: map<Id, nat>, b: nat)
    requires Table(hash, n, buckets, counts, held, visits) && b < n
    ensures |buckets| == n && forall i | 0 <= i < |buckets[b]| :: Slot(hash, n, buckets[b][i].id) == b
    ensures forall i | 0 <= i < |buckets[b]| :: buckets[b][i].id in held
  {
    TableBucket(hash, n, buckets, counts, held, visits, b);
  }

  /** Where evicting is not considered nothing goes. */
  lemma {:induction false} NoneGone(env: Env, bucket: seq<Item>, k: nat, p0: Pass, held: map<Id, bytes>)
    requires p0.kept == [] && k <= |bucket| && KeptAs(env, bucket, p0, held) && !Pressed(env, p0.removals)
    ensures Gone(bucket, k, held) == 0 && forall i | 0 <= i < k :: bucket[i].id in held
  {
    hide HighOverhead, KeptAs;
    if k > 0 {
      NoneGone(env, bucket, k - 1, p0, held);
      GoneIff(env, bucket, k - 1, p0, held);
    }
  }

  lemma AgedAll(held: map<Id, bytes>, visits: map<Id, nat>, held': map<Id, bytes>, visits': map<Id, nat>,
                bucket: seq<Item>, aggressive: nat)
    requires Aged(held, visits, held', visits', Ids(bucket, |bucket|), aggressive)
    requires forall i | 0 <= i < |bucket| :: bucket[i].id in held'
    ensures held' == held
  {
    forall id | id in held ensures id in held' && held'[id] == held[id] {
      assert AgedOne(held, visits, held', visits', id, id in Ids(bucket, |bucket|), aggressive);
    }
  }

  lemma AfterNone(env: Env, bucket: seq<Item>, p0: Pass)
    ensures AfterSome(p0, env, bucket, 0, p0)
  {
  }

  lemma AfterNext(p: Pass, env: Env, bucket: seq<Item>, j: nat, p0: Pass)
    requires j < |bucket| && AfterSome(p, env, bucket, j, p0)
    ensures AfterSome(Visit(env, p, bucket[j]), env, bucket, j + 1, p0)
  {
  }

  ghost predicate UniqueIds(bucket: seq<Item>) {
    forall i, j | 0 <= i < j < |bucket| :: bucket[i].id != bucket[j].id
  }

  lemma NotYet(bucket: seq<Item>, j: nat)
    requires UniqueIds(bucket) && j < |bucket|
    ensures bucket[j].id !in Ids(bucket, j) && Ids(bucket, j + 1) == Ids(bucket, j) + {bucket[j].id}
  {
  }

  lemma ItemHere(hash: Id -> nat, n: nat, buckets: seq<seq<Item>>, counts: seq<Counts>,
                 held: map<Id, bytes>, visits: map<Id, nat>, b: nat, k: nat)
    requires Table(hash, n, buckets, counts, held, visits) && b < n && k < |buckets[b]|
    ensures ItemOk(buckets[b][k], held, visits)
  {
    TableBucket(hash, n, buckets, counts, held, visits, b);
  }

  lemma EvictedIsUnused(env: Env, minRefs: nat, removals: nat, item: Item)
    ensures Judge(env, minRefs, removals, item).evict ==> Unused(env, item)
  {
  }

  lemma AgedStart(hash: Id -> nat, n: nat, buckets: seq<seq<Item>>, counts: seq<Counts>,
                  held: map<Id, bytes>, visits: map<Id, nat>, b: nat, aggressive: nat)
    requires Table(hash, n, buckets, counts, held, visits) && b < n
    ensures |buckets| == n && UniqueIds(buckets[b])
    ensures Aged(held, visits, held, visits, Ids(buckets[b], 0), aggressive)
  {
    var bucket := buckets[b];
    TableBucket(hash, n, buckets, counts, held, visits, b);
    forall id | id in held ensures AgedOne(held, visits, held, visits, id, id in Ids(bucket, 0), aggressive) {
      var c := Slot(hash, n, id);
      TableBucket(hash, n, buckets, counts, held, visits, c);
      assert InBucket(buckets[c], id);
    }
  }

  lemma SweptStart(buckets: seq<seq<Item>>, b: nat, minRefs: nat, removals: nat, none: bool)
    requires b < |buckets|
    ensures SweptTo(buckets, buckets, b, Pass([], minRefs, removals, none), 0, 0, minRefs, removals, none)
  {
    assert [] + buckets[b][0..] == buckets[b];
  }

  lemma SweptHere(buckets: seq<seq<Item>>, was: seq<seq<Item>>, b: nat, p: Pass, j: nat, k: nat,
                  minRefs: nat, removals: nat, none: bool)
    requires SweptTo(buckets, was, b, p, j, k, minRefs, removals, none) && k < |buckets[b]|
    ensures b < |was| == |buckets| && j < |was[b]| && buckets[b][k] == was[b][j]
  {
  }

  lemma SweptAll(buckets: seq<seq<Item>>, was: seq<seq<Item>>, b: nat, p: Pass, j: nat, k: nat,
                 minRefs: nat, removals: nat, none: bool)
    requires SweptTo(buckets, was, b, p, j, k, minRefs, removals, none) && k >= |buckets[b]|
    ensures j == |was[b]| && buckets == was[b := buckets[b]] && p == Pass(buckets[b], minRefs, removals, none)
  {
  }

  /** The state of a bucket's sweep after some items. */
  ghost predicate SweptTo(buckets: seq<seq<Item>>, was: seq<seq<Item>>, b: nat, p: Pass, j: nat, k: nat,
                          minRefs: nat, removals: nat, none: bool) {
    && b < |was| && j <= |was[b]| && k == |p.kept|
    && p == Pass(p.kept, minRefs, removals, none)
    && buckets == was[b := p.kept + was[b][j..]]
  }

  /** The buckets after an item was taken off its list, or kept and its counter lowered. */
  ghost function Judged(buckets: seq<seq<Item>>, b: nat, k: nat, evict: bool): seq<seq<Item>>
    requires b < |buckets| && k < |buckets[b]|
  {
    var item := buckets[b][k];
    buckets[b := if evict then buckets[b][..k] + buckets[b][k + 1..]
                 else buckets[b][k := item.(counter := item.counter - 1)]]
  }

  /** A visit in place is a visit of the next item. */
  lemma SweptNext(buckets: seq<seq<Item>>, was: seq<seq<Item>>, b: nat, env: Env, p: Pass, j: nat, k: nat,
                  minRefs: nat, removals: nat, none: bool, buckets': seq<seq<Item>>, v: Verdict)
    requires b < |was| && j < |was[b]| && b < |buckets| && k < |buckets[b]|
    requires SweptTo(buckets, was, b, p, j, k, minRefs, removals, none)
    requires v == Judge(env, minRefs, removals, buckets[b][k])
    requires buckets' == Judged(buckets, b, k, v.evict)
    ensures SweptTo(buckets', was, b, Visit(env, p, was[b][j]), j + 1, if v.evict then k else k + 1, v.minRefs,
                    removals + (if v.evict then 1 else 0), none && (v.evict || v.recent))
  {
    hide Judge;
    var item, rest := was[b][j], was[b][j + 1..];
    assert was[b][j..] == [item] + rest;
    var item' := item.(counter := item.counter - 1);
    InTheMiddle(p.kept, item, rest, item');
    assert buckets[b] == p.kept + ([item] + rest);
    assert buckets' == was[b := if v.evict then p.kept + [] + rest else p.kept + [item'] + rest];
  }

  lemma InTheMiddle<T>(kept: seq<T>, x: T, rest: seq<T>, y: T)
    ensures var s, k := kept + ([x] + rest), |kept|;
            && s[k] == x && s[..k] + s[k + 1..] == kept + [] + rest && s[k := y] == kept + [y] + rest
  {
  }

  ghost function Ids(bucket: seq<Item>, k: nat): set<Id>
    requires k <= |bucket|
  {
    set i | 0 <= i < k :: bucket[i].id
  }

  lemma {:induction false} NoneCounted(counts: seq<Counts>)
    requires forall b | 0 <= b < |counts| :: counts[b] == Counts(0, 0)
    ensures SumBlocks(counts) == 0 && SumUsed(counts) == 0
  {
    if counts != [] {
      NoneCounted(counts[..|counts| - 1]);
    }
  }
}
