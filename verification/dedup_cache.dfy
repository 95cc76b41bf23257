/**
The sharded dedup cache of server/src/service/client_dedup_cache.{h,cpp}: per shard a map from
(sender, client message id) to the server message id, with a time to live and a size limit.

Times are milliseconds of the steady clock.  `now` is an argument because the source samples the clock
before it takes the shard's lock, so successive holders of one lock need not see increasing times.
*/
module DedupCache {
  import opened Wrappers
  import opened Messages

  datatype Key = Key(senderId: u64, clientMsgId: u64)
  datatype Entry = Entry(serverMsgId: u64, receiverId: u64, status: AckStatus)
  datatype CacheValue = CacheValue(entry: Entry, expiresAt: int)
  datatype Shard = Shard(entries: map<Key, CacheValue>, nextEvictAt: int)

  datatype ReserveState = Reserved | Duplicate | Conflict
  datatype ReserveResult = ReserveResult(state: ReserveState, entry: Entry)

  const NO_ENTRY := Entry(0, 0, UNKNOWN)
  const EVICT_PERIOD := 5000
  const DEFAULT_SHARDS := 256
  const DEFAULT_TTL := 30 * 60 * 1000
  const DEFAULT_MAX_ENTRIES := 8192

  function KeyHash(key: Key): (h: nat) {
    var s, c := key.senderId as bv64, key.clientMsgId as bv64;
    var mixed: bv64 := s ^ (c + 0x9e37_79b9_7f4a_7c15 + (s << 6) + (s >> 2));
    (mixed ^ (mixed >> 32)) as nat
  }

  /** The shard of a key; nothing below depends on which hash function is used. */
  function ShardIndex(hash: Key -> nat, key: Key, shardCount: nat): (i: nat)
    requires shardCount > 0
    ensures i < shardCount
  {
    hash(key) % shardCount
  }

  /** max * 9 / 10 in 64-bit arithmetic. */
  function TargetSize(max: u64): (n: nat)
    ensures n <= max
    ensures max * 9 < 0x1_0000_0000_0000_0000 ==> n == max * 9 / 10
  {
    ((max * 9) % 0x1_0000_0000_0000_0000) / 10
  }

  // ---------------------------------------------------------------- what an access does

  datatype Op =
    | ReserveOp(key: Key, serverMsgId: u64, receiverId: u64, status: AckStatus)
    | UpdateOp(key: Key, serverMsgId: u64, status: AckStatus)

  function Unexpired(entries: map<Key, CacheValue>, now: int): map<Key, CacheValue> {
    map k | k in entries && entries[k].expiresAt > now :: entries[k]
  }

  /** Of `all`, exactly `kept` survive: they are as many as asked and none expires before a dropped one. */
  ghost predicate KeepsLatest(all: map<Key, CacheValue>, kept: map<Key, CacheValue>, size: nat) {
    && kept.Keys <= all.Keys && (forall k :: k in kept ==> kept[k] == all[k])
    && |kept| == size
    && forall k, d :: k in kept && d in all && d !in kept ==> all[d].expiresAt <= all[k].expiresAt
  }

  /** The effect of EvictExpiredLocked; which of several equally old entries go is left open. */
  ghost predicate Evicts(sh: Shard, now: int, max: u64, sh': Shard) {
    if now < sh.nextEvictAt && |sh.entries| <= max then sh' == sh
    else
      var live := Unexpired(sh.entries, now);
      && sh'.nextEvictAt == now + EVICT_PERIOD
      && if |live| <= max then sh'.entries == live else KeepsLatest(live, sh'.entries, TargetSize(max))
  }

  /** The rest of Reserve or UpdateStatus, on the entries that survived. */
  function Apply(entries: map<Key, CacheValue>, op: Op, now: int, ttl: int): (map<Key, CacheValue>, Option<ReserveResult>) {
    match op
    case ReserveOp(key, id, receiver, status) =>
      if key in entries then
        var entry := entries[key].entry;
        (entries, Some(ReserveResult(if entry.receiverId != receiver then Conflict else Duplicate, entry)))
      else
        var entry := Entry(id, receiver, status);
        (entries[key := CacheValue(entry, now + ttl)], Some(ReserveResult(Reserved, entry)))
    case UpdateOp(key, id, status) =>
      if key in entries && entries[key].entry.serverMsgId == id then
        (entries[key := CacheValue(entries[key].entry.(status := status), now + ttl)], None)
      else (entries, None)
  }

  // ---------------------------------------------------------------- the cache

  ghost function KeySet(keys: seq<Key>): set<Key> {
    set i | 0 <= i < |keys| :: keys[i]
  }

  ghost predicate Distinct(keys: seq<Key>) {
    forall i, j :: 0 <= i < j < |keys| ==> keys[i] != keys[j]
  }

  ghost predicate SortedByExpiry(keys: seq<Key>, entries: map<Key, CacheValue>)
    requires KeySet(keys) <= entries.Keys
  {
    forall i, j :: 0 <= i < j < |keys| ==> entries[keys[i]].expiresAt <= entries[keys[j]].expiresAt
  }

  lemma {:induction false} DistinctSize(keys: seq<Key>)
    requires Distinct(keys)
    ensures |KeySet(keys)| == |keys|
  {
    if keys != [] {
      var init, last := keys[..|keys| - 1], keys[|keys| - 1];
      DistinctSize(init);
      assert keys == init + [last];
      KeySetAppend(init, last);
      assert last !in KeySet(init);
    }
  }

  lemma KeySetAppend(keys: seq<Key>, k: Key)
    ensures KeySet(keys + [k]) == KeySet(keys) + {k}
  {
    forall x ensures x in KeySet(keys + [k]) <==> x in KeySet(keys) + {k} {
      if x in KeySet(keys) {
        var i :| 0 <= i < |keys| && keys[i] == x;
        assert (keys + [k])[i] == x;
      }
      if x == k { assert (keys + [k])[|keys|] == k; }
    }
  }

  /** The keys in an order of nondecreasing expiry, each once: std::sort of the collected keys. */
  method KeysByExpiry(entries: map<Key, CacheValue>) returns (keys: seq<Key>)
    ensures KeySet(keys) == entries.Keys && Distinct(keys) && SortedByExpiry(keys, entries)
  {
    keys := [];
    var todo := entries.Keys;
    while todo != {}
      invariant todo <= entries.Keys && KeySet(keys) == entries.Keys - todo
      invariant Distinct(keys) && SortedByExpiry(keys, entries)
      decreases todo
    {
      var k :| k in todo;
      keys := InsertSorted(keys, k, entries);
      todo := todo - {k};
    }
  }

  method InsertSorted(keys: seq<Key>, k: Key, entries: map<Key, CacheValue>) returns (r: seq<Key>)
    requires KeySet(keys) <= entries.Keys && k in entries && k !in KeySet(keys)
    requires Distinct(keys) && SortedByExpiry(keys, entries)
    ensures KeySet(r) == KeySet(keys) + {k} && Distinct(r) && SortedByExpiry(r, entries)
  {
    var i := |keys|;
    while i > 0 && entries[keys[i - 1]].expiresAt > entries[k].expiresAt
      invariant 0 <= i <= |keys|
      invariant forall j :: i <= j < |keys| ==> entries[keys[j]].expiresAt > entries[k].expiresAt
    {
      i := i - 1;
    }
    r := keys[..i] + [k] + keys[i..];
    InsertFacts(keys, k, i, r);
    InsertOrder(keys, k, i, r, entries);
  }

  lemma InsertOrder(keys: seq<Key>, k: Key, i: nat, r: seq<Key>, entries: map<Key, CacheValue>)
    requires i <= |keys| && r == keys[..i] + [k] + keys[i..] && KeySet(keys) <= entries.Keys && KeySet(r) <= entries.Keys
    requires k in entries && SortedByExpiry(keys, entries)
    requires i > 0 ==> entries[keys[i - 1]].expiresAt <= entries[k].expiresAt
    requires forall j :: i <= j < |keys| ==> entries[keys[j]].expiresAt > entries[k].expiresAt
    ensures SortedByExpiry(r, entries)
  {
    forall a, b | 0 <= a < b < |r| ensures entries[r[a]].expiresAt <= entries[r[b]].expiresAt {
      if a < i {
        assert r[a] == keys[a];
        assert entries[keys[a]].expiresAt <= entries[keys[i - 1]].expiresAt;
      } else if a > i {
        assert r[a] == keys[a - 1] && r[b] == keys[b - 1];
      } else {
        assert r[b] == keys[b - 1];
      }
    }
  }

  lemma InsertFacts(keys: seq<Key>, k: Key, i: nat, r: seq<Key>)
    requires i <= |keys| && k !in KeySet(keys) && Distinct(keys) && r == keys[..i] + [k] + keys[i..]
    ensures KeySet(r) == KeySet(keys) + {k} && Distinct(r)
  {
    forall x ensures x in KeySet(r) <==> x in KeySet(keys) + {k} {
      if x in KeySet(keys) {
        var j :| 0 <= j < |keys| && keys[j] == x;
        assert r[if j < i then j else j + 1] == x;
      }
      if x == k { assert r[i] == k; }
    }
  }

  class ClientDedupCache {
    const hash: Key -> nat
    const ttl: int
    const maxEntriesPerShard: u64
    var shards: seq<Shard>

    ghost predicate Valid()
      reads this
    {
      |shards| > 0 && Placed(hash, shards)
    }

    constructor (shardCount: nat := DEFAULT_SHARDS, ttl: int := DEFAULT_TTL, max: u64 := DEFAULT_MAX_ENTRIES)
      ensures Valid() && hash == KeyHash && this.ttl == ttl && maxEntriesPerShard == max
      ensures shards == seq(if shardCount == 0 then 1 else shardCount, _ => Shard(map[], 0))
    {
      this.hash, this.ttl, maxEntriesPerShard := KeyHash, ttl, max;
      shards := seq(if shardCount == 0 then 1 else shardCount, _ => Shard(map[], 0));
    }

    /** Drops expired entries when it is time to, or when the shard is too full, and then the oldest ones. */
    method EvictExpiredLocked(i: nat, now: int)
      requires i < |shards|
      modifies this
      ensures |shards| == old(|shards|) && shards == old(shards)[i := shards[i]]
      ensures Evicts(old(shards)[i], now, maxEntriesPerShard, shards[i])
    {
      var shard := shards[i];
      if now < shard.nextEvictAt && |shard.entries| <= maxEntriesPerShard {
        return;
      }
      var entries := EraseExpired(shard.entries, now);
      if |entries| > maxEntriesPerShard {
        entries := EraseOldest(entries, TargetSize(maxEntriesPerShard));
      }
      shards := shards[i := Shard(entries, now + EVICT_PERIOD)];
    }

    /** Reserves a key for a message id, or reports who holds it. */
    method Reserve(senderId: u64, clientMsgId: u64, serverMsgId: u64, receiverId: u64, status: AckStatus, now: int)
      returns (result: ReserveResult)
      requires Valid()
      modifies this
      ensures Valid()
      ensures if senderId == 0 || clientMsgId == 0 || serverMsgId == 0 || receiverId == 0
              then result == ReserveResult(Conflict, NO_ENTRY) && shards == old(shards)
              else CacheStep(hash, old(shards), ReserveOp(Key(senderId, clientMsgId), serverMsgId, receiverId, status), now,
                             ttl, maxEntriesPerShard, shards, Some(result))
    {
      if senderId == 0 || clientMsgId == 0 || serverMsgId == 0 || receiverId == 0 {
        return ReserveResult(Conflict, NO_ENTRY);
      }
      var key := Key(senderId, clientMsgId);
      result := ReserveInShard(ShardIndex(hash, key, |shards|), key, serverMsgId, receiverId, status, now);
      StepKeepsPlaces(hash, old(shards), ReserveOp(key, serverMsgId, receiverId, status), now, ttl, maxEntriesPerShard,
                      shards, Some(result));
    }

    method ReserveInShard(i: nat, key: Key, serverMsgId: u64, receiverId: u64, status: AckStatus, now: int)
      returns (result: ReserveResult)
      requires i < |shards|
      modifies this
      ensures |shards| == old(|shards|) && shards == old(shards)[i := shards[i]]
      ensures ShardStep(old(shards)[i], ReserveOp(key, serverMsgId, receiverId, status), now, ttl, maxEntriesPerShard,
                        shards[i], Some(result))
    {
      EvictExpiredLocked(i, now);
      var shard := shards[i];
      if key in shard.entries {
        var entry := shard.entries[key].entry;
        result := ReserveResult(if entry.receiverId != receiverId then Conflict else Duplicate, entry);
      } else {
        result := ReserveResult(Reserved, Entry(serverMsgId, receiverId, status));
        shards := shards[i := shard.(entries := shard.entries[key := CacheValue(result.entry, now + ttl)])];
      }
      assert AccessStep(old(shards)[i], ReserveOp(key, serverMsgId, receiverId, status), now, ttl, maxEntriesPerShard,
                        shard, shards[i], Some(result));
    }

    /** Overwrites the status of the entry this message id holds and restarts its lifetime. */
    method UpdateStatus(senderId: u64, clientMsgId: u64, serverMsgId: u64, status: AckStatus, now: int)
      requires Valid()
      modifies this
      ensures Valid()
      ensures if senderId == 0 || clientMsgId == 0 || serverMsgId == 0 then shards == old(shards)
              else CacheStep(hash, old(shards), UpdateOp(Key(senderId, clientMsgId), serverMsgId, status), now,
                             ttl, maxEntriesPerShard, shards, None)
    {
      if senderId == 0 || clientMsgId == 0 || serverMsgId == 0 {
        return;
      }
      var key := Key(senderId, clientMsgId);
      UpdateInShard(ShardIndex(hash, key, |shards|), key, serverMsgId, status, now);
      StepKeepsPlaces(hash, old(shards), UpdateOp(key, serverMsgId, status), now, ttl, maxEntriesPerShard, shards, None);
    }

    method UpdateInShard(i: nat, key: Key, serverMsgId: u64, status: AckStatus, now: int)
      requires i < |shards|
      modifies this
      ensures |shards| == old(|shards|) && shards == old(shards)[i := shards[i]]
      ensures ShardStep(old(shards)[i], UpdateOp(key, serverMsgId, status), now, ttl, maxEntriesPerShard, shards[i], None)
    {
      EvictExpiredLocked(i, now);
      var shard := shards[i];
      if key in shard.entries && shard.entries[key].entry.serverMsgId == serverMsgId {
        var value := CacheValue(shard.entries[key].entry.(status := status), now + ttl);
        shards := shards[i := shard.(entries := shard.entries[key := value])];
      }
      assert AccessStep(old(shards)[i], UpdateOp(key, serverMsgId, status), now, ttl, maxEntriesPerShard,
                        shard, shards[i], None);
    }
  }

  method EraseExpired(entries: map<Key, CacheValue>, now: int) returns (live: map<Key, CacheValue>)
    ensures live == Unexpired(entries, now)
  {
    live := entries;
    var todo := entries.Keys;
    while todo != {}
      invariant todo <= entries.Keys
      invariant live == map k | k in entries && (k in todo || entries[k].expiresAt > now) :: entries[k]
      decreases todo
    {
      var k :| k in todo;
      if entries[k].expiresAt <= now {
        live := live - {k};
      }
      todo := todo - {k};
    }
  }

  method EraseOldest(all: map<Key, CacheValue>, target: nat) returns (kept: map<Key, CacheValue>)
    requires target <= |all|
    ensures KeepsLatest(all, kept, target)
  {
    hide KeySet, Distinct, SortedByExpiry, KeepsLatest;
    var keys := KeysByExpiry(all);
    kept := all;
    var i := 0;
    DistinctSize(keys);
    EraseNone(all, keys);
    while |kept| > target && i < |keys|
      invariant 0 <= i <= |keys|
      invariant kept == all - KeySet(keys[..i])
      invariant |kept| == |all| - i >= target
    {
      EraseStep(all, keys, i);
      kept := kept - {keys[i]};
      i := i + 1;
    }
    RestIsLatest(all, keys, i, target);
  }

  lemma RestIsLatest(all: map<Key, CacheValue>, keys: seq<Key>, i: nat, target: nat)
    requires i <= |keys| && KeySet(keys) == all.Keys && SortedByExpiry(keys, all)
    requires |all - KeySet(keys[..i])| == target
    ensures KeepsLatest(all, all - KeySet(keys[..i]), target)
  {
    OldestFirst(all, keys, i);
  }

  lemma EraseNone(all: map<Key, CacheValue>, keys: seq<Key>)
    ensures all - KeySet(keys[..0]) == all
  {
    assert keys[..0] == [];
  }

  lemma EraseStep(all: map<Key, CacheValue>, keys: seq<Key>, i: nat)
    requires i < |keys| && KeySet(keys) == all.Keys && Distinct(keys)
    ensures var kept := all - KeySet(keys[..i]);
            && |kept - {keys[i]}| == |kept| - 1
            && kept - {keys[i]} == all - KeySet(keys[..i + 1])
  {
    KeyIsNew(keys, i);
    RemoveOne(all, KeySet(keys[..i]), keys[i]);
  }

  lemma RemoveOne(all: map<Key, CacheValue>, gone: set<Key>, k: Key)
    requires k in all && k !in gone
    ensures |all - gone - {k}| == |all - gone| - 1
    ensures all - gone - {k} == all - (gone + {k})
  {
    OneLess(all - gone, k);
  }

  lemma KeyIsNew(keys: seq<Key>, i: nat)
    requires i < |keys| && Distinct(keys)
    ensures keys[i] in KeySet(keys) && keys[i] !in KeySet(keys[..i])
    ensures KeySet(keys[..i + 1]) == KeySet(keys[..i]) + {keys[i]}
  {
    assert keys[..i + 1] == keys[..i] + [keys[i]];
    KeySetAppend(keys[..i], keys[i]);
  }

  lemma NotInTake(keys: seq<Key>, b: nat, i: nat)
    requires b < |keys| && i <= |keys| && keys[b] !in KeySet(keys[..i])
    ensures b >= i
  {
    assert forall j :: 0 <= j < i ==> keys[..i][j] == keys[j];
  }

  lemma OldestFirst(all: map<Key, CacheValue>, keys: seq<Key>, i: nat)
    requires i <= |keys| && KeySet(keys) == all.Keys && SortedByExpiry(keys, all)
    ensures forall k, d :: k in all && k !in KeySet(keys[..i]) && d in KeySet(keys[..i]) ==>
              d in all && all[d].expiresAt <= all[k].expiresAt
  {
    forall k, d | k in all && k !in KeySet(keys[..i]) && d in KeySet(keys[..i])
      ensures d in all && all[d].expiresAt <= all[k].expiresAt
    {
      assert k in KeySet(keys);
      var b :| 0 <= b < |keys| && keys[b] == k;
      var a :| 0 <= a < i && keys[..i][a] == d;
      NotInTake(keys, b, i);
      assert keys[a] in KeySet(keys);
    }
  }

  // ---------------------------------------------------------------- one access, and the whole cache

  /** One access of a shard: evict to `mid`, then apply. */
  ghost predicate AccessStep(sh: Shard, op: Op, now: int, ttl: int, max: u64, mid: Shard, sh': Shard,
                             result: Option<ReserveResult>) {
    && Evicts(sh, now, max, mid)
    && Apply(mid.entries, op, now, ttl) == (sh'.entries, result)
    && sh'.nextEvictAt == mid.nextEvictAt
  }

  ghost predicate ShardStep(sh: Shard, op: Op, now: int, ttl: int, max: u64, sh': Shard, result: Option<ReserveResult>) {
    exists mid :: AccessStep(sh, op, now, ttl, max, mid, sh', result)
  }

  /** One access of the cache touches the one shard its key belongs to. */
  ghost predicate CacheStep(hash: Key -> nat, shards: seq<Shard>, op: Op, now: int, ttl: int, max: u64, shards': seq<Shard>,
                            result: Option<ReserveResult>) {
    && |shards'| == |shards| > 0
    && var i := ShardIndex(hash, op.key, |shards|);
    && shards' == shards[i := shards'[i]]
    && ShardStep(shards[i], op, now, ttl, max, shards'[i], result)
  }

  /** Every key is in the shard its hash names. */
  ghost predicate Placed(hash: Key -> nat, shards: seq<Shard>)
    requires |shards| > 0
  {
    forall i, k :: 0 <= i < |shards| && k in shards[i].entries ==> ShardIndex(hash, k, |shards|) == i
  }

  /** An eviction only removes. */
  lemma EvictsShrinks(sh: Shard, now: int, max: u64, sh': Shard)
    requires Evicts(sh, now, max, sh')
    ensures sh'.entries.Keys <= sh.entries.Keys
    ensures forall k :: k in sh'.entries ==> sh'.entries[k] == sh.entries[k]
  {
  }

  lemma StepKeepsPlaces(hash: Key -> nat, shards: seq<Shard>, op: Op, now: int, ttl: int, max: u64, shards': seq<Shard>,
                        result: Option<ReserveResult>)
    requires |shards| > 0 && Placed(hash, shards) && CacheStep(hash, shards, op, now, ttl, max, shards', result)
    ensures Placed(hash, shards')
  {
    var i := ShardIndex(hash, op.key, |shards|);
    var mid :| AccessStep(shards[i], op, now, ttl, max, mid, shards'[i], result);
    EvictsShrinks(shards[i], now, max, mid);
    forall j, k | 0 <= j < |shards'| && k in shards'[j].entries ensures ShardIndex(hash, k, |shards'|) == j {
      if j == i && k != op.key {
        assert k in mid.entries;
      }
    }
  }

  // ---------------------------------------------------------------- one map

  /** The cache as one map. */
  ghost function Merged(hash: Key -> nat, shards: seq<Shard>): map<Key, CacheValue>
    requires |shards| > 0
  {
    map k | k in AllKeys(shards) && k in shards[ShardIndex(hash, k, |shards|)].entries
      :: shards[ShardIndex(hash, k, |shards|)].entries[k]
  }

  ghost function AllKeys(shards: seq<Shard>): set<Key> {
    set i, k | 0 <= i < |shards| && k in shards[i].entries :: k
  }

  lemma MergedAt(hash: Key -> nat, shards: seq<Shard>, k: Key)
    requires |shards| > 0
    ensures k in Merged(hash, shards) <==> k in shards[ShardIndex(hash, k, |shards|)].entries
    ensures k in Merged(hash, shards) ==> Merged(hash, shards)[k] == shards[ShardIndex(hash, k, |shards|)].entries[k]
  {
    var i := ShardIndex(hash, k, |shards|);
    if k in shards[i].entries {
      assert 0 <= i < |shards| && k in shards[i].entries;
      assert k in AllKeys(shards);
    }
  }

  /**
  Sharding is invisible: an access of the sharded cache is an eviction of some entries of one map
  followed by the same access of that map, with the same answer.  The entries evicted had expired, or their
  shard had too many that had not.
  */
  lemma ShardedIsOneMap(hash: Key -> nat, shards: seq<Shard>, op: Op, now: int, ttl: int, max: u64, shards': seq<Shard>,
                        result: Option<ReserveResult>)
    returns (gone: set<Key>)
    requires |shards| > 0 && Placed(hash, shards) && CacheStep(hash, shards, op, now, ttl, max, shards', result)
    ensures Apply(Merged(hash, shards) - gone, op, now, ttl) == (Merged(hash, shards'), result)
    ensures var home := shards[ShardIndex(hash, op.key, |shards|)];
            forall k <- gone :: k in home.entries && (home.entries[k].expiresAt <= now || Overfull(home, now, max))
  {
    var i := ShardIndex(hash, op.key, |shards|);
    var mid :| AccessStep(shards[i], op, now, ttl, max, mid, shards'[i], result);
    gone := shards[i].entries.Keys - mid.entries.Keys;
    AccessIsOneMap(hash, shards, op, now, ttl, max, mid, shards', result);
  }

  /** The same for the shard `mid` that eviction left. */
  lemma AccessIsOneMap(hash: Key -> nat, shards: seq<Shard>, op: Op, now: int, ttl: int, max: u64, mid: Shard,
                       shards': seq<Shard>, result: Option<ReserveResult>)
    requires |shards'| == |shards| > 0 && Placed(hash, shards)
    requires var i := ShardIndex(hash, op.key, |shards|);
             shards' == shards[i := shards'[i]] && AccessStep(shards[i], op, now, ttl, max, mid, shards'[i], result)
    ensures var home := shards[ShardIndex(hash, op.key, |shards|)];
            var gone := home.entries.Keys - mid.entries.Keys;
            && Apply(Merged(hash, shards) - gone, op, now, ttl) == (Merged(hash, shards'), result)
            && forall k <- gone :: home.entries[k].expiresAt <= now || Overfull(home, now, max)
  {
    var i := ShardIndex(hash, op.key, |shards|);
    EvictsShrinks(shards[i], now, max, mid);
    var gone := shards[i].entries.Keys - mid.entries.Keys;
    MergedAt(hash, shards, op.key);
    ApplyLocal(Merged(hash, shards) - gone, mid.entries, op, now, ttl);
    forall k ensures SameAt(Merged(hash, shards'), Apply(Merged(hash, shards) - gone, op, now, ttl).0, k) {
      MergedAfter(hash, shards, op, now, ttl, mid, shards', gone, k);
    }
    MapsEqual(Merged(hash, shards'), Apply(Merged(hash, shards) - gone, op, now, ttl).0);
    GoneForReason(shards[i], now, max, mid);
  }

  lemma GoneForReason(sh: Shard, now: int, max: u64, mid: Shard)
    requires Evicts(sh, now, max, mid)
    ensures forall k :: k in sh.entries && k !in mid.entries ==> sh.entries[k].expiresAt <= now || Overfull(sh, now, max)
  {
  }

  lemma MapsEqual(a: map<Key, CacheValue>, b: map<Key, CacheValue>)
    requires forall k :: SameAt(a, b, k)
    ensures a == b
  {
    assert forall k :: k in a <==> k in b by {
      forall k ensures k in a <==> k in b { assert SameAt(a, b, k); }
    }
    forall k | k in a ensures a[k] == b[k] { assert SameAt(a, b, k); }
  }

  predicate SameAt(a: map<Key, CacheValue>, b: map<Key, CacheValue>, k: Key) {
    (k in a <==> k in b) && (k in a ==> a[k] == b[k])
  }

  lemma MergedAfter(hash: Key -> nat, shards: seq<Shard>, op: Op, now: int, ttl: int, mid: Shard, shards': seq<Shard>, gone: set<Key>, k: Key)
    requires |shards'| == |shards| > 0 && Placed(hash, shards)
    requires var i := ShardIndex(hash, op.key, |shards|);
             && shards' == shards[i := shards'[i]] && shards'[i].entries == Apply(mid.entries, op, now, ttl).0
             && mid.entries.Keys <= shards[i].entries.Keys
             && (forall x :: x in mid.entries ==> mid.entries[x] == shards[i].entries[x])
             && gone == shards[i].entries.Keys - mid.entries.Keys
    ensures SameAt(Merged(hash, shards'), Apply(Merged(hash, shards) - gone, op, now, ttl).0, k)
  {
    var i := ShardIndex(hash, op.key, |shards|);
    MergedAt(hash, shards, k);
    MergedAt(hash, shards', k);
    MergedAt(hash, shards, op.key);
    ApplyLocal(Merged(hash, shards) - gone, mid.entries, op, now, ttl);
    ApplyLocal(mid.entries, Merged(hash, shards) - gone, op, now, ttl);
  }

  /** An access depends on, and changes, only what is stored under its key. */
  lemma ApplyLocal(a: map<Key, CacheValue>, b: map<Key, CacheValue>, op: Op, now: int, ttl: int)
    requires op.key in a <==> op.key in b
    requires op.key in a ==> a[op.key] == b[op.key]
    ensures Apply(a, op, now, ttl).1 == Apply(b, op, now, ttl).1
    ensures forall k :: k != op.key ==> (k in Apply(a, op, now, ttl).0 <==> k in a)
                                        && (k in a ==> Apply(a, op, now, ttl).0[k] == a[k])
    ensures op.key in Apply(a, op, now, ttl).0 <==> op.key in Apply(b, op, now, ttl).0
    ensures op.key in Apply(a, op, now, ttl).0 ==> Apply(a, op, now, ttl).0[op.key] == Apply(b, op, now, ttl).0[op.key]
  {
  }

  // ---------------------------------------------------------------- runs

  datatype Access = Access(op: Op, now: int, mid: Shard, result: Option<ReserveResult>)

  datatype Config = Config(hash: Key -> nat, shardCount: nat, ttl: int, max: u64)

  /** Any sequence of accesses, by any threads, from the empty cache. */
  ghost predicate Run(cfg: Config, states: seq<seq<Shard>>, accesses: seq<Access>) {
    && cfg.shardCount > 0 && |states| == |accesses| + 1
    && states[0] == seq(cfg.shardCount, _ => Shard(map[], 0))
    && (forall t :: 0 <= t < |states| ==> |states[t]| == cfg.shardCount)
    && forall t :: 0 <= t < |accesses| ==> AccessAt(cfg, states, accesses, t)
  }

  ghost predicate AccessAt(cfg: Config, states: seq<seq<Shard>>, accesses: seq<Access>, t: nat)
    requires t < |accesses| && t + 1 < |states|
  {
    Accessed(cfg, states[t], accesses[t], states[t + 1])
  }

  ghost predicate Accessed(cfg: Config, shards: seq<Shard>, a: Access, shards': seq<Shard>) {
    && |shards| == |shards'| == cfg.shardCount > 0
    && var i := ShardIndex(cfg.hash, a.op.key, cfg.shardCount);
    && shards' == shards[i := shards'[i]]
    && AccessStep(shards[i], a.op, a.now, cfg.ttl, cfg.max, a.mid, shards'[i], a.result)
  }

  function Home(cfg: Config, shards: seq<Shard>, key: Key): Shard
    requires |shards| == cfg.shardCount > 0
  {
    shards[ShardIndex(cfg.hash, key, cfg.shardCount)]
  }

  /** Eviction brings a shard down to the limit. */
  lemma EvictsBounds(sh: Shard, now: int, max: u64, mid: Shard)
    requires Evicts(sh, now, max, mid)
    ensures |mid.entries| <= max
  {
  }

  lemma ApplyAddsOne(entries: map<Key, CacheValue>, op: Op, now: int, ttl: int)
    ensures |Apply(entries, op, now, ttl).0| <= |entries| + 1
  {
    var after := Apply(entries, op, now, ttl).0;
    assert after.Keys <= entries.Keys + {op.key};
    SubsetSize(after.Keys, entries.Keys + {op.key});
    assert |after| == |after.Keys| && |entries| == |entries.Keys|;
  }

  lemma {:induction false} SubsetSize(a: set<Key>, b: set<Key>)
    requires a <= b
    ensures |a| <= |b|
  {
    if a != {} {
      var k :| k in a;
      SubsetSize(a - {k}, b - {k});
    }
  }

  /**
  In every reachable state a shard holds at most one entry over its limit, and at most the limit right
  after eviction.
  */
  lemma {:induction false} ShardsAreBounded(cfg: Config, states: seq<seq<Shard>>, accesses: seq<Access>, t: nat)
    requires Run(cfg, states, accesses) && t < |states|
    ensures forall i :: 0 <= i < cfg.shardCount ==> |states[t][i].entries| <= cfg.max + 1
    ensures t < |accesses| ==> |accesses[t].mid.entries| <= cfg.max
  {
    if t > 0 {
      ShardsAreBounded(cfg, states, accesses, t - 1);
      var a := accesses[t - 1];
      assert AccessAt(cfg, states, accesses, t - 1);
      EvictsBounds(Home(cfg, states[t - 1], a.op.key), a.now, cfg.max, a.mid);
      ApplyAddsOne(a.mid.entries, a.op, a.now, cfg.ttl);
    }
    if t < |accesses| {
      assert AccessAt(cfg, states, accesses, t);
      EvictsBounds(Home(cfg, states[t], accesses[t].op.key), accesses[t].now, cfg.max, accesses[t].mid);
    }
  }

  /** A size eviction leaves exactly the target size and never drops an entry that outlives a survivor. */
  lemma SizeEvictionIsExact(sh: Shard, now: int, max: u64, mid: Shard, dropped: Key, survivor: Key)
    requires Evicts(sh, now, max, mid)
    requires dropped in Unexpired(sh.entries, now) && dropped !in mid.entries
    ensures |mid.entries| == TargetSize(max)
    ensures survivor in mid.entries ==>
              survivor in sh.entries && sh.entries[dropped].expiresAt <= sh.entries[survivor].expiresAt
  {
  }

  /** The shard has too many unexpired entries, so an eviction drops some that could still answer. */
  predicate Overfull(sh: Shard, now: int, max: u64) {
    |Unexpired(sh.entries, now)| > max
  }

  /** An access that touches the shard of `key` comes before it expires and does not drop it for size. */
  ghost predicate Spares(cfg: Config, shards: seq<Shard>, a: Access, key: Key)
    requires |shards| == cfg.shardCount > 0
  {
    var home := Home(cfg, shards, key);
    key in home.entries && ShardIndex(cfg.hash, a.op.key, cfg.shardCount) == ShardIndex(cfg.hash, key, cfg.shardCount) ==>
      a.now < home.entries[key].expiresAt && (Overfull(home, a.now, cfg.max) ==> key in a.mid.entries)
  }

  ghost predicate Holds(cfg: Config, shards: seq<Shard>, key: Key, id: u64, receiver: u64)
    requires |shards| == cfg.shardCount > 0
  {
    var home := Home(cfg, shards, key);
    key in home.entries && home.entries[key].entry.serverMsgId == id && home.entries[key].entry.receiverId == receiver
  }

  lemma SparedStays(cfg: Config, shards: seq<Shard>, a: Access, shards': seq<Shard>, key: Key, id: u64, receiver: u64)
    requires Accessed(cfg, shards, a, shards') && Holds(cfg, shards, key, id, receiver) && Spares(cfg, shards, a, key)
    ensures Holds(cfg, shards', key, id, receiver)
    ensures a.op.key == key && a.op.ReserveOp? ==>
              a.result.Some? && a.result.value.entry.serverMsgId == id && a.result.value.entry.receiverId == receiver
              && a.result.value.state == if a.op.receiverId == receiver then Duplicate else Conflict
  {
    if ShardIndex(cfg.hash, a.op.key, cfg.shardCount) == ShardIndex(cfg.hash, key, cfg.shardCount) {
      var home := Home(cfg, shards, key);
      EvictsShrinks(home, a.now, cfg.max, a.mid);
      ApplyLocal(a.mid.entries, a.mid.entries, a.op, a.now, cfg.ttl);
    }
  }

  /**
  From the moment a key is reserved, as long as no access finds it expired and no size eviction takes
  it, the cache holds the same message id and receiver for it, and every Reserve of it answers with
  them: a duplicate for the same receiver, a conflict for another.
  */
  lemma {:induction false} ReservedKeyAnswersTheSame(cfg: Config, states: seq<seq<Shard>>, accesses: seq<Access>,
                                                     s: nat, t: nat, key: Key, id: u64, receiver: u64)
    requires Run(cfg, states, accesses) && s <= t < |states|
    requires Holds(cfg, states[s], key, id, receiver)
    requires forall u :: s <= u < t ==> Spares(cfg, states[u], accesses[u], key)
    ensures Holds(cfg, states[t], key, id, receiver)
    ensures forall u :: s <= u < t && accesses[u].op.ReserveOp? && accesses[u].op.key == key ==>
              var r := accesses[u].result;
              r.Some? && r.value.entry.serverMsgId == id && r.value.entry.receiverId == receiver
              && r.value.state == if accesses[u].op.receiverId == receiver then Duplicate else Conflict
    decreases t
  {
    if s < t {
      ReservedKeyAnswersTheSame(cfg, states, accesses, s, t - 1, key, id, receiver);
      assert AccessAt(cfg, states, accesses, t - 1);
      SparedStays(cfg, states[t - 1], accesses[t - 1], states[t], key, id, receiver);
    }
  }

  /** Clock samples are never negative and lag the latest earlier one by at most `skew`. */
  ghost predicate Skew(accesses: seq<Access>, skew: nat) {
    && (forall t :: 0 <= t < |accesses| ==> accesses[t].now >= 0)
    && forall s, t :: 0 <= s < t < |accesses| ==> accesses[t].now >= accesses[s].now - skew
  }

  /** How far back a negative time to live puts the expiry of a new entry. */
  function Backdating(ttl: int): nat {
    if ttl < 0 then -ttl else 0
  }

  /** The next eviction of a shard was set by an earlier access, and comes at most `late` after it should. */
  ghost predicate EvictsInTime(sh: Shard, accesses: seq<Access>, t: nat, late: nat)
    requires t <= |accesses|
  {
    && (sh.nextEvictAt == 0 || exists u :: 0 <= u < t && sh.nextEvictAt == accesses[u].now + EVICT_PERIOD)
    && forall k :: k in sh.entries ==> sh.nextEvictAt <= sh.entries[k].expiresAt + EVICT_PERIOD + late
  }

  lemma StepEvictsInTime(sh: Shard, accesses: seq<Access>, t: nat, skew: nat, ttl: int, max: u64, sh': Shard)
    requires t < |accesses| && Skew(accesses, skew) && EvictsInTime(sh, accesses, t, skew + Backdating(ttl))
    requires AccessStep(sh, accesses[t].op, accesses[t].now, ttl, max, accesses[t].mid, sh', accesses[t].result)
    ensures EvictsInTime(sh', accesses, t + 1, skew + Backdating(ttl))
  {
    var a := accesses[t];
    EvictsShrinks(sh, a.now, max, a.mid);
    assert sh'.nextEvictAt <= a.now + EVICT_PERIOD + skew;
    forall k | k in sh'.entries ensures sh'.nextEvictAt <= sh'.entries[k].expiresAt + EVICT_PERIOD + (skew + Backdating(ttl)) {
      ApplyLocal(a.mid.entries, a.mid.entries, a.op, a.now, ttl);
      if k in a.mid.entries && sh'.entries[k] == a.mid.entries[k] {
        assert sh.entries[k] == a.mid.entries[k];
      } else {
        assert sh'.entries[k].expiresAt == a.now + ttl;
      }
    }
  }

  lemma StillInTime(sh: Shard, accesses: seq<Access>, t: nat, late: nat)
    requires t < |accesses| && EvictsInTime(sh, accesses, t, late)
    ensures EvictsInTime(sh, accesses, t + 1, late)
  {
  }

  lemma AccessEvictsInTime(cfg: Config, shards: seq<Shard>, accesses: seq<Access>, t: nat, shards': seq<Shard>, skew: nat,
                           i: nat)
    requires t < |accesses| && Skew(accesses, skew) && Accessed(cfg, shards, accesses[t], shards') && i < cfg.shardCount
    requires EvictsInTime(shards[i], accesses, t, skew + Backdating(cfg.ttl))
    ensures EvictsInTime(shards'[i], accesses, t + 1, skew + Backdating(cfg.ttl))
  {
    hide EvictsInTime, AccessStep, Skew;
    if i == ShardIndex(cfg.hash, accesses[t].op.key, cfg.shardCount) {
      StepEvictsInTime(shards[i], accesses, t, skew, cfg.ttl, cfg.max, shards'[i]);
    } else {
      StillInTime(shards[i], accesses, t, skew + Backdating(cfg.ttl));
    }
  }

  lemma NewShardInTime(accesses: seq<Access>, late: nat)
    ensures EvictsInTime(Shard(map[], 0), accesses, 0, late)
  {
  }

  lemma {:induction false} RunEvictsInTime(cfg: Config, states: seq<seq<Shard>>, accesses: seq<Access>, skew: nat,
                                           t: nat, i: nat)
    requires Run(cfg, states, accesses) && Skew(accesses, skew) && t < |states| && i < cfg.shardCount
    ensures EvictsInTime(states[t][i], accesses, t, skew + Backdating(cfg.ttl))
  {
    hide EvictsInTime, Accessed, Skew;
    if t == 0 {
      NewShardInTime(accesses, skew + Backdating(cfg.ttl));
    } else {
      RunEvictsInTime(cfg, states, accesses, skew, t - 1, i);
      assert AccessAt(cfg, states, accesses, t - 1);
      AccessEvictsInTime(cfg, states[t - 1], accesses, t - 1, states[t], skew, i);
    }
  }

  /**
  No entry is used 5 seconds, plus the clock skew between lock holders, after it expired: such an access
  drops it first, and a Reserve of it reserves anew.  With nondecreasing samples the skew is 0, and with a
  time to live that is not negative there is no backdating.
  */
  lemma ExpiredKeyIsForgotten(cfg: Config, states: seq<seq<Shard>>, accesses: seq<Access>, skew: nat, t: nat, key: Key)
    requires Run(cfg, states, accesses) && Skew(accesses, skew) && t < |accesses| && accesses[t].op.key == key
    requires key in Home(cfg, states[t], key).entries
    requires accesses[t].now >= Home(cfg, states[t], key).entries[key].expiresAt + EVICT_PERIOD + skew + Backdating(cfg.ttl)
    ensures key !in accesses[t].mid.entries
    ensures accesses[t].op.ReserveOp? ==> accesses[t].result.Some? && accesses[t].result.value.state == Reserved
  {
    var i := ShardIndex(cfg.hash, key, cfg.shardCount);
    RunEvictsInTime(cfg, states, accesses, skew, t, i);
    assert AccessAt(cfg, states, accesses, t);
  }
}
