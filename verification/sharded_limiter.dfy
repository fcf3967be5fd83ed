/**
 Token buckets keyed by string, spread over shards, and the retuning layer above them.
 The shards are shown to be one plain map from key to bucket.
 */
module Limiters {
  import opened MachineInts
  import opened TokenBuckets
  import opened Options

  type Buckets = map<string, Bucket>

  /** The bucket a check uses: the stored one if its parameters match, otherwise a fresh one. */
  function BucketFor(stored: Option<Bucket>, rate: u64, capacity: u64, now: u64): Bucket {
    if stored.Some? && stored.value.rate == rate && stored.value.capacity == capacity
    then stored.value
    else NewBucket(rate, capacity, now)
  }

  function Stored(m: Buckets, key: string): Option<Bucket> {
    if key in m then Some(m[key]) else None
  }

  /** Every key lives in the shard its hash names. */
  ghost predicate WellPlaced(shards: seq<Buckets>, hash: string -> nat) {
    |shards| > 0
    && forall i, k :: 0 <= i < |shards| && k in shards[i] ==> hash(k) % |shards| == i
  }

  /** All shards seen as one map. */
  ghost function Joined(shards: seq<Buckets>, hash: string -> nat): Buckets {
    map i, k | 0 <= i < |shards| && k in shards[i] && hash(k) % |shards| == i :: k := shards[i][k]
  }

  lemma JoinedAt(shards: seq<Buckets>, hash: string -> nat, key: string)
    requires WellPlaced(shards, hash)
    ensures Stored(Joined(shards, hash), key) == Stored(shards[hash(key) % |shards|], key)
  {
  }

  lemma JoinedUpdate(shards: seq<Buckets>, hash: string -> nat, key: string, b: Bucket)
    requires WellPlaced(shards, hash)
    ensures var i := hash(key) % |shards|;
            var updated := shards[i := shards[i][key := b]];
            WellPlaced(updated, hash) && Joined(updated, hash) == Joined(shards, hash)[key := b]
  {
    var i := hash(key) % |shards|;
    var updated := shards[i := shards[i][key := b]];
    forall k
      ensures Stored(Joined(updated, hash), k) == Stored(Joined(shards, hash)[key := b], k)
    {
      JoinedAt(shards, hash, k);
      JoinedAt(updated, hash, k);
    }
    SameLookups(Joined(updated, hash), Joined(shards, hash)[key := b]);
  }

  lemma SameLookups(m: Buckets, n: Buckets)
    requires forall k :: Stored(m, k) == Stored(n, k)
    ensures m == n
  {
    forall k
      ensures k in m <==> k in n
      ensures k in m ==> m[k] == n[k]
    {
      assert Stored(m, k) == Stored(n, k);
    }
  }

  /**
   What a check does to the buckets, in numbers.  A bucket of the parameters asked for is
   used as it stands; a key that has none meets a full one of exactly those parameters; no
   other key is touched.
   */
  ghost predicate Checked(before: Buckets, after: Buckets, key: string, rate: u64, capacity: u64, now: u64, ok: bool) {
    && key in after && after[key].rate == rate && after[key].capacity == capacity
    && (forall k :: k != key ==> (k in after <==> k in before))
    && (forall k :: k != key && k in before && k in after ==> after[k] == before[k])
    && (if key in before && before[key].rate == rate && before[key].capacity == capacity
        then ok == Admits(before[key], now, 1) && after[key] == AfterAllow(before[key], now, 1)
        else ok == (capacity >= 1)
             && after[key] == Bucket(rate, capacity, if capacity >= 1 then capacity - 1 else 0, now))
  }

  lemma ServeChecks(m: Buckets, key: string, rate: u64, capacity: u64, now: u64)
    ensures Checked(m, Serve(m, Check(key, rate, capacity, now)), key, rate, capacity, now,
                    Admits(BucketFor(Stored(m, key), rate, capacity, now), now, 1))
  {
    NewBucketIsFull(rate, capacity, now, 1);
  }

  class ShardedRateLimiter {
    const hash: string -> nat
    const rate: u64
    const capacity: u64
    var shards: seq<Buckets>

    ghost predicate Valid()
      reads this
    {
      WellPlaced(shards, hash)
    }

    ghost function Contents(): Buckets
      reads this
    {
      Joined(shards, hash)
    }

    constructor (rate: u64, capacity: u64, numShards: nat, hash: string -> nat)
      requires numShards > 0
      ensures Valid() && Contents() == map[]
      ensures this.rate == rate && this.capacity == capacity
    {
      this.hash := hash;
      this.rate := rate;
      this.capacity := capacity;
      shards := seq(numShards, _ => map[]);
    }

    method AllowWithParams(key: string, rate: u64, capacity: u64, now: u64) returns (ok: bool)
      requires Valid()
      modifies this`shards
      ensures Valid()
      ensures ok == Admits(BucketFor(Stored(old(Contents()), key), rate, capacity, now), now, 1)
      ensures Contents() == Serve(old(Contents()), Check(key, rate, capacity, now))
      ensures shards == ServeShards(old(shards), hash, Check(key, rate, capacity, now))
      ensures Checked(old(Contents()), Contents(), key, rate, capacity, now, ok)
    {
      ShardsRefineMap(shards, hash, Check(key, rate, capacity, now));
      ServeChecks(Contents(), key, rate, capacity, now);
      JoinedAt(shards, hash, key);
      var i := hash(key) % |shards|;
      var shard := shards[i];
      ghost var used := BucketFor(Stored(shard, key), rate, capacity, now);
      if key in shard && shard[key].rate == rate && shard[key].capacity == capacity {
        ok := Admits(shard[key], now, 1);
        shards := shards[i := shard[key := AfterAllow(shard[key], now, 1)]];
        return;
      }
      if key !in shard {
        shard := shard[key := NewBucket(rate, capacity, now)];
      }
      if shard[key].rate != rate || shard[key].capacity != capacity {
        shard := shard[key := NewBucket(rate, capacity, now)];
      }
      assert shard[key] == used;
      ok := Admits(shard[key], now, 1);
      assert shards[i][key := AfterAllow(used, now, 1)] == shard[key := AfterAllow(used, now, 1)];
      shards := shards[i := shard[key := AfterAllow(shard[key], now, 1)]];
    }

    method Allow(key: string, now: u64) returns (ok: bool)
      requires Valid()
      modifies this`shards
      ensures Valid()
      ensures ok == Admits(BucketFor(Stored(old(Contents()), key), rate, capacity, now), now, 1)
      ensures Contents() == Serve(old(Contents()), Check(key, rate, capacity, now))
      ensures Checked(old(Contents()), Contents(), key, rate, capacity, now, ok)
    {
      ok := AllowWithParams(key, rate, capacity, now);
    }

    method Clear()
      requires Valid()
      modifies this`shards
      ensures Valid() && Contents() == map[]
      ensures shards == ServeShards(old(shards), hash, ClearAll)
    {
      var i := 0;
      while i < |shards|
        invariant 0 <= i <= |shards| == |old(shards)|
        invariant forall j :: 0 <= j < i ==> shards[j] == map[]
        invariant forall j :: i <= j < |shards| ==> shards[j] == old(shards)[j]
      {
        shards := shards[i := map[]];
        i := i + 1;
      }
    }
  }

  // ---------------------------------------------------------------------------
  // What one key sees, over whole histories
  // ---------------------------------------------------------------------------

  datatype Request =
    | Check(key: string, rate: u64, capacity: u64, now: u64)
    | ClearAll

  function Serve(m: Buckets, r: Request): Buckets {
    match r
    case Check(key, rate, capacity, now) =>
      m[key := AfterAllow(BucketFor(Stored(m, key), rate, capacity, now), now, 1)]
    case ClearAll => map[]
  }

  /** The answers given to `key` while a limiter holding `m` serves `rs`. */
  function AnswersFor(key: string, m: Buckets, rs: seq<Request>): seq<bool>
    decreases |rs|
  {
    if rs == [] then [] else
      (if rs[0].Check? && rs[0].key == key
       then [Admits(BucketFor(Stored(m, key), rs[0].rate, rs[0].capacity, rs[0].now), rs[0].now, 1)]
       else [])
      + AnswersFor(key, Serve(m, rs[0]), rs[1..])
  }

  /** The answers of a limiter that has one bucket only. */
  function AloneAnswers(stored: Option<Bucket>, rs: seq<Request>): seq<bool>
    decreases |rs|
  {
    if rs == [] then [] else
      match rs[0]
      case ClearAll => AloneAnswers(None, rs[1..])
      case Check(_, rate, capacity, now) =>
        var b := BucketFor(stored, rate, capacity, now);
        [Admits(b, now, 1)] + AloneAnswers(Some(AfterAllow(b, now, 1)), rs[1..])
  }

  function Concerning(key: string, rs: seq<Request>): seq<Request>
    decreases |rs|
  {
    if rs == [] then [] else
      (if rs[0].ClearAll? || rs[0].key == key then [rs[0]] else []) + Concerning(key, rs[1..])
  }

  /**
   The answers for a key depend on the checks of that key and on the clears only: they are
   those of a single bucket that sees nothing else.
   */
  lemma {:induction false} KeysAreIndependent(key: string, m: Buckets, rs: seq<Request>)
    ensures AnswersFor(key, m, rs) == AloneAnswers(Stored(m, key), Concerning(key, rs))
    decreases |rs|
  {
    if rs != [] {
      var rest := Concerning(key, rs[1..]);
      KeysAreIndependent(key, Serve(m, rs[0]), rs[1..]);
      if rs[0].ClearAll? || rs[0].key == key {
        assert Concerning(key, rs) == [rs[0]] + rest;
        assert ([rs[0]] + rest)[1..] == rest && ([rs[0]] + rest)[0] == rs[0];
      } else {
        assert Concerning(key, rs) == rest;
        assert AnswersFor(key, m, rs) == AnswersFor(key, Serve(m, rs[0]), rs[1..]);
      }
    }
  }

  // ---------------------------------------------------------------------------
  // A key whose parameters stay the same
  // ---------------------------------------------------------------------------

  /** All requests concerning the key are checks with these parameters, at times in order from `from` on. */
  ghost predicate Steady(rs: seq<Request>, rate: u64, capacity: u64, from: u64) {
    && (forall i :: 0 <= i < |rs| ==> rs[i].Check? && rs[i].rate == rate && rs[i].capacity == capacity)
    && (forall i :: 0 <= i < |rs| ==> from <= rs[i].now)
    && forall i, j :: 0 <= i < j < |rs| ==> rs[i].now <= rs[j].now
  }

  /** The same, from the first of them on. */
  ghost predicate SteadyRun(rs: seq<Request>, rate: u64, capacity: u64) {
    rs != [] && rs[0].Check? && Steady(rs, rate, capacity, rs[0].now)
  }

  function CallsOf(rs: seq<Request>): (calls: seq<TimedCall>)
    requires forall i :: 0 <= i < |rs| ==> rs[i].Check?
    ensures |calls| == |rs|
    ensures forall i :: 0 <= i < |rs| ==> calls[i] == TimedCall(rs[i].now, 1)
  {
    seq(|rs|, i requires 0 <= i < |rs| => TimedCall(rs[i].now, 1))
  }

  /** The answers of one bucket that is called in turn. */
  function AnswersInTurn(b: Bucket, calls: seq<TimedCall>): seq<bool>
    decreases |calls|
  {
    if calls == [] then [] else
      [Admits(b, calls[0].now, calls[0].n)] + AnswersInTurn(AfterAllow(b, calls[0].now, calls[0].n), calls[1..])
  }

  function Admissions(answers: seq<bool>): nat {
    if answers == [] then 0 else (if answers[0] then 1 else 0) + Admissions(answers[1..])
  }

  /** With steady parameters a stored bucket of those parameters is the one that answers. */
  lemma {:induction false} SteadyAnswers(b: Bucket, rs: seq<Request>, from: u64)
    requires Steady(rs, b.rate, b.capacity, from)
    ensures AloneAnswers(Some(b), rs) == AnswersInTurn(b, CallsOf(rs))
    decreases |rs|
  {
    if rs != [] {
      var after := AfterAllow(b, rs[0].now, 1);
      assert CallsOf(rs)[1..] == CallsOf(rs[1..]);
      SteadyAnswers(after, rs[1..], from);
    }
  }

  lemma {:induction false} AdmissionsInTurn(b: Bucket, calls: seq<TimedCall>)
    requires forall i :: 0 <= i < |calls| ==> calls[i].n == 1
    ensures Admissions(AnswersInTurn(b, calls)) == TotalAdmitted(b, calls)
    decreases |calls|
  {
    if calls != [] {
      var rest := AnswersInTurn(AfterAllow(b, calls[0].now, calls[0].n), calls[1..]);
      AdmissionsInTurn(AfterAllow(b, calls[0].now, calls[0].n), calls[1..]);
      assert ([Admits(b, calls[0].now, calls[0].n)] + rest)[1..] == rest;
    }
  }

  /**
   A key that has no bucket of the parameters asked for is answered as by one bucket,
   created full at its first check and called in turn, for as long as the parameters stay
   the same.
   */
  lemma AnswersOfOneBucket(key: string, m: Buckets, rs: seq<Request>, rate: u64, capacity: u64)
    requires SteadyRun(Concerning(key, rs), rate, capacity)
    requires key in m ==> m[key].rate != rate || m[key].capacity != capacity
    ensures var own := Concerning(key, rs);
            AnswersFor(key, m, rs) == AnswersInTurn(Bucket(rate, capacity, capacity, own[0].now), CallsOf(own))
  {
    var own := Concerning(key, rs);
    var full := Bucket(rate, capacity, capacity, own[0].now);
    KeysAreIndependent(key, m, rs);
    SteadyAnswers(full, own, own[0].now);
    assert AloneAnswers(Stored(m, key), own) == AloneAnswers(Some(full), own);
  }

  /**
   Such a key is admitted at most its capacity and what the rate earns between its first and
   its last check, in tokens per million microseconds.
   */
  lemma KeyAdmissionBound(key: string, m: Buckets, rs: seq<Request>, rate: u64, capacity: u64)
    requires SteadyRun(Concerning(key, rs), rate, capacity)
    requires key in m ==> m[key].rate != rate || m[key].capacity != capacity
    ensures var own := Concerning(key, rs);
            var elapsed := own[|own| - 1].now - own[0].now;
            Admissions(AnswersFor(key, m, rs)) * 1_000_000 <= capacity * 1_000_000 + rate * elapsed
  {
    var own := Concerning(key, rs);
    var full := Bucket(rate, capacity, capacity, own[0].now);
    AnswersOfOneBucket(key, m, rs, rate, capacity);
    AdmissionsInTurn(full, CallsOf(own));
    TotalBackedByTime(full, CallsOf(own), own[|own| - 1].now);
  }

  lemma BucketAdmissionBound(b: Bucket, own: seq<Request>)
    requires b.tokens <= b.capacity && own != [] && Steady(own, b.rate, b.capacity, b.lastRefill)
    ensures var elapsed := own[|own| - 1].now - own[0].now;
            Admissions(AnswersInTurn(b, CallsOf(own))) * 1_000_000 < (b.capacity + 1) * 1_000_000 + b.rate * elapsed
  {
    AdmissionsInTurn(b, CallsOf(own));
    SequentialWindowBound(b, CallsOf(own));
  }

  /** A key that keeps its bucket is admitted no more than that and one token besides, from any state of it. */
  lemma KeyAdmissionBoundAnyState(key: string, m: Buckets, rs: seq<Request>, b: Bucket, own: seq<Request>)
    requires Stored(m, key) == Some(b) && b.tokens <= b.capacity
    requires own == Concerning(key, rs) && own != [] && Steady(own, b.rate, b.capacity, b.lastRefill)
    ensures var elapsed := own[|own| - 1].now - own[0].now;
            Admissions(AnswersFor(key, m, rs)) * 1_000_000 < (b.capacity + 1) * 1_000_000 + b.rate * elapsed
  {
    KeysAreIndependent(key, m, rs);
    SteadyAnswers(b, own, b.lastRefill);
    BucketAdmissionBound(b, own);
  }

  // ---------------------------------------------------------------------------
  // Sharding cannot be observed
  // ---------------------------------------------------------------------------

  function ShardOf(shards: seq<Buckets>, hash: string -> nat, key: string): Buckets
    requires |shards| > 0
  {
    shards[hash(key) % |shards|]
  }

  function ServeShards(shards: seq<Buckets>, hash: string -> nat, r: Request): (after: seq<Buckets>)
    requires |shards| > 0
    ensures |after| == |shards|
  {
    match r
    case Check(key, rate, capacity, now) =>
      var shard := ShardOf(shards, hash, key);
      var used := BucketFor(Stored(shard, key), rate, capacity, now);
      shards[hash(key) % |shards| := shard[key := AfterAllow(used, now, 1)]]
    case ClearAll => seq(|shards|, _ => map[])
  }

  /** One request on the shards is that request on the map they stand for. */
  lemma ShardsRefineMap(shards: seq<Buckets>, hash: string -> nat, r: Request)
    requires WellPlaced(shards, hash)
    ensures WellPlaced(ServeShards(shards, hash, r), hash)
    ensures Joined(ServeShards(shards, hash, r), hash) == Serve(Joined(shards, hash), r)
  {
    if r.Check? {
      JoinedAt(shards, hash, r.key);
      var used := BucketFor(Stored(Joined(shards, hash), r.key), r.rate, r.capacity, r.now);
      JoinedUpdate(shards, hash, r.key, AfterAllow(used, r.now, 1));
    }
  }

  function ShardedAnswersFor(key: string, shards: seq<Buckets>, hash: string -> nat, rs: seq<Request>): seq<bool>
    requires |shards| > 0
    decreases |rs|
  {
    if rs == [] then [] else
      (if rs[0].Check? && rs[0].key == key
       then var used := BucketFor(Stored(ShardOf(shards, hash, key), key), rs[0].rate, rs[0].capacity, rs[0].now);
            [Admits(used, rs[0].now, 1)]
       else [])
      + ShardedAnswersFor(key, ServeShards(shards, hash, rs[0]), hash, rs[1..])
  }

  lemma {:induction false} ShardedAnswersAreMapAnswers(
      key: string, shards: seq<Buckets>, hash: string -> nat, rs: seq<Request>)
    requires WellPlaced(shards, hash)
    ensures ShardedAnswersFor(key, shards, hash, rs) == AnswersFor(key, Joined(shards, hash), rs)
    decreases |rs|
  {
    if rs != [] {
      JoinedAt(shards, hash, key);
      ShardsRefineMap(shards, hash, rs[0]);
      ShardedAnswersAreMapAnswers(key, ServeShards(shards, hash, rs[0]), hash, rs[1..]);
    }
  }

  /**
   Two limiters with different shard counts, different hashes and different other keys
   give a key the same answers, as long as they hold the same bucket for it.
   */
  lemma ShardingIsInvisible(
      key: string, rs1: seq<Request>, rs2: seq<Request>,
      shards1: seq<Buckets>, hash1: string -> nat, shards2: seq<Buckets>, hash2: string -> nat)
    requires WellPlaced(shards1, hash1) && WellPlaced(shards2, hash2)
    requires Stored(ShardOf(shards1, hash1, key), key) == Stored(ShardOf(shards2, hash2, key), key)
    requires Concerning(key, rs1) == Concerning(key, rs2)
    ensures ShardedAnswersFor(key, shards1, hash1, rs1) == ShardedAnswersFor(key, shards2, hash2, rs2)
  {
    ShardedAnswersAreMapAnswers(key, shards1, hash1, rs1);
    ShardedAnswersAreMapAnswers(key, shards2, hash2, rs2);
    JoinedAt(shards1, hash1, key);
    JoinedAt(shards2, hash2, key);
    KeysAreIndependent(key, Joined(shards1, hash1), rs1);
    KeysAreIndependent(key, Joined(shards2, hash2), rs2);
  }

  // ---------------------------------------------------------------------------
  // The retuning layer
  // ---------------------------------------------------------------------------

  const GLOBAL_KEY := "global"

  function EntityKey(prefix: string, id: string): string {
    prefix + ":" + id
  }

  /** Organisations and keys never share a bucket, and neither do two ids of one kind. */
  lemma EntityKeysDistinct(id1: string, id2: string)
    ensures EntityKey("org", id1) != EntityKey("key", id2)
    ensures id1 != id2 ==> EntityKey("org", id1) != EntityKey("org", id2)
    ensures id1 != id2 ==> EntityKey("key", id1) != EntityKey("key", id2)
  {
    assert EntityKey("org", id1)[0] == 'o' && EntityKey("key", id2)[0] == 'k';
    assert EntityKey("org", id1)[4..] == id1 && EntityKey("org", id2)[4..] == id2;
    assert EntityKey("key", id1)[4..] == id1 && EntityKey("key", id2)[4..] == id2;
  }

  class RateLimiter {
    const global: ShardedRateLimiter
    const perEntity: ShardedRateLimiter
    var defaultRate: u64
    var defaultBurst: u64

    ghost predicate Valid()
      reads this, global, perEntity
    {
      global != perEntity && global.Valid() && perEntity.Valid()
    }

    constructor (rate: u64, burst: u64, hash: string -> nat)
      ensures Valid() && fresh(global) && fresh(perEntity)
      ensures defaultRate == rate && defaultBurst == burst
      ensures global.Contents() == map[] && perEntity.Contents() == map[]
    {
      global := new ShardedRateLimiter(rate, burst, 64, hash);
      perEntity := new ShardedRateLimiter(rate, burst, 64, hash);
      defaultRate := rate;
      defaultBurst := burst;
    }

    /** Retuning touches no bucket; the next check rebuilds the ones that no longer fit. */
    method SetDefaults(rate: u64, burst: u64)
      requires Valid()
      modifies this
      ensures Valid() && defaultRate == rate && defaultBurst == burst
      ensures global.Contents() == old(global.Contents())
      ensures perEntity.Contents() == old(perEntity.Contents())
    {
      defaultRate := rate;
      defaultBurst := burst;
    }

    method CheckGlobal(now: u64) returns (ok: bool)
      requires Valid()
      modifies global`shards
      ensures Valid()
      ensures perEntity.Contents() == old(perEntity.Contents())
      ensures var used := BucketFor(Stored(old(global.Contents()), GLOBAL_KEY), defaultRate, defaultBurst, now);
              && used.rate == defaultRate && used.capacity == defaultBurst
              && ok == Admits(used, now, 1)
              && global.Contents() == old(global.Contents())[GLOBAL_KEY := AfterAllow(used, now, 1)]
      ensures Checked(old(global.Contents()), global.Contents(), "global", defaultRate, defaultBurst, now, ok)
    {
      ok := global.AllowWithParams(GLOBAL_KEY, defaultRate, defaultBurst, now);
    }

    method CheckEntity(prefix: string, id: string, rate: Option<u64>, burst: Option<u64>, now: u64)
      returns (ok: bool)
      requires Valid()
      modifies perEntity`shards
      ensures Valid()
      ensures global.Contents() == old(global.Contents())
      ensures var key := EntityKey(prefix, id);
              var r := if rate.Some? then rate.value else defaultRate;
              var b := if burst.Some? then burst.value else defaultBurst;
              var used := BucketFor(Stored(old(perEntity.Contents()), key), r, b, now);
              && used.rate == r && used.capacity == b
              && ok == Admits(used, now, 1)
              && perEntity.Contents() == old(perEntity.Contents())[key := AfterAllow(used, now, 1)]
      ensures Checked(old(perEntity.Contents()), perEntity.Contents(), prefix + ":" + id,
                      if rate.Some? then rate.value else defaultRate,
                      if burst.Some? then burst.value else defaultBurst, now, ok)
    {
      var r := if rate.Some? then rate.value else defaultRate;
      var b := if burst.Some? then burst.value else defaultBurst;
      ok := perEntity.AllowWithParams(EntityKey(prefix, id), r, b, now);
    }

    method Clear()
      requires Valid()
      modifies global`shards, perEntity`shards
      ensures Valid() && global.Contents() == map[] && perEntity.Contents() == map[]
    {
      global.Clear();
      perEntity.Clear();
    }
  }
}
