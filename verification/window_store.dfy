/**
 The per-key store of fixed-window counters.  Every shard is bounded; a new key that finds
 its shard full displaces an arbitrary other key of that shard.
 */
module WindowStores {
  import opened MachineInts
  import opened Options
  import opened FixedWindows
  import opened FiniteSets

  /** A shard: the packed word of each key's counter. */
  type Shard = map<string, u64>

  /** The word a key's next update works on; a key without a counter gets a new one. */
  function WordOf(shard: Shard, key: string): u64 {
    if key in shard then shard[key] else 0
  }

  function WordAt(shard: Shard, key: string): Option<u64> {
    if key in shard then Some(shard[key]) else None
  }

  /** The word after a reset. */
  function Cleared(l: Limit, now: u64): u64
    requires l.windowUs >= 1
  {
    Pack(WindowIndex(l, now), 0)
  }

  function ClearKey(shard: Shard, key: string, l: Limit, now: u64): Shard
    requires l.windowUs >= 1
  {
    shard[key := Cleared(l, now)]
  }

  function Without(shard: Shard, evicted: Option<string>): Shard {
    if evicted.Some? then shard - {evicted.value} else shard
  }

  ghost predicate WithinCap(shard: Shard, maxKeys: nat) {
    maxKeys > 0 ==> |shard| <= maxKeys
  }

  /** Eviction happens exactly when a new key meets a full shard, and takes a key out of it. */
  ghost predicate EvictsRightly(shard: Shard, key: string, maxKeys: nat, evicted: Option<string>) {
    && (evicted.Some? <==> key !in shard && maxKeys > 0 && |shard| >= maxKeys)
    && (evicted.Some? ==> evicted.value in shard)
  }

  lemma EvictionKeepsCap(shard: Shard, key: string, maxKeys: nat, evicted: Option<string>, word: u64)
    requires WithinCap(shard, maxKeys) && EvictsRightly(shard, key, maxKeys, evicted)
    ensures WithinCap(Without(shard, evicted)[key := word], maxKeys)
  {
    var kept := Without(shard, evicted);
    if evicted.Some? {
      assert kept.Keys == shard.Keys - {evicted.value};
      assert |kept.Keys| == |shard.Keys| - 1;
    }
    if key in shard {
      assert kept[key := word].Keys == shard.Keys;
    } else {
      assert kept[key := word].Keys == kept.Keys + {key};
    }
  }

  class RateLimiterStore {
    const hash: string -> nat
    const limit: Limit
    const maxKeys: nat
    var shards: seq<Shard>

    ghost predicate Valid()
      reads this
    {
      && ValidLimit(limit)
      && |shards| > 0
      && forall i :: 0 <= i < |shards| ==> WithinCap(shards[i], maxKeys)
    }

    function ShardIndex(key: string): (i: nat)
      requires |shards| > 0
      reads this
      ensures i < |shards|
    {
      hash(key) % |shards|
    }

    constructor (rate: u64, windowMicros: u64, maxKeys: nat, numShards: nat, hash: string -> nat)
      requires numShards > 0
      ensures Valid()
      ensures limit == NewLimit(rate, windowMicros) && this.maxKeys == maxKeys
      ensures shards == seq(numShards, _ => map[])
    {
      this.hash := hash;
      this.maxKeys := maxKeys;
      limit := NewLimit(rate, windowMicros);
      shards := seq(numShards, _ => map[]);
    }

    method Allow(key: string, now: u64) returns (ok: bool, ghost evicted: Option<string>)
      requires Valid()
      modifies this`shards
      ensures Valid() && |shards| == |old(shards)|
      ensures var i := ShardIndex(key);
              var word := WordOf(old(shards)[i], key);
              && EvictsRightly(old(shards)[i], key, maxKeys, evicted)
              && ok == Grants(limit, word, now, 1)
              && shards == old(shards)[i := Without(old(shards)[i], evicted)[key := Taken(limit, word, now, 1)]]
      ensures shards == AfterUseOf(limit, old(shards), hash, Request(key, now, evicted))
      ensures key !in old(shards)[hash(key) % |shards|] ==> (ok <==> limit.maxRequests >= 1)
      ensures key in old(shards)[hash(key) % |shards|] ==>
                ok == Grants(limit, old(shards)[hash(key) % |shards|][key], now, 1)
      ensures forall i :: 0 <= i < |shards| && i != hash(key) % |shards| ==> shards[i] == old(shards)[i]
      ensures forall k :: k != key && evicted != Some(k) ==>
                WordAt(shards[hash(key) % |shards|], k) == WordAt(old(shards)[hash(key) % |shards|], k)
    {
      var i := ShardIndex(key);
      var shard := shards[i];
      evicted := None;
      if key in shard {
        ok := Grants(limit, shard[key], now, 1);
        EvictionKeepsCap(shard, key, maxKeys, evicted, Taken(limit, shard[key], now, 1));
        shards := shards[i := shard[key := Taken(limit, shard[key], now, 1)]];
        return;
      }
      if maxKeys > 0 && |shard| >= maxKeys {
        assert |shard.Keys| > 0;
        var victim :| victim in shard;
        evicted := Some(victim);
        shard := shard - {victim};
      }
      ok := Grants(limit, 0, now, 1);
      EvictionKeepsCap(shards[i], key, maxKeys, evicted, Taken(limit, 0, now, 1));
      shards := shards[i := shard[key := Taken(limit, 0, now, 1)]];
    }

    method GetCount(key: string, now: u64) returns (count: nat)
      requires Valid()
      ensures count == CountIn(WordOf(shards[ShardIndex(key)], key), WindowIndex(limit, now))
    {
      var shard := shards[ShardIndex(key)];
      if key in shard {
        count := CountIn(shard[key], WindowIndex(limit, now));
      } else {
        count := 0;
      }
    }

    method Reset(key: string, now: u64)
      requires Valid()
      modifies this`shards
      ensures Valid() && |shards| == |old(shards)|
      ensures var i := ShardIndex(key);
              shards == if key in old(shards)[i]
                        then old(shards)[i := ClearKey(old(shards)[i], key, limit, now)]
                        else old(shards)
      ensures shards == AfterUseOf(limit, old(shards), hash, ResetKey(key, now))
    {
      var i := ShardIndex(key);
      if key in shards[i] {
        EvictionKeepsCap(shards[i], key, maxKeys, None, Cleared(limit, now));
        shards := shards[i := ClearKey(shards[i], key, limit, now)];
      }
    }
  }

  // ---------------------------------------------------------------------------
  // What one key is granted over the life of its shard
  // ---------------------------------------------------------------------------

  datatype Use =
    | Request(key: string, now: u64, evicted: Option<string>)
    | ResetKey(key: string, now: u64)

  function AfterUse(l: Limit, shard: Shard, u: Use): Shard
    requires ValidLimit(l)
  {
    match u
    case Request(key, now, evicted) =>
      Without(shard, evicted)[key := Taken(l, WordOf(shard, key), now, 1)]
    case ResetKey(key, now) =>
      if key in shard then ClearKey(shard, key, l, now) else shard
  }

  /** Each use names as evicted a key the store could have evicted at that point. */
  ghost predicate Possible(l: Limit, maxKeys: nat, shard: Shard, us: seq<Use>)
    requires ValidLimit(l)
    decreases |us|
  {
    us == [] ||
    (&& (us[0].Request? ==> EvictsRightly(shard, us[0].key, maxKeys, us[0].evicted))
     && Possible(l, maxKeys, AfterUse(l, shard, us[0]), us[1..]))
  }

  function GrantedToKey(l: Limit, shard: Shard, us: seq<Use>, key: string, w: nat): nat
    requires ValidLimit(l)
    decreases |us|
  {
    if us == [] then 0 else
      (if us[0].Request? && us[0].key == key && WindowIndex(l, us[0].now) == w
          && Grants(l, WordOf(shard, key), us[0].now, 1) then 1 else 0)
      + GrantedToKey(l, AfterUse(l, shard, us[0]), us[1..], key, w)
  }

  /** Ways a key's window can be opened again: it is evicted, reset, or put back by a stale caller. */
  function Reopenings(l: Limit, shard: Shard, us: seq<Use>, key: string): nat
    requires ValidLimit(l)
    decreases |us|
  {
    if us == [] then 0 else
      ReopenedBy(l, shard, us[0], key) + Reopenings(l, AfterUse(l, shard, us[0]), us[1..], key)
  }

  function ReopenedBy(l: Limit, shard: Shard, u: Use, key: string): nat
    requires ValidLimit(l)
  {
    match u
    case Request(k, now, evicted) =>
      if k == key then Setback(l, WordOf(shard, key), Take(now, 1))
      else if evicted == Some(key) then 1 else 0
    case ResetKey(k, now) => if k == key then 1 else 0
  }

  lemma UseStep(l: Limit, maxKeys: nat, shard: Shard, u: Use, key: string, w: nat, reopened: nat)
    requires ValidLimit(l) && Possible(l, maxKeys, shard, [u])
    requires CountOf(WordOf(shard, key)) <= l.maxRequests
    ensures var granted := GrantedToKey(l, shard, [u], key, w);
            && CountOf(WordOf(AfterUse(l, shard, u), key)) <= l.maxRequests
            && Allowance(l, WordOf(shard, key), w, reopened) + granted
               <= Allowance(l, WordOf(AfterUse(l, shard, u), key), w, reopened + ReopenedBy(l, shard, u, key))
  {
    var word := WordOf(shard, key);
    assert GrantedToKey(l, AfterUse(l, shard, u), [u][1..], key, w) == 0;
    if u.key == key {
      var e := if u.Request? then Take(u.now, 1) else ResetAt(u.now);
      AllowanceStep(l, word, e, w, reopened);
      if u.ResetKey? && key !in shard {
        MulMono(l.maxRequests, reopened, reopened + 1);
      }
    } else if u.Request? && u.evicted == Some(key) {
      AllowanceAtMost(l, word, w, reopened);
    }
  }

  lemma {:induction false} KeyWithinAllowance(
      l: Limit, maxKeys: nat, shard: Shard, us: seq<Use>, key: string, w: nat, reopened: nat)
    requires ValidLimit(l) && Possible(l, maxKeys, shard, us)
    requires CountOf(WordOf(shard, key)) <= l.maxRequests
    ensures Allowance(l, WordOf(shard, key), w, reopened) + GrantedToKey(l, shard, us, key, w)
         <= l.maxRequests * (reopened + Reopenings(l, shard, us, key) + 1)
    decreases |us|
  {
    if us == [] {
      AllowanceAtMost(l, WordOf(shard, key), w, reopened);
    } else {
      var u := us[0];
      assert [u][0] == u && [u][1..] == [];
      UseStep(l, maxKeys, shard, u, key, w, reopened);
      KeyWithinAllowance(l, maxKeys, AfterUse(l, shard, u), us[1..], key, w, reopened + ReopenedBy(l, shard, u, key));
    }
  }

  /**
   A key is granted at most the limit in a window, and again the limit each time it is
   evicted by another key, reset, or set back by a stale caller.
   */
  lemma KeyGrantedPerWindow(l: Limit, maxKeys: nat, us: seq<Use>, key: string, w: nat)
    requires ValidLimit(l) && Possible(l, maxKeys, map[], us)
    ensures GrantedToKey(l, map[], us, key, w) <= l.maxRequests * (Reopenings(l, map[], us, key) + 1)
  {
    KeyWithinAllowance(l, maxKeys, map[], us, key, w, 0);
  }

  // ---------------------------------------------------------------------------
  // How many keys the whole store holds
  // ---------------------------------------------------------------------------

  function Home(hash: string -> nat, n: nat, key: string): (i: nat)
    requires n > 0
    ensures i < n
  {
    hash(key) % n
  }

  function Empty(n: nat): seq<Shard> {
    seq(n, _ => map[])
  }

  function KeysOf(shards: seq<Shard>): set<string> {
    set i, k | 0 <= i < |shards| && k in shards[i] :: k
  }

  /** A use of the store is a use of the shard its key lives in. */
  function AfterUseOf(l: Limit, shards: seq<Shard>, hash: string -> nat, u: Use): (after: seq<Shard>)
    requires ValidLimit(l) && |shards| > 0
    ensures |after| == |shards|
  {
    var i := Home(hash, |shards|, u.key);
    shards[i := AfterUse(l, shards[i], u)]
  }

  function AfterAll(l: Limit, shards: seq<Shard>, hash: string -> nat, us: seq<Use>): (after: seq<Shard>)
    requires ValidLimit(l) && |shards| > 0
    ensures |after| == |shards|
    decreases |us|
  {
    if us == [] then shards else AfterAll(l, AfterUseOf(l, shards, hash, us[0]), hash, us[1..])
  }

  /** Each use names as evicted a key its shard could have evicted at that point. */
  ghost predicate PossibleRun(l: Limit, maxKeys: nat, shards: seq<Shard>, hash: string -> nat, us: seq<Use>)
    requires ValidLimit(l) && |shards| > 0
    decreases |us|
  {
    us == [] ||
    (&& Possible(l, maxKeys, shards[Home(hash, |shards|, us[0].key)], us[..1])
     && PossibleRun(l, maxKeys, AfterUseOf(l, shards, hash, us[0]), hash, us[1..]))
  }

  /** Every key is in the shard it belongs to, and no shard holds more than the cap. */
  ghost predicate Tidy(shards: seq<Shard>, hash: string -> nat, maxKeys: nat) {
    && |shards| > 0
    && (forall i :: 0 <= i < |shards| ==> WithinCap(shards[i], maxKeys))
    && forall i, k :: 0 <= i < |shards| && k in shards[i] ==> Home(hash, |shards|, k) == i
  }

  lemma UseKeepsTidy(l: Limit, maxKeys: nat, shards: seq<Shard>, hash: string -> nat, u: Use)
    requires ValidLimit(l) && Tidy(shards, hash, maxKeys)
    requires Possible(l, maxKeys, shards[Home(hash, |shards|, u.key)], [u])
    ensures Tidy(AfterUseOf(l, shards, hash, u), hash, maxKeys)
  {
    var shard := shards[Home(hash, |shards|, u.key)];
    match u {
      case Request(key, now, evicted) =>
        EvictionKeepsCap(shard, key, maxKeys, evicted, Taken(l, WordOf(shard, key), now, 1));
      case ResetKey(key, now) =>
        if key in shard {
          EvictionKeepsCap(shard, key, maxKeys, None, Cleared(l, now));
        }
    }
  }

  lemma {:induction false} RunKeepsTidy(l: Limit, maxKeys: nat, shards: seq<Shard>, hash: string -> nat, us: seq<Use>)
    requires ValidLimit(l) && Tidy(shards, hash, maxKeys) && PossibleRun(l, maxKeys, shards, hash, us)
    ensures Tidy(AfterAll(l, shards, hash, us), hash, maxKeys)
    decreases |us|
  {
    if us != [] {
      assert us[..1] == [us[0]];
      UseKeepsTidy(l, maxKeys, shards, hash, us[0]);
      RunKeepsTidy(l, maxKeys, AfterUseOf(l, shards, hash, us[0]), hash, us[1..]);
    }
  }

  lemma {:induction false} KeysPerShard(shards: seq<Shard>, maxKeys: nat)
    requires forall i :: 0 <= i < |shards| ==> |shards[i]| <= maxKeys
    ensures |KeysOf(shards)| <= |shards| * maxKeys
    decreases |shards|
  {
    if shards == [] {
      assert KeysOf(shards) == {};
    } else {
      var n := |shards| - 1;
      KeysPerShard(shards[..n], maxKeys);
      KeysOfLast(shards);
      UnionSize(KeysOf(shards[..n]), shards[n].Keys);
      assert |shards| * maxKeys == n * maxKeys + maxKeys;
    }
  }

  lemma KeysOfLast(shards: seq<Shard>)
    requires shards != []
    ensures KeysOf(shards) == KeysOf(shards[..|shards| - 1]) + shards[|shards| - 1].Keys
  {
    var n := |shards| - 1;
    var front := shards[..n];
    forall k ensures k in KeysOf(shards) <==> k in KeysOf(front) || k in shards[n] {
      if k in KeysOf(front) {
        var i :| 0 <= i < n && k in front[i];
        assert k in shards[i];
      }
      if k in KeysOf(shards) {
        var i :| 0 <= i <= n && k in shards[i];
        assert i < n ==> k in front[i];
      }
    }
  }

  /** Over every run the store holds at most the cap times the number of shards. */
  lemma StoreWithinShardCaps(l: Limit, maxKeys: nat, n: nat, hash: string -> nat, us: seq<Use>)
    requires ValidLimit(l) && maxKeys > 0 && n > 0 && PossibleRun(l, maxKeys, Empty(n), hash, us)
    ensures |KeysOf(AfterAll(l, Empty(n), hash, us))| <= n * maxKeys
  {
    RunKeepsTidy(l, maxKeys, Empty(n), hash, us);
    KeysPerShard(AfterAll(l, Empty(n), hash, us), maxKeys);
  }

  /** The keys of the run so far, each in its shard. */
  ghost predicate Holds(shards: seq<Shard>, hash: string -> nat, keys: seq<string>) {
    && |shards| > 0
    && forall i, k :: 0 <= i < |shards| ==> (k in shards[i] <==> k in keys && Home(hash, |shards|, k) == i)
  }

  function Requests(keys: seq<string>): seq<Use> {
    seq(|keys|, i requires 0 <= i < |keys| => Request(keys[i], 0, None))
  }

  ghost predicate Distinct(keys: seq<string>) {
    forall i, j :: 0 <= i < j < |keys| ==> keys[i] != keys[j]
  }

  function SetOf(keys: seq<string>): set<string> {
    set k | k in keys
  }

  lemma {:induction false} SizeOfDistinct(keys: seq<string>)
    requires Distinct(keys)
    ensures |SetOf(keys)| == |keys|
    decreases |keys|
  {
    if keys != [] {
      SizeOfDistinct(keys[1..]);
      assert keys[0] !in keys[1..];
      assert SetOf(keys) == {keys[0]} + SetOf(keys[1..]);
    }
  }

  /** With keys of two shards among `keys`, the shard of the next key still has room. */
  lemma RoomLeft(shards: seq<Shard>, hash: string -> nat, keys: seq<string>, j: nat, maxKeys: nat, a: string, b: string)
    requires j < |keys| == maxKeys + 1 && Distinct(keys) && Holds(shards, hash, keys[..j])
    requires a in keys && b in keys && Home(hash, |shards|, a) != Home(hash, |shards|, b)
    ensures keys[j] !in shards[Home(hash, |shards|, keys[j])]
    ensures |shards[Home(hash, |shards|, keys[j])]| < maxKeys
  {
    var key := keys[j];
    var i := Home(hash, |shards|, key);
    var other := if Home(hash, |shards|, a) == i then b else a;
    forall k | k in shards[i] ensures k in SetOf(keys) - {other} - {key} {
      assert k in keys[..j];
      var m :| 0 <= m < j && keys[m] == k;
      assert k in keys && k != key;
    }
    SizeOfDistinct(keys);
    SubsetSize(shards[i].Keys, SetOf(keys) - {other} - {key});
    assert key in SetOf(keys) && other in SetOf(keys) && other != key;
    assert |SetOf(keys) - {other} - {key}| == |SetOf(keys)| - 2;
  }

  lemma {:induction false} AllKept(l: Limit, maxKeys: nat, shards: seq<Shard>, hash: string -> nat,
                                   keys: seq<string>, j: nat, a: string, b: string)
    requires ValidLimit(l) && j <= |keys| == maxKeys + 1 && Distinct(keys) && Holds(shards, hash, keys[..j])
    requires a in keys && b in keys && Home(hash, |shards|, a) != Home(hash, |shards|, b)
    ensures PossibleRun(l, maxKeys, shards, hash, Requests(keys)[j..])
    ensures Holds(AfterAll(l, shards, hash, Requests(keys)[j..]), hash, keys)
    decreases |keys| - j
  {
    var us := Requests(keys)[j..];
    if j == |keys| {
      assert keys[..j] == keys;
    } else {
      var u := Request(keys[j], 0, None);
      assert us[0] == u && us[..1] == [u] && us[1..] == Requests(keys)[j + 1..];
      RoomLeft(shards, hash, keys, j, maxKeys, a, b);
      assert keys[..j + 1] == keys[..j] + [keys[j]];
      AllKept(l, maxKeys, AfterUseOf(l, shards, hash, u), hash, keys, j + 1, a, b);
    }
  }

  /** A run after which the store holds one key more than the cap. */
  lemma OneKeyTooMany(l: Limit, maxKeys: nat, n: nat, hash: string -> nat, a: string, b: string)
      returns (us: seq<Use>)
    requires ValidLimit(l) && maxKeys > 0 && n > 0 && Home(hash, n, a) != Home(hash, n, b)
    ensures PossibleRun(l, maxKeys, Empty(n), hash, us)
    ensures |KeysOf(AfterAll(l, Empty(n), hash, us))| == maxKeys + 1
  {
    var keys := ManyKeys(a, b, maxKeys + 1);
    us := Requests(keys);
    assert us[0..] == us;
    AllKept(l, maxKeys, Empty(n), hash, keys, 0, a, b);
    HeldKeys(AfterAll(l, Empty(n), hash, us), hash, keys);
  }

  lemma HeldKeys(shards: seq<Shard>, hash: string -> nat, keys: seq<string>)
    requires Holds(shards, hash, keys) && Distinct(keys)
    ensures |KeysOf(shards)| == |keys|
  {
    forall k | k in keys ensures k in KeysOf(shards) {
      assert k in shards[Home(hash, |shards|, k)];
    }
    assert KeysOf(shards) == SetOf(keys);
    SizeOfDistinct(keys);
  }

  lemma ManyKeys(a: string, b: string, count: nat) returns (keys: seq<string>)
    requires a != b && count >= 2
    ensures Distinct(keys) && |keys| == count && a in keys && b in keys
  {
    var long := Long(|a| + |b| + 1, count - 2);
    keys := [a, b] + long;
    assert keys[0] == a && keys[1] == b;
    forall i, j | 0 <= i < j < |keys| ensures keys[i] != keys[j] {
      assert j >= 2 ==> keys[j] == long[j - 2];
      assert i >= 2 ==> keys[i] == long[i - 2];
    }
  }

  /** `count` strings, no two of one length, all of length `least` or more. */
  function Long(least: nat, count: nat): (keys: seq<string>)
    ensures |keys| == count
    ensures forall i :: 0 <= i < count ==> |keys[i]| == least + i
  {
    seq(count, (i: nat) => seq(least + i, _ => 'k'))
  }

  lemma OneShardHoldsAll(shards: seq<Shard>, hash: string -> nat, maxKeys: nat)
    requires Tidy(shards, hash, maxKeys) && maxKeys > 0
    requires forall a, b :: Home(hash, |shards|, a) == Home(hash, |shards|, b)
    ensures |KeysOf(shards)| <= maxKeys
  {
    var home := Home(hash, |shards|, "");
    forall k | k in KeysOf(shards) ensures k in shards[home] {
      var i :| 0 <= i < |shards| && k in shards[i];
      assert Home(hash, |shards|, k) == i;
    }
    SubsetSize(KeysOf(shards), shards[home].Keys);
  }

  /** The cap holds for the store as a whole after a run. */
  ghost predicate KeepsCap(l: Limit, maxKeys: nat, n: nat, hash: string -> nat, us: seq<Use>)
    requires ValidLimit(l) && n > 0
  {
    PossibleRun(l, maxKeys, Empty(n), hash, us) ==> |KeysOf(AfterAll(l, Empty(n), hash, us))| <= maxKeys
  }

  /** The cap holds for the whole store over every run exactly when all keys share one shard. */
  lemma StoreKeepsCapIff(l: Limit, maxKeys: nat, n: nat, hash: string -> nat)
    requires ValidLimit(l) && maxKeys > 0 && n > 0
    ensures (forall us :: KeepsCap(l, maxKeys, n, hash, us))
            <==> (forall a, b :: Home(hash, n, a) == Home(hash, n, b))
  {
    if forall a, b :: Home(hash, n, a) == Home(hash, n, b) {
      forall us ensures KeepsCap(l, maxKeys, n, hash, us) {
        if PossibleRun(l, maxKeys, Empty(n), hash, us) {
          RunKeepsTidy(l, maxKeys, Empty(n), hash, us);
          OneShardHoldsAll(AfterAll(l, Empty(n), hash, us), hash, maxKeys);
        }
      }
    }
    if exists a, b :: Home(hash, n, a) != Home(hash, n, b) {
      var a, b :| Home(hash, n, a) != Home(hash, n, b);
      var us := OneKeyTooMany(l, maxKeys, n, hash, a, b);
      assert !KeepsCap(l, maxKeys, n, hash, us);
    }
  }
}
