/**
 Spend per principal: a bounded store that sheds the least recently updated key, and the
 budget check and cost recording that go through it.  Money is whole micro-dollars.
 */
module Budgets {
  import opened MachineInts
  import opened Options
  import opened FiniteSets

  const MICRO: real := 1000000.0

  /** Dollars as micro-dollars: rounded half up, never negative, saturating. */
  function UsdToMicro(usd: real): u64 {
    var scaled := usd * MICRO;
    if scaled <= 0.0 then 0 else Min((scaled + 0.5).Floor, U64_MAX)
  }

  function MicroToUsd(micro: u64): real {
    micro as real / MICRO
  }

  /** A price is off by half a micro-dollar at most, halves going up; outside the range it is cut off. */
  lemma RoundingError(usd: real)
    ensures usd <= 0.0 ==> UsdToMicro(usd) == 0
    ensures 0.0 <= usd * 1_000_000.0 <= 0xFFFF_FFFF_FFFF_FFFE as real ==>
              UsdToMicro(usd) as real - 0.5 <= usd * 1_000_000.0 < UsdToMicro(usd) as real + 0.5
    ensures usd * 1_000_000.0 >= 0xFFFF_FFFF_FFFF_FFFF as real ==> UsdToMicro(usd) == 0xFFFF_FFFF_FFFF_FFFF
  {
    var scaled := usd * 1_000_000.0;
    assert (scaled + 0.5).Floor as real <= scaled + 0.5 < (scaled + 0.5).Floor as real + 1.0;
  }

  /** What is stored comes back as it was, a million to the dollar. */
  lemma MicroRoundTrip(micro: u64)
    ensures MicroToUsd(micro) * 1_000_000.0 == micro as real
    ensures UsdToMicro(MicroToUsd(micro)) == micro
  {
    assert MicroToUsd(micro) * 1_000_000.0 == micro as real;
    assert (micro as real + 0.5).Floor == micro;
  }

  datatype Entry = Entry(microUsd: u64, lastUpdate: nat)

  type Spend = map<string, Entry>

  ghost predicate LeastRecent(spend: Spend, k: string) {
    k in spend && forall j :: j in spend ==> spend[k].lastUpdate <= spend[j].lastUpdate
  }

  /** An update evicts exactly when a new key meets a full store, and then the least recent key. */
  ghost predicate EvictsRightly(spend: Spend, maxKeys: nat, key: string, evicted: Option<string>) {
    && (evicted.Some? <==> key !in spend && maxKeys > 0 && |spend| >= maxKeys)
    && (evicted.Some? ==> LeastRecent(spend, evicted.value))
  }

  function Without(spend: Spend, evicted: Option<string>): Spend {
    if evicted.Some? then spend - {evicted.value} else spend
  }

  function MicroOf(spend: Spend, key: string): u64 {
    if key in spend then spend[key].microUsd else 0
  }

  function Added(spend: Spend, key: string, micro: u64, now: nat, evicted: Option<string>): Spend {
    Without(spend, evicted)[key := Entry(SatAdd(MicroOf(Without(spend, evicted), key), micro), now)]
  }

  /** Every non-empty store has a least recently updated key. */
  lemma {:induction false} LeastRecentExists(spend: Spend)
    requires spend != map[]
    ensures exists k :: LeastRecent(spend, k)
    decreases |spend|
  {
    var k :| k in spend;
    var rest := spend - {k};
    assert forall j :: j in spend ==> j == k || j in rest;
    if rest == map[] {
      assert LeastRecent(spend, k);
    } else {
      assert rest.Keys == spend.Keys - {k};
      LeastRecentExists(rest);
      var r :| LeastRecent(rest, r);
      var best := if spend[k].lastUpdate <= spend[r].lastUpdate then k else r;
      assert LeastRecent(spend, best);
    }
  }

  class SpendStore {
    var spend: Spend
    const maxKeys: nat

    constructor (maxKeys: nat)
      ensures spend == map[] && this.maxKeys == maxKeys
    {
      spend := map[];
      this.maxKeys := maxKeys;
    }

    method Add(key: string, usd: real, now: nat) returns (ghost evicted: Option<string>)
      modifies this
      ensures EvictsRightly(old(spend), maxKeys, key, evicted)
      ensures spend == Added(old(spend), key, UsdToMicro(usd), now, evicted)
      ensures evicted.Some? <==> key !in old(spend) && maxKeys > 0 && |old(spend)| >= maxKeys
      ensures evicted.Some? ==>
                && evicted.value in old(spend)
                && forall k :: k in old(spend) ==>
                     old(spend)[evicted.value].lastUpdate <= old(spend)[k].lastUpdate
      ensures key in spend && spend[key].lastUpdate == now
      ensures var sum := (if key in old(spend) then old(spend)[key].microUsd else 0) + UsdToMicro(usd);
              spend[key].microUsd == if sum > 0xFFFF_FFFF_FFFF_FFFF then 0xFFFF_FFFF_FFFF_FFFF else sum
      ensures forall k :: k != key ==>
                (k in spend <==> k in old(spend) && evicted != Some(k))
                && (k in spend ==> spend[k] == old(spend)[k])
    {
      evicted := None;
      if key !in spend && maxKeys > 0 && |spend| >= maxKeys {
        assert spend != map[];
        LeastRecentExists(spend);
        var lruKey :| lruKey in spend
                      && forall j :: j in spend ==> spend[lruKey].lastUpdate <= spend[j].lastUpdate;
        evicted := Some(lruKey);
        spend := spend - {lruKey};
      }
      if key !in spend {
        spend := spend[key := Entry(0, now)];
      }
      spend := spend[key := Entry(SatAdd(spend[key].microUsd, UsdToMicro(usd)), now)];
    }

    method Get(key: string) returns (usd: real)
      ensures usd == MicroToUsd(MicroOf(spend, key))
      ensures usd * 1_000_000.0 == if key in spend then spend[key].microUsd as real else 0.0
    {
      if key in spend {
        usd := MicroToUsd(spend[key].microUsd);
      } else {
        usd := 0.0;
      }
    }

    method Reset(key: string)
      modifies this
      ensures spend == old(spend) - {key}
    {
      spend := spend - {key};
    }

    method ResetAll()
      modifies this
      ensures spend == map[]
    {
      spend := map[];
    }
  }

  // ---------------------------------------------------------------------------
  // Runs of the store
  // ---------------------------------------------------------------------------

  datatype Op =
    | Add(key: string, micro: u64, now: nat, evicted: Option<string>)
    | ResetKey(key: string)
    | ResetAll

  function Next(spend: Spend, op: Op): Spend {
    match op
    case Add(key, micro, now, evicted) => Added(spend, key, micro, now, evicted)
    case ResetKey(key) => spend - {key}
    case ResetAll => map[]
  }

  function Exec(ops: seq<Op>): Spend
    decreases |ops|
  {
    if ops == [] then map[] else Next(Exec(ops[..|ops| - 1]), ops[|ops| - 1])
  }

  /** Every update evicts what the store would evict. */
  ghost predicate ProperRun(maxKeys: nat, ops: seq<Op>) {
    forall i :: 0 <= i < |ops| && ops[i].Add? ==>
      EvictsRightly(Exec(ops[..i]), maxKeys, ops[i].key, ops[i].evicted)
  }

  /** No two updates are at the same time. */
  predicate TimesIncrease(ops: seq<Op>) {
    forall i, j :: 0 <= i < j < |ops| && ops[i].Add? && ops[j].Add? ==> ops[i].now < ops[j].now
  }

  lemma ProperPrefix(maxKeys: nat, ops: seq<Op>, n: nat)
    requires ProperRun(maxKeys, ops) && n <= |ops|
    ensures ProperRun(maxKeys, ops[..n])
  {
    forall i | 0 <= i < n && ops[i].Add?
      ensures EvictsRightly(Exec(ops[..n][..i]), maxKeys, ops[i].key, ops[i].evicted)
    {
      assert ops[..n][..i] == ops[..i];
    }
  }

  lemma AddedWithinCap(maxKeys: nat, before: Spend, key: string, evicted: Option<string>, e: Entry)
    requires maxKeys > 0 && |before| <= maxKeys && EvictsRightly(before, maxKeys, key, evicted)
    ensures |Without(before, evicted)[key := e]| <= maxKeys
  {
    var kept := Without(before, evicted);
    if evicted.Some? {
      assert kept.Keys == before.Keys - {evicted.value};
    }
    assert kept[key := e].Keys == kept.Keys + {key};
  }

  lemma StepWithinCap(maxKeys: nat, before: Spend, op: Op)
    requires maxKeys > 0 && |before| <= maxKeys
    requires op.Add? ==> EvictsRightly(before, maxKeys, op.key, op.evicted)
    ensures |Next(before, op)| <= maxKeys
  {
    match op {
      case Add(key, _, _, evicted) =>
        AddedWithinCap(maxKeys, before, key, evicted, Next(before, op)[key]);
        assert Next(before, op) == Without(before, evicted)[key := Next(before, op)[key]];
      case ResetKey(key) =>
        assert (before - {key}).Keys == before.Keys - {key};
      case ResetAll =>
    }
  }

  /** The store never holds more keys than its cap. */
  lemma {:induction false} SizeWithinCap(maxKeys: nat, ops: seq<Op>)
    requires maxKeys > 0 && ProperRun(maxKeys, ops)
    ensures |Exec(ops)| <= maxKeys
    decreases |ops|
  {
    if ops != [] {
      var l := |ops| - 1;
      var before := Exec(ops[..l]);
      ProperPrefix(maxKeys, ops, l);
      SizeWithinCap(maxKeys, ops[..l]);
      StepWithinCap(maxKeys, before, ops[l]);
    }
  }

  // ---------------------------------------------------------------------------
  // Who is evicted
  // ---------------------------------------------------------------------------

  /** Operation `j` is the last update of `key`, and the store remembers its time. */
  ghost predicate LastUpdated(ops: seq<Op>, key: string, j: nat)
    requires key in Exec(ops)
  {
    && j < |ops| && ops[j].Add? && ops[j].key == key && ops[j].now == Exec(ops)[key].lastUpdate
    && forall m :: j < m < |ops| && ops[m].Add? ==> ops[m].key != key
  }

  lemma {:induction false} LastUpdateOf(ops: seq<Op>, key: string) returns (j: nat)
    requires key in Exec(ops)
    ensures LastUpdated(ops, key, j)
    decreases |ops|
  {
    var l := |ops| - 1;
    if ops[l].Add? && ops[l].key == key {
      j := l;
    } else {
      j := LastUpdateOf(ops[..l], key);
    }
  }

  /** The keys updated after operation `j`. */
  function UpdatedAfter(ops: seq<Op>, j: nat): set<string> {
    set m | j < m < |ops| && ops[m].Add? :: ops[m].key
  }

  /**
   A key is evicted only after at least as many other keys as the store holds were updated
   since its own last update, the one that displaces it included.
   */
  lemma EvictedOnlyWhenQuiet(maxKeys: nat, ops: seq<Op>, i: nat) returns (j: nat)
    requires ProperRun(maxKeys, ops) && TimesIncrease(ops)
    requires i < |ops| && ops[i].Add? && ops[i].evicted.Some?
    ensures var victim := ops[i].evicted.value;
            && j < i && ops[j].Add? && ops[j].key == victim
            && victim !in UpdatedAfter(ops[..i + 1], j)
            && |UpdatedAfter(ops[..i + 1], j)| >= maxKeys
  {
    var spend := Exec(ops[..i]);
    var victim, key := ops[i].evicted.value, ops[i].key;
    j := LastUpdateOf(ops[..i], victim);
    var updated := UpdatedAfter(ops[..i + 1], j);
    forall k | k in spend && k != victim ensures k in updated {
      OtherUpdatedLater(ops, i, victim, k, j);
    }
    assert ops[..i + 1][i] == ops[i] && key in updated;
    VictimNotUpdated(ops, i, victim, j);
    SwapCount(spend, victim, key);
    SubsetSize(spend.Keys - {victim} + {key}, updated);
  }

  lemma VictimNotUpdated(ops: seq<Op>, i: nat, victim: string, j: nat)
    requires i < |ops| && ops[i].Add? && ops[i].key != victim
    requires victim in Exec(ops[..i]) && LastUpdated(ops[..i], victim, j)
    ensures victim !in UpdatedAfter(ops[..i + 1], j)
  {
    var run := ops[..i + 1];
    forall m | j < m < |run| && run[m].Add? ensures run[m].key != victim {
      if m < i {
        assert ops[..i][m] == run[m];
      }
    }
  }

  lemma SwapCount(spend: Spend, victim: string, key: string)
    requires victim in spend && key !in spend
    ensures |spend.Keys - {victim} + {key}| == |spend|
  {
    assert |spend.Keys - {victim}| == |spend.Keys| - 1;
  }

  /** A key that the victim precedes in the store was updated after the victim. */
  lemma OtherUpdatedLater(ops: seq<Op>, i: nat, victim: string, k: string, j: nat)
    requires TimesIncrease(ops) && i < |ops|
    requires LeastRecent(Exec(ops[..i]), victim) && LastUpdated(ops[..i], victim, j)
    requires k in Exec(ops[..i]) && k != victim
    ensures k in UpdatedAfter(ops[..i + 1], j)
  {
    var m := LastUpdateOf(ops[..i], k);
    assert ops[m].now >= ops[j].now && m != j;
    assert ops[..i + 1][m] == ops[m];
  }

  // ---------------------------------------------------------------------------
  // What a surviving key has spent
  // ---------------------------------------------------------------------------

  function CostsOf(ops: seq<Op>, key: string): nat
    decreases |ops|
  {
    if ops == [] then 0 else
      var l := |ops| - 1;
      CostsOf(ops[..l], key) + if ops[l].Add? && ops[l].key == key then ops[l].micro else 0
  }

  /** The key came into the store with operation `j` and has been there since. */
  ghost predicate InsertedAt(ops: seq<Op>, key: string, j: nat) {
    && j < |ops| && ops[j].Add? && ops[j].key == key
    && (key in Exec(ops[..j]) ==> ops[j].evicted == Some(key))
    && forall m :: j < m <= |ops| ==> key in Exec(ops[..m])
  }

  /** A key's spend is the saturating sum of its costs since it came into the store. */
  lemma {:induction false} SpendIsSum(maxKeys: nat, ops: seq<Op>, key: string) returns (j: nat)
    requires ProperRun(maxKeys, ops) && key in Exec(ops)
    ensures InsertedAt(ops, key, j)
    ensures Exec(ops)[key].microUsd == Min(CostsOf(ops[j..], key), U64_MAX)
    decreases |ops|
  {
    var l := |ops| - 1;
    ProperPrefix(maxKeys, ops, l);
    if key in Exec(ops[..l]) && !(ops[l].Add? && ops[l].evicted == Some(key)) {
      j := SpendIsSum(maxKeys, ops[..l], key);
      InsertedStays(ops, key, j);
      SpendGrows(ops, key, j);
    } else {
      j := l;
      FirstCost(ops, key);
    }
  }

  lemma SpendGrows(ops: seq<Op>, key: string, j: nat)
    requires ops != [] && j < |ops| - 1 && key in Exec(ops[..|ops| - 1]) && key in Exec(ops)
    requires !(ops[|ops| - 1].Add? && ops[|ops| - 1].evicted == Some(key))
    requires Exec(ops[..|ops| - 1])[key].microUsd == Min(CostsOf(ops[..|ops| - 1][j..], key), U64_MAX)
    ensures Exec(ops)[key].microUsd == Min(CostsOf(ops[j..], key), U64_MAX)
  {
    CostsStep(ops, key, j);
    SpendStep(ops, key);
  }

  lemma CostsStep(ops: seq<Op>, key: string, j: nat)
    requires ops != [] && j < |ops| - 1
    ensures var l := |ops| - 1;
            CostsOf(ops[j..], key)
            == CostsOf(ops[..l][j..], key) + (if ops[l].Add? && ops[l].key == key then ops[l].micro else 0)
  {
    assert ops[j..][..|ops| - 1 - j] == ops[..|ops| - 1][j..];
  }

  lemma SpendStep(ops: seq<Op>, key: string)
    requires ops != [] && key in Exec(ops[..|ops| - 1]) && key in Exec(ops)
    requires !(ops[|ops| - 1].Add? && ops[|ops| - 1].evicted == Some(key))
    ensures var l := |ops| - 1;
            var before := Exec(ops[..l])[key].microUsd;
            Exec(ops)[key].microUsd
            == if ops[l].Add? && ops[l].key == key then SatAdd(before, ops[l].micro) else before
  {
  }

  lemma FirstCost(ops: seq<Op>, key: string)
    requires ops != [] && key in Exec(ops)
    requires key in Exec(ops[..|ops| - 1]) ==> ops[|ops| - 1].Add? && ops[|ops| - 1].evicted == Some(key)
    ensures var l := |ops| - 1;
            && ops[l].Add? && ops[l].key == key && ops[..|ops|] == ops
            && Exec(ops)[key].microUsd == Min(CostsOf(ops[l..], key), U64_MAX)
  {
    var l := |ops| - 1;
    var one := ops[l..];
    assert one == [ops[l]] && one[..0] == [];
    assert CostsOf(one, key) == CostsOf(one[..0], key) + ops[l].micro;
  }

  lemma InsertedStays(ops: seq<Op>, key: string, j: nat)
    requires ops != [] && InsertedAt(ops[..|ops| - 1], key, j) && key in Exec(ops)
    ensures InsertedAt(ops, key, j)
  {
    var l := |ops| - 1;
    assert ops[..l][..j] == ops[..j];
    forall m | j < m <= |ops| ensures key in Exec(ops[..m]) {
      if m <= l {
        assert ops[..l][..m] == ops[..m];
      } else {
        assert ops[..m] == ops;
      }
    }
  }

  // ---------------------------------------------------------------------------
  // Enforcing a budget
  // ---------------------------------------------------------------------------

  datatype Usage = Usage(promptTokens: nat, completionTokens: nat)

  /** A positive cap of the principal goes before the global one. */
  function EffectiveLimit(global: real, perPrincipal: Option<real>): real {
    if perPrincipal.Some? && perPrincipal.value > 0.0 then perPrincipal.value else global
  }

  predicate WithinBudget(limit: real, spent: u64) {
    limit <= 0.0 || MicroToUsd(spent) < limit
  }

  class BudgetPlugin {
    const spendLimitUsd: real
    const inputPerMTokens: real
    const outputPerMTokens: real
    const store: SpendStore

    constructor (spendLimitUsd: real, inputPerMTokens: real, outputPerMTokens: real, store: SpendStore)
      ensures this.spendLimitUsd == spendLimitUsd && this.store == store
      ensures this.inputPerMTokens == inputPerMTokens && this.outputPerMTokens == outputPerMTokens
    {
      this.spendLimitUsd := spendLimitUsd;
      this.inputPerMTokens := inputPerMTokens;
      this.outputPerMTokens := outputPerMTokens;
      this.store := store;
    }

    function Cost(usage: Usage): real {
      usage.promptTokens as real / 1_000_000.0 * inputPerMTokens
      + usage.completionTokens as real / 1_000_000.0 * outputPerMTokens
    }

    method CheckBudget(key: string, perPrincipal: Option<real>) returns (ok: bool)
      ensures ok == WithinBudget(EffectiveLimit(spendLimitUsd, perPrincipal), MicroOf(store.spend, key))
      ensures var limit := if perPrincipal.Some? && perPrincipal.value > 0.0 then perPrincipal.value else spendLimitUsd;
              var spent := if key in store.spend then store.spend[key].microUsd else 0;
              ok <==> limit <= 0.0 || spent as real < limit * 1_000_000.0
    {
      var limit := EffectiveLimit(spendLimitUsd, perPrincipal);
      if limit <= 0.0 {
        return true;
      }
      var current := store.Get(key);
      ok := !(current >= limit);
    }

    method RecordCost(key: string, usage: Option<Usage>, now: nat) returns (ghost evicted: Option<string>)
      modifies store
      ensures if usage.Some? && Cost(usage.value) > 0.0
              then EvictsRightly(old(store.spend), store.maxKeys, key, evicted)
                   && store.spend == Added(old(store.spend), key, UsdToMicro(Cost(usage.value)), now, evicted)
              else store.spend == old(store.spend)
      ensures usage.None? ==> store.spend == old(store.spend)
      ensures usage.Some? ==>
                var cost := usage.value.promptTokens as real / 1_000_000.0 * inputPerMTokens
                            + usage.value.completionTokens as real / 1_000_000.0 * outputPerMTokens;
                && (cost <= 0.0 ==> store.spend == old(store.spend))
                && (cost > 0.0 ==>
                      && key in store.spend && store.spend[key].lastUpdate == now
                      && store.spend[key].microUsd
                         == SatAdd(if key in old(store.spend) then old(store.spend)[key].microUsd else 0, UsdToMicro(cost)))
    {
      evicted := None;
      if usage.Some? {
        var cost := Cost(usage.value);
        if cost > 0.0 {
          evicted := store.Add(key, cost, now);
        }
      }
    }
  }

  /** Each price applies to a million tokens of its own kind. */
  lemma Prices(plugin: BudgetPlugin, prompt: nat, completion: nat)
    ensures plugin.Cost(Usage(prompt, completion)) * 1_000_000.0
         == prompt as real * plugin.inputPerMTokens + completion as real * plugin.outputPerMTokens
  {
    PerMillion(prompt as real, plugin.inputPerMTokens);
    PerMillion(completion as real, plugin.outputPerMTokens);
  }

  lemma PerMillion(tokens: real, price: real)
    ensures tokens / 1_000_000.0 * price * 1_000_000.0 == tokens * price
  {
    var share := tokens / 1_000_000.0;
    assert tokens == share * 1_000_000.0;
    assert share * price * 1_000_000.0 == share * 1_000_000.0 * price;
  }

  /** Rounding to micro-dollars respects order, so a bound on costs bounds what is recorded. */
  lemma RoundingMonotone(a: real, b: real)
    requires a <= b
    ensures UsdToMicro(a) <= UsdToMicro(b)
  {
  }

  /** One principal: what is recorded for it, and its requests between check and record. */
  datatype Gate = Gate(spent: u64, inFlight: nat)

  datatype Step =
    | Check
    | Record(micro: u64)
    | Abandon
    | Forget

  /** Requests of the principal in any interleaving; `Forget` is a reset or an eviction. */
  function Proceed(limit: real, g: Gate, step: Step): Gate {
    match step
    case Check => if WithinBudget(limit, g.spent) then g.(inFlight := g.inFlight + 1) else g
    case Record(micro) =>
      if g.inFlight > 0 then Gate(SatAdd(g.spent, micro), g.inFlight - 1) else g
    case Abandon => if g.inFlight > 0 then g.(inFlight := g.inFlight - 1) else g
    case Forget => g.(spent := 0)
  }

  /** What is spent and what the requests in flight may still add stays below the limit plus slack. */
  ghost predicate Covered(limit: real, g: Gate, m: nat, c: u64) {
    g.spent as real + (g.inFlight * c) as real < limit * MICRO + (m * c) as real
  }

  lemma CoveredSpend(limit: real, g: Gate, m: nat, c: u64)
    requires Covered(limit, g, m, c)
    ensures g.spent as real < limit * MICRO + (m * c) as real
  {
    assert g.inFlight * c >= 0;
  }

  lemma CoveredStep(limit: real, g: Gate, step: Step, m: nat, c: u64)
    requires limit > 0.0 && Covered(limit, g, m, c)
    requires Proceed(limit, g, step).inFlight <= m
    requires step.Record? ==> step.micro <= c
    ensures Covered(limit, Proceed(limit, g, step), m, c)
  {
    var t := Proceed(limit, g, step);
    MulMono(c, t.inFlight, m);
    assert t.inFlight * c == c * t.inFlight && m * c == c * m && g.inFlight * c == c * g.inFlight;
    if step.Check? && WithinBudget(limit, g.spent) {
      assert g.spent as real < limit * MICRO;
    } else if g.inFlight > 0 && (step.Record? || step.Abandon?) {
      assert c * g.inFlight == c * (g.inFlight - 1) + c;
    }
  }

  // ---------------------------------------------------------------------------
  // The store under traffic of all principals
  // ---------------------------------------------------------------------------

  /** A request is checked, gives up without recording, or the store is operated on. */
  datatype Event =
    | Checked(key: string)
    | GivenUp(key: string)
    | Stored(op: Op)

  /** The store, and the requests of one principal between check and record. */
  datatype Traffic = Traffic(spend: Spend, inFlight: nat)

  function GateOf(t: Traffic, key: string): Gate {
    Gate(MicroOf(t.spend, key), t.inFlight)
  }

  /** `limit` is the one in force for the principal `key`. */
  function Served(limit: real, key: string, t: Traffic, e: Event): Traffic {
    match e
    case Checked(k) =>
      if k == key && WithinBudget(limit, MicroOf(t.spend, key)) then t.(inFlight := t.inFlight + 1) else t
    case GivenUp(k) => if k == key && t.inFlight > 0 then t.(inFlight := t.inFlight - 1) else t
    case Stored(op) =>
      Traffic(Next(t.spend, op), if op.Add? && op.key == key && t.inFlight > 0 then t.inFlight - 1 else t.inFlight)
  }

  /** What one event is to the principal. */
  function SeenBy(e: Event, key: string): Option<Step> {
    match e
    case Checked(k) => if k == key then Some(Check) else None
    case GivenUp(k) => if k == key then Some(Abandon) else None
    case Stored(Add(k, micro, _, evicted)) =>
      if k == key then Some(Record(micro)) else if evicted == Some(key) then Some(Forget) else None
    case Stored(ResetKey(k)) => if k == key then Some(Forget) else None
    case Stored(ResetAll) => Some(Forget)
  }

  /** The store evicts as it does, and only a checked request of the principal records. */
  ghost predicate Allowed(maxKeys: nat, key: string, t: Traffic, e: Event) {
    e.Stored? && e.op.Add? ==>
      && EvictsRightly(t.spend, maxKeys, e.op.key, e.op.evicted)
      && (e.op.key == key ==> t.inFlight > 0)
  }

  /** Every event, of whatever principal, is a step of the gate of `key` or leaves it alone. */
  lemma StoreMovesGate(limit: real, maxKeys: nat, key: string, t: Traffic, e: Event)
    requires Allowed(maxKeys, key, t, e)
    ensures var step := SeenBy(e, key);
            GateOf(Served(limit, key, t, e), key)
            == if step.Some? then Proceed(limit, GateOf(t, key), step.value) else GateOf(t, key)
  {
  }

  function TrafficAfter(limit: real, key: string, es: seq<Event>): Traffic
    decreases |es|
  {
    if es == [] then Traffic(map[], 0) else
      Served(limit, key, TrafficAfter(limit, key, es[..|es| - 1]), es[|es| - 1])
  }

  /** The operations on the store among the events. */
  function OpsOf(es: seq<Event>): seq<Op>
    decreases |es|
  {
    if es == [] then []
    else if es[|es| - 1].Stored? then OpsOf(es[..|es| - 1]) + [es[|es| - 1].op]
    else OpsOf(es[..|es| - 1])
  }

  lemma ExecNext(ops: seq<Op>, op: Op)
    ensures Exec(ops + [op]) == Next(Exec(ops), op)
  {
    assert (ops + [op])[..|ops|] == ops;
  }

  lemma {:induction false} TrafficSpend(limit: real, key: string, es: seq<Event>)
    ensures TrafficAfter(limit, key, es).spend == Exec(OpsOf(es))
    decreases |es|
  {
    if es != [] {
      var l := |es| - 1;
      TrafficSpend(limit, key, es[..l]);
      ServedSpend(limit, key, TrafficAfter(limit, key, es[..l]), es[l]);
      if es[l].Stored? {
        ExecNext(OpsOf(es[..l]), es[l].op);
      }
    }
  }

  lemma ServedSpend(limit: real, key: string, t: Traffic, e: Event)
    ensures Served(limit, key, t, e).spend == if e.Stored? then Next(t.spend, e.op) else t.spend
  {
  }

  /** The traffic after the first `i` events. */
  function TrafficAt(limit: real, key: string, es: seq<Event>, i: nat): Traffic
    requires i <= |es|
  {
    TrafficAfter(limit, key, es[..i])
  }

  ghost predicate AllowedRun(limit: real, maxKeys: nat, key: string, es: seq<Event>) {
    forall i :: 0 <= i < |es| ==> Allowed(maxKeys, key, TrafficAt(limit, key, es, i), es[i])
  }

  /** Throughout, at most `m` requests of the principal are in flight and none records more than `c`. */
  ghost predicate BoundedTraffic(limit: real, key: string, es: seq<Event>, m: nat, c: u64) {
    && (forall i :: 0 <= i <= |es| ==> TrafficAt(limit, key, es, i).inFlight <= m)
    && (forall i :: 0 <= i < |es| && es[i].Stored? && es[i].op.Add? && es[i].op.key == key ==> es[i].op.micro <= c)
  }

  lemma TrafficAtNext(limit: real, key: string, es: seq<Event>, i: nat)
    requires i < |es|
    ensures TrafficAt(limit, key, es, i + 1) == Served(limit, key, TrafficAt(limit, key, es, i), es[i])
  {
    assert es[..i + 1][..i] == es[..i];
  }

  lemma {:induction false} CoveredTraffic(
      limit: real, maxKeys: nat, key: string, es: seq<Event>, i: nat, m: nat, c: u64)
    requires limit > 0.0 && i <= |es|
    requires AllowedRun(limit, maxKeys, key, es) && BoundedTraffic(limit, key, es, m, c)
    ensures Covered(limit, GateOf(TrafficAt(limit, key, es, i), key), m, c)
    decreases i
  {
    if i == 0 {
      CoveredAtStart(limit, m, c);
    } else {
      CoveredTraffic(limit, maxKeys, key, es, i - 1, m, c);
      TrafficAtNext(limit, key, es, i - 1);
      CoveredEvent(limit, maxKeys, key, TrafficAt(limit, key, es, i - 1), es[i - 1], m, c);
    }
  }

  lemma CoveredAtStart(limit: real, m: nat, c: u64)
    requires limit > 0.0
    ensures Covered(limit, Gate(0, 0), m, c)
  {
    assert m * c >= 0 && 0 * c == 0;
  }

  lemma CoveredEvent(limit: real, maxKeys: nat, key: string, t: Traffic, e: Event, m: nat, c: u64)
    requires limit > 0.0 && Allowed(maxKeys, key, t, e) && Covered(limit, GateOf(t, key), m, c)
    requires Served(limit, key, t, e).inFlight <= m
    requires e.Stored? && e.op.Add? && e.op.key == key ==> e.op.micro <= c
    ensures Covered(limit, GateOf(Served(limit, key, t, e), key), m, c)
  {
    StoreMovesGate(limit, maxKeys, key, t, e);
    var step := SeenBy(e, key);
    if step.Some? {
      CoveredStep(limit, GateOf(t, key), step.value, m, c);
    }
  }

  /**
   Over every interleaving of checks and of store operations of all principals, evictions
   and resets included, what the store records for a principal stays below its limit plus
   `m * c`, if at most `m` of its requests are in flight and none costs more than `c`.
   */
  lemma StoreOverspendBound(limit: real, maxKeys: nat, key: string, es: seq<Event>, m: nat, c: u64)
    requires limit > 0.0
    requires AllowedRun(limit, maxKeys, key, es) && BoundedTraffic(limit, key, es, m, c)
    ensures MicroOf(Exec(OpsOf(es)), key) as real < limit * 1_000_000.0 + (m * c) as real
  {
    CoveredTraffic(limit, maxKeys, key, es, |es|, m, c);
    assert es[..|es|] == es;
    TrafficSpend(limit, key, es);
    CoveredSpend(limit, GateOf(TrafficAfter(limit, key, es), key), m, c);
  }

  lemma SpentStays(limit: real, g: Gate, step: Option<Step>)
    requires step != Some(Forget)
    ensures step.Some? ==> Proceed(limit, g, step.value).spent >= g.spent
  {
  }

  /** Spend falls only when the principal is evicted or reset. */
  lemma {:induction false} SpendKept(limit: real, maxKeys: nat, key: string, es: seq<Event>, i: nat, j: nat)
    requires i <= j <= |es| && AllowedRun(limit, maxKeys, key, es)
    requires forall k :: i <= k < j ==> SeenBy(es[k], key) != Some(Forget)
    ensures MicroOf(TrafficAt(limit, key, es, i).spend, key) <= MicroOf(TrafficAt(limit, key, es, j).spend, key)
    decreases j
  {
    if i < j {
      SpendKept(limit, maxKeys, key, es, i, j - 1);
      var t := TrafficAt(limit, key, es, j - 1);
      TrafficAtNext(limit, key, es, j - 1);
      StoreMovesGate(limit, maxKeys, key, t, es[j - 1]);
      SpentStays(limit, GateOf(t, key), SeenBy(es[j - 1], key));
    }
  }

  lemma ShutAbove(limit: real, a: u64, b: u64)
    requires limit > 0.0 && a <= b && !WithinBudget(limit, a)
    ensures !WithinBudget(limit, b)
  {
    assert MicroToUsd(a) <= MicroToUsd(b);
  }

  predicate ShutAt(limit: real, key: string, es: seq<Event>, i: nat)
    requires i <= |es|
  {
    !WithinBudget(limit, MicroOf(TrafficAt(limit, key, es, i).spend, key))
  }

  lemma NoneEnters(limit: real, key: string, t: Traffic, e: Event)
    requires !WithinBudget(limit, MicroOf(t.spend, key))
    ensures Served(limit, key, t, e).inFlight <= t.inFlight
  {
  }

  lemma {:induction false} NoneEntersFrom(limit: real, key: string, es: seq<Event>, i: nat, j: nat)
    requires i <= j <= |es| && forall k :: i <= k < j ==> ShutAt(limit, key, es, k)
    ensures TrafficAt(limit, key, es, j).inFlight <= TrafficAt(limit, key, es, i).inFlight
    decreases j
  {
    if i < j {
      NoneEntersFrom(limit, key, es, i, j - 1);
      assert ShutAt(limit, key, es, j - 1);
      TrafficAtNext(limit, key, es, j - 1);
      NoneEnters(limit, key, TrafficAt(limit, key, es, j - 1), es[j - 1]);
    }
  }

  /**
   And once it has reached the limit no check of the principal passes until then, so no
   request of it enters.
   */
  lemma StoreShutAtTheLimit(limit: real, maxKeys: nat, key: string, es: seq<Event>, i: nat, j: nat)
    requires limit > 0.0 && i <= j <= |es| && AllowedRun(limit, maxKeys, key, es)
    requires ShutAt(limit, key, es, i)
    requires forall k :: i <= k < j ==> SeenBy(es[k], key) != Some(Forget)
    ensures forall k :: i <= k <= j ==> ShutAt(limit, key, es, k)
    ensures TrafficAt(limit, key, es, j).inFlight <= TrafficAt(limit, key, es, i).inFlight
  {
    forall k | i <= k <= j ensures ShutAt(limit, key, es, k) {
      SpendKept(limit, maxKeys, key, es, i, k);
      ShutAbove(limit, MicroOf(TrafficAt(limit, key, es, i).spend, key),
                MicroOf(TrafficAt(limit, key, es, k).spend, key));
    }
    NoneEntersFrom(limit, key, es, i, j);
  }
}
