/** Targets, and their de-duplication by endpoint. */
module Targets {
  import opened Options

  datatype Target = Target(
    id: Option<string>,
    provider: string,
    weight: real,
    models: Option<seq<string>>,
    apiKeyEnv: Option<string>,
    baseUrl: Option<string>)

  /** What makes two targets the same endpoint. */
  datatype Endpoint = Endpoint(
    id: Option<string>, provider: string, apiKeyEnv: Option<string>, baseUrl: Option<string>)

  function EndpointOf(t: Target): Endpoint {
    Endpoint(t.id, t.provider, t.apiKeyEnv, t.baseUrl)
  }

  function Endpoints(ts: seq<Target>): set<Endpoint> {
    set t | t in ts :: EndpointOf(t)
  }

  // ---------------------------------------------------------------------------
  // De-duplication
  // ---------------------------------------------------------------------------

  /** The targets of `ts` whose endpoint is not in `seen` and was not met before. */
  function DedupAfter(seen: set<Endpoint>, ts: seq<Target>): seq<Target>
    decreases |ts|
  {
    if ts == [] then []
    else if EndpointOf(ts[0]) in seen then DedupAfter(seen, ts[1..])
    else [ts[0]] + DedupAfter(seen + {EndpointOf(ts[0])}, ts[1..])
  }

  function Dedup(ts: seq<Target>): seq<Target> {
    DedupAfter({}, ts)
  }

  ghost predicate NoRepeats(ts: seq<Target>) {
    forall i, j :: 0 <= i < j < |ts| ==> EndpointOf(ts[i]) != EndpointOf(ts[j])
  }

  lemma {:induction false} DedupAfterFacts(seen: set<Endpoint>, ts: seq<Target>)
    ensures var d := DedupAfter(seen, ts);
            && NoRepeats(d)
            && Endpoints(d) == Endpoints(ts) - seen
            && (forall i :: 0 <= i < |d| ==> EndpointOf(d[i]) !in seen)
    decreases |ts|
  {
    if ts != [] {
      var e := EndpointOf(ts[0]);
      assert Endpoints(ts) == {e} + Endpoints(ts[1..]) by {
        assert forall t :: t in ts <==> t == ts[0] || t in ts[1..];
      }
      if e in seen {
        DedupAfterFacts(seen, ts[1..]);
      } else {
        DedupAfterFacts(seen + {e}, ts[1..]);
        var rest := DedupAfter(seen + {e}, ts[1..]);
        var d := [ts[0]] + rest;
        assert Endpoints(d) == {e} + Endpoints(rest) by {
          assert forall t :: t in d <==> t == ts[0] || t in rest;
        }
      }
    }
  }

  /** Every endpoint of the input is kept exactly once, and no other. */
  lemma DedupKeepsEachOnce(ts: seq<Target>)
    ensures NoRepeats(Dedup(ts))
    ensures Endpoints(Dedup(ts)) == Endpoints(ts)
  {
    DedupAfterFacts({}, ts);
  }

  lemma {:induction false} DedupFixes(seen: set<Endpoint>, ts: seq<Target>)
    requires NoRepeats(ts) && forall i :: 0 <= i < |ts| ==> EndpointOf(ts[i]) !in seen
    ensures DedupAfter(seen, ts) == ts
    decreases |ts|
  {
    if ts != [] {
      assert EndpointOf(ts[0]) !in seen;
      forall i | 0 <= i < |ts[1..]| ensures EndpointOf(ts[1..][i]) !in seen + {EndpointOf(ts[0])} {
        assert ts[1..][i] == ts[i + 1];
      }
      DedupFixes(seen + {EndpointOf(ts[0])}, ts[1..]);
    }
  }

  lemma DedupIdempotent(ts: seq<Target>)
    ensures Dedup(Dedup(ts)) == Dedup(ts)
  {
    DedupAfterFacts({}, ts);
    DedupFixes({}, Dedup(ts));
  }

  /** The two are tried as one: same id, provider, key variable and base URL, whatever else they say. */
  predicate SameEndpoint(t: Target, u: Target) {
    t.id == u.id && t.provider == u.provider && t.apiKeyEnv == u.apiKeyEnv && t.baseUrl == u.baseUrl
  }

  /** No earlier target is the same endpoint as target `i`. */
  predicate FirstAt(ts: seq<Target>, i: nat)
    requires i < |ts|
  {
    forall j :: 0 <= j < i ==> !SameEndpoint(ts[j], ts[i])
  }

  /** From position `i` on, the targets that are the first of their endpoint. */
  function FirstsFrom(ts: seq<Target>, i: nat): seq<Target>
    requires i <= |ts|
    decreases |ts| - i
  {
    if i == |ts| then [] else (if FirstAt(ts, i) then [ts[i]] else []) + FirstsFrom(ts, i + 1)
  }

  lemma {:induction false} DedupAfterIsFirsts(ts: seq<Target>, i: nat)
    requires i <= |ts|
    ensures DedupAfter(Endpoints(ts[..i]), ts[i..]) == FirstsFrom(ts, i)
    decreases |ts| - i
  {
    if i < |ts| {
      assert ts[i..][0] == ts[i] && ts[i..][1..] == ts[i + 1..];
      assert Endpoints(ts[..i + 1]) == Endpoints(ts[..i]) + {EndpointOf(ts[i])} by {
        assert ts[..i + 1] == ts[..i] + [ts[i]];
      }
      SeenIff(ts, i);
      DedupAfterIsFirsts(ts, i + 1);
      if !FirstAt(ts, i) {
        assert Endpoints(ts[..i + 1]) == Endpoints(ts[..i]);
      }
    }
  }

  lemma SeenIff(ts: seq<Target>, i: nat)
    requires i < |ts|
    ensures EndpointOf(ts[i]) in Endpoints(ts[..i]) <==> !FirstAt(ts, i)
  {
    if !FirstAt(ts, i) {
      var j :| 0 <= j < i && EndpointOf(ts[j]) == EndpointOf(ts[i]);
      assert ts[j] == ts[..i][j] && ts[j] in ts[..i];
    }
    if EndpointOf(ts[i]) in Endpoints(ts[..i]) {
      var t :| t in ts[..i] && EndpointOf(t) == EndpointOf(ts[i]);
      var j :| 0 <= j < i && ts[..i][j] == t;
      assert EndpointOf(ts[j]) == EndpointOf(ts[i]);
    }
  }

  /** De-duplication keeps the first target of each endpoint, in order, and drops the others. */
  lemma DedupKeepsFirstsInOrder(ts: seq<Target>)
    ensures Dedup(ts) == FirstsFrom(ts, 0)
  {
    DedupAfterIsFirsts(ts, 0);
    assert Endpoints(ts[..0]) == {} && ts[0..] == ts;
  }

  /** A target stays exactly if none before it agrees in id, provider, key variable and base URL. */
  lemma {:induction false} FirstsIff(ts: seq<Target>, i: nat, t: Target)
    requires i <= |ts|
    ensures t in FirstsFrom(ts, i) <==> exists k :: i <= k < |ts| && ts[k] == t && FirstAt(ts, k)
    decreases |ts| - i
  {
    if i < |ts| {
      FirstsIff(ts, i + 1, t);
      assert FirstsFrom(ts, i) == (if FirstAt(ts, i) then [ts[i]] else []) + FirstsFrom(ts, i + 1);
    }
  }

  lemma KeptIffFirst(ts: seq<Target>, i: nat)
    requires i < |ts|
    ensures ts[i] in Dedup(ts) <==>
            exists k :: && 0 <= k < |ts| && ts[k] == ts[i]
                        && forall j :: 0 <= j < k ==>
                             ts[j].id != ts[k].id || ts[j].provider != ts[k].provider
                             || ts[j].apiKeyEnv != ts[k].apiKeyEnv || ts[j].baseUrl != ts[k].baseUrl
  {
    DedupKeepsFirstsInOrder(ts);
    FirstsIff(ts, 0, ts[i]);
    assert forall k :: 0 <= k < |ts| ==>
        (FirstAt(ts, k) <==> forall j :: 0 <= j < k ==>
           ts[j].id != ts[k].id || ts[j].provider != ts[k].provider
           || ts[j].apiKeyEnv != ts[k].apiKeyEnv || ts[j].baseUrl != ts[k].baseUrl);
  }

  method DedupTargets(ts: seq<Target>) returns (kept: seq<Target>)
    ensures kept == Dedup(ts)
  {
    kept := [];
    var seen: set<Endpoint> := {};
    for i := 0 to |ts|
      invariant kept + DedupAfter(seen, ts[i..]) == Dedup(ts)
    {
      assert ts[i..][0] == ts[i] && ts[i..][1..] == ts[i + 1..];
      if EndpointOf(ts[i]) !in seen {
        seen := seen + {EndpointOf(ts[i])};
        kept := kept + [ts[i]];
      }
    }
  }
}

/** Picks by weight, for draws given as arguments. */
module WeightedPicks {
  import opened Targets

  /** A weight as the load balancer counts it. */
  function Share(w: real): real {
    if w < 0.0 then 0.0 else w
  }

  /** A weight as the A/B test counts it. */
  function VariantShare(w: real): real {
    if w <= 0.0 then 1.0 else w
  }

  /** The sum of the first `n` shares. */
  function SumTo(shares: seq<real>, n: nat): real
    requires n <= |shares|
  {
    if n == 0 then 0.0 else SumTo(shares, n - 1) + shares[n - 1]
  }

  ghost predicate NonNegative(shares: seq<real>) {
    forall i :: 0 <= i < |shares| ==> shares[i] >= 0.0
  }

  lemma {:induction false} SumMonotone(shares: seq<real>, m: nat, n: nat)
    requires m <= n <= |shares| && NonNegative(shares)
    ensures SumTo(shares, m) <= SumTo(shares, n)
    decreases n - m
  {
    if m < n {
      SumMonotone(shares, m, n - 1);
    }
  }

  function Shares(ts: seq<Target>): seq<real> {
    seq(|ts|, i requires 0 <= i < |ts| => Share(ts[i].weight))
  }

  /** The draw falls in the interval of share `i`: above what is before it, up to its end. */
  predicate FallsIn(shares: seq<real>, r: real, i: nat) {
    i < |shares| && SumTo(shares, i) < r <= SumTo(shares, i + 1)
  }

  /** The draw falls in the half-open interval that starts at what is before share `i`. */
  predicate StartsIn(shares: seq<real>, r: real, i: nat) {
    i < |shares| && SumTo(shares, i) <= r < SumTo(shares, i + 1)
  }

  lemma FallsInOneOnly(shares: seq<real>, r: real, i: nat, j: nat)
    requires NonNegative(shares)
    ensures FallsIn(shares, r, i) && FallsIn(shares, r, j) ==> i == j
    ensures StartsIn(shares, r, i) && StartsIn(shares, r, j) ==> i == j
  {
    if i < j < |shares| {
      SumMonotone(shares, i + 1, j);
    } else if j < i < |shares| {
      SumMonotone(shares, j + 1, i);
    }
  }

  /** The first share, from `i` on, whose end the draw does not pass; the last if there is none. */
  function Reached(shares: seq<real>, r: real, i: nat): (chosen: nat)
    requires i < |shares|
    ensures i <= chosen < |shares|
    decreases |shares| - i
  {
    if i == |shares| - 1 || r <= SumTo(shares, i + 1) then i else Reached(shares, r, i + 1)
  }

  function Total(ts: seq<Target>): real {
    SumTo(Shares(ts), |ts|)
  }

  /** The pick among `remaining` for a draw `r`. */
  function Pick(remaining: seq<Target>, r: real): (chosen: nat)
    requires remaining != []
    ensures chosen < |remaining|
  {
    if Total(remaining) <= 0.0 then 0 else Reached(Shares(remaining), r, 0)
  }

  lemma {:induction false} ReachedFallsIn(shares: seq<real>, r: real, i: nat)
    requires i < |shares| && SumTo(shares, i) < r <= SumTo(shares, |shares|)
    ensures FallsIn(shares, r, Reached(shares, r, i))
    decreases |shares| - i
  {
    if !(i == |shares| - 1 || r <= SumTo(shares, i + 1)) {
      ReachedFallsIn(shares, r, i + 1);
    }
  }

  /**
   A positive draw picks the one target whose interval of the summed weights it falls in,
   and that target has weight; a draw of zero picks the first target, whatever its weight.
   */
  lemma PickFallsIn(ts: seq<Target>, r: real, i: nat)
    requires ts != [] && 0.0 <= r < Total(ts)
    ensures r > 0.0 ==> (Pick(ts, r) == i <==> FallsIn(Shares(ts), r, i))
    ensures r > 0.0 ==> ts[Pick(ts, r)].weight > 0.0
    ensures r == 0.0 ==> Pick(ts, r) == 0
  {
    var shares := Shares(ts);
    SharesNonNegative(ts);
    if r > 0.0 {
      ReachedFallsIn(shares, r, 0);
      var k := Pick(ts, r);
      FallsInOneOnly(shares, r, k, i);
      assert SumTo(shares, k + 1) == SumTo(shares, k) + Share(ts[k].weight);
    } else {
      assert SumTo(shares, 1) == SumTo(shares, 0) + shares[0];
    }
  }

  /**
   So a target without weight is picked exactly when none has any, in which case nothing is
   drawn, or when the draw is zero and it comes first.
   */
  lemma WeightlessPickedIff(ts: seq<Target>, r: real)
    requires ts != [] && (Total(ts) > 0.0 ==> 0.0 <= r < Total(ts))
    ensures ts[Pick(ts, r)].weight <= 0.0 <==> Total(ts) <= 0.0 || (r == 0.0 && ts[0].weight <= 0.0)
  {
    if Total(ts) > 0.0 {
      PickFallsIn(ts, r, 0);
    } else {
      var shares := Shares(ts);
      SharesNonNegative(ts);
      SumMonotone(shares, 1, |ts|);
      assert SumTo(shares, 1) == SumTo(shares, 0) + shares[0];
    }
  }

  /** Which does happen: a target without weight in front of one that has all of it. */
  lemma ZeroDrawPicksWeightless(weightless: Target, heavy: Target)
    requires weightless.weight == 0.0 && heavy.weight > 0.0
    ensures Total([weightless, heavy]) > 0.0 && Pick([weightless, heavy], 0.0) == 0
  {
    var ts := [weightless, heavy];
    var shares := Shares(ts);
    assert shares[0] == 0.0 && shares[1] == heavy.weight;
    assert SumTo(shares, 2) == SumTo(shares, 1) + shares[1];
    assert SumTo(shares, 1) == SumTo(shares, 0) + shares[0];
    PickFallsIn(ts, 0.0, 0);
  }

  lemma SharesNonNegative(ts: seq<Target>)
    ensures NonNegative(Shares(ts))
  {
  }

  /** The positive weights in front of target `n`, added up. */
  function WeightBefore(ts: seq<Target>, n: nat): real
    requires n <= |ts|
  {
    if n == 0 then 0.0
    else WeightBefore(ts, n - 1) + if ts[n - 1].weight > 0.0 then ts[n - 1].weight else 0.0
  }

  lemma {:induction false} SharesAreWeights(ts: seq<Target>, n: nat)
    requires n <= |ts|
    ensures SumTo(Shares(ts), n) == WeightBefore(ts, n) >= 0.0
  {
    if n > 0 {
      SharesAreWeights(ts, n - 1);
    }
  }

  /**
   The pick, told by the weights: the target at which the weights added up first reach a
   positive draw; the first one for a draw of zero or without any weight.
   */
  lemma PickInWeights(ts: seq<Target>, r: real, i: nat)
    requires i < |ts| && (WeightBefore(ts, |ts|) > 0.0 ==> 0.0 <= r < WeightBefore(ts, |ts|))
    ensures WeightBefore(ts, |ts|) > 0.0 && r > 0.0 ==>
              (Pick(ts, r) == i <==> WeightBefore(ts, i) < r <= WeightBefore(ts, i + 1))
    ensures WeightBefore(ts, |ts|) == 0.0 || r == 0.0 ==> Pick(ts, r) == 0
  {
    SharesAreWeights(ts, |ts|);
    SharesAreWeights(ts, i);
    SharesAreWeights(ts, i + 1);
    if Total(ts) > 0.0 {
      PickFallsIn(ts, r, i);
    }
  }

  function Without(ts: seq<Target>, i: nat): seq<Target>
    requires i < |ts|
  {
    ts[..i] + ts[i + 1..]
  }

  lemma WithoutMultiset(ts: seq<Target>, i: nat)
    requires i < |ts|
    ensures multiset(ts) == multiset([ts[i]]) + multiset(Without(ts, i))
  {
    assert ts == ts[..i] + [ts[i]] + ts[i + 1..];
  }

  /** Weighted sampling without replacement: each round picks from what the earlier ones left. */
  function Balanced(remaining: seq<Target>, draws: seq<real>): seq<Target>
    requires |draws| >= |remaining|
    decreases |remaining|
  {
    if remaining == [] then [] else
      var idx := Pick(remaining, draws[0]);
      [remaining[idx]] + Balanced(Without(remaining, idx), draws[1..])
  }

  /** Each draw lies below the total weight of its round, as the generator is asked to make it. */
  ghost predicate DrawsInRange(remaining: seq<Target>, draws: seq<real>)
    requires |draws| >= |remaining|
    decreases |remaining|
  {
    remaining == [] ||
    (&& (Total(remaining) > 0.0 ==> 0.0 <= draws[0] < Total(remaining))
     && DrawsInRange(Without(remaining, Pick(remaining, draws[0])), draws[1..]))
  }

  /** Every target is placed once, whatever the draws. */
  lemma {:induction false} BalancedPermutes(ts: seq<Target>, draws: seq<real>)
    requires |draws| >= |ts|
    ensures multiset(Balanced(ts, draws)) == multiset(ts)
    decreases |ts|
  {
    if ts != [] {
      var idx := Pick(ts, draws[0]);
      WithoutMultiset(ts, idx);
      BalancedPermutes(Without(ts, idx), draws[1..]);
    }
  }

  /**
   The balanced order, round by round: round `k` draws among `rests[k]`, what it picks comes
   at place `k`, and the next round has the others, in the order they had.
   */
  ghost predicate Rounds(
      ts: seq<Target>, draws: seq<real>, ordered: seq<Target>, rests: seq<seq<Target>>, picks: seq<nat>)
  {
    && |rests| == |ts| + 1 && |picks| == |ts| == |ordered| <= |draws|
    && rests[0] == ts && rests[|ts|] == []
    && forall k :: 0 <= k < |ts| ==> Round(rests[k], draws[k], ordered[k], picks[k], rests[k + 1])
  }

  predicate Round(rest: seq<Target>, draw: real, placed: Target, p: nat, next: seq<Target>) {
    && p < |rest| && p == Pick(rest, draw)
    && placed == rest[p]
    && next == rest[..p] + rest[p + 1..]
  }

  lemma {:induction false} BalancedRounds(ts: seq<Target>, draws: seq<real>)
    returns (rests: seq<seq<Target>>, picks: seq<nat>)
    requires |draws| >= |ts|
    ensures Rounds(ts, draws, Balanced(ts, draws), rests, picks)
    decreases |ts|
  {
    if ts == [] {
      rests, picks := [[]], [];
    } else {
      var p := Pick(ts, draws[0]);
      var r, ps := BalancedRounds(Without(ts, p), draws[1..]);
      rests, picks := [ts] + r, [p] + ps;
      var ordered := Balanced(ts, draws);
      assert rests[|ts|] == r[|ts| - 1];
      forall k | 0 <= k < |ts| ensures Round(rests[k], draws[k], ordered[k], picks[k], rests[k + 1]) {
        if k == 0 {
          assert rests[1] == r[0];
        } else {
          assert Round(r[k - 1], draws[1..][k - 1], ordered[1..][k - 1], ps[k - 1], r[k]);
          assert rests[k] == r[k - 1] && rests[k + 1] == r[k];
        }
      }
    }
  }

  /** The subtracting loop over the weights. */
  method PickWeighted(remaining: seq<Target>, draw: real) returns (chosen: nat)
    requires remaining != [] && (Total(remaining) > 0.0 ==> 0.0 <= draw < Total(remaining))
    ensures chosen == Pick(remaining, draw)
  {
    var shares := Shares(remaining);
    if SumTo(shares, |remaining|) <= 0.0 {
      return 0;
    }
    var r := draw;
    chosen := |remaining| - 1;
    for i := 0 to |remaining|
      invariant r == draw - SumTo(shares, i)
      invariant chosen == |remaining| - 1
      invariant i < |remaining| ==> Pick(remaining, draw) == Reached(shares, draw, i)
      invariant i == |remaining| ==> Pick(remaining, draw) == |remaining| - 1
    {
      r := r - shares[i];
      if r <= 0.0 {
        chosen := i;
        return;
      }
    }
  }

  method LoadBalanceOrder(targets: seq<Target>, draws: seq<real>) returns (ordered: seq<Target>)
    requires |draws| >= |targets| && DrawsInRange(targets, draws)
    ensures ordered == Balanced(targets, draws)
  {
    var remaining := targets;
    ordered := [];
    var k := 0;
    assert draws[0..] == draws;
    while remaining != []
      invariant k + |remaining| == |targets|
      invariant DrawsInRange(remaining, draws[k..])
      invariant ordered + Balanced(remaining, draws[k..]) == Balanced(targets, draws)
      decreases |remaining|
    {
      assert draws[k..][0] == draws[k] && draws[k..][1..] == draws[k + 1..];
      var idx := PickWeighted(remaining, draws[k]);
      ordered := ordered + [remaining[idx]];
      remaining := Without(remaining, idx);
      k := k + 1;
    }
  }

  // ---------------------------------------------------------------------------
  // Variants
  // ---------------------------------------------------------------------------

  datatype Variant = Variant(target: Target, weight: real)

  function VariantShares(vs: seq<Variant>): seq<real> {
    seq(|vs|, i requires 0 <= i < |vs| => VariantShare(vs[i].weight))
  }

  lemma {:induction false} VariantTotalPositive(vs: seq<Variant>, n: nat)
    requires n <= |vs|
    ensures SumTo(VariantShares(vs), n) >= 0.0
    ensures n > 0 ==> SumTo(VariantShares(vs), n) > 0.0
    decreases n
  {
    if n > 0 {
      VariantTotalPositive(vs, n - 1);
    }
  }

  function VariantTotal(vs: seq<Variant>): real {
    SumTo(VariantShares(vs), |vs|)
  }

  /** The variant whose half-open interval the draw falls in; the loop never runs through. */
  method SelectVariant(variants: seq<Variant>, draw: real) returns (chosen: nat)
    requires 0.0 <= draw < VariantTotal(variants)
    ensures StartsIn(VariantShares(variants), draw, chosen)
    ensures chosen < |variants|
            && VariantWeightBefore(variants, chosen) <= draw < VariantWeightBefore(variants, chosen + 1)
  {
    var shares := VariantShares(variants);
    var cumulative := 0.0;
    for i := 0 to |variants|
      invariant cumulative == SumTo(shares, i) && cumulative <= draw
    {
      cumulative := cumulative + shares[i];
      if draw < cumulative {
        VariantSharesAreWeights(variants, i);
        VariantSharesAreWeights(variants, i + 1);
        return i;
      }
    }
    assert false;
  }

  /** The weights of the first `n` variants added up; one without a positive weight counts as 1. */
  function VariantWeightBefore(vs: seq<Variant>, n: nat): real
    requires n <= |vs|
  {
    if n == 0 then 0.0
    else VariantWeightBefore(vs, n - 1) + if vs[n - 1].weight > 0.0 then vs[n - 1].weight else 1.0
  }

  lemma {:induction false} VariantSharesAreWeights(vs: seq<Variant>, n: nat)
    requires n <= |vs|
    ensures SumTo(VariantShares(vs), n) == VariantWeightBefore(vs, n)
  {
    if n > 0 {
      VariantSharesAreWeights(vs, n - 1);
    }
  }

  /** The variants' intervals partition [0, total): each draw falls in exactly one. */
  lemma VariantsPartition(vs: seq<Variant>, r: real, i: nat, j: nat)
    requires StartsIn(VariantShares(vs), r, i) && StartsIn(VariantShares(vs), r, j)
    ensures i == j
  {
    FallsInOneOnly(VariantShares(vs), r, i, j);
  }
}

/** The strategies and the failover order each one yields. */
module Strategies {
  import opened Options
  import opened Targets
  import opened WeightedPicks
  import opened StableSorts

  datatype ConditionKey = Model | ModelPrefix

  datatype ConditionRule = ConditionRule(key: ConditionKey, value: string, target: Target)

  /** A content rule; whether it matches the request is settled outside the model. */
  datatype ContentRule = ContentRule(matches: bool, target: Target)

  datatype Strategy =
    | Single
    | Fallback
    | LoadBalance(draws: seq<real>)
    | LeastLatency(latency: map<string, nat>)
    | CostOptimized
    | Conditional(rules: seq<ConditionRule>, otherwise: Option<Target>)
    | ContentBased(contentRules: seq<ContentRule>, fallback: Option<Target>)
    | ABTest(variants: seq<Variant>, draw: real)

  const NO_LATENCY: nat := 0xFFFF_FFFF_FFFF_FFFF

  function LatencyOf(latency: map<string, nat>, provider: string): real {
    if provider in latency then latency[provider] as real else NO_LATENCY as real
  }

  function ByLatency(latency: map<string, nat>): Target -> real {
    (t: Target) => LatencyOf(latency, t.provider)
  }

  function ByWeight(): Target -> real {
    (t: Target) => t.weight
  }

  predicate MatchesCondition(rule: ConditionRule, model: string) {
    match rule.key
    case Model => model == rule.value
    case ModelPrefix => rule.value <= model
  }

  /** The draws are what the generator can deliver. */
  ghost predicate DrawsOk(s: Strategy, targets: seq<Target>) {
    match s
    case LoadBalance(draws) =>
      |draws| >= |targets| && DrawsInRange(targets, draws)
    case ABTest(variants, draw) => variants == [] || 0.0 <= draw < VariantTotal(variants)
    case _ => true
  }

  /** The first rule that matches decides the primary target. */
  ghost predicate FirstRule(rules: seq<ConditionRule>, model: string, i: nat) {
    && i < |rules| && MatchesCondition(rules[i], model)
    && forall j :: 0 <= j < i ==> !MatchesCondition(rules[j], model)
  }

  ghost predicate FirstContentRule(rules: seq<ContentRule>, i: nat) {
    i < |rules| && rules[i].matches && forall j :: 0 <= j < i ==> !rules[j].matches
  }

  /** `primary` is the target the rules or the draw put in front of the configured ones. */
  ghost predicate IsPrimary(s: Strategy, model: string, targets: seq<Target>, primary: Option<Target>) {
    match s
    case Conditional(rules, otherwise) =>
      (exists i: nat :: FirstRule(rules, model, i) && primary == Some(rules[i].target))
      || ((forall j :: 0 <= j < |rules| ==> !MatchesCondition(rules[j], model)) && primary == otherwise)
    case ContentBased(rules, fallback) =>
      (exists i: nat :: FirstContentRule(rules, i) && primary == Some(rules[i].target))
      || ((forall j :: 0 <= j < |rules| ==> !rules[j].matches) && primary == fallback)
    case ABTest(variants, draw) =>
      if variants == [] then primary == if targets == [] then None else Some(targets[0])
      else exists i: nat :: i < |variants| && primary == Some(variants[i].target)
             && StartsIn(VariantShares(variants), draw, i)
    case _ => primary == None
  }

  method FindRule(rules: seq<ConditionRule>, model: string, otherwise: Option<Target>) returns (primary: Option<Target>)
    ensures IsPrimary(Conditional(rules, otherwise), model, [], primary)
  {
    for i := 0 to |rules|
      invariant forall j :: 0 <= j < i ==> !MatchesCondition(rules[j], model)
    {
      if MatchesCondition(rules[i], model) {
        assert FirstRule(rules, model, i);
        return Some(rules[i].target);
      }
    }
    return otherwise;
  }

  method FindContentRule(rules: seq<ContentRule>, fallback: Option<Target>) returns (primary: Option<Target>)
    ensures IsPrimary(ContentBased(rules, fallback), "", [], primary)
  {
    for i := 0 to |rules|
      invariant forall j :: 0 <= j < i ==> !rules[j].matches
    {
      if rules[i].matches {
        assert FirstContentRule(rules, i);
        return Some(rules[i].target);
      }
    }
    return fallback;
  }

  /** The order before de-duplication. */
  ghost predicate OrderedBy(s: Strategy, model: string, targets: seq<Target>, ordered: seq<Target>)
    requires targets != [] && DrawsOk(s, targets)
  {
    match s
    case Single => ordered == [targets[0]]
    case Fallback => ordered == targets
    case LoadBalance(draws) => ordered == Balanced(targets, draws)
    case LeastLatency(latency) => StableSortOf(ordered, targets, ByLatency(latency))
    case CostOptimized => StableSortOf(ordered, targets, ByWeight())
    case _ =>
      exists primary ::
        IsPrimary(s, model, targets, primary)
        && ordered == (if primary.Some? then [primary.value] else []) + targets
  }

  datatype GatewayError = NoTargets

  /** The targets to try, in order; an empty configuration is an error. */
  method SelectOrdered(s: Strategy, model: string, targets: seq<Target>)
    returns (result: Result<seq<Target>, GatewayError>, ghost ordered: seq<Target>)
    requires DrawsOk(s, targets)
    ensures targets == [] <==> result == Err(NoTargets)
    ensures targets != [] ==> OrderedBy(s, model, targets, ordered) && result == Ok(Dedup(ordered))
    ensures targets != [] && s.Single? ==> ordered == [targets[0]]
    ensures targets != [] && s.Fallback? ==> ordered == targets
  {
    ordered := [];
    if targets == [] {
      return Err(NoTargets), [];
    }
    var order: seq<Target>;
    match s {
      case Single =>
        order := [targets[0]];
      case Fallback =>
        order := targets;
      case LoadBalance(draws) =>
        order := LoadBalanceOrder(targets, draws);
      case LeastLatency(latency) =>
        order := SortByKey(targets, ByLatency(latency));
        SortIsStable(targets, ByLatency(latency));
      case CostOptimized =>
        order := SortByKey(targets, ByWeight());
        SortIsStable(targets, ByWeight());
      case Conditional(rules, otherwise) =>
        var primary := FindRule(rules, model, otherwise);
        assert IsPrimary(s, model, targets, primary);
        order := (if primary.Some? then [primary.value] else []) + targets;
      case ContentBased(rules, fallback) =>
        var primary := FindContentRule(rules, fallback);
        assert IsPrimary(s, model, targets, primary);
        order := (if primary.Some? then [primary.value] else []) + targets;
      case ABTest(variants, draw) =>
        var primary := Some(targets[0]);
        if variants != [] {
          var chosen := SelectVariant(variants, draw);
          primary := Some(variants[chosen].target);
        }
        assert IsPrimary(s, model, targets, primary);
        order := [primary.value] + targets;
    }
    ordered := order;
    var kept := DedupTargets(order);
    result := Ok(kept);
  }

  /** By cost: ascending weights, targets of one weight in the order they were given. */
  lemma CheapestFirst(model: string, targets: seq<Target>, ordered: seq<Target>)
    requires targets != [] && OrderedBy(CostOptimized, model, targets, ordered)
    ensures forall i, j :: 0 <= i < j < |ordered| ==> ordered[i].weight <= ordered[j].weight
    ensures multiset(ordered) == multiset(targets)
  {
    StableSortPermutes(ordered, targets, ByWeight());
    forall i, j | 0 <= i < j < |ordered| ensures ordered[i].weight <= ordered[j].weight {
      assert ByWeight()(ordered[i]) <= ByWeight()(ordered[j]);
    }
  }

  /** By latency: the quickest provider first; one never measured counts as the largest number there is. */
  lemma QuickestFirst(latency: map<string, nat>, model: string, targets: seq<Target>, ordered: seq<Target>)
    requires targets != [] && OrderedBy(LeastLatency(latency), model, targets, ordered)
    ensures forall i, j :: 0 <= i < j < |ordered| ==>
              (if ordered[i].provider in latency then latency[ordered[i].provider] else 0xFFFF_FFFF_FFFF_FFFF)
              <= (if ordered[j].provider in latency then latency[ordered[j].provider] else 0xFFFF_FFFF_FFFF_FFFF)
    ensures multiset(ordered) == multiset(targets)
  {
    StableSortPermutes(ordered, targets, ByLatency(latency));
    forall i, j | 0 <= i < j < |ordered|
      ensures (if ordered[i].provider in latency then latency[ordered[i].provider] else 0xFFFF_FFFF_FFFF_FFFF)
           <= (if ordered[j].provider in latency then latency[ordered[j].provider] else 0xFFFF_FFFF_FFFF_FFFF)
    {
      assert ByLatency(latency)(ordered[i]) <= ByLatency(latency)(ordered[j]);
    }
  }

  /** By condition: the target of the first rule that names the model or begins it, else the fallback. */
  lemma FirstConditionDecides(
      rules: seq<ConditionRule>, otherwise: Option<Target>, model: string,
      targets: seq<Target>, ordered: seq<Target>, i: nat)
    requires targets != [] && OrderedBy(Conditional(rules, otherwise), model, targets, ordered)
    requires i <= |rules|
    requires forall j :: 0 <= j < i ==>
               (rules[j].key.Model? ==> rules[j].value != model)
               && (rules[j].key.ModelPrefix? ==>
                     |rules[j].value| > |model| || model[..|rules[j].value|] != rules[j].value)
    requires i < |rules| ==>
               (rules[i].key.Model? && rules[i].value == model)
               || (rules[i].key.ModelPrefix? && |rules[i].value| <= |model|
                   && model[..|rules[i].value|] == rules[i].value)
    ensures i < |rules| ==> ordered == [rules[i].target] + targets
    ensures i == |rules| && otherwise.Some? ==> ordered == [otherwise.value] + targets
    ensures i == |rules| && otherwise.None? ==> ordered == targets
  {
    forall j | 0 <= j < i ensures !MatchesCondition(rules[j], model) {
    }
    var primary :| IsPrimary(Conditional(rules, otherwise), model, targets, primary)
                   && ordered == (if primary.Some? then [primary.value] else []) + targets;
    if i < |rules| {
      assert MatchesCondition(rules[i], model);
    }
  }

  /** By content: the target of the first matching rule, else the fallback. */
  lemma FirstContentDecides(
      rules: seq<ContentRule>, fallback: Option<Target>, model: string,
      targets: seq<Target>, ordered: seq<Target>, i: nat)
    requires targets != [] && OrderedBy(ContentBased(rules, fallback), model, targets, ordered)
    requires i <= |rules| && (forall j :: 0 <= j < i ==> !rules[j].matches)
    requires i < |rules| ==> rules[i].matches
    ensures i < |rules| ==> ordered == [rules[i].target] + targets
    ensures i == |rules| && fallback.Some? ==> ordered == [fallback.value] + targets
    ensures i == |rules| && fallback.None? ==> ordered == targets
  {
    var primary :| IsPrimary(ContentBased(rules, fallback), model, targets, primary)
                   && ordered == (if primary.Some? then [primary.value] else []) + targets;
  }

  /** By test: the variant in whose stretch of the weights the draw lies, or the first target. */
  lemma VariantDecides(
      variants: seq<Variant>, draw: real, model: string, targets: seq<Target>, ordered: seq<Target>, i: nat)
    requires targets != [] && DrawsOk(ABTest(variants, draw), targets)
    requires OrderedBy(ABTest(variants, draw), model, targets, ordered)
    ensures variants == [] ==> ordered == [targets[0]] + targets
    ensures i < |variants| && VariantWeightBefore(variants, i) <= draw < VariantWeightBefore(variants, i + 1) ==>
              ordered == [variants[i].target] + targets
  {
    var primary :| IsPrimary(ABTest(variants, draw), model, targets, primary)
                   && ordered == (if primary.Some? then [primary.value] else []) + targets;
    if i < |variants| {
      VariantSharesAreWeights(variants, i);
      VariantSharesAreWeights(variants, i + 1);
      if VariantWeightBefore(variants, i) <= draw < VariantWeightBefore(variants, i + 1) {
        var k: nat :| k < |variants| && primary == Some(variants[k].target)
                      && StartsIn(VariantShares(variants), draw, k);
        VariantsPartition(variants, draw, i, k);
      }
    }
  }

  /** The endpoints a strategy may try: the configured ones and that of its primary target. */
  ghost function Candidates(targets: seq<Target>, primary: Option<Target>): set<Endpoint> {
    Endpoints(targets) + if primary.Some? then {EndpointOf(primary.value)} else {}
  }

  lemma SameMultisetSameEndpoints(a: seq<Target>, b: seq<Target>)
    requires multiset(a) == multiset(b)
    ensures Endpoints(a) == Endpoints(b)
  {
    assert forall t :: t in a <==> t in multiset(a);
    assert forall t :: t in b <==> t in multiset(b);
  }

  lemma StableSortPermutes(out: seq<Target>, ts: seq<Target>, key: Target -> real)
    requires StableSortOf(out, ts, key)
    ensures multiset(out) == multiset(ts)
  {
    SortIsStable(ts, key);
    forall k ensures WithKey(out, key, k) == WithKey(SortByKey(ts, key), key, k) {
      assert WithKey(out, key, k) == WithKey(ts, key, k);
      assert WithKey(SortByKey(ts, key), key, k) == WithKey(ts, key, k);
    }
    StableSortUnique(out, SortByKey(ts, key), key);
  }

  lemma StableSortSameEndpoints(out: seq<Target>, ts: seq<Target>, key: Target -> real)
    requires StableSortOf(out, ts, key)
    ensures Endpoints(out) == Endpoints(ts)
  {
    StableSortPermutes(out, ts, key);
    SameMultisetSameEndpoints(out, ts);
  }

  /**
   Every strategy but `Single` yields every configured endpoint, and that of its primary
   target, exactly once; a primary target comes first.
   */
  lemma EveryEndpointTriedOnce(s: Strategy, model: string, targets: seq<Target>, ordered: seq<Target>)
    requires targets != [] && DrawsOk(s, targets) && OrderedBy(s, model, targets, ordered)
    ensures NoRepeats(Dedup(ordered)) && Dedup(ordered) != []
    ensures s.Single? ==> Dedup(ordered) == [targets[0]]
    ensures !s.Single? ==>
              exists primary ::
                && IsPrimary(s, model, targets, primary)
                && Endpoints(Dedup(ordered)) == Candidates(targets, primary)
                && (primary.Some? ==> Dedup(ordered)[0] == primary.value)
  {
    DedupKeepsEachOnce(ordered);
    match s {
      case Single =>
        DedupFixes({}, ordered);
      case Fallback =>
        assert IsPrimary(s, model, targets, None) && Candidates(targets, None) == Endpoints(targets);
      case LoadBalance(draws) =>
        BalancedPermutes(targets, draws);
        SameMultisetSameEndpoints(ordered, targets);
        assert IsPrimary(s, model, targets, None) && Candidates(targets, None) == Endpoints(targets);
      case LeastLatency(latency) =>
        StableSortSameEndpoints(ordered, targets, ByLatency(latency));
        assert IsPrimary(s, model, targets, None) && Candidates(targets, None) == Endpoints(targets);
      case CostOptimized =>
        StableSortSameEndpoints(ordered, targets, ByWeight());
        assert IsPrimary(s, model, targets, None) && Candidates(targets, None) == Endpoints(targets);
      case _ =>
        var primary :| IsPrimary(s, model, targets, primary)
                       && ordered == (if primary.Some? then [primary.value] else []) + targets;
        PrimaryEndpoints(primary, targets, ordered);
        assert Endpoints(Dedup(ordered)) == Candidates(targets, primary);
    }
    assert EndpointOf(targets[0]) in Endpoints(targets);
  }

  lemma PrimaryEndpoints(primary: Option<Target>, targets: seq<Target>, ordered: seq<Target>)
    requires ordered == (if primary.Some? then [primary.value] else []) + targets
    ensures Endpoints(ordered) == Candidates(targets, primary)
  {
    if primary.Some? {
      assert forall t :: t in ordered <==> t == primary.value || t in targets;
    } else {
      assert ordered == targets;
    }
  }
}
