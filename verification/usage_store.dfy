/**
 Usage accounting: a bounded ring of request records, the totals and top lists of the
 dashboard, the statistics of one API key, and the price table.
 */
module UsageStores {
  import opened MachineInts
  import opened Options
  import opened StableSorts

  datatype UsageRecord = UsageRecord(
    requestId: string,
    apiKeyId: Option<string>,
    model: string,
    provider: string,
    promptTokens: nat,
    completionTokens: nat,
    totalTokens: nat,
    costUsd: real,
    latencyMs: nat,
    createdAt: int,
    success: bool,
    errorMessage: Option<string>)

  // ---------------------------------------------------------------------------
  // Totals and groups
  // ---------------------------------------------------------------------------

  datatype Usage = Usage(requests: nat, tokens: nat, costUsd: real)

  function NoUsage(): Usage {
    Usage(0, 0, 0.0)
  }

  function Plus(a: Usage, b: Usage): Usage {
    Usage(a.requests + b.requests, a.tokens + b.tokens, a.costUsd + b.costUsd)
  }

  function UsageOf(r: UsageRecord): Usage {
    Usage(1, r.totalTokens, r.costUsd)
  }

  function Total(rs: seq<UsageRecord>): Usage
    decreases |rs|
  {
    if rs == [] then NoUsage() else Plus(Total(rs[..|rs| - 1]), UsageOf(rs[|rs| - 1]))
  }

  /** What one record adds to one group. */
  function Share<G(==)>(r: UsageRecord, groupOf: UsageRecord -> G, g: G): Usage {
    if groupOf(r) == g then UsageOf(r) else NoUsage()
  }

  /** What the records of one group add up to. */
  function TotalIn<G(==)>(rs: seq<UsageRecord>, groupOf: UsageRecord -> G, g: G): Usage
    decreases |rs|
  {
    if rs == [] then NoUsage() else
      Plus(TotalIn(rs[..|rs| - 1], groupOf, g), Share(rs[|rs| - 1], groupOf, g))
  }

  function Groups<G(==)>(rs: seq<UsageRecord>, groupOf: UsageRecord -> G): set<G> {
    set i | 0 <= i < |rs| :: groupOf(rs[i])
  }

  type Stats = map<string, Usage>

  /** One exact entry for each group that has a record. */
  ghost predicate Summarizes(stats: Stats, rs: seq<UsageRecord>, groupOf: UsageRecord -> string) {
    && stats.Keys == Groups(rs, groupOf)
    && forall g :: g in stats ==> stats[g] == TotalIn(rs, groupOf, g)
  }

  ghost function StatsBy(rs: seq<UsageRecord>, groupOf: UsageRecord -> string): (stats: Stats)
    ensures Summarizes(stats, rs, groupOf)
  {
    map g | g in Groups(rs, groupOf) :: TotalIn(rs, groupOf, g)
  }

  /** There is only one such summary. */
  lemma SummaryUnique(stats: Stats, rs: seq<UsageRecord>, groupOf: UsageRecord -> string)
    requires Summarizes(stats, rs, groupOf)
    ensures stats == StatsBy(rs, groupOf)
  {
  }

  function ModelOf(r: UsageRecord): string {
    r.model
  }

  function ProviderOf(r: UsageRecord): string {
    r.provider
  }

  /** `entry(g).or_insert(zero)`, then the three additions. */
  function Bumped(stats: Stats, g: string, r: UsageRecord): Stats {
    stats[g := Plus(if g in stats then stats[g] else NoUsage(), UsageOf(r))]
  }

  lemma GroupsGrow<G>(rs: seq<UsageRecord>, r: UsageRecord, groupOf: UsageRecord -> G)
    ensures Groups(rs + [r], groupOf) == Groups(rs, groupOf) + {groupOf(r)}
  {
    var all := rs + [r];
    assert forall i :: 0 <= i < |rs| ==> all[i] == rs[i];
    assert all[|rs|] == r;
    forall g | g in Groups(rs, groupOf) ensures g in Groups(all, groupOf) {
      var i :| 0 <= i < |rs| && groupOf(rs[i]) == g;
      assert groupOf(all[i]) == g;
    }
  }

  lemma {:induction false} AbsentGroupIsEmpty<G>(rs: seq<UsageRecord>, groupOf: UsageRecord -> G, g: G)
    requires g !in Groups(rs, groupOf)
    ensures TotalIn(rs, groupOf, g) == NoUsage()
    decreases |rs|
  {
    if rs != [] {
      var l := |rs| - 1;
      assert rs == rs[..l] + [rs[l]];
      GroupsGrow(rs[..l], rs[l], groupOf);
      AbsentGroupIsEmpty(rs[..l], groupOf, g);
    }
  }

  lemma BumpSummarizes(stats: Stats, rs: seq<UsageRecord>, r: UsageRecord, groupOf: UsageRecord -> string)
    requires Summarizes(stats, rs, groupOf)
    ensures Summarizes(Bumped(stats, groupOf(r), r), rs + [r], groupOf)
  {
    var all := rs + [r];
    assert all[..|rs|] == rs && all[|rs|] == r;
    GroupsGrow(rs, r, groupOf);
    if groupOf(r) !in stats {
      AbsentGroupIsEmpty(rs, groupOf, groupOf(r));
    }
  }

  ghost predicate Distinct<G>(gs: seq<G>) {
    forall i, j :: 0 <= i < j < |gs| ==> gs[i] != gs[j]
  }

  /** The groups named by `gs`, added up. */
  function TotalOver<G(==)>(rs: seq<UsageRecord>, groupOf: UsageRecord -> G, gs: seq<G>): Usage {
    if gs == [] then NoUsage() else Plus(TotalIn(rs, groupOf, gs[0]), TotalOver(rs, groupOf, gs[1..]))
  }

  lemma PlusSwaps(a: Usage, b: Usage, c: Usage, d: Usage)
    ensures Plus(Plus(a, b), Plus(c, d)) == Plus(Plus(a, c), Plus(b, d))
    ensures Plus(a, NoUsage()) == a == Plus(NoUsage(), a)
  {
  }

  lemma TotalInGrows<G>(rs: seq<UsageRecord>, r: UsageRecord, groupOf: UsageRecord -> G, g: G)
    ensures TotalIn(rs + [r], groupOf, g) == Plus(TotalIn(rs, groupOf, g), Share(r, groupOf, g))
  {
    assert (rs + [r])[..|rs|] == rs;
  }

  /** One more record counts towards exactly one of the groups it may belong to. */
  lemma {:induction false} RecordCountsOnce<G>(rs: seq<UsageRecord>, r: UsageRecord, groupOf: UsageRecord -> G, gs: seq<G>)
    requires Distinct(gs)
    ensures TotalOver(rs + [r], groupOf, gs)
         == Plus(TotalOver(rs, groupOf, gs), if groupOf(r) in gs then UsageOf(r) else NoUsage())
    decreases |gs|
  {
    if gs != [] {
      var others := gs[1..];
      var rest := if groupOf(r) in others then UsageOf(r) else NoUsage();
      TotalInGrows(rs, r, groupOf, gs[0]);
      RecordCountsOnce(rs, r, groupOf, others);
      PlusSwaps(TotalIn(rs, groupOf, gs[0]), Share(r, groupOf, gs[0]), TotalOver(rs, groupOf, others), rest);
      InHeadOrTail(groupOf(r), gs);
      PlusSwaps(Share(r, groupOf, gs[0]), NoUsage(), rest, NoUsage());
    }
  }

  lemma InHeadOrTail<G>(g: G, gs: seq<G>)
    requires gs != [] && Distinct(gs)
    ensures g in gs <==> g == gs[0] || g in gs[1..]
    ensures g == gs[0] ==> g !in gs[1..]
  {
  }

  lemma {:induction false} NothingOverNoRecords<G>(rs: seq<UsageRecord>, groupOf: UsageRecord -> G, gs: seq<G>)
    requires rs == []
    ensures TotalOver(rs, groupOf, gs) == NoUsage()
    decreases |gs|
  {
    if gs != [] {
      NothingOverNoRecords(rs, groupOf, gs[1..]);
      assert TotalIn(rs, groupOf, gs[0]) == NoUsage();
      PlusSwaps(NoUsage(), NoUsage(), NoUsage(), NoUsage());
    }
  }

  /**
   However records are grouped, and in whatever order the groups are listed, the groups
   add up to the totals: requests, tokens and cost.
   */
  lemma {:induction false} GroupsAddUp<G>(rs: seq<UsageRecord>, groupOf: UsageRecord -> G, gs: seq<G>)
    requires Distinct(gs) && forall i :: 0 <= i < |rs| ==> groupOf(rs[i]) in gs
    ensures TotalOver(rs, groupOf, gs) == Total(rs)
    decreases |rs|
  {
    if rs == [] {
      NothingOverNoRecords(rs, groupOf, gs);
    } else {
      var l := |rs| - 1;
      GroupsAddUp(rs[..l], groupOf, gs);
      RecordCountsOnce(rs[..l], rs[l], groupOf, gs);
      assert rs[..l] + [rs[l]] == rs;
    }
  }

  // ---------------------------------------------------------------------------
  // The busiest groups
  // ---------------------------------------------------------------------------

  datatype Row = Row(name: string, usage: Usage)

  /** Sorting by this key puts the most requests first. */
  function BusiestFirst(): Row -> real {
    (row: Row) => -(row.usage.requests as real)
  }

  /** Each group once, in any order. */
  ghost predicate Enumerates(rows: seq<Row>, stats: Stats) {
    && (forall i :: 0 <= i < |rows| ==> rows[i].name in stats && rows[i].usage == stats[rows[i].name])
    && (forall i, j :: 0 <= i < j < |rows| ==> rows[i].name != rows[j].name)
    && forall g :: g in stats ==> Row(g, stats[g]) in rows
  }

  ghost predicate Falling(rows: seq<Row>) {
    forall i, j :: 0 <= i < j < |rows| ==> rows[i].usage.requests >= rows[j].usage.requests
  }

  /** `rows` are the first `n` of the groups in order of requests, `others` the remaining ones. */
  ghost predicate SplitsAt(rows: seq<Row>, stats: Stats, n: nat, others: seq<Row>) {
    && Enumerates(rows + others, stats)
    && |rows| == Min(n, |rows| + |others|)
    && Falling(rows)
    && forall kept, out :: kept in rows && out in others ==> kept.usage.requests >= out.usage.requests
  }

  ghost predicate TopOf(rows: seq<Row>, stats: Stats, n: nat) {
    exists others :: SplitsAt(rows, stats, n, others)
  }

  lemma PermutedEnumerates(a: seq<Row>, b: seq<Row>, stats: Stats)
    requires Enumerates(a, stats) && multiset(a) == multiset(b)
    ensures Enumerates(b, stats)
  {
    assert forall row :: row in b <==> row in multiset(b);
    assert forall row :: row in a <==> row in multiset(a);
    forall i | 0 <= i < |b| ensures b[i].name in stats && b[i].usage == stats[b[i].name] {
      assert b[i] in a;
    }
    OncePerRow(a);
    forall i, j | 0 <= i < j < |b| ensures b[i].name != b[j].name {
      if b[i].name == b[j].name {
        assert b[i] == b[j] && b[i] in a;
        TwiceInMultiset(b, i, j);
        assert false;
      }
    }
  }

  lemma {:induction false} OncePerRow(a: seq<Row>)
    requires forall i, j :: 0 <= i < j < |a| ==> a[i].name != a[j].name
    ensures forall row :: row in a ==> multiset(a)[row] == 1
    decreases |a|
  {
    if a != [] {
      OncePerRow(a[1..]);
      assert a == [a[0]] + a[1..];
      assert a[0] !in a[1..];
    }
  }

  lemma TwiceInMultiset(b: seq<Row>, i: nat, j: nat)
    requires i < j < |b| && b[i] == b[j]
    ensures multiset(b)[b[i]] >= 2
  {
    assert b == b[..i] + [b[i]] + b[i + 1..j] + [b[j]] + b[j + 1..];
  }

  /** The entries of the map, in the order it happens to yield them. */
  method Collect(stats: Stats) returns (items: seq<Row>)
    ensures Enumerates(items, stats)
  {
    items := [];
    var left := stats.Keys;
    while left != {}
      invariant left <= stats.Keys
      invariant forall i :: 0 <= i < |items| ==>
                  items[i].name in stats && items[i].usage == stats[items[i].name] && items[i].name !in left
      invariant forall i, j :: 0 <= i < j < |items| ==> items[i].name != items[j].name
      invariant forall g :: g in stats ==> g in left || Row(g, stats[g]) in items
      decreases left
    {
      var g :| g in left;
      var before := items;
      items := items + [Row(g, stats[g])];
      assert forall row :: row in before ==> row in items;
      assert items[|before|] == Row(g, stats[g]);
      left := left - {g};
    }
  }

  lemma SortedFalls(rows: seq<Row>)
    requires Sorted(rows, BusiestFirst())
    ensures Falling(rows)
  {
    forall i, j | 0 <= i < j < |rows| ensures rows[i].usage.requests >= rows[j].usage.requests {
      assert BusiestFirst()(rows[i]) <= BusiestFirst()(rows[j]);
    }
  }

  lemma CutKeepsBusiest(rows: seq<Row>, kept: nat, a: Row, b: Row)
    requires Falling(rows) && kept <= |rows|
    requires a in rows[..kept] && b in rows[kept..]
    ensures a.usage.requests >= b.usage.requests
  {
    var i :| 0 <= i < kept && rows[i] == a;
    var j :| kept <= j < |rows| && rows[j] == b;
  }

  lemma CutIsTop(sorted: seq<Row>, stats: Stats, n: nat)
    requires Enumerates(sorted, stats) && Falling(sorted)
    ensures TopOf(sorted[..Min(n, |sorted|)], stats, n)
  {
    var kept := Min(n, |sorted|);
    var rows, others := sorted[..kept], sorted[kept..];
    assert rows + others == sorted;
    assert Falling(rows) by {
      assert forall i :: 0 <= i < |rows| ==> rows[i] == sorted[i];
    }
    forall a, b | a in rows && b in others ensures a.usage.requests >= b.usage.requests {
      CutKeepsBusiest(sorted, kept, a, b);
    }
    assert SplitsAt(rows, stats, n, others);
  }

  /** Collect, sort by falling number of requests, and take the first `n`. */
  method TopN(stats: Stats, n: nat) returns (rows: seq<Row>)
    ensures TopOf(rows, stats, n)
  {
    var items := Collect(stats);
    var sorted := SortByKey(items, BusiestFirst());
    SortIsStable(items, BusiestFirst());
    PermutedEnumerates(items, sorted, stats);
    SortedFalls(sorted);
    CutIsTop(sorted, stats, n);
    rows := sorted[..Min(n, |sorted|)];
  }

  function RowTotal(rows: seq<Row>): Usage {
    if rows == [] then NoUsage() else Plus(rows[0].usage, RowTotal(rows[1..]))
  }

  function Names(rows: seq<Row>): (names: seq<string>)
    ensures |names| == |rows|
    ensures forall i :: 0 <= i < |rows| ==> names[i] == rows[i].name
  {
    if rows == [] then [] else [rows[0].name] + Names(rows[1..])
  }

  lemma {:induction false} RowTotalConcat(a: seq<Row>, b: seq<Row>)
    ensures RowTotal(a + b) == Plus(RowTotal(a), RowTotal(b))
    decreases |a|
  {
    if a == [] {
      assert a + b == b;
      PlusSwaps(RowTotal(b), NoUsage(), NoUsage(), NoUsage());
    } else {
      assert (a + b)[0] == a[0] && (a + b)[1..] == a[1..] + b;
      RowTotalConcat(a[1..], b);
    }
  }

  lemma {:induction false} RowsAreGroups(rows: seq<Row>, rs: seq<UsageRecord>, groupOf: UsageRecord -> string)
    requires forall i :: 0 <= i < |rows| ==> rows[i].usage == TotalIn(rs, groupOf, rows[i].name)
    ensures RowTotal(rows) == TotalOver(rs, groupOf, Names(rows))
    decreases |rows|
  {
    if rows != [] {
      RowsAreGroups(rows[1..], rs, groupOf);
      assert Names(rows)[1..] == Names(rows[1..]);
    }
  }

  lemma {:induction false} PresentGroupHasRequests(rs: seq<UsageRecord>, groupOf: UsageRecord -> string, g: string)
    requires g in Groups(rs, groupOf)
    ensures TotalIn(rs, groupOf, g).requests >= 1
    decreases |rs|
  {
    var l := |rs| - 1;
    if groupOf(rs[l]) != g {
      GroupsGrow(rs[..l], rs[l], groupOf);
      assert rs == rs[..l] + [rs[l]];
      PresentGroupHasRequests(rs[..l], groupOf, g);
    }
  }

  /** The rows of a top list together with the groups it leaves out are the totals. */
  lemma TopAndOthersAddUp(rs: seq<UsageRecord>, groupOf: UsageRecord -> string, n: nat, rows: seq<Row>, others: seq<Row>)
    requires SplitsAt(rows, StatsBy(rs, groupOf), n, others)
    ensures Plus(RowTotal(rows), RowTotal(others)) == Total(rs)
    ensures others == [] ==> RowTotal(rows) == Total(rs)
    ensures others != [] ==> RowTotal(others).requests >= 1
  {
    AllRowsAddUp(rs, groupOf, StatsBy(rs, groupOf), rows + others);
    RowTotalConcat(rows, others);
    if others != [] {
      assert (rows + others)[|rows|] == others[0];
      PresentGroupHasRequests(rs, groupOf, others[0].name);
    } else {
      PlusSwaps(RowTotal(rows), NoUsage(), NoUsage(), NoUsage());
    }
  }

  /**
   A top list accounts for every request exactly when there are at most `n` groups, and
   never for more.
   */
  lemma TopListAccountsFor(rs: seq<UsageRecord>, groupOf: UsageRecord -> string, n: nat, rows: seq<Row>)
    requires TopOf(rows, StatsBy(rs, groupOf), n)
    ensures RowTotal(rows).requests <= Total(rs).requests
    ensures RowTotal(rows).requests == Total(rs).requests <==> |Groups(rs, groupOf)| <= n
    ensures |Groups(rs, groupOf)| <= n ==> RowTotal(rows) == Total(rs)
  {
    var others :| SplitsAt(rows, StatsBy(rs, groupOf), n, others);
    TopAndOthersAddUp(rs, groupOf, n, rows, others);
    NamesAreGroups(rs, groupOf, StatsBy(rs, groupOf), rows + others);
    assert |Groups(rs, groupOf)| == |rows| + |others|;
    assert others == [] <==> |Groups(rs, groupOf)| <= n;
  }

  lemma AllRowsAddUp(rs: seq<UsageRecord>, groupOf: UsageRecord -> string, stats: Stats, all: seq<Row>)
    requires Summarizes(stats, rs, groupOf) && Enumerates(all, stats)
    ensures RowTotal(all) == Total(rs)
  {
    RowsAreGroups(all, rs, groupOf);
    forall i | 0 <= i < |rs| ensures groupOf(rs[i]) in Names(all) {
      GroupIsNamed(stats, all, groupOf(rs[i]));
    }
    GroupsAddUp(rs, groupOf, Names(all));
  }

  lemma GroupIsNamed(stats: Stats, all: seq<Row>, g: string)
    requires Enumerates(all, stats) && g in stats
    ensures g in Names(all)
  {
    var j :| 0 <= j < |all| && all[j] == Row(g, stats[g]);
    assert Names(all)[j] == g;
  }

  lemma NamesAreGroups(rs: seq<UsageRecord>, groupOf: UsageRecord -> string, stats: Stats, all: seq<Row>)
    requires Summarizes(stats, rs, groupOf) && Enumerates(all, stats)
    ensures |Groups(rs, groupOf)| == |all|
  {
    var names := Names(all);
    forall g | g in Groups(rs, groupOf) ensures g in names {
      GroupIsNamed(stats, all, g);
    }
    SetOfDistinct(names, Groups(rs, groupOf));
  }

  lemma {:induction false} SetOfDistinct(names: seq<string>, all: set<string>)
    requires Distinct(names) && forall g :: g in all <==> g in names
    ensures |all| == |names|
    decreases |names|
  {
    if names == [] {
      assert all == {};
    } else {
      InHeadOrTail(names[0], names);
      forall g ensures g in all - {names[0]} <==> g in names[1..] {
        if g in names {
          InHeadOrTail(g, names);
        }
      }
      SetOfDistinct(names[1..], all - {names[0]});
    }
  }

  // ---------------------------------------------------------------------------
  // The records of one API key
  // ---------------------------------------------------------------------------

  datatype KeyStats = KeyStats(
    requests: nat,
    successful: nat,
    failed: nat,
    promptTokens: nat,
    completionTokens: nat,
    totalTokens: nat,
    costUsd: real,
    avgLatencyMs: real,
    lastRequestAt: Option<int>,
    modelsUsed: set<string>)

  function KeyOf(r: UsageRecord): Option<string> {
    r.apiKeyId
  }

  predicate IsOf(r: UsageRecord, id: string) {
    r.apiKeyId == Some(id)
  }

  /** The records of a key, oldest first. */
  function RecordsOf(rs: seq<UsageRecord>, id: string): seq<UsageRecord>
    decreases |rs|
  {
    if rs == [] then []
    else if IsOf(rs[|rs| - 1], id) then RecordsOf(rs[..|rs| - 1], id) + [rs[|rs| - 1]]
    else RecordsOf(rs[..|rs| - 1], id)
  }

  function SumBy(rs: seq<UsageRecord>, amount: UsageRecord -> nat): nat
    decreases |rs|
  {
    if rs == [] then 0 else SumBy(rs[..|rs| - 1], amount) + amount(rs[|rs| - 1])
  }

  function PromptTokens(r: UsageRecord): nat { r.promptTokens }
  function CompletionTokens(r: UsageRecord): nat { r.completionTokens }
  function Latency(r: UsageRecord): nat { r.latencyMs }
  function SuccessCount(r: UsageRecord): nat { if r.success then 1 else 0 }
  function FailureCount(r: UsageRecord): nat { if r.success then 0 else 1 }

  function Average(total: nat, count: nat): real {
    if count > 0 then total as real / count as real else 0.0
  }

  ghost predicate LatestOf(rs: seq<UsageRecord>, latest: Option<int>) {
    if rs == [] then latest == None
    else && latest.Some?
         && (exists i :: 0 <= i < |rs| && rs[i].createdAt == latest.value)
         && forall i :: 0 <= i < |rs| ==> rs[i].createdAt <= latest.value
  }

  /** The tokens a key's statistics report. */
  function KeyTokens(mine: seq<UsageRecord>): nat {
    SumBy(mine, PromptTokens) + SumBy(mine, CompletionTokens)
  }

  ghost predicate StatsOf(s: KeyStats, mine: seq<UsageRecord>) {
    && s.requests == |mine|
    && s.successful == SumBy(mine, SuccessCount)
    && s.failed == SumBy(mine, FailureCount)
    && s.promptTokens == SumBy(mine, PromptTokens)
    && s.completionTokens == SumBy(mine, CompletionTokens)
    && s.totalTokens == KeyTokens(mine)
    && s.costUsd == Total(mine).costUsd
    && s.avgLatencyMs == Average(SumBy(mine, Latency), |mine|)
    && LatestOf(mine, s.lastRequestAt)
    && s.modelsUsed == Groups(mine, ModelOf)
  }

  lemma SumByGrows(rs: seq<UsageRecord>, r: UsageRecord, amount: UsageRecord -> nat)
    ensures SumBy(rs + [r], amount) == SumBy(rs, amount) + amount(r)
  {
    assert (rs + [r])[..|rs|] == rs;
  }

  lemma TotalGrows(rs: seq<UsageRecord>, r: UsageRecord)
    ensures Total(rs + [r]) == Plus(Total(rs), UsageOf(r))
  {
    assert (rs + [r])[..|rs|] == rs;
  }

  /** Every record of the key succeeded or failed. */
  lemma {:induction false} SuccessesAndFailures(rs: seq<UsageRecord>)
    ensures SumBy(rs, SuccessCount) + SumBy(rs, FailureCount) == |rs| == Total(rs).requests
    decreases |rs|
  {
    if rs != [] {
      SuccessesAndFailures(rs[..|rs| - 1]);
    }
  }

  /** What the key's own records add up to is what the grouping by key says. */
  lemma {:induction false} KeyGroup(rs: seq<UsageRecord>, id: string)
    ensures Total(RecordsOf(rs, id)) == TotalIn(rs, KeyOf, Some(id))
    decreases |rs|
  {
    if rs != [] {
      var l := |rs| - 1;
      KeyGroup(rs[..l], id);
      OneMoreOfKey(RecordsOf(rs[..l], id), rs[l], id);
    }
  }

  lemma OneMoreOfKey(mine: seq<UsageRecord>, r: UsageRecord, id: string)
    ensures Total(if IsOf(r, id) then mine + [r] else mine) == Plus(Total(mine), Share(r, KeyOf, Some(id)))
  {
    if IsOf(r, id) {
      TotalGrows(mine, r);
    } else {
      PlusSwaps(Total(mine), NoUsage(), NoUsage(), NoUsage());
    }
  }

  /** The recorded token total is prompt plus completion tokens. */
  predicate Consistent(r: UsageRecord) {
    r.totalTokens == r.promptTokens + r.completionTokens
  }

  /** By how much the key's share of the dashboard's tokens exceeds what its statistics report. */
  function TokenGap(rs: seq<UsageRecord>, id: string): int {
    TotalIn(rs, KeyOf, Some(id)).tokens - KeyTokens(RecordsOf(rs, id))
  }

  function Excess(r: UsageRecord, id: string): int {
    if IsOf(r, id) then r.totalTokens - r.promptTokens - r.completionTokens else 0
  }

  lemma GapGrows(rs: seq<UsageRecord>, r: UsageRecord, id: string)
    ensures TokenGap(rs + [r], id) == TokenGap(rs, id) + Excess(r, id)
  {
    assert (rs + [r])[..|rs|] == rs;
    TotalInGrows(rs, r, KeyOf, Some(id));
    SumByGrows(RecordsOf(rs, id), r, PromptTokens);
    SumByGrows(RecordsOf(rs, id), r, CompletionTokens);
  }

  predicate ConsistentFor(rs: seq<UsageRecord>, id: string) {
    forall i :: 0 <= i < |rs| && IsOf(rs[i], id) ==> Consistent(rs[i])
  }

  lemma {:induction false} NoGap(rs: seq<UsageRecord>, id: string)
    requires ConsistentFor(rs, id)
    ensures TokenGap(rs, id) == 0
    decreases |rs|
  {
    if rs != [] {
      var l := |rs| - 1;
      NoGap(rs[..l], id);
      assert rs == rs[..l] + [rs[l]];
      GapGrows(rs[..l], rs[l], id);
    }
  }

  /** Over all records at once: if each is consistent, so are the totals. */
  lemma {:induction false} KeyTokensAgree(rs: seq<UsageRecord>)
    requires forall i :: 0 <= i < |rs| ==> Consistent(rs[i])
    ensures Total(rs).tokens == KeyTokens(rs)
    decreases |rs|
  {
    if rs != [] {
      KeyTokensAgree(rs[..|rs| - 1]);
    }
  }

  lemma OneRecord(rs: seq<UsageRecord>, r: UsageRecord, id: string)
    requires |rs| == 1 && rs[0] == r && IsOf(r, id)
    ensures TotalIn(rs, KeyOf, Some(id)).tokens == r.totalTokens
    ensures KeyTokens(RecordsOf(rs, id)) == r.promptTokens + r.completionTokens
  {
    var none := rs[..0];
    assert none + [r] == rs && RecordsOf(rs, id) == none + [r];
    TotalInGrows(none, r, KeyOf, Some(id));
    SumByGrows(none, r, PromptTokens);
    SumByGrows(none, r, CompletionTokens);
  }

  /** They do differ: after a single record that counts further tokens, such as this one. */
  lemma KeyTokensDiffer(id: string) returns (rs: seq<UsageRecord>)
    ensures TotalIn(rs, KeyOf, Some(id)).tokens != KeyTokens(RecordsOf(rs, id))
  {
    var r := UsageRecord("", Some(id), "", "", 1, 1, 5, 0.0, 0, 0, true, None);
    rs := [r];
    OneRecord(rs, r, id);
  }

  /** The keys named by `ids`, added up. */
  function TotalOfKeys(rs: seq<UsageRecord>, ids: seq<string>): Usage {
    if ids == [] then NoUsage() else Plus(Total(RecordsOf(rs, ids[0])), TotalOfKeys(rs, ids[1..]))
  }

  function Present(ids: seq<string>): (keys: seq<Option<string>>)
    ensures |keys| == |ids| && forall i :: 0 <= i < |ids| ==> keys[i] == Some(ids[i])
  {
    if ids == [] then [] else [Some(ids[0])] + Present(ids[1..])
  }

  lemma {:induction false} TotalOfKeysIsGrouped(rs: seq<UsageRecord>, ids: seq<string>)
    ensures TotalOfKeys(rs, ids) == TotalOver(rs, KeyOf, Present(ids))
    decreases |ids|
  {
    if ids != [] {
      KeyGroup(rs, ids[0]);
      TotalOfKeysIsGrouped(rs, ids[1..]);
      assert Present(ids)[1..] == Present(ids[1..]);
    }
  }

  /** The statistics of all keys, with the requests made without a key, are the totals. */
  lemma KeysAddUp(rs: seq<UsageRecord>, ids: seq<string>)
    requires Distinct(ids) && forall i :: 0 <= i < |rs| && rs[i].apiKeyId.Some? ==> rs[i].apiKeyId.value in ids
    ensures Plus(TotalIn(rs, KeyOf, None), TotalOfKeys(rs, ids)) == Total(rs)
  {
    var keys := Present(ids);
    var gs := [None] + keys;
    forall i | 0 <= i < |rs| ensures KeyOf(rs[i]) in gs {
      if rs[i].apiKeyId.Some? {
        var j :| 0 <= j < |ids| && ids[j] == rs[i].apiKeyId.value;
        assert gs[j + 1] == KeyOf(rs[i]);
      } else {
        assert gs[0] == KeyOf(rs[i]);
      }
    }
    GroupsAddUp(rs, KeyOf, gs);
    TotalOfKeysIsGrouped(rs, ids);
    assert gs[1..] == keys;
  }

  // ---------------------------------------------------------------------------
  // The most recent failures
  // ---------------------------------------------------------------------------

  /** The failures, oldest first. */
  function Failures(rs: seq<UsageRecord>): seq<UsageRecord>
    decreases |rs|
  {
    if rs == [] then [] else
      Failures(rs[..|rs| - 1]) + if rs[|rs| - 1].success then [] else [rs[|rs| - 1]]
  }

  /** The last `n` of them, newest first. */
  ghost predicate NewestFirst(recent: seq<UsageRecord>, failures: seq<UsageRecord>, n: nat) {
    && |recent| == Min(n, |failures|)
    && forall i :: 0 <= i < |recent| ==> recent[i] == failures[|failures| - 1 - i]
  }

  method RecentFailures(rs: seq<UsageRecord>, n: nat) returns (recent: seq<UsageRecord>)
    ensures NewestFirst(recent, Failures(rs), n)
  {
    recent := [];
    var i := |rs|;
    assert rs[..i] == rs;
    while i > 0 && |recent| < n
      invariant 0 <= i <= |rs| && |recent| <= n
      invariant |Failures(rs)| == |Failures(rs[..i])| + |recent|
      invariant Failures(rs[..i]) <= Failures(rs)
      invariant forall j :: 0 <= j < |recent| ==> recent[j] == Failures(rs)[|Failures(rs)| - 1 - j]
    {
      i := i - 1;
      assert rs[..i + 1][..i] == rs[..i];
      if !rs[i].success {
        recent := recent + [rs[i]];
      }
    }
  }

  // ---------------------------------------------------------------------------
  // Prices
  // ---------------------------------------------------------------------------

  datatype Pricing = Pricing(model: string, inputPerMTokens: real, outputPerMTokens: real)

  /** The price in force for a model: its first entry. */
  function FindPrice(table: seq<Pricing>, model: string): Option<Pricing> {
    if table == [] then None
    else if table[0].model == model then Some(table[0])
    else FindPrice(table[1..], model)
  }

  /** The last entry for a model, if any. */
  function LastPrice(entries: seq<Pricing>, model: string): Option<Pricing>
    decreases |entries|
  {
    if entries == [] then None
    else if entries[|entries| - 1].model == model then Some(entries[|entries| - 1])
    else LastPrice(entries[..|entries| - 1], model)
  }

  /** The entry found is the first of the model; none is found only if there is none. */
  lemma {:induction false} FirstEntryFound(table: seq<Pricing>, model: string, i: nat)
    requires i <= |table| && forall j :: 0 <= j < i ==> table[j].model != model
    ensures i < |table| && table[i].model == model ==> FindPrice(table, model) == Some(table[i])
    ensures i == |table| ==> FindPrice(table, model) == None
    decreases i
  {
    if i > 0 {
      FirstEntryFound(table[1..], model, i - 1);
    }
  }

  lemma {:induction false} LastEntryFound(entries: seq<Pricing>, model: string, i: nat)
    requires i <= |entries| && forall j :: i <= j < |entries| ==> entries[j].model != model
    ensures i > 0 && entries[i - 1].model == model ==> LastPrice(entries, model) == Some(entries[i - 1])
    ensures i == 0 ==> LastPrice(entries, model) == None
    decreases |entries|
  {
    if i < |entries| {
      LastEntryFound(entries[..|entries| - 1], model, i);
    }
  }

  ghost predicate OnePricePerModel(table: seq<Pricing>) {
    forall i, j :: 0 <= i < j < |table| ==> table[i].model != table[j].model
  }

  /** The last override of a model wins; a model without one keeps its built-in price. */
  ghost predicate Overridden(table: seq<Pricing>, defaults: seq<Pricing>, overrides: seq<Pricing>) {
    forall m ::
      FindPrice(table, m) == if LastPrice(overrides, m).Some? then LastPrice(overrides, m) else FindPrice(defaults, m)
  }

  lemma {:induction false} FindReplaced(table: seq<Pricing>, i: nat, entry: Pricing, m: string)
    requires i < |table| && table[i].model == entry.model
    requires forall j :: 0 <= j < i ==> table[j].model != entry.model
    ensures FindPrice(table[i := entry], m) == if m == entry.model then Some(entry) else FindPrice(table, m)
    decreases i
  {
    if i > 0 {
      assert table[i := entry][1..] == table[1..][i - 1 := entry];
      FindReplaced(table[1..], i - 1, entry, m);
    } else {
      assert table[0 := entry][1..] == table[1..];
    }
  }

  lemma {:induction false} FindAppended(table: seq<Pricing>, entry: Pricing, m: string)
    requires forall j :: 0 <= j < |table| ==> table[j].model != entry.model
    ensures FindPrice(table + [entry], m) == if m == entry.model then Some(entry) else FindPrice(table, m)
    decreases |table|
  {
    if table != [] {
      assert (table + [entry])[1..] == table[1..] + [entry];
      FindAppended(table[1..], entry, m);
    }
  }

  /** Merge the overrides into the built-in table, entry by entry. */
  method LoadPricing(defaults: seq<Pricing>, overrides: seq<Pricing>) returns (table: seq<Pricing>)
    ensures Overridden(table, defaults, overrides)
    ensures OnePricePerModel(defaults) ==> OnePricePerModel(table)
  {
    table := defaults;
    var k := 0;
    while k < |overrides|
      invariant 0 <= k <= |overrides|
      invariant Overridden(table, defaults, overrides[..k])
      invariant OnePricePerModel(defaults) ==> OnePricePerModel(table)
    {
      table := Merge(table, overrides[k]);
      assert overrides[..k + 1][..k] == overrides[..k];
      k := k + 1;
    }
    assert overrides[..k] == overrides;
  }

  method Merge(table: seq<Pricing>, entry: Pricing) returns (merged: seq<Pricing>)
    ensures forall m :: FindPrice(merged, m) == if m == entry.model then Some(entry) else FindPrice(table, m)
    ensures OnePricePerModel(table) ==> OnePricePerModel(merged)
  {
    var i := 0;
    while i < |table| && table[i].model != entry.model
      invariant 0 <= i <= |table|
      invariant forall j :: 0 <= j < i ==> table[j].model != entry.model
    {
      i := i + 1;
    }
    if i < |table| {
      merged := table[i := entry];
      forall m ensures FindPrice(merged, m) == if m == entry.model then Some(entry) else FindPrice(table, m) {
        FindReplaced(table, i, entry, m);
      }
    } else {
      merged := table + [entry];
      forall m ensures FindPrice(merged, m) == if m == entry.model then Some(entry) else FindPrice(table, m) {
        FindAppended(table, entry, m);
      }
    }
  }

  // ---------------------------------------------------------------------------
  // The store
  // ---------------------------------------------------------------------------

  /** The last `max` records. */
  function Latest(rs: seq<UsageRecord>, max: nat): seq<UsageRecord> {
    rs[|rs| - Min(max, |rs|)..]
  }

  lemma DropFront(all: seq<UsageRecord>, k: nat)
    requires k < |all|
    ensures all[k..][1..] == all[k + 1..]
  {
  }

  /** What is held after one more record: it comes last, after the latest before it there is room for. */
  lemma OneMoreHeld(rs: seq<UsageRecord>, r: UsageRecord, max: nat, i: nat)
    ensures var held := Latest(rs + [r], max);
            && |held| == (if |rs| + 1 > max then max else |rs| + 1)
            && (i + 1 < |held| ==> held[i] == rs[|rs| + 1 - |held| + i])
            && (i + 1 == |held| ==> held[i] == r)
  {
  }

  datatype Dashboard = Dashboard(
    totalKeys: nat,
    totals: Usage,
    avgLatencyMs: real,
    errorRate: real,
    topModels: seq<Row>,
    topProviders: seq<Row>,
    recentErrors: seq<UsageRecord>)

  /** Ten groups or, if there are fewer, all of them, each once, those with most requests first. */
  ghost predicate ListsGroups(rows: seq<Row>, groups: set<string>) {
    && |rows| == (if |groups| > 10 then 10 else |groups|)
    && (forall i :: 0 <= i < |rows| ==> rows[i].name in groups)
    && forall i, j :: 0 <= i < j < |rows| ==>
         rows[i].name != rows[j].name && rows[i].usage.requests >= rows[j].usage.requests
  }

  lemma TopRowsAreGroups(rs: seq<UsageRecord>, groupOf: UsageRecord -> string, n: nat, rows: seq<Row>)
    requires TopOf(rows, StatsBy(rs, groupOf), n)
    ensures |rows| == Min(n, |Groups(rs, groupOf)|)
    ensures forall i :: 0 <= i < |rows| ==> rows[i].name in Groups(rs, groupOf)
    ensures forall i, j :: 0 <= i < j < |rows| ==>
              rows[i].name != rows[j].name && rows[i].usage.requests >= rows[j].usage.requests
  {
    var others :| SplitsAt(rows, StatsBy(rs, groupOf), n, others);
    NamesAreGroups(rs, groupOf, StatsBy(rs, groupOf), rows + others);
    assert forall i :: 0 <= i < |rows| ==> (rows + others)[i] == rows[i];
  }

  function ModelsIn(rs: seq<UsageRecord>): set<string> {
    set i | 0 <= i < |rs| :: rs[i].model
  }

  function ProvidersIn(rs: seq<UsageRecord>): set<string> {
    set i | 0 <= i < |rs| :: rs[i].provider
  }

  lemma TopRowsListed(rs: seq<UsageRecord>, models: seq<Row>, providers: seq<Row>)
    requires TopOf(models, StatsBy(rs, ModelOf), TOP_ROWS)
    requires TopOf(providers, StatsBy(rs, ProviderOf), TOP_ROWS)
    ensures ListsGroups(models, ModelsIn(rs)) && ListsGroups(providers, ProvidersIn(rs))
  {
    TopRowsAreGroups(rs, ModelOf, TOP_ROWS, models);
    TopRowsAreGroups(rs, ProviderOf, TOP_ROWS, providers);
    GroupsNamed(rs);
  }

  lemma GroupsNamed(rs: seq<UsageRecord>)
    ensures Groups(rs, ModelOf) == ModelsIn(rs) && Groups(rs, ProviderOf) == ProvidersIn(rs)
  {
  }

  const TOP_ROWS: nat := 10
  const RECENT_ERRORS: nat := 10

  /** One pass over the records: totals, and the entries of every model and provider. */
  method Accumulate(rs: seq<UsageRecord>)
    returns (totals: Usage, latency: nat, errors: nat, modelStats: Stats, providerStats: Stats)
    ensures totals == Total(rs) && totals.requests == |rs|
    ensures latency == SumBy(rs, Latency) && errors == |Failures(rs)|
    ensures Summarizes(modelStats, rs, ModelOf) && Summarizes(providerStats, rs, ProviderOf)
    ensures modelStats.Keys == ModelsIn(rs) && providerStats.Keys == ProvidersIn(rs)
  {
    totals := NoUsage();
    latency, errors := 0, 0;
    modelStats, providerStats := map[], map[];
    var i := 0;
    while i < |rs|
      invariant 0 <= i <= |rs| && totals.requests == i && totals == Total(rs[..i])
      invariant latency == SumBy(rs[..i], Latency) && errors == |Failures(rs[..i])|
      invariant Summarizes(modelStats, rs[..i], ModelOf)
      invariant Summarizes(providerStats, rs[..i], ProviderOf)
    {
      var r := rs[i];
      assert rs[..i + 1] == rs[..i] + [r];
      GrowTotals(rs[..i], r);
      BumpSummarizes(modelStats, rs[..i], r, ModelOf);
      BumpSummarizes(providerStats, rs[..i], r, ProviderOf);
      totals := Usage(totals.requests + 1, totals.tokens + r.totalTokens, totals.costUsd + r.costUsd);
      latency := latency + r.latencyMs;
      if !r.success {
        errors := errors + 1;
      }
      modelStats := Bumped(modelStats, r.model, r);
      providerStats := Bumped(providerStats, r.provider, r);
      i := i + 1;
    }
    assert rs[..i] == rs;
    GroupsNamed(rs);
  }

  class UsageStore {
    var records: seq<UsageRecord>
    const maxRecords: nat

    constructor (maxRecords: nat)
      ensures records == [] && this.maxRecords == maxRecords
    {
      records := [];
      this.maxRecords := maxRecords;
    }

    /** Push at the back, then pop at the front until the cap is met. */
    method Record(r: UsageRecord)
      modifies this`records
      ensures records == Latest(old(records) + [r], maxRecords)
    {
      records := records + [r];
      ghost var all := records;
      ghost var popped := 0;
      while |records| > maxRecords
        invariant popped <= |all| && records == all[popped..]
        invariant popped > 0 ==> |all| - popped >= maxRecords
      {
        DropFront(all, popped);
        records := records[1..];
        popped := popped + 1;
      }
    }

    method GetKeyStats(id: string) returns (stats: KeyStats)
      ensures StatsOf(stats, RecordsOf(records, id))
    {
      var requests, successful, failed, prompt, completion, latency := 0, 0, 0, 0, 0, 0;
      var cost := 0.0;
      var last: Option<int> := None;
      var models: set<string> := {};
      ghost var mine: seq<UsageRecord> := [];
      var i := 0;
      while i < |records|
        invariant 0 <= i <= |records| && mine == RecordsOf(records[..i], id)
        invariant requests == |mine|
        invariant successful == SumBy(mine, SuccessCount) && failed == SumBy(mine, FailureCount)
        invariant prompt == SumBy(mine, PromptTokens) && completion == SumBy(mine, CompletionTokens)
        invariant latency == SumBy(mine, Latency) && cost == Total(mine).costUsd
        invariant LatestOf(mine, last) && models == Groups(mine, ModelOf)
      {
        var r := records[i];
        assert records[..i + 1][..i] == records[..i];
        if r.apiKeyId == Some(id) {
          GrowKeyStats(mine, r, last);
          requests := requests + 1;
          if r.success {
            successful := successful + 1;
          } else {
            failed := failed + 1;
          }
          prompt := prompt + r.promptTokens;
          completion := completion + r.completionTokens;
          cost := cost + r.costUsd;
          latency := latency + r.latencyMs;
          models := models + {r.model};
          if last.None? || r.createdAt > last.value {
            last := Some(r.createdAt);
          }
          mine := mine + [r];
        }
        i := i + 1;
      }
      assert records[..i] == records;
      stats := KeyStats(requests, successful, failed, prompt, completion, prompt + completion, cost,
                        if requests > 0 then latency as real / requests as real else 0.0, last, models);
    }

    method GetDashboard(keyCount: nat) returns (d: Dashboard)
      ensures d.totalKeys == keyCount && d.totals == Total(records)
      ensures d.avgLatencyMs == Average(SumBy(records, Latency), |records|)
      ensures d.errorRate == Average(|Failures(records)|, |records|)
      ensures TopOf(d.topModels, StatsBy(records, ModelOf), TOP_ROWS)
      ensures TopOf(d.topProviders, StatsBy(records, ProviderOf), TOP_ROWS)
      ensures NewestFirst(d.recentErrors, Failures(records), RECENT_ERRORS)
      ensures ListsGroups(d.topModels, ModelsIn(records)) && ListsGroups(d.topProviders, ProvidersIn(records))
      ensures |d.recentErrors| <= 10
    {
      var totals, latency, errors, modelStats, providerStats := Accumulate(records);
      SummaryUnique(modelStats, records, ModelOf);
      SummaryUnique(providerStats, records, ProviderOf);
      var topModels := TopN(modelStats, TOP_ROWS);
      var topProviders := TopN(providerStats, TOP_ROWS);
      TopRowsListed(records, topModels, topProviders);
      var recentErrors := RecentFailures(records, RECENT_ERRORS);
      d := Dashboard(keyCount, totals,
                     if totals.requests > 0 then latency as real / totals.requests as real else 0.0,
                     if totals.requests > 0 then errors as real / totals.requests as real else 0.0,
                     topModels, topProviders, recentErrors);
    }
  }

  lemma GrowTotals(rs: seq<UsageRecord>, r: UsageRecord)
    ensures Total(rs + [r]) == Usage(Total(rs).requests + 1, Total(rs).tokens + r.totalTokens, Total(rs).costUsd + r.costUsd)
    ensures SumBy(rs + [r], Latency) == SumBy(rs, Latency) + r.latencyMs
    ensures Failures(rs + [r]) == Failures(rs) + (if r.success then [] else [r])
    ensures rs == [] ==> Total(rs) == Usage(0, 0, 0.0) && SumBy(rs, Latency) == 0 && Failures(rs) == []
  {
    TotalGrows(rs, r);
    SumByGrows(rs, r, Latency);
    assert (rs + [r])[..|rs|] == rs;
  }

  lemma GrowKeyStats(mine: seq<UsageRecord>, r: UsageRecord, last: Option<int>)
    requires LatestOf(mine, last)
    ensures Total(mine + [r]).costUsd == Total(mine).costUsd + r.costUsd
    ensures SumBy(mine + [r], SuccessCount) == SumBy(mine, SuccessCount) + (if r.success then 1 else 0)
    ensures SumBy(mine + [r], FailureCount) == SumBy(mine, FailureCount) + (if r.success then 0 else 1)
    ensures SumBy(mine + [r], PromptTokens) == SumBy(mine, PromptTokens) + r.promptTokens
    ensures SumBy(mine + [r], CompletionTokens) == SumBy(mine, CompletionTokens) + r.completionTokens
    ensures SumBy(mine + [r], Latency) == SumBy(mine, Latency) + r.latencyMs
    ensures Groups(mine + [r], ModelOf) == Groups(mine, ModelOf) + {r.model}
    ensures LatestOf(mine + [r], if last.None? || r.createdAt > last.value then Some(r.createdAt) else last)
  {
    TotalGrows(mine, r);
    SumByGrows(mine, r, SuccessCount);
    SumByGrows(mine, r, FailureCount);
    SumByGrows(mine, r, PromptTokens);
    SumByGrows(mine, r, CompletionTokens);
    SumByGrows(mine, r, Latency);
    GroupsGrow(mine, r, ModelOf);
    LatestGrows(mine, r, last);
  }

  lemma KeyRecordsGrow(rs: seq<UsageRecord>, r: UsageRecord, id: string)
    ensures RecordsOf(rs + [r], id) == RecordsOf(rs, id) + (if r.apiKeyId == Some(id) then [r] else [])
  {
    assert (rs + [r])[..|rs|] == rs;
  }

  /** A key without records has empty statistics. */
  lemma NothingForKey(id: string, s: KeyStats)
    requires StatsOf(s, RecordsOf([], id))
    ensures s == KeyStats(0, 0, 0, 0, 0, 0, 0.0, 0.0, None, {})
  {
    assert Groups([], ModelOf) == {};
  }

  /** What one more record does to the statistics of a key: nothing, unless it is the key's. */
  lemma OneMoreForKey(rs: seq<UsageRecord>, r: UsageRecord, id: string, before: KeyStats, after: KeyStats)
    requires StatsOf(before, RecordsOf(rs, id)) && StatsOf(after, RecordsOf(rs + [r], id))
    ensures r.apiKeyId != Some(id) ==> after == before
    ensures r.apiKeyId == Some(id) ==>
              && after.requests == before.requests + 1
              && after.successful == before.successful + (if r.success then 1 else 0)
              && after.failed == before.failed + (if r.success then 0 else 1)
              && after.promptTokens == before.promptTokens + r.promptTokens
              && after.completionTokens == before.completionTokens + r.completionTokens
              && after.totalTokens == before.totalTokens + r.promptTokens + r.completionTokens
              && after.costUsd == before.costUsd + r.costUsd
              && after.modelsUsed == before.modelsUsed + {r.model}
              && after.lastRequestAt == (if before.lastRequestAt.None? || r.createdAt > before.lastRequestAt.value
                                         then Some(r.createdAt) else before.lastRequestAt)
  {
    var mine := RecordsOf(rs, id);
    KeyRecordsGrow(rs, r, id);
    if r.apiKeyId == Some(id) {
      OneMoreOfMine(mine, r, before, after);
    } else {
      assert mine + [] == mine;
      SameStats(mine, before, after);
    }
  }

  lemma SameStats(mine: seq<UsageRecord>, a: KeyStats, b: KeyStats)
    requires StatsOf(a, mine) && StatsOf(b, mine)
    ensures a == b
  {
    LatestUnique(mine, a.lastRequestAt, b.lastRequestAt);
  }

  lemma OneMoreOfMine(mine: seq<UsageRecord>, r: UsageRecord, before: KeyStats, after: KeyStats)
    requires StatsOf(before, mine) && StatsOf(after, mine + [r])
    ensures after.requests == before.requests + 1
    ensures after.successful == before.successful + (if r.success then 1 else 0)
    ensures after.failed == before.failed + (if r.success then 0 else 1)
    ensures after.promptTokens == before.promptTokens + r.promptTokens
    ensures after.completionTokens == before.completionTokens + r.completionTokens
    ensures after.totalTokens == before.totalTokens + r.promptTokens + r.completionTokens
    ensures after.costUsd == before.costUsd + r.costUsd
    ensures after.modelsUsed == before.modelsUsed + {r.model}
    ensures after.lastRequestAt == if before.lastRequestAt.None? || r.createdAt > before.lastRequestAt.value
                                   then Some(r.createdAt) else before.lastRequestAt
  {
    var all := mine + [r];
    GrowKeyStats(mine, r, before.lastRequestAt);
    LatestUnique(all, after.lastRequestAt,
                 if before.lastRequestAt.None? || r.createdAt > before.lastRequestAt.value
                 then Some(r.createdAt) else before.lastRequestAt);
  }

  /** The average is the sum of the latencies over the number of requests: each counts in full. */
  lemma AverageGrows(mine: seq<UsageRecord>, r: UsageRecord, before: KeyStats, after: KeyStats)
    requires StatsOf(before, mine) && StatsOf(after, mine + [r])
    ensures after.avgLatencyMs * (before.requests + 1) as real
         == before.avgLatencyMs * before.requests as real + r.latencyMs as real
  {
    SumByGrows(mine, r, Latency);
    OneMoreInAverage(SumBy(mine, Latency), |mine|, r.latencyMs);
  }

  lemma LatestUnique(rs: seq<UsageRecord>, a: Option<int>, b: Option<int>)
    requires LatestOf(rs, a) && LatestOf(rs, b)
    ensures a == b
  {
  }

  lemma OneMoreInAverage(total: nat, count: nat, more: nat)
    requires count == 0 ==> total == 0
    ensures Average(total + more, count + 1) * (count + 1) as real == Average(total, count) * count as real + more as real
  {
    AverageTimesCount(total, count);
    AverageTimesCount(total + more, count + 1);
  }

  lemma AverageTimesCount(total: nat, count: nat)
    ensures count > 0 ==> Average(total, count) * count as real == total as real
    ensures count == 0 ==> Average(total, count) == 0.0
  {
  }

  lemma LatestGrows(mine: seq<UsageRecord>, r: UsageRecord, last: Option<int>)
    requires LatestOf(mine, last)
    ensures LatestOf(mine + [r], if last.None? || r.createdAt > last.value then Some(r.createdAt) else last)
  {
    var all := mine + [r];
    assert all[|mine|] == r;
    if last.Some? {
      var i :| 0 <= i < |mine| && mine[i].createdAt == last.value;
      assert all[i].createdAt == last.value;
    }
  }

  // ---------------------------------------------------------------------------
  // Runs
  // ---------------------------------------------------------------------------

  /** What a store of the given cap holds after recording `all` in order. */
  function Recorded(all: seq<UsageRecord>, max: nat): seq<UsageRecord>
    decreases |all|
  {
    if all == [] then [] else Latest(Recorded(all[..|all| - 1], max) + [all[|all| - 1]], max)
  }

  /** After any run the store holds exactly the last `max` records, in order. */
  lemma {:induction false} HoldsTheLatest(all: seq<UsageRecord>, max: nat)
    ensures Recorded(all, max) == Latest(all, max)
    decreases |all|
  {
    if all != [] {
      var l := |all| - 1;
      HoldsTheLatest(all[..l], max);
      LatestOfLatest(all[..l], all[l], max);
      assert all == all[..l] + [all[l]];
    }
  }

  /**
   Told record by record: of `n` records recorded the store holds `max` at most, and what
   it holds at place `i` is that many from the end.
   */
  lemma RingHolds(all: seq<UsageRecord>, max: nat, i: nat)
    ensures |Recorded(all, max)| == if |all| > max then max else |all|
    ensures i < |Recorded(all, max)| ==>
              Recorded(all, max)[i] == all[|all| - |Recorded(all, max)| + i]
  {
    HoldsTheLatest(all, max);
  }

  lemma LatestOfLatest(all: seq<UsageRecord>, r: UsageRecord, max: nat)
    ensures Latest(Latest(all, max) + [r], max) == Latest(all + [r], max)
  {
    var kept := Latest(all, max) + [r];
    var from := |all| - Min(max, |all|);
    assert kept == (all + [r])[from..];
    assert Latest(kept, max) == (all + [r])[from + |kept| - Min(max, |kept|)..];
  }

  /** The gap in a store of the given cap once the first `k` records of `all` are in. */
  function GapAt(all: seq<UsageRecord>, max: nat, id: string, k: nat): int
    requires k <= |all|
  {
    TokenGap(Recorded(all[..k], max), id)
  }

  /** What the store then holds: some latest records, the last of them in any case. */
  lemma RingAfter(all: seq<UsageRecord>, max: nat, k: nat) returns (from: nat)
    requires max > 0 && k < |all|
    ensures from <= k && Recorded(all[..k + 1], max) == all[from..k] + [all[k]]
  {
    HoldsTheLatest(all[..k + 1], max);
    from := k + 1 - Min(max, k + 1);
    assert all[..k + 1][from..] == all[from..k] + [all[k]];
  }

  lemma GapOfLast(all: seq<UsageRecord>, max: nat, id: string, k: nat)
    requires max > 0 && k < |all| && ConsistentFor(all[..k], id)
    ensures GapAt(all, max, id, k + 1) == Excess(all[k], id)
  {
    var from := RingAfter(all, max, k);
    forall i | 0 <= i < |all[from..k]| && IsOf(all[from..k][i], id) ensures Consistent(all[from..k][i]) {
      assert all[..k][from + i] == all[from..k][i];
    }
    NoGap(all[from..k], id);
    GapGrows(all[from..k], all[k], id);
  }

  lemma {:induction false} NoGapsMeansConsistent(all: seq<UsageRecord>, max: nat, id: string, k: nat)
    requires max > 0 && k <= |all| && forall j :: 0 <= j <= |all| ==> GapAt(all, max, id, j) == 0
    ensures ConsistentFor(all[..k], id)
    decreases k
  {
    if k > 0 {
      NoGapsMeansConsistent(all, max, id, k - 1);
      GapOfLast(all, max, id, k - 1);
      assert GapAt(all, max, id, k) == 0;
      assert all[..k] == all[..k - 1] + [all[k - 1]];
    }
  }

  /**
   A key's statistics count prompt and completion tokens, the dashboard the recorded sum of
   the two.  In a store that holds any records the two numbers agree after each record,
   whatever was dropped by then, exactly when every record of the key is consistent.
   */
  lemma KeyTokensAgreeIff(all: seq<UsageRecord>, max: nat, id: string)
    requires max > 0
    ensures (forall k :: 0 <= k <= |all| ==> GapAt(all, max, id, k) == 0) <==> ConsistentFor(all, id)
  {
    if ConsistentFor(all, id) {
      forall k | 0 <= k <= |all| ensures GapAt(all, max, id, k) == 0 {
        if k > 0 {
          GapOfLast(all, max, id, k - 1);
        }
      }
    }
    if forall k :: 0 <= k <= |all| ==> GapAt(all, max, id, k) == 0 {
      NoGapsMeansConsistent(all, max, id, |all|);
      assert all[..|all|] == all;
    }
  }
}
