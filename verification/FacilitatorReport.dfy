/** Merging, balances and the report of api_server/facilitator_metrics.py.

    Money and gas costs are reals.  Records are values: where the code sets the reuse fields
    of a merged record in place, a new record is built. */
module FacilitatorReport {
  import opened Wrappers
  import opened FacilitatorEvents
  import opened FacilitatorReuse
  import opened FacilitatorBuckets
  import Sorting
  import Text

  /** The chain's view of one transaction. */
  datatype Rpc = Rpc(txHash: string, sourceB: StateMethod, gasUsed: Option<int>, gasPriceWei: Option<int>,
                     gasCostWei: Option<int>, gasCostNative: Option<real>, gasCostUsd: Option<real>,
                     priceSource: string, blockNumber: Option<int>, fromHash: Option<string>)

  datatype Merged = Merged(
    txHash: Option<string>, walletHash: Option<string>, endpoint: Option<string>, submittedAt: Option<int>,
    role: Option<string>, chainId: int, sourceA: Option<StateMethod>, sourceB: Option<StateMethod>,
    merge: StateMethod, gasUsed: Option<int>, gasPriceWei: Option<int>, gasCostWei: Option<int>,
    gasCostNative: Option<real>, gasCostUsd: Option<real>, priceSource: string, blockNumber: Option<int>,
    gasLimit: Option<int>, incomeUsd: Option<real>,
    reuse: Option<Label>, count1h: Option<int>, count24h: Option<int>)

  const DEFAULT_CHAIN_ID := 8453
  const WEI_PER_ETH := 1000000000000000000

  predicate Given(s: Option<string>) { s.Some? && s.value != "" }

  // ----- merge -----

  function MergeState(app: Option<TxEvent>, rpc: Option<Rpc>): StateMethod {
    var hasGas := rpc.Some? && rpc.value.gasUsed.Some?;
    if app.Some? && hasGas then
      if app.value.claimedGas.Some? && app.value.claimedGas != rpc.value.gasUsed then StateMethod("conflict", "chain_wins")
      else StateMethod("complete", "a_plus_b")
    else if app.Some? then StateMethod("app_only", "await_rpc")
    else if rpc.Some? then StateMethod("chain_only", "rpc_only")
    else StateMethod("unknown", "empty")
  }

  /** `merge_event`: the chain always wins for the gas fields. */
  function MergeEvent(app: Option<TxEvent>, rpc: Option<Rpc>): Merged {
    var appHash := if app.Some? && Given(app.value.txHash) then NormalizeTxHash(app.value.txHash) else None;
    var txHash :=
      if rpc.Some? && rpc.value.txHash != "" && NormalizeTxHash(Some(rpc.value.txHash)).Some?
      then NormalizeTxHash(Some(rpc.value.txHash)) else appHash;
    var appWallet := if app.Some? then app.value.walletHash else None;
    var derived := !Given(appWallet) && rpc.Some? && Given(rpc.value.fromHash);
    var sourceA := if app.Some? then Some(app.value.sourceA) else None;
    Merged(
      txHash,
      if derived then rpc.value.fromHash else appWallet,
      if app.Some? then Some(app.value.endpoint) else None,
      if app.Some? then Some(app.value.timestamp) else None,
      if app.Some? then Some(app.value.role) else None,
      if app.Some? then app.value.chainId else DEFAULT_CHAIN_ID,
      if derived && sourceA.None? then Some(StateMethod("derived", "derived_from_rpc")) else sourceA,
      if rpc.Some? then Some(rpc.value.sourceB) else None,
      MergeState(app, rpc),
      if rpc.Some? then rpc.value.gasUsed else None,
      if rpc.Some? then rpc.value.gasPriceWei else None,
      if rpc.Some? then rpc.value.gasCostWei else None,
      if rpc.Some? then rpc.value.gasCostNative else None,
      if rpc.Some? then rpc.value.gasCostUsd else None,
      if rpc.Some? then rpc.value.priceSource else "unavailable",
      if rpc.Some? then rpc.value.blockNumber else None,
      if app.Some? then app.value.gasLimit else None,
      if app.Some? then app.value.incomeUsd else None,
      None, None, None)
  }

  type Enrichments = map<string, Rpc>

  function Enrichment(e: TxEvent, rpcs: Enrichments): Option<Rpc> {
    var th := NormalizeTxHash(e.txHash);
    if th.Some? && th.value in rpcs then Some(rpcs[th.value]) else None
  }

  function MergeOne(e: TxEvent, rpcs: Enrichments): Merged {
    MergeEvent(Some(e), Enrichment(e, rpcs))
  }

  /** `merge_all` without fetching */
  function MergeAll(events: seq<TxEvent>, rpcs: Enrichments): (r: seq<Merged>)
    ensures |r| == |Dedupe(events)|
    ensures forall i :: 0 <= i < |r| ==> r[i] == MergeOne(Dedupe(events)[i], rpcs)
  {
    seq(|Dedupe(events)|, i requires 0 <= i < |Dedupe(events)| => MergeOne(Dedupe(events)[i], rpcs))
  }

  // ----- reuse counters on the transactions -----

  function Attached(m: Merged, rows: seq<ReuseRow>): Merged {
    if Given(m.endpoint) && Given(m.walletHash) && RowOf(rows, m.endpoint.value, m.walletHash.value).Some? then
      var r := RowOf(rows, m.endpoint.value, m.walletHash.value).value;
      m.(count1h := Some(r.count1h), count24h := Some(r.count24h), reuse := Some(r.label_))
    else if !Given(m.walletHash) then m.(reuse := Some(NoWallet), count1h := Some(0), count24h := Some(0))
    else m.(reuse := Some(FirstSeen), count1h := Some(1), count24h := Some(1))
  }

  /** `attach_reuse_to_merged` */
  function Attach(ms: seq<Merged>, rows: seq<ReuseRow>): (r: seq<Merged>)
    ensures |r| == |ms| && forall i :: 0 <= i < |ms| ==> r[i] == Attached(ms[i], rows)
  {
    seq(|ms|, i requires 0 <= i < |ms| => Attached(ms[i], rows))
  }

  // ----- balance -----

  datatype Period = LastHour | LastDay | All

  datatype Balance = Balance(start: int, end: int, gasNative: real, gasUsd: Option<real>, income: real,
                             netUsd: Option<real>, net: StateMethod, txCount: nat)

  function Times(ms: seq<Merged>): seq<int> {
    if ms == [] then []
    else
      var m := ms[|ms| - 1];
      Times(ms[..|ms| - 1]) + if m.submittedAt.Some? then [m.submittedAt.value] else []
  }

  function Earliest(ts: seq<int>): int
    requires ts != []
  {
    if |ts| == 1 then ts[0]
    else var m, t := Earliest(ts[..|ts| - 1]), ts[|ts| - 1]; if t < m then t else m
  }

  function LatestOf(ts: seq<int>): int
    requires ts != []
  {
    if |ts| == 1 then ts[0]
    else var m, t := LatestOf(ts[..|ts| - 1]), ts[|ts| - 1]; if t > m then t else m
  }

  function Window(ms: seq<Merged>, p: Period, now: int): (int, int) {
    match p
    case LastHour => (now - HOUR, now)
    case LastDay => (now - DAY, now)
    case All => if Times(ms) == [] then (now, now) else (Earliest(Times(ms)), LatestOf(Times(ms)))
  }

  predicate InWindow(m: Merged, w: (int, int)) {
    m.submittedAt.Some? ==> w.0 <= m.submittedAt.value <= w.1
  }

  function Inside(ms: seq<Merged>, w: (int, int)): seq<Merged> {
    if ms == [] then []
    else Inside(ms[..|ms| - 1], w) + (if InWindow(ms[|ms| - 1], w) then [ms[|ms| - 1]] else [])
  }

  function OrZero(x: Option<real>): real { if x.Some? then x.value else 0.0 }

  function GasSum(ms: seq<Merged>): real {
    if ms == [] then 0.0 else GasSum(ms[..|ms| - 1]) + OrZero(ms[|ms| - 1].gasCostNative)
  }

  function IncomeSum(ms: seq<Merged>): real {
    if ms == [] then 0.0 else IncomeSum(ms[..|ms| - 1]) + OrZero(ms[|ms| - 1].incomeUsd)
  }

  /** None if no transaction has a price. */
  function UsdSum(ms: seq<Merged>): Option<real> {
    if ms == [] then None
    else
      var rest, usd := UsdSum(ms[..|ms| - 1]), ms[|ms| - 1].gasCostUsd;
      if usd.None? then rest else Some(OrZero(rest) + usd.value)
  }

  function NetState(income: real, gasUsd: Option<real>): StateMethod {
    if gasUsd.Some? then
      if income == 0.0 && gasUsd.value > 0.0 then StateMethod("deficit", "gas_only_no_income")
      else if income - gasUsd.value < 0.0 then StateMethod("deficit", "income_minus_gas")
      else if income - gasUsd.value > 0.0 then StateMethod("surplus", "income_minus_gas")
      else StateMethod("unknown", "income_minus_gas")
    else if income == 0.0 then StateMethod("unknown", "gas_only_no_income")
    else StateMethod("unknown", "income_minus_gas")
  }

  /** `compute_balance` */
  function ComputeBalance(ms: seq<Merged>, p: Period, now: int): Balance {
    var w := Window(ms, p, now);
    var rows := Inside(ms, w);
    var income, usd := IncomeSum(rows), UsdSum(rows);
    Balance(w.0, w.1, GasSum(rows), usd, income, if usd.Some? then Some(income - usd.value) else None,
            NetState(income, usd), |rows|)
  }

  lemma {:induction false} InsideGrows(ms: seq<Merged>, w: (int, int), w': (int, int))
    requires w'.0 <= w.0 && w.1 <= w'.1
    ensures |Inside(ms, w)| <= |Inside(ms, w')| <= |ms|
  {
    if ms != [] {
      InsideGrows(ms[..|ms| - 1], w, w');
    }
  }

  lemma {:induction false} AllTimesInside(ts: seq<int>, t: int)
    requires t in ts
    ensures Earliest(ts) <= t <= LatestOf(ts)
  {
    if |ts| > 1 && t != ts[|ts| - 1] {
      assert t in ts[..|ts| - 1];
      AllTimesInside(ts[..|ts| - 1], t);
    }
  }

  lemma {:induction false} TimesCover(ms: seq<Merged>, i: nat)
    requires i < |ms| && ms[i].submittedAt.Some?
    ensures ms[i].submittedAt.value in Times(ms)
  {
    if i < |ms| - 1 {
      TimesCover(ms[..|ms| - 1], i);
    }
  }

  lemma {:induction false} InsideAll(ms: seq<Merged>, w: (int, int))
    requires forall i :: 0 <= i < |ms| ==> InWindow(ms[i], w)
    ensures Inside(ms, w) == ms
  {
    if ms != [] {
      InsideAll(ms[..|ms| - 1], w);
      assert ms == ms[..|ms| - 1] + [ms[|ms| - 1]];
    }
  }

  /** The "all" period leaves nothing out. */
  lemma AllPeriodIsComplete(ms: seq<Merged>, now: int)
    ensures Inside(ms, Window(ms, All, now)) == ms
  {
    forall i | 0 <= i < |ms| ensures InWindow(ms[i], Window(ms, All, now)) {
      if ms[i].submittedAt.Some? {
        TimesCover(ms, i);
        AllTimesInside(Times(ms), ms[i].submittedAt.value);
      }
    }
    InsideAll(ms, Window(ms, All, now));
  }

  /** Balances nest: the last hour within the last day within everything; and the balance over
      everything counts every transaction and all gas and income. */
  lemma BalancesNest(ms: seq<Merged>, now: int)
    ensures ComputeBalance(ms, LastHour, now).txCount <= ComputeBalance(ms, LastDay, now).txCount
    ensures ComputeBalance(ms, LastDay, now).txCount <= ComputeBalance(ms, All, now).txCount
    ensures ComputeBalance(ms, All, now).txCount == |ms|
    ensures ComputeBalance(ms, All, now).gasNative == GasSum(ms)
    ensures ComputeBalance(ms, All, now).income == IncomeSum(ms)
  {
    AllPeriodIsComplete(ms, now);
    InsideGrows(ms, (now - HOUR, now), (now - DAY, now));
  }

  // ----- grouping -----

  function NameOf(s: Option<string>): string { if Given(s) then s.value else "_unknown" }

  datatype Grouping = OnEndpoint | OnWallet

  function NameIn(m: Merged, axis: Grouping): string {
    NameOf(if axis.OnEndpoint? then m.endpoint else m.walletHash)
  }

  /** The entry a transaction writes: its wallet under an endpoint, its endpoint under a wallet. */
  function KeyIn(m: Merged, axis: Grouping): Option<string> {
    var s := if axis.OnEndpoint? then m.walletHash else m.endpoint;
    if Given(s) then s else None
  }

  function ItemOf(m: Merged, axis: Grouping): Item {
    Item(NameIn(m, axis), OrZero(m.gasCostNative), KeyIn(m, axis), Stats(m.count1h, m.count24h, m.reuse))
  }

  function Items(ms: seq<Merged>, axis: Grouping): (xs: seq<Item>)
    ensures |xs| == |ms| && forall i :: 0 <= i < |ms| ==> xs[i] == ItemOf(ms[i], axis)
  {
    seq(|ms|, i requires 0 <= i < |ms| => ItemOf(ms[i], axis))
  }

  /** `by_endpoint` before the overlay, and `by_wallet`.  Records with reuse counters always carry
      a label, so an entry is always written whole. */
  function Grouped(ms: seq<Merged>, axis: Grouping): seq<Bucket> {
    Bucketed(Items(ms, axis))
  }

  lemma {:induction false} ItemsGas(ms: seq<Merged>, axis: Grouping)
    ensures GasOf(Items(ms, axis)) == GasSum(ms)
  {
    if ms != [] {
      ItemsGas(ms[..|ms| - 1], axis);
      assert Items(ms, axis)[..|ms| - 1] == Items(ms[..|ms| - 1], axis);
    }
  }

  /** Grouping conserves: the buckets of either grouping add up to the transaction list, and
      no name has two buckets. */
  lemma GroupingConserves(ms: seq<Merged>, axis: Grouping)
    ensures TxTotal(Grouped(ms, axis)) == |ms| && GasTotal(Grouped(ms, axis)) == GasSum(ms)
    ensures Sorting.Distinct(Names(Grouped(ms, axis)))
  {
    BucketsConserve(Items(ms, axis));
    ItemsGas(ms, axis);
  }

  /** In either grouping each bucket holds the count and the gas of its own transactions. */
  lemma BucketsCountTheirOwn(ms: seq<Merged>, axis: Grouping, name: string)
    ensures BucketOf(Grouped(ms, axis), name).txCount == CountNamed(Items(ms, axis), name)
    ensures BucketOf(Grouped(ms, axis), name).gas == GasNamed(Items(ms, axis), name)
  {
    BucketHoldsItsOwn(Items(ms, axis), name, "");
  }

  // ----- the report -----

  predicate Awaiting(m: Merged) {
    m.merge.state == "app_only" || (m.sourceB.Some? && m.sourceB.value.state in {"pending", "not_found"})
  }

  function Pending(ms: seq<Merged>): nat {
    if ms == [] then 0 else Pending(ms[..|ms| - 1]) + (if Awaiting(ms[|ms| - 1]) then 1 else 0)
  }

  function Enriched(ms: seq<Merged>): nat {
    if ms == [] then 0 else Enriched(ms[..|ms| - 1]) + (if ms[|ms| - 1].gasUsed.Some? then 1 else 0)
  }

  datatype Report = Report(
    analysisNow: int, transactions: seq<Merged>, byEndpoint: seq<Bucket>, byWallet: seq<Bucket>, reuse: seq<ReuseRow>,
    lastHour: Balance, lastDay: Balance, all: Balance,
    sourceACount: nat, enriched: nat, pending: nat, uniqueHashes: nat)

  function AnalysisNow(es: seq<TxEvent>, now: int, synthetic: bool): int {
    if es != [] && synthetic then MaxTime(es) else now
  }

  function UniqueHashes(es: seq<TxEvent>): nat {
    |set e | e in es && Given(e.txHash) :: NormalizeTxHash(e.txHash)|
  }

  /** `build_report`, as a function of its input */
  function ReportOf(events: seq<TxEvent>, rpcs: Enrichments, now: int, synthetic: bool): Report {
    var es := Dedupe(events);
    var at := AnalysisNow(es, now, synthetic);
    var rows := ComputeReuse(es, at);
    var ms := Attach(MergeAll(es, rpcs), rows);
    Report(at, ms, OverlayAll(Grouped(ms, OnEndpoint), rows), Grouped(ms, OnWallet), rows,
           ComputeBalance(ms, LastHour, at), ComputeBalance(ms, LastDay, at), ComputeBalance(ms, All, at),
           |es|, Enriched(ms), Pending(ms), UniqueHashes(es))
  }

  /** Reprocessing never inflates: a report is unchanged by repeating its input, or by feeding
      in what was already deduplicated. */
  lemma ReportIgnoresRepetition(a: seq<TxEvent>, b: seq<TxEvent>, rpcs: Enrichments, now: int, synthetic: bool)
    ensures ReportOf(a + a, rpcs, now, synthetic) == ReportOf(a, rpcs, now, synthetic)
    ensures ReportOf(Dedupe(a) + b, rpcs, now, synthetic) == ReportOf(a + b, rpcs, now, synthetic)
  {
    DedupeRepeat(a);
    DedupeAbsorbs(a, b);
    hide Dedupe, ComputeReuse, MergeAll, Attach, ComputeBalance;
  }

  /** Conservation: both groupings and the balance over everything agree with the transaction
      list on the number of transactions and on gas, and the balances nest. */
  lemma ReportConserves(events: seq<TxEvent>, rpcs: Enrichments, now: int, synthetic: bool)
    ensures var r := ReportOf(events, rpcs, now, synthetic);
      && |r.transactions| == r.sourceACount == |Dedupe(events)|
      && TxTotal(r.byEndpoint) == TxTotal(r.byWallet) == r.all.txCount == |r.transactions|
      && GasTotal(r.byEndpoint) == GasTotal(r.byWallet) == r.all.gasNative == GasSum(r.transactions)
      && r.lastHour.txCount <= r.lastDay.txCount <= r.all.txCount
      && Sorting.Distinct(Names(r.byEndpoint)) && Sorting.Distinct(Names(r.byWallet))
  {
    var r := ReportOf(events, rpcs, now, synthetic);
    DedupeTwice(events);
    GroupingConserves(r.transactions, OnEndpoint);
    GroupingConserves(r.transactions, OnWallet);
    OverlayShowsRows(Grouped(r.transactions, OnEndpoint), r.reuse, "", "");
    BalancesNest(r.transactions, r.analysisNow);
    hide Dedupe, ComputeReuse, ComputeBalance, OverlayAll, Grouped, Sorting.Distinct;
  }

  lemma {:induction false} RowOfFinds(rows: seq<ReuseRow>, i: nat)
    requires i < |rows|
    requires forall j :: i < j < |rows| ==> (rows[j].endpoint, rows[j].walletHash) != (rows[i].endpoint, rows[i].walletHash)
    ensures RowOf(rows, rows[i].endpoint, rows[i].walletHash) == Some(rows[i])
  {
    if i < |rows| - 1 {
      RowOfFinds(rows[..|rows| - 1], i);
    }
  }

  /** The row of an endpoint and wallet is computed from the events of that group. */
  lemma RowOfGroup(events: seq<TxEvent>, now: int, k: GroupKey)
    requires Group(Dedupe(events), k) != []
    ensures RowOf(ComputeReuse(events, now), k.0, k.1) == Some(RowFor(k, Group(Dedupe(events), k), now))
  {
    var es, rows := Dedupe(events), ComputeReuse(events, now);
    SortedKeysCover(es);
    assert k in SortedKeys(es);
    var j :| 0 <= j < |SortedKeys(es)| && SortedKeys(es)[j] == k;
    hide Dedupe, SortedKeys, Group, RowFor;
    assert rows[j] == RowFor(k, Group(es, k), now);
    RowNames(k, Group(es, k), now);
    forall i | j < i < |rows| ensures (rows[i].endpoint, rows[i].walletHash) != k {
      assert SortedKeys(es)[i] in SortedKeys(es);
      RowNames(SortedKeys(es)[i], Group(es, SortedKeys(es)[i]), now);
    }
    RowOfFinds(rows, j);
  }

  lemma RowNames(k: GroupKey, group: seq<TxEvent>, now: int)
    requires group != []
    ensures (RowFor(k, group, now).endpoint, RowFor(k, group, now).walletHash) == k
  {
  }

  predicate Shows(m: Merged, r: ReuseRow) {
    m.count1h == Some(r.count1h) && m.count24h == Some(r.count24h) && m.reuse == Some(r.label_)
  }

  /** Exactly one event of the group lies in the last day of its window, and it lies in the last hour. */
  predicate OnceLately(group: seq<TxEvent>, now: int)
    requires group != []
  {
    && |Since(group, Anchor(group, now) - DAY)| == 1
    && |Since(group, Anchor(group, now) - HOUR)| == 1
  }

  /** What a transaction with a wallet shows, against the row of its endpoint and wallet. */
  lemma AttachedShowsIff(m: Merged, rows: seq<ReuseRow>, k: GroupKey, group: seq<TxEvent>, now: int)
    requires group != [] && m.endpoint == Some(k.0) && m.walletHash == Some(k.1) && k.1 != ""
    requires RowOf(rows, k.0, k.1) == Some(RowFor(k, group, now))
    ensures Shows(Attached(m, rows), RowFor(k, group, now)) <==> k.0 != "" || OnceLately(group, now)
  {
    hide RowOf, Since, Anchor, ByTime;
  }

  // What a transaction without a row of its own says.
  predicate SaysOnce(m: Merged) { m.count1h == Some(1) && m.count24h == Some(1) && m.reuse == Some(FirstSeen) }

  predicate SaysNoWallet(m: Merged) { m.count1h == Some(0) && m.count24h == Some(0) && m.reuse == Some(NoWallet) }

  lemma AttachedWithoutRow(m: Merged, rows: seq<ReuseRow>)
    ensures !Given(m.walletHash) ==> SaysNoWallet(Attached(m, rows))
    ensures Given(m.walletHash) && m.endpoint.Some? && RowOf(rows, m.endpoint.value, m.walletHash.value).None? ==>
              SaysOnce(Attached(m, rows))
  {
  }

  lemma {:induction false} RowOfMisses(rows: seq<ReuseRow>, endpoint: string, wallet: string)
    requires forall j :: 0 <= j < |rows| ==> (rows[j].endpoint, rows[j].walletHash) != (endpoint, wallet)
    ensures RowOf(rows, endpoint, wallet).None?
  {
    if rows != [] {
      RowOfMisses(rows[..|rows| - 1], endpoint, wallet);
    }
  }

  /** An endpoint and wallet without events have no row. */
  lemma NoRowWithoutGroup(events: seq<TxEvent>, now: int, k: GroupKey)
    requires Group(Dedupe(events), k) == []
    ensures RowOf(ComputeReuse(events, now), k.0, k.1).None?
  {
    var es, rows := Dedupe(events), ComputeReuse(events, now);
    SortedKeysCover(es);
    hide Dedupe, SortedKeys, Group, RowFor;
    forall j | 0 <= j < |rows| ensures (rows[j].endpoint, rows[j].walletHash) != k {
      assert SortedKeys(es)[j] in SortedKeys(es);
      RowNames(SortedKeys(es)[j], Group(es, SortedKeys(es)[j]), now);
    }
    RowOfMisses(rows, k.0, k.1);
  }

  /** The wallet of a transaction: the event's own, or else the sender the chain names. */
  function WalletOf(e: TxEvent, rpcs: Enrichments): Option<string> {
    var rpc := Enrichment(e, rpcs);
    if Given(e.walletHash) then e.walletHash
    else if rpc.Some? && Given(rpc.value.fromHash) then rpc.value.fromHash
    else None
  }

  lemma MergedWallet(e: TxEvent, rpcs: Enrichments)
    ensures var m := MergeOne(e, rpcs);
      && m.endpoint == Some(e.endpoint)
      && (Given(m.walletHash) <==> WalletOf(e, rpcs).Some?)
      && (WalletOf(e, rpcs).Some? ==> m.walletHash == WalletOf(e, rpcs))
  {
    hide MergeState, NormalizeTxHash;
  }

  // What transaction `m` of event `e` shows, given the reuse table and the events it was made from.
  ghost predicate ShowsRightly(m: Merged, e: TxEvent, rpcs: Enrichments, es: seq<TxEvent>, rows: seq<ReuseRow>, now: int) {
    match WalletOf(e, rpcs)
    case None => SaysNoWallet(m)
    case Some(wallet) =>
      var k, g := (e.endpoint, wallet), Group(es, (e.endpoint, wallet));
      if g == [] then RowOf(rows, k.0, k.1).None? && SaysOnce(m)
      else
        && RowOf(rows, k.0, k.1) == Some(RowFor(k, g, now))
        && (Shows(m, RowFor(k, g, now)) <==> e.endpoint != "" || OnceLately(g, now))
  }

  /** Every transaction: without a wallet it says so.  With one, the reuse table has a row for its
      endpoint and wallet exactly when some event names both; without a row it says (1, 1, first
      seen); and it shows its row exactly when the endpoint is named, or when the group has had
      just one event of late. */
  lemma TransactionShowsItsRowIff(events: seq<TxEvent>, rpcs: Enrichments, now: int, synthetic: bool, i: nat)
    requires i < |Dedupe(events)|
    ensures var es, r := Dedupe(events), ReportOf(events, rpcs, now, synthetic);
      && i < |r.transactions|
      && ShowsRightly(r.transactions[i], es[i], rpcs, es, r.reuse, AnalysisNow(es, now, synthetic))
  {
    var es := Dedupe(events);
    var r, e := ReportOf(events, rpcs, now, synthetic), es[i];
    DedupeTwice(events);
    MergedWallet(e, rpcs);
    hide Dedupe, ComputeReuse, ComputeBalance, OverlayAll, Grouped, RowOf, Group, RowFor, Shows, OnceLately, Attached, WalletOf, MergeOne;
    AttachedWithoutRow(MergeOne(e, rpcs), r.reuse);
    if WalletOf(e, rpcs).Some? {
      var k := (e.endpoint, WalletOf(e, rpcs).value);
      if Group(es, k) == [] {
        NoRowWithoutGroup(es, r.analysisNow, k);
      } else {
        RowOfGroup(es, r.analysisNow, k);
        AttachedShowsIff(MergeOne(e, rpcs), r.reuse, k, Group(es, k), r.analysisNow);
      }
    }
  }

  /** A call without a wallet, whose sender the chain names: the endpoint is named, the table is
      empty, and the transaction says (1, 1, first seen). */
  lemma DerivedWalletExample(rpc: Rpc)
    requires rpc.fromHash == Some("f")
    ensures var e := TxEvent(Some("0xa"), None, "/x", 0, DEFAULT_CHAIN_ID, "facilitator", None, None, None, StateMethod("submitted", "app_log"), None);
      var r := ReportOf([e], map["0xa" := rpc], 0, false);
      && r.reuse == [] && |r.transactions| == 1
      && r.transactions[0].walletHash == Some("f") && SaysOnce(r.transactions[0])
  {
    var e := TxEvent(Some("0xa"), None, "/x", 0, DEFAULT_CHAIN_ID, "facilitator", None, None, None, StateMethod("submitted", "app_log"), None);
    var es, rpcs := [e], map["0xa" := rpc];
    PlainHash();
    assert KeysOf(es) == [ByHash("0xa")];
    DedupeDistinct(es);
    assert es[..0] == [];
    assert GroupKeys(es) == [];
    assert SortedKeys(es) == [];
    assert Enrichment(e, rpcs) == Some(rpc);
    assert WalletOf(e, rpcs) == Some("f");
    MergedWallet(e, rpcs);
    hide Dedupe, ComputeBalance, OverlayAll, Grouped, NormalizeTxHash, MergeOne, WalletOf, Enrichment;
    assert Group(es, ("/x", "f")) == [];
    TransactionShowsItsRowIff(es, rpcs, 0, false, 0);
  }

  lemma PlainHash()
    ensures NormalizeTxHash(Some("0xa")) == Some("0xa")
  {
    assert Text.Strip("0xa") == "0xa";
    assert Text.Lower("0xa") == "0xa";
  }

  function UnnamedCall(id: string, at: int): TxEvent {
    TxEvent(None, Some("w"), "", at, DEFAULT_CHAIN_ID, "facilitator", Some(id), None, None, StateMethod("submitted", "app_log"), None)
  }

  const TWO_CALLS := [UnnamedCall("a", 0), UnnamedCall("b", 10)]

  lemma TwoCallsAreKept()
    ensures Dedupe(TWO_CALLS) == TWO_CALLS
  {
    assert KeysOf(TWO_CALLS) == [ById("a"), ById("b")];
    hide Dedupe, Key;
    DedupeDistinct(TWO_CALLS);
  }

  lemma TwoCallsAreOneGroup()
    ensures Group(TWO_CALLS, ("", "w")) == TWO_CALLS
    ensures forall cutoff :: cutoff <= 0 ==> Since(TWO_CALLS, cutoff) == TWO_CALLS
  {
    var one := [TWO_CALLS[0]];
    assert TWO_CALLS[..1] == one && one[..0] == [];
    assert Group(one, ("", "w")) == one;
    forall cutoff: int | cutoff <= 0 ensures Since(TWO_CALLS, cutoff) == TWO_CALLS {
      assert Since(one, cutoff) == one;
    }
  }

  /** Two calls of one wallet to an unnamed endpoint within the hour: the row says (2, 2), and
      the first transaction does not show it. */
  lemma UnnamedEndpointExample()
    ensures var r, row := ReportOf(TWO_CALLS, map[], 10, false), RowFor(("", "w"), TWO_CALLS, 10);
      && RowOf(r.reuse, "", "w") == Some(row) && row.count1h == row.count24h == 2
      && |r.transactions| == 2 && !Shows(r.transactions[0], row)
  {
    var e := TWO_CALLS[0];
    TwoCallsAreKept();
    TwoCallsAreOneGroup();
    assert HasWallet(e) && GroupOf(e) == ("", "w") && e.endpoint == "" && |TWO_CALLS| == 2;
    hide TWO_CALLS, Dedupe, ComputeReuse, ComputeBalance, Grouped, Group, Since, ByTime, ReuseLabel, Shows, RowOf;
    assert Anchor(TWO_CALLS, 10) == 10;
    assert AnalysisNow(TWO_CALLS, 10, false) == 10;
    assert !OnceLately(TWO_CALLS, 10);
    assert WalletOf(e, map[]) == Some("w");
    hide WalletOf;
    TransactionShowsItsRowIff(TWO_CALLS, map[], 10, false, 0);
  }

  /** The drill-down tables.  Under an endpoint, a wallet has an entry exactly when some
      transaction of that bucket has it; the entry says what the reuse table says, if it has a row
      for the two, and else what the last such transaction shows.  Under a wallet, each endpoint
      has what the last such transaction shows. */
  lemma DrillDown(events: seq<TxEvent>, rpcs: Enrichments, now: int, synthetic: bool, name: string, key: string)
    ensures var es, r := Dedupe(events), ReportOf(events, rpcs, now, synthetic);
      var said := LastSaid(Items(r.transactions, OnEndpoint), name, key);
      && Entry(BucketOf(r.byEndpoint, name), key)
         == (if said.Some? && Group(es, (name, key)) != []
             then var row := RowFor((name, key), Group(es, (name, key)), r.analysisNow);
                  Some(Stats(Some(row.count1h), Some(row.count24h), Some(row.label_)))
             else said)
      && Entry(BucketOf(r.byWallet, name), key) == LastSaid(Items(r.transactions, OnWallet), name, key)
  {
    var es, r := Dedupe(events), ReportOf(events, rpcs, now, synthetic);
    DedupeTwice(events);
    hide Dedupe, ComputeReuse, ComputeBalance, OverlayAll, Bucketed, BucketOf, Entry, RowOf, Group, RowFor, LastSaid, Items;
    BucketHoldsItsOwn(Items(r.transactions, OnEndpoint), name, key);
    BucketHoldsItsOwn(Items(r.transactions, OnWallet), name, key);
    OverlayShowsRows(Grouped(r.transactions, OnEndpoint), r.reuse, name, key);
    if Group(es, (name, key)) == [] {
      NoRowWithoutGroup(es, r.analysisNow, (name, key));
    } else {
      RowOfGroup(es, r.analysisNow, (name, key));
    }
  }

  lemma {:induction false} SaidIffPresent(xs: seq<Item>, name: string, key: string)
    ensures LastSaid(xs, name, key).Some? <==> exists i :: 0 <= i < |xs| && xs[i].name == name && xs[i].key == Some(key)
  {
    if xs != [] {
      var n := |xs| - 1;
      SaidIffPresent(xs[..n], name, key);
      assert forall i :: 0 <= i < n ==> xs[..n][i] == xs[i];
    }
  }

  // An enrichment that carries gas although the transaction is not settled.
  predicate GasWhileUnsettled(m: Merged) {
    m.gasUsed.Some? && m.sourceB.Some? && m.sourceB.value.state in {"pending", "not_found"}
  }

  function Odd(ms: seq<Merged>): nat {
    if ms == [] then 0 else Odd(ms[..|ms| - 1]) + (if GasWhileUnsettled(ms[|ms| - 1]) then 1 else 0)
  }

  lemma {:induction false} PendingPlusEnriched(ms: seq<Merged>)
    requires forall i :: 0 <= i < |ms| ==> (ms[i].merge.state == "app_only" <==> ms[i].gasUsed.None?)
    ensures Pending(ms) + Enriched(ms) == |ms| + Odd(ms)
  {
    if ms != [] {
      PendingPlusEnriched(ms[..|ms| - 1]);
    }
  }

  lemma {:induction false} OddIffSome(ms: seq<Merged>)
    ensures Odd(ms) == 0 <==> forall i :: 0 <= i < |ms| ==> !GasWhileUnsettled(ms[i])
  {
    if ms != [] {
      OddIffSome(ms[..|ms| - 1]);
      hide GasWhileUnsettled;
      var n := |ms| - 1;
      assert (forall i :: 0 <= i < |ms| ==> !GasWhileUnsettled(ms[i]))
        <==> (forall i :: 0 <= i < n ==> !GasWhileUnsettled(ms[..n][i])) && !GasWhileUnsettled(ms[n]);
    }
  }

  lemma AppOnlyIffNoGas(e: TxEvent, rpcs: Enrichments, rows: seq<ReuseRow>)
    ensures var m := Attached(MergeOne(e, rpcs), rows);
            m.merge.state == "app_only" <==> m.gasUsed.None?
  {
  }

  /** An enrichment that carries gas although it says pending or not found. */
  predicate UnsettledGas(rpc: Option<Rpc>) {
    rpc.Some? && rpc.value.gasUsed.Some? && rpc.value.sourceB.state in {"pending", "not_found"}
  }

  lemma UnsettledGasShows(e: TxEvent, rpcs: Enrichments, rows: seq<ReuseRow>)
    ensures GasWhileUnsettled(Attached(MergeOne(e, rpcs), rows)) <==> UnsettledGas(Enrichment(e, rpcs))
  {
    hide NormalizeTxHash, RowOf, MergeState;
  }

  /** pending_rpc + source_b_enriched equals source_a_count exactly when no event is given an
      enrichment that carries gas while it says pending or not found. */
  lemma QualityCountsAddUpIff(events: seq<TxEvent>, rpcs: Enrichments, now: int, synthetic: bool)
    ensures var r := ReportOf(events, rpcs, now, synthetic);
      r.pending + r.enriched == r.sourceACount
      <==> forall i :: 0 <= i < |Dedupe(events)| ==> !UnsettledGas(Enrichment(Dedupe(events)[i], rpcs))
  {
    var r := ReportOf(events, rpcs, now, synthetic);
    var es := Dedupe(events);
    DedupeTwice(events);
    hide Dedupe, ComputeReuse, ComputeBalance, OverlayAll, Grouped, MergeOne, Attached, GasWhileUnsettled, UnsettledGas, Enrichment;
    forall i | 0 <= i < |r.transactions|
      ensures r.transactions[i].merge.state == "app_only" <==> r.transactions[i].gasUsed.None?
    {
      AppOnlyIffNoGas(es[i], rpcs, r.reuse);
    }
    forall i | 0 <= i < |es| ensures GasWhileUnsettled(r.transactions[i]) <==> UnsettledGas(Enrichment(es[i], rpcs)) {
      UnsettledGasShows(es[i], rpcs, r.reuse);
    }
    PendingPlusEnriched(r.transactions);
    OddIffSome(r.transactions);
  }

  // ----- what fetching can return -----

  datatype TxReply = TxError | TxMissing | TxUnmined(gasPrice: Option<int>) | TxInBlock(gasPrice: Option<int>)

  datatype ReceiptReply =
    | ReceiptError
    | ReceiptMissing
    | Receipt(gasUsed: Option<int>, effectivePrice: Option<int>, status: Option<int>, block: Option<int>, fromHash: Option<string>)

  /** `fetch_tx_gas`: `age` is how long ago the app submitted, `usd` the configured price. */
  function Fetch(hash: string, tx: TxReply, receipt: ReceiptReply, age: Option<int>, usd: Option<real>): Rpc {
    var normal := NormalizeTxHash(Some(hash));
    var th := if normal.Some? then normal.value else "";
    var none := Rpc(th, StateMethod("rpc_error", "rpc_call"), None, None, None, None, None, "unavailable", None, None);
    if normal.None? then none.(sourceB := StateMethod("not_found", "rpc_get_tx"))
    else match tx
      case TxError => none
      case TxMissing =>
        var recent := age.Some? && age.value <= 15 * 60;
        none.(sourceB := StateMethod(if recent then "pending" else "not_found", "rpc_get_tx"))
      case TxUnmined(price) => none.(sourceB := StateMethod("pending", "rpc_get_tx"), gasPriceWei := price)
      case TxInBlock(price) =>
        match receipt
        case ReceiptError => none
        case ReceiptMissing => none.(sourceB := StateMethod("pending", "rpc_receipt"))
        case Receipt(used, effective, status, block, from) =>
          var paid := if effective.Some? then effective else price;
          var wei := if used.Some? && paid.Some? then Some(used.value * paid.value) else None;
          var native := if wei.Some? then Some(wei.value as real / (WEI_PER_ETH as real)) else None;
          var inUsd := if native.Some? && usd.Some? then Some(native.value * usd.value) else None;
          Rpc(th, StateMethod(if status == Some(0) then "reverted" else "mined", "rpc_receipt"),
              used, paid, wei, native, inUsd, if inUsd.Some? then "env_manual" else "unavailable", block, from)
  }

  ghost predicate Fetched(r: Rpc) {
    exists hash, tx, receipt, age, usd :: r == Fetch(hash, tx, receipt, age, usd)
  }

  /** Enrichments that come from fetching carry gas only when mined or reverted, so with them
      the quality counts always add up. */
  lemma FetchedCountsAddUp(events: seq<TxEvent>, rpcs: Enrichments, now: int, synthetic: bool)
    requires forall h :: h in rpcs ==> Fetched(rpcs[h])
    ensures var r := ReportOf(events, rpcs, now, synthetic); r.pending + r.enriched == r.sourceACount
  {
    var es := Dedupe(events);
    QualityCountsAddUpIff(events, rpcs, now, synthetic);
    hide Dedupe, ReportOf, Fetch;
    forall i | 0 <= i < |es| ensures !UnsettledGas(Enrichment(es[i], rpcs)) {
      FetchedIsSettled(es[i], rpcs);
    }
  }

  lemma FetchedIsSettled(e: TxEvent, rpcs: Enrichments)
    requires forall h :: h in rpcs ==> Fetched(rpcs[h])
    ensures !UnsettledGas(Enrichment(e, rpcs))
  {
    hide NormalizeTxHash, Fetch;
    var rpc := Enrichment(e, rpcs);
    if rpc.Some? {
      assert Fetched(rpc.value);
      var hash, tx, receipt, age, usd :| rpc.value == Fetch(hash, tx, receipt, age, usd);
      FetchIsPriced(hash, tx, receipt, age, usd);
    }
  }

  /** The gas of a merged transaction is what the chain charged: used times price, in wei and in
      the native unit, and only for a transaction that is on the chain. */
  ghost predicate Priced(m: Merged) {
    && (m.gasCostWei.Some? <==> m.gasUsed.Some? && m.gasPriceWei.Some?)
    && (m.gasCostWei.Some? ==> m.gasCostWei.value == m.gasUsed.value * m.gasPriceWei.value)
    && (m.gasCostNative.Some? <==> m.gasCostWei.Some?)
    && (m.gasCostNative.Some? ==> m.gasCostNative.value * 1000000000000000000.0 == m.gasCostWei.value as real)
    && (m.gasUsed.Some? ==> m.sourceB.Some? && m.sourceB.value.state in {"mined", "reverted"})
    && (m.gasCostUsd.Some? ==> m.gasCostNative.Some? && m.priceSource == "env_manual")
  }

  // The same of what was fetched.
  ghost predicate PricedRpc(r: Rpc) {
    && (r.gasCostWei.Some? <==> r.gasUsed.Some? && r.gasPriceWei.Some?)
    && (r.gasCostWei.Some? ==> r.gasCostWei.value == r.gasUsed.value * r.gasPriceWei.value)
    && (r.gasCostNative.Some? <==> r.gasCostWei.Some?)
    && (r.gasCostNative.Some? ==> r.gasCostNative.value * 1000000000000000000.0 == r.gasCostWei.value as real)
    && (r.gasUsed.Some? ==> r.sourceB.state in {"mined", "reverted"})
    && (r.gasCostUsd.Some? ==> r.gasCostNative.Some? && r.priceSource == "env_manual")
  }

  lemma FetchIsPriced(hash: string, tx: TxReply, receipt: ReceiptReply, age: Option<int>, usd: Option<real>)
    ensures PricedRpc(Fetch(hash, tx, receipt, age, usd))
  {
    hide NormalizeTxHash;
  }

  lemma FetchedIsPriced(e: TxEvent, rpcs: Enrichments, rows: seq<ReuseRow>)
    requires forall h :: h in rpcs ==> Fetched(rpcs[h])
    ensures Priced(Attached(MergeOne(e, rpcs), rows))
  {
    hide NormalizeTxHash, Fetch, RowOf, MergeState;
    var rpc := Enrichment(e, rpcs);
    if rpc.Some? {
      assert Fetched(rpc.value);
      var hash, tx, receipt, age, usd :| rpc.value == Fetch(hash, tx, receipt, age, usd);
      FetchIsPriced(hash, tx, receipt, age, usd);
    }
  }

  function WeiSum(ms: seq<Merged>): int {
    if ms == [] then 0
    else WeiSum(ms[..|ms| - 1]) + (var w := ms[|ms| - 1].gasCostWei; if w.Some? then w.value else 0)
  }

  lemma {:induction false} GasSumInWei(ms: seq<Merged>)
    requires forall i :: 0 <= i < |ms| ==> Priced(ms[i])
    ensures GasSum(ms) * 1000000000000000000.0 == WeiSum(ms) as real
  {
    if ms != [] {
      GasSumInWei(ms[..|ms| - 1]);
      assert Priced(ms[|ms| - 1]);
    }
  }

  /** With fetched enrichments, the gas in the balance and in either grouping is exactly the wei
      the chain charged for the listed transactions. */
  lemma ReportedGasIsCharged(events: seq<TxEvent>, rpcs: Enrichments, now: int, synthetic: bool)
    requires forall h :: h in rpcs ==> Fetched(rpcs[h])
    ensures var r := ReportOf(events, rpcs, now, synthetic);
      && r.all.gasNative * 1000000000000000000.0 == WeiSum(r.transactions) as real
      && GasTotal(r.byEndpoint) * 1000000000000000000.0 == WeiSum(r.transactions) as real
      && GasTotal(r.byWallet) * 1000000000000000000.0 == WeiSum(r.transactions) as real
  {
    var r := ReportOf(events, rpcs, now, synthetic);
    var es := Dedupe(events);
    DedupeTwice(events);
    ReportConserves(events, rpcs, now, synthetic);
    hide Dedupe, ComputeReuse, ComputeBalance, OverlayAll, Grouped, Fetch, Priced, Fetched;
    forall i | 0 <= i < |r.transactions| ensures Priced(r.transactions[i]) {
      FetchedIsPriced(es[i], rpcs, r.reuse);
    }
    GasSumInWei(r.transactions);
  }

  // ----- the loops -----

  method BuildReport(events: seq<TxEvent>, rpcs: Enrichments, now: int, synthetic: bool) returns (r: Report)
    ensures r == ReportOf(events, rpcs, now, synthetic)
  {
    var es := DedupeEvents(events);
    var at := if es != [] && synthetic then MaxTime(es) else now;
    var rows := ComputeReuseRows(es, at);
    var ms := Attach(MergeAll(es, rpcs), rows);
    var byEndpoint, byWallet, pending, enriched := Tabulate(ms);
    byEndpoint := OverlayRows(byEndpoint, rows);
    hide Dedupe, ComputeReuse, ComputeBalance, OverlayAll, Grouped, Pending, Enriched, MergeAll, Attach;
    r := Report(at, ms, byEndpoint, byWallet, rows,
                ComputeBalance(ms, LastHour, at), ComputeBalance(ms, LastDay, at), ComputeBalance(ms, All, at),
                |es|, enriched, pending, UniqueHashes(es));
  }

  lemma ItemsStep(ms: seq<Merged>, axis: Grouping)
    requires ms != []
    ensures Grouped(ms, axis) == AddTo(Grouped(ms[..|ms| - 1], axis), ItemOf(ms[|ms| - 1], axis))
  {
    assert Items(ms, axis)[..|ms| - 1] == Items(ms[..|ms| - 1], axis);
    hide AddTo, ItemOf;
  }

  method Tabulate(ms: seq<Merged>) returns (byEndpoint: seq<Bucket>, byWallet: seq<Bucket>, pending: nat, enriched: nat)
    ensures byEndpoint == Grouped(ms, OnEndpoint) && byWallet == Grouped(ms, OnWallet)
    ensures pending == Pending(ms) && enriched == Enriched(ms)
  {
    byEndpoint, byWallet, pending, enriched := [], [], 0, 0;
    for i := 0 to |ms|
      invariant byEndpoint == Grouped(ms[..i], OnEndpoint) && byWallet == Grouped(ms[..i], OnWallet)
      invariant pending == Pending(ms[..i]) && enriched == Enriched(ms[..i])
    {
      var m := ms[i];
      assert ms[..i + 1][..i] == ms[..i];
      ItemsStep(ms[..i + 1], OnEndpoint);
      ItemsStep(ms[..i + 1], OnWallet);
      byEndpoint := AddTo(byEndpoint, ItemOf(m, OnEndpoint));
      byWallet := AddTo(byWallet, ItemOf(m, OnWallet));
      pending := pending + if Awaiting(m) then 1 else 0;
      enriched := enriched + if m.gasUsed.Some? then 1 else 0;
    }
    assert ms[..|ms|] == ms;
  }

  // ----- balances do not depend on order -----

  /** What a balance adds up. */
  datatype Tally = Tally(gas: real, usd: Option<real>, income: real, count: nat)

  const NOTHING := Tally(0.0, None, 0.0, 0)

  function AddUsd(usd: Option<real>, more: Option<real>): Option<real> {
    if more.None? then usd else Some(OrZero(usd) + more.value)
  }

  function AddRecord(t: Tally, m: Merged): Tally {
    Tally(t.gas + OrZero(m.gasCostNative), AddUsd(t.usd, m.gasCostUsd), t.income + OrZero(m.incomeUsd), t.count + 1)
  }

  function AddEvent(rpcs: Enrichments, w: (int, int)): (Tally, TxEvent) -> Tally {
    (t: Tally, e: TxEvent) => if w.0 <= e.timestamp <= w.1 then AddRecord(t, MergeOne(e, rpcs)) else t
  }

  function Widen(span: Option<(int, int)>, t: int): Option<(int, int)> {
    if span.None? then Some((t, t))
    else Some((if t < span.value.0 then t else span.value.0, if t > span.value.1 then t else span.value.1))
  }

  function WidenBy(): (Option<(int, int)>, TxEvent) -> Option<(int, int)> {
    (span: Option<(int, int)>, e: TxEvent) => Widen(span, e.timestamp)
  }

  lemma AddEventCommutes(rpcs: Enrichments, w: (int, int))
    ensures Sorting.Commutes(AddEvent(rpcs, w))
  {
    hide MergeOne;
  }

  lemma WidenCommutes()
    ensures Sorting.Commutes(WidenBy())
  {
  }

  /** The record has what a balance reads from the merge of the event. */
  ghost predicate Counts(m: Merged, e: TxEvent, rpcs: Enrichments) {
    var merged := MergeOne(e, rpcs);
    && m.submittedAt == Some(e.timestamp) && m.incomeUsd == merged.incomeUsd
    && m.gasCostNative == merged.gasCostNative && m.gasCostUsd == merged.gasCostUsd
  }

  ghost predicate AllCount(ms: seq<Merged>, es: seq<TxEvent>, rpcs: Enrichments) {
    |ms| == |es| && forall i :: 0 <= i < |es| ==> Counts(ms[i], es[i], rpcs)
  }

  function TallyOf(rows: seq<Merged>): Tally {
    Tally(GasSum(rows), UsdSum(rows), IncomeSum(rows), |rows|)
  }

  // A counted record moves the tally as its event does.
  lemma CountedAlike(t: Tally, m: Merged, e: TxEvent, rpcs: Enrichments, w: (int, int))
    requires Counts(m, e, rpcs)
    ensures AddEvent(rpcs, w)(t, e) == if InWindow(m, w) then AddRecord(t, m) else t
  {
    hide MergeOne;
  }

  lemma {:induction false} TallyIsFold(ms: seq<Merged>, es: seq<TxEvent>, rpcs: Enrichments, w: (int, int))
    requires AllCount(ms, es, rpcs)
    ensures TallyOf(Inside(ms, w)) == Sorting.Fold(es, NOTHING, AddEvent(rpcs, w))
  {
    if es != [] {
      var n := |es| - 1;
      TallyIsFold(ms[..n], es[..n], rpcs, w);
      CountedAlike(TallyOf(Inside(ms[..n], w)), ms[n], es[n], rpcs, w);
      InsideOneMore(Inside(ms[..n], w), ms[n]);
      hide Counts, AddEvent, AddRecord, TallyOf, InWindow;
      assert Inside(ms, w) == if InWindow(ms[n], w) then Inside(ms[..n], w) + [ms[n]] else Inside(ms[..n], w);
    }
  }

  lemma InsideOneMore(rows: seq<Merged>, m: Merged)
    ensures TallyOf(rows + [m]) == AddRecord(TallyOf(rows), m)
  {
    assert (rows + [m])[..|rows|] == rows;
  }

  function SpanOf(ts: seq<int>): Option<(int, int)> {
    if ts == [] then None else Some((Earliest(ts), LatestOf(ts)))
  }

  lemma SpanSnoc(ts: seq<int>, t: int)
    ensures SpanOf(ts + [t]) == Widen(SpanOf(ts), t)
  {
    assert (ts + [t])[..|ts|] == ts;
  }

  lemma {:induction false} SpanIsFold(ms: seq<Merged>, es: seq<TxEvent>, rpcs: Enrichments)
    requires AllCount(ms, es, rpcs)
    ensures Sorting.Fold(es, None, WidenBy()) == SpanOf(Times(ms))
  {
    if es != [] {
      var n := |es| - 1;
      SpanIsFold(ms[..n], es[..n], rpcs);
      assert Counts(ms[n], es[n], rpcs);
      SpanSnoc(Times(ms[..n]), es[n].timestamp);
      hide MergeOne, SpanOf, Widen;
    }
  }

  function BalanceFrom(w: (int, int), t: Tally): Balance {
    Balance(w.0, w.1, t.gas, t.usd, t.income, if t.usd.Some? then Some(t.income - t.usd.value) else None,
            NetState(t.income, t.usd), t.count)
  }

  function WindowFrom(span: Option<(int, int)>, p: Period, now: int): (int, int) {
    match p
    case LastHour => (now - HOUR, now)
    case LastDay => (now - DAY, now)
    case All => if span.None? then (now, now) else span.value
  }

  function EventBalance(es: seq<TxEvent>, rpcs: Enrichments, p: Period, now: int): Balance {
    var w := WindowFrom(Sorting.Fold(es, None, WidenBy()), p, now);
    BalanceFrom(w, Sorting.Fold(es, NOTHING, AddEvent(rpcs, w)))
  }

  lemma BalanceOfEvents(ms: seq<Merged>, es: seq<TxEvent>, rpcs: Enrichments, p: Period, now: int)
    requires AllCount(ms, es, rpcs)
    ensures ComputeBalance(ms, p, now) == EventBalance(es, rpcs, p, now)
  {
    SpanIsFold(ms, es, rpcs);
    TallyIsFold(ms, es, rpcs, Window(ms, p, now));
    hide AllCount, Inside, NetState, GasSum, UsdSum, IncomeSum, Times, Earliest, LatestOf, Sorting.Fold, AddEvent, WidenBy;
  }

  lemma AttachedCounts(events: seq<TxEvent>, rpcs: Enrichments, rows: seq<ReuseRow>)
    ensures AllCount(Attach(MergeAll(events, rpcs), rows), Dedupe(events), rpcs)
  {
    hide Dedupe, RowOf, MergeOne;
    forall i | 0 <= i < |Dedupe(events)| ensures Counts(Attached(MergeOne(Dedupe(events)[i], rpcs), rows), Dedupe(events)[i], rpcs) {
      MergedCounts(Dedupe(events)[i], rpcs, rows);
    }
  }

  lemma MergedCounts(e: TxEvent, rpcs: Enrichments, rows: seq<ReuseRow>)
    ensures Counts(Attached(MergeOne(e, rpcs), rows), e, rpcs)
  {
    hide RowOf, MergeState, NormalizeTxHash;
  }

  /** The balance of time-sorted events is that of the events as they came. */
  lemma SortedBalance(es: seq<TxEvent>, rpcs: Enrichments, p: Period, now: int)
    ensures EventBalance(ByTime(es), rpcs, p, now) == EventBalance(es, rpcs, p, now)
  {
    WidenCommutes();
    Sorting.FoldSort(es, NotLater, None, WidenBy());
    var w := WindowFrom(Sorting.Fold(es, None, WidenBy()), p, now);
    AddEventCommutes(rpcs, w);
    Sorting.FoldSort(es, NotLater, NOTHING, AddEvent(rpcs, w));
  }

  function BalanceIn(r: Report, p: Period): Balance {
    match p
    case LastHour => r.lastHour
    case LastDay => r.lastDay
    case All => r.all
  }

  /** The balance of the store, which sorts first, is that of a report on everything appended, in
      the order of appending. */
  lemma StoreBalanceMatchesReport(appended: seq<TxEvent>, rpcs: Enrichments, p: Period, now: int)
    ensures var es := ByTime(Dedupe(appended));
      ComputeBalance(Attach(MergeAll(es, rpcs), ComputeReuse(es, now)), p, now)
      == BalanceIn(ReportOf(appended, rpcs, now, false), p)
  {
    var d, es := Dedupe(appended), ByTime(Dedupe(appended));
    DedupeAfterSort(appended);
    DedupeTwice(appended);
    hide Dedupe, ComputeReuse, ComputeBalance, Attach, MergeAll, EventBalance, Grouped, AllCount, ByTime;
    AttachedCounts(es, rpcs, ComputeReuse(es, now));
    AttachedCounts(d, rpcs, ComputeReuse(d, now));
    BalanceOfEvents(Attach(MergeAll(es, rpcs), ComputeReuse(es, now)), es, rpcs, p, now);
    BalanceOfEvents(Attach(MergeAll(d, rpcs), ComputeReuse(d, now)), d, rpcs, p, now);
    SortedBalance(d, rpcs, p, now);
  }

  // ----- the store -----

  /** `FacilitatorMetricsStore`, against everything ever appended to it. */
  class MetricsStore {
    var order: seq<EventKey>
    var events: map<EventKey, TxEvent>
    var rpc: Enrichments
    ghost var appended: seq<TxEvent>

    ghost predicate Valid()
      reads this
    {
      order == KeyOrder(appended) && events == Latest(appended)
    }

    constructor ()
      ensures Valid() && appended == [] && rpc == map[]
    {
      order, events, rpc, appended := [], map[], map[], [];
    }

    method Append(e: TxEvent)
      requires Valid()
      modifies this
      ensures Valid() && appended == old(appended) + [e] && rpc == old(rpc)
    {
      var k := Key(e);
      DictIsWellFormed(appended);
      assert (appended + [e])[..|appended|] == appended;
      if k !in events {
        order := order + [k];
      }
      events := events[k := e];
      appended := appended + [e];
    }

    method AppendMany(es: seq<TxEvent>)
      requires Valid()
      modifies this
      ensures Valid() && appended == old(appended) + es && rpc == old(rpc)
    {
      for i := 0 to |es|
        invariant Valid() && appended == old(appended) + es[..i] && rpc == old(rpc)
      {
        Append(es[i]);
        assert es[..i + 1] == es[..i] + [es[i]];
      }
      assert es[..|es|] == es;
    }

    method PutRpc(enrichment: Rpc)
      requires Valid()
      modifies this`rpc
      ensures Valid()
      ensures var th := NormalizeTxHash(Some(enrichment.txHash));
              rpc == if th.Some? then old(rpc)[th.value := enrichment] else old(rpc)
    {
      var th := NormalizeTxHash(Some(enrichment.txHash));
      if th.Some? {
        rpc := rpc[th.value := enrichment];
      }
    }

    /** The events kept, from `since` on if it is given, by time. */
    method ListEvents(since: Option<int>) returns (es: seq<TxEvent>)
      requires Valid()
      ensures es == ByTime(if since.Some? then Since(Dedupe(appended), since.value) else Dedupe(appended))
    {
      DictIsWellFormed(appended);
      es := ValuesOf(order, events);
      if since.Some? {
        es := Since(es, since.value);
      }
      es := ByTime(es);
    }

    /** The rows for everything appended, up to the order of their hashes. */
    method ReuseTable(now: int) returns (rows: seq<ReuseRow>)
      requires Valid()
      ensures rows == ComputeReuse(ByTime(Dedupe(appended)), now)
      ensures |rows| == |ComputeReuse(appended, now)|
      ensures forall i :: 0 <= i < |rows| ==> SameCounts(rows[i], ComputeReuse(appended, now)[i])
    {
      ReuseIgnoresOrder(appended, now);
      hide Dedupe, ByTime, ComputeReuse, SameCounts;
      var es := ListEvents(None);
      rows := ComputeReuseRows(es, now);
    }

    /** The balance of a report on everything appended. */
    method BalanceOf(p: Period, now: int) returns (b: Balance)
      requires Valid()
      ensures b == BalanceIn(ReportOf(appended, rpc, now, false), p)
    {
      StoreBalanceMatchesReport(appended, rpc, p, now);
      hide Dedupe, ByTime, ComputeReuse, ComputeBalance, ReportOf;
      var es := ListEvents(None);
      var rows := ComputeReuseRows(es, now);
      b := ComputeBalance(Attach(MergeAll(es, rpc), rows), p, now);
    }
  }

  /** The same rows up to the order of their hashes. */
  ghost predicate SameTable(rows: seq<ReuseRow>, rows': seq<ReuseRow>) {
    |rows| == |rows'| && forall i :: 0 <= i < |rows| ==> SameCounts(rows[i], rows'[i])
  }

  lemma {:induction false} RowOfSame(rows: seq<ReuseRow>, rows': seq<ReuseRow>, endpoint: string, wallet: string)
    requires SameTable(rows, rows')
    ensures RowOf(rows, endpoint, wallet).Some? <==> RowOf(rows', endpoint, wallet).Some?
    ensures RowOf(rows, endpoint, wallet).Some? ==>
              SameCounts(RowOf(rows, endpoint, wallet).value, RowOf(rows', endpoint, wallet).value)
  {
    if rows != [] {
      var n := |rows| - 1;
      assert SameCounts(rows[n], rows'[n]);
      RowOfSame(rows[..n], rows'[..n], endpoint, wallet);
    }
  }

  lemma AttachedSame(m: Merged, rows: seq<ReuseRow>, rows': seq<ReuseRow>)
    requires SameTable(rows, rows')
    ensures Attached(m, rows) == Attached(m, rows')
  {
    if m.endpoint.Some? && m.walletHash.Some? {
      RowOfSame(rows, rows', m.endpoint.value, m.walletHash.value);
    }
    hide RowOf;
  }

  /** A report on the list the store keeps, against a report on everything appended in the order
      of appending: nothing is left to deduplicate, the transactions are the same, rearranged, the
      reuse tables have the same rows, counts and labels, and all balances are equal. */
  lemma StoreMatchesReport(appended: seq<TxEvent>, rpcs: Enrichments, now: int)
    ensures var es := ByTime(Dedupe(appended));
      var stored, raw := ReportOf(es, rpcs, now, false), ReportOf(appended, rpcs, now, false);
      && Dedupe(es) == es
      && stored.transactions == Attach(MergeAll(es, rpcs), ComputeReuse(es, now))
      && multiset(stored.transactions) == multiset(raw.transactions)
      && SameTable(stored.reuse, raw.reuse)
      && forall p :: BalanceIn(stored, p) == BalanceIn(raw, p)
  {
    var d, es := Dedupe(appended), ByTime(Dedupe(appended));
    var stored, raw := ReportOf(es, rpcs, now, false), ReportOf(appended, rpcs, now, false);
    DedupeAfterSort(appended);
    DedupeTwice(appended);
    ReuseIgnoresOrder(appended, now);
    hide Dedupe, ComputeReuse, ComputeBalance, OverlayAll, Grouped, MergeOne, ByTime, Attached, SameCounts;
    assert raw.reuse == ComputeReuse(d, now) == ComputeReuse(appended, now) by {
      ReuseOfDeduped(appended, now);
    }
    var f := (e: TxEvent) => Attached(MergeOne(e, rpcs), raw.reuse);
    forall i | 0 <= i < |es| ensures stored.transactions[i] == f(es[i]) {
      AttachedSame(MergeOne(es[i], rpcs), stored.reuse, raw.reuse);
    }
    assert stored.transactions == Sorting.Image(es, f);
    assert raw.transactions == Sorting.Image(d, f);
    SortedImage(d, f);
    forall p ensures BalanceIn(stored, p) == BalanceIn(raw, p) {
      StoreBalanceMatchesReport(appended, rpcs, p, now);
    }
  }

  lemma ReuseOfDeduped(events: seq<TxEvent>, now: int)
    ensures ComputeReuse(Dedupe(events), now) == ComputeReuse(events, now)
  {
    DedupeTwice(events);
    hide Dedupe, SortedKeys;
  }

  lemma SortedImage<T>(es: seq<TxEvent>, f: TxEvent -> T)
    ensures multiset(Sorting.Image(ByTime(es), f)) == multiset(Sorting.Image(es, f))
  {
    Sorting.SortImage(es, NotLater, f);
  }
}
