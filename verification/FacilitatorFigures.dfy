/** The figures of a report, read off what went into it: the deduplicated events and the
    enrichments by hash.  Nothing here refers to how records are merged, filtered or summed. */
module FacilitatorFigures {
  import opened Wrappers
  import opened FacilitatorEvents
  import opened FacilitatorReuse
  import opened FacilitatorBuckets
  import opened FacilitatorReport
  import Sorting

  // ----- transactions -----

  /** An event is enriched by what is stored under its normalised hash, and by nothing else. */
  lemma EnrichmentIsByHash(e: TxEvent, rpcs: Enrichments)
    ensures NormalizeTxHash(e.txHash).None? ==> Enrichment(e, rpcs).None?
    ensures forall h :: NormalizeTxHash(e.txHash) == Some(h) ==>
              Enrichment(e, rpcs) == if h in rpcs then Some(rpcs[h]) else None
  {
    hide NormalizeTxHash;
  }

  /** What the app said is shown as it was said. */
  ghost predicate TellsEvent(m: Merged, e: TxEvent) {
    && m.endpoint == Some(e.endpoint) && m.submittedAt == Some(e.timestamp) && m.role == Some(e.role)
    && m.chainId == e.chainId && m.incomeUsd == e.incomeUsd && m.gasLimit == e.gasLimit && m.sourceA == Some(e.sourceA)
  }

  /** Whatever is said of gas is what the chain said: all of it, or nothing. */
  ghost predicate TellsChain(m: Merged, rpc: Option<Rpc>) {
    match rpc
    case None =>
      && m.gasUsed == m.gasPriceWei == m.gasCostWei == None && m.gasCostNative == m.gasCostUsd == None
      && m.priceSource == "unavailable" && m.blockNumber.None? && m.sourceB.None?
    case Some(b) =>
      && m.gasUsed == b.gasUsed && m.gasPriceWei == b.gasPriceWei && m.gasCostWei == b.gasCostWei
      && m.gasCostNative == b.gasCostNative && m.gasCostUsd == b.gasCostUsd
      && m.priceSource == b.priceSource && m.blockNumber == b.blockNumber && m.sourceB == Some(b.sourceB)
  }

  /** Complete once the chain has named the gas used, unless the app had claimed another amount. */
  ghost predicate TellsMerge(m: Merged, e: TxEvent, rpc: Option<Rpc>) {
    && (m.merge.state == "app_only" <==> rpc.None? || rpc.value.gasUsed.None?)
    && (m.merge.state == "conflict" <==>
          rpc.Some? && rpc.value.gasUsed.Some? && e.claimedGas.Some? && e.claimedGas.value != rpc.value.gasUsed.value)
    && m.merge in {StateMethod("app_only", "await_rpc"), StateMethod("conflict", "chain_wins"), StateMethod("complete", "a_plus_b")}
  }

  /** The hash the chain gave, if it gave one, else that of the event. */
  ghost predicate TellsHash(m: Merged, e: TxEvent, rpc: Option<Rpc>) {
    if rpc.Some? && NormalizeTxHash(Some(rpc.value.txHash)).Some? then m.txHash == NormalizeTxHash(Some(rpc.value.txHash))
    else m.txHash == NormalizeTxHash(e.txHash)
  }

  lemma MergedTells(e: TxEvent, rpcs: Enrichments, rows: seq<ReuseRow>)
    ensures var m, rpc := Attached(MergeOne(e, rpcs), rows), Enrichment(e, rpcs);
      TellsEvent(m, e) && TellsChain(m, rpc) && TellsMerge(m, e, rpc) && TellsHash(m, e, rpc)
  {
    hide NormalizeTxHash, RowOf, TellsEvent, TellsChain, TellsMerge, TellsHash;
    MergeTells(e, Enrichment(e, rpcs));
    AttachedKeeps(MergeOne(e, rpcs), rows);
  }

  lemma MergeTells(e: TxEvent, rpc: Option<Rpc>)
    ensures var m := MergeEvent(Some(e), rpc);
      TellsEvent(m, e) && TellsChain(m, rpc) && TellsMerge(m, e, rpc) && TellsHash(m, e, rpc)
  {
    hide NormalizeTxHash;
    BlankHash();
  }

  // The counters of reuse are all that attaching changes.
  lemma AttachedKeeps(m: Merged, rows: seq<ReuseRow>)
    ensures var a := Attached(m, rows); a == m.(reuse := a.reuse, count1h := a.count1h, count24h := a.count24h)
    ensures forall e :: TellsEvent(m, e) ==> TellsEvent(Attached(m, rows), e)
    ensures forall rpc :: TellsChain(m, rpc) ==> TellsChain(Attached(m, rows), rpc)
    ensures forall e, rpc :: TellsMerge(m, e, rpc) ==> TellsMerge(Attached(m, rows), e, rpc)
    ensures forall e, rpc :: TellsHash(m, e, rpc) ==> TellsHash(Attached(m, rows), e, rpc)
  {
    hide NormalizeTxHash, RowOf;
  }

  lemma BlankHash()
    ensures NormalizeTxHash(Some("")).None? && NormalizeTxHash(None).None?
  {
  }

  /** Transaction i of a report is event i, with what the chain said of its hash. */
  lemma TransactionTells(events: seq<TxEvent>, rpcs: Enrichments, now: int, synthetic: bool, i: nat)
    requires i < |Dedupe(events)|
    ensures var r, e := ReportOf(events, rpcs, now, synthetic), Dedupe(events)[i];
      && |r.transactions| == |Dedupe(events)|
      && var m, rpc := r.transactions[i], Enrichment(e, rpcs);
         TellsEvent(m, e) && TellsChain(m, rpc) && TellsMerge(m, e, rpc) && TellsHash(m, e, rpc)
  {
    DedupeTwice(events);
    hide Dedupe, ComputeReuse, ComputeBalance, OverlayAll, Grouped, MergeOne, Attached, Enrichment,
         TellsEvent, TellsChain, TellsMerge, TellsHash;
    MergedTells(Dedupe(events)[i], rpcs, ReportOf(events, rpcs, now, synthetic).reuse);
  }

  /** Without an event, what the chain says is all there is. */
  lemma ChainAlone(rpc: Option<Rpc>)
    ensures var m := MergeEvent(None, rpc);
      && TellsChain(m, rpc)
      && m.endpoint == m.role == None && m.submittedAt.None? && m.incomeUsd.None? && m.gasLimit.None?
      && m.chainId == 8453
      && m.merge == (if rpc.Some? then StateMethod("chain_only", "rpc_only") else StateMethod("unknown", "empty"))
      && (if rpc.Some? && rpc.value.fromHash.Some? && rpc.value.fromHash.value != "" then
            m.walletHash == rpc.value.fromHash && m.sourceA == Some(StateMethod("derived", "derived_from_rpc"))
          else m.walletHash.None? && m.sourceA.None?)
  {
    hide NormalizeTxHash;
  }

  // ----- sums over events -----

  /** The events of a period, both ends included. */
  function Between(es: seq<TxEvent>, start: int, end: int): seq<TxEvent> {
    if es == [] then []
    else if start <= es[0].timestamp <= end then [es[0]] + Between(es[1..], start, end)
    else Between(es[1..], start, end)
  }

  function Income(es: seq<TxEvent>): real {
    if es == [] then 0.0
    else (if es[0].incomeUsd.Some? then es[0].incomeUsd.value else 0.0) + Income(es[1..])
  }

  /** What the chain charged for these events, in the native unit. */
  function GasPaid(es: seq<TxEvent>, rpcs: Enrichments): real {
    if es == [] then 0.0
    else
      var rpc := Enrichment(es[0], rpcs);
      (if rpc.Some? && rpc.value.gasCostNative.Some? then rpc.value.gasCostNative.value else 0.0) + GasPaid(es[1..], rpcs)
  }

  /** The same in dollars, or None if no event has a price. */
  function UsdPaid(es: seq<TxEvent>, rpcs: Enrichments): Option<real> {
    if es == [] then None
    else
      var rpc, rest := Enrichment(es[0], rpcs), UsdPaid(es[1..], rpcs);
      if rpc.None? || rpc.value.gasCostUsd.None? then rest
      else if rest.None? then rpc.value.gasCostUsd
      else Some(rpc.value.gasCostUsd.value + rest.value)
  }

  lemma {:induction false} SumsSnoc(es: seq<TxEvent>, e: TxEvent, rpcs: Enrichments)
    ensures Income(es + [e]) == Income(es) + OrZero(e.incomeUsd)
    ensures var rpc := Enrichment(e, rpcs);
      && GasPaid(es + [e], rpcs) == GasPaid(es, rpcs) + (if rpc.Some? then OrZero(rpc.value.gasCostNative) else 0.0)
      && UsdPaid(es + [e], rpcs) == AddUsd(UsdPaid(es, rpcs), if rpc.Some? then rpc.value.gasCostUsd else None)
  {
    hide Enrichment;
    if es == [] {
      assert [] + [e] == [e] && [e][1..] == [];
    } else {
      SumsSnoc(es[1..], e, rpcs);
      assert (es + [e])[1..] == es[1..] + [e];
    }
  }

  lemma {:induction false} BetweenSnoc(es: seq<TxEvent>, e: TxEvent, start: int, end: int)
    ensures Between(es + [e], start, end) == Between(es, start, end) + (if start <= e.timestamp <= end then [e] else [])
  {
    if es == [] {
      assert [] + [e] == [e] && [e][1..] == [];
    } else {
      BetweenSnoc(es[1..], e, start, end);
      assert (es + [e])[1..] == es[1..] + [e];
    }
  }

  ghost predicate Reads(m: Merged, e: TxEvent, rpcs: Enrichments) {
    TellsEvent(m, e) && TellsChain(m, Enrichment(e, rpcs))
  }

  ghost predicate AllRead(ms: seq<Merged>, es: seq<TxEvent>, rpcs: Enrichments) {
    |ms| == |es| && forall i :: 0 <= i < |es| ==> Reads(ms[i], es[i], rpcs)
  }

  lemma TallyOneMore(rows: seq<Merged>, m: Merged, es: seq<TxEvent>, e: TxEvent, rpcs: Enrichments)
    requires TallyOf(rows) == Tally(GasPaid(es, rpcs), UsdPaid(es, rpcs), Income(es), |es|) && Reads(m, e, rpcs)
    ensures TallyOf(rows + [m]) == Tally(GasPaid(es + [e], rpcs), UsdPaid(es + [e], rpcs), Income(es + [e]), |es + [e]|)
  {
    hide Enrichment;
    InsideOneMore(rows, m);
    SumsSnoc(es, e, rpcs);
    hide TallyOf, GasPaid, UsdPaid, Income;
  }

  /** The tally of the records in a period is that of the events in it. */
  lemma {:induction false} TallyOfEvents(ms: seq<Merged>, es: seq<TxEvent>, rpcs: Enrichments, w: (int, int))
    requires AllRead(ms, es, rpcs)
    ensures var inside := Between(es, w.0, w.1);
      TallyOf(Inside(ms, w)) == Tally(GasPaid(inside, rpcs), UsdPaid(inside, rpcs), Income(inside), |inside|)
  {
    hide TallyOf, Enrichment, AllRead, Reads, GasPaid, UsdPaid, Income, Between, InWindow;
    if es == [] {
      NothingBetween(w, rpcs);
      assert ms == [] by { NoneRead(ms, rpcs); }
    } else {
      var n := |es| - 1;
      LastRead(ms, es, rpcs, w);
      TallyOfEvents(ms[..n], es[..n], rpcs, w);
      TallyOneMore(Inside(ms[..n], w), ms[n], Between(es[..n], w.0, w.1), es[n], rpcs);
      BetweenSnoc(es[..n], es[n], w.0, w.1);
      assert es == es[..n] + [es[n]];
      if !InWindow(ms[n], w) {
        assert Between(es, w.0, w.1) == Between(es[..n], w.0, w.1);
        assert Inside(ms, w) == Inside(ms[..n], w);
      }
    }
  }

  lemma NothingBetween(w: (int, int), rpcs: Enrichments)
    ensures Between([], w.0, w.1) == [] && TallyOf([]) == Tally(GasPaid([], rpcs), UsdPaid([], rpcs), Income([]), 0)
  {
  }

  lemma NoneRead(ms: seq<Merged>, rpcs: Enrichments)
    requires AllRead(ms, [], rpcs)
    ensures ms == []
  {
  }

  lemma LastRead(ms: seq<Merged>, es: seq<TxEvent>, rpcs: Enrichments, w: (int, int))
    requires AllRead(ms, es, rpcs) && es != []
    ensures |ms| == |es| && Reads(ms[|es| - 1], es[|es| - 1], rpcs)
    ensures InWindow(ms[|es| - 1], w) <==> w.0 <= es[|es| - 1].timestamp <= w.1
    ensures AllRead(ms[..|es| - 1], es[..|es| - 1], rpcs)
  {
  }

  // ----- balances -----

  /** The last hour, the last day, or just wide enough for every event. */
  ghost predicate Spans(es: seq<TxEvent>, p: Period, at: int, start: int, end: int) {
    match p
    case LastHour => start == at - 3600 && end == at
    case LastDay => start == at - 86400 && end == at
    case All =>
      && (es == [] ==> start == end == at)
      && (es != [] ==> (exists e :: e in es && e.timestamp == start) && (exists e :: e in es && e.timestamp == end))
      && forall e :: e in es ==> start <= e.timestamp <= end
  }

  lemma {:induction false} TimesAre(ms: seq<Merged>, es: seq<TxEvent>, rpcs: Enrichments)
    requires AllRead(ms, es, rpcs)
    ensures |Times(ms)| == |es| && forall i :: 0 <= i < |es| ==> Times(ms)[i] == es[i].timestamp
  {
    if es != [] {
      var n := |es| - 1;
      assert Reads(ms[n], es[n], rpcs);
      TimesAre(ms[..n], es[..n], rpcs);
      hide Reads;
    }
  }

  lemma {:induction false} EndsOccur(ts: seq<int>)
    requires ts != []
    ensures Earliest(ts) in ts && LatestOf(ts) in ts
  {
    if |ts| > 1 {
      EndsOccur(ts[..|ts| - 1]);
    }
  }

  lemma WindowSpans(ms: seq<Merged>, es: seq<TxEvent>, rpcs: Enrichments, p: Period, at: int)
    requires AllRead(ms, es, rpcs)
    ensures Spans(es, p, at, Window(ms, p, at).0, Window(ms, p, at).1)
  {
    hide AllRead, Times, Earliest, LatestOf;
    TimesAre(ms, es, rpcs);
    if p.All? && es != [] {
      EndsAreEvents(Times(ms), es);
    }
  }

  lemma EndsAreEvents(ts: seq<int>, es: seq<TxEvent>)
    requires es != [] && |ts| == |es| && forall i :: 0 <= i < |es| ==> ts[i] == es[i].timestamp
    ensures exists e :: e in es && e.timestamp == Earliest(ts)
    ensures exists e :: e in es && e.timestamp == LatestOf(ts)
    ensures forall e :: e in es ==> Earliest(ts) <= e.timestamp <= LatestOf(ts)
  {
    hide Earliest, LatestOf;
    EndsOccur(ts);
    var i :| 0 <= i < |ts| && ts[i] == Earliest(ts);
    var j :| 0 <= j < |ts| && ts[j] == LatestOf(ts);
    assert es[i] in es && es[j] in es;
    forall n | 0 <= n < |es| ensures Earliest(ts) <= es[n].timestamp <= LatestOf(ts) {
      assert ts[n] in ts;
      AllTimesInside(ts, ts[n]);
    }
  }

  /** A deficit or a surplus needs a price; then the sign of what is left decides. */
  ghost predicate NetTold(b: Balance) {
    && b.netUsd == (if b.gasUsd.None? then None else Some(b.income - b.gasUsd.value))
    && (b.net.state == "deficit" <==> b.netUsd.Some? && b.netUsd.value < 0.0)
    && (b.net.state == "surplus" <==> b.netUsd.Some? && b.netUsd.value > 0.0)
    && b.net.state in {"deficit", "surplus", "unknown"}
    && (b.net.method_ == "gas_only_no_income" <==> b.income == 0.0 && (b.gasUsd.None? || b.gasUsd.value > 0.0))
    && b.net.method_ in {"gas_only_no_income", "income_minus_gas"}
  }

  /** A balance is the sum over the events of its period. */
  ghost predicate AddsUp(b: Balance, es: seq<TxEvent>, rpcs: Enrichments, p: Period, at: int) {
    && Spans(es, p, at, b.start, b.end)
    && NetTold(b)
    && var inside := Between(es, b.start, b.end);
       && b.income == Income(inside) && b.gasNative == GasPaid(inside, rpcs) && b.gasUsd == UsdPaid(inside, rpcs)
       && b.txCount == |inside|
  }

  lemma BalanceAddsUp(ms: seq<Merged>, es: seq<TxEvent>, rpcs: Enrichments, p: Period, at: int)
    requires AllRead(ms, es, rpcs)
    ensures AddsUp(ComputeBalance(ms, p, at), es, rpcs, p, at)
  {
    hide AllRead, Inside, GasSum, UsdSum, IncomeSum, Window, Between, Income, GasPaid, UsdPaid, Spans;
    WindowSpans(ms, es, rpcs, p, at);
    TallyOfEvents(ms, es, rpcs, Window(ms, p, at));
  }

  lemma {:induction false} BetweenAll(es: seq<TxEvent>, start: int, end: int)
    requires forall e :: e in es ==> start <= e.timestamp <= end
    ensures Between(es, start, end) == es
  {
    if es != [] {
      assert es[0] in es;
      assert forall e :: e in es[1..] ==> e in es;
      BetweenAll(es[1..], start, end);
    }
  }

  lemma ReportReads(events: seq<TxEvent>, rpcs: Enrichments, now: int, synthetic: bool)
    ensures AllRead(ReportOf(events, rpcs, now, synthetic).transactions, Dedupe(events), rpcs)
  {
    hide Dedupe, ReportOf, Enrichment, TellsEvent, TellsChain, TellsMerge, TellsHash;
    ReportSize(events, rpcs, now, synthetic);
    forall i | 0 <= i < |Dedupe(events)|
      ensures Reads(ReportOf(events, rpcs, now, synthetic).transactions[i], Dedupe(events)[i], rpcs)
    {
      TransactionTells(events, rpcs, now, synthetic, i);
    }
  }

  lemma ReportSize(events: seq<TxEvent>, rpcs: Enrichments, now: int, synthetic: bool)
    ensures |ReportOf(events, rpcs, now, synthetic).transactions| == |Dedupe(events)|
  {
    DedupeTwice(events);
    hide Dedupe, ComputeReuse, ComputeBalance, OverlayAll, Grouped;
  }

  /** The three balances of a report, from the deduplicated events and what the chain said of
      them: income, gas, dollars and count are the sums over the events of the period, and the
      balance over everything leaves none out. */
  lemma ReportAddsUp(events: seq<TxEvent>, rpcs: Enrichments, now: int, synthetic: bool)
    ensures var es, r := Dedupe(events), ReportOf(events, rpcs, now, synthetic);
      && AddsUp(r.lastHour, es, rpcs, LastHour, r.analysisNow)
      && AddsUp(r.lastDay, es, rpcs, LastDay, r.analysisNow)
      && AddsUp(r.all, es, rpcs, All, r.analysisNow)
      && r.all.income == Income(es) && r.all.gasNative == GasPaid(es, rpcs) && r.all.gasUsd == UsdPaid(es, rpcs)
      && r.all.txCount == r.sourceACount == |es|
  {
    var es, r := Dedupe(events), ReportOf(events, rpcs, now, synthetic);
    ReportReads(events, rpcs, now, synthetic);
    DedupeTwice(events);
    hide Dedupe, ComputeReuse, ComputeBalance, OverlayAll, Grouped, MergeAll, Attach, AllRead, Income, GasPaid, UsdPaid, Between, NetTold;
    BalanceAddsUp(r.transactions, es, rpcs, LastHour, r.analysisNow);
    BalanceAddsUp(r.transactions, es, rpcs, LastDay, r.analysisNow);
    BalanceAddsUp(r.transactions, es, rpcs, All, r.analysisNow);
    BetweenAll(es, r.all.start, r.all.end);
  }

  // ----- breakdowns -----

  /** What a record is filed under, and what under that. */
  function Filed(m: Merged, axis: Grouping): Option<string> {
    if axis.OnEndpoint? then m.endpoint else m.walletHash
  }

  function Other(m: Merged, axis: Grouping): Option<string> {
    if axis.OnEndpoint? then m.walletHash else m.endpoint
  }

  /** The records of one bucket, in order: those filed under its name, or for "_unknown" also
      those filed under nothing. */
  function Records(ms: seq<Merged>, axis: Grouping, name: string): seq<Merged> {
    if ms == [] then []
    else
      var init, m := Records(ms[..|ms| - 1], axis, name), ms[|ms| - 1];
      if Filed(m, axis) == Some(name) && name != "" then init + [m]
      else if name == "_unknown" && (Filed(m, axis).None? || Filed(m, axis).value == "") then init + [m]
      else init
  }

  /** The last of these records that names `key`. */
  function LastNaming(rs: seq<Merged>, axis: Grouping, key: string): Option<Merged> {
    if rs == [] then None
    else if Other(rs[|rs| - 1], axis) == Some(key) && key != "" then Some(rs[|rs| - 1])
    else LastNaming(rs[..|rs| - 1], axis, key)
  }

  lemma OneMoreRecord(rs: seq<Merged>, m: Merged, axis: Grouping, key: string)
    ensures GasSum(rs + [m]) == GasSum(rs) + OrZero(m.gasCostNative)
    ensures LastNaming(rs + [m], axis, key)
         == if Other(m, axis) == Some(key) && key != "" then Some(m) else LastNaming(rs, axis, key)
  {
    assert (rs + [m])[..|rs|] == rs;
  }

  /** In either breakdown a bucket has the count and the gas of its own records; and each entry of
      its table is what the last record naming it shows. */
  lemma {:induction false} BucketOfRecords(ms: seq<Merged>, axis: Grouping, name: string, key: string)
    ensures var b, rs := BucketOf(Grouped(ms, axis), name), Records(ms, axis, name);
      && b.txCount == |rs| && b.gas == GasSum(rs)
      && Entry(b, key) == match LastNaming(rs, axis, key) {
                            case None => None
                            case Some(m) => Some(Stats(m.count1h, m.count24h, m.reuse))
                          }
  {
    if ms != [] {
      var init, m := ms[..|ms| - 1], ms[|ms| - 1];
      BucketOfRecords(init, axis, name, key);
      ItemsStep(ms, axis);
      AddToBucket(Grouped(init, axis), ItemOf(m, axis), name);
      OneMoreRecord(Records(init, axis, name), m, axis, key);
      hide AddTo, BucketOf, Grouped, GasSum, LastNaming;
    }
  }

  // ----- counts -----

  /** The window of a report ends now, or at the latest event of a synthetic batch. */
  lemma AnalysisMoment(events: seq<TxEvent>, rpcs: Enrichments, now: int, synthetic: bool)
    ensures var es, at := Dedupe(events), ReportOf(events, rpcs, now, synthetic).analysisNow;
      if es == [] || !synthetic then at == now
      else (exists e :: e in es && e.timestamp == at) && forall e :: e in es ==> e.timestamp <= at
  {
    var es := Dedupe(events);
    hide Dedupe, ComputeReuse, ComputeBalance, OverlayAll, Grouped, MergeAll, Attach, UniqueHashes;
    if es != [] {
      MaxTimeIsMax(es);
    }
  }

  /** The chain named the gas used. */
  predicate Carries(rpc: Option<Rpc>) { rpc.Some? && rpc.value.gasUsed.Some? }

  predicate Unsettled(rpc: Option<Rpc>) { rpc.Some? && rpc.value.sourceB.state in {"pending", "not_found"} }

  /** How many events the chain has named the gas of. */
  function WithGas(es: seq<TxEvent>, rpcs: Enrichments): nat {
    if es == [] then 0
    else WithGas(es[..|es| - 1], rpcs) + (if Carries(Enrichment(es[|es| - 1], rpcs)) then 1 else 0)
  }

  /** How many events have no gas yet, or an enrichment that says pending or not found. */
  function Waiting(es: seq<TxEvent>, rpcs: Enrichments): nat {
    if es == [] then 0
    else
      var rpc := Enrichment(es[|es| - 1], rpcs);
      Waiting(es[..|es| - 1], rpcs) + (if Carries(rpc) && !Unsettled(rpc) then 0 else 1)
  }

  ghost predicate QualityTold(m: Merged, rpc: Option<Rpc>) {
    && (m.gasUsed.Some? <==> Carries(rpc))
    && (Awaiting(m) <==> !Carries(rpc) || Unsettled(rpc))
  }

  lemma MergedQuality(m: Merged, e: TxEvent, rpc: Option<Rpc>)
    requires TellsChain(m, rpc) && TellsMerge(m, e, rpc)
    ensures QualityTold(m, rpc)
  {
  }

  lemma {:induction false} CountQuality(ms: seq<Merged>, es: seq<TxEvent>, rpcs: Enrichments)
    requires |ms| == |es| && forall i :: 0 <= i < |es| ==> QualityTold(ms[i], Enrichment(es[i], rpcs))
    ensures Enriched(ms) == WithGas(es, rpcs) && Pending(ms) == Waiting(es, rpcs)
  {
    hide Awaiting, Enrichment, Carries, Unsettled;
    if es != [] {
      CountQuality(ms[..|es| - 1], es[..|es| - 1], rpcs);
      assert QualityTold(ms[|es| - 1], Enrichment(es[|es| - 1], rpcs));
    }
  }

  /** The quality counts of a report are those of its deduplicated events. */
  lemma QualityCounts(events: seq<TxEvent>, rpcs: Enrichments, now: int, synthetic: bool)
    ensures var es, r := Dedupe(events), ReportOf(events, rpcs, now, synthetic);
            r.enriched == WithGas(es, rpcs) && r.pending == Waiting(es, rpcs)
  {
    hide Dedupe, ReportOf, Enrichment, TellsEvent, TellsChain, TellsMerge, TellsHash, QualityTold, Enriched, Pending, WithGas, Waiting;
    var es, r := Dedupe(events), ReportOf(events, rpcs, now, synthetic);
    ReportSize(events, rpcs, now, synthetic);
    forall i | 0 <= i < |es| ensures QualityTold(r.transactions[i], Enrichment(es[i], rpcs)) {
      TransactionTells(events, rpcs, now, synthetic, i);
      MergedQuality(r.transactions[i], es[i], Enrichment(es[i], rpcs));
    }
    CountQuality(r.transactions, es, rpcs);
    ReportCounts(events, rpcs, now, synthetic);
  }

  lemma ReportCounts(events: seq<TxEvent>, rpcs: Enrichments, now: int, synthetic: bool)
    ensures var r := ReportOf(events, rpcs, now, synthetic);
            r.enriched == Enriched(r.transactions) && r.pending == Pending(r.transactions)
  {
    hide Dedupe, ComputeReuse, ComputeBalance, OverlayAll, Grouped, MergeAll, Attach, UniqueHashes, Enriched, Pending;
  }

  /** The events that have a hash. */
  function Hashed(es: seq<TxEvent>): nat {
    if es == [] then 0
    else Hashed(es[..|es| - 1]) + (if NormalizeTxHash(es[|es| - 1].txHash).Some? then 1 else 0)
  }

  /** The event gives a hash that is blank. */
  predicate GivesBlank(e: TxEvent) { Given(e.txHash) && NormalizeTxHash(e.txHash).None? }

  function HashSet(es: seq<TxEvent>): set<Option<string>> {
    set e | e in es && Given(e.txHash) :: NormalizeTxHash(e.txHash)
  }

  lemma HashSetSnoc(init: seq<TxEvent>, e: TxEvent)
    ensures HashSet(init + [e]) == HashSet(init) + (if Given(e.txHash) then {NormalizeTxHash(e.txHash)} else {})
    ensures (exists x :: x in init + [e] && GivesBlank(x)) <==> GivesBlank(e) || exists x :: x in init && GivesBlank(x)
  {
    hide NormalizeTxHash;
    assert forall x :: x in init + [e] <==> x in init || x == e;
  }

  lemma {:induction false} HashSetSize(es: seq<TxEvent>)
    requires Sorting.Distinct(KeysOf(es))
    ensures |HashSet(es)| == Hashed(es) + (if exists e :: e in es && GivesBlank(e) then 1 else 0)
    ensures None in HashSet(es) <==> exists e :: e in es && GivesBlank(e)
  {
    hide Sorting.Distinct, HashSet, NormalizeTxHash, KeysOf, Key, GivesBlank;
    if es == [] {
      NoHashes();
    } else {
      var init, e := es[..|es| - 1], es[|es| - 1];
      assert es == init + [e];
      WithoutLastKey(init, e);
      HashSetSize(init);
      HashSetSnoc(init, e);
      GivenHash(e);
      if NormalizeTxHash(e.txHash).Some? {
        assert |HashSet(es)| == |HashSet(init)| + 1;
      } else if GivesBlank(e) {
        assert HashSet(es) == HashSet(init) + {None};
      } else {
        assert HashSet(es) == HashSet(init);
      }
    }
  }

  lemma NoHashes()
    ensures HashSet([]) == {}
  {
  }

  lemma WithoutLastKey(init: seq<TxEvent>, e: TxEvent)
    requires Sorting.Distinct(KeysOf(init + [e]))
    ensures Sorting.Distinct(KeysOf(init))
    ensures NormalizeTxHash(e.txHash).Some? ==> NormalizeTxHash(e.txHash) !in HashSet(init)
  {
    hide Key;
    assert KeysOf(init + [e]) == KeysOf(init) + [Key(e)];
    Sorting.DistinctSnoc(KeysOf(init), Key(e));
    NewHash(init, e);
  }

  lemma GivenHash(e: TxEvent)
    ensures NormalizeTxHash(e.txHash).Some? ==> Given(e.txHash) && !GivesBlank(e)
    ensures NormalizeTxHash(e.txHash).None? ==> (GivesBlank(e) <==> Given(e.txHash))
  {
    BlankHash();
  }

  lemma NewHash(init: seq<TxEvent>, e: TxEvent)
    requires Key(e) !in KeysOf(init)
    ensures NormalizeTxHash(e.txHash).Some? ==> NormalizeTxHash(e.txHash) !in HashSet(init)
  {
    hide NormalizeTxHash;
    forall i | 0 <= i < |init|
      ensures NormalizeTxHash(e.txHash).Some? ==> NormalizeTxHash(init[i].txHash) != NormalizeTxHash(e.txHash)
    {
      assert KeysOf(init)[i] == Key(init[i]);
    }
  }

  /** Deduplication leaves every hash once, so the number of unique hashes is that of the events
      with a hash; blank text, which is no hash, counts as one more, however often it is given. */
  lemma UniqueHashesAreEvents(events: seq<TxEvent>, rpcs: Enrichments, now: int, synthetic: bool)
    ensures var es, r := Dedupe(events), ReportOf(events, rpcs, now, synthetic);
            r.uniqueHashes == Hashed(es) + (if exists e :: e in es && GivesBlank(e) then 1 else 0)
  {
    var es := Dedupe(events);
    DedupedKeysAreDistinct(events);
    HashSetSize(es);
    DedupeTwice(events);
    hide Dedupe, ComputeReuse, ComputeBalance, OverlayAll, Grouped, MergeAll, Attach, KeysOf, NormalizeTxHash, Sorting.Distinct;
  }

  // ----- fetching -----

  /** What is fetched says settled (mined, or reverted if the status is 0) exactly when the
      transaction is in a block and its receipt was read.  A transaction that is missing is pending
      for a quarter of an hour after it was submitted.  Errors are said to be errors. */
  ghost predicate StateFetched(state: string, tx: TxReply, receipt: ReceiptReply, age: Option<int>) {
    && (state in {"mined", "reverted"} <==> tx.TxInBlock? && receipt.Receipt?)
    && (state == "reverted" <==> tx.TxInBlock? && receipt.Receipt? && receipt.status == Some(0))
    && (state == "rpc_error" <==> tx.TxError? || (tx.TxInBlock? && receipt.ReceiptError?))
    && (state == "not_found" <==> tx.TxMissing? && (age.Some? ==> age.value > 900))
    && (state == "pending" <==>
          (tx.TxMissing? && age.Some? && age.value <= 900) || tx.TxUnmined? || (tx.TxInBlock? && receipt.ReceiptMissing?))
  }

  /** A read receipt is carried over, at the effective price or else that of the transaction. */
  ghost predicate ReceiptCarried(r: Rpc, tx: TxReply, receipt: ReceiptReply, usd: Option<real>)
    requires tx.TxInBlock? && receipt.Receipt?
  {
    && r.gasUsed == receipt.gasUsed && r.blockNumber == receipt.block && r.fromHash == receipt.fromHash
    && r.gasPriceWei == (if receipt.effectivePrice.Some? then receipt.effectivePrice else tx.gasPrice)
    && (r.gasCostUsd.Some? <==> r.gasCostNative.Some? && usd.Some?)
    && (r.gasCostUsd.Some? ==> r.gasCostUsd.value == r.gasCostNative.value * usd.value)
  }

  lemma FetchSays(hash: string, tx: TxReply, receipt: ReceiptReply, age: Option<int>, usd: Option<real>)
    ensures var r, normal := Fetch(hash, tx, receipt, age, usd), NormalizeTxHash(Some(hash));
      if normal.None? then r.txHash == "" && r.sourceB.state == "not_found" && r.gasUsed.None? && r.gasPriceWei.None?
      else
        && r.txHash == normal.value && StateFetched(r.sourceB.state, tx, receipt, age)
        && (tx.TxUnmined? ==> r.gasPriceWei == tx.gasPrice)
        && (tx.TxInBlock? && receipt.Receipt? ==> ReceiptCarried(r, tx, receipt, usd))
  {
    hide NormalizeTxHash;
  }
}
