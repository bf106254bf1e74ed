/** Wallet reuse counters of api_server/facilitator_metrics.py (`compute_reuse`). */
module FacilitatorReuse {
  import opened Wrappers
  import opened FacilitatorEvents
  import Sorting

  const HOUR := 3600
  const DAY := 86400

  type GroupKey = (string, string)  // endpoint, wallet

  datatype Label = NoWallet | FirstSeen | SameKey(times: int) | SameKey24h

  datatype ReuseRow = ReuseRow(endpoint: string, walletHash: string, count1h: nat, count24h: nat,
                               label_: Label, hashes: seq<EventKey>)

  predicate Reused(l: Label) { l.SameKey? || l.SameKey24h? }

  /** `reuse_state_method` */
  function ReuseLabel(count1h: int, count24h: int): Label {
    if count24h <= 0 then NoWallet
    else if count1h >= 4 then SameKey(count1h)
    else if count1h >= 2 then SameKey(count1h)
    else if count24h >= 2 && count1h <= 1 then SameKey24h
    else FirstSeen
  }

  predicate HasWallet(e: TxEvent) { e.walletHash.Some? && e.walletHash.value != "" }

  function GroupOf(e: TxEvent): GroupKey
    requires HasWallet(e)
  {
    (e.endpoint, e.walletHash.value)
  }

  predicate Belongs(e: TxEvent, k: GroupKey) { HasWallet(e) && GroupOf(e) == k }

  // ----- groups -----

  /** The events of one endpoint and wallet, in order. */
  function Group(es: seq<TxEvent>, k: GroupKey): seq<TxEvent> {
    if es == [] then []
    else Group(es[..|es| - 1], k) + (if Belongs(es[|es| - 1], k) then [es[|es| - 1]] else [])
  }

  /** The group keys in the order in which they appear. */
  function GroupKeys(es: seq<TxEvent>): seq<GroupKey> {
    if es == [] then []
    else
      var ks, e := GroupKeys(es[..|es| - 1]), es[|es| - 1];
      if HasWallet(e) && GroupOf(e) !in ks then ks + [GroupOf(e)] else ks
  }

  lemma {:induction false} GroupKeysCover(es: seq<TxEvent>, k: GroupKey)
    ensures k in GroupKeys(es) <==> Group(es, k) != []
    ensures Group(es, k) != [] <==> exists i :: 0 <= i < |es| && Belongs(es[i], k)
  {
    if es != [] {
      var init, e := es[..|es| - 1], es[|es| - 1];
      GroupKeysCover(init, k);
      if exists i :: 0 <= i < |init| && Belongs(init[i], k) {
        var i :| 0 <= i < |init| && Belongs(init[i], k);
        assert Belongs(es[i], k);
      }
      if exists i :: 0 <= i < |es| && Belongs(es[i], k) {
        var i :| 0 <= i < |es| && Belongs(es[i], k);
        assert i < |init| ==> Belongs(init[i], k);
      }
    }
  }

  lemma {:induction false} GroupKeysAreDistinct(es: seq<TxEvent>)
    ensures Sorting.Distinct(GroupKeys(es))
  {
    if es != [] {
      var init, e := es[..|es| - 1], es[|es| - 1];
      GroupKeysAreDistinct(init);
      if HasWallet(e) {
        Sorting.DistinctSnoc(GroupKeys(init), GroupOf(e));
      }
    }
  }

  // ----- windows -----

  function Since(es: seq<TxEvent>, cutoff: int): seq<TxEvent> {
    if es == [] then []
    else Since(es[..|es| - 1], cutoff) + (if es[|es| - 1].timestamp >= cutoff then [es[|es| - 1]] else [])
  }

  function MaxTime(es: seq<TxEvent>): int
    requires es != []
  {
    if |es| == 1 then es[0].timestamp
    else
      var m, t := MaxTime(es[..|es| - 1]), es[|es| - 1].timestamp;
      if t > m then t else m
  }

  /** The moment the windows end at: `now`, or for a group wholly in the past its latest event. */
  function Anchor(group: seq<TxEvent>, now: int): int
    requires group != []
  {
    if Since(group, now - DAY) == [] then MaxTime(group) else now
  }

  function RowFor(k: GroupKey, group: seq<TxEvent>, now: int): ReuseRow
    requires group != []
  {
    var anchor := Anchor(group, now);
    var in1h, in24h := Since(group, anchor - HOUR), Since(group, anchor - DAY);
    ReuseRow(k.0, k.1, |in1h|, |in24h|, ReuseLabel(|in1h|, |in24h|), KeysOf(ByTime(in24h)))
  }

  function SortedKeys(es: seq<TxEvent>): seq<GroupKey> {
    Sorting.Sort(GroupKeys(es), Sorting.PairLe)
  }

  function Rows(keys: seq<GroupKey>, es: seq<TxEvent>, now: int): (r: seq<ReuseRow>)
    requires forall i :: 0 <= i < |keys| ==> Group(es, keys[i]) != []
    ensures |r| == |keys| && forall i :: 0 <= i < |keys| ==> r[i] == RowFor(keys[i], Group(es, keys[i]), now)
  {
    seq(|keys|, i requires 0 <= i < |keys| => RowFor(keys[i], Group(es, keys[i]), now))
  }

  lemma SortedKeysCover(es: seq<TxEvent>)
    ensures forall k :: k in SortedKeys(es) <==> Group(es, k) != []
    ensures Sorting.Distinct(SortedKeys(es)) && Sorting.SortedBy(SortedKeys(es), Sorting.PairLe)
  {
    GroupKeysAreDistinct(es);
    Sorting.PairSort(GroupKeys(es));
    hide Group, GroupKeys, Sorting.PairLe, Sorting.Sort, Sorting.Distinct, Sorting.SortedBy;
    forall k ensures k in SortedKeys(es) <==> Group(es, k) != [] {
      GroupKeysCover(es, k);
    }
  }

  /** `compute_reuse` */
  function ComputeReuse(events: seq<TxEvent>, now: int): seq<ReuseRow> {
    var es := Dedupe(events);
    SortedKeysCover(es);
    assert forall i :: 0 <= i < |SortedKeys(es)| ==> SortedKeys(es)[i] in SortedKeys(es);
    Rows(SortedKeys(es), es, now)
  }

  /** The row of an endpoint and wallet; of several the last one, as in a dict. */
  function RowOf(rows: seq<ReuseRow>, endpoint: string, wallet: string): Option<ReuseRow> {
    if rows == [] then None
    else if (rows[|rows| - 1].endpoint, rows[|rows| - 1].walletHash) == (endpoint, wallet) then Some(rows[|rows| - 1])
    else RowOf(rows[..|rows| - 1], endpoint, wallet)
  }

  // ----- what the table says -----

  lemma {:induction false} SinceShrinks(es: seq<TxEvent>, c: int, c': int)
    requires c <= c'
    ensures |Since(es, c')| <= |Since(es, c)| <= |es|
  {
    if es != [] {
      SinceShrinks(es[..|es| - 1], c, c');
    }
  }

  lemma {:induction false} MaxTimeIsRecent(es: seq<TxEvent>, cutoff: int)
    requires es != [] && cutoff <= MaxTime(es)
    ensures Since(es, cutoff) != []
  {
    if |es| > 1 && es[|es| - 1].timestamp < cutoff {
      MaxTimeIsRecent(es[..|es| - 1], cutoff);
    }
  }

  lemma {:induction false} MaxTimeIsMax(es: seq<TxEvent>)
    requires es != []
    ensures exists e :: e in es && e.timestamp == MaxTime(es)
    ensures forall e :: e in es ==> e.timestamp <= MaxTime(es)
  {
    var n := |es| - 1;
    assert es == es[..n] + [es[n]];
    assert es[n] in es;
    if n > 0 {
      MaxTimeIsMax(es[..n]);
      assert forall e :: e in es[..n] ==> e in es;
    }
  }

  /** The calls of a wallet to an endpoint from a moment on. */
  function Calls(es: seq<TxEvent>, endpoint: string, wallet: string, from: int): nat {
    if es == [] then 0
    else Calls(es[..|es| - 1], endpoint, wallet, from) +
         (var e := es[|es| - 1]; if e.endpoint == endpoint && e.walletHash == Some(wallet) && e.timestamp >= from then 1 else 0)
  }

  lemma {:induction false} CallsOfGroup(es: seq<TxEvent>, k: GroupKey, from: int)
    requires k.1 != ""
    ensures |Since(Group(es, k), from)| == Calls(es, k.0, k.1, from)
  {
    if es != [] {
      var init, e := es[..|es| - 1], es[|es| - 1];
      CallsOfGroup(init, k, from);
      SinceSnoc(Group(init, k), e, from);
      assert Belongs(e, k) <==> e.endpoint == k.0 && e.walletHash == Some(k.1);
      assert Group(es, k) == if Belongs(e, k) then Group(init, k) + [e] else Group(init, k);
    }
  }

  /** The windows of a row end at the anchor: now, if the wallet called the endpoint in the last
      day, and else its latest call. */
  ghost predicate AnchoredAt(es: seq<TxEvent>, endpoint: string, wallet: string, now: int, anchor: int) {
    if Calls(es, endpoint, wallet, now - 86400) > 0 then anchor == now
    else Calls(es, endpoint, wallet, anchor) > 0 && Calls(es, endpoint, wallet, anchor + 1) == 0
  }

  lemma {:induction false} MaxTimeByCounts(es: seq<TxEvent>)
    requires es != []
    ensures Since(es, MaxTime(es)) != [] && Since(es, MaxTime(es) + 1) == []
  {
    MaxTimeIsRecent(es, MaxTime(es));
    MaxTimeIsMax(es);
    SinceNothing(es, MaxTime(es) + 1);
  }

  lemma {:induction false} SinceNothing(es: seq<TxEvent>, cutoff: int)
    requires forall e :: e in es ==> e.timestamp < cutoff
    ensures Since(es, cutoff) == []
  {
    if es != [] {
      assert es[|es| - 1] in es && forall e :: e in es[..|es| - 1] ==> e in es;
      SinceNothing(es[..|es| - 1], cutoff);
    }
  }

  lemma GroupRowCounts(es: seq<TxEvent>, k: GroupKey, now: int) returns (anchor: int)
    requires Group(es, k) != []
    ensures var r := RowFor(k, Group(es, k), now);
      && r.endpoint == k.0 && r.walletHash == k.1 && k.1 != ""
      && AnchoredAt(es, k.0, k.1, now, anchor)
      && r.count24h == Calls(es, k.0, k.1, anchor - 86400) && r.count1h == Calls(es, k.0, k.1, anchor - 3600)
  {
    hide Since, MaxTime, ByTime, ReuseLabel, Calls;
    GroupKeysCover(es, k);
    var g := Group(es, k);
    anchor := Anchor(g, now);
    CallsOfGroup(es, k, now - DAY);
    CallsOfGroup(es, k, anchor - DAY);
    CallsOfGroup(es, k, anchor - HOUR);
    CallsOfGroup(es, k, anchor);
    CallsOfGroup(es, k, anchor + 1);
    MaxTimeByCounts(g);
  }

  /** Every row counts the calls of its wallet to its endpoint, in the hour and in the day up to
      its anchor; and its label goes by the hour if that has two calls, else by the day. */
  lemma RowCountsCalls(events: seq<TxEvent>, now: int, i: nat) returns (anchor: int)
    requires i < |ComputeReuse(events, now)|
    ensures var es, r := Dedupe(events), ComputeReuse(events, now)[i];
      && AnchoredAt(es, r.endpoint, r.walletHash, now, anchor) && r.walletHash != ""
      && r.count24h == Calls(es, r.endpoint, r.walletHash, anchor - 86400)
      && r.count1h == Calls(es, r.endpoint, r.walletHash, anchor - 3600)
      && r.label_ == (if r.count1h >= 2 then SameKey(r.count1h) else if r.count24h >= 2 then SameKey24h else FirstSeen)
  {
    var es := Dedupe(events);
    var keys := SortedKeys(es);
    SortedKeysCover(es);
    hide Dedupe, SortedKeys, Group, GroupKeys, Since, MaxTime, ByTime, Calls, AnchoredAt;
    assert keys[i] in keys;
    RowIsSound(keys[i], Group(es, keys[i]), now);
    anchor := GroupRowCounts(es, keys[i], now);
  }

  lemma {:induction false} SortedPairwise(es: seq<TxEvent>, i: nat, j: nat)
    requires Sorting.SortedBy(es, NotLater) && i < j < |es|
    ensures es[i].timestamp <= es[j].timestamp
    decreases |es|
  {
    var n := |es| - 1;
    if j < n {
      SortedPairwise(es[..n], i, j);
    } else if i < n - 1 {
      SortedPairwise(es[..n], i, n - 1);
    }
  }

  lemma {:induction false} SinceOfGroup(es: seq<TxEvent>, k: GroupKey, from: int)
    ensures forall e :: e in Since(Group(es, k), from) ==> e in es && Belongs(e, k) && e.timestamp >= from
  {
    if es != [] {
      var init, e := es[..|es| - 1], es[|es| - 1];
      SinceOfGroup(init, k, from);
      assert forall x :: x in init ==> x in es;
      SinceSnoc(Group(init, k), e, from);
      assert Group(es, k) == if Belongs(e, k) then Group(init, k) + [e] else Group(init, k);
    }
  }

  lemma InByTime(es: seq<TxEvent>)
    ensures |ByTime(es)| == |es| && forall e :: e in ByTime(es) <==> e in es
  {
    ByTimeIsSorted(es);
    ByTimeLength(es);
    forall e ensures e in ByTime(es) <==> e in es {
      Sorting.SameElement(ByTime(es), es, e);
    }
  }

  /** A row lists the keys of the calls its day counts, by time. */
  lemma RowListsCalls(es: seq<TxEvent>, k: GroupKey, now: int) returns (called: seq<TxEvent>)
    requires Group(es, k) != []
    ensures var r := RowFor(k, Group(es, k), now);
      && |r.hashes| == |called| == r.count24h
      && (forall i :: 0 <= i < |called| ==> r.hashes[i] == Key(called[i]))
      && (forall i :: 0 <= i < |called| ==>
            called[i] in es && called[i].endpoint == k.0 && called[i].walletHash == Some(k.1)
            && called[i].timestamp >= Anchor(Group(es, k), now) - 86400)
      && forall i, j :: 0 <= i < j < |called| ==> called[i].timestamp <= called[j].timestamp
  {
    hide Since, MaxTime, ReuseLabel, Anchor, Group, Key, ByTime;
    var day := Since(Group(es, k), Anchor(Group(es, k), now) - DAY);
    called := ByTime(day);
    InByTime(day);
    ByTimeIsSorted(day);
    SinceOfGroup(es, k, Anchor(Group(es, k), now) - DAY);
    assert forall i :: 0 <= i < |called| ==> called[i] in called;
    forall i, j | 0 <= i < j < |called| ensures called[i].timestamp <= called[j].timestamp {
      SortedPairwise(called, i, j);
    }
  }

  lemma LabelIsSound(count1h: nat, count24h: nat)
    requires 1 <= count24h && count1h <= count24h
    ensures Reused(ReuseLabel(count1h, count24h)) <==> count24h >= 2
    ensures ReuseLabel(count1h, count24h) == FirstSeen <==> count24h == 1
  {
  }

  /** Every row: at least one call in the day, no more in the hour than in the day, and
      "reused" exactly when the day has at least two. */
  lemma RowIsSound(k: GroupKey, group: seq<TxEvent>, now: int)
    requires group != []
    ensures var r := RowFor(k, group, now);
      && 1 <= r.count24h <= |group| && r.count1h <= r.count24h
      && (Reused(r.label_) <==> r.count24h >= 2)
      && (r.label_ == FirstSeen <==> r.count24h == 1)
  {
    hide ReuseLabel, Reused, ByTime, Since, MaxTime;
    var anchor := Anchor(group, now);
    SinceShrinks(group, anchor - DAY, anchor - HOUR);
    if Since(group, now - DAY) == [] {
      MaxTimeIsRecent(group, MaxTime(group) - DAY);
    }
    LabelIsSound(|Since(group, anchor - HOUR)|, |Since(group, anchor - DAY)|);
  }

  /** The table has one row for each endpoint and wallet with an event, and no other. */
  lemma ReuseTableIsCorrect(events: seq<TxEvent>, now: int, i: nat)
    requires i < |ComputeReuse(events, now)|
    ensures var rows, r := ComputeReuse(events, now), ComputeReuse(events, now)[i];
      && (exists j :: 0 <= j < |Dedupe(events)| && Belongs(Dedupe(events)[j], (r.endpoint, r.walletHash)))
      && (forall j :: 0 <= j < |rows| && j != i ==> (rows[j].endpoint, rows[j].walletHash) != (r.endpoint, r.walletHash))
      && 1 <= r.count24h && r.count1h <= r.count24h
      && (Reused(r.label_) <==> r.count24h >= 2)
  {
    var es := Dedupe(events);
    var keys := SortedKeys(es);
    SortedKeysCover(es);
    hide Dedupe, SortedKeys, Group, GroupKeys, ReuseLabel;
    assert keys[i] in keys;
    GroupKeysCover(es, keys[i]);
    RowIsSound(keys[i], Group(es, keys[i]), now);
  }

  lemma EveryWalletHasARow(events: seq<TxEvent>, now: int, j: nat)
    requires j < |Dedupe(events)| && HasWallet(Dedupe(events)[j])
    ensures exists i :: 0 <= i < |ComputeReuse(events, now)|
              && (ComputeReuse(events, now)[i].endpoint, ComputeReuse(events, now)[i].walletHash) == GroupOf(Dedupe(events)[j])
  {
    var es := Dedupe(events);
    var k := GroupOf(es[j]);
    SortedKeysCover(es);
    hide Dedupe, SortedKeys, Group, GroupKeys, ReuseLabel;
    GroupKeysCover(es, k);
    assert Belongs(es[j], k);
    assert k in SortedKeys(es);
    var i :| 0 <= i < |SortedKeys(es)| && SortedKeys(es)[i] == k;
    var row := ComputeReuse(events, now)[i];
    assert (row.endpoint, row.walletHash) == k;
  }

  // ----- only time differences matter -----

  function ShiftEvent(e: TxEvent, d: int): TxEvent { e.(timestamp := e.timestamp + d) }

  function ShiftKey(k: EventKey, d: int): EventKey {
    if k.Incomplete? then k.(at := k.at + d) else k
  }

  function Shift(es: seq<TxEvent>, d: int): (r: seq<TxEvent>)
    ensures |r| == |es| && forall i :: 0 <= i < |es| ==> r[i] == ShiftEvent(es[i], d)
  {
    seq(|es|, i requires 0 <= i < |es| => ShiftEvent(es[i], d))
  }

  function ShiftKeys(ks: seq<EventKey>, d: int): (r: seq<EventKey>)
    ensures |r| == |ks| && forall i :: 0 <= i < |ks| ==> r[i] == ShiftKey(ks[i], d)
  {
    seq(|ks|, i requires 0 <= i < |ks| => ShiftKey(ks[i], d))
  }

  lemma KeyShift(e: TxEvent, d: int)
    ensures Key(ShiftEvent(e, d)) == ShiftKey(Key(e), d)
  {
  }

  lemma ShiftSlice(es: seq<TxEvent>, d: int)
    requires es != []
    ensures Shift(es, d)[..|es| - 1] == Shift(es[..|es| - 1], d)
    ensures Shift(es, d)[|es| - 1] == ShiftEvent(es[|es| - 1], d)
  {
  }

  lemma ShiftedMember(ks: seq<EventKey>, k: EventKey, d: int)
    ensures ShiftKey(k, d) in ShiftKeys(ks, d) <==> k in ks
  {
    if k in ks {
      var i :| 0 <= i < |ks| && ks[i] == k;
      assert ShiftKeys(ks, d)[i] == ShiftKey(k, d);
    }
    if ShiftKey(k, d) in ShiftKeys(ks, d) {
      var i :| 0 <= i < |ks| && ShiftKeys(ks, d)[i] == ShiftKey(k, d);
      assert ks[i] == k;
    }
  }

  lemma {:induction false} OrderShift(es: seq<TxEvent>, d: int)
    ensures KeyOrder(Shift(es, d)) == ShiftKeys(KeyOrder(es), d)
  {
    hide Key, ShiftKey, ShiftEvent;
    if es != [] {
      OrderShift(es[..|es| - 1], d);
      ShiftSlice(es, d);
      KeyShift(es[|es| - 1], d);
      ShiftedMember(KeyOrder(es[..|es| - 1]), Key(es[|es| - 1]), d);
    }
  }

  lemma {:induction false} LatestShift(es: seq<TxEvent>, d: int, k: EventKey)
    ensures k in Latest(es) <==> ShiftKey(k, d) in Latest(Shift(es, d))
    ensures k in Latest(es) ==> Latest(Shift(es, d))[ShiftKey(k, d)] == ShiftEvent(Latest(es)[k], d)
  {
    if es != [] {
      LatestShift(es[..|es| - 1], d, k);
      ShiftSlice(es, d);
      KeyShift(es[|es| - 1], d);
      hide Key;
    }
  }

  lemma DedupeShift(es: seq<TxEvent>, d: int)
    ensures Dedupe(Shift(es, d)) == Shift(Dedupe(es), d)
  {
    OrderShift(es, d);
    DictIsWellFormed(es);
    DictIsWellFormed(Shift(es, d));
    hide Key, KeyOrder, Latest, ShiftKey, ShiftEvent;
    var o := KeyOrder(es);
    forall i | 0 <= i < |o| ensures Dedupe(Shift(es, d))[i] == ShiftEvent(Dedupe(es)[i], d) {
      assert o[i] in o;
      LatestShift(es, d, o[i]);
    }
  }

  lemma {:induction false} GroupShift(es: seq<TxEvent>, k: GroupKey, d: int)
    ensures Group(Shift(es, d), k) == Shift(Group(es, k), d)
    ensures GroupKeys(Shift(es, d)) == GroupKeys(es)
  {
    if es != [] {
      GroupShift(es[..|es| - 1], k, d);
      ShiftSlice(es, d);
    }
  }

  lemma {:induction false} SinceShift(es: seq<TxEvent>, cutoff: int, d: int)
    ensures Since(Shift(es, d), cutoff + d) == Shift(Since(es, cutoff), d)
    ensures es != [] ==> MaxTime(Shift(es, d)) == MaxTime(es) + d
  {
    if es != [] {
      SinceShift(es[..|es| - 1], cutoff, d);
      ShiftSlice(es, d);
    }
  }

  /** The same row up to the timestamps inside keys of incomplete events. */
  ghost predicate SameCounts(r: ReuseRow, r': ReuseRow) {
    r.endpoint == r'.endpoint && r.walletHash == r'.walletHash && r.count1h == r'.count1h
    && r.count24h == r'.count24h && r.label_ == r'.label_ && |r.hashes| == |r'.hashes|
  }

  lemma RowShift(k: GroupKey, group: seq<TxEvent>, now: int, d: int)
    requires group != []
    ensures SameCounts(RowFor(k, Shift(group, d), now + d), RowFor(k, group, now))
  {
    hide ReuseLabel, ByTime, Since, MaxTime;
    SinceShift(group, now - DAY, d);
    var anchor := Anchor(group, now);
    assert Anchor(Shift(group, d), now + d) == anchor + d by {
      assert now + d - DAY == now - DAY + d;
      assert |Shift(Since(group, now - DAY), d)| == |Since(group, now - DAY)|;
    }
    assert anchor + d - DAY == anchor - DAY + d && anchor + d - HOUR == anchor - HOUR + d;
    SinceShift(group, anchor - DAY, d);
    SinceShift(group, anchor - HOUR, d);
    ByTimeLength(Since(group, anchor - DAY));
    ByTimeLength(Since(Shift(group, d), anchor + d - DAY));
  }

  lemma ByTimeLength(es: seq<TxEvent>)
    ensures |ByTime(es)| == |es|
  {
    Sorting.SortKeepsElements(es, NotLater);
  }

  /** Moving all timestamps and `now` by the same amount changes no count and no label. */
  lemma ReuseIsShiftInvariant(events: seq<TxEvent>, now: int, d: int)
    ensures |ComputeReuse(Shift(events, d), now + d)| == |ComputeReuse(events, now)|
    ensures forall i :: 0 <= i < |ComputeReuse(events, now)| ==>
              SameCounts(ComputeReuse(Shift(events, d), now + d)[i], ComputeReuse(events, now)[i])
  {
    var es := Dedupe(events);
    DedupeShift(events, d);
    SortedKeysCover(es);
    SortedKeysCover(Shift(es, d));
    GroupShift(es, ("", ""), d);
    var keys := SortedKeys(es);
    assert SortedKeys(Shift(es, d)) == keys;
    hide Dedupe, GroupKeys, Group, SortedKeys, SameCounts;
    forall i | 0 <= i < |keys|
      ensures SameCounts(ComputeReuse(Shift(events, d), now + d)[i], ComputeReuse(events, now)[i])
    {
      assert keys[i] in keys;
      GroupShift(es, keys[i], d);
      RowShift(keys[i], Group(es, keys[i]), now, d);
    }
  }

  // ----- the order of events does not matter -----

  function CountIn(k: GroupKey, cutoff: int): (nat, TxEvent) -> nat {
    (n: nat, e: TxEvent) => if Belongs(e, k) && e.timestamp >= cutoff then n + 1 else n
  }

  function MaxIn(k: GroupKey): (Option<int>, TxEvent) -> Option<int> {
    (m: Option<int>, e: TxEvent) =>
      if Belongs(e, k) && (m.None? || e.timestamp > m.value) then Some(e.timestamp) else m
  }

  lemma CountInCommutes(k: GroupKey, cutoff: int)
    ensures Sorting.Commutes(CountIn(k, cutoff))
  {
  }

  lemma MaxInCommutes(k: GroupKey)
    ensures Sorting.Commutes(MaxIn(k))
  {
  }

  lemma SinceSnoc(es: seq<TxEvent>, e: TxEvent, cutoff: int)
    ensures Since(es + [e], cutoff) == Since(es, cutoff) + (if e.timestamp >= cutoff then [e] else [])
    ensures MaxTime(es + [e]) == if es != [] && MaxTime(es) >= e.timestamp then MaxTime(es) else e.timestamp
  {
    assert (es + [e])[..|es|] == es;
  }

  lemma {:induction false} CountIsFold(es: seq<TxEvent>, k: GroupKey, cutoff: int)
    ensures |Since(Group(es, k), cutoff)| == Sorting.Fold(es, 0, CountIn(k, cutoff))
  {
    if es != [] {
      var init, e := es[..|es| - 1], es[|es| - 1];
      CountIsFold(init, k, cutoff);
      SinceSnoc(Group(init, k), e, cutoff);
      assert Group(es, k) == if Belongs(e, k) then Group(init, k) + [e] else Group(init, k);
      hide Since;
    }
  }

  lemma {:induction false} MaxIsFold(es: seq<TxEvent>, k: GroupKey)
    ensures Sorting.Fold(es, None, MaxIn(k)) == if Group(es, k) == [] then None else Some(MaxTime(Group(es, k)))
  {
    if es != [] {
      var init, e := es[..|es| - 1], es[|es| - 1];
      MaxIsFold(init, k);
      SinceSnoc(Group(init, k), e, 0);
      assert Group(es, k) == if Belongs(e, k) then Group(init, k) + [e] else Group(init, k);
      hide MaxTime;
    }
  }

  lemma GroupByTime(es: seq<TxEvent>, k: GroupKey, cutoff: int)
    ensures |Since(Group(ByTime(es), k), cutoff)| == |Since(Group(es, k), cutoff)|
    ensures Group(ByTime(es), k) == [] <==> Group(es, k) == []
    ensures Group(es, k) != [] ==> MaxTime(Group(ByTime(es), k)) == MaxTime(Group(es, k))
  {
    CountInCommutes(k, cutoff);
    MaxInCommutes(k);
    Sorting.FoldSort(es, NotLater, 0, CountIn(k, cutoff));
    Sorting.FoldSort(es, NotLater, None, MaxIn(k));
    hide Since, Group, MaxTime, CountIn, MaxIn, Sorting.Fold, Sorting.Sort;
    CountIsFold(es, k, cutoff);
    CountIsFold(ByTime(es), k, cutoff);
    MaxIsFold(es, k);
    MaxIsFold(ByTime(es), k);
  }

  lemma RowByTime(es: seq<TxEvent>, k: GroupKey, now: int)
    requires Group(es, k) != [] && Group(ByTime(es), k) != []
    ensures SameCounts(RowFor(k, Group(ByTime(es), k), now), RowFor(k, Group(es, k), now))
  {
    var g, g' := Group(es, k), Group(ByTime(es), k);
    GroupByTime(es, k, now - DAY);
    hide ReuseLabel, ByTime, Since, MaxTime, Group;
    assert Anchor(g, now) == Anchor(g', now);
    var anchor := Anchor(g, now);
    GroupByTime(es, k, anchor - DAY);
    GroupByTime(es, k, anchor - HOUR);
    ByTimeLength(Since(g, anchor - DAY));
    ByTimeLength(Since(g', anchor - DAY));
  }

  /** The reuse table of time-sorted, deduplicated events, which is what the store computes, has
      the rows of the raw input: the same endpoints and wallets in the same order, with the same
      counts and labels. */
  lemma ReuseIgnoresOrder(events: seq<TxEvent>, now: int)
    ensures var sorted := ComputeReuse(ByTime(Dedupe(events)), now);
      && |sorted| == |ComputeReuse(events, now)|
      && forall i :: 0 <= i < |sorted| ==> SameCounts(sorted[i], ComputeReuse(events, now)[i])
  {
    var d := Dedupe(events);
    DedupeAfterSort(events);
    SortedKeysCover(d);
    SortedKeysCover(ByTime(d));
    hide Dedupe, Group, SortedKeys, RowFor, ByTime, SameCounts, Sorting.Distinct, Sorting.SortedBy, Sorting.PairLe;
    forall k ensures k in SortedKeys(d) <==> k in SortedKeys(ByTime(d)) {
      GroupByTime(d, k, 0);
    }
    Sorting.SortedIsUnique(SortedKeys(d), SortedKeys(ByTime(d)));
    var keys := SortedKeys(d);
    forall i | 0 <= i < |keys|
      ensures SameCounts(ComputeReuse(ByTime(d), now)[i], ComputeReuse(events, now)[i])
    {
      assert keys[i] in keys;
      RowByTime(d, keys[i], now);
    }
  }

  // ----- the loops -----

  method ComputeReuseRows(events: seq<TxEvent>, now: int) returns (rows: seq<ReuseRow>)
    ensures rows == ComputeReuse(events, now)
  {
    var es := DedupeEvents(events);
    var order, groups := CollectGroups(es);
    var keys := Sorting.Sort(order, Sorting.PairLe);
    SortedKeysCover(es);
    hide Dedupe, RowFor, Group, GroupKeys, Sorting.Sort, Sorting.Distinct, Sorting.SortedBy;
    assert forall i :: 0 <= i < |keys| ==> keys[i] in keys;
    GroupsOfKeys(es, keys);
    rows := RowsOf(keys, es, groups, now);
  }

  method RowsOf(keys: seq<GroupKey>, ghost es: seq<TxEvent>, groups: map<GroupKey, seq<TxEvent>>, now: int)
    returns (rows: seq<ReuseRow>)
    requires forall i :: 0 <= i < |keys| ==> keys[i] in groups && groups[keys[i]] == Group(es, keys[i]) != []
    ensures rows == Rows(keys, es, now)
  {
    hide RowFor, Group;
    rows := [];
    for i := 0 to |keys|
      invariant |rows| == i
      invariant forall j :: 0 <= j < i ==> rows[j] == RowFor(keys[j], Group(es, keys[j]), now)
    {
      rows := rows + [RowFor(keys[i], groups[keys[i]], now)];
    }
    assert rows == Rows(keys, es, now);
  }

  lemma GroupsOfKeys(es: seq<TxEvent>, keys: seq<GroupKey>)
    requires forall i :: 0 <= i < |keys| ==> Group(es, keys[i]) != []
    ensures forall i :: 0 <= i < |keys| ==> keys[i] in GroupKeys(es)
  {
    forall i | 0 <= i < |keys| ensures keys[i] in GroupKeys(es) {
      GroupKeysCover(es, keys[i]);
    }
  }

  /** `groups.setdefault(key, []).append(e)` for every event with a wallet. */
  method CollectGroups(es: seq<TxEvent>) returns (order: seq<GroupKey>, groups: map<GroupKey, seq<TxEvent>>)
    ensures order == GroupKeys(es)
    ensures forall k :: k in groups <==> k in order
    ensures forall k :: k in groups ==> groups[k] == Group(es, k)
  {
    order, groups := [], map[];
    for i := 0 to |es|
      invariant order == GroupKeys(es[..i])
      invariant forall k :: k in groups <==> k in order
      invariant forall k :: k in groups ==> groups[k] == Group(es[..i], k)
    {
      var e := es[i];
      assert es[..i + 1][..i] == es[..i];
      if HasWallet(e) {
        var k := GroupOf(e);
        GroupKeysCover(es[..i], k);
        if k !in groups {
          order := order + [k];
          groups := groups[k := []];
        }
        groups := groups[k := groups[k] + [e]];
      }
    }
    assert es[..|es|] == es;
  }
}
