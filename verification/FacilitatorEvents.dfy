/** Events of api_server/facilitator_metrics.py and their deduplication.

    Timestamps are integers (seconds). */
module FacilitatorEvents {
  import opened Wrappers
  import opened Text
  import Sorting

  datatype StateMethod = StateMethod(state: string, method_: string)

  datatype TxEvent = TxEvent(
    txHash: Option<string>,
    walletHash: Option<string>,
    endpoint: string,
    timestamp: int,
    chainId: int,
    role: string,
    eventId: Option<string>,
    incomeUsd: Option<real>,
    gasLimit: Option<int>,
    sourceA: StateMethod,
    claimedGas: Option<int>)  // extra["gas_used"]

  /** `normalize_tx_hash`; text that is blank counts as no hash. */
  function NormalizeTxHash(h: Option<string>): Option<string> {
    if h.None? then None
    else
      var s := Lower(Strip(h.value));
      if s == "" then None
      else if |s| >= 2 && s[..2] == "0x" then Some(s)
      else Some("0x" + s)
  }

  function OrNone(s: Option<string>): string { if s.Some? then s.value else "None" }

  /** `TxEvent.key`: the three forms of the text cannot coincide, and the last one ends in a
      timestamp after a colon, so it is kept here as its two parts. */
  datatype EventKey = ByHash(hash: string) | ById(id: string) | Incomplete(stem: string, at: int)

  function Key(e: TxEvent): EventKey {
    var th := NormalizeTxHash(e.txHash);
    if th.Some? then ByHash(th.value)
    else if e.eventId.Some? && e.eventId.value != "" then ById(e.eventId.value)
    else Incomplete(OrNone(e.walletHash) + ":" + e.endpoint, e.timestamp)
  }

  /** A hash is in lower case, starts with 0x, and is normalised already. */
  lemma HashIsNormal(h: Option<string>)
    ensures NormalizeTxHash(h).Some? ==>
              var s := NormalizeTxHash(h).value;
              && |s| >= 2 && s[..2] == "0x" && Lower(s) == s && NormalizeTxHash(Some(s)) == Some(s)
  {
    if NormalizeTxHash(h).Some? {
      var s := NormalizeTxHash(h).value;
      StripStops(h.value);
      LowerKeepsSpaces(Strip(h.value));
      assert Lower(s) == s;
      StripOfStripped(s);
    }
  }

  /** There is no hash exactly when there is nothing but blanks; surrounding blanks and upper case
      make no difference. */
  lemma HashSpellings(x: string)
    ensures NormalizeTxHash(Some(x)).None? <==> forall i :: 0 <= i < |x| ==> IsSpace(x[i])
    ensures NormalizeTxHash(Some(Strip(x))) == NormalizeTxHash(Some(x))
    ensures NormalizeTxHash(Some(Lower(Strip(x)))) == NormalizeTxHash(Some(x))
  {
    StripStops(x);
    LowerKeepsSpaces(Strip(x));
    hide Strip, IsSpace;
    StripOfStripped(Strip(x));
    StripOfStripped(Lower(Strip(x)));
    assert Lower(Lower(Strip(x))) == Lower(Strip(x));
  }

  /** Nor does a missing 0x. */
  lemma MissingPrefix(x: string)
    requires Trimmed(x) && x != "" && !(|x| >= 2 && x[0] == '0' && x[1] in {'x', 'X'})
    ensures NormalizeTxHash(Some("0x" + x)) == NormalizeTxHash(Some(x))
  {
    StripOfStripped(x);
    StripOfStripped("0x" + x);
    hide Strip;
    assert Lower("0x" + x) == "0x" + Lower(x);
    assert |x| >= 2 ==> Lower(x)[..2] == [LowerChar(x[0]), LowerChar(x[1])];
    assert ("0x" + Lower(x))[..2] == "0x";
  }

  /** Two events have the same key exactly when they have the same hash; or, having none, the same
      id; or, having neither, the same wallet and endpoint (as joined text) and timestamp. */
  lemma SameKeyIff(a: TxEvent, b: TxEvent)
    ensures var ha, hb := NormalizeTxHash(a.txHash), NormalizeTxHash(b.txHash);
      Key(a) == Key(b) <==>
        if ha.Some? || hb.Some? then ha == hb
        else if HasId(a) || HasId(b) then HasId(a) && HasId(b) && a.eventId == b.eventId
        else OrNone(a.walletHash) + ":" + a.endpoint == OrNone(b.walletHash) + ":" + b.endpoint && a.timestamp == b.timestamp
  {
    hide NormalizeTxHash;
  }

  predicate HasId(e: TxEvent) { e.eventId.Some? && e.eventId.value != "" }

  // ----- the dict of latest events -----

  /** Keys in the order of their first event. */
  function KeyOrder(es: seq<TxEvent>): seq<EventKey> {
    OrderFrom([], es)
  }

  function OrderFrom(order: seq<EventKey>, es: seq<TxEvent>): seq<EventKey> {
    if es == [] then order
    else
      var o := OrderFrom(order, es[..|es| - 1]);
      if Key(es[|es| - 1]) in o then o else o + [Key(es[|es| - 1])]
  }

  /** The last event of every key. */
  function Latest(es: seq<TxEvent>): map<EventKey, TxEvent> {
    if es == [] then map[] else Latest(es[..|es| - 1])[Key(es[|es| - 1]) := es[|es| - 1]]
  }

  function ValuesOf(order: seq<EventKey>, latest: map<EventKey, TxEvent>): (r: seq<TxEvent>)
    requires forall k :: k in order ==> k in latest
    ensures |r| == |order| && forall i :: 0 <= i < |order| ==> r[i] == latest[order[i]]
  {
    seq(|order|, i requires 0 <= i < |order| => latest[order[i]])
  }

  /** `dedupe_events` */
  function Dedupe(es: seq<TxEvent>): seq<TxEvent> {
    DictIsWellFormed(es);
    ValuesOf(KeyOrder(es), Latest(es))
  }

  lemma {:induction false} DictIsWellFormed(es: seq<TxEvent>)
    ensures forall k :: k in KeyOrder(es) <==> k in Latest(es)
    ensures forall k :: k in Latest(es) ==> Key(Latest(es)[k]) == k
    ensures Sorting.Distinct(KeyOrder(es))
  {
    if es != [] {
      DictIsWellFormed(es[..|es| - 1]);
      Sorting.DistinctSnoc(KeyOrder(es[..|es| - 1]), Key(es[|es| - 1]));
      hide Key, Sorting.Distinct;
    }
  }

  // ----- first seen, last written -----

  /** Each result carries the last event of its key, and the keys appear in the order in which
      they were first seen. */
  lemma {:induction false} LatestIsLast(es: seq<TxEvent>, k: EventKey)
    requires k in Latest(es)
    ensures exists p :: 0 <= p < |es| && es[p] == Latest(es)[k] && Key(es[p]) == k
                        && forall q :: p < q < |es| ==> Key(es[q]) != k
  {
    hide Key;
    var n := |es| - 1;
    if Key(es[n]) == k {
      assert es[n] == Latest(es)[k];
    } else {
      LatestIsLast(es[..n], k);
      var p :| 0 <= p < n && es[..n][p] == Latest(es[..n])[k] && Key(es[..n][p]) == k
               && forall q :: p < q < n ==> Key(es[..n][q]) != k;
      assert es[p] == Latest(es)[k];
      forall q | p < q < |es| ensures Key(es[q]) != k {
        if q < n {
          assert es[..n][q] == es[q];
        }
      }
    }
  }

  /** Where a key first occurs. */
  function FirstAt(es: seq<TxEvent>, k: EventKey): nat {
    if es == [] then 0 else if Key(es[0]) == k then 0 else 1 + FirstAt(es[1..], k)
  }

  lemma {:induction false} FirstAtSnoc(init: seq<TxEvent>, last: TxEvent, k: EventKey)
    ensures FirstAt(init, k) <= |init|
    ensures FirstAt(init, k) < |init| ==> FirstAt(init + [last], k) == FirstAt(init, k)
    ensures FirstAt(init, k) == |init| && Key(last) == k ==> FirstAt(init + [last], k) == |init|
    ensures FirstAt(init + [last], k) >= FirstAt(init, k)
  {
    hide Key;
    if init == [] {
      assert ([] + [last])[0] == last;
    } else {
      FirstAtSnoc(init[1..], last, k);
      assert (init + [last])[1..] == init[1..] + [last];
    }
  }

  lemma {:induction false} OrderIsFirstSeen(es: seq<TxEvent>)
    ensures forall i :: 0 <= i < |KeyOrder(es)| ==> FirstAt(es, KeyOrder(es)[i]) < |es|
    ensures forall i, j :: 0 <= i < j < |KeyOrder(es)| ==> FirstAt(es, KeyOrder(es)[i]) < FirstAt(es, KeyOrder(es)[j])
  {
    hide Key;
    if es != [] {
      var init, last := es[..|es| - 1], es[|es| - 1];
      OrderIsFirstSeen(init);
      assert es == init + [last];
      var o := KeyOrder(init);
      forall i | 0 <= i < |o| ensures FirstAt(es, o[i]) == FirstAt(init, o[i]) {
        FirstAtSnoc(init, last, o[i]);
      }
      if Key(last) !in o {
        AbsentKey(init, Key(last));
        FirstAtSnoc(init, last, Key(last));
      }
    }
  }

  lemma {:induction false} AbsentKey(es: seq<TxEvent>, k: EventKey)
    requires k !in KeyOrder(es)
    ensures FirstAt(es, k) == |es|
  {
    hide Key;
    if es != [] {
      var init, last := es[..|es| - 1], es[|es| - 1];
      AbsentKey(init, k);
      FirstAtSnoc(init, last, k);
      assert es == init + [last];
      AppendMiss(init, last, k);
    }
  }

  lemma {:induction false} AppendMiss(init: seq<TxEvent>, last: TxEvent, k: EventKey)
    requires FirstAt(init, k) == |init| && Key(last) != k
    ensures FirstAt(init + [last], k) == |init| + 1
  {
    hide Key;
    if init == [] {
      assert ([] + [last])[0] == last && ([] + [last])[1..] == [];
    } else {
      AppendMiss(init[1..], last, k);
      assert (init + [last])[1..] == init[1..] + [last];
    }
  }

  /** Every kept event is the last of its key in the input; of two kept events the one whose key
      was seen first comes first; and every key of the input is kept. */
  lemma DedupeKeepsTheLast(es: seq<TxEvent>, i: nat, j: nat)
    requires i < j < |Dedupe(es)|
    ensures exists p :: 0 <= p < |es| && es[p] == Dedupe(es)[i] && forall q :: p < q < |es| ==> Key(es[q]) != Key(es[p])
    ensures Key(Dedupe(es)[i]) != Key(Dedupe(es)[j])
    ensures FirstAt(es, Key(Dedupe(es)[i])) < FirstAt(es, Key(Dedupe(es)[j]))
  {
    DictIsWellFormed(es);
    OrderIsFirstSeen(es);
    hide Key, FirstAt;
    var o := KeyOrder(es);
    assert o[i] in o && o[j] in o;
    LatestIsLast(es, o[i]);
  }

  lemma EveryKeyIsKept(es: seq<TxEvent>, p: nat)
    requires p < |es|
    ensures exists i :: 0 <= i < |Dedupe(es)| && Key(Dedupe(es)[i]) == Key(es[p])
  {
    DictIsWellFormed(es);
    KeysAreOrdered(es);
    hide Key;
    assert Key(es[p]) in KeyOrder(es);
    var i :| 0 <= i < |KeyOrder(es)| && KeyOrder(es)[i] == Key(es[p]);
    assert Key(Dedupe(es)[i]) == Key(es[p]);
  }

  // ----- reprocessing -----

  lemma {:induction false} OrderConcat(order: seq<EventKey>, a: seq<TxEvent>, b: seq<TxEvent>)
    ensures OrderFrom(order, a + b) == OrderFrom(OrderFrom(order, a), b)
  {
    hide Key;
    if b == [] {
      assert a + b == a;
    } else {
      OrderConcat(order, a, b[..|b| - 1]);
      assert (a + b)[..|a + b| - 1] == a + b[..|b| - 1];
    }
  }

  lemma {:induction false} LatestConcat(a: seq<TxEvent>, b: seq<TxEvent>)
    ensures Latest(a + b) == Latest(a) + Latest(b)
  {
    hide Key;
    if b == [] {
      assert a + b == a;
    } else {
      LatestConcat(a, b[..|b| - 1]);
      assert (a + b)[..|a + b| - 1] == a + b[..|b| - 1];
    }
  }

  lemma {:induction false} DistinctOrder(es: seq<TxEvent>, keys: seq<EventKey>)
    requires |keys| == |es| && (forall i :: 0 <= i < |es| ==> keys[i] == Key(es[i])) && Sorting.Distinct(keys)
    ensures KeyOrder(es) == keys
  {
    hide Key;
    if es != [] {
      var n := |es| - 1;
      assert keys == keys[..n] + [keys[n]];
      Sorting.DistinctSnoc(keys[..n], keys[n]);
      hide Sorting.Distinct;
      DistinctOrder(es[..n], keys[..n]);
    }
  }

  lemma {:induction false} LastOfKey(es: seq<TxEvent>, i: nat)
    requires i < |es| && forall j :: i < j < |es| ==> Key(es[j]) != Key(es[i])
    ensures Key(es[i]) in Latest(es) && Latest(es)[Key(es[i])] == es[i]
  {
    hide Key;
    if i < |es| - 1 {
      LastOfKey(es[..|es| - 1], i);
    }
  }

  /** A list without repeated keys is its own dict. */
  lemma DistinctDict(es: seq<TxEvent>, keys: seq<EventKey>)
    requires |keys| == |es| && (forall i :: 0 <= i < |es| ==> keys[i] == Key(es[i])) && Sorting.Distinct(keys)
    ensures KeyOrder(es) == keys
    ensures forall i :: 0 <= i < |es| ==> keys[i] in Latest(es) && Latest(es)[keys[i]] == es[i]
    ensures forall k :: k in Latest(es) ==> k in keys
  {
    DistinctOrder(es, keys);
    DictIsWellFormed(es);
    hide Latest, KeyOrder, Key;
    forall i | 0 <= i < |es| ensures keys[i] in Latest(es) && Latest(es)[keys[i]] == es[i] {
      LastOfKey(es, i);
    }
  }

  lemma DedupeDict(es: seq<TxEvent>)
    ensures KeyOrder(Dedupe(es)) == KeyOrder(es)
    ensures Latest(Dedupe(es)) == Latest(es)
  {
    DictIsWellFormed(es);
    var d, o := Dedupe(es), KeyOrder(es);
    hide Key;
    DistinctDict(d, o);
    forall k | k in Latest(es) ensures k in Latest(d) && Latest(d)[k] == Latest(es)[k] {
      assert k in o;
      var i :| 0 <= i < |o| && o[i] == k;
    }
  }

  /** Equal dicts, equal results. */
  lemma SameDict(a: seq<TxEvent>, b: seq<TxEvent>)
    requires KeyOrder(a) == KeyOrder(b) && Latest(a) == Latest(b)
    ensures Dedupe(a) == Dedupe(b)
  {
    DictIsWellFormed(a);
  }

  /** Deduplicating early changes nothing: dedupe(dedupe(a) + b) = dedupe(a + b). */
  lemma DedupeAbsorbs(a: seq<TxEvent>, b: seq<TxEvent>)
    ensures Dedupe(Dedupe(a) + b) == Dedupe(a + b)
  {
    hide Dedupe;
    DedupeDict(a);
    OrderConcat([], a, b);
    OrderConcat([], Dedupe(a), b);
    LatestConcat(a, b);
    LatestConcat(Dedupe(a), b);
    SameDict(Dedupe(a) + b, a + b);
  }

  lemma {:induction false} NothingNew(order: seq<EventKey>, b: seq<TxEvent>)
    requires forall i :: 0 <= i < |b| ==> Key(b[i]) in order
    ensures OrderFrom(order, b) == order
  {
    hide Key;
    if b != [] {
      NothingNew(order, b[..|b| - 1]);
    }
  }

  lemma {:induction false} KeysAreOrdered(es: seq<TxEvent>)
    ensures forall i :: 0 <= i < |es| ==> Key(es[i]) in KeyOrder(es)
  {
    hide Key;
    if es != [] {
      KeysAreOrdered(es[..|es| - 1]);
      forall i | 0 <= i < |es| ensures Key(es[i]) in KeyOrder(es) {
        if i < |es| - 1 {
          assert es[..|es| - 1][i] == es[i];
        }
      }
    }
  }

  /** Repeating the whole input changes nothing: dedupe(a + a) = dedupe(a). */
  lemma DedupeRepeat(a: seq<TxEvent>)
    ensures Dedupe(a + a) == Dedupe(a)
  {
    hide Dedupe;
    OrderConcat([], a, a);
    KeysAreOrdered(a);
    NothingNew(KeyOrder(a), a);
    LatestConcat(a, a);
    SameDict(a + a, a);
  }

  lemma DedupeTwice(a: seq<TxEvent>)
    ensures Dedupe(Dedupe(a)) == Dedupe(a)
  {
    DedupeAbsorbs(a, []);
    assert Dedupe(a) + [] == Dedupe(a) && a + [] == a;
  }

  // ----- the loop -----

  method DedupeEvents(es: seq<TxEvent>) returns (out: seq<TxEvent>)
    ensures out == Dedupe(es)
  {
    var order: seq<EventKey>, byKey: map<EventKey, TxEvent> := [], map[];
    for i := 0 to |es|
      invariant order == KeyOrder(es[..i]) && byKey == Latest(es[..i])
    {
      var k := Key(es[i]);
      assert es[..i + 1][..i] == es[..i];
      DictIsWellFormed(es[..i]);
      if k !in byKey {
        order := order + [k];
      }
      byKey := byKey[k := es[i]];
    }
    assert es[..|es|] == es;
    DictIsWellFormed(es);
    out := ValuesOf(order, byKey);
  }

  // ----- by time -----

  predicate NotLater(a: TxEvent, b: TxEvent) { a.timestamp <= b.timestamp }

  /** `sorted(events, key=lambda e: e.timestamp)` */
  function ByTime(es: seq<TxEvent>): seq<TxEvent> {
    Sorting.Sort(es, NotLater)
  }

  lemma ByTimeIsSorted(es: seq<TxEvent>)
    ensures Sorting.SortedBy(ByTime(es), NotLater)
    ensures multiset(ByTime(es)) == multiset(es)
  {
    Sorting.SortIsSorted(es, NotLater);
    Sorting.SortKeepsElements(es, NotLater);
  }

  /** The events of one moment, in order. */
  function At(es: seq<TxEvent>, t: int): seq<TxEvent> {
    if es == [] then []
    else At(es[..|es| - 1], t) + (if es[|es| - 1].timestamp == t then [es[|es| - 1]] else [])
  }

  lemma AtSnoc(es: seq<TxEvent>, e: TxEvent, t: int)
    ensures At(es + [e], t) == At(es, t) + (if e.timestamp == t then [e] else [])
  {
    assert (es + [e])[..|es|] == es;
  }

  lemma {:induction false} InsertAt(es: seq<TxEvent>, e: TxEvent, t: int)
    requires Sorting.SortedBy(es, NotLater)
    ensures At(Sorting.Insert(es, e, NotLater), t) == At(es, t) + (if e.timestamp == t then [e] else [])
  {
    hide At;
    if es == [] || es[|es| - 1].timestamp <= e.timestamp {
      AtSnoc(es, e, t);
    } else {
      var init, last := es[..|es| - 1], es[|es| - 1];
      assert es == init + [last];
      InsertAt(init, e, t);
      AtSnoc(init, last, t);
      AtSnoc(Sorting.Insert(init, e, NotLater), last, t);
    }
  }

  /** Events of one moment keep their order. */
  lemma {:induction false} ByTimeIsStable(es: seq<TxEvent>, t: int)
    ensures At(ByTime(es), t) == At(es, t)
  {
    if es != [] {
      ByTimeIsStable(es[..|es| - 1], t);
      ByTimeIsSorted(es[..|es| - 1]);
      InsertAt(ByTime(es[..|es| - 1]), es[|es| - 1], t);
    }
  }

  function KeysOf(es: seq<TxEvent>): (r: seq<EventKey>)
    ensures |r| == |es| && forall i :: 0 <= i < |es| ==> r[i] == Key(es[i])
  {
    Sorting.Image(es, Key)
  }

  /** A list whose keys are all different is left alone, in whatever order it comes. */
  lemma DedupeDistinct(es: seq<TxEvent>)
    requires Sorting.Distinct(KeysOf(es))
    ensures Dedupe(es) == es
  {
    DistinctDict(es, KeysOf(es));
  }

  lemma DedupedKeysAreDistinct(es: seq<TxEvent>)
    ensures KeysOf(Dedupe(es)) == KeyOrder(es)
    ensures Sorting.Distinct(KeysOf(Dedupe(es)))
  {
    DictIsWellFormed(es);
    hide Key;
    forall i | 0 <= i < |KeyOrder(es)| ensures Key(Dedupe(es)[i]) == KeyOrder(es)[i] {
      assert KeyOrder(es)[i] in KeyOrder(es);
    }
    assert KeysOf(Dedupe(es)) == KeyOrder(es);
  }

  /** Sorting deduplicated events by time leaves nothing to deduplicate. */
  lemma DedupeAfterSort(es: seq<TxEvent>)
    ensures Dedupe(ByTime(Dedupe(es))) == ByTime(Dedupe(es))
  {
    DedupedKeysAreDistinct(es);
    Sorting.SortImage(Dedupe(es), NotLater, Key);
    hide Dedupe;
    Sorting.PermutationIsDistinct(KeysOf(Dedupe(es)), KeysOf(ByTime(Dedupe(es))));
    DedupeDistinct(ByTime(Dedupe(es)));
  }
}
