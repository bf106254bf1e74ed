/** The two breakdowns of a report (api_server/facilitator_metrics.py, `build_report`): buckets by
    name, each with its own drill-down table, and the overlay of the reuse table. */
module FacilitatorBuckets {
  import opened Wrappers
  import opened FacilitatorReuse
  import Sorting

  /** What a drill-down table says of one entry. */
  datatype Stats = Stats(count1h: Option<int>, count24h: Option<int>, reuse: Option<Label>)

  /** What one transaction adds: to which bucket, how much gas, and which entry it writes. */
  datatype Item = Item(name: string, gas: real, key: Option<string>, stats: Stats)

  datatype Bucket = Bucket(name: string, txCount: nat, gas: real, detail: map<string, Stats>)

  function Fresh(name: string): Bucket { Bucket(name, 0, 0.0, map[]) }

  function Merge(b: Bucket, x: Item): Bucket {
    Bucket(b.name, b.txCount + 1, b.gas + x.gas, if x.key.Some? then b.detail[x.key.value := x.stats] else b.detail)
  }

  /** `setdefault`, the two increments, and the entry. */
  function AddTo(bs: seq<Bucket>, x: Item): seq<Bucket> {
    if bs == [] then [Merge(Fresh(x.name), x)]
    else if bs[0].name == x.name then [Merge(bs[0], x)] + bs[1..]
    else [bs[0]] + AddTo(bs[1..], x)
  }

  function Bucketed(xs: seq<Item>): seq<Bucket> {
    if xs == [] then [] else AddTo(Bucketed(xs[..|xs| - 1]), xs[|xs| - 1])
  }

  // ----- totals -----

  function TxTotal(bs: seq<Bucket>): nat {
    if bs == [] then 0 else bs[0].txCount + TxTotal(bs[1..])
  }

  function GasTotal(bs: seq<Bucket>): real {
    if bs == [] then 0.0 else bs[0].gas + GasTotal(bs[1..])
  }

  function Names(bs: seq<Bucket>): seq<string> {
    if bs == [] then [] else [bs[0].name] + Names(bs[1..])
  }

  function GasOf(xs: seq<Item>): real {
    if xs == [] then 0.0 else GasOf(xs[..|xs| - 1]) + xs[|xs| - 1].gas
  }

  lemma ConsTotals(b: Bucket, rest: seq<Bucket>)
    ensures TxTotal([b] + rest) == b.txCount + TxTotal(rest)
    ensures GasTotal([b] + rest) == b.gas + GasTotal(rest)
    ensures Names([b] + rest) == [b.name] + Names(rest)
  {
    assert ([b] + rest)[1..] == rest;
  }

  lemma {:induction false} AddToTotals(bs: seq<Bucket>, x: Item)
    ensures TxTotal(AddTo(bs, x)) == TxTotal(bs) + 1
    ensures GasTotal(AddTo(bs, x)) == GasTotal(bs) + x.gas
    ensures Names(AddTo(bs, x)) == if x.name in Names(bs) then Names(bs) else Names(bs) + [x.name]
  {
    if bs == [] {
      ConsTotals(Merge(Fresh(x.name), x), []);
      assert [Merge(Fresh(x.name), x)] == [Merge(Fresh(x.name), x)] + [];
    } else if bs[0].name == x.name {
      ConsTotals(Merge(bs[0], x), bs[1..]);
    } else {
      AddToTotals(bs[1..], x);
      ConsTotals(bs[0], AddTo(bs[1..], x));
    }
  }

  /** The buckets add up to the items, and no name has two buckets. */
  lemma {:induction false} BucketsConserve(xs: seq<Item>)
    ensures TxTotal(Bucketed(xs)) == |xs| && GasTotal(Bucketed(xs)) == GasOf(xs)
    ensures Sorting.Distinct(Names(Bucketed(xs)))
  {
    if xs != [] {
      var init, x := xs[..|xs| - 1], xs[|xs| - 1];
      BucketsConserve(init);
      hide Sorting.Distinct, AddTo, TxTotal, GasTotal;
      AddToTotals(Bucketed(init), x);
      Sorting.DistinctSnoc(Names(Bucketed(init)), x.name);
    }
  }

  // ----- one bucket -----

  function BucketOf(bs: seq<Bucket>, name: string): Bucket {
    if bs == [] then Fresh(name) else if bs[0].name == name then bs[0] else BucketOf(bs[1..], name)
  }

  lemma ConsBucket(b: Bucket, rest: seq<Bucket>, name: string)
    ensures BucketOf([b] + rest, name) == if b.name == name then b else BucketOf(rest, name)
  {
    assert ([b] + rest)[1..] == rest;
  }

  lemma {:induction false} AddToBucket(bs: seq<Bucket>, x: Item, name: string)
    ensures BucketOf(AddTo(bs, x), name) == if name == x.name then Merge(BucketOf(bs, name), x) else BucketOf(bs, name)
  {
    hide Merge;
    if bs == [] {
      ConsBucket(Merge(Fresh(x.name), x), [], name);
      assert [Merge(Fresh(x.name), x)] == [Merge(Fresh(x.name), x)] + [];
      MergeKeepsName(Fresh(x.name), x);
    } else if bs[0].name == x.name {
      ConsBucket(Merge(bs[0], x), bs[1..], name);
      MergeKeepsName(bs[0], x);
    } else {
      AddToBucket(bs[1..], x, name);
      ConsBucket(bs[0], AddTo(bs[1..], x), name);
    }
  }

  lemma MergeKeepsName(b: Bucket, x: Item)
    ensures Merge(b, x).name == b.name
  {
  }

  function CountNamed(xs: seq<Item>, name: string): nat {
    if xs == [] then 0 else CountNamed(xs[..|xs| - 1], name) + (if xs[|xs| - 1].name == name then 1 else 0)
  }

  function GasNamed(xs: seq<Item>, name: string): real {
    if xs == [] then 0.0 else GasNamed(xs[..|xs| - 1], name) + (if xs[|xs| - 1].name == name then xs[|xs| - 1].gas else 0.0)
  }

  /** What the last item of this bucket and entry said. */
  function LastSaid(xs: seq<Item>, name: string, key: string): Option<Stats> {
    if xs == [] then None
    else if xs[|xs| - 1].name == name && xs[|xs| - 1].key == Some(key) then Some(xs[|xs| - 1].stats)
    else LastSaid(xs[..|xs| - 1], name, key)
  }

  function Entry(b: Bucket, key: string): Option<Stats> {
    if key in b.detail then Some(b.detail[key]) else None
  }

  /** Each bucket holds the count and the gas of its own items, and each entry of its table what
      the last of them said. */
  lemma {:induction false} BucketHoldsItsOwn(xs: seq<Item>, name: string, key: string)
    ensures var b := BucketOf(Bucketed(xs), name);
      b.txCount == CountNamed(xs, name) && b.gas == GasNamed(xs, name) && Entry(b, key) == LastSaid(xs, name, key)
  {
    if xs != [] {
      var init, x := xs[..|xs| - 1], xs[|xs| - 1];
      BucketHoldsItsOwn(init, name, key);
      AddToBucket(Bucketed(init), x, name);
      hide AddTo, BucketOf;
    }
  }

  // ----- the overlay -----

  function Patch(b: Bucket, key: string, stats: Stats): Bucket {
    if key in b.detail then b.(detail := b.detail[key := stats]) else b
  }

  function Overlay(bs: seq<Bucket>, name: string, key: string, stats: Stats): seq<Bucket> {
    if bs == [] then []
    else if bs[0].name == name then [Patch(bs[0], key, stats)] + bs[1..]
    else [bs[0]] + Overlay(bs[1..], name, key, stats)
  }

  function RowStats(r: ReuseRow): Stats {
    Stats(Some(r.count1h), Some(r.count24h), Some(r.label_))
  }

  /** For every row of the reuse table, in order: its counts and label, where there is an entry. */
  function OverlayAll(bs: seq<Bucket>, rows: seq<ReuseRow>): seq<Bucket> {
    if rows == [] then bs
    else
      var r := rows[|rows| - 1];
      Overlay(OverlayAll(bs, rows[..|rows| - 1]), r.endpoint, r.walletHash, RowStats(r))
  }

  lemma {:induction false} OverlayOne(bs: seq<Bucket>, name: string, key: string, stats: Stats, n: string)
    ensures var after := Overlay(bs, name, key, stats);
      && TxTotal(after) == TxTotal(bs) && GasTotal(after) == GasTotal(bs) && Names(after) == Names(bs)
      && BucketOf(after, n) == if n == name then Patch(BucketOf(bs, n), key, stats) else BucketOf(bs, n)
  {
    if bs != [] {
      var rest := if bs[0].name == name then bs[1..] else Overlay(bs[1..], name, key, stats);
      var first := if bs[0].name == name then Patch(bs[0], key, stats) else bs[0];
      if bs[0].name != name {
        OverlayOne(bs[1..], name, key, stats, n);
      }
      ConsTotals(first, rest);
      ConsBucket(first, rest, n);
    }
  }

  /** The overlay changes no count, no gas and no name, and an entry of a bucket exactly when the
      table has a row for it: then it says what the row says. */
  lemma {:induction false} OverlayShowsRows(bs: seq<Bucket>, rows: seq<ReuseRow>, name: string, key: string)
    ensures var after := OverlayAll(bs, rows);
      && TxTotal(after) == TxTotal(bs) && GasTotal(after) == GasTotal(bs) && Names(after) == Names(bs)
      && BucketOf(after, name).txCount == BucketOf(bs, name).txCount && BucketOf(after, name).gas == BucketOf(bs, name).gas
      && Entry(BucketOf(after, name), key)
         == if Entry(BucketOf(bs, name), key).Some? && RowOf(rows, name, key).Some?
            then var r := RowOf(rows, name, key).value; Some(Stats(Some(r.count1h), Some(r.count24h), Some(r.label_)))
            else Entry(BucketOf(bs, name), key)
  {
    if rows != [] {
      var r := rows[|rows| - 1];
      OverlayShowsRows(bs, rows[..|rows| - 1], name, key);
      OverlayOne(OverlayAll(bs, rows[..|rows| - 1]), r.endpoint, r.walletHash, RowStats(r), name);
      hide Overlay, BucketOf, TxTotal, GasTotal, Names;
    }
  }

  // ----- the loops -----

  method OverlayRows(bs: seq<Bucket>, rows: seq<ReuseRow>) returns (after: seq<Bucket>)
    ensures after == OverlayAll(bs, rows)
  {
    after := bs;
    for i := 0 to |rows|
      invariant after == OverlayAll(bs, rows[..i])
    {
      assert rows[..i + 1][..i] == rows[..i];
      after := Overlay(after, rows[i].endpoint, rows[i].walletHash, RowStats(rows[i]));
    }
    assert rows[..|rows|] == rows;
  }
}
