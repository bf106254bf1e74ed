/** The monthly quota of api_server/dbkeystore.py under concurrent requests (api_server/app.py,
    `validate`).

    The check counts the audit rows of the month; the row of a request is written only after
    its audit.  Requests between those two points are in flight.  Between them they may be
    rate limited, answered from the cache, fail, or lose their row to a database error. */
module Quota {
  import opened Wrappers

  /** A moment: the calendar month it falls in, and where in the month. */
  datatype Stamp = Stamp(month: int, instant: int)

  predicate NotAfter(a: Stamp, b: Stamp) {
    a.month < b.month || (a.month == b.month && a.instant <= b.instant)
  }

  datatype Row = Row(caller: Option<string>, at: Stamp)

  /** `PLANS`: audits a month, or no limit for a plan that is not listed. */
  function MonthlyLimit(plan: string): (limit: Option<nat>)
    ensures plan == "free" ==> limit == Some(100)
    ensures plan == "pro" ==> limit == Some(500)
    ensures plan == "enterprise" ==> limit == Some(5000)
    ensures plan !in {"free", "pro", "enterprise"} <==> limit == None
  {
    if plan == "free" then Some(100)
    else if plan == "pro" then Some(500)
    else if plan == "enterprise" then Some(5000)
    else None
  }

  /** Rows of a caller since the start of a month. */
  function UsageSince(rows: seq<Row>, key: string, month: int): nat {
    if rows == [] then 0
    else UsageSince(rows[..|rows| - 1], key, month)
         + (var r := rows[|rows| - 1]; if r.caller == Some(key) && r.at.month >= month then 1 else 0)
  }

  /** Rows of a caller in a month. */
  function UsageIn(rows: seq<Row>, key: string, month: int): nat {
    if rows == [] then 0
    else UsageIn(rows[..|rows| - 1], key, month)
         + (var r := rows[|rows| - 1]; if r.caller == Some(key) && r.at.month == month then 1 else 0)
  }

  predicate Allows(rows: seq<Row>, key: string, plan: string, now: Stamp) {
    var limit := MonthlyLimit(plan);
    limit.Some? ==> UsageSince(rows, key, now.month) < limit.value
  }

  // ----- the system -----

  datatype System = System(rows: seq<Row>, inFlight: map<nat, string>, now: Stamp)

  datatype Exit = RateLimited | CacheHit | AuditFailed | RecordLost

  datatype Step =
    | Request(id: nat, key: string)   // the quota check of one request
    | Leave(id: nat, why: Exit)       // ends without a row
    | Record(id: nat)                 // audit done, row written
    | Anonymous                       // a public or paid audit, recorded without a caller
    | Tick(now: Stamp)

  /** `plans` is the plan of every key ever issued; it never changes for a key. */
  predicate Enabled(s: System, step: Step, plans: map<string, string>) {
    match step
    case Request(id, key) => id !in s.inFlight && key in plans
    case Leave(id, _) => id in s.inFlight
    case Record(id) => id in s.inFlight
    case Anonymous => true
    case Tick(now) => NotAfter(s.now, now)
  }

  function Do(s: System, step: Step, plans: map<string, string>): System
    requires Enabled(s, step, plans)
  {
    match step
    case Request(id, key) =>
      if Allows(s.rows, key, plans[key], s.now) then s.(inFlight := s.inFlight[id := key]) else s
    case Leave(id, _) => s.(inFlight := s.inFlight - {id})
    case Record(id) => s.(rows := s.rows + [Row(Some(s.inFlight[id]), s.now)], inFlight := s.inFlight - {id})
    case Anonymous => s.(rows := s.rows + [Row(None, s.now)])
    case Tick(now) => s.(now := now)
  }

  function Flying(s: System, key: string): set<nat> {
    set id | id in s.inFlight && s.inFlight[id] == key
  }

  /** A run in which never more than `c` requests of `key` are in flight. */
  ghost predicate Runs(s: System, steps: seq<Step>, s': System, plans: map<string, string>, key: string, c: nat)
    decreases |steps|
  {
    |Flying(s, key)| <= c
    && if steps == [] then s' == s
       else Enabled(s, steps[0], plans) && Runs(Do(s, steps[0], plans), steps[1..], s', plans, key, c)
  }

  function Start(now: Stamp): System {
    System([], map[], now)
  }

  // ----- the bound -----

  ghost predicate NoFuture(rows: seq<Row>, now: Stamp) {
    forall i :: 0 <= i < |rows| ==> NotAfter(rows[i].at, now)
  }

  /** What is used this month and what may still be recorded stay below the bound together. */
  ghost predicate Bounded(s: System, key: string, quota: nat, c: nat) {
    && NoFuture(s.rows, s.now)
    && UsageIn(s.rows, key, s.now.month) + |Flying(s, key)| <= quota - 1 + c
    && forall m :: UsageIn(s.rows, key, m) <= quota - 1 + c
  }

  lemma UsageAppend(rows: seq<Row>, r: Row, key: string, month: int)
    ensures UsageIn(rows + [r], key, month)
         == UsageIn(rows, key, month) + (if r.caller == Some(key) && r.at.month == month then 1 else 0)
  {
    assert (rows + [r])[..|rows|] == rows;
  }

  /** With no row from the future, "since the start of the month" means "this month". */
  lemma {:induction false} UsageSinceIsIn(rows: seq<Row>, key: string, now: Stamp)
    requires NoFuture(rows, now)
    ensures UsageSince(rows, key, now.month) == UsageIn(rows, key, now.month)
  {
    if rows != [] {
      UsageSinceIsIn(rows[..|rows| - 1], key, now);
    }
  }

  lemma {:induction false} NoUsageAhead(rows: seq<Row>, key: string, now: Stamp, month: int)
    requires NoFuture(rows, now) && month > now.month
    ensures UsageIn(rows, key, month) == 0
  {
    if rows != [] {
      NoUsageAhead(rows[..|rows| - 1], key, now, month);
    }
  }

  lemma FlyingLeaves(s: System, id: nat, key: string)
    requires id in s.inFlight
    ensures |Flying(s.(inFlight := s.inFlight - {id}), key)| == |Flying(s, key)| - (if s.inFlight[id] == key then 1 else 0)
  {
    assert Flying(s.(inFlight := s.inFlight - {id}), key) == Flying(s, key) - {id};
  }

  lemma FlyingEnters(s: System, id: nat, k: string, key: string)
    requires id !in s.inFlight
    ensures |Flying(s.(inFlight := s.inFlight[id := k]), key)| == |Flying(s, key)| + (if k == key then 1 else 0)
  {
    var s' := s.(inFlight := s.inFlight[id := k]);
    assert Flying(s', key) == if k == key then Flying(s, key) + {id} else Flying(s, key);
  }

  lemma SameFlying(s: System, s': System, key: string)
    requires s.inFlight == s'.inFlight
    ensures Flying(s, key) == Flying(s', key)
  {
  }

  lemma RecordBounded(s: System, id: nat, key: string, quota: nat, c: nat)
    requires Bounded(s, key, quota, c) && id in s.inFlight
    ensures Bounded(System(s.rows + [Row(Some(s.inFlight[id]), s.now)], s.inFlight - {id}, s.now), key, quota, c)
  {
    var r := Row(Some(s.inFlight[id]), s.now);
    var s' := System(s.rows + [r], s.inFlight - {id}, s.now);
    FlyingLeaves(s, id, key);
    SameFlying(s.(inFlight := s.inFlight - {id}), s', key);
    forall m ensures UsageIn(s'.rows, key, m) <= quota - 1 + c {
      UsageAppend(s.rows, r, key, m);
    }
    UsageAppend(s.rows, r, key, s.now.month);
  }

  lemma RequestBounded(s: System, id: nat, k: string, plans: map<string, string>, key: string, quota: nat, c: nat)
    requires key in plans && MonthlyLimit(plans[key]) == Some(quota)
    requires Bounded(s, key, quota, c) && Enabled(s, Request(id, k), plans)
    requires |Flying(Do(s, Request(id, k), plans), key)| <= c
    ensures Bounded(Do(s, Request(id, k), plans), key, quota, c)
  {
    UsageSinceIsIn(s.rows, key, s.now);
    FlyingEnters(s, id, k, key);
    hide UsageSince, UsageIn, Flying, MonthlyLimit;
  }

  lemma AnonymousBounded(s: System, key: string, quota: nat, c: nat)
    requires Bounded(s, key, quota, c)
    ensures Bounded(s.(rows := s.rows + [Row(None, s.now)]), key, quota, c)
  {
    var s' := s.(rows := s.rows + [Row(None, s.now)]);
    SameFlying(s, s', key);
    forall m ensures UsageIn(s'.rows, key, m) == UsageIn(s.rows, key, m) {
      UsageAppend(s.rows, Row(None, s.now), key, m);
    }
    hide UsageIn, Flying;
  }

  lemma StepBounded(s: System, step: Step, plans: map<string, string>, key: string, quota: nat, c: nat)
    requires Enabled(s, step, plans) && key in plans && MonthlyLimit(plans[key]) == Some(quota)
    requires Bounded(s, key, quota, c)
    requires |Flying(s, key)| <= c && |Flying(Do(s, step, plans), key)| <= c
    ensures Bounded(Do(s, step, plans), key, quota, c)
  {
    hide UsageSince, UsageIn, Flying, MonthlyLimit, Allows;
    match step
    case Request(id, k) =>
      RequestBounded(s, id, k, plans, key, quota, c);
    case Leave(id, _) =>
      FlyingLeaves(s, id, key);
    case Record(id) =>
      RecordBounded(s, id, key, quota, c);
    case Anonymous =>
      AnonymousBounded(s, key, quota, c);
    case Tick(now) =>
      SameFlying(s, Do(s, step, plans), key);
      if now.month > s.now.month {
        NoUsageAhead(s.rows, key, s.now, now.month);
      }
  }

  lemma {:induction false} RunsBounded(s: System, steps: seq<Step>, s': System, plans: map<string, string>, key: string, quota: nat, c: nat)
    requires key in plans && MonthlyLimit(plans[key]) == Some(quota)
    requires Bounded(s, key, quota, c) && Runs(s, steps, s', plans, key, c)
    ensures Bounded(s', key, quota, c)
    decreases |steps|
  {
    if steps != [] {
      StepBounded(s, steps[0], plans, key, quota, c);
      RunsBounded(Do(s, steps[0], plans), steps[1..], s', plans, key, quota, c);
    }
  }

  /** With at most `c` requests of a key in flight, no month ever records more than
      quota - 1 + c audits of it; exactly the quota when requests are served one by one. */
  lemma QuotaUnderConcurrency(now: Stamp, steps: seq<Step>, s: System, plans: map<string, string>, key: string, quota: nat, c: nat, month: int)
    requires key in plans && MonthlyLimit(plans[key]) == Some(quota)
    requires Runs(Start(now), steps, s, plans, key, c)
    ensures UsageIn(s.rows, key, month) <= quota - 1 + c
  {
    assert Flying(Start(now), key) == {};
    RunsBounded(Start(now), steps, s, plans, key, quota, c);
  }

  // ----- what the steps do -----

  predicate Counts(r: Row, key: string, month: int) { r.caller == Some(key) && r.at.month >= month }

  lemma {:induction false} UsageIsCount(rows: seq<Row>, key: string, month: int)
    ensures UsageSince(rows, key, month) == |set i: nat | i < |rows| && Counts(rows[i], key, month)|
  {
    var all := set i: nat | i < |rows| && Counts(rows[i], key, month);
    if rows == [] {
      assert all == {};
    } else {
      var n := |rows| - 1;
      UsageIsCount(rows[..n], key, month);
      assert UsageSince(rows, key, month) == UsageSince(rows[..n], key, month) + (if Counts(rows[n], key, month) then 1 else 0);
      CountOneMore(rows, key, month);
    }
  }

  lemma CountOneMore(rows: seq<Row>, key: string, month: int)
    requires rows != []
    ensures var n := |rows| - 1;
      |set i: nat | i < |rows| && Counts(rows[i], key, month)|
      == |set i: nat | i < n && Counts(rows[..n][i], key, month)| + (if Counts(rows[n], key, month) then 1 else 0)
  {
    hide Counts;
    var n := |rows| - 1;
    var all, before := set i: nat | i < |rows| && Counts(rows[i], key, month), set i: nat | i < n && Counts(rows[..n][i], key, month);
    assert n !in before;
    assert all == before + (if Counts(rows[n], key, month) then {n} else {});
  }

  /** A request takes off exactly when its plan is not listed or the rows of its caller since the
      start of the month are fewer than the plan allows; only the end of an audit writes a row of
      its caller, at its time; and a request stays in flight until it ends, with or without a row. */
  lemma StepMeans(s: System, step: Step, plans: map<string, string>)
    requires Enabled(s, step, plans)
    ensures var s' := Do(s, step, plans);
      && (step.Request? ==>
            && s'.rows == s.rows && s'.now == s.now
            && s'.inFlight == (if MonthlyLimit(plans[step.key]).None?
                                 || UsageSince(s.rows, step.key, s.now.month) < MonthlyLimit(plans[step.key]).value
                               then s.inFlight[step.id := step.key] else s.inFlight))
      && (step.Leave? ==> s' == System(s.rows, s.inFlight - {step.id}, s.now))
      && (step.Record? ==> s' == System(s.rows + [Row(Some(s.inFlight[step.id]), s.now)], s.inFlight - {step.id}, s.now))
      && (step.Anonymous? ==> s' == System(s.rows + [Row(None, s.now)], s.inFlight, s.now))
      && (step.Tick? ==> s' == System(s.rows, s.inFlight, step.now))
  {
  }

  // ----- the bound is reached -----

  lemma {:induction false} RunsSnoc(s: System, steps: seq<Step>, m: System, step: Step, plans: map<string, string>, key: string, c: nat)
    requires Runs(s, steps, m, plans, key, c) && Enabled(m, step, plans)
    requires |Flying(Do(m, step, plans), key)| <= c
    ensures Runs(s, steps + [step], Do(m, step, plans), plans, key, c)
    decreases |steps|
  {
    if steps == [] {
      assert ([] + [step])[1..] == [];
    } else {
      RunsSnoc(Do(s, steps[0], plans), steps[1..], m, step, plans, key, c);
      assert (steps + [step])[0] == steps[0] && (steps + [step])[1..] == steps[1..] + [step];
    }
  }

  // `used` rows of the month and the requests 0 .. flying-1 in flight.
  ghost predicate Stage(s: System, key: string, now: Stamp, used: nat, flying: nat) {
    && s.now == now
    && NoFuture(s.rows, now)
    && UsageIn(s.rows, key, now.month) == used
    && (forall id: nat :: id in s.inFlight <==> id < flying)
    && (forall id :: id in s.inFlight ==> s.inFlight[id] == key)
  }

  lemma {:induction false} StageFlying(s: System, key: string, now: Stamp, used: nat, flying: nat)
    requires Stage(s, key, now, used, flying)
    ensures |Flying(s, key)| == flying
    decreases flying
  {
    if flying == 0 {
      assert Flying(s, key) == {};
    } else {
      var id := flying - 1;
      var less := s.(inFlight := s.inFlight - {id});
      StageFlying(less, key, now, used, id);
      FlyingLeaves(s, id, key);
    }
  }

  /** One more request passes the check while the month has room. */
  lemma Launch(s: System, key: string, now: Stamp, used: nat, flying: nat, plans: map<string, string>, quota: nat)
    requires key in plans && MonthlyLimit(plans[key]) == Some(quota) && used < quota
    requires Stage(s, key, now, used, flying)
    ensures Enabled(s, Request(flying, key), plans)
    ensures Stage(Do(s, Request(flying, key), plans), key, now, used, flying + 1)
  {
    UsageSinceIsIn(s.rows, key, now);
  }

  /** The newest request in flight writes its row. */
  lemma Land(s: System, key: string, now: Stamp, used: nat, flying: nat, plans: map<string, string>)
    requires Stage(s, key, now, used, flying + 1)
    ensures Enabled(s, Record(flying), plans)
    ensures Stage(Do(s, Record(flying), plans), key, now, used + 1, flying)
  {
    UsageAppend(s.rows, Row(Some(key), now), key, now.month);
  }

  lemma {:induction false} ServeOneByOne(now: Stamp, key: string, plans: map<string, string>, quota: nat, c: nat, n: nat)
    returns (steps: seq<Step>, s: System)
    requires key in plans && MonthlyLimit(plans[key]) == Some(quota) && n < quota && c >= 1
    ensures Runs(Start(now), steps, s, plans, key, c) && Stage(s, key, now, n, 0)
  {
    if n == 0 {
      steps, s := [], Start(now);
      StageFlying(s, key, now, 0, 0);
    } else {
      steps, s := ServeOneByOne(now, key, plans, quota, c, n - 1);
      steps, s := LaunchStep(now, key, plans, quota, c, n - 1, 0, steps, s);
      steps, s := LandStep(now, key, plans, c, n - 1, 0, steps, s);
    }
  }

  lemma LaunchStep(now: Stamp, key: string, plans: map<string, string>, quota: nat, c: nat, used: nat, flying: nat, steps: seq<Step>, s: System)
    returns (steps': seq<Step>, s': System)
    requires key in plans && MonthlyLimit(plans[key]) == Some(quota) && used < quota && flying < c
    requires Runs(Start(now), steps, s, plans, key, c) && Stage(s, key, now, used, flying)
    ensures Runs(Start(now), steps', s', plans, key, c) && Stage(s', key, now, used, flying + 1)
  {
    Launch(s, key, now, used, flying, plans, quota);
    steps', s' := steps + [Request(flying, key)], Do(s, Request(flying, key), plans);
    StageFlying(s', key, now, used, flying + 1);
    RunsSnoc(Start(now), steps, s, Request(flying, key), plans, key, c);
  }

  lemma LandStep(now: Stamp, key: string, plans: map<string, string>, c: nat, used: nat, flying: nat, steps: seq<Step>, s: System)
    returns (steps': seq<Step>, s': System)
    requires flying < c
    requires Runs(Start(now), steps, s, plans, key, c) && Stage(s, key, now, used, flying + 1)
    ensures Runs(Start(now), steps', s', plans, key, c) && Stage(s', key, now, used + 1, flying)
  {
    Land(s, key, now, used, flying, plans);
    steps', s' := steps + [Record(flying)], Do(s, Record(flying), plans);
    StageFlying(s', key, now, used + 1, flying);
    RunsSnoc(Start(now), steps, s, Record(flying), plans, key, c);
  }

  /** The bound is exact: for every plan and every c >= 1 some run reaches it. */
  lemma QuotaBoundIsReached(now: Stamp, key: string, plans: map<string, string>, quota: nat, c: nat)
    requires key in plans && MonthlyLimit(plans[key]) == Some(quota) && c >= 1
    ensures exists steps, s :: Runs(Start(now), steps, s, plans, key, c) && UsageIn(s.rows, key, now.month) == quota - 1 + c
  {
    var steps, s := ServeOneByOne(now, key, plans, quota, c, quota - 1);
    for n := 0 to c
      invariant Runs(Start(now), steps, s, plans, key, c) && Stage(s, key, now, quota - 1, n)
    {
      steps, s := LaunchStep(now, key, plans, quota, c, quota - 1, n, steps, s);
    }
    for n := 0 to c
      invariant Runs(Start(now), steps, s, plans, key, c) && Stage(s, key, now, quota - 1 + n, c - n)
    {
      steps, s := LandStep(now, key, plans, c, quota - 1 + n, c - n - 1, steps, s);
    }
  }

  // ----- the store -----

  class AuditLog {
    var rows: seq<Row>

    constructor ()
      ensures rows == []
    {
      rows := [];
    }

    /** `record_audit`: append one row, or swallow the database error. */
    method RecordAudit(caller: Option<string>, now: Stamp, broken: bool)
      modifies this
      ensures rows == if broken then old(rows) else old(rows) + [Row(caller, now)]
    {
      if broken {
        return;
      }
      rows := rows + [Row(caller, now)];
    }

    /** `usage_this_month` */
    method UsageThisMonth(key: string, now: Stamp) returns (used: nat)
      ensures used == UsageSince(rows, key, now.month)
      ensures used == |set i: nat | i < |rows| && Counts(rows[i], key, now.month)|
    {
      UsageIsCount(rows, key, now.month);
      used := 0;
      for i := 0 to |rows|
        invariant used == UsageSince(rows[..i], key, now.month)
      {
        if rows[i].caller == Some(key) && rows[i].at.month >= now.month {
          used := used + 1;
        }
        assert rows[..i + 1][..i] == rows[..i];
      }
      assert rows[..|rows|] == rows;
    }

    /** `quota_allows` */
    method QuotaAllows(key: string, plan: string, now: Stamp) returns (ok: bool)
      ensures ok <==> Allows(rows, key, plan, now)
      ensures ok <==> plan !in {"free", "pro", "enterprise"}
                      || UsageSince(rows, key, now.month) < (if plan == "free" then 100 else if plan == "pro" then 500 else 5000)
    {
      var limit := MonthlyLimit(plan);
      if limit.None? {
        return true;
      }
      var used := UsageThisMonth(key, now);
      return used < limit.value;
    }
  }
}
