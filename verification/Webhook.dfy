/** Key minting from Stripe webhooks (api_server/app.py, `stripe_webhook`) on a shared database.

    Any number of deliveries of any number of checkout events run side by side on any number
    of replicas.  Each delivery moves in small steps: look for a claim, resolve the plan and
    the buyer, try to link the purchase to an account, fall back to an anonymous key.  Between
    two steps of one delivery anything else may happen, including revocations.  The database
    is the only lock.  A statement may also fail for outside reasons, before or after it has
    taken effect. */
module Webhook {
  import opened Wrappers
  import opened Database

  // ----- resolving the purchase -----

  function Price(plan: string): Option<int> {
    if plan == "free" then Some(0)
    else if plan == "pro" then Some(900)
    else if plan == "enterprise" then Some(4900)
    else None
  }

  predicate Known(plan: string) { Price(plan).Some? }

  /** What Stripe says about a session; `account` is the id in "user:<id>", if there is one. */
  datatype Detail = Detail(planTag: Option<string>, amountTotal: int, customer: Option<string>, account: Option<int>)

  /** The metadata plan if it is known, else the paid plan with that price. */
  function ResolvePlan(detail: Detail): (plan: Option<string>)
    ensures detail.planTag.Some? && Known(detail.planTag.value) ==> plan == detail.planTag
    ensures plan.Some? ==> Known(plan.value)
    ensures plan.None? <==> (detail.planTag.None? || !Known(detail.planTag.value)) && detail.amountTotal !in {900, 4900}
    ensures plan.Some? && (detail.planTag.None? || !Known(detail.planTag.value)) ==>
              Price(plan.value) == Some(detail.amountTotal) && plan.value != "free"
  {
    if detail.planTag.Some? && Known(detail.planTag.value) then detail.planTag
    else if detail.amountTotal == 4900 then Some("enterprise")
    else if detail.amountTotal == 900 then Some("pro")
    else None
  }

  // ----- the system -----

  datatype Delivery =
    | Received(session: string)
    | Unclaimed(session: string)
    | ToLink(session: string, plan: string, customer: Option<string>, user: int)
    | ToIssue(session: string, plan: string, customer: Option<string>)
    | Answered(session: string, minted: bool)
    | Failed(session: string)  // the exception reached the client as a 500

  /** What was committed for which session: a key sold, or a sold key deleted again. */
  datatype Event = Sold(session: string, token: string) | Dropped(session: string, token: string)

  /** `soldTo` and `log` are bookkeeping: which live key was sold in which session, and
      every commit so far. */
  datatype System = System(db: Db, deliveries: map<nat, Delivery>, soldTo: map<string, string>, log: seq<Event>)

  // A fault strikes a transaction before it commits, or after it (the answer is lost).
  datatype Fault = NoFault | BeforeCommit | AfterCommit

  datatype Step =
    | Deliver(id: nat, session: string)
    | CheckClaim(id: nat)
    | Resolve(id: nat, detail: Option<Detail>)
    | TryLink(id: nat, token: string, now: Time, fault: Fault)
    | TryIssue(id: nat, token: string, now: Time, fault: Fault)
    | AdminIssue(token: string, plan: string, now: Time)
    | UserKey(user: int, token: string, plan: string)
    | Revoke(token: string)
    | View(session: string, now: Time)
    | SignUp(user: int, row: UserRow)

  predicate Enabled(s: System, step: Step) {
    match step
    case Deliver(id, session) => id !in s.deliveries && session != ""
    case CheckClaim(id) => id in s.deliveries && s.deliveries[id].Received?
    case Resolve(id, _) => id in s.deliveries && s.deliveries[id].Unclaimed?
    case TryLink(id, _, _, _) => id in s.deliveries && s.deliveries[id].ToLink?
    case TryIssue(id, _, _, _) => id in s.deliveries && s.deliveries[id].ToIssue?
    case SignUp(user, _) => user !in s.db.users
    case _ => true
  }

  function Put(s: System, id: nat, d: Delivery): System {
    s.(deliveries := s.deliveries[id := d])
  }

  /** The database after a sale, recorded. */
  function Sell(s: System, db: Db, session: string, token: string): System {
    s.(db := db, soldTo := s.soldTo[token := session], log := s.log + [Sold(session, token)])
  }

  function Resolved(s: System, id: nat, session: string, detail: Option<Detail>): Delivery {
    if detail.None? || ResolvePlan(detail.value).None? then Answered(session, false)
    else
      var plan, d := ResolvePlan(detail.value).value, detail.value;
      if d.account.Some? && d.account.value in s.db.users then ToLink(session, plan, d.customer, d.account.value)
      else ToIssue(session, plan, d.customer)
  }

  function Linked(s: System, step: Step): System
    requires step.TryLink? && Enabled(s, step)
  {
    var d := s.deliveries[step.id];
    var tx := LinkTx(s.db, d.user, step.token, d.plan, d.customer, d.session, step.now);
    var fallback := ToIssue(d.session, d.plan, d.customer);
    if step.fault.BeforeCommit? || tx.Failure? then Put(s, step.id, fallback)
    else if step.fault.AfterCommit? then Put(Sell(s, tx.value, d.session, step.token), step.id, fallback)
    else Put(Sell(s, tx.value, d.session, step.token), step.id, Answered(d.session, true))
  }

  function Issued(s: System, step: Step): System
    requires step.TryIssue? && Enabled(s, step)
  {
    var d := s.deliveries[step.id];
    var tx := IssueTx(s.db, step.token, d.plan, d.customer, d.session, step.now);
    if step.fault.BeforeCommit? || tx.Failure? then Put(s, step.id, Failed(d.session))
    else if step.fault.AfterCommit? then Put(Sell(s, tx.value, d.session, step.token), step.id, Failed(d.session))
    else Put(Sell(s, tx.value, d.session, step.token), step.id, Answered(d.session, true))
  }

  function Revoked(s: System, token: string): System {
    s.(db := DeleteKey(s.db, token),
       soldTo := s.soldTo - {token},
       log := if token in s.soldTo then s.log + [Dropped(s.soldTo[token], token)] else s.log)
  }

  function Do(s: System, step: Step): System
    requires Enabled(s, step)
  {
    match step
    case Deliver(id, session) => Put(s, id, Received(session))
    case CheckClaim(id) =>
      var session := s.deliveries[id].session;
      Put(s, id, if session in s.db.claims then Answered(session, false) else Unclaimed(session))
    case Resolve(id, detail) =>
      Put(s, id, Resolved(s, id, s.deliveries[id].session, detail))
    case TryLink(_, _, _, _) => Linked(s, step)
    case TryIssue(_, _, _, _) => Issued(s, step)
    case AdminIssue(token, plan, now) =>
      var tx := IssueTx(s.db, token, plan, None, "", now);
      if tx.Success? then s.(db := tx.value) else s
    case UserKey(user, token, plan) =>
      var tx := InsertKey(s.db, token, KeyRow(plan, None, Some(user)));
      if tx.Success? then s.(db := tx.value) else s
    case Revoke(token) => Revoked(s, token)
    case View(session, now) => s.(db := MarkClaimed(s.db, session, now))
    case SignUp(user, row) => s.(db := s.db.(users := s.db.users[user := row]))
  }

  // ----- the invariant -----

  function Sales(log: seq<Event>, session: string): nat {
    if log == [] then 0
    else Sales(log[..|log| - 1], session) + (var e := log[|log| - 1]; if e.Sold? && e.session == session then 1 else 0)
  }

  function Drops(log: seq<Event>, session: string): nat {
    if log == [] then 0
    else Drops(log[..|log| - 1], session) + (var e := log[|log| - 1]; if e.Dropped? && e.session == session then 1 else 0)
  }

  function Minting(s: System, session: string): set<nat> {
    set id | id in s.deliveries && s.deliveries[id] == Answered(session, true)
  }

  /** Claims and live sold keys match one to one. */
  ghost predicate Paired(s: System) {
    && (forall t :: t in s.soldTo ==>
          t in s.db.keys && s.soldTo[t] in s.db.claims && s.db.claims[s.soldTo[t]].apiKey == t)
    && (forall c :: c in s.db.claims ==>
          s.db.claims[c].apiKey in s.soldTo && s.soldTo[s.db.claims[c].apiKey] == c)
  }

  /** Every sale is either still claimed or was dropped by a revocation. */
  ghost predicate Balanced(s: System) {
    forall c :: Sales(s.log, c) == Drops(s.log, c) + (if c in s.db.claims then 1 else 0)
  }

  /** Nobody reports a key that was not sold, and sessions in progress have a name. */
  ghost predicate Honest(s: System) {
    && (forall c :: |Minting(s, c)| <= Sales(s.log, c))
    && (forall id :: id in s.deliveries ==> s.deliveries[id].session != "")
  }

  ghost predicate Inv(s: System) {
    Consistent(s.db) && Paired(s) && Balanced(s) && Honest(s)
  }

  function Start(users: map<int, UserRow>): System {
    System(Db(map[], map[], users), map[], map[], [])
  }

  lemma StartInv(users: map<int, UserRow>)
    ensures Inv(Start(users))
  {
    forall c ensures Minting(Start(users), c) == {} {}
  }

  lemma LogGrows(log: seq<Event>, e: Event, c: string)
    ensures Sales(log + [e], c) == Sales(log, c) + (if e.Sold? && e.session == c then 1 else 0)
    ensures Drops(log + [e], c) == Drops(log, c) + (if e.Dropped? && e.session == c then 1 else 0)
  {
    assert (log + [e])[..|log|] == log;
  }

  /** Moving one delivery changes at most one membership. */
  lemma PutMinting(s: System, id: nat, d: Delivery, c: string)
    requires id in s.deliveries ==> s.deliveries[id] != Answered(c, true)
    ensures |Minting(Put(s, id, d), c)| == |Minting(s, c)| + (if d == Answered(c, true) then 1 else 0)
  {
    var before, after := Minting(s, c), Minting(Put(s, id, d), c);
    if d == Answered(c, true) {
      assert after == before + {id} && id !in before;
    } else {
      assert after == before;
    }
  }

  /** A step that only moves a delivery without a sale keeps everything else. */
  lemma MoveInv(s: System, id: nat, d: Delivery)
    requires Inv(s) && d.session != "" && !(d.Answered? && d.minted)
    requires id in s.deliveries ==> !s.deliveries[id].Answered?
    ensures Inv(Put(s, id, d))
  {
    forall c ensures |Minting(Put(s, id, d), c)| == |Minting(s, c)| {
      PutMinting(s, id, d, c);
    }
  }

  lemma MintingUnmoved(s: System, s': System, c: string)
    requires s'.deliveries == s.deliveries
    ensures Minting(s', c) == Minting(s, c)
  {
  }

  // The tables after a sale: one more key, one more claim pointing to it.
  ghost predicate OneSale(before: Db, after: Db, session: string, token: string) {
    && session !in before.claims && token !in before.keys && session != ""
    && token in after.keys && before.keys.Keys <= after.keys.Keys
    && session in after.claims && after.claims[session].apiKey == token
    && after.claims == before.claims[session := after.claims[session]]
  }

  lemma SellPaired(s: System, db: Db, session: string, token: string)
    requires Paired(s) && Consistent(s.db) && OneSale(s.db, db, session, token)
    ensures Paired(Sell(s, db, session, token))
  {
  }

  lemma SellCounts(s: System, db: Db, session: string, token: string, id: nat, d: Delivery)
    requires Balanced(s) && Honest(s) && OneSale(s.db, db, session, token)
    requires id in s.deliveries && !s.deliveries[id].Answered?
    requires d.session == session
    ensures Balanced(Put(Sell(s, db, session, token), id, d)) && Honest(Put(Sell(s, db, session, token), id, d))
  {
    var sold := Sell(s, db, session, token);
    forall c
      ensures Sales(sold.log, c) == Drops(sold.log, c) + (if c in db.claims then 1 else 0)
      ensures |Minting(Put(sold, id, d), c)| <= Sales(sold.log, c)
    {
      LogGrows(s.log, Sold(session, token), c);
      MintingUnmoved(s, sold, c);
      PutMinting(sold, id, d, c);
    }
  }

  lemma SellInv(s: System, db: Db, session: string, token: string, id: nat, d: Delivery)
    requires Inv(s) && Consistent(db) && OneSale(s.db, db, session, token)
    requires id in s.deliveries && !s.deliveries[id].Answered?
    requires d.session == session
    ensures Inv(Put(Sell(s, db, session, token), id, d))
  {
    hide OneSale, Balanced, Honest, Consistent;
    SellPaired(s, db, session, token);
    SellCounts(s, db, session, token, id, d);
  }

  lemma NamedSession(s: System, id: nat)
    requires Inv(s) && id in s.deliveries
    ensures s.deliveries[id].session != ""
  {
  }

  lemma RevokeInv(s: System, token: string)
    requires Inv(s)
    ensures Inv(Revoked(s, token))
  {
    var s' := Revoked(s, token);
    KeyDeletionIsConsistent(s.db, token);
    forall c
      ensures Sales(s'.log, c) == Drops(s'.log, c) + (if c in s'.db.claims then 1 else 0)
      ensures |Minting(s', c)| <= Sales(s'.log, c)
    {
      MintingUnmoved(s, s', c);
      if token in s.soldTo {
        LogGrows(s.log, Dropped(s.soldTo[token], token), c);
      }
    }
  }

  /** A database step that adds keys without claims, or touches only users and view stamps. */
  lemma SideInv(s: System, db: Db)
    requires Inv(s) && Consistent(db)
    requires s.db.keys.Keys <= db.keys.Keys && db.claims.Keys == s.db.claims.Keys
    requires forall c :: c in db.claims ==> db.claims[c].apiKey == s.db.claims[c].apiKey
    ensures Inv(s.(db := db))
  {
    forall c ensures Minting(s.(db := db), c) == Minting(s, c) {
      MintingUnmoved(s, s.(db := db), c);
    }
  }

  lemma StepInv(s: System, step: Step)
    requires Inv(s) && Enabled(s, step)
    ensures Inv(Do(s, step))
  {
    hide Inv;
    match step
    case Deliver(id, session) =>
      MoveInv(s, id, Received(session));
    case CheckClaim(id) =>
      NamedSession(s, id);
      MoveInv(s, id, Do(s, step).deliveries[id]);
    case Resolve(id, detail) =>
      NamedSession(s, id);
      MoveInv(s, id, Do(s, step).deliveries[id]);
    case TryLink(_, _, _, _) => LinkInv(s, step);
    case TryIssue(_, _, _, _) => IssueInv(s, step);
    case Revoke(token) => RevokeInv(s, token);
    case _ => OtherInv(s, step);
  }

  lemma LinkIsOneSale(db: Db, user: int, token: string, plan: string, customer: Option<string>, session: string, now: Time)
    requires session != "" && LinkTx(db, user, token, plan, customer, session, now).Success?
    ensures OneSale(db, LinkTx(db, user, token, plan, customer, session, now).value, session, token)
  {
  }

  lemma IssueIsOneSale(db: Db, token: string, plan: string, customer: Option<string>, session: string, now: Time)
    requires session != "" && IssueTx(db, token, plan, customer, session, now).Success?
    ensures OneSale(db, IssueTx(db, token, plan, customer, session, now).value, session, token)
  {
  }

  lemma LinkInv(s: System, step: Step)
    requires Inv(s) && step.TryLink? && Enabled(s, step)
    ensures Inv(Linked(s, step))
  {
    var d := s.deliveries[step.id];
    var tx := LinkTx(s.db, d.user, step.token, d.plan, d.customer, d.session, step.now);
    LinkIsConsistent(s.db, d.user, step.token, d.plan, d.customer, d.session, step.now);
    NamedSession(s, step.id);
    hide Inv, LinkTx, OneSale, Consistent;
    if step.fault.BeforeCommit? || tx.Failure? {
      MoveInv(s, step.id, ToIssue(d.session, d.plan, d.customer));
    } else {
      LinkIsOneSale(s.db, d.user, step.token, d.plan, d.customer, d.session, step.now);
      SellInv(s, tx.value, d.session, step.token, step.id, Linked(s, step).deliveries[step.id]);
    }
  }

  lemma IssueInv(s: System, step: Step)
    requires Inv(s) && step.TryIssue? && Enabled(s, step)
    ensures Inv(Issued(s, step))
  {
    var d := s.deliveries[step.id];
    var tx := IssueTx(s.db, step.token, d.plan, d.customer, d.session, step.now);
    IssueIsConsistent(s.db, step.token, d.plan, d.customer, d.session, step.now);
    NamedSession(s, step.id);
    hide Inv, IssueTx, OneSale, Consistent;
    if step.fault.BeforeCommit? || tx.Failure? {
      MoveInv(s, step.id, Failed(d.session));
    } else {
      IssueIsOneSale(s.db, step.token, d.plan, d.customer, d.session, step.now);
      SellInv(s, tx.value, d.session, step.token, step.id, Issued(s, step).deliveries[step.id]);
    }
  }

  // Steps that add unsold keys, stamp a viewed claim or add a user.
  predicate Aside(step: Step) {
    step.AdminIssue? || step.UserKey? || step.View? || step.SignUp?
  }

  lemma AsideIsConsistent(s: System, step: Step)
    requires Consistent(s.db) && Enabled(s, step) && Aside(step)
    ensures Consistent(Do(s, step).db)
  {
    if step.AdminIssue? {
      IssueIsConsistent(s.db, step.token, step.plan, None, "", step.now);
    }
  }

  lemma AsideKeepsClaims(s: System, step: Step)
    requires Enabled(s, step) && Aside(step)
    ensures Do(s, step) == s.(db := Do(s, step).db)
    ensures s.db.keys.Keys <= Do(s, step).db.keys.Keys && Do(s, step).db.claims.Keys == s.db.claims.Keys
    ensures forall c :: c in s.db.claims ==> Do(s, step).db.claims[c].apiKey == s.db.claims[c].apiKey
  {
  }

  lemma OtherInv(s: System, step: Step)
    requires Inv(s) && Enabled(s, step) && Aside(step)
    ensures Inv(Do(s, step))
  {
    hide Do, Consistent, Paired, Balanced, Honest;
    AsideIsConsistent(s, step);
    AsideKeepsClaims(s, step);
    SideInv(s, Do(s, step).db);
  }

  // ----- whole runs -----

  ghost predicate Runs(s: System, steps: seq<Step>, s': System)
    decreases |steps|
  {
    if steps == [] then s' == s
    else Enabled(s, steps[0]) && Runs(Do(s, steps[0]), steps[1..], s')
  }

  /** Every reachable state satisfies the invariant, whatever the interleaving. */
  lemma {:induction false} RunsKeepInv(s: System, steps: seq<Step>, s': System)
    requires Inv(s) && Runs(s, steps, s')
    ensures Inv(s')
    decreases |steps|
  {
    if steps != [] {
      StepInv(s, steps[0]);
      RunsKeepInv(Do(s, steps[0]), steps[1..], s');
    }
  }

  // ----- keys over a run -----

  predicate Inserts(step: Step, token: string) {
    (step.TryLink? || step.TryIssue? || step.AdminIssue? || step.UserKey?) && step.token == token
  }

  /** Only an insertion of the token creates a key, only a revocation of it takes one away,
      and no step rewrites the row of a key. */
  lemma KeyChanges(s: System, step: Step, token: string)
    requires Enabled(s, step)
    ensures token in s.db.keys && step != Revoke(token) ==>
              token in Do(s, step).db.keys && Do(s, step).db.keys[token] == s.db.keys[token]
    ensures token !in s.db.keys && !Inserts(step, token) ==> token !in Do(s, step).db.keys
    ensures step == Revoke(token) ==> token !in Do(s, step).db.keys
  {
    hide LinkTx, IssueTx, DeleteKey, InsertKey;
    if step.TryLink? {
      LinkKeys(s.db, s.deliveries[step.id], step.token, step.now, token);
    } else if step.TryIssue? {
      var d := s.deliveries[step.id];
      IssueKeys(s.db, step.token, d.plan, d.customer, d.session, step.now, token);
    } else if step.AdminIssue? {
      IssueKeys(s.db, step.token, step.plan, None, "", step.now, token);
    } else if step.UserKey? {
      InsertKeys(s.db, step.token, KeyRow(step.plan, None, Some(step.user)), token);
    } else if step.Revoke? {
      DeletedKeyIsGone(s.db, step.token);
    }
  }

  lemma LinkKeys(db: Db, d: Delivery, token: string, now: Time, t: string)
    requires d.ToLink?
    ensures var tx := LinkTx(db, d.user, token, d.plan, d.customer, d.session, now);
      tx.Success? ==> (t in db.keys ==> t in tx.value.keys && tx.value.keys[t] == db.keys[t])
                      && (t !in db.keys && t != token ==> t !in tx.value.keys)
  {
  }

  lemma IssueKeys(db: Db, token: string, plan: string, customer: Option<string>, session: string, now: Time, t: string)
    ensures var tx := IssueTx(db, token, plan, customer, session, now);
      tx.Success? ==> (t in db.keys ==> t in tx.value.keys && tx.value.keys[t] == db.keys[t])
                      && (t !in db.keys && t != token ==> t !in tx.value.keys)
  {
  }

  lemma InsertKeys(db: Db, token: string, row: KeyRow, t: string)
    ensures var tx := InsertKey(db, token, row);
      tx.Success? ==> (t in db.keys ==> t in tx.value.keys && tx.value.keys[t] == db.keys[t])
                      && (t !in db.keys && t != token ==> t !in tx.value.keys)
  {
  }

  lemma {:induction false} KeyStaysUntilRevoked(s: System, steps: seq<Step>, s': System, token: string)
    requires Runs(s, steps, s') && token in s.db.keys && Revoke(token) !in steps
    ensures token in s'.db.keys && s'.db.keys[token] == s.db.keys[token]
    decreases |steps|
  {
    if steps != [] {
      KeyChanges(s, steps[0], token);
      KeyStaysUntilRevoked(Do(s, steps[0]), steps[1..], s', token);
    }
  }

  /** A live key was there before the run, or a step of the run inserted it; and no later step
      has revoked it. */
  lemma {:induction false} LiveKeyWasInserted(s: System, steps: seq<Step>, s': System, token: string) returns (k: int)
    requires Runs(s, steps, s') && token in s'.db.keys
    ensures -1 <= k < |steps| && (if k == -1 then token in s.db.keys else Inserts(steps[k], token))
    ensures forall j :: k < j < |steps| ==> steps[j] != Revoke(token)
    decreases |steps|
  {
    k := -1;
    if steps != [] {
      var later := LiveKeyWasInserted(Do(s, steps[0]), steps[1..], s', token);
      KeyChanges(s, steps[0], token);
      k := if later >= 0 then later + 1 else if Inserts(steps[0], token) then 0 else -1;
      assert forall j :: 0 < j < |steps| ==> steps[j] == steps[1..][j - 1];
    }
  }

  lemma LogChanges(s: System, step: Step, e: Event)
    requires Enabled(s, step) && e.Dropped? && e in Do(s, step).log
    ensures e in s.log || step == Revoke(e.token)
  {
  }

  lemma {:induction false} DroppedMeansRevoked(s: System, steps: seq<Step>, s': System, e: Event) returns (j: int)
    requires Runs(s, steps, s') && e.Dropped? && e in s'.log
    ensures -1 <= j < |steps| && (if j == -1 then e in s.log else steps[j] == Revoke(e.token))
    decreases |steps|
  {
    j := -1;
    if steps != [] {
      var later := DroppedMeansRevoked(Do(s, steps[0]), steps[1..], s', e);
      if later >= 0 {
        j := later + 1;
      } else {
        LogChanges(s, steps[0], e);
        j := if e in s.log then -1 else 0;
      }
    }
  }

  /** A sold key that was revoked is live again only if a step after the revocation inserts
      the same token once more. */
  lemma DroppedKeyIsGone(users: map<int, UserRow>, steps: seq<Step>, s: System, c: string, token: string)
    requires Runs(Start(users), steps, s) && Dropped(c, token) in s.log && token in s.db.keys
    ensures exists j, k :: 0 <= j < k < |steps| && steps[j] == Revoke(token) && Inserts(steps[k], token)
  {
    var j := DroppedMeansRevoked(Start(users), steps, s, Dropped(c, token));
    var k := LiveKeyWasInserted(Start(users), steps, s, token);
    assert steps[j] == Revoke(token) && Inserts(steps[k], token);
  }

  /** Whatever the revocation found, its key is gone unless a later step inserts it again. */
  lemma RevokedKeyIsGone(s: System, steps: seq<Step>, s': System, token: string, j: nat)
    requires Runs(s, steps, s') && j < |steps| && steps[j] == Revoke(token)
    requires forall k :: j < k < |steps| ==> !Inserts(steps[k], token)
    ensures token !in s'.db.keys
  {
    if token in s'.db.keys {
      var k := LiveKeyWasInserted(s, steps, s', token);
    }
  }

  // ----- what is sold over a run -----

  /** Exactly the purchase that Stripe reported went into the tables: the resolved plan, the
      customer, the session, and for an owner (who must be the account named in the session)
      the upgrade.  Everything else is as before. */
  ghost predicate Bought(before: Db, after: Db, session: string, detail: Detail, token: string, owner: Option<int>, now: Time) {
    && token !in before.keys && session !in before.claims
    && ResolvePlan(detail).Some?
    && var plan := ResolvePlan(detail).value;
       && after.keys == before.keys[token := KeyRow(plan, detail.customer, owner)]
       && after.claims == before.claims[session := ClaimRow(plan, token, detail.customer, now, None)]
       && (owner.None? ==> after.users == before.users)
       && (owner.Some? ==> owner == detail.account && owner.value in before.users
                           && after.users == before.users[owner.value := Upgraded(before.users[owner.value], plan, detail.customer)])
  }

  /** The delivery of a session whose details were these. */
  predicate Carries(d: Delivery, detail: Detail) {
    && (d.ToLink? || d.ToIssue?)
    && ResolvePlan(detail) == Some(d.plan) && d.customer == detail.customer
    && (d.ToLink? ==> detail.account == Some(d.user))
  }

  /** Step k of the run looked the session of this delivery up, and the delivery carries what it saw. */
  predicate TellsAt(past: seq<Step>, k: nat, id: nat, d: Delivery) {
    k < |past| && past[k].Resolve? && past[k].id == id && past[k].detail.Some? && Carries(d, past[k].detail.value)
  }

  /** Every delivery about to sell carries what its own look at Stripe said. */
  ghost predicate Told(s: System, past: seq<Step>) {
    forall id :: id in s.deliveries && (s.deliveries[id].ToLink? || s.deliveries[id].ToIssue?) ==>
      exists k :: TellsAt(past, k, id, s.deliveries[id])
  }

  lemma StepTold(s: System, past: seq<Step>, step: Step)
    requires Told(s, past) && Enabled(s, step)
    ensures Told(Do(s, step), past + [step])
  {
    var s', all := Do(s, step), past + [step];
    forall id | id in s'.deliveries && (s'.deliveries[id].ToLink? || s'.deliveries[id].ToIssue?)
      ensures exists k :: TellsAt(all, k, id, s'.deliveries[id])
    {
      if step.Resolve? && step.id == id {
        assert TellsAt(all, |past|, id, s'.deliveries[id]);
      } else {
        var k :| TellsAt(past, k, id, s.deliveries[id]);
        assert TellsAt(all, k, id, s'.deliveries[id]);
      }
    }
  }

  lemma {:induction false} RunTold(s: System, past: seq<Step>, steps: seq<Step>, s': System)
    requires Told(s, past) && Runs(s, steps, s')
    ensures Told(s', past + steps)
    decreases |steps|
  {
    if steps == [] {
      assert past + steps == past;
    } else {
      StepTold(s, past, steps[0]);
      RunTold(Do(s, steps[0]), past + [steps[0]], steps[1..], s');
      assert past + [steps[0]] + steps[1..] == past + steps;
    }
  }

  /** A look at Stripe that fails, or that names no plan, ends the delivery without a key.  Else it
      goes on to sell what Stripe said, to the account named if there is such a user. */
  lemma ResolveDecides(s: System, id: nat, detail: Option<Detail>)
    requires Enabled(s, Resolve(id, detail))
    ensures var d := Do(s, Resolve(id, detail)).deliveries[id];
      && d.session == s.deliveries[id].session
      && (detail.None? || ResolvePlan(detail.value).None? ==> d == Answered(d.session, false))
      && (detail.Some? && ResolvePlan(detail.value).Some? ==>
            && Carries(d, detail.value)
            && (d.ToLink? <==> detail.value.account.Some? && detail.value.account.value in s.db.users))
  {
  }

  lemma LinkBuys(s: System, step: Step, detail: Detail)
    requires step.TryLink? && Enabled(s, step) && Carries(s.deliveries[step.id], detail)
    requires Linked(s, step).db != s.db
    ensures Bought(s.db, Linked(s, step).db, s.deliveries[step.id].session, detail, step.token, detail.account, step.now)
    ensures detail.account.Some?
  {
  }

  lemma IssueBuys(s: System, step: Step, detail: Detail)
    requires step.TryIssue? && Enabled(s, step) && Carries(s.deliveries[step.id], detail)
    requires s.deliveries[step.id].session != "" && Issued(s, step).db != s.db
    ensures Bought(s.db, Issued(s, step).db, s.deliveries[step.id].session, detail, step.token, None, step.now)
  {
  }

  lemma OnlySalesClaim(s: System, step: Step, session: string)
    requires Enabled(s, step) && session !in s.db.claims && session in Do(s, step).db.claims
    ensures step.TryLink? || step.TryIssue?
    ensures s.deliveries[step.id].session == session && Do(s, step).db != s.db
  {
  }

  /** Every claim that ever appears, in whatever interleaving and with whatever faults, is the
      purchase Stripe reported to the delivery that made it. */
  lemma EverySaleIsWhatStripeSaid(users: map<int, UserRow>, steps: seq<Step>, s: System, step: Step, session: string)
    returns (k: nat, owner: Option<int>)
    requires Runs(Start(users), steps, s) && Enabled(s, step)
    requires session !in s.db.claims && session in Do(s, step).db.claims
    ensures step.TryLink? || step.TryIssue?
    ensures k < |steps| && steps[k].Resolve? && steps[k].id == step.id && steps[k].detail.Some?
    ensures Bought(s.db, Do(s, step).db, session, steps[k].detail.value, step.token, owner, step.now)
    ensures owner == if step.TryLink? then steps[k].detail.value.account else None
  {
    StartInv(users);
    RunsKeepInv(Start(users), steps, s);
    RunTold(Start(users), [], steps, s);
    assert [] + steps == steps;
    OnlySalesClaim(s, step, session);
    NamedSession(s, step.id);
    hide Inv, Runs, Bought;
    k :| TellsAt(steps, k, step.id, s.deliveries[step.id]);
    owner := if step.TryLink? then steps[k].detail.value.account else None;
    if step.TryLink? {
      LinkBuys(s, step, steps[k].detail.value);
    } else {
      IssueBuys(s, step, steps[k].detail.value);
    }
  }

  /** The other steps that write: a key for whoever asks, a stamp, a new user, and nothing else. */
  lemma AsideWrites(s: System, step: Step)
    requires Enabled(s, step) && Aside(step)
    ensures var db, db' := s.db, Do(s, step).db;
      && (step.AdminIssue? ==>
            db'.keys == if step.token in db.keys then db.keys else db.keys[step.token := KeyRow(step.plan, None, None)])
      && (step.UserKey? ==>
            db'.keys == if step.token in db.keys || step.user !in db.users then db.keys
                        else db.keys[step.token := KeyRow(step.plan, None, Some(step.user))])
      && (step.View? || step.SignUp? ==> db'.keys == db.keys)
      && (!step.View? ==> db'.claims == db.claims)
      && (step.View? ==> forall c :: c in db.claims ==>
            db'.claims[c] == if c == step.session then db.claims[c].(claimedAt := Some(step.now)) else db.claims[c])
      && db'.users == if step.SignUp? then db.users[step.user := step.row] else db.users
  {
  }

  /** A lost answer loses nothing else: the tables are as if it had arrived, and the delivery
      goes on as after a transaction that failed. */
  lemma FaultsLoseTheAnswer(s: System, step: Step)
    requires (step.TryLink? || step.TryIssue?) && Enabled(s, step) && !step.fault.NoFault?
    ensures Do(s, step).db == if step.fault.BeforeCommit? then s.db else Do(s, step.(fault := NoFault)).db
    ensures var d := s.deliveries[step.id];
      Do(s, step).deliveries[step.id] == if d.ToLink? then ToIssue(d.session, d.plan, d.customer) else Failed(d.session)
  {
  }

  // ----- where a system may start -----

  /** No two sessions show the same key. */
  ghost predicate OneClaimPerKey(db: Db) {
    forall c, d :: c in db.claims && d in db.claims && db.claims[c].apiKey == db.claims[d].apiKey ==> c == d
  }

  lemma {:induction false} SalesSoFar(claims: map<string, ClaimRow>) returns (log: seq<Event>)
    ensures forall c :: Sales(log, c) == (if c in claims then 1 else 0) && Drops(log, c) == 0
    decreases |claims|
  {
    log := [];
    if claims != map[] {
      var k :| k in claims;
      var fewer := claims - {k};
      assert claims.Keys == fewer.Keys + {k};
      var before := SalesSoFar(fewer);
      log := before + [Sold(k, claims[k].apiKey)];
      forall c ensures Sales(log, c) == (if c in claims then 1 else 0) && Drops(log, c) == 0 {
        LogGrows(before, Sold(k, claims[k].apiKey), c);
      }
    }
  }

  /** Tables are fit to run deliveries on exactly when foreign keys hold, claims show the plans
      of their keys, and no key is shown twice: then, and only then, they are the tables of a
      state that satisfies the invariant. */
  lemma TablesFitIff(db: Db)
    ensures (exists s: System :: s.db == db && s.deliveries == map[] && Inv(s)) <==> Consistent(db) && OneClaimPerKey(db)
  {
    if Consistent(db) && OneClaimPerKey(db) {
      var log := SalesSoFar(db.claims);
      var s := System(db, map[], map c | c in db.claims :: db.claims[c].apiKey := c, log);
      forall c ensures Minting(s, c) == {} {}
      assert Paired(s) && Balanced(s) && Honest(s);
      assert s.db == db && s.deliveries == map[] && Inv(s);
    }
  }

  /** From an empty store: a session has at most one live key, and its claim shows that key
      together with the plan the key was sold for. */
  lemma OneLiveKeyPerSession(users: map<int, UserRow>, steps: seq<Step>, s: System, t1: string, t2: string)
    requires Runs(Start(users), steps, s)
    requires t1 in s.soldTo && t2 in s.soldTo && s.soldTo[t1] == s.soldTo[t2]
    ensures t1 == t2 && t1 in s.db.keys
    ensures s.soldTo[t1] in s.db.claims && s.db.claims[s.soldTo[t1]].apiKey == t1
    ensures s.db.claims[s.soldTo[t1]].plan == s.db.keys[t1].plan
  {
    StartInv(users);
    RunsKeepInv(Start(users), steps, s);
  }

  lemma ClaimsPointToLiveKeys(users: map<int, UserRow>, steps: seq<Step>, s: System, c: string)
    requires Runs(Start(users), steps, s) && c in s.db.claims
    ensures s.db.claims[c].apiKey in s.db.keys
    ensures s.db.keys[s.db.claims[c].apiKey].plan == s.db.claims[c].plan
    ensures s.db.claims[c].apiKey in s.soldTo && s.soldTo[s.db.claims[c].apiKey] == c
  {
    StartInv(users);
    RunsKeepInv(Start(users), steps, s);
  }

  /** Conservation: the sales of a session are its dropped keys plus its live claim.  So no
      more deliveries report a minted key than keys were revoked, plus one. */
  lemma SalesAreConserved(users: map<int, UserRow>, steps: seq<Step>, s: System, c: string)
    requires Runs(Start(users), steps, s)
    ensures Sales(s.log, c) == Drops(s.log, c) + (if c in s.db.claims then 1 else 0)
    ensures |Minting(s, c)| <= Drops(s.log, c) + 1
  {
    StartInv(users);
    RunsKeepInv(Start(users), steps, s);
  }

  lemma PairFits(a: nat, b: nat, s: set<nat>)
    requires a != b && a in s && b in s
    ensures |s| >= 2
  {
    var t := s - {a};
    assert b in t && |t| == |t - {b}| + 1;
  }

  /** Without a revocation of its key, at most one delivery of a session ever reports a mint. */
  lemma MintedAtMostOnce(users: map<int, UserRow>, steps: seq<Step>, s: System, id1: nat, id2: nat, c: string)
    requires Runs(Start(users), steps, s) && Drops(s.log, c) == 0
    requires id1 in s.deliveries && s.deliveries[id1] == Answered(c, true)
    requires id2 in s.deliveries && s.deliveries[id2] == Answered(c, true)
    ensures id1 == id2
  {
    SalesAreConserved(users, steps, s, c);
    if id1 != id2 {
      PairFits(id1, id2, Minting(s, c));
    }
  }

  // ----- one delivery -----

  /** `after` holds a claim of the delivery's session on a live key, new since `before`, of
      the plan and customer it resolved, and for a linked purchase of the upgraded account. */
  ghost predicate Claimed(before: Db, after: Db, d: Delivery)
    requires d.ToLink? || d.ToIssue?
  {
    && d.session in after.claims
    && var claim := after.claims[d.session];
       && claim.plan == d.plan && claim.customer == d.customer
       && claim.apiKey !in before.keys && claim.apiKey in after.keys
       && after.keys[claim.apiKey] == KeyRow(d.plan, d.customer, if d.ToLink? then Some(d.user) else None)
       && (d.ToLink? ==> d.user in after.users && after.users[d.user].plan == d.plan)
  }

  lemma LinkedMeansClaimed(s: System, step: Step)
    requires step.TryLink? && Enabled(s, step)
    requires Linked(s, step).deliveries[step.id] == Answered(s.deliveries[step.id].session, true)
    ensures Claimed(s.db, Linked(s, step).db, s.deliveries[step.id])
  {
  }

  lemma IssuedMeansClaimed(s: System, step: Step)
    requires step.TryIssue? && Enabled(s, step) && s.deliveries[step.id].session != ""
    requires Issued(s, step).deliveries[step.id] == Answered(s.deliveries[step.id].session, true)
    ensures Claimed(s.db, Issued(s, step).db, s.deliveries[step.id])
  {
  }

  /** The step at which a delivery comes to report minted=True leaves such a claim. */
  lemma MintedMeansClaimed(s: System, step: Step, id: nat)
    requires Inv(s) && Enabled(s, step)
    requires id in s.deliveries && s.deliveries[id] != Answered(s.deliveries[id].session, true)
    requires Do(s, step).deliveries[id] == Answered(s.deliveries[id].session, true)
    ensures s.deliveries[id].ToLink? || s.deliveries[id].ToIssue?
    ensures Claimed(s.db, Do(s, step).db, s.deliveries[id])
  {
    NamedSession(s, id);
    hide Inv, Claimed, LinkTx, IssueTx;
    if step.TryLink? && step.id == id {
      LinkedMeansClaimed(s, step);
    } else if step.TryIssue? && step.id == id {
      IssuedMeansClaimed(s, step);
    }
  }

  /** A link attempt that does not commit leaves no key, claim or plan change behind, and the
      purchase can still be issued: the fallback succeeds unless somebody claimed the session. */
  lemma FailedLinkLosesNothing(s: System, step: Step, retry: Step)
    requires Inv(s) && step.TryLink? && Enabled(s, step) && Do(s, step).log == s.log
    requires retry.TryIssue? && retry.id == step.id && retry.fault.NoFault? && retry.token !in s.db.keys
    ensures Do(s, step).db == s.db
    ensures Enabled(Do(s, step), retry)
    ensures var d := s.deliveries[step.id];
      Do(Do(s, step), retry).deliveries[step.id] == (if d.session in s.db.claims then Failed(d.session) else Answered(d.session, true))
  {
  }

  /** While a session is claimed, no delivery of it changes a table: only a revocation can
      take the claim away, and only viewing it stamps it. */
  lemma ClaimedSessionIsSettled(s: System, step: Step)
    requires Inv(s) && Enabled(s, step)
    requires step.CheckClaim? || step.Resolve? || step.TryLink? || step.TryIssue?
    requires s.deliveries[step.id].session in s.db.claims
    ensures Do(s, step).db == s.db && Do(s, step).log == s.log
    ensures Do(s, step).deliveries[step.id] != Answered(s.deliveries[step.id].session, true)
  {
    var d := s.deliveries[step.id];
    NamedSession(s, step.id);
    hide Inv, LinkTx, IssueTx;
    if step.TryLink? {
      ClaimedSessionRefuses(s.db, step.token, KeyRow(d.plan, d.customer, Some(d.user)), d.session, step.now);
    } else if step.TryIssue? {
      ClaimedSessionRefuses(s.db, step.token, KeyRow(d.plan, d.customer, None), d.session, step.now);
    }
  }

  // Whatever key goes in first, a second claim on the session is refused.
  lemma ClaimedSessionRefuses(db: Db, token: string, row: KeyRow, session: string, now: Time)
    requires session in db.claims && session != ""
    ensures row.user.Some? ==> LinkTx(db, row.user.value, token, row.plan, row.customer, session, now).Failure?
    ensures row.user.None? ==> IssueTx(db, token, row.plan, row.customer, session, now).Failure?
  {
  }

  /** One delivery running on its own from start to finish, without faults. */
  function Alone(s: System, id: nat, session: string, detail: Detail, token: string, now: Time): (end: System)
    requires Enabled(s, Deliver(id, session))
    ensures id in end.deliveries
  {
    var s1 := Do(s, Deliver(id, session));
    var s2 := Do(s1, CheckClaim(id));
    if s2.deliveries[id].Answered? then s2
    else
      var s3 := Do(s2, Resolve(id, Some(detail)));
      if s3.deliveries[id].Answered? then s3
      else if s3.deliveries[id].ToLink? then Do(s3, TryLink(id, token, now, NoFault))
      else Do(s3, TryIssue(id, token, now, NoFault))
  }

  /** Such a delivery mints exactly when the plan can be resolved and no claim is live. */
  lemma AloneMintsIffUnclaimed(s: System, id: nat, session: string, detail: Detail, token: string, now: Time)
    requires Enabled(s, Deliver(id, session)) && token !in s.db.keys
    ensures Alone(s, id, session, detail, token, now).deliveries[id]
         == Answered(session, session !in s.db.claims && ResolvePlan(detail).Some?)
  {
  }

  /** What it then sells is what Stripe said, to the account Stripe named if there is such a user. */
  lemma AloneSellsWhatStripeSaid(s: System, id: nat, session: string, detail: Detail, token: string, now: Time)
    requires Enabled(s, Deliver(id, session)) && token !in s.db.keys
    ensures var end := Alone(s, id, session, detail, token, now);
      if session !in s.db.claims && ResolvePlan(detail).Some? then
        Bought(s.db, end.db, session, detail, token, Owner(s.db, detail), now)
      else end.db == s.db
  {
  }

  /** The account named in the session, if there is such a user. */
  function Owner(db: Db, detail: Detail): (owner: Option<int>)
    ensures owner.Some? <==> detail.account.Some? && detail.account.value in db.users
    ensures owner.Some? ==> owner == detail.account
  {
    if detail.account.Some? && detail.account.value in db.users then detail.account else None
  }

  /** So redelivery is idempotent only while the claim lives: once the key of a session has
      been revoked, the next delivery of the same event sells it again. */
  lemma RevokedSessionSellsAgain(s: System, gone: System, id: nat, session: string, detail: Detail, token: string, now: Time)
    requires Inv(s) && Enabled(s, Deliver(id, session)) && token !in s.db.keys
    requires session in s.db.claims && gone == Revoked(s, s.db.claims[session].apiKey)
    requires ResolvePlan(detail).Some?
    ensures Enabled(gone, Deliver(id, session))
    ensures Alone(s, id, session, detail, token, now).deliveries[id] == Answered(session, false)
    ensures Alone(gone, id, session, detail, token, now).deliveries[id] == Answered(session, true)
  {
    hide Alone, Inv;
    AloneMintsIffUnclaimed(s, id, session, detail, token, now);
    StepInv(s, Revoke(s.db.claims[session].apiKey));
    AloneMintsIffUnclaimed(gone, id, session, detail, token, now);
  }

  /** The handler itself, undisturbed.  It does what the steps of one delivery do in turn. */
  method StripeWebhook(tables: Tables, session: string, detail: Detail, token: string, now: Time) returns (minted: bool)
    requires session != "" && token !in tables.keys
    modifies tables
    ensures var end := Alone(System(old(tables.State()), map[], map[], []), 0, session, detail, token, now);
            tables.State() == end.db && end.deliveries[0] == Answered(session, minted)
    ensures minted <==> session !in old(tables.claims) && ResolvePlan(detail).Some?
    ensures !minted ==> tables.State() == old(tables.State())
    ensures minted ==> Bought(old(tables.State()), tables.State(), session, detail, token, Owner(old(tables.State()), detail), now)
  {
    var existing := tables.ClaimBySession(session);
    if existing.Some? {
      return false;
    }
    var plan := ResolvePlan(detail);
    if plan.None? {
      return false;
    }
    var linked := false;
    if detail.account.Some? && detail.account.value in tables.users {
      var key := tables.LinkPurchase(detail.account.value, token, plan.value, detail.customer, session, now);
      linked := key.Success?;
    }
    if !linked {
      var key := tables.Issue(token, plan.value, detail.customer, session, now);
      assert key.Success?;
    }
    return true;
  }
}
