/** scripts/migrate_keystore_to_db.py: copy a JSON key store into the database, leaving rows
    that already exist alone.  One transaction: an error undoes everything. */
module Migration {
  import opened Wrappers
  import opened Json
  import opened Database
  import JsonStore

  /** How the database takes values: `clock` reads a timestamp, `cast` says what a TEXT column
      receives for a value that is neither null nor text (a number becomes its numeral), or None
      if there is no way. */
  datatype Driver = Driver(clock: string -> Option<Time>, cast: Json -> Option<string>)

  // A value the statement cannot take.
  datatype Aborted = Aborted

  /** The claim names a key of the JSON store; otherwise it is skipped as dangling. */
  predicate Linked(claim: JsonStore.Claim, keys: map<string, string>) {
    var k := Get(claim, "api_key");
    k.Str? && k.s != "" && k.s in keys
  }

  /** `api_key not in keys` on a non-empty list or object raises. */
  predicate Unhashable(claim: JsonStore.Claim) {
    var k := Get(claim, "api_key");
    (k.Arr? && k.items != []) || (k.Obj? && k.fields != map[])
  }

  /** A TEXT value must not contain the NUL character. */
  predicate NoNul(s: string) { '\0' !in s }

  function Column(j: Json, driver: Driver): Result<Option<string>, Aborted> {
    if j.Null? then Success(None)
    else
      var text := if j.Str? then Some(j.s) else driver.cast(j);
      if text.Some? && NoNul(text.value) then Success(text) else Failure(Aborted)
  }

  function Moment(j: Json, driver: Driver): Result<Option<Time>, Aborted> {
    if j.Null? then Success(None)
    else if j.Str? && driver.clock(j.s).Some? then Success(driver.clock(j.s))
    else Failure(Aborted)
  }

  /** The row inserted for a linked claim; a missing issue time becomes `now`. */
  function RowOf(session: string, claim: JsonStore.Claim, driver: Driver, now: Time): Result<ClaimRow, Aborted> {
    var plan, key := Column(Get(claim, "plan_id"), driver), Column(Get(claim, "api_key"), driver);
    var customer := Column(Get(claim, "customer_id"), driver);
    var issued, claimed := Moment(Get(claim, "issued_at"), driver), Moment(Get(claim, "claimed_at"), driver);
    if NoNul(session) && plan.Success? && plan.value.Some? && key.Success? && key.value.Some? && customer.Success?
       && issued.Success? && claimed.Success? then
      Success(ClaimRow(plan.value.value, key.value.value, customer.value,
                       if issued.value.Some? then issued.value.value else now, claimed.value))
    else Failure(Aborted)
  }

  /** What the loop does with one claim. */
  datatype Verdict = Skip | Abort | Insert(row: ClaimRow)

  function Decide(session: string, claim: JsonStore.Claim, keys: map<string, string>, driver: Driver, now: Time): Verdict {
    if Unhashable(claim) then Abort
    else if !Linked(claim, keys) then Skip
    else match RowOf(session, claim, driver, now)
      case Success(row) => Insert(row)
      case Failure(_) => Abort
  }

  /** Tokens and plans that fit their columns. */
  predicate KeysFit(keys: map<string, string>) {
    forall t :: t in keys ==> NoNul(t) && NoNul(keys[t])
  }

  // ----- the outcome -----

  function KeyRows(keys: map<string, string>): map<string, KeyRow> {
    map t | t in keys :: KeyRow(keys[t], None, None)
  }

  function ClaimRows(data: JsonStore.Data, driver: Driver, now: Time): map<string, ClaimRow> {
    map c | c in data.claims && Decide(c, data.claims[c], data.keys, driver, now).Insert?
      :: Decide(c, data.claims[c], data.keys, driver, now).row
  }

  /** The tables after the migration; of two rows with one key the existing one stays. */
  function Migrated(db: Db, data: JsonStore.Data, driver: Driver, now: Time): Result<Db, Aborted> {
    if !KeysFit(data.keys) || exists c :: c in data.claims && Decide(c, data.claims[c], data.keys, driver, now).Abort? then Failure(Aborted)
    else Success(db.(keys := KeyRows(data.keys) + db.keys, claims := ClaimRows(data, driver, now) + db.claims))
  }

  // ----- what it promises -----

  // How the two stores answer the same question.
  function JsonPlan(data: JsonStore.Data, token: string): Option<string> {
    if token in data.keys then Some(data.keys[token]) else None
  }

  function DbPlan(db: Db, token: string): Option<string> {
    if token in db.keys then Some(db.keys[token].plan) else None
  }

  predicate MomentOrNull(j: Json, driver: Driver) {
    j.Null? || (j.Str? && driver.clock(j.s).Some?)
  }

  /** The claim's values fit the columns: a plan, a customer if there is one, times that are
      absent or readable, and no NUL character. */
  predicate Storable(session: string, claim: JsonStore.Claim, driver: Driver) {
    && NoNul(session)
    && !Get(claim, "plan_id").Null? && Column(Get(claim, "plan_id"), driver).Success?
    && Column(Get(claim, "customer_id"), driver).Success?
    && MomentOrNull(Get(claim, "issued_at"), driver) && MomentOrNull(Get(claim, "claimed_at"), driver)
  }

  /** Not a list or an object with something in it. */
  predicate Hashable(j: Json) {
    (j.Arr? ==> j.items == []) && (j.Obj? ==> j.fields == map[])
  }

  lemma AbortsIff(session: string, claim: JsonStore.Claim, keys: map<string, string>, driver: Driver, now: Time)
    requires KeysFit(keys)
    ensures Decide(session, claim, keys, driver, now).Abort?
       <==> Unhashable(claim) || (Linked(claim, keys) && !Storable(session, claim, driver))
  {
  }

  /** A store migrates exactly when its tokens and plans fit and every claim that is not skipped
      as dangling can be stored. */
  lemma MigratesIff(db: Db, data: JsonStore.Data, driver: Driver, now: Time)
    ensures Migrated(db, data, driver, now).Success?
       <==> KeysFit(data.keys)
            && forall c :: c in data.claims ==>
                 && Hashable(Get(data.claims[c], "api_key"))
                 && (Linked(data.claims[c], data.keys) ==> Storable(c, data.claims[c], driver))
  {
    hide Decide, Linked, Storable, KeysFit;
    if KeysFit(data.keys) {
      forall c | c in data.claims
        ensures Decide(c, data.claims[c], data.keys, driver, now).Abort?
           <==> Unhashable(data.claims[c]) || (Linked(data.claims[c], data.keys) && !Storable(c, data.claims[c], driver))
      {
        AbortsIff(c, data.claims[c], data.keys, driver, now);
      }
    }
  }

  /** Tokens and plans fit, and every claim refers to a present key and fits. */
  ghost predicate Ready(data: JsonStore.Data, driver: Driver) {
    KeysFit(data.keys)
    && forall c :: c in data.claims ==> Linked(data.claims[c], data.keys) && Storable(c, data.claims[c], driver)
  }

  // The row says what the claim said.
  ghost predicate SameClaim(row: ClaimRow, claim: JsonStore.Claim, driver: Driver) {
    && Column(Get(claim, "plan_id"), driver) == Success(Some(row.plan))
    && Get(claim, "api_key") == Str(row.apiKey)
    && Column(Get(claim, "customer_id"), driver) == Success(row.customer)
    && (Get(claim, "issued_at").Str? ==> driver.clock(Get(claim, "issued_at").s) == Some(row.issuedAt))
    && (Get(claim, "claimed_at").Null? <==> row.claimedAt.None?)
    && (Get(claim, "claimed_at").Str? ==> driver.clock(Get(claim, "claimed_at").s) == row.claimedAt)
  }

  lemma LinkedClaimIsKept(session: string, claim: JsonStore.Claim, keys: map<string, string>, driver: Driver, now: Time)
    requires KeysFit(keys) && Linked(claim, keys) && Storable(session, claim, driver)
    ensures var v := Decide(session, claim, keys, driver, now); v.Insert? && SameClaim(v.row, claim, driver)
  {
  }

  /** Text goes into a column as it is unless it contains NUL, and null becomes NULL; a timestamp
      is read by the driver's clock, and nothing else is one. */
  lemma ColumnsMean(s: string, driver: Driver)
    ensures Column(Str(s), driver) == if '\0' in s then Failure(Aborted) else Success(Some(s))
    ensures Column(Null, driver) == Success(None) && Moment(Null, driver) == Success(None)
    ensures Moment(Str(s), driver) == if driver.clock(s).Some? then Success(driver.clock(s)) else Failure(Aborted)
    ensures forall j: Json :: !j.Null? && !j.Str? ==> Moment(j, driver) == Failure(Aborted)
    ensures forall j: Json :: !j.Null? && !j.Str? ==>
              Column(j, driver) == if driver.cast(j).Some? && '\0' !in driver.cast(j).value then Success(driver.cast(j)) else Failure(Aborted)
  {
  }

  /** A claim as the service writes it: text, readable times, no NUL. */
  ghost predicate Plain(session: string, claim: JsonStore.Claim, driver: Driver) {
    && '\0' !in session
    && Get(claim, "plan_id").Str? && '\0' !in Get(claim, "plan_id").s
    && (Get(claim, "customer_id").Null? || (Get(claim, "customer_id").Str? && '\0' !in Get(claim, "customer_id").s))
    && (Get(claim, "issued_at").Null? || (Get(claim, "issued_at").Str? && driver.clock(Get(claim, "issued_at").s).Some?))
    && (Get(claim, "claimed_at").Null? || (Get(claim, "claimed_at").Str? && driver.clock(Get(claim, "claimed_at").s).Some?))
  }

  lemma PlainRow(session: string, claim: JsonStore.Claim, keys: map<string, string>, driver: Driver, now: Time)
    requires Plain(session, claim, driver) && KeysFit(keys)
    requires Get(claim, "api_key").Str? && Get(claim, "api_key").s in keys && Get(claim, "api_key").s != ""
    ensures Decide(session, claim, keys, driver, now)
         == Insert(ClaimRow(Get(claim, "plan_id").s, Get(claim, "api_key").s,
                            if Get(claim, "customer_id").Null? then None else Some(Get(claim, "customer_id").s),
                            if Get(claim, "issued_at").Null? then now else driver.clock(Get(claim, "issued_at").s).value,
                            if Get(claim, "claimed_at").Null? then None else driver.clock(Get(claim, "claimed_at").s)))
  {
  }

  /** Row by row, on any database.  A key that was not there comes with its plan, without customer
      or owner.  A claim that was not there comes as it was, to the letter, if it is plain and its
      key is in the JSON store; its issue time is that of the run if it had none.  A claim whose
      key is missing, empty or null does not come. */
  lemma MigratedRowsSay(db: Db, data: JsonStore.Data, driver: Driver, now: Time, token: string, session: string)
    requires Migrated(db, data, driver, now).Success?
    ensures var after := Migrated(db, data, driver, now).value;
      && after.users == db.users
      && (token in data.keys && token !in db.keys ==>
            token in after.keys && after.keys[token] == KeyRow(data.keys[token], None, None))
    ensures session in data.claims && session !in db.claims ==>
              var claim, after := data.claims[session], Migrated(db, data, driver, now).value;
              var key := Get(claim, "api_key");
              && (key.Null? || (key.Str? && (key.s == "" || key.s !in data.keys)) ==> session !in after.claims)
              && (key.Str? && key.s != "" && key.s in data.keys && Plain(session, claim, driver) ==>
                    && session in after.claims
                    && var row := after.claims[session];
                       && row.plan == Get(claim, "plan_id").s && row.apiKey == key.s
                       && row.customer == (if Get(claim, "customer_id").Null? then None else Some(Get(claim, "customer_id").s))
                       && row.issuedAt == (if Get(claim, "issued_at").Null? then now else driver.clock(Get(claim, "issued_at").s).value)
                       && row.claimedAt == if Get(claim, "claimed_at").Null? then None else driver.clock(Get(claim, "claimed_at").s))
  {
    if session in data.claims && session !in db.claims {
      var claim := data.claims[session];
      DanglingIsSkipped(session, claim, data.keys, driver, now);
      hide Decide, Column, Moment, Plain, Get;
      if Get(claim, "api_key").Str? && Get(claim, "api_key").s in data.keys && Get(claim, "api_key").s != "" && Plain(session, claim, driver) {
        PlainRow(session, claim, data.keys, driver, now);
      }
    }
  }

  lemma DanglingIsSkipped(session: string, claim: JsonStore.Claim, keys: map<string, string>, driver: Driver, now: Time)
    ensures var key := Get(claim, "api_key");
            key.Null? || (key.Str? && (key.s == "" || key.s !in keys)) ==> Decide(session, claim, keys, driver, now).Skip?
  {
  }

  /** Into an empty database, from a store whose claims all refer to present keys: every key
      and every claim is answered as before. */
  lemma MigrationPreservesAnswers(db: Db, data: JsonStore.Data, driver: Driver, now: Time, token: string, session: string)
    requires db.keys == map[] && db.claims == map[] && Ready(data, driver)
    ensures Migrated(db, data, driver, now).Success?
    ensures var after := Migrated(db, data, driver, now).value;
      && DbPlan(after, token) == JsonPlan(data, token)
      && (session in after.claims <==> session in data.claims)
      && (session in data.claims ==> SameClaim(after.claims[session], data.claims[session], driver))
  {
    hide Decide, Linked, Storable, SameClaim;
    forall c | c in data.claims
      ensures Decide(c, data.claims[c], data.keys, driver, now).Insert?
      ensures SameClaim(Decide(c, data.claims[c], data.keys, driver, now).row, data.claims[c], driver)
    {
      LinkedClaimIsKept(c, data.claims[c], data.keys, driver, now);
    }
  }

  // ----- the stores the service writes -----

  function AfterAll(ops: seq<JsonStore.Op>): JsonStore.Data {
    if ops == [] then JsonStore.EMPTY else JsonStore.After(AfterAll(ops[..|ops| - 1]), ops[|ops| - 1])
  }

  /** Tokens are not empty, the database can read the timestamps the service writes, and no text
      contains NUL. */
  predicate Written(op: JsonStore.Op, driver: Driver) {
    match op
    case Issue(token, plan, customer, session, now) =>
      && token != "" && driver.clock(now).Some? && NoNul(token) && NoNul(plan) && NoNul(session)
      && (customer.Some? ==> NoNul(customer.value))
    case Revoke(_) => true
    case MarkClaimed(_, now) => driver.clock(now).Some?
  }

  lemma NewClaimIsReady(op: JsonStore.Op, keys: map<string, string>, driver: Driver)
    requires op.Issue? && Written(op, driver) && op.token in keys
    ensures Linked(JsonStore.NewClaim(op), keys) && Storable(op.session, JsonStore.NewClaim(op), driver)
  {
  }

  lemma StampedClaimIsReady(session: string, claim: JsonStore.Claim, stamp: string, keys: map<string, string>, driver: Driver)
    requires Linked(claim, keys) && Storable(session, claim, driver) && driver.clock(stamp).Some?
    ensures Linked(claim["claimed_at" := Str(stamp)], keys) && Storable(session, claim["claimed_at" := Str(stamp)], driver)
  {
  }

  // A claim on another key does not notice a key that goes.
  lemma OtherKeyGoes(claim: JsonStore.Claim, keys: map<string, string>, key: string)
    requires Linked(claim, keys) && Get(claim, "api_key") != Str(key)
    ensures Linked(claim, keys - {key})
  {
  }

  lemma StepStaysReady(data: JsonStore.Data, op: JsonStore.Op, driver: Driver)
    requires Ready(data, driver) && Written(op, driver)
    ensures Ready(JsonStore.After(data, op), driver)
  {
    hide Storable, Get, JsonStore.NewClaim, NoNul;
    var after := JsonStore.After(data, op);
    assert KeysFit(after.keys);
    forall c | c in after.claims ensures Linked(after.claims[c], after.keys) && Storable(c, after.claims[c], driver) {
      match op
      case Issue(token, _, _, session, _) =>
        if session != "" && c == session {
          NewClaimIsReady(op, after.keys, driver);
        }
      case Revoke(key) =>
        if key in data.keys {
          OtherKeyGoes(data.claims[c], data.keys, key);
        }
      case MarkClaimed(session, stamp) =>
        if c == session {
          StampedClaimIsReady(c, data.claims[c], stamp, data.keys, driver);
        }
    }
  }

  lemma {:induction false} WrittenStoresAreReady(ops: seq<JsonStore.Op>, driver: Driver)
    requires forall i :: 0 <= i < |ops| ==> Written(ops[i], driver)
    ensures Ready(AfterAll(ops), driver)
  {
    if ops != [] {
      hide Ready, Written;
      WrittenStoresAreReady(ops[..|ops| - 1], driver);
      StepStaysReady(AfterAll(ops[..|ops| - 1]), ops[|ops| - 1], driver);
    } else {
      assert JsonStore.EMPTY.claims == map[];
    }
  }

  /** Every store that issuing, revoking and marking can have produced from an empty one migrates,
      and every answer survives. */
  lemma WrittenStoresMigrate(db: Db, ops: seq<JsonStore.Op>, driver: Driver, now: Time, token: string, session: string)
    requires db.keys == map[] && db.claims == map[]
    requires forall i :: 0 <= i < |ops| ==> Written(ops[i], driver)
    ensures Migrated(db, AfterAll(ops), driver, now).Success?
    ensures var data, after := AfterAll(ops), Migrated(db, AfterAll(ops), driver, now).value;
      && DbPlan(after, token) == JsonPlan(data, token)
      && (session in after.claims <==> session in data.claims)
      && (session in data.claims ==> SameClaim(after.claims[session], data.claims[session], driver))
  {
    WrittenStoresAreReady(ops, driver);
    hide Ready, Migrated, SameClaim;
    MigrationPreservesAnswers(db, AfterAll(ops), driver, now, token, session);
  }

  // The time of the run shows in the rows, never in the verdict.
  lemma VerdictIgnoresTime(session: string, claim: JsonStore.Claim, keys: map<string, string>, driver: Driver, now: Time, later: Time)
    ensures Decide(session, claim, keys, driver, now).Insert? <==> Decide(session, claim, keys, driver, later).Insert?
    ensures Decide(session, claim, keys, driver, now).Abort? <==> Decide(session, claim, keys, driver, later).Abort?
  {
  }

  /** Running it a second time, whenever, changes nothing. */
  lemma SecondRunChangesNothing(db: Db, data: JsonStore.Data, driver: Driver, now: Time, later: Time)
    requires Migrated(db, data, driver, now).Success?
    ensures Migrated(Migrated(db, data, driver, now).value, data, driver, later) == Migrated(db, data, driver, now)
  {
    hide Decide;
    forall c | c in data.claims
      ensures Decide(c, data.claims[c], data.keys, driver, now).Insert? <==> Decide(c, data.claims[c], data.keys, driver, later).Insert?
      ensures Decide(c, data.claims[c], data.keys, driver, now).Abort? <==> Decide(c, data.claims[c], data.keys, driver, later).Abort?
    {
      VerdictIgnoresTime(c, data.claims[c], data.keys, driver, now, later);
    }
    var once := Migrated(db, data, driver, now).value;
    assert KeyRows(data.keys) + once.keys == once.keys;
    assert ClaimRows(data, driver, later) + once.claims == once.claims;
  }

  ghost predicate ForeignKeys(db: Db) {
    && (forall c :: c in db.claims ==> db.claims[c].apiKey in db.keys)
    && (forall t :: t in db.keys && db.keys[t].user.Some? ==> db.keys[t].user.value in db.users)
  }

  /** On a database in use: no row changes or goes, foreign keys still hold, and nothing is
      added but what the JSON store had. */
  lemma ExistingRowsStay(db: Db, data: JsonStore.Data, driver: Driver, now: Time)
    requires Migrated(db, data, driver, now).Success? && ForeignKeys(db)
    ensures Extends(db, Migrated(db, data, driver, now).value, data)
  {
    hide Decide, KeyRows, ClaimRows, Extends, ForeignKeys;
    PlainKeyRows(data.keys);
    ClaimRowsAreClaims(data, driver, now);
    forall c | c in ClaimRows(data, driver, now) ensures ClaimRows(data, driver, now)[c].apiKey in data.keys {
      RowOfClaim(data, driver, now, c);
    }
    MergeKeepsRows(db, data, KeyRows(data.keys), ClaimRows(data, driver, now));
  }

  /** `after` has every row of `db` unchanged, all of the JSON keys, some of the JSON claims, and
      nothing else; and its foreign keys hold. */
  ghost predicate Extends(db: Db, after: Db, data: JsonStore.Data) {
    && (forall t :: t in db.keys ==> t in after.keys && after.keys[t] == db.keys[t])
    && (forall c :: c in db.claims ==> c in after.claims && after.claims[c] == db.claims[c])
    && ForeignKeys(after)
    && after.keys.Keys == db.keys.Keys + data.keys.Keys
    && after.claims.Keys <= db.claims.Keys + data.claims.Keys
  }

  lemma MergeKeepsRows(db: Db, data: JsonStore.Data, keys: map<string, KeyRow>, claims: map<string, ClaimRow>)
    requires ForeignKeys(db)
    requires keys.Keys == data.keys.Keys && forall t :: t in keys ==> keys[t].user.None?
    requires claims.Keys <= data.claims.Keys && forall c :: c in claims ==> claims[c].apiKey in data.keys
    ensures Extends(db, db.(keys := keys + db.keys, claims := claims + db.claims), data)
  {
  }

  lemma PlainKeyRows(keys: map<string, string>)
    ensures KeyRows(keys).Keys == keys.Keys && forall t :: t in keys ==> KeyRows(keys)[t].user == None
  {
  }

  lemma ClaimRowsAreClaims(data: JsonStore.Data, driver: Driver, now: Time)
    ensures ClaimRows(data, driver, now).Keys <= data.claims.Keys
  {
    hide Decide;
  }

  /** Existing rows win even when they disagree: a migrated claim shows its key's plan exactly
      when the database did not already hold that key under another plan. */
  lemma ClaimAgreesWithKeyIff(db: Db, data: JsonStore.Data, driver: Driver, now: Time, session: string)
    requires Migrated(db, data, driver, now).Success?
    requires session in data.claims && session !in db.claims && Linked(data.claims[session], data.keys)
    requires Get(data.claims[session], "plan_id") == Str(data.keys[Get(data.claims[session], "api_key").s])
    ensures var after, token := Migrated(db, data, driver, now).value, Get(data.claims[session], "api_key").s;
      after.claims[session].plan == after.keys[token].plan
      <==> (token in db.keys ==> db.keys[token].plan == data.keys[token])
  {
  }

  // ----- the script -----

  datatype Summary = Summary(insertedKeys: nat, insertedClaims: nat, skippedClaims: nat)

  function Skipped(data: JsonStore.Data, driver: Driver, now: Time): set<string> {
    set c | c in data.claims && Decide(c, data.claims[c], data.keys, driver, now).Skip?
  }

  /** The table once all rows but the `rest` have been offered to it. */
  function Merged<V>(rows: map<string, V>, rest: set<string>, table: map<string, V>): map<string, V> {
    (rows - rest) + table
  }

  lemma MergeOne<V>(rows: map<string, V>, rest: set<string>, table: map<string, V>, k: string)
    requires k in rows && k in rest
    ensures k in Merged(rows, rest, table) <==> k in table
    ensures k in table ==> Merged(rows, rest - {k}, table) == Merged(rows, rest, table)
    ensures k !in table ==> Merged(rows, rest - {k}, table) == Merged(rows, rest, table)[k := rows[k]]
  {
  }

  lemma MergeNone<V>(rows: map<string, V>, rest: set<string>, table: map<string, V>, k: string)
    requires k !in rows
    ensures Merged(rows, rest - {k}, table) == Merged(rows, rest, table)
  {
    assert rows - (rest - {k}) == rows - rest;
  }

  lemma MergeEnds<V>(rows: map<string, V>, domain: set<string>, table: map<string, V>)
    requires rows.Keys <= domain
    ensures Merged(rows, domain, table) == table
    ensures Merged(rows, {}, table) == rows + table
  {
  }

  /** How many of the dangling claims have been passed. */
  function Passed(dangling: set<string>, rest: set<string>): nat {
    |dangling - rest|
  }

  lemma PassOne(dangling: set<string>, rest: set<string>, k: string)
    requires k in rest
    ensures Passed(dangling, rest - {k}) == Passed(dangling, rest) + (if k in dangling then 1 else 0)
  {
    if k in dangling {
      assert dangling - (rest - {k}) == (dangling - rest) + {k};
    } else {
      assert dangling - (rest - {k}) == dangling - rest;
    }
  }

  lemma PassEnds(dangling: set<string>, domain: set<string>)
    requires dangling <= domain
    ensures Passed(dangling, domain) == 0 && Passed(dangling, {}) == |dangling|
  {
    assert dangling - domain == {} && dangling - {} == dangling;
  }

  /** The body of `main` after the file has been loaded. */
  method Migrate(tables: Tables, data: JsonStore.Data, driver: Driver, now: Time) returns (r: Result<Summary, Aborted>)
    modifies tables
    ensures match Migrated(old(tables.State()), data, driver, now)
            case Success(db) =>
              && tables.State() == db
              && r.Success?
              && |db.keys| == |old(tables.keys)| + r.value.insertedKeys
              && |db.claims| == |old(tables.claims)| + r.value.insertedClaims
              && |Skipped(data, driver, now)| == r.value.skippedClaims
            case Failure(e) => r == Failure(e) && tables.State() == old(tables.State())
  {
    hide KeyRows, ClaimRows, Decide, Skipped, KeysFit;
    var keysBefore, claimsBefore := tables.keys, tables.claims;
    var insertedKeys := InsertKeys(tables, data.keys);
    if insertedKeys.None? {
      tables.keys := keysBefore;  // ROLLBACK
      return Failure(Aborted);
    }
    var claims := InsertClaims(tables, data, driver, now);
    if claims.Failure? {
      tables.keys, tables.claims := keysBefore, claimsBefore;  // ROLLBACK
      return Failure(Aborted);
    }
    return Success(Summary(insertedKeys.value, claims.value.0, claims.value.1));
  }

  /** INSERT INTO x402_api_keys ... ON CONFLICT (token) DO NOTHING */
  method OfferKey(tables: Tables, token: string, row: KeyRow) returns (rowcount: nat)
    requires row.user.None?
    modifies tables`keys
    ensures tables.keys == if token in old(tables.keys) then old(tables.keys) else old(tables.keys)[token := row]
    ensures rowcount == if token in old(tables.keys) then 0 else 1
  {
    var error := tables.ExecInsertKey(token, row);
    rowcount := if error.None? then 1 else 0;
  }

  /** INSERT INTO x402_claims ... ON CONFLICT (session_id) DO NOTHING */
  method OfferClaim(tables: Tables, session: string, row: ClaimRow) returns (rowcount: nat)
    requires row.apiKey in tables.keys
    modifies tables`claims
    ensures tables.claims == if session in old(tables.claims) then old(tables.claims) else old(tables.claims)[session := row]
    ensures rowcount == if session in old(tables.claims) then 0 else 1
  {
    var error := tables.ExecInsertClaim(session, row);
    rowcount := if error.None? then 1 else 0;
  }

  // How far the first loop has come: everything but the `rest` has been offered.
  ghost predicate KeysReached(keys: map<string, string>, before: map<string, KeyRow>, rest: set<string>,
                              table: map<string, KeyRow>, count: nat)
  {
    && (forall t :: t in keys && t !in rest ==> NoNul(t) && NoNul(keys[t]))
    && table == Merged(KeyRows(keys), rest, before)
    && |table| == |before| + count
  }

  lemma KeysAdvance(keys: map<string, string>, before: map<string, KeyRow>, rest: set<string>,
                    table: map<string, KeyRow>, count: nat, token: string)
    requires KeysReached(keys, before, rest, table, count)
    requires token in rest && token in keys && NoNul(token) && NoNul(keys[token])
    ensures if token in table then KeysReached(keys, before, rest - {token}, table, count)
            else KeysReached(keys, before, rest - {token}, table[token := KeyRow(keys[token], None, None)], count + 1)
  {
    hide Merged, NoNul;
    MergeOne(KeyRows(keys), rest, before, token);
  }

  lemma KeysStart(keys: map<string, string>, before: map<string, KeyRow>)
    ensures KeysReached(keys, before, keys.Keys, before, 0)
  {
    PlainKeyRows(keys);
    hide NoNul, Merged, KeyRows;
    MergeEnds(KeyRows(keys), keys.Keys, before);
  }

  lemma KeysEnd(keys: map<string, string>, before: map<string, KeyRow>, table: map<string, KeyRow>, count: nat)
    requires KeysReached(keys, before, {}, table, count)
    ensures KeysFit(keys) && table == KeyRows(keys) + before && |table| == |before| + count
    ensures keys.Keys <= table.Keys
  {
    PlainKeyRows(keys);
    hide NoNul, Merged, KeyRows;
    MergeEnds(KeyRows(keys), keys.Keys, before);
    UnionHasBoth(KeyRows(keys), before);
  }

  lemma UnionHasBoth<V>(rows: map<string, V>, table: map<string, V>)
    ensures rows.Keys <= (rows + table).Keys
  {
  }

  method InsertKeys(tables: Tables, keys: map<string, string>) returns (inserted: Option<nat>)
    modifies tables`keys
    ensures inserted.Some? <==> KeysFit(keys)
    ensures inserted.Some? ==>
              && tables.keys == KeyRows(keys) + old(tables.keys)
              && keys.Keys <= tables.keys.Keys
              && |tables.keys| == |old(tables.keys)| + inserted.value
  {
    hide KeysReached, KeyRows, NoNul;
    var count := 0;
    var rest := keys.Keys;
    KeysStart(keys, tables.keys);
    while rest != {}
      invariant rest <= keys.Keys
      invariant KeysReached(keys, old(tables.keys), rest, tables.keys, count)
      decreases rest
    {
      var token :| token in rest;
      if !NoNul(token) || !NoNul(keys[token]) {
        return None;
      }
      KeysAdvance(keys, old(tables.keys), rest, tables.keys, count, token);
      var rowcount := OfferKey(tables, token, KeyRow(keys[token], None, None));
      count := count + rowcount;
      rest := rest - {token};
    }
    KeysEnd(keys, old(tables.keys), tables.keys, count);
    return Some(count);
  }

  lemma RowOfClaim(data: JsonStore.Data, driver: Driver, now: Time, session: string)
    requires session in data.claims
    ensures var v := Decide(session, data.claims[session], data.keys, driver, now);
      && (session in ClaimRows(data, driver, now) <==> v.Insert?)
      && (v.Insert? ==> ClaimRows(data, driver, now)[session] == v.row && v.row.apiKey in data.keys)
      && (session in Skipped(data, driver, now) <==> v.Skip?)
  {
  }

  // How far the second loop has come: everything but the `rest` has been dealt with.
  ghost predicate Reached(data: JsonStore.Data, driver: Driver, now: Time, before: map<string, ClaimRow>,
                          rest: set<string>, claims: map<string, ClaimRow>, inserted: nat, skipped: nat)
  {
    && (forall c :: c in data.claims && c !in rest ==> !Decide(c, data.claims[c], data.keys, driver, now).Abort?)
    && claims == Merged(ClaimRows(data, driver, now), rest, before)
    && |claims| == |before| + inserted
    && skipped == Passed(Skipped(data, driver, now), rest)
  }

  lemma Advance(data: JsonStore.Data, driver: Driver, now: Time, before: map<string, ClaimRow>,
                rest: set<string>, claims: map<string, ClaimRow>, inserted: nat, skipped: nat, session: string)
    requires Reached(data, driver, now, before, rest, claims, inserted, skipped)
    requires session in rest && session in data.claims
    ensures match Decide(session, data.claims[session], data.keys, driver, now)
            case Abort => true
            case Skip => Reached(data, driver, now, before, rest - {session}, claims, inserted, skipped + 1)
            case Insert(row) =>
              && row.apiKey in data.keys
              && if session in claims then Reached(data, driver, now, before, rest - {session}, claims, inserted, skipped)
                 else Reached(data, driver, now, before, rest - {session}, claims[session := row], inserted + 1, skipped)
  {
    var rows := ClaimRows(data, driver, now);
    hide ClaimRows, Decide, Skipped, Merged, Passed;
    RowOfClaim(data, driver, now, session);
    PassOne(Skipped(data, driver, now), rest, session);
    if session in rows {
      MergeOne(rows, rest, before, session);
    } else {
      MergeNone(rows, rest, before, session);
    }
  }

  lemma ReachedEnds(data: JsonStore.Data, driver: Driver, now: Time, before: map<string, ClaimRow>,
                    claims: map<string, ClaimRow>, inserted: nat, skipped: nat)
    ensures Reached(data, driver, now, before, data.claims.Keys, before, 0, 0)
    ensures Reached(data, driver, now, before, {}, claims, inserted, skipped) ==>
              && claims == ClaimRows(data, driver, now) + before
              && |claims| == |before| + inserted
              && |Skipped(data, driver, now)| == skipped
              && forall c :: c in data.claims ==> !Decide(c, data.claims[c], data.keys, driver, now).Abort?
  {
    hide Decide, Merged, Passed;
    MergeEnds(ClaimRows(data, driver, now), data.claims.Keys, before);
    PassEnds(Skipped(data, driver, now), data.claims.Keys);
  }

  method InsertClaims(tables: Tables, data: JsonStore.Data, driver: Driver, now: Time) returns (r: Result<(nat, nat), Aborted>)
    requires data.keys.Keys <= tables.keys.Keys
    modifies tables`claims
    ensures r.Failure? <==> exists c :: c in data.claims && Decide(c, data.claims[c], data.keys, driver, now).Abort?
    ensures r.Success? ==>
              && tables.claims == ClaimRows(data, driver, now) + old(tables.claims)
              && |tables.claims| == |old(tables.claims)| + r.value.0
              && |Skipped(data, driver, now)| == r.value.1
  {
    hide ClaimRows, Decide, Skipped, Reached;
    var inserted, skipped := 0, 0;
    var rest := data.claims.Keys;
    ReachedEnds(data, driver, now, tables.claims, tables.claims, 0, 0);
    while rest != {}
      invariant rest <= data.claims.Keys
      invariant Reached(data, driver, now, old(tables.claims), rest, tables.claims, inserted, skipped)
      decreases rest
    {
      var session :| session in rest;
      Advance(data, driver, now, old(tables.claims), rest, tables.claims, inserted, skipped, session);
      rest := rest - {session};
      match Decide(session, data.claims[session], data.keys, driver, now)
      case Abort =>
        return Failure(Aborted);
      case Skip =>
        skipped := skipped + 1;
      case Insert(row) =>
        var rowcount := OfferClaim(tables, session, row);
        inserted := inserted + rowcount;
    }
    ReachedEnds(data, driver, now, old(tables.claims), tables.claims, inserted, skipped);
    return Success((inserted, skipped));
  }
}
