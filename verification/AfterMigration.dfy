/** Webhook deliveries on tables filled from a JSON key store: what the migration script writes is
    a fit start for every run of the service. */
module AfterMigration {
  import opened Wrappers
  import opened Json
  import opened Database
  import opened Migration
  import JsonStore
  import Webhook

  /** `secrets.token_urlsafe` never returns the same token twice. */
  ghost predicate FreshTokens(ops: seq<JsonStore.Op>) {
    forall i, j :: 0 <= i < j < |ops| && ops[i].Issue? && ops[j].Issue? ==> ops[i].token != ops[j].token
  }

  lemma {:induction false} KeysWereIssued(ops: seq<JsonStore.Op>, token: string)
    requires token in AfterAll(ops).keys
    ensures exists i :: 0 <= i < |ops| && ops[i].Issue? && ops[i].token == token
  {
    var n := |ops| - 1;
    if ops[n].Issue? && ops[n].token == token {
      assert ops[n].Issue?;
    } else {
      JsonStore.AfterKeys(AfterAll(ops[..n]), ops[n]);
      KeysWereIssued(ops[..n], token);
      var i :| 0 <= i < n && ops[..n][i].Issue? && ops[..n][i].token == token;
      assert ops[i] == ops[..n][i];
    }
  }

  /** Every claim shows the plan of its key, and no two claims show the same key. */
  ghost predicate Sold(data: JsonStore.Data) {
    && (forall c :: c in data.claims ==> SoldAs(data.claims[c], data.keys))
    && (forall c, d :: c in data.claims && d in data.claims && ApiKey(data, c) == ApiKey(data, d) ==> c == d)
  }

  ghost function ApiKey(data: JsonStore.Data, session: string): Json
    requires session in data.claims
  {
    Get(data.claims[session], "api_key")
  }

  ghost predicate SoldAs(claim: JsonStore.Claim, keys: map<string, string>) {
    Linked(claim, keys) && Get(claim, "plan_id") == Str(keys[Get(claim, "api_key").s])
  }

  lemma NewClaimIsSold(op: JsonStore.Op, keys: map<string, string>)
    requires op.Issue? && op.token != ""
    ensures Get(JsonStore.NewClaim(op), "api_key") == Str(op.token)
    ensures SoldAs(JsonStore.NewClaim(op), keys[op.token := op.plan])
  {
  }

  lemma StampKeepsSale(claim: JsonStore.Claim, stamp: string, keys: map<string, string>)
    ensures Get(claim["claimed_at" := Str(stamp)], "api_key") == Get(claim, "api_key")
    ensures SoldAs(claim, keys) ==> SoldAs(claim["claimed_at" := Str(stamp)], keys)
  {
  }

  lemma IssueStaysSold(data: JsonStore.Data, op: JsonStore.Op)
    requires Sold(data) && op.Issue? && op.token != "" && op.token !in data.keys
    ensures Sold(JsonStore.After(data, op))
  {
    NewClaimIsSold(op, data.keys);
    hide Get, JsonStore.NewClaim, SoldAs;
    var after := JsonStore.After(data, op);
    forall c | c in data.claims
      ensures ApiKey(data, c) != Str(op.token) && SoldAs(data.claims[c], after.keys)
    {
      SaleOutlivesIssue(data.claims[c], data.keys, op);
    }
  }

  lemma SaleOutlivesIssue(claim: JsonStore.Claim, keys: map<string, string>, op: JsonStore.Op)
    requires SoldAs(claim, keys) && op.Issue? && op.token !in keys
    ensures Get(claim, "api_key") != Str(op.token) && SoldAs(claim, keys[op.token := op.plan])
  {
  }

  lemma SaleOutlivesRevocation(claim: JsonStore.Claim, keys: map<string, string>, key: string)
    requires SoldAs(claim, keys) && Get(claim, "api_key") != Str(key)
    ensures SoldAs(claim, keys - {key})
  {
  }

  lemma RevokeStaysSold(data: JsonStore.Data, op: JsonStore.Op)
    requires Sold(data) && op.Revoke?
    ensures Sold(JsonStore.After(data, op))
  {
    hide Get, SoldAs;
    var after := JsonStore.After(data, op);
    if op.key in data.keys {
      forall c | c in after.claims ensures SoldAs(after.claims[c], after.keys) && ApiKey(after, c) == ApiKey(data, c) {
        SaleOutlivesRevocation(data.claims[c], data.keys, op.key);
      }
    }
  }

  lemma MarkStaysSold(data: JsonStore.Data, op: JsonStore.Op)
    requires Sold(data) && op.MarkClaimed?
    ensures Sold(JsonStore.After(data, op))
  {
    var after := JsonStore.After(data, op);
    hide Get, SoldAs;
    forall c | c in after.claims
      ensures ApiKey(after, c) == ApiKey(data, c) && SoldAs(after.claims[c], after.keys)
    {
      StampKeepsSale(data.claims[c], op.now, data.keys);
      assert SoldAs(data.claims[c], data.keys);
    }
  }

  lemma NewTokenIsNew(init: seq<JsonStore.Op>, op: JsonStore.Op)
    requires FreshTokens(init + [op]) && op.Issue?
    ensures op.token !in AfterAll(init).keys
  {
    var ops := init + [op];
    assert ops[|init|] == op && forall i :: 0 <= i < |init| ==> ops[i] == init[i];
    if op.token in AfterAll(init).keys {
      KeysWereIssued(init, op.token);
    }
  }

  lemma {:induction false} WrittenStoresAreSold(ops: seq<JsonStore.Op>, driver: Driver)
    requires FreshTokens(ops) && forall i :: 0 <= i < |ops| ==> Written(ops[i], driver)
    ensures Sold(AfterAll(ops))
  {
    if ops == [] {
      assert JsonStore.EMPTY.claims == map[];
    } else {
      var init, op := ops[..|ops| - 1], ops[|ops| - 1];
      assert ops == init + [op];
      WrittenStoresAreSold(init, driver);
      AfterAllStep(ops);
      hide Sold, AfterAll;
      if op.Issue? {
        NewTokenIsNew(init, op);
        IssueStaysSold(AfterAll(init), op);
      } else if op.Revoke? {
        RevokeStaysSold(AfterAll(init), op);
      } else {
        MarkStaysSold(AfterAll(init), op);
      }
    }
  }

  lemma AfterAllStep(ops: seq<JsonStore.Op>)
    requires ops != []
    ensures AfterAll(ops) == JsonStore.After(AfterAll(ops[..|ops| - 1]), ops[|ops| - 1])
  {
  }

  // A migrated claim row says what its claim said, and its key is there with the claim's plan.
  lemma MigratedRow(db: Db, data: JsonStore.Data, driver: Driver, now: Time, c: string)
    requires db.keys == map[] && db.claims == map[] && Ready(data, driver) && Sold(data)
    requires Migrated(db, data, driver, now).Success?
    requires c in Migrated(db, data, driver, now).value.claims
    ensures var after, row := Migrated(db, data, driver, now).value, Migrated(db, data, driver, now).value.claims[c];
      && c in data.claims && Str(row.apiKey) == ApiKey(data, c)
      && row.apiKey in after.keys && after.keys[row.apiKey].plan == row.plan
  {
    assert c in ClaimRows(data, driver, now);
    assert SoldAs(data.claims[c], data.keys);
    LinkedClaimIsKept(c, data.claims[c], data.keys, driver, now);
    hide Decide;
  }

  /** The tables of a migrated store are fit to run deliveries on. */
  lemma MigratedTablesAreFit(db: Db, ops: seq<JsonStore.Op>, driver: Driver, now: Time)
    requires db.keys == map[] && db.claims == map[]
    requires FreshTokens(ops) && forall i :: 0 <= i < |ops| ==> Written(ops[i], driver)
    ensures Migrated(db, AfterAll(ops), driver, now).Success?
    ensures Consistent(Migrated(db, AfterAll(ops), driver, now).value)
    ensures Webhook.OneClaimPerKey(Migrated(db, AfterAll(ops), driver, now).value)
  {
    var data := AfterAll(ops);
    WrittenStoresAreReady(ops, driver);
    WrittenStoresAreSold(ops, driver);
    hide Migrated, Ready, Sold, AfterAll, Written, FreshTokens, SameClaim;
    MigrationPreservesAnswers(db, data, driver, now, "", "");
    SoldStoresMigrateFit(db, data, driver, now);
  }

  lemma SoldStoresMigrateFit(db: Db, data: JsonStore.Data, driver: Driver, now: Time)
    requires db.keys == map[] && db.claims == map[] && Ready(data, driver) && Sold(data)
    requires Migrated(db, data, driver, now).Success?
    ensures Consistent(Migrated(db, data, driver, now).value)
    ensures Webhook.OneClaimPerKey(Migrated(db, data, driver, now).value)
  {
    MigratedKeysHaveNoOwner(db, data, driver, now);
    hide Migrated, Ready, ApiKey, SoldAs;
    var after := Migrated(db, data, driver, now).value;
    forall c | c in after.claims
      ensures c in data.claims && Str(after.claims[c].apiKey) == ApiKey(data, c)
      ensures after.claims[c].apiKey in after.keys && after.keys[after.claims[c].apiKey].plan == after.claims[c].plan
    {
      MigratedRow(db, data, driver, now, c);
    }
  }

  lemma MigratedKeysHaveNoOwner(db: Db, data: JsonStore.Data, driver: Driver, now: Time)
    requires db.keys == map[] && Migrated(db, data, driver, now).Success?
    ensures forall t :: t in Migrated(db, data, driver, now).value.keys ==> Migrated(db, data, driver, now).value.keys[t].user.None?
  {
    PlainKeyRows(data.keys);
    hide KeyRows, ClaimRows, Decide;
  }

  /** So after a migration the service keeps its promises: from those tables, over every
      interleaving of deliveries, revocations and the rest, a claim points to a live key of its
      plan, and no key is shown by two sessions. */
  lemma ServiceAfterMigration(db: Db, ops: seq<JsonStore.Op>, driver: Driver, now: Time)
    returns (start: Webhook.System)
    requires db.keys == map[] && db.claims == map[]
    requires FreshTokens(ops) && forall i :: 0 <= i < |ops| ==> Written(ops[i], driver)
    ensures Migrated(db, AfterAll(ops), driver, now) == Success(start.db) && start.deliveries == map[]
    ensures forall steps, s :: Webhook.Runs(start, steps, s) ==>
              Webhook.Inv(s) && Consistent(s.db) && Webhook.OneClaimPerKey(s.db)
  {
    MigratedTablesAreFit(db, ops, driver, now);
    hide Migrated, AfterAll, Written, Consistent, Webhook.OneClaimPerKey, Webhook.Inv;
    var after := Migrated(db, AfterAll(ops), driver, now).value;
    Webhook.TablesFitIff(after);
    start :| start.db == after && start.deliveries == map[] && Webhook.Inv(start);
    forall steps, s | Webhook.Runs(start, steps, s)
      ensures Webhook.Inv(s) && Consistent(s.db) && Webhook.OneClaimPerKey(s.db)
    {
      Webhook.RunsKeepInv(start, steps, s);
      InvMeansFit(s);
    }
  }

  lemma InvMeansFit(s: Webhook.System)
    requires Webhook.Inv(s)
    ensures Consistent(s.db) && Webhook.OneClaimPerKey(s.db)
  {
  }
}
