/** The tables behind api_server/dbkeystore.py and api_server/auth.py, with the constraints of
    their schemas, the statements run against them, and the transactions built from those.

    `Db` is one committed state of the tables.  The classes hold the tables as fields that
    their methods overwrite statement by statement; a failing statement rolls back what the
    transaction had done. */
module Database {
  import opened Wrappers

  type Time = int

  datatype KeyRow = KeyRow(plan: string, customer: Option<string>, user: Option<int>)

  datatype ClaimRow = ClaimRow(plan: string, apiKey: string, customer: Option<string>,
                               issuedAt: Time, claimedAt: Option<Time>)

  datatype UserRow = UserRow(email: string, plan: string, stripeCustomer: Option<string>)

  datatype Db = Db(keys: map<string, KeyRow>, claims: map<string, ClaimRow>, users: map<int, UserRow>)

  datatype DbError = UniqueViolation | ForeignKeyViolation

  // ----- statements -----

  /** Primary key on the token; the owner, if any, must exist. */
  function InsertKey(db: Db, token: string, row: KeyRow): Result<Db, DbError> {
    if token in db.keys then Failure(UniqueViolation)
    else if row.user.Some? && row.user.value !in db.users then Failure(ForeignKeyViolation)
    else Success(db.(keys := db.keys[token := row]))
  }

  /** Primary key on the session; the key must exist. */
  function InsertClaim(db: Db, session: string, row: ClaimRow): Result<Db, DbError> {
    if session in db.claims then Failure(UniqueViolation)
    else if row.apiKey !in db.keys then Failure(ForeignKeyViolation)
    else Success(db.(claims := db.claims[session := row]))
  }

  /** `COALESCE(%s, stripe_customer_id)` keeps a known customer when none is given. */
  function UpgradeUser(db: Db, user: int, plan: string, customer: Option<string>): Db {
    if user in db.users then
      var u := db.users[user];
      db.(users := db.users[user := u.(plan := plan, stripeCustomer := if customer.Some? then customer else u.stripeCustomer)])
    else db
  }

  /** ON DELETE CASCADE takes the claims on the key along. */
  function DeleteKey(db: Db, token: string): Db {
    db.(keys := db.keys - {token},
        claims := map s | s in db.claims && db.claims[s].apiKey != token :: db.claims[s])
  }

  // ----- transactions -----

  /** Key and, for a checkout, its claim: both or neither. */
  function IssueTx(db: Db, token: string, plan: string, customer: Option<string>, session: string, now: Time)
    : Result<Db, DbError>
  {
    match InsertKey(db, token, KeyRow(plan, customer, None))
    case Failure(e) => Failure(e)
    case Success(db1) =>
      if session == "" then Success(db1)
      else InsertClaim(db1, session, ClaimRow(plan, token, customer, now, None))
  }

  /** Key with its owner, claim and plan upgrade: all three or none. */
  function LinkTx(db: Db, user: int, token: string, plan: string, customer: Option<string>, session: string, now: Time)
    : Result<Db, DbError>
  {
    match InsertKey(db, token, KeyRow(plan, customer, Some(user)))
    case Failure(e) => Failure(e)
    case Success(db1) =>
      match InsertClaim(db1, session, ClaimRow(plan, token, customer, now, None))
      case Failure(e) => Failure(e)
      case Success(db2) => Success(UpgradeUser(db2, user, plan, customer))
  }

  function MarkClaimed(db: Db, session: string, now: Time): Db {
    if session in db.claims then
      db.(claims := db.claims[session := db.claims[session].(claimedAt := Some(now))])
    else db
  }

  /** Foreign keys hold, and a claim shows the plan its key was sold as. */
  ghost predicate Consistent(db: Db) {
    && (forall s :: s in db.claims ==>
          db.claims[s].apiKey in db.keys && db.keys[db.claims[s].apiKey].plan == db.claims[s].plan)
    && (forall t :: t in db.keys && db.keys[t].user.Some? ==> db.keys[t].user.value in db.users)
  }

  /** Claims also show the customer of their key.  Keys copied from a JSON store have none. */
  ghost predicate CustomersAgree(db: Db) {
    forall s :: s in db.claims && db.claims[s].apiKey in db.keys ==>
      db.keys[db.claims[s].apiKey].customer == db.claims[s].customer
  }

  /** A purchase can only be recorded once: with a claim in place both transactions fail,
      and otherwise they succeed for every unused token. */
  lemma PurchaseSucceedsIffUnclaimed(db: Db, user: int, token: string, plan: string, customer: Option<string>, session: string, now: Time)
    requires session != "" && token !in db.keys
    ensures IssueTx(db, token, plan, customer, session, now).Success? <==> session !in db.claims
    ensures LinkTx(db, user, token, plan, customer, session, now).Success?
       <==> session !in db.claims && user in db.users
  {
  }

  lemma IssueIsConsistent(db: Db, token: string, plan: string, customer: Option<string>, session: string, now: Time)
    requires Consistent(db)
    ensures var r := IssueTx(db, token, plan, customer, session, now);
            r.Success? ==> Consistent(r.value) && (CustomersAgree(db) ==> CustomersAgree(r.value))
  {
  }

  lemma LinkIsConsistent(db: Db, user: int, token: string, plan: string, customer: Option<string>, session: string, now: Time)
    requires Consistent(db)
    ensures var r := LinkTx(db, user, token, plan, customer, session, now);
            r.Success? ==> Consistent(r.value) && (CustomersAgree(db) ==> CustomersAgree(r.value))
  {
  }

  lemma KeyDeletionIsConsistent(db: Db, token: string)
    requires Consistent(db)
    ensures Consistent(DeleteKey(db, token))
    ensures CustomersAgree(db) ==> CustomersAgree(DeleteKey(db, token))
  {
  }

  /** A deleted key is gone, and takes its claims along; everything else stays as it was. */
  lemma DeletedKeyIsGone(db: Db, token: string)
    ensures var after := DeleteKey(db, token);
      && token !in after.keys
      && (forall t :: t != token ==> (t in after.keys <==> t in db.keys))
      && (forall t :: t != token && t in db.keys ==> after.keys[t] == db.keys[t])
      && (forall s :: s in after.claims <==> s in db.claims && db.claims[s].apiKey != token)
      && (forall s :: s in after.claims ==> after.claims[s] == db.claims[s])
      && after.users == db.users
  {
  }

  /** What a purchase puts into the tables, and nothing else. */
  lemma PurchaseIsRecorded(db: Db, user: int, token: string, plan: string, customer: Option<string>, session: string, now: Time)
    requires session != "" && token !in db.keys && session !in db.claims
    ensures IssueTx(db, token, plan, customer, session, now)
         == Success(Db(db.keys[token := KeyRow(plan, customer, None)],
                       db.claims[session := ClaimRow(plan, token, customer, now, None)], db.users))
    ensures user in db.users ==>
              LinkTx(db, user, token, plan, customer, session, now)
              == Success(Db(db.keys[token := KeyRow(plan, customer, Some(user))],
                            db.claims[session := ClaimRow(plan, token, customer, now, None)],
                            db.users[user := Upgraded(db.users[user], plan, customer)]))
  {
  }

  /** The user with the plan bought; a customer id that is known stays if none is given. */
  function Upgraded(u: UserRow, plan: string, customer: Option<string>): (r: UserRow)
    ensures r.email == u.email && r.plan == plan
    ensures customer.Some? ==> r.stripeCustomer == customer
    ensures customer.None? ==> r.stripeCustomer == u.stripeCustomer
  {
    UserRow(u.email, plan, if customer.Some? then customer else u.stripeCustomer)
  }

  // ----- the stores -----

  class Tables {
    var keys: map<string, KeyRow>
    var claims: map<string, ClaimRow>
    var users: map<int, UserRow>

    constructor ()
      ensures State() == Db(map[], map[], map[])
    {
      keys, claims, users := map[], map[], map[];
    }

    function State(): Db
      reads this
    {
      Db(keys, claims, users)
    }

    /** INSERT INTO x402_api_keys */
    method ExecInsertKey(token: string, row: KeyRow) returns (error: Option<DbError>)
      modifies this`keys
      ensures match InsertKey(old(State()), token, row)
              case Success(db) => error == None && State() == db
              case Failure(e) => error == Some(e) && State() == old(State())
      ensures error.None? <==> token !in old(keys) && (row.user.Some? ==> row.user.value in users)
      ensures keys == if error.None? then old(keys)[token := row] else old(keys)
      ensures error == Some(UniqueViolation) <==> token in old(keys)
    {
      if token in keys {
        return Some(UniqueViolation);
      }
      if row.user.Some? && row.user.value !in users {
        return Some(ForeignKeyViolation);
      }
      keys := keys[token := row];
      return None;
    }

    /** INSERT INTO x402_claims */
    method ExecInsertClaim(session: string, row: ClaimRow) returns (error: Option<DbError>)
      modifies this`claims
      ensures match InsertClaim(old(State()), session, row)
              case Success(db) => error == None && State() == db
              case Failure(e) => error == Some(e) && State() == old(State())
      ensures error.None? <==> session !in old(claims) && row.apiKey in keys
      ensures claims == if error.None? then old(claims)[session := row] else old(claims)
      ensures error == Some(UniqueViolation) <==> session in old(claims)
    {
      if session in claims {
        return Some(UniqueViolation);
      }
      if row.apiKey !in keys {
        return Some(ForeignKeyViolation);
      }
      claims := claims[session := row];
      return None;
    }

    /** `DBKeyStore.issue` */
    method Issue(token: string, plan: string, customer: Option<string>, session: string, now: Time)
      returns (r: Result<string, DbError>)
      modifies this
      ensures match IssueTx(old(State()), token, plan, customer, session, now)
              case Success(db) => r == Success(token) && State() == db
              case Failure(e) => r == Failure(e) && State() == old(State())
      ensures r.Success? <==> token !in old(keys) && (session == "" || session !in old(claims))
      ensures keys == if r.Success? then old(keys)[token := KeyRow(plan, customer, None)] else old(keys)
      ensures claims == if r.Success? && session != "" then old(claims)[session := ClaimRow(plan, token, customer, now, None)]
                        else old(claims)
      ensures users == old(users)
    {
      var keysBefore := keys;
      var error := ExecInsertKey(token, KeyRow(plan, customer, None));
      if error.Some? {
        return Failure(error.value);
      }
      if session != "" {
        error := ExecInsertClaim(session, ClaimRow(plan, token, customer, now, None));
        if error.Some? {
          keys := keysBefore;  // ROLLBACK
          return Failure(error.value);
        }
      }
      return Success(token);
    }

    /** `UserStore.link_purchase` */
    method LinkPurchase(user: int, token: string, plan: string, customer: Option<string>, session: string, now: Time)
      returns (r: Result<string, DbError>)
      modifies this
      ensures match LinkTx(old(State()), user, token, plan, customer, session, now)
              case Success(db) => r == Success(token) && State() == db
              case Failure(e) => r == Failure(e) && State() == old(State())
      ensures r.Success? <==> token !in old(keys) && user in old(users) && session !in old(claims)
      ensures keys == if r.Success? then old(keys)[token := KeyRow(plan, customer, Some(user))] else old(keys)
      ensures claims == if r.Success? then old(claims)[session := ClaimRow(plan, token, customer, now, None)] else old(claims)
      ensures users == if r.Success? then old(users)[user := Upgraded(old(users)[user], plan, customer)] else old(users)
    {
      var keysBefore := keys;
      var error := ExecInsertKey(token, KeyRow(plan, customer, Some(user)));
      if error.Some? {
        return Failure(error.value);
      }
      error := ExecInsertClaim(session, ClaimRow(plan, token, customer, now, None));
      if error.Some? {
        keys := keysBefore;  // ROLLBACK
        return Failure(error.value);
      }
      if user in users {
        var u := users[user];
        users := users[user := u.(plan := plan, stripeCustomer := if customer.Some? then customer else u.stripeCustomer)];
      }
      return Success(token);
    }

    /** `token` and the claims on it are gone, and nothing else has changed. */
    twostate predicate Deleted(token: string)
      reads this
    {
      && token !in keys && keys == old(keys) - {token}
      && (forall s :: s in claims <==> s in old(claims) && old(claims)[s].apiKey != token)
      && (forall s :: s in claims ==> claims[s] == old(claims)[s])
      && users == old(users)
    }

    /** `DBKeyStore.revoke` */
    method Revoke(token: string) returns (existed: bool)
      modifies this
      ensures State() == DeleteKey(old(State()), token)
      ensures existed <==> token in old(keys)
      ensures Deleted(token)
    {
      existed := token in keys;
      keys := keys - {token};
      claims := map s | s in claims && claims[s].apiKey != token :: claims[s];
    }

    /** `UserStore.revoke_key_by_kid`: only keys the user owns are ever looked at. */
    method RevokeByKid(user: int, kid: string, kidOf: string -> string) returns (revoked: bool)
      modifies this
      ensures revoked <==> exists t :: t in old(keys) && old(keys)[t].user == Some(user) && kidOf(t) == kid
      ensures !revoked ==> State() == old(State())
      ensures revoked ==> exists t :: t in old(keys) && old(keys)[t].user == Some(user) && kidOf(t) == kid
                                      && State() == DeleteKey(old(State()), t) && Deleted(t)
    {
      var rest := set t | t in keys && keys[t].user == Some(user);
      while rest != {}
        invariant rest <= keys.Keys && State() == old(State())
        invariant forall t :: t in keys && keys[t].user == Some(user) && t !in rest ==> kidOf(t) != kid
        invariant forall t :: t in rest ==> keys[t].user == Some(user)
        decreases |rest|
      {
        var t :| t in rest;
        if kidOf(t) == kid {
          revoked := Revoke(t);
          return;
        }
        rest := rest - {t};
      }
      return false;
    }

    /** `DBKeyStore.claim_by_session` */
    method ClaimBySession(session: string) returns (claim: Option<ClaimRow>)
      ensures claim == if session != "" && session in claims then Some(claims[session]) else None
    {
      if session == "" || session !in claims {
        return None;
      }
      return Some(claims[session]);
    }

    /** `DBKeyStore.mark_claimed` */
    method Claim(session: string, now: Time) returns (existed: bool)
      modifies this`claims
      ensures State() == MarkClaimed(old(State()), session, now)
      ensures existed <==> session in old(claims)
      ensures existed ==> session in claims && claims[session].claimedAt == Some(now)
                          && claims == old(claims)[session := claims[session]]
                          && claims[session].(claimedAt := None) == old(claims)[session].(claimedAt := None)
      ensures !existed ==> claims == old(claims)
    {
      existed := session in claims;
      if existed {
        claims := claims[session := claims[session].(claimedAt := Some(now))];
      }
    }
  }
}
