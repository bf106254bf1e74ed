/** The JSON key store of api_server/keystore.py, with its crash points.

    A save writes a temporary file and renames it over the real one.  Execution may stop
    before the write, in the middle of it (leaving arbitrary bytes), after it, or after the
    rename; whoever starts next reads the real file. */
module JsonStore {
  import opened Wrappers
  import opened Json
  import opened Text
  import opened Wires

  type Claim = map<string, Json>

  datatype Data = Data(keys: map<string, string>, claims: map<string, Claim>)

  const EMPTY := Data(map[], map[])

  /** AttributeError: something that `.items()` cannot be called on.  ReadError: an exception of
      reading that is neither JSONDecodeError nor OSError. */
  datatype LoadError = AttributeError | ReadError

  // ----- reading: `_migrate` and `_load` -----

  predicate LooksLegacy(fields: map<string, Json>) {
    "keys" !in fields && "claims" !in fields && forall k :: k in fields ==> fields[k].Str?
  }

  function Migrate(raw: Json): Result<Data, LoadError> {
    if !raw.Obj? then Success(EMPTY)
    else if LooksLegacy(raw.fields) then
      Success(Data(map k | k in raw.fields && raw.fields[k].Str? :: raw.fields[k].s, map[]))
    else
      var keys := if "keys" in raw.fields then raw.fields["keys"] else Obj(map[]);
      var claims := if "claims" in raw.fields then raw.fields["claims"] else Obj(map[]);
      if !keys.Obj? || !claims.Obj? then Failure(AttributeError)
      else Success(Data(
        map k | k in keys.fields && keys.fields[k].Str? :: keys.fields[k].s,
        map c | c in claims.fields && claims.fields[c].Obj? :: claims.fields[c].fields))
  }

  /** What is on disk: the bytes of the real file and of the temporary one.  A real file that is
      missing or cannot be opened is None. */
  datatype Disk = Disk(file: Option<Bytes>, tmp: Option<Bytes>)

  function Load(disk: Disk, w: Wire): Result<Data, LoadError> {
    if disk.file.None? then Success(EMPTY)
    else match w.Read(disk.file.value)
      case Parsed(raw) => Migrate(raw)
      case NotJson => Success(EMPTY)
      case Refused => Failure(ReadError)
  }

  // The field is there, but holds no object.
  predicate NotAnObject(fields: map<string, Json>, name: string) {
    name in fields && !fields[name].Obj?
  }

  /** Reading the file is refused (not UTF-8, an over-long numeral, nesting too deep), or it is
      an object whose `keys` or `claims` is there and something else. */
  predicate Unloadable(disk: Disk, w: Wire) {
    disk.file.Some?
    && match w.Read(disk.file.value)
       case Parsed(Obj(fields)) => NotAnObject(fields, "keys") || NotAnObject(fields, "claims")
       case Refused => true
       case _ => false
  }

  /** Loading fails on exactly such a file; a missing one and one that is not JSON load as empty. */
  lemma LoadFailsIff(disk: Disk, w: Wire)
    ensures Load(disk, w).Failure? <==> Unloadable(disk, w)
    ensures disk.file.None? || w.Read(disk.file.value).NotJson? ==> Load(disk, w) == Success(EMPTY)
  {
  }

  /** The store read from a file that loads. */
  function Loaded(disk: Disk, w: Wire): Data
    requires !Unloadable(disk, w)
  {
    Load(disk, w).value
  }

  /** The file {"keys": null} does not load. */
  lemma MisshapenExample(w: Wire)
    requires Undoes(w)
    ensures Load(Disk(Some(w.Write(Obj(map["keys" := Null]))), None), w) == Failure(AttributeError)
  {
    var j := Obj(map["keys" := Null]);
    WriteReadsBack(w, j);
    assert "keys" in j.fields;
  }

  /** Nor does a file with a number of 4301 digits, in whatever field. */
  lemma LongNumeralExample(w: Wire)
    requires Undoes(w)
    ensures var ones := seq(MAX_DIGITS + 1, _ => '1');
            Load(Disk(Some(w.encode(NumberField(ones))), None), w) == Failure(ReadError)
  {
    var ones: string := seq(MAX_DIGITS + 1, _ => '1');
    assert Canonical(ones);
    assert w.codec.read(NumberField(ones)) == Refused;
    assert w.decode(w.encode(NumberField(ones))) == Some(NumberField(ones));
  }

  // ----- writing: `_save` -----

  function ToJson(d: Data): Json {
    Obj(map["keys" := Obj(map k | k in d.keys :: Str(d.keys[k])),
            "claims" := Obj(map c | c in d.claims :: Obj(d.claims[c]))])
  }

  /** The disk after the first `stop` of the three file actions of a save: begin the temporary
      file (`torn` is what has arrived of it), finish it, rename it. */
  function Save(disk: Disk, d: Data, w: Wire, stop: nat, torn: Bytes): Disk {
    if stop == 0 then disk
    else if stop == 1 then disk.(tmp := Some(torn))
    else if stop == 2 then disk.(tmp := Some(w.Write(ToJson(d))))
    else Disk(Some(w.Write(ToJson(d))), None)
  }

  /** Migration is the identity on what a save writes. */
  lemma MigrateReadsBack(d: Data)
    ensures Migrate(ToJson(d)) == Success(d)
  {
    var fields := ToJson(d).fields;
    assert "keys" in fields;
    assert (map k | k in fields["keys"].fields && fields["keys"].fields[k].Str? :: fields["keys"].fields[k].s) == d.keys;
    assert (map c | c in fields["claims"].fields && fields["claims"].fields[c].Obj? :: fields["claims"].fields[c].fields) == d.claims;
  }

  /** What migration keeps: of a file with objects under `keys` and `claims` the entries of the
      right type, and of a flat file of strings all of it, as keys.  Any other value counts as empty. */
  lemma MigrateKeeps(raw: Json)
    ensures !raw.Obj? ==> Migrate(raw) == Success(Data(map[], map[]))
    ensures raw.Obj? && Migrate(raw).Success? ==>
              var d := Migrate(raw).value;
              var flat := "keys" !in raw.fields && "claims" !in raw.fields && forall k :: k in raw.fields ==> raw.fields[k].Str?;
              && (forall k, s :: (k in d.keys && d.keys[k] == s) <==>
                    if flat then k in raw.fields && raw.fields[k] == Str(s)
                    else "keys" in raw.fields && k in raw.fields["keys"].fields && raw.fields["keys"].fields[k] == Str(s))
              && (forall c, claim :: (c in d.claims && d.claims[c] == claim) <==>
                    !flat && "claims" in raw.fields && c in raw.fields["claims"].fields && raw.fields["claims"].fields[c] == Obj(claim))
  {
  }

  /** Migrating twice is migrating once. */
  lemma MigrateIsIdempotent(raw: Json)
    requires Migrate(raw).Success?
    ensures Migrate(ToJson(Migrate(raw).value)) == Migrate(raw)
  {
    MigrateReadsBack(Migrate(raw).value);
  }

  lemma SaveThenLoad(disk: Disk, d: Data, w: Wire, torn: Bytes)
    requires Undoes(w)
    ensures Load(Save(disk, d, w, 3, torn), w) == Success(d)
  {
    WriteReadsBack(w, ToJson(d));
    MigrateReadsBack(d);
  }

  // ----- the operations -----

  datatype Op =
    | Issue(token: string, plan: string, customer: Option<string>, session: string, now: string)
    | Revoke(key: string)
    | MarkClaimed(session: string, now: string)

  function NewClaim(op: Op): Claim
    requires op.Issue?
  {
    map["plan_id" := Str(op.plan),
        "api_key" := Str(op.token),
        "customer_id" := (if op.customer.Some? then Str(op.customer.value) else Null),
        "issued_at" := Str(op.now),
        "claimed_at" := Null]
  }

  /** The store an operation wants to save, or None when it returns without saving.  An
      empty claim object counts as missing, as it does in Python. */
  function Effect(d: Data, op: Op): Option<Data> {
    match op
    case Issue(token, plan, _, session, _) =>
      Some(Data(d.keys[token := plan], if session == "" then d.claims else d.claims[session := NewClaim(op)]))
    case Revoke(key) =>
      if key !in d.keys then None
      else Some(Data(d.keys - {key}, map c | c in d.claims && Get(d.claims[c], "api_key") != Str(key) :: d.claims[c]))
    case MarkClaimed(session, now) =>
      if session !in d.claims || d.claims[session] == map[] then None
      else Some(d.(claims := d.claims[session := d.claims[session]["claimed_at" := Str(now)]]))
  }

  function After(d: Data, op: Op): Data {
    if Effect(d, op).Some? then Effect(d, op).value else d
  }

  /** What an issue writes: the plan under the token, and for a checkout a claim of exactly these
      five fields, not yet shown to anybody. */
  ghost predicate Writes(d: Data, token: string, plan: string, customer: Option<string>, session: string, now: string, d': Data) {
    && d'.keys == d.keys[token := plan]
    && (session == "" ==> d'.claims == d.claims)
    && (session != "" ==>
          && session in d'.claims && d'.claims == d.claims[session := d'.claims[session]]
          && Sells(d'.claims[session], token, plan, customer, now)
          && d'.claims[session]["claimed_at"] == Null)
  }

  /** The claim says who bought what, and when. */
  ghost predicate Sells(claim: Claim, token: string, plan: string, customer: Option<string>, now: string) {
    && claim.Keys == {"plan_id", "api_key", "customer_id", "issued_at", "claimed_at"}
    && claim["plan_id"] == Str(plan) && claim["api_key"] == Str(token) && claim["issued_at"] == Str(now)
    && claim["customer_id"] == (if customer.Some? then Str(customer.value) else Null)
  }

  /** What a revocation takes: the key and the claims on it.  Other keys and the claims on them stay. */
  ghost predicate Takes(d: Data, key: string, d': Data) {
    && (forall k :: k in d'.keys <==> k in d.keys && k != key)
    && (forall k :: k in d'.keys ==> d'.keys[k] == d.keys[k])
    && (forall c :: c in d'.claims <==> c in d.claims && !("api_key" in d.claims[c] && d.claims[c]["api_key"] == Str(key)))
    && (forall c :: c in d'.claims ==> d'.claims[c] == d.claims[c])
  }

  /** What marking writes: the time, into that claim. */
  ghost predicate Stamps(d: Data, session: string, now: string, d': Data) {
    && d'.keys == d.keys && session in d.claims && session in d'.claims
    && d'.claims == d.claims[session := d'.claims[session]]
    && d'.claims[session] == d.claims[session]["claimed_at" := Str(now)]
  }

  lemma EffectMeans(d: Data, op: Op)
    ensures op.Issue? ==> Writes(d, op.token, op.plan, op.customer, op.session, op.now, After(d, op))
    ensures op.Revoke? ==> if op.key in d.keys then Takes(d, op.key, After(d, op)) else After(d, op) == d
    ensures op.MarkClaimed? ==>
              if op.session in d.claims && d.claims[op.session] != map[] then Stamps(d, op.session, op.now, After(d, op))
              else After(d, op) == d
  {
  }

  /** The disk when `op`, begun on store `d`, stops after `stop` file actions. */
  function Stopped(disk: Disk, d: Data, op: Op, w: Wire, stop: nat, torn: Bytes): Disk {
    if Effect(d, op).Some? then Save(disk, Effect(d, op).value, w, stop, torn) else disk
  }

  /** Wherever an operation stops, the next start sees the store before it or after it:
      after it exactly when the rename happened. */
  lemma CrashIsAllOrNothing(disk: Disk, d: Data, op: Op, w: Wire, stop: nat, torn: Bytes)
    requires Undoes(w) && !Unloadable(disk, w) && d == Loaded(disk, w)
    ensures Load(Stopped(disk, d, op, w, stop, torn), w) == Success(if stop >= 3 then After(d, op) else d)
  {
    LoadFailsIff(disk, w);
    hide Effect, Undoes, Unloadable, ToJson, Migrate;
    if Effect(d, op).Some? {
      SaveThenLoad(disk, Effect(d, op).value, w, torn);
    }
  }

  /** Every claim refers to a present key. */
  ghost predicate ClaimsBound(d: Data) {
    forall c :: c in d.claims ==>
      "api_key" in d.claims[c] && d.claims[c]["api_key"].Str? && d.claims[c]["api_key"].s in d.keys
  }

  lemma AfterKeepsClaimsBound(d: Data, op: Op)
    requires ClaimsBound(d)
    ensures ClaimsBound(After(d, op))
  {
  }

  // ----- runs with crashes -----

  /** An operation that runs to its end (and returns), or one cut short, followed by a restart. */
  datatype Event = Done(op: Op) | Crashed(op: Op, stop: nat, torn: Bytes)

  function StopOf(e: Event): nat { if e.Done? then 3 else e.stop }

  function TornOf(e: Event): Bytes { if e.Done? then [] else e.torn }

  function Happens(disk: Disk, e: Event, w: Wire): Disk {
    match Load(disk, w)
    case Failure(_) => disk
    case Success(d) => Stopped(disk, d, e.op, w, StopOf(e), TornOf(e))
  }

  function Replay(disk: Disk, events: seq<Event>, w: Wire): Disk {
    if events == [] then disk else Happens(Replay(disk, events[..|events| - 1], w), events[|events| - 1], w)
  }

  /** Tokens handed out and not since asked to be revoked. */
  function Owed(events: seq<Event>): set<string> {
    if events == [] then {}
    else
      var owed, e := Owed(events[..|events| - 1]), events[|events| - 1];
      if e.op.Revoke? then owed - {e.op.key}
      else if e.Done? && e.op.Issue? then owed + {e.op.token}
      else owed
  }

  /** Over every run with any number of crashes: the file stays readable, every token that was
      handed out and not revoked is still there, and claims still refer to present keys. */
  lemma {:induction false} NothingHandedOutIsLost(disk: Disk, events: seq<Event>, w: Wire)
    requires Undoes(w) && !Unloadable(disk, w)
    ensures Load(disk, w).Success? && Load(Replay(disk, events, w), w).Success?
    ensures !Unloadable(Replay(disk, events, w), w)
    ensures Owed(events) <= Load(Replay(disk, events, w), w).value.keys.Keys
    ensures ClaimsBound(Load(disk, w).value) ==> ClaimsBound(Load(Replay(disk, events, w), w).value)
  {
    LoadFailsIff(disk, w);
    if events != [] {
      var init, e := events[..|events| - 1], events[|events| - 1];
      NothingHandedOutIsLost(disk, init, w);
      var before := Replay(disk, init, w);
      LoadFailsIff(before, w);
      var d := Loaded(before, w);
      hide Effect, Unloadable;
      CrashIsAllOrNothing(before, d, e.op, w, StopOf(e), TornOf(e));
      LoadFailsIff(Replay(disk, events, w), w);
      AfterKeys(d, e.op);
      if ClaimsBound(d) {
        AfterKeepsClaimsBound(d, e.op);
      }
    }
  }

  lemma AfterKeys(d: Data, op: Op)
    ensures After(d, op).keys.Keys
         == if op.Issue? then d.keys.Keys + {op.token} else if op.Revoke? then d.keys.Keys - {op.key} else d.keys.Keys
  {
  }

  /** The store holds a purchase as it was made; only the time of viewing may have been added. */
  ghost predicate Holds(d: Data, sale: Op)
    requires sale.Issue?
  {
    && sale.token in d.keys && d.keys[sale.token] == sale.plan
    && (sale.session == "" || sale.session in d.claims)
    && (sale.session != "" ==> Sells(d.claims[sale.session], sale.token, sale.plan, sale.customer, sale.now))
  }

  /** The operation replaces the purchase or takes it back. */
  predicate Supersedes(op: Op, sale: Op)
    requires sale.Issue?
  {
    match op
    case Issue(token, _, _, session, _) => token == sale.token || (session != "" && session == sale.session)
    case Revoke(key) => key == sale.token
    case MarkClaimed(_, _) => false
  }

  lemma SaleIsHeld(d: Data, sale: Op)
    requires sale.Issue?
    ensures Holds(After(d, sale), sale)
  {
    hide After;
    EffectMeans(d, sale);
  }

  lemma SaleStaysHeld(d: Data, op: Op, sale: Op)
    requires sale.Issue? && Holds(d, sale) && !Supersedes(op, sale)
    ensures Holds(After(d, op), sale)
  {
    hide After;
    EffectMeans(d, op);
  }

  /** From the return of an issue on, over every run with any number of crashes, the file holds
      the key with its plan and the claim with its buyer, as long as no operation on that very
      token or session replaces them or takes them back, not even one that crashes. */
  lemma {:induction false} SalesSurvive(disk: Disk, events: seq<Event>, i: nat, w: Wire)
    requires Undoes(w) && !Unloadable(disk, w)
    requires i < |events| && events[i].Done? && events[i].op.Issue?
    requires forall j :: i < j < |events| ==> !Supersedes(events[j].op, events[i].op)
    ensures !Unloadable(Replay(disk, events, w), w)
    ensures Holds(Loaded(Replay(disk, events, w), w), events[i].op)
    decreases |events|
  {
    hide Effect, Unloadable, Holds, Supersedes, After;
    var init, e := events[..|events| - 1], events[|events| - 1];
    NothingHandedOutIsLost(disk, init, w);
    NothingHandedOutIsLost(disk, events, w);
    var before := Replay(disk, init, w);
    var d := Loaded(before, w);
    CrashIsAllOrNothing(before, d, e.op, w, StopOf(e), TornOf(e));
    if i == |init| {
      SaleIsHeld(d, e.op);
    } else {
      SalesSurvive(disk, init, i, w);
      SaleStaysHeld(d, e.op, events[i].op);
    }
  }

  // ----- redelivery after a crash -----

  /** One attempt of a webhook to serve a checkout: the issue it would make, and where it stops. */
  datatype Attempt = Attempt(op: Op, stop: nat, torn: Bytes)

  predicate Claimed(d: Data, session: string) {
    session in d.claims && d.claims[session] != map[]
  }

  /** The webhook issues only if the session has no claim yet. */
  function Deliver(disk: Disk, a: Attempt, w: Wire): Disk
    requires a.op.Issue?
  {
    match Load(disk, w)
    case Failure(_) => disk
    case Success(d) =>
      if Claimed(d, a.op.session) then disk
      else Stopped(disk, d, a.op, w, a.stop, a.torn)
  }

  ghost predicate Redeliveries(attempts: seq<Attempt>, session: string) {
    session != "" && forall i :: 0 <= i < |attempts| ==> attempts[i].op.Issue? && attempts[i].op.session == session
  }

  function DeliverAll(disk: Disk, attempts: seq<Attempt>, w: Wire): Disk
    requires forall i :: 0 <= i < |attempts| ==> attempts[i].op.Issue?
  {
    if attempts == [] then disk
    else Deliver(DeliverAll(disk, attempts[..|attempts| - 1], w), attempts[|attempts| - 1], w)
  }

  /** The first attempt that lived to rename its file, or the number of attempts if none did. */
  function FirstDurable(attempts: seq<Attempt>): (k: nat)
    ensures k <= |attempts|
    ensures k < |attempts| ==> attempts[k].stop >= 3
    ensures forall i :: 0 <= i < k ==> attempts[i].stop < 3
  {
    if attempts == [] then 0
    else
      var k := FirstDurable(attempts[..|attempts| - 1]);
      if k < |attempts| - 1 || attempts[k].stop >= 3 then k else |attempts|
  }

  lemma IssueClaims(d: Data, op: Op)
    requires op.Issue? && op.session != ""
    ensures Claimed(After(d, op), op.session)
  {
    assert "plan_id" in NewClaim(op);
  }

  /** However often a checkout is redelivered and wherever each attempt crashes, the store ends
      up with the key and claim of the first attempt that became durable, and with no other; a
      session that was claimed before gets nothing. */
  lemma {:induction false} RedeliverySellsOnce(disk: Disk, d: Data, attempts: seq<Attempt>, session: string, w: Wire)
    requires Undoes(w) && !Unloadable(disk, w) && d == Loaded(disk, w)
    requires Redeliveries(attempts, session)
    ensures var k := FirstDurable(attempts);
      Load(DeliverAll(disk, attempts, w), w)
      == Success(if Claimed(d, session) || k == |attempts| then d else After(d, attempts[k].op))
  {
    if attempts == [] {
      LoadFailsIff(disk, w);
    } else {
      var n := |attempts| - 1;
      var init, a := attempts[..n], attempts[n];
      hide Load, Loaded, Undoes, Unloadable, Deliver, After, Claimed, FirstDurable;
      RedeliverySellsOnce(disk, d, init, session, w);
      DurableStep(attempts);
      var k := FirstDurable(init);
      if k < n {
        IssueClaims(d, init[k].op);
      }
      OneDelivery(DeliverAll(disk, init, w), if Claimed(d, session) || k == n then d else After(d, init[k].op), a, w);
    }
  }

  lemma DurableStep(attempts: seq<Attempt>)
    requires attempts != []
    ensures var n := |attempts| - 1;
      var k := FirstDurable(attempts[..n]);
      FirstDurable(attempts) == if k < n then k else if attempts[n].stop >= 3 then n else n + 1
  {
  }

  // One attempt: it changes the store exactly when the session is free and it becomes durable.
  lemma OneDelivery(disk: Disk, d: Data, a: Attempt, w: Wire)
    requires Undoes(w) && Load(disk, w) == Success(d) && a.op.Issue?
    ensures Load(Deliver(disk, a, w), w) == Success(if Claimed(d, a.op.session) || a.stop < 3 then d else After(d, a.op))
  {
    LoadFailsIff(disk, w);
    hide Load, Undoes, Unloadable, After, Claimed, Stopped;
    if !Claimed(d, a.op.session) {
      assert d == Loaded(disk, w);
      CrashIsAllOrNothing(disk, d, a.op, w, a.stop, a.torn);
    }
  }

  // ----- the store -----

  class Files {
    var file: Option<Bytes>
    var tmp: Option<Bytes>

    constructor (disk: Disk)
      ensures Now() == disk
    {
      file, tmp := disk.file, disk.tmp;
    }

    function Now(): Disk
      reads this
    {
      Disk(file, tmp)
    }
  }

  /** Every mutating method takes the number of file actions it lives to perform; 3 or more
      lets it finish.  The out-parameter `done` says whether it got to return. */
  class KeyStore {
    const files: Files
    const w: Wire
    var data: Data

    /** A store in a running process mirrors its file. */
    ghost predicate Valid()
      reads this, files
    {
      Undoes(w) && Load(files.Now(), w) == Success(data)
    }

    /** Starting up: read and migrate the file. */
    constructor (files: Files, w: Wire)
      requires Undoes(w) && !Unloadable(files.Now(), w)
      ensures Valid() && this.files == files && this.w == w
      ensures data == Loaded(files.Now(), w)
    {
      this.files := files;
      this.w := w;
      data := Loaded(files.Now(), w);
    }

    method WriteFile(stop: nat, torn: Bytes) returns (done: bool)
      modifies files
      ensures files.Now() == Save(old(files.Now()), data, w, stop, torn)
      ensures files.file == if stop >= 3 then Some(w.Write(ToJson(data))) else old(files.file)
      ensures files.tmp == if stop == 0 then old(files.tmp) else if stop == 1 then Some(torn)
                           else if stop == 2 then Some(w.Write(ToJson(data))) else None
      ensures done <==> stop >= 3
    {
      if stop == 0 {
        return false;
      }
      files.tmp := Some(torn);
      if stop == 1 {
        return false;
      }
      files.tmp := Some(w.Write(ToJson(data)));
      if stop == 2 {
        return false;
      }
      files.file, files.tmp := files.tmp, None;
      return true;
    }

    method IssueKey(token: string, plan: string, customer: Option<string>, session: string, now: string, stop: nat, torn: Bytes)
      returns (done: bool)
      requires Valid()
      modifies this, files
      ensures files.Now() == Stopped(old(files.Now()), old(data), Issue(token, plan, customer, session, now), w, stop, torn)
      ensures done <==> stop >= 3
      ensures done ==> Valid() && data == After(old(data), Issue(token, plan, customer, session, now))
      ensures done ==> Writes(old(data), token, plan, customer, session, now, data)
    {
      ghost var op := Issue(token, plan, customer, session, now);
      LoadFailsIff(files.Now(), w);
      CrashIsAllOrNothing(files.Now(), data, op, w, stop, torn);
      EffectMeans(data, op);
      hide Load, Migrate, ToJson, Undoes, Writes, Takes, Stamps;
      data := data.(keys := data.keys[token := plan]);
      if session != "" {
        var claim := map["plan_id" := Str(plan),
                         "api_key" := Str(token),
                         "customer_id" := (if customer.Some? then Str(customer.value) else Null),
                         "issued_at" := Str(now),
                         "claimed_at" := Null];
        data := data.(claims := data.claims[session := claim]);
      }
      done := WriteFile(stop, torn);
    }

    method RevokeKey(key: string, stop: nat, torn: Bytes) returns (done: bool, existed: bool)
      requires Valid()
      modifies this, files
      ensures files.Now() == Stopped(old(files.Now()), old(data), Revoke(key), w, stop, torn)
      ensures existed <==> key in old(data).keys
      ensures done <==> !existed || stop >= 3
      ensures done ==> Valid() && data == After(old(data), Revoke(key))
      ensures done ==> if existed then Takes(old(data), key, data) else data == old(data)
    {
      LoadFailsIff(files.Now(), w);
      CrashIsAllOrNothing(files.Now(), data, Revoke(key), w, stop, torn);
      EffectMeans(data, Revoke(key));
      hide Load, Migrate, ToJson, Undoes, Writes, Takes, Stamps;
      if key !in data.keys {
        return true, false;
      }
      data := data.(keys := data.keys - {key});
      data := data.(claims := map c | c in data.claims && Get(data.claims[c], "api_key") != Str(key) :: data.claims[c]);
      done := WriteFile(stop, torn);
      existed := true;
    }

    method MarkSession(session: string, now: string, stop: nat, torn: Bytes) returns (done: bool, existed: bool)
      requires Valid()
      modifies this, files
      ensures files.Now() == Stopped(old(files.Now()), old(data), MarkClaimed(session, now), w, stop, torn)
      ensures existed <==> session in old(data).claims && old(data).claims[session] != map[]
      ensures done <==> !existed || stop >= 3
      ensures done ==> Valid() && data == After(old(data), MarkClaimed(session, now))
      ensures done ==> if existed then Stamps(old(data), session, now, data) else data == old(data)
    {
      LoadFailsIff(files.Now(), w);
      CrashIsAllOrNothing(files.Now(), data, MarkClaimed(session, now), w, stop, torn);
      EffectMeans(data, MarkClaimed(session, now));
      hide Load, Migrate, ToJson, Undoes, Writes, Takes, Stamps;
      if session !in data.claims || data.claims[session] == map[] {
        return true, false;
      }
      data := data.(claims := data.claims[session := data.claims[session]["claimed_at" := Str(now)]]);
      done := WriteFile(stop, torn);
      existed := true;
    }
  }
}
