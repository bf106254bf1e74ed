/** The nonce lifecycle of examples/nonce_helpers.py: issue, validate, mark used, clean up.

    Nonce strings and clock readings are parameters; that nonces are never drawn twice is an
    assumption of the run theorems that need it. */
module Nonces {
  import opened Wrappers

  type Time = real

  /** The fields of one record at one moment. */
  datatype Rec = Rec(issuedAt: Time, expiresAt: Time, used: bool, usedAt: Option<Time>)

  type Tracked = map<string, Rec>

  datatype Verdict = Fine | NotFound | Expired | AlreadyUsed

  /** `validate_nonce`: existence, then expiry, then single use. */
  function Judge(s: Tracked, nonce: string, now: Time): Verdict {
    if nonce !in s then NotFound
    else if now > s[nonce].expiresAt then Expired
    else if s[nonce].used then AlreadyUsed
    else Fine
  }

  datatype Op =
    | Generate(nonce: string, now: Time)
    | Validate(nonce: string, now: Time)
    | Mark(nonce: string, now: Time, stamp: Time)  // the clock is read once to validate, once to stamp
    | Cleanup(now: Time)

  function Apply(s: Tracked, op: Op, ttl: Time): Tracked {
    match op
    case Generate(n, now) => s[n := Rec(now, now + ttl, false, None)]
    case Validate(_, _) => s
    case Mark(n, now, stamp) =>
      if Judge(s, n, now).Fine? then s[n := s[n].(used := true, usedAt := Some(stamp))] else s
    case Cleanup(now) => map n | n in s && !(s[n].expiresAt < now) :: s[n]
  }

  function ApplyAll(ops: seq<Op>, ttl: Time): Tracked {
    if ops == [] then map[] else Apply(ApplyAll(ops[..|ops| - 1], ttl), ops[|ops| - 1], ttl)
  }

  /** The clock never runs backwards, and has reached at most `clock` at the end. */
  ghost predicate ClockForward(ops: seq<Op>, clock: Time) {
    ops != [] ==> ops[|ops| - 1].now <= clock && ClockForward(ops[..|ops| - 1], ops[|ops| - 1].now)
  }

  /** `secrets.token_hex` never returns the same nonce twice. */
  ghost predicate FreshNonces(ops: seq<Op>) {
    forall i, j :: 0 <= i < j < |ops| && ops[i].Generate? && ops[j].Generate? ==> ops[i].nonce != ops[j].nonce
  }

  /** Step i of the run is a `mark_nonce_used` that succeeds. */
  predicate Succeeds(ops: seq<Op>, ttl: Time, i: nat)
    requires i < |ops|
  {
    ops[i].Mark? && Judge(ApplyAll(ops[..i], ttl), ops[i].nonce, ops[i].now).Fine?
  }

  // ----- single use -----

  /** Whatever is tracked was issued, with the lifetime of the manager. */
  lemma {:induction false} TrackedWasIssued(ops: seq<Op>, ttl: Time, nonce: string)
    requires nonce in ApplyAll(ops, ttl)
    ensures exists g :: 0 <= g < |ops| && ops[g] == Generate(nonce, ops[g].now)
                        && ApplyAll(ops, ttl)[nonce].expiresAt == ops[g].now + ttl
  {
    var n := |ops| - 1;
    if ops[n] == Generate(nonce, ops[n].now) {
      assert ApplyAll(ops, ttl)[nonce].expiresAt == ops[n].now + ttl;
    } else {
      TrackedWasIssued(ops[..n], ttl, nonce);
      var g :| 0 <= g < n && ops[..n][g] == Generate(nonce, ops[..n][g].now)
               && ApplyAll(ops[..n], ttl)[nonce].expiresAt == ops[..n][g].now + ttl;
      assert ops[g] == ops[..n][g];
    }
  }

  /** A successful mark consumes a nonce issued earlier and not yet expired. */
  lemma SuccessWasIssuedInTime(ops: seq<Op>, ttl: Time, i: nat)
    requires i < |ops| && Succeeds(ops, ttl, i)
    ensures exists g :: 0 <= g < i && ops[g] == Generate(ops[i].nonce, ops[g].now) && ops[i].now <= ops[g].now + ttl
  {
    TrackedWasIssued(ops[..i], ttl, ops[i].nonce);
    var g :| 0 <= g < i && ops[..i][g] == Generate(ops[i].nonce, ops[..i][g].now)
             && ApplyAll(ops[..i], ttl)[ops[i].nonce].expiresAt == ops[..i][g].now + ttl;
    assert ops[g] == Generate(ops[i].nonce, ops[g].now);
  }

  /** After a successful mark the nonce is used up or forgotten, for ever. */
  lemma {:induction false} ConsumedStaysConsumed(ops: seq<Op>, ttl: Time, i: nat, j: nat)
    requires FreshNonces(ops) && i < j <= |ops| && Succeeds(ops, ttl, i)
    ensures var s := ApplyAll(ops[..j], ttl); ops[i].nonce !in s || s[ops[i].nonce].used
    decreases j
  {
    assert ops[..j][..j - 1] == ops[..j - 1];
    if j > i + 1 {
      ConsumedStaysConsumed(ops, ttl, i, j - 1);
      if ops[j - 1].Generate? {
        SuccessWasIssuedInTime(ops, ttl, i);
      }
    }
  }

  /** Single use: over every run, no nonce is successfully marked twice. */
  lemma SingleUse(ops: seq<Op>, ttl: Time, i: nat, j: nat)
    requires FreshNonces(ops) && i < j < |ops|
    requires Succeeds(ops, ttl, i) && Succeeds(ops, ttl, j)
    ensures ops[i].nonce != ops[j].nonce
  {
    ConsumedStaysConsumed(ops, ttl, i, j);
  }

  // ----- clean-up is invisible -----

  function Without(ops: seq<Op>): seq<Op> {
    if ops == [] then []
    else Without(ops[..|ops| - 1]) + (if ops[|ops| - 1].Cleanup? then [] else [ops[|ops| - 1]])
  }

  /** What the callers of validate and mark are told, in order. */
  function Accepted(ops: seq<Op>, ttl: Time): seq<bool> {
    if ops == [] then []
    else
      var init, op := ops[..|ops| - 1], ops[|ops| - 1];
      Accepted(init, ttl)
      + if op.Validate? || op.Mark? then [Judge(ApplyAll(init, ttl), op.nonce, op.now).Fine?] else []
  }

  /** The cleaned-up table against the one that forgets nothing: it misses expired nonces only. */
  ghost predicate Shadows(s: Tracked, full: Tracked, clock: Time) {
    && (forall n :: n in s ==> n in full && s[n] == full[n])
    && (forall n :: n in full && n !in s ==> full[n].expiresAt < clock)
  }

  lemma StepShadows(s: Tracked, full: Tracked, op: Op, ttl: Time, clock: Time)
    requires Shadows(s, full, op.now) && op.now <= clock
    ensures Shadows(Apply(s, op, ttl), if op.Cleanup? then full else Apply(full, op, ttl), clock)
    ensures op.Validate? || op.Mark? ==>
              (Judge(s, op.nonce, op.now).Fine? <==> Judge(full, op.nonce, op.now).Fine?)
  {
  }

  lemma WithoutLast(ops: seq<Op>, ttl: Time)
    requires ops != []
    ensures var init, op := ops[..|ops| - 1], ops[|ops| - 1];
      && ApplyAll(Without(ops), ttl) == (if op.Cleanup? then ApplyAll(Without(init), ttl) else Apply(ApplyAll(Without(init), ttl), op, ttl))
      && Accepted(Without(ops), ttl) == Accepted(Without(init), ttl)
           + if op.Validate? || op.Mark? then [Judge(ApplyAll(Without(init), ttl), op.nonce, op.now).Fine?] else []
  {
    var init, op := ops[..|ops| - 1], ops[|ops| - 1];
    hide Apply, Judge;
    if op.Cleanup? {
      assert Without(ops) == Without(init);
    } else {
      assert Without(ops)[..|Without(init)|] == Without(init);
    }
  }

  lemma {:induction false} RunShadows(ops: seq<Op>, ttl: Time, clock: Time)
    requires ClockForward(ops, clock)
    ensures Shadows(ApplyAll(ops, ttl), ApplyAll(Without(ops), ttl), clock)
    ensures Accepted(ops, ttl) == Accepted(Without(ops), ttl)
  {
    if ops != [] {
      var init, op := ops[..|ops| - 1], ops[|ops| - 1];
      hide Apply, Judge, Shadows, Without;
      RunShadows(init, ttl, op.now);
      StepShadows(ApplyAll(init, ttl), ApplyAll(Without(init), ttl), op, ttl, clock);
      WithoutLast(ops, ttl);
    }
  }

  /** Runs that differ only in where `cleanup_expired` is called accept and refuse the same requests. */
  lemma CleanupIsInvisible(ops: seq<Op>, ops': seq<Op>, ttl: Time, clock: Time)
    requires ClockForward(ops, clock) && ClockForward(ops', clock)
    requires Without(ops) == Without(ops')
    ensures Accepted(ops, ttl) == Accepted(ops', ttl)
  {
    RunShadows(ops, ttl, clock);
    RunShadows(ops', ttl, clock);
  }

  /** Without clean-up nothing that was issued is ever forgotten. */
  lemma {:induction false} IssuedStaysTracked(ops: seq<Op>, ttl: Time, nonce: string)
    ensures nonce in ApplyAll(Without(ops), ttl) <==> Issued(ops, nonce)
  {
    if ops != [] {
      var init, op := ops[..|ops| - 1], ops[|ops| - 1];
      IssuedStaysTracked(init, ttl, nonce);
      WithoutLast(ops, ttl);
      hide Without;
      if Issued(init, nonce) {
        var g :| 0 <= g < |init| && init[g].Generate? && init[g].nonce == nonce;
        assert ops[g] == init[g];
      }
      if op.Generate? && op.nonce == nonce {
        assert ops[|ops| - 1] == op;
      }
      if Issued(ops, nonce) && !(op.Generate? && op.nonce == nonce) {
        var g :| 0 <= g < |ops| && ops[g].Generate? && ops[g].nonce == nonce;
        assert init[g] == ops[g];
      }
    }
  }

  ghost predicate Issued(ops: seq<Op>, nonce: string) {
    exists g :: 0 <= g < |ops| && ops[g].Generate? && ops[g].nonce == nonce
  }

  /** The stated reason is not invisible: it differs exactly for a nonce that was issued and is
      tracked no more, where "expired" becomes "not found". */
  lemma ReasonDiffersIffDropped(ops: seq<Op>, ttl: Time, nonce: string, now: Time)
    requires ClockForward(ops, now)
    ensures Judge(ApplyAll(ops, ttl), nonce, now) != Judge(ApplyAll(Without(ops), ttl), nonce, now)
       <==> Issued(ops, nonce) && nonce !in ApplyAll(ops, ttl)
    ensures Issued(ops, nonce) && nonce !in ApplyAll(ops, ttl)
        ==> Judge(ApplyAll(ops, ttl), nonce, now).NotFound? && Judge(ApplyAll(Without(ops), ttl), nonce, now).Expired?
  {
    RunShadows(ops, ttl, now);
    IssuedStaysTracked(ops, ttl, nonce);
    hide ApplyAll, Without, Issued;
  }

  /** A clean-up after the issue at step `g` found the nonce expired. */
  ghost predicate CleanedLate(ops: seq<Op>, ttl: Time, g: nat)
    requires g < |ops|
  {
    exists j :: g < j < |ops| && ops[j].Cleanup? && ops[g].now + ttl < ops[j].now
  }

  lemma LateCleanup(init: seq<Op>, op: Op, ttl: Time, g: nat)
    requires g < |init|
    ensures CleanedLate(init + [op], ttl, g) <==> CleanedLate(init, ttl, g) || (op.Cleanup? && init[g].now + ttl < op.now)
  {
    var ops := init + [op];
    assert ops[|init|] == op && forall j :: 0 <= j < |init| ==> ops[j] == init[j];
  }

  /** Which nonces those are, read off the calls: a nonce is forgotten exactly when a clean-up
      ran after it had expired. */
  lemma {:induction false} ForgottenIffCleanedLate(ops: seq<Op>, ttl: Time, g: nat)
    requires FreshNonces(ops) && g < |ops| && ops[g].Generate?
    ensures ops[g].nonce !in ApplyAll(ops, ttl) <==> CleanedLate(ops, ttl, g)
    ensures ops[g].nonce in ApplyAll(ops, ttl) ==> ApplyAll(ops, ttl)[ops[g].nonce].expiresAt == ops[g].now + ttl
    decreases |ops|
  {
    var n := |ops| - 1;
    if g < n {
      var init, op := ops[..n], ops[n];
      ForgottenIffCleanedLate(init, ttl, g);
      LateCleanup(init, op, ttl, g);
      assert ops == init + [op];
      hide CleanedLate;
    }
  }

  /** Step j asks to mark this nonce used. */
  ghost predicate MarkedSince(ops: seq<Op>, nonce: string, g: nat) {
    exists j :: g < j < |ops| && ops[j].Mark? && ops[j].nonce == nonce
  }

  lemma MarkedSnoc(init: seq<Op>, op: Op, nonce: string, g: nat)
    requires g < |init|
    ensures MarkedSince(init + [op], nonce, g) <==> MarkedSince(init, nonce, g) || (op.Mark? && op.nonce == nonce)
  {
    var ops := init + [op];
    assert ops[|init|] == op && forall j :: 0 <= j < |init| ==> ops[j] == init[j];
  }

  // While it has not expired, an issued nonce is tracked, and used exactly if it was marked.
  lemma {:induction false} TrackedUntilExpiry(ops: seq<Op>, ttl: Time, g: nat, clock: Time)
    requires FreshNonces(ops) && ClockForward(ops, clock)
    requires g < |ops| && ops[g].Generate? && clock <= ops[g].now + ttl
    ensures var s, n := ApplyAll(ops, ttl), ops[g].nonce;
            n in s && s[n].expiresAt == ops[g].now + ttl && (s[n].used <==> MarkedSince(ops, n, g))
    decreases |ops|
  {
    var n := |ops| - 1;
    if g < n {
      var init, op := ops[..n], ops[n];
      TrackedUntilExpiry(init, ttl, g, op.now);
      MarkedSnoc(init, op, ops[g].nonce, g);
      assert ops == init + [op];
      hide MarkedSince;
    }
  }

  /** The verdict, read off the calls.  A nonce that was issued is accepted up to and including
      its expiry as long as nobody asked to mark it, is called used from then on, and is refused
      once its expiry has passed; a nonce that was never issued is unknown. */
  lemma VerdictIsReadOff(ops: seq<Op>, ttl: Time, g: nat, now: Time)
    requires FreshNonces(ops) && ClockForward(ops, now) && g < |ops| && ops[g].Generate?
    ensures var verdict, marked := Judge(ApplyAll(ops, ttl), ops[g].nonce, now), MarkedSince(ops, ops[g].nonce, g);
      && (verdict == Fine <==> now <= ops[g].now + ttl && !marked)
      && (verdict == AlreadyUsed <==> now <= ops[g].now + ttl && marked)
      && (verdict == Expired <==> ops[g].now + ttl < now && !CleanedLate(ops, ttl, g))
      && (verdict == NotFound <==> CleanedLate(ops, ttl, g))
  {
    ForgottenIffCleanedLate(ops, ttl, g);
    if now <= ops[g].now + ttl {
      TrackedUntilExpiry(ops, ttl, g, now);
    }
    hide MarkedSince, CleanedLate, FreshNonces, ClockForward, ApplyAll;
  }

  lemma NeverIssuedIsUnknown(ops: seq<Op>, ttl: Time, nonce: string, now: Time)
    requires forall g :: 0 <= g < |ops| && ops[g].Generate? ==> ops[g].nonce != nonce
    ensures Judge(ApplyAll(ops, ttl), nonce, now) == NotFound
  {
    if nonce in ApplyAll(ops, ttl) {
      TrackedWasIssued(ops, ttl, nonce);
    }
  }

  lemma ReasonDiffersExample()
    ensures exists ops, nonce, now ::
              Judge(ApplyAll(ops, 300.0), nonce, now).NotFound?
              && Judge(ApplyAll(Without(ops), 300.0), nonce, now).Expired?
  {
    var kept := [Generate("n", 0.0)];
    var ops := kept + [Cleanup(301.0)];
    assert ops[..1] == kept && kept[..0] == [];
    assert Without(kept) == kept;
    assert Without(ops) == kept;
    assert Judge(ApplyAll(ops, 300.0), "n", 301.0).NotFound?;
    assert Judge(ApplyAll(Without(ops), 300.0), "n", 301.0).Expired?;
  }

  // ----- the objects -----

  class NonceRecord {
    const issuedAt: Time
    const expiresAt: Time
    var used: bool
    var usedAt: Option<Time>

    constructor (issuedAt: Time, expiresAt: Time)
      ensures Snapshot() == Rec(issuedAt, expiresAt, false, None)
    {
      this.issuedAt := issuedAt;
      this.expiresAt := expiresAt;
      used := false;
      usedAt := None;
    }

    function Snapshot(): Rec
      reads this
    {
      Rec(issuedAt, expiresAt, used, usedAt)
    }
  }

  ghost function AbstractOf(m: map<string, NonceRecord>): Tracked
    reads m.Values
  {
    map n | n in m :: m[n].Snapshot()
  }

  lemma DropExpired(m: map<string, NonceRecord>, expired: set<string>, now: Time, ttl: Time)
    requires expired == set n | n in m && m[n].expiresAt < now
    ensures AbstractOf(m - expired) == Apply(AbstractOf(m), Cleanup(now), ttl)
  {
    var l, r := AbstractOf(m - expired), Apply(AbstractOf(m), Cleanup(now), ttl);
    assert l.Keys == r.Keys;
    assert forall n :: n in l ==> l[n] == m[n].Snapshot() && r[n] == m[n].Snapshot();
  }

  lemma DropSize<V>(m: map<string, V>, dead: set<string>)
    requires dead <= m.Keys
    ensures |m - dead| == |m| - |dead|
    ensures (m - dead).Values <= m.Values
  {
    assert (m - dead).Keys == m.Keys - dead;
  }

  class NonceManager {
    const ttl: Time
    var nonces: map<string, NonceRecord>

    /** No two nonces share a record. */
    ghost predicate Valid()
      reads this
    {
      forall n, m :: n in nonces && m in nonces && nonces[n] == nonces[m] ==> n == m
    }

    ghost function Abstract(): Tracked
      reads this, nonces.Values
    {
      AbstractOf(nonces)
    }

    constructor (ttl: Time)
      ensures Valid() && this.ttl == ttl && nonces == map[]
      ensures Abstract() == map[]
    {
      this.ttl := ttl;
      nonces := map[];
    }

    method GenerateNonce(nonce: string, now: Time)
      requires Valid()
      modifies this
      ensures Valid() && fresh(nonces.Values - old(nonces.Values))
      ensures Abstract() == Apply(old(Abstract()), Generate(nonce, now), ttl)
      ensures nonce in nonces && nonces == old(nonces)[nonce := nonces[nonce]]
      ensures var record := nonces[nonce];
              record.issuedAt == now && record.expiresAt == now + ttl && !record.used && record.usedAt.None?
    {
      var record := new NonceRecord(now, now + ttl);
      assert record !in nonces.Values;
      assert forall n :: n in nonces ==> nonces[n] in nonces.Values;
      nonces := nonces[nonce := record];
    }

    method ValidateNonce(nonce: string, now: Time) returns (ok: bool, verdict: Verdict)
      requires Valid()
      ensures verdict == Judge(Abstract(), nonce, now)
      ensures ok <==> verdict.Fine?
      ensures ok <==> nonce in nonces && now <= nonces[nonce].expiresAt && !nonces[nonce].used
      ensures verdict.NotFound? <==> nonce !in nonces
      ensures verdict.Expired? <==> nonce in nonces && nonces[nonce].expiresAt < now
    {
      if nonce !in nonces {
        return false, NotFound;
      }
      var record := nonces[nonce];
      if now > record.expiresAt {
        return false, Expired;
      }
      if record.used {
        return false, AlreadyUsed;
      }
      return true, Fine;
    }

    method MarkNonceUsed(nonce: string, now: Time, stamp: Time) returns (ok: bool)
      requires Valid()
      modifies nonces.Values
      ensures Valid() && nonces == old(nonces)
      ensures ok <==> Judge(old(Abstract()), nonce, now).Fine?
      ensures Abstract() == Apply(old(Abstract()), Mark(nonce, now, stamp), ttl)
      ensures ok <==> nonce in nonces && now <= nonces[nonce].expiresAt && !old(nonces[nonce].used)
      ensures ok ==> nonces[nonce].used && nonces[nonce].usedAt == Some(stamp)
      ensures forall n :: n in nonces && !(ok && n == nonce) ==> unchanged(nonces[n])
    {
      var verdict;
      ok, verdict := ValidateNonce(nonce, now);
      if !ok {
        return;
      }
      var record := nonces[nonce];
      assert record in nonces.Values;
      record.used := true;
      record.usedAt := Some(stamp);
    }

    method CleanupExpired(now: Time) returns (removed: nat)
      requires Valid()
      modifies this
      ensures Valid() && nonces.Values <= old(nonces.Values)
      ensures Abstract() == Apply(old(Abstract()), Cleanup(now), ttl)
      ensures removed == |old(nonces)| - |nonces|
      ensures forall n :: n in nonces <==> n in old(nonces) && now <= old(nonces)[n].expiresAt
      ensures forall n :: n in nonces ==> nonces[n] == old(nonces)[n]
    {
      hide AbstractOf, Apply;
      var expired := set n | n in nonces && nonces[n].expiresAt < now;
      DropExpired(nonces, expired, now, ttl);
      DropSize(nonces, expired);
      nonces := Drop(nonces, expired);
      removed := |expired|;
    }

    /** `del self.nonces[nonce]` for each of them. */
    static method Drop(m: map<string, NonceRecord>, dead: set<string>) returns (left: map<string, NonceRecord>)
      requires dead <= m.Keys
      ensures left == m - dead
    {
      left := m;
      var rest := dead;
      while rest != {}
        invariant rest <= dead
        invariant left == m - (dead - rest)
        decreases |rest|
      {
        var n :| n in rest;
        left := left - {n};
        rest := rest - {n};
      }
    }
  }
}
