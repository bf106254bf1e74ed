/** The versioned signing keys of examples/key_rotation.py.

    `KeyVersion` objects are shared with callers and overwritten in place by rotate and
    revoke.  The class is proved against immutable snapshots of the store, and what
    historical verification promises is proved about runs of those snapshots.
    Timestamps are integers. */
module KeyRotation {
  import opened Wrappers

  type Time = int

  datatype State = Valid | Rotated | Revoked

  /** The fields of one version at one moment. */
  datatype Version = Version(
    algorithm: string,
    publicKey: string,
    validUntil: Option<Time>,
    createdAt: Time,
    state: State,
    rotatedAt: Option<Time>,
    revokedAt: Option<Time>,
    reason: Option<string>,
    successor: Option<string>)

  type Versions = seq<Version>
  type Store = map<string, Versions>

  // ----- historical verification -----

  predicate Passed(deadline: Option<Time>, t: Time) {
    deadline.Some? && t >= deadline.value
  }

  /** The version existed at `t` and was then neither rotated, revoked nor expired. */
  predicate UsableAt(v: Version, t: Time) {
    v.createdAt <= t && !Passed(v.rotatedAt, t) && !Passed(v.revokedAt, t) && !Passed(v.validUntil, t)
  }

  /** The position of the newest version usable at `t`. */
  function NewestUsable(vs: Versions, t: Time): (r: Option<nat>)
    ensures r.None? ==> forall i :: 0 <= i < |vs| ==> !UsableAt(vs[i], t)
    ensures r.Some? ==> r.value < |vs| && UsableAt(vs[r.value], t)
                        && forall i :: r.value < i < |vs| ==> !UsableAt(vs[i], t)
  {
    if vs == [] then None
    else if UsableAt(vs[|vs| - 1], t) then Some(|vs| - 1)
    else NewestUsable(vs[..|vs| - 1], t)
  }

  function VersionsOf(s: Store, k: string): Versions {
    if k in s then s[k] else []
  }

  // ----- the three updates -----

  datatype Op =
    | Add(key: string, algorithm: string, publicKey: string, validUntil: Option<Time>, now: Time)
    | Rotate(old_: string, new_: string, now: Time)
    | Revoke(key: string, why: string, now: Time)

  function Fresh(op: Op): Version
    requires op.Add?
  {
    Version(op.algorithm, op.publicKey, op.validUntil, op.now, Valid, None, None, None, None)
  }

  predicate CanRotate(s: Store, old_: string, new_: string) {
    VersionsOf(s, old_) != [] && VersionsOf(s, new_) != [] && Last(VersionsOf(s, old_)).state == Valid
  }

  function Last(vs: Versions): Version
    requires vs != []
  {
    vs[|vs| - 1]
  }

  function ReplaceLast(vs: Versions, v: Version): Versions
    requires vs != []
  {
    vs[|vs| - 1 := v]
  }

  function Apply(s: Store, op: Op): Store {
    match op
    case Add(key, _, _, _, _) => s[key := VersionsOf(s, key) + [Fresh(op)]]
    case Rotate(o, n, now) =>
      if CanRotate(s, o, n) then
        s[o := ReplaceLast(s[o], Last(s[o]).(state := Rotated, rotatedAt := Some(now), successor := Some(n)))]
      else s
    case Revoke(key, why, now) =>
      if VersionsOf(s, key) != [] then
        s[key := ReplaceLast(s[key], Last(s[key]).(state := Revoked, revokedAt := Some(now), reason := Some(why)))]
      else s
  }

  /** State names and timestamps agree. */
  ghost predicate Coherent(s: Store) {
    forall k, i :: k in s && 0 <= i < |s[k]| ==>
      && (s[k][i].state == Valid ==> s[k][i].rotatedAt.None? && s[k][i].revokedAt.None?)
      && (s[k][i].state == Revoked <==> s[k][i].revokedAt.Some?)
  }

  /** The one call that rewrites the past: revoking a version that is already revoked. */
  predicate RevokesAgain(s: Store, op: Op) {
    op.Revoke? && VersionsOf(s, op.key) != [] && Last(VersionsOf(s, op.key)).state == Revoked
  }

  lemma ApplyCoherent(s: Store, op: Op)
    requires Coherent(s)
    ensures Coherent(Apply(s, op))
  {
  }

  // ----- the past is stable -----

  /** The same key material, expiry and creation time. */
  ghost predicate SameMaterial(v: Version, w: Version) {
    v.algorithm == w.algorithm && v.publicKey == w.publicKey && v.validUntil == w.validUntil && v.createdAt == w.createdAt
  }

  /** `vs'` extends `vs`: versions are only ever appended, and their material never changes. */
  ghost predicate Extends(vs: Versions, vs': Versions) {
    |vs| <= |vs'| && forall i :: 0 <= i < |vs| ==> SameMaterial(vs[i], vs'[i])
  }

  lemma NewestUsableUnique(vs: Versions, t: Time, i: nat)
    requires i < |vs| && UsableAt(vs[i], t) && forall j :: i < j < |vs| ==> !UsableAt(vs[j], t)
    ensures NewestUsable(vs, t) == Some(i)
  {
  }

  /** If every old version is usable at `t` exactly when it was, and no new one is, the answer stands. */
  lemma SameUsableSameAnswer(vs: Versions, vs': Versions, t: Time)
    requires |vs| <= |vs'|
    requires forall i :: 0 <= i < |vs| ==> (UsableAt(vs[i], t) <==> UsableAt(vs'[i], t))
    requires forall i :: |vs| <= i < |vs'| ==> !UsableAt(vs'[i], t)
    ensures NewestUsable(vs', t) == NewestUsable(vs, t)
  {
    var r := NewestUsable(vs, t);
    if r.Some? {
      NewestUsableUnique(vs', t, r.value);
    } else if NewestUsable(vs', t).Some? {
      assert false;
    }
  }

  lemma OneStepKeepsPast(s: Store, op: Op, k: string, t: Time)
    requires Coherent(s) && !RevokesAgain(s, op) && t < op.now
    ensures NewestUsable(VersionsOf(Apply(s, op), k), t) == NewestUsable(VersionsOf(s, k), t)
    ensures Extends(VersionsOf(s, k), VersionsOf(Apply(s, op), k))
  {
    var vs, vs' := VersionsOf(s, k), VersionsOf(Apply(s, op), k);
    if vs' != vs {
      if !op.Add? {
        assert !Passed(Last(vs).revokedAt, t) && UsableAt(Last(vs), t) == UsableAt(Last(vs'), t);
      }
      SameUsableSameAnswer(vs, vs', t);
    }
  }

  // ----- whole runs -----

  function ApplyAll(s: Store, ops: seq<Op>): Store
    decreases |ops|
  {
    if ops == [] then s else ApplyAll(Apply(s, ops[0]), ops[1..])
  }

  ghost predicate ClockForward(ops: seq<Op>, since: Time) {
    && (forall i :: 0 <= i < |ops| ==> since <= ops[i].now)
    && (forall i, j :: 0 <= i < j < |ops| ==> ops[i].now <= ops[j].now)
  }

  /** Nobody revokes an already revoked version along the way. */
  ghost predicate RevokesOnce(s: Store, ops: seq<Op>)
    decreases |ops|
  {
    ops != [] ==> !RevokesAgain(s, ops[0]) && RevokesOnce(Apply(s, ops[0]), ops[1..])
  }

  /** History is stable: no run of additions, rotations and revocations changes which
      version, with which key material, answers for a moment before the run. */
  lemma {:induction false} HistoryIsStable(s: Store, ops: seq<Op>, since: Time, k: string, t: Time)
    requires Coherent(s) && ClockForward(ops, since) && RevokesOnce(s, ops) && t < since
    ensures NewestUsable(VersionsOf(ApplyAll(s, ops), k), t) == NewestUsable(VersionsOf(s, k), t)
    ensures Extends(VersionsOf(s, k), VersionsOf(ApplyAll(s, ops), k))
    decreases |ops|
  {
    if ops != [] {
      OneStepKeepsPast(s, ops[0], k, t);
      ApplyCoherent(s, ops[0]);
      HistoryIsStable(Apply(s, ops[0]), ops[1..], since, k, t);
    }
  }

  /** The version was already revoked at `t` and had no other reason to be unusable then. */
  predicate UsableButRevokedAt(v: Version, t: Time) {
    Passed(v.revokedAt, t) && UsableAt(v.(revokedAt := None), t)
  }

  /** Revoking again moves `revoked_at` to now.  This changes the answer for a past moment
      `t` exactly when the version was already revoked at `t`, had been created, and was
      neither rotated nor expired: that moment becomes usable again. */
  lemma RevokingAgainRewritesThePastIff(s: Store, op: Op, t: Time)
    requires Coherent(s) && op.Revoke? && VersionsOf(s, op.key) != [] && t < op.now
    ensures NewestUsable(VersionsOf(Apply(s, op), op.key), t) != NewestUsable(VersionsOf(s, op.key), t)
       <==> UsableButRevokedAt(Last(VersionsOf(s, op.key)), t)
  {
    var vs := VersionsOf(s, op.key);
    var vs' := VersionsOf(Apply(s, op), op.key);
    var n := |vs| - 1;
    if UsableAt(vs[n], t) {
      NewestUsableUnique(vs, t, n);
      NewestUsableUnique(vs', t, n);
    } else if UsableAt(vs'[n], t) {
      NewestUsableUnique(vs', t, n);
    } else {
      SameUsableSameAnswer(vs, vs', t);
    }
  }

  /** The step revokes again a version that was unusable at `t` for that reason alone. */
  predicate StepRewrites(s: Store, op: Op, k: string, t: Time) {
    op.Revoke? && op.key == k && VersionsOf(s, k) != [] && UsableButRevokedAt(Last(VersionsOf(s, k)), t)
  }

  function Place(answer: Option<nat>): int {
    if answer.None? then -1 else answer.value
  }

  /** One step changes the answer for an earlier moment exactly when it rewrites, and then the
      answer moves to a newer version. */
  lemma StepChangesPastIff(s: Store, op: Op, k: string, t: Time)
    requires Coherent(s) && t < op.now
    ensures var before, after := NewestUsable(VersionsOf(s, k), t), NewestUsable(VersionsOf(Apply(s, op), k), t);
      && (after != before <==> StepRewrites(s, op, k, t))
      && Place(before) <= Place(after)
    ensures Extends(VersionsOf(s, k), VersionsOf(Apply(s, op), k))
  {
    if !RevokesAgain(s, op) {
      OneStepKeepsPast(s, op, k, t);
    } else if op.key == k {
      hide NewestUsable;
      RevokingAgainRewritesThePastIff(s, op, t);
      LastIsNewest(VersionsOf(s, k), VersionsOf(Apply(s, op), k), t);
    }
  }

  // A change of the last version that changes the answer makes it the last version.
  lemma LastIsNewest(vs: Versions, vs': Versions, t: Time)
    requires |vs| == |vs'| > 0 && vs[..|vs| - 1] == vs'[..|vs| - 1]
    requires UsableAt(vs[|vs| - 1], t) ==> UsableAt(vs'[|vs| - 1], t)
    ensures Place(NewestUsable(vs, t)) <= Place(NewestUsable(vs', t))
  {
    hide UsableAt;
  }

  /** Some step of the run rewrites. */
  ghost predicate RewritesPast(s: Store, ops: seq<Op>, k: string, t: Time)
    decreases |ops|
  {
    ops != [] && (StepRewrites(s, ops[0], k, t) || RewritesPast(Apply(s, ops[0]), ops[1..], k, t))
  }

  lemma ExtendsFurther(a: Versions, b: Versions, c: Versions)
    requires Extends(a, b) && Extends(b, c)
    ensures Extends(a, c)
  {
  }

  lemma ClockTail(ops: seq<Op>, since: Time)
    requires ops != [] && ClockForward(ops, since)
    ensures ClockForward(ops[1..], since) && since <= ops[0].now
  {
  }

  /** Over any run, with whatever revocations: the answer for a moment before the run changes
      exactly when some step revokes again a version that only its revocation had made unusable
      then.  A changed answer never changes back, for it only moves to newer versions. */
  lemma {:induction false} RunChangesPastIff(s: Store, ops: seq<Op>, since: Time, k: string, t: Time)
    requires Coherent(s) && ClockForward(ops, since) && t < since
    ensures var before, after := NewestUsable(VersionsOf(s, k), t), NewestUsable(VersionsOf(ApplyAll(s, ops), k), t);
      && (after != before <==> RewritesPast(s, ops, k, t))
      && Place(before) <= Place(after)
    ensures Extends(VersionsOf(s, k), VersionsOf(ApplyAll(s, ops), k))
    decreases |ops|
  {
    if ops == [] {
      assert Extends(VersionsOf(s, k), VersionsOf(s, k));
    } else {
      hide NewestUsable, Apply, Coherent, StepRewrites, ClockForward, Extends, VersionsOf;
      ClockTail(ops, since);
      StepChangesPastIff(s, ops[0], k, t);
      ApplyCoherent(s, ops[0]);
      RunChangesPastIff(Apply(s, ops[0]), ops[1..], since, k, t);
      ExtendsFurther(VersionsOf(s, k), VersionsOf(Apply(s, ops[0]), k), VersionsOf(ApplyAll(s, ops), k));
    }
  }

  // ----- from an update on -----

  /** No deadline of the version, whichever it is, has come by `t`. */
  lemma UsableMeans(v: Version, t: Time)
    ensures UsableAt(v, t) <==>
              v.createdAt <= t && forall d :: d in {v.rotatedAt, v.revokedAt, v.validUntil} && d.Some? ==> t < d.value
  {
    assert UsableAt(v, t) <==> v.createdAt <= t && forall d :: d in {v.rotatedAt, v.revokedAt, v.validUntil} ==> !Passed(d, t);
  }

  /** The key whose newest version the update overwrites, if there is one. */
  predicate Hits(s: Store, op: Op, k: string) {
    match op
    case Add(_, _, _, _, _) => false
    case Rotate(o, n, _) =>
      o == k && k in s && n in s && s[k] != [] && s[n] != [] && s[k][|s[k]| - 1].state == Valid
    case Revoke(key, _, _) => key == k && k in s && s[k] != []
  }

  /** From a successful rotation or a revocation on, the version it hit answers for no moment;
      what is left to answer are the versions before it. */
  lemma HitVersionStopsAnswering(s: Store, op: Op, k: string, t: Time)
    requires Hits(s, op, k) && op.now <= t
    ensures var before, after := VersionsOf(s, k), VersionsOf(Apply(s, op), k);
      && |after| == |before| && !UsableAt(after[|after| - 1], t)
      && NewestUsable(after, t) == NewestUsable(before[..|before| - 1], t)
  {
    var before, after := VersionsOf(s, k), VersionsOf(Apply(s, op), k);
    assert after[..|after| - 1] == before[..|before| - 1];
  }

  lemma UnhitStays(s: Store, op: Op, k: string, i: nat)
    requires i < |VersionsOf(s, k)| && !(Hits(s, op, k) && i == |VersionsOf(s, k)| - 1)
    ensures i < |VersionsOf(Apply(s, op), k)| && VersionsOf(Apply(s, op), k)[i] == VersionsOf(s, k)[i]
  {
  }

  /** A rotation is never taken back or moved: the version answers for no moment from it on,
      whatever is done later. */
  lemma {:induction false} RotatedStaysUnusable(s: Store, ops: seq<Op>, k: string, i: nat, at: Time, t: Time)
    requires Coherent(s) && i < |VersionsOf(s, k)| && VersionsOf(s, k)[i].rotatedAt == Some(at) && at <= t
    ensures i < |VersionsOf(ApplyAll(s, ops), k)| && VersionsOf(ApplyAll(s, ops), k)[i].rotatedAt == Some(at)
    ensures !UsableAt(VersionsOf(ApplyAll(s, ops), k)[i], t)
    decreases |ops|
  {
    if ops != [] {
      ApplyCoherent(s, ops[0]);
      RotatedStaysUnusable(Apply(s, ops[0]), ops[1..], k, i, at, t);
    }
  }

  /** A revoked version answers for no moment from its last revocation on. */
  lemma {:induction false} RevokedStaysUnusable(s: Store, ops: seq<Op>, k: string, i: nat, t: Time)
    requires i < |VersionsOf(s, k)| && VersionsOf(s, k)[i].revokedAt.Some? && VersionsOf(s, k)[i].revokedAt.value <= t
    requires forall n :: 0 <= n < |ops| && ops[n].Revoke? && ops[n].key == k ==> ops[n].now <= t
    ensures i < |VersionsOf(ApplyAll(s, ops), k)| && VersionsOf(ApplyAll(s, ops), k)[i].revokedAt.Some?
    ensures !UsableAt(VersionsOf(ApplyAll(s, ops), k)[i], t)
    decreases |ops|
  {
    if ops != [] {
      RevokedStaysUnusable(Apply(s, ops[0]), ops[1..], k, i, t);
    }
  }

  /** Version `i` is the one added by `add`, no deadline but its expiry has come by `t`, and
      everything newer was created after `t`. */
  ghost predicate Answering(vs: Versions, i: nat, add: Op, t: Time)
    requires add.Add?
  {
    && i < |vs|
    && vs[i].algorithm == add.algorithm && vs[i].publicKey == add.publicKey
    && vs[i].validUntil == add.validUntil && vs[i].createdAt == add.now
    && (vs[i].rotatedAt.Some? ==> t < vs[i].rotatedAt.value)
    && (vs[i].revokedAt.Some? ==> t < vs[i].revokedAt.value)
    && forall j :: i < j < |vs| ==> t < vs[j].createdAt
  }

  lemma {:induction false} KeepsAnswering(s: Store, ops: seq<Op>, k: string, i: nat, add: Op, t: Time)
    requires add.Add? && Answering(VersionsOf(s, k), i, add, t)
    requires forall n :: 0 <= n < |ops| ==> t < ops[n].now
    ensures Answering(VersionsOf(ApplyAll(s, ops), k), i, add, t)
    decreases |ops|
  {
    if ops != [] {
      KeepsAnswering(Apply(s, ops[0]), ops[1..], k, i, add, t);
    }
  }

  /** Rotation does not invalidate the past: a receipt signed after a key was added, before it
      expires and before the next update of the store, is verified with that very key for
      ever, whatever additions, rotations and revocations (even repeated ones) come later. */
  lemma ReceiptStillVerifies(s: Store, add: Op, later: seq<Op>, t: Time)
    requires add.Add? && add.now <= t && (add.validUntil.Some? ==> t < add.validUntil.value)
    requires forall n :: 0 <= n < |later| ==> t < later[n].now
    ensures var vs, i := VersionsOf(ApplyAll(Apply(s, add), later), add.key), |VersionsOf(s, add.key)|;
      && NewestUsable(vs, t) == Some(i)
      && vs[i].algorithm == add.algorithm && vs[i].publicKey == add.publicKey && vs[i].createdAt == add.now
  {
    var i := |VersionsOf(s, add.key)|;
    KeepsAnswering(Apply(s, add), later, add.key, i, add, t);
    NewestUsableUnique(VersionsOf(ApplyAll(Apply(s, add), later), add.key), t, i);
  }

  /** A concrete double revocation: revoked at 10 and again at 20, the key answers for 15 again. */
  lemma DoubleRevocationExample()
    ensures exists s, op, t ::
              Coherent(s) && RevokesAgain(s, op) && t < op.now
              && NewestUsable(VersionsOf(s, op.key), t) == None
              && NewestUsable(VersionsOf(Apply(s, op), op.key), t) == Some(0)
  {
    var s0: Store := map[];
    var s := Apply(Apply(s0, Add("k", "ed25519", "ab", None, 0)), Revoke("k", "compromise", 10));
    var op := Revoke("k", "compromise", 20);
    assert Coherent(s) && RevokesAgain(s, op);
    NewestUsableUnique(VersionsOf(Apply(s, op), "k"), 15, 0);
    assert NewestUsable(VersionsOf(s, op.key), 15) == None;
  }

  // ----- the objects -----

  datatype ValueError = ValueError

  /** The audit history: what happened, and when. */
  datatype LogEvent =
    | KeyAdded(key: string, algorithm: string)
    | KeyRotated(old_: string, new_: string, why: string)
    | KeyRevoked(key: string, why: string)

  datatype LogEntry = LogEntry(event: LogEvent, at: Time)

  /** An exported store.  Either part may be missing from what is imported. */
  datatype Export = Export(keystore: Option<Store>, history: Option<seq<LogEntry>>, at: Time)

  class KeyVersion {
    const algorithm: string
    const publicKey: string
    const validUntil: Option<Time>
    const createdAt: Time
    var state: State
    var rotatedAt: Option<Time>
    var revokedAt: Option<Time>
    var reason: Option<string>
    var successor: Option<string>

    constructor (v: Version)
      ensures Snapshot() == v
    {
      algorithm := v.algorithm;
      publicKey := v.publicKey;
      validUntil := v.validUntil;
      createdAt := v.createdAt;
      state := v.state;
      rotatedAt := v.rotatedAt;
      revokedAt := v.revokedAt;
      reason := v.reason;
      successor := v.successor;
    }

    function Snapshot(): Version
      reads this
    {
      Version(algorithm, publicKey, validUntil, createdAt, state, rotatedAt, revokedAt, reason, successor)
    }
  }

  /** At `t` the version had been created, and neither rotated, revoked nor expired. */
  ghost predicate Covers(v: KeyVersion, t: Time)
    reads v
  {
    && v.createdAt <= t
    && (v.rotatedAt.Some? ==> t < v.rotatedAt.value)
    && (v.revokedAt.Some? ==> t < v.revokedAt.value)
    && (v.validUntil.Some? ==> t < v.validUntil.value)
  }

  type Objects = map<string, seq<KeyVersion>>

  ghost function Repr(m: Objects): set<KeyVersion> {
    set k, i | k in m && 0 <= i < |m[k]| :: m[k][i]
  }

  /** No version object occurs twice. */
  ghost predicate Distinct(m: Objects) {
    forall k, i, l, j ::
      k in m && l in m && 0 <= i < |m[k]| && 0 <= j < |m[l]| && m[k][i] == m[l][j]
      ==> k == l && i == j
  }

  ghost function Snapshots(vs: seq<KeyVersion>): (r: Versions)
    reads vs
    ensures |r| == |vs| && forall i :: 0 <= i < |vs| ==> r[i] == vs[i].Snapshot()
  {
    seq(|vs|, i requires 0 <= i < |vs| reads vs => vs[i].Snapshot())
  }

  ghost function AbstractOf(m: Objects): Store
    reads Repr(m)
  {
    map k | k in m :: Snapshots(m[k])
  }

  /** Binding a key to other objects changes the snapshot of that key only. */
  lemma BindKey(m: Objects, key: string, vs: seq<KeyVersion>)
    ensures AbstractOf(m[key := vs]) == AbstractOf(m)[key := Snapshots(vs)]
  {
  }

  function ObjectsOf(m: Objects, key: string): seq<KeyVersion> {
    if key in m then m[key] else []
  }

  function Newest(m: Objects, key: string): KeyVersion
    requires ObjectsOf(m, key) != []
  {
    m[key][|m[key]| - 1]
  }

  lemma SnapshotsAppend(m: Objects, key: string, version: KeyVersion)
    ensures Snapshots(ObjectsOf(m, key) + [version]) == VersionsOf(AbstractOf(m), key) + [version.Snapshot()]
  {
  }

  lemma BindFresh(m: Objects, key: string, kept: nat, vs: seq<KeyVersion>)
    requires Distinct(m) && kept <= |vs|
    requires kept > 0 ==> key in m && kept <= |m[key]| && vs[..kept] == m[key][..kept]
    requires forall i :: kept <= i < |vs| ==> vs[i] !in Repr(m)
    requires forall i, j :: kept <= i < j < |vs| ==> vs[i] != vs[j]
    ensures Distinct(m[key := vs])
    ensures forall v :: v in Repr(m[key := vs]) ==> v in Repr(m) || v in vs[kept..]
  {
    var m' := m[key := vs];
    assert forall k, i :: k in m && 0 <= i < |m[k]| ==> m[k][i] in Repr(m);
    assert forall i :: 0 <= i < kept ==> vs[i] == vs[..kept][i] == m[key][i];
    forall v | v in Repr(m') && v !in Repr(m) ensures v in vs[kept..] {
      var k, i :| k in m' && 0 <= i < |m'[k]| && m'[k][i] == v;
      assert k == key && i >= kept && vs[kept..][i - kept] == v;
    }
  }

  class KeyStore {
    var keys: Objects
    var history: seq<LogEntry>

    ghost predicate Valid()
      reads this
    {
      Distinct(keys)
    }

    ghost function Abstract(): Store
      reads this, Repr(keys)
    {
      AbstractOf(keys)
    }

    constructor ()
      ensures Valid() && keys == map[] && Abstract() == map[] && history == []
    {
      keys := map[];
      history := [];
    }

    method AddKey(key: string, algorithm: string, publicKey: string, validUntil: Option<Time>, now: Time)
      returns (version: KeyVersion)
      requires Valid()
      modifies this
      ensures Valid() && fresh(version) && fresh(Repr(keys) - old(Repr(keys)))
      ensures keys == old(keys)[key := ObjectsOf(old(keys), key) + [version]]
      ensures version.algorithm == algorithm && version.publicKey == publicKey
      ensures version.validUntil == validUntil && version.createdAt == now
      ensures version.state == State.Valid && version.rotatedAt == version.revokedAt == None
      ensures version.reason == version.successor == None
      ensures Abstract() == Apply(old(Abstract()), Add(key, algorithm, publicKey, validUntil, now))
      ensures history == old(history) + [LogEntry(KeyAdded(key, algorithm), now)]
    {
      hide Distinct, AbstractOf;
      version := new KeyVersion(Version(algorithm, publicKey, validUntil, now, State.Valid, None, None, None, None));
      assert forall v :: v in Repr(keys) ==> old(allocated(v));
      assert AbstractOf(keys) == old(AbstractOf(keys));
      AppendVersion(key, version);
      Log(KeyAdded(key, algorithm), now);
    }

    /** `_log` */
    method Log(event: LogEvent, now: Time)
      modifies this`history
      ensures history == old(history) + [LogEntry(event, now)]
    {
      history := history + [LogEntry(event, now)];
    }

    method AppendVersion(key: string, version: KeyVersion)
      requires Valid() && version !in Repr(keys)
      modifies this`keys
      ensures Valid() && Repr(keys) <= old(Repr(keys)) + {version}
      ensures keys == old(keys)[key := ObjectsOf(old(keys), key) + [version]]
      ensures Abstract() == old(Abstract())[key := VersionsOf(old(Abstract()), key) + [version.Snapshot()]]
    {
      hide Distinct, AbstractOf, VersionsOf, Snapshots;
      SnapshotsAppend(keys, key, version);
      var versions := ObjectsOf(keys, key);
      Bind(key, versions + [version], |versions|);
    }

    /** Bind `key` to its first `kept` objects followed by new ones. */
    method Bind(key: string, vs: seq<KeyVersion>, ghost kept: nat)
      requires Valid() && kept <= |vs|
      requires kept > 0 ==> key in keys && kept <= |keys[key]| && vs[..kept] == keys[key][..kept]
      requires forall i :: kept <= i < |vs| ==> vs[i] !in Repr(keys)
      requires forall i, j :: kept <= i < j < |vs| ==> vs[i] != vs[j]
      modifies this`keys
      ensures Valid() && keys == old(keys)[key := vs]
      ensures Abstract() == old(Abstract())[key := Snapshots(vs)]
      ensures forall v :: v in Repr(keys) ==> v in old(Repr(keys)) || v in vs[kept..]
    {
      hide Distinct;
      BindKey(keys, key, vs);
      BindFresh(keys, key, kept, vs);
      keys := keys[key := vs];
    }

    /** `export_keystore`: the fields of every version of every key, and the history. */
    method ExportKeystore(now: Time) returns (e: Export)
      requires Valid()
      ensures e == Export(Some(Abstract()), Some(history), now)
    {
      var data := ExportKeys();
      return Export(Some(data), Some(history), now);
    }

    method ExportKeys() returns (data: Store)
      requires Valid()
      ensures data == Abstract()
    {
      data := map[];
      var rest := keys.Keys;
      while rest != {}
        invariant rest <= keys.Keys
        invariant data == Abstract() - rest
        decreases |rest|
      {
        var k :| k in rest;
        var versions := AsDicts(keys[k]);
        data := data[k := versions];
        rest := rest - {k};
      }
    }

    static method AsDicts(objects: seq<KeyVersion>) returns (vs: Versions)
      ensures vs == Snapshots(objects)
    {
      vs := [];
      for n := 0 to |objects|
        invariant |vs| == n
        invariant forall i :: 0 <= i < n ==> vs[i] == objects[i].Snapshot()
      {
        vs := vs + [objects[n].Snapshot()];
      }
    }

    /** `import_keystore`: every imported key gets new version objects and other keys stay; an
        imported history replaces the old one.  Data without a keystore entry is refused. */
    method ImportKeystore(data: Export) returns (r: Result<(), ValueError>)
      requires Valid()
      modifies this
      ensures Valid() && fresh(Repr(keys) - old(Repr(keys)))
      ensures r.Failure? <==> data.keystore.None?
      ensures r.Failure? ==> Abstract() == old(Abstract()) && history == old(history)
      ensures r.Success? ==>
                && Abstract() == old(Abstract()) + data.keystore.value
                && history == if data.history.Some? then data.history.value else old(history)
    {
      if data.keystore.None? {
        return Failure(ValueError);
      }
      ImportKeys(data.keystore.value);
      if data.history.Some? {
        history := data.history.value;
      }
      return Success(());
    }

    method ImportKeys(data: Store)
      requires Valid()
      modifies this`keys
      ensures Valid() && fresh(Repr(keys) - old(Repr(keys)))
      ensures Abstract() == old(Abstract()) + data
    {
      hide Distinct, AbstractOf;
      var rest := data.Keys;
      while rest != {}
        invariant rest <= data.Keys
        invariant Valid() && fresh(Repr(keys) - old(Repr(keys)))
        invariant Abstract() == old(Abstract()) + (data - rest)
        decreases |rest|
      {
        var k :| k in rest;
        ImportKey(k, data[k]);
        rest := rest - {k};
        assert data - rest == (data - rest - {k})[k := data[k]];
      }
      assert data - {} == data;
    }

    method ImportKey(key: string, vs: Versions)
      requires Valid()
      modifies this`keys
      ensures Valid() && fresh(Repr(keys) - old(Repr(keys)))
      ensures Abstract() == old(Abstract())[key := vs]
    {
      hide Distinct, AbstractOf;
      var versions := Materialize(vs);
      assert Snapshots(versions) == vs;
      Bind(key, versions, 0);
    }

    static method Materialize(vs: Versions) returns (objects: seq<KeyVersion>)
      ensures |objects| == |vs|
      ensures forall i :: 0 <= i < |vs| ==> fresh(objects[i]) && objects[i].Snapshot() == vs[i]
      ensures forall i, j :: 0 <= i < j < |vs| ==> objects[i] != objects[j]
    {
      objects := [];
      for n := 0 to |vs|
        invariant |objects| == n
        invariant forall i :: 0 <= i < n ==> fresh(objects[i]) && objects[i].Snapshot() == vs[i]
        invariant forall i, j :: 0 <= i < j < n ==> objects[i] != objects[j]
      {
        var v := new KeyVersion(vs[n]);
        objects := objects + [v];
      }
    }

    /** Overwriting the newest version of `key` changes that one place of the snapshot. */
    twostate lemma OthersUntouched(key: string)
      requires old(Valid()) && keys == old(keys) && key in keys && keys[key] != []
      requires forall v :: v in old(Repr(keys)) && v != keys[key][|keys[key]| - 1] ==> unchanged(v)
      ensures Abstract() == old(Abstract())[key := ReplaceLast(old(Abstract())[key], Last(Abstract()[key]))]
    {
      var last := keys[key][|keys[key]| - 1];
      forall k | k in keys
        ensures Abstract()[k] == if k == key then ReplaceLast(old(Abstract())[k], Last(Abstract()[k])) else old(Abstract())[k]
      {
        forall i | 0 <= i < |keys[k]| && keys[k][i] != last
          ensures Abstract()[k][i] == old(Abstract())[k][i]
        {
          assert keys[k][i] in old(Repr(keys));
        }
      }
    }

    method RotateKey(oldKey: string, newKey: string, why: string, now: Time) returns (ok: bool)
      requires Valid()
      modifies this`history, Repr(keys)
      ensures history == if ok then old(history) + [LogEntry(KeyRotated(oldKey, newKey, why), now)] else old(history)
      ensures Valid() && keys == old(keys)
      ensures ok <==> CanRotate(old(Abstract()), oldKey, newKey)
      ensures Abstract() == Apply(old(Abstract()), Rotate(oldKey, newKey, now))
      ensures ok <==> && ObjectsOf(keys, oldKey) != [] && ObjectsOf(keys, newKey) != []
                      && old(Newest(keys, oldKey).state) == State.Valid
      ensures ok ==> var v := Newest(keys, oldKey);
                     && v.state == Rotated && v.rotatedAt == Some(now) && v.successor == Some(newKey)
                     && v.revokedAt == old(v.revokedAt) && v.reason == old(v.reason)
      ensures forall w :: w in Repr(keys) && !(ok && w == Newest(keys, oldKey)) ==> unchanged(w)
    {
      if oldKey !in keys || keys[oldKey] == [] {
        return false;
      }
      if newKey !in keys || keys[newKey] == [] {
        return false;
      }
      var version := keys[oldKey][|keys[oldKey]| - 1];
      assert version in Repr(keys);
      if version.state != State.Valid {
        return false;
      }
      version.state := Rotated;
      version.rotatedAt := Some(now);
      version.successor := Some(newKey);
      OthersUntouched(oldKey);
      Log(KeyRotated(oldKey, newKey, why), now);
      return true;
    }

    method RevokeKey(key: string, why: string, now: Time) returns (ok: bool)
      requires Valid()
      modifies this`history, Repr(keys)
      ensures history == if ok then old(history) + [LogEntry(KeyRevoked(key, why), now)] else old(history)
      ensures Valid() && keys == old(keys)
      ensures ok <==> VersionsOf(old(Abstract()), key) != []
      ensures Abstract() == Apply(old(Abstract()), Revoke(key, why, now))
      ensures ok <==> ObjectsOf(keys, key) != []
      ensures ok ==> var v := Newest(keys, key);
                     && v.state == Revoked && v.revokedAt == Some(now) && v.reason == Some(why)
                     && v.rotatedAt == old(v.rotatedAt) && v.successor == old(v.successor)
      ensures forall w :: w in Repr(keys) && !(ok && w == Newest(keys, key)) ==> unchanged(w)
    {
      if key !in keys || keys[key] == [] {
        return false;
      }
      var version := keys[key][|keys[key]| - 1];
      assert version in Repr(keys);
      version.state := Revoked;
      version.revokedAt := Some(now);
      version.reason := Some(why);
      OthersUntouched(key);
      Log(KeyRevoked(key, why), now);
      return true;
    }

    /** Verification at a past moment: scan from the newest version backwards. */
    method GetKeyAt(key: string, t: Time) returns (found: Option<KeyVersion>)
      requires Valid()
      ensures found == match NewestUsable(VersionsOf(Abstract(), key), t) {
                         case None => None
                         case Some(i) => Some(keys[key][i])
                       }
      ensures found.Some? ==> Covers(found.value, t)
      ensures found.None? ==> forall v :: v in ObjectsOf(keys, key) ==> !Covers(v, t)
      ensures found.Some? ==> exists i :: 0 <= i < |ObjectsOf(keys, key)| && keys[key][i] == found.value
                                && forall j :: i < j < |keys[key]| ==> !Covers(keys[key][j], t)
    {
      if key !in keys {
        return None;
      }
      var versions := keys[key];
      var i := |versions|;
      ghost var vs := Snapshots(versions);
      while i > 0
        invariant 0 <= i <= |versions|
        invariant forall j :: i <= j < |versions| ==> !UsableAt(vs[j], t)
      {
        i := i - 1;
        var version := versions[i];
        if version.createdAt <= t {
          if version.rotatedAt.Some? && t >= version.rotatedAt.value {
            continue;
          }
          if version.revokedAt.Some? && t >= version.revokedAt.value {
            continue;
          }
          if version.validUntil.Some? && t >= version.validUntil.value {
            continue;
          }
          NewestUsableUnique(vs, t, i);
          return Some(version);
        }
      }
      return None;
    }

    /** Verification without a time looks at the newest version only. */
    method GetKeyNow(key: string) returns (found: Option<KeyVersion>)
      requires Valid()
      ensures found.Some? <==> VersionsOf(Abstract(), key) != [] && Last(VersionsOf(Abstract(), key)).state == State.Valid
      ensures found.Some? <==> ObjectsOf(keys, key) != [] && Newest(keys, key).state == State.Valid
      ensures found.Some? ==> found.value == Newest(keys, key)
    {
      if key !in keys || keys[key] == [] {
        return None;
      }
      var current := keys[key][|keys[key]| - 1];
      return if current.state == State.Valid then Some(current) else None;
    }
  }
}
