/** The sliding-window limiter of api_server/ratelimit.py.

    Each bucket is a deque of attempt times, trimmed on every access.  The class is
    proved against the full, never-trimmed history of attempts, and the sliding-window
    guarantee is proved about that history. */
module RateLimit {

  /** One call of `allow`: when it came, what it answered, which limit it was given. */
  datatype Attempt = Attempt(at: real, admitted: bool, limit: int)

  // ----- the history and its window -----

  /** A deque whose entries never decrease and do not exceed `hi`. */
  predicate Ordered(ts: seq<real>, hi: real) {
    ts != [] ==> ts[|ts| - 1] <= hi && Ordered(ts[..|ts| - 1], ts[|ts| - 1])
  }

  /** The deque entries that are not older than `cutoff`, in order. */
  function Kept(ts: seq<real>, cutoff: real): seq<real> {
    if ts == [] then []
    else Kept(ts[..|ts| - 1], cutoff) + (if ts[|ts| - 1] >= cutoff then [ts[|ts| - 1]] else [])
  }

  /** The times of all attempts, admitted or not, that are not older than `cutoff`, in order. */
  function Recent(h: seq<Attempt>, cutoff: real): seq<real> {
    if h == [] then []
    else Recent(h[..|h| - 1], cutoff) + (if h[|h| - 1].at >= cutoff then [h[|h| - 1].at] else [])
  }

  /** Whether a request with this history is within `limit` at time `now`. */
  predicate WithinLimit(h: seq<Attempt>, window: real, limit: int, now: real) {
    |Recent(h, now - window)| < limit
  }

  /** How many admitted requests lie in the closed interval [lo, hi]. */
  function AdmittedIn(h: seq<Attempt>, lo: real, hi: real): nat {
    if h == [] then 0
    else
      var last := h[|h| - 1];
      AdmittedIn(h[..|h| - 1], lo, hi) + (if last.admitted && lo <= last.at <= hi then 1 else 0)
  }

  /** A history the limiter can have produced: ordered in time, and every request was
      admitted exactly when the attempts before it left room in its own window. */
  ghost predicate Disciplined(h: seq<Attempt>, window: real) {
    h != [] ==>
      var init, last := h[..|h| - 1], h[|h| - 1];
      && Disciplined(init, window)
      && NotAfter(init, last.at)
      && (last.admitted <==> WithinLimit(init, window, last.limit, last.at))
  }

  predicate NotAfter(h: seq<Attempt>, now: real) {
    forall i :: 0 <= i < |h| ==> h[i].at <= now
  }

  lemma RecentAppend(h: seq<Attempt>, a: Attempt, cutoff: real)
    ensures Recent(h + [a], cutoff) == Recent(h, cutoff) + (if a.at >= cutoff then [a.at] else [])
  {
    assert (h + [a])[..|h|] == h;
  }

  lemma KeptAppend(ts: seq<real>, t: real, cutoff: real)
    ensures Kept(ts + [t], cutoff) == Kept(ts, cutoff) + (if t >= cutoff then [t] else [])
  {
    assert (ts + [t])[..|ts|] == ts;
  }

  lemma {:induction false} KeptOfKept(ts: seq<real>, c: real, c': real)
    requires c <= c'
    ensures Kept(Kept(ts, c), c') == Kept(ts, c')
  {
    if ts != [] {
      var init, last := ts[..|ts| - 1], ts[|ts| - 1];
      KeptOfKept(init, c, c');
      if last >= c {
        KeptAppend(Kept(init, c), last, c');
      } else {
        assert Kept(ts, c) == Kept(init, c);
      }
    }
  }

  lemma {:induction false} KeptOfRecent(h: seq<Attempt>, c: real, c': real)
    requires c <= c'
    ensures Kept(Recent(h, c), c') == Recent(h, c')
  {
    if h != [] {
      var init, last := h[..|h| - 1], h[|h| - 1].at;
      KeptOfRecent(init, c, c');
      if last >= c {
        KeptAppend(Recent(init, c), last, c');
      } else {
        assert Recent(h, c) == Recent(init, c);
      }
    }
  }

  lemma {:induction false} OrderedTail(ts: seq<real>, hi: real)
    requires ts != [] && Ordered(ts, hi)
    ensures Ordered(ts[1..], hi)
  {
    if |ts| > 1 {
      OrderedTail(ts[..|ts| - 1], ts[|ts| - 1]);
      assert ts[1..][..|ts| - 2] == ts[..|ts| - 1][1..];
    }
  }

  /** Dropping an old entry from the front of the deque drops nothing recent. */
  lemma {:induction false} KeptDropFront(ts: seq<real>, cutoff: real)
    requires ts != [] && ts[0] < cutoff
    ensures Kept(ts[1..], cutoff) == Kept(ts, cutoff)
  {
    var init, last := ts[..|ts| - 1], ts[|ts| - 1];
    if |ts| > 1 {
      KeptDropFront(init, cutoff);
      assert ts[1..][..|ts| - 2] == init[1..];
    } else {
      assert init == [] && ts[1..] == [];
    }
  }

  /** Once the front of an ordered deque is recent, all of it is. */
  lemma {:induction false} KeptAll(ts: seq<real>, cutoff: real, hi: real)
    requires Ordered(ts, hi)
    requires ts != [] ==> ts[0] >= cutoff
    ensures Kept(ts, cutoff) == ts
    ensures ts != [] ==> ts[|ts| - 1] >= cutoff
  {
    if ts != [] {
      KeptAll(ts[..|ts| - 1], cutoff, ts[|ts| - 1]);
      assert ts == ts[..|ts| - 1] + [ts[|ts| - 1]];
    }
  }

  /** Admitted requests in an interval that starts inside a window are among the
      attempts of that window. */
  lemma {:induction false} AdmittedAreRecent(h: seq<Attempt>, lo: real, hi: real, cutoff: real)
    requires cutoff <= lo
    ensures AdmittedIn(h, lo, hi) <= |Recent(h, cutoff)|
  {
    if h != [] {
      AdmittedAreRecent(h[..|h| - 1], lo, hi, cutoff);
    }
  }

  /** The guarantee the limiter is for: if no request was given a limit above `limit`,
      no closed interval as long as the window holds more than `limit` admitted ones. */
  lemma {:induction false} SlidingWindowBound(h: seq<Attempt>, window: real, limit: nat, lo: real)
    requires Disciplined(h, window)
    requires forall i :: 0 <= i < |h| ==> h[i].limit <= limit
    ensures AdmittedIn(h, lo, lo + window) <= limit
  {
    if h != [] {
      var n := |h| - 1;
      var init, last := h[..n], h[n];
      SlidingWindowBound(init, window, limit, lo);
      if last.admitted && lo <= last.at <= lo + window {
        AdmittedAreRecent(init, lo, lo + window, last.at - window);
      }
    }
  }

  // ----- whole runs -----

  datatype Op =
    | Allow(key: string, limit: int, now: real)
    | Remaining(key: string, limit: int, now: real)
    | Reset(key: string)
    | ResetAll

  type Histories = map<string, seq<Attempt>>

  function Of(hs: Histories, key: string): seq<Attempt> {
    if key in hs then hs[key] else []
  }

  /** What one operation does to the histories.  Asking for the remaining budget does
      nothing; a reset forgets. */
  function Record(hs: Histories, op: Op, window: real): Histories {
    match op
    case Allow(key, limit, now) =>
      var h := Of(hs, key);
      hs[key := h + [Attempt(now, WithinLimit(h, window, limit, now), limit)]]
    case Remaining(_, _, _) => hs
    case Reset(key) => hs - {key}
    case ResetAll => map[]
  }

  function RecordAll(ops: seq<Op>, window: real): Histories {
    if ops == [] then map[] else Record(RecordAll(ops[..|ops| - 1], window), ops[|ops| - 1], window)
  }

  predicate Timed(op: Op) { op.Allow? || op.Remaining? }

  /** Serial calls under a clock that never runs backwards. */
  ghost predicate ClockForward(ops: seq<Op>) {
    forall i, j :: 0 <= i < j < |ops| && Timed(ops[i]) && Timed(ops[j]) ==> ops[i].now <= ops[j].now
  }

  lemma DisciplinedAppend(h: seq<Attempt>, window: real, limit: int, now: real)
    requires Disciplined(h, window) && NotAfter(h, now)
    ensures Disciplined(h + [Attempt(now, WithinLimit(h, window, limit, now), limit)], window)
  {
    var a := Attempt(now, WithinLimit(h, window, limit, now), limit);
    assert (h + [a])[..|h|] == h;
  }

  // Attempts made by calls of a run lie before the next call.
  lemma MadeBefore(init: seq<Op>, op: Op, h: seq<Attempt>)
    requires ClockForward(init + [op]) && op.Allow?
    requires forall a :: a in h ==> Allow(op.key, a.limit, a.at) in init
    ensures NotAfter(h, op.now)
  {
    var ops := init + [op];
    forall i | 0 <= i < |h| ensures h[i].at <= op.now {
      assert h[i] in h;
      var k :| 0 <= k < |init| && init[k] == Allow(op.key, h[i].limit, h[i].at);
      assert ops[k] == init[k] && ops[|init|] == op;
    }
  }

  lemma {:induction false} RunsAreDisciplined(ops: seq<Op>, window: real, key: string)
    requires ClockForward(ops)
    ensures Disciplined(Of(RecordAll(ops, window), key), window)
    ensures forall a :: a in Of(RecordAll(ops, window), key) ==> Allow(key, a.limit, a.at) in ops
  {
    if ops != [] {
      var n := |ops| - 1;
      var init, op := ops[..n], ops[n];
      RunsAreDisciplined(init, window, key);
      var h := Of(RecordAll(init, window), key);
      assert ops == init + [op];
      if op.Allow? && op.key == key {
        hide Disciplined, WithinLimit;
        MadeBefore(init, op, h);
        DisciplinedAppend(h, window, op.limit, op.now);
      }
    }
  }

  /** Every serial run, with resets and budget queries in between and with limits that
      may differ from call to call but never exceed `limit`: between resets, no window-long
      interval admits more than `limit` requests of a key. */
  lemma {:induction false} WholeRunBound(ops: seq<Op>, window: real, key: string, limit: nat, lo: real)
    requires ClockForward(ops)
    requires forall op :: op in ops && op.Allow? && op.key == key ==> op.limit <= limit
    ensures AdmittedIn(Of(RecordAll(ops, window), key), lo, lo + window) <= limit
  {
    RunsAreDisciplined(ops, window, key);
    var h := Of(RecordAll(ops, window), key);
    forall i | 0 <= i < |h| ensures h[i].limit <= limit {
      assert h[i] in h;
      assert Allow(key, h[i].limit, h[i].at) in ops;
    }
    SlidingWindowBound(h, window, limit, lo);
  }

  /** The calls of `allow` for a key since it was last reset: when, and with which limit. */
  function CallsSince(ops: seq<Op>, key: string): seq<(real, int)> {
    if ops == [] then []
    else
      var before, op := CallsSince(ops[..|ops| - 1], key), ops[|ops| - 1];
      match op
      case Allow(k, limit, now) => if k == key then before + [(now, limit)] else before
      case Remaining(_, _, _) => before
      case Reset(k) => if k == key then [] else before
      case ResetAll => []
  }

  /** How many of the calls before number `i` still lay in the window of that call. */
  function Ahead(calls: seq<(real, int)>, window: real, i: nat): set<nat>
    requires i < |calls|
  {
    set j: nat | j < i && calls[j].0 >= calls[i].0 - window
  }

  lemma {:induction false} RecentIsSet(h: seq<Attempt>, cutoff: real)
    ensures |Recent(h, cutoff)| == |set i: nat | i < |h| && h[i].at >= cutoff|
  {
    var all := set i: nat | i < |h| && h[i].at >= cutoff;
    if h == [] {
      assert all == {};
    } else {
      var n := |h| - 1;
      RecentIsSet(h[..n], cutoff);
      var before := set i: nat | i < n && h[..n][i].at >= cutoff;
      assert n !in before;
      assert all == before + (if h[n].at >= cutoff then {n} else {});
    }
  }

  // The history says of each call when it came, its limit, and whether there was room.
  ghost predicate Tells(h: seq<Attempt>, calls: seq<(real, int)>, window: real) {
    |h| == |calls| && forall i: nat :: i < |h| ==> TellsAt(h, calls, window, i)
  }

  ghost predicate TellsAt(h: seq<Attempt>, calls: seq<(real, int)>, window: real, i: nat)
    requires i < |h| == |calls|
  {
    && h[i].at == calls[i].0 && h[i].limit == calls[i].1
    && (h[i].admitted <==> |Ahead(calls, window, i)| < calls[i].1)
  }

  lemma TellsOneMore(h: seq<Attempt>, calls: seq<(real, int)>, window: real, limit: int, now: real)
    requires Tells(h, calls, window)
    ensures Tells(h + [Attempt(now, WithinLimit(h, window, limit, now), limit)], calls + [(now, limit)], window)
  {
    var h', calls' := h + [Attempt(now, WithinLimit(h, window, limit, now), limit)], calls + [(now, limit)];
    forall i: nat | i < |h'| ensures TellsAt(h', calls', window, i) {
      if i < |h| {
        assert TellsAt(h, calls, window, i);
        assert Ahead(calls', window, i) == Ahead(calls, window, i);
      } else {
        forall j: nat | j < |h| ensures calls'[j].0 == h[j].at {
          assert TellsAt(h, calls, window, j);
        }
        RecentIsSet(h, now - window);
        assert Ahead(calls', window, i) == set j: nat | j < |h| && h[j].at >= now - window;
      }
    }
  }

  /** Read off the calls, over every run, whatever the clock does: the history of a key is one
      attempt for each call of `allow` since the key was last reset, admitted or not; and a call
      is admitted exactly when fewer calls than its limit lie in its window before it. */
  lemma {:induction false} VerdictsAreReadOff(ops: seq<Op>, window: real, key: string)
    ensures Tells(Of(RecordAll(ops, window), key), CallsSince(ops, key), window)
  {
    hide Tells, WithinLimit;
    if ops == [] {
      NothingTold(window);
    } else {
      var init, op := ops[..|ops| - 1], ops[|ops| - 1];
      VerdictsAreReadOff(init, window, key);
      NothingTold(window);
      if op.Allow? && op.key == key {
        TellsOneMore(Of(RecordAll(init, window), key), CallsSince(init, key), window, op.limit, op.now);
      }
    }
  }

  lemma NothingTold(window: real)
    ensures Tells([], [], window)
  {
  }

  /** Operations on other keys never change what a key is answered. */
  lemma {:induction false} KeysAreIndependent(ops: seq<Op>, window: real, key: string)
    ensures Of(RecordAll(ops, window), key)
         == Of(RecordAll(OnlyKey(ops, key), window), key)
  {
    if ops != [] {
      var n := |ops| - 1;
      var init, op := ops[..n], ops[n];
      KeysAreIndependent(init, window, key);
      if Concerns(op, key) {
        var kept := OnlyKey(init, key) + [op];
        assert kept[..|kept| - 1] == OnlyKey(init, key) && kept[|kept| - 1] == op;
      } else {
        assert OnlyKey(ops, key) == OnlyKey(init, key);
      }
    }
  }

  predicate Concerns(op: Op, key: string) {
    op.ResetAll? || op.key == key
  }

  function OnlyKey(ops: seq<Op>, key: string): seq<Op> {
    if ops == [] then []
    else OnlyKey(ops[..|ops| - 1], key) + (if Concerns(ops[|ops| - 1], key) then [ops[|ops| - 1]] else [])
  }

  /** Because rejected attempts count too, the answer depends on the attempt made exactly
      `limit` calls earlier: there is room when there is none, or when it has left the window. */
  lemma {:induction false} RoomIffLimitBackIsOld(h: seq<Attempt>, window: real, limit: nat, now: real)
    requires Disciplined(h, window)
    ensures WithinLimit(h, window, limit, now)
       <==> limit > 0 && (|h| < limit || h[|h| - limit].at < now - window)
  {
    if h != [] && limit > 0 {
      var init, last := h[..|h| - 1], h[|h| - 1];
      if last.at >= now - window {
        RoomIffLimitBackIsOld(init, window, limit - 1, now);
      } else {
        RoomIffLimitBackIsOld(init, window, 1, now);
      }
    }
  }

  // ----- a trimmed bucket against its history -----

  /** At time `clock` the bucket holds every attempt still inside the window, and
      otherwise only older ones. */
  ghost predicate Tracks(bucket: seq<real>, h: seq<Attempt>, window: real, clock: real) {
    && Ordered(bucket, clock)
    && NotAfter(h, clock)
    && Kept(bucket, clock - window) == Recent(h, clock - window)
    && Disciplined(h, window)
  }

  lemma TracksTick(bucket: seq<real>, h: seq<Attempt>, window: real, clock: real, now: real)
    requires Tracks(bucket, h, window, clock) && clock <= now
    ensures Tracks(bucket, h, window, now)
  {
    KeptOfKept(bucket, clock - window, now - window);
    KeptOfRecent(h, clock - window, now - window);
  }

  /** Filtering keeps the order and any upper bound. */
  lemma {:induction false} KeptIsOrdered(ts: seq<real>, cutoff: real, hi: real)
    requires Ordered(ts, hi)
    ensures Ordered(Kept(ts, cutoff), hi)
  {
    if ts != [] {
      var init, last := ts[..|ts| - 1], ts[|ts| - 1];
      KeptIsOrdered(init, cutoff, last);
      if last >= cutoff {
        assert (Kept(init, cutoff) + [last])[..|Kept(init, cutoff)|] == Kept(init, cutoff);
      } else {
        assert Kept(ts, cutoff) == Kept(init, cutoff);
        OrderedUpTo(Kept(init, cutoff), last, hi);
      }
    }
  }

  lemma OrderedUpTo(ts: seq<real>, lo: real, hi: real)
    requires Ordered(ts, lo) && lo <= hi
    ensures Ordered(ts, hi)
  {
  }

  lemma TracksTrim(bucket: seq<real>, h: seq<Attempt>, window: real, now: real)
    requires Tracks(bucket, h, window, now)
    ensures Tracks(Kept(bucket, now - window), h, window, now)
  {
    KeptIsOrdered(bucket, now - window, now);
    KeptOfKept(bucket, now - window, now - window);
  }

  lemma TracksAppend(bucket: seq<real>, h: seq<Attempt>, window: real, limit: int, now: real)
    requires Tracks(bucket, h, window, now)
    ensures Tracks(bucket + [now], h + [Attempt(now, WithinLimit(h, window, limit, now), limit)], window, now)
  {
    var a := Attempt(now, WithinLimit(h, window, limit, now), limit);
    DisciplinedAppend(h, window, limit, now);
    RecentAppend(h, a, now - window);
    KeptAppend(bucket, now, now - window);
    assert (bucket + [now])[..|bucket|] == bucket;
  }

  // Every bucket tracks its history.
  ghost predicate AllTrack(buckets: map<string, seq<real>>, hs: Histories, window: real, clock: real) {
    && hs.Keys <= buckets.Keys
    && forall k {:trigger Of(hs, k)} :: k in buckets ==> Tracks(buckets[k], Of(hs, k), window, clock)
  }

  /** Letting time pass, and opening an empty bucket for a new key, keep every bucket faithful. */
  lemma AllTrackTouch(buckets: map<string, seq<real>>, hs: Histories, window: real, clock: real, now: real, key: string)
    requires AllTrack(buckets, hs, window, clock) && clock <= now
    ensures AllTrack(Touch(buckets, key), hs, window, now)
  {
    forall k | k in Touch(buckets, key) ensures Tracks(Touch(buckets, key)[k], Of(hs, k), window, now) {
      if k in buckets {
        TracksTick(buckets[k], Of(hs, k), window, clock, now);
      }
    }
  }

  // What `self._buckets[key]` does to a defaultdict.
  function Touch(buckets: map<string, seq<real>>, key: string): map<string, seq<real>> {
    if key in buckets then buckets else buckets[key := []]
  }

  lemma Overwrite<K, V>(m: map<K, V>, k: K, v: V, v': V)
    ensures m[k := v][k := v'] == m[k := v']
  {
  }

  lemma AllTrackTrim(buckets: map<string, seq<real>>, hs: Histories, window: real, now: real, key: string)
    requires AllTrack(buckets, hs, window, now) && key in buckets
    ensures AllTrack(buckets[key := Kept(buckets[key], now - window)], hs, window, now)
  {
    TracksTrim(buckets[key], Of(hs, key), window, now);
  }

  lemma AllTrackAppend(buckets: map<string, seq<real>>, hs: Histories, window: real, limit: int, now: real, key: string)
    requires AllTrack(buckets, hs, window, now) && key in buckets
    ensures AllTrack(buckets[key := buckets[key] + [now]], Record(hs, Allow(key, limit, now), window), window, now)
  {
    TracksAppend(buckets[key], Of(hs, key), window, limit, now);
    var hs' := Record(hs, Allow(key, limit, now), window);
    forall k | k in buckets && k != key ensures Tracks(buckets[k], Of(hs', k), window, now) {
      assert Of(hs', k) == Of(hs, k);
    }
  }

  /** An access to `key` at `now`: opening the bucket and trimming it leaves exactly the
      recent attempts, whatever was trimmed before. */
  lemma TrimmedBucket(buckets: map<string, seq<real>>, hs: Histories, window: real, clock: real, now: real, key: string)
    requires AllTrack(buckets, hs, window, clock) && clock <= now
    ensures Kept(Touch(buckets, key)[key], now - window) == Recent(Of(hs, key), now - window)
    ensures Ordered(Touch(buckets, key)[key], now)
    ensures AllTrack(buckets[key := Recent(Of(hs, key), now - window)], hs, window, now)
  {
    AllTrackTouch(buckets, hs, window, clock, now, key);
    AllTrackTrim(Touch(buckets, key), hs, window, now, key);
    assert Tracks(Touch(buckets, key)[key], Of(hs, key), window, now);
    Overwrite(buckets, key, [], Recent(Of(hs, key), now - window));
  }

  lemma AllowedBucket(buckets: map<string, seq<real>>, hs: Histories, window: real, clock: real, limit: int, now: real, key: string)
    requires AllTrack(buckets, hs, window, clock) && clock <= now
    ensures AllTrack(buckets[key := Recent(Of(hs, key), now - window) + [now]],
                     Record(hs, Allow(key, limit, now), window), window, now)
  {
    TrimmedBucket(buckets, hs, window, clock, now, key);
    var trimmed := buckets[key := Recent(Of(hs, key), now - window)];
    AllTrackAppend(trimmed, hs, window, limit, now, key);
    Overwrite(buckets, key, trimmed[key], trimmed[key] + [now]);
  }

  /** A window that is not negative keeps the newest attempt in view, so after an `allow`
      the deque is exactly the history filtered to the window. */
  lemma BucketIsFilteredHistory(h: seq<Attempt>, window: real, a: Attempt)
    requires window >= 0.0
    ensures Recent(h, a.at - window) + [a.at] == Recent(h + [a], a.at - window)
  {
    RecentAppend(h, a, a.at - window);
  }

  // ----- the limiter itself -----

  class IpRateLimiter {
    const window: real
    var buckets: map<string, seq<real>>
    ghost var history: Histories
    ghost var clock: real

    ghost predicate Valid()
      reads this
    {
      AllTrack(buckets, history, window, clock)
    }

    constructor (window: real, ghost start: real)
      ensures Valid() && this.window == window && history == map[] && clock == start
    {
      this.window := window;
      buckets := map[];
      history := map[];
      clock := start;
    }

    /** `_trim`: pop the front while it is older than the cutoff. */
    static method Trim(bucket: seq<real>, cutoff: real, ghost now: real) returns (trimmed: seq<real>)
      requires Ordered(bucket, now)
      ensures trimmed == Kept(bucket, cutoff)
    {
      trimmed := bucket;
      while trimmed != [] && trimmed[0] < cutoff
        invariant Ordered(trimmed, now)
        invariant Kept(trimmed, cutoff) == Kept(bucket, cutoff)
        decreases |trimmed|
      {
        KeptDropFront(trimmed, cutoff);
        OrderedTail(trimmed, now);
        trimmed := trimmed[1..];
      }
      KeptAll(trimmed, cutoff, now);
    }

    method Allow(key: string, limit: int, now: real) returns (ok: bool)
      requires Valid() && clock <= now
      modifies this
      ensures Valid() && clock == now
      ensures history == Record(old(history), Op.Allow(key, limit, now), window)
      ensures ok <==> WithinLimit(Of(old(history), key), window, limit, now)
      ensures history == old(history)[key := Of(old(history), key) + [Attempt(now, ok, limit)]]
      ensures buckets == old(buckets)[key := Recent(Of(old(history), key), now - window) + [now]]
    {
      hide Recent, Kept, AllTrack;
      TrimmedBucket(buckets, history, window, clock, now, key);
      var bucket := Trim(Touch(buckets, key)[key], now - window, now);
      AllowedBucket(buckets, history, window, clock, limit, now, key);
      ghost var hs := Record(history, Op.Allow(key, limit, now), window);
      ok := |bucket| < limit;
      buckets := buckets[key := bucket + [now]];
      history := hs;
      clock := now;
    }

    method Remaining(key: string, limit: int, now: real) returns (left: nat)
      requires Valid() && clock <= now
      modifies this
      ensures Valid() && clock == now
      ensures history == Record(old(history), Op.Remaining(key, limit, now), window)
      ensures left == (var used := |Recent(Of(history, key), now - window)|;
                       if limit > used then limit - used else 0)
      ensures history == old(history)
      ensures left > 0 <==> WithinLimit(Of(history, key), window, limit, now)
      ensures buckets == old(buckets)[key := Recent(Of(history, key), now - window)]
    {
      TrimmedBucket(buckets, history, window, clock, now, key);
      var bucket := Trim(Touch(buckets, key)[key], now - window, now);
      buckets := buckets[key := bucket];
      clock := now;
      left := if limit > |bucket| then limit - |bucket| else 0;
    }

    method Reset(key: string)
      requires Valid()
      modifies this
      ensures Valid() && clock == old(clock)
      ensures history == Record(old(history), Op.Reset(key), window) && history == old(history) - {key}
      ensures buckets == old(buckets) - {key}
    {
      assert forall k :: k != key ==> Of(history - {key}, k) == Of(history, k);
      buckets := buckets - {key};
      history := history - {key};
    }

    method ResetAll()
      requires Valid()
      modifies this
      ensures Valid() && clock == old(clock)
      ensures history == map[] && buckets == map[]
    {
      buckets := map[];
      history := map[];
    }
  }
}
