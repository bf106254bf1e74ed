/** The retry loop of examples/cold_probe_client.py.

    What each request returns and what each random draw gives are arbitrary functions of the
    attempt number. */
module ColdProbe {
  import opened Wrappers
  import opened Arithmetic

  datatype Strategy = Exponential | Linear | Random

  datatype Config = Config(maxRetries: int, initial: real, maxBackoff: real, strategy: Strategy, jitter: real)

  datatype Reply =
    | Response(status: int, url: string, headers: map<string, string>, body: string)
    | Timeout
    | RequestError(message: string)

  /** `unit` is uniform in [0, 1] and picks the random base; `sign` is uniform in [-1, 1]. */
  datatype Draw = Draw(unit: real, sign: real)

  datatype ProbeError = TimeoutOn(attempt: nat) | Raised(message: string)

  datatype Found = Found(url: string, headers: map<string, string>, body: string, is402: bool, error: Option<ProbeError>)

  // ----- backoff -----

  function Min(a: real, b: real): real { if a <= b then a else b }

  function Base(attempt: nat, c: Config, d: Draw): real {
    match c.strategy
    case Exponential => c.initial * (Pow2(attempt) as real)
    case Linear => c.initial * ((attempt + 1) as real)
    case Random => c.initial + (c.maxBackoff - c.initial) * d.unit
  }

  /** `calculate_backoff` */
  function Backoff(attempt: nat, c: Config, d: Draw): real {
    Jittered(Min(Base(attempt, c, d), c.maxBackoff), c.jitter, d.sign)
  }

  function Jittered(base: real, jitter: real, sign: real): real {
    NotNegative(base + base * jitter * sign)
  }

  function NotNegative(x: real): (r: real)
    ensures r >= 0.0
  {
    if x > 0.0 then x else 0.0
  }

  /** Before jitter and cap: exponential waits start at the initial one and double, linear ones
      grow by it, and random ones lie between it and the cap, wherever the draw puts them. */
  lemma BasesGrow(n: nat, c: Config, d: Draw, d': Draw)
    ensures c.strategy.Exponential? ==> Base(0, c, d) == c.initial && Base(n + 1, c, d') == 2.0 * Base(n, c, d)
    ensures c.strategy.Linear? ==> Base(0, c, d) == c.initial && Base(n + 1, c, d') == Base(n, c, d) + c.initial
    ensures c.strategy.Random? && d.unit == 0.0 ==> Base(n, c, d) == c.initial
    ensures c.strategy.Random? && d.unit == 1.0 ==> Base(n, c, d) == c.maxBackoff
  {
    assert Pow2(n + 1) == 2 * Pow2(n);
    var p := Pow2(n) as real;
    assert c.initial * (2.0 * p) == 2.0 * (c.initial * p);
    Distribute(c.initial, (n + 1) as real, 1.0);
  }

  /** The jitter adds or takes at most its share of the base; without it a wait is its base.
      No wait is negative. */
  lemma JitterSays(base: real, jitter: real, share: real)
    requires share == base * jitter
    ensures Jittered(base, jitter, 1.0) == NotNegative(base + share)
    ensures Jittered(base, jitter, -1.0) == NotNegative(base - share)
    ensures Jittered(base, jitter, 0.0) == NotNegative(base)
  {
    hide NotNegative;
    assert base * jitter * 1.0 == share && base * jitter * -1.0 == -share && base * jitter * 0.0 == 0.0;
  }

  lemma NoJitter(base: real, sign: real)
    ensures Jittered(base, 0.0, sign) == if base > 0.0 then base else 0.0
  {
    assert base * 0.0 * sign == 0.0;
  }

  /** And the base of a wait is capped. */
  lemma WaitIsCapped(n: nat, c: Config, d: Draw)
    ensures var base := Base(n, c, d);
      Backoff(n, c, d) == if base > c.maxBackoff then Jittered(c.maxBackoff, c.jitter, d.sign) else Jittered(base, c.jitter, d.sign)
  {
    hide Base, Jittered;
  }

  ghost predicate Reasonable(c: Config) {
    c.initial >= 0.0 && c.maxBackoff >= 0.0 && c.jitter >= 0.0
  }

  ghost predicate InRange(d: Draw) {
    0.0 <= d.unit <= 1.0 && -1.0 <= d.sign <= 1.0
  }

  // ----- what the loop should do -----

  predicate ShouldRetry(status: int) {
    status == 429 || 500 <= status < 600 || status == 408
  }

  /** The attempt ends the probe. */
  predicate Final(r: Reply) {
    r.Response? && !ShouldRetry(r.status)
  }

  /** How many of the first `n` attempts are made: up to and including the first final one. */
  function Requests(replies: nat -> Reply, n: nat): (k: nat)
    ensures k <= n && (n > 0 ==> k > 0)
    ensures forall i :: 0 <= i < k - 1 ==> !Final(replies(i))
    ensures k < n ==> Final(replies(k - 1))
  {
    if n == 0 then 0
    else
      var k := Requests(replies, n - 1);
      if k > 0 && Final(replies(k - 1)) then k else n
  }

  function Attempts(c: Config): nat {
    if c.maxRetries > 0 then c.maxRetries else 0
  }

  /** The last exception among the first `k` attempts; a later answer does not clear it. */
  function LastError(replies: nat -> Reply, k: nat): Option<ProbeError> {
    if k == 0 then None
    else match replies(k - 1)
      case Timeout => Some(TimeoutOn(k))
      case RequestError(m) => Some(Raised(m))
      case Response(_, _, _, _) => LastError(replies, k - 1)
  }

  function LastResponse(replies: nat -> Reply, k: nat): (r: Option<Reply>)
    ensures r.Some? ==> r.value.Response?
  {
    if k == 0 then None
    else if replies(k - 1).Response? then Some(replies(k - 1))
    else LastResponse(replies, k - 1)
  }

  /** What the caller gets: the last response received, and whether the last request was a 402. */
  function Outcome(url: string, replies: nat -> Reply, k: nat): Found {
    var last := LastResponse(replies, k);
    Found(if last.Some? then last.value.url else url,
          if last.Some? then last.value.headers else map[],
          if last.Some? then last.value.body else "",
          k > 0 && replies(k - 1).Response? && replies(k - 1).status == 402,
          LastError(replies, k))
  }

  /** The answers to be tried again: too many requests, a request timeout, and every server error. */
  lemma FinalMeans(r: Reply)
    ensures Final(r) <==> r.Response? && r.status !in {408, 429} && !(500 <= r.status <= 599)
  {
  }

  /** What is found comes from the last response among the first `k` attempts, whatever its status,
      and the error from the last exception: attempts are numbered from 1. */
  lemma {:induction false} OutcomeMeans(url: string, replies: nat -> Reply, k: nat) returns (i: int, j: int)
    ensures var found := Outcome(url, replies, k);
      && -1 <= i < k && (forall n: nat :: i < n < k ==> !replies(n).Response?)
      && (i >= 0 ==> replies(i).Response? && found.url == replies(i).url && found.headers == replies(i).headers && found.body == replies(i).body)
      && (i == -1 ==> found.url == url && found.headers == map[] && found.body == "")
      && -1 <= j < k && (forall n: nat :: j < n < k ==> replies(n).Response?)
      && (j >= 0 ==> found.error == if replies(j).Timeout? then Some(TimeoutOn(j + 1))
                                    else if replies(j).RequestError? then Some(Raised(replies(j).message)) else None)
      && (j >= 0 ==> !replies(j).Response?)
      && (j == -1 ==> found.error.None?)
  {
    if k == 0 {
      i, j := -1, -1;
    } else {
      i, j := OutcomeMeans(url, replies, k - 1);
      if replies(k - 1).Response? {
        i := k - 1;
      } else {
        j := k - 1;
      }
    }
  }

  function Sum(xs: seq<real>): real {
    if xs == [] then 0.0 else Sum(xs[..|xs| - 1]) + xs[|xs| - 1]
  }

  // ----- the loop -----

  // Before attempt number `k`: all earlier ones are to be retried, and each has been slept on.
  ghost predicate Progress(url: string, c: Config, replies: nat -> Reply, draws: nat -> Draw,
                           k: nat, found: Found, sleeps: seq<real>)
  {
    && k <= Attempts(c)
    && Requests(replies, k) == k && (k > 0 ==> !Final(replies(k - 1)))
    && found == Outcome(url, replies, k)
    && |sleeps| == (if k < Attempts(c) then k else if k == 0 then 0 else k - 1)
    && Waits(sleeps, c, draws)
  }

  // The waits of a run, attempt by attempt.
  ghost predicate Waits(sleeps: seq<real>, c: Config, draws: nat -> Draw) {
    forall i :: 0 <= i < |sleeps| ==> sleeps[i] == Backoff(i, c, draws(i))
  }

  lemma Retry(url: string, c: Config, replies: nat -> Reply, draws: nat -> Draw, k: nat, found: Found, sleeps: seq<real>)
    requires Progress(url, c, replies, draws, k, found, sleeps) && k < Attempts(c) && !Final(replies(k))
    ensures Progress(url, c, replies, draws, k + 1, Outcome(url, replies, k + 1),
                     if k < c.maxRetries - 1 then sleeps + [Backoff(k, c, draws(k))] else sleeps)
  {
  }

  lemma Finish(url: string, c: Config, replies: nat -> Reply, draws: nat -> Draw, k: nat, found: Found, sleeps: seq<real>)
    requires Progress(url, c, replies, draws, k, found, sleeps) && k < Attempts(c) && Final(replies(k))
    ensures Requests(replies, Attempts(c)) == k + 1 && |sleeps| == k && Waits(sleeps, c, draws)
  {
    RequestsStop(replies, k + 1, Attempts(c));
  }

  /** Every answer before the last was to be tried again, and the last was not, unless no attempts
      were left. */
  ghost predicate StopsRightly(replies: nat -> Reply, requests: nat, limit: nat) {
    && requests <= limit && (limit > 0 ==> requests > 0)
    && (forall i: nat :: i + 1 < requests ==>
          replies(i).Response? ==> replies(i).status in {408, 429} || 500 <= replies(i).status <= 599)
    && (requests < limit ==>
          && replies(requests - 1).Response?
          && replies(requests - 1).status !in {408, 429} && !(500 <= replies(requests - 1).status <= 599))
  }

  lemma RequestsStopRightly(replies: nat -> Reply, n: nat)
    ensures StopsRightly(replies, Requests(replies, n), n)
  {
    var k := Requests(replies, n);
    forall i: nat | i + 1 < k ensures !Final(replies(i)) {}
  }

  lemma NothingYet(url: string, c: Config, replies: nat -> Reply, draws: nat -> Draw)
    ensures Progress(url, c, replies, draws, 0, Found(url, map[], "", false, None), [])
    ensures Requests(replies, 0) == 0
  {
  }

  lemma ProgressMeans(url: string, c: Config, replies: nat -> Reply, draws: nat -> Draw, k: nat, found: Found, sleeps: seq<real>)
    requires Progress(url, c, replies, draws, k, found, sleeps)
    ensures k <= Attempts(c) && found == Outcome(url, replies, k) && Waits(sleeps, c, draws)
    ensures k == Attempts(c) ==> Requests(replies, Attempts(c)) == k && |sleeps| == (if k == 0 then 0 else k - 1)
    ensures k > 0 ==> !Final(replies(k - 1))
  {
  }

  lemma OutcomeIs402(url: string, replies: nat -> Reply)
    ensures forall k: nat :: Outcome(url, replies, k).is402 <==> k > 0 && replies(k - 1).Response? && replies(k - 1).status == 402
  {
  }

  // One more answer or exception.
  lemma OutcomeGrows(url: string, replies: nat -> Reply, k: nat)
    ensures var before, reply := Outcome(url, replies, k), replies(k);
      Outcome(url, replies, k + 1)
      == match reply {
           case Response(status, u, headers, body) => Found(u, headers, body, status == 402, before.error)
           case Timeout => before.(is402 := false, error := Some(TimeoutOn(k + 1)))
           case RequestError(m) => before.(is402 := false, error := Some(Raised(m)))
         }
  {
  }

  method Probe(url: string, c: Config, replies: nat -> Reply, draws: nat -> Draw)
    returns (status: int, found: Found, requests: nat, sleeps: seq<real>)
    ensures requests == Requests(replies, Attempts(c))
    ensures |sleeps| == if requests == 0 then 0 else requests - 1
    ensures Waits(sleeps, c, draws)
    ensures found == Outcome(url, replies, requests)
    ensures found.is402 <==> requests > 0 && replies(requests - 1).Response? && replies(requests - 1).status == 402
    ensures found.is402 <==> status == 402
    ensures StopsRightly(replies, requests, if c.maxRetries > 0 then c.maxRetries else 0)
    ensures status == if requests > 0 && Final(replies(requests - 1)) then replies(requests - 1).status else 0
  {
    hide StopsRightly, Progress, Requests, Outcome, Waits;
    RequestsStopRightly(replies, Attempts(c));
    NothingYet(url, c, replies, draws);
    OutcomeIs402(url, replies);
    found := Found(url, map[], "", false, None);
    requests, sleeps := 0, [];
    while requests < c.maxRetries
      invariant Progress(url, c, replies, draws, requests, found, sleeps)
      decreases c.maxRetries - requests
    {
      var attempt := requests;
      var reply := replies(attempt);
      ProgressMeans(url, c, replies, draws, attempt, found, sleeps);
      OutcomeGrows(url, replies, attempt);
      requests := requests + 1;
      if reply.Response? {
        found := found.(url := reply.url, headers := reply.headers, body := reply.body);
        if reply.status == 402 {
          found := found.(is402 := true);
          Finish(url, c, replies, draws, attempt, Outcome(url, replies, attempt), sleeps);
          return reply.status, found, requests, sleeps;
        }
        if !ShouldRetry(reply.status) {
          Finish(url, c, replies, draws, attempt, Outcome(url, replies, attempt), sleeps);
          return reply.status, found, requests, sleeps;
        }
      } else if reply.Timeout? {
        found := found.(error := Some(TimeoutOn(attempt + 1)));
      } else {
        found := found.(error := Some(Raised(reply.message)));
      }
      assert found == Outcome(url, replies, requests);
      Retry(url, c, replies, draws, attempt, Outcome(url, replies, attempt), sleeps);
      if attempt < c.maxRetries - 1 {
        sleeps := sleeps + [Backoff(attempt, c, draws(attempt))];
      }
    }
    ProgressMeans(url, c, replies, draws, requests, found, sleeps);
    status := 0;
  }

  /** Once a final answer has come, allowing more attempts makes no difference. */
  lemma {:induction false} RequestsStop(replies: nat -> Reply, k: nat, n: nat)
    requires 0 < k <= n && Requests(replies, k) == k && Final(replies(k - 1))
    ensures Requests(replies, n) == k
  {
    if k < n {
      RequestsStop(replies, k, n - 1);
    }
  }

  // ----- bounds -----

  lemma BetweenIsNonNegative(a: real, b: real, u: real)
    requires a >= 0.0 && b >= 0.0 && 0.0 <= u <= 1.0
    ensures a + (b - a) * u >= 0.0
  {
    var d, x, y, z := b - a, u * (b - a), u * a, u * b;
    assert z == x + y by {
      Distribute(u, d, a);
      assert d + a == b;
    }
    assert y <= a by {
      Commute(a, u);
      MulMono(a, u, 1.0);
    }
    assert z >= 0.0 by {
      MulMono(u, 0.0, b);
    }
    assert (b - a) * u == x by {
      Commute(u, d);
    }
  }

  lemma BaseIsNonNegative(attempt: nat, c: Config, d: Draw)
    requires Reasonable(c) && InRange(d)
    ensures Base(attempt, c, d) >= 0.0
  {
    match c.strategy
    case Exponential => MulMono(c.initial, 0.0, Pow2(attempt) as real);
    case Linear => MulMono(c.initial, 0.0, (attempt + 1) as real);
    case Random => BetweenIsNonNegative(c.initial, c.maxBackoff, d.unit);
  }

  lemma JitterBound(base: real, jitter: real, sign: real, cap: real)
    requires 0.0 <= base <= cap && jitter >= 0.0 && sign <= 1.0
    ensures base + base * jitter * sign <= cap * (1.0 + jitter)
    ensures 0.0 <= cap * (1.0 + jitter)
  {
    var share, most := base * jitter, cap * jitter;
    assert share * sign <= share by {
      MulMono(base, 0.0, jitter);
      MulMono(share, sign, 1.0);
    }
    assert 0.0 <= share <= most by {
      MulMono(base, 0.0, jitter);
      MulMono(jitter, base, cap);
      Commute(base, jitter);
      Commute(cap, jitter);
    }
    assert cap * (1.0 + jitter) == cap + most by {
      Distribute(cap, 1.0, jitter);
    }
    assert base * jitter * sign == share * sign;
  }

  /** One wait: never negative, and at most its base plus the jitter share. */
  lemma BackoffBound(attempt: nat, c: Config, d: Draw, cap: real, factor: real)
    requires Reasonable(c) && InRange(d) && factor == 1.0 + c.jitter
    requires Min(Base(attempt, c, d), c.maxBackoff) <= cap
    ensures 0.0 <= Backoff(attempt, c, d) <= cap * factor
  {
    BaseIsNonNegative(attempt, c, d);
    hide Base, Min;
    JitterBound(Min(Base(attempt, c, d), c.maxBackoff), c.jitter, d.sign, cap);
  }

  function Scale(n: int, unit: real): real { (n as real) * unit }

  lemma ScaleSum(m: int, n: int, unit: real)
    ensures Scale(m + n, unit) == Scale(m, unit) + Scale(n, unit)
  {
    Commute((m + n) as real, unit);
    Commute(m as real, unit);
    Commute(n as real, unit);
    Distribute(unit, m as real, n as real);
  }

  lemma ScaleMono(m: int, n: int, unit: real)
    requires m <= n && unit >= 0.0
    ensures Scale(m, unit) <= Scale(n, unit)
  {
    Commute(m as real, unit);
    Commute(n as real, unit);
    MulMono(unit, m as real, n as real);
  }

  lemma SumStep(sleeps: seq<real>)
    requires sleeps != []
    ensures Sum(sleeps) == Sum(sleeps[..|sleeps| - 1]) + sleeps[|sleeps| - 1]
  {
  }

  lemma {:induction false} TotalSleepBound(sleeps: seq<real>, c: Config, draws: nat -> Draw)
    requires Reasonable(c) && (forall i :: InRange(draws(i))) && Waits(sleeps, c, draws)
    ensures 0.0 <= Sum(sleeps) <= Scale(|sleeps|, c.maxBackoff * (1.0 + c.jitter))
  {
    if sleeps != [] {
      var n := |sleeps| - 1;
      TotalSleepBound(sleeps[..n], c, draws);
      assert InRange(draws(n));
      hide Backoff, Scale, Sum;
      var unit := c.maxBackoff * (1.0 + c.jitter);
      CappedWait(n, c, draws(n));
      ScaleSum(n, 1, unit);
      SumStep(sleeps);
    }
  }

  lemma CappedWait(n: nat, c: Config, d: Draw)
    requires Reasonable(c) && InRange(d)
    ensures 0.0 <= Backoff(n, c, d) <= Scale(1, c.maxBackoff * (1.0 + c.jitter))
  {
    hide Backoff, Base;
    BackoffBound(n, c, d, c.maxBackoff, 1.0 + c.jitter);
  }

  lemma PowerCap(initial: real, p: int, factor: real, cap: real)
    requires cap == initial * (p as real)
    ensures cap * factor == Scale(p, initial * factor)
  {
    var x := p as real;
    Commute(initial, x);
    assert x * initial * factor == x * (initial * factor);
  }

  lemma ExponentialWait(n: nat, c: Config, d: Draw)
    requires Reasonable(c) && InRange(d) && c.strategy.Exponential?
    ensures Backoff(n, c, d) <= Scale(Pow2(n), c.initial * (1.0 + c.jitter))
  {
    var cap, p, factor := Base(n, c, d), Pow2(n), 1.0 + c.jitter;
    assert cap == c.initial * (p as real);
    hide Backoff, Scale, Base, Pow2, Reasonable, InRange;
    PowerCap(c.initial, p, factor, cap);
    BackoffBound(n, c, d, cap, factor);
  }

  lemma {:induction false} ExponentialSleepBound(sleeps: seq<real>, c: Config, draws: nat -> Draw)
    requires Reasonable(c) && (forall i :: InRange(draws(i))) && Waits(sleeps, c, draws) && c.strategy.Exponential?
    ensures Sum(sleeps) <= Scale(Pow2(|sleeps|) - 1, c.initial * (1.0 + c.jitter))
  {
    var unit := c.initial * (1.0 + c.jitter);
    if sleeps == [] {
      assert Scale(0, unit) == 0.0;
    } else {
      var n := |sleeps| - 1;
      ExponentialSleepBound(sleeps[..n], c, draws);
      assert InRange(draws(n));
      assert Pow2(n + 1) == 2 * Pow2(n);
      hide Backoff, Scale, Base, Sum, Pow2;
      ExponentialWait(n, c, draws(n));
      ScaleSum(Pow2(n) - 1, Pow2(n), unit);
      SumStep(sleeps);
    }
  }

  lemma {:induction false} Pow2Mono(m: nat, n: nat)
    requires m <= n
    ensures 1 <= Pow2(m) <= Pow2(n)
    decreases n - m
  {
    if m < n {
      Pow2Mono(m + 1, n);
    } else {
      Pow2Positive(m);
    }
  }

  lemma {:induction false} Pow2Positive(n: nat)
    ensures Pow2(n) >= 1
  {
    if n > 0 {
      Pow2Positive(n - 1);
    }
  }

  /** For every sequence of answers and draws: at most max_retries requests, one sleep fewer,
      and bounded total waiting time. */
  lemma ProbeIsBounded(c: Config, replies: nat -> Reply, draws: nat -> Draw, requests: nat, sleeps: seq<real>)
    requires Reasonable(c) && forall i :: InRange(draws(i))
    requires requests == Requests(replies, Attempts(c)) && |sleeps| == (if requests == 0 then 0 else requests - 1)
    requires Waits(sleeps, c, draws)
    ensures requests <= Attempts(c) && |sleeps| <= (if Attempts(c) == 0 then 0 else Attempts(c) - 1)
    ensures c.maxRetries >= 1 ==> Sum(sleeps) <= Scale(c.maxRetries - 1, c.maxBackoff * (1.0 + c.jitter))
    ensures c.maxRetries >= 1 && c.strategy.Exponential? ==>
              Sum(sleeps) <= Scale(Pow2(c.maxRetries - 1) - 1, c.initial * (1.0 + c.jitter))
    ensures c.maxRetries < 1 ==> Sum(sleeps) == 0.0
  {
    if c.maxRetries >= 1 {
      var n := c.maxRetries - 1;
      hide Backoff, Requests, Scale, Sum, Pow2, Waits, InRange;
      TotalSleepBound(sleeps, c, draws);
      MulMono(c.maxBackoff, 0.0, 1.0 + c.jitter);
      ScaleMono(|sleeps|, n, c.maxBackoff * (1.0 + c.jitter));
      if c.strategy.Exponential? {
        ExponentialSleepBound(sleeps, c, draws);
        Pow2Mono(|sleeps|, n);
        MulMono(c.initial, 0.0, 1.0 + c.jitter);
        ScaleMono(Pow2(|sleeps|) - 1, Pow2(n) - 1, c.initial * (1.0 + c.jitter));
      }
    }
  }

  /** The error reported is that of the last exception, even next to a later 402: no answer
      clears it. */
  lemma {:induction false} ErrorSurvivesIff(replies: nat -> Reply, k: nat)
    ensures LastError(replies, k).Some? <==> exists i: nat :: i < k && !replies(i).Response?
  {
    if k > 0 {
      ErrorSurvivesIff(replies, k - 1);
      if !replies(k - 1).Response? {
        assert LastError(replies, k).Some?;
      }
    }
  }
}
