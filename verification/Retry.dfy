/** Backoff policies, the verdict on an error chain, and the retry loop of package `retry`.
    Durations are integer nanoseconds; the float arithmetic of the source is over the reals. */
module Retry {
  import opened Wrappers

  const MILLISECOND: int := 1_000_000
  const SECOND: int := 1_000_000_000

  datatype Policy = Policy(attempts: int, initial: int, max: int, multiplier: real, jitter: real) {

    predicate Normal() {
      && attempts >= 1 && initial > 0 && max > 0
      && multiplier >= 1.0 && 0.0 <= jitter <= 1.0
    }

    /** Repairs each out-of-range field with the source's default; a policy in range is kept. */
    function Normalise(): (q: Policy)
      ensures q.Normal()
      ensures Normal() ==> q == this
    {
      Policy(
        if attempts < 1 then 1 else attempts,
        if initial <= 0 then 100 * MILLISECOND else initial,
        if max <= 0 then 30 * SECOND else max,
        if multiplier < 1.0 then 2.0 else multiplier,
        if jitter < 0.0 then 0.0 else if jitter > 1.0 then 1.0 else jitter)
    }
  }

  // ---------------------------------------------------------------- backoff

  /** The first delay multiplied up `n` times: initial * multiplier^n. */
  function Grown(p: Policy, n: nat): real {
    if n == 0 then p.initial as real else Grown(p, n - 1) * p.multiplier
  }

  lemma {:induction false} GrowsMonotonically(p: Policy, m: nat, n: nat)
    requires p.Normal() && m <= n
    ensures 0.0 < Grown(p, m) <= Grown(p, n)
    decreases m + n
  {
    if n == 0 {
    } else if m == n {
      GrowsMonotonically(p, n - 1, n);
    } else {
      GrowsMonotonically(p, m, n - 1);
      TimesGrows(p.multiplier, Grown(p, n - 1));
    }
  }

  lemma TimesGrows(x: real, y: real)
    requires x >= 1.0 && y >= 0.0
    ensures y * x >= y
  {
    assert (x - 1.0) * y >= 0.0;
  }

  lemma TimesMonotone(a: real, x: real, y: real)
    requires a >= 0.0 && x <= y
    ensures a * x <= a * y
  {
    assert a * (y - x) >= 0.0;
  }

  /** The delay before jitter: exponential growth, cut off at the maximum from the second attempt on.
      The first delay is never cut off. */
  function Base(p: Policy, attempt: int): real
    requires p.Normal()
  {
    if attempt <= 1 then p.initial as real
    else if Grown(p, attempt - 1) >= p.max as real then p.max as real
    else Grown(p, attempt - 1)
  }

  /** The smallest and largest delay that jitter can make of a base. */
  function Least(p: Policy, base: real): real {
    (1.0 - p.jitter) * base
  }

  function Most(p: Policy, base: real): real {
    (1.0 + p.jitter) * base
  }

  /** A uniform random draw from [0, 1). */
  type Draw = r: real | 0.0 <= r < 1.0 witness 0.0

  function Jittered(p: Policy, base: real, draw: Draw): (delay: real)
    requires p.Normal() && base >= 0.0
    ensures 0.0 <= Least(p, base) <= delay <= Most(p, base)
  {
    JitterBounds(base, p.jitter, draw);
    if p.jitter > 0.0 then base + Swing(base * p.jitter, draw) else base
  }

  function Swing(spread: real, draw: Draw): real {
    (draw * 2.0 - 1.0) * spread
  }

  lemma JitterBounds(base: real, jitter: real, draw: Draw)
    requires base >= 0.0 && 0.0 <= jitter <= 1.0
    ensures 0.0 <= (1.0 - jitter) * base <= base <= (1.0 + jitter) * base
    ensures (1.0 - jitter) * base <= base + Swing(base * jitter, draw) <= (1.0 + jitter) * base
  {
    TimesMonotone(base, 0.0, jitter);
    TimesMonotone(base, jitter, 1.0);
    SwingBounds(base * jitter, draw);
  }

  lemma SwingBounds(spread: real, draw: Draw)
    requires spread >= 0.0
    ensures -spread <= Swing(spread, draw) <= spread
  {
    TimesMonotone(spread, -1.0, draw * 2.0 - 1.0);
    TimesMonotone(spread, draw * 2.0 - 1.0, 1.0);
  }

  /** The delay drawn for an attempt, truncated to whole nanoseconds. */
  function Delay(p: Policy, attempt: int, draw: Draw): (d: int)
    ensures d >= 0
  {
    var q := p.Normalise();
    BasePositive(q, attempt);
    Jittered(q, Base(q, attempt), draw).Floor
  }

  lemma DelayBounds(p: Policy, attempt: int, draw: Draw)
    requires p.Normal()
    ensures Least(p, Base(p, attempt)) - 1.0 < Delay(p, attempt, draw) as real <= Most(p, Base(p, attempt))
  {
    BasePositive(p, attempt);
  }

  lemma BasePositive(p: Policy, attempt: int)
    requires p.Normal()
    ensures Base(p, attempt) > 0.0
  {
    if attempt > 1 {
      GrowsMonotonically(p, 0, attempt - 1);
    }
  }

  /** The multiply-and-cap loop, which breaks out as soon as the cap is met, computes the closed form. */
  method Backoff(policy: Policy, attempt: int, draw: Draw) returns (d: int)
    ensures d == Delay(policy, attempt, draw)
  {
    var p := policy.Normalise();
    var delay := GrowDelay(p, attempt);
    BasePositive(p, attempt);
    delay := Jittered(p, delay, draw);
    if delay < 0.0 {
      delay := 0.0;
    }
    d := delay.Floor;
  }

  method GrowDelay(p: Policy, attempt: int) returns (delay: real)
    requires p.Normal()
    ensures delay == Base(p, attempt)
  {
    var target := if attempt < 1 then 1 else attempt;
    delay := p.initial as real;
    var i := 1;
    while i < target
      invariant 1 <= i <= target
      invariant delay == Grown(p, i - 1)
      invariant i > 1 ==> delay < p.max as real
    {
      delay := delay * p.multiplier;
      if delay >= p.max as real {
        GrowsMonotonically(p, i, target - 1);
        return p.max as real;
      }
      i := i + 1;
    }
  }

  /** The out-of-range fields get the source's defaults, each on its own. */
  lemma PolicyDefaults(p: Policy)
    ensures Policy(0, 0, 0, 0.0, -1.0).Normalise() == Policy(1, 100_000_000, 30_000_000_000, 2.0, 0.0)
    ensures p.jitter > 1.0 ==> p.Normalise().jitter == 1.0
    ensures p.attempts >= 1 ==> p.Normalise().attempts == p.attempts
    ensures p.initial > 0 ==> p.Normalise().initial == p.initial
    ensures p.max > 0 ==> p.Normalise().max == p.max
    ensures p.multiplier >= 1.0 ==> p.Normalise().multiplier == p.multiplier
    ensures 0.0 <= p.jitter <= 1.0 ==> p.Normalise().jitter == p.jitter
  {
  }

  function Power(x: real, n: nat): real {
    if n == 0 then 1.0 else x * Power(x, n - 1)
  }

  /** Growth is exponential: initial * multiplier^n. */
  lemma {:induction false} GrownIsPower(p: Policy, n: nat)
    ensures Grown(p, n) == p.initial as real * Power(p.multiplier, n)
  {
    if n == 0 {
    } else {
      GrownIsPower(p, n - 1);
      Regroup(p.initial as real, p.multiplier, Power(p.multiplier, n - 1));
    }
  }

  lemma Regroup(a: real, x: real, y: real)
    ensures (a * y) * x == a * (x * y)
  {
  }

  /** Jitter spreads the draws evenly: the middle one leaves the base as it is, and equal steps between
      draws are equal steps between delays, over `jitter` times the base to either side. */
  lemma JitterSpreads(p: Policy, base: real, draw: Draw)
    requires p.Normal() && base >= 0.0
    ensures Jittered(p, base, 0.5) == base
    ensures Jittered(p, base, draw) - base == (draw - 0.5) * 2.0 * (p.jitter * base)
  {
    Spread(base, p.jitter, draw);
  }

  lemma Spread(base: real, jitter: real, draw: real)
    ensures (draw * 2.0 - 1.0) * (base * jitter) == (draw - 0.5) * 2.0 * (jitter * base)
    ensures jitter == 0.0 ==> (draw - 0.5) * 2.0 * (jitter * base) == 0.0
  {
  }

  /** With the first delay within the maximum, the base is the capped exponential everywhere. */
  lemma BaseMonotoneWhenCapped(p: Policy, m: int, n: int)
    requires p.Normal() && p.initial <= p.max && 1 <= m <= n
    ensures Base(p, n) == if Grown(p, n - 1) >= p.max as real then p.max as real else Grown(p, n - 1)
    ensures Base(p, m) <= Base(p, n) <= p.max as real
  {
    GrowsMonotonically(p, m - 1, n - 1);
  }

  ghost predicate Monotone(p: Policy)
    requires p.Normal()
  {
    forall m, n {:trigger Base(p, m), Base(p, n)} :: 1 <= m <= n ==> Base(p, m) <= Base(p, n)
  }

  ghost predicate Capped(p: Policy)
    requires p.Normal()
  {
    forall n :: 1 <= n ==> Base(p, n) <= p.max as real
  }

  /** Delays never shrink, and never pass the maximum, exactly when the first one is within it. */
  lemma MonotoneAndCappedExactly(p: Policy)
    requires p.Normal()
    ensures Monotone(p) <==> p.initial <= p.max
    ensures Capped(p) <==> p.initial <= p.max
  {
    if p.initial <= p.max {
      forall m, n | 1 <= m <= n ensures Base(p, m) <= Base(p, n) <= p.max as real {
        BaseMonotoneWhenCapped(p, m, n);
      }
    } else {
      assert Base(p, 1) > p.max as real >= Base(p, 2);
    }
  }

  // ---------------------------------------------------------------- error chains

  /** How one error in a chain speaks about retrying: not at all, with the permanent marker,
      or with its own `Retryable` answer. */
  datatype Voice = Silent | PermanentMark | Says(retryable: bool)

  /** An error and what it unwraps to: nothing, one cause, or several joined causes. */
  datatype Error = Error(text: string, voice: Voice, causes: seq<Error>)

  /** All errors of a chain in the order `errors.As` visits them. */
  function Chain(e: Error): (c: seq<Error>)
    ensures |c| > 0 && c[0] == e
    decreases e, 1
  {
    [e] + ChainAll(e.causes)
  }

  function ChainAll(es: seq<Error>): seq<Error>
    decreases es, 0
  {
    if es == [] then [] else Chain(es[0]) + ChainAll(es[1..])
  }

  /** The search for the permanent marker, stopping at the first hit. */
  predicate FindsPermanent(e: Error)
    decreases e, 1
  {
    e.voice.PermanentMark? || FindsPermanentAmong(e.causes)
  }

  predicate FindsPermanentAmong(es: seq<Error>)
    decreases es, 0
  {
    es != [] && (FindsPermanent(es[0]) || FindsPermanentAmong(es[1..]))
  }

  /** The search for the first error with an answer of its own. */
  function FindsAnswer(e: Error): Option<bool>
    decreases e, 1
  {
    if e.voice.Says? then Some(e.voice.retryable) else FindsAnswerAmong(e.causes)
  }

  function FindsAnswerAmong(es: seq<Error>): Option<bool>
    decreases es, 0
  {
    if es == [] then None
    else
      var first := FindsAnswer(es[0]);
      if first.Some? then first else FindsAnswerAmong(es[1..])
  }

  predicate Retryable(err: Option<Error>) {
    match err
    case None => false
    case Some(e) =>
      if FindsPermanent(e) then false
      else
        var answer := FindsAnswer(e);
        if answer.Some? then answer.value else true
  }

  function Permanent(err: Option<Error>): Option<Error> {
    match err
    case None => None
    case Some(e) => Some(Error(e.text, PermanentMark, [e]))
  }

  lemma {:induction false} ChainDecides(e: Error)
    ensures FindsPermanent(e) <==> exists n :: n in Chain(e) && n.voice.PermanentMark?
    ensures FindsAnswer(e) == FirstAnswer(Chain(e))
    decreases e, 1
  {
    ChainDecidesAmong(e.causes);
    assert Chain(e)[1..] == ChainAll(e.causes);
    if FindsPermanent(e) && !e.voice.PermanentMark? {
      var n :| n in ChainAll(e.causes) && n.voice.PermanentMark?;
      assert n in Chain(e);
    } else if FindsPermanent(e) {
      assert e in Chain(e);
    }
  }

  lemma {:induction false} ChainDecidesAmong(es: seq<Error>)
    ensures FindsPermanentAmong(es) <==> exists n :: n in ChainAll(es) && n.voice.PermanentMark?
    ensures FindsAnswerAmong(es) == FirstAnswer(ChainAll(es))
    decreases es, 0
  {
    if es == [] {
    } else {
      ChainDecides(es[0]);
      ChainDecidesAmong(es[1..]);
      FirstAnswerConcat(Chain(es[0]), ChainAll(es[1..]));
      if FindsPermanent(es[0]) {
        var n :| n in Chain(es[0]) && n.voice.PermanentMark?;
        assert n in ChainAll(es);
      } else if FindsPermanentAmong(es[1..]) {
        var n :| n in ChainAll(es[1..]) && n.voice.PermanentMark?;
        assert n in ChainAll(es);
      }
    }
  }

  function FirstAnswer(c: seq<Error>): Option<bool> {
    if c == [] then None
    else if c[0].voice.Says? then Some(c[0].voice.retryable)
    else FirstAnswer(c[1..])
  }

  lemma {:induction false} FirstAnswerConcat(a: seq<Error>, b: seq<Error>)
    ensures FirstAnswer(a + b) == if FirstAnswer(a).Some? then FirstAnswer(a) else FirstAnswer(b)
  {
    if a == [] {
      assert a + b == b;
    } else {
      FirstAnswerConcat(a[1..], b);
      assert (a + b)[1..] == a[1..] + b;
    }
  }

  /** An error is worth retrying exactly when nothing in its chain is marked permanent and the first
      error with an opinion, if there is one, says yes. */
  lemma RetryableExactly(e: Error)
    ensures Retryable(Some(e)) <==>
              && (forall n :: n in Chain(e) ==> !n.voice.PermanentMark?)
              && FirstAnswer(Chain(e)) != Some(false)
  {
    ChainDecides(e);
  }

  /** The error at the end of a path of causes, if there is one. */
  function Reached(e: Error, path: seq<nat>): Option<Error>
    decreases |path|
  {
    if path == [] then Some(e)
    else if path[0] < |e.causes| then Reached(e.causes[path[0]], path[1..])
    else None
  }

  /** The chain is every error that some path of causes reaches. */
  lemma ChainIsReached(e: Error, n: Error)
    ensures n in Chain(e) <==> exists path :: Reached(e, path) == Some(n)
  {
    if n in Chain(e) {
      var path := PathInto(e, n);
    }
    forall path | Reached(e, path) == Some(n) ensures n in Chain(e) {
      ReachedInChain(e, path);
    }
  }

  lemma {:induction false} PathInto(e: Error, n: Error) returns (path: seq<nat>)
    requires n in Chain(e)
    ensures Reached(e, path) == Some(n)
    decreases e, 1
  {
    if n == e {
      path := [];
    } else {
      var i, rest := PathAmong(e.causes, n);
      path := [i] + rest;
      assert path[1..] == rest;
    }
  }

  lemma {:induction false} PathAmong(es: seq<Error>, n: Error) returns (i: nat, path: seq<nat>)
    requires n in ChainAll(es)
    ensures i < |es| && Reached(es[i], path) == Some(n)
    decreases es, 0
  {
    if n in Chain(es[0]) {
      i := 0;
      path := PathInto(es[0], n);
    } else {
      i, path := PathAmong(es[1..], n);
      i := i + 1;
    }
  }

  lemma {:induction false} ReachedInChain(e: Error, path: seq<nat>)
    requires Reached(e, path).Some?
    ensures Reached(e, path).value in Chain(e)
    decreases |path|
  {
    if path == [] {
    } else {
      ReachedInChain(e.causes[path[0]], path[1..]);
      InOneInAll(e.causes, path[0], Reached(e, path).value);
    }
  }

  lemma {:induction false} InOneInAll(es: seq<Error>, i: nat, n: Error)
    requires i < |es| && n in Chain(es[i])
    ensures n in ChainAll(es)
  {
    if i == 0 {
    } else {
      InOneInAll(es[1..], i - 1, n);
    }
  }

  /** An error's own answer comes first, and of joined causes the first with an answer gives it. */
  lemma {:induction false} FirstToAnswer(e: Error, i: nat)
    ensures e.voice.Says? ==> FirstAnswer(Chain(e)) == Some(e.voice.retryable)
    ensures !e.voice.Says? && i < |e.causes| && FirstAnswer(Chain(e.causes[i])).Some?
            && (forall j :: 0 <= j < i ==> FirstAnswer(Chain(e.causes[j])) == None) ==>
              FirstAnswer(Chain(e)) == FirstAnswer(Chain(e.causes[i]))
  {
    assert Chain(e)[1..] == ChainAll(e.causes);
    if i < |e.causes| && forall j :: 0 <= j < i ==> FirstAnswer(Chain(e.causes[j])) == None {
      FirstAmong(e.causes, i);
    }
  }

  lemma {:induction false} FirstAmong(es: seq<Error>, i: nat)
    requires i < |es| && forall j :: 0 <= j < i ==> FirstAnswer(Chain(es[j])) == None
    ensures FirstAnswer(Chain(es[i])).Some? ==> FirstAnswer(ChainAll(es)) == FirstAnswer(Chain(es[i]))
  {
    FirstAnswerConcat(Chain(es[0]), ChainAll(es[1..]));
    if i > 0 {
      forall j | 0 <= j < i - 1 ensures FirstAnswer(Chain(es[1..][j])) == None {
        assert es[1..][j] == es[j + 1];
      }
      FirstAmong(es[1..], i - 1);
    }
  }

  /** The chain says that retrying cannot help: something in it is marked permanent, or the first to have
      an answer says no. */
  ghost predicate ChainRefuses(e: Error) {
    (exists n :: n in Chain(e) && n.voice.PermanentMark?) || FirstAnswer(Chain(e)) == Some(false)
  }

  /** Marking an error permanent wins over anything it or its wrappers say, however deeply it is
      wrapped or joined afterwards. */
  lemma PermanentWins(err: Error, outer: Error)
    requires Permanent(Some(err)).value in Chain(outer)
    ensures !Retryable(Some(outer))
  {
    ChainDecides(outer);
  }

  // ---------------------------------------------------------------- the retry loop

  /** What the world does around one attempt: whether the context has ended before it, what the work
      returns, the jitter draw of the wait, and whether the context ends that wait. */
  datatype Round = Round(endedBefore: bool, outcome: Option<Error>, draw: Draw, endedInWait: bool)

  type World = nat -> Round

  datatype Verdict =
    | Succeeded
    | Cancelled
    | Stopped(err: Error)
    | Exhausted(attempts: nat, last: Error)

  /** The contract of `Do`: which calls were made, how it ended, and how long it slept. */
  ghost predicate Explains(p: Policy, w: World, r: Verdict, calls: seq<int>, slept: seq<int>)
    requires p.Normal()
  {
    var k := |calls|;
    && k <= p.attempts
    && (forall i :: 0 <= i < k ==> calls[i] == i + 1)
    && (forall i :: 1 <= i <= k ==> !w(i).endedBefore)
    && (forall i :: 1 <= i < k ==> Retryable(w(i).outcome) && !w(i).endedInWait)
    && (forall i :: 0 <= i < |slept| ==> slept[i] == Delay(p, i + 1, w(i + 1).draw))
    && match r {
         case Succeeded => k >= 1 && w(k).outcome == None && |slept| == k - 1
         case Cancelled => k == 0 && w(1).endedBefore && |slept| == 0
         case Stopped(e) => k >= 1 && w(k).outcome == Some(e) && !Retryable(Some(e)) && |slept| == k - 1
         case Exhausted(n, e) =>
           && n == k >= 1 && w(k).outcome == Some(e) && Retryable(Some(e))
           && |slept| == (if k == p.attempts then k - 1 else k)
           && (k == p.attempts || w(k).endedInWait || w(k + 1).endedBefore)
       }
  }

  /** Calls the work until it succeeds, fails for good, runs out of attempts, or the context ends.
      `calls` lists the attempt numbers passed to the work and `slept` the timers it set. */
  method Do(policy: Policy, w: World) returns (r: Verdict, calls: seq<int>, slept: seq<int>)
    ensures Explains(policy.Normalise(), w, r, calls, slept)
  {
    var p := policy.Normalise();
    calls, slept := [], [];
    var last: Option<Error> := None;
    var attempt := 1;
    while attempt <= p.attempts
      invariant 1 <= attempt <= p.attempts
      invariant |calls| == |slept| == attempt - 1
      invariant forall i :: 0 <= i < |calls| ==> calls[i] == i + 1
      invariant forall i :: 1 <= i < attempt ==> !w(i).endedBefore
      invariant forall i :: 1 <= i < attempt ==> Retryable(w(i).outcome) && !w(i).endedInWait
      invariant forall i :: 0 <= i < |slept| ==> slept[i] == Delay(p, i + 1, w(i + 1).draw)
      invariant last == if attempt == 1 then None else w(attempt - 1).outcome
      decreases p.attempts - attempt
    {
      if w(attempt).endedBefore {
        if last == None {
          return Cancelled, calls, slept;
        }
        return Exhausted(attempt - 1, last.value), calls, slept;
      }
      last := w(attempt).outcome;
      calls := calls + [attempt];
      if last == None {
        return Succeeded, calls, slept;
      }
      if !Retryable(last) {
        return Stopped(last.value), calls, slept;
      }
      if attempt == p.attempts {
        break;
      }
      var wait := Backoff(p, attempt, w(attempt).draw);
      slept := slept + [wait];
      if w(attempt).endedInWait {
        return Exhausted(attempt, last.value), calls, slept;
      }
      attempt := attempt + 1;
    }
    r := Exhausted(p.attempts, last.value);
  }

  /** The contract leaves no choice: a world has one explanation. */
  lemma ExplanationUnique(p: Policy, w: World,
                          r: Verdict, calls: seq<int>, slept: seq<int>,
                          r': Verdict, calls': seq<int>, slept': seq<int>)
    requires p.Normal()
    requires Explains(p, w, r, calls, slept) && Explains(p, w, r', calls', slept')
    ensures r == r' && calls == calls' && slept == slept'
  {
    if |calls| != |calls'| {
      var k := if |calls| < |calls'| then |calls| else |calls'|;
      assert false;
    }
    assert calls == calls';
    assert |slept| == |slept'|;
  }

  /** Nothing after a permanent error: if the outcome of some attempt carries the marker anywhere in
      its chain, no later attempt is made. */
  lemma PermanentStops(p: Policy, w: World, r: Verdict, calls: seq<int>, slept: seq<int>, n: int, e: Error,
                       marked: Error)
    requires p.Normal() && Explains(p, w, r, calls, slept)
    requires n >= 1 && w(n).outcome == Some(e) && marked in Chain(e) && marked.voice.PermanentMark?
    ensures |calls| <= n
    ensures |calls| == n ==> r == Stopped(e)
  {
    ChainDecides(e);
  }

  /** The i-th wait is the i-th base delay, give or take its jitter: the first one the initial delay. */
  lemma WaitsBackOff(p: Policy, w: World, r: Verdict, calls: seq<int>, slept: seq<int>, i: nat)
    requires p.Normal() && Explains(p, w, r, calls, slept) && 1 <= i <= |slept|
    ensures Least(p, Base(p, i)) - 1.0 < slept[i - 1] as real <= Most(p, Base(p, i))
    ensures Base(p, 1) == p.initial as real
  {
    DelayBounds(p, i, w(i).draw);
  }

  function Sum(s: seq<int>): int {
    if s == [] then 0 else Sum(s[..|s| - 1]) + s[|s| - 1]
  }

  lemma DelayCapped(p: Policy, attempt: int, draw: Draw)
    requires p.Normal() && p.initial <= p.max && attempt >= 1
    ensures 0.0 <= Delay(p, attempt, draw) as real <= Most(p, p.max as real)
  {
    var base := Base(p, attempt);
    assert base <= p.max as real by { BaseMonotoneWhenCapped(p, attempt, attempt); }
    MostMonotone(p, base, p.max as real);
    DelayBounds(p, attempt, draw);
  }

  lemma MostMonotone(p: Policy, x: real, y: real)
    requires p.Normal() && x <= y
    ensures Most(p, x) <= Most(p, y)
  {
    TimesMonotone(1.0 + p.jitter, x, y);
  }

  lemma {:induction false} SumBounded(s: seq<int>, cap: real)
    requires forall i :: 0 <= i < |s| ==> s[i] as real <= cap
    ensures Sum(s) as real <= |s| as real * cap
  {
    if s == [] {
    } else {
      SumBounded(s[..|s| - 1], cap);
      OneTimeMore(|s| as real, cap);
    }
  }

  lemma OneTimeMore(n: real, cap: real)
    ensures n * cap == (n - 1.0) * cap + cap
  {
  }

  lemma SumWithin(s: seq<int>, attempts: int, cap: real)
    requires |s| <= attempts - 1 && 0.0 <= cap && forall i :: 0 <= i < |s| ==> s[i] as real <= cap
    ensures Sum(s) as real <= (attempts - 1) as real * cap
  {
    SumBounded(s, cap);
    WithinMore(Sum(s) as real, |s| as real, (attempts - 1) as real, cap);
  }

  lemma WithinMore(sum: real, m: real, n: real, cap: real)
    requires sum <= m * cap && m <= n && 0.0 <= cap
    ensures sum <= n * cap
  {
    assert (n - m) * cap >= 0.0;
  }

  lemma SleepsCapped(p: Policy, w: World, r: Verdict, calls: seq<int>, slept: seq<int>)
    requires p.Normal() && p.initial <= p.max && Explains(p, w, r, calls, slept)
    ensures |slept| <= p.attempts - 1 && 0.0 <= Most(p, p.max as real)
    ensures forall i :: 0 <= i < |slept| ==> slept[i] as real <= Most(p, p.max as real)
  {
    forall i | 0 <= i < |slept| ensures slept[i] as real <= Most(p, p.max as real) {
      DelayCapped(p, i + 1, w(i + 1).draw);
    }
    DelayCapped(p, 1, w(1).draw);
  }

  /** Every run sleeps at most (attempts - 1) capped, fully jittered delays in all. */
  lemma TotalWaitBounded(p: Policy, w: World, r: Verdict, calls: seq<int>, slept: seq<int>)
    requires p.Normal() && p.initial <= p.max && Explains(p, w, r, calls, slept)
    ensures Sum(slept) as real <= (p.attempts - 1) as real * Most(p, p.max as real)
  {
    SleepsCapped(p, w, r, calls, slept);
    CappedWithin(p, slept);
  }

  lemma CappedWithin(p: Policy, slept: seq<int>)
    requires |slept| <= p.attempts - 1 && 0.0 <= Most(p, p.max as real)
    requires forall i :: 0 <= i < |slept| ==> slept[i] as real <= Most(p, p.max as real)
    ensures Sum(slept) as real <= (p.attempts - 1) as real * Most(p, p.max as real)
  {
    SumWithin(slept, p.attempts, Most(p, p.max as real));
  }
}
