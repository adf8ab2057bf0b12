/** The ingest pipeline of package `ingest` as interleaved steps over its bounded channel: every channel
    operation and every atomic counter update is a step of its own. */
module Ingest {
  import opened Wrappers

  datatype Message = Message(source: string, key: string, payload: string, received: int)

  /** The zero time, in nanoseconds since the Unix epoch. */
  const ZERO_TIME: int := -62_135_596_800_000_000_000

  datatype Config = Config(capacity: nat, blocking: bool, hasHandler: bool)

  /** A worker waits in `consume`, runs the handler on the n-th message taken, drains, or is gone. */
  datatype Worker =
    | Selecting
    | Handling(n: nat, m: Message, draining: bool)
    | Draining
    | Exited

  datatype State = State(
    queue: seq<Message>,
    workers: seq<Worker>,
    done: bool,
    accepted: nat, dropped: nat, failed: nat, processed: nat,
    uncounted: nat,               // sends whose `accepted` is still to be added
    undropped: nat,               // refusals whose `dropped` is still to be added
    waiting: multiset<Message>,   // submitted, and not yet through the select
    submitted: seq<Message>,      // everything handed to Submit, stamped
    refused: seq<Message>,        // what found the channel full in drop mode
    abandoned: seq<Message>,      // what was waiting for room when its context ended
    sent: seq<Message>,           // everything that entered the channel, in order
    taken: seq<Message>,          // everything that left it, in order
    processedAt: set<nat>,        // places in `taken` whose handler succeeded,
    failedAt: set<nat>,           // failed,
    swallowedAt: set<nat>,        // or was absent
    checkedAt: nat)               // how much had been sent when a worker last left on an empty channel

  datatype Event =
    | Submit(m: Message, now: int)
    | Send(m: Message)
    | CountAccepted
    | Refuse(m: Message)
    | CountDropped
    | Abandon(m: Message)
    | Cancel
    | Receive(w: nat)
    | SeeDone(w: nat)
    | DrainEmpty(w: nat)
    | Process(w: nat)
    | Fail(w: nat)
    | Swallow(w: nat)

  ghost predicate Init(s: State) {
    && |s.workers| >= 1 && (forall w :: 0 <= w < |s.workers| ==> s.workers[w] == Selecting)
    && s == Fresh(s.workers)
  }

  function Fresh(workers: seq<Worker>): State {
    State([], workers, false, 0, 0, 0, 0, 0, 0, multiset{}, [], [], [], [], [], {}, {}, {}, 0)
  }

  function Stamp(m: Message, now: int): Message {
    if m.received == ZERO_TIME then m.(received := now) else m
  }

  function After(k: Worker): Worker
    requires k.Handling?
  {
    if k.draining then Draining else Selecting
  }

  predicate Busy(s: State, w: nat) {
    w < |s.workers| && s.workers[w].Handling?
  }

  predicate Step(c: Config, s: State, e: Event, t: State) {
    match e
    case Submit(m, now) =>
      t == s.(submitted := s.submitted + [Stamp(m, now)], waiting := s.waiting + multiset{Stamp(m, now)})
    case Send(m) =>
      && m in s.waiting && |s.queue| < c.capacity
      && t == s.(waiting := s.waiting - multiset{m}, queue := s.queue + [m], sent := s.sent + [m],
                 uncounted := s.uncounted + 1)
    case CountAccepted =>
      s.uncounted > 0 && t == s.(uncounted := s.uncounted - 1, accepted := s.accepted + 1)
    case Refuse(m) =>
      && m in s.waiting && !c.blocking && |s.queue| >= c.capacity
      && t == s.(waiting := s.waiting - multiset{m}, refused := s.refused + [m], undropped := s.undropped + 1)
    case CountDropped =>
      s.undropped > 0 && t == s.(undropped := s.undropped - 1, dropped := s.dropped + 1)
    case Abandon(m) =>
      && m in s.waiting && c.blocking
      && t == s.(waiting := s.waiting - multiset{m}, abandoned := s.abandoned + [m])
    case Cancel =>
      t == s.(done := true)
    case Receive(w) =>
      && w < |s.workers| && (s.workers[w].Selecting? || s.workers[w].Draining?) && s.queue != []
      && t == s.(queue := s.queue[1..], taken := s.taken + [s.queue[0]],
                 workers := s.workers[w := Handling(|s.taken|, s.queue[0], s.workers[w].Draining?)])
    case SeeDone(w) =>
      w < |s.workers| && s.workers[w].Selecting? && s.done && t == s.(workers := s.workers[w := Draining])
    case DrainEmpty(w) =>
      && w < |s.workers| && s.workers[w].Draining? && s.queue == []
      && t == s.(workers := s.workers[w := Exited], checkedAt := |s.sent|)
    case Process(w) =>
      && Busy(s, w) && c.hasHandler
      && t == s.(workers := s.workers[w := After(s.workers[w])], processed := s.processed + 1,
                 processedAt := s.processedAt + {s.workers[w].n})
    case Fail(w) =>
      && Busy(s, w) && c.hasHandler
      && t == s.(workers := s.workers[w := After(s.workers[w])], failed := s.failed + 1,
                 failedAt := s.failedAt + {s.workers[w].n})
    case Swallow(w) =>
      && Busy(s, w) && !c.hasHandler
      && t == s.(workers := s.workers[w := After(s.workers[w])], swallowedAt := s.swallowedAt + {s.workers[w].n})
  }

  datatype Run = Start(first: State) | Then(before: Run, event: Event, now: State) {
    function Last(): State {
      match this
      case Start(s) => s
      case Then(_, _, s) => s
    }

    ghost predicate Valid(c: Config) {
      match this
      case Start(s) => Init(s)
      case Then(r, e, t) => r.Valid(c) && Step(c, r.Last(), e, t)
    }
  }

  // ---------------------------------------------------------------- order and capacity

  /** The channel is a bounded queue: what was taken, then what is queued, is what was sent. */
  predicate Ordered(c: Config, s: State) {
    && s.taken + s.queue == s.sent
    && |s.queue| <= c.capacity
    && s.accepted + s.uncounted == |s.sent|
    && (c.blocking ==> s.refused == [])
  }

  lemma OrderedStep(c: Config, s: State, e: Event, t: State)
    requires Ordered(c, s) && Step(c, s, e, t)
    ensures Ordered(c, t)
  {
    match e
    case Send(m) => assert t.taken + t.queue == (s.taken + s.queue) + [m];
    case Receive(w) => assert t.taken + t.queue == s.taken + s.queue;
    case _ =>
  }

  /** In every reachable state what workers have taken is a prefix of what was sent, the rest is
      queued within the capacity, every send is counted once it returns, and a blocking pipeline has
      refused nothing. */
  lemma {:induction false} QueueInOrder(c: Config, r: Run)
    requires r.Valid(c)
    ensures Ordered(c, r.Last())
  {
    match r
    case Start(s) =>
    case Then(before, e, t) =>
      QueueInOrder(c, before);
      OrderedStep(c, before.Last(), e, t);
  }

  // ---------------------------------------------------------------- what becomes of a submission

  /** The submissions are those waiting, those sent, those refused and those abandoned. */
  predicate AddUp(submitted: seq<Message>, waiting: multiset<Message>, a: seq<Message>, b: seq<Message>,
                  d: seq<Message>) {
    multiset(submitted) == waiting + multiset(a) + multiset(b) + multiset(d)
  }

  predicate Outcomes(c: Config, s: State) {
    && AddUp(s.submitted, s.waiting, s.sent, s.refused, s.abandoned)
    && s.dropped + s.undropped == |s.refused|
    && (!c.blocking ==> s.abandoned == [])
  }

  lemma OutcomesStep(c: Config, s: State, e: Event, t: State)
    requires Outcomes(c, s) && Step(c, s, e, t)
    ensures Outcomes(c, t)
  {
    match e
    case Submit(m, now) => Arrives(s.submitted, s.waiting, s.sent, s.refused, s.abandoned, Stamp(m, now));
    case Send(m) => Leaves(s.submitted, s.waiting, s.sent, s.refused, s.abandoned, m);
    case Refuse(m) => Leaves(s.submitted, s.waiting, s.sent, s.refused, s.abandoned, m);
    case Abandon(m) => Leaves(s.submitted, s.waiting, s.sent, s.refused, s.abandoned, m);
    case _ =>
  }

  lemma Arrives(all: seq<Message>, waiting: multiset<Message>, a: seq<Message>, b: seq<Message>, d: seq<Message>,
                m: Message)
    requires AddUp(all, waiting, a, b, d)
    ensures AddUp(all + [m], waiting + multiset{m}, a, b, d)
  {
  }

  lemma Leaves(all: seq<Message>, waiting: multiset<Message>, a: seq<Message>, b: seq<Message>, d: seq<Message>,
               m: Message)
    requires AddUp(all, waiting, a, b, d) && m in waiting
    ensures AddUp(all, waiting - multiset{m}, a + [m], b, d)
    ensures AddUp(all, waiting - multiset{m}, a, b + [m], d)
    ensures AddUp(all, waiting - multiset{m}, a, b, d + [m])
  {
    var one := multiset{m};
    LeavesWaiting(waiting, multiset(a), multiset(b) + multiset(d), one);
    LeavesWaiting(waiting, multiset(b), multiset(a) + multiset(d), one);
    LeavesWaiting(waiting, multiset(d), multiset(a) + multiset(b), one);
    assert multiset(a + [m]) == multiset(a) + one;
    assert multiset(b + [m]) == multiset(b) + one;
    assert multiset(d + [m]) == multiset(d) + one;
  }

  lemma LeavesWaiting(waiting: multiset<Message>, to: multiset<Message>, others: multiset<Message>,
                      one: multiset<Message>)
    requires one <= waiting
    ensures waiting - one + (to + one) + others == waiting + to + others
  {
  }

  /** Every message handed to Submit is still waiting, was sent, was refused, or was abandoned, each
      exactly as often as it was submitted. */
  lemma {:induction false} SubmissionsHaveOutcomes(c: Config, r: Run)
    requires r.Valid(c)
    ensures Outcomes(c, r.Last())
  {
    match r
    case Start(s) =>
    case Then(before, e, t) =>
      SubmissionsHaveOutcomes(c, before);
      OutcomesStep(c, before.Last(), e, t);
  }

  /** Once every Submit has returned, the counters account for every submission if and only if none was
      abandoned: in drop mode always, in blocking mode unless a context ended while a message waited. */
  lemma CountersCoverSubmissions(c: Config, r: Run)
    requires r.Valid(c)
    ensures var s := r.Last();
            && |s.submitted| == |s.waiting| + (s.accepted + s.uncounted) + (s.dropped + s.undropped) + |s.abandoned|
            && (|s.submitted| == |s.waiting| + (s.accepted + s.uncounted) + (s.dropped + s.undropped) <==>
                  s.abandoned == [])
            && (!c.blocking ==> s.abandoned == [])
  {
    var s := r.Last();
    SubmissionsHaveOutcomes(c, r);
    QueueInOrder(c, r);
    assert |multiset(s.submitted)| == |s.submitted|;
  }

  /** What was handed to Submit, and the clock when it was. */
  function Offered(r: Run): seq<(Message, int)> {
    match r
    case Start(_) => []
    case Then(before, Submit(m, now), _) => Offered(before) + [(m, now)]
    case Then(before, _, _) => Offered(before)
  }

  predicate StampedAs(m: Message, now: int, x: Message) {
    && x.source == m.source && x.key == m.key && x.payload == m.payload
    && x.received == if m.received == ZERO_TIME then now else m.received
  }

  /** A message keeps the time it was received at; one without gets the clock, and nothing else changes. */
  lemma {:induction false} SubmittedAsOffered(c: Config, r: Run)
    requires r.Valid(c)
    ensures |r.Last().submitted| == |Offered(r)|
    ensures forall i :: 0 <= i < |Offered(r)| ==> StampedAs(Offered(r)[i].0, Offered(r)[i].1, r.Last().submitted[i])
  {
    match r
    case Start(_) =>
    case Then(before, e, t) =>
      SubmittedAsOffered(c, before);
      SubmitsOne(c, before.Last(), e, t);
  }

  lemma SubmitsOne(c: Config, s: State, e: Event, t: State)
    requires Step(c, s, e, t)
    ensures !e.Submit? ==> t.submitted == s.submitted
    ensures e.Submit? ==> |t.submitted| == |s.submitted| + 1 && t.submitted[..|s.submitted|] == s.submitted
                          && StampedAs(e.m, e.now, t.submitted[|s.submitted|])
  {
  }

  /** Once every Submit has returned, the counters account for every submission. */
  ghost predicate AlwaysCovers(c: Config) {
    forall r: Run | r.Valid(c) :: var s := r.Last();
      s.waiting == multiset{} && s.uncounted == 0 && s.undropped == 0 ==> |s.submitted| == s.accepted + s.dropped
  }

  /** They are certain to if and only if the pipeline does not block. */
  lemma CoveredForCertainExactly(c: Config)
    ensures AlwaysCovers(c) <==> !c.blocking
  {
    if c.blocking {
      var r := AbandonedIsUncounted(c, Message("", "", "", 0));
      assert |r.Last().submitted| == 1;
    } else {
      forall r: Run | r.Valid(c) ensures var s := r.Last();
        s.waiting == multiset{} && s.uncounted == 0 && s.undropped == 0 ==> |s.submitted| == s.accepted + s.dropped
      {
        CountersCoverSubmissions(c, r);
      }
    }
  }

  /** An abandoned message is in no counter. */
  lemma AbandonedIsUncounted(c: Config, m: Message) returns (r: Run)
    requires c.blocking
    ensures r.Valid(c) && r.Last() == Fresh([Selecting]).(submitted := [m], abandoned := [m])
  {
    r := Start(Fresh([Selecting]));
    var s := r.Last().(submitted := [m], waiting := multiset{m});
    r := Extend(c, r, Submit(m, m.received), s);
    r := Extend(c, r, Abandon(m), s.(waiting := multiset{}, abandoned := [m]));
  }

  /** In drop mode the arriving message enters if and only if the channel has room; else it is the one
      that is lost, and the channel keeps the older ones it is full of. */
  lemma ArrivalEntersIfRoom(c: Config, before: Run, e: Event, t: State)
    requires Then(before, e, t).Valid(c) && !c.blocking && (e.Send? || e.Refuse?)
    ensures var s := before.Last();
            if |s.queue| < c.capacity then
              e.Send? && t.queue == s.queue + [e.m] && t.refused == s.refused
            else
              && e.Refuse? && t.queue == s.queue && t.refused == s.refused + [e.m]
              && |s.sent| >= c.capacity && s.queue == s.sent[|s.sent| - c.capacity..]
  {
    QueueInOrder(c, before);
    var s := before.Last();
    assert s.sent[|s.taken|..] == s.queue;
  }

  /** So the newest data does not keep flowing: a full channel of older messages outlasts it. */
  lemma NewestIsRefused(c: Config, older: seq<Message>, newest: Message) returns (r: Run)
    requires !c.blocking && |older| == c.capacity
    ensures r.Valid(c) && r.Last().submitted == older + [newest]
    ensures r.Last().queue == older && r.Last().refused == [newest] && r.Last().dropped == 1
  {
    r := SendAll(c, older);
    var s := r.Last().(submitted := older + [newest], waiting := multiset{newest});
    r := Extend(c, r, Submit(newest, newest.received), s);
    s := s.(waiting := multiset{}, refused := [newest], undropped := 1);
    r := Extend(c, r, Refuse(newest), s);
    r := Extend(c, r, CountDropped, s.(undropped := 0, dropped := 1));
  }

  lemma {:induction false} SendAll(c: Config, ms: seq<Message>) returns (r: Run)
    requires |ms| <= c.capacity
    ensures r.Valid(c)
    ensures r.Last() == Fresh([Selecting]).(queue := ms, sent := ms, submitted := ms, accepted := |ms|)
  {
    if ms == [] {
      r := Start(Fresh([Selecting]));
    } else {
      var n := |ms| - 1;
      r := SendAll(c, ms[..n]);
      assert ms == ms[..n] + [ms[n]];
      r := SendOne(c, r, ms[n]);
    }
  }

  lemma SendOne(c: Config, r: Run, m: Message) returns (r': Run)
    requires r.Valid(c) && r.Last().waiting == multiset{} && r.Last().uncounted == 0 && |r.Last().queue| < c.capacity
    ensures r'.Valid(c) && CancelledAt(r') == CancelledAt(r)
    ensures var s := r.Last();
            r'.Last() == s.(queue := s.queue + [m], sent := s.sent + [m], submitted := s.submitted + [m],
                          accepted := s.accepted + 1)
  {
    var s := r.Last().(submitted := r.Last().submitted + [m], waiting := multiset{m});
    r' := Extend(c, r, Submit(m, m.received), s);
    s := s.(waiting := multiset{}, queue := s.queue + [m], sent := s.sent + [m], uncounted := 1);
    r' := Extend(c, r', Send(m), s);
    r' := Extend(c, r', CountAccepted, s.(uncounted := 0, accepted := s.accepted + 1));
  }

  lemma Extend(c: Config, r: Run, e: Event, t: State) returns (r': Run)
    requires r.Valid(c) && Step(c, r.Last(), e, t)
    ensures r' == Then(r, e, t) && r'.Valid(c)
    ensures !e.Cancel? ==> CancelledAt(r') == CancelledAt(r)
  {
    r' := Then(r, e, t);
  }

  // ---------------------------------------------------------------- no message lost, none handled twice

  predicate SettledAt(s: State, n: nat) {
    n in s.processedAt || n in s.failedAt || n in s.swallowedAt
  }

  predicate HandlingAt(s: State, w: nat, n: nat) {
    w < |s.workers| && s.workers[w].Handling? && s.workers[w].n == n
  }

  /** Every message taken is either in the hands of exactly one worker or settled in exactly one way. */
  ghost predicate Placed(c: Config, s: State) {
    && (forall w :: 0 <= w < |s.workers| && s.workers[w].Handling? ==>
          && s.workers[w].n < |s.taken| && s.taken[s.workers[w].n] == s.workers[w].m && !SettledAt(s, s.workers[w].n))
    && (forall v, w :: 0 <= v < w < |s.workers| && s.workers[v].Handling? && s.workers[w].Handling? ==>
          s.workers[v].n != s.workers[w].n)
    && (forall n: nat :: SettledAt(s, n) ==> n < |s.taken|)
    && (forall n :: 0 <= n < |s.taken| ==> SettledAt(s, n) || exists w :: HandlingAt(s, w, n))
  }

  ghost predicate Tallied(c: Config, s: State) {
    && s.processed == |s.processedAt| && s.failed == |s.failedAt|
    && s.processedAt !! s.failedAt && (s.processedAt + s.failedAt) !! s.swallowedAt
    && (if c.hasHandler then s.swallowedAt == {} else s.processedAt == {} && s.failedAt == {})
  }

  lemma PlacedStep(c: Config, s: State, e: Event, t: State)
    requires Placed(c, s) && Step(c, s, e, t)
    ensures Placed(c, t)
  {
    if e.Receive? {
      PlacedReceive(c, s, e.w, t);
    } else if e.Process? || e.Fail? || e.Swallow? {
      PlacedSettle(c, s, e.w, t);
    } else {
      assert forall n: nat :: SettledAt(t, n) <==> SettledAt(s, n);
      forall n | 0 <= n < |t.taken| && !SettledAt(t, n) ensures exists w :: HandlingAt(t, w, n) {
        assert !SettledAt(s, n);
        var w :| HandlingAt(s, w, n);
        assert HandlingAt(t, w, n);
      }
    }
  }

  lemma PlacedReceive(c: Config, s: State, w: nat, t: State)
    requires Placed(c, s) && Step(c, s, Receive(w), t)
    ensures Placed(c, t)
  {
    assert forall n: nat :: SettledAt(t, n) <==> SettledAt(s, n);
    assert !SettledAt(s, |s.taken|);
    forall n | 0 <= n < |t.taken| && !SettledAt(t, n) ensures exists v :: HandlingAt(t, v, n) {
      if n == |s.taken| {
        assert HandlingAt(t, w, n);
      } else {
        assert !SettledAt(s, n);
        var v :| HandlingAt(s, v, n);
        assert HandlingAt(t, v, n);
      }
    }
  }

  lemma PlacedSettle(c: Config, s: State, w: nat, t: State)
    requires Placed(c, s) && Busy(s, w)
    requires t.workers == s.workers[w := After(s.workers[w])] && t.taken == s.taken
    requires forall n: nat :: SettledAt(t, n) <==> SettledAt(s, n) || n == s.workers[w].n
    ensures Placed(c, t)
  {
    forall n | 0 <= n < |t.taken| && !SettledAt(t, n) ensures exists v :: HandlingAt(t, v, n) {
      var v :| HandlingAt(s, v, n);
      assert HandlingAt(t, v, n);
    }
  }

  lemma TalliedStep(c: Config, s: State, e: Event, t: State)
    requires Placed(c, s) && Tallied(c, s) && Step(c, s, e, t)
    ensures Tallied(c, t)
  {
    if e.Process? || e.Fail? || e.Swallow? {
      assert !SettledAt(s, s.workers[e.w].n);
    }
  }

  lemma {:induction false} RunIsPlaced(c: Config, r: Run)
    requires r.Valid(c)
    ensures Placed(c, r.Last()) && Tallied(c, r.Last())
  {
    match r
    case Start(s) =>
    case Then(before, e, t) =>
      RunIsPlaced(c, before);
      PlacedStep(c, before.Last(), e, t);
      TalliedStep(c, before.Last(), e, t);
  }

  /** The places of the messages workers have in hand. */
  function InFlight(ws: seq<Worker>): set<nat> {
    set w | 0 <= w < |ws| && ws[w].Handling? :: ws[w].n
  }

  /** The places before the n-th. */
  function Below(n: nat): set<nat> {
    if n == 0 then {} else Below(n - 1) + {n - 1}
  }

  lemma {:induction false} BelowSize(n: nat)
    ensures |Below(n)| == n && forall i: nat :: i in Below(n) <==> i < n
  {
    if n == 0 {
    } else {
      BelowSize(n - 1);
    }
  }

  lemma Places(c: Config, s: State)
    requires Placed(c, s) && Tallied(c, s)
    ensures |s.taken| == |InFlight(s.workers)| + |s.processedAt| + |s.failedAt| + |s.swallowedAt|
  {
    var settled := s.processedAt + s.failedAt + s.swallowedAt;
    BelowSize(|s.taken|);
    forall n | n in Below(|s.taken|) - settled ensures n in InFlight(s.workers) {
      assert !SettledAt(s, n);
      var w :| HandlingAt(s, w, n);
    }
    forall n | n in InFlight(s.workers) ensures n in Below(|s.taken|) - settled {
      var w :| 0 <= w < |s.workers| && s.workers[w].Handling? && s.workers[w].n == n;
      assert !SettledAt(s, n);
    }
    assert forall n: nat :: n in settled ==> SettledAt(s, n);
    assert Below(|s.taken|) == settled + InFlight(s.workers);
    SettledSize(s.processedAt, s.failedAt, s.swallowedAt, InFlight(s.workers));
  }

  lemma SettledSize(a: set<nat>, b: set<nat>, d: set<nat>, e: set<nat>)
    requires a !! b && (a + b) !! d && (a + b + d) !! e
    ensures |a + b + d + e| == |a| + |b| + |d| + |e|
  {
  }

  /** What was sent is queued, in flight, processed, failed, or, when the pipeline has no handler to
      count it, swallowed. */
  lemma SentAccounted(c: Config, r: Run)
    requires r.Valid(c)
    ensures var s := r.Last();
            |s.sent| == |s.queue| + |InFlight(s.workers)| + s.processed + s.failed + |s.swallowedAt|
  {
    QueueInOrder(c, r);
    RunIsPlaced(c, r);
    Places(c, r.Last());
  }

  /** The counters alone account for everything exactly as long as no message has been swallowed, and a
      pipeline with a handler never swallows one. */
  lemma CountersSuffice(c: Config, r: Run)
    requires r.Valid(c)
    ensures var s := r.Last();
            && (|s.sent| == |s.queue| + |InFlight(s.workers)| + s.processed + s.failed <==> s.swallowedAt == {})
            && (c.hasHandler ==> s.swallowedAt == {})
            && (!c.hasHandler ==> |s.swallowedAt| == |s.taken| - |InFlight(s.workers)|)
  {
    SentAccounted(c, r);
    RunIsPlaced(c, r);
    QueueInOrder(c, r);
  }

  /** With one worker messages are handled strictly one after the other, in the order sent. */
  predicate OneAtATime(s: State) {
    |s.workers| == 1 && s.workers[0].Handling? ==> s.workers[0].n == |s.taken| - 1
  }

  lemma OneStep(c: Config, s: State, e: Event, t: State)
    requires OneAtATime(s) && Step(c, s, e, t)
    ensures OneAtATime(t)
  {
    if |s.workers| == 1 && (e.Receive? || e.SeeDone? || e.DrainEmpty? || e.Process? || e.Fail? || e.Swallow?) {
      assert e.w == 0;
    }
  }

  lemma {:induction false} OneWorkerIsBehind(c: Config, r: Run)
    requires r.Valid(c)
    ensures OneAtATime(r.Last())
  {
    match r
    case Start(s) =>
    case Then(before, e, t) =>
      OneWorkerIsBehind(c, before);
      OneStep(c, before.Last(), e, t);
  }

  lemma OneWorkerHandlesInOrder(c: Config, r: Run)
    requires r.Valid(c) && |r.Last().workers| == 1 && r.Last().workers[0].Handling?
    ensures var s := r.Last(); var k := s.workers[0];
            && k.n < |s.sent| && k.m == s.sent[k.n]
            && (forall n: nat :: n < k.n <==> SettledAt(s, n))
  {
    OneWorkerIsBehind(c, r);
    RunIsPlaced(c, r);
    QueueInOrder(c, r);
    var s := r.Last();
    assert s.sent[..|s.taken|] == s.taken;
    EarlierSettled(c, s);
  }

  lemma EarlierSettled(c: Config, s: State)
    requires Placed(c, s) && OneAtATime(s) && |s.workers| == 1 && s.workers[0].Handling?
    ensures forall n: nat :: n < s.workers[0].n <==> SettledAt(s, n)
  {
    forall n | 0 <= n < s.workers[0].n ensures SettledAt(s, n) {
      assert !HandlingAt(s, 0, n);
    }
  }

  // ---------------------------------------------------------------- shutdown

  /** `Run` may return: the context is done and every worker has left. */
  predicate Returned(s: State) {
    s.done && forall w :: 0 <= w < |s.workers| ==> s.workers[w].Exited?
  }

  ghost predicate Shutting(s: State) {
    && |s.workers| >= 1
    && ((forall w :: 0 <= w < |s.workers| ==> s.workers[w].Exited?) ==> |s.taken| == s.checkedAt)
    && ((exists w :: 0 <= w < |s.workers| && (s.workers[w].Exited? || s.workers[w].Draining?)) ==> s.done)
    && (forall w :: 0 <= w < |s.workers| && s.workers[w].Handling? && s.workers[w].draining ==> s.done)
  }

  lemma ShuttingStep(c: Config, s: State, e: Event, t: State)
    requires Ordered(c, s) && Shutting(s) && Step(c, s, e, t)
    ensures Shutting(t)
  {
    if e.Receive? || e.SeeDone? || e.DrainEmpty? || e.Process? || e.Fail? || e.Swallow? {
      assert |t.workers| == |s.workers|;
      assert t.workers[e.w].Exited? ==> e.DrainEmpty?;
      if e.DrainEmpty? {
        assert s.taken == s.sent;
        assert s.workers[e.w].Draining?;
      }
    }
  }

  lemma {:induction false} RunIsShutting(c: Config, r: Run)
    requires r.Valid(c)
    ensures Shutting(r.Last())
  {
    match r
    case Start(s) =>
    case Then(before, e, t) =>
      RunIsShutting(c, before);
      QueueInOrder(c, before);
      ShuttingStep(c, before.Last(), e, t);
  }

  /** When `Run` returns the channel holds exactly what was sent after the last worker found it empty. */
  lemma LeftAtReturn(c: Config, r: Run)
    requires r.Valid(c) && Returned(r.Last())
    ensures var s := r.Last();
            && s.checkedAt <= |s.sent| && s.queue == s.sent[s.checkedAt..]
            && InFlight(s.workers) == {}
  {
    RunIsShutting(c, r);
    QueueInOrder(c, r);
    var s := r.Last();
    assert s.sent[|s.taken|..] == s.queue;
  }

  /** How much had been sent when the context ended. */
  function CancelledAt(r: Run): Option<nat> {
    match r
    case Start(_) => None
    case Then(before, e, _) =>
      if e.Cancel? && !before.Last().done then Some(|before.Last().sent|) else CancelledAt(before)
  }

  /** A worker leaves only after everything sent before the context ended has been taken. */
  lemma {:induction false} TakenBeforeLeaving(c: Config, r: Run)
    requires r.Valid(c)
    ensures var s := r.Last();
            && (s.done <==> CancelledAt(r).Some?)
            && (s.done ==> CancelledAt(r).value <= |s.sent|)
            && ((exists w :: 0 <= w < |s.workers| && s.workers[w].Exited?) ==>
                  s.done && CancelledAt(r).value <= |s.taken|)
  {
    match r
    case Start(s) =>
    case Then(before, e, t) =>
      TakenBeforeLeaving(c, before);
      RunIsShutting(c, before);
      QueueInOrder(c, before);
      LeavesOnlyEmpty(c, before.Last(), e, t);
  }

  lemma LeavesOnlyEmpty(c: Config, s: State, e: Event, t: State)
    requires Ordered(c, s) && Shutting(s) && Step(c, s, e, t)
    ensures |s.sent| <= |t.sent| && |s.taken| <= |t.taken| && (s.done ==> t.done)
    ensures !e.Cancel? ==> t.done == s.done
    ensures (exists w :: 0 <= w < |t.workers| && t.workers[w].Exited?) ==>
              (exists w :: 0 <= w < |s.workers| && s.workers[w].Exited?) || (s.done && s.taken == s.sent)
  {
    if e.DrainEmpty? {
      assert s.workers[e.w].Draining?;
    } else if exists w :: 0 <= w < |t.workers| && t.workers[w].Exited? {
      var w :| 0 <= w < |t.workers| && t.workers[w].Exited?;
      assert s.workers[w].Exited?;
    }
  }

  /** When `Run` returns, every message that entered the channel before the context ended is settled;
      so the channel is drained if nothing entered it after that. */
  lemma SettledAtReturn(c: Config, r: Run)
    requires r.Valid(c) && Returned(r.Last())
    ensures var s := r.Last();
            && CancelledAt(r).Some? && CancelledAt(r).value <= |s.sent|
            && (forall n: nat :: n < CancelledAt(r).value ==> SettledAt(s, n))
            && (CancelledAt(r).value == |s.sent| ==> s.queue == [])
  {
    var s := r.Last();
    TakenBeforeLeaving(c, r);
    RunIsShutting(c, r);
    RunIsPlaced(c, r);
    QueueInOrder(c, r);
    assert s.workers[0].Exited?;
    forall n: nat | n < CancelledAt(r).value ensures SettledAt(s, n) {
      assert forall w :: !HandlingAt(s, w, n);
    }
  }

  /** Every schedule that sends this many messages after the context has ended drains the channel. */
  ghost predicate AlwaysDrains(c: Config, late: nat) {
    forall r: Run ::
      r.Valid(c) && Returned(r.Last()) && CancelledAt(r).Some? && |r.Last().sent| == CancelledAt(r).value + late ==>
        r.Last().queue == []
  }

  /** Draining is certain if and only if no message is sent after the context has ended. */
  lemma DrainedForCertainExactly(c: Config, late: nat)
    requires c.capacity >= 1
    ensures AlwaysDrains(c, late) <==> late == 0
  {
    if late == 0 {
      forall r: Run | r.Valid(c) && Returned(r.Last()) && CancelledAt(r) == Some(|r.Last().sent|)
        ensures r.Last().queue == []
      {
        SettledAtReturn(c, r);
      }
    } else {
      var r := ReturnsWithMessageQueued(c, Message("", "", "", 0), late);
      assert r.Last().queue != [];
    }
  }

  /** A send that races with shutdown can still find room in the channel, and is then left there: the
      last of any number of late messages may be. */
  lemma ReturnsWithMessageQueued(c: Config, m: Message, late: nat) returns (r: Run)
    requires c.capacity >= 1 && late >= 1
    ensures r.Valid(c) && Returned(r.Last()) && r.Last().queue == [m]
    ensures CancelledAt(r) == Some(0) && r.Last().accepted == |r.Last().sent| == late
  {
    r := PassAll(c, m, late - 1);
    var s := r.Last().(workers := [Draining]);
    r := Extend(c, r, SeeDone(0), s);
    s := s.(workers := [Exited], checkedAt := |s.sent|);
    r := Extend(c, r, DrainEmpty(0), s);
    r := SendOne(c, r, m);
  }

  /** One worker, still in its select, on a cancelled pipeline that has seen nothing else. */
  ghost predicate Idle(s: State) {
    && s.workers == [Selecting] && s.done && s.queue == [] && s.waiting == multiset{}
    && s.uncounted == 0 && s.accepted == |s.sent|
  }

  lemma {:induction false} PassAll(c: Config, m: Message, n: nat) returns (r: Run)
    requires c.capacity >= 1
    ensures r.Valid(c) && Idle(r.Last()) && CancelledAt(r) == Some(0) && |r.Last().sent| == n
  {
    if n == 0 {
      r := Start(Fresh([Selecting]));
      r := Extend(c, r, Cancel, r.Last().(done := true));
    } else {
      r := PassAll(c, m, n - 1);
      r := SendOne(c, r, m);
      var s := r.Last();
      var t := s.(queue := [], taken := s.taken + [m], workers := [Handling(|s.taken|, m, false)]);
      r := Extend(c, r, Receive(0), t);
      r := SettleOne(c, r);
    }
  }

  lemma SettleOne(c: Config, r: Run) returns (r': Run)
    requires r.Valid(c) && |r.Last().workers| == 1 && r.Last().workers[0].Handling? && !r.Last().workers[0].draining
    ensures r'.Valid(c) && CancelledAt(r') == CancelledAt(r) && r'.Last().workers == [Selecting]
    ensures var s, t := r.Last(), r'.Last();
            && t.queue == s.queue && t.waiting == s.waiting && t.uncounted == s.uncounted && t.accepted == s.accepted
            && t.sent == s.sent && t.done == s.done
  {
    var s := r.Last();
    var n := s.workers[0].n;
    if c.hasHandler {
      r' := Extend(c, r, Process(0), s.(workers := [Selecting], processed := s.processed + 1,
                                        processedAt := s.processedAt + {n}));
    } else {
      r' := Extend(c, r, Swallow(0), s.(workers := [Selecting], swallowedAt := s.swallowedAt + {n}));
    }
  }
}
