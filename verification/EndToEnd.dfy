/** A pipeline built around `Queue.Wrap`: a worker whose handler fails parks the message, or has it
    rejected, before the failure is counted. Everything else interleaves freely. */
module EndToEnd {
  import opened Wrappers
  import opened Retry
  import opened DeadLetter
  import P = Ingest
  import D = DeadLetterRuns

  /** What the wrapped handler did with a message its inner handler failed. */
  datatype Verdict = Refused | ParkedAs(id: Id)

  /** `verdicts` is keyed by the place of the message in the order the workers took them. */
  datatype State = State(p: P.State, d: D.State, verdicts: map<nat, Verdict>)

  datatype Event =
    | PipelineStep(pe: P.Event)
    | QueueStep(de: D.Event)
    | HandlerFails(w: nat, err: Error, id: Id, now: Time, draw: Draw)

  ghost predicate Init(s: State) {
    P.Init(s.p) && D.Init(s.d) && s.verdicts == map[]
  }

  /** A worker counts a success only if nothing was parked for the message, a failure only after. */
  predicate Counts(s: State, pe: P.Event) {
    && (pe.Process? && P.Busy(s.p, pe.w) ==> s.p.workers[pe.w].n !in s.verdicts)
    && (pe.Fail? && P.Busy(s.p, pe.w) ==> s.p.workers[pe.w].n in s.verdicts)
  }

  ghost predicate Step(pc: P.Config, dc: Config, s: State, e: Event, t: State) {
    match e
    case PipelineStep(pe) =>
      P.Step(pc, s.p, pe, t.p) && Counts(s, pe) && t.d == s.d && t.verdicts == s.verdicts
    case QueueStep(de) =>
      D.Step(dc, s.d, de, t.d) && !de.Admit? && !de.Reject? && t.p == s.p && t.verdicts == s.verdicts
    case HandlerFails(w, err, id, now, draw) =>
      && P.Busy(s.p, w) && s.p.workers[w].n !in s.verdicts && t.p == s.p
      && var k := s.p.workers[w];
         if Hopeless(Some(err)) then
           D.Step(dc, s.d, D.Reject, t.d) && t.verdicts == s.verdicts[k.n := Refused]
         else
           D.Step(dc, s.d, D.Admit(id, k.m, Some(err), now, draw), t.d) && t.verdicts == s.verdicts[k.n := ParkedAs(id)]
  }

  datatype Run = Start(first: State) | Then(before: Run, event: Event, now: State) {
    function Last(): State {
      match this
      case Start(s) => s
      case Then(_, _, s) => s
    }

    ghost predicate Valid(pc: P.Config, dc: Config) {
      match this
      case Start(s) => Init(s)
      case Then(r, e, t) => r.Valid(pc, dc) && Step(pc, dc, r.Last(), e, t)
    }
  }

  // ---------------------------------------------------------------- both halves keep their own runs

  lemma {:induction false} PipelineHalf(pc: P.Config, dc: Config, r: Run) returns (q: P.Run)
    requires r.Valid(pc, dc)
    ensures q.Valid(pc) && q.Last() == r.Last().p
  {
    match r {
      case Start(s) => q := P.Start(s.p);
      case Then(before, e, t) =>
        q := PipelineHalf(pc, dc, before);
        if e.PipelineStep? {
          q := P.Then(q, e.pe, t.p);
        }
    }
  }

  lemma {:induction false} QueueHalf(pc: P.Config, dc: Config, r: Run) returns (q: D.Run)
    requires r.Valid(pc, dc)
    ensures q.Valid(dc) && q.Last() == r.Last().d
  {
    match r {
      case Start(s) => q := D.Start(s.d);
      case Then(before, e, t) =>
        q := QueueHalf(pc, dc, before);
        match e {
          case PipelineStep(_) =>
          case QueueStep(de) => q := D.Then(q, de, t.d);
          case HandlerFails(w, err, id, now, draw) =>
            var k := before.Last().p.workers[w];
            q := D.Then(q, if Hopeless(Some(err)) then D.Reject else D.Admit(id, k.m, Some(err), now, draw), t.d);
        }
    }
  }

  // ---------------------------------------------------------------- the seam

  function Refusals(v: map<nat, Verdict>): set<nat> {
    set n | n in v && v[n].Refused?
  }

  function Parkings(v: map<nat, Verdict>): set<nat> {
    set n | n in v && v[n].ParkedAs?
  }

  ghost predicate Holder(s: State, id: Id, n: nat) {
    n in s.verdicts && s.verdicts[n] == ParkedAs(id)
  }

  /** Each verdict belongs to one message that failed or is about to be counted so; parking names a
      message of its own, and every id Park accepted was parked for exactly one failed message. */
  ghost predicate Linked(s: State) {
    && (forall n :: n in s.verdicts ==> n < |s.p.taken| && n !in s.p.processedAt && n !in s.p.swallowedAt)
    && (forall n :: n in s.p.failedAt ==> n in s.verdicts)
    && (forall n :: n in s.verdicts && s.verdicts[n].ParkedAs? ==>
          Get(s.d.h.origin, s.verdicts[n].id) == Some(s.p.taken[n]))
    && (forall m, n :: m in s.verdicts && n in s.verdicts && m != n && s.verdicts[m].ParkedAs? ==>
          s.verdicts[m] != s.verdicts[n])
    && (forall id :: id in s.d.h.origin ==> exists n :: Holder(s, id, n))
  }

  ghost predicate Seam(s: State) {
    && Linked(s)
    && s.d.store.stats.rejected == |Refusals(s.verdicts)|
    && s.d.store.stats.accepted == |Parkings(s.verdicts)|
  }

  lemma SeamStep(pc: P.Config, dc: Config, s: State, e: Event, t: State)
    requires pc.hasHandler && P.Placed(pc, s.p) && P.Tallied(pc, s.p) && D.Known(s.d)
    requires Seam(s) && Step(pc, dc, s, e, t)
    ensures Seam(t)
  {
    match e
    case PipelineStep(pe) => SeamPipeline(pc, s, pe, t);
    case QueueStep(de) => SeamQueue(dc, s, de, t);
    case HandlerFails(w, err, id, now, draw) =>
      InHandUnsettled(pc, s.p, w);
      if Hopeless(Some(err)) {
        SeamRefuse(s, s.p.workers[w].n, t);
      } else {
        QueueAdmits(dc, s.d, id, s.p.workers[w].m, Some(err), now, draw, t.d);
        SeamPark(s, s.p.workers[w].n, id, t);
      }
  }

  lemma SeamPipeline(pc: P.Config, s: State, pe: P.Event, t: State)
    requires pc.hasHandler && P.Placed(pc, s.p) && Seam(s)
    requires P.Step(pc, s.p, pe, t.p) && Counts(s, pe) && t.d == s.d && t.verdicts == s.verdicts
    ensures Seam(t)
  {
    forall id | id in t.d.h.origin ensures exists n :: Holder(t, id, n) {
      var n :| Holder(s, id, n);
      assert Holder(t, id, n);
    }
  }

  lemma QueueKeepsOrigin(dc: Config, d: D.State, de: D.Event, d': D.State)
    requires D.Step(dc, d, de, d') && !de.Admit? && !de.Reject?
    ensures d'.h.origin == d.h.origin && d'.store.stats.rejected == d.store.stats.rejected
    ensures d'.store.stats.accepted == d.store.stats.accepted
  {
  }

  lemma QueueAdmits(dc: Config, d: D.State, id: Id, m: Message, cause: Option<Error>, now: Time, draw: Draw,
                    d': D.State)
    requires D.Known(d) && D.Step(dc, d, D.Admit(id, m, cause, now, draw), d')
    ensures id !in d.h.origin && d'.h.origin == d.h.origin[id := m]
    ensures d'.store.stats.rejected == d.store.stats.rejected && d'.store.stats.accepted == d.store.stats.accepted + 1
  {
  }

  lemma SeamQueue(dc: Config, s: State, de: D.Event, t: State)
    requires Seam(s) && D.Step(dc, s.d, de, t.d) && !de.Admit? && !de.Reject? && t.p == s.p && t.verdicts == s.verdicts
    ensures Seam(t)
  {
    QueueKeepsOrigin(dc, s.d, de, t.d);
    forall id | id in t.d.h.origin ensures exists n :: Holder(t, id, n) {
      var n :| Holder(s, id, n);
      assert Holder(t, id, n);
    }
  }

  /** The message a worker has in hand has not been settled. */
  lemma InHandUnsettled(pc: P.Config, p: P.State, w: nat)
    requires P.Placed(pc, p) && P.Busy(p, w)
    ensures var n := p.workers[w].n; n < |p.taken| && p.taken[n] == p.workers[w].m && !P.SettledAt(p, n)
  {
  }

  lemma OneMoreRefusal(v: map<nat, Verdict>, n: nat, x: Verdict)
    requires n !in v
    ensures Refusals(v[n := x]) == if x.Refused? then Refusals(v) + {n} else Refusals(v)
  {
  }

  lemma OneMoreParking(v: map<nat, Verdict>, n: nat, x: Verdict)
    requires n !in v
    ensures Parkings(v[n := x]) == if x.ParkedAs? then Parkings(v) + {n} else Parkings(v)
  {
  }

  lemma SeamRefuse(s: State, n: nat, t: State)
    requires Seam(s) && n !in s.verdicts && t.p == s.p
    requires n < |s.p.taken| && !P.SettledAt(s.p, n)
    requires t.d == s.d.(store := s.d.store.(stats := s.d.store.stats.(rejected := s.d.store.stats.rejected + 1)))
    requires t.verdicts == s.verdicts[n := Refused]
    ensures Seam(t)
  {
    OneMoreRefusal(s.verdicts, n, Refused);
    OneMoreParking(s.verdicts, n, Refused);
    LinkedRefuse(s, n, t);
  }

  lemma LinkedRefuse(s: State, n: nat, t: State)
    requires Linked(s) && n !in s.verdicts && t.p == s.p && t.d.h == s.d.h
    requires n < |s.p.taken| && !P.SettledAt(s.p, n)
    requires t.verdicts == s.verdicts[n := Refused]
    ensures Linked(t)
  {
    forall id | id in t.d.h.origin ensures exists k :: Holder(t, id, k) {
      var k :| Holder(s, id, k);
      assert Holder(t, id, k);
    }
  }

  lemma SeamPark(s: State, n: nat, id: Id, t: State)
    requires Seam(s) && n !in s.verdicts && t.p == s.p
    requires n < |s.p.taken| && !P.SettledAt(s.p, n)
    requires id !in s.d.h.origin && t.d.h.origin == s.d.h.origin[id := s.p.taken[n]]
    requires t.d.store.stats.rejected == s.d.store.stats.rejected &&
               t.d.store.stats.accepted == s.d.store.stats.accepted + 1
    requires t.verdicts == s.verdicts[n := ParkedAs(id)]
    ensures Seam(t)
  {
    OneMoreRefusal(s.verdicts, n, ParkedAs(id));
    OneMoreParking(s.verdicts, n, ParkedAs(id));
    LinkedPark(s, n, id, t);
  }

  lemma LinkedPark(s: State, n: nat, id: Id, t: State)
    requires Linked(s) && n !in s.verdicts && t.p == s.p
    requires n < |s.p.taken| && !P.SettledAt(s.p, n)
    requires id !in s.d.h.origin && t.d.h.origin == s.d.h.origin[id := s.p.taken[n]]
    requires t.verdicts == s.verdicts[n := ParkedAs(id)]
    ensures Linked(t)
  {
    EachHeld(s, n, id, t);
    forall m | m in s.verdicts && s.verdicts[m].ParkedAs? ensures s.verdicts[m].id != id {
      assert Get(s.d.h.origin, s.verdicts[m].id) == Some(s.p.taken[m]);
    }
  }

  lemma EachHeld(s: State, n: nat, id: Id, t: State)
    requires Linked(s) && n !in s.verdicts && t.verdicts == s.verdicts[n := ParkedAs(id)]
    requires id !in s.d.h.origin && t.d.h.origin.Keys == s.d.h.origin.Keys + {id}
    ensures forall i :: i in t.d.h.origin ==> exists k :: Holder(t, i, k)
  {
    forall i | i in t.d.h.origin ensures exists k :: Holder(t, i, k) {
      if i == id {
        assert Holder(t, id, n);
      } else {
        var k :| Holder(s, i, k);
        assert Holder(t, i, k);
      }
    }
  }

  lemma {:induction false} RunKeepsSeam(pc: P.Config, dc: Config, r: Run)
    requires pc.hasHandler && r.Valid(pc, dc)
    ensures Seam(r.Last())
  {
    match r
    case Start(s) =>
    case Then(before, e, t) =>
      RunKeepsSeam(pc, dc, before);
      var q := PipelineHalf(pc, dc, before);
      P.RunIsPlaced(pc, q);
      var d := QueueHalf(pc, dc, before);
      D.LedgerHolds(dc, d);
      SeamStep(pc, dc, before.Last(), e, t);
  }

  // ---------------------------------------------------------------- what decides

  /** The error with which the handler last failed on the n-th message taken. */
  function Cause(r: Run, n: nat): Option<Error> {
    match r
    case Start(_) => None
    case Then(before, HandlerFails(w, err, _, _, _), _) =>
      if P.Busy(before.Last().p, w) && before.Last().p.workers[w].n == n then Some(err) else Cause(before, n)
    case Then(before, _, _) => Cause(before, n)
  }

  /** A failed message is refused if and only if the chain of its error says that retrying cannot help;
      every other one is parked. */
  lemma {:induction false} ChainDecidesVerdict(pc: P.Config, dc: Config, r: Run, n: nat)
    requires r.Valid(pc, dc) && n in r.Last().verdicts
    ensures Cause(r, n).Some? && (r.Last().verdicts[n].Refused? <==> ChainRefuses(Cause(r, n).value))
  {
    match r
    case Start(_) =>
    case Then(before, e, t) =>
      if e.HandlerFails? {
        HopelessExactly(Some(e.err));
      }
      if n in before.Last().verdicts {
        ChainDecidesVerdict(pc, dc, before, n);
      }
  }

  // ---------------------------------------------------------------- nothing disappears uncounted

  /** The messages whose handler has failed and been dealt with, but not yet been counted as failed. */
  function Undecided(s: State): set<nat> {
    s.verdicts.Keys - s.p.failedAt
  }

  /** Every failed message was refused, or parked under an id of its own; a parked one is still parked
      with the very message that was sent, or has exactly one recorded fate. */
  lemma EveryFailureHasItsFate(pc: P.Config, dc: Config, r: Run, n: nat)
    requires pc.hasHandler && dc.Ready() && r.Valid(pc, dc) && n in r.Last().p.failedAt
    ensures var s := r.Last();
            && n < |s.p.sent| && n in s.verdicts
            && (s.verdicts[n].ParkedAs? ==>
                  var id := s.verdicts[n].id;
                  && id in s.d.h.fate
                  && (s.d.h.fate[id] == D.StillParked <==> id in s.d.store.entries)
                  && (id in s.d.store.entries ==> s.d.store.entries[id].message == s.p.sent[n])
                  && (forall m :: m in s.verdicts && m != n ==> s.verdicts[m] != ParkedAs(id)))
  {
    RunKeepsSeam(pc, dc, r);
    var q := PipelineHalf(pc, dc, r);
    P.QueueInOrder(pc, q);
    var d := QueueHalf(pc, dc, r);
    D.LedgerHolds(dc, d);
    var s := r.Last();
    assert s.p.sent[..|s.p.taken|] == s.p.taken;
    if s.verdicts[n].ParkedAs? {
      D.AttemptsBounded(dc, d, s.verdicts[n].id);
    }
  }

  lemma VerdictSizes(s: State)
    requires Seam(s) && s.p.failed == |s.p.failedAt|
    ensures s.d.store.stats.accepted + s.d.store.stats.rejected == s.p.failed + |Undecided(s)|
  {
    var v := s.verdicts;
    assert Parkings(v) == v.Keys - Refusals(v);
    Split(v.Keys, Refusals(v));
    Split(v.Keys, s.p.failedAt);
  }

  /** The books of the whole path, in every reachable state of every interleaving: everything submitted
      is waiting, sent, dropped or abandoned, each failure was rejected or parked exactly once, and
      everything sent (with what was on disk) is queued, in flight, processed, rejected, parked, recovered, given up,
      expired, overflowed or discarded. */
  lemma NothingVanishes(pc: P.Config, dc: Config, r: Run)
    requires pc.hasHandler && r.Valid(pc, dc)
    ensures var s := r.Last(); var st := s.d.store.stats;
            && |s.p.submitted| == |s.p.waiting| + |s.p.sent| + s.p.dropped + s.p.undropped + |s.p.abandoned|
            && |s.p.sent| == |s.p.queue| + |P.InFlight(s.p.workers)| + s.p.processed + s.p.failed
            && st.accepted + st.rejected == s.p.failed + |Undecided(s)|
            && |s.p.sent| + |Undecided(s)| + |s.d.h.loaded| + s.d.h.misses ==
               |s.p.queue| + |P.InFlight(s.p.workers)| + s.p.processed + st.rejected
               + |s.d.store.entries| + st.recovered + |D.Owed(s.d.calls)| + st.exhausted + st.expired + st.overflow
               + |D.Of(s.d.h.fate, D.Discarded)|
    ensures Undecided(r.Last()) <= P.InFlight(r.Last().p.workers)
  {
    var s := r.Last();
    var q := PipelineHalf(pc, dc, r);
    P.CountersSuffice(pc, q);
    P.CountersCoverSubmissions(pc, q);
    P.QueueInOrder(pc, q);
    P.RunIsPlaced(pc, q);
    var d := QueueHalf(pc, dc, r);
    D.LedgerBalances(dc, d);
    RunKeepsSeam(pc, dc, r);
    VerdictSizes(s);
    UndecidedInFlight(pc, s);
  }

  lemma UndecidedInFlight(pc: P.Config, s: State)
    requires P.Placed(pc, s.p) && Seam(s)
    ensures Undecided(s) <= P.InFlight(s.p.workers)
  {
    forall n | n in Undecided(s) ensures n in P.InFlight(s.p.workers) {
      assert !P.SettledAt(s.p, n);
      var w :| P.HandlingAt(s.p, w, n);
    }
  }
}
