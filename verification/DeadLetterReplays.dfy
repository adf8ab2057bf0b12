/** What replays of the dead-letter queue promise when only one replay is under way at a time, and
    everything else (parking, discarding, expiry) goes on beside it: how often a message is handed out,
    and how far apart. With two at a time neither holds. */
module DeadLetterReplays {
  import opened Wrappers
  import opened Retry
  import opened DeadLetter
  import opened DeadLetterRuns
  import Ingest

  /** Never more than `n` calls under way. */
  ghost predicate AtMost(r: Run, n: nat) {
    |r.Last().calls| <= n && (r.Then? ==> AtMost(r.before, n))
  }

  /** What a lone call still has to see to: messages it knows as they were parked, each once, none given
      up, and none changed since except by going. */
  ghost predicate Lone(s: State) {
    && Single(s.calls)
    && (forall k :: k in s.calls ==> Distinct(Pending(s.calls[k])))
    && (forall k, i :: k in s.calls && 0 <= i < |Pending(s.calls[k])| ==> Held(s, Pending(s.calls[k])[i]))
  }

  ghost predicate Single(calls: map<CallId, Call>) {
    forall j, k :: j in calls && k in calls ==> j == k
  }

  ghost predicate Held(s: State, e: Entry) {
    && e.id in s.h.fate && s.h.fate[e.id] != GivenUp && Tracks(s.h, e)
    && (e.id in s.store.entries ==> s.store.entries[e.id] == e)
  }

  lemma OneAtMost(calls: map<CallId, Call>)
    requires |calls| <= 1
    ensures Single(calls)
  {
    forall j, k | j in calls && k in calls ensures j == k {
      assert {j, k} <= calls.Keys;
      Split(calls.Keys, {j, k});
    }
  }

  lemma HeldShrinks(s: State, t: State, added: set<Id>, e: Entry)
    requires Known(s) && Known(t) && Shrinks(s, t, added) && Held(s, e) && e.id !in added
    ensures Held(t, e)
  {
    assert Get(t.h.origin, e.id) == Get(s.h.origin, e.id);
  }

  /** A step that begins no call leaves the messages a call still has to see to as they are. */
  lemma HeldStep(c: Config, s: State, e: Event, t: State, x: Entry)
    requires Known(s) && Known(t) && Step(c, s, e, t) && Held(s, x)
    requires e.Fail? || e.Succeed? ==> s.calls[e.call].entry.id != x.id
    ensures Held(t, x)
  {
    if Plain(e) {
      PlainShrinks(c, s, e, t);
      HeldShrinks(s, t, {}, x);
    } else if e.Admit? {
      AdmittingShrinks(c, s, Fresh(c, e.id, e.m, e.cause, e.now, e.draw), e.now, t);
      HeldShrinks(s, t, {e.id}, x);
    } else if e.Fail? {
      HeldFailing(c, s, e, x);
    }
  }

  lemma HeldFailing(c: Config, s: State, e: Event, x: Entry)
    requires Held(s, x) && e.Fail? && e.call in s.calls && s.calls[e.call].Handling? && s.calls[e.call].entry.id != x.id
    ensures Held(Failing(c, s, e.call, s.calls[e.call], e.err, e.now, e.draw), x)
  {
  }

  /** A step that does not begin a call leaves what it has to see to, or takes the first off. */
  lemma CallGoesOn(c: Config, s: State, e: Event, t: State, call: CallId)
    requires Step(c, s, e, t) && call in t.calls && !((e.StartReplay? || e.StartRetry?) && e.call == call)
    ensures call in s.calls
    ensures var p, q := Pending(s.calls[call]), Pending(t.calls[call]); q == p || (p != [] && q == p[1..])
  {
    if e.Take? && e.call == call {
      var rest := s.calls[call].rest;
      assert [rest[0]] + rest[1..] == rest;
    }
  }

  lemma LoneGoesOn(c: Config, s: State, e: Event, t: State, call: CallId)
    requires Known(s) && Known(t) && Lone(s) && Step(c, s, e, t) && call in t.calls
    requires !((e.StartReplay? || e.StartRetry?) && e.call == call)
    ensures call in s.calls && Distinct(Pending(t.calls[call]))
    ensures forall i :: 0 <= i < |Pending(t.calls[call])| ==> Held(t, Pending(t.calls[call])[i])
  {
    CallGoesOn(c, s, e, t, call);
    var p, q := Pending(s.calls[call]), Pending(t.calls[call]);
    if e.Fail? || e.Succeed? {
      SettlesFirst(c, s, e, t, call);
    }
    forall i | 0 <= i < |q| ensures Held(t, q[i]) {
      var j := if q == p then i else i + 1;
      assert q[i] == p[j] && Held(s, p[j]);
      HeldStep(c, s, e, t, q[i]);
    }
    TailDistinct(p, q);
  }

  lemma TailDistinct(p: seq<Entry>, q: seq<Entry>)
    requires Distinct(p) && (q == p || (p != [] && q == p[1..]))
    ensures Distinct(q)
  {
    if q != p {
      forall i, j | 0 <= i < j < |q| ensures q[i].id != q[j].id {
        assert q[i] == p[i + 1] && q[j] == p[j + 1];
      }
    }
  }

  /** A lone call that settles a message takes it off what it has to see to. */
  lemma SettlesFirst(c: Config, s: State, e: Event, t: State, call: CallId)
    requires Lone(s) && Step(c, s, e, t) && call in s.calls && call in t.calls && (e.Fail? || e.Succeed?)
    ensures var p, q := Pending(s.calls[call]), Pending(t.calls[call]);
            p != [] && q == p[1..] && s.calls[e.call].entry == p[0] && forall i :: 0 <= i < |q| ==> q[i].id != p[0].id
  {
    assert e.call == call;
    var p, q := Pending(s.calls[call]), Pending(t.calls[call]);
    forall i | 0 <= i < |q| ensures q[i].id != p[0].id {
      assert q[i] == p[i + 1];
    }
  }

  lemma LoneBegins(c: Config, s: State, e: Event, t: State)
    requires Known(t) && Faithful(c, t) && Known(s) && Step(c, s, e, t) && (e.StartReplay? || e.StartRetry?)
    ensures e.call in t.calls && Distinct(Pending(t.calls[e.call]))
    ensures forall i :: 0 <= i < |Pending(t.calls[e.call])| ==>
              var x := Pending(t.calls[e.call])[i]; Held(t, x) && Get(t.store.entries, x.id) == Some(x)
  {
  }

  lemma {:induction false} OneCallIsLone(c: Config, r: Run)
    requires c.Ready() && r.Valid(c) && AtMost(r, 1)
    ensures Lone(r.Last())
  {
    match r
    case Start(s) =>
    case Then(before, e, t) =>
      OneCallIsLone(c, before);
      LedgerHolds(c, before);
      LedgerHolds(c, r);
      RunIsFaithful(c, r);
      OneAtMost(t.calls);
      forall call | call in t.calls
        ensures Distinct(Pending(t.calls[call]))
        ensures forall i :: 0 <= i < |Pending(t.calls[call])| ==> Held(t, Pending(t.calls[call])[i])
      {
        if (e.StartReplay? || e.StartRetry?) && e.call == call {
          LoneBegins(c, before.Last(), e, t);
        } else {
          LoneGoesOn(c, before.Last(), e, t, call);
        }
      }
  }

  lemma {:induction false} SequentialIsOneCall(c: Config, r: Run)
    requires r.Valid(c) && Sequential(r)
    ensures AtMost(r, 1)
  {
    match r
    case Start(s) =>
    case Then(before, e, t) =>
      SequentialIsOneCall(c, before);
      OneCallStep(c, before.Last(), e, t);
  }

  lemma OneCallStep(c: Config, s: State, e: Event, t: State)
    requires Step(c, s, e, t) && |s.calls| <= 1 && (Begins(e) ==> s.calls == map[])
    ensures |t.calls| <= 1
  {
    if e.StartReplay? || e.StartRetry? {
      assert t.calls.Keys == {e.call};
    } else if !Begins(e) {
      KeysStay(c, s, e, t);
      Split(s.calls.Keys, t.calls.Keys);
    }
  }

  lemma KeysStay(c: Config, s: State, e: Event, t: State)
    requires Step(c, s, e, t) && !Begins(e)
    ensures t.calls.Keys <= s.calls.Keys
  {
  }

  // ---------------------------------------------------------------- how often

  ghost predicate InHand(s: State, id: Id) {
    exists k :: k in s.calls && s.calls[k].Handling? && s.calls[k].entry.id == id
  }

  ghost predicate Ahead(s: State, id: Id) {
    exists k, i :: k in s.calls && 0 <= i < |s.calls[k].rest| && s.calls[k].rest[i].id == id
  }

  /** How many handler calls for a message may be on no record of failure: one while it is in hand, and
      one once it is settled or gone. */
  ghost function Slack(s: State, id: Id): nat
    requires id in s.h.fate
  {
    if s.h.fate[id] == GivenUp || ((s.h.fate[id] == StillParked || Ahead(s, id)) && !InHand(s, id)) then 0 else 1
  }

  ghost predicate Tried(s: State, id: Id) {
    id in s.h.fate ==> Tally(s.h.tries, id) <= Tally(s.h.failures, id) + Slack(s, id)
  }

  lemma TriedPlain(c: Config, s: State, e: Event, t: State, id: Id)
    requires Known(s) && Known(t) && Lone(s) && Lone(t) && Tried(s, id) && Step(c, s, e, t) && Plain(e)
    ensures Tried(t, id)
  {
    PlainShrinks(c, s, e, t);
    if id in t.h.fate {
      SlackPlain(c, s, e, t, id);
    }
  }

  lemma SlackPlain(c: Config, s: State, e: Event, t: State, id: Id)
    requires Single(s.calls) && Known(t) && Lone(t) && Step(c, s, e, t) && Plain(e)
    requires id in s.h.fate && id in t.h.fate && Neglected(s.h.fate[id], t.h.fate[id])
    ensures Slack(t, id) >= Slack(s, id)
  {
    if e.StartReplay? {
      DueAreParked(c, s, e, t, id);
    } else if e.Stop? || e.CreditOne? {
      NoHand(s, e.call, id);
      NoHand(t, e.call, id);
      SameAhead(s, t, e.call, id);
    } else {
      SameCalls(s, t, id);
    }
  }

  /** With nothing else under way, what a new replay has before it is parked. */
  lemma DueAreParked(c: Config, s: State, e: Event, t: State, id: Id)
    requires Known(t) && Lone(t) && Step(c, s, e, t) && e.StartReplay? && id in t.h.fate
    ensures !InHand(s, id) && !InHand(t, id)
    ensures Ahead(t, id) ==> t.h.fate[id] == StillParked
  {
    NoneElse(s, t, e.call);
  }

  lemma NoHand(s: State, call: CallId, id: Id)
    requires Single(s.calls) && (call in s.calls ==> !s.calls[call].Handling?) && (s.calls != map[] ==> call in s.calls)
    ensures !InHand(s, id)
  {
  }

  lemma SameAhead(s: State, t: State, call: CallId, id: Id)
    requires call in s.calls && (call in t.calls ==> t.calls[call].rest == s.calls[call].rest)
    requires forall k :: k in t.calls && k != call ==> k in s.calls && t.calls[k] == s.calls[k]
    ensures Ahead(t, id) ==> Ahead(s, id)
  {
    if Ahead(t, id) {
      var k, i :| k in t.calls && 0 <= i < |t.calls[k].rest| && t.calls[k].rest[i].id == id;
      assert k in s.calls && s.calls[k].rest[i].id == id;
    }
  }

  lemma TriedAdmit(c: Config, s: State, e: Event, t: State, id: Id)
    requires Known(s) && Known(t) && Tried(s, id) && Step(c, s, e, t) && e.Admit?
    ensures Tried(t, id)
  {
    AdmittingShrinks(c, s, Fresh(c, e.id, e.m, e.cause, e.now, e.draw), e.now, t);
    SameCalls(s, t, id);
  }

  lemma SameCalls(s: State, t: State, id: Id)
    requires t.calls == s.calls
    ensures InHand(t, id) == InHand(s, id) && Ahead(t, id) == Ahead(s, id)
  {
  }

  /** The handler is called on a message that was parked, or ahead, and in no other hands. */
  lemma TriedTrying(s: State, call: CallId, x: Entry, rest: seq<Entry>, id: Id)
    requires Lone(s) && Tried(s, id) && x.id in s.h.fate && s.h.fate[x.id] != GivenUp
    requires (forall k :: k in s.calls ==> k == call && !s.calls[k].Handling?)
    requires if call in s.calls then s.calls[call].rest == [x] + rest else rest == [] && s.h.fate[x.id] == StillParked
    ensures Tried(Trying(s, call, x, rest), id)
  {
    var t := Trying(s, call, x, rest);
    assert t.calls.Keys == {call} && t.calls[call] == Handling(x, rest);
    if id in s.h.fate {
      assert !InHand(s, id);
      if id == x.id {
        assert InHand(t, id);
        if call in s.calls {
          assert s.calls[call].rest[0].id == id;
        }
      } else if Ahead(t, id) {
        var k, i :| k in t.calls && 0 <= i < |t.calls[k].rest| && t.calls[k].rest[i].id == id;
        assert call in s.calls && s.calls[call].rest[i + 1].id == id;
      }
    }
  }

  /** The message settled had not been given up; it is now recovered, was gone before, or has one more
      failure on record. */
  ghost predicate SettledRight(s: State, t: State, id: Id) {
    && id in s.h.fate && id in t.h.fate && s.h.fate[id] != GivenUp
    && if s.h.fate[id] != StillParked || t.h.fate[id] == Recovered then
         && t.h.fate[id] != GivenUp && t.h.fate[id] != StillParked
         && Tally(t.h.failures, id) == Tally(s.h.failures, id)
       else
         Tally(t.h.failures, id) == Tally(s.h.failures, id) + 1
  }

  lemma TriedSettled(s: State, t: State, call: CallId, id: Id)
    requires Lone(s) && Tried(s, id) && call in s.calls && s.calls[call].Handling?
    requires call in t.calls && t.calls == s.calls[call := t.calls[call]]
    requires t.calls[call].rest == s.calls[call].rest && !t.calls[call].Handling?
    requires t.h.tries == s.h.tries && t.h.fate.Keys == s.h.fate.Keys
    requires id != s.calls[call].entry.id && id in s.h.fate ==>
               t.h.fate[id] == s.h.fate[id] && Tally(t.h.failures, id) == Tally(s.h.failures, id)
    requires SettledRight(s, t, s.calls[call].entry.id)
    ensures Tried(t, id)
  {
    var x := s.calls[call].entry.id;
    NoHand(t, call, id);
    SameAhead(s, t, call, id);
    if id == x {
      NotAheadInHand(s, call);
    } else if id in s.h.fate {
      assert !InHand(s, id);
    }
  }

  /** A message in hand is not ahead as well. */
  lemma NotAheadInHand(s: State, call: CallId)
    requires Lone(s) && call in s.calls && s.calls[call].Handling?
    ensures !Ahead(s, s.calls[call].entry.id)
  {
    var p := Pending(s.calls[call]);
    forall k, i | k in s.calls && 0 <= i < |s.calls[k].rest| ensures s.calls[k].rest[i].id != s.calls[call].entry.id {
      assert k == call && s.calls[k].rest[i] == p[i + 1] && p[0] == s.calls[call].entry;
    }
  }

  lemma TriedStep(c: Config, s: State, e: Event, t: State, id: Id)
    requires Known(s) && Known(t) && Lone(s) && Lone(t) && Tried(s, id) && Step(c, s, e, t)
    ensures Tried(t, id)
  {
    if Plain(e) {
      TriedPlain(c, s, e, t, id);
    } else if e.Admit? {
      TriedAdmit(c, s, e, t, id);
    } else if e.StartRetry? {
      NoneElse(s, t, e.call);
      TriedTrying(s, e.call, s.store.entries[e.id], [], id);
    } else if e.Take? {
      TriedTake(s, e.call, id);
    } else {
      HandHeld(s, e.call);
      TriedSettled(s, t, e.call, id);
    }
  }

  lemma NoneElse(s: State, t: State, call: CallId)
    requires Single(t.calls) && call in t.calls && call !in s.calls && s.calls.Keys <= t.calls.Keys
    ensures s.calls == map[]
  {
    assert t.calls.Keys == {call};
    assert s.calls.Keys == {};
  }

  lemma HandHeld(s: State, call: CallId)
    requires Lone(s) && call in s.calls && s.calls[call].Handling?
    ensures Held(s, s.calls[call].entry)
  {
    assert Pending(s.calls[call])[0] == s.calls[call].entry;
  }

  lemma TriedTake(s: State, call: CallId, id: Id)
    requires Lone(s) && Tried(s, id) && call in s.calls && s.calls[call].Between? && s.calls[call].rest != []
    ensures Tried(Trying(s, call, s.calls[call].rest[0], s.calls[call].rest[1..]), id)
  {
    var rest := s.calls[call].rest;
    assert Pending(s.calls[call])[0] == rest[0];
    assert rest == [rest[0]] + rest[1..];
    TriedTrying(s, call, rest[0], rest[1..], id);
  }

  lemma {:induction false} RunIsTried(c: Config, r: Run, id: Id)
    requires c.Ready() && r.Valid(c) && AtMost(r, 1)
    ensures Tried(r.Last(), id)
  {
    match r
    case Start(s) =>
    case Then(before, e, t) =>
      RunIsTried(c, before, id);
      LedgerHolds(c, before);
      LedgerHolds(c, r);
      OneCallIsLone(c, before);
      OneCallIsLone(c, r);
      TriedStep(c, before.Last(), e, t, id);
  }

  /** With one replay at a time, no message is ever handed out by replays so often that, with the attempts
      it was loaded with, it exceeds the limit. */
  lemma ReplaysBounded(c: Config, r: Run, id: Id)
    requires c.Ready() && r.Valid(c) && AtMost(r, 1) && id in r.Last().h.fate
    ensures var h := r.Last().h; Carried(h, id) + Tally(h.tries, id) <= Limit(c, Carried(h, id))
  {
    RunIsTried(c, r, id);
    RunIsFaithful(c, r);
  }

  // ---------------------------------------------------------------- spacing

  /** Whether a failure recorded now, by this call, is one of this message. */
  predicate FailsOn(s: State, call: CallId, id: Id) {
    call in s.calls && s.calls[call].Handling? && s.calls[call].entry.id == id && id in s.store.entries
  }

  /** The clock when a message was last set back in a run: parked, or recorded as failed again. */
  function LastSetback(r: Run, id: Id): Option<Time> {
    match r
    case Start(_) => None
    case Then(before, Admit(i, _, _, now, _), _) => if i == id then Some(now) else LastSetback(before, id)
    case Then(before, Fail(call, _, now, _), _) =>
      if FailsOn(before.Last(), call, id) then Some(now) else LastSetback(before, id)
    case Then(before, _, _) => LastSetback(before, id)
  }

  /** The event that began a call, most recently if its number was used before. */
  function Beginning(r: Run, call: CallId): Option<Event> {
    match r
    case Start(_) => None
    case Then(before, e, _) =>
      if (e.StartReplay? || e.StartRetry?) && e.call == call then Some(e) else Beginning(before, call)
  }

  /** An entry waits from a setback as long as the policy asks for, give or take the jitter. */
  ghost predicate Waits(c: Config, e: Entry, since: Time) {
    var p := c.backoff.Normalise();
    && e.lastFailed == since
    && Least(p, Base(p, e.attempts + 1)) - 1.0 < (e.nextAttempt - since) as real <= Most(p, Base(p, e.attempts + 1))
  }

  lemma FreshWaits(c: Config, id: Id, m: Message, cause: Option<Error>, now: Time, draw: Draw)
    ensures Waits(c, Fresh(c, id, m, cause, now, draw), now)
  {
    DelayNormalised(c.backoff, 1, draw);
    DelayBounds(c.backoff.Normalise(), 1, draw);
  }

  lemma FailedWaits(c: Config, e: Entry, cause: Error, now: Time, draw: Draw)
    ensures Waits(c, Failed(c, e, cause, now, draw), now)
  {
    DelayNormalised(c.backoff, e.attempts + 2, draw);
    DelayBounds(c.backoff.Normalise(), e.attempts + 2, draw);
  }

  lemma DelayNormalised(p: Policy, attempt: int, draw: Draw)
    ensures Delay(p, attempt, draw) == Delay(p.Normalise(), attempt, draw)
  {
  }

  /** In every interleaving a parked entry waits from its last setback in the run; every accepted one
      has had a setback, one loaded from disk may still have its first to come. */
  lemma {:induction false} WaitsFromSetback(c: Config, r: Run, id: Id)
    requires r.Valid(c) && id in r.Last().store.entries
    ensures id in r.Last().h.origin ==> LastSetback(r, id).Some?
    ensures LastSetback(r, id).Some? ==> Waits(c, r.Last().store.entries[id], LastSetback(r, id).value)
  {
    match r
    case Start(_) =>
    case Then(before, e, t) =>
      var s := before.Last();
      LedgerHolds(c, before);
      if e.Admit? {
        AdmittingShrinks(c, s, Fresh(c, e.id, e.m, e.cause, e.now, e.draw), e.now, t);
        FreshWaits(c, e.id, e.m, e.cause, e.now, e.draw);
      } else if e.Fail? {
        FailingSetsBack(c, s, e, id);
      } else {
        OthersLeaveEntries(c, s, e, t);
      }
      if !(e.Admit? && e.id == id) {
        WaitsFromSetback(c, before, id);
      }
  }

  lemma FailingSetsBack(c: Config, s: State, e: Event, id: Id)
    requires e.Fail? && e.call in s.calls && s.calls[e.call].Handling?
    ensures var t := Failing(c, s, e.call, s.calls[e.call], e.err, e.now, e.draw);
            && t.h.origin == s.h.origin
            && (id in t.store.entries ==> id in s.store.entries)
            && (id in t.store.entries && FailsOn(s, e.call, id) ==> Waits(c, t.store.entries[id], e.now))
            && (id in t.store.entries && !FailsOn(s, e.call, id) ==> t.store.entries[id] == s.store.entries[id])
  {
    if id in s.store.entries {
      FailedWaits(c, s.store.entries[id], e.err, e.now, e.draw);
    }
  }

  lemma OthersLeaveEntries(c: Config, s: State, e: Event, t: State)
    requires Known(s) && Step(c, s, e, t) && !e.Admit? && !e.Fail?
    ensures t.h.origin == s.h.origin
    ensures forall id :: id in t.store.entries ==> id in s.store.entries && t.store.entries[id] == s.store.entries[id]
  {
    if Plain(e) {
      PlainShrinks(c, s, e, t);
    }
  }

  /** Whatever a call begun by RetryDue still has to see to was due when it began. */
  lemma {:induction false} PendingWasDue(c: Config, r: Run, call: CallId, now: Time, due: seq<Entry>)
    requires r.Valid(c) && call in r.Last().calls
    requires Beginning(r, call) == Some(StartReplay(call, now, false, due))
    ensures forall i :: 0 <= i < |Pending(r.Last().calls[call])| ==> Pending(r.Last().calls[call])[i].Due(now)
  {
    var Then(before, e, t) := r;
    if e == StartReplay(call, now, false, due) {
      SnapshotIsDue(Expiring(c, before.Last(), now).store.entries, now, due);
    } else {
      CallGoesOn(c, before.Last(), e, t, call);
      PendingWasDue(c, before, call, now, due);
    }
  }

  lemma SnapshotIsDue(es: map<Id, Entry>, now: Time, due: seq<Entry>)
    requires Snapshot(es, now, false, due)
    ensures forall i :: 0 <= i < |due| ==> due[i].Due(now)
  {
    forall i | 0 <= i < |due| ensures due[i].Due(now) {
      assert due[i].id in DueIds(es, now, false);
    }
  }

  /** Whatever a lone call still has to see to waits from its last setback in the run. */
  lemma {:induction false} PendingWaits(c: Config, r: Run, call: CallId, i: nat)
    requires c.Ready() && r.Valid(c) && AtMost(r, 1)
    requires call in r.Last().calls && i < |Pending(r.Last().calls[call])|
    ensures var e := Pending(r.Last().calls[call])[i];
            && (e.id in r.Last().h.origin ==> LastSetback(r, e.id).Some?)
            && (LastSetback(r, e.id).Some? ==> Waits(c, e, LastSetback(r, e.id).value))
  {
    var Then(before, e, t) := r;
    var s := before.Last();
    LedgerHolds(c, before);
    LedgerHolds(c, r);
    var x := Pending(t.calls[call])[i];
    if (e.StartReplay? || e.StartRetry?) && e.call == call {
      RunIsFaithful(c, r);
      LoneBegins(c, s, e, t);
      WaitsFromSetback(c, r, x.id);
    } else {
      OneCallIsLone(c, before);
      CallGoesOn(c, s, e, t, call);
      var p, q := Pending(s.calls[call]), Pending(t.calls[call]);
      if e.Fail? || e.Succeed? {
        SettlesFirst(c, s, e, t, call);
      }
      var j := if q == p then i else i + 1;
      assert p[j] == x && Held(s, p[j]);
      PendingWaits(c, before, call, j);
      SameSetback(c, before, e, t, x);
    }
  }

  /** Nothing that happens beside a call sets back a message it still has to see to. */
  lemma SameSetback(c: Config, before: Run, e: Event, t: State, x: Entry)
    requires Then(before, e, t).Valid(c) && Known(before.Last()) && Held(before.Last(), x)
    requires e.Fail? ==> before.Last().calls[e.call].entry.id != x.id
    ensures LastSetback(Then(before, e, t), x.id) == LastSetback(before, x.id)
    ensures x.id in t.h.origin <==> x.id in before.Last().h.origin
  {
    var s := before.Last();
    if Plain(e) {
      PlainShrinks(c, s, e, t);
      assert Get(t.h.origin, x.id) == Get(s.h.origin, x.id);
    }
  }

  /** Between the last setback of a message in this run and a replay that has it in hand lies at least
      the base delay for its attempts, less the jitter and the truncation. */
  ghost predicate Apart(c: Config, r: Run, e: Entry, now: Time) {
    var p := c.backoff.Normalise();
    LastSetback(r, e.id).Some? ==>
      (now - LastSetback(r, e.id).value) as real > Least(p, Base(p, e.attempts + 1)) - 1.0
  }

  /** A call that RetryDue began has a message in hand. */
  ghost predicate Replaying(r: Run, call: CallId, now: Time, due: seq<Entry>) {
    && call in r.Last().calls && r.Last().calls[call].Handling?
    && Beginning(r, call) == Some(StartReplay(call, now, false, due))
  }

  /** With one replay at a time, whenever RetryDue has a message in hand that was parked or recorded as
      failed in this run, its replay began that long after the last such setback. An accepted message
      has had one, and with k failures so far waits the (k+1)-th base delay, which is the capped
      exponential when the first delay is within the maximum. */
  lemma ReplaysAreSpaced(c: Config, r: Run, call: CallId, now: Time, due: seq<Entry>)
    requires c.Ready() && r.Valid(c) && AtMost(r, 1)
    requires Replaying(r, call, now, due)
    ensures var e := r.Last().calls[call].entry; var p := c.backoff.Normalise();
            var accepted := e.id in r.Last().h.origin; var k := Tally(r.Last().h.failures, e.id);
            && Apart(c, r, e, now)
            && (accepted ==> LastSetback(r, e.id).Some? && e.attempts == k)
            && (accepted && p.initial <= p.max ==>
                  Base(p, k + 1) == if Grown(p, k) >= p.max as real then p.max as real else Grown(p, k))
  {
    var s := r.Last();
    var e := s.calls[call].entry;
    assert Pending(s.calls[call])[0] == e;
    PendingWasDue(c, r, call, now, due);
    PendingWaits(c, r, call, 0);
    if e.id in s.h.origin {
      OneCallIsLone(c, r);
      LedgerHolds(c, r);
      HandHeld(s, call);
      var p := c.backoff.Normalise();
      if p.initial <= p.max {
        BaseMonotoneWhenCapped(p, 1, Tally(s.h.failures, e.id) + 1);
      }
    }
  }

  // ---------------------------------------------------------------- two at a time

  /** Two replays at once hand the same message out again in the very moment of its last failure. */
  lemma OverlapReplaysAtOnce(c: Config, e: Entry, err: Error, now: Time, draw: Draw) returns (r: Run)
    requires e.id != "" && e.Due(now) && now - e.firstFailed <= c.maxAge
    ensures r.Valid(c) && AtMost(r, 2) && r.Last().calls == map[1 := Between([]), 2 := Handling(e, [])]
    ensures Beginning(r, 2) == Some(StartReplay(2, now, false, [e])) && LastSetback(r, e.id) == Some(now)
    ensures r.Last().h.loaded == map[e.id := e] && e.id in r.Last().h.fate && Tally(r.Last().h.tries, e.id) == 2
  {
    r := LoadOne(c, e);
    r := BeginBoth(c, r, e, now);
    assert [e][1..] == [];
    var s := Trying(r.Last(), 1, e, []);
    r := Extend(c, r, Take(1), s);
    assert Beginning(r, 2) == Some(StartReplay(2, now, false, [e])) && AtMost(r, 2);
    r := FailAgain(c, r, e, err, now, draw);
  }

  lemma FailAgain(c: Config, r: Run, e: Entry, err: Error, now: Time, draw: Draw) returns (r': Run)
    requires r.Valid(c) && AtMost(r, 2) && e.id in r.Last().h.fate
    requires r.Last().calls == map[1 := Handling(e, []), 2 := Between([e])] && e.id in r.Last().store.entries
    ensures r'.Valid(c) && AtMost(r', 2) && r'.Last().calls == map[1 := Between([]), 2 := Handling(e, [])]
    ensures Beginning(r', 2) == Beginning(r, 2) && LastSetback(r', e.id) == Some(now)
    ensures r'.Last().h.loaded == r.Last().h.loaded && e.id in r'.Last().h.fate
    ensures Tally(r'.Last().h.tries, e.id) == Tally(r.Last().h.tries, e.id) + 1
  {
    r' := FailFirst(c, r, e, err, now, draw);
    assert [e][1..] == [];
    r' := Extend(c, r', Take(2), Trying(r'.Last(), 2, e, []));
  }

  lemma FailFirst(c: Config, r: Run, e: Entry, err: Error, now: Time, draw: Draw) returns (r': Run)
    requires r.Valid(c) && AtMost(r, 2) && e.id in r.Last().h.fate
    requires r.Last().calls == map[1 := Handling(e, []), 2 := Between([e])] && e.id in r.Last().store.entries
    ensures r'.Valid(c) && AtMost(r', 2) && r'.Last().calls == map[1 := Between([]), 2 := Between([e])]
    ensures Beginning(r', 2) == Beginning(r, 2) && LastSetback(r', e.id) == Some(now)
    ensures r'.Last().h.loaded == r.Last().h.loaded && e.id in r'.Last().h.fate
    ensures r'.Last().h.tries == r.Last().h.tries
  {
    assert FailsOn(r.Last(), 1, e.id);
    FailedFirst(c, r.Last(), e, err, now, draw);
    r' := Extend(c, r, Fail(1, err, now, draw), Failing(c, r.Last(), 1, Handling(e, []), err, now, draw));
  }

  lemma FailedFirst(c: Config, s: State, e: Entry, err: Error, now: Time, draw: Draw)
    requires s.calls == map[1 := Handling(e, []), 2 := Between([e])]
    ensures var t := Failing(c, s, 1, Handling(e, []), err, now, draw);
            && t.calls == map[1 := Between([]), 2 := Between([e])] && |t.calls| == 2
            && t.h.loaded == s.h.loaded && t.h.fate.Keys == s.h.fate.Keys && t.h.tries == s.h.tries
  {
    FirstSettles(s.calls, e);
  }

  lemma FirstSettles(calls: map<CallId, Call>, e: Entry)
    requires calls == map[1 := Handling(e, []), 2 := Between([e])]
    ensures calls[1 := Between([])] == map[1 := Between([]), 2 := Between([e])] && |calls[1 := Between([])]| == 2
  {
    assert calls[1 := Between([])].Keys == {1, 2};
  }

  lemma BeginBoth(c: Config, r: Run, e: Entry, now: Time) returns (r': Run)
    requires r.Valid(c) && AtMost(r, 2) && r.Last().calls == map[] && r.Last().store.entries == map[e.id := e]
    requires e.Due(now) && now - e.firstFailed <= c.maxAge && e.id in r.Last().h.fate
    ensures r'.Valid(c) && AtMost(r', 2) && r'.Last().store.entries == map[e.id := e]
    ensures r'.Last().calls == map[1 := Between([e]), 2 := Between([e])]
    ensures Beginning(r', 2) == Some(StartReplay(2, now, false, [e]))
    ensures r'.Last().h.loaded == r.Last().h.loaded && e.id in r'.Last().h.fate && r'.Last().h.tries == r.Last().h.tries
  {
    var s := Expiring(c, r.Last(), now);
    OnlyOneDue(e, now);
    assert s.store.entries == map[e.id := e];
    s := s.(calls := map[1 := Between([e])]);
    r' := Extend(c, r, StartReplay(1, now, false, [e]), s);
    assert AtMost(r', 2);
    var t := Expiring(c, s, now);
    assert t.store.entries == map[e.id := e];
    t := t.(calls := s.calls[2 := Between([e])]);
    r' := Extend(c, r', StartReplay(2, now, false, [e]), t);
  }

  lemma OnlyOneDue(e: Entry, now: Time)
    requires e.Due(now)
    ensures Snapshot(map[e.id := e], now, false, [e])
  {
    var due := [e];
    var ids := set i | 0 <= i < |due| :: due[i].id;
    assert due[0].id in ids;
    assert ids == {e.id};
  }

  // ---------------------------------------------------------------- exactly when

  /** Every run with at most `n` calls at once spaces what RetryDue hands out. */
  ghost predicate AlwaysSpaced(c: Config, n: nat) {
    forall r: Run, call, now, due ::
      r.Valid(c) && AtMost(r, n) && Replaying(r, call, now, due) ==> Apart(c, r, r.Last().calls[call].entry, now)
  }

  /** Replays are certain to be spaced if and only if no two calls are ever under way at once, given a
      first delay whose jitter leaves at least a nanosecond. */
  lemma SpacedForCertainExactly(c: Config, n: nat)
    requires c.Ready() && Least(c.backoff.Normalise(), Base(c.backoff.Normalise(), 1)) >= 1.0
    ensures AlwaysSpaced(c, n) <==> n <= 1
  {
    if n <= 1 {
      forall r: Run, call, now, due | r.Valid(c) && AtMost(r, n) && Replaying(r, call, now, due)
        ensures Apart(c, r, r.Last().calls[call].entry, now)
      {
        AtMostMore(r, n, 1);
        ReplaysAreSpaced(c, r, call, now, due);
      }
    } else {
      var e := Sample(0);
      var r := OverlapReplaysAtOnce(c, e, Error("", Silent, []), 0, 0.0);
      AtMostMore(r, 2, n);
      assert Replaying(r, 2, 0, [e]) && !Apart(c, r, r.Last().calls[2].entry, 0);
    }
  }

  /** Every run with at most `n` calls at once bounds the replays of every message. */
  ghost predicate AlwaysBounded(c: Config, n: nat) {
    forall r: Run, id :: r.Valid(c) && AtMost(r, n) && id in r.Last().h.fate ==>
      Carried(r.Last().h, id) + Tally(r.Last().h.tries, id) <= Limit(c, Carried(r.Last().h, id))
  }

  /** Replays are certain to be bounded if and only if no two calls are ever under way at once. */
  lemma BoundedForCertainExactly(c: Config, n: nat)
    requires c.Ready()
    ensures AlwaysBounded(c, n) <==> n <= 1
  {
    if n <= 1 {
      forall r: Run, id | r.Valid(c) && AtMost(r, n) && id in r.Last().h.fate
        ensures Carried(r.Last().h, id) + Tally(r.Last().h.tries, id) <= Limit(c, Carried(r.Last().h, id))
      {
        AtMostMore(r, n, 1);
        ReplaysBounded(c, r, id);
      }
    } else {
      var e := Sample(c.maxAttempts - 1);
      var r := OverlapReplaysAtOnce(c, e, Error("", Silent, []), 0, 0.0);
      AtMostMore(r, 2, n);
      assert Carried(r.Last().h, e.id) == c.maxAttempts - 1;
    }
  }

  function Sample(attempts: int): Entry {
    Entry("a", Ingest.Message("", "", "", 0), "", attempts, 0, 0, 0)
  }

  lemma {:induction false} AtMostMore(r: Run, m: nat, n: nat)
    requires AtMost(r, m) && m <= n
    ensures AtMost(r, n)
  {
    match r
    case Start(_) =>
    case Then(before, _, _) => AtMostMore(before, m, n);
  }
}
