/** What a parked entry of the dead-letter queue remembers, and what follows from it, in every interleaving:
    when its message first failed and why it failed last, when it expires, and when a replay takes it. */
module DeadLetterEntries {
  import opened Wrappers
  import opened Retry
  import opened DeadLetter
  import opened DeadLetterRuns
  import opened DeadLetterReplays

  /** When a message first failed: when it was parked, or what was on disk. */
  function FirstFailure(r: Run, id: Id): Option<Time> {
    match r
    case Start(s) => if id in s.store.entries then Some(s.store.entries[id].firstFailed) else None
    case Then(before, Admit(i, _, _, now, _), _) => if i == id then Some(now) else FirstFailure(before, id)
    case Then(before, _, _) => FirstFailure(before, id)
  }

  /** What a message last failed with: the text of its error, or nothing when it was parked without one. */
  function LastReason(r: Run, id: Id): Option<string> {
    match r
    case Start(s) => if id in s.store.entries then Some(s.store.entries[id].reason) else None
    case Then(before, Admit(i, _, cause, _, _), _) =>
      if i == id then Some(if cause.Some? then cause.value.text else "") else LastReason(before, id)
    case Then(before, Fail(call, err, _, _), _) =>
      if FailsOn(before.Last(), call, id) then Some(err.text) else LastReason(before, id)
    case Then(before, _, _) => LastReason(before, id)
  }

  /** However often a message fails again, its entry keeps the time of the first failure; and it gives the
      reason of the last. */
  lemma {:induction false} EntryRemembers(c: Config, r: Run, id: Id)
    requires r.Valid(c) && id in r.Last().store.entries
    ensures FirstFailure(r, id) == Some(r.Last().store.entries[id].firstFailed)
    ensures LastReason(r, id) == Some(r.Last().store.entries[id].reason)
  {
    match r
    case Start(_) =>
    case Then(before, e, t) =>
      var s := before.Last();
      LedgerHolds(c, before);
      if e.Admit? {
        AdmittingShrinks(c, s, Fresh(c, e.id, e.m, e.cause, e.now, e.draw), e.now, t);
      } else if e.Fail? {
        FailingKeepsFirst(c, s, e, id);
      } else {
        OthersLeaveEntries(c, s, e, t);
      }
      if !(e.Admit? && e.id == id) {
        EntryRemembers(c, before, id);
      }
  }

  lemma FailingKeepsFirst(c: Config, s: State, e: Event, id: Id)
    requires e.Fail? && e.call in s.calls && s.calls[e.call].Handling?
    ensures var t := Failing(c, s, e.call, s.calls[e.call], e.err, e.now, e.draw);
            id in t.store.entries ==>
              && id in s.store.entries && t.store.entries[id].firstFailed == s.store.entries[id].firstFailed
              && t.store.entries[id].reason ==
                (if FailsOn(s, e.call, id) then e.err.text else s.store.entries[id].reason)
  {
  }

  // ---------------------------------------------------------------- expiry

  /** The events that look for entries past their age. */
  predicate Looks(e: Event) {
    e.Admit? || e.ExpireOnly? || e.StartReplay?
  }

  /** A parked message expires exactly when the queue looks and it first failed longer ago than the limit,
      however often it has failed since; and none that old is left. */
  lemma ExpiresExactly(c: Config, before: Run, e: Event, t: State, id: Id)
    requires Then(before, e, t).Valid(c) && id in before.Last().store.entries
    ensures FirstFailure(before, id).Some? && id in t.h.fate
    ensures t.h.fate[id] == Expired <==> Looks(e) && e.now - FirstFailure(before, id).value > c.maxAge
    ensures Looks(e) && id in t.store.entries ==> e.now - FirstFailure(before, id).value <= c.maxAge
  {
    var s := before.Last();
    LedgerHolds(c, before);
    LedgerHolds(c, Then(before, e, t));
    EntryRemembers(c, before, id);
    if e.Admit? {
      AdmittingExpires(c, s, Fresh(c, e.id, e.m, e.cause, e.now, e.draw), e.now, t, id);
    } else if Looks(e) {
      LookingExpires(c, s, e, t, id);
    } else {
      NothingElseExpires(c, s, e, t, id);
    }
  }

  lemma LookingExpires(c: Config, s: State, e: Event, t: State, id: Id)
    requires Known(s) && Known(t) && Step(c, s, e, t) && (e.ExpireOnly? || e.StartReplay?) && id in s.store.entries
    ensures id in t.h.fate && (t.h.fate[id] == Expired <==> e.now - s.store.entries[id].firstFailed > c.maxAge)
  {
    assert t.h.fate == Expiring(c, s, e.now).h.fate;
  }

  lemma AdmittingExpires(c: Config, s: State, x: Entry, now: Time, t: State, id: Id)
    requires Known(s) && Known(t) && Admitting(c, s, x, now, t) && id in s.store.entries
    ensures id in t.h.fate && (t.h.fate[id] == Expired <==> now - s.store.entries[id].firstFailed > c.maxAge)
  {
    assert id != x.id;
    assert id in Expiring(c, s, now).store.entries <==> now - s.store.entries[id].firstFailed <= c.maxAge;
  }

  lemma NothingElseExpires(c: Config, s: State, e: Event, t: State, id: Id)
    requires Known(s) && Known(t) && Step(c, s, e, t) && !Looks(e) && id in s.store.entries
    ensures id in t.h.fate && t.h.fate[id] != Expired
  {
  }

  /** After any of these events no message is parked that first failed longer ago than the limit. */
  lemma NoneTooOld(c: Config, before: Run, e: Event, t: State, id: Id)
    requires c.Ready() && Then(before, e, t).Valid(c) && Looks(e) && id in t.store.entries
    ensures var r := Then(before, e, t);
            FirstFailure(r, id).Some? && e.now - FirstFailure(r, id).value <= c.maxAge
  {
    EntryRemembers(c, Then(before, e, t), id);
    LedgerHolds(c, before);
    if e.Admit? {
      AdmittingShrinks(c, before.Last(), Fresh(c, e.id, e.m, e.cause, e.now, e.draw), e.now, t);
    } else {
      OthersLeaveEntries(c, before.Last(), e, t);
    }
    if !(e.Admit? && e.id == id) {
      ExpiresExactly(c, before, e, t, id);
    }
  }

  // ---------------------------------------------------------------- what a replay takes

  /** A replay takes, each once and in the order of their first failures, only parked messages, among them
      every one whose last setback in the run is as long ago as jitter can make its delay; one that
      ignores the backoff takes them all. */
  lemma ReplayTakesTheDue(c: Config, before: Run, call: CallId, now: Time, ignoreBackoff: bool, due: seq<Entry>,
                          t: State)
    requires Then(before, StartReplay(call, now, ignoreBackoff, due), t).Valid(c)
    ensures forall i :: 0 <= i < |due| ==> Get(t.store.entries, due[i].id) == Some(due[i])
    ensures forall i, j :: 0 <= i < j < |due| ==>
              && due[i].id != due[j].id
              && FirstFailure(before, due[i].id).Some? && FirstFailure(before, due[j].id).Some?
              && FirstFailure(before, due[i].id).value <= FirstFailure(before, due[j].id).value
    ensures forall id :: id in t.store.entries && (ignoreBackoff || Overdue(c, before, id, now)) ==>
              t.store.entries[id] in due
  {
    var r := Then(before, StartReplay(call, now, ignoreBackoff, due), t);
    forall i | 0 <= i < |due| ensures FirstFailure(before, due[i].id) == Some(due[i].firstFailed) {
      EntryRemembers(c, r, due[i].id);
    }
    forall id | id in t.store.entries && (ignoreBackoff || Overdue(c, before, id, now))
      ensures t.store.entries[id] in due
    {
      assert id in DueIds(t.store.entries, now, ignoreBackoff) by {
        OverdueIsDue(c, before, r.event, t, id);
      }
      var i :| 0 <= i < |due| && due[i].id == id;
    }
  }

  lemma OverdueIsDue(c: Config, before: Run, e: Event, t: State, id: Id)
    requires e.StartReplay? && Then(before, e, t).Valid(c) && id in t.store.entries
    ensures Overdue(c, before, id, e.now) ==> t.store.entries[id].Due(e.now)
  {
    WaitsFromSetback(c, Then(before, e, t), id);
    LedgerHolds(c, before);
    PlainShrinks(c, before.Last(), e, t);
  }

  /** The last setback of a message is as long ago as jitter can make the delay for its attempts. */
  ghost predicate Overdue(c: Config, r: Run, id: Id, now: Time) {
    var p := c.backoff.Normalise();
    && LastSetback(r, id).Some? && id in r.Last().store.entries
    && (now - LastSetback(r, id).value) as real >= Most(p, Base(p, r.Last().store.entries[id].attempts + 1))
  }
}
