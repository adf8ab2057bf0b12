/** The dead-letter queue under concurrency. Handlers run outside the lock, so every step below is one
    critical section (or one decision between two of them), and calls overlap as they please.
    The history on the side says what became of every message; the invariants tie it to the counters. */
module DeadLetterRuns {
  import opened Wrappers
  import opened Retry
  import opened DeadLetter

  type CallId = nat

  /** Where a call to `RetryDue`, `RetryAll` or `Retry` stands: between two entries of its snapshot,
      running the handler on one, or having removed a recovered entry without having counted it. */
  datatype Call =
    | Between(rest: seq<Entry>)
    | Handling(entry: Entry, rest: seq<Entry>)
    | Crediting(rest: seq<Entry>)

  datatype Fate = StillParked | Recovered | GivenUp | Expired | Overflowed | Discarded

  datatype History = History(
    loaded: map<Id, Entry>,     // what New found on disk
    origin: map<Id, Message>,   // what Park accepted
    fate: map<Id, Fate>,        // what became of either
    failures: map<Id, nat>,     // failed replays recorded for each
    tries: map<Id, nat>,        // handler calls made for each by replays
    misses: nat)                // removals that found their entry already gone

  datatype State = State(store: Store, calls: map<CallId, Call>, h: History)

  datatype Event =
    | Reject
    | Admit(id: Id, m: Message, cause: Option<Error>, now: Time, draw: Draw)
    | Discard(id: Id)
    | ExpireOnly(now: Time)
    | StartReplay(call: CallId, now: Time, ignoreBackoff: bool, due: seq<Entry>)
    | StartRetry(call: CallId, id: Id)
    | Take(call: CallId)
    | Stop(call: CallId)
    | Fail(call: CallId, err: Error, now: Time, draw: Draw)
    | Succeed(call: CallId)
    | CreditOne(call: CallId)

  ghost predicate Init(s: State) {
    && Keyed(s.store.entries) && s.store.stats == NO_STATS && s.calls == map[]
    && s.h == History(s.store.entries, map[],
                      map id | id in s.store.entries :: StillParked,
                      map id | id in s.store.entries :: 0,
                      map id | id in s.store.entries :: 0, 0)
  }

  /** `fate` after the ids in `gone` met `f`. */
  function Meet(fate: map<Id, Fate>, gone: set<Id>, f: Fate): map<Id, Fate> {
    map id | id in fate :: if id in gone then f else fate[id]
  }

  function Expiring(c: Config, s: State, now: Time): State {
    var store := Expire(c, s.store, now);
    s.(store := store, h := s.h.(fate := Meet(s.h.fate, s.store.entries.Keys - store.entries.Keys, Expired)))
  }

  ghost predicate Admitting(c: Config, s: State, e: Entry, now: Time, t: State) {
    var x := Expiring(c, s, now);
    && e.id != "" && e.id !in s.h.fate
    && Admits(c, s.store, now, e, t.store)
    && t.calls == s.calls
    && t.h == x.h.(
         origin := s.h.origin[e.id := e.message],
         fate := Meet(x.h.fate, x.store.entries.Keys - t.store.entries.Keys, Overflowed)[e.id := StillParked],
         failures := s.h.failures[e.id := 0],
         tries := s.h.tries[e.id := 0])
  }

  function Failing(c: Config, s: State, call: CallId, k: Call, cause: Error, now: Time, draw: Draw): State
    requires k.Handling?
  {
    var id := k.entry.id;
    var store := RecordFailure(c, s.store, id, cause, now, draw);
    State(store, s.calls[call := Between(k.rest)],
          if id !in s.store.entries then s.h
          else s.h.(failures := s.h.failures[id := Tally(s.h.failures, id) + 1],
                    fate := if id in store.entries then s.h.fate else Meet(s.h.fate, {id}, GivenUp)))
  }

  function Tally(tallies: map<Id, nat>, id: Id): nat {
    if id in tallies then tallies[id] else 0
  }

  /** The handler is called on one more entry. */
  function Trying(s: State, call: CallId, e: Entry, rest: seq<Entry>): State {
    s.(calls := s.calls[call := Handling(e, rest)], h := s.h.(tries := s.h.tries[e.id := Tally(s.h.tries, e.id) + 1]))
  }

  function Succeeding(s: State, call: CallId, k: Call): State
    requires k.Handling?
  {
    var id := k.entry.id;
    State(Remove(s.store, id), s.calls[call := Crediting(k.rest)],
          if id in s.store.entries then s.h.(fate := Meet(s.h.fate, {id}, Recovered))
          else s.h.(misses := s.h.misses + 1))
  }

  ghost predicate Step(c: Config, s: State, e: Event, t: State) {
    match e
    case Reject =>
      t == s.(store := s.store.(stats := s.store.stats.(rejected := s.store.stats.rejected + 1)))
    case Admit(id, m, cause, now, draw) =>
      !Hopeless(cause) && Admitting(c, s, Fresh(c, id, m, cause, now, draw), now, t)
    case Discard(id) =>
      t == s.(store := Remove(s.store, id),
              h := if id in s.store.entries then s.h.(fate := Meet(s.h.fate, {id}, Discarded)) else s.h)
    case ExpireOnly(now) =>
      t == Expiring(c, s, now)
    case StartReplay(call, now, ignoreBackoff, due) =>
      var x := Expiring(c, s, now);
      && call !in s.calls && Snapshot(x.store.entries, now, ignoreBackoff, due)
      && t == x.(calls := s.calls[call := Between(due)])
    case StartRetry(call, id) =>
      && call !in s.calls && id in s.store.entries
      && t == Trying(s, call, s.store.entries[id], [])
    case Take(call) =>
      && call in s.calls && s.calls[call].Between? && s.calls[call].rest != []
      && t == Trying(s, call, s.calls[call].rest[0], s.calls[call].rest[1..])
    case Stop(call) =>
      && call in s.calls && s.calls[call].Between?
      && t == s.(calls := s.calls - {call})
    case Fail(call, cause, now, draw) =>
      && call in s.calls && s.calls[call].Handling?
      && t == Failing(c, s, call, s.calls[call], cause, now, draw)
    case Succeed(call) =>
      && call in s.calls && s.calls[call].Handling?
      && t == Succeeding(s, call, s.calls[call])
    case CreditOne(call) =>
      && call in s.calls && s.calls[call].Crediting?
      && t == s.(store := Credit(s.store), calls := s.calls[call := Between(s.calls[call].rest)])
  }

  /** A run: states from a freshly built queue on, each one step from the last. */
  datatype Run = Start(first: State) | Then(before: Run, event: Event, now: State) {
    function Last(): State {
      match this
      case Start(s) => s
      case Then(_, _, s) => s
    }

    ghost predicate Valid(c: Config) {
      match this
      case Start(s) => Init(s)
      case Then(r, e, t) => r.Valid(c) && Step(c, r.Last(), e, t)
    }
  }

  // ---------------------------------------------------------------- counting fates

  function Of(fate: map<Id, Fate>, f: Fate): set<Id> {
    set id | id in fate && fate[id] == f
  }

  /** The ids that met one of two fates. */
  function OfTwo(fate: map<Id, Fate>, f: Fate, g: Fate): set<Id> {
    set id | id in fate && (fate[id] == f || fate[id] == g)
  }

  lemma Pair(fate: map<Id, Fate>, f: Fate, g: Fate)
    requires f != g
    ensures |OfTwo(fate, f, g)| == |Of(fate, f)| + |Of(fate, g)|
  {
    assert OfTwo(fate, f, g) - Of(fate, f) == Of(fate, g);
    Split(OfTwo(fate, f, g), Of(fate, f));
  }

  lemma ThreePairs(fate: map<Id, Fate>)
    ensures |fate.Keys| == |OfTwo(fate, StillParked, Recovered)| + |OfTwo(fate, GivenUp, Expired)| +
              |OfTwo(fate, Overflowed, Discarded)|
  {
    var a, b := OfTwo(fate, StillParked, Recovered), OfTwo(fate, GivenUp, Expired);
    var d := OfTwo(fate, Overflowed, Discarded);
    forall id | id in fate.Keys - a - b ensures id in d {
      match fate[id]
      case Overflowed =>
      case Discarded =>
    }
    assert fate.Keys - a - b == d;
    Split(fate.Keys, a);
    Split(fate.Keys - a, b);
  }

  lemma Partition(fate: map<Id, Fate>)
    ensures |fate.Keys| == |Of(fate, StillParked)| + |Of(fate, Recovered)| + |Of(fate, GivenUp)|
                         + |Of(fate, Expired)| + |Of(fate, Overflowed)| + |Of(fate, Discarded)|
  {
    ThreePairs(fate);
    Pair(fate, StillParked, Recovered);
    Pair(fate, GivenUp, Expired);
    Pair(fate, Overflowed, Discarded);
  }

  /** What losing `gone` to the fate `f` does to the number of ids that met `g`. */
  lemma Meeting(fate: map<Id, Fate>, gone: set<Id>, f: Fate, g: Fate)
    requires gone <= Of(fate, StillParked) && f != StillParked && g != StillParked
    ensures |Of(Meet(fate, gone, f), g)| == |Of(fate, g)| + if g == f then |gone| else 0
  {
    if g == f {
      assert Of(Meet(fate, gone, f), f) == Of(fate, f) + gone;
      assert Of(fate, f) !! gone;
    } else {
      assert Of(Meet(fate, gone, f), g) == Of(fate, g);
    }
  }

  // ---------------------------------------------------------------- the ledger

  /** The calls that have removed a recovered entry and not yet counted it. */
  function Owed(calls: map<CallId, Call>): set<CallId> {
    set k | k in calls && calls[k].Crediting?
  }

  /** Every message that came in has exactly one fate, and is parked exactly when that is its fate. */
  ghost predicate Known(s: State) {
    && (forall id :: id in s.h.loaded ==> id !in s.h.origin)
    && (forall id :: id in s.h.fate <==> id in s.h.loaded || id in s.h.origin)
    && (forall id :: id in s.store.entries <==> id in s.h.fate && s.h.fate[id] == StillParked)
    && (forall id :: id in s.store.entries ==> s.store.entries[id].id == id)
    && "" !in s.h.fate
  }

  lemma KnownIsOf(s: State)
    requires Known(s)
    ensures s.store.entries.Keys == Of(s.h.fate, StillParked)
  {
  }

  lemma KnownStep(c: Config, s: State, e: Event, t: State)
    requires Known(s) && Step(c, s, e, t)
    ensures Known(t)
  {
    match e
    case Admit(id, m, cause, now, draw) => KnownAdmitting(c, s, Fresh(c, id, m, cause, now, draw), now, t);
    case Fail(call, cause, now, draw) => KnownFailing(c, s, call, cause, now, draw);
    case Succeed(call) => KnownLosing(s, t, Recovered);
    case Discard(id) => KnownLosing(s, t, Discarded);
    case ExpireOnly(now) => KnownLosing(s, t, Expired);
    case StartReplay(_, now, _, _) => KnownLosing(s, t, Expired);
    case _ =>
  }

  lemma KnownLosing(s: State, t: State, f: Fate)
    requires Known(s) && f != StillParked && t.h.loaded == s.h.loaded && t.h.origin == s.h.origin
    requires forall id :: id in t.store.entries ==> id in s.store.entries && t.store.entries[id] == s.store.entries[id]
    requires forall id :: id in t.h.fate <==> id in s.h.fate
    requires forall id :: id in t.h.fate ==>
               t.h.fate[id] == if id in s.store.entries && id !in t.store.entries then f else s.h.fate[id]
    ensures Known(t)
  {
  }

  lemma KnownFailing(c: Config, s: State, call: CallId, cause: Error, now: Time, draw: Draw)
    requires Known(s) && call in s.calls && s.calls[call].Handling?
    ensures Known(Failing(c, s, call, s.calls[call], cause, now, draw))
  {
  }

  lemma KnownAdmitting(c: Config, s: State, e: Entry, now: Time, t: State)
    requires Known(s) && Admitting(c, s, e, now, t)
    ensures Known(t)
  {
    AdmitsKeeps(c, s.store, now, e, t.store);
    assert Expire(c, s.store, now).entries == Live(c, s.store.entries, now);
    FatesAdmitting(s.h.fate, s.store.entries.Keys, Live(c, s.store.entries, now).Keys, t.store.entries.Keys,
                  e.id, t.h.fate);
  }

  lemma AdmitsKeeps(c: Config, s: Store, now: Time, e: Entry, t: Store)
    requires Admits(c, s, now, e, t)
    ensures Get(t.entries, e.id) == Some(e)
    ensures forall id :: id in t.entries && id != e.id ==>
              id in Live(c, s.entries, now) && id in s.entries && t.entries[id] == s.entries[id]
  {
    var mid := t.entries - {e.id};
    assert OldestDropped(Live(c, s.entries, now), mid);
    forall id | id in t.entries && id != e.id ensures id in Live(c, s.entries, now) && t.entries[id] == s.entries[id] {
      assert id in mid;
    }
  }

  /** The fates after an admission, id by id. */
  lemma FatesAdmitting(fate: map<Id, Fate>, parked: set<Id>, live: set<Id>, kept: set<Id>, id: Id, after: map<Id, Fate>)
    requires forall i :: i in parked <==> i in fate && fate[i] == StillParked
    requires live <= parked && id !in fate && id in kept && kept - {id} <= live
    requires after == Meet(Meet(fate, parked - live, Expired), live - kept, Overflowed)[id := StillParked]
    ensures forall i :: i in after <==> i in fate || i == id
    ensures after[id] == StillParked
    ensures forall i :: i in fate ==> Neglected(fate[i], after[i])
    ensures forall i :: i in kept <==> i in after && after[i] == StillParked
  {
  }

  predicate Neglected(f: Fate, g: Fate) {
    f == g || (f == StillParked && (g == Expired || g == Overflowed || g == Discarded))
  }

  /** The counters count the fates; a removal that missed, and one not yet credited, put `recovered`
      out by one each. */
  ghost predicate Counts(st: Stats, parked: int, fate: map<Id, Fate>, misses: int, owed: int) {
    && st.accepted == parked
    && st.exhausted == |Of(fate, GivenUp)|
    && st.expired == |Of(fate, Expired)|
    && st.overflow == |Of(fate, Overflowed)|
    && st.recovered + owed == |Of(fate, Recovered)| + misses
  }

  ghost predicate Ledger(s: State) {
    Known(s) && Counts(s.store.stats, |s.h.origin|, s.h.fate, s.h.misses, |Owed(s.calls)|)
  }

  function Bump(st: Stats, f: Fate, n: int): Stats {
    match f
    case GivenUp => st.(exhausted := st.exhausted + n)
    case Expired => st.(expired := st.expired + n)
    case Overflowed => st.(overflow := st.overflow + n)
    case _ => st
  }

  lemma Leaving(st: Stats, n: int, fate: map<Id, Fate>, misses: int, owed: int, gone: set<Id>, f: Fate)
    requires Counts(st, n, fate, misses, owed) && gone <= Of(fate, StillParked) && f != StillParked
    ensures Counts(Bump(st, f, |gone|), n, Meet(fate, gone, f), misses, owed + if f == Recovered then |gone| else 0)
  {
    Meeting(fate, gone, f, GivenUp);
    Meeting(fate, gone, f, Expired);
    Meeting(fate, gone, f, Overflowed);
    Meeting(fate, gone, f, Recovered);
  }

  lemma Filing(fate: map<Id, Fate>, id: Id, g: Fate)
    requires id !in fate && g != StillParked
    ensures Of(fate[id := StillParked], g) == Of(fate, g)
  {
  }

  lemma Dropped(big: map<Id, Entry>, small: map<Id, Entry>)
    requires small.Keys <= big.Keys
    ensures |big.Keys - small.Keys| == |big| - |small|
  {
    Split(big.Keys, small.Keys);
  }

  lemma CountsExpiring(c: Config, s: State, now: Time)
    requires Ledger(s)
    ensures var t := Expiring(c, s, now); Counts(t.store.stats, |t.h.origin|, t.h.fate, t.h.misses, |Owed(t.calls)|)
  {
    KnownIsOf(s);
    ExpiringCounts(s.store.stats, |s.h.origin|, s.h.fate, s.h.misses, |Owed(s.calls)|, s.store.entries,
                   Live(c, s.store.entries, now));
  }

  lemma ExpiringCounts(st: Stats, n: int, fate: map<Id, Fate>, misses: int, owed: int, es: map<Id, Entry>,
                       live: map<Id, Entry>)
    requires Counts(st, n, fate, misses, owed) && live.Keys <= es.Keys == Of(fate, StillParked)
    ensures Counts(st.(expired := st.expired + |es| - |live|), n, Meet(fate, es.Keys - live.Keys, Expired),
                   misses, owed)
  {
    Dropped(es, live);
    Leaving(st, n, fate, misses, owed, es.Keys - live.Keys, Expired);
  }

  lemma CountsAdmitting(c: Config, s: State, e: Entry, now: Time, t: State)
    requires Ledger(s) && Admitting(c, s, e, now, t)
    ensures Counts(t.store.stats, |t.h.origin|, t.h.fate, t.h.misses, |Owed(t.calls)|)
  {
    KnownIsOf(s);
    var x := Expiring(c, s, now);
    CountsExpiring(c, s, now);
    var mid := Before(t.store, e.id);
    var gone := x.store.entries.Keys - mid.entries.Keys;
    assert e.id !in x.store.entries;
    assert x.store.entries.Keys - t.store.entries.Keys == gone;
    AdmittingCounts(x, mid, gone, e, t);
  }

  lemma AdmittingCounts(x: State, mid: Store, gone: set<Id>, e: Entry, t: State)
    requires Counts(x.store.stats, |x.h.origin|, x.h.fate, x.h.misses, |Owed(x.calls)|)
    requires e.id !in x.h.origin && e.id !in x.h.fate
    requires mid.entries.Keys <= x.store.entries.Keys <= Of(x.h.fate, StillParked)
    requires gone == x.store.entries.Keys - mid.entries.Keys
    requires t.store.stats == x.store.stats.(overflow := x.store.stats.overflow + |x.store.entries| - |mid.entries|,
                                             accepted := x.store.stats.accepted + 1)
    requires t.calls == x.calls && t.h.misses == x.h.misses && t.h.origin == x.h.origin[e.id := e.message]
    requires t.h.fate == Meet(x.h.fate, gone, Overflowed)[e.id := StillParked]
    ensures Counts(t.store.stats, |t.h.origin|, t.h.fate, t.h.misses, |Owed(t.calls)|)
  {
    Dropped(x.store.entries, mid.entries);
    Leaving(x.store.stats, |x.h.origin|, x.h.fate, x.h.misses, |Owed(x.calls)|, gone, Overflowed);
    var fate := Meet(x.h.fate, gone, Overflowed);
    Filing(fate, e.id, GivenUp);
    Filing(fate, e.id, Expired);
    Filing(fate, e.id, Overflowed);
    Filing(fate, e.id, Recovered);
  }

  lemma CountsFailing(c: Config, s: State, call: CallId, k: Call, cause: Error, now: Time, draw: Draw)
    requires Ledger(s) && k.Handling? && call in s.calls && s.calls[call] == k
    ensures var t := Failing(c, s, call, k, cause, now, draw);
            Counts(t.store.stats, |t.h.origin|, t.h.fate, t.h.misses, |Owed(t.calls)|)
  {
    KnownIsOf(s);
    var id := k.entry.id;
    MovesNoDebt(s.calls, call, Between(k.rest));
    if id in s.store.entries {
      FailingStats(c, s.store, id, cause, now, draw);
      Leaving(s.store.stats, |s.h.origin|, s.h.fate, s.h.misses, |Owed(s.calls)|, {id}, GivenUp);
    }
  }

  lemma FailingStats(c: Config, s: Store, id: Id, cause: Error, now: Time, draw: Draw)
    requires Keyed(s.entries) && id in s.entries
    ensures var t := RecordFailure(c, s, id, cause, now, draw);
            t.stats == if id in t.entries then s.stats else Bump(s.stats, GivenUp, 1)
  {
  }

  lemma MovesNoDebt(calls: map<CallId, Call>, call: CallId, k: Call)
    requires !k.Crediting? && (call in calls ==> !calls[call].Crediting?)
    ensures Owed(calls[call := k]) == Owed(calls) == Owed(calls - {call})
  {
  }

  lemma CountsSucceeding(s: State, call: CallId, k: Call)
    requires Ledger(s) && k.Handling? && call in s.calls && s.calls[call] == k
    ensures var t := Succeeding(s, call, k); Counts(t.store.stats, |t.h.origin|, t.h.fate, t.h.misses, |Owed(t.calls)|)
  {
    KnownIsOf(s);
    assert Owed(s.calls[call := Crediting(k.rest)]) == Owed(s.calls) + {call};
    if k.entry.id in s.store.entries {
      Leaving(s.store.stats, |s.h.origin|, s.h.fate, s.h.misses, |Owed(s.calls)|, {k.entry.id}, Recovered);
    }
  }

  lemma CountsCredit(calls: map<CallId, Call>, call: CallId, k: Call)
    requires call in calls && calls[call].Crediting? && !k.Crediting?
    ensures |Owed(calls[call := k])| == |Owed(calls)| - 1
  {
    assert Owed(calls[call := k]) == Owed(calls) - {call};
  }

  lemma CountsStep(c: Config, s: State, e: Event, t: State)
    requires Ledger(s) && Step(c, s, e, t)
    ensures Counts(t.store.stats, |t.h.origin|, t.h.fate, t.h.misses, |Owed(t.calls)|)
  {
    match e
    case Reject =>
    case Admit(id, m, cause, now, draw) => CountsAdmitting(c, s, Fresh(c, id, m, cause, now, draw), now, t);
    case Discard(id) =>
      KnownIsOf(s);
      if id in s.store.entries {
        Leaving(s.store.stats, |s.h.origin|, s.h.fate, s.h.misses, |Owed(s.calls)|, {id}, Discarded);
      }
    case ExpireOnly(now) => CountsExpiring(c, s, now);
    case StartReplay(call, now, ignoreBackoff, due) =>
      CountsExpiring(c, s, now);
      MovesNoDebt(s.calls, call, Between(due));
    case StartRetry(call, id) => MovesNoDebt(s.calls, call, Handling(s.store.entries[id], []));
    case Take(call) => MovesNoDebt(s.calls, call, Handling(s.calls[call].rest[0], s.calls[call].rest[1..]));
    case Stop(call) => MovesNoDebt(s.calls, call, Between([]));
    case Fail(call, cause, now, draw) => CountsFailing(c, s, call, s.calls[call], cause, now, draw);
    case Succeed(call) => CountsSucceeding(s, call, s.calls[call]);
    case CreditOne(call) => CountsCredit(s.calls, call, Between(s.calls[call].rest));
  }

  lemma LedgerInit(s: State)
    requires Init(s)
    ensures Ledger(s)
  {
    assert Of(s.h.fate, StillParked) == s.store.entries.Keys;
  }

  lemma {:induction false} LedgerHolds(c: Config, r: Run)
    requires r.Valid(c)
    ensures Ledger(r.Last())
  {
    match r
    case Start(s) => LedgerInit(s);
    case Then(before, e, t) =>
      LedgerHolds(c, before);
      KnownStep(c, before.Last(), e, t);
      CountsStep(c, before.Last(), e, t);
  }

  lemma Arrivals(h: History)
    requires forall id :: id in h.loaded ==> id !in h.origin
    requires forall id :: id in h.fate <==> id in h.loaded || id in h.origin
    ensures |h.fate.Keys| == |h.loaded| + |h.origin|
  {
    assert h.fate.Keys - h.loaded.Keys == h.origin.Keys;
    Split(h.fate.Keys, h.loaded.Keys);
  }

  /** The ledger of every reachable state, at the granularity of single critical sections: what came
      in, plus the removals that missed, is what is parked, counted out or discarded, plus the
      recoveries not yet counted. */
  lemma LedgerBalances(c: Config, r: Run)
    requires r.Valid(c)
    ensures var s := r.Last(); var st := s.store.stats;
            |s.h.loaded| + st.accepted + s.h.misses ==
            |s.store.entries| + st.recovered + |Owed(s.calls)| + st.exhausted + st.expired + st.overflow
            + |Of(s.h.fate, Discarded)|
  {
    LedgerHolds(c, r);
    var h := r.Last().h;
    KnownIsOf(r.Last());
    Arrivals(h);
    Partition(h.fate);
  }

  // ---------------------------------------------------------------- runs without overlap

  /** The events that begin an operation of their own. */
  predicate Begins(e: Event) {
    !(e.Take? || e.Stop? || e.Fail? || e.Succeed? || e.CreditOne?)
  }

  /** No operation begins while a call is under way. */
  ghost predicate Sequential(r: Run) {
    match r
    case Start(_) => true
    case Then(before, e, _) => Sequential(before) && (Begins(e) ==> before.Last().calls == map[])
  }

  /** The entries a call still has to see to: the one in its hands first. */
  function Pending(k: Call): seq<Entry> {
    match k
    case Between(rest) => rest
    case Handling(e, rest) => [e] + rest
    case Crediting(rest) => rest
  }

  /** The only call under way works through distinct entries, all of them still parked as it saw them. */
  ghost predicate Undisturbed(s: State) {
    && (forall j, k :: j in s.calls && k in s.calls ==> j == k)
    && (forall k :: k in s.calls ==>
          && Distinct(Pending(s.calls[k]))
          && forall i :: 0 <= i < |Pending(s.calls[k])| ==>
               Get(s.store.entries, Pending(s.calls[k])[i].id) == Some(Pending(s.calls[k])[i]))
  }

  lemma UndisturbedStep(c: Config, s: State, e: Event, t: State)
    requires Known(s) && Undisturbed(s) && Step(c, s, e, t) && (Begins(e) ==> s.calls == map[])
    ensures Undisturbed(t) && t.h.misses == s.h.misses
  {
    if e.StartReplay? {
      UndisturbedAlone(t, e.call, Between(e.due));
    } else if e.StartRetry? {
      UndisturbedAlone(t, e.call, Handling(s.store.entries[e.id], []));
    } else if Begins(e) {
      assert t.calls == map[];
    } else {
      UndisturbedGoesOn(c, s, e, t);
    }
  }

  lemma UndisturbedAlone(t: State, call: CallId, k: Call)
    requires t.calls == map[call := k] && Distinct(Pending(k))
    requires forall i :: 0 <= i < |Pending(k)| ==> Get(t.store.entries, Pending(k)[i].id) == Some(Pending(k)[i])
    ensures Undisturbed(t)
  {
  }

  lemma UndisturbedGoesOn(c: Config, s: State, e: Event, t: State)
    requires Known(s) && Undisturbed(s) && Step(c, s, e, t) && !Begins(e)
    ensures Undisturbed(t) && t.h.misses == s.h.misses
  {
    OnlyCall(s, e.call);
    match e
    case Stop(call) => assert t.calls == map[];
    case Take(call) => UndisturbedTake(s, call);
    case CreditOne(call) => UndisturbedAlone(t, call, Between(s.calls[call].rest));
    case Fail(call, cause, now, draw) => UndisturbedFailure(c, s, call, cause, now, draw);
    case Succeed(call) => UndisturbedSuccess(s, call);
  }

  lemma OnlyCall(s: State, call: CallId)
    requires Undisturbed(s) && call in s.calls
    ensures s.calls == map[call := s.calls[call]]
  {
  }

  lemma UndisturbedTake(s: State, call: CallId)
    requires Undisturbed(s) && call in s.calls && s.calls[call].Between? && s.calls[call].rest != []
    ensures Undisturbed(Trying(s, call, s.calls[call].rest[0], s.calls[call].rest[1..]))
  {
    var rest := s.calls[call].rest;
    OnlyCall(s, call);
    assert Pending(Handling(rest[0], rest[1..])) == rest;
    UndisturbedAlone(Trying(s, call, rest[0], rest[1..]), call, Handling(rest[0], rest[1..]));
  }

  lemma UndisturbedFailure(c: Config, s: State, call: CallId, cause: Error, now: Time, draw: Draw)
    requires Undisturbed(s) && call in s.calls && s.calls[call].Handling?
    ensures var t := Failing(c, s, call, s.calls[call], cause, now, draw); Undisturbed(t) && t.h.misses == s.h.misses
  {
    UndisturbedMove(s, call, Failing(c, s, call, s.calls[call], cause, now, draw));
  }

  lemma UndisturbedSuccess(s: State, call: CallId)
    requires Known(s) && Undisturbed(s) && call in s.calls && s.calls[call].Handling?
    ensures var t := Succeeding(s, call, s.calls[call]); Undisturbed(t) && t.h.misses == s.h.misses
  {
    assert Pending(s.calls[call])[0] == s.calls[call].entry;
    UndisturbedMove(s, call, Succeeding(s, call, s.calls[call]));
  }

  lemma UndisturbedMove(s: State, call: CallId, t: State)
    requires Undisturbed(s) && call in s.calls && s.calls[call].Handling?
    requires t.calls.Keys == s.calls.Keys && Pending(t.calls[call]) == s.calls[call].rest
    requires forall id :: id != s.calls[call].entry.id ==> Get(t.store.entries, id) == Get(s.store.entries, id)
    ensures Undisturbed(t)
  {
    var p, q := Pending(s.calls[call]), Pending(t.calls[call]);
    forall i | 0 <= i < |q| ensures Get(t.store.entries, q[i].id) == Some(q[i]) {
      assert q[i] == p[i + 1] && p[0].id != p[i + 1].id;
    }
    assert Distinct(q) by {
      forall i, j | 0 <= i < j < |q| ensures q[i].id != q[j].id {
        assert q[i] == p[i + 1] && q[j] == p[j + 1];
      }
    }
  }

  lemma {:induction false} SequentialIsUndisturbed(c: Config, r: Run)
    requires r.Valid(c) && Sequential(r)
    ensures Undisturbed(r.Last()) && r.Last().h.misses == 0
  {
    match r
    case Start(s) =>
    case Then(before, e, t) =>
      SequentialIsUndisturbed(c, before);
      LedgerHolds(c, before);
      UndisturbedStep(c, before.Last(), e, t);
  }

  /** Between non-overlapping calls the counters alone balance. */
  lemma SequentialLedger(c: Config, r: Run)
    requires r.Valid(c) && Sequential(r) && r.Last().calls == map[]
    ensures var s := r.Last(); var st := s.store.stats;
            |s.h.loaded| + st.accepted ==
            |s.store.entries| + st.recovered + st.exhausted + st.expired + st.overflow + |Of(s.h.fate, Discarded)|
    ensures r.Last().store.stats.recovered == |Of(r.Last().h.fate, Recovered)|
  {
    LedgerBalances(c, r);
    LedgerHolds(c, r);
    SequentialIsUndisturbed(c, r);
    assert Owed(r.Last().calls) == {};
  }

  lemma Extend(c: Config, r: Run, e: Event, t: State) returns (r': Run)
    requires r.Valid(c) && Step(c, r.Last(), e, t)
    ensures r' == Then(r, e, t) && r'.Valid(c)
  {
    r' := Then(r, e, t);
  }

  lemma LoadOne(c: Config, e: Entry) returns (r: Run)
    requires e.id != ""
    ensures r.Start? && r.Valid(c) && r.Last().store == Store(map[e.id := e], NO_STATS)
    ensures r.Last().calls == map[] && r.Last().h.loaded == map[e.id := e]
    ensures e.id in r.Last().h.fate && Tally(r.Last().h.tries, e.id) == 0
  {
    var es := map[e.id := e];
    r := Start(State(Store(es, NO_STATS), map[],
                     History(es, map[], map id | id in es :: StillParked, map id | id in es :: 0,
                             map id | id in es :: 0, 0)));
  }

  lemma RetryBoth(c: Config, r: Run, e: Entry) returns (r': Run)
    requires r.Valid(c) && r.Last().calls == map[] && Get(r.Last().store.entries, e.id) == Some(e)
    ensures r'.Valid(c) && r'.Last().store == r.Last().store && r'.Last().h.loaded == r.Last().h.loaded
    ensures r'.Last().calls == map[1 := Handling(e, []), 2 := Handling(e, [])]
  {
    var s := Trying(r.Last(), 1, e, []);
    r' := Extend(c, r, StartRetry(1, e.id), s);
    r' := Extend(c, r', StartRetry(2, e.id), Trying(s, 2, e, []));
  }

  lemma RecoverBoth(c: Config, r: Run, e: Entry) returns (r': Run)
    requires r.Valid(c) && r.Last().calls == map[1 := Handling(e, []), 2 := Handling(e, [])]
    ensures r'.Valid(c) && r'.Last().store == Remove(Remove(r.Last().store, e.id), e.id)
    ensures r'.Last().h.loaded == r.Last().h.loaded
    ensures r'.Last().calls == map[1 := Crediting([]), 2 := Crediting([])]
  {
    var s := Succeeding(r.Last(), 1, Handling(e, []));
    r' := Extend(c, r, Succeed(1), s);
    r' := Extend(c, r', Succeed(2), Succeeding(s, 2, Handling(e, [])));
  }

  lemma FinishBoth(c: Config, r: Run) returns (r': Run)
    requires r.Valid(c) && r.Last().calls == map[1 := Crediting([]), 2 := Crediting([])]
    ensures r'.Valid(c) && r'.Last().store == Credit(Credit(r.Last().store))
    ensures r'.Last().h.loaded == r.Last().h.loaded
    ensures r'.Last().calls == map[]
  {
    var s := r.Last().(store := Credit(r.Last().store), calls := r.Last().calls[1 := Between([])]);
    r' := Extend(c, r, CreditOne(1), s);
    var t := s.(store := Credit(s.store), calls := s.calls[2 := Between([])]);
    r' := Extend(c, r', CreditOne(2), t);
    var u := t.(calls := t.calls - {1});
    r' := Extend(c, r', Stop(1), u);
    var v := u.(calls := u.calls - {2});
    r' := Extend(c, r', Stop(2), v);
  }

  /** With overlap they do not: two operators retrying the same message at once recover it twice. */
  lemma OverlapCountsTwice(c: Config, e: Entry) returns (r: Run)
    requires e.id != ""
    ensures r.Valid(c) && r.Last().calls == map[]
    ensures r.Last().h.loaded == map[e.id := e] && r.Last().store.stats == NO_STATS.(recovered := 2)
  {
    r := LoadOne(c, e);
    r := RetryBoth(c, r, e);
    r := RecoverBoth(c, r, e);
    r := FinishBoth(c, r);
  }

  // ---------------------------------------------------------------- what one step can change

  /** Apart from the ids in `added`, entries only go, and go to a fate of neglect; nothing is tallied. */
  ghost predicate Shrinks(s: State, t: State, added: set<Id>) {
    && (forall id :: id in t.store.entries && id !in added ==>
          id in s.store.entries && t.store.entries[id] == s.store.entries[id])
    && (forall id :: id in t.h.fate && id !in added ==> id in s.h.fate && Neglected(s.h.fate[id], t.h.fate[id]))
    && (forall id :: id !in added ==>
          Tally(t.h.failures, id) == Tally(s.h.failures, id) && Tally(t.h.tries, id) == Tally(s.h.tries, id))
    && t.h.loaded == s.h.loaded
    && (forall id :: id !in added ==> Get(t.h.origin, id) == Get(s.h.origin, id))
  }

  predicate Plain(e: Event) {
    e.Reject? || e.Discard? || e.ExpireOnly? || e.StartReplay? || e.Stop? || e.CreditOne?
  }

  lemma PlainShrinks(c: Config, s: State, e: Event, t: State)
    requires Known(s) && Step(c, s, e, t) && Plain(e)
    ensures Shrinks(s, t, {})
  {
    if e.Discard? {
      NeglectShrinks(s, t, Discarded);
    } else if e.ExpireOnly? {
      NeglectShrinks(s, t, Expired);
    } else if e.StartReplay? {
      NeglectShrinks(s, t, Expired);
    }
  }

  lemma NeglectShrinks(s: State, t: State, f: Fate)
    requires Known(s) && Neglected(StillParked, f)
    requires forall id :: id in t.store.entries ==> id in s.store.entries && t.store.entries[id] == s.store.entries[id]
    requires t.h.loaded == s.h.loaded && t.h.origin == s.h.origin
    requires t.h.failures == s.h.failures && t.h.tries == s.h.tries
    requires forall id :: id in t.h.fate ==> id in s.h.fate
    requires forall id :: id in t.h.fate ==>
               t.h.fate[id] == if id in s.store.entries && id !in t.store.entries then f else s.h.fate[id]
    ensures Shrinks(s, t, {})
  {
  }

  lemma AdmittingShrinks(c: Config, s: State, e: Entry, now: Time, t: State)
    requires Known(s) && Admitting(c, s, e, now, t)
    ensures Shrinks(s, t, {e.id})
    ensures t.store.entries[e.id] == e && t.h.fate[e.id] == StillParked && t.h.origin[e.id] == e.message
    ensures t.h.failures[e.id] == 0 && t.h.tries[e.id] == 0 && e.id !in t.h.loaded
  {
    AdmitsKeeps(c, s.store, now, e, t.store);
    assert Expire(c, s.store, now).entries == Live(c, s.store.entries, now);
    FatesAdmitting(s.h.fate, s.store.entries.Keys, Live(c, s.store.entries, now).Keys, t.store.entries.Keys,
                  e.id, t.h.fate);
  }

  /** A fate other than being parked is final. */
  lemma FateStays(c: Config, s: State, e: Event, t: State, id: Id)
    requires Known(s) && Known(t) && Step(c, s, e, t) && id in s.h.fate && s.h.fate[id] != StillParked
    ensures id in t.h.fate && t.h.fate[id] == s.h.fate[id]
  {
    if Plain(e) {
      PlainShrinks(c, s, e, t);
    } else if e.Admit? {
      AdmittingShrinks(c, s, Fresh(c, e.id, e.m, e.cause, e.now, e.draw), e.now, t);
    } else {
      SettlesParked(c, s, e, t, id);
    }
  }

  lemma SettlesParked(c: Config, s: State, e: Event, t: State, id: Id)
    requires Known(s) && Step(c, s, e, t) && !Plain(e) && !e.Admit? && id in s.h.fate && s.h.fate[id] != StillParked
    ensures id in t.h.fate && t.h.fate[id] == s.h.fate[id]
  {
    assert id !in s.store.entries;
  }

  ghost predicate Continues(r: Run, later: Run) {
    later == r || (later.Then? && Continues(r, later.before))
  }

  /** Whatever became of a message, and however a run goes on, nothing else ever becomes of it. */
  lemma {:induction false} FateIsFinal(c: Config, r: Run, later: Run, id: Id)
    requires later.Valid(c) && Continues(r, later) && id in r.Last().h.fate && r.Last().h.fate[id] != StillParked
    ensures id in later.Last().h.fate && later.Last().h.fate[id] == r.Last().h.fate[id]
  {
    if later == r {
    } else {
      FateIsFinal(c, r, later.before, id);
      LedgerHolds(c, later.before);
      LedgerHolds(c, later);
      FateStays(c, later.before.Last(), later.event, later.now, id);
    }
  }

  // ---------------------------------------------------------------- attempts

  /** The attempts an entry came with: none, unless a previous run left some. */
  function Carried(h: History, id: Id): int {
    if id in h.loaded then h.loaded[id].attempts else 0
  }

  function Original(h: History, id: Id): Option<Message> {
    if id in h.origin then Some(h.origin[id])
    else if id in h.loaded then Some(h.loaded[id].message)
    else None
  }

  /** An entry carries its message unchanged and has, besides the attempts it came with, one for each
      failed replay; it is given up exactly by the failure that reaches the limit. */
  ghost predicate Faithful(c: Config, s: State) {
    && (forall id :: id in s.store.entries ==> Tracks(s.h, s.store.entries[id]))
    && (forall id :: id in s.h.fate ==> Within(c, Carried(s.h, id), s.h.fate[id], Tally(s.h.failures, id)))
  }

  ghost predicate Tracks(h: History, e: Entry) {
    e.attempts == Carried(h, e.id) + Tally(h.failures, e.id) && Original(h, e.id) == Some(e.message)
  }

  /** The attempts at which an entry is given up: the limit, or one more than it came with if those were
      as many already. */
  function Limit(c: Config, carried: int): int {
    if carried < c.maxAttempts then c.maxAttempts else carried + 1
  }

  predicate Within(c: Config, carried: int, f: Fate, failures: nat) {
    if f == GivenUp then failures > 0 && carried + failures == Limit(c, carried)
    else failures > 0 ==> carried + failures < c.maxAttempts
  }

  lemma FaithfulStep(c: Config, s: State, e: Event, t: State)
    requires c.Ready() && Known(s) && Faithful(c, s) && Step(c, s, e, t)
    ensures Faithful(c, t)
  {
    if Plain(e) {
      PlainShrinks(c, s, e, t);
      FaithfulShrinks(c, s, t, {});
    } else if e.Admit? {
      var entry := Fresh(c, e.id, e.m, e.cause, e.now, e.draw);
      AdmittingShrinks(c, s, entry, e.now, t);
      FaithfulShrinks(c, s, t, {e.id});
    } else if e.Fail? {
      FaithfulFailing(c, s, e.call, s.calls[e.call], e.err, e.now, e.draw);
    } else {
      FaithfulOtherwise(c, s, e, t);
    }
  }

  lemma FaithfulOtherwise(c: Config, s: State, e: Event, t: State)
    requires Known(s) && Faithful(c, s) && Step(c, s, e, t) && (e.StartRetry? || e.Take? || e.Succeed?)
    ensures Faithful(c, t)
  {
    if e.Succeed? {
      FaithfulSuccess(c, s, e.call);
    } else {
      FaithfulCarriesOn(c, s, t);
    }
  }

  lemma FaithfulSuccess(c: Config, s: State, call: CallId)
    requires Faithful(c, s) && call in s.calls && s.calls[call].Handling?
    requires forall id :: id in s.store.entries ==> id in s.h.fate && s.h.fate[id] == StillParked
    ensures Faithful(c, Succeeding(s, call, s.calls[call]))
  {
    FaithfulCarriesOn(c, s, Succeeding(s, call, s.calls[call]));
  }

  lemma FaithfulCarriesOn(c: Config, s: State, t: State)
    requires Faithful(c, s)
    requires t.h.loaded == s.h.loaded && t.h.origin == s.h.origin && t.h.failures == s.h.failures
    requires forall id :: id in t.store.entries ==> id in s.store.entries && t.store.entries[id] == s.store.entries[id]
    requires forall id :: id in t.h.fate ==> id in s.h.fate && (t.h.fate[id] == GivenUp <==> s.h.fate[id] == GivenUp)
    ensures Faithful(c, t)
  {
    forall id | id in t.store.entries ensures Tracks(t.h, t.store.entries[id]) {
      assert Tracks(s.h, s.store.entries[id]);
    }
  }

  lemma FaithfulShrinks(c: Config, s: State, t: State, added: set<Id>)
    requires c.Ready() && Known(s) && Faithful(c, s) && Shrinks(s, t, added)
    requires forall id :: id in added ==>
               Tally(t.h.failures, id) == 0 && (id in t.h.fate ==> t.h.fate[id] == StillParked)
    requires forall id :: id in added && id in t.store.entries ==> Tracks(t.h, t.store.entries[id])
    ensures Faithful(c, t)
  {
    forall id | id in t.store.entries ensures Tracks(t.h, t.store.entries[id]) {
      if id !in added {
        assert Tracks(s.h, s.store.entries[id]);
      }
    }
  }

  lemma FaithfulFailing(c: Config, s: State, call: CallId, k: Call, cause: Error, now: Time, draw: Draw)
    requires c.Ready() && Known(s) && Faithful(c, s) && k.Handling?
    ensures Faithful(c, Failing(c, s, call, k, cause, now, draw))
  {
    TracksFailing(c, s, call, k, cause, now, draw);
    WithinFailing(c, s, call, k, cause, now, draw);
  }

  lemma TracksFailing(c: Config, s: State, call: CallId, k: Call, cause: Error, now: Time, draw: Draw)
    requires Known(s) && Faithful(c, s) && k.Handling?
    ensures var t := Failing(c, s, call, k, cause, now, draw);
            forall i :: i in t.store.entries ==> Tracks(t.h, t.store.entries[i])
  {
    var t := Failing(c, s, call, k, cause, now, draw);
    forall i | i in t.store.entries ensures Tracks(t.h, t.store.entries[i]) {
      assert Tracks(s.h, s.store.entries[i]);
    }
  }

  lemma WithinFailing(c: Config, s: State, call: CallId, k: Call, cause: Error, now: Time, draw: Draw)
    requires c.Ready() && Known(s) && Faithful(c, s) && k.Handling?
    ensures var t := Failing(c, s, call, k, cause, now, draw);
            forall i :: i in t.h.fate ==> Within(c, Carried(t.h, i), t.h.fate[i], Tally(t.h.failures, i))
  {
    var id := k.entry.id;
    if id in s.store.entries {
      assert Tracks(s.h, s.store.entries[id]);
    }
  }

  lemma {:induction false} RunIsFaithful(c: Config, r: Run)
    requires c.Ready() && r.Valid(c)
    ensures Faithful(c, r.Last())
  {
    match r
    case Start(s) =>
    case Then(before, e, t) =>
      RunIsFaithful(c, before);
      LedgerHolds(c, before);
      FaithfulStep(c, before.Last(), e, t);
  }

  /** Every message, accepted or loaded from disk, stays within its attempts in every interleaving, those
      it came with included: giving up means that a failure has reached the limit. */
  lemma AttemptsBounded(c: Config, r: Run, id: Id)
    requires c.Ready() && r.Valid(c) && id in r.Last().h.fate
    ensures var h := r.Last().h; var failures := Tally(h.failures, id); var total := Carried(h, id) + failures;
            && (h.fate[id] == GivenUp <==> failures > 0 && total >= c.maxAttempts)
            && total <= Limit(c, Carried(h, id))
            && (Carried(h, id) < c.maxAttempts ==> (h.fate[id] == GivenUp <==> total == c.maxAttempts))
            && (id in r.Last().store.entries ==>
                  && r.Last().store.entries[id].attempts == total
                  && Original(h, id) == Some(r.Last().store.entries[id].message))
    ensures id in r.Last().h.origin ==> Carried(r.Last().h, id) == 0
  {
    RunIsFaithful(c, r);
    LedgerHolds(c, r);
    assert id in r.Last().store.entries ==> Tracks(r.Last().h, r.Last().store.entries[id]);
  }
}
