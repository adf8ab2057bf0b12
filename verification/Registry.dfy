/** The bounded history of analytics/history.go and the registry of analytics/registry.go, which must
    behave as one independent history per entity. */
module Registry {
  import opened Wrappers
  import opened Retry
  import Ingest
  import Strings

  const ZERO_TIME := Ingest.ZERO_TIME

  datatype Sample<K> = Sample(at: int, kpi: K)

  datatype Verdict = Verdict(state: string, score: real, reason: string)

  const UNKNOWN := Verdict("UNKNOWN", 0.0, "")

  /** The newest `limit` of a window. */
  function Trim<T>(window: seq<T>, limit: int): seq<T>
    requires limit >= 1
  {
    if |window| > limit then window[|window| - limit..] else window
  }

  predicate Newer<K>(window: seq<Sample<K>>, s: Sample<K>) {
    window == [] || s.at > window[|window| - 1].at
  }

  class History<K> {
    const limit: int
    var samples: seq<Sample<K>>

    constructor (limit: int)
      ensures this.limit == (if limit < 1 then 1 else limit) && samples == []
    {
      this.limit := if limit < 1 then 1 else limit;
      samples := [];
    }

    method Latest() returns (s: Option<Sample<K>>)
      ensures s == if samples == [] then None else Some(samples[|samples| - 1])
    {
      if |samples| == 0 {
        return None;
      }
      return Some(samples[|samples| - 1]);
    }

    method Append(s: Sample<K>) returns (ok: bool)
      requires limit >= 1
      modifies this
      ensures ok <==> old(samples) == [] || s.at > old(samples)[|old(samples)| - 1].at
      ensures !ok ==> samples == old(samples)
      ensures ok ==> |samples| == (if |old(samples)| < limit then |old(samples)| + 1 else limit)
      ensures ok && |old(samples)| <= limit ==> samples == (old(samples) + [s])[|old(samples)| + 1 - |samples|..]
      ensures ok <==> Newer(old(samples), s)
      ensures samples == if ok then Trim(old(samples) + [s], limit) else old(samples)
    {
      var last := Latest();
      if last.Some? && !(s.at > last.value.at) {
        return false;
      }
      samples := samples + [s];
      if |samples| > limit {
        samples := samples[|samples| - limit..];
      }
      return true;
    }
  }

  /** What the registry knows about one entity; the history is shared by reference. */
  datatype Entity<K> = Entity(id: string, history: History<K>, verdict: Verdict, reported: int, observed: int)

  datatype Rules<!K> = Rules(classifier: Option<seq<Sample<K>> -> Verdict>, limit: int)

  /** The value of one entity's state. */
  datatype Known<K> = Known(window: seq<Sample<K>>, verdict: Verdict, reported: int, observed: int)

  function Stamp(at: int, now: int): int {
    if at == ZERO_TIME then now else at
  }

  function Judge<K>(rules: Rules<K>, window: seq<Sample<K>>, verdict: Verdict): Verdict {
    match rules.classifier
    case Some(f) => f(window)
    case None => verdict
  }

  /** One report to one entity, known or new. */
  function Reported<K>(rules: Rules<K>, known: Option<Known<K>>, s: Sample<K>, now: int): Known<K>
    requires rules.limit >= 1
  {
    var k := if known.Some? then known.value else Known([], UNKNOWN, ZERO_TIME, ZERO_TIME);
    if !Newer(k.window, s) then k
    else
      var window := Trim(k.window + [s], rules.limit);
      Known(window, Judge(rules, window, k.verdict), s.at, now)
  }

  datatype Result = Result(entity: string, accepted: bool, verdict: Verdict, previous: string, changed: bool,
                           samples: nat, at: int)

  /** A report to an entity filed just before is a report to an unknown one. */
  lemma Introduced<K>(rules: Rules<K>, was: map<string, Known<K>>, filed: map<string, Known<K>>, id: string,
                      s: Sample<K>, now: int)
    requires rules.limit >= 1
    requires filed == if id in was then was else was[id := Known([], UNKNOWN, ZERO_TIME, ZERO_TIME)]
    ensures filed[id := Reported(rules, Some(filed[id]), s, now)] == was[id := Reported(rules, Get(was, id), s, now)]
    ensures Newer(filed[id].window, s) <==> id !in was || Newer(was[id].window, s)
    ensures filed[id].verdict.state == if id in was then was[id].verdict.state else UNKNOWN.state
    ensures !Newer(filed[id].window, s) ==> Reported(rules, Get(was, id), s, now) == filed[id]
  {
  }

  class Registry<K> {
    const rules: Rules<K>
    var entities: map<string, Entity<K>>

    ghost function Histories(): set<History<K>>
      reads this
    {
      set id | id in entities :: entities[id].history
    }

    ghost predicate Valid()
      reads this, Histories()
    {
      && rules.limit >= 1
      && (forall id :: id in entities ==> entities[id].id == id && entities[id].history.limit == rules.limit)
      && (forall i, j :: i in entities && j in entities && i != j ==> entities[i].history != entities[j].history)
    }

    ghost function View(): map<string, Known<K>>
      reads this, Histories()
    {
      map id | id in entities ::
        Known(entities[id].history.samples, entities[id].verdict, entities[id].reported, entities[id].observed)
    }

    constructor (classifier: Option<seq<Sample<K>> -> Verdict>, historySize: int)
      ensures Valid() && entities == map[] && View() == map[]
      ensures rules == Rules(classifier, if historySize > 0 then historySize else 16)
    {
      rules := Rules(classifier, if historySize > 0 then historySize else 16);
      entities := map[];
    }

    /** `now` is the clock as read for a report without a time, `arrived` as read once it is accepted. */
    method Observe(id: string, at: int, kpi: K, now: int, arrived: int) returns (r: Result)
      requires Valid()
      modifies this, Histories()
      ensures Valid() && fresh(Histories() - old(Histories()))
      ensures View() == old(View())[id := Reported(rules, Get(old(View()), id), Sample(Stamp(at, now), kpi), arrived)]
      ensures var was := Get(old(View()), id);
              && r.entity == id && r.at == Stamp(at, now)
              && (r.accepted <==> was == None || Newer(was.value.window, Sample(Stamp(at, now), kpi)))
              && r.verdict == View()[id].verdict && r.samples == |View()[id].window|
              && r.previous == (if was == None then UNKNOWN.state else was.value.verdict.state)
              && (r.changed <==> r.verdict.state != r.previous)
      ensures r.at == if at == ZERO_TIME then now else at
      ensures var was := Get(old(View()), id);
              r.accepted <==>
                was == None || was.value.window == [] || r.at > was.value.window[|was.value.window| - 1].at
      ensures r.accepted && rules.classifier.Some? ==> r.verdict == rules.classifier.value(View()[id].window)
    {
      var time := Stamp(at, now);
      ghost var was := View();
      if id !in entities {
        Introduce(id);
      }
      Introduced(rules, was, View(), id, Sample(time, kpi), arrived);
      var previous := entities[id].verdict.state;
      var ok := Record(id, Sample(time, kpi), arrived);
      var entity := entities[id];
      r := Result(id, ok, entity.verdict, previous, ok && entity.verdict.state != previous,
                  |entity.history.samples|, time);
    }

    /** Files a new entity with an empty history. */
    method Introduce(id: string)
      requires Valid() && id !in entities
      modifies this
      ensures Valid() && entities.Keys == old(entities.Keys) + {id} && fresh(entities[id].history)
      ensures forall i :: i in old(entities) ==> entities[i] == old(entities[i])
      ensures View() == old(View())[id := Known([], UNKNOWN, ZERO_TIME, ZERO_TIME)]
    {
      var history := new History<K>(rules.limit);
      entities := entities[id := Entity(id, history, UNKNOWN, ZERO_TIME, ZERO_TIME)];
    }

    /** Appends a sample to an entity's history and, if it is new, reclassifies the entity. */
    method Record(id: string, s: Sample<K>, arrived: int) returns (ok: bool)
      requires Valid() && id in entities
      modifies this, entities[id].history
      ensures Valid() && entities.Keys == old(entities.Keys)
      ensures forall i :: i in entities ==> entities[i].history == old(entities[i].history)
      ensures View() == old(View())[id := Reported(rules, Some(old(View())[id]), s, arrived)]
      ensures ok <==> Newer(old(View())[id].window, s)
    {
      var entity := entities[id];
      ok := entity.history.Append(s);
      if !ok {
        return;
      }
      entity := entity.(reported := s.at, observed := arrived);
      if rules.classifier.Some? {
        entity := entity.(verdict := rules.classifier.value(entity.history.samples));
      }
      entities := entities[id := entity];
    }

    /** Forgets the entities unheard for longer than `after`; a period that is not positive is ignored. */
    method Evict(after: int, now: int) returns (dropped: seq<string>)
      requires Valid()
      modifies this`entities
      ensures Valid() && forall id :: id in entities ==> id in old(entities) && entities[id] == old(entities)[id]
      ensures View() == Unforgotten(old(View()), after, now)
      ensures Strings.Ascending(dropped)
      ensures forall id :: id in dropped <==> id in old(entities) && id !in entities
    {
      dropped := [];
      if after <= 0 {
        NothingForgotten(View(), after, now);
        return;
      }
      dropped := Sweep(after, now);
    }

    method Sweep(after: int, now: int) returns (dropped: seq<string>)
      modifies this`entities
      ensures entities == map id | id in old(entities) && now - old(entities)[id].observed <= after :: old(entities)[id]
      ensures Strings.Ascending(dropped)
      ensures forall id :: id in dropped <==> id in old(entities) && id !in entities
    {
      ghost var before := entities;
      var ids := Strings.SortedKeys(entities.Keys);
      dropped := SweepList(ids, after, now);
      OverdueMembers(before, ids, after, now);
      OverdueAscends(before, ids, after, now);
    }

    method SweepList(ids: seq<string>, after: int, now: int) returns (dropped: seq<string>)
      requires Strings.Ascending(ids) && forall id :: id in ids ==> id in entities
      modifies this`entities
      ensures dropped == Overdue(old(entities), ids, after, now)
      ensures entities == map id | id in old(entities) && id !in dropped :: old(entities)[id]
    {
      ghost var before := entities;
      dropped := [];
      for n := 0 to |ids|
        invariant entities == map id | id in before && id !in dropped :: before[id]
        invariant dropped == Overdue(before, ids[..n], after, now)
      {
        assert ids[..n + 1][..n] == ids[..n];
        OverdueMembers(before, ids[..n], after, now);
        Strings.NotBefore(ids, n);
        if now - entities[ids[n]].observed > after {
          entities := entities - {ids[n]};
          dropped := dropped + [ids[n]];
        }
      }
      assert ids[..|ids|] == ids;
    }

    method Forget(id: string) returns (ok: bool)
      requires Valid()
      modifies this`entities
      ensures Valid() && forall id :: id in entities ==> id in old(entities) && entities[id] == old(entities)[id]
      ensures View() == old(View()) - {id} && ok == (id in old(View()))
    {
      ok := id in entities;
      entities := entities - {id};
    }
  }

  /** The ids in a list whose entities have been unheard for too long, in the order of the list. */
  function Overdue<K>(es: map<string, Entity<K>>, ids: seq<string>, after: int, now: int): seq<string>
    requires forall id :: id in ids ==> id in es
  {
    if ids == [] then []
    else
      var last := ids[|ids| - 1];
      Overdue(es, ids[..|ids| - 1], after, now) + if now - es[last].observed > after then [last] else []
  }

  lemma {:induction false} OverdueMembers<K>(es: map<string, Entity<K>>, ids: seq<string>, after: int, now: int)
    requires forall id :: id in ids ==> id in es
    ensures forall id :: id in Overdue(es, ids, after, now) <==> id in ids && now - es[id].observed > after
  {
    if ids == [] {
    } else {
      OverdueMembers(es, ids[..|ids| - 1], after, now);
      assert ids == ids[..|ids| - 1] + [ids[|ids| - 1]];
    }
  }

  lemma {:induction false} OverdueAscends<K>(es: map<string, Entity<K>>, ids: seq<string>, after: int, now: int)
    requires Strings.Ascending(ids) && forall id :: id in ids ==> id in es
    ensures Strings.Ascending(Overdue(es, ids, after, now))
  {
    if ids == [] {
    } else {
      var n := |ids| - 1;
      OverdueAscends(es, ids[..n], after, now);
      OverdueMembers(es, ids[..n], after, now);
      var rest := Overdue(es, ids[..n], after, now);
      forall k | 0 <= k < |rest| ensures Strings.Before(rest[k], ids[n]) {
        assert rest[k] in ids[..n];
      }
    }
  }

  /** What an eviction leaves. */
  function Unforgotten<K>(m: map<string, Known<K>>, after: int, now: int): map<string, Known<K>> {
    map id | id in m && (after <= 0 || now - m[id].observed <= after) :: m[id]
  }

  lemma NothingForgotten<K>(m: map<string, Known<K>>, after: int, now: int)
    requires after <= 0
    ensures Unforgotten(m, after, now) == m
  {
  }

  // ---------------------------------------------------------------- whole runs

  datatype Op<K> =
    | Observe(id: string, at: int, kpi: K, now: int, arrived: int)
    | Evict(after: int, now: int)
    | Forget(id: string)

  function Apply<K>(rules: Rules<K>, m: map<string, Known<K>>, op: Op<K>): map<string, Known<K>>
    requires rules.limit >= 1
  {
    match op
    case Observe(id, at, kpi, now, arrived) =>
      m[id := Reported(rules, Get(m, id), Sample(Stamp(at, now), kpi), arrived)]
    case Evict(after, now) => Unforgotten(m, after, now)
    case Forget(id) => m - {id}
  }

  function Replay<K>(rules: Rules<K>, ops: seq<Op<K>>): map<string, Known<K>>
    requires rules.limit >= 1
  {
    if ops == [] then map[] else Apply(rules, Replay(rules, ops[..|ops| - 1]), ops[|ops| - 1])
  }

  /** A report as one entity lived it: the sample, and when it arrived. */
  datatype Report<K> = Report(sample: Sample<K>, arrived: int)

  /** The reports that were newer than everything before them. */
  function Maxima<K>(rs: seq<Report<K>>): (ms: seq<Report<K>>)
    ensures rs != [] ==> ms != []
  {
    if rs == [] then []
    else
      var n := |rs| - 1;
      if forall i :: 0 <= i < n ==> rs[i].sample.at < rs[n].sample.at then Maxima(rs[..n]) + [rs[n]]
      else Maxima(rs[..n])
  }

  /** An entity's own reports since it was last created: forgetting it starts over, and so does an
      eviction that finds its last accepted report to have arrived too long ago. */
  function Own<K>(ops: seq<Op<K>>, id: string): seq<Report<K>> {
    if ops == [] then []
    else
      var rs := Own(ops[..|ops| - 1], id);
      match ops[|ops| - 1]
      case Observe(i, at, kpi, now, arrived) =>
        if i == id then rs + [Report(Sample(if at == ZERO_TIME then now else at, kpi), arrived)] else rs
      case Forget(i) => if i == id then [] else rs
      case Evict(after, now) => if after > 0 && rs != [] && now - LastHeard(rs) > after then [] else rs
  }

  function LastHeard<K>(rs: seq<Report<K>>): int
    requires rs != []
  {
    Maxima(rs)[|Maxima(rs)| - 1].arrived
  }

  function Samples<K>(rs: seq<Report<K>>): seq<Sample<K>> {
    seq(|rs|, i requires 0 <= i < |rs| => rs[i].sample)
  }

  /** The state an entity must be in, given its running maxima. */
  function FromMaxima<K>(rules: Rules<K>, ms: seq<Report<K>>): Known<K>
    requires rules.limit >= 1 && ms != []
  {
    var window := Samples(if |ms| > rules.limit then ms[|ms| - rules.limit..] else ms);
    var verdict := if rules.classifier.Some? then rules.classifier.value(window) else UNKNOWN;
    Known(window, verdict, ms[|ms| - 1].sample.at, ms[|ms| - 1].arrived)
  }

  lemma FromMaximaTrims<K>(rules: Rules<K>, ms: seq<Report<K>>)
    requires rules.limit >= 1 && ms != []
    ensures var window := Trim(Samples(ms), rules.limit);
            FromMaxima(rules, ms) ==
              Known(window, Judge(rules, window, UNKNOWN), ms[|ms| - 1].sample.at, ms[|ms| - 1].arrived)
  {
    if |ms| > rules.limit {
      assert Samples(ms[|ms| - rules.limit..]) == Samples(ms)[|ms| - rules.limit..];
    }
  }

  /** The state an entity must be in after a series of reports of its own. */
  function Expected<K>(rules: Rules<K>, rs: seq<Report<K>>): Option<Known<K>>
    requires rules.limit >= 1
  {
    if rs == [] then None else Some(FromMaxima(rules, Maxima(rs)))
  }

  lemma {:induction false} MaximaRise<K>(rs: seq<Report<K>>)
    ensures forall i, j :: 0 <= i < j < |Maxima(rs)| ==> Maxima(rs)[i].sample.at < Maxima(rs)[j].sample.at
    ensures forall i :: 0 <= i < |rs| ==> rs[i].sample.at <= Maxima(rs)[|Maxima(rs)| - 1].sample.at
    ensures forall i :: 0 <= i < |Maxima(rs)| ==> Maxima(rs)[i] in rs
  {
    if rs == [] {
    } else {
      var n := |rs| - 1;
      MaximaRise(rs[..n]);
      assert rs[n] in rs;
    }
  }

  lemma ReportedAsExpected<K>(rules: Rules<K>, rs: seq<Report<K>>, r: Report<K>)
    requires rules.limit >= 1
    ensures Some(Reported(rules, Expected(rules, rs), r.sample, r.arrived)) == Expected(rules, rs + [r])
  {
    if rs == [] {
      FirstReport(rules, r);
      assert rs + [r] == [r];
    } else {
      LaterReport(rules, rs, r);
    }
  }

  lemma FirstReport<K>(rules: Rules<K>, r: Report<K>)
    requires rules.limit >= 1
    ensures Some(Reported(rules, None, r.sample, r.arrived)) == Expected(rules, [r])
  {
    assert Maxima([r]) == [r];
    assert Samples([r]) == [r.sample];
    assert Trim([r.sample], rules.limit) == [r.sample];
    assert [] + [r.sample] == [r.sample];
  }

  lemma MaximaGrow<K>(rs: seq<Report<K>>, r: Report<K>)
    requires rs != []
    ensures Maxima(rs + [r]) == if r.sample.at > Maxima(rs)[|Maxima(rs)| - 1].sample.at then
              Maxima(rs) + [r] else Maxima(rs)
  {
    var all := rs + [r];
    assert all[..|rs|] == rs;
    NewerThanAll(rs, r);
    assert (forall i :: 0 <= i < |rs| ==> all[i].sample.at < r.sample.at)
      <==> (forall i :: 0 <= i < |rs| ==> rs[i].sample.at < r.sample.at);
  }

  lemma NewerThanAll<K>(rs: seq<Report<K>>, r: Report<K>)
    requires rs != []
    ensures (forall i :: 0 <= i < |rs| ==> rs[i].sample.at < r.sample.at)
            <==> Maxima(rs)[|Maxima(rs)| - 1].sample.at < r.sample.at
  {
    MaximaRise(rs);
    var last := Maxima(rs)[|Maxima(rs)| - 1];
    assert last in rs;
    var i :| 0 <= i < |rs| && rs[i] == last;
  }

  lemma TrimTwice<T>(a: seq<T>, x: T, limit: int)
    requires limit >= 1
    ensures Trim(Trim(a, limit) + [x], limit) == Trim(a + [x], limit)
  {
  }

  lemma ReportOnMaxima<K>(rules: Rules<K>, ms: seq<Report<K>>, r: Report<K>)
    requires rules.limit >= 1 && ms != []
    ensures Reported(rules, Some(FromMaxima(rules, ms)), r.sample, r.arrived) ==
            FromMaxima(rules, if r.sample.at > ms[|ms| - 1].sample.at then ms + [r] else ms)
  {
    var window := Trim(Samples(ms), rules.limit);
    assert window[|window| - 1] == ms[|ms| - 1].sample;
    FromMaximaTrims(rules, ms);
    FromMaximaTrims(rules, ms + [r]);
    if r.sample.at > ms[|ms| - 1].sample.at {
      assert Samples(ms + [r]) == Samples(ms) + [r.sample];
      TrimTwice(Samples(ms), r.sample, rules.limit);
    }
  }

  lemma LaterReport<K>(rules: Rules<K>, rs: seq<Report<K>>, r: Report<K>)
    requires rules.limit >= 1 && rs != []
    ensures Some(Reported(rules, Expected(rules, rs), r.sample, r.arrived)) == Expected(rules, rs + [r])
  {
    MaximaGrow(rs, r);
    ReportOnMaxima(rules, Maxima(rs), r);
  }

  /** After any run, what the registry knows of an entity is decided by that entity's own reports: its
      window is the newest `limit` of their running maxima, its verdict the classifier's on that
      window, and its times those of the last accepted report. */
  lemma {:induction false} EntityIsItsOwnHistory<K>(rules: Rules<K>, ops: seq<Op<K>>, id: string)
    requires rules.limit >= 1
    ensures Get(Replay(rules, ops), id) == Expected(rules, Own(ops, id))
  {
    if ops == [] {
    } else {
      var n := |ops| - 1;
      EntityIsItsOwnHistory(rules, ops[..n], id);
      var rs := Own(ops[..n], id);
      if ops[n].Observe? && ops[n].id == id {
        ReportedAsExpected(rules, rs, Report(Sample(Stamp(ops[n].at, ops[n].now), ops[n].kpi), ops[n].arrived));
      }
    }
  }

  /** Every report carries a time of its own. */
  ghost predicate Timed<K>(ops: seq<Op<K>>) {
    forall i :: 0 <= i < |ops| && ops[i].Observe? ==> ops[i].at != ZERO_TIME
  }

  /** An entity's own reports since it was last created, by the times they carry. */
  function OwnAsTimed<K>(ops: seq<Op<K>>, id: string): seq<Report<K>> {
    if ops == [] then []
    else
      var rs := OwnAsTimed(ops[..|ops| - 1], id);
      match ops[|ops| - 1]
      case Observe(i, at, kpi, _, arrived) => if i == id then rs + [Report(Sample(at, kpi), arrived)] else rs
      case Forget(i) => if i == id then [] else rs
      case Evict(after, now) => if after > 0 && rs != [] && now - LastHeard(rs) > after then [] else rs
  }

  lemma {:induction false} OwnTimes<K>(ops: seq<Op<K>>, id: string)
    requires Timed(ops)
    ensures Own(ops, id) == OwnAsTimed(ops, id)
  {
    if ops == [] {
    } else {
      OwnTimes(ops[..|ops| - 1], id);
    }
  }

  /** Reports that carry their times are judged by them, never by the clock: the window holds the newest
      running maxima of the times carried. */
  lemma EntityKeepsReportedTimes<K>(rules: Rules<K>, ops: seq<Op<K>>, id: string)
    requires rules.limit >= 1 && Timed(ops)
    ensures Get(Replay(rules, ops), id) == Expected(rules, OwnAsTimed(ops, id))
  {
    EntityIsItsOwnHistory(rules, ops, id);
    OwnTimes(ops, id);
  }

  /** The same operations, but for the clock at which the reports were made. */
  ghost predicate SameButClock<K>(ops: seq<Op<K>>, ops': seq<Op<K>>) {
    |ops| == |ops'| && forall i :: 0 <= i < |ops| ==> SameReport(ops[i], ops'[i])
  }

  ghost predicate SameReport<K>(op: Op<K>, op': Op<K>) {
    match op
    case Observe(id, at, kpi, _, arrived) =>
      op'.Observe? && op'.id == id && op'.at == at && op'.kpi == kpi && op'.arrived == arrived
    case _ => op' == op
  }

  lemma {:induction false} SameOwn<K>(ops: seq<Op<K>>, ops': seq<Op<K>>, id: string)
    requires SameButClock(ops, ops')
    ensures OwnAsTimed(ops, id) == OwnAsTimed(ops', id)
  {
    if ops == [] {
    } else {
      var n := |ops| - 1;
      SameOwn(ops[..n], ops'[..n], id);
      assert SameReport(ops[n], ops'[n]);
    }
  }

  /** So two runs of timed reports that differ only in the clock leave the same table. */
  lemma ClockDoesNotMatter<K>(rules: Rules<K>, ops: seq<Op<K>>, ops': seq<Op<K>>)
    requires rules.limit >= 1 && Timed(ops) && SameButClock(ops, ops')
    ensures Replay(rules, ops) == Replay(rules, ops')
  {
    forall i | 0 <= i < |ops'| && ops'[i].Observe? ensures ops'[i].at != ZERO_TIME {
      assert SameReport(ops[i], ops'[i]);
    }
    forall id ensures Get(Replay(rules, ops), id) == Get(Replay(rules, ops'), id) {
      EntityKeepsReportedTimes(rules, ops, id);
      EntityKeepsReportedTimes(rules, ops', id);
      SameOwn(ops, ops', id);
    }
    SameLookups(Replay(rules, ops), Replay(rules, ops'));
  }

  lemma SameLookups<V>(m: map<string, V>, m': map<string, V>)
    requires forall k :: Get(m, k) == Get(m', k)
    ensures m == m'
  {
    forall k ensures k in m <==> k in m' {
      assert Get(m, k) == Get(m', k);
    }
    forall k | k in m ensures m[k] == m'[k] {
      assert Get(m, k) == Get(m', k);
    }
  }

  /** The operations that concern one entity. */
  function Concerning<K>(ops: seq<Op<K>>, id: string): seq<Op<K>> {
    if ops == [] then []
    else
      var op := ops[|ops| - 1];
      Concerning(ops[..|ops| - 1], id) + if op.Evict? || op.id == id then [op] else []
  }

  lemma {:induction false} OwnConcerns<K>(ops: seq<Op<K>>, id: string)
    ensures Own(Concerning(ops, id), id) == Own(ops, id)
  {
    if ops == [] {
    } else {
      var n := |ops| - 1;
      OwnConcerns(ops[..n], id);
      var rest := Concerning(ops[..n], id);
      if ops[n].Evict? || ops[n].id == id {
        assert Concerning(ops, id)[..|rest|] == rest;
      } else {
        assert Concerning(ops, id) == rest;
      }
    }
  }

  /** What the registry knows of one entity never depends on what is reported of another. */
  lemma EntitiesAreIndependent<K>(rules: Rules<K>, ops: seq<Op<K>>, ops': seq<Op<K>>, id: string)
    requires rules.limit >= 1 && Concerning(ops, id) == Concerning(ops', id)
    ensures Get(Replay(rules, ops), id) == Get(Replay(rules, ops'), id)
  {
    EntityIsItsOwnHistory(rules, ops, id);
    EntityIsItsOwnHistory(rules, ops', id);
    OwnConcerns(ops, id);
    OwnConcerns(ops', id);
  }

  /** Every window is strictly increasing in time, no longer than the limit, and never empty. */
  lemma WindowsRise<K>(rules: Rules<K>, ops: seq<Op<K>>, id: string)
    requires rules.limit >= 1 && id in Replay(rules, ops)
    ensures var w := Replay(rules, ops)[id].window;
            1 <= |w| <= rules.limit && forall i, j :: 0 <= i < j < |w| ==> w[i].at < w[j].at
  {
    EntityIsItsOwnHistory(rules, ops, id);
    MaximaRise(Own(ops, id));
    LastOfRising(rules, Maxima(Own(ops, id)));
  }

  lemma LastOfRising<K>(rules: Rules<K>, ms: seq<Report<K>>)
    requires rules.limit >= 1 && ms != []
    requires forall i, j :: 0 <= i < j < |ms| ==> ms[i].sample.at < ms[j].sample.at
    ensures var w := FromMaxima(rules, ms).window;
            1 <= |w| <= rules.limit && forall i, j :: 0 <= i < j < |w| ==> w[i].at < w[j].at
  {
  }

  /** An eviction drops exactly the entities whose last accepted report arrived longer ago than the
      period. */
  lemma EvictionDropsTheUnheard<K>(rules: Rules<K>, ops: seq<Op<K>>, after: int, now: int, id: string)
    requires rules.limit >= 1 && after > 0 && id in Replay(rules, ops)
    ensures Own(ops, id) != []
    ensures id !in Replay(rules, ops + [Evict(after, now)]) <==> now - LastHeard(Own(ops, id)) > after
  {
    EntityIsItsOwnHistory(rules, ops, id);
    assert (ops + [Evict(after, now)])[..|ops|] == ops;
  }
}
