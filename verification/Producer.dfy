/** The job table and delivery cadence of r1/producer.go. */
module Producer {
  import opened Wrappers
  import opened Retry

  const DEFAULT_INTERVAL: int := 30 * SECOND
  const MIN_INTERVAL: int := 5 * SECOND

  /** What a job's data says about its interval: nothing, nothing readable, or a number of seconds. */
  datatype JobData = Empty | Undecodable | Asks(seconds: int)

  datatype Job = Job(id: string, target: string, data: JobData, interval: int, nextDue: int)

  function Postponed(j: Job, now: int): Job {
    j.(nextDue := now + j.interval)
  }

  predicate IsDue(j: Job, now: int) {
    now >= j.nextDue
  }

  /** How often a job wants delivery: the producer's own interval unless the job asks for one, and never
      less than the floor. */
  function IntervalOf(interval: int, data: JobData): (d: int)
    ensures interval >= MIN_INTERVAL ==> d >= MIN_INTERVAL
    ensures !data.Asks? || data.seconds <= 0 ==> d == interval
    ensures data.Asks? && data.seconds >= 5 ==> d == data.seconds * 1_000_000_000
    ensures data.Asks? && 1 <= data.seconds < 5 ==> d == 5_000_000_000
    ensures data.Asks? && data.seconds * SECOND >= MIN_INTERVAL ==> d == data.seconds * SECOND
  {
    match data
    case Empty => interval
    case Undecodable => interval
    case Asks(seconds) =>
      if seconds <= 0 then interval
      else if seconds * SECOND < MIN_INTERVAL then MIN_INTERVAL
      else seconds * SECOND
  }

  class Table {
    const interval: int
    var jobs: map<string, Job>

    /** Every interval, the producer's own and each job's, is at least the floor. */
    ghost predicate Valid()
      reads this
    {
      && interval >= MIN_INTERVAL
      && forall id :: id in jobs ==> jobs[id].id == id && jobs[id].interval >= MIN_INTERVAL
    }

    constructor (asked: int)
      ensures Valid() && jobs == map[]
      ensures interval == if asked >= MIN_INTERVAL then asked else DEFAULT_INTERVAL
    {
      interval := if asked >= MIN_INTERVAL then asked else DEFAULT_INTERVAL;
      jobs := map[];
    }

    /** Starts a job, or restarts it; a job without an id or a target is refused. */
    method HandleJobStart(id: string, target: string, data: JobData, now: int) returns (ok: bool)
      requires Valid()
      modifies this
      ensures Valid() && ok == (id != "" && target != "")
      ensures jobs == if ok then old(jobs)[id := Job(id, target, data, IntervalOf(interval, data), now)] else old(jobs)
    {
      if id == "" {
        return false;
      }
      if target == "" {
        return false;
      }
      var job := Job(id, target, data, IntervalOf(interval, data), now);
      jobs := jobs[id := job];
      return true;
    }

    method HandleJobStop(id: string) returns (known: bool)
      requires Valid()
      modifies this
      ensures Valid() && known == (id in old(jobs)) && jobs == old(jobs) - {id}
    {
      known := id in jobs;
      jobs := jobs - {id};
    }

    /** Postpones and returns, in some order and each once, exactly the jobs whose time has come. */
    method Due(now: int) returns (out: seq<Job>)
      requires Valid()
      modifies this
      ensures Valid() && jobs == Swept(old(jobs), now)
      ensures forall i, j :: 0 <= i < j < |out| ==> out[i].id != out[j].id
      ensures forall id :: id in old(jobs) && IsDue(old(jobs)[id], now) ==> jobs[id] in out
      ensures forall j :: j in out ==> j.id in old(jobs) && IsDue(old(jobs)[j.id], now) && j == jobs[j.id]
    {
      out := PostponeDue(now);
    }

    method PostponeDue(now: int) returns (out: seq<Job>)
      requires forall id :: id in jobs ==> jobs[id].id == id
      modifies this
      ensures jobs == Swept(old(jobs), now) && Listed(old(jobs), jobs, {}, out, now)
    {
      ghost var before := jobs;
      out := [];
      var ids := jobs.Keys;
      while ids != {}
        invariant ids <= before.Keys && PartSwept(before, jobs, ids, now)
        invariant Listed(before, jobs, ids, out, now)
      {
        var id :| id in ids;
        var j := jobs[id];
        SweepOne(before, jobs, ids, out, now, id);
        if now >= j.nextDue {
          j := j.(nextDue := now + j.interval);
          jobs := jobs[id := j];
          out := out + [j];
        }
        ids := ids - {id};
      }
      AllSwept(before, jobs, now);
    }
  }

  /** `jobs` is the table after a sweep that has not come to the jobs `ids` yet. */
  ghost predicate PartSwept(before: map<string, Job>, jobs: map<string, Job>, ids: set<string>, now: int) {
    && jobs.Keys == before.Keys
    && forall id :: id in before ==>
         jobs[id] == if id !in ids && IsDue(before[id], now) then Postponed(before[id], now) else before[id]
  }

  lemma AllSwept(before: map<string, Job>, jobs: map<string, Job>, now: int)
    requires PartSwept(before, jobs, {}, now)
    ensures jobs == Swept(before, now)
  {
  }

  /** `out` lists, once each and as postponed, exactly the due jobs not among `ids`. */
  ghost predicate Listed(before: map<string, Job>, jobs: map<string, Job>, ids: set<string>, out: seq<Job>, now: int) {
    && jobs.Keys == before.Keys
    && (forall j :: j in out ==> j.id in before && j.id !in ids && IsDue(before[j.id], now) && j == jobs[j.id])
    && (forall id :: id in before && id !in ids && IsDue(before[id], now) ==> jobs[id] in out)
    && (forall i, j :: 0 <= i < j < |out| ==> out[i].id != out[j].id)
  }

  lemma ListedStep(before: map<string, Job>, jobs: map<string, Job>, ids: set<string>, out: seq<Job>, now: int,
                   id: string)
    requires Listed(before, jobs, ids, out, now) && id in ids && id in before && IsDue(before[id], now)
    requires jobs[id] == before[id] && before[id].id == id
    ensures Listed(before, jobs[id := Postponed(before[id], now)], ids - {id}, out + [Postponed(before[id], now)], now)
  {
    assert forall i :: 0 <= i < |out| ==> out[i] in out;
  }

  lemma SweepOne(before: map<string, Job>, jobs: map<string, Job>, ids: set<string>, out: seq<Job>, now: int,
                 id: string)
    requires ids <= before.Keys && id in ids && before[id].id == id
    requires PartSwept(before, jobs, ids, now) && Listed(before, jobs, ids, out, now)
    ensures jobs[id] == before[id]
    ensures var due := IsDue(before[id], now); var j := Postponed(before[id], now);
            var jobs' := if due then jobs[id := j] else jobs;
            && PartSwept(before, jobs', ids - {id}, now)
            && Listed(before, jobs', ids - {id}, if due then out + [j] else out, now)
  {
    if IsDue(before[id], now) {
      ListedStep(before, jobs, ids, out, now, id);
    }
  }

  /** The table after one sweep. */
  function Swept(jobs: map<string, Job>, now: int): map<string, Job> {
    map id | id in jobs :: if IsDue(jobs[id], now) then Postponed(jobs[id], now) else jobs[id]
  }

  // ---------------------------------------------------------------- whole runs

  datatype Op =
    | Start(id: string, target: string, data: JobData, now: int)
    | Stop(id: string)
    | Sweep(now: int)

  function Apply(interval: int, jobs: map<string, Job>, op: Op): map<string, Job> {
    match op
    case Start(id, target, data, now) =>
      if id != "" && target != "" then jobs[id := Job(id, target, data, IntervalOf(interval, data), now)] else jobs
    case Stop(id) => jobs - {id}
    case Sweep(now) => Swept(jobs, now)
  }

  function After(interval: int, jobs: map<string, Job>, ops: seq<Op>): map<string, Job> {
    if ops == [] then jobs else Apply(interval, After(interval, jobs, ops[..|ops| - 1]), ops[|ops| - 1])
  }

  /** The times at which a run of operations returns one job as due. */
  function Deliveries(interval: int, jobs: map<string, Job>, ops: seq<Op>, id: string): seq<int> {
    if ops == [] then []
    else
      var n := |ops| - 1;
      var table := After(interval, jobs, ops[..n]);
      Deliveries(interval, jobs, ops[..n], id)
      + if ops[n].Sweep? && id in table && IsDue(table[id], ops[n].now) then [ops[n].now] else []
  }

  /** The job is neither restarted nor stopped. */
  ghost predicate LeftAlone(ops: seq<Op>, id: string) {
    forall i :: 0 <= i < |ops| && !ops[i].Sweep? ==> ops[i].id != id
  }

  function Last(s: seq<int>): int
    requires s != []
  {
    s[|s| - 1]
  }

  ghost predicate Spaced(d: seq<int>, interval: int) {
    forall i :: 0 < i < |d| ==> d[i] - d[i - 1] >= interval
  }

  lemma JobStep(interval: int, table: map<string, Job>, op: Op, id: string)
    requires id in table && (op.Sweep? || op.id != id)
    ensures id in Apply(interval, table, op)
    ensures Apply(interval, table, op)[id] ==
            if op.Sweep? && IsDue(table[id], op.now) then Postponed(table[id], op.now) else table[id]
  {
  }

  lemma {:induction false} DeliveriesSpaced(interval: int, jobs: map<string, Job>, ops: seq<Op>, id: string)
    requires id in jobs && LeftAlone(ops, id)
    ensures var d := Deliveries(interval, jobs, ops, id); var table := After(interval, jobs, ops);
            && id in table && table[id].interval == jobs[id].interval
            && table[id].nextDue == (if d == [] then jobs[id].nextDue else Last(d) + jobs[id].interval)
            && Spaced(d, jobs[id].interval)
  {
    if ops == [] {
    } else {
      var n := |ops| - 1;
      DeliveriesSpaced(interval, jobs, ops[..n], id);
      JobStep(interval, After(interval, jobs, ops[..n]), ops[n], id);
    }
  }

  /** Sweeps follow one another within `delta`; `last` is the sweep before the first of them. */
  ghost predicate Prompt(ops: seq<Op>, last: int, delta: int) {
    ops != [] ==>
      var n := |ops| - 1;
      Prompt(ops[..n], last, delta) && (ops[n].Sweep? ==> ops[n].now - LastSweep(ops[..n], last) <= delta)
  }

  function LastSweep(ops: seq<Op>, last: int): int {
    if ops == [] then last
    else if ops[|ops| - 1].Sweep? then ops[|ops| - 1].now
    else LastSweep(ops[..|ops| - 1], last)
  }

  /** What one more operation delivers of a job left alone. */
  lemma DeliveredBy(interval: int, jobs: map<string, Job>, ops: seq<Op>, id: string)
    requires id in jobs && LeftAlone(ops, id) && ops != []
    ensures var n := |ops| - 1; var d := Deliveries(interval, jobs, ops[..n], id);
            var next := if d == [] then jobs[id].nextDue else Last(d) + jobs[id].interval;
            Deliveries(interval, jobs, ops, id) == if ops[n].Sweep? && ops[n].now >= next then d + [ops[n].now] else d
  {
    DeliveriesSpaced(interval, jobs, ops[..|ops| - 1], id);
  }

  lemma {:induction false} DeliveriesPrompt(interval: int, jobs: map<string, Job>, ops: seq<Op>, id: string,
                                            last: int, delta: int)
    requires id in jobs && LeftAlone(ops, id) && Prompt(ops, last, delta) && jobs[id].interval > 0
    ensures var d := Deliveries(interval, jobs, ops, id);
            && Close(d, jobs[id].interval, delta)
            && (d != [] ==> LastSweep(ops, last) < Last(d) + jobs[id].interval)
  {
    if ops == [] {
    } else {
      var n := |ops| - 1;
      var op, d := ops[n], Deliveries(interval, jobs, ops[..n], id);
      DeliveriesPrompt(interval, jobs, ops[..n], id, last, delta);
      DeliveredBy(interval, jobs, ops, id);
      if op.Sweep? {
        PromptSweep(d, jobs[id].interval, delta, LastSweep(ops[..n], last), op.now);
      }
    }
  }

  ghost predicate Close(d: seq<int>, interval: int, delta: int) {
    forall i :: 0 < i < |d| ==> d[i] - d[i - 1] < interval + delta
  }

  /** A delivery by a sweep within `delta` of the one before stays close to the last delivery. */
  lemma PromptSweep(d: seq<int>, interval: int, delta: int, before: int, now: int)
    requires Close(d, interval, delta) && interval > 0 && now - before <= delta
    requires d != [] ==> before < Last(d) + interval
    ensures Close(d + [now], interval, delta)
    ensures Last(d + [now]) == now
  {
  }

  /** Successive deliveries of a job left alone are at least its interval apart, and less than its
      interval plus the longest gap between sweeps. */
  lemma CadenceKept(interval: int, jobs: map<string, Job>, ops: seq<Op>, id: string, last: int, delta: int, i: nat)
    requires id in jobs && LeftAlone(ops, id) && Prompt(ops, last, delta) && jobs[id].interval > 0
    requires 0 < i < |Deliveries(interval, jobs, ops, id)|
    ensures var d := Deliveries(interval, jobs, ops, id);
            jobs[id].interval <= d[i] - d[i - 1] < jobs[id].interval + delta
  {
    DeliveriesSpaced(interval, jobs, ops, id);
    DeliveriesPrompt(interval, jobs, ops, id, last, delta);
  }

  /** The deliveries in a closed window. */
  function CountIn(d: seq<int>, from: int, to: int): nat {
    if d == [] then 0 else CountIn(d[..|d| - 1], from, to) + if from <= Last(d) <= to then 1 else 0
  }

  lemma {:induction false} NoneIn(d: seq<int>, from: int, to: int, interval: int)
    requires Spaced(d, interval) && interval > 0 && (d != [] ==> Last(d) < from)
    ensures CountIn(d, from, to) == 0
  {
    if d == [] {
    } else {
      NoneIn(d[..|d| - 1], from, to, interval);
    }
  }

  lemma {:induction false} CountSpaced(d: seq<int>, from: int, to: int, interval: int)
    requires Spaced(d, interval) && interval > 0 && from <= to
    ensures d != [] && from <= Last(d) <= to ==> (CountIn(d, from, to) - 1) * interval <= Last(d) - from
    ensures (CountIn(d, from, to) - 1) * interval <= to - from
  {
    if d == [] {
    } else {
      var e := d[..|d| - 1];
      CountSpaced(e, from, to, interval);
      if from <= Last(d) <= to {
        if e == [] || Last(e) < from {
          NoneIn(e, from, to, interval);
        } else {
          OneMoreInterval(CountIn(e, from, to), interval, Last(e) - from, Last(d) - from);
        }
      }
    }
  }

  lemma OneMoreInterval(k: int, b: int, before: int, now: int)
    requires (k - 1) * b <= before && now - before >= b
    ensures k * b <= now
  {
    assert k * b == (k - 1) * b + b;
  }

  /** Any closed window of length `length` sees at most length / interval + 1 deliveries of a job left
      alone. */
  lemma DeliveriesRationed(interval: int, jobs: map<string, Job>, ops: seq<Op>, id: string, from: int, length: nat)
    requires id in jobs && LeftAlone(ops, id) && jobs[id].interval > 0
    ensures CountIn(Deliveries(interval, jobs, ops, id), from, from + length) <= length / jobs[id].interval + 1
  {
    var d := Deliveries(interval, jobs, ops, id);
    DeliveriesSpaced(interval, jobs, ops, id);
    CountSpaced(d, from, from + length, jobs[id].interval);
    AtMostQuotient(CountIn(d, from, from + length) - 1, jobs[id].interval, length);
  }

  lemma AtMostQuotient(k: int, b: int, a: nat)
    requires b > 0 && k * b <= a
    ensures k <= a / b
  {
    var q := a / b;
    assert (k - q) * b < b by {
      assert a == b * q + a % b;
    }
    if k > q {
      TimesAtLeast(k - q, b);
    }
  }

  /** In every reachable table every job's interval is at least the floor. */
  lemma {:induction false} IntervalsAtLeastFloor(interval: int, ops: seq<Op>, id: string)
    requires interval >= MIN_INTERVAL && id in After(interval, map[], ops)
    ensures After(interval, map[], ops)[id].interval >= MIN_INTERVAL
  {
    if ops == [] {
    } else {
      var n := |ops| - 1;
      if id in After(interval, map[], ops[..n]) {
        IntervalsAtLeastFloor(interval, ops[..n], id);
      }
    }
  }
}
