/** The cooldown guard of analytics/cooldown.go, and what it promises over whole runs. */
module Cooldown {

  type Key = string

  function Left(period: int, last: map<Key, int>, key: Key, at: int): (d: int)
    ensures d >= 0
  {
    if period > 0 && key in last && at - last[key] < period then period - (at - last[key]) else 0
  }

  /** The keys `Evict` keeps. */
  function Recent(period: int, last: map<Key, int>, at: int): map<Key, int> {
    map k | k in last && at - last[k] <= period * 2 :: last[k]
  }

  class Guard {
    const period: int
    var last: map<Key, int>

    constructor (period: int)
      ensures this.period == period && last == map[]
    {
      this.period := period;
      last := map[];
    }

    method Allow(key: Key, at: int) returns (ok: bool)
      ensures ok <==> Left(period, last, key, at) == 0
    {
      if period <= 0 {
        return true;
      }
      return key !in last || at - last[key] >= period;
    }

    method Take(key: Key, at: int) returns (ok: bool)
      modifies this
      ensures ok <==> Left(period, old(last), key, at) == 0
      ensures last == if ok then old(last)[key := at] else old(last)
    {
      ok := Allow(key, at);
      if !ok {
        return;
      }
      last := last[key := at];
    }

    method Mark(key: Key, at: int)
      modifies this
      ensures last == old(last)[key := at]
    {
      last := last[key := at];
    }

    method Remaining(key: Key, at: int) returns (d: int)
      ensures d == Left(period, last, key, at)
    {
      if period <= 0 {
        return 0;
      }
      if key !in last {
        return 0;
      }
      var elapsed := at - last[key];
      if elapsed < period {
        return period - elapsed;
      }
      return 0;
    }

    method Clear(key: Key)
      modifies this
      ensures last == old(last) - {key}
    {
      last := last - {key};
    }

    method Evict(at: int) returns (dropped: nat)
      modifies this
      ensures last == Recent(period, old(last), at)
      ensures dropped == |old(last)| - |last|
    {
      ghost var before := last;
      var keys := last.Keys;
      dropped := 0;
      while keys != {}
        invariant keys <= last.Keys <= before.Keys
        invariant forall k :: k in last ==> last[k] == before[k]
        invariant forall k :: k in before && k !in keys ==> (k in last <==> at - before[k] <= period * 2)
        invariant dropped == |before| - |last|
      {
        var key :| key in keys;
        keys := keys - {key};
        if at - last[key] > period * 2 {
          assert (last - {key}).Keys == last.Keys - {key};
          last := last - {key};
          dropped := dropped + 1;
        }
      }
      assert last == Recent(period, before, at);
    }
  }

  // ---------------------------------------------------------------- whole runs

  datatype Op =
    | Allow(key: Key, at: int)
    | Take(key: Key, at: int)
    | Mark(key: Key, at: int)
    | Remaining(key: Key, at: int)
    | Clear(key: Key)
    | Evict(at: int)

  /** What an operation leaves of the guard's map, and what it answers: the remaining time found, and
      nothing for the operations that answer nothing about a key. */
  function After(period: int, last: map<Key, int>, op: Op): map<Key, int> {
    match op
    case Take(key, at) => if Left(period, last, key, at) == 0 then last[key := at] else last
    case Mark(key, at) => last[key := at]
    case Clear(key) => last - {key}
    case Evict(at) => Recent(period, last, at)
    case _ => last
  }

  function Answer(period: int, last: map<Key, int>, op: Op): int {
    match op
    case Allow(key, at) => Left(period, last, key, at)
    case Take(key, at) => Left(period, last, key, at)
    case Remaining(key, at) => Left(period, last, key, at)
    case _ => 0
  }

  function Replay(period: int, ops: seq<Op>): map<Key, int> {
    if ops == [] then map[] else After(period, Replay(period, ops[..|ops| - 1]), ops[|ops| - 1])
  }

  predicate Timed(op: Op) {
    !op.Clear?
  }

  /** The clock never runs backwards. */
  ghost predicate Ordered(ops: seq<Op>) {
    forall i, j :: 0 <= i < j < |ops| && Timed(ops[i]) && Timed(ops[j]) ==> ops[i].at <= ops[j].at
  }

  /** Operation `i` is a Mark or successful Take of this key. */
  predicate Acts(period: int, ops: seq<Op>, i: nat, key: Key)
    requires i < |ops|
  {
    (ops[i].Mark? && ops[i].key == key)
    || (ops[i].Take? && ops[i].key == key && Left(period, Replay(period, ops[..i]), key, ops[i].at) == 0)
  }

  predicate ClearedSince(ops: seq<Op>, i: nat, key: Key)
    requires i < |ops|
  {
    exists j :: i < j < |ops| && ops[j] == Clear(key)
  }

  /** Every earlier action on a key, unless cleared since, is remembered by a mark at least as late, or
      was forgotten by an eviction more than two periods after it. */
  ghost predicate Remembered(period: int, ops: seq<Op>, key: Key, now: int)
  {
    forall i: nat :: i < |ops| && Acts(period, ops, i, key) && !ClearedSince(ops, i, key) ==>
      var last := Replay(period, ops);
      if key in last then ops[i].at <= last[key] else now - ops[i].at > period * 2
  }

  lemma ActsPrefix(period: int, ops: seq<Op>, i: nat, key: Key)
    requires i < |ops| - 1
    ensures Acts(period, ops[..|ops| - 1], i, key) == Acts(period, ops, i, key)
  {
    assert ops[..|ops| - 1][..i] == ops[..i];
  }

  lemma ClearedStays(ops: seq<Op>, i: nat, key: Key)
    requires i < |ops| - 1 && ClearedSince(ops[..|ops| - 1], i, key)
    ensures ClearedSince(ops, i, key)
  {
    var j :| i < j < |ops| - 1 && ops[..|ops| - 1][j] == Clear(key);
    assert ops[j] == Clear(key);
  }

  lemma {:induction false} RunRemembers(period: int, ops: seq<Op>, key: Key, now: int)
    requires period > 0 && Ordered(ops) && (forall i :: 0 <= i < |ops| && Timed(ops[i]) ==> ops[i].at <= now)
    ensures Remembered(period, ops, key, now)
    ensures key in Replay(period, ops) ==> Replay(period, ops)[key] <= now
  {
    if ops == [] {
    } else {
      var n := |ops| - 1;
      var prev := if Timed(ops[n]) then ops[n].at else now;
      RunRemembers(period, ops[..n], key, prev);
      var before, last := Replay(period, ops[..n]), Replay(period, ops);
      forall i: nat | i < |ops| && Acts(period, ops, i, key) && !ClearedSince(ops, i, key)
        ensures if key in last then ops[i].at <= last[key] else now - ops[i].at > period * 2
      {
        if i < n {
          ActsPrefix(period, ops, i, key);
          if ClearedSince(ops[..n], i, key) {
            ClearedStays(ops, i, key);
          }
          assert ops[n] != Clear(key);
        }
      }
    }
  }

  /** A successful Take comes at least a full period after every earlier Take or Mark of the same key
      that has not been cleared since. */
  lemma TakesAreSpaced(period: int, ops: seq<Op>, i: nat, n: nat, key: Key)
    requires period > 0 && Ordered(ops) && i < n < |ops|
    requires Acts(period, ops, i, key) && !ClearedSince(ops[..n], i, key)
    requires ops[n].Take? && Acts(period, ops, n, key)
    ensures ops[n].at - ops[i].at >= period
  {
    RunRemembers(period, ops[..n], key, ops[n].at);
    assert ops[..n][..i] == ops[..i];
    assert Acts(period, ops[..n], i, key);
  }

  /** The mark of a key is its latest Take or Mark that has not been cleared. */
  lemma {:induction false} MarkIsAct(period: int, ops: seq<Op>, key: Key) returns (i: nat)
    requires key in Replay(period, ops)
    ensures i < |ops| && Acts(period, ops, i, key) && !ClearedSince(ops, i, key) &&
              ops[i].at == Replay(period, ops)[key]
  {
    var n := |ops| - 1;
    if Acts(period, ops, n, key) {
      i := n;
    } else {
      i := MarkIsAct(period, ops[..n], key);
      ActsPrefix(period, ops, i, key);
      assert forall j :: i < j < n ==> ops[..n][j] == ops[j];
    }
  }

  /** So a Take succeeds if and only if every earlier Take or Mark of the key that has not been cleared is
      at least a full period ago. */
  lemma TakesExactly(period: int, ops: seq<Op>, n: nat, key: Key)
    requires period > 0 && Ordered(ops) && n < |ops| && ops[n].Take? && ops[n].key == key
    ensures Acts(period, ops, n, key) <==>
              forall i: nat :: i < n && Acts(period, ops, i, key) && !ClearedSince(ops[..n], i, key) ==>
                ops[n].at - ops[i].at >= period
  {
    if Acts(period, ops, n, key) {
      forall i: nat | i < n && Acts(period, ops, i, key) && !ClearedSince(ops[..n], i, key)
        ensures ops[n].at - ops[i].at >= period
      {
        TakesAreSpaced(period, ops, i, n, key);
      }
    } else {
      var i := MarkIsAct(period, ops[..n], key);
      assert ops[..n][..i] == ops[..i];
      assert Acts(period, ops, i, key);
    }
  }

  /** What remains is the exact wait: the key is free from then on, and at no time before. */
  lemma RemainingIsExact(period: int, last: map<Key, int>, key: Key, at: int, later: int)
    requires at <= later
    ensures Left(period, last, key, later) == 0 <==> later >= at + Left(period, last, key, at)
  {
  }

  // ---------------------------------------------------------------- eviction is invisible

  /** `thin` lacks only keys that have been free, and will be, for as long as anyone can ask. */
  ghost predicate Thinned(period: int, full: map<Key, int>, thin: map<Key, int>, now: int) {
    && (forall k :: k in thin ==> k in full && thin[k] == full[k])
    && (forall k :: k in full && k !in thin ==> period <= 0 || now - full[k] >= period)
  }

  lemma ThinnedAnswers(period: int, full: map<Key, int>, thin: map<Key, int>, now: int, key: Key, at: int)
    requires Thinned(period, full, thin, now) && now <= at
    ensures Left(period, full, key, at) == Left(period, thin, key, at)
  {
  }

  /** The operations without the evictions. */
  function WithoutEvictions(ops: seq<Op>): seq<Op> {
    if ops == [] then []
    else WithoutEvictions(ops[..|ops| - 1]) + if ops[|ops| - 1].Evict? then [] else [ops[|ops| - 1]]
  }

  /** The answers of a run, evictions aside. */
  function Answers(period: int, ops: seq<Op>): seq<int> {
    if ops == [] then []
    else
      var n := |ops| - 1;
      Answers(period, ops[..n]) + if ops[n].Evict? then [] else [Answer(period, Replay(period, ops[..n]), ops[n])]
  }

  lemma {:induction false} EvictionsThin(period: int, ops: seq<Op>, now: int)
    requires Ordered(ops) && (forall i :: 0 <= i < |ops| && Timed(ops[i]) ==> ops[i].at <= now)
    ensures Thinned(period, Replay(period, WithoutEvictions(ops)), Replay(period, ops), now)
    ensures Answers(period, ops) == Answers(period, WithoutEvictions(ops))
  {
    if ops == [] {
    } else {
      var n := |ops| - 1;
      var op := ops[n];
      var prev := if Timed(op) then op.at else now;
      EvictionsThin(period, ops[..n], prev);
      var rest := WithoutEvictions(ops[..n]);
      if !op.Evict? {
        assert WithoutEvictions(ops)[..|rest|] == rest;
        ThinnedStep(period, Replay(period, rest), Replay(period, ops[..n]), op, prev, now);
      } else {
        assert rest + [] == rest;
        EvictThins(period, Replay(period, rest), Replay(period, ops[..n]), prev, now);
        assert Answers(period, ops[..n]) + [] == Answers(period, ops[..n]);
      }
    }
  }

  lemma ThinnedStep(period: int, full: map<Key, int>, thin: map<Key, int>, op: Op, prev: int, now: int)
    requires Thinned(period, full, thin, prev) && !op.Evict? && (Timed(op) ==> prev == op.at) && prev <= now
    ensures Thinned(period, After(period, full, op), After(period, thin, op), now)
    ensures Answer(period, full, op) == Answer(period, thin, op)
  {
    if Timed(op) {
      ThinnedAnswers(period, full, thin, prev, op.key, op.at);
    }
  }

  lemma EvictThins(period: int, full: map<Key, int>, thin: map<Key, int>, at: int, now: int)
    requires Thinned(period, full, thin, at) && at <= now
    ensures Thinned(period, full, Recent(period, thin, at), now)
  {
  }

  /** Evicting, any number of times and anywhere in a run whose clock does not run backwards, changes
      no answer of Allow, Take or Remaining. */
  lemma EvictionIsInvisible(period: int, ops: seq<Op>)
    requires Ordered(ops)
    ensures Answers(period, ops) == Answers(period, WithoutEvictions(ops))
  {
    var now := LatestOf(ops);
    EvictionsThin(period, ops, now);
  }

  lemma {:induction false} LatestOf(ops: seq<Op>) returns (now: int)
    ensures forall i :: 0 <= i < |ops| && Timed(ops[i]) ==> ops[i].at <= now
  {
    now := 0;
    if ops != [] {
      now := LatestOf(ops[..|ops| - 1]);
      if Timed(ops[|ops| - 1]) && ops[|ops| - 1].at > now {
        now := ops[|ops| - 1].at;
      }
    }
  }

  /** Operations that leave a key alone: no claim of it, no clearing of it, and no eviction. */
  predicate LeavesAlone(op: Op, key: Key) {
    op.Allow? || op.Remaining? || ((op.Take? || op.Mark? || op.Clear?) && op.key != key)
  }

  lemma {:induction false} LeftAlone(period: int, ops: seq<Op>, more: seq<Op>, key: Key)
    requires forall i :: 0 <= i < |more| ==> LeavesAlone(more[i], key)
    ensures var was, last := Replay(period, ops), Replay(period, ops + more);
            (key in last <==> key in was) && (key in was ==> last[key] == was[key])
  {
    if more == [] {
      assert ops + [] == ops;
    } else {
      var n := |more| - 1;
      LeftAlone(period, ops, more[..n], key);
      assert (ops + more)[..|ops| + n] == ops + more[..n];
      assert (ops + more)[|ops| + n] == more[n];
    }
  }

  /** Whatever the clock does: after any run, one eviction at `at` is invisible to a later query of a key
      left alone since if and only if the key was kept or is free when asked. */
  lemma EvictionVisibleExactly(period: int, ops: seq<Op>, at: int, more: seq<Op>, key: Key, when: int)
    requires forall i :: 0 <= i < |more| ==> LeavesAlone(more[i], key)
    ensures var last := Replay(period, ops);
            Left(period, Replay(period, ops + [Evict(at)] + more), key, when) ==
              Left(period, Replay(period, ops + more), key, when)
            <==> period <= 0 || key !in last || at - last[key] <= period * 2 || when - last[key] >= period
  {
    LeftAlone(period, ops, more, key);
    LeftAlone(period, ops + [Evict(at)], more, key);
    assert (ops + [Evict(at)])[..|ops|] == ops;
  }
}
