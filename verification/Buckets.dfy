/** The ring of wall-clock slots of analytics/buckets.go against a plain log of the events added.
    Times are nanoseconds since the Unix epoch; values are reals. */
module Buckets {
  import opened Wrappers
  import opened Retry
  import Ingest

  const ZERO_TIME := Ingest.ZERO_TIME

  /** The values of one slot; None is the nil map of a slot never used. */
  datatype Bucket = Bucket(start: int, values: Option<map<string, real>>)

  datatype Event = Event(at: int, field: string, v: real)

  /** The shape of a ring. */
  datatype Shape = Shape(width: int, count: int) {
    predicate Proper() {
      width > 0 && count >= 1
    }

    /** `Truncate`: rounds down to a multiple of the width counted from the zero time. */
    function Start(at: int): (s: int)
      requires Proper()
      ensures s <= at < s + width && (s - ZERO_TIME) % width == 0
    {
      Multiples(at - ZERO_TIME, width);
      at - (at - ZERO_TIME) % width
    }

    /** The division and remainder of the source truncate towards zero. */
    function IndexOf(start: int): (i: int)
      requires Proper()
      ensures 0 <= i < count
      ensures i == Quotient(start, width) % count
    {
      var slot := Quotient(start, width);
      var index := if slot >= 0 then slot % count else -((-slot) % count);
      if slot < 0 then
        NegativeRemainder(slot, count);
        if index < 0 then index + count else index
      else index
    }
  }

  function Quotient(a: int, b: int): int
    requires b > 0
  {
    if a >= 0 then a / b else -((-a) / b)
  }

  lemma Multiples(a: int, b: int)
    requires b > 0
    ensures (a - a % b) % b == 0
  {
    ModUnique(a - a % b, b, a / b, 0);
  }

  lemma ModUnique(a: int, b: int, q: int, r: int)
    requires b > 0 && a == q * b + r && 0 <= r < b
    ensures a / b == q && a % b == r
  {
    var d := a / b - q;
    assert d * b == r - a % b by {
      assert a == b * (a / b) + a % b;
    }
    assert -b < d * b < b;
    if d > 0 {
      TimesAtLeast(d, b);
    } else if d < 0 {
      TimesAtLeast(-d, b);
    }
  }

  lemma NegativeRemainder(a: int, b: int)
    requires b > 0 && a < 0
    ensures var i := -((-a) % b); a % b == if i < 0 then i + b else i
  {
    var q, r := (-a) / b, (-a) % b;
    if r == 0 {
      ModUnique(a, b, -q, 0);
    } else {
      ModUnique(a, b, -q - 1, b - r);
    }
  }

  // ---------------------------------------------------------------- which slots share a place

  lemma QuotientShift(s: int, k: int, w: int)
    requires w > 0 && k >= 0
    ensures s >= 0 ==> Quotient(s + k * w, w) == Quotient(s, w) + k
    ensures s + k * w <= 0 ==> Quotient(s + k * w, w) == Quotient(s, w) + k
  {
    assert k * w >= 0;
    if s >= 0 {
      ModUnique(s + k * w, w, s / w + k, s % w);
    } else if s + k * w <= 0 {
      var t := s + k * w;
      ModUnique(-t + k * w, w, (-t) / w + k, (-t) % w);
      if t == 0 {
        ModUnique(0, w, 0, 0);
      }
    }
  }

  /** Across the epoch the truncating division loses one step, unless the epoch is a slot boundary. */
  lemma QuotientAcross(s: int, k: int, w: int)
    requires w > 0 && k >= 0 && s < 0 < s + k * w
    ensures Quotient(s + k * w, w) == Quotient(s, w) + if s % w == 0 then k else k - 1
  {
    var q, r := (-s) / w, (-s) % w;
    Products(k, q, w);
    if r == 0 {
      ModUnique(s, w, -q, 0);
      ModUnique(s + k * w, w, k - q, 0);
    } else {
      ModUnique(s, w, -q - 1, w - r);
      ModUnique(s + k * w, w, k - q - 1, w - r);
    }
  }

  lemma Products(k: int, q: int, w: int)
    ensures (k - q) * w == k * w - q * w && (k - q - 1) * w == k * w - q * w - w
    ensures (-q) * w == -(q * w) && (-q - 1) * w == -(q * w) - w
  {
  }

  lemma SameRemainder(a: int, d: int, n: int)
    requires n > 0 && 0 <= d < n
    ensures (a + d) % n == a % n <==> d == 0
  {
    var q, r := a / n, a % n;
    if r + d < n {
      ModUnique(a + d, n, q, r + d);
    } else {
      ModUnique(a + d, n, q + 1, r + d - n);
    }
  }

  /** Two different slots less than a window apart share a place in the ring only when they are the two
      on either side of the epoch and the epoch is not a slot boundary. */
  lemma AliasExactly(shape: Shape, s: int, k: int)
    requires shape.Proper() && 0 < k < shape.count
    ensures shape.IndexOf(s) == shape.IndexOf(s + k * shape.width) <==> k == 1 && s < 0 < s + shape.width
  {
    var w := shape.width;
    TimesAtLeast(k, w);
    if s >= 0 || s + k * w <= 0 {
      QuotientShift(s, k, w);
      SameRemainder(Quotient(s, w), k, shape.count);
    } else {
      QuotientAcross(s, k, w);
      if s % w == 0 {
        assert -s >= w by { NegativeMultiple(s, w); }
        SameRemainder(Quotient(s, w), k, shape.count);
      } else {
        SameRemainder(Quotient(s, w), k - 1, shape.count);
      }
    }
  }

  lemma NegativeMultiple(s: int, w: int)
    requires w > 0 && s < 0 && s % w == 0
    ensures -s >= w
  {
    if -s < w {
      ModUnique(s, w, -1, s + w);
    }
  }

  // ---------------------------------------------------------------- the ring

  function Lookup(values: map<string, real>, field: string): real {
    if field in values then values[field] else 0.0
  }

  function Used(values: Option<map<string, real>>): map<string, real> {
    if values.Some? then values.value else map[]
  }

  /** What place `i` of the ring holds after a log of events: the slot of the last event that fell
      there, with the sums since that slot last took the place over. */
  function Place(shape: Shape, log: seq<Event>, i: int): Bucket
    requires shape.Proper()
  {
    if log == [] then Bucket(ZERO_TIME, None)
    else
      var e := log[|log| - 1];
      var before := Place(shape, log[..|log| - 1], i);
      var start := shape.Start(e.at);
      if shape.IndexOf(start) != i then before
      else
        var values := if before.start == start then Used(before.values) else map[];
        Bucket(start, Some(values[e.field := Lookup(values, e.field) + e.v]))
  }

  /** What `Window` shows for a slot: its place, if the place still belongs to it. */
  function Shown(shape: Shape, log: seq<Event>, start: int): map<string, real>
    requires shape.Proper()
  {
    var p := Place(shape, log, shape.IndexOf(start));
    if p.start == start then Used(p.values) else map[]
  }

  /** The start of the j-th slot of the window that ends at `now`, oldest first. */
  function WindowStart(shape: Shape, now: int, j: int): int
    requires shape.Proper()
  {
    shape.Start(now) - (shape.count - 1 - j) * shape.width
  }

  function WindowTotal(shape: Shape, log: seq<Event>, now: int, field: string, n: nat): real
    requires shape.Proper()
  {
    if n == 0 then 0.0
    else WindowTotal(shape, log, now, field, n - 1) + Lookup(Shown(shape, log, WindowStart(shape, now, n - 1)), field)
  }

  class Ring {
    const shape: Shape
    const slots: array<Bucket>
    const starts: array<int>

    ghost var log: seq<Event>

    ghost predicate Valid()
      reads this, slots, starts
    {
      && shape.Proper() && slots.Length == starts.Length == shape.count
      && (forall e :: e in log ==> shape.Start(e.at) != ZERO_TIME)
      && forall i :: 0 <= i < shape.count ==>
           starts[i] == Place(shape, log, i).start && slots[i].values == Place(shape, log, i).values
    }

    constructor (width: int, count: int)
      ensures Valid() && fresh(slots) && fresh(starts) && log == []
      ensures shape == Shape(if width <= 0 then 3600 * SECOND else width, if count < 1 then 1 else count)
    {
      shape := Shape(if width <= 0 then 3600 * SECOND else width, if count < 1 then 1 else count);
      var n := if count < 1 then 1 else count;
      slots := new Bucket[n](_ => Bucket(ZERO_TIME, None));
      starts := new int[n](_ => ZERO_TIME);
      log := [];
    }

    /** The slot that begins at the zero time itself has no map to add to, so no event may fall there;
        `UnixNano` is not defined that far back either. */
    method Add(at: int, field: string, v: real)
      requires Valid() && shape.Start(at) != ZERO_TIME
      modifies slots, starts, this`log
      ensures Valid() && log == old(log) + [Event(at, field, v)]
    {
      var index := SlotFor(at);
      var values := slots[index].values.value;
      slots[index] := slots[index].(values := Some(values[field := Lookup(values, field) + v]));
      log := log + [Event(at, field, v)];
      assert log[..|log| - 1] == old(log);
    }

    /** The place of a timestamp's slot, taken over first if it still belongs to another. */
    method SlotFor(at: int) returns (index: int)
      requires Valid() && shape.Start(at) != ZERO_TIME
      modifies slots, starts
      ensures index == shape.IndexOf(shape.Start(at)) && starts[index] == shape.Start(at)
      ensures var p := Place(shape, log, index);
              slots[index].values == Some(if p.start == shape.Start(at) then Used(p.values) else map[])
      ensures forall i :: 0 <= i < shape.count && i != index ==>
                slots[i] == old(slots[i]) && starts[i] == old(starts[i])
    {
      var start := shape.Start(at);
      index := shape.IndexOf(start);
      PlaceUsed(shape, log, index);
      if starts[index] != start {
        starts[index] := start;
        slots[index] := Bucket(start, Some(map[]));
      }
    }

    method Window(now: int) returns (out: seq<Bucket>)
      requires Valid()
      ensures |out| == shape.count
      ensures forall j :: 0 <= j < shape.count ==>
                out[j] == Bucket(WindowStart(shape, now, j), Some(Shown(shape, log, WindowStart(shape, now, j))))
    {
      out := [];
      var i := shape.count - 1;
      while i >= 0
        invariant -1 <= i < shape.count && |out| == shape.count - 1 - i
        invariant forall j :: 0 <= j < |out| ==>
                    out[j] == Bucket(WindowStart(shape, now, j), Some(Shown(shape, log, WindowStart(shape, now, j))))
      {
        var start := shape.Start(now) - i * shape.width;
        var index := shape.IndexOf(start);
        assert start == WindowStart(shape, now, |out|);
        if starts[index] == start {
          out := out + [Bucket(start, Some(Used(slots[index].values)))];
        } else {
          out := out + [Bucket(start, Some(map[]))];
        }
        i := i - 1;
      }
    }

    method Total(now: int, field: string) returns (sum: real)
      requires Valid()
      ensures sum == WindowTotal(shape, log, now, field, shape.count)
    {
      sum := 0.0;
      var window := Window(now);
      for n := 0 to |window|
        invariant sum == WindowTotal(shape, log, now, field, n)
      {
        sum := sum + Lookup(Used(window[n].values), field);
      }
    }
  }

  lemma {:induction false} PlaceUsed(shape: Shape, log: seq<Event>, i: int)
    requires shape.Proper() && forall e :: e in log ==> shape.Start(e.at) != ZERO_TIME
    ensures var p := Place(shape, log, i); p.start == ZERO_TIME <==> p.values == None
  {
    if log == [] {
    } else {
      PlaceUsed(shape, log[..|log| - 1], i);
    }
  }

  // ---------------------------------------------------------------- the ring against the log

  function Amount(shape: Shape, e: Event, start: int, field: string): real
    requires shape.Proper()
  {
    if shape.Start(e.at) == start && e.field == field then e.v else 0.0
  }

  /** The plain sum of one field over the events of one slot. */
  function Sum(shape: Shape, log: seq<Event>, start: int, field: string): real
    requires shape.Proper()
  {
    if log == [] then 0.0
    else Sum(shape, log[..|log| - 1], start, field) + Amount(shape, log[|log| - 1], start, field)
  }

  /** An event of another slot that takes over the place of this one. */
  predicate Evicts(shape: Shape, e: Event, start: int)
    requires shape.Proper()
  {
    shape.Start(e.at) != start && shape.IndexOf(shape.Start(e.at)) == shape.IndexOf(start)
  }

  /** How much of the log is lost to a slot: everything up to the last event that evicted it. */
  function Lost(shape: Shape, log: seq<Event>, start: int): (n: nat)
    requires shape.Proper()
    ensures n <= |log|
  {
    if log == [] then 0
    else if Evicts(shape, log[|log| - 1], start) then |log|
    else Lost(shape, log[..|log| - 1], start)
  }

  /** For every log, in any order: a slot shows exactly the sums since it was last evicted. */
  lemma {:induction false} ShownIsSumSinceEviction(shape: Shape, log: seq<Event>, start: int, field: string)
    requires shape.Proper()
    ensures Lookup(Shown(shape, log, start), field) == Sum(shape, log[Lost(shape, log, start)..], start, field)
    ensures Place(shape, log, shape.IndexOf(start)).start != start ==>
              Sum(shape, log[Lost(shape, log, start)..], start, field) == 0.0
  {
    if log == [] {
    } else {
      var n := |log| - 1;
      ShownIsSumSinceEviction(shape, log[..n], start, field);
      if !Evicts(shape, log[n], start) {
        SumFrom(shape, log, Lost(shape, log[..n], start), start, field);
      }
    }
  }

  lemma SumFrom(shape: Shape, log: seq<Event>, k: nat, start: int, field: string)
    requires shape.Proper() && k < |log|
    ensures Sum(shape, log[k..], start, field)
            == Sum(shape, log[..|log| - 1][k..], start, field) + Amount(shape, log[|log| - 1], start, field)
  {
    assert log[k..][..|log[k..]| - 1] == log[..|log| - 1][k..];
  }

  /** No event of this slot comes before one that evicts it. */
  ghost predicate Kept(shape: Shape, log: seq<Event>, start: int)
    requires shape.Proper()
  {
    forall i, j :: 0 <= i < j < |log| && Evicts(shape, log[j], start) ==> shape.Start(log[i].at) != start
  }

  lemma {:induction false} SumSplits(shape: Shape, a: seq<Event>, b: seq<Event>, start: int, field: string)
    requires shape.Proper()
    ensures Sum(shape, a + b, start, field) == Sum(shape, a, start, field) + Sum(shape, b, start, field)
  {
    if b == [] {
      assert a + b == a;
    } else {
      SumSplits(shape, a, b[..|b| - 1], start, field);
      assert (a + b)[..|a + b| - 1] == a + b[..|b| - 1];
    }
  }

  lemma {:induction false} SumOfOthers(shape: Shape, log: seq<Event>, start: int, field: string)
    requires shape.Proper() && forall i :: 0 <= i < |log| ==> shape.Start(log[i].at) != start
    ensures Sum(shape, log, start, field) == 0.0
  {
    if log == [] {
    } else {
      SumOfOthers(shape, log[..|log| - 1], start, field);
    }
  }

  lemma {:induction false} LastEviction(shape: Shape, log: seq<Event>, start: int)
    requires shape.Proper()
    ensures var k := Lost(shape, log, start); k > 0 ==> Evicts(shape, log[k - 1], start)
    ensures forall j :: Lost(shape, log, start) <= j < |log| ==> !Evicts(shape, log[j], start)
  {
    if log == [] {
    } else {
      LastEviction(shape, log[..|log| - 1], start);
    }
  }

  lemma LossIsThePrefix(shape: Shape, log: seq<Event>, start: int, field: string)
    requires shape.Proper()
    ensures Sum(shape, log, start, field) ==
            Sum(shape, log[..Lost(shape, log, start)], start, field) + Lookup(Shown(shape, log, start), field)
  {
    var k := Lost(shape, log, start);
    ShownIsSumSinceEviction(shape, log, start, field);
    SumSplits(shape, log[..k], log[k..], start, field);
    assert log[..k] + log[k..] == log;
  }

  ghost predicate Exact(shape: Shape, log: seq<Event>, start: int)
    requires shape.Proper()
  {
    forall field :: Lookup(Shown(shape, log, start), field) == Sum(shape, log, start, field)
  }

  lemma KeptIsExact(shape: Shape, log: seq<Event>, start: int)
    requires shape.Proper() && Kept(shape, log, start)
    ensures Exact(shape, log, start)
  {
    var k := Lost(shape, log, start);
    LastEviction(shape, log, start);
    forall field ensures Lookup(Shown(shape, log, start), field) == Sum(shape, log, start, field) {
      LossIsThePrefix(shape, log, start, field);
      if k > 0 {
        assert Evicts(shape, log[k - 1], start);
        SumOfOthers(shape, log[..k], start, field);
      }
    }
  }

  lemma {:induction false} PositiveSum(shape: Shape, log: seq<Event>, i: int)
    requires shape.Proper() && 0 <= i < |log| && forall e :: e in log ==> e.v > 0.0
    ensures Sum(shape, log, shape.Start(log[i].at), log[i].field) > 0.0
  {
    var n := |log| - 1;
    if i < n {
      PositiveSum(shape, log[..n], i);
    } else {
      SumNonNegative(shape, log[..n], shape.Start(log[i].at), log[i].field);
    }
  }

  lemma {:induction false} SumNonNegative(shape: Shape, log: seq<Event>, start: int, field: string)
    requires shape.Proper() && forall e :: e in log ==> e.v > 0.0
    ensures Sum(shape, log, start, field) >= 0.0
  {
    if log == [] {
    } else {
      SumNonNegative(shape, log[..|log| - 1], start, field);
    }
  }

  /** Counting events (or adding positive amounts), a slot's totals are exact if and only if none of
      its events came before one that took its place. */
  lemma CountsExactly(shape: Shape, log: seq<Event>, start: int)
    requires shape.Proper() && forall e :: e in log ==> e.v > 0.0
    ensures Exact(shape, log, start) <==> Kept(shape, log, start)
  {
    if Kept(shape, log, start) {
      KeptIsExact(shape, log, start);
    } else {
      var i, j :| 0 <= i < j < |log| && Evicts(shape, log[j], start) && shape.Start(log[i].at) == start;
      var k := Lost(shape, log, start);
      LastEviction(shape, log, start);
      assert i < k;
      LossIsThePrefix(shape, log, start, log[i].field);
      PositiveSum(shape, log[..k], i);
    }
  }

  // ---------------------------------------------------------------- timely events

  /** Every event falls within the last `count` slots of the newest seen before it, and none in the slot
      that straddles the epoch. */
  ghost predicate Timely(shape: Shape, log: seq<Event>)
    requires shape.Proper()
  {
    && (forall i, j :: 0 <= i < j < |log| ==>
          shape.Start(log[j].at) > shape.Start(log[i].at) - shape.count * shape.width)
    && (forall i :: 0 <= i < |log| ==> !(-shape.width < shape.Start(log[i].at) < 0))
  }

  lemma StartsApart(shape: Shape, s: int, t: int) returns (k: int)
    requires shape.Proper() && (s - ZERO_TIME) % shape.width == 0 && (t - ZERO_TIME) % shape.width == 0
    requires s < t < s + shape.count * shape.width
    ensures 0 < k < shape.count && t == s + k * shape.width
  {
    var w := shape.width;
    var a, b := (s - ZERO_TIME) / w, (t - ZERO_TIME) / w;
    k := b - a;
    assert s - ZERO_TIME == a * w && t - ZERO_TIME == b * w;
    assert k * w == t - s;
    if k <= 0 {
      NonPositive(k, w);
    } else if k >= shape.count {
      NonPositive(shape.count - k, w);
    }
  }

  lemma NonPositive(k: int, w: int)
    requires k <= 0 && w > 0
    ensures k * w <= 0
  {
    assert (-k) * w >= 0;
  }

  lemma TimelyKeeps(shape: Shape, log: seq<Event>, now: int, start: int)
    requires shape.Proper() && Timely(shape, log)
    requires forall i :: 0 <= i < |log| ==> shape.Start(log[i].at) <= shape.Start(now)
    requires (start - ZERO_TIME) % shape.width == 0 && start > shape.Start(now) - shape.count * shape.width
    ensures Kept(shape, log, start)
  {
    forall i, j | 0 <= i < j < |log| && Evicts(shape, log[j], start) ensures shape.Start(log[i].at) != start {
      var t := shape.Start(log[j].at);
      if shape.Start(log[i].at) == start {
        if start < t {
          var k := StartsApart(shape, start, t);
          AliasExactly(shape, start, k);
        } else {
          var k := StartsApart(shape, t, start);
          AliasExactly(shape, t, k);
        }
      }
    }
  }

  lemma WindowAligned(shape: Shape, now: int, j: int)
    requires shape.Proper() && 0 <= j < shape.count
    ensures (WindowStart(shape, now, j) - ZERO_TIME) % shape.width == 0
    ensures shape.Start(now) - shape.count * shape.width < WindowStart(shape, now, j) <= shape.Start(now)
  {
    var w := shape.width;
    var q := (shape.Start(now) - ZERO_TIME) / w;
    var m := shape.count - 1 - j;
    ModUnique(WindowStart(shape, now, j) - ZERO_TIME, w, q - m, 0);
    assert m * w >= 0;
    assert (shape.count - 1 - m) * w >= 0;
  }

  /** The ring refines the log: after timely events, whenever `now` is not before the newest of them,
      every slot of the window shows the exact per-field sums of its events. */
  lemma WindowRefinesLog(shape: Shape, log: seq<Event>, now: int, j: int)
    requires shape.Proper() && Timely(shape, log) && 0 <= j < shape.count
    requires forall i :: 0 <= i < |log| ==> shape.Start(log[i].at) <= shape.Start(now)
    ensures Exact(shape, log, WindowStart(shape, now, j))
  {
    WindowAligned(shape, now, j);
    TimelyKeeps(shape, log, now, WindowStart(shape, now, j));
    KeptIsExact(shape, log, WindowStart(shape, now, j));
  }

  /** The plain sum of one field over the events whose slot starts between two bounds. */
  function SumBetween(shape: Shape, log: seq<Event>, lo: int, hi: int, field: string): real
    requires shape.Proper()
  {
    if log == [] then 0.0
    else
      var e := log[|log| - 1];
      SumBetween(shape, log[..|log| - 1], lo, hi, field)
      + if lo <= shape.Start(e.at) <= hi && e.field == field then e.v else 0.0
  }

  lemma {:induction false} OneSlotMore(shape: Shape, log: seq<Event>, lo: int, hi: int, field: string)
    requires shape.Proper() && (hi - ZERO_TIME) % shape.width == 0 && lo <= hi
    ensures SumBetween(shape, log, lo, hi, field) ==
            SumBetween(shape, log, lo, hi - shape.width, field) + Sum(shape, log, hi, field)
  {
    if log == [] {
    } else {
      OneSlotMore(shape, log[..|log| - 1], lo, hi, field);
      NoneBetween(shape, shape.Start(log[|log| - 1].at), hi);
    }
  }

  lemma NoneBetween(shape: Shape, s: int, hi: int)
    requires shape.Proper() && (s - ZERO_TIME) % shape.width == 0 && (hi - ZERO_TIME) % shape.width == 0
    ensures !(hi - shape.width < s < hi)
  {
    if hi - shape.width < s < hi {
      var w := shape.width;
      var q := (hi - ZERO_TIME) / w;
      ModUnique(s - ZERO_TIME, w, q - 1, s - hi + w);
    }
  }

  lemma {:induction false} NothingBetween(shape: Shape, log: seq<Event>, lo: int, hi: int, field: string)
    requires shape.Proper() && hi < lo
    ensures SumBetween(shape, log, lo, hi, field) == 0.0
  {
    if log == [] {
    } else {
      NothingBetween(shape, log[..|log| - 1], lo, hi, field);
    }
  }

  lemma {:induction false} SlotsAddUp(shape: Shape, log: seq<Event>, now: int, field: string, n: nat)
    requires shape.Proper() && n <= shape.count
    requires forall j :: 0 <= j < shape.count ==> Exact(shape, log, WindowStart(shape, now, j))
    ensures WindowTotal(shape, log, now, field, n) ==
            SumBetween(shape, log, WindowStart(shape, now, 0), WindowStart(shape, now, n - 1), field)
  {
    SlotsAdjoin(shape, now, n - 1);
    if n == 0 {
      NothingBetween(shape, log, WindowStart(shape, now, 0), WindowStart(shape, now, -1), field);
    } else {
      SlotsAddUp(shape, log, now, field, n - 1);
      WindowAligned(shape, now, n - 1);
      OneSlotMore(shape, log, WindowStart(shape, now, 0), WindowStart(shape, now, n - 1), field);
    }
  }

  lemma SlotsAdjoin(shape: Shape, now: int, j: int)
    requires shape.Proper()
    ensures WindowStart(shape, now, j - 1) == WindowStart(shape, now, j) - shape.width
    ensures if j < 0 then WindowStart(shape, now, j) < WindowStart(shape, now, 0)
            else WindowStart(shape, now, 0) <= WindowStart(shape, now, j)
  {
    var w := shape.width;
    assert (shape.count - 1 - (j - 1)) * w == (shape.count - 1 - j) * w + w;
    assert (shape.count - 1) * w == (shape.count - 1 - j) * w + j * w;
    if j < 0 {
      NonPositive(j + 1, w);
    } else {
      NonPositive(-j, w);
    }
  }

  /** `Total` is the plain sum of the field over every event of the last `count` slots. */
  lemma TotalRefinesLog(shape: Shape, log: seq<Event>, now: int, field: string)
    requires shape.Proper() && Timely(shape, log)
    requires forall i :: 0 <= i < |log| ==> shape.Start(log[i].at) <= shape.Start(now)
    ensures WindowTotal(shape, log, now, field, shape.count) ==
            SumBetween(shape, log, shape.Start(now) - (shape.count - 1) * shape.width, shape.Start(now), field)
  {
    assert WindowStart(shape, now, shape.count - 1) == shape.Start(now);
    forall j | 0 <= j < shape.count ensures Exact(shape, log, WindowStart(shape, now, j)) {
      WindowRefinesLog(shape, log, now, j);
    }
    SlotsAddUp(shape, log, now, field, shape.count);
  }

  // ---------------------------------------------------------------- what an old event does

  /** A full turn of the ring, on one side of the epoch, comes back to the same place. */
  lemma FullTurn(shape: Shape, s: int)
    requires shape.Proper() && (s >= 0 || s + shape.count * shape.width <= 0)
    ensures shape.IndexOf(s + shape.count * shape.width) == shape.IndexOf(s)
  {
    var q, n := Quotient(s, shape.width), shape.count;
    QuotientShift(s, n, shape.width);
    ModUnique(q + n, n, q / n + 1, q % n);
  }

  /** After any log, an event exactly `count` slots older than a slot wipes it: the place is reset for the
      older slot, although what it held was newer. */
  lemma LateEventWipes(shape: Shape, log: seq<Event>, e: Event, s: int)
    requires shape.Proper() && shape.Start(e.at) == s - shape.count * shape.width
    requires s - shape.count * shape.width >= 0 || s <= 0
    ensures Shown(shape, log + [e], s) == map[]
  {
    var n := |log|;
    assert (log + [e])[..n] == log && (log + [e])[n] == e;
    FullTurn(shape, s - shape.count * shape.width);
    TimesAtLeast(shape.count, shape.width);
  }

  /** So the newest slot can be lost: it shows the event, and nothing once the older one has come. */
  lemma NewestCanBeLost(shape: Shape, at: int, field: string, v: real)
    requires shape.Proper() && shape.Start(at) - shape.count * shape.width >= 0
    ensures var late := at - shape.count * shape.width; var s := shape.Start(at);
            && Lookup(Shown(shape, [Event(at, field, v)], s), field) == v
            && Lookup(Shown(shape, [Event(at, field, v), Event(late, field, v)], s), field) == 0.0
  {
    var first, second := Event(at, field, v), Event(at - shape.count * shape.width, field, v);
    OneShows(shape, first);
    StartShifts(shape, at, shape.count);
    LateEventWipes(shape, [first], second, shape.Start(at));
    assert [first] + [second] == [first, second];
  }

  lemma OneShows(shape: Shape, e: Event)
    requires shape.Proper() && shape.Start(e.at) >= 0
    ensures Lookup(Shown(shape, [e], shape.Start(e.at)), e.field) == e.v
  {
    var s := shape.Start(e.at);
    assert Place(shape, [e][..0], shape.IndexOf(s)) == Bucket(ZERO_TIME, None);
    assert Place(shape, [e], shape.IndexOf(s)) == Bucket(s, Some(map[e.field := Lookup(map[], e.field) + e.v]));
  }

  lemma StartShifts(shape: Shape, at: int, k: int)
    requires shape.Proper()
    ensures shape.Start(at - k * shape.width) == shape.Start(at) - k * shape.width
  {
    var w, a := shape.width, at - ZERO_TIME;
    Shifted(a, w, k, k * w);
  }

  lemma Shifted(a: int, w: int, k: int, kw: int)
    requires w > 0 && kw == k * w
    ensures (a - kw) % w == a % w
  {
    assert (a / w - k) * w == (a / w) * w - kw;
    ModUnique(a - kw, w, a / w - k, a % w);
  }
}
