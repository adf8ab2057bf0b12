/** Logins that overlap. The lockout check and the note of a failure are two critical sections with the
    password check between them, and the note carries the clock the login read on arrival; so a failure
    can be noted late, and a lock it sets can end early. */
module LockoutOverlap {
  import opened Wrappers
  import opened Retry
  import L = Lockout
  import Ingest

  type Peers = map<string, L.Peer>

  const WINDOW: int := L.LOCK_WINDOW

  /** A login between its lockout check and its outcome. */
  datatype Flight = Flight(addr: string, since: int)

  datatype State = State(peers: Peers, flying: map<nat, Flight>)

  /** A login passes the check; its credentials turn out wrong, or right; or it ends without an outcome. */
  datatype Event =
    | Check(id: nat, addr: string, at: int)
    | Note(id: nat, at: int)
    | SignIn(id: nat, at: int)
    | Leave(id: nat, at: int)

  predicate Open(peers: Peers, addr: string, at: int) {
    !(addr in peers && at < peers[addr].locked)
  }

  ghost predicate Step(s: State, e: Event, t: State) {
    match e
    case Check(id, addr, at) =>
      id !in s.flying && Open(s.peers, addr, at) && t == s.(flying := s.flying[id := Flight(addr, at)])
    case Note(id, _) =>
      && id in s.flying && L.Notes(s.peers, s.flying[id].addr, s.flying[id].since, t.peers)
      && t.flying == s.flying - {id}
    case SignIn(id, _) =>
      id in s.flying && t == State(s.peers - {s.flying[id].addr}, s.flying - {id})
    case Leave(id, _) =>
      id in s.flying && t == s.(flying := s.flying - {id})
  }

  /** The logins of one address that are under way. */
  function Flying(s: State, addr: string): set<nat> {
    set id | id in s.flying && s.flying[id].addr == addr
  }

  datatype Run = Start | Then(before: Run, event: Event, now: State) {
    function Last(): State {
      if Start? then State(map[], map[]) else now
    }

    function Clock(): int {
      if Start? then Ingest.ZERO_TIME else event.at
    }

    ghost predicate Valid() {
      Then? ==> before.Valid() && before.Clock() <= event.at && Step(before.Last(), event, now)
    }

    /** Whether the last event notes a failure of the address, and when that login arrived. */
    predicate NotesFailureOf(addr: string) {
      Then? && event.Note? && event.id in before.Last().flying && before.Last().flying[event.id].addr == addr
    }

    /** The arrivals of the failed logins of an address, in the order they were noted. */
    function Failures(addr: string): seq<int> {
      if Start? then []
      else before.Failures(addr) + if NotesFailureOf(addr) then [before.Last().flying[event.id].since] else []
    }

    /** The addresses of which failures have been noted. */
    function Offenders(): set<string> {
      if Start? then {}
      else before.Offenders()
           + if event.Note? && event.id in before.Last().flying then {before.Last().flying[event.id].addr} else {}
    }

    /** No login of the address had the right credentials. */
    predicate NeverRight(addr: string) {
      Then? ==>
        && before.NeverRight(addr)
        && !(event.SignIn? && event.id in before.Last().flying && before.Last().flying[event.id].addr == addr)
    }

    /** Never more than `k` logins of the address at once, and each noted within `d` of its arrival. */
    predicate Overlaps(addr: string, k: nat, d: int) {
      Then? ==>
        && before.Overlaps(addr, k, d) && |Flying(now, addr)| <= k
        && (NotesFailureOf(addr) ==> event.at - before.Last().flying[event.id].since <= d)
    }
  }

  // ---------------------------------------------------------------- nothing is forgotten

  lemma {:induction false} PeersAreOffenders(r: Run)
    requires r.Valid()
    ensures r.Last().peers.Keys <= r.Offenders()
  {
    if r.Start? {
    } else {
      PeersAreOffenders(r.before);
      if r.event.Note? {
        NotedAmong(r.before.Last().peers, r.before.Last().flying[r.event.id], r.now.peers);
      }
    }
  }

  lemma NotedAmong(peers: Peers, f: Flight, t: Peers)
    requires L.Notes(peers, f.addr, f.since, t)
    ensures t.Keys <= peers.Keys + {f.addr}
  {
    if f.addr !in peers {
      var kept :| L.MakesRoom(peers, f.since, kept) && t == kept[f.addr := L.Failed(L.NEW_PEER, f.since)];
      assert t.Keys == kept.Keys + {f.addr};
    }
  }

  function Noted(peers: Peers, addr: string, since: int): Peers {
    peers[addr := L.Failed(if addr in peers then peers[addr] else L.NEW_PEER, since)]
  }

  /** With room for every offender a note changes the one peer, and nothing else. */
  lemma NoteChangesOne(r: Run)
    requires r.Valid() && r.Then? && r.event.Note? && |r.Offenders()| <= L.MAX_TRACKED_PEERS
    ensures var s := r.before.Last(); var f := s.flying[r.event.id];
            r.now.peers == Noted(s.peers, f.addr, f.since)
  {
    var s := r.before.Last();
    var f := s.flying[r.event.id];
    PeersAreOffenders(r.before);
    if f.addr !in s.peers {
      L.RoomLeft(s.peers.Keys, f.addr, r.Offenders());
      assert |s.peers| == |s.peers.Keys|;
    }
  }

  // ---------------------------------------------------------------- the ration

  function CountIn(f: seq<int>, from: int, length: int): nat {
    if f == [] then 0
    else CountIn(f[..|f| - 1], from, length) + if from <= f[|f| - 1] < from + length then 1 else 0
  }

  /** The logins under way that arrived in the window. */
  function FlyingIn(s: State, addr: string, from: int, length: int): set<nat> {
    set id | id in s.flying && s.flying[id].addr == addr && from <= s.flying[id].since < from + length
  }

  /** Either every failure in the window is still held against the address, or it has been locked out for
      the rest of the window, and only logins under way then can add to them. */
  ghost predicate Rationed(s: State, f: seq<int>, addr: string, k: nat, d: int, from: int) {
    var length := WINDOW - d;
    var n := CountIn(f, from, length);
    || n <= L.Held(s.peers, addr)
    || (addr in s.peers && s.peers[addr].locked >= from + length && n + |FlyingIn(s, addr, from, length)| <= k + 4)
  }

  ghost predicate Past(s: State, f: seq<int>, addr: string, clock: int) {
    && (forall i :: 0 <= i < |f| ==> f[i] <= clock)
    && (forall id :: id in s.flying ==> s.flying[id].since <= clock)
    && 0 <= L.Held(s.peers, addr) < L.MAX_LOGIN_FAILS
  }

  lemma {:induction false} NoneYet(f: seq<int>, from: int, length: int)
    requires forall i :: 0 <= i < |f| ==> f[i] < from
    ensures CountIn(f, from, length) == 0
  {
    if f == [] {
    } else {
      NoneYet(f[..|f| - 1], from, length);
    }
  }

  lemma FewerFlying(s: State, t: State, addr: string, from: int, length: int)
    requires FlyingIn(t, addr, from, length) <= FlyingIn(s, addr, from, length)
    ensures |FlyingIn(t, addr, from, length)| <= |FlyingIn(s, addr, from, length)|
  {
    Split(FlyingIn(s, addr, from, length), FlyingIn(t, addr, from, length));
  }

  /** A note of another address, or an event that notes nothing, adds no failure and no login in a window
      that the address is locked out of. */
  lemma RationKept(s: State, e: Event, t: State, f: seq<int>, addr: string, k: nat, d: int, from: int)
    requires Rationed(s, f, addr, k, d, from) && Step(s, e, t)
    requires Get(t.peers, addr) == Get(s.peers, addr)
    ensures Rationed(t, f, addr, k, d, from)
  {
    if !(CountIn(f, from, WINDOW - d) <= L.Held(s.peers, addr)) {
      FewerFlying(s, t, addr, from, WINDOW - d);
    }
  }

  lemma RationNoted(s: State, id: nat, at: int, t: State, f: seq<int>, addr: string, k: nat, d: int, from: int,
                    clock: int)
    requires Rationed(s, f, addr, k, d, from) && Past(s, f, addr, clock) && clock <= at && 0 <= d < WINDOW
    requires id in s.flying && s.flying[id].addr == addr && at - s.flying[id].since <= d
    requires t.flying == s.flying - {id} && |Flying(s, addr)| <= k
    requires t.peers == Noted(s.peers, addr, s.flying[id].since)
    ensures Rationed(t, f + [s.flying[id].since], addr, k, d, from)
  {
    var length, since := WINDOW - d, s.flying[id].since;
    assert (f + [since])[..|f|] == f;
    OneLess(s, id, t, addr, from, length);
    if at < from {
      NoneYet(f + [since], from, length);
    }
  }

  lemma OneLess(s: State, id: nat, t: State, addr: string, from: int, length: int)
    requires id in s.flying && s.flying[id].addr == addr && t.flying == s.flying - {id}
    ensures |FlyingIn(t, addr, from, length)| ==
            |FlyingIn(s, addr, from, length)| - if from <= s.flying[id].since < from + length then 1 else 0
    ensures |FlyingIn(t, addr, from, length)| <= |Flying(s, addr)| - 1
  {
    assert FlyingIn(t, addr, from, length) == FlyingIn(s, addr, from, length) - {id};
    assert FlyingIn(t, addr, from, length) <= Flying(s, addr) - {id};
    Split(Flying(s, addr) - {id}, FlyingIn(t, addr, from, length));
  }

  lemma {:induction false} RunIsRationed(r: Run, addr: string, k: nat, d: int, from: int)
    requires r.Valid() && |r.Offenders()| <= L.MAX_TRACKED_PEERS && r.NeverRight(addr) && r.Overlaps(addr, k, d)
    requires 0 <= d < WINDOW
    ensures Rationed(r.Last(), r.Failures(addr), addr, k, d, from) && Past(r.Last(), r.Failures(addr), addr, r.Clock())
    ensures |Flying(r.Last(), addr)| <= k
  {
    if r.Start? {
      assert Flying(r.Last(), addr) == {};
    } else {
      var before, e, t := r.before, r.event, r.now;
      L.Fewer(before.Offenders(), r.Offenders());
      RunIsRationed(before, addr, k, d, from);
      PeerAfter(r, addr);
      if r.NotesFailureOf(addr) {
        RationNoted(before.Last(), e.id, e.at, t, before.Failures(addr), addr, k, d, from, before.Clock());
        PastNoted(before.Last(), e.id, e.at, t, before.Failures(addr), addr, before.Clock());
      } else {
        assert before.Failures(addr) + [] == before.Failures(addr);
        RationKept(before.Last(), e, t, before.Failures(addr), addr, k, d, from);
        PastKept(before.Last(), e, t, before.Failures(addr), addr, before.Clock());
      }
    }
  }

  /** Only a failure of its own changes the peer of an address from which right credentials never come. */
  lemma PeerAfter(r: Run, addr: string)
    requires r.Valid() && r.Then? && |r.Offenders()| <= L.MAX_TRACKED_PEERS && r.NeverRight(addr)
    ensures var peers := r.before.Last().peers;
            if r.NotesFailureOf(addr) then
              r.now.peers == Noted(peers, addr, r.before.Last().flying[r.event.id].since)
            else Get(r.now.peers, addr) == Get(peers, addr)
  {
    if r.event.Note? {
      NoteChangesOne(r);
    }
  }

  lemma PastNoted(s: State, id: nat, at: int, t: State, f: seq<int>, addr: string, clock: int)
    requires Past(s, f, addr, clock) && clock <= at && id in s.flying && t.flying == s.flying - {id}
    requires t.peers == Noted(s.peers, addr, s.flying[id].since)
    ensures Past(t, f + [s.flying[id].since], addr, at)
  {
  }

  lemma PastKept(s: State, e: Event, t: State, f: seq<int>, addr: string, clock: int)
    requires Past(s, f, addr, clock) && clock <= e.at && Step(s, e, t) && Get(t.peers, addr) == Get(s.peers, addr)
    ensures Past(t, f, addr, e.at)
  {
  }

  /** With at most `k` logins of an address at once, each noted within `d` of its arrival, and room for
      every offender, no window `d` shorter than the lock sees more than `k + 4` failures of an address
      from which right credentials never come. */
  lemma OverlapsAreRationed(r: Run, addr: string, k: nat, d: int, from: int)
    requires r.Valid() && |r.Offenders()| <= L.MAX_TRACKED_PEERS && r.NeverRight(addr) && r.Overlaps(addr, k, d)
    requires 0 <= d < WINDOW
    ensures CountIn(r.Failures(addr), from, WINDOW - d) <= k + 4
  {
    RunIsRationed(r, addr, k, d, from);
  }

  // ---------------------------------------------------------------- runs that use it up

  /** A run of one address, whose logins all fail and overlap no more than that. */
  ghost predicate Sound(r: Run, k: nat, d: int) {
    r.Then? ==> Sound(r.before, k, d) && r.before.Clock() <= r.event.at && Fails(r.before.Last(), r.event, r.now, k, d)
  }

  predicate Fails(s: State, e: Event, t: State, k: nat, d: int) {
    match e
    case Check(id, addr, at) =>
      && id !in s.flying && addr == "a" && Open(s.peers, "a", at) && |s.flying| < k
      && t == s.(flying := s.flying[id := Flight("a", at)])
    case Note(id, at) =>
      && id in s.flying && at - s.flying[id].since <= d && |s.flying| <= k
      && t == State(Noted(s.peers, "a", s.flying[id].since), s.flying - {id})
    case _ => false
  }

  ghost predicate Ours(s: State) {
    s.peers.Keys <= {"a"} && forall id :: id in s.flying ==> s.flying[id].addr == "a"
  }

  /** How many of its failures fall in the window. */
  function InWindow(r: Run, from: int, length: int): nat {
    if r.Start? then 0
    else InWindow(r.before, from, length)
         + if r.NotesFailureOf("a") && from <= r.before.Last().flying[r.event.id].since < from + length then 1 else 0
  }

  lemma {:induction false} SoundMeans(r: Run, k: nat, d: int, from: int, length: int)
    requires Sound(r, k, d)
    ensures r.Valid() && r.Offenders() <= {"a"} && |r.Offenders()| <= 1 && r.NeverRight("a") && r.Overlaps("a", k, d)
    ensures Ours(r.Last()) && CountIn(r.Failures("a"), from, length) == InWindow(r, from, length)
  {
    if r.Start? {
    } else {
      SoundMeans(r.before, k, d, from, length);
      FailsMeans(r.before.Last(), r.event, r.now, k, d);
      L.Fewer(r.Offenders(), {"a"});
      var f := r.before.Failures("a");
      if r.NotesFailureOf("a") {
        OneMoreIn(f, r.before.Last().flying[r.event.id].since, from, length);
      } else {
        assert f + [] == f;
      }
    }
  }

  lemma SoundIsOurs(r: Run, k: nat, d: int)
    requires Sound(r, k, d)
    ensures Ours(r.Last())
  {
    SoundMeans(r, k, d, 0, 0);
  }

  lemma FailsMeans(s: State, e: Event, t: State, k: nat, d: int)
    requires Ours(s) && Fails(s, e, t, k, d)
    ensures Step(s, e, t) && Ours(t) && |Flying(t, "a")| <= k
  {
    KeysAfter(s, e, t, k, d);
    FewFlying(t, k);
    if e.Note? {
      NotesAlone(s.peers, s.flying[e.id].since);
    }
  }

  lemma KeysAfter(s: State, e: Event, t: State, k: nat, d: int)
    requires Ours(s) && Fails(s, e, t, k, d)
    ensures Ours(t) && |t.flying| <= k
  {
    if e.Check? {
      assert t.flying.Keys == s.flying.Keys + {e.id};
    } else {
      assert t.flying.Keys == s.flying.Keys - {e.id};
    }
  }

  lemma OneMoreIn(f: seq<int>, since: int, from: int, length: int)
    ensures CountIn(f + [since], from, length) ==
            CountIn(f, from, length) + if from <= since < from + length then 1 else 0
  {
    assert (f + [since])[..|f|] == f;
  }

  /** Such a run, with at least `c` failures in the window so far. */
  ghost predicate Tells(r: Run, k: nat, d: int, at: int, from: int, length: int, c: nat) {
    Sound(r, k, d) && r.Clock() <= at && InWindow(r, from, length) >= c
  }

  /** The peer has `n` failures held against it and is not locked out. */
  predicate Ready(peers: Peers, n: nat, at: int) {
    L.Held(peers, "a") == n && Open(peers, "a", at) && at >= 0
  }

  lemma NotesAlone(peers: Peers, since: int)
    requires peers.Keys <= {"a"}
    ensures L.Notes(peers, "a", since, Noted(peers, "a", since))
  {
    if "a" !in peers {
      assert peers == map[];
      assert L.MakesRoom(peers, since, peers);
    }
  }

  lemma FewFlying(s: State, k: nat)
    requires |s.flying| <= k
    ensures |Flying(s, "a")| <= k
  {
    Split(s.flying.Keys, Flying(s, "a"));
  }

  /** Such a run ends in this state. */
  ghost predicate Reaches(s: State, k: nat, d: int, at: int, from: int, length: int, c: nat) {
    exists r: Run :: Tells(r, k, d, at, from, length, c) && r.Last() == s
  }

  lemma CheckOne(s: State, k: nat, d: int, at: int, from: int, length: int, c: nat, id: nat)
    requires Reaches(s, k, d, at, from, length, c) && Open(s.peers, "a", at) && id !in s.flying && |s.flying| < k
    ensures Reaches(s.(flying := s.flying[id := Flight("a", at)]), k, d, at, from, length, c)
  {
    var r: Run :| Tells(r, k, d, at, from, length, c) && r.Last() == s;
    assert Tells(Then(r, Check(id, "a", at), s.(flying := s.flying[id := Flight("a", at)])), k, d, at, from, length, c);
  }

  lemma NoteOne(s: State, k: nat, d: int, at: int, from: int, length: int, c: nat, id: nat)
    requires Reaches(s, k, d, at, from, length, c) && |s.flying| <= k
    requires id in s.flying && at - s.flying[id].since <= d
    ensures var since := s.flying[id].since;
            Reaches(State(Noted(s.peers, "a", since), s.flying - {id}), k, d, at, from, length,
                    if from <= since < from + length then c + 1 else c)
  {
    var r: Run :| Tells(r, k, d, at, from, length, c) && r.Last() == s;
    SoundIsOurs(r, k, d);
    var since := s.flying[id].since;
    assert Tells(Then(r, Note(id, at), State(Noted(s.peers, "a", since), s.flying - {id})), k, d, at, from, length,
                 if from <= since < from + length then c + 1 else c);
  }

  /** One login after the other fails. */
  lemma {:induction false} FailSome(s: State, k: nat, d: int, at: int, from: int, length: int, c: nat, id: nat, n: nat)
    returns (t: State)
    requires Reaches(s, k, d, at, from, length, c) && Ready(s.peers, 0, at) && n < L.MAX_LOGIN_FAILS && 0 <= d
    requires id !in s.flying && |s.flying| < k && from <= at < from + length
    ensures Reaches(t, k, d, at, from, length, c + n) && Ready(t.peers, n, at) && t.flying == s.flying
  {
    if n == 0 {
      t := s;
    } else {
      t := FailSome(s, k, d, at, from, length, c, id, n - 1);
      t := FailOnce(t, k, d, at, from, length, c + n - 1, id, n - 1);
    }
  }

  lemma FailOnce(s: State, k: nat, d: int, at: int, from: int, length: int, c: nat, id: nat, n: nat)
    returns (t: State)
    requires Reaches(s, k, d, at, from, length, c) && Ready(s.peers, n, at) && n + 1 < L.MAX_LOGIN_FAILS && 0 <= d
    requires id !in s.flying && |s.flying| < k && from <= at < from + length
    ensures Reaches(t, k, d, at, from, length, c + 1) && Ready(t.peers, n + 1, at) && t.flying == s.flying
  {
    PassesThrough(s.flying, id, Flight("a", at));
    NotedReady(s.peers, n, at);
    CheckOne(s, k, d, at, from, length, c, id);
    NoteOne(s.(flying := s.flying[id := Flight("a", at)]), k, d, at, from, length, c, id);
    t := State(Noted(s.peers, "a", at), s.flying);
  }

  lemma PassesThrough(flying: map<nat, Flight>, id: nat, f: Flight)
    requires id !in flying
    ensures flying[id := f] - {id} == flying && |flying[id := f]| == |flying| + 1
  {
    assert flying[id := f].Keys == flying.Keys + {id};
  }

  lemma NotedReady(peers: Peers, n: nat, at: int)
    requires Ready(peers, n, at) && n + 1 < L.MAX_LOGIN_FAILS
    ensures Ready(Noted(peers, "a", at), n + 1, at)
  {
  }

  function Flights(n: nat, at: int): map<nat, Flight> {
    if n == 0 then map[] else Flights(n - 1, at)[n - 1 := Flight("a", at)]
  }

  lemma {:induction false} FlightsAre(n: nat, at: int)
    ensures |Flights(n, at)| == n && forall id :: id in Flights(n, at) ==> id < n
    ensures n > 0 ==> Flights(n, at) - {n - 1} == Flights(n - 1, at)
  {
    if n == 0 {
    } else {
      FlightsAre(n - 1, at);
      assert Flights(n, at).Keys == Flights(n - 1, at).Keys + {n - 1};
    }
  }

  lemma {:induction false} CheckMany(peers: Peers, k: nat, d: int, at: int, from: int, length: int, c: nat, n: nat)
    requires Reaches(State(peers, map[]), k, d, at, from, length, c) && Open(peers, "a", at) && n <= k
    ensures Reaches(State(peers, Flights(n, at)), k, d, at, from, length, c)
  {
    if n == 0 {
    } else {
      CheckMany(peers, k, d, at, from, length, c, n - 1);
      FlightsAre(n - 1, at);
      CheckOne(State(peers, Flights(n - 1, at)), k, d, at, from, length, c, n - 1);
    }
  }

  lemma {:induction false} NoteMany(s: State, k: nat, d: int, at: int, from: int, length: int, c: nat, n: nat)
    returns (t: State)
    requires Reaches(s, k, d, at, from, length, c) && n <= k && s.flying == Flights(n, at)
    requires from <= at < from + length && 0 <= d
    ensures Reaches(t, k, d, at, from, length, c + n)
    decreases n
  {
    if n == 0 {
      t := s;
    } else {
      NoteLast(s.peers, k, d, at, from, length, c, n);
      t := NoteMany(State(Noted(s.peers, "a", at), Flights(n - 1, at)), k, d, at, from, length, c + 1, n - 1);
    }
  }

  lemma NoteLast(peers: Peers, k: nat, d: int, at: int, from: int, length: int, c: nat, n: nat)
    requires Reaches(State(peers, Flights(n, at)), k, d, at, from, length, c) && 1 <= n <= k
    requires from <= at < from + length && 0 <= d
    ensures Reaches(State(Noted(peers, "a", at), Flights(n - 1, at)), k, d, at, from, length, c + 1)
  {
    FlightsAre(n, at);
    NoteOne(State(peers, Flights(n, at)), k, d, at, from, length, c, n - 1);
  }

  /** Four failures one by one, and then `k` at once. */
  lemma Burst(peers: Peers, k: nat, d: int, at: int, from: int, length: int, c: nat) returns (t: State)
    requires Reaches(State(peers, map[]), k, d, at, from, length, c) && Ready(peers, 0, at)
    requires k >= 1 && 0 <= d && from <= at < from + length
    ensures Reaches(t, k, d, at, from, length, c + 4 + k)
  {
    t := FailSome(State(peers, map[]), k, d, at, from, length, c, 0, 4);
    CheckMany(t.peers, k, d, at, from, length, c + 4, k);
    t := NoteMany(State(t.peers, Flights(k, at)), k, d, at, from, length, c + 4, k);
  }

  lemma AtStart(k: nat, d: int, from: int, length: int)
    ensures Reaches(State(map[], map[]), k, d, 0, from, length, 0)
  {
    assert Tells(Start, k, d, 0, from, length, 0);
  }

  lemma Later(s: State, k: nat, d: int, at: int, later: int, from: int, length: int, c: nat)
    requires Reaches(s, k, d, at, from, length, c) && at <= later
    ensures Reaches(s, k, d, later, from, length, c)
  {
    var r: Run :| Tells(r, k, d, at, from, length, c) && r.Last() == s;
    assert Tells(r, k, d, later, from, length, c);
  }

  /** A slow login: it arrives first and is noted last, after four others, so that the lock it sets is over
      `d` before theirs would be. */
  lemma SlowLogin(k: nat, d: int, length: int) returns (peers: Peers)
    requires k >= 2 && 0 <= d < WINDOW && length > 0
    ensures Reaches(State(peers, map[]), k, d, WINDOW, d, length, 4) && Ready(peers, 0, WINDOW)
  {
    var s := State(map[], map[0 := Flight("a", 0)]);
    AtStart(k, d, d, length);
    CheckOne(State(map[], map[]), k, d, 0, d, length, 0, 0);
    assert map[][0 := Flight("a", 0)] == s.flying;
    Later(s, k, d, 0, d, d, length, 0);
    s := FailSome(s, k, d, d, d, length, 0, 1, 4);
    NoteOne(s, k, d, d, d, length, 4, 0);
    peers := Noted(s.peers, "a", 0);
    assert s.flying - {0} == map[];
    AtLeastFour(State(peers, map[]), k, d, d, d, length);
    Later(State(peers, map[]), k, d, d, WINDOW, d, length, 4);
  }

  lemma AtLeastFour(s: State, k: nat, d: int, at: int, from: int, length: int)
    requires Reaches(s, k, d, at, from, length, 4) || Reaches(s, k, d, at, from, length, 5)
    ensures Reaches(s, k, d, at, from, length, 4)
  {
    if Reaches(s, k, d, at, from, length, 5) {
      var r: Run :| Tells(r, k, d, at, from, length, 5) && r.Last() == s;
      assert Tells(r, k, d, at, from, length, 4);
    }
  }

  // ---------------------------------------------------------------- exactly how much

  /** No window of this length sees more than `b` failures. */
  ghost predicate AlwaysWithin(k: nat, d: int, length: int, b: int) {
    forall r: Run, addr, from ::
      r.Valid() && |r.Offenders()| <= L.MAX_TRACKED_PEERS && r.NeverRight(addr) && r.Overlaps(addr, k, d) ==>
        CountIn(r.Failures(addr), from, length) <= b
  }

  /** `k + 4` is the best bound there is. */
  lemma BoundIsExact(k: nat, d: int, b: int)
    requires k >= 1 && 0 <= d < WINDOW
    ensures AlwaysWithin(k, d, WINDOW - d, b) <==> b >= k + 4
  {
    var length := WINDOW - d;
    if b >= k + 4 {
      forall r: Run, addr, from |
        r.Valid() && |r.Offenders()| <= L.MAX_TRACKED_PEERS && r.NeverRight(addr) && r.Overlaps(addr, k, d)
        ensures CountIn(r.Failures(addr), from, length) <= b
      {
        OverlapsAreRationed(r, addr, k, d, from);
      }
    } else {
      AtStart(k, d, 0, length);
      var s := Burst(map[], k, d, 0, 0, length, 0);
      var r: Run :| Tells(r, k, d, 0, 0, length, k + 4) && r.Last() == s;
      SoundMeans(r, k, d, 0, length);
    }
  }

  /** And with two logins at once, no longer window will do. */
  lemma WindowIsExact(k: nat, d: int, length: int)
    requires k >= 2 && 0 <= d < WINDOW
    ensures AlwaysWithin(k, d, length, k + 4) <==> length <= WINDOW - d
  {
    if length <= WINDOW - d {
      forall r: Run, addr, from |
        r.Valid() && |r.Offenders()| <= L.MAX_TRACKED_PEERS && r.NeverRight(addr) && r.Overlaps(addr, k, d)
        ensures CountIn(r.Failures(addr), from, length) <= k + 4
      {
        OverlapsAreRationed(r, addr, k, d, from);
        ShorterCounts(r.Failures(addr), from, length, WINDOW - d);
      }
    } else {
      var peers := SlowLogin(k, d, length);
      var s := Burst(peers, k, d, WINDOW, d, length, 4);
      var r: Run :| Tells(r, k, d, WINDOW, d, length, k + 8) && r.Last() == s;
      SoundMeans(r, k, d, d, length);
    }
  }

  lemma {:induction false} ShorterCounts(f: seq<int>, from: int, short: int, long: int)
    requires short <= long
    ensures CountIn(f, from, short) <= CountIn(f, from, long)
  {
    if f == [] {
    } else {
      ShorterCounts(f[..|f| - 1], from, short, long);
    }
  }

  // ---------------------------------------------------------------- logins that do not overlap

  /** What a run tells of an address, the state apart. */
  ghost predicate Tale(o: Run, at: int, addr: string, f: seq<int>, offenders: set<string>, neverRight: bool) {
    && o.Valid() && o.Clock() <= at && o.Overlaps(addr, 1, 0)
    && o.Failures(addr) == f && o.Offenders() <= offenders && (neverRight ==> o.NeverRight(addr))
  }

  /** Some run ends in this state and tells that. */
  ghost predicate Told(s: State, at: int, addr: string, f: seq<int>, offenders: set<string>, neverRight: bool) {
    exists o: Run :: Tale(o, at, addr, f, offenders, neverRight) && o.Last() == s
  }

  /** A run of logins one after the other is one of these, with one login at once and noted at once: so
      for those the bound is five, in any window of full length. */
  lemma {:induction false} OneByOne(r: L.Run, addr: string)
    requires r.Valid()
    ensures Told(State(r.Last(), map[]), r.Clock(), addr, r.Failures(addr), r.Offenders(), r.NeverRight(addr))
  {
    if r.Start? {
      assert Tale(Start, Ingest.ZERO_TIME, addr, [], {}, true);
    } else {
      OneByOne(r.before, addr);
      LastLogin(r, addr);
      var f, offenders, neverRight := r.before.Failures(addr), r.before.Offenders(), r.before.NeverRight(addr);
      ToldLater(State(r.before.Last(), map[]), r.before.Clock(), r.login.now, addr, f, offenders, neverRight);
      OneMore(r.before.Last(), r.login, r.peers, addr, f, offenders, neverRight);
    }
  }

  /** What a run of logins tells of an address, by its last login. */
  lemma LastLogin(r: L.Run, addr: string)
    requires r.Valid() && r.Then?
    ensures r.before.Clock() <= r.login.now && L.Logs(r.before.Last(), r.login, r.peers)
    ensures r.Failures(addr) == FailuresAfter(r.before.Last(), r.login, addr, r.before.Failures(addr))
    ensures r.Offenders() == r.before.Offenders() + if r.login.attempt == L.Wrong then {r.login.addr} else {}
    ensures r.NeverRight(addr) == (r.before.NeverRight(addr) && !(r.login.addr == addr && r.login.attempt == L.Right))
  {
  }

  function FailuresAfter(peers: Peers, l: L.Login, addr: string, f: seq<int>): seq<int> {
    if L.Open(peers, l) && l.addr == addr && l.attempt == L.Wrong then f + [l.now] else f
  }

  lemma OneMore(peers: Peers, l: L.Login, t: Peers, addr: string, f: seq<int>, offenders: set<string>, neverRight: bool)
    requires Told(State(peers, map[]), l.now, addr, f, offenders, neverRight) && L.Logs(peers, l, t)
    ensures Told(State(t, map[]), l.now, addr, FailuresAfter(peers, l, addr, f),
                 offenders + if l.attempt == L.Wrong then {l.addr} else {},
                 neverRight && !(l.addr == addr && l.attempt == L.Right))
  {
    if L.Open(peers, l) {
      OneMoreLogin(peers, l, t, addr, f, offenders, neverRight);
    } else {
      ToldMore(State(peers, map[]), l.now, addr, f, offenders, neverRight,
               offenders + if l.attempt == L.Wrong then {l.addr} else {});
    }
  }

  lemma ToldLater(s: State, at: int, now: int, addr: string, f: seq<int>, offenders: set<string>, neverRight: bool)
    requires Told(s, at, addr, f, offenders, neverRight) && at <= now
    ensures Told(s, now, addr, f, offenders, neverRight)
  {
    var o: Run :| Tale(o, at, addr, f, offenders, neverRight) && o.Last() == s;
    assert Tale(o, now, addr, f, offenders, neverRight);
  }

  lemma ToldMore(s: State, at: int, addr: string, f: seq<int>, offenders: set<string>, neverRight: bool,
                 more: set<string>)
    requires Told(s, at, addr, f, offenders, neverRight) && offenders <= more
    ensures Told(s, at, addr, f, more, neverRight) && Told(s, at, addr, f, more, false)
  {
    var o: Run :| Tale(o, at, addr, f, offenders, neverRight) && o.Last() == s;
    assert Tale(o, at, addr, f, more, neverRight) && Tale(o, at, addr, f, more, false);
  }

  lemma OneMoreLogin(peers: Peers, l: L.Login, t: Peers, addr: string, f: seq<int>, offenders: set<string>,
                     neverRight: bool)
    requires Told(State(peers, map[]), l.now, addr, f, offenders, neverRight)
    requires L.Open(peers, l) && L.Logs(peers, l, t)
    ensures Told(State(t, map[]), l.now, addr, if l.addr == addr && l.attempt == L.Wrong then f + [l.now] else f,
                 offenders + if l.attempt == L.Wrong then {l.addr} else {},
                 neverRight && !(l.addr == addr && l.attempt == L.Right))
  {
    Arrives(peers, l, addr, f, offenders, neverRight);
    var s := State(peers, map[0 := Flight(l.addr, l.now)]);
    var o: Run :| Tale(o, l.now, addr, f, offenders, neverRight) && o.Last() == s;
    assert s.flying - {0} == map[];
    if l.attempt == L.Wrong {
      FailureTold(o, l, State(t, map[]), addr, f, offenders, neverRight);
    } else {
      OutcomeTold(o, l, State(t, map[]), addr, f, offenders, neverRight);
    }
  }

  lemma Arrives(peers: Peers, l: L.Login, addr: string, f: seq<int>, offenders: set<string>, neverRight: bool)
    requires Told(State(peers, map[]), l.now, addr, f, offenders, neverRight) && L.Open(peers, l)
    ensures Told(State(peers, map[0 := Flight(l.addr, l.now)]), l.now, addr, f, offenders, neverRight)
  {
    var o: Run :| Tale(o, l.now, addr, f, offenders, neverRight) && o.Last() == State(peers, map[]);
    ArrivalTold(o, l, addr, f, offenders, neverRight);
  }

  lemma ArrivalTold(o: Run, l: L.Login, addr: string, f: seq<int>, offenders: set<string>, neverRight: bool)
    requires Tale(o, l.now, addr, f, offenders, neverRight) && o.Last().flying == map[] && L.Open(o.Last().peers, l)
    ensures Told(State(o.Last().peers, map[0 := Flight(l.addr, l.now)]), l.now, addr, f, offenders, neverRight)
  {
    var s := State(o.Last().peers, map[0 := Flight(l.addr, l.now)]);
    L.Fewer(Flying(s, addr), {0});
    Quiet(o, Check(0, l.addr, l.now), s, addr);
    assert Tale(Then(o, Check(0, l.addr, l.now), s), l.now, addr, f, offenders, neverRight);
  }

  lemma Quiet(o: Run, e: Event, t: State, addr: string)
    requires e.Check?
    ensures var o' := Then(o, e, t);
            && o'.Failures(addr) == o.Failures(addr) && o'.Offenders() == o.Offenders()
            && o'.NeverRight(addr) == o.NeverRight(addr)
  {
    assert o.Failures(addr) + [] == o.Failures(addr) && o.Offenders() + {} == o.Offenders();
  }

  lemma FailureTold(o: Run, l: L.Login, t: State, addr: string, f: seq<int>, offenders: set<string>, neverRight: bool)
    requires Tale(o, l.now, addr, f, offenders, neverRight) && o.Last().flying == map[0 := Flight(l.addr, l.now)]
    requires Step(o.Last(), Note(0, l.now), t) && t.flying == map[]
    ensures Told(t, l.now, addr, if l.addr == addr then f + [l.now] else f, offenders + {l.addr}, neverRight)
  {
    OneNote(o, l, t, addr);
    assert Tale(Then(o, Note(0, l.now), t), l.now, addr, if l.addr == addr then f + [l.now] else f,
                offenders + {l.addr}, neverRight);
  }

  lemma OneNote(o: Run, l: L.Login, t: State, addr: string)
    requires o.Last().flying == map[0 := Flight(l.addr, l.now)] && t.flying == map[] && o.Overlaps(addr, 1, 0)
    ensures var o' := Then(o, Note(0, l.now), t);
            && o'.Failures(addr) == (if l.addr == addr then o.Failures(addr) + [l.now] else o.Failures(addr))
            && o'.Offenders() == o.Offenders() + {l.addr}
            && o'.NeverRight(addr) == o.NeverRight(addr) && o'.Overlaps(addr, 1, 0)
  {
    assert Flying(t, addr) == {};
    assert o.Failures(addr) + [] == o.Failures(addr);
  }

  lemma OutcomeTold(o: Run, l: L.Login, t: State, addr: string, f: seq<int>, offenders: set<string>, neverRight: bool)
    requires Tale(o, l.now, addr, f, offenders, neverRight) && o.Last().flying == map[0 := Flight(l.addr, l.now)]
    requires Step(o.Last(), if l.attempt == L.Right then SignIn(0, l.now) else Leave(0, l.now), t) && t.flying == map[]
    ensures Told(t, l.now, addr, f, offenders + {}, neverRight && !(l.addr == addr && l.attempt == L.Right))
  {
    var e := if l.attempt == L.Right then SignIn(0, l.now) else Leave(0, l.now);
    assert Flying(t, addr) == {};
    assert f + [] == f && o.Offenders() + {} == o.Offenders() && offenders + {} == offenders;
    assert Tale(Then(o, e, t), l.now, addr, f, offenders, neverRight && !(l.addr == addr && l.attempt == L.Right));
  }
}
