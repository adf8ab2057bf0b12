/** The login lockout of auth/auth.go: the peer table, its eviction, and the rate of evaluated failures
    that a run without overlapping logins allows one address. */
module Lockout {
  import opened Wrappers
  import opened Retry
  import Ingest

  const MAX_LOGIN_FAILS: int := 5
  const LOCK_WINDOW: int := 60 * SECOND
  const MAX_TRACKED_PEERS: int := 4096

  datatype Peer = Peer(fails: int, locked: int, seen: int)

  const NEW_PEER := Peer(0, Ingest.ZERO_TIME, Ingest.ZERO_TIME)

  predicate Stale(p: Peer, now: int) {
    now > p.locked && now - p.seen > LOCK_WINDOW
  }

  function Unstale(peers: map<string, Peer>, now: int): map<string, Peer> {
    map a | a in peers && !Stale(peers[a], now) :: peers[a]
  }

  /** Making room: nothing below the limit; else the stale peers go, and if that is not enough, any
      others until there is room for one. */
  ghost predicate MakesRoom(peers: map<string, Peer>, now: int, kept: map<string, Peer>) {
    if |peers| < MAX_TRACKED_PEERS then kept == peers
    else
      var live := Unstale(peers, now);
      && kept.Keys <= live.Keys && (forall a :: a in kept ==> kept[a] == live[a])
      && |kept| == if |live| < MAX_TRACKED_PEERS then |live| else MAX_TRACKED_PEERS - 1
  }

  function Failed(p: Peer, now: int): Peer {
    if p.fails + 1 >= MAX_LOGIN_FAILS then Peer(0, now + LOCK_WINDOW, now) else Peer(p.fails + 1, p.locked, now)
  }

  /** One evaluated failure of an address. */
  ghost predicate Notes(peers: map<string, Peer>, addr: string, now: int, t: map<string, Peer>) {
    if addr in peers then t == peers[addr := Failed(peers[addr], now)]
    else exists kept :: MakesRoom(peers, now, kept) && t == kept[addr := Failed(NEW_PEER, now)]
  }

  /** What a login carries: an unreadable body, wrong credentials, right ones for which no token could be
      made, or right ones. */
  datatype Attempt = Unreadable | Wrong | NoToken | Right

  class Guard {
    var peers: map<string, Peer>

    constructor ()
      ensures peers == map[]
    {
      peers := map[];
    }

    method LockedOut(addr: string, now: int) returns (locked: bool)
      ensures locked <==> addr in peers && now < peers[addr].locked
    {
      return addr in peers && now < peers[addr].locked;
    }

    method NoteFailure(addr: string, now: int)
      modifies this
      ensures Notes(old(peers), addr, now, peers)
    {
      var p := NEW_PEER;
      if addr in peers {
        p := peers[addr];
      } else {
        EvictPeers(now);
      }
      p := p.(seen := now, fails := p.fails + 1);
      if p.fails >= MAX_LOGIN_FAILS {
        p := p.(locked := now + LOCK_WINDOW, fails := 0);
      }
      peers := peers[addr := p];
    }

    method EvictPeers(now: int)
      modifies this
      ensures MakesRoom(old(peers), now, peers)
    {
      if |peers| < MAX_TRACKED_PEERS {
        return;
      }
      DropStale(now);
      if |peers| < MAX_TRACKED_PEERS {
        return;
      }
      DropAny();
    }

    method DropStale(now: int)
      modifies this
      ensures peers == Unstale(old(peers), now)
    {
      ghost var before := peers;
      var addrs := peers.Keys;
      while addrs != {}
        invariant addrs <= peers.Keys <= before.Keys
        invariant forall a :: a in peers ==> peers[a] == before[a]
        invariant forall a :: a in before && a !in addrs ==> (a in peers <==> !Stale(before[a], now))
      {
        var addr :| addr in addrs;
        addrs := addrs - {addr};
        if Stale(peers[addr], now) {
          peers := peers - {addr};
        }
      }
    }

    /** Deletes peers in no particular order until there is room. */
    method DropAny()
      requires |peers| >= MAX_TRACKED_PEERS
      modifies this
      ensures peers.Keys <= old(peers).Keys && (forall a :: a in peers ==> peers[a] == old(peers)[a])
      ensures |peers| == MAX_TRACKED_PEERS - 1
    {
      while |peers| >= MAX_TRACKED_PEERS
        invariant |peers| >= MAX_TRACKED_PEERS - 1
        invariant peers.Keys <= old(peers).Keys && forall a :: a in peers ==> peers[a] == old(peers)[a]
        decreases |peers|
      {
        NotEmpty(peers);
        var addr :| addr in peers;
        assert (peers - {addr}).Keys == peers.Keys - {addr};
        peers := peers - {addr};
      }
    }

    /** The lockout path of a login; the answer is the HTTP status. */
    method Login(addr: string, now: int, attempt: Attempt) returns (status: int)
      modifies this
      ensures Logs(old(peers), Entry(addr, now, attempt), peers)
      ensures status == Status(old(peers), Entry(addr, now, attempt))
      ensures status == 429 <==> addr in old(peers) && now < old(peers)[addr].locked
      ensures status != 429 ==> status == if attempt == Unreadable then 400 else if attempt == Wrong then 401
                                          else if attempt == NoToken then 500 else 200
    {
      var locked := LockedOut(addr, now);
      if locked {
        return 429;
      }
      match attempt {
        case Unreadable => return 400;
        case Wrong =>
          NoteFailure(addr, now);
          return 401;
        case NoToken => return 500;
        case Right =>
          peers := peers - {addr};
          return 200;
      }
    }
  }

  lemma NotEmpty(peers: map<string, Peer>)
    requires |peers| >= 1
    ensures exists a :: a in peers
  {
    assert peers.Keys != {};
  }

  // ---------------------------------------------------------------- whole runs

  datatype Login = Entry(addr: string, now: int, attempt: Attempt)

  predicate Open(peers: map<string, Peer>, l: Login) {
    !(l.addr in peers && l.now < peers[l.addr].locked)
  }

  function Status(peers: map<string, Peer>, l: Login): int {
    if !Open(peers, l) then 429
    else match l.attempt case Unreadable => 400 case Wrong => 401 case NoToken => 500 case Right => 200
  }

  /** The table before and after one login. */
  ghost predicate Logs(peers: map<string, Peer>, l: Login, t: map<string, Peer>) {
    if Status(peers, l) == 401 then Notes(peers, l.addr, l.now, t)
    else if Status(peers, l) == 200 then t == peers - {l.addr}
    else t == peers
  }

  datatype Run = Start | Then(before: Run, login: Login, peers: map<string, Peer>) {
    function Last(): map<string, Peer> {
      if Start? then map[] else peers
    }

    function Clock(): int {
      if Start? then Ingest.ZERO_TIME else login.now
    }

    /** Logins follow one another, on a clock that does not run backwards. */
    ghost predicate Valid() {
      Then? ==> before.Valid() && before.Clock() <= login.now && Logs(before.Last(), login, peers)
    }

    /** The times at which wrong credentials of an address were evaluated rather than turned away. */
    function Failures(addr: string): seq<int> {
      if Start? then []
      else
        var f := before.Failures(addr);
        if login.addr == addr && Status(before.Last(), login) == 401 then f + [login.now] else f
    }

    /** The addresses from which wrong credentials have come. */
    function Offenders(): set<string> {
      if Start? then {}
      else before.Offenders() + if login.attempt == Wrong then {login.addr} else {}
    }

    /** Right credentials never come from the address. */
    predicate NeverRight(addr: string) {
      Then? ==> before.NeverRight(addr) && !(login.addr == addr && login.attempt == Right)
    }

    /** The address never signs in, and is never dropped while it is not stale. */
    ghost predicate Undisturbed(addr: string) {
      Then? ==>
        && before.Undisturbed(addr)
        && !(login.addr == addr && Status(before.Last(), login) == 200)
        && (addr in before.Last() && addr !in peers ==> Stale(before.Last()[addr], login.now))
    }
  }

  lemma {:induction false} TableBounded(r: Run)
    requires r.Valid()
    ensures |r.Last()| <= MAX_TRACKED_PEERS
  {
    if r.Start? {
    } else {
      TableBounded(r.before);
      StepBounded(r.before.Last(), r.login, r.peers);
    }
  }

  lemma StepBounded(peers: map<string, Peer>, l: Login, t: map<string, Peer>)
    requires |peers| <= MAX_TRACKED_PEERS && Logs(peers, l, t)
    ensures |t| <= MAX_TRACKED_PEERS
  {
    if Status(peers, l) == 401 {
      if l.addr in peers {
        assert t.Keys == peers.Keys;
      } else {
        var kept :| MakesRoom(peers, l.now, kept) && t == kept[l.addr := Failed(NEW_PEER, l.now)];
        assert t.Keys == kept.Keys + {l.addr};
      }
    } else if Status(peers, l) == 200 {
      assert t.Keys == peers.Keys - {l.addr};
      assert |peers.Keys| == |t.Keys| + |peers.Keys - t.Keys|;
    }
  }

  /** How many failures the table holds against an address. */
  function Held(peers: map<string, Peer>, addr: string): int {
    if addr in peers then peers[addr].fails else 0
  }

  /** The failures fall into groups of five, a full window apart; the table holds the size of the last,
      unfinished group, and after a finished group (or a forgotten one) keeps the address shut until the
      window has passed. */
  ghost predicate Grouped(f: seq<int>, peers: map<string, Peer>, addr: string, now: int) {
    var k := Held(peers, addr);
    && 0 <= k < MAX_LOGIN_FAILS && k <= |f|
    && (forall i, j :: 0 <= i < j < |f| ==> f[i] <= f[j])
    && (f != [] ==> f[|f| - 1] <= now)
    && (k > 0 && |f| > k ==> f[|f| - k] - f[|f| - k - 1] >= LOCK_WINDOW)
    && (k == 0 && f != [] ==>
          if addr in peers then peers[addr].locked >= f[|f| - 1] + LOCK_WINDOW else now - f[|f| - 1] >= LOCK_WINDOW)
    && (addr in peers ==> f != [] && peers[addr].seen == f[|f| - 1])
  }

  ghost predicate FiveApart(f: seq<int>) {
    forall i, j :: 0 <= i && i + MAX_LOGIN_FAILS <= j < |f| ==> f[j] - f[i] >= LOCK_WINDOW
  }

  lemma NotesKeeps(peers: map<string, Peer>, l: Login, t: map<string, Peer>, a: string)
    requires Logs(peers, l, t) && a != l.addr && a in t
    ensures a in peers && t[a] == peers[a]
  {
    if Status(peers, l) == 401 && l.addr !in peers {
      var kept :| MakesRoom(peers, l.now, kept) && t == kept[l.addr := Failed(NEW_PEER, l.now)];
    }
  }

  lemma {:induction false} RunIsGrouped(r: Run, addr: string)
    requires r.Valid() && r.Undisturbed(addr)
    ensures Grouped(r.Failures(addr), r.Last(), addr, r.Clock()) && FiveApart(r.Failures(addr))
  {
    if r.Start? {
    } else {
      RunIsGrouped(r.before, addr);
      var f, peers, l := r.before.Failures(addr), r.before.Last(), r.login;
      if l.addr == addr && Status(peers, l) == 401 {
        OneMoreFailure(f, peers, l, r.peers, r.before.Clock());
      } else {
        if l.addr != addr && addr in r.peers {
          NotesKeeps(peers, l, r.peers, addr);
        }
        NoFailure(f, peers, r.peers, addr, r.before.Clock(), l.now);
      }
    }
  }

  lemma NoFailure(f: seq<int>, peers: map<string, Peer>, t: map<string, Peer>, addr: string, prev: int, now: int)
    requires Grouped(f, peers, addr, prev) && prev <= now
    requires addr in t ==> addr in peers && t[addr] == peers[addr]
    requires addr in peers && addr !in t ==> Stale(peers[addr], now)
    ensures Grouped(f, t, addr, now)
  {
  }

  lemma OneMoreFailure(f: seq<int>, peers: map<string, Peer>, l: Login, t: map<string, Peer>, prev: int)
    requires Grouped(f, peers, l.addr, prev) && FiveApart(f) && prev <= l.now
    requires Open(peers, l) && Notes(peers, l.addr, l.now, t)
    ensures Grouped(f + [l.now], t, l.addr, l.now) && FiveApart(f + [l.now])
  {
    NotedPeer(peers, l, t);
    StillApart(f, Held(peers, l.addr), l.now);
    GroupGrows(f, peers, l.addr, l.now, t, prev);
  }

  lemma GroupGrows(f: seq<int>, peers: map<string, Peer>, addr: string, now: int, t: map<string, Peer>, prev: int)
    requires Grouped(f, peers, addr, prev) && prev <= now && !(addr in peers && now < peers[addr].locked)
    requires addr in t && t[addr] == Failed(if addr in peers then peers[addr] else NEW_PEER, now)
    ensures Grouped(f + [now], t, addr, now)
  {
    var g := f + [now];
    var k := Held(peers, addr);
    assert g[|g| - 1] == now;
    assert forall i, j :: 0 <= i < j < |g| ==> g[i] <= g[j];
    if k + 1 < MAX_LOGIN_FAILS && |g| > k + 1 {
      assert g[|g| - (k + 1)] == if k == 0 then now else f[|f| - k];
      assert g[|g| - (k + 1) - 1] == f[|f| - k - 1];
    }
  }

  lemma NotedPeer(peers: map<string, Peer>, l: Login, t: map<string, Peer>)
    requires Notes(peers, l.addr, l.now, t)
    ensures l.addr in t && t[l.addr] == Failed(if l.addr in peers then peers[l.addr] else NEW_PEER, l.now)
  {
  }

  lemma StillApart(f: seq<int>, k: int, now: int)
    requires FiveApart(f) && (forall i, j :: 0 <= i < j < |f| ==> f[i] <= f[j])
    requires 0 <= k < MAX_LOGIN_FAILS && k <= |f| && (f != [] ==> f[|f| - 1] <= now)
    requires |f| > k ==> (if k == 0 then now else f[|f| - k]) - f[|f| - k - 1] >= LOCK_WINDOW
    ensures FiveApart(f + [now])
  {
    var g := f + [now];
    forall i, j | 0 <= i && i + MAX_LOGIN_FAILS <= j < |g| ensures g[j] - g[i] >= LOCK_WINDOW {
      if j == |f| {
        assert f[i] <= f[|f| - k - 1];
      }
    }
  }

  /** The number of times that fall in a half-open window. */
  function Within(f: seq<int>, from: int): nat {
    if f == [] then 0
    else Within(f[..|f| - 1], from) + if from <= f[|f| - 1] < from + LOCK_WINDOW then 1 else 0
  }

  lemma {:induction false} WithinAtMost(f: seq<int>, from: int, k: nat)
    requires k <= |f| && forall i :: 0 <= i < k ==> f[i] < from
    ensures Within(f, from) <= |f| - k
  {
    if f == [] {
    } else {
      WithinAtMost(f[..|f| - 1], from, if k == |f| then k - 1 else k);
    }
  }

  lemma {:induction false} WithinBounded(f: seq<int>, from: int)
    requires FiveApart(f) && forall i, j :: 0 <= i < j < |f| ==> f[i] <= f[j]
    ensures Within(f, from) <= MAX_LOGIN_FAILS
  {
    if |f| <= MAX_LOGIN_FAILS {
      WithinAtMost(f, from, 0);
    } else if from <= f[|f| - 1] < from + LOCK_WINDOW {
      var k := |f| - MAX_LOGIN_FAILS;
      assert f[|f| - 1] - f[k - 1] >= LOCK_WINDOW;
      WithinAtMost(f, from, k);
    } else {
      WithinBounded(f[..|f| - 1], from);
    }
  }

  /** No window of a minute sees more than five evaluated failures of one address, across lockouts and
      stale evictions, as long as it neither signs in nor is dropped while still fresh. */
  lemma FailuresAreRationed(r: Run, addr: string, from: int)
    requires r.Valid() && r.Undisturbed(addr)
    ensures Within(r.Failures(addr), from) <= MAX_LOGIN_FAILS
  {
    RunIsGrouped(r, addr);
    WithinBounded(r.Failures(addr), from);
  }

  lemma {:induction false} PeersAreOffenders(r: Run)
    requires r.Valid()
    ensures r.Last().Keys <= r.Offenders()
  {
    if r.Start? {
    } else {
      PeersAreOffenders(r.before);
      StepAmong(r.before.Last(), r.login, r.peers);
    }
  }

  lemma StepAmong(peers: map<string, Peer>, l: Login, t: map<string, Peer>)
    requires Logs(peers, l, t)
    ensures t.Keys <= peers.Keys + if l.attempt == Wrong then {l.addr} else {}
  {
    if Status(peers, l) == 401 && l.addr !in peers {
      var kept :| MakesRoom(peers, l.now, kept) && t == kept[l.addr := Failed(NEW_PEER, l.now)];
      assert t.Keys == kept.Keys + {l.addr};
    }
  }

  lemma Fewer<T>(part: set<T>, big: set<T>)
    requires part <= big
    ensures |part| <= |big|
  {
    Split(big, part);
  }

  /** While there is room for every address that has offended, none is ever dropped. */
  lemma {:induction false} FewAreUndisturbed(r: Run, addr: string)
    requires r.Valid() && |r.Offenders()| <= MAX_TRACKED_PEERS && r.NeverRight(addr)
    ensures r.Undisturbed(addr)
  {
    if r.Start? {
    } else {
      Fewer(r.before.Offenders(), r.Offenders());
      FewAreUndisturbed(r.before, addr);
      PeersAreOffenders(r.before);
      if Status(r.before.Last(), r.login) == 401 && r.login.addr !in r.before.Last() {
        RoomLeft(r.before.Last().Keys, r.login.addr, r.Offenders());
      }
    }
  }

  lemma RoomLeft(tracked: set<string>, addr: string, offenders: set<string>)
    requires tracked <= offenders && addr in offenders && addr !in tracked && |offenders| <= MAX_TRACKED_PEERS
    ensures |tracked| < MAX_TRACKED_PEERS
  {
    Fewer(tracked + {addr}, offenders);
  }

  /** Every run with wrong credentials from at most `n` addresses rations every address from which right
      ones never come. */
  ghost predicate AlwaysRationed(n: nat) {
    forall r: Run, addr, from :: r.Valid() && |r.Offenders()| <= n && r.NeverRight(addr) ==>
      Within(r.Failures(addr), from) <= MAX_LOGIN_FAILS
  }

  /** When a failure from a new address finds the table full and some peer out of its lock and silent for
      longer than a window, it drops exactly the peers like that. */
  lemma StaleGoFirst(peers: map<string, Peer>, addr: string, now: int, t: map<string, Peer>, stale: string)
    requires Notes(peers, addr, now, t) && addr !in peers && |peers| == MAX_TRACKED_PEERS
    requires stale in peers && now > peers[stale].locked && now - peers[stale].seen > LOCK_WINDOW
    ensures forall a :: a in t && a != addr ==> a in peers && t[a] == peers[a]
    ensures forall a :: a in peers ==> (a in t <==> !(now > peers[a].locked && now - peers[a].seen > LOCK_WINDOW))
  {
    StaleShrinks(peers, now, stale);
    var kept :| MakesRoom(peers, now, kept) && t == kept[addr := Failed(NEW_PEER, now)];
    AllKept(kept, Unstale(peers, now));
  }

  lemma StaleShrinks(peers: map<string, Peer>, now: int, stale: string)
    requires stale in peers && Stale(peers[stale], now)
    ensures |Unstale(peers, now)| < |peers|
  {
    var live := Unstale(peers, now);
    assert live.Keys <= peers.Keys - {stale};
    Fewer(live.Keys, peers.Keys - {stale});
  }

  lemma AllKept(kept: map<string, Peer>, live: map<string, Peer>)
    requires kept.Keys <= live.Keys && |kept| == |live|
    ensures kept.Keys == live.Keys
  {
    Split(live.Keys, kept.Keys);
  }

  /** The ration is certain if and only if the table has room for all offending addresses. */
  lemma RationedForCertainExactly(n: nat)
    ensures AlwaysRationed(n) <==> n <= MAX_TRACKED_PEERS
  {
    if n <= MAX_TRACKED_PEERS {
      forall r: Run, addr, from | r.Valid() && |r.Offenders()| <= n && r.NeverRight(addr)
        ensures Within(r.Failures(addr), from) <= MAX_LOGIN_FAILS
      {
        FewAreUndisturbed(r, addr);
        FailuresAreRationed(r, addr, from);
      }
    } else {
      var r := ForgottenPeerExceedsRation();
    }
  }

  /** The last condition cannot be dropped: with a full table of fresh peers, one failure from a new
      address may forget any other address, and with it the failures held against it. */
  lemma FullTableMayForget(peers: map<string, Peer>, addr: string, other: string, now: int)
    returns (t: map<string, Peer>)
    requires |peers| == MAX_TRACKED_PEERS && addr in peers && other !in peers
    requires forall a :: a in peers ==> !Stale(peers[a], now)
    ensures Notes(peers, other, now, t) && t == (peers - {addr})[other := Failed(NEW_PEER, now)]
    ensures |t| == MAX_TRACKED_PEERS && addr !in t && Held(t, addr) == 0
  {
    var kept := peers - {addr};
    assert kept.Keys == peers.Keys - {addr};
    assert Unstale(peers, now) == peers;
    assert MakesRoom(peers, now, kept);
    t := kept[other := Failed(NEW_PEER, now)];
    assert t.Keys == kept.Keys + {other};
  }

  // ---------------------------------------------------------------- a run that shows it

  /** Addresses of their own, none of them "a". */
  function Name(n: nat): string {
    seq(n, _ => 'x')
  }

  /** The table once "a" has failed four times and `n` others once each, all at time 0. */
  function Crowd(n: nat): map<string, Peer> {
    if n == 0 then map["a" := Peer(4, Ingest.ZERO_TIME, 0)]
    else Crowd(n - 1)[Name(n) := Peer(1, Ingest.ZERO_TIME, 0)]
  }

  lemma {:induction false} CrowdIs(n: nat)
    ensures |Crowd(n)| == n + 1 && "a" in Crowd(n) && Crowd(n)["a"].fails == 4
    ensures forall a :: a in Crowd(n) ==> !Stale(Crowd(n)[a], 0)
    ensures forall m :: m > n ==> Name(m) !in Crowd(n)
  {
    NamesDiffer();
    if n == 0 {
    } else {
      CrowdIs(n - 1);
      assert Crowd(n).Keys == Crowd(n - 1).Keys + {Name(n)};
    }
  }

  lemma NamesDiffer()
    ensures forall m: nat :: Name(m) != "a"
    ensures forall m, n: nat | m != n :: Name(m) != Name(n)
  {
    forall m: nat ensures Name(m) != "a" {
      assert Name(m) != [] ==> Name(m)[0] == 'x';
    }
    forall m: nat, n: nat | m != n ensures Name(m) != Name(n) {
      assert |Name(m)| == m && |Name(n)| == n;
    }
  }

  /** A run at time 0 with `k` failures of "a" behind it, and no right credentials from there. */
  ghost predicate Tells(r: Run, k: nat, offenders: set<string>) {
    && r.Valid() && r.Clock() <= 0 && r.NeverRight("a") && r.Offenders() == offenders
    && |r.Failures("a")| == k && forall i :: 0 <= i < k ==> r.Failures("a")[i] == 0
  }

  lemma Fail(r: Run, k: nat, offenders: set<string>, addr: string, t: map<string, Peer>) returns (r': Run)
    requires Tells(r, k, offenders) && Notes(r.Last(), addr, 0, t) && Open(r.Last(), Entry(addr, 0, Wrong))
    ensures r'.Last() == t && Tells(r', if addr == "a" then k + 1 else k, offenders + {addr})
  {
    r' := Then(r, Entry(addr, 0, Wrong), t);
    FailTold(r, addr, t);
  }

  lemma FailTold(r: Run, addr: string, t: map<string, Peer>)
    requires Open(r.Last(), Entry(addr, 0, Wrong))
    ensures var r' := Then(r, Entry(addr, 0, Wrong), t);
            && r'.Failures("a") == (if addr == "a" then r.Failures("a") + [0] else r.Failures("a"))
            && r'.Offenders() == r.Offenders() + {addr} && r'.NeverRight("a") == r.NeverRight("a")
  {
    assert Status(r.Last(), Entry(addr, 0, Wrong)) == 401;
  }

  lemma {:induction false} SomeFailures(k: nat) returns (r: Run)
    requires k < MAX_LOGIN_FAILS
    ensures r.Last() == if k == 0 then map[] else map["a" := Peer(k, Ingest.ZERO_TIME, 0)]
    ensures Tells(r, k, r.Last().Keys)
  {
    if k == 0 {
      r := Start;
    } else {
      r := SomeFailures(k - 1);
      OneMoreNoted(k);
      r := Fail(r, k - 1, r.Last().Keys, "a", map["a" := Peer(k, Ingest.ZERO_TIME, 0)]);
    }
  }

  lemma OneMoreNoted(k: nat)
    requires 1 <= k < MAX_LOGIN_FAILS
    ensures Notes(if k == 1 then map[] else map["a" := Peer(k - 1, Ingest.ZERO_TIME, 0)], "a", 0,
                  map["a" := Peer(k, Ingest.ZERO_TIME, 0)])
  {
    if k == 1 {
      assert MakesRoom(map[], 0, map[]);
    } else {
      var t := map["a" := Peer(k - 1, Ingest.ZERO_TIME, 0)];
      assert t["a" := Failed(t["a"], 0)] == map["a" := Peer(k, Ingest.ZERO_TIME, 0)];
    }
  }

  lemma {:induction false} Crowding(n: nat) returns (r: Run)
    requires n < MAX_TRACKED_PEERS
    ensures r.Last() == Crowd(n) && Tells(r, 4, Crowd(n).Keys)
  {
    if n == 0 {
      r := SomeFailures(4);
    } else {
      r := Crowding(n - 1);
      r := CrowdMore(r, n);
    }
  }

  lemma CrowdMore(r: Run, n: nat) returns (r': Run)
    requires 1 <= n < MAX_TRACKED_PEERS && r.Last() == Crowd(n - 1) && Tells(r, 4, Crowd(n - 1).Keys)
    ensures r'.Last() == Crowd(n) && Tells(r', 4, Crowd(n).Keys)
  {
    CrowdGrows(n);
    r' := Fail(r, 4, r.Last().Keys, Name(n), Crowd(n));
  }

  lemma CrowdGrows(n: nat)
    requires 1 <= n < MAX_TRACKED_PEERS
    ensures Name(n) != "a" && Crowd(n).Keys == Crowd(n - 1).Keys + {Name(n)}
    ensures Notes(Crowd(n - 1), Name(n), 0, Crowd(n)) && Open(Crowd(n - 1), Entry(Name(n), 0, Wrong))
  {
    CrowdIs(n - 1);
    assert MakesRoom(Crowd(n - 1), 0, Crowd(n - 1));
    assert Name(n)[0] == 'x';
  }

  lemma {:induction false} AllWithin(f: seq<int>, from: int)
    requires forall i :: 0 <= i < |f| ==> from <= f[i] < from + LOCK_WINDOW
    ensures Within(f, from) == |f|
  {
    if f == [] {
    } else {
      AllWithin(f[..|f| - 1], from);
    }
  }

  /** A forgotten address starts over, for which the full table forgets another. */
  lemma FailTwiceMore(r: Run, k: nat, offenders: set<string>, other: string) returns (r': Run)
    requires Tells(r, k, offenders) && |r.Last()| == MAX_TRACKED_PEERS && "a" !in r.Last() && other in r.Last()
    requires forall a :: a in r.Last() ==> !Stale(r.Last()[a], 0)
    ensures Tells(r', k + 2, offenders + {"a"})
  {
    var t := FullTableMayForget(r.Last(), other, "a", 0);
    r' := Fail(r, k, offenders, "a", t);
    r' := Fail(r', k + 1, offenders + {"a"}, "a", t["a" := Failed(t["a"], 0)]);
    assert offenders + {"a"} + {"a"} == offenders + {"a"};
  }

  lemma SixFailures() returns (r: Run, offenders: set<string>)
    ensures Tells(r, 6, offenders) && |offenders| == MAX_TRACKED_PEERS + 1
  {
    var n := MAX_TRACKED_PEERS - 1;
    var other := Name(n + 1);
    r := Crowding(n);
    CrowdIs(n);
    assert other[0] == 'x';
    var t := FullTableMayForget(Crowd(n), "a", other, 0);
    r := Fail(r, 4, Crowd(n).Keys, other, t);
    offenders := Crowd(n).Keys + {other};
    r := FailTwiceMore(r, 4, offenders, other);
    assert offenders + {"a"} == offenders;
  }

  /** With one address more the ration is lost: a run in which right credentials never come from "a" and
      six of its failures are evaluated in one window. Four are held against it when a crowd fills the
      table, and one more address makes room by forgetting them. */
  lemma ForgottenPeerExceedsRation() returns (r: Run)
    ensures r.Valid() && r.Failures("a") == [0, 0, 0, 0, 0, 0] && Within(r.Failures("a"), 0) == MAX_LOGIN_FAILS + 1
    ensures !r.Undisturbed("a") && r.NeverRight("a") && |r.Offenders()| == MAX_TRACKED_PEERS + 1
  {
    var offenders;
    r, offenders := SixFailures();
    var f := r.Failures("a");
    assert |f| == 6 && f == [0, 0, 0, 0, 0, 0];
    AllWithin(f, 0);
    if r.Undisturbed("a") {
      FailuresAreRationed(r, "a", 0);
    }
  }
}
