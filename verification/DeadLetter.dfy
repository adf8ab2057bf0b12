/** The dead-letter queue of package `dlq`: what each critical section does to the parked entries and
    the counters, and the queue object whose sequential methods perform them.
    The directory is a map from file name (without `.json`) to what the file decodes to. */
module DeadLetter {
  import opened Wrappers
  import opened Retry
  import Ingest

  type Time = int
  type Id = string

  type Message = Ingest.Message

  datatype Config = Config(dir: string, maxEntries: int, maxAge: int, maxAttempts: int, interval: int,
                           backoff: Policy) {

    predicate Ready() {
      maxEntries >= 1 && maxAge > 0 && maxAttempts >= 1 && interval > 0 && backoff.initial > 0
    }

    function ApplyDefaults(): (c: Config)
      ensures c.Ready()
      ensures Ready() ==> c == this
    {
      var attempts := if maxAttempts <= 0 then 10 else maxAttempts;
      Config(
        dir,
        if maxEntries <= 0 then 1000 else maxEntries,
        if maxAge <= 0 then 24 * 3600 * SECOND else maxAge,
        attempts,
        if interval <= 0 then 30 * SECOND else interval,
        if backoff.initial <= 0 then Policy(attempts, 30 * SECOND, 30 * 60 * SECOND, 2.0, 0.2) else backoff)
    }
  }

  lemma ConfigDefaults(c: Config)
    ensures Config("", 0, 0, 0, 0, Policy(0, 0, 0, 0.0, 0.0)).ApplyDefaults() ==
              Config("", 1000, 86_400 * SECOND, 10, 30 * SECOND, Policy(10, 30 * SECOND, 1800 * SECOND, 2.0, 0.2))
    ensures c.maxEntries > 0 ==> c.ApplyDefaults().maxEntries == c.maxEntries
    ensures c.maxAge > 0 ==> c.ApplyDefaults().maxAge == c.maxAge
    ensures c.maxAttempts > 0 ==> c.ApplyDefaults().maxAttempts == c.maxAttempts
    ensures c.interval > 0 ==> c.ApplyDefaults().interval == c.interval
    ensures c.backoff.initial > 0 ==> c.ApplyDefaults().backoff == c.backoff
    ensures c.ApplyDefaults().dir == c.dir
  {
  }

  datatype Entry = Entry(id: Id, message: Message, reason: string, attempts: int,
                         firstFailed: Time, lastFailed: Time, nextAttempt: Time) {
    predicate Due(at: Time) {
      at >= nextAttempt
    }
  }

  datatype Stats = Stats(accepted: int, recovered: int, exhausted: int, expired: int, rejected: int, overflow: int)

  const NO_STATS := Stats(0, 0, 0, 0, 0, 0)

  datatype Store = Store(entries: map<Id, Entry>, stats: Stats)

  /** Every entry is filed under its own, non-empty id. */
  ghost predicate Keyed(es: map<Id, Entry>) {
    forall id :: id in es ==> id != "" && es[id].id == id
  }

  function Reason(cause: Option<Error>): string {
    match cause
    case None => ""
    case Some(e) => e.text
  }

  predicate Hopeless(cause: Option<Error>) {
    cause.Some? && !Retryable(cause)
  }

  /** Parking is refused exactly to failures whose chain says that retrying cannot help. */
  lemma HopelessExactly(cause: Option<Error>)
    ensures Hopeless(cause) <==> cause.Some? && ChainRefuses(cause.value)
  {
    if cause.Some? {
      RetryableExactly(cause.value);
    }
  }

  function Fresh(c: Config, id: Id, m: Message, cause: Option<Error>, now: Time, draw: Draw): Entry {
    Entry(id, m, Reason(cause), 0, now, now, now + Delay(c.backoff, 1, draw))
  }

  function Failed(c: Config, e: Entry, cause: Error, now: Time, draw: Draw): Entry {
    e.(attempts := e.attempts + 1, lastFailed := now, reason := Reason(Some(cause)),
       nextAttempt := now + Delay(c.backoff, e.attempts + 2, draw))
  }

  // ---------------------------------------------------------------- critical sections

  /** What is left once everything older than `maxAge` is dropped. */
  function Live(c: Config, es: map<Id, Entry>, now: Time): map<Id, Entry> {
    map id | id in es && now - es[id].firstFailed <= c.maxAge :: es[id]
  }

  function Expire(c: Config, s: Store, now: Time): Store {
    var live := Live(c, s.entries, now);
    Store(live, s.stats.(expired := s.stats.expired + |s.entries| - |live|))
  }

  /** `es` is what is left of `live` after dropping some of the oldest. */
  ghost predicate OldestDropped(live: map<Id, Entry>, es: map<Id, Entry>) {
    && es.Keys <= live.Keys
    && (forall id :: id in es ==> es[id] == live[id])
    && (forall gone, kept :: gone in live && gone !in es && kept in es ==>
          live[gone].firstFailed <= live[kept].firstFailed)
  }

  /** `keep` is a choice of the newest: nothing kept failed before anything dropped, and only as many
      are dropped as it takes to get below the limit. Among equals either may go. */
  ghost predicate KeepsNewest(c: Config, live: map<Id, Entry>, keep: map<Id, Entry>) {
    && OldestDropped(live, keep)
    && |keep| == (if |live| < c.maxEntries then |live| else c.maxEntries - 1)
  }

  /** Making room for one more entry: expire, then overflow. */
  ghost predicate MakesRoom(c: Config, s: Store, now: Time, t: Store) {
    var e := Expire(c, s, now);
    && KeepsNewest(c, e.entries, t.entries)
    && t.stats == e.stats.(overflow := e.stats.overflow + |e.entries| - |t.entries|)
  }

  /** Parking an entry: room is made, then it is filed and counted. */
  ghost predicate Admits(c: Config, s: Store, now: Time, e: Entry, t: Store) {
    && Get(t.entries, e.id) == Some(e)
    && MakesRoom(c, s, now, Before(t, e.id))
  }

  function Before(t: Store, id: Id): Store {
    Store(t.entries - {id}, t.stats.(accepted := t.stats.accepted - 1))
  }

  /** What one more failure makes of an entry: nothing once the attempts are used up. */
  function AfterFailure(c: Config, e: Entry, cause: Error, now: Time, draw: Draw): Option<Entry> {
    var f := Failed(c, e, cause, now, draw);
    if f.attempts >= c.maxAttempts then None else Some(f)
  }

  /** Files what a failure left of an entry: the updated entry, or nothing and one more given up. */
  function Settled(s: Store, id: Id, left: Option<Entry>): Store {
    match left
    case None => Store(s.entries - {id}, s.stats.(exhausted := s.stats.exhausted + 1))
    case Some(f) => s.(entries := s.entries[id := f])
  }

  function RecordFailure(c: Config, s: Store, id: Id, cause: Error, now: Time, draw: Draw): Store {
    if id in s.entries then Settled(s, id, AfterFailure(c, s.entries[id], cause, now, draw)) else s
  }

  function Remove(s: Store, id: Id): Store {
    s.(entries := s.entries - {id})
  }

  function Credit(s: Store): Store {
    s.(stats := s.stats.(recovered := s.stats.recovered + 1))
  }

  function DueIds(es: map<Id, Entry>, now: Time, ignoreBackoff: bool): set<Id> {
    set id | id in es && (ignoreBackoff || es[id].Due(now))
  }

  /** The snapshot a replay works through: the due entries, each once, oldest failure first. */
  ghost predicate Snapshot(es: map<Id, Entry>, now: Time, ignoreBackoff: bool, due: seq<Entry>) {
    && (forall i :: 0 <= i < |due| ==> due[i].id in es && due[i] == es[due[i].id])
    && (forall i, j :: 0 <= i < j < |due| ==> due[i].id != due[j].id && due[i].firstFailed <= due[j].firstFailed)
    && (set i | 0 <= i < |due| :: due[i].id) == DueIds(es, now, ignoreBackoff)
  }

  /** The entries that first failed after this one, and those that did not first fail before it. */
  function Later(es: map<Id, Entry>, id: Id): set<Id>
    requires id in es
  {
    set k | k in es && es[k].firstFailed > es[id].firstFailed
  }

  function NotEarlier(es: map<Id, Entry>, id: Id): set<Id>
    requires id in es
  {
    set k | k in es && k != id && es[k].firstFailed >= es[id].firstFailed
  }

  /** What parking promises: at most `maxEntries` afterwards, the new entry among them unchanged. Of the
      older ones, what stays has room among the newest, and what is lost to overflow has not: an entry
      that shares its time with no other stays if and only if fewer than `maxEntries - 1` failed later. */
  lemma ParkKeepsTheNewest(c: Config, s: Store, now: Time, e: Entry, t: Store, id: Id)
    requires c.Ready() && Admits(c, s, now, e, t) && id in Live(c, s.entries, now) && id != e.id
    ensures |t.entries| <= c.maxEntries && Get(t.entries, e.id) == Some(e)
    ensures KeepsNewest(c, Live(c, s.entries, now), t.entries - {e.id})
    ensures var live := Live(c, s.entries, now);
            && (id in t.entries ==> t.entries[id] == live[id] && |Later(live, id)| < c.maxEntries - 1)
            && (id !in t.entries ==> |NotEarlier(live, id)| >= c.maxEntries - 1)
            && (Later(live, id) == NotEarlier(live, id) ==> (id in t.entries <==> |Later(live, id)| < c.maxEntries - 1))
  {
    WithinLimit(c, s, now, e, t);
    KeptAreTheNewest(c, Live(c, s.entries, now), t.entries - {e.id}, id);
  }

  lemma WithinLimit(c: Config, s: Store, now: Time, e: Entry, t: Store)
    requires c.Ready() && Admits(c, s, now, e, t)
    ensures |t.entries| <= c.maxEntries
  {
    RemoveKey(t.entries, e.id);
  }

  lemma KeptAreTheNewest(c: Config, live: map<Id, Entry>, keep: map<Id, Entry>, id: Id)
    requires c.Ready() && KeepsNewest(c, live, keep) && id in live
    ensures id in keep ==> |Later(live, id)| < c.maxEntries - 1
    ensures id !in keep ==> |NotEarlier(live, id)| >= c.maxEntries - 1
  {
    if id in keep {
      assert Later(live, id) <= keep.Keys - {id};
      Smaller(Later(live, id), keep.Keys - {id});
    } else {
      if |live| < c.maxEntries {
        NoNeedlessOverflow(c, live, keep);
      }
      Smaller(keep.Keys, NotEarlier(live, id));
    }
  }

  lemma Smaller(part: set<Id>, big: set<Id>)
    requires part <= big
    ensures |part| <= |big|
  {
    Split(big, part);
  }

  /** Below the limit nothing overflows. */
  lemma NoNeedlessOverflow(c: Config, live: map<Id, Entry>, keep: map<Id, Entry>)
    requires KeepsNewest(c, live, keep) && |live| < c.maxEntries
    ensures keep == live
  {
    SameSizeSameKeys(keep.Keys, live.Keys);
  }

  lemma SameSizeSameKeys(small: set<Id>, big: set<Id>)
    requires small <= big && |small| == |big|
    ensures small == big
  {
    Split(big, small);
  }

  /** Everything that came in less everything that left with a counter; discarding has no counter. */
  function Total(s: Store): int {
    |s.entries| + s.stats.recovered + s.stats.exhausted + s.stats.expired + s.stats.overflow - s.stats.accepted
  }

  /** Parking conserves: what was parked is parked still, or expired, or overflowed, and the counters
      say how many of each. */
  lemma AdmitsConserves(c: Config, s: Store, now: Time, e: Entry, t: Store)
    requires Admits(c, s, now, e, t)
    ensures Total(t) == Total(s)
  {
    RemoveKey(t.entries, e.id);
  }

  lemma RecordFailureConserves(c: Config, s: Store, id: Id, cause: Error, now: Time, draw: Draw)
    ensures Total(RecordFailure(c, s, id, cause, now, draw)) == Total(s)
  {
    if id in s.entries {
      SettledConserves(s, id, AfterFailure(c, s.entries[id], cause, now, draw));
    }
  }

  lemma SettledConserves(s: Store, id: Id, left: Option<Entry>)
    requires id in s.entries
    ensures Total(Settled(s, id, left)) == Total(s)
  {
    RemoveKey(s.entries, id);
    match left
    case None =>
    case Some(f) => assert s.entries[id := f].Keys == s.entries.Keys;
  }

  lemma RecoverConserves(s: Store, id: Id)
    requires id in s.entries
    ensures Total(Credit(Remove(s, id))) == Total(s)
  {
    RemoveKey(s.entries, id);
  }

  lemma RemoveKey(m: map<Id, Entry>, id: Id)
    requires id in m
    ensures |m - {id}| == |m| - 1
  {
    assert (m - {id}).Keys == m.Keys - {id};
  }

  // ---------------------------------------------------------------- the directory

  /** What a `.json` file in the directory decodes to. */
  datatype File = Parked(entry: Entry) | Undecodable

  predicate Readable(f: File) {
    f.Parked? && f.entry.id != ""
  }

  /** What `load` makes of a directory: the readable files are parked again, the rest set aside. */
  ghost predicate Loads(disk: map<string, File>, es: map<Id, Entry>, files: map<string, Entry>, aside: set<string>) {
    && Keyed(es)
    && (forall id :: id in es ==> exists name :: name in disk && disk[name] == Parked(es[id]))
    && (forall name :: name in disk && Readable(disk[name]) ==> disk[name].entry.id in es)
    && files == (map name | name in disk && Readable(disk[name]) :: disk[name].entry)
    && aside == set name | name in disk && !Readable(disk[name])
  }

  ghost predicate NamedById(disk: map<string, File>) {
    forall name :: name in disk && Readable(disk[name]) ==> disk[name].entry.id == name
  }

  /** Memory and directory agree after `load` exactly when every readable file is named by its id. */
  lemma LoadMirrorsExactly(disk: map<string, File>, es: map<Id, Entry>, files: map<string, Entry>, aside: set<string>)
    requires Loads(disk, es, files, aside)
    ensures files == es <==> NamedById(disk)
  {
    if files == es {
      forall name | name in disk && Readable(disk[name]) ensures disk[name].entry.id == name {
        assert name in files;
      }
    } else if NamedById(disk) {
      forall id | id in es ensures id in files && files[id] == es[id] {
        var name :| name in disk && disk[name] == Parked(es[id]);
        assert Readable(disk[name]);
      }
      forall name | name in files ensures name in es {
        assert disk[name].entry.id in es;
      }
    }
  }

  /** A directory that mirrors a queue restores that queue. */
  lemma RestartRestores(before: map<Id, Entry>, es: map<Id, Entry>, files: map<string, Entry>, aside: set<string>)
    requires Keyed(before) && Loads(map id | id in before :: Parked(before[id]), es, files, aside)
    ensures es == before && files == before && aside == {}
  {
    var disk := map id | id in before :: Parked(before[id]);
    LoadMirrorsExactly(disk, es, files, aside);
  }

  // ---------------------------------------------------------------- the queue

  /** What happens around one entry of a replay: whether the context has ended, what the handler
      returns, and the clock and jitter read when that has to be recorded. */
  datatype Turn = Turn(ended: bool, outcome: Option<Error>, now: Time, draw: Draw)

  lemma {:induction false} EarliestExists(es: map<Id, Entry>, ids: set<Id>)
    requires ids != {} && ids <= es.Keys
    ensures exists id :: Earliest(es, ids, id)
  {
    var some :| some in ids;
    if ids == {some} {
      assert Earliest(es, ids, some);
    } else {
      EarliestExists(es, ids - {some});
      var least :| Earliest(es, ids - {some}, least);
      assert Earliest(es, ids, if es[some].firstFailed < es[least].firstFailed then some else least);
    }
  }

  ghost predicate Earliest(es: map<Id, Entry>, ids: set<Id>, id: Id)
    requires ids <= es.Keys
  {
    id in ids && forall k :: k in ids ==> es[id].firstFailed <= es[k].firstFailed
  }

  class Queue {
    const cfg: Config
    var hasHandler: bool
    var entries: map<Id, Entry>
    var stats: Stats

    // The directory: files under their names, and the names set aside as unreadable.
    var files: map<string, Entry>
    var aside: set<string>

    ghost var loaded: nat
    ghost var discarded: nat

    ghost function Content(): Store
      reads this
    {
      Store(entries, stats)
    }

    /** The files are exactly the parked entries, with their current fields. */
    ghost predicate Mirrored()
      reads this
    {
      files == if cfg.dir == "" then map[] else entries
    }

    /** Every message that came in is accounted for. */
    ghost predicate Balanced()
      reads this
    {
      loaded == Total(Content()) + discarded
    }

    ghost predicate Consistent()
      reads this
    {
      cfg.Ready() && Keyed(entries) && Mirrored()
    }

    ghost predicate Valid()
      reads this
    {
      Consistent() && Balanced()
    }

    constructor (config: Config, disk: map<string, File>)
      ensures cfg == config.ApplyDefaults() && !hasHandler && stats == NO_STATS
      ensures loaded == |entries| && discarded == 0
      ensures Valid() <==> config.dir == "" || NamedById(disk)
      ensures config.dir == "" ==> entries == map[]
      ensures config.dir != "" ==> Loads(disk, entries, files, aside)
    {
      cfg := config.ApplyDefaults();
      hasHandler := false;
      entries := map[];
      stats := NO_STATS;
      files := map[];
      aside := {};
      discarded := 0;
      loaded := 0;
      new;
      if cfg.dir != "" {
        files := map name | name in disk && Readable(disk[name]) :: disk[name].entry;
        Load(disk);
        LoadMirrorsExactly(disk, entries, files, aside);
      }
      loaded := |entries|;
    }

    method Load(disk: map<string, File>)
      requires entries == map[] && aside == {}
      requires files == map name | name in disk && Readable(disk[name]) :: disk[name].entry
      modifies this`entries, this`aside
      ensures Loads(disk, entries, files, aside)
    {
      var names := disk.Keys;
      while names != {}
        invariant names <= disk.Keys
        invariant Keyed(entries)
        invariant forall id :: id in entries ==> exists name :: name in disk && disk[name] == Parked(entries[id])
        invariant forall name :: name in disk.Keys - names && Readable(disk[name]) ==> disk[name].entry.id in entries
        invariant aside == set name | name in disk.Keys - names && !Readable(disk[name])
      {
        var name :| name in names;
        names := names - {name};
        match disk[name] {
          case Parked(entry) =>
            if entry.id == "" {
              aside := aside + {name};
            } else {
              entries := entries[entry.id := entry];
            }
          case Undecodable =>
            aside := aside + {name};
        }
      }
    }

    /** Takes the handler that parked messages are replayed into. */
    method Wrap()
      requires Valid()
      modifies this`hasHandler
      ensures Valid() && hasHandler
    {
      hasHandler := true;
    }

    method Persist(e: Entry)
      modifies this`files
      ensures files == if cfg.dir == "" then old(files) else old(files)[e.id := e]
    {
      if cfg.dir == "" {
        return;
      }
      files := files[e.id := e];
    }

    method DeleteFile(id: Id)
      modifies this`files
      ensures files == if cfg.dir == "" then old(files) else old(files) - {id}
    {
      if cfg.dir == "" {
        return;
      }
      files := files - {id};
    }

    /** Takes an entry out of memory and deletes its file. */
    method RemoveEntry(id: Id)
      requires Consistent() && id in entries
      modifies this`entries, this`files
      ensures Consistent() && entries == old(entries) - {id} && |entries| == |old(entries)| - 1
    {
      RemoveKey(entries, id);
      entries := entries - {id};
      DeleteFile(id);
    }

    method ExpireLocked(now: Time)
      requires Consistent()
      modifies this`entries, this`stats, this`files
      ensures Consistent() && Content() == Expire(cfg, old(Content()), now)
    {
      ghost var before := entries;
      var ids := entries.Keys;
      while ids != {}
        invariant Consistent()
        invariant ExpiredUpTo(cfg, before, now, ids, entries)
        invariant stats == old(stats).(expired := old(stats).expired + |before| - |entries|)
      {
        var id :| id in ids;
        ExpireStep(cfg, before, now, ids, entries, id);
        if now - entries[id].firstFailed > cfg.maxAge {
          RemoveEntry(id);
          stats := stats.(expired := stats.expired + 1);
        }
        ids := ids - {id};
      }
      AllExpired(cfg, before, now, entries);
    }

    /** The scan for the oldest entry: the empty id stands for "none seen yet", which no parked entry
        can be confused with. */
    method Oldest() returns (oldestId: Id)
      requires Consistent()
      ensures oldestId == "" <==> entries == map[]
      ensures oldestId != "" ==> oldestId in entries
      ensures oldestId != "" ==> forall id :: id in entries ==> entries[oldestId].firstFailed <= entries[id].firstFailed
    {
      oldestId := "";
      var oldest: Time := 0;
      var ids := entries.Keys;
      while ids != {}
        invariant ids <= entries.Keys
        invariant oldestId == "" <==> ids == entries.Keys
        invariant oldestId != "" ==> oldestId in entries && oldest == entries[oldestId].firstFailed
        invariant oldestId != "" ==> forall id :: id in entries.Keys - ids ==> oldest <= entries[id].firstFailed
      {
        var id :| id in ids;
        ids := ids - {id};
        if oldestId == "" || entries[id].firstFailed < oldest {
          oldestId, oldest := id, entries[id].firstFailed;
        }
      }
    }

    method EvictLocked(now: Time)
      requires Consistent()
      modifies this`entries, this`stats, this`files
      ensures Consistent() && MakesRoom(cfg, old(Content()), now, Content())
    {
      ExpireLocked(now);
      DropOldest();
    }

    method DropOldest()
      requires Consistent()
      modifies this`entries, this`stats, this`files
      ensures Consistent() && KeepsNewest(cfg, old(entries), entries)
      ensures stats == old(stats).(overflow := old(stats).overflow + |old(entries)| - |entries|)
    {
      ghost var live := entries;
      while |entries| >= cfg.maxEntries
        invariant Consistent() && OldestDropped(live, entries)
        invariant |entries| >= cfg.maxEntries - 1 || entries == live
        invariant stats == old(stats).(overflow := old(stats).overflow + |live| - |entries|)
        decreases |entries|
      {
        var oldestId := Oldest();
        RemoveEntry(oldestId);
        stats := stats.(overflow := stats.overflow + 1);
      }
      if entries != live {
        ProperlySmaller(entries, live);
      }
    }

    /** Parks a message, or counts it as rejected when its failure can never pass. */
    method Park(m: Message, cause: Option<Error>, now: Time, id: Id, draw: Draw)
      requires Valid() && id != "" && id !in entries
      modifies this`entries, this`stats, this`files
      ensures Valid()
      ensures Hopeless(cause) ==> entries == old(entries) && stats == old(stats).(rejected := old(stats).rejected + 1)
      ensures !Hopeless(cause) ==> Admits(cfg, old(Content()), now, Fresh(cfg, id, m, cause, now, draw), Content())
      ensures !Hopeless(cause) ==> id in entries && |entries| <= cfg.maxEntries
      ensures id !in entries <==> cause.Some? && ChainRefuses(cause.value)
    {
      HopelessExactly(cause);
      if cause != None && !Retryable(cause) {
        Reject();
        return;
      }
      var entry := NewEntry(m, cause, now, id, draw);
      Admit(entry, now);
      WithinLimit(cfg, old(Content()), now, entry, Content());
    }

    method Reject()
      requires Valid()
      modifies this`stats
      ensures Valid() && stats == old(stats).(rejected := old(stats).rejected + 1)
    {
      stats := stats.(rejected := stats.rejected + 1);
    }

    method NewEntry(m: Message, cause: Option<Error>, now: Time, id: Id, draw: Draw) returns (entry: Entry)
      ensures entry == Fresh(cfg, id, m, cause, now, draw)
    {
      var delay := Backoff(cfg.backoff, 1, draw);
      entry := Entry(id, m, Reason(cause), 0, now, now, now + delay);
    }

    /** Makes room for an entry, files it and writes it to the directory. */
    method Admit(entry: Entry, now: Time)
      requires Valid() && entry.id != "" && entry.id !in entries
      modifies this`entries, this`stats, this`files
      ensures Valid() && Admits(cfg, old(Content()), now, entry, Content())
    {
      EvictLocked(now);
      ghost var mid := Content();
      FileEntry(entry);
      FiledBefore(mid, entry);
      AdmitsConserves(cfg, old(Content()), now, entry, Content());
    }

    method FileEntry(entry: Entry)
      requires Consistent() && entry.id != ""
      modifies this`entries, this`stats, this`files
      ensures Consistent() && entries == old(entries)[entry.id := entry]
      ensures stats == old(stats).(accepted := old(stats).accepted + 1)
    {
      entries := entries[entry.id := entry];
      stats := stats.(accepted := stats.accepted + 1);
      Persist(entry);
    }

    method RecordFailed(id: Id, cause: Error, now: Time, draw: Draw)
      requires Consistent()
      modifies this`entries, this`stats, this`files
      ensures Consistent() && Content() == RecordFailure(cfg, old(Content()), id, cause, now, draw)
    {
      if id !in entries {
        return;
      }
      var entry := entries[id];
      var delay := Backoff(cfg.backoff, entry.attempts + 2, draw);
      entry := entry.(attempts := entry.attempts + 1, lastFailed := now, reason := Reason(Some(cause)),
                      nextAttempt := now + delay);
      Settle(id, if entry.attempts >= cfg.maxAttempts then None else Some(entry));
    }

    method Settle(id: Id, left: Option<Entry>)
      requires Consistent() && id in entries && (left.Some? ==> left.value.id == id)
      modifies this`entries, this`stats, this`files
      ensures Consistent() && Content() == Settled(old(Content()), id, left)
    {
      match left {
        case None =>
          RemoveEntry(id);
          stats := stats.(exhausted := stats.exhausted + 1);
        case Some(entry) =>
          entries := entries[id := entry];
          Persist(entry);
      }
    }

    /** Removes a recovered message and counts the recovery: two critical sections in the source, one
        step of a run without overlap, where the message is still there. */
    method Recover(id: Id)
      requires Consistent() && id in entries
      modifies this`entries, this`stats, this`files
      ensures Consistent() && Content() == Credit(Remove(old(Content()), id))
    {
      RemoveEntry(id);
      stats := stats.(recovered := stats.recovered + 1);
    }

    /** Forgets one parked message, and says whether it was there. */
    method Discard(id: Id) returns (known: bool)
      requires Valid()
      modifies this`entries, this`files, this`discarded
      ensures Valid() && known == (id in old(entries))
      ensures Content() == Remove(old(Content()), id)
      ensures discarded == old(discarded) + if known then 1 else 0
    {
      known := id in entries;
      if known {
        RemoveEntry(id);
        discarded := discarded + 1;
      } else {
        assert entries == entries - {id};
      }
    }

    /** Replays one message by id. */
    method Retry(id: Id, t: Turn) returns (ok: bool)
      requires Valid()
      modifies this`entries, this`stats, this`files
      ensures Valid()
      ensures ok == (id in old(entries) && hasHandler && t.outcome == None)
      ensures id !in old(entries) || !hasHandler ==> Content() == old(Content())
      ensures ok ==> Content() == Credit(Remove(old(Content()), id))
      ensures id in old(entries) && hasHandler && t.outcome.Some? ==>
                Content() == RecordFailure(cfg, old(Content()), id, t.outcome.value, t.now, t.draw)
    {
      if id !in entries {
        return false;
      }
      if !hasHandler {
        return false;
      }
      if t.outcome.Some? {
        RecordFailureConserves(cfg, Content(), id, t.outcome.value, t.now, t.draw);
        RecordFailed(id, t.outcome.value, t.now, t.draw);
        return false;
      }
      RecoverConserves(Content(), id);
      Recover(id);
      return true;
    }

    /** Replays every due message, oldest failure first, until the context ends. The snapshot taken
        and how much of it was handled are returned for the contract. */
    method Replay(now: Time, ignoreBackoff: bool, turns: nat -> Turn)
      returns (recovered: nat, failed: nat, ghost due: seq<Entry>, handled: nat)
      requires Valid()
      modifies this`entries, this`stats, this`files
      ensures Valid()
      ensures Snapshot(Live(cfg, old(entries), now), now, ignoreBackoff, due)
      ensures handled <= |due| && (forall i :: 0 <= i < handled ==> !turns(i).ended)
      ensures !hasHandler ==> handled == 0
      ensures hasHandler && handled < |due| ==> turns(handled).ended
      ensures Content() == Replayed(cfg, Expire(cfg, old(Content()), now), due[..handled], turns)
      ensures recovered == Successes(turns, handled) && failed == handled - recovered
    {
      ghost var start := Expire(cfg, Content(), now);
      ExpireLocked(now);
      var list := Collect(now, ignoreBackoff);
      due, handled, recovered, failed := list, 0, 0, 0;
      assert due[..0] == [];
      if !hasHandler || |list| == 0 {
        return;
      }
      recovered, failed, handled := HandleAll(list, turns);
      ReplayConserves(cfg, start, due[..handled], turns);
    }

    /** The replay loop over a snapshot: stops as soon as the context has ended. */
    method HandleAll(list: seq<Entry>, turns: nat -> Turn) returns (recovered: nat, failed: nat, handled: nat)
      requires Consistent() && Distinct(list) && forall i :: 0 <= i < |list| ==> list[i].id in entries
      modifies this`entries, this`stats, this`files
      ensures Consistent()
      ensures handled <= |list| && (forall i :: 0 <= i < handled ==> !turns(i).ended)
      ensures handled < |list| ==> turns(handled).ended
      ensures recovered == Successes(turns, handled) && failed == handled - recovered
      ensures Content() == Replayed(cfg, old(Content()), list[..handled], turns)
    {
      ghost var start := Content();
      recovered, failed, handled := 0, 0, 0;
      while handled < |list| && !turns(handled).ended
        invariant handled <= |list| && Consistent()
        invariant forall k :: 0 <= k < handled ==> !turns(k).ended
        invariant recovered == Successes(turns, handled) && failed == handled - recovered
        invariant Content() == Replayed(cfg, start, list[..handled], turns)
      {
        ReplayLeavesOthers(cfg, start, list[..handled], turns, list[handled].id);
        var ok := HandleParked(list[handled], turns(handled));
        if ok {
          recovered := recovered + 1;
        } else {
          failed := failed + 1;
        }
        handled := handled + 1;
        assert list[..handled][..handled - 1] == list[..handled - 1];
      }
    }

    /** Runs the handler on one parked message and files the outcome. */
    method HandleParked(entry: Entry, t: Turn) returns (ok: bool)
      requires Consistent() && entry.id in entries
      modifies this`entries, this`stats, this`files
      ensures Consistent() && Content() == Turned(cfg, old(Content()), entry, t)
      ensures ok == (t.outcome == None)
    {
      match t.outcome {
        case Some(cause) =>
          RecordFailed(entry.id, cause, t.now, t.draw);
          return false;
        case None =>
          Recover(entry.id);
          return true;
      }
    }

    /** The due entries, sorted by first failure; the library sort may order ties either way. */
    method Collect(now: Time, ignoreBackoff: bool) returns (due: seq<Entry>)
      requires Consistent()
      ensures Snapshot(entries, now, ignoreBackoff, due)
    {
      due := [];
      var ids := set id | id in entries && (ignoreBackoff || entries[id].Due(now));
      ghost var all := ids;
      while ids != {}
        invariant ids <= all
        invariant Gathered(entries, all, ids, due)
      {
        EarliestExists(entries, ids);
        var id :| id in ids && forall k :: k in ids ==> entries[id].firstFailed <= entries[k].firstFailed;
        GatherOne(entries, all, ids, due, id);
        ids := ids - {id};
        due := due + [entries[id]];
      }
      forall id | id in all ensures id in (set i | 0 <= i < |due| :: due[i].id) {
        assert entries[id] in due;
      }
    }
  }

  /** `due` holds the entries of `all` but not of `ids`, each once, oldest failure first, and none of them
      failed after one of `ids`. */
  ghost predicate Gathered(es: map<Id, Entry>, all: set<Id>, ids: set<Id>, due: seq<Entry>)
    requires ids <= all <= es.Keys
  {
    && (forall i :: 0 <= i < |due| ==> due[i].id in all && due[i].id !in ids && due[i] == es[due[i].id])
    && (forall i, j :: 0 <= i < j < |due| ==> due[i].id != due[j].id && due[i].firstFailed <= due[j].firstFailed)
    && (forall i, id :: 0 <= i < |due| && id in ids ==> due[i].firstFailed <= es[id].firstFailed)
    && (forall id :: id in all && id !in ids ==> es[id] in due)
  }

  lemma GatherOne(es: map<Id, Entry>, all: set<Id>, ids: set<Id>, due: seq<Entry>, id: Id)
    requires Keyed(es) && ids <= all <= es.Keys && Gathered(es, all, ids, due)
    requires id in ids && forall k :: k in ids ==> es[id].firstFailed <= es[k].firstFailed
    ensures Gathered(es, all, ids - {id}, due + [es[id]])
  {
    var more := due + [es[id]];
    forall k | k in all && k !in ids - {id} ensures es[k] in more {
      if k == id {
        assert more[|due|] == es[id];
      } else {
        assert es[k] in due;
      }
    }
  }

  ghost predicate ExpiredUpTo(c: Config, before: map<Id, Entry>, now: Time, ids: set<Id>, es: map<Id, Entry>) {
    && ids <= es.Keys <= before.Keys
    && (forall id :: id in es ==> es[id] == before[id])
    && (forall id :: id in before && id !in ids ==> (id in es <==> now - before[id].firstFailed <= c.maxAge))
  }

  lemma FiledBefore(mid: Store, e: Entry)
    requires e.id !in mid.entries
    ensures Before(Store(mid.entries[e.id := e], mid.stats.(accepted := mid.stats.accepted + 1)), e.id) == mid
  {
    assert mid.entries[e.id := e] - {e.id} == mid.entries;
  }

  lemma ExpireStep(c: Config, before: map<Id, Entry>, now: Time, ids: set<Id>, es: map<Id, Entry>, id: Id)
    requires ExpiredUpTo(c, before, now, ids, es) && id in ids
    ensures ExpiredUpTo(c, before, now, ids - {id}, if now - es[id].firstFailed > c.maxAge then es - {id} else es)
  {
  }

  lemma AllExpired(c: Config, before: map<Id, Entry>, now: Time, es: map<Id, Entry>)
    requires ExpiredUpTo(c, before, now, {}, es)
    ensures es == Live(c, before, now)
  {
  }

  lemma ProperlySmaller(es: map<Id, Entry>, live: map<Id, Entry>)
    requires OldestDropped(live, es) && es != live
    ensures |es| < |live|
  {
    assert exists x :: x in live && x !in es;
    assert |live.Keys| == |es.Keys| + |live.Keys - es.Keys|;
  }

  // ---------------------------------------------------------------- what a replay amounts to

  function Turned(c: Config, s: Store, e: Entry, t: Turn): Store {
    match t.outcome
    case None => Credit(Remove(s, e.id))
    case Some(cause) => RecordFailure(c, s, e.id, cause, t.now, t.draw)
  }

  function Replayed(c: Config, s: Store, handled: seq<Entry>, turns: nat -> Turn): Store {
    if handled == [] then s
    else
      var n := |handled| - 1;
      Turned(c, Replayed(c, s, handled[..n], turns), handled[n], turns(n))
  }

  function Successes(turns: nat -> Turn, n: nat): nat {
    if n == 0 then 0 else Successes(turns, n - 1) + if turns(n - 1).outcome == None then 1 else 0
  }

  /** What is left of a handled entry. */
  function Left(c: Config, e: Entry, t: Turn): Option<Entry> {
    match t.outcome
    case None => None
    case Some(cause) => AfterFailure(c, e, cause, t.now, t.draw)
  }

  ghost predicate Distinct(due: seq<Entry>) {
    forall i, j :: 0 <= i < j < |due| ==> due[i].id != due[j].id
  }

  /** A replay leaves every entry it did not handle alone. */
  lemma {:induction false} ReplayLeavesOthers(c: Config, s: Store, due: seq<Entry>, turns: nat -> Turn, id: Id)
    requires forall i :: 0 <= i < |due| ==> due[i].id != id
    ensures Get(Replayed(c, s, due, turns).entries, id) == Get(s.entries, id)
  {
    if due == [] {
    } else {
      ReplayLeavesOthers(c, s, due[..|due| - 1], turns, id);
    }
  }

  /** A replay treats each handled entry once, on its own: a success takes it out, a failure leaves
      the updated entry, or nothing when that was its last attempt. */
  lemma {:induction false} ReplayHandlesEach(c: Config, s: Store, due: seq<Entry>, turns: nat -> Turn, k: nat)
    requires k < |due| && Distinct(due) && Get(s.entries, due[k].id) == Some(due[k])
    ensures Get(Replayed(c, s, due, turns).entries, due[k].id) == Left(c, due[k], turns(k))
  {
    var n := |due| - 1;
    if k == n {
      ReplayLeavesOthers(c, s, due[..n], turns, due[k].id);
    } else {
      ReplayHandlesEach(c, s, due[..n], turns, k);
    }
  }

  /** A replay conserves: each handled entry is parked still, recovered or exhausted. */
  lemma {:induction false} ReplayConserves(c: Config, s: Store, due: seq<Entry>, turns: nat -> Turn)
    requires Distinct(due) && forall i :: 0 <= i < |due| ==> due[i].id in s.entries
    ensures Total(Replayed(c, s, due, turns)) == Total(s)
    ensures Replayed(c, s, due, turns).stats.recovered == s.stats.recovered + Successes(turns, |due|)
  {
    if due == [] {
    } else {
      var n := |due| - 1;
      var mid := Replayed(c, s, due[..n], turns);
      ReplayConserves(c, s, due[..n], turns);
      ReplayLeavesOthers(c, s, due[..n], turns, due[n].id);
      match turns(n).outcome
      case None => RecoverConserves(mid, due[n].id);
      case Some(cause) => RecordFailureConserves(c, mid, due[n].id, cause, turns(n).now, turns(n).draw);
    }
  }
}
