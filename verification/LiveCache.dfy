/** The last-value cache of the broadcast hub: the newest frame of every live entity,
    pruned lazily by age and by a hard cap. */
module LiveCache {
  import opened Collections
  import opened Framing
  import opened Options

  type Uid = string

  /** One event decoded from the feed; a blank uid is never cached. */
  datatype Event = Event(uid: Uid, frame: Bytes, time: int)

  datatype Entry = Entry(uid: Uid, frame: Bytes, seen: int)

  /** `entries` is the insertion-ordered dictionary uid -> (frame, receive time). */
  datatype Cache = Cache(entries: seq<Entry>, lastPrune: int)

  /** ttl and cap come from the settings, interval is the sweep period. */
  datatype Config = Config(ttl: int, cap: nat, interval: int)

  ghost predicate Distinct(es: seq<Entry>) {
    forall i, j | 0 <= i < j < |es| :: es[i].uid != es[j].uid
  }

  /** Dictionary assignment: an existing key keeps its place. */
  function Put(es: seq<Entry>, x: Entry): seq<Entry> {
    if es == [] then [x]
    else if es[0].uid == x.uid then [x] + es[1..]
    else [es[0]] + Put(es[1..], x)
  }

  function Fresh(es: seq<Entry>, cutoff: int): seq<Entry> {
    if es == [] then []
    else (if es[0].seen >= cutoff then [es[0]] else []) + Fresh(es[1..], cutoff)
  }

  function Age(e: Entry): int {
    -e.seen
  }

  /** The stable sort by receive time, newest first. */
  function NewestFirst(es: seq<Entry>): seq<Entry> {
    SortBy(Age, es)
  }

  function Capped(es: seq<Entry>, cap: nat): (r: seq<Entry>)
    ensures |r| <= cap
  {
    if |es| > cap then SortBySorts(Age, es); NewestFirst(es)[..cap] else es
  }

  function MaybePrune(c: Cache, now: int, cfg: Config): Cache {
    if |c.entries| <= cfg.cap && now - c.lastPrune < cfg.interval then c
    else Cache(Capped(Fresh(c.entries, now - cfg.ttl), cfg.cap), now)
  }

  function Record(c: Cache, e: Event, cfg: Config): Cache {
    if e.uid == "" then c
    else MaybePrune(c.(entries := Put(c.entries, Entry(e.uid, e.frame, e.time))), e.time, cfg)
  }

  function Frames(es: seq<Entry>): (fs: seq<Bytes>)
    ensures |fs| == |es| && forall i | 0 <= i < |es| :: fs[i] == es[i].frame
  {
    seq(|es|, i requires 0 <= i < |es| => es[i].frame)
  }

  /** What _snapshot_frames replays at `now`. */
  function Snapshot(c: Cache, now: int, cfg: Config): seq<Entry> {
    Fresh(c.entries, now - cfg.ttl)
  }

  /** The cache after a whole event log. */
  function Replay(log: seq<Event>, start: int, cfg: Config): Cache {
    if log == [] then Cache([], start)
    else Record(Replay(log[..|log| - 1], start, cfg), log[|log| - 1], cfg)
  }

  // ---------------------------------------------------------------------------
  // Dictionary facts
  // ---------------------------------------------------------------------------

  lemma {:induction false} PutFacts(es: seq<Entry>, x: Entry)
    requires Distinct(es)
    ensures Distinct(Put(es, x))
    ensures forall e :: e in Put(es, x) <==> e == x || (e in es && e.uid != x.uid)
  {
    if es != [] {
      var rest := es[1..];
      assert es == [es[0]] + rest;
      PutFacts(rest, x);
      if es[0].uid == x.uid {
        assert forall e <- rest :: e.uid != x.uid;
      } else {
        var put := [es[0]] + Put(rest, x);
        assert forall e <- Put(rest, x) :: e.uid != es[0].uid;
        assert forall i | 0 < i < |put| :: put[i] == Put(rest, x)[i - 1];
      }
    }
  }

  lemma {:induction false} FreshFacts(es: seq<Entry>, cutoff: int)
    ensures forall e :: e in Fresh(es, cutoff) <==> e in es && e.seen >= cutoff
    ensures Distinct(es) ==> Distinct(Fresh(es, cutoff))
    ensures |Fresh(es, cutoff)| <= |es|
  {
    if es != [] {
      var rest := es[1..];
      assert es == [es[0]] + rest;
      FreshFacts(rest, cutoff);
      if Distinct(es) {
        assert forall e <- rest :: e.uid != es[0].uid;
        if es[0].seen >= cutoff {
          var young := Fresh(es, cutoff);
          assert young == [es[0]] + Fresh(rest, cutoff);
          assert forall i | 0 < i < |young| :: young[i] == Fresh(rest, cutoff)[i - 1];
        }
      }
    }
  }

  function Uids(es: seq<Entry>): set<Uid> {
    set e | e in es :: e.uid
  }

  lemma {:induction false} UidsOfTail(es: seq<Entry>)
    requires es != []
    ensures Uids(es) == {es[0].uid} + Uids(es[1..])
  {
    assert es == [es[0]] + es[1..];
  }

  lemma {:induction false} DistinctCount(es: seq<Entry>)
    requires Distinct(es)
    ensures |Uids(es)| == |es|
  {
    if es != [] {
      UidsOfTail(es);
      DistinctCount(es[1..]);
    }
  }

  lemma {:induction false} DistinctIsSetLike(es: seq<Entry>, x: Entry)
    requires Distinct(es)
    ensures multiset(es)[x] == if x in es then 1 else 0
  {
    if x in es {
      var i :| 0 <= i < |es| && es[i] == x;
      assert es == es[..i] + [x] + es[i + 1..];
      assert x !in es[..i] && x !in es[i + 1..];
      assert multiset(es)[x] == multiset(es[..i])[x] + multiset([x])[x] + multiset(es[i + 1..])[x];
    } else {
      assert x !in multiset(es);
    }
  }

  lemma {:induction false} PermutationKeepsDistinct(es: seq<Entry>, fs: seq<Entry>)
    requires Distinct(es) && multiset(es) == multiset(fs)
    ensures Distinct(fs)
  {
    forall i, j | 0 <= i < j < |fs| ensures fs[i].uid != fs[j].uid {
      if fs[i].uid == fs[j].uid {
        assert fs[i] in multiset(fs) && fs[j] in multiset(fs);
        assert fs[i] in es && fs[j] in es;
        assert fs[i] == fs[j];
        assert fs == fs[..i] + [fs[i]] + fs[i + 1..j] + [fs[j]] + fs[j + 1..];
        assert multiset(fs)[fs[i]] >= 2;
        DistinctIsSetLike(es, fs[i]);
      }
    }
  }

  // ---------------------------------------------------------------------------
  // The world as the event log defines it
  // ---------------------------------------------------------------------------

  /** The receive clock never runs backwards; it may repeat. */
  ghost predicate InOrder(log: seq<Event>) {
    forall i, j | 0 <= i < j < |log| :: log[i].time <= log[j].time
  }

  ghost predicate StrictlyTimed(log: seq<Event>) {
    forall i, j | 0 <= i < j < |log| :: log[i].time < log[j].time
  }

  /** The last event recorded for `u`, as a cache entry. */
  function Latest(log: seq<Event>, u: Uid): Option<Entry> {
    if log == [] then None
    else
      var e := log[|log| - 1];
      if e.uid == u then Some(Entry(u, e.frame, e.time)) else Latest(log[..|log| - 1], u)
  }

  ghost predicate IsLatest(log: seq<Event>, e: Entry) {
    e.uid != "" && Latest(log, e.uid) == Some(e)
  }

  /** The entities seen after time `t`, and those seen at `t` or after. */
  ghost function SeenAfter(log: seq<Event>, t: int): set<Uid> {
    set e | e in log && e.uid != "" && e.time > t :: e.uid
  }

  ghost function SeenFrom(log: seq<Event>, t: int): set<Uid> {
    set e | e in log && e.uid != "" && e.time >= t :: e.uid
  }

  /** `e` is the latest frame of an entity seen within the ttl. */
  ghost predicate Alive(log: seq<Event>, now: int, cfg: Config, e: Entry) {
    IsLatest(log, e) && e.seen >= now - cfg.ttl
  }

  /** `e` belongs to the live world at `now`: it is alive, and fewer than `cap` entities were seen
      after it. */
  ghost predicate InWorld(log: seq<Event>, now: int, cfg: Config, e: Entry) {
    Alive(log, now, cfg, e) && |SeenAfter(log, e.seen)| < cfg.cap
  }

  /** The instant of `e` is where the cap cuts, and more entities share it than fit. */
  ghost predicate TiedAtCap(log: seq<Event>, now: int, cfg: Config, e: Entry) {
    InWorld(log, now, cfg, e) && |SeenFrom(log, e.seen)| > cfg.cap
  }

  ghost predicate NoTieAtCap(log: seq<Event>, now: int, cfg: Config) {
    forall e | InWorld(log, now, cfg, e) :: |SeenFrom(log, e.seen)| <= cfg.cap
  }

  lemma {:induction false} LatestIsEvent(log: seq<Event>, u: Uid)
    ensures match Latest(log, u)
            case Some(l) => l.uid == u && Event(u, l.frame, l.seen) in log
            case None => forall e <- log :: e.uid != u
  {
    if log != [] {
      LatestIsEvent(log[..|log| - 1], u);
      assert log == log[..|log| - 1] + [log[|log| - 1]];
    }
  }

  lemma {:induction false} LatestIsNewest(log: seq<Event>, e: Event)
    requires InOrder(log) && e in log
    ensures Latest(log, e.uid).Some? && Latest(log, e.uid).value.seen >= e.time
  {
    var init, last := log[..|log| - 1], log[|log| - 1];
    assert log == init + [last];
    var i :| 0 <= i < |log| && log[i] == e;
    assert log[i].time <= last.time;
    if last.uid != e.uid {
      assert e in init;
      LatestIsNewest(init, e);
    }
  }

  /** What the cache always is, relative to the log: distinct latest entries, at most `cap` of
      them, and anything missing is either stale or no newer than any of `cap` cached entries. */
  ghost predicate Faithful(c: Cache, log: seq<Event>, cfg: Config) {
    && Distinct(c.entries)
    && |c.entries| <= cfg.cap
    && (forall e <- c.entries :: IsLatest(log, e))
    && (log != [] ==> forall e | IsLatest(log, e) && e !in c.entries :: Forgotten(c.entries, cfg, log[|log| - 1].time, e))
  }

  ghost predicate Forgotten(es: seq<Entry>, cfg: Config, now: int, e: Entry) {
    || e.seen < now - cfg.ttl
    || (|es| >= cfg.cap && forall x <- es :: x.seen >= e.seen)
  }

  lemma {:induction false} LatestAfter(log: seq<Event>, e: Event, x: Entry)
    ensures IsLatest(log + [e], x) <==>
              x.uid != "" && if x.uid == e.uid then x == Entry(e.uid, e.frame, e.time) else IsLatest(log, x)
  {
    assert (log + [e])[..|log|] == log;
  }

  lemma {:induction false} LatestInOrder(log: seq<Event>, e: Event, x: Entry)
    requires InOrder(log + [e]) && IsLatest(log, x)
    ensures log != [] && x.seen <= log[|log| - 1].time <= e.time
  {
    LatestIsEvent(log, x.uid);
    var i :| 0 <= i < |log| && log[i] == Event(x.uid, x.frame, x.seen);
    assert (log + [e])[i] == log[i] && (log + [e])[|log|] == e && (log + [e])[|log| - 1] == log[|log| - 1];
  }

  lemma {:induction false} PutGrows(es: seq<Entry>, x: Entry)
    ensures |es| <= |Put(es, x)|
  {
    if es != [] && es[0].uid != x.uid {
      PutGrows(es[1..], x);
    }
  }

  /** Storing the event, before any pruning. */
  lemma {:induction false} PutIsFaithful(c: Cache, log: seq<Event>, e: Event, cfg: Config)
    requires Faithful(c, log, cfg) && InOrder(log + [e]) && e.uid != ""
    ensures var es := Put(c.entries, Entry(e.uid, e.frame, e.time));
            && Distinct(es)
            && (forall x <- es :: IsLatest(log + [e], x))
            && (forall x | IsLatest(log + [e], x) && x !in es :: Forgotten(es, cfg, e.time, x))
  {
    var x0 := Entry(e.uid, e.frame, e.time);
    var es := Put(c.entries, x0);
    PutFacts(c.entries, x0);
    PutGrows(c.entries, x0);
    forall x | x in es ensures IsLatest(log + [e], x) {
      LatestAfter(log, e, x);
    }
    forall x | IsLatest(log + [e], x) && x !in es ensures Forgotten(es, cfg, e.time, x) {
      LatestAfter(log, e, x);
      LatestInOrder(log, e, x);
      assert Forgotten(c.entries, cfg, log[|log| - 1].time, x);
    }
  }

  lemma {:induction false} CappedIsPart(es: seq<Entry>, cap: nat)
    requires Distinct(es)
    ensures Distinct(Capped(es, cap))
    ensures forall x <- Capped(es, cap) :: x in es
  {
    var s := NewestFirst(es);
    SortBySorts(Age, es);
    PermutationKeepsDistinct(es, s);
    forall x | x in s ensures x in es {
      SortByMember(Age, es, x);
    }
  }

  lemma {:induction false} PruneKeepsPart(c: Cache, now: int, cfg: Config)
    requires Distinct(c.entries)
    ensures Distinct(MaybePrune(c, now, cfg).entries)
    ensures forall x <- MaybePrune(c, now, cfg).entries :: x in c.entries
  {
    FreshFacts(c.entries, now - cfg.ttl);
    CappedIsPart(Fresh(c.entries, now - cfg.ttl), cfg.cap);
  }

  /** Whatever the clock does, a cached frame is always the last one recorded for its entity. */
  lemma {:induction false} RecordKeepsLatest(c: Cache, log: seq<Event>, e: Event, cfg: Config)
    requires Distinct(c.entries) && forall x <- c.entries :: IsLatest(log, x)
    ensures Distinct(Record(c, e, cfg).entries)
    ensures forall x <- Record(c, e, cfg).entries :: IsLatest(log + [e], x)
  {
    var x0 := Entry(e.uid, e.frame, e.time);
    var put := c.(entries := Put(c.entries, x0));
    PutFacts(c.entries, x0);
    if e.uid != "" {
      PruneKeepsPart(put, e.time, cfg);
    }
    forall x | x in Record(c, e, cfg).entries ensures IsLatest(log + [e], x) {
      assert e.uid != "" ==> x in put.entries;
      LatestAfter(log, e, x);
    }
  }

  /** Capping drops only entries that none of the `cap` kept ones is older than. */
  lemma {:induction false} CappedForgets(es: seq<Entry>, cap: nat, x: Entry)
    requires x in es && x !in Capped(es, cap)
    ensures |Capped(es, cap)| == cap
    ensures forall y <- Capped(es, cap) :: y.seen >= x.seen
  {
    var s := NewestFirst(es);
    SortBySorts(Age, es);
    SortByMember(Age, es, x);
    var k :| 0 <= k < |s| && s[k] == x;
    forall y <- s[..cap] ensures y.seen >= x.seen {
      var i :| 0 <= i < cap && s[..cap][i] == y;
      assert Age(s[i]) <= Age(s[k]);
    }
  }

  lemma {:induction false} PruneIsFaithful(es: seq<Entry>, log: seq<Event>, cfg: Config, now: int)
    requires Distinct(es)
    requires forall x <- es :: IsLatest(log, x)
    requires forall x | IsLatest(log, x) && x !in es :: Forgotten(es, cfg, now, x)
    ensures var r := Capped(Fresh(es, now - cfg.ttl), cfg.cap);
            && Distinct(r)
            && (forall x <- r :: x in es)
            && (forall x | IsLatest(log, x) && x !in r :: Forgotten(r, cfg, now, x))
  {
    var young := Fresh(es, now - cfg.ttl);
    var r := Capped(young, cfg.cap);
    FreshFacts(es, now - cfg.ttl);
    CappedIsPart(young, cfg.cap);
    forall x | IsLatest(log, x) && x !in r ensures Forgotten(r, cfg, now, x) {
      if x in young {
        CappedForgets(young, cfg.cap, x);
      } else if x !in es && x.seen >= now - cfg.ttl {
        AllFresh(es, now - cfg.ttl);
        CappedSize(es, cfg.cap);
      }
    }
  }

  /** When a recorded event sweeps the cache: beyond the cap, or a whole interval after the last sweep. */
  lemma {:induction false} SweepsExactly(c: Cache, now: int, cfg: Config)
    requires Distinct(c.entries)
    ensures var t := MaybePrune(c, now, cfg);
            if |c.entries| > cfg.cap || now >= c.lastPrune + cfg.interval
            then t.lastPrune == now && forall x <- t.entries :: x.seen >= now - cfg.ttl
            else t == c
  {
    FreshFacts(c.entries, now - cfg.ttl);
    CappedIsPart(Fresh(c.entries, now - cfg.ttl), cfg.cap);
  }

  lemma {:induction false} AllFresh(es: seq<Entry>, cutoff: int)
    requires forall x <- es :: x.seen >= cutoff
    ensures Fresh(es, cutoff) == es
  {
    if es != [] {
      assert es == [es[0]] + es[1..];
      AllFresh(es[1..], cutoff);
    }
  }

  lemma {:induction false} CappedSize(es: seq<Entry>, cap: nat)
    ensures |Capped(es, cap)| == if |es| < cap then |es| else cap
  {
    SortBySorts(Age, es);
  }

  lemma {:induction false} MaybePruneIsFaithful(c: Cache, log: seq<Event>, cfg: Config, now: int)
    requires Distinct(c.entries) && log != [] && log[|log| - 1].time == now
    requires forall x <- c.entries :: IsLatest(log, x)
    requires forall x | IsLatest(log, x) && x !in c.entries :: Forgotten(c.entries, cfg, now, x)
    ensures Faithful(MaybePrune(c, now, cfg), log, cfg)
  {
    PruneIsFaithful(c.entries, log, cfg, now);
  }

  lemma {:induction false} BlankIsFaithful(c: Cache, log: seq<Event>, e: Event, cfg: Config)
    requires Faithful(c, log, cfg) && InOrder(log + [e]) && e.uid == ""
    ensures Faithful(c, log + [e], cfg)
  {
    forall x ensures IsLatest(log + [e], x) <==> IsLatest(log, x) {
      LatestAfter(log, e, x);
    }
    forall x | IsLatest(log, x) && x !in c.entries ensures Forgotten(c.entries, cfg, e.time, x) {
      LatestInOrder(log, e, x);
    }
  }

  lemma {:induction false} RecordIsFaithful(c: Cache, log: seq<Event>, e: Event, cfg: Config)
    requires Faithful(c, log, cfg) && InOrder(log + [e])
    ensures Faithful(Record(c, e, cfg), log + [e], cfg)
  {
    if e.uid == "" {
      BlankIsFaithful(c, log, e, cfg);
    } else {
      var es := Put(c.entries, Entry(e.uid, e.frame, e.time));
      PutIsFaithful(c, log, e, cfg);
      MaybePruneIsFaithful(c.(entries := es), log + [e], cfg, e.time);
    }
  }

  lemma {:induction false} PrefixInOrder(log: seq<Event>, e: Event)
    requires InOrder(log + [e])
    ensures InOrder(log)
  {
    forall i, j | 0 <= i < j < |log| ensures log[i].time <= log[j].time {
      assert (log + [e])[i] == log[i] && (log + [e])[j] == log[j];
    }
  }

  lemma {:induction false} ReplayIsFaithful(log: seq<Event>, start: int, cfg: Config)
    requires InOrder(log)
    ensures Faithful(Replay(log, start, cfg), log, cfg)
  {
    if log != [] {
      var init, e := log[..|log| - 1], log[|log| - 1];
      assert log == init + [e];
      PrefixInOrder(init, e);
      ReplayIsFaithful(init, start, cfg);
      RecordIsFaithful(Replay(init, start, cfg), init, e, cfg);
    }
  }

  // ---------------------------------------------------------------------------
  // Main results
  // ---------------------------------------------------------------------------

  /** `es` holds `cap` of the entries alive at `now`, or all of them if they are fewer, and none
      that is left out is newer than one that is kept. */
  ghost predicate NewestAlive(es: seq<Entry>, log: seq<Event>, now: int, cfg: Config) {
    && Distinct(es) && |es| <= cfg.cap
    && (forall e <- es :: Alive(log, now, cfg, e))
    && (forall e | Alive(log, now, cfg, e) && e !in es :: |es| == cfg.cap && forall x <- es :: x.seen >= e.seen)
  }

  lemma {:induction false} FaithfulSnapshot(c: Cache, log: seq<Event>, now: int, cfg: Config)
    requires Faithful(c, log, cfg)
    requires log != [] ==> log[|log| - 1].time <= now
    ensures NewestAlive(Snapshot(c, now, cfg), log, now, cfg)
  {
    FreshFacts(c.entries, now - cfg.ttl);
    forall e | Alive(log, now, cfg, e) && e !in Snapshot(c, now, cfg)
      ensures |Snapshot(c, now, cfg)| == cfg.cap && forall x <- Snapshot(c, now, cfg) :: x.seen >= e.seen
    {
      LatestIsEvent(log, e.uid);
      assert Forgotten(c.entries, cfg, log[|log| - 1].time, e);
      AllFresh(c.entries, now - cfg.ttl);
    }
  }

  /** An entity seen at `t` or later has a latest entry that was. */
  lemma {:induction false} LatestOfSeen(log: seq<Event>, t: int, v: Uid)
    requires InOrder(log) && v in SeenFrom(log, t)
    ensures v != "" && Latest(log, v).Some? && IsLatest(log, Latest(log, v).value)
    ensures Latest(log, v).value.uid == v && Latest(log, v).value.seen >= t
    ensures v in SeenAfter(log, t) ==> Latest(log, v).value.seen > t
  {
    var e :| e in log && e.uid == v && e.time >= t;
    LatestIsNewest(log, e);
    LatestIsEvent(log, v);
    if v in SeenAfter(log, t) {
      var d :| d in log && d.uid == v && d.time > t;
      LatestIsNewest(log, d);
    }
  }

  lemma {:induction false} KeptIsInWorld(es: seq<Entry>, log: seq<Event>, now: int, cfg: Config, e: Entry)
    requires NewestAlive(es, log, now, cfg) && InOrder(log) && e in es
    ensures InWorld(log, now, cfg, e)
  {
    var others := Uids(es) - {e.uid};
    forall v | v in SeenAfter(log, e.seen) ensures v in others {
      LatestOfSeen(log, e.seen, v);
      assert Latest(log, v).value in es;
    }
    DistinctCount(es);
    assert e.uid in Uids(es);
    SubsetSize(SeenAfter(log, e.seen), others);
  }

  lemma {:induction false} UntiedIsKept(es: seq<Entry>, log: seq<Event>, now: int, cfg: Config, e: Entry)
    requires NewestAlive(es, log, now, cfg)
    requires Alive(log, now, cfg, e) && |SeenFrom(log, e.seen)| <= cfg.cap
    ensures e in es
  {
    if e !in es {
      DistinctCount(es);
      LatestIsEvent(log, e.uid);
      forall u <- Uids(es) + {e.uid} ensures u in SeenFrom(log, e.seen) {
        if u != e.uid {
          var x :| x in es && x.uid == u;
          LatestIsEvent(log, u);
          assert Event(u, x.frame, x.seen) in log;
        } else {
          assert Event(u, e.frame, e.seen) in log;
        }
      }
      SubsetSize(Uids(es) + {e.uid}, SeenFrom(log, e.seen));
    }
  }

  /** With a tie at the cap, some entry of the world is left out. */
  lemma {:induction false} TieLeavesOut(es: seq<Entry>, log: seq<Event>, now: int, cfg: Config, e: Entry)
    requires NewestAlive(es, log, now, cfg) && InOrder(log) && TiedAtCap(log, now, cfg, e)
    ensures exists x :: InWorld(log, now, cfg, x) && x !in es
  {
    DistinctCount(es);
    if SeenFrom(log, e.seen) <= Uids(es) {
      SubsetSize(SeenFrom(log, e.seen), Uids(es));
      assert false;
    }
    var v :| v in SeenFrom(log, e.seen) && v !in Uids(es);
    LatestOfSeen(log, e.seen, v);
    var x := Latest(log, v).value;
    SubsetSize(SeenAfter(log, x.seen), SeenAfter(log, e.seen));
    assert InWorld(log, now, cfg, x) && x !in es;
  }

  /** Cache refinement, for every log whose clock never runs backwards: the cache holds at most
      `cap` entries, and the snapshot at any later moment is a choice of the `cap` most recently
      seen entities among those alive. It is the function InWorld of the log if and only if no
      entities are tied where the cap cuts. */
  lemma {:induction false} CacheRefinesLog(log: seq<Event>, start: int, now: int, cfg: Config)
    requires InOrder(log)
    requires log != [] ==> log[|log| - 1].time <= now
    ensures |Replay(log, start, cfg).entries| <= cfg.cap
    ensures NewestAlive(Snapshot(Replay(log, start, cfg), now, cfg), log, now, cfg)
    ensures (forall e :: e in Snapshot(Replay(log, start, cfg), now, cfg) <==> InWorld(log, now, cfg, e))
            <==> NoTieAtCap(log, now, cfg)
  {
    var es := Snapshot(Replay(log, start, cfg), now, cfg);
    ReplayIsFaithful(log, start, cfg);
    FaithfulSnapshot(Replay(log, start, cfg), log, now, cfg);
    WorldExactly(es, log, now, cfg);
  }

  lemma {:induction false} WorldExactly(es: seq<Entry>, log: seq<Event>, now: int, cfg: Config)
    requires NewestAlive(es, log, now, cfg) && InOrder(log)
    ensures (forall e :: e in es <==> InWorld(log, now, cfg, e)) <==> NoTieAtCap(log, now, cfg)
  {
    if NoTieAtCap(log, now, cfg) {
      forall e ensures e in es <==> InWorld(log, now, cfg, e) {
        if e in es {
          KeptIsInWorld(es, log, now, cfg, e);
        } else if InWorld(log, now, cfg, e) {
          UntiedIsKept(es, log, now, cfg, e);
        }
      }
    } else {
      var e :| InWorld(log, now, cfg, e) && |SeenFrom(log, e.seen)| > cfg.cap;
      TieLeavesOut(es, log, now, cfg, e);
    }
  }

  /** A strictly increasing clock never ties. */
  lemma {:induction false} StrictTimesNeverTie(log: seq<Event>, now: int, cfg: Config)
    requires StrictlyTimed(log)
    ensures InOrder(log) && NoTieAtCap(log, now, cfg)
  {
    forall e | InWorld(log, now, cfg, e) ensures |SeenFrom(log, e.seen)| <= cfg.cap {
      LatestIsEvent(log, e.uid);
      forall v | v in SeenFrom(log, e.seen) ensures v in SeenAfter(log, e.seen) + {e.uid} {
        var d :| d in log && d.uid == v && d.time >= e.seen;
        if d.time == e.seen {
          SameTimeSameEvent(log, d, Event(e.uid, e.frame, e.seen));
        }
      }
      SubsetSize(SeenFrom(log, e.seen), SeenAfter(log, e.seen) + {e.uid});
    }
  }

  lemma {:induction false} SameTimeSameEvent(log: seq<Event>, d: Event, e: Event)
    requires StrictlyTimed(log) && d in log && e in log && d.time == e.time
    ensures d == e
  {
    var i :| 0 <= i < |log| && log[i] == d;
    var j :| 0 <= j < |log| && log[j] == e;
    assert i == j;
  }

  lemma {:induction false} DiffersOnlyInTies(a: seq<Entry>, b: seq<Entry>, log: seq<Event>, now: int, cfg: Config)
    requires NewestAlive(a, log, now, cfg) && NewestAlive(b, log, now, cfg) && InOrder(log)
    ensures |a| <= |b|
    ensures forall e <- a :: e in b || TiedAtCap(log, now, cfg, e)
  {
    forall e | e in a && e !in b ensures TiedAtCap(log, now, cfg, e) {
      KeptIsInWorld(a, log, now, cfg, e);
      if |SeenFrom(log, e.seen)| <= cfg.cap {
        UntiedIsKept(b, log, now, cfg, e);
      }
    }
    if forall e <- a :: e in b {
      DistinctCount(a);
      DistinctCount(b);
      SubsetSize(Uids(a), Uids(b));
    }
  }

  /** Lazy pruning is unobservable except through ties: whatever the sweep interval and whenever the
      last sweep was, the same log gives snapshots of the same size that differ only in entities
      tied where the cap cuts, and equal ones, up to order, when there is no such tie. */
  lemma {:induction false} PruneTimingUnobservable(log: seq<Event>, start: int, start': int, now: int, cfg: Config, interval: int)
    requires InOrder(log)
    requires log != [] ==> log[|log| - 1].time <= now
    ensures var a := Snapshot(Replay(log, start, cfg), now, cfg);
            var b := Snapshot(Replay(log, start', cfg.(interval := interval)), now, cfg);
            && |a| == |b|
            && (forall e <- a :: e in b || TiedAtCap(log, now, cfg, e))
            && (forall e <- b :: e in a || TiedAtCap(log, now, cfg, e))
            && (NoTieAtCap(log, now, cfg) ==> multiset(a) == multiset(b))
  {
    var a := Snapshot(Replay(log, start, cfg), now, cfg);
    var b := Snapshot(Replay(log, start', cfg.(interval := interval)), now, cfg);
    assert cfg.(interval := cfg.interval) == cfg;
    ReplayNewestAlive(log, start, now, cfg, cfg.interval);
    ReplayNewestAlive(log, start', now, cfg, interval);
    DiffersOnlyInTies(a, b, log, now, cfg);
    DiffersOnlyInTies(b, a, log, now, cfg);
    if NoTieAtCap(log, now, cfg) {
      SameMultiset(a, b);
    }
  }

  lemma {:induction false} ReplayNewestAlive(log: seq<Event>, start: int, now: int, cfg: Config, interval: int)
    requires InOrder(log)
    requires log != [] ==> log[|log| - 1].time <= now
    ensures NewestAlive(Snapshot(Replay(log, start, cfg.(interval := interval)), now, cfg), log, now, cfg)
  {
    var cfg' := cfg.(interval := interval);
    ReplayIsFaithful(log, start, cfg');
    FaithfulSnapshot(Replay(log, start, cfg'), log, now, cfg');
  }

  /** When no entry is stale, a sweep that is not forced by the cap changes nothing. */
  lemma {:induction false} IdleSweep(c: Cache, now: int, cfg: Config)
    requires |c.entries| <= cfg.cap && forall x <- c.entries :: x.seen >= now - cfg.ttl
    ensures MaybePrune(c, now, cfg).entries == c.entries
  {
    AllFresh(c.entries, now - cfg.ttl);
  }

  lemma {:induction false} ForcedSweep(c: Cache, c': Cache, now: int, cfg: Config, cfg': Config)
    requires c.entries == c'.entries && |c.entries| > cfg.cap && cfg' == cfg.(interval := cfg'.interval)
    ensures MaybePrune(c, now, cfg).entries == MaybePrune(c', now, cfg').entries
  {
  }

  lemma {:induction false} SameAfterRecord(c: Cache, c': Cache, e: Event, cfg: Config, cfg': Config)
    requires c.entries == c'.entries && cfg' == cfg.(interval := cfg'.interval)
    requires cfg.ttl >= 0 && Distinct(c.entries) && forall x <- c.entries :: x.seen >= e.time - cfg.ttl
    ensures Record(c, e, cfg).entries == Record(c', e, cfg').entries
  {
    var x := Entry(e.uid, e.frame, e.time);
    var put := Put(c.entries, x);
    PutFacts(c.entries, x);
    if |put| <= cfg.cap {
      IdleSweep(c.(entries := put), e.time, cfg);
      IdleSweep(c'.(entries := put), e.time, cfg');
    } else {
      ForcedSweep(c.(entries := put), c'.(entries := put), e.time, cfg, cfg');
    }
  }

  /** So it takes an entity that went stale for a sweep to show: in a log that spans no more than the
      ttl the whole cache, with its order, is the same under every sweep interval, ties or not. */
  lemma {:induction false} SweepsNeedStaleness(log: seq<Event>, start: int, start': int, cfg: Config, interval: int)
    requires InOrder(log) && cfg.ttl >= 0
    requires log != [] ==> log[|log| - 1].time - log[0].time <= cfg.ttl
    ensures Replay(log, start, cfg).entries == Replay(log, start', cfg.(interval := interval)).entries
  {
    if log != [] {
      var init, e := log[..|log| - 1], log[|log| - 1];
      var c := Replay(init, start, cfg);
      assert log == init + [e];
      PrefixInOrder(init, e);
      SweepsNeedStaleness(init, start, start', cfg, interval);
      ReplayIsFaithful(init, start, cfg);
      forall x <- c.entries ensures x.seen >= e.time - cfg.ttl {
        LatestIsEvent(init, x.uid);
        var i :| 0 <= i < |init| && init[i] == Event(x.uid, x.frame, x.seen);
        assert log[i] == init[i] && log[0].time <= log[i].time;
      }
      SameAfterRecord(c, Replay(init, start', cfg.(interval := interval)), e, cfg, cfg.(interval := interval));
    }
  }

  lemma {:induction false} SameMultiset(a: seq<Entry>, b: seq<Entry>)
    requires Distinct(a) && Distinct(b) && forall e :: e in a <==> e in b
    ensures multiset(a) == multiset(b)
  {
    forall e ensures multiset(a)[e] == multiset(b)[e] {
      DistinctIsSetLike(a, e);
      DistinctIsSetLike(b, e);
    }
  }

  // ---------------------------------------------------------------------------
  // When the frame just recorded is kept
  // ---------------------------------------------------------------------------

  /** How many entries of instant `t` stand before the place of `u`. */
  function TiedBefore(es: seq<Entry>, u: Uid, t: int): nat {
    if es == [] || es[0].uid == u then 0
    else (if es[0].seen == t then 1 else 0) + TiedBefore(es[1..], u, t)
  }

  lemma {:induction false} PutKeepsPlace(es: seq<Entry>, x: Entry, t: int)
    ensures TiedBefore(Put(es, x), x.uid, t) == TiedBefore(es, x.uid, t)
  {
    if es != [] && es[0].uid != x.uid {
      assert Put(es, x)[1..] == Put(es[1..], x);
      PutKeepsPlace(es[1..], x, t);
    }
  }

  lemma {:induction false} FreshKeepsPlace(es: seq<Entry>, u: Uid, t: int, cutoff: int)
    requires t >= cutoff && forall e <- es :: e.uid == u ==> e.seen >= cutoff
    ensures TiedBefore(Fresh(es, cutoff), u, t) == TiedBefore(es, u, t)
  {
    if es != [] && es[0].uid != u {
      FreshKeepsPlace(es[1..], u, t, cutoff);
      if es[0].seen >= cutoff {
        assert Fresh(es, cutoff)[1..] == Fresh(es[1..], cutoff);
      } else {
        assert Fresh(es, cutoff) == Fresh(es[1..], cutoff);
      }
    }
  }

  /** The place of `x` among the entries of its own instant. */
  lemma {:induction false} PlaceAmongTied(es: seq<Entry>, x: Entry)
    requires Distinct(es) && x in es
    ensures var tied, k := WithKey(Age, es, Age(x)), TiedBefore(es, x.uid, x.seen);
            k < |tied| && tied[k] == x
  {
    if es[0].uid != x.uid {
      assert x in es[1..];
      PlaceAmongTied(es[1..], x);
    }
  }

  lemma {:induction false} PrefixHolds(es: seq<Entry>, k: nat, n: nat)
    requires Distinct(es) && k < |es| && n <= |es|
    ensures es[k] in es[..n] <==> k < n
  {
    if k < n {
      assert es[..n][k] == es[k];
    }
  }

  lemma {:induction false} WithKeyDistinct(es: seq<Entry>, k: int)
    requires Distinct(es)
    ensures Distinct(WithKey(Age, es, k)) && forall e <- WithKey(Age, es, k) :: e in es
  {
    if es != [] {
      WithKeyDistinct(es[1..], k);
      var tail := WithKey(Age, es[1..], k);
      if Age(es[0]) == k {
        var r := [es[0]] + tail;
        forall i, j | 0 <= i < j < |r| ensures r[i].uid != r[j].uid {
          assert r[j] == tail[j - 1] && r[j] in es[1..];
          assert r[j].uid in Uids(es[1..]);
        }
      }
    }
  }

  /** When nothing from position `n` on is `x`, a longer prefix holds it no more often. */
  lemma {:induction false} InPrefix(s: seq<Entry>, n: nat, cap: nat, x: Entry)
    requires n <= |s| && cap <= |s| && forall i | n <= i < |s| :: s[i] != x
    ensures x in s[..cap] <==> x in s[..n][..if cap < n then cap else n]
  {
    if cap < n {
      assert s[..n][..cap] == s[..cap];
    } else {
      assert s[..n][..n] == s[..n];
      if x in s[..cap] {
        var i :| 0 <= i < cap && s[..cap][i] == x;
        assert s[i] == x && s[..n][i] == x;
      }
      if x in s[..n] {
        var i :| 0 <= i < n && s[..n][i] == x;
        assert s[..cap][i] == x;
      }
    }
  }

  lemma {:induction false} TiedComeFirst(es: seq<Entry>, x: Entry)
    requires forall e <- es :: e.seen <= x.seen
    ensures var s, n := NewestFirst(es), |WithKey(Age, es, Age(x))|;
            n <= |s| && s[..n] == WithKey(Age, es, Age(x)) && forall i | n <= i < |s| :: s[i] != x
  {
    var s, k := NewestFirst(es), Age(x);
    SortByStable(Age, es, k);
    forall e <- s ensures k <= Age(e) {
      SortByMember(Age, es, e);
    }
    SortBySorts(Age, es);
    LeastKeyFirst(Age, s, k);
  }

  lemma {:induction false} TopHoldsTied(es: seq<Entry>, cap: nat, x: Entry)
    requires cap < |es| && forall e <- es :: e.seen <= x.seen
    ensures var tied := WithKey(Age, es, Age(x));
            x in Capped(es, cap) <==> x in tied[..if cap < |tied| then cap else |tied|]
  {
    SortBySorts(Age, es);
    TiedComeFirst(es, x);
    InPrefix(NewestFirst(es), |WithKey(Age, es, Age(x))|, cap, x);
  }

  /** Capping keeps a newest entry if and only if fewer than `cap` entries of its instant precede it. */
  lemma {:induction false} CapKeepsNewest(es: seq<Entry>, cap: nat, x: Entry)
    requires Distinct(es) && x in es && forall e <- es :: e.seen <= x.seen
    ensures x in Capped(es, cap) <==> TiedBefore(es, x.uid, x.seen) < cap || |es| <= cap
  {
    if |es| > cap {
      var tied := WithKey(Age, es, Age(x));
      TopHoldsTied(es, cap, x);
      PlaceAmongTied(es, x);
      WithKeyDistinct(es, Age(x));
      PrefixHolds(tied, TiedBefore(es, x.uid, x.seen), if cap < |tied| then cap else |tied|);
    }
  }

  lemma {:induction false} TiedBeforeBound(es: seq<Entry>, x: Entry)
    requires x in es
    ensures TiedBefore(es, x.uid, x.seen) < |es|
  {
    if es[0].uid != x.uid {
      TiedBeforeBound(es[1..], x);
    }
  }

  /** With a clock that never runs backwards: the frame just recorded stays cached if and only if
      fewer than `cap` entries of the same instant stand before its place in the dictionary. */
  lemma {:induction false} NewestKeptExactly(c: Cache, e: Event, cfg: Config)
    requires Distinct(c.entries) && forall x <- c.entries :: x.seen <= e.time
    requires e.uid != "" && cfg.ttl >= 0
    ensures Entry(e.uid, e.frame, e.time) in Record(c, e, cfg).entries
            <==> TiedBefore(c.entries, e.uid, e.time) < cfg.cap
  {
    var x := Entry(e.uid, e.frame, e.time);
    PutFacts(c.entries, x);
    PutKeepsPlace(c.entries, x, e.time);
    PruneKeepsNewest(c.(entries := Put(c.entries, x)), x, cfg);
  }

  lemma {:induction false} PruneKeepsNewest(c: Cache, x: Entry, cfg: Config)
    requires Distinct(c.entries) && x in c.entries && forall e <- c.entries :: e.seen <= x.seen
    requires cfg.ttl >= 0
    ensures x in MaybePrune(c, x.seen, cfg).entries <==> TiedBefore(c.entries, x.uid, x.seen) < cfg.cap
  {
    var young := Fresh(c.entries, x.seen - cfg.ttl);
    FreshFacts(c.entries, x.seen - cfg.ttl);
    FreshKeepsPlace(c.entries, x.uid, x.seen, x.seen - cfg.ttl);
    TiedBeforeBound(c.entries, x);
    TiedBeforeBound(young, x);
    CapKeepsNewest(young, cfg.cap, x);
  }

  /** So ties do lose frames: with two entities at one instant and a cap of one, the older
      dictionary entry stays and the frame just recorded is dropped. */
  lemma {:induction false} TiedTimesCanEvictTheNewest(f: Bytes, g: Bytes, t: int, start: int, cfg: Config)
    requires cfg.cap == 1 && cfg.ttl >= 0
    ensures Entry("b", g, t) !in Replay([Event("a", f, t), Event("b", g, t)], start, cfg).entries
  {
    var log := [Event("a", f, t), Event("b", g, t)];
    var c := Replay(log[..1], start, cfg);
    assert log[..1][..0] == [] && log[..1] == [log[0]];
    assert Replay(log[..1][..0], start, cfg) == Cache([], start);
    assert Put([], Entry("a", f, t)) == [Entry("a", f, t)];
    ReplayIsFaithful(log[..1], start, cfg);
    NewestKeptExactly(Cache([], start), log[0], cfg);
    assert Entry("a", f, t) in c.entries;
    assert c.entries == [Entry("a", f, t)];
    NewestKeptExactly(c, log[1], cfg);
  }

  lemma {:induction false} CapOfThree(p: Entry, q: Entry, y: Entry)
    requires p.seen == q.seen < y.seen
    ensures Capped([p, q, y], 2) == [y, p]
  {
    var es := [p, q, y];
    assert es[1..] == [q, y] && [q, y][1..] == [y] && [y][1..] == [] && [y, q][1..] == [q];
    assert SortBy(Age, [y]) == [y];
    assert SortBy(Age, [q, y]) == InsertBy(Age, q, [y]) == [y, q];
    assert SortBy(Age, es) == InsertBy(Age, p, [y, q]) == [y] + InsertBy(Age, p, [q]) == [y, p, q];
  }

  lemma {:induction false} ReplaySnoc(log: seq<Event>, e: Event, start: int, cfg: Config)
    ensures Replay(log + [e], start, cfg) == Record(Replay(log, start, cfg), e, cfg)
  {
    assert (log + [e])[..|log|] == log;
  }

  function TiedLog(f: Bytes): seq<Event> {
    [Event("x", f, 0)] + [Event("b", f, 100)] + [Event("x", f, 100)]
  }

  /** An early sweep forgets the stale "x", so that it comes back behind "b"; a late one lets it keep
      its place. */
  lemma {:induction false} SweepsMoveEntries(f: Bytes)
    ensures Replay(TiedLog(f), 0, Config(50, 2, 30)).entries == [Entry("b", f, 100), Entry("x", f, 100)]
    ensures Replay(TiedLog(f), 0, Config(50, 2, 1000)).entries == [Entry("x", f, 100), Entry("b", f, 100)]
  {
    var x0, x, b := Entry("x", f, 0), Entry("x", f, 100), Entry("b", f, 100);
    var early, late := Config(50, 2, 30), Config(50, 2, 1000);
    assert [x0][1..] == [] && [b][1..] == [] && [x0, b][1..] == [b];
    assert Put([x0], b) == [x0, b] && Put([b], x) == [b, x] && Put([x0, b], x) == [x, b];
    assert Fresh([x0, b], 50) == Fresh([b], 50) == [b];
    ReplaySnoc([], Event("x", f, 0), 0, early);
    ReplaySnoc([], Event("x", f, 0), 0, late);
    assert [] + [Event("x", f, 0)] == [Event("x", f, 0)];
    ReplaySnoc([Event("x", f, 0)], Event("b", f, 100), 0, early);
    ReplaySnoc([Event("x", f, 0)], Event("b", f, 100), 0, late);
    ReplaySnoc([Event("x", f, 0)] + [Event("b", f, 100)], Event("x", f, 100), 0, early);
    ReplaySnoc([Event("x", f, 0)] + [Event("b", f, 100)], Event("x", f, 100), 0, late);
  }

  /** The exception in PruneTimingUnobservable is real: with a tie at the cap, the sweep interval
      decides which of two entities a snapshot shows. */
  lemma {:induction false} SweepsShowInTies(f: Bytes)
    ensures var log := TiedLog(f) + [Event("y", f, 101)];
            && InOrder(log)
            && Entry("x", f, 100) !in Snapshot(Replay(log, 0, Config(50, 2, 30)), 101, Config(50, 2, 30))
            && Entry("x", f, 100) in Snapshot(Replay(log, 0, Config(50, 2, 1000)), 101, Config(50, 2, 1000))
  {
    SweepsMoveEntries(f);
    ReplaySnoc(TiedLog(f), Event("y", f, 101), 0, Config(50, 2, 30));
    ReplaySnoc(TiedLog(f), Event("y", f, 101), 0, Config(50, 2, 1000));
    ThirdEvictsSecond("b", "x", f, Replay(TiedLog(f), 0, Config(50, 2, 30)), 30);
    ThirdEvictsSecond("x", "b", f, Replay(TiedLog(f), 0, Config(50, 2, 1000)), 1000);
  }

  lemma {:induction false} ThirdEvictsSecond(u: Uid, v: Uid, f: Bytes, c: Cache, interval: int)
    requires u != "y" && v != "y" && c.entries == [Entry(u, f, 100), Entry(v, f, 100)]
    ensures var cfg := Config(50, 2, interval);
            Snapshot(Record(c, Event("y", f, 101), cfg), 101, cfg) == [Entry("y", f, 101), Entry(u, f, 100)]
  {
    var p, q, y := Entry(u, f, 100), Entry(v, f, 100), Entry("y", f, 101);
    PutLast(p, q, y);
    AllFresh([p, q, y], 51);
    CapOfThree(p, q, y);
    AllFresh([y, p], 51);
  }

  lemma {:induction false} PutLast(p: Entry, q: Entry, y: Entry)
    requires p.uid != y.uid && q.uid != y.uid
    ensures Put([p, q], y) == [p, q, y]
  {
    assert [p, q][1..] == [q] && [q][1..] == [];
    assert Put([q], y) == [q] + Put([], y) == [q, y];
  }
}
