/** What a client of the hub receives, told from the steps of a run alone. */
module Delivery {
  import opened Collections
  import opened Options
  import opened Framing
  import opened LiveCache
  import opened Worker
  import opened Hub

  /** What a step puts into every queue. */
  function Carried(step: Step): seq<Item> {
    if step.Publish? then [Proto(step.e.frame)]
    else if step.Notify? then [Tagged("alert", step.payload)]
    else []
  }

  /** Everything the feed and the alerts sent during the steps, in order. */
  function Traffic(steps: seq<Step>): seq<Item> {
    if steps == [] then [] else Traffic(steps[..|steps| - 1]) + Carried(steps[|steps| - 1])
  }

  /** The events the feed published during the steps, in order. */
  function Events(steps: seq<Step>): seq<Event> {
    if steps == [] then [] else Events(steps[..|steps| - 1]) + Published(steps[|steps| - 1])
  }

  function Published(step: Step): seq<Event> {
    if step.Publish? then [step.e] else []
  }

  /** Step number `j` registers the client, which then stays. */
  ghost predicate JoinedAt(steps: seq<Step>, start: int, cfg: Config, c: ClientId, j: int) {
    && 0 <= j < |steps| && steps[j] == Join(c)
    && c !in Run(steps[..j], start, cfg).sessions
    && forall k | j < k < |steps| :: steps[k] != Leave(c)
  }

  /** Step number `i` is the worker's first act after the registration. */
  ghost predicate ReplayedAt(steps: seq<Step>, start: int, cfg: Config, c: ClientId, j: int, i: int) {
    && JoinedAt(steps, start, cfg, c, j)
    && j < i < |steps| && steps[i].StartReplay? && steps[i].c == c
    && forall k | j < k < i && steps[k].StartReplay? :: steps[k].c != c
  }

  lemma {:induction false} RunSnoc(steps: seq<Step>, k: nat, start: int, cfg: Config)
    requires k < |steps|
    ensures Run(steps[..k + 1], start, cfg) == Next(Run(steps[..k], start, cfg), steps[k], cfg)
  {
    assert steps[..k + 1][..k] == steps[..k];
  }

  // ---------------------------------------------------------------------------
  // Log and cache
  // ---------------------------------------------------------------------------

  lemma {:induction false} StepRecords(s: State, step: Step, cfg: Config)
    ensures Next(s, step, cfg).log == s.log + Published(step)
    ensures Next(s, step, cfg).cache == if step.Publish? then Record(s.cache, step.e, cfg) else s.cache
  {
  }

  lemma {:induction false} ReplayPublished(log: seq<Event>, step: Step, start: int, cfg: Config)
    ensures Replay(log + Published(step), start, cfg) ==
            if step.Publish? then Record(Replay(log, start, cfg), step.e, cfg) else Replay(log, start, cfg)
  {
    if step.Publish? {
      ReplaySnoc(log, step.e, start, cfg);
    } else {
      assert log + [] == log;
    }
  }

  /** The hub's cache is the last-value cache of the events published so far. */
  lemma {:induction false} CacheIsReplay(steps: seq<Step>, start: int, cfg: Config)
    ensures Run(steps, start, cfg).log == Events(steps)
    ensures Run(steps, start, cfg).cache == Replay(Events(steps), start, cfg)
  {
    if steps != [] {
      var init, last := steps[..|steps| - 1], steps[|steps| - 1];
      CacheIsReplay(init, start, cfg);
      StepRecords(Run(init, start, cfg), last, cfg);
      ReplayPublished(Events(init), last, start, cfg);
    }
  }

  lemma {:induction false} EventsSnoc(steps: seq<Step>, k: nat)
    requires k < |steps|
    ensures Events(steps[k..]) == Events(steps[..|steps| - 1][k..]) + Published(steps[|steps| - 1])
  {
    var tail := steps[k..];
    assert tail[..|tail| - 1] == steps[..|steps| - 1][k..] && tail[|tail| - 1] == steps[|steps| - 1];
  }

  lemma {:induction false} EventsSplit(steps: seq<Step>, k: nat)
    requires k <= |steps|
    ensures Events(steps) == Events(steps[..k]) + Events(steps[k..])
    decreases |steps|
  {
    if k == |steps| {
      assert steps[..k] == steps && steps[k..] == [];
    } else {
      var init := steps[..|steps| - 1];
      EventsSplit(init, k);
      EventsSnoc(steps, k);
      assert init[..k] == steps[..k];
      Assoc(Events(steps[..k]), Events(init[k..]), Published(steps[|steps| - 1]));
    }
  }

  lemma {:induction false} PublishedIsEvent(steps: seq<Step>, i: nat)
    requires i < |steps| && steps[i].Publish?
    ensures steps[i].e in Events(steps)
    decreases |steps|
  {
    if i < |steps| - 1 {
      PublishedIsEvent(steps[..|steps| - 1], i);
    }
  }

  // ---------------------------------------------------------------------------
  // From registration on, a client is queued everything
  // ---------------------------------------------------------------------------

  lemma {:induction false} StepCarries(s: State, step: Step, cfg: Config, c: ClientId)
    requires c in s.sessions && step != Leave(c)
    ensures c in Next(s, step, cfg).sessions
    ensures var h, h' := s.sessions[c].history, Next(s, step, cfg).sessions[c].history;
            h'.enqueued == h.enqueued + Carried(step) && h'.joinedAt == h.joinedAt
    ensures (s.sessions[c].client.bootstrapped || (step.StartReplay? && step.c == c))
            <==> Next(s, step, cfg).sessions[c].client.bootstrapped
    ensures s.sessions[c].client.bootstrapped || !(step.StartReplay? && step.c == c) ==>
              Next(s, step, cfg).sessions[c].history.snapshot == s.sessions[c].history.snapshot
              && Next(s, step, cfg).sessions[c].history.cached == s.sessions[c].history.cached
  {
  }

  /** The last step of a run in which the client registered earlier. */
  lemma {:induction false} StillJoined(steps: seq<Step>, start: int, cfg: Config, c: ClientId, j: nat)
    requires JoinedAt(steps, start, cfg, c, j) && j < |steps| - 1
    ensures JoinedAt(steps[..|steps| - 1], start, cfg, c, j) && steps[|steps| - 1] != Leave(c)
  {
    assert steps[..|steps| - 1][..j] == steps[..j];
  }

  lemma {:induction false} JustJoined(steps: seq<Step>, start: int, cfg: Config, c: ClientId)
    requires steps != [] && JoinedAt(steps, start, cfg, c, |steps| - 1)
    ensures var init := steps[..|steps| - 1];
            && c in Run(steps, start, cfg).sessions
            && Run(steps, start, cfg).sessions[c] == Session(EMPTY_CLIENT, NewHistory(|Run(init, start, cfg).log|))
  {
  }

  lemma {:induction false} TrafficSnoc(steps: seq<Step>, k: nat)
    requires k < |steps|
    ensures Traffic(steps[k..]) == Traffic(steps[..|steps| - 1][k..]) + Carried(steps[|steps| - 1])
  {
    var tail := steps[k..];
    assert tail[..|tail| - 1] == steps[..|steps| - 1][k..] && tail[|tail| - 1] == steps[|steps| - 1];
  }

  /** The client is registered, and this is what was ever queued for it. */
  ghost predicate Queued(s: State, c: ClientId, items: seq<Item>, joinedAt: nat) {
    c in s.sessions && s.sessions[c].history.enqueued == items && s.sessions[c].history.joinedAt == joinedAt
  }

  lemma {:induction false} QueuedStep(s: State, step: Step, cfg: Config, c: ClientId, items: seq<Item>, joinedAt: nat)
    requires Queued(s, c, items, joinedAt) && step != Leave(c)
    ensures Queued(Next(s, step, cfg), c, items + Carried(step), joinedAt)
  {
    StepCarries(s, step, cfg, c);
  }

  lemma {:induction false} QueuedFromJoin(steps: seq<Step>, start: int, cfg: Config, c: ClientId)
    requires steps != [] && JoinedAt(steps, start, cfg, c, |steps| - 1)
    ensures Queued(Run(steps, start, cfg), c, [], |Events(steps[..|steps| - 1])|)
  {
    JustJoined(steps, start, cfg, c);
    CacheIsReplay(steps[..|steps| - 1], start, cfg);
  }

  lemma {:induction false} QueuedSince(steps: seq<Step>, start: int, cfg: Config, c: ClientId, j: nat)
    requires JoinedAt(steps, start, cfg, c, j)
    ensures Queued(Run(steps, start, cfg), c, Traffic(steps[j + 1..]), |Events(steps[..j])|)
    decreases |steps|
  {
    var n := |steps| - 1;
    var init := steps[..n];
    if j == n {
      QueuedFromJoin(steps, start, cfg, c);
      assert steps[j + 1..] == [];
    } else {
      StillJoined(steps, start, cfg, c, j);
      assert init[..j] == steps[..j];
      QueuedSince(init, start, cfg, c, j);
      QueuedStep(Run(init, start, cfg), steps[n], cfg, c, Traffic(init[j + 1..]), |Events(steps[..j])|);
      TrafficSnoc(steps, j + 1);
    }
  }

  /** However the steps of others interleave: from the step that registers a client until it leaves,
      it is registered, and what was ever queued for it is exactly the traffic since. */
  lemma {:induction false} EnqueuedIsTraffic(steps: seq<Step>, start: int, cfg: Config, c: ClientId, j: nat)
    requires JoinedAt(steps, start, cfg, c, j)
    ensures c in Run(steps, start, cfg).sessions
    ensures Run(steps, start, cfg).sessions[c].history.enqueued == Traffic(steps[j + 1..])
    ensures Run(steps, start, cfg).sessions[c].history.joinedAt == |Events(steps[..j])|
  {
    QueuedSince(steps, start, cfg, c, j);
  }

  /** Leaving removes a client and nobody else, and whoever comes back starts afresh. */
  lemma {:induction false} LeavingForgets(s: State, c: ClientId, cfg: Config)
    ensures var t := Next(s, Leave(c), cfg);
            && t.sessions == s.sessions - {c} && t.log == s.log && t.cache == s.cache
            && Next(t, Join(c), cfg).sessions == t.sessions[c := Session(EMPTY_CLIENT, NewHistory(|s.log|))]
  {
  }

  // ---------------------------------------------------------------------------
  // The replay
  // ---------------------------------------------------------------------------

  /** The items of the fresh entries, and their entities. */
  lemma {:induction false} FreshItems(es: seq<Entry>, cutoff: int, it: Item)
    ensures it in Protos(Frames(Fresh(es, cutoff))) <==> exists e :: e in es && e.seen >= cutoff && it == Proto(e.frame)
  {
    var young := Fresh(es, cutoff);
    var items := Protos(Frames(young));
    FreshFacts(es, cutoff);
    if it in items {
      var i :| 0 <= i < |items| && items[i] == it;
      assert young[i] in young;
    }
    if e :| e in es && e.seen >= cutoff && it == Proto(e.frame) {
      var i :| 0 <= i < |young| && young[i] == e;
      assert items[i] == it;
    }
  }

  lemma {:induction false} FreshUids(es: seq<Entry>, cutoff: int, u: Uid)
    ensures u in Uids(Fresh(es, cutoff)) <==> exists e :: e in es && e.seen >= cutoff && u == e.uid
  {
    FreshFacts(es, cutoff);
  }

  lemma {:induction false} SnapshotDistinct(cache: Cache, now: int, cfg: Config)
    requires Distinct(cache.entries)
    ensures |Snapshot(cache, now, cfg)| == |Uids(Snapshot(cache, now, cfg))|
    ensures forall e <- Snapshot(cache, now, cfg) :: e in cache.entries
  {
    FreshFacts(cache.entries, now - cfg.ttl);
    DistinctCount(Snapshot(cache, now, cfg));
  }

  lemma {:induction false} SnapshotReads(cache: Cache, log: seq<Event>, now: int, cfg: Config, uidOf: Bytes -> Uid)
    requires CacheInv(cache, log, uidOf)
    ensures var es := Snapshot(cache, now, cfg);
            Decode(Coalesced(Protos(Frames(es)))) == Protos(Frames(es)) && |es| == |Uids(es)|
  {
    var es := Snapshot(cache, now, cfg);
    SnapshotDistinct(cache, now, cfg);
    SnapshotIsSafe(cache, log, es, uidOf);
    WireSafeRoundTrip(Protos(Frames(es)));
  }

  /** The sends of the replay read as the snapshot. */
  lemma {:induction false} ReplayReads(s: State, c: ClientId, now: int, cfg: Config)
    requires c in s.sessions && !s.sessions[c].client.bootstrapped
    ensures var t := Next(s, StartReplay(c, now), cfg).sessions[c];
            var es := Snapshot(s.cache, now, cfg);
            && t.client.bootstrapped && t.client.unsent == Coalesced(Protos(Frames(es)))
            && t.history.cached == Uids(es) && t.history.snapshot == Frames(es)
  {
  }

  lemma {:induction false} SendsFresh(t: Session, es: seq<Entry>, cutoff: int, it: Item, u: Uid)
    requires Decode(t.client.unsent) == Protos(Frames(Fresh(es, cutoff))) && t.history.cached == Uids(Fresh(es, cutoff))
    ensures it in Decode(t.client.unsent) <==> exists e :: e in es && e.seen >= cutoff && it == Proto(e.frame)
    ensures u in t.history.cached <==> exists e :: e in es && e.seen >= cutoff && u == e.uid
  {
    FreshItems(es, cutoff, it);
    FreshUids(es, cutoff, u);
  }

  /** What the worker's first act sends: each cached entity still within its age limit, once. */
  lemma {:induction false} ReplaySendsFreshEntries(s: State, c: ClientId, now: int, cfg: Config, uidOf: Bytes -> Uid, it: Item, u: Uid)
    requires CacheInv(s.cache, s.log, uidOf) && c in s.sessions && !s.sessions[c].client.bootstrapped
    ensures var t := Next(s, StartReplay(c, now), cfg).sessions[c];
            && t.client.bootstrapped
            && (it in Decode(t.client.unsent) <==>
                  exists e :: e in s.cache.entries && e.seen >= now - cfg.ttl && it == Proto(e.frame))
            && (u in t.history.cached <==> exists e :: e in s.cache.entries && e.seen >= now - cfg.ttl && u == e.uid)
            && |Decode(t.client.unsent)| == |t.history.cached|
  {
    ReplayReads(s, c, now, cfg);
    SnapshotReads(s.cache, s.log, now, cfg, uidOf);
    SendsFresh(Next(s, StartReplay(c, now), cfg).sessions[c], s.cache.entries, now - cfg.ttl, it, u);
  }

  lemma {:induction false} WaitsForReplay(steps: seq<Step>, start: int, cfg: Config, c: ClientId, j: nat)
    requires JoinedAt(steps, start, cfg, c, j)
    requires forall k | j < k < |steps| && steps[k].StartReplay? :: steps[k].c != c
    ensures c in Run(steps, start, cfg).sessions && !Run(steps, start, cfg).sessions[c].client.bootstrapped
    decreases |steps|
  {
    var n := |steps| - 1;
    if j == n {
      JustJoined(steps, start, cfg, c);
    } else {
      var init := steps[..n];
      StillJoined(steps, start, cfg, c, j);
      WaitsForReplay(init, start, cfg, c, j);
      StepCarries(Run(init, start, cfg), steps[n], cfg, c);
    }
  }

  /** The state in which the worker of a client takes its snapshot. */
  function AtReplay(steps: seq<Step>, start: int, cfg: Config, i: nat): State
    requires i < |steps|
  {
    Run(steps[..i], start, cfg)
  }

  lemma {:induction false} BeforeReplay(steps: seq<Step>, start: int, cfg: Config, c: ClientId, j: nat, i: nat)
    requires ReplayedAt(steps, start, cfg, c, j, i)
    ensures c in AtReplay(steps, start, cfg, i).sessions && !AtReplay(steps, start, cfg, i).sessions[c].client.bootstrapped
  {
    assert steps[..i][..j] == steps[..j];
    assert JoinedAt(steps[..i], start, cfg, c, j);
    WaitsForReplay(steps[..i], start, cfg, c, j);
  }

  /** The snapshot a client was given stays what it was. */
  lemma {:induction false} ReplayStays(steps: seq<Step>, start: int, cfg: Config, c: ClientId, j: nat, i: nat)
    requires ReplayedAt(steps, start, cfg, c, j, i)
    ensures c in Run(steps, start, cfg).sessions
    ensures var s := Run(steps, start, cfg).sessions[c];
            var es := Snapshot(AtReplay(steps, start, cfg, i).cache, steps[i].now, cfg);
            s.client.bootstrapped && s.history.snapshot == Frames(es) && s.history.cached == Uids(es)
    decreases |steps|
  {
    var n := |steps| - 1;
    var init := steps[..n];
    BeforeReplay(steps, start, cfg, c, j, i);
    if i < n {
      assert init[..j] == steps[..j] && init[..i] == steps[..i];
      assert ReplayedAt(init, start, cfg, c, j, i);
      ReplayStays(init, start, cfg, c, j, i);
      StepCarries(Run(init, start, cfg), steps[n], cfg, c);
    }
  }

  // ---------------------------------------------------------------------------
  // A late joiner shows the last frame of every live entity
  // ---------------------------------------------------------------------------

  ghost predicate PublishedAfter(steps: seq<Step>, j: int, u: Uid) {
    exists k :: 0 <= j < k < |steps| && steps[k].Publish? && steps[k].e.uid == u
  }

  /** The cache held a frame of `u` within its age limit when the worker took its snapshot. */
  ghost predicate FreshAtReplay(steps: seq<Step>, start: int, cfg: Config, u: Uid, i: int) {
    && 0 <= i < |steps| && steps[i].StartReplay?
    && exists e :: e in AtReplay(steps, start, cfg, i).cache.entries && e.uid == u && e.seen >= steps[i].now - cfg.ttl
  }

  lemma {:induction false} PublishedIsRecorded(steps: seq<Step>, start: int, cfg: Config, c: ClientId, u: Uid, j: nat)
    requires JoinedAt(steps, start, cfg, c, j) && PublishedAfter(steps, j, u)
    ensures c in Run(steps, start, cfg).sessions
    ensures RecordedSince(Run(steps, start, cfg).log, Run(steps, start, cfg).sessions[c].history, u)
  {
    var k :| j < k < |steps| && steps[k].Publish? && steps[k].e.uid == u;
    EnqueuedIsTraffic(steps, start, cfg, c, j);
    CacheIsReplay(steps, start, cfg);
    EventsSplit(steps, j);
    PublishedIsEvent(steps[j..], k - j);
    var s := Run(steps, start, cfg);
    assert Since(s.log, s.sessions[c].history) == Events(steps[j..]);
  }

  lemma {:induction false} FreshIsCached(steps: seq<Step>, start: int, cfg: Config, uidOf: Bytes -> Uid, c: ClientId, u: Uid, j: nat, i: nat)
    requires WellFormed(steps, uidOf)
    requires ReplayedAt(steps, start, cfg, c, j, i) && FreshAtReplay(steps, start, cfg, u, i)
    ensures c in Run(steps, start, cfg).sessions && u in Run(steps, start, cfg).sessions[c].history.cached
  {
    var s := AtReplay(steps, start, cfg, i);
    ReplayStays(steps, start, cfg, c, j, i);
    FreshFacts(s.cache.entries, steps[i].now - cfg.ttl);
    var e :| e in s.cache.entries && e.uid == u && e.seen >= steps[i].now - cfg.ttl;
    assert e in Snapshot(s.cache, steps[i].now, cfg);
  }

  /** A client that registered at step `j` and took its snapshot at step `i` should show the last frame
      ever published for every entity that was published since `j` or was fresh in the cache at `i`. */
  lemma {:induction false} ExpectedIsLatest(steps: seq<Step>, start: int, cfg: Config, uidOf: Bytes -> Uid, c: ClientId, u: Uid, j: nat, i: nat)
    requires WellFormed(steps, uidOf) && ReplayedAt(steps, start, cfg, c, j, i)
    requires Unambiguous(Events(steps), u, uidOf)
    requires PublishedAfter(steps, j, u) || FreshAtReplay(steps, start, cfg, u, i)
    ensures c in Run(steps, start, cfg).sessions && Latest(Events(steps), u).Some?
    ensures Expected(Events(steps), Run(steps, start, cfg).sessions[c].history, u, uidOf)
            == Some(Latest(Events(steps), u).value.frame)
  {
    CacheIsReplay(steps, start, cfg);
    if PublishedAfter(steps, j, u) {
      PublishedIsRecorded(steps, start, cfg, c, u, j);
    } else {
      FreshIsCached(steps, start, cfg, uidOf, c, u, j, i);
    }
    RecordedOrCachedIsLatest(steps, start, cfg, uidOf, c, u);
  }

  lemma {:induction false} LiveIsCached(log: seq<Event>, start: int, now: int, cfg: Config, e: Entry)
    requires InOrder(log) && (log != [] ==> log[|log| - 1].time <= now)
    requires Alive(log, now, cfg, e) && |SeenFrom(log, e.seen)| <= cfg.cap
    ensures e in Replay(log, start, cfg).entries
  {
    var cache := Replay(log, start, cfg);
    ReplayIsFaithful(log, start, cfg);
    FaithfulSnapshot(cache, log, now, cfg);
    UntiedIsKept(Snapshot(cache, now, cfg), log, now, cfg, e);
    FreshFacts(cache.entries, now - cfg.ttl);
  }

  /** An entity whose last event before step `i` was within the age limit, with no more entities seen
      since than the cap admits, is fresh in the cache then, whenever the sweeps came. */
  lemma {:induction false} LiveIsFresh(steps: seq<Step>, start: int, cfg: Config, i: nat, e: Entry)
    requires i < |steps| && steps[i].StartReplay?
    requires var log := Events(steps[..i]);
             && InOrder(log) && (log != [] ==> log[|log| - 1].time <= steps[i].now)
             && e.uid != "" && Latest(log, e.uid) == Some(e) && e.seen >= steps[i].now - cfg.ttl
             && |SeenFrom(log, e.seen)| <= cfg.cap
    ensures FreshAtReplay(steps, start, cfg, e.uid, i)
  {
    CacheIsReplay(steps[..i], start, cfg);
    LiveIsCached(Events(steps[..i]), start, steps[i].now, cfg, e);
  }

  // ---------------------------------------------------------------------------
  // The whole stream of a client that never overflows
  // ---------------------------------------------------------------------------

  /** A step drops nothing of a client for which fewer than 4096 items were ever enqueued before. */
  lemma {:induction false} StepDropsNothing(s: State, step: Step, cfg: Config, c: ClientId)
    requires c in s.sessions && QueueInv(s.sessions[c]) && step != Leave(c)
    requires |Dropped(s.sessions[c].history)| == 0 && |s.sessions[c].history.enqueued + Carried(step)| <= 4096
    ensures c in Next(s, step, cfg).sessions && QueueInv(Next(s, step, cfg).sessions[c])
    ensures |Dropped(Next(s, step, cfg).sessions[c].history)| == 0
  {
    StepCarries(s, step, cfg, c);
    DropsOnlyWhenFull(s, step, cfg, c);
    StepKeepsQueue(s, step, cfg, c);
  }

  /** As long as no more than 4096 items were sent since it registered, nothing of a client was dropped. */
  lemma {:induction false} ShortTrafficDropsNothing(steps: seq<Step>, start: int, cfg: Config, c: ClientId, j: nat)
    requires JoinedAt(steps, start, cfg, c, j) && |Traffic(steps[j + 1..])| <= 4096
    ensures c in Run(steps, start, cfg).sessions && QueueInv(Run(steps, start, cfg).sessions[c])
    ensures |Dropped(Run(steps, start, cfg).sessions[c].history)| == 0
    decreases |steps|
  {
    var n := |steps| - 1;
    var init := steps[..n];
    if j == n {
      JustJoined(steps, start, cfg, c);
      DropCount(0, []);
    } else {
      StillJoined(steps, start, cfg, c, j);
      TrafficSnoc(steps, j + 1);
      ShortTrafficDropsNothing(init, start, cfg, c, j);
      EnqueuedIsTraffic(init, start, cfg, c, j);
      StepDropsNothing(Run(init, start, cfg), steps[n], cfg, c);
    }
  }

  lemma {:induction false} AllTaken(taken: seq<nat>, head: nat)
    requires Increasing(taken) && Below(taken, head) && |taken| == head
    ensures forall i | 0 <= i < head :: taken[i] == i
    decreases head
  {
    if head > 0 {
      var init := taken[..head - 1];
      forall i | 0 <= i < head - 1 ensures init[i] < head - 1 {
        assert taken[i] < taken[head - 1];
      }
      AllTaken(init, head - 1);
      assert forall i | 0 <= i < head - 1 :: taken[i] == init[i] == i;
      assert head > 1 ==> taken[head - 2] < taken[head - 1];
    }
  }

  /** Nothing dropped: what left the queue and what is in it are everything that was enqueued. */
  lemma {:induction false} NothingDropped(s: Session)
    requires QueueInv(s) && |Dropped(s.history)| == 0
    ensures Pick(s.history.enqueued, s.history.taken) + s.client.queue == s.history.enqueued
  {
    var h := s.history;
    DropCount(h.head, h.taken);
    AllTaken(h.taken, h.head);
    assert Pick(h.enqueued, h.taken) == h.enqueued[..h.head];
  }

  /** Exactly-once delivery in order: whatever interleaves, as long as no more than 4096 items were sent
      since it registered, what a client has received, what is in flight and what is queued are
      together the snapshot of the cache and then all traffic since the registration. */
  lemma {:induction false} ExactDelivery(steps: seq<Step>, start: int, cfg: Config, uidOf: Bytes -> Uid, c: ClientId, j: nat, i: nat)
    requires WellFormed(steps, uidOf) && ReplayedAt(steps, start, cfg, c, j, i)
    requires |Traffic(steps[j + 1..])| <= 4096
    ensures c in Run(steps, start, cfg).sessions
    ensures Pipeline(Run(steps, start, cfg).sessions[c])
            == Protos(Frames(Snapshot(AtReplay(steps, start, cfg, i).cache, steps[i].now, cfg))) + Traffic(steps[j + 1..])
  {
    ReplayStays(steps, start, cfg, c, j, i);
    EnqueuedIsTraffic(steps, start, cfg, c, j);
    ShortTrafficDropsNothing(steps, start, cfg, c, j);
    RunKeepsInv(steps, start, cfg, uidOf);
    var s := Run(steps, start, cfg).sessions[c];
    assert QueueInv(s) && WireInv(s);
    NothingDropped(s);
    Assoc(Protos(s.history.snapshot), Pick(s.history.enqueued, s.history.taken), s.client.queue);
  }

  /** So such a client ends on the last frame ever published for every entity that was published since
      it registered or was fresh in the cache when its snapshot was taken. */
  lemma {:induction false} LateJoinerIsRight(steps: seq<Step>, start: int, cfg: Config, uidOf: Bytes -> Uid, c: ClientId, u: Uid, j: nat, i: nat)
    requires WellFormed(steps, uidOf) && ReplayedAt(steps, start, cfg, c, j, i)
    requires |Traffic(steps[j + 1..])| <= 4096
    requires Unambiguous(Events(steps), u, uidOf)
    requires PublishedAfter(steps, j, u) || FreshAtReplay(steps, start, cfg, u, i)
    ensures c in Run(steps, start, cfg).sessions && Latest(Events(steps), u).Some?
    ensures Shown(Pipeline(Run(steps, start, cfg).sessions[c]), u, uidOf) == Some(Latest(Events(steps), u).value.frame)
  {
    ExpectedIsLatest(steps, start, cfg, uidOf, c, u, j, i);
    ShortTrafficDropsNothing(steps, start, cfg, c, j);
    CacheIsReplay(steps, start, cfg);
    assert Dropped(Run(steps, start, cfg).sessions[c].history) == {};
    LateJoinerConsistency(steps, start, cfg, uidOf, c, u);
  }

  // ---------------------------------------------------------------------------
  // The worker gets everything out
  // ---------------------------------------------------------------------------

  /** What the worker of a client does next: complete a send, or else drain the queue. */
  function WorkerStep(s: State, c: ClientId): Step {
    if c in s.sessions && s.sessions[c].client.unsent != [] then Complete(c) else Drain(c)
  }

  function Work(s: State, c: ClientId, cfg: Config, n: nat): State
    decreases n
  {
    if n == 0 then s else Work(Next(s, WorkerStep(s, c), cfg), c, cfg, n - 1)
  }

  lemma {:induction false} FewGroups(items: seq<Item>, pending: seq<Bytes>)
    ensures |Greedy(items, pending)| <= |items| + |Flush(pending)|
  {
    if items != [] {
      var rest := items[1..];
      match items[0]
      case Tagged(kind, d) => FewGroups(rest, if kind == "alert" then [] else pending);
      case Proto(m) => FewGroups(rest, if MustFlush(pending, m) then [m] else pending + [m]);
    }
  }

  lemma {:induction false} CompletesOne(s: Session)
    requires s.client.unsent != []
    ensures Pipeline(CompleteSend(s)) == Pipeline(s)
  {
    CompleteKeepsWire(s);
  }

  lemma {:induction false} DrainMovesBatch(s: Session)
    requires QueueInv(s) && WireInv(s) && CanDrain(s)
    ensures Pipeline(DrainQueue(s)) == Pipeline(s)
    ensures |DrainQueue(s).client.unsent| <= DrainCount(s)
  {
    var n := DrainCount(s);
    var items := s.client.queue[..n];
    DrainOnTheWire(s);
    Assoc(OnTheWire(s), items, s.client.queue[n..]);
    assert items + s.client.queue[n..] == s.client.queue;
    FewGroups(items, []);
    GreedyGroupsAreValid(items, []);
    EncodeLength(Greedy(items, []));
  }

  /** How many steps the worker may still need: one per unsent send, two per queued item. */
  function Left(c: Client): nat {
    |c.unsent| + 2 * |c.queue|
  }

  /** A worker step moves items along and neither loses nor reorders any: it completes one send, or
      takes up to 128 items off the queue. */
  lemma {:induction false} WorkerStepKeepsPipeline(s: State, c: ClientId, cfg: Config)
    requires c in s.sessions && QueueInv(s.sessions[c]) && WireInv(s.sessions[c]) && s.sessions[c].client.bootstrapped
    requires s.sessions[c].client.unsent != [] || s.sessions[c].client.queue != []
    ensures c in Next(s, WorkerStep(s, c), cfg).sessions
    ensures var t := Next(s, WorkerStep(s, c), cfg).sessions[c];
            var p := s.sessions[c].client;
            && QueueInv(t) && WireInv(t) && Pipeline(t) == Pipeline(s.sessions[c])
            && t.client.bootstrapped && Left(t.client) < Left(p)
            && t.client.queue == if p.unsent != [] then p.queue else p.queue[if |p.queue| < 128 then |p.queue| else 128..]
  {
    var se := s.sessions[c];
    if se.client.unsent != [] {
      CompletesOne(se);
      CompleteKeepsWire(se);
    } else {
      DrainMovesBatch(se);
      DrainKeepsWire(se);
    }
  }

  lemma {:induction false} NothingLeft(s: Session)
    requires Left(s.client) == 0
    ensures Pipeline(s) == Decode(s.history.wire)
  {
  }

  lemma {:induction false} WorksOff(s: State, c: ClientId, cfg: Config, left: nat) returns (n: nat)
    requires c in s.sessions && QueueInv(s.sessions[c]) && WireInv(s.sessions[c]) && s.sessions[c].client.bootstrapped
    requires Left(s.sessions[c].client) <= left
    ensures n <= left && c in Work(s, c, cfg, n).sessions
    ensures Left(Work(s, c, cfg, n).sessions[c].client) == 0
    ensures Decode(Work(s, c, cfg, n).sessions[c].history.wire) == Pipeline(s.sessions[c])
    decreases left
  {
    if Left(s.sessions[c].client) == 0 {
      n := 0;
      NothingLeft(s.sessions[c]);
    } else {
      WorkerStepKeepsPipeline(s, c, cfg);
      var m := WorksOff(Next(s, WorkerStep(s, c), cfg), c, cfg, left - 1);
      n := m + 1;
    }
  }

  /** Left to work, the worker of a client gets everything out: after at most one step per unsent send
      and two per queued item nothing is left, and what reached the client is exactly the pipeline. */
  lemma {:induction false} WorkerDelivers(s: State, c: ClientId, cfg: Config) returns (n: nat)
    requires c in s.sessions && QueueInv(s.sessions[c]) && WireInv(s.sessions[c]) && s.sessions[c].client.bootstrapped
    ensures n <= |s.sessions[c].client.unsent| + 2 * |s.sessions[c].client.queue|
    ensures c in Work(s, c, cfg, n).sessions
    ensures var t := Work(s, c, cfg, n).sessions[c];
            t.client.unsent == [] && t.client.queue == [] && Decode(t.history.wire) == Pipeline(s.sessions[c])
  {
    n := WorksOff(s, c, cfg, Left(s.sessions[c].client));
  }

  /** End to end: a client that at most 4096 items were sent to since it registered has, once its worker
      is done, received exactly the snapshot and then all the traffic, in order. */
  lemma {:induction false} EverythingArrives(steps: seq<Step>, start: int, cfg: Config, uidOf: Bytes -> Uid, c: ClientId, j: nat, i: nat) returns (n: nat)
    requires WellFormed(steps, uidOf) && ReplayedAt(steps, start, cfg, c, j, i)
    requires |Traffic(steps[j + 1..])| <= 4096
    ensures c in Work(Run(steps, start, cfg), c, cfg, n).sessions
    ensures var t := Work(Run(steps, start, cfg), c, cfg, n).sessions[c];
            && t.client.unsent == [] && t.client.queue == []
            && Decode(t.history.wire)
               == Protos(Frames(Snapshot(AtReplay(steps, start, cfg, i).cache, steps[i].now, cfg))) + Traffic(steps[j + 1..])
  {
    RunKeepsInv(steps, start, cfg, uidOf);
    ReplayStays(steps, start, cfg, c, j, i);
    ExactDelivery(steps, start, cfg, uidOf, c, j, i);
    var s := Run(steps, start, cfg);
    assert SessionInv(s.log, s.sessions[c], uidOf);
    n := WorkerDelivers(s, c, cfg);
  }
}
