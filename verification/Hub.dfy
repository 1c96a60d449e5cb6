/** The live broadcast hub: one feed, one last-value cache, and one bounded drop-oldest queue
    per WebSocket client. */
module Hub {
  import opened Collections
  import opened Options
  import opened Framing
  import opened LiveCache
  import opened Worker

  // Every stretch of the event loop between two suspension points is one step of a transition
  // system; BroadcastManager is the object that performs the steps.

  type ClientId = nat

  const CLIENT_QUEUE_SIZE: nat := 4096

  /** A registered client. `unsent` are the sends its worker has computed and not yet completed;
      `bootstrapped` says that the worker has taken its cache snapshot. */
  datatype Client = Client(bootstrapped: bool, queue: seq<Item>, unsent: seq<Send>)

  /** What has happened to a client: the log length when it joined and when its snapshot was
      taken, the entities and frames of that snapshot, everything ever enqueued for it, the
      position of the queue's head in `enqueued`, the positions its worker took from the
      queue, and the sends completed. */
  datatype History = History(joinedAt: nat, snapshotAt: nat, cached: set<Uid>, snapshot: seq<Bytes>,
                             enqueued: seq<Item>, head: nat, taken: seq<nat>, wire: seq<Send>)

  datatype Session = Session(client: Client, history: History)

  datatype State = State(cache: Cache, log: seq<Event>, sessions: map<ClientId, Session>)

  datatype Step =
    | Join(c: ClientId)
    | Publish(e: Event)
    | Notify(payload: Bytes)
    | StartReplay(c: ClientId, now: int)
    | Complete(c: ClientId)
    | Drain(c: ClientId)
    | Leave(c: ClientId)

  // ---------------------------------------------------------------------------
  // The steps
  // ---------------------------------------------------------------------------

  const EMPTY_CLIENT := Client(false, [], [])

  function NewHistory(logLength: nat): History {
    History(logLength, logLength, {}, [], [], 0, [], [])
  }

  predicate Full(c: Client) {
    |c.queue| >= CLIENT_QUEUE_SIZE
  }

  /** Enqueue for one client, dropping the oldest item of a full queue. */
  function Enqueue(s: Session, it: Item): Session {
    Session(EnqueueClient(s.client, it), EnqueueHistory(s.client, s.history, it))
  }

  function EnqueueClient(c: Client, it: Item): Client {
    c.(queue := (if Full(c) then c.queue[1..] else c.queue) + [it])
  }

  function EnqueueHistory(c: Client, h: History, it: Item): History {
    h.(enqueued := h.enqueued + [it], head := if Full(c) then h.head + 1 else h.head)
  }

  function EnqueueAll(sessions: map<ClientId, Session>, it: Item): map<ClientId, Session> {
    map c | c in sessions :: Enqueue(sessions[c], it)
  }

  /** The worker's first act: coalesce a snapshot of the cache. */
  function TakeSnapshot(s: Session, entries: seq<Entry>, logLength: nat): Session {
    Session(s.client.(bootstrapped := true, unsent := Coalesced(Protos(Frames(entries)))),
            s.history.(snapshotAt := logLength, cached := Uids(entries), snapshot := Frames(entries)))
  }

  function CompleteSend(s: Session): Session
    requires s.client.unsent != []
  {
    Session(s.client.(unsent := s.client.unsent[1..]),
            s.history.(wire := s.history.wire + [s.client.unsent[0]]))
  }

  predicate CanDrain(s: Session) {
    s.client.bootstrapped && s.client.unsent == [] && s.client.queue != []
  }

  function DrainCount(s: Session): (n: nat)
    ensures n <= |s.client.queue|
  {
    if |s.client.queue| < MAX_BATCH_MSGS then |s.client.queue| else MAX_BATCH_MSGS
  }

  function Positions(head: nat, n: nat): (r: seq<nat>)
    ensures |r| == n && forall i | 0 <= i < n :: r[i] == head + i
  {
    seq(n, i requires 0 <= i => head + i)
  }

  /** Take up to a batch of items off the queue and coalesce them. */
  function DrainQueue(s: Session): Session {
    var n := DrainCount(s);
    Session(s.client.(queue := s.client.queue[n..], unsent := Coalesced(s.client.queue[..n])),
            s.history.(head := s.history.head + n, taken := s.history.taken + Positions(s.history.head, n)))
  }

  /** One step; a step that is not enabled changes nothing. */
  function Next(s: State, step: Step, cfg: Config): State {
    match step
    case Join(c) =>
      if c in s.sessions then s
      else s.(sessions := s.sessions[c := Session(EMPTY_CLIENT, NewHistory(|s.log|))])
    case Publish(e) =>
      State(Record(s.cache, e, cfg), s.log + [e], EnqueueAll(s.sessions, Proto(e.frame)))
    case Notify(payload) =>
      s.(sessions := EnqueueAll(s.sessions, Tagged("alert", payload)))
    case StartReplay(c, now) =>
      if c !in s.sessions || s.sessions[c].client.bootstrapped then s
      else s.(sessions := s.sessions[c := TakeSnapshot(s.sessions[c], Snapshot(s.cache, now, cfg), |s.log|)])
    case Complete(c) =>
      if c !in s.sessions || s.sessions[c].client.unsent == [] then s
      else s.(sessions := s.sessions[c := CompleteSend(s.sessions[c])])
    case Drain(c) =>
      if c !in s.sessions || !CanDrain(s.sessions[c]) then s
      else s.(sessions := s.sessions[c := DrainQueue(s.sessions[c])])
    case Leave(c) =>
      s.(sessions := map d | d in s.sessions && d != c :: s.sessions[d])
  }

  function Run(steps: seq<Step>, start: int, cfg: Config): State {
    if steps == [] then State(Cache([], start), [], map[])
    else Next(Run(steps[..|steps| - 1], start, cfg), steps[|steps| - 1], cfg)
  }

  /** What the feed decoder guarantees: every frame is a TAK message that names its own entity. */
  ghost predicate WellFormedEvent(e: Event, uidOf: Bytes -> Uid) {
    StartsWith(e.frame, TAK_MAGIC) && (e.uid != "" ==> uidOf(e.frame) == e.uid)
  }

  ghost predicate WellFormed(steps: seq<Step>, uidOf: Bytes -> Uid) {
    forall st <- steps :: st.Publish? ==> WellFormedEvent(st.e, uidOf)
  }

  // ---------------------------------------------------------------------------
  // Reading a stream of items as a map: the last frame of an entity
  // ---------------------------------------------------------------------------

  predicate Names(it: Item, u: Uid, uidOf: Bytes -> Uid) {
    it.Proto? && uidOf(it.frame) == u
  }

  /** The position of the last frame of `u`, or -1. */
  function LastPos(items: seq<Item>, u: Uid, uidOf: Bytes -> Uid): (p: int)
    ensures -1 <= p < |items|
    ensures p >= 0 ==> Names(items[p], u, uidOf)
    ensures forall i | p < i < |items| :: !Names(items[i], u, uidOf)
  {
    if items == [] then -1
    else if Names(items[|items| - 1], u, uidOf) then |items| - 1
    else LastPos(items[..|items| - 1], u, uidOf)
  }

  /** What a reader of the stream ends up showing for `u`. */
  function Shown(items: seq<Item>, u: Uid, uidOf: Bytes -> Uid): Option<Bytes> {
    var p := LastPos(items, u, uidOf);
    if p < 0 then None else Some(items[p].frame)
  }

  lemma {:induction false} ShownAppend(a: seq<Item>, b: seq<Item>, u: Uid, uidOf: Bytes -> Uid)
    ensures Shown(a + b, u, uidOf) == if Shown(b, u, uidOf).Some? then Shown(b, u, uidOf) else Shown(a, u, uidOf)
  {
    var p, q := LastPos(a, u, uidOf), LastPos(b, u, uidOf);
    var ab := a + b;
    if q >= 0 {
      assert ab[|a| + q] == b[q];
      forall i | |a| + q < i < |ab| ensures !Names(ab[i], u, uidOf) {
        assert ab[i] == b[i - |a|];
      }
    } else {
      forall i | p < i < |ab| ensures !Names(ab[i], u, uidOf) {
        assert ab[i] == if i < |a| then a[i] else b[i - |a|];
      }
      if p >= 0 {
        assert ab[p] == a[p];
      }
    }
  }

  // ---------------------------------------------------------------------------
  // The invariant
  // ---------------------------------------------------------------------------

  function Feed(log: seq<Event>): seq<Bytes> {
    if log == [] then [] else Feed(log[..|log| - 1]) + [log[|log| - 1].frame]
  }

  function LiveFrames(items: seq<Item>): seq<Bytes> {
    if items == [] then []
    else
      var it := items[|items| - 1];
      LiveFrames(items[..|items| - 1]) + if it.Proto? then [it.frame] else []
  }

  ghost predicate Below(ps: seq<nat>, bound: nat) {
    forall i | 0 <= i < |ps| :: ps[i] < bound
  }

  function Pick(items: seq<Item>, ps: seq<nat>): (r: seq<Item>)
    requires Below(ps, |items|)
    ensures |r| == |ps| && forall i | 0 <= i < |ps| :: r[i] == items[ps[i]]
  {
    seq(|ps|, i requires 0 <= i < |ps| => items[ps[i]])
  }

  /** Items the wire can carry faithfully. */
  ghost predicate WireSafe(items: seq<Item>) {
    TakFramed(items) && forall it <- items :: it.Tagged? ==> it.kind == "alert"
  }

  /** Everything the client has been sent or is being sent. */
  function OnTheWire(s: Session): seq<Item> {
    Decode(s.history.wire) + Decode(s.client.unsent)
  }

  /** What the client has received, then what is in flight, then what is queued. */
  function Pipeline(s: Session): seq<Item> {
    OnTheWire(s) + s.client.queue
  }

  ghost predicate QueueInv(s: Session) {
    var h := s.history;
    && h.head <= |h.enqueued|
    && s.client.queue == h.enqueued[h.head..]
    && |s.client.queue| <= CLIENT_QUEUE_SIZE
    && Increasing(h.taken) && Below(h.taken, h.head)
  }

  ghost predicate WireInv(s: Session)
    requires QueueInv(s)
  {
    var h := s.history;
    && WireSafe(h.enqueued)
    && TakFramed(Protos(h.snapshot))
    && OnTheWire(s) == Protos(h.snapshot) + Pick(h.enqueued, h.taken)
    && (!s.client.bootstrapped ==> s.client.unsent == [] && h.wire == [] && h.snapshot == [] && h.taken == [] && h.cached == {})
  }

  ghost predicate FeedInv(log: seq<Event>, h: History, uidOf: Bytes -> Uid) {
    && h.joinedAt <= h.snapshotAt <= |log|
    && LiveFrames(h.enqueued) == Feed(log[h.joinedAt..])
    && (forall u <- h.cached :: SnapshotShows(log, h, u, uidOf))
    && OnlyShows(h.snapshot, h.cached, uidOf)
  }

  /** The frames name no entity outside `us`. */
  ghost predicate OnlyShows(frames: seq<Bytes>, us: set<Uid>, uidOf: Bytes -> Uid) {
    forall f <- frames :: uidOf(f) in us
  }

  ghost predicate SnapshotShows(log: seq<Event>, h: History, u: Uid, uidOf: Bytes -> Uid)
    requires h.snapshotAt <= |log|
  {
    var l := Latest(log[..h.snapshotAt], u);
    u != "" && l.Some? && Shown(Protos(h.snapshot), u, uidOf) == Some(l.value.frame)
  }

  ghost predicate SessionInv(log: seq<Event>, s: Session, uidOf: Bytes -> Uid) {
    QueueInv(s) && WireInv(s) && FeedInv(log, s.history, uidOf)
  }

  ghost predicate CacheInv(cache: Cache, log: seq<Event>, uidOf: Bytes -> Uid) {
    && Distinct(cache.entries)
    && (forall e <- cache.entries :: IsLatest(log, e))
    && (forall e <- log :: WellFormedEvent(e, uidOf))
  }

  ghost predicate Inv(s: State, uidOf: Bytes -> Uid) {
    && CacheInv(s.cache, s.log, uidOf)
    && forall c <- s.sessions :: SessionInv(s.log, s.sessions[c], uidOf)
  }

  // ---------------------------------------------------------------------------
  // Every step keeps the invariant
  // ---------------------------------------------------------------------------

  lemma {:induction false} EnqueueKeepsQueue(s: Session, it: Item)
    requires QueueInv(s)
    ensures QueueInv(Enqueue(s, it))
    ensures Pick(Enqueue(s, it).history.enqueued, s.history.taken) == Pick(s.history.enqueued, s.history.taken)
  {
    var h, t := s.history, Enqueue(s, it);
    if |s.client.queue| >= CLIENT_QUEUE_SIZE {
      assert h.enqueued[h.head..][1..] == h.enqueued[h.head + 1..];
    }
    assert t.client.queue == t.history.enqueued[t.history.head..];
  }

  lemma {:induction false} EnqueueKeepsWire(s: Session, it: Item)
    requires QueueInv(s) && WireInv(s) && WireSafe([it])
    ensures QueueInv(Enqueue(s, it)) && WireInv(Enqueue(s, it))
  {
    EnqueueKeepsQueue(s, it);
    assert it in [it];
    assert OnTheWire(Enqueue(s, it)) == OnTheWire(s);
  }

  lemma {:induction false} PrefixOfExtension(log: seq<Event>, e: Event, k: nat)
    requires k <= |log|
    ensures (log + [e])[..k] == log[..k]
  {
  }

  lemma {:induction false} PublishKeepsFeed(log: seq<Event>, s: Session, e: Event, uidOf: Bytes -> Uid)
    requires FeedInv(log, s.history, uidOf)
    ensures FeedInv(log + [e], Enqueue(s, Proto(e.frame)).history, uidOf)
  {
    var h := s.history;
    var h' := Enqueue(s, Proto(e.frame)).history;
    var part := (log + [e])[h.joinedAt..];
    assert part[..|part| - 1] == log[h.joinedAt..] && part[|part| - 1] == e;
    assert h'.enqueued[..|h.enqueued|] == h.enqueued;
    forall u | u in h'.cached ensures SnapshotShows(log + [e], h', u, uidOf) {
      PrefixOfExtension(log, e, h.snapshotAt);
      assert SnapshotShows(log, h, u, uidOf);
    }
  }

  lemma {:induction false} NotifyKeepsFeed(log: seq<Event>, s: Session, payload: Bytes, uidOf: Bytes -> Uid)
    requires FeedInv(log, s.history, uidOf)
    ensures FeedInv(log, Enqueue(s, Tagged("alert", payload)).history, uidOf)
  {
    var h := s.history;
    var h' := Enqueue(s, Tagged("alert", payload)).history;
    assert h'.enqueued[..|h.enqueued|] == h.enqueued;
    forall u | u in h'.cached ensures SnapshotShows(log, h', u, uidOf) {
      assert SnapshotShows(log, h, u, uidOf);
    }
  }

  lemma {:induction false} AllVisible(items: seq<Item>)
    requires forall it <- items :: it.Tagged? ==> it.kind == "alert"
    ensures Visible(items) == items
  {
    if items != [] {
      AllVisible(items[1..]);
    }
  }

  lemma {:induction false} WireSafeRoundTrip(items: seq<Item>)
    requires WireSafe(items)
    ensures Decode(Coalesced(items)) == items
  {
    AllVisible(items);
    RoundTrip(items);
  }

  lemma {:induction false} SnapshotIsSafe(cache: Cache, log: seq<Event>, es: seq<Entry>, uidOf: Bytes -> Uid)
    requires CacheInv(cache, log, uidOf) && forall e <- es :: e in cache.entries
    ensures WireSafe(Protos(Frames(es)))
    ensures forall i | 0 <= i < |es| :: uidOf(es[i].frame) == es[i].uid
  {
    forall i | 0 <= i < |es| ensures StartsWith(es[i].frame, TAK_MAGIC) && uidOf(es[i].frame) == es[i].uid {
      assert es[i] in cache.entries;
      LatestIsEvent(log, es[i].uid);
    }
    forall it | it in Protos(Frames(es)) ensures it.Proto? && StartsWith(it.frame, TAK_MAGIC) {
      var i :| 0 <= i < |es| && Protos(Frames(es))[i] == it;
    }
  }

  /** A list of entries with distinct uids shows each entry's own frame. */
  lemma {:induction false} EntriesShow(es: seq<Entry>, i: nat, uidOf: Bytes -> Uid)
    requires i < |es| && Distinct(es)
    requires forall j | 0 <= j < |es| :: uidOf(es[j].frame) == es[j].uid
    ensures Shown(Protos(Frames(es)), es[i].uid, uidOf) == Some(es[i].frame)
  {
    var items := Protos(Frames(es));
    assert items[i] == Proto(es[i].frame);
    forall j | i < j < |items| ensures !Names(items[j], es[i].uid, uidOf) {
      assert items[j] == Proto(es[j].frame);
    }
  }

  /** The entries end on the last frame recorded for `u`. */
  ghost predicate ShowsLatest(es: seq<Entry>, log: seq<Event>, u: Uid, uidOf: Bytes -> Uid) {
    u != "" && Latest(log, u).Some? && Shown(Protos(Frames(es)), u, uidOf) == Some(Latest(log, u).value.frame)
  }

  lemma {:induction false} EntriesShowLatest(cache: Cache, log: seq<Event>, es: seq<Entry>, u: Uid, uidOf: Bytes -> Uid)
    requires CacheInv(cache, log, uidOf) && Distinct(es) && u in Uids(es)
    requires forall e <- es :: e in cache.entries
    requires forall i | 0 <= i < |es| :: uidOf(es[i].frame) == es[i].uid
    ensures ShowsLatest(es, log, u, uidOf)
  {
    var i :| 0 <= i < |es| && es[i].uid == u;
    assert es[i] in cache.entries;
    assert IsLatest(log, es[i]);
    EntriesShow(es, i, uidOf);
  }

  /** A fresh snapshot shows, for each of its entities, the last frame recorded so far. */
  lemma {:induction false} SnapshotShowsLatest(cache: Cache, log: seq<Event>, now: int, cfg: Config, uidOf: Bytes -> Uid)
    requires CacheInv(cache, log, uidOf)
    ensures WireSafe(Protos(Frames(Snapshot(cache, now, cfg))))
    ensures forall u <- Uids(Snapshot(cache, now, cfg)) :: ShowsLatest(Snapshot(cache, now, cfg), log, u, uidOf)
    ensures OnlyShows(Frames(Snapshot(cache, now, cfg)), Uids(Snapshot(cache, now, cfg)), uidOf)
  {
    var es := Snapshot(cache, now, cfg);
    FreshFacts(cache.entries, now - cfg.ttl);
    SnapshotIsSafe(cache, log, es, uidOf);
    forall u <- Uids(es) ensures ShowsLatest(es, log, u, uidOf) {
      EntriesShowLatest(cache, log, es, u, uidOf);
    }
  }

  lemma {:induction false} ReplayKeepsWire(s: Session, es: seq<Entry>, logLength: nat)
    requires QueueInv(s) && WireInv(s) && !s.client.bootstrapped
    requires WireSafe(Protos(Frames(es)))
    ensures QueueInv(TakeSnapshot(s, es, logLength)) && WireInv(TakeSnapshot(s, es, logLength))
  {
    var t := TakeSnapshot(s, es, logLength);
    WireSafeRoundTrip(Protos(Frames(es)));
    assert Pick(t.history.enqueued, t.history.taken) == [];
    assert Decode(t.history.wire) == [];
  }

  lemma {:induction false} ReplayKeepsFeed(log: seq<Event>, s: Session, es: seq<Entry>, uidOf: Bytes -> Uid)
    requires FeedInv(log, s.history, uidOf) && forall u <- Uids(es) :: ShowsLatest(es, log, u, uidOf)
    requires OnlyShows(Frames(es), Uids(es), uidOf)
    ensures FeedInv(log, TakeSnapshot(s, es, |log|).history, uidOf)
  {
    var h := TakeSnapshot(s, es, |log|).history;
    assert log[..|log|] == log;
    forall u <- h.cached ensures SnapshotShows(log, h, u, uidOf) {
      assert ShowsLatest(es, log, u, uidOf);
    }
  }

  lemma {:induction false} ReplayKeepsInv(cache: Cache, log: seq<Event>, s: Session, now: int, cfg: Config, uidOf: Bytes -> Uid)
    requires CacheInv(cache, log, uidOf) && SessionInv(log, s, uidOf) && !s.client.bootstrapped
    ensures SessionInv(log, TakeSnapshot(s, Snapshot(cache, now, cfg), |log|), uidOf)
  {
    SnapshotShowsLatest(cache, log, now, cfg, uidOf);
    ReplayKeepsWire(s, Snapshot(cache, now, cfg), |log|);
    ReplayKeepsFeed(log, s, Snapshot(cache, now, cfg), uidOf);
  }

  lemma {:induction false} CompleteKeepsWire(s: Session)
    requires s.client.unsent != []
    ensures OnTheWire(CompleteSend(s)) == OnTheWire(s)
  {
    DecodeShift(s.history.wire, s.client.unsent);
  }

  lemma {:induction false} CompleteKeepsInv(log: seq<Event>, s: Session, uidOf: Bytes -> Uid)
    requires SessionInv(log, s, uidOf) && s.client.unsent != []
    ensures SessionInv(log, CompleteSend(s), uidOf)
  {
    CompleteKeepsWire(s);
  }

  lemma {:induction false} DrainKeepsQueue(s: Session)
    requires QueueInv(s)
    ensures QueueInv(DrainQueue(s))
    ensures var n := DrainCount(s);
            Pick(s.history.enqueued, DrainQueue(s).history.taken)
            == Pick(s.history.enqueued, s.history.taken) + s.client.queue[..n]
  {
    var h, n, t := s.history, DrainCount(s), DrainQueue(s);
    assert h.enqueued[h.head..][n..] == h.enqueued[h.head + n..];
    assert Below(t.history.taken, h.head + n);
    forall i | |h.taken| <= i < |t.history.taken|
      ensures h.enqueued[t.history.taken[i]] == s.client.queue[..n][i - |h.taken|]
    {
      assert t.history.taken[i] == h.head + (i - |h.taken|);
    }
  }

  lemma {:induction false} DrainOnTheWire(s: Session)
    requires QueueInv(s) && WireSafe(s.history.enqueued) && s.client.unsent == []
    ensures OnTheWire(DrainQueue(s)) == OnTheWire(s) + s.client.queue[..DrainCount(s)]
  {
    var items := s.client.queue[..DrainCount(s)];
    assert forall it <- items :: it in s.history.enqueued;
    WireSafeRoundTrip(items);
    assert OnTheWire(s) == Decode(s.history.wire);
  }

  lemma {:induction false} DrainKeepsWire(s: Session)
    requires QueueInv(s) && WireInv(s) && CanDrain(s)
    ensures QueueInv(DrainQueue(s)) && WireInv(DrainQueue(s))
  {
    var h := s.history;
    DrainKeepsQueue(s);
    DrainOnTheWire(s);
    Assoc(Protos(h.snapshot), Pick(h.enqueued, h.taken), s.client.queue[..DrainCount(s)]);
  }

  lemma {:induction false} DrainKeepsInv(log: seq<Event>, s: Session, uidOf: Bytes -> Uid)
    requires SessionInv(log, s, uidOf) && CanDrain(s)
    ensures SessionInv(log, DrainQueue(s), uidOf)
  {
    DrainKeepsWire(s);
  }

  lemma {:induction false} PublishKeepsSession(log: seq<Event>, s: Session, e: Event, uidOf: Bytes -> Uid)
    requires SessionInv(log, s, uidOf) && StartsWith(e.frame, TAK_MAGIC)
    ensures SessionInv(log + [e], Enqueue(s, Proto(e.frame)), uidOf)
  {
    EnqueueKeepsWire(s, Proto(e.frame));
    PublishKeepsFeed(log, s, e, uidOf);
  }

  lemma {:induction false} PublishKeepsInv(s: State, e: Event, cfg: Config, uidOf: Bytes -> Uid)
    requires Inv(s, uidOf) && WellFormedEvent(e, uidOf)
    ensures Inv(Next(s, Publish(e), cfg), uidOf)
  {
    var t := Next(s, Publish(e), cfg);
    RecordKeepsLatest(s.cache, s.log, e, cfg);
    forall c | c in t.sessions ensures SessionInv(t.log, t.sessions[c], uidOf) {
      PublishKeepsSession(s.log, s.sessions[c], e, uidOf);
    }
  }

  lemma {:induction false} NotifyKeepsSession(log: seq<Event>, s: Session, payload: Bytes, uidOf: Bytes -> Uid)
    requires SessionInv(log, s, uidOf)
    ensures SessionInv(log, Enqueue(s, Tagged("alert", payload)), uidOf)
  {
    EnqueueKeepsWire(s, Tagged("alert", payload));
    NotifyKeepsFeed(log, s, payload, uidOf);
  }

  lemma {:induction false} NotifyKeepsInv(s: State, payload: Bytes, cfg: Config, uidOf: Bytes -> Uid)
    requires Inv(s, uidOf)
    ensures Inv(Next(s, Notify(payload), cfg), uidOf)
  {
    var t := Next(s, Notify(payload), cfg);
    forall c | c in t.sessions ensures SessionInv(t.log, t.sessions[c], uidOf) {
      NotifyKeepsSession(s.log, s.sessions[c], payload, uidOf);
    }
  }

  lemma {:induction false} UpdateKeepsInv(s: State, c: ClientId, t: Session, uidOf: Bytes -> Uid)
    requires Inv(s, uidOf) && SessionInv(s.log, t, uidOf)
    ensures Inv(s.(sessions := s.sessions[c := t]), uidOf)
  {
  }

  lemma {:induction false} StartReplayKeepsInv(s: State, c: ClientId, now: int, cfg: Config, uidOf: Bytes -> Uid)
    requires Inv(s, uidOf)
    ensures Inv(Next(s, StartReplay(c, now), cfg), uidOf)
  {
    if c in s.sessions && !s.sessions[c].client.bootstrapped {
      ReplayKeepsInv(s.cache, s.log, s.sessions[c], now, cfg, uidOf);
      UpdateKeepsInv(s, c, TakeSnapshot(s.sessions[c], Snapshot(s.cache, now, cfg), |s.log|), uidOf);
    }
  }

  lemma {:induction false} CompleteStepKeepsInv(s: State, c: ClientId, cfg: Config, uidOf: Bytes -> Uid)
    requires Inv(s, uidOf)
    ensures Inv(Next(s, Complete(c), cfg), uidOf)
  {
    if c in s.sessions && s.sessions[c].client.unsent != [] {
      CompleteKeepsInv(s.log, s.sessions[c], uidOf);
      UpdateKeepsInv(s, c, CompleteSend(s.sessions[c]), uidOf);
    }
  }

  lemma {:induction false} DrainStepKeepsInv(s: State, c: ClientId, cfg: Config, uidOf: Bytes -> Uid)
    requires Inv(s, uidOf)
    ensures Inv(Next(s, Drain(c), cfg), uidOf)
  {
    if c in s.sessions && CanDrain(s.sessions[c]) {
      DrainKeepsInv(s.log, s.sessions[c], uidOf);
      UpdateKeepsInv(s, c, DrainQueue(s.sessions[c]), uidOf);
    }
  }

  lemma {:induction false} NextKeepsInv(s: State, step: Step, cfg: Config, uidOf: Bytes -> Uid)
    requires Inv(s, uidOf)
    requires step.Publish? ==> WellFormedEvent(step.e, uidOf)
    ensures Inv(Next(s, step, cfg), uidOf)
  {
    match step
    case Join(c) =>
      UpdateKeepsInv(s, c, Session(EMPTY_CLIENT, NewHistory(|s.log|)), uidOf);
    case Publish(e) => PublishKeepsInv(s, e, cfg, uidOf);
    case Notify(payload) => NotifyKeepsInv(s, payload, cfg, uidOf);
    case Leave(c) =>
    case StartReplay(c, now) => StartReplayKeepsInv(s, c, now, cfg, uidOf);
    case Complete(c) => CompleteStepKeepsInv(s, c, cfg, uidOf);
    case Drain(c) => DrainStepKeepsInv(s, c, cfg, uidOf);
  }

  lemma {:induction false} RunKeepsInv(steps: seq<Step>, start: int, cfg: Config, uidOf: Bytes -> Uid)
    requires WellFormed(steps, uidOf)
    ensures Inv(Run(steps, start, cfg), uidOf)
  {
    if steps != [] {
      var init, last := steps[..|steps| - 1], steps[|steps| - 1];
      assert steps == init + [last];
      RunKeepsInv(init, start, cfg, uidOf);
      NextKeepsInv(Run(init, start, cfg), last, cfg, uidOf);
    }
  }

  // ---------------------------------------------------------------------------
  // Drop-oldest queues
  // ---------------------------------------------------------------------------

  ghost function Skipped(head: nat, taken: seq<nat>): set<nat> {
    set p: nat | p < head && p !in taken
  }

  /** Positions pushed out of the queue before the worker took them. */
  ghost function Dropped(h: History): set<nat> {
    Skipped(h.head, h.taken)
  }

  lemma {:induction false} SkippedLastTaken(head: nat, taken: seq<nat>)
    requires head > 0 && Increasing(taken) && Below(taken, head) && head - 1 in taken
    ensures var init := taken[..|taken| - 1];
            Increasing(init) && Below(init, head - 1) && Skipped(head, taken) == Skipped(head - 1, init)
  {
    var k :| 0 <= k < |taken| && taken[k] == head - 1;
    assert taken[k] <= taken[|taken| - 1] < head;
    var init := taken[..|taken| - 1];
    assert taken == init + [head - 1];
    assert forall i | 0 <= i < |init| :: init[i] == taken[i];
  }

  lemma {:induction false} SkippedLastDropped(head: nat, taken: seq<nat>)
    requires head > 0 && Below(taken, head) && head - 1 !in taken
    ensures Below(taken, head - 1)
    ensures Skipped(head, taken) == Skipped(head - 1, taken) + {head - 1}
    ensures head - 1 !in Skipped(head - 1, taken)
  {
    forall i | 0 <= i < |taken| ensures taken[i] < head - 1 {
      assert taken[i] in taken;
    }
  }

  lemma {:induction false} LengthWithin(head: nat, taken: seq<nat>)
    requires Increasing(taken) && Below(taken, head)
    ensures |taken| <= head
    decreases |taken|
  {
    if taken != [] {
      var last := |taken| - 1;
      LengthWithin(taken[last], taken[..last]);
    }
  }

  lemma {:induction false} DropCount(head: nat, taken: seq<nat>)
    requires Increasing(taken) && Below(taken, head)
    ensures |Skipped(head, taken)| == head - |taken|
    decreases head
  {
    if head == 0 {
      LengthWithin(head, taken);
      assert Skipped(head, taken) == {};
    } else if head - 1 in taken {
      SkippedLastTaken(head, taken);
      DropCount(head - 1, taken[..|taken| - 1]);
    } else {
      SkippedLastDropped(head, taken);
      DropCount(head - 1, taken);
    }
  }

  /** In every interleaving: the queue is a contiguous suffix of everything enqueued, what went
      out is the snapshot followed by an order-preserving selection, and nothing is lost track of. */
  lemma {:induction false} QueueDiscipline(steps: seq<Step>, start: int, cfg: Config, uidOf: Bytes -> Uid, c: ClientId)
    requires WellFormed(steps, uidOf) && c in Run(steps, start, cfg).sessions
    ensures var s := Run(steps, start, cfg).sessions[c];
            var h := s.history;
            && |s.client.queue| <= CLIENT_QUEUE_SIZE
            && h.head <= |h.enqueued| && s.client.queue == h.enqueued[h.head..]
            && Increasing(h.taken) && Below(h.taken, h.head)
            && OnTheWire(s) == Protos(h.snapshot) + Pick(h.enqueued, h.taken)
            && |h.snapshot| + |h.enqueued|
               == |Decode(h.wire)| + |Decode(s.client.unsent)| + |s.client.queue| + |Dropped(h)|
  {
    RunKeepsInv(steps, start, cfg, uidOf);
    var s := Run(steps, start, cfg).sessions[c];
    assert SessionInv(Run(steps, start, cfg).log, s, uidOf);
    DropCount(s.history.head, s.history.taken);
  }

  /** How far the queue's head is ahead of what the worker took. */
  function Lost(h: History): int {
    h.head - |h.taken|
  }

  lemma {:induction false} StepKeepsQueue(s: State, step: Step, cfg: Config, c: ClientId)
    requires c in s.sessions && c in Next(s, step, cfg).sessions && QueueInv(s.sessions[c])
    ensures QueueInv(Next(s, step, cfg).sessions[c])
  {
    match step
    case Publish(e) => EnqueueKeepsQueue(s.sessions[c], Proto(e.frame));
    case Notify(payload) => EnqueueKeepsQueue(s.sessions[c], Tagged("alert", payload));
    case Drain(d) =>
      if d == c {
        DrainKeepsQueue(s.sessions[c]);
      }
    case _ =>
  }

  /** A step drops at most one item per client, and only from a queue of exactly 4096 items
      into which something is being enqueued. */
  lemma {:induction false} DropsOnlyWhenFull(s: State, step: Step, cfg: Config, c: ClientId)
    requires c in s.sessions && c in Next(s, step, cfg).sessions && QueueInv(s.sessions[c])
    ensures |Dropped(Next(s, step, cfg).sessions[c].history)| ==
            |Dropped(s.sessions[c].history)| +
            if (step.Publish? || step.Notify?) && |s.sessions[c].client.queue| == 4096 then 1 else 0
  {
    var before, after := s.sessions[c].history, Next(s, step, cfg).sessions[c].history;
    StepKeepsQueue(s, step, cfg, c);
    DropCount(before.head, before.taken);
    DropCount(after.head, after.taken);
  }

  // ---------------------------------------------------------------------------
  // Late-joiner consistency
  // ---------------------------------------------------------------------------

  /** No event without a uid carries a frame that names `u`. */
  ghost predicate Unambiguous(log: seq<Event>, u: Uid, uidOf: Bytes -> Uid) {
    u != "" && forall e <- log :: e.uid == "" ==> uidOf(e.frame) != u
  }

  /** The last frame published for `u`, recorded or not. */
  function LastNamed(log: seq<Event>, u: Uid, uidOf: Bytes -> Uid): Option<Bytes> {
    if log == [] then None
    else if uidOf(log[|log| - 1].frame) == u then Some(log[|log| - 1].frame)
    else LastNamed(log[..|log| - 1], u, uidOf)
  }

  function FrameOf(e: Option<Entry>): Option<Bytes> {
    if e.Some? then Some(e.value.frame) else None
  }

  /** Without blank-uid frames in its name, an entity's last published frame is its last recorded one. */
  lemma {:induction false} NamedIsRecorded(log: seq<Event>, u: Uid, uidOf: Bytes -> Uid)
    requires forall e <- log :: WellFormedEvent(e, uidOf)
    ensures u != "" && Latest(log, u).Some? ==> LastNamed(log, u, uidOf).Some?
    ensures Unambiguous(log, u, uidOf) ==> LastNamed(log, u, uidOf) == FrameOf(Latest(log, u))
  {
    if log != [] {
      var init, e := log[..|log| - 1], log[|log| - 1];
      assert log == init + [e];
      assert e in log && WellFormedEvent(e, uidOf);
      NamedIsRecorded(init, u, uidOf);
    }
  }

  lemma {:induction false} FeedShowsNamed(items: seq<Item>, log: seq<Event>, u: Uid, uidOf: Bytes -> Uid)
    requires LiveFrames(items) == Feed(log)
    ensures Shown(items, u, uidOf) == LastNamed(log, u, uidOf)
    decreases |items|
  {
    if items != [] {
      var init, it := items[..|items| - 1], items[|items| - 1];
      assert items == init + [it];
      ShownAppend(init, [it], u, uidOf);
      assert LastPos([it], u, uidOf) == if Names(it, u, uidOf) then 0 else -1;
      if it.Proto? {
        assert |Feed(log)| > 0;
        var before, e := log[..|log| - 1], log[|log| - 1];
        assert LiveFrames(init) + [it.frame] == Feed(before) + [e.frame];
        assert (LiveFrames(init) + [it.frame])[..|LiveFrames(init)|] == LiveFrames(init);
        FeedLength(log);
        assert it.frame == e.frame && LiveFrames(init) == Feed(before);
        FeedShowsNamed(init, before, u, uidOf);
      } else {
        FeedShowsNamed(init, log, u, uidOf);
      }
    } else {
      FeedLength(log);
    }
  }

  lemma {:induction false} FeedLength(log: seq<Event>)
    ensures |Feed(log)| == |log|
  {
    if log != [] {
      FeedLength(log[..|log| - 1]);
    }
  }

  lemma {:induction false} LatestSplit(log: seq<Event>, k: nat, u: Uid)
    requires k <= |log|
    ensures Latest(log, u) == if Latest(log[k..], u).Some? then Latest(log[k..], u) else Latest(log[..k], u)
    decreases |log|
  {
    if k == |log| {
      assert log[..k] == log && log[k..] == [];
    } else {
      var init := log[..|log| - 1];
      LatestSplit(init, k, u);
      assert init[..k] == log[..k];
      assert init[k..] == log[k..][..|log[k..]| - 1];
    }
  }

  /** The queue shows `u`'s last enqueued frame exactly when it has not left the queue. */
  lemma {:induction false} QueueShows(s: Session, u: Uid, uidOf: Bytes -> Uid)
    requires QueueInv(s)
    ensures Shown(s.client.queue, u, uidOf) ==
            if LastPos(s.history.enqueued, u, uidOf) >= s.history.head then Shown(s.history.enqueued, u, uidOf) else None
  {
    var q, h := s.client.queue, s.history;
    var p := LastPos(h.enqueued, u, uidOf);
    forall i | 0 <= i < |q| && h.head + i > p ensures !Names(q[i], u, uidOf) {
      assert q[i] == h.enqueued[h.head + i];
    }
    if p >= h.head {
      assert q[p - h.head] == h.enqueued[p];
    }
  }

  lemma {:induction false} TakenShows(s: Session, u: Uid, uidOf: Bytes -> Uid)
    requires QueueInv(s)
    requires var p := LastPos(s.history.enqueued, u, uidOf); p < 0 || p in s.history.taken
    ensures Shown(Pick(s.history.enqueued, s.history.taken), u, uidOf) == Shown(s.history.enqueued, u, uidOf)
  {
    var h := s.history;
    var p := LastPos(h.enqueued, u, uidOf);
    var picked := Pick(h.enqueued, h.taken);
    if p >= 0 {
      var k :| 0 <= k < |h.taken| && h.taken[k] == p;
      forall i | k < i < |picked| ensures !Names(picked[i], u, uidOf) {
        assert picked[i] == h.enqueued[h.taken[i]] && h.taken[i] > p;
      }
    } else {
      forall i | 0 <= i < |picked| ensures !Names(picked[i], u, uidOf) {
        assert picked[i] == h.enqueued[h.taken[i]];
      }
    }
  }

  /** The last frame enqueued for `u`, if any, was not dropped. */
  ghost predicate LastFrameKept(h: History, u: Uid, uidOf: Bytes -> Uid) {
    var p := LastPos(h.enqueued, u, uidOf);
    p < 0 || p !in Dropped(h)
  }

  /** With the snapshot in front, the pipeline shows the last enqueued frame of `u` unless it was
      dropped; when nothing of `u` was enqueued, it shows the snapshot's frame. */
  lemma {:induction false} PipelineShows(s: Session, u: Uid, uidOf: Bytes -> Uid)
    requires QueueInv(s) && WireInv(s)
    requires LastFrameKept(s.history, u, uidOf)
    ensures Shown(Pipeline(s), u, uidOf) ==
            if Shown(s.history.enqueued, u, uidOf).Some? then Shown(s.history.enqueued, u, uidOf)
            else Shown(Protos(s.history.snapshot), u, uidOf)
  {
    var h := s.history;
    var picked := Pick(h.enqueued, h.taken);
    ShownAppend(Protos(h.snapshot), picked, u, uidOf);
    ShownAppend(OnTheWire(s), s.client.queue, u, uidOf);
    QueueShows(s, u, uidOf);
    if LastPos(h.enqueued, u, uidOf) < h.head {
      TakenShows(s, u, uidOf);
    }
  }

  /** An entity not recorded since the client joined is still what the snapshot showed. */
  lemma {:induction false} SnapshotStillLatest(log: seq<Event>, h: History, u: Uid, uidOf: Bytes -> Uid)
    requires h.joinedAt <= h.snapshotAt <= |log| && SnapshotShows(log, h, u, uidOf)
    requires Latest(log[h.joinedAt..], u).None?
    ensures Latest(log, u).Some?
    ensures Shown(Protos(h.snapshot), u, uidOf) == Some(Latest(log, u).value.frame)
  {
    var early := log[..h.snapshotAt];
    var gap := early[h.joinedAt..];
    LatestSplit(log, h.joinedAt, u);
    LatestSplit(early, h.joinedAt, u);
    assert early[..h.joinedAt] == log[..h.joinedAt];
    LatestIsEvent(log[h.joinedAt..], u);
    LatestIsEvent(gap, u);
    assert gap == log[h.joinedAt..][..|gap|];
  }

  /** The events published since the client joined. */
  function Since(log: seq<Event>, h: History): seq<Event> {
    if h.joinedAt <= |log| then log[h.joinedAt..] else []
  }

  /** Whether `u` was recorded after the client registered. */
  ghost predicate RecordedSince(log: seq<Event>, h: History, u: Uid) {
    exists e :: e in Since(log, h) && e.uid == u
  }

  /** What a client should show for `u`: the last frame published for it since the client joined, or
      else the last one ever recorded if its snapshot contained it, or else nothing. */
  function Expected(log: seq<Event>, h: History, u: Uid, uidOf: Bytes -> Uid): Option<Bytes> {
    if LastNamed(Since(log, h), u, uidOf).Some? then LastNamed(Since(log, h), u, uidOf)
    else if u in h.cached then FrameOf(Latest(log, u))
    else None
  }

  lemma {:induction false} SnapshotShowsOnly(h: History, u: Uid, uidOf: Bytes -> Uid)
    requires OnlyShows(h.snapshot, h.cached, uidOf) && u !in h.cached
    ensures Shown(Protos(h.snapshot), u, uidOf) == None
  {
    forall i | 0 <= i < |h.snapshot| ensures !Names(Protos(h.snapshot)[i], u, uidOf) {
      assert h.snapshot[i] in h.snapshot;
    }
  }

  /** What the snapshot shows is right for an entity that nothing was published for since. */
  lemma {:induction false} SnapshotExpected(log: seq<Event>, h: History, u: Uid, uidOf: Bytes -> Uid)
    requires FeedInv(log, h, uidOf) && LastNamed(Since(log, h), u, uidOf).None?
    requires forall e <- log :: WellFormedEvent(e, uidOf)
    ensures Shown(Protos(h.snapshot), u, uidOf) == Expected(log, h, u, uidOf)
  {
    if u in h.cached {
      var since := Since(log, h);
      assert SnapshotShows(log, h, u, uidOf);
      assert forall e <- since :: e in log;
      NamedIsRecorded(since, u, uidOf);
      SnapshotStillLatest(log, h, u, uidOf);
    } else {
      SnapshotShowsOnly(h, u, uidOf);
    }
  }

  /** In every interleaving, for every client and every entity: as long as the entity's last queued
      frame was not dropped, the client's pipeline ends on exactly the frame it should show. */
  lemma {:induction false} LateJoinerConsistency(steps: seq<Step>, start: int, cfg: Config, uidOf: Bytes -> Uid, c: ClientId, u: Uid)
    requires WellFormed(steps, uidOf)
    requires c in Run(steps, start, cfg).sessions
    requires LastFrameKept(Run(steps, start, cfg).sessions[c].history, u, uidOf)
    ensures var s := Run(steps, start, cfg);
            Shown(Pipeline(s.sessions[c]), u, uidOf) == Expected(s.log, s.sessions[c].history, u, uidOf)
  {
    RunKeepsInv(steps, start, cfg, uidOf);
    var s := Run(steps, start, cfg);
    var se := s.sessions[c];
    assert SessionInv(s.log, se, uidOf);
    PipelineShows(se, u, uidOf);
    FeedShowsNamed(se.history.enqueued, Since(s.log, se.history), u, uidOf);
    if LastNamed(Since(s.log, se.history), u, uidOf).None? {
      SnapshotExpected(s.log, se.history, u, uidOf);
    }
  }

  /** When no frame without a uid bears its name, what a client should show for an entity recorded
      since it registered, or held by its snapshot, is the last frame ever recorded for it. */
  lemma {:induction false} RecordedOrCachedIsLatest(steps: seq<Step>, start: int, cfg: Config, uidOf: Bytes -> Uid, c: ClientId, u: Uid)
    requires WellFormed(steps, uidOf)
    requires c in Run(steps, start, cfg).sessions
    requires Unambiguous(Run(steps, start, cfg).log, u, uidOf)
    requires var s := Run(steps, start, cfg);
             RecordedSince(s.log, s.sessions[c].history, u) || u in s.sessions[c].history.cached
    ensures var s := Run(steps, start, cfg);
            Latest(s.log, u).Some? && Expected(s.log, s.sessions[c].history, u, uidOf) == Some(Latest(s.log, u).value.frame)
  {
    RunKeepsInv(steps, start, cfg, uidOf);
    var s := Run(steps, start, cfg);
    var h := s.sessions[c].history;
    assert SessionInv(s.log, s.sessions[c], uidOf);
    var since := Since(s.log, h);
    assert forall e <- since :: e in s.log;
    NamedIsRecorded(since, u, uidOf);
    LatestSplit(s.log, h.joinedAt, u);
    LatestIsEvent(since, u);
    if u in h.cached {
      assert SnapshotShows(s.log, h, u, uidOf);
      LatestSplit(s.log, h.snapshotAt, u);
    }
  }

  /** In particular, a client that never overflowed is right about every entity. */
  lemma {:induction false} NoOverflowNoStaleness(steps: seq<Step>, start: int, cfg: Config, uidOf: Bytes -> Uid, c: ClientId)
    requires WellFormed(steps, uidOf)
    requires c in Run(steps, start, cfg).sessions
    requires Dropped(Run(steps, start, cfg).sessions[c].history) == {}
    ensures var s := Run(steps, start, cfg);
            forall u :: Shown(Pipeline(s.sessions[c]), u, uidOf) == Expected(s.log, s.sessions[c].history, u, uidOf)
  {
    var s := Run(steps, start, cfg);
    forall u ensures Shown(Pipeline(s.sessions[c]), u, uidOf) == Expected(s.log, s.sessions[c].history, u, uidOf) {
      LateJoinerConsistency(steps, start, cfg, uidOf, c, u);
    }
  }

  // ---------------------------------------------------------------------------
  // The object
  // ---------------------------------------------------------------------------

  function Zip(clients: map<ClientId, Client>, histories: map<ClientId, History>): map<ClientId, Session>
    requires clients.Keys == histories.Keys
  {
    map c | c in clients :: Session(clients[c], histories[c])
  }

  ghost predicate Enqueued(c: Client, h: History, c': Client, h': History, it: Item) {
    c' == EnqueueClient(c, it) && h' == EnqueueHistory(c, h, it)
  }

  lemma {:induction false} ZipEnqueued(cs: map<ClientId, Client>, hs: map<ClientId, History>,
                    cs': map<ClientId, Client>, hs': map<ClientId, History>, it: Item)
    requires cs.Keys == hs.Keys == cs'.Keys == hs'.Keys
    requires forall c <- cs.Keys :: Enqueued(cs[c], hs[c], cs'[c], hs'[c], it)
    ensures Zip(cs', hs') == EnqueueAll(Zip(cs, hs), it)
  {
  }

  class BroadcastManager {
    const cfg: Config
    var clients: map<ClientId, Client>
    var lvc: seq<Entry>
    var lastPrune: int
    ghost var log: seq<Event>
    ghost var histories: map<ClientId, History>

    ghost predicate Valid()
      reads this
    {
      clients.Keys == histories.Keys
    }

    ghost function View(): State
      reads this
      requires Valid()
    {
      State(Cache(lvc, lastPrune), log, Zip(clients, histories))
    }

    constructor (cfg: Config)
      ensures Valid() && this.cfg == cfg
      ensures View() == Run([], 0, cfg)
    {
      this.cfg := cfg;
      clients, lvc, lastPrune := map[], [], 0;
      log, histories := [], map[];
    }

    method Connect(c: ClientId)
      requires Valid() && c !in clients
      modifies this
      ensures Valid() && View() == Next(old(View()), Join(c), cfg)
    {
      clients := clients[c := EMPTY_CLIENT];
      histories := histories[c := NewHistory(|log|)];
    }

    /** Removal of a client, whoever notices that it is gone. */
    method Disconnect(c: ClientId)
      requires Valid()
      modifies this
      ensures Valid() && View() == Next(old(View()), Leave(c), cfg)
    {
      clients := map d | d in clients && d != c :: clients[d];
      histories := map d | d in histories && d != c :: histories[d];
    }

    method PruneCache(now: int)
      requires Valid()
      modifies `lvc, `lastPrune
      ensures Cache(lvc, lastPrune) == MaybePrune(old(Cache(lvc, lastPrune)), now, cfg)
    {
      var overCap := |lvc| > cfg.cap;
      if !overCap && now - lastPrune < cfg.interval {
        return;
      }
      lastPrune := now;
      lvc := Fresh(lvc, now - cfg.ttl);
      if |lvc| > cfg.cap {
        SortBySorts(Age, lvc);
        lvc := NewestFirst(lvc)[..cfg.cap];
      }
    }

    method RecordLive(e: Event)
      requires Valid()
      modifies `lvc, `lastPrune
      ensures Cache(lvc, lastPrune) == Record(old(Cache(lvc, lastPrune)), e, cfg)
    {
      if e.uid == "" {
        return;
      }
      lvc := Put(lvc, Entry(e.uid, e.frame, e.time));
      PruneCache(e.time);
    }

    /** Put one item on one client's queue; a full queue loses its oldest item first. */
    method EnqueueOne(c: ClientId, it: Item)
      requires Valid() && c in clients
      modifies `clients, `histories
      ensures Valid()
      ensures clients == old(clients)[c := EnqueueClient(old(clients)[c], it)]
      ensures histories == old(histories)[c := EnqueueHistory(old(clients)[c], old(histories)[c], it)]
    {
      var q := clients[c].queue;
      if |q| >= CLIENT_QUEUE_SIZE {
        q := q[1..];
      }
      histories := histories[c := EnqueueHistory(clients[c], histories[c], it)];
      clients := clients[c := clients[c].(queue := q + [it])];
    }

    /** The loop over all clients in both consumers. */
    method EnqueueToAll(it: Item)
      requires Valid()
      modifies `clients, `histories
      ensures Valid() && Zip(clients, histories) == EnqueueAll(Zip(old(clients), old(histories)), it)
    {
      var pending := clients.Keys;
      ghost var cs, hs := clients, histories;
      while pending != {}
        invariant pending <= cs.Keys
        invariant cs.Keys == hs.Keys == clients.Keys == histories.Keys
        invariant forall c <- cs.Keys :: c in pending ==> clients[c] == cs[c] && histories[c] == hs[c]
        invariant forall c <- cs.Keys :: c !in pending ==> Enqueued(cs[c], hs[c], clients[c], histories[c], it)
        decreases |pending|
      {
        var c :| c in pending;
        EnqueueOne(c, it);
        pending := pending - {c};
      }
      ZipEnqueued(cs, hs, clients, histories, it);
    }

    /** One decoded feed message: cache it, then enqueue it everywhere, without suspending. */
    method Consume(e: Event)
      requires Valid()
      modifies this
      ensures Valid() && View() == Next(old(View()), Publish(e), cfg)
    {
      RecordLive(e);
      log := log + [e];
      EnqueueToAll(Proto(e.frame));
    }

    method ConsumeAlert(payload: Bytes)
      requires Valid()
      modifies this
      ensures Valid() && View() == Next(old(View()), Notify(payload), cfg)
    {
      EnqueueToAll(Tagged("alert", payload));
    }

    /** The worker starts: the snapshot is taken and coalesced in one stretch. */
    method SendSnapshot(c: ClientId, now: int)
      requires Valid() && c in clients && !clients[c].bootstrapped
      modifies this
      ensures Valid() && View() == Next(old(View()), StartReplay(c, now), cfg)
    {
      var entries := Fresh(lvc, now - cfg.ttl);
      var sends := CoalesceOutgoing(Protos(Frames(entries)));
      clients := clients[c := clients[c].(bootstrapped := true, unsent := sends)];
      histories := histories[c := histories[c].(snapshotAt := |log|, cached := Uids(entries), snapshot := Frames(entries))];
    }

    /** A send to the client completes. */
    method SendOne(c: ClientId) returns (send: Send)
      requires Valid() && c in clients && clients[c].unsent != []
      modifies this
      ensures Valid() && View() == Next(old(View()), Complete(c), cfg)
      ensures send == old(clients[c].unsent[0])
    {
      var client := clients[c];
      send := client.unsent[0];
      clients := clients[c := client.(unsent := client.unsent[1..])];
      histories := histories[c := histories[c].(wire := histories[c].wire + [send])];
    }

    /** The worker wakes on a non-empty queue and drains up to a batch of it. */
    method DrainBatch(c: ClientId)
      requires Valid() && c in clients
      requires clients[c].bootstrapped && clients[c].unsent == [] && clients[c].queue != []
      modifies this
      ensures Valid() && View() == Next(old(View()), Drain(c), cfg)
    {
      var client := clients[c];
      var items := [client.queue[0]];
      var n := 1;
      while n < MAX_BATCH_MSGS && n < |client.queue|
        invariant 1 <= n <= MAX_BATCH_MSGS && n <= |client.queue|
        invariant items == client.queue[..n]
      {
        items := items + [client.queue[n]];
        n := n + 1;
      }
      assert n == DrainCount(View().sessions[c]);
      var sends := CoalesceOutgoing(items);
      clients := clients[c := client.(queue := client.queue[n..], unsent := sends)];
      histories := histories[c := histories[c].(head := histories[c].head + n,
                                                taken := histories[c].taken + Positions(histories[c].head, n))];
    }
  }
}
