/** The stale-while-revalidate news cache: several workers, one Redis, and a leased background
    refresh. Redis operations of different workers interleave freely. */
module NewsRefresh {
  import opened Options

  type WorkerId = nat
  type TaskId = nat
  type Feed = seq<string>

  const CACHE_TTL := 900
  const CACHE_HARD_TTL := 21600
  const REFRESH_LOCK_TTL := 120

  /** Where a task stands: fetching, between its two cache writes, or done with them. */
  datatype Stage = Fetching | Wrote(at: int) | Stored

  /** A background refresh (started when it acquired the lease), or a request that found the
      cache cold and fetches for itself. */
  datatype Task = Task(background: bool, startedAt: int, stage: Stage)

  datatype Cached = Cached(items: Feed, expires: int)

  /** `marker` and `lock` hold expiry instants; `holder` is the task that last took the lock.
      `triggers` counts, per worker, the calls past the local check and not yet at Redis;
      `latest` is each worker's _refresh_task. */
  datatype State = State(now: int, feed: Option<Cached>, marker: Option<int>, lock: Option<int>, holder: Option<TaskId>,
                         tasks: map<TaskId, Task>, nextId: TaskId,
                         triggers: map<WorkerId, nat>, latest: map<WorkerId, TaskId>)

  datatype Step =
    | Advance(d: nat)
    | Check(w: WorkerId)
    | Acquire(w: WorkerId)
    | AcquireFails(w: WorkerId)
    | ColdFetch
    | StoreFeed(id: TaskId, items: Feed)
    | StoreFresh(id: TaskId)
    | StoreFails(id: TaskId)
    | Release(id: TaskId)
    | ReleaseFails(id: TaskId)

  predicate Alive(expiry: Option<int>, now: int) {
    expiry.Some? && now < expiry.value
  }

  predicate FeedAlive(s: State) {
    s.feed.Some? && s.now < s.feed.value.expires
  }

  function CountOf(triggers: map<WorkerId, nat>, w: WorkerId): nat {
    if w in triggers then triggers[w] else 0
  }

  function Triggers(s: State, w: WorkerId): nat {
    CountOf(s.triggers, w)
  }

  /** Start a background refresh for worker `w`. */
  function Spawn(s: State, w: WorkerId): State {
    s.(tasks := s.tasks[s.nextId := Task(true, s.now, Fetching)], nextId := s.nextId + 1,
       latest := s.latest[w := s.nextId])
  }

  function TakeTrigger(s: State, w: WorkerId): State {
    s.(triggers := s.triggers[w := if Triggers(s, w) > 0 then Triggers(s, w) - 1 else 0])
  }

  function SetStage(s: State, id: TaskId, stage: Stage): State
    requires id in s.tasks
  {
    s.(tasks := s.tasks[id := s.tasks[id].(stage := stage)])
  }

  function Drop(s: State, id: TaskId): State {
    s.(tasks := map t | t in s.tasks && t != id :: s.tasks[t])
  }

  /** One step; a step that is not enabled changes nothing. */
  function Next(s: State, step: Step): State {
    match step
    case Advance(d) => s.(now := s.now + d)
    case Check(w) =>
      if w in s.latest && s.latest[w] in s.tasks then s
      else s.(triggers := s.triggers[w := Triggers(s, w) + 1])
    case Acquire(w) =>
      if Triggers(s, w) == 0 then s
      else
        var t := TakeTrigger(s, w);
        if Alive(s.lock, s.now) then t
        else Spawn(t, w).(lock := Some(s.now + REFRESH_LOCK_TTL), holder := Some(s.nextId))
    case AcquireFails(w) =>
      if Triggers(s, w) == 0 then s else Spawn(TakeTrigger(s, w), w)
    case ColdFetch =>
      s.(tasks := s.tasks[s.nextId := Task(false, s.now, Fetching)], nextId := s.nextId + 1)
    case StoreFeed(id, items) =>
      if id !in s.tasks || !s.tasks[id].stage.Fetching? then s
      else if items == [] then SetStage(s, id, Stored)
      else SetStage(s, id, Wrote(s.now)).(feed := Some(Cached(items, s.now + CACHE_HARD_TTL)))
    case StoreFresh(id) =>
      if id !in s.tasks || !s.tasks[id].stage.Wrote? then s
      else SetStage(s, id, Stored).(marker := Some(s.now + CACHE_TTL))
    case StoreFails(id) =>
      if id !in s.tasks || s.tasks[id].stage.Stored? then s else SetStage(s, id, Stored)
    case Release(id) =>
      if id !in s.tasks || s.tasks[id].stage.Wrote? then s
      else if s.tasks[id].background then Drop(s, id).(lock := None)
      else Drop(s, id)
    case ReleaseFails(id) =>
      if id !in s.tasks || s.tasks[id].stage.Wrote? then s else Drop(s, id)
  }

  function Init(now: int): State {
    State(now, None, None, None, None, map[], 0, map[], map[])
  }

  function Run(s: State, steps: seq<Step>): State
    decreases steps
  {
    if steps == [] then s else Run(Next(s, steps[0]), steps[1..])
  }

  // ---------------------------------------------------------------------------
  // At most one background refresh
  // ---------------------------------------------------------------------------

  ghost predicate InFlight(s: State, id: TaskId) {
    id in s.tasks && s.tasks[id].background
  }

  /** Every background refresh is still within its lease. */
  ghost predicate Timely(s: State) {
    forall id | InFlight(s, id) :: s.now < s.tasks[id].startedAt + REFRESH_LOCK_TTL
  }

  /** Redis never fails a lock acquisition, and every refresh ends within its lease. */
  ghost predicate WellBehaved(s: State, steps: seq<Step>)
    decreases steps
  {
    Timely(s) && (steps == [] || (!steps[0].AcquireFails? && WellBehaved(Next(s, steps[0]), steps[1..])))
  }

  /** A waiting trigger asks for the lock while a refresh is past its lease. */
  ghost predicate LateTrigger(s: State, step: Step) {
    step.Acquire? && Triggers(s, step.w) > 0
    && exists a :: InFlight(s, a) && s.now >= s.tasks[a].startedAt + REFRESH_LOCK_TTL
  }

  ghost predicate LeaseInv(s: State) {
    && (forall id <- s.tasks :: id < s.nextId)
    && (forall id | InFlight(s, id) ::
          s.holder == Some(id) && s.lock == Some(s.tasks[id].startedAt + REFRESH_LOCK_TTL))
  }

  lemma {:induction false} NextKeepsLease(s: State, step: Step)
    requires LeaseInv(s) && !step.AcquireFails? && !LateTrigger(s, step)
    ensures LeaseInv(Next(s, step))
  {
    var t := Next(s, step);
    forall id | InFlight(t, id)
      ensures t.holder == Some(id) && t.lock == Some(t.tasks[id].startedAt + REFRESH_LOCK_TTL)
    {
      if !(step.Acquire? && id == s.nextId) {
        assert InFlight(s, id) && s.tasks[id].startedAt == t.tasks[id].startedAt;
        assert s.holder == Some(id) && s.lock == Some(s.tasks[id].startedAt + REFRESH_LOCK_TTL);
        if step.Acquire? && Triggers(s, step.w) > 0 {
          assert Alive(s.lock, s.now);
        }
        if step.Release? && step.id in s.tasks {
          assert InFlight(s, step.id) ==> step.id == id;
        }
      }
    }
  }

  lemma {:induction false} RunKeepsLease(s: State, steps: seq<Step>)
    requires LeaseInv(s) && NoFailedAcquire(steps) && NoLateTrigger(s, steps)
    ensures LeaseInv(Run(s, steps))
    decreases steps
  {
    if steps != [] {
      assert steps[0] in steps;
      NextKeepsLease(s, steps[0]);
      RunKeepsLease(Next(s, steps[0]), steps[1..]);
    }
  }

  ghost predicate NoFailedAcquire(steps: seq<Step>) {
    forall st <- steps :: !st.AcquireFails?
  }

  /** At no moment of the run does a waiting trigger meet a refresh that is past its lease. */
  ghost predicate NoLateTrigger(s: State, steps: seq<Step>)
    decreases steps
  {
    steps == [] || (!LateTrigger(s, steps[0]) && NoLateTrigger(Next(s, steps[0]), steps[1..]))
  }

  ghost predicate AtMostOne(s: State) {
    forall a, b | InFlight(s, a) && InFlight(s, b) :: a == b
  }

  /** At every moment of the run at most one background refresh is in flight. */
  ghost predicate OneAtATime(s: State, steps: seq<Step>)
    decreases steps
  {
    AtMostOne(s) && (steps == [] || OneAtATime(Next(s, steps[0]), steps[1..]))
  }

  lemma {:induction false} LateTriggerStartsSecond(s: State, step: Step)
    requires LeaseInv(s) && LateTrigger(s, step)
    ensures !AtMostOne(Next(s, step))
  {
    var a :| InFlight(s, a) && s.now >= s.tasks[a].startedAt + REFRESH_LOCK_TTL;
    SecondRefreshStep(s, a, step.w);
    assert InFlight(Next(s, step), a);
  }

  lemma {:induction false} OneRefreshFrom(s: State, steps: seq<Step>)
    requires LeaseInv(s) && NoFailedAcquire(steps)
    ensures OneAtATime(s, steps) <==> NoLateTrigger(s, steps)
    decreases steps
  {
    if steps != [] {
      assert steps[0] in steps;
      if LateTrigger(s, steps[0]) {
        LateTriggerStartsSecond(s, steps[0]);
      } else {
        NextKeepsLease(s, steps[0]);
        OneRefreshFrom(Next(s, steps[0]), steps[1..]);
      }
    }
  }

  /** Exactly when the lease works: over every run whose acquisitions do not err, at most one
      background refresh is in flight at every moment if and only if no waiting trigger ever asks
      for the lock while a refresh is past its 120 seconds. */
  lemma {:induction false} OneRefreshExactly(now: int, steps: seq<Step>)
    requires NoFailedAcquire(steps)
    ensures OneAtATime(Init(now), steps) <==> NoLateTrigger(Init(now), steps)
  {
    OneRefreshFrom(Init(now), steps);
  }

  lemma {:induction false} WellBehavedIsNeverLate(s: State, steps: seq<Step>)
    requires WellBehaved(s, steps)
    ensures NoFailedAcquire(steps) && NoLateTrigger(s, steps)
    decreases steps
  {
    if steps != [] {
      WellBehavedIsNeverLate(Next(s, steps[0]), steps[1..]);
      assert steps == [steps[0]] + steps[1..];
    }
  }

  /** In particular, in every interleaving in which each background refresh ends within 120 seconds of
      acquiring the lock, and acquiring it never errs, at most one background refresh is in flight. */
  lemma {:induction false} AtMostOneRefresh(now: int, steps: seq<Step>, a: TaskId, b: TaskId)
    requires WellBehaved(Init(now), steps)
    requires InFlight(Run(Init(now), steps), a) && InFlight(Run(Init(now), steps), b)
    ensures a == b
  {
    WellBehavedIsNeverLate(Init(now), steps);
    RunKeepsLease(Init(now), steps);
  }

  /** After any run that so far kept to one refresh, while `a` is in flight, the next trigger starts a
      second one if and only if `a` has outlived its 120 seconds. */
  lemma {:induction false} SecondRefreshExactlyOnOverrun(now: int, steps: seq<Step>, a: TaskId, w: WorkerId)
    requires NoFailedAcquire(steps) && OneAtATime(Init(now), steps)
    requires InFlight(Run(Init(now), steps), a) && Triggers(Run(Init(now), steps), w) > 0
    ensures var s := Run(Init(now), steps);
            (exists b :: b != a && InFlight(Next(s, Acquire(w)), b)) <==> s.now >= s.tasks[a].startedAt + 120
  {
    OneRefreshExactly(now, steps);
    RunKeepsLease(Init(now), steps);
    SecondRefreshStep(Run(Init(now), steps), a, w);
  }

  lemma {:induction false} SecondRefreshStep(s: State, a: TaskId, w: WorkerId)
    requires LeaseInv(s) && InFlight(s, a) && Triggers(s, w) > 0
    ensures (exists b :: b != a && InFlight(Next(s, Acquire(w)), b))
            <==> s.now >= s.tasks[a].startedAt + REFRESH_LOCK_TTL
  {
    var t := Next(s, Acquire(w));
    assert s.lock == Some(s.tasks[a].startedAt + REFRESH_LOCK_TTL);
    if s.now >= s.tasks[a].startedAt + REFRESH_LOCK_TTL {
      assert a != s.nextId && InFlight(t, s.nextId);
    } else {
      assert t.tasks == s.tasks;
      forall b | InFlight(t, b) ensures b == a {
        assert InFlight(s, b);
      }
    }
  }

  /** A refresh that ends after its lease has passed to a successor deletes the successor's lock:
      the next trigger starts another refresh although the successor is within its lease. */
  lemma {:induction false} LateReleaseFreesForeignLock(s: State, late: TaskId, successor: TaskId, w: WorkerId)
    requires InFlight(s, late) && !s.tasks[late].stage.Wrote?
    requires late != successor && InFlight(s, successor) && s.holder == Some(successor) && successor < s.nextId
    requires Triggers(s, w) > 0
    ensures var t := Next(Next(s, Release(late)), Acquire(w));
            InFlight(t, successor) && InFlight(t, s.nextId) && t.holder == Some(s.nextId) && s.nextId != successor
  {
  }

  /** Such a state is reached: the first refresh overruns its lease and a second one
      takes the lock, while a third trigger is past its local check. */
  lemma {:induction false} OverrunIsReachable(now: int)
    ensures var s := Run(Init(now), [Check(0), Check(1), Check(2), Acquire(0), Advance(120), Acquire(1)]);
            && InFlight(s, 0) && s.tasks[0].stage.Fetching? && InFlight(s, 1) && s.holder == Some(1)
            && Triggers(s, 2) == 1 && s.nextId == 2
  {
    var steps := [Check(0), Check(1), Check(2), Acquire(0), Advance(120), Acquire(1)];
    var s3 := Init(now).(triggers := map[0 := 1, 1 := 1, 2 := 1]);
    var s4 := s3.(triggers := map[0 := 0, 1 := 1, 2 := 1], tasks := map[0 := Task(true, now, Fetching)], nextId := 1,
                  latest := map[0 := 0], lock := Some(now + REFRESH_LOCK_TTL), holder := Some(0));
    assert Next(Next(Next(Init(now), Check(0)), Check(1)), Check(2)) == s3;
    assert Next(s3, Acquire(0)) == s4;
    var s6 := Next(Next(s4, Advance(120)), Acquire(1));
    assert steps[1..][1..] == steps[2..] && steps[2..][1..] == steps[3..];
    assert Run(Init(now), steps) == Run(s3, steps[3..]);
    assert steps[3..][1..] == steps[4..] && steps[4..][1..] == steps[5..] && steps[5..][1..] == [];
    assert Run(s3, steps[3..]) == s6;
  }

  // ---------------------------------------------------------------------------
  // The two cache keys
  // ---------------------------------------------------------------------------

  ghost predicate FeedInv(s: State) {
    && (s.feed.Some? ==> s.feed.value.items != [])
    && (forall id <- s.tasks :: s.tasks[id].stage.Wrote? ==>
          && s.tasks[id].stage.at <= s.now
          && s.feed.Some? && s.feed.value.expires >= s.tasks[id].stage.at + CACHE_HARD_TTL)
    && (s.feed.Some? ==> s.feed.value.expires <= s.now + CACHE_HARD_TTL)
  }

  lemma {:induction false} NextKeepsFeed(s: State, step: Step)
    requires FeedInv(s)
    ensures FeedInv(Next(s, step))
    ensures s.feed.Some? ==> Next(s, step).feed.Some?
    ensures Next(s, step).feed != s.feed ==> step.StoreFeed? && step.items != [] && Next(s, step).feed.value.items == step.items
  {
  }

  /** Whatever fails and however writes interleave, a stored feed is never replaced by an empty one. */
  lemma {:induction false} FeedNeverEmptied(s: State, steps: seq<Step>)
    requires FeedInv(s)
    ensures FeedInv(Run(s, steps))
    ensures s.feed.Some? ==> Run(s, steps).feed.Some? && Run(s, steps).feed.value.items != []
    decreases steps
  {
    if steps != [] {
      NextKeepsFeed(s, steps[0]);
      FeedNeverEmptied(Next(s, steps[0]), steps[1..]);
    }
  }

  /** The longest pause between the two writes of one task that freshness tolerates. */
  const MAX_PAUSE := CACHE_HARD_TTL - CACHE_TTL

  ghost predicate PromptStep(s: State, step: Step) {
    step.StoreFresh? && step.id in s.tasks && s.tasks[step.id].stage.Wrote? ==>
      s.now - s.tasks[step.id].stage.at <= MAX_PAUSE
  }

  ghost predicate Prompt(s: State, steps: seq<Step>)
    decreases steps
  {
    steps == [] || (PromptStep(s, steps[0]) && Prompt(Next(s, steps[0]), steps[1..]))
  }

  ghost predicate FreshInv(s: State) {
    s.marker.Some? ==> s.feed.Some? && s.marker.value <= s.feed.value.expires
  }

  lemma {:induction false} NextKeepsFresh(s: State, step: Step)
    requires FeedInv(s) && FreshInv(s) && PromptStep(s, step)
    ensures FreshInv(Next(s, step))
  {
  }

  lemma {:induction false} RunKeepsFresh(s: State, steps: seq<Step>)
    requires FeedInv(s) && FreshInv(s) && Prompt(s, steps)
    ensures FreshInv(Run(s, steps))
    decreases steps
  {
    if steps != [] {
      NextKeepsFeed(s, steps[0]);
      NextKeepsFresh(s, steps[0]);
      RunKeepsFresh(Next(s, steps[0]), steps[1..]);
    }
  }

  /** When no task pauses longer than 20700 seconds between its two writes, a live freshness
      marker always comes with live feed data. */
  lemma {:induction false} FreshImpliesData(now: int, steps: seq<Step>)
    requires Prompt(Init(now), steps)
    ensures var s := Run(Init(now), steps);
            Alive(s.marker, s.now) ==> FeedAlive(s)
  {
    RunKeepsFresh(Init(now), steps);
  }

  /** The bound is exact: after a marker is written, it is backed by data for its whole life if
      and only if the data then stored lives at least as long. */
  lemma {:induction false} MarkerBackedExactly(s: State, id: TaskId)
    requires FeedInv(s) && id in s.tasks && s.tasks[id].stage.Wrote?
    ensures var t := Next(s, StoreFresh(id));
            (forall d: nat :: Alive(t.marker, Next(t, Advance(d)).now) ==> FeedAlive(Next(t, Advance(d))))
            <==> s.feed.value.expires >= s.now + CACHE_TTL
  {
    var t := Next(s, StoreFresh(id));
    if s.feed.value.expires < s.now + CACHE_TTL {
      var d: nat := if s.feed.value.expires <= s.now then 0 else s.feed.value.expires - s.now;
      assert Alive(t.marker, Next(t, Advance(d)).now) && !FeedAlive(Next(t, Advance(d)));
    }
  }

  // ---------------------------------------------------------------------------
  // The object
  // ---------------------------------------------------------------------------

  class NewsCache {
    var now: int
    var feed: Option<Cached>
    var marker: Option<int>
    var lock: Option<int>
    var tasks: map<TaskId, Task>
    var nextId: TaskId
    var triggers: map<WorkerId, nat>
    var latest: map<WorkerId, TaskId>
    ghost var holder: Option<TaskId>

    ghost function View(): State
      reads this
    {
      State(now, feed, marker, lock, holder, tasks, nextId, triggers, latest)
    }

    /** get_news_feed, first answer of Redis: the cached feed, or None for a cold cache. */
    method ReadFeed(limit: int) returns (items: Option<Feed>)
      ensures items.Some? <==> FeedAlive(View())
      ensures items.Some? ==>
                var f := View().feed.value.items;
                && items.value <= f
                && (limit >= 0 ==> |items.value| == if limit < |f| then limit else |f|)
                && (limit < 0 ==> |items.value| == if |f| + limit < 0 then 0 else |f| + limit)
    {
      if feed.None? || now >= feed.value.expires {
        return None;
      }
      var f := feed.value.items;
      // A slice up to a negative bound stops that many items before the end.
      var end := if limit >= 0 then limit else if |f| + limit < 0 then 0 else |f| + limit;
      items := Some(if end < |f| then f[..end] else f);
    }

    /** Second answer: whether the marker is still there; a refresh is triggered when it is gone. */
    method RefreshIfStale(w: WorkerId)
      modifies this
      ensures View() == if Alive(old(marker), old(now)) then old(View()) else Next(old(View()), Check(w))
    {
      if marker.None? || now >= marker.value {
        TriggerCheck(w);
      }
    }

    /** The local half of _trigger_refresh. */
    method TriggerCheck(w: WorkerId)
      modifies this
      ensures View() == Next(old(View()), Check(w))
    {
      if w in latest && latest[w] in tasks {
        return;
      }
      triggers := triggers[w := CountOf(triggers, w) + 1];
    }

    /** SET NX EX at Redis, and the task it may start. */
    method TriggerAcquire(w: WorkerId) returns (started: bool)
      requires CountOf(triggers, w) > 0
      modifies this
      ensures View() == Next(old(View()), Acquire(w))
      ensures started <==> !Alive(old(lock), old(now))
    {
      triggers := triggers[w := CountOf(triggers, w) - 1];
      if lock.Some? && now < lock.value {
        return false;
      }
      lock, holder := Some(now + REFRESH_LOCK_TTL), Some(nextId);
      tasks := tasks[nextId := Task(true, now, Fetching)];
      latest := latest[w := nextId];
      nextId := nextId + 1;
      started := true;
    }

    /** _store_feed, first write. */
    method WriteFeed(id: TaskId, items: Feed)
      requires id in tasks && tasks[id].stage.Fetching?
      modifies this
      ensures View() == Next(old(View()), StoreFeed(id, items))
    {
      if items == [] {
        tasks := tasks[id := tasks[id].(stage := Stored)];
        return;
      }
      feed := Some(Cached(items, now + CACHE_HARD_TTL));
      tasks := tasks[id := tasks[id].(stage := Wrote(now))];
    }

    /** _store_feed, second write. */
    method WriteFresh(id: TaskId)
      requires id in tasks && tasks[id].stage.Wrote?
      modifies this
      ensures View() == Next(old(View()), StoreFresh(id))
    {
      marker := Some(now + CACHE_TTL);
      tasks := tasks[id := tasks[id].(stage := Stored)];
    }

    /** The `finally` of _refresh_and_release: the lock is deleted whoever holds it. */
    method ReleaseLock(id: TaskId)
      requires id in tasks && tasks[id].background && !tasks[id].stage.Wrote?
      modifies this
      ensures View() == Next(old(View()), Release(id))
    {
      lock := None;
      tasks := map t | t in tasks && t != id :: tasks[t];
    }
  }
}
