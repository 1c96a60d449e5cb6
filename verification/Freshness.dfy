/** A stale news feed gets refreshed: what one refresh does from the trigger to its end, whatever other
    workers and tasks do in between. */
module Freshness {
  import opened Options
  import opened NewsRefresh

  /** The steps a task takes itself. */
  predicate Concerns(step: Step, id: TaskId) {
    match step
    case StoreFeed(t, _) => t == id
    case StoreFresh(t) => t == id
    case StoreFails(t) => t == id
    case Release(t) => t == id
    case ReleaseFails(t) => t == id
    case _ => false
  }

  ghost predicate LeavesTask(steps: seq<Step>, id: TaskId) {
    forall st <- steps :: !Concerns(st, id)
  }

  /** No step stores a feed, or the marker. */
  ghost predicate KeepsFeed(steps: seq<Step>) {
    forall st <- steps :: st.StoreFeed? ==> st.items == []
  }

  ghost predicate KeepsMarker(steps: seq<Step>) {
    forall st <- steps :: !st.StoreFresh?
  }

  /** Worker `w` does not ask Redis for the lock. */
  ghost predicate Holds(steps: seq<Step>, w: WorkerId) {
    forall st <- steps :: st != Acquire(w) && st != AcquireFails(w)
  }

  /** Worker `w` started a refresh that has not ended. */
  predicate OwnRefreshRuns(s: State, w: WorkerId) {
    w in s.latest && s.latest[w] in s.tasks
  }

  ghost predicate Consistent(s: State) {
    (forall id <- s.tasks :: id < s.nextId) && (forall w <- s.latest :: s.latest[w] < s.nextId)
  }

  // ---------------------------------------------------------------------------
  // What persists between the steps of a task
  // ---------------------------------------------------------------------------

  lemma {:induction false} NextKeepsConsistent(s: State, step: Step)
    requires Consistent(s)
    ensures Consistent(Next(s, step))
    ensures Next(s, step).nextId >= s.nextId
  {
  }

  /** Without a step of its own, a task stays as it is. */
  lemma {:induction false} NextLeavesTask(s: State, step: Step, id: TaskId)
    requires Consistent(s) && id in s.tasks && !Concerns(step, id)
    ensures id in Next(s, step).tasks && Next(s, step).tasks[id] == s.tasks[id]
  {
  }

  lemma {:induction false} TaskStays(s: State, steps: seq<Step>, id: TaskId)
    requires Consistent(s) && id in s.tasks && LeavesTask(steps, id)
    ensures Consistent(Run(s, steps))
    ensures id in Run(s, steps).tasks && Run(s, steps).tasks[id] == s.tasks[id]
    decreases steps
  {
    if steps != [] {
      assert steps[0] in steps;
      NextKeepsConsistent(s, steps[0]);
      NextLeavesTask(s, steps[0], id);
      TaskStays(Next(s, steps[0]), steps[1..], id);
    }
  }

  lemma {:induction false} FeedStays(s: State, steps: seq<Step>)
    requires KeepsFeed(steps)
    ensures Run(s, steps).feed == s.feed
    ensures KeepsMarker(steps) ==> Run(s, steps).marker == s.marker
    decreases steps
  {
    if steps != [] {
      assert steps[0] in steps;
      assert Next(s, steps[0]).feed == s.feed;
      FeedStays(Next(s, steps[0]), steps[1..]);
    }
  }

  lemma {:induction false} TriggersStay(s: State, steps: seq<Step>, w: WorkerId)
    requires Consistent(s) && Holds(steps, w)
    ensures Consistent(Run(s, steps)) && Triggers(Run(s, steps), w) >= Triggers(s, w)
    decreases steps
  {
    if steps != [] {
      assert steps[0] in steps;
      NextKeepsConsistent(s, steps[0]);
      assert Triggers(Next(s, steps[0]), w) >= Triggers(s, w);
      assert forall st <- steps[1..] :: st in steps;
      TriggersStay(Next(s, steps[0]), steps[1..], w);
    }
  }

  // ---------------------------------------------------------------------------
  // The trigger
  // ---------------------------------------------------------------------------

  /** A stale read counts as a trigger exactly when the worker has no refresh of its own running. */
  lemma {:induction false} CheckTriggersExactly(s: State, w: WorkerId)
    ensures Next(s, Check(w)).tasks == s.tasks
    ensures forall v :: Triggers(Next(s, Check(w)), v) ==
              Triggers(s, v) + if v == w && !OwnRefreshRuns(s, w) then 1 else 0
  {
  }

  /** The state after a task was started: it is new, fetching, and known to the worker. */
  ghost predicate Started(s: State, t: State, w: WorkerId) {
    && s.nextId !in s.tasks
    && t.tasks == s.tasks[s.nextId := Task(true, s.now, Fetching)] && t.nextId == s.nextId + 1
    && t.latest == s.latest[w := s.nextId]
  }

  /** A trigger asks for the lock once: it starts a refresh and holds the lock for 120 seconds if and
      only if nobody holds it, and starts one without the lock when Redis errs. */
  lemma {:induction false} AcquireExactly(s: State, w: WorkerId)
    requires Consistent(s) && Triggers(s, w) > 0
    ensures var t := Next(s, Acquire(w));
            && Triggers(t, w) == Triggers(s, w) - 1
            && if s.lock.Some? && s.now < s.lock.value then t.tasks == s.tasks && t.lock == s.lock && t.latest == s.latest
               else Started(s, t, w) && t.lock == Some(s.now + 120)
    ensures var t := Next(s, AcquireFails(w));
            Triggers(t, w) == Triggers(s, w) - 1 && Started(s, t, w) && t.lock == s.lock
  {
  }

  /** Without a trigger nothing is asked for. */
  lemma {:induction false} NoTriggerNoRefresh(s: State, w: WorkerId)
    requires Triggers(s, w) == 0
    ensures Next(s, Acquire(w)) == s == Next(s, AcquireFails(w))
  {
  }

  /** A request on a cold cache fetches for itself, at once and without the lock. */
  lemma {:induction false} ColdFetchStarts(s: State)
    requires Consistent(s)
    ensures var t := Next(s, ColdFetch);
            && s.nextId !in s.tasks && t.tasks == s.tasks[s.nextId := Task(false, s.now, Fetching)]
            && t.nextId == s.nextId + 1 && t.lock == s.lock && t.triggers == s.triggers && t.latest == s.latest
  {
  }

  /** The state in which worker `w` asks for the lock, some steps after its stale read. */
  function Asking(s: State, w: WorkerId, gap: seq<Step>): State {
    Run(Next(s, Check(w)), gap)
  }

  // ---------------------------------------------------------------------------
  // A task from its fetch to its end
  // ---------------------------------------------------------------------------

  function Rank(stage: Stage): nat {
    match stage
    case Fetching => 0
    case Wrote(_) => 1
    case Stored => 2
  }

  /** A task only moves on, by steps of its own: it writes each of the two keys at most once. */
  lemma {:induction false} TaskMovesOn(s: State, step: Step, id: TaskId)
    requires Consistent(s) && id in s.tasks && id in Next(s, step).tasks
    ensures var p, q := s.tasks[id], Next(s, step).tasks[id];
            && q.background == p.background && q.startedAt == p.startedAt
            && (q.stage != p.stage ==> Rank(q.stage) > Rank(p.stage) && Concerns(step, id))
  {
  }

  /** The two keys are written by nobody else: the feed by a fetching task that fetched something, the
      marker by one that has written the feed. */
  lemma {:induction false} KeysWrittenExactly(s: State, step: Step)
    ensures var t := Next(s, step);
            && t.feed == (if step.StoreFeed? && step.items != [] && step.id in s.tasks && s.tasks[step.id].stage.Fetching?
                          then Some(Cached(step.items, s.now + 21600)) else s.feed)
            && t.marker == (if step.StoreFresh? && step.id in s.tasks && s.tasks[step.id].stage.Wrote?
                            then Some(s.now + 900) else s.marker)
  {
  }

  /** Whatever others do in between: what a task fetched is stored for 21600 seconds and marked fresh for
      900 seconds from the second write on, and both stay until somebody writes again. */
  lemma {:induction false} FetchedIsStored(s: State, id: TaskId, a: seq<Step>, items: Feed, b: seq<Step>, c: seq<Step>)
    requires Consistent(s) && id in s.tasks && s.tasks[id].stage.Fetching? && items != []
    requires LeavesTask(a, id) && LeavesTask(b, id) && KeepsFeed(b) && KeepsFeed(c) && KeepsMarker(c)
    ensures var s1 := Run(s, a);
            var s3 := Run(Next(s1, StoreFeed(id, items)), b);
            var s5 := Run(Next(s3, StoreFresh(id)), c);
            && s5.feed == Some(Cached(items, s1.now + 21600)) && s5.marker == Some(s3.now + 900)
            && (FeedAlive(s5) <==> s5.now < s1.now + 21600) && (Alive(s5.marker, s5.now) <==> s5.now < s3.now + 900)
  {
    var s1 := Run(s, a);
    TaskStays(s, a, id);
    var s2 := Next(s1, StoreFeed(id, items));
    NextKeepsConsistent(s1, StoreFeed(id, items));
    TaskStays(s2, b, id);
    FeedStays(s2, b);
    FeedStays(Next(Run(s2, b), StoreFresh(id)), c);
  }

  /** What ends a task: its release, at any time but between its two writes. A background refresh takes
      the lock with it, whoever holds it, and a request on a cold cache leaves the lock alone. */
  lemma {:induction false} ReleaseExactly(s: State, id: TaskId)
    requires id in s.tasks && !s.tasks[id].stage.Wrote?
    ensures var t := Next(s, Release(id));
            && t.tasks.Keys == s.tasks.Keys - {id} && (forall i <- t.tasks :: t.tasks[i] == s.tasks[i])
            && t.lock == (if s.tasks[id].background then None else s.lock)
            && t.feed == s.feed && t.marker == s.marker && t.latest == s.latest && t.triggers == s.triggers
    ensures Next(s, ReleaseFails(id)) == Next(s, Release(id)).(lock := s.lock)
  {
  }

  /** No task ends between its two writes. */
  lemma {:induction false} NoReleaseBetweenWrites(s: State, id: TaskId)
    requires id in s.tasks && s.tasks[id].stage.Wrote?
    ensures Next(s, Release(id)) == s == Next(s, ReleaseFails(id))
  {
  }

  /** No task is stuck: a failed write is passed over, and the task can end. */
  lemma {:induction false} EveryTaskCanEnd(s: State, id: TaskId)
    requires id in s.tasks
    ensures var t := Next(s, StoreFails(id));
            && id in t.tasks && t.tasks[id].stage.Stored? && t.feed == s.feed && t.marker == s.marker
            && id !in Next(t, Release(id)).tasks
  {
  }

  /** From the stale read to the end: a worker without a refresh of its own triggers one; if the lock is
      free when it asks, and the fetch brings something, then that is what is stored and marked fresh,
      whatever other workers and tasks do in between, and the worker can trigger the next one. */
  lemma {:induction false} StaleFeedIsRefreshed(s: State, w: WorkerId, gap: seq<Step>, a: seq<Step>, items: Feed, b: seq<Step>, c: seq<Step>)
    requires Consistent(s) && !OwnRefreshRuns(s, w) && Holds(gap, w) && items != []
    requires var t := Asking(s, w, gap);
             && !Alive(t.lock, t.now) && LeavesTask(a, t.nextId) && LeavesTask(b, t.nextId) && KeepsFeed(b)
             && LeavesTask(c, t.nextId) && KeepsFeed(c) && KeepsMarker(c)
             && Holds(a, w) && Holds(b, w) && Holds(c, w)
    ensures var t := Asking(s, w, gap);
            var id := t.nextId;
            var s1 := Run(Next(t, Acquire(w)), a);
            var s3 := Run(Next(s1, StoreFeed(id, items)), b);
            var s5 := Run(Next(s3, StoreFresh(id)), c);
            var s6 := Next(s5, Release(id));
            && s6.feed == Some(Cached(items, s1.now + 21600)) && s6.marker == Some(s3.now + 900)
            && s6.lock == None && id !in s6.tasks && !OwnRefreshRuns(s6, w)
  {
    TriggerStarts(s, w, gap);
    RefreshEnds(Next(Asking(s, w, gap), Acquire(w)), Asking(s, w, gap).nextId, w, a, items, b, c);
  }

  lemma {:induction false} RefreshEnds(s: State, id: TaskId, w: WorkerId, a: seq<Step>, items: Feed, b: seq<Step>, c: seq<Step>)
    requires Owned(s, w, id) && s.tasks[id].stage.Fetching? && items != []
    requires LeavesTask(a, id) && LeavesTask(b, id) && LeavesTask(c, id)
    requires Holds(a, w) && Holds(b, w) && Holds(c, w) && KeepsFeed(b) && KeepsFeed(c) && KeepsMarker(c)
    ensures var s1 := Run(s, a);
            var s3 := Run(Next(s1, StoreFeed(id, items)), b);
            var s6 := Next(Run(Next(s3, StoreFresh(id)), c), Release(id));
            && s6.feed == Some(Cached(items, s1.now + 21600)) && s6.marker == Some(s3.now + 900)
            && s6.lock == None && id !in s6.tasks && !OwnRefreshRuns(s6, w)
  {
    FetchedIsStored(s, id, a, items, b, c);
    RefreshRunsOn(s, id, w, a, items, b, c);
    OwnedEnds(Run(Next(Run(Next(Run(s, a), StoreFeed(id, items)), b), StoreFresh(id)), c), w, id);
  }

  lemma {:induction false} TriggerStarts(s: State, w: WorkerId, gap: seq<Step>)
    requires Consistent(s) && !OwnRefreshRuns(s, w) && Holds(gap, w)
    requires !Alive(Asking(s, w, gap).lock, Asking(s, w, gap).now)
    ensures var t := Asking(s, w, gap);
            Owned(Next(t, Acquire(w)), w, t.nextId) && Next(t, Acquire(w)).tasks[t.nextId].stage.Fetching?
  {
    var t := Asking(s, w, gap);
    CheckTriggersExactly(s, w);
    NextKeepsConsistent(s, Check(w));
    TriggersStay(Next(s, Check(w)), gap, w);
    AcquireExactly(t, w);
    NextKeepsConsistent(t, Acquire(w));
  }

  lemma {:induction false} OwnedEnds(s: State, w: WorkerId, id: TaskId)
    requires Owned(s, w, id) && !s.tasks[id].stage.Wrote?
    ensures var t := Next(s, Release(id));
            t.feed == s.feed && t.marker == s.marker && t.lock == None && id !in t.tasks && !OwnRefreshRuns(t, w)
  {
    ReleaseExactly(s, id);
  }

  lemma {:induction false} OwnerStays(s: State, steps: seq<Step>, w: WorkerId, id: TaskId)
    requires w in s.latest && s.latest[w] == id && Holds(steps, w)
    ensures w in Run(s, steps).latest && Run(s, steps).latest[w] == id
    decreases steps
  {
    if steps != [] {
      assert steps[0] in steps && forall st <- steps[1..] :: st in steps;
      OwnerStays(Next(s, steps[0]), steps[1..], w, id);
    }
  }

  /** `id` is worker `w`'s running refresh. */
  ghost predicate Owned(s: State, w: WorkerId, id: TaskId) {
    Consistent(s) && id in s.tasks && s.tasks[id].background && w in s.latest && s.latest[w] == id
  }

  lemma {:induction false} OwnedStays(s: State, steps: seq<Step>, w: WorkerId, id: TaskId)
    requires Owned(s, w, id) && LeavesTask(steps, id) && Holds(steps, w)
    ensures Owned(Run(s, steps), w, id) && Run(s, steps).tasks[id] == s.tasks[id]
  {
    TaskStays(s, steps, id);
    OwnerStays(s, steps, w, id);
  }

  lemma {:induction false} OwnedStores(s: State, w: WorkerId, id: TaskId, items: Feed)
    requires Owned(s, w, id) && items != []
    ensures s.tasks[id].stage.Fetching? ==>
              Owned(Next(s, StoreFeed(id, items)), w, id) && Next(s, StoreFeed(id, items)).tasks[id].stage.Wrote?
    ensures s.tasks[id].stage.Wrote? ==>
              Owned(Next(s, StoreFresh(id)), w, id) && Next(s, StoreFresh(id)).tasks[id].stage.Stored?
  {
    NextKeepsConsistent(s, StoreFeed(id, items));
    NextKeepsConsistent(s, StoreFresh(id));
  }

  lemma {:induction false} RefreshRunsOn(s: State, id: TaskId, w: WorkerId, a: seq<Step>, items: Feed, b: seq<Step>, c: seq<Step>)
    requires Owned(s, w, id) && s.tasks[id].stage.Fetching? && items != []
    requires LeavesTask(a, id) && LeavesTask(b, id) && LeavesTask(c, id)
    requires Holds(a, w) && Holds(b, w) && Holds(c, w)
    ensures var s5 := Run(Next(Run(Next(Run(s, a), StoreFeed(id, items)), b), StoreFresh(id)), c);
            Owned(s5, w, id) && s5.tasks[id].stage.Stored?
  {
    OwnedStays(s, a, w, id);
    OwnedStores(Run(s, a), w, id, items);
    var s2 := Next(Run(s, a), StoreFeed(id, items));
    OwnedStays(s2, b, w, id);
    OwnedStores(Run(s2, b), w, id, items);
    OwnedStays(Next(Run(s2, b), StoreFresh(id)), c, w, id);
  }
}
