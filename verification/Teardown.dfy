/** A disconnect of the KiwiSDR client comes to an end and leaves no task of its table running. */
module Teardown {
  import opened Collections
  import opened Options
  import opened Debounce

  /** What a disconnect in progress knows about the tasks it waits for. */
  ghost predicate Closes(s: State) {
    s.closing.Some? ==>
      var c := s.closing.value;
      && (forall id <- c.left :: id < |s.tasks|)
      && (c.awaiting.Some? ==> c.awaiting.value < |s.tasks|
                               && (s.tasks[c.awaiting.value].cancelled || s.tasks[c.awaiting.value].status.Finished?))
  }

  /** The step a disconnect is waiting for: the awaited task taking in its cancellation, or else the
      cancellation of a next task, or else the end. */
  predicate Furthers(s: State, step: Step)
    requires s.closing.Some?
  {
    var c := s.closing.value;
    if !Settled(s, c) then step == Start(c.awaiting.value) || step == Abort(c.awaiting.value)
    else if c.left != {} then step.CancelNext? && step.id in c.left
    else step == EndDisconnect
  }

  /** Whether the step is enabled, so that the event loop will take it. */
  predicate Enabled(s: State, step: Step) {
    Next(s, step) != s
  }

  /** What is still to do: two steps per task to cancel, one for a task being awaited. */
  function ToDo(s: State): nat
    requires s.closing.Some?
  {
    2 * |s.closing.value.left| + if Settled(s, s.closing.value) then 0 else 1
  }

  /** A cancelled task takes in its cancellation at its next step, whatever it was doing: before its
      first step it just ends, and later its `finally` runs, which drops no entry but its own. */
  lemma {:induction false} CancellationEndsTask(s: State, id: TaskId)
    requires id < |s.tasks| && s.tasks[id].cancelled && !s.tasks[id].status.Finished?
    ensures var step := if s.tasks[id].status.Created? then Start(id) else Abort(id);
            var t := Next(s, step);
            && id < |t.tasks| && t.tasks[id].status.Finished? && t.executed == s.executed
            && (forall n :: n in t.table <==> n in s.table && (s.tasks[id].status.Created? || n != s.tasks[id].name || s.table[n] != id))
            && (forall n <- t.table :: t.table[n] == s.table[n])
  {
  }

  /** There is no other way for it to end: it neither enters its command nor completes it, and its
      `finally` runs only if it was started. A task that has ended never changes again. */
  lemma {:induction false} TasksEndOneWay(s: State, id: TaskId, step: Step)
    requires id < |s.tasks|
    ensures s.tasks[id].cancelled ==> Next(s, Fire(id)) == s == Next(s, Finish(id))
    ensures !s.tasks[id].cancelled || s.tasks[id].status.Created? ==> Next(s, Abort(id)) == s
    ensures s.tasks[id].status.Finished? ==> Next(s, step).tasks[id] == s.tasks[id]
  {
  }

  /** A disconnect is never stuck: some step that furthers it is enabled. */
  lemma {:induction false} DisconnectCanGoOn(s: State) returns (step: Step)
    requires s.closing.Some? && Closes(s)
    ensures Furthers(s, step) && Enabled(s, step)
  {
    var c := s.closing.value;
    if !Settled(s, c) {
      var id := c.awaiting.value;
      step := if s.tasks[id].status.Created? then Start(id) else Abort(id);
      CancellationEndsTask(s, id);
    } else if c.left != {} {
      var id := Choose(c.left);
      step := CancelNext(id);
      assert id !in c.left - {id};
    } else {
      step := EndDisconnect;
    }
  }

  /** Each step that furthers it takes something off what is to do, or ends it. */
  lemma {:induction false} FurtheringHelps(s: State, step: Step)
    requires s.closing.Some? && Closes(s) && Furthers(s, step) && Enabled(s, step)
    ensures var t := Next(s, step);
            if t.closing.Some? then Closes(t) && ToDo(t) < ToDo(s)
            else t.table == map[] && s.closing.value.left == {} && Settled(s, s.closing.value)
  {
    var c := s.closing.value;
    if Settled(s, c) && c.left != {} {
      assert |c.left - {step.id}| == |c.left| - 1;
    }
  }

  /** No other step adds to it, whatever is requested, started, woken or finished in between. */
  lemma {:induction false} OthersDoNotHinder(s: State, step: Step)
    requires s.closing.Some? && Closes(s)
    ensures var t := Next(s, step);
            if t.closing.Some? then Closes(t) && ToDo(t) <= ToDo(s)
            else t.table == map[] && s.closing.value.left == {} && Settled(s, s.closing.value)
  {
    var c := s.closing.value;
    if step.CancelNext? && step.id in c.left {
      assert |c.left - {step.id}| == |c.left| - 1;
    }
  }

  /** How many of the steps further the disconnect, until it ends. */
  function Furthering(s: State, steps: seq<Step>): nat
    decreases steps
  {
    if steps == [] || s.closing.None? then 0
    else (if Furthers(s, steps[0]) && Enabled(s, steps[0]) then 1 else 0) + Furthering(Next(s, steps[0]), steps[1..])
  }

  /** The disconnect is over after some of the steps. */
  predicate Ends(s: State, steps: seq<Step>)
    decreases steps
  {
    s.closing.None? || (steps != [] && Ends(Next(s, steps[0]), steps[1..]))
  }

  lemma {:induction false} EndsWhenFurthered(s: State, steps: seq<Step>)
    requires s.closing.Some? && Closes(s) && Furthering(s, steps) > ToDo(s)
    ensures Ends(s, steps)
    decreases steps
  {
    OthersDoNotHinder(s, steps[0]);
    var t := Next(s, steps[0]);
    if t.closing.Some? {
      if Furthers(s, steps[0]) && Enabled(s, steps[0]) {
        FurtheringHelps(s, steps[0]);
      }
      EndsWhenFurthered(t, steps[1..]);
    }
  }

  /** A disconnect ends: whatever interleaves with it, it is over once the event loop has taken more
      than two furthering steps for each task that was in the table when it began. */
  lemma {:induction false} DisconnectEnds(s: State, steps: seq<Step>)
    requires TableInv(s) && s.closing.None?
    requires Furthering(Next(s, BeginDisconnect), steps) > 2 * |s.table.Values|
    ensures Ends(Next(s, BeginDisconnect), steps)
  {
    var b := Next(s, BeginDisconnect);
    forall id | id in b.closing.value.left ensures id < |b.tasks| {
      var n :| n in s.table && s.table[n] == id;
    }
    EndsWhenFurthered(b, steps);
  }

  /** The tasks are on the disconnect's list, being awaited, or finished. */
  ghost predicate Handled(s: State, ids: set<TaskId>) {
    s.closing.Some? && forall id <- ids ::
      id in s.closing.value.left || s.closing.value.awaiting == Some(id) || (id < |s.tasks| && s.tasks[id].status.Finished?)
  }

  lemma {:induction false} RunHandles(s: State, steps: seq<Step>, ids: set<TaskId>)
    requires Handled(s, ids) && forall st <- steps :: !st.EndDisconnect?
    ensures Handled(Run(s, steps), ids)
    decreases steps
  {
    if steps != [] {
      assert steps[0] in steps && forall st <- steps[1..] :: st in steps;
      assert Handled(Next(s, steps[0]), ids);
      RunHandles(Next(s, steps[0]), steps[1..], ids);
    }
  }

  /** When it is over, every task that was in the table when it began has finished. */
  lemma {:induction false} DisconnectFinishesTasks(s: State, during: seq<Step>, n: string)
    requires TableInv(s) && s.closing.None? && n in s.table && forall st <- during :: !st.EndDisconnect?
    requires var t := Run(Next(s, BeginDisconnect), during);
             t.closing.Some? && t.closing.value.left == {} && Settled(t, t.closing.value)
    ensures var t := Next(Run(Next(s, BeginDisconnect), during), EndDisconnect);
            && t.closing.None? && t.table == map[]
            && s.table[n] < |t.tasks| && t.tasks[s.table[n]].status.Finished?
  {
    var b := Next(s, BeginDisconnect);
    assert s.table[n] in s.table.Values;
    assert Handled(b, s.table.Values);
    RunHandles(b, during, s.table.Values);
  }
}
