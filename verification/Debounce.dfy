/** The cancel-and-replace command table of the KiwiSDR client. Each request cancels the pending
    task of its name and schedules a new one; tasks, timers and cancellations interleave freely. */
module Debounce {
  import opened Options

  type TaskId = nat

  /** Created: scheduled, not started. Sleeping: waiting for its delay. Running: inside the command. */
  datatype Status = Created | Sleeping(wake: int) | Running | Finished

  /** `ran` records that the command was entered. */
  datatype Task = Task(name: string, delay: nat, requestedAt: int, status: Status, cancelled: bool, ran: bool)

  /** A disconnect in progress: the tasks still to cancel, and the one being awaited. */
  datatype Closing = Closing(left: set<TaskId>, awaiting: Option<TaskId>)

  /** Task ids are indices into `tasks`. `executed` lists the commands in the order they were
      entered; `orphans` are live tasks that a disconnect dropped from the table. */
  datatype State = State(now: int, tasks: seq<Task>, table: map<string, TaskId>,
                         closing: Option<Closing>, executed: seq<TaskId>, orphans: set<TaskId>)

  datatype Step =
    | Advance(d: nat)
    | Request(name: string, delay: nat)
    | Start(id: TaskId)
    | Fire(id: TaskId)
    | Finish(id: TaskId)
    | Abort(id: TaskId)
    | BeginDisconnect
    | CancelNext(id: TaskId)
    | EndDisconnect

  predicate Live(t: Task) {
    !t.cancelled && !t.status.Finished?
  }

  function Cancel(t: Task): Task {
    if t.status.Finished? then t else t.(cancelled := true)
  }

  function SetStatus(s: State, id: TaskId, status: Status): State
    requires id < |s.tasks|
  {
    s.(tasks := s.tasks[id := s.tasks[id].(status := status)])
  }

  /** The `finally` of a task: drop its table entry only if the entry is still its own. */
  function Cleanup(table: map<string, TaskId>, name: string, id: TaskId): map<string, TaskId> {
    if name in table && table[name] == id then map n | n in table && n != name :: table[n] else table
  }

  function EndTask(s: State, id: TaskId): State
    requires id < |s.tasks|
  {
    SetStatus(s, id, Finished).(table := Cleanup(s.table, s.tasks[id].name, id))
  }

  /** Cancel the task the table holds for `name`, if any. */
  function Superseded(tasks: seq<Task>, table: map<string, TaskId>, name: string): seq<Task> {
    if name in table && table[name] < |tasks| then tasks[table[name] := Cancel(tasks[table[name]])] else tasks
  }

  predicate Settled(s: State, c: Closing) {
    c.awaiting.None? || (c.awaiting.value < |s.tasks| && s.tasks[c.awaiting.value].status.Finished?)
  }

  /** One step; a step that is not enabled changes nothing. */
  function Next(s: State, step: Step): State {
    match step
    case Advance(d) => s.(now := s.now + d)
    case Request(name, delay) =>
      s.(tasks := Superseded(s.tasks, s.table, name) + [Task(name, delay, s.now, Created, false, false)],
         table := s.table[name := |s.tasks|])
    case Start(id) =>
      if id >= |s.tasks| || !s.tasks[id].status.Created? then s
      // A task cancelled before its first step never enters its body, nor its `finally`.
      else if s.tasks[id].cancelled then SetStatus(s, id, Finished)
      else SetStatus(s, id, Sleeping(s.now + s.tasks[id].delay))
    case Fire(id) =>
      if id >= |s.tasks| || !s.tasks[id].status.Sleeping? || s.tasks[id].cancelled || s.now < s.tasks[id].status.wake then s
      else s.(tasks := s.tasks[id := s.tasks[id].(status := Running, ran := true)], executed := s.executed + [id])
    case Finish(id) =>
      if id >= |s.tasks| || !s.tasks[id].status.Running? || s.tasks[id].cancelled then s
      else EndTask(s, id)
    case Abort(id) =>
      if id >= |s.tasks| || !s.tasks[id].cancelled || s.tasks[id].status.Created? || s.tasks[id].status.Finished? then s
      else EndTask(s, id)
    case BeginDisconnect =>
      if s.closing.Some? then s else s.(closing := Some(Closing(s.table.Values, None)))
    case CancelNext(id) =>
      if s.closing.None? || id !in s.closing.value.left || !Settled(s, s.closing.value) || id >= |s.tasks| then s
      else
        var rest := s.closing.value.left - {id};
        if s.tasks[id].status.Finished? then s.(closing := Some(Closing(rest, None)))
        else s.(tasks := s.tasks[id := Cancel(s.tasks[id])], closing := Some(Closing(rest, Some(id))))
    case EndDisconnect =>
      if s.closing.None? || s.closing.value.left != {} || !Settled(s, s.closing.value) then s
      else s.(closing := None, table := map[], orphans := s.orphans + LiveEntries(s))
  }

  /** Table entries whose task is neither cancelled nor finished. */
  function LiveEntries(s: State): set<TaskId> {
    set id | id in s.table.Values && id < |s.tasks| && Live(s.tasks[id])
  }

  function Init(now: int): State {
    State(now, [], map[], None, [], {})
  }

  function Run(s: State, steps: seq<Step>): State
    decreases steps
  {
    if steps == [] then s else Run(Next(s, steps[0]), steps[1..])
  }

  /** The time that passes during the steps. */
  function Elapsed(steps: seq<Step>): nat {
    if steps == [] then 0 else (if steps[0].Advance? then steps[0].d else 0) + Elapsed(steps[1..])
  }

  lemma {:induction false} ClockRuns(s: State, steps: seq<Step>)
    ensures Run(s, steps).now == s.now + Elapsed(steps)
    decreases steps
  {
    if steps != [] {
      ClockRuns(Next(s, steps[0]), steps[1..]);
    }
  }

  // ---------------------------------------------------------------------------
  // The invariant
  // ---------------------------------------------------------------------------

  /** The table maps a name to its most recent request. */
  ghost predicate TableInv(s: State) {
    forall n <- s.table ::
      && s.table[n] < |s.tasks| && s.tasks[s.table[n]].name == n
      && forall id | s.table[n] < id < |s.tasks| :: s.tasks[id].name != n
  }

  /** Every live task is the table's entry for its name, unless a disconnect orphaned it. */
  ghost predicate LiveInv(s: State) {
    forall id | 0 <= id < |s.tasks| && Live(s.tasks[id]) && id !in s.orphans ::
      s.tasks[id].name in s.table && s.table[s.tasks[id].name] == id
  }

  ghost predicate TimeInv(s: State) {
    forall id | 0 <= id < |s.tasks| ::
      var t := s.tasks[id];
      && t.requestedAt <= s.now
      && (t.status.Sleeping? ==> t.requestedAt + t.delay <= t.status.wake <= s.now + t.delay)
      && (t.ran ==> s.now >= t.requestedAt + t.delay)
      && (t.ran ==> !t.status.Created? && !t.status.Sleeping?)
      && (t.status.Running? ==> t.ran)
      && (t.status.Finished? && !t.cancelled ==> t.ran)
  }

  ghost predicate ExecutedInv(s: State) {
    forall id :: multiset(s.executed)[id] == if 0 <= id < |s.tasks| && s.tasks[id].ran then 1 else 0
  }

  ghost predicate Inv(s: State) {
    TableInv(s) && LiveInv(s) && TimeInv(s) && ExecutedInv(s)
  }

  /** Only a request adds a task or a table entry; no step renames a task. */
  lemma {:induction false} StepShape(s: State, step: Step)
    ensures var t := Next(s, step);
            && |t.tasks| == |s.tasks| + (if step.Request? then 1 else 0)
            && (forall id | 0 <= id < |s.tasks| :: t.tasks[id].name == s.tasks[id].name)
            && (!step.Request? ==> forall n <- t.table :: n in s.table && t.table[n] == s.table[n])
  {
  }

  lemma {:induction false} NextKeepsTable(s: State, step: Step)
    requires TableInv(s)
    ensures TableInv(Next(s, step))
  {
    StepShape(s, step);
    var t := Next(s, step);
    if step.Request? {
      assert t.table == s.table[step.name := |s.tasks|];
      assert t.tasks[|s.tasks|].name == step.name;
    }
    forall n | n in t.table
      ensures t.table[n] < |t.tasks| && t.tasks[t.table[n]].name == n
      ensures forall id | t.table[n] < id < |t.tasks| :: t.tasks[id].name != n
    {
    }
  }

  /** No step brings a task back to life. */
  lemma {:induction false} StepLiveness(s: State, step: Step)
    ensures var t := Next(s, step);
            forall id | 0 <= id < |s.tasks| && id < |t.tasks| && Live(t.tasks[id]) :: Live(s.tasks[id])
    ensures s.orphans <= Next(s, step).orphans
  {
  }

  /** The steps that may drop a live task's entry are only those of the task itself. */
  lemma {:induction false} StepKeepsEntry(s: State, step: Step, id: TaskId)
    requires !step.EndDisconnect?
    requires id < |s.tasks| && s.tasks[id].name in s.table && s.table[s.tasks[id].name] == id
    ensures var t := Next(s, step);
            id < |t.tasks| && (Live(t.tasks[id]) ==> t.tasks[id].name in t.table && t.table[t.tasks[id].name] == id)
  {
  }

  lemma {:induction false} NextKeepsLive(s: State, step: Step)
    requires TableInv(s) && LiveInv(s)
    ensures LiveInv(Next(s, step))
  {
    var t := Next(s, step);
    StepShape(s, step);
    StepLiveness(s, step);
    forall id | 0 <= id < |t.tasks| && Live(t.tasks[id]) && id !in t.orphans
      ensures t.tasks[id].name in t.table && t.table[t.tasks[id].name] == id
    {
      if id < |s.tasks| {
        if step.EndDisconnect? {
          assert s.table == t.table || id in LiveEntries(s);
        } else {
          StepKeepsEntry(s, step, id);
        }
      }
    }
  }

  lemma {:induction false} NextKeepsTime(s: State, step: Step)
    requires TimeInv(s)
    ensures TimeInv(Next(s, step))
  {
  }

  lemma {:induction false} FireKeepsExecuted(s: State, id: TaskId)
    requires TimeInv(s) && ExecutedInv(s)
    ensures ExecutedInv(Next(s, Fire(id)))
  {
    var t := Next(s, Fire(id));
    forall i ensures multiset(t.executed)[i] == if 0 <= i < |t.tasks| && t.tasks[i].ran then 1 else 0 {
      assert multiset(s.executed)[i] == if 0 <= i < |s.tasks| && s.tasks[i].ran then 1 else 0;
    }
  }

  lemma {:induction false} NextKeepsExecuted(s: State, step: Step)
    requires TimeInv(s) && ExecutedInv(s)
    ensures ExecutedInv(Next(s, step))
  {
    if step.Fire? {
      FireKeepsExecuted(s, step.id);
    } else {
      StepShape(s, step);
    }
  }

  lemma {:induction false} RunKeepsInv(s: State, steps: seq<Step>)
    requires Inv(s)
    ensures Inv(Run(s, steps))
    decreases steps
  {
    if steps != [] {
      NextKeepsTable(s, steps[0]);
      NextKeepsLive(s, steps[0]);
      NextKeepsTime(s, steps[0]);
      NextKeepsExecuted(s, steps[0]);
      RunKeepsInv(Next(s, steps[0]), steps[1..]);
    }
  }

  // ---------------------------------------------------------------------------
  // At most one live task per name
  // ---------------------------------------------------------------------------

  /** No request arrives while a disconnect is cancelling tasks. */
  ghost predicate Quiet(s: State, steps: seq<Step>)
    decreases steps
  {
    steps == [] ||
    ((s.closing.Some? ==> !steps[0].Request?) && Quiet(Next(s, steps[0]), steps[1..]))
  }

  /** During a disconnect that began with `base` tasks: an entry that is neither still to be
      cancelled nor dead belongs to a later request. */
  ghost predicate ClosingSince(s: State, base: nat) {
    s.closing.Some? ==> forall n <- s.table ::
      || s.table[n] >= base
      || s.table[n] in s.closing.value.left
      || (s.table[n] < |s.tasks| && !Live(s.tasks[s.table[n]]))
  }

  lemma {:induction false} CancelKeepsClosingSince(s: State, id: TaskId, base: nat)
    requires TableInv(s) && ClosingSince(s, base)
    ensures ClosingSince(Next(s, CancelNext(id)), base)
  {
  }

  lemma {:induction false} NextKeepsClosingSince(s: State, step: Step, base: nat)
    requires TableInv(s) && ClosingSince(s, base)
    requires step.Request? ==> s.closing.None? || base <= |s.tasks|
    ensures ClosingSince(Next(s, step), base)
  {
    if step.CancelNext? {
      CancelKeepsClosingSince(s, step.id, base);
    } else if s.closing.Some? {
      StepShape(s, step);
      StepLiveness(s, step);
    }
  }

  /** While a quiet disconnect is in progress, every table entry is either still to be cancelled
      or already cancelled or finished. */
  ghost predicate ClosingInv(s: State) {
    ClosingSince(s, |s.tasks|)
  }

  lemma {:induction false} NextKeepsClosing(s: State, step: Step)
    requires TableInv(s) && ClosingInv(s)
    requires s.closing.Some? ==> !step.Request?
    ensures ClosingInv(Next(s, step))
  {
    StepShape(s, step);
    NextKeepsClosingSince(s, step, |s.tasks|);
  }

  lemma {:induction false} QuietKeepsOrphans(s: State, step: Step)
    requires TableInv(s) && ClosingInv(s) && s.orphans == {}
    ensures Next(s, step).orphans == {}
  {
  }

  lemma {:induction false} QuietRunsHaveNoOrphans(s: State, steps: seq<Step>)
    requires Inv(s) && ClosingInv(s) && s.orphans == {} && Quiet(s, steps)
    ensures Run(s, steps).orphans == {}
    decreases steps
  {
    if steps != [] {
      NextKeepsClosing(s, steps[0]);
      QuietKeepsOrphans(s, steps[0]);
      RunKeepsInv(s, [steps[0]]);
      assert [steps[0]][1..] == [] && Run(s, [steps[0]]) == Next(s, steps[0]);
      QuietRunsHaveNoOrphans(Next(s, steps[0]), steps[1..]);
    }
  }

  /** In every interleaving of requests, timers, completions, cancellations and quiet disconnects,
      each name has at most one live task, and it is the one in the table. */
  lemma {:induction false} AtMostOneLiveTask(now: int, steps: seq<Step>, a: TaskId, b: TaskId)
    requires Quiet(Init(now), steps)
    requires var s := Run(Init(now), steps);
             && a < |s.tasks| && b < |s.tasks| && s.tasks[a].name == s.tasks[b].name
             && Live(s.tasks[a]) && Live(s.tasks[b])
    ensures a == b
    ensures var s := Run(Init(now), steps);
            s.tasks[a].name in s.table && s.table[s.tasks[a].name] == a
  {
    RunKeepsInv(Init(now), steps);
    QuietRunsHaveNoOrphans(Init(now), steps);
  }

  ghost predicate OneLivePerName(s: State) {
    forall a, b | 0 <= a < |s.tasks| && 0 <= b < |s.tasks| && Live(s.tasks[a]) && Live(s.tasks[b])
                  && s.tasks[a].name == s.tasks[b].name :: a == b
  }

  /** Every live task is the table's entry for its name. */
  ghost predicate Tabled(s: State) {
    forall id | 0 <= id < |s.tasks| && Live(s.tasks[id]) ::
      s.tasks[id].name in s.table && s.table[s.tasks[id].name] == id
  }

  lemma {:induction false} NextKeepsTabled(s: State, step: Step)
    requires TableInv(s) && ClosingInv(s) && Tabled(s)
    ensures Tabled(Next(s, step))
  {
    var t := Next(s, step);
    StepShape(s, step);
    StepLiveness(s, step);
    forall id | 0 <= id < |t.tasks| && Live(t.tasks[id])
      ensures t.tasks[id].name in t.table && t.table[t.tasks[id].name] == id
    {
      if id < |s.tasks| && !step.EndDisconnect? {
        StepKeepsEntry(s, step, id);
      }
    }
  }

  lemma {:induction false} QuietRunsKeepTabled(s: State, steps: seq<Step>)
    requires TableInv(s) && ClosingInv(s) && Tabled(s) && Quiet(s, steps)
    ensures Tabled(Run(s, steps))
    decreases steps
  {
    if steps != [] {
      NextKeepsTable(s, steps[0]);
      NextKeepsClosing(s, steps[0]);
      NextKeepsTabled(s, steps[0]);
      QuietRunsKeepTabled(Next(s, steps[0]), steps[1..]);
    }
  }

  /** A live task outside the table meets a second one at the next request of its name. */
  lemma {:induction false} UntabledMeetsNext(s: State, id: TaskId)
    requires TableInv(s) && id < |s.tasks| && Live(s.tasks[id])
    requires s.tasks[id].name !in s.table || s.table[s.tasks[id].name] != id
    requires s.closing.None?
    ensures var steps := [Request(s.tasks[id].name, 0)];
            Quiet(s, steps) && !OneLivePerName(Run(s, steps))
  {
    var steps := [Request(s.tasks[id].name, 0)];
    var t := Next(s, steps[0]);
    assert Live(t.tasks[id]) && Live(t.tasks[|s.tasks|]);
    assert steps[1..] == [] && Run(t, []) == t && Quiet(t, []);
    assert Run(s, steps) == Run(t, steps[1..]);
  }

  /** Exactly when debouncing works from now on: with no disconnect under way, every quiet
      continuation keeps one live task per name if and only if every live task is in the table. */
  lemma {:induction false} OneLiveTaskExactly(s: State)
    requires TableInv(s) && s.closing.None?
    ensures (forall steps | Quiet(s, steps) :: OneLivePerName(Run(s, steps))) <==> Tabled(s)
  {
    if Tabled(s) {
      forall steps | Quiet(s, steps) ensures OneLivePerName(Run(s, steps)) {
        QuietRunsKeepTabled(s, steps);
      }
    } else {
      var id :| 0 <= id < |s.tasks| && Live(s.tasks[id])
                && (s.tasks[id].name !in s.table || s.table[s.tasks[id].name] != id);
      UntabledMeetsNext(s, id);
    }
  }

  /** What a finished disconnect means for the future: every quiet continuation keeps one live task
      per name if and only if the table it cleared held no live task. */
  lemma {:induction false} DisconnectOrphansExactly(s: State)
    requires Inv(s) && s.orphans == {}
    requires s.closing.Some? && s.closing.value.left == {} && Settled(s, s.closing.value)
    ensures var t := Next(s, EndDisconnect);
            (forall steps | Quiet(t, steps) :: OneLivePerName(Run(t, steps)))
            <==> forall n <- s.table :: !Live(s.tasks[s.table[n]])
  {
    var t := Next(s, EndDisconnect);
    assert t.tasks == s.tasks && t.table == map[] && TableInv(t);
    OneLiveTaskExactly(t);
    if n :| n in s.table && Live(s.tasks[s.table[n]]) {
      assert Live(t.tasks[s.table[n]]);
    }
  }

  lemma {:induction false} RunKeepsClosingSince(s: State, steps: seq<Step>, base: nat)
    requires Inv(s) && s.closing.Some? && ClosingSince(s, base) && base <= |s.tasks|
    requires forall st <- steps :: !st.EndDisconnect?
    ensures var t := Run(s, steps);
            t.closing.Some? && ClosingSince(t, base) && Inv(t) && t.orphans == s.orphans
    decreases steps
  {
    if steps != [] {
      assert steps[0] in steps;
      StepShape(s, steps[0]);
      NextKeepsClosingSince(s, steps[0], base);
      RunKeepsInv(s, [steps[0]]);
      assert [steps[0]][1..] == [] && Run(s, [steps[0]]) == Next(s, steps[0]);
      RunKeepsClosingSince(Next(s, steps[0]), steps[1..], base);
    }
  }

  /** Over a whole disconnect, whatever interleaves with it: the tasks it leaves behind are exactly
      the live table entries of its last moment, and each was requested after it began. */
  lemma {:induction false} DisconnectMissesOnlyLateRequests(s: State, during: seq<Step>, id: TaskId)
    requires Inv(s) && s.closing.None? && forall st <- during :: !st.EndDisconnect?
    requires var t := Run(Next(s, BeginDisconnect), during);
             t.closing.Some? && t.closing.value.left == {} && Settled(t, t.closing.value)
    ensures var t := Run(Next(s, BeginDisconnect), during);
            && (id in Next(t, EndDisconnect).orphans <==> id in s.orphans || id in LiveEntries(t))
            && (id in LiveEntries(t) ==> id >= |s.tasks|)
  {
    var b := Next(s, BeginDisconnect);
    RunKeepsInv(s, [BeginDisconnect]);
    assert [BeginDisconnect][1..] == [] && Run(s, [BeginDisconnect]) == b;
    assert ClosingSince(b, |s.tasks|);
    RunKeepsClosingSince(b, during, |s.tasks|);
  }

  /** A request during a disconnect escapes it: its entry is cleared without being cancelled, and a
      later request of the same name then makes two live tasks. */
  lemma {:induction false} RequestDuringDisconnectEscapes(now: int)
    ensures var steps := [BeginDisconnect, Request("tune", 1), EndDisconnect, Request("tune", 1)];
            var s := Run(Init(now), steps);
            && !Quiet(Init(now), steps)
            && |s.tasks| == 2 && s.tasks[0].name == s.tasks[1].name
            && Live(s.tasks[0]) && Live(s.tasks[1])
  {
    var s0 := Init(now);
    var steps := [BeginDisconnect, Request("tune", 1), EndDisconnect, Request("tune", 1)];
    var s1 := Next(s0, steps[0]);
    assert s0.table.Values == {};
    assert s1 == s0.(closing := Some(Closing({}, None)));
    var s2 := Next(s1, steps[1]);
    var s3 := Next(s2, steps[2]);
    var s4 := Next(s3, steps[3]);
    var t := Task("tune", 1, now, Created, false, false);
    assert s2.tasks == [t] && s3.tasks == [t] && s3.table == map[] && s4.tasks == [t, t];
    assert steps[1..][0] == steps[1] && steps[1..][1..] == steps[2..];
    assert steps[2..][1..] == steps[3..] && steps[3..][1..] == [];
    assert Run(s0, steps) == Run(s1, steps[1..]) == Run(s2, steps[2..]) == Run(s3, steps[3..]) == s4;
    assert !Quiet(s1, steps[1..]);
  }

  // ---------------------------------------------------------------------------
  // Cleanup, superseding, and the last request
  // ---------------------------------------------------------------------------

  /** A task's end never removes the entry of another task. */
  lemma {:induction false} CleanupKeepsNewerEntries(s: State, id: TaskId, step: Step, n: string)
    requires TableInv(s) && n in s.table && id < |s.tasks|
    requires step == Start(id) || step == Finish(id) || step == Abort(id)
    requires s.table[n] != id
    ensures n in Next(s, step).table && Next(s, step).table[n] == s.table[n]
  {
  }

  ghost predicate NeverRuns(s: State, id: TaskId) {
    id < |s.tasks| && s.tasks[id].cancelled && !s.tasks[id].ran && !s.tasks[id].status.Running?
  }

  lemma {:induction false} CancelledStaysDead(s: State, id: TaskId, steps: seq<Step>)
    requires NeverRuns(s, id)
    ensures NeverRuns(Run(s, steps), id)
    decreases steps
  {
    if steps != [] {
      assert NeverRuns(Next(s, steps[0]), id);
      CancelledStaysDead(Next(s, steps[0]), id, steps[1..]);
    }
  }

  /** A request that is superseded before its delay ends never runs, whatever happens next. */
  lemma {:induction false} SupersededEarlyNeverRuns(now: int, before: seq<Step>, name: string, delay: nat, after: seq<Step>)
    requires var s := Run(Init(now), before);
             && name in s.table && s.table[name] < |s.tasks| && Live(s.tasks[s.table[name]])
             && s.now < s.tasks[s.table[name]].requestedAt + s.tasks[s.table[name]].delay
    ensures var s := Run(Init(now), before);
            NeverRuns(Run(Next(s, Request(name, delay)), after), s.table[name])
    ensures var s := Run(Init(now), before);
            s.table[name] !in Run(Next(s, Request(name, delay)), after).executed
  {
    var s := Run(Init(now), before);
    var previous := s.table[name];
    var t := Next(s, Request(name, delay));
    RunKeepsInv(Init(now), before);
    assert NeverRuns(t, previous);
    CancelledStaysDead(t, previous, after);
    NextKeepsTable(s, Request(name, delay));
    NextKeepsLive(s, Request(name, delay));
    NextKeepsTime(s, Request(name, delay));
    NextKeepsExecuted(s, Request(name, delay));
    RunKeepsInv(t, after);
    assert multiset(Run(t, after).executed)[previous] == 0;
  }

  /** The steps that neither request `name` again nor start disconnecting. */
  ghost predicate LeavesAlone(steps: seq<Step>, name: string) {
    forall st <- steps :: !st.BeginDisconnect? && (st.Request? ==> st.name != name)
  }

  ghost predicate Undisturbed(s: State, id: TaskId, name: string) {
    && s.closing.None?
    && id < |s.tasks| && s.tasks[id].name == name && !s.tasks[id].cancelled
    && (!s.tasks[id].status.Finished? ==> name in s.table && s.table[name] == id)
  }

  lemma {:induction false} UndisturbedStep(s: State, id: TaskId, name: string, step: Step)
    requires TableInv(s) && Undisturbed(s, id, name)
    requires !step.BeginDisconnect? && (step.Request? ==> step.name != name)
    ensures Undisturbed(Next(s, step), id, name)
  {
  }

  lemma {:induction false} UndisturbedRun(s: State, id: TaskId, name: string, steps: seq<Step>)
    requires Inv(s) && Undisturbed(s, id, name) && LeavesAlone(steps, name)
    ensures Inv(Run(s, steps)) && Undisturbed(Run(s, steps), id, name)
    decreases steps
  {
    RunKeepsInv(s, steps);
    if steps != [] {
      assert steps[0] in steps;
      UndisturbedStep(s, id, name, steps[0]);
      RunKeepsInv(s, [steps[0]]);
      assert [steps[0]][1..] == [] && Run(s, [steps[0]]) == Next(s, steps[0]);
      UndisturbedRun(Next(s, steps[0]), id, name, steps[1..]);
    }
  }

  /** The last request before a quiet period: once its task has ended it has run exactly once,
      and until then the task can always take its next step when its time has come. */
  lemma {:induction false} LastRequestRunsOnce(now: int, before: seq<Step>, name: string, delay: nat, after: seq<Step>)
    requires Run(Init(now), before).closing.None?
    requires LeavesAlone(after, name)
    ensures var s := Run(Init(now), before);
            var id := |s.tasks|;
            var t := Run(Next(s, Request(name, delay)), after);
            && id < |t.tasks|
            && multiset(t.executed)[id] <= 1
            && (t.tasks[id].status.Finished? ==> multiset(t.executed)[id] == 1)
            && (t.tasks[id].status.Created? ==> Next(t, Start(id)).tasks[id].status.Sleeping?)
            && (t.tasks[id].status.Sleeping? && t.now >= t.tasks[id].status.wake
                ==> multiset(Next(t, Fire(id)).executed)[id] == 1)
            && (t.tasks[id].status.Running? ==> Next(t, Finish(id)).tasks[id].status.Finished?)
  {
    var s := Run(Init(now), before);
    var id := |s.tasks|;
    var s' := Next(s, Request(name, delay));
    RunKeepsInv(Init(now), before);
    RunKeepsInv(s, [Request(name, delay)]);
    assert [Request(name, delay)][1..] == [] && Run(s, [Request(name, delay)]) == s';
    UndisturbedRun(s', id, name, after);
  }

  /** The task has started, and sleeps at most until `deadline`. */
  ghost predicate StartedBy(s: State, id: TaskId, deadline: int) {
    id < |s.tasks| && !s.tasks[id].status.Created? && (s.tasks[id].status.Sleeping? ==> s.tasks[id].status.wake <= deadline)
  }

  ghost predicate Entered(s: State, id: TaskId) {
    id < |s.tasks| && !s.tasks[id].status.Created? && !s.tasks[id].status.Sleeping?
  }

  lemma {:induction false} RunMovesOn(s: State, id: TaskId, deadline: int, steps: seq<Step>)
    requires id < |s.tasks|
    ensures id < |Run(s, steps).tasks| && Run(s, steps).tasks[id].delay == s.tasks[id].delay
    ensures StartedBy(s, id, deadline) ==> StartedBy(Run(s, steps), id, deadline)
    ensures Entered(s, id) ==> Entered(Run(s, steps), id)
    ensures s.tasks[id].status.Finished? ==> Run(s, steps).tasks[id].status.Finished?
    decreases steps
  {
    if steps != [] {
      RunMovesOn(Next(s, steps[0]), id, deadline, steps[1..]);
    }
  }

  /** Running, then one more step of the task's own, keeps what UndisturbedRun keeps. */
  lemma {:induction false} UndisturbedThen(s: State, id: TaskId, name: string, steps: seq<Step>, step: Step)
    requires Inv(s) && Undisturbed(s, id, name) && LeavesAlone(steps, name)
    requires step == Start(id) || step == Fire(id) || step == Finish(id)
    ensures var t := Next(Run(s, steps), step);
            Inv(t) && Undisturbed(t, id, name)
  {
    UndisturbedRun(s, id, name, steps);
    assert LeavesAlone([step], name);
    UndisturbedRun(Run(s, steps), id, name, [step]);
    assert [step][1..] == [] && Run(Run(s, steps), [step]) == Next(Run(s, steps), step);
  }

  lemma {:induction false} StartStage(s: State, id: TaskId, name: string, steps: seq<Step>)
    requires Inv(s) && Undisturbed(s, id, name) && LeavesAlone(steps, name)
    ensures var u := Run(s, steps);
            var t := Next(u, Start(id));
            Inv(t) && Undisturbed(t, id, name) && StartedBy(t, id, u.now + s.tasks[id].delay)
  {
    RunMovesOn(s, id, 0, steps);
    UndisturbedRun(s, id, name, steps);
    UndisturbedThen(s, id, name, steps, Start(id));
  }

  lemma {:induction false} FireStage(s: State, id: TaskId, name: string, deadline: int, steps: seq<Step>)
    requires Inv(s) && Undisturbed(s, id, name) && LeavesAlone(steps, name)
    requires StartedBy(s, id, deadline) && Run(s, steps).now >= deadline
    ensures var t := Next(Run(s, steps), Fire(id));
            Inv(t) && Undisturbed(t, id, name) && Entered(t, id)
  {
    RunMovesOn(s, id, deadline, steps);
    UndisturbedRun(s, id, name, steps);
    UndisturbedThen(s, id, name, steps, Fire(id));
  }

  lemma {:induction false} FinishStage(s: State, id: TaskId, name: string, steps: seq<Step>)
    requires Inv(s) && Undisturbed(s, id, name) && LeavesAlone(steps, name) && Entered(s, id)
    ensures var t := Next(Run(s, steps), Finish(id));
            Inv(t) && Undisturbed(t, id, name) && t.tasks[id].status.Finished?
  {
    RunMovesOn(s, id, 0, steps);
    UndisturbedRun(s, id, name, steps);
    UndisturbedThen(s, id, name, steps, Finish(id));
  }

  lemma {:induction false} FinishedHasRun(s: State, id: TaskId, name: string, steps: seq<Step>)
    requires Inv(s) && Undisturbed(s, id, name) && LeavesAlone(steps, name) && s.tasks[id].status.Finished?
    ensures var t := Run(s, steps);
            id < |t.tasks| && t.tasks[id].status.Finished? && multiset(t.executed)[id] == 1
  {
    RunMovesOn(s, id, 0, steps);
    UndisturbedRun(s, id, name, steps);
  }

  /** A fair schedule enters the command: the last request of a name, started at some point, woken
      once its delay has passed since, and left to finish, has run exactly once, whatever else
      happens in between. */
  lemma {:induction false} LastRequestCompletes(s: State, name: string, delay: nat, a: seq<Step>, b: seq<Step>, c: seq<Step>, d: seq<Step>)
    requires Inv(s) && s.closing.None?
    requires LeavesAlone(a, name) && LeavesAlone(b, name) && LeavesAlone(c, name) && LeavesAlone(d, name)
    requires Elapsed(b) >= delay
    ensures var id := |s.tasks|;
            var s1 := Run(Next(s, Request(name, delay)), a);
            var s2 := Run(Next(s1, Start(id)), b);
            var s3 := Run(Next(s2, Fire(id)), c);
            var s4 := Run(Next(s3, Finish(id)), d);
            && id < |s4.tasks| && s4.tasks[id].status.Finished? && multiset(s4.executed)[id] == 1
  {
    var id := |s.tasks|;
    var s0 := Next(s, Request(name, delay));
    RequestIsUndisturbed(s, name, delay);
    StartStage(s0, id, name, a);
    var s1 := Run(s0, a);
    ClockRuns(Next(s1, Start(id)), b);
    FireStage(Next(s1, Start(id)), id, name, s1.now + delay, b);
    var s2 := Run(Next(s1, Start(id)), b);
    FinishStage(Next(s2, Fire(id)), id, name, c);
    FinishedHasRun(Next(Run(Next(s2, Fire(id)), c), Finish(id)), id, name, d);
  }

  lemma {:induction false} RequestIsUndisturbed(s: State, name: string, delay: nat)
    requires Inv(s) && s.closing.None?
    ensures var t := Next(s, Request(name, delay));
            && Inv(t) && Undisturbed(t, |s.tasks|, name) && t.tasks[|s.tasks|].delay == delay
  {
    RunKeepsInv(s, [Request(name, delay)]);
    assert [Request(name, delay)][1..] == [];
    assert Run(s, [Request(name, delay)]) == Next(s, Request(name, delay));
  }

  // ---------------------------------------------------------------------------
  // The object
  // ---------------------------------------------------------------------------

  class CommandTable {
    var now: int
    var tasks: seq<Task>
    var commandTasks: map<string, TaskId>
    var closing: Option<Closing>
    ghost var executed: seq<TaskId>
    ghost var orphans: set<TaskId>

    ghost function View(): State
      reads this
    {
      State(now, tasks, commandTasks, closing, executed, orphans)
    }

    constructor (now: int)
      ensures View() == Init(now)
    {
      this.now, tasks, commandTasks, closing := now, [], map[], None;
      executed, orphans := [], {};
    }

    method DebounceCommand(name: string, delay: nat)
      requires TableInv(View())
      modifies this
      ensures View() == Next(old(View()), Request(name, delay)) && TableInv(View())
    {
      ghost var before := View();
      if name in commandTasks {
        var id := commandTasks[name];
        assert before.table[name] < |before.tasks|;
        if !tasks[id].status.Finished? {
          tasks := tasks[id := tasks[id].(cancelled := true)];
        }
      }
      tasks := tasks + [Task(name, delay, now, Created, false, false)];
      commandTasks := commandTasks[name := |tasks| - 1];
      NextKeepsTable(before, Request(name, delay));
    }

    /** The task wakes from its delay and enters the command. */
    method Wake(id: TaskId)
      requires id < |tasks| && tasks[id].status.Sleeping? && !tasks[id].cancelled && now >= tasks[id].status.wake
      modifies this
      ensures View() == Next(old(View()), Fire(id))
    {
      tasks := tasks[id := tasks[id].(status := Running, ran := true)];
      executed := executed + [id];
    }

    /** The `finally` block, after normal completion or cancellation. */
    method EndOf(id: TaskId)
      requires id < |tasks|
      requires tasks[id].status.Running? || (tasks[id].status.Sleeping? && tasks[id].cancelled)
      modifies this
      ensures View() == Next(old(View()), if old(tasks)[id].cancelled then Abort(id) else Finish(id))
    {
      var name := tasks[id].name;
      tasks := tasks[id := tasks[id].(status := Finished)];
      if name in commandTasks && commandTasks[name] == id {
        commandTasks := map n | n in commandTasks && n != name :: commandTasks[n];
      }
    }

    /** disconnect(): what happens before the first await, at each await, and after the last. */
    method StartDisconnect()
      requires closing.None?
      modifies this
      ensures View() == Next(old(View()), BeginDisconnect)
    {
      closing := Some(Closing(commandTasks.Values, None));
    }

    method CancelOne(id: TaskId)
      requires closing.Some? && id in closing.value.left && id < |tasks| && Settled(View(), closing.value)
      modifies this
      ensures View() == Next(old(View()), CancelNext(id))
    {
      var rest := closing.value.left - {id};
      if tasks[id].status.Finished? {
        closing := Some(Closing(rest, None));
      } else {
        tasks := tasks[id := tasks[id].(cancelled := true)];
        closing := Some(Closing(rest, Some(id)));
      }
    }

    method ClearTable()
      requires closing.Some? && closing.value.left == {} && Settled(View(), closing.value)
      modifies this
      ensures View() == Next(old(View()), EndDisconnect)
    {
      orphans := orphans + LiveEntries(View());
      commandTasks := map[];
      closing := None;
    }
  }
}
