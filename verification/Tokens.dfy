/** Operator accounts and the tokens issued to them: every interleaving of logins, password
    changes and activation changes. A token is the claims it carries; a stored password hash is
    the password it verifies. */
module Tokens {
  import opened Collections
  import opened Options

  type UserId = nat

  datatype Role = Viewer | Operator | Admin

  datatype User = User(role: Role, active: bool, password: string, pwv: nat)

  datatype Token = Token(user: UserId, pwv: nat, exp: int)

  /** A login whose row has been read (and whose password was right), and a token with the step
      number at which the row behind it was read. */
  datatype Login = Login(user: UserId, pwv: nat, readAt: nat)
  datatype Issued = Issued(token: Token, readAt: nat)

  /** A deactivation request: its caller was found to be an admin, its target's row was read and
      is an admin's, its target passed the checks, or it is over. */
  datatype Stage = Authorized | Counting | Checked | Over
  datatype Removal = Removal(target: UserId, stage: Stage)

  /** `names` is the unique index on usernames; `ticks` counts the steps taken. */
  datatype State = State(now: int, ticks: nat, lifetime: nat, names: map<string, UserId>, users: map<UserId, User>,
                         nextId: UserId, logins: seq<Login>, tokens: set<Issued>, removals: seq<Removal>)

  datatype Step =
    | Advance(d: nat)
    | FirstSetup(name: string, initial: string)
    | CreateUser(name: string, initial: string, newRole: Role)
    | LoginRead(name: string, attempt: string)
    | LoginIssue(k: nat)
    | Update(id: UserId, role: Option<Role>, active: Option<bool>, password: Option<string>)
    | RemovalStart(actor: UserId, target: UserId)
    | RemovalLookup(k: nat)
    | RemovalCount(k: nat)
    | RemovalCommit(k: nat)

  function AddUser(s: State, name: string, user: User): State {
    s.(names := s.names[name := s.nextId], users := s.users[s.nextId := user], nextId := s.nextId + 1)
  }

  /** The row a login with this name and password goes ahead with. */
  predicate MayLogIn(names: map<string, UserId>, users: map<UserId, User>, name: string, attempt: string) {
    name in names && names[name] in users && users[names[name]].password == attempt && users[names[name]].active
  }

  /** The row after an update: only the given columns change, and a new password bumps the version. */
  function Updated(u: User, role: Option<Role>, active: Option<bool>, password: Option<string>): User {
    User(if role.Some? then role.value else u.role,
         if active.Some? then active.value else u.active,
         if password.Some? then password.value else u.password,
         if password.Some? then u.pwv + 1 else u.pwv)
  }

  function ActiveAdmins(users: map<UserId, User>): set<UserId> {
    set id | id in users && users[id].role == Admin && users[id].active
  }

  function WithStage(s: State, k: nat, stage: Stage): State
    requires k < |s.removals|
  {
    s.(removals := s.removals[k := s.removals[k].(stage := stage)])
  }

  function Lookup(users: map<UserId, User>, target: UserId): Stage {
    if target !in users then Over else if users[target].role == Admin then Counting else Checked
  }

  /** One step; a step that is not enabled changes nothing. */
  function Apply(s: State, step: Step): State {
    match step
    case Advance(d) => s.(now := s.now + d)
    case FirstSetup(name, initial) =>
      if s.users == map[] then AddUser(s, name, User(Admin, true, initial, 0)) else s
    case CreateUser(name, initial, newRole) =>
      if name in s.names then s else AddUser(s, name, User(newRole, true, initial, 0))
    case LoginRead(name, attempt) =>
      if !MayLogIn(s.names, s.users, name, attempt) then s
      else s.(logins := s.logins + [Login(s.names[name], s.users[s.names[name]].pwv, s.ticks + 1)])
    case LoginIssue(k) =>
      if k >= |s.logins| then s
      else s.(tokens := s.tokens + {Issued(Token(s.logins[k].user, s.logins[k].pwv, s.now + s.lifetime), s.logins[k].readAt)})
    case Update(id, role, active, password) =>
      if id !in s.users then s
      else s.(users := s.users[id := Updated(s.users[id], role, active, password)])
    case RemovalStart(actor, target) =>
      if actor !in ActiveAdmins(s.users) || actor == target then s
      else s.(removals := s.removals + [Removal(target, Authorized)])
    case RemovalLookup(k) =>
      if k >= |s.removals| || s.removals[k].stage != Authorized then s
      else WithStage(s, k, Lookup(s.users, s.removals[k].target))
    case RemovalCount(k) =>
      if k >= |s.removals| || s.removals[k].stage != Counting then s
      else WithStage(s, k, if |ActiveAdmins(s.users)| > 1 then Checked else Over)
    case RemovalCommit(k) =>
      if k >= |s.removals| || s.removals[k].stage != Checked then s
      else
        var t := WithStage(s, k, Over);
        if s.removals[k].target !in s.users then t
        else t.(users := s.users[s.removals[k].target := s.users[s.removals[k].target].(active := false)])
  }

  function Next(s: State, step: Step): State {
    Apply(s, step).(ticks := s.ticks + 1)
  }

  function Init(now: int, lifetime: nat): State {
    State(now, 0, lifetime, map[], map[], 0, [], {}, [])
  }

  function Run(s: State, steps: seq<Step>): State
    decreases steps
  {
    if steps == [] then s else Next(Run(s, steps[..|steps| - 1]), steps[|steps| - 1])
  }

  /** authenticate_token: not expired, and the row says active with the token's version. */
  predicate Accepts(now: int, users: map<UserId, User>, t: Token) {
    now <= t.exp && t.user in users && users[t.user].active && t.pwv == users[t.user].pwv
  }

  // ---------------------------------------------------------------------------
  // Token validity over whole runs
  // ---------------------------------------------------------------------------

  predicate ChangesPassword(step: Step, u: UserId) {
    step.Update? && step.id == u && step.password.Some?
  }

  /** Some step since step number `from` set a new password for `u`. */
  ghost predicate ChangedSince(steps: seq<Step>, from: nat, u: UserId) {
    exists i :: from <= i < |steps| && ChangesPassword(steps[i], u)
  }

  /** A version read at step `at` is still the row's version exactly when no password change came since. */
  ghost predicate Tracks(users: map<UserId, User>, steps: seq<Step>, u: UserId, pwv: nat, at: nat) {
    u in users && at <= |steps| && pwv <= users[u].pwv && (pwv == users[u].pwv <==> !ChangedSince(steps, at, u))
  }

  ghost predicate Inv(s: State, steps: seq<Step>) {
    && s.ticks == |steps|
    && (forall l <- s.logins :: Tracks(s.users, steps, l.user, l.pwv, l.readAt))
    && (forall t <- s.tokens :: Tracks(s.users, steps, t.token.user, t.token.pwv, t.readAt))
    && (forall u <- s.users :: u < s.nextId)
  }

  lemma {:induction false} ChangedSnoc(steps: seq<Step>, step: Step, at: nat, u: UserId)
    requires at <= |steps|
    ensures ChangedSince(steps + [step], at, u) <==> ChangedSince(steps, at, u) || ChangesPassword(step, u)
  {
    var more := steps + [step];
    assert forall i | 0 <= i < |steps| :: more[i] == steps[i];
    if ChangesPassword(step, u) {
      assert ChangesPassword(more[|steps|], u);
    }
    if ChangedSince(steps, at, u) {
      var i :| at <= i < |steps| && ChangesPassword(steps[i], u);
      assert ChangesPassword(more[i], u);
    }
  }

  lemma {:induction false} NextUsers(s: State, step: Step, u: UserId)
    requires u in s.users && u < s.nextId
    ensures var t := Next(s, step);
            u in t.users && t.users[u].pwv == s.users[u].pwv + (if ChangesPassword(step, u) then 1 else 0)
  {
  }

  lemma {:induction false} NextTracks(s: State, step: Step, steps: seq<Step>, u: UserId, pwv: nat, at: nat)
    requires Tracks(s.users, steps, u, pwv, at) && u < s.nextId
    ensures Tracks(Next(s, step).users, steps + [step], u, pwv, at)
  {
    ChangedSnoc(steps, step, at, u);
    NextUsers(s, step, u);
  }

  /** A login or token not present before the step is the one it created. */
  lemma {:induction false} NextLogins(s: State, step: Step, l: Login)
    requires l in Next(s, step).logins && l !in s.logins
    ensures s.ticks + 1 == l.readAt && l.user in s.users && l.pwv == s.users[l.user].pwv && !step.Update?
    ensures Next(s, step).users == s.users
  {
  }

  lemma {:induction false} NextTokens(s: State, step: Step, t: Issued)
    requires t in Next(s, step).tokens && t !in s.tokens
    ensures Login(t.token.user, t.token.pwv, t.readAt) in s.logins
  {
  }

  lemma {:induction false} NextKeepsInv(s: State, step: Step, steps: seq<Step>)
    requires Inv(s, steps)
    ensures Inv(Next(s, step), steps + [step])
  {
    var t := Next(s, step);
    forall l <- t.logins ensures Tracks(t.users, steps + [step], l.user, l.pwv, l.readAt) {
      if l in s.logins {
        NextTracks(s, step, steps, l.user, l.pwv, l.readAt);
      } else {
        NextLogins(s, step, l);
      }
    }
    forall i <- t.tokens ensures Tracks(t.users, steps + [step], i.token.user, i.token.pwv, i.readAt) {
      if i !in s.tokens {
        NextTokens(s, step, i);
      }
      NextTracks(s, step, steps, i.token.user, i.token.pwv, i.readAt);
    }
  }

  lemma {:induction false} RunKeepsInv(now: int, lifetime: nat, steps: seq<Step>)
    ensures Inv(Run(Init(now, lifetime), steps), steps)
    decreases steps
  {
    if steps != [] {
      var before := steps[..|steps| - 1];
      RunKeepsInv(now, lifetime, before);
      NextKeepsInv(Run(Init(now, lifetime), before), steps[|steps| - 1], before);
      assert before + [steps[|steps| - 1]] == steps;
    }
  }

  /** After any run, a token is accepted if and only if it has not expired, its user is active, and
      no password change of that user came since its login read the user's row. */
  lemma {:induction false} TokenValidity(now: int, lifetime: nat, steps: seq<Step>, t: Issued)
    requires t in Run(Init(now, lifetime), steps).tokens
    ensures var s := Run(Init(now, lifetime), steps);
            && t.token.user in s.users
            && (Accepts(s.now, s.users, t.token) <==>
                  && s.now <= t.token.exp && s.users[t.token.user].active
                  && !ChangedSince(steps, t.readAt, t.token.user))
  {
    RunKeepsInv(now, lifetime, steps);
  }

  /** A password change kills the tokens of the logins that read the row before it, also those
      still to be issued, for every continuation of the run. */
  lemma {:induction false} InvalidatedForever(now: int, lifetime: nat, steps: seq<Step>, more: seq<Step>, t: Issued)
    requires t in Run(Init(now, lifetime), steps + more).tokens
    requires ChangedSince(steps, t.readAt, t.token.user)
    ensures var s := Run(Init(now, lifetime), steps + more);
            !Accepts(s.now, s.users, t.token)
  {
    var i :| t.readAt <= i < |steps| && ChangesPassword(steps[i], t.token.user);
    assert ChangesPassword((steps + more)[i], t.token.user);
    TokenValidity(now, lifetime, steps + more, t);
  }

  /** Deactivation, unlike a password change, is undone: an accepted token is rejected while its
      user is inactive, and accepted again after reactivation, until it expires. */
  lemma {:induction false} ReactivationRevives(s: State, t: Token, d: nat)
    requires Accepts(s.now, s.users, t)
    ensures var off := Next(s, Update(t.user, None, Some(false), None));
            var on := Next(Next(off, Advance(d)), Update(t.user, None, Some(true), None));
            && !Accepts(off.now, off.users, t)
            && (Accepts(on.now, on.users, t) <==> s.now + d <= t.exp)
  {
  }

  // ---------------------------------------------------------------------------
  // The last active admin
  // ---------------------------------------------------------------------------

  /** A deactivation whose lookup, count and update are adjacent leaves an active admin, however
      stale its caller's authorization. */
  lemma {:induction false} UninterruptedRemovalKeepsAdmin(s: State, k: nat)
    requires k < |s.removals| && s.removals[k].stage == Authorized
    requires ActiveAdmins(s.users) != {}
    ensures ActiveAdmins(Next(Next(Next(s, RemovalLookup(k)), RemovalCount(k)), RemovalCommit(k)).users) != {}
  {
    var target := s.removals[k].target;
    var t := Next(Next(Next(s, RemovalLookup(k)), RemovalCount(k)), RemovalCommit(k));
    var admins := ActiveAdmins(s.users);
    if target in s.users && (s.users[target].role == Admin ==> |admins| > 1) {
      assert target in admins ==> |admins| > 1;
      var a := OtherMember(admins, target);
      assert a in ActiveAdmins(t.users);
    } else {
      assert t.users == s.users;
    }
  }

  /** Run start to end at once, the admin count never saves an active admin, because the caller is
      one: it refuses exactly the second deactivation of an inactive admin by the only active one. */
  lemma {:induction false} CountRefusesExactly(s: State, actor: UserId, target: UserId)
    requires actor in ActiveAdmins(s.users) && actor != target && target in s.users
    ensures (Lookup(s.users, target) == Counting && |ActiveAdmins(s.users)| <= 1) <==>
            s.users[target].role == Admin && !s.users[target].active && ActiveAdmins(s.users) == {actor}
  {
    var admins := ActiveAdmins(s.users);
    if admins == {actor} {
      assert target !in admins;
    } else {
      var b :| b in admins && b != actor;
      assert {actor, b} <= admins;
      SubsetSize({actor, b}, admins);
    }
  }

  // ---------------------------------------------------------------------------
  // Two admins deactivating each other
  // ---------------------------------------------------------------------------

  /** Where in a run the three statements of the two requests stand. */
  datatype Plan = Plan(lookup: nat, count: nat, commit: nat, lookup': nat, count': nat, commit': nat)

  function Swap(p: Plan): Plan {
    Plan(p.lookup', p.count', p.commit', p.lookup, p.count, p.commit)
  }

  ghost predicate Concerns(step: Step, j: nat) {
    step == RemovalLookup(j) || step == RemovalCount(j) || step == RemovalCommit(j)
  }

  /** Request `j` makes its three statements once each, in order, at the places of the plan. */
  ghost predicate Follows(steps: seq<Step>, p: Plan, j: nat) {
    && p.lookup < p.count < p.commit < |steps|
    && steps[p.lookup] == RemovalLookup(j) && steps[p.count] == RemovalCount(j) && steps[p.commit] == RemovalCommit(j)
    && forall i | 0 <= i < |steps| && Concerns(steps[i], j) :: i == p.lookup || i == p.count || i == p.commit
  }

  /** No other step of the run changes who is an active admin. */
  ghost predicate OthersKeepAdmins(s: State, steps: seq<Step>, j: nat, k: nat) {
    forall i | 0 <= i < |steps| && !Concerns(steps[i], j) && !Concerns(steps[i], k) ::
      ActiveAdmins(Next(Run(s, steps[..i]), steps[i]).users) == ActiveAdmins(Run(s, steps[..i]).users)
  }

  /** The two requests before they read anything. */
  ghost predicate Facing(s: State, a: UserId, b: UserId, j: nat, k: nat) {
    && a != b && j != k && ActiveAdmins(s.users) == {a, b}
    && j < |s.removals| && s.removals[j] == Removal(a, Authorized)
    && k < |s.removals| && s.removals[k] == Removal(b, Authorized)
  }

  /** Whether the first request counts before the second one commits. */
  predicate CountsInTime(p: Plan) {
    p.count < p.commit'
  }

  function StageAt(p: Plan, n: nat): Stage {
    if n <= p.lookup then Authorized
    else if n <= p.count then Counting
    else if CountsInTime(p) && n <= p.commit then Checked
    else Over
  }

  predicate Gone(p: Plan, n: nat) {
    CountsInTime(p) && n > p.commit
  }

  ghost predicate RaceAt(t: State, p: Plan, n: nat, a: UserId, b: UserId, j: nat, k: nat) {
    && j < |t.removals| && t.removals[j] == Removal(a, StageAt(p, n))
    && k < |t.removals| && t.removals[k] == Removal(b, StageAt(Swap(p), n))
    && (forall u :: u in ActiveAdmins(t.users) <==> (u == a && !Gone(p, n)) || (u == b && !Gone(Swap(p), n)))
  }

  /** The order of positions that two plans in one run always have. */
  ghost predicate Apart(p: Plan) {
    && p.lookup < p.count < p.commit && p.lookup' < p.count' < p.commit'
    && {p.lookup, p.count, p.commit} !! {p.lookup', p.count', p.commit'}
  }

  lemma {:induction false} RaceOwnStep(t: State, p: Plan, n: nat, a: UserId, b: UserId, j: nat, k: nat, step: Step)
    requires a != b && j != k && Apart(p) && RaceAt(t, p, n, a, b, j, k)
    requires (n == p.lookup && step == RemovalLookup(j)) || (n == p.count && step == RemovalCount(j))
             || (n == p.commit && step == RemovalCommit(j))
    ensures RaceAt(Next(t, step), p, n + 1, a, b, j, k)
  {
    var admins := ActiveAdmins(t.users);
    assert a in admins && !Gone(p, n);
    assert n !in {p.lookup', p.count', p.commit'};
    assert Gone(Swap(p), n) <==> Gone(Swap(p), n + 1);
    if n == p.count {
      if Gone(Swap(p), n) {
        assert admins == {a};
      } else {
        assert admins == {a, b};
      }
    } else if n == p.commit && CountsInTime(p) {
      assert ActiveAdmins(Next(t, step).users) == admins - {a};
    }
  }

  lemma {:induction false} RaceOtherStep(t: State, p: Plan, n: nat, a: UserId, b: UserId, j: nat, k: nat, step: Step)
    requires RaceAt(t, p, n, a, b, j, k) && !Concerns(step, j) && !Concerns(step, k)
    requires n !in {p.lookup, p.count, p.commit, p.lookup', p.count', p.commit'}
    requires ActiveAdmins(Next(t, step).users) == ActiveAdmins(t.users)
    ensures RaceAt(Next(t, step), p, n + 1, a, b, j, k)
  {
  }

  lemma {:induction false} SwapRace(t: State, p: Plan, n: nat, a: UserId, b: UserId, j: nat, k: nat)
    ensures RaceAt(t, p, n, a, b, j, k) <==> RaceAt(t, Swap(p), n, b, a, k, j)
    ensures Apart(p) <==> Apart(Swap(p))
  {
  }

  lemma {:induction false} PlansApart(steps: seq<Step>, p: Plan, j: nat, k: nat)
    requires j != k && Follows(steps, p, j) && Follows(steps, Swap(p), k)
    ensures Apart(p)
  {
  }

  lemma {:induction false} RunPrefix(s: State, steps: seq<Step>, n: nat)
    requires n < |steps|
    ensures Run(s, steps[..n + 1]) == Next(Run(s, steps[..n]), steps[n])
  {
    assert steps[..n + 1][..n] == steps[..n];
  }

  lemma {:induction false} RaceRun(s: State, steps: seq<Step>, p: Plan, n: nat, a: UserId, b: UserId, j: nat, k: nat)
    requires Facing(s, a, b, j, k) && Follows(steps, p, j) && Follows(steps, Swap(p), k)
    requires OthersKeepAdmins(s, steps, j, k) && n <= |steps|
    ensures RaceAt(Run(s, steps[..n]), p, n, a, b, j, k)
    decreases n
  {
    if n > 0 {
      var m := n - 1;
      var t := Run(s, steps[..m]);
      RaceRun(s, steps, p, m, a, b, j, k);
      RunPrefix(s, steps, m);
      PlansApart(steps, p, j, k);
      if Concerns(steps[m], j) {
        RaceOwnStep(t, p, m, a, b, j, k, steps[m]);
      } else if Concerns(steps[m], k) {
        SwapRace(t, p, m, a, b, j, k);
        RaceOwnStep(t, Swap(p), m, b, a, k, j, steps[m]);
        SwapRace(Next(t, steps[m]), p, n, a, b, j, k);
      } else {
        RaceOtherStep(t, p, m, a, b, j, k, steps[m]);
      }
    }
  }

  /** Two admins deactivate each other, in any order of their statements and with any steps in between
      that leave the set of active admins alone: no active admin is left if and only if each of them
      counts before the other one commits. */
  lemma {:induction false} RaceExactly(s: State, steps: seq<Step>, p: Plan, a: UserId, b: UserId, j: nat, k: nat)
    requires Facing(s, a, b, j, k) && Follows(steps, p, j) && Follows(steps, Swap(p), k)
    requires OthersKeepAdmins(s, steps, j, k)
    ensures ActiveAdmins(Run(s, steps).users) == {} <==> p.count < p.commit' && p.count' < p.commit
  {
    RaceRun(s, steps, p, |steps|, a, b, j, k);
    assert steps[..|steps|] == steps;
    var t := Run(s, steps);
    assert a in ActiveAdmins(t.users) <==> !Gone(p, |steps|);
    assert b in ActiveAdmins(t.users) <==> !Gone(Swap(p), |steps|);
  }

  lemma {:induction false} RunConcat(s: State, a: seq<Step>, b: seq<Step>)
    ensures Run(s, a + b) == Run(Run(s, a), b)
    decreases b
  {
    if b == [] {
      assert a + b == a;
    } else {
      assert (a + b)[..|a + b| - 1] == a + b[..|b| - 1];
      RunConcat(s, a, b[..|b| - 1]);
    }
  }

  /** Two accounts, each an admin's, whose owners set out to deactivate each other. */
  function Opening(): seq<Step> {
    [FirstSetup("a", "p")] + [CreateUser("b", "q", Admin)] + [RemovalStart(0, 1)] + [RemovalStart(1, 0)]
  }

  lemma {:induction false} RunOne(s: State, steps: seq<Step>, step: Step)
    ensures Run(s, steps + [step]) == Next(Run(s, steps), step)
  {
    assert (steps + [step])[..|steps|] == steps;
  }

  lemma {:induction false} OpeningFaces(now: int, lifetime: nat)
    ensures Facing(Run(Init(now, lifetime), Opening()), 1, 0, 0, 1)
  {
    var s0 := Init(now, lifetime);
    RunOne(s0, [], FirstSetup("a", "p"));
    assert [] + [FirstSetup("a", "p")] == [FirstSetup("a", "p")];
    RunOne(s0, [FirstSetup("a", "p")], CreateUser("b", "q", Admin));
    RunOne(s0, [FirstSetup("a", "p")] + [CreateUser("b", "q", Admin)], RemovalStart(0, 1));
    RunOne(s0, [FirstSetup("a", "p")] + [CreateUser("b", "q", Admin)] + [RemovalStart(0, 1)], RemovalStart(1, 0));
    var u := map[0 := User(Admin, true, "p", 0), 1 := User(Admin, true, "q", 0)];
    assert Run(s0, [FirstSetup("a", "p")] + [CreateUser("b", "q", Admin)]).users == u;
    assert ActiveAdmins(u) == {0, 1};
  }

  /** So the guard can fail: a run from the empty table that ends without an active admin. */
  lemma {:induction false} RacingRemovalsLeaveNoAdmin(now: int, lifetime: nat)
    ensures var race := [RemovalLookup(0), RemovalLookup(1), RemovalCount(0), RemovalCount(1), RemovalCommit(0), RemovalCommit(1)];
            ActiveAdmins(Run(Init(now, lifetime), Opening() + race).users) == {}
  {
    var race := [RemovalLookup(0), RemovalLookup(1), RemovalCount(0), RemovalCount(1), RemovalCommit(0), RemovalCommit(1)];
    var s := Run(Init(now, lifetime), Opening());
    OpeningFaces(now, lifetime);
    RunConcat(Init(now, lifetime), Opening(), race);
    RaceExactly(s, race, Plan(0, 2, 4, 1, 3, 5), 1, 0, 0, 1);
  }

  // ---------------------------------------------------------------------------
  // Any number of admins and requests
  // ---------------------------------------------------------------------------

  /** Some admin is active, and each removal about to commit leaves another one. */
  ghost predicate AdminSafe(s: State) {
    && ActiveAdmins(s.users) != {}
    && (forall u <- s.users :: u < s.nextId)
    && forall k | 0 <= k < |s.removals| && s.removals[k].stage == Checked :: Spares(s, s.removals[k].target)
  }

  ghost predicate Spares(s: State, target: UserId) {
    exists a :: a in ActiveAdmins(s.users) && a != target
  }

  /** A step that takes away an active admin comes while no other removal is between its checks and
      its commit, and an update among them leaves one. */
  ghost predicate Careful(s: State, step: Step) {
    var before, after := ActiveAdmins(s.users), ActiveAdmins(Next(s, step).users);
    !(before <= after) ==>
      && (step.Update? ==> after != {})
      && forall k | 0 <= k < |s.removals| && s.removals[k].stage == Checked :: step == RemovalCommit(k)
  }

  lemma {:induction false} OnlyTwoStepsShrink(s: State, step: Step)
    requires (forall u <- s.users :: u < s.nextId) && !step.Update? && !step.RemovalCommit?
    ensures ActiveAdmins(s.users) <= ActiveAdmins(Next(s, step).users)
  {
  }

  /** What a step that is no commit does to the removals: it may check one. */
  lemma {:induction false} NewlyChecked(s: State, step: Step, k: nat)
    requires AdminSafe(s) && k < |Next(s, step).removals| && Next(s, step).removals[k].stage == Checked
    requires !step.Update? && !step.RemovalCommit?
    ensures Spares(s, Next(s, step).removals[k].target)
  {
    var target := Next(s, step).removals[k].target;
    if k < |s.removals| && s.removals[k].stage == Checked {
      assert Spares(s, s.removals[k].target);
    } else {
      var a := OtherMember(ActiveAdmins(s.users), target);
      assert Spares(s, target);
    }
  }

  lemma {:induction false} CommitKeepsAdminSafe(s: State, k: nat)
    requires AdminSafe(s) && Careful(s, RemovalCommit(k))
    ensures AdminSafe(Next(s, RemovalCommit(k)))
  {
    var t := Next(s, RemovalCommit(k));
    if k < |s.removals| && s.removals[k].stage == Checked {
      var target := s.removals[k].target;
      assert Spares(s, target);
      var a :| a in ActiveAdmins(s.users) && a != target;
      assert a in ActiveAdmins(t.users);
      forall i | 0 <= i < |t.removals| && t.removals[i].stage == Checked ensures Spares(t, t.removals[i].target) {
        assert i != k && s.removals[i] == t.removals[i] && Spares(s, s.removals[i].target);
        SparesGrows(s, t, s.removals[i].target);
      }
    }
  }

  lemma {:induction false} SparesGrows(s: State, t: State, target: UserId)
    requires Spares(s, target) && ActiveAdmins(s.users) <= ActiveAdmins(t.users)
    ensures Spares(t, target)
  {
    var a :| a in ActiveAdmins(s.users) && a != target;
    assert a in ActiveAdmins(t.users);
  }

  lemma {:induction false} NextKeepsAdminSafe(s: State, step: Step)
    requires AdminSafe(s) && Careful(s, step)
    ensures AdminSafe(Next(s, step))
  {
    var t := Next(s, step);
    if step.RemovalCommit? {
      CommitKeepsAdminSafe(s, step.k);
    } else if step.Update? {
      forall k | 0 <= k < |t.removals| && t.removals[k].stage == Checked ensures Spares(t, t.removals[k].target) {
        assert Spares(s, s.removals[k].target);
        SparesGrows(s, t, s.removals[k].target);
      }
    } else {
      OnlyTwoStepsShrink(s, step);
      forall k | 0 <= k < |t.removals| && t.removals[k].stage == Checked ensures Spares(t, t.removals[k].target) {
        NewlyChecked(s, step, k);
        SparesGrows(s, t, t.removals[k].target);
      }
    }
  }

  /** With any number of admins and of requests in flight: an active admin remains over every run in
      which nothing takes one away between another request's checks and its commit, and no update
      takes away the last one. */
  lemma {:induction false} CarefulRunKeepsAdmin(s: State, steps: seq<Step>)
    requires AdminSafe(s) && forall i | 0 <= i < |steps| :: Careful(Run(s, steps[..i]), steps[i])
    ensures AdminSafe(Run(s, steps)) && ActiveAdmins(Run(s, steps).users) != {}
    decreases steps
  {
    if steps != [] {
      var n := |steps| - 1;
      var init := steps[..n];
      forall i | 0 <= i < n ensures Careful(Run(s, init[..i]), init[i]) {
        assert init[..i] == steps[..i];
        assert Careful(Run(s, steps[..i]), steps[i]);
      }
      CarefulRunKeepsAdmin(s, init);
      assert Careful(Run(s, steps[..n]), steps[n]);
      NextKeepsAdminSafe(Run(s, init), steps[n]);
    }
  }

  /** An update is not guarded at all: it leaves no active admin exactly when it demotes or deactivates
      the only one. */
  lemma {:induction false} UpdateStripsExactly(s: State, id: UserId, role: Option<Role>, active: Option<bool>, password: Option<string>)
    requires ActiveAdmins(s.users) != {}
    ensures ActiveAdmins(Next(s, Update(id, role, active, password)).users) == {} <==>
            ActiveAdmins(s.users) == {id} && (active == Some(false) || (role.Some? && role.value != Admin))
  {
    var before, t := ActiveAdmins(s.users), Next(s, Update(id, role, active, password));
    assert forall u | u != id :: u in ActiveAdmins(t.users) <==> u in before;
    if before == {id} {
      assert id in before;
      assert id in ActiveAdmins(t.users) <==> !(active == Some(false) || (role.Some? && role.value != Admin));
      assert ActiveAdmins(t.users) <= {id};
    } else {
      var a :| a in before && a != id;
      assert a in ActiveAdmins(t.users);
    }
  }

  lemma {:induction false} UpdateRemovesLastAdmin(now: int, lifetime: nat)
    ensures ActiveAdmins(Run(Init(now, lifetime), [FirstSetup("a", "p")] + [Update(0, None, Some(false), None)]).users) == {}
  {
    var s0 := Init(now, lifetime);
    RunOne(s0, [], FirstSetup("a", "p"));
    assert [] + [FirstSetup("a", "p")] == [FirstSetup("a", "p")];
    var s1 := Run(s0, [FirstSetup("a", "p")]);
    assert s1.users == map[0 := User(Admin, true, "p", 0)] && ActiveAdmins(s1.users) == {0};
    RunOne(s0, [FirstSetup("a", "p")], Update(0, None, Some(false), None));
    UpdateStripsExactly(s1, 0, None, Some(false), None);
  }

  // ---------------------------------------------------------------------------
  // Creating an account in two statements
  // ---------------------------------------------------------------------------

  /** The step gives the name to a new account. */
  predicate Takes(s: State, step: Step, name: string) {
    || (step.CreateUser? && step.name == name)
    || (step.FirstSetup? && step.name == name && s.users == map[])
  }

  /** Step number `i` of the run gives the name away. */
  ghost predicate TakenAt(s: State, steps: seq<Step>, i: int, name: string) {
    0 <= i < |steps| && Takes(Run(s, steps[..i]), steps[i], name)
  }

  lemma {:induction false} NextTakes(s: State, step: Step, name: string)
    ensures name in Next(s, step).names <==> name in s.names || Takes(s, step, name)
  {
  }

  lemma {:induction false} TakenInPrefix(s: State, steps: seq<Step>, i: int, name: string)
    requires steps != [] && i < |steps| - 1
    ensures TakenAt(s, steps, i, name) <==> TakenAt(s, steps[..|steps| - 1], i, name)
  {
    if 0 <= i {
      assert steps[..|steps| - 1][..i] == steps[..i];
    }
  }

  lemma {:induction false} NameTakenSince(s: State, steps: seq<Step>, name: string)
    requires name !in s.names
    ensures name in Run(s, steps).names <==> exists i :: TakenAt(s, steps, i, name)
    decreases steps
  {
    if steps != [] {
      var n := |steps| - 1;
      NameTakenSince(s, steps[..n], name);
      NextTakes(Run(s, steps[..n]), steps[n], name);
      assert TakenAt(s, steps, n, name) <==> Takes(Run(s, steps[..n]), steps[n], name);
      forall i | i < n ensures TakenAt(s, steps, i, name) <==> TakenAt(s, steps[..n], i, name) {
        TakenInPrefix(s, steps, i, name);
      }
      if i :| TakenAt(s, steps[..n], i, name) {
        assert TakenAt(s, steps, i, name);
      }
    }
  }

  /** A name found free by the check is refused by the insert, after whatever steps came in between,
      if and only if one of them took it; otherwise the insert creates the one account of that name. */
  lemma {:induction false} InsertRefusedExactly(s: State, steps: seq<Step>, name: string, initial: string, newRole: Role)
    requires name !in s.names
    ensures var t := Run(s, steps);
            var u := Next(t, CreateUser(name, initial, newRole));
            && (u.users == t.users && u.names == t.names && u.nextId == t.nextId
                <==> exists i :: TakenAt(s, steps, i, name))
            && (name !in t.names ==> u.names == t.names[name := t.nextId] && u.users[t.nextId] == User(newRole, true, initial, 0))
  {
    NameTakenSince(s, steps, name);
  }

  // ---------------------------------------------------------------------------
  // The object
  // ---------------------------------------------------------------------------

  datatype LoginResult = Unauthorized | Disabled | Row(user: UserId, pwv: nat)

  datatype UpdateResult = UserNotFound | NoFields | Changed(user: User)

  datatype LookupResult = TargetNotFound | IsAdmin | IsOther

  /** The users table, with the requests in flight and the tokens issued as specification state. */
  class UserStore {
    var now: int
    const lifetime: nat
    var names: map<string, UserId>
    var users: map<UserId, User>
    var nextId: UserId
    ghost var ticks: nat
    ghost var logins: seq<Login>
    ghost var tokens: set<Issued>
    ghost var removals: seq<Removal>

    ghost function View(): State
      reads this
    {
      State(now, ticks, lifetime, names, users, nextId, logins, tokens, removals)
    }

    constructor (now: int, lifetime: nat)
      ensures View() == Init(now, lifetime)
    {
      this.now, this.lifetime := now, lifetime;
      names, users, nextId, ticks, logins, tokens, removals := map[], map[], 0, 0, [], {}, [];
    }

    /** first_setup; false stands for the 404 answer once there are users. */
    method Setup(name: string, initial: string) returns (created: bool)
      modifies this
      ensures View() == Next(old(View()), FirstSetup(name, initial))
      ensures created <==> old(users) == map[]
    {
      created := users == map[];
      if created {
        names, users, nextId := names[name := nextId], users[nextId := User(Admin, true, initial, 0)], nextId + 1;
      }
      ticks := ticks + 1;
    }

    /** create_user, first statement: whether the name is taken (the 409 answer). */
    method NameTaken(name: string) returns (taken: bool)
      ensures taken <==> name in names
    {
      taken := name in names;
    }

    /** create_user, second statement: the insert, which the unique index refuses for a name that was
        taken in the meantime. */
    method Insert(name: string, initial: string, newRole: Role) returns (inserted: bool)
      modifies this
      ensures View() == Next(old(View()), CreateUser(name, initial, newRole))
      ensures inserted <==> name !in old(names)
    {
      inserted := name !in names;
      if inserted {
        names, users, nextId := names[name := nextId], users[nextId := User(newRole, true, initial, 0)], nextId + 1;
      }
      ticks := ticks + 1;
    }

    /** login up to the checks on the row it read: 401, 403, or the claims to sign. */
    method ReadLogin(name: string, attempt: string) returns (r: LoginResult)
      requires name in names ==> names[name] in users
      modifies this
      ensures View() == Next(old(View()), LoginRead(name, attempt))
      ensures r.Unauthorized? <==> name !in names || users[names[name]].password != attempt
      ensures r.Disabled? <==> name in names && users[names[name]].password == attempt && !users[names[name]].active
      ensures r.Row? ==> logins == old(logins) + [Login(r.user, r.pwv, old(ticks) + 1)]
      ensures r.Row? ==> r.user == names[name] && r.pwv == users[r.user].pwv
    {
      if name !in names || users[names[name]].password != attempt {
        r := Unauthorized;
      } else if !users[names[name]].active {
        r := Disabled;
      } else {
        r := Row(names[name], users[names[name]].pwv);
        logins := logins + [Login(r.user, r.pwv, ticks + 1)];
      }
      ticks := ticks + 1;
    }

    /** The rest of login: the claims become a token. */
    method IssueToken(user: UserId, pwv: nat, ghost k: nat) returns (t: Token)
      requires k < |logins| && logins[k].user == user && logins[k].pwv == pwv
      modifies this
      ensures View() == Next(old(View()), LoginIssue(k))
      ensures Issued(t, logins[k].readAt) in tokens && t.exp == now + lifetime
    {
      t := Token(user, pwv, now + lifetime);
      tokens := tokens + {Issued(t, logins[k].readAt)};
      ticks := ticks + 1;
    }

    /** update_user: the columns to set are collected one by one, then written at once. */
    method UpdateUser(id: UserId, role: Option<Role>, active: Option<bool>, password: Option<string>) returns (r: UpdateResult)
      modifies this
      ensures View() == Next(old(View()), Update(id, role, active, password))
      ensures r.UserNotFound? <==> id !in old(users)
      ensures r.NoFields? <==> id in old(users) && role.None? && active.None? && password.None?
      ensures r.Changed? ==> id in users && r.user == users[id]
    {
      ticks := ticks + 1;
      if id !in users {
        return UserNotFound;
      }
      var row := users[id];
      var clauses := 0;
      if role.Some? {
        row, clauses := row.(role := role.value), clauses + 1;
      }
      if active.Some? {
        row, clauses := row.(active := active.value), clauses + 1;
      }
      if password.Some? {
        row, clauses := row.(password := password.value, pwv := row.pwv + 1), clauses + 2;
      }
      if clauses == 0 {
        assert users == users[id := Updated(users[id], role, active, password)];
        return NoFields;
      }
      users := users[id := row];
      r := Changed(row);
    }

    /** deactivate_user for an authorized caller: the target's row. */
    method LookUpTarget(ghost k: nat, target: UserId) returns (r: LookupResult)
      requires k < |removals| && removals[k] == Removal(target, Authorized)
      modifies this
      ensures View() == Next(old(View()), RemovalLookup(k))
      ensures r == TargetNotFound <==> target !in users
      ensures r == IsAdmin <==> target in users && users[target].role == Admin
    {
      ticks := ticks + 1;
      if target !in users {
        r := TargetNotFound;
      } else if users[target].role == Admin {
        r := IsAdmin;
      } else {
        r := IsOther;
      }
      removals := removals[k := Removal(target, if r == IsAdmin then Counting else if r == IsOther then Checked else Over)];
    }

    /** The count of active admins; false stands for the 400 answer. */
    method CountAdmins(ghost k: nat, ghost target: UserId) returns (allowed: bool)
      requires k < |removals| && removals[k] == Removal(target, Counting)
      modifies this
      ensures View() == Next(old(View()), RemovalCount(k))
      ensures allowed <==> removals[k].stage == Checked
    {
      ticks := ticks + 1;
      allowed := |ActiveAdmins(users)| > 1;
      removals := removals[k := Removal(target, if allowed then Checked else Over)];
    }

    /** The UPDATE of deactivate_user. */
    method CommitRemoval(ghost k: nat, target: UserId)
      requires k < |removals| && removals[k] == Removal(target, Checked)
      modifies this
      ensures View() == Next(old(View()), RemovalCommit(k))
    {
      if target in users {
        users := users[target := users[target].(active := false)];
      }
      removals := removals[k := Removal(target, Over)];
      ticks := ticks + 1;
    }

    /** authenticate_token, after the signature. */
    method Authenticate(t: Token) returns (ok: bool)
      ensures ok <==> Accepts(now, users, t)
    {
      if now > t.exp || t.user !in users || !users[t.user].active {
        return false;
      }
      ok := t.pwv == users[t.user].pwv;
    }
  }
}
