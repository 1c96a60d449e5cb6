/** The history of accounts told from the steps of a run: who may log in, how long a token lives, and
    who may be deactivated. */
module Accounts {
  import opened Collections
  import opened Options
  import opened Tokens

  // ---------------------------------------------------------------------------
  // The columns of a row are what the updates last set
  // ---------------------------------------------------------------------------

  /** The password last set for `id`. */
  function LastPassword(steps: seq<Step>, id: UserId, initial: string): string {
    if steps == [] then initial
    else
      var last := steps[|steps| - 1];
      if last.Update? && last.id == id && last.password.Some? then last.password.value
      else LastPassword(steps[..|steps| - 1], id, initial)
  }

  function LastRole(steps: seq<Step>, id: UserId, initial: Role): Role {
    if steps == [] then initial
    else
      var last := steps[|steps| - 1];
      if last.Update? && last.id == id && last.role.Some? then last.role.value
      else LastRole(steps[..|steps| - 1], id, initial)
  }

  /** Whether `id` is active when nobody is deactivated by a removal. */
  function LastActive(steps: seq<Step>, id: UserId, initial: bool): bool {
    if steps == [] then initial
    else
      var last := steps[|steps| - 1];
      if last.Update? && last.id == id && last.active.Some? then last.active.value
      else LastActive(steps[..|steps| - 1], id, initial)
  }

  function PasswordChanges(steps: seq<Step>, id: UserId): nat {
    if steps == [] then 0
    else PasswordChanges(steps[..|steps| - 1], id) + if ChangesPassword(steps[|steps| - 1], id) then 1 else 0
  }

  /** No user has an id still to be given out, and every name leads to a user. */
  ghost predicate Consistent(s: State) {
    && (forall u <- s.users :: u < s.nextId)
    && (forall n <- s.names :: s.names[n] in s.users)
  }

  lemma {:induction false} NextKeepsConsistent(s: State, step: Step)
    requires Consistent(s)
    ensures Consistent(Next(s, step))
    ensures forall n <- s.names :: n in Next(s, step).names && Next(s, step).names[n] == s.names[n]
  {
  }

  /** Whether the step is the UPDATE of a removal of `id`. */
  predicate Deactivates(s: State, step: Step, id: UserId) {
    step.RemovalCommit? && step.k < |s.removals| && s.removals[step.k] == Removal(id, Checked)
  }

  /** A row changes in two ways only: an update of it, and the deactivation it is the target of. */
  lemma {:induction false} NextRow(s: State, step: Step, id: UserId)
    requires Consistent(s) && id in s.users
    ensures id in Next(s, step).users
    ensures var u, v := s.users[id], Next(s, step).users[id];
            && v.role == LastRole([step], id, u.role)
            && v.password == LastPassword([step], id, u.password)
            && v.pwv == u.pwv + PasswordChanges([step], id)
            && v.active == (!Deactivates(s, step, id) && LastActive([step], id, u.active))
  {
    assert [step][..0] == [];
    assert LastPassword([], id, s.users[id].password) == s.users[id].password;
    assert LastRole([], id, s.users[id].role) == s.users[id].role;
    assert LastActive([], id, s.users[id].active) == s.users[id].active;
    assert PasswordChanges([], id) == 0;
  }

  /** Over every run the row of an account is what the updates last set, its version counts the
      password changes, and without removals its owner is active as last set. */
  lemma {:induction false} RowHistory(s: State, steps: seq<Step>, id: UserId)
    requires Consistent(s) && id in s.users
    ensures Consistent(Run(s, steps)) && id in Run(s, steps).users
    ensures var u, v := s.users[id], Run(s, steps).users[id];
            && v.role == LastRole(steps, id, u.role)
            && v.password == LastPassword(steps, id, u.password)
            && v.pwv == u.pwv + PasswordChanges(steps, id)
            && ((forall st <- steps :: !st.RemovalCommit?) ==> v.active == LastActive(steps, id, u.active))
    decreases steps
  {
    if steps != [] {
      var init, last := steps[..|steps| - 1], steps[|steps| - 1];
      assert steps == init + [last];
      RowHistory(s, init, id);
      NextKeepsConsistent(Run(s, init), last);
      NextRow(Run(s, init), last, id);
      assert [last][..0] == [];
    }
  }

  lemma {:induction false} NamesStay(s: State, steps: seq<Step>, name: string)
    requires Consistent(s) && name in s.names
    ensures Consistent(Run(s, steps))
    ensures name in Run(s, steps).names && Run(s, steps).names[name] == s.names[name]
    decreases steps
  {
    if steps != [] {
      var init := steps[..|steps| - 1];
      NamesStay(s, init, name);
      NextKeepsConsistent(Run(s, init), steps[|steps| - 1]);
    }
  }

  // ---------------------------------------------------------------------------
  // Logging in
  // ---------------------------------------------------------------------------

  /** A login goes ahead for the name of an active account and the password of its row, and then hands
      on that row's id and version; otherwise it leaves no trace. */
  lemma {:induction false} LoginReadExactly(s: State, name: string, attempt: string)
    ensures var t := Next(s, LoginRead(name, attempt));
            && (t.logins != s.logins <==>
                  && name in s.names && s.names[name] in s.users
                  && s.users[s.names[name]].active && s.users[s.names[name]].password == attempt)
            && (t.logins != s.logins ==>
                  t.logins == s.logins + [Login(s.names[name], s.users[s.names[name]].pwv, s.ticks + 1)])
            && t == s.(logins := t.logins, ticks := s.ticks + 1)
  {
  }

  /** After any run, a login as an account that exists goes ahead if and only if the account is active
      and the attempt is the last password the steps set for it, or else its first one. */
  lemma {:induction false} LoginExactly(s: State, steps: seq<Step>, name: string, attempt: string)
    requires Consistent(s) && name in s.names
    ensures var id, t := s.names[name], Run(s, steps);
            && id in t.users
            && (Next(t, LoginRead(name, attempt)).logins != t.logins <==>
                  t.users[id].active && attempt == LastPassword(steps, id, s.users[id].password))
  {
    NamesStay(s, steps, name);
    RowHistory(s, steps, s.names[name]);
    LoginReadExactly(Run(s, steps), name, attempt);
  }

  /** The accounts there are come from the two ways of creating one: the first admin of an empty table,
      and any role under a free name. Both start active, at version 0, with the password given. */
  lemma {:induction false} CreatedExactly(s: State, name: string, initial: string, newRole: Role)
    requires Consistent(s)
    ensures var t := Next(s, FirstSetup(name, initial));
            if s.users == map[] then name in t.names && t.names[name] in t.users
                                     && t.users[t.names[name]] == User(Admin, true, initial, 0)
            else t.users == s.users && t.names == s.names
    ensures var t := Next(s, CreateUser(name, initial, newRole));
            if name !in s.names then name in t.names && t.names[name] !in s.users && t.names[name] in t.users
                                     && t.users[t.names[name]] == User(newRole, true, initial, 0)
            else t.users == s.users && t.names == s.names
    ensures Consistent(Init(s.now, s.lifetime))
  {
  }

  // ---------------------------------------------------------------------------
  // The life of a token
  // ---------------------------------------------------------------------------

  lemma {:induction false} LoginsStay(s: State, steps: seq<Step>, k: nat)
    requires k < |s.logins|
    ensures k < |Run(s, steps).logins| && Run(s, steps).logins[k] == s.logins[k]
    decreases steps
  {
    if steps != [] {
      LoginsStay(s, steps[..|steps| - 1], k);
    }
  }

  lemma {:induction false} TokensStay(s: State, steps: seq<Step>, t: Issued)
    requires t in s.tokens
    ensures t in Run(s, steps).tokens
    decreases steps
  {
    if steps != [] {
      TokensStay(s, steps[..|steps| - 1], t);
    }
  }

  lemma {:induction false} LifetimeStays(s: State, steps: seq<Step>)
    ensures Run(s, steps).lifetime == s.lifetime
    decreases steps
  {
    if steps != [] {
      LifetimeStays(s, steps[..|steps| - 1]);
    }
  }

  /** The time that passes during the steps. */
  function Elapsed(steps: seq<Step>): nat {
    if steps == [] then 0
    else Elapsed(steps[..|steps| - 1]) + if steps[|steps| - 1].Advance? then steps[|steps| - 1].d else 0
  }

  lemma {:induction false} ClockRuns(s: State, steps: seq<Step>)
    ensures Run(s, steps).now == s.now + Elapsed(steps)
    decreases steps
  {
    if steps != [] {
      ClockRuns(s, steps[..|steps| - 1]);
    }
  }

  /** A token signed now is kept, and accepted later exactly within its lifetime, for an active user
      whose row still has its version. */
  lemma {:induction false} SignedToken(s: State, k: nat, after: seq<Step>)
    requires k < |s.logins|
    ensures var l := s.logins[k];
            var t := Run(Next(s, LoginIssue(k)), after);
            var token := Token(l.user, l.pwv, s.now + s.lifetime);
            && Issued(token, l.readAt) in t.tokens
            && (Accepts(t.now, t.users, token) <==>
                  Elapsed(after) <= s.lifetime && l.user in t.users && t.users[l.user].active && t.users[l.user].pwv == l.pwv)
  {
    var l := s.logins[k];
    var t := Next(s, LoginIssue(k));
    assert Issued(Token(l.user, l.pwv, s.now + s.lifetime), l.readAt) in t.tokens;
    TokensStay(t, after, Issued(Token(l.user, l.pwv, s.now + s.lifetime), l.readAt));
    ClockRuns(t, after);
  }

  /** Some steps after a login read its row; and some steps after a token was signed. */
  function AfterLogin(s: State, name: string, attempt: string, between: seq<Step>): State {
    Run(Next(s, LoginRead(name, attempt)), between)
  }

  function AfterSigning(s: State, k: nat, after: seq<Step>): State {
    Run(Next(s, LoginIssue(k)), after)
  }

  lemma {:induction false} RowAfterSigning(s: State, k: nat, after: seq<Step>, id: UserId)
    requires Consistent(s) && id in s.users
    ensures var t := AfterSigning(s, k, after);
            id in t.users && t.users[id].pwv == s.users[id].pwv + PasswordChanges(after, id)
  {
    var t := Next(s, LoginIssue(k));
    assert t.users == s.users && Consistent(t);
    RowHistory(t, after, id);
  }

  lemma {:induction false} LoginPersists(s: State, name: string, attempt: string, between: seq<Step>)
    requires Consistent(s) && name in s.names
    requires s.users[s.names[name]].active && s.users[s.names[name]].password == attempt
    ensures var id, t := s.names[name], AfterLogin(s, name, attempt, between);
            && Consistent(t) && t.lifetime == s.lifetime && id in t.users
            && t.users[id].pwv == s.users[id].pwv + PasswordChanges(between, id)
            && |s.logins| < |t.logins| && t.logins[|s.logins|] == Login(id, s.users[id].pwv, s.ticks + 1)
  {
    var t := Next(s, LoginRead(name, attempt));
    LoginReadExactly(s, name, attempt);
    LoginsStay(t, between, |s.logins|);
    LifetimeStays(t, between);
    RowHistory(t, between, s.names[name]);
  }

  /** A token works: whatever happens between reading the row, signing the token, and using it, the
      token that comes out of a successful login is accepted if and only if no more than its lifetime
      has passed since it was signed, its user is active by then, and no password change came in
      between. */
  lemma {:induction false} LoginWorks(s: State, name: string, attempt: string, between: seq<Step>, after: seq<Step>)
    requires Consistent(s) && name in s.names
    requires s.users[s.names[name]].active && s.users[s.names[name]].password == attempt
    ensures var id := s.names[name];
            var t2 := AfterLogin(s, name, attempt, between);
            var t4 := AfterSigning(t2, |s.logins|, after);
            var token := Token(id, s.users[id].pwv, t2.now + s.lifetime);
            && Issued(token, s.ticks + 1) in t4.tokens && id in t4.users
            && (Accepts(t4.now, t4.users, token) <==>
                  && Elapsed(after) <= s.lifetime && t4.users[id].active
                  && PasswordChanges(between, id) + PasswordChanges(after, id) == 0)
  {
    LoginPersists(s, name, attempt, between);
    RowAfterSigning(AfterLogin(s, name, attempt, between), |s.logins|, after, s.names[name]);
    SignedToken(AfterLogin(s, name, attempt, between), |s.logins|, after);
  }

  // ---------------------------------------------------------------------------
  // Who is deactivated
  // ---------------------------------------------------------------------------

  function Rank(stage: Stage): nat {
    match stage
    case Authorized => 0
    case Counting => 1
    case Checked => 2
    case Over => 3
  }

  /** A request only moves on, so each of its statements takes effect at most once, and a request that
      is over stays over; its target never changes. */
  lemma {:induction false} RequestMovesOn(s: State, step: Step, k: nat)
    requires k < |s.removals|
    ensures var t := Next(s, step);
            && k < |t.removals| && t.removals[k].target == s.removals[k].target
            && (t.removals[k].stage != s.removals[k].stage ==>
                  Rank(t.removals[k].stage) > Rank(s.removals[k].stage)
                  && (step == RemovalLookup(k) || step == RemovalCount(k) || step == RemovalCommit(k)))
  {
  }

  /** Step number `i` opens a request against `target` on behalf of another active admin. */
  ghost predicate RequestedAt(s: State, steps: seq<Step>, i: int, target: UserId) {
    && 0 <= i < |steps| && steps[i].RemovalStart? && steps[i].target == target && steps[i].actor != target
    && steps[i].actor in Run(s, steps[..i]).users
    && Run(s, steps[..i]).users[steps[i].actor].active && Run(s, steps[..i]).users[steps[i].actor].role == Admin
  }

  lemma {:induction false} NewRequest(s: State, step: Step, k: nat)
    requires |s.removals| <= k < |Next(s, step).removals|
    ensures step.RemovalStart? && Next(s, step).removals[k].target == step.target && step.actor != step.target
    ensures step.actor in s.users && s.users[step.actor].active && s.users[step.actor].role == Admin
  {
    assert step.actor in ActiveAdmins(s.users);
  }

  lemma {:induction false} RequestedEarlier(s: State, steps: seq<Step>, i: int, target: UserId)
    requires steps != [] && RequestedAt(s, steps[..|steps| - 1], i, target)
    ensures RequestedAt(s, steps, i, target)
  {
    assert steps[..|steps| - 1][..i] == steps[..i];
  }

  lemma {:induction false} EveryRequestAuthorized(s: State, steps: seq<Step>, k: nat)
    requires s.removals == [] && k < |Run(s, steps).removals|
    ensures exists i :: RequestedAt(s, steps, i, Run(s, steps).removals[k].target)
    decreases steps
  {
    assert steps != [];
    var n := |steps| - 1;
    var t := Run(s, steps[..n]);
    if k < |t.removals| {
      EveryRequestAuthorized(s, steps[..n], k);
      RequestMovesOn(t, steps[n], k);
      var i :| RequestedAt(s, steps[..n], i, t.removals[k].target);
      RequestedEarlier(s, steps, i, t.removals[k].target);
    } else {
      NewRequest(t, steps[n], k);
      assert RequestedAt(s, steps, n, steps[n].target);
    }
  }

  /** Over every run, whoever a removal deactivates was named in a request that another active admin
      made earlier in the run; nobody deactivates himself that way. */
  lemma {:induction false} DeactivationsAreAuthorized(s: State, steps: seq<Step>, step: Step, id: UserId)
    requires s.removals == [] && Consistent(s)
    requires id in Run(s, steps).users && Run(s, steps).users[id].active && !step.Update?
    requires !Next(Run(s, steps), step).users[id].active
    ensures exists i :: RequestedAt(s, steps, i, id)
  {
    var t := Run(s, steps);
    RunKeepsConsistent(s, steps);
    NextRow(t, step, id);
    assert LastActive([step], id, true) by {
      assert [step][..0] == [];
    }
    EveryRequestAuthorized(s, steps, step.k);
  }

  lemma {:induction false} RunKeepsConsistent(s: State, steps: seq<Step>)
    requires Consistent(s)
    ensures Consistent(Run(s, steps))
    decreases steps
  {
    if steps != [] {
      RunKeepsConsistent(s, steps[..|steps| - 1]);
      NextKeepsConsistent(Run(s, steps[..|steps| - 1]), steps[|steps| - 1]);
    }
  }
}
