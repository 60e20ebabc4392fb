/** What the admin lock and the operations under it get done: every lock row has an owner, an owner's release frees the
    row, a free or stale row can be taken, and an operation that goes through changes exactly what it names. */
module AdminProgress {
  import opened AdminUsers
  import opened AdminLock
  import opened Results

  // ---------- every row is explained ----------

  /** The caller holds the lock with this token, be its process alive or crashed. */
  predicate IsOwner(s: State, c: Caller, t: nat) {
    c in s.callers && Inside(s.callers[c]) && s.callers[c].token == t
  }

  /** A call of c that could leave the row behind failed: the insert that took the lock, or the release. */
  predicate LeftBehind(s: State, step: Step, t: nat) {
    step.Fail? && step.c in s.callers &&
    match s.callers[step.c]
    case Inserting(_, _, lockedAt) => step.landed && lockedAt == t
    case Releasing(token) => token == t
    case _ => false
  }

  ghost predicate Explained(states: seq<State>, steps: seq<Step>, i: nat, t: nat)
    requires |states| == |steps| + 1 && i < |states|
  {
    || (exists c :: IsOwner(states[i], c, t))
    || (exists k :: 0 <= k < i && LeftBehind(states[k], steps[k], t))
  }

  /** One step: a row that is new, or whose owner goes, is explained. */
  lemma StepExplains(s: State, step: Step, t: nat)
    requires ChainInv(s) && Enabled(s, step) && Apply(s, step).row == Some(t)
    requires s.row != Some(t) || exists c :: IsOwner(s, c, t)
    ensures LeftBehind(s, step, t) || exists c :: IsOwner(Apply(s, step), c, t)
  {
    var after := Apply(s, step);
    if s.row == Some(t) {
      var c :| IsOwner(s, c, t);
      OwnerStays(s, step, c, t);
    } else {
      assert step.Act? || step.Fail?;
      if step.Act? {
        assert IsOwner(after, step.c, t);
      }
    }
  }

  lemma OwnerStays(s: State, step: Step, c: Caller, t: nat)
    requires ChainInv(s) && Enabled(s, step) && IsOwner(s, c, t) && Apply(s, step).row == Some(t)
    ensures LeftBehind(s, step, t) || IsOwner(Apply(s, step), c, t)
  {
  }

  /** In every run, timely or not, a lock row belongs to a caller that is inside with its token (alive, or in a crashed
      process), or it was left behind by a call that failed. */
  lemma {:induction false} EveryRowIsExplained(states: seq<State>, steps: seq<Step>, users: Users, i: nat, t: nat)
    requires IsRun(states, steps, users) && i < |states| && states[i].row == Some(t)
    ensures Explained(states, steps, i, t)
  {
    if i == 0 {
    } else {
      var s, step := states[i - 1], steps[i - 1];
      assert StepAt(states, steps, i - 1);
      if s.row == Some(t) {
        EveryRowIsExplained(states, steps, users, i - 1, t);
        if k :| 0 <= k < i - 1 && LeftBehind(states[k], steps[k], t) {
          return;
        }
      }
      ChainInvariant(states, steps, users, i - 1);
      StepExplains(s, step, t);
    }
  }

  // ---------- the lock's own calls ----------

  /** A release that succeeds frees the row, and the caller moves on. */
  lemma ReleaseFrees(s: State, c: Caller, ch: Choice, t: nat)
    requires Live(s, c) && s.callers[c] == Releasing(t)
    ensures Enabled(s, Act(c, ch))
    ensures var after := Apply(s, Act(c, ch));
      && after.row != Some(t) && (s.row != Some(t) ==> after.row == s.row)
      && after.callers[c] == Leaving && after.users == s.users
  {
  }

  /** Whatever a callback does, its end and its failure lead to the release of its own token. */
  lemma WorkEndsInRelease(s: State, c: Caller, ch: Choice, landed: bool)
    requires Enabled(s, Act(c, ch)) && s.callers[c].Critical?
    ensures Enabled(s, Fail(c, ch, landed))
    ensures s.callers[c].work.Done? ==> Apply(s, Act(c, ch)).callers[c] == Releasing(s.callers[c].token)
    ensures Apply(s, Fail(c, ch, landed)).callers[c] == Releasing(s.callers[c].token)
    ensures Apply(s, Act(c, ch)).row == s.row && Apply(s, Fail(c, ch, landed)).row == s.row
  {
  }

  /** Two calls take a free row: the caller enters the critical section with the time of its attempt as token. */
  lemma FreeRowIsTaken(s: State, c: Caller, ch: Choice)
    requires Live(s, c) && s.callers[c].Trying? && s.callers[c].attempt < MAX_ATTEMPTS && s.row == None
    ensures Enabled(s, Act(c, ch)) && Enabled(Apply(s, Act(c, ch)), Act(c, ch))
    ensures var after := Apply(Apply(s, Act(c, ch)), Act(c, ch));
      && after.row == Some(s.clock) && after.users == s.users
      && after.callers == s.callers[c := Critical(s.clock, Start(s.callers[c].op))]
  {
    var mid := Apply(s, Act(c, ch));
    assert Apply(mid, Act(c, ch)).callers == s.callers[c := Critical(s.clock, Start(s.callers[c].op))];
  }

  /** A held row costs an attempt: it stays when it is fresh and goes when it is stale, and the caller tries again. */
  lemma HeldRowCostsAnAttempt(s: State, c: Caller, ch: Choice, op: Operation, k: nat, t: nat)
    requires Live(s, c) && s.callers[c] == Judging(op, k, Some(t)) && s.row == Some(t)
    ensures Enabled(s, Act(c, ch))
    ensures var next := Apply(s, Act(c, ch));
      if s.clock > t + STALE_MS
      then next.callers[c] == Taking(op, k, t)
           && Apply(next, Act(c, ch)).row == None && Apply(next, Act(c, ch)).callers[c] == Trying(op, k + 1)
      else next.row == Some(t) && next.callers[c] == Trying(op, k + 1)
  {
  }

  /** A row that is gone by the time it is looked at costs an attempt, too. */
  lemma VanishedRowCostsAnAttempt(s: State, c: Caller, ch: Choice, op: Operation, k: nat)
    requires Live(s, c) && s.callers[c] == Selecting(op, k) && s.row == None
    ensures Enabled(s, Act(c, ch)) && Enabled(Apply(s, Act(c, ch)), Act(c, ch))
    ensures var after := Apply(Apply(s, Act(c, ch)), Act(c, ch));
      after.callers[c] == Trying(op, k + 1) && after.row == None && after.users == s.users
  {
  }

  /** A call that fails outside the critical section ends the operation. */
  lemma FailedCallLeaves(s: State, c: Caller, ch: Choice, landed: bool)
    requires Enabled(s, Fail(c, ch, landed)) && !s.callers[c].Critical?
    ensures Apply(s, Fail(c, ch, landed)).callers == s.callers[c := Leaving]
    ensures Apply(s, Fail(c, ch, landed)).users == s.users
  {
  }

  /** A caller arrives with its operation at the end of its process's queue, and starts with attempt 0. */
  lemma ArrivesAndEnters(s: State, p: nat, op: Operation, c: Caller)
    requires Enabled(s, Arrive(p, op))
    ensures var t := Apply(s, Arrive(p, op));
      && t.callers == s.callers[Caller(p, ChainOf(s, p).arrived + 1) := Waiting(op)]
      && ChainOf(t, p).arrived == ChainOf(s, p).arrived + 1 && t.row == s.row && t.users == s.users
    ensures Enabled(s, Enter(c)) ==>
      Apply(s, Enter(c)) == s.(callers := s.callers[c := Trying(s.callers[c].op, 0)])
  {
  }

  /** After 50 attempts, and not before, the operation is refused without having run. */
  lemma FiftyAttempts(s: State, c: Caller, ch: Choice)
    requires Live(s, c) && s.callers[c].Trying?
    ensures var after := Apply(s, Act(c, ch));
      && after.row == s.row && after.users == s.users
      && (if s.callers[c].attempt >= 50 then after.callers[c] == Leaving
          else after.callers[c] == Inserting(s.callers[c].op, s.callers[c].attempt, s.clock))
  {
  }

  /** A failed call before the critical section ends the operation; the next in line is let in either way. */
  lemma LeavingLetsTheNextIn(s: State, c: Caller)
    requires Live(s, c) && s.callers[c] == Leaving
    ensures var after, next := Apply(s, Leave(c)), Caller(c.process, c.ticket + 1);
      && after.callers[c] == Finished && after.row == s.row && after.users == s.users
      && (next in s.callers && s.callers[next].Waiting? ==> Enabled(after, Enter(next)))
  {
  }

  lemma FirstCallerMayEnter(s: State, p: nat, op: Operation)
    requires p !in s.crashed && p !in s.chains
    ensures Enabled(Apply(s, Arrive(p, op)), Enter(Caller(p, 1)))
  {
  }

  // ---------- what an operation does ----------

  /** Three calls of the work under the lock, with nothing in between. */
  function Three(work: Work, users: Users, ch: Choice): (Work, Users) {
    var (first, after) := WorkNext(work, users, ch);
    var (second, after) := WorkNext(first, after, ch);
    WorkNext(second, after, ch)
  }

  /** Takes away admin rights: another role, or not active any more. */
  predicate TakesRights(input: UserUpdate) {
    input.role == Some(Member) || input.isActive == Some(false)
  }

  predicate OnlyActiveAdmin(users: Users, id: string) {
    && id in users && IsActiveAdmin(users[id])
    && forall other :: other in users && IsActiveAdmin(users[other]) ==> other == id
  }

  lemma CountOfOnly(users: Users, id: string)
    requires id in users && IsActiveAdmin(users[id])
    ensures |ActiveAdmins(users)| <= 1 <==> OnlyActiveAdmin(users, id)
  {
    if OnlyActiveAdmin(users, id) {
      assert ActiveAdmins(users) == {id};
    }
    if |ActiveAdmins(users)| <= 1 {
      forall other | other in users && IsActiveAdmin(users[other])
        ensures other == id
      {
        SubsetSize({id, other}, ActiveAdmins(users));
      }
    }
  }

  /** An update goes through exactly when the user exists, does not take its own rights away, and is not the only active
      admin losing them; it then sets the named fields of that row and nothing else. */
  lemma UpdateDoes(users: Users, id: string, actor: string, input: UserUpdate, ch: Choice)
    ensures var (work, after) := Three(Start(UpdateUser(id, actor, input)), users, ch);
      && work == Done
      && (if id !in users || (id == actor && TakesRights(input)) || (OnlyActiveAdmin(users, id) && TakesRights(input))
          then after == users
          else
            && after.Keys == users.Keys
            && (forall other :: other in users && other != id ==> after[other] == users[other])
            && RowAfter(users[id], input, after[id]))
  {
    if id in users && IsActiveAdmin(users[id]) {
      CountOfOnly(users, id);
    }
  }

  predicate RowAfter(before: User, input: UserUpdate, after: User) {
    && after.username == (if input.username.Some? then input.username.value else before.username)
    && after.email == (if input.email.Some? then input.email.value else before.email)
    && after.role == (if input.role.Some? then input.role.value else before.role)
    && after.isActive == (if input.isActive.Some? then input.isActive.value else before.isActive)
    && after.passwordHash == before.passwordHash && after.sessionVersion == before.sessionVersion
    && after.lastLoginAt == before.lastLoginAt && after.metadataAdmin == before.metadataAdmin
  }

  /** An account is deleted (deactivated, its sessions ended) exactly when it exists and is not the only active
      admin. */
  lemma DeleteDoes(users: Users, id: string, ch: Choice)
    ensures var (work, after) := Three(Start(DeleteAccount(id)), users, ch);
      && work == Done
      && (if id !in users || OnlyActiveAdmin(users, id) then after == users
          else
            && after.Keys == users.Keys
            && (forall other :: other in users && other != id ==> after[other] == users[other])
            && after[id] == users[id].(isActive := false, sessionVersion := users[id].sessionVersion + 1))
  {
    if id in users && IsActiveAdmin(users[id]) {
      CountOfOnly(users, id);
    }
  }

  /** What the operations outside the lock do to the users, and that they touch nothing else. */
  lemma UnlockedDo(s: State, step: Step)
    requires Enabled(s, step) && (step.CreateUser? || step.SetPassword? || step.SetProfile? || step.Login?)
    ensures var after := Apply(s, step);
      && after.row == s.row && after.callers == s.callers && after.chains == s.chains && after.crashed == s.crashed
      && after.users.Keys == s.users.Keys + {step.id}
      && (forall other :: other in s.users && other != step.id ==> after.users[other] == s.users[other])
      && var u := after.users[step.id];
         match step
         case CreateUser(_, user) => u == user
         case SetPassword(id, hash) =>
           u == s.users[id].(passwordHash := hash, sessionVersion := s.users[id].sessionVersion + 1)
         case SetProfile(id, username) => u == s.users[id].(username := username)
         case Login(id) => u == s.users[id].(lastLoginAt := s.clock)
         case _ => false
  {
  }

  // ---------- bootstrap ----------

  /** The promotion calls: after one for each listed row, all of these are admins, and nothing else has changed. */
  lemma {:induction false} PromotionsDo(email: string, todo: seq<string>, users: Users, ch: Choice)
    requires forall id :: id in todo ==> id in users
    ensures var (work, after) := Promote(email, todo, users, ch);
      && work == BootPromote(email, [])
      && after.Keys == users.Keys
      && forall id :: id in users ==> after[id] == if id in todo then users[id].(role := Admin) else users[id]
    decreases todo
  {
    if todo == [] {
    } else {
      var (work, after) := WorkNext(BootPromote(email, todo), users, ch);
      PromotionsDo(email, todo[1..], after, ch);
      assert forall id :: id in todo <==> id == todo[0] || id in todo[1..];
    }
  }

  function Promote(email: string, todo: seq<string>, users: Users, ch: Choice): (Work, Users)
    decreases |todo|
  {
    if todo == [] then (BootPromote(email, todo), users)
    else
      var (work, after) := WorkNext(BootPromote(email, todo), users, ch);
      if work.BootPromote? && |work.todo| < |todo| then Promote(work.email, work.todo, after, ch) else (work, after)
  }

  /** The configured email of a bootstrap that has not finished. */
  function ConfiguredEmail(work: Work): Option<string> {
    match work
    case Start(Bootstrap(email)) => Some(email)
    case BootList(email) => Some(email)
    case BootPromote(email, _) => Some(email)
    case BootRefresh(email) => Some(email)
    case BootCreate(email) => Some(email)
    case BootSync(email, _, _) => Some(email)
    case _ => None
  }

  /** What the bootstrap's last read still tells. */
  predicate SyncInv(work: Work, users: Users) {
    work.BootSync? ==>
      && work.id in users && NormalizeEmail(users[work.id].email) == work.email
      && users[work.id].role == work.snapshot.role && users[work.id].isActive == work.snapshot.isActive
  }

  predicate BootInv(s: State) {
    forall c :: c in s.callers && Holds(s, c) && s.callers[c].Critical? ==> SyncInv(s.callers[c].work, s.users)
  }

  lemma StepKeepsBoot(s: State, step: Step)
    requires Enabled(s, step) && LockInv(s) && Timely(s) && BootInv(s)
    ensures BootInv(Apply(s, step))
  {
    var t := Apply(s, step);
    forall d | d in t.callers && Holds(t, d) && t.callers[d].Critical?
      ensures SyncInv(t.callers[d].work, t.users)
    {
      if step.Act? && step.c == d {
        ActKeepsSync(s, step.c, step.choice);
      } else if step.Act? || step.Fail? {
        OthersKeepSync(s, step, d);
      } else {
        assert Holds(s, d) && s.callers[d] == t.callers[d];
      }
    }
  }

  lemma ActKeepsSync(s: State, c: Caller, ch: Choice)
    requires Enabled(s, Act(c, ch)) && BootInv(s)
    ensures var t := Apply(s, Act(c, ch)); t.callers[c].Critical? ==> SyncInv(t.callers[c].work, t.users)
  {
    if s.callers[c].Critical? {
      assert Holds(s, c);
    }
  }

  /** Another caller's call changes no user while d is inside. */
  lemma OthersKeepSync(s: State, step: Step, d: Caller)
    requires Enabled(s, step) && LockInv(s) && BootInv(s) && (step.Act? || step.Fail?)
    requires Holds(Apply(s, step), d) && Apply(s, step).callers[d].Critical? && !(step.Act? && step.c == d)
    ensures SyncInv(Apply(s, step).callers[d].work, Apply(s, step).users)
  {
    assert d != step.c;
    assert Holds(s, d) && s.callers[d] == Apply(s, step).callers[d];
    assert s.callers[step.c].Critical? ==> Holds(s, step.c);
  }

  lemma {:induction false} BootInvariant(states: seq<State>, steps: seq<Step>, users: Users, i: nat)
    requires IsRun(states, steps, users) && TimelyRun(states) && i < |states|
    ensures BootInv(states[i])
  {
    if i == 0 {
    } else {
      BootInvariant(states, steps, users, i - 1);
      RunInvariant(states, steps, users, i - 1);
      assert StepAt(states, steps, i - 1);
      StepKeepsBoot(states[i - 1], steps[i - 1]);
    }
  }

  predicate HasConfiguredAdmin(users: Users, email: string) {
    exists id :: id in users && IsActiveAdmin(users[id]) && NormalizeEmail(users[id].email) == email
  }

  /** In every timely run, whatever else goes on: when a bootstrap is through, there is an active admin with the
      configured email. */
  lemma BootstrapLeavesTheAdmin(states: seq<State>, steps: seq<Step>, users: Users, i: nat)
    requires IsRun(states, steps, users) && TimelyRun(states) && i < |steps| && steps[i].Act?
    requires steps[i].c in states[i].callers && states[i].callers[steps[i].c].Critical?
    requires var email := ConfiguredEmail(states[i].callers[steps[i].c].work);
      email.Some? && NormalizeEmail(email.value) == email.value
    requires steps[i].c in states[i + 1].callers && states[i + 1].callers[steps[i].c].Critical?
    requires states[i + 1].callers[steps[i].c].work == Done
    ensures HasConfiguredAdmin(states[i + 1].users, ConfiguredEmail(states[i].callers[steps[i].c].work).value)
  {
    BootInvariant(states, steps, users, i);
    assert StepAt(states, steps, i);
    LastBootCall(states[i], steps[i].c, steps[i].choice);
  }

  lemma LastBootCall(s: State, c: Caller, ch: Choice)
    requires Enabled(s, Act(c, ch)) && BootInv(s) && s.callers[c].Critical?
    requires var email := ConfiguredEmail(s.callers[c].work);
      email.Some? && NormalizeEmail(email.value) == email.value
    requires Apply(s, Act(c, ch)).callers[c].work == Done
    ensures HasConfiguredAdmin(Apply(s, Act(c, ch)).users, ConfiguredEmail(s.callers[c].work).value)
  {
    var work, after := s.callers[c].work, Apply(s, Act(c, ch)).users;
    assert Holds(s, c);
    if work.BootCreate? {
      assert ch.newId in after && IsActiveAdmin(after[ch.newId]);
    } else if work.BootSync? {
      assert work.id in after && IsActiveAdmin(after[work.id]);
    }
  }

  /** The last call on an existing row: a password that does not match is replaced and the row made an active admin, a
      row without the rights gets them, and a row in order is left alone. */
  lemma SyncDoes(users: Users, email: string, id: string, snapshot: User, ch: Choice)
    requires id in users
    ensures var (work, after) := WorkNext(BootSync(email, id, snapshot), users, ch);
      && work == Done && after.Keys == users.Keys
      && (forall other :: other in users && other != id ==> after[other] == users[other])
      && var u := users[id];
         after[id] ==
           if !ch.matches
           then u.(role := Admin, isActive := true, passwordHash := ch.hash, sessionVersion := u.sessionVersion + 1)
           else if snapshot.role != Admin || !snapshot.isActive then u.(role := Admin, isActive := true)
           else u
  {
  }

  /** The calls before the last one: bootstrap counts the users, lists the rows to promote, and looks for the configured
      one; it creates a row exactly when there is none. */
  lemma BootstrapLooks(users: Users, email: string, ch: Choice)
    ensures WorkNext(Start(Bootstrap(email)), users, ch) ==
      (if users == map[] then BootCreate(email) else BootList(email), users)
    ensures WorkNext(BootList(email), users, ch) == (BootPromote(email, ch.order), users)
    ensures Fits(BootList(email), users, ch) ==>
      forall id :: id in ch.order <==> id in users && users[id].metadataAdmin && users[id].role != Admin
    ensures Fits(BootCreate(email), users, ch) ==>
      WorkNext(BootCreate(email), users, ch) == (Done, users[ch.newId := ch.newUser]) && ch.newId !in users
      && ch.newUser.email == email && ch.newUser.role == Admin && ch.newUser.isActive
    ensures WorkNext(BootPromote(email, []), users, ch) == (BootRefresh(email), users)
    ensures Fits(BootRefresh(email), users, ch) ==>
      WorkNext(BootRefresh(email), users, ch) ==
        (if ch.found.Some? then BootSync(email, ch.found.value, users[ch.found.value]) else BootCreate(email), users)
    ensures Fits(BootRefresh(email), users, ch) ==>
      (ch.found.None? <==> forall id :: id in users ==> NormalizeEmail(users[id].email) != email)
  {
  }
}
