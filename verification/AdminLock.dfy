/** The admin mutation lock as a step system: any number of processes and callers, the in-process promise
    chain, the shared lock row with stale takeover, a clock, and the user operations that run under the
    lock or beside it. Every database call is one atomic step; any call may fail, and any process may
    crash. */
module AdminLock {
  import opened AdminUsers
  import opened Results

  const STALE_MS := 5 * 60 * 1000
  const MAX_ATTEMPTS := 50

  // ---------- state ----------

  datatype Operation =
    | UpdateUser(id: string, actor: string, input: UserUpdate)
    | DeleteAccount(id: string)
    | Bootstrap(email: string)

  /** How far an operation has come inside the critical section. */
  datatype Work =
    | Start(op: Operation)
    | Read(op: Operation, snapshot: User)
    | Ready(op: Operation)
    | BootList(email: string)
    | BootPromote(email: string, todo: seq<string>)
    | BootRefresh(email: string)
    | BootCreate(email: string)
    | BootSync(email: string, id: string, snapshot: User)
    | Done

  /** How far a caller of withLock has come. */
  datatype Phase =
    | Waiting(op: Operation)
    | Trying(op: Operation, attempt: nat)
    | Inserting(op: Operation, attempt: nat, lockedAt: nat)
    | Selecting(op: Operation, attempt: nat)
    | Judging(op: Operation, attempt: nat, seen: Option<nat>)
    | Taking(op: Operation, attempt: nat, stale: nat)
    | Critical(token: nat, work: Work)
    | Releasing(token: nat)
    | Leaving
    | Finished

  /** A caller: its process, and its place in that process's promise chain. */
  datatype Caller = Caller(process: nat, ticket: nat)

  /** The promise chain of one process: promise 0 is resolved from the start, caller n awaits promise
      n-1 and owns promise n. */
  datatype Chain = Chain(arrived: nat, resolved: set<nat>)

  datatype State = State(
    clock: nat,
    row: Option<nat>,
    users: Users,
    callers: map<Caller, Phase>,
    chains: map<nat, Chain>,
    crashed: set<nat>)

  function Init(users: Users): State {
    State(0, None, users, map[], map[], {})
  }

  function ChainOf(s: State, process: nat): Chain {
    if process in s.chains then s.chains[process] else Chain(0, {0})
  }

  // ---------- steps ----------

  /** What a step leaves open: the row id a database assigns, the order and the match a query finds, the
      outcome of a password comparison. */
  datatype Choice = Choice(
    newId: string,
    newUser: User,
    order: seq<string>,
    found: Option<string>,
    matches: bool,
    hash: string)

  datatype Step =
    | Arrive(process: nat, op: Operation)
    | Enter(c: Caller)
    | Act(c: Caller, choice: Choice)
    | Fail(c: Caller, choice: Choice, landed: bool)
    | Leave(c: Caller)
    | Tick(to: nat)
    | Crash(process: nat)
    | CreateUser(id: string, user: User)
    | SetPassword(id: string, hash: string)
    | SetProfile(id: string, username: string)
    | Login(id: string)

  predicate Removes(op: Operation) {
    match op
    case UpdateUser(_, _, input) => input.role == Some(Member) || input.isActive == Some(false)
    case DeleteAccount(_) => true
    case Bootstrap(_) => false
  }

  predicate RemovesOwnRights(op: Operation) {
    op.UpdateUser? && op.id == op.actor && Removes(op)
  }

  function Written(op: Operation, users: Users): Users
    requires !op.Bootstrap?
  {
    if op.id !in users then users
    else if op.UpdateUser? then users[op.id := Updated(users[op.id], op.input)]
    else users[op.id := Deactivated(users[op.id])]
  }

  /** The choices that fit what the table holds. */
  ghost predicate Fits(work: Work, users: Users, ch: Choice) {
    match work
    case BootList(_) =>
      forall id :: id in ch.order <==> id in users && users[id].metadataAdmin && users[id].role != Admin
    case BootRefresh(email) =>
      if ch.found.Some? then ch.found.value in users && NormalizeEmail(users[ch.found.value].email) == email
      else forall id :: id in users ==> NormalizeEmail(users[id].email) != email
    case BootCreate(email) =>
      ch.newId !in users && IsActiveAdmin(ch.newUser) && ch.newUser.email == email
    case _ => true
  }

  /** One database call of an operation under the lock. */
  function WorkNext(work: Work, users: Users, ch: Choice): (Work, Users) {
    match work
    case Start(op) =>
      if op.Bootstrap? then (if |users| == 0 then BootCreate(op.email) else BootList(op.email), users)
      else if op.id in users then (Read(op, users[op.id]), users)
      else (Done, users)
    case Read(op, snapshot) =>
      if RemovesOwnRights(op) then (Done, users)
      else if IsActiveAdmin(snapshot) && Removes(op) && |ActiveAdmins(users)| <= 1 then (Done, users)
      else (Ready(op), users)
    case Ready(op) => (Done, if op.Bootstrap? then users else Written(op, users))
    case BootList(email) => (BootPromote(email, ch.order), users)
    case BootPromote(email, todo) =>
      if todo == [] then (BootRefresh(email), users)
      else (BootPromote(email, todo[1..]),
            if todo[0] in users then users[todo[0] := Promoted(users[todo[0]])] else users)
    case BootRefresh(email) =>
      if ch.found.Some? && ch.found.value in users then (BootSync(email, ch.found.value, users[ch.found.value]), users)
      else (BootCreate(email), users)
    case BootCreate(email) => (Done, users[ch.newId := ch.newUser])
    case BootSync(_, id, snapshot) =>
      if id !in users then (Done, users)
      else if !ch.matches then (Done, users[id := PromotedWithPassword(users[id], ch.hash)])
      else if !IsActiveAdmin(snapshot)
      then (Done, users[id := Updated(users[id], UserUpdate(None, None, Some(Admin), Some(true)))])
      else (Done, users)
    case Done => (Done, users)
  }

  datatype Outcome = Outcome(phase: Phase, row: Option<nat>, users: Users)

  /** The next call of a caller that succeeds. */
  function PhaseNext(p: Phase, s: State, ch: Choice): Outcome {
    match p
    case Trying(op, k) =>
      Outcome(if k < MAX_ATTEMPTS then Inserting(op, k, s.clock) else Leaving, s.row, s.users)
    case Inserting(op, k, t) =>
      if s.row.None? then Outcome(Critical(t, Start(op)), Some(t), s.users)
      else Outcome(Selecting(op, k), s.row, s.users)
    case Selecting(op, k) => Outcome(Judging(op, k, s.row), s.row, s.users)
    case Judging(op, k, seen) =>
      if seen.Some? && s.clock > seen.value + STALE_MS then Outcome(Taking(op, k, seen.value), s.row, s.users)
      else Outcome(Trying(op, k + 1), s.row, s.users)
    case Taking(op, k, stale) =>
      Outcome(Trying(op, k + 1), if s.row == Some(stale) then None else s.row, s.users)
    case Critical(t, work) =>
      if work.Done? then Outcome(Releasing(t), s.row, s.users)
      else
        var (next, users) := WorkNext(work, s.users, ch);
        Outcome(Critical(t, next), s.row, users)
    case Releasing(t) => Outcome(Leaving, if s.row == Some(t) then None else s.row, s.users)
    case _ => Outcome(p, s.row, s.users)
  }

  /** Where a caller goes when its call throws. */
  function Thrown(p: Phase): Phase {
    if p.Critical? then Releasing(p.token) else Leaving
  }

  predicate Live(s: State, c: Caller) {
    c in s.callers && c.process !in s.crashed
  }

  predicate Calls(p: Phase) {
    !p.Waiting? && !p.Leaving? && !p.Finished?
  }

  ghost predicate Enabled(s: State, step: Step) {
    match step
    case Arrive(p, _) => p !in s.crashed
    case Enter(c) =>
      Live(s, c) && s.callers[c].Waiting? && c.ticket >= 1 && c.ticket - 1 in ChainOf(s, c.process).resolved
    case Act(c, ch) =>
      Live(s, c) && Calls(s.callers[c]) && (s.callers[c].Critical? ==> Fits(s.callers[c].work, s.users, ch))
    case Fail(c, ch, _) =>
      Live(s, c) && Calls(s.callers[c]) && (s.callers[c].Critical? ==> Fits(s.callers[c].work, s.users, ch))
    case Leave(c) => Live(s, c) && s.callers[c].Leaving?
    case Tick(to) => to >= s.clock
    case Crash(_) => true
    case CreateUser(id, _) => id !in s.users
    case SetPassword(id, _) => id in s.users
    case SetProfile(id, _) => id in s.users
    case Login(id) => id in s.users
  }

  ghost function Apply(s: State, step: Step): State
    requires Enabled(s, step)
  {
    match step
    case Arrive(p, op) =>
      var chain := ChainOf(s, p);
      s.(callers := s.callers[Caller(p, chain.arrived + 1) := Waiting(op)],
         chains := s.chains[p := Chain(chain.arrived + 1, chain.resolved)])
    case Enter(c) => s.(callers := s.callers[c := Trying(s.callers[c].op, 0)])
    case Act(c, ch) =>
      var o := PhaseNext(s.callers[c], s, ch);
      s.(callers := s.callers[c := o.phase], row := o.row, users := o.users)
    case Fail(c, ch, landed) =>
      var o := PhaseNext(s.callers[c], s, ch);
      s.(callers := s.callers[c := Thrown(s.callers[c])],
         row := if landed then o.row else s.row, users := if landed then o.users else s.users)
    case Leave(c) =>
      var chain := ChainOf(s, c.process);
      s.(callers := s.callers[c := Finished],
         chains := s.chains[c.process := Chain(chain.arrived, chain.resolved + {c.ticket})])
    case Tick(to) => s.(clock := to)
    case Crash(p) => s.(crashed := s.crashed + {p})
    case CreateUser(id, user) => s.(users := s.users[id := user])
    case SetPassword(id, hash) => s.(users := s.users[id := WithPassword(s.users[id], hash)])
    case SetProfile(id, username) => s.(users := s.users[id := s.users[id].(username := username)])
    case Login(id) => s.(users := s.users[id := s.users[id].(lastLoginAt := s.clock)])
  }

  // ---------- the timing assumption and the invariant ----------

  predicate Inside(p: Phase) {
    p.Critical? || p.Releasing?
  }

  predicate Holds(s: State, c: Caller) {
    Live(s, c) && Inside(s.callers[c])
  }

  /** Every caller that holds the lock is done by lockedAt + bound. */
  predicate Within(s: State, bound: int) {
    forall c :: c in s.callers && Holds(s, c) ==> s.clock <= s.callers[c].token + bound
  }

  /** The timing assumption: every holder is done by lockedAt + staleMs. */
  predicate Timely(s: State) {
    Within(s, STALE_MS)
  }

  /** A holder's token is in the row, there is one holder at most, and a pending takeover is of a row
      that really was stale. */
  predicate LockInv(s: State) {
    && (forall c :: c in s.callers && Holds(s, c) ==> s.row == Some(s.callers[c].token))
    && (forall c, d :: c in s.callers && d in s.callers && Holds(s, c) && Holds(s, d) ==> c == d)
    && (forall c :: c in s.callers && s.callers[c].Taking? ==> s.clock > s.callers[c].stale + STALE_MS)
  }

  predicate OtherAdmin(users: Users, id: string) {
    exists other :: other in users && other != id && IsActiveAdmin(users[other])
  }

  predicate SafeToWrite(op: Operation, users: Users)
    requires !op.Bootstrap?
  {
    op.id in users && (Removes(op) ==> !IsActiveAdmin(users[op.id]) || OtherAdmin(users, op.id))
  }

  /** What the holder has read still stands. */
  predicate WorkInv(work: Work, users: Users) {
    match work
    case Read(op, snapshot) =>
      && !op.Bootstrap?
      && op.id in users && users[op.id].role == snapshot.role && users[op.id].isActive == snapshot.isActive
    case Ready(op) => !op.Bootstrap? && SafeToWrite(op, users)
    case _ => true
  }

  predicate AdminInv(s: State) {
    forall c :: c in s.callers && Holds(s, c) && s.callers[c].Critical? ==> WorkInv(s.callers[c].work, s.users)
  }

  predicate HasAdmin(users: Users) {
    exists id :: id in users && IsActiveAdmin(users[id])
  }

  // ---------- the promise chain ----------

  /** Tickets are the arrivals, promises resolve when their owner is finished, and a caller that has
      entered found its predecessor's promise resolved. */
  ghost predicate ChainInv(s: State) {
    && (forall c :: c in s.callers ==> 1 <= c.ticket <= ChainOf(s, c.process).arrived)
    && (forall p: nat, k: nat :: 1 <= k <= ChainOf(s, p).arrived ==> Caller(p, k) in s.callers)
    && (forall p: nat, k: nat :: k in ChainOf(s, p).resolved && k >= 1 ==>
          Caller(p, k) in s.callers && s.callers[Caller(p, k)].Finished?)
    && (forall c {:trigger Entered(s, c)} :: Entered(s, c) ==> c.ticket - 1 in ChainOf(s, c.process).resolved)
  }

  predicate Entered(s: State, c: Caller) {
    c in s.callers && !s.callers[c].Waiting?
  }

  // ---------- runs ----------

  ghost predicate IsRun(states: seq<State>, steps: seq<Step>, users: Users) {
    && |states| == |steps| + 1
    && states[0] == Init(users)
    && forall i :: 0 <= i < |steps| ==> StepAt(states, steps, i)
  }

  ghost predicate StepAt(states: seq<State>, steps: seq<Step>, i: nat)
    requires |states| == |steps| + 1 && i < |steps|
  {
    Enabled(states[i], steps[i]) && states[i + 1] == Apply(states[i], steps[i])
  }

  predicate TimelyRun(states: seq<State>) {
    forall i :: 0 <= i < |states| ==> Timely(states[i])
  }

  // ---------- preservation ----------

  /** One caller moves: it stays inside with its token, or takes the free row, or lets the row go when nobody else
      holds it, or does none of these and leaves the row. */
  lemma MoveKeepsLock(s: State, t: State, c: Caller)
    requires LockInv(s) && Live(s, c) && t.clock == s.clock && t.crashed == s.crashed
    requires t.callers.Keys == s.callers.Keys
    requires forall d :: d in s.callers && d != c ==> t.callers[d] == s.callers[d]
    requires t.callers[c].Taking? ==> s.clock > t.callers[c].stale + STALE_MS
    requires Inside(t.callers[c]) ==> t.row == Some(t.callers[c].token)
    requires t.row == s.row || forall d :: d in s.callers && d != c ==> !Holds(s, d)
    requires Inside(t.callers[c]) ==> Inside(s.callers[c]) || s.row.None?
    ensures LockInv(t)
  {
    forall d | d in t.callers && Holds(t, d)
      ensures t.row == Some(t.callers[d].token)
    {
      assert d != c ==> Holds(s, d);
    }
    forall d, e | d in t.callers && e in t.callers && Holds(t, d) && Holds(t, e)
      ensures d == e
    {
      assert (d != c ==> Holds(s, d)) && (e != c ==> Holds(s, e));
      assert Inside(s.callers[c]) ==> Holds(s, c);
    }
  }

  /** The row changes only when no other caller holds it. */
  lemma RowChangesAlone(s: State, c: Caller, ch: Choice)
    requires Enabled(s, Act(c, ch)) && LockInv(s) && Timely(s)
    ensures PhaseNext(s.callers[c], s, ch).row == s.row || forall d :: d in s.callers && d != c ==> !Holds(s, d)
  {
    var p := s.callers[c];
    if p.Releasing? {
      assert Holds(s, c);
    }
  }

  lemma ActKeepsLock(s: State, c: Caller, ch: Choice)
    requires Enabled(s, Act(c, ch)) && LockInv(s) && Timely(s)
    ensures LockInv(Apply(s, Act(c, ch)))
  {
    RowChangesAlone(s, c, ch);
    assert Inside(s.callers[c]) ==> Holds(s, c);
    MoveKeepsLock(s, Apply(s, Act(c, ch)), c);
  }

  lemma FailKeepsLock(s: State, c: Caller, ch: Choice, landed: bool)
    requires Enabled(s, Fail(c, ch, landed)) && LockInv(s) && Timely(s)
    ensures LockInv(Apply(s, Fail(c, ch, landed)))
  {
    RowChangesAlone(s, c, ch);
    assert Inside(s.callers[c]) ==> Holds(s, c);
    MoveKeepsLock(s, Apply(s, Fail(c, ch, landed)), c);
  }

  /** Steps that are no caller's database call. */
  lemma OthersKeepLock(s: State, step: Step)
    requires Enabled(s, step) && LockInv(s) && !step.Act? && !step.Fail?
    ensures LockInv(Apply(s, step))
  {
    var t := Apply(s, step);
    assert forall d :: d in t.callers && Holds(t, d) ==> Holds(s, d) && t.callers[d] == s.callers[d];
  }

  /** Every step keeps the lock invariant. */
  lemma StepKeepsLock(s: State, step: Step)
    requires Enabled(s, step) && LockInv(s) && Timely(s)
    ensures LockInv(Apply(s, step))
  {
    match step
    case Act(c, ch) => ActKeepsLock(s, c, ch);
    case Fail(c, ch, landed) => FailKeepsLock(s, c, ch, landed);
    case _ => OthersKeepLock(s, step);
  }

  // ---------- the last admin ----------

  lemma TwoAdminsLeaveAnother(users: Users, id: string)
    requires |ActiveAdmins(users)| >= 2
    ensures OtherAdmin(users, id)
  {
    var rest := ActiveAdmins(users) - {id};
    assert ActiveAdmins(users) <= rest + {id};
    SubsetSize(ActiveAdmins(users), rest + {id});
    assert |rest + {id}| == |rest| + 1;
    var other :| other in rest;
  }

  lemma {:induction false} SubsetSize<T>(a: set<T>, b: set<T>)
    requires a <= b
    ensures |a| <= |b|
  {
    if a == {} {
    } else {
      var x :| x in a;
      SubsetSize(a - {x}, b - {x});
    }
  }

  /** Rows may be added, and no row loses its role or its active flag. */
  predicate Grows(before: Users, after: Users) {
    forall id :: id in before ==>
      id in after && (IsActiveAdmin(before[id]) ==> IsActiveAdmin(after[id]))
  }

  /** Rows may be added, and no row changes its role or its active flag. */
  predicate KeepsRights(before: Users, after: Users) {
    forall id :: id in before ==>
      id in after && after[id].role == before[id].role && after[id].isActive == before[id].isActive
  }

  /** An operation beside the lock leaves what a holder has read standing. */
  lemma RightsKept(work: Work, before: Users, after: Users)
    requires WorkInv(work, before) && KeepsRights(before, after)
    ensures WorkInv(work, after)
  {
    if work.Ready? && Removes(work.op) && OtherAdmin(before, work.op.id) {
      var other :| other in before && other != work.op.id && IsActiveAdmin(before[other]);
      assert IsActiveAdmin(after[other]);
    }
  }

  /** The holder's own call: the next work state stands, and at least one admin is left if there was one. */
  lemma WorkKeepsAdmin(work: Work, users: Users, ch: Choice)
    requires WorkInv(work, users) && Fits(work, users, ch)
    ensures var (next, after) := WorkNext(work, users, ch);
            WorkInv(next, after) && (HasAdmin(users) ==> HasAdmin(after))
  {
    var (next, after) := WorkNext(work, users, ch);
    match work
    case Read(op, snapshot) =>
      if next.Ready? && Removes(op) && IsActiveAdmin(snapshot) {
        TwoAdminsLeaveAnother(users, op.id);
      }
    case Ready(op) =>
      if HasAdmin(users) { WriteKeepsAdmin(op, users); }
    case _ =>
      if HasAdmin(users) {
        assert Grows(users, after);
        var id :| id in users && IsActiveAdmin(users[id]);
        assert id in after && IsActiveAdmin(after[id]);
      }
  }

  lemma WriteKeepsAdmin(op: Operation, users: Users)
    requires !op.Bootstrap? && SafeToWrite(op, users) && HasAdmin(users)
    ensures HasAdmin(Written(op, users))
  {
    var after := Written(op, users);
    if op.id in users && Removes(op) && IsActiveAdmin(users[op.id]) {
      var other :| other in users && other != op.id && IsActiveAdmin(users[other]);
      assert after[other] == users[other];
    } else {
      var id :| id in users && IsActiveAdmin(users[id]);
      assert IsActiveAdmin(after[id]);
    }
  }

  /** Every step keeps what the holder has read standing. */
  lemma StepKeepsWork(s: State, step: Step)
    requires Enabled(s, step) && LockInv(s) && Timely(s) && AdminInv(s)
    ensures AdminInv(Apply(s, step))
    ensures HasAdmin(s.users) ==> HasAdmin(Apply(s, step).users)
  {
    var t := Apply(s, step);
    match step
    case Act(c, ch) => CallKeepsWork(s, t, c, ch);
    case Fail(c, ch, landed) => CallKeepsWork(s, t, c, ch);
    case _ =>
      UnlockedKeepsRights(s, step);
      RightsKeepWork(s, t);
  }

  lemma UnlockedKeepsRights(s: State, step: Step)
    requires Enabled(s, step) && !step.Act? && !step.Fail?
    ensures var t := Apply(s, step);
      && KeepsRights(s.users, t.users)
      && forall d :: d in t.callers && Holds(t, d) && t.callers[d].Critical? ==>
           Holds(s, d) && s.callers[d] == t.callers[d]
  {
  }

  /** A step that takes no rights away and gives no caller the lock. */
  lemma RightsKeepWork(s: State, t: State)
    requires AdminInv(s) && KeepsRights(s.users, t.users)
    requires forall d :: d in t.callers && Holds(t, d) && t.callers[d].Critical? ==>
      Holds(s, d) && s.callers[d] == t.callers[d]
    ensures AdminInv(t)
    ensures HasAdmin(s.users) ==> HasAdmin(t.users)
  {
    if HasAdmin(s.users) {
      var id :| id in s.users && IsActiveAdmin(s.users[id]);
      assert IsActiveAdmin(t.users[id]);
    }
    forall d | d in t.callers && Holds(t, d) && t.callers[d].Critical?
      ensures WorkInv(t.callers[d].work, t.users)
    {
      RightsKept(t.callers[d].work, s.users, t.users);
    }
  }

  /** A call of one caller: only a holder writes users, and it is the only holder. */
  lemma CallKeepsWork(s: State, t: State, c: Caller, ch: Choice)
    requires Enabled(s, Act(c, ch)) && LockInv(s) && AdminInv(s)
    requires t.crashed == s.crashed && t.callers.Keys == s.callers.Keys
    requires forall d :: d in s.callers && d != c ==> t.callers[d] == s.callers[d]
    requires var o := PhaseNext(s.callers[c], s, ch);
             || (t.callers[c] == o.phase && t.users == o.users)
             || (t.callers[c] == Thrown(s.callers[c]) && (t.users == o.users || t.users == s.users))
    ensures AdminInv(t)
    ensures HasAdmin(s.users) ==> HasAdmin(t.users)
  {
    var p := s.callers[c];
    if p.Critical? && !p.work.Done? {
      assert Holds(s, c);
      WorkKeepsAdmin(p.work, s.users, ch);
      assert forall d :: d in s.callers && d != c ==> !Holds(s, d);
    } else {
      assert t.users == s.users;
    }
  }

  // ---------- results over whole runs ----------

  lemma {:induction false} RunInvariant(states: seq<State>, steps: seq<Step>, users: Users, i: nat)
    requires IsRun(states, steps, users) && TimelyRun(states) && i < |states|
    ensures LockInv(states[i]) && AdminInv(states[i])
  {
    if i == 0 {
    } else {
      RunInvariant(states, steps, users, i - 1);
      assert StepAt(states, steps, i - 1);
      StepKeepsLock(states[i - 1], steps[i - 1]);
      StepKeepsWork(states[i - 1], steps[i - 1]);
    }
  }

  /** Mutual exclusion: in a timely run at most one live caller, over all processes, is inside. */
  lemma MutualExclusion(states: seq<State>, steps: seq<Step>, users: Users, i: nat, c: Caller, d: Caller)
    requires IsRun(states, steps, users) && TimelyRun(states) && i < |states|
    requires Holds(states[i], c) && Holds(states[i], d)
    ensures c == d && states[i].row == Some(states[i].callers[c].token)
  {
    RunInvariant(states, steps, users, i);
  }

  /** The last-admin rule: once an active admin exists, every later state of a timely run has one. */
  lemma {:induction false} AnAdminRemains(states: seq<State>, steps: seq<Step>, users: Users, i: nat, j: nat)
    requires IsRun(states, steps, users) && TimelyRun(states) && i <= j < |states|
    requires HasAdmin(states[i].users)
    ensures HasAdmin(states[j].users)
  {
    if i == j {
    } else {
      AnAdminRemains(states, steps, users, i, j - 1);
      RunInvariant(states, steps, users, j - 1);
      assert StepAt(states, steps, j - 1);
      StepKeepsWork(states[j - 1], steps[j - 1]);
    }
  }

  // ---------- sessions ----------

  /** No user disappears, no session version falls, and a new password comes with a greater one. */
  predicate SessionsEnd(before: Users, after: Users) {
    forall id :: id in before ==>
      && id in after && before[id].sessionVersion <= after[id].sessionVersion
      && (after[id].passwordHash != before[id].passwordHash ==> before[id].sessionVersion < after[id].sessionVersion)
  }

  lemma WorkEndsSessions(work: Work, users: Users, ch: Choice)
    requires Fits(work, users, ch)
    ensures SessionsEnd(users, WorkNext(work, users, ch).1)
  {
  }

  lemma StepEndsSessions(s: State, step: Step)
    requires Enabled(s, step)
    ensures SessionsEnd(s.users, Apply(s, step).users)
  {
    if (step.Act? || step.Fail?) && s.callers[step.c].Critical? {
      WorkEndsSessions(s.callers[step.c].work, s.users, step.choice);
    }
  }

  /** Over every run, timely or not: a session issued under an earlier password never fits a later one, because
      the session version has grown in between. */
  lemma {:induction false} OldSessionsStayEnded(states: seq<State>, steps: seq<Step>, users: Users, i: nat, j: nat)
    requires IsRun(states, steps, users) && i <= j < |states|
    ensures SessionsEnd(states[i].users, states[j].users)
  {
    if i == j {
    } else {
      OldSessionsStayEnded(states, steps, users, i, j - 1);
      assert StepAt(states, steps, j - 1);
      StepEndsSessions(states[j - 1], steps[j - 1]);
    }
  }

  /** An acquisition ends only by the call that owns its token, or by a takeover after it went stale. */
  lemma RowEndsByOwnerOrStale(states: seq<State>, steps: seq<Step>, users: Users, i: nat, t: nat)
    requires IsRun(states, steps, users) && TimelyRun(states) && i < |steps|
    requires states[i].row == Some(t) && states[i + 1].row != Some(t)
    ensures states[i + 1].row == None
    ensures (steps[i].Act? || steps[i].Fail?) && steps[i].c in states[i].callers
    ensures var p := states[i].callers[steps[i].c];
            || p == Releasing(t)
            || (p.Taking? && p.stale == t && states[i].clock > t + STALE_MS
                && forall d :: d in states[i].callers ==> !Holds(states[i], d))
  {
    RunInvariant(states, steps, users, i);
    assert StepAt(states, steps, i);
    var s := states[i];
    var p := s.callers[steps[i].c];
    if p.Taking? {
      forall d | d in s.callers
        ensures !Holds(s, d)
      {
        assert Timely(s);
      }
    }
  }

  lemma ArriveKeepsChain(s: State, p: nat, op: Operation)
    requires Enabled(s, Arrive(p, op)) && ChainInv(s)
    ensures ChainInv(Apply(s, Arrive(p, op)))
  {
    NewcomerKeepsChain(s, Apply(s, Arrive(p, op)), Caller(p, ChainOf(s, p).arrived + 1));
  }

  /** One more waiting caller, with the next ticket of its process. */
  lemma NewcomerKeepsChain(s: State, t: State, newcomer: Caller)
    requires ChainInv(s)
    requires newcomer.ticket == ChainOf(s, newcomer.process).arrived + 1
    requires t.callers.Keys == s.callers.Keys + {newcomer} && t.callers[newcomer].Waiting?
    requires forall c :: c in s.callers && c != newcomer ==> t.callers[c] == s.callers[c]
    requires forall x: nat :: (ChainOf(t, x) ==
      if x == newcomer.process then Chain(newcomer.ticket, ChainOf(s, x).resolved) else ChainOf(s, x))
    ensures ChainInv(t)
  {
    assert newcomer !in s.callers;
    forall c | c in t.callers
      ensures 1 <= c.ticket <= ChainOf(t, c.process).arrived
    {
      assert c != newcomer ==> c in s.callers && c.ticket <= ChainOf(s, c.process).arrived;
    }
    forall p: nat, k: nat | 1 <= k <= ChainOf(t, p).arrived
      ensures Caller(p, k) in t.callers
    {
      assert Caller(p, k) != newcomer ==> k <= ChainOf(s, p).arrived;
    }
    forall p: nat, k: nat | k in ChainOf(t, p).resolved && k >= 1
      ensures Caller(p, k) in t.callers && t.callers[Caller(p, k)].Finished?
    {
      assert k in ChainOf(s, p).resolved;
    }
    forall c | Entered(t, c)
      ensures c.ticket - 1 in ChainOf(t, c.process).resolved
    {
      assert Entered(s, c);
    }
  }

  lemma LeaveKeepsChain(s: State, c: Caller)
    requires Enabled(s, Leave(c)) && ChainInv(s)
    ensures ChainInv(Apply(s, Leave(c)))
  {
    var t := Apply(s, Leave(c));
    forall p: nat, k: nat | k in ChainOf(t, p).resolved && k >= 1
      ensures Caller(p, k) in t.callers && t.callers[Caller(p, k)].Finished?
    {
      if Caller(p, k) != c {
        assert k in ChainOf(s, p).resolved;
      }
    }
    forall d | Entered(t, d)
      ensures d.ticket - 1 in ChainOf(t, d.process).resolved
    {
      assert Entered(s, d);
    }
  }

  /** A caller that is past Waiting and not Finished moves on; the chains stay. */
  lemma MoveKeepsChain(s: State, t: State, c: Caller)
    requires ChainInv(s) && c in s.callers && !s.callers[c].Finished?
    requires t.chains == s.chains && t.callers.Keys == s.callers.Keys
    requires forall d :: d in s.callers && d != c ==> t.callers[d] == s.callers[d]
    requires c.ticket - 1 in ChainOf(s, c.process).resolved
    ensures ChainInv(t)
  {
    assert forall p: nat :: ChainOf(t, p) == ChainOf(s, p);
    forall p: nat, k: nat | k in ChainOf(t, p).resolved && k >= 1
      ensures Caller(p, k) in t.callers && t.callers[Caller(p, k)].Finished?
    {
      assert Caller(p, k) in s.callers && s.callers[Caller(p, k)].Finished?;
    }
    forall d | Entered(t, d)
      ensures d.ticket - 1 in ChainOf(t, d.process).resolved
    {
      assert d == c || Entered(s, d);
    }
  }

  lemma StepKeepsChain(s: State, step: Step)
    requires Enabled(s, step) && ChainInv(s)
    ensures ChainInv(Apply(s, step))
  {
    match step
    case Arrive(p, op) => ArriveKeepsChain(s, p, op);
    case Enter(c) => MoveKeepsChain(s, Apply(s, step), c);
    case Act(c, _) => assert Entered(s, c); MoveKeepsChain(s, Apply(s, step), c);
    case Fail(c, _, _) => assert Entered(s, c); MoveKeepsChain(s, Apply(s, step), c);
    case Leave(c) => LeaveKeepsChain(s, c);
    case _ => SameChain(s, Apply(s, step));
  }

  lemma SameChain(s: State, t: State)
    requires ChainInv(s) && t.callers == s.callers && t.chains == s.chains
    ensures ChainInv(t)
  {
    assert forall p: nat :: ChainOf(t, p) == ChainOf(s, p);
    forall d | Entered(t, d)
      ensures d.ticket - 1 in ChainOf(t, d.process).resolved
    {
      assert Entered(s, d);
    }
  }

  lemma {:induction false} ChainInvariant(states: seq<State>, steps: seq<Step>, users: Users, i: nat)
    requires IsRun(states, steps, users) && i < |states|
    ensures ChainInv(states[i])
  {
    if i == 0 {
    } else {
      ChainInvariant(states, steps, users, i - 1);
      assert StepAt(states, steps, i - 1);
      StepKeepsChain(states[i - 1], steps[i - 1]);
    }
  }

  lemma {:induction false} EarlierAreFinished(s: State, c: Caller, k: nat)
    requires ChainInv(s) && Entered(s, c) && 1 <= k < c.ticket
    ensures Caller(c.process, k) in s.callers && s.callers[Caller(c.process, k)].Finished?
    decreases c.ticket
  {
    var previous := Caller(c.process, c.ticket - 1);
    assert c.ticket - 1 in ChainOf(s, c.process).resolved;
    assert Entered(s, previous) && s.callers[previous].Finished?;
    if k < c.ticket - 1 {
      EarlierAreFinished(s, previous, k);
    }
  }

  /** In-process callers enter one at a time and in arrival order, in every run, timely or not. */
  lemma ArrivalOrder(states: seq<State>, steps: seq<Step>, users: Users, i: nat, c: Caller, earlier: Caller)
    requires IsRun(states, steps, users) && i < |states|
    requires Entered(states[i], c)
    requires earlier in states[i].callers && earlier.process == c.process && earlier.ticket < c.ticket
    ensures states[i].callers[earlier] == Finished
  {
    ChainInvariant(states, steps, users, i);
    EarlierAreFinished(states[i], c, earlier.ticket);
  }

  // ---------- the exact bound ----------

  datatype Run = Run(states: seq<State>, steps: seq<Step>, users: Users)

  ghost predicate ValidRun(r: Run) {
    IsRun(r.states, r.steps, r.users)
  }

  /** In every state of the run, every holder is done by lockedAt + bound. */
  predicate RunWithin(r: Run, bound: int) {
    forall i :: 0 <= i < |r.states| ==> Within(r.states[i], bound)
  }

  /** Once an active admin exists, every later state has one. */
  predicate KeepsAdmin(r: Run) {
    forall i, j :: 0 <= i <= j < |r.states| && HasAdmin(r.states[i].users) ==> HasAdmin(r.states[j].users)
  }

  /** No two callers hold the lock at once. */
  ghost predicate Exclusive(r: Run) {
    forall i, c, d :: 0 <= i < |r.states| && Holds(r.states[i], c) && Holds(r.states[i], d) ==> c == d
  }

  /** One millisecond more than the rule allows. */
  const LATE := STALE_MS + 1

  ghost predicate LateRun(r: Run) {
    ValidRun(r) && RunWithin(r, LATE)
  }

  function Last(r: Run): State
    requires |r.states| >= 1
  {
    r.states[|r.states| - 1]
  }

  lemma Extend(r: Run, step: Step) returns (r2: Run)
    requires LateRun(r) && Enabled(Last(r), step) && Within(Apply(Last(r), step), LATE)
    ensures LateRun(r2) && r2.users == r.users && Last(r2) == Apply(Last(r), step)
  {
    r2 := Run(r.states + [Apply(Last(r), step)], r.steps + [step], r.users);
    forall i | 0 <= i < |r2.steps|
      ensures StepAt(r2.states, r2.steps, i)
    {
      assert i < |r.steps| ==> StepAt(r.states, r.steps, i);
    }
  }

  function SomeUser(name: string, role: Role): User {
    User(name, name, "", role, true, 0, 0, false)
  }

  function NoChoice(): Choice {
    Choice("", SomeUser("", Member), [], None, true, "")
  }

  /** A call takes no time, so only a fresh lock can be late already. */
  lemma CallStaysWithin(s: State, c: Caller)
    requires Within(s, LATE) && Live(s, c) && Calls(s.callers[c])
    requires s.callers[c].Inserting? ==> s.clock <= s.callers[c].lockedAt + LATE
    requires s.callers[c].Critical? ==> var w := s.callers[c].work; w.Start? || w.Read? || w.Ready? || w.Done?
    ensures Within(Apply(s, Act(c, NoChoice())), LATE)
  {
    var t := Apply(s, Act(c, NoChoice()));
    forall d | d in t.callers && Holds(t, d)
      ensures t.clock <= t.callers[d].token + LATE
    {
      assert d != c || Inside(s.callers[c]) ==> Holds(s, d);
    }
  }

  /** A caller's next call, with nothing left open. */
  lemma Call(r: Run, c: Caller) returns (r2: Run)
    requires LateRun(r) && Live(Last(r), c) && Calls(Last(r).callers[c])
    requires Last(r).callers[c].Inserting? ==> Last(r).clock <= Last(r).callers[c].lockedAt + LATE
    requires Last(r).callers[c].Critical? ==>
      var w := Last(r).callers[c].work; w.Start? || w.Read? || w.Ready? || w.Done?
    ensures LateRun(r2) && r2.users == r.users
    ensures var s, o := Last(r), PhaseNext(Last(r).callers[c], Last(r), NoChoice());
            Last(r2) == s.(callers := s.callers[c := o.phase], row := o.row, users := o.users)
  {
    CallStaysWithin(Last(r), c);
    r2 := Extend(r, Act(c, NoChoice()));
  }

  /** From an attempt on a free row to the point where the write is next. */
  lemma AcquireAndRead(r: Run, c: Caller, op: Operation, k: nat) returns (r2: Run)
    requires LateRun(r) && Live(Last(r), c) && Last(r).callers[c] == Trying(op, k) && k < MAX_ATTEMPTS
    requires Last(r).row == None && op.UpdateUser? && op.id in Last(r).users && op.id != op.actor
    requires |ActiveAdmins(Last(r).users)| >= 2
    ensures LateRun(r2) && r2.users == r.users
    ensures var s := Last(r);
            Last(r2) == s.(callers := s.callers[c := Critical(s.clock, Ready(op))], row := Some(s.clock))
  {
    r2 := Call(r, c);
    r2 := Call(r2, c);
    r2 := Call(r2, c);
    r2 := Call(r2, c);
    assert Last(r2).callers == Last(r).callers[c := Critical(Last(r).clock, Ready(op))];
  }

  /** A failed insert, then a look at the row. */
  lemma FindStale(r: Run, c: Caller, op: Operation, stale: nat) returns (r2: Run)
    requires LateRun(r) && Live(Last(r), c) && Last(r).callers[c] == Trying(op, 0) && Last(r).row == Some(stale)
    ensures LateRun(r2) && r2.users == r.users
    ensures var s := Last(r); Last(r2) == s.(callers := s.callers[c := Judging(op, 0, Some(stale))])
  {
    r2 := Call(r, c);
    r2 := Call(r2, c);
    r2 := Call(r2, c);
    assert Last(r2).callers == Last(r).callers[c := Judging(op, 0, Some(stale))];
  }

  /** A failed insert, then the takeover of a row that looks stale. */
  lemma TakeOver(r: Run, c: Caller, op: Operation, stale: nat) returns (r2: Run)
    requires LateRun(r) && Live(Last(r), c) && Last(r).callers[c] == Trying(op, 0)
    requires Last(r).row == Some(stale) && Last(r).clock > stale + STALE_MS
    ensures LateRun(r2) && r2.users == r.users
    ensures var s := Last(r); Last(r2) == s.(callers := s.callers[c := Trying(op, 1)], row := None)
  {
    r2 := FindStale(r, c, op, stale);
    r2 := Call(r2, c);
    r2 := Call(r2, c);
    assert Last(r2).callers == Last(r).callers[c := Trying(op, 1)];
  }

  function Demote(id: string): Operation {
    UpdateUser(id, "", UserUpdate(None, None, Some(Member), None))
  }

  /** Two admins; the first caller is about to demote "a" with a lock that has just gone stale. */
  function OverrunState(): State {
    State(STALE_MS + 1, Some(0), TwoAdmins(), map[Caller(1, 1) := Critical(0, Ready(Demote("a")))],
          map[1 := Chain(1, {0})], {})
  }

  function TwoAdmins(): Users {
    map["a" := SomeUser("a", Admin), "b" := SomeUser("b", Admin)]
  }

  lemma TwoAdminsCount()
    ensures |ActiveAdmins(TwoAdmins())| == 2 && HasAdmin(TwoAdmins())
  {
    assert ActiveAdmins(TwoAdmins()) == {"a", "b"};
    assert IsActiveAdmin(TwoAdmins()["a"]);
  }

  lemma Overrun() returns (r: Run)
    ensures LateRun(r) && r.users == TwoAdmins() && Last(r) == OverrunState()
  {
    TwoAdminsCount();
    var first := Caller(1, 1);
    r := Run([Init(TwoAdmins())], [], TwoAdmins());
    r := Extend(r, Arrive(1, Demote("a")));
    r := Extend(r, Enter(first));
    assert Last(r).callers == map[first := Trying(Demote("a"), 0)];
    r := AcquireAndRead(r, first, Demote("a"), 0);
    r := Extend(r, Tick(STALE_MS + 1));
    assert Last(r).callers == OverrunState().callers;
  }

  lemma SecondCaller(r: Run) returns (r2: Run)
    requires LateRun(r) && Last(r) == OverrunState()
    ensures LateRun(r2) && r2.users == r.users
    ensures Last(r2) == OverrunState().(callers := Last(r2).callers, chains := Last(r2).chains)
    ensures Last(r2).callers == OverrunState().callers[Caller(2, 1) := Trying(Demote("b"), 0)]
  {
    r2 := Extend(r, Arrive(2, Demote("b")));
    r2 := Extend(r2, Enter(Caller(2, 1)));
    assert Last(r2).callers == OverrunState().callers[Caller(2, 1) := Trying(Demote("b"), 0)];
  }

  lemma SecondHolder(r: Run) returns (r2: Run)
    requires LateRun(r) && Last(r) == OverrunState()
    ensures LateRun(r2) && r2.users == r.users
    ensures Last(r2).users == TwoAdmins() && Last(r2).crashed == {}
    ensures Last(r2).callers == OverrunState().callers[Caller(2, 1) := Critical(STALE_MS + 1, Ready(Demote("b")))]
  {
    TwoAdminsCount();
    var second := Caller(2, 1);
    r2 := SecondCaller(r);
    r2 := TakeOver(r2, second, Demote("b"), 0);
    assert Last(r2).callers == OverrunState().callers[second := Trying(Demote("b"), 1)];
    r2 := AcquireAndRead(r2, second, Demote("b"), 1);
    assert Last(r2).callers == OverrunState().callers[second := Critical(STALE_MS + 1, Ready(Demote("b")))];
  }

  /** A holder that overruns its lock by one millisecond and the one that took over: both are inside. */
  lemma TwoHolders() returns (r: Run)
    ensures LateRun(r) && r.users == TwoAdmins() && !Exclusive(r)
    ensures Last(r).users == TwoAdmins() && Last(r).crashed == {}
    ensures Last(r).callers == OverrunState().callers[Caller(2, 1) := Critical(LATE, Ready(Demote("b")))]
  {
    r := Overrun();
    r := SecondHolder(r);
    assert Holds(Last(r), Caller(1, 1)) && Holds(Last(r), Caller(2, 1));
  }

  /** Together they demote the two admins there are. */
  lemma LateHolderLosesTheLastAdmin() returns (r: Run)
    ensures ValidRun(r) && RunWithin(r, LATE)
    ensures HasAdmin(r.users) && !HasAdmin(Last(r).users)
    ensures !TimelyRun(r.states)
  {
    r := TwoHolders();
    r := Call(r, Caller(2, 1));
    r := Call(r, Caller(1, 1));
    assert Last(r).users == map["a" := SomeUser("a", Member), "b" := SomeUser("b", Member)];
    TwoAdminsCount();
    if TimelyRun(r.states) {
      AnAdminRemains(r.states, r.steps, r.users, 0, |r.states| - 1);
    }
  }

  lemma RunWithinMore(r: Run, less: int, more: int)
    requires RunWithin(r, less) && less <= more
    ensures RunWithin(r, more)
  {
    forall i | 0 <= i < |r.states|
      ensures Within(r.states[i], more)
    {
      assert Within(r.states[i], less);
    }
  }

  lemma TimelyKeepsAdmin(r: Run)
    requires ValidRun(r) && RunWithin(r, STALE_MS)
    ensures KeepsAdmin(r) && Exclusive(r)
  {
    assert TimelyRun(r.states) by {
      forall i | 0 <= i < |r.states|
        ensures Timely(r.states[i])
      {
        assert Within(r.states[i], STALE_MS);
      }
    }
    forall i, j | 0 <= i <= j < |r.states| && HasAdmin(r.states[i].users)
      ensures HasAdmin(r.states[j].users)
    {
      AnAdminRemains(r.states, r.steps, r.users, i, j);
    }
    forall i, c, d | 0 <= i < |r.states| && Holds(r.states[i], c) && Holds(r.states[i], d)
      ensures c == d
    {
      MutualExclusion(r.states, r.steps, r.users, i, c, d);
    }
  }

  /** How late is too late: the last-admin rule holds in all runs whose holders are done by lockedAt + bound exactly
      for the bounds up to staleMs. */
  lemma LastAdminIsSafeExactlyWithin(bound: int)
    ensures (forall r: Run :: ValidRun(r) && RunWithin(r, bound) ==> KeepsAdmin(r)) <==> bound <= STALE_MS
  {
    if bound <= STALE_MS {
      forall r: Run | ValidRun(r) && RunWithin(r, bound)
        ensures KeepsAdmin(r)
      {
        RunWithinMore(r, bound, STALE_MS);
        TimelyKeepsAdmin(r);
      }
    } else {
      var r := LateHolderLosesTheLastAdmin();
      RunWithinMore(r, LATE, bound);
      assert r.states[0].users == r.users;
      assert !KeepsAdmin(r);
    }
  }

  /** The same bound is exact for mutual exclusion. */
  lemma LockIsExclusiveExactlyWithin(bound: int)
    ensures (forall r: Run :: ValidRun(r) && RunWithin(r, bound) ==> Exclusive(r)) <==> bound <= STALE_MS
  {
    if bound <= STALE_MS {
      forall r: Run | ValidRun(r) && RunWithin(r, bound)
        ensures Exclusive(r)
      {
        RunWithinMore(r, bound, STALE_MS);
        TimelyKeepsAdmin(r);
      }
    } else {
      var r := TwoHolders();
      RunWithinMore(r, LATE, bound);
    }
  }
}
