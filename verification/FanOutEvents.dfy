/** What the single events do to a client and to the registry, and who gets to stream at all. */
module FanOutEvents {
  import opened FanOut
  import opened Results

  /** The client stands in the set of no live subscription. */
  predicate InNoLiveSet(s: State, c: nat) {
    forall id :: 0 <= id < |s.subs| && s.subs[id].live ==> c !in s.subs[id].clients
  }

  // ---------- who streams ----------

  /** The history of c was answered, and access granted, by a step before i. */
  ghost predicate Admitted(steps: seq<Step>, c: nat, i: nat)
    requires i <= |steps|
  {
    exists k :: 0 <= k < i && steps[k] == History(c, true)
  }

  /** A client gets past its history only by a step that grants access. */
  lemma OnlyHistoryAdmits(s: State, step: Step, c: nat)
    requires Inv(s) && Enabled(s, step) && c in s.clients && s.clients[c].phase.Fetching?
    ensures c in Apply(s, step).clients
    ensures Apply(s, step).clients[c].phase.Fetching? || step == History(c, true)
            || (step == History(c, false) && Apply(s, step).clients[c].phase == Returned)
  {
    match step
    case Publish(bot, msg) => PublishReaches(s, bot, msg, 0);
    case Keepalive(d) => KeepaliveMoves(s, d, c);
    case Close(d) => CleanupMoves(s, d, c);
    case Resume(d, subscribed) => ResumeOthers(s, d, subscribed, c);
    case Join(d) => JoinOthers(s, d, c);
    case _ =>
  }

  lemma ResumeOthers(s: State, c: nat, subscribed: bool, d: nat)
    requires c in s.clients && s.clients[c].phase == Resumed && d in s.clients && d != c
    ensures d in AfterHistory(s, c, subscribed).clients
    ensures AfterHistory(s, c, subscribed).clients[d] == s.clients[d]
  {
    CleanupOthers(s, c);
  }

  lemma JoinOthers(s: State, c: nat, d: nat)
    requires c in s.clients && s.clients[c].phase.Got? && d in s.clients && d != c
    ensures d in Joined(s, c).clients && Joined(s, c).clients[d] == s.clients[d]
  {
    CleanupOthers(s, c);
  }

  lemma CleanupOthers(s: State, c: nat)
    requires c in s.clients
    ensures CleanedUp(s, c).clients == s.clients[c := s.clients[c].(disconnected := true, keepalive := false)]
  {
    DetachKeepsClients(
      s.(clients := s.clients[c := s.clients[c].(disconnected := true, keepalive := false)]), c, s.clients[c].bot);
  }

  predicate PastHistory(p: Phase) {
    !p.Fetching? && !p.Returned?
  }

  /** Over every run: a client that subscribes, waits or streams was granted access. */
  lemma {:induction false} OnlyAdmittedStream(states: seq<State>, steps: seq<Step>, i: nat, c: nat)
    requires IsRun(states, steps) && i < |states| && c in states[i].clients && PastHistory(states[i].clients[c].phase)
    ensures Admitted(steps, c, i)
  {
    if i == 0 {
    } else {
      var s, step := states[i - 1], steps[i - 1];
      RunInvariant(states, steps, i - 1);
      assert StepAt(states, steps, i - 1);
      if c !in s.clients {
        NewClient(s, step, c);
      } else if PastHistory(s.clients[c].phase) {
        OnlyAdmittedStream(states, steps, i - 1, c);
      } else if s.clients[c].phase.Fetching? {
        OnlyHistoryAdmits(s, step, c);
      } else {
        StepMoves(s, step, c);
      }
    }
  }

  /** Nothing is heard before the history. */
  lemma {:induction false} NothingHeardBefore(states: seq<State>, steps: seq<Step>, i: nat, c: nat)
    requires IsRun(states, steps) && i < |states| && c in states[i].clients && states[i].clients[c].phase.Fetching?
    ensures states[i].clients[c].received == []
  {
    if i == 0 {
    } else {
      var s, step := states[i - 1], steps[i - 1];
      RunInvariant(states, steps, i - 1);
      assert StepAt(states, steps, i - 1);
      if c !in s.clients {
        NewClient(s, step, c);
      } else {
        StepMoves(s, step, c);
        NothingHeardBefore(states, steps, i - 1, c);
        StepIsHeard(s, step, c);
      }
    }
  }

  predicate IsRefused(s: State, c: nat) {
    c in s.clients && s.clients[c].ended && s.clients[c].phase == Returned && s.clients[c].received == []
  }

  lemma RefusedStays(s: State, step: Step, c: nat)
    requires Inv(s) && Enabled(s, step) && IsRefused(s, c)
    ensures IsRefused(Apply(s, step), c)
  {
    StepMoves(s, step, c);
    StepIsHeard(s, step, c);
  }

  /** Over every run: a client that was refused access is ended, in no live subscription's set, and has received
      nothing, from that step on for ever. */
  lemma {:induction false} RefusedIsOut(states: seq<State>, steps: seq<Step>, k: nat, i: nat, c: nat)
    requires IsRun(states, steps) && k < i < |states| && steps[k] == History(c, false)
    ensures IsRefused(states[i], c) && InNoLiveSet(states[i], c)
  {
    var s, step := states[i - 1], steps[i - 1];
    RunInvariant(states, steps, i - 1);
    RunInvariant(states, steps, i);
    assert StepAt(states, steps, i - 1);
    if k == i - 1 {
      NothingHeardBefore(states, steps, k, c);
    } else {
      RefusedIsOut(states, steps, k, i - 1, c);
      RefusedStays(s, step, c);
    }
    Outside(states[i], c);
  }

  // ---------- single events ----------

  /** A client connects with nothing, and its history decides: it goes on, or its response ends. */
  lemma ConnectAndHistoryDo(s: State, c: nat, bot: string, allowed: bool)
    ensures Enabled(s, Connect(c, bot)) ==>
      Apply(s, Connect(c, bot)) ==
        s.(clients := s.clients[c := Client(bot, Fetching, false, false, false, false, 0, [])])
    ensures Enabled(s, History(c, allowed)) ==>
      && Apply(s, History(c, allowed)).subs == s.subs && Apply(s, History(c, allowed)).active == s.active
      && Apply(s, History(c, allowed)).pending == s.pending
      && Apply(s, History(c, allowed)).clients ==
           s.clients[c := if allowed then s.clients[c].(phase := Resumed)
                          else s.clients[c].(phase := Returned, ended := true)]
  {
  }

  /** The step after the history, for a client that is still there: it joins the bot's subscription, waits for the one
      that is being created, or creates one - or is told that live updates are missing. */
  lemma ResumeDoes(s: State, c: nat, subscribed: bool)
    requires Inv(s) && Enabled(s, Resume(c, subscribed)) && !s.clients[c].disconnected
    ensures var t, bot := Apply(s, Resume(c, subscribed)), s.clients[c].bot;
      if bot in s.active
      then t == s.(clients := s.clients[c := s.clients[c].(phase := Got(Some(s.active[bot])))])
      else if bot in s.pending
      then t == s.(clients := s.clients[c := s.clients[c].(phase := PendingAwait(s.pending[bot]))])
      else if subscribed
      then
        && t.subs == s.subs + [Subscription(bot, {c}, true, 0)] && t.active == s.active[bot := |s.subs|]
        && t.clients == s.clients[c := s.clients[c].(phase := CreateAwait(Some(|s.subs|)))]
      else
        && t.subs == s.subs && t.active == s.active
        && t.clients == s.clients[c := s.clients[c].(phase := CreateAwait(None), warnings := s.clients[c].warnings + 1)]
  {
  }

  /** A client that left during its history does not subscribe. */
  lemma LateResumeDoes(s: State, c: nat, subscribed: bool)
    requires Inv(s) && Enabled(s, Resume(c, subscribed)) && s.clients[c].disconnected
    ensures var t := Apply(s, Resume(c, subscribed));
      t.subs == s.subs && t.active == s.active && t.pending == s.pending && t.clients[c].phase == Returned
  {
    var bot := s.clients[c].bot;
    assert ActiveOk(s, bot);
    Outside(s, c);
    if bot in s.active {
      assert SubOkBut(s, s.active[bot], None);
    }
    DetachNothing(s.(clients := s.clients[c := s.clients[c].(disconnected := true, keepalive := false)]), c, bot);
  }

  /** The creator's continuation: it goes on with what it created, and nobody waits for it any more. */
  lemma CreateDoneDoes(s: State, c: nat)
    requires Enabled(s, CreateDone(c))
    ensures var t := Apply(s, CreateDone(c));
      && t.subs == s.subs && t.active == s.active && t.pending == s.pending - {s.clients[c].bot}
      && t.clients == s.clients[c := s.clients[c].(phase := Got(s.clients[c].phase.sub))]
  {
  }

  /** A waiter's continuation: whatever the creation gave, it goes on with the bot's active subscription, if there is
      one, and without any otherwise. */
  lemma PendingDoneDoes(s: State, c: nat)
    requires Inv(s) && Enabled(s, PendingDone(c))
    ensures var t, bot := Apply(s, PendingDone(c)), s.clients[c].bot;
      && t.subs == s.subs && t.active == s.active && t.pending == s.pending
      && t.clients == s.clients[c := s.clients[c].(phase := Got(if bot in s.active then Some(s.active[bot]) else None))]
  {
    assert ClientOk(s, c);
  }

  /** Joining: the client is in the set, its keepalive runs, and as long as it can be written to it is a live member. */
  lemma JoinDoes(s: State, c: nat)
    requires Inv(s) && Enabled(s, Join(c))
    ensures var t, sub := Apply(s, Join(c)), s.clients[c].phase.sub;
      && t.active == s.active && t.pending == s.pending
      && t.clients == s.clients[c := s.clients[c].(phase := Streaming(sub), keepalive := true)]
      && (sub.None? ==> t.subs == s.subs)
      && (sub.Some? ==>
            && sub.value < |s.subs|
            && t.subs == s.subs[sub.value := s.subs[sub.value].(clients := s.subs[sub.value].clients + {c})])
      && (sub.Some? && Writable(s.clients[c]) ==> IsLiveMember(t, c))
  {
    assert ClientOk(s, c);
  }

  /** From the history to live updates: a connected client of a bot that is active, or that NATS lets subscribe, is a
      live member two or three steps later. */
  lemma AdmittedGoesLive(s: State, c: nat, subscribed: bool)
    requires Inv(s) && Enabled(s, Resume(c, subscribed)) && !s.clients[c].disconnected && Writable(s.clients[c])
    requires s.clients[c].bot in s.active || (subscribed && s.clients[c].bot !in s.pending)
    ensures var t := Apply(s, Resume(c, subscribed));
      var u := if s.clients[c].bot in s.active then t else Created(t, c);
      Enabled(u, Join(c)) && IsLiveMember(Apply(u, Join(c)), c)
  {
    var t := Apply(s, Resume(c, subscribed));
    StepKeepsInv(s, Resume(c, subscribed));
    if s.clients[c].bot in s.active {
      JoinDoes(t, c);
    } else {
      StepKeepsInv(t, CreateDone(c));
      JoinDoes(Created(t, c), c);
    }
  }

  function Created(s: State, c: nat): State {
    if Enabled(s, CreateDone(c)) then Apply(s, CreateDone(c)) else s
  }

  // ---------- waiters ----------

  predicate IsActiveSub(s: State, bot: string, result: SubscriptionResult) {
    result.subscription.Some? ==> bot in s.active && s.active[bot] == result.subscription.value
  }

  /** A creation that went well is the active one for as long as somebody waits for it. */
  ghost predicate Served(s: State) {
    && (forall bot :: bot in s.pending ==> IsActiveSub(s, bot, s.pending[bot]))
    && (forall c :: c in s.clients ==> IsServed(s, c))
  }

  predicate IsServed(s: State, c: nat)
    requires c in s.clients
  {
    s.clients[c].phase.PendingAwait? ==> IsActiveSub(s, s.clients[c].bot, s.clients[c].phase.result)
  }

  /** An event that is no continuation finds and leaves no waiter. */
  lemma EventsKeepServed(s: State, step: Step)
    requires Inv(s) && Quiet(s) && Enabled(s, step) && Inv(Apply(s, step))
    ensures Served(Apply(s, step))
  {
    var t := Apply(s, step);
    forall c | c in t.clients
      ensures !t.clients[c].phase.PendingAwait? && !t.clients[c].phase.CreateAwait?
    {
      if c in s.clients {
        StepMoves(s, step, c);
      } else {
        NewClient(s, step, c);
      }
    }
    forall bot ensures bot !in t.pending {
      assert PendingOk(t, bot);
    }
  }

  lemma ResumeKeepsServed(s: State, c: nat, subscribed: bool)
    requires Inv(s) && Served(s) && Enabled(s, Resume(c, subscribed))
    ensures Served(Apply(s, Resume(c, subscribed)))
  {
    var t := Apply(s, Resume(c, subscribed));
    if s.clients[c].disconnected {
      LateResumeDoes(s, c, subscribed);
    }
    forall d | d in t.clients
      ensures IsServed(t, d)
    {
      if d != c {
        CleanupOthers(s, c);
        assert IsServed(s, d);
      }
    }
  }

  lemma StepKeepsServed(s: State, step: Step)
    requires Inv(s) && Served(s) && Enabled(s, step)
    ensures Served(Apply(s, step))
  {
    StepKeepsInv(s, step);
    match step
    case History(c, allowed) => OneMoves(s, Apply(s, step), c);
    case Resume(c, subscribed) => ResumeKeepsServed(s, c, subscribed);
    case CreateDone(c) => OneMoves(s, Apply(s, step), c);
    case PendingDone(c) =>
      PendingDoneDoes(s, c);
      OneMoves(s, Apply(s, step), c);
    case Join(c) =>
      assert ClientOk(s, c);
      OneMoves(s, Apply(s, step), c);
    case _ => EventsKeepServed(s, step);
  }

  lemma OneMoves(s: State, t: State, c: nat)
    requires Served(s) && c in s.clients && t.active == s.active
    requires forall bot :: bot in t.pending ==> bot in s.pending && t.pending[bot] == s.pending[bot]
    requires t.clients.Keys == s.clients.Keys && !t.clients[c].phase.PendingAwait?
    requires forall d :: d in s.clients && d != c ==> t.clients[d] == s.clients[d]
    ensures Served(t)
  {
    forall d | d in t.clients ensures IsServed(t, d) { assert IsServed(s, d); }
  }

  lemma {:induction false} ServedInRuns(states: seq<State>, steps: seq<Step>, i: nat)
    requires IsRun(states, steps) && i < |states|
    ensures Served(states[i])
  {
    if i == 0 {
    } else {
      ServedInRuns(states, steps, i - 1);
      RunInvariant(states, steps, i - 1);
      assert StepAt(states, steps, i - 1);
      StepKeepsServed(states[i - 1], steps[i - 1]);
    }
  }

  /** Over every run: a client that waited for a creation that went well gets that very subscription, and is a live
      member of it once it has joined, as long as it can be written to. */
  lemma WaiterGoesLive(states: seq<State>, steps: seq<Step>, i: nat, c: nat)
    requires IsRun(states, steps) && i < |states|
    requires Enabled(states[i], PendingDone(c)) && states[i].clients[c].phase.result.subscription.Some?
    ensures var t := Apply(states[i], PendingDone(c));
      && t.clients[c].phase == Got(states[i].clients[c].phase.result.subscription)
      && (Writable(states[i].clients[c]) ==> Enabled(t, Join(c)) && IsLiveMember(Apply(t, Join(c)), c))
  {
    ServedInRuns(states, steps, i);
    RunInvariant(states, steps, i);
    assert IsServed(states[i], c);
    PendingDoneDoes(states[i], c);
    StepKeepsInv(states[i], PendingDone(c));
    JoinDoes(Apply(states[i], PendingDone(c)), c);
  }

  /** A closed request: the client is marked, its keepalive stopped, and it is in no live subscription's set. */
  lemma CloseDoes(s: State, c: nat)
    requires Inv(s) && Enabled(s, Close(c))
    ensures var t := Apply(s, Close(c));
      && t.clients == s.clients[c := s.clients[c].(disconnected := true, keepalive := false)] && InNoLiveSet(t, c)
      && t.pending == s.pending
  {
    var t := Apply(s, Close(c));
    CleanupKeepsInv(s, c);
    DetachKeepsClients(
      s.(clients := s.clients[c := s.clients[c].(disconnected := true, keepalive := false)]), c, s.clients[c].bot);
    forall id | 0 <= id < |t.subs| && t.subs[id].live
      ensures c !in t.subs[id].clients
    {
      assert SubOkBut(t, id, None);
      assert c in t.subs[id].clients ==> MemberOk(t, c, id);
    }
  }

  /** A keepalive leaves a writable client alone; one that cannot be written to loses its timer and its place. */
  lemma KeepaliveDoes(s: State, c: nat)
    requires Inv(s) && Enabled(s, Keepalive(c))
    ensures Writable(s.clients[c]) ==> Apply(s, Keepalive(c)) == s
    ensures !Writable(s.clients[c]) ==>
      var t := Apply(s, Keepalive(c));
      && t.clients == s.clients[c := s.clients[c].(keepalive := false)] && InNoLiveSet(t, c) && t.pending == s.pending
  {
    if !Writable(s.clients[c]) {
      TimerGone(s, c);
    }
  }

  lemma TimerGone(s: State, c: nat)
    requires Inv(s) && Enabled(s, Keepalive(c)) && !Writable(s.clients[c])
    ensures var t := KeptAlive(s, c);
      && t.clients == s.clients[c := s.clients[c].(keepalive := false)] && InNoLiveSet(t, c) && t.pending == s.pending
  {
    var bot, u := s.clients[c].bot, s.(clients := s.clients[c := s.clients[c].(keepalive := false)]);
    DetachKeepsClients(u, c, bot);
    var t := KeptAlive(s, c);
    assert ActiveOk(s, bot);
    forall id | 0 <= id < |t.subs| && t.subs[id].live
      ensures c !in t.subs[id].clients
    {
      assert SubOkBut(s, id, None);
      assert c in s.subs[id].clients && s.subs[id].live ==> MemberOk(s, c, id);
    }
  }

  /** A publication: of the bot's set those stay that can be written to, and the subscription is closed exactly when
      there are none; other bots' subscriptions are untouched. */
  lemma PublishDoes(s: State, bot: string, msg: string)
    requires Inv(s) && Quiet(s)
    ensures var t := Apply(s, Publish(bot, msg));
      if bot !in s.active then t == s
      else
        var id := s.active[bot];
        var kept := set c | c in s.subs[id].clients && c in s.clients && Writable(s.clients[c]);
        && |t.subs| == |s.subs| && t.pending == s.pending
        && (forall i :: 0 <= i < |s.subs| && i != id ==> t.subs[i] == s.subs[i])
        && t.subs[id].clients == kept && (t.subs[id].live <==> kept != {})
        && t.active == if kept == {} then s.active - {bot} else s.active
  {
    PublishReaches(s, bot, msg, 0);
    assert ActiveOk(s, bot);
    if bot in s.active {
      assert SubOkBut(s, s.active[bot], None);
    }
  }

  /** A response that ends or breaks is only marked; the next keepalive or message finds it. */
  lemma EndAndBreakDo(s: State, c: nat)
    ensures Enabled(s, End(c)) ==>
      Apply(s, End(c)) == s.(clients := s.clients[c := s.clients[c].(ended := true)])
    ensures Enabled(s, Break(c)) ==>
      Apply(s, Break(c)) == s.(clients := s.clients[c := s.clients[c].(broken := true)])
  {
  }
}
