/** Live log streaming: one NATS subscription per bot, shared by all SSE clients of the process. Promise
    continuations are steps of their own; request, timer and message events happen only when no
    continuation is left to run. */
module FanOut {
  import opened Results

  // ---------- state ----------

  /** How far streamLogs has come for one client. The middle phases are continuations that run before the
      next event; Streaming(None) is a client without live updates. */
  datatype Phase =
    | Fetching
    | Resumed
    | CreateAwait(sub: Option<nat>)
    | PendingAwait(result: SubscriptionResult)
    | Got(sub: Option<nat>)
    | Streaming(sub: Option<nat>)
    | Returned

  datatype Client = Client(
    bot: string,
    phase: Phase,
    disconnected: bool,
    ended: bool,
    broken: bool,
    keepalive: bool,
    warnings: nat,
    received: seq<string>)

  /** What createSubscription returns. */
  datatype SubscriptionResult = SubscriptionResult(subscription: Option<nat>, warningsSent: bool)

  /** A NATS subscription with the client set its callback closes over. */
  datatype Subscription = Subscription(bot: string, clients: set<nat>, live: bool, closes: nat)

  datatype State = State(
    clients: map<nat, Client>,
    subs: seq<Subscription>,
    active: map<string, nat>,
    pending: map<string, SubscriptionResult>)

  predicate Writable(c: Client) {
    !c.ended && !c.broken
  }

  predicate IsContinuation(p: Phase) {
    p.Resumed? || p.CreateAwait? || p.PendingAwait? || p.Got?
  }

  /** No continuation is left: the next event may happen. */
  predicate Quiet(s: State) {
    forall c :: c in s.clients ==> !IsContinuation(s.clients[c].phase)
  }

  predicate ValidIds(s: State) {
    forall bot :: bot in s.active ==> s.active[bot] < |s.subs|
  }

  // ---------- the pieces of the handlers ----------

  function SetPhase(s: State, c: nat, p: Phase): State
    requires c in s.clients
  {
    s.(clients := s.clients[c := s.clients[c].(phase := p)])
  }

  function ActiveSub(s: State, bot: string): Option<nat> {
    if bot in s.active then Some(s.active[bot]) else None
  }

  /** Subscriptions are held by reference, so an id in a map is always an index (see ValidIds). */
  function CloseActive(s: State, bot: string): (t: State)
    ensures |t.subs| == |s.subs|
  {
    if bot !in s.active || s.active[bot] >= |s.subs| then s
    else
      var id := s.active[bot];
      s.(subs := s.subs[id := s.subs[id].(live := false, closes := s.subs[id].closes + 1)], active := s.active - {bot})
  }

  /** Take a client out of its bot's active subscription, and close the subscription when it was the last. */
  function Detached(s: State, c: nat, bot: string): State {
    if bot !in s.active || s.active[bot] >= |s.subs| then s
    else
      var id := s.active[bot];
      var rest := s.subs[id].clients - {c};
      var t := s.(subs := s.subs[id := s.subs[id].(clients := rest)]);
      if rest == {} then CloseActive(t, bot) else t
  }

  /** The cleanup closure of one request. */
  function CleanedUp(s: State, c: nat): (t: State)
    requires c in s.clients
    ensures t.clients.Keys == s.clients.Keys
  {
    var t := s.(clients := s.clients[c := s.clients[c].(disconnected := true, keepalive := false)]);
    Detached(t, c, s.clients[c].bot)
  }

  /** The clients of a set that can still be written to. */
  function Kept(clients: map<nat, Client>, members: set<nat>): set<nat> {
    set c | c in members && c in clients && Writable(clients[c])
  }

  /** The same message for each of them. */
  function WrittenTo(clients: map<nat, Client>, members: set<nat>, msg: string): map<nat, Client> {
    map c | c in clients ::
      if c in members && Writable(clients[c]) then clients[c].(received := clients[c].received + [msg]) else clients[c]
  }

  lemma NoneWritten(clients: map<nat, Client>, msg: string)
    ensures WrittenTo(clients, {}, msg) == clients && Kept(clients, {}) == {}
  {
  }

  /** Writing to one more client. */
  lemma OneMoreWritten(clients: map<nat, Client>, done: set<nat>, c: nat, msg: string)
    requires c in clients && c !in done
    ensures WrittenTo(clients, done, msg)[c] == clients[c]
    ensures Kept(clients, done + {c}) == Kept(clients, done) + if Writable(clients[c]) then {c} else {}
    ensures WrittenTo(clients, done + {c}, msg) ==
      if Writable(clients[c])
      then WrittenTo(clients, done, msg)[c := clients[c].(received := clients[c].received + [msg])]
      else WrittenTo(clients, done, msg)
  {
  }

  /** The subscription callback: writable clients get the message, the others are dropped. */
  function Delivered(s: State, id: nat, msg: string): (t: State)
    requires id < |s.subs|
    ensures |t.subs| == |s.subs|
  {
    var members := s.subs[id].clients;
    var kept := Kept(s.clients, members);
    var t := s.(clients := WrittenTo(s.clients, members, msg), subs := s.subs[id := s.subs[id].(clients := kept)]);
    if kept == {} then CloseActive(t, s.subs[id].bot) else t
  }

  /** A published message reaches every live subscription of the bot, from index i on. */
  function Published(s: State, bot: string, msg: string, i: nat): State
    requires i <= |s.subs|
    decreases |s.subs| - i
  {
    if i == |s.subs| then s
    else Published(if s.subs[i].live && s.subs[i].bot == bot then Delivered(s, i, msg) else s, bot, msg, i + 1)
  }

  // ---------- steps ----------

  datatype Step =
    | Connect(c: nat, bot: string)
    | History(c: nat, allowed: bool)
    | Resume(c: nat, subscribed: bool)
    | CreateDone(c: nat)
    | PendingDone(c: nat)
    | Join(c: nat)
    | Close(c: nat)
    | End(c: nat)
    | Break(c: nat)
    | Keepalive(c: nat)
    | Publish(bot: string, msg: string)

  predicate Enabled(s: State, step: Step) {
    match step
    case Connect(c, _) => Quiet(s) && c !in s.clients
    case History(c, _) => c in s.clients && s.clients[c].phase == Fetching
    case Resume(c, _) => c in s.clients && s.clients[c].phase == Resumed
    case CreateDone(c) => c in s.clients && s.clients[c].phase.CreateAwait?
    case PendingDone(c) => c in s.clients && s.clients[c].phase.PendingAwait?
    case Join(c) => c in s.clients && s.clients[c].phase.Got?
    case Close(c) => Quiet(s) && c in s.clients
    case End(c) => Quiet(s) && c in s.clients
    case Break(c) => Quiet(s) && c in s.clients
    case Keepalive(c) => Quiet(s) && c in s.clients && s.clients[c].keepalive
    case Publish(_, _) => Quiet(s)
  }

  /** One "Live streaming unavailable" event. */
  function Warned(s: State, c: nat): State
    requires c in s.clients
  {
    s.(clients := s.clients[c := s.clients[c].(warnings := s.clients[c].warnings + 1)])
  }

  /** A waiter's continuation: warn, or look the active map up again. */
  function AfterPending(s: State, c: nat): State
    requires c in s.clients && s.clients[c].phase.PendingAwait?
  {
    var result := s.clients[c].phase.result;
    if result.subscription.None? && !result.warningsSent then SetPhase(Warned(s, c), c, Got(None))
    else SetPhase(s, c, Got(ActiveSub(s, s.clients[c].bot)))
  }

  /** After the history: cleanup for a client that left, else get or create the subscription. */
  function AfterHistory(s: State, c: nat, subscribed: bool): State
    requires c in s.clients
  {
    var bot := s.clients[c].bot;
    if s.clients[c].disconnected then SetPhase(CleanedUp(s, c), c, Returned)
    else if bot in s.active then SetPhase(s, c, Got(Some(s.active[bot])))
    else if bot in s.pending then SetPhase(s, c, PendingAwait(s.pending[bot]))
    else if !subscribed then
      SetPhase(Warned(s, c), c, CreateAwait(None)).(pending := s.pending[bot := SubscriptionResult(None, true)])
    else
      var id := |s.subs|;
      SetPhase(s, c, CreateAwait(Some(id))).(
        subs := s.subs + [Subscription(bot, {c}, true, 0)],
        active := s.active[bot := id],
        pending := s.pending[bot := SubscriptionResult(Some(id), false)])
  }

  /** setupFanOut, or the second disconnect check. */
  function Joined(s: State, c: nat): State
    requires c in s.clients && s.clients[c].phase.Got?
  {
    var sub := s.clients[c].phase.sub;
    if s.clients[c].disconnected then SetPhase(CleanedUp(s, c), c, Returned)
    else
      var t := s.(clients := s.clients[c := s.clients[c].(phase := Streaming(sub), keepalive := true)]);
      if sub.None? || sub.value >= |s.subs| then t
      else t.(subs := t.subs[sub.value := t.subs[sub.value].(clients := t.subs[sub.value].clients + {c})])
  }

  function KeptAlive(s: State, c: nat): State
    requires c in s.clients
  {
    if Writable(s.clients[c]) then s
    else Detached(s.(clients := s.clients[c := s.clients[c].(keepalive := false)]), c, s.clients[c].bot)
  }

  function Apply(s: State, step: Step): State
    requires Enabled(s, step)
  {
    match step
    case Connect(c, bot) => s.(clients := s.clients[c := Client(bot, Fetching, false, false, false, false, 0, [])])
    case History(c, allowed) =>
      if allowed then SetPhase(s, c, Resumed)
      else s.(clients := s.clients[c := s.clients[c].(phase := Returned, ended := true)])
    case Resume(c, subscribed) => AfterHistory(s, c, subscribed)
    case CreateDone(c) => SetPhase(s, c, Got(s.clients[c].phase.sub)).(pending := s.pending - {s.clients[c].bot})
    case PendingDone(c) => AfterPending(s, c)
    case Join(c) => Joined(s, c)
    case Close(c) => CleanedUp(s, c)
    case End(c) => s.(clients := s.clients[c := s.clients[c].(ended := true)])
    case Break(c) => s.(clients := s.clients[c := s.clients[c].(broken := true)])
    case Keepalive(c) => KeptAlive(s, c)
    case Publish(bot, msg) => Published(s, bot, msg, 0)
  }

  // ---------- the invariant ----------

  /** The subscription a client has been given. */
  function SubOf(p: Phase): Option<nat> {
    if p.CreateAwait? || p.Got? || p.Streaming? then p.sub else None
  }

  /** A client that takes part in live updates. */
  predicate IsLiveMember(s: State, c: nat) {
    c in s.clients && s.clients[c].phase.Streaming? && s.clients[c].phase.sub.Some?
    && !s.clients[c].disconnected && Writable(s.clients[c])
  }

  predicate ActiveOk(s: State, bot: string) {
    bot in s.active ==> s.active[bot] < |s.subs| && s.subs[s.active[bot]].live && s.subs[s.active[bot]].bot == bot
  }

  /** A client that may stand in the set of subscription id: it belongs there and has not left. */
  predicate MemberOk(s: State, c: nat, id: nat)
    requires id < |s.subs|
  {
    c in s.clients && s.clients[c].bot == s.subs[id].bot && !s.clients[c].disconnected
    && SubOf(s.clients[c].phase) == Some(id)
  }

  /** A live subscription is its bot's active one, was never closed, and serves at least one client; a
      subscription that is not live was closed exactly once. `leaver` is a client about to be taken out. */
  predicate SubOkBut(s: State, id: nat, leaver: Option<nat>)
    requires id < |s.subs|
  {
    var sub := s.subs[id];
    if !sub.live then sub.closes == 1
    else
      && sub.closes == 0
      && sub.bot in s.active && s.active[sub.bot] == id
      && sub.clients != {}
      && forall c :: c in sub.clients ==>
           if Some(c) == leaver then c in s.clients && s.clients[c].bot == sub.bot else MemberOk(s, c, id)
  }

  /** A client about to join has a live subscription of its bot; a live member is in its set. */
  predicate ClientOk(s: State, c: nat)
    requires c in s.clients
  {
    var cl := s.clients[c];
    && ((cl.phase.CreateAwait? || cl.phase.Got? || IsLiveMember(s, c)) && cl.phase.sub.Some? ==>
          cl.phase.sub.value < |s.subs| && s.subs[cl.phase.sub.value].live && s.subs[cl.phase.sub.value].bot == cl.bot)
    && (IsLiveMember(s, c) ==> c in s.subs[cl.phase.sub.value].clients)
    && (IsContinuation(cl.phase) && cl.disconnected ==> cl.phase == Resumed)
    && (cl.keepalive ==> cl.phase.Streaming?)
    && WarningsOk(cl)
  }

  /** Nobody is warned twice, and nobody is warned who has a subscription or waits for one. */
  predicate WarningsOk(cl: Client) {
    && cl.warnings <= 1
    && (cl.phase.Fetching? || cl.phase.Resumed? || cl.phase.PendingAwait? ==> cl.warnings == 0)
    && (cl.phase.CreateAwait? ==> cl.warnings == if cl.phase.sub.None? then 1 else 0)
    && ((cl.phase.Got? || cl.phase.Streaming?) && cl.phase.sub.Some? ==> cl.warnings == 0)
    && (cl.phase.PendingAwait? ==> ResultOk(cl.phase.result))
  }

  /** A creation that fails has warned its client. */
  predicate ResultOk(r: SubscriptionResult) {
    r.warningsSent <==> r.subscription.None?
  }

  predicate PendingOk(s: State, bot: string) {
    bot in s.pending ==>
      && ResultOk(s.pending[bot])
      && exists c :: c in s.clients && s.clients[c].bot == bot && s.clients[c].phase.CreateAwait?
  }

  /** One creator per bot at a time, and its result is what the waiters look up. */
  ghost predicate InvBut(s: State, leaver: Option<nat>) {
    && ValidIds(s)
    && (forall bot :: ActiveOk(s, bot) && PendingOk(s, bot))
    && (forall id :: 0 <= id < |s.subs| ==> SubOkBut(s, id, leaver))
    && (forall c :: c in s.clients ==> ClientOk(s, c))
  }

  ghost predicate Inv(s: State) {
    InvBut(s, None)
  }

  function Init(): State {
    State(map[], [], map[], map[])
  }

  // ---------- preservation ----------

  /** Taking out a client that has left keeps the invariant. */
  lemma DetachKeepsInv(s: State, c: nat)
    requires c in s.clients && InvBut(s, Some(c)) && !IsLiveMember(s, c)
    requires forall d :: d in s.clients && (s.clients[d].phase.CreateAwait? || s.clients[d].phase.Got?) ==>
               d != c && s.clients[d].bot != s.clients[c].bot
    ensures Inv(Detached(s, c, s.clients[c].bot))
  {
    var bot := s.clients[c].bot;
    var t := Detached(s, c, bot);
    forall b
      ensures ActiveOk(t, b) && PendingOk(t, b)
    {
      assert ActiveOk(s, b) && PendingOk(s, b) && ActiveOk(s, bot);
    }
    forall id | 0 <= id < |t.subs|
      ensures SubOkBut(t, id, None)
    {
      DetachedSub(s, c, id);
    }
    forall d | d in t.clients
      ensures ClientOk(t, d)
    {
      assert ClientOk(s, d) && ActiveOk(s, bot);
      if IsLiveMember(s, d) && bot in s.active {
        assert d in s.subs[s.active[bot]].clients - {c} || s.clients[d].phase.sub.value != s.active[bot];
      }
    }
  }

  lemma DetachedSub(s: State, c: nat, id: nat)
    requires c in s.clients && InvBut(s, Some(c)) && id < |s.subs|
    ensures SubOkBut(Detached(s, c, s.clients[c].bot), id, None)
  {
    var bot := s.clients[c].bot;
    var t := Detached(s, c, bot);
    assert SubOkBut(s, id, Some(c)) && ActiveOk(s, bot);
    if s.subs[id].live {
      assert c in s.subs[id].clients ==> s.subs[id].bot == bot;
      if bot in s.active && s.active[bot] == id {
        assert t.subs[id].clients == s.subs[id].clients - {c};
        if t.subs[id].live {
          forall d | d in t.subs[id].clients ensures MemberOk(t, d, id) { assert MemberOk(s, d, id); }
        }
      } else {
        assert t.subs[id] == s.subs[id] && s.subs[id].bot != bot;
        forall d | d in t.subs[id].clients ensures MemberOk(t, d, id) { assert MemberOk(s, d, id); }
      }
    }
  }

  /** A client that is in no live set: nothing to take out. */
  lemma DetachNothing(s: State, c: nat, bot: string)
    requires ValidIds(s)
    requires bot in s.active ==> c !in s.subs[s.active[bot]].clients && s.subs[s.active[bot]].clients != {}
    ensures Detached(s, c, bot) == s
  {
    if bot in s.active {
      var id := s.active[bot];
      assert s.subs[id].clients - {c} == s.subs[id].clients;
      assert s.subs[id := s.subs[id]] == s.subs;
    }
  }

  /** Changing one client's record, without changing sets, keeps the invariant when its own clauses hold. */
  lemma RecordKeepsInv(s: State, t: State, c: nat, leaver: Option<nat>)
    requires Inv(s) && c in t.clients && t.subs == s.subs && t.active == s.active
    requires t.clients.Keys == s.clients.Keys + {c}
    requires forall d :: d in s.clients && d != c ==> t.clients[d] == s.clients[d]
    requires c in s.clients ==> t.clients[c].bot == s.clients[c].bot
    requires forall bot :: PendingOk(t, bot)
    requires ClientOk(t, c)
    requires leaver == Some(c) ||
             forall id :: 0 <= id < |s.subs| && s.subs[id].live && c in s.subs[id].clients ==> MemberOk(t, c, id)
    ensures InvBut(t, leaver)
  {
    forall b
      ensures ActiveOk(t, b)
    {
      assert ActiveOk(s, b);
    }
    forall id | 0 <= id < |t.subs|
      ensures SubOkBut(t, id, leaver)
    {
      assert SubOkBut(s, id, None);
      forall d | t.subs[id].live && d in t.subs[id].clients && Some(d) != leaver
        ensures MemberOk(t, d, id)
      {
        assert MemberOk(s, d, id);
      }
    }
    forall d | d in t.clients
      ensures ClientOk(t, d)
    {
      assert d != c ==> ClientOk(s, d);
    }
  }

  lemma SamePending(s: State, t: State, c: nat)
    requires Inv(s) && t.pending == s.pending && c in t.clients && t.clients.Keys == s.clients.Keys + {c}
    requires forall d :: d in s.clients && d != c ==> t.clients[d] == s.clients[d]
    requires c in s.clients && s.clients[c].phase.CreateAwait? ==>
               t.clients[c].phase.CreateAwait? && t.clients[c].bot == s.clients[c].bot
    ensures forall bot :: PendingOk(t, bot)
  {
    forall bot
      ensures PendingOk(t, bot)
    {
      assert PendingOk(s, bot);
      if bot in s.pending {
        var d :| d in s.clients && s.clients[d].bot == bot && s.clients[d].phase.CreateAwait?;
        assert t.clients[d].phase.CreateAwait? && t.clients[d].bot == bot;
      }
    }
  }

  lemma CleanupKeepsInv(s: State, c: nat)
    requires Inv(s) && c in s.clients && Quiet(s)
    ensures Inv(CleanedUp(s, c))
  {
    var t := s.(clients := s.clients[c := s.clients[c].(disconnected := true, keepalive := false)]);
    SamePending(s, t, c);
    assert ClientOk(s, c);
    RecordKeepsInv(s, t, c, Some(c));
    DetachKeepsInv(t, c);
  }

  lemma KeepaliveKeepsInv(s: State, c: nat)
    requires Inv(s) && Enabled(s, Keepalive(c))
    ensures Inv(KeptAlive(s, c))
  {
    if !Writable(s.clients[c]) {
      var t := s.(clients := s.clients[c := s.clients[c].(keepalive := false)]);
      SamePending(s, t, c);
      assert ClientOk(s, c);
      RecordKeepsInv(s, t, c, Some(c));
      DetachKeepsInv(t, c);
    }
  }

  /** A client that was given no subscription stands in no live set. */
  lemma Outside(s: State, c: nat)
    requires Inv(s) && (c in s.clients ==> SubOf(s.clients[c].phase) == None)
    ensures forall id :: 0 <= id < |s.subs| && s.subs[id].live ==> c !in s.subs[id].clients
  {
    forall id | 0 <= id < |s.subs| && s.subs[id].live
      ensures c !in s.subs[id].clients
    {
      assert SubOkBut(s, id, None);
    }
  }

  /** A client that left while its history was fetched: its cleanup finds nothing to take out. */
  lemma LateCleanupKeepsInv(s: State, c: nat)
    requires Inv(s) && c in s.clients && s.clients[c].phase == Resumed && s.clients[c].disconnected
    ensures Inv(SetPhase(CleanedUp(s, c), c, Returned))
  {
    var bot := s.clients[c].bot;
    var u := s.(clients := s.clients[c := s.clients[c].(disconnected := true, keepalive := false)]);
    assert ActiveOk(s, bot);
    Outside(s, c);
    if bot in s.active {
      assert SubOkBut(s, s.active[bot], None);
    }
    DetachNothing(u, c, bot);
    var t := SetPhase(u, c, Returned);
    SamePending(s, t, c);
    assert ClientOk(s, c);
    RecordKeepsInv(s, t, c, None);
  }

  lemma ResumeKeepsInv(s: State, c: nat, subscribed: bool)
    requires Inv(s) && Enabled(s, Resume(c, subscribed))
    ensures Inv(AfterHistory(s, c, subscribed))
  {
    var bot := s.clients[c].bot;
    var t := AfterHistory(s, c, subscribed);
    assert ClientOk(s, c) && ActiveOk(s, bot);
    Outside(s, c);
    if s.clients[c].disconnected {
      LateCleanupKeepsInv(s, c);
    } else if bot in s.active || bot in s.pending {
      assert PendingOk(s, bot);
      SamePending(s, t, c);
      RecordKeepsInv(s, t, c, None);
    } else {
      forall b
        ensures PendingOk(t, b)
      {
        assert PendingOk(s, b);
        assert t.clients[c].phase.CreateAwait? && t.clients[c].bot == bot;
        if b in s.pending && b != bot {
          var d :| d in s.clients && s.clients[d].bot == b && s.clients[d].phase.CreateAwait?;
          assert t.clients[d] == s.clients[d];
        }
      }
      if subscribed {
        NewSubscriptionKeepsInv(s, t, c);
      } else {
        RecordKeepsInv(s, t, c, None);
      }
    }
  }

  /** The creator is in the set before the first message can arrive. */
  lemma NewSubscriptionKeepsInv(s: State, t: State, c: nat)
    requires Inv(s) && c in s.clients && s.clients[c].phase == Resumed && !s.clients[c].disconnected
    requires s.clients[c].bot !in s.active && s.clients[c].bot !in s.pending
    requires t == AfterHistory(s, c, true)
    requires forall b :: PendingOk(t, b)
    ensures Inv(t)
  {
    var bot, id := s.clients[c].bot, |s.subs|;
    assert ClientOk(s, c);
    Outside(s, c);
    forall b
      ensures ActiveOk(t, b)
    {
      assert ActiveOk(s, b);
    }
    forall i | 0 <= i < |t.subs|
      ensures SubOkBut(t, i, None)
    {
      if i < id {
        assert SubOkBut(s, i, None);
        forall d | t.subs[i].live && d in t.subs[i].clients
          ensures MemberOk(t, d, i)
        {
          assert MemberOk(s, d, i);
        }
      }
    }
    forall d | d in t.clients
      ensures ClientOk(t, d)
    {
      assert ClientOk(s, d);
    }
  }

  lemma JoinKeepsInv(s: State, c: nat)
    requires Inv(s) && Enabled(s, Join(c))
    ensures ClientOk(s, c) && Inv(Joined(s, c))
  {
    assert ClientOk(s, c);
    var t := Joined(s, c);
    var sub := s.clients[c].phase.sub;
    var u := s.(clients := s.clients[c := s.clients[c].(phase := Streaming(sub), keepalive := true)]);
    SamePending(s, u, c);
    if sub.None? {
      Outside(s, c);
      RecordKeepsInv(s, u, c, None);
    } else {
      JoinSet(s, t, c, sub.value);
    }
  }

  lemma JoinSet(s: State, t: State, c: nat, id: nat)
    requires Inv(s) && Enabled(s, Join(c)) && s.clients[c].phase == Got(Some(id)) && ClientOk(s, c)
    requires t == Joined(s, c)
    ensures Inv(t)
  {
    SamePending(s, t, c);
    forall b
      ensures ActiveOk(t, b)
    {
      assert ActiveOk(s, b);
    }
    forall i | 0 <= i < |t.subs|
      ensures SubOkBut(t, i, None)
    {
      assert SubOkBut(s, i, None);
      forall d | t.subs[i].live && d in t.subs[i].clients
        ensures MemberOk(t, d, i)
      {
        assert d == c || MemberOk(s, d, i);
      }
    }
    forall d | d in t.clients
      ensures ClientOk(t, d)
    {
      assert ClientOk(s, d);
    }
  }

  lemma DeliveredClient(s: State, id: nat, msg: string, c: nat)
    requires Inv(s) && Quiet(s) && id < |s.subs| && s.subs[id].live && c in s.clients
    ensures c in Delivered(s, id, msg).clients && ClientOk(Delivered(s, id, msg), c)
  {
    var t := Delivered(s, id, msg);
    assert SubOkBut(s, id, None) && ActiveOk(s, s.subs[id].bot) && ClientOk(s, c);
    if IsLiveMember(s, c) && s.clients[c].phase.sub.value == id {
      assert c in t.subs[id].clients;
    }
  }

  lemma DeliveredSub(s: State, id: nat, msg: string, i: nat)
    requires Inv(s) && id < |s.subs| && s.subs[id].live && i < |s.subs|
    ensures SubOkBut(Delivered(s, id, msg), i, None)
  {
    var t := Delivered(s, id, msg);
    assert SubOkBut(s, id, None) && ActiveOk(s, s.subs[id].bot) && SubOkBut(s, i, None);
    forall d | t.subs[i].live && d in t.subs[i].clients
      ensures MemberOk(t, d, i)
    {
      assert MemberOk(s, d, i);
    }
  }

  /** One delivery: unwritable clients leave the set, and the last of them closes the subscription. */
  lemma DeliverKeepsInv(s: State, id: nat, msg: string)
    requires Inv(s) && Quiet(s) && id < |s.subs| && s.subs[id].live
    ensures Inv(Delivered(s, id, msg)) && Quiet(Delivered(s, id, msg))
  {
    var t := Delivered(s, id, msg);
    assert SubOkBut(s, id, None) && ActiveOk(s, s.subs[id].bot);
    forall b
      ensures ActiveOk(t, b) && PendingOk(t, b)
    {
      assert ActiveOk(s, b) && PendingOk(s, b);
    }
    forall i | 0 <= i < |t.subs|
      ensures SubOkBut(t, i, None)
    {
      DeliveredSub(s, id, msg, i);
    }
    forall d | d in t.clients
      ensures ClientOk(t, d)
    {
      DeliveredClient(s, id, msg, d);
    }
  }

  /** The first live subscription of a bot is its active one, and after its delivery none is left behind it. */
  lemma DeliveredOnce(s: State, i: nat, msg: string)
    requires Inv(s) && Quiet(s) && i < |s.subs| && s.subs[i].live
    ensures var bot, t := s.subs[i].bot, Delivered(s, i, msg);
      && bot in s.active && s.active[bot] == i && (bot in t.active ==> t.active[bot] == i)
  {
    assert SubOkBut(s, i, None);
  }

  /** A message finds at most one live subscription of its bot: the active one. */
  lemma {:induction false} PublishReaches(s: State, bot: string, msg: string, i: nat)
    requires Inv(s) && Quiet(s) && i <= |s.subs|
    ensures Published(s, bot, msg, i)
         == if bot in s.active && s.active[bot] >= i then Delivered(s, s.active[bot], msg) else s
    decreases |s.subs| - i
  {
    assert ActiveOk(s, bot);
    if i == |s.subs| {
    } else if s.subs[i].live && s.subs[i].bot == bot {
      DeliverKeepsInv(s, i, msg);
      DeliveredOnce(s, i, msg);
      PublishReaches(Delivered(s, i, msg), bot, msg, i + 1);
    } else {
      PublishReaches(s, bot, msg, i + 1);
    }
  }

  lemma PublishKeepsInv(s: State, bot: string, msg: string)
    requires Inv(s) && Quiet(s)
    ensures Inv(Published(s, bot, msg, 0))
  {
    PublishReaches(s, bot, msg, 0);
    assert ActiveOk(s, bot);
    if bot in s.active {
      DeliverKeepsInv(s, s.active[bot], msg);
    }
  }

  /** Every step keeps the invariant. */
  lemma StepKeepsInv(s: State, step: Step)
    requires Inv(s) && Enabled(s, step)
    ensures Inv(Apply(s, step))
  {
    var t := Apply(s, step);
    match step
    case Connect(c, _) => ConnectKeepsInv(s, step);
    case History(c, _) => HistoryKeepsInv(s, step);
    case Resume(c, subscribed) => ResumeKeepsInv(s, c, subscribed);
    case CreateDone(c) => CreateDoneKeepsInv(s, t, c);
    case PendingDone(c) => PendingDoneKeepsInv(s, c);
    case Join(c) => JoinKeepsInv(s, c);
    case Close(c) => CleanupKeepsInv(s, c);
    case End(c) => FlagKeepsInv(s, t, c);
    case Break(c) => FlagKeepsInv(s, t, c);
    case Keepalive(c) => KeepaliveKeepsInv(s, c);
    case Publish(bot, msg) => PublishKeepsInv(s, bot, msg);
  }

  lemma ConnectKeepsInv(s: State, step: Step)
    requires Inv(s) && Enabled(s, step) && step.Connect?
    ensures Inv(Apply(s, step))
  {
    SamePending(s, Apply(s, step), step.c);
    Outside(s, step.c);
    RecordKeepsInv(s, Apply(s, step), step.c, None);
  }

  lemma HistoryKeepsInv(s: State, step: Step)
    requires Inv(s) && Enabled(s, step) && step.History?
    ensures Inv(Apply(s, step))
  {
    SamePending(s, Apply(s, step), step.c);
    Outside(s, step.c);
    assert ClientOk(s, step.c);
    RecordKeepsInv(s, Apply(s, step), step.c, None);
  }

  lemma PendingDoneKeepsInv(s: State, c: nat)
    requires Inv(s) && Enabled(s, PendingDone(c))
    ensures Inv(AfterPending(s, c))
  {
    assert ClientOk(s, c) && ActiveOk(s, s.clients[c].bot);
    SamePending(s, AfterPending(s, c), c);
    Outside(s, c);
    RecordKeepsInv(s, AfterPending(s, c), c, None);
  }

  lemma FlagKeepsInv(s: State, t: State, c: nat)
    requires Inv(s) && c in s.clients && t.subs == s.subs && t.active == s.active && t.pending == s.pending
    requires || t.clients == s.clients[c := s.clients[c].(ended := true)]
             || t.clients == s.clients[c := s.clients[c].(broken := true)]
    ensures Inv(t)
  {
    SamePending(s, t, c);
    assert ClientOk(s, c);
    forall id | 0 <= id < |s.subs| && s.subs[id].live && c in s.subs[id].clients
      ensures MemberOk(t, c, id)
    {
      assert SubOkBut(s, id, None);
      assert MemberOk(s, c, id);
    }
    RecordKeepsInv(s, t, c, None);
  }

  lemma CreateDoneKeepsInv(s: State, t: State, c: nat)
    requires Inv(s) && Enabled(s, CreateDone(c)) && t == Apply(s, CreateDone(c))
    ensures Inv(t)
  {
    assert ClientOk(s, c);
    forall b
      ensures PendingOk(t, b)
    {
      assert PendingOk(s, b);
      if b in t.pending {
        var d :| d in s.clients && s.clients[d].bot == b && s.clients[d].phase.CreateAwait?;
        assert t.clients[d] == s.clients[d];
      }
    }
    forall id | 0 <= id < |s.subs| && s.subs[id].live && c in s.subs[id].clients
      ensures MemberOk(t, c, id)
    {
      assert SubOkBut(s, id, None);
      assert MemberOk(s, c, id);
    }
    RecordKeepsInv(s, t, c, None);
  }

  // ---------- results over whole runs ----------

  ghost predicate IsRun(states: seq<State>, steps: seq<Step>) {
    && |states| == |steps| + 1
    && states[0] == Init()
    && forall i :: 0 <= i < |steps| ==> StepAt(states, steps, i)
  }

  predicate StepAt(states: seq<State>, steps: seq<Step>, i: nat)
    requires |states| == |steps| + 1 && i < |steps|
  {
    Enabled(states[i], steps[i]) && states[i + 1] == Apply(states[i], steps[i])
  }

  lemma {:induction false} RunInvariant(states: seq<State>, steps: seq<Step>, i: nat)
    requires IsRun(states, steps) && i < |states|
    ensures Inv(states[i])
  {
    if i == 0 {
    } else {
      RunInvariant(states, steps, i - 1);
      assert StepAt(states, steps, i - 1);
      StepKeepsInv(states[i - 1], steps[i - 1]);
    }
  }

  function LiveSubs(s: State, bot: string): set<nat> {
    set id: nat | id < |s.subs| && s.subs[id].live && s.subs[id].bot == bot
  }

  /** At every point of every run: a bot has one live subscription when it is in the active map and none
      otherwise; an active subscription serves a client that has not disconnected; no subscription is
      closed twice; and no creation is pending when the next event can happen. */
  lemma RegistryIsExact(states: seq<State>, steps: seq<Step>, i: nat, bot: string)
    requires IsRun(states, steps) && i < |states|
    ensures var s := states[i];
            && LiveSubs(s, bot) == (if bot in s.active then {s.active[bot]} else {})
            && (bot in s.active ==> exists c :: c in s.clients && s.clients[c].bot == bot && !s.clients[c].disconnected
                                               && c in s.subs[s.active[bot]].clients)
            && (forall id :: 0 <= id < |s.subs| ==> s.subs[id].closes == if s.subs[id].live then 0 else 1)
            && (Quiet(s) ==> bot !in s.pending)
  {
    RunInvariant(states, steps, i);
    var s := states[i];
    assert ActiveOk(s, bot) && PendingOk(s, bot);
    forall id: nat | id < |s.subs|
      ensures s.subs[id].closes == if s.subs[id].live then 0 else 1
      ensures s.subs[id].live && s.subs[id].bot == bot ==> bot in s.active && s.active[bot] == id
    {
      assert SubOkBut(s, id, None);
    }
    if bot in s.active {
      var id := s.active[bot];
      assert SubOkBut(s, id, None);
      var c :| c in s.subs[id].clients;
      assert MemberOk(s, c, id);
    }
  }

  /** One publication, seen from one client. */
  lemma PublishHeard(s: State, bot: string, msg: string, c: nat)
    requires Inv(s) && Quiet(s) && c in s.clients
    ensures c in Published(s, bot, msg, 0).clients
    ensures var before, after := s.clients[c], Published(s, bot, msg, 0).clients[c];
            (after.received
             == if IsLiveMember(s, c) && before.bot == bot then before.received + [msg] else before.received)
  {
    PublishReaches(s, bot, msg, 0);
    assert ActiveOk(s, bot) && ClientOk(s, c);
    if bot in s.active {
      var id := s.active[bot];
      assert SubOkBut(s, id, None);
      if IsLiveMember(s, c) && s.clients[c].bot == bot {
        var own := s.clients[c].phase.sub.value;
        assert SubOkBut(s, own, None);
      }
      if c in s.subs[id].clients {
        assert MemberOk(s, c, id);
      }
    } else if IsLiveMember(s, c) {
      assert SubOkBut(s, s.clients[c].phase.sub.value, None);
    }
  }

  /** Each published message reaches every live member of its bot exactly once, and nobody else. */
  lemma EachMessageOnce(states: seq<State>, steps: seq<Step>, i: nat, c: nat)
    requires IsRun(states, steps) && i < |steps| && steps[i].Publish? && c in states[i].clients
    ensures c in states[i + 1].clients
    ensures var before, after := states[i].clients[c], states[i + 1].clients[c];
            after.received == if IsLiveMember(states[i], c) && before.bot == steps[i].bot
                              then before.received + [steps[i].msg] else before.received
  {
    RunInvariant(states, steps, i);
    assert StepAt(states, steps, i);
    PublishHeard(states[i], steps[i].bot, steps[i].msg, c);
  }

  /** How one step moves a client along streamLogs. */
  predicate Moved(b: Client, a: Client) {
    || (a.phase == b.phase && a.warnings == b.warnings)
    || (b.phase.Fetching? && (a.phase.Resumed? || a.phase.Returned?))
    || (b.phase.Resumed? &&
        (a.phase.Returned? || (a.phase.Got? && a.phase.sub.Some?) || a.phase.PendingAwait? || a.phase.CreateAwait?))
    || (b.phase.CreateAwait? && a.phase == Got(b.phase.sub) && a.warnings == b.warnings)
    || (b.phase.PendingAwait? && a.phase.Got? && a.warnings == 0)
    || (b.phase.Got? && (a.phase == Streaming(b.phase.sub) || a.phase.Returned?) && a.warnings == b.warnings)
  }

  lemma DetachKeepsClients(s: State, c: nat, bot: string)
    ensures Detached(s, c, bot).clients == s.clients
  {
  }

  lemma ResumeMoves(s: State, c: nat, subscribed: bool, d: nat)
    requires c in s.clients && s.clients[c].phase == Resumed && d in s.clients
    ensures var t := AfterHistory(s, c, subscribed);
      && d in t.clients && t.clients[d].received == s.clients[d].received && Moved(s.clients[d], t.clients[d])
      && t.clients[d].ended == s.clients[d].ended
  {
    CleanupMoves(s, c, d);
  }

  lemma CleanupMoves(s: State, c: nat, d: nat)
    requires c in s.clients && d in s.clients
    ensures var t := CleanedUp(s, c);
      d in t.clients && t.clients[d].received == s.clients[d].received && t.clients[d].phase == s.clients[d].phase
      && t.clients[d].warnings == s.clients[d].warnings && t.clients[d].ended == s.clients[d].ended
  {
    DetachKeepsClients(
      s.(clients := s.clients[c := s.clients[c].(disconnected := true, keepalive := false)]), c, s.clients[c].bot);
  }

  lemma JoinMoves(s: State, c: nat, d: nat)
    requires c in s.clients && s.clients[c].phase.Got? && d in s.clients
    ensures var t := Joined(s, c);
      && d in t.clients && t.clients[d].received == s.clients[d].received && Moved(s.clients[d], t.clients[d])
      && t.clients[d].ended == s.clients[d].ended
  {
    CleanupMoves(s, c, d);
  }

  lemma KeepaliveMoves(s: State, c: nat, d: nat)
    requires c in s.clients && d in s.clients
    ensures var t := KeptAlive(s, c);
      && d in t.clients && t.clients[d].received == s.clients[d].received && Moved(s.clients[d], t.clients[d])
      && t.clients[d].ended == s.clients[d].ended
  {
    DetachKeepsClients(s.(clients := s.clients[c := s.clients[c].(keepalive := false)]), c, s.clients[c].bot);
  }

  /** Messages reach clients only through Publish: no other step changes what a client has received. */
  lemma OnlyPublishDelivers(s: State, step: Step, c: nat)
    requires Enabled(s, step) && !step.Publish? && c in s.clients
    ensures c in Apply(s, step).clients && Apply(s, step).clients[c].received == s.clients[c].received
  {
    match step
    case Resume(d, subscribed) => ResumeMoves(s, d, subscribed, c);
    case Join(d) => JoinMoves(s, d, c);
    case Close(d) => CleanupMoves(s, d, c);
    case Keepalive(d) => KeepaliveMoves(s, d, c);
    case _ =>
  }

  /** What one step lets a client hear: a message of its bot, when the client is a live member. */
  function HeardAt(s: State, step: Step, c: nat): seq<string> {
    if step.Publish? && IsLiveMember(s, c) && s.clients[c].bot == step.bot then [step.msg] else []
  }

  /** The messages of a client's bot that were published while the client was a live member, up to state i. */
  function Heard(states: seq<State>, steps: seq<Step>, c: nat, i: nat): seq<string>
    requires |states| == |steps| + 1 && i < |states|
  {
    if i == 0 then [] else Heard(states, steps, c, i - 1) + HeardAt(states[i - 1], steps[i - 1], c)
  }

  function Received(s: State, c: nat): seq<string> {
    if c in s.clients then s.clients[c].received else []
  }

  lemma StepIsHeard(s: State, step: Step, c: nat)
    requires Inv(s) && Enabled(s, step)
    ensures Received(Apply(s, step), c) == Received(s, c) + HeardAt(s, step, c)
  {
    if c !in s.clients {
      NewClient(s, step, c);
    } else if step.Publish? {
      PublishHeard(s, step.bot, step.msg, c);
    } else {
      OnlyPublishDelivers(s, step, c);
    }
  }

  /** Over every run, what a client has received are exactly these messages, in the order of their publication. */
  lemma {:induction false} ReceivedIsHeard(states: seq<State>, steps: seq<Step>, i: nat, c: nat)
    requires IsRun(states, steps) && i < |states|
    ensures Received(states[i], c) == Heard(states, steps, c, i)
  {
    if i == 0 {
      assert c !in states[0].clients;
    } else {
      ReceivedIsHeard(states, steps, i - 1, c);
      RunInvariant(states, steps, i - 1);
      assert StepAt(states, steps, i - 1);
      StepIsHeard(states[i - 1], steps[i - 1], c);
    }
  }

  /** A client comes into being with nothing received, and only by connecting. */
  lemma NewClient(s: State, step: Step, c: nat)
    requires Inv(s) && Enabled(s, step) && c !in s.clients
    ensures c in Apply(s, step).clients ==>
      step.Connect? && Apply(s, step).clients[c] == Client(step.bot, Fetching, false, false, false, false, 0, [])
  {
    if step.Publish? {
      PublishReaches(s, step.bot, step.msg, 0);
    }
  }

  // ---------- warnings ----------

  lemma StepMoves(s: State, step: Step, c: nat)
    requires Inv(s) && Enabled(s, step) && c in s.clients
    ensures c in Apply(s, step).clients && Moved(s.clients[c], Apply(s, step).clients[c])
    ensures s.clients[c].ended ==> Apply(s, step).clients[c].ended
  {
    match step
    case Resume(d, subscribed) => ResumeMoves(s, d, subscribed, c);
    case Join(d) => JoinMoves(s, d, c);
    case Close(d) => CleanupMoves(s, d, c);
    case Keepalive(d) => KeepaliveMoves(s, d, c);
    case PendingDone(d) => assert ClientOk(s, d);
    case Publish(bot, msg) =>
      PublishReaches(s, bot, msg, 0);
      assert ActiveOk(s, bot);
    case _ =>
  }

  /** The client has waited for another client's creation. */
  ghost predicate Waited(states: seq<State>, c: nat, i: nat)
    requires i < |states|
  {
    exists k :: 0 <= k <= i && c in states[k].clients && states[k].clients[c].phase.PendingAwait?
  }

  /** What a client's phase tells of its past. */
  ghost predicate PastOk(states: seq<State>, c: nat, i: nat)
    requires i < |states|
  {
    if c !in states[i].clients then !Waited(states, c, i)
    else
      var cl := states[i].clients[c];
      && (cl.phase.Fetching? || cl.phase.Resumed? || cl.phase.CreateAwait? ==> !Waited(states, c, i))
      && ((cl.phase.Got? || cl.phase.Streaming?) && cl.phase.sub.None? ==>
            (cl.warnings == 0 <==> Waited(states, c, i)))
  }

  lemma WaitedStep(states: seq<State>, c: nat, i: nat)
    requires i + 1 < |states|
    ensures Waited(states, c, i + 1) <==>
      Waited(states, c, i) || (c in states[i + 1].clients && states[i + 1].clients[c].phase.PendingAwait?)
  {
  }

  lemma {:induction false} PastIsOk(states: seq<State>, steps: seq<Step>, c: nat, i: nat)
    requires IsRun(states, steps) && i < |states|
    ensures PastOk(states, c, i)
  {
    if i == 0 {
      assert c !in states[0].clients;
    } else {
      PastIsOk(states, steps, c, i - 1);
      WaitedStep(states, c, i - 1);
      assert StepAt(states, steps, i - 1);
      RunInvariant(states, steps, i - 1);
      RunInvariant(states, steps, i);
      if c in states[i - 1].clients {
        StepMoves(states[i - 1], steps[i - 1], c);
        assert ClientOk(states[i - 1], c) && ClientOk(states[i], c);
      } else {
        NewClient(states[i - 1], steps[i - 1], c);
      }
    }
  }

  /** A client that streams without live updates was told so once - unless it had waited for another client's
      creation: then it was not told at all. Nobody else is warned. */
  lemma UnwarnedExactlyWhen(states: seq<State>, steps: seq<Step>, i: nat, c: nat)
    requires IsRun(states, steps) && i < |states| && c in states[i].clients && states[i].clients[c].phase.Streaming?
    ensures var cl := states[i].clients[c];
      cl.warnings == if cl.phase.sub.None? && !Waited(states, c, i) then 1 else 0
  {
    PastIsOk(states, steps, c, i);
    RunInvariant(states, steps, i);
    assert ClientOk(states[i], c);
  }

  lemma Extend(states: seq<State>, steps: seq<Step>, step: Step) returns (states2: seq<State>, steps2: seq<Step>)
    requires IsRun(states, steps) && Enabled(states[|steps|], step)
    ensures IsRun(states2, steps2) && |steps2| == |steps| + 1
    ensures states2[|steps2|] == Apply(states[|steps|], step)
  {
    states2, steps2 := states + [Apply(states[|steps|], step)], steps + [step];
    forall i | 0 <= i < |steps2|
      ensures StepAt(states2, steps2, i)
    {
      assert i < |steps| ==> StepAt(states, steps, i);
    }
  }

  /** Two clients of one bot whose histories have just been fetched. */
  lemma TwoResumed() returns (states: seq<State>, steps: seq<Step>)
    ensures IsRun(states, steps)
    ensures var s := states[|steps|];
      && s.subs == [] && s.active == map[] && s.pending == map[]
      && s.clients == map[1 := Client("b", Resumed, false, false, false, false, 0, []),
                          2 := Client("b", Resumed, false, false, false, false, 0, [])]
  {
    states, steps := [Init()], [];
    states, steps := Extend(states, steps, Connect(1, "b"));
    states, steps := Extend(states, steps, Connect(2, "b"));
    states, steps := Extend(states, steps, History(1, true));
    states, steps := Extend(states, steps, History(2, true));
  }

  /** The second waits for the first one's creation, which fails: the second streams nothing and is not told. */
  lemma AWaiterIsNotWarned() returns (states: seq<State>, steps: seq<Step>)
    ensures IsRun(states, steps)
    ensures var s := states[|steps|];
      2 in s.clients && s.clients[2].phase == Streaming(None) && s.clients[2].warnings == 0
  {
    states, steps := TwoResumed();
    states, steps := Extend(states, steps, Resume(1, false));
    states, steps := Extend(states, steps, Resume(2, false));
    states, steps := Extend(states, steps, CreateDone(1));
    states, steps := Extend(states, steps, PendingDone(2));
    states, steps := Extend(states, steps, Join(2));
  }

  // ---------- the controller ----------

  /** The static maps of LogsController, the subscriptions they refer to, and the clients' responses. */
  class LogsController {
    var clients: map<nat, Client>
    var subs: seq<Subscription>
    var activeSubscriptions: map<string, nat>
    var pendingSubscriptions: map<string, SubscriptionResult>

    function View(): State
      reads this
    {
      State(clients, subs, activeSubscriptions, pendingSubscriptions)
    }

    constructor ()
      ensures View() == Init()
    {
      clients, subs, activeSubscriptions, pendingSubscriptions := map[], [], map[], map[];
    }

    method Unsubscribe(bot: string)
      requires bot in activeSubscriptions && activeSubscriptions[bot] < |subs|
      modifies this
      ensures View() == CloseActive(old(View()), bot)
    {
      var id := activeSubscriptions[bot];
      subs := subs[id := subs[id].(live := false, closes := subs[id].closes + 1)];
      activeSubscriptions := activeSubscriptions - {bot};
    }

    method RemoveStaleClient(c: nat, bot: string)
      requires ValidIds(View())
      modifies this
      ensures View() == Detached(old(View()), c, bot)
    {
      if bot in activeSubscriptions {
        var id := activeSubscriptions[bot];
        var rest := subs[id].clients - {c};
        subs := subs[id := subs[id].(clients := rest)];
        if rest == {} {
          Unsubscribe(bot);
        }
      }
    }

    /** The closure registered on the request's close event. */
    method Cleanup(c: nat)
      requires ValidIds(View()) && c in clients
      modifies this
      ensures View() == CleanedUp(old(View()), c)
      ensures old(Inv(View()) && Quiet(View())) ==> Inv(View())
    {
      if Inv(View()) && Quiet(View()) {
        CleanupKeepsInv(View(), c);
      }
      var bot := clients[c].bot;
      clients := clients[c := clients[c].(disconnected := true, keepalive := false)];
      RemoveStaleClient(c, bot);
    }

    /** A new request: nothing is known of the client but its bot. */
    method StreamLogs(c: nat, bot: string)
      requires Inv(View()) && Quiet(View()) && c !in clients
      modifies this
      ensures View() == old(Apply(View(), Connect(c, bot))) && Inv(View())
    {
      StepKeepsInv(View(), Connect(c, bot));
      clients := clients[c := Client(bot, Fetching, false, false, false, false, 0, [])];
    }

    /** sendHistoricalLogs: without access the response is ended. */
    method SendHistoricalLogs(c: nat, allowed: bool)
      requires Inv(View()) && c in clients && clients[c].phase == Fetching
      modifies this
      ensures View() == old(Apply(View(), History(c, allowed))) && Inv(View())
    {
      StepKeepsInv(View(), History(c, allowed));
      if !allowed {
        clients := clients[c := clients[c].(phase := Returned, ended := true)];
        return;
      }
      clients := clients[c := clients[c].(phase := Resumed)];
    }

    /** The creator's continuation: the promise is no longer pending. */
    method AwaitCreation(c: nat)
      requires Inv(View()) && c in clients && clients[c].phase.CreateAwait?
      modifies this
      ensures View() == old(Apply(View(), CreateDone(c))) && Inv(View())
    {
      StepKeepsInv(View(), CreateDone(c));
      pendingSubscriptions := pendingSubscriptions - {clients[c].bot};
      clients := clients[c := clients[c].(phase := Got(clients[c].phase.sub))];
    }

    /** streamLogs from the end of the history to its next await; `subscribed` is NATS's answer. */
    method GetOrCreateSubscription(c: nat, subscribed: bool)
      requires Inv(View()) && c in clients && clients[c].phase == Resumed
      modifies this
      ensures View() == AfterHistory(old(View()), c, subscribed) && Inv(View())
    {
      ResumeKeepsInv(View(), c, subscribed);
      var bot := clients[c].bot;
      if clients[c].disconnected {
        Cleanup(c);
        clients := clients[c := clients[c].(phase := Returned)];
        return;
      }
      if bot in activeSubscriptions {
        clients := clients[c := clients[c].(phase := Got(Some(activeSubscriptions[bot])))];
        return;
      }
      if bot in pendingSubscriptions {
        clients := clients[c := clients[c].(phase := PendingAwait(pendingSubscriptions[bot]))];
        return;
      }
      CreateSubscription(c, bot, subscribed);
    }

    /** createSubscription, and the note of its promise in the map of pending ones. */
    method CreateSubscription(c: nat, bot: string, subscribed: bool)
      requires c in clients && clients[c].bot == bot && !clients[c].disconnected
      requires bot !in activeSubscriptions && bot !in pendingSubscriptions
      modifies this
      ensures View() == AfterHistory(old(View()), c, subscribed)
    {
      if !subscribed {
        clients := clients[c := clients[c].(warnings := clients[c].warnings + 1, phase := CreateAwait(None))];
        pendingSubscriptions := pendingSubscriptions[bot := SubscriptionResult(None, true)];
        return;
      }
      var id := |subs|;
      subs := subs + [Subscription(bot, {c}, true, 0)];
      activeSubscriptions := activeSubscriptions[bot := id];
      pendingSubscriptions := pendingSubscriptions[bot := SubscriptionResult(Some(id), false)];
      clients := clients[c := clients[c].(phase := CreateAwait(Some(id)))];
    }

    /** A waiter's continuation. */
    method AwaitPending(c: nat)
      requires c in clients && clients[c].phase.PendingAwait?
      modifies this
      ensures View() == AfterPending(old(View()), c)
      ensures old(Inv(View())) ==> Inv(View())
    {
      if Inv(View()) {
        StepKeepsInv(View(), PendingDone(c));
      }
      var result, bot := clients[c].phase.result, clients[c].bot;
      var client := clients[c];
      if result.subscription.None? && !result.warningsSent {
        clients := clients[c := client.(warnings := client.warnings + 1, phase := Got(None))];
        return;
      }
      var subscription := if bot in activeSubscriptions then Some(activeSubscriptions[bot]) else None;
      clients := clients[c := client.(phase := Got(subscription))];
    }

    method SetupFanOut(c: nat)
      requires ValidIds(View()) && c in clients && clients[c].phase.Got?
      requires clients[c].phase.sub.Some? ==> clients[c].phase.sub.value < |subs|
      modifies this
      ensures View() == Joined(old(View()), c)
      ensures old(Inv(View())) ==> Inv(View())
    {
      if Inv(View()) {
        JoinKeepsInv(View(), c);
      }
      var sub := clients[c].phase.sub;
      if clients[c].disconnected {
        Cleanup(c);
        clients := clients[c := clients[c].(phase := Returned)];
        return;
      }
      if sub.Some? {
        subs := subs[sub.value := subs[sub.value].(clients := subs[sub.value].clients + {c})];
      }
      clients := clients[c := clients[c].(phase := Streaming(sub), keepalive := true)];
    }

    method OnKeepalive(c: nat)
      requires Inv(View()) && Quiet(View()) && c in clients && clients[c].keepalive
      modifies this
      ensures View() == KeptAlive(old(View()), c) && Inv(View())
    {
      KeepaliveKeepsInv(View(), c);
      if Writable(clients[c]) {
        return;
      }
      var bot := clients[c].bot;
      clients := clients[c := clients[c].(keepalive := false)];
      RemoveStaleClient(c, bot);
    }

    /** The loop over the set's clients. */
    method WriteAll(id: nat, msg: string)
      requires id < |subs| && subs[id].clients <= clients.Keys
      modifies this
      ensures activeSubscriptions == old(activeSubscriptions) && pendingSubscriptions == old(pendingSubscriptions)
      ensures subs == old(subs[id := subs[id].(clients := Kept(clients, subs[id].clients))])
      ensures clients == old(WrittenTo(clients, subs[id].clients, msg))
    {
      ghost var before, members := clients, subs[id].clients;
      NoneWritten(before, msg);
      var todo := subs[id].clients;
      assert members - todo == {} && todo + {} == todo;
      assert subs[id := subs[id].(clients := todo)] == subs;
      while todo != {}
        invariant todo <= members <= before.Keys
        invariant activeSubscriptions == old(activeSubscriptions) && pendingSubscriptions == old(pendingSubscriptions)
        invariant |subs| == old(|subs|)
        invariant subs == old(subs)[id := old(subs)[id].(clients := todo + Kept(before, members - todo))]
        invariant clients == WrittenTo(before, members - todo, msg)
        decreases todo
      {
        var c :| c in todo;
        OneMoreWritten(before, members - todo, c, msg);
        assert members - (todo - {c}) == (members - todo) + {c};
        assert Writable(before[c]) ==>
          (todo - {c}) + Kept(before, members - (todo - {c})) == todo + Kept(before, members - todo);
        assert !Writable(before[c]) ==>
          (todo - {c}) + Kept(before, members - (todo - {c})) == (todo + Kept(before, members - todo)) - {c};
        WriteOne(id, c, msg);
        todo := todo - {c};
      }
      assert members - todo == members && todo + Kept(before, members) == Kept(before, members);
    }

    method WriteOne(id: nat, c: nat, msg: string)
      requires id < |subs| && c in clients
      modifies this
      ensures activeSubscriptions == old(activeSubscriptions) && pendingSubscriptions == old(pendingSubscriptions)
      ensures old(Writable(clients[c])) ==>
        && subs == old(subs)
        && clients == old(clients[c := clients[c].(received := clients[c].received + [msg])])
      ensures !old(Writable(clients[c])) ==>
        && clients == old(clients)
        && subs == old(subs[id := subs[id].(clients := subs[id].clients - {c})])
    {
      if Writable(clients[c]) {
        clients := clients[c := clients[c].(received := clients[c].received + [msg])];
      } else {
        subs := subs[id := subs[id].(clients := subs[id].clients - {c})];
      }
    }

    /** The NATS callback of one subscription: write to every client of the set, drop the unwritable. */
    method OnMessage(id: nat, msg: string)
      requires Inv(View()) && Quiet(View()) && id < |subs| && subs[id].live
      modifies this
      ensures View() == Delivered(old(View()), id, msg) && Inv(View()) && Quiet(View())
    {
      DeliverKeepsInv(View(), id, msg);
      assert SubOkBut(View(), id, None);
      WriteAll(id, msg);
      var bot := subs[id].bot;
      if subs[id].clients == {} && bot in activeSubscriptions {
        Unsubscribe(bot);
      }
    }
  }
}
