/** The per-chat dispatcher of handlers.go: dispatchUpdate, the queue workers and their
    idle eviction, as steps of one shared state. Each step is one critical section or one
    channel operation; any number of dispatchers and workers may interleave. */
module Dispatch {

  const CAPACITY: nat := 100

  /** Evicting: the idle timer has fired and the worker wants the lock. */
  datatype Worker = Waiting | Handling(u: nat) | Evicting | Exited

  datatype Channel = Channel(chat: int, buffer: seq<nat>, worker: Worker)

  datatype Route = Queued(chat: int) | Direct

  /** Updates are told apart by number. `routes`, `sent`, `handled` and `ran` record what
      happened: where each update went, what was put on each chat's channels, what the
      workers finished, and which direct goroutines finished. */
  datatype State = State(queues: map<int, nat>, channels: map<nat, Channel>, running: set<nat>,
                         routes: map<nat, Route>, sent: map<int, seq<nat>>, handled: map<int, seq<nat>>, ran: set<nat>)
  {
    function Put(c: nat, ch: Channel): State {
      this.(channels := channels[c := ch])
    }

    /** chatID 0, or a full channel: a goroutine of its own. */
    function RunDirect(u: nat): State {
      this.(running := running + {u}, routes := routes[u := Direct])
    }

    function Enqueue(u: nat, chat: int, c: nat, ch: Channel): State {
      this.(queues := queues[chat := c], channels := channels[c := ch],
            routes := routes[u := Queued(chat)], sent := sent[chat := At(sent, chat) + [u]])
    }

    /** dispatchUpdate; `c` is the channel it makes when the chat has none. */
    function Dispatch(u: nat, chat: int, c: nat): State
      requires chat in queues ==> queues[chat] in channels
    {
      if chat == 0 then RunDirect(u)
      else if chat !in queues then Enqueue(u, chat, c, Channel(chat, [u], Waiting))
      else
        var ch := channels[queues[chat]];
        if |ch.buffer| < CAPACITY then Enqueue(u, chat, queues[chat], ch.(buffer := ch.buffer + [u])) else RunDirect(u)
    }

    function Receive(c: nat): State
      requires c in channels && channels[c].buffer != []
    {
      var ch := channels[c];
      Put(c, ch.(buffer := ch.buffer[1..], worker := Handling(ch.buffer[0])))
    }

    function Finish(c: nat): State
      requires c in channels && channels[c].worker.Handling?
    {
      var ch := channels[c];
      Put(c, ch.(worker := Waiting)).(handled := handled[ch.chat := At(handled, ch.chat) + [ch.worker.u]])
    }

    function Tick(c: nat): State
      requires c in channels
    {
      Put(c, channels[c].(worker := Evicting))
    }

    /** Under the lock: leave if nothing was queued meanwhile. */
    function Evict(c: nat): State
      requires c in channels
    {
      var ch := channels[c];
      if ch.buffer == [] then Put(c, ch.(worker := Exited)).(queues := queues - {ch.chat})
      else Put(c, ch.(worker := Waiting))
    }

    function EndDirect(u: nat): State {
      this.(running := running - {u}, ran := ran + {u})
    }
  }

  const START := State(map[], map[], {}, map[], map[], map[], {})

  function At(m: map<int, seq<nat>>, chat: int): seq<nat> {
    if chat in m then m[chat] else []
  }

  datatype Event =
    | Arrive(u: nat, chat: int, c: nat) | Receive(c: nat) | Finish(c: nat)
    | Tick(c: nat) | Evict(c: nat) | EndDirect(u: nat)

  predicate Enabled(s: State, e: Event) {
    match e
    case Arrive(u, chat, c) => u !in s.routes && c !in s.channels && (chat in s.queues ==> s.queues[chat] in s.channels)
    case Receive(c) => c in s.channels && s.channels[c].worker.Waiting? && s.channels[c].buffer != []
    case Finish(c) => c in s.channels && s.channels[c].worker.Handling?
    case Tick(c) => c in s.channels && s.channels[c].worker.Waiting?
    case Evict(c) => c in s.channels && s.channels[c].worker.Evicting?
    case EndDirect(u) => u in s.running
  }

  function Next(s: State, e: Event): State
    requires Enabled(s, e)
  {
    match e
    case Arrive(u, chat, c) => s.Dispatch(u, chat, c)
    case Receive(c) => s.Receive(c)
    case Finish(c) => s.Finish(c)
    case Tick(c) => s.Tick(c)
    case Evict(c) => s.Evict(c)
    case EndDirect(u) => s.EndDirect(u)
  }

  // ---- The invariants ----

  /** A chat's entry and its live worker are one and the same channel. */
  ghost predicate Linked(s: State) {
    && (forall chat :: chat in s.queues ==> s.queues[chat] in s.channels)
    && (forall chat :: chat in s.queues ==>
          s.channels[s.queues[chat]].chat == chat && !s.channels[s.queues[chat]].worker.Exited?)
    && (forall c :: c in s.channels && !s.channels[c].worker.Exited? ==>
          s.channels[c].chat in s.queues && s.queues[s.channels[c].chat] == c)
    && (forall c :: c in s.channels ==> |s.channels[c].buffer| <= CAPACITY)
    && (forall c :: c in s.channels && s.channels[c].worker.Exited? ==> s.channels[c].buffer == [])
  }

  /** What a worker still has to do, in order. */
  function Ahead(ch: Channel): seq<nat> {
    (if ch.worker.Handling? then [ch.worker.u] else []) + ch.buffer
  }

  function Pending(s: State, chat: int): seq<nat> {
    if chat in s.queues && s.queues[chat] in s.channels then Ahead(s.channels[s.queues[chat]]) else []
  }

  /** What was queued for the chat is what was handled followed by what is pending. */
  predicate InOrderAt(s: State, chat: int) {
    At(s.sent, chat) == At(s.handled, chat) + Pending(s, chat)
  }

  ghost predicate InOrder(s: State) {
    forall chat :: InOrderAt(s, chat)
  }

  predicate Distinct(q: seq<nat>) {
    forall i, j :: 0 <= i < j < |q| ==> q[i] != q[j]
  }

  ghost predicate RoutedAt(s: State, chat: int) {
    Distinct(At(s.sent, chat)) && forall u :: u in At(s.sent, chat) <==> u in s.routes && s.routes[u] == Queued(chat)
  }

  /** Every update went one way, once. */
  ghost predicate Routed(s: State) {
    && (forall chat :: RoutedAt(s, chat))
    && (forall u :: u in s.running || u in s.ran <==> u in s.routes && s.routes[u] == Direct)
    && s.running !! s.ran
  }

  ghost predicate Inv(s: State) {
    Linked(s) && InOrder(s) && Routed(s)
  }

  lemma StartInv()
    ensures Inv(START)
  {
  }

  // ---- Every step keeps them ----

  lemma PutLinked(s: State, c: nat, ch: Channel)
    requires Linked(s) && c in s.channels && ch.chat == s.channels[c].chat && |ch.buffer| <= CAPACITY
    requires !ch.worker.Exited? && !s.channels[c].worker.Exited?
    ensures Linked(s.Put(c, ch))
  {
  }

  lemma EnqueueLinked(s: State, u: nat, chat: int, c: nat, ch: Channel)
    requires Linked(s) && ch.chat == chat && |ch.buffer| <= CAPACITY && !ch.worker.Exited?
    requires if chat in s.queues then c == s.queues[chat] else c !in s.channels
    ensures Linked(s.Enqueue(u, chat, c, ch))
  {
  }

  lemma EvictLinked(s: State, c: nat)
    requires Linked(s) && Enabled(s, Evict(c)) && s.channels[c].buffer == []
    ensures Linked(s.Evict(c))
  {
  }

  lemma StepLinked(s: State, e: Event)
    requires Linked(s) && Enabled(s, e)
    ensures Linked(Next(s, e))
  {
    match e
    case Arrive(u, chat, c) =>
      if chat != 0 && chat !in s.queues {
        EnqueueLinked(s, u, chat, c, Channel(chat, [u], Waiting));
      } else if chat != 0 && |s.channels[s.queues[chat]].buffer| < CAPACITY {
        var ch := s.channels[s.queues[chat]];
        EnqueueLinked(s, u, chat, s.queues[chat], ch.(buffer := ch.buffer + [u]));
      }
    case Receive(c) =>
      var ch := s.channels[c];
      PutLinked(s, c, ch.(buffer := ch.buffer[1..], worker := Handling(ch.buffer[0])));
    case Finish(c) => PutLinked(s, c, s.channels[c].(worker := Waiting));
    case Tick(c) => PutLinked(s, c, s.channels[c].(worker := Evicting));
    case Evict(c) =>
      if s.channels[c].buffer == [] {
        EvictLinked(s, c);
      } else {
        PutLinked(s, c, s.channels[c].(worker := Waiting));
      }
    case EndDirect(u) =>
  }

  lemma EnqueueInOrder(s: State, u: nat, chat: int, c: nat, ch: Channel, k: int)
    requires Linked(s) && InOrderAt(s, k) && Ahead(ch) == Pending(s, chat) + [u]
    requires if chat in s.queues then c == s.queues[chat] else c !in s.channels
    ensures InOrderAt(s.Enqueue(u, chat, c, ch), k)
  {
    if k == chat {
      assert At(s.handled, k) + (Pending(s, k) + [u]) == At(s.handled, k) + Pending(s, k) + [u];
    } else {
      assert k in s.queues ==> s.queues[k] != c;
    }
  }

  lemma ArriveInOrder(s: State, u: nat, chat: int, c: nat, k: int)
    requires Linked(s) && InOrderAt(s, k) && Enabled(s, Arrive(u, chat, c))
    ensures InOrderAt(s.Dispatch(u, chat, c), k)
  {
    if chat != 0 && chat !in s.queues {
      EnqueueInOrder(s, u, chat, c, Channel(chat, [u], Waiting), k);
    } else if chat != 0 && |s.channels[s.queues[chat]].buffer| < CAPACITY {
      var ch := s.channels[s.queues[chat]];
      var ch' := ch.(buffer := ch.buffer + [u]);
      assert Ahead(ch') == Ahead(ch) + [u];
      EnqueueInOrder(s, u, chat, s.queues[chat], ch', k);
    }
  }

  /** Changing a worker without changing what it still has to do. */
  lemma PutInOrder(s: State, c: nat, ch: Channel, k: int)
    requires Linked(s) && InOrderAt(s, k) && c in s.channels && Ahead(ch) == Ahead(s.channels[c])
    ensures InOrderAt(s.Put(c, ch), k)
  {
  }

  lemma ReceiveInOrder(s: State, c: nat, k: int)
    requires Linked(s) && InOrderAt(s, k) && Enabled(s, Receive(c))
    ensures InOrderAt(s.Receive(c), k)
  {
    var ch := s.channels[c];
    var ch' := ch.(buffer := ch.buffer[1..], worker := Handling(ch.buffer[0]));
    assert Ahead(ch) == ch.buffer == [ch.buffer[0]] + ch.buffer[1..];
    PutInOrder(s, c, ch', k);
  }

  lemma FinishInOrder(s: State, c: nat, k: int)
    requires Linked(s) && InOrderAt(s, k) && Enabled(s, Finish(c))
    ensures InOrderAt(s.Finish(c), k)
  {
    var ch := s.channels[c];
    if k == ch.chat {
      assert At(s.handled, k) + ([ch.worker.u] + ch.buffer) == At(s.handled, k) + [ch.worker.u] + ([] + ch.buffer);
    }
  }

  lemma WorkerInOrder(s: State, e: Event, k: int)
    requires Linked(s) && InOrderAt(s, k) && Enabled(s, e) && (e.Tick? || e.Evict?)
    ensures InOrderAt(Next(s, e), k)
  {
  }

  lemma StepInOrder(s: State, e: Event, k: int)
    requires Linked(s) && InOrderAt(s, k) && Enabled(s, e)
    ensures InOrderAt(Next(s, e), k)
  {
    match e
    case Arrive(u, chat, c) => ArriveInOrder(s, u, chat, c, k);
    case Receive(c) => ReceiveInOrder(s, c, k);
    case Finish(c) => FinishInOrder(s, c, k);
    case Tick(_) => WorkerInOrder(s, e, k);
    case Evict(_) => WorkerInOrder(s, e, k);
    case EndDirect(_) =>
  }

  lemma EnqueueRouted(s: State, u: nat, chat: int, c: nat, ch: Channel)
    requires Routed(s) && u !in s.routes
    ensures Routed(s.Enqueue(u, chat, c, ch))
  {
    var s' := s.Enqueue(u, chat, c, ch);
    forall k ensures RoutedAt(s', k) {
      assert RoutedAt(s, k);
      if k == chat {
        Appended(At(s.sent, k), u);
      }
    }
  }

  lemma Appended(q: seq<nat>, u: nat)
    requires Distinct(q) && u !in q
    ensures Distinct(q + [u]) && forall x :: x in q + [u] <==> x in q || x == u
  {
  }

  lemma DirectRouted(s: State, u: nat)
    requires Routed(s) && u !in s.routes
    ensures Routed(s.RunDirect(u))
  {
    forall k ensures RoutedAt(s.RunDirect(u), k) {
      assert RoutedAt(s, k);
    }
  }

  lemma StepRouted(s: State, e: Event)
    requires Routed(s) && Enabled(s, e)
    ensures Routed(Next(s, e))
  {
    if e.Arrive? {
      if e.chat != 0 && e.chat !in s.queues {
        EnqueueRouted(s, e.u, e.chat, e.c, Channel(e.chat, [e.u], Waiting));
      } else if e.chat != 0 && |s.channels[s.queues[e.chat]].buffer| < CAPACITY {
        var ch := s.channels[s.queues[e.chat]];
        EnqueueRouted(s, e.u, e.chat, s.queues[e.chat], ch.(buffer := ch.buffer + [e.u]));
      } else {
        DirectRouted(s, e.u);
      }
    } else {
      forall k ensures RoutedAt(Next(s, e), k) {
        assert RoutedAt(s, k);
      }
    }
  }

  lemma StepInv(s: State, e: Event)
    requires Inv(s) && Enabled(s, e)
    ensures Inv(Next(s, e))
  {
    StepLinked(s, e);
    forall k ensures InOrderAt(Next(s, e), k) {
      StepInOrder(s, e, k);
    }
    StepRouted(s, e);
  }

  ghost predicate Run(states: seq<State>, events: seq<Event>) {
    && |states| == |events| + 1 && states[0] == START
    && forall i :: 0 <= i < |events| ==> Enabled(states[i], events[i]) && states[i + 1] == Next(states[i], events[i])
  }

  /** Main result, for every interleaving: the invariants hold throughout. */
  lemma {:induction false} RunInv(states: seq<State>, events: seq<Event>, i: nat)
    requires Run(states, events) && i < |states|
    ensures Inv(states[i])
  {
    if i == 0 {
      StartInv();
    } else {
      RunInv(states, events, i - 1);
      StepInv(states[i - 1], events[i - 1]);
    }
  }

  // ---- What they mean ----

  /** At most one live worker per chat. */
  lemma OneWorker(s: State, a: nat, b: nat)
    requires Inv(s) && a in s.channels && b in s.channels && s.channels[a].chat == s.channels[b].chat
    requires !s.channels[a].worker.Exited? && !s.channels[b].worker.Exited?
    ensures a == b
  {
  }

  /** An update is only ever put on a channel whose worker has not exited. */
  lemma NeverOnDeadChannel(s: State, e: Event, c: nat)
    requires Inv(s) && Enabled(s, e) && c in s.channels && s.channels[c].worker.Exited?
    ensures c in Next(s, e).channels && Next(s, e).channels[c] == s.channels[c]
  {
  }

  // ---- When an update is queued and when it is not ----

  /** c is a channel of the chat whose worker has not exited. */
  predicate LiveFor(s: State, chat: int, c: nat) {
    c in s.channels && s.channels[c].chat == chat && !s.channels[c].worker.Exited?
  }

  /** The chat has a live channel with a hundred updates in it. */
  ghost predicate Full(s: State, chat: int) {
    exists c :: LiveFor(s, chat, c) && |s.channels[c].buffer| >= 100
  }

  /** Main result, for every state a run can reach: an arriving update is run in a goroutine of its
      own if and only if its chat is 0 or has a full channel, whatever the chat's worker does. */
  lemma DirectIff(s: State, u: nat, chat: int, c: nat)
    requires Inv(s) && Enabled(s, Arrive(u, chat, c))
    ensures var s' := Next(s, Arrive(u, chat, c));
            && u in s'.routes && (s'.routes[u] == Direct <==> chat == 0 || Full(s, chat))
            && (s'.routes[u] == Direct || s'.routes[u] == Queued(chat))
            && s'.running == (if s'.routes[u] == Direct then s.running + {u} else s.running)
  {
    if chat in s.queues {
      assert LiveFor(s, chat, s.queues[chat]);
    }
  }

  /** Main result: otherwise it is put at the end of the chat's live channel, or on a new one when
      there is none; no worker and no other channel changes. */
  lemma QueuedAtEnd(s: State, u: nat, chat: int, c: nat) returns (d: nat)
    requires Inv(s) && Enabled(s, Arrive(u, chat, c)) && chat != 0 && !Full(s, chat)
    ensures var s' := Next(s, Arrive(u, chat, c));
            && LiveFor(s', chat, d) && s'.channels.Keys == s.channels.Keys + {d}
            && (forall k :: k in s.channels && k != d ==> s'.channels[k] == s.channels[k])
            && (if d in s.channels
                then LiveFor(s, chat, d) && s'.channels[d] == s.channels[d].(buffer := s.channels[d].buffer + [u])
                else d == c && (forall k :: !LiveFor(s, chat, k)) && s'.channels[d] == Channel(chat, [u], Waiting))
  {
    d := if chat in s.queues then s.queues[chat] else c;
    if chat in s.queues {
      assert LiveFor(s, chat, d);
    }
  }

  /** The update is being handled, by a worker or by its own goroutine. */
  ghost predicate InProgress(s: State, u: nat) {
    u in s.running || exists c :: c in s.channels && s.channels[c].worker == Handling(u)
  }

  lemma {:induction false} RouteStays(states: seq<State>, events: seq<Event>, i: nat, j: nat, u: nat)
    requires Run(states, events) && i <= j < |states| && u in states[i].routes
    ensures u in states[j].routes && states[j].routes[u] == states[i].routes[u]
    decreases j
  {
    if i < j {
      RouteStays(states, events, i, j - 1, u);
    }
  }

  /** A worker handles only updates that were queued for its chat. */
  lemma HandlingWasQueued(s: State, c: nat)
    requires Inv(s) && c in s.channels && s.channels[c].worker.Handling?
    ensures var ch := s.channels[c]; ch.worker.u in s.routes && s.routes[ch.worker.u] == Queued(ch.chat)
  {
    var chat := s.channels[c].chat;
    assert Pending(s, chat) == Ahead(s.channels[c]) && s.channels[c].worker.u in Pending(s, chat);
    QueuedOnce(s, chat, s.channels[c].worker.u);
  }

  /** Where an update went is where its arrival sent it. */
  lemma DirectMetFull(states: seq<State>, events: seq<Event>, a: nat, i: nat)
    requires Run(states, events) && a < i < |states| && events[a].Arrive?
    ensures events[a].u in states[i].routes
    ensures states[i].routes[events[a].u] ==
            if events[a].chat == 0 || Full(states[a], events[a].chat) then Direct else Queued(events[a].chat)
  {
    RunInv(states, events, a);
    hide Inv;
    DirectIff(states[a], events[a].u, events[a].chat, events[a].c);
    hide Full;
    RouteStays(states, events, a + 1, i, events[a].u);
  }

  /** Main result, for every interleaving: two updates of one chat are in progress together only if
      the chat is 0 or one of them arrived when the chat's channel was full. */
  lemma TogetherOnlyIfFull(states: seq<State>, events: seq<Event>, a: nat, b: nat, i: nat)
    requires Run(states, events) && a < i < |states| && b < i && events[a].Arrive? && events[b].Arrive?
    requires events[a].chat == events[b].chat && events[a].u != events[b].u
    requires InProgress(states[i], events[a].u) && InProgress(states[i], events[b].u)
    ensures events[a].chat == 0 || Full(states[a], events[a].chat) || Full(states[b], events[a].chat)
  {
    RunInv(states, events, i);
    DirectMetFull(states, events, a, i);
    DirectMetFull(states, events, b, i);
    var s, chat := states[i], events[a].chat;
    if s.routes[events[a].u] == Queued(chat) && s.routes[events[b].u] == Queued(chat) {
      TogetherQueued(s, chat, events[a].u, events[b].u);
    }
  }

  /** Of the updates queued for a chat at most one is in progress. */
  lemma TogetherQueued(s: State, chat: int, u: nat, v: nat)
    requires Inv(s) && u in s.routes && s.routes[u] == Queued(chat) && v in s.routes && s.routes[v] == Queued(chat)
    requires InProgress(s, u) && InProgress(s, v)
    ensures u == v
  {
    var c :| c in s.channels && s.channels[c].worker == Handling(u);
    var d :| d in s.channels && s.channels[d].worker == Handling(v);
    HandlingWasQueued(s, c);
    HandlingWasQueued(s, d);
    OneWorker(s, c, d);
  }

  /** Main result: a worker whose timer has fired leaves, and its chat is forgotten, if and only if
      nothing was queued by the time it holds the lock; otherwise it goes on with all of it. */
  lemma IdleWorkerLeavesIff(s: State, c: nat)
    requires Inv(s) && Enabled(s, Event.Evict(c))
    ensures var s', ch := Next(s, Event.Evict(c)), s.channels[c];
            && c in s'.channels && (s'.channels[c].worker == Exited <==> ch.buffer == [])
            && (ch.chat in s'.queues <==> ch.buffer != [])
            && (ch.buffer != [] ==> s'.channels[c] == ch.(worker := Waiting) && s'.queues == s.queues)
            && (forall chat :: chat != ch.chat ==> (chat in s'.queues <==> chat in s.queues))
            && (forall chat :: chat != ch.chat && chat in s.queues ==> s'.queues[chat] == s.queues[chat])
  {
  }

  function Count(q: seq<nat>, u: nat): nat {
    multiset(q)[u]
  }

  lemma {:induction false} CountDistinct(q: seq<nat>, u: nat)
    requires Distinct(q)
    ensures Count(q, u) == if u in q then 1 else 0
  {
    if q != [] {
      var n := |q| - 1;
      assert q == q[..n] + [q[n]];
      CountDistinct(q[..n], u);
    }
  }

  /** What was handled or is pending is what was queued, each update once. */
  lemma QueuedOnce(s: State, chat: int, u: nat)
    requires Inv(s)
    ensures At(s.sent, chat) == At(s.handled, chat) + Pending(s, chat) && Distinct(At(s.handled, chat))
    ensures u in At(s.sent, chat) <==> u in s.routes && s.routes[u] == Queued(chat)
    ensures u in At(s.sent, chat) <==> u in At(s.handled, chat) || u in Pending(s, chat)
  {
    assert InOrderAt(s, chat) && RoutedAt(s, chat);
    var sent, handled := At(s.sent, chat), At(s.handled, chat);
    assert forall i :: 0 <= i < |handled| ==> sent[i] == handled[i];
  }

  /** Main result: an update is handled at most once, only in its own chat, and by workers
      in the order in which the updates of the chat were queued, whichever generation of
      worker handles it. */
  lemma AtMostOnceInOrder(s: State, chat: int, u: nat)
    requires Inv(s)
    ensures At(s.handled, chat) <= At(s.sent, chat)
    ensures Count(At(s.handled, chat), u) <= 1
    ensures u in At(s.handled, chat) ==> u in s.routes && s.routes[u] == Queued(chat) && u !in s.ran
  {
    QueuedOnce(s, chat, u);
    CountDistinct(At(s.handled, chat), u);
  }

  predicate Quiet(s: State) {
    s.running == {} && forall c :: c in s.channels ==> Ahead(s.channels[c]) == []
  }

  /** Main result: once nothing is pending, every dispatched update was handled exactly
      once, by its chat's workers or by its own goroutine. */
  lemma QuietMeansAllHandled(s: State, u: nat)
    requires Inv(s) && Quiet(s) && u in s.routes
    ensures s.routes[u].Queued? ==> Count(At(s.handled, s.routes[u].chat), u) == 1 && u !in s.ran
    ensures s.routes[u].Direct? ==> u in s.ran
  {
    if s.routes[u].Queued? {
      QueuedOnce(s, s.routes[u].chat, u);
      CountDistinct(At(s.handled, s.routes[u].chat), u);
    }
  }

  /** Main result: an update that was not handled yet never waits for a step that cannot
      happen: its goroutine, or its chat's worker, can move. */
  lemma NoUpdateStuck(s: State, u: nat)
    requires Inv(s) && u in s.routes
    ensures s.routes[u].Direct? && u !in s.ran ==> Enabled(s, EndDirect(u))
    ensures s.routes[u].Queued? && u !in At(s.handled, s.routes[u].chat) ==>
      s.routes[u].chat in s.queues && WorkerCanMove(s, s.queues[s.routes[u].chat])
  {
    if s.routes[u].Queued? && u !in At(s.handled, s.routes[u].chat) {
      QueuedOnce(s, s.routes[u].chat, u);
      LiveWorkerMoves(s, s.routes[u].chat);
    }
  }

  ghost predicate WorkerCanMove(s: State, c: nat) {
    Enabled(s, Event.Receive(c)) || Enabled(s, Event.Finish(c)) || Enabled(s, Event.Evict(c))
  }

  lemma LiveWorkerMoves(s: State, chat: int)
    requires Linked(s) && Pending(s, chat) != []
    ensures chat in s.queues && WorkerCanMove(s, s.queues[chat])
  {
  }

  // ---- Draining ----

  /** The events happen one after the other, none of them an arrival. */
  ghost predicate Plays(s: State, events: seq<Event>, s': State)
    decreases |events|
  {
    if events == [] then s' == s
    else !events[0].Arrive? && Enabled(s, events[0]) && Plays(Next(s, events[0]), events[1..], s')
  }

  lemma PlaysOne(s: State, e: Event)
    requires !e.Arrive? && Enabled(s, e)
    ensures Plays(s, [e], Next(s, e))
  {
    assert [e][1..] == [];
  }

  lemma {:induction false} PlaysConcat(s: State, a: seq<Event>, s': State, b: seq<Event>, s'': State)
    requires Plays(s, a, s') && Plays(s', b, s'')
    ensures Plays(s, a + b, s'')
    decreases |a|
  {
    if a == [] {
      assert a + b == b;
    } else {
      assert (a + b)[1..] == a[1..] + b;
      PlaysConcat(Next(s, a[0]), a[1..], s', b, s'');
    }
  }

  /** Steps a worker needs to empty its channel. */
  function Effort(ch: Channel): nat {
    2 * |ch.buffer| + if ch.worker.Handling? || ch.worker.Evicting? then 1 else 0
  }

  /** Only channel c differs. */
  ghost predicate OnlyAt(s: State, c: nat, s': State) {
    && s'.channels.Keys == s.channels.Keys && s'.running == s.running && s'.routes == s.routes
    && forall d :: d in s.channels && d != c ==> s'.channels[d] == s.channels[d]
  }

  /** The next step of a worker that has something ahead. */
  lemma WorkerStep(s: State, c: nat) returns (e: Event)
    requires Inv(s) && c in s.channels && Ahead(s.channels[c]) != []
    ensures !e.Arrive? && Enabled(s, e) && OnlyAt(s, c, Next(s, e))
    ensures Effort(Next(s, e).channels[c]) < Effort(s.channels[c])
  {
    var ch := s.channels[c];
    match ch.worker
    case Handling(_) => e := Event.Finish(c);
    case Waiting => e := Event.Receive(c);
    case Evicting => e := Event.Evict(c);
    case Exited => assert false;
  }

  lemma {:induction false} DrainOne(s: State, c: nat) returns (events: seq<Event>, s': State)
    requires Inv(s) && c in s.channels
    ensures Plays(s, events, s') && Inv(s') && OnlyAt(s, c, s') && Ahead(s'.channels[c]) == []
    decreases Effort(s.channels[c])
  {
    events, s' := [], s;
    if Ahead(s.channels[c]) != [] {
      var e := WorkerStep(s, c);
      StepInv(s, e);
      PlaysOne(s, e);
      events, s' := DrainOne(Next(s, e), c);
      PlaysConcat(s, [e], Next(s, e), events, s');
      events := [e] + events;
    }
  }

  function Busy(s: State): set<nat> {
    set c | c in s.channels && Ahead(s.channels[c]) != []
  }

  lemma {:induction false} DrainChannels(s: State) returns (events: seq<Event>, s': State)
    requires Inv(s)
    ensures Plays(s, events, s') && Inv(s') && Busy(s') == {} && s'.running == s.running && s'.routes == s.routes
    decreases Busy(s)
  {
    hide Inv;
    events, s' := [], s;
    if Busy(s) != {} {
      var c :| c in Busy(s);
      var first, mid := DrainOne(s, c);
      assert Busy(mid) == Busy(s) - {c};
      events, s' := DrainChannels(mid);
      PlaysConcat(s, first, mid, events, s');
      events := first + events;
    }
  }

  lemma {:induction false} DrainDirect(s: State) returns (events: seq<Event>, s': State)
    requires Inv(s)
    ensures Plays(s, events, s') && Inv(s') && s'.running == {} && s'.channels == s.channels && s'.routes == s.routes
    decreases s.running
  {
    events, s' := [], s;
    if s.running != {} {
      var u :| u in s.running;
      var e := EndDirect(u);
      StepInv(s, e);
      PlaysOne(s, e);
      events, s' := DrainDirect(Next(s, e));
      PlaysConcat(s, [e], Next(s, e), events, s');
      events := [e] + events;
    }
  }

  /** Main result: from every state a run can reach, the workers and goroutines alone can bring
      about a quiet one, in which every update dispatched so far was handled exactly once. */
  lemma EveryUpdateCanFinish(states: seq<State>, events: seq<Event>, i: nat) returns (more: seq<Event>, end: State)
    requires Run(states, events) && i < |states|
    ensures Plays(states[i], more, end) && Quiet(end) && end.routes == states[i].routes
    ensures forall u :: u in end.routes ==>
      if end.routes[u].Queued? then Count(At(end.handled, end.routes[u].chat), u) == 1 && u !in end.ran
      else u in end.ran
  {
    RunInv(states, events, i);
    var first, mid := DrainChannels(states[i]);
    more, end := DrainDirect(mid);
    PlaysConcat(states[i], first, mid, more, end);
    more := first + more;
    assert forall c :: c in end.channels && Ahead(end.channels[c]) != [] ==> c in Busy(mid);
    forall u | u in end.routes
      ensures if end.routes[u].Queued? then Count(At(end.handled, end.routes[u].chat), u) == 1 && u !in end.ran
              else u in end.ran
    {
      QuietMeansAllHandled(end, u);
    }
  }
}
