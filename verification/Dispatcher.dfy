/** dispatchUpdate and the worker loop of handlers.go as methods over the shared maps. A
    method is one critical section or one channel operation of the steps in Dispatch.dfy. */
module Dispatchers {
  import opened Dispatch

  class Dispatcher {
    var chatQueues: map<int, nat>
    var channels: map<nat, Channel>
    var running: set<nat>
    var nextChannel: nat
    ghost var routes: map<nat, Route>
    ghost var sent: map<int, seq<nat>>
    ghost var handled: map<int, seq<nat>>
    ghost var ran: set<nat>

    ghost function Shared(): State
      reads this
    {
      State(chatQueues, channels, running, routes, sent, handled, ran)
    }

    ghost predicate Valid()
      reads this
    {
      Inv(Shared()) && forall c :: c in channels ==> c < nextChannel
    }

    constructor ()
      ensures Valid() && Shared() == START
    {
      chatQueues, channels, running, nextChannel := map[], map[], {}, 0;
      routes, sent, handled, ran := map[], map[], map[], {};
    }

    /** The chat's channel, made with its worker when there is none. */
    method ChannelOf(chat: int) returns (c: nat)
      requires chat in chatQueues ==> chatQueues[chat] in channels
      modifies this`chatQueues, this`channels, this`nextChannel
      ensures c in channels && chatQueues == old(chatQueues)[chat := c]
      ensures chat in old(chatQueues) ==>
        c == old(chatQueues)[chat] && channels == old(channels) && nextChannel == old(nextChannel)
      ensures chat !in old(chatQueues) ==>
        c == old(nextChannel) && channels == old(channels)[c := Channel(chat, [], Waiting)] && nextChannel == c + 1
    {
      if chat !in chatQueues {
        channels := channels[nextChannel := Channel(chat, [], Waiting)];
        chatQueues := chatQueues[chat := nextChannel];
        nextChannel := nextChannel + 1;
      }
      c := chatQueues[chat];
    }

    /** go handleUpdate(...). */
    method RunDirect(u: nat)
      modifies this`running, this`routes
      ensures Shared() == old(Shared()).RunDirect(u)
    {
      running := running + {u};
      routes := routes[u := Direct];
    }

    /** The lock-protected part: find or make the channel, then send without blocking. */
    method Route(u: nat, chat: int)
      requires chat in chatQueues ==> chatQueues[chat] in channels
      modifies this
      ensures Shared() == old(Shared()).Dispatch(u, chat, old(nextChannel))
      ensures nextChannel == old(nextChannel) + if chat == 0 || chat in old(chatQueues) then 0 else 1
    {
      if chat == 0 {
        RunDirect(u);
        return;
      }
      var c := ChannelOf(chat);
      var ch := channels[c];
      if |ch.buffer| < CAPACITY {
        assert [] + [u] == [u];
        channels := channels[c := ch.(buffer := ch.buffer + [u])];
        routes := routes[u := Queued(chat)];
        sent := sent[chat := At(sent, chat) + [u]];
      } else {
        RunDirect(u);
      }
    }

    /** dispatchUpdate. */
    method DispatchUpdate(u: nat, chat: int)
      requires Valid() && u !in routes
      modifies this
      ensures Valid() && Shared() == old(Shared()).Dispatch(u, chat, old(nextChannel))
      ensures u in routes && (routes[u] == Direct <==> chat == 0 || Full(old(Shared()), chat))
    {
      StepInv(Shared(), Arrive(u, chat, nextChannel));
      DirectIff(Shared(), u, chat, nextChannel);
      Route(u, chat);
    }

    /** The worker takes a task and starts handling it. */
    method ReceiveTask(c: nat) returns (u: nat)
      requires Valid() && Enabled(Shared(), Event.Receive(c))
      modifies this`channels
      ensures Valid() && Shared() == old(Shared()).Receive(c) && u == old(channels[c].buffer[0])
    {
      StepInv(Shared(), Event.Receive(c));
      var ch := channels[c];
      u := ch.buffer[0];
      channels := channels[c := ch.(buffer := ch.buffer[1..], worker := Handling(u))];
    }

    method FinishTask(c: nat)
      requires Valid() && Enabled(Shared(), Event.Finish(c))
      modifies this`channels, this`handled
      ensures Valid() && Shared() == old(Shared()).Finish(c)
    {
      StepInv(Shared(), Event.Finish(c));
      var ch := channels[c];
      channels := channels[c := ch.(worker := Waiting)];
      handled := handled[ch.chat := At(handled, ch.chat) + [ch.worker.u]];
    }

    /** The idle timer fires; the worker has yet to take the lock. */
    method IdleTick(c: nat)
      requires Valid() && Enabled(Shared(), Event.Tick(c))
      modifies this`channels
      ensures Valid() && Shared() == old(Shared()).Tick(c)
    {
      StepInv(Shared(), Event.Tick(c));
      channels := channels[c := channels[c].(worker := Evicting)];
    }

    /** Under the lock, the idle worker leaves or goes on. */
    method LeaveIfIdle(c: nat) returns (left: bool)
      requires Valid() && Enabled(Shared(), Event.Evict(c))
      modifies this`channels, this`chatQueues
      ensures Valid() && Shared() == old(Shared()).Evict(c)
      ensures left == (old(channels[c].buffer) == [])
    {
      StepInv(Shared(), Event.Evict(c));
      var ch := channels[c];
      left := |ch.buffer| == 0;
      if left {
        chatQueues := chatQueues - {ch.chat};
      }
      channels := channels[c := ch.(worker := if left then Exited else Waiting)];
    }

    /** A goroutine of its own handles the update. */
    method FinishDirect(u: nat)
      requires Valid() && u in running
      modifies this`running, this`ran
      ensures Valid() && Shared() == old(Shared()).EndDirect(u)
    {
      StepInv(Shared(), Event.EndDirect(u));
      running := running - {u};
      ran := ran + {u};
    }
  }
}
