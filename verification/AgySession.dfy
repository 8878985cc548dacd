/** One agent session of session.go. Each critical section of start, Kill and the exit
    handler is a method; the error branches of the stdout reader are methods that run them
    in order, on the shared account pool. */
module AgySessions {
  import opened Accounts
  import opened GlobalPools
  import opened Quotas
  import opened Results
  import opened Sessions

  class AgySession {
    const chat: int
    const bot: string
    var isAlive: bool
    var cmd: Option<nat>
    var cmdEpoch: nat
    ghost var window: bool
    ghost var launched: map<nat, nat>
    ghost var held: nat
    var messageID: int
    var turnStart: Time
    var streamRetries: int
    var turnFailovers: int
    var textBuffer: string
    var textTruncated: bool
    var conversation: string
    var useContinue: bool
    var accountID: string
    var accountHome: string

    ghost function Phase(): Control
      reads this
    {
      Control(isAlive, cmd, cmdEpoch, window, launched)
    }

    ghost function Doing(): Work
      reads this
    {
      Work(messageID, turnStart, Turn(streamRetries, turnFailovers), textBuffer, textTruncated)
    }

    ghost function Bound(): Binding
      reads this
    {
      Binding(conversation, useContinue, accountID, accountHome)
    }

    function Key(): ChatKey {
      KeyOf(chat, bot)
    }

    ghost function At(pool: GlobalPool): Seat
      reads this, pool
    {
      Seat(pool.view, accountID, turnStart, held)
    }

    /** The pool is sound and the session is no part of it. */
    ghost predicate Beside(pool: GlobalPool)
      reads pool, pool.Repr
    {
      pool.Valid() && this !in pool.Repr
    }

    constructor (chat: int, bot: string, conversation: string, useContinue: bool)
      ensures InStep(Phase()) && Doing() == IDLE && Bound() == Binding(conversation, useContinue, "", "") && held == 0
    {
      this.chat, this.bot, this.conversation, this.useContinue := chat, bot, conversation, useContinue;
      isAlive, cmd, cmdEpoch, window, launched, held := false, None, 0, false, map[], 0;
      messageID, turnStart, streamRetries, turnFailovers, textBuffer, textTruncated := 0, 0, 0, 0, "", false;
      accountID, accountHome := "", "";
    }

    // ---- The critical sections ----

    /** The first section of start(); it is skipped when the session is alive. */
    method BeginStart()
      requires InStep(Phase()) && !window && !isAlive
      modifies this`cmdEpoch, this`window
      ensures InStep(Phase()) && Moves(old(Phase()), Begin, Phase())
    {
      cmdEpoch := cmdEpoch + 1;
      window := true;
    }

    /** The second section of start(), with its process running. */
    method Install(p: nat)
      requires InStep(Phase()) && window && p !in launched
      modifies this`isAlive, this`cmd, this`window, this`launched
      ensures InStep(Phase()) && Moves(old(Phase()), Event.Install(p), Phase())
    {
      cmd := Some(p);
      isAlive := true;
      window := false;
      launched := launched[p := cmdEpoch];
    }

    method FailStart()
      requires InStep(Phase()) && window
      modifies this`isAlive, this`cmd, this`window
      ensures InStep(Phase()) && Moves(old(Phase()), Fail, Phase())
    {
      cmd := None;
      isAlive := false;
      window := false;
    }

    /** The exit handler of process p, started in generation `epoch`; a process that is no
        longer installed changes nothing. */
    method Exited(p: nat, epoch: nat)
      requires InStep(Phase()) && p in launched && launched[p] == epoch
      modifies this
      ensures InStep(Phase()) && Moves(old(Phase()), Exit(p), Phase()) && Bound() == old(Bound()) && held == old(held)
      ensures if old(cmd) == Some(p) then Doing() == IDLE else Phase() == old(Phase()) && Doing() == old(Doing())
    {
      if cmdEpoch != epoch || cmd != Some(p) {
        return;
      }
      isAlive := false;
      cmd := None;
      ClearTurn();
    }

    method ClearTurn()
      modifies this`messageID, this`turnStart, this`streamRetries, this`turnFailovers, this`textBuffer,
               this`textTruncated
      ensures Doing() == IDLE
    {
      messageID, turnStart, streamRetries, turnFailovers, textBuffer, textTruncated := 0, 0, 0, 0, "", false;
    }

    /** The locked section of Kill. */
    method Disconnect() returns (hadActiveTurn: bool)
      requires InStep(Phase())
      modifies this
      ensures InStep(Phase()) && Moves(old(Phase()), Event.Kill, Phase())
      ensures Doing() == IDLE && Bound() == old(Bound()) && held == old(held)
      ensures hadActiveTurn == (old(turnStart) != 0)
    {
      MovesKeepsInStep(Phase(), Event.Kill, Phase().Kill());
      hide InStep;
      isAlive := false;
      cmd := None;
      hadActiveTurn := turnStart != 0;
      ClearTurn();
    }

    method Kill(pool: GlobalPool)
      requires InStep(Phase()) && Beside(pool)
      modifies this, pool.Repr
      ensures InStep(Phase()) && Moves(old(Phase()), Event.Kill, Phase())
      ensures Doing() == IDLE && Bound() == old(Bound())
      ensures Beside(pool) && pool.Repr == old(pool.Repr) && At(pool) == Killed(old(At(pool)))
    {
      var hadActiveTurn := Disconnect();
      if accountID != "" && hadActiveTurn {
        pool.Release(accountID);
        held := Less(held);
      }
    }

    // ---- start() as a whole ----

    /** Brings the count of leases up to date after the pool was used elsewhere. */
    ghost method Recount(pool: GlobalPool)
      modifies this`held
      ensures At(pool) == Shared(old(At(pool)), pool.view)
    {
      held := Covered(held, Turns(At(pool)));
    }

    /** The account part of start(). */
    method Bind(pool: GlobalPool, now: Time)
      requires Beside(pool) && now > 0
      modifies this`accountID, this`accountHome, this`held, pool.Repr
      ensures Beside(pool) && pool.Repr == old(pool.Repr) && Starts(old(At(pool)), Key(), now, At(pool))
    {
      hide GlobalPool.Valid;
      var acc := pool.GetAccount(accountID);
      if accountID == "" || (acc.Some? && (Resting(acc.value, now) || acc.value.state.Frozen?)) {
        var got := pool.Acquire(chat, bot, now);
        if got.Ok? {
          accountID := got.value.id;
          accountHome := got.value.homeDir;
          held := 1;
        } else {
          if acc.Some? {
            accountHome := acc.value.homeDir;
          }
          Recount(pool);
        }
      } else if acc.Some? {
        accountHome := acc.value.homeDir;
      }
    }

    /** start(): `launches` says whether the process p could be started. */
    method Start(pool: GlobalPool, launches: bool, p: nat, now: Time) returns (ok: bool)
      requires InStep(Phase()) && Beside(pool) && now > 0 && !window && p !in launched
      modifies this`isAlive, this`cmd, this`cmdEpoch, this`window, this`launched, this`accountID, this`accountHome,
               this`held, pool.Repr
      ensures InStep(Phase()) && !window && launched.Keys <= old(launched.Keys) + {p}
      ensures ok == (old(isAlive) || launches) && isAlive == ok && Beside(pool) && pool.Repr == old(pool.Repr)
      ensures if old(isAlive) then At(pool) == old(At(pool)) && Bound() == old(Bound())
              else Starts(old(At(pool)), Key(), now, At(pool))
    {
      if isAlive {
        return true;
      }
      BeginStart();
      Bind(pool, now);
      if launches {
        Install(p);
      } else {
        FailStart();
      }
      ok := launches;
    }

    // ---- A turn that ends well ----

    /** What finalizeTurn does to the session and the pool. The lease goes back whether or not
        the session holds one; the mark that the text was cut short stays. */
    method EndTurn(pool: GlobalPool)
      requires Beside(pool)
      modifies this`messageID, this`turnStart, this`streamRetries, this`turnFailovers, this`textBuffer, this`held,
               pool.Repr
      ensures Beside(pool) && pool.Repr == old(pool.Repr) && At(pool) == Ended(old(At(pool)))
      ensures Doing() == IDLE.(truncated := old(textTruncated))
    {
      hide GlobalPool.Valid;
      messageID, turnStart, streamRetries, turnFailovers, textBuffer := 0, 0, 0, 0, "";
      if accountID != "" {
        pool.Release(accountID);
        held := Less(held);
      }
    }

    // ---- A turn that fails ----

    method Resume(work: Work, bound: Binding)
      modifies this`messageID, this`turnStart, this`streamRetries, this`turnFailovers, this`textBuffer,
               this`textTruncated, this`conversation, this`useContinue, this`accountID, this`accountHome
      ensures Doing() == work && Bound() == bound
    {
      messageID, turnStart, textBuffer, textTruncated := work.messageID, work.turnStart, work.text, work.truncated;
      streamRetries, turnFailovers := work.spent.retries, work.spent.failovers;
      conversation, useContinue := bound.conversation, bound.useContinue;
      accountID, accountHome := bound.account, bound.home;
    }

    /** The deferred section of the stdout reader, when it returns. */
    method LeaveReader()
      modifies this`textBuffer
      ensures Doing() == AfterRead(old(Doing()))
    {
      if messageID == 0 {
        textBuffer := "";
      }
    }

    /** Kill, put the turn's fields back, and start again: what every recovery does. A session
        that moves to another account has taken one lease of it. */
    method Restart(pool: GlobalPool, work: Work, bound: Binding, launches: bool, p: nat, now: Time) returns (ok: bool)
      requires InStep(Phase()) && Beside(pool) && now > 0 && !window && p !in launched
      modifies this, pool.Repr
      ensures InStep(Phase()) && !window && launched.Keys <= old(launched.Keys) + {p}
      ensures ok == launches == isAlive && Doing() == work
      ensures conversation == bound.conversation && useContinue == bound.useContinue
      ensures Beside(pool) && pool.Repr == old(pool.Repr)
      ensures var k := Killed(old(At(pool)));
        var held := if bound.account == old(accountID) then k.held else 1;
        Starts(Seat(k.pool, bound.account, work.turnStart, held), Key(), now, At(pool))
    {
      hide GlobalPool.Valid;
      hide InStep;
      hide Starts;
      hide Killed;
      Kill(pool);
      if bound.account != accountID {
        held := 1;
      }
      Resume(work, bound);
      ok := Start(pool, launches, p, now);
    }

    /** The first answer to a severed stream: restart on the same account. The lease of the
        turn is given back by Kill and is not taken again unless the account is unusable. */
    method RetryStream(pool: GlobalPool, launches: bool, p: nat, now: Time) returns (ok: bool)
      requires InStep(Phase()) && Beside(pool) && now > 0 && !window && p !in launched
      requires streamRetries < MAX_STREAM_RETRIES
      modifies this, pool.Repr
      ensures InStep(Phase()) && !window && launched.Keys <= old(launched.Keys) + {p} && Beside(pool)
        && pool.Repr == old(pool.Repr)
      ensures ok == launches == isAlive && conversation == old(conversation)
      ensures Allowed(old(Doing()).spent, Retry) == Some(Doing().spent)
      ensures Doing() == Restarted(old(Doing()), Doing().spent, now, ok)
      ensures Retries(old(At(pool)), Key(), now, At(pool))
    {
      var work := Work(messageID, now, Turn(streamRetries + 1, turnFailovers), textBuffer, textTruncated);
      var bound := Binding(conversation, useContinue, accountID, accountHome);
      ok := Restart(pool, work, bound, launches, p, now);
      if ok {
        LeaveReader();
      }
    }

    /** The pool's part of a failover: rest the account, then acquire another one. */
    method RestAndAcquire(pool: GlobalPool, cur: string, duration: Time, now: Time)
      returns (got: Result<Profile, PoolError>)
      requires Beside(pool) && now > 0
      modifies pool.Repr
      ensures Beside(pool) && pool.Repr == old(pool.Repr)
        && Acquires(old(pool.view).MarkCooldown(cur, duration, now), Key(), now, pool.view, got)
    {
      pool.MarkCooldown(cur, duration, now);
      got := pool.Acquire(chat, bot, now);
    }

    /** The session's part of a failover: restart on the acquired account. */
    method MoveTo(pool: GlobalPool, next: Profile, work: Work, launches: bool, p: nat, now: Time) returns (ok: bool)
      requires InStep(Phase()) && Beside(pool) && now > 0 && !window && p !in launched
      modifies this, pool.Repr
      ensures InStep(Phase()) && !window && launched.Keys <= old(launched.Keys) + {p} && Beside(pool)
        && pool.Repr == old(pool.Repr)
      ensures ok == launches == isAlive && Doing() == work
      ensures conversation == old(conversation) && !useContinue
      ensures Starts(MovedTo(old(At(pool)), old(pool.view), next.id, work.turnStart), Key(), now, At(pool))
    {
      hide GlobalPool.Valid;
      hide InStep;
      hide Starts;
      hide Killed;
      var bound := Binding(conversation, false, next.id, next.homeDir);
      held := if accountID == next.id then held + 1 else held;
      ok := Restart(pool, work, bound, launches, p, now);
    }

    /** After the retries, one failover: `cur` is the account the error was reported on. */
    method FailOverStream(pool: GlobalPool, cur: string, launches: bool, p: nat, now: Time)
      returns (rotated: bool, ok: bool)
      requires InStep(Phase()) && Beside(pool) && now > 0 && !window && p !in launched
      modifies this, pool.Repr
      ensures InStep(Phase()) && !window && launched.Keys <= old(launched.Keys) + {p} && Beside(pool)
        && pool.Repr == old(pool.Repr)
      ensures ok == (rotated && launches) && (ok ==> isAlive)
      ensures !rotated ==>
        && Doing() == old(Doing()) && Bound() == old(Bound())
        && StreamStays(old(At(pool)), cur, old(turnFailovers), Key(), now, At(pool))
      ensures rotated ==>
        && Allowed(old(Doing()).spent, StreamFailover) == Some(Doing().spent)
        && Doing() == Restarted(old(Doing()), Doing().spent, now, ok) && conversation == old(conversation)
        && StreamMoves(old(At(pool)), cur, Key(), now, At(pool))
    {
      hide GlobalPool.Valid;
      hide InStep;
      hide Starts;
      hide Acquires;
      hide Killed;
      var pinned := pool.IsPinned(chat, bot);
      if turnFailovers >= MAX_STREAM_FAILOVERS || cur == "" || pinned {
        return false, false;
      }
      var spent := Turn(streamRetries, turnFailovers);
      var work := Work(messageID, now, Allowed(spent, StreamFailover).value, textBuffer, textTruncated);
      ghost var s := At(pool);
      var got := RestAndAcquire(pool, cur, MINUTE, now);
      ghost var leased := pool.view;
      if got.Err? {
        Recount(pool);
        return false, false;
      }
      rotated := true;
      ghost var rested := Shared(s, s.pool.MarkCooldown(cur, MINUTE, now));
      held := rested.held;
      ok := MoveTo(pool, got.value, work, launches, p, now);
      ghost var after := At(pool);
      assert LeavesBy(rested, Key(), now, leased, got, after);
      if ok {
        LeaveReader();
      }
      assert At(pool) == after;
    }

    /** A stream error that cannot be recovered: the turn is cleared before Kill, so this Kill
        gives no lease back. */
    method GiveUp(pool: GlobalPool)
      requires InStep(Phase()) && Beside(pool)
      modifies this, pool.Repr
      ensures InStep(Phase()) && Moves(old(Phase()), Event.Kill, Phase())
      ensures Doing() == IDLE && Bound() == old(Bound()) && Beside(pool) && pool.Repr == old(pool.Repr)
        && At(pool) == old(At(pool)).(turnStart := 0)
    {
      ClearTurn();
      Kill(pool);
    }

    /** The refresh at the start of the quota branch; `usage` is the report read for the
        account, if it could be read. */
    method Refetch(pool: GlobalPool, usage: Option<seq<Group>>, now: Time) returns (report: Option<Quota>)
      requires Beside(pool) && now > 0
      modifies pool.Repr
      ensures Beside(pool) && pool.Repr == old(pool.Repr)
        && pool.view == Refetched(old(pool.view), accountID, usage, now)
      ensures report == Report(old(pool.view), accountID, usage, now)
    {
      report := None;
      var acc := pool.GetAccount(accountID);
      if usage.Some? && acc.Some? {
        var q := pool.Refresh(accountID, usage.value, now);
        report := Some(q);
      }
    }

    /** Rest the account and go on with another one. A session that cannot be started on the
        new account gives its lease back at once. */
    method LeaveFor(pool: GlobalPool, duration: Time, work: Work, launches: bool, p: nat, now: Time) returns (ok: bool)
      requires InStep(Phase()) && Beside(pool) && now > 0 && !window && p !in launched && work.turnStart == now
      modifies this, pool.Repr
      ensures InStep(Phase()) && !window && launched.Keys <= old(launched.Keys) + {p}
      ensures Beside(pool) && pool.Repr == old(pool.Repr)
      ensures ok ==> isAlive && Doing() == work && conversation == old(conversation)
      ensures var rested := Shared(old(At(pool)), old(pool.view).MarkCooldown(old(accountID), duration, now));
        if ok then Leaves(rested, Key(), now, At(pool))
        else (!launches && FailsToLeave(rested, Key(), now, At(pool)))
             || (At(pool) == Shared(old(At(pool)), pool.view) && NoneLeft(rested.pool, Key(), now, pool.view))
    {
      hide GlobalPool.Valid;
      hide InStep;
      hide Starts;
      hide Acquires;
      hide Killed;
      ghost var rested := Shared(At(pool), pool.view.MarkCooldown(accountID, duration, now));
      var got := RestAndAcquire(pool, accountID, duration, now);
      ghost var leased := pool.view;
      if got.Err? {
        Recount(pool);
        return false;
      }
      held := rested.held;
      ok := MoveTo(pool, got.value, work, launches, p, now);
      ghost var q := At(pool);
      assert LeavesBy(rested, Key(), now, leased, got, q);
      if !ok {
        pool.Release(got.value.id);
        held := if accountID == got.value.id then Less(held) else held;
        assert At(pool) == NotStarted(q, got.value.id);
      }
    }

    /** The quota branch: refresh, rest the account, and move to another one. */
    method FailOverQuota(pool: GlobalPool, usage: Option<seq<Group>>, launches: bool, p: nat, now: Time)
      returns (ok: bool)
      requires InStep(Phase()) && Beside(pool) && now > 0 && !window && p !in launched
      modifies this, pool.Repr
      ensures InStep(Phase()) && !window && launched.Keys <= old(launched.Keys) + {p}
      ensures Beside(pool) && pool.Repr == old(pool.Repr)
      ensures ok ==>
        && isAlive && turnStart == now && textBuffer == ""
        && messageID == old(messageID) && conversation == old(conversation)
        && QuotaAllowed(old(At(pool)), old(Doing().spent), now) == Some(Doing().spent)
        && QuotaMoves(old(At(pool)), usage, Key(), now, At(pool))
      ensures ok ==>
        var n := |HealthyIds(old(pool.view), now)|;
        old(turnFailovers) < 3 && (old(turnFailovers) < n || n == 0) && turnFailovers == old(turnFailovers) + 1
      ensures !ok ==>
        || (!launches && QuotaFails(old(At(pool)), usage, Key(), now, At(pool)))
        || QuotaStays(old(At(pool)), old(Doing().spent), usage, Key(), now, At(pool))
    {
      hide GlobalPool.Valid;
      hide InStep;
      hide Leaves;
      hide FailsToLeave;
      hide NoneLeft;
      var healthy := pool.CountHealthy(now);
      var allowed := Allowed(Turn(streamRetries, turnFailovers), QuotaFailover(healthy));
      AllowedIff(Turn(streamRetries, turnFailovers), healthy);
      if allowed.None? || accountID == "" {
        return false;
      }
      var work := Work(messageID, now, allowed.value, "", false);
      var report := Refetch(pool, usage, now);
      var pause := PauseAfter429(report, now);
      assert pool.view.pinned == old(pool.view.pinned);
      var pinned := pool.IsPinned(chat, bot);
      if pinned {
        pool.MarkCooldown(accountID, pause, now);
        Recount(pool);
        ok := false;
      } else {
        ok := LeaveFor(pool, pause, work, launches, p, now);
      }
    }

    /** An error of a dead or idle session without text is dropped. */
    predicate Ignored()
      reads this
    {
      (!isAlive || (messageID == 0 && turnStart == 0)) && textBuffer == ""
    }

    /** The branch for a severed stream; `over` when the turn was given up. */
    method OnStreamCut(pool: GlobalPool, launches: seq<bool>, p: nat, now: Time)
      returns (resumed: bool, over: bool, ghost t: Trace)
      requires InStep(Phase()) && Beside(pool) && now > 0 && !window
      requires |launches| == 3 && forall q :: q in launched ==> q < p
      modifies this, pool.Repr
      ensures InStep(Phase()) && !window && Beside(pool) && pool.Repr == old(pool.Repr)
        && forall q :: q in launched ==> q < p + 2
      ensures !over ==>
        && t.tried != [] && Leads(old(Doing().spent), t.tried, Doing().spent)
        && !t.tried[|t.tried| - 1].QuotaFailover?
        && Doing() == Restarted(old(Doing()), Doing().spent, now, resumed) && conversation == old(conversation)
      ensures over ==> !resumed && Doing() == IDLE && !isAlive
      ensures resumed ==> isAlive
      ensures t.fate == (if resumed then Resumed else if over then GivenUp else Parked)
      ensures StreamHandled(old(At(pool)), Key(), old(Doing().spent), now, t, At(pool))
      ensures !over && t.tried != [Retry] ==> At(pool) == t.moved
      ensures !over && !resumed ==> t.moved == At(pool) && Doing().spent == LeftForQuota(old(Doing().spent), true)
      ensures old(streamRetries) < MAX_STREAM_RETRIES && launches[0] ==> resumed && t.tried == [Retry]
    {
      hide GlobalPool.Valid;
      hide InStep;
      ghost var tried: seq<Attempt> := [];
      resumed, over := false, false;
      var cur := accountID;
      if streamRetries < MAX_STREAM_RETRIES {
        resumed := RetryStream(pool, launches[0], p, now);
        OneAttempt(old(Doing().spent), Retry, Doing().spent);
        tried := [Retry];
        if resumed {
          t := Trace(tried, Resumed, At(pool), At(pool), At(pool));
          return;
        }
      }
      ghost var before, retried := Doing().spent, At(pool);
      var rotated;
      rotated, resumed := FailOverStream(pool, cur, launches[1], p + 1, now);
      if rotated {
        OneMoreAttempt(old(Doing().spent), tried, before, StreamFailover, Doing().spent);
        tried := tried + [StreamFailover];
        t := Trace(tried, if resumed then Resumed else Parked, retried, At(pool), At(pool));
      } else {
        GiveUp(pool);
        over := true;
        t := Trace(tried, GivenUp, retried, At(pool), At(pool));
      }
    }

    /** Main result: the handling of one error result. When the turn goes on it has used up
        budget and keeps its message and conversation, and its text unless there is no
        message or it was moved by the quota branch; otherwise it is over, or the error was
        ignored. Handled says what became of its leases. */
    method OnError(pool: GlobalPool, streamCut: bool, limited: bool, usage: Option<seq<Group>>, launches: seq<bool>,
                   p: nat, now: Time) returns (resumed: bool, ghost t: Trace)
      requires InStep(Phase()) && Beside(pool) && now > 0 && !window
      requires |launches| == 3 && forall q :: q in launched ==> q < p
      modifies this, pool.Repr
      ensures InStep(Phase()) && !window && Beside(pool) && pool.Repr == old(pool.Repr)
      ensures resumed ==>
        && t.tried != [] && Leads(old(Doing().spent), t.tried, Doing().spent)
        && messageID == old(messageID) && conversation == old(conversation) && isAlive
        && if t.tried[|t.tried| - 1].QuotaFailover? then limited && textBuffer == ""
           else streamCut && Doing() == Restarted(old(Doing()), Doing().spent, now, true)
      ensures resumed <==> t.fate.Resumed?
      ensures old(Ignored()) <==> t.fate.Ignored?
      ensures old(Ignored()) ==> Doing() == old(Doing()) && Phase() == old(Phase())
      ensures !old(Ignored()) && !resumed ==> Doing() == IDLE && !isAlive
      ensures !old(Ignored()) && streamCut && old(streamRetries) < MAX_STREAM_RETRIES && launches[0] ==>
        resumed && t.tried == [Retry]
      ensures Handled(old(At(pool)), Key(), old(Doing().spent), streamCut, limited, usage, now, t, At(pool))
    {
      hide GlobalPool.Valid;
      hide InStep;
      hide QuotaMoves;
      hide QuotaFails;
      hide QuotaStays;
      hide StreamHandled;
      hide Handled;
      ghost var first := At(pool);
      t := Trace([], Fate.Ignored, first, first, first);
      if Ignored() {
        EndsIgnored(first, Key(), old(Doing().spent), streamCut, limited, usage, now, t);
        return false, t;
      }
      if streamCut {
        var over;
        resumed, over, t := OnStreamCut(pool, launches, p, now);
        if resumed || over {
          EndsByStream(first, Key(), old(Doing().spent), limited, usage, now, t, At(pool));
          return;
        }
      }
      ghost var mid := At(pool);
      if limited {
        ghost var before, n := Doing().spent, |HealthyIds(pool.view, now)|;
        resumed := FailOverQuota(pool, usage, launches[2], p + 2, now);
        if resumed {
          OneMoreAttempt(old(Doing().spent), t.tried, before, QuotaFailover(n), Doing().spent);
          ghost var t' := t.(tried := t.tried + [QuotaFailover(n)], fate := Resumed);
          ResumedByQuota(first, Key(), old(Doing().spent), streamCut, usage, now, t, t', n, At(pool), mid);
          t := t';
          return;
        }
      }
      resumed := false;
      ghost var t' := t.(fate := Parked, parked := At(pool));
      Kill(pool);
      EndsParked(first, Key(), old(Doing().spent), streamCut, limited, usage, now, t, t', At(pool), mid);
      t := t';
    }
  }
}
