/** The recovery protocol of session.go: process generations, the restart budget of one
    turn, and the account lease that a failover moves. The class in AgySession.dfy is
    proved against these definitions. */
module Sessions {
  import opened Accounts
  import opened Quotas
  import opened Results

  // ---- Process generations ----

  /** What start, Kill and the exit handlers share: `window` is set while a start() is
      between its two critical sections, `launched` gives the generation of every process
      ever started. */
  datatype Control = Control(alive: bool, cmd: Option<nat>, epoch: nat, window: bool, launched: map<nat, nat>) {

    function Begin(): Control {
      if alive then this else this.(epoch := epoch + 1, window := true)
    }

    function Install(p: nat): Control {
      Control(true, Some(p), epoch, false, launched[p := epoch])
    }

    function Fail(): Control {
      this.(alive := false, cmd := None, window := false)
    }

    function Kill(): Control {
      this.(alive := false, cmd := None)
    }

    function Exit(p: nat): Control
      requires p in launched
    {
      if epoch != launched[p] || cmd != Some(p) then this else this.(alive := false, cmd := None)
    }
  }

  datatype Event = Begin | Install(p: nat) | Fail | Kill | Exit(p: nat)

  /** One critical section; startMu keeps a second start() out of the window. */
  predicate Moves(c: Control, e: Event, c': Control) {
    match e
    case Begin => !c.window && c' == c.Begin()
    case Install(p) => c.window && p !in c.launched && c' == c.Install(p)
    case Fail => c.window && c' == c.Fail()
    case Kill => c' == c.Kill()
    case Exit(p) => p in c.launched && c' == c.Exit(p)
  }

  /** The session is alive exactly when a process is installed, and an installed process
      belongs to the current generation, which no other process has. */
  ghost predicate InStep(c: Control) {
    && (c.alive <==> c.cmd.Some?)
    && (c.cmd.Some? ==> c.cmd.value in c.launched && c.launched[c.cmd.value] == c.epoch)
    && (c.window ==> c.cmd.None? && forall p :: p in c.launched ==> c.launched[p] < c.epoch)
    && (forall p :: p in c.launched ==> c.launched[p] <= c.epoch)
    && (forall p, q :: p in c.launched && q in c.launched && c.launched[p] == c.launched[q] ==> p == q)
  }

  ghost predicate History(states: seq<Control>, events: seq<Event>) {
    |states| == |events| + 1 && forall i :: 0 <= i < |events| ==> Moves(states[i], events[i], states[i + 1])
  }

  lemma MovesKeepsInStep(c: Control, e: Event, c': Control)
    requires InStep(c) && Moves(c, e, c')
    ensures InStep(c')
  {
  }

  /** Main result, for every interleaving: the control state is in step throughout. */
  lemma {:induction false} AlwaysInStep(states: seq<Control>, events: seq<Event>, i: nat)
    requires History(states, events) && InStep(states[0]) && i < |states|
    ensures InStep(states[i])
  {
    if i > 0 {
      AlwaysInStep(states, events, i - 1);
      MovesKeepsInStep(states[i - 1], events[i - 1], states[i]);
    }
  }

  /** The exit handler's generation check adds nothing to its check of the process. */
  lemma EpochCheckRedundant(c: Control, p: nat)
    requires InStep(c) && p in c.launched
    ensures c.Exit(p) == if c.cmd == Some(p) then c.Kill() else c
  {
  }

  /** Main result: once a process is no longer installed, killed or superseded, it never is
      again, and its exit handler changes nothing whenever it runs. */
  lemma {:induction false} GoneForGood(states: seq<Control>, events: seq<Event>, i: nat, j: nat, p: nat)
    requires History(states, events) && i <= j < |states|
    requires p in states[i].launched && states[i].cmd != Some(p)
    ensures p in states[j].launched && states[j].cmd != Some(p) && states[j].Exit(p) == states[j]
    decreases j
  {
    if i < j {
      GoneForGood(states, events, i, j - 1, p);
      assert Moves(states[j - 1], events[j - 1], states[j]);
    }
  }

  /** Without a new start(), a dead session outside any start() stays dead. */
  lemma {:induction false} StaysDead(states: seq<Control>, events: seq<Event>, j: nat)
    requires History(states, events) && j < |states|
    requires !states[0].alive && states[0].cmd.None? && !states[0].window
    requires forall k :: 0 <= k < |events| ==> !events[k].Begin?
    ensures !states[j].alive && states[j].cmd.None? && !states[j].window
  {
    if j > 0 {
      StaysDead(states, events, j - 1);
      assert Moves(states[j - 1], events[j - 1], states[j]);
    }
  }

  /** A run from c with no new start() that ends with the session alive. */
  ghost predicate Revival(c: Control, states: seq<Control>, events: seq<Event>) {
    && History(states, events) && states[0] == c && states[|events|].alive
    && forall k :: 0 <= k < |events| ==> !events[k].Begin?
  }

  ghost predicate CanRevive(c: Control) {
    exists states, events :: Revival(c, states, events)
  }

  lemma {:induction false} UnusedAbove(used: set<nat>) returns (p: nat)
    ensures forall k :: k in used ==> k < p
    decreases used
  {
    p := 0;
    if used != {} {
      var k :| k in used;
      var q := UnusedAbove(used - {k});
      p := if q <= k then k + 1 else q;
      assert forall x :: x in used ==> x == k || x in used - {k};
    }
  }

  /** Main result: a Kill ends the session for good, until the next start(), if and only
      if it did not land inside the window of a start() already under way; that start()
      installs its process after the Kill, which never sees it. */
  lemma KillMissesWindow(c: Control)
    requires InStep(c)
    ensures CanRevive(c.Kill()) <==> c.window
  {
    if c.window {
      var p := UnusedAbove(c.launched.Keys);
      assert p !in c.launched;
      assert Revival(c.Kill(), [c.Kill(), c.Kill().Install(p)], [Install(p)]);
    } else {
      forall states, events | Revival(c.Kill(), states, events) ensures false {
        StaysDead(states, events, |events|);
      }
    }
  }

  // ---- The restart budget of a turn ----

  const MAX_STREAM_RETRIES := 2
  const MAX_STREAM_FAILOVERS := 1

  datatype Turn = Turn(retries: int, failovers: int)

  /** The three ways a turn is restarted; a quota failover looks at the healthy count. */
  datatype Attempt = Retry | StreamFailover | QuotaFailover(healthy: nat)

  function QuotaFailovers(healthy: nat): int {
    if 0 < healthy < 3 then healthy else 3
  }

  function Allowed(t: Turn, a: Attempt): Option<Turn> {
    match a
    case Retry => if t.retries < MAX_STREAM_RETRIES then Some(Turn(t.retries + 1, t.failovers)) else None
    case StreamFailover =>
      if t.failovers < MAX_STREAM_FAILOVERS then Some(Turn(MAX_STREAM_RETRIES - 1, t.failovers + 1)) else None
    case QuotaFailover(h) => if t.failovers < QuotaFailovers(h) then Some(Turn(0, t.failovers + 1)) else None
  }

  /** The attempts lead from t to t', each one allowed where it is made. */
  predicate Leads(t: Turn, attempts: seq<Attempt>, t': Turn)
    decreases |attempts|
  {
    if attempts == [] then t' == t
    else Allowed(t, attempts[0]).Some? && Leads(Allowed(t, attempts[0]).value, attempts[1..], t')
  }

  predicate InBudget(t: Turn) {
    0 <= t.retries <= MAX_STREAM_RETRIES && 0 <= t.failovers <= 3
  }

  function Budget(t: Turn): int {
    3 * (3 - t.failovers) + (MAX_STREAM_RETRIES - t.retries)
  }

  lemma {:induction false} LeadsConcat(t: Turn, a: seq<Attempt>, t': Turn, b: seq<Attempt>, t'': Turn)
    requires Leads(t, a, t') && Leads(t', b, t'')
    ensures Leads(t, a + b, t'')
    decreases |a|
  {
    if a == [] {
      assert a + b == b;
    } else {
      LeadsConcat(Allowed(t, a[0]).value, a[1..], t', b, t'');
      assert (a + b)[1..] == a[1..] + b;
    }
  }

  /** Every attempt uses up budget, whatever kinds of errors follow each other. */
  lemma {:induction false} AttemptsUseBudget(t: Turn, attempts: seq<Attempt>, t': Turn)
    requires InBudget(t) && Leads(t, attempts, t')
    ensures InBudget(t') && Budget(t') + |attempts| <= Budget(t)
    decreases |attempts|
  {
    if attempts != [] {
      AttemptsUseBudget(Allowed(t, attempts[0]).value, attempts[1..], t');
    }
  }

  /** When an attempt is allowed, and what it leaves of the budget. */
  lemma AllowedIff(t: Turn, healthy: nat)
    ensures Allowed(t, Retry) == if t.retries < 2 then Some(Turn(t.retries + 1, t.failovers)) else None
    ensures Allowed(t, StreamFailover) == if t.failovers < 1 then Some(Turn(1, t.failovers + 1)) else None
    ensures Allowed(t, QuotaFailover(healthy)).Some? <==> t.failovers < 3 && (t.failovers < healthy || healthy == 0)
    ensures Allowed(t, QuotaFailover(healthy)).Some? ==>
      Allowed(t, QuotaFailover(healthy)).value == Turn(0, t.failovers + 1)
  {
  }

  /** The attempts that move the turn to another account. */
  function Failovers(attempts: seq<Attempt>): nat {
    if attempts == [] then 0
    else Failovers(attempts[..|attempts| - 1]) + if attempts[|attempts| - 1].Retry? then 0 else 1
  }

  lemma {:induction false} LeadsSplit(t: Turn, attempts: seq<Attempt>, k: nat, t': Turn) returns (mid: Turn)
    requires Leads(t, attempts, t') && k <= |attempts|
    ensures Leads(t, attempts[..k], mid) && Leads(mid, attempts[k..], t')
    decreases k
  {
    if k == 0 {
      mid := t;
      assert attempts[0..] == attempts;
    } else {
      mid := LeadsSplit(Allowed(t, attempts[0]).value, attempts[1..], k - 1, t');
      assert attempts[1..][..k - 1] == attempts[..k][1..] && attempts[1..][k - 1..] == attempts[k..];
    }
  }

  lemma LeadsLast(t: Turn, attempts: seq<Attempt>, t': Turn) returns (mid: Turn)
    requires Leads(t, attempts, t') && attempts != []
    ensures var n := |attempts| - 1; Leads(t, attempts[..n], mid) && Allowed(mid, attempts[n]) == Some(t')
  {
    var n := |attempts| - 1;
    mid := LeadsSplit(t, attempts, n, t');
    assert attempts[n..] == [attempts[n]] && attempts[n..][1..] == [];
  }

  lemma {:induction false} FailoversCounted(t: Turn, attempts: seq<Attempt>, t': Turn)
    requires Leads(t, attempts, t')
    ensures t'.failovers == t.failovers + Failovers(attempts)
    decreases |attempts|
  {
    if attempts != [] {
      var mid := LeadsLast(t, attempts, t');
      FailoversCounted(t, attempts[..|attempts| - 1], mid);
      AllowedIff(mid, if attempts[|attempts| - 1].QuotaFailover? then attempts[|attempts| - 1].healthy else 0);
    }
  }

  /** No quota failover sees more than h healthy accounts, or none. */
  predicate AtMostHealthy(attempts: seq<Attempt>, h: nat) {
    forall k :: 0 <= k < |attempts| && attempts[k].QuotaFailover? ==> 0 < attempts[k].healthy <= h
  }

  /** Main result: while at most h accounts are healthy a turn moves at most h times, and no
      failover of either kind is made once h were; it never moves more than three times. */
  lemma FailoversAtMostHealthy(attempts: seq<Attempt>, t: Turn, h: nat)
    requires Leads(Turn(0, 0), attempts, t)
    ensures Failovers(attempts) <= 3
    ensures h > 0 && AtMostHealthy(attempts, h) ==> Failovers(attempts) <= h
    ensures h > 0 && AtMostHealthy(attempts, h) ==>
      forall k :: 0 <= k < |attempts| && !attempts[k].Retry? ==> Failovers(attempts[..k]) < h
  {
    AttemptsUseBudget(Turn(0, 0), attempts, t);
    FailoversCounted(Turn(0, 0), attempts, t);
    if h > 0 && AtMostHealthy(attempts, h) {
      forall k | 0 <= k < |attempts| && !attempts[k].Retry? ensures Failovers(attempts[..k]) < h {
        MoveBelow(attempts, t, h, k);
      }
      MovesAtMost(attempts, h);
    }
  }

  lemma MoveBelow(attempts: seq<Attempt>, t: Turn, h: nat, k: nat)
    requires Leads(Turn(0, 0), attempts, t) && h > 0 && AtMostHealthy(attempts, h)
    requires k < |attempts| && !attempts[k].Retry?
    ensures Failovers(attempts[..k]) < h
  {
    var mid := LeadsSplit(Turn(0, 0), attempts, k, t);
    FailoversCounted(Turn(0, 0), attempts[..k], mid);
    assert attempts[k..][0] == attempts[k];
    AllowedIff(mid, if attempts[k].QuotaFailover? then attempts[k].healthy else 0);
  }

  /** Moves of which each finds fewer than h before it are at most h. */
  lemma {:induction false} MovesAtMost(attempts: seq<Attempt>, h: nat)
    requires forall k :: 0 <= k < |attempts| && !attempts[k].Retry? ==> Failovers(attempts[..k]) < h
    ensures Failovers(attempts) <= h
    decreases |attempts|
  {
    if attempts != [] {
      var init := attempts[..|attempts| - 1];
      assert forall k :: 0 <= k < |init| ==> init[..k] == attempts[..k];
      MovesAtMost(init, h);
    }
  }

  /** Main result: a turn is restarted at most 11 times. */
  lemma AtMostElevenRestarts(attempts: seq<Attempt>, t: Turn)
    requires Leads(Turn(0, 0), attempts, t)
    ensures |attempts| <= 11
  {
    AttemptsUseBudget(Turn(0, 0), attempts, t);
  }

  /** The attempts made over the errors of a turn, one list for each error. */
  function AllAttempts(tried: seq<seq<Attempt>>): seq<Attempt> {
    if tried == [] then [] else AllAttempts(tried[..|tried| - 1]) + tried[|tried| - 1]
  }

  /** The errors of a turn: each finds the budget the one before it left. */
  ghost predicate LeadsOn(spents: seq<Turn>, tried: seq<seq<Attempt>>) {
    && |spents| == |tried| + 1
    && forall i :: 0 <= i < |tried| ==> Leads(spents[i], tried[i], spents[i + 1])
  }

  lemma {:induction false} ErrorsLead(spents: seq<Turn>, tried: seq<seq<Attempt>>)
    requires LeadsOn(spents, tried)
    ensures Leads(spents[0], AllAttempts(tried), spents[|tried|])
    decreases |tried|
  {
    if tried != [] {
      var n := |tried| - 1;
      ErrorsLead(spents[..n + 1], tried[..n]);
      assert Leads(spents[n], tried[n], spents[n + 1]);
      LeadsConcat(spents[0], AllAttempts(tried[..n]), spents[n], tried[n], spents[n + 1]);
    }
  }

  /** Main result, over all the errors of a turn: their attempts together are at most 11. */
  lemma ErrorsRestartAtMostEleven(spents: seq<Turn>, tried: seq<seq<Attempt>>)
    requires LeadsOn(spents, tried) && spents[0] == Turn(0, 0)
    ensures |AllAttempts(tried)| <= 11
  {
    ErrorsLead(spents, tried);
    AtMostElevenRestarts(AllAttempts(tried), spents[|tried|]);
  }

  lemma OneAttempt(t: Turn, a: Attempt, t': Turn)
    requires Allowed(t, a) == Some(t')
    ensures Leads(t, [a], t')
  {
    assert [a][1..] == [];
  }

  lemma OneMoreAttempt(t: Turn, tried: seq<Attempt>, t': Turn, a: Attempt, t'': Turn)
    requires Leads(t, tried, t') && Allowed(t', a) == Some(t'')
    ensures Leads(t, tried + [a], t'')
  {
    OneAttempt(t', a, t'');
    LeadsConcat(t, tried, t', [a], t'');
  }

  lemma TwoRetries(f: int)
    ensures Leads(Turn(0, f), [Retry] + [Retry], Turn(2, f))
  {
    OneAttempt(Turn(0, f), Retry, Turn(1, f));
    OneAttempt(Turn(1, f), Retry, Turn(2, f));
    LeadsConcat(Turn(0, f), [Retry], Turn(1, f), [Retry], Turn(2, f));
  }

  const LAP := [Retry] + [Retry] + [QuotaFailover(3)]

  lemma OneLap(t: Turn, before: seq<Attempt>, f: int)
    requires Leads(t, before, Turn(0, f)) && f < 3
    ensures Leads(t, before + LAP, Turn(0, f + 1))
  {
    TwoRetries(f);
    OneAttempt(Turn(2, f), QuotaFailover(3), Turn(0, f + 1));
    LeadsConcat(Turn(0, f), [Retry] + [Retry], Turn(2, f), [QuotaFailover(3)], Turn(0, f + 1));
    LeadsConcat(t, before, Turn(0, f), LAP, Turn(0, f + 1));
  }

  /** And 11 times can happen: two retries before the first and after each of three quota
      failovers. */
  lemma ElevenRestartsHappen()
    ensures exists attempts, t :: |attempts| == 11 && Leads(Turn(0, 0), attempts, t)
  {
    OneLap(Turn(0, 0), [], 0);
    OneLap(Turn(0, 0), [] + LAP, 1);
    OneLap(Turn(0, 0), [] + LAP + LAP, 2);
    TwoRetries(3);
    LeadsConcat(Turn(0, 0), [] + LAP + LAP + LAP, Turn(0, 3), [Retry] + [Retry], Turn(2, 3));
    assert |[] + LAP + LAP + LAP + ([Retry] + [Retry])| == 11;
  }

  // ---- Leases ----

  /** The account start() finds the session bound to cannot be used. */
  predicate Unusable(p: Pool, id: string, now: Time) {
    id in p.accounts && (Resting(p.accounts[id], now) || p.accounts[id].state.Frozen?)
  }

  /** An account that is left resting is unusable exactly until the rest ends, a minute later when
      no duration is given, and a frozen one at any time. */
  lemma UnusableUntilEnd(p: Pool, id: string, duration: Time, now: Time, later: Time)
    requires id in p.accounts
    ensures Unusable(p.MarkCooldown(id, duration, now), id, later)
       <==> p.accounts[id].state.Frozen? || later < now + if duration > 0 then duration else 60_000_000_000
  {
  }

  /** A session's place in the pool. `held` counts the leases of the account that are its own:
      taken by start() or a failover, not given back since, and still covered by the turns of
      the account. */
  datatype Seat = Seat(pool: Pool, account: string, turnStart: Time, held: nat)

  /** The turns of the seat's account, and how many of them are the leases of others. */
  function Turns(s: Seat): int {
    if s.account in s.pool.accounts then s.pool.accounts[s.account].turns else 0
  }

  function Others(s: Seat): int {
    Turns(s) - s.held
  }

  /** The leases that are left when the account has so many turns. */
  function Covered(held: nat, turns: int): nat {
    if held <= turns then held else if turns > 0 then turns else 0
  }

  /** The seat after the pool was used elsewhere. */
  function Shared(s: Seat, p: Pool): Seat {
    var t := s.(pool := p);
    t.(held := Covered(s.held, Turns(t)))
  }

  function Less(n: nat): nat {
    if n > 0 then n - 1 else 0
  }

  /** One release, whether or not a lease is held. */
  function GaveBack(s: Seat): Seat {
    s.(pool := s.pool.Release(s.account), held := Less(s.held))
  }

  /** Kill gives a lease back only while a turn is running. */
  function Killed(s: Seat): Seat {
    (if s.account != "" && s.turnStart != 0 then GaveBack(s) else s).(turnStart := 0)
  }

  /** finalizeTurn, at the end of a turn that went well, always gives a lease back. */
  function Ended(s: Seat): Seat {
    (if s.account != "" then GaveBack(s) else s).(turnStart := 0)
  }

  /** The account part of start(): a lease is taken only when the session has no account or
      an unusable one. */
  ghost predicate Starts(s: Seat, key: ChatKey, now: Time, s': Seat) {
    && s'.turnStart == s.turnStart
    && if s.account == "" || Unusable(s.pool, s.account, now)
       then exists got :: Acquires(s.pool, key, now, s'.pool, got) && TakesSeat(s, got, s')
       else s' == s
  }

  predicate TakesSeat(s: Seat, got: Result<Profile, PoolError>, s': Seat) {
    if got.Ok? then s'.account == got.value.id && s'.held == 1 else s' == Shared(s, s'.pool)
  }

  /** A session that acquired an account, is killed, and moves there; it has not started yet. */
  function MovedTo(s: Seat, leased: Pool, next: string, now: Time): Seat {
    var k := Killed(s.(pool := leased, held := if s.account == next then s.held + 1 else s.held));
    Seat(k.pool, next, now, if s.account == next then k.held else 1)
  }

  /** A failover, from a seat in a pool where the failing account rests: another one is acquired,
      Kill gives back the old one's lease, and start() follows. */
  ghost predicate Leaves(s: Seat, key: ChatKey, now: Time, s': Seat) {
    exists leased, got :: LeavesBy(s, key, now, leased, got, s')
  }

  ghost predicate LeavesBy(s: Seat, key: ChatKey, now: Time, leased: Pool, got: Result<Profile, PoolError>, s': Seat) {
    Acquires(s.pool, key, now, leased, got) && got.Ok? && Starts(MovedTo(s, leased, got.value.id, now), key, now, s')
  }

  /** Main result: a failover of a chat that is not locked moves exactly one lease. The cur
      account is left resting without turns, so releasing it is a no-op; another account
      has one turn more and is usable, so start() takes no second lease; every other
      account at most ends a finished cooldown. */
  lemma FailoverMovesOneLease(p: Pool, key: ChatKey, cur: string, duration: Time, now: Time, p': Pool,
                              got: Result<Profile, PoolError>)
    requires Inv(p) && cur in p.accounts && Resolve(p.pinned, key).None?
    requires Acquires(p.MarkCooldown(cur, duration, now), key, now, p', got) && got.Ok?
    ensures var next := got.value.id;
      && next != cur && next in p.accounts && next in p'.accounts && p'.accounts[next] == got.value
      && p'.accounts[next].state.InUse? && p'.accounts[next].turns == p.accounts[next].turns + 1
      && !Unusable(p', next, now)
    ensures cur in p'.accounts && p'.accounts[cur].turns == 0
    ensures !p.accounts[cur].state.Frozen? ==>
      p'.accounts[cur].state.Cooldown? && p'.accounts[cur].cooldownUntil == RestEnd(duration, now)
    ensures p'.Release(cur) == p'
    ensures p'.accounts.Keys == p.accounts.Keys
    ensures forall id :: id in p.accounts && id != cur && id != got.value.id ==>
      p'.accounts[id] == Swept(p.accounts[id], now)
  {
    var rested := p.MarkCooldown(cur, duration, now);
    SwapKeepsInv(p, cur, Rested(p.accounts[cur], duration, now));
    MovesFromRested(rested, key, cur, now, p', got);
  }

  /** The same, from the pool in which the old account is resting or frozen. */
  lemma MovesFromRested(p: Pool, key: ChatKey, cur: string, now: Time, p': Pool, got: Result<Profile, PoolError>)
    requires Inv(p) && cur in p.accounts && Resolve(p.pinned, key).None? && p.accounts[cur].turns == 0
    requires p.accounts[cur].state.Frozen? || (p.accounts[cur].state.Cooldown? && p.accounts[cur].cooldownUntil > now)
    requires Acquires(p, key, now, p', got) && got.Ok?
    ensures var next := got.value.id;
      && next != cur && next in p.accounts && next in p'.accounts && p'.accounts[next] == got.value
      && got.value == Leased(Swept(p.accounts[next], now), now)
    ensures p'.accounts.Keys == p.accounts.Keys && p'.accounts[cur] == p.accounts[cur] && p'.Release(cur) == p'
    ensures forall id :: id in p.accounts && id != cur && id != got.value.id ==>
      p'.accounts[id] == Swept(p.accounts[id], now)
  {
    var next := TakenOrNot(p, key, now, p', got);
    NotResting(p, key, cur, now, p', got);
    OneTakes(p, key, next, now, p', got);
    ReleaseOfIdle(p', cur);
  }

  /** A failover from the account the session is bound to, from the error to the restarted
      session; the empty id stands for no account. Nobody else's lease is touched. */
  lemma LeaseMoved(s: Seat, key: ChatKey, duration: Time, now: Time, s': Seat)
    requires Inv(s.pool) && s.account in s.pool.accounts && Resolve(s.pool.pinned, key).None? && "" !in s.pool.accounts
    requires Leaves(Shared(s, s.pool.MarkCooldown(s.account, duration, now)), key, now, s')
    ensures s'.held == 1 && s'.turnStart == now && s'.account != s.account && s'.account in s.pool.accounts
    ensures var p, p' := s.pool, s'.pool;
      && p'.accounts.Keys == p.accounts.Keys
      && p'.accounts[s'.account].state.InUse? && p'.accounts[s'.account].turns == p.accounts[s'.account].turns + 1
      && p'.accounts[s.account].turns == 0
      && (!p.accounts[s.account].state.Frozen? ==> p'.accounts[s.account].state.Cooldown?)
      && forall id :: id in p.accounts && id != s.account && id != s'.account ==>
           p'.accounts[id] == Swept(p.accounts[id], now)
  {
    var rested := Shared(s, s.pool.MarkCooldown(s.account, duration, now));
    var leased, got :| LeavesBy(rested, key, now, leased, got, s');
    FailoverMovesOneLease(s.pool, key, s.account, duration, now, leased, got);
    StartTakesNone(MovedTo(rested, leased, got.value.id, now), key, now, s');
  }

  lemma StartTakesNone(s: Seat, key: ChatKey, now: Time, s': Seat)
    requires s.account != "" && !Unusable(s.pool, s.account, now) && Starts(s, key, now, s')
    ensures s' == s
  {
  }

  lemma NotResting(p: Pool, key: ChatKey, cur: string, now: Time, p': Pool, got: Result<Profile, PoolError>)
    requires Inv(p) && cur in p.accounts && Resolve(p.pinned, key).None?
    requires p.accounts[cur].state.Frozen? || (p.accounts[cur].state.Cooldown? && p.accounts[cur].cooldownUntil > now)
    requires Acquires(p, key, now, p', got) && got.Ok?
    ensures got.value.id != cur
  {
    if p.accounts[cur].state.Frozen? {
      AcquireSparesFrozen(p, key, now, p', got, cur);
    } else {
      var q := p.Reap(now);
      assert q.accounts[cur] == p.accounts[cur] && PinnedTo(q, key).None?;
      SweepKeepsInv(p, now);
      NotWhileCooling(q, key, now, cur, p', got);
    }
  }

  lemma OneTakes(p: Pool, key: ChatKey, next: string, now: Time, p': Pool, got: Result<Profile, PoolError>)
    requires Inv(p) && Takes(p.Reap(now), key, next, now, p', got) && next in p.accounts
    ensures got.value.id == next && p'.accounts.Keys == p.accounts.Keys
    ensures p'.accounts[next] == got.value == Leased(Swept(p.accounts[next], now), now)
    ensures forall id :: id in p.accounts && id != next ==> p'.accounts[id] == Swept(p.accounts[id], now)
  {
    SweptSound(next, p.accounts[next], now);
  }

  lemma ReleaseOfIdle(p: Pool, id: string)
    requires id in p.accounts && p.accounts[id].turns == 0 && !p.accounts[id].state.InUse?
    ensures p.Release(id) == p
  {
    assert p.accounts[id := p.accounts[id]] == p.accounts;
  }

  // ---- The session's fields ----

  /** What a turn in progress keeps. */
  datatype Work = Work(messageID: int, turnStart: Time, spent: Turn, text: string, truncated: bool)

  const IDLE := Work(0, 0, Turn(0, 0), "", false)

  datatype Binding = Binding(conversation: string, useContinue: bool, account: string, home: string)

  /** What leaving the stdout reader does: without a message the text is dropped. */
  function AfterRead(w: Work): Work {
    if w.messageID == 0 then w.(text := "") else w
  }

  /** A turn restarted after a severed stream, with the budget and the clock it is given: the
      reader leaves if and only if the restart succeeds. */
  function Restarted(w: Work, spent: Turn, now: Time, ok: bool): Work {
    var again := Work(w.messageID, now, spent, w.text, w.truncated);
    if ok then AfterRead(again) else again
  }

  /** Main result: a turn that goes on after a severed stream keeps its text if and only if
      it has a message or there was no text. */
  lemma TextSurvivesIff(w: Work, spent: Turn, now: Time)
    ensures Restarted(w, spent, now, true).text == w.text <==> w.messageID != 0 || w.text == ""
    ensures Restarted(w, spent, now, false).text == w.text
    ensures forall ok :: Restarted(w, spent, now, ok).messageID == w.messageID
  {
  }

  /** Text streamed before the first message could be sent is lost by the first retry. */
  lemma TextIsLost(now: Time)
    ensures Restarted(Work(0, now, Turn(0, 0), "abc", false), Turn(1, 0), now, true).text == ""
  {
  }

  // ---- The quota branch ----

  /** The usage of the account, when it is registered and could be read. */
  function Report(p: Pool, id: string, usage: Option<seq<Group>>, now: Time): Option<Quota> {
    if usage.Some? && id in p.accounts then Some(Usage(usage.value, now)) else None
  }

  function Refetched(p: Pool, id: string, usage: Option<seq<Group>>, now: Time): Pool {
    if Report(p, id, usage, now).Some? then p.Refresh(id, Usage(usage.value, now), now) else p
  }

  lemma RefetchKeepsInv(p: Pool, id: string, usage: Option<seq<Group>>, now: Time)
    requires Inv(p) && now > 0
    ensures Inv(Refetched(p, id, usage, now)) && Refetched(p, id, usage, now).pinned == p.pinned
  {
    if Report(p, id, usage, now).Some? {
      StepKeepsInv(p, Op.Refresh(id, Usage(usage.value, now), now), Refetched(p, id, usage, now));
    }
  }

  // ---- What one error does to the leases ----

  /** A stream retry: Kill, then start() on the same account. */
  ghost predicate Retries(s: Seat, key: ChatKey, now: Time, s': Seat) {
    Starts(Killed(s).(turnStart := now), key, now, s')
  }

  /** A stream failover; `cur` is the account the error was reported on. */
  ghost predicate StreamMoves(s: Seat, cur: string, key: ChatKey, now: Time, s': Seat) {
    Leaves(Shared(s, s.pool.MarkCooldown(cur, MINUTE, now)), key, now, s')
  }

  predicate MayFailOver(s: Seat, cur: string, failovers: int, key: ChatKey) {
    failovers < MAX_STREAM_FAILOVERS && cur != "" && Resolve(s.pool.pinned, key).None?
  }

  /** No stream failover: it is not allowed, or no account can be had. */
  ghost predicate StreamStays(s: Seat, cur: string, failovers: int, key: ChatKey, now: Time, s': Seat) {
    if !MayFailOver(s, cur, failovers, key) then s' == s
    else s' == Shared(s, s'.pool) && NoneLeft(s.pool.MarkCooldown(cur, MINUTE, now), key, now, s'.pool)
  }

  /** The pool in which the quota branch looks for another account. */
  function QuotaRested(s: Seat, usage: Option<seq<Group>>, now: Time): Pool {
    Refetched(s.pool, s.account, usage, now)
      .MarkCooldown(s.account, PauseAfter429(Report(s.pool, s.account, usage, now), now), now)
  }

  function QuotaAllowed(s: Seat, spent: Turn, now: Time): Option<Turn> {
    if s.account == "" then None else Allowed(spent, QuotaFailover(|HealthyIds(s.pool, now)|))
  }

  ghost predicate NoneLeft(rested: Pool, key: ChatKey, now: Time, p': Pool) {
    exists got :: Acquires(rested, key, now, p', got) && got.Err?
  }

  /** A session that could not be started gives the lease of the acquired account back. */
  function NotStarted(s: Seat, next: string): Seat {
    s.(pool := s.pool.Release(next), held := if s.account == next then Less(s.held) else s.held)
  }

  /** A quota failover that starts on another account. */
  ghost predicate QuotaMoves(s: Seat, usage: Option<seq<Group>>, key: ChatKey, now: Time, s': Seat) {
    Leaves(Shared(s, QuotaRested(s, usage, now)), key, now, s')
  }

  /** A quota failover that acquires another account but cannot start on it. */
  ghost predicate QuotaFails(s: Seat, usage: Option<seq<Group>>, key: ChatKey, now: Time, s': Seat) {
    FailsToLeave(Shared(s, QuotaRested(s, usage, now)), key, now, s')
  }

  ghost predicate FailsToLeave(s: Seat, key: ChatKey, now: Time, s': Seat) {
    exists leased, got, q :: LeavesBy(s, key, now, leased, got, q) && s' == NotStarted(q, got.value.id)
  }

  ghost predicate QuotaStays(s: Seat, spent: Turn, usage: Option<seq<Group>>, key: ChatKey, now: Time, s': Seat) {
    if QuotaAllowed(s, spent, now).None? then s' == s
    else if Resolve(s.pool.pinned, key).Some? then s' == Shared(s, QuotaRested(s, usage, now))
    else s' == Shared(s, s'.pool) && NoneLeft(QuotaRested(s, usage, now), key, now, s'.pool)
  }

  function Releases(p: Pool, id: string, n: nat): Pool {
    if n == 0 then p else Releases(p, id, n - 1).Release(id)
  }

  /** Fit for start(): the account is there and neither resting nor frozen. */
  predicate Working(p: Pool, id: string) {
    id in p.accounts && (p.accounts[id].state.Active? || p.accounts[id].state.InUse?)
  }

  lemma {:induction false} ReleasesTurns(p: Pool, id: string, n: nat)
    requires Working(p, id) && p.accounts[id].turns >= 0
    ensures Working(Releases(p, id, n), id)
    ensures Releases(p, id, n).accounts[id].turns == if n <= p.accounts[id].turns then p.accounts[id].turns - n else 0
  {
    if n > 0 {
      ReleasesTurns(p, id, n - 1);
    }
  }

  /** A turn on a working account. */
  predicate Holds(s: Seat) {
    s.account != "" && Working(s.pool, s.account) && Turns(s) >= 0
  }

  /** Main result, for one release: it takes a lease of another chat if and only if the session
      holds none itself and the account has a turn to lose. */
  lemma ReleaseTakesIff(s: Seat)
    requires Turns(s) >= 0
    ensures Others(GaveBack(s)) < Others(s) <==> s.held == 0 && Turns(s) > 0
    ensures s.held <= Turns(s) ==> Others(GaveBack(s)) == Others(s) - if s.held == 0 && Turns(s) > 0 then 1 else 0
    ensures Turns(GaveBack(s)) >= 0
    ensures s.held <= Turns(s) ==> GaveBack(s).held <= Turns(GaveBack(s))
  {
  }

  /** A start() that takes an account holds one lease of it, and leaves the others theirs. */
  lemma StartHoldsOne(s: Seat, key: ChatKey, now: Time, s': Seat)
    requires Inv(s.pool) && (s.account == "" || Unusable(s.pool, s.account, now)) && Starts(s, key, now, s')
    requires s'.account != s.account
    ensures s'.held == 1 && s'.account in s.pool.accounts && s'.account in s'.pool.accounts
    ensures Others(s') == s.pool.accounts[s'.account].turns >= 0
  {
    var got :| Acquires(s.pool, key, now, s'.pool, got) && TakesSeat(s, got, s');
    var id := TakenOrNot(s.pool, key, now, s'.pool, got);
    SweptSound(id, s.pool.accounts[id], now);
  }

  /** A retry on a working account takes no lease back. */
  lemma RetryDropsLease(s: Seat, key: ChatKey, now: Time, s': Seat)
    requires s.account != "" && Working(s.pool, s.account) && Retries(s, key, now, s')
    ensures s' == Killed(s).(turnStart := now)
  {
  }

  /** One retry after the other, whether or not its start succeeds. */
  ghost predicate RetryRun(seats: seq<Seat>, key: ChatKey, times: seq<Time>) {
    && |seats| == |times| + 1
    && forall i :: 0 <= i < |times| ==> times[i] > 0 && Retries(seats[i], key, times[i], seats[i + 1])
  }

  /** Leases given back by k retries: the first gives none back when no turn was running. */
  function GivenBack(turnStart: Time, k: nat): nat {
    if turnStart == 0 && k > 0 then k - 1 else k
  }

  /** The seat after n releases. */
  function AfterReleases(s: Seat, n: nat, turnStart: Time): Seat {
    Seat(Releases(s.pool, s.account, n), s.account, turnStart, if n <= s.held then s.held - n else 0)
  }

  /** n releases in a row take leases of other chats if and only if there are more of them than
      the session holds, and the account has more turns than that. */
  lemma ReleasesTake(s: Seat, n: nat, turnStart: Time)
    requires Holds(s) && s.held <= Turns(s)
    ensures var s' := AfterReleases(s, n, turnStart);
      && Working(s'.pool, s'.account) && Turns(s') == (if n <= Turns(s) then Turns(s) - n else 0)
      && (Others(s') < Others(s) <==> n > s.held && Turns(s) > s.held)
      && Others(s') == Others(s) - Taken(n, s.held, Turns(s))
  {
    ReleasesTurns(s.pool, s.account, n);
  }

  /** The leases of other chats that n releases take. */
  function Taken(n: nat, held: nat, turns: int): int {
    if n <= held then 0 else if n <= turns then n - held else turns - held
  }

  /** One more retry after k - 1 of them. */
  lemma OneMoreRetry(first: Seat, k: nat, s: Seat, key: ChatKey, now: Time, s': Seat)
    requires Holds(first) && k > 0 && Retries(s, key, now, s')
    requires s == AfterReleases(first, GivenBack(first.turnStart, k - 1), s.turnStart)
    requires if k == 1 then s.turnStart == first.turnStart else s.turnStart != 0
    ensures s' == AfterReleases(first, GivenBack(first.turnStart, k), now)
  {
    ReleasesTurns(first.pool, first.account, GivenBack(first.turnStart, k - 1));
    RetryDropsLease(s, key, now, s');
  }

  /** Main result: k retries of one turn give back k leases of its account, and take none. */
  lemma {:induction false} RetriesGiveBack(seats: seq<Seat>, key: ChatKey, times: seq<Time>, k: nat)
    requires RetryRun(seats, key, times) && k < |seats| && Holds(seats[0])
    ensures seats[k] == AfterReleases(seats[0], GivenBack(seats[0].turnStart, k), seats[k].turnStart)
    ensures k > 0 ==> seats[k].turnStart == times[k - 1]
  {
    if k > 0 {
      RetriesGiveBack(seats, key, times, k - 1);
      assert k > 1 ==> times[k - 2] > 0;
      OneMoreRetry(seats[0], k, seats[k - 1], key, times[k - 1], seats[k]);
    }
  }

  /** When another account was tried and none could be had, the account rests without turns. */
  lemma FailedTryRests(s: Seat, cur: string, failovers: int, key: ChatKey, now: Time, last: Seat)
    requires Inv(s.pool) && cur in s.pool.accounts && now > 0
    requires MayFailOver(s, cur, failovers, key) && StreamStays(s, cur, failovers, key, now, last)
    ensures cur in last.pool.accounts && last.pool.accounts[cur].turns == 0
    ensures !s.pool.accounts[cur].state.Frozen? ==> Resting(last.pool.accounts[cur], now)
  {
    var rested := s.pool.MarkCooldown(cur, MINUTE, now);
    SwapKeepsInv(s.pool, cur, Rested(s.pool.accounts[cur], MINUTE, now));
    var got :| Acquires(rested, key, now, last.pool, got) && got.Err?;
    var _ := TakenOrNot(rested, key, now, last.pool, got);
  }

  lemma QuotaRestedKeeps(s: Seat, usage: Option<seq<Group>>, now: Time)
    requires Inv(s.pool) && s.account in s.pool.accounts && now > 0
    ensures Inv(QuotaRested(s, usage, now)) && QuotaRested(s, usage, now).pinned == s.pool.pinned
    ensures QuotaRested(s, usage, now).accounts.Keys == s.pool.accounts.Keys
    ensures forall id :: id in s.pool.accounts && id != s.account ==>
      QuotaRested(s, usage, now).accounts[id] == s.pool.accounts[id]
    ensures var a := QuotaRested(s, usage, now).accounts[s.account];
      a.turns == 0 && (a.state.Frozen? || (a.state.Cooldown? && a.cooldownUntil > now))
  {
    var fetched := Refetched(s.pool, s.account, usage, now);
    var pause := PauseAfter429(Report(s.pool, s.account, usage, now), now);
    RefetchKeepsInv(s.pool, s.account, usage, now);
    SwapKeepsInv(fetched, s.account, Rested(fetched.accounts[s.account], pause, now));
  }

  /** Main result: when a quota failover moves but its start fails, the new account ends, once
      the session is parked, with one turn fewer than it had before the error, if it had any:
      one lease was taken and two were given back, so a turn of another chat lost its own. */
  lemma FailedRotationReleasesTwice(s: Seat, usage: Option<seq<Group>>, key: ChatKey, now: Time, parked: Seat)
    requires Inv(s.pool) && s.account in s.pool.accounts && "" !in s.pool.accounts && now > 0
    requires Resolve(s.pool.pinned, key).None? && QuotaFails(s, usage, key, now, parked)
    ensures var next, end := parked.account, Killed(parked);
      && next != s.account && next in s.pool.accounts && next in end.pool.accounts
      && parked.held == 0 && parked.turnStart == now
      && Turns(end) == if s.pool.accounts[next].turns == 0 then 0 else s.pool.accounts[next].turns - 1
  {
    var rested := Shared(s, QuotaRested(s, usage, now));
    var leased, got, q :|
      LeavesBy(rested, key, now, leased, got, q) && parked == NotStarted(q, got.value.id);
    NextLease(s, usage, key, now, leased, got);
    LeasedOnce(rested.pool, got.value.id, now, leased);
    StartTakesNone(MovedTo(rested, leased, got.value.id, now), key, now, q);
  }

  /** The account a quota failover moves to. */
  lemma NextLease(s: Seat, usage: Option<seq<Group>>, key: ChatKey, now: Time, leased: Pool,
                  got: Result<Profile, PoolError>)
    requires Inv(s.pool) && s.account in s.pool.accounts && now > 0 && Resolve(s.pool.pinned, key).None?
    requires Acquires(QuotaRested(s, usage, now), key, now, leased, got) && got.Ok?
    ensures var rested, next := QuotaRested(s, usage, now), got.value.id;
      && Inv(rested) && next != s.account
      && next in s.pool.accounts && next in leased.accounts && next in rested.accounts
      && rested.accounts[next] == s.pool.accounts[next]
      && leased.accounts[next] == Leased(Swept(rested.accounts[next], now), now)
    ensures MovedTo(Shared(s, QuotaRested(s, usage, now)), leased, got.value.id, now)
            == Seat(leased, got.value.id, now, 1)
  {
    QuotaRestedKeeps(s, usage, now);
    MovesFromRested(QuotaRested(s, usage, now), key, s.account, now, leased, got);
  }

  lemma LeasedOnce(rested: Pool, next: string, now: Time, leased: Pool)
    requires Inv(rested) && next in rested.accounts && next in leased.accounts
    requires leased.accounts[next] == Leased(Swept(rested.accounts[next], now), now)
    ensures !Unusable(leased, next, now)
    ensures leased.Release(next).Release(next).accounts[next].turns
            == if rested.accounts[next].turns == 0 then 0 else rested.accounts[next].turns - 1
  {
    SweptSound(next, rested.accounts[next], now);
  }

  /** A stream failover whose start fails gives its lease back exactly once: the new account
      ends with the turns it had. */
  lemma FailedStreamFailoverBalances(s: Seat, key: ChatKey, now: Time, parked: Seat)
    requires Inv(s.pool) && s.account in s.pool.accounts && "" !in s.pool.accounts && now > 0
    requires Resolve(s.pool.pinned, key).None? && StreamMoves(s, s.account, key, now, parked)
    ensures var next, end := parked.account, Killed(parked);
      next in s.pool.accounts && next in end.pool.accounts && end.held == 0 && Turns(end) == s.pool.accounts[next].turns
  {
    LeaseMoved(s, key, MINUTE, now, parked);
  }

  // ---- One error result ----

  /** How one error result ends. */
  datatype Fate = Ignored | Resumed | GivenUp | Parked

  /** What was tried, how it ended, and the seats on the way: after the retry, after the
      stream branch, and before the last Kill. */
  datatype Trace = Trace(tried: seq<Attempt>, fate: Fate, retried: Seat, moved: Seat, parked: Seat)

  /** The stream branch. */
  ghost predicate StreamHandled(s: Seat, key: ChatKey, spent: Turn, now: Time, t: Trace, s': Seat) {
    && (if spent.retries < MAX_STREAM_RETRIES then Retries(s, key, now, t.retried) else t.retried == s)
    && (t.tried == [Retry] && t.fate.Resumed? ==> s' == t.retried)
    && (t.fate.GivenUp? ==>
          StreamStays(t.retried, s.account, spent.failovers, key, now, s'.(turnStart := t.retried.turnStart)))
    && (!t.fate.GivenUp? && !(t.tried == [Retry] && t.fate.Resumed?) ==>
          StreamMoves(t.retried, s.account, key, now, t.moved))
  }

  /** The budget the quota branch finds: a severed stream that gets there used a failover. */
  function LeftForQuota(spent: Turn, streamCut: bool): Turn {
    if streamCut then Turn(MAX_STREAM_RETRIES - 1, spent.failovers + 1) else spent
  }

  /** What one error result does to the pool and the session's place in it. */
  ghost predicate Handled(s: Seat, key: ChatKey, spent: Turn, streamCut: bool, limited: bool, usage: Option<seq<Group>>,
                          now: Time, t: Trace, s': Seat) {
    match t.fate
    case Ignored => s' == s
    case GivenUp => streamCut && StreamHandled(s, key, spent, now, t, s')
    case Resumed =>
      && t.tried != []
      && (if streamCut then StreamHandled(s, key, spent, now, t, s') else t.moved == s)
      && (if t.tried[|t.tried| - 1].QuotaFailover? then limited && QuotaMoves(t.moved, usage, key, now, s')
          else streamCut && (t.tried != [Retry] ==> s' == t.moved))
    case Parked =>
      && (if streamCut then StreamHandled(s, key, spent, now, t, s') else t.moved == s)
      && (if limited then QuotaFails(t.moved, usage, key, now, t.parked)
                          || QuotaStays(t.moved, LeftForQuota(spent, streamCut), usage, key, now, t.parked)
          else t.parked == t.moved)
      && s' == Killed(t.parked)
  }

  lemma EndsIgnored(s: Seat, key: ChatKey, spent: Turn, streamCut: bool, limited: bool, usage: Option<seq<Group>>,
                    now: Time, t: Trace)
    requires t.fate.Ignored?
    ensures Handled(s, key, spent, streamCut, limited, usage, now, t, s)
  {
  }

  lemma EndsByStream(s: Seat, key: ChatKey, spent: Turn, limited: bool, usage: Option<seq<Group>>, now: Time,
                     t: Trace, s': Seat)
    requires StreamHandled(s, key, spent, now, t, s') && (t.fate.GivenUp? || t.fate.Resumed?)
    requires t.fate.Resumed? ==>
      t.tried != [] && !t.tried[|t.tried| - 1].QuotaFailover? && (t.tried != [Retry] ==> s' == t.moved)
    ensures Handled(s, key, spent, true, limited, usage, now, t, s')
  {
  }

  lemma ResumedByQuota(s: Seat, key: ChatKey, spent: Turn, streamCut: bool, usage: Option<seq<Group>>, now: Time,
                       before: Trace, t: Trace, n: nat, s': Seat, mid: Seat)
    requires t == before.(tried := before.tried + [QuotaFailover(n)], fate := Resumed)
    requires QuotaMoves(before.moved, usage, key, now, s')
    requires if streamCut then before.fate.Parked? && StreamHandled(s, key, spent, now, before, mid)
             else before.moved == s
    ensures Handled(s, key, spent, streamCut, true, usage, now, t, s')
  {
    assert t.tried[|t.tried| - 1] == QuotaFailover(n);
  }

  lemma EndsParked(s: Seat, key: ChatKey, spent: Turn, streamCut: bool, limited: bool, usage: Option<seq<Group>>,
                   now: Time, before: Trace, t: Trace, s': Seat, mid: Seat)
    requires t == before.(fate := Parked, parked := t.parked)
    requires if streamCut then before.fate.Parked? && StreamHandled(s, key, spent, now, before, mid)
             else before.moved == s
    requires if limited then QuotaFails(before.moved, usage, key, now, t.parked)
                             || QuotaStays(before.moved, LeftForQuota(spent, streamCut), usage, key, now, t.parked)
             else t.parked == before.moved
    requires s' == Killed(t.parked)
    ensures Handled(s, key, spent, streamCut, limited, usage, now, t, s')
  {
  }

  // ---- What every error keeps ----

  /** The pool is sound, and its turns cover the leases the session counts as its own. */
  ghost predicate Backed(s: Seat) {
    Inv(s.pool) && s.held <= Turns(s)
  }

  lemma SharedBacked(s: Seat, p: Pool)
    requires Inv(p)
    ensures Backed(Shared(s, p))
  {
  }

  lemma ReleaseKeepsInv(p: Pool, id: string)
    requires Inv(p)
    ensures Inv(p.Release(id))
  {
    StepKeepsInv(p, Release(id), p.Release(id));
  }

  lemma RestKeepsInv(p: Pool, id: string, duration: Time, now: Time)
    requires Inv(p)
    ensures Inv(p.MarkCooldown(id, duration, now))
  {
    StepKeepsInv(p, MarkCooldown(id, duration, now), p.MarkCooldown(id, duration, now));
  }

  lemma KilledBacked(s: Seat)
    requires Backed(s)
    ensures Backed(Killed(s))
  {
    ReleaseKeepsInv(s.pool, s.account);
    hide Inv;
    assert s.account in s.pool.accounts || s.held == 0;
  }

  /** An acquisition adds one turn to the account it hands out, and leaves every other count. */
  lemma TurnsAfterAcquire(p: Pool, key: ChatKey, now: Time, p': Pool, got: Result<Profile, PoolError>)
    requires Inv(p) && Acquires(p, key, now, p', got) && now > 0
    ensures Inv(p') && p'.accounts.Keys == p.accounts.Keys
    ensures got.Ok? ==> got.value.id in p.accounts
    ensures forall id :: id in p.accounts ==>
      p'.accounts[id].turns == p.accounts[id].turns + if got.Ok? && id == got.value.id then 1 else 0
  {
    StepKeepsInv(p, Op.Acquire(key, now, got), p');
    var id := TakenOrNot(p, key, now, p', got);
    if got.Ok? {
      OneTakes(p, key, id, now, p', got);
    }
  }

  lemma StartsBacked(s: Seat, key: ChatKey, now: Time, s': Seat)
    requires Backed(s) && Starts(s, key, now, s') && now > 0
    ensures Backed(s')
  {
    if s.account == "" || Unusable(s.pool, s.account, now) {
      var got :| Acquires(s.pool, key, now, s'.pool, got) && TakesSeat(s, got, s');
      TurnsAfterAcquire(s.pool, key, now, s'.pool, got);
      SharedBacked(s, s'.pool);
      assert forall id :: id in s.pool.accounts ==> s.pool.accounts[id].turns >= 0;
    }
  }

  lemma MovedBacked(s: Seat, key: ChatKey, now: Time, leased: Pool, got: Result<Profile, PoolError>)
    requires Backed(s) && Acquires(s.pool, key, now, leased, got) && got.Ok? && now > 0
    ensures Backed(MovedTo(s, leased, got.value.id, now))
  {
    TurnsAfterAcquire(s.pool, key, now, leased, got);
    var next := got.value.id;
    assert s.pool.accounts[next].turns >= 0;
    assert s.account in s.pool.accounts || s.held == 0;
    hide Acquires;
    hide Inv;
    MovedCovers(s, leased, next, now);
  }

  lemma MovedCovers(s: Seat, leased: Pool, next: string, now: Time)
    requires Inv(leased) && next in leased.accounts && leased.accounts[next].turns >= 1
    requires s.held + (if s.account == next then 1 else 0) <= Turns(s.(pool := leased))
    ensures Backed(MovedTo(s, leased, next, now))
  {
    var t := s.(pool := leased, held := if s.account == next then s.held + 1 else s.held);
    KilledBacked(t);
    hide Inv;
  }

  lemma LeavesBacked(s: Seat, key: ChatKey, now: Time, s': Seat)
    requires Backed(s) && Leaves(s, key, now, s') && now > 0
    ensures Backed(s')
  {
    var leased, got :| LeavesBy(s, key, now, leased, got, s');
    MovedBacked(s, key, now, leased, got);
    StartsBacked(MovedTo(s, leased, got.value.id, now), key, now, s');
  }

  lemma FailsBacked(s: Seat, key: ChatKey, now: Time, s': Seat)
    requires Backed(s) && FailsToLeave(s, key, now, s') && now > 0
    ensures Backed(s')
  {
    var leased, got, q :| LeavesBy(s, key, now, leased, got, q) && s' == NotStarted(q, got.value.id);
    LeavesBacked(s, key, now, q);
    NotStartedBacked(q, got.value.id);
  }

  lemma NotStartedBacked(s: Seat, next: string)
    requires Backed(s)
    ensures Backed(NotStarted(s, next))
  {
    ReleaseKeepsInv(s.pool, next);
    hide Inv;
    assert s.account in s.pool.accounts || s.held == 0;
  }

  lemma NoneLeftSound(rested: Pool, key: ChatKey, now: Time, p': Pool)
    requires Inv(rested) && NoneLeft(rested, key, now, p') && now > 0
    ensures Inv(p')
  {
    var got :| Acquires(rested, key, now, p', got) && got.Err?;
    TurnsAfterAcquire(rested, key, now, p', got);
  }

  lemma QuotaRestedSound(s: Seat, usage: Option<seq<Group>>, now: Time)
    requires Inv(s.pool) && now > 0
    ensures Backed(Shared(s, QuotaRested(s, usage, now)))
  {
    var fetched := Refetched(s.pool, s.account, usage, now);
    RefetchKeepsInv(s.pool, s.account, usage, now);
    RestKeepsInv(fetched, s.account, PauseAfter429(Report(s.pool, s.account, usage, now), now), now);
    SharedBacked(s, QuotaRested(s, usage, now));
  }

  lemma QuotaBacked(s: Seat, spent: Turn, usage: Option<seq<Group>>, key: ChatKey, now: Time, s': Seat)
    requires Backed(s) && now > 0
    requires QuotaMoves(s, usage, key, now, s') || QuotaFails(s, usage, key, now, s')
             || QuotaStays(s, spent, usage, key, now, s')
    ensures Backed(s')
  {
    QuotaRestedSound(s, usage, now);
    hide Backed;
    var rested := Shared(s, QuotaRested(s, usage, now));
    if QuotaMoves(s, usage, key, now, s') {
      LeavesBacked(rested, key, now, s');
    } else if QuotaFails(s, usage, key, now, s') {
      FailsBacked(rested, key, now, s');
    } else {
      QuotaStaysBacked(s, spent, usage, key, now, s');
    }
  }

  lemma QuotaStaysBacked(s: Seat, spent: Turn, usage: Option<seq<Group>>, key: ChatKey, now: Time, s': Seat)
    requires Backed(s) && now > 0 && QuotaStays(s, spent, usage, key, now, s')
    ensures Backed(s')
  {
    QuotaRestedSound(s, usage, now);
    if QuotaAllowed(s, spent, now).Some? && Resolve(s.pool.pinned, key).None? {
      NoneLeftSound(QuotaRested(s, usage, now), key, now, s'.pool);
      SharedBacked(s, s'.pool);
    }
  }

  lemma RetriesBacked(s: Seat, key: ChatKey, now: Time, s': Seat)
    requires Backed(s) && Retries(s, key, now, s') && now > 0
    ensures Backed(s')
  {
    KilledBacked(s);
    StartsBacked(Killed(s).(turnStart := now), key, now, s');
  }

  lemma StreamBacked(s: Seat, cur: string, failovers: int, key: ChatKey, now: Time, s': Seat)
    requires Backed(s) && now > 0
    requires StreamMoves(s, cur, key, now, s') || StreamStays(s, cur, failovers, key, now, s')
    ensures Backed(s')
  {
    var rested := s.pool.MarkCooldown(cur, MINUTE, now);
    RestKeepsInv(s.pool, cur, MINUTE, now);
    SharedBacked(s, rested);
    if StreamMoves(s, cur, key, now, s') {
      LeavesBacked(Shared(s, rested), key, now, s');
    } else if MayFailOver(s, cur, failovers, key) {
      NoneLeftSound(rested, key, now, s'.pool);
      SharedBacked(s, s'.pool);
    }
  }

  /** The seats on the way through the stream branch. */
  lemma StreamHandledBacked(s: Seat, key: ChatKey, spent: Turn, now: Time, t: Trace, s': Seat)
    requires Backed(s) && now > 0 && StreamHandled(s, key, spent, now, t, s')
    ensures t.fate.GivenUp? || (t.tried == [Retry] && t.fate.Resumed?) ==> Backed(s')
    ensures !t.fate.GivenUp? && !(t.tried == [Retry] && t.fate.Resumed?) ==> Backed(t.moved)
  {
    if spent.retries < MAX_STREAM_RETRIES {
      RetriesBacked(s, key, now, t.retried);
    }
    if t.fate.GivenUp? {
      StreamBacked(t.retried, s.account, spent.failovers, key, now, s'.(turnStart := t.retried.turnStart));
    } else if t.tried != [Retry] || !t.fate.Resumed? {
      StreamBacked(t.retried, s.account, spent.failovers, key, now, t.moved);
    }
  }

  /** Main result: whatever one error result leads to, the pool stays sound, and a session never
      counts more leases as its own than its account has turns. */
  lemma HandledBacked(s: Seat, key: ChatKey, spent: Turn, streamCut: bool, limited: bool, usage: Option<seq<Group>>,
                      now: Time, t: Trace, s': Seat)
    requires Backed(s) && now > 0 && Handled(s, key, spent, streamCut, limited, usage, now, t, s')
    ensures Backed(s')
  {
    hide Backed;
    hide StreamHandled;
    hide QuotaMoves;
    hide QuotaFails;
    hide QuotaStays;
    if t.fate.Ignored? {
    } else if t.fate.GivenUp? {
      StreamHandledBacked(s, key, spent, now, t, s');
    } else {
      if streamCut { StreamHandledBacked(s, key, spent, now, t, s'); }
      var left := LeftForQuota(spent, streamCut);
      if t.fate.Parked? {
        if limited { QuotaBacked(t.moved, left, usage, key, now, t.parked); }
        KilledBacked(t.parked);
      } else if t.tried[|t.tried| - 1].QuotaFailover? {
        QuotaBacked(t.moved, left, usage, key, now, s');
      }
    }
  }

  /** One severed stream: what OnError was given and what it did. */
  datatype Cut = Cut(spent: Turn, limited: bool, usage: Option<seq<Group>>, now: Time, trace: Trace)

  ghost predicate CutHandled(s: Seat, key: ChatKey, cut: Cut, s': Seat) {
    cut.now > 0 && Handled(s, key, cut.spent, true, cut.limited, cut.usage, cut.now, cut.trace, s')
  }

  /** The stream was resumed by a retry. */
  predicate Retried(cut: Cut) {
    cut.trace.fate.Resumed? && cut.trace.tried == [Retry] && cut.spent.retries < MAX_STREAM_RETRIES
  }

  /** A turn: severed streams that were resumed by retries, then one that was given up. */
  ghost predicate GivenUpTurn(seats: seq<Seat>, key: ChatKey, cuts: seq<Cut>) {
    && |seats| == |cuts| + 1 && cuts != []
    && (forall i :: 0 <= i < |cuts| ==> CutHandled(seats[i], key, cuts[i], seats[i + 1]))
    && (forall i :: 0 <= i < |cuts| - 1 ==> Retried(cuts[i]))
    && cuts[|cuts| - 1].trace.fate.GivenUp?
  }

  function Times(cuts: seq<Cut>): seq<Time> {
    seq(|cuts|, i requires 0 <= i < |cuts| => cuts[i].now)
  }

  lemma RetriedIsRetry(s: Seat, key: ChatKey, cut: Cut, s': Seat)
    requires CutHandled(s, key, cut, s') && Retried(cut)
    ensures Retries(s, key, cut.now, s')
  {
    assert !cut.trace.tried[0].QuotaFailover?;
  }

  lemma TurnIsRetryRun(seats: seq<Seat>, key: ChatKey, cuts: seq<Cut>, n: nat)
    requires GivenUpTurn(seats, key, cuts) && n == |cuts| - 1
    ensures RetryRun(seats[..n + 1], key, Times(cuts[..n]))
  {
    var times := Times(cuts[..n]);
    forall i | 0 <= i < |times|
      ensures times[i] > 0 && Retries(seats[..n + 1][i], key, times[i], seats[..n + 1][i + 1])
    {
      assert CutHandled(seats[i], key, cuts[i], seats[i + 1]) && Retried(cuts[i]);
      RetriedIsRetry(seats[i], key, cuts[i], seats[i + 1]);
    }
  }

  /** The retries of a turn that was given up, the one of its last error included. */
  function RetriesMade(cuts: seq<Cut>): nat
    requires cuts != []
  {
    |cuts| - 1 + if cuts[|cuts| - 1].spent.retries < MAX_STREAM_RETRIES then 1 else 0
  }

  /** Main result: a turn that is resumed by stream retries and then given up, without another
      account to try, has given back a lease of its account for every retry; the first gives
      none back when no turn was running. Other chats lose leases if and only if there were
      more retries than the turn held leases and the account had more turns than that. */
  lemma TurnsAfterGivingUp(seats: seq<Seat>, key: ChatKey, cuts: seq<Cut>)
    requires GivenUpTurn(seats, key, cuts) && Holds(seats[0]) && seats[0].held <= Turns(seats[0])
    requires var last := cuts[|cuts| - 1];
      !MayFailOver(last.trace.retried, seats[0].account, last.spent.failovers, key)
    ensures var first, n, end := seats[0], GivenBack(seats[0].turnStart, RetriesMade(cuts)), seats[|cuts|];
      && end == AfterReleases(first, n, end.turnStart)
      && Turns(end) == (if n <= Turns(first) then Turns(first) - n else 0)
      && (Others(end) < Others(first) <==> n > first.held && Turns(first) > first.held)
      && Others(end) == Others(first) - Taken(n, first.held, Turns(first))
  {
    var n := |cuts| - 1;
    TurnIsRetryRun(seats, key, cuts, n);
    assert CutHandled(seats[n], key, cuts[n], seats[n + 1]);
    GivesUpAfter(seats[..n + 1], key, Times(cuts[..n]), cuts[n], seats[n + 1]);
    ReleasesTake(seats[0], GivenBack(seats[0].turnStart, RetriesMade(cuts)), seats[|cuts|].turnStart);
  }

  lemma GivesUpAfter(seats: seq<Seat>, key: ChatKey, times: seq<Time>, cut: Cut, last: Seat)
    requires RetryRun(seats, key, times) && Holds(seats[0])
    requires CutHandled(seats[|times|], key, cut, last) && cut.trace.fate.GivenUp?
    requires !MayFailOver(cut.trace.retried, seats[0].account, cut.spent.failovers, key)
    ensures var k := |times| + if cut.spent.retries < MAX_STREAM_RETRIES then 1 else 0;
      last == AfterReleases(seats[0], GivenBack(seats[0].turnStart, k), last.turnStart)
  {
    hide AfterReleases;
    hide Holds;
    RetriesGiveBack(seats, key, times, |times|);
    var t, first := cut.trace, seats[0];
    if cut.spent.retries < MAX_STREAM_RETRIES {
      RunGrows(seats, key, times, t.retried, cut.now);
      RetriesGiveBack(seats + [t.retried], key, times + [cut.now], |times| + 1);
    }
    SameAccount(seats[|times|], first, GivenBack(first.turnStart, |times|));
    AtAnyTime(first, t.retried, last);
  }

  lemma SameAccount(s: Seat, first: Seat, n: nat)
    requires s == AfterReleases(first, n, s.turnStart)
    ensures s.account == first.account
  {
  }

  /** The clock of a seat does not matter for what was released. */
  lemma AtAnyTime(first: Seat, s: Seat, s': Seat)
    requires s'.(turnStart := s.turnStart) == s
    ensures forall n :: s == AfterReleases(first, n, s.turnStart) ==> s' == AfterReleases(first, n, s'.turnStart)
  {
  }

  lemma RunGrows(seats: seq<Seat>, key: ChatKey, times: seq<Time>, next: Seat, now: Time)
    requires RetryRun(seats, key, times) && Retries(seats[|times|], key, now, next) && now > 0
    ensures RetryRun(seats + [next], key, times + [now])
  {
    var seats', times' := seats + [next], times + [now];
    forall i | 0 <= i < |times'| ensures times'[i] > 0 && Retries(seats'[i], key, times'[i], seats'[i + 1]) {
      if i < |times| {
        assert Retries(seats[i], key, times[i], seats[i + 1]);
      }
    }
  }

  // ---- Turns that end well ----

  /** What happens to a session between two points of its life on one account: another chat or
      an administrator uses the pool, a turn begins, ends well, or is retried. */
  datatype Deed = Elsewhere(op: Op) | Begins(now: Time) | EndsWell | IsRetried(now: Time)

  /** Whether the deed releases the session's account. */
  predicate Gives(s: Seat, d: Deed) {
    d.EndsWell? || (d.IsRetried? && s.turnStart != 0)
  }

  /** One deed; the session stays on its account, which works whenever it is retried. */
  ghost predicate Does(s: Seat, key: ChatKey, d: Deed, s': Seat) {
    s.account != "" &&
    match d
    case Elsewhere(op) => Step(s.pool, op, s'.pool) && s' == Shared(s, s'.pool)
    case Begins(now) => now > 0 && s' == s.(turnStart := now)
    case EndsWell => s' == Ended(s)
    case IsRetried(now) => now > 0 && Working(s.pool, s.account) && Retries(s, key, now, s')
  }

  ghost predicate Life(seats: seq<Seat>, key: ChatKey, deeds: seq<Deed>) {
    && |seats| == |deeds| + 1
    && forall i :: 0 <= i < |deeds| ==> Does(seats[i], key, deeds[i], seats[i + 1])
  }

  /** How often the session released its account in the first n deeds. */
  function Given(seats: seq<Seat>, deeds: seq<Deed>, n: nat): nat
    requires n <= |deeds| && |seats| == |deeds| + 1
  {
    if n == 0 then 0 else Given(seats, deeds, n - 1) + if Gives(seats[n - 1], deeds[n - 1]) then 1 else 0
  }

  lemma DeedGives(s: Seat, key: ChatKey, d: Deed, s': Seat)
    requires Does(s, key, d, s')
    ensures s'.account == s.account
    ensures d.Elsewhere? ==> s'.held == Covered(s.held, Turns(s'))
    ensures Gives(s, d) ==> s'.pool == s.pool.Release(s.account) && s'.held == Less(s.held)
    ensures Gives(s, d) ==> Turns(s') == Turns(GaveBack(s))
    ensures !Gives(s, d) && !d.Elsewhere? ==> s'.pool == s.pool && s'.held == s.held && Turns(s') == Turns(s)
  {
    if d.IsRetried? {
      RetryDropsLease(s, key, d.now, s');
    }
  }

  lemma {:induction false} LifeBacked(seats: seq<Seat>, key: ChatKey, deeds: seq<Deed>, n: nat)
    requires Life(seats, key, deeds) && n <= |deeds| && Backed(seats[0])
    ensures Backed(seats[n]) && Turns(seats[n]) >= 0
  {
    if n > 0 {
      LifeBacked(seats, key, deeds, n - 1);
      DeedBacked(seats[n - 1], key, deeds[n - 1], seats[n]);
    }
  }

  lemma DeedBacked(s: Seat, key: ChatKey, d: Deed, s': Seat)
    requires Does(s, key, d, s') && Backed(s)
    ensures Backed(s')
  {
    DeedGives(s, key, d, s');
    if d.Elsewhere? {
      StepKeepsInv(s.pool, d.op, s'.pool);
      SharedBacked(s, s'.pool);
    } else if Gives(s, d) {
      KilledBacked(s.(turnStart := 1));
    }
  }

  /** Up to n, the account always had a turn. */
  predicate AlwaysCovered(seats: seq<Seat>, n: nat)
    requires n < |seats|
  {
    forall i :: 0 <= i <= n ==> Turns(seats[i]) >= 1
  }

  lemma CoveredOnwards(seats: seq<Seat>, n: nat)
    requires 0 < n < |seats|
    ensures AlwaysCovered(seats, n) <==> AlwaysCovered(seats, n - 1) && Turns(seats[n]) >= 1
  {
  }

  /** Main result, over every interleaving with other chats: a session that took one lease holds
      it exactly as long as no turn has ended well or was retried and the account was never
      left without turns; once lost it does not come back. */
  lemma {:induction false} OneLeaseOnly(seats: seq<Seat>, key: ChatKey, deeds: seq<Deed>, n: nat)
    requires Life(seats, key, deeds) && n <= |deeds| && seats[0].held == 1 && Turns(seats[0]) >= 1
    ensures seats[n].account == seats[0].account
    ensures seats[n].held == if Given(seats, deeds, n) == 0 && AlwaysCovered(seats, n) then 1 else 0
  {
    hide Does;
    hide Gives;
    hide Turns;
    hide GaveBack;
    if n > 0 {
      OneLeaseOnly(seats, key, deeds, n - 1);
      CoveredOnwards(seats, n);
      DeedGives(seats[n - 1], key, deeds[n - 1], seats[n]);
      hide Life;
      hide AlwaysCovered;
    }
  }

  /** So a release takes the lease of another chat if and only if the account has a turn to lose
      and the session's own lease is gone: given back before, or lost with the turns. */
  lemma LaterReleasesTake(seats: seq<Seat>, key: ChatKey, deeds: seq<Deed>, n: nat)
    requires Life(seats, key, deeds) && n < |deeds| && Inv(seats[0].pool)
    requires seats[0].held == 1 && Turns(seats[0]) >= 1 && Gives(seats[n], deeds[n])
    ensures Others(seats[n + 1]) < Others(seats[n]) <==>
      Turns(seats[n]) > 0 && (Given(seats, deeds, n) > 0 || exists i :: 0 <= i < n && Turns(seats[i]) == 0)
  {
    hide Does;
    hide Gives;
    hide Turns;
    hide Inv;
    OneLeaseOnly(seats, key, deeds, n);
    forall i | 0 <= i <= n ensures Turns(seats[i]) >= 0 { LifeBacked(seats, key, deeds, i); }
    ReleaseTakes(seats[n], key, deeds[n], seats[n + 1]);
  }

  lemma ReleaseTakes(s: Seat, key: ChatKey, d: Deed, s': Seat)
    requires Does(s, key, d, s') && Gives(s, d) && Turns(s) >= 0
    ensures Others(s') < Others(s) <==> s.held == 0 && Turns(s) > 0
  {
    DeedGives(s, key, d, s');
    ReleaseTakesIff(s);
  }

  /** A session that took a lease; another chat's cooldown of the account, which is cleared
      again; a third chat that acquires it; and the end of the session's first turn. */
  ghost predicate CooledElsewhere(seats: seq<Seat>, key: ChatKey, deeds: seq<Deed>) {
    && Life(seats, key, deeds) && |deeds| == 4
    && Inv(seats[0].pool) && Holds(seats[0]) && seats[0].held == 1 && Turns(seats[0]) >= 1
    && deeds[0].Elsewhere? && deeds[0].op.MarkCooldown? && deeds[0].op.id == seats[0].account
    && deeds[1] == Elsewhere(ClearCooldown(seats[0].account))
    && deeds[2].Elsewhere? && deeds[2].op.Acquire? && Turns(seats[3]) == 1
    && deeds[3] == EndsWell
  }

  /** The cooldown takes the lease with it, and clearing it does not bring it back: the first
      turn of this session that ends well takes the only lease of the third chat. */
  lemma CooledElsewhereTakes(seats: seq<Seat>, key: ChatKey, deeds: seq<Deed>)
    requires CooledElsewhere(seats, key, deeds)
    ensures seats[1].held == seats[2].held == seats[3].held == 0
    ensures Others(seats[3]) == 1 && Others(seats[4]) == 0
  {
    assert Does(seats[0], key, deeds[0], seats[1]) && Does(seats[1], key, deeds[1], seats[2]);
    assert Does(seats[2], key, deeds[2], seats[3]) && Does(seats[3], key, deeds[3], seats[4]);
  }

  lemma LockedTakes(p: Pool, key: ChatKey, id: string, now: Time) returns (p': Pool, got: Result<Profile, PoolError>)
    requires id in p.accounts && p.accounts[id].state.Active? && now > 0 && key in p.pinned && p.pinned[key] == id
    ensures Acquires(p, key, now, p', got) && id in p'.accounts && p'.accounts[id].turns == p.accounts[id].turns + 1
  {
    var q := p.Reap(now);
    assert q.accounts[id] == p.accounts[id] && PinnedTo(q, key) == Some(id);
    got := Ok(Leased(q.accounts[id], now));
    p' := q.Put(id, Leased(q.accounts[id], now)).(active := q.active[key := q.accounts[id].id]);
    ByPin(q, key, id, now, p', got);
  }

  lemma SharedDoes(s: Seat, key: ChatKey, op: Op, p: Pool)
    requires s.account != "" && Step(s.pool, op, p)
    ensures Does(s, key, Elsewhere(op), Shared(s, p))
  {
  }

  lemma EndDoes(s: Seat, key: ChatKey)
    requires s.account != ""
    ensures Does(s, key, EndsWell, Ended(s))
  {
  }

  /** The run, once every deed in it is known. */
  lemma FourDeeds(seats: seq<Seat>, key: ChatKey, deeds: seq<Deed>)
    requires |seats| == 5 && |deeds| == 4
    requires Does(seats[0], key, deeds[0], seats[1]) && Does(seats[1], key, deeds[1], seats[2])
    requires Does(seats[2], key, deeds[2], seats[3]) && Does(seats[3], key, deeds[3], seats[4])
    ensures Life(seats, key, deeds)
  {
    hide Does;
    forall i | 0 <= i < 4 ensures Does(seats[i], key, deeds[i], seats[i + 1]) {
      assert i == 0 || i == 1 || i == 2 || i == 3;
    }
  }

  /** From a seat with the account's only lease: the account is cooled down, cleared, and
      acquired by the third chat. */
  lemma CooledPools(s: Seat, third: ChatKey) returns (s1: Seat, s2: Seat, s3: Seat, got: Result<Profile, PoolError>)
    requires Inv(s.pool) && Holds(s) && s.held == Turns(s) == 1
    requires third in s.pool.pinned && s.pool.pinned[third] == s.account
    ensures s1 == Shared(s, s1.pool) && Step(s.pool, MarkCooldown(s.account, 0, 1), s1.pool)
    ensures s2 == Shared(s1, s2.pool) && Step(s1.pool, ClearCooldown(s.account), s2.pool)
    ensures s3 == Shared(s2, s3.pool) && Step(s2.pool, Op.Acquire(third, 2, got), s3.pool) && Turns(s3) == 1
  {
    s1 := Shared(s, s.pool.MarkCooldown(s.account, 0, 1));
    s2 := Shared(s1, s1.pool.ClearCooldown(s.account));
    var p3;
    p3, got := LockedTakes(s2.pool, third, s.account, 2);
    s3 := Shared(s2, p3);
  }

  lemma CooledRun(s: Seat, key: ChatKey, third: ChatKey)
    requires Inv(s.pool) && Holds(s) && s.held == Turns(s) == 1
    requires third in s.pool.pinned && s.pool.pinned[third] == s.account
    ensures exists seats, deeds :: CooledElsewhere(seats, key, deeds)
  {
    hide Does;
    hide Step;
    hide Inv;
    hide Ended;
    var s1, s2, s3, got := CooledPools(s, third);
    var cool, clear, take := MarkCooldown(s.account, 0, 1), ClearCooldown(s.account), Op.Acquire(third, 2, got);
    SharedDoes(s, key, cool, s1.pool);
    SharedDoes(s1, key, clear, s2.pool);
    SharedDoes(s2, key, take, s3.pool);
    EndDoes(s3, key);
    var deeds := [Elsewhere(cool), Elsewhere(clear), Elsewhere(take), EndsWell];
    var seats := [s, s1, s2, s3, Ended(s3)];
    FourDeeds(seats, key, deeds);
    hide Life;
    assert CooledElsewhere(seats, key, deeds);
  }

  /** And it can happen: one account, to which the third chat is locked. */
  lemma CooledElsewhereHappens()
    ensures exists seats, key, deeds :: CooledElsewhere(seats, key, deeds)
  {
    var a := Profile("a", "", "", InUse, 0, 1, 0, 0, UNFETCHED);
    CooledRun(Seat(Pool(map["a" := a], map[Bare(3) := "a"], map[]), "a", 1, 1), Bare(1), Bare(3));
  }

  /** Two sessions on one account see the same loss: when b gives back a lease it does not hold,
      a loses its own if and only if the account had no turn beyond a's. */
  lemma LossIsShared(a: Seat, b: Seat)
    requires a.pool == b.pool && a.account == b.account && a.account in a.pool.accounts && b.held == 0
    requires 0 < a.held <= Turns(a)
    ensures Others(GaveBack(b)) == Others(b) - 1
    ensures Shared(a, GaveBack(b).pool).held == if Turns(a) == a.held then a.held - 1 else a.held
    ensures Others(Shared(a, GaveBack(b).pool)) == Others(a) - if Turns(a) == a.held then 0 else 1
  {
  }

  /** With nobody else about, the account after some turns that ended well has been released
      once for each of them. */
  lemma {:induction false} TurnsThatEndWell(seats: seq<Seat>, key: ChatKey, deeds: seq<Deed>, n: nat)
    requires Life(seats, key, deeds) && n <= |deeds| && Holds(seats[0])
    requires forall i :: 0 <= i < |deeds| ==> deeds[i].Begins? || deeds[i].EndsWell?
    ensures seats[n] == AfterReleases(seats[0], Given(seats, deeds, n), seats[n].turnStart)
  {
    if n > 0 {
      TurnsThatEndWell(seats, key, deeds, n - 1);
      DeedGives(seats[n - 1], key, deeds[n - 1], seats[n]);
    }
  }

  /** Main result: k turns that end well on one account give back k leases of it, where start()
      took one. The other k - 1 belonged to other chats, as far as there were any. */
  lemma EndedTurnsTake(seats: seq<Seat>, key: ChatKey, deeds: seq<Deed>, n: nat)
    requires Life(seats, key, deeds) && n <= |deeds|
    requires forall i :: 0 <= i < |deeds| ==> deeds[i].Begins? || deeds[i].EndsWell?
    requires Holds(seats[0]) && seats[0].held == 1 && Turns(seats[0]) >= 1
    ensures var k, before, after := Given(seats, deeds, n), seats[0], seats[n];
      && after.account == before.account
      && Turns(after) == (if k <= Turns(before) then Turns(before) - k else 0)
      && Others(after) == Others(before) - Taken(k, 1, Turns(before))
      && (Others(after) < Others(before) <==> k >= 2 && Turns(before) >= 2)
  {
    TurnsThatEndWell(seats, key, deeds, n);
    ReleasesTake(seats[0], Given(seats, deeds, n), seats[n].turnStart);
  }

  /** The second turn of a session takes the lease of another chat when it ends. */
  lemma SecondTurnTakes(s: Seat, now: Time)
    requires Holds(s) && s.held == 1 && Turns(s) > 1
    ensures Others(Ended(Ended(s).(turnStart := now))) == Others(s) - 1
  {
  }
}
