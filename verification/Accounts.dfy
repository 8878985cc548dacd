/** The account pool as a value: what each operation of account_pool.go does to it, the
    invariants every run keeps, and the rotation order. The class in AccountPool.dfy is
    proved against these definitions. */
module Accounts {
  import opened Quotas
  import opened Results
  import opened Text

  datatype State = Active | InUse | Cooldown | Expired | Frozen

  datatype Profile = Profile(id: string, email: string, homeDir: string, state: State, cooldownUntil: Time,
                             turns: int, errors: int, lastUsed: Time, quota: Quota)

  /** A chat's key: the decimal chat id, or "bot:id". The two never collide, and only the
      part after the last colon is the id. */
  datatype ChatKey = Bare(chat: int) | Scoped(bot: string, chat: int)

  /** The pool, with what each operation makes of it; a refused operation changes nothing. */
  datatype Pool = Pool(accounts: map<string, Profile>, pinned: map<ChatKey, string>, active: map<ChatKey, string>) {

    function Put(id: string, a: Profile): Pool {
      this.(accounts := accounts[id := a])
    }

    function Release(id: string): Pool {
      if id in accounts then Put(id, Released(accounts[id])) else this
    }

    function MarkCooldown(id: string, duration: Time, now: Time): Pool {
      if id in accounts then Put(id, Rested(accounts[id], duration, now)) else this
    }

    function ClearCooldown(id: string): Pool {
      if id in accounts && !accounts[id].state.Frozen? then Put(id, Cleared(accounts[id])) else this
    }

    function Freeze(id: string): Pool {
      if id in accounts then Put(id, Iced(accounts[id])).(active := Without(active, id)) else this
    }

    function Unfreeze(id: string, now: Time): Pool {
      if id in accounts && accounts[id].state.Frozen? then Put(id, Thawed(accounts[id], now)) else this
    }

    function Delete(id: string, homeIsInside: bool): Pool {
      if id in accounts && !accounts[id].state.InUse? && homeIsInside
      then Pool(accounts - {id}, Without(pinned, id), Without(active, id)) else this
    }

    function Pin(key: ChatKey, id: string): Pool {
      if id in accounts && !accounts[id].state.Frozen?
      then this.(pinned := pinned[key := id], active := active[key := id]) else this
    }

    function Unpin(key: ChatKey): Pool {
      this.(pinned := if key.Scoped? then pinned - {key} - {Bare(key.chat)} else pinned - {key})
    }

    function Switch(key: ChatKey, id: string, now: Time): Pool {
      if id in accounts && !accounts[id].state.Frozen? && !Resting(accounts[id], now)
      then this.(active := active[key := id]) else this
    }

    function Refresh(id: string, q: Quota, now: Time): Pool {
      if id in accounts then Put(id, Refreshed(accounts[id], q, now)) else this
    }

    /** A newcomer is registered even when its files cannot be stored. */
    function Ingest(id: string, newcomer: Profile, stored: bool): Pool {
      var q := if id in accounts then this else Put(id, newcomer);
      if stored then q.Put(id, Cleared(q.accounts[id])) else q
    }

    function Reap(now: Time): Pool {
      this.(accounts := Sweep(accounts, now))
    }
  }

  function Without(m: map<ChatKey, string>, id: string): map<ChatKey, string> {
    map k | k in m && m[k] != id :: m[k]
  }

  function Sweep(accounts: map<string, Profile>, now: Time): map<string, Profile> {
    map id | id in accounts :: Swept(accounts[id], now)
  }

  datatype PoolError =
    | NoAccountsAvailable | AllAccountsCooldown | AccountNotFound | AccountInCooldown | AccountFrozen
    | NotFrozen | AccountInUse | BadHomeDir | StorageFailed

  /** A missing or blank bot name selects the bare key. */
  function KeyOf(chat: int, bot: string): ChatKey {
    if TrimSpace(bot) == "" then Bare(chat) else Scoped(TrimSpace(bot), chat)
  }

  /** Look up a chat, falling back to its bare key. */
  function Resolve(m: map<ChatKey, string>, key: ChatKey): Option<string> {
    if key in m then Some(m[key])
    else if key.Scoped? && Bare(key.chat) in m then Some(m[Bare(key.chat)])
    else None
  }

  // ---- The invariants ----

  predicate Sound(id: string, a: Profile) {
    && a.id == id
    && a.turns >= 0
    && (a.state.InUse? ==> a.turns >= 1)
    && (a.state.Frozen? ==> a.turns == 0 && a.cooldownUntil == 0)
    && (a.quota.fetchedAt == 0 ==> a.quota.gemini5h.fraction == 0.0)
  }

  /** What holds between any two operations. */
  ghost predicate Inv(p: Pool) {
    && (forall id :: id in p.accounts ==> Sound(id, p.accounts[id]))
    && (forall k :: k in p.pinned ==> p.pinned[k] in p.accounts)
    && (forall k :: k in p.active ==> p.active[k] in p.accounts && !p.accounts[p.active[k]].state.Frozen?)
  }

  // ---- One account ----

  predicate Finished(a: Profile, now: Time) {
    a.state.Cooldown? && now > a.cooldownUntil
  }

  /** A finished cooldown ends; exactly at its end it still lasts. */
  function Swept(a: Profile, now: Time): Profile {
    if Finished(a, now) then a.(state := Active, cooldownUntil := 0) else a
  }

  function FinishedIds(p: Pool, now: Time): set<string> {
    set id | id in p.accounts && Finished(p.accounts[id], now)
  }

  function Leased(a: Profile, now: Time): Profile {
    a.(turns := a.turns + 1, lastUsed := now, state := InUse)
  }

  function Released(a: Profile): Profile {
    var turns := if a.turns > 0 then a.turns - 1 else a.turns;
    a.(turns := turns, state := if turns == 0 && a.state.InUse? then Active else a.state)
  }

  function Rested(a: Profile, duration: Time, now: Time): Profile {
    if a.state.Frozen? then a
    else a.(state := Cooldown, cooldownUntil := RestEnd(duration, now), errors := a.errors + 1, turns := 0)
  }

  /** The refresh outcome; a frozen account only takes the numbers. */
  function Refreshed(a: Profile, q: Quota, now: Time): Profile {
    var b := a.(quota := q);
    if a.state.Frozen? then b
    else match Judge(q, now)
      case RestUntil(t) => b.(state := Cooldown, cooldownUntil := t)
      case Recover => if a.state.Cooldown? then b.(state := Active, cooldownUntil := 0) else b
      case Keep => b
  }

  function Cleared(a: Profile): Profile {
    a.(state := Active, cooldownUntil := 0)
  }

  function Iced(a: Profile): Profile {
    a.(state := Frozen, turns := 0, cooldownUntil := 0)
  }

  /** The branch that resumes a cooldown is dead: freezing cleared it. */
  function Thawed(a: Profile, now: Time): Profile {
    if a.cooldownUntil != 0 && now < a.cooldownUntil then a.(state := Cooldown) else Cleared(a)
  }

  /** The entry IngestCurrentAccount makes for an unknown e-mail. */
  function Newcomer(id: string, email: string, homeDir: string, now: Time): Profile {
    Profile(id, email, homeDir, Active, 0, 0, 0, now, UNFETCHED)
  }

  predicate Resting(a: Profile, now: Time) {
    a.state.Cooldown? && now < a.cooldownUntil
  }

  /** The account's Gemini window is switched off. */
  predicate Disabled(a: Profile) {
    a.quota.fetchedAt != 0 && (a.quota.gemini5h.disabled || a.quota.geminiWeekly.disabled)
  }

  predicate Blocked(a: Profile, now: Time) {
    Disabled(a) && (a.quota.geminiWeekly.resetTime == 0 || now < a.quota.geminiWeekly.resetTime)
  }

  /** Fit to be picked for a turn. */
  predicate Healthy(a: Profile, now: Time) {
    (a.state.Active? || a.state.InUse?) && !Blocked(a, now)
  }

  // ---- The rotation order ----

  /** The comparator of the rotation. */
  predicate Before(a: Profile, b: Profile) {
    if Disabled(a) != Disabled(b) then !Disabled(a)
    else if (a.turns == 0) != (b.turns == 0) then a.turns == 0
    else if a.turns != b.turns then a.turns < b.turns
    else if a.quota.gemini5h.fraction != b.quota.gemini5h.fraction && (a.quota.fetchedAt != 0 || b.quota.fetchedAt != 0)
    then a.quota.gemini5h.fraction > b.quota.gemini5h.fraction
    else a.lastUsed < b.lastUsed
  }

  /** The order it stands for: working window first, then fewest turns, then most quota,
      then least recently used. */
  predicate Precedes(a: Profile, b: Profile) {
    if Disabled(a) != Disabled(b) then !Disabled(a)
    else if a.turns != b.turns then a.turns < b.turns
    else if a.quota.gemini5h.fraction != b.quota.gemini5h.fraction
    then a.quota.gemini5h.fraction > b.quota.gemini5h.fraction
    else a.lastUsed < b.lastUsed
  }

  /** Main result: on sound accounts the comparator is the lexicographic order, so it is a
      strict weak order and its clause for free accounts changes nothing. */
  lemma BeforeIsPrecedes(a: Profile, b: Profile)
    requires Sound(a.id, a) && Sound(b.id, b)
    ensures Before(a, b) <==> Precedes(a, b)
  {
  }

  /** Ties are an equivalence: what is not before c is not before anything before c. */
  lemma StrictWeakOrder(a: Profile, b: Profile, c: Profile)
    requires Sound(a.id, a) && Sound(b.id, b) && Sound(c.id, c)
    ensures !Before(a, a)
    ensures Before(a, b) ==> !Before(b, a)
    ensures Before(a, b) && Before(b, c) ==> Before(a, c)
    ensures !Before(a, b) && !Before(b, c) ==> !Before(a, c)
  {
    BeforeIsPrecedes(a, b);
    BeforeIsPrecedes(b, a);
    BeforeIsPrecedes(b, c);
    BeforeIsPrecedes(a, c);
  }

  /** Without the invariant it need not be an order: two accounts that were never fetched
      but carry a fraction form a cycle with a fetched one. */
  lemma BeforeCanCycle(a: Profile)
    requires a.turns == 0
    ensures var q := UNFETCHED;
      var x := a.(lastUsed := 1, quota := q.(gemini5h := ModelQuota(0.5, 0, false)));
      var y := a.(lastUsed := 2, quota := q.(gemini5h := ModelQuota(0.7, 0, false)));
      var z := a.(lastUsed := 3, quota := q.(gemini5h := ModelQuota(0.6, 0, false), fetchedAt := 1));
      Before(x, y) && Before(y, z) && Before(z, x)
  {
  }

  /** `id` may be picked: it is fit and no fit account comes before it. */
  predicate First(accounts: map<string, Profile>, now: Time, id: string) {
    && id in accounts && Healthy(accounts[id], now)
    && forall other :: other in accounts && Healthy(accounts[other], now) ==> !Before(accounts[other], accounts[id])
  }

  // ---- The operations ----

  /** The chat takes a turn on the account. */
  ghost predicate Takes(p: Pool, key: ChatKey, id: string, now: Time, p': Pool, got: Result<Profile, PoolError>) {
    && id in p.accounts
    && got == Ok(Leased(p.accounts[id], now))
    && p' == p.Put(id, Leased(p.accounts[id], now)).(active := p.active[key := p.accounts[id].id])
  }

  /** The account the chat is locked to, if it is still registered. */
  function PinnedTo(p: Pool, key: ChatKey): Option<string> {
    var id := Resolve(p.pinned, key);
    if id.Some? && id.value in p.accounts then id else None
  }

  /** The account the chat keeps: its assignment, when idle and not blocked. */
  function Kept(p: Pool, key: ChatKey, now: Time): Option<string> {
    var id := Resolve(p.active, key);
    if id.Some? && id.value in p.accounts && p.accounts[id.value].state.Active? && !Blocked(p.accounts[id.value], now)
    then id else None
  }

  /** AcquireAccount; the account sort.Slice puts first is any first one. */
  ghost predicate Acquires(p: Pool, key: ChatKey, now: Time, p': Pool, got: Result<Profile, PoolError>) {
    if p.accounts == map[] then p' == p && got == Err(NoAccountsAvailable)
    else AcquiresAwake(p.Reap(now), key, now, p', got)
  }

  ghost predicate AcquiresAwake(p: Pool, key: ChatKey, now: Time, p': Pool, got: Result<Profile, PoolError>) {
    if PinnedTo(p, key).Some? then AcquiresPinned(p, key, PinnedTo(p, key).value, now, p', got)
    else if Kept(p, key, now).Some? then Takes(p, key, Kept(p, key, now).value, now, p', got)
    else Rotates(p, key, now, p', got)
  }

  lemma ByPin(p: Pool, key: ChatKey, id: string, now: Time, p': Pool, got: Result<Profile, PoolError>)
    requires PinnedTo(p, key) == Some(id) && AcquiresPinned(p, key, id, now, p', got)
    ensures AcquiresAwake(p, key, now, p', got)
  {
  }

  lemma ByKeeping(p: Pool, key: ChatKey, id: string, now: Time, p': Pool, got: Result<Profile, PoolError>)
    requires PinnedTo(p, key).None? && Kept(p, key, now) == Some(id) && Takes(p, key, id, now, p', got)
    ensures AcquiresAwake(p, key, now, p', got)
  {
  }

  lemma ByRotation(p: Pool, key: ChatKey, now: Time, p': Pool, got: Result<Profile, PoolError>)
    requires PinnedTo(p, key).None? && Kept(p, key, now).None? && Rotates(p, key, now, p', got)
    ensures AcquiresAwake(p, key, now, p', got)
  {
  }

  /** A locked chat gets its account or an error, never another account. */
  ghost predicate AcquiresPinned(p: Pool, key: ChatKey, id: string, now: Time, p': Pool,
                                 got: Result<Profile, PoolError>)
    requires id in p.accounts
  {
    if p.accounts[id].state.Frozen? then p' == p && got == Err(AccountFrozen)
    else if Resting(p.accounts[id], now) then p' == p && got == Err(AccountInCooldown)
    else Takes(p, key, id, now, p', got)
  }

  ghost predicate Rotates(p: Pool, key: ChatKey, now: Time, p': Pool, got: Result<Profile, PoolError>) {
    if HealthyIds(p, now) != {} then exists id :: First(p.accounts, now, id) && Takes(p, key, id, now, p', got)
    else p' == p && got == Err(if WaitingIds(p, now) != {} then AllAccountsCooldown else NoAccountsAvailable)
  }

  /** What CountHealthyAccounts counts. */
  function HealthyIds(p: Pool, now: Time): set<string> {
    set id | id in p.accounts && Healthy(p.accounts[id], now)
  }

  function WaitingIds(p: Pool, now: Time): set<string> {
    set id | id in p.accounts && Waiting(p.accounts[id], now)
  }

  /** An account that cannot be picked now but may be later. */
  predicate Waiting(a: Profile, now: Time) {
    a.state.Cooldown? || ((a.state.Active? || a.state.InUse?) && Blocked(a, now))
  }

  datatype Op =
    | Acquire(key: ChatKey, now: Time, got: Result<Profile, PoolError>)
    | Release(id: string)
    | MarkCooldown(id: string, duration: Time, now: Time)
    | ClearCooldown(id: string)
    | Freeze(id: string)
    | Unfreeze(id: string, now: Time)
    | Delete(id: string, homeIsInside: bool)
    | Pin(key: ChatKey, id: string)
    | Unpin(key: ChatKey)
    | Switch(key: ChatKey, id: string, now: Time)
    | Refresh(id: string, quota: Quota, now: Time)
    | Ingest(id: string, newcomer: Profile, stored: bool)
    | Reap(now: Time)

  /** A sweep under way: the accounts in `todo` are still as they were. */
  predicate SweptBut(was: map<string, Profile>, view: map<string, Profile>, todo: set<string>, now: Time) {
    && view.Keys == was.Keys
    && forall id :: id in was ==> view[id] == if id in todo then was[id] else Swept(was[id], now)
  }

  lemma SweepOne(was: map<string, Profile>, view: map<string, Profile>, todo: set<string>, id: string, now: Time)
    requires SweptBut(was, view, todo, now) && id in todo && id in was
    ensures id in view && view[id] == was[id] && SweptBut(was, view[id := Swept(view[id], now)], todo - {id}, now)
  {
  }

  lemma SweepIs(was: map<string, Profile>, view: map<string, Profile>, now: Time)
    requires SweptBut(was, view, {}, now)
    ensures view == Sweep(was, now)
  {
  }

  /** What every operation but Acquire does. */
  function After(p: Pool, op: Op): Pool
    requires !op.Acquire?
  {
    match op
    case Release(id) => p.Release(id)
    case MarkCooldown(id, d, now) => p.MarkCooldown(id, d, now)
    case ClearCooldown(id) => p.ClearCooldown(id)
    case Freeze(id) => p.Freeze(id)
    case Unfreeze(id, now) => p.Unfreeze(id, now)
    case Delete(id, homeIsInside) => p.Delete(id, homeIsInside)
    case Pin(key, id) => p.Pin(key, id)
    case Unpin(key) => p.Unpin(key)
    case Switch(key, id, now) => p.Switch(key, id, now)
    case Refresh(id, q, now) => p.Refresh(id, q, now)
    case Ingest(id, newcomer, stored) => p.Ingest(id, newcomer, stored)
    case Reap(now) => p.Reap(now)
  }

  /** What the callers supply: clocks that are set, quotas that were fetched, and for a new
      profile an entry as IngestCurrentAccount builds it. */
  predicate Fair(op: Op) {
    match op
    case Acquire(_, now, _) => now > 0
    case Refresh(_, q, now) => now > 0 && q.fetchedAt != 0
    case Ingest(id, newcomer, _) =>
      newcomer.id == id && newcomer.state.Active? && newcomer.turns == 0 && newcomer.quota == UNFETCHED
    case _ => true
  }

  ghost predicate Step(p: Pool, op: Op, p': Pool) {
    Fair(op) && if op.Acquire? then Acquires(p, op.key, op.now, p', op.got) else p' == After(p, op)
  }

  // ---- What every run keeps ----

  lemma SweptSound(id: string, a: Profile, now: Time)
    requires Sound(id, a)
    ensures Sound(id, Swept(a, now)) && (Swept(a, now).state.Frozen? <==> a.state.Frozen?)
  {
  }

  lemma SweepKeepsInv(p: Pool, now: Time)
    requires Inv(p)
    ensures Inv(p.Reap(now))
  {
    forall id | id in p.accounts ensures Sound(id, Swept(p.accounts[id], now)) {
      SweptSound(id, p.accounts[id], now);
    }
  }

  /** Replacing one account by a sound one that is no more frozen than before. */
  lemma SwapKeepsInv(p: Pool, id: string, a: Profile)
    requires Inv(p) && Sound(id, a)
    requires a.state.Frozen? ==> id in p.accounts && p.accounts[id].state.Frozen?
    ensures Inv(p.Put(id, a))
  {
  }

  lemma TakesKeepsInv(p: Pool, key: ChatKey, id: string, now: Time, p': Pool, got: Result<Profile, PoolError>)
    requires Inv(p) && Takes(p, key, id, now, p', got)
    ensures Inv(p')
  {
    SwapKeepsInv(p, id, Leased(p.accounts[id], now));
  }

  /** The two outcomes of an acquisition: some account that is not frozen is taken, or
      only finished cooldowns end. */
  lemma TakenOrNot(p: Pool, key: ChatKey, now: Time, p': Pool, got: Result<Profile, PoolError>) returns (id: string)
    requires Inv(p) && Acquires(p, key, now, p', got)
    ensures got.Ok? ==>
      && Takes(p.Reap(now), key, id, now, p', got)
      && id in p.accounts && !p.accounts[id].state.Frozen?
    ensures got.Err? ==> p' == p.Reap(now)
  {
    id := "";
    var q := p.Reap(now);
    if p.accounts == map[] {
      assert Sweep(p.accounts, now) == p.accounts;
    } else if got.Ok? {
      id := Awake(q, key, now, p', got);
      SweptSound(id, p.accounts[id], now);
    }
  }

  lemma Awake(q: Pool, key: ChatKey, now: Time, p': Pool, got: Result<Profile, PoolError>) returns (id: string)
    requires AcquiresAwake(q, key, now, p', got) && got.Ok?
    ensures Takes(q, key, id, now, p', got) && !q.accounts[id].state.Frozen?
  {
    if PinnedTo(q, key).Some? {
      id := PinnedTo(q, key).value;
    } else if Kept(q, key, now).Some? {
      id := Kept(q, key, now).value;
    } else {
      id :| First(q.accounts, now, id) && Takes(q, key, id, now, p', got);
    }
  }

  lemma AcquireKeepsInv(p: Pool, key: ChatKey, now: Time, p': Pool, got: Result<Profile, PoolError>)
    requires Inv(p) && Acquires(p, key, now, p', got)
    ensures Inv(p')
  {
    var id := TakenOrNot(p, key, now, p', got);
    SweepKeepsInv(p, now);
    if got.Ok? {
      TakesKeepsInv(p.Reap(now), key, id, now, p', got);
    }
  }

  lemma FreezeKeepsInv(p: Pool, id: string)
    requires Inv(p) && id in p.accounts
    ensures Inv(After(p, Freeze(id)))
  {
  }

  lemma ReferencesKeepInv(p: Pool, op: Op)
    requires Inv(p) && (op.Delete? || op.Pin? || op.Unpin? || op.Switch?)
    ensures Inv(After(p, op))
  {
  }

  /** Main result: every operation keeps the invariants. */
  lemma StepKeepsInv(p: Pool, op: Op, p': Pool)
    requires Inv(p) && Step(p, op, p')
    ensures Inv(p')
  {
    match op
    case Acquire(key, now, got) => AcquireKeepsInv(p, key, now, p', got);
    case Release(id) => if id in p.accounts { SwapKeepsInv(p, id, Released(p.accounts[id])); }
    case MarkCooldown(id, d, now) => if id in p.accounts { SwapKeepsInv(p, id, Rested(p.accounts[id], d, now)); }
    case ClearCooldown(id) =>
      if id in p.accounts && !p.accounts[id].state.Frozen? { SwapKeepsInv(p, id, Cleared(p.accounts[id])); }
    case Freeze(id) => if id in p.accounts { FreezeKeepsInv(p, id); }
    case Unfreeze(id, now) =>
      if id in p.accounts && p.accounts[id].state.Frozen? { SwapKeepsInv(p, id, Thawed(p.accounts[id], now)); }
    case Delete(id, homeIsInside) => ReferencesKeepInv(p, op);
    case Pin(key, id) => ReferencesKeepInv(p, op);
    case Unpin(key) => ReferencesKeepInv(p, op);
    case Switch(key, id, now) => ReferencesKeepInv(p, op);
    case Refresh(id, q, now) => if id in p.accounts { SwapKeepsInv(p, id, Refreshed(p.accounts[id], q, now)); }
    case Ingest(id, newcomer, stored) => IngestKeepsInv(p, id, newcomer, stored);
    case Reap(now) => SweepKeepsInv(p, now);
  }

  lemma IngestKeepsInv(p: Pool, id: string, newcomer: Profile, stored: bool)
    requires Inv(p) && Fair(Ingest(id, newcomer, stored))
    ensures Inv(After(p, Ingest(id, newcomer, stored)))
  {
    var q := if id in p.accounts then p else p.Put(id, newcomer);
    if id !in p.accounts {
      SwapKeepsInv(p, id, newcomer);
    }
    if stored {
      SwapKeepsInv(q, id, Cleared(q.accounts[id]));
    }
  }

  /** A run: one operation between each two pools. */
  ghost predicate Run(pools: seq<Pool>, ops: seq<Op>) {
    && |pools| == |ops| + 1
    && Inv(pools[0])
    && forall i :: 0 <= i < |ops| ==> Step(pools[i], ops[i], pools[i + 1])
  }

  lemma {:induction false} RunKeepsInv(pools: seq<Pool>, ops: seq<Op>, i: nat)
    requires Run(pools, ops) && i < |pools|
    ensures Inv(pools[i])
  {
    if i > 0 {
      RunKeepsInv(pools, ops, i - 1);
      StepKeepsInv(pools[i - 1], ops[i - 1], pools[i]);
    }
  }

  // ---- Frozen accounts ----

  predicate IsFrozen(p: Pool, id: string) {
    id in p.accounts && p.accounts[id].state.Frozen?
  }

  /** The operations that can end a freeze. */
  predicate Lifts(op: Op, id: string) {
    (op.Unfreeze? && op.id == id) || (op.Ingest? && op.id == id) || (op.Delete? && op.id == id)
  }

  lemma AcquireSparesFrozen(p: Pool, key: ChatKey, now: Time, p': Pool, got: Result<Profile, PoolError>, id: string)
    requires Inv(p) && Acquires(p, key, now, p', got) && IsFrozen(p, id)
    ensures IsFrozen(p', id) && (got.Ok? ==> got.value.id != id)
  {
    var taken := TakenOrNot(p, key, now, p', got);
    assert Sweep(p.accounts, now)[id] == p.accounts[id];
    if got.Ok? {
      SweptSound(taken, p.accounts[taken], now);
      assert Sweep(p.accounts, now)[taken].id == taken;
    }
  }

  /** Only unfreezing, ingesting again or deleting ends a freeze, and no turn is given a
      frozen account. */
  lemma FrozenStays(p: Pool, op: Op, p': Pool, id: string)
    requires Inv(p) && Step(p, op, p') && IsFrozen(p, id) && !Lifts(op, id)
    ensures IsFrozen(p', id)
    ensures op.Acquire? && op.got.Ok? ==> op.got.value.id != id
  {
    if op.Acquire? {
      AcquireSparesFrozen(p, op.key, op.now, p', op.got, id);
    } else {
      OthersSpareFrozen(p, op, id);
    }
  }

  lemma OthersSpareFrozen(p: Pool, op: Op, id: string)
    requires Inv(p) && !op.Acquire? && IsFrozen(p, id) && !Lifts(op, id)
    ensures IsFrozen(After(p, op), id)
  {
  }

  /** Main result, over runs: from a freeze on, until an operation that lifts it, the
      account stays frozen and is never acquired. */
  lemma {:induction false} FrozenThroughRun(pools: seq<Pool>, ops: seq<Op>, i: nat, j: nat, id: string)
    requires Run(pools, ops) && i <= j < |pools| && IsFrozen(pools[i], id)
    requires forall k :: i <= k < j ==> !Lifts(ops[k], id)
    ensures IsFrozen(pools[j], id)
    ensures forall k :: i <= k < j && ops[k].Acquire? && ops[k].got.Ok? ==> ops[k].got.value.id != id
    decreases j
  {
    if i < j {
      FrozenThroughRun(pools, ops, i, j - 1, id);
      RunKeepsInv(pools, ops, j - 1);
      FrozenStays(pools[j - 1], ops[j - 1], pools[j], id);
    }
  }

  // ---- Acquiring ----

  /** A frozen account has no cooldown to resume, so unfreezing always makes it active. */
  lemma UnfreezeActivates(p: Pool, id: string, now: Time)
    requires Inv(p) && IsFrozen(p, id)
    ensures After(p, Unfreeze(id, now)).accounts[id].state.Active?
  {
  }

  /** Main result: a chat that is not locked and keeps no account gets one that no healthy
      account precedes; it gains exactly one turn and nothing else changes but finished
      cooldowns and the chat's assignment. */
  lemma AcquireTakesFirst(p: Pool, key: ChatKey, now: Time, p': Pool, got: Result<Profile, PoolError>)
    requires Inv(p) && Acquires(p, key, now, p', got) && got.Ok?
    requires PinnedTo(p, key).None? && Kept(p.Reap(now), key, now).None?
    ensures var id := got.value.id;
      && id in p.accounts && Healthy(Swept(p.accounts[id], now), now)
      && (forall other :: other in p.accounts && Healthy(Swept(p.accounts[other], now), now) ==>
            !Precedes(Swept(p.accounts[other], now), Swept(p.accounts[id], now)))
      && p'.accounts == Sweep(p.accounts, now)[id := Leased(Swept(p.accounts[id], now), now)]
      && p'.active == p.active[key := id] && p'.pinned == p.pinned
  {
    var q := p.Reap(now);
    SweepKeepsInv(p, now);
    assert PinnedTo(q, key).None?;
    var id :| First(q.accounts, now, id) && Takes(q, key, id, now, p', got);
    forall other | other in p.accounts && Healthy(Swept(p.accounts[other], now), now)
      ensures !Precedes(Swept(p.accounts[other], now), Swept(p.accounts[id], now))
    {
      assert other in q.accounts && id in q.accounts;
      BeforeIsPrecedes(q.accounts[other], q.accounts[id]);
    }
  }

  /** Main result: a chat that is not locked gets an account if and only if one is healthy
      once finished cooldowns have ended. */
  lemma AcquireSucceedsIff(p: Pool, key: ChatKey, now: Time, p': Pool, got: Result<Profile, PoolError>)
    requires Inv(p) && Acquires(p, key, now, p', got) && PinnedTo(p, key).None?
    ensures got.Ok? <==> HealthyIds(p.Reap(now), now) != {}
  {
    var q := p.Reap(now);
    assert PinnedTo(q, key).None?;
    assert Kept(q, key, now).Some? ==> Kept(q, key, now).value in HealthyIds(q, now);
  }

  /** A positive count means the next acquisition at that instant succeeds. */
  lemma CountPromises(p: Pool, key: ChatKey, now: Time, p': Pool, got: Result<Profile, PoolError>)
    requires Inv(p) && Acquires(p, key, now, p', got) && PinnedTo(p, key).None?
    requires |HealthyIds(p, now)| > 0
    ensures got.Ok?
  {
    var id :| id in HealthyIds(p, now);
    assert id in HealthyIds(p.Reap(now), now);
    AcquireSucceedsIff(p, key, now, p', got);
  }

  /** Main result: a refresh whose report shows the Gemini weekly window used up rests the
      account until exactly the weekly reset, and a 429 handled at that instant leaves the
      end where it is; a frozen account keeps its state. */
  lemma WeeklyRest(p: Pool, id: string, groups: seq<Group>, now: Time)
    requires id in p.accounts
    requires Latest(groups, GeminiWeekly).Some? && UsedUp(Latest(groups, GeminiWeekly).value)
    requires Ahead(Latest(groups, GeminiWeekly).value.resetTime, now)
    ensures var q := Usage(groups, now);
      var rested := p.Refresh(id, q, now).accounts[id];
      var again := p.Refresh(id, q, now).MarkCooldown(id, PauseAfter429(Some(q), now), now).accounts[id];
      if p.accounts[id].state.Frozen? then rested.state.Frozen? && again == rested
      else rested.state.Cooldown? && again.state.Cooldown?
           && rested.cooldownUntil == again.cooldownUntil == Latest(groups, GeminiWeekly).value.resetTime
  {
    WeeklyDecides(groups, now);
    PauseAgrees(Usage(groups, now), now);
  }

  /** At the very end of a cooldown a locked chat gets its account, but no other chat can. */
  lemma CooldownEnd(p: Pool, key: ChatKey, id: string, p': Pool, got: Result<Profile, PoolError>)
    requires Inv(p) && id in p.accounts && p.accounts[id].state.Cooldown?
    requires Acquires(p, key, p.accounts[id].cooldownUntil, p', got)
    ensures PinnedTo(p, key) == Some(id) ==> got.Ok? && got.value.id == id
    ensures PinnedTo(p, key).None? && got.Ok? ==> got.value.id != id
  {
    var now := p.accounts[id].cooldownUntil;
    var q := p.Reap(now);
    assert q.accounts[id] == p.accounts[id] && PinnedTo(q, key) == PinnedTo(p, key);
    if PinnedTo(p, key).None? && got.Ok? {
      NotWhileCooling(q, key, now, id, p', got);
    }
  }

  lemma NotWhileCooling(q: Pool, key: ChatKey, now: Time, id: string, p': Pool, got: Result<Profile, PoolError>)
    requires forall other :: other in q.accounts ==> q.accounts[other].id == other
    requires id in q.accounts && q.accounts[id].state.Cooldown? && PinnedTo(q, key).None?
    requires AcquiresAwake(q, key, now, p', got) && got.Ok?
    ensures got.value.id != id
  {
    if Kept(q, key, now).None? {
      var taken :| First(q.accounts, now, taken) && Takes(q, key, taken, now, p', got);
    }
  }
}
