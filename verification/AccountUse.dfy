/** Who gets which account, and when: what locking, switching, freezing, deleting and resting
    mean for the acquisitions that follow (account_pool.go). */
module AccountUse {
  import opened Accounts
  import opened Identity
  import opened Quotas
  import opened Results
  import opened Text

  // ---- Locked chats ----

  /** The chat itself is locked to a registered account. */
  predicate LockedAt(p: Pool, key: ChatKey, id: string) {
    key in p.pinned && p.pinned[key] == id && id in p.accounts
  }

  /** Two chats share a key if and only if they have the same number and, up to white space around
      it, the same bot name; a blank name is the bare key. */
  lemma KeysAgreeIff(chat: int, bot: string, chat': int, bot': string)
    ensures KeyOf(chat, bot) == KeyOf(chat', bot') <==> chat == chat' && TrimSpace(bot) == TrimSpace(bot')
    ensures KeyOf(chat, bot).Bare? <==> AllSpace(bot)
  {
    TrimmedAwayIff(bot);
  }

  /** Locking is refused for unknown and frozen accounts, and changes nothing else. */
  lemma PinLocks(p: Pool, key: ChatKey, id: string)
    ensures var p' := p.Pin(key, id);
      && p'.accounts == p.accounts
      && (forall k :: k != key ==> (k in p'.pinned <==> k in p.pinned) && (k in p'.active <==> k in p.active))
      && (forall k :: k != key && k in p.pinned ==> p'.pinned[k] == p.pinned[k])
      && (forall k :: k != key && k in p.active ==> p'.active[k] == p.active[k])
      && if id in p.accounts && p.accounts[id].state != Frozen
         then LockedAt(p', key, id) && key in p'.active && p'.active[key] == id else p' == p
  {
  }

  /** The next acquisition of a locked chat returns its account, unless that is frozen or its
      cooldown has not ended, and never another one. */
  lemma LockedAcquires(p: Pool, key: ChatKey, id: string, now: Time, p': Pool, got: Result<Profile, PoolError>)
    requires Inv(p) && LockedAt(p, key, id) && Acquires(p, key, now, p', got)
    ensures var a := p.accounts[id];
      && (got == Err(AccountFrozen) <==> a.state == Frozen)
      && (got == Err(AccountInCooldown) <==> a.state == Cooldown && now < a.cooldownUntil)
      && (got.Err? ==> got.error == AccountFrozen || got.error == AccountInCooldown)
      && (got.Ok? ==> got.value == a.(turns := a.turns + 1, lastUsed := now, state := InUse,
                                      cooldownUntil := got.value.cooldownUntil))
  {
    SweptSound(id, p.accounts[id], now);
    assert PinnedTo(p.Reap(now), key) == Some(id);
  }

  /** A chat of a bot without a lock of its own follows the lock of the bare chat. */
  lemma BareLockCounts(p: Pool, bot: string, chat: int, now: Time, p': Pool, got: Result<Profile, PoolError>)
    requires Inv(p) && Scoped(bot, chat) !in p.pinned && Bare(chat) in p.pinned
    requires Acquires(p, Scoped(bot, chat), now, p', got)
    ensures got.Ok? ==> got.value.id == p.pinned[Bare(chat)]
  {
    var id := p.pinned[Bare(chat)];
    SweptSound(id, p.accounts[id], now);
    assert PinnedTo(p.Reap(now), Scoped(bot, chat)) == Some(id);
  }

  /** The operations that can end the lock of a chat on an account. */
  predicate EndsLock(op: Op, key: ChatKey, id: string) {
    || (op.Pin? && op.key == key && op.id != id)
    || (op.Unpin? && (op.key == key || (op.key.Scoped? && key == Bare(op.key.chat))))
    || (op.Delete? && op.id == id)
  }

  lemma LockHolds(p: Pool, op: Op, p': Pool, key: ChatKey, id: string)
    requires Inv(p) && Step(p, op, p') && LockedAt(p, key, id) && !EndsLock(op, key, id)
    ensures LockedAt(p', key, id)
    ensures op.Acquire? && op.key == key && op.got.Ok? ==> op.got.value.id == id
  {
    if op.Acquire? {
      var taken := TakenOrNot(p, op.key, op.now, p', op.got);
      if op.key == key {
        LockedAcquires(p, key, id, op.now, p', op.got);
      }
    }
  }

  /** Main result, over runs: from an accepted lock on, until an operation that ends it, every
      acquisition of the chat returns the account it is locked to, or an error. */
  lemma {:induction false} LockThroughRun(pools: seq<Pool>, ops: seq<Op>, i: nat, j: nat, key: ChatKey, id: string)
    requires Run(pools, ops) && i <= j < |pools| && LockedAt(pools[i], key, id)
    requires forall k :: i <= k < j ==> !EndsLock(ops[k], key, id)
    ensures LockedAt(pools[j], key, id)
    ensures forall k :: i <= k < j && ops[k].Acquire? && ops[k].key == key && ops[k].got.Ok? ==>
      ops[k].got.value.id == id
    decreases j
  {
    if i < j {
      LockThroughRun(pools, ops, i, j - 1, key, id);
      RunKeepsInv(pools, ops, j - 1);
      hide Step, Inv, LockedAt, EndsLock;
      LockHolds(pools[j - 1], ops[j - 1], pools[j], key, id);
    }
  }

  /** Unlocking frees the chat, and with it the bare chat it may have followed, and no other. */
  lemma UnpinUnlocks(p: Pool, key: ChatKey)
    ensures var p' := p.Unpin(key);
      && PinnedTo(p', key).None? && key !in p'.pinned
      && (key.Scoped? ==> Bare(key.chat) !in p'.pinned)
      && (forall k :: k in p'.pinned ==> k in p.pinned && p'.pinned[k] == p.pinned[k])
      && (forall k :: k in p.pinned && k != key && (key.Bare? || k != Bare(key.chat)) ==> k in p'.pinned)
      && p'.accounts == p.accounts && p'.active == p.active
  {
  }

  // ---- Assigned chats ----

  /** The Gemini windows of the account are known to be off and not known to be back. */
  predicate Off(a: Profile, now: Time) {
    && a.quota.fetchedAt != 0 && (a.quota.gemini5h.disabled || a.quota.geminiWeekly.disabled)
    && (a.quota.geminiWeekly.resetTime == 0 || now < a.quota.geminiWeekly.resetTime)
  }

  /** Nobody has a turn on the account: it is active, or its cooldown is over. */
  predicate Free(a: Profile, now: Time) {
    a.state == Active || (a.state == Cooldown && a.cooldownUntil < now)
  }

  predicate AssignedTo(p: Pool, key: ChatKey, id: string) {
    key in p.active && p.active[key] == id && id in p.accounts
  }

  /** A chat that is not locked stays on its account whenever that is free and not off. */
  lemma KeepsAccount(p: Pool, key: ChatKey, id: string, now: Time, p': Pool, got: Result<Profile, PoolError>)
    requires Inv(p) && Acquires(p, key, now, p', got) && PinnedTo(p, key).None? && AssignedTo(p, key, id)
    requires Free(p.accounts[id], now) && !Off(p.accounts[id], now)
    ensures got.Ok? && got.value.id == id && got.value.turns == p.accounts[id].turns + 1
    ensures AssignedTo(p', key, id) && p'.accounts[id] == got.value
  {
    var q := p.Reap(now);
    SweptSound(id, p.accounts[id], now);
    assert PinnedTo(q, key).None? && Kept(q, key, now) == Some(id);
  }

  /** Releasing an acquired account gives back its turns; it is active again once it has none. */
  lemma ReleaseUndoesAcquire(p: Pool, key: ChatKey, now: Time, p': Pool, got: Result<Profile, PoolError>)
    requires Inv(p) && Acquires(p, key, now, p', got) && got.Ok?
    ensures var id := got.value.id;
      && id in p.accounts && id in p'.accounts && p'.accounts[id] == got.value
      && (forall other :: other in p.accounts && other != id ==> p'.Release(id).accounts[other] == p'.accounts[other])
      && var back := p'.Release(id).accounts[id];
         back.turns == p.accounts[id].turns && (back.state == if back.turns == 0 then Active else InUse)
         && back.quota == p.accounts[id].quota
    ensures AssignedTo(p', key, got.value.id) && p'.pinned == p.pinned
  {
    var id := TakenOrNot(p, key, now, p', got);
    SweptSound(id, p.accounts[id], now);
  }

  /** Main result: a chat that releases a free account and comes back gets the same one again,
      however many others are less used, unless its windows are off by then. */
  lemma ReacquiresSame(p: Pool, key: ChatKey, now: Time, p1: Pool, got: Result<Profile, PoolError>, later: Time,
                       p2: Pool, again: Result<Profile, PoolError>)
    requires Inv(p) && Acquires(p, key, now, p1, got) && got.Ok? && PinnedTo(p, key).None?
    requires Acquires(p1.Release(got.value.id), key, later, p2, again)
    requires got.value.turns == 1 && !Off(got.value, later)
    ensures again.Ok? && again.value.id == got.value.id
  {
    var id, q := got.value.id, p1.Release(got.value.id);
    ReleaseUndoesAcquire(p, key, now, p1, got);
    AcquireKeepsInv(p, key, now, p1, got);
    var op := Op.Release(id);
    StepKeepsInv(p1, op, q);
    assert PinnedTo(q, key).None? by {
      var _ := TakenOrNot(p, key, now, p1, got);
    }
    KeepsAccount(q, key, id, later, p2, again);
  }

  /** Switching is refused for unknown, frozen and resting accounts. */
  lemma SwitchAssignsIff(p: Pool, key: ChatKey, id: string, now: Time)
    requires !AssignedTo(p, key, id)
    ensures AssignedTo(p.Switch(key, id, now), key, id) <==>
      id in p.accounts && p.accounts[id].state != Frozen
      && !(p.accounts[id].state == Cooldown && now < p.accounts[id].cooldownUntil)
    ensures p.Switch(key, id, now).accounts == p.accounts && p.Switch(key, id, now).pinned == p.pinned
    ensures forall k :: k != key ==>
      (k in p.Switch(key, id, now).active <==> k in p.active)
      && (k in p.active ==> p.Switch(key, id, now).active[k] == p.active[k])
  {
  }

  // ---- Frozen and deleted accounts ----

  /** Freezing takes the account from every chat that is assigned to it, but not from those that
      are locked to it: they get an error until it is unfrozen. */
  lemma FreezeDisconnects(p: Pool, id: string)
    requires Inv(p) && id in p.accounts
    ensures var p' := p.Freeze(id);
      && IsFrozen(p', id) && p'.accounts[id].turns == 0 && p'.accounts[id].cooldownUntil == 0
      && p'.accounts.Keys == p.accounts.Keys
      && (forall other :: other in p.accounts && other != id ==> p'.accounts[other] == p.accounts[other])
      && (forall k :: k in p'.active <==> k in p.active && p.active[k] != id)
      && (forall k :: k in p'.active ==> p'.active[k] == p.active[k]) && p'.pinned == p.pinned
  {
  }

  lemma FrozenLockFails(p: Pool, id: string, key: ChatKey, now: Time, p': Pool, got: Result<Profile, PoolError>)
    requires Inv(p) && LockedAt(p, key, id) && Acquires(p.Freeze(id), key, now, p', got)
    ensures got == Err(AccountFrozen)
  {
    FreezeKeepsInv(p, id);
    LockedAcquires(p.Freeze(id), key, id, now, p', got);
  }

  /** Unfreezing gives the account back with no turns and nothing to wait for. */
  lemma UnfreezeUndoesFreeze(p: Pool, id: string, now: Time)
    requires Inv(p) && id in p.accounts
    ensures var a := p.Freeze(id).Unfreeze(id, now).accounts[id];
      a == p.accounts[id].(state := Active, turns := 0, cooldownUntil := 0)
  {
    FreezeKeepsInv(p, id);
  }

  /** An account can be deleted if and only if it is not in use and its home is inside the
      accounts directory; no chat refers to it afterwards, and nothing else changes. */
  lemma DeleteForgets(p: Pool, id: string, homeIsInside: bool)
    requires id in p.accounts
    ensures var p' := p.Delete(id, homeIsInside);
      if p.accounts[id].state != InUse && homeIsInside then
        && p'.accounts.Keys == p.accounts.Keys - {id}
        && (forall other :: other in p'.accounts ==> p'.accounts[other] == p.accounts[other])
        && (forall k :: k in p'.pinned <==> k in p.pinned && p.pinned[k] != id)
        && (forall k :: k in p'.active <==> k in p.active && p.active[k] != id)
        && (forall k :: k in p'.pinned ==> p'.pinned[k] == p.pinned[k])
        && (forall k :: k in p'.active ==> p'.active[k] == p.active[k])
      else p' == p
  {
  }

  // ---- Resting accounts ----

  /** How long a rest lasts: until its end for a chat that is not locked, a minute after it began
      when no duration was given. */
  lemma RestLasts(p: Pool, id: string, duration: Time, now: Time, later: Time)
    requires id in p.accounts && p.accounts[id].state != Frozen
    ensures var a := p.MarkCooldown(id, duration, now).accounts[id];
      && a.state == Cooldown && a.turns == 0 && a.errors == p.accounts[id].errors + 1
      && (Healthy(Swept(a, later), later) <==>
            later > now + (if duration > 0 then duration else 60_000_000_000) && !Off(a, later))
  {
  }

  /** Main result: a chat that is not locked is served as soon as some account is past the end of
      its cooldown and not off; when no other is fit, by that account. */
  lemma RestedReturns(p: Pool, key: ChatKey, id: string, now: Time, p': Pool, got: Result<Profile, PoolError>)
    requires Inv(p) && Acquires(p, key, now, p', got) && PinnedTo(p, key).None?
    requires id in p.accounts && p.accounts[id].state == Cooldown && p.accounts[id].cooldownUntil < now
    requires !Off(p.accounts[id], now)
    ensures got.Ok? && got.value.state == InUse
    ensures (forall other :: other in p.accounts && other != id ==> !Healthy(Swept(p.accounts[other], now), now)) ==>
      got.value.id == id && got.value.cooldownUntil == 0
  {
    var q := p.Reap(now);
    assert id in HealthyIds(q, now);
    AcquireSucceedsIff(p, key, now, p', got);
    var taken := UnlockedIsFit(p, key, now, p', got);
  }

  /** Main result: a chat that is not locked never gets an account that is frozen, expired, in a
      cooldown that has not ended, or off. */
  lemma UnlockedIsFit(p: Pool, key: ChatKey, now: Time, p': Pool, got: Result<Profile, PoolError>)
    returns (id: string)
    requires Inv(p) && Acquires(p, key, now, p', got) && PinnedTo(p, key).None? && got.Ok?
    ensures id == got.value.id && id in p.accounts && !Off(p.accounts[id], now)
    ensures var a := p.accounts[id];
      a.state == Active || a.state == InUse || (a.state == Cooldown && a.cooldownUntil < now)
    ensures var a := p.accounts[id];
      got.value == a.(turns := a.turns + 1, lastUsed := now, state := InUse,
                      cooldownUntil := if a.state == Cooldown then 0 else a.cooldownUntil)
    ensures Healthy(Swept(p.accounts[id], now), now)
  {
    var q := p.Reap(now);
    assert PinnedTo(q, key).None?;
    id := got.value.id;
    if Kept(q, key, now).Some? {
      SweptSound(Kept(q, key, now).value, p.accounts[Kept(q, key, now).value], now);
    } else {
      AcquireTakesFirst(p, key, now, p', got);
    }
  }

  /** Main result: when a chat that is not locked gets nothing, the error says to wait if and only
      if some account is in a cooldown or off; otherwise all are frozen or expired, or none is
      registered. */
  lemma ErrorSaysWaitIff(p: Pool, key: ChatKey, now: Time, p': Pool, got: Result<Profile, PoolError>)
    requires Inv(p) && Acquires(p, key, now, p', got) && PinnedTo(p, key).None? && got.Err?
    ensures got.error == AllAccountsCooldown || got.error == NoAccountsAvailable
    ensures got.error == AllAccountsCooldown <==>
      exists id :: id in p.accounts && (p.accounts[id].state == Cooldown
        || ((p.accounts[id].state == Active || p.accounts[id].state == InUse) && Off(p.accounts[id], now)))
    ensures got.error == NoAccountsAvailable <==>
      forall id :: id in p.accounts ==> p.accounts[id].state == Frozen || p.accounts[id].state == Expired
  {
    AcquireSucceedsIff(p, key, now, p', got);
    forall id | id in p.accounts ensures p.accounts[id].state == Frozen || p.accounts[id].state == Expired
      <==> id !in WaitingIds(p.Reap(now), now)
    {
      UnfitWaitsIff(p, id, now);
    }
    ErrorIs(p, key, now, p', got);
    hide Acquires, PinnedTo, Inv, HealthyIds;
    if id :| id in WaitingIds(p.Reap(now), now) {
      assert id in p.accounts;
      UnfitWaitsIff(p, id, now);
    }
  }

  lemma ErrorIs(p: Pool, key: ChatKey, now: Time, p': Pool, got: Result<Profile, PoolError>)
    requires Acquires(p, key, now, p', got) && PinnedTo(p, key).None? && got.Err?
    ensures got.error == if WaitingIds(p.Reap(now), now) != {} then AllAccountsCooldown else NoAccountsAvailable
  {
    assert PinnedTo(p.Reap(now), key).None?;
    assert p.accounts == map[] ==> WaitingIds(p.Reap(now), now) == {};
  }

  /** Of the accounts that are not fit, those that are not frozen or expired wait. */
  lemma UnfitWaitsIff(p: Pool, id: string, now: Time)
    requires id in p.accounts && HealthyIds(p.Reap(now), now) == {}
    ensures var a := p.accounts[id];
      && (id in WaitingIds(p.Reap(now), now) <==> a.state != Frozen && a.state != Expired)
      && (id in WaitingIds(p.Reap(now), now) <==>
            a.state == Cooldown || ((a.state == Active || a.state == InUse) && Off(a, now)))
  {
    assert id !in HealthyIds(p.Reap(now), now);
    assert p.Reap(now).accounts[id] == Swept(p.accounts[id], now);
  }

  /** Clearing a cooldown makes the account fit at once, unless it is off. */
  lemma ClearMakesFit(p: Pool, id: string, now: Time)
    requires id in p.accounts && p.accounts[id].state != Frozen
    ensures var p' := p.ClearCooldown(id);
      && p' == p.Put(id, p.accounts[id].(state := Active, cooldownUntil := 0))
      && (id in HealthyIds(p', now) <==> !Off(p.accounts[id], now))
  {
  }

  /** A refresh that finds quota ends a cooldown; one that finds none left starts a rest that ends
      in the future, and leaves the turns in progress alone. */
  lemma RefreshMoves(p: Pool, id: string, q: Quota, now: Time)
    requires id in p.accounts && p.accounts[id].state != Frozen
    ensures var a, b := p.accounts[id], p.Refresh(id, q, now).accounts[id];
      && b.quota == q && b.turns == a.turns && b.errors == a.errors && b.lastUsed == a.lastUsed
      && (Judge(q, now).RestUntil? ==>
            b.state == Cooldown && b.cooldownUntil == Judge(q, now).until && now < b.cooldownUntil)
      && (Judge(q, now).Recover? && a.state == Cooldown ==> b.state == Active && b.cooldownUntil == 0)
      && (Judge(q, now).Keep? || (Judge(q, now).Recover? && a.state != Cooldown) ==> b == a.(quota := q))
  {
    PauseAgrees(q, now);
  }

  // ---- Ingesting ----

  /** The id an e-mail is ingested under: its account's, or else the first free one. */
  ghost predicate IngestsAs(p: Pool, email: string, id: string) {
    if id in p.accounts then SameEmail(p.accounts[id].email, email)
    else FirstFree(p.accounts.Keys, Slug(email), id)
         && forall k :: k in p.accounts ==> !SameEmail(p.accounts[k].email, email)
  }

  /** No two accounts have the same e-mail. */
  ghost predicate OnePerEmail(p: Pool) {
    forall a, b :: a in p.accounts && b in p.accounts && SameEmail(p.accounts[a].email, p.accounts[b].email) ==> a == b
  }

  /** Ingesting changes one account: a stored one is active with nothing to wait for, a new one has
      no turns, and a known one keeps its turns and its quota. */
  lemma IngestIs(p: Pool, email: string, id: string, home: string, stored: bool, now: Time)
    requires IngestsAs(p, email, id)
    ensures var p' := p.Ingest(id, Newcomer(id, email, home, now), stored);
      && p'.pinned == p.pinned && p'.active == p.active && p'.accounts.Keys == p.accounts.Keys + {id}
      && (forall k :: k in p.accounts && k != id ==> p'.accounts[k] == p.accounts[k])
      && (stored ==> p'.accounts[id].state == Active && p'.accounts[id].cooldownUntil == 0)
      && (id in p.accounts ==> p'.accounts[id].(state := Active, cooldownUntil := 0)
                               == p.accounts[id].(state := Active, cooldownUntil := 0))
      && (id in p.accounts && !stored ==> p' == p)
      && (id !in p.accounts ==>
            p'.accounts[id] == Profile(id, email, home, Active, 0, 0, 0, now, p'.accounts[id].quota)
            && p'.accounts[id].quota.fetchedAt == 0)
  {
  }

  /** Main result: an e-mail that is ingested again, in whatever case, is the same account, and no
      two accounts ever share one. */
  lemma IngestTwice(p: Pool, email: string, id: string, home: string, stored: bool, now: Time, email': string,
                    id': string)
    requires OnePerEmail(p) && IngestsAs(p, email, id) && SameEmail(email, email')
    ensures var p' := p.Ingest(id, Newcomer(id, email, home, now), stored);
      OnePerEmail(p') && (IngestsAs(p', email', id') <==> id' == id)
  {
    hide Slug, FirstFree;
    IngestIs(p, email, id, home, stored, now);
    var p' := p.Ingest(id, Newcomer(id, email, home, now), stored);
    assert forall k :: k in p.accounts ==> p'.accounts[k].email == p.accounts[k].email;
    assert id in p'.accounts && SameEmail(p'.accounts[id].email, email');
  }
}
