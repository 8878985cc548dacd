/** The account pool of account_pool.go: accounts are objects updated in place, shared by
    the three maps only through their ids. Every method is proved against the operation
    of the same name in Accounts.dfy and so keeps the pool invariants. */
module AccountPools {
  import opened Accounts
  import opened Identity
  import opened Migration
  import opened Quotas
  import opened Results
  import opened Text

  class Account {
    var id: string
    var email: string
    var homeDir: string
    var state: State
    var cooldownUntil: Time
    var turns: int
    var errors: int
    var lastUsed: Time
    var quota: Quota

    /** The copy handed to callers. */
    function Snapshot(): Profile
      reads this
    {
      Profile(id, email, homeDir, state, cooldownUntil, turns, errors, lastUsed, quota)
    }

    constructor (p: Profile)
      ensures Snapshot() == p
    {
      id, email, homeDir, state, cooldownUntil := p.id, p.email, p.homeDir, p.state, p.cooldownUntil;
      turns, errors, lastUsed, quota := p.turns, p.errors, p.lastUsed, p.quota;
    }

    /** The recovery step of every sweep. */
    method EndCooldown(now: Time) returns (ended: bool)
      modifies this
      ensures Snapshot() == Swept(old(Snapshot()), now)
      ensures ended == Finished(old(Snapshot()), now) && id == old(id)
    {
      ended := state.Cooldown? && now > cooldownUntil;
      if ended {
        state := Active;
        cooldownUntil := 0;
      }
    }

    /** What FreezeAccount does to the account. */
    method Ice()
      modifies this
      ensures Snapshot() == Iced(old(Snapshot()))
    {
      state := Frozen;
      turns := 0;
      cooldownUntil := 0;
    }

    /** The decision part of FetchAccountQuotas. */
    method TakeQuota(q: Quota, now: Time)
      modifies this
      ensures Snapshot() == Refreshed(old(Snapshot()), q, now)
    {
      quota := q;
      if state.Frozen? {
        return;
      }
      if !q.gemini5h.disabled && q.gemini5h.fraction == 0.0 && Ahead(q.gemini5h.resetTime, now) {
        state := Cooldown;
        cooldownUntil := q.gemini5h.resetTime;
      } else if UsedUp(q.geminiWeekly) && Ahead(q.geminiWeekly.resetTime, now) {
        state := Cooldown;
        cooldownUntil := q.geminiWeekly.resetTime;
      } else if q.gemini5h.disabled || q.geminiWeekly.disabled {
        state := Cooldown;
        cooldownUntil := if Ahead(q.geminiWeekly.resetTime, now) then q.geminiWeekly.resetTime else now + HOUR;
      } else if state.Cooldown? && q.gemini5h.fraction > 0.05 {
        state := Active;
        cooldownUntil := 0;
      }
    }
  }

  class AccountPool {
    var accounts: map<string, Account>
    var pinnedChat: map<ChatKey, string>
    var activeChat: map<ChatKey, string>

    ghost function View(): Pool
      reads this, accounts.Values
    {
      Pool(map id | id in accounts :: accounts[id].Snapshot(), pinnedChat, activeChat)
    }

    /** Every account is registered under its own id, so no two entries share an object.
        The other pool invariants are kept by every operation: Accounts.StepKeepsInv. */
    ghost predicate Valid()
      reads this, accounts.Values
    {
      forall id :: id in accounts ==> accounts[id].id == id
    }

    constructor ()
      ensures Valid() && View() == Pool(map[], map[], map[])
    {
      accounts, pinnedChat, activeChat := map[], map[], map[];
    }

    // ---- Turns ----

    /** One turn of the sweep. */
    method Wake(id: string, now: Time) returns (over: bool)
      requires Valid() && id in accounts
      modifies accounts[id]
      ensures Valid() && id in old(View()).accounts && over == Finished(old(View()).accounts[id], now)
      ensures View() == old(View()).Put(id, Swept(old(View()).accounts[id], now))
    {
      over := accounts[id].EndCooldown(now);
      assert View().accounts == old(View().accounts)[id := Swept(old(View()).accounts[id], now)];
    }

    /** Ends finished cooldowns; returns the accounts that recovered. */
    method SweepCooldowns(now: Time) returns (ended: set<string>)
      requires Valid()
      modifies accounts.Values
      ensures Valid() && View() == old(View()).Reap(now)
      ensures ended == FinishedIds(old(View()), now)
    {
      ended := {};
      var todo := accounts.Keys;
      ghost var was := View();
      assert was.accounts.Keys == accounts.Keys && SweptBut(was.accounts, was.accounts, todo, now);
      hide Valid;
      hide View;
      hide SweptBut;
      hide Swept;
      hide Finished;
      while todo != {}
        invariant todo <= accounts.Keys && Valid() && SweptBut(was.accounts, View().accounts, todo, now)
        invariant View() == was.(accounts := View().accounts)
        invariant forall id :: id in ended <==> id in was.accounts && id !in todo && Finished(was.accounts[id], now)
        decreases todo
      {
        var id :| id in todo;
        SweepOne(was.accounts, View().accounts, todo, id, now);
        var over := Wake(id, now);
        todo := todo - {id};
        if over {
          ended := ended + {id};
        }
      }
      SweepIs(was.accounts, View().accounts, now);
    }

    /** The reaper tick: the recovered accounts are handed to the notifications. */
    method Reap(now: Time) returns (recovered: map<string, Profile>)
      requires Valid()
      modifies accounts.Values
      ensures Valid() && View() == old(View()).Reap(now)
      ensures recovered == map id | id in FinishedIds(old(View()), now) :: View().accounts[id]
    {
      var ended := SweepCooldowns(now);
      recovered := map id | id in ended :: accounts[id].Snapshot();
    }

    method Lease(key: ChatKey, id: string, now: Time) returns (got: Result<Profile, PoolError>)
      requires Valid() && id in accounts
      modifies this`activeChat, accounts.Values
      ensures Valid() && accounts == old(accounts)
      ensures Takes(old(View()), key, id, now, View(), got)
    {
      var acc := accounts[id];
      acc.turns := acc.turns + 1;
      acc.lastUsed := now;
      acc.state := InUse;
      activeChat := activeChat[key := acc.id];
      var leased := acc.Snapshot();
      assert View().accounts == old(View().accounts)[id := leased];
      got := Ok(leased);
    }

    /** The healthy accounts, and whether some other account may become healthy. */
    method Candidates(now: Time) returns (fit: set<string>, waiting: bool)
      ensures fit == HealthyIds(View(), now)
      ensures waiting <==> WaitingIds(View(), now) != {}
    {
      fit, waiting := {}, false;
      var todo := accounts.Keys;
      while todo != {}
        invariant todo <= accounts.Keys
        invariant forall id :: id in fit <==> id in accounts && id !in todo && Healthy(accounts[id].Snapshot(), now)
        invariant waiting <==> WaitingIds(View(), now) - todo != {}
        decreases todo
      {
        var id :| id in todo;
        todo := todo - {id};
        var acc := accounts[id].Snapshot();
        if acc.state.Active? || acc.state.InUse? {
          if Blocked(acc, now) {
            waiting := true;
          } else {
            fit := fit + {id};
          }
        } else if acc.state.Cooldown? {
          waiting := true;
        }
      }
    }

    /** Some candidate that sort.Slice may put first. */
    method PickFirst(fit: set<string>) returns (best: string)
      requires Inv(View()) && fit != {} && fit <= accounts.Keys
      ensures best in fit
      ensures forall id :: id in fit ==> !Before(accounts[id].Snapshot(), accounts[best].Snapshot())
    {
      best :| best in fit;
      var todo := fit - {best};
      while todo != {}
        invariant best in fit && todo <= fit
        invariant forall id :: id in fit - todo ==> !Before(accounts[id].Snapshot(), accounts[best].Snapshot())
        decreases todo
      {
        var id :| id in todo;
        todo := todo - {id};
        if Before(accounts[id].Snapshot(), accounts[best].Snapshot()) {
          StillFirst(fit - todo, best, id);
          best := id;
        }
      }
    }

    /** No seen account comes before one that comes before the best so far. */
    lemma StillFirst(seen: set<string>, best: string, id: string)
      requires Inv(View()) && seen <= accounts.Keys && best in accounts && id in accounts
      requires Before(accounts[id].Snapshot(), accounts[best].Snapshot())
      requires forall k :: k in seen - {id} ==> !Before(accounts[k].Snapshot(), accounts[best].Snapshot())
      ensures forall k :: k in seen ==> !Before(accounts[k].Snapshot(), accounts[id].Snapshot())
    {
      var v := View().accounts;
      forall k | k in seen ensures !Before(accounts[k].Snapshot(), accounts[id].Snapshot()) {
        assert v[k] == accounts[k].Snapshot() && v[id] == accounts[id].Snapshot()
            && v[best] == accounts[best].Snapshot();
        StrictWeakOrder(v[k], v[id], v[best]);
      }
    }

    /** AcquireAccount. */
    method Acquire(chat: int, bot: string, now: Time) returns (got: Result<Profile, PoolError>)
      requires Valid() && Inv(View()) && now > 0
      modifies this`activeChat, accounts.Values
      ensures Valid() && Step(old(View()), Op.Acquire(KeyOf(chat, bot), now, got), View())
    {
      if accounts == map[] {
        return Err(NoAccountsAvailable);
      }
      var _ := SweepCooldowns(now);
      SweepKeepsInv(old(View()), now);
      got := AcquireAwake(KeyOf(chat, bot), now);
    }

    method AcquirePinned(key: ChatKey, id: string, now: Time) returns (got: Result<Profile, PoolError>)
      requires Valid() && id in accounts
      modifies this`activeChat, accounts.Values
      ensures Valid() && accounts == old(accounts)
      ensures AcquiresPinned(old(View()), key, id, now, View(), got)
    {
      var acc := accounts[id];
      if acc.state.Frozen? {
        return Err(AccountFrozen);
      }
      if acc.state.Cooldown? && now < acc.cooldownUntil {
        return Err(AccountInCooldown);
      }
      got := Lease(key, id, now);
    }

    method AcquireAwake(key: ChatKey, now: Time) returns (got: Result<Profile, PoolError>)
      requires Valid() && Inv(View())
      modifies this`activeChat, accounts.Values
      ensures Valid() && accounts == old(accounts)
      ensures AcquiresAwake(old(View()), key, now, View(), got)
    {
      ghost var before := View();
      var pinned := Resolve(pinnedChat, key);
      if pinned.Some? && pinned.value in accounts {
        got := AcquirePinned(key, pinned.value, now);
        ByPin(before, key, pinned.value, now, View(), got);
        return;
      }
      var current := Resolve(activeChat, key);
      if current.Some? && current.value in accounts {
        var acc := accounts[current.value].Snapshot();
        if acc.state.Active? && !Blocked(acc, now) {
          got := Lease(key, current.value, now);
          ByKeeping(before, key, current.value, now, View(), got);
          return;
        }
      }
      assert Kept(before, key, now).None?;
      got := Rotate(key, now);
      ByRotation(before, key, now, View(), got);
    }

    /** The rotation proper. */
    method Rotate(key: ChatKey, now: Time) returns (got: Result<Profile, PoolError>)
      requires Valid() && Inv(View())
      modifies this`activeChat, accounts.Values
      ensures Valid() && accounts == old(accounts)
      ensures Rotates(old(View()), key, now, View(), got)
    {
      var fit, waiting := Candidates(now);
      if fit == {} {
        return Err(if waiting then AllAccountsCooldown else NoAccountsAvailable);
      }
      var best := PickFirst(fit);
      assert First(View().accounts, now, best);
      got := Lease(key, best, now);
    }

    /** CountHealthyAccounts. */
    method CountHealthy(now: Time) returns (count: nat)
      ensures count == |HealthyIds(View(), now)|
    {
      count := 0;
      var todo := accounts.Keys;
      ghost var counted: set<string> := {};
      while todo != {}
        invariant todo <= accounts.Keys && count == |counted|
        invariant forall id :: id in counted <==> id in accounts && id !in todo && Healthy(accounts[id].Snapshot(), now)
        decreases todo
      {
        var id :| id in todo;
        todo := todo - {id};
        var acc := accounts[id];
        if !acc.state.Frozen? && !acc.state.Cooldown? && (acc.state.Active? || acc.state.InUse?) {
          if !Blocked(acc.Snapshot(), now) {
            count := count + 1;
            counted := counted + {id};
          }
        }
      }
      assert counted == HealthyIds(View(), now);
    }

    method Release(id: string)
      requires Valid()
      modifies accounts.Values
      ensures Valid() && View() == old(View()).Release(id)
    {
      if id !in accounts {
        return;
      }
      var acc := accounts[id];
      if acc.turns > 0 {
        acc.turns := acc.turns - 1;
      }
      if acc.turns == 0 && acc.state.InUse? {
        acc.state := Active;
      }
      assert View().accounts == old(View().accounts)[id := acc.Snapshot()];
    }

    // ---- Cooldowns and freezes ----

    method MarkCooldown(id: string, duration: Time, now: Time)
      requires Valid()
      modifies accounts.Values
      ensures Valid() && View() == old(View()).MarkCooldown(id, duration, now)
    {
      if id !in accounts || accounts[id].state.Frozen? {
        assert id in accounts ==> View().accounts[id := accounts[id].Snapshot()] == View().accounts;
        return;
      }
      var acc := accounts[id];
      var d := if duration <= 0 then MINUTE else duration;
      acc.state := Cooldown;
      acc.cooldownUntil := now + d;
      acc.errors := acc.errors + 1;
      acc.turns := 0;
      assert View().accounts == old(View().accounts)[id := acc.Snapshot()];
    }

    method ClearCooldown(id: string) returns (error: Option<PoolError>)
      requires Valid()
      modifies accounts.Values
      ensures Valid() && View() == old(View()).ClearCooldown(id)
      ensures error == if id !in accounts then Some(AccountNotFound)
                       else if IsFrozen(old(View()), id) then Some(AccountFrozen) else None
    {
      if id !in accounts {
        return Some(AccountNotFound);
      }
      var acc := accounts[id];
      if acc.state.Frozen? {
        return Some(AccountFrozen);
      }
      acc.state := Active;
      acc.cooldownUntil := 0;
      assert View().accounts == old(View().accounts)[id := acc.Snapshot()];
      error := None;
    }

    /** The loop that drops an account's entries from a chat map. */
    static method Drop(m: map<ChatKey, string>, id: string) returns (rest: map<ChatKey, string>)
      ensures rest == Without(m, id)
    {
      rest := m;
      var todo := m.Keys;
      while todo != {}
        invariant todo <= m.Keys
        invariant rest == map k | k in m && (k in todo || m[k] != id) :: m[k]
        decreases todo
      {
        var k :| k in todo;
        todo := todo - {k};
        if m[k] == id {
          rest := rest - {k};
        }
      }
    }

    method Freeze(id: string) returns (error: Option<PoolError>)
      requires Valid()
      modifies this`activeChat, accounts.Values
      ensures Valid() && View() == old(View()).Freeze(id)
      ensures error == if id !in accounts then Some(AccountNotFound) else None
    {
      if id !in accounts {
        return Some(AccountNotFound);
      }
      var acc := accounts[id];
      acc.Ice();
      assert View().accounts == old(View().accounts)[id := acc.Snapshot()];
      activeChat := Drop(activeChat, id);
      error := None;
    }

    method Unfreeze(id: string, now: Time) returns (error: Option<PoolError>)
      requires Valid()
      modifies accounts.Values
      ensures Valid() && View() == old(View()).Unfreeze(id, now)
      ensures error == if id !in accounts then Some(AccountNotFound)
                       else if !IsFrozen(old(View()), id) then Some(NotFrozen) else None
    {
      if id !in accounts {
        return Some(AccountNotFound);
      }
      var acc := accounts[id];
      if !acc.state.Frozen? {
        return Some(NotFrozen);
      }
      if acc.cooldownUntil != 0 && now < acc.cooldownUntil {
        acc.state := Cooldown;
      } else {
        acc.state := Active;
        acc.cooldownUntil := 0;
      }
      assert View().accounts == old(View().accounts)[id := acc.Snapshot()];
      error := None;
    }

    /** homeIsInside: the profile directory lies inside the accounts directory. */
    method Delete(id: string, homeIsInside: bool) returns (error: Option<PoolError>)
      requires Valid()
      modifies this
      ensures Valid() && View() == old(View()).Delete(id, homeIsInside)
      ensures error == if id !in old(accounts) then Some(AccountNotFound)
                       else if old(accounts[id].state).InUse? then Some(AccountInUse)
                       else if !homeIsInside then Some(BadHomeDir) else None
    {
      if id !in accounts {
        return Some(AccountNotFound);
      }
      if accounts[id].state.InUse? {
        return Some(AccountInUse);
      }
      if !homeIsInside {
        return Some(BadHomeDir);
      }
      pinnedChat := Drop(pinnedChat, id);
      activeChat := Drop(activeChat, id);
      accounts := accounts - {id};
      assert View().accounts == old(View()).accounts - {id};
      error := None;
    }

    // ---- Chats ----

    method Pin(chat: int, bot: string, id: string) returns (error: Option<PoolError>)
      requires Valid()
      modifies this`pinnedChat, this`activeChat
      ensures Valid() && View() == old(View()).Pin(KeyOf(chat, bot), id)
      ensures error == if id !in accounts then Some(AccountNotFound)
                       else if IsFrozen(View(), id) then Some(AccountFrozen) else None
    {
      if id !in accounts {
        return Some(AccountNotFound);
      }
      if accounts[id].state.Frozen? {
        return Some(AccountFrozen);
      }
      pinnedChat := pinnedChat[KeyOf(chat, bot) := id];
      activeChat := activeChat[KeyOf(chat, bot) := id];
      error := None;
    }

    method Unpin(chat: int, bot: string)
      requires Valid()
      modifies this`pinnedChat
      ensures Valid() && View() == old(View()).Unpin(KeyOf(chat, bot))
      ensures Resolve(pinnedChat, KeyOf(chat, bot)) == None
    {
      pinnedChat := pinnedChat - {KeyOf(chat, bot)};
      if TrimSpace(bot) != "" {
        pinnedChat := pinnedChat - {Bare(chat)};
      }
    }

    method Switch(chat: int, bot: string, id: string, now: Time) returns (error: Option<PoolError>)
      requires Valid()
      modifies this`activeChat
      ensures Valid() && View() == old(View()).Switch(KeyOf(chat, bot), id, now)
      ensures error == if id !in accounts then Some(AccountNotFound)
                       else if IsFrozen(View(), id) then Some(AccountFrozen)
                       else if Resting(View().accounts[id], now) then Some(AccountInCooldown) else None
    {
      if id !in accounts {
        return Some(AccountNotFound);
      }
      if accounts[id].state.Frozen? {
        return Some(AccountFrozen);
      }
      if accounts[id].state.Cooldown? && now < accounts[id].cooldownUntil {
        return Some(AccountInCooldown);
      }
      activeChat := activeChat[KeyOf(chat, bot) := id];
      error := None;
    }

    // ---- Refresh and ingest ----

    /** FetchAccountQuotas once the usage report has been read. */
    method Refresh(id: string, groups: seq<Group>, now: Time) returns (quota: Quota)
      requires Valid()
      modifies accounts.Values
      ensures Valid() && quota == Usage(groups, now) && View() == old(View()).Refresh(id, quota, now)
    {
      quota := ParseUsage(groups, now);
      Record(id, quota, now);
    }

    method Record(id: string, quota: Quota, now: Time)
      requires Valid()
      modifies accounts.Values
      ensures Valid() && View() == old(View()).Refresh(id, quota, now)
    {
      if id in accounts {
        accounts[id].TakeQuota(quota, now);
        assert View().accounts == old(View().accounts)[id := accounts[id].Snapshot()];
      }
    }

    /** The search by e-mail. */
    method FindEmail(email: string) returns (id: Option<string>)
      ensures id.Some? ==> id.value in accounts && SameEmail(accounts[id.value].email, email)
      ensures id.None? ==> forall k :: k in accounts ==> !SameEmail(accounts[k].email, email)
    {
      var todo := accounts.Keys;
      while todo != {}
        invariant todo <= accounts.Keys
        invariant forall k :: k in accounts && k !in todo ==> !SameEmail(accounts[k].email, email)
        decreases todo
      {
        var k :| k in todo;
        todo := todo - {k};
        if SameEmail(accounts[k].email, email) {
          return Some(k);
        }
      }
      id := None;
    }

    method Register(id: string, newcomer: Profile)
      requires Valid() && id !in accounts && newcomer.id == id
      modifies this`accounts
      ensures Valid() && View() == old(View()).Put(id, newcomer)
      ensures id in accounts && fresh(accounts[id])
    {
      ghost var view := View().accounts;
      var acc := new Account(newcomer);
      assert View().accounts == view;
      accounts := accounts[id := acc];
      assert View().accounts == view[id := newcomer];
    }

    method Activate(id: string)
      requires Valid() && id in accounts
      modifies accounts[id]
      ensures Valid() && View() == old(View()).Put(id, Cleared(old(View()).accounts[id]))
    {
      var acc := accounts[id];
      acc.state := Active;
      acc.cooldownUntil := 0;
      assert View().accounts == old(View().accounts)[id := acc.Snapshot()];
    }

    /** IngestCurrentAccount once the token's e-mail is known; `stored` says whether the
        profile directory and token could be written. */
    method Ingest(email: string, accountsDir: string, stored: bool, now: Time)
      returns (got: Result<Profile, PoolError>, ghost id: string)
      requires Valid()
      modifies this`accounts, accounts.Values
      ensures Valid() && View() == old(View()).Ingest(id, Newcomer(id, email, HomeOf(accountsDir, id), now), stored)
      ensures if id in old(accounts) then SameEmail(old(accounts[id].email), email)
              else FirstFree(old(accounts).Keys, Slug(email), id)
                   && forall k :: k in old(accounts) ==> !SameEmail(old(accounts[k].email), email)
      ensures got == if stored then Ok(View().accounts[id]) else Err(StorageFailed)
    {
      hide FirstFree;
      hide SameEmail;
      hide Slug;
      hide HomeOf;
      ghost var before := View();
      var found := FindEmail(email);
      var target := if found.Some? then found.value else "";
      if found.None? {
        target := FreeId(accounts.Keys, Slug(email));
        Register(target, Newcomer(target, email, HomeOf(accountsDir, target), now));
      }
      id := target;
      assert View() == before.Ingest(id, Newcomer(id, email, HomeOf(accountsDir, id), now), false);
      if !stored {
        return Err(StorageFailed), id;
      }
      Activate(target);
      got := Ok(accounts[target].Snapshot());
    }

    // ---- Loading a saved pool ----

    ghost function Registered(): Registry<Account>
      reads this
    {
      Registry(accounts, pinnedChat, activeChat)
    }

    /** The loop that redirects a chat map. */
    static method RedirectAll(m: map<ChatKey, string>, oldID: string, newID: string) returns (m': map<ChatKey, string>)
      ensures m' == Redirect(m, oldID, newID)
    {
      m' := m;
      var todo := m.Keys;
      while todo != {}
        invariant todo <= m.Keys
        invariant m'.Keys == m.Keys
        invariant forall k :: k in m ==> m'[k] == if k !in todo && m[k] == oldID then newID else m[k]
        decreases todo
      {
        var k :| k in todo;
        todo := todo - {k};
        if m[k] == oldID {
          m' := m'[k := newID];
        }
      }
    }

    method Rename(oldID: string, newID: string)
      requires oldID in accounts && newID !in accounts - {oldID}
      modifies this
      ensures Registered() == Renamed(old(Registered()), oldID, newID)
    {
      accounts := (accounts - {oldID})[newID := accounts[oldID]];
      pinnedChat := RedirectAll(pinnedChat, oldID, newID);
      activeChat := RedirectAll(activeChat, oldID, newID);
    }

    /** One account of the loading loop. */
    method LoadOne(oldID: string, accountsDir: string, now: Time) returns (newID: string)
      requires oldID in accounts && Separate(accounts)
      modifies this, accounts[oldID]
      ensures newID == oldID || newID !in old(accounts)
      ensures Registered() == Renamed(old(Registered()), oldID, newID)
      ensures NewId(oldID, old(accounts[oldID].Snapshot()), old(accounts).Keys - {oldID}, newID)
      ensures accounts[newID].Snapshot() == Loaded(oldID, old(accounts[oldID].Snapshot()), newID, accountsDir, now)
      ensures forall k :: k in accounts && k != newID ==> accounts[k].Snapshot() == old(View()).accounts[k]
    {
      var acc := accounts[oldID];
      newID := oldID;
      SelfRename(Registered(), oldID);
      if "acc-" <= oldID && acc.email != "" {
        var slug := Slug(acc.email);
        if slug != oldID {
          newID := FreeId(accounts.Keys - {oldID}, slug);
          if acc.homeDir != "" && acc.homeDir != HomeOf(accountsDir, newID) {
            acc.homeDir := HomeOf(accountsDir, newID);
          }
          acc.id := newID;
          Rename(oldID, newID);
        } else {
          BaseFree(accounts.Keys - {oldID}, slug);
        }
      }
      var _ := acc.EndCooldown(now);
    }

    /** The saved accounts that were not visited yet are still where they were saved. */
    ghost predicate Unvisited(saved: Registry<Account>, seen: set<string>)
      reads this
    {
      forall id :: id in saved.accounts && id !in seen ==> id in accounts && accounts[id] == saved.accounts[id]
    }

    /** `was` holds what was saved; the visited accounts are swept. */
    ghost predicate SweptSoFar(saved: Registry<Account>, was: map<string, Profile>, seen: set<string>, now: Time)
      reads saved.accounts.Values
      requires was.Keys == saved.accounts.Keys
    {
      forall id :: id in was ==>
        if id in seen then SameButNamed(saved.accounts[id].Snapshot(), Swept(was[id], now))
        else saved.accounts[id].Snapshot() == was[id]
    }

    /** The same, on the listed values. */
    method LoadListed(id: string, accountsDir: string, now: Time) returns (newID: string)
      requires id in accounts && Separate(accounts)
      modifies this, accounts[id]
      ensures newID == id || newID !in old(accounts)
      ensures Registered() == Renamed(old(Registered()), id, newID)
      ensures NewId(id, old(View()).accounts[id], old(View()).accounts.Keys - {id}, newID)
      ensures View() == MovedPool(old(View()), id, newID, accountsDir, now)
    {
      ghost var before := View().accounts;
      newID := LoadOne(id, accountsDir, now);
      MovedIs(before, View().accounts, id, newID, accountsDir, now);
    }

    /** One turn of the loading loop. */
    method Visit(saved: Registry<Account>, ghost was: map<string, Profile>, ghost seen: set<string>,
                 id: string, accountsDir: string, now: Time)
      requires was.Keys == saved.accounts.Keys && id in accounts
      requires Follows(saved, Registered()) && Unvisited(saved, seen) && SweptSoFar(saved, was, seen, now)
      modifies this, saved.accounts.Values
      ensures Follows(saved, Registered()) && Unvisited(saved, seen + {id})
      ensures SweptSoFar(saved, was, seen + {id}, now)
      ensures LoadStep(old(View()), id, View(), accountsDir, now)
    {
      ghost var before, view := Registered(), View().accounts;
      var acc := accounts[id];
      ghost var a := acc.Snapshot();
      assert acc in saved.accounts.Values;
      var newID := LoadListed(id, accountsDir, now);
      RenameFollows(saved, before, id, newID);
      assert acc.Snapshot() == View().accounts[newID] == Loaded(id, a, newID, accountsDir, now);
      forall k | k in was
        ensures if k in seen + {id} then SameButNamed(saved.accounts[k].Snapshot(), Swept(was[k], now))
                else saved.accounts[k].Snapshot() == was[k]
      {
        LoadedIsSwept(id, a, newID, accountsDir, now, was[k]);
      }
    }

    /** The loading loop. */
    method VisitAll(saved: Registry<Account>, ghost was: map<string, Profile>, order: seq<string>,
                    accountsDir: string, now: Time)
      requires was.Keys == saved.accounts.Keys && Registered() == saved && Separate(saved.accounts)
      requires SweptSoFar(saved, was, {}, now) && View().accounts == was
      requires forall id :: id in saved.accounts ==> id in order
      modifies this, saved.accounts.Values
      ensures Follows(saved, Registered()) && SweptSoFar(saved, was, saved.accounts.Keys, now)
      ensures StaysSound(Pool(was, saved.pinned, saved.active), View())
      ensures SettledIds(View().accounts, saved.accounts.Keys, saved.accounts.Keys)
    {
      ghost var seen: set<string> := {};
      for i := 0 to |order|
        invariant Follows(saved, Registered()) && Unvisited(saved, seen) && SweptSoFar(saved, was, seen, now)
        invariant StaysSound(Pool(was, saved.pinned, saved.active), View())
        invariant SettledIds(View().accounts, saved.accounts.Keys, seen)
        invariant forall id :: id in order[..i] ==> id in seen
      {
        if order[i] in accounts {
          ghost var pool := View();
          Visit(saved, was, seen, order[i], accountsDir, now);
          LoadStepKeeps(pool, order[i], View(), saved.accounts.Keys, seen, accountsDir, now);
        }
        OneMore(order, i, seen);
        seen := seen + {order[i]};
      }
      assert order[..|order|] == order;
    }

    /** What is saved, by id. */
    static ghost function Listed(saved: Registry<Account>): map<string, Profile>
      reads saved.accounts.Values
    {
      map id | id in saved.accounts :: saved.accounts[id].Snapshot()
    }

    /** LoadState after decoding. The keys are visited in any order that covers the saved
        ones; keys that appear on the way may be visited too, or not. No account is lost,
        every chat still resolves to the same object, finished cooldowns end, ids stay in
        step with the keys, and a legacy id is left only where the e-mail asks for it. */
    method LoadState(saved: Registry<Account>, order: seq<string>, accountsDir: string, now: Time)
      requires Separate(saved.accounts)
      requires forall id :: id in saved.accounts ==> id in order
      modifies this, saved.accounts.Values
      ensures Follows(saved, Registered())
      ensures SweptSoFar(saved, old(Listed(saved)), saved.accounts.Keys, now)
      ensures StaysSound(Pool(old(Listed(saved)), saved.pinned, saved.active), View())
      ensures SettledIds(View().accounts, saved.accounts.Keys, saved.accounts.Keys)
    {
      ghost var was := Listed(saved);
      accounts, pinnedChat, activeChat := saved.accounts, saved.pinned, saved.active;
      VisitAll(saved, was, order, accountsDir, now);
    }
  }
}
