/** The account pool as the sessions share it (GlobalAccountPool in session.go): one method per
    call, each of them one critical section of account_pool.go, and the pool as a value that
    contracts can speak about. */
module GlobalPools {
  import opened AccountPools
  import opened Accounts
  import opened Quotas
  import opened Results

  class GlobalPool {
    const pool: AccountPool
    ghost var view: Pool
    ghost var Repr: set<object>

    ghost predicate Valid()
      reads this, Repr
    {
      && this in Repr && pool in Repr && (forall id :: id in pool.accounts ==> pool.accounts[id] in Repr)
      && pool.Valid() && pool.View() == view && Inv(view)
    }

    constructor (pool: AccountPool)
      requires pool.Valid() && Inv(pool.View())
      ensures Valid() && view == pool.View() && this.pool == pool
      ensures Repr == {this, pool} + pool.accounts.Values
    {
      this.pool := pool;
      view := pool.View();
      Repr := {this, pool} + pool.accounts.Values;
    }

    method GetAccount(id: string) returns (a: Option<Profile>)
      requires Valid()
      ensures a == if id in view.accounts then Some(view.accounts[id]) else None
    {
      a := if id in pool.accounts then Some(pool.accounts[id].Snapshot()) else None;
    }

    method IsPinned(chat: int, bot: string) returns (pinned: bool)
      requires Valid()
      ensures pinned == Resolve(view.pinned, KeyOf(chat, bot)).Some?
    {
      pinned := Resolve(pool.pinnedChat, KeyOf(chat, bot)).Some?;
    }

    method CountHealthy(now: Time) returns (count: nat)
      requires Valid()
      ensures count == |HealthyIds(view, now)|
    {
      count := pool.CountHealthy(now);
    }

    method Acquire(chat: int, bot: string, now: Time) returns (got: Result<Profile, PoolError>)
      requires Valid() && now > 0
      modifies Repr
      ensures Valid() && Repr == old(Repr) && Acquires(old(view), KeyOf(chat, bot), now, view, got)
    {
      hide Inv;
      hide Acquires;
      got := pool.Acquire(chat, bot, now);
      StepKeepsInv(view, Op.Acquire(KeyOf(chat, bot), now, got), pool.View());
      view := pool.View();
    }

    method Release(id: string)
      requires Valid()
      modifies Repr
      ensures Valid() && Repr == old(Repr) && view == old(view).Release(id)
    {
      pool.Release(id);
      StepKeepsInv(view, Op.Release(id), pool.View());
      view := pool.View();
    }

    method MarkCooldown(id: string, duration: Time, now: Time)
      requires Valid()
      modifies Repr
      ensures Valid() && Repr == old(Repr) && view == old(view).MarkCooldown(id, duration, now)
    {
      pool.MarkCooldown(id, duration, now);
      StepKeepsInv(view, Op.MarkCooldown(id, duration, now), pool.View());
      view := pool.View();
    }

    method Refresh(id: string, groups: seq<Group>, now: Time) returns (quota: Quota)
      requires Valid() && now > 0
      modifies Repr
      ensures Valid() && Repr == old(Repr) && quota == Usage(groups, now) && view == old(view).Refresh(id, quota, now)
    {
      quota := pool.Refresh(id, groups, now);
      StepKeepsInv(view, Op.Refresh(id, quota, now), pool.View());
      view := pool.View();
    }
  }
}
