/** Renaming accounts while a saved pool is loaded (LoadState in account_pool.go), for
    any kind of account object. */
module Migration {
  import opened Accounts
  import opened Identity
  import opened Quotas

  datatype Registry<T> = Registry(accounts: map<string, T>, pinned: map<ChatKey, string>, active: map<ChatKey, string>)

  /** Distinct ids name distinct objects. */
  ghost predicate Separate<T>(accounts: map<string, T>) {
    forall a, b :: a in accounts && b in accounts && accounts[a] == accounts[b] ==> a == b
  }

  function Redirect(m: map<ChatKey, string>, oldID: string, newID: string): map<ChatKey, string> {
    map k | k in m :: if m[k] == oldID then newID else m[k]
  }

  /** One rename: the entry moves and both chat maps follow it. */
  function Renamed<T>(r: Registry<T>, oldID: string, newID: string): Registry<T>
    requires oldID in r.accounts
  {
    Registry((r.accounts - {oldID})[newID := r.accounts[oldID]], Redirect(r.pinned, oldID, newID),
             Redirect(r.active, oldID, newID))
  }

  /** Every chat of m that names an account of `from` names the same object in `to`. */
  ghost predicate SameTargets<T>(m: map<ChatKey, string>, from: map<string, T>, m': map<ChatKey, string>,
                                 to: map<string, T>) {
    m'.Keys == m.Keys
    && forall k :: k in m && m[k] in from ==> m'[k] in to && to[m'[k]] == from[m[k]]
  }

  /** The same objects under possibly other ids, and every chat still resolves to the
      object it did. */
  ghost predicate Follows<T>(r: Registry<T>, r': Registry<T>) {
    && Separate(r'.accounts) && r'.accounts.Values == r.accounts.Values
    && SameTargets(r.pinned, r.accounts, r'.pinned, r'.accounts)
    && SameTargets(r.active, r.accounts, r'.active, r'.accounts)
  }

  /** Each chat, scoped or not, resolves to the same account before and after. */
  lemma ResolvesAlike<T>(m: map<ChatKey, string>, from: map<string, T>, m': map<ChatKey, string>, to: map<string, T>,
                         key: ChatKey)
    requires SameTargets(m, from, m', to)
    ensures Resolve(m', key).Some? <==> Resolve(m, key).Some?
    ensures Resolve(m, key).Some? && Resolve(m, key).value in from ==>
      Resolve(m', key).value in to && to[Resolve(m', key).value] == from[Resolve(m, key).value]
  {
  }

  lemma RenameKeepsTargets<T>(m: map<ChatKey, string>, from: map<string, T>, m': map<ChatKey, string>,
                              to: map<string, T>, oldID: string, newID: string, to': map<string, T>)
    requires SameTargets(m, from, m', to) && oldID in to && (newID !in to || newID == oldID)
    requires to' == (to - {oldID})[newID := to[oldID]]
    ensures SameTargets(m, from, Redirect(m', oldID, newID), to')
  {
  }

  lemma SelfRename<T>(r: Registry<T>, id: string)
    requires id in r.accounts
    ensures Renamed(r, id, id) == r
  {
  }

  /** A rename to an unused id loses no account and moves no chat to another account. */
  lemma RenameFollows<T>(start: Registry<T>, r: Registry<T>, oldID: string, newID: string)
    requires Follows(start, r) && oldID in r.accounts && (newID !in r.accounts || newID == oldID)
    ensures Follows(start, Renamed(r, oldID, newID))
  {
    var r' := Renamed(r, oldID, newID);
    RenameKeepsTargets(start.pinned, start.accounts, r.pinned, r.accounts, oldID, newID, r'.accounts);
    RenameKeepsTargets(start.active, start.accounts, r.active, r.accounts, oldID, newID, r'.accounts);
    forall x | x in r.accounts.Values ensures x in r'.accounts.Values {
      var k :| k in r.accounts && r.accounts[k] == x;
      assert r'.accounts[if k == oldID then newID else k] == x;
    }
  }

  /** An account that still carries a legacy identifier. */
  predicate Legacy(id: string, a: Profile) {
    "acc-" <= id && a.email != ""
  }

  function HomeOf(accountsDir: string, id: string): string {
    accountsDir + "/" + id
  }

  /** What loading makes of the account saved under oldID, once it has its new id. */
  function Loaded(oldID: string, a: Profile, newID: string, accountsDir: string, now: Time): Profile {
    if Legacy(oldID, a) && Slug(a.email) != oldID
    then Swept(a, now).(id := newID, homeDir := if a.homeDir == "" then "" else HomeOf(accountsDir, newID))
    else Swept(a, now)
  }

  /** An account that gets another id gets that id's directory, unless it has none; one that keeps
      its own keeps its directory. */
  lemma LoadedMoves(oldID: string, a: Profile, others: set<string>, newID: string, accountsDir: string, now: Time)
    requires a.id == oldID && oldID !in others && NewId(oldID, a, others, newID)
    ensures var b := Loaded(oldID, a, newID, accountsDir, now);
      && b.id == newID
      && (newID != oldID ==> b.homeDir == if a.homeDir == "" then "" else accountsDir + "/" + newID)
      && (!("acc-" <= oldID) || a.email == "" || Slug(a.email) == oldID ==>
            newID == oldID && b.homeDir == a.homeDir)
  {
    if Legacy(oldID, a) && Slug(a.email) == oldID {
      BaseOnly(others, oldID, newID);
    }
  }

  /** The id the account saved under oldID gets, while `others` are taken. */
  ghost predicate NewId(oldID: string, a: Profile, others: set<string>, newID: string) {
    if Legacy(oldID, a) then FirstFree(others, Slug(a.email), newID) else newID == oldID
  }

  /** Equal but for the id and the directory. */
  predicate SameButNamed(a: Profile, b: Profile) {
    a == b.(id := a.id, homeDir := a.homeDir)
  }

  lemma LoadedIsSwept(id: string, a: Profile, newID: string, accountsDir: string, now: Time, was: Profile)
    ensures a == was || SameButNamed(a, Swept(was, now)) ==>
      SameButNamed(Loaded(id, a, newID, accountsDir, now), Swept(was, now))
  {
  }

  /** Every account is listed under its own id. */
  ghost predicate Matched(view: map<string, Profile>) {
    forall id :: id in view ==> view[id].id == id
  }

  /** What the saved pool had of these, the loaded one has. */
  ghost predicate StaysSound(saved: Pool, p: Pool) {
    (Matched(saved.accounts) ==> Matched(p.accounts)) && (Inv(saved) ==> Inv(p))
  }

  /** A visited or renamed account has a legacy id only if its e-mail gives it one. */
  ghost predicate SettledIds(view: map<string, Profile>, saved: set<string>, seen: set<string>) {
    forall id :: id in view && (id in seen || id !in saved) && Legacy(id, view[id]) ==>
      IsCandidate(Slug(view[id].email), id)
  }

  function Moved(view: map<string, Profile>, id: string, newID: string, accountsDir: string, now: Time)
    : map<string, Profile>
    requires id in view
  {
    (view - {id})[newID := Loaded(id, view[id], newID, accountsDir, now)]
  }

  lemma MovedIs(view: map<string, Profile>, view': map<string, Profile>, id: string, newID: string,
                accountsDir: string, now: Time)
    requires id in view && newID in view' && view'.Keys == view.Keys - {id} + {newID}
    requires view'[newID] == Loaded(id, view[id], newID, accountsDir, now)
    requires forall k :: k in view' && k != newID ==> view'[k] == view[k]
    ensures view' == Moved(view, id, newID, accountsDir, now)
  {
  }

  function MovedPool(p: Pool, id: string, newID: string, accountsDir: string, now: Time): Pool
    requires id in p.accounts
  {
    Pool(Moved(p.accounts, id, newID, accountsDir, now), Redirect(p.pinned, id, newID), Redirect(p.active, id, newID))
  }

  /** What visiting the account listed under `id` does to the pool. */
  ghost predicate LoadStep(p: Pool, id: string, p': Pool, accountsDir: string, now: Time) {
    id in p.accounts && exists newID ::
      NewId(id, p.accounts[id], p.accounts.Keys - {id}, newID) && p' == MovedPool(p, id, newID, accountsDir, now)
  }

  lemma LoadStepKeeps(p: Pool, id: string, p': Pool, saved: set<string>, seen: set<string>, accountsDir: string,
                      now: Time)
    requires LoadStep(p, id, p', accountsDir, now)
    ensures StaysSound(p, p')
    ensures SettledIds(p.accounts, saved, seen) ==> SettledIds(p'.accounts, saved, seen + {id})
  {
    var newID :| NewId(id, p.accounts[id], p.accounts.Keys - {id}, newID)
        && p' == MovedPool(p, id, newID, accountsDir, now);
    if Matched(p.accounts) {
      MatchedStep(p.accounts, id, newID, accountsDir, now);
    }
    if Inv(p) {
      InvStep(p, id, newID, accountsDir, now);
    }
    if SettledIds(p.accounts, saved, seen) {
      SettledStep(p.accounts, saved, seen, id, newID, accountsDir, now);
    }
  }

  /** Loading keeps the pool invariants. */
  lemma InvStep(p: Pool, id: string, newID: string, accountsDir: string, now: Time)
    requires Inv(p) && id in p.accounts && NewId(id, p.accounts[id], p.accounts.Keys - {id}, newID)
    ensures Inv(MovedPool(p, id, newID, accountsDir, now))
  {
    MatchedStep(p.accounts, id, newID, accountsDir, now);
    SweptSound(id, p.accounts[id], now);
    NewIdIsFree(id, p.accounts[id], p.accounts.Keys - {id}, newID);
  }

  lemma NewIdIsFree(id: string, a: Profile, others: set<string>, newID: string)
    requires NewId(id, a, others, newID) && id !in others
    ensures newID !in others
  {
  }

  lemma SettledStep(view: map<string, Profile>, saved: set<string>, seen: set<string>, id: string, newID: string,
                    accountsDir: string, now: Time)
    requires SettledIds(view, saved, seen) && id in view && NewId(id, view[id], view.Keys - {id}, newID)
    ensures SettledIds(Moved(view, id, newID, accountsDir, now), saved, seen + {id})
  {
    NewIdIsCandidate(id, view[id], view.Keys - {id}, newID);
  }

  lemma NewIdIsCandidate(id: string, a: Profile, others: set<string>, newID: string)
    requires NewId(id, a, others, newID)
    ensures Legacy(newID, a) ==> IsCandidate(Slug(a.email), newID)
  {
  }

  lemma MatchedStep(view: map<string, Profile>, id: string, newID: string, accountsDir: string, now: Time)
    requires Matched(view) && id in view && NewId(id, view[id], view.Keys - {id}, newID)
    ensures Matched(Moved(view, id, newID, accountsDir, now))
  {
    if Legacy(id, view[id]) && Slug(view[id].email) == id {
      BaseOnly(view.Keys - {id}, id, newID);
    }
  }

  lemma OneMore(order: seq<string>, i: nat, seen: set<string>)
    requires i < |order| && forall id :: id in order[..i] ==> id in seen
    ensures forall id :: id in order[..i + 1] ==> id in seen + {order[i]}
  {
    assert order[..i + 1] == order[..i] + [order[i]];
  }
}
