/** The stopped-process finder and reaper of subprocess_watchdog.go. The process table is a
    map from pid to parent and run state, and may be cyclic or inconsistent. */
module Watchdog {
  import opened Quotas
  import opened Results

  datatype Proc = Proc(ppid: int, state: string)

  type Table = map<int, Proc>

  /** Session processes and the bot each runs for. */
  type Roots = map<int, string>

  datatype StoppedProc = StoppedProc(pid: int, bot: string, state: string)

  predicate IsStopped(p: Proc) {
    p.state == "T" || p.state == "t"
  }

  // ---- Ancestors ----

  /** The n-th process on the way up from `first`; the way ends below pid 2 and at a pid
      that is not in the table. */
  function Up(procs: Table, first: int, n: nat): Option<int> {
    if n == 0 then if first > 1 then Some(first) else None
    else
      var below := Up(procs, first, n - 1);
      if below.Some? && below.value in procs && procs[below.value].ppid > 1 then Some(procs[below.value].ppid) else None
  }

  predicate RootAt(procs: Table, roots: Roots, first: int, n: nat) {
    Up(procs, first, n).Some? && Up(procs, first, n).value in roots
  }

  /** r is the nearest root on the way up from `first`. */
  ghost predicate Nearest(procs: Table, roots: Roots, first: int, r: int) {
    exists n: nat :: RootAt(procs, roots, first, n) && Up(procs, first, n).value == r
                && forall k: nat :: k < n ==> !RootAt(procs, roots, first, k)
  }

  ghost predicate NoRoot(procs: Table, roots: Roots, first: int) {
    forall n: nat :: !RootAt(procs, roots, first, n)
  }

  lemma {:induction false} UpEnds(procs: Table, first: int, n: nat, m: nat)
    requires n <= m && Up(procs, first, n).None?
    ensures Up(procs, first, m).None?
    decreases m
  {
    if n < m {
      UpEnds(procs, first, n, m - 1);
    }
  }

  /** From a pid met twice on, the way repeats itself. */
  lemma {:induction false} UpRepeats(procs: Table, first: int, i: nat, n: nat, k: nat)
    requires i < n <= k && Up(procs, first, i) == Up(procs, first, n)
    ensures Up(procs, first, k) == Up(procs, first, k - (n - i))
    decreases k
  {
    if k > n {
      UpRepeats(procs, first, i, n, k - 1);
    }
  }

  lemma {:induction false} NoRootAfterLoop(procs: Table, roots: Roots, first: int, i: nat, n: nat, k: nat)
    requires i < n && Up(procs, first, i) == Up(procs, first, n)
    requires forall j: nat :: j < n ==> !RootAt(procs, roots, first, j)
    ensures !RootAt(procs, roots, first, k)
    decreases k
  {
    if k >= n {
      UpRepeats(procs, first, i, n, k);
      NoRootAfterLoop(procs, roots, first, i, n, k - (n - i));
    }
  }

  lemma NoRootPastEnd(procs: Table, roots: Roots, first: int, n: nat)
    requires Up(procs, first, n).None?
    requires forall j: nat :: j < n ==> !RootAt(procs, roots, first, j)
    ensures NoRoot(procs, roots, first)
  {
    forall k: nat ensures !RootAt(procs, roots, first, k) {
      if k >= n {
        UpEnds(procs, first, n, k);
      }
    }
  }

  lemma {:induction false} NearestUnique(procs: Table, roots: Roots, first: int, a: int, b: int)
    requires Nearest(procs, roots, first, a) && Nearest(procs, roots, first, b)
    ensures a == b
  {
    var n: nat :| RootAt(procs, roots, first, n) && Up(procs, first, n).value == a
                  && forall k: nat :: k < n ==> !RootAt(procs, roots, first, k);
    var m: nat :| RootAt(procs, roots, first, m) && Up(procs, first, m).value == b
                  && forall k: nat :: k < m ==> !RootAt(procs, roots, first, k);
    assert !(n < m) && !(m < n);
  }

  /** The parent-chain loop: on any table it ends, and finds the nearest root if there is
      one. */
  method FindRoot(procs: Table, roots: Roots, first: int) returns (root: Option<int>)
    ensures root.Some? ==> Nearest(procs, roots, first, root.value) && root.value in roots
    ensures root.None? ==> NoRoot(procs, roots, first)
  {
    var curr := first;
    var visited: set<int> := {};
    ghost var n: nat := 0;
    while curr > 1 && curr !in visited
      invariant visited <= procs.Keys
      invariant Up(procs, first, n) == if curr > 1 then Some(curr) else None
      invariant forall k: nat :: k < n ==> !RootAt(procs, roots, first, k)
      invariant forall v :: v in visited ==> exists i: nat :: i < n && Up(procs, first, i) == Some(v)
      decreases procs.Keys - visited
    {
      if curr in roots {
        assert RootAt(procs, roots, first, n);
        return Some(curr);
      }
      if curr !in procs {
        assert Up(procs, first, n + 1).None?;
        NoRootPastEnd(procs, roots, first, n + 1);
        return None;
      }
      assert Up(procs, first, n) == Some(curr);
      visited := visited + {curr};
      curr := procs[curr].ppid;
      n := n + 1;
    }
    root := None;
    if curr > 1 {
      ghost var i: nat :| i < n && Up(procs, first, i) == Some(curr);
      forall k: nat ensures !RootAt(procs, roots, first, k) {
        NoRootAfterLoop(procs, roots, first, i, n, k);
      }
    } else {
      NoRootPastEnd(procs, roots, first, n);
    }
  }

  // ---- The finder ----

  /** The root a stopped process is reported under: itself, or its nearest root. */
  ghost predicate ReportedUnder(procs: Table, roots: Roots, pid: int, root: int) {
    && pid in procs && IsStopped(procs[pid]) && root in roots
    && if pid in roots then root == pid else Nearest(procs, roots, procs[pid].ppid, root)
  }

  ghost predicate Reported(procs: Table, roots: Roots, pid: int) {
    exists root :: ReportedUnder(procs, roots, pid, root)
  }

  ghost predicate Entry(procs: Table, roots: Roots, s: StoppedProc) {
    exists root :: ReportedUnder(procs, roots, s.pid, root) && s == StoppedProc(s.pid, roots[root], procs[s.pid].state)
  }

  function Pids(found: seq<StoppedProc>): set<int> {
    set s | s in found :: s.pid
  }

  /** One process of the finder. */
  method Check(procs: Table, roots: Roots, pid: int) returns (entry: Option<StoppedProc>)
    requires pid in procs
    ensures entry.Some? <==> Reported(procs, roots, pid)
    ensures entry.Some? ==> entry.value.pid == pid && Entry(procs, roots, entry.value)
  {
    var proc := procs[pid];
    if !IsStopped(proc) {
      return None;
    }
    if pid in roots {
      assert ReportedUnder(procs, roots, pid, pid);
      return Some(StoppedProc(pid, roots[pid], proc.state));
    }
    var root := FindRoot(procs, roots, proc.ppid);
    if root.Some? {
      assert ReportedUnder(procs, roots, pid, root.value);
      entry := Some(StoppedProc(pid, roots[root.value], proc.state));
    } else {
      entry := None;
    }
  }

  method AnyOf(pids: set<int>) returns (pid: int)
    requires pids != {}
    ensures pid in pids
  {
    assert (forall p :: p !in pids) ==> pids == {};
    pid :| pid in pids;
  }

  /** Main result: findStoppedDescendants reports a stopped process, once, if and only if
      it is a root or its parent chain reaches one, and names the nearest. */
  method FindStoppedDescendants(procs: Table, roots: Roots) returns (stopped: seq<StoppedProc>)
    ensures forall pid :: pid in Pids(stopped) <==> Reported(procs, roots, pid)
    ensures forall i :: 0 <= i < |stopped| ==> Entry(procs, roots, stopped[i])
    ensures forall i, j :: 0 <= i < j < |stopped| ==> stopped[i].pid != stopped[j].pid
  {
    stopped := [];
    var todo := procs.Keys;
    while todo != {}
      invariant todo <= procs.Keys
      invariant forall pid :: pid in Pids(stopped) <==> pid in procs && pid !in todo && Reported(procs, roots, pid)
      invariant forall i :: 0 <= i < |stopped| ==> Entry(procs, roots, stopped[i])
      invariant forall i, j :: 0 <= i < j < |stopped| ==> stopped[i].pid != stopped[j].pid
      decreases todo
    {
      var pid := AnyOf(todo);
      todo := todo - {pid};
      var entry := Check(procs, roots, pid);
      if entry.Some? {
        PidsAppend(stopped, entry.value);
        assert forall i :: 0 <= i < |stopped| ==> stopped[i].pid in Pids(stopped);
        stopped := stopped + [entry.value];
      }
    }
  }

  lemma PidsAppend(found: seq<StoppedProc>, s: StoppedProc)
    ensures Pids(found + [s]) == Pids(found) + {s.pid}
  {
    assert forall x :: x in found + [s] <==> x in found || x == s;
  }

  // ---- The reaper ----

  /** One scan: `reported` when it completed, or a failed listing, or no live session. */
  datatype Scan = Completed(now: Time, reported: set<int>) | ListingFailed | NoSessions

  /** stoppedProcSince after a scan. */
  function Remember(since: map<int, Time>, grace: Time, scan: Scan): map<int, Time> {
    match scan
    case NoSessions => map[]
    case ListingFailed => since
    case Completed(now, reported) =>
      map pid | pid in reported && pid !in Overdue(since, grace, scan) :: FirstSeen(since, now, pid)
  }

  function FirstSeen(since: map<int, Time>, now: Time, pid: int): Time {
    if pid in since then since[pid] else now
  }

  /** The processes a scan kills. */
  function Overdue(since: map<int, Time>, grace: Time, scan: Scan): set<int> {
    if scan.Completed? then set pid | pid in scan.reported && scan.now - FirstSeen(since, scan.now, pid) >= grace
    else {}
  }

  function Since(scans: seq<Scan>, grace: Time): map<int, Time> {
    if scans == [] then map[] else Remember(Since(scans[..|scans| - 1], grace), grace, scans[|scans| - 1])
  }

  /** The processes killed by the last scan. */
  function Killed(scans: seq<Scan>, grace: Time): set<int>
    requires scans != []
  {
    Overdue(Since(scans[..|scans| - 1], grace), grace, scans[|scans| - 1])
  }

  /** Scan j neither cleared the record nor failed to report the pid. */
  predicate Reports(scan: Scan, pid: int) {
    scan.ListingFailed? || (scan.Completed? && pid in scan.reported)
  }

  /** From scan i to the last, every completed scan reported the pid, sessions were live,
      and no scan before the last killed it. */
  ghost predicate Streak(scans: seq<Scan>, grace: Time, i: int, pid: int) {
    && 0 <= i < |scans| && scans[i].Completed?
    && (forall j :: i <= j < |scans| ==> Reports(scans[j], pid))
    && (forall j :: i < j < |scans| ==> pid !in Killed(scans[..j], grace))
  }

  predicate Monotone(scans: seq<Scan>) {
    forall i, j :: 0 <= i < j < |scans| && scans[i].Completed? && scans[j].Completed? ==> scans[i].now <= scans[j].now
  }

  /** The record, read from the scans: a remembered pid has been reported since that time. */
  lemma {:induction false} RememberedStreak(scans: seq<Scan>, grace: Time, pid: int) returns (i: int)
    requires pid in Since(scans, grace)
    ensures Streak(scans, grace, i, pid) && scans[i].now == Since(scans, grace)[pid]
    ensures pid !in Killed(scans, grace)
    decreases |scans|
  {
    var n := |scans| - 1;
    var earlier := scans[..n];
    if pid in Since(earlier, grace) {
      i := RememberedStreak(earlier, grace, pid);
      StreakGrows(scans, grace, i, pid);
    } else {
      i := n;
      assert scans[n].Completed?;
    }
  }

  lemma StreakGrows(scans: seq<Scan>, grace: Time, i: int, pid: int)
    requires scans != [] && Streak(scans[..|scans| - 1], grace, i, pid) && Reports(scans[|scans| - 1], pid)
    requires pid !in Killed(scans[..|scans| - 1], grace)
    ensures Streak(scans, grace, i, pid)
  {
    var n := |scans| - 1;
    forall j | i < j < |scans| ensures pid !in Killed(scans[..j], grace) {
      assert j < n ==> scans[..n][..j] == scans[..j];
    }
  }

  lemma StreakShrinks(scans: seq<Scan>, grace: Time, i: int, pid: int)
    requires scans != [] && Streak(scans, grace, i, pid) && i < |scans| - 1
    ensures Streak(scans[..|scans| - 1], grace, i, pid) && pid !in Killed(scans[..|scans| - 1], grace)
  {
    var n := |scans| - 1;
    forall j | i < j < n ensures pid !in Killed(scans[..n][..j], grace) {
      assert scans[..n][..j] == scans[..j];
    }
  }

  /** A streak that was not cut short is remembered from its start or before. */
  lemma {:induction false} StreakRemembered(scans: seq<Scan>, grace: Time, i: int, pid: int)
    requires Monotone(scans) && Streak(scans, grace, i, pid) && pid !in Killed(scans, grace)
    ensures pid in Since(scans, grace) && Since(scans, grace)[pid] <= scans[i].now
    decreases |scans|
  {
    var n := |scans| - 1;
    if i < n {
      StreakShrinks(scans, grace, i, pid);
      StreakRemembered(scans[..n], grace, i, pid);
    } else if pid in Since(scans[..n], grace) {
      var k := RememberedStreak(scans[..n], grace, pid);
      assert scans[..n][k] == scans[k];
    }
  }

  /** Main result: the reaper kills a pid if and only if it completed a scan that reported
      it, every completed scan since one at least the grace period ago reported it, and
      meanwhile no scan killed it and there were always live sessions. */
  lemma KilledIff(scans: seq<Scan>, grace: Time, pid: int)
    requires scans != [] && Monotone(scans)
    ensures pid in Killed(scans, grace) <==>
      scans[|scans| - 1].Completed? &&
      exists i :: Streak(scans, grace, i, pid) && scans[|scans| - 1].now - scans[i].now >= grace
  {
    var n := |scans| - 1;
    var earlier, last := scans[..n], scans[n];
    if pid in Killed(scans, grace) {
      if pid in Since(earlier, grace) {
        var i := RememberedStreak(earlier, grace, pid);
        StreakGrows(scans, grace, i, pid);
        assert earlier[i] == scans[i];
      } else {
        assert Streak(scans, grace, n, pid);
      }
    }
    if i :| last.Completed? && Streak(scans, grace, i, pid) && last.now - scans[i].now >= grace {
      StreakEndsInKill(scans, grace, i, pid);
    }
  }

  lemma StreakEndsInKill(scans: seq<Scan>, grace: Time, i: int, pid: int)
    requires scans != [] && Monotone(scans) && scans[|scans| - 1].Completed?
    requires Streak(scans, grace, i, pid) && scans[|scans| - 1].now - scans[i].now >= grace
    ensures pid in Killed(scans, grace)
  {
    if pid !in Killed(scans, grace) {
      StreakRemembered(scans, grace, i, pid);
      var k := RememberedStreak(scans, grace, pid);
      assert pid in Since(scans, grace);
    }
  }

  // ---- The reaper as a method ----

  function ScanOf(roots: Roots, listing: Option<Table>, reported: set<int>, now: Time): Scan {
    if roots == map[] then NoSessions
    else if listing.None? then ListingFailed
    else Completed(now, reported)
  }

  class Reaper {
    var stoppedProcSince: map<int, Time>

    constructor ()
      ensures stoppedProcSince == map[]
    {
      stoppedProcSince := map[];
    }

    /** ReapStoppedSubprocesses; `listing` is the process table, if it could be read, and
        `killed` are the pids that were signalled. */
    method Reap(roots: Roots, listing: Option<Table>, grace: Time, now: Time)
      returns (killed: set<int>, ghost reported: set<int>)
      modifies this
      ensures listing.Some? && roots != map[] ==> forall pid :: pid in reported <==> Reported(listing.value, roots, pid)
      ensures killed == Overdue(old(stoppedProcSince), grace, ScanOf(roots, listing, reported, now))
      ensures stoppedProcSince == Remember(old(stoppedProcSince), grace, ScanOf(roots, listing, reported, now))
      ensures roots == map[] ==> killed == {} && stoppedProcSince == map[]
      ensures roots != map[] && listing.None? ==> killed == {} && stoppedProcSince == old(stoppedProcSince)
      ensures roots != map[] && listing.Some? ==>
        forall pid {:trigger pid in killed} {:trigger pid in stoppedProcSince} ::
          var since := if pid in old(stoppedProcSince) then old(stoppedProcSince)[pid] else now;
          && (pid in killed <==> Reported(listing.value, roots, pid) && now - since >= grace)
          && (pid in stoppedProcSince <==> Reported(listing.value, roots, pid) && pid !in killed)
          && (pid in stoppedProcSince ==> stoppedProcSince[pid] == since)
    {
      killed, reported := {}, {};
      if roots == map[] {
        stoppedProcSince := map[];
        return;
      }
      if listing.None? {
        return;
      }
      var stopped := FindStoppedDescendants(listing.value, roots);
      reported := Pids(stopped);
      killed := Sweep(stopped, grace, now);
    }

    /** The two loops: note and kill the stopped processes, then forget the others. */
    method Sweep(stopped: seq<StoppedProc>, grace: Time, now: Time) returns (killed: set<int>)
      requires forall i, j :: 0 <= i < j < |stopped| ==> stopped[i].pid != stopped[j].pid
      modifies this
      ensures killed == Overdue(old(stoppedProcSince), grace, Completed(now, Pids(stopped)))
      ensures stoppedProcSince == Remember(old(stoppedProcSince), grace, Completed(now, Pids(stopped)))
    {
      ghost var was := stoppedProcSince;
      killed := {};
      for i := 0 to |stopped|
        invariant killed == Overdue(was, grace, Completed(now, Pids(stopped[..i])))
        invariant forall pid :: pid in stoppedProcSince <==> pid !in killed && (pid in was || pid in Pids(stopped[..i]))
        invariant forall pid :: pid in stoppedProcSince ==>
          stoppedProcSince[pid] == if pid in Pids(stopped[..i]) then FirstSeen(was, now, pid) else was[pid]
      {
        var pid := stopped[i].pid;
        NewPid(stopped, i);
        if pid !in stoppedProcSince {
          stoppedProcSince := stoppedProcSince[pid := now];
        }
        if now - stoppedProcSince[pid] >= grace {
          stoppedProcSince := stoppedProcSince - {pid};
          killed := killed + {pid};
        }
      }
      assert stopped[..|stopped|] == stopped;
      Prune(Pids(stopped));
    }

    lemma NewPid(stopped: seq<StoppedProc>, i: nat)
      requires i < |stopped|
      requires forall i, j :: 0 <= i < j < |stopped| ==> stopped[i].pid != stopped[j].pid
      ensures stopped[i].pid !in Pids(stopped[..i])
      ensures Pids(stopped[..i + 1]) == Pids(stopped[..i]) + {stopped[i].pid}
    {
      assert stopped[..i + 1] == stopped[..i] + [stopped[i]];
      PidsAppend(stopped[..i], stopped[i]);
    }

    method Prune(active: set<int>)
      modifies this
      ensures stoppedProcSince == map pid | pid in old(stoppedProcSince) && pid in active :: old(stoppedProcSince)[pid]
    {
      var todo := stoppedProcSince.Keys;
      while todo != {}
        invariant todo <= stoppedProcSince.Keys
        invariant stoppedProcSince ==
          map pid | pid in old(stoppedProcSince) && (pid in todo || pid in active) :: old(stoppedProcSince)[pid]
        decreases todo
      {
        var pid := AnyOf(todo);
        todo := todo - {pid};
        if pid !in active {
          stoppedProcSince := stoppedProcSince - {pid};
        }
      }
    }
  }
}
