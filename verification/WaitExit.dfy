/**
 * Parents and children on the machine of module Scheduler: wait never sleeps through the exit of
 * a child it waits for, whatever is interleaved with it, reparenting to init and the moment in
 * which exit drops wait_lock included.
 */
module WaitExit {
  import opened Common
  import opened Scheduler

  // ---- parents ----

  predicate Alive(x: Proc) {
    x.state != UNUSED && x.state != USED && x.state != ZOMBIE
  }

  predicate Exiting(pc: Pc) {
    pc.ExitEnter? || pc.ExitReparent? || pc.ExitWakeInit? || pc.ExitSend? || pc.ExitReenter? || pc.ExitWakeParent? || pc.Gone?
  }

  // An exiting process has given child z to init already
  predicate Past(pc: Pc, z: nat) {
    (pc.ExitReparent? && z < pc.i) || pc.ExitWakeInit? || pc.ExitSend? || pc.ExitReenter? || pc.ExitWakeParent? || pc.Gone?
  }

  // A parent pointer never dangles, and init is always there
  predicate KinOk(s: Sys, z: nat)
    requires z < |s.procs|
  {
    var x := s.procs[z];
    && (x.parent.Some? ==>
          x.parent.value < |s.procs| && x.parent.value != z
          && Alive(s.procs[x.parent.value]) && !Past(s.procs[x.parent.value].pc, z))
    && (z == INIT ==> x.parent == None && Alive(x) && !Exiting(x.pc))
    && (x.state == UNUSED || x.state == USED ==> x.parent == None)
  }

  ghost predicate Family(s: Sys) {
    |s.procs| == NPROC && forall z | 0 <= z < |s.procs| :: KinOk(s, z)
  }

  // ---- wait_lock ----

  ghost predicate HolderOk(s: Sys) {
    && (forall p | 0 <= p < |s.procs| && s.procs[p].pc.HoldsWait() :: s.waitLock == Some(p))
    && (s.waitLock.Some? ==> s.waitLock.value < |s.procs| && s.procs[s.waitLock.value].pc.HoldsWait())
  }

  // ---- waiting ----

  // Asleep inside wait
  predicate Asleep(x: Proc) {
    x.state == SLEEPING && x.pc.Resume? && x.pc.k.Waiting?
  }

  predicate Fits(pid: int, x: Proc) {
    x.state == ZOMBIE && (pid <= 0 || x.pid == pid)
  }

  // q sleeps in wait although its child z is what it waits for
  predicate Awaited(s: Sys, q: nat, z: nat) {
    && q < |s.procs| && z < |s.procs|
    && Asleep(s.procs[q]) && s.procs[z].parent == Some(q) && Fits(s.procs[q].pc.k.pid, s.procs[z])
  }

  // The holder of wait_lock is going to wake q before it lets go
  predicate OnTheWay(s: Sys, q: nat) {
    && s.waitLock.Some? && s.waitLock.value < |s.procs| && q == INIT
    && var pc := s.procs[s.waitLock.value].pc;
       (pc.ExitReparent? && pc.wake) || (pc.ExitWakeInit? && pc.i <= INIT)
  }

  ghost predicate NoLost(s: Sys) {
    forall q: nat, z: nat | Awaited(s, q, z) :: OnTheWay(s, q)
  }

  // What the loops under wait_lock have established so far
  predicate SeenOk(s: Sys, h: nat, pid: int, kids: bool, z: nat)
    requires z < |s.procs|
  {
    s.procs[z].parent == Some(h) ==> kids && !Fits(pid, s.procs[z])
  }

  ghost predicate ScanOk(s: Sys) {
    s.waitLock.Some? && s.waitLock.value < |s.procs| ==>
      var h := s.waitLock.value;
      match s.procs[h].pc
      case WaitScan(pid, i, kids) => forall z | 0 <= z < i && z < |s.procs| :: SeenOk(s, h, pid, kids, z)
      case ExitWakeParent(par, i) =>
        par == s.procs[h].parent
        && (par.Some? && par.value < i && par.value < |s.procs| ==> !Asleep(s.procs[par.value]))
      case _ => true
  }

  ghost predicate WaitInv(s: Sys) {
    Family(s) && HolderOk(s) && ScanOk(s) && NoLost(s)
  }

  // ---- steps that do not touch any of this ----

  predicate QuietAt(x: Proc, y: Proc) {
    && y.parent == x.parent && (Alive(y) <==> Alive(x)) && (y.state == ZOMBIE <==> x.state == ZOMBIE)
    && (y.state == ZOMBIE ==> y.pid == x.pid)
    && (Asleep(y) ==> Asleep(x) && y.pc == x.pc)
    && (x.pc.HoldsWait() || y.pc.HoldsWait() ==> y.pc == x.pc)
    && (Alive(x) && (Exiting(x.pc) || Exiting(y.pc)) ==> y.pc == x.pc)
  }

  ghost predicate Quiet(s: Sys, t: Sys) {
    |t.procs| == |s.procs| && t.waitLock == s.waitLock && forall p | 0 <= p < |s.procs| :: QuietAt(s.procs[p], t.procs[p])
  }

  lemma QuietKeeps(s: Sys, t: Sys)
    requires WaitInv(s) && Quiet(s, t)
    ensures WaitInv(t)
  {
    forall z | 0 <= z < |t.procs| ensures KinOk(t, z) {
      assert KinOk(s, z) && QuietAt(s.procs[z], t.procs[z]);
      var q := s.procs[z].parent;
      assert q.Some? ==> QuietAt(s.procs[q.value], t.procs[q.value]);
    }
    forall q: nat, z: nat | Awaited(t, q, z) ensures OnTheWay(t, q) {
      assert QuietAt(s.procs[q], t.procs[q]) && QuietAt(s.procs[z], t.procs[z]);
      assert Awaited(s, q, z) && OnTheWay(s, q);
      assert QuietAt(s.procs[s.waitLock.value], t.procs[s.waitLock.value]);
    }
    forall p | 0 <= p < |t.procs| && t.procs[p].pc.HoldsWait() ensures t.waitLock == Some(p) {
      assert QuietAt(s.procs[p], t.procs[p]);
    }
    if t.waitLock.Some? {
      var h := t.waitLock.value;
      assert QuietAt(s.procs[h], t.procs[h]);
      ScanQuiet(s, t);
    }
  }

  lemma ScanQuiet(s: Sys, t: Sys)
    requires Family(s) && HolderOk(s) && ScanOk(s) && Quiet(s, t) && t.waitLock.Some?
    ensures ScanOk(t)
  {
    var h := t.waitLock.value;
    assert QuietAt(s.procs[h], t.procs[h]);
    if s.procs[h].pc.WaitScan? {
      var WaitScan(pid, i, kids) := s.procs[h].pc;
      forall z | 0 <= z < i && z < |t.procs| ensures SeenOk(t, h, pid, kids, z) {
        assert SeenOk(s, h, pid, kids, z) && QuietAt(s.procs[z], t.procs[z]);
      }
    } else if s.procs[h].pc.ExitWakeParent? {
      var q := s.procs[h].parent;
      assert KinOk(s, h);
      assert q.Some? ==> QuietAt(s.procs[q.value], t.procs[q.value]);
    }
  }

  lemma SchedQuiet(s: Sys, e: Event)
    requires Basic(s) && Family(s) && SchedEnabled(s, e)
    ensures Quiet(s, SchedNext(s, e))
  {
    hide Forks;
    if e.Skip? {
      NeverSkips(s, e.c);
    } else if e.Fetch? {
      assert LocalOk(s.queue[0], s.procs[s.queue[0]]);
    } else {
      assert CpuOk(s, e.c);
      assert LocalOk(s.cpus[e.c].p, s.procs[s.cpus[e.c].p]);
    }
  }

  lemma OneQuiet(s: Sys, t: Sys, p: nat)
    requires p < |s.procs| && |t.procs| == |s.procs| && t.procs == s.procs[p := t.procs[p]] && t.waitLock == s.waitLock
    requires QuietAt(s.procs[p], t.procs[p])
    ensures Quiet(s, t)
  {
    forall q | 0 <= q < |s.procs| ensures QuietAt(s.procs[q], t.procs[q]) {
      assert q != p ==> t.procs[q] == s.procs[q];
    }
  }

  // Waking a process, for whatever reason
  lemma WokenQuiet(s: Sys, q: nat, chan: Chan)
    requires q < |s.procs|
    ensures Quiet(s, Woken(s, q, chan)) && forall p | 0 <= p < |s.procs| :: Woken(s, q, chan).procs[p].pc == s.procs[p].pc
  {
    OneQuiet(s, Woken(s, q, chan), q);
  }

  lemma SignalledQuiet(s: Sys, t: nat, signo: nat)
    requires t < |s.procs|
    ensures Quiet(s, Signalled(s, t, signo)) && forall p | 0 <= p < |s.procs| :: Signalled(s, t, signo).procs[p].pc == s.procs[p].pc
  {
    OneQuiet(s, Signalled(s, t, signo), t);
  }

  lemma RunQuiet(s: Sys, e: Event)
    requires Basic(s) && RunEnabled(s, e)
    ensures Quiet(s, RunNext(s, e))
  {
    hide Basic, Quiet, QuietAt;
    match e
    case WakeAt(q, n) => WokenQuiet(s, q, Other(n));
    case Signal(t, signo) => SignalledQuiet(s, t, signo);
    case Resumed(p) => RunsState(s, p); OneQuiet(s, With(s, p, Continued(s.procs[p])), p) by { ContinuedQuiet(s.procs[p]); }
    case Yield(p) => OutQuiet(s, p, s.procs[p].chan, RUNNABLE, Resume(Yielded));
    case StopTest(p) => RunsState(s, p); InPlaceQuiet(s, p, s.procs[p].(needStop := false, pc := Stopping));
    case StopNow(p) => OutQuiet(s, p, s.procs[p].chan, STOPPED, Resume(Stopped));
    case SetFlags(p, stop, killed) => RunsState(s, p); InPlaceQuiet(s, p, s.procs[p].(needStop := stop, killed := killed));
    case Sleep(p, n) => OutQuiet(s, p, Other(n), SLEEPING, Resume(Slept));
  }

  lemma ContinuedQuiet(x: Proc)
    requires x.state == RUNNING && x.pc.Resume?
    ensures QuietAt(x, Continued(x))
  {
  }

  lemma InPlaceQuiet(s: Sys, p: nat, y: Proc)
    requires p < |s.procs| && s.procs[p].state == RUNNING
    requires y == s.procs[p].(needStop := y.needStop, killed := y.killed, pc := y.pc)
    requires !s.procs[p].pc.HoldsWait() && !y.pc.HoldsWait() && !Exiting(s.procs[p].pc) && !Exiting(y.pc)
    ensures Quiet(s, With(s, p, y))
  {
    OneQuiet(s, With(s, p, y), p);
  }

  // Switching out, other than in wait and exit
  lemma OutQuiet(s: Sys, p: nat, chan: Chan, state: PState, pc: Pc)
    requires Basic(s) && Runs(s, p) && !s.procs[p].pc.HoldsWait() && !Exiting(s.procs[p].pc)
    requires pc.Resume? && !pc.k.Waiting? && (state == RUNNABLE || state == SLEEPING || state == STOPPED)
    ensures s.procs[p].(chan := s.procs[p].chan) == s.procs[p] && With(s, p, s.procs[p]) == s
    ensures Quiet(s, SwitchedOut(With(s, p, s.procs[p].(chan := chan)), p, state, pc))
  {
    RunsState(s, p);
    OneQuiet(s, SwitchedOut(With(s, p, s.procs[p].(chan := chan)), p, state, pc), p);
  }

  lemma RunsState(s: Sys, p: nat)
    requires Basic(s) && p < |s.procs| && s.procs[p].loc.RunningOn?
    ensures s.procs[p].state == RUNNING && !s.procs[p].pc.Gone?
  {
    hide Places, Forks;
    assert LocalOk(p, s.procs[p]);
  }

  // ---- steps of fork ----

  lemma Forked(s: Sys, p: nat)
    requires Basic(s) && Family(s) && Runs(s, p) && s.procs[p].pc.Forking?
    ensures s.procs[p].state == RUNNING && s.procs[p].pc.np < NPROC == |s.procs|
    ensures var np := s.procs[p].pc.np; s.procs[np].state == USED && s.procs[np].pc.Resume? && s.procs[np].parent == None && np != INIT
  {
    hide Places;
    RunsState(s, p);
    var np := s.procs[p].pc.np;
    assert ForkOk(s, p) && LocalOk(np, s.procs[np]) && KinOk(s, np);
  }

  lemma AllocQuiet(s: Sys, p: nat, np: nat)
    requires Basic(s) && Family(s) && ForkWaitEnabled(s, ForkAlloc(p, np))
    ensures Quiet(s, Allocated(s, p, np))
  {
    hide Places, Forks;
    RunsState(s, p);
    assert LocalOk(np, s.procs[np]) && KinOk(s, np);
  }

  lemma FailQuiet(s: Sys, p: nat)
    requires Basic(s) && Family(s) && ForkWaitEnabled(s, ForkFail(p))
    ensures Quiet(s, ForkWaitNext(s, ForkFail(p)))
  {
    hide Basic, Family;
    Forked(s, p);
  }

  lemma ForkQuiet(s: Sys, e: Event)
    requires Basic(s) && Family(s) && ForkWaitEnabled(s, e) && (e.ForkAlloc? || e.ForkFail? || e.WaitCall?)
    ensures Quiet(s, ForkWaitNext(s, e))
  {
    hide Basic, Quiet;
    match e
    case ForkAlloc(p, np) => AllocQuiet(s, p, np);
    case ForkFail(p) => FailQuiet(s, p);
    case WaitCall(p, pid) =>
      RunsState(s, p);
      InPlaceQuiet(s, p, s.procs[p].(pc := WaitEnter(pid)));
  }

  lemma CommitKeeps(s: Sys, p: nat)
    requires Basic(s) && WaitInv(s) && ForkWaitEnabled(s, ForkCommit(p))
    ensures WaitInv(ForkWaitNext(s, ForkCommit(p)))
  {
    hide Basic;
    Forked(s, p);
    var np := s.procs[p].pc.np;
    var t := Committed(s, p, np);
    forall z | 0 <= z < |t.procs| ensures KinOk(t, z) {
      assert KinOk(s, z) && KinOk(s, p);
    }
    forall q: nat, z: nat | Awaited(t, q, z) ensures OnTheWay(t, q) {
      assert Awaited(s, q, z) && OnTheWay(s, q);
    }
    if t.waitLock.Some? && s.procs[t.waitLock.value].pc.WaitScan? {
      var WaitScan(pid, i, kids) := s.procs[t.waitLock.value].pc;
      forall z | 0 <= z < i && z < |t.procs| ensures SeenOk(t, t.waitLock.value, pid, kids, z) {
        assert SeenOk(s, t.waitLock.value, pid, kids, z);
      }
    }
  }

  // ---- steps that move one program counter, and wait_lock with it ----

  function Moved(s: Sys, p: nat, pc: Pc, holder: Option<nat>): Sys
    requires p < |s.procs|
  {
    AtPc(s, p, pc).(waitLock := holder)
  }

  lemma MoveKeeps(s: Sys, p: nat, pc: Pc, holder: Option<nat>)
    requires WaitInv(s) && p < NPROC && s.procs[p].state == RUNNING
    requires p == INIT ==> !Exiting(pc)
    requires forall z | 0 <= z < NPROC && s.procs[z].parent == Some(p) :: !Past(pc, z)
    requires if pc.HoldsWait() then holder == Some(p) && (s.waitLock == None || s.waitLock == Some(p))
             else holder == if s.procs[p].pc.HoldsWait() then None else s.waitLock
    requires forall q: nat, z: nat | Awaited(s, q, z) :: OnTheWay(Moved(s, p, pc, holder), q)
    requires ScanOk(Moved(s, p, pc, holder))
    ensures WaitInv(Moved(s, p, pc, holder))
  {
    hide ScanOk;
    var t := Moved(s, p, pc, holder);
    forall z | 0 <= z < |t.procs| ensures KinOk(t, z) {
      assert KinOk(s, z);
    }
    forall q: nat, z: nat | Awaited(t, q, z) ensures OnTheWay(t, q) {
      assert Awaited(s, q, z);
    }
  }

  // Only an exit that has just given children to init leaves anything awaited behind
  lemma NoneAwaited(s: Sys)
    requires NoLost(s)
    requires s.waitLock == None || s.waitLock.value >= |s.procs| || !OnTheWay(s, INIT)
    ensures forall q: nat, z: nat :: !Awaited(s, q, z)
  {
    forall q: nat, z: nat ensures !Awaited(s, q, z) {
      assert Awaited(s, q, z) ==> OnTheWay(s, q);
    }
  }

  lemma WaitTakeKeeps(s: Sys, p: nat)
    requires Basic(s) && WaitInv(s) && ForkWaitEnabled(s, WaitTake(p))
    ensures WaitInv(ForkWaitNext(s, WaitTake(p)))
  {
    hide Basic;
    RunsState(s, p);
    NoneAwaited(s);
    MoveKeeps(s, p, WaitScan(s.procs[p].pc.pid, 0, false), Some(p));
  }

  lemma WaitQuitKeeps(s: Sys, p: nat)
    requires Basic(s) && WaitInv(s) && ForkWaitEnabled(s, WaitQuit(p))
    ensures WaitInv(ForkWaitNext(s, WaitQuit(p)))
  {
    hide Basic;
    RunsState(s, p);
    NoneAwaited(s);
    MoveKeeps(s, p, Live, None);
  }

  lemma LookOnKeeps(s: Sys, p: nat, kids': bool)
    requires Basic(s) && WaitInv(s) && ForkWaitEnabled(s, WaitLook(p))
    requires var WaitScan(pid, i, kids) := s.procs[p].pc;
             if s.procs[i].parent == Some(p) then kids' && !Fits(pid, s.procs[i]) else kids' == kids
    ensures WaitInv(AtPc(s, p, WaitScan(s.procs[p].pc.pid, s.procs[p].pc.i + 1, kids')))
  {
    hide Basic;
    RunsState(s, p);
    NoneAwaited(s);
    var WaitScan(pid, i, kids) := s.procs[p].pc;
    var t := Moved(s, p, WaitScan(pid, i + 1, kids'), s.waitLock);
    forall z | 0 <= z < i + 1 && z < |t.procs| ensures SeenOk(t, p, pid, kids', z) {
      assert z < i ==> SeenOk(s, p, pid, kids, z);
    }
    MoveKeeps(s, p, WaitScan(pid, i + 1, kids'), s.waitLock);
  }

  lemma ReapKeeps(s: Sys, p: nat)
    requires Basic(s) && WaitInv(s) && ForkWaitEnabled(s, WaitLook(p))
    requires var WaitScan(pid, i, kids) := s.procs[p].pc; s.procs[i].parent == Some(p) && Fits(pid, s.procs[i])
    ensures WaitInv(Looked(s, p))
  {
    hide Basic;
    RunsState(s, p);
    NoneAwaited(s);
    var i := s.procs[p].pc.i;
    var t := Looked(s, p);
    assert KinOk(s, i);
    forall z | 0 <= z < |t.procs| ensures KinOk(t, z) {
      assert KinOk(s, z);
    }
    forall q: nat, z: nat ensures !Awaited(t, q, z) {
      assert !Awaited(s, q, z);
    }
  }

  lemma LookKeeps(s: Sys, p: nat)
    requires Basic(s) && WaitInv(s) && ForkWaitEnabled(s, WaitLook(p))
    ensures WaitInv(Looked(s, p))
  {
    hide Basic, WaitInv;
    var WaitScan(pid, i, kids) := s.procs[p].pc;
    KinAt(s, i);
    if s.procs[i].parent == Some(p) && Fits(pid, s.procs[i]) {
      ReapKeeps(s, p);
    } else {
      LookOnKeeps(s, p, kids || s.procs[i].parent == Some(p));
    }
  }

  lemma KinAt(s: Sys, z: nat)
    requires WaitInv(s) && z < |s.procs|
    ensures |s.procs| == NPROC && KinOk(s, z)
  {
  }

  lemma WaitSleepKeeps(s: Sys, p: nat)
    requires Basic(s) && WaitInv(s) && ForkWaitEnabled(s, WaitSleep(p))
    ensures WaitInv(ForkWaitNext(s, WaitSleep(p)))
  {
    hide Basic;
    RunsState(s, p);
    NoneAwaited(s);
    var WaitScan(pid, i, kids) := s.procs[p].pc;
    var t := ForkWaitNext(s, WaitSleep(p));
    assert t.procs == s.procs[p := t.procs[p]];
    forall z | 0 <= z < |t.procs| ensures KinOk(t, z) {
      assert KinOk(s, z);
    }
    forall q: nat, z: nat ensures !Awaited(t, q, z) {
      assert !Awaited(s, q, z);
      assert z < |s.procs| ==> SeenOk(s, p, pid, kids, z);
    }
  }

  lemma ForkWaitKeeps(s: Sys, e: Event)
    requires Basic(s) && WaitInv(s) && ForkWaitEnabled(s, e)
    ensures WaitInv(ForkWaitNext(s, e))
  {
    hide Basic, Family, HolderOk, ScanOk, NoLost, Quiet, ForkWaitEnabled, ForkWaitNext;
    if e.ForkAlloc? || e.ForkFail? || e.WaitCall? {
      ForkQuiet(s, e);
      QuietKeeps(s, ForkWaitNext(s, e));
    } else {
      ForkWaitCases(s, e);
    }
  }

  lemma ForkWaitCases(s: Sys, e: Event)
    requires Basic(s) && WaitInv(s) && ForkWaitEnabled(s, e) && !(e.ForkAlloc? || e.ForkFail? || e.WaitCall?)
    ensures WaitInv(ForkWaitNext(s, e))
  {
    hide Basic, WaitInv;
    match e
    case ForkCommit(p) => CommitKeeps(s, p);
    case WaitTake(p) => WaitTakeKeeps(s, p);
    case WaitLook(p) => LookKeeps(s, p);
    case WaitQuit(p) => WaitQuitKeeps(s, p);
    case WaitSleep(p) => WaitSleepKeeps(s, p);
  }

  // ---- steps of exit ----

  lemma ExitCallKeeps(s: Sys, p: nat)
    requires Basic(s) && WaitInv(s) && ExitEnabled(s, ExitCall(p))
    ensures WaitInv(ExitNext(s, ExitCall(p)))
  {
    hide Basic;
    RunsState(s, p);
    var t := Moved(s, p, ExitEnter(s.procs[p].parent), s.waitLock);
    assert t == ExitNext(s, ExitCall(p));
    forall q: nat, z: nat | Awaited(s, q, z) ensures OnTheWay(t, q) {
      assert OnTheWay(s, q);
    }
    OutsideScan(s, p, ExitEnter(s.procs[p].parent));
    MoveKeeps(s, p, ExitEnter(s.procs[p].parent), s.waitLock);
  }

  // What the holder of wait_lock has seen does not depend on another process's program counter
  lemma OutsideScan(s: Sys, p: nat, pc: Pc)
    requires Family(s) && HolderOk(s) && ScanOk(s) && p < NPROC && s.procs[p].state == RUNNING
    requires !s.procs[p].pc.HoldsWait() && !pc.HoldsWait()
    ensures ScanOk(Moved(s, p, pc, s.waitLock))
  {
    var t := Moved(s, p, pc, s.waitLock);
    if s.waitLock.Some? {
      var h := s.waitLock.value;
      assert h != p && t.procs[h] == s.procs[h];
      if s.procs[h].pc.WaitScan? {
        var WaitScan(pid, i, kids) := s.procs[h].pc;
        forall z | 0 <= z < i && z < |t.procs| ensures SeenOk(t, h, pid, kids, z) {
          assert SeenOk(s, h, pid, kids, z);
        }
      }
    }
  }

  lemma ExitTakeKeeps(s: Sys, p: nat)
    requires Basic(s) && WaitInv(s) && ExitEnabled(s, ExitTake(p))
    ensures WaitInv(ExitNext(s, ExitTake(p)))
  {
    hide Basic;
    RunsState(s, p);
    NoneAwaited(s);
    KinAt(s, p);
    MoveKeeps(s, p, ExitReparent(s.procs[p].pc.pp, 0, false), Some(p));
  }

  // All the children of an exiting process are init's once it is past the loop
  lemma NoKidsLeft(s: Sys, p: nat)
    requires Family(s) && p < NPROC && (s.procs[p].pc.ExitReparent? ==> s.procs[p].pc.i == NPROC) && Exiting(s.procs[p].pc)
    requires !s.procs[p].pc.ExitEnter?
    ensures forall z | 0 <= z < NPROC :: s.procs[z].parent != Some(p)
  {
    forall z | 0 <= z < NPROC ensures s.procs[z].parent != Some(p) {
      assert KinOk(s, z);
    }
  }

  lemma LookedOnKeeps(s: Sys, p: nat)
    requires Basic(s) && WaitInv(s) && ExitEnabled(s, ExitLook(p))
    requires s.procs[p].pc.i == p || s.procs[s.procs[p].pc.i].parent != Some(p)
    ensures WaitInv(Reparented(s, p))
  {
    hide Basic;
    RunsState(s, p);
    var ExitReparent(pp, i, wake) := s.procs[p].pc;
    var t := Moved(s, p, ExitReparent(pp, i + 1, wake), s.waitLock);
    forall q: nat, z: nat | Awaited(s, q, z) ensures OnTheWay(t, q) {
      assert OnTheWay(s, q);
    }
    forall z | 0 <= z < NPROC && s.procs[z].parent == Some(p) ensures !Past(ExitReparent(pp, i + 1, wake), z) {
      assert KinOk(s, z);
    }
    assert KinOk(s, p);
    MoveKeeps(s, p, ExitReparent(pp, i + 1, wake), s.waitLock);
  }

  lemma GivenToInitKeeps(s: Sys, p: nat)
    requires Basic(s) && WaitInv(s) && ExitEnabled(s, ExitLook(p))
    requires s.procs[p].pc.i != p && s.procs[s.procs[p].pc.i].parent == Some(p)
    ensures WaitInv(Reparented(s, p))
  {
    hide Basic;
    RunsState(s, p);
    var ExitReparent(pp, i, wake) := s.procs[p].pc;
    var t := Reparented(s, p);
    assert KinOk(s, INIT) && KinOk(s, p) && KinOk(s, i);
    forall z | 0 <= z < |t.procs| ensures KinOk(t, z) {
      assert KinOk(s, z);
    }
    forall q: nat, z: nat | Awaited(t, q, z) ensures OnTheWay(t, q) {
      assert z == i || Awaited(s, q, z);
    }
  }

  lemma ReparentKeeps(s: Sys, p: nat)
    requires Basic(s) && WaitInv(s) && ExitEnabled(s, ExitLook(p))
    ensures WaitInv(Reparented(s, p))
  {
    hide Basic, WaitInv;
    var i := s.procs[p].pc.i;
    if i == p || s.procs[i].parent != Some(p) {
      LookedOnKeeps(s, p);
    } else {
      GivenToInitKeeps(s, p);
    }
  }

  lemma AfterReparentingKeeps(s: Sys, p: nat)
    requires Basic(s) && WaitInv(s) && ExitEnabled(s, ExitReparented(p))
    ensures WaitInv(AfterReparenting(s, p))
  {
    hide Basic;
    RunsState(s, p);
    NoKidsLeft(s, p);
    assert KinOk(s, p);
    var ExitReparent(pp, i, wake) := s.procs[p].pc;
    if wake {
      var t := Moved(s, p, ExitWakeInit(0), s.waitLock);
      forall q: nat, z: nat | Awaited(s, q, z) ensures OnTheWay(t, q) {
        assert OnTheWay(s, q);
      }
      MoveKeeps(s, p, ExitWakeInit(0), s.waitLock);
    } else {
      NoneAwaited(s);
      if pp.Some? && pp.value != INIT {
        MoveKeeps(s, p, ExitSend(if pp.value < |s.procs| then s.procs[pp.value].pid else -1), None);
      } else {
        MoveKeeps(s, p, ExitWakeParent(s.procs[p].parent, 0), s.waitLock);
      }
    }
  }

  lemma WakeInitKeeps(s: Sys, p: nat)
    requires Basic(s) && WaitInv(s) && ExitEnabled(s, ExitWakeInitAt(p))
    ensures WaitInv(ExitNext(s, ExitWakeInitAt(p)))
  {
    hide Basic;
    var i := s.procs[p].pc.i;
    var u := Woken(s, i, OnProc(INIT));
    WakeTurn(s, p, i, OnProc(INIT));
    NoKidsLeft(u, p);
    assert KinOk(u, p);
    forall q: nat, z: nat ensures !Awaited(u, q, z) {
      assert Awaited(u, q, z) ==> OnTheWay(u, q);
    }
    MoveKeeps(u, p, ExitWakeInit(i + 1), u.waitLock);
  }

  // One turn of wakeup: p runs on, and pool[i] is not asleep on chan any more
  lemma WakeTurn(s: Sys, p: nat, i: nat, chan: Chan)
    requires Basic(s) && WaitInv(s) && Runs(s, p) && Unlocked(s, i)
    ensures var u := Woken(s, i, chan);
            && WaitInv(u) && |u.procs| == |s.procs| && u.waitLock == s.waitLock && u.procs[p] == s.procs[p] && u.procs[p].state == RUNNING
            && (chan == OnProc(i) ==> !Asleep(u.procs[i]))
            && (forall q | 0 <= q < |s.procs| && q != i :: u.procs[q] == s.procs[q])
            && (Asleep(u.procs[i]) ==> Asleep(s.procs[i]))
  {
    RunsState(s, p);
    hide Forks, Places;
    assert LocalOk(i, s.procs[i]);
    hide Family, HolderOk, ScanOk, NoLost, Quiet;
    WokenQuiet(s, i, chan);
    QuietKeeps(s, Woken(s, i, chan));
  }

  lemma InitWokenKeeps(s: Sys, p: nat)
    requires Basic(s) && WaitInv(s) && ExitEnabled(s, ExitInitWoken(p))
    ensures WaitInv(ExitNext(s, ExitInitWoken(p)))
  {
    hide Basic;
    RunsState(s, p);
    NoneAwaited(s);
    NoKidsLeft(s, p);
    assert KinOk(s, p);
    MoveKeeps(s, p, ExitWakeParent(s.procs[p].parent, 0), s.waitLock);
  }

  lemma SentKeeps(s: Sys, p: nat, target: Option<nat>)
    requires Basic(s) && WaitInv(s) && ExitEnabled(s, ExitSent(p, target))
    ensures WaitInv(ExitNext(s, ExitSent(p, target)))
  {
    var u := if target.Some? then Signalled(s, target.value, SIGCHLD) else s;
    RunsState(s, p);
    if target.Some? {
      SignalledQuiet(s, target.value, SIGCHLD);
      QuietKeeps(s, u);
    }
    hide Basic;
    NoKidsLeft(u, p);
    assert KinOk(u, p);
    var t := Moved(u, p, ExitReenter, u.waitLock);
    forall q: nat, z: nat | Awaited(u, q, z) ensures OnTheWay(t, q) {
      assert OnTheWay(u, q);
    }
    OutsideScan(u, p, ExitReenter);
    MoveKeeps(u, p, ExitReenter, u.waitLock);
  }

  lemma RetakeKeeps(s: Sys, p: nat)
    requires Basic(s) && WaitInv(s) && ExitEnabled(s, ExitRetake(p))
    ensures WaitInv(ExitNext(s, ExitRetake(p)))
  {
    hide Basic;
    RunsState(s, p);
    NoneAwaited(s);
    NoKidsLeft(s, p);
    assert KinOk(s, p);
    MoveKeeps(s, p, ExitWakeParent(s.procs[p].parent, 0), Some(p));
  }

  lemma WakeParentKeeps(s: Sys, p: nat)
    requires Basic(s) && WaitInv(s) && ExitEnabled(s, ExitWakeParentAt(p))
    ensures WaitInv(ExitNext(s, ExitWakeParentAt(p)))
  {
    hide Basic, WaitInv;
    var ExitWakeParent(par, i) := s.procs[p].pc;
    var u := if par.Some? then Woken(s, i, OnProc(par.value)) else s;
    RunsState(s, p);
    if par.Some? {
      WakeTurn(s, p, i, OnProc(par.value));
    }
    ParentPassed(u, p, par, i);
  }

  // pool[i] is not asleep on the parent's channel any more
  lemma ParentPassed(s: Sys, p: nat, par: Option<nat>, i: nat)
    requires WaitInv(s) && p < |s.procs| && s.procs[p].state == RUNNING && s.procs[p].pc == ExitWakeParent(par, i)
    requires par == Some(i) && i < |s.procs| ==> !Asleep(s.procs[i])
    ensures WaitInv(Moved(s, p, ExitWakeParent(par, i + 1), s.waitLock))
  {
    NoKidsLeft(s, p);
    assert KinOk(s, p);
    NoneAwaited(s);
    hide NoLost;
    MoveKeeps(s, p, ExitWakeParent(par, i + 1), s.waitLock);
  }

  lemma ZombieKeeps(s: Sys, p: nat)
    requires Basic(s) && WaitInv(s) && ExitEnabled(s, ExitZombie(p))
    ensures WaitInv(ExitNext(s, ExitZombie(p)))
  {
    hide Basic;
    RunsState(s, p);
    NoKidsLeft(s, p);
    NoneAwaited(s);
    assert KinOk(s, p);
    var t := ExitNext(s, ExitZombie(p));
    assert t.procs == s.procs[p := t.procs[p]];
    forall z | 0 <= z < |t.procs| ensures KinOk(t, z) {
      assert KinOk(s, z);
    }
    forall q: nat, z: nat ensures !Awaited(t, q, z) {
      assert !Awaited(s, q, z);
    }
  }

  lemma ExitKeeps(s: Sys, e: Event)
    requires Basic(s) && WaitInv(s) && ExitEnabled(s, e)
    ensures WaitInv(ExitNext(s, e))
  {
    hide Basic, WaitInv;
    match e
    case ExitCall(p) => ExitCallKeeps(s, p);
    case ExitTake(p) => ExitTakeKeeps(s, p);
    case ExitLook(p) => ReparentKeeps(s, p);
    case ExitReparented(p) => AfterReparentingKeeps(s, p);
    case ExitWakeInitAt(p) => WakeInitKeeps(s, p);
    case ExitInitWoken(p) => InitWokenKeeps(s, p);
    case ExitSent(p, target) => SentKeeps(s, p, target);
    case ExitRetake(p) => RetakeKeeps(s, p);
    case ExitWakeParentAt(p) => WakeParentKeeps(s, p);
    case ExitZombie(p) => ZombieKeeps(s, p);
  }

  // ---- every step, every run ----

  ghost predicate Inv(s: Sys) {
    Basic(s) && WaitInv(s)
  }

  lemma StepKeeps(s: Sys, e: Event)
    requires Inv(s) && Enabled(s, e)
    ensures Inv(Next(s, e))
  {
    hide Basic, Family, HolderOk, ScanOk, NoLost, Quiet, SchedEnabled, RunEnabled, ForkWaitEnabled, ExitEnabled,
         SchedNext, RunNext, ForkWaitNext, ExitNext;
    StepBasic(s, e);
    if SchedEnabled(s, e) {
      SchedQuiet(s, e);
      QuietKeeps(s, SchedNext(s, e));
    } else if RunEnabled(s, e) {
      RunQuiet(s, e);
      QuietKeeps(s, RunNext(s, e));
    } else if ForkWaitEnabled(s, e) {
      ForkWaitKeeps(s, e);
    } else {
      ExitKeeps(s, e);
    }
  }
}
