/**
 * What the steps of modules Scheduler and WaitExit do, seen from one process: when it changes its
 * state, its parent, its pid and its flags, which child wait takes, and who enters the run queue.
 */
module ProcessLife {
  import opened Common
  import opened Scheduler
  import opened WaitExit
  import opened SchedulerRuns

  // ---- causes ----

  // p is making np
  predicate Making(s: Sys, p: nat, np: nat) {
    p < |s.procs| && s.procs[p].pc == Forking(np)
  }

  // The scan of p has come to z, its exited child, and z is one that p waits for
  predicate Takes(s: Sys, p: nat, z: nat) {
    && p < |s.procs| && z < |s.procs| && z != p
    && s.procs[p].pc.WaitScan? && s.procs[p].pc.i == z
    && s.procs[z].parent == Some(p) && s.procs[z].state == ZOMBIE
    && (s.procs[p].pc.pid <= 0 || s.procs[z].pid == s.procs[p].pc.pid)
  }

  // p, asleep, is woken: on the channel it sleeps on, or by a signal
  predicate Wakes(s: Sys, e: Event, p: nat)
    requires p < |s.procs|
  {
    match e
    case WakeAt(q, n) => q == p && s.procs[p].chan == Other(n)
    case Signal(t, signo) => t == p && (signo == SIGKILL || signo == SIGSTOP || signo == SIGCHLD)
    case ExitSent(_, target) => target == Some(p)
    case ExitWakeInitAt(r) => r < |s.procs| && s.procs[r].pc == ExitWakeInit(p) && s.procs[p].chan == OnProc(INIT)
    case ExitWakeParentAt(r) =>
      && r < |s.procs| && s.procs[r].pc.ExitWakeParent? && s.procs[r].pc.i == p
      && s.procs[r].pc.par.Some? && s.procs[p].chan == OnProc(s.procs[r].pc.par.value)
    case _ => false
  }

  // The slot of p is given back
  predicate Frees(s: Sys, e: Event, p: nat) {
    (e.ForkFail? && Making(s, e.p, p)) || (e.WaitLook? && Takes(s, e.p, p))
  }

  // ---- the life of a process ----

  function StateAfter(s: Sys, e: Event, p: nat): PState
    requires p < |s.procs|
  {
    match s.procs[p].state
    case UNUSED => if e.ForkAlloc? && e.np == p then USED else UNUSED
    case USED =>
      if e.ForkCommit? && Making(s, e.p, p) then RUNNABLE
      else if e.ForkFail? && Making(s, e.p, p) then UNUSED
      else USED
    case RUNNABLE => if e.Dispatch? && e.c in s.cpus && s.cpus[e.c] == Popped(p) then RUNNING else RUNNABLE
    case RUNNING =>
      if e == Yield(p) then RUNNABLE
      else if e == WaitSleep(p) || (e.Sleep? && e.p == p) then SLEEPING
      else if e == StopNow(p) then STOPPED
      else if e == ExitZombie(p) then ZOMBIE
      else RUNNING
    case SLEEPING => if Wakes(s, e, p) then RUNNABLE else SLEEPING
    case STOPPED => if e == Signal(p, SIGCONT) then RUNNABLE else STOPPED
    case ZOMBIE => if e.WaitLook? && Takes(s, e.p, p) then UNUSED else ZOMBIE
  }

  lemma StateIs(s: Sys, e: Event, p: nat)
    requires Inv(s) && Enabled(s, e) && p < NPROC
    ensures |s.procs| == |Next(s, e).procs| == NPROC && Next(s, e).procs[p].state == StateAfter(s, e, p)
  {
    hide Basic, Family, HolderOk, ScanOk, NoLost, SchedNext, RunNext, ForkWaitNext, ExitNext, SchedEnabled, RunEnabled,
         ForkWaitEnabled, ExitEnabled, StateAfter;
    InvShape(s);
    if SchedEnabled(s, e) {
      StateBySched(s, e, p);
    } else if RunEnabled(s, e) {
      StateByRun(s, e, p);
    } else if ForkWaitEnabled(s, e) {
      StateByForkWait(s, e, p);
    } else {
      StateByExit(s, e, p);
    }
  }

  lemma StateBySched(s: Sys, e: Event, p: nat)
    requires Basic(s) && SchedEnabled(s, e) && p < NPROC
    ensures SchedNext(s, e).procs[p].state == StateAfter(s, e, p)
  {
    hide Forks;
    assert LocalOk(p, s.procs[p]) && LocOk(s, p);
    if !e.Fetch? {
      assert CpuOk(s, e.c);
    }
  }

  lemma StateByRun(s: Sys, e: Event, p: nat)
    requires Basic(s) && RunEnabled(s, e) && p < NPROC
    ensures RunNext(s, e).procs[p].state == StateAfter(s, e, p)
  {
    hide Basic, StateAfter, RunNext;
    if Rouses(e) {
      StateByRousing(s, e, p);
    } else {
      StateBySelf(s, e, p);
    }
  }

  lemma StateByRousing(s: Sys, e: Event, p: nat)
    requires Basic(s) && RunEnabled(s, e) && p < NPROC && Rouses(e)
    ensures RunNext(s, e).procs[p].state == StateAfter(s, e, p)
  {
    hide Places, Forks, Woken, Signalled, LocalOk, Takes, Making;
    if e.WakeAt? {
      WokenState(s, e.q, Other(e.n), p);
    } else {
      SignalledState(s, e.t, e.signo, p);
    }
  }

  lemma StateBySelf(s: Sys, e: Event, p: nat)
    requires Basic(s) && RunEnabled(s, e) && p < NPROC && !Rouses(e)
    ensures RunNext(s, e).procs[p].state == StateAfter(s, e, p)
  {
    hide Places, Forks, Wakes, Takes, Making, Woken, Signalled;
    NoWake(s, e, p);
    assert LocalOk(p, s.procs[p]);
  }

  // The steps that may wake somebody
  predicate Rouses(e: Event) {
    e.WakeAt? || e.Signal? || e.ExitSent? || e.ExitWakeInitAt? || e.ExitWakeParentAt?
  }

  lemma NoWake(s: Sys, e: Event, p: nat)
    requires p < |s.procs| && !Rouses(e)
    ensures !Wakes(s, e, p)
  {
  }

  lemma WokenState(s: Sys, q: nat, chan: Chan, p: nat)
    requires q < |s.procs| && p < |s.procs|
    ensures |Woken(s, q, chan).procs| == |s.procs|
    ensures Woken(s, q, chan).procs[p].state == if p == q && s.procs[p].state == SLEEPING && s.procs[p].chan == chan then RUNNABLE
                                                else s.procs[p].state
  {
  }

  lemma SignalledState(s: Sys, q: nat, signo: nat, p: nat)
    requires q < |s.procs| && p < |s.procs|
    ensures |Signalled(s, q, signo).procs| == |s.procs|
    ensures Signalled(s, q, signo).procs[p].state ==
            if p == q && s.procs[p].state == SLEEPING && (signo == SIGKILL || signo == SIGSTOP || signo == SIGCHLD) then RUNNABLE
            else if p == q && s.procs[p].state == STOPPED && signo == SIGCONT then RUNNABLE
            else s.procs[p].state
  {
  }

  lemma StateByForkWait(s: Sys, e: Event, p: nat)
    requires Basic(s) && ForkWaitEnabled(s, e) && p < NPROC
    ensures ForkWaitNext(s, e).procs[p].state == StateAfter(s, e, p)
  {
    hide Places;
    assert LocalOk(p, s.procs[p]) && LocalOk(e.p, s.procs[e.p]) && ForkOk(s, e.p) && ForkOk(s, p);
    hide Forks, Locals, Looked;
    if e.WaitLook? {
      StateByLook(s, e.p, p);
    }
  }

  lemma StateByLook(s: Sys, w: nat, p: nat)
    requires |s.procs| == NPROC && ForkWaitEnabled(s, WaitLook(w)) && p < NPROC
    ensures |Looked(s, w).procs| == NPROC && Looked(s, w).procs[p].state == StateAfter(s, WaitLook(w), p)
  {
  }

  lemma StateByExit(s: Sys, e: Event, p: nat)
    requires Basic(s) && ExitEnabled(s, e) && p < NPROC
    ensures ExitNext(s, e).procs[p].state == StateAfter(s, e, p)
  {
    hide Basic, StateAfter, ExitNext;
    if Rouses(e) {
      StateByExitRousing(s, e, p);
    } else {
      StateByExitSelf(s, e, p);
    }
  }

  lemma StateByExitRousing(s: Sys, e: Event, p: nat)
    requires Basic(s) && ExitEnabled(s, e) && p < NPROC && Rouses(e)
    ensures ExitNext(s, e).procs[p].state == StateAfter(s, e, p)
  {
    hide Places, Forks, Woken, Signalled, Takes, Making;
    assert LocalOk(e.p, s.procs[e.p]);
    hide Locals, LocalOk;
    if e.ExitWakeInitAt? {
      WokenState(s, s.procs[e.p].pc.i, OnProc(INIT), p);
    } else if e.ExitWakeParentAt? && s.procs[e.p].pc.par.Some? {
      WokenState(s, s.procs[e.p].pc.i, OnProc(s.procs[e.p].pc.par.value), p);
    } else if e.ExitSent? && e.target.Some? {
      SignalledState(s, e.target.value, SIGCHLD, p);
    }
  }

  lemma StateByExitSelf(s: Sys, e: Event, p: nat)
    requires Basic(s) && ExitEnabled(s, e) && p < NPROC && !Rouses(e)
    ensures ExitNext(s, e).procs[p].state == StateAfter(s, e, p)
  {
    hide Places, Forks, Wakes, Takes, Making, Woken, Signalled;
    NoWake(s, e, p);
    assert LocalOk(p, s.procs[p]);
  }

  // ---- its family, pid and flags ----

  // fork makes the caller the parent; exit gives the children to init
  function ParentAfter(s: Sys, e: Event, p: nat): Option<nat>
    requires p < |s.procs|
  {
    if e.ForkCommit? && Making(s, e.p, p) then Some(e.p)
    else if Frees(s, e, p) || (e.ForkAlloc? && e.np == p) then None
    else if e.ExitLook? && e.p != p && e.p < |s.procs| && s.procs[e.p].pc.ExitReparent? && s.procs[e.p].pc.i == p
            && s.procs[p].parent == Some(e.p) then Some(INIT)
    else s.procs[p].parent
  }

  function PidAfter(s: Sys, e: Event, p: nat): int
    requires p < |s.procs|
  {
    if e.ForkAlloc? && e.np == p then s.nextPid else if Frees(s, e, p) then -1 else s.procs[p].pid
  }

  function KilledAfter(s: Sys, e: Event, p: nat): bool
    requires p < |s.procs|
  {
    if e == Signal(p, SIGKILL) then true
    else if e.SetFlags? && e.p == p then e.killed
    else if Frees(s, e, p) then false
    else s.procs[p].killed
  }

  function NeedStopAfter(s: Sys, e: Event, p: nat): bool
    requires p < |s.procs|
  {
    if e.SetFlags? && e.p == p then e.stop
    else if e == Signal(p, SIGCONT) || e == StopTest(p) || (e.ForkAlloc? && e.np == p) then false
    else s.procs[p].needStop
  }

  function ChanAfter(s: Sys, e: Event, p: nat): Chan
    requires p < |s.procs|
  {
    if e == WaitSleep(p) then OnProc(p)
    else if e.Sleep? && e.p == p then Other(e.n)
    else if Frees(s, e, p) || (e.ForkAlloc? && e.np == p) then NoChan
    else if e == Resumed(p) && (s.procs[p].pc == Resume(Slept) || (s.procs[p].pc.Resume? && s.procs[p].pc.k.Waiting?)) then NoChan
    else s.procs[p].chan
  }

  predicate FieldsAre(s: Sys, e: Event, p: nat, y: Proc)
    requires p < |s.procs|
  {
    && y.parent == ParentAfter(s, e, p) && y.pid == PidAfter(s, e, p) && y.killed == KilledAfter(s, e, p)
    && y.needStop == NeedStopAfter(s, e, p) && y.chan == ChanAfter(s, e, p)
  }

  // Most steps concern none of these
  predicate Plain(e: Event) {
    && !e.ForkAlloc? && !e.ForkCommit? && !e.ForkFail? && !e.WaitLook? && !e.WaitSleep? && !e.ExitLook?
    && !e.Signal? && !e.SetFlags? && !e.StopTest? && !e.Sleep? && !e.Resumed?
  }

  lemma PlainFields(s: Sys, e: Event, p: nat, y: Proc)
    requires p < |s.procs| && Plain(e)
    requires y.parent == s.procs[p].parent && y.pid == s.procs[p].pid && y.killed == s.procs[p].killed
    requires y.needStop == s.procs[p].needStop && y.chan == s.procs[p].chan
    ensures FieldsAre(s, e, p, y)
  {
  }

  lemma FieldsAfter(s: Sys, e: Event, p: nat)
    requires Inv(s) && Enabled(s, e) && p < NPROC
    ensures |s.procs| == |Next(s, e).procs| == NPROC && FieldsAre(s, e, p, Next(s, e).procs[p])
    ensures Next(s, e).nextPid == if e.ForkAlloc? then s.nextPid + 1 else s.nextPid
  {
    hide Basic, Family, HolderOk, ScanOk, NoLost, SchedNext, RunNext, ForkWaitNext, ExitNext, SchedEnabled, RunEnabled,
         ForkWaitEnabled, ExitEnabled, FieldsAre;
    InvShape(s);
    if SchedEnabled(s, e) {
      FieldsBySched(s, e, p);
    } else if RunEnabled(s, e) {
      FieldsByRun(s, e, p);
    } else if ForkWaitEnabled(s, e) {
      FieldsByForkWait(s, e, p);
    } else {
      FieldsByExit(s, e, p);
    }
  }

  lemma FieldsBySched(s: Sys, e: Event, p: nat)
    requires |s.procs| == NPROC && SchedEnabled(s, e) && p < NPROC
    ensures FieldsAre(s, e, p, SchedNext(s, e).procs[p]) && SchedNext(s, e).nextPid == s.nextPid && !e.ForkAlloc?
  {
  }

  lemma FieldsByRun(s: Sys, e: Event, p: nat)
    requires |s.procs| == NPROC && RunEnabled(s, e) && p < NPROC
    ensures FieldsAre(s, e, p, RunNext(s, e).procs[p]) && RunNext(s, e).nextPid == s.nextPid && !e.ForkAlloc?
  {
    hide Woken, Signalled;
    if Plain(e) {
      hide FieldsAre;
      if e.WakeAt? {
        WokenFields(s, e.q, Other(e.n), p);
      }
      PlainFields(s, e, p, RunNext(s, e).procs[p]);
    } else if e.Signal? {
      SignalledFields(s, e.t, e.signo, p);
    }
  }

  lemma WokenFields(s: Sys, q: nat, chan: Chan, p: nat)
    requires |s.procs| == NPROC && q < NPROC && p < NPROC
    ensures var t := Woken(s, q, chan);
            && |t.procs| == NPROC && t.nextPid == s.nextPid
            && t.procs[p] == s.procs[p].(state := t.procs[p].state, loc := t.procs[p].loc)
  {
  }

  lemma SignalledFields(s: Sys, q: nat, signo: nat, p: nat)
    requires |s.procs| == NPROC && q < NPROC && p < NPROC
    ensures var t := Signalled(s, q, signo);
            && |t.procs| == NPROC && t.nextPid == s.nextPid
            && t.procs[p] == s.procs[p].(state := t.procs[p].state, loc := t.procs[p].loc,
                                         killed := s.procs[p].killed || (p == q && signo == SIGKILL),
                                         needStop := s.procs[p].needStop && !(p == q && signo == SIGCONT))
  {
  }

  lemma FieldsByForkWait(s: Sys, e: Event, p: nat)
    requires Basic(s) && ForkWaitEnabled(s, e) && p < NPROC
    ensures FieldsAre(s, e, p, ForkWaitNext(s, e).procs[p])
    ensures ForkWaitNext(s, e).nextPid == if e.ForkAlloc? then s.nextPid + 1 else s.nextPid
  {
    hide Places, Looked, FieldsAre;
    if e.WaitLook? {
      FieldsByLook(s, e.p, p);
    } else if Plain(e) {
      PlainFields(s, e, p, ForkWaitNext(s, e).procs[p]);
    } else {
      assert LocalOk(e.p, s.procs[e.p]) && ForkOk(s, e.p);
      FieldsByForking(s, e, p);
    }
  }

  lemma FieldsByForking(s: Sys, e: Event, p: nat)
    requires |s.procs| == NPROC && ForkWaitEnabled(s, e) && p < NPROC
    requires e.ForkAlloc? || e.ForkCommit? || e.ForkFail? || e.WaitSleep?
    requires e.ForkAlloc? ==> e.np != e.p
    requires e.ForkCommit? || e.ForkFail? ==> s.procs[e.p].pc.np != e.p
    ensures FieldsAre(s, e, p, ForkWaitNext(s, e).procs[p])
    ensures ForkWaitNext(s, e).nextPid == if e.ForkAlloc? then s.nextPid + 1 else s.nextPid
  {
  }

  lemma FieldsByLook(s: Sys, w: nat, p: nat)
    requires |s.procs| == NPROC && ForkWaitEnabled(s, WaitLook(w)) && p < NPROC
    ensures |Looked(s, w).procs| == NPROC && FieldsAre(s, WaitLook(w), p, Looked(s, w).procs[p])
    ensures Looked(s, w).nextPid == s.nextPid
  {
  }

  lemma FieldsByExit(s: Sys, e: Event, p: nat)
    requires |s.procs| == NPROC && ExitEnabled(s, e) && p < NPROC
    ensures FieldsAre(s, e, p, ExitNext(s, e).procs[p]) && ExitNext(s, e).nextPid == s.nextPid && !e.ForkAlloc?
  {
    hide Woken, Signalled, FieldsAre, Reparented;
    if e.ExitLook? {
      FieldsByReparent(s, e.p, p);
    } else {
      if e.ExitWakeInitAt? {
        WokenFields(s, s.procs[e.p].pc.i, OnProc(INIT), p);
      } else if e.ExitWakeParentAt? && s.procs[e.p].pc.par.Some? {
        WokenFields(s, s.procs[e.p].pc.i, OnProc(s.procs[e.p].pc.par.value), p);
      } else if e.ExitSent? && e.target.Some? {
        SignalledFields(s, e.target.value, SIGCHLD, p);
      }
      PlainFields(s, e, p, ExitNext(s, e).procs[p]);
    }
  }

  lemma FieldsByReparent(s: Sys, r: nat, p: nat)
    requires |s.procs| == NPROC && ExitEnabled(s, ExitLook(r)) && p < NPROC
    ensures |Reparented(s, r).procs| == NPROC && FieldsAre(s, ExitLook(r), p, Reparented(s, r).procs[p])
    ensures Reparented(s, r).nextPid == s.nextPid
  {
  }

  // ---- wait ----

  // One look of wait's scan: an exited child that fits is reclaimed and ends the wait; anything else
  // is passed over, and only remembered if it is a child
  lemma WaitTakes(s: Sys, p: nat)
    requires Inv(s) && Enabled(s, WaitLook(p))
    ensures p < NPROC && |s.procs| == |Next(s, WaitLook(p)).procs| == NPROC && s.procs[p].pc.WaitScan?
    ensures var t, z, pc := Next(s, WaitLook(p)), s.procs[p].pc.i, s.procs[p].pc;
            && z < NPROC
            && (Takes(s, p, z) ==> t.procs[p].pc == Live && t.waitLock == None && t.procs[z].state == UNUSED)
            && (!Takes(s, p, z) ==>
                  && t.procs[p].pc == WaitScan(pc.pid, z + 1, pc.kids || (z != p && s.procs[z].parent == Some(p)))
                  && t.waitLock == s.waitLock
                  && forall q | 0 <= q < NPROC :: t.procs[q].state == s.procs[q].state)
  {
    hide WaitInv, Places, Forks;
    InvShape(s);
    assert LocalOk(p, s.procs[p]);
    hide Locals, LocalOk;
  }

  // The argument of the wait that p is in
  function WaitArg(pc: Pc): Option<int> {
    match pc
    case WaitEnter(pid) => Some(pid)
    case WaitScan(pid, _, _) => Some(pid)
    case Resume(Waiting(pid)) => Some(pid)
    case _ => None
  }

  lemma ArgAfter(s: Sys, e: Event, p: nat)
    requires Inv(s) && Enabled(s, e) && p < NPROC
    ensures |s.procs| == |Next(s, e).procs| == NPROC
    ensures WaitArg(Next(s, e).procs[p].pc) ==
            if e.WaitCall? && e.p == p then Some(e.pid)
            else if e == WaitQuit(p) || (e == WaitLook(p) && s.procs[p].pc.WaitScan? && Takes(s, p, s.procs[p].pc.i))
                    || (e.ForkAlloc? && e.np == p) then None
            else WaitArg(s.procs[p].pc)
  {
    hide Basic, Family, HolderOk, ScanOk, NoLost, SchedNext, RunNext, ForkWaitNext, ExitNext, SchedEnabled, RunEnabled,
         ForkWaitEnabled, ExitEnabled, WaitArg, Takes;
    InvShape(s);
    if SchedEnabled(s, e) {
      ArgBySched(s, e, p);
    } else if RunEnabled(s, e) {
      ArgByRun(s, e, p);
    } else if ForkWaitEnabled(s, e) {
      ArgByForkWait(s, e, p);
    } else {
      ArgByExit(s, e, p);
    }
  }

  lemma ArgBySched(s: Sys, e: Event, p: nat)
    requires |s.procs| == NPROC && SchedEnabled(s, e) && p < NPROC
    ensures SchedNext(s, e).procs[p].pc == s.procs[p].pc
    ensures !e.WaitCall? && !e.WaitQuit? && !e.WaitLook? && !e.ForkAlloc?
  {
  }

  lemma ArgByRun(s: Sys, e: Event, p: nat)
    requires |s.procs| == NPROC && RunEnabled(s, e) && p < NPROC
    ensures WaitArg(RunNext(s, e).procs[p].pc) == WaitArg(s.procs[p].pc)
    ensures !e.WaitCall? && !e.WaitQuit? && !e.WaitLook? && !e.ForkAlloc?
  {
    hide Woken, Signalled;
    if e.WakeAt? {
      WokenFields(s, e.q, Other(e.n), p);
    } else if e.Signal? {
      SignalledFields(s, e.t, e.signo, p);
    }
  }

  lemma ArgByForkWait(s: Sys, e: Event, p: nat)
    requires Basic(s) && ForkWaitEnabled(s, e) && p < NPROC
    ensures WaitArg(ForkWaitNext(s, e).procs[p].pc) ==
            if e.WaitCall? && e.p == p then Some(e.pid)
            else if e == WaitQuit(p) || (e == WaitLook(p) && s.procs[p].pc.WaitScan? && Takes(s, p, s.procs[p].pc.i))
                    || (e.ForkAlloc? && e.np == p) then None
            else WaitArg(s.procs[p].pc)
  {
    hide Places;
    assert LocalOk(e.p, s.procs[e.p]) && ForkOk(s, e.p);
    assert e.ForkAlloc? ==> LocalOk(e.np, s.procs[e.np]);
    hide Forks, Locals, ForkOk;
  }

  lemma ArgByExit(s: Sys, e: Event, p: nat)
    requires |s.procs| == NPROC && ExitEnabled(s, e) && p < NPROC
    ensures WaitArg(ExitNext(s, e).procs[p].pc) == WaitArg(s.procs[p].pc)
    ensures !e.WaitCall? && !e.WaitQuit? && !e.WaitLook? && !e.ForkAlloc?
  {
    hide Woken, Signalled;
    if e.ExitWakeInitAt? {
      WokenFields(s, s.procs[e.p].pc.i, OnProc(INIT), p);
    } else if e.ExitWakeParentAt? && s.procs[e.p].pc.par.Some? {
      WokenFields(s, s.procs[e.p].pc.i, OnProc(s.procs[e.p].pc.par.value), p);
    } else if e.ExitSent? && e.target.Some? {
      SignalledFields(s, e.target.value, SIGCHLD, p);
    }
  }

  // p calls wait at step i, and up to state j has not called it again
  ghost predicate InWait(ss: seq<Sys>, es: seq<Event>, p: nat, i: nat, j: nat) {
    && Run(ss, es) && i < j < |ss| && p < NPROC && es[i].WaitCall? && es[i].p == p
    && forall k | i < k < j :: !(es[k].WaitCall? && es[k].p == p)
  }

  lemma {:induction false} ArgKept(ss: seq<Sys>, es: seq<Event>, p: nat, i: nat, j: nat)
    requires InWait(ss, es, p, i, j)
    ensures |ss[j].procs| == NPROC && (WaitArg(ss[j].procs[p].pc) == None || WaitArg(ss[j].procs[p].pc) == Some(es[i].pid))
  {
    hide Inv, Enabled, Next, Booted, WaitArg;
    RunKeeps(ss, es, j - 1);
    assert Enabled(ss[j - 1], es[j - 1]);
    ArgAfter(ss[j - 1], es[j - 1], p);
    if j > i + 1 {
      ArgKept(ss, es, p, i, j - 1);
    }
  }

  // However long it has slept: a child that wait(pid) reclaims is a child of the caller, has exited
  // and, unless pid is 0 or less, has that pid
  lemma WaitGetsWhatItAsked(ss: seq<Sys>, es: seq<Event>, p: nat, i: nat, j: nat, z: nat)
    requires InWait(ss, es, p, i, j) && j < |es| && es[j] == WaitLook(p) && z < NPROC
    requires |ss[j].procs| == |ss[j + 1].procs| == NPROC && ss[j].procs[z].state == ZOMBIE && ss[j + 1].procs[z].state != ZOMBIE
    ensures ss[j].procs[z].parent == Some(p) && (es[i].pid <= 0 || ss[j].procs[z].pid == es[i].pid)
  {
    hide Inv, Enabled, Next, Booted;
    ArgKept(ss, es, p, i, j);
    RunKeeps(ss, es, j);
    assert Enabled(ss[j], es[j]) && ss[j + 1] == Next(ss[j], es[j]);
    ReclaimedAfterSwitch(ss[j], es[j], z);
  }

  // ---- exit ----

  // exit's way from its call to ZOMBIE: it remembers whether it has given a child to init, and then
  // wakes init; else it sends SIGCHLD to the pid of the parent it had, unless that is init or there
  // is none; last it goes through all sleepers on its parent's channel
  lemma ExitPath(s: Sys, e: Event, p: nat)
    requires Inv(s) && ExitEnabled(s, e) && e.p == p
    ensures p < NPROC && |s.procs| == |ExitNext(s, e).procs| == NPROC
    ensures var x, pc := s.procs[p], ExitNext(s, e).procs[p].pc;
            && (e.ExitCall? ==> pc == ExitEnter(x.parent))
            && (e.ExitTake? ==> pc == ExitReparent(x.pc.pp, 0, false))
            && (e.ExitLook? ==> var i := x.pc.i;
                  i < NPROC && pc == ExitReparent(x.pc.pp, i + 1, x.pc.wake || (i != p && s.procs[i].parent == Some(p))))
            && (e.ExitReparented? ==>
                  if x.pc.wake then pc == ExitWakeInit(0)
                  else if x.pc.pp == None || x.pc.pp == Some(INIT) then pc == ExitWakeParent(x.parent, 0)
                  else x.pc.pp.value < NPROC ==> pc == ExitSend(s.procs[x.pc.pp.value].pid))
            && (e.ExitWakeInitAt? ==> pc == ExitWakeInit(x.pc.i + 1))
            && (e.ExitWakeParentAt? ==> pc == ExitWakeParent(x.pc.par, x.pc.i + 1))
            && (e.ExitInitWoken? || e.ExitRetake? ==> pc == ExitWakeParent(x.parent, 0))
            && (e.ExitSent? ==> pc == ExitReenter) && (e.ExitZombie? ==> pc == Gone)
  {
    hide WaitInv, Places, Forks, Woken, Signalled;
    InvShape(s);
    hide Locals;
    if e.ExitWakeInitAt? {
      WokenFields(s, s.procs[e.p].pc.i, OnProc(INIT), p);
    } else if e.ExitWakeParentAt? && s.procs[e.p].pc.par.Some? {
      WokenFields(s, s.procs[e.p].pc.i, OnProc(s.procs[e.p].pc.par.value), p);
    } else if e.ExitSent? && e.target.Some? {
      SignalledFields(s, e.target.value, SIGCHLD, p);
    }
  }

  // ---- the run queue is first in, first out ----

  predicate Joins(s: Sys, e: Event, p: nat)
    requires p < |s.procs|
  {
    || ((s.procs[p].state == SLEEPING || s.procs[p].state == STOPPED || s.procs[p].state == USED) && StateAfter(s, e, p) == RUNNABLE)
    || (e.SchedBack? && e.c in s.cpus && s.cpus[e.c] == Back(p) && s.procs[p].state == RUNNABLE)
  }

  // Taken from the front, by the CPU that fetches; put in at the back, by becoming RUNNABLE off the
  // CPU or by coming off it RUNNABLE
  lemma QueueAfter(s: Sys, e: Event, p: nat)
    requires Inv(s) && Enabled(s, e) && p < NPROC
    ensures |s.procs| == NPROC
    ensures e.Fetch? ==> s.queue != [] && Next(s, e).queue == s.queue[1..]
                         && e.c in Next(s, e).cpus && Next(s, e).cpus[e.c] == Popped(s.queue[0])
    ensures Joins(s, e, p) ==> Next(s, e).queue == s.queue + [p]
    ensures !e.Fetch? && (forall q | 0 <= q < NPROC :: !Joins(s, e, q)) ==> Next(s, e).queue == s.queue
  {
    hide Basic, Family, HolderOk, ScanOk, NoLost, SchedNext, RunNext, ForkWaitNext, ExitNext, SchedEnabled, RunEnabled,
         ForkWaitEnabled, ExitEnabled, Joins;
    InvShape(s);
    if SchedEnabled(s, e) {
      QueueBySched(s, e, p);
    } else if RunEnabled(s, e) {
      QueueByRun(s, e, p);
    } else if ForkWaitEnabled(s, e) {
      QueueByForkWait(s, e, p);
    } else {
      QueueByExit(s, e, p);
    }
  }

  lemma QueueBySched(s: Sys, e: Event, p: nat)
    requires Basic(s) && SchedEnabled(s, e) && p < NPROC
    ensures e.Fetch? ==> s.queue != [] && SchedNext(s, e).queue == s.queue[1..]
                         && e.c in SchedNext(s, e).cpus && SchedNext(s, e).cpus[e.c] == Popped(s.queue[0])
    ensures Joins(s, e, p) ==> SchedNext(s, e).queue == s.queue + [p]
    ensures !e.Fetch? && (forall q | 0 <= q < NPROC :: !Joins(s, e, q)) ==> SchedNext(s, e).queue == s.queue
  {
    hide Forks, Places;
    if e.SchedBack? {
      var q := s.cpus[e.c].p;
      assert s.procs[q].state == RUNNABLE ==> Joins(s, e, q);
    }
  }

  // One process at most is woken: q
  lemma QueueByWaking(s: Sys, t: Sys, e: Event, q: nat, p: nat)
    requires |s.procs| == NPROC && q < NPROC && p < NPROC && !e.SchedBack?
    requires forall r | 0 <= r < NPROC && r != q :: !Joins(s, e, r)
    requires t.queue == if Joins(s, e, q) then s.queue + [q] else s.queue
    ensures Joins(s, e, p) ==> t.queue == s.queue + [p]
    ensures (forall r | 0 <= r < NPROC :: !Joins(s, e, r)) ==> t.queue == s.queue
  {
  }

  lemma QueueByRun(s: Sys, e: Event, p: nat)
    requires Basic(s) && RunEnabled(s, e) && p < NPROC
    ensures !e.Fetch?
    ensures Joins(s, e, p) ==> RunNext(s, e).queue == s.queue + [p]
    ensures (forall q | 0 <= q < NPROC :: !Joins(s, e, q)) ==> RunNext(s, e).queue == s.queue
  {
    hide Places, Forks, Takes, Making;
    if e.WakeAt? {
      QueueByWaking(s, RunNext(s, e), e, e.q, p);
    } else if e.Signal? {
      QueueByWaking(s, RunNext(s, e), e, e.t, p);
    }
  }

  lemma QueueByForkWait(s: Sys, e: Event, p: nat)
    requires Basic(s) && ForkWaitEnabled(s, e) && p < NPROC
    ensures !e.Fetch?
    ensures Joins(s, e, p) ==> ForkWaitNext(s, e).queue == s.queue + [p]
    ensures (forall q | 0 <= q < NPROC :: !Joins(s, e, q)) ==> ForkWaitNext(s, e).queue == s.queue
  {
    hide Places;
    assert LocalOk(e.p, s.procs[e.p]) && ForkOk(s, e.p);
    if e.ForkCommit? {
      var np := s.procs[e.p].pc.np;
      assert LocalOk(np, s.procs[np]);
      QueueByWaking(s, ForkWaitNext(s, e), e, np, p);
    }
  }

  lemma QueueByExit(s: Sys, e: Event, p: nat)
    requires Basic(s) && ExitEnabled(s, e) && p < NPROC
    ensures !e.Fetch?
    ensures Joins(s, e, p) ==> ExitNext(s, e).queue == s.queue + [p]
    ensures (forall q | 0 <= q < NPROC :: !Joins(s, e, q)) ==> ExitNext(s, e).queue == s.queue
  {
    hide Places, Forks;
    if e.ExitWakeInitAt? || e.ExitWakeParentAt? {
      QueueByWaking(s, ExitNext(s, e), e, s.procs[e.p].pc.i, p);
    } else if e.ExitSent? && e.target.Some? {
      QueueByWaking(s, ExitNext(s, e), e, e.target.value, p);
    }
  }

  // ---- pids ----

  // Processes that exist have different pids, all given out already
  ghost predicate PidsOk(s: Sys) {
    && 0 < s.nextPid
    && (forall p | 0 <= p < |s.procs| && s.procs[p].state != UNUSED :: 0 < s.procs[p].pid < s.nextPid)
    && (forall p, q | 0 <= p < q < |s.procs| && s.procs[p].state != UNUSED && s.procs[q].state != UNUSED ::
          s.procs[p].pid != s.procs[q].pid)
  }

  lemma PidsKept(s: Sys, e: Event)
    requires Inv(s) && Enabled(s, e) && PidsOk(s)
    ensures PidsOk(Next(s, e))
  {
    hide Inv, Enabled, Next;
    var t := Next(s, e);
    FieldsAfter(s, e, 0);
    forall p: nat | p < NPROC && t.procs[p].state != UNUSED
      ensures t.procs[p].pid == (if e.ForkAlloc? && e.np == p then s.nextPid else s.procs[p].pid)
      ensures s.procs[p].state != UNUSED || (e.ForkAlloc? && e.np == p)
    {
      PidOf(s, e, p);
    }
  }

  lemma PidOf(s: Sys, e: Event, p: nat)
    requires Inv(s) && Enabled(s, e) && p < NPROC && |s.procs| == |Next(s, e).procs| == NPROC
    requires Next(s, e).procs[p].state != UNUSED
    ensures Next(s, e).procs[p].pid == (if e.ForkAlloc? && e.np == p then s.nextPid else s.procs[p].pid)
    ensures s.procs[p].state != UNUSED || (e.ForkAlloc? && e.np == p)
  {
    hide Inv, Enabled, Next, Wakes, ParentAfter, KilledAfter, NeedStopAfter, ChanAfter;
    StateIs(s, e, p);
    FieldsAfter(s, e, p);
    FreedIsUnused(s, e, p);
  }

  lemma FreedIsUnused(s: Sys, e: Event, p: nat)
    requires Inv(s) && Enabled(s, e) && p < |s.procs|
    ensures Frees(s, e, p) ==> StateAfter(s, e, p) == UNUSED
  {
    hide WaitInv, Places;
    if Frees(s, e, p) && e.ForkFail? {
      assert ForkOk(s, e.p) && LocalOk(p, s.procs[p]) && LocalOk(e.p, s.procs[e.p]);
    }
  }

  lemma {:induction false} UniquePids(ss: seq<Sys>, es: seq<Event>, i: nat)
    requires Run(ss, es) && i < |ss|
    ensures PidsOk(ss[i])
  {
    hide Inv, Enabled, Next;
    if i > 0 {
      hide Booted, PidsOk;
      UniquePids(ss, es, i - 1);
      RunKeeps(ss, es, i - 1);
      PidsKept(ss[i - 1], es[i - 1]);
    }
  }
}
