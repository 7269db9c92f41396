/**
 * The process state machine of os/proc.c, os/sched.c and sys_sigkill, on any number of CPUs.
 *
 * A critical section of p->lock in which nothing else is waited for is one step, taken when the
 * lock is free. A lock held across a context switch or another wait is held in the state. The
 * program counters are those points between which other CPUs can get in.
 */
module Scheduler {
  import opened Common

  const INIT: nat := 0   // pool index of init_proc

  const SIGKILL := 4
  const SIGCHLD := 6
  const SIGSTOP := 7
  const SIGCONT := 8

  datatype PState = UNUSED | USED | SLEEPING | RUNNABLE | RUNNING | ZOMBIE | STOPPED

  // sleep_chan: a struct proc, or anything else
  datatype Chan = NoChan | OnProc(p: nat) | Other(n: nat)

  // Where a switched-out process goes on: after sched() in these callers, or first_sched_ret
  datatype Cont = First | Yielded | Stopped | Slept | Waiting(pid: int)

  datatype Pc =
    | Resume(k: Cont)                               // switched out, or in but still holding its lock
    | Live                                          // user mode or kernel code not modelled
    | Stopping                                      // need_stop cleared, not yet STOPPED
    | Forking(np: nat)                              // holds np->lock
    | WaitEnter(pid: int)                           // about to take wait_lock
    | WaitScan(pid: int, i: nat, kids: bool)        // holds wait_lock, children below i seen
    | ExitEnter(pp: Option<nat>)                    // about to take wait_lock
    | ExitReparent(pp: Option<nat>, i: nat, wake: bool)
    | ExitWakeInit(i: nat)                          // in wakeup(init_proc)
    | ExitSend(ppid: int)                           // wait_lock dropped, sends SIGCHLD
    | ExitReenter                                   // about to take wait_lock again
    | ExitWakeParent(par: Option<nat>, i: nat)      // in wakeup(p->parent)
    | Gone                                          // has called sched() for the last time
  {
    // Between acquire(&wait_lock) and its release
    predicate HoldsWait() { WaitScan? || ExitReparent? || ExitWakeInit? || ExitWakeParent? }
  }

  // Where the process is, seen from the run queue and the CPUs
  datatype Loc = Nowhere | Queued | PoppedBy(cpu: nat) | RunningOn(cpu: nat) | LeavingOn(cpu: nat)

  datatype Proc = Proc(
    state: PState, pid: int, parent: Option<nat>, chan: Chan, killed: bool, needStop: bool,
    lock: Option<nat>,      // the CPU that holds p->lock between two steps
    pc: Pc, loc: Loc,
    forker: Option<nat>)    // who is making this process

  // The scheduler of a CPU
  datatype Cpu =
    | Idle
    | Popped(p: nat)   // fetch_task returned p, its lock is not taken yet
    | Running(p: nat)  // switched to p
    | Back(p: nat)     // p has switched back, holding its lock

  datatype Sys = Sys(procs: seq<Proc>, cpus: map<nat, Cpu>, queue: seq<nat>, waitLock: Option<nat>, nextPid: int)

  function With(s: Sys, p: nat, x: Proc): Sys
    requires p < |s.procs|
  {
    s.(procs := s.procs[p := x])
  }

  // add_task, on a process that is on no CPU
  function Added(s: Sys, p: nat): Sys
    requires p < |s.procs|
  {
    With(s, p, s.procs[p].(state := RUNNABLE, loc := Queued)).(queue := s.queue + [p])
  }

  // acquire(&p->lock); p->state = state; sched()
  function SwitchedOut(s: Sys, p: nat, state: PState, pc: Pc): Sys
    requires p < |s.procs| && s.procs[p].loc.RunningOn?
  {
    var c := s.procs[p].loc.cpu;
    With(s, p, s.procs[p].(state := state, lock := Some(c), pc := pc, loc := LeavingOn(c))).(cpus := s.cpus[c := Back(p)])
  }

  function AtPc(s: Sys, p: nat, pc: Pc): Sys
    requires p < |s.procs|
  {
    With(s, p, s.procs[p].(pc := pc))
  }

  // ---- what is never violated ----

  // State, lock and program counter of one process, by where it is
  predicate LocalOk(p: nat, x: Proc) {
    && (x.forker.Some? <==> x.state == USED)
    && (x.state == SLEEPING && x.pc.Resume? && x.pc.k.Waiting? ==> x.chan == OnProc(p))
    && match x.loc
       case Nowhere =>
         (x.state == UNUSED && x.lock == None && (x.pc.Resume? || x.pc.Gone?))
         || (x.state == USED && x.lock.Some? && x.pc.Resume?)
         || ((x.state == SLEEPING || x.state == STOPPED) && x.lock == None && x.pc.Resume?)
         || (x.state == ZOMBIE && x.lock == None && x.pc.Gone?)
       case Queued => x.state == RUNNABLE && x.lock == None && x.pc.Resume?
       case PoppedBy(_) => x.state == RUNNABLE && x.lock == None && x.pc.Resume?
       case RunningOn(c) => x.state == RUNNING && !x.pc.Gone? && x.lock == if x.pc.Resume? then Some(c) else None
       case LeavingOn(c) =>
         x.lock == Some(c)
         && (((x.state == RUNNABLE || x.state == SLEEPING || x.state == STOPPED) && x.pc.Resume?) || (x.state == ZOMBIE && x.pc.Gone?))
  }

  ghost predicate Locals(s: Sys) {
    |s.procs| == NPROC && forall p | 0 <= p < |s.procs| :: LocalOk(p, s.procs[p])
  }

  predicate CpuOk(s: Sys, c: nat)
    requires c in s.cpus
  {
    match s.cpus[c]
    case Idle => true
    case Popped(p) => p < |s.procs| && s.procs[p].loc == PoppedBy(c)
    case Running(p) => p < |s.procs| && s.procs[p].loc == RunningOn(c)
    case Back(p) => p < |s.procs| && s.procs[p].loc == LeavingOn(c)
  }

  predicate LocOk(s: Sys, p: nat)
    requires p < |s.procs|
  {
    match s.procs[p].loc
    case Nowhere => true
    case Queued => p in s.queue
    case PoppedBy(c) => c in s.cpus && s.cpus[c] == Popped(p)
    case RunningOn(c) => c in s.cpus && s.cpus[c] == Running(p)
    case LeavingOn(c) => c in s.cpus && s.cpus[c] == Back(p)
  }

  // Every process is in at most one place, and in the queue at most once
  ghost predicate Places(s: Sys) {
    && (forall i, j | 0 <= i < j < |s.queue| :: s.queue[i] != s.queue[j])
    && (forall i | 0 <= i < |s.queue| :: s.queue[i] < |s.procs| && s.procs[s.queue[i]].loc == Queued)
    && (forall p | 0 <= p < |s.procs| :: LocOk(s, p))
    && (forall c | c in s.cpus :: CpuOk(s, c))
  }

  predicate ForkOk(s: Sys, p: nat)
    requires p < |s.procs|
  {
    var x := s.procs[p];
    && (x.loc.RunningOn? && x.pc.Forking? ==>
          x.pc.np < |s.procs| && s.procs[x.pc.np].forker == Some(p))
    && (x.forker.Some? ==>
          x.forker.value < |s.procs| && s.procs[x.forker.value].loc.RunningOn? && s.procs[x.forker.value].pc == Forking(p))
  }

  // A process being made has one maker
  ghost predicate Forks(s: Sys) {
    forall p | 0 <= p < |s.procs| :: ForkOk(s, p)
  }

  ghost predicate Basic(s: Sys) {
    Locals(s) && Places(s) && Forks(s)
  }

  // ---- steps that concern one process and leave it where it is ----

  // Only what LocalOk and ForkOk say about p itself can be affected
  lemma InPlace(s: Sys, p: nat, x: Proc)
    requires Basic(s) && p < NPROC && LocalOk(p, x)
    requires x.loc == s.procs[p].loc && x.forker == s.procs[p].forker
    requires x.pc == s.procs[p].pc || (!x.pc.Forking? && !s.procs[p].pc.Forking?)
    ensures Basic(With(s, p, x))
  {
    var t := With(s, p, x);
    forall q | 0 <= q < |t.procs| ensures LocOk(t, q) && ForkOk(t, q) {
      assert LocOk(s, q) && ForkOk(s, q);
    }
    forall c | c in t.cpus ensures CpuOk(t, c) {
      assert CpuOk(s, c);
    }
  }

  lemma AddedBasic(s: Sys, p: nat)
    requires Basic(s) && p < NPROC && s.procs[p].lock == None && s.procs[p].loc == Nowhere
    requires s.procs[p].state == SLEEPING || s.procs[p].state == STOPPED
    ensures Basic(Added(s, p))
  {
    var t := Added(s, p);
    assert LocalOk(p, s.procs[p]);
    forall q | 0 <= q < |t.procs| ensures LocOk(t, q) && ForkOk(t, q) {
      assert LocOk(s, q) && ForkOk(s, q);
    }
    forall c | c in t.cpus ensures CpuOk(t, c) {
      assert CpuOk(s, c);
    }
  }

  lemma SwitchedOutBasic(s: Sys, p: nat, state: PState, pc: Pc)
    requires Basic(s) && p < NPROC && s.procs[p].loc.RunningOn? && !s.procs[p].pc.Resume? && !s.procs[p].pc.Forking?
    requires LocalOk(p, SwitchedOut(s, p, state, pc).procs[p])
    ensures Basic(SwitchedOut(s, p, state, pc))
  {
    var t := SwitchedOut(s, p, state, pc);
    assert LocalOk(p, s.procs[p]) && LocOk(s, p);
    forall q | 0 <= q < |t.procs| ensures LocOk(t, q) && ForkOk(t, q) {
      assert LocOk(s, q) && ForkOk(s, q) && LocalOk(q, s.procs[q]);
    }
    forall c | c in t.cpus ensures CpuOk(t, c) {
      assert CpuOk(s, c);
    }
  }

  // The queue never holds more than NPROC processes; pushing on a full one would
  lemma QueueFits(s: Sys)
    requires Basic(s)
    ensures |s.queue| <= NPROC
  {
    hide Forks;
    forall i: nat ensures Below(s.queue, NPROC, i) {
    }
    Pigeons(s.queue, NPROC);
  }

  predicate Below(q: seq<nat>, n: nat, i: nat) {
    i < |q| ==> q[i] < n
  }

  lemma {:induction false} Pigeons(q: seq<nat>, n: nat)
    requires forall i, j | 0 <= i < j < |q| :: q[i] != q[j]
    requires forall i: nat :: Below(q, n, i)
    ensures |q| <= n
    decreases n
  {
    var m := n - 1;
    if n == 0 {
      assert Below(q, n, 0);
    } else if k :| 0 <= k < |q| && q[k] == m {
      var r := q[..k] + q[k + 1..];
      forall i: nat ensures Below(r, m, i) {
        assert Below(q, n, if i < k then i else i + 1);
      }
      Pigeons(r, m);
    } else {
      forall i: nat ensures Below(q, m, i) {
        assert Below(q, n, i);
      }
      Pigeons(q, m);
    }
  }

  // ---- steps ----

  datatype Event =
    // scheduler(), on CPU c
    | Fetch(c: nat) | Dispatch(c: nat) | Skip(c: nat) | SchedBack(c: nat)
    // process p, on its CPU
    | Resumed(p: nat) | Yield(p: nat) | StopTest(p: nat) | StopNow(p: nat)
    | SetFlags(p: nat, stop: bool, killed: bool)   // do_signal and setkilled on itself
    | Sleep(p: nat, n: nat)
    // what a system call or an interrupt does to another process
    | WakeAt(q: nat, n: nat) | Signal(t: nat, signo: nat)
    | ForkAlloc(p: nat, np: nat) | ForkCommit(p: nat) | ForkFail(p: nat)
    | WaitCall(p: nat, pid: int) | WaitTake(p: nat) | WaitLook(p: nat) | WaitQuit(p: nat) | WaitSleep(p: nat)
    | ExitCall(p: nat) | ExitTake(p: nat) | ExitLook(p: nat) | ExitReparented(p: nat)
    | ExitWakeInitAt(p: nat) | ExitInitWoken(p: nat) | ExitSent(p: nat, target: Option<nat>) | ExitRetake(p: nat)
    | ExitWakeParentAt(p: nat) | ExitZombie(p: nat)

  // p runs, with program counter pc, and does not hold its own lock
  predicate Runs(s: Sys, p: nat) {
    p < |s.procs| && s.procs[p].loc.RunningOn? && !s.procs[p].pc.Resume?
  }

  predicate Unlocked(s: Sys, p: nat) {
    p < |s.procs| && s.procs[p].lock == None
  }

  predicate OnCpu(s: Sys, c: nat) {
    c in s.cpus && !s.cpus[c].Idle? && s.cpus[c].p < |s.procs|
  }

  predicate ForkWaitEnabled(s: Sys, e: Event) {
    match e
    case ForkAlloc(p, np) => Runs(s, p) && s.procs[p].pc.Live? && Unlocked(s, np) && s.procs[np].state == UNUSED
    case ForkCommit(p) => Runs(s, p) && s.procs[p].pc.Forking? && s.procs[p].pc.np < |s.procs| && Unlocked(s, p)
    case ForkFail(p) => Runs(s, p) && s.procs[p].pc.Forking? && s.procs[p].pc.np < |s.procs|
    case WaitCall(p, _) => Runs(s, p) && s.procs[p].pc.Live?
    case WaitTake(p) => Runs(s, p) && s.procs[p].pc.WaitEnter? && s.waitLock == None
    case WaitLook(p) => Runs(s, p) && s.procs[p].pc.WaitScan? && (s.procs[p].pc.i == p || Unlocked(s, s.procs[p].pc.i))
    case WaitQuit(p) => Runs(s, p) && s.procs[p].pc.WaitScan? && s.procs[p].pc.i == |s.procs| && (!s.procs[p].pc.kids || s.procs[p].killed)
    case WaitSleep(p) =>
      Runs(s, p) && s.procs[p].pc.WaitScan? && s.procs[p].pc.i == |s.procs| && s.procs[p].pc.kids && !s.procs[p].killed && Unlocked(s, p)
    case _ => false
  }

  predicate ExitEnabled(s: Sys, e: Event) {
    match e
    case ExitCall(p) => Runs(s, p) && s.procs[p].pc.Live? && p != INIT
    case ExitTake(p) => Runs(s, p) && s.procs[p].pc.ExitEnter? && s.waitLock == None
    case ExitLook(p) => Runs(s, p) && s.procs[p].pc.ExitReparent? && (s.procs[p].pc.i == p || Unlocked(s, s.procs[p].pc.i))
    case ExitReparented(p) => Runs(s, p) && s.procs[p].pc.ExitReparent? && s.procs[p].pc.i == |s.procs|
    case ExitWakeInitAt(p) => Runs(s, p) && s.procs[p].pc.ExitWakeInit? && Unlocked(s, s.procs[p].pc.i)
    case ExitInitWoken(p) => Runs(s, p) && s.procs[p].pc.ExitWakeInit? && s.procs[p].pc.i == |s.procs|
    case ExitSent(p, t) => Runs(s, p) && s.procs[p].pc.ExitSend? && (t.Some? ==> Unlocked(s, t.value) && s.procs[t.value].pid == s.procs[p].pc.ppid)
    case ExitRetake(p) => Runs(s, p) && s.procs[p].pc.ExitReenter? && s.waitLock == None
    case ExitWakeParentAt(p) => Runs(s, p) && s.procs[p].pc.ExitWakeParent? && Unlocked(s, s.procs[p].pc.i)
    case ExitZombie(p) => Runs(s, p) && s.procs[p].pc.ExitWakeParent? && s.procs[p].pc.i == |s.procs| && Unlocked(s, p)
    case _ => false
  }

  predicate SchedEnabled(s: Sys, e: Event) {
    match e
    case Fetch(c) => c in s.cpus && s.cpus[c].Idle? && s.queue != [] && s.queue[0] < |s.procs|
    case Dispatch(c) => OnCpu(s, c) && s.cpus[c].Popped? && Unlocked(s, s.cpus[c].p) && s.procs[s.cpus[c].p].state == RUNNABLE
    case Skip(c) => OnCpu(s, c) && s.cpus[c].Popped? && Unlocked(s, s.cpus[c].p) && s.procs[s.cpus[c].p].state != RUNNABLE
    case SchedBack(c) => OnCpu(s, c) && s.cpus[c].Back?
    case _ => false
  }

  predicate RunEnabled(s: Sys, e: Event) {
    match e
    case Resumed(p) => p < |s.procs| && s.procs[p].loc.RunningOn? && s.procs[p].pc.Resume?
    case Yield(p) => Runs(s, p) && s.procs[p].pc.Live? && Unlocked(s, p)
    case StopTest(p) => Runs(s, p) && s.procs[p].pc.Live? && s.procs[p].needStop
    case StopNow(p) => Runs(s, p) && s.procs[p].pc.Stopping? && Unlocked(s, p)
    case SetFlags(p, _, _) => Runs(s, p) && s.procs[p].pc.Live? && Unlocked(s, p)
    case Sleep(p, _) => Runs(s, p) && s.procs[p].pc.Live? && Unlocked(s, p)
    case WakeAt(q, _) => Unlocked(s, q)
    case Signal(t, _) => Unlocked(s, t)
    case _ => false
  }

  predicate Enabled(s: Sys, e: Event) {
    SchedEnabled(s, e) || RunEnabled(s, e) || ForkWaitEnabled(s, e) || ExitEnabled(s, e)
  }

  function Fetched(s: Sys, c: nat): Sys
    requires s.queue != [] && s.queue[0] < |s.procs|
  {
    var p := s.queue[0];
    With(s, p, s.procs[p].(loc := PoppedBy(c))).(queue := s.queue[1..], cpus := s.cpus[c := Popped(p)])
  }

  function Dispatched(s: Sys, c: nat, p: nat): Sys
    requires p < |s.procs|
  {
    With(s, p, s.procs[p].(state := RUNNING, lock := Some(c), loc := RunningOn(c))).(cpus := s.cpus[c := Running(p)])
  }

  // The part of scheduler() after swtch
  function BackInScheduler(s: Sys, c: nat, p: nat): Sys
    requires p < |s.procs|
  {
    if s.procs[p].state == RUNNABLE then
      With(s, p, s.procs[p].(lock := None, loc := Queued)).(queue := s.queue + [p], cpus := s.cpus[c := Idle])
    else
      With(s, p, s.procs[p].(lock := None, loc := Nowhere)).(cpus := s.cpus[c := Idle])
  }

  function Continued(x: Proc): Proc
    requires x.pc.Resume?
  {
    match x.pc.k
    case Slept => x.(lock := None, pc := Live, chan := NoChan)
    case Waiting(pid) => x.(lock := None, pc := WaitEnter(pid), chan := NoChan)
    case _ => x.(lock := None, pc := Live)
  }

  // One turn of the loop in wakeup
  function Woken(s: Sys, q: nat, chan: Chan): Sys
    requires q < |s.procs|
  {
    if s.procs[q].state == SLEEPING && s.procs[q].chan == chan then Added(s, q) else s
  }

  // sys_sigkill, under t's lock
  function Signalled(s: Sys, t: nat, signo: nat): Sys
    requires t < |s.procs|
  {
    var x := s.procs[t];
    if signo == SIGKILL then
      var s1 := With(s, t, x.(killed := true));
      if x.state == SLEEPING then Added(s1, t) else s1
    else if signo == SIGSTOP || signo == SIGCHLD then
      if x.state == SLEEPING then Added(s, t) else s
    else if signo == SIGCONT then
      var s1 := With(s, t, x.(needStop := false));
      if x.state == STOPPED then Added(s1, t) else s1
    else s
  }

  // allocproc, up to the point where fork goes on to take p->lock
  function Allocated(s: Sys, p: nat, np: nat): Sys
    requires p < |s.procs| && np < |s.procs| && s.procs[p].loc.RunningOn?
  {
    var x := s.procs[np].(state := USED, pid := s.nextPid, parent := None, chan := NoChan, needStop := false,
                          lock := Some(s.procs[p].loc.cpu), pc := Resume(First), forker := Some(p));
    AtPc(With(s, np, x), p, Forking(np)).(nextPid := s.nextPid + 1)
  }

  function Committed(s: Sys, p: nat, np: nat): Sys
    requires p < |s.procs| && np < |s.procs|
  {
    var x := s.procs[np].(parent := Some(p), state := RUNNABLE, lock := None, loc := Queued, forker := None);
    AtPc(With(s, np, x), p, Live).(queue := s.queue + [np])
  }

  // freeproc
  function Freed(x: Proc): Proc {
    x.(state := UNUSED, pid := -1, chan := NoChan, killed := false, parent := None, lock := None, forker := None)
  }

  // What wait does with pool[i]
  function Looked(s: Sys, p: nat): Sys
    requires p < |s.procs| && s.procs[p].pc.WaitScan? && s.procs[p].pc.i < |s.procs|
  {
    var WaitScan(pid, i, kids) := s.procs[p].pc;
    var x := s.procs[i];
    if i == p || x.parent != Some(p) then AtPc(s, p, WaitScan(pid, i + 1, kids))
    else if x.state == ZOMBIE && (pid <= 0 || x.pid == pid) then AtPc(With(s, i, Freed(x)), p, Live).(waitLock := None)
    else AtPc(s, p, WaitScan(pid, i + 1, true))
  }

  function Reparented(s: Sys, p: nat): Sys
    requires p < |s.procs| && s.procs[p].pc.ExitReparent? && s.procs[p].pc.i < |s.procs|
  {
    var ExitReparent(pp, i, wake) := s.procs[p].pc;
    if i == p || s.procs[i].parent != Some(p) then AtPc(s, p, ExitReparent(pp, i + 1, wake))
    else AtPc(With(s, i, s.procs[i].(parent := Some(INIT))), p, ExitReparent(pp, i + 1, true))
  }

  function AfterReparenting(s: Sys, p: nat): Sys
    requires p < |s.procs| && s.procs[p].pc.ExitReparent?
  {
    var ExitReparent(pp, i, wake) := s.procs[p].pc;
    if wake then AtPc(s, p, ExitWakeInit(0))
    else if pp.Some? && pp.value != INIT then
      AtPc(s, p, ExitSend(if pp.value < |s.procs| then s.procs[pp.value].pid else -1)).(waitLock := None)
    else AtPc(s, p, ExitWakeParent(s.procs[p].parent, 0))
  }

  function ForkWaitNext(s: Sys, e: Event): (t: Sys)
    requires ForkWaitEnabled(s, e)
    ensures |t.procs| == |s.procs|
  {
    match e
    case ForkAlloc(p, np) => Allocated(s, p, np)
    case ForkCommit(p) => Committed(s, p, s.procs[p].pc.np)
    case ForkFail(p) => AtPc(With(s, s.procs[p].pc.np, Freed(s.procs[s.procs[p].pc.np])), p, Live)
    case WaitCall(p, pid) => AtPc(s, p, WaitEnter(pid))
    case WaitTake(p) => AtPc(s, p, WaitScan(s.procs[p].pc.pid, 0, false)).(waitLock := Some(p))
    case WaitLook(p) => Looked(s, p)
    case WaitQuit(p) => AtPc(s, p, Live).(waitLock := None)
    case WaitSleep(p) =>
      SwitchedOut(With(s, p, s.procs[p].(chan := OnProc(p))), p, SLEEPING, Resume(Waiting(s.procs[p].pc.pid))).(waitLock := None)
  }

  function ExitNext(s: Sys, e: Event): (t: Sys)
    requires ExitEnabled(s, e)
    ensures |t.procs| == |s.procs|
  {
    match e
    case ExitCall(p) => AtPc(s, p, ExitEnter(s.procs[p].parent))
    case ExitTake(p) => AtPc(s, p, ExitReparent(s.procs[p].pc.pp, 0, false)).(waitLock := Some(p))
    case ExitLook(p) => Reparented(s, p)
    case ExitReparented(p) => AfterReparenting(s, p)
    case ExitWakeInitAt(p) => AtPc(Woken(s, s.procs[p].pc.i, OnProc(INIT)), p, ExitWakeInit(s.procs[p].pc.i + 1))
    case ExitInitWoken(p) => AtPc(s, p, ExitWakeParent(s.procs[p].parent, 0))
    case ExitSent(p, t) => AtPc(if t.Some? then Signalled(s, t.value, SIGCHLD) else s, p, ExitReenter)
    case ExitRetake(p) => AtPc(s, p, ExitWakeParent(s.procs[p].parent, 0)).(waitLock := Some(p))
    case ExitWakeParentAt(p) =>
      var ExitWakeParent(par, i) := s.procs[p].pc;
      AtPc(if par.Some? then Woken(s, i, OnProc(par.value)) else s, p, ExitWakeParent(par, i + 1))
    case ExitZombie(p) => SwitchedOut(s, p, ZOMBIE, Gone).(waitLock := None)
  }

  function SchedNext(s: Sys, e: Event): (t: Sys)
    requires SchedEnabled(s, e)
    ensures |t.procs| == |s.procs|
  {
    match e
    case Fetch(c) => Fetched(s, c)
    case Dispatch(c) => Dispatched(s, c, s.cpus[c].p)
    case Skip(c) => With(s, s.cpus[c].p, s.procs[s.cpus[c].p].(loc := Nowhere)).(cpus := s.cpus[c := Idle])
    case SchedBack(c) => BackInScheduler(s, c, s.cpus[c].p)
  }

  function RunNext(s: Sys, e: Event): (t: Sys)
    requires RunEnabled(s, e)
    ensures |t.procs| == |s.procs|
  {
    match e
    case Resumed(p) => With(s, p, Continued(s.procs[p]))
    case Yield(p) => SwitchedOut(s, p, RUNNABLE, Resume(Yielded))
    case StopTest(p) => With(s, p, s.procs[p].(needStop := false, pc := Stopping))
    case StopNow(p) => SwitchedOut(s, p, STOPPED, Resume(Stopped))
    case SetFlags(p, stop, killed) => With(s, p, s.procs[p].(needStop := stop, killed := killed))
    case Sleep(p, n) => SwitchedOut(With(s, p, s.procs[p].(chan := Other(n))), p, SLEEPING, Resume(Slept))
    case WakeAt(q, n) => Woken(s, q, Other(n))
    case Signal(t, signo) => Signalled(s, t, signo)
  }

  function Next(s: Sys, e: Event): (t: Sys)
    requires Enabled(s, e)
    ensures |t.procs| == |s.procs|
  {
    if SchedEnabled(s, e) then SchedNext(s, e)
    else if RunEnabled(s, e) then RunNext(s, e)
    else if ForkWaitEnabled(s, e) then ForkWaitNext(s, e)
    else ExitNext(s, e)
  }

  // ---- every step keeps Basic ----

  lemma SchedBasic(s: Sys, e: Event)
    requires Basic(s) && SchedEnabled(s, e)
    ensures Basic(SchedNext(s, e))
  {
    hide Forks;
    match e
    case Fetch(c) => FetchBasic(s, c);
    case Dispatch(c) => DispatchBasic(s, c);
    case Skip(c) => NeverSkips(s, c);
    case SchedBack(c) => BackBasic(s, c);
  }

  // A process popped from the queue is RUNNABLE when its lock is free, so scheduler() never
  // finds anything else in the queue
  lemma NeverSkips(s: Sys, c: nat)
    requires Basic(s) && c in s.cpus && s.cpus[c].Popped?
    ensures !Enabled(s, Skip(c))
  {
    assert CpuOk(s, c);
    assert LocalOk(s.cpus[c].p, s.procs[s.cpus[c].p]);
  }

  lemma FetchBasic(s: Sys, c: nat)
    requires Basic(s) && SchedEnabled(s, Fetch(c))
    ensures Basic(SchedNext(s, Fetch(c)))
  {
    var t, p := Fetched(s, c), s.queue[0];
    assert LocalOk(p, s.procs[p]);
    forall q | 0 <= q < |t.procs| ensures LocOk(t, q) && ForkOk(t, q) {
      assert LocOk(s, q) && ForkOk(s, q);
    }
    forall k | k in t.cpus ensures CpuOk(t, k) {
      assert CpuOk(s, k);
    }
  }

  lemma DispatchBasic(s: Sys, c: nat)
    requires Basic(s) && SchedEnabled(s, Dispatch(c))
    ensures Basic(SchedNext(s, Dispatch(c)))
  {
    var p := s.cpus[c].p;
    var t := Dispatched(s, c, p);
    assert CpuOk(s, c) && LocalOk(p, s.procs[p]);
    forall q | 0 <= q < |t.procs| ensures LocOk(t, q) && ForkOk(t, q) {
      assert LocOk(s, q) && ForkOk(s, q);
    }
    forall k | k in t.cpus ensures CpuOk(t, k) {
      assert CpuOk(s, k);
    }
  }

  lemma BackQueued(s: Sys, c: nat, p: nat)
    requires Basic(s) && c in s.cpus && s.cpus[c] == Back(p) && p < NPROC && s.procs[p].state == RUNNABLE
    ensures Basic(BackInScheduler(s, c, p))
  {
    var t := BackInScheduler(s, c, p);
    assert CpuOk(s, c) && LocalOk(p, s.procs[p]);
    forall q | 0 <= q < |t.procs| ensures LocOk(t, q) && ForkOk(t, q) {
      assert LocOk(s, q) && ForkOk(s, q);
    }
    forall k | k in t.cpus ensures CpuOk(t, k) {
      assert CpuOk(s, k);
    }
  }

  lemma BackNowhere(s: Sys, c: nat, p: nat)
    requires Basic(s) && c in s.cpus && s.cpus[c] == Back(p) && p < NPROC && s.procs[p].state != RUNNABLE
    ensures Basic(BackInScheduler(s, c, p))
  {
    var t := BackInScheduler(s, c, p);
    assert CpuOk(s, c) && LocalOk(p, s.procs[p]);
    forall q | 0 <= q < |t.procs| ensures LocOk(t, q) && ForkOk(t, q) {
      assert LocOk(s, q) && ForkOk(s, q);
    }
    forall k | k in t.cpus ensures CpuOk(t, k) {
      assert CpuOk(s, k);
    }
  }

  lemma BackBasic(s: Sys, c: nat)
    requires Basic(s) && SchedEnabled(s, SchedBack(c))
    ensures Basic(SchedNext(s, SchedBack(c)))
  {
    hide Basic;
    SchedShape(s);
    if s.procs[s.cpus[c].p].state == RUNNABLE {
      BackQueued(s, c, s.cpus[c].p);
    } else {
      BackNowhere(s, c, s.cpus[c].p);
    }
  }

  lemma SchedShape(s: Sys)
    requires Basic(s)
    ensures |s.procs| == NPROC
  {
  }

  lemma WokenBasic(s: Sys, q: nat, chan: Chan)
    requires Basic(s) && Unlocked(s, q)
    ensures Basic(Woken(s, q, chan))
  {
    assert LocalOk(q, s.procs[q]);
    if s.procs[q].state == SLEEPING && s.procs[q].chan == chan {
      AddedBasic(s, q);
    }
  }

  lemma SignalledBasic(s: Sys, t: nat, signo: nat)
    requires Basic(s) && Unlocked(s, t)
    ensures Basic(Signalled(s, t, signo))
  {
    hide Places, Forks;
    assert LocalOk(t, s.procs[t]);
    var x := if signo == SIGKILL then s.procs[t].(killed := true)
             else if signo == SIGCONT then s.procs[t].(needStop := false) else s.procs[t];
    InPlace(s, t, x);
    assert With(s, t, s.procs[t]) == s;
    if (x.state == SLEEPING && signo != SIGCONT) || (x.state == STOPPED && signo == SIGCONT) {
      AddedBasic(With(s, t, x), t);
    }
  }

  lemma RunBasic(s: Sys, e: Event)
    requires Basic(s) && RunEnabled(s, e)
    ensures Basic(RunNext(s, e))
  {
    hide Places, Forks;
    match e
    case Resumed(p) => assert LocalOk(p, s.procs[p]); InPlace(s, p, Continued(s.procs[p]));
    case Yield(p) => assert LocalOk(p, s.procs[p]); SwitchedOutBasic(s, p, RUNNABLE, Resume(Yielded));
    case StopTest(p) => assert LocalOk(p, s.procs[p]); InPlace(s, p, s.procs[p].(needStop := false, pc := Stopping));
    case StopNow(p) => assert LocalOk(p, s.procs[p]); SwitchedOutBasic(s, p, STOPPED, Resume(Stopped));
    case SetFlags(p, stop, killed) => assert LocalOk(p, s.procs[p]); InPlace(s, p, s.procs[p].(needStop := stop, killed := killed));
    case Sleep(p, n) =>
      assert LocalOk(p, s.procs[p]);
      InPlace(s, p, s.procs[p].(chan := Other(n)));
      SwitchedOutBasic(With(s, p, s.procs[p].(chan := Other(n))), p, SLEEPING, Resume(Slept));
    case WakeAt(q, n) => WokenBasic(s, q, Other(n));
    case Signal(t, signo) => SignalledBasic(s, t, signo);
  }

  // A process being made, or unused, is nowhere
  lemma AllocatedBasic(s: Sys, p: nat, np: nat)
    requires Basic(s) && ForkWaitEnabled(s, ForkAlloc(p, np))
    ensures Basic(Allocated(s, p, np))
  {
    hide Places;
    var t := Allocated(s, p, np);
    AllocatedPlaces(s, p, np);
    assert LocalOk(np, s.procs[np]) && LocalOk(p, s.procs[p]);
    forall q | 0 <= q < |t.procs| ensures ForkOk(t, q) {
      assert ForkOk(s, q);
    }
  }

  lemma AllocatedPlaces(s: Sys, p: nat, np: nat)
    requires Basic(s) && ForkWaitEnabled(s, ForkAlloc(p, np))
    ensures Places(Allocated(s, p, np))
  {
    var t := Allocated(s, p, np);
    hide Forks, LocalOk, ForkOk;
    forall q | 0 <= q < |t.procs| ensures LocOk(t, q) {
      assert LocOk(s, q);
    }
    forall k | k in t.cpus ensures CpuOk(t, k) {
      assert CpuOk(s, k);
    }
  }

  lemma CommittedBasic(s: Sys, p: nat)
    requires Basic(s) && ForkWaitEnabled(s, ForkCommit(p))
    ensures Basic(Committed(s, p, s.procs[p].pc.np))
  {
    hide Places;
    var np := s.procs[p].pc.np;
    var t := Committed(s, p, np);
    CommittedPlaces(s, p);
    assert ForkOk(s, p);
    assert LocalOk(np, s.procs[np]) && LocalOk(p, s.procs[p]);
    forall q | 0 <= q < |t.procs| ensures ForkOk(t, q) {
      assert ForkOk(s, q);
    }
  }

  lemma CommittedPlaces(s: Sys, p: nat)
    requires Basic(s) && ForkWaitEnabled(s, ForkCommit(p))
    ensures Places(Committed(s, p, s.procs[p].pc.np))
  {
    var np := s.procs[p].pc.np;
    var t := Committed(s, p, np);
    assert ForkOk(s, p);
    assert LocalOk(np, s.procs[np]) && LocalOk(p, s.procs[p]);
    hide Locals, Forks, LocalOk, ForkOk;
    forall q | 0 <= q < |t.procs| ensures LocOk(t, q) {
      assert LocOk(s, q);
    }
    forall k | k in t.cpus ensures CpuOk(t, k) {
      assert CpuOk(s, k);
    }
  }

  lemma ForkFailBasic(s: Sys, p: nat)
    requires Basic(s) && ForkWaitEnabled(s, ForkFail(p))
    ensures Basic(ForkWaitNext(s, ForkFail(p)))
  {
    hide Places;
    var np := s.procs[p].pc.np;
    var t := ForkWaitNext(s, ForkFail(p));
    ForkFailPlaces(s, p);
    assert ForkOk(s, p);
    assert LocalOk(np, s.procs[np]) && LocalOk(p, s.procs[p]);
    forall q | 0 <= q < |t.procs| ensures ForkOk(t, q) {
      assert ForkOk(s, q);
    }
  }

  lemma ForkFailPlaces(s: Sys, p: nat)
    requires Basic(s) && ForkWaitEnabled(s, ForkFail(p))
    ensures Places(ForkWaitNext(s, ForkFail(p)))
  {
    var t := ForkWaitNext(s, ForkFail(p));
    hide Locals, Forks, LocalOk, ForkOk;
    forall q | 0 <= q < |t.procs| ensures LocOk(t, q) {
      assert LocOk(s, q);
    }
    forall k | k in t.cpus ensures CpuOk(t, k) {
      assert CpuOk(s, k);
    }
  }

  // Nothing in Basic depends on wait_lock
  lemma WaitLockFree(s: Sys, holder: Option<nat>)
    requires Basic(s)
    ensures Basic(s.(waitLock := holder))
  {
    var t := s.(waitLock := holder);
    forall q | 0 <= q < |t.procs| ensures LocOk(t, q) && ForkOk(t, q) {
      assert LocOk(s, q) && ForkOk(s, q);
    }
    forall k | k in t.cpus ensures CpuOk(t, k) {
      assert CpuOk(s, k);
    }
  }

  lemma AtPcBasic(s: Sys, p: nat, pc: Pc)
    requires Basic(s) && Runs(s, p) && !s.procs[p].pc.Forking? && !pc.Forking? && !pc.Resume? && !pc.Gone?
    ensures Basic(AtPc(s, p, pc))
  {
    assert LocalOk(p, s.procs[p]);
    InPlace(s, p, s.procs[p].(pc := pc));
  }

  lemma LookedBasic(s: Sys, p: nat)
    requires Basic(s) && ForkWaitEnabled(s, WaitLook(p))
    ensures Basic(Looked(s, p))
  {
    hide Places, Forks;
    var WaitScan(pid, i, kids) := s.procs[p].pc;
    var x := s.procs[i];
    assert LocalOk(i, x);
    if i == p || x.parent != Some(p) {
      AtPcBasic(s, p, WaitScan(pid, i + 1, kids));
    } else if x.state == ZOMBIE && (pid <= 0 || x.pid == pid) {
      InPlace(s, i, Freed(x));
      AtPcBasic(With(s, i, Freed(x)), p, Live);
      WaitLockFree(AtPc(With(s, i, Freed(x)), p, Live), None);
    } else {
      AtPcBasic(s, p, WaitScan(pid, i + 1, true));
    }
  }

  lemma WaitSleepBasic(s: Sys, p: nat)
    requires Basic(s) && ForkWaitEnabled(s, WaitSleep(p))
    ensures Basic(ForkWaitNext(s, WaitSleep(p)))
  {
    hide Places, Forks;
    assert LocalOk(p, s.procs[p]);
    InPlace(s, p, s.procs[p].(chan := OnProc(p)));
    var u := With(s, p, s.procs[p].(chan := OnProc(p)));
    SwitchedOutBasic(u, p, SLEEPING, Resume(Waiting(s.procs[p].pc.pid)));
    WaitLockFree(SwitchedOut(u, p, SLEEPING, Resume(Waiting(s.procs[p].pc.pid))), None);
  }

  lemma ForkWaitBasic(s: Sys, e: Event)
    requires Basic(s) && ForkWaitEnabled(s, e)
    ensures Basic(ForkWaitNext(s, e))
  {
    hide Basic;
    match e
    case ForkAlloc(p, np) => AllocatedBasic(s, p, np);
    case ForkCommit(p) => CommittedBasic(s, p);
    case ForkFail(p) => ForkFailBasic(s, p);
    case WaitCall(p, pid) => AtPcBasic(s, p, WaitEnter(pid));
    case WaitTake(p) =>
      AtPcBasic(s, p, WaitScan(s.procs[p].pc.pid, 0, false));
      WaitLockFree(AtPc(s, p, WaitScan(s.procs[p].pc.pid, 0, false)), Some(p));
    case WaitLook(p) => LookedBasic(s, p);
    case WaitQuit(p) => AtPcBasic(s, p, Live); WaitLockFree(AtPc(s, p, Live), None);
    case WaitSleep(p) => WaitSleepBasic(s, p);
  }

  lemma ReparentedBasic(s: Sys, p: nat)
    requires Basic(s) && ExitEnabled(s, ExitLook(p))
    ensures Basic(Reparented(s, p))
  {
    hide Places, Forks;
    var ExitReparent(pp, i, wake) := s.procs[p].pc;
    if i == p || s.procs[i].parent != Some(p) {
      AtPcBasic(s, p, ExitReparent(pp, i + 1, wake));
    } else {
      var x := s.procs[i].(parent := Some(INIT));
      assert LocalOk(i, s.procs[i]);
      InPlace(s, i, x);
      AtPcBasic(With(s, i, x), p, ExitReparent(pp, i + 1, true));
    }
  }

  lemma AfterReparentingBasic(s: Sys, p: nat)
    requires Basic(s) && ExitEnabled(s, ExitReparented(p))
    ensures Basic(AfterReparenting(s, p))
  {
    hide Basic;
    var ExitReparent(pp, i, wake) := s.procs[p].pc;
    if wake {
      AtPcBasic(s, p, ExitWakeInit(0));
    } else if pp.Some? && pp.value != INIT {
      var pc := ExitSend(if pp.value < |s.procs| then s.procs[pp.value].pid else -1);
      AtPcBasic(s, p, pc);
      WaitLockFree(AtPc(s, p, pc), None);
    } else {
      AtPcBasic(s, p, ExitWakeParent(s.procs[p].parent, 0));
    }
  }

  lemma ExitBasic(s: Sys, e: Event)
    requires Basic(s) && ExitEnabled(s, e)
    ensures Basic(ExitNext(s, e))
  {
    hide Basic, Places, Forks, Locals, LocalOk;
    match e
    case ExitCall(p) => AtPcBasic(s, p, ExitEnter(s.procs[p].parent));
    case ExitTake(p) =>
      AtPcBasic(s, p, ExitReparent(s.procs[p].pc.pp, 0, false));
      WaitLockFree(AtPc(s, p, ExitReparent(s.procs[p].pc.pp, 0, false)), Some(p));
    case ExitLook(p) => ReparentedBasic(s, p);
    case ExitReparented(p) => AfterReparentingBasic(s, p);
    case ExitWakeInitAt(p) =>
      WakeTurnBasic(s, p, s.procs[p].pc.i, Some(OnProc(INIT)), ExitWakeInit(s.procs[p].pc.i + 1));
    case ExitInitWoken(p) => AtPcBasic(s, p, ExitWakeParent(s.procs[p].parent, 0));
    case ExitSent(p, target) => SentBasic(s, p, target);
    case ExitRetake(p) =>
      AtPcBasic(s, p, ExitWakeParent(s.procs[p].parent, 0));
      WaitLockFree(AtPc(s, p, ExitWakeParent(s.procs[p].parent, 0)), Some(p));
    case ExitWakeParentAt(p) =>
      var ExitWakeParent(par, i) := s.procs[p].pc;
      WakeTurnBasic(s, p, i, if par.Some? then Some(OnProc(par.value)) else None, ExitWakeParent(par, i + 1));
    case ExitZombie(p) => ZombieBasic(s, p);
  }

  // What p does to another process leaves p running
  lemma StillRuns(s: Sys, p: nat, q: nat)
    requires Basic(s) && Runs(s, p) && q < NPROC && (s.procs[q].state == SLEEPING || s.procs[q].state == STOPPED)
    ensures q != p
  {
    assert LocalOk(p, s.procs[p]);
  }

  lemma WakeTurnBasic(s: Sys, p: nat, i: nat, chan: Option<Chan>, pc: Pc)
    requires Basic(s) && Runs(s, p) && Unlocked(s, i)
    requires !s.procs[p].pc.Forking? && !pc.Forking? && !pc.Resume? && !pc.Gone?
    ensures Basic(AtPc(if chan.Some? then Woken(s, i, chan.value) else s, p, pc))
  {
    var t := if chan.Some? then Woken(s, i, chan.value) else s;
    if chan.Some? {
      WokenBasic(s, i, chan.value);
      if s.procs[i].state == SLEEPING {
        StillRuns(s, p, i);
      }
    }
    hide Basic;
    assert Runs(t, p) && t.procs[p] == s.procs[p];
    AtPcBasic(t, p, pc);
  }

  lemma SentBasic(s: Sys, p: nat, target: Option<nat>)
    requires Basic(s) && ExitEnabled(s, ExitSent(p, target))
    ensures Basic(ExitNext(s, ExitSent(p, target)))
  {
    hide Places, Forks;
    if target.Some? {
      var t := target.value;
      SignalledBasic(s, t, SIGCHLD);
      if s.procs[t].state == SLEEPING {
        StillRuns(s, p, t);
      }
      AtPcBasic(Signalled(s, t, SIGCHLD), p, ExitReenter);
    } else {
      AtPcBasic(s, p, ExitReenter);
    }
  }

  lemma ZombieBasic(s: Sys, p: nat)
    requires Basic(s) && ExitEnabled(s, ExitZombie(p))
    ensures Basic(ExitNext(s, ExitZombie(p)))
  {
    hide Places, Forks;
    assert LocalOk(p, s.procs[p]);
    SwitchedOutBasic(s, p, ZOMBIE, Gone);
    WaitLockFree(SwitchedOut(s, p, ZOMBIE, Gone), None);
  }

  lemma StepBasic(s: Sys, e: Event)
    requires Basic(s) && Enabled(s, e)
    ensures Basic(Next(s, e))
  {
    hide Basic, SchedEnabled, RunEnabled, ForkWaitEnabled, ExitEnabled, SchedNext, RunNext, ForkWaitNext, ExitNext;
    if SchedEnabled(s, e) {
      SchedBasic(s, e);
    } else if RunEnabled(s, e) {
      RunBasic(s, e);
    } else if ForkWaitEnabled(s, e) {
      ForkWaitBasic(s, e);
    } else {
      ExitBasic(s, e);
    }
  }
}
