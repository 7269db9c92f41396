/**
 * What holds in every state of every run of the machine of modules Scheduler and WaitExit.
 */
module SchedulerRuns {
  import opened Common
  import opened Scheduler
  import opened WaitExit

  // Once load_init_app has made the first process and the schedulers have started
  ghost predicate Booted(s: Sys) {
    && |s.procs| == NPROC && s.waitLock == None
    && (forall p | 0 <= p < NPROC :: s.procs[p].parent == None && s.procs[p].lock == None && s.procs[p].forker == None
                                     && s.procs[p].pc == Resume(First))
    && (forall p | 0 <= p < NPROC && p != INIT :: s.procs[p].state == UNUSED && s.procs[p].loc == Nowhere)
    && s.procs[INIT].state == RUNNABLE && s.procs[INIT].loc == Queued
    && s.queue == [INIT] && (forall c | c in s.cpus :: s.cpus[c] == Idle)
    && s.procs[INIT].pid == 1 && s.nextPid == 2
  }

  lemma BootedInv(s: Sys)
    requires Booted(s)
    ensures Inv(s)
  {
    forall p | 0 <= p < |s.procs| ensures LocalOk(p, s.procs[p]) && LocOk(s, p) && ForkOk(s, p) && KinOk(s, p) {
      assert p == INIT ==> s.queue[0] == p;
    }
    forall c | c in s.cpus ensures CpuOk(s, c) {
      assert s.cpus[c] == Idle;
    }
  }

  ghost predicate Run(ss: seq<Sys>, es: seq<Event>) {
    && |ss| == |es| + 1 && Booted(ss[0])
    && forall i | 0 <= i < |es| :: Enabled(ss[i], es[i]) && ss[i + 1] == Next(ss[i], es[i])
  }

  lemma {:induction false} RunKeeps(ss: seq<Sys>, es: seq<Event>, i: nat)
    requires Run(ss, es) && i < |ss|
    ensures Inv(ss[i])
  {
    hide Inv, Enabled, Next, Booted;
    if i == 0 {
      BootedInv(ss[0]);
    } else {
      RunKeeps(ss, es, i - 1);
      StepKeeps(ss[i - 1], es[i - 1]);
    }
  }

  // ---- the run queue ----

  // A process whose lock is free is RUNNABLE exactly when it is in the queue or has just been
  // popped by a CPU; never both, never twice
  lemma RunnableIsQueued(s: Sys, p: nat)
    requires Inv(s) && p < NPROC && s.procs[p].lock == None
    ensures s.procs[p].state == RUNNABLE <==> p in s.queue || exists c :: c in s.cpus && s.cpus[c] == Popped(p)
    ensures p in s.queue ==> forall c | c in s.cpus :: s.cpus[c] != Popped(p)
    ensures forall i, j | 0 <= i < |s.queue| && 0 <= j < |s.queue| && s.queue[i] == p == s.queue[j] :: i == j
    ensures forall c, d | c in s.cpus && d in s.cpus && s.cpus[c] == Popped(p) == s.cpus[d] :: c == d
  {
    hide Forks, Family, HolderOk, ScanOk, NoLost;
    assert LocalOk(p, s.procs[p]) && LocOk(s, p);
    forall c | c in s.cpus && s.cpus[c] == Popped(p) ensures s.procs[p].loc == PoppedBy(c) {
      assert CpuOk(s, c);
    }
    if k :| 0 <= k < |s.queue| && s.queue[k] == p {
      assert s.procs[s.queue[k]].loc == Queued;
    }
  }

  // A process is on one CPU at most, and not in the queue meanwhile; its lock, while it is being
  // switched to or away from, is held by that CPU, whichever side of swtch releases it
  lemma OnOneCpu(s: Sys, p: nat, c: nat, d: nat)
    requires Inv(s) && c in s.cpus && (s.cpus[c] == Running(p) || s.cpus[c] == Back(p))
    requires d in s.cpus && !s.cpus[d].Idle? && s.cpus[d].p == p
    ensures c == d && p < NPROC && p !in s.queue
    ensures s.cpus[c] == Back(p) ==> s.procs[p].lock == Some(c)
    ensures s.cpus[c] == Running(p) && s.procs[p].pc.Resume? ==> s.procs[p].lock == Some(c)
  {
    hide Forks, Family, HolderOk, ScanOk, NoLost;
    assert CpuOk(s, c) && CpuOk(s, d);
    assert LocalOk(p, s.procs[p]);
  }

  // sched() never finds the process that calls it RUNNING, and finds it locked by its own CPU: a
  // step that switches away from p leaves it in another state and with its lock held
  lemma SwitchesAwayNotRunning(s: Sys, e: Event, p: nat, c: nat)
    requires Inv(s) && Enabled(s, e) && c in Next(s, e).cpus && Next(s, e).cpus[c] == Back(p)
    ensures p < NPROC && |Next(s, e).procs| == NPROC
    ensures Next(s, e).procs[p].state != RUNNING && Next(s, e).procs[p].lock == Some(c)
  {
    StepKeeps(s, e);
    hide Forks, Family, HolderOk, ScanOk, NoLost, Next, Enabled;
    var t := Next(s, e);
    assert CpuOk(t, c);
    assert LocalOk(p, t.procs[p]);
  }

  // push_queue never finds the queue full, and the scheduler never finds a process in it that is
  // not RUNNABLE
  lemma NoOverflowNoSkip(s: Sys, e: Event, c: nat)
    requires Inv(s) && Enabled(s, e)
    ensures |Next(s, e).queue| > |s.queue| ==> |s.queue| < NPROC
    ensures !Enabled(s, Skip(c))
  {
    StepKeeps(s, e);
    hide Basic, WaitInv, Next, SchedEnabled, RunEnabled, ForkWaitEnabled, ExitEnabled;
    QueueFits(Next(s, e));
    if c in s.cpus && s.cpus[c].Popped? {
      NeverSkips(s, c);
    }
  }

  // ---- SIGSTOP and SIGCONT ----

  // Only SIGCONT ends STOPPED: neither SIGKILL nor any wakeup does
  lemma StoppedUntilCont(s: Sys, e: Event, p: nat)
    requires Inv(s) && Enabled(s, e) && p < NPROC && s.procs[p].state == STOPPED
    ensures Next(s, e).procs[p].state != STOPPED <==> e == Signal(p, SIGCONT) && s.procs[p].lock == None
  {
    hide Basic, Family, HolderOk, ScanOk, NoLost, SchedNext, RunNext, ForkWaitNext, ExitNext;
    StoppedUnlocked(s, e, p);
    if SchedEnabled(s, e) {
      StoppedBySched(s, e, p);
    } else if RunEnabled(s, e) {
      StoppedByRun(s, e, p);
    } else if ForkWaitEnabled(s, e) {
      StoppedByForkWait(s, e, p);
    } else {
      StoppedByExit(s, e, p);
    }
  }

  lemma StoppedUnlocked(s: Sys, e: Event, p: nat)
    requires Basic(s) && Enabled(s, e) && p < NPROC
    ensures |s.procs| == NPROC && (e == Signal(p, SIGCONT) ==> s.procs[p].lock == None && RunEnabled(s, e) && !SchedEnabled(s, e))
  {
    hide Places, Forks, LocalOk;
  }

  lemma StoppedBySched(s: Sys, e: Event, p: nat)
    requires Basic(s) && SchedEnabled(s, e) && p < NPROC && s.procs[p].state == STOPPED
    ensures SchedNext(s, e).procs[p].state == STOPPED
  {
  }

  lemma StoppedByRun(s: Sys, e: Event, p: nat)
    requires Basic(s) && RunEnabled(s, e) && p < NPROC && s.procs[p].state == STOPPED
    ensures RunNext(s, e).procs[p].state != STOPPED <==> e == Signal(p, SIGCONT)
  {
    hide Places, Forks;
    assert LocalOk(p, s.procs[p]);
  }

  lemma StoppedByForkWait(s: Sys, e: Event, p: nat)
    requires Basic(s) && ForkWaitEnabled(s, e) && p < NPROC && s.procs[p].state == STOPPED
    ensures ForkWaitNext(s, e).procs[p].state == STOPPED
  {
    hide Places;
    assert LocalOk(p, s.procs[p]);
    assert ForkOk(s, e.p);
    if e.ForkCommit? || e.ForkFail? {
      assert LocalOk(s.procs[e.p].pc.np, s.procs[s.procs[e.p].pc.np]);
    }
  }

  lemma StoppedByExit(s: Sys, e: Event, p: nat)
    requires Basic(s) && ExitEnabled(s, e) && p < NPROC && s.procs[p].state == STOPPED
    ensures ExitNext(s, e).procs[p].state == STOPPED
  {
    hide Places, Forks;
    assert LocalOk(p, s.procs[p]);
  }

  // Not stopped, and nothing left that would stop it
  predicate Safe(x: Proc) {
    x.state != STOPPED && !x.pc.Stopping? && !x.needStop
  }

  // usertrapret clears need_stop before it takes the lock. SIGCONT prevents the stop exactly when
  // it does not come in between.
  lemma ContExactly(s: Sys, p: nat)
    requires Inv(s) && p < NPROC && Enabled(s, Signal(p, SIGCONT))
    ensures Safe(Next(s, Signal(p, SIGCONT)).procs[p]) <==> !s.procs[p].pc.Stopping?
  {
    hide Places, Forks, WaitInv;
    assert LocalOk(p, s.procs[p]);
  }

  // Then only a new SIGSTOP, taken up by the process itself, can stop it
  lemma StaysSafe(s: Sys, e: Event, p: nat)
    requires Inv(s) && Enabled(s, e) && p < NPROC && Safe(s.procs[p]) && !(e.SetFlags? && e.p == p && e.stop)
    ensures |Next(s, e).procs| == NPROC && Safe(Next(s, e).procs[p])
  {
    hide Basic, Family, HolderOk, ScanOk, NoLost, SchedNext, RunNext, ForkWaitNext, ExitNext, SchedEnabled, RunEnabled,
         ForkWaitEnabled, ExitEnabled, Safe;
    InvShape(s);
    if SchedEnabled(s, e) {
      SafeBySched(s, e, p);
    } else if RunEnabled(s, e) {
      SafeByRun(s, e, p);
    } else if ForkWaitEnabled(s, e) {
      SafeByForkWait(s, e, p);
    } else {
      SafeByExit(s, e, p);
    }
  }

  lemma SafeBySched(s: Sys, e: Event, p: nat)
    requires |s.procs| == NPROC && SchedEnabled(s, e) && p < NPROC && Safe(s.procs[p])
    ensures Safe(SchedNext(s, e).procs[p])
  {
  }

  lemma SafeByRun(s: Sys, e: Event, p: nat)
    requires |s.procs| == NPROC && RunEnabled(s, e) && p < NPROC && Safe(s.procs[p]) && !(e.SetFlags? && e.p == p && e.stop)
    ensures Safe(RunNext(s, e).procs[p])
  {
  }

  lemma SafeByForkWait(s: Sys, e: Event, p: nat)
    requires |s.procs| == NPROC && ForkWaitEnabled(s, e) && p < NPROC && Safe(s.procs[p])
    ensures Safe(ForkWaitNext(s, e).procs[p])
  {
  }

  lemma SafeByExit(s: Sys, e: Event, p: nat)
    requires |s.procs| == NPROC && ExitEnabled(s, e) && p < NPROC && Safe(s.procs[p])
    ensures Safe(ExitNext(s, e).procs[p])
  {
    hide Woken, Signalled;
    if e.ExitWakeInitAt? {
      SafeWhenWoken(s, s.procs[e.p].pc.i, OnProc(INIT), SIGCHLD, p);
    } else if e.ExitWakeParentAt? && s.procs[e.p].pc.par.Some? {
      SafeWhenWoken(s, s.procs[e.p].pc.i, OnProc(s.procs[e.p].pc.par.value), SIGCHLD, p);
    } else if e.ExitSent? && e.target.Some? {
      SafeWhenWoken(s, e.target.value, NoChan, SIGCHLD, p);
    }
  }

  lemma SafeWhenWoken(s: Sys, q: nat, chan: Chan, signo: nat, p: nat)
    requires |s.procs| == NPROC && q < NPROC && p < NPROC && Safe(s.procs[p])
    ensures |Woken(s, q, chan).procs| == NPROC && Safe(Woken(s, q, chan).procs[p])
    ensures |Signalled(s, q, signo).procs| == NPROC && Safe(Signalled(s, q, signo).procs[p])
  {
  }

  // In between, nothing but the stop itself gets the process any further
  lemma StaysStopping(s: Sys, e: Event, p: nat)
    requires Inv(s) && Enabled(s, e) && p < NPROC && s.procs[p].pc.Stopping? && s.procs[p].loc.RunningOn?
    ensures |Next(s, e).procs| == NPROC
    ensures e == StopNow(p) ==> Next(s, e).procs[p].state == STOPPED
    ensures e != StopNow(p) ==> Next(s, e).procs[p].pc.Stopping? && Next(s, e).procs[p].loc == s.procs[p].loc
  {
    hide Basic, Family, HolderOk, ScanOk, NoLost, SchedNext, RunNext, ForkWaitNext, ExitNext, SchedEnabled, RunEnabled,
         ForkWaitEnabled, ExitEnabled;
    InvShape(s);
    if SchedEnabled(s, e) {
      StoppingBySched(s, e, p);
    } else if RunEnabled(s, e) {
      StoppingByRun(s, e, p);
    } else if ForkWaitEnabled(s, e) {
      StoppingByForkWait(s, e, p);
    } else {
      StoppingByExit(s, e, p);
    }
  }

  lemma StoppingBySched(s: Sys, e: Event, p: nat)
    requires Basic(s) && SchedEnabled(s, e) && p < NPROC && s.procs[p].pc.Stopping? && s.procs[p].loc.RunningOn?
    ensures e != StopNow(p) && SchedNext(s, e).procs[p].pc.Stopping? && SchedNext(s, e).procs[p].loc == s.procs[p].loc
  {
    hide Forks;
    if e.Dispatch? || e.Skip? || e.SchedBack? {
      assert CpuOk(s, e.c);
    }
  }

  lemma StoppingByRun(s: Sys, e: Event, p: nat)
    requires Basic(s) && RunEnabled(s, e) && p < NPROC && s.procs[p].pc.Stopping? && s.procs[p].loc.RunningOn?
    ensures e == StopNow(p) ==> RunNext(s, e).procs[p].state == STOPPED
    ensures e != StopNow(p) ==> RunNext(s, e).procs[p].pc.Stopping? && RunNext(s, e).procs[p].loc == s.procs[p].loc
  {
    hide Places, Forks;
    assert LocalOk(p, s.procs[p]);
  }

  lemma StoppingByForkWait(s: Sys, e: Event, p: nat)
    requires Basic(s) && ForkWaitEnabled(s, e) && p < NPROC && s.procs[p].pc.Stopping? && s.procs[p].loc.RunningOn?
    ensures e != StopNow(p) && ForkWaitNext(s, e).procs[p].pc.Stopping? && ForkWaitNext(s, e).procs[p].loc == s.procs[p].loc
  {
    hide Places;
    assert LocalOk(p, s.procs[p]) && ForkOk(s, e.p);
  }

  lemma StoppingByExit(s: Sys, e: Event, p: nat)
    requires Basic(s) && ExitEnabled(s, e) && p < NPROC && s.procs[p].pc.Stopping? && s.procs[p].loc.RunningOn?
    ensures e != StopNow(p) && ExitNext(s, e).procs[p].pc.Stopping? && ExitNext(s, e).procs[p].loc == s.procs[p].loc
  {
    hide Places, Forks;
    assert LocalOk(p, s.procs[p]);
  }

  // In every run: after a SIGCONT at i, and until the process takes up another SIGSTOP, it is never
  // stopped, exactly when the SIGCONT has not come between test and stop; if it has, the process
  // is on its way until its StopNow, and that stops it
  lemma {:induction false} ContInRuns(ss: seq<Sys>, es: seq<Event>, i: nat, j: nat, p: nat)
    requires Run(ss, es) && i < j < |ss| && p < NPROC && es[i] == Signal(p, SIGCONT)
    requires |ss[i].procs| == NPROC
    ensures |ss[j].procs| == NPROC
    ensures !ss[i].procs[p].pc.Stopping? && (forall k | i < k < j :: !(es[k].SetFlags? && es[k].p == p && es[k].stop)) ==>
              Safe(ss[j].procs[p])
    ensures ss[i].procs[p].pc.Stopping? && (forall k | i < k < j :: es[k] != StopNow(p)) ==>
              && ss[j].procs[p].pc.Stopping?
              && (j < |es| && es[j] == StopNow(p) ==> |ss[j + 1].procs| == NPROC && ss[j + 1].procs[p].state == STOPPED)
  {
    hide Inv, Enabled, Next, Booted, Safe;
    RunKeeps(ss, es, j - 1);
    RunKeeps(ss, es, j);
    InvShape(ss[j]);
    assert Enabled(ss[j - 1], es[j - 1]);
    var x := ss[i].procs[p];
    if x.pc.Stopping? && (forall k | i < k < j :: es[k] != StopNow(p)) {
      StoppingInRuns(ss, es, i, j, p);
      if j < |es| {
        StaysStopping(ss[j], es[j], p);
      }
    }
    if !x.pc.Stopping? && (forall k | i < k < j :: !(es[k].SetFlags? && es[k].p == p && es[k].stop)) {
      if j == i + 1 {
        ContExactly(ss[i], p);
      } else {
        ContInRuns(ss, es, i, j - 1, p);
        StaysSafe(ss[j - 1], es[j - 1], p);
      }
    }
  }

  lemma {:induction false} StoppingInRuns(ss: seq<Sys>, es: seq<Event>, i: nat, j: nat, p: nat)
    requires Run(ss, es) && i <= j < |ss| && p < NPROC && |ss[i].procs| == NPROC && ss[i].procs[p].pc.Stopping?
    requires forall k | i <= k < j :: es[k] != StopNow(p)
    ensures |ss[j].procs| == NPROC && ss[j].procs[p].pc.Stopping? && ss[j].procs[p].loc.RunningOn?
  {
    hide Enabled, Next, Booted, WaitInv, Places, Forks;
    if i == j {
      RunKeeps(ss, es, i);
      assert LocalOk(p, ss[i].procs[p]);
    } else {
      StoppingInRuns(ss, es, i, j - 1, p);
      RunKeeps(ss, es, j - 1);
      StaysStopping(ss[j - 1], es[j - 1], p);
    }
  }

  // It does happen: the first process gets SIGSTOP, and SIGCONT in the wrong moment
  lemma ContCanBeLost(s: Sys, c: nat) returns (ss: seq<Sys>)
    requires Booted(s) && c in s.cpus
    ensures Run(ss, LosingRun(c)) && ss[0] == s && |ss[5].procs| == |ss[7].procs| == NPROC
    ensures ss[5].procs[INIT].pc.Stopping? && ss[7].procs[INIT].state == STOPPED
  {
    hide Enabled, Next, Booted, Runs;
    var s1, s2, s3 := FirstStarted(s, c);
    var s4, s5, s6, s7 := StoppedAnyway(s3);
    ss := [s, s1, s2, s3, s4, s5, s6, s7];
    var es := LosingRun(c);
    assert Follows(ss[0], es[0], ss[1]) && Follows(ss[1], es[1], ss[2]) && Follows(ss[2], es[2], ss[3]);
    assert Follows(ss[3], es[3], ss[4]) && Follows(ss[4], es[4], ss[5]) && Follows(ss[5], es[5], ss[6]);
    assert Follows(ss[6], es[6], ss[7]);
  }

  predicate Follows(s: Sys, e: Event, t: Sys) {
    Enabled(s, e) && t == Next(s, e)
  }

  lemma FirstStarted(s: Sys, c: nat) returns (s1: Sys, s2: Sys, s3: Sys)
    requires Booted(s) && c in s.cpus
    ensures Follows(s, Fetch(c), s1) && Follows(s1, Dispatch(c), s2) && Follows(s2, Resumed(INIT), s3)
    ensures |s3.procs| == NPROC && Runs(s3, INIT) && s3.procs[INIT].pc == Live && s3.procs[INIT].lock == None
            && s3.procs[INIT].state == RUNNING
  {
    s1 := Next(s, Fetch(c));
    s2 := Next(s1, Dispatch(c));
    s3 := Next(s2, Resumed(INIT));
  }

  lemma StoppedAnyway(s3: Sys) returns (s4: Sys, s5: Sys, s6: Sys, s7: Sys)
    requires |s3.procs| == NPROC && Runs(s3, INIT) && s3.procs[INIT].pc == Live && s3.procs[INIT].lock == None
            && s3.procs[INIT].state == RUNNING
    ensures Follows(s3, SetFlags(INIT, true, false), s4) && Follows(s4, StopTest(INIT), s5)
    ensures Follows(s5, Signal(INIT, SIGCONT), s6) && Follows(s6, StopNow(INIT), s7)
    ensures |s5.procs| == |s7.procs| == NPROC && s5.procs[INIT].pc.Stopping? && s7.procs[INIT].state == STOPPED
  {
    s4 := Next(s3, SetFlags(INIT, true, false));
    s5 := Next(s4, StopTest(INIT));
    s6 := Next(s5, Signal(INIT, SIGCONT));
    s7 := Next(s6, StopNow(INIT));
  }

  function LosingRun(c: nat): seq<Event> {
    [Fetch(c), Dispatch(c), Resumed(INIT), SetFlags(INIT, true, false), StopTest(INIT), Signal(INIT, SIGCONT), StopNow(INIT)]
  }

  // ---- exit and wait ----

  // With wait_lock free, nobody sleeps in wait for a child that has exited
  lemma NoLostWakeup(s: Sys, q: nat, z: nat)
    requires Inv(s) && s.waitLock == None
    ensures !Awaited(s, q, z)
  {
    NoneAwaited(s);
  }

  // A process is reclaimed by its parent alone, and only when no CPU runs it or is still
  // switching away from it
  lemma ReclaimedAfterSwitch(s: Sys, e: Event, z: nat)
    requires Inv(s) && Enabled(s, e) && z < NPROC && s.procs[z].state == ZOMBIE && Next(s, e).procs[z].state != ZOMBIE
    ensures e.WaitLook? && s.procs[z].parent == Some(e.p) && Next(s, e).procs[z].state == UNUSED
    ensures s.procs[e.p].pc.WaitScan? && (s.procs[e.p].pc.pid <= 0 || s.procs[z].pid == s.procs[e.p].pc.pid)
    ensures forall c | c in s.cpus && !s.cpus[c].Idle? :: s.cpus[c].p != z
  {
    hide Basic, Family, HolderOk, ScanOk, NoLost, SchedNext, RunNext, ForkWaitNext, ExitNext,
         SchedEnabled, RunEnabled, ForkWaitEnabled, ExitEnabled;
    if SchedEnabled(s, e) {
      ZombieStays(s, e, z);
    } else if RunEnabled(s, e) {
      ZombieStaysRun(s, e, z);
    } else if ForkWaitEnabled(s, e) {
      ReapedByWait(s, e, z);
    } else {
      ZombieStaysExit(s, e, z);
    }
  }

  lemma ZombieStays(s: Sys, e: Event, z: nat)
    requires Basic(s) && SchedEnabled(s, e) && z < NPROC && s.procs[z].state == ZOMBIE
    ensures SchedNext(s, e).procs[z].state == ZOMBIE
  {
  }

  lemma ZombieStaysRun(s: Sys, e: Event, z: nat)
    requires Basic(s) && RunEnabled(s, e) && z < NPROC && s.procs[z].state == ZOMBIE
    ensures RunNext(s, e).procs[z].state == ZOMBIE
  {
    hide Places, Forks;
    assert LocalOk(z, s.procs[z]);
  }

  lemma ZombieStaysExit(s: Sys, e: Event, z: nat)
    requires Basic(s) && ExitEnabled(s, e) && z < NPROC && s.procs[z].state == ZOMBIE
    ensures ExitNext(s, e).procs[z].state == ZOMBIE
  {
    hide Places, Forks;
    assert LocalOk(z, s.procs[z]);
  }

  lemma ReapedByWait(s: Sys, e: Event, z: nat)
    requires Basic(s) && ForkWaitEnabled(s, e) && z < NPROC && s.procs[z].state == ZOMBIE
    requires ForkWaitNext(s, e).procs[z].state != ZOMBIE
    ensures e.WaitLook? && s.procs[z].parent == Some(e.p) && ForkWaitNext(s, e).procs[z].state == UNUSED
    ensures s.procs[e.p].pc.WaitScan? && (s.procs[e.p].pc.pid <= 0 || s.procs[z].pid == s.procs[e.p].pc.pid)
    ensures forall c | c in s.cpus && !s.cpus[c].Idle? :: s.cpus[c].p != z
  {
    assert LocalOk(z, s.procs[z]) && LocalOk(e.p, s.procs[e.p]);
    assert ForkOk(s, e.p);
    forall c | c in s.cpus && !s.cpus[c].Idle? ensures s.cpus[c].p != z {
      assert CpuOk(s, c);
    }
  }

  // wait gives up for want of children only when there are none
  lemma QuitsWithoutChildren(s: Sys, p: nat, z: nat)
    requires Inv(s) && Enabled(s, WaitQuit(p)) && !s.procs[p].killed && z < NPROC
    ensures s.procs[z].parent != Some(p)
  {
    hide Places, Forks;
    assert SeenOk(s, p, s.procs[p].pc.pid, s.procs[p].pc.kids, z);
  }

  // All of it, for every state of every run
  lemma EveryRunIsSafe(ss: seq<Sys>, es: seq<Event>, i: nat, p: nat, c: nat)
    requires Run(ss, es) && i < |ss| && p < NPROC
    ensures |ss[i].procs| == NPROC && |ss[i].queue| <= NPROC && !Enabled(ss[i], Skip(c))
    ensures ss[i].procs[p].lock == None ==>
              (ss[i].procs[p].state == RUNNABLE <==> p in ss[i].queue || exists d :: d in ss[i].cpus && ss[i].cpus[d] == Popped(p))
    ensures ss[i].waitLock == None ==> forall z: nat :: !Awaited(ss[i], p, z)
    ensures i < |es| && ss[i].procs[p].state == STOPPED && ss[i + 1].procs[p].state != STOPPED ==> es[i] == Signal(p, SIGCONT)
  {
    RunKeeps(ss, es, i);
    var s := ss[i];
    InvShape(s);
    hide Basic, WaitInv, Next, SchedEnabled, RunEnabled, ForkWaitEnabled, ExitEnabled, Booted;
    QueueFits(s);
    if c in s.cpus && s.cpus[c].Popped? {
      NeverSkips(s, c);
    }
    if s.procs[p].lock == None {
      RunnableIsQueued(s, p);
    }
    if s.waitLock == None {
      forall z: nat ensures !Awaited(s, p, z) {
        NoLostWakeup(s, p, z);
      }
    }
    if i < |es| && s.procs[p].state == STOPPED {
      StoppedUntilCont(s, es[i], p);
    }
  }

  lemma InvShape(s: Sys)
    requires Inv(s)
    ensures |s.procs| == NPROC
  {
  }
}
