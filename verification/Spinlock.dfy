/**
 * Spinlocks, interrupt nesting and the handing over of p->lock across swtch (os/lock.c, sched and
 * scheduler in os/sched.c), one memory operation at a time, on any number of CPUs.
 *
 * push_off and pop_off are single steps: they work on their own CPU's fields with interrupts off,
 * and an interrupt between push_off's intr_get and intr_off leaves nothing behind.
 */
module Spinlock {
  import opened Common

  datatype LockId = PLock(p: nat) | Named(n: nat)

  // holder is the CPU whose test-and-set took the lock; cpu is the field lk->cpu
  datatype Lock = Lock(locked: bool, cpu: Option<nat>, holder: Option<nat>)

  datatype Thread = Sched | Proc(p: nat)

  datatype Pc =
    | Go
    | Spin(lk: LockId)     // in acquire: interrupts are off, the lock is not taken
    | Got(lk: LockId)      // taken, lk->cpu not yet recorded
    | Cleared(lk: LockId)  // in release: lk->cpu cleared, the lock not yet free
    | Popping              // free, pop_off still to come

  // struct cpu, with the locks this CPU has taken and the push_offs outside acquire beside it
  datatype Cpu = Cpu(noff: nat, interruptOn: bool, intr: bool, inTrap: bool, thread: Thread, pc: Pc, held: set<LockId>, bare: nat)

  // saved[p] is the local variable interrupt_on of sched(), while p is switched out
  datatype Sys = Sys(locks: map<LockId, Lock>, cpus: map<nat, Cpu>, saved: map<nat, bool>)

  // holding(lk), evaluated by CPU c
  predicate Holding(s: Sys, c: nat, lk: LockId) {
    lk in s.locks && s.locks[lk].locked && s.locks[lk].cpu == Some(c)
  }

  function PushOff(x: Cpu): Cpu {
    x.(interruptOn := if x.noff == 0 then x.intr else x.interruptOn, intr := false, noff := x.noff + 1)
  }

  // pop_off panics when interrupts are on, noff is 0, or it would turn them on inside a trap
  predicate PopOffOk(x: Cpu) {
    !x.intr && x.noff >= 1 && !(x.noff == 1 && x.interruptOn && x.inTrap)
  }

  function PopOff(x: Cpu): Cpu
    requires x.noff >= 1
  {
    x.(noff := x.noff - 1, intr := x.intr || (x.noff == 1 && x.interruptOn))
  }

  datatype Event =
    | Push(c: nat) | Pop(c: nat)                          // bare push_off and pop_off
    | AcquirePush(c: nat, lk: LockId) | TestAndSet(c: nat) | Record(c: nat)
    | Clear(c: nat, lk: LockId) | Free(c: nat) | ReleasePop(c: nat)
    | IntrOn(c: nat) | IntrOff(c: nat) | TrapIn(c: nat) | TrapOut(c: nat)
    | SwitchOut(c: nat) | SwitchIn(c: nat, p: nat)

  predicate Enabled(s: Sys, e: Event) {
    e.c in s.cpus &&
    var x := s.cpus[e.c];
    match e
    case Push(c) => x.pc.Go?
    case Pop(c) => x.pc.Go? && x.bare > 0
    case AcquirePush(c, lk) => x.pc.Go? && lk in s.locks
    case TestAndSet(c) => x.pc.Spin? && x.pc.lk in s.locks && !s.locks[x.pc.lk].locked
    case Record(c) => x.pc.Got? && x.pc.lk in s.locks
    case Clear(c, lk) => x.pc.Go? && Holding(s, c, lk)
    case Free(c) => x.pc.Cleared? && x.pc.lk in s.locks
    case ReleasePop(c) => x.pc.Popping?
    // callers turn interrupts on outside any push_off only
    case IntrOn(c) => x.pc.Go? && x.noff == 0 && !x.inTrap
    case IntrOff(c) => x.pc.Go?
    case TrapIn(c) => x.intr
    case TrapOut(c) => x.inTrap && x.pc.Go? && x.noff == 0
    // what sched() checks before swtch
    case SwitchOut(c) => x.pc.Go? && x.thread.Proc? && Holding(s, c, PLock(x.thread.p)) && x.noff == 1 && !x.inTrap
    // scheduler() holds p->lock and nothing else
    case SwitchIn(c, p) => x.pc.Go? && x.thread.Sched? && Holding(s, c, PLock(p)) && x.noff == 1 && !x.inTrap
  }

  function WithCpu(s: Sys, c: nat, x: Cpu): Sys {
    s.(cpus := s.cpus[c := x])
  }

  function WithLock(s: Sys, lk: LockId, l: Lock): Sys {
    s.(locks := s.locks[lk := l])
  }

  function Next(s: Sys, e: Event): Sys
    requires Enabled(s, e)
  {
    var x := s.cpus[e.c];
    match e
    case Push(c) => WithCpu(s, c, PushOff(x).(bare := x.bare + 1))
    case Pop(c) => if x.noff == 0 then s else WithCpu(s, c, PopOff(x).(bare := x.bare - 1))
    case AcquirePush(c, lk) => WithCpu(s, c, PushOff(x).(pc := Spin(lk)))
    case TestAndSet(c) =>
      var taken := s.locks[x.pc.lk].(locked := true, holder := Some(c));
      WithCpu(WithLock(s, x.pc.lk, taken), c, x.(pc := Got(x.pc.lk), held := x.held + {x.pc.lk}))
    case Record(c) => WithCpu(WithLock(s, x.pc.lk, s.locks[x.pc.lk].(cpu := Some(c))), c, x.(pc := Go))
    case Clear(c, lk) => WithCpu(WithLock(s, lk, s.locks[lk].(cpu := None)), c, x.(pc := Cleared(lk)))
    case Free(c) =>
      var freed := s.locks[x.pc.lk].(locked := false, holder := None);
      WithCpu(WithLock(s, x.pc.lk, freed), c, x.(pc := Popping, held := x.held - {x.pc.lk}))
    case ReleasePop(c) => if x.noff == 0 then s else WithCpu(s, c, PopOff(x).(pc := Go))
    case IntrOn(c) => WithCpu(s, c, x.(intr := true))
    case IntrOff(c) => WithCpu(s, c, x.(intr := false))
    case TrapIn(c) => WithCpu(s, c, x.(intr := false, inTrap := true))
    case TrapOut(c) => WithCpu(s, c, x.(intr := true, inTrap := false))
    case SwitchOut(c) => WithCpu(s, c, x.(thread := Sched)).(saved := s.saved[x.thread.p := x.interruptOn])
    case SwitchIn(c, p) =>
      WithCpu(s, c, x.(thread := Proc(p), interruptOn := if p in s.saved then s.saved[p] else x.interruptOn)).(saved := s.saved - {p})
  }

  // ---- invariant ----

  // noff counts the locks held, the acquire or release in progress and the bare push_offs;
  // interrupts are on only when it is 0, and no pop_off turns them on inside a trap
  predicate CpuOk(x: Cpu) {
    && x.noff == |x.held| + x.bare + (if x.pc.Spin? || x.pc.Popping? then 1 else 0)
    && (x.intr ==> x.noff == 0 && !x.inTrap)
    && (x.inTrap && x.noff > 0 ==> !x.interruptOn)
    && (x.pc.Got? || x.pc.Cleared? ==> x.pc.lk in x.held)
  }

  // A lock is held by the CPU that took it, and names that CPU except while it is being acquired
  // or released
  predicate LockOk(s: Sys, lk: LockId)
    requires lk in s.locks
  {
    var l := s.locks[lk];
    && (l.locked <==> l.holder.Some?)
    && (l.holder.Some? ==> l.holder.value in s.cpus && lk in s.cpus[l.holder.value].held)
    && l.cpu == (if l.holder.Some? && l.holder.value in s.cpus && !Between(s.cpus[l.holder.value].pc, lk) then l.holder else None)
  }

  predicate Between(pc: Pc, lk: LockId) {
    (pc.Got? || pc.Cleared?) && pc.lk == lk
  }

  predicate HeldOk(s: Sys, c: nat, lk: LockId) {
    c in s.cpus && lk in s.cpus[c].held ==> lk in s.locks && s.locks[lk].holder == Some(c)
  }

  ghost predicate Inv(s: Sys) {
    && (forall c | c in s.cpus :: CpuOk(s.cpus[c]))
    && (forall lk | lk in s.locks :: LockOk(s, lk))
    && (forall c: nat, lk: LockId :: HeldOk(s, c, lk))
  }

  lemma CpusKept(s: Sys, e: Event)
    requires Inv(s) && Enabled(s, e)
    ensures forall c | c in Next(s, e).cpus :: CpuOk(Next(s, e).cpus[c])
  {
    hide LockOk;
    var x := s.cpus[e.c];
    assert CpuOk(x);
    if e.TestAndSet? {
      assert LockOk(s, x.pc.lk) && HeldOk(s, e.c, x.pc.lk);
      TestedFree(s, e.c, x.pc.lk);
      assert |x.held + {x.pc.lk}| == |x.held| + 1;
    } else if e.Free? {
      assert |x.held - {x.pc.lk}| == |x.held| - 1;
    } else if e.Clear? {
      HoldingExactly(s, e.c, e.lk);
    }
  }

  lemma TestedFree(s: Sys, c: nat, lk: LockId)
    requires Inv(s) && c in s.cpus && lk in s.locks && !s.locks[lk].locked
    ensures lk !in s.cpus[c].held
  {
    assert LockOk(s, lk) && HeldOk(s, c, lk);
  }

  lemma LockKept(s: Sys, e: Event, lk: LockId)
    requires Enabled(s, e) && CpuOk(s.cpus[e.c]) && lk in s.locks && LockOk(s, lk) && HeldOk(s, e.c, lk)
    ensures lk in Next(s, e).locks && LockOk(Next(s, e), lk)
  {
  }

  lemma LocksKept(s: Sys, e: Event)
    requires Inv(s) && Enabled(s, e)
    ensures forall lk | lk in Next(s, e).locks :: LockOk(Next(s, e), lk)
  {
    hide LockOk, CpuOk, HeldOk;
    forall lk | lk in Next(s, e).locks ensures LockOk(Next(s, e), lk) {
      assert HeldOk(s, e.c, lk);
      LockKept(s, e, lk);
    }
  }

  lemma HeldKept(s: Sys, e: Event)
    requires Inv(s) && Enabled(s, e)
    ensures forall c: nat, lk: LockId :: HeldOk(Next(s, e), c, lk)
  {
    var t, x := Next(s, e), s.cpus[e.c];
    assert CpuOk(x);
    if e.TestAndSet? {
      assert LockOk(s, x.pc.lk);
    } else if e.Free? {
      assert HeldOk(s, e.c, x.pc.lk);
    }
    forall c: nat, lk: LockId ensures HeldOk(t, c, lk) {
      assert HeldOk(s, c, lk);
    }
  }

  lemma StepKeeps(s: Sys, e: Event)
    requires Inv(s) && Enabled(s, e)
    ensures Inv(Next(s, e))
  {
    hide CpuOk, LockOk, HeldOk, Next, Enabled;
    CpusKept(s, e);
    LocksKept(s, e);
    HeldKept(s, e);
  }

  // ---- what follows ----

  // holding(lk) is exact for a CPU that is not inside acquire or release: it is true just of the
  // locks this CPU has taken. So release panics only on a lock that is not held, acquire only on
  // one that is.
  lemma HoldingExactly(s: Sys, c: nat, lk: LockId)
    requires Inv(s) && c in s.cpus
    ensures s.cpus[c].pc.Go? || s.cpus[c].pc.Spin? ==> (Holding(s, c, lk) <==> lk in s.cpus[c].held)
  {
    assert HeldOk(s, c, lk);
    assert lk in s.locks ==> LockOk(s, lk);
  }

  lemma MutualExclusion(s: Sys, c: nat, d: nat, lk: LockId)
    requires Inv(s) && c in s.cpus && d in s.cpus && lk in s.cpus[c].held && lk in s.cpus[d].held
    ensures c == d
  {
    assert HeldOk(s, c, lk) && HeldOk(s, d, lk);
  }

  // No pop_off panics
  lemma PopOffNeverPanics(s: Sys, e: Event)
    requires Inv(s) && Enabled(s, e) && (e.Pop? || e.ReleasePop?)
    ensures PopOffOk(s.cpus[e.c])
  {
    assert CpuOk(s.cpus[e.c]);
  }

  // Interrupts are off as long as a lock is held, being taken or being released
  lemma OffWhileLocked(s: Sys, c: nat)
    requires Inv(s) && c in s.cpus && (s.cpus[c].held != {} || !s.cpus[c].pc.Go? || s.cpus[c].bare > 0)
    ensures !s.cpus[c].intr && s.cpus[c].noff > 0
  {
    assert CpuOk(s.cpus[c]);
    if s.cpus[c].held != {} {
      var lk :| lk in s.cpus[c].held;
      assert |s.cpus[c].held| >= |{lk}|;
    }
  }

  // sched() passes its checks exactly when the process holds its own lock and nothing else, and
  // it is then entered with interrupts off
  lemma SchedChecksExactly(s: Sys, c: nat)
    requires Inv(s) && c in s.cpus && s.cpus[c].pc.Go? && s.cpus[c].thread.Proc?
    ensures Enabled(s, SwitchOut(c)) <==>
              s.cpus[c].held == {PLock(s.cpus[c].thread.p)} && s.cpus[c].bare == 0 && !s.cpus[c].inTrap
    ensures Enabled(s, SwitchOut(c)) ==> !s.cpus[c].intr
  {
    var x := s.cpus[c];
    assert CpuOk(x);
    var lk := PLock(x.thread.p);
    HoldingExactly(s, c, lk);
    if lk in x.held {
      assert x.held == {lk} + (x.held - {lk});
      assert |x.held| == 1 + |x.held - {lk}|;
    }
  }

  // The lock crosses swtch: whoever runs on the CPU afterwards is the one that may release it
  lemma HandedOver(s: Sys, e: Event)
    requires Inv(s) && Enabled(s, e) && (e.SwitchOut? || e.SwitchIn?)
    ensures var p := if e.SwitchOut? then s.cpus[e.c].thread.p else e.p;
            Enabled(Next(s, e), Clear(e.c, PLock(p)))
  {
  }

  // ---- interrupt_on belongs to the process ----

  ghost predicate Run(ss: seq<Sys>, es: seq<Event>) {
    && |ss| == |es| + 1 && Inv(ss[0])
    && forall i | 0 <= i < |es| :: Enabled(ss[i], es[i]) && ss[i + 1] == Next(ss[i], es[i])
  }

  lemma {:induction false} RunKeeps(ss: seq<Sys>, es: seq<Event>, i: nat)
    requires Run(ss, es) && i < |ss|
    ensures Inv(ss[i])
  {
    hide Inv, Enabled, Next;
    if i > 0 {
      RunKeeps(ss, es, i - 1);
      StepKeeps(ss[i - 1], es[i - 1]);
    }
  }

  predicate SwitchOf(s: Sys, e: Event, p: nat) {
    (e == SwitchOut(e.c) && e.c in s.cpus && s.cpus[e.c].thread == Proc(p)) || (e.SwitchIn? && e.p == p)
  }

  // p is switched out at step i, and next switched in at step j - 1
  ghost predicate Away(ss: seq<Sys>, es: seq<Event>, p: nat, i: nat, j: nat) {
    && Run(ss, es) && i < j - 1 < |es|
    && es[i].SwitchOut? && SwitchOf(ss[i], es[i], p)
    && es[j - 1].SwitchIn? && es[j - 1].p == p
    && forall k | i < k < j - 1 :: !SwitchOf(ss[k], es[k], p)
  }

  lemma SavedStep(s: Sys, e: Event, p: nat)
    requires Enabled(s, e)
    ensures !SwitchOf(s, e, p) && p in s.saved ==> p in Next(s, e).saved && Next(s, e).saved[p] == s.saved[p]
    ensures e.SwitchOut? && SwitchOf(s, e, p) ==> p in Next(s, e).saved && Next(s, e).saved[p] == s.cpus[e.c].interruptOn
    ensures e.SwitchIn? && e.p == p && p in s.saved ==> Next(s, e).cpus[e.c].interruptOn == s.saved[p]
  {
  }

  lemma {:induction false} SavedKept(ss: seq<Sys>, es: seq<Event>, p: nat, i: nat, j: nat, k: nat)
    requires Away(ss, es, p, i, j) && i < k < j
    ensures es[i].c in ss[i].cpus && p in ss[k].saved && ss[k].saved[p] == ss[i].cpus[es[i].c].interruptOn
  {
    hide Inv, Next, SwitchOf;
    assert SwitchOf(ss[i], es[i], p);
    SavedStep(ss[k - 1], es[k - 1], p);
    if k > i + 1 {
      SavedKept(ss, es, p, i, j, k - 1);
      assert !SwitchOf(ss[k - 1], es[k - 1], p);
    }
  }

  // A process that comes back from sched() finds the interrupt_on it left, on whatever CPU it
  // resumes and whatever that CPU did meanwhile
  lemma SameInterruptOn(ss: seq<Sys>, es: seq<Event>, p: nat, i: nat, j: nat)
    requires Away(ss, es, p, i, j)
    ensures es[j - 1].c in ss[j].cpus && es[i].c in ss[i].cpus
    ensures ss[j].cpus[es[j - 1].c].interruptOn == ss[i].cpus[es[i].c].interruptOn
  {
    SavedKept(ss, es, p, i, j, j - 1);
    hide Inv, SwitchOf;
    assert Enabled(ss[j - 1], es[j - 1]) && ss[j] == Next(ss[j - 1], es[j - 1]);
    SavedStep(ss[j - 1], es[j - 1], p);
  }

  // ---- interrupts come back ----

  // What push_off and pop_off do, alone or inside acquire and release: the first one on a CPU
  // records whether interrupts were on, and only the last pop_off gives that back
  lemma NestingStep(s: Sys, e: Event)
    requires Inv(s) && Enabled(s, e)
    ensures e.c in Next(s, e).cpus
    ensures var x, y := s.cpus[e.c], Next(s, e).cpus[e.c];
            && (e.Push? || e.AcquirePush? ==>
                  && y.noff == x.noff + 1 && !y.intr
                  && y.interruptOn == if x.noff == 0 then x.intr else x.interruptOn)
            && (e.Pop? || e.ReleasePop? ==>
                  && x.noff == y.noff + 1 && y.interruptOn == x.interruptOn
                  && y.intr == (y.noff == 0 && x.interruptOn))
  {
    assert CpuOk(s.cpus[e.c]);
  }

  predicate Switches(e: Event) {
    e.SwitchOut? || e.SwitchIn?
  }

  // What happens to one CPU while noff is not 0
  lemma NestedStep(s: Sys, e: Event, c: nat)
    requires Inv(s) && Enabled(s, e) && c in s.cpus && s.cpus[c].noff > 0
    ensures c in Next(s, e).cpus
    ensures !(e.c == c && e.SwitchIn?) ==> Next(s, e).cpus[c].interruptOn == s.cpus[c].interruptOn
    ensures var y := Next(s, e).cpus[c]; y.intr == (y.noff == 0 && s.cpus[c].interruptOn)
  {
    assert CpuOk(s.cpus[c]);
  }

  // From step i on, at which CPU c does its first push_off, up to state j it stays inside
  ghost predicate Inside(ss: seq<Sys>, es: seq<Event>, c: nat, i: nat, j: nat) {
    && Run(ss, es) && i < j < |ss|
    && c in ss[i].cpus && ss[i].cpus[c].noff == 0 && es[i].c == c && (es[i].Push? || es[i].AcquirePush?)
    && (forall k | i < k < j :: c in ss[k].cpus && ss[k].cpus[c].noff > 0)
    && (forall k | i < k < j :: !(es[k].c == c && Switches(es[k])))
  }

  lemma {:induction false} RecordKept(ss: seq<Sys>, es: seq<Event>, c: nat, i: nat, j: nat)
    requires Inside(ss, es, c, i, j)
    ensures c in ss[j].cpus && ss[j].cpus[c].interruptOn == ss[i].cpus[c].intr
  {
    hide Inv, Enabled, Next;
    RunKeeps(ss, es, j - 1);
    assert Enabled(ss[j - 1], es[j - 1]);
    if j == i + 1 {
      NestingStep(ss[i], es[i]);
    } else {
      RecordKept(ss, es, c, i, j - 1);
      NestedStep(ss[j - 1], es[j - 1], c);
    }
  }

  // When a CPU is back at noff 0, however deep push_off, pop_off, acquire and release were nested
  // in between, its interrupts are as they were before
  lemma InterruptsRestored(ss: seq<Sys>, es: seq<Event>, c: nat, i: nat, j: nat)
    requires Inside(ss, es, c, i, j) && i + 1 < j && c in ss[j].cpus && ss[j].cpus[c].noff == 0
    ensures ss[j].cpus[c].intr == ss[i].cpus[c].intr
  {
    hide Inv, Enabled, Next;
    RunKeeps(ss, es, j - 1);
    RecordKept(ss, es, c, i, j - 1);
    assert Enabled(ss[j - 1], es[j - 1]);
    NestedStep(ss[j - 1], es[j - 1], c);
  }

  // From state b on, up to state j, CPU c stays inside and does not switch
  ghost predicate StaysIn(ss: seq<Sys>, es: seq<Event>, c: nat, b: nat, j: nat) {
    && Run(ss, es) && b < j < |ss|
    && (forall k | b <= k < j :: c in ss[k].cpus && ss[k].cpus[c].noff > 0)
    && (forall k | b <= k < j :: !(es[k].c == c && Switches(es[k])))
  }

  lemma {:induction false} RecordStays(ss: seq<Sys>, es: seq<Event>, c: nat, b: nat, j: nat)
    requires StaysIn(ss, es, c, b, j)
    ensures c in ss[j].cpus && ss[j].cpus[c].interruptOn == ss[b].cpus[c].interruptOn
    ensures ss[j].cpus[c].noff == 0 ==> ss[j].cpus[c].intr == ss[b].cpus[c].interruptOn
  {
    hide Inv, Enabled, Next;
    RunKeeps(ss, es, j - 1);
    assert Enabled(ss[j - 1], es[j - 1]);
    if j > b + 1 {
      RecordStays(ss, es, c, b, j - 1);
    }
    NestedStep(ss[j - 1], es[j - 1], c);
  }

  // The same for a process that goes through sched() in between and comes back on another CPU d:
  // interrupts there end as they were on c when it took its lock
  lemma InterruptsFollow(ss: seq<Sys>, es: seq<Event>, p: nat, c: nat, d: nat, i: nat, a: nat, b: nat, j: nat)
    requires Inside(ss, es, c, i, a) && Away(ss, es, p, a, b) && es[a].c == c && es[b - 1].c == d
    requires StaysIn(ss, es, d, b, j) && d in ss[j].cpus && ss[j].cpus[d].noff == 0
    ensures ss[j].cpus[d].intr == ss[i].cpus[c].intr
  {
    hide Inside, Away, StaysIn;
    RecordKept(ss, es, c, i, a);
    SameInterruptOn(ss, es, p, a, b);
    RecordStays(ss, es, d, b, j);
  }

  // acquire and release of a free lock leave the CPU as it was, interrupts included, and the lock free
  lemma AcquireRelease(s: Sys, c: nat, lk: LockId) returns (ss: seq<Sys>)
    requires Inv(s) && c in s.cpus && lk in s.locks && !s.locks[lk].locked
    requires s.cpus[c].pc.Go? && s.cpus[c].noff == 0
    ensures Run(ss, [AcquirePush(c, lk), TestAndSet(c), Record(c), Clear(c, lk), Free(c), ReleasePop(c)]) && ss[0] == s
    ensures ss[6].locks == s.locks && ss[6] == s.(cpus := s.cpus[c := s.cpus[c].(interruptOn := s.cpus[c].intr)])
  {
    hide Inv, Enabled, Next;
    var s1, s2, s3 := Acquired(s, c, lk);
    var s4, s5, s6 := Released(s, s3, c, lk);
    ss := [s, s1, s2, s3, s4, s5, s6];
    var es := [AcquirePush(c, lk), TestAndSet(c), Record(c), Clear(c, lk), Free(c), ReleasePop(c)];
    assert Follows(ss[0], es[0], ss[1]) && Follows(ss[1], es[1], ss[2]) && Follows(ss[2], es[2], ss[3]);
    assert Follows(ss[3], es[3], ss[4]) && Follows(ss[4], es[4], ss[5]) && Follows(ss[5], es[5], ss[6]);
  }

  predicate Follows(s: Sys, e: Event, t: Sys) {
    Enabled(s, e) && t == Next(s, e)
  }

  lemma Acquired(s: Sys, c: nat, lk: LockId) returns (s1: Sys, s2: Sys, s3: Sys)
    requires Inv(s) && c in s.cpus && lk in s.locks && !s.locks[lk].locked
    requires s.cpus[c].pc.Go? && s.cpus[c].noff == 0
    ensures Follows(s, AcquirePush(c, lk), s1) && Follows(s1, TestAndSet(c), s2) && Follows(s2, Record(c), s3)
    ensures s3 == s.(locks := s.locks[lk := Lock(true, Some(c), Some(c))],
                     cpus := s.cpus[c := s.cpus[c].(noff := 1, interruptOn := s.cpus[c].intr, intr := false, held := {lk})])
  {
    assert CpuOk(s.cpus[c]);
    s1 := Next(s, AcquirePush(c, lk));
    s2 := Next(s1, TestAndSet(c));
    s3 := Next(s2, Record(c));
  }

  lemma Released(s: Sys, s3: Sys, c: nat, lk: LockId) returns (s4: Sys, s5: Sys, s6: Sys)
    requires Inv(s) && c in s.cpus && lk in s.locks && !s.locks[lk].locked
    requires s.cpus[c].pc.Go? && s.cpus[c].noff == 0
    requires s3 == s.(locks := s.locks[lk := Lock(true, Some(c), Some(c))],
                      cpus := s.cpus[c := s.cpus[c].(noff := 1, interruptOn := s.cpus[c].intr, intr := false, held := {lk})])
    ensures Follows(s3, Clear(c, lk), s4) && Follows(s4, Free(c), s5) && Follows(s5, ReleasePop(c), s6)
    ensures s6 == s.(cpus := s.cpus[c := s.cpus[c].(interruptOn := s.cpus[c].intr)])
  {
    assert CpuOk(s.cpus[c]) && LockOk(s, lk);
    s4 := Next(s3, Clear(c, lk));
    s5 := Next(s4, Free(c));
    s6 := Next(s5, ReleasePop(c));
    assert s.cpus[c].held == {} && s.locks[lk] == Lock(false, None, None);
    assert s6.locks == s.locks;
    assert s6.cpus[c] == s.cpus[c].(interruptOn := s.cpus[c].intr);
    assert s6.cpus == s.cpus[c := s6.cpus[c]];
  }
}
