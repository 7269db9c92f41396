/**
 * Delivery of signals and return from their handlers (os/signal/ksignal.c).
 *
 * User memory is the flat map of module UserAccess; a copy to or from it is specified there.
 */
module Signals {
  import opened Common
  import opened PageTable
  import opened UserAccess
  import opened Words

  const SIGUSR2 := 3
  const SIGKILL := 4
  const SIGCHLD := 6
  const SIGSTOP := 7
  const SIGCONT := 8
  const SIGMAX := 10  // signals are 1 to 10
  const SIG_DFL: Word := 0
  const SIG_IGN: Word := 1
  const EINVAL := -2

  datatype Action = Action(handler: Word, mask: SigSet, restorer: Word)
  datatype Info = Info(signo: int, code: int, pid: int, status: int, addr: Word)

  // What do_signal and sys_sigreturn see of a process. regs[i] is register xi: 1 is ra, 2 is sp,
  // 10 to 12 are a0 to a2, 31 is t6.
  datatype State = State(
    epc: Word, regs: seq<Word>,
    mask: SigSet, pending: SigSet,
    killed: int, needStop: bool,
    actions: map<nat, Action>, infos: map<nat, Info>,
    user: map<nat, Byte>)

  const SP := 2
  const A0 := 10
  const T6 := 31

  // A page is there for the user as a whole or not at all
  ghost predicate Paged(user: map<nat, Byte>) {
    && (forall a: nat, b: nat | a / PGSIZE == b / PGSIZE && a in user :: b in user)
    && (forall a | a in user :: a < MAXVA)
  }

  ghost predicate Ok(s: State) {
    && |s.regs| == 32 && s.regs[0] == 0
    && (forall i | 1 <= i <= SIGMAX :: i in s.actions && i in s.infos)
    && Paged(s.user)
  }

  // ---- what becomes of a pending signal ----

  // Treated by the kernel itself, blocked or not
  predicate Special(signo: nat) {
    signo == SIGKILL || signo == SIGSTOP || signo == SIGCONT
  }

  predicate Taken(s: State, signo: nat) {
    signo in s.pending && (Special(signo) || signo !in s.mask)
  }

  // Would run a handler of the user's
  predicate Catches(s: State, signo: nat)
    requires signo in s.actions
  {
    signo in s.pending && !Special(signo) && signo !in s.mask
    && s.actions[signo].handler != SIG_IGN && s.actions[signo].handler != SIG_DFL
  }

  predicate Kills(s: State, signo: nat)
    requires signo in s.actions
  {
    signo in s.pending &&
    (signo == SIGKILL ||
     (!Special(signo) && signo !in s.mask && s.actions[signo].handler == SIG_DFL && signo != SIGCHLD))
  }

  // ---- the frame ----

  const UCONTEXT_SIZE := 264
  const SIGINFO_SIZE := 24

  // PGROUNDDOWN(sp - sizeof(struct ucontext) - sizeof(siginfo_t)), in 64-bit arithmetic
  function FrameAt(sp: Word): (r: Word)
    ensures r % PGSIZE == 0 && r + UCONTEXT_SIZE + SIGINFO_SIZE <= UINT64
  {
    RoundDownTo((sp + UINT64 - UCONTEXT_SIZE - SIGINFO_SIZE) % UINT64, PGSIZE)
  }

  // struct ucontext: the mask, epc and registers x0 to x30; there is no room for x31
  function UcWords(mask: SigSet, epc: Word, regs: seq<Word>): (ws: seq<Word>)
    requires |regs| == 32
    ensures |ws| == 33
  {
    [SetWord(mask), epc] + regs[..31]
  }

  function UcBytes(s: State): (bytes: seq<Byte>)
    requires |s.regs| == 32
    ensures |bytes| == UCONTEXT_SIZE
  {
    WordsBytes(UcWords(s.mask, s.epc, s.regs))
  }

  function IntBytes(x: int): (bytes: seq<Byte>)
    ensures |bytes| == 4
  {
    Encode(x % 0x1_0000_0000, 4)
  }

  function InfoBytes(i: Info): (bytes: seq<Byte>)
    ensures |bytes| == SIGINFO_SIZE
  {
    IntBytes(i.signo) + IntBytes(i.code) + IntBytes(i.pid) + IntBytes(i.status) + WordBytes(i.addr)
  }

  predicate Writable(s: State)
    requires |s.regs| == 32
  {
    FrameAt(s.regs[SP]) in s.user
  }

  // ---- do_signal, all at once ----

  // The least signal caught from i on, 0 if there is none
  function FirstCaught(s: State, i: nat): (f: nat)
    requires 1 <= i <= SIGMAX + 1 && forall k | 1 <= k <= SIGMAX :: k in s.actions
    ensures f == 0 ==> forall k | i <= k <= SIGMAX :: !Catches(s, k)
    ensures f != 0 ==> i <= f <= SIGMAX && Catches(s, f) && forall k | i <= k < f :: !Catches(s, k)
    decreases SIGMAX - i
  {
    if i > SIGMAX then 0 else if Catches(s, i) then i else FirstCaught(s, i + 1)
  }

  // The signal that gets a frame, 0 if none does
  function Framed(s: State): (f: nat)
    requires |s.regs| == 32 && forall k | 1 <= k <= SIGMAX :: k in s.actions
  {
    if Writable(s) then FirstCaught(s, 1) else 0
  }

  // After the signals up to `last`
  function PendingAfter(s: State, last: nat): SigSet {
    set i | i in s.pending && !(1 <= i <= last && Taken(s, i))
  }

  // The last killing signal counts
  function KilledAfter(s: State, last: nat): int
    requires last <= SIGMAX && forall k | 1 <= k <= SIGMAX :: k in s.actions
  {
    if last == 0 then s.killed else if Kills(s, last) then -10 - last else KilledAfter(s, last - 1)
  }

  // SIGCONT comes after SIGSTOP
  function StopAfter(s: State, last: nat): bool {
    if SIGCONT <= last && SIGCONT in s.pending then false
    else if SIGSTOP <= last && SIGSTOP in s.pending then true
    else s.needStop
  }

  function FrameWritten(s: State, f: nat): map<nat, Byte>
    requires |s.regs| == 32 && f in s.infos
  {
    Put(Put(s.user, FrameAt(s.regs[SP]) + SIGINFO_SIZE, UcBytes(s)), FrameAt(s.regs[SP]), InfoBytes(s.infos[f]))
  }

  // The user resumes in the handler, as if called by the restorer with (signo, siginfo, ucontext)
  function HandlerRegs(s: State, f: nat): (r: seq<Word>)
    requires |s.regs| == 32 && f in s.actions && f <= SIGMAX
    ensures |r| == 32
  {
    var at := FrameAt(s.regs[SP]);
    s.regs[SP := at][A0 := f][11 := at][12 := at + SIGINFO_SIZE][1 := s.actions[f].restorer]
  }

  function Pushed(s: State, f: nat): State
    requires |s.regs| == 32 && f in s.actions && f in s.infos && f <= SIGMAX
  {
    s.(epc := s.actions[f].handler, regs := HandlerRegs(s, f), mask := s.mask + s.actions[f].mask + {f}, user := FrameWritten(s, f))
  }

  ghost predicate Delivered(s: State, s': State)
    requires Ok(s)
  {
    var f := Framed(s);
    var last := if f == 0 then SIGMAX else f;
    s' == (if f == 0 then s else Pushed(s, f)).(pending := PendingAfter(s, last), killed := KilledAfter(s, last),
                                                needStop := StopAfter(s, last))
  }

  // ---- sys_sigreturn, and the dispatcher that writes its result to a0 ----

  function Restored(s: State, ws: seq<Word>): State
    requires |ws| == 33
  {
    s.(mask := WordSet(ws[0]), epc := ws[1], regs := [0] + ws[3..] + [0])
  }

  ghost predicate Returned(s: State, s': State)
    requires |s.regs| == 32
  {
    var at := (s.regs[SP] + SIGINFO_SIZE) % UINT64;
    if Reach(s.user, at, UCONTEXT_SIZE) == UCONTEXT_SIZE then
      var r := Restored(s, BytesWords(ReadAt(s.user, at, UCONTEXT_SIZE)));
      s' == r.(regs := r.regs[A0 := 0])
    else
      s' == s.(regs := s.regs[A0 := UINT64 + EINVAL])
  }

  // ---- sys_sigkill, as far as the target's signals go (waking it is module Scheduler's) ----

  // SIGKILL never becomes pending; SIGCONT discards a pending SIGSTOP, but not the other way round
  function Posted(s: State, signo: nat, code: int, pid: int): State {
    var info := Info(signo, if signo == SIGCHLD then code else 0, if signo == SIGUSR2 then -1 else pid, 0, 0);
    var t := s.(infos := s.infos[signo := info]);
    if signo == SIGKILL then t.(killed := -10 - signo)
    else if signo == SIGCONT then t.(pending := s.pending + {signo} - {SIGSTOP}, needStop := false)
    else if signo < 64 then t.(pending := s.pending + {signo})
    else t
  }

  // ---- sigprocmask and sigaction ----

  // The word, and the int, that user memory holds at a
  function WordAt(user: map<nat, Byte>, a: nat): Word {
    BytesWord(ReadAt(user, a, 8))
  }

  function IntAt(user: map<nat, Byte>, a: nat): nat {
    Decode(ReadAt(user, a, 4))
  }

  const SIG_BLOCK := 1
  const SIG_UNBLOCK := 2
  const SIG_SETMASK := 3

  ghost predicate MaskReadable(user0: map<nat, Byte>, user: map<nat, Byte>, how: int, newset: Word, oldset: Word) {
    && (oldset != 0 ==> Reach(user0, oldset, 8) == 8)
    && (newset != 0 ==> Reach(user, newset, 8) == 8 && 1 <= how <= 3)
  }

  // What sigaction accepts; SIGKILL and SIGSTOP only keep their default
  ghost predicate ActionAccepted(user0: map<nat, Byte>, user: map<nat, Byte>, signo: int, act: Word, oldact: Word) {
    && 1 <= signo <= SIGMAX
    && (act != 0 && (signo == SIGKILL || signo == SIGSTOP) ==>
          Reach(user0, act, 24) == 24 && BytesAction(ReadAt(user0, act, 24)).handler == SIG_DFL)
    && (oldact != 0 ==> Reach(user0, oldact, 24) == 24)
    && (act != 0 ==> Reach(user, act, 24) == 24)
  }

  // struct sigaction
  function ActionBytes(a: Action): (bytes: seq<Byte>)
    ensures |bytes| == 24
  {
    WordsBytes([a.handler, SetWord(a.mask), a.restorer])
  }

  function BytesAction(bytes: seq<Byte>): Action
    requires |bytes| == 24
  {
    var ws := BytesWords(bytes);
    Action(ws[0], WordSet(ws[1]), ws[2])
  }

  lemma ActionRoundTrip(a: Action)
    ensures BytesAction(ActionBytes(a)) == a
  {
    WordsRoundTrip([a.handler, SetWord(a.mask), a.restorer]);
    SetRoundTrip(a.mask);
  }

  // Setting an action and asking for the old one, at places that do not overlap: what is stored
  // is what sigaction needs to put it back, and SIGKILL and SIGSTOP keep their default
  lemma ActionSaved(user0: map<nat, Byte>, user: map<nat, Byte>, was: Action, act: Word, oldact: Word)
    requires Reach(user0, oldact, 24) == 24 && user == Put(user0, oldact, ActionBytes(was))
    requires act + 24 <= oldact || oldact + 24 <= act
    ensures BytesAction(ReadAt(user, oldact, 24)) == was
    ensures ReadAt(user, act, 24) == ReadAt(user0, act, 24)
  {
    hide ActionBytes, BytesAction;
    PutGet(user0, oldact, ActionBytes(was));
    ReadIs(user, oldact, ActionBytes(was));
    ActionRoundTrip(was);
  }

  // What sigaction reads: the handler, the bits of the mask and the restorer, a word each
  lemma ActionFields(user: map<nat, Byte>, a: nat)
    ensures var act := BytesAction(ReadAt(user, a, 24));
            && act.handler == WordAt(user, a) && act.restorer == WordAt(user, a + 16)
            && (forall i | 0 <= i < 64 :: i in act.mask <==> Bit(WordAt(user, a + 8), i))
  {
    hide BytesWord, WordSet, Bit;
    var bytes := ReadAt(user, a, 24);
    WordsAt(bytes, 0);
    WordsAt(bytes, 1);
    WordsAt(bytes, 2);
    assert bytes[0..8] == ReadAt(user, a, 8) && bytes[8..16] == ReadAt(user, a + 8, 8) && bytes[16..24] == ReadAt(user, a + 16, 8);
    WordSetHas(WordAt(user, a + 8));
  }

  // The mask that sigprocmask has stored is the one that SIG_SETMASK puts back
  lemma MaskSaved(user0: map<nat, Byte>, user: map<nat, Byte>, mask: SigSet, oldset: Word)
    requires Reach(user0, oldset, 8) == 8 && user == Put(user0, oldset, WordBytes(SetWord(mask)))
    ensures forall i | 0 <= i < 64 :: Bit(WordAt(user, oldset), i) <==> i in mask
  {
    hide WordBytes, BytesWord, WordSet, SetWord;
    PutGet(user0, oldset, WordBytes(SetWord(mask)));
    ReadIs(user, oldset, WordBytes(SetWord(mask)));
    WordRoundTrip(SetWord(mask));
    SetRoundTrip(mask);
    WordSetHas(SetWord(mask));
  }

  class Task {
    // trapframe
    var epc: Word
    var regs: seq<Word>
    // struct ksignal
    var sigmask: SigSet
    var sigpending: SigSet
    var sa: map<nat, Action>
    var siginfos: map<nat, Info>
    // struct proc
    var killed: int
    var needStop: bool
    var user: map<nat, Byte>

    ghost function S(): State
      reads this
    {
      State(epc, regs, sigmask, sigpending, killed, needStop, sa, siginfos, user)
    }

    method CopyOut(a: nat, bytes: seq<Byte>) returns (ok: bool)
      modifies `user
      ensures CopiedOut(old(user), user, a, bytes, ok)
    {
      var k := Reach(user, a, |bytes|);
      user := Put(user, a, bytes[..k]);
      ok := k == |bytes|;
    }

    method CopyIn(a: nat, n: nat) returns (ok: bool, bytes: seq<Byte>)
      ensures CopiedIn(user, a, n, bytes, ok)
    {
      var k := Reach(user, a, n);
      bytes := ReadAt(user, a, k);
      ok := k == n;
      Reachable(user, a, n);
    }

    // Steps 1 to 7 of do_signal for a signal with a handler
    method PushFrame(signo: nat, act: Action) returns (ok: bool)
      requires Ok(S()) && 1 <= signo <= SIGMAX && act == sa[signo]
      modifies this
      ensures ok <==> Writable(old(S()))
      ensures S() == if ok then Pushed(old(S()), signo) else old(S())
      ensures ok ==> epc == act.handler && |regs| == 32 && regs[1] == act.restorer && regs[A0] == signo
      ensures ok ==> sigmask == old(sigmask) + act.mask + {signo} && regs[11] == regs[SP] && regs[12] == regs[SP] + SIGINFO_SIZE
    {
      hide Ok, Put, Reach, UcWords, FrameAt;
      ghost var s := S();
      OkShape(s);
      FrameFits(s, signo);
      var newSp := FrameAt(regs[SP]);
      var uc := WordsBytes(UcWords(sigmask, epc, regs));
      var info := InfoBytes(siginfos[signo]);
      var ucAddr, infoAddr := newSp + SIGINFO_SIZE, newSp;
      ok := CopyOut(ucAddr, uc);
      if ok {
        ok := CopyOut(infoAddr, info);
      }
      if !ok {
        return;
      }
      sigmask := sigmask + act.mask;
      sigmask := sigmask + {signo};
      epc := act.handler;
      regs := regs[SP := newSp];
      regs := regs[A0 := signo];
      regs := regs[11 := infoAddr];
      regs := regs[12 := ucAddr];
      regs := regs[1 := act.restorer];
    }

    method DoSignal()
      requires Ok(S())
      modifies this
      ensures Delivered(old(S()), S())
    {
      hide Ok, PendingAfter, KilledAfter, Put, Reach, FrameAt, Pushed, Writable, Framed;
      ghost var s := S();
      OkShape(s);
      NothingYet(s);
      for signo := 1 to SIGMAX + 1
        invariant S() == s.(pending := PendingAfter(s, signo - 1), killed := KilledAfter(s, signo - 1),
                            needStop := StopAfter(s, signo - 1))
        invariant forall i | 1 <= i < signo :: Catches(s, i) ==> !Writable(s)
      {
        Scan(s, signo);
        if signo !in sigpending {
          continue;
        }
        if signo == SIGKILL {
          sigpending := sigpending - {signo};
          killed := -10 - signo;
          continue;
        }
        if signo == SIGSTOP {
          sigpending := sigpending - {signo};
          needStop := true;
          continue;
        }
        if signo == SIGCONT {
          sigpending := sigpending - {signo};
          needStop := false;
          if SIGSTOP in sigpending {
            sigpending := sigpending - {SIGSTOP};
          }
          continue;
        }
        if signo in sigmask {
          continue;
        }
        var act := sa[signo];
        sigpending := sigpending - {signo};
        if act.handler == SIG_IGN {
          continue;
        }
        if signo == SIGCHLD && act.handler == SIG_DFL {
          continue;
        }
        if act.handler == SIG_DFL {
          killed := -10 - signo;
          continue;
        }
        PushSame(s, S(), signo);
        var ok := PushFrame(signo, act);
        if !ok {
          continue;
        }
        IsFramed(s, signo);
        return;
      }
      NoneFramed(s);
    }

    // sys_sigreturn
    method SysSigreturn() returns (ret: int)
      requires |regs| == 32
      modifies this
      ensures |regs| == 32 && (ret == 0 || ret == EINVAL)
      ensures Returned(old(S()), S().(regs := regs[A0 := (ret + UINT64) % UINT64]))
    {
      hide Reach, HasBytes;
      var ucAddr := (regs[SP] + SIGINFO_SIZE) % UINT64;
      var ok, uc := CopyIn(ucAddr, UCONTEXT_SIZE);
      if !ok {
        return EINVAL;
      }
      ReadIs(user, ucAddr, uc);
      var ws := BytesWords(uc);
      sigmask := WordSet(ws[0]);
      epc := ws[1];
      // regs[i] := uc.regs[i] for i = 1 to 30, and t6 := 0
      regs := [0] + ws[3..] + [0];
      return 0;
    }

    // sys_sigkill on this process
    method Post(signo: int, code: int, pid: int) returns (ret: int)
      modifies `siginfos, `sigpending, `killed, `needStop
      ensures ret == if 1 <= signo <= SIGMAX then 0 else EINVAL
      ensures S() == if ret == 0 then Posted(old(S()), signo, code, pid) else old(S())
    {
      if signo < 1 || signo > SIGMAX {
        return EINVAL;
      }
      siginfos := siginfos[signo := Info(signo, 0, pid, 0, 0)];
      if signo == SIGKILL {
        killed := -10 - signo;
        return 0;
      }
      if signo == SIGSTOP {
        sigpending := sigpending + {signo};
        return 0;
      }
      if signo == SIGCONT {
        sigpending := sigpending + {signo};
        needStop := false;
        if SIGSTOP in sigpending {
          sigpending := sigpending - {SIGSTOP};
        }
        return 0;
      }
      if signo == SIGUSR2 {
        siginfos := siginfos[signo := siginfos[signo].(pid := -1)];
        sigpending := sigpending + {signo};
        return 0;
      }
      if signo == SIGCHLD {
        siginfos := siginfos[signo := siginfos[signo].(code := code)];
        sigpending := sigpending + {signo};
        return 0;
      }
      sigpending := sigpending + {signo};
      return 0;
    }

    // A null pointer for newset or oldset means that it is not wanted
    method SysSigprocmask(how: int, newset: Word, oldset: Word) returns (ret: int)
      modifies `user, `sigmask
      ensures ret == 0 || ret == EINVAL
      ensures ret == 0 <==> MaskReadable(old(user), user, how, newset, oldset)
      ensures ret == 0 ==> user == if oldset == 0 then old(user) else Put(old(user), oldset, WordBytes(SetWord(old(sigmask))))
      ensures ret != 0 || newset == 0 ==> sigmask == old(sigmask)
      ensures ret == 0 && newset != 0 && how == SIG_BLOCK ==>
                forall i | 0 <= i < 64 :: i in sigmask <==> i in old(sigmask) || Bit(WordAt(user, newset), i)
      ensures ret == 0 && newset != 0 && how == SIG_UNBLOCK ==>
                forall i | 0 <= i < 64 :: i in sigmask <==> i in old(sigmask) && !Bit(WordAt(user, newset), i)
      ensures ret == 0 && newset != 0 && how == SIG_SETMASK ==>
                forall i | 0 <= i < 64 :: i in sigmask <==> Bit(WordAt(user, newset), i)
    {
      hide Reach, Put, WordBytes, SetWord, WordSet, BytesWord, HasBytes, Bit;
      if oldset != 0 {
        var bytes := WordBytes(SetWord(sigmask));
        assert bytes[..8] == bytes;
        var ok := CopyOut(oldset, bytes);
        if !ok {
          return EINVAL;
        }
      }
      if newset != 0 {
        var ok, bytes := CopyIn(newset, 8);
        if !ok {
          return EINVAL;
        }
        ReadIs(user, newset, bytes);
        var tmp := WordSet(BytesWord(bytes));
        WordSetHas(BytesWord(bytes));
        match how {
          case SIG_BLOCK => sigmask := sigmask + tmp;
          case SIG_UNBLOCK => sigmask := sigmask - tmp;
          case SIG_SETMASK => sigmask := tmp;
          case _ => return EINVAL;
        }
      }
      return 0;
    }

    // sigaction for a valid signal number. The bytes of *act land in the action one page at a
    // time, so that a copy that fails half way leaves a mixture.
    method SysSigaction(signo: int, act: Word, oldact: Word) returns (ret: int)
      requires forall i | 1 <= i <= SIGMAX :: i in sa
      modifies `user, `sa
      ensures ret == 0 || ret == EINVAL
      ensures (forall i | i in sa && i != signo :: i in old(sa) && sa[i] == old(sa)[i]) && sa.Keys == old(sa).Keys
      ensures ret == 0 <==> ActionAccepted(old(user), user, signo, act, oldact)
      ensures ret == 0 ==> user == if oldact == 0 then old(user) else Put(old(user), oldact, ActionBytes(old(sa)[signo]))
      ensures ret == 0 ==> sa[signo] == if act == 0 then old(sa)[signo] else BytesAction(ReadAt(user, act, 24))
    {
      hide Reach, Put, ActionBytes, BytesAction, HasBytes;
      if signo < 1 || signo > SIGMAX {
        return EINVAL;
      }
      if (signo == SIGKILL || signo == SIGSTOP) && act != 0 {
        var ok, bytes := CopyIn(act, 24);
        if !ok {
          return EINVAL;
        }
        ReadIs(user, act, bytes);
        if BytesAction(bytes).handler != SIG_DFL {
          return EINVAL;
        }
      }
      var was := ActionBytes(sa[signo]);
      if oldact != 0 {
        assert was[..24] == was;
        var ok := CopyOut(oldact, was);
        if !ok {
          return EINVAL;
        }
      }
      if act != 0 {
        var ok, bytes := CopyIn(act, 24);
        sa := sa[signo := BytesAction(bytes + was[|bytes|..])];
        if !ok {
          return EINVAL;
        }
        ReadIs(user, act, bytes);
        assert bytes + was[24..] == bytes;
      }
      return 0;
    }

    // SYS_sigreturn in syscall(): the result goes to a0
    method SyscallSigreturn()
      requires |regs| == 32
      modifies this
      ensures Returned(old(S()), S())
    {
      var ret := SysSigreturn();
      regs := regs[A0 := (ret + UINT64) % UINT64];
    }
  }

  lemma OkShape(s: State)
    requires Ok(s)
    ensures |s.regs| == 32 && s.regs[0] == 0 && forall i | 1 <= i <= SIGMAX :: i in s.actions && i in s.infos
  {
  }

  lemma NothingYet(s: State)
    requires Ok(s)
    ensures PendingAfter(s, 0) == s.pending && KilledAfter(s, 0) == s.killed && !StopAfter(s, 0) == !s.needStop
  {
  }

  // One signal further
  lemma Scan(s: State, signo: nat)
    requires Ok(s) && 1 <= signo <= SIGMAX
    ensures PendingAfter(s, signo) == if Taken(s, signo) then PendingAfter(s, signo - 1) - {signo} else PendingAfter(s, signo - 1)
    ensures signo in PendingAfter(s, signo - 1) <==> signo in s.pending
    ensures signo == SIGCONT ==> SIGSTOP !in PendingAfter(s, signo - 1)
    ensures KilledAfter(s, signo) == if Kills(s, signo) then -10 - signo else KilledAfter(s, signo - 1)
  {
  }

  lemma {:induction false} Reaches(view: map<nat, Byte>, a: nat, n: nat)
    requires forall i | a <= i < a + n :: i in view
    ensures Reach(view, a, n) == n
  {
    ReachIs(view, a, n, n);
  }

  lemma FramePages(user: map<nat, Byte>, at: nat)
    requires Paged(user) && at % PGSIZE == 0
    ensures forall i | at <= i < at + UCONTEXT_SIZE + SIGINFO_SIZE :: i in user <==> at in user
  {
    forall i | at <= i < at + UCONTEXT_SIZE + SIGINFO_SIZE ensures i in user <==> at in user {
      assert i / PGSIZE == at / PGSIZE;
    }
  }

  // The frame lies in one page, so it is written as a whole or not at all
  lemma FrameFits(s: State, signo: nat)
    requires Ok(s) && signo in s.infos
    ensures var at, uc, info := FrameAt(s.regs[SP]), UcBytes(s), InfoBytes(s.infos[signo]);
            if Writable(s) then
              Reach(s.user, at + SIGINFO_SIZE, |uc|) == |uc| && Reach(Put(s.user, at + SIGINFO_SIZE, uc), at, |info|) == |info|
              && uc[..|uc|] == uc && info[..|info|] == info
            else Reach(s.user, at + SIGINFO_SIZE, |uc|) == 0 && Put(s.user, at + SIGINFO_SIZE, uc[..0]) == s.user
  {
    hide UcBytes, InfoBytes, FrameAt, Paged;
    var at, uc, info := FrameAt(s.regs[SP]), UcBytes(s), InfoBytes(s.infos[signo]);
    FramePages(s.user, at);
    if Writable(s) {
      Reaches(s.user, at + SIGINFO_SIZE, |uc|);
      Reaches(Put(s.user, at + SIGINFO_SIZE, uc), at, |info|);
    } else {
      ReachIs(s.user, at + SIGINFO_SIZE, |uc|, 0);
      PutNothing(s.user, at + SIGINFO_SIZE);
    }
  }

  // What a frame holds does not depend on what is pending
  lemma PushSame(s: State, t: State, f: nat)
    requires Ok(s) && 1 <= f <= SIGMAX && t == s.(pending := t.pending, killed := t.killed, needStop := t.needStop)
    ensures Ok(t) && (Writable(t) <==> Writable(s))
    ensures Pushed(t, f) == Pushed(s, f).(pending := t.pending, killed := t.killed, needStop := t.needStop)
  {
    hide FrameAt, InfoBytes, Paged, Put;
  }

  lemma IsFramed(s: State, signo: nat)
    requires Ok(s) && 1 <= signo <= SIGMAX && Writable(s) && Catches(s, signo)
    requires forall i | 1 <= i < signo :: Catches(s, i) ==> !Writable(s)
    ensures Framed(s) == signo
  {
  }

  lemma NoneFramed(s: State)
    requires Ok(s) && forall i | 1 <= i <= SIGMAX :: Catches(s, i) ==> !Writable(s)
    ensures Framed(s) == 0
  {
  }

  lemma {:induction false} Reachable(view: map<nat, Byte>, a: nat, n: nat)
    ensures forall i | a <= i < a + Reach(view, a, n) :: i in view
    decreases n
  {
    if n > 0 && a in view {
      Reachable(view, a + 1, n - 1);
    }
  }
}
