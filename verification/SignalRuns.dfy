/**
 * Whole runs of a process that is interrupted by signals and returns from their handlers, to any
 * depth of nesting.
 */
module SignalRuns {
  import opened PageTable
  import opened UserAccess
  import opened Words
  import opened Signals

  // ---- what one delivery does ----

  // The frame lies in one page and wholly below the interrupted stack pointer; no byte outside
  // it changes
  lemma FrameBelow(s: State, s': State)
    requires Ok(s) && Delivered(s, s') && Framed(s) != 0
    ensures FrameAt(s.regs[SP]) % PGSIZE == 0 && FrameAt(s.regs[SP]) + UCONTEXT_SIZE + SIGINFO_SIZE <= s.regs[SP]
    ensures |s'.regs| == 32 && s'.regs[SP] == FrameAt(s.regs[SP])
    ensures s'.user.Keys == s.user.Keys
    ensures forall a | a in s.user && !(FrameAt(s.regs[SP]) <= a < FrameAt(s.regs[SP]) + UCONTEXT_SIZE + SIGINFO_SIZE) ::
              s'.user[a] == s.user[a]
  {
    hide InfoBytes, UcBytes, PendingAfter, KilledAfter;
    FramePages(s.user, FrameAt(s.regs[SP]));
  }

  // Which signal gets a frame: the least that is pending, not blocked, not one of the kernel's own,
  // and has a handler that is neither the default nor "ignore"; none if the stack cannot take it
  predicate HasHandler(s: State, i: nat)
    requires i in s.actions
  {
    && i in s.pending && i !in s.mask && i != SIGKILL && i != SIGSTOP && i != SIGCONT
    && s.actions[i].handler != SIG_DFL && s.actions[i].handler != SIG_IGN
  }

  lemma FramedExactly(s: State, f: nat)
    requires Ok(s)
    ensures f != 0 ==> (Framed(s) == f <==> && 1 <= f <= SIGMAX && HasHandler(s, f) && FrameAt(s.regs[SP]) in s.user
                                             && (forall i | 1 <= i < f :: !HasHandler(s, i)))
    ensures Framed(s) == 0 <==> FrameAt(s.regs[SP]) !in s.user || forall i | 1 <= i <= SIGMAX :: !HasHandler(s, i)
  {
    hide Paged, FrameAt;
    assert forall i | 1 <= i <= SIGMAX :: HasHandler(s, i) == Catches(s, i);
    if f != 0 && 1 <= f <= SIGMAX && HasHandler(s, f) && FrameAt(s.regs[SP]) in s.user && (forall i | 1 <= i < f :: !HasHandler(s, i)) {
      IsFramed(s, f);
    }
  }

  // The frame is on the highest page boundary that leaves room for it below sp
  lemma FrameIsNear(sp: Word)
    requires sp >= UCONTEXT_SIZE + SIGINFO_SIZE
    ensures FrameAt(sp) % PGSIZE == 0 && FrameAt(sp) + UCONTEXT_SIZE + SIGINFO_SIZE <= sp
    ensures sp < FrameAt(sp) + UCONTEXT_SIZE + SIGINFO_SIZE + PGSIZE
  {
  }

  // How the handler is entered: handler(signo, siginfo, ucontext), returning to the restorer, with
  // the signals of sa_mask and the signal itself blocked, and every other register as it was
  lemma HandlerEntered(s: State, s': State)
    requires Ok(s) && Delivered(s, s') && Framed(s) != 0
    ensures var f, act := Framed(s), s.actions[Framed(s)];
            && |s'.regs| == 32
            && s'.epc == act.handler && s'.regs[1] == act.restorer
            && s'.regs[A0] == f && s'.regs[SP] == FrameAt(s.regs[SP])
            && s'.regs[11] == s'.regs[SP] && s'.regs[12] == s'.regs[SP] + SIGINFO_SIZE
            && (forall i | 0 <= i < 32 && i != 1 && i != SP && i != A0 && i != 11 && i != 12 :: s'.regs[i] == s.regs[i])
            && (forall i :: i in s'.mask <==> i in s.mask || i in act.mask || i == f)
            && s'.actions == s.actions && s'.infos == s.infos
  {
    hide InfoBytes, UcBytes, PendingAfter, KilledAfter, StopAfter, FrameAt, Paged, Writable, FrameWritten;
  }

  // What its arguments point to: the siginfo of the signal, field by field ...
  lemma SiginfoWritten(s: State, s': State)
    requires Ok(s) && Delivered(s, s') && Framed(s) != 0
    ensures var info, at := s.infos[Framed(s)], FrameAt(s.regs[SP]);
            && IntAt(s'.user, at) == info.signo % 0x1_0000_0000 && IntAt(s'.user, at + 4) == info.code % 0x1_0000_0000
            && IntAt(s'.user, at + 8) == info.pid % 0x1_0000_0000 && IntAt(s'.user, at + 12) == info.status % 0x1_0000_0000
            && WordAt(s'.user, at + 16) == info.addr
  {
    hide FrameAt, InfoBytes, Delivered, IntAt, WordAt, Paged;
    InfoIsIntact(s, s');
    InfoRead(s'.user, FrameAt(s.regs[SP]), s.infos[Framed(s)]);
  }

  lemma InfoRead(user: map<nat, Byte>, at: nat, info: Info)
    requires HasBytes(user, at, InfoBytes(info))
    ensures IntAt(user, at) == info.signo % 0x1_0000_0000 && IntAt(user, at + 4) == info.code % 0x1_0000_0000
    ensures IntAt(user, at + 8) == info.pid % 0x1_0000_0000 && IntAt(user, at + 12) == info.status % 0x1_0000_0000
    ensures WordAt(user, at + 16) == info.addr
  {
    hide InfoBytes, IntBytes, WordBytes, BytesWord, HasBytes, ReadAt, Decode;
    var bytes := InfoBytes(info);
    InfoParts(info);
    PartRead(user, at, bytes, 0, 4);
    PartRead(user, at, bytes, 4, 4);
    PartRead(user, at, bytes, 8, 4);
    PartRead(user, at, bytes, 12, 4);
    PartRead(user, at, bytes, 16, 8);
    IntRoundTrip(info.signo);
    IntRoundTrip(info.code);
    IntRoundTrip(info.pid);
    IntRoundTrip(info.status);
    WordRoundTrip(info.addr);
  }

  lemma InfoParts(i: Info)
    ensures var b := InfoBytes(i);
            && b[0..4] == IntBytes(i.signo) && b[4..8] == IntBytes(i.code) && b[8..12] == IntBytes(i.pid)
            && b[12..16] == IntBytes(i.status) && b[16..24] == WordBytes(i.addr)
  {
    hide IntBytes, WordBytes;
  }

  lemma IntRoundTrip(x: int)
    ensures Decode(IntBytes(x)) == x % 0x1_0000_0000
  {
    assert Pow256(2) == 0x1_0000;
    assert Pow256(4) == 256 * (256 * Pow256(2));
    DecodeEncode(x % 0x1_0000_0000, 4);
  }

  lemma InfoIsIntact(s: State, s': State)
    requires Ok(s) && Delivered(s, s') && Framed(s) != 0
    ensures HasBytes(s'.user, FrameAt(s.regs[SP]), InfoBytes(s.infos[Framed(s)]))
  {
    hide InfoBytes, UcBytes, PendingAfter, KilledAfter, FrameAt;
    FramePages(s.user, FrameAt(s.regs[SP]));
  }

  lemma PartRead(user: map<nat, Byte>, a: nat, bytes: seq<Byte>, k: nat, n: nat)
    requires HasBytes(user, a, bytes) && k + n <= |bytes|
    ensures ReadAt(user, a + k, n) == bytes[k..k + n]
  {
    var part := bytes[k..k + n];
    forall x | a + k <= x < a + k + n ensures x in user && user[x] == part[x - a - k] {
      assert user[x] == bytes[x - a];
    }
    ReadIs(user, a + k, part);
  }

  // ... and the mask, epc and registers x0 to x30 that were interrupted, a word each
  lemma UcontextWritten(s: State, s': State)
    requires Ok(s) && Delivered(s, s') && Framed(s) != 0
    ensures var at := FrameAt(s.regs[SP]) + SIGINFO_SIZE;
            && (forall i | 0 <= i < 64 :: Bit(WordAt(s'.user, at), i) <==> i in s.mask)
            && WordAt(s'.user, at + 8) == s.epc
            && (forall i | 0 <= i < 31 :: WordAt(s'.user, at + 16 + 8 * i) == s.regs[i])
  {
    hide FrameAt, UcBytes, Delivered, WordAt, Bit, Paged, Framed, BytesWords, SetWord, WordSet;
    FrameIsIntact(s, s');
    UcRoundTrip(s);
    var at, ws := FrameAt(s.regs[SP]) + SIGINFO_SIZE, BytesWords(UcBytes(s));
    WordsRead(s'.user, at, UcBytes(s), 0);
    WordsRead(s'.user, at, UcBytes(s), 1);
    WordSetHas(ws[0]);
    forall i: nat | i < 31 ensures WordAt(s'.user, at + 16 + 8 * i) == s.regs[i] {
      WordsRead(s'.user, at, UcBytes(s), i + 2);
      assert ws[i + 2] == s.regs[..31][i];
    }
  }

  lemma WordsRead(user: map<nat, Byte>, at: nat, bytes: seq<Byte>, k: nat)
    requires HasBytes(user, at, bytes) && |bytes| % 8 == 0 && 8 * k + 8 <= |bytes|
    ensures WordAt(user, at + 8 * k) == BytesWords(bytes)[k]
  {
    hide HasBytes, ReadAt, BytesWord, BytesWords;
    PartRead(user, at, bytes, 8 * k, 8);
    WordsAt(bytes, k);
  }

  // Signals up to and including the one framed are consumed unless they are blocked; blocked and
  // later ones stay. KILL, STOP and CONT are never among those that stay for being blocked.
  lemma Consumed(s: State, s': State, signo: nat)
    requires Ok(s) && Delivered(s, s') && 1 <= signo <= SIGMAX
    ensures signo in s'.pending <==>
              signo in s.pending && ((Framed(s) != 0 && signo > Framed(s))
                                    || (signo in s.mask && signo != SIGKILL && signo != SIGSTOP && signo != SIGCONT))
  {
    hide Ok, Writable, KilledAfter, Pushed;
  }

  // What kills when it is come to: SIGKILL always; any other that is not blocked and has the default
  // action, but for SIGSTOP, SIGCONT and SIGCHLD. A signal that is ignored never does.
  predicate Fatal(s: State, i: nat)
    requires i in s.actions
  {
    && i in s.pending
    && (i != SIGKILL ==> i !in s.mask && s.actions[i].handler == SIG_DFL && i != SIGCHLD && i != SIGSTOP && i != SIGCONT)
  }

  // The process is marked by the last fatal signal before the one framed, and as before if there is
  // none
  lemma MarkedExactly(s: State, s': State, k: nat)
    requires Ok(s) && Delivered(s, s')
    ensures var last := if Framed(s) == 0 then SIGMAX else Framed(s);
            && ((forall i | 1 <= i <= last :: !Fatal(s, i)) ==> s'.killed == s.killed)
            && (1 <= k <= last && Fatal(s, k) && (forall i | k < i <= last :: !Fatal(s, i)) ==> s'.killed == -10 - k)
  {
    var last := if Framed(s) == 0 then SIGMAX else Framed(s);
    LastKillCounts(s, last);
    hide Paged, FrameAt, Pushed;
    forall i | 1 <= i <= SIGMAX ensures Fatal(s, i) == Kills(s, i) {
    }
  }

  lemma {:induction false} LastKillCounts(s: State, last: nat)
    requires Ok(s) && last <= SIGMAX
    ensures (forall k | 1 <= k <= last :: !Kills(s, k)) ==> KilledAfter(s, last) == s.killed
    ensures forall k | 1 <= k <= last && Kills(s, k) && (forall j | k < j <= last :: !Kills(s, j)) :: KilledAfter(s, last) == -10 - k
  {
    if last > 0 {
      LastKillCounts(s, last - 1);
    }
  }

  // It is to stop when the scan has come to a SIGSTOP and not to a SIGCONT, and not when it has come
  // to a SIGCONT; as before if it has come to neither
  lemma StopsExactly(s: State, s': State)
    requires Ok(s) && Delivered(s, s')
    ensures var all := Framed(s) == 0 || Framed(s) > SIGCONT;
            s'.needStop <==> if all && SIGCONT in s.pending then false else if all && SIGSTOP in s.pending then true else s.needStop
  {
    hide Paged, FrameAt, Pushed, Writable, KilledAfter;
  }

  // A SIGSTOP that is posted while SIGCONT is pending has no effect: do_signal comes to SIGCONT
  // second. It takes effect exactly when no SIGCONT is pending, and not before the scan gets there.
  lemma StopTakesEffectExactly(s: State, code: int, pid: int, s': State)
    requires Ok(s) && Delivered(Posted(s, SIGSTOP, code, pid), s')
    ensures var f := Framed(Posted(s, SIGSTOP, code, pid));
            if f == 0 || f > SIGCONT then s'.needStop <==> SIGCONT !in s.pending
            else s'.needStop == s.needStop && SIGSTOP in s'.pending
  {
    hide Writable, KilledAfter, Pushed;
  }

  // With SIGCONT pending and everything else at rest, SIGSTOP is gone after the next delivery
  function ContPending(): State {
    var all := {1, 2, 3, 4, 5, 6, 7, 8, 9, 10};
    State(0, seq(32, i => 0), {}, {SIGCONT}, 0, false, map i | i in all :: Action(SIG_DFL, {}, 0),
          map i | i in all :: Info(0, 0, 0, 0, 0), map[])
  }

  lemma StopDiscarded(s': State)
    requires Delivered(Posted(ContPending(), SIGSTOP, 0, 1), s')
    ensures Ok(ContPending()) && !s'.needStop && SIGSTOP !in s'.pending
  {
    StopTakesEffectExactly(ContPending(), 0, 1, s');
    hide KilledAfter, Pushed;
  }

  // ---- what posting a signal means ----

  // It concerns one siginfo and one pending bit, but for SIGCONT, which discards a pending SIGSTOP,
  // and SIGKILL, which is never pending
  lemma PostedElsewhere(s: State, signo: nat, code: int, pid: int)
    requires Ok(s) && 1 <= signo <= SIGMAX
    ensures var t := Posted(s, signo, code, pid);
            && t == s.(pending := t.pending, infos := t.infos, killed := t.killed, needStop := t.needStop)
            && Ok(t)
            && (forall i | i in s.infos && i != signo :: i in t.infos && t.infos[i] == s.infos[i])
            && (forall i | i != signo && !(signo == SIGCONT && i == SIGSTOP) :: i in t.pending <==> i in s.pending)
            && (signo in t.pending <==> signo != SIGKILL || signo in s.pending)
            && (signo == SIGKILL ==> t.killed == -10 - SIGKILL) && (signo == SIGCONT ==> !t.needStop)
            && t.infos[signo].signo == signo && t.infos[signo].status == 0 && t.infos[signo].addr == 0
            && t.infos[signo].code == (if signo == SIGCHLD then code else 0)
            && t.infos[signo].pid == (if signo == SIGUSR2 then -1 else pid)
            && (signo != SIGKILL ==> t.killed == s.killed) && (signo != SIGCONT ==> t.needStop == s.needStop)
  {
  }

  // SIGKILL marks the process for good: no mask, action or pending signal takes that back
  lemma KillIsFinal(s: State, code: int, pid: int, s': State)
    requires Ok(s) && Delivered(Posted(s, SIGKILL, code, pid), s')
    ensures s'.killed != 0
  {
    var t := Posted(s, SIGKILL, code, pid);
    var f := Framed(t);
    StaysKilled(t, if f == 0 then SIGMAX else f);
  }

  lemma {:induction false} StaysKilled(s: State, last: nat)
    requires Ok(s) && last <= SIGMAX && s.killed != 0
    ensures KilledAfter(s, last) != 0
  {
    if last > 0 {
      StaysKilled(s, last - 1);
    }
  }

  // After SIGCONT nothing stops the process any more, whatever was pending
  lemma ContPrevails(s: State, code: int, pid: int, s': State)
    requires Ok(s) && Delivered(Posted(s, SIGCONT, code, pid), s')
    ensures !s'.needStop && SIGSTOP !in s'.pending
  {
    hide Writable, KilledAfter, Pushed;
  }

  // A blocked signal that is not special waits; one that is not blocked and has a handler is framed
  // next, unless a lower one comes first or there is no room
  lemma PostedIsNext(s: State, signo: nat, code: int, pid: int, s': State)
    requires Ok(s) && 1 <= signo <= SIGMAX && !Special(signo) && Delivered(Posted(s, signo, code, pid), s')
    ensures signo in s.mask ==> signo in s'.pending
    ensures Catches(s.(pending := s.pending + {signo}), signo) && Writable(s) && (forall i | 1 <= i < signo :: !Catches(s, i)) ==>
              Framed(Posted(s, signo, code, pid)) == signo
  {
    hide KilledAfter, Pushed, StopAfter;
    var t := Posted(s, signo, code, pid);
    if Catches(s.(pending := s.pending + {signo}), signo) && Writable(s) && (forall i | 1 <= i < signo :: !Catches(s, i)) {
      forall i | 1 <= i < signo ensures !Catches(t, i) {
        assert !Catches(s, i);
      }
      IsFramed(t, signo);
    }
  }

  lemma DeliveredOk(s: State, s': State)
    requires Ok(s) && Delivered(s, s')
    ensures Ok(s')
  {
    hide InfoBytes, UcBytes, PendingAfter, KilledAfter, StopAfter, Taken, FrameAt;
    if Framed(s) != 0 {
      assert s'.user.Keys == s.user.Keys;
      forall a: nat, b: nat | a / PGSIZE == b / PGSIZE && a in s'.user ensures b in s'.user {
        assert a in s.user;
      }
    }
  }

  // ---- what sigreturn undoes ----

  ghost predicate FrameIntact(user: map<nat, Byte>, s: State) {
    |s.regs| == 32 && HasBytes(user, FrameAt(s.regs[SP]) + SIGINFO_SIZE, UcBytes(s))
  }

  // As it was, except that t6, which the frame has no room for, and a0, which the dispatcher
  // overwrites, are 0
  ghost predicate Resumed(s: State, s': State) {
    |s.regs| == 32 && s'.epc == s.epc && s'.mask == s.mask && s'.regs == s.regs[A0 := 0][T6 := 0]
  }

  lemma FrameIsIntact(s: State, s': State)
    requires Ok(s) && Delivered(s, s') && Framed(s) != 0
    ensures FrameIntact(s'.user, s)
  {
    hide InfoBytes, UcBytes, PendingAfter, KilledAfter, FrameAt;
    var at := FrameAt(s.regs[SP]);
    FramePages(s.user, at);
    forall x | at + SIGINFO_SIZE <= x < at + SIGINFO_SIZE + UCONTEXT_SIZE
      ensures x in s'.user && s'.user[x] == UcBytes(s)[x - at - SIGINFO_SIZE]
    {
    }
  }

  lemma ReturnResumes(s: State, t: State, t': State)
    requires Ok(s) && |t.regs| == 32 && t.regs[SP] == FrameAt(s.regs[SP]) && FrameIntact(t.user, s)
    requires Returned(t, t')
    ensures Resumed(s, t')
    ensures t' == t.(epc := t'.epc, mask := t'.mask, regs := t'.regs)
  {
    hide UcBytes, UcWords, FrameAt, Paged, HasBytes, Reach, ReadAt, BytesWords, WordsBytes, WordSet;
    var at := FrameAt(s.regs[SP]) + SIGINFO_SIZE;
    Intact(t.user, at, UcBytes(s));
    UcRoundTrip(s);
  }

  lemma Intact(user: map<nat, Byte>, at: nat, bytes: seq<Byte>)
    requires HasBytes(user, at, bytes)
    ensures Reach(user, at, |bytes|) == |bytes| && ReadAt(user, at, |bytes|) == bytes
  {
    ReadIs(user, at, bytes);
    HadBytes(user, at, bytes);
    Reaches(user, at, |bytes|);
  }

  lemma UcRoundTrip(s: State)
    requires |s.regs| == 32 && s.regs[0] == 0
    ensures BytesWords(UcBytes(s)) == [SetWord(s.mask), s.epc] + s.regs[..31]
    ensures WordSet(BytesWords(UcBytes(s))[0]) == s.mask
    ensures [0] + BytesWords(UcBytes(s))[3..] + [0] == s.regs[T6 := 0]
  {
    hide WordsBytes, BytesWords, SetWord, WordSet;
    WordsRoundTrip(UcWords(s.mask, s.epc, s.regs));
    SetRoundTrip(s.mask);
    assert [0] + s.regs[1..31] + [0] == s.regs[T6 := 0];
    assert UcWords(s.mask, s.epc, s.regs)[3..] == s.regs[1..31];
  }

  // ---- runs ----

  // The handlers not yet returned from, innermost last: the state each one interrupted
  datatype Config = Config(st: State, stack: seq<State>) {
    predicate HasTop() { stack != [] }
    function Top(): State
      requires HasTop()
    {
      stack[|stack| - 1]
    }
  }

  // The frame of an interrupted state, and the signal it was pushed for (0 if none)
  function At(s: State): Word {
    if |s.regs| == 32 then FrameAt(s.regs[SP]) else 0
  }

  function Signo(s: State): (f: nat)
    ensures f <= SIGMAX
  {
    if |s.regs| == 32 && forall k | 1 <= k <= SIGMAX :: k in s.actions then Framed(s) else 0
  }

  lemma SignoIs(s: State)
    requires Ok(s)
    ensures Signo(s) == Framed(s) && (Signo(s) != 0 ==> 1 <= Signo(s) <= SIGMAX && Signo(s) in s.actions)
    ensures At(s) == FrameAt(s.regs[SP])
  {
  }

  datatype Event =
    | User     // anything user code and other system calls do
    | Deliver  // do_signal
    | Return   // sys_sigreturn

  // Assumed of user code: it leaves the frames alone, runs handlers below their own frame, and
  // calls sigreturn with sp where do_signal set it
  ghost predicate Step(c: Config, e: Event, c': Config)
    requires Inv(c)
  {
    match e
    case User =>
      && c'.stack == c.stack && Ok(c'.st)
      && (forall s | s in c.stack :: FrameIntact(c'.st.user, s))
    case Deliver =>
      && Delivered(c.st, c'.st)
      && (c.HasTop() ==> c.st.regs[SP] <= At(c.Top()))
      && c'.stack == if Signo(c.st) == 0 then c.stack else c.stack + [c.st]
    case Return =>
      && c.HasTop() && c.st.regs[SP] == At(c.Top())
      && Returned(c.st, c'.st) && c'.stack == c.stack[..|c.stack| - 1]
  }

  // Every frame is as it was written, in a place of its own, further down the deeper it is nested
  ghost predicate Inv(c: Config) {
    && Ok(c.st)
    && (forall s | s in c.stack :: Ok(s) && Signo(s) != 0 && FrameIntact(c.st.user, s))
    && (forall i, j | 0 <= i < j < |c.stack| :: At(c.stack[j]) + UCONTEXT_SIZE + SIGINFO_SIZE <= At(c.stack[i]))
  }

  lemma DeliverKeeps(c: Config, c': Config)
    requires Inv(c) && Step(c, Deliver, c')
    ensures Inv(c')
  {
    hide Delivered, Ok, Signo, UcBytes, FrameAt;
    DeliveredOk(c.st, c'.st);
    if Signo(c.st) == 0 {
      NotFramed(c.st, c'.st);
    } else {
      PushKeeps(c, c');
    }
  }

  lemma NotFramed(s: State, s': State)
    requires Ok(s) && Delivered(s, s') && Signo(s) == 0
    ensures s'.user == s.user && s'.mask == s.mask && s'.regs == s.regs && s'.epc == s.epc
  {
  }

  lemma PushKeeps(c: Config, c': Config)
    requires Inv(c) && Step(c, Deliver, c') && Signo(c.st) != 0 && Ok(c'.st)
    ensures Inv(c')
  {
    hide Delivered, Ok, Signo, UcBytes, FrameAt;
    SignoIs(c.st);
    FrameBelow(c.st, c'.st);
    FrameIsIntact(c.st, c'.st);
    forall i | 0 <= i < |c.stack|
      ensures FrameIntact(c'.st.user, c.stack[i]) && At(c.st) + UCONTEXT_SIZE + SIGINFO_SIZE <= At(c.stack[i])
    {
      assert c.stack[i] in c.stack && FrameIntact(c.st.user, c.stack[i]);
      OtherFrame(c.st.user, c'.st.user, At(c.st), c.stack[i]);
    }
    forall s | s in c'.stack ensures Ok(s) && Signo(s) != 0 && FrameIntact(c'.st.user, s) {
      assert s in c.stack || s == c.st;
    }
  }

  lemma OtherFrame(user: map<nat, Byte>, user': map<nat, Byte>, at: nat, s: State)
    requires FrameIntact(user, s) && at + UCONTEXT_SIZE + SIGINFO_SIZE <= At(s)
    requires user'.Keys == user.Keys
    requires forall a | a in user && !(at <= a < at + UCONTEXT_SIZE + SIGINFO_SIZE) :: user'[a] == user[a]
    ensures FrameIntact(user', s)
  {
  }

  lemma ReturnKeeps(c: Config, c': Config)
    requires Inv(c) && Step(c, Return, c')
    ensures Inv(c') && Resumed(c.Top(), c'.st)
  {
    hide FrameAt, UcBytes, Returned, Signo, Framed, Paged;
    assert c.Top() in c.stack;
    ReturnResumes(c.Top(), c.st, c'.st);
    forall s | s in c'.stack ensures s in c.stack {
    }
  }

  lemma StepKeeps(c: Config, e: Event, c': Config)
    requires Inv(c) && Step(c, e, c')
    ensures Inv(c')
  {
    match e
    case User =>
    case Deliver => DeliverKeeps(c, c');
    case Return => ReturnKeeps(c, c');
  }

  ghost predicate Run(cs: seq<Config>, es: seq<Event>) {
    && |cs| == |es| + 1 && Inv(cs[0])
    && forall i | 0 <= i < |es| :: Inv(cs[i]) ==> Step(cs[i], es[i], cs[i + 1])
  }

  lemma {:induction false} RunKeeps(cs: seq<Config>, es: seq<Event>, i: nat)
    requires Run(cs, es) && i < |cs|
    ensures Inv(cs[i])
  {
    hide Inv, Step;
    if i > 0 {
      RunKeeps(cs, es, i - 1);
      StepKeeps(cs[i - 1], es[i - 1], cs[i]);
    }
  }

  // The delivery at step i and the return at step j - 1 belong together: between them the stack
  // is higher than at either end
  ghost predicate Matched(cs: seq<Config>, es: seq<Event>, i: nat, j: nat) {
    && Run(cs, es) && i + 1 < j < |cs|
    && es[i] == Deliver && es[j - 1] == Return
    && |cs[j].stack| == |cs[i].stack|
    && forall k | i < k < j :: |cs[k].stack| > |cs[i].stack|
  }

  // Until then the stack keeps what it had when the frame had been pushed
  lemma {:induction false} StackKept(cs: seq<Config>, es: seq<Event>, i: nat, j: nat, k: nat)
    requires Matched(cs, es, i, j) && i < k < j
    ensures |cs[k].stack| > |cs[i].stack| && cs[k].stack[..|cs[i].stack| + 1] == cs[i].stack + [cs[i].st]
  {
    hide Inv, Ok, Delivered, Returned, FrameIntact;
    RunKeeps(cs, es, k - 1);
    assert Step(cs[k - 1], es[k - 1], cs[k]);
    if k > i + 1 {
      StackKept(cs, es, i, j, k - 1);
      var n := |cs[i].stack| + 1;
      assert cs[k].stack[..n] == cs[k - 1].stack[..n];
    }
  }

  // Nested signal round trip: whatever is delivered, handled and returned from in between, to
  // any depth, the return from a handler resumes what its signal interrupted
  lemma NestedRoundTrip(cs: seq<Config>, es: seq<Event>, i: nat, j: nat)
    requires Matched(cs, es, i, j)
    ensures Resumed(cs[i].st, cs[j].st) && cs[j].stack == cs[i].stack
  {
    hide Inv, Ok, Delivered, Returned, FrameIntact;
    RunKeeps(cs, es, j - 1);
    StackKept(cs, es, i, j, j - 1);
    assert Step(cs[j - 1], es[j - 1], cs[j]);
    assert |cs[j - 1].stack| == |cs[i].stack| + 1;
    assert cs[j - 1].stack == cs[j - 1].stack[..|cs[i].stack| + 1];
    ReturnKeeps(cs[j - 1], cs[j]);
  }

  // ---- masks ----

  // The signal being handled since s was interrupted, and all that is blocked meanwhile
  function Blocked(s: State): SigSet {
    s.mask + (if Signo(s) in s.actions then s.actions[Signo(s)].mask else {}) + {Signo(s)}
  }

  // The current mask contains, for every handler still active, the mask it interrupted, the
  // sa_mask of its action and its own signal
  ghost predicate MaskChain(c: Config)
    requires Inv(c)
  {
    && (forall i | 0 <= i < |c.stack| :: Blocked(c.stack[i]) <= c.st.mask)
    && (forall i, j | 0 <= i < j < |c.stack| :: Blocked(c.stack[i]) <= c.stack[j].mask)
  }

  // As long as user code does not call sigprocmask
  ghost predicate MaskLeft(c: Config, e: Event, c': Config) {
    e == User ==> c'.st.mask == c.st.mask
  }

  lemma MaskStep(c: Config, e: Event, c': Config)
    requires Inv(c) && Step(c, e, c') && MaskLeft(c, e, c') && Inv(c') && MaskChain(c)
    ensures MaskChain(c')
  {
    hide Framed, Returned, Paged, UcBytes, FrameIntact;
    match e
    case User =>
    case Deliver =>
      if Signo(c.st) == 0 {
        NotFramed(c.st, c'.st);
      } else {
        SignoIs(c.st);
        assert c'.st.mask == Blocked(c.st);
      }
    case Return =>
      ReturnKeeps(c, c');
      assert c'.st.mask == c.Top().mask;
  }

  lemma {:induction false} MaskChainKept(cs: seq<Config>, es: seq<Event>, i: nat)
    requires Run(cs, es) && (forall k | 0 <= k < |es| :: MaskLeft(cs[k], es[k], cs[k + 1]))
    requires cs[0].stack == [] && i < |cs|
    ensures Inv(cs[i]) && MaskChain(cs[i])
  {
    hide Inv, Step, MaskLeft;
    RunKeeps(cs, es, i);
    if i > 0 {
      MaskChainKept(cs, es, i - 1);
      MaskStep(cs[i - 1], es[i - 1], cs[i]);
    }
  }

  // Hence no handler is entered again while it is active
  lemma NoReentry(cs: seq<Config>, es: seq<Event>, i: nat, k: nat)
    requires Run(cs, es) && (forall k | 0 <= k < |es| :: MaskLeft(cs[k], es[k], cs[k + 1]))
    requires cs[0].stack == [] && i < |es| && es[i] == Deliver && k < |cs[i].stack|
    ensures Signo(cs[i].st) != 0 ==> Signo(cs[i].st) != Signo(cs[i].stack[k])
  {
    MaskChainKept(cs, es, i);
    assert cs[i].stack[k] in cs[i].stack;
    hide Run, FrameIntact, Paged, Writable;
    assert Signo(cs[i].stack[k]) in cs[i].st.mask;
  }
}
