/** When the two threads can block each other, exactly. */
module Blocking {
  import opened Common
  import opened Framing
  import opened Handshake
  import opened Invariant

  // ---------------------------------------------------------------------
  // Mutex order
  // ---------------------------------------------------------------------

  predicate AtLineLock(cl: Position) {
    cl == CL_WAIT_LOCK || cl == CL_NOTIFIED || cl == CL_EXPIRED
  }

  function Held(c: Control, who: Owner): nat {
    (if c.user == who then 1 else 0) + (if c.line == who then 1 else 0) + (if c.done == who then 1 else 0)
  }

  /** Mutexes are taken without cycles. The client never holds two, and holds none
      while it waits for one; the I/O thread takes user_mutex first, and never
      holds both of the others. */
  lemma NoCircularWait(s: State)
    requires Reachable(s)
    ensures Held(s.c, Client) <= 1
    ensures AtUserLock(s.c.cl) || AtLineLock(s.c.cl) || s.c.cl == CL_SIGNAL_LOCK ==> Held(s.c, Client) == 0
    ensures s.c.line == Io || s.c.done == Io || s.c.io == IO_LOCK_LINE || s.c.io == IO_LOCK_DONE ==> s.c.user == Io
    ensures !(s.c.line == Io && s.c.done == Io)
  {
    InvReachable(s);
  }

  // ---------------------------------------------------------------------
  // The lost signal
  // ---------------------------------------------------------------------

  /** The I/O thread is in its second wait and has not been let go. */
  predicate HeldBack(c: Control) {
    InDoneLoop(c.io) && c.readdoneInactive
  }

  /** Held back, the I/O thread is owed no signal if and only if the reader it
      woke went through line 470 before it reached line 637. */
  lemma NoSignalOwedIffEarly(s: State)
    requires Reachable(s) && HeldBack(s.c)
    ensures !Owes(s.c) <==> s.c.early
    ensures s.c.early ==> s.c.variant == AsWritten
  {
    InvReachable(s);
    OwesUnlessEarly(s.c);
  }

  /** The step that loses the signal: line 470 with the I/O thread at 636 or 637. */
  predicate LosesSignal(s: State, e: Event) {
    e == Go && s.c.cl == CL_CLEAR_FLAG && (s.c.io == IO_LOCK_DONE || s.c.io == IO_ARM)
  }

  /** The step that begins another hand-over. */
  predicate WakesReader(s: State, e: Event) {
    e == IoGo && s.c.io == IO_WAKE
  }

  lemma EarlyStep(s: State, e: Event)
    requires Step(s, e).Some?
    ensures Step(s, e).value.c.early <==> LosesSignal(s, e) || (s.c.early && !WakesReader(s, e))
  {
    match e
    case IoGo => EarlyIo(s.c, s.m.k < |s.m.next|);
    case Go => EarlyClient(s.c, ClientTest(s.c.cl, s.m, s.r));
    case _ =>
  }

  lemma EarlyIo(c: Control, more: bool)
    requires IoControl(c, more).Some?
    ensures IoControl(c, more).value.early == (c.early && c.io != IO_WAKE)
  {
  }

  lemma EarlyClient(c: Control, yes: bool)
    requires ClientControl(c, yes).Some?
    ensures ClientControl(c, yes).value.early <==>
              c.early || (c.cl == CL_CLEAR_FLAG && (c.io == IO_LOCK_DONE || c.io == IO_ARM))
  {
    if c.cl <= CL_PURGE_UNLOCK {
    } else if c.cl <= CL_TEST_LAST {
    }
  }

  /** Step i of the run lost the signal, and no line was handed over since. */
  ghost predicate LostAt(s: State, es: seq<Event>, i: nat) {
    && i < |es| && Exec(s, es[..i]).Some? && LosesSignal(Exec(s, es[..i]).value, es[i])
    && forall j :: i <= j < |es| && Exec(s, es[..j]).Some? ==> !WakesReader(Exec(s, es[..j]).value, es[j])
  }

  lemma LostBefore(s: State, es: seq<Event>, n: nat, i: nat)
    requires |es| == n + 1 && i < n && Exec(s, es[..n]).Some?
    ensures LostAt(s, es, i) <==> LostAt(s, es[..n], i) && !WakesReader(Exec(s, es[..n]).value, es[n])
  {
    assert forall j :: 0 <= j <= n ==> es[..n][..j] == es[..j];
  }

  lemma LastStep(s: State, es: seq<Event>, n: nat)
    requires |es| == n + 1 && Exec(s, es).Some?
    ensures Exec(s, es[..n]).Some? && Exec(s, es) == Step(Exec(s, es[..n]).value, es[n])
  {
    PrefixRuns(s, es, n);
    assert es == es[..n] + [es[n]];
    ExecAppend(s, es[..n], [es[n]]);
    var u := Exec(s, es[..n]).value;
    assert Exec(u, [es[n]]) == Step(u, es[n]);
  }

  /** What the history flag means for a run, exactly. */
  lemma {:induction false} EarlyIffLost(s: State, es: seq<Event>)
    requires !s.c.early && Exec(s, es).Some?
    ensures Exec(s, es).value.c.early <==> exists i: nat :: LostAt(s, es, i)
    decreases |es|
  {
    if es != [] {
      var n := |es| - 1;
      LastStep(s, es, n);
      var u := Exec(s, es[..n]).value;
      EarlyIffLost(s, es[..n]);
      EarlyStep(u, es[n]);
      assert LostAt(s, es, n) <==> LosesSignal(u, es[n]);
      forall i: nat | i < n
        ensures LostAt(s, es, i) <==> LostAt(s, es[..n], i) && !WakesReader(u, es[n])
      {
        LostBefore(s, es, n, i);
      }
    }
  }

  lemma OwesUnlessEarly(c: Control)
    requires ControlInv(c) && HeldBack(c)
    ensures !Owes(c) <==> c.early
    ensures c.early ==> c.variant == AsWritten
  {
  }

  /** For runs: held back, the I/O thread is owed no signal if and only if some step
      lost the one for the line that was handed over last. */
  lemma NoSignalOwedIffLost(s: State, es: seq<Event>)
    requires Reachable(s) && !s.c.early && Exec(s, es).Some?
    requires HeldBack(Exec(s, es).value.c)
    ensures !Owes(Exec(s, es).value.c) <==> exists i: nat :: LostAt(s, es, i)
  {
    InvReachable(s);
    InvExec(s, es);
    OwesUnlessEarly(Exec(s, es).value.c);
    EarlyIffLost(s, es);
  }

  lemma {:induction false} PrefixRuns(s: State, es: seq<Event>, n: nat)
    requires n <= |es| && Exec(s, es).Some?
    ensures Exec(s, es[..n]).Some?
    decreases n
  {
    if n > 0 {
      PrefixRuns(Step(s, es[0]).value, es[1..], n - 1);
      assert es[..n][1..] == es[1..][..n - 1];
    }
  }

  // ---------------------------------------------------------------------
  // Deadlock, exactly
  // ---------------------------------------------------------------------

  /** The client waits for user_mutex, which the I/O thread keeps while it waits
      for the client. */
  predicate Doomed(c: Control) {
    AtUserLock(c.cl) && Rendezvous(c)
  }

  lemma DoomedIo(c: Control, more: bool)
    requires ControlInv(c) && Doomed(c) && IoControl(c, more).Some?
    ensures Doomed(IoControl(c, more).value)
  {
    match c.io
    case IO_LOCK_DONE =>
    case IO_ARM =>
    case IO_TEST_DONE =>
    case _ =>
  }

  lemma DoomedStep(s: State, e: Event)
    requires Inv(s) && Doomed(s.c) && Step(s, e).Some?
    ensures Doomed(Step(s, e).value.c)
  {
    match e
    case IoGo => DoomedIo(s.c, s.m.k < |s.m.next|);
    case Go =>
    case _ =>
  }

  lemma {:induction false} DoomedForever(s: State, es: seq<Event>)
    requires Inv(s) && Doomed(s.c) && Exec(s, es).Some?
    ensures Doomed(Exec(s, es).value.c)
    decreases |es|
  {
    if es != [] {
      DoomedStep(s, es[0]);
      InvStep(s, es[0]);
      DoomedForever(Step(s, es[0]).value, es[1..]);
    }
  }

  /** The repaired order of lines 632 and 637 never gets there. */
  lemma ArmFirstIsNeverDoomed(s: State)
    requires Reachable(s) && s.c.variant == ArmFirst
    ensures !Doomed(s.c)
  {
    InvReachable(s);
  }

  // Every step without input uses up a bounded supply

  /** Let the client go on; while it is blocked, let the I/O thread go on. */
  function Helpful(s: State): Event {
    if s.c.cl == CL_BLOCKED then Expire else if ClientRun(s).Some? then Go else IoGo
  }

  /** How far the client is from returning. Positions grow along a call, but for
      the loop of lines 458-460. */
  function Stage(c: Control): nat {
    if c.cl <= 0 || c.cl > 6000 then 0
    else if c.cl == CL_NOTIFIED then 6000 - CL_TEST_FLAG
    else if c.cl == CL_TEST_FLAG && c.readlineInactive && !c.waitTest then 6000 - CL_TEST_FLAG - 1
    else if c.cl == CL_TEST_FLAG then 6000 - CL_EXPIRED - 1
    else 6000 - c.cl
  }

  function Left(cl: Position, r: Reader): nat {
    if LoadingBytes(cl) && |r.dst| < r.want then r.want - |r.dst| else 0
  }

  /** How far the I/O thread is from waiting for input. */
  function IoStage(io: Position): nat {
    if io == IO_RECEIVE || io > 7000 then 0
    else if io == IO_ROUSED then 7000 - IO_TEST_DONE + 1
    else 7000 - io
  }

  function IoLeft(io: Position, m: Memory): nat {
    if io == IO_COPY && m.k < |m.next| then |m.next| - m.k else 0
  }

  /** A broadcast, which sets a blocked client back, may be yet to come. */
  function ToWake(io: Position): nat {
    if IO_LOCK_USER <= io <= IO_BROADCAST then 1 else 0
  }

  function ClientFuel(s: State): nat {
    (ToWake(s.c.io) * 10_000 + Stage(s.c)) * 2_000 + Left(s.c.cl, s.r)
  }

  function IoFuel(s: State): nat {
    IoStage(s.c.io) * 2_000 + IoLeft(s.c.io, s.m)
  }

  /** A bound on the steps the two threads can take before they need input. */
  function Fuel(s: State): nat {
    ClientFuel(s) * 10_000_000 + IoFuel(s)
  }

  lemma FuelBounds(s: State)
    requires Inv(s)
    ensures Left(s.c.cl, s.r) <= RING && IoFuel(s) < 10_000_000
  {
    LoadIsStable(s.c);
  }

  lemma StageDrops(c: Control, t: Control)
    requires OnLines(c) && OnLines(t) && Onward(c, t) && c.cl != CL_IDLE && c.cl != CL_BLOCKED
    ensures Stage(t) < Stage(c) || (t == c && LoadingBytes(c.cl))
  {
  }

  lemma IoStageDrops(c: Control, t: Control)
    requires OnLines(c) && OnLines(t) && IoOnward(c, t) && c.io != IO_RECEIVE
    ensures IoStage(t.io) < IoStage(c.io) || (t == c && c.io == IO_COPY)
  {
  }

  lemma CopyGoesOn(s: State)
    requires Inv(s) && LoadingBytes(s.c.cl)
    requires ClientRun(s).Some? && ClientRun(s).value.c == s.c
    ensures Left(s.c.cl, ClientRun(s).value.r) < Left(s.c.cl, s.r)
  {
    LoadIsStable(s.c);
  }

  lemma ClientStepCosts(s: State)
    requires Inv(s) && ClientRun(s).Some?
    ensures ClientFuel(ClientRun(s).value) < ClientFuel(s)
  {
    var t, yes := ClientRun(s).value, ClientTest(s.c.cl, s.m, s.r);
    ClientKeepsControl(s.c, yes);
    ClientMoves(s.c, yes);
    StageDrops(s.c, t.c);
    ClientRunKeeps(s);
    FuelBounds(t);
    if t.c == s.c {
      CopyGoesOn(s);
    }
  }

  lemma IoLeavesClient(c: Control, more: bool)
    requires IoControl(c, more).Some? && c.io != IO_BROADCAST
    ensures var t := IoControl(c, more).value; t.cl == c.cl && t.waitTest == c.waitTest
    ensures c.io != IO_WAKE && c.io != IO_BOOT_FLAG ==>
              IoControl(c, more).value.readlineInactive == c.readlineInactive
    ensures c.io == IO_BOOT_FLAG ==> IoControl(c, more).value.readlineInactive
  {
  }

  lemma IoKeepsStage(c: Control, more: bool)
    requires ControlInv(c) && IoControl(c, more).Some? && c.io != IO_BROADCAST
    ensures IoControl(c, more).value.cl == c.cl && Stage(IoControl(c, more).value) == Stage(c)
  {
    IoLeavesClient(c, more);
    if c.cl == CL_TEST_FLAG {
      assert c.io != IO_WAKE;
      assert c.io == IO_BOOT_FLAG ==> c.readlineInactive;
    }
  }

  lemma ToWakeDrops(c: Control, more: bool, t: Control)
    requires OnLines(c) && OnLines(t) && IoOnward(c, t) && IoMove(c, more, t)
    ensures ToWake(t.io) <= ToWake(c.io)
  {
  }

  lemma IoStepCosts(s: State)
    requires Inv(s) && IoRun(s).Some? && s.c.io != IO_BROADCAST
    ensures var t := IoRun(s).value; ClientFuel(t) <= ClientFuel(s) && IoFuel(t) < IoFuel(s)
  {
    var t, more := IoRun(s).value, s.m.k < |s.m.next|;
    IoKeepsStage(s.c, more);
    IoKeepsControl(s.c, more);
    IoMoves(s.c, more);
    ToWakeDrops(s.c, more, t.c);
    IoStageDrops(s.c, t.c);
    IoRunKeeps(s);
  }

  /** The threads' own steps and the passing of a deadline. */
  predicate Internal(e: Event) {
    e == Go || e == IoGo || e == Expire
  }

  predicate NoInput(es: seq<Event>) {
    forall i :: 0 <= i < |es| ==> Internal(es[i])
  }

  /** Each of them uses up fuel. */
  lemma StepCosts(s: State, e: Event)
    requires Inv(s) && Internal(e) && Step(s, e).Some?
    ensures Fuel(Step(s, e).value) < Fuel(s)
  {
    var t := Step(s, e).value;
    InvStep(s, e);
    FuelBounds(s);
    FuelBounds(t);
    match e
    case Go => ClientStepCosts(s);
    case IoGo =>
      if s.c.io != IO_BROADCAST {
        IoStepCosts(s);
      }
    case _ =>
  }

  predicate AtTakenLock(c: Control) {
    || (AtUserLock(c.cl) && c.user != Free)
    || (AtLineLock(c.cl) && c.line != Free)
    || (c.cl == CL_SIGNAL_LOCK && c.done != Free)
  }

  lemma BlockedAtLock(c: Control, yes: bool)
    requires OnLines(c) && ClientControl(c, yes).None?
    ensures c.cl == CL_IDLE || c.cl == CL_BLOCKED || AtTakenLock(c)
  {
    if c.cl <= CL_PURGE_UNLOCK {
    } else if c.cl <= CL_FAST_COPY {
    } else if c.cl <= CL_TEST_EMPTY {
    } else if c.cl <= CL_TEST_RESULT {
    } else if c.cl <= CL_TEST_LAST {
    }
  }

  /** A blocked client waits for a mutex the I/O thread holds, and that thread can
      go on, unless the client is doomed. */
  lemma BlockedByIo(c: Control, more: bool)
    requires ControlInv(c) && AtTakenLock(c) && !Doomed(c)
    ensures IoHasUser(c.io) && IoControl(c, more).Some?
  {
    if AtLineLock(c.cl) {
      assert IoHasLine(c.io);
    } else if c.cl == CL_SIGNAL_LOCK {
      assert IoHasDone(c.io);
    } else if c.io <= IO_TEST_READERS {
    } else if c.io <= IO_UNLOCK_LINE {
    } else if c.io <= IO_ARM {
    }
  }

  /** Line 632 is the only way into the rendezvous. */
  lemma OnlyWakeEnters(c: Control, more: bool)
    requires IoControl(c, more).Some? && Rendezvous(IoControl(c, more).value)
    ensures Rendezvous(c) || c.io == IO_WAKE
  {
    if IO_LOCK_LINE <= c.io <= IO_UNLOCK_LINE {
    } else if IO_LOCK_DONE <= c.io <= IO_UNLOCK_DONE {
    } else if IO_BUMP <= c.io <= IO_TEST_READERS {
    }
  }

  lemma IoKeepsUndoomed(c: Control, more: bool)
    requires ControlInv(c) && !Doomed(c) && IoControl(c, more).Some?
    ensures !Doomed(IoControl(c, more).value)
  {
    IoMoves(c, more);
    if Rendezvous(IoControl(c, more).value) {
      OnlyWakeEnters(c, more);
    }
  }

  /** No step without input dooms a client. */
  lemma StaysUndoomed(s: State, e: Event)
    requires Inv(s) && !Doomed(s.c) && Internal(e) && Step(s, e).Some?
    ensures !Doomed(Step(s, e).value.c)
  {
    match e
    case Go => ClientKeepsControl(s.c, ClientTest(s.c.cl, s.m, s.r));
    case IoGo => IoKeepsUndoomed(s.c, s.m.k < |s.m.next|);
    case _ =>
  }

  /** The I/O thread has woken a reader and is about to lock readdone_mutex. */
  predicate AtLine636(c: Control) {
    c.io == IO_LOCK_DONE && c.variant == AsWritten
  }

  /** Then nothing keeps the client from going first. */
  lemma ClientGoesFirst(s: State)
    requires Inv(s) && AtLine636(s.c) && s.c.cl != CL_IDLE && !Doomed(s.c)
    ensures Step(s, Helpful(s)).Some? && AtLine636(Step(s, Helpful(s)).value.c)
  {
    var yes := ClientTest(s.c.cl, s.m, s.r);
    if s.c.cl != CL_BLOCKED {
      if ClientRun(s).Some? {
        ClientMoves(s.c, yes);
      } else {
        BlockedAtLock(s.c, yes);
      }
    }
  }

  /** One helpful step: the client is not doomed by it, and gets closer to line 482. */
  lemma HelpfulStep(s: State)
    requires Inv(s) && s.c.cl != CL_IDLE && !Doomed(s.c)
    ensures Step(s, Helpful(s)).Some?
    ensures var t := Step(s, Helpful(s)).value; Inv(t) && !Doomed(t.c) && Fuel(t) < Fuel(s)
    ensures AtLine636(s.c) ==> AtLine636(Step(s, Helpful(s)).value.c)
  {
    if s.c.cl != CL_BLOCKED && ClientRun(s).None? {
      BlockedAtLock(s.c, ClientTest(s.c.cl, s.m, s.r));
      BlockedByIo(s.c, s.m.k < |s.m.next|);
    }
    if AtLine636(s.c) {
      ClientGoesFirst(s);
    }
    InvStep(s, Helpful(s));
    StaysUndoomed(s, Helpful(s));
    StepCosts(s, Helpful(s));
  }

  lemma Prepend(s: State, e: Event, es: seq<Event>)
    requires Step(s, e).Some?
    ensures Exec(s, [e] + es) == Exec(Step(s, e).value, es)
  {
    assert ([e] + es)[1..] == es;
  }

  lemma {:induction false} HelpReturns(s: State) returns (es: seq<Event>)
    requires Inv(s) && !Doomed(s.c)
    ensures Exec(s, es).Some? && Exec(s, es).value.c.cl == CL_IDLE && NoInput(es)
    ensures AtLine636(s.c) ==> AtLine636(Exec(s, es).value.c)
    decreases Fuel(s)
  {
    if s.c.cl == CL_IDLE {
      return [];
    }
    HelpfulStep(s);
    var more := HelpReturns(Step(s, Helpful(s)).value);
    Prepend(s, Helpful(s), more);
    es := [Helpful(s)] + more;
  }

  ghost predicate Returns(s: State, es: seq<Event>) {
    Exec(s, es).Some? && Exec(s, es).value.c.cl == CL_IDLE
  }

  /** Deadlock, exactly. In every reachable state: unless the client is waiting for
      user_mutex while the I/O thread waits for the client, the call in progress
      can return without further input; and if it is, it never returns, whatever
      happens. */
  lemma ReturnsIffNotDoomed(s: State)
    requires Reachable(s)
    ensures !Doomed(s.c) <==> exists es: seq<Event> :: Returns(s, es)
    ensures !Doomed(s.c) <==> exists es: seq<Event> :: Returns(s, es) && NoInput(es)
  {
    InvReachable(s);
    if Doomed(s.c) {
      forall es: seq<Event> | Exec(s, es).Some?
        ensures !Returns(s, es)
      {
        DoomedForever(s, es);
      }
    } else {
      var es := HelpReturns(s);
      assert Returns(s, es);
    }
  }

  // Every schedule

  /** Neither thread can go on without input. */
  predicate Stuck(s: State) {
    Step(s, Go).None? && Step(s, IoGo).None? && Step(s, Expire).None?
  }

  lemma {:induction false} RunsAreFinite(s: State, es: seq<Event>)
    requires Inv(s) && NoInput(es) && Exec(s, es).Some?
    ensures |es| + Fuel(Exec(s, es).value) <= Fuel(s)
    ensures !Doomed(s.c) ==> !Doomed(Exec(s, es).value.c)
    decreases |es|
  {
    if es != [] {
      InvStep(s, es[0]);
      StepCosts(s, es[0]);
      if !Doomed(s.c) {
        StaysUndoomed(s, es[0]);
      }
      RunsAreFinite(Step(s, es[0]).value, es[1..]);
    }
  }

  lemma SomeStep(s: State) returns (e: Event)
    requires Inv(s) && !Stuck(s)
    ensures Internal(e) && Step(s, e).Some?
    ensures Inv(Step(s, e).value) && Fuel(Step(s, e).value) < Fuel(s)
  {
    e := if Step(s, Go).Some? then Go else if Step(s, IoGo).Some? then IoGo else Expire;
    InvStep(s, e);
    StepCosts(s, e);
  }

  lemma {:induction false} RunsEnd(s: State) returns (es: seq<Event>)
    requires Inv(s)
    ensures NoInput(es) && Exec(s, es).Some? && Stuck(Exec(s, es).value)
    decreases Fuel(s)
  {
    if Stuck(s) {
      es := [];
    } else {
      var e := SomeStep(s);
      var more := RunsEnd(Step(s, e).value);
      Prepend(s, e, more);
      es := [e] + more;
    }
  }

  /** A run without input that cannot be continued. */
  ghost predicate Maximal(s: State, es: seq<Event>) {
    NoInput(es) && Exec(s, es).Some? && Stuck(Exec(s, es).value)
  }

  lemma MaximalRunReturns(s: State, es: seq<Event>)
    requires Inv(s) && !Doomed(s.c) && Maximal(s, es)
    ensures Returns(s, es) && IoWaits(Exec(s, es).value.c)
  {
    RunsAreFinite(s, es);
    InvExec(s, es);
    var t := Exec(s, es).value;
    if t.c.cl != CL_IDLE {
      HelpfulStep(t);
    }
    OnlyWaitsBlock(t.c, t.m.k < |t.m.next|);
  }

  /** The I/O thread waits for input, or in its second wait for a reader. */
  predicate IoWaits(c: Control) {
    c.io == IO_RECEIVE || (c.io == IO_PARKED && c.readdoneInactive)
  }

  lemma OnlyWaitsBlock(c: Control, more: bool)
    requires ControlInv(c) && c.cl == CL_IDLE && IoControl(c, more).None?
    ensures IoWaits(c)
  {
    if IO_LOCK_LINE <= c.io <= IO_UNLOCK_LINE {
    } else if IO_LOCK_DONE <= c.io <= IO_UNLOCK_DONE {
    } else if IO_BUMP <= c.io <= IO_TEST_READERS {
    }
  }

  lemma DoomedRunEnds(s: State) returns (es: seq<Event>)
    requires Inv(s) && Doomed(s.c)
    ensures Maximal(s, es) && !Returns(s, es)
  {
    es := RunsEnd(s);
    DoomedForever(s, es);
  }

  /** Deadlock over every schedule. Without input and spurious wakeups the two
      threads take finitely many steps; and the call in progress has returned at
      the end of every such run that cannot be continued, whoever goes first at
      each step, if and only if the client is not doomed now; the I/O thread then
      waits for input, or has been left in its second wait. */
  lemma EveryScheduleReturnsIffNotDoomed(s: State)
    requires Reachable(s)
    ensures forall es: seq<Event> :: NoInput(es) && Exec(s, es).Some? ==> |es| <= Fuel(s)
    ensures exists es: seq<Event> :: Maximal(s, es)
    ensures !Doomed(s.c) <==> forall es: seq<Event> :: Maximal(s, es) ==> Returns(s, es)
    ensures !Doomed(s.c) ==> forall es: seq<Event> :: Maximal(s, es) ==> IoWaits(Exec(s, es).value.c)
  {
    InvReachable(s);
    forall es: seq<Event> | NoInput(es) && Exec(s, es).Some?
      ensures |es| <= Fuel(s)
    {
      RunsAreFinite(s, es);
    }
    var end := RunsEnd(s);
    assert Maximal(s, end);
    if Doomed(s.c) {
      var es := DoomedRunEnds(s);
    } else {
      forall es: seq<Event> | Maximal(s, es)
        ensures Returns(s, es) && IoWaits(Exec(s, es).value.c)
      {
        MaximalRunReturns(s, es);
      }
    }
  }

  // ---------------------------------------------------------------------
  // A later read lets the I/O thread go
  // ---------------------------------------------------------------------

  /** In sp_read, held back by the try-lock or woken, and not yet past line 470. */
  predicate Rescuing(s: State) {
    && HeldBack(s.c)
    && (|| s.c.cl == CL_TRY_USER
        || (s.c.cl == CL_TEST_EMPTY && s.r.dst == [])
        || CL_WAIT_LOCK <= s.c.cl <= CL_CLEAR_FLAG)
  }

  predicate LetGo(c: Control) {
    InDoneLoop(c.io) && !c.readdoneInactive
  }

  lemma RescueByClient(c: Control, yes: bool)
    requires ControlInv(c) && HeldBack(c) && ClientControl(c, yes).Some?
    requires c.cl == CL_TRY_USER || (c.cl == CL_TEST_EMPTY && yes) || CL_WAIT_LOCK <= c.cl <= CL_CLEAR_FLAG
    ensures var t := ClientControl(c, yes).value;
            if c.cl == CL_CLEAR_FLAG then LetGo(t)
            else HeldBack(t) && (t.cl == CL_TEST_EMPTY <==> c.cl == CL_TRY_USER)
                 && (c.cl != CL_TRY_USER ==> CL_WAIT_LOCK <= t.cl <= CL_CLEAR_FLAG)
  {
    if c.cl <= CL_TEST_EMPTY {
    } else if c.cl <= CL_TEST_RESULT {
    } else if c.cl <= CL_WAIT_COPY {
    } else if c.cl <= CL_TEST_LAST {
    }
  }

  lemma RescueByIo(c: Control, more: bool)
    requires HeldBack(c) && IoControl(c, more).Some?
    ensures HeldBack(IoControl(c, more).value) && IoControl(c, more).value.cl == c.cl
  {
  }

  lemma RescueStep(s: State, e: Event)
    requires Inv(s) && Rescuing(s) && Step(s, e).Some?
    ensures var t := Step(s, e).value; Rescuing(t) || LetGo(t.c)
  {
    match e
    case IoGo => RescueByIo(s.c, s.m.k < |s.m.next|);
    case Go => RescueByClient(s.c, ClientTest(s.c.cl, s.m, s.r));
    case _ =>
  }

  lemma {:induction false} RescueRun(s: State, es: seq<Event>) returns (i: nat)
    requires Inv(s) && Rescuing(s) && Returns(s, es)
    ensures i <= |es| && Exec(s, es[..i]).Some? && LetGo(Exec(s, es[..i]).value.c)
    decreases |es|
  {
    var t := Step(s, es[0]).value;
    RescueStep(s, es[0]);
    InvStep(s, es[0]);
    if LetGo(t.c) {
      i := 1;
      assert es[..1] == [es[0]] && es[..1][1..] == [];
    } else {
      var j := RescueRun(t, es[1..]);
      i := j + 1;
      assert es[..i][1..] == es[1..][..j];
    }
  }

  /** While the I/O thread is held back and owed no signal, the next sp_read can
      always return, and in every run in which it returns it has let the I/O
      thread go on the way. */
  lemma NextReadReleases(s: State, max: nat)
    requires Reachable(s) && HeldBack(s.c) && s.c.cl == CL_IDLE && max > 0
    ensures var t := CallRead(s, max);
            && (exists es: seq<Event> :: Returns(t, es) && NoInput(es))
            && (forall es: seq<Event> :: Returns(t, es) ==>
                  exists i: nat :: i <= |es| && Exec(t, es[..i]).Some? && LetGo(Exec(t, es[..i]).value.c))
  {
    InvReachable(s);
    var t := CallRead(s, max);
    CallReadKeeps(s, max);
    var es := HelpReturns(t);
    assert Returns(t, es);
    forall es: seq<Event> | Returns(t, es)
      ensures exists i: nat :: i <= |es| && Exec(t, es[..i]).Some? && LetGo(Exec(t, es[..i]).value.c)
    {
      var i := RescueRun(t, es);
    }
  }

  /** Any other call made then never returns. */
  lemma AnyOtherCallHangs(s: State, e: Event, es: seq<Event>)
    requires Reachable(s) && HeldBack(s.c) && s.c.cl == CL_IDLE
    requires e == Destroy || e == Purge || e == Send
    ensures Step(s, e).Some? && !Returns(Step(s, e).value, es)
  {
    InvReachable(s);
    InvStep(s, e);
    if Exec(Step(s, e).value, es).Some? {
      DoomedForever(Step(s, e).value, es);
    }
  }

  // ---------------------------------------------------------------------
  // It does happen
  // ---------------------------------------------------------------------

  lemma {:induction false} VariantIsFixed(s: State, es: seq<Event>)
    requires Exec(s, es).Some?
    ensures Exec(s, es).value.c.variant == s.c.variant
    decreases |es|
  {
    if es != [] {
      if es[0] == Go {
        ClientMoves(s.c, ClientTest(s.c.cl, s.m, s.r));
      }
      VariantIsFixed(Step(s, es[0]).value, es[1..]);
    }
  }

  /** One more step of a run, that leads to these positions. */
  lemma Reach(s: State, e: Event, io: Position, cl: Position) returns (t: State)
    requires Reachable(s) && Step(s, e).Some? && Step(s, e).value.c.variant == s.c.variant
    requires Step(s, e).value.c.io == io && Step(s, e).value.c.cl == cl
    ensures t == Step(s, e).value && t.c.io == io && t.c.cl == cl && Reachable(t)
  {
    t := Step(s, e).value;
    var garbage: Buffer, es :| Exec(Init(s.c.variant, garbage), es) == Some(s);
    ExecAppend(Init(s.c.variant, garbage), es, [e]);
    assert Exec(Init(t.c.variant, garbage), es + [e]) == Some(t);
  }

  function Blank(): Buffer {
    seq(RING, i => 0)
  }

  /** Every handing over of a line can go wrong: whenever the I/O thread stands at
      line 636, some continuation without input ends with the reader returned and
      the next sp_sendcmd hanging for good. */
  lemma EveryHandOverCanHang(s: State) returns (es: seq<Event>)
    requires Reachable(s) && AtLine636(s.c) && !Doomed(s.c)
    ensures NoInput(es) && Exec(s, es + [Send]).Some? && Doomed(Exec(s, es + [Send]).value.c)
  {
    InvReachable(s);
    es := HelpReturns(s);
    var t := Exec(s, es).value;
    ExecAppend(s, es, [Send]);
    assert Exec(t, [Send]) == Step(t, Send);
  }

  lemma ThreadStarted() returns (t: State)
    ensures Reachable(t)
    ensures t == State(
      Control(AsWritten, Free, Free, Free, true, false, 0, 0, IO_RECEIVE, CL_IDLE, false, 0, 0, 0, false),
      Memory(1, 0, Blank(), 0, [], [], [], []),
      Reader(0, 0, 0, [], 0, 0, [], []))
  {
    t := Init(AsWritten, Blank());
    assert Exec(t, []) == Some(t);
    t := Reach(t, IoGo, IO_BOOT_ID, CL_IDLE);
    t := Reach(t, IoGo, IO_RECEIVE, CL_IDLE);
  }

  lemma ReaderMade() returns (t: State)
    ensures Reachable(t)
    ensures t == State(
      Control(AsWritten, Free, Free, Free, true, false, 0, 1, IO_RECEIVE, CL_IDLE, false, 0, 1, 0, false),
      Memory(1, 0, Blank(), 0, [], [], [], []),
      Reader(1, 0, 0, [], 0, 0, [], []))
  {
    t := ThreadStarted();
    t := Reach(t, Create, IO_RECEIVE, CL_CREATE_LOCK);
    t := Reach(t, Go, IO_RECEIVE, CL_SNAPSHOT);
    t := Reach(t, Go, IO_RECEIVE, CL_ADD_READER);
    t := Reach(t, Go, IO_RECEIVE, CL_CREATE_UNLOCK);
    t := Reach(t, Go, IO_RECEIVE, CL_IDLE);
  }

  lemma ReaderFindsNothing() returns (t: State)
    ensures Reachable(t)
    ensures t == State(
      Control(AsWritten, Free, Free, Free, true, false, 0, 1, IO_RECEIVE, CL_WAIT_LOCK, false, 0, 1, 0, false),
      Memory(1, 0, Blank(), 0, [], [], [], []),
      Reader(1, 8, 0, [], 0, 0, [], []))
  {
    t := ReaderMade();
    t := Reach(t, Call(8), IO_RECEIVE, CL_TRY_USER);
    t := Reach(t, Go, IO_RECEIVE, CL_TEST_FRESH);
    t := Reach(t, Go, IO_RECEIVE, CL_UNLOCK_FAST);
    t := Reach(t, Go, IO_RECEIVE, CL_TEST_EMPTY);
    t := Reach(t, Go, IO_RECEIVE, CL_WAIT_LOCK);
  }

  lemma ReaderWaits() returns (t: State)
    ensures Reachable(t)
    ensures t == State(
      Control(AsWritten, Free, Free, Free, true, false, 1, 1, IO_RECEIVE, CL_BLOCKED, false, 0, 1, 0, false),
      Memory(1, 0, Blank(), 0, [], [], [], []),
      Reader(1, 8, 0, [], 0, 0, [], []))
  {
    t := ReaderFindsNothing();
    t := Reach(t, Go, IO_RECEIVE, CL_COUNT_IN);
    t := Reach(t, Go, IO_RECEIVE, CL_RESET_FLAG);
    t := Reach(t, Go, IO_RECEIVE, CL_TEST_FLAG);
    t := Reach(t, Go, IO_RECEIVE, CL_BLOCKED);
  }

  /** An empty line arrives for the waiting reader. */
  lemma LineArrives() returns (t: State)
    ensures Reachable(t)
    ensures t == State(
      Control(AsWritten, Io, Free, Free, true, false, 1, 1, IO_SET_SIZE, CL_BLOCKED, false, 0, 1, 0, false),
      Memory(2, 0, Blank(), 0, [], [NUL], [NEWLINE], [[NUL]]),
      Reader(1, 8, 0, [], 0, 0, [], []))
  {
    t := ReaderWaits();
    var none: seq<byte>, lines: seq<seq<byte>> := [], [];
    assert none + [NUL] == [NUL] && lines + [[NUL]] == [[NUL]];
    t := Reach(t, IoByte(NEWLINE), IO_LOCK_USER, CL_BLOCKED);
    t := Reach(t, IoGo, IO_BUMP, CL_BLOCKED);
    t := Reach(t, IoGo, IO_SET_SIZE, CL_BLOCKED);
  }

  lemma LineIsPublished() returns (t: State)
    ensures Reachable(t)
    ensures t.c == Control(
      AsWritten, Io, Free, Free, true, false, 1, 1, IO_LOCK_LINE, CL_BLOCKED, false, 0, 1, 0, false)
  {
    t := LineArrives();
    t := Reach(t, IoGo, IO_COPY, CL_BLOCKED);
    t := Reach(t, IoGo, IO_COPY, CL_BLOCKED);
    t := Reach(t, IoGo, IO_TEST_READERS, CL_BLOCKED);
    t := Reach(t, IoGo, IO_LOCK_LINE, CL_BLOCKED);
  }

  lemma LineIsHandedOver() returns (t: State)
    ensures Reachable(t) && AtLine636(t.c) && !Doomed(t.c)
  {
    t := LineIsPublished();
    t := Reach(t, IoGo, IO_TEST_WAITING, CL_BLOCKED);
    t := Reach(t, IoGo, IO_WAKE, CL_BLOCKED);
    t := Reach(t, IoGo, IO_BROADCAST, CL_BLOCKED);
    t := Reach(t, IoGo, IO_UNLOCK_LINE, CL_NOTIFIED);
    t := Reach(t, IoGo, IO_LOCK_DONE, CL_NOTIFIED);
  }

  /** So the code as written does hang, in some reachable state. */
  lemma DoomIsReachable() returns (t: State)
    ensures Reachable(t) && t.c.variant == AsWritten && Doomed(t.c)
  {
    var s := LineIsHandedOver();
    var es := EveryHandOverCanHang(s);
    t := Exec(s, es + [Send]).value;
    var garbage: Buffer, fs :| Exec(Init(AsWritten, garbage), fs) == Some(s);
    ExecAppend(Init(AsWritten, garbage), fs, es + [Send]);
    VariantIsFixed(s, es + [Send]);
    assert Exec(Init(t.c.variant, garbage), fs + (es + [Send])) == Some(t);
  }
}
