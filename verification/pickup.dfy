/** What a call of sp_read is certain to give: a line that was published before it,
    or the one it waited for. */
module Pickup {
  import opened Common
  import opened Framing
  import opened Handshake
  import opened Invariant
  import opened Delivery
  import opened Blocking

  /** A line is there, and the test of line 436 would see it. */
  predicate Unread(s: State) {
    s.m.pub != [] && s.r.lastRead != s.m.readId
  }

  /** At some point of the run the call has returned this. */
  ghost predicate Gives(s: State, es: seq<Event>, log: seq<Read>, read: Read) {
    exists i: nat :: GivesAt(s, es, i, log, read)
  }

  ghost predicate GivesAt(s: State, es: seq<Event>, i: nat, log: seq<Read>, read: Read) {
    && i <= |es| && Exec(s, es[..i]).Some?
    && Exec(s, es[..i]).value.c.cl == CL_IDLE && Exec(s, es[..i]).value.r.log == log + [read]
  }

  // ---------------------------------------------------------------------
  // A load is under way or certain
  // ---------------------------------------------------------------------

  /** Between a test at 436 or 461 that will succeed and the end of the load at 437
      or 462. */
  predicate Fetching(s: State) {
    || (s.c.cl == CL_TEST_FRESH && Unread(s))
    || CL_FAST_ID <= s.c.cl <= CL_FAST_COPY
    || (s.c.cl == CL_TEST_RESULT && !s.c.waitTest)
    || LoadingUnlocked(s.c.cl)
  }

  /** s belongs to the same call as before: same limit, same newest line. */
  predicate SameCall(s: State, max: nat, log: seq<Read>, line: seq<byte>) {
    s.r.max == max && s.r.log == log && s.m.pub != [] && s.m.pub[|s.m.pub| - 1] == line
  }

  lemma FetchingIo(s: State)
    requires Inv(s) && Fetching(s) && s.m.pub != [] && IoRun(s).Some?
    ensures var t := IoRun(s).value;
            t.c.cl == s.c.cl && t.m.pub == s.m.pub && t.m.readId == s.m.readId && t.r == s.r
  {
    IoMoves(s.c, s.m.k < |s.m.next|);
    assert (!IoHasUser(s.c.io) && Booted(s.c.io)) || Rendezvous(s.c);
  }

  lemma FetchingClient(s: State)
    requires Inv(s) && Fetching(s) && s.m.pub != [] && ClientRun(s).Some?
    ensures var t := ClientRun(s).value; t.m == s.m && t.r.max == s.r.max && t.r.log == s.r.log
    ensures var t := ClientRun(s).value;
            Fetching(t) || (Leaving(t, t.r) && t.r.dst == Clip(s.r.max, s.m.pub[|s.m.pub| - 1]))
  {
    if LoadingBytes(s.c.cl) && |s.r.dst| >= s.r.want {
      LoadHoldsNewest(s);
    }
  }

  lemma FetchingStep(s: State, e: Event, max: nat, log: seq<Read>, line: seq<byte>)
    requires Inv(s) && Fetching(s) && SameCall(s, max, log, line) && Step(s, e).Some?
    ensures var t := Step(s, e).value;
            && SameCall(t, max, log, line)
            && (Fetching(t) || (Leaving(t, t.r) && t.r.dst == Clip(max, line)))
  {
    match e
    case IoGo => FetchingIo(s);
    case Go => FetchingClient(s);
    case _ =>
  }

  lemma GivesLater(s: State, es: seq<Event>, log: seq<Read>, read: Read, j: nat)
    requires es != [] && Step(s, es[0]).Some? && GivesAt(Step(s, es[0]).value, es[1..], j, log, read)
    ensures GivesAt(s, es, j + 1, log, read)
  {
    assert es[..j + 1][1..] == es[1..][..j];
  }

  lemma {:induction false} FetchedIsGiven(s: State, es: seq<Event>, max: nat, log: seq<Read>, line: seq<byte>)
    requires Inv(s) && Fetching(s) && SameCall(s, max, log, line) && Returns(s, es)
    ensures Gives(s, es, log, Read(max, Clip(max, line)))
    decreases |es|
  {
    var read := Read(max, Clip(max, line));
    var t := Step(s, es[0]).value;
    FetchingStep(s, es[0], max, log, line);
    InvStep(s, es[0]);
    var j: nat;
    if Fetching(t) {
      FetchedIsGiven(t, es[1..], max, log, line);
      j :| GivesAt(t, es[1..], j, log, read);
    } else {
      j := LoadIsReturned(t, es[1..]);
      assert GivesAt(t, es[1..], j, log, read);
    }
    GivesLater(s, es, log, read, j);
  }

  // ---------------------------------------------------------------------
  // The try-lock fails
  // ---------------------------------------------------------------------

  /** In the wait path, and not woken. */
  predicate EmptyWait(c: Control) {
    || c.cl == CL_TEST_EMPTY
    || CL_WAIT_LOCK <= c.cl <= CL_RESET_FLAG
    || (c.cl == CL_TEST_FLAG && (c.readlineInactive || c.waitTest))
    || c.cl == CL_BLOCKED || c.cl == CL_EXPIRED
    || (c.cl == CL_TEST_RESULT && c.waitTest)
    || CL_COUNT_OUT <= c.cl <= CL_RETURN
  }

  predicate EmptyHanded(s: State, max: nat, log: seq<Read>) {
    SameReader(s.r, max, log) && EmptyWait(s.c)
  }

  predicate SameReader(r: Reader, max: nat, log: seq<Read>) {
    r.max == max && r.log == log && r.dst == []
  }

  /** The call has returned with nothing. */
  predicate ReturnedNothing(s: State, max: nat, log: seq<Read>) {
    s.c.cl == CL_IDLE && s.r.log == log + [Read(max, [])]
  }

  lemma WaitStaysEmpty(c: Control)
    requires OnLines(c) && EmptyWait(c) && WaitControl(c).Some?
    ensures EmptyWait(WaitControl(c).value)
  {
  }

  lemma CountStaysEmpty(c: Control)
    requires OnLines(c) && EmptyWait(c) && CountControl(c).Some?
    ensures EmptyWait(CountControl(c).value)
  {
  }

  lemma SignalStaysEmpty(c: Control)
    requires OnLines(c) && EmptyWait(c) && SignalControl(c).Some?
    ensures var t := SignalControl(c).value; if c.cl == CL_RETURN then t.cl == CL_IDLE else EmptyWait(t)
  {
  }

  lemma EmptyWaitGoesOn(c: Control)
    requires OnLines(c) && EmptyWait(c) && ClientControl(c, c.cl == CL_TEST_EMPTY).Some?
    ensures var t := ClientControl(c, c.cl == CL_TEST_EMPTY).value;
            if c.cl == CL_RETURN then t.cl == CL_IDLE else EmptyWait(t)
  {
    if c.cl == CL_TEST_EMPTY {
      assert ClientControl(c, true).value.cl == CL_WAIT_LOCK;
    } else if c.cl <= CL_TEST_RESULT {
      WaitStaysEmpty(c);
    } else if c.cl <= CL_TEST_LAST {
      CountStaysEmpty(c);
    } else {
      SignalStaysEmpty(c);
    }
  }

  lemma EmptyHandedMemory(c: Control, m: Memory, r: Reader, max: nat, log: seq<Read>)
    requires EmptyWait(c) && SameReader(r, max, log)
    ensures ClientTest(c.cl, m, r) == (c.cl == CL_TEST_EMPTY)
    ensures c.cl != CL_RETURN ==> ClientMemory(c.cl, m, r) == r
    ensures c.cl == CL_RETURN ==> ClientMemory(c.cl, m, r).log == log + [Read(max, [])]
  {
  }

  lemma EmptyHandedIo(c: Control, more: bool)
    requires EmptyWait(c) && AtTakenLock(c) && IoControl(c, more).Some?
    ensures EmptyWait(IoControl(c, more).value)
  {
    IoMoves(c, more);
  }

  /** While the client is asleep the schedule lets the deadline pass at once. */
  lemma EmptyHandedStep(s: State, max: nat, log: seq<Read>)
    requires Inv(s) && EmptyHanded(s, max, log) && Step(s, Helpful(s)).Some?
    ensures var t := Step(s, Helpful(s)).value; EmptyHanded(t, max, log) || ReturnedNothing(t, max, log)
  {
    if s.c.cl != CL_BLOCKED {
      EmptyHandedMemory(s.c, s.m, s.r, max, log);
      if ClientRun(s).Some? {
        EmptyWaitGoesOn(s.c);
      } else {
        BlockedAtLock(s.c, ClientTest(s.c.cl, s.m, s.r));
        EmptyHandedIo(s.c, s.m.k < |s.m.next|);
      }
    }
  }

  /** No prefix of the run but the whole ends between calls. */
  ghost predicate NotIdleBefore(s: State, es: seq<Event>) {
    forall i :: 0 <= i < |es| && Exec(s, es[..i]).Some? ==> Exec(s, es[..i]).value.c.cl != CL_IDLE
  }

  lemma NotIdleLonger(s: State, e: Event, es: seq<Event>)
    requires s.c.cl != CL_IDLE && Step(s, e).Some? && NotIdleBefore(Step(s, e).value, es)
    ensures NotIdleBefore(s, [e] + es)
  {
    var all := [e] + es;
    forall i | 0 <= i < |all| && Exec(s, all[..i]).Some?
      ensures Exec(s, all[..i]).value.c.cl != CL_IDLE
    {
      if i > 0 {
        assert all[..i] == [e] + es[..i - 1];
        Prepend(s, e, es[..i - 1]);
      }
    }
  }

  lemma {:induction false} EmptyHandedReturns(s: State, max: nat, log: seq<Read>) returns (es: seq<Event>)
    requires Inv(s) && EmptyHanded(s, max, log)
    ensures NoInput(es) && Returns(s, es) && NotIdleBefore(s, es)
    ensures Exec(s, es).value.r.log == log + [Read(max, [])]
    decreases Fuel(s)
  {
    HelpfulStep(s);
    EmptyHandedStep(s, max, log);
    var t, more := Step(s, Helpful(s)).value, [];
    if t.c.cl != CL_IDLE {
      more := EmptyHandedReturns(t, max, log);
    }
    Prepend(s, Helpful(s), more);
    NotIdleLonger(s, Helpful(s), more);
    es := [Helpful(s)] + more;
  }

  // ---------------------------------------------------------------------
  // Exactly
  // ---------------------------------------------------------------------

  lemma NewestPartIsNotEmpty(s: State)
    requires Inv(s) && s.m.pub != [] && s.r.max > 0
    ensures Clip(s.r.max, s.m.pub[|s.m.pub| - 1]) != []
  {
    FrameWellFormed(s.m.rx);
    assert WellFormedLine(Frame(s.m.rx).lines[|s.m.pub| - 1]);
  }

  ghost predicate GivesNothing(s: State, es: seq<Event>, r: Reader) {
    NoInput(es) && Returns(s, es) && Gives(s, es, r.log, Read(r.max, []))
  }

  lemma LockedGives(s: State, es: seq<Event>)
    requires Inv(s) && s.c.cl == CL_TRY_USER && s.c.user == Free && Unread(s)
    requires Step(s, Go).Some? && Returns(Step(s, Go).value, es)
    ensures Gives(Step(s, Go).value, es, s.r.log, Read(s.r.max, Clip(s.r.max, s.m.pub[|s.m.pub| - 1])))
  {
    InvStep(s, Go);
    FetchedIsGiven(Step(s, Go).value, es, s.r.max, s.r.log, s.m.pub[|s.m.pub| - 1]);
  }

  lemma LastsDiffer(log: seq<Read>, a: Read, b: Read)
    requires a != b
    ensures log + [a] != log + [b]
  {
    assert (log + [a])[|log|] == a;
  }

  lemma OtherwiseNothing(s: State) returns (es: seq<Event>)
    requires Inv(s) && s.c.cl == CL_TRY_USER && s.c.user != Free && Step(s, Go).Some?
    ensures Returns(Step(s, Go).value, es)
    ensures forall data: seq<byte> :: data != [] ==>
              !Gives(Step(s, Go).value, es, s.r.log, Read(s.r.max, data))
    ensures GivesNothing(Step(s, Go).value, es, s.r)
  {
    InvStep(s, Go);
    var t := Step(s, Go).value;
    es := EmptyHandedReturns(t, s.r.max, s.r.log);
    assert es[..|es|] == es;
    assert GivesAt(t, es, |es|, s.r.log, Read(s.r.max, []));
    forall data: seq<byte>, i: nat | data != []
      ensures !GivesAt(t, es, i, s.r.log, Read(s.r.max, data))
    {
      LastsDiffer(s.r.log, Read(s.r.max, data), Read(s.r.max, []));
    }
  }

  /** A line published before the try-lock of line 435, and not loaded yet: the call
      gives its part of the newest such line in every run in which it returns, if
      and only if the try-lock succeeds. Otherwise some run without input returns
      nothing. */
  lemma UnreadIsGivenIffLocked(s: State)
    requires Reachable(s) && s.c.cl == CL_TRY_USER && Unread(s)
    ensures Step(s, Go).Some?
    ensures var t, line := Step(s, Go).value, s.m.pub[|s.m.pub| - 1];
            s.c.user == Free <==> forall es: seq<Event> :: Returns(t, es) ==>
              Gives(t, es, s.r.log, Read(s.r.max, Clip(s.r.max, line)))
    ensures s.c.user != Free ==> exists es: seq<Event> :: GivesNothing(Step(s, Go).value, es, s.r)
  {
    InvReachable(s);
    var t := Step(s, Go).value;
    if s.c.user == Free {
      forall es: seq<Event> | Returns(t, es)
        ensures Gives(t, es, s.r.log, Read(s.r.max, Clip(s.r.max, s.m.pub[|s.m.pub| - 1])))
      {
        LockedGives(s, es);
      }
    } else {
      NewestPartIsNotEmpty(s);
      var es := OtherwiseNothing(s);
    }
  }

  /** It does happen that it fails with a line to be read. */
  lemma UnreadCanBeMissed() returns (s: State)
    ensures Reachable(s) && s.c.variant == AsWritten && s.c.cl == CL_TRY_USER && Unread(s) && s.c.user == Io
  {
    s := ReaderMade();
    var none: seq<byte>, lines: seq<seq<byte>> := [], [];
    assert none + [NUL] == [NUL] && lines + [[NUL]] == [[NUL]];
    s := Reach(s, IoByte(NEWLINE), IO_LOCK_USER, CL_IDLE);
    s := Reach(s, IoGo, IO_BUMP, CL_IDLE);
    s := Reach(s, IoGo, IO_SET_SIZE, CL_IDLE);
    s := Reach(s, Call(8), IO_SET_SIZE, CL_TRY_USER);
  }

  // ---------------------------------------------------------------------
  // The wait path
  // ---------------------------------------------------------------------

  /** What happens to a call in progress but for the threads' own steps: a wait may
      end, or refuse its deadline. */
  lemma OutsideLeaves(s: State, e: Event)
    requires s.c.cl != CL_IDLE && e != Go && e != IoGo && Step(s, e).Some?
    ensures var t := Step(s, e).value; t.r == s.r && t.m.pub == s.m.pub
    ensures var c := Step(s, e).value.c;
            c.cl == s.c.cl || (s.c.cl == CL_BLOCKED && (c.cl == CL_NOTIFIED || (c.cl == CL_EXPIRED && e == Expire)))
    ensures Step(s, e).value.c.waitTest == s.c.waitTest || (s.c.cl == CL_TEST_FLAG && e == BadDeadline)
  {
    match e
    case IoByte(_) =>
    case IoSpurious =>
    case _ =>
  }

  /** Past a wait that failed. */
  predicate Barren(s: State, max: nat, log: seq<Read>) {
    && SameReader(s.r, max, log)
    && ((s.c.cl == CL_TEST_RESULT && s.c.waitTest) || CL_COUNT_OUT <= s.c.cl <= CL_RETURN)
  }

  lemma CountGoesOn(c: Control)
    requires OnLines(c) && CL_COUNT_OUT <= c.cl <= CL_TEST_LAST && CountControl(c).Some?
    ensures CL_COUNT_OUT <= CountControl(c).value.cl <= CL_RETURN
  {
  }

  lemma EndGoesOn(c: Control)
    requires OnLines(c) && CL_COUNT_OUT <= c.cl <= CL_RETURN && ClientControl(c, false).Some?
    ensures var t := ClientControl(c, false).value;
            if c.cl == CL_RETURN then t.cl == CL_IDLE else CL_COUNT_OUT <= t.cl <= CL_RETURN
  {
    if c.cl <= CL_TEST_LAST {
      CountGoesOn(c);
    }
  }

  lemma BarrenControl(c: Control)
    requires OnLines(c) && ClientControl(c, false).Some?
    requires (c.cl == CL_TEST_RESULT && c.waitTest) || CL_COUNT_OUT <= c.cl <= CL_RETURN
    ensures var t := ClientControl(c, false).value;
            if c.cl == CL_RETURN then t.cl == CL_IDLE else CL_COUNT_OUT <= t.cl <= CL_RETURN
  {
    if c.cl != CL_TEST_RESULT {
      EndGoesOn(c);
    }
  }

  lemma BarrenStep(s: State, e: Event, max: nat, log: seq<Read>)
    requires Inv(s) && Barren(s, max, log) && Step(s, e).Some?
    ensures var t := Step(s, e).value; Barren(t, max, log) || ReturnedNothing(t, max, log)
  {
    match e
    case IoGo => IoLeavesWaitTest(s.c, s.m.k < |s.m.next|);
    case Go => BarrenControl(s.c);
    case _ => OutsideLeaves(s, e);
  }

  lemma IoLeavesWaitTest(c: Control, more: bool)
    requires IoControl(c, more).Some?
    ensures var t := IoControl(c, more).value;
            t.waitTest == c.waitTest && (c.cl != CL_BLOCKED ==> t.cl == c.cl)
  {
  }

  lemma {:induction false} BarrenReturns(s: State, es: seq<Event>, max: nat, log: seq<Read>)
    requires Inv(s) && Barren(s, max, log) && Returns(s, es)
    ensures Gives(s, es, log, Read(max, []))
    decreases |es|
  {
    var t := Step(s, es[0]).value;
    BarrenStep(s, es[0], max, log);
    InvStep(s, es[0]);
    var j: nat := 0;
    if Barren(t, max, log) {
      BarrenReturns(t, es[1..], max, log);
      j :| GivesAt(t, es[1..], j, log, Read(max, []));
    } else {
      assert GivesAt(t, es[1..], 0, log, Read(max, []));
    }
    GivesLater(s, es, log, Read(max, []), j);
  }

  /** Past the loop of lines 458-460, exactly: if the wait did not fail the call gives
      its part of the newest line, which is not empty, in every run in which it
      returns; if it failed the call gives nothing. */
  lemma WaitGivesIffWoken(s: State, es: seq<Event>)
    requires Reachable(s) && s.c.cl == CL_TEST_RESULT && Returns(s, es)
    ensures s.c.waitTest ==> Gives(s, es, s.r.log, Read(s.r.max, []))
    ensures !s.c.waitTest ==>
              && s.m.pub != []
              && var data := Clip(s.r.max, s.m.pub[|s.m.pub| - 1]);
              && data != [] && Gives(s, es, s.r.log, Read(s.r.max, data))
  {
    InvReachable(s);
    if s.c.waitTest {
      BarrenReturns(s, es, s.r.max, s.r.log);
    } else {
      NewestPartIsNotEmpty(s);
      FetchedIsGiven(s, es, s.r.max, s.r.log, s.m.pub[|s.m.pub| - 1]);
    }
  }

  // ---------------------------------------------------------------------
  // Without a timeout
  // ---------------------------------------------------------------------

  predicate NoTimeout(es: seq<Event>) {
    forall i :: 0 <= i < |es| ==> es[i] != Expire && es[i] != BadDeadline
  }

  /** In a call whose deadline has not passed. */
  predicate Hopeful(c: Control, r: Reader) {
    || CL_TRY_USER <= c.cl <= CL_RESET_FLAG
    || ((c.cl == CL_TEST_FLAG || c.cl == CL_TEST_RESULT) && !c.waitTest)
    || c.cl == CL_BLOCKED || c.cl == CL_NOTIFIED
    || LoadingUnlocked(c.cl)
    || (CL_COUNT_OUT <= c.cl <= CL_RETURN && r.dst != [])
  }

  lemma HopefulWait(c: Control, r: Reader)
    requires ControlInv(c) && Hopeful(c, r) && WaitControl(c).Some?
    ensures Hopeful(WaitControl(c).value, r)
  {
  }

  lemma HopefulFast(c: Control, r: Reader, yes: bool)
    requires OnLines(c) && Hopeful(c, r) && FastControl(c, yes).Some?
    requires c.cl == CL_TEST_EMPTY ==> yes == (r.dst == [])
    ensures Hopeful(FastControl(c, yes).value, r)
  {
  }

  lemma HopefulEnd(c: Control, r: Reader)
    requires OnLines(c) && Hopeful(c, r) && c.cl >= CL_COUNT_OUT && ClientControl(c, false).Some?
    ensures var t := ClientControl(c, false).value; if c.cl == CL_RETURN then t.cl == CL_IDLE else Hopeful(t, r)
    ensures r.dst != []
  {
    EndGoesOn(c);
  }

  lemma HopefulClient(s: State)
    requires Inv(s) && Hopeful(s.c, s.r) && ClientRun(s).Some?
    ensures var t := ClientRun(s).value;
            if s.c.cl == CL_RETURN
            then t.c.cl == CL_IDLE && s.r.dst != [] && t.r.log == s.r.log + [Read(s.r.max, s.r.dst)]
            else Hopeful(t.c, t.r) && t.r.log == s.r.log && t.r.max == s.r.max
  {
    if CL_FAST_ID <= s.c.cl <= CL_FAST_COPY || LoadingUnlocked(s.c.cl) {
      if LoadingBytes(s.c.cl) && |s.r.dst| >= s.r.want {
        LoadHoldsNewest(s);
      }
    } else if s.c.cl <= CL_TEST_EMPTY {
      HopefulFast(s.c, s.r, ClientTest(s.c.cl, s.m, s.r));
    } else if s.c.cl <= CL_TEST_RESULT {
      HopefulWait(s.c, s.r);
    } else {
      HopefulEnd(s.c, s.r);
    }
  }

  lemma HopefulIo(c: Control, r: Reader, more: bool)
    requires Hopeful(c, r) && IoControl(c, more).Some?
    ensures Hopeful(IoControl(c, more).value, r)
  {
    IoLeavesWaitTest(c, more);
    IoMoves(c, more);
  }

  lemma HopefulStep(s: State, e: Event)
    requires Inv(s) && Hopeful(s.c, s.r) && e != Expire && e != BadDeadline && Step(s, e).Some?
    ensures var t := Step(s, e).value;
            if e == Go && s.c.cl == CL_RETURN
            then t.c.cl == CL_IDLE && s.r.dst != [] && t.r.log == s.r.log + [Read(s.r.max, s.r.dst)]
            else Hopeful(t.c, t.r) && t.r.log == s.r.log && t.r.max == s.r.max
  {
    match e
    case IoGo => HopefulIo(s.c, s.r, s.m.k < |s.m.next|);
    case Go => HopefulClient(s);
    case _ => OutsideLeaves(s, e);
  }

  lemma {:induction false} HopefulReturns(s: State, es: seq<Event>) returns (data: seq<byte>)
    requires Inv(s) && Hopeful(s.c, s.r) && NoTimeout(es) && Returns(s, es)
    ensures data != [] && Gives(s, es, s.r.log, Read(s.r.max, data))
    decreases |es|
  {
    var t := Step(s, es[0]).value;
    HopefulStep(s, es[0]);
    InvStep(s, es[0]);
    var j: nat := 0;
    if es[0] == Go && s.c.cl == CL_RETURN {
      data := s.r.dst;
      assert GivesAt(t, es[1..], 0, s.r.log, Read(s.r.max, data));
    } else {
      data := HopefulReturns(t, es[1..]);
      j :| GivesAt(t, es[1..], j, s.r.log, Read(s.r.max, data));
    }
    GivesLater(s, es, s.r.log, Read(s.r.max, data), j);
  }

  /** Only a deadline makes a call give nothing: in every run in which none passes
      or is refused, whatever else happens, the call gives something when it returns. */
  lemma NothingOnlyOnTimeout(s: State, es: seq<Event>)
    requires Reachable(s) && s.c.cl == CL_TRY_USER && NoTimeout(es) && Returns(s, es)
    ensures exists data: seq<byte> :: data != [] && Gives(s, es, s.r.log, Read(s.r.max, data))
  {
    InvReachable(s);
    var data := HopefulReturns(s, es);
  }

  // ---------------------------------------------------------------------
  // A waiting reader is served
  // ---------------------------------------------------------------------

  /** The threads' own steps: no deadline passes. */
  predicate Patient(es: seq<Event>) {
    forall i :: 0 <= i < |es| ==> es[i] == Go || es[i] == IoGo
  }

  /** A complete line is on its way to a reader asleep at line 459. */
  predicate OnItsWay(c: Control) {
    && c.cl == CL_BLOCKED
    && (if c.io == IO_BROADCAST then !c.readlineInactive
        else c.readlineInactive && IO_LOCK_USER <= c.io <= IO_WAKE && c.io != IO_UNLOCK_IDLE)
  }

  predicate Woken(c: Control) {
    !c.readlineInactive && (c.cl == CL_NOTIFIED || (c.cl == CL_TEST_FLAG && !c.waitTest))
  }

  predicate IsLine(s: State, line: seq<byte>) {
    if s.c.io == IO_LOCK_USER || s.c.io == IO_BUMP then s.m.next == line
    else s.m.pub != [] && s.m.pub[|s.m.pub| - 1] == line
  }

  /** The call will give its part of this line. */
  predicate Pending(s: State, max: nat, log: seq<Read>, line: seq<byte>) {
    || (SameReader(s.r, max, log) && IsLine(s, line) && (OnItsWay(s.c) || Woken(s.c)))
    || (SameCall(s, max, log, line) && Fetching(s))
    || (s.r.max == max && s.r.log == log && Leaving(s, s.r) && s.r.dst == Clip(max, line))
  }

  lemma ComesNearer(c: Control, more: bool)
    requires ControlInv(c) && OnItsWay(c)
    ensures IoControl(c, more).Some?
    ensures var t := IoControl(c, more).value; OnItsWay(t) || (Woken(t) && t.io == IO_UNLOCK_LINE)
  {
    if IO_LOCK_LINE <= c.io <= IO_BROADCAST {
    } else if IO_BUMP <= c.io <= IO_TEST_READERS {
    }
  }

  lemma StaysWoken(c: Control, more: bool)
    requires ControlInv(c) && Woken(c) && IoControl(c, more).Some?
    ensures Woken(IoControl(c, more).value)
    ensures c.io >= IO_BROADCAST
  {
    if c.io != IO_BROADCAST {
      IoLeavesClient(c, more);
    }
  }

  lemma WokenLoads(c: Control)
    requires ControlInv(c) && Woken(c) && ClientControl(c, false).Some?
    ensures var t := ClientControl(c, false).value; Woken(t) || (t.cl == CL_TEST_RESULT && !t.waitTest)
  {
  }

  lemma PendingIo(s: State, max: nat, log: seq<Read>, line: seq<byte>)
    requires Inv(s) && SameReader(s.r, max, log) && IsLine(s, line) && (OnItsWay(s.c) || Woken(s.c))
    requires IoRun(s).Some?
    ensures Pending(IoRun(s).value, max, log, line)
  {
    var more := s.m.k < |s.m.next|;
    IoMoves(s.c, more);
    if OnItsWay(s.c) {
      ComesNearer(s.c, more);
    } else {
      StaysWoken(s.c, more);
    }
  }

  lemma PendingClient(s: State, max: nat, log: seq<Read>, line: seq<byte>)
    requires Inv(s) && SameReader(s.r, max, log) && IsLine(s, line) && (OnItsWay(s.c) || Woken(s.c))
    requires ClientRun(s).Some?
    ensures Pending(ClientRun(s).value, max, log, line)
  {
    assert Woken(s.c);
    assert ClientTest(s.c.cl, s.m, s.r) == false && ClientMemory(s.c.cl, s.m, s.r) == s.r;
    WokenLoads(s.c);
  }

  lemma PendingStep(s: State, e: Event, max: nat, log: seq<Read>, line: seq<byte>)
    requires Inv(s) && Pending(s, max, log, line) && (e == Go || e == IoGo) && Step(s, e).Some?
    ensures var t := Step(s, e).value;
            Pending(t, max, log, line) || (t.c.cl == CL_IDLE && t.r.log == log + [Read(max, Clip(max, line))])
  {
    if OnItsWay(s.c) || Woken(s.c) {
      if e == IoGo {
        PendingIo(s, max, log, line);
      } else {
        PendingClient(s, max, log, line);
      }
    } else if Fetching(s) && SameCall(s, max, log, line) {
      FetchingStep(s, e, max, log, line);
    } else {
      LeavingStep(s, e);
    }
  }

  lemma {:induction false} PendingRun(s: State, es: seq<Event>, max: nat, log: seq<Read>, line: seq<byte>)
    requires Inv(s) && Pending(s, max, log, line) && Patient(es) && Exec(s, es).Some?
    ensures Gives(s, es, log, Read(max, Clip(max, line))) || Pending(Exec(s, es).value, max, log, line)
    decreases |es|
  {
    if es != [] {
      var read := Read(max, Clip(max, line));
      var t := Step(s, es[0]).value;
      PendingStep(s, es[0], max, log, line);
      InvStep(s, es[0]);
      if Pending(t, max, log, line) {
        PendingRun(t, es[1..], max, log, line);
        if Gives(t, es[1..], log, read) {
          var j: nat :| GivesAt(t, es[1..], j, log, read);
          GivesLater(s, es, log, read, j);
        }
      } else {
        assert GivesAt(t, es[1..], 0, log, read);
        GivesLater(s, es, log, read, 0);
      }
    }
  }

  lemma PendingGoesOn(s: State, max: nat, log: seq<Read>, line: seq<byte>)
    requires Inv(s) && Pending(s, max, log, line)
    ensures Step(s, Go).Some? || Step(s, IoGo).Some?
  {
    if OnItsWay(s.c) {
      ComesNearer(s.c, s.m.k < |s.m.next|);
    } else {
      HelpfulStep(s);
    }
  }

  /** A reader asleep at line 459 when the last byte of a line arrives gets its part
      of that line: under every schedule, unless its deadline passes. */
  lemma WaitingReaderIsServed(s: State, es: seq<Event>)
    requires Reachable(s) && s.c.cl == CL_BLOCKED && s.c.io == IO_LOCK_USER
    requires Patient(es) && Exec(s, es).Some?
    ensures |es| <= Fuel(s)
    ensures Step(Exec(s, es).value, Go).None? && Step(Exec(s, es).value, IoGo).None? ==>
              Gives(s, es, s.r.log, Read(s.r.max, Clip(s.r.max, s.m.next)))
  {
    InvReachable(s);
    RunsAreFinite(s, es);
    InvExec(s, es);
    PendingRun(s, es, s.r.max, s.r.log, s.m.next);
    if Pending(Exec(s, es).value, s.r.max, s.r.log, s.m.next) {
      PendingGoesOn(Exec(s, es).value, s.r.max, s.r.log, s.m.next);
    }
  }

  // ---------------------------------------------------------------------
  // Every call
  // ---------------------------------------------------------------------

  /** In the call, or back from it with one more result, of at most max bytes. */
  predicate OnceOrBack(s: State, max: nat, log: seq<Read>) {
    || (InRead(s.c.cl) && s.r.max == max && s.r.log == log)
    || (s.c.cl == CL_IDLE && |s.r.log| == |log| + 1 && s.r.log[..|log|] == log
        && s.r.log[|log|].max == max && |s.r.log[|log|].data| <= max)
  }

  lemma OnceOrBackClient(s: State, max: nat, log: seq<Read>)
    requires Inv(s) && OnceOrBack(s, max, log) && ClientRun(s).Some?
    ensures OnceOrBack(ClientRun(s).value, max, log)
  {
    ClientKeepsControl(s.c, ClientTest(s.c.cl, s.m, s.r));
    ReadGoesOn(s.c, ClientTest(s.c.cl, s.m, s.r));
  }

  lemma FastStaysInRead(c: Control, yes: bool)
    requires FastControl(c, yes).Some?
    ensures InRead(FastControl(c, yes).value.cl)
  {
  }

  lemma LoadStaysInRead(c: Control, more: bool)
    requires LoadControl(c, more).Some?
    ensures InRead(LoadControl(c, more).value.cl)
  {
  }

  lemma WaitStaysInRead(c: Control)
    requires WaitControl(c).Some?
    ensures InRead(WaitControl(c).value.cl)
  {
  }

  lemma ReadGoesOn(c: Control, yes: bool)
    requires ControlInv(c) && InRead(c.cl) && ClientControl(c, yes).Some?
    ensures var cl := ClientControl(c, yes).value.cl; if c.cl == CL_RETURN then cl == CL_IDLE else InRead(cl)
  {
    if CL_FAST_ID <= c.cl <= CL_FAST_COPY || LoadingUnlocked(c.cl) {
      LoadStaysInRead(c, yes);
    } else if c.cl <= CL_TEST_EMPTY {
      FastStaysInRead(c, yes);
    } else if c.cl <= CL_TEST_RESULT {
      WaitStaysInRead(c);
    } else {
      assert ClientControl(c, yes) == ClientControl(c, false);
      EndGoesOn(c);
    }
  }

  lemma OnceOrBackStep(s: State, e: Event, max: nat, log: seq<Read>)
    requires Inv(s) && OnceOrBack(s, max, log) && Internal(e) && Step(s, e).Some?
    ensures OnceOrBack(Step(s, e).value, max, log)
  {
    match e
    case IoGo => IoMoves(s.c, s.m.k < |s.m.next|);
    case Go => OnceOrBackClient(s, max, log);
    case _ =>
  }

  lemma {:induction false} OnceOrBackRun(s: State, es: seq<Event>, max: nat, log: seq<Read>)
    requires Inv(s) && OnceOrBack(s, max, log) && NoInput(es) && Exec(s, es).Some?
    ensures OnceOrBack(Exec(s, es).value, max, log)
    decreases |es|
  {
    if es != [] {
      OnceOrBackStep(s, es[0], max, log);
      InvStep(s, es[0]);
      OnceOrBackRun(Step(s, es[0]).value, es[1..], max, log);
    }
  }

  /** A call of sp_read can be made whenever there is a reader and no other call, and
      under every schedule it returns exactly once, with at most max bytes; one
      without room at once, and nothing else has changed. */
  lemma EveryReadReturnsOnce(s: State, max: nat, es: seq<Event>)
    requires Reachable(s) && s.c.cl == CL_IDLE && s.c.readers > 0
    ensures Step(s, Call(max)).Some?
    ensures max == 0 ==> Step(s, Call(max)).value.(r := s.r) == s
    ensures Maximal(Step(s, Call(max)).value, es) ==>
              var t := Exec(Step(s, Call(max)).value, es).value;
              && t.c.cl == CL_IDLE && |t.r.log| == |s.r.log| + 1 && t.r.log[..|s.r.log|] == s.r.log
              && t.r.log[|s.r.log|].max == max && |t.r.log[|s.r.log|].data| <= max
  {
    InvReachable(s);
    InvStep(s, Call(max));
    var t := Step(s, Call(max)).value;
    if Maximal(t, es) {
      MaximalRunReturns(t, es);
      OnceOrBackRun(t, es, max, s.r.log);
    }
  }

  /** The other calls can be made then as well; a second reader is not given. */
  lemma EveryCallCanBeMade(s: State)
    requires Reachable(s) && s.c.cl == CL_IDLE
    ensures Step(s, Send).Some? && Step(s, Create).Some?
    ensures s.c.created > s.c.destroyed ==> Step(s, Destroy).Some? && Step(s, Purge).Some? && Step(s, Create) == Some(s)
  {
    InvReachable(s);
  }
}
