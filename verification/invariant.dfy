/** What every step of the handshake keeps. */
module Invariant {
  import opened Common
  import opened Framing
  import opened Handshake

  // ---------------------------------------------------------------------
  // Regions of the two programs
  // ---------------------------------------------------------------------

  predicate IoHasUser(p: Position) {
    IO_BUMP <= p <= IO_UNLOCK_USER
  }

  predicate IoHasLine(p: Position) {
    IO_TEST_WAITING <= p <= IO_UNLOCK_LINE
  }

  predicate IoHasDone(p: Position) {
    p == IO_ARM || p == IO_TEST_DONE || p == IO_UNLOCK_DONE
  }

  /** The shared line is being overwritten. */
  predicate Writing(p: Position) {
    p == IO_SET_SIZE || p == IO_COPY
  }

  /** A line is published and no reader has been told of it yet. */
  predicate BeforeWake(p: Position) {
    IO_SET_SIZE <= p <= IO_WAKE
  }

  predicate InDoneLoop(p: Position) {
    IO_TEST_DONE <= p <= IO_ROUSED
  }

  /** From the broadcast until the I/O thread may leave the second rendezvous. */
  predicate Rendezvous(c: Control) {
    || ((c.io == IO_BROADCAST || c.io == IO_UNLOCK_LINE || c.io == IO_LOCK_DONE || c.io == IO_ARM)
        && (c.variant == ArmFirst ==> c.readdoneInactive))
    || (InDoneLoop(c.io) && c.readdoneInactive)
  }

  predicate ClHasUser(p: Position) {
    || CL_SNAPSHOT <= p <= CL_CREATE_UNLOCK
    || CL_DROP_READER <= p <= CL_DESTROY_UNLOCK
    || CL_PURGE_SNAPSHOT <= p <= CL_PURGE_UNLOCK
    || CL_TEST_FRESH <= p <= CL_UNLOCK_FAST
    || CL_SEND_WRITE <= p <= CL_SEND_UNLOCK
  }

  predicate ClHasLine(p: Position) {
    CL_COUNT_IN <= p <= CL_TEST_FLAG || CL_TEST_RESULT <= p <= CL_WAIT_UNLOCK
  }

  predicate ClHasDone(p: Position) {
    CL_CLEAR_FLAG <= p <= CL_SIGNAL_UNLOCK
  }

  /** Asleep in, or just out of, the timed wait; the mutex is not held. */
  predicate Asleep(p: Position) {
    CL_TEST_FLAG < p < CL_TEST_RESULT
  }

  /** In sub_loadread, called from the wait path. */
  predicate LoadingUnlocked(p: Position) {
    CL_WAIT_ID <= p <= CL_WAIT_COPY
  }

  /** Between lines 455 and 464. */
  predicate CountedIn(p: Position) {
    CL_RESET_FLAG <= p <= CL_COUNT_OUT
  }

  /** In the wait path, before it loads. */
  predicate BeforeLoad(p: Position) {
    CL_TEST_FLAG <= p <= CL_WAIT_ID
  }

  /** The reader has been woken for the current line and owes the I/O thread a
      signal: it is past line 457 and not yet past line 470. */
  predicate Owes(c: Control) {
    CL_TEST_FLAG <= c.cl <= CL_CLEAR_FLAG && !c.readlineInactive
  }

  predicate InRead(p: Position) {
    CL_TRY_USER <= p <= CL_RETURN
  }

  predicate UsesReader(p: Position) {
    || p == CL_CREATE_UNLOCK || CL_PURGE_LOCK <= p <= CL_PURGE_UNLOCK
    || CL_DESTROY_LOCK <= p <= CL_DROP_READER
  }

  /** Inside sp_read, where a load may be under way or done. */
  predicate MayHoldData(p: Position) {
    InRead(p) && !(p <= CL_FAST_ID) && !(CL_WAIT_LOCK <= p <= CL_WAIT_ID)
  }

  /** In the middle of sub_loadread, past its first line. */
  predicate LoadingSize(p: Position) {
    p == CL_FAST_SIZE || p == CL_WAIT_SIZE
  }

  predicate LoadingBytes(p: Position) {
    p == CL_FAST_COPY || p == CL_WAIT_COPY
  }

  // Positions are never between two lines

  predicate IoPosition(p: Position) {
    || p == IO_BOOT_FLAG || p == IO_BOOT_ID || p == IO_RECEIVE || p == IO_LOCK_USER || p == IO_BUMP
    || p == IO_SET_SIZE || p == IO_COPY || p == IO_TEST_READERS || p == IO_LOCK_LINE || p == IO_TEST_WAITING
    || p == IO_UNLOCK_IDLE || p == IO_WAKE || p == IO_BROADCAST || p == IO_UNLOCK_LINE || p == IO_LOCK_DONE
    || p == IO_ARM || p == IO_TEST_DONE || p == IO_PARKED || p == IO_ROUSED || p == IO_UNLOCK_DONE
    || p == IO_UNLOCK_USER
  }

  predicate ReadPosition(p: Position) {
    || p == CL_TRY_USER || p == CL_TEST_FRESH || p == CL_FAST_ID || p == CL_FAST_SIZE || p == CL_FAST_COPY
    || p == CL_UNLOCK_FAST || p == CL_TEST_EMPTY || p == CL_WAIT_LOCK || p == CL_COUNT_IN || p == CL_RESET_FLAG
    || p == CL_TEST_FLAG || p == CL_BLOCKED || p == CL_NOTIFIED || p == CL_EXPIRED || p == CL_TEST_RESULT
    || p == CL_WAIT_ID || p == CL_WAIT_SIZE || p == CL_WAIT_COPY || p == CL_COUNT_OUT || p == CL_SAMPLE
    || p == CL_WAIT_UNLOCK || p == CL_TEST_LAST || p == CL_SIGNAL_LOCK || p == CL_CLEAR_FLAG || p == CL_SIGNAL
    || p == CL_SIGNAL_UNLOCK || p == CL_RETURN
  }

  predicate OtherPosition(p: Position) {
    || p == CL_IDLE || p == CL_CREATE_LOCK || p == CL_SNAPSHOT || p == CL_ADD_READER || p == CL_CREATE_UNLOCK
    || p == CL_DESTROY_LOCK || p == CL_DROP_READER || p == CL_DESTROY_UNLOCK || p == CL_PURGE_LOCK
    || p == CL_PURGE_SNAPSHOT || p == CL_PURGE_UNLOCK || p == CL_SEND_LOCK || p == CL_SEND_WRITE
    || p == CL_SEND_UNLOCK
  }

  /** Each thread stands at a line of its program. */
  ghost predicate OnLines(c: Control) {
    IoPosition(c.io) && (ReadPosition(c.cl) || OtherPosition(c.cl))
  }

  predicate AtUserLock(cl: Position) {
    cl == CL_CREATE_LOCK || cl == CL_DESTROY_LOCK || cl == CL_PURGE_LOCK || cl == CL_SEND_LOCK
  }

  /** A step of the client inside a call goes forward, but for the loops of lines
      394 and 458-460, or returns. It never starts another call. */
  ghost predicate Onward(c: Control, t: Control) {
    && !AtUserLock(t.cl)
    && (|| t.cl == CL_IDLE || c.cl < t.cl || (t == c && LoadingBytes(c.cl))
        || (t.cl == CL_TEST_FLAG && (c.cl == CL_NOTIFIED || (c.cl == CL_EXPIRED && t.waitTest))))
    && (c.cl == CL_TEST_FLAG ==> t.cl == (if c.readlineInactive && !c.waitTest then CL_BLOCKED else CL_TEST_RESULT))
  }

  /** Likewise for the I/O thread, until it waits for input. */
  ghost predicate IoOnward(c: Control, t: Control) {
    || t.io == IO_RECEIVE || (c.io < t.io && t.io != IO_ROUSED) || (t == c && c.io == IO_COPY)
    || (c.io == IO_ROUSED && t.io == IO_TEST_DONE)
  }

  // ---------------------------------------------------------------------
  // The invariant of the control state
  // ---------------------------------------------------------------------

  ghost predicate Mutexes(c: Control) {
    && (c.user == Io <==> IoHasUser(c.io)) && (c.user == Client <==> ClHasUser(c.cl))
    && (c.line == Io <==> IoHasLine(c.io)) && (c.line == Client <==> ClHasLine(c.cl))
    && (c.done == Io <==> IoHasDone(c.io)) && (c.done == Client <==> ClHasDone(c.cl))
  }

  ghost predicate Counters(c: Control) {
    && c.waiting == (if CountedIn(c.cl) then 1 else 0)
    && c.readers == c.created - c.destroyed
    && 0 <= c.readers <= 1
    && (InRead(c.cl) || UsesReader(c.cl) ==> c.readers == 1)
    && (CL_CREATE_LOCK <= c.cl <= CL_ADD_READER || c.cl == CL_DESTROY_UNLOCK ==> c.readers == 0)
    && (CL_WAIT_UNLOCK <= c.cl <= CL_TEST_LAST ==> c.sample == 0)
    && (IO_LOCK_LINE <= c.io <= IO_UNLOCK_DONE ==> c.readers == 1)
  }

  /** Who may be where while a line is handed over. */
  ghost predicate HandOver(c: Control) {
    && (IO_WAKE <= c.io <= IO_UNLOCK_LINE ==> Asleep(c.cl))
    && (Owes(c) ==> Rendezvous(c))
    && (Rendezvous(c) ==> Owes(c) || (c.early && c.variant == AsWritten))
    && (c.early && Rendezvous(c) ==> !Owes(c))
    && (LoadingUnlocked(c.cl) || (c.cl == CL_TEST_RESULT && !c.waitTest) ==> !c.readlineInactive)
    && (c.io == IO_PARKED && !c.readdoneInactive ==> c.cl == CL_SIGNAL)
  }

  ghost predicate ControlInv(c: Control) {
    OnLines(c) && Mutexes(c) && Counters(c) && HandOver(c)
  }

  lemma OuterKeeps(c: Control)
    requires ControlInv(c) && OuterControl(c).Some?
    ensures var t := OuterControl(c).value; OnLines(t)
    ensures var t := OuterControl(c).value; Mutexes(t)
    ensures var t := OuterControl(c).value; Counters(t)
    ensures var t := OuterControl(c).value; HandOver(t)
    ensures IoOnward(c, OuterControl(c).value)
  {
    match c.io
    case IO_BOOT_FLAG =>
    case IO_BOOT_ID =>
    case IO_LOCK_USER =>
    case IO_UNLOCK_USER =>
    case _ =>
  }

  lemma PublishKeeps(c: Control, more: bool)
    requires ControlInv(c) && PublishControl(c, more).Some?
    ensures var t := PublishControl(c, more).value; OnLines(t)
    ensures var t := PublishControl(c, more).value; Mutexes(t)
    ensures var t := PublishControl(c, more).value; Counters(t)
    ensures var t := PublishControl(c, more).value; HandOver(t)
    ensures IoOnward(c, PublishControl(c, more).value)
  {
    match c.io
    case IO_BUMP =>
    case IO_SET_SIZE =>
    case IO_COPY =>
    case IO_TEST_READERS =>
    case _ =>
  }

  lemma WakeKeeps(c: Control)
    requires ControlInv(c) && WakeControl(c).Some?
    ensures var t := WakeControl(c).value; OnLines(t)
    ensures var t := WakeControl(c).value; Mutexes(t)
    ensures var t := WakeControl(c).value; Counters(t)
    ensures var t := WakeControl(c).value; HandOver(t)
    ensures IoOnward(c, WakeControl(c).value)
  {
    match c.io
    case IO_LOCK_LINE =>
    case IO_TEST_WAITING =>
    case IO_UNLOCK_IDLE =>
    case IO_WAKE =>
    case IO_BROADCAST =>
    case IO_UNLOCK_LINE =>
    case _ =>
  }

  lemma DoneKeeps(c: Control)
    requires ControlInv(c) && DoneControl(c).Some?
    ensures var t := DoneControl(c).value; OnLines(t)
    ensures var t := DoneControl(c).value; Mutexes(t)
    ensures var t := DoneControl(c).value; Counters(t)
    ensures var t := DoneControl(c).value; HandOver(t)
    ensures IoOnward(c, DoneControl(c).value)
  {
    match c.io
    case IO_LOCK_DONE =>
    case IO_ARM =>
    case IO_TEST_DONE =>
    case IO_ROUSED =>
    case IO_UNLOCK_DONE =>
    case _ =>
  }

  lemma CreateKeeps(c: Control)
    requires ControlInv(c) && c.cl <= CL_CREATE_UNLOCK && ReaderControl(c).Some?
    ensures var t := ReaderControl(c).value; OnLines(t)
    ensures var t := ReaderControl(c).value; Mutexes(t)
    ensures var t := ReaderControl(c).value; Counters(t)
    ensures var t := ReaderControl(c).value; HandOver(t)
    ensures Onward(c, ReaderControl(c).value)
  {
    match c.cl
    case CL_CREATE_LOCK =>
    case CL_SNAPSHOT =>
    case CL_ADD_READER =>
    case CL_CREATE_UNLOCK =>
    case _ =>
  }

  lemma DestroyKeeps(c: Control)
    requires ControlInv(c) && CL_DESTROY_LOCK <= c.cl <= CL_DESTROY_UNLOCK && ReaderControl(c).Some?
    ensures var t := ReaderControl(c).value; OnLines(t)
    ensures var t := ReaderControl(c).value; Mutexes(t)
    ensures var t := ReaderControl(c).value; Counters(t)
    ensures var t := ReaderControl(c).value; HandOver(t)
    ensures Onward(c, ReaderControl(c).value)
  {
    match c.cl
    case CL_DESTROY_LOCK =>
    case CL_DROP_READER =>
    case CL_DESTROY_UNLOCK =>
    case _ =>
  }

  lemma PurgeKeeps(c: Control)
    requires ControlInv(c) && CL_PURGE_LOCK <= c.cl <= CL_PURGE_UNLOCK && ReaderControl(c).Some?
    ensures var t := ReaderControl(c).value; OnLines(t)
    ensures var t := ReaderControl(c).value; Mutexes(t)
    ensures var t := ReaderControl(c).value; Counters(t)
    ensures var t := ReaderControl(c).value; HandOver(t)
    ensures Onward(c, ReaderControl(c).value)
  {
    match c.cl
    case CL_PURGE_LOCK =>
    case CL_PURGE_SNAPSHOT =>
    case CL_PURGE_UNLOCK =>
    case _ =>
  }

  lemma FastKeeps(c: Control, yes: bool)
    requires ControlInv(c) && FastControl(c, yes).Some?
    ensures var t := FastControl(c, yes).value; OnLines(t)
    ensures var t := FastControl(c, yes).value; Mutexes(t)
    ensures var t := FastControl(c, yes).value; Counters(t)
    ensures var t := FastControl(c, yes).value; HandOver(t)
    ensures Onward(c, FastControl(c, yes).value)
  {
    match c.cl
    case CL_TRY_USER =>
      if c.user == Free {
        assert FastControl(c, yes).value == c.(user := Client, cl := CL_TEST_FRESH);
      }
    case CL_TEST_FRESH =>
    case CL_UNLOCK_FAST =>
    case CL_TEST_EMPTY =>
    case _ =>
  }

  lemma LoadKeeps(c: Control, more: bool)
    requires ControlInv(c) && LoadControl(c, more).Some?
    ensures var t := LoadControl(c, more).value; OnLines(t)
    ensures var t := LoadControl(c, more).value; Mutexes(t)
    ensures var t := LoadControl(c, more).value; Counters(t)
    ensures var t := LoadControl(c, more).value; HandOver(t)
    ensures Onward(c, LoadControl(c, more).value)
  {
    match c.cl
    case CL_FAST_ID =>
    case CL_FAST_SIZE =>
    case CL_FAST_COPY =>
    case CL_WAIT_ID =>
    case CL_WAIT_SIZE =>
    case CL_WAIT_COPY =>
    case _ =>
  }

  lemma WaitKeeps(c: Control)
    requires ControlInv(c) && c.cl <= CL_RESET_FLAG && WaitControl(c).Some?
    ensures var t := WaitControl(c).value; OnLines(t)
    ensures var t := WaitControl(c).value; Mutexes(t)
    ensures var t := WaitControl(c).value; Counters(t)
    ensures var t := WaitControl(c).value; HandOver(t)
    ensures Onward(c, WaitControl(c).value)
  {
    match c.cl
    case CL_WAIT_LOCK =>
    case CL_COUNT_IN =>
    case CL_RESET_FLAG =>
    case _ =>
  }

  lemma SleepKeeps(c: Control)
    requires ControlInv(c) && c.cl >= CL_TEST_FLAG && WaitControl(c).Some?
    ensures var t := WaitControl(c).value; OnLines(t)
    ensures var t := WaitControl(c).value; Mutexes(t)
    ensures var t := WaitControl(c).value; Counters(t)
    ensures var t := WaitControl(c).value; HandOver(t)
    ensures Onward(c, WaitControl(c).value)
  {
    match c.cl
    case CL_TEST_FLAG =>
    case CL_NOTIFIED =>
    case CL_EXPIRED =>
    case CL_TEST_RESULT =>
    case _ =>
  }

  lemma CountKeeps(c: Control)
    requires ControlInv(c) && CountControl(c).Some?
    ensures var t := CountControl(c).value; OnLines(t)
    ensures var t := CountControl(c).value; Mutexes(t)
    ensures var t := CountControl(c).value; Counters(t)
    ensures var t := CountControl(c).value; HandOver(t)
    ensures Onward(c, CountControl(c).value)
  {
    match c.cl
    case CL_COUNT_OUT =>
    case CL_SAMPLE =>
    case CL_WAIT_UNLOCK =>
    case CL_TEST_LAST =>
    case _ =>
  }

  lemma SignalKeeps(c: Control)
    requires ControlInv(c) && SignalControl(c).Some?
    ensures var t := SignalControl(c).value; OnLines(t)
    ensures var t := SignalControl(c).value; Mutexes(t)
    ensures var t := SignalControl(c).value; Counters(t)
    ensures var t := SignalControl(c).value; HandOver(t)
    ensures Onward(c, SignalControl(c).value)
  {
    match c.cl
    case CL_SIGNAL_LOCK =>
    case CL_CLEAR_FLAG =>
    case CL_SIGNAL =>
    case CL_SIGNAL_UNLOCK =>
    case CL_RETURN =>
    case _ =>
  }

  lemma SendKeeps(c: Control)
    requires ControlInv(c) && SendControl(c).Some?
    ensures var t := SendControl(c).value; OnLines(t)
    ensures var t := SendControl(c).value; Mutexes(t)
    ensures var t := SendControl(c).value; Counters(t)
    ensures var t := SendControl(c).value; HandOver(t)
    ensures Onward(c, SendControl(c).value)
  {
    match c.cl
    case CL_SEND_LOCK =>
    case CL_SEND_WRITE =>
    case CL_SEND_UNLOCK =>
    case _ =>
  }

  lemma EnvironmentKeeps(c: Control, e: Event)
    requires ControlInv(c) && Environment(c, e).Some?
    ensures ControlInv(Environment(c, e).value)
  {
  }

  lemma IoKeepsControl(c: Control, more: bool)
    requires ControlInv(c) && IoControl(c, more).Some?
    ensures ControlInv(IoControl(c, more).value)
    ensures IoOnward(c, IoControl(c, more).value)
  {
    if IO_LOCK_LINE <= c.io <= IO_UNLOCK_LINE {
      WakeKeeps(c);
    } else if IO_LOCK_DONE <= c.io <= IO_UNLOCK_DONE {
      DoneKeeps(c);
    } else if IO_BUMP <= c.io <= IO_TEST_READERS {
      PublishKeeps(c, more);
    } else {
      OuterKeeps(c);
    }
  }

  lemma ClientKeepsControl(c: Control, yes: bool)
    requires ControlInv(c) && ClientControl(c, yes).Some?
    ensures ControlInv(ClientControl(c, yes).value)
    ensures Onward(c, ClientControl(c, yes).value)
  {
    if c.cl <= CL_CREATE_UNLOCK {
      CreateKeeps(c);
    } else if c.cl <= CL_DESTROY_UNLOCK {
      DestroyKeeps(c);
    } else if c.cl <= CL_PURGE_UNLOCK {
      PurgeKeeps(c);
    } else if CL_FAST_ID <= c.cl <= CL_FAST_COPY || CL_WAIT_ID <= c.cl <= CL_WAIT_COPY {
      LoadKeeps(c, yes);
    } else if c.cl <= CL_TEST_EMPTY {
      FastKeeps(c, yes);
    } else if c.cl <= CL_RESET_FLAG {
      WaitKeeps(c);
    } else if c.cl <= CL_TEST_RESULT {
      SleepKeeps(c);
    } else if c.cl <= CL_TEST_LAST {
      CountKeeps(c);
    } else if c.cl <= CL_RETURN {
      SignalKeeps(c);
    } else {
      SendKeeps(c);
    }
  }

  // ---------------------------------------------------------------------
  // The invariant of memory
  // ---------------------------------------------------------------------

  /** The value of read_id after n lines. */
  function IdOf(n: nat): nat {
    (1 + n) % U32
  }

  predicate Booted(io: Position) {
    io > IO_BOOT_ID
  }

  /** The published lines are the framed lines of the bytes received. */
  ghost predicate Stream(io: Position, m: Memory) {
    && Frame(m.rx).acc == m.acc
    && Frame(m.rx).lines == (if io == IO_LOCK_USER || io == IO_BUMP then m.pub + [m.next] else m.pub)
    && (!Booted(io) ==> m.rx == [])
    && (IO_LOCK_USER <= io <= IO_COPY ==> WellFormedLine(m.next))
  }

  /** The shared line is the last one published, unless it is being written. */
  ghost predicate Shared(io: Position, m: Memory) {
    && m.readId == (if Booted(io) then IdOf(|m.pub|) else 0)
    && (!Booted(io) ==> m.pub == [])
    && (io > IO_BUMP ==> m.pub != [])
    && (Writing(io) ==> m.pub != [] && m.pub[|m.pub| - 1] == m.next)
    && (io == IO_COPY ==> m.readSize == |m.next| && m.k <= |m.next| <= RING && m.buf[..m.k] == m.next[..m.k])
    && (!Writing(io) && m.pub == [] ==> m.readSize == 0)
    && (!Writing(io) && m.pub != [] ==> m.readSize <= RING && m.buf[..m.readSize] == m.pub[|m.pub| - 1])
  }

  /** How far the reader is behind. */
  ghost predicate Progress(c: Control, m: Memory, r: Reader) {
    && r.base <= LastMark(r) <= r.seen <= |m.pub|
    && (r.lastRead == IdOf(r.seen) || (r.lastRead == 0 && r.seen == 0))
    && (!Booted(c.io) ==> r.lastRead == 0 && !(CL_FAST_ID <= c.cl <= CL_FAST_COPY))
    && (BeforeWake(c.io) ==> r.seen < |m.pub|)
    && (BeforeLoad(c.cl) && !c.readlineInactive ==> r.seen < |m.pub|)
    && (c.cl == CL_FAST_ID ==> r.lastRead != m.readId)
    && (CL_ADD_READER <= c.cl <= CL_CREATE_UNLOCK ==> r.base == |m.pub|)
  }

  /** Lines the reader had seen by the end of its last call. */
  function LastMark(r: Reader): nat {
    if r.marks == [] then r.base else r.marks[|r.marks| - 1]
  }

  /** What a call with this size limit is to give of a line. */
  function Clip(max: nat, line: seq<byte>): (r: seq<byte>)
    ensures |r| <= max && r <= line
    ensures if max >= |line| then r == line else |r| == max
  {
    line[..Min(max, |line|)]
  }

  /** The data held by the call in progress. */
  ghost predicate InHand(cl: Position, m: Memory, r: Reader) {
    && (InRead(cl) ==> r.max > 0)
    && (InRead(cl) && (!MayHoldData(cl) || LoadingSize(cl)) ==> r.dst == [])
    && (LoadingSize(cl) || LoadingBytes(cl) ==> r.seen == |m.pub| && (m.pub != [] ==> r.seen > LastMark(r)))
    && (LoadingBytes(cl) ==> r.want == Min(r.max, m.readSize) && |r.dst| <= r.want && r.dst <= m.buf)
    && (MayHoldData(cl) && !LoadingSize(cl) && !LoadingBytes(cl) && r.dst != [] ==>
          LastMark(r) < r.seen <= |m.pub| && r.dst == Clip(r.max, m.pub[r.seen - 1]))
  }

  /** The k-th call returned nothing, or its part of line marks[k] - 1, which no
      earlier call had seen. */
  ghost predicate Delivered(pub: seq<seq<byte>>, r: Reader, k: nat)
    requires k < |r.log| == |r.marks|
  {
    var before := if k == 0 then r.base else r.marks[k - 1];
    && before <= r.marks[k] <= |pub|
    && (r.log[k].data != [] ==>
          before < r.marks[k] && r.log[k].data == Clip(r.log[k].max, pub[r.marks[k] - 1]))
  }

  ghost predicate Deliveries(pub: seq<seq<byte>>, r: Reader) {
    && |r.log| == |r.marks|
    && forall k :: 0 <= k < |r.log| ==> Delivered(pub, r, k)
  }

  ghost predicate MemoryInv(s: State) {
    && Stream(s.c.io, s.m) && Shared(s.c.io, s.m)
    && Progress(s.c, s.m, s.r) && InHand(s.c.cl, s.m, s.r) && Deliveries(s.m.pub, s.r)
  }

  ghost predicate Inv(s: State) {
    ControlInv(s.c) && MemoryInv(s)
  }

  lemma InitControl(variant: Variant, garbage: Buffer)
    ensures OnLines(Init(variant, garbage).c)
    ensures Mutexes(Init(variant, garbage).c)
    ensures Counters(Init(variant, garbage).c)
    ensures HandOver(Init(variant, garbage).c)
  {
  }

  lemma InitMemory(variant: Variant, garbage: Buffer)
    ensures MemoryInv(Init(variant, garbage))
  {
  }

  lemma InvInit(variant: Variant, garbage: Buffer)
    ensures Inv(Init(variant, garbage))
  {
    InitControl(variant, garbage);
    InitMemory(variant, garbage);
  }

  /** Buffer stability: while a client is inside sub_loadread, on either path, the
      I/O thread is not between lines 609 and 611. On the wait path it holds
      user_mutex and stands between the broadcast and the end of its second wait. */
  lemma LoadIsStable(c: Control)
    requires ControlInv(c)
    ensures CL_FAST_ID <= c.cl <= CL_FAST_COPY ==> !IoHasUser(c.io)
    ensures LoadingUnlocked(c.cl) ==> c.user == Io && Rendezvous(c)
    ensures CL_FAST_ID <= c.cl <= CL_FAST_COPY || LoadingUnlocked(c.cl) ==>
              !Writing(c.io) && c.io != IO_BUMP
  {
  }

  // The I/O thread

  /** All that a step from c to t by the I/O thread does to the parts of the
      control state that memory depends on. more: line 611 has bytes left. */
  ghost predicate IoMove(c: Control, more: bool, t: Control) {
    && (t.cl == c.cl || (c.cl == CL_BLOCKED && t.cl == CL_NOTIFIED))
    && (Booted(t.io) <==> Booted(c.io) || c.io == IO_BOOT_ID)
    && (BeforeWake(t.io) ==> BeforeWake(c.io) || c.io == IO_BUMP)
    && (!t.readlineInactive ==> !c.readlineInactive || c.io == IO_WAKE)
    && (t.io > IO_BUMP ==> c.io >= IO_BUMP)
    && t.io != IO_LOCK_USER
    && (t.io == IO_BUMP <==> c.io == IO_LOCK_USER)
    && (t.io == IO_SET_SIZE <==> c.io == IO_BUMP)
    && (t.io == IO_COPY <==> c.io == IO_SET_SIZE || (c.io == IO_COPY && more))
    && (IO_LOCK_USER <= t.io <= IO_COPY ==> IO_LOCK_USER <= c.io <= IO_COPY)
  }

  lemma IoMoves(c: Control, more: bool)
    requires IoControl(c, more).Some?
    ensures IoMove(c, more, IoControl(c, more).value)
  {
    if c.io <= IO_LOCK_USER {
    } else if c.io <= IO_TEST_READERS {
    } else if c.io <= IO_UNLOCK_LINE {
    }
  }

  lemma IoKeepsStream(c: Control, more: bool, t: Control, m: Memory)
    requires IoMove(c, more, t) && Stream(c.io, m)
    ensures Stream(t.io, IoMemory(c.io, m))
  {
  }

  lemma IoKeepsShared(c: Control, t: Control, m: Memory)
    requires IoMove(c, m.k < |m.next|, t) && Stream(c.io, m) && Shared(c.io, m)
    ensures Shared(t.io, IoMemory(c.io, m))
  {
  }

  lemma IoKeepsProgress(c: Control, more: bool, t: Control, m: Memory, r: Reader)
    requires ControlInv(c) && IoMove(c, more, t)
    requires Shared(c.io, m) && Progress(c, m, r)
    ensures Progress(t, IoMemory(c.io, m), r)
  {
  }

  lemma IoKeepsInHand(c: Control, more: bool, t: Control, m: Memory, r: Reader)
    requires ControlInv(c) && IoMove(c, more, t)
    requires Shared(c.io, m) && InHand(c.cl, m, r)
    ensures InHand(t.cl, IoMemory(c.io, m), r)
  {
    LoadIsStable(c);
  }

  lemma IoKeepsDeliveries(p: Position, m: Memory, r: Reader)
    requires Deliveries(m.pub, r)
    ensures Deliveries(IoMemory(p, m).pub, r)
  {
    forall k | 0 <= k < |r.log|
      ensures Delivered(IoMemory(p, m).pub, r, k)
    {
      assert Delivered(m.pub, r, k);
    }
  }

  lemma IoRunKeeps(s: State)
    requires Inv(s) && IoRun(s).Some?
    ensures Inv(IoRun(s).value)
  {
    var t, more := IoRun(s).value, s.m.k < |s.m.next|;
    IoKeepsControl(s.c, more);
    IoMoves(s.c, more);
    IoKeepsStream(s.c, more, t.c, s.m);
    IoKeepsShared(s.c, t.c, s.m);
    IoKeepsProgress(s.c, more, t.c, s.m, s.r);
    IoKeepsInHand(s.c, more, t.c, s.m, s.r);
    IoKeepsDeliveries(s.c.io, s.m, s.r);
  }

  lemma LineCompleteKeeps(c: Control)
    requires ControlInv(c) && c.io == IO_RECEIVE
    ensures ControlInv(c.(io := IO_LOCK_USER))
  {
  }

  lemma IoReceiveStream(s: State, b: byte)
    requires Stream(s.c.io, s.m) && IoReceive(s, b).Some?
    ensures var t := IoReceive(s, b).value; Stream(t.c.io, t.m)
  {
    var t := IoReceive(s, b).value;
    FrameSnoc(s.m.rx, b);
    FrameWellFormed(t.m.rx);
    if t.c.io == IO_LOCK_USER {
      assert Frame(t.m.rx).lines == t.m.pub + [t.m.next];
      assert t.m.next == Frame(t.m.rx).lines[|t.m.pub|];
    }
  }

  lemma IoReceiveMemory(s: State, b: byte)
    requires MemoryInv(s) && IoReceive(s, b).Some?
    ensures MemoryInv(IoReceive(s, b).value)
  {
    var t := IoReceive(s, b).value;
    IoReceiveStream(s, b);
    assert Shared(t.c.io, t.m);
    assert Progress(t.c, t.m, t.r);
    assert InHand(t.c.cl, t.m, t.r);
    assert Deliveries(t.m.pub, t.r);
  }

  lemma IoReceiveKeeps(s: State, b: byte)
    requires Inv(s) && IoReceive(s, b).Some?
    ensures Inv(IoReceive(s, b).value)
  {
    LineCompleteKeeps(s.c);
    IoReceiveMemory(s, b);
  }

  // The client thread

  /** What a step from c to t by the client does to the parts of the control
      state that memory depends on. yes: the outcome of a test on memory. */
  ghost predicate LoadMove(c: Control, yes: bool, t: Control) {
    && (t.cl == CL_FAST_ID <==> c.cl == CL_TEST_FRESH && yes)
    && (t.cl == CL_FAST_SIZE <==> c.cl == CL_FAST_ID)
    && (t.cl == CL_WAIT_SIZE <==> c.cl == CL_WAIT_ID)
    && (t.cl == CL_FAST_COPY <==> c.cl == CL_FAST_SIZE || (c.cl == CL_FAST_COPY && yes))
    && (t.cl == CL_WAIT_COPY <==> c.cl == CL_WAIT_SIZE || (c.cl == CL_WAIT_COPY && yes))
    && (InRead(t.cl) ==> InRead(c.cl))
    && (MayHoldData(t.cl) && !MayHoldData(c.cl) ==>
          c.cl < CL_FAST_ID || LoadingSize(t.cl) || c.cl == CL_TEST_RESULT)
    && (MayHoldData(c.cl) && !MayHoldData(t.cl) ==> c.cl == CL_RETURN || (c.cl == CL_TEST_EMPTY && yes))
    && (c.cl == CL_RETURN ==> t.cl == CL_IDLE)
  }

  ghost predicate WaitMove(c: Control, t: Control) {
    && t.variant == c.variant
    && (t.io == c.io || (c.io == IO_PARKED && t.io == IO_ROUSED))
    && (!t.readlineInactive ==> !c.readlineInactive)
    && (BeforeLoad(t.cl) && !t.readlineInactive ==> BeforeLoad(c.cl))
    && (CL_ADD_READER <= t.cl <= CL_CREATE_UNLOCK ==> c.cl == CL_SNAPSHOT || c.cl == CL_ADD_READER)
    && (CL_CREATE_LOCK <= t.cl <= CL_SNAPSHOT ==> c.cl == CL_CREATE_LOCK)
  }

  lemma EarlyLoadMoves(c: Control, yes: bool)
    requires c.cl <= CL_TEST_EMPTY && ClientControl(c, yes).Some?
    ensures LoadMove(c, yes, ClientControl(c, yes).value)
  {
    if c.cl <= CL_PURGE_UNLOCK {
    } else if CL_FAST_ID <= c.cl <= CL_FAST_COPY {
    } else if c.cl <= CL_TEST_FRESH {
    }
  }

  lemma ReaderWaitMoves(c: Control)
    requires ReaderControl(c).Some?
    ensures WaitMove(c, ReaderControl(c).value)
  {
  }

  lemma EarlyWaitMoves(c: Control, yes: bool)
    requires c.cl <= CL_TEST_EMPTY && ClientControl(c, yes).Some?
    ensures WaitMove(c, ClientControl(c, yes).value)
  {
    if c.cl <= CL_PURGE_UNLOCK {
      ReaderWaitMoves(c);
    } else if CL_FAST_ID <= c.cl <= CL_FAST_COPY {
    } else if c.cl <= CL_TEST_FRESH {
    }
  }

  lemma LateLoadMoves(c: Control, yes: bool)
    requires c.cl > CL_TEST_EMPTY && ClientControl(c, yes).Some?
    ensures LoadMove(c, yes, ClientControl(c, yes).value)
  {
    if c.cl <= CL_RESET_FLAG {
    } else if c.cl <= CL_TEST_FLAG {
    } else if c.cl <= CL_TEST_RESULT {
    } else if c.cl <= CL_WAIT_COPY {
    } else if c.cl <= CL_TEST_LAST {
    } else if c.cl <= CL_RETURN {
    }
  }

  lemma LateWaitMoves(c: Control, yes: bool)
    requires c.cl > CL_TEST_EMPTY && ClientControl(c, yes).Some?
    ensures WaitMove(c, ClientControl(c, yes).value)
  {
    if c.cl <= CL_RESET_FLAG {
    } else if c.cl <= CL_TEST_FLAG {
    } else if c.cl <= CL_TEST_RESULT {
    } else if c.cl <= CL_WAIT_COPY {
    } else if c.cl <= CL_TEST_LAST {
    } else if c.cl <= CL_RETURN {
    }
  }

  lemma ClientMoves(c: Control, yes: bool)
    requires ClientControl(c, yes).Some?
    ensures LoadMove(c, yes, ClientControl(c, yes).value)
    ensures WaitMove(c, ClientControl(c, yes).value)
  {
    if c.cl <= CL_TEST_EMPTY {
      EarlyLoadMoves(c, yes);
      EarlyWaitMoves(c, yes);
    } else {
      LateLoadMoves(c, yes);
      LateWaitMoves(c, yes);
    }
  }

  /** A load begins only when there is something new, or nothing at all. */
  lemma LoadIsFresh(c: Control, m: Memory, r: Reader)
    requires ControlInv(c) && Shared(c.io, m) && Progress(c, m, r)
    ensures c.cl == CL_FAST_ID || c.cl == CL_WAIT_ID ==> m.pub == [] || r.seen < |m.pub|
  {
  }

  lemma ClientKeepsProgress(c: Control, t: Control, m: Memory, r: Reader)
    requires ControlInv(c) && Shared(c.io, m) && Progress(c, m, r)
    requires LoadMove(c, ClientTest(c.cl, m, r), t) && WaitMove(c, t)
    ensures Progress(t, m, ClientMemory(c.cl, m, r))
  {
    LoadIsStable(c);
  }

  lemma ClientKeepsInHand(c: Control, t: Control, m: Memory, r: Reader)
    requires ControlInv(c) && Shared(c.io, m) && Progress(c, m, r) && InHand(c.cl, m, r)
    requires LoadMove(c, ClientTest(c.cl, m, r), t)
    ensures InHand(t.cl, m, ClientMemory(c.cl, m, r))
  {
    LoadIsStable(c);
    LoadIsFresh(c, m, r);
    if LoadingBytes(c.cl) && r.dst != [] {
      assert r.dst == m.buf[..m.readSize][..|r.dst|];
    }
  }

  lemma ClientKeepsDeliveries(cl: Position, m: Memory, r: Reader)
    requires InHand(cl, m, r) && Deliveries(m.pub, r)
    requires r.base <= LastMark(r) <= r.seen <= |m.pub|
    ensures Deliveries(m.pub, ClientMemory(cl, m, r))
  {
    var r' := ClientMemory(cl, m, r);
    forall k | 0 <= k < |r'.log|
      ensures Delivered(m.pub, r', k)
    {
      if k < |r.log| {
        assert Delivered(m.pub, r, k);
      }
    }
  }

  lemma ClientRunKeeps(s: State)
    requires Inv(s) && ClientRun(s).Some?
    ensures Inv(ClientRun(s).value)
  {
    var t, yes := ClientRun(s).value, ClientTest(s.c.cl, s.m, s.r);
    ClientKeepsControl(s.c, yes);
    ClientMoves(s.c, yes);
    ClientKeepsProgress(s.c, t.c, s.m, s.r);
    ClientKeepsInHand(s.c, t.c, s.m, s.r);
    ClientKeepsDeliveries(s.c.cl, s.m, s.r);
  }

  // Calls and whole runs

  lemma CallKeepsControl(c: Control)
    requires ControlInv(c) && c.cl == CL_IDLE && c.readers > 0
    ensures ControlInv(c.(cl := CL_TRY_USER))
  {
  }

  lemma CallReadKeeps(s: State, max: nat)
    requires Inv(s) && s.c.cl == CL_IDLE && s.c.readers > 0
    ensures Inv(CallRead(s, max))
  {
    var t := CallRead(s, max);
    CallKeepsControl(s.c);
    forall k | 0 <= k < |t.r.log|
      ensures Delivered(t.m.pub, t.r, k)
    {
      if k < |s.r.log| {
        assert Delivered(s.m.pub, s.r, k);
      }
    }
    assert Progress(t.c, t.m, t.r);
    assert InHand(t.c.cl, t.m, t.r);
  }

  lemma EnvironmentKeepsMemory(s: State, e: Event)
    requires Inv(s) && Environment(s.c, e).Some?
    ensures MemoryInv(s.(c := Environment(s.c, e).value))
  {
    var t := s.(c := Environment(s.c, e).value);
    assert Stream(t.c.io, t.m);
    assert Shared(t.c.io, t.m);
    assert Progress(t.c, t.m, t.r);
    assert InHand(t.c.cl, t.m, t.r);
  }

  /** Every step of every interleaving keeps the invariant. */
  lemma InvStep(s: State, e: Event)
    requires Inv(s) && Step(s, e).Some?
    ensures Inv(Step(s, e).value)
  {
    match e
    case IoGo => IoRunKeeps(s);
    case IoByte(b) => IoReceiveKeeps(s, b);
    case Go => ClientRunKeeps(s);
    case Call(max) => CallReadKeeps(s, max);
    case _ =>
      EnvironmentKeeps(s.c, e);
      EnvironmentKeepsMemory(s, e);
  }

  lemma {:induction false} InvExec(s: State, es: seq<Event>)
    requires Inv(s) && Exec(s, es).Some?
    ensures Inv(Exec(s, es).value)
    decreases |es|
  {
    if es != [] {
      InvStep(s, es[0]);
      InvExec(Step(s, es[0]).value, es[1..]);
    }
  }

  lemma InvReachable(s: State)
    requires Reachable(s)
    ensures Inv(s)
  {
    var garbage: Buffer, es :| Exec(Init(s.c.variant, garbage), es) == Some(s);
    InvInit(s.c.variant, garbage);
    InvExec(Init(s.c.variant, garbage), es);
  }
}
