/** The socket reader handshake as a step system: the I/O thread of sp_iothread
    and one client thread calling the reader API, interleaved one shared access
    at a time. Line numbers in comments are those of main/sockpush.c.

    Mutexes have owners. A wait on a condition variable is a state of its own:
    it releases the mutex, may end by a signal, a spurious wakeup or (timed) by
    expiry, and must win the mutex back before it returns, as POSIX.1-2017 says
    of pthread_cond_timedwait. A copy is one step per byte. */
module Handshake {
  import opened Common
  import opened Framing

  datatype Owner = Free | Io | Client

  /** Where a thread stands: ten times the line it is about to execute, plus a
      number for the steps within one line. */
  type Position = int

  const IO_BOOT_FLAG: Position := 5690  // readline_inactive = true
  const IO_BOOT_ID: Position := 5700  // read_buf, read_size, read_id
  const IO_RECEIVE: Position := 5950  // read one byte, outside every mutex
  const IO_LOCK_USER: Position := 6080  // lock user_mutex
  const IO_BUMP: Position := 6090  // read_id++
  const IO_SET_SIZE: Position := 6100  // read_size =
  const IO_COPY: Position := 6110  // memcpy, byte by byte
  const IO_TEST_READERS: Position := 6260  // readers > 0?
  const IO_LOCK_LINE: Position := 6270  // lock readline_mutex
  const IO_TEST_WAITING: Position := 6280  // waiting_readers <= 0?
  const IO_UNLOCK_IDLE: Position := 6290  // unlock readline_mutex, nobody waits
  const IO_WAKE: Position := 6320  // readline_inactive = false
  const IO_BROADCAST: Position := 6330  // broadcast readline_cond
  const IO_UNLOCK_LINE: Position := 6340  // unlock readline_mutex
  const IO_LOCK_DONE: Position := 6360  // lock readdone_mutex
  const IO_ARM: Position := 6370  // readdone_inactive = true
  const IO_TEST_DONE: Position := 6380  // readdone_inactive?
  const IO_PARKED: Position := 6390  // inside pthread_cond_wait
  const IO_ROUSED: Position := 6391  // woken, readdone_mutex not yet won back
  const IO_UNLOCK_DONE: Position := 6410  // unlock readdone_mutex
  const IO_UNLOCK_USER: Position := 6460  // unlock user_mutex

  const CL_IDLE: Position := 0  // between calls
  const CL_CREATE_LOCK: Position := 3410  // sp_reader_create: lock user_mutex
  const CL_SNAPSHOT: Position := 3450  // last_read = read_id
  const CL_ADD_READER: Position := 3480  // readers++
  const CL_CREATE_UNLOCK: Position := 3520  // unlock user_mutex
  const CL_DESTROY_LOCK: Position := 3650  // sp_reader_destroy: lock user_mutex
  const CL_DROP_READER: Position := 3660  // readers--
  const CL_DESTROY_UNLOCK: Position := 3670  // unlock user_mutex
  const CL_PURGE_LOCK: Position := 3780  // sp_reader_purge: lock user_mutex
  const CL_PURGE_SNAPSHOT: Position := 3790  // last_read = read_id
  const CL_PURGE_UNLOCK: Position := 3800  // unlock user_mutex
  const CL_TRY_USER: Position := 4350  // sp_read: trylock user_mutex
  const CL_TEST_FRESH: Position := 4360  // last_read != read_id?
  const CL_FAST_ID: Position := 4370  // sub_loadread at 437: last_read = read_id (389)
  const CL_FAST_SIZE: Position := 4371  // clamp to read_size (391-393)
  const CL_FAST_COPY: Position := 4372  // memcpy, byte by byte (394)
  const CL_UNLOCK_FAST: Position := 4390  // unlock user_mutex
  const CL_TEST_EMPTY: Position := 4450  // rc == 0?
  const CL_WAIT_LOCK: Position := 4540  // lock readline_mutex
  const CL_COUNT_IN: Position := 4550  // waiting_readers++
  const CL_RESET_FLAG: Position := 4560  // wait_test = 0, readline_inactive = true (456-457)
  const CL_TEST_FLAG: Position := 4580  // readline_inactive and wait_test == 0?
  const CL_BLOCKED: Position := 4590  // inside pthread_cond_timedwait
  const CL_NOTIFIED: Position := 4591  // woken, readline_mutex not yet won back
  const CL_EXPIRED: Position := 4592  // timed out, readline_mutex not yet won back
  const CL_TEST_RESULT: Position := 4610  // wait_test == 0?
  const CL_WAIT_ID: Position := 4620  // sub_loadread at 462: last_read = read_id (389)
  const CL_WAIT_SIZE: Position := 4621  // clamp to read_size (391-393)
  const CL_WAIT_COPY: Position := 4622  // memcpy, byte by byte (394)
  const CL_COUNT_OUT: Position := 4640  // waiting_readers, guarded decrement
  const CL_SAMPLE: Position := 4650  // waiting_readers copied
  const CL_WAIT_UNLOCK: Position := 4660  // unlock readline_mutex
  const CL_TEST_LAST: Position := 4680  // last waiting reader?
  const CL_SIGNAL_LOCK: Position := 4690  // lock readdone_mutex
  const CL_CLEAR_FLAG: Position := 4700  // readdone_inactive = false
  const CL_SIGNAL: Position := 4710  // signal readdone_cond
  const CL_SIGNAL_UNLOCK: Position := 4720  // unlock readdone_mutex
  const CL_RETURN: Position := 4820  // return rc
  const CL_SEND_LOCK: Position := 4920  // sub_write: lock user_mutex
  const CL_SEND_WRITE: Position := 4930  // write (493-500)
  const CL_SEND_UNLOCK: Position := 5130  // unlock user_mutex

  /** ArmFirst is a repair, for contrast: readdone_inactive is set together with
      readline_inactive at line 632 and not at line 637. */
  datatype Variant = AsWritten | ArmFirst

  /** Program counters, mutexes, flags and counters. created, destroyed and
      early are history; early says that line 470 came before line 637. */
  datatype Control = Control(
    variant: Variant,
    user: Owner, line: Owner, done: Owner,
    readlineInactive: bool, readdoneInactive: bool,
    waiting: nat, readers: int,
    io: Position, cl: Position, waitTest: bool, sample: nat,
    created: nat, destroyed: nat, early: bool
  )

  /** linebuf; what it holds before the first line is arbitrary. */
  type Buffer = s: seq<byte> | |s| == RING witness seq(RING, i => 0)

  /** What only the I/O thread writes: the shared line, the copy in progress, the
      bytes being framed, and the history of bytes received and lines published. */
  datatype Memory = Memory(
    readId: nat, readSize: nat, buf: Buffer,
    k: nat, acc: seq<byte>, next: seq<byte>,
    rx: seq<byte>, pub: seq<seq<byte>>
  )

  /** The outcome of one sp_read call: its size limit and the bytes it gave. */
  datatype Read = Read(max: nat, data: seq<byte>)

  /** What only the client writes: the reader, the call in progress, and as
      history the lines published when the reader last loaded (seen) or was made
      (base), the calls returned, and the value of seen at each return. */
  datatype Reader = Reader(
    lastRead: nat,
    max: nat, want: nat, dst: seq<byte>,
    seen: nat, base: nat, log: seq<Read>, marks: seq<nat>
  )

  datatype State = State(c: Control, m: Memory, r: Reader)

  function Init(variant: Variant, garbage: Buffer): State {
    State(Control(variant, Free, Free, Free, false, false, 0, 0, IO_BOOT_FLAG, CL_IDLE, false, 0, 0, 0, false),
          Memory(0, 0, garbage, 0, [], [], [], []),
          Reader(0, 0, 0, [], 0, 0, [], []))
  }

  // ---------------------------------------------------------------------
  // The I/O thread
  // ---------------------------------------------------------------------

  /** Starting up, and taking and leaving user_mutex around each line (569-572, 608, 646). */
  function OuterControl(c: Control): Option<Control> {
    match c.io
    case IO_BOOT_FLAG => Some(c.(readlineInactive := true, io := IO_BOOT_ID))
    case IO_BOOT_ID => Some(c.(io := IO_RECEIVE))
    case IO_LOCK_USER => if c.user == Free then Some(c.(user := Io, io := IO_BUMP)) else None
    case IO_UNLOCK_USER => Some(c.(user := Free, io := IO_RECEIVE))
    case _ => None
  }

  /** Publishing a line (609-626). more: line 611 has bytes left to copy. */
  function PublishControl(c: Control, more: bool): Option<Control> {
    match c.io
    case IO_BUMP => Some(c.(io := IO_SET_SIZE))
    case IO_SET_SIZE => Some(c.(io := IO_COPY))
    case IO_COPY => Some(c.(io := if more then IO_COPY else IO_TEST_READERS))
    case IO_TEST_READERS => Some(c.(io := if c.readers > 0 then IO_LOCK_LINE else IO_UNLOCK_USER))
    case _ => None
  }

  /** Telling a waiting reader (627-634). */
  function WakeControl(c: Control): Option<Control> {
    match c.io
    case IO_LOCK_LINE => if c.line == Free then Some(c.(line := Io, io := IO_TEST_WAITING)) else None
    case IO_TEST_WAITING => Some(c.(io := if c.waiting <= 0 then IO_UNLOCK_IDLE else IO_WAKE))
    case IO_UNLOCK_IDLE => Some(c.(line := Free, io := IO_UNLOCK_USER))
    case IO_WAKE =>
      Some(c.(readlineInactive := false, early := false, io := IO_BROADCAST,
              readdoneInactive := c.readdoneInactive || c.variant == ArmFirst))
    case IO_BROADCAST => Some(c.(cl := if c.cl == CL_BLOCKED then CL_NOTIFIED else c.cl, io := IO_UNLOCK_LINE))
    case IO_UNLOCK_LINE => Some(c.(line := Free, io := IO_LOCK_DONE))
    case _ => None
  }

  /** Waiting until the reader is done (636-641). */
  function DoneControl(c: Control): Option<Control> {
    match c.io
    case IO_LOCK_DONE => if c.done == Free then Some(c.(done := Io, io := IO_ARM)) else None
    case IO_ARM => Some(c.(readdoneInactive := c.readdoneInactive || c.variant == AsWritten, io := IO_TEST_DONE))
    case IO_TEST_DONE =>
      if c.readdoneInactive then Some(c.(done := Free, io := IO_PARKED)) else Some(c.(io := IO_UNLOCK_DONE))
    case IO_ROUSED => if c.done == Free then Some(c.(done := Io, io := IO_TEST_DONE)) else None
    case IO_UNLOCK_DONE => Some(c.(done := Free, io := IO_UNLOCK_USER))
    case _ => None
  }

  /** Where the I/O thread goes next; None while it is blocked. */
  function IoControl(c: Control, more: bool): Option<Control> {
    if IO_LOCK_LINE <= c.io <= IO_UNLOCK_LINE then WakeControl(c)
    else if IO_LOCK_DONE <= c.io <= IO_UNLOCK_DONE then DoneControl(c)
    else if IO_BUMP <= c.io <= IO_TEST_READERS then PublishControl(c, more)
    else OuterControl(c)
  }

  /** What that step does to memory. */
  function IoMemory(p: Position, m: Memory): Memory {
    match p
    case IO_BOOT_ID => m.(readSize := 0, readId := 1)
    case IO_BUMP => m.(readId := (m.readId + 1) % U32, pub := m.pub + [m.next])
    case IO_SET_SIZE => m.(readSize := |m.next|, k := 0)
    case IO_COPY => if m.k < |m.next| && m.k < RING then m.(buf := m.buf[m.k := m.next[m.k]], k := m.k + 1) else m
    case _ => m
  }

  function IoRun(s: State): Option<State> {
    match IoControl(s.c, s.m.k < |s.m.next|)
    case None => None
    case Some(c) => Some(State(c, IoMemory(s.c.io, s.m), s.r))
  }

  /** The I/O thread reads one byte from the socket. */
  function IoReceive(s: State, b: byte): Option<State> {
    if s.c.io != IO_RECEIVE then None
    else
      var f := Feed(Framer(s.m.acc, []), b);
      var m := s.m.(rx := s.m.rx + [b], acc := f.acc);
      if f.lines == [] then Some(s.(m := m))
      else Some(s.(m := m.(next := f.lines[0]), c := s.c.(io := IO_LOCK_USER)))
  }

  // ---------------------------------------------------------------------
  // The client thread
  // ---------------------------------------------------------------------

  /** sp_reader_create, sp_reader_destroy and sp_reader_purge. */
  function ReaderControl(c: Control): Option<Control> {
    match c.cl
    case CL_CREATE_LOCK => if c.user == Free then Some(c.(user := Client, cl := CL_SNAPSHOT)) else None
    case CL_SNAPSHOT => Some(c.(cl := CL_ADD_READER))
    case CL_ADD_READER => Some(c.(readers := c.readers + 1, created := c.created + 1, cl := CL_CREATE_UNLOCK))
    case CL_CREATE_UNLOCK => Some(c.(user := Free, cl := CL_IDLE))
    case CL_DESTROY_LOCK => if c.user == Free then Some(c.(user := Client, cl := CL_DROP_READER)) else None
    case CL_DROP_READER => Some(c.(readers := c.readers - 1, destroyed := c.destroyed + 1, cl := CL_DESTROY_UNLOCK))
    case CL_DESTROY_UNLOCK => Some(c.(user := Free, cl := CL_IDLE))
    case CL_PURGE_LOCK => if c.user == Free then Some(c.(user := Client, cl := CL_PURGE_SNAPSHOT)) else None
    case CL_PURGE_SNAPSHOT => Some(c.(cl := CL_PURGE_UNLOCK))
    case CL_PURGE_UNLOCK => Some(c.(user := Free, cl := CL_IDLE))
    case _ => None
  }

  /** sub_write, called by sp_sendcmd. */
  function SendControl(c: Control): Option<Control> {
    match c.cl
    case CL_SEND_LOCK => if c.user == Free then Some(c.(user := Client, cl := CL_SEND_WRITE)) else None
    case CL_SEND_WRITE => Some(c.(cl := CL_SEND_UNLOCK))
    case CL_SEND_UNLOCK => Some(c.(user := Free, cl := CL_IDLE))
    case _ => None
  }

  /** sp_read: the try-lock and the fast path (435-445). yes: the test at 436 or 445. */
  function FastControl(c: Control, yes: bool): Option<Control> {
    match c.cl
    case CL_TRY_USER =>
      if c.user == Free then Some(c.(user := Client, cl := CL_TEST_FRESH)) else Some(c.(cl := CL_TEST_EMPTY))
    case CL_TEST_FRESH => Some(c.(cl := if yes then CL_FAST_ID else CL_UNLOCK_FAST))
    case CL_UNLOCK_FAST => Some(c.(user := Free, cl := CL_TEST_EMPTY))
    case CL_TEST_EMPTY => Some(c.(cl := if yes then CL_WAIT_LOCK else CL_RETURN))
    case _ => None
  }

  /** sub_loadread, called from 437 and from 462. more: line 394 has bytes left to copy. */
  function LoadControl(c: Control, more: bool): Option<Control> {
    match c.cl
    case CL_FAST_ID => Some(c.(cl := CL_FAST_SIZE))
    case CL_FAST_SIZE => Some(c.(cl := CL_FAST_COPY))
    case CL_FAST_COPY => Some(c.(cl := if more then CL_FAST_COPY else CL_UNLOCK_FAST))
    case CL_WAIT_ID => Some(c.(cl := CL_WAIT_SIZE))
    case CL_WAIT_SIZE => Some(c.(cl := CL_WAIT_COPY))
    case CL_WAIT_COPY => Some(c.(cl := if more then CL_WAIT_COPY else CL_COUNT_OUT))
    case _ => None
  }

  /** sp_read: waiting for a line under readline_mutex (454-461). */
  function WaitControl(c: Control): Option<Control> {
    match c.cl
    case CL_WAIT_LOCK => if c.line == Free then Some(c.(line := Client, cl := CL_COUNT_IN)) else None
    case CL_COUNT_IN => Some(c.(waiting := c.waiting + 1, cl := CL_RESET_FLAG))
    case CL_RESET_FLAG => Some(c.(waitTest := false, readlineInactive := true, cl := CL_TEST_FLAG))
    case CL_TEST_FLAG =>
      if c.readlineInactive && !c.waitTest then Some(c.(line := Free, cl := CL_BLOCKED))
      else Some(c.(cl := CL_TEST_RESULT))
    case CL_NOTIFIED => if c.line == Free then Some(c.(line := Client, waitTest := false, cl := CL_TEST_FLAG)) else None
    case CL_EXPIRED => if c.line == Free then Some(c.(line := Client, waitTest := true, cl := CL_TEST_FLAG)) else None
    case CL_TEST_RESULT => Some(c.(cl := if c.waitTest then CL_COUNT_OUT else CL_WAIT_ID))
    case _ => None
  }

  /** sp_read: counting out (464-468). */
  function CountControl(c: Control): Option<Control> {
    match c.cl
    case CL_COUNT_OUT => Some(c.(waiting := if c.waiting != 0 then c.waiting - 1 else 0, cl := CL_SAMPLE))
    case CL_SAMPLE => Some(c.(sample := c.waiting, cl := CL_WAIT_UNLOCK))
    case CL_WAIT_UNLOCK => Some(c.(line := Free, cl := CL_TEST_LAST))
    case CL_TEST_LAST => Some(c.(cl := if c.sample == 0 then CL_SIGNAL_LOCK else CL_RETURN))
    case _ => None
  }

  /** sp_read: telling the I/O thread, and returning (469-482). */
  function SignalControl(c: Control): Option<Control> {
    match c.cl
    case CL_SIGNAL_LOCK => if c.done == Free then Some(c.(done := Client, cl := CL_CLEAR_FLAG)) else None
    case CL_CLEAR_FLAG =>
      Some(c.(readdoneInactive := false, early := c.early || c.io == IO_LOCK_DONE || c.io == IO_ARM, cl := CL_SIGNAL))
    case CL_SIGNAL => Some(c.(io := if c.io == IO_PARKED then IO_ROUSED else c.io, cl := CL_SIGNAL_UNLOCK))
    case CL_SIGNAL_UNLOCK => Some(c.(done := Free, cl := CL_RETURN))
    case CL_RETURN => Some(c.(cl := CL_IDLE))
    case _ => None
  }

  /** Where the client goes next inside a call; None while it is blocked.
      yes: the outcome of the test on memory made at this point, if there is one. */
  function ClientControl(c: Control, yes: bool): Option<Control> {
    if c.cl <= CL_PURGE_UNLOCK then ReaderControl(c)
    else if CL_FAST_ID <= c.cl <= CL_FAST_COPY || CL_WAIT_ID <= c.cl <= CL_WAIT_COPY then LoadControl(c, yes)
    else if c.cl <= CL_TEST_EMPTY then FastControl(c, yes)
    else if c.cl <= CL_TEST_RESULT then WaitControl(c)
    else if c.cl <= CL_TEST_LAST then CountControl(c)
    else if c.cl <= CL_RETURN then SignalControl(c)
    else SendControl(c)
  }

  /** The tests on memory: line 436, the end of the copy at 394, and rc == 0 at 445. */
  predicate ClientTest(p: Position, m: Memory, r: Reader) {
    match p
    case CL_TEST_FRESH => r.lastRead != m.readId
    case CL_FAST_COPY | CL_WAIT_COPY => |r.dst| < r.want
    case CL_TEST_EMPTY => r.dst == []
    case _ => false
  }

  /** What that step does to the reader and the call's own buffer. */
  function ClientMemory(p: Position, m: Memory, r: Reader): Reader {
    match p
    case CL_SNAPSHOT => r.(lastRead := m.readId, seen := |m.pub|, base := |m.pub|, log := [], marks := [])
    case CL_PURGE_SNAPSHOT => r.(lastRead := m.readId, seen := |m.pub|)
    case CL_FAST_ID | CL_WAIT_ID => r.(lastRead := m.readId, seen := |m.pub|)
    case CL_FAST_SIZE | CL_WAIT_SIZE => r.(want := Min(r.max, m.readSize))
    case CL_FAST_COPY | CL_WAIT_COPY =>
      if |r.dst| < r.want && |r.dst| < RING then r.(dst := r.dst + [m.buf[|r.dst|]]) else r
    case CL_RETURN => r.(log := r.log + [Read(r.max, r.dst)], marks := r.marks + [r.seen])
    case _ => r
  }

  function ClientRun(s: State): Option<State> {
    match ClientControl(s.c, ClientTest(s.c.cl, s.m, s.r))
    case None => None
    case Some(c) => Some(State(c, s.m, ClientMemory(s.c.cl, s.m, s.r)))
  }

  /** sp_read is called; without room it returns at once (line 412). */
  function CallRead(s: State, max: nat): State {
    if max == 0 then s.(r := s.r.(log := s.r.log + [Read(0, [])], marks := s.r.marks + [s.r.seen]))
    else s.(r := s.r.(max := max, dst := []), c := s.c.(cl := CL_TRY_USER))
  }

  // ---------------------------------------------------------------------
  // Interleavings
  // ---------------------------------------------------------------------

  datatype Event =
    | IoGo | IoByte(b: byte) | IoSpurious
    | Create | Destroy | Purge | Send | Call(max: nat)
    | Go
    | Spurious     // the timed wait is woken for no reason
    | Expire       // its deadline passes
    | BadDeadline  // it refuses its deadline and returns at once, mutex kept

  /** What the world may do to the control state: the client starts a call, or
      a wait ends. Only the holder of a reader purges or destroys it. */
  function Environment(c: Control, e: Event): Option<Control> {
    match e
    case IoSpurious => if c.io == IO_PARKED then Some(c.(io := IO_ROUSED)) else None
    case Create =>
      if c.cl != CL_IDLE then None
      else if c.readers < 1 then Some(c.(cl := CL_CREATE_LOCK)) else Some(c)
    case Destroy => if c.cl == CL_IDLE && c.readers > 0 then Some(c.(cl := CL_DESTROY_LOCK)) else None
    case Purge => if c.cl == CL_IDLE && c.readers > 0 then Some(c.(cl := CL_PURGE_LOCK)) else None
    case Send => if c.cl == CL_IDLE then Some(c.(cl := CL_SEND_LOCK)) else None
    case Spurious => if c.cl == CL_BLOCKED then Some(c.(cl := CL_NOTIFIED)) else None
    case Expire => if c.cl == CL_BLOCKED then Some(c.(cl := CL_EXPIRED)) else None
    case BadDeadline =>
      if c.cl == CL_TEST_FLAG && c.readlineInactive && !c.waitTest then Some(c.(waitTest := true)) else None
    case _ => None
  }

  /** The next state, or None when the event cannot happen in s. */
  function Step(s: State, e: Event): Option<State> {
    match e
    case IoGo => IoRun(s)
    case IoByte(b) => IoReceive(s, b)
    case Go => ClientRun(s)
    case Call(max) => if s.c.cl == CL_IDLE && s.c.readers > 0 then Some(CallRead(s, max)) else None
    case _ =>
      match Environment(s.c, e)
      case None => None
      case Some(c) => Some(s.(c := c))
  }

  function Exec(s: State, es: seq<Event>): Option<State>
    decreases |es|
  {
    if es == [] then Some(s)
    else match Step(s, es[0])
      case None => None
      case Some(t) => Exec(t, es[1..])
  }

  /** s can arise in some interleaving. */
  ghost predicate Reachable(s: State) {
    exists garbage: Buffer, es: seq<Event> :: Exec(Init(s.c.variant, garbage), es) == Some(s)
  }

  lemma {:induction false} ExecAppend(s: State, es: seq<Event>, fs: seq<Event>)
    requires Exec(s, es).Some?
    ensures Exec(s, es + fs) == Exec(Exec(s, es).value, fs)
    decreases |es|
  {
    if es == [] {
      assert es + fs == fs;
    } else {
      assert (es + fs)[1..] == es[1..] + fs;
      ExecAppend(Step(s, es[0]).value, es[1..], fs);
    }
  }
}
