/** The critical sections of main/sockpush.c on the object they update, and the
    proof that the finer steps of the handshake add up to them. */
module Sockpush {
  import opened Common
  import opened Framing
  import opened Handshake
  import opened Invariant

  class Client {
    var lastRead: nat

    constructor (id: nat)
      ensures lastRead == id
    {
      lastRead := id;
    }
  }

  /** sp_item_t, but for its mutexes. out: the bytes written to the socket. */
  class SpItem {
    var readBuf: array<byte>
    var readSize: nat
    var readId: nat
    var readers: nat
    var out: seq<byte>

    ghost predicate Valid()
      reads this
    {
      readBuf.Length == RING && readSize <= RING && readId < U32 && readers <= 1
    }

    /** sp_open, and the start of the thread (569-572). */
    constructor ()
      ensures Valid() && fresh(readBuf)
      ensures readId == 1 && readSize == 0 && readers == 0 && out == []
    {
      readBuf := new byte[RING];
      readSize, readId, readers, out := 0, 1, 0, [];
    }

    /** Lines 609-611: the framed line becomes the shared line. */
    method Publish(line: array<byte>, size: nat)
      requires Valid() && size <= line.Length == RING && line != readBuf
      modifies this`readSize, this`readId, readBuf
      ensures Valid()
      ensures readId == (old(readId) + 1) % U32 && readSize == size
      ensures readBuf[..] == line[..size] + old(readBuf[size..])
    {
      readId := (readId + 1) % U32;
      readSize := size;
      for k := 0 to size
        invariant readId == (old(readId) + 1) % U32 && readSize == size
        invariant forall i :: 0 <= i < k ==> readBuf[i] == line[i]
        invariant forall i :: k <= i < RING ==> readBuf[i] == old(readBuf[i])
        invariant line[..] == old(line[..])
      {
        readBuf[k] := line[k];
      }
    }

    /** sub_loadread (388-397). */
    method Load(rdr: Client, dst: array<byte>, readmax: nat) returns (n: nat)
      requires Valid() && readmax <= dst.Length && dst != readBuf
      modifies rdr, dst
      ensures rdr.lastRead == readId
      ensures n == Min(readmax, readSize)
      ensures dst[..] == readBuf[..n] + old(dst[n..])
    {
      rdr.lastRead := readId;
      n := readmax;
      if n > readSize {
        n := readSize;
      }
      for k := 0 to n
        invariant rdr.lastRead == readId
        invariant forall i :: 0 <= i < k ==> dst[i] == readBuf[i]
        invariant forall i :: k <= i < dst.Length ==> dst[i] == old(dst[i])
        invariant readBuf[..] == old(readBuf[..])
      {
        dst[k] := readBuf[k];
      }
    }

    /** The fast path of sp_read (436-438); 0 when there is nothing new. */
    method ReadFresh(rdr: Client, dst: array<byte>, readmax: nat) returns (rc: nat)
      requires Valid() && readmax <= dst.Length && dst != readBuf
      modifies rdr, dst
      ensures rdr.lastRead == readId
      ensures rc == if old(rdr.lastRead) == readId then 0 else Min(readmax, readSize)
      ensures dst[..] == readBuf[..rc] + old(dst[rc..])
    {
      rc := 0;
      if rdr.lastRead != readId {
        rc := Load(rdr, dst, readmax);
      }
    }

    /** sp_reader_create: at most one reader, which starts out up to date. */
    method ReaderCreate() returns (rdr: Client?)
      requires Valid()
      modifies this`readers
      ensures Valid()
      ensures rdr == null <==> old(readers) == 1
      ensures rdr == null ==> readers == old(readers)
      ensures rdr != null ==> fresh(rdr) && rdr.lastRead == readId && readers == old(readers) + 1
    {
      rdr := null;
      if readers < 1 {
        rdr := new Client(readId);
        readers := readers + 1;
      }
    }

    method ReaderDestroy(rdr: Client)
      requires Valid() && readers == 1
      modifies this`readers
      ensures Valid() && readers == old(readers) - 1
    {
      readers := readers - 1;
    }

    /** What a purged reader has not read yet, it never will: the next fast read
        gives nothing before a new line is published. */
    method ReaderPurge(rdr: Client)
      requires Valid()
      modifies rdr
      ensures rdr.lastRead == readId
    {
      rdr.lastRead := readId;
    }

    /** sp_sendcmd, on writes that give `first` and `second`: -1, or the number of
        bytes accepted. The command goes out as one line if both are complete. The
        result is that of the last write, so 1 whenever a newline had to be added. */
    method SendCmd(msg: seq<byte>, first: int, second: int) returns (rc: int)
      requires -1 <= first <= |msg| && -1 <= second <= 1
      modifies this`out
      ensures msg == [] ==> rc == 0 && out == old(out)
      ensures msg != [] ==> (rc == -2 <==> first < 0) && (first < 0 ==> out == old(out))
      ensures msg != [] && first == |msg| && second == 1 ==> out == old(out) + Wire(msg)
      ensures msg != [] && first >= 0 ==>
                && out == old(out) + msg[..first]
                        + (if msg[|msg| - 1] != NEWLINE && second == 1 then [NEWLINE] else [])
                && rc == if msg[|msg| - 1] == NEWLINE then first else second
    {
      if |msg| == 0 {
        return 0;
      }
      if first < 0 {
        return -2;
      }
      out, rc := out + msg[..first], first;
      if msg[|msg| - 1] != NEWLINE {
        rc := second;
        if second == 1 {
          out := out + [NEWLINE];
        }
      }
    }

    /** sp_sendcmd for each command in turn, on complete writes: the socket carries what the round
        trip of framing is stated about. */
    method SendAll(msgs: seq<seq<byte>>)
      requires AllOneLine(msgs)
      modifies this`out
      ensures out == old(out) + WireAll(msgs)
    {
      assert msgs[..0] == [];
      for i := 0 to |msgs|
        invariant out == old(out) + WireAll(msgs[..i])
      {
        ghost var before := out;
        var rc := SendCmd(msgs[i], |msgs[i]|, 1);
        assert out == before + Wire(msgs[i]);
        OneMoreSent(old(out), before, out, msgs, i);
      }
      assert msgs[..|msgs|] == msgs;
    }

    /** Lines 592-611: one line is framed and published. None when the stream ends first. */
    method FrameAndPublish(fd: seq<byte>, pos: nat, line: array<byte>) returns (next: Option<nat>)
      requires Valid() && pos <= |fd| && line.Length == RING && line != readBuf
      modifies this`readSize, this`readId, readBuf, line
      ensures Valid()
      ensures next.None? ==> NoTerminator(fd[pos..])
      ensures next.None? ==> readId == old(readId) && readSize == old(readSize) && readBuf[..] == old(readBuf[..])
      ensures next.Some? ==> next.value == pos + LineEnd(fd[pos..]) + 1 <= |fd|
      ensures next.Some? ==> readId == IdAfter(old(readId), 1)
      ensures next.Some? ==> readBuf[..readSize] == Published(fd[pos..next.value - 1])
    {
      var size, end := FrameLine(fd, pos, line);
      if size.None? {
        return None;
      }
      FirstLineIsLine(fd, pos, end - 1, line[..size.value]);
      ghost var framed := line[..size.value];
      Publish(line, size.value);
      assert readBuf[..readSize] == framed;
      next := Some(end);
    }

    /** One turn of the I/O thread while no reader waits. done: the lines before pos. */
    method ReceiveOne(fd: seq<byte>, pos: nat, line: array<byte>, ghost done: seq<seq<byte>>)
      returns (next: Option<nat>, ghost more: seq<seq<byte>>)
      requires Valid() && Received(fd, done, pos) && line.Length == RING && line != readBuf
      requires HoldsLast(readBuf[..readSize], done)
      modifies this`readSize, this`readId, readBuf, line
      ensures Valid() && HoldsLast(readBuf[..readSize], more)
      ensures next.None? ==> Lines(fd) == more && more == done && readId == old(readId)
      ensures next.Some? ==> pos < next.value && Received(fd, more, next.value) && |more| == |done| + 1
      ensures next.Some? ==> readId == IdAfter(old(readId), 1)
    {
      next := FrameAndPublish(fd, pos, line);
      if next.None? {
        more := done;
        ReceivedAll(fd, done, pos);
      } else {
        more := done + [fd[pos..next.value - 1]];
        ReceivedOne(fd, done, pos, next.value - 1);
      }
    }

    /** The I/O thread while no reader waits (588-647): it publishes, one after the
        other, the images of the lines of the stream, until the stream ends. */
    method ReceiveAll(fd: seq<byte>) returns (count: nat)
      requires Valid()
      modifies this`readSize, this`readId, readBuf
      ensures Valid()
      ensures count == |Lines(fd)| && readId == IdAfter(old(readId), count)
      ensures Lines(fd) != [] ==> readBuf[..readSize] == Published(Lines(fd)[count - 1])
    {
      var line := new byte[RING];
      ghost var done: seq<seq<byte>>, first := [], readId;
      var pos: nat, more := 0, true;
      count := 0;
      assert fd[0..] == fd;
      while more
        invariant Valid() && fresh(line) && line.Length == RING && line != readBuf
        invariant pos <= |fd| && count == |done|
        invariant if more then Received(fd, done, pos) else Lines(fd) == done
        invariant readId == IdAfter(first, count)
        invariant HoldsLast(readBuf[..readSize], done)
        decreases more, |fd| - pos
      {
        var next;
        next, done := ReceiveOne(fd, pos, line, done);
        if next.None? {
          more := false;
        } else {
          AddIds(first, count);
          pos, count := next.value, count + 1;
        }
      }
    }
  }

  /** done are the first lines of the stream, and pos is just behind them. */
  ghost predicate Received(fd: seq<byte>, done: seq<seq<byte>>, pos: nat) {
    pos <= |fd| && Lines(fd) == done + Lines(fd[pos..])
  }

  lemma ReceivedOne(fd: seq<byte>, done: seq<seq<byte>>, pos: nat, end: nat)
    requires Received(fd, done, pos) && end == pos + LineEnd(fd[pos..]) < |fd|
    ensures Received(fd, done + [fd[pos..end]], end + 1)
  {
    LinesFrom(fd, pos, end);
    Regroup(done, fd[pos..end], Lines(fd[end + 1..]));
  }

  lemma ReceivedAll(fd: seq<byte>, done: seq<seq<byte>>, pos: nat)
    requires Received(fd, done, pos) && NoTerminator(fd[pos..])
    ensures Lines(fd) == done
  {
    LineEndNone(fd[pos..]);
    LinesFrom(fd, pos, |fd|);
  }

  /** read_id, n lines later. */
  function IdAfter(id: nat, n: nat): nat {
    (id + n) % U32
  }

  lemma AddIds(id: nat, n: nat)
    ensures IdAfter(IdAfter(id, n), 1) == IdAfter(id, n + 1)
  {
  }

  /** The shared line is the image of the last of these lines, if there is one. */
  ghost predicate HoldsLast(now: seq<byte>, lines: seq<seq<byte>>) {
    lines == [] || now == Published(lines[|lines| - 1])
  }

  lemma {:induction false} WireAllSnoc(msgs: seq<seq<byte>>, msg: seq<byte>)
    requires AllOneLine(msgs) && OneLine(msg)
    ensures WireAll(msgs + [msg]) == WireAll(msgs) + Wire(msg)
    decreases |msgs|
  {
    var all := msgs + [msg];
    if msgs == [] {
      assert all[1..] == [];
      assert WireAll(all) == Wire(msg) + WireAll([]);
    } else {
      assert all[1..] == msgs[1..] + [msg];
      WireAllSnoc(msgs[1..], msg);
    }
  }

  lemma OneMoreSent(start: seq<byte>, before: seq<byte>, now: seq<byte>, msgs: seq<seq<byte>>, i: nat)
    requires AllOneLine(msgs) && i < |msgs|
    requires before == start + WireAll(msgs[..i]) && now == before + Wire(msgs[i])
    ensures now == start + WireAll(msgs[..i + 1])
  {
    WireAllNext(msgs, i);
  }

  lemma WireAllNext(msgs: seq<seq<byte>>, i: nat)
    requires AllOneLine(msgs) && i < |msgs|
    ensures WireAll(msgs[..i + 1]) == WireAll(msgs[..i]) + Wire(msgs[i])
  {
    assert msgs[..i + 1] == msgs[..i] + [msgs[i]];
    WireAllSnoc(msgs[..i], msgs[i]);
  }

  // ---------------------------------------------------------------------
  // The steps of the handshake add up to these methods
  // ---------------------------------------------------------------------

  function Times(e: Event, n: nat): (es: seq<Event>)
    ensures |es| == n && forall i :: 0 <= i < n ==> es[i] == e
  {
    seq(n, i => e)
  }

  lemma {:induction false} CopyOut(s: State)
    requires s.c.io == IO_COPY && s.m.k <= |s.m.next| <= RING && s.m.buf[..s.m.k] == s.m.next[..s.m.k]
    ensures var n := |s.m.next|;
            Exec(s, Times(IoGo, n - s.m.k + 1))
              == Some(State(s.c.(io := IO_TEST_READERS), s.m.(k := n, buf := s.m.next + s.m.buf[n..]), s.r))
    decreases |s.m.next| - s.m.k
  {
    var left := |s.m.next| - s.m.k;
    var es := Times(IoGo, left + 1);
    assert es[1..] == Times(IoGo, left);
    var t := IoRun(s).value;
    if left == 0 {
      assert s.m.next + s.m.buf[|s.m.next|..] == s.m.buf;
      assert Exec(t, es[1..]) == Some(t);
    } else {
      assert t.m.buf[..t.m.k] == t.m.next[..t.m.k];
      assert t.m.buf[|s.m.next|..] == s.m.buf[|s.m.next|..];
      CopyOut(t);
    }
  }

  /** From line 609 on, the I/O thread alone does to the shared line exactly what
      SpItem.Publish does. */
  lemma PublishingAddsUp(s: State)
    requires s.c.io == IO_BUMP && |s.m.next| <= RING
    ensures var n := |s.m.next|;
            Exec(s, Times(IoGo, n + 3)) == Some(State(
              s.c.(io := IO_TEST_READERS),
              s.m.(readId := (s.m.readId + 1) % U32, readSize := n, k := n,
                   buf := s.m.next + s.m.buf[n..], pub := s.m.pub + [s.m.next]),
              s.r))
  {
    var n := |s.m.next|;
    var es := Times(IoGo, n + 3);
    assert es[1..] == Times(IoGo, n + 2) && es[1..][1..] == Times(IoGo, n + 1);
    CopyOut(IoRun(IoRun(s).value).value);
  }

  lemma {:induction false} CopyIn(s: State)
    requires LoadingBytes(s.c.cl) && |s.r.dst| <= s.r.want <= RING && s.r.dst <= s.m.buf
    ensures Exec(s, Times(Go, s.r.want - |s.r.dst| + 1)) == Some(State(
              s.c.(cl := if s.c.cl == CL_WAIT_COPY then CL_COUNT_OUT else CL_UNLOCK_FAST),
              s.m, s.r.(dst := s.m.buf[..s.r.want])))
    decreases s.r.want - |s.r.dst|
  {
    var left := s.r.want - |s.r.dst|;
    var es := Times(Go, left + 1);
    assert es[1..] == Times(Go, left);
    var t := ClientRun(s).value;
    if left == 0 {
      assert s.r.dst == s.m.buf[..s.r.want];
      assert Exec(t, es[1..]) == Some(t);
    } else {
      CopyIn(t);
    }
  }

  /** From line 389 on, the client alone does exactly what SpItem.Load does, on
      either path. */
  lemma LoadingAddsUp(s: State)
    requires (s.c.cl == CL_FAST_ID || s.c.cl == CL_WAIT_ID) && s.r.dst == [] && s.m.readSize <= RING
    ensures var n := Min(s.r.max, s.m.readSize);
            Exec(s, Times(Go, n + 3)) == Some(State(
              s.c.(cl := if s.c.cl == CL_WAIT_ID then CL_COUNT_OUT else CL_UNLOCK_FAST),
              s.m,
              s.r.(lastRead := s.m.readId, seen := |s.m.pub|, want := n, dst := s.m.buf[..n])))
  {
    var n := Min(s.r.max, s.m.readSize);
    var es := Times(Go, n + 3);
    assert es[1..] == Times(Go, n + 2) && es[1..][1..] == Times(Go, n + 1);
    CopyIn(ClientRun(ClientRun(s).value).value);
  }
}
