/** How the I/O thread cuts the inbound byte stream into lines, and how
    outbound commands are put on the wire. */
module Framing {
  import opened Common

  /** sizeof(readbuf) */
  const RING := 1024

  predicate IsTerminator(b: byte) {
    b == NEWLINE || b == NUL
  }

  ghost predicate NoTerminator(s: seq<byte>) {
    forall i :: 0 <= i < |s| ==> !IsTerminator(s[i])
  }

  // ---------------------------------------------------------------------
  // The loop, one byte at a time
  // ---------------------------------------------------------------------

  /** acc: readbuf from its start up to the cursor; lines: what was handed on. */
  datatype Framer = Framer(acc: seq<byte>, lines: seq<seq<byte>>)

  /** One byte more in the buffer, which restarts when it is full. */
  function WrapAdd(held: seq<byte>, b: byte): seq<byte> {
    if |held| + 1 >= RING then [] else held + [b]
  }

  function Feed(f: Framer, b: byte): Framer {
    if IsTerminator(b) then Framer([], f.lines + [f.acc + [NUL]])
    else Framer(WrapAdd(f.acc, b), f.lines)
  }

  function Frame(rx: seq<byte>): Framer {
    if rx == [] then Framer([], [])
    else Feed(Frame(rx[..|rx| - 1]), rx[|rx| - 1])
  }

  lemma FrameSnoc(rx: seq<byte>, b: byte)
    ensures Frame(rx + [b]) == Feed(Frame(rx), b)
  {
    assert (rx + [b])[..|rx|] == rx;
  }

  // ---------------------------------------------------------------------
  // What a stream means, independently of the loop
  // ---------------------------------------------------------------------

  /** Position of the first terminator, or |s|. */
  function LineEnd(s: seq<byte>): (n: nat)
    ensures n <= |s|
  {
    if s == [] || IsTerminator(s[0]) then 0 else 1 + LineEnd(s[1..])
  }

  lemma {:induction false} LineEndEnds(s: seq<byte>)
    ensures NoTerminator(s[..LineEnd(s)])
    ensures LineEnd(s) < |s| ==> IsTerminator(s[LineEnd(s)])
  {
    if s != [] && !IsTerminator(s[0]) {
      LineEndEnds(s[1..]);
      assert s[..LineEnd(s)] == [s[0]] + s[1..][..LineEnd(s[1..])];
    }
  }

  /** The complete lines of a stream, terminators removed. */
  function Lines(s: seq<byte>): seq<seq<byte>> {
    var n := LineEnd(s);
    if n == |s| then [] else [s[..n]] + Lines(s[n + 1..])
  }

  /** The unfinished line at the end of a stream. */
  function Rest(s: seq<byte>): seq<byte> {
    var n := LineEnd(s);
    if n == |s| then s else Rest(s[n + 1..])
  }

  /** What survives of a line in a buffer that restarts every RING bytes. */
  function Wrap(line: seq<byte>): seq<byte> {
    line[|line| - |line| % RING..]
  }

  function Published(line: seq<byte>): (r: seq<byte>)
    ensures |r| == |line| % RING + 1
    ensures 1 <= |r| <= RING
    ensures r[|r| - 1] == NUL
  {
    Wrap(line) + [NUL]
  }

  lemma {:induction false} LineEndUnique(s: seq<byte>, n: nat)
    requires n < |s| && NoTerminator(s[..n]) && IsTerminator(s[n])
    ensures LineEnd(s) == n
  {
    if n > 0 {
      assert s[0] == s[..n][0];
      assert s[1..][..n - 1] == s[..n][1..];
      LineEndUnique(s[1..], n - 1);
    }
  }

  lemma {:induction false} LineEndNone(s: seq<byte>)
    requires NoTerminator(s)
    ensures LineEnd(s) == |s|
  {
    LineEndEnds(s);
  }

  /** The lines from a position on, by the first of them. */
  lemma LinesFrom(s: seq<byte>, pos: nat, end: nat)
    requires pos <= |s| && end == pos + LineEnd(s[pos..])
    ensures end == |s| ==> Lines(s[pos..]) == []
    ensures end < |s| ==> Lines(s[pos..]) == [s[pos..end]] + Lines(s[end + 1..])
  {
    if end < |s| {
      assert s[pos..][..end - pos] == s[pos..end];
      assert s[pos..][end - pos + 1..] == s[end + 1..];
    }
  }

  lemma {:induction false} LinesSnoc(s: seq<byte>, b: byte)
    ensures IsTerminator(b) ==> Lines(s + [b]) == Lines(s) + [Rest(s)] && Rest(s + [b]) == []
    ensures !IsTerminator(b) ==> Lines(s + [b]) == Lines(s) && Rest(s + [b]) == Rest(s) + [b]
    decreases |s|
  {
    var n := LineEnd(s);
    var t := s + [b];
    LineEndEnds(s);
    if n == |s| {
      assert t[..n] == s;
      if IsTerminator(b) {
        LineEndUnique(t, n);
        assert t[n + 1..] == [];
      } else {
        LineEndNone(t);
      }
    } else {
      assert t[..n] == s[..n];
      LineEndUnique(t, n);
      assert t[n + 1..] == s[n + 1..] + [b];
      LinesSnoc(s[n + 1..], b);
    }
  }

  lemma WrapSnoc(line: seq<byte>, b: byte)
    ensures Wrap(line + [b]) == WrapAdd(Wrap(line), b)
  {
    var m := |line| % RING;
    if m + 1 == RING {
      assert (|line| + 1) % RING == 0;
    } else {
      assert (|line| + 1) % RING == m + 1;
    }
  }

  lemma MapSnoc<A, B>(f: A -> B, s: seq<A>, x: A)
    ensures Map(f, s + [x]) == Map(f, s) + [f(x)]
  {
  }

  /** Framing in closed form: on every stream the loop hands on, in order, the
      last (n mod RING) bytes of each terminated line, followed by a zero. */
  lemma {:induction false} FrameClosedForm(rx: seq<byte>)
    ensures Frame(rx).lines == Map(Published, Lines(rx))
    ensures Frame(rx).acc == Wrap(Rest(rx))
  {
    if rx == [] {
      assert Lines(rx) == [];
    } else {
      var s, b := rx[..|rx| - 1], rx[|rx| - 1];
      assert rx == s + [b];
      FrameClosedForm(s);
      LinesSnoc(s, b);
      WrapSnoc(Rest(s), b);
      if IsTerminator(b) {
        MapSnoc(Published, Lines(s), Rest(s));
      }
    }
  }

  lemma {:induction false} LinesHaveNoTerminator(s: seq<byte>, i: nat)
    requires i < |Lines(s)|
    ensures NoTerminator(Lines(s)[i])
    decreases |s|
  {
    var n := LineEnd(s);
    LineEndEnds(s);
    if i > 0 {
      LinesHaveNoTerminator(s[n + 1..], i - 1);
    }
  }

  lemma UnfinishedLine(rx: seq<byte>)
    requires NoTerminator(rx)
    ensures Frame(rx) == Framer(Wrap(rx), [])
  {
    FrameClosedForm(rx);
    LineEndNone(rx);
    assert Lines(rx) == [] && Rest(rx) == rx;
  }

  /** Framing, in bytes: nothing is handed on before a 0 or a 10, and at the first of
      them the last (n mod 1024) of the n bytes before it are, with a 0. */
  lemma FramesTheFirstLine(rx: seq<byte>, t: byte)
    requires 0 !in rx && 10 !in rx
    ensures Frame(rx).lines == []
    ensures t == 0 || t == 10 ==> Frame(rx + [t]).lines == [rx[|rx| - |rx| % 1024..] + [0]]
  {
    assert NoTerminator(rx);
    UnfinishedLine(rx);
    FrameSnoc(rx, t);
  }

  /** One published line: 1..RING bytes, a single terminator, at the end. */
  ghost predicate WellFormedLine(line: seq<byte>) {
    && 1 <= |line| <= RING
    && line[|line| - 1] == NUL
    && NoTerminator(line[..|line| - 1])
  }

  lemma PublishedIsWellFormed(line: seq<byte>)
    requires NoTerminator(line)
    ensures WellFormedLine(Published(line))
  {
    var p := Published(line);
    assert p[..|p| - 1] == Wrap(line);
  }

  lemma FrameWellFormed(rx: seq<byte>)
    ensures forall i :: 0 <= i < |Frame(rx).lines| ==> WellFormedLine(Frame(rx).lines[i])
    ensures |Frame(rx).acc| < RING
  {
    FrameClosedForm(rx);
    forall i | 0 <= i < |Frame(rx).lines|
      ensures WellFormedLine(Frame(rx).lines[i])
    {
      LinesHaveNoTerminator(rx, i);
      PublishedIsWellFormed(Lines(rx)[i]);
    }
  }

  // ---------------------------------------------------------------------
  // The loop over its buffer
  // ---------------------------------------------------------------------

  /** Lines 597-604: one byte goes to the cursor, which moves on; a terminator
      becomes a zero and ends the line; at its end the buffer restarts. */
  method PutByte(readbuf: array<byte>, cursor: nat, b: byte) returns (next: nat, ended: bool)
    requires cursor < RING == readbuf.Length
    modifies readbuf
    ensures ended == (b == 0 || b == 10) && next <= RING
    ensures ended ==> readbuf[..next] == old(readbuf[..cursor]) + [0]
    ensures !ended ==> next < RING
    ensures !ended ==> readbuf[..next] == if cursor + 1 == 1024 then [] else old(readbuf[..cursor]) + [b]
  {
    readbuf[cursor] := b;
    next, ended := cursor + 1, false;
    if readbuf[cursor] == NEWLINE || readbuf[cursor] == NUL {
      readbuf[cursor] := NUL;
      ended := true;
    } else if next >= RING {
      next := 0;
    }
  }

  /** Reads one line from fd into the wrapping buffer. None: the stream ended
      first. The bytes of readbuf at and beyond the size are left over. */
  method FrameLine(fd: seq<byte>, pos: nat, readbuf: array<byte>)
    returns (size: Option<nat>, next: nat)
    requires pos <= |fd| && readbuf.Length == RING
    modifies readbuf
    ensures pos <= next <= |fd|
    ensures size.None? <==> 0 !in fd[pos..] && 10 !in fd[pos..]
    ensures size.None? ==> next == |fd|
    ensures size.Some? ==> pos < next && size.value <= RING
    ensures size.Some? ==> IsFirstLine(fd, pos, next - 1, readbuf[..size.value])
  {
    next := pos;
    var cursor: nat, ended := 0, false;
    while true
      invariant pos <= next <= |fd| && cursor < RING
      invariant forall i :: pos <= i < next ==> !IsTerminator(fd[i])
      invariant readbuf[..cursor] == Held(fd, pos, next)
      decreases |fd| - next
    {
      if next == |fd| {
        LineSoFar(fd, pos, next);
        return None, next;
      }
      cursor, ended := PutByte(readbuf, cursor, fd[next]);
      if ended {
        FirstLineEnds(fd, pos, next);
        return Some(cursor), next + 1;
      }
      next := next + 1;
    }
  }

  /** What the buffer holds of the bytes from pos to next. */
  ghost function Held(fd: seq<byte>, pos: nat, next: nat): seq<byte>
    requires pos <= next <= |fd|
  {
    if next == pos then [] else WrapAdd(Held(fd, pos, next - 1), fd[next - 1])
  }

  lemma {:induction false} HeldIsWrap(fd: seq<byte>, pos: nat, next: nat)
    requires pos <= next <= |fd|
    ensures Held(fd, pos, next) == Wrap(fd[pos..next])
    decreases next
  {
    if next > pos {
      HeldIsWrap(fd, pos, next - 1);
      assert fd[pos..next] == fd[pos..next - 1] + [fd[next - 1]];
      WrapSnoc(fd[pos..next - 1], fd[next - 1]);
    }
  }

  /** What is framed of the first line from pos on, in bytes: it ends at the first 0
      or 10, and of its n bytes the last (n mod 1024) are kept, and a 0 added. */
  ghost predicate IsFirstLine(fd: seq<byte>, pos: nat, end: nat, framed: seq<byte>) {
    && pos <= end < |fd| && (fd[end] == 0 || fd[end] == 10)
    && 0 !in fd[pos..end] && 10 !in fd[pos..end]
    && framed == fd[end - (end - pos) % 1024..end] + [0]
  }

  lemma LineSoFar(fd: seq<byte>, pos: nat, next: nat)
    requires pos <= next <= |fd| && forall i :: pos <= i < next ==> !IsTerminator(fd[i])
    ensures 0 !in fd[pos..next] && 10 !in fd[pos..next]
    ensures next == |fd| ==> fd[pos..next] == fd[pos..]
  {
  }

  lemma LastBytes(fd: seq<byte>, pos: nat, end: nat)
    requires pos <= end < |fd|
    ensures Published(fd[pos..end]) == fd[end - (end - pos) % 1024..end] + [0]
  {
    var line, n := fd[pos..end], (end - pos) % 1024;
    assert line[|line| - n..] == fd[end - n..end];
  }

  lemma FirstLineEnds(fd: seq<byte>, pos: nat, end: nat)
    requires pos <= end < |fd| && (forall i :: pos <= i < end ==> !IsTerminator(fd[i])) && IsTerminator(fd[end])
    ensures IsFirstLine(fd, pos, end, Held(fd, pos, end) + [NUL])
    ensures !(0 !in fd[pos..] && 10 !in fd[pos..])
  {
    LineSoFar(fd, pos, end);
    HeldIsWrap(fd, pos, end);
    LastBytes(fd, pos, end);
    assert fd[pos..][end - pos] == fd[end];
  }

  /** The same in terms of the lines of the stream. */
  lemma FirstLineIsLine(fd: seq<byte>, pos: nat, end: nat, framed: seq<byte>)
    requires IsFirstLine(fd, pos, end, framed)
    ensures end == pos + LineEnd(fd[pos..])
    ensures framed == Published(fd[pos..end])
  {
    assert fd[pos..][..end - pos] == fd[pos..end];
    LineEndUnique(fd[pos..], end - pos);
    LastBytes(fd, pos, end);
  }

  // ---------------------------------------------------------------------
  // Sending
  // ---------------------------------------------------------------------

  /** The bytes one command puts on the socket. */
  function Wire(msg: seq<byte>): seq<byte>
    requires msg != []
  {
    if msg[|msg| - 1] != NEWLINE then msg + [NEWLINE] else msg
  }

  /** The command without its own terminator. */
  function Body(msg: seq<byte>): seq<byte>
    requires msg != []
  {
    if msg[|msg| - 1] != NEWLINE then msg else msg[..|msg| - 1]
  }

  /** Non-empty, no zero, and no newline except possibly as the last byte. */
  ghost predicate OneLine(msg: seq<byte>) {
    msg != [] && NoTerminator(Body(msg))
  }

  ghost predicate AllOneLine(msgs: seq<seq<byte>>) {
    forall i :: 0 <= i < |msgs| ==> OneLine(msgs[i])
  }

  /** Everything a series of commands puts on the socket. */
  ghost function WireAll(msgs: seq<seq<byte>>): seq<byte>
    requires AllOneLine(msgs)
  {
    if msgs == [] then [] else Wire(msgs[0]) + WireAll(msgs[1..])
  }

  lemma LinesOfFirst(line: seq<byte>, more: seq<byte>)
    requires NoTerminator(line)
    ensures Lines(line + [NEWLINE] + more) == [line] + Lines(more)
    ensures Rest(line + [NEWLINE] + more) == Rest(more)
  {
    var s := line + [NEWLINE] + more;
    assert s[..|line|] == line;
    LineEndUnique(s, |line|);
    assert s[|line| + 1..] == more;
  }

  lemma WireIsBody(msg: seq<byte>)
    requires msg != []
    ensures Wire(msg) == Body(msg) + [NEWLINE]
  {
  }

  lemma SentFirst(msgs: seq<seq<byte>>)
    requires AllOneLine(msgs) && msgs != []
    ensures Lines(WireAll(msgs)) == [Body(msgs[0])] + Lines(WireAll(msgs[1..]))
    ensures Rest(WireAll(msgs)) == Rest(WireAll(msgs[1..]))
  {
    WireIsBody(msgs[0]);
    LinesOfFirst(Body(msgs[0]), WireAll(msgs[1..]));
  }

  lemma {:induction false} SentLines(msgs: seq<seq<byte>>)
    requires AllOneLine(msgs)
    ensures |Lines(WireAll(msgs))| == |msgs|
    ensures forall i :: 0 <= i < |msgs| ==> Lines(WireAll(msgs))[i] == Body(msgs[i])
    ensures Rest(WireAll(msgs)) == []
    decreases |msgs|
  {
    if msgs != [] {
      SentLines(msgs[1..]);
      SentFirst(msgs);
    }
  }

  lemma FitsOrNot(line: seq<byte>)
    ensures Published(line) == line + [NUL] <==> |line| < RING
  {
    if |line| < RING {
      assert Wrap(line) == line;
    } else {
      assert |Published(line)| <= RING < |line + [NUL]|;
    }
  }

  lemma FramedAsSent(msgs: seq<seq<byte>>)
    requires AllOneLine(msgs)
    ensures |Frame(WireAll(msgs)).lines| == |msgs| && Frame(WireAll(msgs)).acc == []
    ensures forall i :: 0 <= i < |msgs| ==> Frame(WireAll(msgs)).lines[i] == Published(Body(msgs[i]))
  {
    SentLines(msgs);
    FrameClosedForm(WireAll(msgs));
  }

  /** Round trip: the receiver's framing gives back exactly the commands that
      were sent, one line per call, newline replaced by a zero, if and only if
      every command leaves room for its terminator in the buffer. */
  lemma SendFrameRoundTrip(msgs: seq<seq<byte>>)
    requires AllOneLine(msgs)
    ensures |Frame(WireAll(msgs)).lines| == |msgs|
    ensures Frame(WireAll(msgs)).acc == []
    ensures (forall i :: 0 <= i < |msgs| ==> Frame(WireAll(msgs)).lines[i] == Body(msgs[i]) + [NUL])
       <==> (forall i :: 0 <= i < |msgs| ==> |Body(msgs[i])| < RING)
  {
    FramedAsSent(msgs);
    forall i | 0 <= i < |msgs|
      ensures Frame(WireAll(msgs)).lines[i] == Body(msgs[i]) + [NUL] <==> |Body(msgs[i])| < RING
    {
      FitsOrNot(Body(msgs[i]));
    }
  }
}
