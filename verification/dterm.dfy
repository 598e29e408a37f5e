/** The command stream splitter of main/dterm.c, for plain-text lines. */
module Dterm {
  import opened Common

  /** isspace in the C locale */
  predicate IsSpace(b: byte) {
    b == 32 || 9 <= b <= 13
  }

  // ---------------------------------------------------------------------
  // What splitting means
  // ---------------------------------------------------------------------

  function Sanitized(b: byte): byte {
    if b == RETURN then NEWLINE else b
  }

  /** The first position from c on that holds no white space. */
  function SkipSpace(s: seq<byte>, c: nat): (a: nat)
    requires c <= |s|
    ensures c <= a <= |s|
    decreases |s| - c
  {
    if c < |s| && IsSpace(s[c]) then SkipSpace(s, c + 1) else c
  }

  /** The first newline from c on, or |s|. */
  function LineEnd(s: seq<byte>, c: nat): (e: nat)
    requires c <= |s|
    ensures c <= e <= |s|
    decreases |s| - c
  {
    if c < |s| && s[c] != NEWLINE then LineEnd(s, c + 1) else c
  }

  /** The end of the command that starts at c or behind white space there. */
  function CommandEnd(s: seq<byte>, c: nat): (e: nat)
    requires c <= |s|
    ensures c <= e <= |s|
  {
    LineEnd(s, SkipSpace(s, c))
  }

  /** The commands from c on: while bytes remain, drop leading white space, take a
      line, go on behind its newline. White space alone makes one empty command. */
  function Split(s: seq<byte>, c: nat): seq<seq<byte>>
    decreases |s| - c
  {
    if c >= |s| then []
    else [s[SkipSpace(s, c)..CommandEnd(s, c)]] + Split(s, CommandEnd(s, c) + 1)
  }

  /** Where those commands end. */
  function Ends(s: seq<byte>, c: nat): (r: seq<nat>)
    ensures |r| == |Split(s, c)|
    decreases |s| - c
  {
    if c >= |s| then [] else [CommandEnd(s, c)] + Ends(s, CommandEnd(s, c) + 1)
  }

  lemma {:induction false} SkipSpaceIs(s: seq<byte>, c: nat, a: nat)
    requires c <= a <= |s| && (forall i :: c <= i < a ==> IsSpace(s[i])) && (a < |s| ==> !IsSpace(s[a]))
    ensures SkipSpace(s, c) == a
    decreases a - c
  {
    if c < a {
      SkipSpaceIs(s, c + 1, a);
    }
  }

  lemma {:induction false} LineEndIs(s: seq<byte>, c: nat, e: nat)
    requires c <= e <= |s| && (forall i :: c <= i < e ==> s[i] != NEWLINE) && (e < |s| ==> s[e] == NEWLINE)
    ensures LineEnd(s, c) == e
    decreases e - c
  {
    if c < e {
      LineEndIs(s, c + 1, e);
    }
  }

  lemma {:induction false} SkipSpaceSkips(s: seq<byte>, c: nat)
    requires c <= |s|
    ensures forall i :: c <= i < SkipSpace(s, c) ==> IsSpace(s[i])
    ensures SkipSpace(s, c) < |s| ==> !IsSpace(s[SkipSpace(s, c)])
    decreases |s| - c
  {
    if c < |s| && IsSpace(s[c]) {
      SkipSpaceSkips(s, c + 1);
    }
  }

  lemma {:induction false} LineEndEnds(s: seq<byte>, c: nat)
    requires c <= |s|
    ensures NEWLINE !in s[c..LineEnd(s, c)]
    ensures LineEnd(s, c) < |s| ==> s[LineEnd(s, c)] == NEWLINE
    decreases |s| - c
  {
    if c < |s| && s[c] != NEWLINE {
      LineEndEnds(s, c + 1);
      assert s[c..LineEnd(s, c)] == [s[c]] + s[c + 1..LineEnd(s, c)];
    }
  }

  // ---------------------------------------------------------------------
  // The code, in place
  // ---------------------------------------------------------------------

  method StrLen(str: array<byte>) returns (n: nat)
    requires NUL in str[..]
    ensures n < str.Length && str[n] == NUL && NUL !in str[..n]
    ensures CString(str[..]) == str[..n]
  {
    n := 0;
    while str[n] != NUL
      invariant n < str.Length && NUL !in str[..n] && NUL in str[n..]
      decreases str.Length - n
    {
      n := n + 1;
    }
    CStringStops(str[..], n);
  }

  /** Every carriage return before the first zero becomes a newline. */
  method StrSanitize(str: array<byte>, max: nat)
    requires max < str.Length
    modifies str
    ensures var n := |CString(old(str[..max]))|;
            && str[..n] == Map(Sanitized, old(str[..n]))
            && forall k :: n <= k < str.Length ==> str[k] == old(str[k])
  {
    var i, left := 0, max;
    while str[i] != NUL && left != 0
      invariant 0 <= i <= max && left == max - i
      invariant forall k :: 0 <= k < i ==> old(str[k]) != NUL && str[k] == Sanitized(old(str[k]))
      invariant forall k :: i <= k < str.Length ==> str[k] == old(str[k])
      decreases left
    {
      if str[i] == RETURN {
        str[i] := NEWLINE;
      }
      i, left := i + 1, left - 1;
    }
    ghost var s := old(str[..max]);
    assert NUL !in s[..i];
    if i < max {
      CStringStops(s, i);
    } else {
      assert s[..i] == s;
      CStringWhole(s);
    }
  }

  lemma CStringWhole(s: seq<byte>)
    requires NUL !in s
    ensures CString(s) == s
  {
  }

  /** The length of the line at `start`, of which at most `max` bytes are looked
      at, and none behind a zero; its newline is zeroed, and it becomes a C string
      of its own. */
  method StrMark(str: array<byte>, start: nat, max: nat) returns (len: nat)
    requires start + max < str.Length
    modifies str
    ensures len <= max
    ensures forall k :: start <= k < start + len ==> old(str[k]) != NEWLINE && old(str[k]) != NUL
    ensures len < max ==> old(str[start + len]) == NEWLINE || old(str[start + len]) == NUL
    ensures str[start + len] == if old(str[start + len]) == NEWLINE then NUL else old(str[start + len])
    ensures forall k :: 0 <= k < str.Length && k != start + len ==> str[k] == old(str[k])
    ensures str[start + len] == NUL ==> CString(str[start..]) == old(str[start..start + len])
  {
    var i, left := start, max;
    while str[i] != NUL && str[i] != NEWLINE && left != 0
      invariant start <= i <= start + max && left == start + max - i
      invariant forall k :: start <= k < i ==> str[k] != NEWLINE && str[k] != NUL
      decreases left
    {
      i, left := i + 1, left - 1;
    }
    len := i - start;
    if str[i] == NEWLINE {
      str[i] := NUL;
    }
    if str[i] == NUL {
      assert str[start..][..len] == old(str[start..start + len]);
      CStringStops(str[start..], len);
    }
  }

  /** One command failed, and it was the last one issued. */
  ghost predicate StoppedBy(cmdrc: nat -> int, issued: nat) {
    issued > 0 && cmdrc(issued - 1) < 0
  }

  ghost predicate Succeeded(cmdrc: nat -> int, n: nat) {
    forall i :: 0 <= i < n ==> cmdrc(i) >= 0
  }

  /** What the buffer holds after its first k commands were issued: the newlines
      that ended them are zeroed. */
  ghost predicate IsMarked(now: seq<byte>, text: seq<byte>, ends: seq<nat>) {
    && |now| == |text|
    && forall i :: 0 <= i < |text| ==> now[i] == (if i in ends then NUL else text[i])
  }

  lemma MarkMore(now: seq<byte>, next: seq<byte>, text: seq<byte>, ends: seq<nat>, e: nat)
    requires IsMarked(now, text, ends) && |next| == |text|
    requires forall k :: 0 <= k < |text| && k != e ==> next[k] == now[k]
    requires e < |text| ==> next[e] == NUL
    ensures IsMarked(next, text, ends + [e])
  {
    forall i | 0 <= i < |text|
      ensures next[i] == (if i in ends + [e] then NUL else text[i])
    {
      assert i in ends + [e] <==> i in ends || i == e;
    }
  }

  /** The commands issued so far, and those that are left from the cursor on. */
  ghost predicate Issued(text: seq<byte>, cursor: nat, issued: seq<seq<byte>>, ends: seq<nat>) {
    && Split(text, 0) == issued + Split(text, cursor)
    && Ends(text, 0) == ends + Ends(text, cursor)
    && |ends| == |issued|
    && forall e :: e in ends ==> e < cursor
  }

  lemma SplitNext(text: seq<byte>, cursor: nat, issued: seq<seq<byte>>)
    requires cursor < |text| && Split(text, 0) == issued + Split(text, cursor)
    ensures var e := CommandEnd(text, cursor);
            Split(text, 0) == issued + [text[SkipSpace(text, cursor)..e]] + Split(text, e + 1)
  {
    Regroup(issued, text[SkipSpace(text, cursor)..CommandEnd(text, cursor)], Split(text, CommandEnd(text, cursor) + 1));
  }

  lemma EndsNext(text: seq<byte>, cursor: nat, ends: seq<nat>)
    requires cursor < |text| && Ends(text, 0) == ends + Ends(text, cursor)
    ensures var e := CommandEnd(text, cursor);
            Ends(text, 0) == ends + [e] + Ends(text, e + 1)
  {
    Regroup(ends, CommandEnd(text, cursor), Ends(text, CommandEnd(text, cursor) + 1));
  }

  lemma IssueOne(text: seq<byte>, cursor: nat, issued: seq<seq<byte>>, ends: seq<nat>)
    requires Issued(text, cursor, issued, ends) && cursor < |text|
    ensures var e := CommandEnd(text, cursor);
            Issued(text, e + 1, issued + [text[SkipSpace(text, cursor)..e]], ends + [e])
  {
    SplitNext(text, cursor, issued);
    EndsNext(text, cursor, ends);
  }

  lemma NoneIssued(text: seq<byte>)
    ensures Issued(text, 0, [], []) && IsMarked(text, text, [])
  {
  }

  lemma IssuedIsPrefix(text: seq<byte>, cursor: nat, issued: seq<seq<byte>>, ends: seq<nat>)
    requires Issued(text, cursor, issued, ends)
    ensures issued <= Split(text, 0) && ends == Ends(text, 0)[..|issued|]
    ensures cursor >= |text| ==> issued == Split(text, 0)
  {
  }

  /** Line 295: burns the white space ahead of a command. */
  method BurnSpace(stream: array<byte>, ghost text: seq<byte>, start: nat, size: nat)
    returns (cursor: nat, left: nat)
    requires start + size == |text| < stream.Length && stream[|text|] == NUL
    requires forall k :: start <= k < |text| ==> stream[k] == text[k]
    ensures cursor == SkipSpace(text, start) && cursor + left == |text|
  {
    cursor, left := start, size;
    while IsSpace(stream[cursor])
      invariant start <= cursor && cursor + left == |text|
      invariant forall i :: start <= i < cursor ==> IsSpace(text[i])
      decreases left
    {
      cursor, left := cursor + 1, left - 1;
    }
    SkipSpaceIs(text, start, cursor);
  }

  /** Lines 295-296: cuts out the command at `start`, of a text whose terminator is
      `size` bytes on. */
  method TakeCommand(stream: array<byte>, ghost text: seq<byte>, start: nat, size: nat)
    returns (cursor: nat, linelen: nat, left: nat)
    requires start + size == |text| < stream.Length && NUL !in text && stream[|text|] == NUL
    requires forall k :: start <= k < |text| ==> stream[k] == text[k]
    modifies stream
    ensures cursor == SkipSpace(text, start) && cursor + linelen == CommandEnd(text, start)
    ensures cursor + left == |text|
    ensures stream[cursor + linelen] == NUL
    ensures forall k :: 0 <= k < stream.Length && k != cursor + linelen ==> stream[k] == old(stream[k])
    ensures stream[cursor..cursor + linelen] == CString(stream[cursor..]) == text[cursor..cursor + linelen]
  {
    cursor, left := BurnSpace(stream, text, start, size);
    linelen := StrMark(stream, cursor, left);
    LineEndIs(text, cursor, cursor + linelen);
    CommandIsString(stream[cursor..], text[cursor..cursor + linelen]);
  }

  lemma CommandIsString(s: seq<byte>, command: seq<byte>)
    requires CString(s) == command
    ensures s[..|command|] == command
  {
  }

  /** The same, in a text whose earlier commands are already cut out. */
  method TakeNext(stream: array<byte>, ghost text: seq<byte>, start: nat, size: nat, ghost ends: seq<nat>)
    returns (end: nat, left: nat, command: seq<byte>)
    requires start + size == |text| < stream.Length && NUL !in text && stream[|text|] == NUL
    requires IsMarked(stream[..|text|], text, ends) && forall e :: e in ends ==> e < start
    modifies stream
    ensures end == CommandEnd(text, start) && command == text[SkipSpace(text, start)..end]
    ensures end - |command| + left == |text|
    ensures IsMarked(stream[..|text|], text, ends + [end])
    ensures forall k :: |text| <= k < stream.Length ==> stream[k] == old(stream[k])
  {
    ghost var now := stream[..|text|];
    forall k | start <= k < |text|
      ensures stream[k] == text[k]
    {
      assert stream[k] == now[k];
    }
    var cursor, linelen;
    cursor, linelen, left := TakeCommand(stream, text, start, size);
    end, command := cursor + linelen, stream[cursor..cursor + linelen];
    MarkMore(now, stream[..|text|], text, ends, end);
  }

  /** Lines 295-309 and 322-323: the next command is cut out and added to those
      issued. */
  method IssueNext(stream: array<byte>, ghost text: seq<byte>, start: nat, size: nat,
                   issued: seq<seq<byte>>, ghost ends: seq<nat>)
    returns (next: nat, left: int, more: seq<seq<byte>>, ghost moreEnds: seq<nat>)
    requires start + size == |text| < stream.Length && size > 0 && NUL !in text && stream[|text|] == NUL
    requires Issued(text, start, issued, ends) && IsMarked(stream[..|text|], text, ends)
    modifies stream
    ensures next + left == |text| && -1 <= left < size
    ensures |more| == |issued| + 1 && more[..|issued|] == issued
    ensures Issued(text, next, more, moreEnds)
    ensures IsMarked(stream[..|text|], text, moreEnds)
    ensures forall k :: |text| <= k < stream.Length ==> stream[k] == old(stream[k])
  {
    IssueOne(text, start, issued, ends);
    var end, command;
    end, left, command := TakeNext(stream, text, start, size, ends);
    more, moreEnds := issued + [command], ends + [end];
    next, left := end + 1, left - (|command| + 1);
  }

  /** dterm_cmdstream. cmdrc gives the return code of the i-th command. */
  method CmdStream(stream: array?<byte>, cmdrc: nat -> int) returns (rc: int, issued: seq<seq<byte>>)
    requires stream != null ==> NUL in stream[..]
    modifies stream
    ensures stream == null ==> rc == -2 && issued == []
    ensures stream != null ==>
              var text := Map(Sanitized, CString(old(stream[..])));
              && issued <= Split(text, 0)
              && (rc == 0 <==> forall i :: 0 <= i < |Split(text, 0)| ==> cmdrc(i) >= 0)
              && (rc == 0 ==> issued == Split(text, 0) && Succeeded(cmdrc, |issued|))
              && (rc != 0 ==> rc == -4 && StoppedBy(cmdrc, |issued|) && Succeeded(cmdrc, |issued| - 1))
              && IsMarked(stream[..|text|], text, Ends(text, 0)[..|issued|])
              && forall k :: |text| <= k < stream.Length ==> stream[k] == old(stream[k])
  {
    if stream == null {
      return -2, [];
    }
    var n := StrLen(stream);
    ghost var text := Map(Sanitized, CString(stream[..]));
    CStringWhole(stream[..n]);
    StrSanitize(stream, n);
    assert stream[..n] == text;
    ghost var ends;
    rc, issued, ends := RunCommands(stream, n, text, cmdrc);
  }

  /** The loop of lines 287-325, on a sanitized text of n bytes. */
  method RunCommands(stream: array<byte>, n: nat, ghost text: seq<byte>, cmdrc: nat -> int)
    returns (rc: int, issued: seq<seq<byte>>, ghost ends: seq<nat>)
    requires n < stream.Length && stream[n] == NUL && stream[..n] == text && NUL !in text
    modifies stream
    ensures issued <= Split(text, 0) && ends == Ends(text, 0)[..|issued|]
    ensures rc == 0 ==> issued == Split(text, 0) && Succeeded(cmdrc, |issued|)
    ensures rc != 0 ==> rc == -4 && StoppedBy(cmdrc, |issued|) && Succeeded(cmdrc, |issued| - 1)
    ensures IsMarked(stream[..n], text, ends)
    ensures forall k :: n <= k < stream.Length ==> stream[k] == old(stream[k])
  {
    rc, issued, ends := 0, [], [];
    NoneIssued(text);
    var cursor: nat, size: int := 0, n;
    while size > 0
      invariant cursor + size == n
      invariant forall k :: n <= k < stream.Length ==> stream[k] == old(stream[k])
      invariant Issued(text, cursor, issued, ends)
      invariant IsMarked(stream[..n], text, ends)
      invariant rc == 0 && Succeeded(cmdrc, |issued|)
      decreases size
    {
      cursor, size, issued, ends := IssueNext(stream, text, cursor, size, issued, ends);
      if cmdrc(|issued| - 1) < 0 {
        rc := -4;
        break;
      }
    }
    IssuedIsPrefix(text, cursor, issued, ends);
  }

  // ---------------------------------------------------------------------
  // What the specification promises
  // ---------------------------------------------------------------------

  /** A stream of commands, one a line. */
  function Join(cmds: seq<seq<byte>>): seq<byte> {
    if cmds == [] then [] else cmds[0] + [NEWLINE] + Join(cmds[1..])
  }

  /** Something to send: not empty, no newline, no white space in front. */
  ghost predicate IsCommand(c: seq<byte>) {
    c != [] && !IsSpace(c[0]) && NEWLINE !in c
  }

  ghost predicate AllCommands(cmds: seq<seq<byte>>) {
    forall i :: 0 <= i < |cmds| ==> IsCommand(cmds[i])
  }

  lemma OneCommand(front: seq<byte>, cmd: seq<byte>, rest: seq<byte>)
    requires IsCommand(cmd)
    ensures var c, e, text := |front|, |front + cmd|, front + cmd + [NEWLINE] + rest;
            SkipSpace(text, c) == c && CommandEnd(text, c) == e && text[c..e] == cmd
  {
    var c, e, text := |front|, |front + cmd|, front + cmd + [NEWLINE] + rest;
    assert text[c] == cmd[0] && text[e] == NEWLINE;
    SkipSpaceIs(text, c, c);
    forall i | c <= i < e
      ensures text[i] == cmd[i - c]
    {
    }
    LineEndIs(text, c, e);
  }

  lemma SplitOneCommand(front: seq<byte>, cmd: seq<byte>, rest: seq<byte>)
    requires IsCommand(cmd)
    ensures var text := front + cmd + [NEWLINE] + rest;
            Split(text, |front|) == [cmd] + Split(text, |front + cmd + [NEWLINE]|)
  {
    OneCommand(front, cmd, rest);
  }

  lemma SplitJoinStep(front: seq<byte>, cmd: seq<byte>, cmds: seq<seq<byte>>)
    requires IsCommand(cmd)
    requires Split(front + cmd + [NEWLINE] + Join(cmds), |front + cmd + [NEWLINE]|) == cmds
    ensures Split(front + Join([cmd] + cmds), |front|) == [cmd] + cmds
  {
    assert ([cmd] + cmds)[1..] == cmds;
    assert front + Join([cmd] + cmds) == front + cmd + [NEWLINE] + Join(cmds);
    SplitOneCommand(front, cmd, Join(cmds));
  }

  lemma {:induction false} SplitJoinFrom(front: seq<byte>, cmds: seq<seq<byte>>)
    requires AllCommands(cmds)
    ensures Split(front + Join(cmds), |front|) == cmds
    decreases |cmds|
  {
    if cmds == [] {
      assert front + Join(cmds) == front;
    } else {
      SplitJoinFrom(front + cmds[0] + [NEWLINE], cmds[1..]);
      SplitJoinStep(front, cmds[0], cmds[1..]);
      assert [cmds[0]] + cmds[1..] == cmds;
    }
  }

  /** Round trip: commands written one a line are issued as written. */
  lemma SplitJoin(cmds: seq<seq<byte>>)
    requires AllCommands(cmds)
    ensures Split(Join(cmds), 0) == cmds
  {
    SplitJoinFrom([], cmds);
    assert [] + Join(cmds) == Join(cmds);
  }

  /** Commands, each followed by a byte of its own. */
  function JoinBy(cmds: seq<seq<byte>>, ends: seq<byte>): seq<byte>
    requires |cmds| == |ends|
  {
    if cmds == [] then [] else cmds[0] + [ends[0]] + JoinBy(cmds[1..], ends[1..])
  }

  lemma SanitizedCommand(cmd: seq<byte>, end: byte, rest: seq<byte>)
    requires 13 !in cmd && (end == 10 || end == 13)
    ensures Map(Sanitized, cmd + [end] + rest) == cmd + [NEWLINE] + Map(Sanitized, rest)
  {
    var all := cmd + [end] + rest;
    forall i | 0 <= i < |all|
      ensures Sanitized(all[i]) == (cmd + [NEWLINE] + Map(Sanitized, rest))[i]
    {
    }
  }

  lemma {:induction false} SanitizedJoin(cmds: seq<seq<byte>>, ends: seq<byte>)
    requires |cmds| == |ends|
    requires forall i :: 0 <= i < |cmds| ==> 13 !in cmds[i] && (ends[i] == 10 || ends[i] == 13)
    ensures Map(Sanitized, JoinBy(cmds, ends)) == Join(cmds)
    decreases |cmds|
  {
    if cmds != [] {
      SanitizedJoin(cmds[1..], ends[1..]);
      SanitizedCommand(cmds[0], ends[0], JoinBy(cmds[1..], ends[1..]));
    }
  }

  /** The same for a stream as it arrives: commands without a 13, each ended by a 13
      or a 10, in any mixture, are issued as written. */
  lemma SplitJoinBy(cmds: seq<seq<byte>>, ends: seq<byte>)
    requires AllCommands(cmds) && |cmds| == |ends|
    requires forall i :: 0 <= i < |cmds| ==> 13 !in cmds[i] && (ends[i] == 10 || ends[i] == 13)
    ensures Split(Map(Sanitized, JoinBy(cmds, ends)), 0) == cmds
  {
    SanitizedJoin(cmds, ends);
    SplitJoin(cmds);
  }

  /** Exactly the bytes 9 to 13 and 32 are dropped ahead of a command. */
  lemma DroppedBytes(b: byte, y: byte)
    requires 33 <= y
    ensures Split(Map(Sanitized, [b, y]), 0) == [[y]] <==> 9 <= b <= 13 || b == 32
    ensures !(9 <= b <= 13 || b == 32) ==> Split(Map(Sanitized, [b, y]), 0) == [[b, y]]
  {
    var text := Map(Sanitized, [b, y]);
    assert text[1] == y;
    if 9 <= b <= 13 || b == 32 {
      SkipSpaceIs(text, 0, 1);
      LineEndIs(text, 1, 2);
      assert text[1..2] == [y];
    } else {
      SkipSpaceIs(text, 0, 0);
      LineEndIs(text, 0, 2);
      assert text[0..2] == [b, y];
      assert |[b, y]| != |[y]| && [[b, y]][0] != [[y]][0];
    }
    assert Split(text, 3) == [];
  }

  /** Every command is free of newlines and leading white space; only the last
      one can be empty. */
  lemma {:induction false} SplitShape(s: seq<byte>, c: nat, i: nat)
    requires i < |Split(s, c)|
    ensures NEWLINE !in Split(s, c)[i]
    ensures Split(s, c)[i] != [] ==> !IsSpace(Split(s, c)[i][0])
    ensures Split(s, c)[i] == [] ==> i == |Split(s, c)| - 1
    decreases |s| - c
  {
    var a, e := SkipSpace(s, c), CommandEnd(s, c);
    SkipSpaceSkips(s, c);
    LineEndEnds(s, a);
    if i > 0 {
      SplitShape(s, e + 1, i - 1);
    } else if a == e && e < |s| {
      assert IsSpace(s[e]);
    }
  }

  /** White space alone makes one empty command. */
  lemma SpaceMakesOneEmptyCommand(s: seq<byte>)
    requires s != [] && forall i :: 0 <= i < |s| ==> IsSpace(s[i])
    ensures Split(s, 0) == [[]]
  {
    SkipSpaceIs(s, 0, |s|);
    LineEndIs(s, |s|, |s|);
    assert s[|s|..|s|] == [] && Split(s, |s| + 1) == [];
  }

  /** The bytes of a sequence that are not white space, in order. */
  function Ink(s: seq<byte>): seq<byte> {
    if s == [] then []
    else (if IsSpace(s[0]) then [] else [s[0]]) + Ink(s[1..])
  }

  lemma {:induction false} InkAppend(a: seq<byte>, b: seq<byte>)
    ensures Ink(a + b) == Ink(a) + Ink(b)
    decreases |a|
  {
    if a == [] {
      assert a + b == b;
    } else {
      assert (a + b)[1..] == a[1..] + b;
      InkAppend(a[1..], b);
    }
  }

  lemma {:induction false} InkOfSpace(s: seq<byte>)
    requires forall i :: 0 <= i < |s| ==> IsSpace(s[i])
    ensures Ink(s) == []
  {
    if s != [] {
      InkOfSpace(s[1..]);
    }
  }

  lemma {:induction false} InkOfSanitized(s: seq<byte>)
    ensures Ink(Map(Sanitized, s)) == Ink(s)
  {
    if s != [] {
      assert Map(Sanitized, s)[1..] == Map(Sanitized, s[1..]);
      InkOfSanitized(s[1..]);
    }
  }

  function Flat(cmds: seq<seq<byte>>): seq<byte> {
    if cmds == [] then [] else cmds[0] + Flat(cmds[1..])
  }

  lemma {:induction false} FlatAppend(a: seq<seq<byte>>, b: seq<seq<byte>>)
    ensures Flat(a + b) == Flat(a) + Flat(b)
    decreases |a|
  {
    if a == [] {
      assert a + b == b;
    } else {
      assert (a + b)[1..] == a[1..] + b;
      FlatAppend(a[1..], b);
    }
  }

  function After(s: seq<byte>, c: nat): seq<byte> {
    if c <= |s| then s[c..] else []
  }

  lemma InkCut(s: seq<byte>, c: nat, a: nat)
    requires c <= a <= |s|
    ensures Ink(s[c..]) == Ink(s[c..a]) + Ink(s[a..])
  {
    assert s[c..] == s[c..a] + s[a..];
    InkAppend(s[c..a], s[a..]);
  }

  lemma InkOfGap(s: seq<byte>, c: nat, a: nat)
    requires c <= a <= |s| && forall i :: c <= i < a ==> IsSpace(s[i])
    ensures Ink(s[c..a]) == []
  {
    InkOfSpace(s[c..a]);
  }

  lemma InkBehind(s: seq<byte>, e: nat)
    requires e <= |s| && (e < |s| ==> s[e] == NEWLINE)
    ensures Ink(s[e..]) == Ink(After(s, e + 1))
  {
    if e < |s| {
      InkCut(s, e, e + 1);
      InkOfGap(s, e, e + 1);
    }
  }

  lemma InkOfFirst(s: seq<byte>, c: nat, a: nat, e: nat)
    requires c < |s| && a == SkipSpace(s, c) && e == CommandEnd(s, c)
    ensures Ink(After(s, c)) == Ink(s[a..e]) + Ink(After(s, e + 1))
  {
    SkipSpaceSkips(s, c);
    LineEndEnds(s, a);
    InkCut(s, c, a);
    InkOfGap(s, c, a);
    InkCut(s, a, e);
    InkBehind(s, e);
  }

  lemma InkOfCons(first: seq<byte>, cmds: seq<seq<byte>>)
    ensures Ink(Flat([first] + cmds)) == Ink(first) + Ink(Flat(cmds))
  {
    assert ([first] + cmds)[1..] == cmds;
    InkAppend(first, Flat(cmds));
  }

  lemma InkOfSplit(s: seq<byte>, c: nat, a: nat, e: nat)
    requires c < |s| && a == SkipSpace(s, c) && e == CommandEnd(s, c)
    ensures Ink(Flat(Split(s, c))) == Ink(s[a..e]) + Ink(Flat(Split(s, e + 1)))
  {
    InkOfCons(s[a..e], Split(s, e + 1));
  }

  lemma InkOfNext(s: seq<byte>, c: nat, e: nat)
    requires c < |s| && e == CommandEnd(s, c)
    requires Ink(Flat(Split(s, e + 1))) == Ink(After(s, e + 1))
    ensures Ink(Flat(Split(s, c))) == Ink(After(s, c))
  {
    InkOfSplit(s, c, SkipSpace(s, c), e);
    InkOfFirst(s, c, SkipSpace(s, c), e);
  }

  lemma {:induction false} SplitKeepsInk(s: seq<byte>, c: nat, cmds: seq<seq<byte>>, rest: seq<byte>)
    requires cmds == Split(s, c) && rest == After(s, c)
    ensures Ink(Flat(cmds)) == Ink(rest)
    decreases |s| - c
  {
    if c >= |s| {
      assert cmds == [] && rest == [];
    } else {
      var e := CommandEnd(s, c);
      SplitKeepsInk(s, e + 1, Split(s, e + 1), After(s, e + 1));
      InkOfNext(s, c, e);
    }
  }

  /** Conservation: what is issued holds, apart from white space, a prefix of the
      bytes of the stream, and all of them when every command is issued. */
  lemma StreamIsConserved(input: seq<byte>, issued: seq<seq<byte>>)
    requires issued <= Split(Map(Sanitized, input), 0)
    ensures Ink(Flat(issued)) <= Ink(input)
    ensures issued == Split(Map(Sanitized, input), 0) ==> Ink(Flat(issued)) == Ink(input)
  {
    var text := Map(Sanitized, input);
    var all := Split(text, 0);
    SplitKeepsInk(text, 0, all, text);
    InkOfSanitized(input);
    assert text[0..] == text;
    assert all == issued + all[|issued|..];
    FlatAppend(issued, all[|issued|..]);
    InkAppend(Flat(issued), Flat(all[|issued|..]));
  }
}
