/** What a result of sub_devmgr_socket is worth: run-level safety of the protocol. */
module Exchange {
  import opened Common
  import opened Clock
  import opened Devmgr

  // ---------------------------------------------------------------------
  // Messages, by what they mean
  // ---------------------------------------------------------------------

  /** Accepts the command and announces an answer under sid s. */
  ghost predicate Accepts(m: Message, s: nat) {
    && m.kind == Some("ack") && m.data.Some? && m.data.value.err == Some(0)
    && m.data.value.sid.Some? && AsUint32(m.data.value.sid.value) == s && s != 0
  }

  /** Accepts the command; no answer will follow. */
  ghost predicate Completes(m: Message) {
    && m.kind == Some("ack") && m.data.Some? && m.data.value.err == Some(0)
    && (m.data.value.sid.None? || AsUint32(m.data.value.sid.value) == 0)
  }

  /** An ack whose err is missing or not zero. */
  ghost predicate Refuses(m: Message) {
    m.kind == Some("ack") && (m.data.None? || m.data.value.err != Some(0))
  }

  /** Under sid s. An rxstat without a sid counts as one under sid 2^32 - 1. */
  ghost predicate Matches(m: Message, s: nat) {
    && m.kind == Some("rxstat")
    && s == if m.data.Some? && m.data.value.sid.Some? then AsUint32(m.data.value.sid.value) else U32 - 1
  }

  /** Uncorrupted, with a text. */
  ghost predicate Readable(m: Message) {
    && m.data.Some? && m.data.value.sid.Some?
    && (m.data.value.qual == None || m.data.value.qual == Some(0))
    && m.data.value.frame.Text?
  }

  /** An uncorrupted answer under sid s with this text. */
  ghost predicate Answers(m: Message, s: nat, text: seq<byte>) {
    Matches(m, s) && Readable(m) && text == CString(m.data.value.frame.bytes)
  }

  /** The message a turn gets to see, if it reads one. */
  function Heard(parse: Parser, l: Loop, o: Obs): Option<Message> {
    if o.got == [] then None else parse(CString(Fill(l.dout, o.got)))
  }

  predicate SendFails(l: Loop, o: Obs) {
    l.resend && o.sendRc < 0
  }

  // ---------------------------------------------------------------------
  // One turn
  // ---------------------------------------------------------------------

  ghost predicate RefusalHeard(parse: Parser, l: Loop, o: Obs) {
    HeadState(l) == 0 && Heard(parse, l, o).Some? && Refuses(Heard(parse, l, o).value)
  }

  /** The result is below -256 exactly when an ack was refused, and says by how much. */
  lemma RefusalCode(parse: Parser, ref: Timespec, l: Loop, o: Obs)
    requires !SendFails(l, o)
    ensures var t := Turn(parse, ref, l, o); (t.Returned? && t.rc <= -257) <==> RefusalHeard(parse, l, o)
    ensures RefusalHeard(parse, l, o) ==>
              var data := Heard(parse, l, o).value.data;
              Turn(parse, ref, l, o).rc == if data.Some? && data.value.err.Some? && data.value.err.value > 0
                then -256 - data.value.err.value
                else if data.Some? && data.value.err.Some? then -256 + data.value.err.value
                else -257
  {
  }

  ghost predicate AnswerHeard(parse: Parser, l: Loop, o: Obs, text: seq<byte>) {
    && HeadState(l) == 1 && Heard(parse, l, o).Some?
    && Answers(Heard(parse, l, o).value, Begin(l).sid, text)
  }

  lemma AnswerOrNot(parse: Parser, l: Loop, o: Obs)
    ensures (exists text: seq<byte> :: AnswerHeard(parse, l, o, text)) <==>
              && HeadState(l) == 1 && Heard(parse, l, o).Some?
              && Matches(Heard(parse, l, o).value, Begin(l).sid) && Readable(Heard(parse, l, o).value)
  {
    var m := Heard(parse, l, o);
    if HeadState(l) == 1 && m.Some? && Matches(m.value, Begin(l).sid) && Readable(m.value) {
      assert AnswerHeard(parse, l, o, CString(m.value.data.value.frame.bytes));
    }
  }

  ghost predicate CompletionHeard(parse: Parser, l: Loop, o: Obs) {
    HeadState(l) == 0 && Heard(parse, l, o).Some? && Completes(Heard(parse, l, o).value)
  }

  /** A result of 0 or more comes from exactly two sources; an answer's text is
      then in dst, cut to fit. */
  lemma SuccessCode(parse: Parser, ref: Timespec, l: Loop, o: Obs)
    requires !SendFails(l, o)
    ensures var t := Turn(parse, ref, l, o);
            (t.Returned? && t.rc >= 0)
              <==> (CompletionHeard(parse, l, o)
                    || (|l.dst| > 0 && exists text: seq<byte> :: AnswerHeard(parse, l, o, text)))
    ensures var t := Turn(parse, ref, l, o);
            CompletionHeard(parse, l, o) ==> t == Returned(0, l.dst, Begin(l).sends)
    ensures forall text: seq<byte> :: AnswerHeard(parse, l, o, text) && |l.dst| > 0 ==>
              var t := Turn(parse, ref, l, o);
              t.Returned? && HoldsText(t, text, l.dst)
  {
    AnswerOrNot(parse, l, o);
  }

  /** What ends the exchange at once. */
  ghost predicate Settled(parse: Parser, l: Loop, o: Obs) {
    || CompletionHeard(parse, l, o) || RefusalHeard(parse, l, o)
    || (|l.dst| > 0 && exists text: seq<byte> :: AnswerHeard(parse, l, o, text))
  }

  /** What calls for sending again: silence, or an answer that cannot be used. */
  ghost predicate RetryHeard(parse: Parser, l: Loop, o: Obs) {
    || o.got == []
    || (HeadState(l) == 1 && Heard(parse, l, o).Some?
        && Matches(Heard(parse, l, o).value, Begin(l).sid) && !Readable(Heard(parse, l, o).value))
  }

  /** The other results, exactly; and when the exchange goes on, and how. */
  lemma OtherCodes(parse: Parser, ref: Timespec, l: Loop, o: Obs)
    ensures var t := Turn(parse, ref, l, o);
            t.Running? <==> && !SendFails(l, o) && !Settled(parse, l, o) && o.clock.Some?
                            && AsInt32(l.budget - ElapsedMs(ref, o.clock.value)) > 0
    ensures var t := Turn(parse, ref, l, o); t.Running? ==> (t.loop.resend <==> RetryHeard(parse, l, o))
    ensures var t := Turn(parse, ref, l, o);
            t.Returned? ==> (t.rc == -6 <==> l.resend && o.sendRc < 0)
    ensures var t := Turn(parse, ref, l, o);
            t.Returned? && !SendFails(l, o) && !Settled(parse, l, o) ==>
              t.rc == if o.clock.None? then -5 else if RetryHeard(parse, l, o) then -4 else -1
  {
    AnswerOrNot(parse, l, o);
  }

  lemma SidsAreDistinct(a: int32, b: int32)
    ensures AsUint32(a) == AsUint32(b) <==> a == b
    ensures AsUint32(a) == 0 <==> a == 0
  {
  }

  /** An ack with err 0 and this sid. */
  ghost predicate AcksUnder(m: Message, a: int32) {
    m.kind == Some("ack") && m.data.Some? && m.data.value.err == Some(0) && m.data.value.sid == Some(a)
  }

  /** An rxstat with this sid that can be used. */
  ghost predicate ReportsUnder(m: Message, b: int32) {
    && m.kind == Some("rxstat") && m.data.Some? && m.data.value.sid == Some(b)
    && (m.data.value.qual == None || m.data.value.qual == Some(0)) && m.data.value.frame.Text?
  }

  /** Sids, as numbers: such an ack ends the exchange, with 0, if and only if its sid
      is 0. */
  lemma ZeroSidCompletes(parse: Parser, ref: Timespec, l: Loop, o: Obs, a: int32)
    requires (l.resend && o.sendRc >= 0) || (!l.resend && l.state == 0)
    requires Heard(parse, l, o).Some? && AcksUnder(Heard(parse, l, o).value, a)
    ensures var t := Turn(parse, ref, l, o);
            (t.Returned? && t.rc >= 0 <==> a == 0) && (a == 0 ==> t.Returned? && t.rc == 0)
  {
    SidsAreDistinct(a, 0);
  }

  /** And after one with another sid, an rxstat that can be used ends it with 0 or
      more if and only if it bears the same number. */
  lemma OnlyTheSameSidAnswers(parse: Parser, ref: Timespec, l: Loop, first: Obs, second: Obs, a: int32, b: int32)
    requires (l.resend && first.sendRc >= 0) || (!l.resend && l.state == 0)
    requires Heard(parse, l, first).Some? && AcksUnder(Heard(parse, l, first).value, a) && a != 0
    requires |l.dst| > 0 && Turn(parse, ref, l, first).Running?
    requires var l1 := Turn(parse, ref, l, first).loop;
             Heard(parse, l1, second).Some? && ReportsUnder(Heard(parse, l1, second).value, b)
    ensures var t := Turn(parse, ref, Turn(parse, ref, l, first).loop, second);
            t.Returned? && t.rc >= 0 <==> b == a
  {
    var l1 := Turn(parse, ref, l, first).loop;
    DstKeepsSize(parse, ref, l, first);
    SidsAreDistinct(a, b);
    SidsAreDistinct(a, 0);
    assert l1.state == 1 && !l1.resend && l1.sid == AsUint32(a);
    SuccessCode(parse, ref, l1, second);
    AnswerOrNot(parse, l1, second);
  }

  /** An rxstat without a sid makes the command be sent again, if and only if the
      ack announced the sid 2^32 - 1. */
  lemma MissingSid(parse: Parser, ref: Timespec, l: Loop, o: Obs)
    requires HeadState(l) == 1 && Heard(parse, l, o).Some? && Turn(parse, ref, l, o).Running?
    requires Heard(parse, l, o).value.kind == Some("rxstat")
    requires var data := Heard(parse, l, o).value.data; data.None? || data.value.sid.None?
    ensures Turn(parse, ref, l, o).loop.resend <==> l.sid == U32 - 1
  {
  }

  /** What is heard but neither settles the matter nor calls for a retry changes
      nothing, unless it is the ack that was waited for. */
  lemma OthersAreIgnored(parse: Parser, ref: Timespec, l: Loop, o: Obs)
    requires Turn(parse, ref, l, o).Running? && !RetryHeard(parse, l, o) && |l.dst| > 0
    ensures var t := Turn(parse, ref, l, o).loop;
            if HeadState(l) == 0 && Heard(parse, l, o).Some? && Accepts(Heard(parse, l, o).value, t.sid)
            then t.state == 1
            else t.state == HeadState(l) && t.sid == Begin(l).sid
    ensures var t := Turn(parse, ref, l, o).loop; !t.resend && t.dst == l.dst && t.sends == Begin(l).sends
  {
    AnswerOrNot(parse, l, o);
  }

  /** The buffer has rc bytes of the text, then its terminator, or its next byte
      when it was cut, and is unchanged behind. */
  ghost predicate HoldsText(t: Outcome, text: seq<byte>, before: seq<byte>)
    requires t.Returned? && |before| > 0
  {
    && t.rc == Min(|text|, |before| - 1)
    && t.dst == text[..t.rc] + [if t.rc < |text| then text[t.rc] else NUL] + before[t.rc + 1..]
  }

  lemma DstKeepsSize(parse: Parser, ref: Timespec, l: Loop, o: Obs)
    requires Turn(parse, ref, l, o).Running?
    ensures |Turn(parse, ref, l, o).loop.dst| == |l.dst|
    ensures |l.dst| > 0 ==> Turn(parse, ref, l, o).loop.dst == l.dst
  {
  }

  // ---------------------------------------------------------------------
  // Whole runs
  // ---------------------------------------------------------------------

  lemma {:induction false} DstUntouched(parse: Parser, ref: Timespec, l: Loop, script: seq<Obs>)
    requires Run(parse, ref, l, script).Running?
    ensures |Run(parse, ref, l, script).loop.dst| == |l.dst|
    ensures |l.dst| > 0 ==> Run(parse, ref, l, script).loop.dst == l.dst
    decreases |script|
  {
    if script != [] {
      var n := |script| - 1;
      DstUntouched(parse, ref, l, script[..n]);
      DstKeepsSize(parse, ref, Run(parse, ref, l, script[..n]).loop, script[n]);
    }
  }

  ghost predicate StaysZeroOrOne(parse: Parser, ref: Timespec, l: Loop, script: seq<Obs>) {
    Run(parse, ref, l, script).Running? ==>
      var h := HeadState(Run(parse, ref, l, script).loop); h == 0 || h == 1
  }

  lemma {:induction false} RoomKeepsZeroOrOne(parse: Parser, ref: Timespec, l: Loop, script: seq<Obs>)
    requires l.resend && |l.dst| > 0
    ensures StaysZeroOrOne(parse, ref, l, script)
    decreases |script|
  {
    if script != [] && Run(parse, ref, l, script).Running? {
      var n := |script| - 1;
      RoomKeepsZeroOrOne(parse, ref, l, script[..n]);
      DstUntouched(parse, ref, l, script[..n]);
    }
  }

  /** Without room, an answer to an accepted command leaves state 2, and nothing
      is resent. */
  lemma NoRoomLeavesStateTwo(ref: Timespec, l: Loop) returns (parse: Parser, script: seq<Obs>)
    requires l.resend && l.dst == [] && 0 < l.budget < 0x8000_0000
    ensures Run(parse, ref, l, script).Running?
    ensures var t := Run(parse, ref, l, script).loop; HeadState(t) == 2 && !t.resend
  {
    var ack := Message(Some("ack"), Some(Data(Some(0), Some(7), None, NoFrame)));
    var answer := Message(Some("rxstat"), Some(Data(None, Some(7), None, Text([65]))));
    parse := s => if s == [1] then Some(ack) else Some(answer);
    var first, second := Obs(0, [1, 0], Some(ref)), Obs(0, [2, 0], Some(ref));
    script := [first, second];
    var l1 := NoRoomAccepts(parse, ref, l, ack);
    NoRoomAnswers(parse, ref, l1, answer);
    assert script[..1] == [first] && [first][..0] == [];
    assert Run(parse, ref, l, [first]) == Turn(parse, ref, l, first);
  }

  lemma NoRoomAccepts(parse: Parser, ref: Timespec, l: Loop, ack: Message) returns (next: Loop)
    requires l.resend && l.dst == [] && 0 < l.budget < 0x8000_0000
    requires parse([1]) == Some(ack) && Accepts(ack, 7)
    ensures Turn(parse, ref, l, Obs(0, [1, 0], Some(ref))) == Running(next)
    ensures !next.resend && next.state == 1 && next.sid == 7 && next.dst == [] && next.budget == l.budget
  {
    StringIn(l.dout, 1);
    next := l.(resend := false, state := 1, sid := 7, dout := Fill(l.dout, [1, 0]), sends := l.sends + 1);
  }

  lemma NoRoomAnswers(parse: Parser, ref: Timespec, l: Loop, answer: Message)
    requires !l.resend && l.state == 1 && l.dst == [] && 0 < l.budget < 0x8000_0000
    requires parse([2]) == Some(answer) && Answers(answer, l.sid, [65])
    ensures Turn(parse, ref, l, Obs(0, [2, 0], Some(ref)))
         == Running(l.(state := 2, dout := Fill(l.dout, [2, 0])))
  {
    StringIn(l.dout, 2);
  }

  lemma StringIn(dout: seq<byte>, b: byte)
    requires b != NUL
    ensures CString(Fill(dout, [b, NUL])) == [b]
  {
    var s := Fill(dout, [b, NUL]);
    assert s[..1] == [b];
    CStringStops(s, 1);
  }

  /** At every loop head of every run the state is 0 or 1, if and only if dst has
      room for at least one byte. */
  lemma HeadStateIsZeroOrOne(ref: Timespec, l: Loop)
    requires l.resend && 0 < l.budget < 0x8000_0000
    ensures |l.dst| > 0 <==> forall parse: Parser, script: seq<Obs> :: StaysZeroOrOne(parse, ref, l, script)
  {
    if |l.dst| > 0 {
      forall parse: Parser, script: seq<Obs>
        ensures StaysZeroOrOne(parse, ref, l, script)
      {
        RoomKeepsZeroOrOne(parse, ref, l, script);
      }
    } else {
      var parse, script := NoRoomLeavesStateTwo(ref, l);
      assert !StaysZeroOrOne(parse, ref, l, script);
    }
  }

  /** No loop head after turn j begins with a resend, the last one included. */
  ghost predicate NoResendAfter(parse: Parser, ref: Timespec, l: Loop, script: seq<Obs>, j: nat) {
    forall i :: j < i <= |script| ==>
      Run(parse, ref, l, script[..i]).Running? && !Run(parse, ref, l, script[..i]).loop.resend
  }

  ghost predicate AcceptedAt(parse: Parser, ref: Timespec, l: Loop, script: seq<Obs>, j: nat, sid: nat)
    requires j < |script|
  {
    && Run(parse, ref, l, script[..j]).Running?
    && var lj := Run(parse, ref, l, script[..j]).loop;
    && HeadState(lj) == 0
    && Heard(parse, lj, script[j]).Some?
    && Accepts(Heard(parse, lj, script[j]).value, sid)
  }

  lemma TurnToStateOne(parse: Parser, ref: Timespec, l: Loop, o: Obs)
    requires Turn(parse, ref, l, o).Running? && HeadState(Turn(parse, ref, l, o).loop) == 1
    ensures var t := Turn(parse, ref, l, o).loop;
            && !t.resend
            && (|| (HeadState(l) == 1 && t.sid == l.sid)
                || (HeadState(l) == 0 && Heard(parse, l, o).Some? && Accepts(Heard(parse, l, o).value, t.sid)))
  {
  }

  lemma NoResendYet(parse: Parser, ref: Timespec, l: Loop, script: seq<Obs>, n: nat, j: nat)
    requires j <= n && |script| == n + 1
    requires Run(parse, ref, l, script).Running? && !Run(parse, ref, l, script).loop.resend
    requires NoResendAfter(parse, ref, l, script[..n], j)
    ensures NoResendAfter(parse, ref, l, script, j)
  {
    forall i | j < i <= |script|
      ensures Run(parse, ref, l, script[..i]).Running? && !Run(parse, ref, l, script[..i]).loop.resend
    {
      if i <= n {
        assert script[..n][..i] == script[..i];
      } else {
        assert script[..i] == script;
      }
    }
  }

  /** State 1 at a loop head: since the last send, an ack with err 0 and the
      remembered sid, not 0, was heard. */
  lemma {:induction false} StateOneIsJustified(parse: Parser, ref: Timespec, l: Loop, script: seq<Obs>)
    returns (j: nat)
    requires l.resend && Run(parse, ref, l, script).Running?
    requires HeadState(Run(parse, ref, l, script).loop) == 1
    ensures j < |script|
    ensures AcceptedAt(parse, ref, l, script, j, Run(parse, ref, l, script).loop.sid)
    ensures NoResendAfter(parse, ref, l, script, j)
    decreases |script|
  {
    var n := |script| - 1;
    var before := Run(parse, ref, l, script[..n]).loop;
    TurnToStateOne(parse, ref, before, script[n]);
    if HeadState(before) == 1 {
      j := StateOneIsJustified(parse, ref, l, script[..n]);
      assert script[..n][..j] == script[..j];
    } else {
      j := n;
    }
    NoResendYet(parse, ref, l, script, n, j);
  }

  lemma {:induction false} LastTurn(parse: Parser, ref: Timespec, l: Loop, script: seq<Obs>) returns (k: nat)
    requires Run(parse, ref, l, script).Returned?
    ensures k < |script| && Run(parse, ref, l, script[..k]).Running?
    ensures Turn(parse, ref, Run(parse, ref, l, script[..k]).loop, script[k]) == Run(parse, ref, l, script)
    decreases |script|
  {
    var n := |script| - 1;
    if Run(parse, ref, l, script[..n]).Running? {
      k := n;
    } else {
      k := LastTurn(parse, ref, l, script[..n]);
      assert script[..n][..k] == script[..k];
    }
  }

  /** The whole story behind a result of 0 or more: either the last line heard
      completed the command; or an earlier line accepted it under some sid, and
      the last line is an uncorrupted answer under that sid, whose text is in dst. */
  ghost predicate Story(parse: Parser, ref: Timespec, l: Loop, script: seq<Obs>, k: nat, t: Outcome)
    requires k < |script| && t.Returned?
  {
    && Run(parse, ref, l, script[..k]).Running?
    && var lk := Run(parse, ref, l, script[..k]).loop;
    && (|| (t.rc == 0 && t.dst == l.dst && CompletionHeard(parse, lk, script[k]))
        || (|l.dst| > 0 && exists j: nat, text: seq<byte> ::
              j < k && AnsweredFrom(parse, ref, l, script, j, k, text) && HoldsText(t, text, l.dst)))
  }

  ghost predicate AnsweredFrom(parse: Parser, ref: Timespec, l: Loop, script: seq<Obs>, j: nat, k: nat, text: seq<byte>)
    requires j < k < |script|
  {
    && Run(parse, ref, l, script[..k]).Running?
    && var lk := Run(parse, ref, l, script[..k]).loop;
    && AnswerHeard(parse, lk, script[k], text)
    && AcceptedAt(parse, ref, l, script[..k], j, lk.sid)
    && NoResendAfter(parse, ref, l, script[..k], j)
  }

  lemma SuccessIsJustified(parse: Parser, ref: Timespec, l: Loop, script: seq<Obs>) returns (k: nat)
    requires l.resend
    requires Run(parse, ref, l, script).Returned? && Run(parse, ref, l, script).rc >= 0
    ensures k < |script| && Story(parse, ref, l, script, k, Run(parse, ref, l, script))
  {
    k := LastTurn(parse, ref, l, script);
    var lk := Run(parse, ref, l, script[..k]).loop;
    DstUntouched(parse, ref, l, script[..k]);
    SuccessCode(parse, ref, lk, script[k]);
    if !CompletionHeard(parse, lk, script[k]) {
      var text: seq<byte> :| AnswerHeard(parse, lk, script[k], text);
      var j := StateOneIsJustified(parse, ref, l, script[..k]);
      assert AnsweredFrom(parse, ref, l, script, j, k, text);
    }
  }

  lemma TurnCounts(parse: Parser, ref: Timespec, l: Loop, o: Obs)
    requires l.resend || l.sends > 0
    ensures var t := Turn(parse, ref, l, o);
            if t.Running? then t.loop.sends > 0
            else t.sends > 0 || (t.rc == -6 && t.sends == 0 && t.dst == l.dst)
  {
  }

  lemma {:induction false} RunCounts(parse: Parser, ref: Timespec, l: Loop, script: seq<Obs>)
    requires l.resend && l.sends == 0
    ensures match Run(parse, ref, l, script)
            case Running(t) => t.sends > 0 || (script == [] && t == l)
            case Returned(rc, dst, n) => n > 0 || (rc == -6 && dst == l.dst)
    decreases |script|
  {
    if script != [] {
      var n := |script| - 1;
      RunCounts(parse, ref, l, script[..n]);
      if Run(parse, ref, l, script[..n]).Running? {
        TurnCounts(parse, ref, Run(parse, ref, l, script[..n]).loop, script[n]);
      }
    }
  }

  /** Every result of the whole call is one of the documented kinds; -3 says that no
      reader was made, and nothing is sent before there are a reader and a first
      reading of the clock. */
  lemma CallResults(parse: Parser, timeout: int, tries: int, reader: bool, ref: Option<Timespec>,
                    script: seq<Obs>, dout: seq<byte>, dst: seq<byte>)
    ensures !reader || ref.None? ==>
              var t := Socket(parse, timeout, tries, reader, ref, script, dout, dst);
              t.Returned? && t.sends == 0
    ensures var t := Socket(parse, timeout, tries, reader, ref, script, dout, dst);
            t.Returned? ==>
              && (t.rc >= 0 || t.rc == -1 || -6 <= t.rc <= -3 || t.rc <= -257)
              && (t.rc == -3 <==> !reader)
              && (t.sends == 0 ==> t.dst == dst && (t.rc == -3 || t.rc == -5 || t.rc == -6))
  {
    var t := Socket(parse, timeout, tries, reader, ref, script, dout, dst);
    if reader && ref.Some? {
      var l := Start(timeout, tries, dout, dst);
      RunCounts(parse, ref.value, l, script);
      if t.Returned? {
        var k := LastTurn(parse, ref.value, l, script);
        ResultKinds(parse, ref.value, Run(parse, ref.value, l, script[..k]).loop, script[k]);
      }
    }
  }

  lemma ResultKinds(parse: Parser, ref: Timespec, l: Loop, o: Obs)
    requires Turn(parse, ref, l, o).Returned?
    ensures var rc := Turn(parse, ref, l, o).rc; rc >= 0 || rc == -1 || -6 <= rc <= -4 || rc <= -257
  {
    OtherCodes(parse, ref, l, o);
    if !SendFails(l, o) {
      RefusalCode(parse, ref, l, o);
      SuccessCode(parse, ref, l, o);
    }
  }
}
