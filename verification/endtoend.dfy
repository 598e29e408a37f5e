/** From the bytes on the socket to the result of a command: framing, handshake
    and protocol composed. */
module EndToEnd {
  import opened Common
  import opened Framing
  import opened Handshake
  import opened Invariant
  import opened Delivery
  import opened Clock
  import opened Devmgr
  import opened Exchange

  /** The reads of the exchange are the calls made on its reader, in order, each
      with room for sizeof(dout) bytes. */
  ghost predicate ReadsFrom(script: seq<Obs>, log: seq<Read>) {
    && |script| <= |log|
    && forall i :: 0 <= i < |script| ==> script[i].got == log[i].data && log[i].max == DOUT
  }

  /** Line i of the bytes received, as framed, parses to m. */
  ghost predicate Carries(parse: Parser, rx: seq<byte>, i: nat, m: Message) {
    i < |Lines(rx)| && parse(Wrap(Lines(rx)[i])) == Some(m)
  }

  /** Parser input is well formed: whatever dout held before, after a read that
      gave a whole line a parse sees that line, all of it and nothing else. */
  lemma ParserSeesOneLine(dout: seq<byte>, line: seq<byte>)
    requires WellFormedLine(line)
    ensures CString(Fill(dout, line)) == line[..|line| - 1]
  {
    var buf := Fill(dout, line);
    assert buf[..|line| - 1] == line[..|line| - 1];
    assert NUL !in line[..|line| - 1];
    CStringStops(buf, |line| - 1);
  }

  /** What was heard in a turn is a line of the stream. */
  lemma HeardIsCarried(s: State, parse: Parser, l: Loop, o: Obs, at: nat)
    requires Reachable(s) && at < |s.m.pub| && o.got == s.m.pub[at]
    ensures o.got != [] && at < |Lines(s.m.rx)|
    ensures Heard(parse, l, o).Some? ==> Carries(parse, s.m.rx, at, Heard(parse, l, o).value)
  {
    PublicationRefinesStream(s);
    ParserSeesOneLine(l.dout, o.got);
    var line := Lines(s.m.rx)[at];
    assert o.got == Published(line);
    assert Published(line)[..|Published(line)| - 1] == Wrap(line);
  }

  /** A call that gave something gave one whole published line. */
  lemma GotIsLine(s: State, script: seq<Obs>, at: seq<nat>, i: nat)
    requires Reachable(s) && ReadsFrom(script, s.r.log) && i < |script| && script[i].got != []
    requires IsSource(at, s.r.log, s.m.pub, s.r.base)
    ensures s.r.base <= at[i] < |s.m.pub| && script[i].got == s.m.pub[at[i]]
  {
    PublicationRefinesStream(s);
    assert s.r.log[i].data == Clip(DOUT, s.m.pub[at[i]]);
    assert WellFormedLine(s.m.pub[at[i]]);
  }

  /** The two kinds of reason for a success, in terms of the bytes received.
      base: how many lines had been published when the reader was made. */
  ghost predicate CompletedBy(parse: Parser, rx: seq<byte>, base: nat, q: nat, m: Message) {
    base <= q && Carries(parse, rx, q, m) && Completes(m)
  }

  ghost predicate AnsweredBy(parse: Parser, rx: seq<byte>, base: nat, p: nat, q: nat,
                             ack: Message, answer: Message, sid: nat, text: seq<byte>) {
    && base <= p < q
    && Carries(parse, rx, p, ack) && Accepts(ack, sid)
    && Carries(parse, rx, q, answer) && Answers(answer, sid, text)
    && ack.data.value.sid == answer.data.value.sid && answer.data.value.sid != Some(0)
  }

  ghost predicate Justified(parse: Parser, rx: seq<byte>, base: nat, dst: seq<byte>, t: Outcome)
    requires t.Returned?
  {
    || (t.rc == 0 && t.dst == dst && exists q: nat, m: Message :: CompletedBy(parse, rx, base, q, m))
    || (|dst| > 0 && exists p: nat, q: nat, ack: Message, answer: Message, sid: nat, text: seq<byte> ::
          AnsweredBy(parse, rx, base, p, q, ack, answer, sid, text) && HoldsText(t, text, dst))
  }

  /** What turn i heard is line at[i] of the stream. */
  lemma TurnHeardLine(s: State, parse: Parser, l: Loop, script: seq<Obs>, at: seq<nat>, i: nat)
    requires Reachable(s) && ReadsFrom(script, s.r.log) && i < |script|
    requires IsSource(at, s.r.log, s.m.pub, s.r.base)
    requires Heard(parse, l, script[i]).Some?
    ensures script[i].got != [] && s.r.base <= at[i]
    ensures Carries(parse, s.m.rx, at[i], Heard(parse, l, script[i]).value)
  {
    GotIsLine(s, script, at, i);
    HeardIsCarried(s, parse, l, script[i], at[i]);
  }

  lemma AnswerIsOnTheWire(s: State, parse: Parser, ref: Timespec, l: Loop, script: seq<Obs>,
                          at: seq<nat>, j: nat, k: nat, text: seq<byte>)
    returns (ack: Message, answer: Message, sid: nat)
    requires Reachable(s) && ReadsFrom(script, s.r.log) && IsSource(at, s.r.log, s.m.pub, s.r.base)
    requires j < k < |script| && AnsweredFrom(parse, ref, l, script, j, k, text)
    ensures AnsweredBy(parse, s.m.rx, s.r.base, at[j], at[k], ack, answer, sid, text)
  {
    assert script[..k][..j] == script[..j];
    var lj, lk := Run(parse, ref, l, script[..j]).loop, Run(parse, ref, l, script[..k]).loop;
    TurnHeardLine(s, parse, lj, script, at, j);
    TurnHeardLine(s, parse, lk, script, at, k);
    ack, answer, sid := Heard(parse, lj, script[j]).value, Heard(parse, lk, script[k]).value, lk.sid;
    SidsAreDistinct(ack.data.value.sid.value, answer.data.value.sid.value);
    SidsAreDistinct(ack.data.value.sid.value, 0);
  }

  /** End to end: a result of 0 or more means that, after the reader was made,
      the socket received a line completing the command; or two distinct lines in
      order, one accepting it under a sid that is not 0, one an uncorrupted answer
      that bears the same number as sid, whose text is what dst holds. Without room in dst only the
      first can happen. */
  lemma SuccessIsOnTheWire(s: State, parse: Parser, ref: Timespec, l: Loop, script: seq<Obs>)
    requires Reachable(s) && ReadsFrom(script, s.r.log)
    requires l.resend
    requires Run(parse, ref, l, script).Returned? && Run(parse, ref, l, script).rc >= 0
    ensures Justified(parse, s.m.rx, s.r.base, l.dst, Run(parse, ref, l, script))
  {
    var t := Run(parse, ref, l, script);
    DeliveryRefinesPublication(s);
    var at: seq<nat> :| IsSource(at, s.r.log, s.m.pub, s.r.base);
    var k := SuccessIsJustified(parse, ref, l, script);
    var lk := Run(parse, ref, l, script[..k]).loop;
    if t.rc == 0 && t.dst == l.dst && CompletionHeard(parse, lk, script[k]) {
      TurnHeardLine(s, parse, lk, script, at, k);
      assert CompletedBy(parse, s.m.rx, s.r.base, at[k], Heard(parse, lk, script[k]).value);
    } else {
      var j: nat, text: seq<byte> :|
        j < k && AnsweredFrom(parse, ref, l, script, j, k, text) && HoldsText(t, text, l.dst);
      var ack, answer, sid := AnswerIsOnTheWire(s, parse, ref, l, script, at, j, k, text);
    }
  }

  /** Line q of the bytes received refused the command. */
  ghost predicate RefusedBy(parse: Parser, rx: seq<byte>, base: nat, q: nat, m: Message) {
    base <= q && Carries(parse, rx, q, m) && Refuses(m)
  }

  /** End to end: a result of -257 or less means that, after the reader was made,
      the socket received an ack with a missing or nonzero err. */
  lemma RefusalIsOnTheWire(s: State, parse: Parser, ref: Timespec, l: Loop, script: seq<Obs>)
    returns (q: nat, m: Message)
    requires Reachable(s) && ReadsFrom(script, s.r.log)
    requires Run(parse, ref, l, script).Returned? && Run(parse, ref, l, script).rc <= -257
    ensures RefusedBy(parse, s.m.rx, s.r.base, q, m)
  {
    DeliveryRefinesPublication(s);
    var at: seq<nat> :| IsSource(at, s.r.log, s.m.pub, s.r.base);
    var k := LastTurn(parse, ref, l, script);
    var lk := Run(parse, ref, l, script[..k]).loop;
    RefusalCode(parse, ref, lk, script[k]);
    TurnHeardLine(s, parse, lk, script, at, k);
    q, m := at[k], Heard(parse, lk, script[k]).value;
  }

  /** The same for the whole call: every result of sub_devmgr_socket that reports a
      success or a refusal is on the wire. */
  lemma ResultIsOnTheWire(s: State, parse: Parser, timeout: int, tries: int, reader: bool, ref: Option<Timespec>,
                          script: seq<Obs>, dout: seq<byte>, dst: seq<byte>)
    requires Reachable(s) && ReadsFrom(script, s.r.log)
    requires Socket(parse, timeout, tries, reader, ref, script, dout, dst).Returned?
    ensures var t := Socket(parse, timeout, tries, reader, ref, script, dout, dst);
            t.rc >= 0 ==> Justified(parse, s.m.rx, s.r.base, dst, t)
    ensures var t := Socket(parse, timeout, tries, reader, ref, script, dout, dst);
            t.rc <= -257 ==> exists q: nat, m: Message :: RefusedBy(parse, s.m.rx, s.r.base, q, m)
  {
    var t := Socket(parse, timeout, tries, reader, ref, script, dout, dst);
    if t.rc >= 0 {
      SuccessIsOnTheWire(s, parse, ref.value, Start(timeout, tries, dout, dst), script);
    } else if t.rc <= -257 {
      var q, m := RefusalIsOnTheWire(s, parse, ref.value, Start(timeout, tries, dout, dst), script);
    }
  }
}
