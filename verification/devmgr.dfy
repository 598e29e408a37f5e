/** The command/response exchange of sub_devmgr_socket (main/cmd_devmgr.c). */
module Devmgr {
  import opened Common
  import opened Clock

  // ---------------------------------------------------------------------
  // Messages
  // ---------------------------------------------------------------------

  type int32 = x: int | -0x8000_0000 <= x < 0x8000_0000

  /** The item "frame": missing, not a string, or the bytes of its string. */
  datatype Frame = NoFrame | NotText | Text(bytes: seq<byte>)

  /** The object "data". None: the item is missing or not a number. */
  datatype Data = Data(err: Option<int32>, sid: Option<int32>, qual: Option<int32>, frame: Frame)

  /** A parsed line. kind: the string "type"; data: None if missing or no object. */
  datatype Message = Message(kind: Option<string>, data: Option<Data>)

  /** Stands for cJSON_Parse: None when the text is not JSON. */
  type Parser = seq<byte> -> Option<Message>

  /** Conversion to uint32_t. */
  function AsUint32(x: int): nat {
    x % U32
  }

  /** Conversion of a long to int. */
  function AsInt32(x: int): int32 {
    var m := x % U32;
    if m < 0x8000_0000 then m else m - U32
  }

  predicate GetType(m: Message, name: string) {
    m.kind == Some(name)
  }

  /** The err value, -1 by default, and what is stored through sid, if anything. */
  function GetAck(m: Message): (int, Option<nat>) {
    if m.data.None? || m.data.value.err.None? then (-1, None)
    else
      var sid := if m.data.value.sid.Some? then AsUint32(m.data.value.sid.value) else 0;
      (m.data.value.err.value, Some(sid))
  }

  /** The sid value, -1 by default, with qual (0 by default) and the frame. */
  function GetFrame(m: Message): (int, int, Frame) {
    if m.data.None? || m.data.value.sid.None? then (-1, 0, NoFrame)
    else
      var d := m.data.value;
      (d.sid.value, if d.qual.Some? then d.qual.value else 0, d.frame)
  }

  // ---------------------------------------------------------------------
  // One turn of the loop
  // ---------------------------------------------------------------------

  /** sizeof(dout) */
  const DOUT := 1024

  type Line = s: seq<byte> | |s| <= DOUT

  /** What the world does in one turn: the result of sp_sendcmd if the turn begins
      with one, the bytes sp_read gives (none: a result of 0 or less), and the
      clock, or None if reading it fails. */
  datatype Obs = Obs(sendRc: int, got: Line, clock: Option<Timespec>)

  /** The locals at the head of a turn. resend: the turn begins at SENDCMD.
      sends counts the successful calls of sp_sendcmd. */
  datatype Loop = Loop(
    resend: bool, state: int, sid: nat, budget: int,
    dout: seq<byte>, dst: seq<byte>, sends: nat)

  datatype Outcome =
    | Running(loop: Loop)
    | Returned(rc: int, dst: seq<byte>, sends: nat)

  /** After a message: the new locals, rc, and whether it goes to TERM at once. */
  datatype Handled = Handled(loop: Loop, rc: int, leave: bool)

  /** The value of `state` when the inner loop is entered. */
  function HeadState(l: Loop): int {
    if l.resend then 0 else l.state
  }

  function Begin(l: Loop): Loop {
    if l.resend then l.(resend := false, state := 0, sid := U32 - 1, sends := l.sends + 1) else l
  }

  /** sp_read overwrites the front of dout. */
  function Fill(dout: seq<byte>, got: seq<byte>): seq<byte> {
    if |got| <= |dout| then got + dout[|got|..] else got
  }

  /** Lines 298-303: the result is the length of the frame's string, cut to fit. */
  function Fit(text: seq<byte>, dstmax: nat): int {
    if |text| > dstmax - 1 then dstmax - 1 else |text|
  }

  function HandleAck(l: Loop, m: Message): Handled {
    if !GetType(m, "ack") then Handled(l, -1, false)
    else
      var (err, sid) := GetAck(m);
      var l' := if sid.Some? then l.(sid := sid.value) else l;
      if err != 0 then Handled(l', -256 - (if err < 0 then -err else err), true)
      else if l'.sid == 0 then Handled(l', 0, true)
      else Handled(l'.(state := 1), -1, false)
  }

  function HandleRxstat(l: Loop, m: Message): Handled {
    if !GetType(m, "rxstat") then Handled(l, -1, false)
    else
      var (sid, qual, frame) := GetFrame(m);
      if l.sid != AsUint32(sid) then Handled(l, -1, false)
      else if qual == 0 && frame.Text? then
        var text := CString(frame.bytes);
        var rc := Fit(text, |l.dst|);
        Handled(l.(state := 2, dst := StoreFrame(l.dst, text, rc)), rc, false)
      else Handled(l.(state := 2), -4, false)
  }

  /** rc + 1 bytes of the string, its terminator included, go to dst. */
  function StoreFrame(dst: seq<byte>, text: seq<byte>, rc: int): seq<byte> {
    if 0 <= rc <= |text| && rc < |dst| then (text + [NUL])[..rc + 1] + dst[rc + 1..] else dst
  }

  /** Lines 243-326. */
  function Receive(parse: Parser, l: Loop, got: seq<byte>): Handled {
    if got == [] then Handled(l, -4, false)
    else
      var l' := l.(dout := Fill(l.dout, got));
      match parse(CString(l'.dout))
      case None => Handled(l', -1, false)
      case Some(m) =>
        if l'.state == 0 then HandleAck(l', m)
        else if l'.state == 1 then HandleRxstat(l', m)
        else Handled(l', -1, false)
  }

  /** Lines 228-350: one turn, up to the next read or resend. */
  function Turn(parse: Parser, ref: Timespec, l: Loop, o: Obs): Outcome {
    if l.resend && o.sendRc < 0 then Returned(-6, l.dst, l.sends)
    else
      var h := Receive(parse, Begin(l), o.got);
      if h.leave || h.rc >= 0 then Returned(h.rc, h.loop.dst, h.loop.sends)
      else
        match o.clock
        case None => Returned(-5, h.loop.dst, h.loop.sends)
        case Some(now) =>
          var budget := AsInt32(h.loop.budget - ElapsedMs(ref, now));
          if budget <= 0 then Returned(h.rc, h.loop.dst, h.loop.sends)
          else Running(h.loop.(budget := budget, resend := h.rc == -4))
  }

  /** The turns of a whole script, in order; it stops at the first return. */
  function Run(parse: Parser, ref: Timespec, l: Loop, script: seq<Obs>): Outcome
    decreases |script|
  {
    if script == [] then Running(l)
    else
      match Run(parse, ref, l, script[..|script| - 1])
      case Running(l') => Turn(parse, ref, l', script[|script| - 1])
      case done => done
  }

  lemma RunSnoc(parse: Parser, ref: Timespec, l: Loop, script: seq<Obs>, o: Obs)
    ensures Run(parse, ref, l, script + [o]) ==
            match Run(parse, ref, l, script)
            case Running(l') => Turn(parse, ref, l', o)
            case done => done
  {
    assert (script + [o])[..|script|] == script;
  }

  // ---------------------------------------------------------------------
  // The whole call
  // ---------------------------------------------------------------------

  /** C's division by two. */
  function Half(x: int): int {
    if x >= 0 then x / 2 else -(-x / 2)
  }

  function InitialBudget(timeout: int, tries: int): int {
    timeout * tries + Half(timeout)
  }

  /** The product and the sum of line 210 fit an int; in C anything else is undefined. */
  predicate BudgetFits(timeout: int32, tries: int32) {
    && -0x8000_0000 <= timeout * tries < 0x8000_0000
    && -0x8000_0000 <= InitialBudget(timeout, tries) < 0x8000_0000
  }

  function Start(timeout: int, tries: int, dout: seq<byte>, dst: seq<byte>): Loop {
    Loop(true, 0, 0, InitialBudget(timeout, tries), dout, dst, 0)
  }

  /** reader: sp_reader_create gave one; ref: the first clock reading, None if it fails. */
  function Socket(parse: Parser, timeout: int, tries: int, reader: bool, ref: Option<Timespec>,
                  script: seq<Obs>, dout: seq<byte>, dst: seq<byte>): Outcome {
    if !reader then Returned(-3, dst, 0)
    else match ref
      case None => Returned(-5, dst, 0)
      case Some(r) => Run(parse, r, Start(timeout, tries, dout, dst), script)
  }

  method CopyInto(src: seq<byte>, dst: array<byte>)
    requires |src| <= dst.Length
    modifies dst
    ensures dst[..] == src + old(dst[..])[|src|..]
  {
    var i := 0;
    while i < |src|
      invariant 0 <= i <= |src|
      invariant forall k :: 0 <= k < i ==> dst[k] == src[k]
      invariant forall k :: i <= k < dst.Length ==> dst[k] == old(dst[k])
    {
      dst[i] := src[i];
      i := i + 1;
    }
  }

  /** Lines 256-326, for a line that was read. */
  method ReceiveLine(parse: Parser, ghost head: Loop, state0: int, sid0: nat, got: Line,
                     dout: array<byte>, dst: array<byte>)
    returns (state: int, sid: nat, rc: int, leave: bool)
    requires got != [] && dout != dst && dout.Length == DOUT
    requires dout[..] == head.dout && dst[..] == head.dst
    requires state0 == head.state && sid0 == head.sid
    modifies dout, dst
    ensures Receive(parse, head, got)
         == Handled(head.(state := state, sid := sid, dout := dout[..], dst := dst[..]), rc, leave)
  {
    state, sid, rc, leave := state0, sid0, -1, false;
    CopyInto(got, dout);
    var resp := parse(CString(dout[..]));
    if resp.Some? {
      var m := resp.value;
      if state == 0 {
        if GetType(m, "ack") {
          var (err, s) := GetAck(m);
          if s.Some? {
            sid := s.value;
          }
          if err != 0 {
            rc, leave := -256 - (if err < 0 then -err else err), true;
          } else if sid == 0 {
            rc, leave := 0, true;
          } else {
            state := 1;
          }
        }
      } else if state == 1 {
        if GetType(m, "rxstat") {
          var (s, qual, frame) := GetFrame(m);
          if sid == AsUint32(s) {
            state, rc := 2, -4;
            if qual == 0 && frame.Text? {
              var text := CString(frame.bytes);
              rc := |text|;
              if rc > dst.Length - 1 {
                rc := dst.Length - 1;
              }
              CopyInto((text + [NUL])[..rc + 1], dst);
            }
          }
        }
      }
    }
  }

  /** Lines 228-350, from SENDCMD or from the head of the inner loop. */
  method TakeTurn(parse: Parser, ref: Timespec, ghost head: Loop,
                  resend0: bool, state0: int, sid0: nat, budget0: int, sends0: nat,
                  o: Obs, dout: array<byte>, dst: array<byte>)
    returns (resend: bool, state: int, sid: nat, budget: int, sends: nat, rc: int, done: bool)
    requires dout != dst && dout.Length == DOUT
    requires head == Loop(resend0, state0, sid0, budget0, dout[..], dst[..], sends0)
    modifies dout, dst
    ensures done ==> Turn(parse, ref, head, o) == Returned(rc, dst[..], sends)
    ensures !done ==> Turn(parse, ref, head, o) == Running(Loop(resend, state, sid, budget, dout[..], dst[..], sends))
  {
    resend, state, sid, budget, sends, rc, done := resend0, state0, sid0, budget0, sends0, -4, true;
    if resend {
      if o.sendRc < 0 {
        rc := -6;
        return;
      }
      sends := sends + 1;
      state, sid, resend := 0, U32 - 1, false;
    }
    var leave := false;
    if |o.got| > 0 {
      state, sid, rc, leave := ReceiveLine(parse, Begin(head), state, sid, o.got, dout, dst);
    }
    if leave || rc >= 0 {
      return;
    }
    if o.clock.None? {
      rc := -5;
      return;
    }
    budget := AsInt32(budget - ElapsedMs(ref, o.clock.value));
    if budget <= 0 {
      return;
    }
    resend, done := rc == -4, false;
  }

  /** sub_devmgr_socket over a script. None: the script ends before the call does. */
  method DevmgrSocket(parse: Parser, timeout: int32, tries: int32, reader: bool, first: Option<Timespec>,
                      script: seq<Obs>, dout: array<byte>, dst: array<byte>)
    returns (result: Option<int>, sends: nat)
    requires BudgetFits(timeout, tries)
    requires dout != dst && dout.Length == DOUT
    modifies dout, dst
    ensures match Socket(parse, timeout, tries, reader, first, script, old(dout[..]), old(dst[..]))
            case Running(l) => result == None && dst[..] == l.dst && dout[..] == l.dout && sends == l.sends
            case Returned(rc, d, n) => result == Some(rc) && dst[..] == d && sends == n
  {
    var budget: int := timeout * tries + Half(timeout);
    if !reader {
      return Some(-3), 0;
    }
    if first.None? {
      return Some(-5), 0;
    }
    var resend, state: int, sid: nat := true, 0, 0;
    sends := 0;
    ghost var start := Start(timeout, tries, dout[..], dst[..]);
    for i := 0 to |script|
      invariant Run(parse, first.value, start, script[..i])
             == Running(Loop(resend, state, sid, budget, dout[..], dst[..], sends))
    {
      TurnAt(parse, first.value, start, script, i);
      ghost var head := Loop(resend, state, sid, budget, dout[..], dst[..], sends);
      var rc, done;
      resend, state, sid, budget, sends, rc, done :=
        TakeTurn(parse, first.value, head, resend, state, sid, budget, sends, script[i], dout, dst);
      if done {
        return Some(rc), sends;
      }
    }
    assert script[..|script|] == script;
    result := None;
  }

  /** What has returned stays returned. */
  lemma {:induction false} RunStops(parse: Parser, ref: Timespec, l: Loop, script: seq<Obs>, n: nat)
    requires n <= |script|
    ensures Run(parse, ref, l, script[..n]).Returned? ==>
              Run(parse, ref, l, script) == Run(parse, ref, l, script[..n])
    decreases |script|
  {
    if n < |script| {
      var m := |script| - 1;
      RunStops(parse, ref, l, script[..m], n);
      assert script[..m][..n] == script[..n];
      assert script == script[..m] + [script[m]];
    } else {
      assert script[..n] == script;
    }
  }

  lemma TurnAt(parse: Parser, ref: Timespec, l: Loop, script: seq<Obs>, i: nat)
    requires i < |script| && Run(parse, ref, l, script[..i]).Running?
    ensures var t := Turn(parse, ref, Run(parse, ref, l, script[..i]).loop, script[i]);
            Run(parse, ref, l, script[..i + 1]) == t && (t.Returned? ==> Run(parse, ref, l, script) == t)
  {
    assert script[..i + 1] == script[..i] + [script[i]];
    RunSnoc(parse, ref, l, script[..i], script[i]);
    RunStops(parse, ref, l, script, i + 1);
  }
}
