/** What sp_read delivers, over every interleaving. */
module Delivery {
  import opened Common
  import opened Framing
  import opened Handshake
  import opened Invariant

  /** The results of successive calls are, apart from empty ones, the clipped
      images of distinct published lines in publication order, all of them
      published after the first `base`. */
  ghost predicate Refines(results: seq<Read>, pub: seq<seq<byte>>, base: nat) {
    exists at: seq<nat> :: IsSource(at, results, pub, base)
  }

  /** at names, for every call that gave something, the line it came from. */
  ghost predicate IsSource(at: seq<nat>, results: seq<Read>, pub: seq<seq<byte>>, base: nat) {
    && |at| == |results|
    && (forall k :: 0 <= k < |at| && results[k].data != [] ==>
          base <= at[k] < |pub| && results[k].data == Clip(results[k].max, pub[at[k]]))
    && (forall j, k :: 0 <= j < k < |at| && results[j].data != [] && results[k].data != [] ==> at[j] < at[k])
  }

  function LineBefore(mark: nat): nat {
    if mark == 0 then 0 else mark - 1
  }

  lemma {:induction false} MarksGrow(pub: seq<seq<byte>>, r: Reader, j: nat, k: nat)
    requires Deliveries(pub, r) && j <= k < |r.log|
    ensures r.base <= r.marks[j] <= r.marks[k]
    decreases k
  {
    assert Delivered(pub, r, k);
    if j < k {
      MarksGrow(pub, r, j, k - 1);
    } else if k > 0 {
      MarksGrow(pub, r, k - 1, k - 1);
    }
  }

  lemma DeliveriesRefine(pub: seq<seq<byte>>, r: Reader)
    requires Deliveries(pub, r)
    ensures IsSource(Map(LineBefore, r.marks), r.log, pub, r.base)
  {
    var at := Map(LineBefore, r.marks);
    forall k | 0 <= k < |at| && r.log[k].data != []
      ensures r.base <= at[k] < |pub| && r.log[k].data == Clip(r.log[k].max, pub[at[k]])
    {
      assert Delivered(pub, r, k);
      if k > 0 {
        MarksGrow(pub, r, k - 1, k - 1);
      }
    }
    forall j, k | 0 <= j < k < |at| && r.log[j].data != [] && r.log[k].data != []
      ensures at[j] < at[k]
    {
      assert Delivered(pub, r, j) && Delivered(pub, r, k);
      MarksGrow(pub, r, j, k - 1);
    }
  }

  /** Delivery refines publication: in every interleaving nothing is delivered
      twice, out of order, or torn. */
  lemma DeliveryRefinesPublication(s: State)
    requires Reachable(s)
    ensures Refines(s.r.log, s.m.pub, s.r.base)
  {
    InvReachable(s);
    DeliveriesRefine(s.m.pub, s.r);
  }

  /** The published lines are the images, under the wrap rule, of the lines of
      the bytes received; the last may still be on its way. */
  lemma PublicationRefinesStream(s: State)
    requires Reachable(s)
    ensures s.m.pub <= Map(Published, Lines(s.m.rx))
    ensures |Lines(s.m.rx)| <= |s.m.pub| + 1
    ensures forall i :: 0 <= i < |s.m.pub| ==> WellFormedLine(s.m.pub[i])
  {
    InvReachable(s);
    FrameClosedForm(s.m.rx);
    FrameWellFormed(s.m.rx);
    forall i | 0 <= i < |s.m.pub|
      ensures WellFormedLine(s.m.pub[i])
    {
      assert s.m.pub[i] == Frame(s.m.rx).lines[i];
    }
  }

  /** A call with room for a whole line returns nothing, or one whole line: a
      single zero at its end and no terminator before. */
  lemma WholeLineOrNothing(s: State, k: nat)
    requires Reachable(s) && k < |s.r.log| && s.r.log[k].max >= RING
    ensures s.r.log[k].data == [] || (WellFormedLine(s.r.log[k].data) && s.r.log[k].data in s.m.pub)
  {
    DeliveryRefinesPublication(s);
    PublicationRefinesStream(s);
  }

  /** The test of line 436 sees a new line unless exactly a multiple of 2^32
      lines went by since the reader last loaded. */
  lemma FastTestMissesOnlyWrap(s: State)
    requires Reachable(s) && s.c.cl == CL_TEST_FRESH && s.r.lastRead == IdOf(s.r.seen) && Booted(s.c.io)
    ensures ClientTest(s.c.cl, s.m, s.r) <==> (|s.m.pub| - s.r.seen) % U32 != 0
  {
    InvReachable(s);
    WrapEqual(1 + s.r.seen, 1 + |s.m.pub|);
  }

  lemma WrapEqual(a: nat, b: nat)
    requires a <= b
    ensures a % U32 == b % U32 <==> (b - a) % U32 == 0
  {
    var qa, qb := a / U32, b / U32;
    assert b - a == (qb - qa) * U32 + (b % U32 - a % U32);
  }

  // ---------------------------------------------------------------------
  // A load gives the newest line, and the call returns it
  // ---------------------------------------------------------------------

  lemma LoadHoldsNewest(s: State)
    requires Inv(s) && LoadingBytes(s.c.cl) && |s.r.dst| >= s.r.want
    ensures s.m.pub == [] ==> s.r.dst == [] && s.c.cl == CL_FAST_COPY
    ensures s.m.pub != [] ==> s.r.dst == Clip(s.r.max, s.m.pub[|s.m.pub| - 1]) && s.r.dst != []
  {
    LoadIsStable(s.c);
    if s.m.pub != [] {
      FrameWellFormed(s.m.rx);
      assert s.m.pub[|s.m.pub| - 1] == Frame(s.m.rx).lines[|s.m.pub| - 1];
      assert s.r.dst == s.m.buf[..s.m.readSize][..|s.r.dst|];
    }
  }

  /** Whenever sub_loadread is done it holds its part of the newest line. On the
      wait path there is one, so the part is not empty. */
  lemma LoadGivesNewest(s: State)
    requires Reachable(s) && LoadingBytes(s.c.cl) && |s.r.dst| >= s.r.want
    ensures s.m.pub == [] ==> s.r.dst == [] && s.c.cl == CL_FAST_COPY
    ensures s.m.pub != [] ==> s.r.dst == Clip(s.r.max, s.m.pub[|s.m.pub| - 1]) && s.r.dst != []
  {
    InvReachable(s);
    LoadHoldsNewest(s);
  }

  /** Past a load that gave something, on the way to line 482. */
  predicate Leaving(s: State, r: Reader) {
    && s.r == r && r.dst != []
    && (CL_UNLOCK_FAST <= s.c.cl <= CL_TEST_EMPTY || CL_COUNT_OUT <= s.c.cl <= CL_RETURN)
  }

  predicate HasReturned(s: State, r: Reader) {
    s.c.cl == CL_IDLE && s.r.log == r.log + [Read(r.max, r.dst)]
  }

  lemma LeavingStep(s: State, e: Event)
    requires Leaving(s, s.r) && Step(s, e).Some?
    ensures var t := Step(s, e).value; Leaving(t, s.r) || HasReturned(t, s.r)
  {
    match e
    case IoGo => IoMoves(s.c, s.m.k < |s.m.next|);
    case Go => LeavingControl(s.c);
    case _ =>
  }

  lemma LeavingControl(c: Control)
    requires CL_UNLOCK_FAST <= c.cl <= CL_TEST_EMPTY || CL_COUNT_OUT <= c.cl <= CL_RETURN
    ensures ClientControl(c, false).Some? ==>
              var cl := ClientControl(c, false).value.cl;
              (c.cl < cl && (cl <= CL_TEST_EMPTY || CL_COUNT_OUT <= cl <= CL_RETURN))
              || (c.cl == CL_RETURN && cl == CL_IDLE)
  {
    if c.cl <= CL_TEST_EMPTY {
    } else if c.cl <= CL_TEST_LAST {
    }
  }

  /** Once a call has loaded something, whatever happens, the first thing the
      client does next is to return exactly that. */
  lemma {:induction false} LoadIsReturned(s: State, es: seq<Event>) returns (i: nat)
    requires Leaving(s, s.r) && Exec(s, es).Some? && Exec(s, es).value.c.cl == CL_IDLE
    ensures i <= |es| && Exec(s, es[..i]).Some? && HasReturned(Exec(s, es[..i]).value, s.r)
    decreases |es|
  {
    LeavingStep(s, es[0]);
    var t := Step(s, es[0]).value;
    if HasReturned(t, s.r) {
      i := 1;
      assert es[..1] == [es[0]] && es[..1][1..] == [];
    } else {
      var j := LoadIsReturned(t, es[1..]);
      i := j + 1;
      assert es[..i][1..] == es[1..][..j];
    }
  }

  // ---------------------------------------------------------------------
  // Freshness
  // ---------------------------------------------------------------------

  predicate Creating(cl: Position) {
    CL_CREATE_LOCK <= cl <= CL_SNAPSHOT
  }

  lemma StepKeepsBase(s: State, e: Event)
    requires !Creating(s.c.cl) && e != Create && Step(s, e).Some?
    ensures var t := Step(s, e).value; !Creating(t.c.cl) && t.r.base == s.r.base
  {
    if e == Go {
      ClientMoves(s.c, ClientTest(s.c.cl, s.m, s.r));
    } else if e == IoGo {
      IoMoves(s.c, s.m.k < |s.m.next|);
    }
  }

  lemma {:induction false} ExecKeepsBase(s: State, es: seq<Event>)
    requires !Creating(s.c.cl) && Create !in es && Exec(s, es).Some?
    ensures Exec(s, es).value.r.base == s.r.base
    decreases |es|
  {
    if es != [] {
      StepKeepsBase(s, es[0]);
      ExecKeepsBase(Step(s, es[0]).value, es[1..]);
    }
  }

  /** Freshness: whatever happens after sp_reader_create is about to return, no
      line published by then is ever delivered to that reader, on either path. */
  lemma NoStaleLine(s: State, es: seq<Event>)
    requires Reachable(s) && s.c.cl == CL_CREATE_UNLOCK
    requires Create !in es && Exec(s, es).Some?
    ensures var t := Exec(s, es).value; t.r.base == |s.m.pub| && Refines(t.r.log, t.m.pub, |s.m.pub|)
  {
    InvReachable(s);
    InvExec(s, es);
    ExecKeepsBase(s, es);
    var t := Exec(s, es).value;
    DeliveriesRefine(t.m.pub, t.r);
  }

  // What a purge throws away

  /** What the reader has loaded or delivered, from its l-th call on, is beyond the
      first n lines. */
  ghost predicate Beyond(s: State, n: nat, l: nat) {
    && s.r.seen >= n && l <= |s.r.log| == |s.r.marks|
    && (InRead(s.c.cl) && s.m.pub != [] && (LoadingSize(s.c.cl) || LoadingBytes(s.c.cl) || s.r.dst != []) ==>
          s.r.seen > n)
    && forall k :: l <= k < |s.r.log| ==> s.r.log[k].data == [] || s.r.marks[k] > n
  }

  lemma BeyondClient(s: State, n: nat, l: nat)
    requires Inv(s) && Beyond(s, n, l) && !Creating(s.c.cl) && ClientRun(s).Some?
    ensures Beyond(ClientRun(s).value, n, l)
  {
    var yes := ClientTest(s.c.cl, s.m, s.r);
    ClientMoves(s.c, yes);
    LoadIsFresh(s.c, s.m, s.r);
    LoadIsStable(s.c);
  }

  lemma BeyondIo(s: State, n: nat, l: nat)
    requires Inv(s) && Beyond(s, n, l) && IoRun(s).Some?
    ensures Beyond(IoRun(s).value, n, l)
  {
    IoMoves(s.c, s.m.k < |s.m.next|);
    LoadIsStable(s.c);
  }

  lemma BeyondCall(s: State, max: nat, n: nat, l: nat)
    requires Inv(s) && Beyond(s, n, l) && s.c.cl == CL_IDLE
    ensures Beyond(CallRead(s, max), n, l)
  {
  }

  lemma BeyondOther(s: State, e: Event, n: nat, l: nat)
    requires Beyond(s, n, l) && e != Create && Environment(s.c, e).Some?
    ensures Beyond(s.(c := Environment(s.c, e).value), n, l)
  {
  }

  lemma BeyondStep(s: State, e: Event, n: nat, l: nat)
    requires Inv(s) && Beyond(s, n, l) && !Creating(s.c.cl) && e != Create && Step(s, e).Some?
    ensures Beyond(Step(s, e).value, n, l)
  {
    match e
    case IoGo => BeyondIo(s, n, l);
    case Go => BeyondClient(s, n, l);
    case Call(max) => BeyondCall(s, max, n, l);
    case IoByte(b) => assert IoReceive(s, b).value.c.cl == s.c.cl;
    case _ => BeyondOther(s, e, n, l);
  }

  lemma {:induction false} BeyondRun(s: State, es: seq<Event>, n: nat, l: nat)
    requires Inv(s) && Beyond(s, n, l) && !Creating(s.c.cl) && Create !in es && Exec(s, es).Some?
    ensures Beyond(Exec(s, es).value, n, l)
    decreases |es|
  {
    if es != [] {
      BeyondStep(s, es[0], n, l);
      StepKeepsBase(s, es[0]);
      InvStep(s, es[0]);
      BeyondRun(Step(s, es[0]).value, es[1..], n, l);
    }
  }

  lemma BeyondRefines(s: State, n: nat, l: nat)
    requires Inv(s) && Beyond(s, n, l)
    ensures Refines(s.r.log[l..], s.m.pub, n)
  {
    DeliveriesRefine(s.m.pub, s.r);
    var at := Map(LineBefore, s.r.marks);
    assert IsSource(at[l..], s.r.log[l..], s.m.pub, n);
  }

  /** Purging: whatever happens after line 379, no line published before it is ever
      delivered to that reader by a later call. */
  lemma NothingOldAfterPurge(s: State, es: seq<Event>)
    requires Reachable(s) && s.c.cl == CL_PURGE_SNAPSHOT && Step(s, Go).Some?
    requires Create !in es && Exec(Step(s, Go).value, es).Some?
    ensures var t := Exec(Step(s, Go).value, es).value;
            |s.r.log| <= |t.r.log| && Refines(t.r.log[|s.r.log|..], t.m.pub, |s.m.pub|)
  {
    InvReachable(s);
    InvStep(s, Go);
    var t := Step(s, Go).value;
    BeyondRun(t, es, |s.m.pub|, |s.r.log|);
    InvExec(t, es);
    BeyondRefines(Exec(t, es).value, |s.m.pub|, |s.r.log|);
  }

  // ---------------------------------------------------------------------
  // Buffer stability and counters
  // ---------------------------------------------------------------------

  /** No step of the I/O thread changes what sub_loadread reads, while a client
      is inside it: not even on the wait path, where the client does not hold
      user_mutex. There the I/O thread holds it, between the broadcast and the
      end of its second wait. */
  lemma StableDuringLoad(s: State)
    requires Reachable(s)
    requires CL_FAST_ID <= s.c.cl <= CL_FAST_COPY || LoadingUnlocked(s.c.cl)
    ensures LoadingUnlocked(s.c.cl) ==> s.c.user == Io && Rendezvous(s.c)
    ensures IoRun(s).Some? ==>
              var m := IoRun(s).value.m;
              m.buf == s.m.buf && m.readSize == s.m.readSize && m.readId == s.m.readId && m.pub == s.m.pub
  {
    InvReachable(s);
    LoadIsStable(s.c);
  }

  /** waiting_readers counts the readers between lines 455 and 464, the guarded
      decrement always finds one, and readers is created minus destroyed. */
  lemma CountersAreExact(s: State)
    requires Reachable(s)
    ensures s.c.waiting == (if CountedIn(s.c.cl) then 1 else 0)
    ensures s.c.cl == CL_COUNT_OUT ==> s.c.waiting == 1
    ensures s.c.readers == s.c.created - s.c.destroyed && 0 <= s.c.readers <= 1
  {
    InvReachable(s);
  }
}
