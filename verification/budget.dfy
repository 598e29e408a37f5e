/** The time budget of sub_devmgr_socket. The reference time is never refreshed, so
    every turn takes off all the time since the first one. The budget is an int: a
    subtraction that leaves its range wraps, and the results below say exactly when. */
module Budget {
  import opened Common
  import opened Clock
  import opened Devmgr

  /** One past the largest int. */
  const INT_END := 0x8000_0000

  predicate GoodBudget(b: int) {
    0 < b < INT_END
  }

  /** Milliseconds since the reference when turn i read the clock. */
  function At(ref: Timespec, o: Obs): int {
    if o.clock.Some? then ElapsedMs(ref, o.clock.value) else 0
  }

  function Sum(ref: Timespec, script: seq<Obs>): int {
    if script == [] then 0
    else Sum(ref, script[..|script| - 1]) + At(ref, script[|script| - 1])
  }

  /** No reading is before the reference. */
  ghost predicate Forward(ref: Timespec, script: seq<Obs>) {
    forall i :: 0 <= i < |script| ==> At(ref, script[i]) >= 0
  }

  lemma ForwardPrefix(ref: Timespec, script: seq<Obs>, n: nat)
    requires n <= |script| && Forward(ref, script)
    ensures Forward(ref, script[..n])
  {
  }

  /** No turn that is reached subtracts more than an int can hold: the reading is
      at most 2^31 ms above what is left. */
  ghost predicate InRange(parse: Parser, ref: Timespec, l: Loop, script: seq<Obs>) {
    forall i :: 0 <= i < |script| && Run(parse, ref, l, script[..i]).Running? ==>
      At(ref, script[i]) <= l.budget - Sum(ref, script[..i]) + INT_END
  }

  lemma InRangePrefix(parse: Parser, ref: Timespec, l: Loop, script: seq<Obs>, n: nat)
    requires n <= |script| && InRange(parse, ref, l, script)
    ensures InRange(parse, ref, l, script[..n])
  {
    forall i | 0 <= i < n && Run(parse, ref, l, script[..n][..i]).Running?
      ensures At(ref, script[..n][i]) <= l.budget - Sum(ref, script[..n][..i]) + INT_END
    {
      assert script[..n][..i] == script[..i];
    }
  }

  lemma Wraps(x: int)
    ensures AsInt32(x) == x <==> -INT_END <= x < INT_END
    ensures AsInt32(x) > 0 <==> 0 < x % U32 < INT_END
    ensures AsInt32(x) > 0 ==> AsInt32(x) == x % U32
  {
  }

  lemma WrapsOnce(x: int, a: int)
    ensures (x % U32 - a) % U32 == (x - a) % U32
  {
    var q := x / U32;
    assert x - a == q * U32 + (x % U32 - a);
  }

  /** One turn that goes on leaves some budget: exactly the elapsed time less, if and
      only if the reading is at most 2^31 ms above the budget. */
  lemma TurnSpends(parse: Parser, ref: Timespec, l: Loop, o: Obs)
    requires GoodBudget(l.budget) && Turn(parse, ref, l, o).Running?
    ensures var b := Turn(parse, ref, l, o).loop.budget;
            GoodBudget(b) && b == (l.budget - At(ref, o)) % U32
    ensures At(ref, o) >= 0 ==>
              (Turn(parse, ref, l, o).loop.budget == l.budget - At(ref, o) <==> At(ref, o) <= l.budget + INT_END)
  {
    Wraps(l.budget - At(ref, o));
  }

  /** Without anything heard, whether a turn goes on, for every reading. */
  lemma SilentTurn(parse: Parser, ref: Timespec, l: Loop, o: Obs)
    requires Quiet(o)
    ensures Turn(parse, ref, l, o).Running? <==> GoodBudget((l.budget - At(ref, o)) % U32)
  {
    Wraps(l.budget - At(ref, o));
  }

  /** A budget that is spent lets the exchange go on all the same, if and only if the
      reading is beyond it by more than 2^31 ms, counted modulo 2^32; the first
      such readings raise the budget. */
  lemma LateReadingWraps(parse: Parser, ref: Timespec, l: Loop, o: Obs)
    requires Quiet(o) && GoodBudget(l.budget) && At(ref, o) >= l.budget
    ensures Turn(parse, ref, l, o).Running? <==> (At(ref, o) - l.budget) % U32 > INT_END
    ensures l.budget + INT_END < At(ref, o) < U32 ==>
              var t := Turn(parse, ref, l, o);
              t.Running? && t.loop.budget == l.budget + (U32 - At(ref, o)) > l.budget
  {
    SilentTurn(parse, ref, l, o);
    Negated(At(ref, o) - l.budget);
    if l.budget + INT_END < At(ref, o) < U32 {
      TurnSpends(parse, ref, l, o);
    }
  }

  lemma Negated(x: int)
    ensures GoodBudget((-x) % U32) <==> x % U32 > INT_END
  {
    var q, m := x / U32, x % U32;
    assert -x == -q * U32 - m;
    if m > 0 {
      assert -x == (-q - 1) * U32 + (U32 - m);
    }
  }

  lemma LawTurn(parse: Parser, ref: Timespec, l: Loop, o: Obs, left: int)
    requires GoodBudget(l.budget) && l.budget == left % U32 && Turn(parse, ref, l, o).Running?
    ensures var b := Turn(parse, ref, l, o).loop.budget;
            GoodBudget(b) && b == (left - At(ref, o)) % U32
  {
    TurnSpends(parse, ref, l, o);
    WrapsOnce(left, At(ref, o));
  }

  /** The law of the budget, whatever the clock shows: what is left of a run that
      goes on is the initial budget less all the elapsed times, modulo 2^32. */
  lemma {:induction false} BudgetLaw(parse: Parser, ref: Timespec, l: Loop, script: seq<Obs>)
    requires GoodBudget(l.budget) && Run(parse, ref, l, script).Running?
    ensures GoodBudget(Run(parse, ref, l, script).loop.budget)
    ensures Run(parse, ref, l, script).loop.budget == (l.budget - Sum(ref, script)) % U32
    decreases |script|
  {
    if script != [] {
      var n := |script| - 1;
      BudgetLaw(parse, ref, l, script[..n]);
      LawTurn(parse, ref, Run(parse, ref, l, script[..n]).loop, script[n], l.budget - Sum(ref, script[..n]));
    }
  }

  /** Conservation: what is left is the initial budget less all the elapsed times, if
      and only if their sum is below it, if and only if no subtraction wrapped. */
  lemma BudgetIsConserved(parse: Parser, ref: Timespec, l: Loop, script: seq<Obs>)
    requires GoodBudget(l.budget) && Run(parse, ref, l, script).Running? && Forward(ref, script)
    ensures Run(parse, ref, l, script).loop.budget == l.budget - Sum(ref, script) <==> Sum(ref, script) < l.budget
    ensures Sum(ref, script) < l.budget <==> InRange(parse, ref, l, script)
  {
    BudgetLaw(parse, ref, l, script);
    SumIsNotNegative(ref, script);
    if InRange(parse, ref, l, script) {
      InRangeConserves(parse, ref, l, script);
    }
    if Sum(ref, script) < l.budget {
      forall i | 0 <= i < |script|
        ensures At(ref, script[i]) <= l.budget - Sum(ref, script[..i]) + INT_END
      {
        SumBoundsPart(ref, script, i);
      }
    }
  }

  lemma {:induction false} InRangeConserves(parse: Parser, ref: Timespec, l: Loop, script: seq<Obs>)
    requires GoodBudget(l.budget) && Run(parse, ref, l, script).Running?
    requires Forward(ref, script) && InRange(parse, ref, l, script)
    ensures Run(parse, ref, l, script).loop.budget == l.budget - Sum(ref, script) > 0
    decreases |script|
  {
    if script != [] {
      var n := |script| - 1;
      InRangePrefix(parse, ref, l, script, n);
      InRangeConserves(parse, ref, l, script[..n]);
      TurnSpends(parse, ref, Run(parse, ref, l, script[..n]).loop, script[n]);
    }
  }

  /** Every turn that went on did so before the initial budget had elapsed, if and
      only if no subtraction wrapped. */
  lemma ContinuingTurnIsEarly(parse: Parser, ref: Timespec, l: Loop, script: seq<Obs>)
    requires GoodBudget(l.budget) && Run(parse, ref, l, script).Running? && Forward(ref, script)
    ensures (forall i :: 0 <= i < |script| ==> At(ref, script[i]) < l.budget) <==> InRange(parse, ref, l, script)
  {
    if InRange(parse, ref, l, script) {
      BudgetIsConserved(parse, ref, l, script);
      forall i | 0 <= i < |script|
        ensures At(ref, script[i]) < l.budget
      {
        SumBoundsPart(ref, script, i);
      }
    }
    if forall i :: 0 <= i < |script| ==> At(ref, script[i]) < l.budget {
      EarlySumIsSmall(parse, ref, l, script);
      BudgetIsConserved(parse, ref, l, script);
    }
  }

  lemma {:induction false} EarlySumIsSmall(parse: Parser, ref: Timespec, l: Loop, script: seq<Obs>)
    requires GoodBudget(l.budget) && Run(parse, ref, l, script).Running? && Forward(ref, script)
    requires forall i :: 0 <= i < |script| ==> At(ref, script[i]) < l.budget
    ensures Sum(ref, script) < l.budget
    decreases |script|
  {
    if script != [] {
      var n := |script| - 1;
      ForwardPrefix(ref, script, n);
      EarlySumIsSmall(parse, ref, l, script[..n]);
      BudgetIsConserved(parse, ref, l, script[..n]);
      TurnSpends(parse, ref, Run(parse, ref, l, script[..n]).loop, script[n]);
    }
  }

  lemma {:induction false} SumIsNotNegative(ref: Timespec, script: seq<Obs>)
    requires Forward(ref, script)
    ensures Sum(ref, script) >= 0
    decreases |script|
  {
    if script != [] {
      SumIsNotNegative(ref, script[..|script| - 1]);
    }
  }

  lemma {:induction false} SumBoundsPart(ref: Timespec, script: seq<Obs>, i: nat)
    requires i < |script| && Forward(ref, script)
    ensures 0 <= Sum(ref, script[..i])
    ensures Sum(ref, script[..i]) + At(ref, script[i]) <= Sum(ref, script)
    decreases |script|
  {
    var n := |script| - 1;
    var init := script[..n];
    if i < n {
      SumBoundsPart(ref, init, i);
      assert init[..i] == script[..i];
    } else {
      SumIsNotNegative(ref, init);
    }
  }

  lemma {:induction false} SumAtLeast(ref: Timespec, script: seq<Obs>, from: nat)
    requires from <= |script| && Forward(ref, script)
    requires forall i :: from <= i < |script| ==> At(ref, script[i]) >= 1
    ensures Sum(ref, script) >= |script| - from
    decreases |script|
  {
    if from < |script| {
      SumAtLeast(ref, script[..|script| - 1], from);
    } else {
      SumIsNotNegative(ref, script);
    }
  }

  // ---------------------------------------------------------------------
  // Termination
  // ---------------------------------------------------------------------

  /** What a monotonic clock shows after the reference. */
  ghost predicate Steady(ref: Timespec, script: seq<Obs>) {
    && Normal(ref)
    && (forall i :: 0 <= i < |script| && script[i].clock.Some? ==>
          Normal(script[i].clock.value) && Nanos(ref) <= Nanos(script[i].clock.value))
    && (forall i, j :: 0 <= i <= j < |script| && script[i].clock.Some? && script[j].clock.Some? ==>
          Nanos(script[i].clock.value) <= Nanos(script[j].clock.value))
  }

  lemma SteadyIsForward(ref: Timespec, script: seq<Obs>)
    requires Steady(ref, script)
    ensures Forward(ref, script)
  {
    forall i | 0 <= i < |script| && script[i].clock.Some?
      ensures At(ref, script[i]) >= 0
    {
      ElapsedIsFloor(ref, script[i].clock.value);
    }
  }

  lemma {:induction false} RunReadsTheClock(parse: Parser, ref: Timespec, l: Loop, script: seq<Obs>, i: nat)
    requires i < |script| && Run(parse, ref, l, script).Running?
    ensures script[i].clock.Some?
    decreases |script|
  {
    var n := |script| - 1;
    if i < n {
      RunReadsTheClock(parse, ref, l, script[..n], i);
    }
  }

  /** Termination whatever arrives: from the first turn at which a millisecond has
      elapsed, fewer further turns go on than the initial budget has milliseconds,
      as long as no subtraction wraps. */
  lemma Terminates(parse: Parser, ref: Timespec, l: Loop, script: seq<Obs>, from: nat)
    requires GoodBudget(l.budget) && Steady(ref, script) && InRange(parse, ref, l, script)
    requires from < |script| && At(ref, script[from]) >= 1
    requires |script| - from >= l.budget
    ensures Run(parse, ref, l, script).Returned?
  {
    if Run(parse, ref, l, script).Running? {
      SteadyIsForward(ref, script);
      BudgetIsConserved(parse, ref, l, script);
      forall i | from <= i < |script|
        ensures At(ref, script[i]) >= 1
      {
        RunReadsTheClock(parse, ref, l, script, from);
        RunReadsTheClock(parse, ref, l, script, i);
        ElapsedIsMonotone(ref, script[from].clock.value, script[i].clock.value);
      }
      SumAtLeast(ref, script, from);
    }
  }

  /** n silent turns, the clock read every 2^29 seconds: 125 times 2^32 ms. */
  function RareReadings(ref: Timespec, n: nat): (script: seq<Obs>)
    ensures |script| == n && Silent(script)
    ensures forall i :: 0 <= i < n ==>
              script[i].clock == Some(Timespec(ref.sec + (i + 1) * 0x2000_0000, ref.nsec))
  {
    seq(n, i => Obs(0, [], Some(Timespec(ref.sec + (i + 1) * 0x2000_0000, ref.nsec))))
  }

  lemma RareTurn(parse: Parser, ref: Timespec, l: Loop, o: Obs, k: nat)
    requires l.resend && GoodBudget(l.budget) && Quiet(o) && At(ref, o) == k * U32
    ensures Turn(parse, ref, l, o) == Running(l.(state := 0, sid := U32 - 1, sends := l.sends + 1))
  {
    WholeTurns(l.budget, k);
    SilentTurn(parse, ref, l, o);
    TurnSpends(parse, ref, l, o);
  }

  lemma RareReadingsAreSteady(ref: Timespec, n: nat)
    requires Normal(ref)
    ensures Steady(ref, RareReadings(ref, n))
    ensures forall i :: 0 <= i < n ==> At(ref, RareReadings(ref, n)[i]) == (i + 1) * 125 * U32
  {
    var script := RareReadings(ref, n);
    assert forall i :: 0 <= i < n ==> script[i].clock.value.nsec == ref.nsec;
  }

  /** Without that guard it need not end: for every n there is a run of n silent turns
      by a monotonic clock that goes on, each turn sending the command again, its
      budget untouched. */
  lemma {:induction false} NeedNotEnd(parse: Parser, ref: Timespec, l: Loop, n: nat)
    requires Normal(ref) && l.resend && GoodBudget(l.budget)
    ensures Steady(ref, RareReadings(ref, n))
    ensures forall i :: 0 <= i < n ==> At(ref, RareReadings(ref, n)[i]) == (i + 1) * 125 * U32
    ensures Run(parse, ref, l, RareReadings(ref, n))
         == Running(l.(state := if n == 0 then l.state else 0,
                       sid := if n == 0 then l.sid else U32 - 1, sends := l.sends + n))
  {
    RareReadingsAreSteady(ref, n);
    if n > 0 {
      var script := RareReadings(ref, n);
      NeedNotEnd(parse, ref, l, n - 1);
      assert script[..n - 1] == RareReadings(ref, n - 1);
      RareTurn(parse, ref, Run(parse, ref, l, script[..n - 1]).loop, script[n - 1], n * 125);
    }
  }

  lemma WholeTurns(b: int, k: nat)
    requires GoodBudget(b)
    ensures (b - k * U32) % U32 == b
  {
    var x := b - k * U32;
    assert x == (-(k as int)) * U32 + b;
  }

  // ---------------------------------------------------------------------
  // How often a command is sent when nothing comes back
  // ---------------------------------------------------------------------

  function Sends(t: Outcome): nat {
    match t
    case Running(l) => l.sends
    case Returned(_, _, n) => n
  }

  /** Every read times out, every send and clock reading succeeds. */
  ghost predicate Silent(script: seq<Obs>) {
    forall i :: 0 <= i < |script| ==> Quiet(script[i])
  }

  predicate Quiet(o: Obs) {
    o.got == [] && o.sendRc >= 0 && o.clock.Some?
  }

  /** 1 + 2 + ... + n */
  function Tri(n: nat): nat {
    if n == 0 then 0 else Tri(n - 1) + n
  }

  lemma {:induction false} TriClosed(n: nat)
    ensures 2 * Tri(n) == n * (n + 1)
    ensures n <= Tri(n)
  {
    if n > 0 {
      TriClosed(n - 1);
    }
  }

  /** After every turn the initial budget less all the elapsed times is, modulo
      2^32, the value of a positive int. */
  ghost predicate Lasts(ref: Timespec, budget: int, script: seq<Obs>) {
    script == []
    || (Lasts(ref, budget, script[..|script| - 1]) && GoodBudget((budget - Sum(ref, script)) % U32))
  }

  lemma LastTurnGoesOn(parse: Parser, ref: Timespec, l: Loop, o: Obs, left: int)
    requires Quiet(o) && l.budget == left % U32
    ensures Turn(parse, ref, l, o).Running? <==> GoodBudget((left - At(ref, o)) % U32)
  {
    SilentTurn(parse, ref, l, o);
    WrapsOnce(left, At(ref, o));
  }

  /** Exactly when a silent run goes on, whatever the clock shows. */
  lemma {:induction false} SilentRunGoesOn(parse: Parser, ref: Timespec, l: Loop, script: seq<Obs>)
    requires GoodBudget(l.budget) && Silent(script)
    ensures Run(parse, ref, l, script).Running? <==> Lasts(ref, l.budget, script)
    decreases |script|
  {
    if script != [] {
      var n := |script| - 1;
      SilentRunGoesOn(parse, ref, l, script[..n]);
      if Run(parse, ref, l, script[..n]).Running? {
        BudgetLaw(parse, ref, l, script[..n]);
        LastTurnGoesOn(parse, ref, Run(parse, ref, l, script[..n]).loop, script[n], l.budget - Sum(ref, script[..n]));
      }
    }
  }

  lemma {:induction false} SilentRunGoingOn(parse: Parser, ref: Timespec, l: Loop, script: seq<Obs>)
    requires l.resend && Silent(script) && Run(parse, ref, l, script).Running?
    ensures var t := Run(parse, ref, l, script).loop; t.resend && t.sends == l.sends + |script|
    decreases |script|
  {
    if script != [] {
      SilentRunGoingOn(parse, ref, l, script[..|script| - 1]);
    }
  }

  lemma {:induction false} SilentRunReturning(parse: Parser, ref: Timespec, l: Loop, script: seq<Obs>)
    returns (k: nat)
    requires l.resend && Silent(script) && Run(parse, ref, l, script).Returned?
    ensures k < |script| && Run(parse, ref, l, script[..k]).Running?
    ensures Run(parse, ref, l, script) == Run(parse, ref, l, script[..k + 1])
    ensures Run(parse, ref, l, script).rc == -4 && Run(parse, ref, l, script).sends == l.sends + k + 1
    decreases |script|
  {
    var n := |script| - 1;
    if Run(parse, ref, l, script[..n]).Running? {
      k := n;
      SilentRunGoingOn(parse, ref, l, script[..n]);
      assert script[..k + 1] == script;
    } else {
      k := SilentRunReturning(parse, ref, l, script[..n]);
      assert script[..n][..k] == script[..k] && script[..n][..k + 1] == script[..k + 1];
    }
  }

  lemma SilentRunSends(parse: Parser, ref: Timespec, l: Loop, script: seq<Obs>)
    requires l.resend && Silent(script)
    ensures match Run(parse, ref, l, script)
            case Running(t) => t.resend && t.sends == l.sends + |script|
            case Returned(rc, _, n) =>
              && rc == -4 && 1 <= n - l.sends <= |script|
              && Run(parse, ref, l, script[..n - l.sends - 1]).Running?
              && Run(parse, ref, l, script) == Run(parse, ref, l, script[..n - l.sends])
  {
    if Run(parse, ref, l, script).Running? {
      SilentRunGoingOn(parse, ref, l, script);
    } else {
      var k := SilentRunReturning(parse, ref, l, script);
    }
  }

  ghost predicate NormalReadings(ref: Timespec, script: seq<Obs>)
    requires Silent(script)
  {
    Normal(ref) && forall i :: 0 <= i < |script| ==> Normal(script[i].clock.value)
  }

  /** The nanoseconds between the reading of turn i and the one before. */
  function Wait(ref: Timespec, script: seq<Obs>, i: nat): int
    requires i < |script| && Silent(script)
  {
    Nanos(script[i].clock.value) - Nanos(if i == 0 then ref else script[i - 1].clock.value)
  }

  ghost predicate EachWaitsAtLeast(ref: Timespec, script: seq<Obs>, timeout: nat)
    requires Silent(script)
  {
    forall i :: 0 <= i < |script| ==> Wait(ref, script, i) >= timeout * 1_000_000
  }

  ghost predicate EachWaitsExactly(ref: Timespec, script: seq<Obs>, timeout: nat)
    requires Silent(script)
  {
    forall i :: 0 <= i < |script| ==> Wait(ref, script, i) == timeout * 1_000_000
  }

  ghost predicate WaitsAtLeast(ref: Timespec, script: seq<Obs>, timeout: nat) {
    forall i :: 0 <= i < |script| ==> At(ref, script[i]) >= (i + 1) * timeout
  }

  ghost predicate WaitsExactly(ref: Timespec, script: seq<Obs>, timeout: nat) {
    forall i :: 0 <= i < |script| ==> At(ref, script[i]) == (i + 1) * timeout
  }

  lemma {:induction false} ReadingAt(ref: Timespec, script: seq<Obs>, timeout: nat, i: nat)
    requires Silent(script) && i < |script|
    ensures EachWaitsAtLeast(ref, script, timeout) ==>
              Nanos(script[i].clock.value) >= Nanos(ref) + (i + 1) * timeout * 1_000_000
    ensures EachWaitsExactly(ref, script, timeout) ==>
              Nanos(script[i].clock.value) == Nanos(ref) + (i + 1) * timeout * 1_000_000
  {
    if i > 0 {
      ReadingAt(ref, script, timeout, i - 1);
      assert (i + 1) * timeout == i * timeout + timeout;
    }
    if EachWaitsAtLeast(ref, script, timeout) {
      assert Wait(ref, script, i) >= timeout * 1_000_000;
    }
    if EachWaitsExactly(ref, script, timeout) {
      assert Wait(ref, script, i) == timeout * 1_000_000;
    }
  }

  lemma WaitsShow(ref: Timespec, script: seq<Obs>, timeout: nat)
    requires Silent(script) && NormalReadings(ref, script)
    ensures EachWaitsAtLeast(ref, script, timeout) ==> WaitsAtLeast(ref, script, timeout)
    ensures EachWaitsExactly(ref, script, timeout) ==> WaitsExactly(ref, script, timeout)
  {
    forall i | 0 <= i < |script|
      ensures EachWaitsAtLeast(ref, script, timeout) ==> At(ref, script[i]) >= (i + 1) * timeout
      ensures EachWaitsExactly(ref, script, timeout) ==> At(ref, script[i]) == (i + 1) * timeout
    {
      ReadingAt(ref, script, timeout, i);
      ElapsedIsFloor(ref, script[i].clock.value);
    }
  }

  lemma {:induction false} WaitsAddUp(ref: Timespec, script: seq<Obs>, timeout: nat)
    requires WaitsAtLeast(ref, script, timeout)
    ensures Sum(ref, script) >= timeout * Tri(|script|)
    decreases |script|
  {
    if script != [] {
      var n := |script| - 1;
      WaitsAddUp(ref, script[..n], timeout);
      assert timeout * (Tri(n) + (n + 1)) == timeout * Tri(n) + (n + 1) * timeout;
    }
  }

  lemma FewWaitsGoOn(parse: Parser, ref: Timespec, timeout: nat, tries: nat,
                     dout: seq<byte>, dst: seq<byte>, script: seq<Obs>)
    requires timeout > 0 && tries >= 1 && InitialBudget(timeout, tries) < INT_END
    requires WaitsAtLeast(ref, script, timeout)
    requires InRange(parse, ref, Start(timeout, tries, dout, dst), script)
    requires Run(parse, ref, Start(timeout, tries, dout, dst), script).Running?
    ensures Tri(|script|) <= tries
  {
    BudgetIsPositive(timeout, tries);
    WaitsAreForward(ref, script, timeout);
    BudgetIsConserved(parse, ref, Start(timeout, tries, dout, dst), script);
    WaitsAddUp(ref, script, timeout);
    FewWaits(timeout, tries, |script|);
  }

  lemma WaitsAreForward(ref: Timespec, script: seq<Obs>, timeout: nat)
    requires WaitsAtLeast(ref, script, timeout)
    ensures Forward(ref, script)
  {
  }

  /** One send more than waits after which the exchange went on. */
  lemma SendsAndWaits(parse: Parser, ref: Timespec, l: Loop, script: seq<Obs>) returns (k: nat)
    requires l.resend && l.sends == 0 && Silent(script)
    ensures k <= |script| && Run(parse, ref, l, script[..k]).Running?
    ensures Sends(Run(parse, ref, l, script)) <= k + 1
  {
    SilentRunSends(parse, ref, l, script);
    var t := Run(parse, ref, l, script);
    k := if t.Running? then |script| else t.sends - 1;
    assert script[..|script|] == script;
  }

  lemma SendsAreFew(parse: Parser, ref: Timespec, timeout: nat, tries: nat,
                    dout: seq<byte>, dst: seq<byte>, script: seq<Obs>)
    returns (k: nat)
    requires timeout > 0 && tries >= 1 && InitialBudget(timeout, tries) < INT_END
    requires Silent(script) && WaitsAtLeast(ref, script, timeout)
    requires InRange(parse, ref, Start(timeout, tries, dout, dst), script)
    ensures Sends(Run(parse, ref, Start(timeout, tries, dout, dst), script)) <= k + 1
    ensures Tri(k) <= tries
  {
    var l := Start(timeout, tries, dout, dst);
    k := SendsAndWaits(parse, ref, l, script);
    InRangePrefix(parse, ref, l, script, k);
    WaitsPrefix(ref, script, timeout, k);
    FewWaitsGoOn(parse, ref, timeout, tries, dout, dst, script[..k]);
  }

  lemma WaitsPrefix(ref: Timespec, script: seq<Obs>, timeout: nat, k: nat)
    requires WaitsAtLeast(ref, script, timeout) && k <= |script|
    ensures WaitsAtLeast(ref, script[..k], timeout)
  {
  }

  lemma SendsBound(parse: Parser, ref: Timespec, timeout: nat, tries: nat,
                   dout: seq<byte>, dst: seq<byte>, script: seq<Obs>)
    requires timeout > 0 && tries >= 1 && InitialBudget(timeout, tries) < INT_END
    requires Silent(script) && WaitsAtLeast(ref, script, timeout)
    requires InRange(parse, ref, Start(timeout, tries, dout, dst), script)
    ensures var n := Sends(Run(parse, ref, Start(timeout, tries, dout, dst), script));
            n * (n - 1) <= 2 * tries
  {
    var k := SendsAreFew(parse, ref, timeout, tries, dout, dst, script);
    TriBounds(Sends(Run(parse, ref, Start(timeout, tries, dout, dst), script)), k, tries);
  }

  /** The triangular bound: if every read times out, after at least the timeout
      each, and no subtraction wraps, the n sends of the command satisfy
      n(n-1)/2 <= tries. */
  lemma SendsAreTriangular(parse: Parser, ref: Timespec, timeout: nat, tries: nat,
                           dout: seq<byte>, dst: seq<byte>, script: seq<Obs>)
    requires timeout > 0 && tries >= 1 && InitialBudget(timeout, tries) < INT_END
    requires Silent(script) && NormalReadings(ref, script) && EachWaitsAtLeast(ref, script, timeout)
    requires InRange(parse, ref, Start(timeout, tries, dout, dst), script)
    ensures var n := Sends(Run(parse, ref, Start(timeout, tries, dout, dst), script));
            n * (n - 1) <= 2 * tries
  {
    WaitsShow(ref, script, timeout);
    SendsBound(parse, ref, timeout, tries, dout, dst, script);
  }

  /** Without that guard there is no bound: the clock can show waits of at least the
      timeout, and the command be sent any number of times. */
  lemma SendsAreUnbounded(parse: Parser, ref: Timespec, timeout: nat, tries: nat,
                          dout: seq<byte>, dst: seq<byte>, n: nat)
    requires Normal(ref) && timeout > 0 && tries >= 1 && InitialBudget(timeout, tries) < INT_END
    ensures NormalReadings(ref, RareReadings(ref, n)) && EachWaitsAtLeast(ref, RareReadings(ref, n), timeout)
    ensures Sends(Run(parse, ref, Start(timeout, tries, dout, dst), RareReadings(ref, n))) == n
  {
    BudgetIsPositive(timeout, tries);
    NeedNotEnd(parse, ref, Start(timeout, tries, dout, dst), n);
    ProductGrows(timeout, 1, tries);
    forall i | 0 <= i < n
      ensures Wait(ref, RareReadings(ref, n), i) == 0x2000_0000 * NANO
    {
    }
  }

  lemma BudgetIsPositive(timeout: nat, tries: nat)
    requires timeout > 0 && tries >= 1
    ensures InitialBudget(timeout, tries) > 0
  {
    assert timeout * tries >= timeout;
  }

  lemma FewWaits(timeout: nat, tries: nat, k: nat)
    requires timeout > 0
    ensures timeout * Tri(k) < InitialBudget(timeout, tries) ==> Tri(k) <= tries
    ensures timeout >= 2 && Tri(k) <= tries ==> timeout * Tri(k) < InitialBudget(timeout, tries)
  {
    var n := Tri(k);
    if n > tries {
      ProductGrows(timeout, tries + 1, n);
      assert timeout * (tries + 1) == timeout * tries + timeout;
    } else {
      ProductGrows(timeout, n, tries);
    }
  }

  lemma ProductGrows(a: nat, x: nat, y: nat)
    requires x <= y
    ensures a * x <= a * y
  {
  }

  lemma TriBounds(n: nat, k: nat, tries: nat)
    requires n <= k + 1 && Tri(k) <= tries
    ensures n * (n - 1) <= 2 * tries
  {
    TriClosed(k);
    if 1 <= n <= k {
      ProductGrows(n, n - 1, k);
      ProductGrows(k, n, k + 1);
      assert n * k == k * n;
    }
  }

  lemma {:induction false} ExactWaitsAddUp(ref: Timespec, script: seq<Obs>, timeout: nat)
    requires WaitsExactly(ref, script, timeout)
    ensures Sum(ref, script) == timeout * Tri(|script|)
    decreases |script|
  {
    if script != [] {
      var n := |script| - 1;
      ExactWaitsAddUp(ref, script[..n], timeout);
      assert timeout * (Tri(n) + (n + 1)) == timeout * Tri(n) + (n + 1) * timeout;
    }
  }

  /** The last wait cannot take the budget below the range of an int. */
  lemma LastWaitFits(timeout: nat, tries: nat, n: nat)
    requires Tri(n) <= tries && tries >= 1 && InitialBudget(timeout, tries) < INT_END
    ensures InitialBudget(timeout, tries) - timeout * Tri(n + 1) >= -INT_END
  {
    TriClosed(n);
    assert timeout * Tri(n + 1) == timeout * Tri(n) + timeout * n + timeout;
    if Tri(n) < tries {
      ProductGrows(timeout, n, tries);
      ProductGrows(timeout, Tri(n) + 1, tries);
      assert timeout * (Tri(n) + 1) == timeout * Tri(n) + timeout;
    } else if n >= 2 {
      TriClosed(n - 1);
      ProductGrows(timeout, n + 1, tries);
      assert timeout * (n + 1) == timeout * n + timeout;
    } else {
      assert n == 1 && Tri(1) == 1 && Tri(2) == 3;
    }
  }

  lemma ExactTurn(parse: Parser, ref: Timespec, l: Loop, o: Obs, left: int)
    requires Quiet(o)
    requires left == l.budget - At(ref, o) && -INT_END <= left < INT_END
    ensures Turn(parse, ref, l, o).Running? <==> left > 0
  {
    SilentTurn(parse, ref, l, o);
    Wraps(left);
  }

  lemma ExactBudget(ref: Timespec, timeout: nat, tries: nat, script: seq<Obs>)
    requires timeout >= 2 && tries >= 1 && InitialBudget(timeout, tries) < INT_END
    requires WaitsExactly(ref, script, timeout) && script != [] && Tri(|script| - 1) <= tries
    ensures Sum(ref, script[..|script| - 1]) < InitialBudget(timeout, tries)
    ensures -INT_END <= InitialBudget(timeout, tries) - Sum(ref, script) < INT_END
    ensures InitialBudget(timeout, tries) - Sum(ref, script) > 0 <==> Tri(|script|) <= tries
  {
    ExactWaitsAddUp(ref, script[..|script| - 1], timeout);
    FewWaits(timeout, tries, |script| - 1);
    ExactWaitsAddUp(ref, script, timeout);
    LastWaitFits(timeout, tries, |script| - 1);
    FewWaits(timeout, tries, |script|);
    assert timeout * Tri(|script|) >= 0;
  }

  lemma ExactIsForward(ref: Timespec, script: seq<Obs>, timeout: nat)
    requires WaitsExactly(ref, script, timeout)
    ensures Forward(ref, script)
  {
  }

  /** When each wait lasts exactly the timeout and nothing else takes time, the
      session still goes on after k waits if and only if k(k+1)/2 <= tries. */
  lemma {:induction false} ExactSession(parse: Parser, ref: Timespec, timeout: nat, tries: nat,
                                        dout: seq<byte>, dst: seq<byte>, script: seq<Obs>)
    requires timeout >= 2 && tries >= 1 && InitialBudget(timeout, tries) < INT_END
    requires Silent(script) && WaitsExactly(ref, script, timeout)
    ensures Run(parse, ref, Start(timeout, tries, dout, dst), script).Running? <==> Tri(|script|) <= tries
    decreases |script|
  {
    var l := Start(timeout, tries, dout, dst);
    BudgetIsPositive(timeout, tries);
    if script != [] {
      var n := |script| - 1;
      ExactSession(parse, ref, timeout, tries, dout, dst, script[..n]);
      if Tri(n) <= tries {
        ExactBudget(ref, timeout, tries, script);
        ExactIsForward(ref, script[..n], timeout);
        BudgetIsConserved(parse, ref, l, script[..n]);
        ExactTurn(parse, ref, Run(parse, ref, l, script[..n]).loop, script[n], l.budget - Sum(ref, script));
      }
    }
  }

  lemma ExactCount(n: nat, tries: nat)
    requires n >= 1 && Tri(n - 1) <= tries < Tri(n)
    ensures n * (n - 1) <= 2 * tries < n * (n + 1)
  {
    TriClosed(n - 1);
    TriClosed(n);
  }

  lemma ExactReturn(parse: Parser, ref: Timespec, timeout: nat, tries: nat,
                    dout: seq<byte>, dst: seq<byte>, script: seq<Obs>)
    returns (n: nat)
    requires timeout >= 2 && tries >= 1 && InitialBudget(timeout, tries) < INT_END
    requires Silent(script) && WaitsExactly(ref, script, timeout)
    requires Run(parse, ref, Start(timeout, tries, dout, dst), script).Returned?
    ensures n >= 1 && Tri(n - 1) <= tries < Tri(n)
    ensures var t := Run(parse, ref, Start(timeout, tries, dout, dst), script); t.rc == -4 && t.sends == n
  {
    var k := SilentRunReturning(parse, ref, Start(timeout, tries, dout, dst), script);
    ExactSession(parse, ref, timeout, tries, dout, dst, script[..k]);
    ExactSession(parse, ref, timeout, tries, dout, dst, script[..k + 1]);
    n := k + 1;
  }

  /** The triangular bound is attained: then the command is sent exactly n times,
      for the largest n with n(n-1)/2 <= tries. */
  lemma ExactSends(parse: Parser, ref: Timespec, timeout: nat, tries: nat,
                   dout: seq<byte>, dst: seq<byte>, script: seq<Obs>)
    requires timeout >= 2 && tries >= 1 && InitialBudget(timeout, tries) < INT_END
    requires Silent(script) && NormalReadings(ref, script) && EachWaitsExactly(ref, script, timeout)
    requires Tri(|script|) > tries
    ensures var t := Run(parse, ref, Start(timeout, tries, dout, dst), script);
            t.Returned? && t.rc == -4 && t.sends * (t.sends - 1) <= 2 * tries < t.sends * (t.sends + 1)
  {
    WaitsShow(ref, script, timeout);
    ExactSession(parse, ref, timeout, tries, dout, dst, script);
    var n := ExactReturn(parse, ref, timeout, tries, dout, dst, script);
    ExactCount(n, tries);
  }

  // ---------------------------------------------------------------------
  // The whole call
  // ---------------------------------------------------------------------

  lemma CallIsRun(parse: Parser, timeout: int, tries: int, ref: Timespec, script: seq<Obs>,
                  dout: seq<byte>, dst: seq<byte>)
    ensures Socket(parse, timeout, tries, true, Some(ref), script, dout, dst)
         == Run(parse, ref, Start(timeout, tries, dout, dst), script)
    ensures timeout >= 0 ==> Start(timeout, tries, dout, dst).budget == timeout * tries + timeout / 2
  {
  }

  /** The first turn of a call: when nothing is read and the clock shows e ms, it goes
      on if and only if 2e is below (2 tries + 1) timeout, less 1 if that is odd. */
  lemma FirstQuietTurn(parse: Parser, timeout: nat, tries: nat, ref: Timespec, o: Obs, e: int,
                       dout: seq<byte>, dst: seq<byte>)
    requires timeout * tries + timeout / 2 < 0x8000_0000
    requires o.got == [] && o.sendRc >= 0 && o.clock.Some? && ElapsedMs(ref, o.clock.value) == e
    requires 0 <= e < 0x8000_0000
    ensures Socket(parse, timeout, tries, true, Some(ref), [o], dout, dst).Running?
       <==> 2 * e < (2 * tries + 1) * timeout - timeout % 2
  {
    CallIsRun(parse, timeout, tries, ref, [o], dout, dst);
    var l := Start(timeout, tries, dout, dst);
    assert [o][..0] == [] && Run(parse, ref, l, [o]) == Turn(parse, ref, l, o);
    ExactTurn(parse, ref, l, o, l.budget - e);
    assert (2 * tries + 1) * timeout == 2 * (timeout * tries) + timeout;
  }

  /** No turn of the call that is reached subtracts more than an int can hold. */
  ghost predicate CallInRange(parse: Parser, timeout: nat, tries: nat, ref: Timespec, script: seq<Obs>,
                              dout: seq<byte>, dst: seq<byte>) {
    forall i | 0 <= i < |script| && Socket(parse, timeout, tries, true, Some(ref), script[..i], dout, dst).Running? ::
      At(ref, script[i]) <= timeout * tries + timeout / 2 - Sum(ref, script[..i]) + 0x8000_0000
  }

  lemma CallInRangeIsInRange(parse: Parser, timeout: nat, tries: nat, ref: Timespec, script: seq<Obs>,
                             dout: seq<byte>, dst: seq<byte>)
    requires CallInRange(parse, timeout, tries, ref, script, dout, dst)
    ensures InRange(parse, ref, Start(timeout, tries, dout, dst), script)
  {
    forall i | 0 <= i < |script| && Run(parse, ref, Start(timeout, tries, dout, dst), script[..i]).Running?
      ensures At(ref, script[i])
           <= Start(timeout, tries, dout, dst).budget - Sum(ref, script[..i]) + INT_END
    {
      CallIsRun(parse, timeout, tries, ref, script[..i], dout, dst);
    }
  }

  /** The triangular bound of the call. */
  lemma CallSendsAreTriangular(parse: Parser, timeout: nat, tries: nat, ref: Timespec, script: seq<Obs>,
                               dout: seq<byte>, dst: seq<byte>)
    requires timeout > 0 && tries >= 1 && timeout * tries + timeout / 2 < 0x8000_0000
    requires Silent(script) && NormalReadings(ref, script) && EachWaitsAtLeast(ref, script, timeout)
    requires CallInRange(parse, timeout, tries, ref, script, dout, dst)
    ensures var n := Sends(Socket(parse, timeout, tries, true, Some(ref), script, dout, dst));
            n * (n - 1) <= 2 * tries
  {
    CallIsRun(parse, timeout, tries, ref, script, dout, dst);
    CallInRangeIsInRange(parse, timeout, tries, ref, script, dout, dst);
    SendsAreTriangular(parse, ref, timeout, tries, dout, dst, script);
  }

  /** And it is attained when each wait lasts exactly the timeout. */
  lemma CallSendsExactly(parse: Parser, timeout: nat, tries: nat, ref: Timespec, script: seq<Obs>,
                         dout: seq<byte>, dst: seq<byte>)
    requires timeout >= 2 && tries >= 1 && timeout * tries + timeout / 2 < 0x8000_0000
    requires Silent(script) && NormalReadings(ref, script) && EachWaitsExactly(ref, script, timeout)
    requires |script| * (|script| + 1) > 2 * tries
    ensures var t := Socket(parse, timeout, tries, true, Some(ref), script, dout, dst);
            t.Returned? && t.rc == -4 && t.sends * (t.sends - 1) <= 2 * tries < t.sends * (t.sends + 1)
  {
    CallIsRun(parse, timeout, tries, ref, script, dout, dst);
    TriClosed(|script|);
    ExactSends(parse, ref, timeout, tries, dout, dst, script);
  }

  /** Termination of the call: once a millisecond has elapsed, fewer turns go on than
      timeout * tries + timeout / 2, whatever arrives. */
  lemma CallTerminates(parse: Parser, timeout: nat, tries: nat, ref: Timespec, script: seq<Obs>, from: nat,
                       dout: seq<byte>, dst: seq<byte>)
    requires timeout * tries + timeout / 2 < 0x8000_0000
    requires Steady(ref, script) && CallInRange(parse, timeout, tries, ref, script, dout, dst)
    requires from < |script| && At(ref, script[from]) >= 1
    requires |script| - from >= timeout * tries + timeout / 2
    ensures Socket(parse, timeout, tries, true, Some(ref), script, dout, dst).Returned?
  {
    var l := Start(timeout, tries, dout, dst);
    CallIsRun(parse, timeout, tries, ref, script, dout, dst);
    CallInRangeIsInRange(parse, timeout, tries, ref, script, dout, dst);
    EvenSpentTerminates(parse, ref, l, script, from);
  }

  lemma EvenSpentTerminates(parse: Parser, ref: Timespec, l: Loop, script: seq<Obs>, from: nat)
    requires 0 <= l.budget < INT_END && Steady(ref, script) && InRange(parse, ref, l, script)
    requires from < |script| && At(ref, script[from]) >= 1
    requires |script| - from >= l.budget
    ensures Run(parse, ref, l, script).Returned?
  {
    if l.budget > 0 {
      Terminates(parse, ref, l, script, from);
    } else {
      SpentFromTheStart(parse, ref, l, script);
    }
  }

  lemma SpentTurn(parse: Parser, ref: Timespec, l: Loop, o: Obs)
    requires l.budget == 0 && 0 <= At(ref, o) <= INT_END
    ensures Turn(parse, ref, l, o).Returned?
  {
    Wraps(l.budget - At(ref, o));
  }

  /** Without a budget the first turn is the last. */
  lemma SpentFromTheStart(parse: Parser, ref: Timespec, l: Loop, script: seq<Obs>)
    requires l.budget == 0 && script != []
    requires Steady(ref, script) && InRange(parse, ref, l, script)
    ensures Run(parse, ref, l, script).Returned?
  {
    SteadyIsForward(ref, script);
    assert script[..0] == [] && Run(parse, ref, l, script[..0]) == Running(l);
    assert Sum(ref, script[..0]) == 0;
    SpentTurn(parse, ref, l, script[0]);
    TurnAt(parse, ref, l, script, 0);
  }
}
