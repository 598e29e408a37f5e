/** The arithmetic on struct timespec. */
module Clock {

  const NANO := 1_000_000_000

  datatype Timespec = Timespec(sec: int, nsec: int)

  predicate Normal(t: Timespec) {
    0 <= t.nsec < NANO
  }

  function Nanos(t: Timespec): int {
    t.sec * NANO + t.nsec
  }

  function Diff(start: Timespec, end: Timespec): Timespec {
    if end.nsec < start.nsec then
      Timespec(end.sec - 1 - start.sec, NANO + end.nsec - start.nsec)
    else
      Timespec(end.sec - start.sec, end.nsec - start.nsec)
  }

  lemma DiffIsExact(start: Timespec, end: Timespec)
    requires Normal(start) && Normal(end)
    ensures Normal(Diff(start, end))
    ensures Nanos(Diff(start, end)) == Nanos(end) - Nanos(start)
    ensures Diff(start, end).sec >= 0 <==> Nanos(end) >= Nanos(start)
  {
  }

  /** What one iteration takes off the budget, in milliseconds (line 339 of cmd_devmgr.c). */
  function ElapsedMs(start: Timespec, end: Timespec): int {
    var d := Diff(start, end);
    d.sec * 1000 + d.nsec / 1_000_000
  }

  lemma ElapsedIsFloor(start: Timespec, end: Timespec)
    requires Normal(start) && Normal(end)
    ensures ElapsedMs(start, end) == (Nanos(end) - Nanos(start)) / 1_000_000
  {
  }

  lemma ElapsedIsMonotone(start: Timespec, a: Timespec, b: Timespec)
    requires Normal(start) && Normal(a) && Normal(b) && Nanos(a) <= Nanos(b)
    ensures ElapsedMs(start, a) <= ElapsedMs(start, b)
    ensures Nanos(start) <= Nanos(a) ==> ElapsedMs(start, a) >= 0
  {
  }

  /** The deadline of sp_read (lines 417-426 of sockpush.c). */
  function Deadline(now: Timespec, timeoutMs: nat): Timespec {
    var sec, nsec := timeoutMs / 1000 + now.sec, (timeoutMs % 1000) * 1_000_000 + now.nsec;
    if nsec > NANO then Timespec(sec + 1, nsec - NANO) else Timespec(sec, nsec)
  }

  /** The deadline denotes the right instant, but is not always a valid timespec:
      it is one if and only if the two nanosecond parts do not add up to exactly
      one second. POSIX.1-2017 has pthread_cond_timedwait refuse it otherwise. */
  lemma DeadlineIsExact(now: Timespec, timeoutMs: nat)
    requires Normal(now)
    ensures Nanos(Deadline(now, timeoutMs)) == Nanos(now) + timeoutMs * 1_000_000
    ensures 0 <= Deadline(now, timeoutMs).nsec <= NANO
    ensures Normal(Deadline(now, timeoutMs)) <==> (timeoutMs % 1000) * 1_000_000 + now.nsec != NANO
  {
  }

  lemma DeadlineCanBeRefused()
    ensures !Normal(Deadline(Timespec(0, 500_000_000), 500))
  {
  }
}
