/** When devices fire, across the wrap-around of the 32-bit clock, and what a tick moves. */
module KernelTiming {
  import opened Config
  import opened KernelSpec
  import opened KernelRuns

  /** Ticks between two events of device d. A frequency of 0 re-arms the device for the same
      clock value, which comes round after 2^32 ticks. */
  function Period(d: nat): (p: nat)
    ensures 0 < p <= TWO32
  {
    if DevFreq(d) == 0 then TWO32 else DevFreq(d)
  }

  /** The four devices that have a frequency, and the others. */
  lemma Periods()
    ensures Period(0) == 100 && Period(1) == 200 && Period(2) == 500 && Period(3) == 50
    ensures forall d: nat :: d >= 4 ==> Period(d) == 0x1_0000_0000
  {
  }

  /** The first multiple of p after k. */
  function NextMultiple(k: nat, p: nat): nat
    requires p > 0
  {
    k - k % p + p
  }

  lemma NextMultipleIsLeast(k: nat, p: nat)
    requires p > 0
    ensures NextMultiple(k, p) == p * (k / p + 1) && k < NextMultiple(k, p) <= k + p
  {
    assert k == p * (k / p) + k % p;
  }

  lemma ModSucc(k: nat, p: nat)
    requires p > 0
    ensures (k + 1) % p == if k % p + 1 == p then 0 else k % p + 1
  {
    var q, r := k / p, k % p;
    assert k == p * q + r;
    if r + 1 == p {
      assert k + 1 == p * (q + 1);
      ModUnique(k + 1, p, q + 1, 0);
    } else {
      ModUnique(k + 1, p, q, r + 1);
    }
  }

  lemma ModUnique(n: nat, p: nat, q: nat, r: nat)
    requires p > 0 && r < p && n == p * q + r
    ensures n % p == r && n / p == q
  {
    var q', r' := n / p, n % p;
    assert n == p * q' + r';
    if q < q' {
      assert p * q' >= p * (q + 1) by { MulMono(p, q + 1, q'); }
    } else if q' < q {
      assert p * q >= p * (q' + 1) by { MulMono(p, q' + 1, q); }
    }
  }

  lemma MulMono(p: nat, a: nat, b: nat)
    requires a <= b
    ensures p * a <= p * b
  {
  }

  /** Clock values less than 2^32 ticks apart are equal only if they are the same moment. */
  lemma WrappedEqual(a: nat, b: nat)
    requires a <= b < a + TWO32
    ensures a % TWO32 == b % TWO32 <==> a == b
  {
  }

  lemma WrappedAdd(a: nat, b: nat)
    ensures (a % TWO32 + b) % TWO32 == (a + b) % TWO32
  {
  }

  ghost function Ticks(ops: seq<Op>): nat
  {
    if ops == [] then 0 else Ticks(ops[..|ops| - 1]) + if ops[|ops| - 1].Tick? then 1 else 0
  }

  /** The clock and device d as they are k ticks after dev_init at time t0. */
  ghost predicate OnSchedule(s: State, d: nat, t0: nat, k: nat)
    requires d < |s.devices|
  {
    && s.now == (t0 + k) % TWO32
    && s.devices[d].nextMatch == (t0 + NextMultiple(k, Period(d))) % TWO32
  }

  lemma DueExactly(s: State, d: nat, t0: nat, k: nat)
    requires d < |s.devices| && OnSchedule(s, d, t0, k)
    ensures Due(Advance(s), d) <==> (k + 1) % Period(d) == 0
  {
    var p := Period(d);
    WrappedAdd(t0 + k, 1);
    WrappedEqual(t0 + k + 1, t0 + NextMultiple(k, p));
    ModSucc(k, p);
  }

  lemma OnScheduleTick(s: State, d: nat, t0: nat, k: nat)
    requires Inv(s) && d < NUM_DEVICES && OnSchedule(s, d, t0, k)
    ensures OnSchedule(TickStep(s), d, t0, k + 1)
  {
    var p := Period(d);
    DueExactly(s, d, t0, k);
    WrappedAdd(t0 + k, 1);
    ModSucc(k, p);
    WrappedAdd(t0 + NextMultiple(k, p), DevFreq(d));
    WrappedAdd(t0 + NextMultiple(k, p), p);
    assert (t0 + NextMultiple(k, p) + p) % TWO32 == (t0 + NextMultiple(k, p) + DevFreq(d)) % TWO32 by {
      PeriodIsFrequency(t0 + NextMultiple(k, p), d);
    }
  }

  lemma PeriodIsFrequency(x: nat, d: nat)
    ensures (x + Period(d)) % TWO32 == (x + DevFreq(d)) % TWO32
  {
  }

  lemma StepKeepsClock(s: State, op: Op, d: nat)
    requires Inv(s) && Enabled(s, op) && op != Tick && d < NUM_DEVICES
    ensures Step(s, op).now == s.now && Step(s, op).devices[d].nextMatch == s.devices[d].nextMatch
  {
  }

  lemma OnScheduleStart(n: nat, t0: nat, available: seq<bool>, d: nat)
    requires |available| == OS_NUM_MUTEX && t0 < TWO32 && d < NUM_DEVICES
    ensures OnSchedule(Init(n, t0, available), d, t0, 0)
  {
    PeriodIsFrequency(t0, d);
  }

  lemma OnScheduleStep(s: State, op: Op, d: nat, t0: nat, k: nat)
    requires Inv(s) && Enabled(s, op) && d < NUM_DEVICES && OnSchedule(s, d, t0, k)
    ensures d < |Step(s, op).devices| && OnSchedule(Step(s, op), d, t0, k + if op.Tick? then 1 else 0)
  {
    if op == Tick {
      OnScheduleTick(s, d, t0, k);
    } else {
      StepKeepsClock(s, op, d);
    }
  }

  lemma TicksNext(ops: seq<Op>, j: nat)
    requires 0 < j <= |ops|
    ensures Ticks(ops[..j]) == Ticks(ops[..j - 1]) + if ops[j - 1].Tick? then 1 else 0
  {
    assert ops[..j][..j - 1] == ops[..j - 1];
  }

  lemma {:induction false} OnScheduleAlways(r: Run, n: nat, t0: nat, available: seq<bool>, i: nat, d: nat)
    requires IsRunFrom(r, n, t0, available) && t0 < TWO32 && i <= |r.ops| && d < NUM_DEVICES
    ensures Inv(r.states[i]) && OnSchedule(r.states[i], d, t0, Ticks(r.ops[..i]))
  {
    hide OnSchedule, Step, Init, DeviceOk, MutexOk, ControlOk, TasksOk, RunOk;
    InvAlways(r, i);
    if i > 0 {
      OnScheduleAlways(r, n, t0, available, i - 1, d);
      assert StepAt(r, i - 1);
      TicksNext(r.ops, i);
      OnScheduleStep(r.states[i - 1], r.ops[i - 1], d, t0, Ticks(r.ops[..i - 1]));
    } else {
      assert Ticks(r.ops[..0]) == 0;
      OnScheduleStart(n, t0, available, d);
    }
  }

  /** Exact periodicity: in every run, the (k+1)-th tick fires device d iff its period divides
      k+1, although the code only compares a wrapping clock for equality. */
  lemma FiresExactlyOnPeriod(r: Run, n: nat, t0: nat, available: seq<bool>, i: nat, d: nat)
    requires IsRunFrom(r, n, t0, available) && t0 < TWO32 && i < |r.ops| && d < NUM_DEVICES && r.ops[i] == Tick
    ensures Inv(r.states[i])
    ensures Due(Advance(r.states[i]), d) <==> (Ticks(r.ops[..i]) + 1) % Period(d) == 0
  {
    OnScheduleAlways(r, n, t0, available, i, d);
    DueExactly(r.states[i], d, t0, Ticks(r.ops[..i]));
  }

  lemma {:induction false} TicksGrow(ops: seq<Op>, i: nat, j: nat)
    requires i <= j <= |ops|
    ensures Ticks(ops[..i]) <= Ticks(ops[..j])
  {
    if i < j {
      TicksGrow(ops, i, j - 1);
      TicksNext(ops, j);
    }
  }

  lemma StepKeepsSleeper(s: State, op: Op, t: nat, d: nat)
    requires Inv(s) && Enabled(s, op) && t in s.ctl && s.ctl[t] == Asleep(d) && d < NUM_DEVICES
    requires op == Tick ==> !Due(Advance(s), d)
    ensures var s' := Step(s, op); t in s'.ctl && s'.ctl[t] == Asleep(d)
  {
    match op
    case Unlock(m) =>
      if m < OS_NUM_MUTEX && s.mutexes[m].queue != [] {
        assert MutexOk(s, m) && s.mutexes[m].queue[0] in s.mutexes[m].queue;
      }
    case _ =>
  }

  /** One step: a sleeper sleeps on, unless its device fires. */
  lemma SleeperStays(r: Run, n: nat, t0: nat, available: seq<bool>, j: nat, t: nat, d: nat)
    requires IsRunFrom(r, n, t0, available) && t0 < TWO32 && j < |r.ops| && d < NUM_DEVICES
    requires t in r.states[j].ctl && r.states[j].ctl[t] == Asleep(d)
    requires r.ops[j] == Tick ==> (Ticks(r.ops[..j]) + 1) % Period(d) != 0
    ensures t in r.states[j + 1].ctl && r.states[j + 1].ctl[t] == Asleep(d)
  {
    hide Step, Due, Inv, Init, Period, Ticks;
    InvAlways(r, j);
    assert StepAt(r, j);
    if r.ops[j] == Tick {
      FiresExactlyOnPeriod(r, n, t0, available, j, d);
    }
    StepKeepsSleeper(r.states[j], r.ops[j], t, d);
  }

  /** A task asleep on d after k ticks stays asleep until the next multiple of the period. */
  lemma {:induction false} SleepsUntilPeriod(r: Run, n: nat, t0: nat, available: seq<bool>, i: nat, j: nat, t: nat, d: nat)
    requires IsRunFrom(r, n, t0, available) && t0 < TWO32 && i <= j <= |r.ops| && d < NUM_DEVICES
    requires t in r.states[i].ctl && r.states[i].ctl[t] == Asleep(d)
    requires Ticks(r.ops[..j]) < NextMultiple(Ticks(r.ops[..i]), Period(d))
    ensures t in r.states[j].ctl && r.states[j].ctl[t] == Asleep(d)
  {
    hide StepAt, Inv, Init, NextMultiple, Period, Ticks;
    if i < j {
      TicksNext(r.ops, j);
      TicksGrow(r.ops, i, j - 1);
      SleepsUntilPeriod(r, n, t0, available, i, j - 1, t, d);
      if r.ops[j - 1] == Tick {
        NoMultipleBetween(Ticks(r.ops[..i]), Ticks(r.ops[..j]), Period(d));
      }
      SleeperStays(r, n, t0, available, j - 1, t, d);
    }
  }

  lemma NoMultipleBetween(k: nat, x: nat, p: nat)
    requires p > 0 && k < x < NextMultiple(k, p)
    ensures x % p != 0
  {
    var q, rem := k / p, k % p;
    assert k == p * q + rem;
    ModUnique(x, p, q, x - p * q);
  }

  lemma NextMultipleDivides(k: nat, p: nat)
    requires p > 0
    ensures NextMultiple(k, p) % p == 0
  {
    NextMultipleIsLeast(k, p);
    ModUnique(NextMultiple(k, p), p, k / p + 1, 0);
  }

  /** The tick that reaches that multiple makes it runnable: never later, never skipped. */
  lemma WokenOnPeriod(r: Run, n: nat, t0: nat, available: seq<bool>, i: nat, j: nat, t: nat, d: nat)
    requires IsRunFrom(r, n, t0, available) && t0 < TWO32 && i <= j < |r.ops| && d < NUM_DEVICES
    requires t in r.states[i].ctl && r.states[i].ctl[t] == Asleep(d)
    requires r.ops[j] == Tick && Ticks(r.ops[..j]) + 1 == NextMultiple(Ticks(r.ops[..i]), Period(d))
    ensures t in r.states[j].ctl && r.states[j].ctl[t] == Asleep(d)
    ensures t in r.states[j + 1].run && t in r.states[j + 1].ctl && r.states[j + 1].ctl[t] == User
  {
    SleepsUntilPeriod(r, n, t0, available, i, j, t, d);
    FiresExactlyOnPeriod(r, n, t0, available, j, d);
    NextMultipleDivides(Ticks(r.ops[..i]), Period(d));
    assert StepAt(r, j);
    var a := Advance(r.states[j]);
    assert Wakes(a, NUM_DEVICES, t);
  }

  // ---------- One tick ----------

  /** The queues of the first i devices that are due, end to end. */
  ghost function DueQueue(a: State, i: nat): seq<nat>
    requires i <= |a.devices|
  {
    if i == 0 then [] else DueQueue(a, i - 1) + if Due(a, i - 1) then a.devices[i - 1].queue else []
  }

  lemma {:induction false} DueQueueWakes(a: State, i: nat)
    requires Inv(a) && i <= NUM_DEVICES
    ensures NoDup(DueQueue(a, i)) && forall t :: t in DueQueue(a, i) <==> Wakes(a, i, t)
  {
    if i > 0 {
      DueQueueWakes(a, i - 1);
      assert DeviceOk(a, i - 1);
      var q, q' := DueQueue(a, i - 1), if Due(a, i - 1) then a.devices[i - 1].queue else [];
      forall t ensures !(t in q && t in q') {
        assert t in q <==> Wakes(a, i - 1, t);
      }
      forall t ensures t in q + q' <==> Wakes(a, i, t) {
        assert t in q <==> Wakes(a, i - 1, t);
      }
      NoDupConcat(q, q');
    }
  }

  lemma NoDupConcat(q: seq<nat>, q': seq<nat>)
    requires NoDup(q) && NoDup(q') && forall t :: !(t in q && t in q')
    ensures NoDup(q + q')
  {
    forall i, j | 0 <= i < j < |q + q'| ensures (q + q')[i] != (q + q')[j] {
      if i < |q| <= j {
        assert q[i] in q && q'[j - |q|] in q';
      }
    }
  }

  /** One tick moves exactly the queues of the due devices, end to end, into the run queue;
      it empties those, leaves every other queue alone, and dispatches iff it moved anybody. */
  lemma TickMoves(s: State)
    requires Inv(s)
    ensures var a, s' := Advance(s), Step(s, Tick); var moved := DueQueue(a, NUM_DEVICES);
      && NoDup(moved) && (forall t :: !(t in moved && t in s.run))
      && (forall t :: t in s'.run <==> t in s.run || t in moved)
      && (forall d :: 0 <= d < NUM_DEVICES ==> s'.devices[d].queue == if Due(a, d) then [] else s.devices[d].queue)
      && s'.mutexes == s.mutexes
      && s'.cur == (if moved == [] then s.cur else Least(s'.run))
      && (EventOf(s, Tick) == Dispatched <==> moved != [])
  {
    var a := Advance(s);
    var moved := DueQueue(a, NUM_DEVICES);
    AdvanceInv(s);
    DueQueueWakes(a, NUM_DEVICES);
    if moved != [] {
      assert moved[0] in moved && AnyWakes(a, NUM_DEVICES);
    }
  }
}
