/** What each call answers, in every run: from the history of the run alone, not from the state
    that the call finds. */
module KernelCalls {
  import opened Config
  import opened KernelSpec
  import opened KernelRuns
  import opened KernelTiming

  // ---------- Which mutexes exist ----------

  /** Mutex m was in use when the run began, or a creation among the first i steps has answered m. */
  ghost predicate Given(r: Run, available: seq<bool>, i: nat, m: nat)
    requires IsRun(r) && i <= |r.ops| && |available| == OS_NUM_MUTEX
  {
    && m < OS_NUM_MUTEX
    && (!available[m] || exists j :: 0 <= j < i && Answers(r, j, m))
  }

  ghost predicate Answers(r: Run, j: nat, m: nat)
    requires IsRun(r) && j < |r.ops|
  {
    assert StepAt(r, j);
    r.ops[j] == MutexCreate && ReplyOf(r.states[j], MutexCreate) == Returns(m)
  }

  /** One more step: mutex m becomes unavailable iff the step is a creation that answers m. */
  lemma AvailableStep(s: State, op: Op, m: nat)
    requires Inv(s) && Enabled(s, op) && m < OS_NUM_MUTEX
    ensures !Step(s, op).mutexes[m].available <==>
      !s.mutexes[m].available || (op == MutexCreate && ReplyOf(s, op) == Returns(m))
  {
    match op
    case Lock(k) =>
      if k < OS_NUM_MUTEX { assert MutexOk(s, k); }
    case Unlock(k) =>
      if k < OS_NUM_MUTEX { assert MutexOk(s, k); }
    case LockResume => assert ControlOk(s, s.cur);
    case _ =>
  }

  lemma {:induction false} GivenExactly(r: Run, n: nat, now: nat, available: seq<bool>, i: nat, m: nat)
    requires IsRunFrom(r, n, now, available) && i <= |r.ops| && m < OS_NUM_MUTEX
    ensures Inv(r.states[i])
    ensures Given(r, available, i, m) <==> !r.states[i].mutexes[m].available
  {
    InvAlways(r, i);
    if i > 0 {
      hide Step, ReplyOf, Inv;
      GivenExactly(r, n, now, available, i - 1, m);
      assert StepAt(r, i - 1);
      AvailableStep(r.states[i - 1], r.ops[i - 1], m);
      assert Given(r, available, i, m) <==> Given(r, available, i - 1, m) || Answers(r, i - 1, m);
    }
  }

  /** mutex_create answers the least id that has not been given, -ENOMEM iff there is none left. */
  lemma CreateAnswers(r: Run, n: nat, now: nat, available: seq<bool>, i: nat)
    requires IsRunFrom(r, n, now, available) && i < |r.ops| && r.ops[i] == MutexCreate
    ensures Inv(r.states[i])
    ensures var reply := ReplyOf(r.states[i], MutexCreate);
      && reply.Returns?
      && (reply.code == -ENOMEM <==> forall m :: 0 <= m < OS_NUM_MUTEX ==> Given(r, available, i, m))
      && (reply.code != -ENOMEM ==>
        && 0 <= reply.code < OS_NUM_MUTEX && !Given(r, available, i, reply.code)
        && forall m :: 0 <= m < reply.code ==> Given(r, available, i, m))
  {
    InvAlways(r, i);
    forall m | 0 <= m < OS_NUM_MUTEX
      ensures Given(r, available, i, m) <==> !r.states[i].mutexes[m].available
    {
      GivenExactly(r, n, now, available, i, m);
    }
  }

  // ---------- Who holds a mutex ----------

  /** The task that locked m or was handed it last, and has not unlocked it since. */
  ghost function Holders(tr: seq<Event>, m: nat): set<nat>
  {
    if tr == [] then {} else HoldersAfter(Holders(tr[..|tr| - 1], m), tr[|tr| - 1], m)
  }

  ghost function HoldersAfter(holders: set<nat>, e: Event, m: nat): set<nat>
  {
    match e
    case Acquired(t, k) => if k == m then {t} else holders
    case Released(_, k) => if k == m then {} else holders
    case HandedOver(_, k, to) => if k == m then {to} else holders
    case _ => holders
  }

  ghost function HolderIn(s: State, m: nat): set<nat>
    requires m < |s.mutexes|
  {
    if s.mutexes[m].holder.Some? then {s.mutexes[m].holder.value} else {}
  }

  lemma HoldersStep(s: State, op: Op, m: nat)
    requires Inv(s) && Enabled(s, op) && m < OS_NUM_MUTEX
    ensures HolderIn(Step(s, op), m) == HoldersAfter(HolderIn(s, m), EventOf(s, op), m)
  {
    match op
    case Lock(k) =>
      if k < OS_NUM_MUTEX { assert MutexOk(s, k); }
    case LockResume => assert ControlOk(s, s.cur);
    case _ =>
  }

  lemma {:induction false} HoldersAlways(r: Run, n: nat, now: nat, available: seq<bool>, i: nat, m: nat)
    requires IsRunFrom(r, n, now, available) && i <= |r.ops| && m < OS_NUM_MUTEX
    ensures Inv(r.states[i]) && Holders(Trace(r)[..i], m) == HolderIn(r.states[i], m)
  {
    InvAlways(r, i);
    if i > 0 {
      HoldersAlways(r, n, now, available, i - 1, m);
      assert StepAt(r, i - 1);
      HoldersStep(r.states[i - 1], r.ops[i - 1], m);
      assert Trace(r)[..i][..i - 1] == Trace(r)[..i - 1];
    }
  }

  // ---------- mutex_lock and mutex_unlock ----------

  lemma LockReply(s: State, m: nat)
    requires Inv(s) && Enabled(s, Lock(m))
    ensures var e, reply := EventOf(s, Lock(m)), ReplyOf(s, Lock(m));
      if m >= OS_NUM_MUTEX || s.mutexes[m].available then reply == Returns(EINVAL) && e == Quiet
      else if HolderIn(s, m) == {} then reply == Returns(0) && e == Acquired(s.cur, m)
      else if s.cur in HolderIn(s, m) then reply == Returns(EDEADLOCK) && e == Quiet
      else reply == Suspended && e == BlockedOn(s.cur, m)
  {
    if m < OS_NUM_MUTEX { assert MutexOk(s, m); }
  }

  /** Every call of mutex_lock: EINVAL iff the mutex was never given; else it succeeds iff nobody
      holds the mutex, fails with EDEADLOCK iff the caller does, and blocks iff another task does. */
  lemma LockAnswers(r: Run, n: nat, now: nat, available: seq<bool>, i: nat, m: nat)
    requires IsRunFrom(r, n, now, available) && i < |r.ops| && r.ops[i] == Lock(m)
    ensures Inv(r.states[i])
    ensures var me, e, reply := r.states[i].cur, Trace(r)[i], ReplyOf(r.states[i], Lock(m));
      var holders := Holders(Trace(r)[..i], m);
      if !Given(r, available, i, m) then reply == Returns(EINVAL) && e == Quiet
      else if holders == {} then reply == Returns(0) && e == Acquired(me, m)
      else if me in holders then reply == Returns(EDEADLOCK) && e == Quiet
      else reply == Suspended && e == BlockedOn(me, m)
  {
    hide Step, EventOf, ReplyOf, Given, Holders;
    InvAlways(r, i);
    assert StepAt(r, i);
    LockReply(r.states[i], m);
    if m < OS_NUM_MUTEX {
      GivenExactly(r, n, now, available, i, m);
      HoldersAlways(r, n, now, available, i, m);
    } else {
      NotGiven(r, available, i, m);
    }
  }

  lemma NotGiven(r: Run, available: seq<bool>, i: nat, m: nat)
    requires IsRun(r) && i <= |r.ops| && |available| == OS_NUM_MUTEX && m >= OS_NUM_MUTEX
    ensures !Given(r, available, i, m)
  {
  }

  lemma UnlockReply(s: State, m: nat)
    requires Inv(s) && Enabled(s, Unlock(m))
    ensures var e, reply := EventOf(s, Unlock(m)), ReplyOf(s, Unlock(m));
      if m >= OS_NUM_MUTEX || s.mutexes[m].available then reply == Returns(EINVAL) && e == Quiet
      else if s.cur !in HolderIn(s, m) then reply == Returns(EPERM) && e == Quiet
      else
        && reply == Returns(0)
        && e == if s.mutexes[m].queue == [] then Released(s.cur, m) else HandedOver(s.cur, m, s.mutexes[m].queue[0])
  {
  }

  lemma FirstWaiting(b: seq<nat>, g: seq<nat>, q: seq<nat>)
    requires b == g + q
    ensures q != [] <==> |g| < |b|
    ensures q != [] ==> q[0] == b[|g|]
  {
  }

  /** Every call of mutex_unlock: EINVAL iff the mutex was never given, EPERM iff the caller does not
      hold it; else it succeeds, and hands the mutex to the first task that has blocked on it and
      was not yet handed it, if there is one. */
  lemma UnlockAnswers(r: Run, n: nat, now: nat, available: seq<bool>, i: nat, m: nat)
    requires IsRunFrom(r, n, now, available) && i < |r.ops| && r.ops[i] == Unlock(m)
    ensures Inv(r.states[i])
    ensures var me, e, reply := r.states[i].cur, Trace(r)[i], ReplyOf(r.states[i], Unlock(m));
      var b, g := Blocks(Trace(r)[..i], m), Grants(Trace(r)[..i], m);
      if !Given(r, available, i, m) then reply == Returns(EINVAL) && e == Quiet
      else if me !in Holders(Trace(r)[..i], m) then reply == Returns(EPERM) && e == Quiet
      else reply == Returns(0) && e == if |g| < |b| then HandedOver(me, m, b[|g|]) else Released(me, m)
  {
    hide Step, EventOf, ReplyOf, Given, Holders, Blocks, Grants;
    InvAlways(r, i);
    assert StepAt(r, i);
    UnlockReply(r.states[i], m);
    if m < OS_NUM_MUTEX {
      GivenExactly(r, n, now, available, i, m);
      HoldersAlways(r, n, now, available, i, m);
      FirstComeFirstServed(r, 0, i, m);
      assert Segment(r, 0, i) == Trace(r)[..i];
      var b, g, q := Blocks(Trace(r)[..i], m), Grants(Trace(r)[..i], m), r.states[i].mutexes[m].queue;
      assert [] + b == b;
      FirstWaiting(b, g, q);
    } else {
      NotGiven(r, available, i, m);
    }
  }

  /** The id that a creation answers is never refused as invalid afterwards. */
  lemma GivenIsValid(r: Run, n: nat, now: nat, available: seq<bool>, i: nat, j: nat, m: nat)
    requires IsRunFrom(r, n, now, available) && i < j < |r.ops| && Answers(r, i, m)
    requires r.ops[j] == Lock(m) || r.ops[j] == Unlock(m)
    ensures Inv(r.states[j]) && ReplyOf(r.states[j], r.ops[j]) != Returns(EINVAL)
  {
    CreateAnswers(r, n, now, available, i);
    assert Given(r, available, j, m);
    if r.ops[j] == Lock(m) {
      LockAnswers(r, n, now, available, j, m);
    } else {
      UnlockAnswers(r, n, now, available, j, m);
    }
  }

  // ---------- event_wait ----------

  lemma EventWaitStep(s: State, d: nat)
    requires Inv(s) && Enabled(s, EventWait(d))
    ensures var s' := Step(s, EventWait(d));
      if d >= NUM_DEVICES then ReplyOf(s, EventWait(d)) == Returns(EINVAL) && s' == s
      else
        && ReplyOf(s, EventWait(d)) == Suspended && EventOf(s, EventWait(d)) == Dispatched
        && s'.ctl == s.ctl[s.cur := Asleep(d)] && s'.run == s.run - {s.cur} && s'.mutexes == s.mutexes
        && s'.devices[d].queue == s.devices[d].queue + [s.cur]
        && forall e :: 0 <= e < NUM_DEVICES && e != d ==> s'.devices[e] == s.devices[e]
  {
  }

  /** The caller of event_wait(d) sleeps until the device fires next: not runnable before the tick
      that completes the next multiple of its period, and runnable after it. */
  lemma EventWaitTiming(r: Run, n: nat, t0: nat, available: seq<bool>, i: nat, j: nat, d: nat)
    requires IsRunFrom(r, n, t0, available) && t0 < TWO32 && i < j <= |r.ops|
    requires r.ops[i] == EventWait(d) && d < NUM_DEVICES
    ensures Inv(r.states[i]) && Inv(r.states[j])
    ensures var me, wake := r.states[i].cur, NextMultiple(Ticks(r.ops[..i]), Period(d));
      && (Ticks(r.ops[..j]) < wake ==> me !in r.states[j].run && me in r.states[j].ctl && r.states[j].ctl[me] == Asleep(d))
      && (r.ops[j - 1] == Tick && Ticks(r.ops[..j]) == wake ==> me in r.states[j].run && r.states[j].ctl[me] == User)
  {
    hide Step, Inv;
    var me := r.states[i].cur;
    InvAlways(r, i);
    InvAlways(r, i + 1);
    InvAlways(r, j);
    assert StepAt(r, i);
    EventWaitStep(r.states[i], d);
    assert r.ops[..i + 1][..i] == r.ops[..i];
    assert Ticks(r.ops[..i + 1]) == Ticks(r.ops[..i]);
    var wake := NextMultiple(Ticks(r.ops[..i]), Period(d));
    if Ticks(r.ops[..j]) < wake {
      SleepsUntilPeriod(r, n, t0, available, i + 1, j, me, d);
      SleeperIsOut(r.states[j], me, d);
    } else if r.ops[j - 1] == Tick && Ticks(r.ops[..j]) == wake {
      assert r.ops[..j][..j - 1] == r.ops[..j - 1];
      WokenOnPeriod(r, n, t0, available, i + 1, j - 1, me, d);
    }
  }

  lemma SleeperIsOut(s: State, t: nat, d: nat)
    requires Inv(s) && t in s.ctl && s.ctl[t] == Asleep(d)
    ensures t !in s.run
  {
  }
}
