/** Properties of every run of the kernel: every interleaving of the current task's calls
    with timer ticks. */
module KernelRuns {
  import opened Config
  import opened KernelSpec

  /** The states a run goes through, and the step from each to the next. */
  datatype Run = Run(states: seq<State>, ops: seq<Op>)

  ghost predicate IsRun(r: Run)
  {
    && |r.states| == |r.ops| + 1 && Inv(r.states[0])
    && forall i :: 0 <= i < |r.ops| ==> StepAt(r, i)
  }

  ghost predicate StepAt(r: Run, i: nat)
    requires |r.states| == |r.ops| + 1 && i < |r.ops|
  {
    && WellShaped(r.states[i]) && Enabled(r.states[i], r.ops[i])
    && r.states[i + 1] == Step(r.states[i], r.ops[i])
  }

  /** A run from the end of task_create, for n tasks. */
  ghost predicate IsRunFrom(r: Run, n: nat, now: nat, available: seq<bool>)
  {
    IsRun(r) && |available| == OS_NUM_MUTEX && r.states[0] == Init(n, now, available)
  }

  /** A run from the end of some task_create, for n tasks. */
  ghost predicate IsRunOf(r: Run, n: nat)
  {
    exists now: nat, available: seq<bool> :: IsRunFrom(r, n, now, available)
  }

  ghost function LastState(r: Run): State
    requires |r.states| == |r.ops| + 1
  {
    r.states[|r.ops|]
  }

  /** The run after one more step. */
  ghost function Extend(r: Run, op: Op): Run
    requires |r.states| == |r.ops| + 1 && WellShaped(LastState(r))
  {
    Run(r.states + [Step(LastState(r), op)], r.ops + [op])
  }

  lemma ExtendIsRun(r: Run, op: Op)
    requires IsRun(r) && WellShaped(LastState(r)) && Enabled(LastState(r), op)
    ensures IsRun(Extend(r, op)) && LastState(Extend(r, op)) == Step(LastState(r), op)
    ensures forall n :: IsRunOf(r, n) ==> IsRunOf(Extend(r, op), n)
  {
    hide Step, Inv, Init;
    var r' := Extend(r, op);
    forall i | 0 <= i < |r'.ops| ensures StepAt(r', i) {
      if i < |r.ops| { assert StepAt(r, i); }
    }
    forall n | IsRunOf(r, n) ensures IsRunOf(r', n) {
      var now: nat, available: seq<bool> :| IsRunFrom(r, n, now, available);
      assert IsRunFrom(r', n, now, available);
    }
  }

  lemma StartIsRun(n: nat, now: nat, available: seq<bool>)
    requires |available| == OS_NUM_MUTEX && now < TWO32
    ensures var r := Run([Init(n, now, available)], []);
      IsRun(r) && IsRunOf(r, n) && LastState(r) == Init(n, now, available)
  {
    InitInv(n, now, available);
    assert IsRunFrom(Run([Init(n, now, available)], []), n, now, available);
  }

  lemma {:induction false} InvAlways(r: Run, i: nat)
    requires IsRun(r) && i <= |r.ops|
    ensures Inv(r.states[i])
  {
    if i > 0 {
      InvAlways(r, i - 1);
      assert StepAt(r, i - 1);
      StepInv(r.states[i - 1], r.ops[i - 1]);
    }
  }

  // ---------- What can be observed ----------

  datatype Event =
    | Quiet
    | Dispatched
    | Acquired(task: nat, mtx: nat)                // mutex_lock returns 0
    | BlockedOn(task: nat, mtx: nat)               // mutex_lock suspends the task
    | Released(task: nat, mtx: nat)                // mutex_unlock returns 0, nobody was waiting
    | HandedOver(task: nat, mtx: nat, to: nat)     // mutex_unlock returns 0, the first waiter is woken

  ghost function EventOf(s: State, op: Op): Event
    requires WellShaped(s)
  {
    match op
    case EventWait(d) => if ReplyOf(s, op) == Suspended then Dispatched else Quiet
    case MutexCreate => Quiet
    case Lock(m) =>
      if ReplyOf(s, op) == Returns(0) then Acquired(s.cur, m)
      else if ReplyOf(s, op) == Suspended then BlockedOn(s.cur, m)
      else Quiet
    case LockDispatch => Dispatched
    case LockResume => if s.ctl[s.cur].Granted? then Acquired(s.cur, s.ctl[s.cur].mtx) else Quiet
    case Unlock(m) =>
      if ReplyOf(s, op) != Returns(0) then Quiet
      else if s.mutexes[m].queue == [] then Released(s.cur, m)
      else HandedOver(s.cur, m, s.mutexes[m].queue[0])
    case Tick => if AnyWakes(Advance(s), NUM_DEVICES) then Dispatched else Quiet
  }

  ghost function Trace(r: Run): (tr: seq<Event>)
    requires IsRun(r)
    ensures |tr| == |r.ops|
  {
    seq(|r.ops|, i requires 0 <= i < |r.ops| =>
      assert StepAt(r, i); EventOf(r.states[i], r.ops[i]))
  }

  predicate IsUnlock(e: Event, m: nat)
  {
    (e.Released? || e.HandedOver?) && e.mtx == m
  }

  // ---------- Mutual exclusion ----------

  /** The tasks between a successful lock of m and their unlock of it. */
  ghost function Owners(tr: seq<Event>, m: nat): set<nat>
  {
    if tr == [] then {} else OwnersAfter(Owners(tr[..|tr| - 1], m), tr[|tr| - 1], m)
  }

  ghost function OwnersAfter(owners: set<nat>, e: Event, m: nat): set<nat>
  {
    match e
    case Acquired(t, k) => if k == m then owners + {t} else owners
    case Released(t, k) => if k == m then owners - {t} else owners
    case HandedOver(t, k, _) => if k == m then owners - {t} else owners
    case _ => owners
  }

  /** The holder of m, unless it has been handed m and has not run since. */
  ghost function OwnersIn(s: State, m: nat): set<nat>
    requires m < |s.mutexes|
  {
    match s.mutexes[m].holder
    case None => {}
    case Some(t) => if t in s.ctl && s.ctl[t].Granted? && s.ctl[t].mtx == m then {} else {t}
  }

  lemma OwnersLock(s: State, k: nat, m: nat)
    requires Inv(s) && Enabled(s, Lock(k)) && m < OS_NUM_MUTEX
    ensures OwnersIn(LockStep(s, k), m) == OwnersAfter(OwnersIn(s, m), EventOf(s, Lock(k)), m)
  {
    assert MutexOk(s, m);
    if k < OS_NUM_MUTEX {
      assert MutexOk(s, k);
    }
  }

  lemma OwnersUnlock(s: State, k: nat, m: nat)
    requires Inv(s) && Enabled(s, Unlock(k)) && m < OS_NUM_MUTEX
    ensures OwnersIn(UnlockStep(s, k), m) == OwnersAfter(OwnersIn(s, m), EventOf(s, Unlock(k)), m)
  {
    assert MutexOk(s, m);
    if k < OS_NUM_MUTEX && s.mutexes[k].queue != [] {
      assert MutexOk(s, k) && s.mutexes[k].queue[0] in s.mutexes[k].queue;
    }
  }

  lemma OwnersResume(s: State, m: nat)
    requires Inv(s) && Enabled(s, LockResume) && m < OS_NUM_MUTEX
    ensures OwnersIn(LockResumeStep(s), m) == OwnersAfter(OwnersIn(s, m), EventOf(s, LockResume), m)
  {
    assert ControlOk(s, s.cur);
  }

  /** Every step changes the owner of m as its event says. */
  lemma OwnersStep(s: State, op: Op, m: nat)
    requires Inv(s) && Enabled(s, op) && m < OS_NUM_MUTEX
    ensures OwnersIn(Step(s, op), m) == OwnersAfter(OwnersIn(s, m), EventOf(s, op), m)
  {
    match op
    case Lock(k) => OwnersLock(s, k, m);
    case Unlock(k) => OwnersUnlock(s, k, m);
    case LockResume => OwnersResume(s, m);
    case _ => assert MutexOk(s, m);
  }

  lemma {:induction false} OwnersAlways(r: Run, i: nat, m: nat)
    requires IsRun(r) && i <= |r.ops| && m < OS_NUM_MUTEX && OwnersIn(r.states[0], m) == {}
    ensures Inv(r.states[i]) && Owners(Trace(r)[..i], m) == OwnersIn(r.states[i], m)
  {
    InvAlways(r, i);
    if i > 0 {
      OwnersAlways(r, i - 1, m);
      assert StepAt(r, i - 1);
      OwnersStep(r.states[i - 1], r.ops[i - 1], m);
      assert Trace(r)[..i][..i - 1] == Trace(r)[..i - 1];
    }
  }

  lemma EventNeedsOwner(s: State, op: Op, m: nat)
    requires Inv(s) && Enabled(s, op) && m < OS_NUM_MUTEX
    ensures var e := EventOf(s, op);
      && (e.Acquired? && e.mtx == m ==> OwnersIn(s, m) == {})
      && (IsUnlock(e, m) ==> OwnersIn(s, m) == {e.task})
  {
    assert MutexOk(s, m) && ControlOk(s, s.cur);
  }

  lemma SmallSet(s: set<nat>, t: nat)
    ensures |{t}| == 1
    ensures s <= {t} ==> |s| <= 1
  {
    if s <= {t} { assert s == {} || s == {t}; }
  }

  /** Mutual exclusion: a lock of m succeeds only while no task owns m, an unlock only for the
      one task that does, and at no time do two tasks own it. */
  lemma MutualExclusion(r: Run, n: nat, now: nat, available: seq<bool>, i: nat, m: nat)
    requires IsRunFrom(r, n, now, available) && i < |r.ops| && m < OS_NUM_MUTEX
    ensures var e, owners := Trace(r)[i], Owners(Trace(r)[..i], m);
      && |owners| <= 1
      && (e.Acquired? && e.mtx == m ==> owners == {})
      && (IsUnlock(e, m) ==> owners == {e.task})
  {
    OwnersAlways(r, i, m);
    assert StepAt(r, i);
    EventNeedsOwner(r.states[i], r.ops[i], m);
    var h := r.states[i].mutexes[m].holder;
    SmallSet(OwnersIn(r.states[i], m), if h.Some? then h.value else 0);
  }

  /** A task that resumes in the middle of mutex_lock already holds the mutex, so the code's
      second assignment of lock flag and holder changes nothing and steals nothing. */
  lemma ResumeFindsItsMutex(r: Run, i: nat)
    requires IsRun(r) && i < |r.ops| && r.ops[i] == LockResume
    ensures r.states[i + 1].mutexes == r.states[i].mutexes && r.states[i + 1].run == r.states[i].run
    ensures exists m :: 0 <= m < OS_NUM_MUTEX && Trace(r)[i] == Acquired(r.states[i].cur, m)
  {
    InvAlways(r, i);
    var s := r.states[i];
    assert StepAt(r, i);
    assert ControlOk(s, s.cur) && MutexOk(s, s.ctl[s.cur].mtx);
    assert Trace(r)[i] == Acquired(s.cur, s.ctl[s.cur].mtx);
  }

  // ---------- First come, first served ----------

  /** The tasks that blocked on m, in order. */
  ghost function Blocks(tr: seq<Event>, m: nat): seq<nat>
  {
    if tr == [] then [] else
      var e := tr[|tr| - 1];
      Blocks(tr[..|tr| - 1], m) + Joins(e, m)
  }

  /** The tasks that m was handed to, in order. */
  ghost function Grants(tr: seq<Event>, m: nat): seq<nat>
  {
    if tr == [] then [] else
      var e := tr[|tr| - 1];
      Grants(tr[..|tr| - 1], m) + Leaves(e, m)
  }

  /** How often m was unlocked. */
  ghost function Unlocks(tr: seq<Event>, m: nat): nat
  {
    if tr == [] then 0 else Unlocks(tr[..|tr| - 1], m) + if IsUnlock(tr[|tr| - 1], m) then 1 else 0
  }

  /** What an event adds to the queue of m, and what it takes from its front. */
  ghost function Joins(e: Event, m: nat): seq<nat>
  {
    if e.BlockedOn? && e.mtx == m then [e.task] else []
  }

  ghost function Leaves(e: Event, m: nat): seq<nat>
  {
    if e.HandedOver? && e.mtx == m then [e.to] else []
  }

  lemma QueueLock(s: State, k: nat, m: nat)
    requires Inv(s) && Enabled(s, Lock(k)) && m < OS_NUM_MUTEX
    ensures s.mutexes[m].queue + Joins(EventOf(s, Lock(k)), m) == LockStep(s, k).mutexes[m].queue
  {
  }

  lemma QueueUnlock(s: State, k: nat, m: nat)
    requires Inv(s) && Enabled(s, Unlock(k)) && m < OS_NUM_MUTEX
    ensures var e := EventOf(s, Unlock(k));
      && s.mutexes[m].queue == Leaves(e, m) + UnlockStep(s, k).mutexes[m].queue
      && (IsUnlock(e, m) ==> (e.HandedOver? <==> s.mutexes[m].queue != []))
  {
  }

  lemma QueueStep(s: State, op: Op, m: nat)
    requires Inv(s) && Enabled(s, op) && m < OS_NUM_MUTEX
    ensures var e := EventOf(s, op);
      && s.mutexes[m].queue + Joins(e, m) == Leaves(e, m) + Step(s, op).mutexes[m].queue
      && (IsUnlock(e, m) ==> (e.HandedOver? <==> s.mutexes[m].queue != []))
  {
    match op
    case Lock(k) => QueueLock(s, k, m);
    case Unlock(k) => QueueUnlock(s, k, m);
    case LockResume => assert MutexOk(s, m) && ControlOk(s, s.cur);
    case _ =>
  }

  /** The segment of the trace from step i up to step j. */
  ghost function Segment(r: Run, i: nat, j: nat): (tr: seq<Event>)
    requires IsRun(r) && i <= j <= |r.ops|
    ensures |tr| == j - i
  {
    Trace(r)[i..j]
  }

  /** Over any segment of any run, the tasks queued for m at its start and then those that
      block on m during it are handed m in exactly that order; the rest are still queued. */
  lemma {:induction false} FirstComeFirstServed(r: Run, i: nat, j: nat, m: nat)
    requires IsRun(r) && i <= j <= |r.ops| && m < OS_NUM_MUTEX
    ensures Inv(r.states[i]) && Inv(r.states[j])
    ensures r.states[i].mutexes[m].queue + Blocks(Segment(r, i, j), m)
         == Grants(Segment(r, i, j), m) + r.states[j].mutexes[m].queue
  {
    hide EventOf, Step, DeviceOk, MutexOk, ControlOk, TasksOk, RunOk, Blocks, Grants, Segment, Joins, Leaves;
    InvAlways(r, i);
    InvAlways(r, j);
    EmptySegment(r, i, m);
    if i < j {
      FirstComeFirstServed(r, i, j - 1, m);
      SegmentLast(r, i, j, m);
      QueueStep(r.states[j - 1], r.ops[j - 1], m);
      AppendBoth(r.states[i].mutexes[m].queue, Blocks(Segment(r, i, j - 1), m), Grants(Segment(r, i, j - 1), m),
                 r.states[j - 1].mutexes[m].queue, r.states[j].mutexes[m].queue,
                 Joins(EventOf(r.states[j - 1], r.ops[j - 1]), m), Leaves(EventOf(r.states[j - 1], r.ops[j - 1]), m));
    }
  }

  lemma EmptySegment(r: Run, i: nat, m: nat)
    requires IsRun(r) && i <= |r.ops|
    ensures Unlocks(Segment(r, i, i), m) == 0
    ensures Blocks(Segment(r, i, i), m) == [] && Grants(Segment(r, i, i), m) == []
  {
  }

  lemma AppendBoth(q0: seq<nat>, b: seq<nat>, g: seq<nat>, q: seq<nat>, q': seq<nat>, x: seq<nat>, y: seq<nat>)
    requires q0 + b == g + q && q + x == y + q'
    ensures q0 + (b + x) == (g + y) + q'
  {
    assert q0 + (b + x) == (q0 + b) + x;
    assert (g + q) + x == g + (q + x);
    assert g + (y + q') == (g + y) + q';
  }

  /** From the start, the grants of m are a prefix of the blocks on m. */
  lemma GrantsArePrefixOfBlocks(r: Run, n: nat, now: nat, available: seq<bool>, j: nat, m: nat)
    requires IsRunFrom(r, n, now, available) && j <= |r.ops| && m < OS_NUM_MUTEX
    ensures Grants(Trace(r)[..j], m) <= Blocks(Trace(r)[..j], m)
  {
    FirstComeFirstServed(r, 0, j, m);
    assert Segment(r, 0, j) == Trace(r)[..j];
    assert [] + Blocks(Trace(r)[..j], m) == Blocks(Trace(r)[..j], m);
  }

  /** One step on the way: u of the tasks of q have been handed m, the rest are queued. */
  lemma HandOffStep(s: State, op: Op, m: nat, q: seq<nat>, u: nat)
    requires Inv(s) && Enabled(s, op) && m < OS_NUM_MUTEX && s.mutexes[m].locked
    requires u <= |q| && q[u..] <= s.mutexes[m].queue
    requires IsUnlock(EventOf(s, op), m) ==> u < |q|
    ensures Step(s, op).mutexes[m].locked
    ensures IsUnlock(EventOf(s, op), m) ==> EventOf(s, op).HandedOver? && EventOf(s, op).to == q[u]
  {
    if IsUnlock(EventOf(s, op), m) {
      assert q[u..][0] == q[u];
    }
    StaysLocked(s, op, m);
  }

  lemma SegmentLast(r: Run, i: nat, j: nat, m: nat)
    requires IsRun(r) && i < j <= |r.ops|
    ensures StepAt(r, j - 1)
    ensures var seg, last, e := Segment(r, i, j), Segment(r, i, j - 1), EventOf(r.states[j - 1], r.ops[j - 1]);
      && Unlocks(seg, m) == Unlocks(last, m) + (if IsUnlock(e, m) then 1 else 0)
      && Grants(seg, m) == Grants(last, m) + Leaves(e, m)
      && Blocks(seg, m) == Blocks(last, m) + Joins(e, m)
  {
    hide EventOf, Step;
    assert StepAt(r, j - 1);
    var seg := Segment(r, i, j);
    assert seg[..|seg| - 1] == Segment(r, i, j - 1);
    assert seg[|seg| - 1] == EventOf(r.states[j - 1], r.ops[j - 1]);
  }

  /** After step j, u of the tasks queued for m at step i have been handed it, in order, and
      m is still locked. */
  ghost predicate InTurn(r: Run, i: nat, j: nat, m: nat, q: seq<nat>)
    requires IsRun(r) && i <= j <= |r.ops|
  {
    var u := Unlocks(Segment(r, i, j), m);
    && m < |r.states[j].mutexes| && r.states[j].mutexes[m].locked
    && u <= |q| && Grants(Segment(r, i, j), m) == q[..u]
  }

  lemma InTurnStep(r: Run, i: nat, j: nat, m: nat)
    requires IsRun(r) && i < j <= |r.ops| && m < OS_NUM_MUTEX
    requires Inv(r.states[i]) && Inv(r.states[j - 1])
    requires InTurn(r, i, j - 1, m, r.states[i].mutexes[m].queue)
    requires Unlocks(Segment(r, i, j), m) <= |r.states[i].mutexes[m].queue|
    ensures InTurn(r, i, j, m, r.states[i].mutexes[m].queue)
  {
    hide EventOf, DeviceOk, MutexOk, ControlOk, TasksOk, RunOk;
    var q, u := r.states[i].mutexes[m].queue, Unlocks(Segment(r, i, j - 1), m);
    SegmentLast(r, i, j, m);
    QueueAfterGrants(r, i, j - 1, m);
    HandOffStep(r.states[j - 1], r.ops[j - 1], m, q, u);
    TakeOneMore(q, u);
  }

  /** While tasks are queued for m, each unlock hands it to the next of them and m stays
      locked, so nobody overtakes. */
  lemma {:induction false} NoOvertaking(r: Run, i: nat, j: nat, m: nat)
    requires IsRun(r) && i <= j <= |r.ops| && m < OS_NUM_MUTEX
    requires Inv(r.states[i]) && r.states[i].mutexes[m].queue != []
    requires Unlocks(Segment(r, i, j), m) <= |r.states[i].mutexes[m].queue|
    ensures InTurn(r, i, j, m, r.states[i].mutexes[m].queue)
  {
    hide EventOf, Step, DeviceOk, ControlOk, TasksOk, RunOk, Unlocks, Grants, Segment;
    if i == j {
      EmptySegment(r, i, m);
      assert MutexOk(r.states[i], m);
    } else {
      SegmentLast(r, i, j, m);
      NoOvertaking(r, i, j - 1, m);
      InvAlways(r, j - 1);
      InTurnStep(r, i, j, m);
    }
  }

  lemma TakeOneMore(q: seq<nat>, u: nat)
    requires u <= |q|
    ensures u < |q| ==> q[..u + 1] == q[..u] + [q[u]]
  {
  }

  lemma QueueAfterGrants(r: Run, i: nat, j: nat, m: nat)
    requires IsRun(r) && i <= j <= |r.ops| && m < OS_NUM_MUTEX && Inv(r.states[i]) && Inv(r.states[j])
    requires Unlocks(Segment(r, i, j), m) <= |r.states[i].mutexes[m].queue|
    requires Grants(Segment(r, i, j), m) == r.states[i].mutexes[m].queue[..Unlocks(Segment(r, i, j), m)]
    ensures r.states[i].mutexes[m].queue[Unlocks(Segment(r, i, j), m)..] <= r.states[j].mutexes[m].queue
  {
    FirstComeFirstServed(r, i, j, m);
    RemainingQueue(r.states[i].mutexes[m].queue, Blocks(Segment(r, i, j), m), Unlocks(Segment(r, i, j), m),
                   r.states[j].mutexes[m].queue);
  }

  lemma RemainingQueue(q: seq<nat>, b: seq<nat>, u: nat, q': seq<nat>)
    requires u <= |q| && q + b == q[..u] + q'
    ensures q' == q[u..] + b
  {
    assert q == q[..u] + q[u..];
    assert q[..u] + (q[u..] + b) == q[..u] + q';
    assert (q[..u] + q')[u..] == q';
    assert (q[..u] + (q[u..] + b))[u..] == q[u..] + b;
  }

  lemma StaysLocked(s: State, op: Op, m: nat)
    requires Inv(s) && Enabled(s, op) && m < OS_NUM_MUTEX && s.mutexes[m].locked
    requires IsUnlock(EventOf(s, op), m) ==> s.mutexes[m].queue != []
    ensures Step(s, op).mutexes[m].locked
  {
  }

  /** A task with k waiters ahead of it is handed the mutex by exactly the (k+1)-th unlock. */
  lemma GrantedInTurn(r: Run, i: nat, x: nat, m: nat)
    requires IsRun(r) && i <= x < |r.ops| && m < OS_NUM_MUTEX && Inv(r.states[i])
    requires IsUnlock(Trace(r)[x], m)
    requires Unlocks(Segment(r, i, x), m) < |r.states[i].mutexes[m].queue|
    ensures Trace(r)[x].HandedOver?
    ensures Trace(r)[x].to == r.states[i].mutexes[m].queue[Unlocks(Segment(r, i, x), m)]
  {
    NoOvertaking(r, i, x, m);
    InvAlways(r, x);
    QueueAfterGrants(r, i, x, m);
    assert StepAt(r, x);
    HandOffStep(r.states[x], r.ops[x], m, r.states[i].mutexes[m].queue, Unlocks(Segment(r, i, x), m));
  }

  /** Meanwhile no other task can lock m: the call blocks or fails. */
  lemma NoLockSucceeds(r: Run, i: nat, x: nat, m: nat)
    requires IsRun(r) && i <= x < |r.ops| && m < OS_NUM_MUTEX && r.ops[x] == Lock(m)
    requires Inv(r.states[i]) && r.states[i].mutexes[m].queue != []
    requires Unlocks(Segment(r, i, x), m) <= |r.states[i].mutexes[m].queue|
    ensures !Trace(r)[x].Acquired?
  {
    NoOvertaking(r, i, x, m);
    assert StepAt(r, x);
  }

  // ---------- Mutex creation ----------

  lemma StepKeepsCreated(s: State, op: Op, m: nat)
    requires Inv(s) && Enabled(s, op) && m < OS_NUM_MUTEX && !s.mutexes[m].available
    ensures !Step(s, op).mutexes[m].available
  {
  }

  lemma {:induction false} CreatedStays(r: Run, i: nat, j: nat, m: nat)
    requires IsRun(r) && i <= j <= |r.ops| && m < OS_NUM_MUTEX
    requires Inv(r.states[i]) && !r.states[i].mutexes[m].available
    ensures Inv(r.states[j]) && !r.states[j].mutexes[m].available
  {
    InvAlways(r, j);
    if i < j {
      CreatedStays(r, i, j - 1, m);
      assert StepAt(r, j - 1);
      StepKeepsCreated(r.states[j - 1], r.ops[j - 1], m);
    }
  }

  /** No mutex is given out twice: two creations of one run that succeed return different ids. */
  lemma CreationsDiffer(r: Run, i: nat, j: nat)
    requires IsRun(r) && i < j < |r.ops| && r.ops[i] == MutexCreate && r.ops[j] == MutexCreate
    requires Inv(r.states[i]) && Inv(r.states[j])
    requires ReplyOf(r.states[i], MutexCreate).code >= 0 && ReplyOf(r.states[j], MutexCreate).code >= 0
    ensures ReplyOf(r.states[i], MutexCreate) != ReplyOf(r.states[j], MutexCreate)
  {
    var m := FirstAvailable(r.states[i].mutexes);
    assert StepAt(r, i);
    InvAlways(r, i + 1);
    assert !r.states[i + 1].mutexes[m].available;
    CreatedStays(r, i + 1, j, m);
  }
}
