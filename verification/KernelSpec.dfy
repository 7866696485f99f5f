/** The periodic-task kernel as an abstract state machine: tasks are the numbers of their
    TCBs, the run queue is a set and every wait queue is a sequence. The class Kernel is
    proved to refine it, call by call; KernelRuns proves properties of all its runs. */
module KernelSpec {
  import opened Config

  /** Where a task stands in the kernel code. */
  datatype Control =
    | User                                // outside any blocking call
    | Asleep(dev: nat)                    // in dev_wait, in the sleep queue of dev
    | Blocked(mtx: nat, window: bool)     // in mutex_lock, in the sleep queue of mtx
    | Granted(mtx: nat, window: bool)     // in mutex_lock, handed mtx, not yet back at line 124
  {
    // window: before the dispatch_save of line 121, with interrupts enabled

    predicate Runnable() { User? || Granted? }

    predicate WaitsFor(m: nat) { Blocked? && mtx == m }
  }

  datatype Device = Device(nextMatch: nat, queue: seq<nat>)

  datatype Mutex = Mutex(available: bool, locked: bool, holder: Option<nat>, queue: seq<nat>)

  datatype State = State(now: nat, run: set<nat>, devices: seq<Device>, mutexes: seq<Mutex>,
                         ctl: map<nat, Control>, cur: nat)

  /** One atomic step: a system call of the current task, one of the two later parts of a
      blocking mutex_lock, or a timer interrupt. */
  datatype Op =
    | EventWait(dev: nat)
    | MutexCreate
    | Lock(mtx: nat)       // up to its return, or up to line 118 when it blocks
    | LockDispatch         // line 121
    | LockResume           // lines 124 to 135
    | Unlock(mtx: nat)
    | Tick

  /** What a call gives back to the task: a return code, or nothing yet. */
  datatype Reply = Returns(code: int) | Suspended

  // ---------- The steps ----------

  ghost predicate WellShaped(s: State)
  {
    |s.devices| == NUM_DEVICES && |s.mutexes| == OS_NUM_MUTEX && s.cur in s.ctl
  }

  predicate Enabled(s: State, op: Op)
    requires s.cur in s.ctl
  {
    match op
    case Tick => true
    case LockDispatch => (s.ctl[s.cur].Blocked? || s.ctl[s.cur].Granted?) && s.ctl[s.cur].window
    case LockResume => s.ctl[s.cur].Granted? && !s.ctl[s.cur].window
    case _ => s.cur != IDLE_PRIO && s.ctl[s.cur].User?
  }

  /** The least priority in the run queue; 0 when it is empty, as highest_prio has it. */
  ghost function Least(r: set<nat>): (m: nat)
    ensures r == {} ==> m == 0
    ensures r != {} ==> m in r && forall x :: x in r ==> m <= x
  {
    if r == {} then 0 else
      LeastExists(r);
      var m :| m in r && forall x :: x in r ==> m <= x; m
  }

  lemma LeastExists(r: set<nat>)
    requires r != {}
    ensures exists m :: m in r && forall x :: x in r ==> m <= x
  {
    var m: nat :| m in r;
    while exists x :: x in r && x < m
      invariant m in r
      decreases m
    {
      var x :| x in r && x < m;
      m := x;
    }
    assert m in r && forall x :: x in r ==> m <= x;
  }

  ghost function Dispatch(s: State): State
  {
    s.(cur := Least(s.run))
  }

  ghost function SleepOn(s: State, d: nat): State
    requires WellShaped(s) && d < NUM_DEVICES
  {
    var dev := s.devices[d];
    s.(run := s.run - {s.cur},
       devices := s.devices[d := dev.(queue := dev.queue + [s.cur])],
       ctl := s.ctl[s.cur := Asleep(d)])
  }

  ghost function BlockOn(s: State, m: nat): State
    requires WellShaped(s) && m < OS_NUM_MUTEX
  {
    var mx := s.mutexes[m];
    s.(run := s.run - {s.cur},
       mutexes := s.mutexes[m := mx.(queue := mx.queue + [s.cur])],
       ctl := s.ctl[s.cur := Blocked(m, true)])
  }

  ghost function Take(s: State, m: nat): State
    requires WellShaped(s) && m < OS_NUM_MUTEX
  {
    s.(mutexes := s.mutexes[m := s.mutexes[m].(locked := true, holder := Some(s.cur))],
       ctl := s.ctl[s.cur := User])
  }

  ghost function Free(s: State, m: nat): State
    requires WellShaped(s) && m < OS_NUM_MUTEX
  {
    s.(mutexes := s.mutexes[m := s.mutexes[m].(locked := false, holder := None)])
  }

  /** The lock goes straight to the first waiter, which becomes runnable. */
  ghost function HandOver(s: State, m: nat): State
    requires WellShaped(s) && m < OS_NUM_MUTEX && s.mutexes[m].queue != []
  {
    var mx := s.mutexes[m];
    var t := mx.queue[0];
    s.(run := s.run + {t},
       mutexes := s.mutexes[m := mx.(holder := Some(t), queue := mx.queue[1..])],
       ctl := s.ctl[t := Granted(m, t in s.ctl && s.ctl[t].Blocked? && s.ctl[t].window)])
  }

  /** A mutex id that names no mutex, or one nobody has created. */
  predicate BadMutex(s: State, m: nat)
  {
    m >= OS_NUM_MUTEX || (m < |s.mutexes| && s.mutexes[m].available)
  }

  ghost function LockStep(s: State, m: nat): State
    requires WellShaped(s)
  {
    if BadMutex(s, m) || s.mutexes[m].holder == Some(s.cur) then s
    else if s.mutexes[m].locked then BlockOn(s, m)
    else Take(s, m)
  }

  ghost function UnlockStep(s: State, m: nat): State
    requires WellShaped(s)
  {
    if BadMutex(s, m) || s.mutexes[m].holder != Some(s.cur) then s
    else if s.mutexes[m].queue == [] then Free(s, m)
    else HandOver(s, m)
  }

  /** Index of the first mutex still available, OS_NUM_MUTEX if none is. */
  function FirstAvailable(mutexes: seq<Mutex>): (i: nat)
    ensures i <= |mutexes|
    ensures i < |mutexes| ==> mutexes[i].available
    ensures forall j :: 0 <= j < i ==> !mutexes[j].available
  {
    if mutexes == [] || mutexes[0].available then 0 else 1 + FirstAvailable(mutexes[1..])
  }

  ghost function CreateStep(s: State): State
    requires WellShaped(s)
  {
    var i := FirstAvailable(s.mutexes);
    if i == OS_NUM_MUTEX then s
    else s.(mutexes := s.mutexes[i := s.mutexes[i].(available := false)])
  }

  ghost function LockDispatchStep(s: State): State
    requires WellShaped(s)
  {
    var c := s.ctl[s.cur];
    if c.Blocked? || c.Granted? then Dispatch(s.(ctl := s.ctl[s.cur := c.(window := false)])) else s
  }

  ghost function LockResumeStep(s: State): State
    requires WellShaped(s)
  {
    var c := s.ctl[s.cur];
    if c.Granted? && c.mtx < OS_NUM_MUTEX then Take(s, c.mtx) else s
  }

  // The timer tick

  function Advance(s: State): State
  {
    s.(now := (s.now + 1) % TWO32)
  }

  predicate Due(s: State, d: nat)
    requires d < |s.devices|
  {
    s.now == s.devices[d].nextMatch
  }

  /** Task t sleeps on one of the first i devices, and that device fires. */
  predicate Wakes(s: State, i: nat, t: nat)
  {
    && t in s.ctl && s.ctl[t].Asleep? && s.ctl[t].dev < i
    && s.ctl[t].dev < |s.devices| && Due(s, s.ctl[t].dev)
  }

  /** State s after the first i devices have been looked at. */
  ghost function Fired(s: State, i: nat): State
  {
    s.(run := s.run + (set t | t in s.ctl && Wakes(s, i, t)),
       devices := seq(|s.devices|, d requires 0 <= d < |s.devices| =>
         if d < i && Due(s, d) then Device((s.devices[d].nextMatch + DevFreq(d)) % TWO32, []) else s.devices[d]),
       ctl := map t | t in s.ctl :: if Wakes(s, i, t) then User else s.ctl[t])
  }

  ghost predicate AnyWakes(s: State, i: nat)
  {
    exists t :: Wakes(s, i, t)
  }

  ghost function TickStep(s: State): State
  {
    var a := Advance(s);
    var f := Fired(a, NUM_DEVICES);
    if AnyWakes(a, NUM_DEVICES) then Dispatch(f) else f
  }

  ghost function Step(s: State, op: Op): State
    requires WellShaped(s)
  {
    match op
    case EventWait(d) => if d > NUM_DEVICES - 1 then s else Dispatch(SleepOn(s, d))
    case MutexCreate => CreateStep(s)
    case Lock(m) => LockStep(s, m)
    case LockDispatch => LockDispatchStep(s)
    case LockResume => LockResumeStep(s)
    case Unlock(m) => UnlockStep(s, m)
    case Tick => TickStep(s)
  }

  ghost function ReplyOf(s: State, op: Op): Reply
    requires WellShaped(s)
  {
    match op
    case EventWait(d) => if d > NUM_DEVICES - 1 then Returns(EINVAL) else Suspended
    case MutexCreate =>
      var i := FirstAvailable(s.mutexes);
      Returns(if i == OS_NUM_MUTEX then -ENOMEM else i)
    case Lock(m) =>
      if BadMutex(s, m) then Returns(EINVAL)
      else if s.mutexes[m].holder == Some(s.cur) then Returns(EDEADLOCK)
      else if s.mutexes[m].locked then Suspended
      else Returns(0)
    case LockDispatch => Suspended
    case LockResume => Returns(0)
    case Unlock(m) =>
      if BadMutex(s, m) then Returns(EINVAL)
      else if s.mutexes[m].holder != Some(s.cur) then Returns(EPERM)
      else Returns(0)
    case Tick => Suspended
  }

  // ---------- The invariant ----------

  ghost predicate NoDup(q: seq<nat>)
  {
    forall i, j :: 0 <= i < j < |q| ==> q[i] != q[j]
  }

  ghost predicate TasksOk(s: State)
  {
    && (forall t :: t in s.ctl ==> t < OS_MAX_TASKS)
    && IDLE_PRIO in s.ctl && s.ctl[IDLE_PRIO].User?
    && s.now < TWO32
  }

  /** The current task is runnable, unless it has just blocked and not yet dispatched. */
  ghost predicate CurrentOk(s: State)
  {
    && s.cur in s.ctl
    && (s.ctl[s.cur].Runnable() || (s.ctl[s.cur].Blocked? && s.ctl[s.cur].window))
  }

  ghost predicate RunOk(s: State)
  {
    forall t :: t in s.run <==> t in s.ctl && s.ctl[t].Runnable()
  }

  ghost predicate DeviceOk(s: State, d: nat)
    requires d < |s.devices|
  {
    var q := s.devices[d].queue;
    && s.devices[d].nextMatch < TWO32 && NoDup(q)
    && (forall t :: t in q <==> t in s.ctl && s.ctl[t] == Asleep(d))
  }

  ghost predicate MutexOk(s: State, m: nat)
    requires m < |s.mutexes|
  {
    var mx := s.mutexes[m];
    && NoDup(mx.queue)
    && (forall t :: t in mx.queue <==> t in s.ctl && s.ctl[t].WaitsFor(m))
    && (mx.locked <==> mx.holder.Some?)
    && (mx.holder.Some? ==> mx.holder.value in s.ctl && mx.holder.value != IDLE_PRIO && mx.holder.value !in mx.queue)
    && (mx.available ==> !mx.locked)
    && (mx.queue != [] ==> mx.locked)
  }

  /** Every task waits for something that exists, and a task handed a mutex holds it. */
  ghost predicate ControlOk(s: State, t: nat)
    requires t in s.ctl
  {
    match s.ctl[t]
    case User => true
    case Asleep(d) => d < |s.devices|
    case Blocked(m, _) => m < |s.mutexes|
    case Granted(m, _) => m < |s.mutexes| && s.mutexes[m].holder == Some(t)
  }

  /** The part of the invariant that does not depend on the current task. */
  ghost predicate QueuesOk(s: State)
  {
    && |s.devices| == NUM_DEVICES && |s.mutexes| == OS_NUM_MUTEX && TasksOk(s) && RunOk(s)
    && (forall d :: 0 <= d < |s.devices| ==> DeviceOk(s, d))
    && (forall m :: 0 <= m < |s.mutexes| ==> MutexOk(s, m))
    && (forall t :: t in s.ctl ==> ControlOk(s, t))
  }

  ghost predicate Inv(s: State)
  {
    QueuesOk(s) && CurrentOk(s)
  }

  // ---------- The start state: the end of task_create ----------

  /** The TCBs that hold a task when n were asked for. Slot 63 is always idle. */
  ghost function TaskSet(n: nat): set<nat>
  {
    set t | 0 <= t < OS_MAX_TASKS && HoldsTask(n, t)
  }

  predicate HoldsTask(n: nat, t: nat)
  {
    t < n || t == IDLE_PRIO
  }

  ghost function Init(n: nat, now: nat, available: seq<bool>): State
    requires |available| == OS_NUM_MUTEX
  {
    State(now, TaskSet(n),
          seq(NUM_DEVICES, d requires 0 <= d < NUM_DEVICES => Device((now + DevFreq(d)) % TWO32, [])),
          seq(OS_NUM_MUTEX, m requires 0 <= m < OS_NUM_MUTEX => Mutex(available[m], false, None, [])),
          map t | t in TaskSet(n) :: User,
          Least(TaskSet(n)))
  }

  lemma InitInv(n: nat, now: nat, available: seq<bool>)
    requires |available| == OS_NUM_MUTEX && now < TWO32
    ensures Inv(Init(n, now, available))
  {
    var s := Init(n, now, available);
    assert IDLE_PRIO in TaskSet(n);
  }

  // ---------- Every enabled step keeps the invariant ----------

  lemma IdleRuns(s: State)
    requires Inv(s)
    ensures IDLE_PRIO in s.run && Least(s.run) in s.run && Least(s.run) in s.ctl
  {
  }

  lemma DispatchInv(s: State)
    requires QueuesOk(s)
    ensures Inv(Dispatch(s))
  {
    var s' := Dispatch(s);
    assert IDLE_PRIO in s.run;
    assert forall d :: 0 <= d < |s.devices| ==> DeviceOk(s, d) ==> DeviceOk(s', d);
    assert forall m :: 0 <= m < |s.mutexes| ==> MutexOk(s, m) ==> MutexOk(s', m);
    assert forall t :: t in s.ctl ==> ControlOk(s, t) ==> ControlOk(s', t);
  }

  lemma SleepOnOk(s: State, d: nat)
    requires Inv(s) && d < NUM_DEVICES && s.ctl[s.cur].User? && s.cur != IDLE_PRIO
    ensures QueuesOk(SleepOn(s, d))
  {
    var s' := SleepOn(s, d);
    assert DeviceOk(s, d) && s.cur !in s.devices[d].queue;
    forall e | 0 <= e < |s.devices| ensures DeviceOk(s', e) {
      assert DeviceOk(s, e);
    }
    forall m | 0 <= m < |s.mutexes| ensures MutexOk(s', m) {
      assert MutexOk(s, m);
    }
    assert forall t :: t in s.ctl ==> ControlOk(s, t) && ControlOk(s', t);
  }

  lemma BlockOnInv(s: State, m: nat)
    requires Inv(s) && m < OS_NUM_MUTEX && s.ctl[s.cur].User? && s.cur != IDLE_PRIO
    requires s.mutexes[m].locked && s.mutexes[m].holder != Some(s.cur)
    ensures Inv(BlockOn(s, m))
  {
    var s' := BlockOn(s, m);
    assert MutexOk(s, m) && s.cur !in s.mutexes[m].queue;
    forall e | 0 <= e < |s.devices| ensures DeviceOk(s', e) {
      assert DeviceOk(s, e);
    }
    forall k | 0 <= k < |s.mutexes| ensures MutexOk(s', k) {
      assert MutexOk(s, k);
    }
    assert forall t :: t in s.ctl ==> ControlOk(s, t) && ControlOk(s', t);
  }

  lemma TakeInv(s: State, m: nat)
    requires Inv(s) && m < OS_NUM_MUTEX && !s.mutexes[m].available && s.cur != IDLE_PRIO
    requires s.ctl[s.cur].Runnable()
    requires if s.mutexes[m].locked then s.mutexes[m].holder == Some(s.cur) else s.ctl[s.cur].User?
    ensures Inv(Take(s, m))
  {
    var s' := Take(s, m);
    assert MutexOk(s, m);
    forall e | 0 <= e < |s.devices| ensures DeviceOk(s', e) {
      assert DeviceOk(s, e);
    }
    forall k | 0 <= k < |s.mutexes| ensures MutexOk(s', k) {
      assert MutexOk(s, k);
    }
    assert forall t :: t in s.ctl ==> ControlOk(s, t) && ControlOk(s', t);
  }

  lemma FreeInv(s: State, m: nat)
    requires Inv(s) && m < OS_NUM_MUTEX && s.ctl[s.cur].User?
    requires s.mutexes[m].holder == Some(s.cur) && s.mutexes[m].queue == []
    ensures Inv(Free(s, m))
  {
    var s' := Free(s, m);
    forall e | 0 <= e < |s.devices| ensures DeviceOk(s', e) {
      assert DeviceOk(s, e);
    }
    forall k | 0 <= k < |s.mutexes| ensures MutexOk(s', k) {
      assert MutexOk(s, k);
    }
    assert forall t :: t in s.ctl ==> ControlOk(s, t) && ControlOk(s', t);
  }

  lemma HandOverInv(s: State, m: nat)
    requires Inv(s) && m < OS_NUM_MUTEX && s.ctl[s.cur].User?
    requires s.mutexes[m].holder == Some(s.cur) && s.mutexes[m].queue != []
    ensures Inv(HandOver(s, m))
  {
    var s' := HandOver(s, m);
    var q := s.mutexes[m].queue;
    var t := q[0];
    assert t in q && MutexOk(s, m) && s.ctl[t].WaitsFor(m);
    assert forall x :: x in q <==> x == t || x in q[1..];
    forall e | 0 <= e < |s.devices| ensures DeviceOk(s', e) {
      assert DeviceOk(s, e);
    }
    forall k | 0 <= k < |s.mutexes| ensures MutexOk(s', k) {
      assert MutexOk(s, k);
    }
    assert forall x :: x in s.ctl ==> ControlOk(s, x) && ControlOk(s', x);
  }

  lemma CreateInv(s: State)
    requires Inv(s)
    ensures Inv(CreateStep(s))
  {
    var s' := CreateStep(s);
    forall e | 0 <= e < |s.devices| ensures DeviceOk(s', e) {
      assert DeviceOk(s, e);
    }
    forall k | 0 <= k < |s.mutexes| ensures MutexOk(s', k) {
      assert MutexOk(s, k);
    }
    assert forall x :: x in s.ctl ==> ControlOk(s, x) && ControlOk(s', x);
  }

  /** The end of the window in mutex_lock. */
  lemma LeaveWindowOk(s: State)
    requires Inv(s) && Enabled(s, LockDispatch)
    ensures QueuesOk(s.(ctl := s.ctl[s.cur := s.ctl[s.cur].(window := false)]))
  {
    var s' := s.(ctl := s.ctl[s.cur := s.ctl[s.cur].(window := false)]);
    forall e | 0 <= e < |s.devices| ensures DeviceOk(s', e) {
      assert DeviceOk(s, e);
    }
    forall k | 0 <= k < |s.mutexes| ensures MutexOk(s', k) {
      assert MutexOk(s, k);
    }
    assert forall x :: x in s.ctl ==> ControlOk(s, x) && ControlOk(s', x);
  }

  lemma AdvanceInv(s: State)
    requires Inv(s)
    ensures Inv(Advance(s))
  {
    var s' := Advance(s);
    forall e | 0 <= e < |s.devices| ensures DeviceOk(s', e) {
      assert DeviceOk(s, e);
    }
    forall k | 0 <= k < |s.mutexes| ensures MutexOk(s', k) {
      assert MutexOk(s, k);
    }
    assert forall x :: x in s.ctl ==> ControlOk(s, x) && ControlOk(s', x);
  }

  lemma FiredInv(s: State, i: nat)
    requires Inv(s)
    ensures Inv(Fired(s, i))
  {
    var s' := Fired(s, i);
    forall e | 0 <= e < |s.devices| ensures DeviceOk(s', e) {
      assert DeviceOk(s, e);
    }
    forall k | 0 <= k < |s.mutexes| ensures MutexOk(s', k) {
      assert MutexOk(s, k);
    }
    assert forall x :: x in s.ctl ==> ControlOk(s, x) && ControlOk(s', x);
  }

  /** A step keeps the invariant. */
  lemma StepInv(s: State, op: Op)
    requires Inv(s) && Enabled(s, op)
    ensures Inv(Step(s, op))
  {
    match op
    case EventWait(d) =>
      if d <= NUM_DEVICES - 1 {
        SleepOnOk(s, d);
        DispatchInv(SleepOn(s, d));
      }
    case MutexCreate => CreateInv(s);
    case Lock(m) =>
      if m < OS_NUM_MUTEX {
        assert MutexOk(s, m);
        if !BadMutex(s, m) && s.mutexes[m].holder != Some(s.cur) {
          if s.mutexes[m].locked { BlockOnInv(s, m); } else { TakeInv(s, m); }
        }
      }
    case LockDispatch =>
      LeaveWindowOk(s);
      DispatchInv(s.(ctl := s.ctl[s.cur := s.ctl[s.cur].(window := false)]));
    case LockResume =>
      var m := s.ctl[s.cur].mtx;
      assert ControlOk(s, s.cur) && MutexOk(s, m);
      TakeInv(s, m);
    case Unlock(m) =>
      if m < OS_NUM_MUTEX && !BadMutex(s, m) && s.mutexes[m].holder == Some(s.cur) {
        if s.mutexes[m].queue == [] { FreeInv(s, m); } else { HandOverInv(s, m); }
      }
    case Tick =>
      AdvanceInv(s);
      FiredInv(Advance(s), NUM_DEVICES);
      DispatchInv(Fired(Advance(s), NUM_DEVICES));
  }

  // ---------- The tick, one device and one sleeper at a time ----------

  /** The first sleeper of device d becomes runnable. */
  ghost function WakeHead(s: State, d: nat): State
    requires d < |s.devices| && s.devices[d].queue != []
  {
    var q := s.devices[d].queue;
    s.(run := s.run + {q[0]},
       devices := s.devices[d := s.devices[d].(queue := q[1..])],
       ctl := s.ctl[q[0] := User])
  }

  lemma WakeHeadOk(s: State, d: nat)
    requires QueuesOk(s) && d < NUM_DEVICES && s.devices[d].queue != []
    ensures QueuesOk(WakeHead(s, d))
  {
    var s' := WakeHead(s, d);
    var q := s.devices[d].queue;
    assert DeviceOk(s, d) && q[0] in q;
    assert forall x :: x in q <==> x == q[0] || x in q[1..];
    forall e | 0 <= e < |s.devices| ensures DeviceOk(s', e) {
      assert DeviceOk(s, e);
    }
    forall k | 0 <= k < |s.mutexes| ensures MutexOk(s', k) {
      assert MutexOk(s, k);
    }
    assert forall x :: x in s.ctl ==> ControlOk(s, x) && ControlOk(s', x);
  }

  /** Device d is due: its next match moves on by its period. */
  ghost function Rearm(s: State, d: nat): State
    requires d < |s.devices|
  {
    s.(devices := s.devices[d := s.devices[d].(nextMatch := (s.devices[d].nextMatch + DevFreq(d)) % TWO32)])
  }

  lemma RearmOk(s: State, d: nat)
    requires QueuesOk(s) && d < NUM_DEVICES
    ensures QueuesOk(Rearm(s, d))
  {
    var s' := Rearm(s, d);
    forall e | 0 <= e < |s.devices| ensures DeviceOk(s', e) {
      assert DeviceOk(s, e);
    }
    forall k | 0 <= k < |s.mutexes| ensures MutexOk(s', k) {
      assert MutexOk(s, k);
    }
    assert forall x :: x in s.ctl ==> ControlOk(s, x) && ControlOk(s', x);
  }

  /** State s after the first k sleepers of device d have been woken. */
  ghost function Drained(s: State, d: nat, k: nat): State
    requires d < |s.devices| && k <= |s.devices[d].queue|
  {
    var q := s.devices[d].queue;
    s.(run := s.run + (set t | t in q[..k]),
       devices := s.devices[d := s.devices[d].(queue := q[k..])],
       ctl := map t | t in s.ctl :: if t in q[..k] then User else s.ctl[t])
  }

  lemma DrainedZero(s: State, d: nat)
    requires d < |s.devices|
    ensures Drained(s, d, 0) == s
  {
    assert Drained(s, d, 0).ctl == s.ctl;
    assert Drained(s, d, 0).run == s.run;
    assert Drained(s, d, 0).devices == s.devices;
  }

  ghost predicate DrainedTo(s: State, d: nat, k: nat, s': State)
  {
    d < |s.devices| && k <= |s.devices[d].queue| && s' == Drained(s, d, k)
  }

  lemma DrainedStep(s: State, d: nat, k: nat)
    requires QueuesOk(s) && d < NUM_DEVICES && k < |s.devices[d].queue|
    ensures DrainedTo(s, d, k + 1, WakeHead(Drained(s, d, k), d))
    ensures Drained(s, d, k + 1).devices[d].queue == s.devices[d].queue[k + 1..]
  {
    var q := s.devices[d].queue;
    assert DeviceOk(s, d) && q[k] in q;
    var a, b := WakeHead(Drained(s, d, k), d), Drained(s, d, k + 1);
    assert q[..k + 1] == q[..k] + [q[k]];
    assert a.run == b.run;
    assert a.devices == b.devices;
    assert a.ctl == b.ctl;
  }

  /** Looking at device i takes Fired(s, i) to Fired(s, i + 1). */
  lemma FiredNext(s: State, i: nat)
    requires QueuesOk(s) && i < NUM_DEVICES
    ensures var f := Fired(s, i);
      && f.devices[i] == s.devices[i] && f.now == s.now
      && if Due(s, i) then Drained(Rearm(f, i), i, |f.devices[i].queue|) == Fired(s, i + 1) else f == Fired(s, i + 1)
  {
    var f := Fired(s, i);
    var q := s.devices[i].queue;
    assert DeviceOk(s, i);
    var g := if Due(s, i) then Drained(Rearm(f, i), i, |q|) else f;
    var b := Fired(s, i + 1);
    assert q[..|q|] == q && q[|q|..] == [];
    forall t | t in s.ctl ensures Wakes(s, i + 1, t) <==> Wakes(s, i, t) || (Due(s, i) && t in q) {
    }
    assert g.ctl == b.ctl;
    assert g.run == b.run;
    assert g.devices == b.devices;
  }

  lemma AnyWakesNext(s: State, i: nat)
    requires QueuesOk(s) && i < NUM_DEVICES
    ensures AnyWakes(s, i + 1) <==> AnyWakes(s, i) || (Due(s, i) && s.devices[i].queue != [])
  {
    var q := s.devices[i].queue;
    assert DeviceOk(s, i);
    if AnyWakes(s, i) {
      var t :| Wakes(s, i, t);
      assert Wakes(s, i + 1, t);
    }
    if Due(s, i) && q != [] {
      assert q[0] in q && Wakes(s, i + 1, q[0]);
    }
    if AnyWakes(s, i + 1) {
      var t :| Wakes(s, i + 1, t);
      assert Wakes(s, i, t) || t in q;
    }
  }

  lemma FiredCur(s: State, i: nat)
    ensures Fired(s, i).cur == s.cur && Fired(s, i).now == s.now
  {
  }

  lemma FiredZero(s: State)
    ensures Fired(s, 0) == s && !AnyWakes(s, 0)
  {
    assert Fired(s, 0).run == s.run && Fired(s, 0).ctl == s.ctl && Fired(s, 0).devices == s.devices;
  }
}
