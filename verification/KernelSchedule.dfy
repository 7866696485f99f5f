/** Which task runs, and where the others are, in every state of every run. */
module KernelSchedule {
  import opened Config
  import opened KernelSpec
  import opened KernelRuns
  import opened Tasks

  // ---------- The current task ----------

  /** The tasks handed a mutex since the last dispatch. */
  ghost function Promoted(tr: seq<Event>): set<nat>
  {
    if tr == [] then {} else PromotedAfter(Promoted(tr[..|tr| - 1]), tr[|tr| - 1])
  }

  ghost function PromotedAfter(p: set<nat>, e: Event): set<nat>
  {
    match e
    case Dispatched => {}
    case HandedOver(_, _, to) => p + {to}
    case _ => p
  }

  /** Only tasks of p are runnable and more urgent than the current one. */
  ghost predicate OutrankedOnlyBy(s: State, p: set<nat>)
  {
    forall t :: t in s.run && t < s.cur ==> t in p
  }

  lemma OutrankedStep(s: State, op: Op, p: set<nat>)
    requires Inv(s) && Enabled(s, op) && OutrankedOnlyBy(s, p)
    ensures OutrankedOnlyBy(Step(s, op), PromotedAfter(p, EventOf(s, op)))
  {
    match op
    case Tick =>
      var a := Advance(s);
      if !AnyWakes(a, NUM_DEVICES) {
        assert Fired(a, NUM_DEVICES).run == s.run;
      }
    case _ =>
  }

  /** In every state of every run, a runnable task more urgent than the current one was made
      runnable by a mutex hand-off since the last dispatch. */
  lemma {:induction false} OutrankedOnlyByPromoted(r: Run, n: nat, now: nat, available: seq<bool>, i: nat)
    requires IsRunFrom(r, n, now, available) && i <= |r.ops|
    ensures OutrankedOnlyBy(r.states[i], Promoted(Trace(r)[..i]))
  {
    InvAlways(r, i);
    if i > 0 {
      OutrankedOnlyByPromoted(r, n, now, available, i - 1);
      InvAlways(r, i - 1);
      assert StepAt(r, i - 1);
      OutrankedStep(r.states[i - 1], r.ops[i - 1], Promoted(Trace(r)[..i - 1]));
      assert Trace(r)[..i][..i - 1] == Trace(r)[..i - 1];
    }
  }

  /** State i comes straight from a dispatch: the one that ends task_create, or a later one. */
  ghost predicate AfterDispatch(r: Run, i: nat)
    requires IsRun(r) && i <= |r.ops|
  {
    i == 0 || Trace(r)[i - 1] == Dispatched
  }

  lemma DispatchedIsLeast(s: State, op: Op)
    requires Inv(s) && Enabled(s, op) && EventOf(s, op) == Dispatched
    ensures Step(s, op).cur == Least(Step(s, op).run)
  {
  }

  lemma AfterDispatchIsLeast(r: Run, n: nat, now: nat, available: seq<bool>, i: nat)
    requires IsRunFrom(r, n, now, available) && i <= |r.ops| && AfterDispatch(r, i)
    ensures var s := r.states[i]; s.cur in s.run && forall t :: t in s.run ==> s.cur <= t
  {
    hide Step, EventOf, DeviceOk, MutexOk, ControlOk;
    InvAlways(r, i);
    IdleRuns(r.states[i]);
    if i > 0 {
      InvAlways(r, i - 1);
      assert StepAt(r, i - 1);
      DispatchedIsLeast(r.states[i - 1], r.ops[i - 1]);
    }
  }

  lemma StepKeepsTasks(s: State, op: Op)
    requires Inv(s) && Enabled(s, op)
    ensures Step(s, op).ctl.Keys == s.ctl.Keys
  {
    match op
    case Unlock(m) =>
      if m < OS_NUM_MUTEX && s.mutexes[m].queue != [] {
        assert MutexOk(s, m) && s.mutexes[m].queue[0] in s.mutexes[m].queue;
      }
    case _ =>
  }

  /** A run neither adds tasks nor loses any. */
  lemma {:induction false} TasksStay(r: Run, n: nat, now: nat, available: seq<bool>, i: nat)
    requires IsRunFrom(r, n, now, available) && i <= |r.ops|
    ensures r.states[i].ctl.Keys == TaskSet(n)
  {
    if i > 0 {
      TasksStay(r, n, now, available, i - 1);
      InvAlways(r, i - 1);
      assert StepAt(r, i - 1);
      StepKeepsTasks(r.states[i - 1], r.ops[i - 1]);
    }
  }

  /** Rate-monotonic dispatch: after every dispatch of every run, the one that ends task_create
      included, the current task has the shortest period among the runnable ones, and idle runs
      only if it is alone. Task t is the one with record t. */
  lemma RateMonotonic(r: Run, recs: seq<Record>, now: nat, available: seq<bool>, i: nat)
    requires SortedByPeriod(recs) && |recs| <= OS_MAX_TASKS
    requires IsRunFrom(r, |recs|, now, available) && i <= |r.ops| && AfterDispatch(r, i)
    ensures Inv(r.states[i])
    ensures var s := r.states[i];
      && (s.cur == IDLE_PRIO ==> s.run == {IDLE_PRIO})
      && (forall t :: t in s.run && t != IDLE_PRIO ==> t < |recs|)
      && (s.cur != IDLE_PRIO ==> s.cur < |recs| && forall t :: t in s.run && t != IDLE_PRIO ==> recs[s.cur].T <= recs[t].T)
  {
    hide Step, DeviceOk, MutexOk, ControlOk, AfterDispatch;
    var s := r.states[i];
    InvAlways(r, i);
    TasksStay(r, |recs|, now, available, i);
    AfterDispatchIsLeast(r, |recs|, now, available, i);
    forall t | t in s.run ensures t < OS_MAX_TASKS && (t == IDLE_PRIO || t < |recs|) {
      assert t in s.ctl.Keys && HoldsTask(|recs|, t);
    }
  }

  // ---------- Conservation ----------

  /** All queues, as one multiset. */
  ghost function Union(qs: seq<seq<nat>>): multiset<nat>
  {
    if qs == [] then multiset{} else multiset(qs[0]) + Union(qs[1..])
  }

  ghost function DeviceQueues(s: State): seq<seq<nat>>
  {
    seq(|s.devices|, d requires 0 <= d < |s.devices| => s.devices[d].queue)
  }

  ghost function MutexQueues(s: State): seq<seq<nat>>
  {
    seq(|s.mutexes|, m requires 0 <= m < |s.mutexes| => s.mutexes[m].queue)
  }

  /** Every place a TCB can be: the run queue, the 63 device queues and the 32 mutex queues. */
  ghost function Places(s: State): multiset<nat>
  {
    multiset(s.run) + Union(DeviceQueues(s)) + Union(MutexQueues(s))
  }

  lemma {:induction false} NotInUnion(qs: seq<seq<nat>>, t: nat)
    requires forall k :: 0 <= k < |qs| ==> t !in qs[k]
    ensures Union(qs)[t] == 0
  {
    if qs != [] {
      assert t !in qs[0];
      forall k | 0 <= k < |qs[1..]| ensures t !in qs[1..][k] {
        assert qs[1..][k] == qs[k + 1];
      }
      NotInUnion(qs[1..], t);
    }
  }

  lemma {:induction false} OnceInUnion(qs: seq<seq<nat>>, t: nat, k: nat)
    requires k < |qs| && NoDup(qs[k]) && t in qs[k]
    requires forall j :: 0 <= j < |qs| && j != k ==> t !in qs[j]
    ensures Union(qs)[t] == 1
  {
    if k == 0 {
      NotInUnion(qs[1..], t);
      NoDupCountsOne(qs[0], t);
    } else {
      assert t !in qs[0];
      assert qs[1..][k - 1] == qs[k];
      OnceInUnion(qs[1..], t, k - 1);
    }
  }

  lemma {:induction false} NoDupCountsOne(q: seq<nat>, t: nat)
    requires NoDup(q) && t in q
    ensures multiset(q)[t] == 1
  {
    assert q == [q[0]] + q[1..];
    if q[0] == t {
      assert t !in q[1..];
    } else {
      NoDupCountsOne(q[1..], t);
    }
  }

  /** In every consistent state each task is in exactly one place, and nothing else is in any. */
  lemma EachTaskInOnePlace(s: State)
    requires Inv(s)
    ensures Places(s) == multiset(s.ctl.Keys)
  {
    forall t: nat ensures Places(s)[t] == multiset(s.ctl.Keys)[t] {
      OnePlace(s, t);
    }
  }

  lemma OnePlace(s: State, t: nat)
    requires Inv(s)
    ensures Places(s)[t] == if t in s.ctl then 1 else 0
  {
    var dq, mq := DeviceQueues(s), MutexQueues(s);
    forall d | 0 <= d < |dq| ensures t in dq[d] <==> t in s.ctl && s.ctl[t] == Asleep(d) {
      assert DeviceOk(s, d);
    }
    forall m | 0 <= m < |mq| ensures t in mq[m] <==> t in s.ctl && s.ctl[t].WaitsFor(m) {
      assert MutexOk(s, m);
    }
    if t in s.ctl && s.ctl[t].Asleep? {
      assert ControlOk(s, t) && DeviceOk(s, s.ctl[t].dev);
      OnceInUnion(dq, t, s.ctl[t].dev);
    } else {
      NotInUnion(dq, t);
    }
    if t in s.ctl && s.ctl[t].Blocked? {
      assert ControlOk(s, t) && MutexOk(s, s.ctl[t].mtx);
      OnceInUnion(mq, t, s.ctl[t].mtx);
    } else {
      NotInUnion(mq, t);
    }
  }

  /** Conservation: in every state of every run, the run queue and the 95 wait queues together
      hold each task once. */
  lemma TasksConserved(r: Run, n: nat, now: nat, available: seq<bool>, i: nat)
    requires IsRunFrom(r, n, now, available) && i <= |r.ops|
    ensures Places(r.states[i]) == multiset(TaskSet(n)) && IDLE_PRIO in r.states[i].run
    ensures forall t: nat :: Places(r.states[i])[t] == if (t < n && t < 64) || t == 63 then 1 else 0
  {
    InvAlways(r, i);
    TasksStay(r, n, now, available, i);
    EachTaskInOnePlace(r.states[i]);
    IdleRuns(r.states[i]);
  }
}
