/** The abstraction relation: when the TCB links, the run list, the device records and the
    mutex records in memory represent a state of the abstract machine. All 95 wait queues
    are threaded through one link per TCB. */
module KernelRep {
  import opened Config
  import opened Tcbs
  import opened RunQueues
  import opened KernelSpec

  datatype Dev = Dev(sleepQueue: Tcb?, nextMatch: nat)

  datatype Mtx = Mtx(bAvailable: bool, pHoldingTcb: Tcb?, bLock: bool, pSleepQueue: Tcb?)

  /** The contents of memory: system_tcb, the link and the priority of each TCB, run_list,
      devices and gtMutex. */
  datatype Memory = Memory(tcbs: seq<Tcb>, links: seq<Tcb?>, prios: seq<nat>, runList: seq<Tcb?>,
                           devices: seq<Dev>, mutexes: seq<Mtx>)

  ghost predicate Layout(c: Memory)
  {
    && |c.tcbs| == |c.links| == |c.prios| == |c.runList| == OS_MAX_TASKS
    && |c.devices| == NUM_DEVICES && |c.mutexes| == OS_NUM_MUTEX
    && forall t :: 0 <= t < OS_MAX_TASKS ==> c.tcbs[t].slot == t
  }

  /** The TCB of the i-th task of a queue, null beyond its end. */
  ghost function At(c: Memory, q: seq<nat>, i: nat): Tcb?
  {
    if i < |q| && q[i] < |c.tcbs| then c.tcbs[q[i]] else null
  }

  /** The links lead from head through exactly the tasks of q, in order, to null. */
  ghost predicate Chain(c: Memory, head: Tcb?, q: seq<nat>)
  {
    && head == At(c, q, 0)
    && forall i :: 0 <= i < |q| ==> q[i] < |c.tcbs| && q[i] < |c.links| && c.links[q[i]] == At(c, q, i + 1)
  }

  ghost function Holder(c: Memory, h: Option<nat>): Tcb?
  {
    if h.Some? && h.value < |c.tcbs| then c.tcbs[h.value] else null
  }

  ghost predicate DeviceRep(c: Memory, s: State, d: nat)
    requires d < |c.devices| && d < |s.devices|
  {
    c.devices[d].nextMatch == s.devices[d].nextMatch && Chain(c, c.devices[d].sleepQueue, s.devices[d].queue)
  }

  ghost predicate MutexRep(c: Memory, s: State, m: nat)
    requires m < |c.mutexes| && m < |s.mutexes|
  {
    var x, mx := c.mutexes[m], s.mutexes[m];
    && x.bAvailable == mx.available && x.bLock == mx.locked && x.pHoldingTcb == Holder(c, mx.holder)
    && Chain(c, x.pSleepQueue, mx.queue)
  }

  /** The run list holds exactly the runnable tasks, each in its own slot; their links are
      null, although no code clears the link of a TCB that goes to the head of an empty queue. */
  ghost predicate TaskRep(c: Memory, s: State, t: nat)
    requires t < |c.tcbs| && t < |c.links| && t < |c.prios| && t < |c.runList|
  {
    && c.runList[t] == (if t in s.run then c.tcbs[t] else null)
    && (t in s.run ==> c.links[t] == null)
    && (t in s.ctl ==> c.prios[t] == t)
  }

  ghost predicate Rep(c: Memory, s: State)
  {
    && Layout(c) && |s.devices| == NUM_DEVICES && |s.mutexes| == OS_NUM_MUTEX
    && (forall t :: 0 <= t < OS_MAX_TASKS ==> TaskRep(c, s, t))
    && (forall d :: 0 <= d < NUM_DEVICES ==> DeviceRep(c, s, d))
    && (forall m :: 0 <= m < OS_NUM_MUTEX ==> MutexRep(c, s, m))
  }

  /** A chain survives writes to the links of tasks outside it. */
  lemma ChainKept(c: Memory, c': Memory, head: Tcb?, q: seq<nat>)
    requires Chain(c, head, q) && c'.tcbs == c.tcbs && |c'.links| == |c.links|
    requires forall t :: t in q && t < |c.links| ==> c'.links[t] == c.links[t]
    ensures Chain(c', head, q)
  {
    forall i | 0 <= i < |q| ensures q[i] < |c'.tcbs| && q[i] < |c'.links| && c'.links[q[i]] == At(c', q, i + 1) {
      assert q[i] in q;
    }
  }

  /** The links after task t goes to the end of queue q: the code writes none when q is empty. */
  ghost function AppendLinks(c: Memory, q: seq<nat>, t: nat): seq<Tcb?>
    requires t < |c.tcbs| && t < |c.links| && (q != [] ==> q[|q| - 1] < |c.links|)
  {
    if q == [] then c.links else c.links[q[|q| - 1] := c.tcbs[t]][t := null]
  }

  lemma ChainAppended(c: Memory, c': Memory, head: Tcb?, q: seq<nat>, t: nat)
    requires Chain(c, head, q) && NoDup(q) && t !in q && t < |c.tcbs| && t < |c.links| && c.links[t] == null
    requires c'.tcbs == c.tcbs && c'.links == AppendLinks(c, q, t)
    ensures Chain(c', if q == [] then c.tcbs[t] else head, q + [t])
  {
  }

  /** Memory after dev_wait or mutex_lock has taken task t off the run queue and linked it behind
      the last task of q, if there is one. */
  ghost function Unlinked(c: Memory, q: seq<nat>, t: nat): (c': Memory)
    requires t < |c.tcbs| && t < |c.links| && t < |c.runList| && (q != [] ==> q[|q| - 1] < |c.links|)
    ensures c'.devices == c.devices && c'.mutexes == c.mutexes
  {
    c.(runList := c.runList[t := null], links := AppendLinks(c, q, t))
  }

  /** The same, with the head of device d's queue set if q is empty. */
  ghost function DeviceJoined(c: Memory, d: nat, q: seq<nat>, t: nat): Memory
    requires t < |c.tcbs| && t < |c.links| && t < |c.runList| && (q != [] ==> q[|q| - 1] < |c.links|) && d < |c.devices|
  {
    Unlinked(c, q, t).(devices := if q == [] then c.devices[d := c.devices[d].(sleepQueue := c.tcbs[t])] else c.devices)
  }

  /** The same, with the head of mutex m's queue set if q is empty. */
  ghost function MutexJoined(c: Memory, m: nat, q: seq<nat>, t: nat): Memory
    requires t < |c.tcbs| && t < |c.links| && t < |c.runList| && (q != [] ==> q[|q| - 1] < |c.links|) && m < |c.mutexes|
  {
    Unlinked(c, q, t).(mutexes := if q == [] then c.mutexes[m := c.mutexes[m].(pSleepQueue := c.tcbs[t])] else c.mutexes)
  }

  /** What dev_wait writes before it dispatches represents SleepOn. */
  lemma SleepOnRep(c: Memory, c': Memory, s: State, d: nat)
    requires Inv(s) && Rep(c, s) && d < NUM_DEVICES && s.ctl[s.cur].User? && s.cur != IDLE_PRIO
    requires var q := s.devices[d].queue;
      && (q != [] ==> q[|q| - 1] < |c.links|) && c' == DeviceJoined(c, d, q, s.cur)
    ensures Rep(c', SleepOn(s, d))
  {
    var q, t, s' := s.devices[d].queue, s.cur, SleepOn(s, d);
    assert DeviceOk(s, d) && DeviceRep(c, s, d) && TaskRep(c, s, t);
    assert q != [] ==> q[|q| - 1] in q;
    ChainAppended(c, c', c.devices[d].sleepQueue, q, t);
    forall e | 0 <= e < NUM_DEVICES ensures DeviceRep(c', s', e) {
      assert DeviceRep(c, s, e) && DeviceOk(s, e);
      if e != d { ChainKept(c, c', c.devices[e].sleepQueue, s.devices[e].queue); }
    }
    forall m | 0 <= m < OS_NUM_MUTEX ensures MutexRep(c', s', m) {
      assert MutexRep(c, s, m) && MutexOk(s, m);
      ChainKept(c, c', c.mutexes[m].pSleepQueue, s.mutexes[m].queue);
    }
    forall u | 0 <= u < OS_MAX_TASKS ensures TaskRep(c', s', u) {
      assert TaskRep(c, s, u);
    }
  }

  lemma RunListIsRun(c: Memory, s: State)
    requires Rep(c, s) && QueuesOk(s)
    ensures Occupied(c.runList) == s.run && Least(s.run) in s.run && Least(s.run) < OS_MAX_TASKS
  {
    assert IDLE_PRIO in s.run;
    forall t | 0 <= t < OS_MAX_TASKS ensures t in Occupied(c.runList) <==> t in s.run {
      assert TaskRep(c, s, t);
    }
  }

  lemma DispatchRep(c: Memory, s: State)
    requires Rep(c, s)
    ensures Rep(c, Dispatch(s))
  {
    var s' := Dispatch(s);
    assert forall t :: 0 <= t < OS_MAX_TASKS ==> TaskRep(c, s, t) ==> TaskRep(c, s', t);
    assert forall d :: 0 <= d < NUM_DEVICES ==> DeviceRep(c, s, d) ==> DeviceRep(c, s', d);
    assert forall m :: 0 <= m < OS_NUM_MUTEX ==> MutexRep(c, s, m) ==> MutexRep(c, s', m);
  }

  /** Changing only the control states that do not matter to the queues. */
  lemma ControlRep(c: Memory, s: State, s': State)
    requires Rep(c, s) && s'.run == s.run && s'.devices == s.devices && s'.mutexes == s.mutexes
    requires s'.ctl.Keys == s.ctl.Keys
    ensures Rep(c, s')
  {
    assert forall t :: 0 <= t < OS_MAX_TASKS ==> TaskRep(c, s, t) && (t in s'.ctl <==> t in s'.ctl.Keys) ==> TaskRep(c, s', t);
    assert forall d :: 0 <= d < NUM_DEVICES ==> DeviceRep(c, s, d) ==> DeviceRep(c, s', d);
    assert forall m :: 0 <= m < OS_NUM_MUTEX ==> MutexRep(c, s, m) ==> MutexRep(c, s', m);
  }

  lemma HolderIsCurrent(c: Memory, s: State, h: Option<nat>)
    requires Rep(c, s) && s.cur < OS_MAX_TASKS && (h.Some? ==> h.value < OS_MAX_TASKS)
    ensures Holder(c, h) == c.tcbs[s.cur] <==> h == Some(s.cur)
  {
  }

  lemma CreateRep(c: Memory, c': Memory, s: State, m: nat)
    requires Inv(s) && Rep(c, s) && m < OS_NUM_MUTEX && m == FirstAvailable(s.mutexes)
    requires c' == c.(mutexes := c.mutexes[m := c.mutexes[m].(bAvailable := false)])
    ensures Rep(c', CreateStep(s))
  {
    assert MutexRep(c, s, m);
    ChainKept(c, c', c.mutexes[m].pSleepQueue, s.mutexes[m].queue);
    MutexWriteRep(c, c', s, CreateStep(s), m);
  }

  /** Writing one mutex record touches nothing else. */
  lemma MutexWriteRep(c: Memory, c': Memory, s: State, s': State, m: nat)
    requires Rep(c, s) && m < OS_NUM_MUTEX && |s'.mutexes| == OS_NUM_MUTEX
    requires |c'.mutexes| == OS_NUM_MUTEX && c' == c.(mutexes := c.mutexes[m := c'.mutexes[m]])
    requires s'.run == s.run && s'.devices == s.devices && s'.ctl.Keys == s.ctl.Keys
    requires forall k :: 0 <= k < OS_NUM_MUTEX && k != m ==> s'.mutexes[k] == s.mutexes[k]
    requires MutexRep(c', s', m)
    ensures Rep(c', s')
  {
    forall t | 0 <= t < OS_MAX_TASKS ensures TaskRep(c', s', t) {
      assert TaskRep(c, s, t) && (t in s'.ctl <==> t in s'.ctl.Keys);
    }
    forall d | 0 <= d < NUM_DEVICES ensures DeviceRep(c', s', d) {
      assert DeviceRep(c, s, d);
      ChainKept(c, c', c.devices[d].sleepQueue, s.devices[d].queue);
    }
    forall k | 0 <= k < OS_NUM_MUTEX ensures MutexRep(c', s', k) {
      assert MutexRep(c, s, k);
      if k != m { ChainKept(c, c', c.mutexes[k].pSleepQueue, s.mutexes[k].queue); }
    }
  }

  lemma TakeRep(c: Memory, c': Memory, s: State, m: nat)
    requires Inv(s) && Rep(c, s) && m < OS_NUM_MUTEX
    requires c' == c.(mutexes := c.mutexes[m := c.mutexes[m].(bLock := true, pHoldingTcb := c.tcbs[s.cur])])
    ensures Rep(c', Take(s, m))
  {
    assert MutexRep(c, s, m);
    ChainKept(c, c', c.mutexes[m].pSleepQueue, s.mutexes[m].queue);
    MutexWriteRep(c, c', s, Take(s, m), m);
  }

  lemma FreeRep(c: Memory, c': Memory, s: State, m: nat)
    requires Inv(s) && Rep(c, s) && m < OS_NUM_MUTEX
    requires c' == c.(mutexes := c.mutexes[m := c.mutexes[m].(bLock := false, pHoldingTcb := null)])
    ensures Rep(c', Free(s, m))
  {
    assert MutexRep(c, s, m);
    ChainKept(c, c', c.mutexes[m].pSleepQueue, s.mutexes[m].queue);
    MutexWriteRep(c, c', s, Free(s, m), m);
  }

  /** What a blocking mutex_lock writes before line 117 represents BlockOn. */
  lemma BlockOnRep(c: Memory, c': Memory, s: State, m: nat)
    requires Inv(s) && Rep(c, s) && m < OS_NUM_MUTEX && s.ctl[s.cur].User? && s.cur != IDLE_PRIO
    requires s.mutexes[m].locked
    requires var q := s.mutexes[m].queue;
      && (q != [] ==> q[|q| - 1] < |c.links|) && c' == MutexJoined(c, m, q, s.cur)
    ensures Rep(c', BlockOn(s, m))
  {
    var q, t, s' := s.mutexes[m].queue, s.cur, BlockOn(s, m);
    assert MutexOk(s, m) && MutexRep(c, s, m) && TaskRep(c, s, t);
    assert q != [] ==> q[|q| - 1] in q;
    ChainAppended(c, c', c.mutexes[m].pSleepQueue, q, t);
    forall e | 0 <= e < NUM_DEVICES ensures DeviceRep(c', s', e) {
      assert DeviceRep(c, s, e) && DeviceOk(s, e);
      ChainKept(c, c', c.devices[e].sleepQueue, s.devices[e].queue);
    }
    forall k | 0 <= k < OS_NUM_MUTEX ensures MutexRep(c', s', k) {
      assert MutexRep(c, s, k) && MutexOk(s, k);
      if k != m { ChainKept(c, c', c.mutexes[k].pSleepQueue, s.mutexes[k].queue); }
    }
    forall u | 0 <= u < OS_MAX_TASKS ensures TaskRep(c', s', u) {
      assert TaskRep(c, s, u);
    }
  }

  /** Taking the first block off a queue and clearing its link. */
  lemma ChainPopped(c: Memory, c': Memory, head: Tcb?, q: seq<nat>)
    requires Chain(c, head, q) && NoDup(q) && q != [] && |c.links| == |c.tcbs|
    requires c'.tcbs == c.tcbs && c'.links == c.links[q[0] := null]
    ensures Chain(c', c.links[q[0]], q[1..])
  {
  }

  /** What the hand-off in mutex_unlock writes represents HandOver. */
  lemma HandOverRep(c: Memory, c': Memory, s: State, m: nat)
    requires Inv(s) && Rep(c, s) && m < OS_NUM_MUTEX
    requires s.mutexes[m].holder == Some(s.cur) && s.mutexes[m].queue != []
    requires var t := s.mutexes[m].queue[0];
      && t < OS_MAX_TASKS && c'.tcbs == c.tcbs && c'.prios == c.prios && c'.devices == c.devices
      && c'.links == c.links[t := null] && c'.runList == c.runList[t := c.tcbs[t]]
      && c'.mutexes == c.mutexes[m := c.mutexes[m].(pSleepQueue := c.links[t], pHoldingTcb := c.tcbs[t])]
    ensures Rep(c', HandOver(s, m))
  {
    var q, s' := s.mutexes[m].queue, HandOver(s, m);
    assert MutexOk(s, m) && MutexRep(c, s, m) && q[0] in q;
    ChainPopped(c, c', c.mutexes[m].pSleepQueue, q);
    forall e | 0 <= e < NUM_DEVICES ensures DeviceRep(c', s', e) {
      assert DeviceRep(c, s, e) && DeviceOk(s, e);
      ChainKept(c, c', c.devices[e].sleepQueue, s.devices[e].queue);
    }
    forall k | 0 <= k < OS_NUM_MUTEX ensures MutexRep(c', s', k) {
      assert MutexRep(c, s, k) && MutexOk(s, k);
      if k != m { ChainKept(c, c', c.mutexes[k].pSleepQueue, s.mutexes[k].queue); }
    }
    forall u | 0 <= u < OS_MAX_TASKS ensures TaskRep(c', s', u) {
      assert TaskRep(c, s, u);
    }
  }

  /** What one round of the drain loop in dev_update writes represents WakeHead. */
  lemma WakeHeadRep(c: Memory, c': Memory, s: State, d: nat)
    requires QueuesOk(s) && Rep(c, s) && d < NUM_DEVICES && s.devices[d].queue != []
    requires var t := s.devices[d].queue[0];
      && t < OS_MAX_TASKS && c'.tcbs == c.tcbs && c'.prios == c.prios && c'.mutexes == c.mutexes
      && c'.links == c.links[t := null] && c'.runList == c.runList[t := c.tcbs[t]]
      && c'.devices == c.devices[d := c.devices[d].(sleepQueue := c.links[t])]
    ensures Rep(c', WakeHead(s, d))
  {
    var q, s' := s.devices[d].queue, WakeHead(s, d);
    assert DeviceOk(s, d) && DeviceRep(c, s, d) && q[0] in q;
    ChainPopped(c, c', c.devices[d].sleepQueue, q);
    forall e | 0 <= e < NUM_DEVICES ensures DeviceRep(c', s', e) {
      assert DeviceRep(c, s, e) && DeviceOk(s, e);
      if e != d { ChainKept(c, c', c.devices[e].sleepQueue, s.devices[e].queue); }
    }
    forall m | 0 <= m < OS_NUM_MUTEX ensures MutexRep(c', s', m) {
      assert MutexRep(c, s, m) && MutexOk(s, m);
      ChainKept(c, c', c.mutexes[m].pSleepQueue, s.mutexes[m].queue);
    }
    forall u | 0 <= u < OS_MAX_TASKS ensures TaskRep(c', s', u) {
      assert TaskRep(c, s, u);
    }
  }

  lemma RearmRep(c: Memory, c': Memory, s: State, d: nat)
    requires Rep(c, s) && d < NUM_DEVICES
    requires c' == c.(devices := c.devices[d := c.devices[d].(nextMatch := Rearm(s, d).devices[d].nextMatch)])
    ensures Rep(c', Rearm(s, d))
  {
    var s' := Rearm(s, d);
    forall e | 0 <= e < NUM_DEVICES ensures DeviceRep(c', s', e) {
      assert DeviceRep(c, s, e);
      ChainKept(c, c', c.devices[e].sleepQueue, s.devices[e].queue);
    }
    forall m | 0 <= m < OS_NUM_MUTEX ensures MutexRep(c', s', m) {
      assert MutexRep(c, s, m);
      ChainKept(c, c', c.mutexes[m].pSleepQueue, s.mutexes[m].queue);
    }
    forall u | 0 <= u < OS_MAX_TASKS ensures TaskRep(c', s', u) {
      assert TaskRep(c, s, u);
    }
  }

  /** What a tick leaves in the device records. */
  lemma TickRecords(c: Memory, s: State, c': Memory)
    requires Inv(s) && Rep(c, s) && WellShaped(s) && Rep(c', Step(s, Tick)) && c'.tcbs == c.tcbs
    ensures |c.devices| == |c'.devices| == NUM_DEVICES
    ensures forall d :: 0 <= d < NUM_DEVICES ==>
      if c.devices[d].nextMatch == (s.now + 1) % TWO32
      then c'.devices[d] == Dev(null, (c.devices[d].nextMatch + DevFreq(d)) % TWO32)
      else c'.devices[d] == c.devices[d]
  {
    forall d | 0 <= d < NUM_DEVICES
      ensures if c.devices[d].nextMatch == (s.now + 1) % TWO32
        then c'.devices[d] == Dev(null, (c.devices[d].nextMatch + DevFreq(d)) % TWO32)
        else c'.devices[d] == c.devices[d]
    {
      assert DeviceRep(c, s, d) && DeviceRep(c', Step(s, Tick), d);
    }
  }

  lemma HeadIsNull(c: Memory, s: State, d: nat)
    requires Rep(c, s) && QueuesOk(s) && d < NUM_DEVICES
    ensures c.devices[d].sleepQueue == null <==> s.devices[d].queue == []
  {
    assert DeviceRep(c, s, d) && DeviceOk(s, d);
    if s.devices[d].queue != [] {
      assert s.devices[d].queue[0] in s.devices[d].queue;
    }
  }

  /** The wait queue of mutex m as the code finds it. */
  lemma MutexQueueFound(c: Memory, s: State, m: nat)
    requires Inv(s) && Rep(c, s) && m < OS_NUM_MUTEX
    ensures Layout(c) && |s.mutexes| == OS_NUM_MUTEX && s.cur in s.ctl
    ensures var q := s.mutexes[m].queue;
      && Chain(c, c.mutexes[m].pSleepQueue, q) && (forall t :: t in q ==> t < OS_MAX_TASKS && c.prios[t] == t)
      && (q != [] ==> q[|q| - 1] in q && c.mutexes[m].pSleepQueue == c.tcbs[q[0]])
      && (s.cur in q ==> s.ctl[s.cur].Blocked?)
  {
    assert MutexRep(c, s, m) && MutexOk(s, m);
    forall t | t in s.mutexes[m].queue ensures t < OS_MAX_TASKS && c.prios[t] == t {
      assert TaskRep(c, s, t);
    }
  }

  /** The same for device d. */
  lemma DeviceQueueFound(c: Memory, s: State, d: nat)
    requires Inv(s) && Rep(c, s) && d < NUM_DEVICES
    ensures Layout(c) && |s.devices| == NUM_DEVICES && s.cur in s.ctl
    ensures var q := s.devices[d].queue;
      && Chain(c, c.devices[d].sleepQueue, q) && (q != [] ==> q[|q| - 1] < OS_MAX_TASKS)
      && s.cur !in q
  {
    assert DeviceRep(c, s, d) && DeviceOk(s, d);
    assert s.devices[d].queue != [] ==> s.devices[d].queue[|s.devices[d].queue| - 1] in s.devices[d].queue;
  }

  /** The record of mutex m as the code finds it. */
  lemma MutexFound(c: Memory, s: State, m: nat)
    requires Inv(s) && Rep(c, s) && m < OS_NUM_MUTEX
    ensures Layout(c) && |s.mutexes| == OS_NUM_MUTEX && s.cur < OS_MAX_TASKS
    ensures var x, mx := c.mutexes[m], s.mutexes[m];
      && x.bAvailable == mx.available && x.bLock == mx.locked && (x.pSleepQueue == null <==> mx.queue == [])
      && (x.pHoldingTcb == c.tcbs[s.cur] <==> mx.holder == Some(s.cur))
      && (mx.locked <==> mx.holder.Some?) && (mx.available ==> !mx.locked)
  {
    assert MutexRep(c, s, m) && MutexOk(s, m);
    assert s.mutexes[m].queue != [] ==> s.mutexes[m].queue[0] in s.mutexes[m].queue;
  }

  /** A task that comes back to mutex_lock holds the mutex. */
  lemma GrantedIsHolder(c: Memory, s: State)
    requires Inv(s) && Rep(c, s) && s.ctl[s.cur].Granted?
    ensures var m := s.ctl[s.cur].mtx;
      && s.cur != IDLE_PRIO && m < OS_NUM_MUTEX && s.mutexes[m].holder == Some(s.cur)
      && c.mutexes[m].bLock && c.mutexes[m].pHoldingTcb == c.tcbs[s.cur]
  {
    var m := s.ctl[s.cur].mtx;
    assert ControlOk(s, s.cur) && MutexOk(s, m) && MutexRep(c, s, m);
  }

  lemma CurrentFound(c: Memory, s: State)
    requires Inv(s) && Rep(c, s) && s.ctl[s.cur].User?
    ensures Layout(c) && s.cur < OS_MAX_TASKS && c.prios[s.cur] == s.cur && c.runList[s.cur] == c.tcbs[s.cur]
  {
    assert TaskRep(c, s, s.cur);
  }

  // ---------- Task creation ----------

  /** No task of a new set of n is linked to another, and no mutex is held or waited for. */
  ghost predicate Quiescent(c: Memory, n: nat)
    requires Layout(c)
  {
    && (forall t :: t in TaskSet(n) ==> c.links[t] == null)
    && (forall m :: 0 <= m < OS_NUM_MUTEX ==> Unused(c.mutexes[m]))
  }

  ghost predicate Unused(x: Mtx)
  {
    !x.bLock && x.pHoldingTcb == null && x.pSleepQueue == null
  }

  ghost function Available(c: Memory): seq<bool>
  {
    seq(|c.mutexes|, m requires 0 <= m < |c.mutexes| => c.mutexes[m].bAvailable)
  }

  /** What dev_init and allocate_tasks write, whatever else memory holds. */
  ghost predicate Created(c: Memory, n: nat, now: nat)
  {
    && Layout(c)
    && (forall t :: 0 <= t < OS_MAX_TASKS ==> c.runList[t] == if t in TaskSet(n) then c.tcbs[t] else null)
    && (forall t :: t in TaskSet(n) ==> c.prios[t] == t)
    && (forall d :: 0 <= d < NUM_DEVICES ==> c.devices[d] == Dev(null, (now + DevFreq(d)) % TWO32))
  }

  /** Task creation resets neither links nor mutexes, so it reaches the start state exactly
      when they were already clear. */
  lemma CreatedRep(c: Memory, n: nat, now: nat)
    requires Created(c, n, now)
    ensures Rep(c, Init(n, now, Available(c))) <==> Quiescent(c, n)
  {
    var s := Init(n, now, Available(c));
    if Quiescent(c, n) {
      forall t | 0 <= t < OS_MAX_TASKS ensures TaskRep(c, s, t) {
        assert t in s.ctl <==> t in TaskSet(n);
      }
      forall m | 0 <= m < OS_NUM_MUTEX ensures MutexRep(c, s, m) {
        assert Unused(c.mutexes[m]);
      }
      assert forall d :: 0 <= d < NUM_DEVICES ==> DeviceRep(c, s, d);
    }
    if Rep(c, s) {
      forall t | t in TaskSet(n) ensures c.links[t] == null {
        assert TaskRep(c, s, t);
      }
      forall m | 0 <= m < OS_NUM_MUTEX ensures Unused(c.mutexes[m]) {
        assert MutexRep(c, s, m);
      }
    }
  }

  // ---------- The wait queues as pointers ----------

  /** The block reached from p by following the link k times. */
  ghost function Follow(c: Memory, p: Tcb?, k: nat): Tcb?
  {
    if p == null || k == 0 then p
    else if p.slot < |c.links| then Follow(c, c.links[p.slot], k - 1) else null
  }

  /** The head pointers of the 95 wait queues: first the devices', then the mutexes'. */
  ghost function Head(c: Memory, w: nat): Tcb?
    requires Layout(c) && w < NUM_DEVICES + OS_NUM_MUTEX
  {
    if w < NUM_DEVICES then c.devices[w].sleepQueue else c.mutexes[w - NUM_DEVICES].pSleepQueue
  }

  ghost function Queue(s: State, w: nat): seq<nat>
    requires |s.devices| == NUM_DEVICES && |s.mutexes| == OS_NUM_MUTEX && w < NUM_DEVICES + OS_NUM_MUTEX
  {
    if w < NUM_DEVICES then s.devices[w].queue else s.mutexes[w - NUM_DEVICES].queue
  }

  /** One link of a chain. */
  lemma FollowOnce(c: Memory, q: seq<nat>, i: nat, k: nat)
    requires Layout(c) && i < |q| && k > 0 && Chain(c, At(c, q, 0), q)
    ensures Follow(c, At(c, q, i), k) == Follow(c, At(c, q, i + 1), k - 1)
  {
    assert q[i] < |c.tcbs| && c.tcbs[q[i]].slot == q[i];
  }

  lemma {:induction false} FollowChain(c: Memory, q: seq<nat>, i: nat, k: nat)
    requires Layout(c) && i <= |q| && Chain(c, At(c, q, 0), q)
    ensures Follow(c, At(c, q, i), k) == At(c, q, i + k)
    decreases k
  {
    if i < |q| && k > 0 {
      hide Follow, Chain, Layout;
      FollowOnce(c, q, i, k);
      FollowChain(c, q, i + 1, k - 1);
    }
  }

  lemma FollowHead(c: Memory, s: State, w: nat, k: nat)
    requires Rep(c, s) && QueuesOk(s) && w < NUM_DEVICES + OS_NUM_MUTEX
    ensures NoDup(Queue(s, w)) && (forall t :: t in Queue(s, w) ==> t < OS_MAX_TASKS && t !in s.run)
    ensures Follow(c, Head(c, w), k) == At(c, Queue(s, w), k)
  {
    hide Follow, NoDup;
    if w < NUM_DEVICES {
      assert DeviceRep(c, s, w) && DeviceOk(s, w);
    } else {
      assert MutexRep(c, s, w - NUM_DEVICES) && MutexOk(s, w - NUM_DEVICES);
    }
    FollowChain(c, Queue(s, w), 0, k);
  }

  lemma QueuesApart(s: State, v: nat, w: nat, t: nat)
    requires QueuesOk(s) && v < NUM_DEVICES + OS_NUM_MUTEX && w < NUM_DEVICES + OS_NUM_MUTEX
    requires t in Queue(s, v) && t in Queue(s, w)
    ensures v == w
  {
    if v < NUM_DEVICES { assert DeviceOk(s, v); } else { assert MutexOk(s, v - NUM_DEVICES); }
    if w < NUM_DEVICES { assert DeviceOk(s, w); } else { assert MutexOk(s, w - NUM_DEVICES); }
  }

  /** Although all queues share one link per block, no block is reached twice: not at two
      places of one queue, and not from two queues. */
  lemma QueuesDisjointAndAcyclic(c: Memory, s: State, v: nat, i: nat, w: nat, j: nat)
    requires Rep(c, s) && QueuesOk(s) && v < NUM_DEVICES + OS_NUM_MUTEX && w < NUM_DEVICES + OS_NUM_MUTEX
    requires Follow(c, Head(c, v), i) == Follow(c, Head(c, w), j) != null
    ensures v == w && i == j
  {
    FollowHead(c, s, v, i);
    FollowHead(c, s, w, j);
    var q, q' := Queue(s, v), Queue(s, w);
    assert q[i] == q'[j];
    QueuesApart(s, v, w, q[i]);
  }

  /** No runnable block is in any wait queue, and its link is null. */
  lemma RunnableIsUnlinked(c: Memory, s: State, t: nat, w: nat, i: nat)
    requires Rep(c, s) && QueuesOk(s) && t < OS_MAX_TASKS && w < NUM_DEVICES + OS_NUM_MUTEX
    requires c.runList[t] != null
    ensures c.runList[t] == c.tcbs[t] && c.links[t] == null && Follow(c, Head(c, w), i) != c.tcbs[t]
  {
    assert TaskRep(c, s, t);
    FollowHead(c, s, w, i);
  }

  /** Every queue ends in null after at most 64 links. */
  lemma QueuesEnd(c: Memory, s: State, w: nat)
    requires Rep(c, s) && QueuesOk(s) && w < NUM_DEVICES + OS_NUM_MUTEX
    ensures Follow(c, Head(c, w), OS_MAX_TASKS) == null
  {
    var q := Queue(s, w);
    FollowHead(c, s, w, OS_MAX_TASKS);
    NoDupIsShort(q, OS_MAX_TASKS);
  }

  lemma {:induction false} NoDupIsShort(q: seq<nat>, n: nat)
    requires NoDup(q) && forall t :: t in q ==> t < n
    ensures |q| <= n
  {
    if q != [] {
      assert q[0] in q;
      if exists i :: 0 <= i < |q| && q[i] == n - 1 {
        var i :| 0 <= i < |q| && q[i] == n - 1;
        var rest := q[..i] + q[i + 1..];
        forall t | t in rest ensures t < n - 1 {
          assert t in q;
        }
        NoDupIsShort(rest, n - 1);
      } else {
        forall t | t in q ensures t < n - 1 {
          var i :| 0 <= i < |q| && q[i] == t;
        }
        NoDupIsShort(q, n - 1);
      }
    }
  }
}
