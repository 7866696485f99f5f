/** The kernel's global state and the calls that change it in place: kernel/device.c,
    kernel/lock/mutex.c, kernel/sched/ctx_switch.c and kernel/irq.c. */
module Kernels {
  import opened Config
  import opened Tcbs
  import opened RunQueues
  import opened KernelSpec
  import opened KernelRep
  import opened Tasks
  import opened Admission
  import opened KernelRuns
  import opened KernelSchedule

  const KSTACK_BASE: nat := 0xa3800000

  /** A block as the clearing of the BSS leaves it. */
  ghost predicate Zeroed(tcb: Tcb)
    reads tcb
  {
    tcb.nativePrio == 0 && tcb.curPrio == 0 && tcb.context == ZERO_CONTEXT && tcb.sleepQueue == null
  }

  class Kernel {
    const systemTcb: seq<Tcb>
    const rq: RunQueue
    const devices: array<Dev>
    const gtMutex: array<Mtx>
    var curTcb: Tcb?
    var systemTime: nat
    /** Where the code of the idle task starts. */
    const idleEntry: nat
    /** The state of the abstract machine that the fields above represent. */
    ghost var abs: State
    /** The records as task_create has sorted them: TCB t was loaded from record t. */
    ghost var recs: seq<Record>
    /** The calls and ticks since then, and the states between them. */
    ghost var past: Run

    ghost function Links(): seq<Tcb?>
      reads systemTcb
    {
      seq(|systemTcb|, t requires 0 <= t < |systemTcb| reads systemTcb => systemTcb[t].sleepQueue)
    }

    ghost function Prios(): seq<nat>
      reads systemTcb
    {
      seq(|systemTcb|, t requires 0 <= t < |systemTcb| reads systemTcb => systemTcb[t].nativePrio)
    }

    ghost function Mem(): Memory
      reads rq.runList, devices, gtMutex, systemTcb
    {
      Memory(systemTcb, Links(), Prios(), rq.runList[..], devices[..], gtMutex[..])
    }

    /** Everything but the choice of the current task. */
    ghost predicate QueuesValid()
      reads this`abs, this`systemTime, rq, rq.runList, rq.runBits, devices, gtMutex, systemTcb
    {
      rq.Valid() && QueuesOk(abs) && Rep(Mem(), abs) && systemTime == abs.now
    }

    ghost predicate Valid()
      reads this`abs, this`systemTime, this`curTcb, rq, rq.runList, rq.runBits, devices, gtMutex, systemTcb
    {
      QueuesValid() && Inv(abs) && curTcb == systemTcb[abs.cur]
    }

    /** A consistent state, with the run that led to it from the end of task_create. */
    ghost predicate Started()
      reads this, rq, rq.runList, rq.runBits, devices, gtMutex, systemTcb
    {
      && Valid() && |recs| <= OS_MAX_TASKS && SortedByPeriod(recs)
      && IsRun(past) && IsRunOf(past, |recs|) && LastState(past) == abs
    }

    /** The current block stands in the run list, no runnable task has a shorter period than it,
        and it is idle's only if no task is runnable. */
    ghost predicate MostUrgent()
      reads this, rq.runList, systemTcb
      requires rq.runList.Length == OS_MAX_TASKS && curTcb in systemTcb
    {
      var c := curTcb.nativePrio;
      && c < OS_MAX_TASKS && rq.runList[c] == curTcb
      && (forall t :: 0 <= t < IDLE_PRIO && rq.runList[t] != null ==>
        c != IDLE_PRIO && c < |recs| && t < |recs| && recs[c].T <= recs[t].T)
    }

    // ---------- Boot ----------

    /** The state that app_startup leaves behind: everything zero. */
    constructor (idleEntry: nat)
      ensures Allocated() && this.idleEntry == idleEntry
      ensures fresh(rq) && fresh(rq.runList) && fresh(rq.runBits) && fresh(devices) && fresh(gtMutex)
      ensures forall t :: 0 <= t < OS_MAX_TASKS ==> fresh(systemTcb[t]) && Zeroed(systemTcb[t])
      ensures forall p :: 0 <= p < OS_MAX_TASKS ==> rq.runList[p] == null
      ensures forall d :: 0 <= d < NUM_DEVICES ==> devices[d] == Dev(null, 0)
      ensures forall m :: 0 <= m < OS_NUM_MUTEX ==> gtMutex[m] == Mtx(false, null, false, null)
      ensures curTcb == null && systemTime == 0
    {
      var tcbs: seq<Tcb> := [];
      for i := 0 to OS_MAX_TASKS
        invariant |tcbs| == i
        invariant forall t :: 0 <= t < i ==> fresh(tcbs[t]) && tcbs[t].slot == t && Zeroed(tcbs[t])
      {
        var tcb := new Tcb(i);
        tcbs := tcbs + [tcb];
      }
      systemTcb := tcbs;
      rq := new RunQueue();
      devices := new Dev[NUM_DEVICES](_ => Dev(null, 0));
      gtMutex := new Mtx[OS_NUM_MUTEX](_ => Mtx(false, null, false, null));
      curTcb := null;
      systemTime := 0;
      this.idleEntry := idleEntry;
    }

    // ---------- kernel/sched/ctx_switch.c ----------

    /** dispatch_save, dispatch_nosave and dispatch_sleep: they differ only in the register
        context they save. */
    method SwitchToHighest()
      requires rq.Valid() && |systemTcb| == OS_MAX_TASKS
      modifies this`curTcb
      ensures Least(Occupied(rq.runList[..])) < OS_MAX_TASKS
      ensures curTcb == systemTcb[Least(Occupied(rq.runList[..]))]
    {
      var p := rq.HighestPrio();
      assert p == Least(Occupied(rq.runList[..]));
      curTcb := systemTcb[p];
    }

    /** A dispatch in a consistent state. */
    method DispatchHighest()
      requires QueuesValid()
      modifies this`curTcb, this`abs
      ensures Valid() && abs == Dispatch(old(abs))
    {
      RunListIsRun(Mem(), abs);
      SwitchToHighest();
      DispatchInv(abs);
      DispatchRep(Mem(), abs);
      abs := Dispatch(abs);
    }

    // ---------- kernel/device.c ----------

    /** The pointer walk of dev_wait and of a blocking mutex_lock: the last block of the queue,
        null when it is empty. */
    method FindTail(head: Tcb?, ghost q: seq<nat>) returns (last: Tcb?)
      requires Chain(Mem(), head, q)
      ensures q != [] ==> q[|q| - 1] < |systemTcb|
      ensures last == if q == [] then null else systemTcb[q[|q| - 1]]
    {
      last := head;
      ghost var k := 0;
      while last != null && last.sleepQueue != null
        invariant k < |q| || (k == 0 && q == [])
        invariant last == At(Mem(), q, k)
        decreases |q| - k
      {
        assert last.sleepQueue == Mem().links[q[k]];
        last := last.sleepQueue;
        k := k + 1;
      }
      assert last != null ==> last.sleepQueue == Mem().links[q[k]];
    }

    /** Block t is the current one, and it stands in its slot. */
    ghost predicate RunsAt(t: nat)
      reads this, rq.runList, devices, gtMutex, systemTcb
    {
      && Layout(Mem()) && t < OS_MAX_TASKS && curTcb == systemTcb[t]
      && systemTcb[t].nativePrio == t && rq.runList[t] == systemTcb[t]
    }

    /** The current priority's slot is emptied, and the block from it stored behind the last block
        of a queue, if there is one. */
    method RemoveCurrent(last: Tcb?, ghost q: seq<nat>, ghost t: nat) returns (me: Tcb)
      requires rq.Valid() && RunsAt(t) && t !in q
      requires q != [] ==> q[|q| - 1] < OS_MAX_TASKS
      requires last == if q == [] then null else systemTcb[q[|q| - 1]]
      modifies rq, rq.runList, rq.runBits, systemTcb
      ensures rq.Valid() && me == systemTcb[t] && Mem() == Unlinked(old(Mem()), q, t)
    {
      ghost var c := Mem();
      me := rq.Remove(curTcb.nativePrio);
      if last != null {
        last.sleepQueue := me;
        me.sleepQueue := null;
      }
      assert Links() == AppendLinks(c, q, t) && Prios() == c.prios;
    }

    /** The writes of lines 73 to 85 of dev_wait, on a queue q. */
    method JoinDevice(d: nat, ghost q: seq<nat>, ghost t: nat)
      requires rq.Valid() && RunsAt(t) && t !in q && d < NUM_DEVICES
      requires Chain(Mem(), devices[d].sleepQueue, q) && (q != [] ==> q[|q| - 1] < OS_MAX_TASKS)
      modifies rq, rq.runList, rq.runBits, devices, systemTcb
      ensures rq.Valid() && Mem() == DeviceJoined(old(Mem()), d, q, t)
    {
      ghost var c := Mem();
      var last := FindTail(devices[d].sleepQueue, q);
      var me := RemoveCurrent(last, q, t);
      if last == null {
        devices[d] := devices[d].(sleepQueue := me);
      }
      assert devices[..] == DeviceJoined(c, d, q, t).devices;
    }

    /** Lines 73 to 85 of dev_wait: the current task joins the queue of the device. */
    method SleepCurrent(d: nat)
      requires Valid() && d < NUM_DEVICES && Enabled(abs, EventWait(d))
      modifies this`abs, rq, rq.runList, rq.runBits, devices, systemTcb
      ensures QueuesValid() && abs == SleepOn(old(abs), d)
      ensures rq.runList[..] == old(rq.runList[..])[old(abs.cur) := null]
    {
      ghost var q, c := abs.devices[d].queue, Mem();
      hide Rep, QueuesOk, Chain, DeviceJoined;
      DeviceQueueFound(c, abs, d);
      CurrentFound(c, abs);
      JoinDevice(d, q, abs.cur);
      SleepOnOk(abs, d);
      SleepOnRep(c, Mem(), abs, d);
      abs := SleepOn(abs, d);
    }

    /** dev_wait */
    method DevWait(d: nat)
      requires Valid() && d < NUM_DEVICES && Enabled(abs, EventWait(d))
      modifies this`curTcb, this`abs, rq, rq.runList, rq.runBits, devices, systemTcb
      ensures Valid() && abs == Dispatch(SleepOn(old(abs), d))
      ensures rq.runList[..] == old(rq.runList[..])[old(abs.cur) := null]
    {
      SleepCurrent(d);
      DispatchHighest();
    }

    /** Clearing the link of a block that has left its queue, and runqueue_add. */
    method MakeRunnable(tcb: Tcb, ghost t: nat)
      requires rq.Valid() && Layout(Mem()) && t < OS_MAX_TASKS && tcb == systemTcb[t] && tcb.nativePrio == t
      modifies rq, rq.runList, rq.runBits, tcb
      ensures rq.Valid()
      ensures Mem() == old(Mem()).(links := old(Mem()).links[t := null], runList := old(Mem()).runList[t := tcb])
    {
      ghost var c := Mem();
      tcb.sleepQueue := null;
      rq.Add(tcb, tcb.nativePrio);
      assert Mem().links == c.links[t := null] && Mem().prios == c.prios;
    }

    /** One round of the drain loop of dev_update, lines 112 to 115. */
    method WakeFirst(i: nat)
      requires QueuesValid() && i < NUM_DEVICES && devices[i].sleepQueue != null
      modifies this`abs, rq, rq.runList, rq.runBits, devices, systemTcb
      ensures QueuesValid() && old(abs).devices[i].queue != [] && abs == WakeHead(old(abs), i)
    {
      ghost var c, q := Mem(), abs.devices[i].queue;
      assert DeviceRep(c, abs, i) && DeviceOk(abs, i) && q != [] && q[0] in q;
      assert TaskRep(c, abs, q[0]);
      var oldHeader := devices[i].sleepQueue;
      assert oldHeader.sleepQueue == c.links[q[0]] && oldHeader.nativePrio == c.prios[q[0]];
      devices[i] := devices[i].(sleepQueue := oldHeader.sleepQueue);
      MakeRunnable(oldHeader, q[0]);
      WakeHeadOk(abs, i);
      WakeHeadRep(c, Mem(), abs, i);
      abs := WakeHead(abs, i);
    }

    /** The drain loop of dev_update, lines 111 to 117. */
    method Drain(i: nat) returns (flag: bool)
      requires QueuesValid() && i < NUM_DEVICES
      modifies this`abs, rq, rq.runList, rq.runBits, devices, systemTcb
      ensures QueuesValid() && abs == Drained(old(abs), i, |old(abs).devices[i].queue|)
      ensures flag == (old(abs).devices[i].queue != [])
    {
      ghost var s, k := abs, 0;
      flag := false;
      DrainedZero(s, i);
      HeadIsNull(Mem(), abs, i);
      while devices[i].sleepQueue != null
        invariant QueuesValid() && DrainedTo(s, i, k, abs)
        invariant devices[i].sleepQueue == null <==> k == |s.devices[i].queue|
        invariant flag == (k > 0)
        decreases |s.devices[i].queue| - k
      {
        WakeFirst(i);
        DrainedStep(s, i, k);
        k := k + 1;
        flag := true;
        HeadIsNull(Mem(), abs, i);
      }
    }

    /** Lines 108 to 118 of dev_update: device i, if it is due. */
    method UpdateDevice(millis: nat, i: nat) returns (flag: bool)
      requires QueuesValid() && i < NUM_DEVICES && millis == abs.now
      modifies this`abs, rq, rq.runList, rq.runBits, devices, systemTcb
      ensures QueuesValid()
      ensures abs == if Due(old(abs), i)
        then Drained(Rearm(old(abs), i), i, |old(abs).devices[i].queue|) else old(abs)
      ensures flag == (Due(old(abs), i) && old(abs).devices[i].queue != [])
    {
      flag := false;
      assert DeviceRep(Mem(), abs, i) && DeviceOk(abs, i);
      if millis == devices[i].nextMatch {
        RearmOk(abs, i);
        ghost var c := Mem();
        devices[i] := devices[i].(nextMatch := (devices[i].nextMatch + DevFreq(i)) % TWO32);
        RearmRep(c, Mem(), abs, i);
        abs := Rearm(abs, i);
        flag := Drain(i);
      }
    }

    /** One turn of the loop of dev_update. */
    method LookAt(millis: nat, i: nat, woken: bool, ghost s: State) returns (flag: bool)
      requires QueuesValid() && QueuesOk(s) && i < NUM_DEVICES && millis == s.now
      requires abs == Fired(s, i) && woken == AnyWakes(s, i)
      modifies this`abs, rq, rq.runList, rq.runBits, devices, systemTcb
      ensures QueuesValid() && abs == Fired(s, i + 1) && flag == AnyWakes(s, i + 1)
    {
      FiredNext(s, i);
      AnyWakesNext(s, i);
      hide Fired, AnyWakes, Drained, Rearm;
      var woke := UpdateDevice(millis, i);
      flag := woken || woke;
    }

    /** dev_update */
    method DevUpdate(millis: nat)
      requires Valid() && millis == abs.now
      modifies this`curTcb, this`abs, rq, rq.runList, rq.runBits, devices, systemTcb
      ensures Valid()
      ensures abs == if AnyWakes(old(abs), NUM_DEVICES)
        then Dispatch(Fired(old(abs), NUM_DEVICES)) else Fired(old(abs), NUM_DEVICES)
    {
      hide Rep, QueuesOk, TrieOk, Fired, AnyWakes;
      ghost var s := abs;
      var flag := false;
      FiredZero(s);
      FiredInv(s, NUM_DEVICES);
      for i := 0 to NUM_DEVICES
        invariant QueuesValid() && abs == Fired(s, i) && flag == AnyWakes(s, i)
        invariant curTcb == old(curTcb)
      {
        flag := LookAt(millis, i, flag, s);
      }
      FiredCur(s, NUM_DEVICES);
      if flag {
        DispatchHighest();
      }
    }

    // ---------- kernel/irq.c ----------

    /** C_IRQ_Handler: a timer tick. */
    method CIrqHandler()
      requires Valid()
      modifies this`curTcb, this`abs, this`systemTime, rq, rq.runList, rq.runBits, devices, systemTcb
      ensures Valid() && abs == Step(old(abs), Tick)
      ensures systemTime == (old(systemTime) + 1) % TWO32
      ensures forall d :: 0 <= d < NUM_DEVICES ==>
        if old(devices[d].nextMatch) == systemTime
        then devices[d] == Dev(null, (old(devices[d].nextMatch) + DevFreq(d)) % TWO32)
        else devices[d] == old(devices[d])
    {
      ghost var c, s := Mem(), abs;
      hide Rep, DeviceOk, MutexOk, ControlOk, RunOk, TrieOk, Fired, AnyWakes;
      systemTime := (systemTime + 1) % TWO32;
      AdvanceInv(abs);
      ControlRep(Mem(), abs, Advance(abs));
      abs := Advance(abs);
      DevUpdate(systemTime);
      TickRecords(c, s, Mem());
      assert forall d :: 0 <= d < NUM_DEVICES ==> devices[d] == Mem().devices[d] && old(devices[d]) == c.devices[d];
    }

    /** event_wait_syscall */
    method EventWaitSyscall(dev: nat) returns (r: Reply)
      requires Valid() && Enabled(abs, EventWait(dev))
      modifies this`curTcb, this`abs, rq, rq.runList, rq.runBits, devices, systemTcb
      ensures Valid() && abs == Step(old(abs), EventWait(dev)) && r == ReplyOf(old(abs), EventWait(dev))
      ensures dev >= NUM_DEVICES ==> r == Returns(EINVAL) && Mem() == old(Mem()) && curTcb == old(curTcb)
      ensures dev < NUM_DEVICES ==>
        && r == Suspended && abs.ctl == old(abs).ctl[old(abs.cur) := Asleep(dev)]
        && abs.devices[dev].queue == old(abs.devices[dev].queue) + [old(abs.cur)]
        && (forall e :: 0 <= e < NUM_DEVICES && e != dev ==> abs.devices[e].queue == old(abs.devices[e].queue))
        && rq.runList[..] == old(rq.runList[..])[old(abs.cur) := null]
    {
      if dev > NUM_DEVICES - 1 {
        return Returns(EINVAL);
      }
      hide Rep, QueuesOk, Inv, TrieOk;
      DevWait(dev);
      r := Suspended;
    }

    // ---------- kernel/lock/mutex.c ----------

    /** mutex_create_syscall */
    method MutexCreateSyscall() returns (r: Reply)
      requires Valid()
      modifies this`abs, gtMutex
      ensures Valid() && abs == Step(old(abs), MutexCreate) && r == ReplyOf(old(abs), MutexCreate)
      ensures r.Returns? && (r.code == -ENOMEM <==> forall m :: 0 <= m < OS_NUM_MUTEX ==> !old(gtMutex[m].bAvailable))
      ensures r.code == -ENOMEM ==> gtMutex[..] == old(gtMutex[..])
      ensures r.code != -ENOMEM ==>
        && 0 <= r.code < OS_NUM_MUTEX && old(gtMutex[r.code].bAvailable)
        && (forall m :: 0 <= m < r.code ==> !old(gtMutex[m].bAvailable))
        && gtMutex[..] == old(gtMutex[..])[r.code := old(gtMutex[r.code]).(bAvailable := false)]
    {
      ghost var c, f := Mem(), FirstAvailable(abs.mutexes);
      CreateInv(abs);
      for index := 0 to OS_NUM_MUTEX
        invariant index <= f && forall m :: 0 <= m < index ==> !gtMutex[m].bAvailable
      {
        assert MutexRep(c, abs, index);
        if gtMutex[index].bAvailable {
          gtMutex[index] := gtMutex[index].(bAvailable := false);
          CreateRep(c, Mem(), abs, index);
          abs := CreateStep(abs);
          return Returns(index);
        }
      }
      r := Returns(-ENOMEM);
    }

    /** mutex_lock_syscall up to its return, or up to line 118 if it blocks. */
    method MutexLockSyscall(mutex: nat) returns (r: Reply)
      requires Valid() && Enabled(abs, Lock(mutex))
      modifies this`abs, rq, rq.runList, rq.runBits, gtMutex, systemTcb
      ensures Valid() && abs == Step(old(abs), Lock(mutex)) && r == ReplyOf(old(abs), Lock(mutex))
      ensures mutex >= OS_NUM_MUTEX || old(gtMutex[mutex].bAvailable) ==> r == Returns(EINVAL) && Mem() == old(Mem())
      ensures mutex < OS_NUM_MUTEX && !old(gtMutex[mutex].bAvailable) && old(gtMutex[mutex].pHoldingTcb) == curTcb ==>
        r == Returns(EDEADLOCK) && Mem() == old(Mem())
      ensures mutex < OS_NUM_MUTEX && !old(gtMutex[mutex].bAvailable) && !old(gtMutex[mutex].bLock) ==>
        && r == Returns(0)
        && Mem() == old(Mem()).(mutexes :=
          old(gtMutex[..])[mutex := old(gtMutex[mutex]).(bLock := true, pHoldingTcb := curTcb)])
      ensures mutex < OS_NUM_MUTEX && old(gtMutex[mutex].bLock) && old(gtMutex[mutex].pHoldingTcb) != curTcb ==>
        && r == Suspended && gtMutex[mutex].bLock && gtMutex[mutex].pHoldingTcb == old(gtMutex[mutex].pHoldingTcb)
        && abs.mutexes[mutex].queue == old(abs.mutexes[mutex].queue) + [abs.cur]
        && rq.runList[..] == old(rq.runList[..])[abs.cur := null]
    {
      hide Rep, QueuesOk, TrieOk, Take, BlockOn;
      if mutex >= OS_NUM_MUTEX {
        return Returns(EINVAL);
      }
      MutexFound(Mem(), abs, mutex);
      if gtMutex[mutex].bAvailable {
        return Returns(EINVAL);
      }
      if gtMutex[mutex].pHoldingTcb == curTcb {
        return Returns(EDEADLOCK);
      }
      if gtMutex[mutex].bLock {
        Block(mutex);
        return Suspended;
      }
      TakeMutex(mutex);
      r := Returns(0);
    }

    /** Lines 128 and 129 of mutex_lock_syscall: the current task holds the mutex. */
    method TakeMutex(mutex: nat)
      requires Valid() && mutex < OS_NUM_MUTEX && !abs.mutexes[mutex].available
      requires abs.cur != IDLE_PRIO && abs.ctl[abs.cur].Runnable()
      requires if abs.mutexes[mutex].locked then abs.mutexes[mutex].holder == Some(abs.cur) else abs.ctl[abs.cur].User?
      modifies this`abs, gtMutex
      ensures Valid() && abs == Take(old(abs), mutex)
      ensures Mem() == old(Mem()).(mutexes :=
        old(gtMutex[..])[mutex := old(gtMutex[mutex]).(bLock := true, pHoldingTcb := curTcb)])
    {
      TakeInv(abs, mutex);
      hide Rep, QueuesOk, TrieOk;
      ghost var c := Mem();
      gtMutex[mutex] := gtMutex[mutex].(bLock := true, pHoldingTcb := curTcb);
      TakeRep(c, Mem(), abs, mutex);
      abs := Take(abs, mutex);
    }

    /** The writes of lines 85 to 102 of mutex_lock_syscall, on a queue q. */
    method JoinMutex(mutex: nat, ghost q: seq<nat>, ghost t: nat)
      requires rq.Valid() && RunsAt(t) && t !in q && mutex < OS_NUM_MUTEX
      requires Chain(Mem(), gtMutex[mutex].pSleepQueue, q) && (q != [] ==> q[|q| - 1] < OS_MAX_TASKS)
      modifies rq, rq.runList, rq.runBits, gtMutex, systemTcb
      ensures rq.Valid() && Mem() == MutexJoined(old(Mem()), mutex, q, t)
    {
      ghost var c := Mem();
      var last := FindTail(gtMutex[mutex].pSleepQueue, q);
      var me := RemoveCurrent(last, q, t);
      if last == null {
        gtMutex[mutex] := gtMutex[mutex].(pSleepQueue := me);
      }
      assert gtMutex[..] == MutexJoined(c, mutex, q, t).mutexes;
    }

    /** Lines 85 to 102 of mutex_lock_syscall: the current task joins the queue of the mutex. */
    method Block(mutex: nat)
      requires Valid() && Enabled(abs, Lock(mutex)) && mutex < OS_NUM_MUTEX
      requires abs.mutexes[mutex].locked && abs.mutexes[mutex].holder != Some(abs.cur)
      modifies this`abs, rq, rq.runList, rq.runBits, gtMutex, systemTcb
      ensures Valid() && abs == BlockOn(old(abs), mutex)
      ensures abs.mutexes[mutex].queue == old(abs.mutexes[mutex].queue) + [old(abs.cur)] && abs.cur == old(abs.cur)
      ensures gtMutex[mutex].bLock == old(gtMutex[mutex].bLock) && gtMutex[mutex].pHoldingTcb == old(gtMutex[mutex].pHoldingTcb)
      ensures rq.runList[..] == old(rq.runList[..])[old(abs.cur) := null]
    {
      ghost var q, c := abs.mutexes[mutex].queue, Mem();
      hide Rep, QueuesOk, Chain, MutexJoined;
      MutexQueueFound(c, abs, mutex);
      CurrentFound(c, abs);
      JoinMutex(mutex, q, abs.cur);
      BlockOnInv(abs, mutex);
      BlockOnRep(c, Mem(), abs, mutex);
      abs := BlockOn(abs, mutex);
    }

    /** Line 121 of mutex_lock_syscall: the blocked task gives up the processor. */
    method MutexLockDispatch()
      requires Valid() && Enabled(abs, LockDispatch)
      modifies this`curTcb, this`abs
      ensures Valid() && abs == Step(old(abs), LockDispatch)
    {
      ghost var s := abs.(ctl := abs.ctl[abs.cur := abs.ctl[abs.cur].(window := false)]);
      LeaveWindowOk(abs);
      ControlRep(Mem(), abs, s);
      abs := s;
      DispatchHighest();
    }

    /** Lines 124 to 135 of mutex_lock_syscall, when the blocked task runs again: it finds the
        mutex already its own, so the two writes change nothing. */
    method MutexLockResume(mutex: nat) returns (r: Reply)
      requires Valid() && Enabled(abs, LockResume) && mutex == abs.ctl[abs.cur].mtx
      modifies this`abs, gtMutex
      ensures Valid() && abs == Step(old(abs), LockResume) && r == Returns(0)
      ensures gtMutex[..] == old(gtMutex[..])
    {
      MutexFound(Mem(), abs, mutex);
      GrantedIsHolder(Mem(), abs);
      hide Rep, QueuesOk, TrieOk, Take;
      TakeMutex(mutex);
      r := Returns(0);
    }

    /** mutex_unlock_syscall */
    method MutexUnlockSyscall(mutex: nat) returns (r: Reply)
      requires Valid() && Enabled(abs, Unlock(mutex))
      modifies this`abs, rq, rq.runList, rq.runBits, gtMutex, systemTcb
      ensures Valid() && abs == Step(old(abs), Unlock(mutex)) && r == ReplyOf(old(abs), Unlock(mutex))
      ensures mutex >= OS_NUM_MUTEX || old(gtMutex[mutex].bAvailable) ==> r == Returns(EINVAL) && Mem() == old(Mem())
      ensures mutex < OS_NUM_MUTEX && !old(gtMutex[mutex].bAvailable) && old(gtMutex[mutex].pHoldingTcb) != curTcb ==>
        r == Returns(EPERM) && Mem() == old(Mem())
      ensures mutex < OS_NUM_MUTEX && old(gtMutex[mutex].pHoldingTcb) == curTcb && old(gtMutex[mutex].pSleepQueue) == null ==>
        && r == Returns(0)
        && Mem() == old(Mem()).(mutexes :=
          old(gtMutex[..])[mutex := old(gtMutex[mutex]).(bLock := false, pHoldingTcb := null)])
      ensures mutex < OS_NUM_MUTEX && old(gtMutex[mutex].pHoldingTcb) == curTcb && old(gtMutex[mutex].pSleepQueue) != null ==>
        var next := old(gtMutex[mutex].pSleepQueue);
        && r == Returns(0) && next.sleepQueue == null && next in rq.runList[..]
        && gtMutex[..] == old(gtMutex[..])[mutex :=
          old(gtMutex[mutex]).(pHoldingTcb := next, pSleepQueue := old(gtMutex[mutex].pSleepQueue.sleepQueue))]
    {
      hide Rep, QueuesOk, TrieOk, Free, HandOver;
      if mutex >= OS_NUM_MUTEX {
        return Returns(EINVAL);
      }
      MutexFound(Mem(), abs, mutex);
      if gtMutex[mutex].bAvailable {
        return Returns(EINVAL);
      }
      if gtMutex[mutex].pHoldingTcb != curTcb {
        return Returns(EPERM);
      }
      var nextTcb := gtMutex[mutex].pSleepQueue;
      if nextTcb == null {
        Release(mutex);
      } else {
        PassOn(mutex, nextTcb);
      }
      r := Returns(0);
    }

    /** Lines 163 and 164 of mutex_unlock_syscall: nobody holds the mutex. */
    method Release(mutex: nat)
      requires Valid() && mutex < OS_NUM_MUTEX
      requires abs.mutexes[mutex].holder == Some(abs.cur) && abs.mutexes[mutex].queue == []
      requires abs.ctl[abs.cur].User?
      modifies this`abs, gtMutex
      ensures Valid() && abs == Free(old(abs), mutex)
      ensures Mem() == old(Mem()).(mutexes :=
        old(gtMutex[..])[mutex := old(gtMutex[mutex]).(bLock := false, pHoldingTcb := null)])
    {
      FreeInv(abs, mutex);
      hide Rep, QueuesOk, TrieOk;
      ghost var c := Mem();
      gtMutex[mutex] := gtMutex[mutex].(bLock := false, pHoldingTcb := null);
      FreeRep(c, Mem(), abs, mutex);
      abs := Free(abs, mutex);
    }

    /** Lines 168 and 170 of mutex_unlock_syscall: the first waiter leaves the queue and holds the
        mutex. */
    method TakeWaiter(mutex: nat, nextTcb: Tcb)
      requires mutex < gtMutex.Length && nextTcb == gtMutex[mutex].pSleepQueue
      modifies gtMutex
      ensures gtMutex[..] == old(gtMutex[..])[mutex :=
        old(gtMutex[mutex]).(pSleepQueue := nextTcb.sleepQueue, pHoldingTcb := nextTcb)]
    {
      gtMutex[mutex] := gtMutex[mutex].(pSleepQueue := gtMutex[mutex].pSleepQueue.sleepQueue);
      gtMutex[mutex] := gtMutex[mutex].(pHoldingTcb := nextTcb);
    }

    /** Lines 168 to 171 of mutex_unlock_syscall: hand-off to the first waiter. */
    method PassOn(mutex: nat, nextTcb: Tcb)
      requires Valid() && Enabled(abs, Unlock(mutex)) && mutex < OS_NUM_MUTEX
      requires nextTcb == gtMutex[mutex].pSleepQueue
      requires abs.mutexes[mutex].holder == Some(abs.cur) && abs.mutexes[mutex].queue != []
      modifies this`abs, rq, rq.runList, rq.runBits, gtMutex, systemTcb
      ensures Valid() && abs == HandOver(old(abs), mutex)
      ensures nextTcb.sleepQueue == null && nextTcb in rq.runList[..]
      ensures gtMutex[..] == old(gtMutex[..])[mutex :=
        old(gtMutex[mutex]).(pHoldingTcb := nextTcb, pSleepQueue := old(nextTcb.sleepQueue))]
    {
      ghost var c, t := Mem(), abs.mutexes[mutex].queue[0];
      hide Rep, QueuesOk, Chain;
      MutexQueueFound(c, abs, mutex);
      assert t in abs.mutexes[mutex].queue && nextTcb.nativePrio == c.prios[t];
      TakeWaiter(mutex, nextTcb);
      assert Mem() == c.(mutexes := c.mutexes[mutex := c.mutexes[mutex].(pSleepQueue := c.links[t], pHoldingTcb := c.tcbs[t])]);
      MakeRunnable(nextTcb, t);
      HandOverInv(abs, mutex);
      HandOverRep(c, Mem(), abs, mutex);
      assert Links()[t] == null && rq.runList[..][t] == nextTcb;
      abs := HandOver(abs, mutex);
    }

    /** mutex_init */
    method MutexInit()
      requires gtMutex.Length == OS_NUM_MUTEX
      modifies gtMutex
      ensures forall m :: 0 <= m < OS_NUM_MUTEX ==> gtMutex[m] == Mtx(true, null, false, null)
    {
      for index := 0 to OS_NUM_MUTEX
        invariant forall m :: 0 <= m < index ==> gtMutex[m] == Mtx(true, null, false, null)
      {
        gtMutex[index] := Mtx(true, null, false, null);
      }
    }

    // ---------- kernel/sched/sched.c and kernel/syscall/proc.c: task creation ----------

    /** The arrays and blocks exist. Nothing is said about what they hold. */
    ghost predicate Allocated()
      reads rq.runList, devices, gtMutex, systemTcb
    {
      && Layout(Mem()) && rq.runBits.Length == 8
    }

    /** dev_init */
    method DevInit()
      requires devices.Length == NUM_DEVICES
      modifies devices
      ensures forall d :: 0 <= d < NUM_DEVICES ==> devices[d] == Dev(null, (systemTime + DevFreq(d)) % TWO32)
    {
      for i := 0 to NUM_DEVICES
        invariant forall d :: 0 <= d < i ==> devices[d] == Dev(null, (systemTime + DevFreq(d)) % TWO32)
      {
        devices[i] := Dev(null, (systemTime + DevFreq(i)) % TWO32);
      }
    }

    /** sched_init: everything but the links. */
    method SchedInit()
      requires Layout(Mem())
      modifies systemTcb
      ensures Links() == old(Links())
      ensures forall t :: 0 <= t < OS_MAX_TASKS ==>
        systemTcb[t].nativePrio == 0 && systemTcb[t].curPrio == 0 && systemTcb[t].context == ZERO_CONTEXT
    {
      for index := 0 to OS_MAX_TASKS
        invariant Links() == old(Links())
        invariant forall t :: 0 <= t < index ==>
          systemTcb[t].nativePrio == 0 && systemTcb[t].curPrio == 0 && systemTcb[t].context == ZERO_CONTEXT
      {
        systemTcb[index].nativePrio := 0;
        systemTcb[index].curPrio := 0;
        systemTcb[index].context := ZERO_CONTEXT;
        assert Links() == old(Links());
      }
    }

    /** TCB t is ready to start: entry point, argument and user stack, and its own kernel stack. */
    ghost predicate Prepared(t: nat, lambda: nat, data: nat, stackPos: nat)
      requires t < |systemTcb|
      reads systemTcb
    {
      && systemTcb[t].nativePrio == t && systemTcb[t].curPrio == t
      && systemTcb[t].context == Context(lambda, data, stackPos, KSTACK_BASE + t * 0x1000)
    }

    /** One turn of the loop of allocate_tasks, and the idle lines after it. */
    method SetUp(t: nat, lambda: nat, data: nat, stackPos: nat)
      requires Layout(Mem()) && rq.Valid() && t < OS_MAX_TASKS
      modifies rq, rq.runList, rq.runBits, systemTcb[t]
      ensures rq.Valid() && Links() == old(Links())
      ensures systemTcb[t].nativePrio == t && systemTcb[t].curPrio == t
      ensures systemTcb[t].context == Context(lambda, data, stackPos, 0xa380_0000 + t * 0x1000)
      ensures rq.runList[..] == old(rq.runList[..])[t := systemTcb[t]]
    {
      var tcb := systemTcb[t];
      tcb.nativePrio := t;
      tcb.curPrio := t;
      tcb.context := Context(lambda, data, stackPos, KSTACK_BASE + t * 0x1000);
      rq.Add(tcb, tcb.nativePrio);
      assert Links() == old(Links());
    }

    /** The loop of allocate_tasks, lines 81 to 98. */
    method SetUpTasks(tasks: seq<Task>)
      requires Allocated() && rq.Valid() && |tasks| <= OS_MAX_TASKS
      requires forall t :: 0 <= t < OS_MAX_TASKS ==> rq.runList[t] == null
      modifies rq, rq.runList, rq.runBits, systemTcb
      ensures rq.Valid() && Links() == old(Links())
      ensures forall t :: 0 <= t < |tasks| ==> Prepared(t, tasks[t].lambda, tasks[t].data, tasks[t].stackPos)
      ensures forall t :: 0 <= t < OS_MAX_TASKS ==>
        rq.runList[..][t] == if t < |tasks| then systemTcb[t] else null
    {
      for index := 0 to |tasks|
        invariant rq.Valid() && Links() == old(Links())
        invariant forall t :: 0 <= t < index ==>
          Prepared(t, tasks[t].lambda, tasks[t].data, tasks[t].stackPos)
        invariant forall t :: 0 <= t < OS_MAX_TASKS ==>
          rq.runList[..][t] == if t < index then systemTcb[t] else null
      {
        SetUp(index, tasks[index].lambda, tasks[index].data, tasks[index].stackPos);
      }
    }

    /** allocate_tasks before its dispatch. For 64 tasks the block of the last one is taken
        over by idle. */
    method FillTcbs(tasks: seq<Task>)
      requires Allocated() && |tasks| <= OS_MAX_TASKS
      modifies rq, rq.runList, rq.runBits, systemTcb
      ensures rq.Valid() && Links() == old(Links())
      ensures forall t :: 0 <= t < |tasks| && t != IDLE_PRIO ==>
        Prepared(t, tasks[t].lambda, tasks[t].data, tasks[t].stackPos)
      ensures Prepared(IDLE_PRIO, idleEntry, 0, 0)
      ensures forall t :: 0 <= t < OS_MAX_TASKS ==>
        rq.runList[..][t] == if t < |tasks| || t == 63 then systemTcb[t] else null
    {
      hide TrieOk, Occupied;
      rq.Init();
      SchedInit();
      SetUpTasks(tasks);
      SetUp(IDLE_PRIO, idleEntry, 0, 0);
    }

    /** TCB t carries the entry point, argument and stack of task t, and the last TCB is idle. */
    ghost predicate Loaded(tasks: seq<Task>)
      requires |systemTcb| == OS_MAX_TASKS && |tasks| <= OS_MAX_TASKS
      reads systemTcb, tasks
    {
      && (forall t :: 0 <= t < |tasks| && t != IDLE_PRIO ==>
        Prepared(t, tasks[t].lambda, tasks[t].data, tasks[t].stackPos))
      && Prepared(IDLE_PRIO, idleEntry, 0, 0)
    }

    /** dev_init and allocate_tasks, up to the dispatch. */
    method Rebuild(tasks: seq<Task>)
      requires Allocated() && |tasks| <= OS_MAX_TASKS
      modifies rq, rq.runList, rq.runBits, devices, systemTcb
      ensures rq.Valid() && Created(Mem(), |tasks|, systemTime) && Occupied(rq.runList[..]) == TaskSet(|tasks|)
      ensures Links() == old(Links()) && gtMutex[..] == old(gtMutex[..]) && Loaded(tasks)
    {
      DevInit();
      FillTcbs(tasks);
      forall t | t in TaskSet(|tasks|) ensures Mem().prios[t] == t {
        assert t == IDLE_PRIO || Prepared(t, tasks[t].lambda, tasks[t].data, tasks[t].stackPos);
        assert Mem().prios[t] == systemTcb[t].nativePrio;
      }
      assert forall t :: 0 <= t < OS_MAX_TASKS ==> Mem().runList[t] == rq.runList[..][t];
    }

    /** The dispatch that ends allocate_tasks and starts the most urgent task. */
    method Launch(ghost n: nat)
      requires rq.Valid() && Created(Mem(), n, systemTime) && Occupied(rq.runList[..]) == TaskSet(n)
      requires systemTime < TWO32
      modifies this`curTcb, this`abs
      ensures abs == Init(n, systemTime, Available(Mem()))
      ensures Valid() <==> Quiescent(Mem(), n)
    {
      SwitchToHighest();
      hide TrieOk, Created, Quiescent;
      CreatedRep(Mem(), n, systemTime);
      InitInv(n, systemTime, Available(Mem()));
      abs := Init(n, systemTime, Available(Mem()));
    }

    /** The successful end of task_create_syscall: the sort, dev_init and allocate_tasks. The
        kernel is then in the start state of the abstract machine exactly when no link was set
        and no mutex was in use before, for nothing here resets them. */
    method Create(tasks: seq<Task>)
      requires Allocated() && IsArray(tasks) && |tasks| <= OS_MAX_TASKS && systemTime < TWO32
      modifies this`curTcb, this`abs, rq, rq.runList, rq.runBits, devices, systemTcb, tasks
      ensures SortedByPeriod(Records(tasks)) && multiset(Records(tasks)) == multiset(old(Records(tasks)))
      ensures Loaded(tasks) && abs == Init(|tasks|, systemTime, Available(old(Mem())))
      ensures Valid() <==> Quiescent(old(Mem()), |tasks|)
    {
      hide Rep, QueuesOk, Inv, Created, Init, TrieOk, Prepared, SortedByPeriod;
      ghost var c := Mem();
      SortTasks(tasks);
      Rebuild(tasks);
      assert Mem().mutexes == c.mutexes && Mem().links == c.links;
      assert Available(Mem()) == Available(c) && (Quiescent(Mem(), |tasks|) <==> Quiescent(c, |tasks|));
      Launch(|tasks|);
    }

    /** Create, with the record of what runs from now on. */
    method Start(tasks: seq<Task>)
      requires Allocated() && IsArray(tasks) && |tasks| <= OS_MAX_TASKS && systemTime < TWO32
      modifies this`curTcb, this`abs, this`recs, this`past, rq, rq.runList, rq.runBits, devices, systemTcb, tasks
      ensures SortedByPeriod(Records(tasks)) && multiset(Records(tasks)) == multiset(old(Records(tasks)))
      ensures Loaded(tasks) && recs == Records(tasks) && past == Run([abs], [])
      ensures abs == Init(|tasks|, systemTime, Available(old(Mem())))
      ensures Started() <==> Quiescent(old(Mem()), |tasks|)
    {
      hide Inv, Init, Rep, QueuesOk, Quiescent, SortedByPeriod, IsRun, IsRunOf, Prepared, Records;
      ghost var available := Available(Mem());
      Create(tasks);
      recs, past := Records(tasks), Run([abs], []);
      StartIsRun(|tasks|, systemTime, available);
    }

    /** task_create_syscall: a code when it fails, None when it starts the tasks and does not
        return. Only the last task's C / T is left in sum when the loop ends, so the call refuses
        an overloaded set iff that task alone asks for twice the processor. */
    method TaskCreateSyscall(tasksAddr: nat, tasks: seq<Task>) returns (r: Option<int>)
      requires Allocated() && IsArray(tasks) && systemTime < TWO32 && Periodic(Records(tasks))
      modifies this`curTcb, this`abs, this`recs, this`past, rq, rq.runList, rq.runBits, devices, systemTcb, tasks
      ensures r == CreateCode(tasksAddr, old(Records(tasks)))
      ensures r == Some(ESCHED) ==> Load(old(Records(tasks))) >= 2.0
      ensures WellPlaced(tasksAddr, old(Records(tasks))) && Load(old(Records(tasks))) > 1.0 ==>
        (r == Some(ESCHED) <==> LastOverlong(old(Records(tasks))))
      ensures r.Some? ==> Mem() == old(Mem()) && abs == old(abs) && Records(tasks) == old(Records(tasks))
      ensures r.None? ==>
        && SortedByPeriod(Records(tasks)) && multiset(Records(tasks)) == multiset(old(Records(tasks)))
        && |tasks| <= OS_MAX_TASKS && Loaded(tasks) && recs == Records(tasks) && past == Run([abs], [])
        && abs == Init(|tasks|, systemTime, Available(old(Mem())))
        && (Started() <==> Quiescent(old(Mem()), |tasks|))
    {
      hide Load, SortedByPeriod, Quiescent, Started, Loaded;
      ghost var users := Records(tasks);
      ScheduleTestExactly(tasksAddr, users);
      r := CheckTasks(tasksAddr, tasks);
      if r.None? {
        Start(tasks);
      }
    }

    /** The checks that task_create_syscall makes before it changes anything. */
    method CheckTasks(tasksAddr: nat, tasks: seq<Task>) returns (r: Option<int>)
      requires Periodic(Records(tasks))
      ensures r == CreateCode(tasksAddr, Records(tasks))
      ensures r == Some(EINVAL) <==> |tasks| > 64
      ensures r == Some(EFAULT) <==>
        && |tasks| <= 64
        && (!(0xa000_0000 <= tasksAddr <= 0xa300_0000)
          || (exists i :: 0 <= i < |tasks| && !(0xa000_0000 <= Records(tasks)[i].stackPos <= 0xa300_0000))
          || (exists i :: 0 <= i < |tasks| && !(0xa000_0000 <= Records(tasks)[i].lambda <= 0xa300_0000)))
    {
      CodesExactly(tasksAddr, Records(tasks));
      if |tasks| > OS_MAX_TASKS {
        return Some(EINVAL);
      }
      if tasksAddr > USR_END_ADDR || tasksAddr < USR_START_ADDR {
        return Some(EFAULT);
      }
      ghost var users := Records(tasks);
      var sum := 0;
      for i := 0 to |tasks|
        invariant forall j :: 0 <= j < i ==> InUserMemory(users[j])
        invariant sum == if i == 0 then 0 else users[i - 1].C / users[i - 1].T
      {
        assert tasks[i].Rec() == users[i];
        if tasks[i].stackPos > USR_END_ADDR || tasks[i].stackPos < USR_START_ADDR {
          return Some(EFAULT);
        }
        if tasks[i].lambda > USR_END_ADDR || tasks[i].lambda < USR_START_ADDR {
          return Some(EFAULT);
        }
        sum := tasks[i].C / tasks[i].T;
      }
      if |users| > 0 { QuotientAboveOne(users[|users| - 1].C, users[|users| - 1].T); }
      if sum > 1 {
        return Some(ESCHED);
      }
      r := None;
    }

    // ---------- Entry: kernel/syscall/sys.c and kernel/irq.c ----------

    /** Every way into the kernel once tasks are running: getSWI for the calls of the current task,
        the two points where a blocked mutex_lock goes on, and C_IRQ_Handler. The mutex argument is
        the one that a blocked mutex_lock still has on its stack. */
    method Perform(op: Op, mutex: nat) returns (r: Reply)
      requires Valid() && Enabled(abs, op) && (op.LockResume? ==> mutex == abs.ctl[abs.cur].mtx)
      modifies this`curTcb, this`abs, this`systemTime, rq, rq.runList, rq.runBits, devices, gtMutex, systemTcb
      ensures Valid() && abs == Step(old(abs), op) && r == ReplyOf(old(abs), op)
    {
      hide Inv, Rep, QueuesOk, Step, TrieOk;
      r := Suspended;
      match op {
        case EventWait(dev) => r := EventWaitSyscall(dev);
        case MutexCreate => r := MutexCreateSyscall();
        case Lock(m) => r := MutexLockSyscall(m);
        case LockDispatch => MutexLockDispatch();
        case LockResume => r := MutexLockResume(mutex);
        case Unlock(m) => r := MutexUnlockSyscall(m);
        case Tick => CIrqHandler();
      }
    }

    /** The same, on a run from task_create. */
    method Enter(op: Op, mutex: nat) returns (r: Reply)
      requires Started() && Enabled(abs, op) && (op.LockResume? ==> mutex == abs.ctl[abs.cur].mtx)
      modifies this`curTcb, this`abs, this`systemTime, this`past, rq, rq.runList, rq.runBits, devices, gtMutex, systemTcb
      ensures Started() && recs == old(recs) && past == Extend(old(past), op)
      ensures abs == Step(old(abs), op) && r == ReplyOf(old(abs), op)
    {
      ExtendIsRun(past, op);
      hide Valid, Step, IsRun, IsRunOf, SortedByPeriod;
      r := Perform(op, mutex);
      past := Extend(past, op);
    }
  }

  /** kmain, and the task_create call of the first user program: if the call succeeds, the kernel is in
      the start state, and every mutex can still be created. */
  method Boot(idleEntry: nat, tasksAddr: nat, tasks: seq<Task>) returns (k: Kernel, r: Option<int>)
    requires IsArray(tasks) && Periodic(Records(tasks))
    modifies tasks
    ensures fresh(k) && r == CreateCode(tasksAddr, old(Records(tasks)))
    ensures r.None? ==>
      && k.Started() && k.recs == Records(tasks) && |tasks| <= OS_MAX_TASKS && k.Loaded(tasks)
      && k.abs == Init(|tasks|, 0, seq(OS_NUM_MUTEX, _ => true)) && k.past == Run([k.abs], [])
  {
    k := new Kernel(idleEntry);
    k.MutexInit();
    assert Quiescent(k.Mem(), |tasks|);
    assert Available(k.Mem()) == seq(OS_NUM_MUTEX, _ => true);
    assert forall t :: t in k.systemTcb ==> fresh(t);
    r := k.TaskCreateSyscall(tasksAddr, tasks);
  }

  /** What task creation leaves in the control blocks, field by field. */
  lemma LoadedMeans(k: Kernel, tasks: seq<Task>, t: nat)
    requires |k.systemTcb| == OS_MAX_TASKS && |tasks| <= OS_MAX_TASKS && k.Loaded(tasks)
    requires t < |tasks| || t == 63
    ensures k.systemTcb[t].nativePrio == t && k.systemTcb[t].curPrio == t
    ensures var c := k.systemTcb[t].context;
      && c.sp == 0xa380_0000 + t * 0x1000
      && if t == 63 then c.r4 == k.idleEntry && c.r5 == 0 && c.r6 == 0
         else c.r4 == tasks[t].lambda && c.r5 == tasks[t].data && c.r6 == tasks[t].stackPos
  {
    if t != 63 {
      assert k.Prepared(t, tasks[t].lambda, tasks[t].data, tasks[t].stackPos);
    }
  }

  /** Rate-monotonic dispatch end to end. Whatever calls and ticks have come since task_create: if the
      last of them dispatched, or there was none yet, then the current block is that of a runnable task with
      the shortest period, or idle's if no task is runnable. */
  lemma RateMonotonicDispatch(k: Kernel)
    requires k.Started() && AfterDispatch(k.past, |k.past.ops|)
    ensures k.rq.runList.Length == OS_MAX_TASKS && k.curTcb in k.systemTcb && k.MostUrgent()
  {
    var now: nat, available: seq<bool> :| IsRunFrom(k.past, |k.recs|, now, available);
    var i := |k.past.ops|;
    RateMonotonic(k.past, k.recs, now, available, i);
    AfterDispatchIsLeast(k.past, |k.recs|, now, available, i);
    var s, c := k.abs, k.Mem();
    assert TaskRep(c, s, s.cur);
    forall t | 0 <= t < IDLE_PRIO && k.rq.runList[t] != null ensures t in s.run {
      assert TaskRep(c, s, t);
    }
  }
}
