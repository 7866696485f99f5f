/** Which task sets task_create admits, and how that relates to the load they put on the processor
    (kernel/syscall/proc.c). */
module Admission {
  import opened Config
  import opened Tasks

  const USR_START_ADDR: nat := 0xa0000000
  const USR_END_ADDR: nat := 0xa3000000

  predicate InUserMemory(r: Record)
  {
    USR_START_ADDR <= r.stackPos <= USR_END_ADDR && USR_START_ADDR <= r.lambda <= USR_END_ADDR
  }

  predicate Periodic(recs: seq<Record>)
  {
    forall i :: 0 <= i < |recs| ==> recs[i].T > 0
  }

  /** Nothing is wrong with the number of tasks and the addresses. */
  predicate WellPlaced(tasksAddr: nat, recs: seq<Record>)
  {
    && |recs| <= OS_MAX_TASKS && USR_START_ADDR <= tasksAddr <= USR_END_ADDR
    && forall i :: 0 <= i < |recs| ==> InUserMemory(recs[i])
  }

  /** The last task of the user's array needs at least twice its period. */
  predicate LastOverlong(recs: seq<Record>)
  {
    recs != [] && recs[|recs| - 1].C >= 2 * recs[|recs| - 1].T
  }

  /** The code task_create fails with, None if it goes ahead. */
  function CreateCode(tasksAddr: nat, recs: seq<Record>): Option<int>
    requires Periodic(recs)
  {
    if |recs| > OS_MAX_TASKS then Some(EINVAL)
    else if !WellPlaced(tasksAddr, recs) then Some(EFAULT)
    else if LastOverlong(recs) then Some(ESCHED)
    else None
  }

  /** The codes, in terms of the numbers in the records alone. */
  lemma CodesExactly(tasksAddr: nat, recs: seq<Record>)
    requires Periodic(recs)
    ensures CreateCode(tasksAddr, recs) == Some(EINVAL) <==> |recs| > 64
    ensures CreateCode(tasksAddr, recs) == Some(EFAULT) <==>
      && |recs| <= 64
      && (!(0xa000_0000 <= tasksAddr <= 0xa300_0000)
        || (exists i :: 0 <= i < |recs| && !(0xa000_0000 <= recs[i].stackPos <= 0xa300_0000))
        || (exists i :: 0 <= i < |recs| && !(0xa000_0000 <= recs[i].lambda <= 0xa300_0000)))
    ensures CreateCode(tasksAddr, recs) == Some(ESCHED) ==> recs != [] && recs[|recs| - 1].C / recs[|recs| - 1].T >= 2
    ensures CreateCode(tasksAddr, recs) == None ==> recs == [] || recs[|recs| - 1].C / recs[|recs| - 1].T < 2
  {
    if forall i :: 0 <= i < |recs| ==> InUserMemory(recs[i]) {
      assert forall i :: 0 <= i < |recs| ==> 0xa000_0000 <= recs[i].stackPos <= 0xa300_0000;
      assert forall i :: 0 <= i < |recs| ==> 0xa000_0000 <= recs[i].lambda <= 0xa300_0000;
    } else {
      var i :| 0 <= i < |recs| && !InUserMemory(recs[i]);
      assert !(0xa000_0000 <= recs[i].stackPos <= 0xa300_0000) || !(0xa000_0000 <= recs[i].lambda <= 0xa300_0000);
    }
    if recs != [] { QuotientAboveOne(recs[|recs| - 1].C, recs[|recs| - 1].T); }
  }

  /** The share of the processor that a task asks for. */
  function Share(r: Record): real
    requires r.T > 0
  {
    r.C as real / r.T as real
  }

  /** The utilisation of a task set: the sum of all shares. */
  function Load(recs: seq<Record>): real
    requires Periodic(recs)
  {
    if recs == [] then 0.0 else Load(recs[..|recs| - 1]) + Share(recs[|recs| - 1])
  }

  lemma ScaleOrder(a: real, b: real, t: real)
    requires t > 0.0
    ensures a >= b <==> a * t >= b * t
  {
    assert (a - b) * t == a * t - b * t;
    if a >= b {
      assert (a - b) * t >= 0.0;
    } else {
      assert (b - a) * t > 0.0;
    }
  }

  lemma ShareAtLeast(r: Record, k: nat)
    requires r.T > 0
    ensures Share(r) >= k as real <==> r.C >= k * r.T
  {
    assert Share(r) * r.T as real == r.C as real;
    ScaleOrder(Share(r), k as real, r.T as real);
    assert k as real * r.T as real == (k * r.T) as real;
  }

  lemma {:induction false} LoadNotNegative(recs: seq<Record>)
    requires Periodic(recs)
    ensures Load(recs) >= 0.0
  {
    if recs != [] {
      LoadNotNegative(recs[..|recs| - 1]);
      ShareAtLeast(recs[|recs| - 1], 0);
    }
  }

  lemma LoadOfLast(recs: seq<Record>)
    requires Periodic(recs) && LastOverlong(recs)
    ensures Load(recs) >= 2.0
  {
    LoadNotNegative(recs[..|recs| - 1]);
    ShareAtLeast(recs[|recs| - 1], 2);
  }

  /** The schedulability test of task_create, against the one it stands for: refuse the tasks that
      together ask for more than the whole processor. A set it refuses asks for at least twice that,
      so no feasible set is refused. The two tests agree iff the set is not overloaded, or its
      last task alone asks for twice the processor. */
  lemma ScheduleTestExactly(tasksAddr: nat, recs: seq<Record>)
    requires Periodic(recs)
    ensures CreateCode(tasksAddr, recs) == Some(ESCHED) ==> Load(recs) >= 2.0
    ensures WellPlaced(tasksAddr, recs) ==>
      ((CreateCode(tasksAddr, recs) == Some(ESCHED) <==> Load(recs) > 1.0) <==> Load(recs) <= 1.0 || LastOverlong(recs))
  {
    if LastOverlong(recs) {
      LoadOfLast(recs);
    }
  }

  /** However large the load of a set is, one more task in the last place, with a share below 2,
      gets it admitted. */
  lemma OverloadAccepted(tasksAddr: nat, recs: seq<Record>, last: Record)
    requires Periodic(recs) && last.T > 0 && WellPlaced(tasksAddr, recs + [last]) && Share(last) < 2.0
    ensures Periodic(recs + [last]) && CreateCode(tasksAddr, recs + [last]) == None
    ensures Load(recs + [last]) == Load(recs) + Share(last) >= Load(recs)
  {
    var all := recs + [last];
    assert all[..|all| - 1] == recs;
    ShareAtLeast(last, 2);
    ShareAtLeast(last, 0);
  }

  /** Two tasks that each need the whole processor are admitted. */
  lemma OverloadedPair()
    ensures var r := Record(USR_START_ADDR, 0, USR_START_ADDR, 10, 10);
      CreateCode(USR_START_ADDR, [r, r]) == None && Load([r, r]) == 2.0
  {
    var r := Record(USR_START_ADDR, 0, USR_START_ADDR, 10, 10);
    assert [r, r][..1] == [r] && [r][..0] == [] && Share(r) == 1.0;
    assert Load([r]) == Load([r][..0]) + Share(r);
  }

  lemma QuotientAboveOne(c: nat, t: nat)
    requires t > 0
    ensures c / t > 1 <==> c >= 2 * t
  {
  }
}
