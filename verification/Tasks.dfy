/** Task descriptors and the sort in task_create (kernel/syscall/proc.c). */
module Tasks {

  /** The five fields of a task_t. */
  datatype Record = Record(lambda: nat, data: nat, stackPos: nat, C: nat, T: nat)

  class Task {
    /** The index of this element in the user's array: two elements are the same iff their slots are. */
    ghost const slot: nat
    var lambda: nat
    var data: nat
    var stackPos: nat
    var C: nat
    var T: nat

    constructor (ghost slot: nat, r: Record)
      ensures this.slot == slot && Rec() == r
    {
      this.slot := slot;
      lambda, data, stackPos, C, T := r.lambda, r.data, r.stackPos, r.C, r.T;
    }

    function Rec(): Record
      reads this
    {
      Record(lambda, data, stackPos, C, T)
    }
  }

  ghost predicate IsArray(tasks: seq<Task>)
  {
    forall i :: 0 <= i < |tasks| ==> tasks[i].slot == i
  }

  ghost function Records(tasks: seq<Task>): (r: seq<Record>)
    reads tasks
    ensures |r| == |tasks|
  {
    seq(|tasks|, i requires 0 <= i < |tasks| reads tasks => tasks[i].Rec())
  }

  ghost predicate SortedByPeriod(r: seq<Record>)
  {
    forall i, j :: 0 <= i < j < |r| ==> r[i].T <= r[j].T
  }

  function Swap<A>(s: seq<A>, i: nat, j: nat): seq<A>
    requires i < |s| && j < |s|
  {
    s[i := s[j]][j := s[i]]
  }

  lemma SwapPermutes<A>(s: seq<A>, i: nat, j: nat)
    requires i < |s| && j < |s|
    ensures multiset(Swap(s, i, j)) == multiset(s)
  {
  }

  /** task_exchange: all five fields move, also when both pointers name one element. */
  method TaskExchange(task1: Task, task2: Task)
    modifies task1, task2
    ensures task1.Rec() == old(task2.Rec()) && task2.Rec() == old(task1.Rec())
  {
    var tmpLambda, tmpData, tmpStackPos, tmpC, tmpT := task1.lambda, task1.data, task1.stackPos, task1.C, task1.T;

    task1.lambda := task2.lambda;
    task1.data := task2.data;
    task1.stackPos := task2.stackPos;
    task1.C := task2.C;
    task1.T := task2.T;

    task2.lambda := tmpLambda;
    task2.data := tmpData;
    task2.stackPos := tmpStackPos;
    task2.C := tmpC;
    task2.T := tmpT;
  }

  /** The inner loop of the sort: where the least period from index i on is. */
  method LeastPeriod(tasks: seq<Task>, i: nat) returns (min: nat)
    requires i < |tasks|
    ensures i <= min < |tasks| && forall k :: i <= k < |tasks| ==> Records(tasks)[min].T <= Records(tasks)[k].T
  {
    min := i;
    for j := i + 1 to |tasks|
      invariant i <= min < j && forall k :: i <= k < j ==> Records(tasks)[min].T <= Records(tasks)[k].T
    {
      if tasks[min].T > tasks[j].T {
        min := j;
      }
    }
  }

  /** The first i records are the i least, in order. */
  ghost predicate PrefixSorted(r: seq<Record>, i: nat)
  {
    && (forall j, k :: 0 <= j < k < |r| && j < i ==> r[j].T <= r[k].T)
  }

  lemma SwapSorts(r: seq<Record>, i: nat, min: nat)
    requires PrefixSorted(r, i) && i <= min < |r|
    requires forall k :: i <= k < |r| ==> r[min].T <= r[k].T
    ensures PrefixSorted(Swap(r, i, min), i + 1)
  {
  }

  /** The selection sort of task_create. */
  method SortTasks(tasks: seq<Task>)
    requires IsArray(tasks)
    modifies tasks
    ensures SortedByPeriod(Records(tasks)) && multiset(Records(tasks)) == multiset(old(Records(tasks)))
  {
    for i := 0 to |tasks|
      invariant PrefixSorted(Records(tasks), i)
      invariant multiset(Records(tasks)) == multiset(old(Records(tasks)))
    {
      var min := LeastPeriod(tasks, i);
      ghost var r := Records(tasks);
      SwapSorts(r, i, min);
      SwapPermutes(r, i, min);
      TaskExchange(tasks[i], tasks[min]);
      assert Records(tasks) == Swap(r, i, min);
    }
  }
}
