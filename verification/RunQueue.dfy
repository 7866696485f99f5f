/** The run queue of kernel/sched/run_queue.c: one slot for each of the 64 priorities,
    and a two-level trie of bytes that finds the most urgent occupied slot. */
module RunQueues {
  import opened Bits
  import opened Config
  import opened Tcbs

  /** Element x of row y says whether slot 8y+x is occupied. */
  ghost predicate SlotBit(list: seq<Tcb?>, rows: seq<set<nat>>, p: nat)
    requires |list| == OS_MAX_TASKS && |rows| == 8 && p < OS_MAX_TASKS
  {
    p % 8 in rows[p / 8] <==> list[p] != null
  }

  /** Element y of the group says whether row y has any element. */
  ghost predicate GroupBit(rows: seq<set<nat>>, group: set<nat>, y: nat)
    requires |rows| == 8 && y < 8
  {
    y in group <==> rows[y] != {}
  }

  /** The two levels of the trie agree with the list. Bytes appear as sets of bit positions. */
  ghost predicate TrieOk(list: seq<Tcb?>, rows: seq<set<nat>>, group: set<nat>)
  {
    && |list| == OS_MAX_TASKS && |rows| == 8
    && (forall p :: 0 <= p < OS_MAX_TASKS ==> SlotBit(list, rows, p))
    && (forall y :: 0 <= y < 8 ==> GroupBit(rows, group, y))
    && (forall y, x :: 0 <= y < 8 && x in rows[y] ==> x < 8)
    && (forall y :: y in group ==> y < 8)
  }

  /** The priorities with a runnable task. */
  ghost function Occupied(list: seq<Tcb?>): set<nat>
  {
    set p | 0 <= p < |list| && list[p] != null
  }

  ghost function Rows(bits: seq<bv8>): seq<set<nat>>
  {
    seq(|bits|, i requires 0 <= i < |bits| => Positions(bits[i]))
  }

  lemma SlotDigits(p: nat, y: nat, x: nat)
    requires x < 8
    ensures p == y * 8 + x <==> p / 8 == y && p % 8 == x
  {
  }

  lemma EmptyTrie(list: seq<Tcb?>, rows: seq<set<nat>>)
    requires |list| == OS_MAX_TASKS && |rows| == 8
    requires forall p :: 0 <= p < OS_MAX_TASKS ==> list[p] == null
    requires forall y :: 0 <= y < 8 ==> rows[y] == {}
    ensures TrieOk(list, rows, {})
  {
  }

  lemma TrieAdd(list: seq<Tcb?>, rows: seq<set<nat>>, group: set<nat>, y: nat, x: nat, tcb: Tcb)
    requires TrieOk(list, rows, group) && y < 8 && x < 8
    ensures TrieOk(list[y * 8 + x := tcb], rows[y := rows[y] + {x}], group + {y})
  {
    var list', rows' := list[y * 8 + x := tcb], rows[y := rows[y] + {x}];
    forall p | 0 <= p < OS_MAX_TASKS ensures SlotBit(list', rows', p) {
      assert SlotBit(list, rows, p);
      SlotDigits(p, y, x);
    }
    var group' := group + {y};
    forall z | 0 <= z < 8 ensures GroupBit(rows', group', z) {
      assert GroupBit(rows, group, z);
      assert x in rows'[y];
    }
  }

  lemma TrieRemove(list: seq<Tcb?>, rows: seq<set<nat>>, group: set<nat>, y: nat, x: nat)
    requires TrieOk(list, rows, group) && y < 8 && x < 8
    ensures var row := rows[y] - {x};
      TrieOk(list[y * 8 + x := null], rows[y := row], if row == {} then group - {y} else group)
  {
    var row := rows[y] - {x};
    var list', rows' := list[y * 8 + x := null], rows[y := row];
    var group' := if row == {} then group - {y} else group;
    forall p | 0 <= p < OS_MAX_TASKS ensures SlotBit(list', rows', p) {
      assert SlotBit(list, rows, p);
      SlotDigits(p, y, x);
    }
    forall z | 0 <= z < 8 ensures GroupBit(rows', group', z) {
      assert GroupBit(rows, group, z);
    }
  }

  /** The first row of the group and the first element of that row lead to the least
      occupied slot. */
  lemma TrieFindsMinimum(list: seq<Tcb?>, rows: seq<set<nat>>, group: set<nat>, y: nat, x: nat)
    requires TrieOk(list, rows, group)
    requires y in group && forall z :: z in group ==> y <= z
    requires x in rows[y] && forall z :: z in rows[y] ==> x <= z
    ensures y * 8 + x in Occupied(list)
    ensures forall q :: q in Occupied(list) ==> y * 8 + x <= q
  {
    SlotDigits(y * 8 + x, y, x);
    assert SlotBit(list, rows, y * 8 + x);
    forall q | q in Occupied(list) ensures y * 8 + x <= q {
      assert SlotBit(list, rows, q) && GroupBit(rows, group, q / 8);
      assert q / 8 == y ==> x <= q % 8;
    }
  }

  lemma EmptyGroup(list: seq<Tcb?>, rows: seq<set<nat>>, group: set<nat>)
    requires TrieOk(list, rows, group)
    ensures group == {} <==> Occupied(list) == {}
  {
    forall q | q in Occupied(list) ensures group != {} {
      assert SlotBit(list, rows, q) && GroupBit(rows, group, q / 8);
    }
    forall y | y in group ensures Occupied(list) != {} {
      assert GroupBit(rows, group, y);
      var x :| x in rows[y];
      SlotDigits(y * 8 + x, y, x);
      assert SlotBit(list, rows, y * 8 + x);
      assert y * 8 + x in Occupied(list);
    }
  }

  lemma RowsUpdate(bits: seq<bv8>, y: nat, b: bv8)
    requires y < |bits|
    ensures Rows(bits[y := b]) == Rows(bits)[y := Positions(b)]
  {
  }

  /** TrieAdd, in terms of the bytes that the code writes. */
  lemma BytesAdd(list: seq<Tcb?>, bits: seq<bv8>, group: bv8, prio: nat, tcb: Tcb,
                 list': seq<Tcb?>, bits': seq<bv8>, group': bv8)
    requires TrieOk(list, Rows(bits), Positions(group)) && prio < OS_MAX_TASKS
    requires list' == list[prio := tcb] && group' == group | Mask(prio / 8)
    requires bits' == bits[prio / 8 := bits[prio / 8] | Mask(prio % 8)]
    ensures TrieOk(list', Rows(bits'), Positions(group'))
  {
    var y, x := prio / 8, prio % 8;
    PositionsOr(group, y);
    PositionsOr(bits[y], x);
    RowsUpdate(bits, y, bits[y] | Mask(x));
    TrieAdd(list, Rows(bits), Positions(group), y, x, tcb);
  }

  /** TrieRemove, in terms of the bytes that the code writes. */
  lemma BytesRemove(list: seq<Tcb?>, bits: seq<bv8>, group: bv8, prio: nat,
                    list': seq<Tcb?>, bits': seq<bv8>, group': bv8)
    requires TrieOk(list, Rows(bits), Positions(group)) && prio < OS_MAX_TASKS
    requires list' == list[prio := null]
    requires bits' == bits[prio / 8 := bits[prio / 8] & !Mask(prio % 8)]
    requires group' == if bits'[prio / 8] == 0 then group & !Mask(prio / 8) else group
    ensures TrieOk(list', Rows(bits'), Positions(group'))
  {
    var y, x := prio / 8, prio % 8;
    var row := Rows(bits)[y] - {x};
    assert Positions(bits'[y]) == row by { PositionsAndNot(bits[y], x); }
    assert Rows(bits') == Rows(bits)[y := row] by { RowsUpdate(bits, y, bits'[y]); }
    assert row == {} <==> bits'[y] == 0 by { PositionsEmpty(bits'[y]); }
    assert Positions(group') == if row == {} then Positions(group) - {y} else Positions(group) by {
      PositionsAndNot(group, y);
    }
    TrieRemove(list, Rows(bits), Positions(group), y, x);
  }

  class RunQueue {
    const runList: array<Tcb?>
    const runBits: array<bv8>
    var groupRunBits: bv8

    ghost predicate Valid()
      reads this, runList, runBits
    {
      TrieOk(runList[..], Rows(runBits[..]), Positions(groupRunBits))
    }

    constructor ()
      ensures Valid() && fresh(runList) && fresh(runBits)
      ensures forall p :: 0 <= p < OS_MAX_TASKS ==> runList[p] == null
    {
      runList := new Tcb?[OS_MAX_TASKS];
      runBits := new bv8[8];
      groupRunBits := 0;
      new;
      Init();
    }

    /** runqueue_init: whatever the arrays held before. */
    method Init()
      requires runList.Length == OS_MAX_TASKS && runBits.Length == 8
      modifies this, runList, runBits
      ensures Valid()
      ensures forall p :: 0 <= p < OS_MAX_TASKS ==> runList[p] == null
    {
      groupRunBits := 0;
      for i := 0 to OS_MAX_TASKS / 8
        invariant groupRunBits == 0
        invariant forall y :: 0 <= y < i ==> runBits[y] == 0
      {
        runBits[i] := 0;
      }
      for i := 0 to OS_MAX_TASKS
        invariant groupRunBits == 0
        invariant forall y :: 0 <= y < 8 ==> runBits[y] == 0
        invariant forall p :: 0 <= p < i ==> runList[p] == null
      {
        runList[i] := null;
      }
      PositionsEmpty(0);
      EmptyTrie(runList[..], Rows(runBits[..]));
    }

    /** runqueue_add */
    method Add(tcb: Tcb, prio: nat)
      requires Valid() && prio < OS_MAX_TASKS
      modifies this, runList, runBits
      ensures Valid() && runList[..] == old(runList[..])[prio := tcb]
    {
      var y, x := prio / 8, prio % 8;
      groupRunBits := groupRunBits | Mask(y);
      runBits[y] := runBits[y] | Mask(x);
      runList[prio] := tcb;
      BytesAdd(old(runList[..]), old(runBits[..]), old(groupRunBits), prio, tcb,
               runList[..], runBits[..], groupRunBits);
    }

    /** runqueue_remove */
    method Remove(prio: nat) returns (tcb: Tcb?)
      requires Valid() && prio < OS_MAX_TASKS
      modifies this, runList, runBits
      ensures Valid() && tcb == old(runList[prio])
      ensures runList[..] == old(runList[..])[prio := null]
    {
      tcb := runList[prio];
      runList[prio] := null;
      var y, x := prio / 8, prio % 8;
      runBits[y] := runBits[y] & !Mask(x);
      if runBits[y] == 0 {
        groupRunBits := groupRunBits & !Mask(y);
      }
      BytesRemove(old(runList[..]), old(runBits[..]), old(groupRunBits), prio,
                  runList[..], runBits[..], groupRunBits);
    }

    /** highest_prio: the most urgent (lowest) occupied priority. On an empty queue it
        answers 0, not the idle priority that the comment on dispatch_save expects. */
    method HighestPrio() returns (prio: nat)
      requires Valid()
      ensures Occupied(runList[..]) != {} ==>
        prio in Occupied(runList[..]) && forall q :: q in Occupied(runList[..]) ==> prio <= q
      ensures Occupied(runList[..]) == {} ==> prio == 0
    {
      UnmapIsMinimum(groupRunBits);
      var y := Unmap(groupRunBits);
      UnmapIsMinimum(runBits[y]);
      var x := Unmap(runBits[y]);
      prio := y * 8 + x;
      PositionsEmpty(groupRunBits);
      EmptyGroup(runList[..], Rows(runBits[..]), Positions(groupRunBits));
      assert GroupBit(Rows(runBits[..]), Positions(groupRunBits), y);
      PositionsEmpty(runBits[y]);
      if groupRunBits != 0 {
        TrieFindsMinimum(runList[..], Rows(runBits[..]), Positions(groupRunBits), y, x);
      }
    }
  }
}
