/** Bytes as sets of bit positions, and the table of kernel/sched/run_queue.c that
    maps a byte to the position of its lowest set bit. */
module Bits {

  function Mask(i: nat): bv8
    requires i < 8
  {
    (1 as bv8) << i
  }

  predicate Bit(b: bv8, i: nat)
    requires i < 8
  {
    b & Mask(i) != 0
  }

  lemma MaskValues()
    ensures Mask(0) == 1 && Mask(1) == 2 && Mask(2) == 4 && Mask(3) == 8
    ensures Mask(4) == 16 && Mask(5) == 32 && Mask(6) == 64 && Mask(7) == 128
  {
  }

  lemma SetBit(b: bv8, x: nat, i: nat)
    requires x < 8 && i < 8
    ensures Bit(b | Mask(x), i) <==> i == x || Bit(b, i)
  {
    MaskValues();
    var m, n := Mask(x), Mask(i);
    assert x != i ==> m & n == 0;
    assert (b | m) & n == (b & n) | (m & n);
  }

  lemma ClearBit(b: bv8, x: nat, i: nat)
    requires x < 8 && i < 8
    ensures Bit(b & !Mask(x), i) <==> i != x && Bit(b, i)
  {
    MaskValues();
  }

  lemma ZeroByte(b: bv8)
    ensures b == 0 <==> forall i :: 0 <= i < 8 ==> !Bit(b, i)
  {
    MaskValues();
    if b != 0 {
      assert Bit(b, 0) || Bit(b, 1) || Bit(b, 2) || Bit(b, 3) || Bit(b, 4) || Bit(b, 5) || Bit(b, 6) || Bit(b, 7);
    }
  }

  /** prio_unmap_table, one row for each high half of the index. */
  const UNMAP_TABLE: seq<seq<nat>> := [
    [0, 0, 1, 0, 2, 0, 1, 0, 3, 0, 1, 0, 2, 0, 1, 0],
    [4, 0, 1, 0, 2, 0, 1, 0, 3, 0, 1, 0, 2, 0, 1, 0],
    [5, 0, 1, 0, 2, 0, 1, 0, 3, 0, 1, 0, 2, 0, 1, 0],
    [4, 0, 1, 0, 2, 0, 1, 0, 3, 0, 1, 0, 2, 0, 1, 0],
    [6, 0, 1, 0, 2, 0, 1, 0, 3, 0, 1, 0, 2, 0, 1, 0],
    [4, 0, 1, 0, 2, 0, 1, 0, 3, 0, 1, 0, 2, 0, 1, 0],
    [5, 0, 1, 0, 2, 0, 1, 0, 3, 0, 1, 0, 2, 0, 1, 0],
    [4, 0, 1, 0, 2, 0, 1, 0, 3, 0, 1, 0, 2, 0, 1, 0],
    [7, 0, 1, 0, 2, 0, 1, 0, 3, 0, 1, 0, 2, 0, 1, 0],
    [4, 0, 1, 0, 2, 0, 1, 0, 3, 0, 1, 0, 2, 0, 1, 0],
    [5, 0, 1, 0, 2, 0, 1, 0, 3, 0, 1, 0, 2, 0, 1, 0],
    [4, 0, 1, 0, 2, 0, 1, 0, 3, 0, 1, 0, 2, 0, 1, 0],
    [6, 0, 1, 0, 2, 0, 1, 0, 3, 0, 1, 0, 2, 0, 1, 0],
    [4, 0, 1, 0, 2, 0, 1, 0, 3, 0, 1, 0, 2, 0, 1, 0],
    [5, 0, 1, 0, 2, 0, 1, 0, 3, 0, 1, 0, 2, 0, 1, 0],
    [4, 0, 1, 0, 2, 0, 1, 0, 3, 0, 1, 0, 2, 0, 1, 0]
  ]

  /** The table entry for byte 16 * r + c. */
  function Entry(r: nat, c: nat): nat
    requires r < 16 && c < 16
  {
    assert |UNMAP_TABLE[r]| == 16;
    UNMAP_TABLE[r][c]
  }

  function Unmap(b: bv8): nat
  {
    Entry((b >> 4) as nat, (b & 0x0f) as nat)
  }

  /** The lowest set bit of a non-zero number below 16. */
  function Lowest(c: nat): nat
  {
    if c % 2 == 1 then 0 else if c % 4 == 2 then 1 else if c % 8 == 4 then 2 else 3
  }

  lemma LowEntries(r: nat, c: nat)
    requires r < 16 && 0 < c < 16
    ensures Entry(r, c) == Lowest(c)
  {
    assert UNMAP_TABLE[r] == [UNMAP_TABLE[r][0], 0, 1, 0, 2, 0, 1, 0, 3, 0, 1, 0, 2, 0, 1, 0];
  }

  lemma HighEntries(r: nat)
    requires 0 < r < 16
    ensures Entry(r, 0) == 4 + Lowest(r)
  {
  }

  lemma LowNibble(b: bv8, k: nat)
    requires k < 4
    ensures Bit(b, k) <==> Bit(b & 0x0f, k)
  {
    MaskValues();
    assert (b & 0x0f) & Mask(k) == b & Mask(k);
  }

  lemma HighNibble(b: bv8, k: nat)
    requires k < 4
    ensures Bit(b, k + 4) <==> Bit(b >> 4, k)
  {
    MaskValues();
  }

  lemma LowestOfNibble(c: bv8)
    requires 0 < c < 16
    ensures Bit(c, Lowest(c as nat)) && forall j :: 0 <= j < Lowest(c as nat) ==> !Bit(c, j)
  {
    MaskValues();
    if c & 1 == 1 {
      assert c as nat % 2 == 1;
    } else if c & 2 == 2 {
    } else if c & 4 == 4 {
    } else {
      assert c == 8;
    }
  }

  /** Every non-zero byte maps to its lowest set bit. */
  lemma UnmapIsLowestBit(b: bv8)
    requires b != 0
    ensures Unmap(b) < 8 && Bit(b, Unmap(b))
    ensures forall j :: 0 <= j < Unmap(b) ==> !Bit(b, j)
  {
    var c, r := b & 0x0f, b >> 4;
    if c != 0 {
      LowEntries(r as nat, c as nat);
      LowestOfNibble(c);
      LowNibble(b, Lowest(c as nat));
      forall j | 0 <= j < Lowest(c as nat) ensures !Bit(b, j) {
        LowNibble(b, j);
      }
    } else {
      HighEntries(r as nat);
      LowestOfNibble(r);
      HighNibble(b, Lowest(r as nat));
      forall j | 0 <= j < 4 + Lowest(r as nat) ensures !Bit(b, j) {
        if j < 4 { LowNibble(b, j); } else { HighNibble(b, j - 4); }
      }
    }
  }

  /** A byte as the set of its bit positions. */
  ghost function Positions(b: bv8): (r: set<nat>)
    ensures forall i :: i in r ==> i < 8
  {
    set i | 0 <= i < 8 && Bit(b, i)
  }

  lemma PositionsOr(b: bv8, x: nat)
    requires x < 8
    ensures Positions(b | Mask(x)) == Positions(b) + {x}
  {
    forall i | 0 <= i < 8 ensures Bit(b | Mask(x), i) <==> i == x || Bit(b, i) {
      SetBit(b, x, i);
    }
  }

  lemma PositionsAndNot(b: bv8, x: nat)
    requires x < 8
    ensures Positions(b & !Mask(x)) == Positions(b) - {x}
  {
    forall i | 0 <= i < 8 ensures Bit(b & !Mask(x), i) <==> i != x && Bit(b, i) {
      ClearBit(b, x, i);
    }
  }

  lemma PositionsEmpty(b: bv8)
    ensures Positions(b) == {} <==> b == 0
  {
    ZeroByte(b);
    if b != 0 {
      var i :| 0 <= i < 8 && Bit(b, i);
      assert i in Positions(b);
    }
  }

  lemma UnmapIsMinimum(b: bv8)
    ensures Unmap(b) < 8
    ensures b == 0 ==> Unmap(b) == 0
    ensures b != 0 ==> Unmap(b) in Positions(b) && forall j :: j in Positions(b) ==> Unmap(b) <= j
  {
    if b != 0 {
      UnmapIsLowestBit(b);
    }
  }
}
