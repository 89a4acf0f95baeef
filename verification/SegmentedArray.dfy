/** UnboundedArray of arena.c: a growing array whose elements never move. */
module SegmentedArray {
  import opened ArenaModel

  const SEGMENTS: nat := 24

  // ----- where element i is

  /** The exact value of floor_log2, which the code computes in floating point. */
  function FloorLog2(x: nat): (k: nat)
    requires x > 0
    ensures Pow2(k) <= x < Pow2(k + 1)
  {
    if x == 1 then 0 else 1 + FloorLog2(x / 2)
  }

  /** The segment of element `i` and its place there. */
  function Slot(i: nat): (s: (nat, nat))
    ensures s.1 < Pow2(s.0)
  {
    var k := FloorLog2(i + 1);
    (k, i - (Pow2(k) - 1))
  }

  function IndexOf(segment: nat, offset: nat): nat {
    Pow2(segment) - 1 + offset
  }

  lemma {:induction false} Pow2Grows(i: nat, j: nat)
    requires i < j
    ensures 2 * Pow2(i) <= Pow2(j)
  {
    if i + 1 < j { Pow2Grows(i, j - 1); }
  }

  lemma LogIsUnique(x: nat, k: nat)
    requires x > 0 && Pow2(k) <= x < Pow2(k + 1)
    ensures FloorLog2(x) == k
  {
    var j := FloorLog2(x);
    if j < k { Pow2Grows(j, k); }
    if k < j { Pow2Grows(k, j); }
  }

  /** Indices and slots correspond one to one. */
  lemma SlotBijection(i: nat, segment: nat, offset: nat)
    requires offset < Pow2(segment)
    ensures IndexOf(Slot(i).0, Slot(i).1) == i
    ensures Slot(IndexOf(segment, offset)) == (segment, offset)
  {
    LogIsUnique(IndexOf(segment, offset) + 1, segment);
  }

  /** The first k segments hold exactly the indices below 2^k - 1. */
  lemma SlotInside(i: nat, k: nat)
    ensures Slot(i).0 < k <==> i < Pow2(k) - 1
  {
    var s := Slot(i).0;
    if s < k { Pow2Grows(s, k); } else if k < s { Pow2Grows(k, s); }
  }

  lemma SlotInjective(i: nat, j: nat)
    ensures Slot(i) == Slot(j) ==> i == j
  {
  }

  class UnboundedArray<T(0)> {
    const segmentTable: array<array?<T>>
    var elemCount: nat
    var capacity: nat
    ghost var segments: seq<array<T>>   // the segments allocated so far

    ghost predicate Valid()
      reads this, segmentTable, segments
    {
      Shaped() && (|segments| > 0 ==> Pow2(|segments| - 1) <= elemCount)
    }

    /** Segment k has 2^k places; there may be one more segment than the elements need. */
    ghost predicate Shaped()
      reads this, segmentTable, segments
    {
      && segmentTable.Length == SEGMENTS && |segments| <= SEGMENTS
      && (forall k :: 0 <= k < |segments| ==> segmentTable[k] == segments[k] && segments[k].Length == Pow2(k))
      && (forall k :: |segments| <= k < SEGMENTS ==> segmentTable[k] == null)
      && (forall j, k :: 0 <= j < k < |segments| ==> segments[j] != segments[k])
      && (forall k :: 0 <= k < |segments| ==> segments[k] as object != segmentTable)
      && capacity == Pow2(|segments|) - 1 && elemCount <= capacity
    }

    /** Element `i`, by the slot that the code computes. */
    ghost function At(i: nat): T
      requires Shaped() && i < capacity
      reads this, segmentTable, segments
    {
      SlotInside(i, |segments|);
      segments[Slot(i).0][Slot(i).1]
    }

    ghost function Contents(): (s: seq<T>)
      requires Shaped()
      reads this, segmentTable, segments
      ensures |s| == elemCount && forall i :: 0 <= i < elemCount ==> s[i] == At(i)
    {
      seq(elemCount, i requires Shaped() && 0 <= i < elemCount reads this, segmentTable, segments => At(i))
    }

    /** array_init */
    constructor ()
      ensures Valid() && Contents() == [] && fresh(segmentTable) && segments == []
    {
      segmentTable := new array?<T>[SEGMENTS](i => null);
      elemCount, capacity := 0, 0;
      segments := [];
    }

    /** array_elem_at_i: where element `i` is. */
    method ElemAt(i: nat) returns (segment: array<T>, offset: nat)
      requires Valid() && i < elemCount
      ensures Slot(i).0 < |segments| && segment == segments[Slot(i).0] && offset == Slot(i).1 < segment.Length
      ensures segment[offset] == Contents()[i]
    {
      SlotInside(i, |segments|);
      var segmentIndex := FloorLog2(i + 1);
      offset := i - (Pow2(segmentIndex) - 1);
      segment := segmentTable[segmentIndex];
    }

    /** array_get */
    method Get(i: nat) returns (elem: T)
      requires Valid() && i < elemCount
      ensures elem == Contents()[i]
    {
      var segment, offset := ElemAt(i);
      elem := segment[offset];
    }

    /** array_set: nothing but element `i` changes. */
    method Set(i: nat, elem: T)
      requires Valid() && i < elemCount
      modifies segments
      ensures Valid() && Contents() == old(Contents())[i := elem]
    {
      hide RoundUp;
      var segment, offset := ElemAt(i);
      segment[offset] := elem;
      assert Valid();
      forall j | 0 <= j < elemCount && j != i ensures At(j) == old(At(j)) {
        SlotInjective(i, j);
        SlotInside(j, |segments|);
      }
    }

    /** The segment table has room for 2^24 - 1 elements. */
    ghost predicate HasRoom()
      reads this
    {
      elemCount < capacity || |segments| < SEGMENTS
    }

    lemma RoomIff()
      requires Valid()
      ensures HasRoom() <==> elemCount < Pow2(SEGMENTS) - 1
    {
      if |segments| < SEGMENTS { Pow2Grows(|segments|, SEGMENTS); }
    }

    /** array_append: the contents grow by one element, no segment moves, and a new one is only
        made when the others are full. */
    method Append(elem: T)
      requires Valid() && HasRoom()
      modifies this, segmentTable, segments
      ensures Valid() && Contents() == old(Contents()) + [elem]
      ensures old(segments) <= segments && fresh(segments[|old(segments)|..])
      ensures segments == old(segments) <==> old(elemCount < capacity)
    {
      if elemCount >= capacity {
        Grow();
      }
      TakeSlot();
      Set(elemCount - 1, elem);
    }

    /** Counts the next slot as an element, whatever it holds. */
    method TakeSlot()
      requires Shaped() && elemCount < capacity && Pow2(|segments| - 1) <= elemCount + 1
      modifies this`elemCount
      ensures elemCount == old(elemCount) + 1 && Valid() && Contents()[..old(elemCount)] == old(Contents())
    {
      elemCount := elemCount + 1;
      assert Shaped();
      forall i | 0 <= i < elemCount - 1 ensures At(i) == old(At(i)) { SlotInside(i, |segments|); }
    }

    /** A new segment, as large as all others and one. */
    method Grow()
      requires Valid() && elemCount == capacity && |segments| < SEGMENTS
      modifies this`capacity, this`segments, segmentTable
      ensures |segments| == |old(segments)| + 1 && old(segments) <= segments && fresh(segments[|segments| - 1])
      ensures Shaped() && Contents() == old(Contents()) && Pow2(|segments| - 1) == elemCount + 1 <= capacity
    {
      hide FloorLog2;
      ghost var k := |segments|;
      LogIsUnique(elemCount + 1, k);
      var segmentIndex := FloorLog2(elemCount + 1);
      var segmentCapacity := Pow2(segmentIndex);
      var segment := new T[segmentCapacity];
      segmentTable[segmentIndex] := segment;
      segments := segments + [segment];
      capacity := capacity + segmentCapacity;
      assert Shaped();
      forall i | 0 <= i < elemCount ensures At(i) == old(At(i)) { SlotInside(i, k); }
    }
  }
}
