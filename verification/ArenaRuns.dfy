/** What every run of init_memory, arena_push and arena_delete keeps. */
module ArenaRuns {
  import opened PageRanges
  import opened ArenaModel

  /** A block that was carved off for an arena and is not in its list yet. */
  datatype Pending = Pending(arena: nat, range: Range)

  function PendingOf(ps: seq<Pending>, a: nat, x: int): nat {
    if ps == [] then 0
    else (if ps[0].arena == a && ps[0].range.Has(x) then 1 else 0) + PendingOf(ps[1..], a, x)
  }

  function PendingAll(ps: seq<Pending>, x: int): nat {
    if ps == [] then 0 else (if ps[0].range.Has(x) then 1 else 0) + PendingAll(ps[1..], x)
  }

  function OwnedAll(arenas: seq<ArenaState>, x: int): nat {
    if arenas == [] then 0 else Count(arenas[0].owned, x) + OwnedAll(arenas[1..], x)
  }

  function Bit(b: bool): nat {
    if b then 1 else 0
  }

  function Window(s: ArenaState, x: int): nat {
    Bit(s.avail <= x < s.limit)
  }

  // ----- the invariant

  /** Whole pages, counted from the start of the reserved memory. */
  predicate Paged(m: Memory, r: Range)
    requires m.pageSize > 0
  {
    r.lo <= r.hi && (r.lo - m.start) % m.pageSize == 0 && (r.hi - m.start) % m.pageSize == 0
  }

  ghost predicate AllPaged(m: Memory, rs: seq<Range>)
    requires m.pageSize > 0
  {
    forall i :: 0 <= i < |rs| ==> Paged(m, rs[i])
  }

  /** Blocks are whole pages, windows are well formed. */
  ghost predicate Shaped(m: Memory) {
    && Usable(m)
    && AllPaged(m, m.free)
    && (forall b :: 0 <= b < |m.arenas| ==> AllPaged(m, m.arenas[b].owned))
    && (forall b :: 0 <= b < |m.arenas| ==> m.arenas[b].avail <= m.arenas[b].limit)
  }

  /** Each reserved byte is in exactly one block of the free list, of an arena or in flight;
      no other byte is in any. */
  ghost predicate Partitioned(m: Memory, ps: seq<Pending>, x: int) {
    Count(m.free, x) + OwnedAll(m.arenas, x) + PendingAll(ps, x) == Bit(m.start <= x < m.end)
  }

  /** Each byte of an arena's pages is handed out at most once and, if so, is not in its
      window; nothing else is handed out. */
  ghost predicate Served(m: Memory, ps: seq<Pending>, x: int) {
    forall b :: 0 <= b < |m.arenas| ==> ServedBy(m.arenas[b], PendingOf(ps, b, x), x)
  }

  ghost predicate ServedBy(s: ArenaState, pending: nat, x: int) {
    Count(s.handed, x) + Window(s, x) <= Count(s.owned, x) + pending
  }

  ghost predicate InvAt(m: Memory, ps: seq<Pending>, x: int) {
    Partitioned(m, ps, x) && Served(m, ps, x)
  }

  ghost predicate Inv(m: Memory) {
    Shaped(m) && forall x :: InvAt(m, [], x)
  }

  // ----- sums

  lemma {:induction false} OwnedUpdate(arenas: seq<ArenaState>, a: nat, s: ArenaState, x: int)
    requires a < |arenas|
    ensures OwnedAll(arenas[a := s], x) + Count(arenas[a].owned, x) == OwnedAll(arenas, x) + Count(s.owned, x)
  {
    if a == 0 {
      assert arenas[0 := s][1..] == arenas[1..];
    } else {
      OwnedUpdate(arenas[1..], a - 1, s, x);
      assert arenas[a := s][1..] == arenas[1..][a - 1 := s];
    }
  }

  lemma {:induction false} OwnedSome(arenas: seq<ArenaState>, a: nat, x: int)
    requires a < |arenas|
    ensures OwnedAll(arenas, x) >= Count(arenas[a].owned, x)
  {
    if a > 0 { OwnedSome(arenas[1..], a - 1, x); }
  }

  lemma {:induction false} OwnedTwo(arenas: seq<ArenaState>, a: nat, b: nat, x: int)
    requires a < b < |arenas|
    ensures OwnedAll(arenas, x) >= Count(arenas[a].owned, x) + Count(arenas[b].owned, x)
  {
    if a == 0 { OwnedSome(arenas[1..], b - 1, x); } else { OwnedTwo(arenas[1..], a - 1, b - 1, x); }
  }

  lemma {:induction false} CountUpdate(rs: seq<Range>, i: nat, r: Range, x: int)
    requires i < |rs|
    ensures Count(rs[i := r], x) + Bit(rs[i].Has(x)) == Count(rs, x) + Bit(r.Has(x))
  {
    if i == 0 {
      assert rs[0 := r][1..] == rs[1..];
    } else {
      CountUpdate(rs[1..], i - 1, r, x);
      assert rs[i := r][1..] == rs[1..][i - 1 := r];
    }
  }

  // ----- steps

  lemma PagedSize(m: Memory, r: Range, size: nat)
    requires m.pageSize > 0 && Paged(m, r) && r.Size() >= size
    ensures RoundUp(size, m.pageSize) <= r.Size()
  {
    var n := m.pageSize;
    var a, b := (r.lo - m.start) / n, (r.hi - m.start) / n;
    DivExact(r.lo - m.start, n);
    DivExact(r.hi - m.start, n);
    MulSub(a, b, n);
    MultipleFits(size, n, b - a);
  }

  lemma DivExact(x: int, n: nat)
    requires n > 0 && x % n == 0
    ensures x == x / n * n
  {
  }

  /** The least multiple of n that holds `size` is below any other that does. */
  lemma MultipleFits(size: nat, n: nat, k: int)
    requires n > 0 && k * n >= size
    ensures RoundUp(size, n) <= k * n
  {
    RoundUpBounds(size, n);
    var q := (size + n - 1) / n;
    if q > k {
      MulMonotone(k + 1, q, n);
      MulSub(0, k, n);
    }
  }

  lemma MulSub(a: int, b: int, n: int)
    ensures (b - a) * n == b * n - a * n
    ensures (b - a + 1) * n == (b - a) * n + n
  {
  }

  /** A block found for `size` bytes fits the rounded size, so the assertion in the refill
      never fails. */
  lemma FirstFitFits(m: Memory, size: nat)
    requires Shaped(m)
    ensures var i := FirstFit(m.free, size);
            i < |m.free| ==> RoundUp(size, m.pageSize) <= m.free[i].Size()
  {
    var i := FirstFit(m.free, size);
    if i < |m.free| { PagedSize(m, m.free[i], size); }
  }

  lemma PagedAdd(m: Memory, lo: int, bytes: nat)
    requires m.pageSize > 0 && (lo - m.start) % m.pageSize == 0 && bytes % m.pageSize == 0
    ensures (lo + bytes - m.start) % m.pageSize == 0
  {
    var n := m.pageSize;
    var a, k := (lo - m.start) / n, bytes / n;
    assert lo + bytes - m.start == (a + k) * n by { MulAdd(a, k, n); }
    MultipleMod(a + k, n);
  }

  lemma MulAdd(a: int, b: int, n: int)
    ensures (a + b) * n == a * n + b * n
  {
  }

  lemma CarveShaped(m: Memory, a: nat, i: nat, bytes: nat)
    requires Shaped(m) && a < |m.arenas| && i < |m.free| && bytes <= m.free[i].Size() && bytes % m.pageSize == 0
    ensures Shaped(Carve(m, a, i, bytes)) && Paged(m, Range(m.free[i].lo, m.free[i].lo + bytes))
  {
    PagedAdd(m, m.free[i].lo, bytes);
  }

  lemma CarveInv(m: Memory, ps: seq<Pending>, a: nat, i: nat, bytes: nat, x: int)
    requires Shaped(m) && a < |m.arenas| && i < |m.free| && bytes <= m.free[i].Size() && InvAt(m, ps, x)
    ensures var p := Pending(a, Range(m.free[i].lo, m.free[i].lo + bytes));
            InvAt(Carve(m, a, i, bytes), [p] + ps, x)
  {
    var r := Range(m.free[i].lo, m.free[i].lo + bytes);
    var m' := Carve(m, a, i, bytes);
    var ps' := [Pending(a, r)] + ps;
    CountUpdate(m.free, i, Range(m.free[i].lo + bytes, m.free[i].hi), x);
    OwnedUpdate(m.arenas, a, m'.arenas[a], x);
    assert ps'[1..] == ps;
    forall b | 0 <= b < |m'.arenas| ensures ServedBy(m'.arenas[b], PendingOf(ps', b, x), x) {
      assert ServedBy(m.arenas[b], PendingOf(ps, b, x), x);
    }
  }

  lemma AdoptInv(m: Memory, ps: seq<Pending>, a: nat, r: Range, x: int)
    requires Shaped(m) && a < |m.arenas| && r.lo <= r.hi && InvAt(m, [Pending(a, r)] + ps, x)
    ensures InvAt(Adopt(m, a, r), ps, x)
  {
    var ps' := [Pending(a, r)] + ps;
    var m' := Adopt(m, a, r);
    assert ps'[1..] == ps;
    InsertCovers(m.arenas[a].owned, r, x);
    CountOne(r, x);
    OwnedUpdate(m.arenas, a, m'.arenas[a], x);
    forall b | 0 <= b < |m'.arenas| ensures ServedBy(m'.arenas[b], PendingOf(ps, b, x), x) {
      assert ServedBy(m.arenas[b], PendingOf(ps', b, x), x);
    }
  }

  lemma JoinRightPaged(m: Memory, n: Range, rs: seq<Range>)
    requires m.pageSize > 0 && AllPaged(m, rs) && Paged(m, n)
    ensures AllPaged(m, JoinRight(n, rs))
  {
  }

  lemma InsertPaged(m: Memory, rs: seq<Range>, r: Range)
    requires m.pageSize > 0 && AllPaged(m, rs) && Paged(m, r)
    ensures AllPaged(m, InsertCoalesce(rs, r))
  {
    var at := LeftNeighbour(rs, r.lo);
    if at == |rs| {
      JoinRightPaged(m, r, rs);
    } else if rs[at].hi == r.lo {
      JoinRightPaged(m, Range(rs[at].lo, r.hi), rs[at + 1..]);
    } else {
      JoinRightPaged(m, r, rs[at + 1..]);
    }
  }

  lemma AdoptShaped(m: Memory, a: nat, r: Range)
    requires Shaped(m) && a < |m.arenas| && Paged(m, r)
    ensures Shaped(Adopt(m, a, r))
  {
    InsertPaged(m, m.arenas[a].owned, r);
  }

  lemma BumpInv(m: Memory, ps: seq<Pending>, a: nat, size: nat, x: int)
    requires Shaped(m) && a < |m.arenas| && InvAt(m, ps, x)
    requires m.arenas[a].avail + size <= m.arenas[a].limit
    ensures var r := Bump(m, a, size); Shaped(r.mem) && InvAt(r.mem, ps, x)
  {
    hide Count;
    var s := m.arenas[a];
    var m' := Bump(m, a, size).mem;
    var n := Range(s.avail, s.avail + size);
    CountCat(s.handed, [n], x);
    CountOne(n, x);
    OwnedUpdate(m.arenas, a, m'.arenas[a], x);
    forall b | 0 <= b < |m'.arenas| ensures ServedBy(m'.arenas[b], PendingOf(ps, b, x), x) {
      assert ServedBy(m.arenas[b], PendingOf(ps, b, x), x);
    }
  }

  lemma ShapedUsable(m: Memory, a: nat)
    requires Shaped(m) && a < |m.arenas|
    ensures Usable(m) && m.arenas[a].avail <= m.arenas[a].limit
  {
  }

  lemma BumpKeeps(m: Memory, ps: seq<Pending>, a: nat, size: nat)
    requires Shaped(m) && a < |m.arenas| && m.arenas[a].avail + size <= m.arenas[a].limit
    requires forall x :: InvAt(m, ps, x)
    ensures var r := Bump(m, a, size); Shaped(r.mem) && forall x :: InvAt(r.mem, ps, x)
  {
    hide InvAt;
    BumpInv(m, ps, a, size, 0);
    forall x ensures InvAt(Bump(m, a, size).mem, ps, x) { BumpInv(m, ps, a, size, x); }
  }

  // ----- arena_push

  /** Nothing but the descriptor arena and the arena itself changes. */
  lemma {:induction false} PushFrame(m: Memory, a: nat, size: nat, b: nat)
    requires Usable(m) && a < |m.arenas| && size > 0 && (a == 0 ==> size == DESCRIPTOR_SIZE)
    requires Push(m, a, size).Pushed? && b < |m.arenas| && b != a && b != 0
    ensures Push(m, a, size).mem.arenas[b] == m.arenas[b]
    decreases Depth(m, a, size)
  {
    if m.arenas[a].Full(size) {
      var i := FirstFit(m.free, size);
      RoundUpBounds(size, m.pageSize);
      var c := Carve(m, a, i, RoundUp(size, m.pageSize));
      if c.recycled == 0 { PushFrame(c, 0, DESCRIPTOR_SIZE, b); }
    }
  }

  lemma PushKeepsBounds(m: Memory, a: nat, size: nat)
    requires Usable(m) && a < |m.arenas| && size > 0 && (a == 0 ==> size == DESCRIPTOR_SIZE)
    requires Push(m, a, size).Pushed?
    ensures Push(m, a, size).mem.start == m.start && Push(m, a, size).mem.end == m.end
    decreases Depth(m, a, size)
  {
    if m.arenas[a].Full(size) {
      var i := FirstFit(m.free, size);
      RoundUpBounds(size, m.pageSize);
      var c := Carve(m, a, i, RoundUp(size, m.pageSize));
      if c.recycled == 0 { PushKeepsBounds(c, 0, DESCRIPTOR_SIZE); }
    }
  }

  /** After a refill of arena `a`, and the descriptor allocation that goes with it, the new
      window still has room for the request. */
  lemma RoomAfterRefill(m: Memory, a: nat, i: nat, size: nat)
    requires Shaped(m) && a < |m.arenas| && size > 0 && (a == 0 ==> size == DESCRIPTOR_SIZE) && i < |m.free|
    requires var c := Carve(m, a, i, RoundUp(size, m.pageSize)); NewDescriptor(c).Pushed?
    ensures var c := Carve(m, a, i, RoundUp(size, m.pageSize)); var d := NewDescriptor(c).mem;
            && d.arenas[a].avail + size <= d.arenas[a].limit
            && d.arenas[a].owned == m.arenas[a].owned
  {
    var c := Carve(m, a, i, RoundUp(size, m.pageSize));
    RoundUpBounds(size, m.pageSize);
    if c.recycled == 0 && a != 0 { PushFrame(c, 0, DESCRIPTOR_SIZE, a); }
  }

  /** A push keeps the whole invariant, with any blocks in flight, and never ends in the
      failed assertion of the refill. */
  lemma {:induction false} PushKeeps(m: Memory, ps: seq<Pending>, a: nat, size: nat)
    requires Shaped(m) && a < |m.arenas| && size > 0 && (a == 0 ==> size == DESCRIPTOR_SIZE)
    requires forall x :: InvAt(m, ps, x)
    ensures !Push(m, a, size).AssertFailed?
    ensures Push(m, a, size).Pushed? ==>
            Shaped(Push(m, a, size).mem) && forall x :: InvAt(Push(m, a, size).mem, ps, x)
    decreases Depth(m, a, size), 0
  {
    hide InvAt;
    hide Shaped;
    hide Freed;
    assert Usable(m) && m.arenas[a].avail <= m.arenas[a].limit by { ShapedUsable(m, a); }
    if !m.arenas[a].Full(size) {
      assert Push(m, a, size) == Bump(m, a, size);
      BumpKeeps(m, ps, a, size);
    } else {
      FirstFitFits(m, size);
      RoundUpBounds(size, m.pageSize);
      var i := FirstFit(m.free, size);
      if i < |m.free| {
        var r := Range(m.free[i].lo, m.free[i].lo + RoundUp(size, m.pageSize));
        var c := Carve(m, a, i, RoundUp(size, m.pageSize));
        CarveKeeps(m, ps, a, i, RoundUp(size, m.pageSize));
        DescriptorKeeps(c, [Pending(a, r)] + ps);
        if NewDescriptor(c).Pushed? {
          NewDescriptorBounds(c);
          RoomAfterRefill(m, a, i, size);
          FinishPush(NewDescriptor(c).mem, ps, a, r, size);
          assert Push(m, a, size) == Bump(Adopt(NewDescriptor(c).mem, a, r), a, size);
        }
      }
    }
  }

  lemma {:induction false} DescriptorKeeps(m: Memory, ps: seq<Pending>)
    requires Shaped(m) && forall x :: InvAt(m, ps, x)
    ensures !NewDescriptor(m).AssertFailed?
    ensures NewDescriptor(m).Pushed? ==>
            Shaped(NewDescriptor(m).mem) && forall x :: InvAt(NewDescriptor(m).mem, ps, x)
    decreases Depth(m, 0, DESCRIPTOR_SIZE), 1
  {
    if m.recycled == 0 {
      PushKeeps(m, ps, 0, DESCRIPTOR_SIZE);
    } else {
      RecycledKeeps(m, ps);
    }
  }

  lemma CarveKeeps(m: Memory, ps: seq<Pending>, a: nat, i: nat, bytes: nat)
    requires Shaped(m) && a < |m.arenas| && i < |m.free| && bytes <= m.free[i].Size() && bytes % m.pageSize == 0
    requires forall x :: InvAt(m, ps, x)
    ensures var r := Range(m.free[i].lo, m.free[i].lo + bytes); var c := Carve(m, a, i, bytes);
            Shaped(c) && Paged(c, r) && forall x :: InvAt(c, [Pending(a, r)] + ps, x)
  {
    CarveShaped(m, a, i, bytes);
    var r := Range(m.free[i].lo, m.free[i].lo + bytes);
    forall x ensures InvAt(Carve(m, a, i, bytes), [Pending(a, r)] + ps, x) { CarveInv(m, ps, a, i, bytes, x); }
  }

  lemma RecycledKeeps(m: Memory, ps: seq<Pending>)
    requires Shaped(m) && m.recycled > 0 && forall x :: InvAt(m, ps, x)
    ensures var d := NewDescriptor(m); d.Pushed? && Shaped(d.mem) && forall x :: InvAt(d.mem, ps, x)
  {
    forall x ensures InvAt(NewDescriptor(m).mem, ps, x) { RecycledInv(m, ps, x); }
  }

  lemma RecycledInv(m: Memory, ps: seq<Pending>, x: int)
    requires Usable(m) && m.recycled > 0 && InvAt(m, ps, x)
    ensures InvAt(NewDescriptor(m).mem, ps, x)
  {
    var m' := NewDescriptor(m).mem;
    forall b | 0 <= b < |m'.arenas| ensures ServedBy(m'.arenas[b], PendingOf(ps, b, x), x) {
      assert ServedBy(m.arenas[b], PendingOf(ps, b, x), x);
    }
  }

  lemma NewDescriptorBounds(m: Memory)
    requires Usable(m) && NewDescriptor(m).Pushed?
    ensures var d := NewDescriptor(m).mem;
            d.pageSize == m.pageSize && d.start == m.start && d.end == m.end && |d.arenas| == |m.arenas|
  {
    if m.recycled == 0 { PushKeepsBounds(m, 0, DESCRIPTOR_SIZE); }
  }

  /** The end of a refill: the block in flight joins the arena's pages, the request is served. */
  lemma FinishPush(d: Memory, ps: seq<Pending>, a: nat, r: Range, size: nat)
    requires Shaped(d) && a < |d.arenas| && Paged(d, r)
    requires forall x :: InvAt(d, [Pending(a, r)] + ps, x)
    requires d.arenas[a].avail + size <= d.arenas[a].limit
    ensures var m' := Bump(Adopt(d, a, r), a, size).mem; Shaped(m') && forall x :: InvAt(m', ps, x)
  {
    AdoptShaped(d, a, r);
    forall x ensures InvAt(Bump(Adopt(d, a, r), a, size).mem, ps, x) {
      AdoptInv(d, ps, a, r, x);
      BumpInv(Adopt(d, a, r), ps, a, size, x);
    }
    AdoptInv(d, ps, a, r, 0);
    BumpInv(Adopt(d, a, r), ps, a, size, 0);
  }

  // ----- arena_delete

  lemma {:induction false} ReleaseCovers(m: Memory, free: seq<Range>, blocks: seq<Range>, x: int)
    requires m.pageSize > 0 && AllPaged(m, free) && AllPaged(m, blocks)
    ensures var r := Release(free, blocks);
            AllPaged(m, r) && Count(r, x) == Count(free, x) + Count(blocks, x)
    decreases |blocks|
  {
    if blocks != [] {
      InsertCovers(free, blocks[0], x);
      CountOne(blocks[0], x);
      InsertPaged(m, free, blocks[0]);
      ReleaseCovers(m, InsertCoalesce(free, blocks[0]), blocks[1..], x);
    }
  }

  lemma SamePages(m: Memory, m': Memory, rs: seq<Range>)
    requires m.pageSize == m'.pageSize > 0 && m.start == m'.start && AllPaged(m, rs)
    ensures AllPaged(m', rs)
  {
    forall i | 0 <= i < |rs| ensures Paged(m', rs[i]) { assert Paged(m, rs[i]); }
  }

  lemma DeleteShaped(m: Memory, a: nat)
    requires Shaped(m) && a < |m.arenas|
    ensures Shaped(Delete(m, a))
  {
    var m' := Delete(m, a);
    ReleaseCovers(m, m.free, m.arenas[a].owned, 0);
    SamePages(m, m', m'.free);
    forall b | 0 <= b < |m'.arenas| ensures AllPaged(m', m'.arenas[b].owned) {
      if b != a { SamePages(m, m', m.arenas[b].owned); }
    }
  }

  lemma DeleteInv(m: Memory, a: nat, x: int)
    requires Shaped(m) && a < |m.arenas| && InvAt(m, [], x)
    ensures InvAt(Delete(m, a), [], x)
  {
    ReleaseCovers(m, m.free, m.arenas[a].owned, x);
    OwnedUpdate(m.arenas, a, ZEROED, x);
    var m' := Delete(m, a);
    forall b | 0 <= b < |m'.arenas| ensures ServedBy(m'.arenas[b], PendingOf([], b, x), x) {
      assert ServedBy(m.arenas[b], PendingOf([], b, x), x);
    }
  }

  /** arena_delete keeps the invariant. */
  lemma DeleteKeeps(m: Memory, a: nat)
    requires Inv(m) && a < |m.arenas|
    ensures Inv(Delete(m, a))
  {
    DeleteShaped(m, a);
    forall x ensures InvAt(Delete(m, a), [], x) { DeleteInv(m, a, x); }
  }

  // ----- descriptors

  function OwnedBlocks(arenas: seq<ArenaState>): nat {
    if arenas == [] then 0 else |arenas[0].owned| + OwnedBlocks(arenas[1..])
  }

  lemma {:induction false} BlocksUpdate(arenas: seq<ArenaState>, a: nat, s: ArenaState)
    requires a < |arenas|
    ensures OwnedBlocks(arenas[a := s]) + |arenas[a].owned| == OwnedBlocks(arenas) + |s.owned|
  {
    if a == 0 {
      assert arenas[0 := s][1..] == arenas[1..];
    } else {
      BlocksUpdate(arenas[1..], a - 1, s);
      assert arenas[a := s][1..] == arenas[1..][a - 1 := s];
    }
  }

  /** Descriptors allocated from arena 0, less those in a list or recycled. */
  function Loose(m: Memory): int
    requires |m.arenas| > 0
  {
    |m.arenas[0].handed| - |m.free| - OwnedBlocks(m.arenas) - m.recycled
  }

  /** A push leaves no descriptor behind, unless it is itself the allocation of one. */
  lemma {:induction false} PushLoose(m: Memory, a: nat, size: nat)
    requires Usable(m) && a < |m.arenas| && size > 0 && (a == 0 ==> size == DESCRIPTOR_SIZE)
    requires Push(m, a, size).Pushed?
    ensures Loose(Push(m, a, size).mem) == Loose(m) + Bit(a == 0)
    decreases Depth(m, a, size)
  {
    hide Bump;
    if !m.arenas[a].Full(size) {
      BumpLoose(m, a, size);
    } else {
      var i := FirstFit(m.free, size);
      RoundUpBounds(size, m.pageSize);
      var bytes := RoundUp(size, m.pageSize);
      var c := Carve(m, a, i, bytes);
      BlocksUpdate(m.arenas, a, c.arenas[a]);
      if c.recycled == 0 { PushLoose(c, 0, DESCRIPTOR_SIZE); }
      var d := NewDescriptor(c).mem;
      var r := Range(m.free[i].lo, m.free[i].lo + bytes);
      BlocksUpdate(d.arenas, a, Adopt(d, a, r).arenas[a]);
      BumpLoose(Adopt(d, a, r), a, size);
    }
  }

  lemma BumpLoose(m: Memory, a: nat, size: nat)
    requires a < |m.arenas|
    ensures Loose(Bump(m, a, size).mem) == Loose(m) + Bit(a == 0)
  {
    BlocksUpdate(m.arenas, a, Bump(m, a, size).mem.arenas[a]);
  }

  lemma DeleteLoose(m: Memory, a: nat)
    requires 0 < a < |m.arenas|
    ensures Loose(Delete(m, a)) == Loose(m)
  {
    BlocksUpdate(m.arenas, a, ZEROED);
  }

  // ----- runs

  /** The calls that a client makes; a new arena is a zeroed structure. */
  datatype Op = NewArena | PushOp(arena: nat, size: nat) | DeleteOp(arena: nat)

  /** Clients have arenas of their own and ask for at least one byte. */
  predicate Allowed(m: Memory, op: Op) {
    match op
    case NewArena => true
    case PushOp(a, size) => 0 < a < |m.arenas| && size > 0
    case DeleteOp(a) => 0 < a < |m.arenas|
  }

  /** One call; a call that exits the program leaves no memory behind. */
  function Apply(m: Memory, op: Op): PushResult
    requires Usable(m) && Allowed(m, op)
  {
    match op
    case NewArena => Pushed(m.(arenas := m.arenas + [ZEROED]), 0)
    case PushOp(a, size) => Push(m, a, size)
    case DeleteOp(a) => Pushed(Delete(m, a), 0)
  }

  /** `m'` can be reached from `m` by the calls `ops`. */
  ghost predicate Reaches(m: Memory, ops: seq<Op>, m': Memory)
    decreases |ops|
  {
    if ops == [] then m' == m
    else Usable(m) && Allowed(m, ops[0]) && Apply(m, ops[0]).Pushed? && Reaches(Apply(m, ops[0]).mem, ops[1..], m')
  }

  lemma {:induction false} OwnedAppend(arenas: seq<ArenaState>, x: int)
    ensures OwnedAll(arenas + [ZEROED], x) == OwnedAll(arenas, x)
  {
    if arenas != [] {
      OwnedAppend(arenas[1..], x);
      assert (arenas + [ZEROED])[1..] == arenas[1..] + [ZEROED];
    } else {
      assert OwnedAll([ZEROED], x) == Count(ZEROED.owned, x) + OwnedAll([], x);
    }
  }

  lemma ApplyKeeps(m: Memory, op: Op)
    requires Inv(m) && Allowed(m, op)
    ensures !Apply(m, op).AssertFailed?
    ensures Apply(m, op).Pushed? ==> Inv(Apply(m, op).mem)
  {
    match op
    case NewArena =>
      var m' := Apply(m, op).mem;
      forall x ensures InvAt(m', [], x) {
        assert InvAt(m, [], x);
        OwnedAppend(m.arenas, x);
        forall b | 0 <= b < |m'.arenas| ensures ServedBy(m'.arenas[b], PendingOf([], b, x), x) {
          if b < |m.arenas| { assert ServedBy(m.arenas[b], PendingOf([], b, x), x); }
        }
      }
    case PushOp(a, size) => PushKeeps(m, [], a, size);
    case DeleteOp(a) => DeleteKeeps(m, a);
  }

  lemma InitInv(pageSize: nat, start: int, pages: nat)
    requires pageSize >= 2 * DESCRIPTOR_SIZE && pages >= 1
    ensures Inv(Init(pageSize, start, pages))
  {
    hide InvAt;
    hide Shaped;
    InitShaped(pageSize, start, pages);
    forall x ensures InvAt(Init(pageSize, start, pages), [], x) { InitAt(pageSize, start, pages, x); }
  }

  lemma InitShaped(pageSize: nat, start: int, pages: nat)
    requires pageSize >= 2 * DESCRIPTOR_SIZE && pages >= 1
    ensures Shaped(Init(pageSize, start, pages))
  {
    MultipleMod(0, pageSize);
    MultipleMod(1, pageSize);
    MultipleMod(pages, pageSize);
    MulMonotone(1, pages, pageSize);
    var m := Init(pageSize, start, pages);
    assert Paged(m, m.free[0]) && Paged(m, m.arenas[0].owned[0]);
  }

  lemma InitAt(pageSize: nat, start: int, pages: nat, x: int)
    requires pageSize >= 2 * DESCRIPTOR_SIZE && pages >= 1
    ensures InvAt(Init(pageSize, start, pages), [], x)
  {
    MulMonotone(1, pages, pageSize);
    var m := Init(pageSize, start, pages);
    CountOne(m.free[0], x);
    CountOne(m.arenas[0].owned[0], x);
    var h := m.arenas[0].handed;
    assert h == [h[0]] + [h[1]];
    CountCat([h[0]], [h[1]], x);
    CountOne(h[0], x);
    CountOne(h[1], x);
    assert OwnedAll(m.arenas, x) == Count(m.arenas[0].owned, x) + OwnedAll([], x);
  }

  /** Over every run, on any number of arenas, the blocks of the free list and of the arenas
      keep partitioning the reserved memory, and no next call ends in the refill's assertion. */
  lemma {:induction false} RunKeeps(m: Memory, ops: seq<Op>, m': Memory)
    requires Inv(m) && Reaches(m, ops, m')
    ensures Inv(m') && forall op :: Allowed(m', op) ==> !Apply(m', op).AssertFailed?
    decreases |ops|
  {
    hide Apply;
    if ops != [] {
      ApplyKeeps(m, ops[0]);
      RunKeeps(Apply(m, ops[0]).mem, ops[1..], m');
    } else {
      forall op | Allowed(m', op) ensures !Apply(m', op).AssertFailed? { ApplyKeeps(m', op); }
    }
  }

  /** Every descriptor ever allocated stays in exactly one list or recycled: none is lost. */
  lemma {:induction false} RunLosesNoDescriptor(m: Memory, ops: seq<Op>, m': Memory)
    requires |m.arenas| > 0 && Reaches(m, ops, m')
    ensures |m'.arenas| > 0 && Loose(m') == Loose(m)
    decreases |ops|
  {
    if ops != [] {
      match ops[0]
      case NewArena => BlocksAppend(m.arenas);
      case PushOp(a, size) => PushLoose(m, a, size);
      case DeleteOp(a) => DeleteLoose(m, a);
    }
    if ops != [] {
      RunLosesNoDescriptor(Apply(m, ops[0]).mem, ops[1..], m');
    }
  }

  lemma {:induction false} BlocksAppend(arenas: seq<ArenaState>)
    ensures OwnedBlocks(arenas + [ZEROED]) == OwnedBlocks(arenas)
  {
    if arenas != [] {
      BlocksAppend(arenas[1..]);
      assert (arenas + [ZEROED])[1..] == arenas[1..] + [ZEROED];
    } else {
      assert OwnedBlocks([ZEROED]) == |ZEROED.owned| + OwnedBlocks([]);
    }
  }

  // ----- what the invariant says about regions

  lemma {:induction false} CountAt(rs: seq<Range>, i: nat, x: int)
    requires i < |rs| && rs[i].Has(x)
    ensures Count(rs, x) >= 1
  {
    if i > 0 { CountAt(rs[1..], i - 1, x); }
  }

  lemma {:induction false} CountTwo(rs: seq<Range>, i: nat, j: nat, x: int)
    requires i < j < |rs| && rs[i].Has(x) && rs[j].Has(x)
    ensures Count(rs, x) >= 2
  {
    if i == 0 { CountAt(rs[1..], j - 1, x); } else { CountTwo(rs[1..], i - 1, j - 1, x); }
  }

  lemma {:induction false} CountSome(rs: seq<Range>, x: int)
    requires Count(rs, x) >= 1
    ensures exists i :: 0 <= i < |rs| && rs[i].Has(x)
  {
    if !rs[0].Has(x) {
      CountSome(rs[1..], x);
      var i :| 0 <= i < |rs[1..]| && rs[1..][i].Has(x);
      assert rs[i + 1].Has(x);
    }
  }

  /** Two regions handed out and not yet released never share a byte, whoever holds them. */
  lemma HandedOutApart(m: Memory, a: nat, i: nat, b: nat, j: nat, x: int)
    requires Inv(m) && a < |m.arenas| && b < |m.arenas|
    requires i < |m.arenas[a].handed| && j < |m.arenas[b].handed| && (a != b || i != j)
    ensures !(m.arenas[a].handed[i].Has(x) && m.arenas[b].handed[j].Has(x))
  {
    assert InvAt(m, [], x);
    if m.arenas[a].handed[i].Has(x) && m.arenas[b].handed[j].Has(x) {
      assert ServedBy(m.arenas[a], PendingOf([], a, x), x) && ServedBy(m.arenas[b], PendingOf([], b, x), x);
      CountAt(m.arenas[a].handed, i, x);
      CountAt(m.arenas[b].handed, j, x);
      if a == b {
        CountTwo(m.arenas[a].handed, if i < j then i else j, if i < j then j else i, x);
        OwnedSome(m.arenas, a, x);
      } else {
        OwnedTwo(m.arenas, if a < b then a else b, if a < b then b else a, x);
      }
      assert false;
    }
  }

  /** A region handed out lies in pages of its arena, inside the reserved memory, and off the
      free list and the pages of every other arena. */
  lemma HandedOutOwned(m: Memory, a: nat, i: nat, x: int)
    requires Inv(m) && a < |m.arenas| && i < |m.arenas[a].handed| && m.arenas[a].handed[i].Has(x)
    ensures m.start <= x < m.end
    ensures exists k :: 0 <= k < |m.arenas[a].owned| && m.arenas[a].owned[k].Has(x)
    ensures Count(m.free, x) == 0 && Count(m.arenas[a].owned, x) == 1
    ensures forall b :: 0 <= b < |m.arenas| && b != a ==> Count(m.arenas[b].owned, x) == 0
  {
    assert InvAt(m, [], x);
    assert ServedBy(m.arenas[a], PendingOf([], a, x), x);
    CountAt(m.arenas[a].handed, i, x);
    OwnedSome(m.arenas, a, x);
    CountSome(m.arenas[a].owned, x);
    forall b | 0 <= b < |m.arenas| && b != a ensures Count(m.arenas[b].owned, x) == 0 {
      OwnedTwo(m.arenas, if a < b then a else b, if a < b then b else a, x);
    }
  }
}
