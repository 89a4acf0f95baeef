/** The page allocator of arena.c on values: what one call computes from the free list, the
    recycled descriptors and the arenas. Arena 0 is the one that stores block descriptors. */
module ArenaModel {
  import opened PageRanges

  const DESCRIPTOR_SIZE: nat := 32

  /** An arena: its pages, the window that the next pushes are served from, and the regions
      handed out so far. */
  datatype ArenaState = ArenaState(owned: seq<Range>, avail: int, limit: int, handed: seq<Range>) {
    predicate Full(size: nat) {
      avail + size >= limit
    }
  }

  const ZEROED := ArenaState([], 0, 0, [])

  datatype Memory = Memory(pageSize: nat, start: int, end: int, free: seq<Range>, recycled: nat,
                           arenas: seq<ArenaState>)

  /** What a call may end in; in the first two cases the program exits. */
  datatype PushResult = OutOfMemory | AssertFailed | Pushed(mem: Memory, addr: int)

  /** The page multiple that a request is rounded up to. */
  function RoundUp(size: nat, pageSize: nat): nat
    requires pageSize > 0
  {
    (size + pageSize - 1) / pageSize * pageSize
  }

  predicate Usable(m: Memory) {
    m.pageSize >= 2 * DESCRIPTOR_SIZE && |m.arenas| > 0
  }

  /** init_memory: the first page holds the first two descriptors. */
  function Init(pageSize: nat, start: int, pages: nat): Memory {
    var first := Range(start, start + pageSize);
    var used := [Range(start, start + DESCRIPTOR_SIZE), Range(start + DESCRIPTOR_SIZE, start + 2 * DESCRIPTOR_SIZE)];
    Memory(pageSize, start, start + pages * pageSize,
           [Range(start + pageSize, start + pages * pageSize)], 0,
           [ArenaState([first], start + 2 * DESCRIPTOR_SIZE, start + pageSize, used)])
  }

  // ----- arena_push

  /** Serves a request from the arena's window. */
  function Bump(m: Memory, a: nat, size: nat): PushResult
    requires a < |m.arenas|
  {
    var s := m.arenas[a];
    var served := s.(avail := s.avail + size, handed := s.handed + [Range(s.avail, s.avail + size)]);
    Pushed(m.(arenas := m.arenas[a := served]), s.avail)
  }

  /** Takes `bytes` from the front of free block `i` as the new window of arena `a`. */
  function Carve(m: Memory, a: nat, i: nat, bytes: nat): Memory
    requires a < |m.arenas| && i < |m.free|
  {
    var lo := m.free[i].lo;
    m.(free := m.free[i := Range(lo + bytes, m.free[i].hi)],
       arenas := m.arenas[a := m.arenas[a].(avail := lo, limit := lo + bytes)])
  }

  /** Adds a block to an arena's pages, recycling the descriptors that merging frees. */
  function Adopt(m: Memory, a: nat, r: Range): Memory
    requires a < |m.arenas|
  {
    var s := m.arenas[a];
    m.(arenas := m.arenas[a := s.(owned := InsertCoalesce(s.owned, r))], recycled := m.recycled + Freed(s.owned, r))
  }

  /** The number of descriptors that an insertion makes superfluous. */
  function Freed(rs: seq<Range>, n: Range): (k: nat)
    ensures |InsertCoalesce(rs, n)| + k == |rs| + 1
  {
    |rs| + 1 - |InsertCoalesce(rs, n)|
  }

  /** How deep a call may nest: a refill allocates a descriptor from arena 0, which may have
      to be refilled itself, but has room right after that. */
  function Depth(m: Memory, a: nat, size: nat): nat
    requires |m.arenas| > 0
  {
    if a != 0 then 2 else if m.arenas[0].Full(size) then 1 else 0
  }

  /** get_new_block_struct: a recycled descriptor, or a fresh one from arena 0. */
  function NewDescriptor(m: Memory): PushResult
    requires Usable(m)
    decreases Depth(m, 0, DESCRIPTOR_SIZE), 1
  {
    if m.recycled > 0 then Pushed(m.(recycled := m.recycled - 1), 0) else Push(m, 0, DESCRIPTOR_SIZE)
  }

  /** arena_push. The arena of descriptors is only pushed to for descriptors. */
  function Push(m: Memory, a: nat, size: nat): (r: PushResult)
    requires Usable(m) && a < |m.arenas| && size > 0 && (a == 0 ==> size == DESCRIPTOR_SIZE)
    ensures r.Pushed? ==> r.mem.pageSize == m.pageSize && |r.mem.arenas| == |m.arenas|
    decreases Depth(m, a, size), 0
  {
    if !m.arenas[a].Full(size) then Bump(m, a, size)
    else
      var i := FirstFit(m.free, size);
      var bytes := RoundUp(size, m.pageSize);
      if i == |m.free| then OutOfMemory
      else if bytes > m.free[i].Size() then AssertFailed
      else
        RoundUpBounds(size, m.pageSize);
        var r := Range(m.free[i].lo, m.free[i].lo + bytes);
        var d := NewDescriptor(Carve(m, a, i, bytes));
        if !d.Pushed? then d else Bump(Adopt(d.mem, a, r), a, size)
  }

  lemma RoundUpBounds(size: nat, pageSize: nat)
    requires pageSize > 0
    ensures size <= RoundUp(size, pageSize) < size + pageSize
    ensures RoundUp(size, pageSize) % pageSize == 0
    ensures size > 0 ==> RoundUp(size, pageSize) >= pageSize
  {
    var k := (size + pageSize - 1) / pageSize;
    MultipleMod(k, pageSize);
    if size > 0 {
      assert k >= 1;
      MulMonotone(1, k, pageSize);
    }
  }

  function Pow2(k: nat): (p: nat)
    ensures p > 0
  {
    if k == 0 then 1 else 2 * Pow2(k - 1)
  }

  /** The `&` of C on unsigned numbers. */
  function BitAnd(x: nat, y: nat): nat {
    if x == 0 || y == 0 then 0 else 2 * BitAnd(x / 2, y / 2) + x % 2 * (y % 2)
  }

  lemma {:induction false} AllOnes(x: nat, n: nat)
    requires x < Pow2(n)
    ensures BitAnd(x, Pow2(n) - 1) == x
  {
    if n > 0 { AllOnes(x / 2, n - 1); }
  }

  lemma {:induction false} MaskClears(x: nat, k: nat, n: nat)
    requires k <= n && x < Pow2(n)
    ensures Pow2(k) <= Pow2(n) && BitAnd(x, Pow2(n) - Pow2(k)) == x / Pow2(k) * Pow2(k)
  {
    if k == 0 {
      AllOnes(x, n);
    } else {
      MaskClears(x / 2, k - 1, n - 1);
      var m := Pow2(k - 1);
      BitAndEven(x, Pow2(n - 1) - m);
      DivTwice(x, m);
      TwiceInside(x / (2 * m), m);
    }
  }

  lemma BitAndEven(x: nat, z: nat)
    ensures BitAnd(x, 2 * z) == 2 * BitAnd(x / 2, z)
  {
    assert (2 * z) / 2 == z && (2 * z) % 2 == 0;
  }

  lemma TwiceInside(q: nat, m: nat)
    ensures 2 * (q * m) == q * (2 * m)
  {
  }

  lemma DivTwice(x: nat, m: nat)
    requires m > 0
    ensures x / 2 / m == x / (2 * m)
  {
    var q := x / (2 * m);
    var r := x - q * (2 * m);
    assert x / 2 == q * m + r / 2;
    DivUnique(x / 2, m, q, r / 2);
  }

  lemma DivUnique(x: int, m: int, q: int, r: int)
    requires x == q * m + r && 0 <= r < m
    ensures x / m == q
  {
    var d := x / m - q;
    assert d * m == r - x % m;
    if d > 0 { MulMonotone(1, d, m); }
    if d < 0 { MulMonotone(d, -1, m); }
  }

  /** The mask in arena_push, on the code's 32 bits, rounds up to a page multiple. */
  lemma MaskRoundsUp(size: nat, k: nat)
    requires k <= 32 && size + Pow2(k) - 1 < Pow2(32)
    ensures Pow2(k) <= Pow2(32)
    ensures BitAnd(size + Pow2(k) - 1, Pow2(32) - Pow2(k)) == RoundUp(size, Pow2(k))
  {
    hide BitAnd;
    MaskClears(size + Pow2(k) - 1, k, 32);
  }

  lemma MultipleMod(k: int, n: nat)
    requires n > 0
    ensures (k * n) % n == 0
  {
    var q, r := (k * n) / n, (k * n) % n;
    assert (k - q) * n == r;
    if k > q { MulMonotone(1, k - q, n); }
    if k < q { MulMonotone(k - q, -1, n); }
  }

  lemma MulMonotone(a: int, b: int, n: nat)
    requires a <= b
    ensures a * n <= b * n
  {
  }

  // ----- arena_delete

  /** Returns the blocks one by one to the free list. */
  function Release(free: seq<Range>, blocks: seq<Range>): (r: seq<Range>)
    ensures |r| <= |free| + |blocks|
    decreases |blocks|
  {
    if blocks == [] then free
    else
      assert Freed(free, blocks[0]) >= 0;
      Release(InsertCoalesce(free, blocks[0]), blocks[1..])
  }

  /** arena_delete: every descriptor that is in no list any more is recycled. */
  function Delete(m: Memory, a: nat): Memory
    requires a < |m.arenas|
  {
    var blocks := m.arenas[a].owned;
    var free := Release(m.free, blocks);
    m.(free := free, recycled := m.recycled + |m.free| + |blocks| - |free|, arenas := m.arenas[a := ZEROED])
  }
}
