/** The addresses that arena_push returns, call by call and over every run. */
module Regions {
  import opened PageRanges
  import opened ArenaModel
  import opened ArenaRuns

  // ----- one call

  /** A client's push hands out one region, the one that starts at the returned address, and
      hands out nothing for any other client. */
  lemma PushReturns(m: Memory, a: nat, size: nat)
    requires Usable(m) && 0 < a < |m.arenas| && size > 0 && Push(m, a, size).Pushed?
    ensures var r := Push(m, a, size);
            && r.mem.arenas[a].handed == m.arenas[a].handed + [Range(r.addr, r.addr + size)]
            && forall b :: 0 < b < |m.arenas| && b != a ==> r.mem.arenas[b] == m.arenas[b]
  {
    forall b | 0 < b < |m.arenas| && b != a ensures Push(m, a, size).mem.arenas[b] == m.arenas[b] {
      PushFrame(m, a, size, b);
    }
    if m.arenas[a].Full(size) { ClientRefill(m, a, size); }
  }

  /** What a client's refill leaves of its own arena until the request is served. */
  lemma ClientRefill(m: Memory, a: nat, size: nat)
    requires Usable(m) && 0 < a < |m.arenas| && size > 0 && Push(m, a, size).Pushed? && m.arenas[a].Full(size)
    ensures FirstFit(m.free, size) < |m.free|
    ensures var c := Carve(m, a, FirstFit(m.free, size), RoundUp(size, m.pageSize));
            NewDescriptor(c).Pushed? && NewDescriptor(c).mem.arenas[a] == c.arenas[a]
  {
    var i := FirstFit(m.free, size);
    RoundUpBounds(size, m.pageSize);
    var c := Carve(m, a, i, RoundUp(size, m.pageSize));
    if c.recycled == 0 { PushFrame(c, 0, DESCRIPTOR_SIZE, a); }
  }

  /** A client is served from its window as long as that is not used up by the request;
      otherwise from the front of the first free block that is large enough, of which whole
      pages become the new window. */
  lemma PushServesFrom(m: Memory, a: nat, size: nat)
    requires Usable(m) && 0 < a < |m.arenas| && size > 0 && Push(m, a, size).Pushed?
    ensures var r := Push(m, a, size); var was := m.arenas[a]; var now := r.mem.arenas[a];
            && now.avail == r.addr + size
            && (was.avail + size < was.limit ==> r.addr == was.avail && now.limit == was.limit && r.mem.free == m.free)
            && (was.avail + size >= was.limit ==>
                  var i := FirstFit(m.free, size);
                  i < |m.free| && r.addr == m.free[i].lo && now.limit == r.addr + RoundUp(size, m.pageSize))
  {
    if m.arenas[a].Full(size) { ClientRefill(m, a, size); }
  }

  /** The same for descriptors. */
  lemma DescriptorReturns(m: Memory)
    requires Usable(m) && m.arenas[0].avail + 32 < m.arenas[0].limit
    ensures var r := Push(m, 0, 32);
            && r.Pushed? && r.addr == m.arenas[0].avail && r.mem.free == m.free
            && r.mem.arenas[0].avail == r.addr + 32 && r.mem.arenas[0].limit == m.arenas[0].limit
            && r.mem.arenas[0].handed == m.arenas[0].handed + [Range(r.addr, r.addr + 32)]
  {
  }

  lemma DescriptorRefill(m: Memory)
    requires Usable(m) && m.arenas[0].Full(32) && Push(m, 0, 32).Pushed?
    ensures var i := FirstFit(m.free, 32); i < |m.free| && RoundUp(32, m.pageSize) == m.pageSize
    ensures var lo := m.free[FirstFit(m.free, 32)].lo;
            var c := Carve(m, 0, FirstFit(m.free, 32), m.pageSize);
            && NewDescriptor(c).Pushed?
            && Push(m, 0, 32) == Bump(Adopt(NewDescriptor(c).mem, 0, Range(lo, lo + m.pageSize)), 0, 32)
            && NewDescriptor(c) == if m.recycled == 0 then Bump(c, 0, 32) else Pushed(c.(recycled := m.recycled - 1), 0)
  {
    hide Bump; hide Adopt; hide FirstFit; hide RoundUp;
    PageHoldsTwo(m.pageSize);
    var c := Carve(m, 0, FirstFit(m.free, 32), m.pageSize);
    if c.recycled == 0 { NestedDescriptor(c); }
  }

  lemma PageHoldsTwo(pageSize: nat)
    requires pageSize >= 64
    ensures RoundUp(32, pageSize) == pageSize
  {
    assert (32 + pageSize - 1) / pageSize == 1;
  }

  lemma NestedDescriptor(m: Memory)
    requires Usable(m) && m.recycled == 0 && !m.arenas[0].Full(32)
    ensures NewDescriptor(m) == Bump(m, 0, 32)
  {
  }

  /** A refill for descriptors takes one page and from it first the descriptor of that page,
      unless there is a recycled one. */
  lemma DescriptorPage(m: Memory)
    requires Usable(m) && m.arenas[0].avail + 32 >= m.arenas[0].limit && Push(m, 0, 32).Pushed?
    ensures var i := FirstFit(m.free, 32); var r := Push(m, 0, 32);
            var own := if m.recycled == 0 then [Range(r.addr - 32, r.addr)] else [];
            && i < |m.free| && r.addr == m.free[i].lo + 32 * |own|
            && r.mem.arenas[0].avail == r.addr + 32 && r.mem.arenas[0].limit == m.free[i].lo + m.pageSize
            && r.mem.arenas[0].handed == m.arenas[0].handed + own + [Range(r.addr, r.addr + 32)]
  {
    DescriptorRefill(m);
    hide Push; hide NewDescriptor; hide InsertCoalesce; hide FirstFit; hide RoundUp; hide Freed;
    var i := FirstFit(m.free, 32);
    var c := Carve(m, 0, i, m.pageSize);
    assert c.arenas[0] == m.arenas[0].(avail := m.free[i].lo, limit := m.free[i].lo + m.pageSize);
    if m.recycled > 0 { assert m.arenas[0].handed + [] == m.arenas[0].handed; }
  }

  ghost predicate Fits(free: seq<Range>, size: nat) {
    exists i :: 0 <= i < |free| && free[i].Size() >= size
  }

  lemma FitsIff(free: seq<Range>, size: nat)
    ensures Fits(free, size) <==> FirstFit(free, size) < |free|
  {
  }

  lemma CarveOther(m: Memory, a: nat, i: nat, bytes: nat)
    requires 0 < a < |m.arenas| && i < |m.free|
    ensures Carve(m, a, i, bytes).recycled == m.recycled && Carve(m, a, i, bytes).arenas[0] == m.arenas[0]
  {
  }

  lemma DescriptorServesIff(m: Memory)
    requires Shaped(m)
    ensures Push(m, 0, 32).Pushed? <==> m.arenas[0].avail + 32 < m.arenas[0].limit || Fits(m.free, 32)
  {
    hide Fits; hide FirstFit; hide RoundUp; hide Adopt;
    FitsIff(m.free, 32);
    PageHoldsTwo(m.pageSize);
    FirstFitFits(m, 32);
    if m.arenas[0].Full(32) && Fits(m.free, 32) {
      var c := Carve(m, 0, FirstFit(m.free, 32), m.pageSize);
      if c.recycled == 0 { NestedDescriptor(c); }
    }
  }

  /** A client's push fails only for want of memory: for the request, or for the descriptor of
      the pages that it takes. */
  lemma PushServesIff(m: Memory, a: nat, size: nat)
    requires Inv(m) && 0 < a < |m.arenas| && size > 0
    ensures Push(m, a, size).Pushed? || Push(m, a, size).OutOfMemory?
    ensures Push(m, a, size).Pushed?
       <==> || m.arenas[a].avail + size < m.arenas[a].limit
            || (Fits(m.free, size)
                && (|| m.recycled > 0 || m.arenas[0].avail + 32 < m.arenas[0].limit
                    || Fits(Carve(m, a, FirstFit(m.free, size), RoundUp(size, m.pageSize)).free, 32)))
  {
    hide InvAt;
    PushKeeps(m, [], a, size);
    hide Fits; hide Carve; hide FirstFit; hide RoundUp; hide Adopt; hide Shaped; hide Bump;
    FitsIff(m.free, size);
    if m.arenas[a].Full(size) && Fits(m.free, size) {
      var i := FirstFit(m.free, size);
      FirstFitFits(m, size);
      RoundUpBounds(size, m.pageSize);
      CarveShaped(m, a, i, RoundUp(size, m.pageSize));
      var c := Carve(m, a, i, RoundUp(size, m.pageSize));
      assert c.recycled == m.recycled && c.arenas[0] == m.arenas[0] by { CarveOther(m, a, i, RoundUp(size, m.pageSize)); }
      DescriptorServesIff(c);
    }
  }

  /** The page that init_memory sets up for descriptors serves them behind the first two. */
  lemma FirstDescriptor(pageSize: nat, start: int, pages: nat)
    requires pageSize > 96
    ensures var m := Init(pageSize, start, pages); var r := Push(m, 0, 32);
            r.Pushed? && r.addr == start + 64 && r.mem.free == [Range(start + pageSize, start + pages * pageSize)]
  {
  }

  // ----- runs

  /** A region that a client has been given and whose arena it has not deleted since. */
  datatype Region = Region(arena: nat, size: nat, addr: int) {
    predicate Has(x: int) {
      addr <= x < addr + size
    }
  }

  function Without(held: seq<Region>, a: nat): seq<Region> {
    if held == [] then [] else (if held[0].arena == a then [] else [held[0]]) + Without(held[1..], a)
  }

  /** What is held after a call that returned `addr`. */
  function After(held: seq<Region>, op: Op, addr: int): seq<Region> {
    match op
    case NewArena => held
    case PushOp(a, size) => held + [Region(a, size, addr)]
    case DeleteOp(a) => Without(held, a)
  }

  /** What is held after a run, from the addresses that its calls return. */
  ghost function Held(m: Memory, ops: seq<Op>, m': Memory, held: seq<Region>): seq<Region>
    requires Reaches(m, ops, m')
    decreases |ops|
  {
    if ops == [] then held
    else
      var r := Apply(m, ops[0]);
      Held(r.mem, ops[1..], m', After(held, ops[0], r.addr))
  }

  /** The regions of one arena, in the order of the calls. */
  function Of(held: seq<Region>, a: nat): seq<Range> {
    if held == [] then []
    else (if held[0].arena == a then [Range(held[0].addr, held[0].addr + held[0].size)] else []) + Of(held[1..], a)
  }

  lemma {:induction false} OfAppend(held: seq<Region>, r: Region, a: nat)
    ensures Of(held + [r], a) == Of(held, a) + if r.arena == a then [Range(r.addr, r.addr + r.size)] else []
    decreases |held|
  {
    if held == [] {
      assert [] + [r] == [r] && [r][1..] == [];
    } else {
      OfAppend(held[1..], r, a);
      assert (held + [r])[1..] == held[1..] + [r];
    }
  }

  lemma {:induction false} OfWithout(held: seq<Region>, b: nat, a: nat)
    ensures Of(Without(held, b), a) == if a == b then [] else Of(held, a)
    ensures forall r <- Without(held, b) :: r in held
    decreases |held|
  {
    if held != [] {
      OfWithout(held[1..], b, a);
      if held[0].arena == b {
        assert Without(held, b) == Without(held[1..], b);
      } else {
        assert Without(held, b)[1..] == Without(held[1..], b);
      }
    }
  }

  /** The allocator's own record of every client is what the client holds. */
  ghost predicate Agree(m: Memory, held: seq<Region>) {
    && |m.arenas| > 0
    && (forall r <- held :: 0 < r.arena < |m.arenas|)
    && forall a :: 0 < a < |m.arenas| ==> m.arenas[a].handed == Of(held, a)
  }

  lemma PushAgrees(m: Memory, a: nat, size: nat, held: seq<Region>)
    requires Usable(m) && 0 < a < |m.arenas| && size > 0 && Push(m, a, size).Pushed? && Agree(m, held)
    ensures Agree(Push(m, a, size).mem, held + [Region(a, size, Push(m, a, size).addr)])
  {
    PushReturns(m, a, size);
    hide Push; hide Of;
    var r := Push(m, a, size);
    forall b | 0 < b < |m.arenas| ensures r.mem.arenas[b].handed == Of(held + [Region(a, size, r.addr)], b) {
      OfAppend(held, Region(a, size, r.addr), b);
    }
  }

  lemma DeleteAgrees(m: Memory, a: nat, held: seq<Region>)
    requires 0 < a < |m.arenas| && Agree(m, held)
    ensures Agree(Delete(m, a), Without(held, a))
  {
    hide Of; hide Without; hide Release;
    forall b | 0 < b < |m.arenas| ensures Delete(m, a).arenas[b].handed == Of(Without(held, a), b) { OfWithout(held, a, b); }
    OfWithout(held, a, a);
  }

  lemma ApplyAgrees(m: Memory, op: Op, held: seq<Region>)
    requires Usable(m) && Allowed(m, op) && Apply(m, op).Pushed? && Agree(m, held)
    ensures Agree(Apply(m, op).mem, After(held, op, Apply(m, op).addr))
  {
    hide Push; hide Delete; hide Of; hide Without;
    match op
    case NewArena => NoneBeyond(held, |m.arenas|);
    case PushOp(a, size) => PushAgrees(m, a, size, held);
    case DeleteOp(a) => DeleteAgrees(m, a, held);
  }

  lemma {:induction false} NoneBeyond(held: seq<Region>, n: nat)
    requires forall r <- held :: r.arena < n
    ensures Of(held, n) == []
  {
    if held != [] { NoneBeyond(held[1..], n); }
  }

  lemma {:induction false} RunAgrees(m: Memory, ops: seq<Op>, m': Memory, held: seq<Region>)
    requires Reaches(m, ops, m') && Agree(m, held)
    ensures Agree(m', Held(m, ops, m', held))
    decreases |ops|
  {
    hide Agree; hide Apply; hide After;
    if ops != [] {
      ApplyAgrees(m, ops[0], held);
      RunAgrees(Apply(m, ops[0]).mem, ops[1..], m', After(held, ops[0], Apply(m, ops[0]).addr));
    }
  }

  /** Where the allocator has recorded a region. */
  function Rank(held: seq<Region>, i: nat): nat
    requires i < |held|
  {
    if i == 0 then 0 else Bit(held[0].arena == held[i].arena) + Rank(held[1..], i - 1)
  }

  lemma {:induction false} RankAt(held: seq<Region>, i: nat)
    requires i < |held|
    ensures var rs := Of(held, held[i].arena);
            Rank(held, i) < |rs| && rs[Rank(held, i)] == Range(held[i].addr, held[i].addr + held[i].size)
  {
    if i > 0 { RankAt(held[1..], i - 1); }
  }

  lemma {:induction false} RankGrows(held: seq<Region>, i: nat, j: nat)
    requires i < j < |held| && held[i].arena == held[j].arena
    ensures Rank(held, i) < Rank(held, j)
  {
    if i > 0 { RankGrows(held[1..], i - 1, j - 1); }
  }

  lemma Start(pageSize: nat, start: int, pages: nat)
    ensures var m := Init(pageSize, start, pages);
            Agree(m, []) && m.start == start && m.end == start + pages * pageSize
  {
  }

  /** The memory is the reserved one. */
  lemma {:induction false} RunKeepsBounds(m: Memory, ops: seq<Op>, m': Memory)
    requires Reaches(m, ops, m')
    ensures m'.start == m.start && m'.end == m.end
    decreases |ops|
  {
    if ops != [] {
      if ops[0].PushOp? { PushKeepsBounds(m, ops[0].arena, ops[0].size); }
      RunKeepsBounds(Apply(m, ops[0]).mem, ops[1..], m');
    }
  }

  /** Over every run from init_memory, on any number of arenas: the addresses that were
      returned and not given back head regions of the requested sizes in the reserved memory,
      no two of which share a byte. */
  lemma ReturnedApart(pageSize: nat, start: int, pages: nat, ops: seq<Op>, m: Memory, i: nat, j: nat, x: int)
    requires pageSize >= 2 * DESCRIPTOR_SIZE && pages >= 1 && Reaches(Init(pageSize, start, pages), ops, m)
    requires var held := Held(Init(pageSize, start, pages), ops, m, []); i < |held| && held[i].Has(x)
    ensures start <= x < start + pages * pageSize && Count(m.free, x) == 0
    ensures var held := Held(Init(pageSize, start, pages), ops, m, []);
            j < |held| && j != i ==> !held[j].Has(x)
  {
    hide Init; hide Held; hide Reaches; hide Inv; hide Of; hide Rank;
    var first := Init(pageSize, start, pages);
    var held := Held(first, ops, m, []);
    InitInv(pageSize, start, pages);
    RunKeeps(first, ops, m);
    Start(pageSize, start, pages);
    RunKeepsBounds(first, ops, m);
    RunAgrees(first, ops, m, []);
    RankAt(held, i);
    HandedOutOwned(m, held[i].arena, Rank(held, i), x);
    if j < |held| && j != i {
      RankAt(held, j);
      if held[i].arena == held[j].arena { RankGrows(held, if i < j then i else j, if i < j then j else i); }
      HandedOutApart(m, held[i].arena, Rank(held, i), held[j].arena, Rank(held, j), x);
    }
  }
}
