/** The page allocator of arena.c on its linked lists of block descriptors. */
module PageAllocator {
  import opened PageRanges
  import opened ArenaModel

  /** How a call may end; in the first two cases the program exits. */
  datatype Answer<+T> = OutOfMemory | AssertFailed | Done(value: T)

  ghost predicate SameEnd<T>(r: Answer<T>, p: PushResult) {
    r.OutOfMemory? == p.OutOfMemory? && r.AssertFailed? == p.AssertFailed?
  }

  class PageBlock {
    var next: PageBlock?
    var prev: PageBlock?     // kept up by the code, never read by it
    var begin: int
    var end: int
    ghost var home: int      // the list that the descriptor is in

    constructor ()
      ensures next == null && prev == null && begin == end == 0 && home == LOOSE
    {
      next, prev := null, null;
      begin, end := 0, 0;
      home := LOOSE;
    }
  }

  const FREE: int := -1
  const RECYCLED: int := -2
  const LOOSE: int := -3

  ghost function First(s: seq<PageBlock>, tail: PageBlock?): PageBlock? {
    if s == [] then tail else s[0]
  }

  ghost function NextIn(s: seq<PageBlock>, i: int, tail: PageBlock?): PageBlock?
    requires 0 <= i < |s|
  {
    if i + 1 < |s| then s[i + 1] else tail
  }

  /** The links lead from `head` through `s` to `tail`. */
  ghost predicate Linked(head: PageBlock?, s: seq<PageBlock>, tail: PageBlock?)
    reads s
  {
    && head == First(s, tail)
    && forall i {:trigger s[i].next} :: 0 <= i < |s| ==> s[i].next == NextIn(s, i, tail)
  }

  ghost predicate AtHome(s: seq<PageBlock>, home: int)
    reads s
  {
    forall b <- s :: b.home == home
  }

  /** `s` is the list of descriptors that starts at `head`. */
  ghost predicate List(head: PageBlock?, s: seq<PageBlock>, home: int)
    reads s
  {
    Linked(head, s, null) && AtHome(s, home)
  }

  lemma LinkedSplit(head: PageBlock?, a: seq<PageBlock>, b: seq<PageBlock>, tail: PageBlock?)
    requires Linked(head, a + b, tail)
    ensures Linked(head, a, First(b, tail)) && Linked(First(b, tail), b, tail)
  {
    forall i | 0 <= i < |a| ensures a[i].next == NextIn(a, i, First(b, tail)) {
      assert (a + b)[i] == a[i];
      if i + 1 == |a| && b != [] { assert (a + b)[i + 1] == b[0]; }
    }
    forall i | 0 <= i < |b| ensures b[i].next == NextIn(b, i, tail) {
      assert (a + b)[|a| + i] == b[i];
      if i + 1 < |b| { assert (a + b)[|a| + i + 1] == b[i + 1]; }
    }
  }

  lemma LinkedCat(head: PageBlock?, a: seq<PageBlock>, mid: PageBlock?, b: seq<PageBlock>, tail: PageBlock?)
    requires Linked(head, a, mid) && Linked(mid, b, tail)
    ensures Linked(head, a + b, tail)
  {
    forall i | 0 <= i < |a + b| ensures (a + b)[i].next == NextIn(a + b, i, tail) {
      if i < |a| { assert (a + b)[i] == a[i]; } else { assert (a + b)[i] == b[i - |a|]; }
    }
  }

  /** A list that ends in null visits no descriptor twice. */
  lemma {:induction false} NoRepeats(head: PageBlock?, s: seq<PageBlock>, i: nat, j: nat)
    requires Linked(head, s, null) && i < j < |s|
    ensures s[i] != s[j]
    decreases |s| - j
  {
    if s[i] == s[j] {
      assert s[i].next == NextIn(s, i, null) && s[j].next == NextIn(s, j, null);
      if j + 1 < |s| { NoRepeats(head, s, i + 1, j + 1); }
    }
  }

  lemma HeadNotInTail(head: PageBlock, b: seq<PageBlock>)
    requires Linked(head, [head] + b, null)
    ensures head !in b
  {
    if head in b {
      var j :| 0 <= j < |b| && b[j] == head;
      NoRepeats(head, [head] + b, 0, j + 1);
    }
  }

  ghost function RangeOf(b: PageBlock): Range
    reads b
  {
    Range(b.begin, b.end)
  }

  ghost function Ranges(s: seq<PageBlock>): (rs: seq<Range>)
    reads s
    ensures |rs| == |s| && forall i :: 0 <= i < |s| ==> rs[i] == RangeOf(s[i])
  {
    seq(|s|, i requires 0 <= i < |s| reads s => RangeOf(s[i]))
  }

  lemma RangesCat(a: seq<PageBlock>, b: seq<PageBlock>)
    ensures Ranges(a + b) == Ranges(a) + Ranges(b)
  {
  }

  /** What JoinAt makes of a block behind the head of a list, case by case. */
  lemma JoinCases(l: Range, rb: seq<Range>, n: Range, rs: seq<Range>)
    requires rs == [l] + rb
    ensures var touching := rb != [] && rb[0].lo == n.hi; var goal := JoinAt(rs, 0, n);
            && (l.hi == n.lo && touching ==> goal == [Range(l.lo, rb[0].hi)] + rb[1..])
            && (l.hi == n.lo && !touching ==> goal == [Range(l.lo, n.hi)] + rb)
            && (l.hi != n.lo && touching ==> goal == [l] + ([Range(n.lo, rb[0].hi)] + rb[1..]))
            && (l.hi != n.lo && !touching ==> goal == [l] + ([n] + rb))
  {
    assert rs[1..] == rb && rs[..0] == [] && rs[..1] == [l];
  }

  class Arena {
    var ownedPages: PageBlock?
    var avail: int
    var limit: int
    ghost var blocks: seq<PageBlock>   // the list at ownedPages
    ghost var handed: seq<Range>       // the regions handed out

    constructor ()
      ensures ownedPages == null && avail == limit == 0 && blocks == [] && handed == []
    {
      ownedPages := null;
      avail, limit := 0, 0;
      blocks, handed := [], [];
    }

    ghost function State(): ArenaState
      reads this, blocks
    {
      ArenaState(Ranges(blocks), avail, limit, handed)
    }
  }

  class Memory {
    const pageSize: nat
    const start: int
    const end: int
    const storage: Arena               // pageblock_storage
    var freeHead: PageBlock?
    var recycledHead: PageBlock?
    ghost var free: seq<PageBlock>
    ghost var recycled: seq<PageBlock>
    ghost var arenas: seq<Arena>       // storage and every arena of a client
    ghost var descriptors: set<PageBlock>

    ghost predicate Valid()
      reads this, arenas, descriptors
    {
      ValidBut(-1)
    }

    /** Valid, except for the page list of arena `x`. */
    ghost predicate ValidBut(x: int)
      reads this, arenas, descriptors
    {
      && pageSize >= 2 * DESCRIPTOR_SIZE
      && |arenas| > 0 && arenas[0] == storage
      && (forall i, j :: 0 <= i < j < |arenas| ==> arenas[i] != arenas[j])
      && InDescriptors(free) && InDescriptors(recycled)
      && List(freeHead, free, FREE) && free != []
      && List(recycledHead, recycled, RECYCLED)
      && (forall i :: 0 <= i < |arenas| && i != x ==> InDescriptors(arenas[i].blocks))
      && (forall i :: 0 <= i < |arenas| && i != x ==> List(arenas[i].ownedPages, arenas[i].blocks, i))
    }

    ghost predicate InDescriptors(s: seq<PageBlock>)
      reads this
    {
      forall b <- s :: b in descriptors
    }

    ghost function States(): (ss: seq<ArenaState>)
      reads this, arenas, descriptors
      requires forall i :: 0 <= i < |arenas| ==> InDescriptors(arenas[i].blocks)
      ensures |ss| == |arenas| && forall i :: 0 <= i < |arenas| ==> ss[i] == arenas[i].State()
    {
      seq(|arenas|, i requires 0 <= i < |arenas| && InDescriptors(arenas[i].blocks) reads this, arenas, descriptors
        => arenas[i].State())
    }

    /** The state that ArenaModel speaks about. */
    ghost function View(): ArenaModel.Memory
      reads this, arenas, descriptors
      requires Valid()
    {
      ArenaModel.Memory(pageSize, start, end, Ranges(free), |recycled|, States())
    }

    /** init_memory, with the reserved memory given: the first page belongs to the descriptor
        arena and holds the first two descriptors, the rest is one free block. */
    constructor (pageSize: nat, start: int, pages: nat)
      requires pageSize >= 2 * DESCRIPTOR_SIZE && pages >= 1
      ensures Valid() && View() == Init(pageSize, start, pages)
    {
      var arena, firstBlock := FirstPage(pageSize, start);
      var freeBlock := FirstFree(start + pageSize, start + pages * pageSize);
      this.pageSize, this.start, this.end := pageSize, start, start + pages * pageSize;
      storage := arena;
      freeHead, recycledHead := freeBlock, null;
      free, recycled := [freeBlock], [];
      arenas := [arena];
      descriptors := {firstBlock, freeBlock};
      new;
      assert Valid();
      ViewIs(Init(pageSize, start, pages));
    }

    /** The descriptor arena with the page that holds the first two descriptors. */
    static method FirstPage(pageSize: nat, start: int) returns (arena: Arena, block: PageBlock)
      ensures fresh(arena) && fresh(block) && arena.blocks == [block] && List(arena.ownedPages, [block], 0)
      ensures arena.State() == Init(pageSize, start, 1).arenas[0]
    {
      hide NewDescriptor;
      block := new PageBlock();
      block.begin, block.end, block.home := start, start + pageSize, 0;
      arena := new Arena();
      arena.ownedPages := block;
      arena.avail, arena.limit := start + 2 * DESCRIPTOR_SIZE, start + pageSize;
      arena.blocks := [block];
      arena.handed := Init(pageSize, start, 1).arenas[0].handed;
      assert Ranges(arena.blocks) == [RangeOf(block)];
    }

    static method FirstFree(begin: int, end: int) returns (block: PageBlock)
      ensures fresh(block) && List(block, [block], FREE) && Ranges([block]) == [Range(begin, end)]
    {
      block := new PageBlock();
      block.begin, block.end, block.home := begin, end, FREE;
    }

    /** find_block_first_fit */
    method FindBlockFirstFit(size: nat) returns (b: PageBlock?, ghost at: nat)
      requires Valid()
      ensures at == FirstFit(Ranges(free), size)
      ensures b == if at < |free| then free[at] else null
    {
      b := freeHead;
      at := 0;
      while b != null
        invariant at <= |free| && b == (if at < |free| then free[at] else null)
        invariant FirstFit(Ranges(free), size) == at + FirstFit(Ranges(free)[at..], size)
        decreases |free| - at
      {
        assert Ranges(free)[at..][0] == RangeOf(b);
        if b.end - b.begin >= size {
          break;
        }
        assert Ranges(free)[at..][1..] == Ranges(free)[at + 1..];
        b := b.next;
        at := at + 1;
      }
    }

    /** recycle_block_struct: the descriptor is unlinked from its list already. */
    method RecycleBlockStruct(b: PageBlock)
      requires InDescriptors(recycled) && List(recycledHead, recycled, RECYCLED) && b !in recycled && b in descriptors
      modifies `recycledHead, `recycled, b
      ensures recycled == [b] + old(recycled)
      ensures InDescriptors(recycled) && List(recycledHead, recycled, RECYCLED)
    {
      b.next, b.prev := null, null;
      b.begin, b.end := 0, 0;
      b.next := recycledHead;
      recycledHead := b;
      recycled := [b] + recycled;
      b.home := RECYCLED;
    }

    /** block_insert_and_coalesce behind a left neighbour; `b` is the list behind that. */
    method JoinBehind(left: PageBlock, n: PageBlock, ghost b: seq<PageBlock>, ghost home: int)
      returns (ghost t: seq<PageBlock>)
      requires List(left, [left] + b, home) && n.home == LOOSE && home != LOOSE && home != RECYCLED
      requires InDescriptors([left] + b) && n in descriptors
      requires InDescriptors(recycled) && List(recycledHead, recycled, RECYCLED)
      modifies `recycledHead, `recycled, left, n, b
      ensures List(left, t, home) && t != [] && t[0] == left && InDescriptors(t)
      ensures Ranges(t) == JoinAt(old(Ranges([left] + b)), 0, old(RangeOf(n)))
      ensures InDescriptors(recycled) && List(recycledHead, recycled, RECYCLED)
      ensures |recycled| == old(|recycled|) + 2 + |b| - |t|
    {
      hide JoinAt; hide JoinRight; hide Linked;
      SplitHead(left, b, home);
      ghost var l, rb, rn := RangeOf(left), Ranges(b), RangeOf(n);
      ghost var goal := JoinAt(Ranges([left] + b), 0, rn);
      RangesCat([left], b);
      assert Ranges([left]) == [l];
      JoinCases(l, rb, rn, Ranges([left] + b));
      var right := left.next;
      var stitchLeft := left.end == n.begin;
      var stitchRight := right != null && right.begin == n.end;
      LinkBehind(left, n, b);
      assert RangeOf(left) == l && Ranges(b) == rb && RangeOf(n) == rn;
      if stitchLeft && stitchRight {
        t := StitchBoth(left, n, right, b, home);
        assert Ranges(t) == goal;
      } else if stitchLeft {
        t := StitchLeft(left, n, right, b, home);
        assert Ranges(t) == goal;
      } else if stitchRight {
        t := StitchRight(left, n, right, b, home);
        assert Ranges(t) == goal;
      } else {
        t := KeepBetween(left, n, right, b, home);
        assert Ranges(t) == goal;
      }
    }

    /** The lists that a stitching branch works between. */
    ghost predicate Between(left: PageBlock, n: PageBlock, right: PageBlock?, b: seq<PageBlock>, home: int)
      reads this, left, n, b, recycled
    {
      && List(right, b, home) && left !in b && left.home == home && left != n && n !in b
      && n.home == LOOSE && home != LOOSE && home != RECYCLED
      && left in descriptors && InDescriptors(b) && n in descriptors
      && InDescriptors(recycled) && List(recycledHead, recycled, RECYCLED)
    }

    lemma SplitHead(left: PageBlock, b: seq<PageBlock>, home: int)
      requires List(left, [left] + b, home)
      ensures left !in b && left.next == First(b, null) && List(left.next, b, home) && left.home == home
    {
      HeadNotInTail(left, b);
      LinkedSplit(left, [left], b, null);
      assert left in [left] + b;
      forall c | c in b ensures c.home == home { assert c in [left] + b; }
    }

    /** Puts `n` between `left` and its successor. */
    method LinkBehind(left: PageBlock, n: PageBlock, ghost b: seq<PageBlock>)
      requires left != n && left !in b && n !in b && Linked(left.next, b, null)
      modifies left`next, n`prev, n`next, b
      ensures left.next == n && n.next == old(left.next) && Linked(n.next, b, null)
      ensures forall c <- b :: c.home == old(c.home) && RangeOf(c) == old(RangeOf(c))
    {
      var right := left.next;
      left.next := n;
      n.prev := left;
      n.next := right;
      if right != null {
        assert right == b[0];
        right.prev := n;
      }
    }

    method StitchLeft(left: PageBlock, n: PageBlock, right: PageBlock?, ghost b: seq<PageBlock>, ghost home: int)
      returns (ghost t: seq<PageBlock>)
      requires Between(left, n, right, b, home)
      modifies `recycledHead, `recycled, left`end, left`next, n, b
      ensures t == [left] + b && List(left, t, home)
      ensures Ranges(t) == [Range(left.begin, old(n.end))] + old(Ranges(b))
      ensures InDescriptors(recycled) && List(recycledHead, recycled, RECYCLED)
      ensures |recycled| == old(|recycled|) + 1
    {
      hide Memory.States;
      left.end := n.end;
      left.next := right;
      if right != null {
        assert right == b[0];
        right.prev := left;
      }
      t := [left] + b;
      LinkedCat(left, [left], right, b, null);
      RecycleBlockStruct(n);
    }

    method StitchRight(left: PageBlock, n: PageBlock, right: PageBlock, ghost b: seq<PageBlock>, ghost home: int)
      returns (ghost t: seq<PageBlock>)
      requires Between(left, n, right, b, home) && b != []
      modifies `recycledHead, `recycled, left`next, right`begin, right`prev, n
      ensures t == [left] + b && List(left, t, home)
      ensures Ranges(t) == [RangeOf(left)] + ([Range(old(n.begin), right.end)] + old(Ranges(b))[1..])
      ensures right.end == old(right.end)
      ensures InDescriptors(recycled) && List(recycledHead, recycled, RECYCLED)
      ensures |recycled| == old(|recycled|) + 1
    {
      NoRepeatsOfHead(right, b);
      right.begin := n.begin;
      right.prev := left;
      left.next := right;
      t := [left] + b;
      LinkedCat(left, [left], right, b, null);
      RecycleBlockStruct(n);
    }

    lemma NoRepeatsOfHead(right: PageBlock, b: seq<PageBlock>)
      requires b != [] && Linked(right, b, null)
      ensures forall i :: 1 <= i < |b| ==> b[i] != right
    {
      forall i | 1 <= i < |b| ensures b[i] != right { NoRepeats(right, b, 0, i); }
    }

    method KeepBetween(left: PageBlock, n: PageBlock, right: PageBlock?, ghost b: seq<PageBlock>, ghost home: int)
      returns (ghost t: seq<PageBlock>)
      requires Between(left, n, right, b, home) && left.next == n && n.next == right
      modifies n`home
      ensures t == [left] + ([n] + b) && List(left, t, home)
      ensures Ranges(t) == [RangeOf(left)] + ([RangeOf(n)] + Ranges(b)) && Ranges(b) == old(Ranges(b))
    {
      n.home := home;
      t := [left] + ([n] + b);
      LinkedCat(n, [n], right, b, null);
      LinkedCat(left, [left], n, [n] + b, null);
    }

    /** The branch for a block that touches both neighbours. */
    method StitchBoth(left: PageBlock, n: PageBlock, right: PageBlock, ghost b: seq<PageBlock>, ghost home: int)
      returns (ghost t: seq<PageBlock>)
      requires Between(left, n, right, b, home) && b != []
      modifies `recycledHead, `recycled, left`end, left`next, n, b
      ensures List(left, t, home) && t == [left] + b[1..]
      ensures Ranges(t) == [Range(left.begin, old(right.end))] + old(Ranges(b))[1..]
      ensures InDescriptors(recycled) && List(recycledHead, recycled, RECYCLED)
      ensures |recycled| == old(|recycled|) + 2
    {
      ghost var tail := b[1..];
      assert b == [right] + tail;
      HeadNotInTail(right, tail);
      LinkedSplit(right, [right], tail, null);
      RangesCat([right], tail);
      t := LinkOver(left, right, tail, home);
      RecycleBoth(right, n);
    }

    /** The left neighbour takes the place of its right neighbour as well. */
    method LinkOver(left: PageBlock, right: PageBlock, ghost tail: seq<PageBlock>, ghost home: int)
      returns (ghost t: seq<PageBlock>)
      requires left != right && left !in tail && right !in tail && left.home == home
      requires Linked(right.next, tail, null) && AtHome(tail, home)
      modifies left`end, left`next, tail`prev
      ensures t == [left] + tail && List(left, t, home)
      ensures Ranges(t) == [Range(left.begin, right.end)] + Ranges(tail) && Ranges(tail) == old(Ranges(tail))
    {
      left.end := right.end;
      left.next := right.next;
      if right.next != null {
        assert right.next == tail[0];
        right.next.prev := left;
      }
      t := [left] + tail;
      LinkedCat(left, [left], left.next, tail, null);
    }

    method RecycleBoth(b: PageBlock, c: PageBlock)
      requires InDescriptors(recycled) && List(recycledHead, recycled, RECYCLED)
      requires b.home != RECYCLED && c.home != RECYCLED && b != c && b in descriptors && c in descriptors
      modifies `recycledHead, `recycled, b, c
      ensures InDescriptors(recycled) && List(recycledHead, recycled, RECYCLED)
      ensures |recycled| == old(|recycled|) + 2
    {
      RecycleBlockStruct(b);
      RecycleBlockStruct(c);
    }

    /** block_insert_and_coalesce in front of a list without a left neighbour. */
    method JoinFront(list: PageBlock, n: PageBlock, ghost s: seq<PageBlock>, ghost home: int)
      returns (merged: PageBlock, ghost t: seq<PageBlock>)
      requires List(list, s, home) && n.home == LOOSE && home != LOOSE && home != RECYCLED
      requires InDescriptors(s) && n in descriptors
      requires InDescriptors(recycled) && List(recycledHead, recycled, RECYCLED)
      modifies `recycledHead, `recycled, s, n
      ensures List(merged, t, home) && InDescriptors(t)
      ensures Ranges(t) == JoinRight(old(RangeOf(n)), old(Ranges(s)))
      ensures InDescriptors(recycled) && List(recycledHead, recycled, RECYCLED)
      ensures |recycled| == old(|recycled|) + 1 + |s| - |t|
    {
      assert s != [] && list == s[0] && n !in s;
      hide Linked;
      ghost var rs, rn := Ranges(s), RangeOf(n);
      if list.begin == n.end {
        MergeFront(list, n, s, home);
        merged, t := list, s;
      } else {
        LinkFront(list, n, s, home);
        merged, t := n, [n] + s;
      }
      assert Ranges(t) == JoinRight(rn, rs);
    }

    method MergeFront(list: PageBlock, n: PageBlock, ghost s: seq<PageBlock>, ghost home: int)
      requires List(list, s, home) && s != [] && n.home == LOOSE && n !in s && home != RECYCLED && n in descriptors
      requires InDescriptors(recycled) && List(recycledHead, recycled, RECYCLED)
      modifies `recycledHead, `recycled, list`begin, list`prev, n
      ensures List(list, s, home)
      ensures Ranges(s) == [Range(old(n.begin), old(list.end))] + old(Ranges(s))[1..]
      ensures InDescriptors(recycled) && List(recycledHead, recycled, RECYCLED)
      ensures |recycled| == old(|recycled|) + 1
    {
      hide Memory.ValidBut;
      NoRepeatsOfHead(list, s);
      n.next := list;
      list.prev := n;
      list.begin := n.begin;
      list.prev := null;
      assert Ranges(s) == [Range(old(n.begin), old(list.end))] + old(Ranges(s))[1..];
      RecycleBlockStruct(n);
    }

    method LinkFront(list: PageBlock, n: PageBlock, ghost s: seq<PageBlock>, ghost home: int)
      requires List(list, s, home) && list in s && n !in s
      modifies list`prev, n`next, n`home
      ensures List(n, [n] + s, home) && Ranges([n] + s) == [old(RangeOf(n))] + old(Ranges(s))
    {
      n.next := list;
      list.prev := n;
      n.home := home;
      LinkedCat(n, [n], list, s, null);
      RangesCat([n], s);
    }

    /** block_insert_and_coalesce on the list `s` of home `home`. */
    method BlockInsertAndCoalesce(list: PageBlock?, n: PageBlock, ghost s: seq<PageBlock>, ghost home: int)
      returns (merged: PageBlock?, ghost t: seq<PageBlock>)
      requires List(list, s, home) && n.home == LOOSE && home != LOOSE && home != RECYCLED
      requires s == [] ==> n.next == null
      requires InDescriptors(s) && n in descriptors
      requires InDescriptors(recycled) && List(recycledHead, recycled, RECYCLED)
      modifies `recycledHead, `recycled, s, n
      ensures List(merged, t, home) && InDescriptors(t)
      ensures Ranges(t) == InsertCoalesce(old(Ranges(s)), old(RangeOf(n)))
      ensures InDescriptors(recycled) && List(recycledHead, recycled, RECYCLED)
      ensures |recycled| == old(|recycled|) + 1 + |s| - |t|
    {
      if list == null {
        n.home := home;
        merged, t := n, [n];
        return;
      }
      var left: PageBlock?, at := FindLeft(list, n.begin, s);
      if left == null {
        merged, t := JoinFront(list, n, s, home);
      } else {
        assert s[..at] + ([left] + s[at + 1..]) == s;
        RangesCat(s[..at], [left] + s[at + 1..]);
        t := InsertBehind(list, left, n, s[..at], s[at + 1..], home);
        merged := list;
        JoinAtShift(old(Ranges(s)), at, old(RangeOf(n)));
      }
    }

    method InsertBehind(list: PageBlock, left: PageBlock, n: PageBlock, ghost a: seq<PageBlock>, ghost b: seq<PageBlock>,
                        ghost home: int)
      returns (ghost t: seq<PageBlock>)
      requires List(list, a + ([left] + b), home) && n.home == LOOSE && home != LOOSE && home != RECYCLED
      requires InDescriptors(a + ([left] + b)) && n in descriptors
      requires InDescriptors(recycled) && List(recycledHead, recycled, RECYCLED)
      modifies `recycledHead, `recycled, left, n, b
      ensures List(list, t, home) && InDescriptors(t)
      ensures Ranges(t) == old(Ranges(a)) + JoinAt(old(Ranges([left] + b)), 0, old(RangeOf(n)))
      ensures InDescriptors(recycled) && List(recycledHead, recycled, RECYCLED)
      ensures |recycled| == old(|recycled|) + 2 + |a| + |b| - |t|
    {
      hide Memory.Between;
      ListSplit(list, a, [left] + b, home);
      PrefixApart(a, left, n, b, home);
      assert Linked(list, a, left);
      assert forall i :: 0 <= i < |a| ==> a[i] in a;
      assert forall c <- a :: c in a + ([left] + b);
      assert forall c <- [left] + b :: c in a + ([left] + b);
      ghost var u := JoinBehind(left, n, b, home);
      assert Linked(list, a, left) && AtHome(a, home);
      t := a + u;
      LinkedCat(list, a, left, u, null);
      RangesCat(a, u);
    }

    lemma PrefixApart(a: seq<PageBlock>, left: PageBlock, n: PageBlock, b: seq<PageBlock>, home: int)
      requires AtHome(a, home) && n.home != home && forall c <- a :: c !in [left] + b
      ensures left !in a && n !in a && forall c <- a :: c !in b
    {
      assert forall c <- b :: c in [left] + b;
      assert left in [left] + b;
    }

    lemma ListSplit(list: PageBlock?, a: seq<PageBlock>, b: seq<PageBlock>, home: int)
      requires List(list, a + b, home) && b != []
      ensures Linked(list, a, b[0]) && AtHome(a, home) && List(b[0], b, home)
      ensures forall c <- a :: c !in b
    {
      LinkedSplit(list, a, b, null);
      forall c | c in a ensures c.home == home && c !in b {
        assert c in a + b;
        var i :| 0 <= i < |a| && a[i] == c;
        if c in b {
          var j :| 0 <= j < |b| && b[j] == c;
          NoRepeats(list, a + b, i, |a| + j);
        }
      }
      forall c | c in b ensures c.home == home { assert c in a + b; }
    }

    lemma JoinAtShift(rs: seq<Range>, at: nat, n: Range)
      requires at < |rs|
      ensures JoinAt(rs, at, n) == rs[..at] + JoinAt(rs[at..], 0, n)
    {
      assert rs[at..][0] == rs[at] && rs[at..][1..] == rs[at + 1..] && rs[at..][..1] == [rs[at]];
      assert rs[..at + 1] == rs[..at] + [rs[at]];
    }

    /** The search loop of block_insert_and_coalesce. */
    method FindLeft(list: PageBlock?, begin: int, ghost s: seq<PageBlock>) returns (left: PageBlock?, ghost at: nat)
      requires Linked(list, s, null)
      ensures at == LeftNeighbour(Ranges(s), begin)
      ensures left == if at < |s| then s[at] else null
    {
      left := list;
      at := 0;
      while left != null
        invariant at <= |s| && left == (if at < |s| then s[at] else null)
        invariant LeftNeighbour(Ranges(s), begin) == at + LeftNeighbour(Ranges(s)[at..], begin)
        decreases |s| - at
      {
        assert Ranges(s)[at..][0] == RangeOf(left);
        if left.begin <= begin {
          break;
        }
        assert Ranges(s)[at..][1..] == Ranges(s)[at + 1..];
        left := left.next;
        at := at + 1;
      }
    }

    // ----- arena_push

    /** Takes bytes off the front of a free block. */
    method TakeFront(b: PageBlock, bytes: nat, ghost at: nat)
      requires Valid() && at < |free| && free[at] == b
      modifies b`begin
      ensures b.begin == old(b.begin) + bytes
      ensures Valid() && View() == old(View()).(free := old(Ranges(free))[at := RangeOf(b)])
    {
      ghost var after := View().(free := Ranges(free)[at := Range(b.begin + bytes, b.end)]);
      FreeApart(at);
      b.begin := b.begin + bytes;
      assert Ranges(free) == after.free;
      forall i | 0 <= i < |arenas| ensures arenas[i].State() == after.arenas[i] {
        assert Ranges(arenas[i].blocks) == old(View()).arenas[i].owned;
      }
      ViewIs(after);
    }

    /** Sets the window that an arena serves requests from. */
    method SetWindow(arena: Arena, avail: int, limit: int, ghost handed: seq<Range>, ghost a: nat)
      requires Valid() && a < |arenas| && arenas[a] == arena
      modifies arena`avail, arena`limit, arena`handed
      ensures arena.avail == avail && arena.limit == limit && arena.handed == handed
      ensures Valid() && View() == WithArena(old(View()), a, ArenaState(old(Ranges(arena.blocks)), avail, limit, handed))
    {
      hide Linked;
      ghost var after := WithArena(View(), a, ArenaState(Ranges(arena.blocks), avail, limit, handed));
      arena.avail, arena.limit, arena.handed := avail, limit, handed;
      assert Valid() && Ranges(free) == after.free;
      forall i | 0 <= i < |arenas| ensures arenas[i].State() == after.arenas[i] {
        assert Ranges(arenas[i].blocks) == old(View()).arenas[i].owned;
      }
      ViewIs(after);
    }

    ghost function WithArena(m: ArenaModel.Memory, a: nat, s: ArenaState): ArenaModel.Memory
      requires a < |m.arenas|
    {
      m.(arenas := m.arenas[a := s])
    }

    /** The part of a refill that takes memory from the free block. */
    method CarveBlock(arena: Arena, b: PageBlock, bytes: nat, ghost a: nat, ghost at: nat)
      requires Valid() && a < |arenas| && arenas[a] == arena && at < |free| && free[at] == b
      modifies b`begin, arena`avail, arena`limit, arena`handed
      ensures Valid() && View() == Carve(old(View()), a, at, bytes)
    {
      hide Linked; hide First; hide NextIn;
      ghost var before := View();
      var begin := b.begin;
      assert before.free[at] == RangeOf(b) && before.arenas[a] == arena.State();
      TakeFront(b, bytes, at);
      assert View().arenas[a] == arena.State();
      SetWindow(arena, begin, begin + bytes, arena.handed, a);
    }

    /** A free block is in no other position and in no other list. */
    lemma FreeApart(at: nat)
      requires Valid() && at < |free|
      ensures forall i :: 0 <= i < |free| && i != at ==> free[i] != free[at]
      ensures forall i :: 0 <= i < |arenas| ==> free[at] !in arenas[i].blocks
    {
      forall i | 0 <= i < |free| && i != at ensures free[i] != free[at] {
        NoRepeats(freeHead, free, if i < at then i else at, if i < at then at else i);
      }
      assert free[at] in free;
    }

    /** No descriptor of one list is in another one. */
    ghost predicate Apart(s: seq<PageBlock>, t: seq<PageBlock>, x: PageBlock) {
      forall i :: 0 <= i < |s| ==> s[i] !in t && s[i] != x
    }

    lemma ArenaApart(a: nat, x: PageBlock)
      requires Valid() && a < |arenas| && x.home == LOOSE
      ensures Apart(free, arenas[a].blocks, x)
      ensures forall i :: 0 <= i < |arenas| && i != a ==> Apart(arenas[i].blocks, arenas[a].blocks, x)
    {
    }

    lemma ViewIs(m: ArenaModel.Memory)
      requires Valid() && m.pageSize == pageSize && m.start == start && m.end == end
      requires m.free == Ranges(free) && m.recycled == |recycled| && |m.arenas| == |arenas|
      requires forall i :: 0 <= i < |arenas| ==> arenas[i].State() == m.arenas[i]
      ensures View() == m
    {
      assert States() == m.arenas;
    }

    /** Enters a block into the pages of arena `a`, which are at `list`. */
    method InsertOwned(list: PageBlock?, block: PageBlock, ghost s: seq<PageBlock>, ghost a: nat)
      returns (merged: PageBlock?, ghost t: seq<PageBlock>)
      requires Valid() && a < |arenas| && arenas[a].ownedPages == list && arenas[a].blocks == s
      requires block.home == LOOSE && block in descriptors && block.next == null
      modifies `recycledHead, `recycled, s, block
      ensures ValidBut(a) && Ranges(free) == old(Ranges(free))
      ensures List(merged, t, a) && InDescriptors(t)
      ensures Ranges(t) == InsertCoalesce(old(Ranges(s)), old(RangeOf(block)))
      ensures |recycled| + |t| == old(|recycled|) + |s| + 1
      ensures forall i :: 0 <= i < |arenas| && i != a ==> arenas[i].State() == old(arenas[i].State())
    {
      ArenaApart(a, block);
      merged, t := BlockInsertAndCoalesce(list, block, s, a);
      assert List(freeHead, free, FREE) && Ranges(free) == old(Ranges(free)) by {
        forall i | 0 <= i < |free| ensures unchanged(free[i]) {
          assert free[i] !in s;
        }
      }
      forall i | 0 <= i < |arenas| && i != a
        ensures InDescriptors(arenas[i].blocks) && List(arenas[i].ownedPages, arenas[i].blocks, i)
        ensures arenas[i].State() == old(arenas[i].State())
      {
        assert Apart(arenas[i].blocks, s, block);
        SameArena(arenas[i]);
      }
    }

    method SetPages(arena: Arena, list: PageBlock?, ghost s: seq<PageBlock>, ghost a: nat)
      requires ValidBut(a) && a < |arenas| && arenas[a] == arena && List(list, s, a) && InDescriptors(s)
      modifies arena`ownedPages, arena`blocks
      ensures Valid() && arena.blocks == s
      ensures Ranges(free) == old(Ranges(free)) && Ranges(s) == old(Ranges(s))
      ensures forall i :: 0 <= i < |arenas| && i != a ==> arenas[i].State() == old(arenas[i].State())
    {
      arena.ownedPages := list;
      arena.blocks := s;
      assert Valid();
    }

    /** `arena->owned_pages = block_insert_and_coalesce(...)` */
    method AdoptBlock(arena: Arena, block: PageBlock, ghost a: nat)
      requires Valid() && a < |arenas| && arenas[a] == arena
      requires block.home == LOOSE && block in descriptors && block.next == null
      modifies `recycledHead, `recycled, arena`ownedPages, arena`blocks, arena.blocks, block
      ensures Valid() && View() == Adopt(old(View()), a, old(RangeOf(block)))
    {
      ghost var after := Adopt(View(), a, RangeOf(block));
      assert View().arenas[a] == arena.State();
      var merged, t := InsertOwned(arena.ownedPages, block, arena.blocks, a);
      SetPages(arena, merged, t, a);
      assert arena.State() == after.arenas[a];
      ViewIs(after);
    }

    twostate lemma SameArena(x: Arena)
      requires unchanged(x) && forall i :: 0 <= i < |x.blocks| ==> unchanged(x.blocks[i])
      ensures x.State() == old(x.State())
      ensures forall home: int :: old(List(x.ownedPages, x.blocks, home)) ==> List(x.ownedPages, x.blocks, home)
    {
      assert Ranges(x.blocks) == old(Ranges(x.blocks));
    }

    method TakeRecycled(block: PageBlock)
      requires Valid() && recycledHead == block
      modifies `recycledHead, `recycled, block
      ensures block in descriptors && block.home == LOOSE
      ensures Valid() && View() == old(View()).(recycled := old(|recycled|) - 1)
    {
      ghost var after := View().(recycled := |recycled| - 1);
      ghost var rest := recycled[1..];
      assert recycled == [block] + rest && block in recycled;
      HeadNotInTail(block, rest);
      LinkedSplit(block, [block], rest, null);
      recycledHead := block.next;
      recycled := rest;
      block.home := LOOSE;
      assert Valid();
      forall i | 0 <= i < |arenas| ensures arenas[i].State() == after.arenas[i] {
        assert Ranges(arenas[i].blocks) == old(View()).arenas[i].owned;
      }
      ViewIs(after);
    }

    /** The memory that was handed out becomes a descriptor. */
    ghost method NewInDescriptors(block: PageBlock)
      requires Valid() && block !in descriptors && block.home == LOOSE
      modifies `descriptors
      ensures Valid() && View() == old(View()) && descriptors == old(descriptors) + {block}
    {
      descriptors := descriptors + {block};
      ViewIs(old(View()));
    }

    /** What a refill makes of the state: it takes memory from the free list, and enters it into
        the arena's pages under a new descriptor. */
    ghost function Refilled(m: ArenaModel.Memory, a: nat, size: nat): PushResult
      requires Usable(m) && a < |m.arenas| && size > 0 && (a == 0 ==> size == DESCRIPTOR_SIZE)
    {
      var i := FirstFit(m.free, size);
      var bytes := RoundUp(size, m.pageSize);
      if i == |m.free| then PushResult.OutOfMemory
      else if bytes > m.free[i].Size() then PushResult.AssertFailed
      else Taken(m, a, i, bytes)
    }

    ghost function Entered(m: ArenaModel.Memory, a: nat, r: Range): PushResult
      requires Usable(m) && a < |m.arenas|
    {
      var d := NewDescriptor(m);
      if d.Pushed? then Pushed(Adopt(d.mem, a, r), 0) else d
    }

    /** The refill of arena_push. */
    method Refill(arena: Arena, size: nat, ghost a: nat) returns (r: Answer<int>)
      requires Valid() && a < |arenas| && arenas[a] == arena && size > 0 && (a == 0 ==> size == DESCRIPTOR_SIZE)
      requires View().arenas[a].Full(size)
      modifies this, arenas, descriptors
      ensures SameEnd(r, Refilled(old(View()), a, size))
      ensures r.Done? ==> Valid() && View() == Refilled(old(View()), a, size).mem && arenas == old(arenas)
      ensures r.Done? ==> old(descriptors) <= descriptors && fresh(descriptors - old(descriptors))
      decreases Depth(View(), a, size), 0
    {
      hide Linked;
      var freeBlock, at := FindBlockFirstFit(size);
      if freeBlock == null {
        return Answer.OutOfMemory;
      }
      assert free[at] in free && View().free[at] == RangeOf(freeBlock);
      var bytes := RoundUp(size, pageSize);
      if bytes > freeBlock.end - freeBlock.begin {
        return Answer.AssertFailed;
      }
      RoundUpBounds(size, pageSize);
      DepthDrops(View(), a, at, size);
      RefilledIs(View(), a, size, at, bytes);
      r := TakeBlock(arena, freeBlock, bytes, a, at);
    }

    method TakeBlock(arena: Arena, b: PageBlock, bytes: nat, ghost a: nat, ghost at: nat) returns (r: Answer<int>)
      requires Valid() && a < |arenas| && arenas[a] == arena && at < |free| && free[at] == b
      modifies this, b, arenas, descriptors
      ensures SameEnd(r, Taken(old(View()), a, at, bytes))
      ensures r.Done? ==> Valid() && View() == Taken(old(View()), a, at, bytes).mem && arenas == old(arenas)
      ensures r.Done? ==> old(descriptors) <= descriptors && fresh(descriptors - old(descriptors))
      decreases Depth(Carve(View(), a, at, bytes), 0, DESCRIPTOR_SIZE), 4
    {
      hide Arena.State;
      var begin, end := b.begin, b.begin + bytes;
      ghost var goal := Taken(View(), a, at, bytes);
      assert goal == Entered(Carve(View(), a, at, bytes), a, Range(begin, end)) by {
        assert View().free[at] == RangeOf(b);
      }
      CarveBlock(arena, b, bytes, a, at);
      assert goal == Entered(View(), a, Range(begin, end));
      r := EnterBlock(arena, begin, end, a);
      assert r.Done? ==> View() == goal.mem;
    }

    /** What taking `bytes` from free block `i` makes of the state. */
    ghost function Taken(m: ArenaModel.Memory, a: nat, i: nat, bytes: nat): PushResult
      requires Usable(m) && a < |m.arenas| && i < |m.free|
    {
      Entered(Carve(m, a, i, bytes), a, Range(m.free[i].lo, m.free[i].lo + bytes))
    }

    lemma RefilledIs(m: ArenaModel.Memory, a: nat, size: nat, i: nat, bytes: nat)
      requires Usable(m) && a < |m.arenas| && size > 0 && (a == 0 ==> size == DESCRIPTOR_SIZE)
      requires i == FirstFit(m.free, size) < |m.free|
      requires bytes == RoundUp(size, m.pageSize) <= m.free[i].Size()
      ensures Refilled(m, a, size) == Taken(m, a, i, bytes)
    {
    }

    method EnterBlock(arena: Arena, begin: int, end: int, ghost a: nat) returns (r: Answer<int>)
      requires Valid() && a < |arenas| && arenas[a] == arena
      modifies this, arenas, descriptors
      ensures SameEnd(r, Entered(old(View()), a, Range(begin, end)))
      ensures r.Done? ==> Valid() && View() == Entered(old(View()), a, Range(begin, end)).mem && arenas == old(arenas)
      ensures r.Done? ==> old(descriptors) <= descriptors && fresh(descriptors - old(descriptors))
      decreases Depth(View(), 0, DESCRIPTOR_SIZE), 3
    {
      var block := GetNewBlockStruct();
      if !block.Done? {
        return if block.OutOfMemory? then Answer.OutOfMemory else Answer.AssertFailed;
      }
      FillBlock(block.value, begin, end);
      AdoptBlock(arena, block.value, a);
      return Done(begin);
    }

    lemma DepthDrops(m: ArenaModel.Memory, a: nat, i: nat, size: nat)
      requires Usable(m) && a < |m.arenas| && size > 0 && (a == 0 ==> size == DESCRIPTOR_SIZE)
      requires m.arenas[a].Full(size) && i < |m.free|
      ensures Depth(Carve(m, a, i, RoundUp(size, m.pageSize)), 0, DESCRIPTOR_SIZE) < Depth(m, a, size)
    {
      RoundUpBounds(size, m.pageSize);
    }

    /** memset of a descriptor that is in no list. */
    method ClearBlock(block: PageBlock)
      requires Valid() && block.home == LOOSE
      modifies block`next, block`prev, block`begin, block`end
      ensures block.next == null && Valid() && View() == old(View())
    {
      LooseApart(block);
      block.next, block.prev, block.begin, block.end := null, null, 0, 0;
      assert Valid();
      forall i | 0 <= i < |arenas| ensures arenas[i].State() == old(View()).arenas[i] {
        assert Ranges(arenas[i].blocks) == old(View()).arenas[i].owned;
      }
      assert Ranges(free) == old(View()).free;
      ViewIs(old(View()));
    }

    method FillBlock(block: PageBlock, begin: int, end: int)
      requires Valid() && block.home == LOOSE
      modifies block`begin, block`end
      ensures RangeOf(block) == Range(begin, end) && block.next == old(block.next)
      ensures Valid() && View() == old(View())
    {
      LooseApart(block);
      block.begin, block.end := begin, end;
      forall i | 0 <= i < |arenas| ensures arenas[i].State() == old(View()).arenas[i] {
        assert Ranges(arenas[i].blocks) == old(View()).arenas[i].owned;
      }
      assert Ranges(free) == old(View()).free;
      ViewIs(old(View()));
    }

    lemma LooseApart(block: PageBlock)
      requires Valid() && block.home == LOOSE
      ensures block !in free && block !in recycled
      ensures forall i :: 0 <= i < |arenas| ==> block !in arenas[i].blocks
    {
    }

    /** get_new_block_struct */
    method GetNewBlockStruct() returns (r: Answer<PageBlock>)
      requires Valid()
      modifies this, arenas, descriptors
      ensures SameEnd(r, NewDescriptor(old(View())))
      ensures r.Done? ==> Valid() && View() == NewDescriptor(old(View())).mem && arenas == old(arenas)
      ensures r.Done? ==> old(descriptors) <= descriptors && fresh(descriptors - old(descriptors))
      ensures r.Done? ==> r.value in descriptors && r.value.home == LOOSE && r.value.next == null
      decreases Depth(View(), 0, DESCRIPTOR_SIZE), 2
    {
      ghost var goal := NewDescriptor(View());
      assert goal == if recycled != [] then Pushed(View().(recycled := |recycled| - 1), 0)
                     else Push(View(), 0, DESCRIPTOR_SIZE);
      var block := recycledHead;
      if block != null {
        TakeRecycled(block);
      } else {
        var memory := ArenaPush(storage, DESCRIPTOR_SIZE, 0);
        if !memory.Done? {
          return if memory.OutOfMemory? then Answer.OutOfMemory else Answer.AssertFailed;
        }
        block := new PageBlock();
        NewInDescriptors(block);
      }
      ClearBlock(block);
      return Done(block);
    }

    lemma PushIs(m: ArenaModel.Memory, a: nat, size: nat)
      requires Usable(m) && a < |m.arenas| && size > 0 && (a == 0 ==> size == DESCRIPTOR_SIZE)
      ensures !m.arenas[a].Full(size) ==> Push(m, a, size) == Bump(m, a, size)
      ensures m.arenas[a].Full(size) && !Refilled(m, a, size).Pushed? ==> Push(m, a, size) == Refilled(m, a, size)
      ensures m.arenas[a].Full(size) && Refilled(m, a, size).Pushed? ==>
                |Refilled(m, a, size).mem.arenas| == |m.arenas| &&
                Push(m, a, size) == Bump(Refilled(m, a, size).mem, a, size)
    {
    }

    /** arena_push */
    method ArenaPush(arena: Arena, size: nat, ghost a: nat) returns (r: Answer<int>)
      requires Valid() && a < |arenas| && arenas[a] == arena && size > 0 && (a == 0 ==> size == DESCRIPTOR_SIZE)
      modifies this, arenas, descriptors
      ensures SameEnd(r, Push(old(View()), a, size))
      ensures r.Done? ==> Valid() && Pushed(View(), r.value) == Push(old(View()), a, size) && arenas == old(arenas)
      ensures r.Done? ==> old(descriptors) <= descriptors && fresh(descriptors - old(descriptors))
      decreases Depth(View(), a, size), 1
    {
      PushIs(View(), a, size);
      assert View().arenas[a] == arena.State();
      if arena.avail + size >= arena.limit {
        r := Refill(arena, size, a);
        if !r.Done? {
          return;
        }
      }
      var clientMemory := Serve(arena, size, a);
      return Done(clientMemory);
    }

    method Serve(arena: Arena, size: nat, ghost a: nat) returns (clientMemory: int)
      requires Valid() && a < |arenas| && arenas[a] == arena
      modifies arena`avail, arena`limit, arena`handed
      ensures Valid() && Pushed(View(), clientMemory) == Bump(old(View()), a, size)
    {
      assert View().arenas[a] == arena.State();
      clientMemory := arena.avail;
      SetWindow(arena, clientMemory + size, arena.limit, arena.handed + [Range(clientMemory, clientMemory + size)], a);
    }

    /** A client brings an arena of its own, all zero as in C. */
    ghost method Register(arena: Arena)
      requires Valid() && arena !in arenas && arena.State() == ZEROED && arena.blocks == [] && arena.ownedPages == null
      modifies `arenas
      ensures Valid() && arenas == old(arenas) + [arena]
      ensures View() == old(View()).(arenas := old(View()).arenas + [ZEROED])
    {
      ghost var after := View().(arenas := View().arenas + [ZEROED]);
      arenas := arenas + [arena];
      ViewIs(after);
    }

    // ----- arena_delete

    /** One round of arena_delete: the block that heads the list [p] + rest goes to the free list. */
    method ReleaseBlock(p: PageBlock, ghost rest: seq<PageBlock>, ghost a: nat) returns (next: PageBlock?)
      requires ValidBut(a) && a < |arenas| && List(p, [p] + rest, a) && InDescriptors([p] + rest)
      modifies `freeHead, `free, `recycledHead, `recycled, free, p
      ensures ValidBut(a) && List(next, rest, a) && Ranges(rest) == old(Ranges(rest)) && InDescriptors(rest)
      ensures Ranges(free) == InsertCoalesce(old(Ranges(free)), old(RangeOf(p)))
      ensures |recycled| + |free| == old(|recycled| + |free|) + 1
      ensures forall i :: 0 <= i < |arenas| && i != a ==> arenas[i].State() == old(arenas[i].State())
    {
      next := Unlink(p, rest, a);
      ghost var s := free;
      ReturnBlock(p, a);
      forall i | 0 <= i < |rest| ensures unchanged(rest[i]) {
        assert rest[i] !in s;
      }
    }

    method Unlink(p: PageBlock, ghost rest: seq<PageBlock>, ghost a: nat) returns (next: PageBlock?)
      requires ValidBut(a) && a < |arenas| && List(p, [p] + rest, a) && InDescriptors([p] + rest)
      modifies p`home
      ensures ValidBut(a) && p.home == LOOSE && p in descriptors && p !in free
      ensures List(next, rest, a) && InDescriptors(rest) && Apart(rest, free, p)
      ensures Ranges(rest) == old(Ranges(rest)) && Ranges(free) == old(Ranges(free))
      ensures forall i :: 0 <= i < |arenas| && i != a ==> arenas[i].State() == old(arenas[i].State())
    {
      HeadNotInTail(p, rest);
      LinkedSplit(p, [p], rest, null);
      assert p in [p] + rest && forall b <- rest :: b in [p] + rest;
      ReleaseApart(p, rest, a);
      next := p.next;
      p.home := LOOSE;
    }

    /** `block_freelist_head = block_insert_and_coalesce(...)` */
    method ReturnBlock(p: PageBlock, ghost a: nat)
      requires ValidBut(a) && a < |arenas| && p.home == LOOSE && p in descriptors
      modifies `freeHead, `free, `recycledHead, `recycled, free, p
      ensures ValidBut(a)
      ensures Ranges(free) == InsertCoalesce(old(Ranges(free)), old(RangeOf(p)))
      ensures |recycled| + |free| == old(|recycled| + |free|) + 1
      ensures forall i :: 0 <= i < |arenas| && i != a ==> arenas[i].State() == old(arenas[i].State())
    {
      hide InsertCoalesce;
      ghost var s, t := free, [];
      freeHead, t := BlockInsertAndCoalesce(freeHead, p, free, FREE);
      free := t;
      assert List(freeHead, free, FREE) && InDescriptors(free) && free != [] && arenas[0] == storage;
      forall i | 0 <= i < |arenas| && i != a
        ensures InDescriptors(arenas[i].blocks) && List(arenas[i].ownedPages, arenas[i].blocks, i)
        ensures arenas[i].State() == old(arenas[i].State())
      {
        assert Apart(arenas[i].blocks, s, p);
        SameArena(arenas[i]);
      }
    }

    lemma ReleaseApart(p: PageBlock, rest: seq<PageBlock>, a: nat)
      requires ValidBut(a) && a < |arenas| && AtHome([p] + rest, a) && p !in rest
      ensures Apart(rest, free, p) && p !in free
      ensures forall i :: 0 <= i < |arenas| && i != a ==> Apart(arenas[i].blocks, free, p)
    {
      assert p in [p] + rest && forall b <- rest :: b in [p] + rest;
    }

    ghost predicate OthersAre(a: nat, m: ArenaModel.Memory)
      requires ValidBut(a) && a < |arenas| == |m.arenas|
      reads this, arenas, descriptors
    {
      forall i :: 0 <= i < |arenas| && i != a ==> arenas[i].State() == m.arenas[i]
    }

    lemma ReleaseStep(free: seq<Range>, blocks: seq<Range>, b: Range, rest: seq<Range>)
      requires blocks == [b] + rest
      ensures Release(free, blocks) == Release(InsertCoalesce(free, b), rest)
    {
      assert blocks[1..] == rest;
    }

    method ReleaseFirst(p: PageBlock, ghost s: seq<PageBlock>, ghost a: nat, ghost m: ArenaModel.Memory)
      returns (next: PageBlock?, ghost rest: seq<PageBlock>)
      requires ValidBut(a) && a < |arenas| == |m.arenas| && List(p, s, a) && InDescriptors(s) && OthersAre(a, m)
      modifies `freeHead, `free, `recycledHead, `recycled, free, p
      ensures ValidBut(a) && List(next, rest, a) && InDescriptors(rest) && OthersAre(a, m)
      ensures Release(Ranges(free), Ranges(rest)) == old(Release(Ranges(free), Ranges(s)))
      ensures |recycled| + |free| + |rest| == old(|recycled| + |free|) + |s| && |rest| < |s|
    {
      rest := s[1..];
      assert s == [p] + rest;
      assert Ranges(s) == [RangeOf(p)] + Ranges(rest);
      ReleaseStep(Ranges(free), Ranges(s), RangeOf(p), Ranges(rest));
      next := ReleaseBlock(p, rest, a);
    }

    /** arena_delete */
    method ArenaDelete(arena: Arena, ghost a: nat)
      requires Valid() && a < |arenas| && arenas[a] == arena
      modifies this, arena, descriptors
      ensures Valid() && View() == Delete(old(View()), a)
      ensures arenas == old(arenas) && descriptors == old(descriptors)
    {
      hide Depth;
      ghost var m := View();
      var p := arena.ownedPages;
      ghost var rest := arena.blocks;
      ghost var done := Release(m.free, m.arenas[a].owned);
      while p != null
        invariant arenas == old(arenas) && descriptors == old(descriptors)
        invariant ValidBut(a) && List(p, rest, a) && InDescriptors(rest) && OthersAre(a, m)
        invariant Release(Ranges(free), Ranges(rest)) == done
        invariant |recycled| + |free| + |rest| == m.recycled + |m.free| + |m.arenas[a].owned|
        decreases |rest|
      {
        p, rest := ReleaseFirst(p, rest, a, m);
      }
      ForgetPages(arena, a, m);
      SetWindow(arena, 0, 0, [], a);
    }

    /** The list of an arena whose blocks are gone. */
    method ForgetPages(arena: Arena, ghost a: nat, ghost m: ArenaModel.Memory)
      requires ValidBut(a) && a < |arenas| == |m.arenas| && arenas[a] == arena && OthersAre(a, m)
      requires m.pageSize == pageSize && m.start == start && m.end == end
      requires Ranges(free) == Release(m.free, m.arenas[a].owned)
      requires |recycled| + |free| == m.recycled + |m.free| + |m.arenas[a].owned|
      modifies arena`ownedPages, arena`blocks
      ensures Valid() && arena.blocks == []
      ensures View() == WithArena(Delete(m, a), a, ArenaState([], arena.avail, arena.limit, arena.handed))
    {
      SetPages(arena, null, [], a);
      ViewIs(WithArena(Delete(m, a), a, ArenaState([], arena.avail, arena.limit, arena.handed)));
    }
  }
}
