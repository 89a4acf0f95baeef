/** Lists of memory ranges as arena.c keeps them: first-fit search, insertion with
    coalescing, and what these do to the bytes the lists cover. */
module PageRanges {

  /** The memory from `lo` up to and excluding `hi`. */
  datatype Range = Range(lo: int, hi: int) {
    predicate Has(x: int) {
      lo <= x < hi
    }
    function Size(): int {
      hi - lo
    }
  }

  /** How many ranges of the list contain the byte `x`. */
  function Count(rs: seq<Range>, x: int): (n: nat) {
    if rs == [] then 0 else (if rs[0].Has(x) then 1 else 0) + Count(rs[1..], x)
  }

  ghost predicate Proper(rs: seq<Range>) {
    forall i :: 0 <= i < |rs| ==> rs[i].lo <= rs[i].hi
  }

  /** find_block_first_fit: the first index whose range has at least `size` bytes. */
  function FirstFit(rs: seq<Range>, size: int): (i: nat)
    ensures i <= |rs|
    ensures i < |rs| ==> rs[i].Size() >= size
    ensures forall j :: 0 <= j < i ==> rs[j].Size() < size
  {
    if rs == [] then 0
    else if rs[0].Size() >= size then 0
    else
      var k := FirstFit(rs[1..], size);
      assert forall j :: 1 <= j < k + 1 ==> rs[j] == rs[1..][j - 1];
      k + 1
  }

  /** The search in block_insert_and_coalesce: the first range that starts at or before `lo`. */
  function LeftNeighbour(rs: seq<Range>, lo: int): (i: nat)
    ensures i <= |rs|
    ensures i < |rs| ==> rs[i].lo <= lo
    ensures forall j :: 0 <= j < i ==> rs[j].lo > lo
  {
    if rs == [] || rs[0].lo <= lo then 0
    else
      var k := LeftNeighbour(rs[1..], lo);
      assert forall j :: 1 <= j < k + 1 ==> rs[j] == rs[1..][j - 1];
      k + 1
  }

  /** The search that the comment in the code describes: the last such range. */
  function LastLeft(rs: seq<Range>, lo: int): (i: nat)
    ensures i <= |rs|
    ensures i < |rs| ==> rs[i].lo <= lo && forall j :: i < j < |rs| ==> rs[j].lo > lo
    ensures i == |rs| ==> forall j :: 0 <= j < |rs| ==> rs[j].lo > lo
  {
    if rs == [] then 0
    else
      var k := LastLeft(rs[1..], lo);
      assert forall j :: 1 <= j < |rs| ==> rs[j] == rs[1..][j - 1];
      if k < |rs| - 1 then k + 1 else if rs[0].lo <= lo then 0 else |rs|
  }

  /** Puts `n` behind the range at `at` (in front of all if there is none) and merges it with
      the neighbours it touches. */
  function JoinAt(rs: seq<Range>, at: nat, n: Range): (r: seq<Range>)
    requires at <= |rs|
  {
    if at == |rs| then JoinRight(n, rs)
    else if rs[at].hi == n.lo then rs[..at] + JoinRight(Range(rs[at].lo, n.hi), rs[at + 1..])
    else rs[..at + 1] + JoinRight(n, rs[at + 1..])
  }

  /** `n` in front of the list, merged with the first range if they touch. */
  function JoinRight(n: Range, rs: seq<Range>): (r: seq<Range>) {
    if rs != [] && rs[0].lo == n.hi then [Range(n.lo, rs[0].hi)] + rs[1..] else [n] + rs
  }

  /** block_insert_and_coalesce on the ranges of the list. */
  function InsertCoalesce(rs: seq<Range>, n: Range): (r: seq<Range>)
    ensures r != []
  {
    JoinAt(rs, LeftNeighbour(rs, n.lo), n)
  }

  /** The same with the search that was meant. */
  function InsertMeant(rs: seq<Range>, n: Range): (r: seq<Range>) {
    JoinAt(rs, LastLeft(rs, n.lo), n)
  }

  // ----- coverage

  lemma {:induction false} CountCat(a: seq<Range>, b: seq<Range>, x: int)
    ensures Count(a + b, x) == Count(a, x) + Count(b, x)
  {
    if a == [] {
      assert a + b == b;
    } else {
      CountCat(a[1..], b, x);
      assert (a + b)[1..] == a[1..] + b;
    }
  }

  lemma CountOne(n: Range, x: int)
    ensures Count([n], x) == if n.Has(x) then 1 else 0
  {
    assert Count([n], x) == (if n.Has(x) then 1 else 0) + Count([], x);
  }

  lemma CountJoinRight(n: Range, rs: seq<Range>, x: int)
    requires n.lo <= n.hi && Proper(rs)
    ensures Count(JoinRight(n, rs), x) == Count([n], x) + Count(rs, x)
  {
    if rs != [] && rs[0].lo == n.hi {
      var m := Range(n.lo, rs[0].hi);
      CountCat([m], rs[1..], x);
      CountOne(m, x);
      CountOne(n, x);
    } else {
      CountCat([n], rs, x);
    }
  }

  lemma CountJoinAt(rs: seq<Range>, at: nat, n: Range, x: int)
    requires at <= |rs| && n.lo <= n.hi && Proper(rs)
    ensures Count(JoinAt(rs, at, n), x) == Count(rs, x) + Count([n], x)
  {
    if at == |rs| {
      CountJoinRight(n, rs, x);
    } else {
      var left, right := rs[at], rs[at + 1..];
      assert rs == rs[..at] + ([left] + right);
      CountCat(rs[..at], [left] + right, x);
      CountCat([left], right, x);
      CountOne(left, x);
      CountOne(n, x);
      if left.hi == n.lo {
        var m := Range(left.lo, n.hi);
        CountJoinRight(m, right, x);
        CountCat(rs[..at], JoinRight(m, right), x);
        CountOne(m, x);
      } else {
        CountJoinRight(n, right, x);
        assert rs[..at + 1] == rs[..at] + [left];
        CountCat(rs[..at], [left], x);
        CountCat(rs[..at + 1], JoinRight(n, right), x);
      }
    }
  }

  /** Inserting a block adds exactly its bytes, each as often as it has it, to what the list
      covers, wherever the search puts it. */
  lemma InsertCovers(rs: seq<Range>, n: Range, x: int)
    requires n.lo <= n.hi && Proper(rs)
    ensures Count(InsertCoalesce(rs, n), x) == Count(rs, x) + Count([n], x)
  {
    CountJoinAt(rs, LeftNeighbour(rs, n.lo), n, x);
  }

  // ----- order

  predicate Below(rs: seq<Range>, i: nat)
    requires i + 1 < |rs|
  {
    rs[i].hi <= rs[i + 1].lo
  }

  predicate Touch(rs: seq<Range>, i: nat)
    requires i + 1 < |rs|
  {
    rs[i].hi == rs[i + 1].lo
  }

  /** Ascending, without overlap. */
  ghost predicate Ordered(rs: seq<Range>) {
    Proper(rs) && forall i: nat :: i + 1 < |rs| ==> Below(rs, i)
  }

  /** No two neighbours touch. */
  ghost predicate FullyMerged(rs: seq<Range>) {
    forall i: nat :: i + 1 < |rs| ==> !Touch(rs, i)
  }

  /** The block has bytes and shares none with the list. */
  ghost predicate Apart(rs: seq<Range>, n: Range) {
    n.lo < n.hi && forall i :: 0 <= i < |rs| ==> n.hi <= rs[i].lo || rs[i].hi <= n.lo
  }

  lemma {:induction false} OrderedPair(rs: seq<Range>, i: nat, j: nat)
    requires Ordered(rs) && i < j < |rs|
    ensures rs[i].hi <= rs[j].lo
  {
    if i + 1 < j { OrderedPair(rs, i, j - 1); }
    assert Below(rs, j - 1);
  }

  lemma OrderedCat(a: seq<Range>, b: seq<Range>)
    requires Ordered(a) && Ordered(b) && b != []
    requires a != [] ==> a[|a| - 1].hi <= b[0].lo
    ensures Ordered(a + b)
    ensures FullyMerged(a) && FullyMerged(b) && (a != [] ==> a[|a| - 1].hi != b[0].lo) ==> FullyMerged(a + b)
  {
    forall i: nat | i + 1 < |a + b|
      ensures Below(a + b, i)
      ensures FullyMerged(a) && FullyMerged(b) && (a != [] ==> a[|a| - 1].hi != b[0].lo) ==> !Touch(a + b, i)
    {
      if i + 1 < |a| {
        assert Below(a, i) && (FullyMerged(a) ==> !Touch(a, i));
      } else if i >= |a| {
        assert Below(b, i - |a|) && (FullyMerged(b) ==> !Touch(b, i - |a|));
      }
    }
  }

  lemma SliceOrdered(rs: seq<Range>, i: nat, j: nat)
    requires Ordered(rs) && i <= j <= |rs|
    ensures Ordered(rs[i..j]) && (FullyMerged(rs) ==> FullyMerged(rs[i..j]))
  {
    forall k: nat | k + 1 < |rs[i..j]|
      ensures Below(rs[i..j], k) && (FullyMerged(rs) ==> !Touch(rs[i..j], k))
    {
      assert Below(rs, i + k) && (FullyMerged(rs) ==> !Touch(rs, i + k));
    }
  }

  lemma JoinRightOrder(n: Range, rs: seq<Range>)
    requires Ordered(rs) && n.lo < n.hi && (rs != [] ==> n.hi <= rs[0].lo)
    ensures var r := JoinRight(n, rs);
            Ordered(r) && r[0].lo == n.lo && (FullyMerged(rs) ==> FullyMerged(r))
  {
    if rs != [] && rs[0].lo == n.hi && |rs| > 1 {
      SliceOrdered(rs, 1, |rs|);
      assert rs[1..|rs|] == rs[1..];
      assert Below(rs, 0) && (FullyMerged(rs) ==> !Touch(rs, 0));
      OrderedCat([Range(n.lo, rs[0].hi)], rs[1..]);
    } else if rs != [] && rs[0].lo != n.hi {
      OrderedCat([n], rs);
    }
  }

  lemma BehindOrder(head: seq<Range>, n: Range, tail: seq<Range>)
    requires Ordered(head) && Ordered(tail) && n.lo < n.hi
    requires head != [] ==> head[|head| - 1].hi <= n.lo
    requires tail != [] ==> n.hi <= tail[0].lo
    ensures Ordered(head + JoinRight(n, tail))
    ensures FullyMerged(head) && FullyMerged(tail) && (head != [] ==> head[|head| - 1].hi != n.lo) ==>
            FullyMerged(head + JoinRight(n, tail))
  {
    JoinRightOrder(n, tail);
    OrderedCat(head, JoinRight(n, tail));
  }

  lemma JoinKeepsOrder(rs: seq<Range>, at: nat, n: Range)
    requires Ordered(rs) && n.lo < n.hi && at <= |rs|
    requires at < |rs| ==> rs[at].hi <= n.lo
    requires var next := if at < |rs| then at + 1 else 0; next < |rs| ==> n.hi <= rs[next].lo
    ensures Ordered(JoinAt(rs, at, n))
    ensures FullyMerged(rs) ==> FullyMerged(JoinAt(rs, at, n))
  {
    if at == |rs| {
      JoinRightOrder(n, rs);
    } else {
      SliceOrdered(rs, at + 1, |rs|);
      SliceOrdered(rs, 0, at);
      SliceOrdered(rs, 0, at + 1);
      assert rs[at + 1..|rs|] == rs[at + 1..] && rs[0..at] == rs[..at] && rs[0..at + 1] == rs[..at + 1];
      if at > 0 { assert Below(rs, at - 1) && (FullyMerged(rs) ==> !Touch(rs, at - 1)); }
      if rs[at].hi == n.lo {
        BehindOrder(rs[..at], Range(rs[at].lo, n.hi), rs[at + 1..]);
      } else {
        BehindOrder(rs[..at + 1], n, rs[at + 1..]);
      }
    }
  }

  /** The search that was meant keeps the list ascending and fully merged. */
  lemma MeantKeepsOrder(rs: seq<Range>, n: Range)
    requires Ordered(rs) && Apart(rs, n)
    ensures Ordered(InsertMeant(rs, n))
    ensures FullyMerged(rs) ==> FullyMerged(InsertMeant(rs, n))
  {
    JoinKeepsOrder(rs, LastLeft(rs, n.lo), n);
  }

  /** As written, the search takes the first range at or below the block, so order survives
      exactly if there is no second range below it. */
  lemma OrderKeptIff(rs: seq<Range>, n: Range)
    requires Ordered(rs) && Apart(rs, n)
    ensures Ordered(InsertCoalesce(rs, n)) <==> |rs| < 2 || n.lo < rs[0].lo || n.lo < rs[1].lo
  {
    var at := LeftNeighbour(rs, n.lo);
    LowestFirst(rs, n.lo);
    if |rs| < 2 || n.lo < rs[0].lo || n.lo < rs[1].lo {
      JoinKeepsOrder(rs, at, n);
    } else {
      var r := InsertCoalesce(rs, n);
      if rs[0].hi == n.lo {
        assert r[0] == Range(rs[0].lo, n.hi) && r[1] == rs[1];
        assert !Below(r, 0);
      } else {
        assert r[1] == n && r[2] == rs[1];
        assert !Below(r, 1);
      }
    }
  }

  /** In an ascending list the first range at or below `lo` is the lowest one, or there is none. */
  lemma LowestFirst(rs: seq<Range>, lo: int)
    requires Ordered(rs)
    ensures LeftNeighbour(rs, lo) == if rs != [] && rs[0].lo <= lo then 0 else |rs|
  {
    var at := LeftNeighbour(rs, lo);
    if 0 < at < |rs| {
      OrderedPair(rs, 0, at);
    }
  }

  /** Under the same condition the code computes what was meant. */
  lemma AsMeantIff(rs: seq<Range>, n: Range)
    requires Ordered(rs) && Apart(rs, n)
    ensures InsertCoalesce(rs, n) == InsertMeant(rs, n) <==> |rs| < 2 || n.lo < rs[0].lo || n.lo < rs[1].lo
  {
    LowestFirst(rs, n.lo);
    if |rs| >= 2 && n.lo >= rs[0].lo && n.lo >= rs[1].lo {
      MeantKeepsOrder(rs, n);
      OrderKeptIff(rs, n);
    } else if |rs| >= 2 && n.lo >= rs[0].lo {
      forall j | 1 <= j < |rs| ensures rs[j].lo > n.lo {
        if j > 1 { OrderedPair(rs, 1, j); }
      }
    } else if rs != [] && n.lo < rs[0].lo {
      forall j | 1 <= j < |rs| ensures rs[j].lo > n.lo { OrderedPair(rs, 0, j); }
    }
  }

  /** A run of three blocks that comes back out of order. */
  lemma OrderLost()
    ensures InsertCoalesce([Range(0, 4), Range(8, 12)], Range(16, 20)) == [Range(0, 4), Range(16, 20), Range(8, 12)]
  {
  }
}
