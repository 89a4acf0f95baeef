/** The chained hash table of symtable.c, which grows by relinking its entries in place. */
module SymbolTable {
  import opened ArenaModel
  import opened Hash
  import opened Tokens
  import opened ScopeStacks
  import opened Wrappers

  /** The segment table of the bucket array has room for 2^24 - 1 buckets. */
  const MAX_LOG2: nat := 24

  function Limit(): nat {
    Pow2(MAX_LOG2) - 1
  }

  /** hash_string as a value. The table works with any hash that stays below the capacity. */
  function HashName(s: string, m: nat): nat {
    if 0 < m <= 32 then HashString(s, m) else 0
  }

  ghost predicate InRange(f: (string, nat) -> nat) {
    forall s, m :: 0 < m <= 32 ==> f(s, m) < Pow2(m) - 1
  }

  type HashFunction = f: (string, nat) -> nat | InRange(f) witness HashName

  /** The stacks are linked symbols in C, newest first; nothing but their heads changes. */
  class SymtableEntry {
    const name: string
    var idKw: seq<Symbol>
    var idType: seq<Symbol>
    var idIdent: seq<Symbol>
    var nextEntry: SymtableEntry?

    constructor (name: string)
      ensures this.name == name && idKw == [] && idType == [] && idIdent == [] && nextEntry == null
    {
      this.name := name;
      idKw, idType, idIdent := [], [], [];
      nextEntry := null;
    }

    ghost function Declarations(): Stacks
      reads `idKw, `idType, `idIdent
    {
      Stacks(idKw, idType, idIdent)
    }
  }

  ghost function NextOf(s: seq<SymtableEntry>, i: int): SymtableEntry?
    requires 0 <= i < |s|
  {
    if i + 1 < |s| then s[i + 1] else null
  }

  /** The entries of a bucket, in the order of their links. */
  ghost predicate Chain(head: SymtableEntry?, s: seq<SymtableEntry>)
    reads s`nextEntry
  {
    && head == (if s == [] then null else s[0])
    && forall i {:trigger s[i].nextEntry} :: 0 <= i < |s| ==> s[i].nextEntry == NextOf(s, i)
  }

  lemma {:induction false} ChainDistinct(head: SymtableEntry?, s: seq<SymtableEntry>, i: nat, j: nat)
    requires Chain(head, s) && i < j < |s|
    ensures s[i] != s[j]
    decreases |s| - j
  {
    if s[i] == s[j] {
      assert s[i].nextEntry == NextOf(s, i) && s[j].nextEntry == NextOf(s, j);
      if j + 1 < |s| { ChainDistinct(head, s, i + 1, j + 1); }
    }
  }

  ghost predicate Distinct(s: seq<SymtableEntry>) {
    forall i, j :: 0 <= i < j < |s| ==> s[i] != s[j]
  }

  lemma ChainsDistinct(head: SymtableEntry?, s: seq<SymtableEntry>)
    requires Chain(head, s)
    ensures Distinct(s)
  {
    forall i, j | 0 <= i < j < |s| ensures s[i] != s[j] { ChainDistinct(head, s, i, j); }
  }

  /** The number of entries that the buckets reach. */
  ghost function Total(chains: seq<seq<SymtableEntry>>): nat {
    if chains == [] then 0 else Total(chains[..|chains| - 1]) + |chains[|chains| - 1]|
  }

  lemma {:induction false} TotalUpdate(chains: seq<seq<SymtableEntry>>, h: nat, s: seq<SymtableEntry>)
    requires h < |chains|
    ensures Total(chains[h := s]) + |chains[h]| == Total(chains) + |s|
  {
    var front := chains[..|chains| - 1];
    if h < |front| {
      TotalUpdate(front, h, s);
      assert chains[h := s][..|chains| - 1] == front[h := s];
    } else {
      assert chains[h := s][..|chains| - 1] == front;
    }
  }

  lemma {:induction false} TotalEmpty(chains: seq<seq<SymtableEntry>>)
    requires forall b :: 0 <= b < |chains| ==> chains[b] == []
    ensures Total(chains) == 0
  {
    if chains != [] { TotalEmpty(chains[..|chains| - 1]); }
  }

  // ----- where entries belong

  /** One entry a name. */
  ghost predicate Indexed(index: map<string, SymtableEntry>, entries: set<SymtableEntry>) {
    && (forall n <- index :: index[n].name == n && index[n] in entries)
    && (forall e <- entries :: e.name in index && index[e.name] == e)
  }

  lemma IndexedInsert(index: map<string, SymtableEntry>, entries: set<SymtableEntry>, e: SymtableEntry)
    requires Indexed(index, entries) && e.name !in index
    ensures Indexed(index[e.name := e], entries + {e})
  {
  }

  lemma AddIs(t: Table, space: Space, name: string, level: int, ast: nat)
    ensures var was, symbol := Touch(t, name)[name], NewSymbol(space, name, level, ast);
            Add(t, space, name, level, ast) == Touch(t, name)[name := if space == Types then was.(types := [symbol] + was.types)
                                                                      else was.(idents := [symbol] + was.idents)]
  {
  }

  function Bucket(f: HashFunction, m: nat, name: string): (b: nat)
    requires 0 < m <= MAX_LOG2
    ensures b < Pow2(m) - 1
  {
    f(name, m)
  }

  /** Every entry is in the chain of its name, and in no other. */
  ghost predicate Sorted(f: HashFunction, m: nat, chains: seq<seq<SymtableEntry>>, entries: set<SymtableEntry>)
    requires 0 < m <= MAX_LOG2
  {
    && |chains| == Pow2(m) - 1
    && (forall e <- entries :: e in chains[Bucket(f, m, e.name)])
    && (forall b, e :: 0 <= b < |chains| && e in chains[b] ==> e in entries && Bucket(f, m, e.name) == b)
  }

  /** The entries of the first `i` buckets, each once. */
  ghost predicate Collected(f: HashFunction, m: nat, chains: seq<seq<SymtableEntry>>, entries: set<SymtableEntry>,
                            all: seq<SymtableEntry>, i: nat)
    requires 0 < m <= MAX_LOG2
  {
    && i <= |chains| && |all| == Total(chains[..i]) && Distinct(all)
    && (forall e <- all :: e in entries && Bucket(f, m, e.name) < i)
    && (forall e <- entries :: Bucket(f, m, e.name) < i ==> e in all)
  }

  lemma CollectStep(f: HashFunction, m: nat, chains: seq<seq<SymtableEntry>>, entries: set<SymtableEntry>,
                    all: seq<SymtableEntry>, i: nat)
    requires 0 < m <= MAX_LOG2 && Sorted(f, m, chains, entries)
    requires i < |chains| && Collected(f, m, chains, entries, all, i) && Distinct(chains[i])
    ensures Collected(f, m, chains, entries, all + chains[i], i + 1)
  {
    assert chains[..i + 1][..i] == chains[..i];
    forall x, y | 0 <= x < y < |all + chains[i]| ensures (all + chains[i])[x] != (all + chains[i])[y] {
      if x < |all| <= y { assert (all + chains[i])[x] in all && (all + chains[i])[y] in chains[i]; }
    }
  }

  /** A buffer with every entry once. */
  ghost predicate Complete(all: seq<SymtableEntry>, entries: set<SymtableEntry>) {
    Distinct(all) && (forall e <- all :: e in entries) && (forall e <- entries :: e in all)
  }

  lemma CollectedAll(f: HashFunction, m: nat, chains: seq<seq<SymtableEntry>>, entries: set<SymtableEntry>,
                     all: seq<SymtableEntry>)
    requires 0 < m <= MAX_LOG2 && |chains| == Pow2(m) - 1 && Collected(f, m, chains, entries, all, |chains|)
    ensures Complete(all, entries) && |all| == Total(chains)
  {
    assert chains[..|chains|] == chains;
    forall e | e in entries ensures e in all { assert Bucket(f, m, e.name) < |chains|; }
  }

  /** The entries all[..i] are in the buckets of their names, and no others are in any. */
  ghost predicate Rehashed(f: HashFunction, m: nat, chains: seq<seq<SymtableEntry>>, all: seq<SymtableEntry>, i: nat)
    requires 0 < m <= MAX_LOG2 && i <= |all|
  {
    && |chains| == Pow2(m) - 1 && Total(chains) == i
    && (forall k :: 0 <= k < i ==> all[k] in chains[Bucket(f, m, all[k].name)])
    && (forall b, e :: 0 <= b < |chains| && e in chains[b] ==> e in all[..i] && Bucket(f, m, e.name) == b)
  }

  ghost function Prepended(chains: seq<seq<SymtableEntry>>, h: nat, e: SymtableEntry): seq<seq<SymtableEntry>>
    requires h < |chains|
  {
    chains[h := [e] + chains[h]]
  }

  lemma RehashStep(f: HashFunction, m: nat, chains: seq<seq<SymtableEntry>>, all: seq<SymtableEntry>, i: nat)
    requires 0 < m <= MAX_LOG2 && i < |all| && Rehashed(f, m, chains, all, i) && Distinct(all)
    ensures forall b :: 0 <= b < |chains| ==> all[i] !in chains[b]
    ensures Rehashed(f, m, Prepended(chains, Bucket(f, m, all[i].name), all[i]), all, i + 1)
  {
    var e := all[i];
    var h := Bucket(f, m, e.name);
    assert e !in all[..i];
    var after := Prepended(chains, h, e);
    TotalUpdate(chains, h, [e] + chains[h]);
    assert all[..i + 1] == all[..i] + [e];
    forall b, g | 0 <= b < |after| && g in after[b] ensures g in all[..i + 1] && Bucket(f, m, g.name) == b {
      assert (b == h && g == e) || g in chains[b];
    }
  }

  lemma RehashedAll(f: HashFunction, m: nat, chains: seq<seq<SymtableEntry>>, all: seq<SymtableEntry>,
                    entries: set<SymtableEntry>)
    requires 0 < m <= MAX_LOG2 && Rehashed(f, m, chains, all, |all|) && Complete(all, entries)
    ensures Sorted(f, m, chains, entries)
  {
    forall e | e in entries ensures e in chains[Bucket(f, m, e.name)] {
      var k :| 0 <= k < |all| && all[k] == e;
    }
  }

  lemma InsertSorted(f: HashFunction, m: nat, chains: seq<seq<SymtableEntry>>, entries: set<SymtableEntry>,
                     e: SymtableEntry)
    requires 0 < m <= MAX_LOG2 && Sorted(f, m, chains, entries) && e !in entries
    ensures var after := Prepended(chains, Bucket(f, m, e.name), e);
            Sorted(f, m, after, entries + {e}) && Total(after) == Total(chains) + 1
  {
    var h := Bucket(f, m, e.name);
    var after := Prepended(chains, h, e);
    TotalUpdate(chains, h, [e] + chains[h]);
    forall b, g | 0 <= b < |after| && g in after[b] ensures g in entries + {e} && Bucket(f, m, g.name) == b {
      assert (b == h && g == e) || g in chains[b];
    }
    forall g | g in entries + {e} ensures g in after[Bucket(f, m, g.name)] {
      if g != e { assert g in chains[Bucket(f, m, g.name)]; }
    }
  }

  class Symtable {
    const hash: HashFunction
    var buckets: seq<SymtableEntry?>           // the contents of the unbounded array
    var capacityLog2: nat
    var capacity: nat
    var entryCount: nat
    var scopeLevel: int
    ghost var contents: Table                  // the map that the table stands for
    ghost var index: map<string, SymtableEntry>
    ghost var entries: set<SymtableEntry>
    ghost var chains: seq<seq<SymtableEntry>>  // chains[b]: the entries of bucket b

    ghost predicate Valid()
      reads this, entries
    {
      Structure() && Shown()
    }

    /** The part of the invariant that has nothing to do with declarations. */
    ghost predicate Structure()
      reads `buckets, `capacityLog2, `capacity, `entryCount, `index, `entries, `chains, entries`nextEntry
    {
      && 0 < capacityLog2 <= MAX_LOG2 && capacity == Pow2(capacityLog2) - 1
      && Indexed(index, entries) && Sorted(hash, capacityLog2, chains, entries) && Linked(0)
      && entryCount == Total(chains) <= capacity
    }

    /** The buckets from `i` on are chains. */
    ghost predicate Linked(i: nat)
      reads `buckets, `entries, `chains, entries`nextEntry
    {
      && |buckets| == |chains|
      && (forall b, e :: i <= b < |chains| && e in chains[b] ==> e in entries)
      && (forall b :: i <= b < |chains| ==> Chain(buckets[b], chains[b]))
    }

    /** `contents` says what the entries hold. */
    ghost predicate Shown()
      reads `contents, `index, index.Values`idKw, index.Values`idType, index.Values`idIdent
    {
      && (forall n <- index :: n in contents)
      && (forall n <- contents :: n in index && index[n].Declarations() == contents[n])
    }

    /** The search of get_symtable_entry. */
    method Find(name: string) returns (entry: SymtableEntry?)
      requires Valid()
      ensures entry == if name in index then index[name] else null
      ensures name in index <==> name in contents
      ensures entry != null ==> entry.name == name && entry in entries
    {
      var h := Bucket(hash, capacityLog2, name);
      entry := buckets[h];
      ghost var s, i := chains[h], 0;
      assert Chain(buckets[h], s);
      while entry != null
        invariant i <= |s| && entry == (if i < |s| then s[i] else null)
        invariant forall k :: 0 <= k < i ==> s[k].name != name
        decreases |s| - i
      {
        if entry.name == name {
          break;
        }
        assert s[i].nextEntry == NextOf(s, i);
        entry := entry.nextEntry;
        i := i + 1;
      }
    }

    /** Puts an entry that is in no chain at the head of one. */
    method Prepend(e: SymtableEntry, h: nat)
      requires Linked(0) && h < |buckets| && e in entries
      requires forall b :: 0 <= b < |chains| ==> e !in chains[b]
      modifies `buckets, `chains, e`nextEntry
      ensures Linked(0) && chains == Prepended(old(chains), h, e)
    {
      ghost var s := [e] + chains[h];
      e.nextEntry := buckets[h];
      buckets := buckets[h := e];
      chains := chains[h := s];
      assert Chain(buckets[h], s) by {
        forall i | 0 <= i < |s| ensures s[i].nextEntry == NextOf(s, i) {
          if i > 0 { assert s[i] == old(chains)[h][i - 1]; }
        }
      }
    }

    // ----- growth

    /** Moves the entries of one bucket to the buffer, cutting their links. */
    method TakeChain(head: SymtableEntry?, buffer: seq<SymtableEntry>, ghost s: seq<SymtableEntry>)
      returns (all: seq<SymtableEntry>)
      requires Chain(head, s)
      modifies s`nextEntry
      ensures all == buffer + s
    {
      var entry := head;
      all := buffer;
      ghost var j := 0;
      ChainsDistinct(head, s);
      while entry != null
        invariant j <= |s| && entry == (if j < |s| then s[j] else null) && all == buffer + s[..j]
        invariant forall k {:trigger s[k].nextEntry} :: j <= k < |s| ==> s[k].nextEntry == NextOf(s, k)
        decreases |s| - j
      {
        all := all + [entry];
        var next := entry.nextEntry;
        entry.nextEntry := null;
        entry := next;
        j := j + 1;
      }
      assert s[..j] == s;
    }

    method CollectBucket(i: nat, buffer: seq<SymtableEntry>) returns (all: seq<SymtableEntry>)
      requires 0 < capacityLog2 <= MAX_LOG2 && Sorted(hash, capacityLog2, chains, entries)
      requires i < |chains| && Linked(i) && Collected(hash, capacityLog2, chains, entries, buffer, i)
      modifies entries`nextEntry
      ensures Linked(i + 1) && Collected(hash, capacityLog2, chains, entries, all, i + 1)
    {
      ghost var s := chains[i];
      ChainsDistinct(buckets[i], s);
      CollectStep(hash, capacityLog2, chains, entries, buffer, i);
      all := TakeChain(buckets[i], buffer, s);
      forall b | i < b < |chains| ensures Chain(buckets[b], chains[b]) {
        assert forall e <- chains[b] :: e !in s;
      }
    }

    /** The first loop of the growth. Its assertion on the number of entries holds. */
    method CollectEntries() returns (all: seq<SymtableEntry>)
      requires Structure()
      modifies entries`nextEntry
      ensures Complete(all, entries) && |all| == entryCount
    {
      all := [];
      var i := 0;
      while i < capacity
        invariant i <= capacity && Linked(i) && Collected(hash, capacityLog2, chains, entries, all, i)
      {
        all := CollectBucket(i, all);
        i := i + 1;
      }
      CollectedAll(hash, capacityLog2, chains, entries, all);
    }

    /** Appends null buckets up to the new capacity, and empties the old ones. */
    method ClearBuckets()
      requires |buckets| <= capacity
      modifies `buckets, `chains
      ensures |buckets| == |chains| == capacity
      ensures forall b :: 0 <= b < capacity ==> buckets[b] == null && chains[b] == []
    {
      while |buckets| < capacity
        invariant |buckets| <= capacity
      {
        buckets := buckets + [null];
      }
      var i := 0;
      while i < capacity
        invariant i <= capacity == |buckets|
        invariant forall b :: 0 <= b < i ==> buckets[b] == null
      {
        buckets := buckets[i := null];
        i := i + 1;
      }
      chains := seq(capacity, b => []);
    }

    /** The last loop of the growth. */
    method Rehash(all: seq<SymtableEntry>)
      requires 0 < capacityLog2 <= MAX_LOG2 && |buckets| == |chains| == Pow2(capacityLog2) - 1
      requires forall b :: 0 <= b < |chains| ==> buckets[b] == null && chains[b] == []
      requires Complete(all, entries)
      modifies `buckets, `chains, entries`nextEntry
      ensures Sorted(hash, capacityLog2, chains, entries) && Linked(0) && Total(chains) == |all|
    {
      hide Pow2;
      TotalEmpty(chains);
      var i := 0;
      while i < |all|
        invariant i <= |all| && Rehashed(hash, capacityLog2, chains, all, i) && Linked(0)
      {
        RehashStep(hash, capacityLog2, chains, all, i);
        Prepend(all[i], Bucket(hash, capacityLog2, all[i].name));
        i := i + 1;
      }
      RehashedAll(hash, capacityLog2, chains, all, entries);
    }

    /** The growth in get_symtable_entry: twice as many buckets and one, the same entries. */
    method Grow()
      requires Structure() && capacityLog2 < MAX_LOG2
      modifies `buckets, `capacityLog2, `capacity, `chains, entries`nextEntry
      ensures Structure() && capacityLog2 == old(capacityLog2) + 1
    {
      var all := CollectEntries();
      capacityLog2 := capacityLog2 + 1;
      capacity := Pow2(capacityLog2) - 1;
      ClearBuckets();
      Rehash(all);
    }

    // ----- the operations

    /** Room for one more name, unless it has an entry already. */
    ghost predicate RoomFor(name: string)
      reads this
    {
      name in index || entryCount < Limit()
    }

    /** get_symtable_entry: the table stays a map with one entry a name, and no name ever
        changes its entry, whether the table grows or not. */
    method GetSymtableEntry(name: string) returns (entry: SymtableEntry)
      requires Valid() && RoomFor(name)
      modifies this, entries`nextEntry
      ensures Valid() && scopeLevel == old(scopeLevel)
      ensures name in index && index[name] == entry && entry.name == name && entry in entries
      ensures index == if name in old(index) then old(index) else old(index)[name := entry]
      ensures name !in old(index) ==> fresh(entry)
      ensures contents == Touch(old(contents), name) && entryCount == old(entryCount) + (if name in old(index) then 0 else 1)
      ensures old(entries) <= entries && fresh(entries - old(entries))
    {
      hide Symtable.Valid;
      var found := Find(name);
      if found != null {
        return found;
      }
      entry := AddName(name);
    }

    method AddName(name: string) returns (entry: SymtableEntry)
      requires Valid() && name !in index && entryCount < Limit()
      modifies this, entries`nextEntry
      ensures Valid() && scopeLevel == old(scopeLevel) && entryCount == old(entryCount) + 1
      ensures index == old(index)[name := entry] && entries == old(entries) + {entry}
      ensures fresh(entry) && entry.name == name && contents == Touch(old(contents), name)
    {
      hide Symtable.Valid;
      MakeRoom();
      entry := AddEntry(name);
    }

    method AddEntry(name: string) returns (entry: SymtableEntry)
      requires Valid() && name !in index && entryCount < capacity
      modifies `buckets, `chains, `index, `entries, `entryCount, `contents
      ensures Valid()
      ensures index == old(index)[name := entry] && entries == old(entries) + {entry}
      ensures fresh(entry) && entry.name == name
      ensures contents == Touch(old(contents), name) && entryCount == old(entryCount) + 1
    {
      hide Sorted; hide Indexed; hide Total;
      entry := NewEntry(name);
      assert entries - {entry} == old(entries);
      LinkEntry(entry);
      assert Structure();
    }

    method MakeRoom()
      requires Valid() && entryCount < Limit()
      modifies `buckets, `capacityLog2, `capacity, `chains, entries`nextEntry
      ensures Valid() && entryCount < capacity
    {
      hide Sorted; hide Indexed;
      if entryCount >= capacity {
        RoomToGrow();
        Grow();
      }
    }

    lemma OtherEntries(entry: SymtableEntry)
      requires Indexed(index, entries)
      ensures forall n <- index :: n != entry.name ==> index[n] != entry
    {
    }

    /** A declaration was pushed: `contents` follows. */
    ghost method ShowUpdate(entry: SymtableEntry)
      requires entry.name in index && index[entry.name] == entry && forall n <- index :: n in contents
      requires forall n <- contents :: n in index && (n != entry.name ==> index[n].Declarations() == contents[n])
      modifies `contents
      ensures contents == old(contents)[entry.name := entry.Declarations()] && Shown()
    {
      contents := contents[entry.name := entry.Declarations()];
    }

    lemma RoomToGrow()
      requires Structure() && entryCount < Limit() && entryCount >= capacity
      ensures capacityLog2 < MAX_LOG2
    {
    }

    method NewEntry(name: string) returns (entry: SymtableEntry)
      requires Indexed(index, entries) && Shown() && name !in index
      modifies `index, `entries, `contents
      ensures Indexed(index, entries) && Shown() && fresh(entry) && entry.name == name
      ensures index == old(index)[name := entry] && entries == old(entries) + {entry}
      ensures contents == Touch(old(contents), name)
    {
      entry := new SymtableEntry(name);
      IndexedInsert(index, entries, entry);
      entries := entries + {entry};
      index := index[name := entry];
      contents := Touch(contents, name);
    }

    /** Puts a new entry at the head of its bucket. */
    method LinkEntry(entry: SymtableEntry)
      requires 0 < capacityLog2 <= MAX_LOG2 && Linked(0) && entry in entries
      requires Sorted(hash, capacityLog2, chains, entries - {entry}) && entryCount == Total(chains)
      modifies `buckets, `chains, `entryCount, entry`nextEntry
      ensures Linked(0) && Sorted(hash, capacityLog2, chains, entries) && entryCount == Total(chains)
      ensures entryCount == old(entryCount) + 1
    {
      InsertSorted(hash, capacityLog2, chains, entries - {entry}, entry);
      assert entries - {entry} + {entry} == entries;
      Prepend(entry, Bucket(hash, capacityLog2, entry.name));
      entryCount := entryCount + 1;
    }

    /** name_is_declared, in a name space or among the keywords. */
    method NameIsDeclared(name: string, space: Option<Space>) returns (declared: bool)
      requires Valid() && RoomFor(name)
      modifies this, entries`nextEntry
      ensures Valid() && scopeLevel == old(scopeLevel) && contents == Touch(old(contents), name)
      ensures declared == DeclaredIn(if space.Some? then StackOf(old(contents), space.value, name)
                                     else KeywordsOf(old(contents), name), scopeLevel)
      ensures name in index && entryCount <= old(entryCount) + 1
      ensures old(entries) <= entries && fresh(entries - old(entries))
    {
      var entry := GetSymtableEntry(name);
      assert entry.Declarations() == contents[name];
      var stack := if space == None then entry.idKw else if space.value == Types then entry.idType else entry.idIdent;
      declared := stack != [] && stack[0].scopeLevel >= scopeLevel;
    }

    method PushType(entry: SymtableEntry, symbol: Symbol)
      requires Valid() && entry in entries && entry.name in index && index[entry.name] == entry
      modifies `contents, entry`idType
      ensures Valid()
      ensures contents == old(contents)[entry.name := old(contents)[entry.name].(types := [symbol] + old(contents)[entry.name].types)]
    {
      hide Sorted; hide Indexed;
      OtherEntries(entry);
      assert entry.Declarations() == contents[entry.name];
      entry.idType := [symbol] + entry.idType;
      assert Linked(0);
      ShowUpdate(entry);
    }

    method PushIdent(entry: SymtableEntry, symbol: Symbol)
      requires Valid() && entry in entries && entry.name in index && index[entry.name] == entry
      modifies `contents, entry`idIdent
      ensures Valid()
      ensures contents == old(contents)[entry.name := old(contents)[entry.name].(idents := [symbol] + old(contents)[entry.name].idents)]
    {
      hide Sorted; hide Indexed;
      OtherEntries(entry);
      assert entry.Declarations() == contents[entry.name];
      entry.idIdent := [symbol] + entry.idIdent;
      assert Linked(0);
      ShowUpdate(entry);
    }

    /** new_type */
    method NewType(name: string, ast: nat)
      requires Valid() && RoomFor(name)
      modifies this, entries
      ensures Valid() && scopeLevel == old(scopeLevel)
      ensures contents == Add(old(contents), Types, name, scopeLevel, ast)
      ensures entryCount == old(entryCount) + (if name in old(index) then 0 else 1)
      ensures old(entries) <= entries && fresh(entries - old(entries))
    {
      hide Symtable.Valid;
      var entry := GetSymtableEntry(name);
      AddIs(old(contents), Types, name, scopeLevel, ast);
      PushType(entry, TypeSymbol(name, scopeLevel, ast));
      assert contents == Add(old(contents), Types, name, scopeLevel, ast);
    }

    /** new_ident */
    method NewIdent(name: string, ast: nat)
      requires Valid() && RoomFor(name)
      modifies this, entries
      ensures Valid() && scopeLevel == old(scopeLevel)
      ensures contents == Add(old(contents), Idents, name, scopeLevel, ast)
      ensures entryCount == old(entryCount) + (if name in old(index) then 0 else 1)
      ensures old(entries) <= entries && fresh(entries - old(entries))
    {
      hide Symtable.Valid;
      var entry := GetSymtableEntry(name);
      AddIs(old(contents), Idents, name, scopeLevel, ast);
      PushIdent(entry, IdentSymbol(name, scopeLevel, ast));
      assert contents == Add(old(contents), Idents, name, scopeLevel, ast);
    }

    /** add_keyword; without `ok` its assertion failed. */
    method AddKeywordName(name: string, klass: TokenClass) returns (ok: bool)
      requires Valid() && RoomFor(name)
      modifies this, entries
      ensures ok == KeywordOk(old(contents), name) && scopeLevel == old(scopeLevel)
      ensures ok ==> Valid()
      ensures ok ==> contents == AddKeyword(old(contents), name, scopeLevel, klass)
      ensures ok ==> entryCount <= old(entryCount) + 1
      ensures ok ==> old(entries) <= entries && fresh(entries - old(entries))
    {
      hide Symtable.Valid;
      var entry := GetSymtableEntry(name);
      ok := KeywordFree(entry);
      if ok {
        SetKeyword(entry, KeywordSymbol(name, scopeLevel, klass));
      }
    }

    /** The assertion of add_keyword. */
    method KeywordFree(entry: SymtableEntry) returns (ok: bool)
      requires Valid() && entry in entries
      ensures entry.name in contents && ok == (contents[entry.name].kw == [])
    {
      assert entry.Declarations() == contents[entry.name];
      ok := entry.idKw == [];
    }

    method SetKeyword(entry: SymtableEntry, symbol: Symbol)
      requires Valid() && entry in entries && entry.name in index && index[entry.name] == entry
      modifies `contents, entry`idKw
      ensures Valid()
      ensures contents == old(contents)[entry.name := old(contents)[entry.name].(kw := [symbol])]
    {
      hide Sorted; hide Indexed;
      OtherEntries(entry);
      assert entry.Declarations() == contents[entry.name];
      entry.idKw := [symbol];
      assert Linked(0);
      ShowUpdate(entry);
    }

    // ----- the whole table

    /** A table before symtable_init, with the initial size of the code. */
    constructor ()
      ensures Valid() && hash == HashName && capacityLog2 == 5 && scopeLevel == 0 && contents == map[] && entryCount == 0
    {
      hash := HashName;
      capacityLog2, capacity, entryCount, scopeLevel := 5, 31, 0, 0;
      buckets := seq(31, b => null);
      contents, index, entries := map[], map[], {};
      chains := seq(31, b => []);
      new;
      TotalEmpty(chains);
    }

    /** The reset in symtable_flush and symtable_init: the size stays what it has grown to. */
    method Reset()
      requires 0 < capacityLog2 <= MAX_LOG2
      modifies `buckets, `capacity, `entryCount, `scopeLevel, `contents, `index, `entries, `chains
      ensures Valid() && scopeLevel == 0 && contents == map[] && entryCount == 0
    {
      entryCount, scopeLevel := 0, 0;
      contents, index, entries := map[], map[], {};
      buckets := [];
      capacity := Pow2(capacityLog2) - 1;
      ClearBuckets();
      TotalEmpty(chains);
    }

    /** add_all_keywords, for the list in the code or any other: one call after the other. */
    method AddAllKeywords(keywords: seq<(string, TokenClass)>) returns (ok: bool)
      requires Valid() && entryCount + |keywords| <= Limit()
      modifies this, entries
      ensures ok == KeywordsOk(old(contents), scopeLevel, keywords) && scopeLevel == old(scopeLevel)
      ensures ok ==> Valid()
      ensures ok ==> contents == AddKeywords(old(contents), scopeLevel, keywords)
      decreases |keywords|
    {
      if keywords == [] {
        return true;
      }
      ok := AddKeywordName(keywords[0].0, keywords[0].1);
      if ok {
        ok := AddAllKeywords(keywords[1..]);
      }
    }

    // ----- scopes

    /** push_scope */
    method PushScope() returns (level: int)
      requires Valid()
      modifies `scopeLevel
      ensures Valid() && level == scopeLevel == old(scopeLevel) + 1
    {
      scopeLevel := scopeLevel + 1;
      assert Linked(0);
      level := scopeLevel;
    }

    /** scope_delete_symbol, as written; `ok` is its assertion. */
    method ScopeDeleteSymbol(symbols: seq<Symbol>) returns (next: seq<Symbol>, ok: bool)
      ensures ok == PopOk(AsWritten, symbols, scopeLevel)
      ensures next == Pop(AsWritten, symbols, scopeLevel)
    {
      next, ok := [], true;
      if symbols != [] && symbols[0].scopeLevel > scopeLevel - 1 {
        next := symbols[1..];
        if next != [] {
          ok := next[0].scopeLevel <= scopeLevel;
        }
      }
    }

    method PopEntry(entry: SymtableEntry) returns (ok: bool)
      modifies entry`idKw, entry`idType, entry`idIdent
      ensures ok == PopAllOk(AsWritten, old(entry.Declarations()), scopeLevel)
      ensures ok ==> entry.Declarations() == PopAll(AsWritten, old(entry.Declarations()), scopeLevel)
    {
      entry.idKw, ok := ScopeDeleteSymbol(entry.idKw);
      if !ok {
        return;
      }
      entry.idType, ok := ScopeDeleteSymbol(entry.idType);
      if !ok {
        return;
      }
      entry.idIdent, ok := ScopeDeleteSymbol(entry.idIdent);
    }

    /** pop_scope on one bucket. */
    method PopChain(head: SymtableEntry?, ghost s: seq<SymtableEntry>) returns (ok: bool)
      requires Chain(head, s)
      modifies s`idKw, s`idType, s`idIdent
      ensures ok ==> forall e <- s :: PopAllOk(AsWritten, old(e.Declarations()), scopeLevel)
      ensures ok ==> forall e <- s :: e.Declarations() == PopAll(AsWritten, old(e.Declarations()), scopeLevel)
      ensures !ok ==> exists e :: e in s && !PopAllOk(AsWritten, old(e.Declarations()), scopeLevel)
    {
      ChainsDistinct(head, s);
      var entry := head;
      ghost var j := 0;
      ok := true;
      while entry != null
        invariant j <= |s| && entry == (if j < |s| then s[j] else null)
        invariant Chain(head, s)
        invariant forall k :: j <= k < |s| ==> s[k].Declarations() == old(s[k].Declarations())
        invariant forall k :: 0 <= k < j ==> PopAllOk(AsWritten, old(s[k].Declarations()), scopeLevel)
        invariant forall k :: 0 <= k < j ==> s[k].Declarations() == PopAll(AsWritten, old(s[k].Declarations()), scopeLevel)
        decreases |s| - j
      {
        ok := PopEntry(entry);
        if !ok {
          assert entry in s;
          return;
        }
        assert s[j].nextEntry == NextOf(s, j);
        entry := entry.nextEntry;
        j := j + 1;
      }
    }

    /** What pop_scope has done to an entry once the first `i` buckets are done. */
    ghost predicate PoppedTo(i: nat, before: Table, e: SymtableEntry)
      requires 0 < capacityLog2 <= MAX_LOG2
      reads `capacityLog2, `scopeLevel, e`idKw, e`idType, e`idIdent
    {
      && e.name in before
      && (Bucket(hash, capacityLog2, e.name) < i ==>
            PopAllOk(AsWritten, before[e.name], scopeLevel)
            && e.Declarations() == PopAll(AsWritten, before[e.name], scopeLevel))
      && (Bucket(hash, capacityLog2, e.name) >= i ==> e.Declarations() == before[e.name])
    }

    /** The loop of pop_scope over the buckets. */
    method PopEntries() returns (ok: bool)
      requires Valid()
      modifies entries`idKw, entries`idType, entries`idIdent
      ensures Structure()
      ensures ok ==> forall e <- entries :: PoppedTo(capacity, contents, e)
      ensures !ok ==> !LeaveOk(AsWritten, contents, scopeLevel)
    {
      var i := 0;
      ok := true;
      while i < capacity
        invariant i <= capacity && Structure()
        invariant forall e <- entries :: PoppedTo(i, contents, e)
      {
        ok := PopBucket(i);
        if !ok {
          return;
        }
        i := i + 1;
      }
    }

    /** pop_scope, as written. */
    method PopScope() returns (ok: bool)
      requires Valid() && scopeLevel > 0
      modifies `scopeLevel, `contents, entries`idKw, entries`idType, entries`idIdent
      ensures ok == LeaveOk(AsWritten, old(contents), old(scopeLevel))
      ensures ok ==> Valid() && scopeLevel == old(scopeLevel) - 1
                     && contents == Leave(AsWritten, old(contents), old(scopeLevel))
    {
      ok := PopEntries();
      if ok {
        FinishPop();
        LowerLevel();
      }
    }

    method LowerLevel()
      requires Valid()
      modifies `scopeLevel
      ensures Valid() && scopeLevel == old(scopeLevel) - 1
    {
      hide AllKeysDone;
      scopeLevel := scopeLevel - 1;
      assert Linked(0);
    }

    ghost method FinishPop()
      requires Structure() && forall e <- entries :: PoppedTo(capacity, contents, e)
      requires forall n <- contents :: n in index
      modifies `contents
      ensures Valid() && LeaveOk(AsWritten, old(contents), scopeLevel)
      ensures contents == Leave(AsWritten, old(contents), scopeLevel)
    {
      hide Symtable.Shown; hide Sorted; hide PopAll;
      AllPopped();
      ShowLeave();
      assert Linked(0);
    }

    lemma AllPopped()
      requires Structure() && forall e <- entries :: PoppedTo(capacity, contents, e)
      requires forall n <- contents :: n in index
      ensures LeaveOk(AsWritten, contents, scopeLevel) && forall n <- index :: n in contents
      ensures forall n <- contents :: index[n].Declarations() == PopAll(AsWritten, contents[n], scopeLevel)
    {
      forall n | n in contents
        ensures PopAllOk(AsWritten, contents[n], scopeLevel)
             && index[n].Declarations() == PopAll(AsWritten, contents[n], scopeLevel)
      {
        assert PoppedTo(capacity, contents, index[n]);
        assert Bucket(hash, capacityLog2, n) < capacity;
      }
      forall n | n in index ensures n in contents {
        assert PoppedTo(capacity, contents, index[n]);
      }
    }

    ghost method ShowLeave()
      requires (forall n <- index :: n in contents) && forall n <- contents :: n in index
      requires forall n <- contents :: index[n].Declarations() == PopAll(AsWritten, contents[n], scopeLevel)
      modifies `contents
      ensures contents == Leave(AsWritten, old(contents), scopeLevel) && Shown()
    {
      contents := Leave(AsWritten, contents, scopeLevel);
    }

    method PopBucket(i: nat) returns (ok: bool)
      requires Structure() && i < capacity
      requires forall e <- entries :: PoppedTo(i, contents, e)
      modifies entries`idKw, entries`idType, entries`idIdent
      ensures Structure() && (ok ==> forall e <- entries :: PoppedTo(i + 1, contents, e))
      ensures !ok ==> !LeaveOk(AsWritten, contents, scopeLevel)
    {
      hide Indexed;
      ghost var s := chains[i];
      assert Chain(buckets[i], s);
      ok := PopChain(buckets[i], s);
      if !ok {
        ghost var e :| e in s && !PopAllOk(AsWritten, old(e.Declarations()), scopeLevel);
        assert old(PoppedTo(i, contents, e));
        assert !PopAllOk(AsWritten, contents[e.name], scopeLevel);
      } else {
        forall e | e in entries ensures PoppedTo(i + 1, contents, e) {
          assert old(PoppedTo(i, contents, e));
          assert e in chains[Bucket(hash, capacityLog2, e.name)];
        }
      }
    }
  }
}
