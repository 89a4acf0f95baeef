/** The attributes of a tree node in ast.c: a small chained table, and the iterator over it. */
module AttributeTable {
  import opened ArenaModel
  import opened Hash

  const CAPACITY_LOG2: nat := 4

  datatype Kind = NoKind | TreeKind | ListKind | IntegerKind | StringKind | OperatorKind

  /** A kind and the address that goes with it; 0 is the null pointer. */
  datatype Stored = Stored(kind: Kind, value: nat)

  class Attribute {
    const name: string
    var stored: Stored
    var nextAttr: Attribute?

    constructor (name: string, nextAttr: Attribute?)
      ensures this.name == name && this.nextAttr == nextAttr
    {
      this.name, this.nextAttr := name, nextAttr;
      stored := Stored(NoKind, 0);
    }
  }

  const CAPACITY: nat := 15

  function Bucket(name: string): (b: nat)
    ensures b < CAPACITY
  {
    HashString(name, CAPACITY_LOG2)
  }

  ghost function First(s: seq<Attribute>): Attribute? {
    if s == [] then null else s[0]
  }

  ghost function NextOf(s: seq<Attribute>, i: int): Attribute?
    requires 0 <= i < |s|
  {
    if i + 1 < |s| then s[i + 1] else null
  }

  /** The attributes of a bucket, in the order of their links. */
  ghost predicate Chain(head: Attribute?, s: seq<Attribute>)
    reads s`nextAttr
  {
    head == First(s) && forall i {:trigger s[i].nextAttr} :: 0 <= i < |s| ==> s[i].nextAttr == NextOf(s, i)
  }

  /** A chain that ends at null never comes back to a link. */
  lemma {:induction false} ChainDistinct(head: Attribute?, s: seq<Attribute>, i: nat, j: nat)
    requires Chain(head, s) && i < j < |s|
    ensures s[i] != s[j]
    decreases |s| - j
  {
    if s[i] == s[j] {
      assert s[i].nextAttr == NextOf(s, i) && s[j].nextAttr == NextOf(s, j);
      if j + 1 < |s| { ChainDistinct(head, s, i + 1, j + 1); }
    }
  }

  ghost function Flat(chains: seq<seq<Attribute>>): seq<Attribute> {
    if chains == [] then [] else chains[0] + Flat(chains[1..])
  }

  lemma {:induction false} FlatUpdate(chains: seq<seq<Attribute>>, h: nat, s: seq<Attribute>)
    requires h < |chains|
    ensures |Flat(chains[h := s])| + |chains[h]| == |Flat(chains)| + |s|
  {
    if h == 0 {
      assert chains[h := s][1..] == chains[1..];
    } else {
      FlatUpdate(chains[1..], h - 1, s);
      assert chains[h := s][1..] == chains[1..][h - 1 := s];
    }
  }

  lemma {:induction false} FlatHas(chains: seq<seq<Attribute>>, a: Attribute)
    ensures a in Flat(chains) <==> exists b :: 0 <= b < |chains| && a in chains[b]
  {
    if chains != [] {
      FlatHas(chains[1..], a);
      if a in Flat(chains[1..]) {
        var b :| 0 <= b < |chains[1..]| && a in chains[1..][b];
        assert a in chains[b + 1];
      }
      if b :| 0 < b < |chains| && a in chains[b] { assert a in chains[1..][b - 1]; }
    }
  }

  ghost predicate Distinct(s: seq<Attribute>) {
    forall i, j :: 0 <= i < j < |s| ==> s[i] != s[j]
  }

  lemma ChainsDistinct(head: Attribute?, s: seq<Attribute>)
    requires Chain(head, s)
    ensures Distinct(s)
  {
    forall i, j | 0 <= i < j < |s| ensures s[i] != s[j] { ChainDistinct(head, s, i, j); }
  }

  ghost predicate Apart(chains: seq<seq<Attribute>>) {
    forall b, c, a :: 0 <= b < c < |chains| && a in chains[b] ==> a !in chains[c]
  }

  lemma {:induction false} FlatDistinct(chains: seq<seq<Attribute>>)
    requires Apart(chains) && forall b :: 0 <= b < |chains| ==> Distinct(chains[b])
    ensures Distinct(Flat(chains))
  {
    if chains != [] {
      var front, back := chains[0], Flat(chains[1..]);
      assert forall b :: 0 <= b < |chains[1..]| ==> chains[1..][b] == chains[b + 1];
      FlatDistinct(chains[1..]);
      forall i, j | 0 <= i < j < |front + back| ensures (front + back)[i] != (front + back)[j] {
        if i < |front| <= j {
          FlatHas(chains[1..], back[j - |front|]);
          assert front[i] in chains[0];
        }
      }
    }
  }

  /** Every attribute is in the chain of its name, and in no other. */
  ghost predicate Placed(chains: seq<seq<Attribute>>, entries: set<Attribute>) {
    && |chains| == CAPACITY
    && (forall a <- entries :: a in chains[Bucket(a.name)])
    && (forall b, a :: 0 <= b < |chains| && a in chains[b] ==> a in entries && Bucket(a.name) == b)
  }

  lemma FlatIsAll(chains: seq<seq<Attribute>>, entries: set<Attribute>)
    requires Placed(chains, entries) && forall b :: 0 <= b < |chains| ==> Distinct(chains[b])
    ensures Distinct(Flat(chains))
    ensures (forall a <- Flat(chains) :: a in entries) && forall a <- entries :: a in Flat(chains)
  {
    hide Bucket;
    forall b, c, a | 0 <= b < c < |chains| && a in chains[b] ensures a !in chains[c] {
      assert Bucket(a.name) == b;
    }
    FlatDistinct(chains);
    forall a | a in Flat(chains) ensures a in entries { FlatHas(chains, a); }
    forall a | a in entries ensures a in Flat(chains) { FlatHas(chains, a); }
  }

  lemma PlaceNew(chains: seq<seq<Attribute>>, entries: set<Attribute>, e: Attribute)
    requires Placed(chains, entries) && e !in entries
    ensures var after := chains[Bucket(e.name) := [e] + chains[Bucket(e.name)]];
            Placed(after, entries + {e}) && |Flat(after)| == |Flat(chains)| + 1
  {
    hide Bucket; hide Flat;
    var h := Bucket(e.name);
    var after := chains[h := [e] + chains[h]];
    FlatUpdate(chains, h, [e] + chains[h]);
    forall b, a | 0 <= b < |after| && a in after[b] ensures a in entries + {e} && Bucket(a.name) == b {
      assert (b == h && a == e) || a in chains[b];
    }
    forall a | a in entries + {e} ensures a in after[Bucket(a.name)] {
      if a != e { assert a in chains[Bucket(a.name)]; }
    }
  }

  lemma FlatFrom(chains: seq<seq<Attribute>>, t: nat)
    requires t < |chains|
    ensures Flat(chains[t..]) == chains[t] + Flat(chains[t + 1..])
  {
    assert chains[t..][1..] == chains[t + 1..];
  }

  lemma {:induction false} FlatEmpty(n: nat)
    ensures Flat(seq(n, i => [])) == []
  {
    if n > 0 {
      FlatEmpty(n - 1);
      var e: seq<seq<Attribute>> := seq(n, i => []);
      assert e[1..] == seq(n - 1, i => []);
    }
  }

  /** One attribute a name. */
  ghost predicate Indexed(index: map<string, Attribute>, entries: set<Attribute>) {
    && (forall n <- index :: index[n] in entries && index[n].name == n)
    && (forall a <- entries :: a.name in index && index[a.name] == a)
  }

  class AstNode {
    const attrs: array<Attribute?>
    var attrCount: nat
    ghost var index: map<string, Attribute>
    ghost var entries: set<Attribute>
    ghost var chains: seq<seq<Attribute>>

    ghost predicate Valid()
      reads this, attrs, entries`nextAttr
    {
      && Indexed(index, entries) && Placed(chains, entries) && Linked()
      && attrCount == |index| == |Flat(chains)| <= CAPACITY
    }

    ghost predicate Linked()
      reads `chains, `entries, attrs, entries`nextAttr
    {
      && attrs.Length == |chains|
      && (forall b, a :: 0 <= b < |chains| && a in chains[b] ==> a in entries)
      && (forall b :: 0 <= b < |chains| ==> Chain(attrs[b], chains[b]))
    }

    /** The map that the attributes stand for. */
    ghost function Contents(): map<string, Stored>
      reads `index, index.Values`stored
    {
      map n | n in index :: index[n].stored
    }

    /** The attributes in the order of the buckets. */
    ghost function Listing(): seq<Attribute>
      reads this
    {
      Flat(chains)
    }

    /** The listing has every attribute once. */
    lemma ListingIsAll()
      requires Valid()
      ensures Distinct(Listing()) && |Listing()| == attrCount
      ensures (forall a <- Listing() :: a in entries) && forall a <- entries :: a in Listing()
    {
      hide Bucket; hide Flat; hide Indexed;
      forall b | 0 <= b < |chains| ensures Distinct(chains[b]) { ChainsDistinct(attrs[b], chains[b]); }
      FlatIsAll(chains, entries);
    }

    /** The listing shows the map. */
    lemma ListingShows()
      requires Valid()
      ensures forall n <- Contents() :: index[n] in Listing() && index[n].name == n && index[n].stored == Contents()[n]
      ensures forall a <- Listing() :: a.name in Contents() && a.stored == Contents()[a.name]
    {
      hide AstNode.Linked; hide Flat; hide Distinct; hide Placed;
      ListingIsAll();
      forall a | a in Listing() ensures a.name in Contents() && a.stored == Contents()[a.name] {
        assert a in entries;
      }
    }

    lemma SizeOfContents()
      requires Valid()
      ensures |Contents()| == attrCount && Contents().Keys == index.Keys
    {
      assert Contents().Keys == index.Keys;
      assert |Contents()| == |Contents().Keys| && |index| == |index.Keys|;
    }

    /** A node whose table is all zeros. */
    constructor ()
      ensures Valid() && Contents() == map[] && attrCount == 0 && entries == {} && fresh(attrs)
    {
      attrs := new Attribute?[CAPACITY](i => null);
      attrCount, index, entries := 0, map[], {};
      chains := seq(CAPACITY, i => []);
      new;
      hide Flat;
      FlatEmpty(CAPACITY);
      assert chains == seq(CAPACITY, i => []);
    }

    /** The search of ast_getattr and ast_setattr. */
    method Find(name: string) returns (entry: Attribute?)
      requires Valid()
      ensures entry == if name in index then index[name] else null
      ensures entry != null ==> entry in entries && entry.name == name
    {
      hide Flat; hide Bucket;
      var h := Bucket(name);
      entry := attrs[h];
      ghost var s, i := chains[h], 0;
      assert Chain(entry, s);
      while entry != null
        invariant i <= |s| && entry == (if i < |s| then s[i] else null)
        invariant forall k :: 0 <= k < i ==> s[k].name != name
        decreases |s| - i
      {
        if entry.name == name {
          break;
        }
        assert s[i].nextAttr == NextOf(s, i);
        entry := entry.nextAttr;
        i := i + 1;
      }
    }

    /** ast_getattr: null for a name that has no value. */
    method GetAttr(name: string) returns (value: nat)
      requires Valid()
      ensures value == if name in Contents() then Contents()[name].value else 0
    {
      hide AstNode.Linked; hide Placed;
      var entry := Find(name);
      value := if entry == null then 0 else entry.stored.value;
    }

    /** ast_setattr: the last value wins. Without `ok` its assertion failed. */
    method SetAttr(name: string, value: nat, kind: Kind) returns (ok: bool)
      requires Valid()
      modifies this, attrs, entries`stored
      ensures Valid() && old(entries) <= entries && fresh(entries - old(entries))
      ensures ok <==> name in old(Contents()) || |old(Contents())| < CAPACITY
      ensures Contents() == if ok then old(Contents())[name := Stored(kind, value)] else old(Contents())
    {
      hide AstNode.Valid; hide AstNode.Contents;
      SizeOfContents();
      var entry := Find(name);
      ok := true;
      if entry == null {
        ok := attrCount < CAPACITY;
        if !ok {
          return;
        }
        entry := Insert(name);
      }
      SetStored(entry, Stored(kind, value));
    }

    method SetStored(entry: Attribute, stored: Stored)
      requires Valid() && entry in entries
      modifies entry`stored
      ensures Valid() && Contents() == old(Contents())[entry.name := stored]
    {
      hide Placed; hide Flat; hide AstNode.Linked; hide Chain;
      entry.stored := stored;
      assert Contents() == old(Contents())[entry.name := stored];
    }

    /** A new attribute at the head of its bucket. */
    method Insert(name: string) returns (entry: Attribute)
      requires Valid() && name !in index && attrCount < CAPACITY
      modifies this, attrs
      ensures Valid() && fresh(entry) && entry.name == name && entries == old(entries) + {entry}
      ensures entry in entries && Contents() == old(Contents())[name := entry.stored]
    {
      hide Flat; hide Bucket; hide Chain; hide Placed; hide Indexed; hide AstNode.Linked; hide AstNode.Contents;
      var h := Bucket(name);
      assert h < attrs.Length == |chains| by { SizeOfTable(); }
      entry := new Attribute(name, attrs[h]);
      PlaceNew(chains, entries, entry);
      Record(entry);
      LinkNew(entry, h);
      attrCount := attrCount + 1;
    }

    lemma SizeOfTable()
      requires Linked() && Placed(chains, entries)
      ensures attrs.Length == |chains| == CAPACITY
    {
    }

    ghost method Record(entry: Attribute)
      requires Indexed(index, entries) && entry !in entries && entry.name !in index
      modifies `index
      ensures index == old(index)[entry.name := entry] && Indexed(index, entries + {entry})
      ensures Contents() == old(Contents())[entry.name := entry.stored]
    {
      index := index[entry.name := entry];
      assert Contents() == old(Contents())[entry.name := entry.stored];
    }

    method LinkNew(entry: Attribute, h: nat)
      requires Linked() && h < |chains| && entry !in entries && entry.nextAttr == attrs[h]
      modifies attrs, `chains, `entries
      ensures Linked() && chains == old(chains)[h := [entry] + old(chains)[h]] && entries == old(entries) + {entry}
    {
      ghost var s := chains[h];
      assert Chain(attrs[h], s);
      attrs[h] := entry;
      entries := entries + {entry};
      chains := chains[h := [entry] + s];
      assert forall i :: 0 <= i < |s| ==> NextOf(s, i) == NextOf([entry] + s, i + 1);
      assert Chain(entry, [entry] + s);
    }
  }

  class AttributeIterator {
    const ast: AstNode
    var tableI: nat
    var attrAt: Attribute?
    ghost var k: nat

    /** Where the iterator stands in the listing. */
    ghost predicate Valid()
      reads this, ast
    {
      && |ast.chains| == CAPACITY && tableI <= CAPACITY
      && (attrAt == null ==> tableI == CAPACITY)
      && (attrAt != null ==> tableI < CAPACITY && k < |ast.chains[tableI]| && attrAt == ast.chains[tableI][k])
    }

    /** The attributes that are still to come, the present one first. */
    ghost function Rest(): seq<Attribute>
      requires Valid()
      reads this, ast
    {
      if attrAt == null then [] else ast.chains[tableI][k..] + Flat(ast.chains[tableI + 1..])
    }

    /** ast_attriter_init */
    constructor (ast: AstNode)
      requires ast.Valid()
      ensures Valid() && this.ast == ast && Rest() == ast.Listing() && attrAt == First(Rest())
    {
      this.ast := ast;
      tableI, attrAt := 0, null;
      new;
      hide Flat; hide Bucket; hide AstNode.Linked;
      assert ast.chains[0..] == ast.chains;
      Seek();
    }

    /** The loop of both functions: on to the next bucket that is not empty. */
    method Seek()
      requires ast.Valid() && tableI <= CAPACITY && attrAt == null
      modifies this
      ensures Valid() && Rest() == Flat(ast.chains[old(tableI)..]) && attrAt == First(Rest())
    {
      hide Bucket; hide Indexed;
      ghost var c := ast.chains;
      while tableI < CAPACITY
        invariant tableI <= CAPACITY && attrAt == null
        invariant Flat(c[tableI..]) == Flat(c[old(tableI)..])
        decreases CAPACITY - tableI
      {
        FlatFrom(c, tableI);
        assert Chain(ast.attrs[tableI], c[tableI]);
        attrAt := ast.attrs[tableI];
        if attrAt != null {
          k := 0;
          assert c[tableI][0..] == c[tableI];
          return;
        }
        tableI := tableI + 1;
      }
    }

    /** ast_attriter_get_next: past the end it stays null. */
    method GetNext() returns (next: Attribute?)
      requires ast.Valid() && Valid()
      modifies this
      ensures Valid() && Rest() == (if old(Rest()) == [] then [] else old(Rest())[1..])
      ensures next == attrAt == First(Rest())
    {
      hide Flat; hide Bucket; hide Indexed;
      if attrAt == null {
        return null;
      }
      ghost var s, back := ast.chains[tableI], Flat(ast.chains[tableI + 1..]);
      assert Chain(ast.attrs[tableI], s) && s[k].nextAttr == NextOf(s, k);
      assert Rest()[1..] == s[k + 1..] + back;
      attrAt := attrAt.nextAttr;
      k := k + 1;
      if attrAt == null {
        tableI := tableI + 1;
        Seek();
      }
      next := attrAt;
    }
  }

  /** One run of the iterator, until it returns null: every attribute, each once. */
  method VisitAll(ast: AstNode) returns (visited: seq<Attribute>)
    requires ast.Valid()
    ensures visited == ast.Listing() && Distinct(visited) && |visited| == ast.attrCount
    ensures (forall a <- visited :: a in ast.entries) && forall a <- ast.entries :: a in visited
  {
    hide Flat; hide Distinct; hide AstNode.Valid; hide AstNode.Listing;
    hide AttributeIterator.Valid; hide AttributeIterator.Rest;
    var iter := new AttributeIterator(ast);
    var at := iter.attrAt;
    visited := [];
    while at != null
      invariant iter.Valid() && iter.ast == ast && fresh(iter)
      invariant visited + iter.Rest() == ast.Listing() && at == First(iter.Rest())
      decreases |iter.Rest()|
    {
      visited := visited + [at];
      at := iter.GetNext();
    }
    ast.ListingIsAll();
  }
}
