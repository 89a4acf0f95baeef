/** Which repeated declarations of a program build_symtable.c finds, and which it should. */
module DeclarationRules {
  import opened ScopeStacks
  import opened ScopeRules
  import opened BuildSymtable
  import opened Wrappers

  /** The type that a declaration introduces at the top level. */
  function TypeOf(d: Decl): Option<string> {
    if d.Control? || d.Extern? || d.Struct? || d.Package? || d.Parser? || (d.TypeDecl? && d.isTypedef)
    then Some(d.id.name) else None
  }

  /** Whether walking the declaration enters and leaves a scope. */
  predicate OpensScope(d: Decl) {
    d.Control? || d.Parser? || (d.Extern? && d.methods.Some?) || (d.Struct? && d.fields.Some?)
  }

  // ----- types are only declared at the top

  predicate OnlyIdents(items: Items) {
    items.Then? ==>
      && (items.head.Declare? ==> items.head.space == Idents)
      && (items.head.Scope? ==> OnlyIdents(items.head.body))
      && OnlyIdents(items.tail)
  }

  lemma {:induction false} LocalsOnlyIdents(ls: Locals)
    ensures OnlyIdents(LocalItems(ls))
  {
    if ls.Locals? {
      if ls.first.Block? { LocalsOnlyIdents(ls.first.stmts); }
      LocalsOnlyIdents(ls.rest);
    }
  }

  lemma {:induction false} IdsOnlyIdents(ids: seq<Id>, checked: bool)
    ensures OnlyIdents(IdItems(ids, checked))
  {
    if ids != [] { IdsOnlyIdents(ids[1..], checked); }
  }

  lemma {:induction false} ElementsOnlyIdents(es: seq<Element>)
    ensures OnlyIdents(ElementItems(es))
  {
    if es != [] { ElementsOnlyIdents(es[1..]); }
  }

  /** An inner scope never declares a type. */
  lemma {:induction false} InnerPlain(items: Items, name: string)
    requires OnlyIdents(items)
    ensures AllChecked(items, Types, name) && Own(items, 0, Types, name) == []
    ensures !Again(items, Types, name) && !TwoDirect(items, Types, name)
    decreases items
  {
    if items.Then? {
      if items.head.Scope? { InnerPlain(items.head.body, name); }
      InnerPlain(items.tail, name);
    }
  }

  lemma {:induction false} InnerClean(items: Items, name: string, seen: bool)
    requires OnlyIdents(items)
    ensures NoClash(items, Types, name, seen)
    decreases items
  {
    if items.Then? {
      if items.head.Scope? { InnerClean(items.head.body, name, false); }
      InnerClean(items.tail, name, seen);
    }
  }

  /** The scope that a declaration opens, if it does. */
  lemma ScopeOf(d: Decl)
    requires OpensScope(d)
    ensures var items := DeclItems(d);
            items.Then? && items.tail.Then? && items.tail.head.Scope? && items.tail.tail.End?
            && OnlyIdents(items.tail.head.body)
  {
    match d {
      case Control(_, locals, apply) =>
        if locals.Some? { LocalsOnlyIdents(locals.value); }
        if apply.Some? { LocalsOnlyIdents(apply.value); }
      case Extern(_, methods) => IdsOnlyIdents(methods.value, false);
      case Struct(_, fields) => IdsOnlyIdents(fields.value, true);
      case Parser(_, elements) =>
        if elements.Some? { ElementsOnlyIdents(elements.value); }
    }
  }

  // ----- a declaration, seen by a type name

  /** A declaration in front of others: only one that opens no scope is still known behind it. */
  lemma TypeStep(d: Decl, rest: Items, name: string)
    ensures var items := Cat(DeclItems(d), rest);
            && (AllChecked(items, Types, name) <==> AllChecked(rest, Types, name))
            && (Again(items, Types, name)
                <==> TypeOf(d) == Some(name) || (!OpensScope(d) && Again(rest, Types, name)))
            && (TwoDirect(items, Types, name)
                <==> TwoDirect(rest, Types, name)
                     || (TypeOf(d) == Some(name) && !OpensScope(d) && Again(rest, Types, name)))
  {
    var items := Cat(DeclItems(d), rest);
    if OpensScope(d) {
      ScopeOf(d);
      InnerPlain(DeclItems(d).tail.head.body, name);
      assert Cat(DeclItems(d).tail, rest) == Then(DeclItems(d).tail.head, rest) by { assert Cat(End, rest) == rest; }
      assert items == Then(DeclItems(d).head, Then(DeclItems(d).tail.head, rest));
      assert !Again(items.tail, Types, name);
    } else {
      assert Cat(End, rest) == rest;
      assert DeclItems(d) == End || DeclItems(d).tail == End;
    }
  }

  lemma {:induction false} NoClashCat(a: Items, b: Items, space: Space, name: string, seen: bool)
    ensures NoClash(Cat(a, b), space, name, seen)
       <==> NoClash(a, space, name, seen) && NoClash(b, space, name, seen || Own(a, 0, space, name) != [])
    decreases a
  {
    if a.Then? {
      NoClashCat(a.tail, b, space, name, seen || IsKey(a.head, space, name));
    }
  }

  lemma NoClashDecl(d: Decl, name: string, seen: bool)
    ensures NoClash(DeclItems(d), Types, name, seen) <==> !(seen && TypeOf(d) == Some(name))
    ensures Own(DeclItems(d), 0, Types, name) != [] <==> TypeOf(d) == Some(name)
  {
    if OpensScope(d) {
      ScopeOf(d);
      var rest := DeclItems(d).tail;
      InnerClean(rest.head.body, name, false);
      assert NoClash(rest, Types, name, seen) && NoClash(rest, Types, name, true);
      assert Own(rest, 0, Types, name) == [];
    }
  }

  // ----- whole programs

  predicate Names(ds: seq<Decl>, i: int, name: string)
    requires 0 <= i < |ds|
  {
    TypeOf(ds[i]) == Some(name)
  }

  /** The name is declared as a type again before any scope was left. */
  ghost predicate AgainAtOnce(ds: seq<Decl>, name: string) {
    exists j :: 0 <= j < |ds| && Names(ds, j, name) && forall k :: 0 <= k < j ==> !OpensScope(ds[k])
  }

  /** Two declarations of the name without a scope from the first to the second. */
  ghost predicate TwiceAtOnce(ds: seq<Decl>, name: string) {
    exists i, j :: 0 <= i < j < |ds| && Names(ds, i, name) && Names(ds, j, name)
                   && forall k :: i <= k < j ==> !OpensScope(ds[k])
  }

  ghost predicate Twice(ds: seq<Decl>, name: string) {
    exists i, j :: 0 <= i < j < |ds| && Names(ds, i, name) && Names(ds, j, name)
  }

  ghost predicate Somewhere(ds: seq<Decl>, name: string) {
    exists j :: 0 <= j < |ds| && Names(ds, j, name)
  }

  lemma AgainStep(ds: seq<Decl>, name: string)
    requires ds != []
    ensures AgainAtOnce(ds, name) <==> Names(ds, 0, name) || (!OpensScope(ds[0]) && AgainAtOnce(ds[1..], name))
  {
    hide OpensScope;
    hide TypeOf;
    var tail := ds[1..];
    if AgainAtOnce(ds, name) && !Names(ds, 0, name) {
      var j :| 0 <= j < |ds| && Names(ds, j, name) && forall k :: 0 <= k < j ==> !OpensScope(ds[k]);
      assert Names(tail, j - 1, name) && forall k :: 0 <= k < j - 1 ==> !OpensScope(tail[k]);
    }
    if !OpensScope(ds[0]) && AgainAtOnce(tail, name) {
      var j :| 0 <= j < |tail| && Names(tail, j, name) && forall k :: 0 <= k < j ==> !OpensScope(tail[k]);
      assert Names(ds, j + 1, name) && forall k :: 0 <= k < j + 1 ==> !OpensScope(ds[k]) by {
        forall k | 0 <= k < j + 1 ensures !OpensScope(ds[k]) {
          if k > 0 { assert !OpensScope(tail[k - 1]); }
        }
      }
    }
  }

  lemma TwiceInTail(ds: seq<Decl>, name: string)
    requires ds != [] && TwiceAtOnce(ds, name)
    ensures TwiceAtOnce(ds[1..], name) || (Names(ds, 0, name) && !OpensScope(ds[0]) && AgainAtOnce(ds[1..], name))
  {
    hide OpensScope; hide TypeOf;
    var tail := ds[1..];
    var i, j :| 0 <= i < j < |ds| && Names(ds, i, name) && Names(ds, j, name)
                && forall k :: i <= k < j ==> !OpensScope(ds[k]);
    assert Names(tail, j - 1, name) && forall k {:trigger tail[k]} :: 0 <= k && i - 1 <= k < j - 1 ==> !OpensScope(tail[k]);
    if i > 0 { assert Names(tail, i - 1, name); }
  }

  lemma TwiceStep(ds: seq<Decl>, name: string)
    requires ds != []
    ensures TwiceAtOnce(ds, name)
       <==> TwiceAtOnce(ds[1..], name) || (Names(ds, 0, name) && !OpensScope(ds[0]) && AgainAtOnce(ds[1..], name))
  {
    hide OpensScope; hide TypeOf;
    var tail := ds[1..];
    if TwiceAtOnce(ds, name) { TwiceInTail(ds, name); }
    if TwiceAtOnce(tail, name) {
      var i, j :| 0 <= i < j < |tail| && Names(tail, i, name) && Names(tail, j, name)
                  && forall k :: i <= k < j ==> !OpensScope(tail[k]);
      assert Names(ds, i + 1, name) && Names(ds, j + 1, name);
      forall k | i + 1 <= k < j + 1 ensures !OpensScope(ds[k]) { assert !OpensScope(tail[k - 1]); }
    }
    if Names(ds, 0, name) && !OpensScope(ds[0]) && AgainAtOnce(tail, name) {
      var j :| 0 <= j < |tail| && Names(tail, j, name) && forall k :: 0 <= k < j ==> !OpensScope(tail[k]);
      assert Names(ds, j + 1, name);
      forall k | 0 <= k < j + 1 ensures !OpensScope(ds[k]) { if k > 0 { assert !OpensScope(tail[k - 1]); } }
    }
  }

  lemma {:induction false} TypeProgram(ds: seq<Decl>, name: string)
    ensures AllChecked(ProgramItems(ds), Types, name)
    ensures Again(ProgramItems(ds), Types, name) <==> AgainAtOnce(ds, name)
    ensures TwoDirect(ProgramItems(ds), Types, name) <==> TwiceAtOnce(ds, name)
  {
    if ds != [] {
      TypeProgram(ds[1..], name);
      TypeStep(ds[0], ProgramItems(ds[1..]), name);
      AgainStep(ds, name);
      TwiceStep(ds, name);
    }
  }

  /** The code as written finds a repeated type exactly if no scope was entered and left from
      the first declaration to the second, and then the program is rejected. */
  lemma WrittenFinds(t: Table, ds: seq<Decl>, name: string)
    requires TableAtMost(t, 0)
    ensures KeyRun(AsWritten, StackOf(t, Types, name), 1, ProgramItems(ds), Types, name) == KeyRedeclared
       <==> TwiceAtOnce(ds, name)
    ensures TwiceAtOnce(ds, name) ==> !RunItem(AsWritten, t, 0, Scope(ProgramItems(ds))).Done?
  {
    hide KeyRun; hide RunItem; hide ProgramItems;
    var items := ProgramItems(ds);
    var stack := StackOf(t, Types, name);
    TypeProgram(ds, name);
    CheckedRun(stack, 1, items, Types, name);
    if RunItem(AsWritten, t, 0, Scope(items)).Done? {
      ItemProjects(AsWritten, t, 0, Scope(items), Types, name);
      CheckedScope(stack, 0, items, Types, name);
    }
  }

  lemma SomewhereStep(ds: seq<Decl>, name: string)
    requires ds != []
    ensures Somewhere(ds, name) <==> Names(ds, 0, name) || Somewhere(ds[1..], name)
  {
    if Somewhere(ds, name) {
      var j :| 0 <= j < |ds| && Names(ds, j, name);
      if j > 0 { assert Names(ds[1..], j - 1, name); }
    }
    if Somewhere(ds[1..], name) {
      var j :| 0 <= j < |ds[1..]| && Names(ds[1..], j, name);
      assert Names(ds, j + 1, name);
    }
  }

  lemma TwiceSplit(ds: seq<Decl>, name: string)
    requires ds != []
    ensures Twice(ds, name) <==> Twice(ds[1..], name) || (Names(ds, 0, name) && Somewhere(ds[1..], name))
  {
    var tail := ds[1..];
    if Twice(ds, name) {
      var i, j :| 0 <= i < j < |ds| && Names(ds, i, name) && Names(ds, j, name);
      assert Names(tail, j - 1, name);
      if i > 0 { assert Names(tail, i - 1, name); }
    }
    if Twice(tail, name) {
      var i, j :| 0 <= i < j < |tail| && Names(tail, i, name) && Names(tail, j, name);
      assert Names(ds, i + 1, name) && Names(ds, j + 1, name);
    }
    if Somewhere(tail, name) {
      var j :| 0 <= j < |tail| && Names(tail, j, name);
      assert Names(ds, j + 1, name);
    }
  }

  lemma {:induction false} RepeatedTypes(ds: seq<Decl>, name: string, seen: bool)
    ensures NoClash(ProgramItems(ds), Types, name, seen) <==> !Twice(ds, name) && !(seen && Somewhere(ds, name))
  {
    hide Twice; hide Somewhere;
    if ds == [] {
      assert !Twice(ds, name) && !Somewhere(ds, name) by { NoneInEmpty(name); }
    } else {
      NoClashCat(DeclItems(ds[0]), ProgramItems(ds[1..]), Types, name, seen);
      NoClashDecl(ds[0], name, seen);
      RepeatedTypes(ds[1..], name, seen || Names(ds, 0, name));
      TwiceSplit(ds, name);
      SomewhereStep(ds, name);
    }
  }

  lemma NoneInEmpty(name: string)
    ensures !Twice([], name) && !Somewhere([], name)
  {
  }

  /** With whole scopes removed every repeated type is found. */
  lemma ShouldFind(t: Table, ds: seq<Decl>, name: string)
    requires TableAtMost(t, 0)
    ensures KeyRun(DropScope, StackOf(t, Types, name), 1, ProgramItems(ds), Types, name) == KeyRedeclared
       <==> Twice(ds, name)
    ensures Twice(ds, name) ==> !RunItem(DropScope, t, 0, Scope(ProgramItems(ds))).Done?
  {
    hide KeyRun; hide RunItem; hide ProgramItems; hide NoClash;
    var items := ProgramItems(ds);
    var stack := StackOf(t, Types, name);
    RepeatedTypes(ds, name, false);
    DropRun(stack, 1, items, Types, name);
    if RunItem(DropScope, t, 0, Scope(items)).Done? {
      ItemProjects(DropScope, t, 0, Scope(items), Types, name);
      DropItem(stack, 0, Scope(items), Types, name);
    }
  }

  // ----- all names of a program

  lemma {:induction false} LocalsChecked(ls: Locals, space: Space, name: string)
    ensures AllChecked(LocalItems(ls), space, name)
  {
    if ls.Locals? {
      if ls.first.Block? { LocalsChecked(ls.first.stmts, space, name); }
      LocalsChecked(ls.rest, space, name);
    }
  }

  lemma {:induction false} IdsKind(ids: seq<Id>, checked: bool, space: Space, name: string)
    ensures if checked then AllChecked(IdItems(ids, checked), space, name) else Prototypes(IdItems(ids, checked), space, name)
  {
    if ids != [] { IdsKind(ids[1..], checked, space, name); }
  }

  lemma {:induction false} ElementsChecked(es: seq<Element>, space: Space, name: string)
    ensures AllChecked(ElementItems(es), space, name)
  {
    if es != [] { ElementsChecked(es[1..], space, name); }
  }

  lemma DeclRegular(d: Decl, space: Space, name: string)
    ensures Regular(DeclItems(d), space, name)
  {
    match d {
      case Control(_, locals, apply) =>
        if locals.Some? { LocalsChecked(locals.value, space, name); }
        if apply.Some? { LocalsChecked(apply.value, space, name); }
        assert AllChecked(ControlItems(locals, apply), space, name);
      case Extern(_, methods) =>
        if methods.Some? { IdsKind(methods.value, false, space, name); }
      case Struct(_, fields) =>
        if fields.Some? { IdsKind(fields.value, true, space, name); }
      case Parser(_, elements) =>
        if elements.Some? { ElementsChecked(elements.value, space, name); }
        assert AllChecked(ParserItems(elements), space, name);
      case _ =>
    }
  }

  lemma {:induction false} RegularCat(a: Items, b: Items, space: Space, name: string)
    ensures Regular(Cat(a, b), space, name) <==> Regular(a, space, name) && Regular(b, space, name)
    decreases a
  {
    if a.Then? { RegularCat(a.tail, b, space, name); }
  }

  lemma {:induction false} ProgramRegular(ds: seq<Decl>, space: Space, name: string)
    ensures Regular(ProgramItems(ds), space, name)
  {
    if ds != [] {
      DeclRegular(ds[0], space, name);
      ProgramRegular(ds[1..], space, name);
      RegularCat(DeclItems(ds[0]), ProgramItems(ds[1..]), space, name);
    }
  }

  /** How the walk over any program ends, exactly, as written and with the smallest repair. */
  lemma ProgramEnds(rule: Rule, t: Table, ds: seq<Decl>)
    requires !rule.DropScope? && KeywordsOnce(t) && TableAtMost(t, 0)
    ensures var items := ProgramItems(ds); var o := RunItem(rule, t, 0, Scope(items));
            var clash := AnyClash(rule, Cut(items));
            && (o.Redeclared? <==> clash)
            && (o.AssertFailed? <==> !clash && (!Supported(items) || AnyAbort(rule, items)))
            && (o.Done? <==> !clash && Supported(items) && !AnyAbort(rule, items))
  {
    hide RunItem; hide ProgramItems; hide Regular;
    forall space, name ensures Regular(ProgramItems(ds), space, name) { ProgramRegular(ds, space, name); }
    ScopeEnds(rule, t, 0, ProgramItems(ds));
  }

  // ----- prototypes that stay behind

  lemma {:induction false} WatchCat(rule: Rule, r: Sight, a: Items, b: Items, space: Space, name: string)
    ensures Watch(rule, r, Cat(a, b), space, name) == Watch(rule, Watch(rule, r, a, space, name), b, space, name)
    decreases a
  {
    if a.Then? && r.Sight? { WatchCat(rule, Next(rule, r, a.head, space, name), a.tail, b, space, name); }
  }

  lemma {:induction false} CatAssoc(a: Items, b: Items, c: Items)
    ensures Cat(Cat(a, b), c) == Cat(a, Cat(b, c)) && Cat(a, End) == a
    decreases a
  {
    if a.Then? { CatAssoc(a.tail, b, c); }
  }

  lemma {:induction false} ProgramAppend(ds: seq<Decl>, d: Decl)
    ensures ProgramItems(ds + [d]) == Cat(ProgramItems(ds), DeclItems(d))
  {
    if ds == [] {
      assert [d][1..] == [] && [] + [d] == [d];
      CatAssoc(DeclItems(d), End, End);
    } else {
      assert (ds + [d])[0] == ds[0] && (ds + [d])[1..] == ds[1..] + [d];
      ProgramAppend(ds[1..], d);
      CatAssoc(DeclItems(ds[0]), ProgramItems(ds[1..]), DeclItems(d));
    }
  }

  /** A constant behind a program that was fine so far is rejected exactly if its name was
      declared there, or prototypes of left scopes have piled up for it. */
  lemma ConstantRejectedIff(rule: Rule, ds: seq<Decl>, id: Id)
    requires !rule.DropScope? && Watch(rule, NOTHING_SEEN, ProgramItems(ds), Idents, id.name).Sight?
    ensures Watch(rule, NOTHING_SEEN, ProgramItems(ds + [Const(id)]), Idents, id.name).Clash?
       <==> Watch(rule, NOTHING_SEEN, ProgramItems(ds), Idents, id.name).own || Piled(rule, ProgramItems(ds), Idents, id.name, 1)
  {
    hide ProgramItems; hide Piled; hide Untouched; hide Balance;
    var items := ProgramItems(ds);
    ProgramAppend(ds, Const(id));
    WatchCat(rule, NOTHING_SEEN, items, DeclItems(Const(id)), Idents, id.name);
    var q := Watch(rule, NOTHING_SEEN, items, Idents, id.name);
    hide Watch;
    StaleIff(rule, NOTHING_SEEN, items, Idents, id.name, 1);
    FromNothing(rule, items, id.name, 1);
    LastConstant(rule, q, id);
  }

  lemma LastConstant(rule: Rule, q: Sight, id: Id)
    requires q.Sight?
    ensures Watch(rule, q, DeclItems(Const(id)), Idents, id.name).Clash? <==> q.stale > 0 || q.own
  {
  }

  lemma FromNothing(rule: Rule, items: Items, name: string, n: nat)
    ensures Untouched(rule, items, Idents, name) && Balance(items, Idents, name) >= n ==> Piled(rule, items, Idents, name, n)
  {
  }

  /** The number of times a name is declared in a list. */
  function Times(ids: seq<Id>, name: string): nat {
    if ids == [] then 0 else (if ids[0].name == name then 1 else 0) + Times(ids[1..], name)
  }

  lemma {:induction false} IdsOwn(ids: seq<Id>, checked: bool, name: string)
    ensures |Own(IdItems(ids, checked), 0, Idents, name)| == Times(ids, name)
    ensures !checked ==> (AllChecked(IdItems(ids, checked), Idents, name) <==> Times(ids, name) == 0)
  {
    if ids != [] { IdsOwn(ids[1..], checked, name); }
  }

  /** A program that ends in an external object with three methods of one name is never walked
      to its end, whatever comes before. */
  lemma OverloadsAbort(rule: Rule, t: Table, ds: seq<Decl>, e: Id, methods: seq<Id>, name: string)
    requires !rule.DropScope? && KeywordsOnce(t) && TableAtMost(t, 0) && Times(methods, name) >= 3
    ensures !RunItem(rule, t, 0, Scope(ProgramItems(ds + [Extern(e, Some(methods))]))).Done?
  {
    hide RunItem; hide ProgramItems; hide Cut; hide Watch;
    var d := Extern(e, Some(methods));
    var items := ProgramItems(ds + [d]);
    ProgramEnds(rule, t, ds + [d]);
    ProgramAppend(ds, d);
    WatchCat(rule, NOTHING_SEEN, ProgramItems(ds), DeclItems(d), Idents, name);
    WatchExtern(rule, Watch(rule, NOTHING_SEEN, ProgramItems(ds), Idents, name), e, methods, name);
    CutSupported(items);
    var q := Watch(rule, NOTHING_SEEN, items, Idents, name);
    assert q.Clash? || Aborts(q);
  }

  /** An external object leaves behind all of its methods of a name but one. */
  lemma WatchExtern(rule: Rule, r: Sight, e: Id, methods: seq<Id>, name: string)
    requires Times(methods, name) > 0
    ensures Watch(rule, r, DeclItems(Extern(e, Some(methods))), Idents, name)
         == if r.Clash? then Clash else r.(stale := r.stale + Times(methods, name) - 1)
  {
    hide IdItems;
    var body := IdItems(methods, false);
    IdsOwn(methods, false, name);
    var items := Then(Scope(body), End);
    assert DeclItems(Extern(e, Some(methods))) == Then(NewType(e), items);
    if r.Sight? {
      assert Next(rule, r, Scope(body), Idents, name) == r.(stale := r.stale + Times(methods, name) - 1);
      assert Watch(rule, r, items, Idents, name) == Watch(rule, Next(rule, r, Scope(body), Idents, name), End, Idents, name);
      assert Watch(rule, r, Then(NewType(e), items), Idents, name) == Watch(rule, r, items, Idents, name);
    }
  }

  // ----- programs without repeated prototypes

  /** No external object has two methods of one name. */
  ghost predicate MethodsOnce(ds: seq<Decl>) {
    forall i, name :: 0 <= i < |ds| && ds[i].Extern? && ds[i].methods.Some? ==> Times(ds[i].methods.value, name) <= 1
  }

  lemma {:induction false} OnceCat(a: Items, b: Items, space: Space, name: string)
    ensures Once(Cat(a, b), space, name) <==> Once(a, space, name) && Once(b, space, name)
    decreases a
  {
    if a.Then? { OnceCat(a.tail, b, space, name); }
  }

  lemma DeclOnce(d: Decl, space: Space, name: string)
    requires d.Extern? && d.methods.Some? ==> Times(d.methods.value, name) <= 1
    ensures Once(DeclItems(d), space, name)
  {
    DeclRegular(d, space, name);
    match d {
      case Control(_, locals, apply) =>
        if locals.Some? { LocalsChecked(locals.value, space, name); }
        if apply.Some? { LocalsChecked(apply.value, space, name); }
        assert AllChecked(ControlItems(locals, apply), space, name);
      case Extern(_, methods) =>
        if methods.Some? {
          if space == Idents { IdsOwn(methods.value, false, name); } else { IdsOnlyIdents(methods.value, false); InnerPlain(IdItems(methods.value, false), name); }
        }
      case Struct(_, fields) =>
        if fields.Some? { IdsKind(fields.value, true, space, name); }
      case Parser(_, elements) =>
        if elements.Some? { ElementsChecked(elements.value, space, name); }
        assert AllChecked(ParserItems(elements), space, name);
      case _ =>
    }
  }

  lemma {:induction false} OnceProgram(ds: seq<Decl>, space: Space, name: string)
    requires MethodsOnce(ds)
    ensures Once(ProgramItems(ds), space, name)
  {
    if ds != [] {
      DeclOnce(ds[0], space, name);
      OnceProgram(ds[1..], space, name);
      OnceCat(DeclItems(ds[0]), ProgramItems(ds[1..]), space, name);
    }
  }

  /** A type is declared twice with no scope in between, or an identifier twice in one scope and
      in every scope between the two. */
  ghost predicate Rejected(ds: seq<Decl>) {
    (exists name :: TwiceAtOnce(ds, name)) || exists name :: TwoDirect(ProgramItems(ds), Idents, name)
  }

  /** Without repeated prototypes, as written: a program is rejected exactly if a type is
      declared twice with no scope in between, or an identifier twice in one scope and in every
      scope between the two. Otherwise it is accepted. */
  lemma WrittenProgram(t: Table, ds: seq<Decl>)
    requires KeywordsOnce(t) && TableAtMost(t, 0) && Supported(ProgramItems(ds)) && MethodsOnce(ds)
    ensures var o := RunItem(AsWritten, t, 0, Scope(ProgramItems(ds)));
            (o.Redeclared? <==> Rejected(ds)) && (o.Done? <==> !Rejected(ds))
  {
    hide RunItem; hide ProgramItems; hide Regular; hide Once; hide TwoDirect; hide TwiceAtOnce; hide Supported;
    var items := ProgramItems(ds);
    forall space, name ensures Regular(items, space, name) && Once(items, space, name) {
      ProgramRegular(ds, space, name);
      OnceProgram(ds, space, name);
    }
    WrittenSucceedsIff(t, 0, items);
    forall name ensures TwoDirect(items, Types, name) <==> TwiceAtOnce(ds, name) { TypeProgram(ds, name); }
    if AnyTwoDirect(items) {
      var space, name :| TwoDirect(items, space, name);
      assert if space == Types then TwiceAtOnce(ds, name) else TwoDirect(items, Idents, name);
      assert Rejected(ds);
    }
    if Rejected(ds) {
      var name :| TwiceAtOnce(ds, name) || TwoDirect(items, Idents, name);
      assert TwoDirect(items, Types, name) || TwoDirect(items, Idents, name);
    }
  }

  // ----- examples

  /** What should be accepted: the scope of a program in which nothing clashes. */
  lemma DropAccepts(t: Table, items: Items)
    requires KeywordsOnce(t) && TableAtMost(t, 0) && Supported(items) && !AnyRepeat(items)
    ensures RunItem(DropScope, t, 0, Scope(items)).Done?
  {
    hide NoClash; hide Supported; hide Run;
    forall space, name ensures NoClash(items, space, name, DeclaredIn(StackOf(t, space, name), 1)) {
      assert AtMost(StackOf(t, space, name), 0);
      assert NoClash(items, space, name, false);
    }
    DropSucceedsIff(t, 1, items);
    assert LeaveOk(DropScope, Run(DropScope, t, 1, items).table, 1);
  }

  lemma ExternClear(rule: Rule, e: Id, methods: seq<Id>, space: Space, name: string)
    requires !rule.DropScope?
    ensures Watch(rule, NOTHING_SEEN, DeclItems(Extern(e, Some(methods))), space, name).Sight?
    ensures NoClash(DeclItems(Extern(e, Some(methods))), space, name, false)
    ensures Supported(DeclItems(Extern(e, Some(methods))))
  {
    var body := IdItems(methods, false);
    IdsKind(methods, false, space, name);
    IdsSupported(methods, false);
    PrototypesDeclare(body, space, name);
    PrototypesNeverClash(body, space, name, false);
    hide IdItems; hide AllChecked; hide Own; hide TwoDirect; hide NestedAll; hide Again;
    var items := Then(Scope(body), End);
    assert DeclItems(Extern(e, Some(methods))) == Then(NewType(e), items);
    var r := Next(rule, NOTHING_SEEN, NewType(e), space, name);
    assert r.Sight? && r.stale == 0;
    var q := Next(rule, r, Scope(body), space, name);
    assert q.Sight?;
    assert Watch(rule, r, items, space, name) == q by { assert Watch(rule, q, End, space, name) == q; }
    assert forall seen: bool :: NoClash(items, space, name, seen);
    assert Supported(items) by { assert SupportedItem(Scope(body)); }
  }

  lemma {:induction false} IdsSupported(ids: seq<Id>, checked: bool)
    ensures Supported(IdItems(ids, checked))
  {
    if ids != [] { IdsSupported(ids[1..], checked); }
  }

  /** An external object with three methods of one name fails the assertion of
      scope_delete_symbol at the end of the program, although nothing clashes. */
  lemma ThreeOverloads(rule: Rule, t: Table, e: Id, m: Id)
    requires !rule.DropScope? && KeywordsOnce(t) && TableAtMost(t, 0)
    ensures var items := ProgramItems([Extern(e, Some([m, m, m]))]);
            RunItem(rule, t, 0, Scope(items)).AssertFailed? && RunItem(DropScope, t, 0, Scope(items)).Done?
  {
    hide RunItem; hide Watch; hide NoClash; hide Supported; hide Cut;
    var d := Extern(e, Some([m, m, m]));
    var items := ProgramItems([d]);
    assert [] + [d] == [d];
    ProgramAppend([], d);
    assert items == DeclItems(d);
    forall space, name
      ensures Watch(rule, NOTHING_SEEN, items, space, name).Sight? && NoClash(items, space, name, false) && Supported(items)
    {
      ExternClear(rule, e, [m, m, m], space, name);
    }
    ExternClear(rule, e, [m, m, m], Types, e.name);
    CutSupported(items);
    ProgramEnds(rule, t, [d]);
    OverloadsAbort(rule, t, [], e, [m, m, m], m.name) by { ThreeTimes(m); }
    DropAccepts(t, items);
  }

  lemma ThreeTimes(m: Id)
    ensures Times([m, m, m], m.name) == 3
  {
    assert [m, m, m][1..] == [m, m] && [m, m][1..] == [m] && [m][1..] == [];
    assert Times([m], m.name) == 1 && Times([m, m], m.name) == 2;
  }

  lemma ConstClear(id: Id, space: Space, name: string)
    ensures NoClash(DeclItems(Const(id)), space, name, false) && Supported(DeclItems(Const(id)))
  {
    assert NoClash(End, space, name, true) && NoClash(End, space, name, false);
  }

  lemma {:induction false} SupportedCat(a: Items, b: Items)
    ensures Supported(Cat(a, b)) <==> Supported(a) && Supported(b)
    decreases a
  {
    if a.Then? { SupportedCat(a.tail, b); }
  }

  lemma ExternOwn(e: Id, methods: seq<Id>, space: Space, name: string)
    ensures Own(DeclItems(Extern(e, Some(methods))), 0, space, name) != [] <==> space == Types && name == e.name
  {
    var items := Then(Scope(IdItems(methods, false)), End);
    assert DeclItems(Extern(e, Some(methods))) == Then(NewType(e), items);
    assert Own(items, 0, space, name) == [];
  }

  /** An external object with an overloaded method, and a constant of the method's name: the
      constant is rejected, although nothing clashes, because one of the methods stays. */
  lemma OverloadGoesStale(rule: Rule, t: Table, e: Id, m: Id)
    requires !rule.DropScope? && KeywordsOnce(t) && TableAtMost(t, 0)
    ensures var items := ProgramItems([Extern(e, Some([m, m])), Const(m)]);
            RunItem(rule, t, 0, Scope(items)).Redeclared? && RunItem(DropScope, t, 0, Scope(items)).Done?
  {
    hide RunItem; hide Watch; hide NoClash; hide Supported; hide Cut; hide Own; hide DeclItems; hide ProgramItems;
    var d, c := Extern(e, Some([m, m])), Const(m);
    var items := ProgramItems([d, c]);
    TwoDecls(d, c);
    forall space, name ensures NoClash(items, space, name, false) {
      ExternClear(rule, e, [m, m], space, name);
      ConstClear(m, space, name);
      ExternOwn(e, [m, m], space, name);
      NoClashCat(DeclItems(d), DeclItems(c), space, name, false);
      ConstSeen(m, e, space, name);
    }
    ExternClear(rule, e, [m, m], Types, e.name);
    ConstClear(m, Types, e.name);
    SupportedCat(DeclItems(d), DeclItems(c));
    DropAccepts(t, items);
    CutSupported(items);
    ProgramEnds(rule, t, [d, c]);
    StaleThenConst(rule, e, m);
    assert Watch(rule, NOTHING_SEEN, items, Idents, m.name).Clash?;
  }

  lemma NoDecls(items: Items)
    ensures ProgramItems([]) == End && Cat(End, items) == items
  {
  }

  /** The constant is no type. */
  lemma ConstSeen(m: Id, e: Id, space: Space, name: string)
    ensures NoClash(DeclItems(Const(m)), space, name, space == Types && name == e.name)
  {
    assert NoClash(End, space, name, true) && NoClash(End, space, name, false);
  }

  lemma StaleThenConst(rule: Rule, e: Id, m: Id)
    ensures Watch(rule, NOTHING_SEEN, Cat(DeclItems(Extern(e, Some([m, m]))), DeclItems(Const(m))), Idents, m.name).Clash?
  {
    hide DeclItems; hide Watch;
    assert Times([m, m], m.name) == 2 by { assert [m, m][1..] == [m] && [m][1..] == []; assert Times([m], m.name) == 1; }
    WatchCat(rule, NOTHING_SEEN, DeclItems(Extern(e, Some([m, m]))), DeclItems(Const(m)), Idents, m.name);
    WatchExtern(rule, NOTHING_SEEN, e, [m, m], m.name);
    LastConstant(rule, Sight(1, false, false), m);
  }

  /** Two structures of the same name with fields are accepted as written: the second one goes
      unnoticed. */
  lemma DuplicateMissed(t: Table, s: Id, f: Id)
    requires KeywordsOnce(t) && TableAtMost(t, 0)
    ensures var items := ProgramItems([Struct(s, Some([f])), Struct(s, Some([f]))]);
            RunItem(AsWritten, t, 0, Scope(items)).Done? && !RunItem(DropScope, t, 0, Scope(items)).Done?
  {
    hide RunItem; hide TwiceAtOnce; hide TwoDirect; hide Supported; hide DeclItems; hide ProgramItems; hide Twice;
    var d := Struct(s, Some([f]));
    var ds := [d, d];
    var items := ProgramItems(ds);
    StructTwice(s, f);
    WrittenProgram(t, ds);
    ShouldFind(t, ds, s.name);
  }

  lemma StructTwice(s: Id, f: Id)
    ensures var d := Struct(s, Some([f])); var ds := [d, d];
            && Supported(ProgramItems(ds)) && MethodsOnce(ds) && Twice(ds, s.name) && !Rejected(ds)
  {
    var d := Struct(s, Some([f]));
    var ds := [d, d];
    assert OpensScope(ds[0]) && Names(ds, 0, s.name) && Names(ds, 1, s.name);
    var body := Then(NewIdent(f), End);
    assert [f][1..] == [] && IdItems([f], true) == body;
    assert DeclItems(d) == Then(NewType(s), Then(Scope(body), End));
    TwoDecls(d, d);
    var last := Then(Scope(body), End);
    var tail := Then(NewType(s), last);
    assert ProgramItems(ds) == Then(NewType(s), Then(Scope(body), tail)) by { assert Cat(last, tail) == Then(Scope(body), tail); }
    hide Supported; hide TwoDirect;
    forall name ensures !TwoDirect(ProgramItems(ds), Idents, name) { FieldsApart(s, f, name); }
    FieldsApart(s, f, s.name);
  }

  lemma FieldsApart(s: Id, f: Id, name: string)
    ensures var last := Then(Scope(Then(NewIdent(f), End)), End);
            var items := Then(NewType(s), Then(last.head, Then(NewType(s), last)));
            Supported(items) && !TwoDirect(items, Idents, name)
  {
    hide Supported; hide TwoDirect; hide Again;
    var body := Then(NewIdent(f), End);
    var last := Then(Scope(body), End);
    var tail := Then(NewType(s), last);
    Unrolled(NewIdent(f), End, name);
    Unrolled(Scope(body), End, name);
    Unrolled(NewType(s), last, name);
    Unrolled(Scope(body), tail, name);
    Unrolled(NewType(s), Then(Scope(body), tail), name);
  }

  lemma Unrolled(item: Item, rest: Items, name: string)
    ensures Supported(End) && !TwoDirect(End, Idents, name) && !Again(End, Idents, name)
    ensures Supported(Then(item, rest)) <==> Supported(rest) && (item.Scope? ==> Supported(item.body)) && !item.Unsupported?
    ensures TwoDirect(Then(item, rest), Idents, name)
       <==> (IsKey(item, Idents, name) && Again(rest, Idents, name))
            || (item.Scope? && TwoDirect(item.body, Idents, name)) || TwoDirect(rest, Idents, name)
  {
  }

  lemma TwoDecls(d: Decl, c: Decl)
    ensures ProgramItems([d, c]) == Cat(DeclItems(d), DeclItems(c))
  {
    assert [] + [d] == [d] && [d] + [c] == [d, c];
    ProgramAppend([], d);
    ProgramAppend([d], c);
    NoDecls(DeclItems(d));
  }
}
