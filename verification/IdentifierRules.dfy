/** Which repeated identifiers of a program build_symtable.c finds, and which it should, stated
    on the syntax tree. */
module IdentifierRules {
  import opened ScopeStacks
  import opened ScopeRules
  import opened BuildSymtable
  import opened DeclarationRules
  import opened Wrappers

  // ----- lists, seen by one identifier

  /** An entry of a list: it declares the identifier, with or without a check; it is a scope
      that declares it throughout, or one that does not; or it has nothing to do with it. */
  datatype Part = Declares(checked: bool) | Keeps | Forgets | Nothing

  /** The identifier is declared, with a check. */
  ghost predicate Later(ps: seq<Part>) {
    exists j :: 0 <= j < |ps| && ps[j] == Declares(true)
  }

  /** ... before any scope that does not declare it throughout. */
  ghost predicate LaterAtOnce(ps: seq<Part>) {
    exists j :: 0 <= j < |ps| && ps[j] == Declares(true) && forall k :: 0 <= k < j ==> ps[k] != Forgets
  }

  /** The list declares the identifier twice, the second time with a check. */
  ghost predicate Repeats(ps: seq<Part>) {
    exists i, j :: 0 <= i < j < |ps| && ps[i].Declares? && ps[j] == Declares(true)
  }

  /** ... and every scope between the two declares it throughout. */
  ghost predicate RepeatsAtOnce(ps: seq<Part>) {
    exists i, j :: 0 <= i < j < |ps| && ps[i].Declares? && ps[j] == Declares(true)
                   && forall k :: i < k < j ==> ps[k] != Forgets
  }

  lemma LaterAtOnceStep(p: Part, ps: seq<Part>)
    ensures LaterAtOnce([p] + ps) <==> p == Declares(true) || (p != Forgets && LaterAtOnce(ps))
  {
    var all := [p] + ps;
    if LaterAtOnce(all) && p != Declares(true) {
      var j :| 0 <= j < |all| && all[j] == Declares(true) && forall k :: 0 <= k < j ==> all[k] != Forgets;
      assert all[0] == p && ps[j - 1] == all[j];
      forall k | 0 <= k < j - 1 ensures ps[k] != Forgets { assert ps[k] == all[k + 1]; }
    }
    if p == Declares(true) { assert all[0] == p; }
    if p != Forgets && LaterAtOnce(ps) {
      var j :| 0 <= j < |ps| && ps[j] == Declares(true) && forall k :: 0 <= k < j ==> ps[k] != Forgets;
      assert all[j + 1] == ps[j];
      forall k | 0 <= k < j + 1 ensures all[k] != Forgets { if k > 0 { assert all[k] == ps[k - 1]; } }
    }
  }

  lemma LaterStep(p: Part, ps: seq<Part>)
    ensures Later([p] + ps) <==> p == Declares(true) || Later(ps)
    ensures LaterAtOnce([p] + ps) <==> p == Declares(true) || (p != Forgets && LaterAtOnce(ps))
  {
    var all := [p] + ps;
    if Later(all) && p != Declares(true) {
      var j :| 0 <= j < |all| && all[j] == Declares(true);
      assert ps[j - 1] == all[j];
    }
    if Later(ps) {
      var j :| 0 <= j < |ps| && ps[j] == Declares(true);
      assert all[j + 1] == ps[j];
    }
    if p == Declares(true) { assert all[0] == p; }
    LaterAtOnceStep(p, ps);
  }

  lemma RepeatsStep(p: Part, ps: seq<Part>)
    ensures Repeats([p] + ps) <==> (p.Declares? && Later(ps)) || Repeats(ps)
  {
    var all := [p] + ps;
    if Repeats(all) {
      var i, j :| 0 <= i < j < |all| && all[i].Declares? && all[j] == Declares(true);
      assert ps[j - 1] == all[j];
      if i > 0 { assert ps[i - 1] == all[i]; }
    }
    if p.Declares? && Later(ps) {
      var j :| 0 <= j < |ps| && ps[j] == Declares(true);
      assert all[0].Declares? && all[j + 1] == ps[j];
    }
    if Repeats(ps) {
      var i, j :| 0 <= i < j < |ps| && ps[i].Declares? && ps[j] == Declares(true);
      assert all[i + 1] == ps[i] && all[j + 1] == ps[j];
    }
  }

  lemma AtOnceInTail(p: Part, ps: seq<Part>, i: nat, j: nat)
    requires i < j < |ps| && ps[i].Declares? && ps[j] == Declares(true) && forall k :: i < k < j ==> ps[k] != Forgets
    ensures RepeatsAtOnce([p] + ps)
  {
    var all := [p] + ps;
    assert all[i + 1].Declares? && all[j + 1] == Declares(true);
    forall k | i + 1 < k < j + 1 ensures all[k] != Forgets { assert all[k] == ps[k - 1]; }
  }

  lemma AtOnceFromHead(p: Part, ps: seq<Part>, j: nat)
    requires p.Declares? && j < |ps| && ps[j] == Declares(true) && forall k :: 0 <= k < j ==> ps[k] != Forgets
    ensures RepeatsAtOnce([p] + ps)
  {
    var all := [p] + ps;
    assert all[0].Declares? && all[j + 1] == Declares(true);
    forall k | 0 < k < j + 1 ensures all[k] != Forgets { assert all[k] == ps[k - 1]; }
  }

  lemma AtOnceSplits(p: Part, ps: seq<Part>, i: nat, j: nat)
    requires var all := [p] + ps;
             i < j < |all| && all[i].Declares? && all[j] == Declares(true) && forall k :: i < k < j ==> all[k] != Forgets
    ensures (p.Declares? && LaterAtOnce(ps)) || RepeatsAtOnce(ps)
  {
    var all := [p] + ps;
    assert ps[j - 1] == Declares(true);
    forall k | 0 <= k < j - 1 && i <= k ensures ps[k] != Forgets { assert ps[k] == all[k + 1]; }
    if i > 0 { assert ps[i - 1].Declares?; }
  }

  lemma RepeatsAtOnceStep(p: Part, ps: seq<Part>)
    ensures RepeatsAtOnce([p] + ps) <==> (p.Declares? && LaterAtOnce(ps)) || RepeatsAtOnce(ps)
  {
    var all := [p] + ps;
    if RepeatsAtOnce(all) {
      var i, j :| 0 <= i < j < |all| && all[i].Declares? && all[j] == Declares(true)
                  && forall k :: i < k < j ==> all[k] != Forgets;
      AtOnceSplits(p, ps, i, j);
    }
    if p.Declares? && LaterAtOnce(ps) {
      var j :| 0 <= j < |ps| && ps[j] == Declares(true) && forall k :: 0 <= k < j ==> ps[k] != Forgets;
      AtOnceFromHead(p, ps, j);
    }
    if RepeatsAtOnce(ps) {
      var i, j :| 0 <= i < j < |ps| && ps[i].Declares? && ps[j] == Declares(true)
                  && forall k :: i < k < j ==> ps[k] != Forgets;
      AtOnceInTail(p, ps, i, j);
    }
  }

  lemma NoneInEmpty()
    ensures !Later([]) && !LaterAtOnce([]) && !Repeats([]) && !RepeatsAtOnce([])
  {
  }

  // ----- blocks

  function Listed(ls: Locals): seq<Local> {
    if ls.NoLocals? then [] else [ls.first] + Listed(ls.rest)
  }

  /** The blocks in a list, at any depth. */
  function Inner(ls: Locals): seq<Locals> {
    if ls.NoLocals? then []
    else (if ls.first.Block? then [ls.first.stmts] + Inner(ls.first.stmts) else []) + Inner(ls.rest)
  }

  /** A list and all blocks in it. */
  function Blocks(ls: Locals): seq<Locals> {
    [ls] + Inner(ls)
  }

  ghost predicate Has(ls: Locals, name: string) {
    exists l :: l in Listed(ls) && l.Named? && l.id.name == name
  }

  /** Every block in there, the list itself included, declares the identifier. */
  ghost predicate AllHave(ls: Locals, name: string) {
    forall b :: b in Blocks(ls) ==> Has(b, name)
  }

  ghost function LocalPart(l: Local, name: string): Part {
    if l.Named? && l.id.name == name then Declares(true)
    else if l.Block? then if AllHave(l.stmts, name) then Keeps else Forgets
    else Nothing
  }

  ghost function LocalParts(ls: Locals, name: string): seq<Part> {
    if ls.NoLocals? then [] else [LocalPart(ls.first, name)] + LocalParts(ls.rest, name)
  }

  /** One of the blocks declares the identifier twice. */
  ghost predicate OneRepeats(bs: seq<Locals>, name: string) {
    exists b :: b in bs && Repeats(LocalParts(b, name))
  }

  ghost predicate OneRepeatsAtOnce(bs: seq<Locals>, name: string) {
    exists b :: b in bs && RepeatsAtOnce(LocalParts(b, name))
  }

  lemma OneCat(a: seq<Locals>, b: seq<Locals>, name: string)
    ensures OneRepeats(a + b, name) <==> OneRepeats(a, name) || OneRepeats(b, name)
    ensures OneRepeatsAtOnce(a + b, name) <==> OneRepeatsAtOnce(a, name) || OneRepeatsAtOnce(b, name)
  {
    hide Repeats; hide RepeatsAtOnce; hide LocalParts;
  }

  lemma OneOf(b: Locals, name: string)
    ensures OneRepeats([b], name) <==> Repeats(LocalParts(b, name))
    ensures OneRepeatsAtOnce([b], name) <==> RepeatsAtOnce(LocalParts(b, name))
    ensures !OneRepeats([], name) && !OneRepeatsAtOnce([], name)
  {
    hide Repeats; hide RepeatsAtOnce; hide LocalParts;
    assert b in [b];
  }

  /** A block of the list repeats the identifier: the list, a block of its first entry, or an
      inner one of the rest. */
  lemma OneInBlocks(ls: Locals, name: string)
    requires ls.Locals?
    ensures var here := ls.first.Block? && OneRepeats(Blocks(ls.first.stmts), name);
            OneRepeats(Blocks(ls), name) <==> Repeats(LocalParts(ls, name)) || here || OneRepeats(Inner(ls.rest), name)
    ensures var here := ls.first.Block? && OneRepeatsAtOnce(Blocks(ls.first.stmts), name);
            var rest := OneRepeatsAtOnce(Inner(ls.rest), name);
            OneRepeatsAtOnce(Blocks(ls), name) <==> RepeatsAtOnce(LocalParts(ls, name)) || here || rest
    ensures OneRepeats(Blocks(ls.rest), name) <==> Repeats(LocalParts(ls.rest, name)) || OneRepeats(Inner(ls.rest), name)
    ensures OneRepeatsAtOnce(Blocks(ls.rest), name)
       <==> RepeatsAtOnce(LocalParts(ls.rest, name)) || OneRepeatsAtOnce(Inner(ls.rest), name)
  {
    hide Repeats; hide RepeatsAtOnce; hide LocalParts; hide OneRepeats; hide OneRepeatsAtOnce;
    OneOf(ls, name);
    OneOf(ls.rest, name);
    OneCat([ls], Inner(ls), name);
    OneCat([ls.rest], Inner(ls.rest), name);
    var first := if ls.first.Block? then Blocks(ls.first.stmts) else [];
    assert Inner(ls) == first + Inner(ls.rest);
    OneCat(first, Inner(ls.rest), name);
  }

  lemma HasStep(ls: Locals, name: string)
    ensures !Has(NoLocals, name)
    ensures ls.Locals? ==> (Has(ls, name) <==> (ls.first.Named? && ls.first.id.name == name) || Has(ls.rest, name))
  {
    if ls.Locals? {
      assert Listed(ls) == [ls.first] + Listed(ls.rest);
      if Has(ls.rest, name) {
        var l :| l in Listed(ls.rest) && l.Named? && l.id.name == name;
        assert l in Listed(ls);
      }
      if ls.first.Named? && ls.first.id.name == name { assert ls.first in Listed(ls); }
    }
  }

  /** What LocalItems declares itself, and whether all its scopes declare the identifier. */
  lemma {:induction false} LocalsKeep(ls: Locals, name: string)
    ensures Own(LocalItems(ls), 0, Idents, name) != [] <==> Has(ls, name)
    ensures NestedAll(LocalItems(ls), Idents, name) <==> forall b :: b in Inner(ls) ==> Has(b, name)
    ensures Throughout(LocalItems(ls), Idents, name) <==> AllHave(ls, name)
    decreases ls
  {
    hide Has;
    HasStep(ls, name);
    if ls.Locals? {
      LocalsKeep(ls.rest, name);
      if ls.first.Block? {
        LocalsKeep(ls.first.stmts, name);
        assert Inner(ls) == Blocks(ls.first.stmts) + Inner(ls.rest);
      }
    }
    AllHaveStep(ls, name);
  }

  lemma AllHaveStep(ls: Locals, name: string)
    ensures AllHave(ls, name) <==> Has(ls, name) && forall b :: b in Inner(ls) ==> Has(b, name)
  {
    hide Has;
    assert ls in Blocks(ls) && forall b :: b in Inner(ls) ==> b in Blocks(ls);
  }

  lemma {:induction false} LocalsAgain(ls: Locals, name: string)
    ensures Again(LocalItems(ls), Idents, name) <==> LaterAtOnce(LocalParts(ls, name))
    decreases ls
  {
    hide LaterAtOnce; hide Throughout; hide AllHave;
    NoneInEmpty();
    if ls.Locals? {
      LocalsAgain(ls.rest, name);
      LaterStep(LocalPart(ls.first, name), LocalParts(ls.rest, name));
      if ls.first.Block? { LocalsKeep(ls.first.stmts, name); }
    }
  }

  /** As written: a list of local declarations repeats the identifier at once exactly if one of
      its blocks does. */
  lemma {:induction false} LocalsTwice(ls: Locals, name: string)
    ensures TwoDirect(LocalItems(ls), Idents, name) <==> OneRepeatsAtOnce(Blocks(ls), name)
    decreases ls
  {
    hide RepeatsAtOnce; hide Again; hide LaterAtOnce; hide LocalPart; hide OneRepeatsAtOnce; hide Blocks; hide OneRepeats;
    NoneInEmpty();
    if ls.NoLocals? {
      OneOf(ls, name);
      assert Blocks(ls) == [ls] by { LastBlock(); }
    } else {
      LocalsTwice(ls.rest, name);
      LocalsAgain(ls.rest, name);
      RepeatsAtOnceStep(LocalPart(ls.first, name), LocalParts(ls.rest, name));
      DeclaresIff(ls.first, name);
      if ls.first.Block? { LocalsTwice(ls.first.stmts, name); }
      OneInBlocks(ls, name);
    }
  }

  lemma LastBlock()
    ensures Blocks(NoLocals) == [NoLocals]
  {
  }

  /** With whole scopes removed. */
  lemma {:induction false} LocalsClash(ls: Locals, name: string, seen: bool)
    ensures NoClash(LocalItems(ls), Idents, name, seen)
       <==> !OneRepeats(Blocks(ls), name) && !(seen && Later(LocalParts(ls, name)))
    decreases ls
  {
    hide Repeats; hide Later; hide LocalPart; hide OneRepeatsAtOnce; hide Blocks; hide OneRepeats;
    NoneInEmpty();
    if ls.NoLocals? {
      OneOf(ls, name);
      assert Blocks(ls) == [ls] by { LastBlock(); }
    } else {
      var p := LocalPart(ls.first, name);
      LocalsClash(ls.rest, name, seen || p.Declares?);
      RepeatsStep(p, LocalParts(ls.rest, name));
      LaterStep(p, LocalParts(ls.rest, name));
      DeclaresIff(ls.first, name);
      if ls.first.Block? { LocalsClash(ls.first.stmts, name, false); }
      OneInBlocks(ls, name);
    }
  }

  lemma DeclaresIff(l: Local, name: string)
    ensures LocalPart(l, name).Declares? <==> l.Named? && l.id.name == name
    ensures LocalPart(l, name).Declares? ==> LocalPart(l, name) == Declares(true)
  {
  }

  // ----- fields, prototypes and parser elements

  function IdParts(ids: seq<Id>, name: string): seq<Part> {
    if ids == [] then [] else [if ids[0].name == name then Declares(true) else Nothing] + IdParts(ids[1..], name)
  }

  function ElementParts(es: seq<Element>, name: string): seq<Part> {
    if es == [] then []
    else [if es[0].NamedElement? && es[0].id.name == name then Declares(true) else Nothing] + ElementParts(es[1..], name)
  }

  ghost predicate Lists(ids: seq<Id>, name: string) {
    exists i :: 0 <= i < |ids| && ids[i].name == name
  }

  lemma ListsStep(ids: seq<Id>, name: string)
    requires ids != []
    ensures Lists(ids, name) <==> ids[0].name == name || Lists(ids[1..], name)
  {
    if Lists(ids, name) && ids[0].name != name {
      var i :| 0 <= i < |ids| && ids[i].name == name;
      assert ids[1..][i - 1].name == name;
    }
    if Lists(ids[1..], name) {
      var i :| 0 <= i < |ids[1..]| && ids[1..][i].name == name;
      assert ids[i + 1].name == name;
    }
  }

  lemma {:induction false} IdsKeep(ids: seq<Id>, checked: bool, name: string)
    ensures Throughout(IdItems(ids, checked), Idents, name) <==> Lists(ids, name)
    ensures NestedAll(IdItems(ids, checked), Idents, name)
  {
    hide Lists;
    if ids == [] {
      assert !Lists(ids, name) by { NotListed(name); }
    } else {
      IdsKeep(ids[1..], checked, name);
      ListsStep(ids, name);
    }
  }

  lemma NotListed(name: string)
    ensures !Lists([], name)
  {
  }

  /** Fields are checked: a name twice is found, as written and as it should be. */
  lemma {:induction false} FieldsTwice(ids: seq<Id>, name: string, seen: bool)
    ensures Again(IdItems(ids, true), Idents, name) <==> Later(IdParts(ids, name))
    ensures TwoDirect(IdItems(ids, true), Idents, name) <==> Repeats(IdParts(ids, name))
    ensures NoClash(IdItems(ids, true), Idents, name, seen)
       <==> !Repeats(IdParts(ids, name)) && !(seen && Later(IdParts(ids, name)))
    decreases |ids|
  {
    hide Repeats; hide Later;
    NoneInEmpty();
    if ids != [] {
      var p := if ids[0].name == name then Declares(true) else Nothing;
      FieldsTwice(ids[1..], name, seen || p.Declares?);
      RepeatsStep(p, IdParts(ids[1..], name));
      LaterStep(p, IdParts(ids[1..], name));
    }
  }

  /** Prototypes are not checked. */
  lemma {:induction false} MethodsPass(ids: seq<Id>, name: string, seen: bool)
    ensures !TwoDirect(IdItems(ids, false), Idents, name) && !Again(IdItems(ids, false), Idents, name)
    ensures NoClash(IdItems(ids, false), Idents, name, seen)
    decreases |ids|
  {
    if ids != [] { MethodsPass(ids[1..], name, seen || ids[0].name == name); }
  }

  lemma {:induction false} ElementsTwice(es: seq<Element>, name: string, seen: bool)
    ensures Again(ElementItems(es), Idents, name) <==> Later(ElementParts(es, name))
    ensures TwoDirect(ElementItems(es), Idents, name) <==> Repeats(ElementParts(es, name))
    ensures NoClash(ElementItems(es), Idents, name, seen)
       <==> !Repeats(ElementParts(es, name)) && !(seen && Later(ElementParts(es, name)))
    decreases |es|
  {
    hide Repeats; hide Later;
    NoneInEmpty();
    if es != [] {
      var p := if es[0].NamedElement? && es[0].id.name == name then Declares(true) else Nothing;
      ElementsTwice(es[1..], name, seen || p.Declares?);
      RepeatsStep(p, ElementParts(es[1..], name));
      LaterStep(p, ElementParts(es[1..], name));
    }
  }

  // ----- declarations

  /** The declaration, as an entry of the program. */
  ghost function DeclPart(d: Decl, name: string): Part {
    match d
    case Instantiation(id) => if id.name == name then Declares(true) else Nothing
    case Const(id) => if id.name == name then Declares(true) else Nothing
    case FunctionProto(id) => if id.name == name then Declares(false) else Nothing
    case Control(_, _, _) => Forgets
    case Parser(_, _) => Forgets
    case Extern(_, methods) =>
      if methods.None? then Nothing else if Lists(methods.value, name) then Keeps else Forgets
    case Struct(_, fields) =>
      if fields.None? then Nothing else if Lists(fields.value, name) then Keeps else Forgets
    case Package(_) => Nothing
    case TypeDecl(_, _) => Nothing
    case OtherDecl => Nothing
  }

  ghost function DeclParts(ds: seq<Decl>, name: string): seq<Part> {
    if ds == [] then [] else [DeclPart(ds[0], name)] + DeclParts(ds[1..], name)
  }

  /** The declaration repeats the identifier in a list of its own: local declarations, blocks,
      fields or parser elements. */
  ghost predicate InsideRepeats(d: Decl, name: string) {
    match d
    case Control(_, locals, apply) =>
      || (locals.Some? && OneRepeats(Blocks(locals.value), name))
      || (apply.Some? && OneRepeats(Blocks(apply.value), name))
    case Struct(_, fields) => fields.Some? && Repeats(IdParts(fields.value, name))
    case Parser(_, elements) => elements.Some? && Repeats(ElementParts(elements.value, name))
    case _ => false
  }

  /** ... and the code as written notices. */
  ghost predicate InsideRepeatsAtOnce(d: Decl, name: string) {
    match d
    case Control(_, locals, apply) =>
      || (locals.Some? && OneRepeatsAtOnce(Blocks(locals.value), name))
      || (apply.Some? && OneRepeatsAtOnce(Blocks(apply.value), name))
    case Struct(_, fields) => fields.Some? && Repeats(IdParts(fields.value, name))
    case Parser(_, elements) => elements.Some? && Repeats(ElementParts(elements.value, name))
    case _ => false
  }

  /** What a declaration declares itself, or the scope that it opens. */
  lemma DeclShape(d: Decl)
    ensures OpensScope(d) ==> DeclItems(d) == Then(NewType(d.id), Then(Scope(BodyOf(d)), End))
    ensures !OpensScope(d) ==> DeclItems(d).End? || DeclItems(d).tail == End
  {
  }

  function BodyOf(d: Decl): Items {
    match d
    case Control(_, locals, apply) => ControlItems(locals, apply)
    case Extern(_, methods) => if methods.Some? then IdItems(methods.value, false) else End
    case Struct(_, fields) => if fields.Some? then IdItems(fields.value, true) else End
    case Parser(_, elements) => ParserItems(elements)
    case _ => End
  }

  lemma InScope(body: Items, rest: Items, name: string)
    ensures Own(Then(Scope(body), rest), 0, Idents, name) == Own(rest, 0, Idents, name) && Own(End, 0, Idents, name) == []
    ensures TwoDirect(Then(Scope(body), rest), Idents, name) <==> TwoDirect(body, Idents, name) || TwoDirect(rest, Idents, name)
    ensures NoClash(Then(Scope(body), rest), Idents, name, false)
       <==> NoClash(body, Idents, name, false) && NoClash(rest, Idents, name, false)
    ensures !TwoDirect(End, Idents, name) && NoClash(End, Idents, name, false)
  {
  }

  lemma ParserFits(elements: Option<seq<Element>>, name: string)
    ensures !Throughout(ParserItems(elements), Idents, name)
    ensures TwoDirect(ParserItems(elements), Idents, name)
       <==> elements.Some? && Repeats(ElementParts(elements.value, name))
    ensures NoClash(ParserItems(elements), Idents, name, false)
       <==> !(elements.Some? && Repeats(ElementParts(elements.value, name)))
  {
    hide Repeats; hide ElementItems; hide TwoDirect; hide NoClash; hide Own;
    InScope(End, End, name);
    if elements.Some? {
      ElementsTwice(elements.value, name, false);
      InScope(ElementItems(elements.value), End, name);
    }
  }

  lemma ControlFits(locals: Option<Locals>, apply: Option<Locals>, name: string)
    ensures !Throughout(ControlItems(locals, apply), Idents, name)
    ensures TwoDirect(ControlItems(locals, apply), Idents, name)
       <==> || (locals.Some? && OneRepeatsAtOnce(Blocks(locals.value), name))
            || (apply.Some? && OneRepeatsAtOnce(Blocks(apply.value), name))
    ensures NoClash(ControlItems(locals, apply), Idents, name, false)
       <==> !((locals.Some? && OneRepeats(Blocks(locals.value), name)) || (apply.Some? && OneRepeats(Blocks(apply.value), name)))
  {
    hide OneRepeats; hide OneRepeatsAtOnce; hide Blocks; hide LocalItems; hide TwoDirect; hide NoClash; hide Own;
    InScope(End, End, name);
    var tail := if apply.Some? then Then(Scope(LocalItems(apply.value)), End) else End;
    if apply.Some? {
      LocalsTwice(apply.value, name);
      LocalsClash(apply.value, name, false);
      InScope(LocalItems(apply.value), End, name);
    }
    if locals.Some? {
      LocalsTwice(locals.value, name);
      LocalsClash(locals.value, name, false);
      InScope(LocalItems(locals.value), tail, name);
    }
  }

  lemma BodyFits(d: Decl, name: string)
    requires OpensScope(d)
    ensures Throughout(BodyOf(d), Idents, name) <==> DeclPart(d, name) == Keeps
    ensures TwoDirect(BodyOf(d), Idents, name) <==> InsideRepeatsAtOnce(d, name)
    ensures NoClash(BodyOf(d), Idents, name, false) <==> !InsideRepeats(d, name)
  {
    hide OneRepeats; hide OneRepeatsAtOnce; hide Repeats; hide Lists; hide Blocks;
    match d {
      case Control(_, locals, apply) => ControlFits(locals, apply, name);
      case Extern(_, methods) =>
        IdsKeep(methods.value, false, name);
        MethodsPass(methods.value, name, false);
      case Struct(_, fields) =>
        IdsKeep(fields.value, true, name);
        FieldsTwice(fields.value, name, false);
      case Parser(_, elements) => ParserFits(elements, name);
    }
  }

  /** A declaration in front of others. */
  lemma IdentStep(d: Decl, rest: Items, name: string, seen: bool)
    ensures var items := Cat(DeclItems(d), rest); var p := DeclPart(d, name);
            && (Again(items, Idents, name) <==> p == Declares(true) || (p != Forgets && Again(rest, Idents, name)))
            && (TwoDirect(items, Idents, name)
                <==> (p.Declares? && Again(rest, Idents, name)) || InsideRepeatsAtOnce(d, name) || TwoDirect(rest, Idents, name))
            && (NoClash(items, Idents, name, seen)
                <==> !InsideRepeats(d, name) && !(p == Declares(true) && seen)
                     && NoClash(rest, Idents, name, seen || p.Declares?))
  {
    DeclShape(d);
    if OpensScope(d) {
      BodyFits(d, name);
      hide BodyOf; hide Throughout; hide Lists; hide InsideRepeats; hide InsideRepeatsAtOnce; hide DeclItems;
      var tail := Then(Scope(BodyOf(d)), rest);
      assert Cat(DeclItems(d), rest) == Then(NewType(d.id), tail) by {
        assert Cat(End, rest) == rest && Cat(Then(Scope(BodyOf(d)), End), rest) == tail;
      }
      assert !DeclPart(d, name).Declares? && DeclPart(d, name) != Nothing;
    } else {
      assert Cat(End, rest) == rest;
      assert !InsideRepeats(d, name) && !InsideRepeatsAtOnce(d, name) && DeclPart(d, name) != Forgets;
    }
  }

  // ----- programs

  /** The program declares the identifier twice in one place: at the top, or in a list of one of
      its declarations. */
  ghost predicate IdentTwice(ds: seq<Decl>, name: string) {
    Repeats(DeclParts(ds, name)) || exists d :: d in ds && InsideRepeats(d, name)
  }

  /** ... with only scopes in between that declare it throughout. */
  ghost predicate IdentTwiceAtOnce(ds: seq<Decl>, name: string) {
    RepeatsAtOnce(DeclParts(ds, name)) || exists d :: d in ds && InsideRepeatsAtOnce(d, name)
  }

  lemma InsideStep(ds: seq<Decl>, name: string)
    requires ds != []
    ensures (exists d :: d in ds && InsideRepeats(d, name))
       <==> InsideRepeats(ds[0], name) || exists d :: d in ds[1..] && InsideRepeats(d, name)
    ensures (exists d :: d in ds && InsideRepeatsAtOnce(d, name))
       <==> InsideRepeatsAtOnce(ds[0], name) || exists d :: d in ds[1..] && InsideRepeatsAtOnce(d, name)
  {
    hide InsideRepeats; hide InsideRepeatsAtOnce;
    assert ds == [ds[0]] + ds[1..] && ds[0] in ds;
    assert forall d :: d in ds <==> d == ds[0] || d in ds[1..];
  }

  lemma {:induction false} IdentProgram(ds: seq<Decl>, name: string, seen: bool)
    ensures Again(ProgramItems(ds), Idents, name) <==> LaterAtOnce(DeclParts(ds, name))
    ensures TwoDirect(ProgramItems(ds), Idents, name) <==> IdentTwiceAtOnce(ds, name)
    ensures NoClash(ProgramItems(ds), Idents, name, seen) <==> !IdentTwice(ds, name) && !(seen && Later(DeclParts(ds, name)))
    decreases |ds|
  {
    hide Repeats; hide RepeatsAtOnce; hide Later; hide LaterAtOnce; hide InsideRepeats; hide InsideRepeatsAtOnce; hide DeclPart;
    hide DeclItems;
    NoneInEmpty();
    if ds != [] {
      var p, ps := DeclPart(ds[0], name), DeclParts(ds[1..], name);
      IdentProgram(ds[1..], name, seen || p.Declares?);
      IdentStep(ds[0], ProgramItems(ds[1..]), name, seen);
      RepeatsStep(p, ps);
      RepeatsAtOnceStep(p, ps);
      LaterStep(p, ps);
      InsideStep(ds, name);
    }
  }

  // ----- nodes that the walkers do not know

  ghost predicate KnownBlock(b: Locals) {
    OtherLocal !in Listed(b)
  }

  ghost predicate AllKnown(bs: seq<Locals>) {
    forall b :: b in bs ==> KnownBlock(b)
  }

  /** No block holds a node that the walkers abort at. */
  ghost predicate KnownLocals(ls: Locals) {
    AllKnown(Blocks(ls))
  }

  ghost predicate KnownDecl(d: Decl) {
    match d
    case Control(_, locals, apply) =>
      (locals.Some? ==> KnownLocals(locals.value)) && (apply.Some? ==> KnownLocals(apply.value))
    case Parser(_, elements) => elements.Some? ==> OtherElement !in elements.value
    case _ => true
  }

  ghost predicate Known(ds: seq<Decl>) {
    forall d :: d in ds ==> KnownDecl(d)
  }

  lemma KnownCat(a: seq<Locals>, b: seq<Locals>)
    ensures AllKnown(a + b) <==> AllKnown(a) && AllKnown(b)
  {
    hide KnownBlock;
    assert forall x :: x in a + b <==> x in a || x in b;
  }

  lemma KnownStep(ls: Locals)
    ensures ls.Locals? ==>
      (KnownLocals(ls)
       <==> !ls.first.OtherLocal? && (ls.first.Block? ==> KnownLocals(ls.first.stmts)) && KnownLocals(ls.rest))
    ensures ls.NoLocals? ==> KnownLocals(ls)
  {
    if ls.Locals? {
      var first := if ls.first.Block? then Blocks(ls.first.stmts) else [];
      assert Inner(ls) == first + Inner(ls.rest);
      KnownCat([ls], Inner(ls));
      KnownCat(first, Inner(ls.rest));
      KnownCat([ls.rest], Inner(ls.rest));
      assert Listed(ls) == [ls.first] + Listed(ls.rest);
      assert ls in [ls] && ls.rest in [ls.rest];
    }
  }

  lemma {:induction false} LocalsKnown(ls: Locals)
    ensures Supported(LocalItems(ls)) <==> KnownLocals(ls)
    decreases ls
  {
    hide KnownLocals;
    KnownStep(ls);
    if ls.Locals? {
      LocalsKnown(ls.rest);
      if ls.first.Block? { LocalsKnown(ls.first.stmts); }
    }
  }

  lemma {:induction false} ElementsKnown(es: seq<Element>)
    ensures Supported(ElementItems(es)) <==> OtherElement !in es
  {
    if es != [] {
      ElementsKnown(es[1..]);
      assert es == [es[0]] + es[1..];
    }
  }

  /** What is walked before the first unknown node. */
  ghost function LocalsBefore(ls: Locals): Locals {
    if ls.NoLocals? || ls.first.OtherLocal? then NoLocals
    else if ls.first.Block? && !KnownLocals(ls.first.stmts) then Locals(Block(LocalsBefore(ls.first.stmts)), NoLocals)
    else Locals(ls.first, LocalsBefore(ls.rest))
  }

  function ElementsBefore(es: seq<Element>): seq<Element> {
    if es == [] || es[0].OtherElement? then [] else [es[0]] + ElementsBefore(es[1..])
  }

  ghost function DeclBefore(d: Decl): Decl {
    match d
    case Control(id, locals, apply) =>
      if locals.Some? && !KnownLocals(locals.value) then Control(id, Some(LocalsBefore(locals.value)), None)
      else if apply.Some? then Control(id, locals, Some(LocalsBefore(apply.value)))
      else d
    case Parser(id, elements) => if elements.Some? then Parser(id, Some(ElementsBefore(elements.value))) else d
    case _ => d
  }

  ghost function Before(ds: seq<Decl>): seq<Decl> {
    if ds == [] then [] else if KnownDecl(ds[0]) then [ds[0]] + Before(ds[1..]) else [DeclBefore(ds[0])]
  }

  lemma {:induction false} LocalsCut(ls: Locals)
    ensures Cut(LocalItems(ls)) == LocalItems(LocalsBefore(ls))
    decreases ls
  {
    hide KnownLocals;
    if ls.Locals? {
      LocalsCut(ls.rest);
      if ls.first.Block? {
        LocalsKnown(ls.first.stmts);
        LocalsCut(ls.first.stmts);
      }
    }
  }

  lemma {:induction false} ElementsCut(es: seq<Element>)
    ensures Cut(ElementItems(es)) == ElementItems(ElementsBefore(es))
  {
    if es != [] && es[0].NamedElement? {
      ElementsCut(es[1..]);
      assert ElementsBefore(es)[1..] == ElementsBefore(es[1..]);
    }
  }

  lemma {:induction false} CutCat(a: Items, b: Items)
    ensures Cut(Cat(a, b)) == if Supported(a) then Cat(a, Cut(b)) else Cut(a)
    decreases a
  {
    if a.Then? { CutCat(a.tail, b); }
  }

  lemma OneScope(body: Items, rest: Items)
    ensures Supported(Then(Scope(body), rest)) <==> Supported(body) && Supported(rest)
    ensures Cut(Then(Scope(body), rest))
         == if Supported(body) then Then(Scope(body), Cut(rest)) else Then(Scope(Cut(body)), End)
  {
    assert SupportedItem(Scope(body)) == Supported(body);
  }

  lemma ControlCut(id: Id, locals: Option<Locals>, apply: Option<Locals>)
    ensures var d := Control(id, locals, apply);
            && (Supported(ControlItems(locals, apply)) <==> KnownDecl(d))
            && (!KnownDecl(d) ==> DeclItems(DeclBefore(d)) == Then(NewType(id), Then(Scope(Cut(ControlItems(locals, apply))), End)))
  {
    hide KnownLocals; hide Supported; hide Cut; hide LocalItems;
    var tail := if apply.Some? then Then(Scope(LocalItems(apply.value)), End) else End;
    assert Supported(End) && Cut(End) == End by { NothingCut(); }
    if apply.Some? {
      LocalsKnown(apply.value);
      LocalsCut(apply.value);
      OneScope(LocalItems(apply.value), End);
    }
    if locals.Some? {
      LocalsKnown(locals.value);
      LocalsCut(locals.value);
      OneScope(LocalItems(locals.value), tail);
    }
  }

  lemma NothingCut()
    ensures Supported(End) && Cut(End) == End
  {
  }

  lemma DeclCut(d: Decl)
    ensures Supported(DeclItems(d)) <==> KnownDecl(d)
    ensures !KnownDecl(d) ==> Cut(DeclItems(d)) == DeclItems(DeclBefore(d))
  {
    NothingCut();
    match d {
      case Control(id, locals, apply) =>
        ControlCut(id, locals, apply);
        hide KnownDecl; hide DeclBefore; hide ControlItems;
        OneScope(ControlItems(locals, apply), End);
      case Extern(_, methods) => if methods.Some? {
        IdsSupported(methods.value, false);
        OneScope(IdItems(methods.value, false), End);
      }
      case Struct(_, fields) => if fields.Some? {
        IdsSupported(fields.value, true);
        OneScope(IdItems(fields.value, true), End);
      }
      case Parser(_, elements) =>
        if elements.Some? {
          ElementsKnown(elements.value);
          ElementsCut(elements.value);
          OneScope(ElementItems(elements.value), End);
        }
        OneScope(ParserItems(elements), End);
      case _ =>
    }
  }

  lemma {:induction false} ProgramCut(ds: seq<Decl>)
    ensures Cut(ProgramItems(ds)) == ProgramItems(Before(ds))
    ensures Supported(ProgramItems(ds)) <==> Known(ds)
    ensures Known(ds) ==> Before(ds) == ds
    ensures MethodsOnce(ds) ==> MethodsOnce(Before(ds))
    decreases |ds|
  {
    hide KnownDecl; hide DeclBefore; hide DeclItems;
    if ds != [] {
      ProgramCut(ds[1..]);
      DeclCut(ds[0]);
      CutCat(DeclItems(ds[0]), ProgramItems(ds[1..]));
      SupportedCat(DeclItems(ds[0]), ProgramItems(ds[1..]));
      assert ds == [ds[0]] + ds[1..];
      assert Known(ds) <==> KnownDecl(ds[0]) && Known(ds[1..]);
      OneDecl(DeclBefore(ds[0]));
      if MethodsOnce(ds) { MethodsBefore(ds); }
    }
  }

  lemma OneDecl(d: Decl)
    ensures ProgramItems([d]) == DeclItems(d)
  {
    hide DeclItems;
    assert [] + [d] == [d];
    ProgramAppend([], d);
    NoDecls(DeclItems(d));
  }

  lemma MethodsBefore(ds: seq<Decl>)
    requires ds != [] && MethodsOnce(ds) && (MethodsOnce(ds[1..]) ==> MethodsOnce(Before(ds[1..])))
    ensures MethodsOnce(Before(ds))
  {
    hide Times; hide KnownLocals; hide LocalsBefore; hide ElementsBefore;
    assert forall i :: 0 <= i < |ds| - 1 ==> ds[1..][i] == ds[i + 1];
    assert MethodsOnce(ds[1..]);
    if KnownDecl(ds[0]) {
      var rest := Before(ds[1..]);
      assert Before(ds) == [ds[0]] + rest;
      forall i, name | 0 <= i < |rest| + 1 && Before(ds)[i].Extern? && Before(ds)[i].methods.Some?
        ensures Times(Before(ds)[i].methods.value, name) <= 1
      {
        if i > 0 { assert Before(ds)[i] == rest[i - 1]; } else { assert Before(ds)[0] == ds[0]; }
      }
    }
  }

  // ----- the walk over a program

  /** A type is declared twice, or an identifier twice in one place. */
  ghost predicate Repeated(ds: seq<Decl>) {
    (exists name :: Twice(ds, name)) || exists name :: IdentTwice(ds, name)
  }

  /** ... with only scopes in between that declare it throughout; for types, with none. */
  ghost predicate RepeatedAtOnce(ds: seq<Decl>) {
    (exists name :: TwiceAtOnce(ds, name)) || exists name :: IdentTwiceAtOnce(ds, name)
  }

  lemma DropFails(t: Table, items: Items)
    requires KeywordsOnce(t) && TableAtMost(t, 0) && Supported(items)
    ensures !Run(DropScope, t, 1, items).AssertFailed?
  {
    hide Run; hide KeyRun; hide Supported;
    if Run(DropScope, t, 1, items).AssertFailed? {
      var space, name := RunAborts(DropScope, t, 1, items);
      DropRun(StackOf(t, space, name), 1, items, space, name);
    }
  }

  lemma Clean(t: Table, space: Space, name: string)
    requires TableAtMost(t, 0)
    ensures !DeclaredIn(StackOf(t, space, name), 1) && TableAtMost(t, 1)
  {
    assert AtMost(StackOf(t, space, name), 0);
  }

  lemma DropEnds(t: Table, ds: seq<Decl>)
    requires KeywordsOnce(t) && TableAtMost(t, 0) && Known(ds)
    ensures var o := Run(DropScope, t, 1, ProgramItems(ds));
            (o.Redeclared? <==> Repeated(ds)) && (o.Done? <==> !Repeated(ds))
  {
    hide Run; hide ProgramItems; hide NoClash; hide Twice; hide IdentTwice; hide Known; hide Supported;
    var items := ProgramItems(ds);
    ProgramCut(ds);
    DropFails(t, items);
    forall space, name
      ensures NoClash(items, space, name, DeclaredIn(StackOf(t, space, name), 1))
         <==> if space == Types then !Twice(ds, name) else !IdentTwice(ds, name)
    {
      Clean(t, space, name);
      RepeatedTypes(ds, name, false);
      IdentProgram(ds, name, false);
    }
    Clean(t, Types, "");
    DropSucceedsIff(t, 1, items);
    if Run(DropScope, t, 1, items).Done? {
      forall name ensures !Twice(ds, name) && !IdentTwice(ds, name) {
        assert NoClash(items, Types, name, DeclaredIn(StackOf(t, Types, name), 1));
        assert NoClash(items, Idents, name, DeclaredIn(StackOf(t, Idents, name), 1));
      }
    }
  }

  /** With whole scopes removed the walk reports a redeclaration exactly if a type is declared
      twice, or an identifier twice in one control, block, field list, element list or at the
      top, before any unknown node; and it succeeds exactly if there is neither. */
  lemma DroppedProgram(t: Table, ds: seq<Decl>)
    requires KeywordsOnce(t) && TableAtMost(t, 0)
    ensures var o := RunItem(DropScope, t, 0, Scope(ProgramItems(ds)));
            (o.Redeclared? <==> Repeated(Before(ds))) && (o.Done? <==> Known(ds) && !Repeated(ds))
  {
    hide Run; hide ProgramItems; hide Repeated; hide Known; hide Before; hide Supported;
    var items := ProgramItems(ds);
    ProgramCut(ds);
    RunCut(DropScope, t, 1, items);
    CutSupported(items);
    ProgramCut(Before(ds));
    DropEnds(t, Before(ds));
    DropLeaves(t, items);
  }

  lemma DropLeaves(t: Table, items: Items)
    ensures RunItem(DropScope, t, 0, Scope(items)).Done? <==> Run(DropScope, t, 1, items).Done?
    ensures RunItem(DropScope, t, 0, Scope(items)).Redeclared? <==> Run(DropScope, t, 1, items).Redeclared?
  {
    hide Run;
    var r := Run(DropScope, t, 1, items);
    if r.Done? { assert LeaveOk(DropScope, r.table, 1); }
  }

  /** As written, where no external object repeats a method: the same with repetitions that
      have only scopes in between that declare the name throughout. */
  lemma WrittenTree(t: Table, ds: seq<Decl>)
    requires KeywordsOnce(t) && TableAtMost(t, 0) && MethodsOnce(ds)
    ensures var o := RunItem(AsWritten, t, 0, Scope(ProgramItems(ds)));
            (o.Redeclared? <==> RepeatedAtOnce(Before(ds))) && (o.Done? <==> Known(ds) && !RepeatedAtOnce(ds))
  {
    hide Run; hide RunItem; hide ProgramItems; hide RepeatedAtOnce; hide Known; hide Before; hide Supported; hide MethodsOnce;
    var items := ProgramItems(ds);
    ProgramCut(ds);
    CutSupported(items);
    ProgramCut(Before(ds));
    WrittenProgram(t, Before(ds));
    RejectedIff(Before(ds));
    WrittenCut(t, items);
  }

  lemma WrittenCut(t: Table, items: Items)
    ensures RunItem(AsWritten, t, 0, Scope(items)).Redeclared? <==> RunItem(AsWritten, t, 0, Scope(Cut(items))).Redeclared?
    ensures RunItem(AsWritten, t, 0, Scope(items)).Done? ==> Supported(items)
  {
    hide Run; hide Cut; hide Supported;
    RunCut(AsWritten, t, 1, items);
  }

  lemma RejectedIff(ds: seq<Decl>)
    ensures Rejected(ds) <==> RepeatedAtOnce(ds)
  {
    hide TwiceAtOnce; hide TwoDirect; hide IdentTwiceAtOnce; hide ProgramItems;
    forall name ensures TwoDirect(ProgramItems(ds), Idents, name) <==> IdentTwiceAtOnce(ds, name) {
      IdentProgram(ds, name, false);
    }
  }

  // ----- the nodes that are kept for a name

  /** Declarations of a name in one scope, newest first. */
  function Symbols(space: Space, name: string, level: int, nodes: seq<nat>): seq<Symbol> {
    if nodes == [] then []
    else [if space == Types then TypeSymbol(name, level, nodes[0]) else IdentSymbol(name, level, nodes[0])]
         + Symbols(space, name, level, nodes[1..])
  }

  lemma {:induction false} SymbolsCat(space: Space, name: string, level: int, a: seq<nat>, b: seq<nat>)
    ensures Symbols(space, name, level, a + b) == Symbols(space, name, level, a) + Symbols(space, name, level, b)
    decreases |a|
  {
    if a == [] {
      assert a + b == b;
    } else {
      assert (a + b)[1..] == a[1..] + b;
      SymbolsCat(space, name, level, a[1..], b);
    }
  }

  lemma OneSymbol(space: Space, name: string, level: int, node: nat)
    ensures Symbols(space, name, level, [node]) == [NewSymbol(space, name, level, node)]
    ensures Symbols(space, name, level, []) == []
  {
    assert [node][1..] == [];
  }

  function LocalNodes(ls: Locals, name: string): seq<nat> {
    if ls.NoLocals? then []
    else LocalNodes(ls.rest, name) + if ls.first.Named? && ls.first.id.name == name then [ls.first.id.ast] else []
  }

  function IdNodes(ids: seq<Id>, name: string): seq<nat> {
    if ids == [] then [] else IdNodes(ids[1..], name) + if ids[0].name == name then [ids[0].ast] else []
  }

  function ElementNodes(es: seq<Element>, name: string): seq<nat> {
    if es == [] then []
    else ElementNodes(es[1..], name) + if es[0].NamedElement? && es[0].id.name == name then [es[0].id.ast] else []
  }

  /** The nodes that declare the name as a type, and as an identifier. */
  function TypeNodes(ds: seq<Decl>, name: string): seq<nat> {
    if ds == [] then [] else TypeNodes(ds[1..], name) + TypeNode(ds[0], name)
  }

  function TypeNode(d: Decl, name: string): seq<nat> {
    if TypeOf(d) == Some(name) then [d.id.ast] else []
  }

  function IdentNodes(ds: seq<Decl>, name: string): seq<nat> {
    if ds == [] then [] else IdentNodes(ds[1..], name) + IdentNode(ds[0], name)
  }

  function IdentNode(d: Decl, name: string): seq<nat> {
    if (d.Instantiation? || d.Const? || d.FunctionProto?) && d.id.name == name then [d.id.ast] else []
  }

  lemma {:induction false} LocalsOwn(ls: Locals, level: int, name: string)
    ensures Own(LocalItems(ls), level, Idents, name) == Symbols(Idents, name, level, LocalNodes(ls, name))
    decreases ls
  {
    if ls.Locals? {
      LocalsOwn(ls.rest, level, name);
      var last := if ls.first.Named? && ls.first.id.name == name then [ls.first.id.ast] else [];
      SymbolsCat(Idents, name, level, LocalNodes(ls.rest, name), last);
      OneSymbol(Idents, name, level, if last == [] then 0 else last[0]);
    }
  }

  lemma {:induction false} FieldsOwn(ids: seq<Id>, checked: bool, level: int, name: string)
    ensures Own(IdItems(ids, checked), level, Idents, name) == Symbols(Idents, name, level, IdNodes(ids, name))
  {
    if ids != [] {
      FieldsOwn(ids[1..], checked, level, name);
      var last := if ids[0].name == name then [ids[0].ast] else [];
      SymbolsCat(Idents, name, level, IdNodes(ids[1..], name), last);
      OneSymbol(Idents, name, level, ids[0].ast);
    }
  }

  lemma {:induction false} ElementsOwn(es: seq<Element>, level: int, name: string)
    ensures Own(ElementItems(es), level, Idents, name) == Symbols(Idents, name, level, ElementNodes(es, name))
  {
    if es != [] {
      ElementsOwn(es[1..], level, name);
      var last := if es[0].NamedElement? && es[0].id.name == name then [es[0].id.ast] else [];
      SymbolsCat(Idents, name, level, ElementNodes(es[1..], name), last);
      OneSymbol(Idents, name, level, if last == [] then 0 else last[0]);
    }
  }

  lemma {:induction false} OwnCat(a: Items, b: Items, level: int, space: Space, name: string)
    ensures Own(Cat(a, b), level, space, name) == Own(b, level, space, name) + Own(a, level, space, name)
    decreases a
  {
    if a.Then? { OwnCat(a.tail, b, level, space, name); }
  }

  lemma DeclOwn(d: Decl, level: int, name: string)
    ensures Own(DeclItems(d), level, Types, name)
         == Symbols(Types, name, level, TypeNode(d, name))
    ensures Own(DeclItems(d), level, Idents, name)
         == Symbols(Idents, name, level, IdentNode(d, name))
  {
    OneSymbol(Types, name, level, if d.OtherDecl? then 0 else d.id.ast);
    OneSymbol(Idents, name, level, if d.OtherDecl? then 0 else d.id.ast);
    hide Symbols; hide BodyOf;
    DeclShape(d);
    if OpensScope(d) {
      var tail := Then(Scope(BodyOf(d)), End);
      assert Own(tail, level, Types, name) == [] && Own(tail, level, Idents, name) == [];
    }
  }

  lemma {:induction false} ProgramOwn(ds: seq<Decl>, level: int, name: string)
    ensures Own(ProgramItems(ds), level, Types, name) == Symbols(Types, name, level, TypeNodes(ds, name))
    ensures Own(ProgramItems(ds), level, Idents, name) == Symbols(Idents, name, level, IdentNodes(ds, name))
  {
    hide DeclItems; hide Symbols; hide TypeNode; hide IdentNode;
    if ds == [] {
      OneSymbol(Types, name, level, 0);
      OneSymbol(Idents, name, level, 0);
    } else {
      ProgramOwn(ds[1..], level, name);
      DeclOwn(ds[0], level, name);
      OwnCat(DeclItems(ds[0]), ProgramItems(ds[1..]), level, Types, name);
      OwnCat(DeclItems(ds[0]), ProgramItems(ds[1..]), level, Idents, name);
      SymbolsCat(Types, name, level, TypeNodes(ds[1..], name), TypeNode(ds[0], name));
      SymbolsCat(Idents, name, level, IdentNodes(ds[1..], name), IdentNode(ds[0], name));
    }
  }

  lemma DropOwn(t: Table, level: int, items: Items, space: Space, name: string)
    requires TableAtMost(t, level) && Run(DropScope, t, level, items).Done?
    ensures StackOf(Run(DropScope, t, level, items).table, space, name)
         == Own(items, level, space, name) + StackOf(t, space, name)
  {
    hide Run; hide KeyRun; hide Own; hide NoClash;
    RunProjects(DropScope, t, level, items, space, name);
    assert AtMost(StackOf(t, space, name), level);
    DropRun(StackOf(t, space, name), level, items, space, name);
  }

  /** With whole scopes removed, the table holds at the end of a program, for every name, the
      nodes that declare it at the top, newest first, above what was there. */
  lemma ProgramNodes(t: Table, ds: seq<Decl>, name: string)
    requires TableAtMost(t, 1) && Run(DropScope, t, 1, ProgramItems(ds)).Done?
    ensures var r := Run(DropScope, t, 1, ProgramItems(ds)).table;
            && StackOf(r, Types, name) == Symbols(Types, name, 1, TypeNodes(ds, name)) + StackOf(t, Types, name)
            && StackOf(r, Idents, name) == Symbols(Idents, name, 1, IdentNodes(ds, name)) + StackOf(t, Idents, name)
  {
    hide Run; hide Own; hide ProgramItems; hide Symbols;
    DropOwn(t, 1, ProgramItems(ds), Types, name);
    DropOwn(t, 1, ProgramItems(ds), Idents, name);
    ProgramOwn(ds, 1, name);
  }

  /** The same for a list of local declarations, of fields or prototypes, or of parser elements,
      at the end of its scope. */
  lemma ListNodes(t: Table, level: int, ls: Locals, ids: seq<Id>, checked: bool, es: seq<Element>, name: string)
    requires TableAtMost(t, level)
    ensures var o := Run(DropScope, t, level, LocalItems(ls));
            o.Done? ==> StackOf(o.table, Idents, name)
                        == Symbols(Idents, name, level, LocalNodes(ls, name)) + StackOf(t, Idents, name)
    ensures var o := Run(DropScope, t, level, IdItems(ids, checked));
            o.Done? ==> StackOf(o.table, Idents, name)
                        == Symbols(Idents, name, level, IdNodes(ids, name)) + StackOf(t, Idents, name)
    ensures var o := Run(DropScope, t, level, ElementItems(es));
            o.Done? ==> StackOf(o.table, Idents, name)
                        == Symbols(Idents, name, level, ElementNodes(es, name)) + StackOf(t, Idents, name)
  {
    hide Run; hide Own; hide Symbols; hide LocalItems; hide IdItems; hide ElementItems;
    if Run(DropScope, t, level, LocalItems(ls)).Done? { DropOwn(t, level, LocalItems(ls), Idents, name); }
    if Run(DropScope, t, level, IdItems(ids, checked)).Done? { DropOwn(t, level, IdItems(ids, checked), Idents, name); }
    if Run(DropScope, t, level, ElementItems(es)).Done? { DropOwn(t, level, ElementItems(es), Idents, name); }
    LocalsOwn(ls, level, name);
    FieldsOwn(ids, checked, level, name);
    ElementsOwn(es, level, name);
  }
}
