/** The walkers of build_symtable.c, which fill the symbol table from the syntax tree. */
module BuildSymtable {
  import opened ScopeStacks
  import opened SymbolTable
  import opened Wrappers

  // ----- the parts of the syntax tree that the walkers look at

  /** A declared name and the declaring node. */
  datatype Id = Id(name: string, ast: nat)

  /** A statement or declaration in a control or block. */
  datatype Local =
    | Named(id: Id)            // instantiation, action, variable, table
    | Block(stmts: Locals)     // block statement
    | Ignored                  // method call, assignment, if, switch, direct application
    | OtherLocal

  datatype Locals = NoLocals | Locals(first: Local, rest: Locals)

  datatype Element = NamedElement(id: Id) | OtherElement

  datatype Decl =
    | Control(id: Id, locals: Option<Locals>, apply: Option<Locals>)
    | Extern(id: Id, methods: Option<seq<Id>>)
    | Struct(id: Id, fields: Option<seq<Id>>)     // struct or header
    | Package(id: Id)
    | Parser(id: Id, elements: Option<seq<Element>>)
    | Instantiation(id: Id)
    | TypeDecl(id: Id, isTypedef: bool)
    | FunctionProto(id: Id)
    | Const(id: Id)
    | OtherDecl

  // ----- what a program declares

  function NewType(id: Id): Item {
    Declare(Types, id.name, id.ast, true)
  }

  function NewIdent(id: Id): Item {
    Declare(Idents, id.name, id.ast, true)
  }

  function LocalItems(ls: Locals): Items {
    if ls.NoLocals? then End
    else match ls.first
      case Named(id) => Then(NewIdent(id), LocalItems(ls.rest))
      case Block(stmts) => Then(Scope(LocalItems(stmts)), LocalItems(ls.rest))
      case Ignored => LocalItems(ls.rest)
      case OtherLocal => Then(Unsupported, LocalItems(ls.rest))
  }

  /** Struct fields are checked, method prototypes are not. */
  function IdItems(ids: seq<Id>, checked: bool): Items {
    if ids == [] then End else Then(Declare(Idents, ids[0].name, ids[0].ast, checked), IdItems(ids[1..], checked))
  }

  function ElementItems(es: seq<Element>): Items {
    if es == [] then End
    else Then(if es[0].NamedElement? then NewIdent(es[0].id) else Unsupported, ElementItems(es[1..]))
  }

  /** The scopes inside a control. */
  function ControlItems(locals: Option<Locals>, apply: Option<Locals>): Items {
    var tail := if apply.Some? then Then(Scope(LocalItems(apply.value)), End) else End;
    if locals.Some? then Then(Scope(LocalItems(locals.value)), tail) else tail
  }

  function ParserItems(elements: Option<seq<Element>>): Items {
    if elements.Some? then Then(Scope(ElementItems(elements.value)), End) else End
  }

  function DeclItems(d: Decl): Items {
    match d
    case Control(id, locals, apply) => Then(NewType(id), Then(Scope(ControlItems(locals, apply)), End))
    case Extern(id, methods) =>
      Then(NewType(id), if methods.Some? then Then(Scope(IdItems(methods.value, false)), End) else End)
    case Struct(id, fields) =>
      Then(NewType(id), if fields.Some? then Then(Scope(IdItems(fields.value, true)), End) else End)
    case Package(id) => Then(NewType(id), End)
    case Parser(id, elements) =>
      Then(NewType(id),
           Then(Scope(ParserItems(elements)), End))
    case Instantiation(id) => Then(NewIdent(id), End)
    case TypeDecl(id, isTypedef) => if isTypedef then Then(NewType(id), End) else End
    case FunctionProto(id) => Then(Declare(Idents, id.name, id.ast, false), End)
    case Const(id) => Then(NewIdent(id), End)
    case OtherDecl => End
  }

  function ProgramItems(ds: seq<Decl>): Items {
    if ds == [] then End else Cat(DeclItems(ds[0]), ProgramItems(ds[1..]))
  }

  /** The number of declarations: as many names may need a table entry. */
  function Size(items: Items): nat {
    if items.End? then 0 else ItemSize(items.head) + Size(items.tail)
  }

  function ItemSize(item: Item): nat {
    match item
    case Declare(_, _, _, _) => 1
    case Scope(body) => Size(body)
    case Unsupported => 0
  }

  lemma {:induction false} SizeCat(a: Items, b: Items)
    ensures Size(Cat(a, b)) == Size(a) + Size(b)
  {
    if a.Then? { SizeCat(a.tail, b); }
  }

  /** The first step of a run, with the room it takes. */
  lemma Step(t: Table, level: int, item: Item, rest: Items)
    ensures Run(AsWritten, t, level, Then(item, rest))
         == if RunItem(AsWritten, t, level, item).Done?
            then Run(AsWritten, RunItem(AsWritten, t, level, item).table, level, rest)
            else RunItem(AsWritten, t, level, item)
    ensures Size(Then(item, rest)) == ItemSize(item) + Size(rest)
    ensures Run(AsWritten, t, level, End) == Done(t) && Size(End) == 0
  {
  }

  // ----- the walkers

  /** How a walk ends; the last two end the program. */
  datatype Ending = Ok | NameRedeclared | Aborted

  ghost predicate Ends(r: Ending, o: Outcome) {
    r.Ok? == o.Done? && r.NameRedeclared? == o.Redeclared?
  }

  /** The walk `r` did to the table what the run `o` says. */
  twostate predicate Walked(t: Symtable, r: Ending, o: Outcome, size: nat)
    reads t, t.entries
  {
    && Ends(r, o)
    && (r.Ok? ==> t.Valid() && t.contents == o.table && t.scopeLevel == old(t.scopeLevel))
    && (r.Ok? ==> t.entryCount <= old(t.entryCount) + size)
    && (r.Ok? ==> old(t.entries) <= t.entries && fresh(t.entries - old(t.entries)))
  }

  ghost predicate Ready(t: Symtable, size: nat)
    reads t, t.entries
  {
    t.Valid() && t.scopeLevel >= 0 && t.entryCount + size <= Limit()
  }

  /** A declaration, with or without the check. */
  method DeclareName(t: Symtable, space: Space, id: Id, checked: bool) returns (r: Ending)
    requires Ready(t, 1)
    modifies t, t.entries
    ensures Walked(t, r, RunItem(AsWritten, old(t.contents), old(t.scopeLevel), Declare(space, id.name, id.ast, checked)), 1)
  {
    hide Symtable.Valid;
    TouchIsQuiet(t.contents, space, id, t.scopeLevel);
    if checked {
      var declared := t.NameIsDeclared(id.name, Some(space));
      if declared {
        return NameRedeclared;
      }
    }
    if space == Types {
      t.NewType(id.name, id.ast);
    } else {
      t.NewIdent(id.name, id.ast);
    }
    return Ok;
  }

  lemma TouchIsQuiet(t: Table, space: Space, id: Id, level: int)
    ensures StackOf(Touch(t, id.name), space, id.name) == StackOf(t, space, id.name)
    ensures Add(Touch(t, id.name), space, id.name, level, id.ast) == Add(t, space, id.name, level, id.ast)
  {
  }

  /** A declaration list that is walked in a scope of its own, or a statement block. */
  method WalkLocals(t: Symtable, locals: Locals) returns (r: Ending)
    requires Ready(t, Size(LocalItems(locals)))
    modifies t, t.entries
    ensures Walked(t, r, RunItem(AsWritten, old(t.contents), old(t.scopeLevel), Scope(LocalItems(locals))),
                   Size(LocalItems(locals)))
    decreases locals, 1
  {
    hide Symtable.Valid;
    hide Leave;
    hide LeaveOk;
    var level := t.PushScope();
    r := WalkLocalList(t, locals);
    if r.Ok? {
      r := LeaveScope(t);
    }
  }

  /** pop_scope at the end of a walk. */
  method LeaveScope(t: Symtable) returns (r: Ending)
    requires t.Valid() && t.scopeLevel > 0
    modifies t, t.entries
    ensures r == if LeaveOk(AsWritten, old(t.contents), old(t.scopeLevel)) then Ok else Aborted
    ensures r.Ok? ==> t.Valid() && t.scopeLevel == old(t.scopeLevel) - 1
                      && t.contents == Leave(AsWritten, old(t.contents), old(t.scopeLevel))
    ensures t.entryCount == old(t.entryCount) && t.entries == old(t.entries)
  {
    hide Symtable.Valid;
    hide Leave;
    hide LeaveOk;
    var ok := t.PopScope();
    r := if ok then Ok else Aborted;
  }

  /** build_symtable_local_control_declaration over a list. */
  method WalkLocalList(t: Symtable, locals: Locals) returns (r: Ending)
    requires Ready(t, Size(LocalItems(locals)))
    modifies t, t.entries
    ensures Walked(t, r, Run(AsWritten, old(t.contents), old(t.scopeLevel), LocalItems(locals)), Size(LocalItems(locals)))
    decreases locals, 0
  {
    hide Symtable.Valid;
    hide Leave;
    hide LeaveOk;
    ghost var done := Run(AsWritten, t.contents, t.scopeLevel, LocalItems(locals));
    var link := locals;
    while link.Locals?
      invariant t.Valid() && t.scopeLevel == old(t.scopeLevel)
      invariant t.entryCount + Size(LocalItems(link)) <= old(t.entryCount) + Size(LocalItems(locals))
      invariant old(t.entries) <= t.entries && fresh(t.entries - old(t.entries))
      invariant Run(AsWritten, t.contents, t.scopeLevel, LocalItems(link)) == done
      invariant link == locals || link < locals
      decreases link
    {
      match link.first {
        case Named(id) => r := DeclareName(t, Idents, id, true);
        case Block(stmts) => r := WalkLocals(t, stmts);
        case Ignored => r := Ok;
        case OtherLocal => r := Aborted;
      }
      if !r.Ok? {
        return;
      }
      link := link.rest;
    }
    return Ok;
  }

  lemma IdsStep(t: Table, level: int, ids: seq<Id>, i: nat, checked: bool)
    requires i < |ids|
    ensures Size(IdItems(ids[i..], checked)) == 1 + Size(IdItems(ids[i + 1..], checked))
    ensures var r := RunItem(AsWritten, t, level, Declare(Idents, ids[i].name, ids[i].ast, checked));
            var next := if r.Done? then Run(AsWritten, r.table, level, IdItems(ids[i + 1..], checked)) else r;
            Run(AsWritten, t, level, IdItems(ids[i..], checked)) == next
  {
    hide RunItem;
    assert ids[i..][0] == ids[i] && ids[i..][1..] == ids[i + 1..];
  }

  lemma IdsEnd(t: Table, level: int, ids: seq<Id>, checked: bool)
    ensures Size(IdItems(ids[|ids|..], checked)) == 0 && Run(AsWritten, t, level, IdItems(ids[|ids|..], checked)) == Done(t)
  {
  }

  /** build_symtable_struct_fields and build_symtable_extern_method_protos. */
  method WalkIds(t: Symtable, ids: seq<Id>, checked: bool) returns (r: Ending)
    requires Ready(t, Size(IdItems(ids, checked)))
    modifies t, t.entries
    ensures Walked(t, r, RunItem(AsWritten, old(t.contents), old(t.scopeLevel), Scope(IdItems(ids, checked))),
                   Size(IdItems(ids, checked)))
  {
    hide Symtable.Valid;
    hide Leave;
    hide LeaveOk;
    hide Run; hide Size; hide IdItems;
    var level := t.PushScope();
    ghost var done := Run(AsWritten, t.contents, t.scopeLevel, IdItems(ids, checked));
    var i := 0;
    assert ids[0..] == ids;
    while i < |ids|
      invariant i <= |ids| && t.Valid() && t.scopeLevel == level
      invariant t.entryCount + Size(IdItems(ids[i..], checked)) <= old(t.entryCount) + Size(IdItems(ids, checked))
      invariant old(t.entries) <= t.entries && fresh(t.entries - old(t.entries))
      invariant Run(AsWritten, t.contents, level, IdItems(ids[i..], checked)) == done
    {
      IdsStep(t.contents, level, ids, i, checked);
      r := DeclareName(t, Idents, ids[i], checked);
      if !r.Ok? {
        return;
      }
      i := i + 1;
    }
    IdsEnd(t.contents, level, ids, checked);
    r := LeaveScope(t);
  }

  /** build_symtable_local_parser_elements */
  method WalkElements(t: Symtable, es: seq<Element>) returns (r: Ending)
    requires Ready(t, Size(ElementItems(es)))
    modifies t, t.entries
    ensures Walked(t, r, RunItem(AsWritten, old(t.contents), old(t.scopeLevel), Scope(ElementItems(es))),
                   Size(ElementItems(es)))
  {
    hide Symtable.Valid;
    hide Leave;
    hide LeaveOk;
    var level := t.PushScope();
    ghost var done := Run(AsWritten, t.contents, t.scopeLevel, ElementItems(es));
    var i := 0;
    assert es[0..] == es;
    while i < |es|
      invariant i <= |es| && t.Valid() && t.scopeLevel == level
      invariant t.entryCount + Size(ElementItems(es[i..])) <= old(t.entryCount) + Size(ElementItems(es))
      invariant old(t.entries) <= t.entries && fresh(t.entries - old(t.entries))
      invariant Run(AsWritten, t.contents, level, ElementItems(es[i..])) == done
    {
      assert es[i..][0] == es[i] && es[i..][1..] == es[i + 1..];
      if es[i].OtherElement? {
        return Aborted;
      }
      r := DeclareName(t, Idents, es[i].id, true);
      if !r.Ok? {
        return;
      }
      i := i + 1;
    }
    r := LeaveScope(t);
  }

  /** The inner part of build_symtable_control. */
  method WalkControl(t: Symtable, locals: Option<Locals>, apply: Option<Locals>) returns (r: Ending)
    requires Ready(t, Size(ControlItems(locals, apply)))
    modifies t, t.entries
    ensures Walked(t, r, RunItem(AsWritten, old(t.contents), old(t.scopeLevel), Scope(ControlItems(locals, apply))),
                   Size(ControlItems(locals, apply)))
  {
    hide Symtable.Valid;
    hide Leave;
    hide LeaveOk;
    var level := t.PushScope();
    ghost var tail := if apply.Some? then Then(Scope(LocalItems(apply.value)), End) else End;
    r := Ok;
    if locals.Some? {
      Step(t.contents, level, Scope(LocalItems(locals.value)), tail);
      r := WalkLocals(t, locals.value);
    }
    if r.Ok? {
      if apply.Some? {
        Step(t.contents, level, Scope(LocalItems(apply.value)), End);
        r := WalkLocals(t, apply.value);
      }
      if r.Ok? {
        r := LeaveScope(t);
      }
    }
  }

  /** The inner part of build_symtable_parser. */
  method WalkParser(t: Symtable, elements: Option<seq<Element>>) returns (r: Ending)
    requires Ready(t, Size(ParserItems(elements)))
    modifies t, t.entries
    ensures Walked(t, r, RunItem(AsWritten, old(t.contents), old(t.scopeLevel), Scope(ParserItems(elements))),
                   Size(ParserItems(elements)))
  {
    hide Symtable.Valid;
    hide Leave;
    hide LeaveOk;
    var level := t.PushScope();
    r := Ok;
    if elements.Some? {
      Step(t.contents, level, Scope(ElementItems(elements.value)), End);
      r := WalkElements(t, elements.value);
    }
    if r.Ok? {
      r := LeaveScope(t);
    }
  }

  /** The dispatch in build_symtable_program. */
  method WalkDecl(t: Symtable, d: Decl) returns (r: Ending)
    requires Ready(t, Size(DeclItems(d)))
    modifies t, t.entries
    ensures Walked(t, r, Run(AsWritten, old(t.contents), old(t.scopeLevel), DeclItems(d)), Size(DeclItems(d)))
  {
    hide Symtable.Valid; hide Limit; hide Size;
    ghost var items := DeclItems(d);
    if items.Then? {
      Step(t.contents, t.scopeLevel, items.head, items.tail);
    }
    if d.OtherDecl? || (d.TypeDecl? && !d.isTypedef) {
      return Ok;
    }
    var space := if d.Instantiation? || d.FunctionProto? || d.Const? then Idents else Types;
    r := DeclareName(t, space, d.id, !d.FunctionProto?);
    if !r.Ok? {
      return;
    }
    if items.tail.Then? {
      Step(t.contents, t.scopeLevel, items.tail.head, End);
    }
    match d {
      case Control(_, locals, apply) => r := WalkControl(t, locals, apply);
      case Parser(_, elements) => r := WalkParser(t, elements);
      case Extern(_, methods) =>
        if methods.Some? {
          r := WalkIds(t, methods.value, false);
        }
      case Struct(_, fields) =>
        if fields.Some? {
          r := WalkIds(t, fields.value, true);
        }
      case _ =>
    }
  }

  /** build_symtable_program: on success the scope level is what it was. */
  method WalkProgram(t: Symtable, ds: seq<Decl>) returns (r: Ending)
    requires Ready(t, Size(ProgramItems(ds)))
    modifies t, t.entries
    ensures Walked(t, r, RunItem(AsWritten, old(t.contents), old(t.scopeLevel), Scope(ProgramItems(ds))),
                   Size(ProgramItems(ds)))
  {
    hide Symtable.Valid;
    hide Leave;
    hide LeaveOk;
    hide DeclItems;
    var level := t.PushScope();
    ghost var done := Run(AsWritten, t.contents, t.scopeLevel, ProgramItems(ds));
    var i := 0;
    assert ds[0..] == ds;
    while i < |ds|
      invariant i <= |ds| && t.Valid() && t.scopeLevel == level
      invariant t.entryCount + Size(ProgramItems(ds[i..])) <= old(t.entryCount) + Size(ProgramItems(ds))
      invariant old(t.entries) <= t.entries && fresh(t.entries - old(t.entries))
      invariant Run(AsWritten, t.contents, level, ProgramItems(ds[i..])) == done
    {
      assert ds[i..][0] == ds[i] && ds[i..][1..] == ds[i + 1..];
      RunCat(AsWritten, t.contents, level, DeclItems(ds[i]), ProgramItems(ds[i + 1..]));
      SizeCat(DeclItems(ds[i]), ProgramItems(ds[i + 1..]));
      r := WalkDecl(t, ds[i]);
      if !r.Ok? {
        return;
      }
      i := i + 1;
    }
    r := LeaveScope(t);
  }
}
