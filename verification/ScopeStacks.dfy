/** The declarations that symtable.c keeps for each name, and what entering scopes, declaring
    names and leaving scopes does to them. */
module ScopeStacks {
  import opened Tokens

  /** A declaration: in C the links through next_in_scope make a stack of these. */
  datatype Symbol =
    | KeywordSymbol(name: string, scopeLevel: int, klass: TokenClass)
    | TypeSymbol(name: string, scopeLevel: int, ast: nat)
    | IdentSymbol(name: string, scopeLevel: int, ast: nat)

  /** The three stacks of a table entry, newest declaration first. */
  datatype Stacks = Stacks(kw: seq<Symbol>, types: seq<Symbol>, idents: seq<Symbol>)

  const NOTHING := Stacks([], [], [])

  type Table = map<string, Stacks>

  /** The name spaces that build_symtable.c declares in. */
  datatype Space = Types | Idents

  function StackOf(t: Table, space: Space, name: string): seq<Symbol> {
    if name !in t then [] else if space == Types then t[name].types else t[name].idents
  }

  function KeywordsOf(t: Table, name: string): seq<Symbol> {
    if name !in t then [] else t[name].kw
  }

  /** get_symtable_entry: a name that is looked up gets an entry. */
  function Touch(t: Table, name: string): Table {
    if name in t then t else t[name := NOTHING]
  }

  /** name_is_declared, for one stack. */
  predicate DeclaredIn(stack: seq<Symbol>, level: int) {
    stack != [] && stack[0].scopeLevel >= level
  }

  function NewSymbol(space: Space, name: string, level: int, ast: nat): Symbol {
    if space == Types then TypeSymbol(name, level, ast) else IdentSymbol(name, level, ast)
  }

  /** new_type and new_ident. */
  function Add(t: Table, space: Space, name: string, level: int, ast: nat): Table {
    var was := Touch(t, name)[name];
    var symbol := NewSymbol(space, name, level, ast);
    t[name := if space == Types then was.(types := [symbol] + was.types) else was.(idents := [symbol] + was.idents)]
  }

  /** What leaving a scope does to a stack: as scope_delete_symbol is written, with the
      smallest repair (a declaration of an outer scope stays), and with the whole scope
      removed. */
  datatype Rule = AsWritten | KeepOuter | DropScope

  function DropAbove(stack: seq<Symbol>, level: int): (r: seq<Symbol>)
    ensures |r| <= |stack| && stack[|stack| - |r|..] == r
    ensures r != [] ==> r[0].scopeLevel <= level
    ensures forall i :: 0 <= i < |stack| - |r| ==> stack[i].scopeLevel > level
  {
    if stack != [] && stack[0].scopeLevel > level then DropAbove(stack[1..], level) else stack
  }

  function Pop(rule: Rule, stack: seq<Symbol>, level: int): seq<Symbol> {
    if rule.DropScope? then DropAbove(stack, level - 1)
    else if stack != [] && stack[0].scopeLevel > level - 1 then stack[1..]
    else if rule.KeepOuter? then stack
    else []
  }

  /** The assertion in scope_delete_symbol. */
  predicate PopOk(rule: Rule, stack: seq<Symbol>, level: int) {
    rule.DropScope? || (|stack| > 1 && stack[0].scopeLevel > level - 1 ==> stack[1].scopeLevel <= level)
  }

  predicate PopAllOk(rule: Rule, s: Stacks, level: int) {
    PopOk(rule, s.kw, level) && PopOk(rule, s.types, level) && PopOk(rule, s.idents, level)
  }

  function PopAll(rule: Rule, s: Stacks, level: int): Stacks {
    Stacks(Pop(rule, s.kw, level), Pop(rule, s.types, level), Pop(rule, s.idents, level))
  }

  predicate LeaveOk(rule: Rule, t: Table, level: int) {
    forall n <- t :: PopAllOk(rule, t[n], level)
  }

  /** pop_scope on the whole table. */
  function Leave(rule: Rule, t: Table, level: int): Table {
    map n | n in t :: PopAll(rule, t[n], level)
  }

  /** add_keyword, whose assertion wants a name that is no keyword yet. */
  predicate KeywordOk(t: Table, name: string) {
    Touch(t, name)[name].kw == []
  }

  function AddKeyword(t: Table, name: string, level: int, klass: TokenClass): Table {
    Touch(t, name)[name := Touch(t, name)[name].(kw := [KeywordSymbol(name, level, klass)])]
  }

  function AddKeywords(t: Table, level: int, keywords: seq<(string, TokenClass)>): Table
    decreases |keywords|
  {
    if keywords == [] then t
    else AddKeywords(AddKeyword(t, keywords[0].0, level, keywords[0].1), level, keywords[1..])
  }

  predicate KeywordsOk(t: Table, level: int, keywords: seq<(string, TokenClass)>)
    decreases |keywords|
  {
    keywords != [] ==>
      && KeywordOk(t, keywords[0].0)
      && KeywordsOk(AddKeyword(t, keywords[0].0, level, keywords[0].1), level, keywords[1..])
  }

  lemma {:induction false} KeywordsOkIff(t: Table, level: int, keywords: seq<(string, TokenClass)>)
    ensures KeywordsOk(t, level, keywords)
       <==> (forall i, j :: 0 <= i < j < |keywords| ==> keywords[i].0 != keywords[j].0)
            && forall i :: 0 <= i < |keywords| ==> KeywordOk(t, keywords[i].0)
    decreases |keywords|
  {
    if keywords != [] {
      var t' := AddKeyword(t, keywords[0].0, level, keywords[0].1);
      KeywordsOkIff(t', level, keywords[1..]);
      forall i | 1 <= i < |keywords| ensures KeywordOk(t', keywords[i].0) <==>
        (KeywordOk(t, keywords[i].0) && keywords[i].0 != keywords[0].0) {}
    }
  }

  /** Keywords can be added exactly if none repeats another or one that is there; then each is
      found with its class, and nothing else has changed. */
  lemma {:induction false} KeywordsFound(t: Table, level: int, keywords: seq<(string, TokenClass)>)
    ensures KeywordsOk(t, level, keywords)
       <==> (forall i, j :: 0 <= i < j < |keywords| ==> keywords[i].0 != keywords[j].0)
            && forall i :: 0 <= i < |keywords| ==> KeywordOk(t, keywords[i].0)
    ensures KeywordsOk(t, level, keywords) ==> var t' := AddKeywords(t, level, keywords);
            && (forall i :: 0 <= i < |keywords| ==>
                  keywords[i].0 in t' && t'[keywords[i].0].kw == [KeywordSymbol(keywords[i].0, level, keywords[i].1)])
            && (forall n <- t :: n in t' && t'[n].types == t[n].types && t'[n].idents == t[n].idents
                                 && (t'[n].kw == t[n].kw || t[n].kw == []))
    decreases |keywords|
  {
    KeywordsOkIff(t, level, keywords);
    if keywords != [] {
      KeywordsFound(AddKeyword(t, keywords[0].0, level, keywords[0].1), level, keywords[1..]);
    }
  }

  // ----- runs

  /** What a builder does, in order: it declares names, with or without checking that they are
      new in their scope, opens scopes, or meets something it does not know. */
  datatype Item = Declare(space: Space, name: string, ast: nat, checked: bool) | Scope(body: Items) | Unsupported

  datatype Items = End | Then(head: Item, tail: Items)

  function Cat(a: Items, b: Items): Items {
    if a.End? then b else Then(a.head, Cat(a.tail, b))
  }

  datatype Outcome = Done(table: Table) | Redeclared | AssertFailed

  function RunItem(rule: Rule, t: Table, level: int, item: Item): Outcome
    decreases item
  {
    match item
    case Declare(space, name, ast, checked) =>
      if checked && DeclaredIn(StackOf(t, space, name), level) then Redeclared
      else Done(Add(t, space, name, level, ast))
    case Scope(body) =>
      var r := Run(rule, t, level + 1, body);
      if !r.Done? then r
      else if LeaveOk(rule, r.table, level + 1) then Done(Leave(rule, r.table, level + 1))
      else AssertFailed
    case Unsupported => AssertFailed
  }

  function Run(rule: Rule, t: Table, level: int, items: Items): Outcome
    decreases items
  {
    if items.End? then Done(t)
    else
      var r := RunItem(rule, t, level, items.head);
      if r.Done? then Run(rule, r.table, level, items.tail) else r
  }

  lemma {:induction false} RunCat(rule: Rule, t: Table, level: int, a: Items, b: Items)
    ensures Run(rule, t, level, Cat(a, b))
         == if Run(rule, t, level, a).Done? then Run(rule, Run(rule, t, level, a).table, level, b) else Run(rule, t, level, a)
    decreases a
  {
    if a.Then? {
      var r := RunItem(rule, t, level, a.head);
      if r.Done? { RunCat(rule, r.table, level, a.tail, b); }
    }
  }

  // ----- one name at a time

  datatype KeyOutcome = KeyDone(stack: seq<Symbol>) | KeyRedeclared | KeyAssertFailed

  function KeyItem(rule: Rule, stack: seq<Symbol>, level: int, item: Item, space: Space, name: string): KeyOutcome
    decreases item
  {
    match item
    case Declare(s, n, ast, checked) =>
      if s != space || n != name then KeyDone(stack)
      else if checked && DeclaredIn(stack, level) then KeyRedeclared
      else KeyDone([NewSymbol(space, name, level, ast)] + stack)
    case Scope(body) =>
      var r := KeyRun(rule, stack, level + 1, body, space, name);
      if !r.KeyDone? then r
      else if PopOk(rule, r.stack, level + 1) then KeyDone(Pop(rule, r.stack, level + 1))
      else KeyAssertFailed
    case Unsupported => KeyDone(stack)
  }

  function KeyRun(rule: Rule, stack: seq<Symbol>, level: int, items: Items, space: Space, name: string): KeyOutcome
    decreases items
  {
    if items.End? then KeyDone(stack)
    else
      var r := KeyItem(rule, stack, level, items.head, space, name);
      if r.KeyDone? then KeyRun(rule, r.stack, level, items.tail, space, name) else r
  }

  predicate SupportedItem(item: Item) {
    match item
    case Declare(_, _, _, _) => true
    case Scope(body) => Supported(body)
    case Unsupported => false
  }

  predicate Supported(items: Items) {
    items.Then? ==> SupportedItem(items.head) && Supported(items.tail)
  }

  /** No name is a keyword twice. */
  predicate KeywordsOnce(t: Table) {
    forall n <- t :: |t[n].kw| <= 1
  }

  /** A declaration is found on top of its name's stack, with its scope and node; every other
      stack stays. */
  lemma DeclaredNode(rule: Rule, t: Table, level: int, space: Space, name: string, ast: nat, checked: bool)
    requires RunItem(rule, t, level, Declare(space, name, ast, checked)).Done?
    ensures var t' := RunItem(rule, t, level, Declare(space, name, ast, checked)).table;
            && StackOf(t', space, name)
               == [if space == Types then TypeSymbol(name, level, ast) else IdentSymbol(name, level, ast)] + StackOf(t, space, name)
            && (forall s, n :: s != space || n != name ==> StackOf(t', s, n) == StackOf(t, s, n))
            && forall n :: KeywordsOf(t', n) == KeywordsOf(t, n)
  {
  }

  /** One name's part of a step. */
  lemma {:induction false} ItemProjects(rule: Rule, t: Table, level: int, item: Item, space: Space, name: string)
    requires RunItem(rule, t, level, item).Done?
    ensures var t' := RunItem(rule, t, level, item).table;
            KeyItem(rule, StackOf(t, space, name), level, item, space, name) == KeyDone(StackOf(t', space, name))
    decreases item
  {
    match item
    case Declare(s, n, ast, checked) =>
    case Unsupported =>
    case Scope(body) =>
      RunProjects(rule, t, level + 1, body, space, name);
      var r := Run(rule, t, level + 1, body).table;
      if name in r { assert PopAllOk(rule, r[name], level + 1); }
  }

  /** One name's part of a run. */
  lemma {:induction false} RunProjects(rule: Rule, t: Table, level: int, items: Items, space: Space, name: string)
    requires Run(rule, t, level, items).Done?
    ensures var t' := Run(rule, t, level, items).table;
            KeyRun(rule, StackOf(t, space, name), level, items, space, name) == KeyDone(StackOf(t', space, name))
    decreases items
  {
    if items.Then? {
      ItemProjects(rule, t, level, items.head, space, name);
      RunProjects(rule, RunItem(rule, t, level, items.head).table, level, items.tail, space, name);
    }
  }

  ghost predicate AllKeysDone(rule: Rule, t: Table, level: int, items: Items) {
    forall space, name :: KeyRun(rule, StackOf(t, space, name), level, items, space, name).KeyDone?
  }

  ghost predicate AllKeysItemDone(rule: Rule, t: Table, level: int, item: Item) {
    forall space, name :: KeyItem(rule, StackOf(t, space, name), level, item, space, name).KeyDone?
  }

  lemma {:induction false} ItemSeparates(rule: Rule, t: Table, level: int, item: Item)
    requires KeywordsOnce(t)
    ensures RunItem(rule, t, level, item).Done? <==> SupportedItem(item) && AllKeysItemDone(rule, t, level, item)
    ensures RunItem(rule, t, level, item).Done? ==> KeywordsOnce(RunItem(rule, t, level, item).table)
    decreases item
  {
    if RunItem(rule, t, level, item).Done? {
      forall space, name ensures KeyItem(rule, StackOf(t, space, name), level, item, space, name).KeyDone? {
        ItemProjects(rule, t, level, item, space, name);
      }
    }
    match item
    case Unsupported =>
    case Declare(space, name, ast, checked) =>
      if AllKeysItemDone(rule, t, level, item) {
        assert KeyItem(rule, StackOf(t, space, name), level, item, space, name).KeyDone?;
      }
    case Scope(body) =>
      RunSeparates(rule, t, level + 1, body);
      if SupportedItem(item) && AllKeysItemDone(rule, t, level, item) {
        forall space, name ensures KeyRun(rule, StackOf(t, space, name), level + 1, body, space, name).KeyDone? {
          assert KeyItem(rule, StackOf(t, space, name), level, item, space, name).KeyDone?;
        }
        assert AllKeysDone(rule, t, level + 1, body);
        LeaveAll(rule, t, level, body);
      }
  }

  lemma LeaveAll(rule: Rule, t: Table, level: int, body: Items)
    requires Run(rule, t, level + 1, body).Done? && KeywordsOnce(Run(rule, t, level + 1, body).table)
    requires AllKeysItemDone(rule, t, level, Scope(body))
    ensures LeaveOk(rule, Run(rule, t, level + 1, body).table, level + 1)
  {
    var r := Run(rule, t, level + 1, body).table;
    forall n | n in r ensures PopAllOk(rule, r[n], level + 1) {
      RunProjects(rule, t, level + 1, body, Types, n);
      RunProjects(rule, t, level + 1, body, Idents, n);
      assert KeyItem(rule, StackOf(t, Types, n), level, Scope(body), Types, n).KeyDone?;
      assert KeyItem(rule, StackOf(t, Idents, n), level, Scope(body), Idents, n).KeyDone?;
    }
  }

  /** Names do not influence each other: a run succeeds exactly if it does so for each name
      and name space alone. */
  lemma {:induction false} RunSeparates(rule: Rule, t: Table, level: int, items: Items)
    requires KeywordsOnce(t)
    ensures Run(rule, t, level, items).Done? <==> Supported(items) && AllKeysDone(rule, t, level, items)
    ensures Run(rule, t, level, items).Done? ==> KeywordsOnce(Run(rule, t, level, items).table)
    decreases items
  {
    if items.Then? {
      ItemSeparates(rule, t, level, items.head);
      if RunItem(rule, t, level, items.head).Done? {
        RestSeparates(rule, t, level, items);
        RunSeparates(rule, RunItem(rule, t, level, items.head).table, level, items.tail);
      } else if AllKeysDone(rule, t, level, items) {
        forall space, name ensures KeyItem(rule, StackOf(t, space, name), level, items.head, space, name).KeyDone? {
          assert KeyRun(rule, StackOf(t, space, name), level, items, space, name).KeyDone?;
        }
      }
    }
  }

  lemma RestSeparates(rule: Rule, t: Table, level: int, items: Items)
    requires items.Then? && RunItem(rule, t, level, items.head).Done?
    ensures AllKeysDone(rule, t, level, items)
       <==> AllKeysDone(rule, RunItem(rule, t, level, items.head).table, level, items.tail)
  {
    var t' := RunItem(rule, t, level, items.head).table;
    forall space, name
      ensures KeyRun(rule, StackOf(t, space, name), level, items, space, name)
           == KeyRun(rule, StackOf(t', space, name), level, items.tail, space, name)
    {
      ItemProjects(rule, t, level, items.head, space, name);
    }
  }

  // ----- which failure

  /** A run that fails an assertion fails it for some name alone. */
  lemma {:induction false} RunAborts(rule: Rule, t: Table, level: int, items: Items) returns (space: Space, name: string)
    requires KeywordsOnce(t) && Supported(items) && Run(rule, t, level, items).AssertFailed?
    ensures KeyRun(rule, StackOf(t, space, name), level, items, space, name) == KeyAssertFailed
    decreases items
  {
    var r := RunItem(rule, t, level, items.head);
    if r.Done? {
      ItemSeparates(rule, t, level, items.head);
      space, name := RunAborts(rule, r.table, level, items.tail);
      ItemProjects(rule, t, level, items.head, space, name);
    } else {
      space, name := ItemAborts(rule, t, level, items.head);
    }
  }

  lemma {:induction false} ItemAborts(rule: Rule, t: Table, level: int, item: Item) returns (space: Space, name: string)
    requires KeywordsOnce(t) && SupportedItem(item) && RunItem(rule, t, level, item).AssertFailed?
    ensures KeyItem(rule, StackOf(t, space, name), level, item, space, name) == KeyAssertFailed
    decreases item
  {
    var r := Run(rule, t, level + 1, item.body);
    if r.Done? {
      RunSeparates(rule, t, level + 1, item.body);
      name :| name in r.table && !PopAllOk(rule, r.table[name], level + 1);
      space := if PopOk(rule, r.table[name].types, level + 1) then Idents else Types;
      RunProjects(rule, t, level + 1, item.body, space, name);
    } else {
      space, name := RunAborts(rule, t, level + 1, item.body);
    }
  }

  /** A run that finds a name redeclared finds it so for that name alone. */
  lemma {:induction false} RunRedeclares(rule: Rule, t: Table, level: int, items: Items)
    returns (space: Space, name: string)
    requires Run(rule, t, level, items).Redeclared?
    ensures KeyRun(rule, StackOf(t, space, name), level, items, space, name) == KeyRedeclared
    decreases items
  {
    var r := RunItem(rule, t, level, items.head);
    if r.Done? {
      space, name := RunRedeclares(rule, r.table, level, items.tail);
      ItemProjects(rule, t, level, items.head, space, name);
    } else if items.head.Scope? {
      space, name := RunRedeclares(rule, t, level + 1, items.head.body);
    } else {
      space, name := items.head.space, items.head.name;
    }
  }

  /** What comes before the first item that is not supported. */
  function Cut(items: Items): Items
    decreases items
  {
    if items.End? then End
    else match items.head
      case Unsupported => End
      case Declare(_, _, _, _) => Then(items.head, Cut(items.tail))
      case Scope(body) => if Supported(body) then Then(items.head, Cut(items.tail)) else Then(Scope(Cut(body)), End)
  }

  lemma {:induction false} CutSupported(items: Items)
    ensures Supported(Cut(items)) && (Supported(items) ==> Cut(items) == items)
    decreases items
  {
    if items.Then? {
      if items.head.Scope? {
        CutSupported(items.head.body);
        var cut := Then(Scope(Cut(items.head.body)), End);
        assert SupportedItem(cut.head) && Supported(cut.tail);
        assert Supported(cut);
      }
      CutSupported(items.tail);
      assert SupportedItem(items.head) ==> Cut(items) == Then(items.head, Cut(items.tail));
    }
  }

  /** An unsupported item is met unless a name is redeclared before. */
  lemma {:induction false} RunCut(rule: Rule, t: Table, level: int, items: Items)
    ensures Run(rule, t, level, items).Redeclared? <==> Run(rule, t, level, Cut(items)).Redeclared?
    ensures Run(rule, t, level, items).Done? ==> Supported(items)
    decreases items
  {
    if items.Then? {
      var item := items.head;
      if item.Scope? {
        RunCut(rule, t, level + 1, item.body);
        var cut := Then(Scope(Cut(item.body)), End);
        assert Run(rule, t, level, cut).Redeclared? <==> RunItem(rule, t, level, cut.head).Redeclared?;
      }
      var r := RunItem(rule, t, level, item);
      if r.Done? { RunCut(rule, r.table, level, items.tail); }
    }
  }
}
