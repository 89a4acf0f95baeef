/** What scopes promise under the three rules of ScopeStacks, for every nesting of scopes. */
module ScopeRules {
  import opened ScopeStacks

  /** No symbol is of a deeper scope than `level`. */
  ghost predicate AtMost(stack: seq<Symbol>, level: int) {
    forall i :: 0 <= i < |stack| ==> stack[i].scopeLevel <= level
  }

  predicate IsKey(item: Item, space: Space, name: string) {
    item.Declare? && item.space == space && item.name == name
  }

  /** The declarations of a name that a scope makes itself, newest first. */
  function Own(items: Items, level: int, space: Space, name: string): (r: seq<Symbol>)
    ensures forall i :: 0 <= i < |r| ==> r[i].scopeLevel == level
    decreases items
  {
    if items.End? then []
    else if IsKey(items.head, space, name) then
      Own(items.tail, level, space, name) + [NewSymbol(space, name, level, items.head.ast)]
    else Own(items.tail, level, space, name)
  }

  /** No checked declaration repeats a name of its own scope, at any depth; `seen` says whether
      the outermost scope has the name already. */
  predicate NoClash(items: Items, space: Space, name: string, seen: bool)
    decreases items
  {
    if items.End? then true
    else if IsKey(items.head, space, name) then
      !(items.head.checked && seen) && NoClash(items.tail, space, name, true)
    else
      (items.head.Scope? ==> NoClash(items.head.body, space, name, false)) && NoClash(items.tail, space, name, seen)
  }

  // ----- the whole scope removed

  lemma {:induction false} OwnDropped(own: seq<Symbol>, stack: seq<Symbol>, level: int)
    requires AtMost(stack, level) && forall i :: 0 <= i < |own| ==> own[i].scopeLevel > level
    ensures DropAbove(own + stack, level) == stack
  {
    if own == [] {
      assert own + stack == stack;
    } else {
      assert (own + stack)[1..] == own[1..] + stack;
      OwnDropped(own[1..], stack, level);
    }
  }

  /** A run succeeds for a name exactly if nothing clashes, and then the scope's own
      declarations have been added; a scope that is left changes nothing. */
  lemma {:induction false} DropRun(stack: seq<Symbol>, level: int, items: Items, space: Space, name: string)
    requires AtMost(stack, level)
    ensures KeyRun(DropScope, stack, level, items, space, name)
         == if NoClash(items, space, name, DeclaredIn(stack, level)) then KeyDone(Own(items, level, space, name) + stack)
            else KeyRedeclared
    decreases items
  {
    if items.Then? {
      var item := items.head;
      if IsKey(item, space, name) {
        var symbol := NewSymbol(space, name, level, item.ast);
        DropRun([symbol] + stack, level, items.tail, space, name);
        assert Own(items.tail, level, space, name) + ([symbol] + stack) == Own(items, level, space, name) + stack;
      } else {
        DropItem(stack, level, item, space, name);
        DropRun(stack, level, items.tail, space, name);
      }
    }
  }

  /** An item that does not declare the name, a scope in particular, changes nothing. */
  lemma {:induction false} DropItem(stack: seq<Symbol>, level: int, item: Item, space: Space, name: string)
    requires AtMost(stack, level) && !IsKey(item, space, name)
    ensures KeyItem(DropScope, stack, level, item, space, name)
         == if item.Scope? && !NoClash(item.body, space, name, false) then KeyRedeclared else KeyDone(stack)
    decreases item
  {
    if item.Scope? {
      DropRun(stack, level + 1, item.body, space, name);
      if NoClash(item.body, space, name, false) { OwnDropped(Own(item.body, level + 1, space, name), stack, level); }
    }
  }

  ghost predicate TableAtMost(t: Table, level: int) {
    forall n <- t :: AtMost(t[n].kw, level) && AtMost(t[n].types, level) && AtMost(t[n].idents, level)
  }

  /** build_symtable succeeds exactly if no checked declaration repeats a name already declared
      in the same name space and scope. */
  lemma DropSucceedsIff(t: Table, level: int, items: Items)
    requires KeywordsOnce(t) && TableAtMost(t, level)
    ensures Run(DropScope, t, level, items).Done?
       <==> (Supported(items)
             && forall space, name :: NoClash(items, space, name, DeclaredIn(StackOf(t, space, name), level)))
  {
    RunSeparates(DropScope, t, level, items);
    forall space, name
      ensures KeyRun(DropScope, StackOf(t, space, name), level, items, space, name).KeyDone?
         <==> NoClash(items, space, name, DeclaredIn(StackOf(t, space, name), level))
    {
      DropRun(StackOf(t, space, name), level, items, space, name);
    }
  }

  /** Leaving a scope restores every name's declarations to what they were at its start. */
  lemma DropRestores(t: Table, level: int, body: Items, space: Space, name: string)
    requires TableAtMost(t, level) && RunItem(DropScope, t, level, Scope(body)).Done?
    ensures StackOf(RunItem(DropScope, t, level, Scope(body)).table, space, name) == StackOf(t, space, name)
  {
    ItemProjects(DropScope, t, level, Scope(body), space, name);
    DropItem(StackOf(t, space, name), level, Scope(body), space, name);
  }

  /** name_is_declared holds exactly for the names that the current scope has declared. */
  lemma DropDeclared(t: Table, level: int, items: Items, space: Space, name: string)
    requires TableAtMost(t, level) && !DeclaredIn(StackOf(t, space, name), level)
    requires Run(DropScope, t, level, items).Done?
    ensures DeclaredIn(StackOf(Run(DropScope, t, level, items).table, space, name), level)
       <==> Own(items, level, space, name) != []
  {
    hide NoClash; hide Own; hide Run; hide KeyRun;
    RunProjects(DropScope, t, level, items, space, name);
    var stack := StackOf(t, space, name);
    DropRun(stack, level, items, space, name);
    var own := Own(items, level, space, name);
    assert StackOf(Run(DropScope, t, level, items).table, space, name) == own + stack;
    if own == [] { assert own + stack == stack; } else { assert (own + stack)[0] == own[0]; }
  }

  // ----- the smallest repair

  /** Every inner scope declares the name at most once. */
  predicate InnerOnce(items: Items, space: Space, name: string)
    decreases items
  {
    items.Then? ==>
      && (items.head.Scope? ==>
            |Own(items.head.body, 0, space, name)| <= 1 && InnerOnce(items.head.body, space, name))
      && InnerOnce(items.tail, space, name)
  }

  lemma {:induction false} OwnCount(items: Items, j: int, k: int, space: Space, name: string)
    ensures |Own(items, j, space, name)| == |Own(items, k, space, name)|
    decreases items
  {
    if items.Then? { OwnCount(items.tail, j, k, space, name); }
  }

  /** Keeping the head of an outer scope is as good as removing the whole scope, as long as no
      inner scope declares a name twice. */
  lemma {:induction false} KeepAgrees(stack: seq<Symbol>, level: int, items: Items, space: Space, name: string)
    requires AtMost(stack, level) && InnerOnce(items, space, name)
    ensures KeyRun(KeepOuter, stack, level, items, space, name) == KeyRun(DropScope, stack, level, items, space, name)
    decreases items, 0
  {
    if items.Then? {
      var item := items.head;
      if IsKey(item, space, name) {
        KeepAgrees([NewSymbol(space, name, level, item.ast)] + stack, level, items.tail, space, name);
      } else {
        if item.Scope? { KeepScope(stack, level, item.body, space, name); }
        DropItem(stack, level, item, space, name);
        KeepAgrees(stack, level, items.tail, space, name);
      }
    }
  }

  lemma {:induction false} KeepScope(stack: seq<Symbol>, level: int, body: Items, space: Space, name: string)
    requires AtMost(stack, level) && InnerOnce(body, space, name) && |Own(body, 0, space, name)| <= 1
    ensures KeyItem(KeepOuter, stack, level, Scope(body), space, name)
         == KeyItem(DropScope, stack, level, Scope(body), space, name)
    decreases body, 1
  {
    KeepAgrees(stack, level + 1, body, space, name);
    DropRun(stack, level + 1, body, space, name);
    KeepPops(stack, level, body, space, name);
    DropItem(stack, level, Scope(body), space, name);
  }

  /** What the repaired pop leaves of a scope's declarations: all but the newest one. */
  lemma KeepPops(stack: seq<Symbol>, level: int, body: Items, space: Space, name: string)
    requires AtMost(stack, level)
    ensures var own := Own(body, level + 1, space, name);
            && PopOk(KeepOuter, own + stack, level + 1)
            && Pop(KeepOuter, own + stack, level + 1) == (if own == [] then stack else own[1..] + stack)
            && (Pop(KeepOuter, own + stack, level + 1) == stack <==> |Own(body, 0, space, name)| <= 1)
  {
    OwnCount(body, level + 1, 0, space, name);
    var own := Own(body, level + 1, space, name);
    if own == [] {
      assert own + stack == stack;
    } else {
      assert (own + stack)[1..] == own[1..] + stack;
    }
  }

  // ----- what the scopes of a program look like

  /** The name is only declared by declarations that check. */
  predicate AllChecked(items: Items, space: Space, name: string)
    decreases items
  {
    items.Then? ==>
      && (IsKey(items.head, space, name) ==> items.head.checked)
      && (items.head.Scope? ==> AllChecked(items.head.body, space, name))
      && AllChecked(items.tail, space, name)
  }

  /** Prototypes: declarations that do not check, and no inner scopes. */
  predicate Prototypes(items: Items, space: Space, name: string) {
    items.Then? ==>
      && !items.head.Scope? && (IsKey(items.head, space, name) ==> !items.head.checked)
      && Prototypes(items.tail, space, name)
  }

  /** Declarations of any kind, with scopes that only check or only hold prototypes. */
  predicate Regular(items: Items, space: Space, name: string) {
    items.Then? ==>
      && (items.head.Scope? ==> AllChecked(items.head.body, space, name) || Prototypes(items.head.body, space, name))
      && Regular(items.tail, space, name)
  }

  /** Every scope in there, at any depth, declares the name itself. */
  predicate NestedAll(items: Items, space: Space, name: string)
    decreases items, 0
  {
    items.Then? ==>
      && (items.head.Scope? ==> Throughout(items.head.body, space, name))
      && NestedAll(items.tail, space, name)
  }

  /** The scope declares the name, and so does every scope nested in it. */
  predicate Throughout(body: Items, space: Space, name: string)
    decreases body, 1
  {
    Own(body, 0, space, name) != [] && NestedAll(body, space, name)
  }

  /** A checked declaration of the name, and before it only scopes that declare it throughout. */
  predicate Again(items: Items, space: Space, name: string) {
    items.Then? &&
    ((IsKey(items.head, space, name) && items.head.checked)
     || ((items.head.Scope? ==> Throughout(items.head.body, space, name)) && Again(items.tail, space, name)))
  }

  /** Two declarations of the name in one scope, the second one checked, and between them only
      scopes that declare it throughout. */
  predicate TwoDirect(items: Items, space: Space, name: string)
    decreases items
  {
    items.Then? &&
    ((IsKey(items.head, space, name) && Again(items.tail, space, name))
     || (items.head.Scope? && TwoDirect(items.head.body, space, name))
     || TwoDirect(items.tail, space, name))
  }

  lemma {:induction false} DirectAgain(items: Items, space: Space, name: string)
    requires AllChecked(items, space, name) && NestedAll(items, space, name)
    ensures Own(items, 0, space, name) != [] ==> Again(items, space, name)
    ensures |Own(items, 0, space, name)| > 1 ==> TwoDirect(items, space, name)
    decreases items
  {
    if items.Then? { DirectAgain(items.tail, space, name); }
  }

  // ----- scopes that only check

  predicate HeadAtMost(stack: seq<Symbol>, level: int) {
    stack != [] ==> stack[0].scopeLevel <= level
  }

  /** A scope that added one declaration at most. */
  lemma OnePops(rule: Rule, own: seq<Symbol>, stack: seq<Symbol>, level: int)
    requires !rule.DropScope? && |own| <= 1 && HeadAtMost(stack, level)
    requires own != [] ==> own[0].scopeLevel == level + 1
    ensures PopOk(rule, own + stack, level + 1)
    ensures Pop(rule, own + stack, level + 1) == if own == [] && rule.AsWritten? then [] else stack
  {
    if own == [] { assert own + stack == stack; } else { assert (own + stack)[1..] == stack; }
  }

  lemma StalePops(rule: Rule, stack: seq<Symbol>, level: int)
    requires !rule.DropScope? && stack != [] && stack[0].scopeLevel == level + 1 && HeadAtMost(stack[1..], level + 1)
    ensures PopOk(rule, stack, level + 1) && Pop(rule, stack, level + 1) == stack[1..]
  {
    if |stack| > 1 { assert stack[1..][0] == stack[1]; }
  }

  /** What a run as written over checked declarations leaves, exactly when it does. */
  ghost predicate CheckedEnd(k: KeyOutcome, stack: seq<Symbol>, level: int, items: Items, space: Space, name: string) {
    if TwoDirect(items, space, name) || (DeclaredIn(stack, level) && Again(items, space, name)) then k == KeyRedeclared
    else if NestedAll(items, space, name) then k == KeyDone(Own(items, level, space, name) + stack)
    else k.KeyDone? && |k.stack| <= 1 && (k.stack != [] ==> k.stack[0].scopeLevel == level)
  }

  lemma {:induction false} CheckedRun(stack: seq<Symbol>, level: int, items: Items, space: Space, name: string)
    requires AllChecked(items, space, name) && HeadAtMost(stack, level)
    ensures CheckedEnd(KeyRun(AsWritten, stack, level, items, space, name), stack, level, items, space, name)
    decreases items, 0
  {
    if items.Then? {
      var item := items.head;
      if IsKey(item, space, name) {
        if !DeclaredIn(stack, level) { CheckedDeclare(stack, level, items, space, name); }
      } else if item.Scope? {
        CheckedScope(stack, level, item.body, space, name);
        var left := if Throughout(item.body, space, name) then stack else [];
        CheckedRun(left, level, items.tail, space, name);
        CheckedBehind(stack, level, items, space, name);
      } else {
        CheckedRun(stack, level, items.tail, space, name);
      }
    }
  }

  lemma CheckedBehind(stack: seq<Symbol>, level: int, items: Items, space: Space, name: string)
    requires items.Then? && items.head.Scope? && AllChecked(items.tail, space, name)
    requires var left := if Throughout(items.head.body, space, name) then stack else [];
             KeyItem(AsWritten, stack, level, items.head, space, name)
             == (if TwoDirect(items.head.body, space, name) then KeyRedeclared else KeyDone(left))
             && CheckedEnd(KeyRun(AsWritten, left, level, items.tail, space, name), left, level, items.tail, space, name)
    ensures CheckedEnd(KeyRun(AsWritten, stack, level, items, space, name), stack, level, items, space, name)
  {
    hide Throughout;
    var left := if Throughout(items.head.body, space, name) then stack else [];
    var k := KeyRun(AsWritten, left, level, items.tail, space, name);
    if !TwoDirect(items.head.body, space, name) {
      assert KeyRun(AsWritten, stack, level, items, space, name) == k;
      assert Own(items, level, space, name) == Own(items.tail, level, space, name);
      if k.KeyDone? && left == [] && NestedAll(items.tail, space, name) { CheckedAtMostOne(k, level, items.tail, space, name); }
    }
  }

  lemma CheckedAtMostOne(k: KeyOutcome, level: int, items: Items, space: Space, name: string)
    requires AllChecked(items, space, name) && NestedAll(items, space, name) && !TwoDirect(items, space, name)
    requires k == KeyDone(Own(items, level, space, name) + [])
    ensures |k.stack| <= 1 && (k.stack != [] ==> k.stack[0].scopeLevel == level)
  {
    DirectAgain(items, space, name);
    OwnCount(items, level, 0, space, name);
    assert k.stack == Own(items, level, space, name);
  }

  lemma {:induction false} CheckedDeclare(stack: seq<Symbol>, level: int, items: Items, space: Space, name: string)
    requires AllChecked(items, space, name) && HeadAtMost(stack, level)
    requires items.Then? && IsKey(items.head, space, name) && !DeclaredIn(stack, level)
    ensures CheckedEnd(KeyRun(AsWritten, stack, level, items, space, name), stack, level, items, space, name)
    decreases items.tail, 1
  {
    var s := [NewSymbol(space, name, level, items.head.ast)] + stack;
    CheckedRun(s, level, items.tail, space, name);
    if NestedAll(items.tail, space, name) && !Again(items.tail, space, name) {
      DirectAgain(items.tail, space, name);
      OwnCount(items.tail, level, 0, space, name);
      assert Own(items, level, space, name) == [NewSymbol(space, name, level, items.head.ast)];
    }
  }

  /** A checked scope as written, behind what its surroundings left: it keeps the name exactly
      if it and all scopes nested in it declare it. */
  lemma {:induction false} CheckedScope(stack: seq<Symbol>, level: int, body: Items, space: Space, name: string)
    requires AllChecked(body, space, name) && HeadAtMost(stack, level)
    ensures KeyItem(AsWritten, stack, level, Scope(body), space, name)
         == if TwoDirect(body, space, name) then KeyRedeclared
            else KeyDone(if Throughout(body, space, name) then stack else [])
    decreases body, 1
  {
    hide TwoDirect; hide Again; hide NestedAll; hide AllChecked; hide KeyRun; hide Own; hide Pop; hide PopOk;
    CheckedRun(stack, level + 1, body, space, name);
    OwnCount(body, level + 1, 0, space, name);
    var k := KeyRun(AsWritten, stack, level + 1, body, space, name);
    if k.KeyDone? {
      if NestedAll(body, space, name) {
        DirectAgain(body, space, name);
        OnePops(AsWritten, Own(body, level + 1, space, name), stack, level);
      } else {
        OnePops(AsWritten, k.stack, [], level);
        assert k.stack + [] == k.stack;
      }
    }
  }

  /** The same behind a declaration that an earlier scope of this depth left over: that one
      stands for the scope's own. */
  lemma StaleScope(stack: seq<Symbol>, level: int, body: Items, space: Space, name: string)
    requires AllChecked(body, space, name)
    requires stack != [] && stack[0].scopeLevel == level + 1 && HeadAtMost(stack[1..], level + 1)
    ensures KeyItem(AsWritten, stack, level, Scope(body), space, name)
         == if TwoDirect(body, space, name) || Again(body, space, name) then KeyRedeclared
            else KeyDone(if NestedAll(body, space, name) then stack[1..] else [])
  {
    hide KeyRun; hide TwoDirect; hide Again; hide AllChecked; hide NestedAll; hide Own; hide Pop; hide PopOk;
    CheckedRun(stack, level + 1, body, space, name);
    OwnCount(body, level + 1, 0, space, name);
    var k := KeyRun(AsWritten, stack, level + 1, body, space, name);
    if k.KeyDone? {
      if NestedAll(body, space, name) {
        DirectAgain(body, space, name);
        assert k.stack == stack;
        StalePops(AsWritten, stack, level);
      } else {
        OnePops(AsWritten, k.stack, [], level);
        assert k.stack + [] == k.stack;
      }
    }
  }

  /** With the smallest repair, checked scopes change nothing. */
  lemma {:induction false} KeepChecked(stack: seq<Symbol>, level: int, items: Items, space: Space, name: string)
    requires AllChecked(items, space, name) && HeadAtMost(stack, level)
    ensures KeyRun(KeepOuter, stack, level, items, space, name)
         == if NoClash(items, space, name, DeclaredIn(stack, level)) then KeyDone(Own(items, level, space, name) + stack)
            else KeyRedeclared
    ensures NoClash(items, space, name, DeclaredIn(stack, level)) ==>
              |Own(items, level, space, name)| <= if DeclaredIn(stack, level) then 0 else 1
    decreases items, 0
  {
    if items.Then? {
      var item := items.head;
      if IsKey(item, space, name) {
        var symbol := NewSymbol(space, name, level, item.ast);
        KeepChecked([symbol] + stack, level, items.tail, space, name);
        assert Own(items.tail, level, space, name) + ([symbol] + stack) == Own(items, level, space, name) + stack;
      } else {
        if item.Scope? { KeepCheckedScope(stack, level, item.body, space, name); }
        KeepChecked(stack, level, items.tail, space, name);
      }
    }
  }

  lemma {:induction false} KeepCheckedScope(stack: seq<Symbol>, level: int, body: Items, space: Space, name: string)
    requires AllChecked(body, space, name) && HeadAtMost(stack, level)
    ensures KeyItem(KeepOuter, stack, level, Scope(body), space, name)
         == if NoClash(body, space, name, false) then KeyDone(stack) else KeyRedeclared
    decreases body, 1
  {
    hide KeyRun; hide NoClash; hide AllChecked; hide Own; hide Pop; hide PopOk;
    KeepChecked(stack, level + 1, body, space, name);
    if NoClash(body, space, name, false) { OnePops(KeepOuter, Own(body, level + 1, space, name), stack, level); }
  }

  lemma KeepStale(stack: seq<Symbol>, level: int, body: Items, space: Space, name: string)
    requires AllChecked(body, space, name)
    requires stack != [] && stack[0].scopeLevel == level + 1 && HeadAtMost(stack[1..], level + 1)
    ensures KeyItem(KeepOuter, stack, level, Scope(body), space, name)
         == if NoClash(body, space, name, true) then KeyDone(stack[1..]) else KeyRedeclared
  {
    hide KeyRun; hide NoClash; hide AllChecked; hide Own; hide Pop; hide PopOk;
    KeepChecked(stack, level + 1, body, space, name);
    StalePops(KeepOuter, stack, level);
    if NoClash(body, space, name, true) { assert Own(body, level + 1, space, name) + stack == stack; }
  }

  // ----- scopes of prototypes

  lemma {:induction false} PrototypesRun(rule: Rule, stack: seq<Symbol>, level: int, body: Items, space: Space, name: string)
    requires Prototypes(body, space, name)
    ensures KeyRun(rule, stack, level, body, space, name) == KeyDone(Own(body, level, space, name) + stack)
    decreases body
  {
    if body.Then? {
      if IsKey(body.head, space, name) {
        var symbol := NewSymbol(space, name, level, body.head.ast);
        PrototypesRun(rule, [symbol] + stack, level, body.tail, space, name);
        assert Own(body.tail, level, space, name) + ([symbol] + stack) == Own(body, level, space, name) + stack;
      } else {
        PrototypesRun(rule, stack, level, body.tail, space, name);
      }
    } else {
      assert [] + stack == stack;
    }
  }

  /** All but the newest of a scope's prototypes stay behind. */
  lemma PrototypesStay(rule: Rule, stack: seq<Symbol>, level: int, body: Items, space: Space, name: string)
    requires !rule.DropScope? && Prototypes(body, space, name) && Own(body, 0, space, name) != []
    requires HeadAtMost(stack, level + 1)
    ensures var own := Own(body, level + 1, space, name);
            own != [] && KeyItem(rule, stack, level, Scope(body), space, name) == KeyDone(own[1..] + stack)
  {
    PrototypesRun(rule, stack, level + 1, body, space, name);
    OwnCount(body, level + 1, 0, space, name);
    var own := Own(body, level + 1, space, name);
    assert (own + stack)[1..] == own[1..] + stack;
  }

  // ----- what one scope does to a name

  /** As written, a scope of a program restores a name's declarations exactly if the name had
      none, or the scope and every scope nested in it declare the name; and if it is a scope of
      prototypes, none of them repeats another. */
  lemma WrittenRestoresIff(stack: seq<Symbol>, level: int, body: Items, space: Space, name: string)
    requires AllChecked(body, space, name) || Prototypes(body, space, name)
    requires AtMost(stack, level) && KeyItem(AsWritten, stack, level, Scope(body), space, name).KeyDone?
    ensures KeyItem(AsWritten, stack, level, Scope(body), space, name) == KeyDone(stack)
       <==> (stack == [] || Throughout(body, space, name))
            && (AllChecked(body, space, name) || |Own(body, 0, space, name)| <= 1)
  {
    if AllChecked(body, space, name) {
      CheckedScope(stack, level, body, space, name);
    } else {
      PrototypesDeclare(body, space, name);
      PrototypesStay(AsWritten, stack, level, body, space, name);
      OwnCount(body, level + 1, 0, space, name);
      var own := Own(body, level + 1, space, name);
      if |own| == 1 { assert own[1..] + stack == stack; }
    }
  }

  lemma {:induction false} PrototypesDeclare(body: Items, space: Space, name: string)
    requires Prototypes(body, space, name)
    ensures NestedAll(body, space, name) && !TwoDirect(body, space, name) && !Again(body, space, name)
    ensures Own(body, 0, space, name) != [] <==> !AllChecked(body, space, name)
    decreases body
  {
    if body.Then? { PrototypesDeclare(body.tail, space, name); }
  }

  /** With the smallest repair a scope of a program restores a name exactly if nothing in it
      clashes and it declares the name at most once. */
  lemma KeepRestoresIff(stack: seq<Symbol>, level: int, body: Items, space: Space, name: string)
    requires AllChecked(body, space, name) || Prototypes(body, space, name)
    requires AtMost(stack, level)
    ensures KeyItem(KeepOuter, stack, level, Scope(body), space, name) == KeyDone(stack)
       <==> NoClash(body, space, name, false) && |Own(body, 0, space, name)| <= 1
  {
    OwnCount(body, level + 1, 0, space, name);
    if AllChecked(body, space, name) {
      KeepChecked(stack, level + 1, body, space, name);
      KeepCheckedScope(stack, level, body, space, name);
    } else {
      PrototypesDeclare(body, space, name);
      PrototypesStay(KeepOuter, stack, level, body, space, name);
      PrototypesNeverClash(body, space, name, false);
      var own := Own(body, level + 1, space, name);
      if |own| == 1 { assert own[1..] + stack == stack; }
    }
  }

  lemma {:induction false} PrototypesNeverClash(body: Items, space: Space, name: string, seen: bool)
    requires Prototypes(body, space, name)
    ensures NoClash(body, space, name, seen)
    decreases body
  {
    if body.Then? { PrototypesNeverClash(body.tail, space, name, seen || IsKey(body.head, space, name)); }
  }

  // ----- whole runs

  /** What is left of a name in front of a declaration: how many prototypes of left scopes are
      on top, and whether below them is a declaration of this scope, itself on top of one. */
  datatype Sight = Clash | Sight(stale: nat, own: bool, buried: bool)

  const NOTHING_SEEN := Sight(0, false, false)

  ghost predicate Shows(stack: seq<Symbol>, r: Sight, level: int) {
    && r.Sight? && r.stale <= |stack|
    && (forall i :: 0 <= i < r.stale ==> stack[i].scopeLevel == level + 1)
    && var below := stack[r.stale..];
       && (below != [] ==> below[0].scopeLevel <= level)
       && (r.own <==> below != [] && below[0].scopeLevel == level)
       && (r.own ==> (r.buried <==> |below| > 1 && below[1].scopeLevel > level))
  }

  function Next(rule: Rule, r: Sight, item: Item, space: Space, name: string): Sight
    requires r.Sight?
  {
    if IsKey(item, space, name) then
      if item.checked && (r.stale > 0 || r.own) then Clash else Sight(0, true, r.stale > 0)
    else if !item.Scope? then r
    else NextScope(rule, r, item.body, space, name)
  }

  /** The declarations of a scope beyond the first. */
  function Repeats(body: Items, space: Space, name: string): nat {
    var own := Own(body, 0, space, name);
    if own == [] then 0 else |own| - 1
  }

  /** A scope takes one stale declaration for its own, if it is there. As written a scope that
      does not declare the name throughout forgets all else. */
  function NextScope(rule: Rule, r: Sight, body: Items, space: Space, name: string): Sight
    requires r.Sight?
  {
    if !AllChecked(body, space, name) then r.(stale := r.stale + Repeats(body, space, name))
    else if (if rule.AsWritten? then TwoDirect(body, space, name) || (r.stale > 0 && Again(body, space, name))
             else !NoClash(body, space, name, r.stale > 0)) then Clash
    else if rule.AsWritten? && !NestedAll(body, space, name) then NOTHING_SEEN
    else if r.stale > 0 then r.(stale := r.stale - 1)
    else if rule.AsWritten? && Own(body, 0, space, name) == [] then NOTHING_SEEN
    else r
  }

  function Watch(rule: Rule, r: Sight, items: Items, space: Space, name: string): Sight
    decreases items
  {
    if r.Clash? || items.End? then r
    else Watch(rule, Next(rule, r, items.head, space, name), items.tail, space, name)
  }

  lemma {:induction false} WatchRun(rule: Rule, stack: seq<Symbol>, r: Sight, level: int, items: Items, space: Space,
                                    name: string)
    requires !rule.DropScope? && Regular(items, space, name) && Shows(stack, r, level)
    ensures var q := Watch(rule, r, items, space, name); var k := KeyRun(rule, stack, level, items, space, name);
            if q.Clash? then k == KeyRedeclared else k.KeyDone? && Shows(k.stack, q, level)
    decreases items
  {
    if items.Then? {
      var k := WatchItem(rule, stack, r, level, items.head, space, name);
      var q := Next(rule, r, items.head, space, name);
      if q.Sight? { WatchRun(rule, k.stack, q, level, items.tail, space, name); }
    }
  }

  lemma WatchItem(rule: Rule, stack: seq<Symbol>, r: Sight, level: int, item: Item, space: Space, name: string)
    returns (k: KeyOutcome)
    requires !rule.DropScope? && Regular(Then(item, End), space, name) && Shows(stack, r, level)
    ensures k == KeyItem(rule, stack, level, item, space, name)
    ensures var q := Next(rule, r, item, space, name);
            if q.Clash? then k == KeyRedeclared else k.KeyDone? && Shows(k.stack, q, level)
  {
    hide NextScope; hide AllChecked; hide Prototypes;
    k := KeyItem(rule, stack, level, item, space, name);
    if item.Scope? {
      WatchScope(rule, stack, r, level, item.body, space, name);
    } else if IsKey(item, space, name) {
      assert DeclaredIn(stack, level) <==> r.stale > 0 || r.own;
      var below := ([NewSymbol(space, name, level, item.ast)] + stack)[0..];
      assert |below| > 1 ==> below[1] == stack[0];
    }
  }

  lemma WatchPrototypes(rule: Rule, stack: seq<Symbol>, r: Sight, level: int, body: Items, space: Space, name: string)
    requires !rule.DropScope? && Prototypes(body, space, name) && !AllChecked(body, space, name) && Shows(stack, r, level)
    ensures var q := NextScope(rule, r, body, space, name); var k := KeyItem(rule, stack, level, Scope(body), space, name);
            q.Sight? && k.KeyDone? && Shows(k.stack, q, level)
  {
    hide KeyItem; hide KeyRun; hide TwoDirect; hide Again; hide NestedAll; hide NoClash; hide AllChecked; hide Prototypes;
    hide Own;
    HeadShown(stack, r, level);
    PrototypesDeclare(body, space, name);
    PrototypesStay(rule, stack, level, body, space, name);
    OwnCount(body, level + 1, 0, space, name);
    var more := Own(body, level + 1, space, name)[1..];
    MoreStale(stack, r, level, more);
    assert |more| == Repeats(body, space, name);
  }

  lemma HeadShown(stack: seq<Symbol>, r: Sight, level: int)
    requires Shows(stack, r, level)
    ensures HeadAtMost(stack, level + 1) && (r.stale == 0 ==> HeadAtMost(stack, level))
  {
    if r.stale == 0 { assert stack[0..] == stack; }
  }

  lemma NextWritten(r: Sight, body: Items, space: Space, name: string)
    requires r.Sight? && AllChecked(body, space, name)
    ensures NextScope(AsWritten, r, body, space, name)
         == if TwoDirect(body, space, name) || (r.stale > 0 && Again(body, space, name)) then Clash
            else if r.stale > 0 then if NestedAll(body, space, name) then r.(stale := r.stale - 1) else NOTHING_SEEN
            else if Throughout(body, space, name) then r else NOTHING_SEEN
  {
    hide AllChecked; hide TwoDirect; hide Again; hide NestedAll; hide Own;
  }

  lemma NothingShows(level: int)
    ensures Shows([], NOTHING_SEEN, level)
  {
  }

  lemma WatchWritten(stack: seq<Symbol>, r: Sight, level: int, body: Items, space: Space, name: string)
    requires AllChecked(body, space, name) && Shows(stack, r, level)
    ensures var q := NextScope(AsWritten, r, body, space, name);
            var k := KeyItem(AsWritten, stack, level, Scope(body), space, name);
            if q.Clash? then k == KeyRedeclared else k.KeyDone? && Shows(k.stack, q, level)
  {
    assert r.Sight?;
    hide *;
    HeadShown(stack, r, level);
    NothingShows(level);
    NextWritten(r, body, space, name);
    if r.stale > 0 {
      LessStale(stack, r, level);
      StaleScope(stack, level, body, space, name);
    } else {
      CheckedScope(stack, level, body, space, name);
    }
  }

  lemma WatchKept(stack: seq<Symbol>, r: Sight, level: int, body: Items, space: Space, name: string)
    requires AllChecked(body, space, name) && Shows(stack, r, level)
    ensures var q := NextScope(KeepOuter, r, body, space, name);
            var k := KeyItem(KeepOuter, stack, level, Scope(body), space, name);
            if q.Clash? then k == KeyRedeclared else k.KeyDone? && Shows(k.stack, q, level)
  {
    hide KeyItem; hide NoClash; hide AllChecked; hide Own;
    HeadShown(stack, r, level);
    hide Shows;
    if r.stale > 0 {
      LessStale(stack, r, level);
      KeepStale(stack, level, body, space, name);
    } else {
      KeepCheckedScope(stack, level, body, space, name);
    }
  }

  lemma WatchScope(rule: Rule, stack: seq<Symbol>, r: Sight, level: int, body: Items, space: Space, name: string)
    requires !rule.DropScope? && (AllChecked(body, space, name) || Prototypes(body, space, name)) && Shows(stack, r, level)
    ensures var q := NextScope(rule, r, body, space, name); var k := KeyItem(rule, stack, level, Scope(body), space, name);
            if q.Clash? then k == KeyRedeclared else k.KeyDone? && Shows(k.stack, q, level)
  {
    hide KeyItem; hide KeyRun; hide TwoDirect; hide Again; hide NestedAll; hide NoClash; hide AllChecked; hide Prototypes;
    hide Own; hide NextScope; hide Shows;
    if !AllChecked(body, space, name) {
      WatchPrototypes(rule, stack, r, level, body, space, name);
    } else if rule.AsWritten? {
      WatchWritten(stack, r, level, body, space, name);
    } else {
      WatchKept(stack, r, level, body, space, name);
    }
  }

  lemma MoreStale(stack: seq<Symbol>, r: Sight, level: int, more: seq<Symbol>)
    requires Shows(stack, r, level) && forall i :: 0 <= i < |more| ==> more[i].scopeLevel == level + 1
    ensures Shows(more + stack, r.(stale := r.stale + |more|), level)
  {
    assert (more + stack)[r.stale + |more|..] == stack[r.stale..];
  }

  lemma LessStale(stack: seq<Symbol>, r: Sight, level: int)
    requires Shows(stack, r, level) && r.stale > 0
    ensures stack != [] && stack[0].scopeLevel == level + 1 && HeadAtMost(stack[1..], level + 1)
    ensures Shows(stack[1..], r.(stale := r.stale - 1), level)
  {
    assert stack[1..][r.stale - 1..] == stack[r.stale..];
    if r.stale == 1 && |stack| > 1 { assert stack[1..][0] == stack[r.stale..][0]; }
  }

  /** At the end of the scope the assertion fails if the newest declaration is on top of one
      that a left scope left behind. */
  predicate Aborts(r: Sight) {
    r.Sight? && (r.stale > 1 || (r.stale == 0 && r.own && r.buried))
  }

  /** A whole scope, exactly: when a name is found redeclared and when the assertion fails. */
  lemma WatchWhole(rule: Rule, stack: seq<Symbol>, level: int, items: Items, space: Space, name: string)
    requires !rule.DropScope? && Regular(items, space, name) && HeadAtMost(stack, level)
    ensures var q := Watch(rule, NOTHING_SEEN, items, space, name);
            var k := KeyItem(rule, stack, level, Scope(items), space, name);
            && (k == KeyRedeclared <==> q.Clash?) && (k == KeyAssertFailed <==> Aborts(q))
    ensures KeyRun(rule, stack, level + 1, items, space, name) != KeyAssertFailed
  {
    hide Regular; hide Watch; hide KeyRun;
    assert stack[0..] == stack;
    assert Shows(stack, NOTHING_SEEN, level + 1);
    WatchRun(rule, stack, NOTHING_SEEN, level + 1, items, space, name);
    var q := Watch(rule, NOTHING_SEEN, items, space, name);
    var k := KeyRun(rule, stack, level + 1, items, space, name);
    if q.Sight? { EndOk(rule, k.stack, q, level + 1); }
  }

  lemma EndOk(rule: Rule, stack: seq<Symbol>, r: Sight, level: int)
    requires !rule.DropScope? && Shows(stack, r, level)
    ensures PopOk(rule, stack, level) <==> !Aborts(r)
  {
    var below := stack[r.stale..];
    if r.stale == 0 { assert below == stack; }
    if r.stale == 1 && |stack| > 1 { assert below[0] == stack[1]; }
  }

  ghost predicate AnyClash(rule: Rule, items: Items) {
    exists space, name :: Watch(rule, NOTHING_SEEN, items, space, name).Clash?
  }

  ghost predicate AnyAbort(rule: Rule, items: Items) {
    exists space, name :: Aborts(Watch(rule, NOTHING_SEEN, items, space, name))
  }

  /** How a scope ends, for all names together: exactly when the run reports a redeclaration,
      when it fails an assertion, and when it is done. */
  lemma ScopeEnds(rule: Rule, t: Table, level: int, items: Items)
    requires !rule.DropScope? && KeywordsOnce(t) && TableAtMost(t, level)
    requires forall space, name :: Regular(items, space, name)
    ensures var o := RunItem(rule, t, level, Scope(items)); var clash := AnyClash(rule, Cut(items));
            && (o.Redeclared? <==> clash)
            && (o.AssertFailed? <==> !clash && (!Supported(items) || AnyAbort(rule, items)))
            && (o.Done? <==> !clash && Supported(items) && !AnyAbort(rule, items))
  {
    RunCut(rule, t, level + 1, items);
    CutSupported(items);
    CutRegular(items);
    BodyEnds(rule, t, level, Cut(items));
    if Supported(items) && !AnyClash(rule, items) { SupportedEnds(rule, t, level, items); }
  }

  lemma {:induction false} CutRegular(items: Items)
    requires forall space, name :: Regular(items, space, name)
    ensures forall space, name :: Regular(Cut(items), space, name)
  {
    forall space, name ensures Regular(Cut(items), space, name) {
      assert Regular(items, space, name);
      CutRegularKey(items, space, name);
    }
  }

  lemma {:induction false} CutRegularKey(items: Items, space: Space, name: string)
    ensures Regular(items, space, name) ==> Regular(Cut(items), space, name)
    ensures AllChecked(items, space, name) ==> AllChecked(Cut(items), space, name)
    ensures Prototypes(items, space, name) ==> Prototypes(Cut(items), space, name)
    decreases items
  {
    if items.Then? {
      CutRegularKey(items.tail, space, name);
      if items.head.Scope? {
        CutRegularKey(items.head.body, space, name);
        CutSupported(items.head.body);
        var cut := Then(Scope(Cut(items.head.body)), End);
        assert Regular(End, space, name) && AllChecked(End, space, name);
        assert Regular(items, space, name) ==> Regular(cut, space, name);
        assert AllChecked(items, space, name) ==> AllChecked(cut, space, name);
      }
    }
  }

  lemma BodyEnds(rule: Rule, t: Table, level: int, items: Items)
    requires !rule.DropScope? && KeywordsOnce(t) && TableAtMost(t, level) && Supported(items)
    requires forall space, name :: Regular(items, space, name)
    ensures !Run(rule, t, level + 1, items).AssertFailed?
    ensures Run(rule, t, level + 1, items).Redeclared? <==> AnyClash(rule, items)
  {
    var o := Run(rule, t, level + 1, items);
    if o.AssertFailed? {
      var space, name := RunAborts(rule, t, level + 1, items);
      WatchWhole(rule, StackOf(t, space, name), level, items, space, name);
    } else if o.Redeclared? {
      var space, name := RunRedeclares(rule, t, level + 1, items);
      WatchWhole(rule, StackOf(t, space, name), level, items, space, name);
    } else if AnyClash(rule, items) {
      var space, name :| Watch(rule, NOTHING_SEEN, items, space, name).Clash?;
      RunProjects(rule, t, level + 1, items, space, name);
      WatchWhole(rule, StackOf(t, space, name), level, items, space, name);
    }
  }

  lemma SupportedEnds(rule: Rule, t: Table, level: int, items: Items)
    requires !rule.DropScope? && KeywordsOnce(t) && TableAtMost(t, level) && Supported(items)
    requires forall space, name :: Regular(items, space, name)
    requires !AnyClash(rule, items)
    ensures RunItem(rule, t, level, Scope(items)).Done? <==> !AnyAbort(rule, items)
  {
    var item := Scope(items);
    ItemSeparates(rule, t, level, item);
    forall space, name
      ensures KeyItem(rule, StackOf(t, space, name), level, item, space, name).KeyDone?
         <==> !Aborts(Watch(rule, NOTHING_SEEN, items, space, name))
    {
      assert !Watch(rule, NOTHING_SEEN, items, space, name).Clash?;
      WatchWhole(rule, StackOf(t, space, name), level, items, space, name);
    }
    if AnyAbort(rule, items) {
      var space, name :| Aborts(Watch(rule, NOTHING_SEEN, items, space, name));
      assert !KeyItem(rule, StackOf(t, space, name), level, item, space, name).KeyDone?;
    }
  }

  // ----- how many prototypes a name drags along

  /** What a scope adds to the stale declarations: the prototypes beyond the first, or one less
      if it does not declare the name. */
  function Gain(item: Item, space: Space, name: string): int {
    if !item.Scope? then 0
    else if !AllChecked(item.body, space, name) then Repeats(item.body, space, name)
    else if Own(item.body, 0, space, name) == [] then -1
    else 0
  }

  function Balance(items: Items, space: Space, name: string): int {
    if items.End? then 0 else Gain(items.head, space, name) + Balance(items.tail, space, name)
  }

  /** No declaration of the name itself, and as written no checked scope with one inside that
      does not declare it. */
  predicate Untouched(rule: Rule, items: Items, space: Space, name: string) {
    items.Then? ==>
      && !IsKey(items.head, space, name)
      && (rule.AsWritten? && items.head.Scope? && AllChecked(items.head.body, space, name) ==>
            NestedAll(items.head.body, space, name))
      && Untouched(rule, items.tail, space, name)
  }

  /** From some point on nothing touches the name, and repeated prototypes outweigh by `n` the
      scopes without it. */
  predicate Piled(rule: Rule, items: Items, space: Space, name: string, n: nat) {
    || (Untouched(rule, items, space, name) && Balance(items, space, name) >= n)
    || (items.Then? && Piled(rule, items.tail, space, name, n))
  }

  /** At least `n` stale declarations are on top exactly if that many have piled up. */
  lemma {:induction false} StaleIff(rule: Rule, r: Sight, items: Items, space: Space, name: string, n: nat)
    requires !rule.DropScope? && r.Sight? && Watch(rule, r, items, space, name).Sight? && n > 0
    ensures Watch(rule, r, items, space, name).stale >= n
       <==> Piled(rule, items, space, name, n)
            || (Untouched(rule, items, space, name) && r.stale + Balance(items, space, name) >= n)
    decreases items
  {
    if items.Then? {
      hide AllChecked; hide NestedAll; hide NoClash; hide TwoDirect; hide Again; hide Own;
      StaleStep(rule, r, items.head, space, name);
      assert Untouched(rule, End, space, name);
      assert Untouched(rule, items, space, name)
        <==> Untouched(rule, Then(items.head, End), space, name) && Untouched(rule, items.tail, space, name);
      StaleIff(rule, Next(rule, r, items.head, space, name), items.tail, space, name, n);
    }
  }

  lemma StaleStep(rule: Rule, r: Sight, item: Item, space: Space, name: string)
    requires !rule.DropScope? && r.Sight? && Next(rule, r, item, space, name).Sight?
    ensures var s := Next(rule, r, item, space, name).stale;
            if Untouched(rule, Then(item, End), space, name) then s == Most(r.stale + Gain(item, space, name)) else s == 0
  {
    assert Untouched(rule, End, space, name);
    if item.Scope? && AllChecked(item.body, space, name) && r.stale > 0 {
      hide AllChecked; hide NestedAll; hide NoClash; hide TwoDirect; hide Again; hide Own;
      SeenClashes(item.body, space, name);
      if NestedAll(item.body, space, name) { DirectAgain(item.body, space, name); }
    }
  }

  function Most(x: int): nat {
    if x < 0 then 0 else x
  }

  lemma {:induction false} SeenClashes(items: Items, space: Space, name: string)
    requires AllChecked(items, space, name)
    ensures NoClash(items, space, name, true) ==> Own(items, 0, space, name) == []
    decreases items
  {
    if items.Then? { SeenClashes(items.tail, space, name); }
  }

  // ----- without repeated prototypes

  /** No scope repeats a prototype of the name. */
  predicate Once(items: Items, space: Space, name: string) {
    items.Then? ==>
      && (items.head.Scope? && !AllChecked(items.head.body, space, name) ==>
            |Own(items.head.body, 0, space, name)| <= 1)
      && Once(items.tail, space, name)
  }

  lemma {:induction false} OnceWatch(r: Sight, items: Items, space: Space, name: string)
    requires Regular(items, space, name) && Once(items, space, name) && r.Sight? && r.stale == 0 && !r.buried
    ensures var q := Watch(AsWritten, r, items, space, name);
            && (q.Clash? <==> TwoDirect(items, space, name) || (r.own && Again(items, space, name)))
            && (q.Sight? ==> q.stale == 0 && !q.buried)
    decreases items
  {
    if items.Then? {
      hide AllChecked; hide Prototypes; hide NestedAll; hide NoClash; hide Own;
      if items.head.Scope? && !AllChecked(items.head.body, space, name) { PrototypesDeclare(items.head.body, space, name); }
      var q := Next(AsWritten, r, items.head, space, name);
      if q.Sight? { OnceWatch(q, items.tail, space, name); }
    }
  }

  lemma {:induction false} OnceKeep(r: Sight, items: Items, space: Space, name: string)
    requires Regular(items, space, name) && Once(items, space, name) && r.Sight? && r.stale == 0 && !r.buried
    ensures var q := Watch(KeepOuter, r, items, space, name);
            && (q.Clash? <==> !NoClash(items, space, name, r.own))
            && (q.Sight? ==> q.stale == 0 && !q.buried)
    decreases items
  {
    if items.Then? {
      hide AllChecked; hide Prototypes; hide Own;
      if items.head.Scope? && !AllChecked(items.head.body, space, name) {
        PrototypesDeclare(items.head.body, space, name);
        PrototypesNeverClash(items.head.body, space, name, false);
      }
      var q := Next(KeepOuter, r, items.head, space, name);
      if q.Sight? { OnceKeep(q, items.tail, space, name); }
    }
  }

  ghost predicate AnyTwoDirect(items: Items) {
    exists space, name :: TwoDirect(items, space, name)
  }

  /** As written and without repeated prototypes: a redeclaration is reported exactly if some
      scope declares a name twice, and all scopes in between declare it too; no assertion fails. */
  lemma WrittenSucceedsIff(t: Table, level: int, items: Items)
    requires KeywordsOnce(t) && TableAtMost(t, level) && Supported(items)
    requires forall space, name :: Regular(items, space, name) && Once(items, space, name)
    ensures var o := RunItem(AsWritten, t, level, Scope(items));
            (o.Redeclared? <==> AnyTwoDirect(items)) && (o.Done? <==> !AnyTwoDirect(items))
  {
    hide RunItem; hide Regular; hide Once; hide Watch; hide TwoDirect;
    CutSupported(items);
    ScopeEnds(AsWritten, t, level, items);
    forall space, name
      ensures Watch(AsWritten, NOTHING_SEEN, items, space, name).Clash? <==> TwoDirect(items, space, name)
      ensures !Aborts(Watch(AsWritten, NOTHING_SEEN, items, space, name))
    {
      assert Regular(items, space, name) && Once(items, space, name);
      OnceWatch(NOTHING_SEEN, items, space, name);
    }
  }

  ghost predicate AnyRepeat(items: Items) {
    exists space, name :: !NoClash(items, space, name, false)
  }

  /** With the smallest repair and without repeated prototypes: exactly if some scope does. */
  lemma KeepSucceedsIff(t: Table, level: int, items: Items)
    requires KeywordsOnce(t) && TableAtMost(t, level) && Supported(items)
    requires forall space, name :: Regular(items, space, name) && Once(items, space, name)
    ensures var o := RunItem(KeepOuter, t, level, Scope(items));
            (o.Redeclared? <==> AnyRepeat(items)) && (o.Done? <==> !AnyRepeat(items))
  {
    hide RunItem; hide Regular; hide Once; hide Watch; hide NoClash;
    CutSupported(items);
    ScopeEnds(KeepOuter, t, level, items);
    forall space, name
      ensures Watch(KeepOuter, NOTHING_SEEN, items, space, name).Clash? <==> !NoClash(items, space, name, false)
      ensures !Aborts(Watch(KeepOuter, NOTHING_SEEN, items, space, name))
    {
      assert Regular(items, space, name) && Once(items, space, name);
      OnceKeep(NOTHING_SEEN, items, space, name);
    }
  }

  lemma {:induction false} TwoDirectClashes(items: Items, space: Space, name: string, seen: bool)
    ensures TwoDirect(items, space, name) ==> !NoClash(items, space, name, seen)
    ensures Again(items, space, name) ==> !NoClash(items, space, name, true)
    decreases items
  {
    if items.Then? {
      if items.head.Scope? { TwoDirectClashes(items.head.body, space, name, false); }
      TwoDirectClashes(items.tail, space, name, seen || IsKey(items.head, space, name));
      TwoDirectClashes(items.tail, space, name, true);
    }
  }

  /** As written, and without repeated prototypes, clashes are only ever missed: what should be
      accepted is accepted. */
  lemma WrittenAccepts(t: Table, level: int, items: Items)
    requires KeywordsOnce(t) && TableAtMost(t, level) && Supported(items)
    requires forall space, name :: Regular(items, space, name) && Once(items, space, name)
    requires !AnyRepeat(items)
    ensures RunItem(AsWritten, t, level, Scope(items)).Done?
  {
    hide RunItem; hide Regular; hide Once; hide TwoDirect; hide NoClash;
    WrittenSucceedsIff(t, level, items);
    if AnyTwoDirect(items) {
      var space, name :| TwoDirect(items, space, name);
      TwoDirectClashes(items, space, name, false);
    }
  }

  /** As written, a scope without inner scopes: it forgets a name that it does not declare, and
      leaves behind all but the newest of its declarations of one that it does. */
  lemma {:induction false} FlatScope(stack: seq<Symbol>, level: int, body: Items, space: Space, name: string)
    requires Flat(body) && AtMost(stack, level)
    requires KeyRun(AsWritten, stack, level + 1, body, space, name).KeyDone?
    ensures var own := Own(body, level + 1, space, name);
            KeyItem(AsWritten, stack, level, Scope(body), space, name) == KeyDone(if own == [] then [] else own[1..] + stack)
  {
    hide KeyRun; hide Own;
    FlatRun(stack, level + 1, body, space, name);
    var own := Own(body, level + 1, space, name);
    if own == [] { assert own + stack == stack; } else { assert (own + stack)[1..] == own[1..] + stack; }
  }

  lemma {:induction false} FlatRun(stack: seq<Symbol>, level: int, body: Items, space: Space, name: string)
    requires Flat(body) && KeyRun(AsWritten, stack, level, body, space, name).KeyDone?
    ensures KeyRun(AsWritten, stack, level, body, space, name) == KeyDone(Own(body, level, space, name) + stack)
    decreases body
  {
    if body.Then? {
      if IsKey(body.head, space, name) {
        var symbol := NewSymbol(space, name, level, body.head.ast);
        FlatRun([symbol] + stack, level, body.tail, space, name);
        assert Own(body.tail, level, space, name) + ([symbol] + stack) == Own(body, level, space, name) + stack;
      } else {
        FlatRun(stack, level, body.tail, space, name);
      }
    } else {
      assert [] + stack == stack;
    }
  }

  predicate Flat(items: Items) {
    items.Then? ==> !items.head.Scope? && Flat(items.tail)
  }

  /** Leaving any scope that declares no keyword forgets every keyword. */
  lemma KeywordsForgotten(t: Table, level: int, body: Items, name: string)
    requires RunItem(AsWritten, t, level, Scope(body)).Done? && 0 <= level
    requires forall n <- t :: AtMost(t[n].kw, 0)
    ensures var t' := RunItem(AsWritten, t, level, Scope(body)).table; name in t' ==> t'[name].kw == []
  {
    KeywordLevels(t, level + 1, body);
  }

  lemma {:induction false} KeywordLevelsItem(t: Table, level: int, item: Item)
    requires RunItem(AsWritten, t, level, item).Done? && forall n <- t :: AtMost(t[n].kw, 0)
    ensures forall n <- RunItem(AsWritten, t, level, item).table :: AtMost(RunItem(AsWritten, t, level, item).table[n].kw, 0)
    decreases item
  {
    if item.Scope? { KeywordLevels(t, level + 1, item.body); }
  }

  /** Nothing in a run adds a keyword. */
  lemma {:induction false} KeywordLevels(t: Table, level: int, items: Items)
    requires Run(AsWritten, t, level, items).Done? && forall n <- t :: AtMost(t[n].kw, 0)
    ensures forall n <- Run(AsWritten, t, level, items).table :: AtMost(Run(AsWritten, t, level, items).table[n].kw, 0)
    decreases items
  {
    if items.Then? {
      KeywordLevelsItem(t, level, items.head);
      KeywordLevels(RunItem(AsWritten, t, level, items.head).table, level, items.tail);
    }
  }
}
