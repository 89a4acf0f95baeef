# dp4c: a verified model of the front end

dp4c is a P4 front end in C. This project models its parts that work by changing state or by
recursion over a token stream, and proves what they keep and compute: the lexer's state
machine, the expression parser, the page allocator with its segmented array, the scoped symbol
table with the walk that fills it, and the attribute table of a tree node. The code is
modelled as it is written, with its own tables and its own mistakes; where it does something
else than its comments or the language it reads ask for, both are stated, with the exact
condition under which they agree.

`dafny verify dfyconfig.toml` checks everything.

## How it is built

Each part has a layer of functions that say what is computed, an imperative layer of classes
and methods in the shape of the C code that is proved against them, and theorems about the
functions.

**Expressions and types** (`build_ast.c`).
`Grammar` has the trees with their grouping parentheses, the tokens that a tree spells
(`Yield`) and the grammar, as local conditions on the tree: priorities of operands, what may
be open at its right end, what `<`, `[` and `(` may follow. `ExprParser` is the recursive
descent on token sequences; its termination is the length of the rest with a rank for each
builder. `ParserSound` and `ParserComplete` prove that the two agree in both directions for
every token sequence and threshold, hence that parses are unique. `Printer` writes a tree
without groups down with the fewest parentheses, `PrinterTheorems` and `RoundTrip` prove that
printing and parsing undo each other. `MinusRule` carries the lexer's treatment of minus
through trees and tokens. `TreeTokens` says which tokens a tree spells. `Precedence` and `Forms`
state what the builders make of tokens without the tables and predicates of the code: which
operator binds first, what node each token makes, the written form of every kind of expression
and type.
`TokenCursor` is the token array that is reclassified in place while it is read, with runs of
its operations, `AstBuilder` the builders on it: they return the tree that the specification
gives, with its groups stripped, as the code does.

**Pages** (`arena.c`).
`PageRanges` has the block lists as sequences of ranges, with coverage stated by counting, for
every address, the ranges that hold it. `ArenaModel` is one call of the allocator on values,
`ArenaRuns` the invariant over every run: the reserved bytes are partitioned, what was handed
out is disjoint, descriptors are neither lost nor used twice. `Regions` says the same of the
addresses that are returned. `PageAllocator` is the heap:
linked descriptors that are relinked, merged and recycled in place, with a push that re-enters
itself for the descriptor of the pages it takes. `SegmentedArray` is the array whose elements
never move.

**Symbols** (`hash.c`, `symtable.c`, `build_symtable.c`).
`SymbolTable` is the chained table that grows by relinking its entries; its contents are a map
from names to three stacks of declarations. `ScopeStacks` has runs of declarations and nested
scopes, one name at a time or all together, with three rules for leaving a scope: `AsWritten` as the code does it, `KeepOuter` with
the symbol itself returned for a head of an outer scope, `DropScope` with the whole scope
removed. `ScopeRules` compares them, `BuildSymtable` is the walk over a program;
`DeclarationRules` and `IdentifierRules` say on the syntax tree what it finds and keeps.

**Characters** (`lex.c`).
`LexRules` says declaratively what lexeme stands at a position. `Lexer` is the numbered state
machine with its window. `LexTheorems` has tiling and longest matches, `Spellings` the spelling
of every token character by character, `IntegerLiterals` the value of literals, `Relex` writing and reading tokens, `TextRoundTrip` the way from a text to a
tree and back through all stages.

**Attributes** (`ast.c`).
`AttributeTable` is the small table of a tree node and its iterator.

## Where the code differs from what it should do

- The comment on block lists calls them ordered. The search in `arena.c:94-101` stops at the
  first block that starts at or below the new one, not at the last. Coverage, disjointness and
  the count of descriptors hold all the same (`InsertCovers`, `RunKeeps`); order is kept
  exactly if the new block lies below the first or the second (`OrderKeptIff`, `AsMeantIff`),
  and `OrderLost` is a run of three blocks that loses it.
- `scope_delete_symbol` returns null where a head that belongs to an outer scope should stay,
  so leaving a scope forgets every name that the scope, or one nested in it, did not declare
  itself (`WrittenRestoresIff`, `FlatScope`), all keywords among them (`KeywordsForgotten`).
  Repeated declarations are found exactly if every scope in between declares the name
  throughout (`WrittenProgram`, `WrittenTree`); for types that means no scope at all
  (`WrittenFinds`, `DuplicateMissed`). What should be found is `DroppedProgram`.
- Prototypes are not checked and may overload, but leaving a scope removes only one
  declaration of a name. The others stay on top of the name and count as declared
  (`ConstantRejectedIff`, `OverloadGoesStale`); with three methods of one name the assertion
  of `scope_delete_symbol` fails (`ThreeOverloads`, `OverloadsAbort`). How many stay is
  counted exactly (`StaleIff`), and with that how the walk over any program ends
  (`ProgramEnds`). Keeping the head of an outer scope repairs the first mistake and not this
  one; removing the whole scope repairs both (`DropSucceedsIff`).
- A width in parentheses, as in `bit<(e)>`, is never accepted: the operator loop takes the `>`
  (`SoundTypeSize`).
- `(` before a dot always starts a cast, so some trees have no spelling
  (`SumBehindDotIsNotExpressible`).
- A comment between `(` and `-` turns the sign into a subtraction (`CommentHidesSign`).
- A string ends at its first backslash; an unterminated string or comment, or a line comment
  without a line end, fails an assertion (`Quoted`, `InBlock`, `InLine`).

## Model

| member | source | states |
|---|---|---|
| `RoundTrip.ParsePrintParse` | build_ast.c:2593-2820 | whatever tree the expression builder returns for tokens that obey the lexer's rule about minus signs can be printed, in no more tokens than it was written in, and the printed tokens parse to the same tree and stop at the same place |
| `RoundTrip.PrintParse` | build_ast.c:2593-2820 | every tree that has a spelling at all is printed, and its printed form, before any token that continues no expression, parses back to exactly that tree |
| `RoundTrip.PrintIsShortest` | build_ast.c:2752-2820 | for every spelling of a tree the printed one is in the grammar, stands for the same tree and is at most as long: parentheses are minimal for the code's priorities |
| `RoundTrip.StripTakesGroups` | build_ast.c:2629-2643 | the tree that the builders return has no parentheses left, and is the written one if there were none |
| `RoundTrip.ExpressibleIffPrints` | build_ast.c:2593-2820 | a tree has a spelling exactly if the printer finds one in the grammar |
| `RoundTrip.SumBehindDotIsNotExpressible` | build_ast.c:2629-2638 | since `(` before a dot always opens a cast, the tree of `(.x + y) * z` has no spelling at all |
| `ParserComplete.ParseIffGrammar` | build_ast.c:2752-2820 | for every token list, threshold, tree and rest: the builder returns that tree and stops there if and only if the tree is in the grammar of the threshold, its tokens and the rest make up the list, and the rest can follow it and stops the operator loop |
| `ParserComplete.ParseIsUnique` | build_ast.c:2752-2820 | two readings of the same tokens are the same tree with the same rest |
| `ParserComplete.CompleteExpr` | build_ast.c:2752-2820 | on the tokens of any tree of the grammar the builder reaches the operator loop with exactly that tree built |
| `ParserComplete.CompletePrimary` | build_ast.c:2593-2679 | the primary builder returns exactly the primary expression whose tokens it is given |
| `ParserComplete.CompleteType` | build_ast.c:750-765 | the type builder returns exactly the type whose tokens it is given, unless `<` or `[` follows |
| `ParserComplete.CompleteTypeName` | build_ast.c:731-748 | the same for type names with arguments and header stack sizes |
| `ParserComplete.CompleteItems` | build_ast.c:1144-1191 | the list builders return exactly the items whose tokens, with commas, they are given before a closing token |
| `ParserSound.SoundExpr` | build_ast.c:2752-2820 | a tree that the builder returns is in the grammar of its threshold: left operands have at least their parent's priority, right ones a higher one, no ungrouped operator is below the threshold; the tree's tokens are those consumed and the rest stops the loop |
| `ParserSound.SoundPrimary` | build_ast.c:2593-2679 | the same for primary expressions |
| `ParserSound.SoundType` | build_ast.c:750-765 | the same for types |
| `ParserSound.SoundTypeSize` | build_ast.c:569-579 | a parenthesised size is never followed by `>`, because the operator loop takes every `>` as a comparison: only an integer can be the width of `bit<...>` |
| `ParserSound.SoundItems` | build_ast.c:1144-1191 | the list builders return items of their kind, and at least one if one may start |
| `ParserSound.BinaryClassOf` | build_ast.c:2681-2750 | the operator and the priority that the code reads off a token class belong to the same operator, for every class that the loop treats as binary; which they are is stated in `Precedence` |
| `Precedence.OperatorNames` | build_ast.c:2708-2750 | for any two names and each of the 18 operator tokens: the tokens parse to the node of that operator, by a list of tokens and nodes of its own |
| `Precedence.Grouping` | build_ast.c:2681-2706 | for any three names and two operators: the second operator binds first exactly if it is of a later one of the five levels, listed as sets of tokens; otherwise the two are read from left to right |
| `Forms.LeafIff` | build_ast.c:210-240 | one token is an expression by itself exactly if it is a literal, `error`, a name, a type's name or one of the keywords that are names |
| `Forms.TextKept` | build_ast.c:520-566 | tokens with a text keep it, an integer its value and width, into the tree |
| `Forms.TypeLeafIff` | build_ast.c:98-111 | one token is a type by itself exactly if it is one of the six base types or a type's name |
| `Forms.SignNames` | build_ast.c:2645-2679 | each of the three signs makes its node |
| `Forms.SignTakesAll` | build_ast.c:2645-2679 | a sign takes everything to its right, whatever operator follows |
| `Forms.LessIff` | build_ast.c:2526-2531 | `<` behind a name is a comparison exactly if what follows cannot start a type argument |
| `Forms.MemberIff` | build_ast.c:143-156 | what may stand behind a dot: names, types' names and the keywords that are names |
| `Forms.ApplyForm` | build_ast.c:2752-2820 | `t.apply()` and the like are calls of a member without arguments |
| `Forms.IndexForm` | build_ast.c:2752-2820 | an index between brackets |
| `Forms.SliceForm` | build_ast.c:2752-2820 | a slice, upper bound first, with a colon |
| `Forms.CallForm` | build_ast.c:1144-1191 | a call with any one-token arguments between commas |
| `Forms.ArgumentIff` | build_ast.c:166-171 | which tokens are, by themselves, items of the four kinds of lists |
| `Forms.BracesForm` | build_ast.c:2622-2628 | a list in braces |
| `Forms.TypeAppForm` | build_ast.c:2558-2591 | type arguments behind a name |
| `Forms.GroupForm` | build_ast.c:2629-2643 | a name in parentheses |
| `Forms.CastForm` | build_ast.c:2629-2643 | a type in parentheses makes a cast |
| `Forms.ValueForm` | build_ast.c:2752-2820 | a name, `=` and a value make a key-value pair |
| `Forms.DottedForm` | build_ast.c:2606-2618 | a leading dot before a name or a type's name |
| `Forms.SizedForm` | build_ast.c:582-637 | an integer type with its width |
| `Forms.TupleForm` | build_ast.c:663-682 | a tuple type with any one-token arguments |
| `Forms.SpecializedForm` | build_ast.c:698-711 | a type's name with any one-token arguments |
| `Forms.StackForm` | build_ast.c:731-748 | a header stack with its size |
| `ExprParser.ParseExpr` | build_ast.c:2752-2820 | every successful call takes at least one token, so the mutual recursion ends with the tokens left as its measure |
| `ExprParser.ParseLoop` | build_ast.c:2761-2820 | the operator loop never gives tokens back |
| `ExprParser.ParseItems` | build_ast.c:1172-1191 | a list builder takes no token or some, and never gives one back |
| `MinusRule.MinusOfExpr` | build_ast.c:2658-2669 | a tree's tokens obey the lexer's rule about minus signs exactly if every negation stands right behind `(` and no subtraction does, which is a condition on the tree |
| `MinusRule.MinusOfType` | build_ast.c:750-765 | the same for types, which never start with a minus |
| `PrinterTheorems.ReprintExpr` | build_ast.c:2593-2820 | the printed form of any tree of the grammar is in the grammar with the same root priority, obeys the minus rule, and is no longer than the tree that it was made from |
| `PrinterTheorems.BareStrips` | build_ast.c:2629-2650 | printing adds nothing but grouping parentheses, for which the code makes no node |
| `PrinterTheorems.SealCloses` | build_ast.c:2658-2669 | a parenthesis around the rightmost greedy operand closes a tree without changing its root priority, two tokens longer |
| `TokenCursor.ClassAfterRun` | build_ast.c:44-83 | over any run of fetches, peeks and declared types on the array: an identifier that was looked up takes its keyword's class if it names one, otherwise becomes a type identifier exactly if its name was a type at one of the looks, otherwise stays; one that was not looked up stays |
| `TokenCursor.RunLooksUp` | build_ast.c:44-83 | each token ends as the looks at it during the run, one after the other, make it |
| `TokenCursor.ClassifyTwice` | build_ast.c:56-70 | looking a token up twice is looking it up once |
| `TokenCursor.ViewStable` | build_ast.c:44-83 | settling classes in the token array changes nothing for what the builders see |
| `TokenCursor.CommentUnseen` | build_ast.c:44-83 | a comment anywhere in the token array is not seen by the builders, and every other token is |
| `TokenCursor.Cursor.constructor` | build_ast.c:44-72 | a cursor starts at the start marker with all tokens ahead |
| `TokenCursor.Cursor.NextToken` | build_ast.c:44-72 | one fetch of such a run: the current token moves to the next one that is no comment, and only that token's class is settled, in the array |
| `TokenCursor.Cursor.PeekToken` | build_ast.c:74-83 | one peek of such a run: the position stays, the token returned is the one that the next fetch will make current, and only its class is settled |
| `TokenCursor.Cursor.NewType` | symtable.c:127-141 | one declared type of such a run: later fetches see it, and no token changes |
| `AstBuilder.BuildExpression` | build_ast.c:2752-2820 | the imperative builder over the cursor returns the tree of the specification without its groups, with the cursor behind it, or fails exactly if the specification does |
| `AstBuilder.AtInfix` | build_ast.c:2761-2770 | the test for a binary operator peeks behind `<` and leaves the cursor where it was |
| `AstBuilder.BuildPrimary` | build_ast.c:2593-2679 | the same for primary expressions; the assertion at the end of the chain of tests is not reachable |
| `AstBuilder.BuildParenthesis` | build_ast.c:2629-2650 | `(` before the start of a type is a cast whose operand takes everything to its right, otherwise a group |
| `AstBuilder.BuildUnary` | build_ast.c:2658-2669 | a prefix operator takes everything to its right |
| `AstBuilder.BuildBracket` | build_ast.c:1332-1346 | an index, or a slice with a colon |
| `AstBuilder.BuildCall` | build_ast.c:2791-2800 | the argument list of a call |
| `AstBuilder.BuildTypeRef` | build_ast.c:750-765 | the type builder refines its specification |
| `AstBuilder.BuildTypeName` | build_ast.c:731-748 | type names, their arguments and header stack sizes |
| `AstBuilder.BuildBaseType` | build_ast.c:581-637 | base types, with the width of sized ones |
| `AstBuilder.BuildTypeSize` | build_ast.c:569-579 | the width of a sized type |
| `AstBuilder.BuildTuple` | build_ast.c:662-678 | tuple types |
| `AstBuilder.BuildList` | build_ast.c:1495-1516 | the loops of the four list builders |
| `AstBuilder.BuildItem` | build_ast.c:2557-2591 | one item of a list |
| `PageRanges.InsertCovers` | arena.c:84-153 | inserting a block into any list of well formed ranges, ordered or not, adds exactly its bytes: every address is covered as often as before, once more inside the block |
| `PageRanges.OrderKeptIff` | arena.c:94-101 | the list is kept ascending if and only if it has fewer than two blocks or the new one lies below the first or the second |
| `PageRanges.AsMeantIff` | arena.c:94-101 | exactly then the code computes what a search for the last block at or below the new one would |
| `PageRanges.MeantKeepsOrder` | arena.c:84-153 | with the search that the comment describes, an ascending list stays ascending and no two blocks touch |
| `PageRanges.LowestFirst` | arena.c:94-101 | in an ascending list the search as written finds the lowest block or none |
| `PageRanges.OrderLost` | arena.c:94-101 | three blocks that come back out of order |
| `PageRanges.FirstFit` | arena.c:61-74 | the search returns the first block with enough bytes, and none before it has enough |
| `PageRanges.LeftNeighbour` | arena.c:94-101 | the search returns the first block that starts at or below the address |
| `ArenaModel.MaskRoundsUp` | arena.c:176-178 | on 32 bits, the code's add-and-mask with a power of two is rounding up to a page multiple |
| `ArenaModel.RoundUpBounds` | arena.c:176-178 | the rounded size is the least page multiple that holds the request |
| `ArenaRuns.FirstFitFits` | arena.c:61-74 | a free block that holds the request also holds the rounded request, because blocks are whole pages: the assertion in the refill cannot fail |
| `ArenaRuns.PushKeeps` | arena.c:168-207 | a push keeps the partition of the reserved bytes and the disjointness of what was handed out, also while blocks are in flight in a call that re-entered it, and never ends in the assertion |
| `ArenaRuns.RoomAfterRefill` | arena.c:168-207 | after the refill, and whatever the allocation of its descriptor did, the arena's window serves the request |
| `ArenaRuns.PushFrame` | arena.c:168-207 | a push changes the arena itself and the arena of descriptors, and no other |
| `ArenaRuns.DeleteKeeps` | arena.c:209-226 | giving an arena's blocks back keeps the invariant |
| `ArenaRuns.InitInv` | arena.c:32-59 | the invariant holds after init_memory |
| `ArenaRuns.RunKeeps` | arena.c:32-226 | over every run of pushes, deletions and new arenas, each reserved byte is in exactly one block of the free list or of one arena, every block is whole pages, what was handed out is disjoint, and no call that may come next fails the refill's assertion |
| `ArenaRuns.RunLosesNoDescriptor` | arena.c:76-82 | over every run as many descriptors were allocated as are in a list or recycled |
| `ArenaRuns.HandedOutApart` | arena.c:168-207 | two regions handed out and not given back share no byte, whoever holds them |
| `ArenaRuns.HandedOutOwned` | arena.c:168-207 | a region handed out lies in its arena's pages, inside the reserved memory, in no other arena's pages and not on the free list |
| `PageAllocator.Memory.constructor` | arena.c:32-59 | init_memory sets up the state of the model, its first page given to the arena of descriptors |
| `PageAllocator.Memory.FindBlockFirstFit` | arena.c:61-74 | the loop over the links finds the block that the model finds |
| `PageAllocator.Memory.FindLeft` | arena.c:94-101 | the loop over the links finds the model's left neighbour |
| `PageAllocator.Memory.RecycleBlockStruct` | arena.c:76-82 | the descriptor becomes the head of the recycled list |
| `PageAllocator.Memory.BlockInsertAndCoalesce` | arena.c:84-153 | relinking in place gives an acyclic list with the ranges of the model; descriptors that merging made superfluous are unlinked and recycled, and none is lost |
| `PageAllocator.NoRepeats` | arena.c:84-153 | a list that ends in null visits no descriptor twice |
| `PageAllocator.Memory.GetNewBlockStruct` | arena.c:155-166 | a recycled descriptor, or a fresh one pushed to the arena of descriptors |
| `PageAllocator.Memory.Refill` | arena.c:173-196 | the refill branch, which may re-enter the push for a descriptor, does to the heap what the model does |
| `PageAllocator.Memory.ArenaPush` | arena.c:168-207 | the push on linked blocks refines the model: same address, same state, same end, with the nesting bounded by a measure of at most two |
| `Regions.PushReturns` | arena.c:168-207 | a client's push hands out exactly one region, of the requested size at the returned address, and leaves every other client as it was |
| `Regions.PushServesFrom` | arena.c:168-207 | the address is the start of the window while the request does not use that up, else the start of the first free block that is large enough; what the window is afterwards |
| `Regions.PushServesIff` | arena.c:168-207 | a client's push succeeds exactly if its window suffices, or a free block does and there is a descriptor, or room for one |
| `Regions.DescriptorReturns` | arena.c:155-166 | the address and the window of a descriptor that is pushed with room left |
| `Regions.DescriptorPage` | arena.c:155-207 | a refill for descriptors takes one page and from it first the descriptor of that page, unless one was recycled |
| `Regions.FirstDescriptor` | arena.c:32-73 | after init_memory the first descriptor lies behind the two that are in use |
| `Regions.RunAgrees` | arena.c:168-226 | over every run the allocator's record of each client is the list of addresses returned and not given back |
| `Regions.ReturnedApart` | arena.c:168-226 | over every run from init_memory, on any number of arenas: the addresses returned and not given back head regions of the requested sizes in the reserved memory that share no byte with each other or the free list |
| `PageAllocator.Memory.ArenaDelete` | arena.c:209-226 | the deletion on linked blocks refines the model |
| `PageAllocator.Memory.Register` | ashp4c.c:11-11 | a client's zeroed arena joins the state |
| `SegmentedArray.FloorLog2` | arena.c:235-240 | the exponent of the largest power of two at or below the number |
| `SegmentedArray.SlotBijection` | arena.c:250-263 | indices and pairs of segment and offset correspond one to one |
| `SegmentedArray.SlotInside` | arena.c:250-263 | the first k segments hold exactly the indices below 2^k - 1 |
| `SegmentedArray.UnboundedArray.constructor` | arena.c:242-248 | the array starts empty |
| `SegmentedArray.UnboundedArray.ElemAt` | arena.c:250-263 | the slot returned holds the element of the sequence |
| `SegmentedArray.UnboundedArray.Get` | arena.c:265-273 | reads the element of the sequence |
| `SegmentedArray.UnboundedArray.Set` | arena.c:275-283 | changes that element of the sequence and no other |
| `SegmentedArray.UnboundedArray.RoomIff` | arena.c:285-296 | there is room exactly below 2^24 - 1 elements |
| `SegmentedArray.UnboundedArray.Append` | arena.c:285-296 | the sequence grows by the element, no segment moves, and a new one is allocated exactly if the capacity is used up |
| `Hash.FoldLoop` | hash.c:10-19 | the loop computes the fold, with 32-bit wrap-around |
| `Hash.FoldIsNumeral` | hash.c:10-19 | as long as it does not reach the modulus, the fold is the number whose digits to base 257 are the characters |
| `Hash.ShortNamesApart` | hash.c:10-19 | different names of one length, up to three bytes, fold to different numbers |
| `Hash.MultiplyHashRange` | hash.c:33-39 | the top m bits of the product are below 2^m |
| `Hash.HashString` | hash.c:41-47 | the hash is an index below 2^m - 1 |
| `Hash.HashStringIs` | hash.c:41-47 | the last reduction moves only the largest hash, to 0 |
| `SymbolTable.Symtable.constructor` | symtable.c:10-15 | an empty table of the initial size |
| `SymbolTable.Symtable.Reset` | symtable.c:219-239 | an empty table again, of the size it had grown to |
| `SymbolTable.Symtable.Find` | symtable.c:60-68 | the search in a bucket finds the one entry of the name, or none |
| `SymbolTable.Symtable.Grow` | symtable.c:69-99 | growth relinks the same entries into twice as many buckets and one, each into its new bucket |
| `SymbolTable.Symtable.CollectEntries` | symtable.c:71-83 | the buffer gets every entry once, and as many as were counted: the assertion holds |
| `SymbolTable.Symtable.Rehash` | symtable.c:88-97 | every entry ends in the bucket of its name, and nothing else does |
| `SymbolTable.Symtable.GetSymtableEntry` | symtable.c:58-108 | the table stays a map with one entry a name, whether or not it grew; a name that is there keeps its entry object and a new one gets a fresh entry |
| `SymbolTable.Symtable.NameIsDeclared` | symtable.c:110-125 | for keywords, types and identifiers: true exactly if the newest declaration of the name was made at this level or above |
| `SymbolTable.Symtable.NewType` | symtable.c:127-141 | the map changes in the type stack of that name only |
| `SymbolTable.Symtable.NewIdent` | symtable.c:143-157 | the map changes in the identifier stack of that name only |
| `SymbolTable.Symtable.AddKeywordName` | symtable.c:159-172 | the map changes in the keyword of that name only; the assertion fails exactly if it has one |
| `SymbolTable.Symtable.AddAllKeywords` | symtable.c:174-217 | the keywords are added one after the other, whatever growth that takes |
| `ScopeStacks.KeywordsFound` | symtable.c:159-217 | keywords can be added exactly if none repeats another or one that is there; afterwards each is found with its class and all else is as before |
| `ScopeStacks.DeclaredNode` | symtable.c:128-157 | a declaration is found on top of its name's stack, with its scope and declaring node, and no other stack changes |
| `SymbolTable.Symtable.PushScope` | symtable.c:18-24 | the level goes up by one and nothing else changes |
| `SymbolTable.Symtable.ScopeDeleteSymbol` | symtable.c:26-38 | removes the head declared at this level; drops everything if the head is an outer one |
| `SymbolTable.Symtable.PopScope` | symtable.c:40-56 | pops all three stacks of every name, and fails exactly if the assertion does for one of them |
| `ScopeStacks.RunSeparates` | build_symtable.c:9-265 | names do not influence each other: a run over declarations and nested scopes succeeds exactly if it does for each name and namespace by itself |
| `ScopeStacks.DropAbove` | symtable.c:40-56 | removing a scope leaves the longest tail that is no deeper than the level |
| `ScopeRules.DropSucceedsIff` | build_symtable.c:9-265 | with a pop that removes the whole scope, a run succeeds exactly if no checked declaration repeats a name declared in the same namespace and scope, over any nesting |
| `ScopeRules.DropRestores` | symtable.c:40-56 | with that pop, leaving a scope restores every name's declarations |
| `ScopeRules.DropDeclared` | symtable.c:110-125 | with that pop, name_is_declared holds exactly for the names that the current scope has declared |
| `ScopeRules.KeepAgrees` | symtable.c:26-38 | returning the symbol itself for an outer head does the same as removing the scope, as long as inner scopes declare a name at most once |
| `ScopeRules.KeepRestoresIff` | symtable.c:26-56 | with that repair, any scope of a program restores a name exactly if nothing in it clashes and it declares the name at most once |
| `ScopeRules.CheckedRun` | symtable.c:26-56 | as written, what a run over checked declarations leaves of a name, and when it finds it redeclared, by what the run declares and where |
| `ScopeRules.CheckedScope` | symtable.c:26-56 | as written, a checked scope keeps an outer name exactly if it and every scope nested in it declare the name, and forgets it otherwise |
| `ScopeRules.PrototypesStay` | build_symtable.c:126-136 | a scope of prototypes leaves all but the newest of its declarations of a name behind, as written and with the repair |
| `ScopeRules.WatchRun` | build_symtable.c:9-265 | as written and with the repair, for every program and name: how many prototypes of left scopes lie on top of a name, whether a declaration of the present scope lies below and on top of what, and when the name is found redeclared |
| `ScopeRules.StaleIff` | build_symtable.c:126-136 | that many prototypes lie on top of a name exactly if from some point on nothing touched it and repeated prototypes outweigh the scopes without it |
| `ScopeRules.WatchWhole` | symtable.c:26-56 | the assertion fails at the end of a scope exactly if two such prototypes lie on top, or a declaration of the scope lies directly on one |
| `ScopeRules.ScopeEnds` | build_symtable.c:9-265 | for all names together, and with unsupported declarations: exactly when a walk reports a redeclaration, when it fails an assertion, and when it is done |
| `ScopeRules.WrittenRestoresIff` | symtable.c:26-56 | as written, any scope of a program restores a name exactly if the name had no declarations, or the scope and every scope nested in it declare it; and if it holds prototypes, none repeats another |
| `ScopeRules.FlatScope` | symtable.c:26-56 | as written, a scope without inner scopes forgets a name that it does not declare, and leaves behind all but the newest of its declarations of one that it does |
| `ScopeRules.WrittenSucceedsIff` | build_symtable.c:9-265 | as written and without repeated prototypes: a redeclaration is reported exactly if some scope declares a name twice and every scope between the two declares it throughout, and no assertion fails |
| `ScopeRules.KeepSucceedsIff` | build_symtable.c:9-265 | with the repair and without repeated prototypes: exactly if some scope declares a name twice |
| `ScopeRules.WrittenAccepts` | build_symtable.c:9-265 | as written and without repeated prototypes, clashes are only ever missed: what should be accepted is accepted |
| `ScopeRules.KeywordsForgotten` | symtable.c:40-56 | as written, leaving any scope forgets every keyword |
| `BuildSymtable.WalkProgram` | build_symtable.c:233-265 | the walk over a program does to the table what the run of its declarations does; on success the scope level is what it was |
| `BuildSymtable.WalkDecl` | build_symtable.c:118-231 | the dispatch over the kinds of declarations |
| `BuildSymtable.WalkLocals` | build_symtable.c:27-52 | a block in a scope of its own, with nested blocks |
| `BuildSymtable.WalkLocalList` | build_symtable.c:9-37 | local declarations, checked in their scope |
| `BuildSymtable.WalkControl` | build_symtable.c:54-74 | the two lists of a control |
| `BuildSymtable.WalkElements` | build_symtable.c:76-98 | the local elements of a parser |
| `BuildSymtable.WalkParser` | build_symtable.c:100-116 | the inner part of a parser |
| `BuildSymtable.WalkIds` | build_symtable.c:126-173 | fields, checked, and method prototypes, unchecked |
| `BuildSymtable.DeclareName` | build_symtable.c:9-25 | the redeclaration check and the declaration |
| `DeclarationRules.ProgramEnds` | build_symtable.c:233-265 | for every program, as written and with the repair: exactly when the walk reports a redeclaration, when it fails an assertion, and when it is done |
| `DeclarationRules.WrittenProgram` | build_symtable.c:233-265 | for every program without repeated prototypes: as written it is rejected exactly if a type is declared twice with no scope in between, or an identifier twice in one scope and in every scope between the two |
| `IdentifierRules.LocalsTwice` | build_symtable.c:9-52 | as written, local declarations are found to repeat an identifier exactly if one of their blocks declares it twice with only blocks in between that, with all their inner blocks, declare it |
| `IdentifierRules.LocalsClash` | build_symtable.c:9-52 | with whole scopes removed, exactly if one of the blocks declares it twice |
| `IdentifierRules.FieldsTwice` | build_symtable.c:153-173 | fields: exactly if one is listed twice, either way |
| `IdentifierRules.ElementsTwice` | build_symtable.c:76-98 | parser elements: exactly if one is listed twice, either way |
| `IdentifierRules.IdentProgram` | build_symtable.c:233-265 | over the syntax tree of any program: which identifiers count as repeated, as written and with whole scopes removed |
| `IdentifierRules.DroppedProgram` | build_symtable.c:233-265 | with whole scopes removed, for every program: rejected exactly if a type is declared twice, or an identifier twice at the top or in one control, block, field list or element list, before any unknown node; accepted exactly if there is neither |
| `IdentifierRules.WrittenTree` | build_symtable.c:233-265 | as written, for every program without repeated methods: the same for repetitions with only scopes in between that declare the name throughout; for types, with none |
| `IdentifierRules.ProgramNodes` | build_symtable.c:233-265 | with whole scopes removed, the table at the end of a program holds for every name the nodes that declare it at the top, newest first |
| `IdentifierRules.ListNodes` | build_symtable.c:27-52 | the same at the end of a list of local declarations, fields, prototypes or parser elements |
| `DeclarationRules.WrittenFinds` | build_symtable.c:233-265 | for every program: as written the walk finds a type redeclared exactly if no scope was entered and left between two of its declarations, and such a program is rejected |
| `DeclarationRules.ShouldFind` | build_symtable.c:233-265 | for every program: with whole scopes removed the walk finds a type redeclared exactly if it is declared twice, and such a program is rejected |
| `DeclarationRules.DuplicateMissed` | build_symtable.c:175-188 | a program with two structures of one name is walked to its end as written, but not with whole scopes removed |
| `DeclarationRules.ConstantRejectedIff` | build_symtable.c:126-151 | for every program: a constant behind it is rejected exactly if its name was declared there, or repeated prototypes of the name outweigh the scopes without it since something last touched it |
| `DeclarationRules.OverloadGoesStale` | build_symtable.c:126-151 | a program with an overloaded method and a constant of the method's name is rejected as written and with the repair, although nothing repeats |
| `DeclarationRules.OverloadsAbort` | build_symtable.c:126-151 | no program that ends in an external object with three methods of one name is walked to its end |
| `DeclarationRules.ThreeOverloads` | symtable.c:26-38 | the program of one external object with three methods of one name fails the assertion of scope_delete_symbol as written and with the repair, and is accepted with whole scopes removed |
| `Lexer.ParseInteger` | lex.c:127-144 | the loop computes the value of the digits, underscores skipped |
| `Spellings.DigitIs` | lex.c:109-125 | a digit of a base stands for its place in `0123456789abcdef`, in either case |
| `Spellings.DigitsAre` | lex.c:109-125 | and each of those places below the base has that digit, in either case |
| `Spellings.CaseIsNoMatter` | lex.c:109-144 | a hexadecimal number has the value of its lower case form |
| `Lexer.Lexer.CharAdvance` | lex.c:19-42 | moves by n characters, or fails exactly if that leaves the text |
| `Lexer.Lexer.AdvanceWhile` | lex.c:440-495 | moves over the longest run of a class of characters, at least one |
| `Lexer.Lexer.Start` | lex.c:175-245 | state 1 skips white space and picks the state for the first character |
| `Lexer.Lexer.Operator` | lex.c:278-308 | operators of up to three characters |
| `Lexer.Lexer.MinusSign` | lex.c:396-407 | a minus is a sign exactly if the token before it is `(` |
| `Lexer.Lexer.SlashSign` | lex.c:425-438 | a slash, or the start of a comment |
| `Lexer.Lexer.Quoted` | lex.c:513-529 | a string ends at the first quote or backslash |
| `Lexer.Lexer.InBlock` | lex.c:544-565 | a block comment ends at the first star with a slash behind it |
| `Lexer.Lexer.InLine` | lex.c:567-577 | a line comment needs a line end |
| `Lexer.Lexer.ChooseBase` | lex.c:579-598 | the base of an integer without a width |
| `Lexer.Lexer.InDecimal` | lex.c:600-628 | a decimal integer, or the width of another |
| `Lexer.Lexer.ChooseSizedBase` | lex.c:684-703 | the base of an integer with a width |
| `Lexer.Lexer.InDigits` | lex.c:630-767 | the digits of an integer in any base |
| `Lexer.Lexer.InIdentifier` | lex.c:769-779 | identifiers |
| `Lexer.Lexer.Step` | lex.c:165-783 | one round of the state loop keeps what the text means from here on, and either moves on or lowers the state's rank, so the loop ends |
| `Lexer.Lexer.NextToken` | lex.c:165-783 | the state machine with its window computes the lexeme of the declarative rules, from white space to the window's end, or fails exactly if they do |
| `Lexer.LexTokenize` | lex.c:785-810 | the token list between the two markers |
| `LexTheorems.Tiling` | lex.c:44-49 | for every text the windows of the lexemes are consecutive, do not overlap and leave nothing but white space between them |
| `LexTheorems.TilesRebuild` | lex.c:44-49 | windows and gaps rebuild the text that was consumed |
| `LexTheorems.TokensOfLexemes` | lex.c:785-810 | an accepted text gives one token a window, and nothing but white space is left behind the last one |
| `LexTheorems.LongestOperator` | lex.c:247-495 | an operator's window holds its spelling, and no longer text from its start is one |
| `Spellings.SpellingLexes` | lex.c:189-510 | each of the 32 operators and marks, listed with its class, written anywhere with a blank behind it, is one token of that class; a minus right behind `(` is a sign |
| `Spellings.TokenIsSpelled` | lex.c:189-510 | every token that is no name, number, string or comment has the spelling listed for its class |
| `Spellings.NameLexes` | lex.c:769-783 | every name, written anywhere with a blank behind it, is one token |
| `Spellings.BlankIsSkipped` | lex.c:175-187 | blanks, tabulators and line ends are skipped, and nothing else |
| `Spellings.BlockCommentLexes` | lex.c:544-565 | a block comment reaches to the first star with a slash behind it |
| `Spellings.LineCommentLexes` | lex.c:567-577 | a line comment reaches to the next line end |
| `Spellings.EscapeLexes` | lex.c:52-76 | a string that meets a backslash ends there in the character that is escaped |
| `LexTheorems.OperatorOrNot` | lex.c:175-245 | which texts are lexed as operators |
| `LexTheorems.LongestIdentifier` | lex.c:769-779 | an identifier's window is one, and no longer text from its start is |
| `IntegerLiterals.ValueIsPositional` | lex.c:109-144 | for every digit string and base, the value computed from the left is the positional value |
| `IntegerLiterals.ValueOfLiteral` | lex.c:127-144 | with underscores, it is the positional value of the digits without them |
| `IntegerLiterals.NumberRoundTrip` | lex.c:109-144 | printing any number in base 2, 8, 10 or 16 and reading the digits gives it back |
| `IntegerLiterals.LiteralLexes` | lex.c:579-767 | every literal, of any base, width and signedness, with underscores, is lexed as one token with its value, width and sign |
| `Spellings.NumberLexes` | lex.c:579-684 | a number without a width is read in the base of its prefix: `0x`, `0o`, `0b`, in either case, or none |
| `Spellings.SizedLexes` | lex.c:600-768 | with a width: `w` makes it unsigned, `s` signed |
| `IntegerLiterals.NumberIsLiteral` | lex.c:579-767 | conversely, whatever is lexed as an integer is a literal with its value, width and sign, and no longer text from its start is one |
| `Relex.WrittenWordsLex` | lex.c:785-810 | writing any sequence of words with blanks between them and lexing the text gives their tokens, with classes, values and the two markers |
| `Relex.Respell` | lex.c:785-810 | every accepted text without comments and backslashes can be written as such words, and that text has the same tokens |
| `Relex.LexedSigns` | lex.c:396-407 | in every accepted text a sign stands right behind `(` and a minus never does |
| `Relex.CommentHidesSign` | lex.c:396-407 | a comment between `(` and `-` takes the sign away |
| `Relex.ParenthesisMakesSign` | lex.c:396-407 | without the comment it is a sign |
| `TextRoundTrip.WrittenView` | build_ast.c:44-72 | lexing the written tokens and looking names up gives the builders exactly the tokens written |
| `TextRoundTrip.TextToTree` | build_ast.c:2752-2820 | from tree to text to tree: any tree that has a spelling and whose own tokens can be written, printed, written down, lexed, looked up and parsed, is that tree again |
| `TextRoundTrip.TextParsePrint` | build_ast.c:2752-2820 | from text to text: an accepted text without comments and backslashed strings, parsed and printed, can be written down again with no more words, and that text parses to the same tree |
| `TreeTokens.StripToken` | build_ast.c:2629-2650 | a tree and the tree without its groups spell the same tokens but for parentheses |
| `TreeTokens.ExprEndFree` | build_ast.c:2593-2820 | no tree that is parsed spells the end of the input |
| `TextRoundTrip.LexedMinusOk` | lex.c:396-407 | what the lexer delivers obeys the rule about minus signs that printing and parsing rely on |
| `AttributeTable.AstNode.GetAttr` | ast.c:37-52 | the value that was set last for the name, or null |
| `AttributeTable.AstNode.SetAttr` | ast.c:54-75 | the last value wins and no other name changes; the assertion fails exactly if the name is new and fifteen are there |
| `AttributeTable.AstNode.ListingIsAll` | ast.c:84-114 | the attributes in the order of the buckets: each once, as many as were counted |
| `AttributeTable.AstNode.ListingShows` | ast.c:84-114 | that listing shows exactly the map from names to values |
| `AttributeTable.AttributeIterator.constructor` | ast.c:84-96 | the iterator starts at the first attribute of the listing, at null if there is none |
| `AttributeTable.AttributeIterator.GetNext` | ast.c:98-114 | it goes on to the next attribute of the listing, and stays at null behind the last |
| `AttributeTable.VisitAll` | print_ast.c:384-384 | a run of the iterator until null visits every attribute of the node, each once |

## Left out

- The builders of declarations, statements and the program in `build_ast.c`: long list builders around the same cursor.
- The trees' nodes as attribute tables: the builders return tree values; `AttributeTable` proves the table they are kept in on its own. Node numbers and line numbers.
- The sibling lists of tree nodes (`ast_list_append_link`): argument lists are sequences.
- The branch for named arguments in `build_argument`, which no token list reaches because the expression builder takes the `=` itself.
- The name recorded for the primary `error`: the code takes the text of the token behind it.
- AstBuilder.BuildTypeSize: an expression as width is built as the code does, although no type with one is ever accepted.
- Back links between block descriptors (`prev_block`): written in the model as in the code, but nothing is proved about them, because nothing reads them.
- Operating system calls in `init_memory` (`mmap`, `mprotect`, `getpagesize`): the reserved memory is any number of pages of any size that holds two descriptors.
- ArenaModel.Push: sizes are unbounded integers; only the mask that rounds them up is modelled on 32 bits, in `MaskRoundsUp`. A push asks for at least one byte.
- ArenaRuns.RunLosesNoDescriptor: counts descriptors, which have no names in the value model; which of them is in which list is what `PageAllocator.Memory.Valid` says of the heap.
- SegmentedArray.FloorLog2: exact, where the code uses floating point.
- The arenas behind symbol table, arrays and trees: their objects are objects of the heap, so running out of memory there is not modelled.
- SymbolTable.Symtable.Grow: the bucket array is a sequence, `SegmentedArray` proves the array on its own; the temporary buffer, which the code requests in bytes instead of entries, holds every entry.
- SymbolTable.Symtable.GetSymtableEntry: asks for room below the 2^24 - 1 buckets that the array can hold.
- The links between symbols of one stack: stacks are sequences, newest first.
- SymbolTable.Symtable.AddAllKeywords: for any list of keywords, not only the 40 of the code.
- Lexer.ParseInteger: values are unbounded; the code's `int` holds those below 2^31.
- TextRoundTrip.TextToTree: asks that the tree's own tokens have words; an identifier spelled like a keyword, for one, has none.
- Escapes in strings behind the first backslash, which the state machine never reaches, and the texts of comments. Line counting. A zero character in the text ends it, as in C.
- Relex.Respell: for texts whose lexemes are no comments and no strings with a backslash.
- File reading, the command line and printing (`ashp4c.c`, `print_ast.c`); `arena_get_usage` and `ast_delattr`, which are stubs; everything under `ebpf/`.
