# CFG parser generator, modelled in Dafny

The program reads a context-free grammar and builds the data a parser
generator needs. It has two grammar representations and an SLR(1) generator:

- **Multi-character grammar** (`ContextFreeGrammar2`). Every symbol text is
  interned in a reference table and given an integer reference. The table is
  three bijective `TwoWayDictionary` maps: unsorted, terminals and
  non-terminals. Productions map a left-hand-side reference to a set of
  (sequence number, handle) pairs. An unspaced handle is cut into symbols
  by bracketing known texts, longest first, with the markers ˁ and ˀ.
  Left factoring bubble-sorts the rules and scans each left-hand side for
  runs with a common prefix. Each run is moved under a fresh non-terminal
  `A'`.
- **Single-character grammar** (`ContextFreeGrammar`). Every symbol is one
  character. It computes FIRST sets by recursion and FOLLOW sets by a
  right-to-left carry, each repeated to a fixpoint, and numbers every
  production.
- **SLR(1) generator** (`SimpleLR`). It builds the LR(0) item sets with
  closure and goto, and deduplicates them into the canonical collection. It
  then fills the action/goto table: shift, goto, reduce and accept cells.

One module per component:

- `wrappers.dfy` (`Wrappers`): `Option` and two lemmas about choosing from a set.
- `two_way_dictionary.dfy` (`TwoWay`): the bijective dictionary as a class
  over two maps.
- `multi_value_dictionary.dfy` (`MultiValue`): the key-to-set dictionary.
- `symbol_table.dfy` (`SymbolTable`): the reference table. It is a class
  over three `TwoWayDictionary` objects. It is specified through a value
  snapshot of its six maps (`Tables`).
- `lexing.dfy` (`Lexing`): the marker scan, `IndexOfUnmarked`, the split at
  markers.
- `productions.dfy` (`GrammarProductions`): the production store, `Lex` and
  `Resolve`.
- `left_factoring.dfy` (`LeftFactoring`): the comparison, the common prefix,
  the rewrite of one run, and the scan as written and corrected.
- `left_factor_passes.dfy` (`LeftFactorPasses`): listing, bubble sort, the
  scan over each left-hand side, and the passes.
- `context_free_grammar.dfy` (`CharGrammar`): the single-character grammar.
  It covers production numbering, FIRST, FOLLOW and classification.
- `simple_lr.dfy` (`SimpleLR`): items, closure, goto, the canonical
  collection, and the `Actions` table over an `array2<Cell>`.

The code's loops and in-place updates are kept as methods with loop
invariants. Each method is proved against a function or predicate that
states what it computes. The main properties proved:

- the reference table stays three bijections over disjoint references;
- `Lookup(int)` and `Lookup(string)` undo each other;
- lexing only brackets text, so resolving the tokens spells the handle;
- every added production gets a fresh sequence number;
- a factored run still spells each of its handles;
- a left-factoring pass is the chain of its groups' factorings, and a
  pass that factors nothing leaves, in every group, shared prefixes only in
  the last stretch;
- the FIRST and FOLLOW loops end in closed sets, and the FOLLOW sets are the
  least such sets;
- the closure is the least closed superset of its input;
- the canonical collection has distinct, consecutively numbered states and
  is closed under goto;
- every table cell is empty exactly when no item asks for it, and otherwise
  holds one of the cells asked for.

## Model

| member | source | states |
|---|---|---|
| `TwoWay.TwoWayDictionary.constructor` | CFG/TwoWayDictionary.cs:10-11 | Both maps start empty, so the pair is a bijection. |
| `TwoWay.TwoWayDictionary.Add` | CFG/TwoWayDictionary.cs:13-16 | Adds one ↦ two forward and two ↦ one backward. Both keys must be new, because the .NET `Add` throws on a duplicate. The bijection is kept. |
| `TwoWay.TwoWayDictionary.Remove` | CFG/TwoWayDictionary.cs:18-22 | Removes key2 from backward, and key1 from forward only if that worked. Returns true iff both were present. With a matching pair, or an absent key2, the bijection is kept. |
| `TwoWay.TwoWayDictionary.ForwardSearch` | CFG/TwoWayDictionary.cs:24-26 | Finds a value iff the key is a forward key; the value is the mapped one. Under the invariant, the backward map sends it back to the key. |
| `TwoWay.TwoWayDictionary.BackwardSearch` | CFG/TwoWayDictionary.cs:28-30 | The same for the backward map. |
| `TwoWay.TwoWayDictionary.ContainsForwardKey` | CFG/TwoWayDictionary.cs:39-41 | Exact membership in the forward map; a present key's value is a backward key. |
| `TwoWay.TwoWayDictionary.ContainsBackwardKey` | CFG/TwoWayDictionary.cs:43-45 | Exact membership in the backward map; a present key's value is a forward key. |
| `TwoWay.TwoWayDictionary.GetForwardKeys` | CFG/TwoWayDictionary.cs:32-34 | The forward keys; under the invariant, exactly the backward values. |
| `TwoWay.TwoWayDictionary.GetForwardValues` | CFG/TwoWayDictionary.cs:35-37 | The forward values; under the invariant, exactly the backward keys. |
| `TwoWay.TwoWayDictionary.GetBackwardKeys` | CFG/TwoWayDictionary.cs:47-49 | The backward keys; under the invariant, exactly the forward values. |
| `TwoWay.TwoWayDictionary.GetBackwardValues` | CFG/TwoWayDictionary.cs:50-52 | The backward values; under the invariant, exactly the forward keys. |
| `MultiValue.MultiValueDictionary.constructor` | CFG/MultiValueDictionary.cs:9 | Starts with no keys. |
| `MultiValue.MultiValueDictionary.Get` | CFG/MultiValueDictionary.cs:11-12 | The indexer getter returns the key's set; the key must be present. |
| `MultiValue.MultiValueDictionary.Set` | CFG/MultiValueDictionary.cs:13 | The indexer setter replaces the key's set wholesale. |
| `MultiValue.MultiValueDictionary.Add` | CFG/MultiValueDictionary.cs:16-24 | The key's set becomes its old set (empty if absent) plus the value. Every other key keeps its presence and its set. |
| `MultiValue.MultiValueDictionary.Remove` | CFG/MultiValueDictionary.cs:26-28 | Deletes the key and returns true iff it was present. |
| `MultiValue.MultiValueDictionary.TryGetValue` | CFG/MultiValueDictionary.cs:30-34 | Yields a set iff the key is present, and then it is the key's set. |
| `MultiValue.MultiValueDictionary.ContainsKey` | CFG/MultiValueDictionary.cs:36-38 | Exact key membership. |
| `MultiValue.AddThenContains` | CFG/MultiValueDictionary.cs:16-38 | After `Add(k, v)`, `ContainsKey(k)` answers true and k's set holds v. |
| `SymbolTable.SortByLengthDescending` | CFG/ContextFreeGrammar2.cs:78 | The sort by descending length gives a permutation of its input, longest text first. |
| `SymbolTable.Enumerate` | CFG/ContextFreeGrammar2.cs:76 | Converting a key collection to an array lists every key exactly once. |
| `SymbolTable.InitialTablesValid` | CFG/ContextFreeGrammar2.cs:18-22 | The fresh tables hold ε = 1 and $ = 2 as terminals and Θ = 3 as a non-terminal. They are valid with next reference 4, and no text is in two tables. |
| `SymbolTable.RegisteredShape` | CFG/ContextFreeGrammar2.cs:24-27 | Registering n symbols puts the k-th under reference start + k. It adds exactly those references and texts and changes nothing else. |
| `SymbolTable.RegisteredFresh` | CFG/ContextFreeGrammar2.cs:24-27 | While registering, every reference is below the next counter value, so none is reused. Later texts are not yet present. |
| `SymbolTable.RegisteredKeepsSorted` | CFG/ContextFreeGrammar2.cs:24-27 | Registration leaves the terminal and non-terminal tables alone. |
| `SymbolTable.RegisteredInverse` | CFG/ContextFreeGrammar2.cs:24-27 | Registering distinct new texts keeps the unsorted table a bijection. |
| `SymbolTable.RegisteredValid` | CFG/ContextFreeGrammar2.cs:24-27 | Registering distinct new texts keeps the whole table valid, with the counter advanced by their number. |
| `SymbolTable.RegisteredDisjoint` | CFG/ContextFreeGrammar2.cs:24-27 | Registering texts unknown to every table keeps the three tables' texts apart. |
| `SymbolTable.AddKeepsValid` | CFG/ContextFreeGrammar2.cs:29-39 | A new text under the next reference keeps the tables valid and disjoint, in either sorted table. |
| `SymbolTable.MoveKeepsValid` | CFG/ContextFreeGrammar2.cs:83-121 | Moving an unsorted symbol to a table that lacks its text keeps the tables valid. |
| `SymbolTable.MoveKeepsDisjoint` | CFG/ContextFreeGrammar2.cs:83-121 | A move keeps the texts of the tables disjoint. |
| `SymbolTable.MoveKeepsLookups` | CFG/ContextFreeGrammar2.cs:83-121 | A move keeps the sets of references and texts, and what every reference looks up to. |
| `SymbolTable.ReferenceTable.constructor` | CFG/ContextFreeGrammar2.cs:18-22 | The new table is valid: ε = 1, $ = 2 and Θ = 3, with the counter at 4. |
| `SymbolTable.ReferenceTable.Reserve` | CFG/ContextFreeGrammar2.cs:19-21 | The three reserved registrations give exactly the initial tables. |
| `SymbolTable.ReferenceTable.MakeInitialReferences` | CFG/ContextFreeGrammar2.cs:24-27 | Each symbol is registered as unsorted under the next reference. The counter rises by their number and the table stays valid. |
| `SymbolTable.ReferenceTable.Register` | CFG/ContextFreeGrammar2.cs:26 | The registration loop yields `Registered(...)` of the old tables. |
| `SymbolTable.ReferenceTable.AddTerminal` | CFG/ContextFreeGrammar2.cs:29-33 | Returns true iff the text is in no table. Then the text becomes a terminal under the old counter, which increments. Otherwise nothing changes. |
| `SymbolTable.ReferenceTable.AddNonTerminal` | CFG/ContextFreeGrammar2.cs:35-39 | The same for the non-terminal table. |
| `SymbolTable.ReferenceTable.Lookup` | CFG/ContextFreeGrammar2.cs:41-56 | The text of a reference, searched in unsorted, then terminals, then non-terminals; "" when the reference is unknown. |
| `SymbolTable.ReferenceTable.LookupSymbol` | CFG/ContextFreeGrammar2.cs:58-73 | The reference of a text, searched in the same order; 0 when the text is unknown. |
| `SymbolTable.ReferenceTable.GetLexingArray` | CFG/ContextFreeGrammar2.cs:75-80 | Every known text from all three tables, exactly once, longest first. |
| `SymbolTable.ReferenceTable.SortAsNonTerminal` | CFG/ContextFreeGrammar2.cs:83-91 | Throws iff the reference is unsorted and its text is already a non-terminal. Succeeds iff it is unsorted and does not throw, and then moves it with its text to the non-terminals. Otherwise nothing changes. |
| `SymbolTable.ReferenceTable.SortAsNonTerminalSymbol` | CFG/ContextFreeGrammar2.cs:93-101 | The same, with the symbol found by its text. |
| `SymbolTable.ReferenceTable.SortAsTerminal` | CFG/ContextFreeGrammar2.cs:103-111 | Throws iff the reference is unsorted and its text is already a terminal (a declared "ε" or "$"). Succeeds iff it is unsorted and does not throw, and then moves it with its text to the terminals. Otherwise nothing changes. |
| `SymbolTable.ReferenceTable.SortAsTerminalSymbol` | CFG/ContextFreeGrammar2.cs:113-121 | The same, with the symbol found by its text. |
| `SymbolTable.ReferenceTable.TransferToTerminals` | CFG/ContextFreeGrammar2.cs:107-108 | Remove-then-Add throws iff the text is already a terminal, and otherwise succeeds and is exactly the move to the terminals. |
| `SymbolTable.ReferenceTable.TransferToNonTerminals` | CFG/ContextFreeGrammar2.cs:87-88 | Remove-then-Add throws iff the text is already a non-terminal, and otherwise succeeds and is exactly the move to the non-terminals. |
| `SymbolTable.ReferenceTable.GetUnsorted` | CFG/ContextFreeGrammar2.cs:123-125 | The unsorted map from references to texts. |
| `SymbolTable.ReferenceTable.GetNonTerminals` | CFG/ContextFreeGrammar2.cs:127-129 | The non-terminal texts. |
| `SymbolTable.ReferenceTable.GetNonTerminalReferences` | CFG/ContextFreeGrammar2.cs:131-133 | The non-terminal references. |
| `SymbolTable.ReferenceTable.GetTerminals` | CFG/ContextFreeGrammar2.cs:135-137 | The terminal texts. |
| `SymbolTable.ReferenceTable.GetTerminalReferences` | CFG/ContextFreeGrammar2.cs:139-141 | The terminal references. |
| `SymbolTable.ReferenceTable.GetSymbols` | CFG/ContextFreeGrammar2.cs:143-145 | Terminal and non-terminal texts; unsorted ones are excluded. |
| `SymbolTable.ReferenceTable.GetSymbolReferences` | CFG/ContextFreeGrammar2.cs:147-149 | Terminal and non-terminal references. |
| `SymbolTable.SortableUnderDisjointTexts` | CFG/ContextFreeGrammar2.cs:85-88 | With no text in two tables, an unsorted symbol's text is absent from both sorted tables. So the `Add` inside a move cannot throw. |
| `SymbolTable.LookupInverse` | CFG/ContextFreeGrammar2.cs:41-73 | For a registered reference, `Lookup(Lookup(r)) == r`. |
| `SymbolTable.LookupSymbolInverse` | CFG/ContextFreeGrammar2.cs:41-73 | For a registered text, `Lookup(Lookup(s)) == s`. |
| `SymbolTable.LookupUnknown` | CFG/ContextFreeGrammar2.cs:41-73 | Unknown texts look up to 0 and unknown references to ""; 0 is never a reference. |
| `Lexing.RemoveMarkers` | CFG/ContextFreeGrammar2.cs:293 | Deleting the markers leaves a marker-free text no longer than the input. A marker-free text is unchanged. |
| `Lexing.Split` | CFG/ContextFreeGrammar2.cs:293 | The split at ˁ and ˀ without empty entries gives non-empty, marker-free tokens. Concatenated, they spell the input with its markers removed. |
| `Lexing.SplitSpelling` | CFG/ContextFreeGrammar2.cs:293 | The tokens spell the pending text followed by the marker-free input. |
| `Lexing.SplitTokens` | CFG/ContextFreeGrammar2.cs:293 | Every token of the split is non-empty and marker-free. |
| `Lexing.Mark` | CFG/ContextFreeGrammar2.cs:287-288 | Inserting ˀ after a match and then ˁ before it adds exactly two characters. |
| `Lexing.MarkShrinksCandidates` | CFG/ContextFreeGrammar2.cs:286-289 | Bracketing an unmarked match removes that many candidate positions and keeps the text. So the marking loop ends. |
| `Lexing.ScanThree` | CFG/ContextFreeGrammar2.cs:323-339 | How the bracket scan and marker removal split over a three-part text. |
| `Lexing.BracketScan` | CFG/ContextFreeGrammar2.cs:327-334 | A bracketed text offers no candidate position and leaves the scan outside every bracket. |
| `Lexing.IndexOfUnmarked` | CFG/ContextFreeGrammar2.cs:323-339 | Returns -1 iff the substring occurs at no position outside every ˁ…ˀ span. Otherwise it returns such a position, and no later one exists: the last match, as the code overwrites `index`. |
| `GrammarProductions.ResolveTokens` | CFG/ContextFreeGrammar2.cs:293-295 | Tokens that were all found in the table resolve back to their concatenation. |
| `GrammarProductions.NumberedFrom` | CFG/ContextFreeGrammar2.cs:272 | The handles are tagged with consecutive numbers from the start, each in its position. |
| `GrammarProductions.NumberingExtends` | CFG/ContextFreeGrammar2.cs:272 | Rules numbered from the counter on keep every sequence number unique and below the counter. |
| `GrammarProductions.Productions.constructor` | CFG/ContextFreeGrammar2.cs:170-172 | No rules, with the sequence number at 0. |
| `GrammarProductions.Productions.AddProduction` | CFG/ContextFreeGrammar2.cs:198-216 | The lhs keeps its rules and gains the handle under the old sequence number, which increments. The symbol table changes only by moving an unsorted lhs to the non-terminals (`Move`); the reference counter is unchanged. A handle new for the lhs is then found by `GetSequenceNumber` under that number; a repeated one makes it find none. |
| `GrammarProductions.Productions.AddProductions` | CFG/ContextFreeGrammar2.cs:254-274 | The same, for many handles numbered consecutively in order, with the same symbol-table frame. |
| `GrammarProductions.Productions.StoreHandles` | CFG/ContextFreeGrammar2.cs:265-273 | The merge-remove-add sequence keeps the old rules and adds the numbered handles. Numbers stay unique. |
| `GrammarProductions.Productions.TakeRules` | CFG/ContextFreeGrammar2.cs:266-269 | Returns the lhs's rules and removes its entry. |
| `GrammarProductions.Productions.NumberHandles` | CFG/ContextFreeGrammar2.cs:272 | Tags each handle with the next sequence number. |
| `GrammarProductions.Productions.PutRules` | CFG/ContextFreeGrammar2.cs:273 | Stores the set as the lhs's rules. |
| `GrammarProductions.Productions.AddProductionText` | CFG/ContextFreeGrammar2.cs:175-196 | Adds the lexed handle under the looked-up lhs with the next number. The symbol table changes only by moving that lhs out of the unsorted symbols. A handle whose tokens are all known resolves back to its text. |
| `GrammarProductions.Productions.AddProductionsText` | CFG/ContextFreeGrammar2.cs:219-244 | The same, for many texts numbered in order, with the same symbol-table frame. |
| `GrammarProductions.Productions.RemoveProduction` | CFG/ContextFreeGrammar2.cs:250-252 | Removes exactly that stored rule, by identity rather than contents, and nothing else. |
| `GrammarProductions.Productions.RemoveProductionOfHandle` | CFG/ContextFreeGrammar2.cs:246-248 | Removes the rule from a left-hand side whose rules hold its handle contents. |
| `GrammarProductions.Productions.GetLHS` | CFG/ContextFreeGrammar2.cs:342-349 | A left-hand side with a rule of these handle contents when one exists, else -1. |
| `GrammarProductions.Productions.GetSequenceNumber` | CFG/ContextFreeGrammar2.cs:351-353 | A number iff the lhs has exactly one rule with these contents, and then that rule's number; no number (the source throws) when the lhs is missing, nothing matches, or two rules match. |
| `GrammarProductions.SingleMatch` | CFG/ContextFreeGrammar2.cs:352 | `.Single()`'s condition: the matching rules number one iff some rule matches and every matching rule is that one. |
| `GrammarProductions.Productions.GetAllRules` | CFG/ContextFreeGrammar2.cs:359-363 | Exactly the (lhs, rule) pairs of the store. |
| `GrammarProductions.Productions.Resolve` | CFG/ContextFreeGrammar2.cs:300-304 | The concatenation of the texts of the references. |
| `GrammarProductions.Productions.Lex` | CFG/ContextFreeGrammar2.cs:279-298 | The tokens are non-empty and marker-free and spell the handle. Each reference is the token's lookup. When all are known, resolving gives the handle back. |
| `LeftFactoring.CompareIntegerArray` | CFG/ContextFreeGrammar2.cs:426-433 | True iff the first handle sorts before the second: at the first position where they differ, the first has the smaller reference (the `Before` order). |
| `LeftFactoring.LongestCommonPrefix` | CFG/ContextFreeGrammar2.cs:435-439 | A prefix of both sequences that cannot be extended: it ends one of them or the next elements differ. |
| `LeftFactoring.CommonPrefixIsLongest` | CFG/ContextFreeGrammar2.cs:435-439 | Every common prefix is a prefix of it. |
| `LeftFactoring.CommonPrefixUnique` | CFG/ContextFreeGrammar2.cs:435-439 | A common prefix that cannot be extended is it. |
| `LeftFactoring.CommonPrefix` | CFG/ContextFreeGrammar2.cs:435-439 | The index loop computes the longest common prefix. |
| `LeftFactoring.Erase` | CFG/ContextFreeGrammar2.cs:536 | Dropping ε references leaves none and does not lengthen the handle. |
| `LeftFactoring.TailRejoins` | CFG/ContextFreeGrammar2.cs:531-537 | The carried prefix followed by a handle's tail (or ε) spells the handle again, up to ε. |
| `LeftFactoring.Factored` | CFG/ContextFreeGrammar2.cs:519-538 | The store after factoring one run has entries for both the lhs and the fresh non-terminal. |
| `LeftFactoring.FactoredSpellsRun` | CFG/ContextFreeGrammar2.cs:515-538 | A run sharing the carried prefix is factored as follows. The lhs loses the run's rules and gains carry·N'. N' gains each tail, numbered in order, and carry·tail spells the removed handle. Other left-hand sides are untouched. |
| `LeftFactoring.CorrectedRunsShareCarry` | CFG/ContextFreeGrammar2.cs:501-547 | Every run the corrected scan factors lies inside its group and has two handles or more. Each handle starts with the carried prefix. |
| `LeftFactoring.EarlyBreakStays` | CFG/ContextFreeGrammar2.cs:506-547 | Once a shared-prefix pair is followed by a handle outside its run, no later handle repairs that. |
| `LeftFactoring.QuietStepClosed` | CFG/ContextFreeGrammar2.cs:506-547 | With no run open, the next handle opens one with the last handle or leaves the scan without factorings. |
| `LeftFactoring.QuietStepOpen` | CFG/ContextFreeGrammar2.cs:506-547 | With a run open, the next handle joins it, or closes it, and closing happens iff the handle breaks `OnlyLastRun`. |
| `LeftFactoring.QuietIffOnlyLastRun` | CFG/ContextFreeGrammar2.cs:506-547 | The corrected scan closes no run in a group iff the only neighbours with a common prefix form its last stretch (both directions). |
| `LeftFactoring.ExampleSettled` | CFG/ContextFreeGrammar2.cs:485-496 | The example group is in the order the bubble sort leaves. |
| `LeftFactoring.AsWrittenFirstThree` | CFG/ContextFreeGrammar2.cs:506-547 | The scan as written, after abx, aby, ac: carry a, count 2, nothing factored yet. |
| `LeftFactoring.AsWrittenExample` | CFG/ContextFreeGrammar2.cs:506-547 | On the example, the scan as written factors one run: handles 1-4 under carry ac. |
| `LeftFactoring.AsWrittenRewritesForeignHandle` | CFG/ContextFreeGrammar2.cs:509-537 | That run includes aby, which does not start with ac. Its rewritten form ac·y no longer spells aby. |
| `LeftFactoring.CorrectedFirstThree` | CFG/ContextFreeGrammar2.cs:506-547 | The corrected scan after abx, aby, ac: carry a, count 3. |
| `LeftFactoring.CorrectedFactorsWholeRun` | CFG/ContextFreeGrammar2.cs:506-547 | On the example, the corrected scan factors the five handles that start with a, under carry a. |
| `LeftFactoring.MintNonTerminal` | CFG/ContextFreeGrammar2.cs:515-518 | Registers the first of `A'`, `A''`, … that is not yet a symbol, as a non-terminal under the next reference. Every shorter candidate was taken. |
| `LeftFactoring.RemoveRun` | CFG/ContextFreeGrammar2.cs:519-525 | The lhs loses exactly the run's rules. |
| `LeftFactoring.TailsAddedStep` | CFG/ContextFreeGrammar2.cs:531-538 | Adding the next tail extends the added-so-far state by one. |
| `LeftFactoring.AddNext` | CFG/ContextFreeGrammar2.cs:537 | One AddProduction of a tail, numbered next. |
| `LeftFactoring.AddTails` | CFG/ContextFreeGrammar2.cs:531-538 | N' gains the tails numbered consecutively from the counter. |
| `LeftFactoring.EpsilonIsOne` | CFG/ContextFreeGrammar2.cs:536 | `Lookup("ε")` is reference 1. |
| `LeftFactoring.NewNonTerminal` | CFG/ContextFreeGrammar2.cs:515-518 | The fresh reference is the old counter. Its text starts with the lhs text followed by a prime and was not known before. |
| `LeftFactoring.RewriteRun` | CFG/ContextFreeGrammar2.cs:519-538 | The store becomes `Factored(...)` of the old one, and the counter rises by one plus the run length. |
| `LeftFactoring.AddFactored` | CFG/ContextFreeGrammar2.cs:527-538 | Adds lhs → carry·N', then N' → each tail. |
| `LeftFactoring.FactorRun` | CFG/ContextFreeGrammar2.cs:515-538 | One factoring step: a fresh N' named after the lhs, with the store as `Factored(...)`. |
| `LeftFactorPasses.AppendEntry` | CFG/ContextFreeGrammar2.cs:359-363 | Appending a new entry of the last (or a new) lhs keeps the listing distinct and grouped. |
| `LeftFactorPasses.AppendRulesOf` | CFG/ContextFreeGrammar2.cs:359-363 | Appends exactly the rules of one lhs, keeping the listing distinct and grouped. |
| `LeftFactorPasses.RulesArray` | CFG/ContextFreeGrammar2.cs:477 | An array holding every rule once, with each lhs's rules together. |
| `LeftFactorPasses.SwapDown` | CFG/ContextFreeGrammar2.cs:489-491 | Exchanges two neighbours of the same lhs: a permutation that keeps each position's lhs. |
| `LeftFactorPasses.BubblePass` | CFG/ContextFreeGrammar2.cs:486-495 | One sweep is a permutation that keeps each position's lhs. With no swap, no neighbouring pair is out of order. |
| `LeftFactorPasses.SortRules` | CFG/ContextFreeGrammar2.cs:485-496 | The bubble sort permutes within each lhs. When it stops early, no neighbouring pair is out of order. |
| `LeftFactorPasses.Handles` | CFG/ContextFreeGrammar2.cs:503-507 | The handles of a listing, in order. |
| `LeftFactorPasses.RunRules` | CFG/ContextFreeGrammar2.cs:519-525 | The rules of a listing, in order. |
| `LeftFactorPasses.FactorOne` | CFG/ContextFreeGrammar2.cs:515-538 | One factoring takes one reference and 1 + run-length sequence numbers. |
| `LeftFactorPasses.TraceRefCount` | CFG/ContextFreeGrammar2.cs:515-518 | After n factorings, the counter has risen by n. |
| `LeftFactorPasses.RunOfEvent` | CFG/ContextFreeGrammar2.cs:521-525 | The removed run is the `count` handles before i. |
| `LeftFactorPasses.FactorStep` | CFG/ContextFreeGrammar2.cs:515-538 | `FactorRun` as one step of the store. |
| `LeftFactorPasses.CloseRun` | CFG/ContextFreeGrammar2.cs:511-541 | Factoring the closed run resets the scan to an empty carry and an empty last-seen prefix, as the source's `lastseen = prefix` does. |
| `LeftFactorPasses.ScanStep` | CFG/ContextFreeGrammar2.cs:506-547 | The loop's scan state follows the corrected step. |
| `LeftFactorPasses.ScanRun` | CFG/ContextFreeGrammar2.cs:506-547 | The open run shares the carried prefix. |
| `LeftFactorPasses.ScanStart` | CFG/ContextFreeGrammar2.cs:503-504 | The scan starts with an empty carry and the first handle as last seen. |
| `LeftFactorPasses.StepCases` | CFG/ContextFreeGrammar2.cs:507-546 | The three outcomes of a step, by the common prefix. |
| `LeftFactorPasses.ExtendAdvance` | CFG/ContextFreeGrammar2.cs:542-546 | A shared prefix extends the open run. |
| `LeftFactorPasses.CloseStep` | CFG/ContextFreeGrammar2.cs:509-541 | An empty prefix closes a run of at least two handles that all start with the carry. |
| `LeftFactorPasses.ScanClose` | CFG/ContextFreeGrammar2.cs:509-541 | Closing and factoring a run when the prefix is empty. |
| `LeftFactorPasses.ScanBreak` | CFG/ContextFreeGrammar2.cs:509-541 | A break in the prefix closes the run, if there is one. |
| `LeftFactorPasses.ScanNext` | CFG/ContextFreeGrammar2.cs:506-547 | One iteration of the inner loop keeps the group invariant. |
| `LeftFactorPasses.PassSnoc` | CFG/ContextFreeGrammar2.cs:500-547 | Appending the next maximal group and its trace extends the pass's cuts and its chain of stores. |
| `LeftFactorPasses.QuietSnoc` | CFG/ContextFreeGrammar2.cs:500-547 | The pass is still without factorings after the next group iff that group's scan closed no run. |
| `LeftFactorPasses.SortedRules` | CFG/ContextFreeGrammar2.cs:477-496 | The sorted array holds exactly the rules of the store, each lhs's rules together. |
| `LeftFactorPasses.FactorGroup` | CFG/ContextFreeGrammar2.cs:500-547 | Scans one lhs group to its end. The runs factored are the corrected scan's events, and each takes one fresh reference. |
| `LeftFactorPasses.LeftFactorPass` | CFG/ContextFreeGrammar2.cs:474-549 | The pass lists every rule once, grouped by lhs, and cuts the sorted listing into maximal lhs groups. The store passes through the groups in order, each group's change being the factorings of the corrected scan over its handles. The pass reports a change iff some group's scan closed a run. A pass that factors nothing leaves the store unchanged. |
| `LeftFactorPasses.LeftFactor` | CFG/ContextFreeGrammar2.cs:467-552 | Passes repeat while the last one factored something. On convergence, in the last pass's sorted listing of the final rules, every group's neighbours with a common prefix lie in its last stretch. Without convergence, each pass took a fresh reference. |
| `CharGrammar.MissingShrinks` | CFG/ContextFreeGrammar.cs:64-75 | A strict growth leaves fewer (key, member) pairs missing, so the FIRST loop ends. |
| `CharGrammar.CompareDicts` | CFG/ContextFreeGrammar.cs:129-133 | True iff the key sets are equal and every key's sets are equal, i.e. the maps are equal. The same test appears at CFG/SimpleLR.cs:109-113, where this member is also used. |
| `CharGrammar.CommonPrefix` | CFG/ContextFreeGrammar.cs:210-215 | The longest common prefix of two handles. |
| `CharGrammar.OpenNumbering` | CFG/ContextFreeGrammar.cs:250-262 | Growing a production keeps the numbering sound and leaves exactly the new handles unnumbered. |
| `CharGrammar.BoundedStep` | CFG/ContextFreeGrammar.cs:272 | A new number keeps every number below the counter. |
| `CharGrammar.OnePerLhsStep` | CFG/ContextFreeGrammar.cs:272 | A new pair keeps one number per (lhs, handle). |
| `CharGrammar.DistinctStep` | CFG/ContextFreeGrammar.cs:272 | A new number keeps numbers distinct. |
| `CharGrammar.NumberOne` | CFG/ContextFreeGrammar.cs:266-273 | Numbering one pending handle. |
| `CharGrammar.NumberHandles` | CFG/ContextFreeGrammar.cs:266-274 | Numbers the new handles from the counter. Each gets its own number and the counter rises by their count. |
| `CharGrammar.MergeRules` | CFG/ContextFreeGrammar.cs:250-274 | The union with the old handles, and exactly the new handles numbered. |
| `CharGrammar.AltsUnionAdd` | CFG/ContextFreeGrammar.cs:153-169 | An alternative's FIRST contribution unions in. |
| `CharGrammar.FirstOfGrows` | CFG/ContextFreeGrammar.cs:145-148 | A non-terminal's FIRST contains its stored set. |
| `CharGrammar.FirstOfWithin` | CFG/ContextFreeGrammar.cs:135-172 | FIRST stays within the handle characters and the stored sets. |
| `CharGrammar.ClosedFirstRule` | CFG/ContextFreeGrammar.cs:159-168 | Under closed FIRST sets, each rule's FIRST is inside its lhs's set. |
| `CharGrammar.WalkFrom` | CFG/ContextFreeGrammar.cs:99-120 | The right-to-left walk only grows the FOLLOW sets, adding an entry for each symbol met. |
| `CharGrammar.WalkStableIff` | CFG/ContextFreeGrammar.cs:99-120 | A walk changes nothing iff every symbol's FOLLOW already holds the carry of what follows it. |
| `CharGrammar.CarryMonotone` | CFG/ContextFreeGrammar.cs:110-116 | A larger start gives a larger carry. |
| `CharGrammar.WalkMonotone` | CFG/ContextFreeGrammar.cs:99-120 | Larger inputs give larger follow sets. |
| `CharGrammar.WalkBelowClosed` | CFG/ContextFreeGrammar.cs:88-121 | Below closed follow sets, a walk stays below. |
| `CharGrammar.CarryWithin` | CFG/ContextFreeGrammar.cs:110-116 | The carry stays in the bound. |
| `CharGrammar.WalkWithin` | CFG/ContextFreeGrammar.cs:99-120 | The follow sets stay in the bound. |
| `CharGrammar.WalkBack` | CFG/ContextFreeGrammar.cs:99-120 | Walking from i is walking from i + 1 and then meeting `s[i]`. |
| `CharGrammar.WalkStep` | CFG/ContextFreeGrammar.cs:90-120 | One walk grows the follow sets, keeps bounds, and stays below any closed upper bound. |
| `CharGrammar.ContextFreeGrammar.constructor` | CFG/ContextFreeGrammar.cs:22 | An empty, valid grammar. |
| `CharGrammar.ContextFreeGrammar.AddProduction` | CFG/ContextFreeGrammar.cs:250-276 | Corrected: the lhs's handles become the union and the lhs a non-terminal. Only handles new for the lhs get numbers, each the next counter value. |
| `CharGrammar.ContextFreeGrammar.AddProductionAsWritten` | CFG/ContextFreeGrammar.cs:250-276 | As written: succeeds iff no handle of the merged set was numbered before. Otherwise `ordering.Add` throws. |
| `CharGrammar.ContextFreeGrammar.AddProductionArray` | CFG/ContextFreeGrammar.cs:278-282 | The handle array is turned into a set first. |
| `CharGrammar.ContextFreeGrammar.IsNonTerminal` | CFG/ContextFreeGrammar.cs:284-287 | In a valid grammar: true iff the character has productions. |
| `CharGrammar.ContextFreeGrammar.IsTerminal` | CFG/ContextFreeGrammar.cs:288-291 | Once classified: true iff the character is a symbol and not a non-terminal. |
| `CharGrammar.ContextFreeGrammar.GetProductionNumber` | CFG/ContextFreeGrammar.cs:293-300 | The unique number of the (lhs, handle) pair, or -1 iff there is none. |
| `CharGrammar.ContextFreeGrammar.First` | CFG/ContextFreeGrammar.cs:135-172 | FIRST of a symbol: `{s}` for a symbol that is not a non-terminal. Otherwise the stored set plus each alternative, skipping those that start with the symbol itself. No value when the recursion would not end or meets an empty rule. |
| `CharGrammar.ContextFreeGrammar.FirstOfHandle` | CFG/ContextFreeGrammar.cs:164-168 | FIRST of successive symbols, stopping after the first one without ε. |
| `CharGrammar.ContextFreeGrammar.GetFirstSet` | CFG/ContextFreeGrammar.cs:225-228 | The stored set if present, otherwise FIRST. Under closed sets, this equals FIRST. |
| `CharGrammar.ContextFreeGrammar.FirstPass` | CFG/ContextFreeGrammar.cs:66-74 | One pass recomputes every non-terminal's FIRST. The sets only grow, and a pass without change certifies them closed. |
| `CharGrammar.ContextFreeGrammar.ComputeFirsts` | CFG/ContextFreeGrammar.cs:64-75 | The loop ends with closed FIRST sets inside the handle characters, or reports the symbol with no FIRST. |
| `CharGrammar.ContextFreeGrammar.FollowHandle` | CFG/ContextFreeGrammar.cs:92-120 | The follow sets become the right-to-left walk over the handle, whose carry starts at FOLLOW(lhs). |
| `CharGrammar.ContextFreeGrammar.FollowRules` | CFG/ContextFreeGrammar.cs:90-121 | The walks over every handle of one lhs. |
| `CharGrammar.ContextFreeGrammar.FollowPass` | CFG/ContextFreeGrammar.cs:88-122 | One pass grows the sets. A pass without change certifies them closed. |
| `CharGrammar.ContextFreeGrammar.ComputeFollows` | CFG/ContextFreeGrammar.cs:78-123 | The result is seeded with `$` for the start and closed. It is the least such: below any closed, seeded sets. |
| `CharGrammar.ContextFreeGrammar.Classify` | CFG/ContextFreeGrammar.cs:60-62 | The terminals become the symbols minus the non-terminals, so no symbol is both. |
| `CharGrammar.ContextFreeGrammar.AddSymbols` | CFG/ContextFreeGrammar.cs:42 | Every character of every component becomes a symbol. |
| `CharGrammar.ContextFreeGrammar.AddLine` | CFG/ContextFreeGrammar.cs:39-54 | Sets the starting symbol once, adds the line's symbols, and merges its handles under its head. |
| `CharGrammar.ContextFreeGrammar.AddLines` | CFG/ContextFreeGrammar.cs:29-55 | The productions and symbols are exactly those of the lines, and the start is the first head. |
| `CharGrammar.ContextFreeGrammar.ComputeSets` | CFG/ContextFreeGrammar.cs:64-123 | Closed FIRST and FOLLOW sets, with `$` in FOLLOW of the start. The FOLLOW sets are the least: below every closed family holding `$` for the start. |
| `CharGrammar.ContextFreeGrammar.LeftFactorCompletes` | CFG/ContextFreeGrammar.cs:174-179 | True iff every lhs has a handle, i.e. iff `array[0]` of the printing `LeftFactor` does not throw. |
| `CharGrammar.ContextFreeGrammar.Load` | CFG/ContextFreeGrammar.cs:24-123 | The loading constructor on already-split lines: a classified grammar with closed FIRST and least closed FOLLOW sets. It fails iff a FIRST computation has no value or some lhs has no handle, where the closing `LeftFactor()` throws. |
| `CharGrammar.AsWrittenSecondLineThrows` | CFG/ContextFreeGrammar.cs:266-274 | As written, a second line for the same lhs fails. |
| `CharGrammar.OneLine` | CFG/ContextFreeGrammar.cs:250-274 | After S -> a, S's one production is numbered 1. |
| `CharGrammar.CorrectedSecondLine` | CFG/ContextFreeGrammar.cs:266-274 | Corrected, the second line's new handle b gets number 2. |
| `SimpleLR.PredictedInitials` | CFG/SimpleLR.cs:128-133 | Predicted items are initial items of productions. |
| `SimpleLR.ClosureOf` | CFG/SimpleLR.cs:118-140 | Contains every input item, is closed (X → .h for every X after a dot), and adds only initial items. |
| `SimpleLR.ClosureLeast` | CFG/SimpleLR.cs:124-135 | The closure lies inside every closed superset of the input. |
| `SimpleLR.ClosureIdempotent` | CFG/SimpleLR.cs:124-135 | Closing the closure gives the same set. |
| `SimpleLR.ClosurePass` | CFG/SimpleLR.cs:125-134 | One pass adds exactly the items predicted by the copy. |
| `SimpleLR.Closure` | CFG/SimpleLR.cs:118-140 | The do-while loop computes `ClosureOf`. |
| `SimpleLR.GotoOf` | CFG/SimpleLR.cs:143-151 | Empty iff no item has the dot before the symbol. Otherwise a closed set holding every advanced item. |
| `SimpleLR.GotoItems` | CFG/SimpleLR.cs:143-151 | The loop computes `GotoOf`. |
| `SimpleLR.CheckRepeat` | CFG/SimpleLR.cs:100-105 | True iff the item set equals some state's set. |
| `SimpleLR.ClosureWithin` | CFG/SimpleLR.cs:118-140 | Closures stay inside the finite item universe. |
| `SimpleLR.GotoWithin` | CFG/SimpleLR.cs:143-151 | Gotos on grammar symbols stay inside the universe. |
| `SimpleLR.InPowerSet` | CFG/SimpleLR.cs:82-92 | Every item set of the universe is in its power set, which bounds the construction. |
| `SimpleLR.AddDistinct` | CFG/SimpleLR.cs:87-89 | A new set under the next number keeps states numbered 0..n and distinct. |
| `SimpleLR.AddReached` | CFG/SimpleLR.cs:86-89 | A goto added as a state keeps every state reached from an earlier one. |
| `SimpleLR.AddState` | CFG/SimpleLR.cs:86-89 | Adding a new non-empty goto keeps the collection invariant. |
| `SimpleLR.GotosKept` | CFG/SimpleLR.cs:84-91 | Goto results already present stay present as the collection grows. |
| `SimpleLR.PassStep` | CFG/SimpleLR.cs:86-89 | A non-empty goto not yet present becomes a new state. Afterwards the goto is empty or a state. |
| `SimpleLR.StateGotos` | CFG/SimpleLR.cs:85-90 | After one state's symbols, each of its gotos is empty or a state. |
| `SimpleLR.CollectionPass` | CFG/SimpleLR.cs:83-91 | A pass keeps the invariant. A pass that adds nothing certifies the collection complete. |
| `SimpleLR.GotoIndex` | CFG/SimpleLR.cs:158-170 | -1 when no state holds a successor with the same handle and the dot one further. Otherwise one such state; the lhs is not compared. |
| `SimpleLR.GotoStateIsTarget` | CFG/SimpleLR.cs:158-170 | In the canonical collection, an item before x has an answer, and the state equal to the goto set is among the answers. |
| `SimpleLR.GotoIndexIgnoresLhs` | CFG/SimpleLR.cs:164 | A state can be an answer while lacking the successor of the item's own lhs. |
| `SimpleLR.Put` | CFG/SimpleLR.cs:40-52 | Writing one cell keeps the row matching its requests plus this one, and changes no other cell. |
| `SimpleLR.FillItem` | CFG/SimpleLR.cs:37-56 | Writes an item's cells. Before a non-terminal: Goto to an answer of `GotoIndex`. Before `$`: Accept. Before a terminal: Shift to an answer. Complete: Reduce by its production number in every column of FOLLOW of the handle's last symbol. |
| `SimpleLR.FillRow` | CFG/SimpleLR.cs:36-57 | Every item of the state, leaving other rows alone. |
| `SimpleLR.ColumnStep` | CFG/SimpleLR.cs:28-33 | A new symbol under the next number keeps columns dense and distinct. |
| `SimpleLR.AddColumns` | CFG/SimpleLR.cs:28-33 | Numbers new symbols consecutively from the counter without repeats. Old columns are kept. |
| `SimpleLR.NumberColumns` | CFG/SimpleLR.cs:27-33 | Columns 0..n-1: terminals first, then `$`, then non-terminals. |
| `SimpleLR.FillTable` | CFG/SimpleLR.cs:35-57 | A states × columns table whose every row holds what its items ask for. |
| `SimpleLR.Actions.constructor` | CFG/SimpleLR.cs:26-58 | The column layout and a table matching every state's requests. A cell is empty iff nothing asks for its column, otherwise one of the cells asked for. |
| `SimpleLR.Actions.GetParsingTableColumnTag` | CFG/SimpleLR.cs:63-68 | The symbol whose column is `colNum`, as a one-character string. "" iff no symbol has that column. |
| `SimpleLR.UniverseReady` | CFG/SimpleLR.cs:38-54 | Every item of the universe has the columns and FOLLOW sets the fill looks up. |
| `SimpleLR.CollectionReady` | CFG/SimpleLR.cs:38-54 | The same for every item of the collection. |
| `SimpleLR.PassShrinks` | CFG/SimpleLR.cs:82-92 | A pass that adds a state shrinks the missing item sets, so the do-while ends. |
| `SimpleLR.BuildCollection` | CFG/SimpleLR.cs:75-92 | State 0 is the closure of Θ → .S$. The states are numbered 0..n-1 and pairwise distinct. Each later state is a goto of an earlier one, and every goto on a grammar symbol is empty or a state. |
| `SimpleLR.Generate` | CFG/SimpleLR.cs:73-96 | The canonical collection and a table that tabulates it. |
| `SimpleLR.SimpleLR.constructor` | CFG/SimpleLR.cs:73-97 | Stores the grammar, its canonical collection and the table. |

## Left out

- Reading the grammar file is I/O and is not modelled. This covers the read loop of the `ContextFreeGrammar(string)` constructor and `ContextFreeGrammar2`'s constructor, `ReadSymbols` and `ReadGrammar`. `Load` takes lines already split into a head and its alternatives; blank and comment lines are assumed dropped. The closing "sort every unsorted symbol as a terminal" step is `SortAsTerminal`.
- All `Console.Write` output, and the printing-only `ContextFreeGrammar.LeftFactor`, which never changes the productions. Only its throw on a left-hand side without handles (`array[0]`, CFG/ContextFreeGrammar.cs:179) is modelled, by `LeftFactorCompletes`.
- `SymbolTable.ReferenceTable.SortAsNonTerminal`, `SortAsNonTerminalSymbol`, `SortAsTerminal`, `SortAsTerminalSymbol`, `TransferToTerminals` and `TransferToNonTerminals`: when the target table already holds the text, the source's `Add` throws (CFG/ContextFreeGrammar2.cs:88, 98, 108, 118). The model returns `threw` and leaves the tables as they were, while the source has by then removed the symbol from the unsorted table and added the forward half of the pair. No caller catches the exception, so that state is never used. A declared "ε" or "$" throws this way in the constructor's closing sort (CFG/ContextFreeGrammar2.cs:386).
- `GrammarProductions.Productions.Valid`: requires no text in two tables (`TextsDisjoint`), so productions are modelled only over such tables. A declared "Θ", "ε" or "$" breaks this, and with it the grammar is not modelled.
- `ContainsUnmarked` (CFG/ContextFreeGrammar2.cs:306-321) is never called.
- The `static` shared reference table. Each grammar gets its own.
- The indexer and `GetRHS` of `Productions`, `GetAllHandleReferences` and `GetAllHandles` are projections of `rules`, read from the field.
- `GetForwardDictionary` and `GetBackwardDictionary` are returned as the field maps.
- Getters that return a field are read from the field: `GetRuleSet`, `GetFollowSet`, `GetSymbols`, `GetTerminals`, `GetNonTerminals`, `GetStartingSymbol`, `GetNonTerminalArray`, `GetCanonicalCollection`, `GetItemSet`, both `GetParsingTable` and `SimpleLR.GetParsingTableColumnTag`.
- .NET iteration order of HashSet and Dictionary is not modelled. Wherever it decides a result, the contract admits every order:
  - which equal-length text `GetLexingArray` lists first;
  - which duplicate state `Goto(int,char)` finds;
  - which of several writes to one table cell wins.
- `GrammarProductions.Productions.AddProductionsText`: numbers the lexed handles in input order. The source numbers them in the iteration order of a `HashSet<int[]>` (CFG/ContextFreeGrammar2.cs:222, 241), which .NET does not promise.
- Array reference identity of handles is modelled by the stored (sequence number, handle) rule.
- Table cells are the `Cell` datatype, not the strings "s3", "r2", "accept" and the state number.
- `lhs.ToString()` in the numbering is the lhs character.
- A multi-character head contributes its first character only, as `components[0][0]` does.
- `SymbolTable.ReferenceTable.GetLexingArray`: does not fix the order among texts of equal length, because .NET's unstable `Array.Sort` does not.
- `Lexing.IndexOfUnmarked`: requires a non-empty substring. With an empty one, the source reads past the end of the string. The lexing array holds only non-empty texts (`Lexable`).
- `CharGrammar.ContextFreeGrammar.First`: value semantics replace `First`'s in-place removal and re-adding of `firsts` entries. No value stands for the endless recursion of indirect left recursion, and for the index exception on an empty rule.
- `CharGrammar.ContextFreeGrammar.ComputeFirsts`: the FIRST sets are proved closed, not least.
- The shallow copies `new Dictionary(firsts)` and `new Dictionary(follows)` share their HashSets with the live maps. So the code's fixpoint tests see only added keys, not grown sets, and can stop early. The model compares by value and reaches the intended fixpoint.
- `LeftFactorPasses.LeftFactor`: takes a `fuel` bound on the number of passes, because termination of the outer loop is not proved. Repeated handles can make it factor forever.
- `LeftFactorPasses.FactorGroup`: reproduces that the run still open when a group ends is never factored. Only a break in the prefix closes a run.
- `SimpleLR.SimpleLR.constructor`: requires a classified grammar whose symbols exclude `$` and include the start. It requires every handle to be non-empty, with its last symbol having a FOLLOW set of symbols and `$`. The source fails on such lookups only when the offending item is reached. No lemma shows that a grammar `Load` produces meets this: a loaded grammar must in addition come from at least one line, have no `$` among its symbols, no empty handle, and a FOLLOW entry for the last symbol of every handle.
- `SimpleLR.Actions.constructor`: the `$` branch at CFG/SimpleLR.cs:47-48 indexes one past the end of the handle. It is excluded by the precondition that no complete handle ends in `$`. Goto is never taken on `$` because `$` is not a grammar symbol, so Θ → S$. never occurs.
- `SimpleLR.BuildCollection`: the collection loop is a method of its own. `Actions` receives the collection value rather than the `SimpleLR` object.

## Findings

| source | as written | input that shows it | evidently intended | confidence | as-written member | corrected member |
|---|---|---|---|---|---|---|
| CFG/ContextFreeGrammar.cs:266-274 | Every handle of the merged set is numbered again with `ordering.Add(handle, set)`, which throws when the handle is already a key | the lines S -> a and then S -> b: the second call re-inserts "a" | number only the handles new for this lhs, adding the pair to the handle's existing set | not executed | `CharGrammar.ContextFreeGrammar.AddProductionAsWritten`, `CharGrammar.AsWrittenSecondLineThrows` | `CharGrammar.ContextFreeGrammar.AddProduction`, `CharGrammar.CorrectedSecondLine` |
| CFG/ContextFreeGrammar2.cs:506-547 | `count` counts changes of the common prefix rather than handles, and the removed run is the `count` handles before the break, so it can include handles that do not start with `carry` | S -> abx \| aby \| ac \| acd \| ace \| f: the run removed under carry ac includes aby, rewritten as ac y | a run holds exactly the consecutive handles that start with the carried prefix, each counted; the rest of the bookkeeping is kept, including the reset to an empty `lastseen` after a factoring, so the handle that closed a run cannot open the next one in the same pass | not executed | `LeftFactoring.AsWrittenRewritesForeignHandle` | `LeftFactoring.CorrectedRunsShareCarry` |
