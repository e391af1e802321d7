/**
 * The reference table of the multi-character grammar: every symbol text is
 * interned to an integer reference and sits in exactly one of three
 * bijective tables, unsorted, terminals or non-terminals.
 */
module SymbolTable {

  import opened Wrappers
  import opened TwoWay

  const Epsilon: string := "\U{03B5}"
  const EndMarker: string := "$"
  const AugmentedStart: string := "\U{0398}"

  /** Is `r` sorted by text length, longest first? */
  predicate LongestFirst(r: seq<string>) {
    forall i, j :: 0 <= i < j < |r| ==> |r[i]| >= |r[j]|
  }

  /** Inserts `s` into a longest-first sequence, after every text at least as long. */
  function InsertByLength(s: string, r: seq<string>): (q: seq<string>)
    requires LongestFirst(r)
    ensures multiset(q) == multiset(r) + multiset{s}
    ensures LongestFirst(q)
    decreases |r|
  {
    if r == [] then [s]
    else if |r[0]| >= |s| then
      var rest := InsertByLength(s, r[1..]);
      assert r == [r[0]] + r[1..];
      LongestFirstCons(r[0], rest, r[1..], s);
      [r[0]] + rest
    else [s] + r
  }

  /** A text no shorter than anything behind it can head a longest-first sequence. */
  lemma LongestFirstCons(x: string, rest: seq<string>, tail: seq<string>, s: string)
    requires LongestFirst(rest) && multiset(rest) == multiset(tail) + multiset{s}
    requires |x| >= |s| && forall k :: 0 <= k < |tail| ==> |x| >= |tail[k]|
    ensures LongestFirst([x] + rest)
  {
    forall j | 0 <= j < |rest| ensures |x| >= |rest[j]| {
      assert rest[j] in multiset(rest);
      if rest[j] != s {
        assert rest[j] in multiset(tail);
        var k :| 0 <= k < |tail| && tail[k] == rest[j];
      }
    }
  }

  /** Array.Sort with the comparison (x, y) => y.Length.CompareTo(x.Length), as an insertion sort. */
  method SortByLengthDescending(s: seq<string>) returns (r: seq<string>)
    ensures LongestFirst(r)
    ensures multiset(r) == multiset(s)
  {
    r := [];
    var i := 0;
    while i < |s|
      invariant 0 <= i <= |s|
      invariant LongestFirst(r)
      invariant multiset(r) == multiset(s[..i])
    {
      r := InsertByLength(s[i], r);
      assert s[..i + 1] == s[..i] + [s[i]];
      i := i + 1;
    }
    assert s[..i] == s;
  }

  /** Enumerates a set into a sequence (the .NET keys-to-array step); the order is not modelled. */
  method Enumerate(s: set<string>) returns (r: seq<string>)
    ensures multiset(r) == multiset(s)
  {
    r := [];
    var rest := s;
    while rest != {}
      invariant rest <= s
      invariant multiset(r) + multiset(rest) == multiset(s)
      decreases |rest|
    {
      var x :| x in rest;
      r := r + [x];
      rest := rest - {x};
    }
  }

  /** The six maps of the three tables: each table's references to texts and texts to references. */
  datatype Tables = Tables(
    unsorted: map<int, string>, unsortedTexts: map<string, int>,
    terminals: map<int, string>, terminalTexts: map<string, int>,
    nonTerminals: map<int, string>, nonTerminalTexts: map<string, int>)

  /** Three bijections over disjoint reference sets below `refCount`, with the reserved symbols in place. */
  ghost predicate TablesValid(s: Tables, refCount: int) {
    && Inverse(s.unsorted, s.unsortedTexts)
    && Inverse(s.terminals, s.terminalTexts)
    && Inverse(s.nonTerminals, s.nonTerminalTexts)
    && s.unsorted.Keys !! s.terminals.Keys
    && s.unsorted.Keys !! s.nonTerminals.Keys
    && s.terminals.Keys !! s.nonTerminals.Keys
    && (forall r :: r in s.unsorted ==> 1 <= r < refCount)
    && (forall r :: r in s.terminals ==> 1 <= r < refCount)
    && (forall r :: r in s.nonTerminals ==> 1 <= r < refCount)
    && 1 in s.terminals && s.terminals[1] == Epsilon
    && 2 in s.terminals && s.terminals[2] == EndMarker
    && 3 in s.nonTerminals && s.nonTerminals[3] == AugmentedStart
  }

  /** No text is registered in two tables. */
  ghost predicate DisjointTexts(s: Tables) {
    && s.unsortedTexts.Keys !! s.terminalTexts.Keys
    && s.unsortedTexts.Keys !! s.nonTerminalTexts.Keys
    && s.terminalTexts.Keys !! s.nonTerminalTexts.Keys
  }

  ghost function AllRefs(s: Tables): set<int> {
    s.unsorted.Keys + s.terminals.Keys + s.nonTerminals.Keys
  }

  ghost function AllTexts(s: Tables): set<string> {
    s.unsortedTexts.Keys + s.terminalTexts.Keys + s.nonTerminalTexts.Keys
  }

  /** Lookup(int): the text in unsorted, terminals or non-terminals, in that order, else "". */
  function TextAt(s: Tables, reference: int): string {
    if reference in s.unsorted then s.unsorted[reference]
    else if reference in s.terminals then s.terminals[reference]
    else if reference in s.nonTerminals then s.nonTerminals[reference]
    else ""
  }

  /** Lookup(string): the reference in unsorted, terminals or non-terminals, in that order, else 0. */
  function RefAt(s: Tables, symbol: string): int {
    if symbol in s.unsortedTexts then s.unsortedTexts[symbol]
    else if symbol in s.terminalTexts then s.terminalTexts[symbol]
    else if symbol in s.nonTerminalTexts then s.nonTerminalTexts[symbol]
    else 0
  }

  /** The tables after an unsorted reference moved, with its text, to the terminals or the non-terminals. */
  function Move(s: Tables, reference: int, toTerminals: bool): Tables
    requires reference in s.unsorted
  {
    var text := s.unsorted[reference];
    var rest := s.(unsorted := s.unsorted - {reference}, unsortedTexts := s.unsortedTexts - {text});
    if toTerminals then rest.(terminals := s.terminals[reference := text], terminalTexts := s.terminalTexts[text := reference])
    else rest.(nonTerminals := s.nonTerminals[reference := text], nonTerminalTexts := s.nonTerminalTexts[text := reference])
  }

  /** Moving a symbol whose text is new to its target table keeps the tables valid. */
  lemma MoveKeepsValid(s: Tables, refCount: int, reference: int, toTerminals: bool)
    requires TablesValid(s, refCount) && reference in s.unsorted
    requires toTerminals ==> s.unsorted[reference] !in s.terminalTexts
    requires !toTerminals ==> s.unsorted[reference] !in s.nonTerminalTexts
    ensures TablesValid(Move(s, reference, toTerminals), refCount)
  {
  }

  lemma MoveKeepsDisjoint(s: Tables, refCount: int, reference: int, toTerminals: bool)
    requires TablesValid(s, refCount) && DisjointTexts(s) && reference in s.unsorted
    ensures DisjointTexts(Move(s, reference, toTerminals))
  {
    assert s.unsorted[reference] in s.unsortedTexts;
  }

  /** A move changes which table holds a symbol, never the symbols or what they look up to. */
  lemma MoveKeepsLookups(s: Tables, refCount: int, reference: int, toTerminals: bool)
    requires TablesValid(s, refCount) && reference in s.unsorted
    ensures AllRefs(Move(s, reference, toTerminals)) == AllRefs(s)
    ensures AllTexts(Move(s, reference, toTerminals)) == AllTexts(s)
    ensures forall r :: TextAt(Move(s, reference, toTerminals), r) == TextAt(s, r)
  {
    MoveKeepsRefs(s, reference, toTerminals);
    MoveKeepsTexts(s, refCount, reference, toTerminals);
    forall r ensures TextAt(Move(s, reference, toTerminals), r) == TextAt(s, r) {
      MoveKeepsTextAt(s, refCount, reference, toTerminals, r);
    }
  }

  lemma MoveKeepsRefs(s: Tables, reference: int, toTerminals: bool)
    requires reference in s.unsorted
    ensures AllRefs(Move(s, reference, toTerminals)) == AllRefs(s)
  {
  }

  lemma MoveKeepsTexts(s: Tables, refCount: int, reference: int, toTerminals: bool)
    requires TablesValid(s, refCount) && reference in s.unsorted
    ensures AllTexts(Move(s, reference, toTerminals)) == AllTexts(s)
  {
    assert s.unsorted[reference] in s.unsortedTexts;
  }

  lemma MoveKeepsTextAt(s: Tables, refCount: int, reference: int, toTerminals: bool, r: int)
    requires TablesValid(s, refCount) && reference in s.unsorted
    ensures TextAt(Move(s, reference, toTerminals), r) == TextAt(s, r)
  {
  }

  /** The tables the constructor builds: ε and $ as terminals 1 and 2, the augmented start as non-terminal 3. */
  function InitialTables(): Tables {
    Tables(map[], map[], map[1 := Epsilon, 2 := EndMarker], map[Epsilon := 1, EndMarker := 2],
           map[3 := AugmentedStart], map[AugmentedStart := 3])
  }

  lemma InitialTablesValid()
    ensures TablesValid(InitialTables(), 4) && DisjointTexts(InitialTables())
  {
  }

  /** The tables after MakeInitialReferences has handled `symbols[..n]`: `symbols[k]` is unsorted under `start + k`. */
  function Registered(s: Tables, start: int, symbols: seq<string>, n: nat): Tables
    requires n <= |symbols|
  {
    if n == 0 then s else AddUnsorted(Registered(s, start, symbols, n - 1), start + n - 1, symbols[n - 1])
  }

  /** The tables with `text` added to the unsorted table under `reference`. */
  function AddUnsorted(s: Tables, reference: int, text: string): Tables {
    s.(unsorted := s.unsorted[reference := text], unsortedTexts := s.unsortedTexts[text := reference])
  }

  /** Adding a pair whose key and value are both new keeps two maps inverse to each other. */
  lemma InverseAdd<T, U>(f: map<T, U>, b: map<U, T>, k: T, v: U)
    requires Inverse(f, b) && k !in f && v !in b
    ensures Inverse(f[k := v], b[v := k])
  {
  }

  lemma AddUnsortedKeepsDisjoint(s: Tables, reference: int, text: string)
    requires DisjointTexts(s) && text !in s.terminalTexts && text !in s.nonTerminalTexts
    ensures DisjointTexts(AddUnsorted(s, reference, text))
  {
  }

  /** Registration adds exactly the references start .. start + n - 1 with their texts and touches nothing else. */
  lemma {:induction false} RegisteredShape(s: Tables, start: int, symbols: seq<string>, n: nat)
    requires n <= |symbols|
    requires forall r :: r in s.unsorted ==> r < start
    ensures forall r :: r in Registered(s, start, symbols, n).unsorted <==> r in s.unsorted || start <= r < start + n
    ensures forall i :: 0 <= i < n ==> Registered(s, start, symbols, n).unsorted[start + i] == symbols[i]
    ensures forall r :: r in s.unsorted ==> Registered(s, start, symbols, n).unsorted[r] == s.unsorted[r]
    ensures forall t :: t in Registered(s, start, symbols, n).unsortedTexts <==>
      t in s.unsortedTexts || exists i :: 0 <= i < n && symbols[i] == t
    ensures Registered(s, start, symbols, n).(unsorted := s.unsorted, unsortedTexts := s.unsortedTexts) == s
  {
    if n > 0 {
      RegisteredShape(s, start, symbols, n - 1);
    }
  }

  /** While registering, every reference stays below the next one and no later text is taken yet. */
  lemma {:induction false} RegisteredFresh(s: Tables, start: int, symbols: seq<string>, n: nat)
    requires n <= |symbols|
    requires forall r :: r in s.unsorted ==> r < start
    requires forall i, j :: 0 <= i < j < |symbols| ==> symbols[i] != symbols[j]
    requires forall i :: 0 <= i < |symbols| ==> symbols[i] !in s.unsortedTexts
    ensures forall r :: r in Registered(s, start, symbols, n).unsorted ==> r < start + n
    ensures forall i :: n <= i < |symbols| ==> symbols[i] !in Registered(s, start, symbols, n).unsortedTexts
  {
    if n > 0 {
      RegisteredFresh(s, start, symbols, n - 1);
    }
  }

  /** Registration leaves the terminal and non-terminal tables alone. */
  lemma {:induction false} RegisteredKeepsSorted(s: Tables, start: int, symbols: seq<string>, n: nat)
    requires n <= |symbols|
    ensures Registered(s, start, symbols, n).terminals == s.terminals
    ensures Registered(s, start, symbols, n).terminalTexts == s.terminalTexts
    ensures Registered(s, start, symbols, n).nonTerminals == s.nonTerminals
    ensures Registered(s, start, symbols, n).nonTerminalTexts == s.nonTerminalTexts
  {
    if n > 0 {
      RegisteredKeepsSorted(s, start, symbols, n - 1);
    }
  }

  /** Registering distinct new texts under new references keeps the unsorted table a bijection. */
  lemma {:induction false} RegisteredInverse(s: Tables, start: int, symbols: seq<string>, n: nat)
    requires n <= |symbols|
    requires Inverse(s.unsorted, s.unsortedTexts)
    requires forall r :: r in s.unsorted ==> r < start
    requires forall i, j :: 0 <= i < j < |symbols| ==> symbols[i] != symbols[j]
    requires forall i :: 0 <= i < |symbols| ==> symbols[i] !in s.unsortedTexts
    ensures Inverse(Registered(s, start, symbols, n).unsorted, Registered(s, start, symbols, n).unsortedTexts)
  {
    if n > 0 {
      RegisteredInverse(s, start, symbols, n - 1);
      RegisteredFresh(s, start, symbols, n - 1);
      var p := Registered(s, start, symbols, n - 1);
      InverseAdd(p.unsorted, p.unsortedTexts, start + n - 1, symbols[n - 1]);
    }
  }

  /** Registering distinct texts new to the unsorted table keeps the tables valid. */
  lemma RegisteredValid(s: Tables, start: int, symbols: seq<string>)
    requires TablesValid(s, start)
    requires forall i, j :: 0 <= i < j < |symbols| ==> symbols[i] != symbols[j]
    requires forall i :: 0 <= i < |symbols| ==> symbols[i] !in s.unsortedTexts
    ensures TablesValid(Registered(s, start, symbols, |symbols|), start + |symbols|)
  {
    RegisteredInverse(s, start, symbols, |symbols|);
    RegisteredShape(s, start, symbols, |symbols|);
    RegisteredKeepsSorted(s, start, symbols, |symbols|);
  }

  /** Registering texts unknown to every table keeps the texts of the three tables apart. */
  lemma {:induction false} RegisteredDisjoint(s: Tables, start: int, symbols: seq<string>, n: nat)
    requires n <= |symbols|
    requires DisjointTexts(s)
    requires forall i :: 0 <= i < |symbols| ==> symbols[i] !in AllTexts(s)
    ensures DisjointTexts(Registered(s, start, symbols, n))
  {
    if n > 0 {
      RegisteredDisjoint(s, start, symbols, n - 1);
      RegisteredKeepsSorted(s, start, symbols, n - 1);
      AddUnsortedKeepsDisjoint(Registered(s, start, symbols, n - 1), start + n - 1, symbols[n - 1]);
    }
  }

  /** Registering a new text under the next reference keeps the tables valid. */
  lemma AddKeepsValid(s: Tables, refCount: int, text: string, toTerminals: bool)
    requires TablesValid(s, refCount) && text !in AllTexts(s)
    ensures toTerminals ==> TablesValid(s.(terminals := s.terminals[refCount := text], terminalTexts := s.terminalTexts[text := refCount]), refCount + 1)
    ensures toTerminals && DisjointTexts(s) ==> DisjointTexts(s.(terminals := s.terminals[refCount := text], terminalTexts := s.terminalTexts[text := refCount]))
    ensures !toTerminals ==> TablesValid(s.(nonTerminals := s.nonTerminals[refCount := text], nonTerminalTexts := s.nonTerminalTexts[text := refCount]), refCount + 1)
    ensures !toTerminals && DisjointTexts(s) ==> DisjointTexts(s.(nonTerminals := s.nonTerminals[refCount := text], nonTerminalTexts := s.nonTerminalTexts[text := refCount]))
  {
  }

  class ReferenceTable {
    const unsorted: TwoWayDictionary<int, string>
    const nonTerminals: TwoWayDictionary<int, string>
    const terminals: TwoWayDictionary<int, string>
    var refCount: int

    /** The current contents of the three tables. */
    function Snapshot(): Tables
      reads this, unsorted, nonTerminals, terminals
    {
      Tables(unsorted.forward, unsorted.backward, terminals.forward, terminals.backward, nonTerminals.forward, nonTerminals.backward)
    }

    ghost predicate Valid()
      reads this, unsorted, nonTerminals, terminals
    {
      && unsorted != nonTerminals && unsorted != terminals && nonTerminals != terminals
      && TablesValid(Snapshot(), refCount)
    }

    /** No text is registered in two tables; every registration path except MakeInitialReferences keeps this. */
    ghost predicate TextsDisjoint()
      reads this, unsorted, nonTerminals, terminals
    {
      DisjointTexts(Snapshot())
    }

    ghost function Refs(): set<int>
      reads this, unsorted, nonTerminals, terminals
    {
      AllRefs(Snapshot())
    }

    ghost function Texts(): set<string>
      reads this, unsorted, nonTerminals, terminals
    {
      AllTexts(Snapshot())
    }

    function TextOf(reference: int): string
      reads this, unsorted, nonTerminals, terminals
    {
      TextAt(Snapshot(), reference)
    }

    function RefOf(symbol: string): int
      reads this, unsorted, nonTerminals, terminals
    {
      RefAt(Snapshot(), symbol)
    }

    constructor ()
      ensures Valid() && TextsDisjoint() && fresh(unsorted) && fresh(nonTerminals) && fresh(terminals)
      ensures Snapshot() == InitialTables() && refCount == 4
    {
      unsorted := new TwoWayDictionary();
      nonTerminals := new TwoWayDictionary();
      terminals := new TwoWayDictionary();
      new;
      Reserve();
      InitialTablesValid();
    }

    /** The constructor's registrations of ε and $ as terminals and of the augmented start as a non-terminal. */
    method Reserve()
      requires unsorted != terminals && unsorted != nonTerminals && terminals != nonTerminals
      requires unsorted.forward == map[] && unsorted.backward == map[]
      requires terminals.forward == map[] && terminals.backward == map[]
      requires nonTerminals.forward == map[] && nonTerminals.backward == map[]
      modifies this, terminals, nonTerminals
      ensures Snapshot() == InitialTables() && refCount == 4
    {
      refCount := 1;
      terminals.Add(refCount, Epsilon);
      refCount := refCount + 1;
      terminals.Add(refCount, EndMarker);
      refCount := refCount + 1;
      nonTerminals.Add(refCount, AugmentedStart);
      refCount := refCount + 1;
    }

    /**
     * Each declared symbol takes the next reference in the unsorted table;
     * RegisteredShape says which references and texts that adds.
     */
    method MakeInitialReferences(symbols: seq<string>)
      requires Valid()
      requires forall i, j :: 0 <= i < j < |symbols| ==> symbols[i] != symbols[j]
      requires forall i :: 0 <= i < |symbols| ==> symbols[i] !in unsorted.backward
      modifies this, unsorted
      ensures Valid()
      ensures refCount == old(refCount) + |symbols|
      ensures Snapshot() == Registered(old(Snapshot()), old(refCount), symbols, |symbols|)
      ensures old(TextsDisjoint()) && (forall i :: 0 <= i < |symbols| ==> symbols[i] !in old(Texts())) ==> TextsDisjoint()
    {
      ghost var s0, rc0 := Snapshot(), refCount;
      RegisteredValid(s0, rc0, symbols);
      if TextsDisjoint() && forall i :: 0 <= i < |symbols| ==> symbols[i] !in Texts() {
        RegisteredDisjoint(s0, rc0, symbols, |symbols|);
      }
      Register(symbols);
    }

    /** The loop of MakeInitialReferences, on the unsorted table alone. */
    method Register(symbols: seq<string>)
      requires forall i, j :: 0 <= i < j < |symbols| ==> symbols[i] != symbols[j]
      requires forall i :: 0 <= i < |symbols| ==> symbols[i] !in unsorted.backward
      requires forall r :: r in unsorted.forward ==> r < refCount
      requires unsorted != terminals && unsorted != nonTerminals
      modifies this, unsorted
      ensures refCount == old(refCount) + |symbols|
      ensures Snapshot() == Registered(old(Snapshot()), old(refCount), symbols, |symbols|)
    {
      ghost var s0 := Snapshot();
      var i := 0;
      while i < |symbols|
        invariant 0 <= i <= |symbols|
        invariant refCount == old(refCount) + i
        invariant Snapshot() == Registered(s0, old(refCount), symbols, i)
        modifies this, unsorted
      {
        RegisteredFresh(s0, old(refCount), symbols, i);
        ghost var before := Snapshot();
        unsorted.Add(refCount, symbols[i]);
        assert Snapshot() == AddUnsorted(before, refCount, symbols[i]);
        refCount := refCount + 1;
        i := i + 1;
      }
    }

    /** Registers a new terminal unless the text is already known in any table. */
    method AddTerminal(symbol: string) returns (added: bool)
      requires Valid()
      modifies this, terminals
      ensures Valid()
      ensures added <==> symbol !in old(Texts())
      ensures added ==> Snapshot() == old(Snapshot()).(terminals := old(terminals.forward)[old(refCount) := symbol],
                                                       terminalTexts := old(terminals.backward)[symbol := old(refCount)])
      ensures refCount == if added then old(refCount) + 1 else old(refCount)
      ensures !added ==> Snapshot() == old(Snapshot())
      ensures old(TextsDisjoint()) ==> TextsDisjoint()
    {
      var inUnsorted := unsorted.ContainsBackwardKey(symbol);
      var inTerminals := terminals.ContainsBackwardKey(symbol);
      var inNonTerminals := nonTerminals.ContainsBackwardKey(symbol);
      if inUnsorted || inTerminals || inNonTerminals {
        return false;
      }
      AddKeepsValid(Snapshot(), refCount, symbol, true);
      terminals.Add(refCount, symbol);
      refCount := refCount + 1;
      added := true;
    }

    /** Registers a new non-terminal unless the text is already known in any table. */
    method AddNonTerminal(symbol: string) returns (added: bool)
      requires Valid()
      modifies this, nonTerminals
      ensures Valid()
      ensures added <==> symbol !in old(Texts())
      ensures added ==> Snapshot() == old(Snapshot()).(nonTerminals := old(nonTerminals.forward)[old(refCount) := symbol],
                                                       nonTerminalTexts := old(nonTerminals.backward)[symbol := old(refCount)])
      ensures refCount == if added then old(refCount) + 1 else old(refCount)
      ensures !added ==> Snapshot() == old(Snapshot())
      ensures old(TextsDisjoint()) ==> TextsDisjoint()
    {
      var inUnsorted := unsorted.ContainsBackwardKey(symbol);
      var inTerminals := terminals.ContainsBackwardKey(symbol);
      var inNonTerminals := nonTerminals.ContainsBackwardKey(symbol);
      if inUnsorted || inTerminals || inNonTerminals {
        return false;
      }
      AddKeepsValid(Snapshot(), refCount, symbol, false);
      nonTerminals.Add(refCount, symbol);
      refCount := refCount + 1;
      added := true;
    }

    method Lookup(reference: int) returns (symbol: string)
      ensures symbol == TextOf(reference)
    {
      symbol := "";
      var found := unsorted.ContainsForwardKey(reference);
      if found {
        var v := unsorted.ForwardSearch(reference);
        return v.value;
      }
      found := terminals.ContainsForwardKey(reference);
      if found {
        var v := terminals.ForwardSearch(reference);
        return v.value;
      }
      found := nonTerminals.ContainsForwardKey(reference);
      if found {
        var v := nonTerminals.ForwardSearch(reference);
        return v.value;
      }
    }

    method LookupSymbol(symbol: string) returns (reference: int)
      ensures reference == RefOf(symbol)
    {
      reference := 0;
      var found := unsorted.ContainsBackwardKey(symbol);
      if found {
        var v := unsorted.BackwardSearch(symbol);
        return v.value;
      }
      found := terminals.ContainsBackwardKey(symbol);
      if found {
        var v := terminals.BackwardSearch(symbol);
        return v.value;
      }
      found := nonTerminals.ContainsBackwardKey(symbol);
      if found {
        var v := nonTerminals.BackwardSearch(symbol);
        return v.value;
      }
    }

    /** Every known text (terminals, then non-terminals, then unsorted), sorted longest first. */
    method GetLexingArray() returns (symbols: seq<string>)
      ensures LongestFirst(symbols)
      ensures multiset(symbols) == multiset(terminals.backward.Keys) + multiset(nonTerminals.backward.Keys) + multiset(unsorted.backward.Keys)
      ensures forall s :: s in symbols <==> s in Texts()
    {
      var t := Enumerate(terminals.backward.Keys);
      var n := Enumerate(nonTerminals.backward.Keys);
      var u := Enumerate(unsorted.backward.Keys);
      symbols := SortByLengthDescending(t + n + u);
      forall s ensures s in symbols <==> s in Texts() {
        assert s in symbols <==> s in multiset(symbols);
      }
    }

    /**
     * Moves an unsorted reference into the non-terminal table under the same
     * reference and text. `threw` is the source's failing `nonTerminals.Add`,
     * when the text is already a non-terminal; the tables are then left as they were.
     */
    method SortAsNonTerminal(reference: int) returns (success: bool, threw: bool)
      requires Valid()
      modifies unsorted, nonTerminals
      ensures Valid() && refCount == old(refCount)
      ensures threw <==> reference in old(unsorted.forward) && old(unsorted.forward)[reference] in old(nonTerminals.backward)
      ensures success <==> reference in old(unsorted.forward) && !threw
      ensures Snapshot() == if success then Move(old(Snapshot()), reference, false) else old(Snapshot())
      ensures old(TextsDisjoint()) ==> TextsDisjoint()
    {
      success, threw := false, false;
      var found := unsorted.ContainsForwardKey(reference);
      if found {
        var value := unsorted.ForwardSearch(reference);
        success, threw := TransferToNonTerminals(reference, value.value);
      }
    }

    /** SortAsNonTerminal addressed by text. */
    method SortAsNonTerminalSymbol(value: string) returns (success: bool, threw: bool)
      requires Valid()
      modifies unsorted, nonTerminals
      ensures Valid() && refCount == old(refCount)
      ensures threw <==> value in old(unsorted.backward) && value in old(nonTerminals.backward)
      ensures success <==> value in old(unsorted.backward) && !threw
      ensures Snapshot() == if success then Move(old(Snapshot()), old(unsorted.backward)[value], false) else old(Snapshot())
      ensures old(TextsDisjoint()) ==> TextsDisjoint()
    {
      success, threw := false, false;
      var found := unsorted.ContainsBackwardKey(value);
      if found {
        var reference := unsorted.BackwardSearch(value);
        success, threw := TransferToNonTerminals(reference.value, value);
      }
    }

    /**
     * Moves an unsorted reference into the terminal table under the same
     * reference and text. `threw` is the source's failing `terminals.Add`,
     * when the text is already a terminal; the tables are then left as they were.
     */
    method SortAsTerminal(reference: int) returns (success: bool, threw: bool)
      requires Valid()
      modifies unsorted, terminals
      ensures Valid() && refCount == old(refCount)
      ensures threw <==> reference in old(unsorted.forward) && old(unsorted.forward)[reference] in old(terminals.backward)
      ensures success <==> reference in old(unsorted.forward) && !threw
      ensures Snapshot() == if success then Move(old(Snapshot()), reference, true) else old(Snapshot())
      ensures old(TextsDisjoint()) ==> TextsDisjoint()
    {
      success, threw := false, false;
      var found := unsorted.ContainsForwardKey(reference);
      if found {
        var value := unsorted.ForwardSearch(reference);
        success, threw := TransferToTerminals(reference, value.value);
      }
    }

    /** SortAsTerminal addressed by text. */
    method SortAsTerminalSymbol(value: string) returns (success: bool, threw: bool)
      requires Valid()
      modifies unsorted, terminals
      ensures Valid() && refCount == old(refCount)
      ensures threw <==> value in old(unsorted.backward) && value in old(terminals.backward)
      ensures success <==> value in old(unsorted.backward) && !threw
      ensures Snapshot() == if success then Move(old(Snapshot()), old(unsorted.backward)[value], true) else old(Snapshot())
      ensures old(TextsDisjoint()) ==> TextsDisjoint()
    {
      success, threw := false, false;
      var found := unsorted.ContainsBackwardKey(value);
      if found {
        var reference := unsorted.BackwardSearch(value);
        success, threw := TransferToTerminals(reference.value, value);
      }
    }

    /**
     * The Remove and Add that SortAsTerminal and SortAsTerminalSymbol perform
     * once the symbol is found. The Add throws when the text is already a terminal.
     */
    method TransferToTerminals(reference: int, text: string) returns (success: bool, threw: bool)
      requires Valid()
      requires reference in unsorted.forward && unsorted.forward[reference] == text
      modifies unsorted, terminals
      ensures Valid() && refCount == old(refCount)
      ensures threw <==> text in old(terminals.backward)
      ensures success <==> !threw
      ensures Snapshot() == if success then Move(old(Snapshot()), reference, true) else old(Snapshot())
      ensures old(TextsDisjoint()) ==> TextsDisjoint()
    {
      threw := terminals.ContainsBackwardKey(text);
      if threw {
        return false, true;
      }
      ghost var s0 := Snapshot();
      MoveKeepsValid(s0, refCount, reference, true);
      if DisjointTexts(s0) { MoveKeepsDisjoint(s0, refCount, reference, true); }
      success := unsorted.Remove(reference, text);
      terminals.Add(reference, text);
    }

    /**
     * The Remove and Add that SortAsNonTerminal and SortAsNonTerminalSymbol perform
     * once the symbol is found. The Add throws when the text is already a non-terminal.
     */
    method TransferToNonTerminals(reference: int, text: string) returns (success: bool, threw: bool)
      requires Valid()
      requires reference in unsorted.forward && unsorted.forward[reference] == text
      modifies unsorted, nonTerminals
      ensures Valid() && refCount == old(refCount)
      ensures threw <==> text in old(nonTerminals.backward)
      ensures success <==> !threw
      ensures Snapshot() == if success then Move(old(Snapshot()), reference, false) else old(Snapshot())
      ensures old(TextsDisjoint()) ==> TextsDisjoint()
    {
      threw := nonTerminals.ContainsBackwardKey(text);
      if threw {
        return false, true;
      }
      ghost var s0 := Snapshot();
      MoveKeepsValid(s0, refCount, reference, false);
      if DisjointTexts(s0) { MoveKeepsDisjoint(s0, refCount, reference, false); }
      success := unsorted.Remove(reference, text);
      nonTerminals.Add(reference, text);
    }

    method GetUnsorted() returns (d: map<int, string>)
      ensures d == unsorted.forward
    {
      d := unsorted.forward;
    }

    method GetNonTerminals() returns (texts: set<string>)
      ensures texts == nonTerminals.backward.Keys
    {
      texts := nonTerminals.GetBackwardKeys();
    }

    method GetNonTerminalReferences() returns (refs: set<int>)
      ensures refs == nonTerminals.forward.Keys
    {
      refs := nonTerminals.GetForwardKeys();
    }

    method GetTerminals() returns (texts: set<string>)
      ensures texts == terminals.backward.Keys
    {
      texts := terminals.GetBackwardKeys();
    }

    method GetTerminalReferences() returns (refs: set<int>)
      ensures refs == terminals.forward.Keys
    {
      refs := terminals.GetForwardKeys();
    }

    /** Terminal and non-terminal texts; unsorted symbols are not included. */
    method GetSymbols() returns (texts: set<string>)
      ensures texts == terminals.backward.Keys + nonTerminals.backward.Keys
    {
      var t := terminals.GetBackwardKeys();
      var n := nonTerminals.GetBackwardKeys();
      texts := t + n;
    }

    method GetSymbolReferences() returns (refs: set<int>)
      ensures refs == terminals.forward.Keys + nonTerminals.forward.Keys
    {
      var t := terminals.GetForwardKeys();
      var n := nonTerminals.GetForwardKeys();
      refs := t + n;
    }
  }

  /** With no text in two tables, any unsorted symbol may be moved into either sorted table. */
  lemma SortableUnderDisjointTexts(t: ReferenceTable, reference: int)
    requires t.Valid() && t.TextsDisjoint()
    ensures reference in t.unsorted.forward ==> t.unsorted.forward[reference] !in t.nonTerminals.backward
    ensures reference in t.unsorted.forward ==> t.unsorted.forward[reference] !in t.terminals.backward
  {
    if reference in t.unsorted.forward {
      assert t.unsorted.forward[reference] in t.unsorted.backward;
    }
  }

  /** On registered symbols with unique texts, Lookup(int) and Lookup(string) undo each other. */
  lemma LookupInverse(s: Tables, refCount: int, reference: int)
    requires TablesValid(s, refCount) && DisjointTexts(s)
    requires reference in AllRefs(s)
    ensures TextAt(s, reference) in AllTexts(s)
    ensures RefAt(s, TextAt(s, reference)) == reference
  {
  }

  lemma LookupSymbolInverse(s: Tables, refCount: int, symbol: string)
    requires TablesValid(s, refCount) && DisjointTexts(s)
    requires symbol in AllTexts(s)
    ensures RefAt(s, symbol) in AllRefs(s)
    ensures TextAt(s, RefAt(s, symbol)) == symbol
  {
  }

  /** Unknown texts look up to 0 and unknown references to the empty text; 0 is never a reference. */
  lemma LookupUnknown(s: Tables, refCount: int, reference: int, symbol: string)
    requires TablesValid(s, refCount)
    requires reference !in AllRefs(s) && symbol !in AllTexts(s)
    ensures TextAt(s, reference) == "" && RefAt(s, symbol) == 0
    ensures 0 !in AllRefs(s)
  {
  }
}
