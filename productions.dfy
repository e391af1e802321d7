/**
 * The production store of the multi-character grammar: for each left-hand
 * side reference, the set of its rules, each a handle of symbol references
 * tagged with the sequence number it was added under.
 */
module GrammarProductions {

  import opened Wrappers
  import opened SymbolTable
  import opened Lexing

  /**
   * One stored rule. The sequence number is unique in a store, so a Rule
   * also stands for the identity of the handle array it was stored with.
   */
  datatype Rule = Rule(seqNum: int, handle: seq<int>)

  /** Every text of the tables can be lexed: it is nonempty and holds no marker. */
  ghost predicate Lexable(s: Tables) {
    forall x :: x in AllTexts(s) ==> x != [] && MarkerFree(x)
  }

  /** The text spelled by a handle: the concatenated Lookup(int) of its references. */
  function ResolveText(s: Tables, handle: seq<int>): string {
    if handle == [] then [] else TextAt(s, handle[0]) + ResolveText(s, handle[1..])
  }

  lemma {:induction false} ResolveAppend(s: Tables, a: seq<int>, b: seq<int>)
    ensures ResolveText(s, a + b) == ResolveText(s, a) + ResolveText(s, b)
    decreases |a|
  {
    if a == [] {
      assert a + b == b;
    } else {
      assert (a + b)[1..] == a[1..] + b;
      ResolveAppend(s, a[1..], b);
    }
  }

  /** Tokens that all resolved to a known reference spell themselves back. */
  lemma {:induction false} ResolveTokens(s: Tables, refCount: int, tokens: seq<string>, refs: seq<int>)
    requires TablesValid(s, refCount) && DisjointTexts(s)
    requires |refs| == |tokens|
    requires forall k :: 0 <= k < |refs| ==> refs[k] == RefAt(s, tokens[k]) && refs[k] != 0
    ensures ResolveText(s, refs) == Concat(tokens)
    decreases |tokens|
  {
    if tokens != [] {
      LookupSymbolInverse(s, refCount, tokens[0]);
      ResolveTokens(s, refCount, tokens[1..], refs[1..]);
    }
  }

  class Productions {
    var rules: map<int, set<Rule>>
    const refTable: ReferenceTable
    var sequenceNum: int

    /** The rules of `lhs`, empty when it has none. */
    function RulesOf(lhs: int): set<Rule>
      reads this
    {
      if lhs in rules then rules[lhs] else {}
    }

    ghost predicate Valid()
      reads this, refTable, refTable.unsorted, refTable.nonTerminals, refTable.terminals
    {
      refTable.Valid() && refTable.TextsDisjoint() && UniquelyNumbered(rules, sequenceNum)
    }

    constructor (refTable: ReferenceTable)
      requires refTable.Valid() && refTable.TextsDisjoint()
      ensures Valid()
      ensures this.refTable == refTable && rules == map[] && sequenceNum == 0
    {
      this.refTable := refTable;
      rules := map[];
      sequenceNum := 0;
    }

    /**
     * Adds lhs -> handle under the next sequence number, after moving the
     * left-hand side from the unsorted symbols to the non-terminals.
     */
    method AddProduction(lhs: int, handle: seq<int>)
      requires Valid()
      modifies this, refTable.unsorted, refTable.nonTerminals
      ensures Valid()
      ensures rules == old(rules)[lhs := old(RulesOf(lhs)) + {Rule(old(sequenceNum), handle)}]
      ensures sequenceNum == old(sequenceNum) + 1
      ensures (forall r :: r in old(RulesOf(lhs)) ==> r.handle != handle) ==> GetSequenceNumber(lhs, handle) == Some(old(sequenceNum))
      ensures (exists r :: r in old(RulesOf(lhs)) && r.handle == handle) ==> GetSequenceNumber(lhs, handle) == None
      ensures old(lhs in refTable.unsorted.forward) ==> lhs in refTable.nonTerminals.forward
      ensures refTable.Snapshot() == if old(lhs in refTable.unsorted.forward) then Move(old(refTable.Snapshot()), lhs, false) else old(refTable.Snapshot())
      ensures refTable.refCount == old(refTable.refCount)
      ensures forall r :: refTable.TextOf(r) == old(refTable.TextOf(r))
      ensures refTable.Texts() == old(refTable.Texts()) && refTable.Refs() == old(refTable.Refs())
    {
      NumberedFromSingle(sequenceNum, handle);
      AddProductions(lhs, [handle]);
    }

    /** Adds every handle under `lhs`, numbered consecutively in the given order. */
    method AddProductions(lhs: int, handles: seq<seq<int>>)
      requires Valid()
      modifies this, refTable.unsorted, refTable.nonTerminals
      ensures Valid()
      ensures rules == old(rules)[lhs := old(RulesOf(lhs)) + NumberedFrom(old(sequenceNum), handles)]
      ensures sequenceNum == old(sequenceNum) + |handles|
      ensures old(lhs in refTable.unsorted.forward) ==> lhs in refTable.nonTerminals.forward
      ensures refTable.Snapshot() == if old(lhs in refTable.unsorted.forward) then Move(old(refTable.Snapshot()), lhs, false) else old(refTable.Snapshot())
      ensures refTable.refCount == old(refTable.refCount)
      ensures forall r :: refTable.TextOf(r) == old(refTable.TextOf(r))
      ensures refTable.Texts() == old(refTable.Texts()) && refTable.Refs() == old(refTable.Refs())
    {
      SortableUnderDisjointTexts(refTable, lhs);
      if lhs in refTable.unsorted.forward {
        MoveKeepsLookups(refTable.Snapshot(), refTable.refCount, lhs, false);
      }
      var _, threw := refTable.SortAsNonTerminal(lhs);
      assert !threw;
      StoreHandles(lhs, handles);
    }

    /**
     * The rule-store half of AddProductions: the rules of `lhs` are taken
     * out, joined by the numbered handles, and put back.
     */
    method StoreHandles(lhs: int, handles: seq<seq<int>>)
      requires UniquelyNumbered(rules, sequenceNum)
      modifies this
      ensures UniquelyNumbered(rules, sequenceNum)
      ensures rules == old(rules)[lhs := old(RulesOf(lhs)) + NumberedFrom(old(sequenceNum), handles)]
      ensures sequenceNum == old(sequenceNum) + |handles|
    {
      var newHandles := TakeRules(lhs);
      var added := NumberHandles(handles);
      PutRules(lhs, newHandles + added);
      ReplaceKey(old(rules), lhs, newHandles + added);
      assert rules == WithRules(old(rules), lhs, added);
      NumberingExtends(old(rules), lhs, old(sequenceNum), added, |handles|);
    }

    /** Takes the rules of `lhs` out of the store. */
    method TakeRules(lhs: int) returns (taken: set<Rule>)
      modifies this
      ensures taken == old(RulesOf(lhs))
      ensures rules == old(rules) - {lhs} && sequenceNum == old(sequenceNum)
    {
      taken := {};
      if lhs in rules {
        taken := taken + rules[lhs];
        rules := rules - {lhs};
      }
    }

    /** Tags each handle with the next sequence number. */
    method NumberHandles(handles: seq<seq<int>>) returns (added: set<Rule>)
      modifies this
      ensures added == NumberedFrom(old(sequenceNum), handles)
      ensures sequenceNum == old(sequenceNum) + |handles| && rules == old(rules)
    {
      added := {};
      for i := 0 to |handles|
        invariant sequenceNum == old(sequenceNum) + i && rules == old(rules)
        invariant added == NumberedFrom(old(sequenceNum), handles[..i])
      {
        NumberedFromSnoc(old(sequenceNum), handles[..i], handles[i]);
        assert handles[..i + 1] == handles[..i] + [handles[i]];
        added := added + {Rule(sequenceNum, handles[i])};
        sequenceNum := sequenceNum + 1;
      }
      assert handles[..|handles|] == handles;
    }

    /** Stores `rs` as the rules of `lhs`. */
    method PutRules(lhs: int, rs: set<Rule>)
      modifies this
      ensures rules == old(rules)[lhs := rs] && sequenceNum == old(sequenceNum)
    {
      rules := rules[lhs := rs];
    }

    /**
     * AddProduction addressed by texts: the left-hand side is looked up and
     * the handle lexed; a handle whose every symbol is known resolves back to
     * its text without markers.
     */
    method AddProductionText(lhs: string, handle: string) returns (ghost lexed: seq<int>)
      requires Valid() && Lexable(refTable.Snapshot())
      modifies this, refTable.unsorted, refTable.nonTerminals
      ensures Valid()
      ensures sequenceNum == old(sequenceNum) + 1
      ensures rules == old(rules)[old(refTable.RefOf(lhs)) := old(RulesOf(refTable.RefOf(lhs))) + {Rule(old(sequenceNum), lexed)}]
      ensures refTable.Snapshot() == if old(refTable.RefOf(lhs) in refTable.unsorted.forward) then Move(old(refTable.Snapshot()), old(refTable.RefOf(lhs)), false) else old(refTable.Snapshot())
      ensures refTable.refCount == old(refTable.refCount)
      ensures AllKnown(lexed) ==> ResolveText(old(refTable.Snapshot()), lexed) == RemoveMarkers(handle)
    {
      var lhsRef := refTable.LookupSymbol(lhs);
      var h, tokens := Lex(handle);
      lexed := h;
      AddProduction(lhsRef, h);
    }

    /** AddProductions addressed by texts: every handle is lexed first. */
    method AddProductionsText(lhs: string, handles: seq<string>) returns (ghost lexed: seq<seq<int>>)
      requires Valid() && Lexable(refTable.Snapshot())
      modifies this, refTable.unsorted, refTable.nonTerminals
      ensures Valid()
      ensures sequenceNum == old(sequenceNum) + |handles| && |lexed| == |handles|
      ensures rules == old(rules)[old(refTable.RefOf(lhs)) := old(RulesOf(refTable.RefOf(lhs))) + NumberedFrom(old(sequenceNum), lexed)]
      ensures refTable.Snapshot() == if old(refTable.RefOf(lhs) in refTable.unsorted.forward) then Move(old(refTable.Snapshot()), old(refTable.RefOf(lhs)), false) else old(refTable.Snapshot())
      ensures refTable.refCount == old(refTable.refCount)
      ensures forall k :: 0 <= k < |lexed| && AllKnown(lexed[k]) ==> ResolveText(old(refTable.Snapshot()), lexed[k]) == RemoveMarkers(handles[k])
    {
      var lhsRef := refTable.LookupSymbol(lhs);
      var hs: seq<seq<int>> := [];
      for i := 0 to |handles|
        invariant |hs| == i
        invariant forall k :: 0 <= k < i && AllKnown(hs[k]) ==> ResolveText(refTable.Snapshot(), hs[k]) == RemoveMarkers(handles[k])
        modifies {}
      {
        var h, tokens := Lex(handles[i]);
        hs := hs + [h];
      }
      lexed := hs;
      AddProductions(lhsRef, hs);
    }

    /** Removes exactly the given stored rule from `lhs`; other rules with the same handle stay. */
    method RemoveProduction(lhs: int, rule: Rule)
      requires lhs in rules
      modifies this
      ensures rules == old(rules)[lhs := old(rules)[lhs] - {rule}]
      ensures sequenceNum == old(sequenceNum)
      ensures old(Valid()) ==> Valid()
    {
      rules := rules[lhs := rules[lhs] - {rule}];
    }

    /** RemoveProduction after finding a left-hand side whose rules hold the handle's contents. */
    method RemoveProductionOfHandle(rule: Rule)
      requires exists lhs :: lhs in rules && HasHandle(rules[lhs], rule.handle)
      modifies this
      ensures exists lhs :: lhs in old(rules) && HasHandle(old(rules)[lhs], rule.handle)
                        && rules == old(rules)[lhs := old(rules)[lhs] - {rule}]
      ensures old(Valid()) ==> Valid()
    {
      var lhs := GetLHS(rule.handle);
      RemoveProduction(lhs, rule);
    }

    /**
     * A left-hand side with a rule whose handle has these contents, or -1
     * when no rule has them.
     */
    method GetLHS(handle: seq<int>) returns (lhs: int)
      ensures (exists l :: l in rules && HasHandle(rules[l], handle)) ==> lhs in rules && HasHandle(rules[lhs], handle)
      ensures (forall l :: l in rules ==> !HasHandle(rules[l], handle)) ==> lhs == -1
    {
      var keys := rules.Keys;
      while keys != {}
        invariant keys <= rules.Keys
        invariant forall l :: l in rules.Keys - keys ==> !HasHandle(rules[l], handle)
        decreases |keys|
      {
        ghost var someKey := ElementOf(keys);
        var l :| l in keys;
        var rest := rules[l];
        while rest != {}
          invariant rest <= rules[l]
          invariant forall r :: r in rules[l] - rest ==> r.handle != handle
          decreases |rest|
        {
          ghost var someRule := ElementOf(rest);
          var r :| r in rest;
          if r.handle == handle {
            return l;
          }
          rest := rest - {r};
        }
        keys := keys - {l};
      }
      return -1;
    }

    /**
     * The `.Single()` query: the sequence number of the one rule of `lhs` with
     * these handle contents. None stands for the source's throw: `lhs` has no
     * entry, no rule matches, or two rules hold the same contents.
     */
    function GetSequenceNumber(lhs: int, handle: seq<int>): (n: Option<int>)
      reads this
      ensures n.Some? <==> lhs in rules && exists r :: r in rules[lhs] && r.handle == handle && forall r2 :: r2 in rules[lhs] && r2.handle == handle ==> r2 == r
      ensures n.Some? ==> Rule(n.value, handle) in rules[lhs]
    {
      if lhs !in rules then None
      else
        var matching := set r | r in rules[lhs] && r.handle == handle;
        SingleMatch(rules[lhs], handle);
        if |matching| != 1 then
          None
        else
          var r :| r in matching;
          Some(r.seqNum)
    }

    /** Every stored rule, paired with its left-hand side. */
    function GetAllRules(): (all: set<(int, Rule)>)
      reads this
      ensures forall lhs, r :: (lhs, r) in all <==> lhs in rules && r in rules[lhs]
    {
      set lhs, r | lhs in rules && r in rules[lhs] :: (lhs, r)
    }

    /** The text a handle spells, each reference looked up in turn. */
    method Resolve(handle: seq<int>) returns (text: string)
      ensures text == ResolveText(refTable.Snapshot(), handle)
    {
      text := [];
      for i := 0 to |handle|
        invariant text == ResolveText(refTable.Snapshot(), handle[..i])
      {
        var symbol := refTable.Lookup(handle[i]);
        assert ResolveText(refTable.Snapshot(), [handle[i]]) == symbol;
        ResolveAppend(refTable.Snapshot(), handle[..i], [handle[i]]);
        assert handle[..i + 1] == handle[..i] + [handle[i]];
        text := text + symbol;
      }
      assert handle[..|handle|] == handle;
    }

    /**
     * Brackets every unmarked occurrence of each known text, longest texts
     * first, then splits at the markers and looks each token up.
     */
    method Lex(handle: string) returns (resolved: seq<int>, ghost tokens: seq<string>)
      requires Lexable(refTable.Snapshot())
      ensures Concat(tokens) == RemoveMarkers(handle)
      ensures forall k :: 0 <= k < |tokens| ==> tokens[k] != [] && MarkerFree(tokens[k])
      ensures |resolved| == |tokens|
      ensures forall k :: 0 <= k < |resolved| ==> resolved[k] == refTable.RefOf(tokens[k])
      ensures refTable.Valid() && refTable.TextsDisjoint() && AllKnown(resolved) ==> ResolveText(refTable.Snapshot(), resolved) == RemoveMarkers(handle)
    {
      var symbols := refTable.GetLexingArray();
      var marked := handle;
      for i := 0 to |symbols|
        invariant RemoveMarkers(marked) == RemoveMarkers(handle)
      {
        var symbol := symbols[i];
        assert symbols[i] in symbols;
        var index := IndexOfUnmarked(marked, symbol);
        while index != -1
          invariant index != -1 ==> MatchAt(marked, symbol, index)
          invariant RemoveMarkers(marked) == RemoveMarkers(handle)
          decreases Candidates(false, marked)
        {
          MarkShrinksCandidates(marked, symbol, index);
          marked := Mark(marked, index, |symbol|);
          index := IndexOfUnmarked(marked, symbol);
        }
      }
      var pieces := Split(marked);
      tokens := pieces;
      resolved := [];
      for i := 0 to |pieces|
        invariant |resolved| == i
        invariant forall k :: 0 <= k < i ==> resolved[k] == refTable.RefOf(pieces[k])
      {
        var reference := refTable.LookupSymbol(pieces[i]);
        resolved := resolved + [reference];
      }
      if refTable.Valid() && refTable.TextsDisjoint() && AllKnown(resolved) {
        ResolveTokens(refTable.Snapshot(), refTable.refCount, tokens, resolved);
      }
    }
  }

  /** Some rule of the set has a handle with exactly these contents. */
  predicate HasHandle(rs: set<Rule>, handle: seq<int>) {
    exists r :: r in rs && r.handle == handle
  }

  /** The handles tagged with consecutive sequence numbers from `start`. */
  function NumberedFrom(start: int, handles: seq<seq<int>>): (rs: set<Rule>)
    ensures forall r :: r in rs <==> start <= r.seqNum < start + |handles| && r.handle == handles[r.seqNum - start]
  {
    set k | 0 <= k < |handles| :: Rule(start + k, handles[k])
  }

  lemma NumberedFromSnoc(start: int, handles: seq<seq<int>>, h: seq<int>)
    ensures NumberedFrom(start, handles + [h]) == NumberedFrom(start, handles) + {Rule(start + |handles|, h)}
  {
  }

  /** Every symbol of the handle was found in the reference table (Lookup(string) yields 0 otherwise). */
  predicate AllKnown(handle: seq<int>) {
    forall j :: 0 <= j < |handle| ==> handle[j] != 0
  }

  lemma NumberedFromSingle(start: int, h: seq<int>)
    ensures NumberedFrom(start, [h]) == {Rule(start, h)}
  {
    NumberedFromSnoc(start, [], h);
    assert [] + [h] == [h];
  }

  /** Sequence numbers lie below `next` and tag one rule of one left-hand side each. */
  /** Exactly one rule of `rs` holds these contents iff the rules holding them number one. */
  lemma SingleMatch(rs: set<Rule>, handle: seq<int>)
    ensures |set r | r in rs && r.handle == handle| == 1
        <==> exists r :: r in rs && r.handle == handle && forall r2 :: r2 in rs && r2.handle == handle ==> r2 == r
  {
    var matching := set r | r in rs && r.handle == handle;
    if |matching| == 1 {
      SingletonElement(matching);
      var x :| matching == {x};
      assert x in matching;
      forall r2 | r2 in rs && r2.handle == handle
        ensures r2 == x
      {
        assert r2 in matching;
      }
    }
    if r :| r in rs && r.handle == handle && forall r2 :: r2 in rs && r2.handle == handle ==> r2 == r {
      assert matching == {r};
    }
  }

  ghost predicate UniquelyNumbered(rules: map<int, set<Rule>>, next: int) {
    && 0 <= next
    && (forall lhs, r :: lhs in rules && r in rules[lhs] ==> 0 <= r.seqNum < next)
    && (forall l1, l2, r1, r2 ::
          l1 in rules && l2 in rules && r1 in rules[l1] && r2 in rules[l2] && r1.seqNum == r2.seqNum
          ==> l1 == l2 && r1 == r2)
  }

  /** The store with `added` joined to the rules of `lhs`. */
  function WithRules(rules: map<int, set<Rule>>, lhs: int, added: set<Rule>): map<int, set<Rule>> {
    rules[lhs := (if lhs in rules then rules[lhs] else {}) + added]
  }

  /** Adding rules numbered from `next` on, distinctly, keeps the numbering unique. */
  lemma NumberingExtends(rules: map<int, set<Rule>>, lhs: int, next: int, added: set<Rule>, count: nat)
    requires UniquelyNumbered(rules, next)
    requires forall r :: r in added ==> next <= r.seqNum < next + count
    requires forall r1, r2 :: r1 in added && r2 in added && r1.seqNum == r2.seqNum ==> r1 == r2
    ensures UniquelyNumbered(WithRules(rules, lhs, added), next + count)
  {
  }

  lemma ReplaceKey<K, V>(m: map<K, V>, k: K, v: V)
    ensures (m - {k})[k := v] == m[k := v]
  {
  }
}
