/**
 * Left factoring of the multi-character grammar. Each pass lists every rule,
 * bubble-sorts the handles of each left-hand side, and scans each left-hand
 * side's handles for runs that share a nonempty prefix; a run is replaced by
 * one rule lhs -> prefix N' and the rules N' -> tail for each of its handles,
 * N' being a fresh non-terminal named after the left-hand side with primes.
 * Passes repeat while one of them factored something.
 */
module LeftFactoring {

  import opened Wrappers
  import opened SymbolTable
  import opened GrammarProductions

  // ---------------------------------------------------------------------
  // Comparing and sharing handles
  // ---------------------------------------------------------------------

  /** `p` is a prefix of `s`. */
  predicate IsPrefix<T(==)>(p: seq<T>, s: seq<T>) {
    |p| <= |s| && s[..|p|] == p
  }

  lemma PrefixTransitive<T>(p: seq<T>, q: seq<T>, s: seq<T>)
    requires IsPrefix(p, q) && IsPrefix(q, s)
    ensures IsPrefix(p, s)
  {
    assert s[..|p|] == s[..|q|][..|p|];
  }

  /**
   * `a` comes before `b`: at the first position, within both, where they
   * differ, `a` holds the smaller reference. A handle and its extensions are
   * not ordered either way.
   */
  predicate Before(a: seq<int>, b: seq<int>) {
    exists k :: 0 <= k < |a| && k < |b| && a[..k] == b[..k] && a[k] < b[k]
  }

  /**
   * Whether handle1 sorts before handle2. The source also answers true when
   * the scan ran off the end of a longer handle2, but the scan stops one short
   * of the shorter length, so that test can never hold and is not repeated.
   */
  method CompareIntegerArray(handle1: seq<int>, handle2: seq<int>) returns (r: bool)
    ensures r <==> Before(handle1, handle2)
  {
    if |handle1| == 0 || |handle2| == 0 {
      return false;
    }
    var shorter := if |handle1| < |handle2| then |handle1| else |handle2|;
    var i := 0;
    while i < shorter - 1 && handle2[i] == handle1[i]
      invariant 0 <= i <= shorter - 1
      invariant handle1[..i] == handle2[..i]
    {
      i := i + 1;
    }
    if handle2[i] > handle1[i] {
      return true;
    }
    forall k | 0 <= k < |handle1| && k < |handle2| && handle1[..k] == handle2[..k]
      ensures handle1[k] >= handle2[k]
    {
      if k < i {
        assert handle1[k] == handle1[..i][k] == handle2[..i][k] == handle2[k];
      }
    }
    return false;
  }

  /** The longest common prefix of two sequences. */
  function LongestCommonPrefix<T(==)>(a: seq<T>, b: seq<T>): (p: seq<T>)
    ensures IsPrefix(p, a) && IsPrefix(p, b)
    ensures |p| == |a| || |p| == |b| || a[|p|] != b[|p|]
    decreases |a|
  {
    if a == [] || b == [] || a[0] != b[0] then []
    else [a[0]] + LongestCommonPrefix(a[1..], b[1..])
  }

  /** Every common prefix is a prefix of the longest one. */
  lemma {:induction false} CommonPrefixIsLongest<T>(a: seq<T>, b: seq<T>, q: seq<T>)
    requires IsPrefix(q, a) && IsPrefix(q, b)
    ensures IsPrefix(q, LongestCommonPrefix(a, b))
    decreases |a|
  {
    if q != [] {
      assert a[0] == q[0] == b[0];
      assert IsPrefix(q[1..], a[1..]) && IsPrefix(q[1..], b[1..]) by {
        assert a[1..][..|q| - 1] == a[..|q|][1..];
        assert b[1..][..|q| - 1] == b[..|q|][1..];
      }
      CommonPrefixIsLongest(a[1..], b[1..], q[1..]);
      var p := LongestCommonPrefix(a, b);
      assert p == [a[0]] + LongestCommonPrefix(a[1..], b[1..]);
      assert p[..|q|] == [a[0]] + LongestCommonPrefix(a[1..], b[1..])[..|q| - 1];
    }
  }

  /** A common prefix that cannot be extended is the longest one. */
  lemma CommonPrefixUnique<T>(a: seq<T>, b: seq<T>, q: seq<T>)
    requires IsPrefix(q, a) && IsPrefix(q, b)
    requires |q| == |a| || |q| == |b| || a[|q|] != b[|q|]
    ensures q == LongestCommonPrefix(a, b)
  {
    CommonPrefixIsLongest(a, b, q);
  }

  /** The common prefix, collected element by element. */
  method CommonPrefix(handle1: seq<int>, handle2: seq<int>) returns (prefix: seq<int>)
    ensures prefix == LongestCommonPrefix(handle1, handle2)
  {
    prefix := [];
    var shorter := if |handle1| < |handle2| then |handle1| else |handle2|;
    var i := 0;
    while i < shorter && handle2[i] == handle1[i]
      invariant 0 <= i <= shorter
      invariant prefix == handle1[..i] == handle2[..i]
    {
      assert handle1[..i + 1] == handle1[..i] + [handle1[i]];
      assert handle2[..i + 1] == handle2[..i] + [handle2[i]];
      prefix := prefix + [handle1[i]];
      i := i + 1;
    }
    CommonPrefixUnique(handle1, handle2, prefix);
  }

  // ---------------------------------------------------------------------
  // Rewriting one run
  // ---------------------------------------------------------------------

  /** The handle with every `eps` reference dropped: the symbols it derives. */
  function Erase(h: seq<int>, eps: int): (r: seq<int>)
    ensures forall k :: 0 <= k < |r| ==> r[k] != eps
    ensures |r| <= |h|
  {
    if h == [] then [] else (if h[0] == eps then [] else [h[0]]) + Erase(h[1..], eps)
  }

  lemma {:induction false} EraseAppend(a: seq<int>, b: seq<int>, eps: int)
    ensures Erase(a + b, eps) == Erase(a, eps) + Erase(b, eps)
    decreases |a|
  {
    if a == [] {
      assert a + b == b;
    } else {
      assert (a + b)[1..] == a[1..] + b;
      EraseAppend(a[1..], b, eps);
    }
  }

  /**
   * What a removed handle becomes under the fresh non-terminal: its part
   * after the carried prefix, or ε alone when nothing is left. A handle
   * shorter than the prefix would make the source allocate an array of
   * negative length.
   */
  function Tail(carry: seq<int>, h: seq<int>, eps: int): seq<int>
    requires |carry| <= |h|
  {
    if |h| - |carry| != 0 then h[|carry|..] else [eps]
  }

  /** A handle that starts with the prefix is spelled again by prefix then tail, up to ε. */
  lemma TailRejoins(carry: seq<int>, h: seq<int>, eps: int)
    requires IsPrefix(carry, h)
    ensures Erase(carry + Tail(carry, h, eps), eps) == Erase(h, eps)
  {
    EraseAppend(carry, Tail(carry, h, eps), eps);
    if |h| == |carry| {
      assert h == carry;
      assert Erase([eps], eps) == [] by {
        assert [eps][1..] == [];
      }
      assert carry + [] == carry;
    } else {
      assert h == carry + h[|carry|..];
      EraseAppend(carry, h[|carry|..], eps);
    }
  }

  function Tails(carry: seq<int>, run: seq<Rule>, eps: int): (ts: seq<seq<int>>)
    requires forall k :: 0 <= k < |run| ==> |carry| <= |run[k].handle|
    ensures |ts| == |run|
  {
    seq(|run|, k requires 0 <= k < |run| => Tail(carry, run[k].handle, eps))
  }

  function RulesAt(rules: map<int, set<Rule>>, lhs: int): set<Rule> {
    if lhs in rules then rules[lhs] else {}
  }

  /**
   * The store after factoring `run` out of `lhs`: the run's rules are
   * removed, lhs -> carry newLhs is numbered `n`, and the tails are added to
   * `newLhs` numbered from n + 1 on, in the run's order.
   */
  function Factored(rules: map<int, set<Rule>>, lhs: int, run: seq<Rule>, carry: seq<int>, newLhs: int, n: int, eps: int): (f: map<int, set<Rule>>)
    requires lhs in rules
    requires forall k :: 0 <= k < |run| ==> |carry| <= |run[k].handle|
    ensures lhs in f && newLhs in f
  {
    var removed := rules[lhs := rules[lhs] - RuleSet(run)];
    var joined := removed[lhs := removed[lhs] + {Rule(n, carry + [newLhs])}];
    joined[newLhs := RulesAt(joined, newLhs) + NumberedFrom(n + 1, Tails(carry, run, eps))]
  }

  /**
   * Factoring a run whose handles all start with the carried prefix keeps
   * every handle derivable: lhs derives carry newLhs, newLhs derives the
   * handle's tail, and together they spell the handle again; the rules of
   * other left-hand sides and the rest of lhs are untouched.
   */
  lemma FactoredSpellsRun(rules: map<int, set<Rule>>, lhs: int, run: seq<Rule>, carry: seq<int>, newLhs: int, n: int, eps: int)
    requires lhs in rules && newLhs != lhs
    requires forall k :: 0 <= k < |run| ==> |carry| <= |run[k].handle|
    requires forall k :: 0 <= k < |run| ==> IsPrefix(carry, run[k].handle) && run[k].seqNum < n
    ensures var f := Factored(rules, lhs, run, carry, newLhs, n, eps);
      && lhs in f && newLhs in f
      && Rule(n, carry + [newLhs]) in f[lhs]
      && (forall r :: r in rules[lhs] && r !in run ==> r in f[lhs])
      && (forall k :: 0 <= k < |run| ==> run[k] !in f[lhs])
      && (forall k :: 0 <= k < |run| ==>
            var t := Tails(carry, run, eps)[k];
            Rule(n + 1 + k, t) in f[newLhs] && Erase(carry + t, eps) == Erase(run[k].handle, eps))
      && (forall l :: l in rules && l != lhs && l != newLhs ==> f[l] == rules[l])
  {
    var ts := Tails(carry, run, eps);
    forall k | 0 <= k < |run|
      ensures Rule(n + 1 + k, ts[k]) in NumberedFrom(n + 1, ts)
      ensures Erase(carry + ts[k], eps) == Erase(run[k].handle, eps)
    {
      TailRejoins(carry, run[k].handle, eps);
    }
  }

  // ---------------------------------------------------------------------
  // Finding runs
  // ---------------------------------------------------------------------

  /** The handles `start` .. start + count - 1 of a group share `carry` and are factored together. */
  datatype Event = Event(start: int, count: int, carry: seq<int>)

  /** The scan's bookkeeping: carried prefix, last value compared with, and the run counter. */
  datatype Scan = Scan(carry: seq<int>, lastseen: seq<int>, count: int)

  /** One step of the scan as the source writes it, on the handle at index i of the group. */
  function AsWrittenStep(st: Scan, cur: seq<int>, i: int): (Scan, seq<Event>) {
    var prefix := LongestCommonPrefix(st.lastseen, cur);
    if st.carry != prefix then
      var count := st.count + 1;
      var lastseen := if prefix == [] then cur else st.lastseen;
      var lastseen' := if |prefix| < |st.carry| then prefix else lastseen;
      if prefix == [] then (Scan(prefix, lastseen', 0), [Event(i - count, count, st.carry)])
      else (Scan(prefix, lastseen', count), [])
    else
      (Scan(prefix, cur, st.count), [])
  }

  /** The scan as written over a group of handles of one left-hand side: final state and events. */
  function AsWritten(g: seq<seq<int>>): (Scan, seq<Event>)
    requires g != []
    decreases |g|
  {
    if |g| == 1 then (Scan([], g[0], 0), [])
    else
      var before := AsWritten(g[..|g| - 1]);
      var step := AsWrittenStep(before.0, g[|g| - 1], |g| - 1);
      (step.0, before.1 + step.1)
  }

  function AsWrittenEvents(g: seq<seq<int>>): seq<Event> {
    if g == [] then [] else AsWritten(g).1
  }

  /**
   * One step of the corrected scan. A handle that shares a nonempty prefix
   * with the run so far joins it, and the carried prefix becomes the prefix
   * the whole run shares; a handle sharing nothing ends the run, which is
   * factored when it holds two handles or more. As in the source, the handle
   * that ends a factored run is then forgotten: the next handle is compared
   * with the empty prefix, so it cannot join a run with this one.
   */
  function CorrectedStep(st: Scan, cur: seq<int>, i: int): (Scan, seq<Event>) {
    var prefix := LongestCommonPrefix(st.lastseen, cur);
    if prefix != [] then
      (Scan(prefix, prefix, if st.carry == [] then 2 else st.count + 1), [])
    else if st.carry != [] then
      (Scan([], [], 0), [Event(i - st.count, st.count, st.carry)])
    else
      (Scan([], cur, 0), [])
  }

  function Corrected(g: seq<seq<int>>): (Scan, seq<Event>)
    requires g != []
    decreases |g|
  {
    if |g| == 1 then (Scan([], g[0], 0), [])
    else
      var before := Corrected(g[..|g| - 1]);
      var step := CorrectedStep(before.0, g[|g| - 1], |g| - 1);
      (step.0, before.1 + step.1)
  }

  function CorrectedEvents(g: seq<seq<int>>): seq<Event> {
    if g == [] then [] else Corrected(g).1
  }

  /** The event's run lies inside the group, has two handles or more, and every handle starts with the carried prefix. */
  predicate EventSound(g: seq<seq<int>>, e: Event) {
    && e.carry != [] && 2 <= e.count && 0 <= e.start && e.start + e.count <= |g|
    && forall k :: e.start <= k < e.start + e.count ==> IsPrefix(e.carry, g[k])
  }

  /** The corrected scan's state after the whole group. */
  predicate ScanInv(g: seq<seq<int>>, st: Scan) {
    && g != []
    && (st.carry == [] ==> st.count == 0 && (st.lastseen == g[|g| - 1] || st.lastseen == []))
    && (st.carry != [] ==>
          && 2 <= st.count <= |g| && st.lastseen == st.carry
          && forall k :: |g| - st.count <= k < |g| ==> IsPrefix(st.carry, g[k]))
  }

  /** Every run the corrected scan factors shares its carried prefix. */
  lemma {:induction false} CorrectedRunsShareCarry(g: seq<seq<int>>)
    requires g != []
    ensures ScanInv(g, Corrected(g).0)
    ensures forall e :: e in Corrected(g).1 ==> EventSound(g, e)
    decreases |g|
  {
    if |g| > 1 {
      var g' := g[..|g| - 1];
      CorrectedRunsShareCarry(g');
      var (st, events) := Corrected(g');
      var cur := g[|g| - 1];
      var prefix := LongestCommonPrefix(st.lastseen, cur);
      forall e | e in events ensures EventSound(g, e) {
        assert EventSound(g', e);
        forall k | e.start <= k < e.start + e.count ensures IsPrefix(e.carry, g[k]) {
          assert g[k] == g'[k];
        }
      }
      if prefix != [] && st.carry != [] {
        forall k | |g| - (st.count + 1) <= k < |g| ensures IsPrefix(prefix, g[k]) {
          if k < |g| - 1 {
            assert g[k] == g'[k];
            PrefixTransitive(prefix, st.carry, g[k]);
          }
        }
      } else if prefix != [] {
        forall k | |g| - 2 <= k < |g| ensures IsPrefix(prefix, g[k]) {
        }
      } else if st.carry != [] {
        forall k | |g| - 1 - st.count <= k < |g| - 1 ensures IsPrefix(st.carry, g[k]) {
          assert g[k] == g'[k];
        }
      }
    }
  }

  /** Both handles start with the same symbol, so their longest common prefix is not empty. */
  predicate SameHead(a: seq<int>, b: seq<int>) {
    a != [] && b != [] && a[0] == b[0]
  }

  /**
   * The only neighbours of the group that share a prefix are in its last
   * stretch: after a pair that shares one, every handle starts with the
   * pair's first symbol.
   */
  predicate OnlyLastRun(g: seq<seq<int>>) {
    forall j, k :: 1 <= j <= k < |g| && SameHead(g[j - 1], g[j]) ==> SameHead(g[j], g[k])
  }

  /** The state of a corrected scan that has factored nothing. */
  predicate QuietState(g: seq<seq<int>>, st: Scan) {
    && g != []
    && (st.carry == [] ==> st.lastseen == g[|g| - 1] && forall j :: 1 <= j < |g| ==> !SameHead(g[j - 1], g[j]))
    && (st.carry != [] ==>
          && 2 <= st.count <= |g| && st.lastseen == st.carry
          && SameHead(g[|g| - st.count], g[|g| - st.count + 1]) && st.carry[0] == g[|g| - st.count + 1][0])
  }

  /** A pair that shares a prefix before the end spoils OnlyLastRun for every extension. */
  lemma EarlyBreakStays(g: seq<seq<int>>, cur: seq<int>)
    requires !OnlyLastRun(g)
    ensures !OnlyLastRun(g + [cur])
  {
    var j, k :| 1 <= j <= k < |g| && SameHead(g[j - 1], g[j]) && !SameHead(g[j], g[k]);
    var g2 := g + [cur];
    assert g2[j - 1] == g[j - 1] && g2[j] == g[j] && g2[k] == g[k];
  }

  /** With no run open, the next handle either opens one with the last handle or leaves the scan quiet. */
  lemma QuietStepClosed(g: seq<seq<int>>, cur: seq<int>, st: Scan)
    requires QuietState(g, st) && st.carry == []
    ensures var step := CorrectedStep(st, cur, |g|);
      step.1 == [] && OnlyLastRun(g + [cur]) && QuietState(g + [cur], step.0)
  {
    var g2 := g + [cur];
    assert LongestCommonPrefix(st.lastseen, cur) != [] <==> SameHead(st.lastseen, cur);
    forall j | 1 <= j < |g| ensures !SameHead(g2[j - 1], g2[j]) {
      assert g2[j - 1] == g[j - 1] && g2[j] == g[j];
    }
  }

  /** With a run open, the next handle either joins it or closes it, and closing it breaks OnlyLastRun. */
  lemma QuietStepOpen(g: seq<seq<int>>, cur: seq<int>, st: Scan)
    requires QuietState(g, st) && st.carry != [] && OnlyLastRun(g)
    ensures var step := CorrectedStep(st, cur, |g|);
      && (step.1 == [] <==> OnlyLastRun(g + [cur]))
      && (step.1 == [] ==> QuietState(g + [cur], step.0))
  {
    var g2 := g + [cur];
    var j0 := |g| - st.count + 1;
    assert g2[j0 - 1] == g[j0 - 1] && g2[j0] == g[j0];
    var prefix := LongestCommonPrefix(st.carry, cur);
    assert prefix != [] <==> SameHead(st.carry, cur);
    if prefix == [] {
      assert !SameHead(g2[j0], g2[|g2| - 1]);
    } else {
      forall j, k | 1 <= j <= k < |g2| && SameHead(g2[j - 1], g2[j]) ensures SameHead(g2[j], g2[k]) {
        if j < |g| {
          assert g2[j - 1] == g[j - 1] && g2[j] == g[j];
          if k == |g| {
            if j <= j0 {
              assert SameHead(g[j], g[j0]);
            } else {
              assert SameHead(g[j0], g[j]);
            }
          } else {
            assert g2[k] == g[k];
          }
        }
      }
      assert g2[|g2| - (st.count + 1)] == g[|g| - st.count];
    }
  }

  /**
   * The corrected scan factors nothing in a group exactly when the group's
   * only neighbours with a common prefix form its last stretch, the run the
   * scan leaves open at the end.
   */
  lemma {:induction false} QuietIffOnlyLastRun(g: seq<seq<int>>)
    requires g != []
    ensures CorrectedEvents(g) == [] <==> OnlyLastRun(g)
    ensures CorrectedEvents(g) == [] ==> QuietState(g, Corrected(g).0)
    decreases |g|
  {
    if |g| > 1 {
      var g' := g[..|g| - 1];
      var cur := g[|g| - 1];
      assert g == g' + [cur];
      QuietIffOnlyLastRun(g');
      CorrectedSnoc(g', cur);
      if CorrectedEvents(g') != [] {
        EarlyBreakStays(g', cur);
      } else if Corrected(g').0.carry == [] {
        QuietStepClosed(g', cur, Corrected(g').0);
      } else {
        CorrectedRunsShareCarry(g');
        QuietStepOpen(g', cur, Corrected(g').0);
      }
    }
  }

  // ---------------------------------------------------------------------
  // The scan that loses a handle
  // ---------------------------------------------------------------------

  /** The sort leaves no neighbouring pair in the wrong order. */
  predicate Settled(g: seq<seq<int>>) {
    forall j :: 1 <= j < |g| ==> !Before(g[j], g[j - 1])
  }

  /** S -> abx | aby | ac | acd | ace | f with references a = 4 ... f = 9, x = 10, y = 11, in sorted order. */
  const Example: seq<seq<int>> := [[4, 5, 10], [4, 5, 11], [4, 6], [4, 6, 7], [4, 6, 8], [9]]

  lemma ExampleSettled()
    ensures Settled(Example)
  {
    forall j | 1 <= j < |Example| ensures !Before(Example[j], Example[j - 1]) {
      var a, b := Example[j], Example[j - 1];
      forall k | 0 <= k < |a| && k < |b| && a[..k] == b[..k] ensures a[k] >= b[k] {
        if k > 0 {
          assert a[0] == a[..k][0];
        }
      }
    }
  }

  lemma AsWrittenSnoc(g: seq<seq<int>>, x: seq<int>)
    requires g != []
    ensures var step := AsWrittenStep(AsWritten(g).0, x, |g|);
      AsWritten(g + [x]) == (step.0, AsWritten(g).1 + step.1)
  {
    assert (g + [x])[..|g|] == g;
  }

  lemma AsWrittenFirstThree()
    ensures AsWritten([[4, 5, 10], [4, 5, 11], [4, 6]]).0 == Scan([4], [4], 2)
    ensures AsWritten([[4, 5, 10], [4, 5, 11], [4, 6]]).1 == []
  {
    var g1 := [[4, 5, 10]];
    var g2 := g1 + [[4, 5, 11]];
    var g3 := g2 + [[4, 6]];
    assert AsWritten(g1).0 == Scan([], [4, 5, 10], 0) && AsWritten(g1).1 == [];
    AsWrittenSnoc(g1, [4, 5, 11]);
    assert LongestCommonPrefix([4, 5, 10], [4, 5, 11]) == [4, 5];
    assert AsWrittenStep(Scan([], [4, 5, 10], 0), [4, 5, 11], 1).0 == Scan([4, 5], [4, 5, 10], 1) && AsWrittenStep(Scan([], [4, 5, 10], 0), [4, 5, 11], 1).1 == [];
    assert AsWritten(g2).0 == Scan([4, 5], [4, 5, 10], 1) && AsWritten(g2).1 == [];
    AsWrittenSnoc(g2, [4, 6]);
    assert LongestCommonPrefix([4, 5, 10], [4, 6]) == [4];
    assert AsWrittenStep(Scan([4, 5], [4, 5, 10], 1), [4, 6], 2).0 == Scan([4], [4], 2) && AsWrittenStep(Scan([4, 5], [4, 5, 10], 1), [4, 6], 2).1 == [];
    assert AsWritten(g3).0 == Scan([4], [4], 2) && AsWritten(g3).1 == [];
    assert g3 == [[4, 5, 10], [4, 5, 11], [4, 6]];
  }

  lemma AsWrittenExample()
    ensures AsWritten(Example).1 == [Event(1, 4, [4, 6])]
  {
    var g3 := [[4, 5, 10], [4, 5, 11], [4, 6]];
    var g4 := g3 + [[4, 6, 7]];
    var g5 := g4 + [[4, 6, 8]];
    assert Example == g5 + [[9]];
    AsWrittenFirstThree();
    AsWrittenSnoc(g3, [4, 6, 7]);
    assert LongestCommonPrefix([4], [4, 6, 7]) == [4];
    assert AsWrittenStep(Scan([4], [4], 2), [4, 6, 7], 3).0 == Scan([4], [4, 6, 7], 2) && AsWrittenStep(Scan([4], [4], 2), [4, 6, 7], 3).1 == [];
    assert AsWritten(g4).0 == Scan([4], [4, 6, 7], 2) && AsWritten(g4).1 == [];
    AsWrittenSnoc(g4, [4, 6, 8]);
    assert LongestCommonPrefix([4, 6, 7], [4, 6, 8]) == [4, 6];
    assert AsWrittenStep(Scan([4], [4, 6, 7], 2), [4, 6, 8], 4).0 == Scan([4, 6], [4, 6, 7], 3) && AsWrittenStep(Scan([4], [4, 6, 7], 2), [4, 6, 8], 4).1 == [];
    assert AsWritten(g5).0 == Scan([4, 6], [4, 6, 7], 3) && AsWritten(g5).1 == [];
    AsWrittenSnoc(g5, [9]);
    assert LongestCommonPrefix([4, 6, 7], [9]) == [];
    assert AsWrittenStep(Scan([4, 6], [4, 6, 7], 3), [9], 5).0 == Scan([], [], 0) && AsWrittenStep(Scan([4, 6], [4, 6, 7], 3), [9], 5).1 == [Event(1, 4, [4, 6])];
    assert AsWritten(g5 + [[9]]).1 == [] + [Event(1, 4, [4, 6])] == [Event(1, 4, [4, 6])];
  }

  /**
   * On Example the scan as written factors the four handles aby, ac, acd,
   * ace under the prefix ac, although aby does not start with it: aby is
   * rewritten to ac y.
   */
  lemma AsWrittenRewritesForeignHandle()
    ensures Settled(Example)
    ensures AsWrittenEvents(Example) == [Event(1, 4, [4, 6])]
    ensures !IsPrefix([4, 6], Example[1])
    ensures Erase([4, 6] + Tail([4, 6], Example[1], 1), 1) != Erase(Example[1], 1)
  {
    ExampleSettled();
    AsWrittenExample();
    assert Example[1][..2] == [4, 5];
    assert Tail([4, 6], Example[1], 1) == [11];
    assert [4, 6] + [11] == [4, 6, 11];
    assert Erase([4, 6, 11], 1)[1] == 6;
    assert Erase([4, 5, 11], 1)[1] == 5;
  }

  lemma CorrectedSnoc(g: seq<seq<int>>, x: seq<int>)
    requires g != []
    ensures var step := CorrectedStep(Corrected(g).0, x, |g|);
      Corrected(g + [x]) == (step.0, Corrected(g).1 + step.1)
  {
    assert (g + [x])[..|g|] == g;
  }

  lemma CorrectedFirstThree()
    ensures Corrected([[4, 5, 10], [4, 5, 11], [4, 6]]).0 == Scan([4], [4], 3)
    ensures Corrected([[4, 5, 10], [4, 5, 11], [4, 6]]).1 == []
  {
    var g1 := [[4, 5, 10]];
    var g2 := g1 + [[4, 5, 11]];
    var g3 := g2 + [[4, 6]];
    assert Corrected(g1).0 == Scan([], [4, 5, 10], 0) && Corrected(g1).1 == [];
    CorrectedSnoc(g1, [4, 5, 11]);
    assert LongestCommonPrefix([4, 5, 10], [4, 5, 11]) == [4, 5];
    assert CorrectedStep(Scan([], [4, 5, 10], 0), [4, 5, 11], 1).0 == Scan([4, 5], [4, 5], 2) && CorrectedStep(Scan([], [4, 5, 10], 0), [4, 5, 11], 1).1 == [];
    assert Corrected(g2).0 == Scan([4, 5], [4, 5], 2) && Corrected(g2).1 == [];
    CorrectedSnoc(g2, [4, 6]);
    assert LongestCommonPrefix([4, 5], [4, 6]) == [4];
    assert CorrectedStep(Scan([4, 5], [4, 5], 2), [4, 6], 2).0 == Scan([4], [4], 3) && CorrectedStep(Scan([4, 5], [4, 5], 2), [4, 6], 2).1 == [];
    assert Corrected(g3).0 == Scan([4], [4], 3) && Corrected(g3).1 == [];
    assert g3 == [[4, 5, 10], [4, 5, 11], [4, 6]];
  }

  /** On the same group the corrected scan factors the five handles that start with a, under the prefix a. */
  lemma CorrectedFactorsWholeRun()
    ensures CorrectedEvents(Example) == [Event(0, 5, [4])]
  {
    var g3 := [[4, 5, 10], [4, 5, 11], [4, 6]];
    var g4 := g3 + [[4, 6, 7]];
    var g5 := g4 + [[4, 6, 8]];
    assert Example == g5 + [[9]];
    CorrectedFirstThree();
    CorrectedSnoc(g3, [4, 6, 7]);
    assert LongestCommonPrefix([4], [4, 6, 7]) == [4];
    assert CorrectedStep(Scan([4], [4], 3), [4, 6, 7], 3).0 == Scan([4], [4], 4) && CorrectedStep(Scan([4], [4], 3), [4, 6, 7], 3).1 == [];
    assert Corrected(g4).0 == Scan([4], [4], 4) && Corrected(g4).1 == [];
    CorrectedSnoc(g4, [4, 6, 8]);
    assert LongestCommonPrefix([4], [4, 6, 8]) == [4];
    assert CorrectedStep(Scan([4], [4], 4), [4, 6, 8], 4).0 == Scan([4], [4], 5) && CorrectedStep(Scan([4], [4], 4), [4, 6, 8], 4).1 == [];
    assert Corrected(g5).0 == Scan([4], [4], 5) && Corrected(g5).1 == [];
    CorrectedSnoc(g5, [9]);
    assert LongestCommonPrefix([4], [9]) == [];
    assert CorrectedStep(Scan([4], [4], 5), [9], 5).0 == Scan([], [], 0) && CorrectedStep(Scan([4], [4], 5), [9], 5).1 == [Event(0, 5, [4])];
    assert Corrected(g5 + [[9]]).1 == [] + [Event(0, 5, [4])] == [Event(0, 5, [4])];
  }

  // ---------------------------------------------------------------------
  // Rewriting the store
  // ---------------------------------------------------------------------

  /** An upper bound on the lengths of the texts. */
  ghost function MaxLength(texts: set<string>): (m: nat)
    ensures forall x :: x in texts ==> |x| <= m
    decreases texts
  {
    if texts == {} then 0
    else
      var x :| x in texts;
      var rest := MaxLength(texts - {x});
      if |x| > rest then |x| else rest
  }

  /**
   * Registers as a non-terminal the first of `first`, `first'`, `first''`,
   * ... that is not yet a symbol.
   */
  method MintNonTerminal(t: ReferenceTable, first: string) returns (name: string)
    requires t.Valid()
    modifies t, t.nonTerminals
    ensures t.Valid()
    ensures old(t.TextsDisjoint()) ==> t.TextsDisjoint()
    ensures name !in old(t.Texts())
    ensures |first| <= |name| && name[..|first|] == first
    ensures forall k :: |first| <= k < |name| ==> name[k] == '\''
    ensures forall m :: |first| <= m < |name| ==> name[..m] in old(t.Texts())
    ensures t.Snapshot() == old(t.Snapshot()).(nonTerminals := old(t.nonTerminals.forward)[old(t.refCount) := name],
                                               nonTerminalTexts := old(t.nonTerminals.backward)[name := old(t.refCount)])
    ensures t.refCount == old(t.refCount) + 1
  {
    ghost var texts := t.Texts();
    name := first;
    var added := t.AddNonTerminal(name);
    while !added
      invariant t.Valid()
      invariant old(t.TextsDisjoint()) ==> t.TextsDisjoint()
      invariant |first| <= |name| && name[..|first|] == first
      invariant forall k :: |first| <= k < |name| ==> name[k] == '\''
      invariant forall m :: |first| <= m < |name| ==> name[..m] in texts
      invariant added <==> name !in texts
      invariant added ==> t.Snapshot() == old(t.Snapshot()).(nonTerminals := old(t.nonTerminals.forward)[old(t.refCount) := name],
                                                             nonTerminalTexts := old(t.nonTerminals.backward)[name := old(t.refCount)])
      invariant t.refCount == if added then old(t.refCount) + 1 else old(t.refCount)
      invariant !added ==> t.Snapshot() == old(t.Snapshot())
      decreases MaxLength(texts) - |name|
    {
      var longer := name + "'";
      assert longer[..|name|] == name && name in texts;
      assert longer[..|first|] == name[..|first|];
      assert forall m :: |first| <= m < |name| ==> longer[..m] == name[..m];
      name := longer;
      added := t.AddNonTerminal(name);
    }
  }

  function RuleSet(run: seq<Rule>): set<Rule> {
    set r | r in run
  }

  /** Removes the run's rules from `lhs`, one by one. */
  method RemoveRun(p: Productions, lhs: int, run: seq<Rule>)
    requires lhs in p.rules
    modifies p
    ensures p.rules == old(p.rules)[lhs := old(p.rules)[lhs] - RuleSet(run)]
    ensures p.sequenceNum == old(p.sequenceNum)
    ensures old(p.Valid()) ==> p.Valid()
  {
    assert RuleSet(run[..0]) == {};
    assert p.rules[lhs] - {} == p.rules[lhs];
    assert p.rules == p.rules[lhs := p.rules[lhs] - RuleSet(run[..0])];
    for j := 0 to |run|
      invariant p.rules == old(p.rules)[lhs := old(p.rules)[lhs] - RuleSet(run[..j])]
      invariant p.sequenceNum == old(p.sequenceNum)
      invariant old(p.Valid()) ==> p.Valid()
    {
      ghost var before := p.rules;
      p.RemoveProduction(lhs, run[j]);
      assert run[..j + 1] == run[..j] + [run[j]];
      assert RuleSet(run[..j + 1]) == RuleSet(run[..j]) + {run[j]};
      assert before[lhs] - {run[j]} == old(p.rules)[lhs] - RuleSet(run[..j + 1]);
    }
    assert run[..|run|] == run;
  }

  /** The store holds `base` plus the first `j` tails under `lhs`, numbered from `start`, and nothing else changed. */
  ghost predicate TailsAdded(rules: map<int, set<Rule>>, before: map<int, set<Rule>>, lhs: int,
                             base: set<Rule>, start: int, tails: seq<seq<int>>, j: int)
    requires 0 <= j <= |tails|
  {
    && rules - {lhs} == before - {lhs}
    && RulesAt(rules, lhs) == base + NumberedFrom(start, tails[..j])
    && (j > 0 ==> lhs in rules)
  }

  /** Adding the tail at `j` under `lhs`, numbered `start + j`, extends TailsAdded by one. */
  lemma TailsAddedStep(rules: map<int, set<Rule>>, before: map<int, set<Rule>>, lhs: int,
                       base: set<Rule>, start: int, tails: seq<seq<int>>, j: int)
    requires 0 <= j < |tails| && TailsAdded(rules, before, lhs, base, start, tails, j)
    ensures TailsAdded(rules[lhs := RulesAt(rules, lhs) + {Rule(start + j, tails[j])}], before, lhs, base, start, tails, j + 1)
  {
    var rules' := rules[lhs := RulesAt(rules, lhs) + {Rule(start + j, tails[j])}];
    NumberedFromSnoc(start, tails[..j], tails[j]);
    assert tails[..j + 1] == tails[..j] + [tails[j]];
    assert rules' - {lhs} == rules - {lhs};
  }

  /** AddProduction of the tail at `j`, one step of AddTails. */
  method AddNext(p: Productions, lhs: int, tails: seq<seq<int>>, j: int,
                 ghost before: map<int, set<Rule>>, ghost base: set<Rule>, ghost start: int)
    requires p.Valid() && 0 <= j < |tails|
    requires TailsAdded(p.rules, before, lhs, base, start, tails, j) && p.sequenceNum == start + j
    modifies p, p.refTable.unsorted, p.refTable.nonTerminals
    ensures p.Valid()
    ensures TailsAdded(p.rules, before, lhs, base, start, tails, j + 1) && p.sequenceNum == start + j + 1
    ensures forall r :: p.refTable.TextOf(r) == old(p.refTable.TextOf(r))
  {
    TailsAddedStep(p.rules, before, lhs, base, start, tails, j);
    p.AddProduction(lhs, tails[j]);
  }

  /** Adds each handle under `lhs`, in order. */
  method AddTails(p: Productions, lhs: int, tails: seq<seq<int>>)
    requires p.Valid() && tails != []
    modifies p, p.refTable.unsorted, p.refTable.nonTerminals
    ensures p.Valid()
    ensures p.rules == old(p.rules)[lhs := RulesAt(old(p.rules), lhs) + NumberedFrom(old(p.sequenceNum), tails)]
    ensures p.sequenceNum == old(p.sequenceNum) + |tails|
    ensures forall r :: p.refTable.TextOf(r) == old(p.refTable.TextOf(r))
  {
    ghost var before, start := p.rules, p.sequenceNum;
    ghost var base := RulesAt(before, lhs);
    for j := 0 to |tails|
      invariant p.Valid()
      invariant TailsAdded(p.rules, before, lhs, base, start, tails, j) && p.sequenceNum == start + j
      invariant forall r :: p.refTable.TextOf(r) == old(p.refTable.TextOf(r))
    {
      AddNext(p, lhs, tails, j, before, base, start);
    }
    assert tails[..|tails|] == tails;
    Rejoin(p.rules, before, lhs);
  }

  /** A map that agrees with `before` off `k` is `before` updated at `k`. */
  lemma Rejoin<K, V>(m: map<K, V>, before: map<K, V>, k: K)
    requires m - {k} == before - {k} && k in m
    ensures m == before[k := m[k]]
  {
    assert m.Keys == (before - {k}).Keys + {k};
    forall x | x in m ensures m[x] == before[k := m[k]][x] {
      if x != k {
        assert x in m - {k};
      }
    }
  }

  /** With the reserved symbols in place and no text in two tables, ε is reference 1. */
  lemma EpsilonIsOne(s: Tables, refCount: int)
    requires TablesValid(s, refCount) && DisjointTexts(s)
    ensures RefAt(s, Epsilon) == 1
  {
    assert Epsilon in s.terminalTexts && s.terminalTexts[Epsilon] == 1;
  }

  /** Registers the fresh non-terminal named after `lhs` with primes; the rules are not touched. */
  method NewNonTerminal(p: Productions, lhs: int) returns (newLhs: int)
    requires p.Valid()
    modifies p.refTable, p.refTable.nonTerminals
    ensures p.Valid()
    ensures newLhs == old(p.refTable.refCount) && newLhs !in old(p.refTable.Refs())
    ensures p.refTable.refCount == old(p.refTable.refCount) + 1
    ensures p.refTable.TextOf(newLhs) !in old(p.refTable.Texts())
    ensures IsPrefix(old(p.refTable.TextOf(lhs)) + "'", p.refTable.TextOf(newLhs))
  {
    var base := p.refTable.Lookup(lhs);
    var name := MintNonTerminal(p.refTable, base + "'");
    newLhs := p.refTable.LookupSymbol(name);
  }

  /** The rewrite of the store for one run, once N' is registered. */
  method RewriteRun(p: Productions, lhs: int, carry: seq<int>, run: seq<Rule>, newLhs: int)
    requires p.Valid() && lhs in p.rules && run != []
    requires forall k :: 0 <= k < |run| ==> |carry| <= |run[k].handle|
    modifies p, p.refTable.unsorted, p.refTable.nonTerminals
    ensures p.Valid()
    ensures p.rules == Factored(old(p.rules), lhs, run, carry, newLhs, old(p.sequenceNum), 1)
    ensures p.sequenceNum == old(p.sequenceNum) + 1 + |run|
    ensures forall r :: p.refTable.TextOf(r) == old(p.refTable.TextOf(r))
  {
    ghost var rules, n := p.rules, p.sequenceNum;
    RemoveRun(p, lhs, run);
    ghost var removed := p.rules;
    AddFactored(p, lhs, carry, run, newLhs);
    assert p.rules == Factored(rules, lhs, run, carry, newLhs, n, 1) by {
      FactoredUnfold(rules, removed, lhs, run, carry, newLhs, n, 1);
    }
  }

  lemma FactoredUnfold(rules: map<int, set<Rule>>, removed: map<int, set<Rule>>, lhs: int, run: seq<Rule>, carry: seq<int>, newLhs: int, n: int, eps: int)
    requires lhs in rules
    requires forall k :: 0 <= k < |run| ==> |carry| <= |run[k].handle|
    requires removed == rules[lhs := rules[lhs] - RuleSet(run)]
    ensures var joined := removed[lhs := removed[lhs] + {Rule(n, carry + [newLhs])}];
      Factored(rules, lhs, run, carry, newLhs, n, eps) == joined[newLhs := RulesAt(joined, newLhs) + NumberedFrom(n + 1, Tails(carry, run, eps))]
  {
  }

  /** After the run's removal: lhs -> carry N', then N' -> tail for each handle of the run. */
  method AddFactored(p: Productions, lhs: int, carry: seq<int>, run: seq<Rule>, newLhs: int)
    requires p.Valid() && lhs in p.rules && run != []
    requires forall k :: 0 <= k < |run| ==> |carry| <= |run[k].handle|
    modifies p, p.refTable.unsorted, p.refTable.nonTerminals
    ensures p.Valid()
    ensures var joined := old(p.rules)[lhs := old(p.rules)[lhs] + {Rule(old(p.sequenceNum), carry + [newLhs])}];
      p.rules == joined[newLhs := RulesAt(joined, newLhs) + NumberedFrom(old(p.sequenceNum) + 1, Tails(carry, run, 1))]
    ensures p.sequenceNum == old(p.sequenceNum) + 1 + |run|
    ensures forall r :: p.refTable.TextOf(r) == old(p.refTable.TextOf(r))
  {
    p.AddProduction(lhs, carry + [newLhs]);
    var eps := p.refTable.LookupSymbol(Epsilon);
    EpsilonIsOne(p.refTable.Snapshot(), p.refTable.refCount);
    AddTails(p, newLhs, Tails(carry, run, eps));
  }

  /**
   * Factors one run out of `lhs`: registers the fresh non-terminal N' named
   * after `lhs` with primes, removes the run's rules, adds lhs -> carry N'
   * and then N' -> tail for each handle of the run, in order.
   */
  method FactorRun(p: Productions, lhs: int, carry: seq<int>, run: seq<Rule>) returns (newLhs: int)
    requires p.Valid() && lhs in p.rules && run != []
    requires forall k :: 0 <= k < |run| ==> |carry| <= |run[k].handle|
    modifies p, p.refTable, p.refTable.unsorted, p.refTable.nonTerminals
    ensures p.Valid()
    ensures newLhs == old(p.refTable.refCount) && newLhs !in old(p.refTable.Refs())
    ensures p.refTable.refCount == old(p.refTable.refCount) + 1
    ensures p.refTable.TextOf(newLhs) !in old(p.refTable.Texts())
    ensures IsPrefix(old(p.refTable.TextOf(lhs)) + "'", p.refTable.TextOf(newLhs))
    ensures p.rules == Factored(old(p.rules), lhs, run, carry, newLhs, old(p.sequenceNum), 1)
    ensures p.sequenceNum == old(p.sequenceNum) + 1 + |run|
  {
    newLhs := NewNonTerminal(p, lhs);
    RewriteRun(p, lhs, carry, run, newLhs);
  }
}
