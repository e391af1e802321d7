/**
 * The driver of left factoring: each pass lists every rule, bubble-sorts the
 * handles of each left-hand side, and runs the corrected scan over each
 * left-hand side's handles, factoring every run it closes.
 */
module LeftFactorPasses {

  import opened Wrappers
  import opened SymbolTable
  import opened GrammarProductions
  import opened LeftFactoring

  // ---------------------------------------------------------------------
  // Listing the rules
  // ---------------------------------------------------------------------

  /** No entry appears twice. */
  predicate Distinct(s: seq<(int, Rule)>) {
    forall i, j :: 0 <= i < j < |s| ==> s[i] != s[j]
  }

  /** Entries with the same left-hand side stand next to each other. */
  predicate Grouped(s: seq<(int, Rule)>) {
    forall i, k, j :: 0 <= i < k < j < |s| && s[i].0 == s[j].0 ==> s[k].0 == s[i].0
  }

  /** Appending a new entry keeps the listing distinct and grouped, when its left-hand side is at the end or absent. */
  lemma AppendEntry(t: seq<(int, Rule)>, x: (int, Rule))
    requires Distinct(t) && Grouped(t) && x !in t
    requires forall i, k :: 0 <= i < k < |t| && t[i].0 == x.0 ==> t[k].0 == x.0
    ensures Distinct(t + [x]) && Grouped(t + [x])
  {
    var u := t + [x];
    forall i, j | 0 <= i < j < |u| ensures u[i] != u[j] {
      if j == |t| {
        assert u[i] == t[i];
      } else {
        assert u[i] == t[i] && u[j] == t[j];
      }
    }
    forall i, k, j | 0 <= i < k < j < |u| && u[i].0 == u[j].0 ensures u[k].0 == u[i].0 {
      if j == |t| {
        assert u[i] == t[i] && u[k] == t[k];
      } else {
        assert u[i] == t[i] && u[k] == t[k] && u[j] == t[j];
      }
    }
  }

  /** The rules of `lhs` appended to `s`, with `s` holding no entry of `lhs` yet. */
  method AppendRulesOf(p: Productions, lhs: int, s: seq<(int, Rule)>) returns (t: seq<(int, Rule)>)
    requires lhs in p.rules && Distinct(s) && Grouped(s)
    requires forall i :: 0 <= i < |s| ==> s[i].0 != lhs
    ensures Distinct(t) && Grouped(t)
    ensures |s| <= |t| && t[..|s|] == s
    ensures forall i :: |s| <= i < |t| ==> t[i].0 == lhs
    ensures forall r :: (lhs, r) in t <==> r in p.rules[lhs]
    ensures forall x :: x in t && x.0 != lhs ==> x in s
  {
    t := s;
    var rest := p.rules[lhs];
    while rest != {}
      invariant Distinct(t) && Grouped(t)
      invariant |s| <= |t| && t[..|s|] == s
      invariant forall i :: |s| <= i < |t| ==> t[i].0 == lhs
      invariant rest <= p.rules[lhs]
      invariant forall r :: (lhs, r) in t <==> r in p.rules[lhs] - rest
      invariant forall x :: x in t && x.0 != lhs ==> x in s
      decreases |rest|
    {
      ghost var someRule := ElementOf(rest);
      var r :| r in rest;
      assert (lhs, r) !in t;
      assert forall i, k :: 0 <= i < k < |t| && t[i].0 == lhs ==> t[k].0 == lhs by {
        forall i | 0 <= i < |s| ensures t[i].0 != lhs {
          assert t[i] == t[..|s|][i];
        }
      }
      AppendEntry(t, (lhs, r));
      t := t + [(lhs, r)];
      rest := rest - {r};
    }
  }

  /** GetAllRules().ToArray(): every rule once, the rules of each left-hand side together. */
  method RulesArray(p: Productions) returns (rules: array<(int, Rule)>)
    ensures fresh(rules)
    ensures forall x :: x in rules[..] <==> x in p.GetAllRules()
    ensures Distinct(rules[..]) && Grouped(rules[..])
  {
    var s: seq<(int, Rule)> := [];
    var keys := p.rules.Keys;
    while keys != {}
      invariant keys <= p.rules.Keys
      invariant Distinct(s) && Grouped(s)
      invariant forall x :: x in s <==> x.0 in p.rules.Keys - keys && x.1 in p.rules[x.0]
      decreases |keys|
    {
      ghost var someKey := ElementOf(keys);
      var lhs :| lhs in keys;
      forall i | 0 <= i < |s| ensures s[i].0 != lhs {
        assert s[i] in s;
      }
      ghost var before := s;
      s := AppendRulesOf(p, lhs, s);
      forall x ensures x in s <==> x.0 in p.rules.Keys - (keys - {lhs}) && x.1 in p.rules[x.0] {
        if x.0 != lhs && x in s {
          assert x in before;
        }
        if x.0 != lhs && x in before {
          assert before == s[..|before|];
        }
      }
      keys := keys - {lhs};
    }
    rules := new (int, Rule)[|s|](i requires 0 <= i < |s| => s[i]);
    assert rules[..] == s;
  }

  // ---------------------------------------------------------------------
  // Sorting the handles of each left-hand side
  // ---------------------------------------------------------------------

  /** Entry j has the same left-hand side as entry j - 1 and a handle that sorts before it. */
  predicate OutOfOrder(s: seq<(int, Rule)>, j: int)
    requires 1 <= j < |s|
  {
    s[j].0 == s[j - 1].0 && Before(s[j].1.handle, s[j - 1].1.handle)
  }

  /** Exchanges entries j - 1 and j, which have the same left-hand side. */
  method SwapDown(rules: array<(int, Rule)>, j: int)
    requires 1 <= j < rules.Length && rules[j].0 == rules[j - 1].0
    modifies rules
    ensures rules[..] == old(rules[..])[j - 1 := old(rules[j])][j := old(rules[j - 1])]
    ensures multiset(rules[..]) == multiset(old(rules[..]))
    ensures forall k :: 0 <= k < rules.Length ==> rules[k].0 == old(rules[k].0)
  {
    rules[j], rules[j - 1] := rules[j - 1], rules[j];
  }

  /** One sweep of the bubble sort; `change` tells whether it swapped anything. */
  method BubblePass(rules: array<(int, Rule)>) returns (change: bool)
    modifies rules
    ensures multiset(rules[..]) == multiset(old(rules[..]))
    ensures forall k :: 0 <= k < rules.Length ==> rules[k].0 == old(rules[k].0)
    ensures !change ==> rules[..] == old(rules[..])
    ensures !change ==> forall j :: 1 <= j < rules.Length ==> !OutOfOrder(rules[..], j)
  {
    change := false;
    var j := 1;
    while j < rules.Length
      invariant multiset(rules[..]) == multiset(old(rules[..]))
      invariant forall k :: 0 <= k < rules.Length ==> rules[k].0 == old(rules[k].0)
      invariant !change ==> rules[..] == old(rules[..])
      invariant !change ==> forall k :: 1 <= k < j && k < rules.Length ==> !OutOfOrder(rules[..], k)
    {
      if rules[j].0 == rules[j - 1].0 {
        var less := CompareIntegerArray(rules[j].1.handle, rules[j - 1].1.handle);
        if less {
          SwapDown(rules, j);
          change := true;
        }
      }
      j := j + 1;
    }
  }

  /**
   * The bubble sort: sweeps until one swaps nothing, at most one sweep per
   * entry. Swaps only ever exchange neighbours with the same left-hand side.
   */
  method SortRules(rules: array<(int, Rule)>) returns (settled: bool)
    modifies rules
    ensures multiset(rules[..]) == multiset(old(rules[..]))
    ensures forall k :: 0 <= k < rules.Length ==> rules[k].0 == old(rules[k].0)
    ensures settled ==> forall j :: 1 <= j < rules.Length ==> !OutOfOrder(rules[..], j)
  {
    settled := false;
    var i := 0;
    while i < rules.Length && !settled
      invariant multiset(rules[..]) == multiset(old(rules[..]))
      invariant forall k :: 0 <= k < rules.Length ==> rules[k].0 == old(rules[k].0)
      invariant settled ==> forall j :: 1 <= j < rules.Length ==> !OutOfOrder(rules[..], j)
    {
      var change := BubblePass(rules);
      settled := !change;
      i := i + 1;
    }
  }

  // ---------------------------------------------------------------------
  // Factoring the runs of one left-hand side
  // ---------------------------------------------------------------------

  function Handles(s: seq<(int, Rule)>): (hs: seq<seq<int>>)
    ensures |hs| == |s|
  {
    seq(|s|, k requires 0 <= k < |s| => s[k].1.handle)
  }

  function RunRules(s: seq<(int, Rule)>): (rs: seq<Rule>)
    ensures |rs| == |s|
  {
    seq(|s|, k requires 0 <= k < |s| => s[k].1)
  }

  /** The parts of the productions object a pass changes. */
  datatype Store = Store(rules: map<int, set<Rule>>, refCount: int, sequenceNum: int)

  function StoreOf(p: Productions): Store
    reads p, p.refTable
  {
    Store(p.rules, p.refTable.refCount, p.sequenceNum)
  }

  /** The event's run lies inside the group and no handle of it is shorter than the carried prefix. */
  predicate EventFits(group: seq<Rule>, e: Event) {
    && 0 <= e.start && 0 <= e.count && e.start + e.count <= |group|
    && Fits(group[e.start..e.start + e.count], e.carry)
  }

  predicate AllFit(group: seq<Rule>, events: seq<Event>) {
    forall i :: 0 <= i < |events| ==> EventFits(group, events[i])
  }

  predicate Fits(run: seq<Rule>, carry: seq<int>) {
    forall k :: 0 <= k < |run| ==> |carry| <= |run[k].handle|
  }

  /** The run an event names within its group. */
  function RunOf(group: seq<Rule>, e: Event): seq<Rule>
    requires EventFits(group, e)
  {
    group[e.start..e.start + e.count]
  }

  /** The store after factoring `run` with the next free reference and sequence numbers. */
  function FactorOne(prev: Store, lhs: int, run: seq<Rule>, carry: seq<int>): (r: Store)
    requires lhs in prev.rules && Fits(run, carry)
    ensures lhs in r.rules
    ensures r.refCount == prev.refCount + 1 && r.sequenceNum == prev.sequenceNum + 1 + |run|
  {
    Store(Factored(prev.rules, lhs, run, carry, prev.refCount, prev.sequenceNum, 1),
          prev.refCount + 1, prev.sequenceNum + 1 + |run|)
  }

  /**
   * `trace` runs from the store before the group to the store after it, one
   * step per event: step i factors the run of event i with the next free
   * reference and sequence numbers.
   */
  predicate Trace(lhs: int, group: seq<Rule>, events: seq<Event>, trace: seq<Store>) {
    && |trace| == |events| + 1
    && AllFit(group, events)
    && (forall i :: 0 <= i < |trace| ==> lhs in trace[i].rules)
    && forall i :: 0 <= i < |events| ==> trace[i + 1] == FactorOne(trace[i], lhs, RunOf(group, events[i]), events[i].carry)
  }

  /** Each step of a trace takes one fresh reference. */
  lemma {:induction false} TraceRefCount(lhs: int, group: seq<Rule>, events: seq<Event>, trace: seq<Store>, n: nat)
    requires Trace(lhs, group, events, trace) && n <= |events|
    ensures trace[n].refCount == trace[0].refCount + n
  {
    if n > 0 {
      TraceRefCount(lhs, group, events, trace, n - 1);
    }
  }

  lemma TraceSnoc(lhs: int, group: seq<Rule>, events: seq<Event>, trace: seq<Store>, e: Event, next: Store)
    requires Trace(lhs, group, events, trace) && EventFits(group, e)
    requires next == FactorOne(trace[|trace| - 1], lhs, RunOf(group, e), e.carry)
    ensures Trace(lhs, group, events + [e], trace + [next])
  {
    var es, ts := events + [e], trace + [next];
    forall i | 0 <= i < |es| ensures ts[i + 1] == FactorOne(ts[i], lhs, RunOf(group, es[i]), es[i].carry) {
      if i < |events| {
        assert ts[i + 1] == trace[i + 1] && ts[i] == trace[i] && es[i] == events[i];
      }
    }
  }

  /** The scan's state of the loop in FactorGroup, read back as the corrected scan over the handles seen. */
  predicate ScanAt(rules: seq<(int, Rule)>, lo: int, hi: int, st: Scan, events: seq<Event>)
    requires 0 <= lo < hi <= |rules|
  {
    Corrected(Handles(rules[lo..hi])).0 == st && Corrected(Handles(rules[lo..hi])).1 == events
  }

  /** The run closed at `hi` is the stretch of the group the event names. */
  lemma RunOfEvent(rules: seq<(int, Rule)>, lo: int, hi: int, carry: seq<int>, count: int)
    requires 0 <= lo && 0 <= count <= hi - lo && hi <= |rules|
    requires forall k :: hi - count <= k < hi ==> IsPrefix(carry, rules[k].1.handle)
    ensures var e := Event(hi - lo - count, count, carry);
      && RunRules(rules[hi - count..hi]) == RunRules(rules[lo..])[e.start..e.start + e.count]
      && EventFits(RunRules(rules[lo..]), e)
  {
    var group := RunRules(rules[lo..]);
    var run := RunRules(rules[hi - count..hi]);
    assert run == group[hi - lo - count..hi - lo];
    forall k | 0 <= k < |run| ensures |carry| <= |run[k].handle| {
      assert run[k] == rules[hi - count + k].1;
    }
  }

  /** FactorRun, seen as one step on the store. */
  method FactorStep(p: Productions, lhs: int, carry: seq<int>, run: seq<Rule>)
    requires p.Valid() && lhs in p.rules && run != [] && Fits(run, carry)
    modifies p, p.refTable, p.refTable.unsorted, p.refTable.nonTerminals
    ensures p.Valid()
    ensures StoreOf(p) == FactorOne(old(StoreOf(p)), lhs, run, carry)
    ensures old(p.rules).Keys <= p.rules.Keys
  {
    var _ := FactorRun(p, lhs, carry, run);
  }

  /**
   * One run closed by the scan: factored through FactorRun and recorded,
   * which carries the scan's state past the handle at `hi`.
   */
  method CloseRun(p: Productions, rules: array<(int, Rule)>, ghost rs: seq<(int, Rule)>, lo: int, hi: int,
                  carry: seq<int>, count: int, ghost events: seq<Event>, ghost trace: seq<Store>, ghost start: Store)
    returns (ghost events': seq<Event>, ghost trace': seq<Store>)
    requires rs == rules[..]
    requires 0 <= lo < hi < |rs| && 2 <= count <= hi - lo
    requires forall k :: lo <= k <= hi ==> rs[k].0 == rs[lo].0
    requires p.Valid() && rs[lo].0 in p.rules
    requires ScanAt(rs, lo, hi + 1, Scan([], [], 0), events + [Event(hi - lo - count, count, carry)])
    requires Trace(rs[lo].0, RunRules(rs[lo..]), events, trace)
    requires trace[0] == start && trace[|trace| - 1] == StoreOf(p)
    requires forall k :: hi - count <= k < hi ==> IsPrefix(carry, rs[k].1.handle)
    modifies p, p.refTable, p.refTable.unsorted, p.refTable.nonTerminals
    ensures GroupInv(rs, lo, hi + 1, Scan([], [], 0), true, events', trace', start, StoreOf(p))
    ensures p.Valid() && rs[lo].0 in p.rules
    ensures old(p.rules).Keys <= p.rules.Keys
  {
    ghost var lhs, group := rs[lo].0, RunRules(rs[lo..]);
    var e := Event(hi - lo - count, count, carry);
    RunOfEvent(rs, lo, hi, carry, count);
    assert rules[hi - count..hi] == rs[hi - count..hi];
    var run := RunRules(rules[hi - count..hi]);
    ghost var before := StoreOf(p);
    FactorStep(p, rules[lo].0, carry, run);
    assert StoreOf(p) == FactorOne(before, lhs, RunOf(group, e), e.carry);
    events' := events + [e];
    TraceSnoc(lhs, group, events, trace, e, StoreOf(p));
    trace' := trace + [StoreOf(p)];
    GroupAdvance(rs, lo, hi, Scan([], [], 0), true, events', trace', start, StoreOf(p));
  }

  /** One step of the corrected scan, read back on the listed rules. */
  lemma ScanStep(rs: seq<(int, Rule)>, lo: int, hi: int, st: Scan, events: seq<Event>)
    requires 0 <= lo < hi < |rs| && ScanAt(rs, lo, hi, st, events)
    ensures var step := CorrectedStep(st, rs[hi].1.handle, hi - lo);
      ScanAt(rs, lo, hi + 1, step.0, events + step.1)
  {
    var g := Handles(rs[lo..hi]);
    assert Handles(rs[lo..hi + 1]) == g + [rs[hi].1.handle];
    CorrectedSnoc(g, rs[hi].1.handle);
  }

  /** The open run of the scan, read back on the listed rules. */
  lemma ScanRun(rs: seq<(int, Rule)>, lo: int, hi: int, st: Scan, events: seq<Event>)
    requires 0 <= lo < hi <= |rs| && ScanAt(rs, lo, hi, st, events)
    ensures st.carry == [] ==> st.count == 0
    ensures st.carry != [] ==>
      && 2 <= st.count <= hi - lo && st.lastseen == st.carry
      && forall k :: hi - st.count <= k < hi ==> IsPrefix(st.carry, rs[k].1.handle)
  {
    var g := Handles(rs[lo..hi]);
    CorrectedRunsShareCarry(g);
    if st.carry != [] {
      forall k | hi - st.count <= k < hi ensures IsPrefix(st.carry, rs[k].1.handle) {
        assert g[k - lo] == rs[k].1.handle;
      }
    }
  }

  lemma ScanStart(rs: seq<(int, Rule)>, lo: int)
    requires 0 <= lo < |rs|
    ensures ScanAt(rs, lo, lo + 1, Scan([], rs[lo].1.handle, 0), [])
  {
    assert Handles(rs[lo..lo + 1]) == [rs[lo].1.handle];
  }

  /** The loop state of FactorGroup after the handles lo .. hi - 1, with `current` the store now. */
  ghost predicate GroupInv(rs: seq<(int, Rule)>, lo: int, hi: int, st: Scan, factored: bool,
                           events: seq<Event>, trace: seq<Store>, start: Store, current: Store)
  {
    && 0 <= lo < hi <= |rs|
    && (forall k :: lo <= k < hi ==> rs[k].0 == rs[lo].0)
    && ScanAt(rs, lo, hi, st, events)
    && Trace(rs[lo].0, RunRules(rs[lo..]), events, trace)
    && trace[0] == start && trace[|trace| - 1] == current
    && (factored <==> events != [])
  }

  lemma GroupAdvance(rs: seq<(int, Rule)>, lo: int, hi: int, st: Scan, factored: bool,
                     events: seq<Event>, trace: seq<Store>, start: Store, current: Store)
    requires 0 <= lo < hi < |rs| && rs[hi].0 == rs[lo].0
    requires forall k :: lo <= k < hi ==> rs[k].0 == rs[lo].0
    requires ScanAt(rs, lo, hi + 1, st, events)
    requires Trace(rs[lo].0, RunRules(rs[lo..]), events, trace)
    requires trace[0] == start && trace[|trace| - 1] == current
    requires factored <==> events != []
    ensures GroupInv(rs, lo, hi + 1, st, factored, events, trace, start, current)
  {
  }

  /** The three outcomes of one corrected step, by the common prefix with the last handle seen. */
  lemma StepCases(st: Scan, cur: seq<int>, i: int)
    ensures var step := CorrectedStep(st, cur, i);
      var prefix := LongestCommonPrefix(st.lastseen, cur);
      && (prefix != [] ==> step.0 == Scan(prefix, prefix, if st.carry == [] then 2 else st.count + 1) && step.1 == [])
      && (prefix == [] && st.carry != [] ==> step.0 == Scan([], [], 0))
      && (prefix == [] && st.carry == [] ==> step.0 == Scan([], cur, 0))
      && (prefix == [] && st.carry != [] ==> step.1 == [Event(i - st.count, st.count, st.carry)])
      && (prefix == [] && st.carry == [] ==> step.1 == [])
  {
  }

  /** A handle that shares a prefix with the last one seen extends the current run. */
  lemma ExtendAdvance(rs: seq<(int, Rule)>, lo: int, hi: int, st: Scan, factored: bool,
                      events: seq<Event>, trace: seq<Store>, start: Store, current: Store)
    requires GroupInv(rs, lo, hi, st, factored, events, trace, start, current)
    requires hi < |rs| && rs[hi].0 == rs[lo].0
    requires LongestCommonPrefix(st.lastseen, rs[hi].1.handle) != []
    ensures var prefix := LongestCommonPrefix(st.lastseen, rs[hi].1.handle);
      GroupInv(rs, lo, hi + 1, Scan(prefix, prefix, if st.carry == [] then 2 else st.count + 1),
               factored, events, trace, start, current)
  {
    ScanStep(rs, lo, hi, st, events);
    StepCases(st, rs[hi].1.handle, hi - lo);
    var prefix := LongestCommonPrefix(st.lastseen, rs[hi].1.handle);
    GroupAdvance(rs, lo, hi, Scan(prefix, prefix, if st.carry == [] then 2 else st.count + 1),
                 factored, events, trace, start, current);
  }

  /** The scan's state after a handle that closes the open run. */
  lemma CloseStep(rs: seq<(int, Rule)>, lo: int, hi: int, st: Scan, events: seq<Event>)
    requires 0 <= lo < hi < |rs| && ScanAt(rs, lo, hi, st, events)
    requires st.carry != [] && LongestCommonPrefix(st.lastseen, rs[hi].1.handle) == []
    ensures ScanAt(rs, lo, hi + 1, Scan([], [], 0), events + [Event(hi - lo - st.count, st.count, st.carry)])
    ensures 2 <= st.count <= hi - lo
    ensures forall k :: hi - st.count <= k < hi ==> IsPrefix(st.carry, rs[k].1.handle)
  {
    ScanStep(rs, lo, hi, st, events);
    ScanRun(rs, lo, hi, st, events);
    StepCases(st, rs[hi].1.handle, hi - lo);
  }

  /** A handle that shares nothing with the last one seen closes the open run. */
  method ScanClose(p: Productions, rules: array<(int, Rule)>, ghost rs: seq<(int, Rule)>, lo: int, hi: int, st: Scan,
                   factored: bool, ghost events: seq<Event>, ghost trace: seq<Store>, ghost start: Store)
    returns (ghost events': seq<Event>, ghost trace': seq<Store>)
    requires rs == rules[..]
    requires GroupInv(rs, lo, hi, st, factored, events, trace, start, StoreOf(p))
    requires hi < |rs| && rs[hi].0 == rs[lo].0 && st.carry != []
    requires LongestCommonPrefix(st.lastseen, rs[hi].1.handle) == []
    requires p.Valid() && rs[lo].0 in p.rules
    modifies p, p.refTable, p.refTable.unsorted, p.refTable.nonTerminals
    ensures GroupInv(rs, lo, hi + 1, Scan([], [], 0), true, events', trace', start, StoreOf(p))
    ensures p.Valid() && rs[lo].0 in p.rules && old(p.rules).Keys <= p.rules.Keys
  {
    CloseStep(rs, lo, hi, st, events);
    events', trace' := CloseRun(p, rules, rs, lo, hi, st.carry, st.count, events, trace, start);
  }

  /** A handle that shares nothing with the last one seen closes the current run, if there is one. */
  method ScanBreak(p: Productions, rules: array<(int, Rule)>, lo: int, hi: int, st: Scan,
                   factored: bool, ghost events: seq<Event>, ghost trace: seq<Store>, ghost start: Store)
    returns (factored': bool, ghost events': seq<Event>, ghost trace': seq<Store>)
    requires GroupInv(rules[..], lo, hi, st, factored, events, trace, start, StoreOf(p))
    requires hi < rules.Length && rules[hi].0 == rules[lo].0
    requires LongestCommonPrefix(st.lastseen, rules[hi].1.handle) == []
    requires p.Valid() && rules[lo].0 in p.rules
    modifies p, p.refTable, p.refTable.unsorted, p.refTable.nonTerminals
    ensures GroupInv(rules[..], lo, hi + 1, Scan([], if st.carry != [] then [] else rules[hi].1.handle, 0), factored', events', trace', start, StoreOf(p))
    ensures p.Valid() && rules[lo].0 in p.rules && old(p.rules).Keys <= p.rules.Keys
  {
    ghost var rs := rules[..];
    if st.carry != [] {
      events', trace' := ScanClose(p, rules, rs, lo, hi, st, factored, events, trace, start);
      factored' := true;
    } else {
      assert ScanAt(rs, lo, hi + 1, Scan([], rs[hi].1.handle, 0), events) by {
        ScanStep(rs, lo, hi, st, events);
        StepCases(st, rs[hi].1.handle, hi - lo);
        assert events + [] == events;
      }
      factored', events', trace' := factored, events, trace;
      GroupAdvance(rs, lo, hi, Scan([], rs[hi].1.handle, 0), factored', events', trace', start, StoreOf(p));
    }
  }

  /** One pass of the scan's loop body, over the handle at `hi`. */
  method ScanNext(p: Productions, rules: array<(int, Rule)>, lo: int, hi: int, carry: seq<int>, lastseen: seq<int>, count: int,
                  factored: bool, ghost events: seq<Event>, ghost trace: seq<Store>, ghost start: Store)
    returns (carry': seq<int>, lastseen': seq<int>, count': int, factored': bool, ghost events': seq<Event>, ghost trace': seq<Store>)
    requires GroupInv(rules[..], lo, hi, Scan(carry, lastseen, count), factored, events, trace, start, StoreOf(p))
    requires hi < rules.Length && rules[hi].0 == rules[lo].0
    requires p.Valid() && rules[lo].0 in p.rules
    modifies p, p.refTable, p.refTable.unsorted, p.refTable.nonTerminals
    ensures GroupInv(rules[..], lo, hi + 1, Scan(carry', lastseen', count'), factored', events', trace', start, StoreOf(p))
    ensures p.Valid() && rules[lo].0 in p.rules && old(p.rules).Keys <= p.rules.Keys
  {
    var prefix := CommonPrefix(lastseen, rules[hi].1.handle);
    if prefix != [] {
      ExtendAdvance(rules[..], lo, hi, Scan(carry, lastseen, count), factored, events, trace, start, StoreOf(p));
      count' := if carry == [] then 2 else count + 1;
      carry' := prefix;
      lastseen' := prefix;
      factored', events', trace' := factored, events, trace;
    } else {
      factored', events', trace' := ScanBreak(p, rules, lo, hi, Scan(carry, lastseen, count), factored, events, trace, start);
      carry' := [];
      lastseen' := if carry != [] then [] else rules[hi].1.handle;
      count' := 0;
    }
  }

  /**
   * The scan over the handles of the left-hand side at `lo`, which runs to
   * the first entry of another left-hand side; every run it closes is
   * factored at once, while the scan goes on over the listed handles.
   */
  method FactorGroup(p: Productions, rules: array<(int, Rule)>, lo: int)
    returns (hi: int, factored: bool, ghost events: seq<Event>, ghost trace: seq<Store>)
    requires p.Valid() && 0 <= lo < rules.Length && rules[lo].0 in p.rules
    modifies p, p.refTable, p.refTable.unsorted, p.refTable.nonTerminals
    ensures p.Valid() && old(p.rules).Keys <= p.rules.Keys
    ensures lo < hi <= rules.Length
    ensures forall k :: lo <= k < hi ==> rules[k].0 == rules[lo].0
    ensures hi < rules.Length ==> rules[hi].0 != rules[lo].0
    ensures events == CorrectedEvents(Handles(rules[lo..hi]))
    ensures Trace(rules[lo].0, RunRules(rules[lo..]), events, trace)
    ensures trace[0] == old(StoreOf(p)) && trace[|trace| - 1] == StoreOf(p)
    ensures factored <==> events != []
    ensures p.refTable.refCount == old(p.refTable.refCount) + |events|
  {
    ghost var start := StoreOf(p);
    var lhs := rules[lo].0;
    var carry: seq<int> := [];
    var lastseen := rules[lo].1.handle;
    var count := 0;
    factored := false;
    events, trace := [], [StoreOf(p)];
    hi := lo + 1;
    ScanStart(rules[..], lo);
    while hi < rules.Length && rules[hi].0 == lhs
      invariant GroupInv(rules[..], lo, hi, Scan(carry, lastseen, count), factored, events, trace, start, StoreOf(p))
      invariant p.Valid() && lhs in p.rules && start.rules.Keys <= p.rules.Keys
      decreases rules.Length - hi
    {
      carry, lastseen, count, factored, events, trace := ScanNext(p, rules, lo, hi, carry, lastseen, count, factored, events, trace, start);
      hi := hi + 1;
    }
    TraceRefCount(lhs, RunRules(rules[lo..]), events, trace, |events|);
  }

  // ---------------------------------------------------------------------
  // Passes
  // ---------------------------------------------------------------------

  /** Group g of a listing cut at `bounds`: its first entry and the entry after its last. */
  function Cut(bounds: seq<int>, g: int): (int, int)
    requires 0 <= g < |bounds| - 1
  {
    (bounds[g], bounds[g + 1])
  }

  /** `bounds` cuts the listing, up to `end`, into its left-hand sides' groups, each as long as it can be. */
  ghost predicate GroupBounds(sorted: seq<(int, Rule)>, bounds: seq<int>, end: int) {
    && |bounds| >= 1 && bounds[0] == 0 && bounds[|bounds| - 1] == end && end <= |sorted|
    && (forall g :: 0 <= g < |bounds| - 1 ==> SameLhs(sorted, Cut(bounds, g).0, Cut(bounds, g).1))
  }

  /** The entries lo .. hi - 1 have one left-hand side, and the entry at hi, if any, another. */
  ghost predicate SameLhs(sorted: seq<(int, Rule)>, lo: int, hi: int) {
    && 0 <= lo < hi <= |sorted|
    && (forall k :: lo <= k < hi ==> sorted[k].0 == sorted[lo].0)
    && (hi < |sorted| ==> sorted[hi].0 != sorted[lo].0)
  }

  /** The group lo .. hi - 1 takes the store from `before` to `after` through the corrected scan's factorings. */
  ghost predicate GroupStep(sorted: seq<(int, Rule)>, lo: int, hi: int, trace: seq<Store>, before: Store, after: Store) {
    && 0 <= lo < hi <= |sorted|
    && Trace(sorted[lo].0, RunRules(sorted[lo..]), CorrectedEvents(Handles(sorted[lo..hi])), trace)
    && trace[0] == before && trace[|trace| - 1] == after
  }

  /** The groups so far, one after the other: group g takes the store from stores[g] to stores[g + 1]. */
  ghost predicate PassTrace(sorted: seq<(int, Rule)>, bounds: seq<int>, stores: seq<Store>, traces: seq<seq<Store>>) {
    && |stores| == |bounds| && |traces| == |bounds| - 1
    && forall g :: 0 <= g < |bounds| - 1 ==> GroupStep(sorted, Cut(bounds, g).0, Cut(bounds, g).1, traces[g], stores[g], stores[g + 1])
  }

  /** The corrected scan over the group lo .. hi - 1 closes no run. */
  ghost predicate QuietGroup(sorted: seq<(int, Rule)>, lo: int, hi: int) {
    0 <= lo <= hi <= |sorted| && CorrectedEvents(Handles(sorted[lo..hi])) == []
  }

  /** No group so far had a run factored. */
  ghost predicate AllQuiet(sorted: seq<(int, Rule)>, bounds: seq<int>) {
    forall g :: 0 <= g < |bounds| - 1 ==> QuietGroup(sorted, Cut(bounds, g).0, Cut(bounds, g).1)
  }

  /** Appending the next group to the pass. */
  lemma PassSnoc(sorted: seq<(int, Rule)>, bounds: seq<int>, stores: seq<Store>, traces: seq<seq<Store>>,
                 lo: int, hi: int, trace: seq<Store>, after: Store)
    requires GroupBounds(sorted, bounds, lo) && PassTrace(sorted, bounds, stores, traces)
    requires SameLhs(sorted, lo, hi) && GroupStep(sorted, lo, hi, trace, stores[|stores| - 1], after)
    ensures GroupBounds(sorted, bounds + [hi], hi) && PassTrace(sorted, bounds + [hi], stores + [after], traces + [trace])
  {
    var bs, ss, ts := bounds + [hi], stores + [after], traces + [trace];
    forall g | 0 <= g < |bs| - 1
      ensures SameLhs(sorted, Cut(bs, g).0, Cut(bs, g).1)
      ensures GroupStep(sorted, Cut(bs, g).0, Cut(bs, g).1, ts[g], ss[g], ss[g + 1])
    {
      if g < |bounds| - 1 {
        assert Cut(bs, g) == Cut(bounds, g) && ts[g] == traces[g] && ss[g] == stores[g] && ss[g + 1] == stores[g + 1];
      }
    }
  }

  /** The pass is quiet after the next group iff it was before and the group is. */
  lemma QuietSnoc(sorted: seq<(int, Rule)>, bounds: seq<int>, hi: int)
    ensures AllQuiet(sorted, bounds + [hi]) <==> AllQuiet(sorted, bounds) && (bounds != [] ==> QuietGroup(sorted, bounds[|bounds| - 1], hi))
  {
    var bs := bounds + [hi];
    forall g | 0 <= g < |bounds| - 1 ensures Cut(bs, g) == Cut(bounds, g) {
    }
    if bounds != [] {
      assert Cut(bs, |bounds| - 1) == (bounds[|bounds| - 1], hi);
    }
  }

  /** GetAllRules().ToArray() after the bubble sort: each left-hand side's rules together, and every rule once. */
  method SortedRules(p: Productions) returns (rules: array<(int, Rule)>)
    ensures fresh(rules)
    ensures forall x :: x in rules[..] <==> x in p.GetAllRules()
    ensures Grouped(rules[..])
  {
    rules := RulesArray(p);
    ghost var listed := rules[..];
    var _ := SortRules(rules);
    forall i, k, j | 0 <= i < k < j < rules.Length && rules[i].0 == rules[j].0 ensures rules[k].0 == rules[i].0 {
      assert rules[i].0 == listed[i].0 && rules[k].0 == listed[k].0 && rules[j].0 == listed[j].0;
    }
    forall x ensures x in rules[..] <==> x in listed {
      assert x in rules[..] <==> x in multiset(rules[..]);
      assert x in listed <==> x in multiset(listed);
    }
  }

  /**
   * One pass: list every rule, sort each left-hand side's handles, and scan
   * each left-hand side in turn. The store goes through the groups of the
   * sorted listing one after the other, each group factoring the runs of the
   * corrected scan over its handles; a pass that factors nothing leaves the
   * store as it was, and each run it factors takes one fresh reference.
   */
  method LeftFactorPass(p: Productions)
    returns (added: bool, ghost sorted: seq<(int, Rule)>, ghost bounds: seq<int>, ghost stores: seq<Store>, ghost traces: seq<seq<Store>>)
    requires p.Valid()
    modifies p, p.refTable, p.refTable.unsorted, p.refTable.nonTerminals
    ensures p.Valid()
    ensures forall x :: x in sorted <==> x in old(p.GetAllRules())
    ensures Grouped(sorted)
    ensures GroupBounds(sorted, bounds, |sorted|) && PassTrace(sorted, bounds, stores, traces)
    ensures stores[0] == old(StoreOf(p)) && stores[|stores| - 1] == StoreOf(p)
    ensures !added <==> AllQuiet(sorted, bounds)
    ensures !added ==> StoreOf(p) == old(StoreOf(p))
    ensures added ==> p.refTable.refCount > old(p.refTable.refCount)
    ensures p.refTable.refCount >= old(p.refTable.refCount)
  {
    var rules := SortedRules(p);
    sorted := rules[..];
    forall k | 0 <= k < rules.Length ensures rules[k].0 in p.rules {
      assert rules[k] in sorted;
    }
    added := false;
    var i := 0;
    bounds, stores, traces := [0], [StoreOf(p)], [];
    while i < rules.Length
      invariant 0 <= i <= rules.Length && sorted == rules[..]
      invariant p.Valid()
      invariant forall k :: 0 <= k < rules.Length ==> rules[k].0 in p.rules
      invariant GroupBounds(sorted, bounds, i) && PassTrace(sorted, bounds, stores, traces)
      invariant stores[0] == old(StoreOf(p)) && stores[|stores| - 1] == StoreOf(p)
      invariant !added <==> AllQuiet(sorted, bounds)
      invariant !added ==> StoreOf(p) == old(StoreOf(p))
      invariant added ==> p.refTable.refCount > old(p.refTable.refCount)
      invariant p.refTable.refCount >= old(p.refTable.refCount)
      decreases rules.Length - i
    {
      var hi, factored, events, trace := FactorGroup(p, rules, i);
      PassSnoc(sorted, bounds, stores, traces, i, hi, trace, StoreOf(p));
      QuietSnoc(sorted, bounds, hi);
      bounds, stores, traces := bounds + [hi], stores + [StoreOf(p)], traces + [trace];
      if factored {
        added := true;
      }
      i := hi;
    }
  }

  /**
   * Passes repeat while the last one factored something, for at most `fuel`
   * passes; `converged` tells that the last pass factored nothing. Then, in
   * the last pass's sorted listing of the final rules, no group has two
   * neighbouring handles with a common prefix except in its last stretch.
   */
  method LeftFactor(p: Productions, fuel: nat) returns (converged: bool, ghost sorted: seq<(int, Rule)>, ghost bounds: seq<int>)
    requires p.Valid()
    modifies p, p.refTable, p.refTable.unsorted, p.refTable.nonTerminals
    ensures p.Valid()
    ensures converged ==> fuel > 0
    ensures !converged ==> p.refTable.refCount >= old(p.refTable.refCount) + fuel
    ensures converged ==> (forall x :: x in sorted <==> x in p.GetAllRules()) && Grouped(sorted) && GroupBounds(sorted, bounds, |sorted|)
    ensures converged ==> forall g :: 0 <= g < |bounds| - 1 ==> QuietGroup(sorted, Cut(bounds, g).0, Cut(bounds, g).1) && OnlyLastRun(Handles(sorted[Cut(bounds, g).0..Cut(bounds, g).1]))
  {
    var productionsAdded := true;
    var passes := 0;
    sorted, bounds := [], [0];
    while productionsAdded && passes < fuel
      invariant p.Valid() && 0 <= passes <= fuel
      invariant productionsAdded ==> p.refTable.refCount >= old(p.refTable.refCount) + passes
      invariant !productionsAdded ==> passes > 0
      invariant !productionsAdded ==> (forall x :: x in sorted <==> x in p.GetAllRules()) && Grouped(sorted) && GroupBounds(sorted, bounds, |sorted|)
      invariant !productionsAdded ==> AllQuiet(sorted, bounds)
      decreases fuel - passes
    {
      ghost var stores, traces;
      productionsAdded, sorted, bounds, stores, traces := LeftFactorPass(p);
      passes := passes + 1;
    }
    converged := !productionsAdded;
    if converged {
      forall g | 0 <= g < |bounds| - 1 ensures QuietGroup(sorted, Cut(bounds, g).0, Cut(bounds, g).1) && OnlyLastRun(Handles(sorted[Cut(bounds, g).0..Cut(bounds, g).1])) {
        QuietIffOnlyLastRun(Handles(sorted[Cut(bounds, g).0..Cut(bounds, g).1]));
      }
    }
  }
}
