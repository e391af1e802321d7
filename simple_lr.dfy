/**
 * The SLR(1) parser generator: LR(0) items over a single-character grammar,
 * their closure and goto sets, the canonical collection of item sets built
 * by passes until a pass adds nothing, and the action/goto table read off
 * that collection with FOLLOW sets.
 */
module SimpleLR {

  import opened Wrappers
  import CharGrammar

  type Rules = CharGrammar.Rules

  /** The left-hand side of the augmenting production Θ -> S$. */
  const Augmented: char := 'Θ'

  /** An item A -> α.β: the left-hand side, the position of the dot, and the whole handle αβ. */
  datatype Item = Item(lhs: char, dot: nat, handle: string)

  /** The augmenting item Θ -> .S$ the collection starts from. */
  function StartItem(start: char): Item {
    Item(Augmented, 0, [start, CharGrammar.EndMarker])
  }

  /** The dot of `it` stands right before `sym`. */
  predicate Before(it: Item, sym: char) {
    it.dot < |it.handle| && it.handle[it.dot] == sym
  }

  // ---------------------------------------------------------------------
  // Closure
  // ---------------------------------------------------------------------

  /** The initial item X -> .h of every production. */
  function Initials(P: Rules): set<Item> {
    set x, h | x in P && h in P[x] :: Item(x, 0, h)
  }

  /** The items predicted by one item: X -> .h for every handle h of the non-terminal after its dot. */
  function PredictedBy(P: Rules, it: Item): set<Item> {
    if it.dot < |it.handle| && it.handle[it.dot] in P then
      set h | h in P[it.handle[it.dot]] :: Item(it.handle[it.dot], 0, h)
    else {}
  }

  /** The items predicted by a set of items. */
  function Predicted(P: Rules, s: set<Item>): set<Item> {
    set it, p | it in s && p in PredictedBy(P, it) :: p
  }

  /** A set is closed when it holds every item it predicts. */
  ghost predicate Closed(P: Rules, s: set<Item>) {
    Predicted(P, s) <= s
  }

  lemma PredictedInitials(P: Rules, s: set<Item>)
    ensures Predicted(P, s) <= Initials(P)
  {
    forall p | p in Predicted(P, s)
      ensures p in Initials(P)
    {
      var it :| it in s && p in PredictedBy(P, it);
      assert p.lhs in P && p.handle in P[p.lhs] && p.dot == 0;
    }
  }

  lemma PredictedMonotone(P: Rules, s: set<Item>, t: set<Item>)
    requires s <= t
    ensures Predicted(P, s) <= Predicted(P, t)
  {
  }

  /** Predictions of a union are the union of the predictions. */
  lemma PredictedAdd(P: Rules, s: set<Item>, it: Item)
    ensures Predicted(P, s + {it}) == Predicted(P, s) + PredictedBy(P, it)
  {
  }

  /**
   * The closure of a set of items: add predictions until nothing new
   * appears. It contains the input, is closed, and adds only initial items.
   */
  function ClosureOf(P: Rules, s: set<Item>): (r: set<Item>)
    ensures s <= r && Closed(P, r)
    ensures r <= s + Initials(P)
    decreases Initials(P) - s
  {
    PredictedInitials(P, s);
    if Predicted(P, s) <= s then s
    else
      var p :| p in Predicted(P, s) && p !in s;
      assert p in Initials(P) - s && p !in Initials(P) - (s + Predicted(P, s));
      ClosureOf(P, s + Predicted(P, s))
  }

  /** The closure is the least closed superset of its input. */
  lemma {:induction false} ClosureLeast(P: Rules, s: set<Item>, c: set<Item>)
    requires s <= c && Closed(P, c)
    ensures ClosureOf(P, s) <= c
    decreases Initials(P) - s
  {
    PredictedInitials(P, s);
    if !(Predicted(P, s) <= s) {
      PredictedMonotone(P, s, c);
      var p :| p in Predicted(P, s) && p !in s;
      assert p in Initials(P) - s && p !in Initials(P) - (s + Predicted(P, s));
      ClosureLeast(P, s + Predicted(P, s), c);
    }
  }

  /** Closing twice is closing once. */
  lemma ClosureIdempotent(P: Rules, s: set<Item>)
    ensures ClosureOf(P, ClosureOf(P, s)) == ClosureOf(P, s)
  {
    var r := ClosureOf(P, s);
    ClosureLeast(P, r, r);
  }

  /** One pass of the closure loop: every item of `temp` adds the initial items of the non-terminal after its dot. */
  method ClosurePass(P: Rules, temp: set<Item>) returns (closure: set<Item>)
    ensures closure == temp + Predicted(P, temp)
  {
    closure := temp;
    var rest := temp;
    while rest != {}
      invariant rest <= temp
      invariant closure == temp + Predicted(P, temp - rest)
      decreases rest
    {
      var item :| item in rest;
      PredictedAdd(P, temp - rest, item);
      assert temp - rest + {item} == temp - (rest - {item});
      rest := rest - {item};
      if item.dot >= |item.handle| {
        continue;
      }
      var lhs := item.handle[item.dot];
      if lhs !in P {
        continue;
      }
      var handles := P[lhs];
      ghost var added := closure;
      while handles != {}
        invariant handles <= P[lhs]
        invariant closure == added + set h | h in P[lhs] - handles :: Item(lhs, 0, h)
        decreases handles
      {
        var handle :| handle in handles;
        closure := closure + {Item(lhs, 0, handle)};
        handles := handles - {handle};
      }
    }
    assert temp - rest == temp;
  }

  /**
   * The closure of `items`: copy them, then run passes until a pass adds
   * nothing. The non-terminals are the left-hand sides of `P`.
   */
  method Closure(P: Rules, items: set<Item>) returns (closure: set<Item>)
    ensures closure == ClosureOf(P, items)
  {
    closure := {};
    var rest := items;
    while rest != {}
      invariant rest <= items && closure == items - rest
      decreases rest
    {
      var item :| item in rest;
      closure := closure + {item};
      rest := rest - {item};
    }
    assert closure == items;
    var stable := false;
    while !stable
      invariant ClosureOf(P, closure) == ClosureOf(P, items)
      invariant stable ==> Closed(P, closure)
      decreases Initials(P) - closure, if stable then 0 else 1
    {
      var temp := closure;
      closure := ClosurePass(P, temp);
      stable := closure == temp;
      if !stable {
        PredictedInitials(P, temp);
        var p :| p in Predicted(P, temp) && p !in temp;
        assert p in Initials(P) - temp && p !in Initials(P) - closure;
      }
    }
  }

  // ---------------------------------------------------------------------
  // Goto on item sets
  // ---------------------------------------------------------------------

  /** The items of `items` with the dot moved over `sym`. */
  function Advance(items: set<Item>, sym: char): set<Item> {
    set it | it in items && Before(it, sym) :: Item(it.lhs, it.dot + 1, it.handle)
  }

  /**
   * goto(I, X): the closure of the items of I with the dot moved over X.
   * It is empty exactly when no item of I has its dot before X.
   */
  function GotoOf(P: Rules, items: set<Item>, sym: char): (r: set<Item>)
    ensures r == {} <==> forall it :: it in items ==> !Before(it, sym)
    ensures Advance(items, sym) <= r && Closed(P, r)
  {
    var a := Advance(items, sym);
    assert forall it :: it in items && Before(it, sym) ==> Item(it.lhs, it.dot + 1, it.handle) in a;
    if a == {} then
      assert Predicted(P, a) == {};
      assert ClosureOf(P, a) == a;
      ClosureOf(P, a)
    else
      ClosureOf(P, a)
  }

  /** goto(I, X) as the generator computes it: collect the moved items, then close them. */
  method GotoItems(P: Rules, items: set<Item>, sym: char) returns (r: set<Item>)
    ensures r == GotoOf(P, items, sym)
  {
    var itemsNew: set<Item> := {};
    var rest := items;
    while rest != {}
      invariant rest <= items
      invariant itemsNew == Advance(items - rest, sym)
      decreases rest
    {
      var item :| item in rest;
      if item.dot < |item.handle| && item.handle[item.dot] == sym {
        itemsNew := itemsNew + {Item(item.lhs, item.dot + 1, item.handle)};
      }
      rest := rest - {item};
    }
    assert items - rest == items;
    r := Closure(P, itemsNew);
  }

  // ---------------------------------------------------------------------
  // The canonical collection as a map from state numbers to item sets
  // ---------------------------------------------------------------------

  type Collection = map<int, set<Item>>

  /** The states are numbered 0 to n - 1. */
  ghost predicate Indexed(C: Collection, n: int) {
    forall i :: i in C <==> 0 <= i < n
  }

  /** No item set appears under two numbers. */
  ghost predicate Distinct(C: Collection) {
    forall i, j :: i in C && j in C && C[i] == C[j] ==> i == j
  }

  /** Every state is a non-empty subset of `u`. */
  ghost predicate StatesIn(C: Collection, u: set<Item>) {
    forall i :: i in C ==> C[i] != {} && C[i] <= u
  }

  /** Every goto of a state on a grammar symbol is empty or already a state. */
  ghost predicate Complete(P: Rules, C: Collection, symbols: set<char>) {
    forall i, x :: i in C && x in symbols ==> GotoOf(P, C[i], x) == {} || GotoOf(P, C[i], x) in C.Values
  }

  /** Every state but the first is the goto of an earlier state on a grammar symbol. */
  ghost predicate Reached(P: Rules, C: Collection, symbols: set<char>) {
    forall i :: i in C && i != 0 ==>
      exists j, x :: 0 <= j < i && j in C && x in symbols && C[i] == GotoOf(P, C[j], x)
  }

  /** Whether `itemSet` is already one of the states, looked up state by state. */
  method CheckRepeat(dict: Collection, itemSet: set<Item>) returns (r: bool)
    ensures r <==> itemSet in dict.Values
  {
    var keys := dict.Keys;
    while keys != {}
      invariant keys <= dict.Keys
      invariant forall k :: k in dict.Keys - keys ==> dict[k] != itemSet
      decreases keys
    {
      ghost var someKey := ElementOf(keys);
      var k :| k in keys;
      if dict[k] == itemSet {
        return true;
      }
      keys := keys - {k};
    }
    assert dict.Keys - keys == dict.Keys;
    assert forall k :: k in dict ==> dict[k] != itemSet;
    return false;
  }

  // ---------------------------------------------------------------------
  // Termination: all states are subsets of a finite set of items
  // ---------------------------------------------------------------------

  /** The items of the productions of `P` with the dot anywhere, and Θ -> S$ with the dot before S or $. */
  ghost function Universe(P: Rules, start: char): set<Item> {
    (set x, h, d: nat | x in P && h in P[x] && d <= |h| :: Item(x, d, h))
    + {StartItem(start), Item(Augmented, 1, [start, CharGrammar.EndMarker])}
  }

  lemma ClosureWithin(P: Rules, start: char, s: set<Item>)
    requires s <= Universe(P, start)
    ensures ClosureOf(P, s) <= Universe(P, start)
  {
    forall it | it in Initials(P)
      ensures it in Universe(P, start)
    {
      assert it.lhs in P && it.handle in P[it.lhs] && it.dot == 0;
    }
  }

  /** Moving the dot keeps items in the universe, for every symbol but the end marker. */
  lemma GotoWithin(P: Rules, start: char, s: set<Item>, sym: char)
    requires s <= Universe(P, start) && sym != CharGrammar.EndMarker
    ensures GotoOf(P, s, sym) <= Universe(P, start)
  {
    var a := Advance(s, sym);
    forall q | q in a
      ensures q in Universe(P, start)
    {
      var it :| it in s && Before(it, sym) && q == Item(it.lhs, it.dot + 1, it.handle);
      if it.lhs in P && it.handle in P[it.lhs] && it.dot <= |it.handle| {
        assert q.dot <= |q.handle|;
      } else if it == StartItem(start) {
        assert q == Item(Augmented, 1, [start, CharGrammar.EndMarker]);
      } else {
        assert false;
      }
    }
    ClosureWithin(P, start, a);
  }

  /** Some element of a non-empty set. */
  ghost function Pick<T>(u: set<T>): (x: T)
    requires u != {}
    ensures x in u
  {
    var x :| x in u; x
  }

  /** All subsets of a finite set. */
  ghost function PowerSet<T>(u: set<T>): set<set<T>>
    decreases u
  {
    if u == {} then {{}}
    else
      var x := Pick(u);
      var ps := PowerSet(u - {x});
      ps + set s | s in ps :: s + {x}
  }

  lemma {:induction false} InPowerSet<T>(u: set<T>, s: set<T>)
    requires s <= u
    ensures s in PowerSet(u)
    decreases u
  {
    if u != {} {
      var x := Pick(u);
      var ps := PowerSet(u - {x});
      assert PowerSet(u) == ps + set t | t in ps :: t + {x};
      InPowerSet(u - {x}, s - {x});
      if x in s {
        assert s == (s - {x}) + {x};
        assert s in set t | t in ps :: t + {x};
      } else {
        assert s == s - {x};
      }
    } else {
      assert s == {};
    }
  }

  // ---------------------------------------------------------------------
  // One pass over the collection
  // ---------------------------------------------------------------------

  /** `C` keeps every state of `C0` under its number. */
  ghost predicate Extends(C0: Collection, C: Collection) {
    forall i :: i in C0 ==> i in C && C[i] == C0[i]
  }

  /** The collection invariant kept by every step of the construction. */
  ghost predicate Building(P: Rules, symbols: set<char>, start: char, C: Collection, n: int) {
    n >= 1 && Indexed(C, n) && |C| == n && Distinct(C) && StatesIn(C, Universe(P, start)) &&
    C[0] == ClosureOf(P, {StartItem(start)}) && Reached(P, C, symbols)
  }

  /** Gotos of state `i` on the symbols in `done` are empty or already states. */
  ghost predicate GotosIn(P: Rules, C0: Collection, i: int, done: set<char>, C: Collection)
    requires i in C0
  {
    forall x :: x in done ==> GotoOf(P, C0[i], x) == {} || GotoOf(P, C0[i], x) in C.Values
  }

  /** A new state numbered `n` whose item set is not yet present keeps the numbering and distinctness. */
  lemma AddDistinct(C: Collection, n: int, g: set<Item>)
    requires n >= 0 && Indexed(C, n) && Distinct(C) && g !in C.Values
    ensures Indexed(C[n := g], n + 1) && Distinct(C[n := g])
  {
    var C' := C[n := g];
    forall i, j | i in C' && j in C' && C'[i] == C'[j]
      ensures i == j
    {
      if i != n && j != n {
        assert C[i] == C[j];
      }
    }
  }

  /** A new state that is the goto of an existing state keeps every state reached from an earlier one. */
  lemma AddReached(P: Rules, symbols: set<char>, C: Collection, n: int, i: int, x: char)
    requires Indexed(C, n) && Reached(P, C, symbols) && i in C && x in symbols
    ensures Reached(P, C[n := GotoOf(P, C[i], x)], symbols)
  {
    var C' := C[n := GotoOf(P, C[i], x)];
    forall k | k in C' && k != 0
      ensures exists j, y :: 0 <= j < k && j in C' && y in symbols && C'[k] == GotoOf(P, C'[j], y)
    {
      if k == n {
        assert 0 <= i < k && C'[i] == C[i];
      } else {
        var j, y :| 0 <= j < k && j in C && y in symbols && C[k] == GotoOf(P, C[j], y);
        assert C'[j] == C[j];
      }
    }
  }

  /** Adding a new, non-empty goto as state `n` keeps the collection invariant. */
  lemma AddState(P: Rules, symbols: set<char>, start: char, C: Collection, n: int, i: int, x: char)
    requires Building(P, symbols, start, C, n)
    requires i in C && x in symbols && x != CharGrammar.EndMarker
    requires GotoOf(P, C[i], x) != {} && GotoOf(P, C[i], x) !in C.Values
    ensures Building(P, symbols, start, C[n := GotoOf(P, C[i], x)], n + 1)
  {
    var g := GotoOf(P, C[i], x);
    GotoWithin(P, start, C[i], x);
    AddDistinct(C, n, g);
    AddReached(P, symbols, C, n, i, x);
    assert StatesIn(C[n := g], Universe(P, start));
  }

  /** A key under which a map holds a given value. */
  lemma KeyOf<K, V>(m: map<K, V>, v: V) returns (k: K)
    requires v in m.Values
    ensures k in m && m[k] == v
  {
    k :| k in m.Keys && m[k] == v;
  }

  /** Adding a state under a new number keeps every existing item set. */
  lemma ValuesGrow<K, V>(C: map<K, V>, n: K, g: V)
    requires n !in C
    ensures C.Values <= C[n := g].Values && g in C[n := g].Values
  {
    var C' := C[n := g];
    assert C'[n] == g;
    forall v | v in C.Values
      ensures v in C'.Values
    {
      var k :| k in C.Keys && C[k] == v;
      assert C'[k] == v;
    }
  }

  /** What a pass keeps: the collection invariant, the snapshot's states, and whether anything new was added. */
  ghost predicate PassInvariant(P: Rules, symbols: set<char>, start: char, C0: Collection, n0: int, C: Collection, n: int) {
    n >= n0 && Building(P, symbols, start, C, n) && Extends(C0, C) &&
    (n == n0 ==> C == C0) && (n > n0 ==> n0 in C && C[n0] !in C0.Values)
  }

  /** Gotos of the states before `i` on every symbol are empty or states of `C`. */
  ghost predicate GotosBefore(P: Rules, C0: Collection, i: int, symbols: set<char>, C: Collection) {
    forall j :: 0 <= j < i && j in C0 ==> GotosIn(P, C0, j, symbols, C)
  }

  lemma GotosKept(P: Rules, C0: Collection, i: int, symbols: set<char>, done: set<char>, C: Collection, C': Collection)
    requires C.Values <= C'.Values && i in C0
    requires GotosBefore(P, C0, i, symbols, C) && GotosIn(P, C0, i, done, C)
    ensures GotosBefore(P, C0, i, symbols, C') && GotosIn(P, C0, i, done, C')
  {
  }

  /**
   * One step of a pass: the goto of snapshot state `i` on `symbol` becomes
   * state `n` when it is non-empty and not yet a state.
   */
  method PassStep(P: Rules, symbols: set<char>, start: char, C0: Collection, n0: int, i: int, symbol: char,
                  C: Collection, n: int)
    returns (C': Collection, n': int)
    requires PassInvariant(P, symbols, start, C0, n0, C, n)
    requires i in C0 && symbol in symbols && symbol != CharGrammar.EndMarker
    ensures PassInvariant(P, symbols, start, C0, n0, C', n')
    ensures C.Values <= C'.Values
    ensures GotoOf(P, C0[i], symbol) == {} || GotoOf(P, C0[i], symbol) in C'.Values
  {
    C', n' := C, n;
    var itemSet := GotoItems(P, C0[i], symbol);
    var repeated := CheckRepeat(C, itemSet);
    if itemSet != {} && !repeated {
      assert C[i] == C0[i];
      AddState(P, symbols, start, C, n, i, symbol);
      ValuesGrow(C, n, itemSet);
      C' := C[n := itemSet];
      n' := n + 1;
    }
  }

  /** The steps of a pass for snapshot state `i`, one grammar symbol at a time. */
  method StateGotos(P: Rules, symbols: set<char>, start: char, C0: Collection, n0: int, i: int,
                    C: Collection, n: int)
    returns (C': Collection, n': int)
    requires PassInvariant(P, symbols, start, C0, n0, C, n) && GotosBefore(P, C0, i, symbols, C)
    requires i in C0 && CharGrammar.EndMarker !in symbols
    ensures PassInvariant(P, symbols, start, C0, n0, C', n')
    ensures GotosBefore(P, C0, i + 1, symbols, C')
  {
    C', n' := C, n;
    var rest := symbols;
    while rest != {}
      invariant rest <= symbols
      invariant PassInvariant(P, symbols, start, C0, n0, C', n')
      invariant GotosBefore(P, C0, i, symbols, C') && GotosIn(P, C0, i, symbols - rest, C')
      decreases rest
    {
      var symbol :| symbol in rest;
      ghost var before := C';
      C', n' := PassStep(P, symbols, start, C0, n0, i, symbol, C', n');
      GotosKept(P, C0, i, symbols, symbols - rest, before, C');
      rest := rest - {symbol};
    }
    assert symbols - rest == symbols;
  }

  /**
   * One pass of the construction: for every state of the snapshot `C0` and
   * every grammar symbol, add the goto set as a new state when it is
   * non-empty and not yet present. A pass that adds nothing certifies the
   * snapshot complete; a pass that adds something adds a new item set.
   */
  method CollectionPass(P: Rules, symbols: set<char>, start: char, C0: Collection, n0: int)
    returns (C: Collection, n: int)
    requires Building(P, symbols, start, C0, n0) && CharGrammar.EndMarker !in symbols
    ensures PassInvariant(P, symbols, start, C0, n0, C, n)
    ensures n == n0 ==> Complete(P, C0, symbols)
  {
    C, n := C0, n0;
    var i := 0;
    while i < n0
      invariant 0 <= i <= n0
      invariant PassInvariant(P, symbols, start, C0, n0, C, n)
      invariant GotosBefore(P, C0, i, symbols, C)
    {
      C, n := StateGotos(P, symbols, start, C0, n0, i, C, n);
      i := i + 1;
    }
  }

  // ---------------------------------------------------------------------
  // Goto on state numbers
  // ---------------------------------------------------------------------

  /** Some item of `s` has the handle of `e` and its dot one place further; left-hand sides are not compared. */
  predicate HasSuccessor(s: set<Item>, e: Item) {
    exists it :: it in s && it.handle == e.handle && it.dot == e.dot + 1
  }

  /** State `j` holds a successor of an item of state `state` whose dot stands before `sym`. */
  ghost predicate Leads(C: Collection, state: int, sym: char, j: int)
    requires state in C && j in C
  {
    exists e :: e in C[state] && Before(e, sym) && HasSuccessor(C[j], e)
  }

  /** The answers the state search may give: any state it leads to, or -1 when there is none. */
  ghost function Targets(C: Collection, n: int, state: int, sym: char): set<int>
    requires Indexed(C, n) && state in C
  {
    var js := set j | 0 <= j < n && Leads(C, state, sym, j);
    if js == {} then {-1} else js
  }

  /**
   * goto(i, X) on state numbers: for an item of state i with the dot before
   * X, the first state (by number) holding an item with the same handle and
   * the dot one place further; -1 when there is none.
   */
  method GotoIndex(C: Collection, n: int, state: int, symbol: char) returns (r: int)
    requires Indexed(C, n) && state in C
    ensures r in Targets(C, n, state, symbol)
  {
    var setx := C[state];
    while setx != {}
      invariant setx <= C[state]
      invariant forall e, j :: e in C[state] - setx && Before(e, symbol) && 0 <= j < n ==> !HasSuccessor(C[j], e)
      decreases setx
    {
      var element :| element in setx;
      if element.dot < |element.handle| && element.handle[element.dot] == symbol {
        var j := 0;
        while j < n
          invariant 0 <= j <= n
          invariant forall i :: 0 <= i < j ==> !HasSuccessor(C[i], element)
        {
          if HasSuccessor(C[j], element) {
            assert Leads(C, state, symbol, j);
            return j;
          }
          j := j + 1;
        }
      }
      setx := setx - {element};
    }
    assert C[state] - setx == C[state];
    assert forall j :: 0 <= j < n ==> !Leads(C, state, symbol, j);
    return -1;
  }

  /**
   * In a complete collection, when an item of state k has its dot before a
   * grammar symbol X, the state holding goto(k, X) is one of the answers of
   * the state search, and -1 is not.
   */
  lemma GotoStateIsTarget(P: Rules, symbols: set<char>, C: Collection, n: int, k: int, x: char, e: Item)
    requires Indexed(C, n) && Complete(P, C, symbols) && k in C && x in symbols
    requires e in C[k] && Before(e, x)
    ensures -1 !in Targets(C, n, k, x)
    ensures exists j :: j in C && C[j] == GotoOf(P, C[k], x) && j in Targets(C, n, k, x)
  {
    var g := GotoOf(P, C[k], x);
    assert g != {};
    var j := KeyOf(C, g);
    var moved := Item(e.lhs, e.dot + 1, e.handle);
    assert moved in Advance(C[k], x);
    assert HasSuccessor(C[j], e);
    assert Leads(C, k, x, j);
    var js := set i | 0 <= i < n && Leads(C, k, x, i);
    assert j in js && -1 !in js;
  }

  /**
   * The state search ignores left-hand sides: with B -> a. in state 1 and
   * A -> a. in state 2, the search from A -> .a in state 0 may answer 1.
   */
  lemma GotoIndexIgnoresLhs()
    ensures var C := map[0 := {Item('A', 0, "a")}, 1 := {Item('B', 1, "a")}, 2 := {Item('A', 1, "a")}];
            Indexed(C, 3) && 1 in Targets(C, 3, 0, 'a') && Item('A', 1, "a") !in C[1]
  {
    var C := map[0 := {Item('A', 0, "a")}, 1 := {Item('B', 1, "a")}, 2 := {Item('A', 1, "a")}];
    assert HasSuccessor(C[1], Item('A', 0, "a"));
    assert Leads(C, 0, 'a', 1);
    assert 1 in set j | 0 <= j < 3 && Leads(C, 0, 'a', j);
  }

  // ---------------------------------------------------------------------
  // The action/goto table
  // ---------------------------------------------------------------------

  /** A cell of the table: shift to a state, goto a state, reduce by a production number, accept, or nothing. */
  datatype Cell = Empty | Shift(state: int) | Goto(state: int) | Reduce(production: int) | Accept

  /**
   * What the table is read off: the grammar's non-terminals, FOLLOW sets and
   * production numbers, the column of each symbol, and the numbered states.
   */
  datatype TableInputs = TableInputs(nonTerminals: set<char>, follows: CharGrammar.Sets,
                                     ordering: CharGrammar.Ordering, columns: map<char, int>,
                                     states: Collection, count: int)

  /**
   * Every lookup the table fill makes for item `it` succeeds: the symbol
   * after the dot has a column; a completed handle is non-empty, does not
   * end in $, and its last symbol has a FOLLOW set whose symbols have columns.
   */
  ghost predicate ItemReady(follows: CharGrammar.Sets, columns: set<char>, it: Item) {
    (it.dot < |it.handle| ==> it.handle[it.dot] in columns) &&
    (it.dot == |it.handle| ==>
       |it.handle| > 0 && it.handle[|it.handle| - 1] != CharGrammar.EndMarker &&
       it.handle[|it.handle| - 1] in follows && follows[it.handle[|it.handle| - 1]] <= columns)
  }

  /** Every item of every state is ready. */
  ghost predicate StatesReady(follows: CharGrammar.Sets, columns: set<char>, C: Collection, n: int) {
    Indexed(C, n) && forall k, it :: k in C && it in C[k] ==> ItemReady(follows, columns, it)
  }

  ghost predicate Ready(t: TableInputs) {
    StatesReady(t.follows, t.columns.Keys, t.states, t.count)
  }

  /**
   * The cells one item asks for in the row of state k. Before a non-terminal
   * X: goto the state the search answers; before $: accept; before a
   * terminal: shift to the state the search answers. Completed: reduce by
   * the item's production number under every symbol of FOLLOW of the
   * handle's last symbol.
   */
  ghost function ItemWrites(t: TableInputs, k: int, it: Item): set<(int, Cell)>
    requires Ready(t) && k in t.states && it in t.states[k]
  {
    assert ItemReady(t.follows, t.columns.Keys, it);
    if it.dot < |it.handle| then
      var x := it.handle[it.dot];
      var col := t.columns[x];
      if x in t.nonTerminals then set j | j in Targets(t.states, t.count, k, x) :: (col, Goto(j))
      else if x == CharGrammar.EndMarker then {(col, Accept)}
      else set j | j in Targets(t.states, t.count, k, x) :: (col, Shift(j))
    else if it.dot == |it.handle| then
      var number := CharGrammar.ProductionNumber(t.ordering, it.lhs, it.handle);
      set s | s in t.follows[it.handle[|it.handle| - 1]] :: (t.columns[s], Reduce(number))
    else {}
  }

  /** The cells the items of `items` ask for in the row of state k. */
  ghost function StateWrites(t: TableInputs, k: int, items: set<Item>): set<(int, Cell)>
    requires Ready(t) && k in t.states && items <= t.states[k]
  {
    set it, w | it in items && w in ItemWrites(t, k, it) :: w
  }

  lemma StateWritesAdd(t: TableInputs, k: int, items: set<Item>, it: Item)
    requires Ready(t) && k in t.states && items <= t.states[k] && it in t.states[k]
    ensures StateWrites(t, k, items + {it}) == StateWrites(t, k, items) + ItemWrites(t, k, it)
  {
  }

  /**
   * Row k of the table holds what `W` asks for: a cell is empty exactly when
   * nothing is asked for its column, and otherwise holds one of the cells
   * asked for it. Which one wins depends on the order items are visited.
   */
  ghost predicate RowMatches(table: array2<Cell>, k: int, W: set<(int, Cell)>)
    reads table
    requires 0 <= k < table.Length0
  {
    forall c :: 0 <= c < table.Length1 ==>
      (table[k, c] == Empty <==> forall w :: w in W ==> w.0 != c) &&
      (table[k, c] != Empty ==> (c, table[k, c]) in W)
  }

  /** A row still matches after more requests, as long as each is for a non-empty cell. */
  lemma RowMatchesMore(table: array2<Cell>, k: int, W: set<(int, Cell)>, V: set<(int, Cell)>)
    requires 0 <= k < table.Length0 && RowMatches(table, k, W) && W <= V
    requires forall v :: v in V && v !in W ==> 0 <= v.0 < table.Length1 && table[k, v.0] != Empty
    ensures RowMatches(table, k, V)
  {
  }

  /** Writes one cell of row k. */
  method Put(table: array2<Cell>, k: int, c: int, cell: Cell, ghost W: set<(int, Cell)>)
    requires 0 <= k < table.Length0 && 0 <= c < table.Length1 && cell != Empty
    requires RowMatches(table, k, W)
    modifies table
    ensures RowMatches(table, k, W + {(c, cell)})
    ensures forall r, d :: 0 <= r < table.Length0 && 0 <= d < table.Length1 && (r, d) != (k, c) ==>
      table[r, d] == old(table[r, d])
  {
    table[k, c] := cell;
  }

  /** Every row of the table holds what the items of its state ask for. */
  ghost predicate TableMatches(table: array2<Cell>, t: TableInputs)
    reads table
  {
    Ready(t) && table.Length0 == t.count &&
    forall k :: 0 <= k < t.count ==> RowMatches(table, k, StateWrites(t, k, t.states[k]))
  }

  /** The columns are numbered below `width`. */
  ghost predicate ColumnsBelow(columns: map<char, int>, width: int) {
    forall c :: c in columns ==> 0 <= columns[c] < width
  }

  /** Fills in what one item of state k asks for. */
  method FillItem(g: CharGrammar.ContextFreeGrammar, ghost t: TableInputs, C: Collection, n: int,
                  columns: map<char, int>, table: array2<Cell>, k: int, item: Item, ghost W: set<(int, Cell)>)
    requires g.Valid() && Ready(t)
    requires t == TableInputs(g.nonTerminals, g.follows, g.ordering, columns, C, n)
    requires k in C && item in C[k]
    requires table.Length0 == n && ColumnsBelow(columns, table.Length1)
    requires RowMatches(table, k, W)
    modifies table
    ensures RowMatches(table, k, W + ItemWrites(t, k, item))
    ensures forall r, d :: 0 <= r < table.Length0 && r != k && 0 <= d < table.Length1 ==>
      table[r, d] == old(table[r, d])
  {
    assert ItemReady(g.follows, columns.Keys, item);
    var handle := item.handle;
    if item.dot < |handle| {
      var x := handle[item.dot];
      var col := columns[x];
      if g.IsNonTerminal(x) {
        var j := GotoIndex(C, n, k, x);
        Put(table, k, col, Goto(j), W);
      } else if x == CharGrammar.EndMarker {
        Put(table, k, col, Accept, W);
      } else {
        var j := GotoIndex(C, n, k, x);
        Put(table, k, col, Shift(j), W);
      }
      RowMatchesMore(table, k, W + {(col, table[k, col])}, W + ItemWrites(t, k, item));
    } else if item.dot == |handle| {
      var follow := g.follows[handle[|handle| - 1]];
      var number := g.GetProductionNumber(item.lhs, handle);
      var rest := follow;
      while rest != {}
        invariant rest <= follow
        invariant RowMatches(table, k, W + set s | s in follow - rest :: (columns[s], Reduce(number)))
        invariant forall r, d :: 0 <= r < table.Length0 && r != k && 0 <= d < table.Length1 ==>
          table[r, d] == old(table[r, d])
        decreases rest
      {
        var symbol :| symbol in rest;
        ghost var done := set s | s in follow - rest :: (columns[s], Reduce(number));
        Put(table, k, columns[symbol], Reduce(number), W + done);
        assert W + done + {(columns[symbol], Reduce(number))}
            == W + set s | s in follow - (rest - {symbol}) :: (columns[s], Reduce(number));
        rest := rest - {symbol};
      }
      assert follow - rest == follow;
    } else {
      assert ItemWrites(t, k, item) == {};
      assert W + ItemWrites(t, k, item) == W;
    }
  }

  /** Fills in row k: every item of state k in turn. */
  method FillRow(g: CharGrammar.ContextFreeGrammar, ghost t: TableInputs, C: Collection, n: int,
                 columns: map<char, int>, table: array2<Cell>, k: int)
    requires g.Valid() && Ready(t)
    requires t == TableInputs(g.nonTerminals, g.follows, g.ordering, columns, C, n)
    requires k in C && table.Length0 == n && ColumnsBelow(columns, table.Length1)
    requires RowMatches(table, k, {})
    modifies table
    ensures RowMatches(table, k, StateWrites(t, k, C[k]))
    ensures forall r, d :: 0 <= r < table.Length0 && r != k && 0 <= d < table.Length1 ==>
      table[r, d] == old(table[r, d])
  {
    var rest := C[k];
    ghost var W: set<(int, Cell)> := {};
    while rest != {}
      invariant rest <= C[k]
      invariant W == StateWrites(t, k, C[k] - rest) && RowMatches(table, k, W)
      invariant forall r, d :: 0 <= r < table.Length0 && r != k && 0 <= d < table.Length1 ==>
        table[r, d] == old(table[r, d])
      decreases rest
    {
      var item :| item in rest;
      FillItem(g, t, C, n, columns, table, k, item, W);
      StateWritesAdd(t, k, C[k] - rest, item);
      assert C[k] - rest + {item} == C[k] - (rest - {item});
      W := W + ItemWrites(t, k, item);
      rest := rest - {item};
    }
    assert C[k] - rest == C[k];
  }

  /** Columns are numbered without repeats. */
  ghost predicate Injective(columns: map<char, int>) {
    forall a, b :: a in columns && b in columns && columns[a] == columns[b] ==> a == b
  }

  /** The columns added so far: those of `columns`, unchanged, and the symbols of `syms` not in `rest`, numbered from `counter` on. */
  ghost predicate ColumnsSoFar(columns: map<char, int>, counter: int, syms: set<char>, rest: set<char>,
                               columns': map<char, int>, counter': int)
  {
    (forall c :: c in columns' <==> c in columns || (c in syms && c !in rest)) &&
    counter' == |columns'| && ColumnsBelow(columns', counter') && Injective(columns') &&
    (forall c :: c in columns ==> columns'[c] == columns[c]) &&
    (forall c :: c in syms && c !in rest ==> counter <= columns'[c])
  }

  /** A new symbol under the next column number keeps the numbering dense and without repeats. */
  lemma ColumnStep(columns: map<char, int>, counter: int, syms: set<char>, rest: set<char>,
                   columns': map<char, int>, counter': int, symbol: char)
    requires syms !! columns.Keys && rest <= syms && symbol in rest && counter <= counter'
    requires ColumnsSoFar(columns, counter, syms, rest, columns', counter')
    ensures ColumnsSoFar(columns, counter, syms, rest - {symbol}, columns'[symbol := counter'], counter' + 1)
  {
  }

  /** Adds the symbols of `syms` as new columns numbered from `counter` on. */
  method AddColumns(columns: map<char, int>, counter: int, syms: set<char>) returns (columns': map<char, int>, counter': int)
    requires syms !! columns.Keys && counter == |columns| && ColumnsBelow(columns, counter) && Injective(columns)
    ensures forall c :: c in columns' <==> c in columns || c in syms
    ensures counter' == |columns'|
    ensures ColumnsBelow(columns', counter') && Injective(columns')
    ensures forall c :: c in columns ==> columns'[c] == columns[c]
    ensures forall c :: c in syms ==> counter <= columns'[c]
  {
    columns', counter' := columns, counter;
    var rest := syms;
    while rest != {}
      invariant rest <= syms && counter <= counter'
      invariant ColumnsSoFar(columns, counter, syms, rest, columns', counter')
      decreases rest
    {
      var symbol :| symbol in rest;
      ColumnStep(columns, counter, syms, rest, columns', counter', symbol);
      columns' := columns'[symbol := counter'];
      counter' := counter' + 1;
      rest := rest - {symbol};
    }
  }

  /** The columns: the terminals first, then $, then the non-terminals. */
  ghost predicate ColumnLayout(columns: map<char, int>, terminals: set<char>, nonTerminals: set<char>) {
    columns.Keys == terminals + {CharGrammar.EndMarker} + nonTerminals &&
    ColumnsBelow(columns, |columns|) && Injective(columns) &&
    (forall c :: c in terminals ==> columns[c] < |terminals|) &&
    columns[CharGrammar.EndMarker] == |terminals| &&
    (forall c :: c in nonTerminals ==> columns[c] > |terminals|)
  }

  /** Numbers the columns: the terminals first, then $, then the non-terminals. */
  method NumberColumns(terminals: set<char>, nonTerminals: set<char>) returns (columns: map<char, int>, counter: int)
    requires terminals !! nonTerminals
    requires CharGrammar.EndMarker !in terminals && CharGrammar.EndMarker !in nonTerminals
    ensures ColumnLayout(columns, terminals, nonTerminals) && counter == |columns|
  {
    columns, counter := AddColumns(map[], 0, terminals);
    assert columns.Keys == terminals;
    columns := columns[CharGrammar.EndMarker := counter];
    counter := counter + 1;
    columns, counter := AddColumns(columns, counter, nonTerminals);
    assert columns.Keys == terminals + {CharGrammar.EndMarker} + nonTerminals;
  }

  /** A table with a row per state and `width` columns, filled row by row. */
  method FillTable(g: CharGrammar.ContextFreeGrammar, ghost t: TableInputs, C: Collection, n: int,
                   columns: map<char, int>, width: int)
    returns (table: array2<Cell>)
    requires g.Valid() && Ready(t) && n >= 0 && width >= 0
    requires t == TableInputs(g.nonTerminals, g.follows, g.ordering, columns, C, n)
    requires ColumnsBelow(columns, width)
    ensures fresh(table) && table.Length0 == n && table.Length1 == width
    ensures TableMatches(table, t)
  {
    table := new Cell[n, width]((_, _) => Empty);
    var k := 0;
    while k < n
      invariant 0 <= k <= n
      invariant forall r :: 0 <= r < k ==> RowMatches(table, r, StateWrites(t, r, C[r]))
      invariant forall r :: k <= r < n ==> RowMatches(table, r, {})
    {
      label before:
      FillRow(g, t, C, n, columns, table, k);
      forall r | 0 <= r < k
        ensures RowMatches(table, r, StateWrites(t, r, C[r]))
      {
        assert old@before(RowMatches(table, r, StateWrites(t, r, C[r])));
        assert forall d :: 0 <= d < width ==> table[r, d] == old@before(table[r, d]);
      }
      forall r | k < r < n
        ensures RowMatches(table, r, {})
      {
        assert old@before(RowMatches(table, r, {}));
        assert forall d :: 0 <= d < width ==> table[r, d] == old@before(table[r, d]);
      }
      k := k + 1;
    }
  }

  /** The action/goto table of a collection, with its column for each grammar symbol. */
  class Actions {
    var symbols: map<char, int>
    var parsingTable: array2<Cell>

    /** The table has a row per state and a column per symbol, filled as the items of each state ask. */
    ghost predicate Tabulates(g: CharGrammar.ContextFreeGrammar, C: Collection, n: int)
      reads this, parsingTable, g
    {
      ColumnLayout(symbols, g.terminals, g.nonTerminals) &&
      parsingTable.Length0 == n && parsingTable.Length1 == |symbols| &&
      TableMatches(parsingTable, TableInputs(g.nonTerminals, g.follows, g.ordering, symbols, C, n))
    }

    /**
     * Numbers the columns (terminals, then $, then non-terminals) and fills
     * the table row by row.
     */
    constructor (g: CharGrammar.ContextFreeGrammar, C: Collection, n: int)
      requires g.Valid() && n >= 0
      requires g.terminals !! g.nonTerminals
      requires CharGrammar.EndMarker !in g.terminals && CharGrammar.EndMarker !in g.nonTerminals
      requires StatesReady(g.follows, g.terminals + {CharGrammar.EndMarker} + g.nonTerminals, C, n)
      ensures Tabulates(g, C, n) && fresh(parsingTable)
    {
      var columns, counter := NumberColumns(g.terminals, g.nonTerminals);
      ghost var t := TableInputs(g.nonTerminals, g.follows, g.ordering, columns, C, n);
      var table := FillTable(g, t, C, n, columns, counter);
      symbols := columns;
      parsingTable := table;
    }

    /** The symbol of column `colNum` as a one-character string, or the empty string when no symbol has that column. */
    method GetParsingTableColumnTag(colNum: int) returns (r: string)
      ensures r == "" <==> forall c :: c in symbols ==> symbols[c] != colNum
      ensures r != "" ==> |r| == 1 && r[0] in symbols && symbols[r[0]] == colNum
    {
      var rest := symbols.Keys;
      while rest != {}
        invariant rest <= symbols.Keys
        invariant forall c :: c in symbols.Keys - rest ==> symbols[c] != colNum
        decreases rest
      {
        var entry :| entry in rest;
        if symbols[entry] == colNum {
          return [entry];
        }
        rest := rest - {entry};
      }
      assert symbols.Keys - rest == symbols.Keys;
      return "";
    }
  }

  // ---------------------------------------------------------------------
  // The generator
  // ---------------------------------------------------------------------

  /**
   * A handle the table can be filled for: non-empty, made of grammar
   * symbols, and its last symbol has a FOLLOW set of grammar symbols and $.
   */
  ghost predicate HandleReady(symbols: set<char>, follows: CharGrammar.Sets, h: string) {
    |h| > 0 && (forall i :: 0 <= i < |h| ==> h[i] in symbols) &&
    h[|h| - 1] in follows && follows[h[|h| - 1]] <= symbols + {CharGrammar.EndMarker}
  }

  /**
   * What the generator needs of a grammar: its non-terminals are its
   * left-hand sides and its terminals the other symbols, $ is not a symbol,
   * the starting symbol is one, and every handle is ready.
   */
  ghost predicate GrammarReady(g: CharGrammar.ContextFreeGrammar)
    reads g
  {
    g.Valid() && g.Classified() && CharGrammar.EndMarker !in g.symbols && g.startingSymbol in g.symbols &&
    forall x, h :: x in g.productions && h in g.productions[x] ==> HandleReady(g.symbols, g.follows, h)
  }

  /** Every item of the universe is ready for the table fill. */
  lemma UniverseReady(P: Rules, symbols: set<char>, follows: CharGrammar.Sets, start: char)
    requires CharGrammar.EndMarker !in symbols && start in symbols
    requires forall x, h :: x in P && h in P[x] ==> HandleReady(symbols, follows, h)
    ensures forall it :: it in Universe(P, start) ==> ItemReady(follows, symbols + {CharGrammar.EndMarker}, it)
  {
    forall it | it in Universe(P, start)
      ensures ItemReady(follows, symbols + {CharGrammar.EndMarker}, it)
    {
      if it.lhs in P && it.handle in P[it.lhs] && it.dot <= |it.handle| {
        assert HandleReady(symbols, follows, it.handle);
      }
    }
  }

  /** Every item of every state of the collection is ready for the table fill. */
  lemma CollectionReady(P: Rules, symbols: set<char>, follows: CharGrammar.Sets, start: char, C: Collection)
    requires CharGrammar.EndMarker !in symbols && start in symbols
    requires forall x, h :: x in P && h in P[x] ==> HandleReady(symbols, follows, h)
    requires Canonical(P, symbols, start, C)
    ensures StatesReady(follows, symbols + {CharGrammar.EndMarker}, C, |C|)
  {
    UniverseReady(P, symbols, follows, start);
  }

  /** A pass that adds a state shrinks the item sets not yet in the collection. */
  lemma PassShrinks(u: set<Item>, C0: Collection, C: Collection, n0: int)
    requires Extends(C0, C) && n0 in C && C[n0] !in C0.Values && C[n0] <= u
    ensures PowerSet(u) - C.Values < PowerSet(u) - C0.Values
  {
    forall v | v in C0.Values
      ensures v in C.Values
    {
      var k := KeyOf(C0, v);
      assert C[k] == v;
    }
    InPowerSet(u, C[n0]);
    assert C[n0] in C.Values;
  }

  /** The canonical collection: numbered states, closed under goto on the grammar symbols. */
  ghost predicate Canonical(P: Rules, symbols: set<char>, start: char, C: Collection) {
    Building(P, symbols, start, C, |C|) && Complete(P, C, symbols)
  }

  /**
   * The construction loop: the closure of Θ -> .S$ is state 0, then passes
   * run until a pass leaves the collection unchanged.
   */
  method BuildCollection(P: Rules, symbols: set<char>, start: char) returns (collection: Collection, stateNum: int)
    requires CharGrammar.EndMarker !in symbols
    ensures Canonical(P, symbols, start, collection) && stateNum == |collection|
  {
    var temp := {StartItem(start)};
    var closure := Closure(P, temp);
    stateNum := 0;
    collection := map[stateNum := closure];
    stateNum := stateNum + 1;
    ghost var u := Universe(P, start);
    ClosureWithin(P, start, temp);
    var tempDict: Collection;
    var same := false;
    while !same
      invariant Building(P, symbols, start, collection, stateNum)
      invariant same ==> Complete(P, collection, symbols)
      decreases PowerSet(u) - collection.Values, if same then 0 else 1
    {
      tempDict := collection;
      collection, stateNum := CollectionPass(P, symbols, start, tempDict, stateNum);
      same := CharGrammar.CompareDicts(tempDict, collection);
      if !same {
        PassShrinks(u, tempDict, collection, |tempDict|);
      }
    }
  }

  /** The canonical collection of a grammar and the table read off it. */
  method Generate(g: CharGrammar.ContextFreeGrammar) returns (collection: Collection, table: Actions)
    requires GrammarReady(g)
    ensures Canonical(g.productions, g.symbols, g.startingSymbol, collection)
    ensures fresh(table) && table.Tabulates(g, collection, |collection|)
  {
    var stateNum;
    collection, stateNum := BuildCollection(g.productions, g.symbols, g.startingSymbol);
    CollectionReady(g.productions, g.symbols, g.follows, g.startingSymbol, collection);
    assert g.terminals + {CharGrammar.EndMarker} + g.nonTerminals == g.symbols + {CharGrammar.EndMarker};
    table := new Actions(g, collection, |collection|);
  }

  /** The SLR(1) generator: the canonical collection of a grammar and its table. */
  class SimpleLR {
    const g: CharGrammar.ContextFreeGrammar
    const canonicalCollection: Collection
    const actions: Actions

    /** Builds the canonical collection of the augmented grammar, then its table. */
    constructor (g: CharGrammar.ContextFreeGrammar)
      requires GrammarReady(g)
      ensures this.g == g
      ensures Canonical(g.productions, g.symbols, g.startingSymbol, canonicalCollection)
      ensures fresh(actions) && actions.Tabulates(g, canonicalCollection, |canonicalCollection|)
    {
      this.g := g;
      var collection, table := Generate(g);
      canonicalCollection := collection;
      actions := table;
    }
  }
}
