/**
 * The single-character grammar: every symbol is one character, a
 * production maps a left-hand side to a set of handle strings, every
 * (left-hand side, handle) pair carries a production number, and FIRST and
 * FOLLOW sets are computed by iterating passes until a pass changes nothing.
 */
module CharGrammar {

  import opened Wrappers
  import LeftFactoring

  /** The empty string symbol, the end-of-input marker, and the "no starting symbol yet" mark. */
  const Epsilon: char := 'ε'
  const EndMarker: char := '$'
  const NoStart: char := ' '

  type Rules = map<char, set<string>>
  type Sets = map<char, set<char>>

  /**
   * For each handle, the (left-hand side, number) pairs under which it was
   * added. The source keys the pairs by the one-character string of the
   * left-hand side; the character itself stands for it here.
   */
  type Ordering = map<string, set<(char, int)>>

  /** One already-split grammar line: the text left of "->" and its alternatives. */
  datatype Line = Line(head: string, handles: seq<string>)

  // ---------------------------------------------------------------------
  // Maps of sets
  // ---------------------------------------------------------------------

  /** The set stored under a key, or the empty set when the key is absent. */
  function SetAt<K, V>(m: map<K, set<V>>, k: K): set<V> {
    if k in m then m[k] else {}
  }

  /** Every entry of `a` is present in `b` with at least the same members. */
  ghost predicate Below<K, V>(a: map<K, set<V>>, b: map<K, set<V>>) {
    a.Keys <= b.Keys && forall k :: k in a ==> a[k] <= b[k]
  }

  lemma BelowTransitive<K, V>(a: map<K, set<V>>, b: map<K, set<V>>, c: map<K, set<V>>)
    requires Below(a, b) && Below(b, c)
    ensures Below(a, c)
  {
  }

  lemma BelowAntisymmetric<K, V>(a: map<K, set<V>>, b: map<K, set<V>>)
    requires Below(a, b) && Below(b, a)
    ensures a == b
  {
    assert a.Keys == b.Keys;
    assert forall k :: k in a ==> a[k] == b[k];
  }

  /** All values lie within `u`. */
  ghost predicate Within<K, V>(m: map<K, set<V>>, u: set<V>) {
    forall k :: k in m ==> m[k] <= u
  }

  lemma SubsetSameSize<T>(a: set<T>, b: set<T>)
    requires a <= b && |a| == |b|
    ensures a == b
  {
    assert b == a + (b - a);
    assert |b| == |a| + |b - a|;
  }

  /** The (key, member) pairs of `keys` x `u` that `f` does not yet hold. */
  ghost function Missing<K, V>(keys: set<K>, u: set<V>, f: map<K, set<V>>): set<(K, V)> {
    set k, c | k in keys && c in u && c !in SetAt(f, k) :: (k, c)
  }

  /** Growing a map strictly, inside `keys` x `u` and with the same keys, leaves fewer pairs missing. */
  lemma MissingShrinks<K, V>(keys: set<K>, u: set<V>, a: map<K, set<V>>, b: map<K, set<V>>)
    requires Below(a, b) && a != b && a.Keys == b.Keys && b.Keys <= keys && Within(b, u)
    ensures Missing(keys, u, b) < Missing(keys, u, a)
  {
    var k :| k in a && a[k] != b[k];
    var c :| c in b[k] && c !in a[k];
    assert (k, c) in Missing(keys, u, a);
  }

  /**
   * Whether two maps of sets hold the same keys with set-equal values: same
   * count, then every key of `one` is in `two` with mutually included sets.
   * The parser generator uses the same test on its state collection.
   */
  method CompareDicts<K(==), V(==)>(one: map<K, set<V>>, two: map<K, set<V>>) returns (r: bool)
    ensures r <==> one == two
  {
    if |one| != |two| {
      return false;
    }
    var keys := one.Keys;
    while keys != {}
      invariant keys <= one.Keys
      invariant forall k :: k in one.Keys - keys ==> k in two && two[k] == one[k]
      decreases keys
    {
      var k :| k in keys;
      if k !in two || !(two[k] <= one[k]) || !(one[k] <= two[k]) {
        return false;
      }
      keys := keys - {k};
    }
    assert one.Keys <= two.Keys;
    SubsetSameSize(one.Keys, two.Keys);
    assert one == two;
    return true;
  }

  /** The common prefix of two handles, collected character by character. */
  method CommonPrefix(one: string, two: string) returns (prefix: string)
    ensures prefix == LeftFactoring.LongestCommonPrefix(one, two)
  {
    var shorter := if |one| < |two| then |one| else |two|;
    prefix := "";
    var i := 0;
    while i < shorter && one[i] == two[i]
      invariant 0 <= i <= shorter
      invariant prefix == one[..i] == two[..i]
    {
      assert one[..i + 1] == one[..i] + [one[i]];
      assert two[..i + 1] == two[..i] + [two[i]];
      prefix := prefix + [one[i]];
      i := i + 1;
    }
    LeftFactoring.CommonPrefixUnique(one, two, prefix);
  }

  // ---------------------------------------------------------------------
  // Production numbers
  // ---------------------------------------------------------------------

  /** The handles of a left-hand side, empty when it has none. */
  function RulesOf(p: Rules, x: char): set<string> {
    SetAt(p, x)
  }

  /** The pair (x, h) has been given a number. */
  ghost predicate Numbered(o: Ordering, x: char, h: string) {
    h in o && exists k :: (x, k) in o[h]
  }

  /** The number recorded for the pair (x, h), or -1 when it has none. */
  ghost function ProductionNumber(o: Ordering, x: char, h: string): int {
    if Numbered(o, x, h) then var k :| (x, k) in o[h]; k else -1
  }

  /** Every recorded pair belongs to a production and has a number from 1 to below the counter. */
  ghost predicate PairsBounded(p: Rules, o: Ordering, n: int) {
    forall h, x, k :: h in o && (x, k) in o[h] ==> x in p && h in p[x] && 1 <= k < n
  }

  /** A (left-hand side, handle) pair has one number. */
  ghost predicate OnePerLhs(o: Ordering) {
    forall h, x, k1, k2 :: h in o && (x, k1) in o[h] && (x, k2) in o[h] ==> k1 == k2
  }

  /** No number is used for two pairs. */
  ghost predicate NumbersDistinct(o: Ordering) {
    forall h1, h2, x1, x2, k :: h1 in o && h2 in o && (x1, k) in o[h1] && (x2, k) in o[h2] ==> h1 == h2 && x1 == x2
  }

  ghost predicate NumbersSound(p: Rules, o: Ordering, n: int) {
    PairsBounded(p, o, n) && OnePerLhs(o) && NumbersDistinct(o)
  }

  /** Every production is numbered, except the pending handles of `lhs`. */
  ghost predicate NumberedExcept(p: Rules, o: Ordering, lhs: char, pending: set<string>) {
    forall x, h :: x in p && h in p[x] && !(x == lhs && h in pending) ==> Numbered(o, x, h)
  }

  ghost predicate OrderingValid(p: Rules, o: Ordering, n: int) {
    NumbersSound(p, o, n) && NumberedExcept(p, o, NoStart, {})
  }

  /** Growing the handles of `lhs` keeps the numbers sound and leaves exactly the new handles unnumbered. */
  lemma OpenNumbering(p: Rules, o: Ordering, n: int, lhs: char, handles: set<string>, p': Rules)
    requires OrderingValid(p, o, n) && p' == p[lhs := RulesOf(p, lhs) + handles]
    ensures NumbersSound(p', o, n)
    ensures NumberedExcept(p', o, lhs, handles - RulesOf(p, lhs))
    ensures forall h :: h in handles - RulesOf(p, lhs) ==> !Numbered(o, lhs, h)
  {
  }

  lemma BoundedStep(p: Rules, o: Ordering, n: int, lhs: char, h: string)
    requires PairsBounded(p, o, n) && n >= 1 && lhs in p && h in p[lhs]
    ensures PairsBounded(p, o[h := SetAt(o, h) + {(lhs, n)}], n + 1)
  {
    var o' := o[h := SetAt(o, h) + {(lhs, n)}];
    forall g, x, k | g in o' && (x, k) in o'[g]
      ensures x in p && g in p[x] && 1 <= k < n + 1
    {
      if g != h || x != lhs || k != n {
        assert (x, k) in o[g];
      }
    }
  }

  lemma OnePerLhsStep(o: Ordering, n: int, lhs: char, h: string)
    requires OnePerLhs(o) && !Numbered(o, lhs, h)
    ensures OnePerLhs(o[h := SetAt(o, h) + {(lhs, n)}])
  {
    var o' := o[h := SetAt(o, h) + {(lhs, n)}];
    forall g, x, k1, k2 | g in o' && (x, k1) in o'[g] && (x, k2) in o'[g]
      ensures k1 == k2
    {
      if g != h {
        assert (x, k1) in o[g] && (x, k2) in o[g];
      } else if x != lhs {
        assert (x, k1) in o[h] && (x, k2) in o[h];
      } else {
        assert (lhs, k1) !in SetAt(o, h) && (lhs, k2) !in SetAt(o, h);
      }
    }
  }

  lemma DistinctStep(p: Rules, o: Ordering, n: int, lhs: char, h: string)
    requires NumbersDistinct(o) && PairsBounded(p, o, n)
    ensures NumbersDistinct(o[h := SetAt(o, h) + {(lhs, n)}])
  {
    var o' := o[h := SetAt(o, h) + {(lhs, n)}];
    forall g1, g2, x1, x2, k | g1 in o' && g2 in o' && (x1, k) in o'[g1] && (x2, k) in o'[g2]
      ensures g1 == g2 && x1 == x2
    {
      if g1 != h || (x1, k) in SetAt(o, h) {
        assert (x1, k) in o[g1] && k < n;
      }
      if g2 != h || (x2, k) in SetAt(o, h) {
        assert (x2, k) in o[g2] && k < n;
      }
    }
  }

  /** Numbering one pending handle with the counter. */
  lemma NumberOne(p: Rules, o: Ordering, n: int, lhs: char, pending: set<string>, h: string)
    requires NumbersSound(p, o, n) && NumberedExcept(p, o, lhs, pending)
    requires n >= 1 && lhs in p && pending <= p[lhs] && h in pending
    requires forall g :: g in pending ==> !Numbered(o, lhs, g)
    ensures var o' := o[h := SetAt(o, h) + {(lhs, n)}];
      NumbersSound(p, o', n + 1) &&
      NumberedExcept(p, o', lhs, pending - {h}) &&
      forall g :: g in pending - {h} ==> !Numbered(o', lhs, g)
  {
    BoundedStep(p, o, n, lhs, h);
    OnePerLhsStep(o, n, lhs, h);
    DistinctStep(p, o, n, lhs, h);
    var o' := o[h := SetAt(o, h) + {(lhs, n)}];
    forall x, g | x in p && g in p[x] && !(x == lhs && g in pending - {h})
      ensures Numbered(o', x, g)
    {
      if x == lhs && g == h {
        assert (lhs, n) in o'[h];
      } else {
        assert Numbered(o, x, g);
        var k :| (x, k) in o[g];
        assert (x, k) in o'[g];
      }
    }
    forall g | g in pending - {h}
      ensures !Numbered(o', lhs, g)
    {
      if g in o' {
        assert o'[g] == o[g];
      }
    }
  }

  /**
   * `o` is `o0` with each handle of `number` given the pair (lhs, its number),
   * the numbers lying in [n0, n); other handles are as in `o0`.
   */
  ghost predicate Assigned(o0: Ordering, o: Ordering, lhs: char, number: map<string, int>, n0: int, n: int) {
    (forall h :: h in number ==>
      h in o && n0 <= number[h] < n && o[h] == SetAt(o0, h) + {(lhs, number[h])}) &&
    (forall h :: h !in number ==> (h in o <==> h in o0) && (h in o ==> o[h] == o0[h]))
  }

  lemma AssignStep(o0: Ordering, o: Ordering, lhs: char, number: map<string, int>, n0: int, n: int, h: string)
    requires Assigned(o0, o, lhs, number, n0, n) && h !in number && n0 <= n
    ensures Assigned(o0, o[h := SetAt(o, h) + {(lhs, n)}], lhs, number[h := n], n0, n + 1)
  {
    assert SetAt(o, h) == SetAt(o0, h);
  }

  /**
   * The numbering loop after the handles `pending - rest` of `lhs` were
   * numbered, starting from ordering `o0` and counter `n0`.
   */
  ghost predicate Numbering(p: Rules, o0: Ordering, n0: int, lhs: char, pending: set<string>,
                            rest: set<string>, number: map<string, int>, o: Ordering, n: int)
  {
    n >= 1 && lhs in p && pending <= p[lhs] &&
    NumbersSound(p, o, n) && NumberedExcept(p, o, lhs, rest) &&
    (forall h :: h in rest ==> !Numbered(o, lhs, h)) &&
    n == n0 + |pending - rest| && number.Keys == pending - rest &&
    Assigned(o0, o, lhs, number, n0, n)
  }

  lemma NumberStep(p: Rules, o0: Ordering, n0: int, lhs: char, pending: set<string>,
                   rest: set<string>, number: map<string, int>, o: Ordering, n: int, h: string)
    requires Numbering(p, o0, n0, lhs, pending, rest, number, o, n) && rest <= pending && h in rest
    ensures Numbering(p, o0, n0, lhs, pending, rest - {h}, number[h := n], o[h := SetAt(o, h) + {(lhs, n)}], n + 1)
  {
    NumberOne(p, o, n, lhs, rest, h);
    AssignStep(o0, o, lhs, number, n0, n, h);
    CountStep(pending, rest, number, h, n);
  }

  /**
   * Each handle of `pending` gained one pair (lhs, k), k numbered from n0 to
   * below n; every other handle kept its pairs.
   */
  ghost predicate NumberedNew(o0: Ordering, o: Ordering, lhs: char, pending: set<string>, n0: int, n: int) {
    (forall h :: h in pending ==> h in o && exists k :: n0 <= k < n && o[h] == SetAt(o0, h) + {(lhs, k)}) &&
    (forall h :: h !in pending ==> (h in o <==> h in o0) && (h in o ==> o[h] == o0[h]))
  }

  lemma NumberingDone(p: Rules, o0: Ordering, n0: int, lhs: char, pending: set<string>,
                      number: map<string, int>, o: Ordering, n: int)
    requires Numbering(p, o0, n0, lhs, pending, {}, number, o, n)
    ensures n >= 1 && OrderingValid(p, o, n)
    ensures n == n0 + |pending|
    ensures NumberedNew(o0, o, lhs, pending, n0, n)
  {
    assert pending - {} == pending;
    forall h | h in pending
      ensures h in o && exists k :: n0 <= k < n && o[h] == SetAt(o0, h) + {(lhs, k)}
    {
      assert h in number;
    }
  }

  lemma CountStep(pending: set<string>, rest: set<string>, number: map<string, int>, h: string, n: int)
    requires number.Keys == pending - rest && h in rest && rest <= pending
    ensures number[h := n].Keys == pending - (rest - {h})
    ensures |pending - (rest - {h})| == |pending - rest| + 1
  {
    assert pending - (rest - {h}) == (pending - rest) + {h};
  }

  /**
   * The numbering loop of AddProduction on the ordering and counter: each
   * pending handle of `lhs` gets the pair (lhs, counter), and the counter
   * increments.
   */
  method NumberHandles(p: Rules, o0: Ordering, n0: int, lhs: char, pending: set<string>) returns (o: Ordering, n: int)
    requires n0 >= 1 && lhs in p && pending <= p[lhs]
    requires NumbersSound(p, o0, n0) && NumberedExcept(p, o0, lhs, pending)
    requires forall h :: h in pending ==> !Numbered(o0, lhs, h)
    ensures n >= 1 && OrderingValid(p, o, n)
    ensures n == n0 + |pending|
    ensures NumberedNew(o0, o, lhs, pending, n0, n)
  {
    o, n := o0, n0;
    var rest := pending;
    ghost var number: map<string, int> := map[];
    while rest != {}
      invariant rest <= pending
      invariant Numbering(p, o0, n0, lhs, pending, rest, number, o, n)
      decreases rest
    {
      var h :| h in rest;
      NumberStep(p, o0, n0, lhs, pending, rest, number, o, n, h);
      o := o[h := SetAt(o, h) + {(lhs, n)}];
      n := n + 1;
      number := number[h := n - 1];
      rest := rest - {h};
    }
    NumberingDone(p, o0, n0, lhs, pending, number, o, n);
  }

  /**
   * AddProduction on the productions, ordering and counter: the handles are
   * merged into those of `lhs` (the source removes the old entry and adds
   * the merged one), and the handles new for `lhs` are numbered.
   */
  method MergeRules(p0: Rules, o0: Ordering, n0: int, lhs: char, handles: set<string>)
    returns (p: Rules, o: Ordering, n: int)
    requires n0 >= 1 && OrderingValid(p0, o0, n0)
    ensures p == p0[lhs := RulesOf(p0, lhs) + handles] && p.Keys == p0.Keys + {lhs}
    ensures n >= 1 && OrderingValid(p, o, n)
    ensures n == n0 + |handles - RulesOf(p0, lhs)|
    ensures NumberedNew(o0, o, lhs, handles - RulesOf(p0, lhs), n0, n)
  {
    var newHandles := handles - RulesOf(p0, lhs);
    var merged := handles;
    if lhs in p0 {
      merged := merged + p0[lhs];
    }
    assert merged == RulesOf(p0, lhs) + handles;
    p := p0[lhs := merged];
    OpenNumbering(p0, o0, n0, lhs, handles, p);
    o, n := NumberHandles(p, o0, n0, lhs, newHandles);
  }

  // ---------------------------------------------------------------------
  // FIRST sets
  // ---------------------------------------------------------------------

  /** Both parts present: their union; otherwise no value. */
  function Join(a: Option<set<char>>, b: Option<set<char>>): Option<set<char>> {
    if a.Some? && b.Some? then Some(a.value + b.value) else None
  }

  lemma JoinEmpty(a: Option<set<char>>)
    ensures Join(Some({}), a) == a
  {
    if a.Some? {
      assert {} + a.value == a.value;
    }
  }

  lemma JoinAssociative(a: set<char>, b: set<char>, c: Option<set<char>>)
    ensures Join(Some(a), Join(Some(b), c)) == Join(Some(a + b), c)
  {
    if c.Some? {
      assert a + (b + c.value) == (a + b) + c.value;
    }
  }

  /**
   * FIRST of symbol `x` as the recursive computation finds it, reading the
   * stored sets `f`, while the non-terminals in `path` are still being
   * computed further up the call chain. A symbol that is not a non-terminal
   * is its own FIRST. Re-entering a non-terminal of the chain would recurse
   * without end, and an empty handle makes the computation index past its
   * end: both give no value.
   */
  ghost function FirstOf(p: Rules, f: Sets, path: set<char>, x: char): Option<set<char>>
    decreases p.Keys - path, 0
  {
    if x !in p then Some({x})
    else if x in path then None
    else Join(Some(SetAt(f, x)), AltsFirst(p, f, path + {x}, x))
  }

  /** The union of FIRST over all alternatives of `x`, or no value when one of them has none. */
  ghost function AltsFirst(p: Rules, f: Sets, path: set<char>, x: char): Option<set<char>>
    requires x in p
    decreases p.Keys - path, 4
  {
    if exists r :: r in p[x] && AltFirst(p, f, path, x, r).None? then None
    else Some(AltsUnion(p, f, path, x, p[x]))
  }

  /** The members contributed by the alternatives `rs` of `x`. */
  ghost function AltsUnion(p: Rules, f: Sets, path: set<char>, x: char, rs: set<string>): set<char>
    decreases p.Keys - path, 3
  {
    set r, c | r in rs && AltFirst(p, f, path, x, r).Some? && c in AltFirst(p, f, path, x, r).value :: c
  }

  /** One alternative: one starting with `x` itself is skipped (it contributes nothing). */
  ghost function AltFirst(p: Rules, f: Sets, path: set<char>, x: char, r: string): Option<set<char>>
    decreases p.Keys - path, 2
  {
    if r == [] then None
    else if r[0] == x then Some({})
    else FirstOfSeq(p, f, path, r)
  }

  /**
   * FIRST of the symbols of `s` in turn, stopping after the first one whose
   * FIRST lacks ε; the collected sets are united.
   */
  ghost function FirstOfSeq(p: Rules, f: Sets, path: set<char>, s: string): Option<set<char>>
    decreases p.Keys - path, 1, |s|
  {
    if s == [] then Some({})
    else
      var t := FirstOf(p, f, path, s[0]);
      if t.None? then None
      else if Epsilon !in t.value then t
      else Join(t, FirstOfSeq(p, f, path, s[1..]))
  }

  lemma AltsUnionAdd(p: Rules, f: Sets, path: set<char>, x: char, rs: set<string>, r: string)
    requires AltFirst(p, f, path, x, r).Some?
    ensures AltsUnion(p, f, path, x, rs + {r}) == AltsUnion(p, f, path, x, rs) + AltFirst(p, f, path, x, r).value
  {
    var t := AltFirst(p, f, path, x, r).value;
    forall c | c in t
      ensures c in AltsUnion(p, f, path, x, rs + {r})
    {
      assert r in rs + {r};
    }
  }

  /** Every character that occurs in some handle. */
  ghost function HandleChars(p: Rules): set<char> {
    set x, h, i | x in p && h in p[x] && 0 <= i < |h| :: h[i]
  }

  /** A non-terminal's FIRST, when it has one, contains its stored set. */
  lemma FirstOfGrows(p: Rules, f: Sets, x: char)
    requires x in p && FirstOf(p, f, {}, x).Some?
    ensures SetAt(f, x) <= FirstOf(p, f, {}, x).value
  {
  }

  /**
   * With the stored sets inside `u` and every handle character in `u`,
   * FIRST of a symbol of `u` or of a non-terminal stays inside `u`.
   */
  lemma {:induction false} FirstOfWithin(p: Rules, f: Sets, path: set<char>, x: char, u: set<char>)
    requires Within(f, u) && HandleChars(p) <= u && (x in p || x in u)
    ensures FirstOf(p, f, path, x).Some? ==> FirstOf(p, f, path, x).value <= u
    decreases p.Keys - path, 0
  {
    if x in p && x !in path {
      AltsFirstWithin(p, f, path + {x}, x, u);
    }
  }

  lemma {:induction false} AltsFirstWithin(p: Rules, f: Sets, path: set<char>, x: char, u: set<char>)
    requires Within(f, u) && HandleChars(p) <= u && x in p
    ensures AltsFirst(p, f, path, x).Some? ==> AltsFirst(p, f, path, x).value <= u
    decreases p.Keys - path, 4
  {
    forall r | r in p[x]
      ensures AltFirst(p, f, path, x, r).Some? ==> AltFirst(p, f, path, x, r).value <= u
    {
      AltFirstWithin(p, f, path, x, r, u);
    }
  }

  lemma {:induction false} AltFirstWithin(p: Rules, f: Sets, path: set<char>, x: char, r: string, u: set<char>)
    requires Within(f, u) && HandleChars(p) <= u && x in p && r in p[x]
    ensures AltFirst(p, f, path, x, r).Some? ==> AltFirst(p, f, path, x, r).value <= u
    decreases p.Keys - path, 2
  {
    if r != [] && r[0] != x {
      forall i | 0 <= i < |r|
        ensures r[i] in u
      {
        assert r[i] in HandleChars(p);
      }
      FirstOfSeqWithin(p, f, path, r, u);
    }
  }

  lemma {:induction false} FirstOfSeqWithin(p: Rules, f: Sets, path: set<char>, s: string, u: set<char>)
    requires Within(f, u) && HandleChars(p) <= u && forall i :: 0 <= i < |s| ==> s[i] in u
    ensures FirstOfSeq(p, f, path, s).Some? ==> FirstOfSeq(p, f, path, s).value <= u
    decreases p.Keys - path, 1, |s|
  {
    if s != [] {
      FirstOfWithin(p, f, path, s[0], u);
      FirstOfSeqWithin(p, f, path, s[1..], u);
    }
  }

  /** FIRST of a symbol read from the stored sets; a symbol without one is its own FIRST. */
  function FirstSet(f: Sets, c: char): set<char> {
    if c in f then f[c] else {c}
  }

  /**
   * The stored FIRST sets are closed: every non-terminal has one, and
   * recomputing it from the stored sets gives it back unchanged.
   */
  ghost predicate FirstsClosed(p: Rules, f: Sets) {
    f.Keys == p.Keys && forall x :: x in p ==> FirstOf(p, f, {}, x) == Some(f[x])
  }

  /**
   * In closed FIRST sets, what a handle of `x` contributes lies in FIRST of
   * `x`; in particular a handle's leading terminal does.
   */
  lemma ClosedFirstRule(p: Rules, f: Sets, x: char, r: string)
    requires FirstsClosed(p, f) && x in p && r in p[x] && r != [] && r[0] != x
    ensures FirstOfSeq(p, f, {x}, r).Some? && FirstOfSeq(p, f, {x}, r).value <= f[x]
    ensures r[0] !in p ==> r[0] in f[x]
  {
    assert FirstOf(p, f, {}, x) == Some(f[x]);
    assert {} + {x} == {x};
    var alts := AltsFirst(p, f, {x}, x);
    assert alts.Some?;
    assert AltFirst(p, f, {x}, x, r) == FirstOfSeq(p, f, {x}, r);
    assert AltFirst(p, f, {x}, x, r).Some?;
    forall c | c in FirstOfSeq(p, f, {x}, r).value
      ensures c in f[x]
    {
      assert c in AltsUnion(p, f, {x}, x, p[x]);
    }
    if r[0] !in p {
      assert FirstOf(p, f, {x}, r[0]) == Some({r[0]});
    }
  }

  // ---------------------------------------------------------------------
  // FOLLOW sets
  // ---------------------------------------------------------------------

  /**
   * The carry after meeting a symbol whose FIRST is `fs`: a FIRST with ε
   * adds its members to the carry, ε itself taken out; any other FIRST
   * replaces the carry.
   */
  function Step(carry: set<char>, fs: set<char>): set<char> {
    if Epsilon in fs then (carry + fs) - {Epsilon} else fs
  }

  /** The carry once the symbols of `s` have been walked from right to left, starting from `start`. */
  function Carry(F: Sets, start: set<char>, s: string): set<char>
    decreases |s|
  {
    if s == [] then start else Step(Carry(F, start, s[1..]), FirstSet(F, s[0]))
  }

  /** The characters of a string, as a set. */
  function CharsOf(s: string): set<char> {
    set i | 0 <= i < |s| :: s[i]
  }

  /**
   * The follow sets after walking `s` from right to left: each symbol gets
   * the carry of what stands to its right added to its entry.
   */
  function WalkFrom(f: Sets, F: Sets, start: set<char>, s: string): (r: Sets)
    ensures Below(f, r)
    ensures r.Keys == f.Keys + CharsOf(s)
    decreases |s|
  {
    if s == [] then f
    else
      var g := WalkFrom(f, F, start, s[1..]);
      assert CharsOf(s) == CharsOf(s[1..]) + {s[0]} by {
        forall i | 0 <= i < |s[1..]|
          ensures s[1..][i] in CharsOf(s)
        {
          assert s[1..][i] == s[i + 1];
        }
        forall c | c in CharsOf(s)
          ensures c in CharsOf(s[1..]) + {s[0]}
        {
          var i :| 0 <= i < |s| && s[i] == c;
          if i > 0 {
            assert s[1..][i - 1] == c;
          }
        }
      }
      g[s[0] := SetAt(g, s[0]) + Carry(F, start, s[1..])]
  }

  /** The walk over one handle of `lhs`, whose carry starts from the follow set of `lhs`. */
  function Walk(f: Sets, F: Sets, lhs: char, h: string): Sets {
    WalkFrom(f, F, SetAt(f, lhs), h)
  }

  /** No handle of any production changes the follow sets any more. */
  ghost predicate FollowClosed(p: Rules, F: Sets, f: Sets) {
    forall x, h :: x in p && h in p[x] ==> Walk(f, F, x, h) == f
  }

  /** Every symbol of `s` has an entry holding the carry of what stands to its right. */
  ghost predicate Settled(f: Sets, F: Sets, start: set<char>, s: string) {
    forall i :: 0 <= i < |s| ==> s[i] in f && Carry(F, start, s[i + 1..]) <= f[s[i]]
  }

  lemma SettledCons(f: Sets, F: Sets, start: set<char>, s: string)
    requires s != []
    ensures Settled(f, F, start, s) <==>
      s[0] in f && Carry(F, start, s[1..]) <= f[s[0]] && Settled(f, F, start, s[1..])
  {
    if s[0] in f && Carry(F, start, s[1..]) <= f[s[0]] && Settled(f, F, start, s[1..]) {
      forall i | 0 <= i < |s|
        ensures s[i] in f && Carry(F, start, s[i + 1..]) <= f[s[i]]
      {
        if i > 0 {
          assert s[1..][i - 1] == s[i] && s[1..][i - 1 + 1..] == s[i + 1..];
        }
      }
    }
    if Settled(f, F, start, s) {
      forall i | 0 <= i < |s[1..]|
        ensures s[1..][i] in f && Carry(F, start, s[1..][i + 1..]) <= f[s[1..][i]]
      {
        assert s[1..][i] == s[i + 1] && s[1..][i + 1..] == s[i + 1 + 1..];
      }
    }
  }

  /**
   * A walk leaves the follow sets unchanged exactly when every symbol of
   * `s` already has an entry holding the carry of what stands to its right.
   */
  lemma {:induction false} WalkStableIff(f: Sets, F: Sets, start: set<char>, s: string)
    ensures WalkFrom(f, F, start, s) == f <==> Settled(f, F, start, s)
    decreases |s|
  {
    if s != [] {
      var g := WalkFrom(f, F, start, s[1..]);
      var c := Carry(F, start, s[1..]);
      WalkStableIff(f, F, start, s[1..]);
      SettledCons(f, F, start, s);
      if WalkFrom(f, F, start, s) == f {
        assert Below(g, f);
        BelowAntisymmetric(f, g);
        assert s[0] in f && c <= f[s[0]];
      }
      if Settled(f, F, start, s) {
        assert g == f;
        assert f[s[0]] + c == f[s[0]];
        assert f[s[0] := f[s[0]] + c] == f;
      }
    }
  }

  /** A larger starting carry gives a larger carry. */
  lemma {:induction false} CarryMonotone(F: Sets, a: set<char>, b: set<char>, s: string)
    requires a <= b
    ensures Carry(F, a, s) <= Carry(F, b, s)
    decreases |s|
  {
    if s != [] {
      CarryMonotone(F, a, b, s[1..]);
    }
  }

  /** Walking from larger follow sets with a larger starting carry gives larger follow sets. */
  lemma {:induction false} WalkMonotone(f: Sets, g: Sets, F: Sets, a: set<char>, b: set<char>, s: string)
    requires Below(f, g) && a <= b
    ensures Below(WalkFrom(f, F, a, s), WalkFrom(g, F, b, s))
    decreases |s|
  {
    if s != [] {
      WalkMonotone(f, g, F, a, b, s[1..]);
      CarryMonotone(F, a, b, s[1..]);
    }
  }

  /** Below follow sets that no handle changes, one more walk stays below them. */
  lemma WalkBelowClosed(p: Rules, F: Sets, f: Sets, m: Sets, x: char, h: string)
    requires FollowClosed(p, F, m) && Below(f, m) && x in p && h in p[x]
    ensures Below(Walk(f, F, x, h), m)
  {
    WalkMonotone(f, m, F, SetAt(f, x), SetAt(m, x), h);
  }

  /** The carry stays inside `v` when its start and the FIRST sets met do. */
  lemma {:induction false} CarryWithin(F: Sets, start: set<char>, s: string, v: set<char>)
    requires start <= v && forall i :: 0 <= i < |s| ==> FirstSet(F, s[i]) <= v
    ensures Carry(F, start, s) <= v
    decreases |s|
  {
    if s != [] {
      assert forall i :: 0 <= i < |s[1..]| ==> s[1..][i] == s[i + 1];
      CarryWithin(F, start, s[1..], v);
    }
  }

  /** The follow sets stay inside `v` under a walk whose carries stay inside `v`. */
  lemma {:induction false} WalkWithin(f: Sets, F: Sets, start: set<char>, s: string, v: set<char>)
    requires Within(f, v) && start <= v && forall i :: 0 <= i < |s| ==> FirstSet(F, s[i]) <= v
    ensures Within(WalkFrom(f, F, start, s), v)
    decreases |s|
  {
    if s != [] {
      assert forall i :: 0 <= i < |s[1..]| ==> s[1..][i] == s[i + 1];
      WalkWithin(f, F, start, s[1..], v);
      CarryWithin(F, start, s[1..], v);
    }
  }

  /** Walking `s` from position `i` is walking from `i + 1` and then meeting `s[i]`. */
  lemma WalkBack(f: Sets, F: Sets, start: set<char>, s: string, i: int)
    requires 0 <= i < |s|
    ensures WalkFrom(f, F, start, s[i..]) ==
      WalkFrom(f, F, start, s[i + 1..])[s[i] := SetAt(WalkFrom(f, F, start, s[i + 1..]), s[i]) + Carry(F, start, s[i + 1..])]
    ensures Carry(F, start, s[i..]) == Step(Carry(F, start, s[i + 1..]), FirstSet(F, s[i]))
  {
    assert s[i..][0] == s[i] && s[i..][1..] == s[i + 1..];
  }

  /** The follow sets have their keys in `keys` and their members in `v`. */
  ghost predicate Bounded(f: Sets, keys: set<char>, v: set<char>) {
    f.Keys <= keys && Within(f, v)
  }

  /**
   * One walk over a handle only adds to the follow sets, keeps them inside
   * the bounds, and keeps them below any follow sets that no handle changes.
   */
  lemma WalkStep(p: Rules, F: Sets, f: Sets, x: char, h: string, m: Sets, keys: set<char>, v: set<char>)
    requires x in p && h in p[x] && HandleChars(p) <= keys && HandleChars(p) <= v && Within(F, v)
    ensures Below(f, Walk(f, F, x, h))
    ensures Bounded(f, keys, v) ==> Bounded(Walk(f, F, x, h), keys, v)
    ensures FollowClosed(p, F, m) && Below(f, m) ==> Below(Walk(f, F, x, h), m)
  {
    forall i | 0 <= i < |h|
      ensures h[i] in HandleChars(p) && FirstSet(F, h[i]) <= v
    {
      assert h[i] in HandleChars(p);
    }
    if Bounded(f, keys, v) {
      WalkWithin(f, F, SetAt(f, x), h, v);
    }
    if FollowClosed(p, F, m) && Below(f, m) {
      WalkBelowClosed(p, F, f, m, x, h);
    }
  }

  // ---------------------------------------------------------------------
  // Grammar lines
  // ---------------------------------------------------------------------

  /** The characters of all strings of `ss`. */
  function CharsOfAll(ss: seq<string>): set<char> {
    if ss == [] then {} else CharsOfAll(ss[..|ss| - 1]) + CharsOf(ss[|ss| - 1])
  }

  /** Lines the loader can take: spaces are stripped and the head is not empty. */
  ghost predicate WellFormed(lines: seq<Line>) {
    forall k :: 0 <= k < |lines| ==> lines[k].head != [] && lines[k].head[0] != NoStart
  }

  /** The productions the lines add up to: each line's handles join those of its head's first character. */
  function RulesFrom(lines: seq<Line>): Rules
    requires forall k :: 0 <= k < |lines| ==> lines[k].head != []
  {
    if lines == [] then map[]
    else
      var p := RulesFrom(lines[..|lines| - 1]);
      var l := lines[|lines| - 1];
      p[l.head[0] := RulesOf(p, l.head[0]) + set h | h in l.handles]
  }

  /** Every character written on the lines, heads included. */
  function LinesChars(lines: seq<Line>): set<char> {
    if lines == [] then {}
    else
      var l := lines[|lines| - 1];
      LinesChars(lines[..|lines| - 1]) + CharsOfAll([l.head] + l.handles)
  }

  /** Each string's characters are among the characters of the sequence. */
  lemma {:induction false} CharsOfAllHas(ss: seq<string>, k: int)
    requires 0 <= k < |ss|
    ensures CharsOf(ss[k]) <= CharsOfAll(ss)
    decreases |ss|
  {
    if k < |ss| - 1 {
      assert ss[..|ss| - 1][k] == ss[k];
      CharsOfAllHas(ss[..|ss| - 1], k);
    }
  }

  lemma CharsOfPrefix(s: string, i: int)
    requires 0 <= i < |s|
    ensures CharsOf(s[..i + 1]) == CharsOf(s[..i]) + {s[i]}
  {
    assert forall j :: 0 <= j < i ==> s[..i + 1][j] == s[..i][j];
    assert s[..i + 1][i] == s[i];
  }

  // ---------------------------------------------------------------------
  // The grammar object
  // ---------------------------------------------------------------------

  class ContextFreeGrammar {
    var productions: Rules
    var firsts: Sets
    var follows: Sets
    var symbols: set<char>
    var nonTerminals: set<char>
    var terminals: set<char>
    var startingSymbol: char
    var ordering: Ordering
    var counter: int

    /** The non-terminals are the left-hand sides, and every production has its own number. */
    ghost predicate Valid()
      reads this`productions, this`nonTerminals, this`ordering, this`counter
    {
      counter >= 1 && nonTerminals == productions.Keys && OrderingValid(productions, ordering, counter)
    }

    /** The state of a grammar before its first line. */
    ghost predicate Empty()
      reads this
    {
      productions == map[] && firsts == map[] && follows == map[] && symbols == {} &&
      nonTerminals == {} && terminals == {} && startingSymbol == NoStart &&
      ordering == map[] && counter == 1
    }

    /** The terminals are exactly the symbols that are not non-terminals. */
    ghost predicate Classified()
      reads this`symbols, this`nonTerminals, this`terminals
    {
      nonTerminals <= symbols && terminals == symbols - nonTerminals
    }

    constructor ()
      ensures Empty() && Valid()
    {
      productions := map[];
      firsts := map[];
      follows := map[];
      symbols := {};
      nonTerminals := {};
      terminals := {};
      startingSymbol := NoStart;
      ordering := map[];
      counter := 1;
    }

    /**
     * Merges `handles` into the productions of `lhs`, makes `lhs` a
     * non-terminal, and gives each handle that is new for `lhs` the next
     * production number. Handles `lhs` already had keep their number.
     */
    method AddProduction(lhs: char, handles: set<string>) returns (added: bool)
      requires Valid()
      modifies this`productions, this`nonTerminals, this`ordering, this`counter
      ensures added && Valid()
      ensures productions == old(productions)[lhs := RulesOf(old(productions), lhs) + handles]
      ensures nonTerminals == old(nonTerminals) + {lhs}
      ensures counter == old(counter) + |handles - RulesOf(old(productions), lhs)|
      ensures NumberedNew(old(ordering), ordering, lhs, handles - RulesOf(old(productions), lhs), old(counter), counter)
    {
      var p, o, n := MergeRules(productions, ordering, counter, lhs, handles);
      var nt := nonTerminals + {lhs};
      assert nt == p.Keys;
      productions := p;
      nonTerminals := nt;
      ordering := o;
      counter := n;
      added := true;
    }

    /**
     * The same step as the source writes it: every handle of the merged set
     * is numbered and passed to a dictionary insertion that throws when the
     * handle is already a key, so the union with an earlier entry never takes
     * effect. The result is false exactly where that exception is raised.
     */
    method AddProductionAsWritten(lhs: char, handles: set<string>) returns (ok: bool)
      modifies this`productions, this`nonTerminals, this`ordering, this`counter
      ensures productions == old(productions)[lhs := RulesOf(old(productions), lhs) + handles]
      ensures nonTerminals == old(nonTerminals) + {lhs}
      ensures ok <==> forall h :: h in productions[lhs] ==> h !in old(ordering)
      ensures ok ==> forall h :: h in productions[lhs] ==> h in ordering
    {
      var merged := handles;
      if lhs in productions {
        merged := merged + productions[lhs];
        productions := productions - {lhs};
      }
      nonTerminals := nonTerminals + {lhs};
      assert merged == RulesOf(old(productions), lhs) + handles;
      productions := productions[lhs := merged];
      var rest := merged;
      while rest != {}
        invariant rest <= merged
        invariant productions == old(productions)[lhs := merged]
        invariant nonTerminals == old(nonTerminals) + {lhs}
        invariant ordering.Keys == old(ordering).Keys + (merged - rest)
        invariant forall h :: h in merged - rest ==> h !in old(ordering)
        decreases rest
      {
        var h :| h in rest;
        var numbered := SetAt(ordering, h) + {(lhs, counter)};
        counter := counter + 1;
        if h in ordering {
          return false;
        }
        ordering := ordering[h := numbered];
        rest := rest - {h};
      }
      return true;
    }

    /** The overload taking an array of handles: they are gathered into a set first. */
    method AddProductionArray(lhs: char, handles: seq<string>) returns (added: bool)
      requires Valid()
      modifies this`productions, this`nonTerminals, this`ordering, this`counter
      ensures added && Valid()
      ensures productions == old(productions)[lhs := RulesOf(old(productions), lhs) + set h | h in handles]
      ensures nonTerminals == old(nonTerminals) + {lhs}
    {
      var temp: set<string> := {};
      for i := 0 to |handles|
        invariant temp == set h | h in handles[..i]
      {
        assert handles[..i + 1] == handles[..i] + [handles[i]];
        temp := temp + {handles[i]};
      }
      assert handles[..|handles|] == handles;
      added := AddProduction(lhs, temp);
    }

    function IsNonTerminal(c: char): (r: bool)
      reads this`nonTerminals, this`productions, this`ordering, this`counter
      ensures Valid() ==> (r <==> c in productions)
    {
      c in nonTerminals
    }

    function IsTerminal(c: char): (r: bool)
      reads this`terminals, this`symbols, this`nonTerminals
      ensures Classified() ==> (r <==> c in symbols && c !in nonTerminals)
    {
      c in terminals
    }

    /**
     * The number recorded for the pair (lhs, handle), or -1 when there is
     * none; the pairs recorded for the handle are searched one by one.
     */
    method GetProductionNumber(lhs: char, handle: string) returns (n: int)
      requires Valid()
      ensures n == -1 <==> !Numbered(ordering, lhs, handle)
      ensures n != -1 ==> (lhs, n) in ordering[handle] && forall k :: (lhs, k) in ordering[handle] ==> k == n
      ensures n == ProductionNumber(ordering, lhs, handle)
    {
      if handle in ordering {
        var pairs := ordering[handle];
        while pairs != {}
          invariant pairs <= ordering[handle]
          invariant forall q :: q in ordering[handle] - pairs ==> q.0 != lhs
          decreases pairs
        {
          var q :| q in pairs;
          if q.0 == lhs {
            return q.1;
          }
          pairs := pairs - {q};
        }
        assert forall k :: (lhs, k) !in ordering[handle];
      }
      return -1;
    }

    /**
     * FIRST of `symbol`: itself when it is not a non-terminal; otherwise its
     * stored set united with what each of its handles contributes. A handle
     * starting with `symbol` is skipped. `path` holds the non-terminals whose
     * computation is still under way further up the recursion: reaching one
     * again recurses without end in the source, and gives no value here, as
     * does an empty handle, whose first character does not exist.
     */
    method First(symbol: char, path: set<char>) returns (r: Option<set<char>>)
      requires nonTerminals == productions.Keys
      ensures r == FirstOf(productions, firsts, path, symbol)
      decreases productions.Keys - path, 0
    {
      if symbol !in nonTerminals {
        return Some({symbol});
      }
      if symbol in path {
        return None;
      }
      var first := SetAt(firsts, symbol);
      var inner := path + {symbol};
      var rest := productions[symbol];
      while rest != {}
        invariant rest <= productions[symbol]
        invariant forall r :: r in productions[symbol] - rest ==> AltFirst(productions, firsts, inner, symbol, r).Some?
        invariant first == SetAt(firsts, symbol) + AltsUnion(productions, firsts, inner, symbol, productions[symbol] - rest)
        decreases rest
      {
        var rule :| rule in rest;
        if rule == [] {
          assert AltFirst(productions, firsts, inner, symbol, rule).None?;
          return None;
        }
        if rule[0] != symbol {
          var t := FirstOfHandle(rule, inner);
          if t.None? {
            assert AltFirst(productions, firsts, inner, symbol, rule).None?;
            return None;
          }
          first := first + t.value;
        }
        AltsUnionAdd(productions, firsts, inner, symbol, productions[symbol] - rest, rule);
        assert productions[symbol] - (rest - {rule}) == (productions[symbol] - rest) + {rule};
        rest := rest - {rule};
      }
      assert productions[symbol] - rest == productions[symbol];
      return Some(first);
    }

    /**
     * FIRST of the symbols of a handle in turn, left to right, stopping after
     * the first one whose FIRST lacks ε.
     */
    method FirstOfHandle(s: string, path: set<char>) returns (r: Option<set<char>>)
      requires nonTerminals == productions.Keys
      ensures r == FirstOfSeq(productions, firsts, path, s)
      decreases productions.Keys - path, 1
    {
      var first: set<char> := {};
      var i := 0;
      assert s[0..] == s;
      JoinEmpty(FirstOfSeq(productions, firsts, path, s));
      while i < |s|
        invariant 0 <= i <= |s|
        invariant FirstOfSeq(productions, firsts, path, s) == Join(Some(first), FirstOfSeq(productions, firsts, path, s[i..]))
      {
        assert s[i..][0] == s[i] && s[i..][1..] == s[i + 1..];
        var t := First(s[i], path);
        if t.None? {
          return None;
        }
        JoinAssociative(first, t.value, FirstOfSeq(productions, firsts, path, s[i + 1..]));
        first := first + t.value;
        if Epsilon !in t.value {
          return Some(first);
        }
        i := i + 1;
      }
      assert s[i..] == [];
      return Some(first);
    }

    /**
     * FIRST of a symbol as the FOLLOW computation asks for it: the stored
     * set when there is one, otherwise a fresh computation.
     */
    method GetFirstSet(symbol: char) returns (r: Option<set<char>>)
      requires nonTerminals == productions.Keys
      ensures symbol in firsts ==> r == Some(firsts[symbol])
      ensures productions.Keys <= firsts.Keys ==> r == Some(FirstSet(firsts, symbol))
      ensures FirstsClosed(productions, firsts) ==> r == FirstOf(productions, firsts, {}, symbol)
    {
      if symbol in firsts {
        return Some(firsts[symbol]);
      }
      r := First(symbol, {});
    }

    /**
     * One pass of the FIRST loop: every non-terminal, in turn, gets the FIRST
     * computed from the sets stored so far. The sets only grow; a pass that
     * changes nothing shows every non-terminal's set reproduced by its own
     * computation. No result when some computation has none.
     */
    method FirstPass() returns (ok: bool)
      requires nonTerminals == productions.Keys && firsts.Keys <= productions.Keys
      modifies this`firsts
      ensures ok ==> firsts.Keys == productions.Keys && Below(old(firsts), firsts)
      ensures ok && firsts == old(firsts) ==> FirstsClosed(productions, firsts)
      ensures Within(old(firsts), HandleChars(productions)) ==> Within(firsts, HandleChars(productions))
      ensures !ok ==> exists x :: x in productions && FirstOf(productions, firsts, {}, x).None?
    {
      ghost var f0 := firsts;
      ghost var u := HandleChars(productions);
      var rest := nonTerminals;
      while rest != {}
        invariant rest <= nonTerminals
        invariant firsts.Keys == f0.Keys + (nonTerminals - rest)
        invariant Below(f0, firsts)
        invariant Within(f0, u) ==> Within(firsts, u)
        invariant firsts == f0 ==> forall x :: x in nonTerminals - rest ==> FirstOf(productions, f0, {}, x) == Some(f0[x])
        decreases rest
      {
        var symbol :| symbol in rest;
        var t := First(symbol, {});
        if t.None? {
          return false;
        }
        FirstOfGrows(productions, firsts, symbol);
        if Within(firsts, u) {
          FirstOfWithin(productions, firsts, {}, symbol, u);
        }
        ghost var before := firsts;
        firsts := firsts[symbol := t.value];
        assert Below(before, firsts);
        BelowTransitive(f0, before, firsts);
        if firsts == f0 {
          BelowAntisymmetric(before, f0);
        }
        rest := rest - {symbol};
      }
      return true;
    }

    /**
     * The FIRST loop: passes repeat until one leaves the stored sets as they
     * were. The sets grow inside the non-terminals times the handle
     * characters, so the loop ends.
     */
    method ComputeFirsts() returns (ok: bool)
      requires nonTerminals == productions.Keys && firsts.Keys <= productions.Keys
      requires Within(firsts, HandleChars(productions))
      modifies this`firsts
      ensures ok ==> FirstsClosed(productions, firsts) && Below(old(firsts), firsts)
      ensures Within(firsts, HandleChars(productions))
      ensures !ok ==> exists x :: x in productions && FirstOf(productions, firsts, {}, x).None?
    {
      ghost var u := HandleChars(productions);
      var stable := false;
      while !stable
        invariant firsts.Keys <= productions.Keys && Within(firsts, u) && Below(old(firsts), firsts)
        invariant stable ==> FirstsClosed(productions, firsts)
        decreases productions.Keys - firsts.Keys, Missing(productions.Keys, u, firsts), if stable then 0 else 1
      {
        var temp := firsts;
        ok := FirstPass();
        if !ok {
          return;
        }
        BelowTransitive(old(firsts), temp, firsts);
        stable := CompareDicts(firsts, temp);
        if !stable && firsts.Keys == temp.Keys {
          MissingShrinks(productions.Keys, u, temp, firsts);
        }
      }
      ok := true;
    }

    /**
     * The walk over one handle of `lhs`, right to left: each symbol's follow
     * set (taken out of the map and put back) gains the carry, which starts
     * as the follow set of `lhs` and then absorbs, or is replaced by, the
     * symbol's FIRST.
     */
    method FollowHandle(lhs: char, handle: string)
      requires nonTerminals == productions.Keys && productions.Keys <= firsts.Keys
      modifies this`follows
      ensures follows == Walk(old(follows), firsts, lhs, handle)
    {
      ghost var f0 := follows;
      var carry: set<char> := {};
      if lhs in follows {
        carry := carry + follows[lhs];
      }
      ghost var start := carry;
      assert start == SetAt(f0, lhs);
      var i := |handle|;
      while i > 0
        invariant 0 <= i <= |handle|
        invariant follows == WalkFrom(f0, firsts, start, handle[i..])
        invariant carry == Carry(firsts, start, handle[i..])
      {
        i := i - 1;
        var symbol := handle[i];
        var tempSet: set<char> := {};
        if symbol in follows {
          tempSet := follows[symbol];
        }
        tempSet := tempSet + carry;
        var fs := GetFirstSet(symbol);
        WalkBack(f0, firsts, start, handle, i);
        follows := follows[symbol := tempSet];
        if Epsilon in fs.value {
          carry := carry + fs.value;
          carry := carry - {Epsilon};
        } else {
          carry := fs.value;
        }
      }
      assert handle[0..] == handle;
    }

    /** The walks over every handle of `lhs`, in turn. */
    method FollowRules(lhs: char, ghost m: Sets, ghost keys: set<char>, ghost v: set<char>)
      requires nonTerminals == productions.Keys && productions.Keys <= firsts.Keys && lhs in productions
      requires HandleChars(productions) <= keys && HandleChars(productions) <= v && Within(firsts, v)
      modifies this`follows
      ensures Below(old(follows), follows)
      ensures follows == old(follows) ==> forall h :: h in productions[lhs] ==> Walk(follows, firsts, lhs, h) == follows
      ensures Bounded(old(follows), keys, v) ==> Bounded(follows, keys, v)
      ensures FollowClosed(productions, firsts, m) && Below(old(follows), m) ==> Below(follows, m)
    {
      ghost var f0 := follows;
      var rest := productions[lhs];
      while rest != {}
        invariant rest <= productions[lhs]
        invariant Below(f0, follows)
        invariant follows == f0 ==> forall h :: h in productions[lhs] - rest ==> Walk(f0, firsts, lhs, h) == f0
        invariant Bounded(f0, keys, v) ==> Bounded(follows, keys, v)
        invariant FollowClosed(productions, firsts, m) && Below(f0, m) ==> Below(follows, m)
        decreases rest
      {
        var handle :| handle in rest;
        ghost var before := follows;
        WalkStep(productions, firsts, follows, lhs, handle, m, keys, v);
        FollowHandle(lhs, handle);
        BelowTransitive(f0, before, follows);
        if follows == f0 {
          BelowAntisymmetric(before, f0);
        }
        rest := rest - {handle};
      }
    }

    /** One pass of the FOLLOW loop: the walks over every handle of every production. */
    method FollowPass(ghost m: Sets, ghost keys: set<char>, ghost v: set<char>)
      requires nonTerminals == productions.Keys && productions.Keys <= firsts.Keys
      requires HandleChars(productions) <= keys && HandleChars(productions) <= v && Within(firsts, v)
      modifies this`follows
      ensures Below(old(follows), follows)
      ensures follows == old(follows) ==> FollowClosed(productions, firsts, follows)
      ensures Bounded(old(follows), keys, v) ==> Bounded(follows, keys, v)
      ensures FollowClosed(productions, firsts, m) && Below(old(follows), m) ==> Below(follows, m)
    {
      ghost var f0 := follows;
      var rest := productions.Keys;
      while rest != {}
        invariant rest <= productions.Keys
        invariant Below(f0, follows)
        invariant follows == f0 ==> forall x, h :: x in productions.Keys - rest && h in productions[x] ==> Walk(f0, firsts, x, h) == f0
        invariant Bounded(f0, keys, v) ==> Bounded(follows, keys, v)
        invariant FollowClosed(productions, firsts, m) && Below(f0, m) ==> Below(follows, m)
        decreases rest
      {
        var lhs :| lhs in rest;
        ghost var before := follows;
        FollowRules(lhs, m, keys, v);
        BelowTransitive(f0, before, follows);
        if follows == f0 {
          BelowAntisymmetric(before, f0);
        }
        rest := rest - {lhs};
      }
    }

    /**
     * The FOLLOW loop: the end marker goes into the follow set of the
     * starting symbol, then passes repeat until one changes nothing. The
     * result is closed, holds the seed, and lies below every closed family
     * of follow sets holding the seed: it is the least one.
     */
    method ComputeFollows(ghost m: Sets)
      requires nonTerminals == productions.Keys && productions.Keys <= firsts.Keys
      requires Within(firsts, HandleChars(productions)) && startingSymbol !in follows
      modifies this`follows
      ensures FollowClosed(productions, firsts, follows)
      ensures startingSymbol in follows && EndMarker in follows[startingSymbol]
      ensures Below(old(follows)[startingSymbol := {EndMarker}], follows)
      ensures FollowClosed(productions, firsts, m) && Below(old(follows)[startingSymbol := {EndMarker}], m) ==> Below(follows, m)
    {
      ghost var keys := follows.Keys + HandleChars(productions) + {startingSymbol};
      ghost var v := HandleChars(productions) + {EndMarker} + (set k, c | k in follows && c in follows[k] :: c);
      follows := follows[startingSymbol := {EndMarker}];
      ghost var seed := follows;
      var stable := false;
      while !stable
        invariant Below(seed, follows) && Bounded(follows, keys, v)
        invariant FollowClosed(productions, firsts, m) && Below(seed, m) ==> Below(follows, m)
        invariant stable ==> FollowClosed(productions, firsts, follows)
        decreases keys - follows.Keys, Missing(keys, v, follows), if stable then 0 else 1
      {
        var temp := follows;
        FollowPass(m, keys, v);
        BelowTransitive(seed, temp, follows);
        stable := CompareDicts(follows, temp);
        if !stable && follows.Keys == temp.Keys {
          MissingShrinks(keys, v, temp, follows);
        }
      }
    }

    /**
     * Sorts the symbols: all symbols become terminals, the non-terminals are
     * added to the symbols, and then taken out of the terminals.
     */
    method Classify()
      modifies this`terminals, this`symbols
      ensures terminals == (old(terminals) + old(symbols)) - nonTerminals
      ensures symbols == old(symbols) + nonTerminals
      ensures old(terminals) <= old(symbols) ==> Classified()
    {
      terminals := terminals + symbols;
      symbols := symbols + nonTerminals;
      terminals := terminals - nonTerminals;
    }

    /** Adds every character of every component of a line to the symbols. */
    method AddSymbols(components: seq<string>)
      modifies this`symbols
      ensures symbols == old(symbols) + CharsOfAll(components)
    {
      for k := 0 to |components|
        invariant symbols == old(symbols) + CharsOfAll(components[..k])
      {
        var str := components[k];
        for i := 0 to |str|
          invariant symbols == old(symbols) + CharsOfAll(components[..k]) + CharsOf(str[..i])
        {
          CharsOfPrefix(str, i);
          symbols := symbols + {str[i]};
        }
        assert str[..|str|] == str;
        assert components[..k + 1][..k] == components[..k];
      }
      assert components[..|components|] == components;
    }

    /**
     * One grammar line: the first head character becomes the starting
     * symbol if there is none yet, every character of the line becomes a
     * symbol, and the alternatives are added for the first head character.
     */
    method AddLine(line: Line)
      requires Valid() && line.head != [] && line.head[0] != NoStart
      modifies this`startingSymbol, this`symbols, this`productions, this`nonTerminals, this`ordering, this`counter
      ensures Valid()
      ensures startingSymbol == if old(startingSymbol) == NoStart then line.head[0] else old(startingSymbol)
      ensures symbols == old(symbols) + CharsOfAll([line.head] + line.handles)
      ensures productions == old(productions)[line.head[0] := RulesOf(old(productions), line.head[0]) + set h | h in line.handles]
      ensures nonTerminals == old(nonTerminals) + {line.head[0]}
      ensures line.head[0] in symbols
    {
      startingSymbol := if startingSymbol == NoStart then line.head[0] else startingSymbol;
      CharsOfAllHas([line.head] + line.handles, 0);
      assert line.head[0] in CharsOf(line.head);
      AddSymbols([line.head] + line.handles);
      var added := AddProductionArray(line.head[0], line.handles);
    }

    /** The line loop of the loading constructor. */
    method AddLines(lines: seq<Line>)
      requires Empty() && WellFormed(lines)
      modifies this`startingSymbol, this`symbols, this`productions, this`nonTerminals, this`ordering, this`counter
      ensures Valid()
      ensures productions == RulesFrom(lines)
      ensures symbols == LinesChars(lines)
      ensures startingSymbol == if lines == [] then NoStart else lines[0].head[0]
      ensures nonTerminals <= symbols
    {
      for k := 0 to |lines|
        invariant Valid() && nonTerminals <= symbols
        invariant productions == RulesFrom(lines[..k])
        invariant symbols == LinesChars(lines[..k])
        invariant startingSymbol == if k == 0 then NoStart else lines[0].head[0]
      {
        assert lines[..k + 1][..k] == lines[..k];
        AddLine(lines[k]);
      }
      assert lines[..|lines|] == lines;
    }

    /**
     * The two set computations of the loading constructor: the FIRST loop
     * and then the FOLLOW loop. The result is false when some FIRST
     * computation has no value, where the source recurses without end or
     * throws. The FOLLOW sets are the least closed family holding the seed:
     * they lie below any such family `m`.
     */
    method ComputeSets(ghost m: Sets) returns (ok: bool)
      requires nonTerminals == productions.Keys && firsts == map[] && follows == map[]
      modifies this`firsts, this`follows
      ensures ok ==> FirstsClosed(productions, firsts) && FollowClosed(productions, firsts, follows)
      ensures ok ==> startingSymbol in follows && EndMarker in follows[startingSymbol]
      ensures ok && FollowClosed(productions, firsts, m) && Below(map[startingSymbol := {EndMarker}], m) ==> Below(follows, m)
      ensures !ok ==> exists x :: x in productions && FirstOf(productions, firsts, {}, x).None?
    {
      ok := ComputeFirsts();
      if ok {
        ComputeFollows(m);
      }
    }

    /**
     * What the printing-only LeftFactor run at the end of loading decides:
     * it reads the first handle of every left-hand side, which throws when a
     * left-hand side has none (a head written without any handle).
     */
    method LeftFactorCompletes() returns (ok: bool)
      ensures ok <==> forall x :: x in productions ==> productions[x] != {}
    {
      var keys := productions.Keys;
      while keys != {}
        invariant keys <= productions.Keys
        invariant forall x :: x in productions.Keys - keys ==> productions[x] != {}
        decreases keys
      {
        var x :| x in keys;
        if productions[x] == {} {
          return false;
        }
        keys := keys - {x};
      }
      return true;
    }

    /**
     * The loading constructor after the file is read and split into lines.
     * It fails where the source recurses without end or throws: in a FIRST
     * computation, or in the closing LeftFactor on a left-hand side without
     * handles.
     */
    method Load(lines: seq<Line>, ghost m: Sets) returns (ok: bool)
      requires Empty() && WellFormed(lines)
      modifies this
      ensures Valid() && Classified()
      ensures productions == RulesFrom(lines)
      ensures symbols == LinesChars(lines)
      ensures startingSymbol == if lines == [] then NoStart else lines[0].head[0]
      ensures ok ==> FirstsClosed(productions, firsts) && FollowClosed(productions, firsts, follows)
      ensures ok ==> startingSymbol in follows && EndMarker in follows[startingSymbol]
      ensures ok && FollowClosed(productions, firsts, m) && Below(map[startingSymbol := {EndMarker}], m) ==> Below(follows, m)
      ensures ok ==> forall x :: x in productions ==> productions[x] != {}
      ensures !ok ==>
        || (exists x :: x in productions && FirstOf(productions, firsts, {}, x).None?)
        || (exists x :: x in productions && productions[x] == {})
    {
      AddLines(lines);
      Classify();
      ok := ComputeSets(m);
      if ok {
        ok := LeftFactorCompletes();
      }
    }
  }

  /** As written, a second line for the same left-hand side throws: its old handle is inserted again. */
  method AsWrittenSecondLineThrows() returns (ok: bool)
    ensures !ok
  {
    var g := new ContextFreeGrammar();
    var first := g.AddProductionAsWritten('S', {"a"});
    assert "a" in g.ordering;
    ok := g.AddProductionAsWritten('S', {"b"});
  }

  /** The state after the line S -> a: one production, numbered 1. */
  method OneLine() returns (p: Rules, o: Ordering, n: int)
    ensures p == map['S' := {"a"}] && n == 2 && OrderingValid(p, o, n) && "b" !in o
  {
    p, o, n := MergeRules(map[], map[], 1, 'S', {"a"});
    assert {"a"} - RulesOf(map[], 'S') == {"a"};
  }

  /** Corrected, a second line for S gives its new handle the next number, 2. */
  method CorrectedSecondLine() returns (o: Ordering)
    ensures "b" in o && o["b"] == {('S', 2)}
  {
    var p, n;
    p, o, n := OneLine();
    p, o, n := MergeRules(p, o, n, 'S', {"b"});
    assert {"b"} - RulesOf(map['S' := {"a"}], 'S') == {"b"};
  }


}
