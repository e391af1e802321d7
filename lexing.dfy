/**
 * Marker-based lexing of a handle. A recognised symbol occurrence is wrapped
 * as OPEN symbol CLOSE; a scan tracks whether it is inside such a bracket and
 * only matches at positions outside one.
 */
module Lexing {

  const Open: char := '\U{02C1}'
  const Close: char := '\U{02C0}'

  predicate IsMarker(c: char) {
    c == Open || c == Close
  }

  predicate MarkerFree(s: string) {
    forall k :: 0 <= k < |s| ==> !IsMarker(s[k])
  }

  /** One step of the scan: inside a bracket until CLOSE, outside until OPEN. */
  function Step(inside: bool, c: char): bool {
    if inside then c != Close else c == Open
  }

  /** Whether the scan is inside a bracket after reading `s` from state `inside`. */
  function End(inside: bool, s: string): bool
    decreases |s|
  {
    if s == [] then inside else End(Step(inside, s[0]), s[1..])
  }

  /** Number of positions of `s` the scan would try to match at, starting in state `inside`. */
  function Candidates(inside: bool, s: string): nat
    decreases |s|
  {
    if s == [] then 0
    else (if !inside && s[0] != Open then 1 else 0) + Candidates(Step(inside, s[0]), s[1..])
  }

  /** `sub` occurs at `i` of `s`, and position `i` is outside every bracket and not itself an OPEN. */
  predicate MatchAt(s: string, sub: string, i: int) {
    && 0 <= i < |s| && i + |sub| <= |s|
    && !End(false, s[..i]) && s[i] != Open
    && s[i..i + |sub|] == sub
  }

  /** The text with all markers deleted. */
  function RemoveMarkers(s: string): (r: string)
    ensures MarkerFree(r)
    ensures |r| <= |s|
    ensures MarkerFree(s) ==> r == s
    decreases |s|
  {
    if s == [] then []
    else if IsMarker(s[0]) then RemoveMarkers(s[1..])
    else [s[0]] + RemoveMarkers(s[1..])
  }

  function Concat(tokens: seq<string>): string {
    if tokens == [] then [] else tokens[0] + Concat(tokens[1..])
  }

  /** Splitting at either marker, with empty entries removed; `pending` is the token read so far. */
  function SplitFrom(s: string, pending: string): seq<string>
    decreases |s|
  {
    if s == [] then
      if pending == [] then [] else [pending]
    else if IsMarker(s[0]) then
      var rest := SplitFrom(s[1..], []);
      if pending == [] then rest else [pending] + rest
    else
      SplitFrom(s[1..], pending + [s[0]])
  }

  /** String.Split on both markers with StringSplitOptions.RemoveEmptyEntries. */
  function Split(s: string): (tokens: seq<string>)
    ensures Concat(tokens) == RemoveMarkers(s)
    ensures forall k :: 0 <= k < |tokens| ==> tokens[k] != [] && MarkerFree(tokens[k])
  {
    SplitSpelling(s, []);
    SplitTokens(s, []);
    SplitFrom(s, [])
  }

  lemma ConcatCons(t: string, rest: seq<string>)
    ensures Concat([t] + rest) == t + Concat(rest)
  {
    assert ([t] + rest)[1..] == rest;
  }

  /** The tokens spell the pending text followed by the input without its markers. */
  lemma {:induction false} SplitSpelling(s: string, pending: string)
    ensures Concat(SplitFrom(s, pending)) == pending + RemoveMarkers(s)
    decreases |s|
  {
    if s == [] {
      if pending != [] {
        ConcatCons(pending, []);
      }
    } else if IsMarker(s[0]) {
      var rest := SplitFrom(s[1..], []);
      SplitSpelling(s[1..], []);
      assert RemoveMarkers(s) == RemoveMarkers(s[1..]);
      if pending != [] {
        assert SplitFrom(s, pending) == [pending] + rest;
        ConcatCons(pending, rest);
      }
    } else {
      var next := pending + [s[0]];
      SplitSpelling(s[1..], next);
      assert SplitFrom(s, pending) == SplitFrom(s[1..], next);
      SpellingShift(pending, s[0], RemoveMarkers(s[1..]));
    }
  }

  lemma SpellingShift(pending: string, c: char, r: string)
    ensures pending + ([c] + r) == (pending + [c]) + r
  {
  }

  /** From a marker-free pending text, every token is nonempty and marker-free. */
  lemma {:induction false} SplitTokens(s: string, pending: string)
    requires MarkerFree(pending)
    ensures forall k :: 0 <= k < |SplitFrom(s, pending)| ==>
      SplitFrom(s, pending)[k] != [] && MarkerFree(SplitFrom(s, pending)[k])
    decreases |s|
  {
    if s != [] {
      if IsMarker(s[0]) {
        SplitTokens(s[1..], []);
      } else {
        assert MarkerFree(pending + [s[0]]) by {
          forall k | 0 <= k < |pending| + 1 ensures !IsMarker((pending + [s[0]])[k]) {
            if k < |pending| {
              assert (pending + [s[0]])[k] == pending[k];
            }
          }
        }
        SplitTokens(s[1..], pending + [s[0]]);
      }
    }
  }

  lemma {:induction false} EndAppend(inside: bool, a: string, b: string)
    ensures End(inside, a + b) == End(End(inside, a), b)
    decreases |a|
  {
    if a != [] {
      assert (a + b)[1..] == a[1..] + b;
      EndAppend(Step(inside, a[0]), a[1..], b);
    } else {
      assert a + b == b;
    }
  }

  lemma {:induction false} CandidatesAppend(inside: bool, a: string, b: string)
    ensures Candidates(inside, a + b) == Candidates(inside, a) + Candidates(End(inside, a), b)
    decreases |a|
  {
    if a != [] {
      assert (a + b)[1..] == a[1..] + b;
      CandidatesAppend(Step(inside, a[0]), a[1..], b);
    } else {
      assert a + b == b;
    }
  }

  /** The scan state at position i + 1 is one step on from the state at i. */
  lemma EndStep(s: string, i: int)
    requires 0 <= i < |s|
    ensures End(false, s[..i + 1]) == Step(End(false, s[..i]), s[i])
  {
    assert s[..i + 1] == s[..i] + [s[i]];
    EndAppend(false, s[..i], [s[i]]);
  }

  /** A marker-free text leaves the scan state alone; outside a bracket every position is a candidate. */
  lemma {:induction false} MarkerFreeScan(inside: bool, s: string)
    requires MarkerFree(s)
    ensures End(inside, s) == inside
    ensures Candidates(inside, s) == if inside then 0 else |s|
    decreases |s|
  {
    if s != [] {
      MarkerFreeScan(inside, s[1..]);
    }
  }

  /** How a scan from outside every bracket splits over a three-part text. */
  lemma ScanThree(a: string, x: string, b: string)
    ensures Candidates(false, a + x + b)
      == Candidates(false, a) + Candidates(End(false, a), x) + Candidates(End(End(false, a), x), b)
    ensures RemoveMarkers(a + x + b) == RemoveMarkers(a) + RemoveMarkers(x) + RemoveMarkers(b)
  {
    CandidatesAppend(false, a + x, b);
    CandidatesAppend(false, a, x);
    EndAppend(false, a, x);
    RemoveMarkersAppend(a + x, b);
    RemoveMarkersAppend(a, x);
  }

  /** A bracketed marker-free text is read with no candidates and leaves the scan outside. */
  lemma BracketScan(sub: string)
    requires MarkerFree(sub)
    ensures Candidates(false, [Open] + sub + [Close]) == 0
    ensures End(false, [Open] + sub + [Close]) == false
    ensures RemoveMarkers([Open] + sub + [Close]) == sub
  {
    var m := [Open] + sub + [Close];
    assert m == [Open] + (sub + [Close]);
    assert m[1..] == sub + [Close];
    MarkerFreeScan(true, sub);
    CandidatesAppend(true, sub, [Close]);
    EndAppend(true, sub, [Close]);
    RemoveMarkersAppend(sub, [Close]);
  }

  /** Bracketing the text at a match removes exactly |sub| candidate positions and keeps the text. */
  lemma MarkShrinksCandidates(s: string, sub: string, i: int)
    requires MarkerFree(sub)
    requires MatchAt(s, sub, i)
    ensures Candidates(false, Mark(s, i, |sub|)) == Candidates(false, s) - |sub|
    ensures RemoveMarkers(Mark(s, i, |sub|)) == RemoveMarkers(s)
  {
    var a, b := s[..i], s[i + |sub|..];
    var m := [Open] + sub + [Close];
    assert s == a + sub + b;
    assert Mark(s, i, |sub|) == a + m + b;
    ScanThree(a, sub, b);
    ScanThree(a, m, b);
    MarkerFreeScan(false, sub);
    BracketScan(sub);
  }

  lemma {:induction false} RemoveMarkersAppend(a: string, b: string)
    ensures RemoveMarkers(a + b) == RemoveMarkers(a) + RemoveMarkers(b)
    decreases |a|
  {
    if a != [] {
      assert (a + b)[1..] == a[1..] + b;
      RemoveMarkersAppend(a[1..], b);
    } else {
      assert a + b == b;
    }
  }

  /** StringBuilder.Insert of CLOSE after the match and then of OPEN before it. */
  function Mark(s: string, i: int, len: int): (r: string)
    requires 0 <= i && i + len <= |s| && 0 <= len
    ensures |r| == |s| + 2
  {
    var afterClose := s[..i + len] + [Close] + s[i + len..];
    afterClose[..i] + [Open] + afterClose[i..]
  }

  /**
   * The last position at which `sub` occurs outside every bracket, or -1.
   * An empty `sub` makes the scan read one past the end of `str`.
   */
  method IndexOfUnmarked(str: string, sub: string) returns (index: int)
    requires |sub| > 0
    ensures index == -1 <==> forall i :: 0 <= i <= |str| - |sub| ==> !MatchAt(str, sub, i)
    ensures index != -1 ==> MatchAt(str, sub, index)
    ensures index != -1 ==> forall i :: index < i <= |str| - |sub| ==> !MatchAt(str, sub, i)
  {
    index := -1;
    var inside := false;
    var i := 0;
    while i <= |str| - |sub|
      invariant 0 <= i <= |str| - |sub| + 1 || (i == 0 && |str| < |sub|)
      invariant inside == End(false, str[..i])
      invariant index == -1 <==> forall j :: 0 <= j < i ==> !MatchAt(str, sub, j)
      invariant index != -1 ==> 0 <= index < i && MatchAt(str, sub, index)
      invariant index != -1 ==> forall j :: index < j < i ==> !MatchAt(str, sub, j)
    {
      EndStep(str, i);
      assert MatchAt(str, sub, i) <==> !inside && str[i] != Open && str[i..i + |sub|] == sub;
      if inside {
        if str[i] == Close {
          inside := false;
        }
      } else if str[i] == Open {
        inside := true;
      } else if str[i..i + |sub|] == sub {
        index := i;
      }
      i := i + 1;
    }
  }
}
