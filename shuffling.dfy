/** The steps both drivers share: pick one edge out of every letter but the final one, take
    the picked edges out, shuffle the lists, and put the picked edges back at the ends. */
module Shuffling {
  import opened Outcomes
  import opened Edges
  import opened Bags
  import opened Traversal
  import opened Euler
  import opened Connectivity

  /** `Pattern.matches("^[ACGT]{min,}$", s)`: at least min letters, all nucleotides. */
  function MatchesNucleotides(s: seq<char>, min: nat): (r: bool)
    ensures r <==> |s| >= min && forall i :: 0 <= i < |s| ==> IsNucleotide(s[i])
  {
    if s == [] then min == 0
    else IsNucleotide(s[0]) && MatchesNucleotides(s[1..], if min > 0 then min - 1 else 0)
  }

  /** The graph of a sequence: no empty list, every edge under its start, every edge ending at
      a letter with a list or at the final letter. */
  predicate GraphShape(m: map<char, seq<Edge>>, end: char) {
    (forall c :: c in m ==> m[c] != []) &&
    WellKeyed(m) &&
    (forall c, e :: c in m && e in m[c] ==> e.end in m || e.end == end)
  }

  lemma BuiltShape(s: seq<char>)
    requires |s| >= 1
    ensures GraphShape(BuildEdgeMap(s), s[|s| - 1])
  {
    BuildEdgeMapShape(s);
  }

  function PickStarts(picks: seq<Edge>): set<char> {
    set j | 0 <= j < |picks| :: picks[j].start
  }

  lemma PickStartsSnoc(picks: seq<Edge>, e: Edge)
    ensures PickStarts(picks + [e]) == PickStarts(picks) + {e.start}
  {
    var p := picks + [e];
    assert p[|picks|] == e;
    assert forall j :: 0 <= j < |picks| ==> p[j] == picks[j];
  }

  /** A valid pick: one edge taken from the list of each letter other than end. */
  predicate PickedFrom(m: map<char, seq<Edge>>, end: char, picks: seq<Edge>) {
    (forall j :: 0 <= j < |picks| ==> picks[j].start in m && picks[j] in m[picks[j].start]) &&
    (forall i, j :: 0 <= i < j < |picks| ==> picks[i].start != picks[j].start) &&
    PickStarts(picks) == m.Keys - {end}
  }

  /** m1 is m0 with the first copy of each pick taken from its start's list. */
  predicate RemovedPicks(m0: map<char, seq<Edge>>, m1: map<char, seq<Edge>>, picks: seq<Edge>) {
    m1.Keys == m0.Keys &&
    (forall j :: 0 <= j < |picks| ==> picks[j].start in m0 && m1[picks[j].start] == RemoveFirst(m0[picks[j].start], picks[j])) &&
    (forall c :: c in m0 && c !in PickStarts(picks) ==> m1[c] == m0[c])
  }

  /** m1 holds the same lists as m0 up to order. */
  predicate SameBags(m0: map<char, seq<Edge>>, m1: map<char, seq<Edge>>) {
    m1.Keys == m0.Keys && forall c :: c in m0 ==> multiset(m1[c]) == multiset(m0[c])
  }

  /** m1 is m0 with each pick appended to its start's list. */
  predicate AppendedPicks(m0: map<char, seq<Edge>>, m1: map<char, seq<Edge>>, picks: seq<Edge>) {
    m1.Keys == m0.Keys &&
    (forall j :: 0 <= j < |picks| ==> picks[j].start in m0 && m1[picks[j].start] == m0[picks[j].start] + [picks[j]]) &&
    (forall c :: c in m0 && c !in PickStarts(picks) ==> m1[c] == m0[c])
  }

  /** The state the three steps reach: the same lists up to order, with each pick last. */
  predicate Reshuffled(m0: map<char, seq<Edge>>, m: map<char, seq<Edge>>, picks: seq<Edge>) {
    SameBags(m0, m) &&
    forall j :: 0 <= j < |picks| ==> picks[j].start in m && m[picks[j].start] != [] && Last(m[picks[j].start]) == picks[j]
  }

  /** `for (char start : traverse.alphabet()) if (start != traverse.end) edges.add(jumps.get(random))`:
      the letters in an arbitrary order, and an arbitrary edge of each. */
  method RandomPicks(t: Traverse) returns (picks: seq<Edge>)
    requires forall c :: c in t.edgeMap ==> t.edgeMap[c] != []
    requires WellKeyed(t.edgeMap)
    ensures PickedFrom(t.edgeMap, t.end, picks)
  {
    picks := [];
    var todo := t.Alphabet();
    ghost var done: set<char> := {};
    while todo != {}
      invariant todo + done == t.edgeMap.Keys && todo !! done
      invariant forall j :: 0 <= j < |picks| ==> picks[j].start in t.edgeMap && picks[j] in t.edgeMap[picks[j].start]
      invariant forall i, j :: 0 <= i < j < |picks| ==> picks[i].start != picks[j].start
      invariant PickStarts(picks) == done - {t.end}
      decreases todo
    {
      var start :| start in todo;
      if start != t.end {
        var jumps := t.GetEdgeList(start);
        var k :| 0 <= k < |jumps|;
        assert jumps[k] in t.edgeMap[start];
        PickStartsSnoc(picks, jumps[k]);
        picks := picks + [jumps[k]];
      }
      todo := todo - {start};
      done := done + {start};
    }
  }

  /** The picks start at distinct letters, each with a list. */
  predicate DistinctStarts(m: map<char, seq<Edge>>, picks: seq<Edge>) {
    (forall j :: 0 <= j < |picks| ==> picks[j].start in m) &&
    (forall i, j :: 0 <= i < j < |picks| ==> picks[i].start != picks[j].start)
  }

  /** The removal loop's invariant: the first i picks are removed, no other list changed. */
  predicate RemovedUpTo(m0: map<char, seq<Edge>>, m: map<char, seq<Edge>>, picks: seq<Edge>, i: nat)
    requires i <= |picks| && DistinctStarts(m0, picks)
  {
    m.Keys == m0.Keys &&
    (forall j :: 0 <= j < i ==> m[picks[j].start] == RemoveFirst(m0[picks[j].start], picks[j])) &&
    (forall c :: c in m0 && c !in PickStarts(picks[..i]) ==> m[c] == m0[c])
  }

  /** The append loop's invariant: the first i picks are appended, no other list changed. */
  predicate AppendedUpTo(m0: map<char, seq<Edge>>, m: map<char, seq<Edge>>, picks: seq<Edge>, i: nat)
    requires i <= |picks| && DistinctStarts(m0, picks)
  {
    m.Keys == m0.Keys &&
    (forall j :: 0 <= j < i ==> m[picks[j].start] == m0[picks[j].start] + [picks[j]]) &&
    (forall c :: c in m0 && c !in PickStarts(picks[..i]) ==> m[c] == m0[c])
  }

  /** Pick i starts at a letter none of the picks before it starts at. */
  lemma PickStartsPrefix(m0: map<char, seq<Edge>>, picks: seq<Edge>, i: nat)
    requires i < |picks| && DistinctStarts(m0, picks)
    ensures picks[i].start !in PickStarts(picks[..i])
    ensures PickStarts(picks[..i + 1]) == PickStarts(picks[..i]) + {picks[i].start}
  {
    assert picks[..i + 1] == picks[..i] + [picks[i]];
    PickStartsSnoc(picks[..i], picks[i]);
  }

  /** The list of pick i is still untouched before step i, and the step extends the invariant. */
  lemma RemovedStep(m0: map<char, seq<Edge>>, m: map<char, seq<Edge>>, picks: seq<Edge>, i: nat)
    requires i < |picks| && DistinctStarts(m0, picks) && RemovedUpTo(m0, m, picks, i)
    ensures picks[i].start in m && m[picks[i].start] == m0[picks[i].start]
    ensures RemovedUpTo(m0, m[picks[i].start := RemoveFirst(m[picks[i].start], picks[i])], picks, i + 1)
  {
    PickStartsPrefix(m0, picks, i);
  }

  lemma AppendedStep(m0: map<char, seq<Edge>>, m: map<char, seq<Edge>>, picks: seq<Edge>, i: nat)
    requires i < |picks| && DistinctStarts(m0, picks) && AppendedUpTo(m0, m, picks, i)
    ensures picks[i].start in m && m[picks[i].start] == m0[picks[i].start]
    ensures AppendedUpTo(m0, m[picks[i].start := m[picks[i].start] + [picks[i]]], picks, i + 1)
  {
    PickStartsPrefix(m0, picks, i);
  }

  lemma RemovedAll(m0: map<char, seq<Edge>>, m: map<char, seq<Edge>>, picks: seq<Edge>)
    requires DistinctStarts(m0, picks) && RemovedUpTo(m0, m, picks, |picks|)
    ensures RemovedPicks(m0, m, picks)
  {
    assert picks[..|picks|] == picks;
  }

  lemma AppendedAll(m0: map<char, seq<Edge>>, m: map<char, seq<Edge>>, picks: seq<Edge>)
    requires DistinctStarts(m0, picks) && AppendedUpTo(m0, m, picks, |picks|)
    ensures AppendedPicks(m0, m, picks)
  {
    assert picks[..|picks|] == picks;
  }

  /** The removal loop: `removeEdge` for every pick, stopping at the first that fails. On a valid
      pick none fails. */
  method RemovePicks(t: Traverse, picks: seq<Edge>) returns (ok: bool)
    requires PickedFrom(t.edgeMap, t.end, picks)
    modifies t`edgeMap
    ensures ok
    ensures RemovedPicks(old(t.edgeMap), t.edgeMap, picks)
  {
    ghost var m0 := t.edgeMap;
    assert DistinctStarts(m0, picks);
    assert picks[..0] == [];
    var i := 0;
    while i < |picks|
      invariant 0 <= i <= |picks|
      invariant RemovedUpTo(m0, t.edgeMap, picks, i)
    {
      RemovedStep(m0, t.edgeMap, picks, i);
      assert picks[i] in t.edgeMap[picks[i].start];
      var removed := t.RemoveEdge(picks[i]);
      if !removed {
        return false;
      }
      i := i + 1;
    }
    RemovedAll(m0, t.edgeMap, picks);
    return true;
  }

  /** The loop putting every pick back at the end of its start's list (`appendEdge`). */
  method AppendPicks(t: Traverse, picks: seq<Edge>)
    requires DistinctStarts(t.edgeMap, picks)
    modifies t`edgeMap
    ensures AppendedPicks(old(t.edgeMap), t.edgeMap, picks)
  {
    ghost var m0 := t.edgeMap;
    assert picks[..0] == [];
    var i := 0;
    while i < |picks|
      invariant 0 <= i <= |picks|
      invariant AppendedUpTo(m0, t.edgeMap, picks, i)
    {
      AppendedStep(m0, t.edgeMap, picks, i);
      t.AppendEdge(picks[i]);
      i := i + 1;
    }
    AppendedAll(m0, t.edgeMap, picks);
  }

  /** Removing the picks, shuffling every list and appending the picks again keeps every list's
      contents and leaves each pick last in its list. */
  lemma ReshuffleSteps(m0: map<char, seq<Edge>>, m1: map<char, seq<Edge>>, m2: map<char, seq<Edge>>,
                       m3: map<char, seq<Edge>>, end: char, picks: seq<Edge>)
    requires PickedFrom(m0, end, picks)
    requires RemovedPicks(m0, m1, picks) && SameBags(m1, m2) && AppendedPicks(m2, m3, picks)
    ensures Reshuffled(m0, m3, picks)
  {
    forall c | c in m0 ensures multiset(m3[c]) == multiset(m0[c]) {
      if c in PickStarts(picks) {
        var j :| 0 <= j < |picks| && picks[j].start == c;
        RemoveFirstBag(m0[c], picks[j]);
        assert multiset(m3[c]) == multiset(m2[c]) + multiset{picks[j]};
      }
    }
  }

  /** The headline property: after the three steps, `unsafeToString` cannot fail and returns a
      sequence of the same length, first and last letter, and dinucleotide counts as s, provided
      the picks passed the connectivity test (a rank certificate). */
  lemma ReshuffledWalks(s: seq<char>, m: map<char, seq<Edge>>, picks: seq<Edge>, rank: map<char, nat>)
    returns (out: seq<char>)
    requires |s| >= 2
    requires PickedFrom(BuildEdgeMap(s), s[|s| - 1], picks)
    requires Certified(picks, s[|s| - 1], BuildEdgeMap(s).Keys, rank)
    requires Reshuffled(BuildEdgeMap(s), m, picks)
    ensures Reconstruct(m, s[0], |s|) == Ok(out)
    ensures IsShuffleOf(out, s)
  {
    var end := s[|s| - 1];
    var m0 := BuildEdgeMap(s);
    BuildEdgeMapShape(s);
    BuildEdgeMapBag(s);
    BuiltBalanced(s);
    EdgeBagPerKey(m0, m);
    forall c ensures OutCount(m, c) == OutCount(m0, c) {
      if c in m0 {
        assert |m[c]| == |multiset(m[c])|;
      }
    }
    BalancedTransfer(m0, m, s[0], end);
    forall c, e: Edge | c in m && e in m[c] ensures e.start == c {
      assert e in multiset(m0[c]);
    }
    forall c | c in m && c != end && m[c] != []
      ensures c in rank && Last(m[c]).end in rank && rank[Last(m[c]).end] < rank[c]
    {
      assert c in PickStarts(picks);
      var j :| 0 <= j < |picks| && picks[j].start == c;
      var j' :| 0 <= j' < |picks| && picks[j'].start == c && picks[j'].end in rank && rank[picks[j'].end] < rank[c];
      assert j == j';
    }
    var w := EulerWalk(m, s[0], end, rank);
    out := [s[0]] + w;
  }

  /** What a dinucleotide shuffle of s promises: same length, same first and last letter, and the
      same count of every adjacent pair. */
  predicate IsShuffleOf(out: seq<char>, s: seq<char>) {
    |out| == |s| && |s| >= 1 && out[0] == s[0] && out[|s| - 1] == s[|s| - 1] &&
    multiset(Pairs(out)) == multiset(Pairs(s))
  }

  /** A shuffle uses only letters of the input. */
  lemma ShuffleLetters(out: seq<char>, s: seq<char>)
    requires IsShuffleOf(out, s)
    ensures forall i :: 0 <= i < |out| ==> out[i] in s
  {
    forall i | 0 <= i < |out| ensures out[i] in s {
      if i > 0 {
        var e := Pairs(out)[i - 1];
        assert e in multiset(Pairs(s));
        var k :| 0 <= k < |Pairs(s)| && Pairs(s)[k] == e;
        assert out[i] == s[k + 1];
      }
    }
  }

  /** Take the picks out (stopping at the first removal that fails, which on a valid pick none
      does), shuffle every list, and append the picks again. */
  method Rewire(t: Traverse, picks: seq<Edge>) returns (ok: bool)
    requires PickedFrom(t.edgeMap, t.end, picks)
    modifies t`edgeMap
    ensures ok
    ensures Reshuffled(old(t.edgeMap), t.edgeMap, picks)
  {
    ghost var m0 := t.edgeMap;
    ok := RemovePicks(t, picks);
    if !ok {
      return;
    }
    ghost var m1 := t.edgeMap;
    t.ShuffleEdgeLists();
    ghost var m2 := t.edgeMap;
    AppendPicks(t, picks);
    ReshuffleSteps(m0, m1, m2, t.edgeMap, t.end, picks);
  }
}
