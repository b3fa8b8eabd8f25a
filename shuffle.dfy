/** The `org.pvv.shufflegene` driver: a static shuffle that validates, builds the traverse,
    picks connected last edges, rewires the traverse and reads it back. */
module Shufflegene {
  import opened Outcomes
  import opened Edges
  import opened Traversal
  import opened Connectivity
  import opened Shuffling

  /** `validSequence`: only the letters ACGT, and at least two of them. */
  function ValidSequence(s: seq<char>): (r: bool)
    ensures r <==> |s| >= 2 && forall i :: 0 <= i < |s| ==> IsNucleotide(s[i])
  {
    MatchesNucleotides(s, 2)
  }

  /** `isConnectedToEnd`: the flag loop, run for as many passes as there are picks. It accepts
      exactly the non-empty pick lists that connect every letter to the final one. */
  method IsConnectedToEnd(edges: seq<Edge>, traverse: Traverse) returns (r: bool, ghost rank: map<char, nat>)
    requires forall j :: 0 <= j < |edges| ==> edges[j].end in traverse.edgeMap || edges[j].end == traverse.end
    ensures r ==> Certified(edges, traverse.end, traverse.edgeMap.Keys, rank)
    ensures r <==> |edges| >= 1 && ConnectedToEnd(edges, traverse.end, traverse.edgeMap.Keys)
  {
    r, rank := PropagateFlags(edges, traverse.Alphabet(), traverse.end, |edges|);
    if r {
      CertifiedConnected(edges, traverse.end, traverse.edgeMap.Keys, rank);
    }
  }

  /** Every possible draw passes `isConnectedToEnd`, so the first draw is returned. */
  ghost predicate EveryPickAccepted(m: map<char, seq<Edge>>, end: char) {
    forall p :: PickedFrom(m, end, p) ==> |p| >= 1 && ConnectedToEnd(p, end, m.Keys)
  }

  /** `pickEdges`: draw picks until they pass `isConnectedToEnd`, here for at most maxAttempts
      draws. When the final letter is the only letter with a list there is nothing to pick, and
      the empty pick list is always rejected. */
  method PickEdges(traverse: Traverse, maxAttempts: nat) returns (r: Result<seq<Edge>>, ghost rank: map<char, nat>)
    requires GraphShape(traverse.edgeMap, traverse.end)
    ensures r.Ok? ==> PickedFrom(traverse.edgeMap, traverse.end, r.value)
    ensures r.Ok? ==> Certified(r.value, traverse.end, traverse.edgeMap.Keys, rank)
    ensures r.Err? ==> r.failure == AttemptsExhausted
    ensures traverse.edgeMap.Keys <= {traverse.end} ==> r.Err?
    ensures maxAttempts >= 1 && EveryPickAccepted(traverse.edgeMap, traverse.end) ==> r.Ok?
  {
    var attempts := 0;
    while attempts < maxAttempts
      invariant attempts <= maxAttempts
      invariant EveryPickAccepted(traverse.edgeMap, traverse.end) ==> attempts == 0
    {
      var edges := RandomPicks(traverse);
      if |edges| > 0 {
        assert edges[0].start in PickStarts(edges);
      }
      var connected;
      connected, rank := IsConnectedToEnd(edges, traverse);
      if connected {
        return Ok(edges), rank;
      }
      attempts := attempts + 1;
    }
    return Err(AttemptsExhausted), map[];
  }

  /** A shuffle of a valid sequence is valid. */
  lemma ShuffleValid(out: seq<char>, s: seq<char>)
    requires ValidSequence(s) && IsShuffleOf(out, s)
    ensures ValidSequence(out)
  {
    ShuffleLetters(out, s);
    forall i | 0 <= i < |out| ensures IsNucleotide(out[i]) {
      var k :| 0 <= k < |s| && s[k] == out[i];
    }
  }

  /** `shuffleSequence`: never fails for a valid sequence except by running out of attempts, and
      what it returns is a valid dinucleotide shuffle of its input. */
  method ShuffleSequence(sequence: seq<char>, maxAttempts: nat) returns (r: Result<seq<char>>)
    ensures !ValidSequence(sequence) <==> r == Err(InvalidInput)
    ensures r.Err? ==> r.failure == InvalidInput || r.failure == AttemptsExhausted
    ensures r.Ok? ==> IsShuffleOf(r.value, sequence) && ValidSequence(r.value)
    ensures ValidSequence(sequence) && Sources(sequence) <= {sequence[|sequence| - 1]} ==>
              r == Err(AttemptsExhausted)
    ensures ValidSequence(sequence) && maxAttempts >= 1 &&
              EveryPickAccepted(BuildEdgeMap(sequence), sequence[|sequence| - 1]) ==>
              r.Ok?
  {
    if !ValidSequence(sequence) {
      return Err(InvalidInput);
    }
    var traverse := new Traverse(sequence);
    BuiltShape(sequence);
    BuildEdgeMapKeys(sequence);
    var edges, rank := PickEdges(traverse, maxAttempts);
    if edges.Err? {
      return Err(edges.failure);
    }
    var picks := edges.value;
    var rewired := Rewire(traverse, picks);
    if !rewired {
      return Err(IllegalState);
    }
    ghost var out := ReshuffledWalks(sequence, traverse.edgeMap, picks, rank);
    ShuffleValid(out, sequence);
    assert Reconstruct(traverse.edgeMap, traverse.start, traverse.length) == Ok(out);
    r := traverse.UnsafeToString();
  }

  /** The validity cases the repository's tests exercise. */
  lemma ValidSequenceExamples()
    ensures ValidSequence("AAAACCCCGGGGTTTT") && ValidSequence("AA")
    ensures !ValidSequence("UAAACCCCGGGGTTTT") && !ValidSequence("") && !ValidSequence("A")
  {
    var s := "AAAACCCCGGGGTTTT";
    forall i | 0 <= i < |s| ensures IsNucleotide(s[i]) {
      if i < 4 {
        assert s[i] == 'A';
      } else if i < 8 {
        assert s[i] == 'C';
      } else if i < 12 {
        assert s[i] == 'G';
      } else {
        assert s[i] == 'T';
      }
    }
    assert !IsNucleotide("UAAACCCCGGGGTTTT"[0]);
  }

  /** "AC" has exactly one shuffle, itself, and its one possible pick A->C is accepted on the
      first draw. */
  method ShuffleShortSequence(maxAttempts: nat) returns (r: Result<seq<char>>)
    ensures maxAttempts >= 1 ==> r == Ok("AC")
    ensures r.Err? ==> r.failure == AttemptsExhausted
  {
    ACPickAccepted();
    r := ShuffleSequence("AC", maxAttempts);
    if r.Ok? {
      assert r.value == [r.value[0], r.value[1]];
    }
  }

  /** "AA" is valid, but its only letter with a list is its final letter, so no pick list is
      ever accepted and the shuffle never returns. */
  method ShuffleRepeatedLetter(maxAttempts: nat) returns (r: Result<seq<char>>)
    ensures r == Err(AttemptsExhausted)
  {
    assert forall c | c in Sources("AA") :: c == 'A';
    r := ShuffleSequence("AA", maxAttempts);
  }

  /** Taking the edge A->C out of the traverse of "ACGT" leaves A with no edge, so reading the
      traverse back fails. */
  method TraverseMissingEdge() returns (removed: bool, r: Result<seq<char>>)
    ensures removed && r == Err(IllegalState)
  {
    var traverse := new Traverse("ACGT");
    ACGTEdgeOfA();
    removed := traverse.RemoveEdge(Edge('A', 'C'));
    r := traverse.UnsafeToString();
  }

  lemma ACGTEdgeOfA()
    ensures 'A' in BuildEdgeMap("ACGT") && BuildEdgeMap("ACGT")['A'] == [Edge('A', 'C')]
  {
    var s := "ACGT";
    assert s[0] == 'A' && 'A' in Sources(s);
    var p := Pairs(s);
    assert p == [Edge('A', 'C'), Edge('C', 'G'), Edge('G', 'T')];
    OutgoingNone(p[1..], 'A');
    assert p == [p[0]] + p[1..];
  }

  /** The graph of "AC" is the single edge A->C; the only pick is [A->C], which connects A to C
      in one step. */
  lemma ACPickAccepted()
    ensures EveryPickAccepted(BuildEdgeMap("AC"), 'C')
  {
    var s := "AC";
    var m := BuildEdgeMap(s);
    assert Pairs(s) == [Edge('A', 'C')];
    assert forall c | c in Sources(s) :: c == 'A';
    assert 'A' in Sources(s);
    assert m.Keys == {'A'};
    assert m['A'] == [Edge('A', 'C')];
    forall p: seq<Edge> | PickedFrom(m, 'C', p) ensures |p| >= 1 && ConnectedToEnd(p, 'C', m.Keys) {
      assert 'A' in PickStarts(p);
      var j :| 0 <= j < |p| && p[j].start == 'A';
      assert p[j] == Edge('A', 'C');
      assert ReachesWithin(p, 'C', 'C', |p| - 1);
      assert ReachesWithin(p, 'A', 'C', |p|);
    }
  }
}
