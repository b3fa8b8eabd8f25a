/** The `com.oalmelid.dinucleotide` driver: a shuffler object that validates and builds its
    traverse once, then shuffles a deep copy of it on every call. */
module Dinucleotide {
  import opened Outcomes
  import opened Edges
  import opened Traversal
  import opened Connectivity
  import opened Shuffling

  /** `validSequence`: only the letters ACGT, and at least one of them. */
  function ValidSequence(s: seq<char>): (r: bool)
    ensures r <==> |s| >= 1 && forall i :: 0 <= i < |s| ==> IsNucleotide(s[i])
  {
    MatchesNucleotides(s, 1)
  }

  /** Every possible draw passes `isConnected`, so the first draw is returned. */
  ghost predicate EveryPickPasses(m: map<char, seq<Edge>>, end: char) {
    forall p {:trigger PickedFrom(m, end, p)} :: PickedFrom(m, end, p) ==> Accepts(p, m.Keys, end, |m.Keys| - 1)
  }

  /** A draw that fails `isConnected` shows that not every draw passes. */
  lemma DrawRejected(m: map<char, seq<Edge>>, end: char, p: seq<Edge>)
    requires PickedFrom(m, end, p) && !Accepts(p, m.Keys, end, |m.Keys| - 1)
    ensures !EveryPickPasses(m, end)
  {
  }

  class Shuffler {
    const sequence: seq<char>
    const traverse: Traverse

    /** The traverse is the graph of the sequence. */
    ghost predicate Valid()
      reads this, traverse
    {
      ValidSequence(sequence) &&
      traverse.edgeMap == BuildEdgeMap(sequence) &&
      traverse.start == sequence[0] && traverse.end == sequence[|sequence| - 1] &&
      traverse.length == |sequence|
    }

    /** The constructor once its input has passed validation. */
    constructor (sequence: seq<char>)
      requires ValidSequence(sequence)
      ensures this.sequence == sequence && fresh(traverse) && Valid()
    {
      this.sequence := sequence;
      traverse := new Traverse(sequence);
    }

    /** `new DinucleotideShuffle(sequence)`: throws `InvalidInputException` unless the sequence
        is valid. */
    static method Create(sequence: seq<char>) returns (r: Result<Shuffler>)
      ensures r.Err? <==> !ValidSequence(sequence)
      ensures r.Err? ==> r.failure == InvalidInput
      ensures r.Ok? ==> fresh(r.value) && fresh(r.value.traverse)
      ensures r.Ok? ==> r.value.sequence == sequence && r.value.Valid()
    {
      if !ValidSequence(sequence) {
        return Err(InvalidInput);
      }
      var shuffler := new Shuffler(sequence);
      return Ok(shuffler);
    }

    /** `isConnected`: the flag loop, but run for one pass fewer than there are letters with a
        list. With at most one such letter it never accepts. */
    method IsConnected(vertices: seq<Edge>) returns (r: bool, ghost rank: map<char, nat>)
      requires forall j :: 0 <= j < |vertices| ==> vertices[j].end in traverse.edgeMap || vertices[j].end == traverse.end
      ensures r ==> Certified(vertices, traverse.end, traverse.edgeMap.Keys, rank)
      ensures r ==> |traverse.edgeMap.Keys| >= 2
      ensures |traverse.edgeMap.Keys| >= 2 &&
              (forall c :: c in traverse.edgeMap ==> ReachesWithin(vertices, c, traverse.end, |traverse.edgeMap.Keys| - 1))
              ==> r
      ensures r <==> Accepts(vertices, traverse.edgeMap.Keys, traverse.end, |traverse.edgeMap.Keys| - 1)
    {
      var alphabet := traverse.Alphabet();
      r, rank := PropagateFlags(vertices, alphabet, traverse.end, |alphabet| - 1);
    }

    /** `pickEdges`, bounded to maxAttempts draws. */
    method PickEdges(maxAttempts: nat) returns (r: Result<seq<Edge>>, ghost rank: map<char, nat>)
      requires Valid()
      ensures r.Ok? ==> PickedFrom(traverse.edgeMap, traverse.end, r.value)
      ensures r.Ok? ==> Certified(r.value, traverse.end, traverse.edgeMap.Keys, rank)
      ensures r.Ok? ==> |traverse.edgeMap.Keys| >= 2 && |sequence| >= 2
      ensures r.Err? ==> r.failure == AttemptsExhausted
      ensures |Sources(sequence)| <= 1 ==> r.Err?
      ensures maxAttempts >= 1 && EveryPickPasses(traverse.edgeMap, traverse.end) ==> r.Ok?
    {
      BuiltShape(sequence);
      r, rank := DrawUntilConnected(maxAttempts);
      BuildEdgeMapKeys(sequence);
      SourcesOfShort(sequence);
    }

    /** The retry loop of `pickEdges`: draw picks until one passes `isConnected`. */
    method DrawUntilConnected(maxAttempts: nat) returns (r: Result<seq<Edge>>, ghost rank: map<char, nat>)
      requires GraphShape(traverse.edgeMap, traverse.end)
      ensures r.Ok? ==> PickedFrom(traverse.edgeMap, traverse.end, r.value)
      ensures r.Ok? ==> Certified(r.value, traverse.end, traverse.edgeMap.Keys, rank)
      ensures r.Ok? ==> |traverse.edgeMap.Keys| >= 2
      ensures r.Err? ==> r.failure == AttemptsExhausted
      ensures maxAttempts >= 1 && EveryPickPasses(traverse.edgeMap, traverse.end) ==> r.Ok?
    {
      var attempts := 0;
      while attempts < maxAttempts
        invariant attempts <= maxAttempts
        invariant EveryPickPasses(traverse.edgeMap, traverse.end) ==> attempts == 0
      {
        var edges := RandomPicks(traverse);
        var connected;
        connected, rank := IsConnected(edges);
        if connected {
          return Ok(edges), rank;
        }
        DrawRejected(traverse.edgeMap, traverse.end, edges);
        attempts := attempts + 1;
      }
      return Err(AttemptsExhausted), map[];
    }

    /** `shuffleTraverse`: rewires a deep copy, so the shuffler's own traverse is left as it was
        (the method modifies nothing that existed before the call). The copy reads back as a
        dinucleotide shuffle of the sequence. */
    method ShuffleTraverse(maxAttempts: nat) returns (r: Result<Traverse>, ghost out: seq<char>)
      requires Valid()
      ensures r.Ok? ==> fresh(r.value)
      ensures r.Ok? ==> Reconstruct(r.value.edgeMap, r.value.start, r.value.length) == Ok(out)
      ensures r.Ok? ==> IsShuffleOf(out, sequence)
      ensures r.Err? ==> r.failure == AttemptsExhausted
      ensures |Sources(sequence)| <= 1 ==> r.Err?
      ensures maxAttempts >= 1 && EveryPickPasses(BuildEdgeMap(sequence), sequence[|sequence| - 1]) ==> r.Ok?
    {
      var newTraversal := traverse.DeepCopy();
      var edges, rank := PickEdges(maxAttempts);
      if edges.Err? {
        return Err(edges.failure), [];
      }
      out := RewireCopy(newTraversal, sequence, edges.value, rank);
      return Ok(newTraversal), out;
    }

    /** `shuffleSequence`: the shuffled copy read back. Without a modifies clause it cannot
        change the shuffler, so every call shuffles the same original. */
    method ShuffleSequence(maxAttempts: nat) returns (r: Result<seq<char>>)
      requires Valid()
      ensures r.Ok? ==> IsShuffleOf(r.value, sequence)
      ensures r.Err? ==> r.failure == AttemptsExhausted
      ensures |Sources(sequence)| <= 1 ==> r == Err(AttemptsExhausted)
      ensures maxAttempts >= 1 && EveryPickPasses(BuildEdgeMap(sequence), sequence[|sequence| - 1]) ==> r.Ok?
    {
      var shuffled, out := ShuffleTraverse(maxAttempts);
      if shuffled.Err? {
        return Err(shuffled.failure);
      }
      r := shuffled.value.UnsafeToString();
    }
  }

  /** The rewiring on the copy, whose removal result `shuffleTraverse` ignores (on a valid pick
      every removal succeeds). */
  method RewireCopy(t: Traverse, s: seq<char>, picks: seq<Edge>, ghost rank: map<char, nat>)
    returns (ghost out: seq<char>)
    requires |s| >= 2 && t.edgeMap == BuildEdgeMap(s)
    requires t.start == s[0] && t.end == s[|s| - 1] && t.length == |s|
    requires PickedFrom(t.edgeMap, t.end, picks)
    requires Certified(picks, t.end, t.edgeMap.Keys, rank)
    modifies t`edgeMap
    ensures Reconstruct(t.edgeMap, t.start, t.length) == Ok(out)
    ensures IsShuffleOf(out, s)
  {
    var _ := Rewire(t, picks);
    out := ReshuffledWalks(s, t.edgeMap, picks, rank);
  }

  /** A single letter is valid here, though it has no adjacent pair. */
  lemma SingleLetterValid()
    ensures ValidSequence("A") && !ValidSequence("")
  {
  }

  /** "AC" has one letter with a list, so no draw ever passes `isConnected`. */
  method ShuffleTwoLetters(maxAttempts: nat) returns (r: Result<seq<char>>)
    ensures r == Err(AttemptsExhausted)
  {
    var shuffler := new Shuffler("AC");
    BuildEdgeMapKeys("AC");
    assert forall c | c in Sources("AC") :: c == 'A';
    assert Sources("AC") == {'A'};
    r := shuffler.ShuffleSequence(maxAttempts);
  }

  /** The picks A->C, C->G, G->T of "ACGT", in the order A, C, G. */
  function ChainPicks(): seq<Edge> {
    [Edge('A', 'C'), Edge('C', 'G'), Edge('G', 'T')]
  }

  /** The graph of "ACGT": one edge out of each of A, C and G, and none out of T. */
  lemma ACGTGraph()
    ensures BuildEdgeMap("ACGT").Keys == {'A', 'C', 'G'}
    ensures BuildEdgeMap("ACGT")['A'] == [Edge('A', 'C')]
    ensures BuildEdgeMap("ACGT")['C'] == [Edge('C', 'G')]
    ensures BuildEdgeMap("ACGT")['G'] == [Edge('G', 'T')]
  {
    var s := "ACGT";
    var p := Pairs(s);
    assert p == ChainPicks();
    ACGTSources();
    OutgoingNone(p[1..], 'A');
    assert Outgoing(p, 'A') == [p[0]] + Outgoing(p[1..], 'A');
    OutgoingNone(p[2..], 'C');
    assert Outgoing(p[1..], 'C') == [p[1]] + Outgoing(p[2..], 'C');
    assert Outgoing(p, 'C') == Outgoing(p[1..], 'C');
    assert Outgoing(p[2..], 'G') == [p[2]] + Outgoing(p[3..], 'G');
    assert Outgoing(p[1..], 'G') == Outgoing(p[2..], 'G');
    assert Outgoing(p, 'G') == Outgoing(p[1..], 'G');
  }

  lemma ACGTSources()
    ensures Sources("ACGT") == {'A', 'C', 'G'}
  {
    var s := "ACGT";
    assert forall c | c in Sources(s) :: c == 'A' || c == 'C' || c == 'G';
    assert s[0] == 'A' && s[1] == 'C' && s[2] == 'G';
  }

  /** The graph of "ACGT" written out. */
  function ChainMap(): map<char, seq<Edge>> {
    map['A' := [Edge('A', 'C')], 'C' := [Edge('C', 'G')], 'G' := [Edge('G', 'T')]]
  }

  lemma ACGTIsChainMap()
    ensures BuildEdgeMap("ACGT") == ChainMap()
  {
    ACGTGraph();
    ChainMapByParts(BuildEdgeMap("ACGT"));
  }

  lemma ChainMapByParts(m: map<char, seq<Edge>>)
    requires m.Keys == {'A', 'C', 'G'}
    requires m['A'] == [Edge('A', 'C')] && m['C'] == [Edge('C', 'G')] && m['G'] == [Edge('G', 'T')]
    ensures m == ChainMap()
  {
    forall c | c in m ensures m[c] == ChainMap()[c] {
      assert c == 'A' || c == 'C' || c == 'G';
    }
  }

  /** The chain is a valid pick of the graph of "ACGT". */
  lemma ChainPicked()
    ensures PickedFrom(ChainMap(), 'T', ChainPicks())
  {
    var m := ChainMap();
    var p := ChainPicks();
    assert p[0].start == 'A' && p[1].start == 'C' && p[2].start == 'G';
    assert PickStarts(p) == m.Keys - {'T'};
  }

  /** The chain leads A, C and G to T. */
  lemma ChainConnected()
    ensures ConnectedToEnd(ChainPicks(), 'T', ChainMap().Keys)
  {
    var p := ChainPicks();
    ChainReaches();
    ReachesMonotone(p, 'G', 'T', 1, 3);
    ReachesMonotone(p, 'C', 'T', 2, 3);
  }

  /** G is one step from T along the chain, C two and A three. */
  lemma ChainReaches()
    ensures ReachesWithin(ChainPicks(), 'G', 'T', 1)
    ensures ReachesWithin(ChainPicks(), 'C', 'T', 2)
    ensures ReachesWithin(ChainPicks(), 'A', 'T', 3)
  {
    var p := ChainPicks();
    assert ReachesWithin(p, 'T', 'T', 0);
    assert p[2].start == 'G' && ReachesWithin(p, p[2].end, 'T', 0);
    assert p[1].start == 'C' && ReachesWithin(p, p[1].end, 'T', 1);
    assert p[0].start == 'A' && ReachesWithin(p, p[0].end, 'T', 2);
  }

  /** Two passes over A->C, C->G, G->T flag G and then C, and leave A unflagged. */
  lemma ChainNotAccepted()
    ensures !Accepts(ChainPicks(), {'A', 'C', 'G'}, 'T', 2)
  {
    var p := ChainPicks();
    var f0 := Initial({'A', 'C', 'G'}, 'T');
    assert 'A' in f0 && !f0['A'] && 'C' in f0 && !f0['C'] && f0['T'];
    var f1 := f0['G' := true];
    assert PassFrom(p, 3, f1) == f1;
    assert PassFrom(p, 2, f0) == f1;
    assert Pass(p, f0) == f1;
    var f2 := f1['C' := true];
    assert PassFrom(p, 3, f2) == f2;
    assert PassFrom(p, 1, f1) == f2;
    assert Pass(p, f1) == f2;
    assert Iterate(p, f0, 2) == f2;
    assert 'A' in f2 && !f2['A'];
  }

  /** With the three letters A, C and G, the chain gets two passes and is rejected. */
  lemma ChainVerdict()
    ensures ChainMap().Keys == {'A', 'C', 'G'} && |ChainMap().Keys| - 1 == 2
    ensures !Accepts(ChainPicks(), ChainMap().Keys, 'T', |ChainMap().Keys| - 1)
  {
    ChainNotAccepted();
  }

  lemma ACGTValid()
    ensures ValidSequence("ACGT")
  {
    var s := "ACGT";
    assert s[0] == 'A' && s[1] == 'C' && s[2] == 'G' && s[3] == 'T';
  }

  /** For "ACGT" the pick A->C, C->G, G->T is a valid pick, connected to the final letter T,
      yet `isConnected` rejects it when the letters come in the order A, C, G: T has no list, so
      there are two passes, and A is three steps from T. */
  method RejectsConnectedPick() returns (r: bool)
    ensures PickedFrom(BuildEdgeMap("ACGT"), 'T', ChainPicks())
    ensures ConnectedToEnd(ChainPicks(), 'T', BuildEdgeMap("ACGT").Keys)
    ensures !r
  {
    ACGTValid();
    var shuffler := new Shuffler("ACGT");
    ACGTIsChainMap();
    assert shuffler.traverse.edgeMap == ChainMap() && shuffler.traverse.end == 'T';
    ghost var rank;
    r, rank := shuffler.IsConnected(ChainPicks());
    ChainVerdict();
    ChainPicked();
    ChainConnected();
  }
}
