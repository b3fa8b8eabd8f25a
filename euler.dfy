/** Why `unsafeToString` succeeds after a shuffle: the Altschul–Erickson argument that
    following the lists in order walks an Eulerian path, provided the last edge of every
    letter but the final one points down a tree towards the final letter. */
module Euler {
  import opened Outcomes
  import opened Edges
  import opened Bags
  import opened Traversal

  function Ind(b: bool): nat {
    if b then 1 else 0
  }

  /** How many edges leave c. */
  function OutCount(m: map<char, seq<Edge>>, c: char): nat {
    |ListAt(m, c)|
  }

  /** How many edges arrive at c. */
  ghost function InCount(m: map<char, seq<Edge>>, c: char): nat {
    EndsBag(EdgeBag(m))[c]
  }

  /** Every list holds only edges that start at its key. */
  predicate WellKeyed(m: map<char, seq<Edge>>) {
    forall c, e :: c in m && e in m[c] ==> e.start == c
  }

  /** The degrees of a graph with an Eulerian path from v to end: at every letter the edges
      out, plus one at end, match the edges in, plus one at v. */
  ghost predicate Balanced(m: map<char, seq<Edge>>, v: char, end: char) {
    forall c :: OutCount(m, c) + Ind(c == end) == InCount(m, c) + Ind(c == v)
  }

  function Last(xs: seq<Edge>): Edge
    requires xs != []
  {
    xs[|xs| - 1]
  }

  /** The last edge of every non-empty list, other than end's, goes to a letter of smaller
      rank: the last edges form a tree rooted at end. */
  predicate LastsDescend(m: map<char, seq<Edge>>, end: char, rank: map<char, nat>) {
    forall c :: c in m && c != end && m[c] != [] ==>
      c in rank && Last(m[c]).end in rank && rank[Last(m[c]).end] < rank[c]
  }

  /** The map after the walk pops the first edge of v. */
  function Pop(m: map<char, seq<Edge>>, v: char): (r: map<char, seq<Edge>>)
    requires v in m && m[v] != []
    ensures r.Keys == m.Keys && r[v] == m[v][1..]
    ensures forall c :: c in m && c != v ==> r[c] == m[c]
  {
    m[v := m[v][1..]]
  }

  lemma EdgeBagPop(m: map<char, seq<Edge>>, v: char)
    requires v in m && m[v] != []
    ensures m[v][0] in EdgeBag(m)
    ensures EdgeBag(Pop(m, v)) == EdgeBag(m) - multiset{m[v][0]}
    ensures |EdgeBag(Pop(m, v))| == |EdgeBag(m)| - 1
  {
    EdgeBagSet(m, v, m[v][1..]);
    EdgeBagRemove(m, v);
    assert m[v] == [m[v][0]] + m[v][1..];
  }

  lemma InCountPop(m: map<char, seq<Edge>>, v: char, c: char)
    requires v in m && m[v] != []
    ensures InCount(Pop(m, v), c) + Ind(c == m[v][0].end) == InCount(m, c)
  {
    EdgeBagPop(m, v);
    EndsBagRemove(EdgeBag(m), m[v][0]);
  }

  /** Taking the edge out of v moves the start of the remaining path to its end. */
  lemma BalancedPop(m: map<char, seq<Edge>>, v: char, end: char)
    requires v in m && m[v] != []
    requires Balanced(m, v, end)
    ensures Balanced(Pop(m, v), m[v][0].end, end)
  {
    var m' := Pop(m, v);
    forall c
      ensures OutCount(m', c) + Ind(c == end) == InCount(m', c) + Ind(c == m[v][0].end)
    {
      InCountPop(m, v, c);
      assert OutCount(m', c) + Ind(c == v) == OutCount(m, c);
    }
  }

  lemma PopKeepsShape(m: map<char, seq<Edge>>, v: char, end: char, rank: map<char, nat>)
    requires v in m && m[v] != []
    requires WellKeyed(m) && LastsDescend(m, end, rank)
    ensures WellKeyed(Pop(m, v)) && LastsDescend(Pop(m, v), end, rank)
  {
    var m' := Pop(m, v);
    PopWellKeyed(m, v);
    forall c | c in m' && c != end && m'[c] != []
      ensures c in rank && Last(m'[c]).end in rank && rank[Last(m'[c]).end] < rank[c]
    {
      assert Last(m'[c]) == Last(m[c]);
    }
  }

  lemma InCountOfMember(m: map<char, seq<Edge>>, c: char, e: Edge)
    requires c in m && e in m[c]
    ensures InCount(m, e.end) >= 1
  {
    EdgeBagMember(m, e);
    EndsBagRemove(EdgeBag(m), e);
  }

  /** Once the walk has reached end, any letter that still has an edge leads, along last edges,
      to an edge still arriving at end. */
  lemma {:induction false} EdgeLeftIntoEnd(m: map<char, seq<Edge>>, end: char, rank: map<char, nat>, c: char)
    requires WellKeyed(m) && Balanced(m, end, end) && LastsDescend(m, end, rank)
    requires c != end && OutCount(m, c) >= 1
    ensures InCount(m, end) >= 1
    decreases rank[c]
  {
    var e := Last(m[c]);
    InCountOfMember(m, c, e);
    var u := e.end;
    if u != end {
      assert OutCount(m, u) + Ind(u == end) == InCount(m, u) + Ind(u == end);
      EdgeLeftIntoEnd(m, end, rank, u);
    }
  }

  /** While edges remain, the walk is never stuck. */
  lemma NotStuck(m: map<char, seq<Edge>>, v: char, end: char, rank: map<char, nat>)
    requires WellKeyed(m) && Balanced(m, v, end) && LastsDescend(m, end, rank)
    requires |EdgeBag(m)| > 0
    ensures v in m && m[v] != []
  {
    assert OutCount(m, v) + Ind(v == end) == InCount(m, v) + Ind(v == v);
    if v == end {
      var e :| e in EdgeBag(m);
      EdgeBagMember(m, e);
      var c :| c in m && e in m[c];
      if c != end {
        EdgeLeftIntoEnd(m, end, rank, c);
      }
    }
  }

  /** With no edge left the walk stands at end. */
  lemma DoneAtEnd(m: map<char, seq<Edge>>, v: char, end: char)
    requires Balanced(m, v, end) && |EdgeBag(m)| == 0
    ensures v == end
  {
    assert EdgeBag(m) == multiset{};
    assert OutCount(m, end) + Ind(end == end) == InCount(m, end) + Ind(end == v);
  }

  /** The Eulerian path theorem for the walk: from v it takes every edge exactly once and
      stops at end, never failing. */
  lemma {:induction false} EulerWalk(m: map<char, seq<Edge>>, v: char, end: char, rank: map<char, nat>)
    returns (w: seq<char>)
    requires WellKeyed(m) && Balanced(m, v, end) && LastsDescend(m, end, rank)
    ensures Walk(m, v, |EdgeBag(m)|) == Ok(w)
    ensures multiset(Pairs([v] + w)) == EdgeBag(m)
    ensures ([v] + w)[|w|] == end
    decreases |EdgeBag(m)|
  {
    if |EdgeBag(m)| == 0 {
      DoneAtEnd(m, v, end);
      w := [];
    } else {
      NotStuck(m, v, end, rank);
      var m' := Pop(m, v);
      EdgeBagPopSize(m, v);
      BalancedPop(m, v, end);
      PopKeepsShape(m, v, end, rank);
      var w' := EulerWalk(m', m[v][0].end, end, rank);
      EulerExtend(m, v, end, w');
      w := [m[v][0].end] + w';
    }
  }

  /** One step of the walk in front of a complete walk of the popped map is a complete walk
      of m. */
  lemma EulerExtend(m: map<char, seq<Edge>>, v: char, end: char, w': seq<char>)
    requires v in m && m[v] != [] && WellKeyed(m)
    requires Walk(Pop(m, v), m[v][0].end, |EdgeBag(Pop(m, v))|) == Ok(w')
    requires multiset(Pairs([m[v][0].end] + w')) == EdgeBag(Pop(m, v))
    requires ([m[v][0].end] + w')[|w'|] == end
    ensures Walk(m, v, |EdgeBag(m)|) == Ok([m[v][0].end] + w')
    ensures multiset(Pairs([v] + ([m[v][0].end] + w'))) == EdgeBag(m)
    ensures ([v] + ([m[v][0].end] + w'))[|w'| + 1] == end
  {
    EdgeBagPopSize(m, v);
    assert m[v][0] in m[v];
    WalkStepOk(m, v, |EdgeBag(Pop(m, v))|, w');
    PairsStepBag(m, v, w');
    LastOfCons(v, [m[v][0].end] + w');
  }

  lemma LastOfCons(v: char, t: seq<char>)
    requires t != []
    ensures ([v] + t)[|t|] == t[|t| - 1]
  {
  }

  lemma WalkStepOk(m: map<char, seq<Edge>>, v: char, n: nat, w': seq<char>)
    requires v in m && m[v] != []
    requires Walk(Pop(m, v), m[v][0].end, n) == Ok(w')
    ensures Walk(m, v, n + 1) == Ok([m[v][0].end] + w')
  {
    WalkStep(m, v, n);
  }

  lemma EdgeBagPopSize(m: map<char, seq<Edge>>, v: char)
    requires v in m && m[v] != []
    ensures |EdgeBag(m)| == |EdgeBag(Pop(m, v))| + 1
  {
    EdgeBagPop(m, v);
  }

  lemma PairsStepBag(m: map<char, seq<Edge>>, v: char, w': seq<char>)
    requires v in m && m[v] != [] && m[v][0].start == v
    requires multiset(Pairs([m[v][0].end] + w')) == EdgeBag(Pop(m, v))
    ensures multiset(Pairs([v] + ([m[v][0].end] + w'))) == EdgeBag(m)
  {
    var e := m[v][0];
    EdgeBagPop(m, v);
    PairsStep(v, e, w');
    assert EdgeBag(m) == multiset{e} + EdgeBag(Pop(m, v));
  }

  /** Stepping along e from v adds e to the pairs of the walk. */
  lemma PairsStep(v: char, e: Edge, w: seq<char>)
    requires e.start == v
    ensures multiset(Pairs([v] + ([e.end] + w))) == multiset{e} + multiset(Pairs([e.end] + w))
  {
    var t := [v] + ([e.end] + w);
    PairsCons(t);
    assert t[1..] == [e.end] + w;
  }

  /** Popping keeps every edge under its start letter. */
  lemma PopWellKeyed(m: map<char, seq<Edge>>, v: char)
    requires v in m && m[v] != [] && WellKeyed(m)
    ensures WellKeyed(Pop(m, v))
  {
    forall c, e: Edge | c in Pop(m, v) && e in Pop(m, v)[c] ensures e.start == c {
      assert e in m[c];
    }
  }

  /** A successful walk of n steps spells pairs that are edges of the map, each popped once:
      they and the n fewer edges left over make up the map's bag, on any well-keyed map. */
  lemma {:induction false} WalkConsumes(m: map<char, seq<Edge>>, v: char, n: nat) returns (rest: multiset<Edge>)
    requires WellKeyed(m) && Walk(m, v, n).Ok?
    ensures multiset(Pairs([v] + Walk(m, v, n).value)) + rest == EdgeBag(m)
    ensures |rest| == |EdgeBag(m)| - n
    decreases n
  {
    if n == 0 {
      assert Pairs([v] + Walk(m, v, n).value) == [];
      rest := EdgeBag(m);
    } else {
      var e := m[v][0];
      WalkStep(m, v, n - 1);
      var w' := Walk(Pop(m, v), e.end, n - 1).value;
      assert Walk(m, v, n).value == [e.end] + w';
      PopWellKeyed(m, v);
      rest := WalkConsumes(Pop(m, v), e.end, n - 1);
      assert e in m[v];
      PairsStep(v, e, w');
      EdgeBagPop(m, v);
      calc {
        multiset(Pairs([v] + Walk(m, v, n).value)) + rest;
        multiset{e} + multiset(Pairs([e.end] + w')) + rest;
        multiset{e} + EdgeBag(Pop(m, v));
        multiset{e} + (EdgeBag(m) - multiset{e});
        EdgeBag(m);
      }
    }
  }

  /** A successful walk with as many steps as there are edges uses every edge exactly once. */
  lemma WalkUsesAll(m: map<char, seq<Edge>>, v: char)
    requires WellKeyed(m) && Walk(m, v, |EdgeBag(m)|).Ok?
    ensures multiset(Pairs([v] + Walk(m, v, |EdgeBag(m)|).value)) == EdgeBag(m)
  {
    var rest := WalkConsumes(m, v, |EdgeBag(m)|);
    assert rest == multiset{};
  }

  /** What a successful `unsafeToString` returns spells edges of the traverse, each at most once,
      and all of them when it pops as many edges as the traverse holds. */
  lemma ReconstructConsumes(m: map<char, seq<Edge>>, start: char, length: int)
    requires WellKeyed(m) && Reconstruct(m, start, length).Ok?
    ensures multiset(Pairs(Reconstruct(m, start, length).value)) <= EdgeBag(m)
    ensures Steps(length) == |EdgeBag(m)| ==> multiset(Pairs(Reconstruct(m, start, length).value)) == EdgeBag(m)
  {
    var rest := WalkConsumes(m, start, Steps(length));
    assert Reconstruct(m, start, length).value == [start] + Walk(m, start, Steps(length)).value;
    if Steps(length) == |EdgeBag(m)| {
      assert rest == multiset{};
    }
  }

  /** Out-degrees and the edge bag are all that balance depends on. */
  lemma BalancedTransfer(m: map<char, seq<Edge>>, m': map<char, seq<Edge>>, v: char, end: char)
    requires Balanced(m, v, end)
    requires EdgeBag(m') == EdgeBag(m)
    requires forall c :: OutCount(m', c) == OutCount(m, c)
    ensures Balanced(m', v, end)
  {
    forall c ensures OutCount(m', c) + Ind(c == end) == InCount(m', c) + Ind(c == v) {
      assert OutCount(m', c) == OutCount(m, c);
    }
  }

  lemma {:induction false} OutgoingCount(xs: seq<Edge>, c: char)
    ensures |Outgoing(xs, c)| == multiset(Starts(xs))[c]
  {
    if xs != [] {
      OutgoingCount(xs[1..], c);
      StartsCons(xs);
    }
  }

  lemma BuiltOutCount(s: seq<char>, c: char)
    requires |s| >= 1
    ensures OutCount(BuildEdgeMap(s), c) == multiset(s[..|s| - 1])[c]
  {
    OutgoingCount(Pairs(s), c);
    PairsLetters(s);
    if c !in BuildEdgeMap(s) {
      OutgoingAbsent(s, c);
    }
  }

  lemma BuiltInCount(s: seq<char>, c: char)
    requires |s| >= 1
    ensures InCount(BuildEdgeMap(s), c) == multiset(s[1..])[c]
  {
    BuildEdgeMapBag(s);
    EndsBagOfSeq(Pairs(s));
    PairsLetters(s);
  }

  lemma LettersBalance(s: seq<char>, c: char)
    requires |s| >= 1
    ensures multiset(s[..|s| - 1])[c] + Ind(c == s[|s| - 1]) == multiset(s[1..])[c] + Ind(c == s[0])
  {
    assert s == s[..|s| - 1] + [s[|s| - 1]];
    assert s == [s[0]] + s[1..];
    assert multiset(s) == multiset(s[..|s| - 1]) + multiset{s[|s| - 1]};
    assert multiset(s) == multiset{s[0]} + multiset(s[1..]);
    assert multiset(s)[c] == multiset(s[..|s| - 1])[c] + multiset{s[|s| - 1]}[c];
    assert multiset(s)[c] == multiset{s[0]}[c] + multiset(s[1..])[c];
  }

  /** The graph of a sequence has an Eulerian path from its first letter to its last. */
  lemma BuiltBalanced(s: seq<char>)
    requires |s| >= 1
    ensures Balanced(BuildEdgeMap(s), s[0], s[|s| - 1])
  {
    forall c
      ensures OutCount(BuildEdgeMap(s), c) + Ind(c == s[|s| - 1]) == InCount(BuildEdgeMap(s), c) + Ind(c == s[0])
    {
      BuiltOutCount(s, c);
      BuiltInCount(s, c);
      LettersBalance(s, c);
    }
  }
}
