/** The edge graph of a sequence: for each letter, the ordered list of the edges leaving it. */
module Traversal {
  import opened Outcomes
  import opened Edges
  import opened Bags

  /** The edges of xs that start at c, in their order in xs. */
  function Outgoing(xs: seq<Edge>, c: char): (r: seq<Edge>)
    ensures |r| <= |xs|
    ensures forall e :: e in r <==> e in xs && e.start == c
  {
    if xs == [] then []
    else (if xs[0].start == c then [xs[0]] else []) + Outgoing(xs[1..], c)
  }

  lemma {:induction false} OutgoingAppend(a: seq<Edge>, b: seq<Edge>, c: char)
    ensures Outgoing(a + b, c) == Outgoing(a, c) + Outgoing(b, c)
  {
    if a != [] {
      var h := if a[0].start == c then [a[0]] else [];
      assert (a + b)[0] == a[0] && (a + b)[1..] == a[1..] + b;
      OutgoingAppend(a[1..], b, c);
      calc {
        Outgoing(a + b, c);
        h + Outgoing(a[1..] + b, c);
        h + (Outgoing(a[1..], c) + Outgoing(b, c));
        (h + Outgoing(a[1..], c)) + Outgoing(b, c);
      }
    } else {
      assert a + b == b;
    }
  }

  /** The letters that start at least one adjacency of s: every letter but the last position's. */
  function Sources(s: seq<char>): set<char> {
    set i | 0 <= i < |s| - 1 :: s[i]
  }

  /** A sequence of at most one letter has no pair, so no letter with a list. */
  lemma SourcesOfShort(s: seq<char>)
    ensures |s| <= 1 ==> Sources(s) == {}
  {
  }

  /** The edge map `setEdgeMap` builds: each source letter keyed to its outgoing pairs in order. */
  function BuildEdgeMap(s: seq<char>): map<char, seq<Edge>> {
    map c | c in Sources(s) :: Outgoing(Pairs(s), c)
  }

  lemma BuildEdgeMapKeys(s: seq<char>)
    ensures BuildEdgeMap(s).Keys == Sources(s)
  {
  }

  /** The list stored under c, or the empty list when c is not a key (`getOrDefault`). */
  function ListAt(m: map<char, seq<Edge>>, c: char): seq<Edge> {
    if c in m then m[c] else []
  }

  /** The map with e added at the end of the list of e.start. */
  function Appended(m: map<char, seq<Edge>>, e: Edge): map<char, seq<Edge>> {
    m[e.start := ListAt(m, e.start) + [e]]
  }

  /** `ArrayList.remove(Object)`: drop the first element equal to e, if there is one. */
  function RemoveFirst(xs: seq<Edge>, e: Edge): (r: seq<Edge>)
    ensures e !in xs ==> r == xs
    ensures e in xs ==> |r| == |xs| - 1
  {
    if xs == [] then []
    else if xs[0] == e then xs[1..]
    else [xs[0]] + RemoveFirst(xs[1..], e)
  }

  /** What `remove` takes out is exactly one copy of e. */
  lemma {:induction false} RemoveFirstBag(xs: seq<Edge>, e: Edge)
    requires e in xs
    ensures multiset(RemoveFirst(xs, e)) + multiset{e} == multiset(xs)
  {
    assert xs == [xs[0]] + xs[1..];
    if xs[0] != e {
      RemoveFirstBag(xs[1..], e);
    }
  }

  /** The position of the first element equal to e. */
  function IndexOf(xs: seq<Edge>, e: Edge): (i: nat)
    requires e in xs
    ensures i < |xs| && xs[i] == e && e !in xs[..i]
  {
    if xs[0] == e then 0
    else
      var j := IndexOf(xs[1..], e);
      assert xs[..j + 1] == [xs[0]] + xs[1..][..j];
      j + 1
  }

  /** Only the first occurrence is dropped; the elements before and after it keep their order. */
  lemma {:induction false} RemoveFirstAt(xs: seq<Edge>, e: Edge)
    requires e in xs
    ensures RemoveFirst(xs, e) == xs[..IndexOf(xs, e)] + xs[IndexOf(xs, e) + 1..]
  {
    if xs[0] != e {
      RemoveFirstAt(xs[1..], e);
      var j := IndexOf(xs[1..], e);
      assert xs[..j + 1] == [xs[0]] + xs[1..][..j];
      assert xs[j + 2..] == xs[1..][j + 1..];
    }
  }

  /** The walk `unsafeToString` performs on its copy of the map: `steps` times, pop the first
      edge of the current letter and move to its end; the letters moved to, in order. */
  function Walk(m: map<char, seq<Edge>>, current: char, steps: nat): (r: Result<seq<char>>)
    ensures r.Ok? ==> |r.value| == steps
    ensures r.Err? ==> r.failure == NullPointer || r.failure == IllegalState
    decreases steps
  {
    if steps == 0 then Ok([])
    else if current !in m then Err(NullPointer)
    else if m[current] == [] then Err(IllegalState)
    else
      var e := m[current][0];
      match Walk(m[current := m[current][1..]], e.end, steps - 1)
      case Ok(w) => Ok([e.end] + w)
      case Err(f) => Err(f)
  }

  /** The number of edges `unsafeToString` pops for a traverse of this length. */
  function Steps(length: int): nat {
    if length > 1 then length - 1 else 0
  }

  function Prepend(prefix: seq<char>, r: Result<seq<char>>): Result<seq<char>> {
    match r
    case Ok(w) => Ok(prefix + w)
    case Err(f) => Err(f)
  }

  lemma PrependTwice(a: seq<char>, b: seq<char>, r: Result<seq<char>>)
    ensures Prepend(a, Prepend(b, r)) == Prepend(a + b, r)
  {
    if r.Ok? {
      assert a + (b + r.value) == a + b + r.value;
    }
  }

  /** What `unsafeToString` returns for a traverse in this state. */
  function Reconstruct(m: map<char, seq<Edge>>, start: char, length: int): (r: Result<seq<char>>)
    ensures r.Ok? ==> |r.value| == Steps(length) + 1 && r.value[0] == start
    ensures r.Err? ==> r.failure == NullPointer || r.failure == IllegalState
  {
    Prepend([start], Walk(m, start, Steps(length)))
  }

  lemma SourcesSnoc(t: seq<char>, c: char)
    requires |t| >= 1
    ensures Sources(t + [c]) == Sources(t) + {t[|t| - 1]}
  {
    assert forall i :: 0 <= i < |t| ==> (t + [c])[i] == t[i];
  }

  lemma OutgoingAbsent(t: seq<char>, k: char)
    requires k !in Sources(t)
    ensures Outgoing(Pairs(t), k) == []
  {
    var p := Pairs(t);
    assert forall i :: 0 <= i < |p| ==> p[i].start in Sources(t);
    OutgoingNone(p, k);
  }

  lemma {:induction false} OutgoingNone(xs: seq<Edge>, k: char)
    requires forall i :: 0 <= i < |xs| ==> xs[i].start != k
    ensures Outgoing(xs, k) == []
  {
    if xs != [] {
      OutgoingNone(xs[1..], k);
    }
  }

  /** One step of the constructor's loop: appending a letter appends its pair to the list of
      the previous letter, creating that list when the letter is new. */
  lemma BuildEdgeMapSnoc(t: seq<char>, c: char)
    requires |t| >= 1
    ensures BuildEdgeMap(t + [c]) == Appended(BuildEdgeMap(t), Edge(t[|t| - 1], c))
  {
    var e := Edge(t[|t| - 1], c);
    var m := Appended(BuildEdgeMap(t), e);
    SourcesSnoc(t, c);
    forall k | k in m
      ensures m[k] == Outgoing(Pairs(t + [c]), k)
    {
      BuildEdgeMapSnocAt(t, c, k);
      if k == e.start {
        assert m[k] == ListAt(BuildEdgeMap(t), k) + [e];
        assert Outgoing([e], k) == [e];
      } else {
        assert m[k] == BuildEdgeMap(t)[k];
        assert Outgoing([e], k) == [];
      }
    }
    BuildEdgeMapByKeys(m, t + [c]);
  }

  /** A map with the source letters as keys and their outgoing pairs as lists is the built map. */
  lemma BuildEdgeMapByKeys(m: map<char, seq<Edge>>, s: seq<char>)
    requires m.Keys == Sources(s)
    requires forall c :: c in m ==> m[c] == Outgoing(Pairs(s), c)
    ensures m == BuildEdgeMap(s)
  {
  }

  /** The constructor's loop step on position i of s. */
  lemma BuildEdgeMapSnocStep(s: seq<char>, i: nat)
    requires i < |s| - 1
    ensures BuildEdgeMap(s[..i + 2]) == Appended(BuildEdgeMap(s[..i + 1]), Edge(s[i], s[i + 1]))
  {
    assert s[..i + 2] == s[..i + 1] + [s[i + 1]];
    BuildEdgeMapSnoc(s[..i + 1], s[i + 1]);
  }

  lemma BuildEdgeMapSnocAt(t: seq<char>, c: char, k: char)
    requires |t| >= 1
    ensures Outgoing(Pairs(t + [c]), k) == ListAt(BuildEdgeMap(t), k) + Outgoing([Edge(t[|t| - 1], c)], k)
  {
    var e := Edge(t[|t| - 1], c);
    PairsSnoc(t, c);
    OutgoingAppend(Pairs(t), [e], k);
    if k !in Sources(t) {
      OutgoingAbsent(t, k);
    }
  }

  /** Walking a map whose lists are the outgoing pairs of t, from t's first letter, spells
      out the rest of t. */
  lemma {:induction false} WalkRebuilds(m: map<char, seq<Edge>>, t: seq<char>)
    requires |t| >= 1
    requires forall c :: c in m ==> m[c] == Outgoing(Pairs(t), c)
    requires Sources(t) <= m.Keys
    ensures Walk(m, t[0], |t| - 1) == Ok(t[1..])
    decreases |t|
  {
    if |t| >= 2 {
      var m' := PopFirstPair(m, t);
      WalkRebuilds(m', t[1..]);
      assert Walk(m', t[1], |t| - 2) == Ok(t[2..]);
      WalkStep(m, t[0], |t| - 2);
      assert Walk(m, t[0], |t| - 1) == Prepend([t[1]], Ok(t[2..]));
      assert t[1..] == [t[1]] + t[2..];
    } else {
      assert t[1..] == [];
    }
  }

  /** Popping the first edge of t's first letter leaves the outgoing pairs of t[1..]. */
  lemma PopFirstPair(m: map<char, seq<Edge>>, t: seq<char>) returns (m': map<char, seq<Edge>>)
    requires |t| >= 2
    requires forall c :: c in m ==> m[c] == Outgoing(Pairs(t), c)
    requires Sources(t) <= m.Keys
    ensures t[0] in m && m[t[0]] != [] && m[t[0]][0] == Edge(t[0], t[1])
    ensures m' == m[t[0] := m[t[0]][1..]]
    ensures forall c :: c in m' ==> m'[c] == Outgoing(Pairs(t[1..]), c)
    ensures Sources(t[1..]) <= m'.Keys
  {
    PairsCons(t);
    assert t[0] in Sources(t);
    m' := m[t[0] := m[t[0]][1..]];
    forall i | 0 <= i < |t[1..]| - 1
      ensures t[1..][i] in Sources(t)
    {
      assert t[1..][i] == t[i + 1];
    }
  }

  /** One step of the walk, unfolded. */
  lemma WalkStep(m: map<char, seq<Edge>>, c: char, n: nat)
    requires c in m && m[c] != []
    ensures Walk(m, c, n + 1) == Prepend([m[c][0].end], Walk(m[c := m[c][1..]], m[c][0].end, n))
  {
  }

  /** On a freshly built map, `unsafeToString` returns the input sequence exactly. */
  lemma BuildThenReconstruct(s: seq<char>)
    requires |s| >= 1
    ensures Reconstruct(BuildEdgeMap(s), s[0], |s|) == Ok(s)
  {
    WalkRebuilds(BuildEdgeMap(s), s);
    assert [s[0]] + s[1..] == s;
  }

  /** The shape of a freshly built map: every key's list is non-empty, every edge starts at its
      key and ends at a key or at the last letter. */
  lemma BuildEdgeMapShape(s: seq<char>)
    requires |s| >= 1
    ensures forall c :: c in BuildEdgeMap(s) ==> BuildEdgeMap(s)[c] != []
    ensures forall c, e :: c in BuildEdgeMap(s) && e in BuildEdgeMap(s)[c] ==> e.start == c
    ensures forall c, e :: c in BuildEdgeMap(s) && e in BuildEdgeMap(s)[c] ==>
              e.end in BuildEdgeMap(s) || e.end == s[|s| - 1]
  {
    var m := BuildEdgeMap(s);
    var p := Pairs(s);
    forall c | c in m ensures m[c] != [] {
      var i :| 0 <= i < |s| - 1 && s[i] == c;
      assert p[i] in Outgoing(p, c);
    }
    forall c, e: Edge | c in m && e in m[c] ensures e.end in m || e.end == s[|s| - 1] {
      assert e in p;
      var i :| 0 <= i < |p| && p[i] == e;
      if i + 1 < |s| - 1 {
        assert s[i + 1] in Sources(s);
      }
    }
  }

  /** Appending an edge adds exactly that edge to the bag of all edges. */
  lemma AppendedBag(m: map<char, seq<Edge>>, e: Edge)
    ensures EdgeBag(Appended(m, e)) == EdgeBag(m) + multiset{e}
  {
    var l := ListAt(m, e.start);
    EdgeBagSet(m, e.start, l + [e]);
    assert multiset(l + [e]) == multiset(l) + multiset{e};
    if e.start in m {
      EdgeBagRemove(m, e.start);
    } else {
      RemoveAbsent(m, e.start);
    }
  }

  /** The lists of a freshly built map hold exactly the input's pairs, |s| - 1 edges in all. */
  lemma {:induction false} BuildEdgeMapBag(s: seq<char>)
    requires |s| >= 1
    ensures EdgeBag(BuildEdgeMap(s)) == multiset(Pairs(s))
    ensures |EdgeBag(BuildEdgeMap(s))| == |s| - 1
    decreases |s|
  {
    if |s| == 1 {
      assert BuildEdgeMap(s) == map[];
    } else {
      var t := s[..|s| - 1];
      var c := s[|s| - 1];
      assert s == t + [c];
      BuildEdgeMapBag(t);
      BuildEdgeMapSnoc(t, c);
      var e := Edge(t[|t| - 1], c);
      AppendedBag(BuildEdgeMap(t), e);
      PairsSnoc(t, c);
    }
  }

  /** `Collections.shuffle`: an arbitrary permutation, here the swap loop it runs with every
      random index left as a free choice. */
  method Permute(xs: seq<Edge>) returns (ys: seq<Edge>)
    ensures multiset(ys) == multiset(xs)
  {
    ys := xs;
    var i := |ys|;
    while i > 1
      invariant 0 <= i <= |ys|
      invariant multiset(ys) == multiset(xs)
    {
      var j :| 0 <= j < i;
      ys := ys[i - 1 := ys[j]][j := ys[i - 1]];
      i := i - 1;
    }
  }

  /** The graph of a nucleotide sequence. */
  class Traverse {
    var start: char
    var end: char
    var length: int
    var edgeMap: map<char, seq<Edge>>

    /** `new Traverse(sequence)` with `setEdgeMap`'s index loop. */
    constructor (sequence: seq<char>)
      requires |sequence| >= 1
      ensures start == sequence[0] && end == sequence[|sequence| - 1] && length == |sequence|
      ensures edgeMap == BuildEdgeMap(sequence)
    {
      start := sequence[0];
      end := sequence[|sequence| - 1];
      length := |sequence|;
      edgeMap := map[];
      new;
      var i := 0;
      while i < |sequence| - 1
        invariant 0 <= i <= |sequence| - 1
        invariant start == sequence[0] && end == sequence[|sequence| - 1] && length == |sequence|
        invariant edgeMap == BuildEdgeMap(sequence[..i + 1])
      {
        var edges := ListAt(edgeMap, sequence[i]);
        edges := edges + [Edge(sequence[i], sequence[i + 1])];
        edgeMap := edgeMap[sequence[i] := edges];
        BuildEdgeMapSnocStep(sequence, i);
        i := i + 1;
      }
      assert sequence[..|sequence|] == sequence;
    }

    /** A traverse with the given parts, for `deepCopy`. */
    constructor Of(start: char, end: char, length: int, edgeMap: map<char, seq<Edge>>)
      ensures this.start == start && this.end == end && this.length == length
      ensures this.edgeMap == edgeMap
    {
      this.start, this.end, this.length, this.edgeMap := start, end, length, edgeMap;
    }

    /** An independent traverse with the same state. Lists are values here, so copying the
        map copies every list (`copyEdgeMap`/`copyList`). */
    method DeepCopy() returns (t: Traverse)
      ensures fresh(t)
      ensures t.start == start && t.end == end && t.length == length && t.edgeMap == edgeMap
    {
      t := new Traverse.Of(start, end, length, edgeMap);
    }

    /** `alphabet()`: the letters that have a list. */
    function Alphabet(): set<char>
      reads this
    {
      edgeMap.Keys
    }

    /** `getEdgeList(c)` for a letter of the alphabet. */
    function GetEdgeList(c: char): seq<Edge>
      reads this
      requires c in edgeMap
    {
      edgeMap[c]
    }

    /** `removeEdge(e)`; the list of e.start is looked up unguarded, so it must exist. */
    method RemoveEdge(e: Edge) returns (removed: bool)
      requires e.start in edgeMap
      modifies this`edgeMap
      ensures removed <==> e in old(edgeMap)[e.start]
      ensures edgeMap == old(edgeMap)[e.start := RemoveFirst(old(edgeMap)[e.start], e)]
    {
      var list := edgeMap[e.start];
      removed := e in list;
      edgeMap := edgeMap[e.start := RemoveFirst(list, e)];
    }

    /** `appendEdge(e)`; the list of e.start is looked up unguarded, so it must exist. */
    method AppendEdge(e: Edge)
      requires e.start in edgeMap
      modifies this`edgeMap
      ensures edgeMap == Appended(old(edgeMap), e)
    {
      edgeMap := edgeMap[e.start := edgeMap[e.start] + [e]];
    }

    /** `shuffleEdgeLists()`: every list is replaced by a permutation of itself. */
    method ShuffleEdgeLists()
      modifies this`edgeMap
      ensures edgeMap.Keys == old(edgeMap).Keys
      ensures forall c :: c in edgeMap ==> multiset(edgeMap[c]) == multiset(old(edgeMap)[c])
    {
      var todo := edgeMap.Keys;
      while todo != {}
        invariant edgeMap.Keys == old(edgeMap).Keys
        invariant forall c :: c in edgeMap ==> multiset(edgeMap[c]) == multiset(old(edgeMap)[c])
        decreases todo
      {
        var c :| c in todo;
        var shuffled := Permute(edgeMap[c]);
        edgeMap := edgeMap[c := shuffled];
        todo := todo - {c};
      }
    }

    /** `unsafeToString()`: pops edges from a private copy of the map, so the traverse itself
        is left as it was and the result is a function of its state. */
    method UnsafeToString() returns (r: Result<seq<char>>)
      ensures r == Reconstruct(edgeMap, start, length)
    {
      var copy := edgeMap;
      var current := start;
      var result := [start];
      var i := 1;
      while i < length
        invariant 1 <= i && i - 1 <= Steps(length)
        invariant Reconstruct(edgeMap, start, length) == Prepend(result, Walk(copy, current, Steps(length) - (i - 1)))
      {
        if current !in copy {
          return Err(NullPointer);
        }
        if copy[current] == [] {
          return Err(IllegalState);
        }
        var next := copy[current][0].end;
        WalkStep(copy, current, Steps(length) - i);
        PrependTwice(result, [next], Walk(copy[current := copy[current][1..]], next, Steps(length) - i));
        copy := copy[current := copy[current][1..]];
        result := result + [next];
        current := next;
        i := i + 1;
      }
      assert Steps(length) - (i - 1) == 0;
      assert result + [] == result;
      return Ok(result);
    }
  }
}
