/** The edge value type: one observed adjacency (start, end) of the input sequence. */
module Edges {

  datatype Edge = Edge(start: char, end: char)

  /** What `equals(Object o)` can be handed: null, another Edge, or an object of another class. */
  datatype JavaObject = Null | EdgeObject(edge: Edge) | OtherObject

  /** `Edge.equals`: a reference to this same edge has these same fields, so the identity
      shortcut is subsumed by the field comparison. */
  function Equals(e: Edge, o: JavaObject): (r: bool)
    ensures r <==> o == EdgeObject(e)
    ensures o == Null || o == OtherObject ==> !r
  {
    match o
    case Null => false
    case OtherObject => false
    case EdgeObject(f) => e.start == f.start && e.end == f.end
  }

  /** Java's 32-bit two's complement view of an integer. */
  function JavaInt(x: int): (r: int)
    ensures -0x8000_0000 <= r < 0x8000_0000
    ensures -0x8000_0000 <= x < 0x8000_0000 ==> r == x
  {
    (x + 0x8000_0000) % 0x1_0000_0000 - 0x8000_0000
  }

  /** `Objects.hash(start, end)`, i.e. `31 * (31 * 1 + start) + end` in int arithmetic,
      where a Character hashes to its code unit. */
  function HashCode(e: Edge): (h: int)
    ensures 961 <= h < 0x8000_0000
    ensures h == 961 + 31 * (e.start as int) + e.end as int
  {
    JavaInt(31 * JavaInt(31 * 1 + e.start as int) + e.end as int)
  }

  /** Equal edges hash alike, as `equals`/`hashCode` require. */
  lemma EqualsImpliesSameHash(e: Edge, f: Edge)
    requires Equals(e, EdgeObject(f))
    ensures HashCode(e) == HashCode(f)
  {
  }

  /** The letters A, C, G and T. */
  predicate IsNucleotide(c: char) {
    c == 'A' || c == 'C' || c == 'G' || c == 'T'
  }

  /** The adjacent pairs of a sequence, in order: the i-th is (s[i], s[i+1]). */
  function Pairs(s: seq<char>): (r: seq<Edge>)
    ensures |r| == if |s| == 0 then 0 else |s| - 1
    ensures forall i :: 0 <= i < |r| ==> r[i] == Edge(s[i], s[i + 1])
  {
    if |s| < 2 then [] else seq(|s| - 1, i requires 0 <= i < |s| - 1 => Edge(s[i], s[i + 1]))
  }

  /** The start letters of a list of edges. */
  function Starts(xs: seq<Edge>): (r: seq<char>)
    ensures |r| == |xs| && forall i :: 0 <= i < |xs| ==> r[i] == xs[i].start
  {
    seq(|xs|, i requires 0 <= i < |xs| => xs[i].start)
  }

  /** The end letters of a list of edges. */
  function Ends(xs: seq<Edge>): (r: seq<char>)
    ensures |r| == |xs| && forall i :: 0 <= i < |xs| ==> r[i] == xs[i].end
  {
    seq(|xs|, i requires 0 <= i < |xs| => xs[i].end)
  }

  lemma StartsCons(xs: seq<Edge>)
    requires xs != []
    ensures Starts(xs) == [xs[0].start] + Starts(xs[1..])
  {
    assert forall i :: 0 <= i < |xs| ==> Starts(xs)[i] == ([xs[0].start] + Starts(xs[1..]))[i];
  }

  lemma EndsCons(xs: seq<Edge>)
    requires xs != []
    ensures Ends(xs) == [xs[0].end] + Ends(xs[1..])
  {
    assert forall i :: 0 <= i < |xs| ==> Ends(xs)[i] == ([xs[0].end] + Ends(xs[1..]))[i];
  }

  /** The pairs of a sequence start at every letter but the last and end at every letter but the first. */
  lemma PairsLetters(s: seq<char>)
    requires |s| >= 1
    ensures Starts(Pairs(s)) == s[..|s| - 1]
    ensures Ends(Pairs(s)) == s[1..]
  {
  }

  /** Peeling the first letter off a sequence peels its first pair off the pairs. */
  lemma PairsCons(s: seq<char>)
    requires |s| >= 2
    ensures Pairs(s) == [Edge(s[0], s[1])] + Pairs(s[1..])
  {
  }

  /** Appending a letter appends one pair. */
  lemma PairsSnoc(s: seq<char>, c: char)
    requires |s| >= 1
    ensures Pairs(s + [c]) == Pairs(s) + [Edge(s[|s| - 1], c)]
  {
  }
}
