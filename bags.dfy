/** Multisets gathered from an edge map: all its edges, and the letters those edges end at.
    Both are folds over a finite collection in an arbitrary order; the "Remove" lemmas
    say the order does not matter. */
module Bags {
  import opened Edges

  /** Every edge held in any list of the map, with multiplicity. */
  ghost function EdgeBag(m: map<char, seq<Edge>>): multiset<Edge>
    decreases |m|
  {
    if m == map[] then multiset{}
    else
      var k :| k in m;
      assert (m - {k}).Keys == m.Keys - {k};
      multiset(m[k]) + EdgeBag(m - {k})
  }

  /** The end letters of a multiset of edges, with multiplicity. */
  ghost function EndsBag(b: multiset<Edge>): multiset<char>
    decreases |b|
  {
    if b == multiset{} then multiset{}
    else
      var e :| e in b;
      multiset{e.end} + EndsBag(b - multiset{e})
  }

  lemma {:induction false} EdgeBagRemove(m: map<char, seq<Edge>>, k: char)
    requires k in m
    ensures EdgeBag(m) == multiset(m[k]) + EdgeBag(m - {k})
    decreases |m|
  {
    var j :| j in m && EdgeBag(m) == multiset(m[j]) + EdgeBag(m - {j});
    if j != k {
      var mj, mk := m - {j}, m - {k};
      assert mj.Keys == m.Keys - {j} && mk.Keys == m.Keys - {k};
      EdgeBagRemove(mj, k);
      EdgeBagRemove(mk, j);
      assert mj[k] == m[k] && mk[j] == m[j];
      RemoveCommutes(m, j, k);
      SwapSums(multiset(m[j]), multiset(m[k]), EdgeBag(mj), EdgeBag(mk), EdgeBag(mj - {k}));
    }
  }

  lemma RemoveCommutes(m: map<char, seq<Edge>>, j: char, k: char)
    ensures (m - {j}) - {k} == (m - {k}) - {j}
  {
    assert ((m - {j}) - {k}).Keys == ((m - {k}) - {j}).Keys;
  }

  lemma SwapSums(a: multiset<Edge>, b: multiset<Edge>, x: multiset<Edge>, y: multiset<Edge>, rest: multiset<Edge>)
    requires x == b + rest && y == a + rest
    ensures a + x == b + y
  {
  }

  /** Replacing (or adding) the list of one key replaces its share of the bag. */
  lemma EdgeBagSet(m: map<char, seq<Edge>>, k: char, xs: seq<Edge>)
    ensures EdgeBag(m[k := xs]) == EdgeBag(m - {k}) + multiset(xs)
  {
    EdgeBagRemove(m[k := xs], k);
    RemoveUpdated(m, k, xs);
  }

  lemma RemoveUpdated(m: map<char, seq<Edge>>, k: char, xs: seq<Edge>)
    ensures m[k := xs] - {k} == m - {k}
  {
  }

  lemma RemoveAbsent(m: map<char, seq<Edge>>, k: char)
    requires k !in m
    ensures m - {k} == m
  {
  }

  /** An edge is in the bag exactly when some list holds it. */
  lemma {:induction false} EdgeBagMember(m: map<char, seq<Edge>>, e: Edge)
    ensures e in EdgeBag(m) <==> exists k :: k in m && e in m[k]
    decreases |m|
  {
    if m != map[] {
      var k :| k in m;
      EdgeBagRemove(m, k);
      var mk := m - {k};
      assert mk.Keys == m.Keys - {k};
      EdgeBagMember(mk, e);
      if e in EdgeBag(m) && e !in m[k] {
        var k' :| k' in mk && e in mk[k'];
        assert k' in m && e in m[k'];
      }
      if exists k' :: k' in m && e in m[k'] {
        var k' :| k' in m && e in m[k'];
        if k' != k {
          assert k' in mk && e in mk[k'];
        }
      }
    }
  }

  /** Two maps with the same keys whose lists are permutations of each other hold the same bag. */
  lemma {:induction false} EdgeBagPerKey(m: map<char, seq<Edge>>, m': map<char, seq<Edge>>)
    requires m.Keys == m'.Keys
    requires forall k :: k in m ==> multiset(m[k]) == multiset(m'[k])
    ensures EdgeBag(m) == EdgeBag(m')
    decreases |m|
  {
    if m != map[] {
      var k :| k in m;
      EdgeBagRemove(m, k);
      EdgeBagRemove(m', k);
      var mk, mk' := m - {k}, m' - {k};
      assert mk.Keys == m.Keys - {k};
      EdgeBagPerKey(mk, mk');
    }
  }

  lemma EndsBagUnfold(b: multiset<Edge>)
    requires b != multiset{}
    ensures exists d :: d in b && EndsBag(b) == multiset{d.end} + EndsBag(b - multiset{d})
  {
  }

  lemma TakeOut(b: multiset<Edge>, d: Edge, e: Edge)
    requires d in b && e in b && d != e
    ensures e in b - multiset{d} && |b - multiset{d}| < |b|
    ensures (b - multiset{d}) - multiset{e} == (b - multiset{e}) - multiset{d}
  {
  }

  lemma {:induction false} EndsBagRemove(b: multiset<Edge>, e: Edge)
    requires e in b
    ensures EndsBag(b) == multiset{e.end} + EndsBag(b - multiset{e})
    decreases |b|
  {
    EndsBagUnfold(b);
    var d :| d in b && EndsBag(b) == multiset{d.end} + EndsBag(b - multiset{d});
    if d != e {
      TakeOut(b, d, e);
      TakeOut(b, e, d);
      EndsBagRemove(b - multiset{d}, e);
      EndsBagRemove(b - multiset{e}, d);
    }
  }

  lemma SeqBagCons(xs: seq<Edge>)
    requires xs != []
    ensures xs[0] in multiset(xs) && multiset(xs) - multiset{xs[0]} == multiset(xs[1..])
    ensures Ends(xs) == [xs[0].end] + Ends(xs[1..])
  {
    assert multiset(xs) == multiset{xs[0]} + multiset(xs[1..]) by {
      assert xs == [xs[0]] + xs[1..];
    }
    EndsCons(xs);
  }

  /** The ends of the multiset of a list are the multiset of its ends. */
  lemma {:induction false} EndsBagOfSeq(xs: seq<Edge>)
    ensures EndsBag(multiset(xs)) == multiset(Ends(xs))
  {
    if xs != [] {
      SeqBagCons(xs);
      EndsBagRemove(multiset(xs), xs[0]);
      EndsBagOfSeq(xs[1..]);
    }
  }
}
