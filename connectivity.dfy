/** The connectivity test of both drivers: flags spread backwards along the picked edges
    from the final letter, pass after pass. */
module Connectivity {
  import opened Edges

  /** From c the picked edges lead to end in at most n steps. */
  ghost predicate ReachesWithin(picks: seq<Edge>, c: char, end: char, n: nat)
    decreases n
  {
    c == end ||
    (n > 0 && exists j :: 0 <= j < |picks| && picks[j].start == c && ReachesWithin(picks, picks[j].end, end, n - 1))
  }

  /** Every letter reaches end along the picked edges, in at most one step per pick. */
  ghost predicate ConnectedToEnd(picks: seq<Edge>, end: char, letters: set<char>) {
    forall c :: c in letters ==> ReachesWithin(picks, c, end, |picks|)
  }

  /** Each ranked letter other than end has a picked edge to a letter of smaller rank. */
  predicate Descends(picks: seq<Edge>, end: char, rank: map<char, nat>) {
    forall c :: c in rank && c != end ==>
      exists j :: 0 <= j < |picks| && picks[j].start == c && picks[j].end in rank && rank[picks[j].end] < rank[c]
  }

  /** A certificate that the picks connect every letter to end. */
  predicate Certified(picks: seq<Edge>, end: char, letters: set<char>, rank: map<char, nat>) {
    letters <= rank.Keys && end in rank && Descends(picks, end, rank)
  }

  /** Ranking a new letter after all others keeps the ranks descending, given a picked edge
      from it to a ranked letter. */
  lemma DescendsExtend(picks: seq<Edge>, end: char, rank: map<char, nat>, k: nat, clock: nat)
    requires Descends(picks, end, rank)
    requires k < |picks| && picks[k].end in rank && picks[k].start !in rank
    requires forall c :: c in rank ==> rank[c] < clock
    ensures Descends(picks, end, rank[picks[k].start := clock])
  {
    var rank' := rank[picks[k].start := clock];
    forall c | c in rank' && c != end
      ensures exists j :: 0 <= j < |picks| && picks[j].start == c && picks[j].end in rank' && rank'[picks[j].end] < rank'[c]
    {
      if c == picks[k].start {
        assert picks[k].end in rank' && rank'[picks[k].end] < rank'[c];
      } else {
        var j :| 0 <= j < |picks| && picks[j].start == c && picks[j].end in rank && rank[picks[j].end] < rank[c];
        assert picks[j].end in rank' && rank'[picks[j].end] < rank'[c];
      }
    }
  }

  /** The flags only ever grow, and the flags set are ranked up to the clock. */
  ghost predicate FlagsRanked(flags: map<char, bool>, letters: set<char>, end: char, picks: seq<Edge>,
                             rank: map<char, nat>, clock: nat) {
    letters + {end} <= flags.Keys &&
    (forall c :: c in flags && c !in letters && c != end ==> flags[c]) &&
    flags[end] &&
    (forall c :: c in flags && flags[c] ==> c in rank) &&
    end in rank &&
    (forall c :: c in rank ==> rank[c] < clock) &&
    Descends(picks, end, rank)
  }

  lemma {:induction false} ReachesMonotone(picks: seq<Edge>, c: char, end: char, a: nat, b: nat)
    requires a <= b && ReachesWithin(picks, c, end, a)
    ensures ReachesWithin(picks, c, end, b)
    decreases a
  {
    if c != end {
      var j :| 0 <= j < |picks| && picks[j].start == c && ReachesWithin(picks, picks[j].end, end, a - 1);
      ReachesMonotone(picks, picks[j].end, end, a - 1, b - 1);
    }
  }

  /** The picks whose start ranks no higher than c. */
  function Below(picks: seq<Edge>, rank: map<char, nat>, c: char): set<int>
    requires c in rank
  {
    set j | 0 <= j < |picks| && picks[j].start in rank && rank[picks[j].start] <= rank[c]
  }

  lemma {:induction false} IndexSetBound(n: nat, a: set<int>)
    requires forall j :: j in a ==> 0 <= j < n
    ensures |a| <= n
  {
    if n > 0 {
      IndexSetBound(n - 1, a - {n - 1});
    } else {
      assert forall j :: j !in a;
      assert a == {};
    }
  }

  lemma SubsetCard(a: set<int>, b: set<int>)
    requires a <= b
    ensures |a| <= |b|
  {
    assert b == a + (b - a);
    assert a * (b - a) == {};
  }

  /** A ranked letter reaches end within as many steps as there are picks ranked no higher. */
  lemma {:induction false} RankedReaches(picks: seq<Edge>, end: char, letters: set<char>, rank: map<char, nat>, c: char)
    requires Certified(picks, end, letters, rank) && c in rank
    ensures ReachesWithin(picks, c, end, |Below(picks, rank, c)|)
    decreases rank[c]
  {
    if c != end {
      var j :| 0 <= j < |picks| && picks[j].start == c && picks[j].end in rank && rank[picks[j].end] < rank[c];
      var u := picks[j].end;
      assert j in Below(picks, rank, c);
      RankedReaches(picks, end, letters, rank, u);
      assert Below(picks, rank, u) <= Below(picks, rank, c) - {j};
      SubsetCard(Below(picks, rank, u), Below(picks, rank, c) - {j});
      ReachesMonotone(picks, u, end, |Below(picks, rank, u)|, |Below(picks, rank, c)| - 1);
    }
  }

  /** A certificate shows the picks connected to end. */
  lemma CertifiedConnected(picks: seq<Edge>, end: char, letters: set<char>, rank: map<char, nat>)
    requires Certified(picks, end, letters, rank)
    ensures ConnectedToEnd(picks, end, letters)
  {
    forall c | c in letters ensures ReachesWithin(picks, c, end, |picks|) {
      RankedReaches(picks, end, letters, rank, c);
      IndexSetBound(|picks|, Below(picks, rank, c));
      ReachesMonotone(picks, c, end, |Below(picks, rank, c)|, |picks|);
    }
  }

  /** After a pass, the flags reach one step further back than they did before it. */
  lemma PassCompletes(picks: seq<Edge>, letters: set<char>, end: char,
                      before: map<char, bool>, after: map<char, bool>, i: nat)
    requires forall j :: 0 <= j < |picks| ==> picks[j].end in letters || picks[j].end == end
    requires letters + {end} <= before.Keys && end in after && after[end]
    requires forall c :: (c in letters || c == end) && ReachesWithin(picks, c, end, i) ==> before[c]
    requires forall j :: 0 <= j < |picks| && before[picks[j].end] ==> picks[j].start in after && after[picks[j].start]
    ensures forall c :: (c in letters || c == end) && ReachesWithin(picks, c, end, i + 1) ==> c in after && after[c]
  {
    forall c | (c in letters || c == end) && ReachesWithin(picks, c, end, i + 1)
      ensures c in after && after[c]
    {
      if c != end {
        var j :| 0 <= j < |picks| && picks[j].start == c && ReachesWithin(picks, picks[j].end, end, i);
        assert before[picks[j].end];
      }
    }
  }

  /** The flags before the first pass: false for every letter, true at end. */
  function Initial(letters: set<char>, end: char): (flags: map<char, bool>)
    ensures flags.Keys == letters + {end}
  {
    map c | c in letters + {end} :: c == end
  }

  /** What one pass does to the flags from the k-th pick on: a pick whose end is flagged
      flags its start, the picks taken in their order. */
  function PassFrom(picks: seq<Edge>, k: nat, flags: map<char, bool>): map<char, bool>
    requires k <= |picks|
    decreases |picks| - k
  {
    if k == |picks| then flags else PassFrom(picks, k + 1, Step(flags, picks[k]))
  }

  /** The flags after looking at one pick. */
  function Step(flags: map<char, bool>, e: Edge): map<char, bool> {
    if e.end in flags && flags[e.end] then flags[e.start := true] else flags
  }

  function Pass(picks: seq<Edge>, flags: map<char, bool>): map<char, bool> {
    PassFrom(picks, 0, flags)
  }

  /** The flags after n passes. */
  function Iterate(picks: seq<Edge>, flags: map<char, bool>, n: nat): map<char, bool> {
    if n == 0 then flags else Pass(picks, Iterate(picks, flags, n - 1))
  }

  /** No flag is false (`!connected.containsValue(false)`). */
  predicate AllSet(flags: map<char, bool>) {
    forall c :: c in flags ==> flags[c]
  }

  /** The verdict of the flag loop: after `passes` passes no flag is false. */
  predicate Accepts(picks: seq<Edge>, letters: set<char>, end: char, passes: int) {
    passes >= 1 && AllSet(Iterate(picks, Initial(letters, end), passes))
  }

  /** A pass never clears a flag, so once no flag is false none becomes false. */
  lemma {:induction false} PassFromKeepsAllSet(picks: seq<Edge>, k: nat, flags: map<char, bool>)
    requires k <= |picks| && AllSet(flags)
    ensures AllSet(PassFrom(picks, k, flags))
    decreases |picks| - k
  {
    if k < |picks| {
      PassFromKeepsAllSet(picks, k + 1, Step(flags, picks[k]));
    }
  }

  lemma {:induction false} IterateKeepsAllSet(picks: seq<Edge>, flags: map<char, bool>, i: nat, n: nat)
    requires i <= n && AllSet(Iterate(picks, flags, i))
    ensures AllSet(Iterate(picks, flags, n))
    decreases n - i
  {
    if i < n {
      PassFromKeepsAllSet(picks, 0, Iterate(picks, flags, i));
      IterateKeepsAllSet(picks, flags, i + 1, n);
    }
  }

  /** A pass only adds flags and sets them: no key is lost and no flag is cleared. */
  lemma {:induction false} PassFromGrows(picks: seq<Edge>, k: nat, flags: map<char, bool>)
    requires k <= |picks|
    ensures flags.Keys <= PassFrom(picks, k, flags).Keys
    ensures forall c :: c in flags && flags[c] ==> PassFrom(picks, k, flags)[c]
    decreases |picks| - k
  {
    if k < |picks| {
      PassFromGrows(picks, k + 1, Step(flags, picks[k]));
    }
  }

  /** A flag outside `known` is never false: a pass only creates keys with a set flag. */
  lemma {:induction false} PassFromOutside(picks: seq<Edge>, k: nat, flags: map<char, bool>, known: set<char>)
    requires k <= |picks|
    requires forall c :: c in flags && c !in known ==> flags[c]
    ensures forall c :: c in PassFrom(picks, k, flags) && c !in known ==> PassFrom(picks, k, flags)[c]
    decreases |picks| - k
  {
    if k < |picks| {
      PassFromOutside(picks, k + 1, Step(flags, picks[k]), known);
    }
  }

  /** A pick whose end is flagged before the pass reaches it has its start flagged after. */
  lemma {:induction false} PassFromSets(picks: seq<Edge>, k: nat, flags: map<char, bool>, j: nat)
    requires k <= j < |picks| && picks[j].end in flags && flags[picks[j].end]
    ensures picks[j].start in PassFrom(picks, k, flags) && PassFrom(picks, k, flags)[picks[j].start]
    decreases j - k
  {
    PassFromGrows(picks, k + 1, Step(flags, picks[k]));
    if k < j {
      PassFromSets(picks, k + 1, Step(flags, picks[k]), j);
    }
  }

  /** After n passes every letter that reaches end in at most n steps is flagged. */
  lemma {:induction false} IterateComplete(picks: seq<Edge>, letters: set<char>, end: char, n: nat)
    requires forall j :: 0 <= j < |picks| ==> picks[j].end in letters || picks[j].end == end
    ensures letters + {end} <= Iterate(picks, Initial(letters, end), n).Keys
    ensures forall c :: (c in letters || c == end) && ReachesWithin(picks, c, end, n) ==>
      c in Iterate(picks, Initial(letters, end), n) && Iterate(picks, Initial(letters, end), n)[c]
  {
    if n > 0 {
      var before := Iterate(picks, Initial(letters, end), n - 1);
      var after := Pass(picks, before);
      IterateComplete(picks, letters, end, n - 1);
      PassFromGrows(picks, 0, before);
      forall j | 0 <= j < |picks| && before[picks[j].end]
        ensures picks[j].start in after && after[picks[j].start]
      {
        PassFromSets(picks, 0, before, j);
      }
      PassCompletes(picks, letters, end, before, after, n - 1);
    }
  }

  /** Flags outside the letters and end are never false. */
  lemma {:induction false} IterateOutside(picks: seq<Edge>, letters: set<char>, end: char, n: nat)
    ensures forall c :: c in Iterate(picks, Initial(letters, end), n) && c !in letters + {end} ==>
      Iterate(picks, Initial(letters, end), n)[c]
  {
    if n > 0 {
      IterateOutside(picks, letters, end, n - 1);
      PassFromOutside(picks, 0, Iterate(picks, Initial(letters, end), n - 1), letters + {end});
    }
  }

  /** Completeness of the flag loop: when every letter reaches end in at most `passes` steps,
      it accepts. */
  lemma ReachAccepts(picks: seq<Edge>, letters: set<char>, end: char, passes: int)
    requires forall j :: 0 <= j < |picks| ==> picks[j].end in letters || picks[j].end == end
    ensures passes >= 1 && (forall c :: c in letters ==> ReachesWithin(picks, c, end, passes)) ==>
      Accepts(picks, letters, end, passes)
  {
    if passes >= 1 && forall c :: c in letters ==> ReachesWithin(picks, c, end, passes) {
      IterateComplete(picks, letters, end, passes);
      IterateOutside(picks, letters, end, passes);
    }
  }

  /** `connected` starts false for every letter (the loop over the alphabet) and true at end. */
  method InitialFlags(letters: set<char>, end: char) returns (flags: map<char, bool>)
    ensures flags.Keys == letters + {end}
    ensures forall c :: c in flags ==> (flags[c] <==> c == end)
    ensures flags == Initial(letters, end)
  {
    flags := map[];
    var todo := letters;
    while todo != {}
      invariant flags.Keys == letters - todo
      invariant todo <= letters
      invariant forall c :: c in flags ==> !flags[c]
      decreases todo
    {
      var key :| key in todo;
      flags := flags[key := false];
      todo := todo - {key};
    }
    flags := flags[end := true];
    InitialIs(flags, letters, end);
  }

  lemma InitialIs(flags: map<char, bool>, letters: set<char>, end: char)
    requires flags.Keys == letters + {end}
    requires forall c :: c in flags ==> (flags[c] <==> c == end)
    ensures flags == Initial(letters, end)
  {
  }

  /** Setting the flag of a pick's start, whose end is flagged, keeps the flags ranked; a letter
      flagged for the first time is ranked at the current clock. */
  lemma FlagStart(flags: map<char, bool>, letters: set<char>, end: char, picks: seq<Edge>,
                  rank: map<char, nat>, clock: nat, k: nat)
    requires FlagsRanked(flags, letters, end, picks, rank, clock)
    requires k < |picks| && picks[k].end in flags && flags[picks[k].end]
    ensures picks[k].start in rank ==>
      FlagsRanked(flags[picks[k].start := true], letters, end, picks, rank, clock)
    ensures picks[k].start !in rank ==>
      FlagsRanked(flags[picks[k].start := true], letters, end, picks, rank[picks[k].start := clock], clock + 1)
  {
    if picks[k].start !in rank {
      DescendsExtend(picks, end, rank, k, clock);
    }
  }

  /** One pass of the flag loop over the picks, in order. */
  method OnePass(picks: seq<Edge>, letters: set<char>, end: char, flags: map<char, bool>,
                 ghost rank: map<char, nat>, ghost clock: nat)
    returns (flags': map<char, bool>, ghost rank': map<char, nat>, ghost clock': nat)
    requires forall j :: 0 <= j < |picks| ==> picks[j].end in letters || picks[j].end == end
    requires FlagsRanked(flags, letters, end, picks, rank, clock)
    ensures FlagsRanked(flags', letters, end, picks, rank', clock')
    ensures flags' == Pass(picks, flags)
  {
    flags', rank', clock' := flags, rank, clock;
    var k := 0;
    while k < |picks|
      invariant 0 <= k <= |picks|
      invariant FlagsRanked(flags', letters, end, picks, rank', clock')
      invariant PassFrom(picks, k, flags') == Pass(picks, flags)
    {
      var e := picks[k];
      ghost var before := flags';
      if flags'[e.end] {
        FlagStart(flags', letters, end, picks, rank', clock', k);
        flags' := flags'[e.start := true];
        if e.start !in rank' {
          rank' := rank'[e.start := clock'];
          clock' := clock' + 1;
        }
      }
      assert flags' == Step(before, e);
      k := k + 1;
    }
  }

  /** The flag loop: `passes` times over all picks, set the flag of an edge's start when its end
      is flagged, and report success as soon as no flag is false. Every edge must end at a letter
      or at end, since an unknown letter has no flag to read. The ghost rank is the moment each
      flag was first set. */
  method PropagateFlags(picks: seq<Edge>, letters: set<char>, end: char, passes: int)
    returns (r: bool, ghost rank: map<char, nat>)
    requires forall j :: 0 <= j < |picks| ==> picks[j].end in letters || picks[j].end == end
    ensures r ==> Certified(picks, end, letters, rank)
    ensures passes <= 0 ==> !r
    ensures passes >= 1 && (forall c :: c in letters ==> ReachesWithin(picks, c, end, passes)) ==> r
    ensures r <==> Accepts(picks, letters, end, passes)
  {
    var flags := InitialFlags(letters, end);
    rank := map[end := 0];
    ghost var clock: nat := 1;
    StartFlags(flags, letters, end, picks);
    VerdictFromIterate(picks, flags, 0, passes);
    var i := 0;
    while i < passes
      invariant 0 <= i && (i <= passes || i == 0)
      invariant FlagsRanked(flags, letters, end, picks, rank, clock)
      invariant VerdictFrom(picks, flags, i, passes) == Accepts(picks, letters, end, passes)
    {
      flags, rank, clock := OnePass(picks, letters, end, flags, rank, clock);
      if AllSet(flags) {
        AllFlagged(flags, letters, end, picks, rank, clock);
        return true, rank;
      }
      i := i + 1;
    }
    ReachAccepts(picks, letters, end, passes);
    return false, rank;
  }

  /** The verdict of the loop from pass i on, given the flags before that pass: true as soon as
      a pass leaves no flag false. */
  ghost function VerdictFrom(picks: seq<Edge>, flags: map<char, bool>, i: nat, passes: int): bool
    decreases passes - i
  {
    if i >= passes then false
    else AllSet(Pass(picks, flags)) || VerdictFrom(picks, Pass(picks, flags), i + 1, passes)
  }

  /** Stopping early changes nothing: once no flag is false, later passes keep it so. Hence the
      loop's verdict from pass i is the verdict after all passes. */
  lemma {:induction false} VerdictFromIterate(picks: seq<Edge>, flags: map<char, bool>, i: nat, passes: int)
    requires i <= passes || i == 0
    ensures VerdictFrom(picks, Iterate(picks, flags, i), i, passes) <==>
      i < passes && AllSet(Iterate(picks, flags, passes))
    decreases passes - i
  {
    if i < passes {
      VerdictFromIterate(picks, flags, i + 1, passes);
      if AllSet(Iterate(picks, flags, i + 1)) {
        IterateKeepsAllSet(picks, flags, i + 1, passes);
      }
    }
  }

  /** Before the first pass only end is flagged and ranked, and only end reaches end in no step. */
  lemma StartFlags(flags: map<char, bool>, letters: set<char>, end: char, picks: seq<Edge>)
    requires flags.Keys == letters + {end}
    requires forall c :: c in flags ==> (flags[c] <==> c == end)
    ensures FlagsRanked(flags, letters, end, picks, map[end := 0], 1)
    ensures forall c :: (c in letters || c == end) && ReachesWithin(picks, c, end, 0) ==> c in flags && flags[c]
  {
  }

  /** With every flag set, the ranks certify the picks. */
  lemma AllFlagged(flags: map<char, bool>, letters: set<char>, end: char, picks: seq<Edge>,
                   rank: map<char, nat>, clock: nat)
    requires FlagsRanked(flags, letters, end, picks, rank, clock)
    requires forall c :: c in flags ==> flags[c]
    ensures Certified(picks, end, letters, rank)
  {
  }
}
