# shufflegene in Dafny

A model of shufflegene. This Java library implements the Altschul–Erickson dinucleotide shuffle:
given a nucleotide sequence over the letters A, C, G and T, it returns a random sequence with
the same length, the same first and last letter, and the same count of every adjacent pair of
letters (every *dinucleotide*).

The library builds a *traverse*. This is a map from each letter to the ordered list of edges
(letter pairs) that leave it in the input. The shuffle works in three steps:

1. Pick one outgoing edge of every letter except the final one, such that the picked edges lead
   every letter to the final letter.
2. Remove the picked edges, shuffle every list, and put the picked edges back at the ends of
   their lists.
3. Read the traverse back by walking from the first letter and always taking the first unused
   edge.

The repository holds two versions of the driver, and both are modelled:

- `org.pvv.shufflegene`: a static `shuffleSequence`. It is modelled by module `Shufflegene`
  in `shuffle.dfy`.
- `com.oalmelid.dinucleotide`: a shuffler object that builds its traverse once and shuffles a
  deep copy on every call. It is modelled by module `Dinucleotide` in `legacy.dfy`.

Modules:

- `Outcomes` (`outcomes.dfy`): the exceptions the source throws, as a `Result` datatype.
- `Edges` (`edges.dfy`): the `Edge` value with its `equals` and `hashCode`, and the pairs of a
  sequence.
- `Bags` (`bags.dfy`): multisets gathered from an edge map.
- `Traversal` (`traverse.dfy`): the `Traverse` class, with its edge map as a
  `map<char, seq<Edge>>` field that its methods reassign, and the functions that specify them.
  These are `BuildEdgeMap` for `setEdgeMap`, `RemoveFirst` for `ArrayList.remove`, and
  `Walk`/`Reconstruct` for `unsafeToString`.
- `Euler` (`euler.dfy`): the Eulerian-path argument. A balanced edge map whose last edges lead
  toward the final letter is walked completely by `unsafeToString`, with no failure.
- `Connectivity` (`connectivity.dfy`): the flag loop shared by `isConnectedToEnd` and
  `isConnected`. Its verdict is specified by `Accepts`: the flags computed pass by pass
  (`Initial`, `Pass`, `Iterate`) have no false entry after the last pass. When it accepts, it
  produces a rank certificate: each letter has a picked edge to a letter of lower rank.
- `Shuffling` (`shuffling.dfy`): the random pick, the remove/shuffle/append rewiring, and the
  theorem that a rewired traverse reads back as a dinucleotide shuffle.

Randomness (`Random.nextInt`, `Collections.shuffle`) and `HashMap` iteration order are modelled
as nondeterministic choice (`:|`). Every property proved therefore holds for every possible
outcome of the random draws. The endless retry loop of `pickEdges` becomes a loop bounded by a
`maxAttempts` parameter. Running out of attempts is reported as `Err(AttemptsExhausted)`.

Where the two drivers differ, the model follows the code:

- The `org` `validSequence` requires at least two letters (`{2,}`). The `com` one accepts a
  single letter (`+`).
- The `org` `isConnectedToEnd` runs one pass per pick. So it rejects an empty pick list, and a
  sequence such as "AA", whose only letter with a list is its final letter, is never shuffled
  (`Shufflegene.ShuffleRepeatedLetter`).
- The `com` `isConnected` runs one pass fewer than there are letters with a list. So it rejects
  every pick when there is at most one such letter, and "AC" is never shuffled
  (`Dinucleotide.ShuffleTwoLetters`). With more letters it can still be too few passes, because
  the end letter has no list and so is not counted. A pick that connects every letter can then
  be rejected. For "ACGT", the only pick is A->C, C->G, G->T. Visited in the order A, C, G, it
  needs three passes, but only two are run (`Dinucleotide.RejectsConnectedPick`).

## Model

| member | source | states |
|---|---|---|
| Edges.Equals | src/main/java/org/pvv/shufflegene/Edge.java:15-20 | An edge equals exactly an edge object with the same start and end; null and objects of another class are never equal |
| Edges.HashCode | src/main/java/org/pvv/shufflegene/Edge.java:23-25 | `Objects.hash(start, end)` in 32-bit arithmetic never wraps for 16-bit chars: it is 961 + 31·start + end, between 961 and 2^31 |
| Edges.EqualsImpliesSameHash | src/main/java/org/pvv/shufflegene/Edge.java:14-25 | Equal edges have equal hash codes (the equals/hashCode contract) |
| Traversal.Traverse.constructor | src/main/java/org/pvv/shufflegene/Traverse.java:21-57 | The constructor's index loop sets start, end and length from the sequence and leaves exactly the edge map `BuildEdgeMap(sequence)`, with each letter's pairs in order |
| Traversal.BuildEdgeMapKeys | src/main/java/org/pvv/shufflegene/Traverse.java:128-130 | `alphabet()` (the key set) is exactly the set of letters that start an adjacent pair, so never the final letter alone |
| Traversal.BuildEdgeMapBag | src/main/java/org/pvv/shufflegene/Traverse.java:51-55 | The lists built hold every adjacent pair of the sequence once, one edge fewer than there are letters |
| Traversal.BuildThenReconstruct | src/main/java/org/pvv/shufflegene/Traverse.java:103-121 | Reading back a freshly built traverse gives the original sequence |
| Traversal.WalkRebuilds | src/main/java/org/pvv/shufflegene/Traverse.java:111-115 | On the lists of a sequence's pairs, the pop loop from its first letter visits the rest of that sequence in order |
| Traversal.Walk | src/main/java/org/pvv/shufflegene/Traverse.java:111-117 | The pop loop either yields one letter per step or fails with a missing list or an empty list |
| Traversal.Reconstruct | src/main/java/org/pvv/shufflegene/Traverse.java:103-121 | A successful read-back has length steps+1 and starts with `start`; a failure is one of the two exceptions (what it spells is stated by `Euler.ReconstructConsumes`) |
| Traversal.Traverse.UnsafeToString | src/main/java/org/pvv/shufflegene/Traverse.java:103-121 | The loop over a private copy of the map returns exactly `Reconstruct` of the traverse's state and changes nothing |
| Traversal.Traverse.DeepCopy | src/main/java/com/oalmelid/dinucleotide/DinucleotideShuffle.java:94 | `traverse.deepCopy()` yields a fresh traverse with the same start, end, length and lists, sharing nothing with the original |
| Traversal.Traverse.RemoveEdge | src/main/java/org/pvv/shufflegene/Traverse.java:65-67 | Reports true exactly when the edge was in its start's list; that list loses its first copy of the edge and no other list changes |
| Traversal.RemoveFirst | src/main/java/org/pvv/shufflegene/Traverse.java:65-67 | `remove(Object)` leaves a list without the edge unchanged and shortens a list with it by one |
| Traversal.RemoveFirstBag | src/main/java/org/pvv/shufflegene/Traverse.java:65-67 | Removal takes out exactly one copy of the edge, and nothing else |
| Traversal.RemoveFirstAt | src/main/java/org/pvv/shufflegene/Traverse.java:65-67 | Only the first occurrence goes; the elements before and after it keep their order |
| Traversal.IndexOf | src/main/java/org/pvv/shufflegene/Traverse.java:65-67 | The first position holding the edge: no copy comes before it |
| Traversal.Traverse.AppendEdge | src/main/java/org/pvv/shufflegene/Traverse.java:74-76 | The edge is added last to its start's list and no other list changes |
| Traversal.Traverse.ShuffleEdgeLists | src/main/java/org/pvv/shufflegene/Traverse.java:145-149 | The key set stays the same, and every list becomes a permutation of itself |
| Traversal.Permute | src/main/java/org/pvv/shufflegene/Traverse.java:147 | `Collections.shuffle`'s swap loop yields a permutation of the list, for any choice of random indices |
| Traversal.BuildEdgeMapShape | src/main/java/org/pvv/shufflegene/Traverse.java:51-55 | In the graph of a sequence every list is non-empty, every edge sits under its start letter, and every edge ends at a letter with a list or at the final letter |
| Traversal.Outgoing | src/main/java/org/pvv/shufflegene/Traverse.java:51-55 | The list under a letter holds exactly the pairs starting at that letter |
| Euler.BuiltBalanced | src/main/java/org/pvv/shufflegene/Traverse.java:43-57 | In the graph of a sequence, every letter has as many edges out as in, except that the first letter has one extra out and the last one extra in |
| Euler.WalkConsumes | src/main/java/org/pvv/shufflegene/Traverse.java:111-115 | On any map whose lists hold edges of their own letter, a successful walk of n steps spells pairs that, with n fewer edges left over, make up the map's edges: each step pops one edge |
| Euler.WalkUsesAll | src/main/java/org/pvv/shufflegene/Traverse.java:35-39 | A successful walk with as many steps as there are edges spells every edge exactly once |
| Euler.ReconstructConsumes | src/main/java/org/pvv/shufflegene/Traverse.java:103-121 | What a successful `unsafeToString` returns spells edges of the traverse, each at most once, and all of them when it pops as many edges as the traverse holds |
| Euler.EulerWalk | src/main/java/org/pvv/shufflegene/Traverse.java:103-121 | On a balanced map whose last edges lead toward the end letter, the read-back walk never fails, uses every edge exactly once, and stops at the end letter |
| Connectivity.InitialFlags | src/main/java/org/pvv/shufflegene/DinucleotideShuffle.java:98-105 | The flags start false for every letter with a list and true for the end letter, as `Initial` |
| Connectivity.OnePass | src/main/java/org/pvv/shufflegene/DinucleotideShuffle.java:109-113 | One pass over the picks, in list order, yields exactly `Pass` of the flags and keeps every set flag ranked |
| Connectivity.PropagateFlags | src/main/java/org/pvv/shufflegene/DinucleotideShuffle.java:97-119 | The verdict is exactly `Accepts`: at least one pass, and no flag false after all passes. It accepts only picks that carry a rank certificate, never with no passes, and always once the passes suffice for every letter to reach the end |
| Connectivity.VerdictFromIterate | src/main/java/org/pvv/shufflegene/DinucleotideShuffle.java:108-118 | Returning at the first pass that leaves no flag false gives the same verdict as running every pass |
| Connectivity.PassFromGrows | src/main/java/org/pvv/shufflegene/DinucleotideShuffle.java:109-113 | A pass never drops a key and never turns a set flag back to false |
| Connectivity.IterateKeepsAllSet | src/main/java/org/pvv/shufflegene/DinucleotideShuffle.java:109-113 | Once no flag is false, further passes keep it so |
| Connectivity.IterateComplete | src/main/java/org/pvv/shufflegene/DinucleotideShuffle.java:108-113 | After n passes every letter that reaches the end letter within n steps is flagged |
| Connectivity.ReachAccepts | src/main/java/org/pvv/shufflegene/DinucleotideShuffle.java:108-118 | When every letter reaches the end letter within `passes` steps (and `passes` is at least 1), the flag loop accepts |
| Connectivity.CertifiedConnected | src/main/java/org/pvv/shufflegene/DinucleotideShuffle.java:97-119 | A certificate implies that every letter reaches the end letter along the picks within one step per pick |
| Shuffling.MatchesNucleotides | src/main/java/org/pvv/shufflegene/DinucleotideShuffle.java:62-65 | The regex `^[ACGT]{min,}$` holds exactly when there are at least min letters, all from ACGT |
| Shuffling.RandomPicks | src/main/java/org/pvv/shufflegene/DinucleotideShuffle.java:80-86 | The pick loop takes one edge from the list of each letter other than the final one, each start exactly once |
| Shuffling.RemovePicks | src/main/java/org/pvv/shufflegene/DinucleotideShuffle.java:41-45 | On a valid pick no removal fails, and every pick's list loses its first copy of the pick |
| Shuffling.AppendPicks | src/main/java/org/pvv/shufflegene/DinucleotideShuffle.java:49-51 | Every pick is appended to its start's list; the other lists do not change |
| Shuffling.ReshuffleSteps | src/main/java/org/pvv/shufflegene/DinucleotideShuffle.java:41-51 | Removing, shuffling and appending again keeps every list's contents and leaves each pick last in its list |
| Shuffling.Rewire | src/main/java/org/pvv/shufflegene/DinucleotideShuffle.java:41-51 | The three steps on the traverse never fail on a valid pick and reach the reshuffled state |
| Shuffling.ReshuffledWalks | src/main/java/org/pvv/shufflegene/DinucleotideShuffle.java:41-53 | A rewired traverse whose picks passed the connectivity test reads back without failure, as a sequence with the same length, first and last letter and dinucleotide counts |
| Shuffling.ShuffleLetters | src/test/java/org/pvv/shufflegene/DinculeotideTest.java:42-45 | A dinucleotide shuffle uses only letters of its input |
| Shufflegene.ValidSequence | src/main/java/org/pvv/shufflegene/DinucleotideShuffle.java:62-65 | Valid exactly when the sequence has at least two letters, all from ACGT |
| Shufflegene.ValidSequenceExamples | src/test/java/org/pvv/shufflegene/DinculeotideTest.java:27-35 | "AAAACCCCGGGGTTTT" and "AA" are valid; "UAAACCCCGGGGTTTT", "" and "A" are not |
| Shufflegene.IsConnectedToEnd | src/main/java/org/pvv/shufflegene/DinucleotideShuffle.java:97-119 | Accepts exactly the non-empty pick lists along which every letter reaches the final letter, and certifies them |
| Shufflegene.PickEdges | src/main/java/org/pvv/shufflegene/DinucleotideShuffle.java:75-89 | A returned pick is one edge per letter other than the final one, and it is certified connected; when the final letter is the only letter with a list, no pick is ever returned; when every possible draw passes `isConnectedToEnd`, one attempt returns a pick |
| Shufflegene.ShuffleValid | src/main/java/org/pvv/shufflegene/DinucleotideShuffle.java:32-65 | A dinucleotide shuffle of a valid sequence is valid |
| Shufflegene.ShuffleSequence | src/main/java/org/pvv/shufflegene/DinucleotideShuffle.java:32-54 | Rejects exactly the invalid sequences with `InvalidInputException`; never throws `IllegalStateException`; what it returns is a valid sequence with the input's length, first and last letter and dinucleotide counts; it never returns when only the final letter has a list; it returns a shuffle when every possible draw passes `isConnectedToEnd` and one attempt is allowed |
| Shufflegene.ShuffleShortSequence | src/test/java/org/pvv/shufflegene/DinculeotideTest.java:51-56 | With at least one attempt, shuffling "AC" returns "AC"; it can only fail by running out of attempts |
| Shufflegene.ACPickAccepted | src/main/java/org/pvv/shufflegene/DinucleotideShuffle.java:79-86 | For "AC" every possible draw, the single pick A->C, connects every letter to the final letter |
| Shufflegene.ShuffleRepeatedLetter | src/main/java/org/pvv/shufflegene/DinucleotideShuffle.java:79-87 | "AA" is valid but never shuffled: every draw is the empty pick list, which is rejected |
| Shufflegene.TraverseMissingEdge | src/test/java/org/pvv/shufflegene/TraverseTest.java:11-13 | Removing A->C from the traverse of "ACGT" succeeds, and reading the traverse back then fails with `IllegalStateException` |
| Shufflegene.ACGTEdgeOfA | src/main/java/org/pvv/shufflegene/Traverse.java:51-55 | The traverse of "ACGT" has exactly one edge out of A: A->C |
| Dinucleotide.ValidSequence | src/main/java/com/oalmelid/dinucleotide/DinucleotideShuffle.java:41-44 | Valid exactly when the sequence has at least one letter, all from ACGT |
| Dinucleotide.SingleLetterValid | src/main/java/com/oalmelid/dinucleotide/DinucleotideShuffle.java:41-44 | "A" is valid here, and "" is not |
| Dinucleotide.Shuffler.constructor | src/main/java/com/oalmelid/dinucleotide/DinucleotideShuffle.java:26-33 | A validated shuffler stores its sequence and a fresh traverse built from it |
| Dinucleotide.Shuffler.Create | src/main/java/com/oalmelid/dinucleotide/DinucleotideShuffle.java:26-33 | Fails with `InvalidInputException` exactly when the sequence is invalid; otherwise yields a fresh shuffler whose traverse is the graph of the sequence |
| Dinucleotide.Shuffler.IsConnected | src/main/java/com/oalmelid/dinucleotide/DinucleotideShuffle.java:70-91 | The verdict is exactly `Accepts` with one pass fewer than there are letters with a list. It accepts only certified picks, never with fewer than two letters with a list, and always when there are at least two such letters and every letter reaches the end letter within that many steps |
| Dinucleotide.Shuffler.PickEdges | src/main/java/com/oalmelid/dinucleotide/DinucleotideShuffle.java:52-68 | A returned pick is one edge per letter other than the final one, certified connected; with at most one letter that has a list, no pick is ever returned; when every possible draw passes `isConnected`, one attempt returns a pick |
| Dinucleotide.Shuffler.DrawUntilConnected | src/main/java/com/oalmelid/dinucleotide/DinucleotideShuffle.java:57-66 | The retry loop returns only a draw that passed `isConnected`, and returns on the first attempt when every possible draw passes |
| Dinucleotide.Shuffler.ShuffleTraverse | src/main/java/com/oalmelid/dinucleotide/DinucleotideShuffle.java:93-108 | Returns a fresh traverse that reads back as a dinucleotide shuffle of the sequence; the shuffler's own traverse is not modified; it succeeds when every possible draw passes `isConnected` and one attempt is allowed |
| Dinucleotide.RewireCopy | src/main/java/com/oalmelid/dinucleotide/DinucleotideShuffle.java:97-105 | Rewiring the copy with a certified pick leaves a traverse that reads back as a dinucleotide shuffle of the sequence |
| Dinucleotide.Shuffler.ShuffleSequence | src/main/java/com/oalmelid/dinucleotide/DinucleotideShuffle.java:46-49 | What it returns is a dinucleotide shuffle of the stored sequence; it fails only by running out of attempts, always does so when at most one letter has a list, and succeeds when every possible draw passes `isConnected` and one attempt is allowed |
| Dinucleotide.ShuffleTwoLetters | src/main/java/com/oalmelid/dinucleotide/DinucleotideShuffle.java:80 | "AC" has one letter with a list, so zero passes are run and no shuffle is ever returned |
| Dinucleotide.ACGTIsChainMap | src/main/java/org/pvv/shufflegene/Traverse.java:43-57 | The traverse of "ACGT" has exactly the lists A: [A->C], C: [C->G] and G: [G->T] |
| Dinucleotide.ChainNotAccepted | src/main/java/com/oalmelid/dinucleotide/DinucleotideShuffle.java:80-89 | Two passes over A->C, C->G, G->T, in that order, flag G and then C, and leave A false |
| Dinucleotide.RejectsConnectedPick | src/main/java/com/oalmelid/dinucleotide/DinucleotideShuffle.java:70-91 | For "ACGT", the pick A->C, C->G, G->T is a possible draw and connects every letter to T, yet `isConnected` rejects it |

## Left out

- `toUpperCase` (in the `org` `shuffleSequence` and the `Traverse` constructor) is not modelled. The model takes its input already in upper case, because Dafny strings carry no case mapping. Lower-case input is therefore rejected here, where the source would accept it.
- Randomness is modelled as nondeterministic choice. Nothing is stated about the distribution of the draws or of the shuffles, including the uniformity of `Collections.shuffle`.
- The test's `assertNotEquals(output, input)` is not modelled, because it depends on the random draws.
- The endless retry loop of `pickEdges` is bounded by `maxAttempts`. Termination with probability one is not modelled.
- `HashMap` iteration order is an arbitrary choice in `RandomPicks`, `ShuffleEdgeLists` and the flag loop's initialisation.
- Traversal.Traverse.RemoveEdge, Traversal.Traverse.AppendEdge and Traversal.Traverse.GetEdgeList require the edge's start letter to have a list. The source dereferences `edgeMap.get(...)` without a check and would throw a `NullPointerException` otherwise. No caller in the repository reaches that case.
- Traversal.Traverse.constructor requires a non-empty sequence. The source indexes `nucleotides[0]` and would throw `ArrayIndexOutOfBoundsException` on the empty string, which both drivers reject first.
- Traversal.Traverse.Alphabet and Traversal.Traverse.GetEdgeList have no contract of their own. They return the edge map's key set and the list `edgeMap.get(c)`. Their properties are stated through `BuildEdgeMapKeys` and `RandomPicks`.
- Connectivity.PropagateFlags, Connectivity.OnePass, Shufflegene.IsConnectedToEnd and Dinucleotide.Shuffler.IsConnected require every pick to end at a letter with a list or at the end letter. The source unboxes `connected.get(vertex.end)` and would throw a `NullPointerException` for any other letter. Every caller meets the requirement, because picks are drawn from the graph of the sequence (`GraphShape`).
- Shuffling.RandomPicks requires every list to be non-empty. `rand.nextInt(0)` would throw, and the graph of a sequence never has an empty list.
- The `Collections.copy` call in `copyList` is not modelled. Copying a full list onto itself changes nothing, and lists are values here, so `DeepCopy` copies every list.
- The class `Traverse` of the `com.oalmelid.dinucleotide` package is not part of this model. It is represented by the `org.pvv.shufflegene` `Traverse`, with `deepCopy` as `DeepCopy` and `toString` read as `unsafeToString`.
- The `com` `shuffleTraverse` ignores the result of `removeEdge`. The model proves that on a valid pick every removal succeeds, so ignoring it changes nothing (`Dinucleotide.RewireCopy`).
- The regular expression engine is not modelled. `validSequence`'s patterns are modelled by `MatchesNucleotides`.
- In the `com` driver, a pick is a javatuples `Pair<Character, Character>` and its traverse's lists hold only the end letters. The model uses `Edge` and lists of edges. This is the same information, since every edge in the list of c starts at c (`BuildEdgeMapShape`).
- Exception messages are not modelled. Exceptions are modelled as `Failure` values.
