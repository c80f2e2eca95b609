# Verified model of three coursework programs

This project models the in-memory cores of three Java programs and proves properties about them in Dafny.

- **Part-of-speech tagger** (`ps5-hmm-viterbi`). It covers:
  - training a hidden Markov model from tag lines and sentence lines:
    - transitions are counted over tag lines with the sentinel state `#` put in front;
    - emissions are counted over aligned flat lists;
    - each inner count map is normalised by its sum and then passed through a log function;
  - the sparse-frontier Viterbi decoder, with its −100 penalty for an unseen emission, a strict `>` update rule, a backpointer map per step and the final backtrace;
  - the line of `word/TAG` pairs printed for a decoded sentence.
- **Huffman coder** (`ps3-huffman-encoding`). It covers:
  - counting frequencies;
  - building the code tree by repeatedly merging the two lightest trees of a priority queue;
  - assigning codes by root-to-leaf path, including the one-leaf case;
  - the encoding and decoding bit loops, over sequences instead of files.
- **Kevin Bacon game** (`ps4-kevin-bacon-graph-theory`). It covers:
  - breadth-first search building a shortest-path tree;
  - the path from a vertex back to the root;
  - the vertices one graph has and another lacks;
  - the recursive total separation;
  - building the co-star graph from the actor, movie and cast maps;
  - the game's queries: sorting centres, best and worst centres, actors by degree, actors by separation, unreachable actors, and changing the centre of the universe.

Modules follow the source files:

| Module | Models |
|---|---|
| `Wrappers` | `Option`, with `None` standing for Java's null, and `Result` for code that can throw |
| `OrderedMaps` | Insertion-ordered maps (a sequence of key/value pairs), used where `HashMap` order decides the result (the Viterbi and training tables) |
| `Training` | `Training.java` |
| `TrainingProperties` | Properties of `Training.java` |
| `Viterbi` | `Viterbi.java` |
| `ViterbiProperties` | Properties of `Viterbi.java` |
| `Huffman` | `HuffmanImplementation.java` |
| `HuffmanProperties` | Properties of `HuffmanImplementation.java` |
| `GraphLib` | `GraphLib.java` |
| `GraphLibProperties` | Properties of `GraphLib.java` |
| `BuildBaconGraph` | `BuildBaconGraph.java` |
| `BaconGame` | `BaconGame.java` |

Where the source changes state step by step, its loops are methods with loop invariants. Each method is proved equal to a specification function, or its result is characterised by a predicate, and the properties are lemmas about those functions and predicates:

- Huffman's priority-queue loop, characterised by `Built` and `Matches`;
- the breadth-first search queue, characterised by `ParentTree` and `Complete`;
- the count maps, proved equal to `BumpAll` and `Occurrences`;
- the in-place bubble sort over an `array`, characterised by `SortedByValue` and `SameWithinValues`;
- the `BaconGame` fields, kept by `Valid()`.

The `Training` and `BaconGame` objects are classes whose methods update their fields.

## Model

| member | source | states |
|---|---|---|
| Viterbi.Decode | ps5-hmm-viterbi/Viterbi.java:156-218 | decode returns exactly `DecodeSpec`. That is the forward pass over all observations, then the first key of largest score in the final `nextScores` (`""` when there are no observations), then the backtrace through the backpointer maps with its first element dropped. It fails only for a null lookup. |
| Viterbi.ForwardPass | ps5-hmm-viterbi/Viterbi.java:157-204 | The observation loop produces the frontier and the list of backpointer maps that `Run` defines, one step per observation. `nextScores` is empty when there are no observations and is the last frontier otherwise. |
| Viterbi.Expand | ps5-hmm-viterbi/Viterbi.java:170-199 | One observation's pass over the frontier equals `Step`. It fails exactly when a frontier state has no `tProb` entry or a transition target has no `oProb` entry. Otherwise the new maps are the fold of the update rule over all candidates, frontier state by frontier state, in transition order. |
| Viterbi.ExpandState | ps5-hmm-viterbi/Viterbi.java:178-198 | The inner loop for one frontier state fails exactly when some transition target has no emission map. Otherwise it extends the maps by that state's row of candidates, each scored as `currScore + transitionScore + emission`. |
| Viterbi.RecordIfBetter | ps5-hmm-viterbi/Viterbi.java:189-198 | A destination that is unseen, or seen with a strictly lower score, takes the candidate's score and backpointer. In every other case both maps are unchanged. |
| Viterbi.ReturnMax | ps5-hmm-viterbi/Viterbi.java:226-242 | returnMax gives `""` for an empty map. Otherwise it gives the key of an entry whose score is at least every score and strictly greater than every earlier score, which is the first maximum in iteration order. |
| Viterbi.ArgMax | ps5-hmm-viterbi/Viterbi.java:226-242 | The index returned holds a largest score, and no earlier entry has that score. |
| Viterbi.FollowBackpointers | ps5-hmm-viterbi/Viterbi.java:207-215 | The backtrace loop, prepending one looked-up state per map from the last map down, builds exactly `Backtrace` of the maps and the last state. |
| Viterbi.ConsoleTestOutput | ps5-hmm-viterbi/Viterbi.java:69-78 | The output is the concatenation of `word + "/" + tag + " "` over the words. It fails with a null tag exactly when some tag used is null. It fails out of bounds exactly when the tags run out first and none of them is null. |
| ViterbiProperties.FoldSummarises | ps5-hmm-viterbi/Viterbi.java:186-198 | After a fold of the update rule, a destination is absent exactly when no candidate reaches it. Otherwise its score is that of a winning candidate: one that scores at least every candidate for that destination and strictly more than every earlier one. Its backpointer is that candidate's source. |
| ViterbiProperties.StepReaches | ps5-hmm-viterbi/Viterbi.java:175-199 | After a step, a destination has a score exactly when some frontier state has a transition to it. |
| ViterbiProperties.StepBest | ps5-hmm-viterbi/Viterbi.java:175-198 | A destination's recorded score is the candidate score of some (frontier state, transition) pair. That score is at least the score of every pair reaching the destination and strictly greater than that of every earlier pair. The backpointer is that pair's frontier state. |
| ViterbiProperties.StepShape | ps5-hmm-viterbi/Viterbi.java:175-203 | After a step, the keys of the backpointer map are the keys of the new frontier, both maps have distinct keys, and every backpointer is a state of the previous frontier. |
| ViterbiProperties.RunStepShape | ps5-hmm-viterbi/Viterbi.java:169-204 | In every step of a successful decode, the keys of the step's backpointer map are the next frontier's states, and every backpointer is in the frontier before it. |
| ViterbiProperties.RunPrefix | ps5-hmm-viterbi/Viterbi.java:169-204 | A successful forward pass records exactly one backpointer map per observation. Every prefix of the observations succeeds, with the corresponding prefix of the maps. |
| ViterbiProperties.RunFails | ps5-hmm-viterbi/Viterbi.java:178-184 | decode fails exactly when, at some step, the frontier reached so far has a state missing from `tProb` or a transition target missing from `oProb`. |
| ViterbiProperties.BacktraceAt | ps5-hmm-viterbi/Viterbi.java:207-215 | The backtrace has one more element than there are maps. It ends with the last state, and each earlier element is its successor looked up in that step's map. |
| ViterbiProperties.BackpointerIn | ps5-hmm-viterbi/Viterbi.java:189-197 | Every state of a frontier after a step has a backpointer, and that backpointer is in the frontier before the step. |
| ViterbiProperties.BacktraceInFrontiers | ps5-hmm-viterbi/Viterbi.java:207-215 | Starting the backtrace from a state of the final frontier, every element is non-null and belongs to the frontier of its step. |
| ViterbiProperties.DecodeEmpty | ps5-hmm-viterbi/Viterbi.java:207-216 | Decoding no observations gives the empty list. The maximum of the empty map is `""`, the backtrace loop does not run, and `remove(0)` drops the `""`. |
| ViterbiProperties.DecodeLength | ps5-hmm-viterbi/Viterbi.java:169-216 | decode fails exactly when the forward pass does. Otherwise it returns one tag per observation, the sentinel's slot having been removed. |
| ViterbiProperties.DecodePath | ps5-hmm-viterbi/Viterbi.java:207-216 | With a non-empty final frontier, every decoded tag is a non-null state of its step's frontier, and the last tag is the final frontier's maximum. The first tag's backpointer is `#`, and each later tag's backpointer is the tag before it. |
| ViterbiProperties.DecodeExhausted | ps5-hmm-viterbi/Viterbi.java:207-216 | When the final frontier is empty, decode does not fail. It returns n−1 nulls followed by `""`. |
| ViterbiProperties.DecodeExhaustedUnprintable | ps5-hmm-viterbi/Viterbi.java:207-216 | With at least two observations and an empty final frontier, the first decoded tag is null. |
| ViterbiProperties.DecodePrintable | ps5-hmm-viterbi/Viterbi.java:69-78 | With a non-empty final frontier, the decoded tags are all non-null and at least as many as the words, so the output line can be built. |
| ViterbiProperties.TaggedSegments | ps5-hmm-viterbi/Viterbi.java:69-78 | The output line is the concatenation, word by word, of `word + "/" + tag + " "`. |
| Training.CountTransitions | ps5-hmm-viterbi/Training.java:44-75 | The loops of buildTProb produce the count table of the pairs of every tag line with `#` in front. The tags appended to `states` are all tags of all lines, in order. |
| Training.CountLine | ps5-hmm-viterbi/Training.java:50-73 | One line's loop counts each adjacent pair of the line with the sentinel in front and collects every token after the sentinel. Since `i` starts at 1 the guard always holds. |
| Training.CountLineStep | ps5-hmm-viterbi/Training.java:54-72 | One pass of the inner loop counts the pair ending at token i and collects token i. This keeps the scanned-so-far state. |
| Training.CountPair | ps5-hmm-viterbi/Training.java:61-72 | The count update creates a count of 1.0 for a new pair and adds one otherwise. |
| Training.NormaliseInner | ps5-hmm-viterbi/Training.java:149-162 | The summing loop and the overwriting loop replace each count v by `log(v / sum)`, keeping the keys and their order. |
| Training.MakeLog | ps5-hmm-viterbi/Training.java:144-165 | makeLog normalises every inner map, keeping the outer key set. |
| Training.BuildOProb | ps5-hmm-viterbi/Training.java:87-112 | buildOProb fails exactly when there are more states than observations, which is where `obs.get(i)` throws. Otherwise it counts (state i, observation i) for every i below the number of states, ignoring extra observations, and normalises. |
| Training.AddToObservations | ps5-hmm-viterbi/Training.java:126-135 | The observation list is every token of every line, case-folded, in order. |
| Training.Training.BuildTProb | ps5-hmm-viterbi/Training.java:39-79 | buildTProb appends every tag of every tag line to `states` and changes no other field. It returns the normalised transition table. |
| Training.Train | ps5-hmm-viterbi/Training.java:23-28 | The constructor reads the observations, builds `tProb` (filling `states`) and then `oProb`. It fails exactly when there are more tags than observation tokens. |
| Training.Ratios | ps5-hmm-viterbi/Training.java:152-160 | Each normalised entry keeps its key and holds its count divided by the (positive) sum of the inner map. |
| Training.BumpAllPositive | ps5-hmm-viterbi/Training.java:61-72 | Every count in a count table is positive. |
| TrainingProperties.BumpAllCounts | ps5-hmm-viterbi/Training.java:61-72 | The count stored for (a, b) is the number of times the pair (a, b) was counted. |
| TrainingProperties.BumpAllCounted | ps5-hmm-viterbi/Training.java:61-72 | Every inner count map is non-empty, has distinct keys, and holds counts of at least 1. |
| TrainingProperties.BumpAllKeys | ps5-hmm-viterbi/Training.java:62-72 | A state is an outer key exactly when some counted pair starts with it. |
| TrainingProperties.BumpAllEntries | ps5-hmm-viterbi/Training.java:61-72 | (a, b) has a count exactly when the pair (a, b) was counted. |
| TrainingProperties.PairsCharacterised | ps5-hmm-viterbi/Training.java:48-56 | The pairs counted are exactly the adjacent pairs of the tag lines with `#` put in front. |
| TrainingProperties.PairsSource | ps5-hmm-viterbi/Training.java:48-56 | Every counted pair is an adjacent pair of some tag line with `#` in front. |
| TrainingProperties.PairsComplete | ps5-hmm-viterbi/Training.java:48-56 | Every adjacent pair of every tag line with `#` in front is counted. |
| TrainingProperties.SentinelNeverEntered | ps5-hmm-viterbi/Training.java:48-56 | When no tag is `#`, no state has a transition into `#`. |
| TrainingProperties.SentinelSuccessors | ps5-hmm-viterbi/Training.java:48-56 | When no tag is `#`, the successors of `#` are exactly the first tags of the non-empty lines. |
| TrainingProperties.TransitionSources | ps5-hmm-viterbi/Training.java:48-72 | A state has transitions exactly when it is `#` and some line is non-empty, or when it occurs in some line before the line's last tag. A tag that only ever ends lines has no transitions. |
| TrainingProperties.RatiosDistribution | ps5-hmm-viterbi/Training.java:152-160 | The ratios `v / sum` of a non-empty inner map lie in (0, 1] and sum to 1. |
| TrainingProperties.LogTableDistribution | ps5-hmm-viterbi/Training.java:144-165 | makeLog keeps each outer key and each inner key sequence. Each value becomes the log of a ratio in (0, 1], and the ratios sum to 1. |
| TrainingProperties.TransitionsDistribution | ps5-hmm-viterbi/Training.java:39-79 | For every state with transitions, the transition ratios sum to 1 and the table keeps that state's successors. |
| Huffman.Occurrences | ps3-huffman-encoding/HuffmanImplementation.java:18-27 | The frequency table has exactly the characters of the text as keys, each mapped to its number of occurrences. |
| Huffman.CountFrequencies | ps3-huffman-encoding/HuffmanImplementation.java:18-27 | The counting loop builds exactly that frequency table. |
| HuffmanProperties.OccurrencesTotal | ps3-huffman-encoding/HuffmanImplementation.java:18-27 | The counts sum to the length of the text. |
| Huffman.InitialTreeQueue | ps3-huffman-encoding/HuffmanImplementation.java:83-88 | The queue holds one leaf per entry, carrying that entry's character and frequency, and the frequencies sum to the map's total. |
| Huffman.RemoveMin | ps3-huffman-encoding/HuffmanImplementation.java:66-80 | `q.remove()` takes a tree of least frequency by the comparator and leaves the rest of the queue. |
| Huffman.RemoveTwo | ps3-huffman-encoding/HuffmanImplementation.java:43-44 | The two removals give `t1` and `t2`, with `t1`, `t2` no heavier than any tree left. They keep the leaves and total frequency of the queue. |
| Huffman.MakeCodeTree | ps3-huffman-encoding/HuffmanImplementation.java:32-55 | makeCodeTree gives null exactly for an empty map. Otherwise the tree's leaves match the map's entries one to one, every node's frequency is the sum of its children's, and the root's frequency is the total. |
| Huffman.Bits | ps3-huffman-encoding/HuffmanImplementation.java:147-150 | Each code character gives one bit, true exactly for `'1'`. |
| Huffman.Compress | ps3-huffman-encoding/HuffmanImplementation.java:142-151 | The bit loop fails exactly when a character has no code (`code.length()` on null). Otherwise it writes the concatenated bits of every character's code. |
| Huffman.Decompress | ps3-huffman-encoding/HuffmanImplementation.java:161-187 | The decoding loop outputs exactly `Decoded` of the bits and the tree. |
| Huffman.DecompressBit | ps3-huffman-encoding/HuffmanImplementation.java:165-186 | One bit either: repeats the only character of a one-leaf tree; or moves the cursor left or right, outputting a reached leaf's character and resetting the cursor to the root. |
| HuffmanProperties.ComputeCodesPaths | ps3-huffman-encoding/HuffmanImplementation.java:91-107 | computeCodes gives an empty map for a null tree and `{c ↦ "0"}` for a single leaf. Otherwise every character of the tree maps to its root-to-leaf path (0 left, 1 right) and nothing else is a key. |
| HuffmanProperties.TraverseCodes | ps3-huffman-encoding/HuffmanImplementation.java:117-134 | traverseCodeTree stores, for every character of the subtree, the prefix code followed by its path. |
| HuffmanProperties.TraverseKeys | ps3-huffman-encoding/HuffmanImplementation.java:117-134 | traverseCodeTree adds exactly the subtree's characters as keys. |
| HuffmanProperties.TraverseKeeps | ps3-huffman-encoding/HuffmanImplementation.java:117-134 | The codes of characters outside the subtree are unchanged. |
| HuffmanProperties.PathsPrefixFree | ps3-huffman-encoding/HuffmanImplementation.java:117-134 | The path of one character is never a prefix of the path of another. |
| HuffmanProperties.CodesPrefixFree | ps3-huffman-encoding/HuffmanImplementation.java:95-99 | For a tree of two or more leaves, every code is non-empty and no code is a prefix of another. |
| HuffmanProperties.WalkPath | ps3-huffman-encoding/HuffmanImplementation.java:174-184 | Walking a character's code from the root outputs that character and returns the cursor to the root. |
| HuffmanProperties.WalkEncoded | ps3-huffman-encoding/HuffmanImplementation.java:164-187 | Decoding the encoding of a text, followed by any bits, outputs the text and then carries on from the root. |
| HuffmanProperties.EncodedOneLeaf | ps3-huffman-encoding/HuffmanImplementation.java:102-104 | With the single code `"0"`, a text is encoded as one false bit per character. |
| HuffmanProperties.RoundTrip | ps3-huffman-encoding/HuffmanImplementation.java:142-187 | Decoding what encoding a text of coded characters writes gives back the text, including the one-leaf case. |
| HuffmanProperties.CompressAndDecompress | ps3-huffman-encoding/HuffmanImplementation.java:193-199 | With a tree built from the text's frequencies, every character has a code, the root's frequency is the text length, and decompressing the compressed text gives back the text. |
| GraphLib.InNeighbors | ps4-kevin-bacon-graph-theory/GraphLib.java:125 | The in-neighbours of v are exactly the vertices with an edge to v. |
| GraphLib.Discover | ps4-kevin-bacon-graph-theory/GraphLib.java:36-38 | Recording a discovery adds v with the single unlabelled edge v → current and keeps every other vertex's edges. |
| GraphLib.ScanNeighbours | ps4-kevin-bacon-graph-theory/GraphLib.java:31-40 | After the neighbour loop, current is explored: each out-neighbour is in the tree at most one level below it. Newly reached vertices are queued one level below and recorded as discovered from current. |
| GraphLib.Bfs | ps4-kevin-bacon-graph-theory/GraphLib.java:21-43 | bfs fails exactly when the source is not a vertex. Otherwise the tree has the source with no out-edge, and every other vertex has one out-edge to the vertex it was discovered from, an in-neighbour in g one level nearer the source. Every out-neighbour of every tree vertex is in the tree. |
| GraphLibProperties.BfsReachable | ps4-kevin-bacon-graph-theory/GraphLib.java:27-41 | The tree's vertices are exactly the vertices reachable from the source. |
| GraphLibProperties.BfsDistance | ps4-kevin-bacon-graph-theory/GraphLib.java:29-41 | A tree vertex's level is its shortest-path distance from the source in g. |
| GraphLibProperties.BfsSeparation | ps4-kevin-bacon-graph-theory/GraphLib.java:29-41 | A vertex is in the tree at level n exactly when its distance from the source is n. |
| GraphLibProperties.Discovered | ps4-kevin-bacon-graph-theory/GraphLib.java:32-38 | A tree vertex other than the source has exactly one out-edge, unlabelled, to its discoverer, which has an edge to it in g. |
| GraphLibProperties.TreeEdges | ps4-kevin-bacon-graph-theory/GraphLib.java:28-38 | Every tree edge v → u reverses an edge u → v of g and climbs one level. Only the source has no out-edge, and every other vertex has exactly one. |
| GraphLibProperties.BfsRanked | ps4-kevin-bacon-graph-theory/GraphLib.java:36-38 | Tree edges always go to a lower level, so following them ends. |
| GraphLib.GetPath | ps4-kevin-bacon-graph-theory/GraphLib.java:52-77 | getPath gives nothing for a tree without edges or an absent vertex. Otherwise it follows out-edges from v to a vertex without any, listing the vertices met and excluding v. |
| GraphLibProperties.GetPathOnBfsTree | ps4-kevin-bacon-graph-theory/GraphLib.java:55-76 | On a bfs tree, getPath of a vertex is its list of ancestors up to the source, and its length is the vertex's level. |
| GraphLibProperties.AncestorsShape | ps4-kevin-bacon-graph-theory/GraphLib.java:66-76 | The ancestors of a vertex number its level and, for a vertex other than the source, end at the source. |
| GraphLib.MissingVertices | ps4-kevin-bacon-graph-theory/GraphLib.java:87-97 | missingVertices gives exactly the vertices of the first graph that the second lacks. |
| GraphLibProperties.TotalSeparationSum | ps4-kevin-bacon-graph-theory/GraphLib.java:119-129 | totalSeparation from a vertex is the sum, over the vertices of its in-subtree, of the base plus each vertex's depth. |
| GraphLibProperties.TotalSeparationFromSource | ps4-kevin-bacon-graph-theory/GraphLib.java:106-129 | From the root of a bfs tree with total 0, totalSeparation is the sum of the levels of all tree vertices. |
| GraphLibProperties.AverageZero | ps4-kevin-bacon-graph-theory/GraphLib.java:106-110 | The average separation of a vertex is 0.0 exactly when it has no out-neighbour other than itself. This is why the centres with average 0.0 that topCenters drops are the isolated actors. |
| BuildBaconGraph.InsertVertices | ps4-kevin-bacon-graph-theory/BuildBaconGraph.java:23-25 | The vertices are exactly the actor names, with no edges yet. |
| BuildBaconGraph.SetUndirected | ps4-kevin-bacon-graph-theory/BuildBaconGraph.java:43 | insertUndirected sets both directed edges between two vertices to the label and changes no other edge. |
| BuildBaconGraph.Link | ps4-kevin-bacon-graph-theory/BuildBaconGraph.java:42-45 | The label of a new edge is created once. The movie's name is then added to the label shared by both directions, and every other edge is kept. |
| BuildBaconGraph.LabelAdd | ps4-kevin-bacon-graph-theory/BuildBaconGraph.java:45 | Visiting one more cast pairing adds the movie's name to a label exactly when that pairing joins the two actors. |
| BuildBaconGraph.LinkCoStars | ps4-kevin-bacon-graph-theory/BuildBaconGraph.java:35-47 | The innermost loop fails only if an ID is not an actor. Otherwise it links actorx with every other cast member of the movie. |
| BuildBaconGraph.LinkCast | ps4-kevin-bacon-graph-theory/BuildBaconGraph.java:33-48 | The loop over one movie's cast fails only if an ID is not an actor. Otherwise it links every ordered pair of distinct cast IDs of the movie. |
| BuildBaconGraph.BuildGraph | ps4-kevin-bacon-graph-theory/BuildBaconGraph.java:20-50 | Building fails exactly when some movie lists an unknown ID next to another cast member. It then gives the co-star graph: a vertex per actor name, an edge exactly between names that some movie casts together under distinct IDs, and a label holding the names of all such movies. |
| BuildBaconGraph.BuiltAll | ps4-kevin-bacon-graph-theory/BuildBaconGraph.java:29-49 | Once every movie is processed, the edges are exactly the co-star pairs and the labels exactly their shared movies. |
| BuildBaconGraph.SharedCoStar | ps4-kevin-bacon-graph-theory/BuildBaconGraph.java:42-45 | Two actors share a movie name exactly when they co-star, so no built label is empty. |
| BuildBaconGraph.CoStarGraphUndirected | ps4-kevin-bacon-graph-theory/BuildBaconGraph.java:42-45 | The co-star graph is closed and undirected: each edge has its reverse, with the same label. |
| BuildBaconGraph.SharedSymmetric | ps4-kevin-bacon-graph-theory/BuildBaconGraph.java:42-45 | The shared movies of a and b are those of b and a. |
| BuildBaconGraph.CastTogetherSymmetric | ps4-kevin-bacon-graph-theory/BuildBaconGraph.java:33-37 | A movie that casts a with b casts b with a. |
| BuildBaconGraph.NoSelfLoops | ps4-kevin-bacon-graph-theory/BuildBaconGraph.java:36 | When distinct IDs have distinct names, no actor is joined to itself. |
| BaconGame.CompareSwap | ps4-kevin-bacon-graph-theory/BaconGame.java:75-79 | After one compare-and-swap, the two adjacent entries are in order. |
| BaconGame.BubblePass | ps4-kevin-bacon-graph-theory/BaconGame.java:74-80 | One pass of the inner loop carries the largest remaining value to the end of the unsorted part. It keeps the order of equal values. |
| BaconGame.SortCenters | ps4-kevin-bacon-graph-theory/BaconGame.java:72-83 | sortCenters leaves the list sorted non-decreasingly by value and a permutation of its input. Within every value, the input's order is kept. |
| BaconGame.SwapKeeps | ps4-kevin-bacon-graph-theory/BaconGame.java:75-79 | Swapping two adjacent entries of different values keeps the order within every value. This is how the strict `>` makes the sort stable. |
| BaconGame.SameWithinValuesPermutation | ps4-kevin-bacon-graph-theory/BaconGame.java:73-81 | Keeping every value's order implies being a permutation. |
| BaconGame.StableSortUnique | ps4-kevin-bacon-graph-theory/BaconGame.java:73-81 | Two sorted lists with the same order within every value are equal, so sortCenters' result is the stable sort of its input. |
| BaconGame.NonZero | ps4-kevin-bacon-graph-theory/BaconGame.java:40-45 | The filter keeps exactly the entries whose value is not 0.0, each as often as in the input. |
| BaconGame.KeepNonZero | ps4-kevin-bacon-graph-theory/BaconGame.java:40-45 | The filtering loop builds exactly that filtered list. |
| BaconGame.SortNonZero | ps4-kevin-bacon-graph-theory/BaconGame.java:40-47 | The centres handed back are the stable sort of the non-zero entries. |
| BaconGame.Best | ps4-kevin-bacon-graph-theory/BaconGame.java:51-56 | The first `number` sorted entries, in order. |
| BaconGame.Worst | ps4-kevin-bacon-graph-theory/BaconGame.java:57-62 | The last `count` sorted entries, largest first. |
| BaconGame.TopCenters | ps4-kevin-bacon-graph-theory/BaconGame.java:30-65 | topCenters first takes the stable sort of the non-zero averages. With `number > 0` it returns the first `number` entries; with `number < 0`, the last `-number`, largest first; with 0, all of them. It fails exactly when more entries are asked for than exist. |
| BaconGame.TopCentersExtremes | ps4-kevin-bacon-graph-theory/BaconGame.java:51-56 | Every chosen best centre has an average no larger than any centre left out. |
| BaconGame.BottomCentersExtremes | ps4-kevin-bacon-graph-theory/BaconGame.java:57-62 | The chosen worst centres come in non-increasing order, and each has an average no smaller than any centre left out. |
| BaconGame.InsertByCount | ps4-kevin-bacon-graph-theory/BaconGame.java:105 | Inserting an entry into a list sorted by count keeps it sorted and adds exactly that entry. |
| BaconGame.SortByCount | ps4-kevin-bacon-graph-theory/BaconGame.java:105 | `List.sort` by count gives a permutation sorted non-decreasingly by count. |
| BaconGame.EntryList | ps4-kevin-bacon-graph-theory/BaconGame.java:103-104 | `addAll(entrySet())` lists every entry of the map exactly once and nothing else. |
| BaconGame.SortTabulates | ps4-kevin-bacon-graph-theory/BaconGame.java:104-105 | Sorting keeps every entry of the map exactly once. |
| BaconGame.PathLength | ps4-kevin-bacon-graph-theory/BaconGame.java:134 | The size of getPath of a tree vertex is its level in the bfs tree. |
| BaconGame.SeparationsBetween | ps4-kevin-bacon-graph-theory/BaconGame.java:131-138 | The separation map holds exactly the tree vertices whose level lies in [low, high], each with that level. |
| BaconGame.BaconGame.Create | ps4-kevin-bacon-graph-theory/BaconGame.java:20-23 | The constructor builds the co-star graph and the bfs tree from "Kevin Bacon". It fails exactly when the graph cannot be built or "Kevin Bacon" is not an actor name. |
| BaconGame.BaconGame.ActorsByDegreeBetween | ps4-kevin-bacon-graph-theory/BaconGame.java:91-107 | Every actor whose out-degree lies in [low, high] appears once, with that degree, and nothing else appears. The list is sorted non-decreasingly by degree. |
| BaconGame.BaconGame.ActorsWithInfiniteSep | ps4-kevin-bacon-graph-theory/BaconGame.java:113-118 | The actors missing from the tree are exactly those the centre cannot reach. |
| BaconGame.BaconGame.ActorsByNonInfiniteSeparation | ps4-kevin-bacon-graph-theory/BaconGame.java:126-144 | Every actor whose distance from the centre lies in [low, high] appears once, with that distance, and nothing else appears. The list is sorted non-decreasingly by distance. |
| BaconGame.BaconGame.MakeCenterUniverse | ps4-kevin-bacon-graph-theory/BaconGame.java:146-149 | The centre's name is set to `name` and the graph is unchanged. When `name` is a vertex, the tree becomes bfs from `name`; otherwise bfs throws and the old tree stays. |

## Left out

- File and console I/O are not modelled:
  - readers and writers, `BufferedBitReader` and `BufferedBitWriter`;
  - `consoleTest`, `fileTest` and the accuracy figure;
  - `play`, `findShortestBaconPath` and `main`.
  - The cores work on in-memory sequences: tag and sentence lines already split into tokens, the text as `seq<char>`, bits as `seq<bool>`.
- `ProcessBaconFiles.java` is not part of this model. `BuildGraph` takes the three maps it builds.
- `String.split` behaviour (repeated or trailing spaces) is not modelled. Lines arrive tokenised. `toLowerCase` is the function parameter `lower` and `Math.log` is the function parameter `log`; no property of either is assumed.
- IEEE doubles are not modelled. Scores, counts and averages are reals: they are only added, divided and compared, so rounding, NaN and infinities are not modelled. In particular, a NaN average in `sortCenters` is not considered.
- `HashMap`/`HashSet` iteration order is not the source's. Where it decides a result (Viterbi tie-breaks, `returnMax` on ties), the model fixes it as the insertion order of an `OrderedMap` or as the order of the input sequence. Where it does not decide the result (bfs neighbours, `missingVertices`, the degree and separation maps, `makeLog` keys), the model picks elements in any order (`:|`), and every property holds for every order. The average-separation list of `topCenters` is a parameter whose order is left open.
- `initialTreeQueue` walks a `TreeMap`, so the source adds trees in character order. The model adds them in any order (`:|`). Since `RemoveMin` removes any lightest tree, the entry order changes no property.
- Java's `PriorityQueue` tie-break is not modelled. `RemoveMin` takes any tree of least frequency, so the properties hold for every tie-break.
- `Graph`/`AdjacencyMapGraph` is not part of this model. A graph is its map of out-edges, and `null` labels are `None`. The assumed behaviour of its methods:
  - `outNeighbors` and `hasEdge` on a missing vertex throw;
  - `insertVertex` of an existing vertex keeps its edges.
- `BinaryTree`/`CodeTreeElement` are not part of this model. They are the datatype `CodeTree`.
- Long and int overflow are not modelled: counts and degrees are unbounded. This includes the `Long` frequencies, the `p1.getValue() - p2.getValue()` comparators and `0 - number` in `topCenters`: at `number == Integer.MIN_VALUE` the Java negation overflows and returns an empty list, where the model reports an out-of-bounds failure.
- GraphLib.GetPath: the ghost `rank` argument requires tree edges to descend. On a cyclic graph the Java loop never ends, which the model does not capture. Every bfs tree meets this requirement (`BfsRanked`).
- GraphLib.TotalSeparation: modelled as a ghost function with the same requirement, for the same reason. The Java recursion does not end on an in-cyclic graph.
- GraphLib.Bfs: requires the graph to be closed (every edge ends at a vertex), which an adjacency-map graph always is.
- GraphLib.AverageSeparation: an exact quotient of reals rather than a double division.
- BaconGame.TopCenters: takes the entries of the average-separation map (BaconGame.java:33-37) as a parameter rather than running bfs and `averageSeparation` for every vertex. `AverageZero` states what a 0.0 average means.
- BaconGame.SortByCount: `List.sort` is modelled by an insertion sort proved to give a sorted permutation. Its stability is not stated, since the source's maps give no order to keep.
- BaconGame.BaconGame.MakeCenterUniverse: the new tree is stated through ghost `parent`/`dist` maps that bfs proves valid. It is not equated with one particular bfs result, because bfs chooses among equal-level parents in hash order.
- Viterbi.ConsoleTestOutput: the decoded list is a parameter, as the `observations` field of decode is.

## Where the model follows the code

- **Frontier states with no transitions.** A frontier state with no transitions, or a transition target with no emissions, makes `decode` dereference null. The model makes this `Failure(NullPointer)` (`RunFails`). Such a state is not simply skipped.
- **Empty frontier.** When the frontier becomes empty, `decode` does not raise an error: `returnMax` gives `""` and the backtrace gives nulls (`DecodeExhausted`).
- **Mismatched training lengths.** Training fails only when there are more tags than observation tokens (`obs.get(i)`). Extra observations are ignored (`BuildOProb`, `Train`), and there is no check that the lengths are equal.
