# Melodic track ordering — a Dafny model

This project models the core of a library that orders music tracks so that
consecutive tracks are harmonically compatible on the Camelot wheel. Each
track carries an optional key: a number from 1 to 12 and a letter, `A` for
minor and `B` for major. A directed edge from one track to another exists
when the step between their keys is one of eleven named movements. Examples
are a perfect match, one step up the wheel (energy boost), or a switch
between minor and major at the same number. Each movement has a weight.

The search is a layered beam search:

- start from one two-track path per edge;
- grow every path by one edge to a track not yet on it;
- keep the `limit` best-scoring paths of each layer;
- stop at the first layer that cannot be grown;
- return the tracks of that layer's longest, best-scoring path.

Modules, in dependency order:

- `Wrappers`: `Option` and `Result`.
- `Keys`: the key record, its checked constructor and its `"7A"` text form.
- `Tracks`: the track record.
- `Camelot`: the conversion from a detected pitch class and mode to a Camelot key.
- `Movements`: the movements, their weights, the wheel arithmetic and the classifier. It also gives an independent description of the classifier as "which movement turns this key into that one".
- `Graph`: the edge list the search starts from, and its two lookup views (edges by start track, weight by endpoints).
- `Paths`: paths as sequences of track positions, their scores, and the bound on the length of a simple path.
- `Trim`: pruning a layer to its best paths.
- `Search`: growing a layer, the layer loop, choosing the best path, and the two entry points.

Scores and weights are unbounded integers. The frontier width is a
parameter of `MelodicSortWithWeights`. `MelodicSort` passes the source's
fixed value 100 and the default weights.

## Model

| member | source | states |
|---|---|---|
| Keys.NewKey | src/types/key.rs:26-36 | fails with the number error exactly when the number is outside 1..12; fails with the letter error exactly when the number is valid and the letter is neither `A` nor `B`; succeeds exactly when both are valid, keeping both |
| Keys.NewForce | src/types/key.rs:37-39 | for a valid number and letter, is the key that `NewKey` succeeds with |
| Keys.KeyString | src/types/key.rs:19-23 | the text is the decimal number (no leading zero) followed by the letter, 2 or 3 characters long |
| Keys.DecimalRoundTrip | src/types/key.rs:21 | reading back the decimal text of a number gives the number |
| Keys.KeyStringInjective | src/types/key.rs:19-23 | two keys with the same text are the same key |
| Keys.KeyStringExamples | src/types/key.rs:19-23 | 7A is written "7A" and 12B is written "12B" |
| Keys.Display | src/types/key.rs:12-17 | displaying a key writes the same text as the string conversion |
| Tracks.NewTrack | src/types/track.rs:17-29 | the id, name, path and key accessors give back the arguments |
| Tracks.FromPair | src/types/track.rs:30-34 | a track built from a name and key has no id, an empty path and that key |
| Camelot.StratumKeyToCamelot | crates/pipeline/src/pipeline.rs:79-94 | always succeeds; major gives letter B and minor gives letter A, with the number taken from the mode's table at the pitch class modulo 12 |
| Camelot.TablesArePermutations | crates/pipeline/src/pipeline.rs:81-90 | each table lists every number 1..12 exactly once |
| Camelot.DistinctPitchClassesDistinctKeys | crates/pipeline/src/pipeline.rs:79-94 | within one mode, pitch classes that differ modulo 12 give different keys |
| Camelot.PitchClassPeriodic | crates/pipeline/src/pipeline.rs:81-90 | pitch classes 12 apart give the same key |
| Camelot.RelativeMinorSharesNumber | crates/pipeline/src/pipeline.rs:81-90 | a major key and the minor key nine semitones above it share a wheel number |
| Movements.DefaultWeights | src/algorithm.rs:38-54 | the default weight table is 35, 10, 10, 10, 5, 5, 5, 10, 10, 0, 0 in movement order |
| Movements.Weight | src/algorithm.rs:56-72 | the weight of a movement is the field at that movement's place in the table |
| Movements.ForwardDelta | src/algorithm.rs:314-318 | the clockwise step count is below 12 and equals (end - start) modulo 12 |
| Movements.ForwardDeltaSteps | src/algorithm.rs:314-318 | turning the wheel by the step count lands on the end number |
| Movements.MovementBetween | src/algorithm.rs:288-312 | a movement exists exactly when the step count is in {0,1,11,2,10,7} for equal letters or in {0,1,11,3,9} for different letters |
| Movements.MovementBetweenIsApply | src/algorithm.rs:288-312 | the classifier names movement m exactly when applying m to the start key gives the end key |
| Movements.MovementBetweenNone | src/algorithm.rs:288-312 | the classifier gives nothing exactly when no movement leads from start to end |
| Movements.CamelotRuleExamples | src/algorithm.rs:325-336 | 7A to 8A is an energy boost, 7A to 7B an energy switch, 7A to 4B a mood drop |
| Movements.ThreeKeySteps | src/algorithm.rs:288-312 | the six movements among 7A, 8A and 7B |
| Graph.BuildPairs | src/algorithm.rs:259-286 | every emitted pair joins two distinct keyed tracks whose keys form a movement and carries that movement's weight; every such ordered pair is emitted; pairs come strictly ordered by start, then end |
| Graph.SoundPairFacts | src/algorithm.rs:262-268 | an emitted pair has distinct endpoints in range and both tracks keyed |
| Graph.OrderedPairsUnique | src/algorithm.rs:262-264 | each ordered pair of positions is emitted at most once |
| Graph.ThreeTrackEdges | src/algorithm.rs:259-286 | three tracks keyed 7A, 8A and 7B give all six ordered edges: energy boost and drop between 7A and 8A, energy switch both ways between 7A and 7B, and also the subdominant step 8A to 7B and the dominant step 7B to 8A |
| Graph.Outgoing | src/algorithm.rs:98-99 | the pairs leaving a position are exactly the pairs of the list with that start |
| Graph.PairsByStart | src/algorithm.rs:96-101 | a position is a key of the grouped view exactly when some pair leaves it, and maps to the pairs leaving it |
| Graph.GroupedHasEveryPair | src/algorithm.rs:98-99 | every pair appears in the group of its start |
| Graph.GroupedPairIsPair | src/algorithm.rs:98-99 | every grouped entry is a pair of the list |
| Graph.PairWeightsKeys | src/algorithm.rs:97-100 | the weight map has an entry for given endpoints exactly when some pair has them |
| Graph.PairWeightsValue | src/algorithm.rs:100 | the weight map holds the weight of the last pair with those endpoints |
| Graph.PairWeightsOfBuild | src/algorithm.rs:90-100 | for the emitted pairs, the weight map has an entry exactly for the edges, holding the weight of the edge's movement |
| Paths.ListContains | src/algorithm.rs:219-221 | the scan answers whether the target is on the list |
| Paths.ListScore | src/algorithm.rs:223-238 | the score is the sum, over consecutive positions, of the mapped weight (0 when unmapped); lists shorter than two score 0 |
| Paths.PathScoreAppend | src/algorithm.rs:230-235 | extending a path adds the weight of its new last step |
| Paths.AppendSimple | src/algorithm.rs:189-200 | appending a position not on a simple path keeps it simple |
| Paths.SimpleBound | src/algorithm.rs:121-134 | a simple path over n positions has at most n entries |
| Trim.RankIndices | src/algorithm.rs:249-253 | the stable descending sort lists every input position once: higher scores first, equal scores in input order |
| Trim.KeptBeatDropped | src/algorithm.rs:253-254 | a kept list scores at least as much as a dropped one, and on a tie occurs earlier in the input |
| Trim.KeptDistinct | src/algorithm.rs:253-254 | distinct inputs give distinct kept lists |
| Trim.DroppedFacts | src/algorithm.rs:253-254 | every kept list beats every dropped list, with ties going to the earlier list |
| Trim.KeptTiesInInputOrder | src/algorithm.rs:253-254 | kept lists with equal scores appear in the order they had in the input |
| Trim.TrimTopLists | src/algorithm.rs:240-257 | at most `limit` lists come back unchanged; otherwise the result is the first `limit` lists of the stable descending sort by score: non-increasing scores, equal scores in input order, none outscored by a dropped list, ties at the cut won by earlier lists, and no duplicates introduced |
| Search.ExtendLayer | src/algorithm.rs:169-217 | every output is a layer path grown by one pair to a new position; outputs are distinct and at most `limit`; the output is empty exactly when no path can be grown; it holds every grown path unless more than `limit` distinct ones exist, and then holds `limit` of them; no grown path left out outscores one kept |
| Search.AllExtensionsCollected | src/algorithm.rs:184-206 | once every pair leaving every path has been tried, every grown path is a candidate, and there is a candidate exactly when some path can be grown |
| Search.TrimmedExtensions | src/algorithm.rs:207-216 | trimming the candidates keeps all of them unless there are more than `limit`, and never keeps one outscored by a dropped one |
| Search.InitialFrontier | src/algorithm.rs:103-113 | the first frontier is non-empty and made of distinct two-position simple walks along pairs; with at most `limit` pairs it is one path per pair in pair order; otherwise it is exactly the first `limit` pair paths of the stable descending sort by score, so no dropped pair path outscores a kept one; unless crowded it holds every two-position walk |
| Search.InitialLayerFacts | src/algorithm.rs:103-112 | the untrimmed first layer holds exactly the two-position walks along pairs, each once, and has more than `limit` distinct ones when there are more than `limit` pairs |
| Search.GrowsOutOf | src/algorithm.rs:184-205 | a layer path followed by a pair step to a new position is one of the layer's extensions |
| Search.CoverageStep | src/algorithm.rs:121-134 | if a layer holds every frontier path of its length, the next layer holds every frontier path one position longer, unless more than `limit` distinct paths share a length |
| Search.NextLayerFacts | src/algorithm.rs:121-134 | one turn of the layer loop turns a layer of frontier paths that holds every path of its length, or is crowded, into one with the same property one position longer |
| Search.StuckLayerIsLongest | src/algorithm.rs:123 | a layer holding every frontier path of its length, when no path can be grown, leaves no longer frontier path |
| Search.ExtensionIsFrontierPath | src/algorithm.rs:184-205 | growing a frontier path gives a frontier path one position longer |
| Search.StuckLayerIsDeadEnds | src/algorithm.rs:121-134 | when no path of a layer can be grown, every pair leaving a path's last position leads back onto that path |
| Search.FinalLayer | src/algorithm.rs:103-134 | the loop ends with a non-empty layer of at most `limit` distinct simple walks along pairs, all the same length of at least 2 and none extendable; unless more than `limit` distinct walks share a length, that layer holds every walk of its length and no walk is longer |
| Search.SelectBest | src/algorithm.rs:141-153 | picks a path exactly when the layer is non-empty; no path is longer or as long with a higher score, and every earlier path is beaten |
| Search.Assemble | src/algorithm.rs:159-164 | the result lists the tracks at the path's positions, in order |
| Search.WalkFacts | src/algorithm.rs:85-167 | a dead-end walk along emitted pairs is a walk of the compatibility graph over keyed tracks that no edge leads off |
| Search.FrontierIsWalk | src/algorithm.rs:259-286 | over the emitted pairs, frontier paths are exactly the simple walks of the compatibility graph |
| Search.ScoreIsWalkScore | src/algorithm.rs:223-238 | a path's score through the weight map equals the sum of the movement weights along it |
| Search.BestOfFullLayer | src/algorithm.rs:141-153 | a path of a layer holding every longest walk, outranked by no path of the layer, is a longest walk and scores highest among the longest |
| Search.ChosenPathIsBest | src/algorithm.rs:141-160 | the selected path is a longest, highest-scoring walk unless more than `limit` walks share a length |
| Search.MelodicSortWithWeights | src/algorithm.rs:85-167 | empty exactly when there is no edge; otherwise the tracks of a simple, non-extendable walk of at least two keyed tracks, no longer than the input; unless more than `limit` distinct simple walks share a length, no walk is longer and none as long scores more |
| Search.MelodicSort | src/algorithm.rs:81-83 | the same, for the default weights and the frontier width 100 |

## Left out

- Logging (`info!`, `debug!`, `trace!`) has no effect on results and is not modelled.
- Hash-map iteration order: the source builds the first frontier by iterating a `HashMap`, so its order is unspecified. The model takes the edges in `build_pairs` order. Every contract holds for any order, but ties in trimming and best-path selection are resolved in this order.
- Integer widths: scores and weights are `i32` in the source and unbounded here. A sum past the `i32` range is not modelled.
- Tracks.NewTrack: the track id is an `Option<i32>` in the source and an unbounded `Option<int>` here. The search never reads the id; it only copies tracks.
- `forward_delta` computes `start - 1` on a `u8`. Key numbers are at least 1, so that subtraction never wraps, and the model uses unbounded integers.
- Tracks.FromPair: takes an already-parsed `Key`. `Key::from_camelot` is not part of this model, so its parsing and its `unwrap` panic are left out.
- The source passes 100 directly to `trim_top_lists` and `extend_layer`. The model makes the width a parameter of `MelodicSortWithWeights`, requires it to be at least 1, and has `MelodicSort` pass 100.
- The pipeline calls `melodic_sort(&tracks, limit)` with two arguments, while `src/algorithm.rs` declares `melodic_sort(tracks)`. The model follows `src/algorithm.rs`.
- The pipeline and the unit test call `Key::new` with a `KeyLetter` value. `src/types/key.rs` declares it with a `char`. The model follows `src/types/key.rs` and turns the letter into its character first.
- Audio decoding, key detection, the key cache, parallel analysis and file-system walking are I/O or foreign code, and are not modelled.
- Trim.TrimTopLists: the "kept beats dropped" clauses compare lists by value. When the input holds two equal lists and only one copy is kept, the dropped copy is not covered.
- Search.ExtendLayer: when it trims, it states that no dropped path outscores a kept one, but not how ties among equal scores fall. The candidate order behind those ties follows the layer and the grouped pairs, and is not stated.
- Search.MelodicSortWithWeights: when more than `limit` distinct simple walks share a length, claims only a maximal simple walk. The beam may then prune the longest or best walk, as in the source. It does not state which of several equally good walks is returned, and does not claim that a wider frontier never does worse.
