/** The layered beam search: grow simple paths one position per layer,
    keep the `limit` best of each layer, stop at the first layer that
    cannot be grown, and return the tracks of its longest, best-scoring
    path. */
module Search {
  import opened Wrappers
  import opened Tracks
  import opened Movements
  import opened Graph
  import opened Paths
  import opened Trim

  /** The frontier width the source hard-codes. */
  const DefaultLimit: nat := 100

  /** The smallest `i32`, the initial best score of the selection. */
  const I32Min: int := -0x8000_0000

  // ----- growing one layer -----

  /** Path `k` of the layer can be grown by the `j`-th pair leaving its last
      position: that pair's end is not yet on the path. */
  predicate ExtendsWith(layer: seq<Path>, byStart: map<nat, seq<Pair>>, k: nat, j: nat)
  {
    && k < |layer|
    && layer[k] != []
    && Last(layer[k]) in byStart
    && j < |byStart[Last(layer[k])]|
    && byStart[Last(layer[k])][j].end !in layer[k]
  }

  /** Some path of the layer can be grown. */
  ghost predicate CanExtend(layer: seq<Path>, byStart: map<nat, seq<Pair>>)
  {
    exists k: nat, j: nat :: ExtendsWith(layer, byStart, k, j)
  }

  /** `q` is a path of the layer grown by one pair leaving its last position
      to a position not yet on it. */
  ghost predicate IsExtension(layer: seq<Path>, byStart: map<nat, seq<Pair>>, q: Path)
  {
    exists k: nat, j: nat :: ExtendsWith(layer, byStart, k, j) && q == layer[k] + [byStart[Last(layer[k])][j].end]
  }

  /** More than `limit` distinct paths grow out of the layer. */
  ghost predicate ManyExtensions(layer: seq<Path>, byStart: map<nat, seq<Pair>>, limit: nat)
  {
    exists s: seq<Path> :: |s| > limit && Distinct(s) && forall x :: 0 <= x < |s| ==> IsExtension(layer, byStart, s[x])
  }

  /** `extend_layer`: every way of growing a path of the layer by one pair,
      each distinct path once, trimmed to the `limit` best. The result is
      empty exactly when no path of the layer can be grown; it holds every
      grown path unless more than `limit` distinct ones exist, and then it
      is `limit` paths none of which a dropped path outscores. */
  method ExtendLayer(layer: seq<Path>, byStart: map<nat, seq<Pair>>, wm: map<(nat, nat), int>, limit: nat)
    returns (next: seq<Path>)
    ensures forall x :: 0 <= x < |next| ==> IsExtension(layer, byStart, next[x])
    ensures Distinct(next)
    ensures |next| <= limit
    ensures limit >= 1 ==> (next == [] <==> !CanExtend(layer, byStart))
    ensures (forall q :: IsExtension(layer, byStart, q) ==> q in next)
         || (|next| == limit && ManyExtensions(layer, byStart, limit))
    ensures forall q, x :: IsExtension(layer, byStart, q) && q !in next && 0 <= x < |next| ==>
      PathScore(next[x], wm) >= PathScore(q, wm)
  {
    var candidates: seq<Path> := [];
    var seen: set<Path> := {};
    var k := 0;
    while k < |layer|
      invariant k <= |layer|
      invariant forall q :: q in seen <==> q in candidates
      invariant SoundCandidates(layer, byStart, candidates)
      invariant CollectedBefore(layer, byStart, candidates, k, 0)
    {
      var list := layer[k];
      if list != [] && Last(list) in byStart {
        var pairs := byStart[Last(list)];
        var j := 0;
        while j < |pairs|
          invariant j <= |pairs|
          invariant forall q :: q in seen <==> q in candidates
          invariant SoundCandidates(layer, byStart, candidates)
          invariant CollectedBefore(layer, byStart, candidates, k, j)
        {
          var pair := pairs[j];
          if !ListContains(list, pair.end) {
            var newList := list + [pair.end];
            assert ExtendsWith(layer, byStart, k, j);
            if newList !in seen {
              seen := seen + {newList};
              candidates := candidates + [newList];
            }
          }
          j := j + 1;
        }
      }
      k := k + 1;
    }
    AllExtensionsCollected(layer, byStart, candidates);
    next := TrimTopLists(candidates, wm, limit);
    TrimmedExtensions(layer, byStart, wm, limit, candidates, next);
  }

  /** What trimming the collected extensions leaves: extensions only, all
      of them unless there were more than `limit`, and none outscored by a
      dropped one. */
  lemma TrimmedExtensions(layer: seq<Path>, byStart: map<nat, seq<Pair>>, wm: map<(nat, nat), int>, limit: nat,
                          candidates: seq<Path>, next: seq<Path>)
    requires Distinct(candidates)
    requires forall x :: 0 <= x < |candidates| ==> IsExtension(layer, byStart, candidates[x])
    requires forall q :: IsExtension(layer, byStart, q) ==> q in candidates
    requires forall k :: 0 <= k < |next| ==> next[k] in candidates
    requires |candidates| <= limit ==> next == candidates
    requires |candidates| > limit ==> |next| == limit
    requires |candidates| > limit ==> forall k, j :: 0 <= k < |next| && 0 <= j < |candidates| && candidates[j] !in next ==>
      PathScore(next[k], wm) >= PathScore(candidates[j], wm)
    ensures forall x :: 0 <= x < |next| ==> IsExtension(layer, byStart, next[x])
    ensures (forall q :: IsExtension(layer, byStart, q) ==> q in next)
         || (|next| == limit && ManyExtensions(layer, byStart, limit))
    ensures forall q, x :: IsExtension(layer, byStart, q) && q !in next && 0 <= x < |next| ==>
      PathScore(next[x], wm) >= PathScore(q, wm)
  {
    forall x | 0 <= x < |next|
      ensures IsExtension(layer, byStart, next[x])
    {
      var y :| 0 <= y < |candidates| && candidates[y] == next[x];
    }
    forall q, x | IsExtension(layer, byStart, q) && q !in next && 0 <= x < |next|
      ensures PathScore(next[x], wm) >= PathScore(q, wm)
    {
      var y :| 0 <= y < |candidates| && candidates[y] == q;
    }
    if |candidates| > limit {
      assert ManyExtensions(layer, byStart, limit);
    }
  }

  /** Distinct candidates, each a grown path of the layer. */
  ghost predicate SoundCandidates(layer: seq<Path>, byStart: map<nat, seq<Pair>>, candidates: seq<Path>)
  {
    Distinct(candidates) && forall x :: 0 <= x < |candidates| ==> IsExtension(layer, byStart, candidates[x])
  }

  /** Every way of growing path `k'` by pair `j'` tried before path `k`,
      pair `j` is a candidate. */
  ghost predicate CollectedBefore(layer: seq<Path>, byStart: map<nat, seq<Pair>>, candidates: seq<Path>, k: nat, j: nat)
  {
    forall k': nat, j': nat :: ExtendsWith(layer, byStart, k', j') && (k' < k || (k' == k && j' < j)) ==>
      layer[k'] + [byStart[Last(layer[k'])][j'].end] in candidates
  }

  /** Once every pair leaving every path has been tried, every grown path
      is a candidate. */
  lemma AllExtensionsCollected(layer: seq<Path>, byStart: map<nat, seq<Pair>>, candidates: seq<Path>)
    requires SoundCandidates(layer, byStart, candidates)
    requires CollectedBefore(layer, byStart, candidates, |layer|, 0)
    ensures forall q :: IsExtension(layer, byStart, q) ==> q in candidates
    ensures CanExtend(layer, byStart) <==> candidates != []
  {
    if candidates != [] {
      assert IsExtension(layer, byStart, candidates[0]);
      var k0: nat, j0: nat :| ExtendsWith(layer, byStart, k0, j0) && candidates[0] == layer[k0] + [byStart[Last(layer[k0])][j0].end];
    }
    forall q | IsExtension(layer, byStart, q)
      ensures q in candidates
    {
      var k: nat, j: nat :| ExtendsWith(layer, byStart, k, j) && q == layer[k] + [byStart[Last(layer[k])][j].end];
    }
    if CanExtend(layer, byStart) {
      var k: nat, j: nat :| ExtendsWith(layer, byStart, k, j);
      assert layer[k] + [byStart[Last(layer[k])][j].end] in candidates;
    }
  }

  // ----- the layer loop -----

  /** Every step of the path is a pair of the list. */
  ghost predicate IsPairWalk(pairs: seq<Pair>, p: Path)
  {
    forall i :: 0 <= i < |p| - 1 ==> HasPair(pairs, p[i], p[i + 1])
  }

  /** A frontier path: simple, over positions below `n`, along pairs. */
  ghost predicate IsFrontierPath(pairs: seq<Pair>, n: nat, p: Path)
  {
    IsSimple(p) && InRange(p, n) && IsPairWalk(pairs, p)
  }

  /** No pair leaving the last position of the path leads off it. */
  ghost predicate IsDeadEnd(pairs: seq<Pair>, p: Path)
    requires p != []
  {
    forall k :: 0 <= k < |pairs| && pairs[k].start == Last(p) ==> pairs[k].end in p
  }

  /** The first frontier: one two-position path per pair, in pair order. */
  function InitialLayer(pairs: seq<Pair>): (layer: seq<Path>)
    ensures |layer| == |pairs|
    ensures forall k :: 0 <= k < |pairs| ==> layer[k] == [pairs[k].start, pairs[k].end]
  {
    seq(|pairs|, k requires 0 <= k < |pairs| => [pairs[k].start, pairs[k].end])
  }

  /** Appending the end of a pair leaving the last position continues a
      walk along pairs. */
  lemma AppendPairWalk(pairs: seq<Pair>, p: Path, x: nat)
    requires p != [] && IsPairWalk(pairs, p) && HasPair(pairs, Last(p), x)
    ensures IsPairWalk(pairs, p + [x])
  {
    var q := p + [x];
    forall s | 0 <= s < |q| - 1
      ensures HasPair(pairs, q[s], q[s + 1])
    {
      if s < |p| - 1 {
        assert q[s] == p[s] && q[s + 1] == p[s + 1];
      } else {
        assert q[s] == Last(p) && q[s + 1] == x;
      }
    }
  }

  /** Growing a frontier path along a pair to a position not yet on it
      gives a frontier path. */
  lemma GrowFrontierPath(pairs: seq<Pair>, n: nat, p: Path, x: nat)
    requires IsFrontierPath(pairs, n, p) && p != []
    requires x !in p && x < n && HasPair(pairs, Last(p), x)
    ensures IsFrontierPath(pairs, n, p + [x])
  {
    AppendSimple(p, x);
    AppendPairWalk(pairs, p, x);
    assert InRange(p + [x], n) by {
      forall a | 0 <= a < |p| + 1
        ensures (p + [x])[a] < n
      {
        if a < |p| {
          assert (p + [x])[a] == p[a];
        }
      }
    }
  }

  /** A path grown from a frontier path by a pair of the grouped view is a
      frontier path one position longer. */
  lemma ExtensionIsFrontierPath(pairs: seq<Pair>, byStart: map<nat, seq<Pair>>, n: nat,
                                current: seq<Path>, len: nat, q: Path)
    requires byStart == PairsByStart(pairs)
    requires forall k :: 0 <= k < |pairs| ==> pairs[k].end < n
    requires forall x :: 0 <= x < |current| ==> IsFrontierPath(pairs, n, current[x]) && |current[x]| == len
    requires IsExtension(current, byStart, q)
    ensures IsFrontierPath(pairs, n, q) && |q| == len + 1
  {
    var k: nat, j: nat :| ExtendsWith(current, byStart, k, j) && q == current[k] + [byStart[Last(current[k])][j].end];
    var p := current[k];
    var x := byStart[Last(p)][j].end;
    GroupedPairIsPair(pairs, Last(p), j);
    var i :| 0 <= i < |pairs| && pairs[i].start == Last(p) && pairs[i].end == x;
    GrowFrontierPath(pairs, n, p, x);
  }

  /** A layer none of whose paths can be grown consists of dead ends. */
  lemma StuckLayerIsDeadEnds(pairs: seq<Pair>, byStart: map<nat, seq<Pair>>, layer: seq<Path>, x: nat)
    requires byStart == PairsByStart(pairs)
    requires !CanExtend(layer, byStart)
    requires x < |layer| && layer[x] != []
    ensures IsDeadEnd(pairs, layer[x])
  {
    var p := layer[x];
    forall k | 0 <= k < |pairs| && pairs[k].start == Last(p)
      ensures pairs[k].end in p
    {
      GroupedHasEveryPair(pairs, k);
      var j :| 0 <= j < |byStart[Last(p)]| && byStart[Last(p)][j] == pairs[k];
      assert !ExtendsWith(layer, byStart, x, j);
    }
  }

  /** Each ordered pair of positions is joined by at most one pair, as
      `build_pairs` guarantees. */
  predicate EndsUnique(pairs: seq<Pair>)
  {
    forall a, b :: 0 <= a < b < |pairs| ==> (pairs[a].start, pairs[a].end) != (pairs[b].start, pairs[b].end)
  }

  /** The layer holds every frontier path with `len` positions. */
  ghost predicate HoldsAll(pairs: seq<Pair>, n: nat, layer: seq<Path>, len: nat)
  {
    forall p :: IsFrontierPath(pairs, n, p) && |p| == len ==> p in layer
  }

  /** More than `limit` distinct frontier paths share one length of at
      least two positions: the only case in which trimming drops a path. */
  ghost predicate Crowded(pairs: seq<Pair>, n: nat, limit: nat)
  {
    exists s: seq<Path>, len: nat :: len >= 2 && |s| > limit && Distinct(s) && AllFrontier(pairs, n, s, len)
  }

  /** Every path of `s` is a frontier path with `len` positions. */
  ghost predicate AllFrontier(pairs: seq<Pair>, n: nat, s: seq<Path>, len: nat)
  {
    forall x :: 0 <= x < |s| ==> IsFrontierPath(pairs, n, s[x]) && |s[x]| == len
  }

  /** Dropping the last position of a frontier path leaves a frontier path. */
  lemma DropLast(pairs: seq<Pair>, n: nat, p: Path)
    requires IsFrontierPath(pairs, n, p) && p != []
    ensures IsFrontierPath(pairs, n, p[..|p| - 1])
  {
    var f := p[..|p| - 1];
    forall i | 0 <= i < |f| - 1
      ensures HasPair(pairs, f[i], f[i + 1])
    {
      assert f[i] == p[i] && f[i + 1] == p[i + 1];
    }
  }

  /** The first `m` positions of a frontier path form a frontier path. */
  lemma {:induction false} Prefix(pairs: seq<Pair>, n: nat, p: Path, m: nat)
    requires IsFrontierPath(pairs, n, p) && m <= |p|
    ensures IsFrontierPath(pairs, n, p[..m])
    decreases |p| - m
  {
    if m < |p| {
      Prefix(pairs, n, p, m + 1);
      DropLast(pairs, n, p[..m + 1]);
      assert p[..m + 1][..m] == p[..m];
    }
  }

  /** A frontier path is its front followed by a pair step to a position
      not on the front. */
  lemma LastStep(pairs: seq<Pair>, n: nat, p: Path)
    requires IsFrontierPath(pairs, n, p) && |p| >= 2
    ensures p == p[..|p| - 1] + [p[|p| - 1]]
    ensures HasPair(pairs, Last(p[..|p| - 1]), p[|p| - 1])
    ensures p[|p| - 1] !in p[..|p| - 1]
  {
    var f := p[..|p| - 1];
    assert f + [p[|p| - 1]] == p;
    assert Last(f) == p[|p| - 2];
    forall a | 0 <= a < |f|
      ensures f[a] != p[|p| - 1]
    {
      assert f[a] == p[a];
    }
  }

  /** The grouped view lists a pair from `a` to `b` under `a`. */
  lemma GroupedEntry(pairs: seq<Pair>, a: nat, b: nat)
    requires HasPair(pairs, a, b)
    ensures a in PairsByStart(pairs)
    ensures exists j :: 0 <= j < |PairsByStart(pairs)[a]| && PairsByStart(pairs)[a][j].end == b
  {
    var i :| 0 <= i < |pairs| && pairs[i].start == a && pairs[i].end == b;
    GroupedHasEveryPair(pairs, i);
  }

  /** A path of the layer followed by a pair step to a new position grows
      out of the layer. */
  lemma GrowsOutOf(pairs: seq<Pair>, byStart: map<nat, seq<Pair>>, layer: seq<Path>, f: Path, x: nat)
    requires byStart == PairsByStart(pairs)
    requires f in layer && f != []
    requires HasPair(pairs, Last(f), x) && x !in f
    ensures IsExtension(layer, byStart, f + [x])
  {
    var k :| 0 <= k < |layer| && layer[k] == f;
    GroupedEntry(pairs, Last(f), x);
    var j :| 0 <= j < |byStart[Last(f)]| && byStart[Last(f)][j].end == x;
    assert ExtendsWith(layer, byStart, k, j);
  }

  /** A layer holding every frontier path of its length holds the front of
      every frontier path one position longer. */
  lemma FrontHeld(pairs: seq<Pair>, n: nat, layer: seq<Path>, len: nat, p: Path)
    requires HoldsAll(pairs, n, layer, len)
    requires IsFrontierPath(pairs, n, p) && |p| == len + 1
    ensures p[..len] in layer
  {
    DropLast(pairs, n, p);
  }

  /** More than `limit` distinct extensions of a layer of frontier paths
      make the frontier paths crowded. */
  lemma ManyExtensionsCrowd(pairs: seq<Pair>, byStart: map<nat, seq<Pair>>, n: nat, limit: nat,
                            current: seq<Path>, len: nat)
    requires byStart == PairsByStart(pairs)
    requires forall k :: 0 <= k < |pairs| ==> pairs[k].end < n
    requires len >= 1
    requires forall x :: 0 <= x < |current| ==> IsFrontierPath(pairs, n, current[x]) && |current[x]| == len
    requires ManyExtensions(current, byStart, limit)
    ensures Crowded(pairs, n, limit)
  {
    var s: seq<Path> :| |s| > limit && Distinct(s) && forall x :: 0 <= x < |s| ==> IsExtension(current, byStart, s[x]);
    forall x | 0 <= x < |s|
      ensures IsFrontierPath(pairs, n, s[x]) && |s[x]| == len + 1
    {
      ExtensionIsFrontierPath(pairs, byStart, n, current, len, s[x]);
    }
    assert AllFrontier(pairs, n, s, len + 1);
  }

  /** If a layer holds every frontier path of its length and the next layer
      holds every extension of it, the next layer holds every frontier path
      one position longer. */
  lemma NextHoldsAll(pairs: seq<Pair>, byStart: map<nat, seq<Pair>>, n: nat,
                     current: seq<Path>, len: nat, next: seq<Path>)
    requires byStart == PairsByStart(pairs)
    requires len >= 1 && HoldsAll(pairs, n, current, len)
    requires forall q :: IsExtension(current, byStart, q) ==> q in next
    ensures HoldsAll(pairs, n, next, len + 1)
  {
    forall p | IsFrontierPath(pairs, n, p) && |p| == len + 1
      ensures p in next
    {
      FrontHeld(pairs, n, current, len, p);
      LastStep(pairs, n, p);
      GrowsOutOf(pairs, byStart, current, p[..|p| - 1], p[|p| - 1]);
    }
  }

  /** Coverage carries from one layer to the next: either the paths are
      crowded, or the next layer again holds every frontier path of its
      length. */
  lemma CoverageStep(pairs: seq<Pair>, byStart: map<nat, seq<Pair>>, n: nat, limit: nat,
                     current: seq<Path>, len: nat, next: seq<Path>)
    requires byStart == PairsByStart(pairs)
    requires forall k :: 0 <= k < |pairs| ==> pairs[k].end < n
    requires len >= 1
    requires forall x :: 0 <= x < |current| ==> IsFrontierPath(pairs, n, current[x]) && |current[x]| == len
    requires Crowded(pairs, n, limit) || HoldsAll(pairs, n, current, len)
    requires (forall q :: IsExtension(current, byStart, q) ==> q in next) || ManyExtensions(current, byStart, limit)
    ensures Crowded(pairs, n, limit) || HoldsAll(pairs, n, next, len + 1)
  {
    if ManyExtensions(current, byStart, limit) {
      ManyExtensionsCrowd(pairs, byStart, n, limit, current, len);
    } else if HoldsAll(pairs, n, current, len) {
      NextHoldsAll(pairs, byStart, n, current, len, next);
    }
  }

  /** A layer that holds every frontier path of its length and cannot be
      grown has the longest frontier paths there are. */
  lemma StuckLayerIsLongest(pairs: seq<Pair>, byStart: map<nat, seq<Pair>>, n: nat, layer: seq<Path>, len: nat)
    requires byStart == PairsByStart(pairs)
    requires len >= 1 && HoldsAll(pairs, n, layer, len)
    ensures forall p :: IsFrontierPath(pairs, n, p) && |p| > len ==> CanExtend(layer, byStart)
  {
    forall p | IsFrontierPath(pairs, n, p) && |p| > len
      ensures CanExtend(layer, byStart)
    {
      var q := p[..len + 1];
      Prefix(pairs, n, p, len + 1);
      FrontHeld(pairs, n, layer, len, q);
      LastStep(pairs, n, q);
      GrowsOutOf(pairs, byStart, layer, q[..|q| - 1], q[|q| - 1]);
    }
  }

  /** The first frontier, trimmed: distinct two-position paths along pairs.
      It is every pair's path when there are at most `limit` pairs, and
      otherwise the first `limit` of them in the stable descending sort by
      score, so that no dropped path outscores a kept one. */
  method InitialFrontier(pairs: seq<Pair>, wm: map<(nat, nat), int>, n: nat, limit: nat)
    returns (current: seq<Path>)
    requires pairs != [] && limit >= 1 && EndsUnique(pairs)
    requires forall k :: 0 <= k < |pairs| ==> pairs[k].start != pairs[k].end && pairs[k].start < n && pairs[k].end < n
    ensures current != [] && |current| <= limit
    ensures forall x :: 0 <= x < |current| ==> IsFrontierPath(pairs, n, current[x]) && |current[x]| == 2
    ensures Distinct(current)
    ensures |pairs| <= limit ==> current == InitialLayer(pairs)
    ensures |pairs| > limit ==> |current| == limit
    ensures |pairs| > limit ==>
      current == Select(InitialLayer(pairs), RankIndices(Scores(InitialLayer(pairs), wm)), limit)
    ensures forall k, x :: 0 <= k < |pairs| && InitialLayer(pairs)[k] !in current && 0 <= x < |current| ==>
      PathScore(current[x], wm) >= PathScore(InitialLayer(pairs)[k], wm)
    ensures Crowded(pairs, n, limit) || HoldsAll(pairs, n, current, 2)
  {
    var initial := InitialLayer(pairs);
    InitialLayerFacts(pairs, n, limit);
    current := TrimTopLists(initial, wm, limit);
  }

  /** The untrimmed first layer: distinct frontier paths of two positions,
      every such path, and crowded when longer than `limit`. */
  lemma InitialLayerFacts(pairs: seq<Pair>, n: nat, limit: nat)
    requires EndsUnique(pairs)
    requires forall k :: 0 <= k < |pairs| ==> pairs[k].start != pairs[k].end && pairs[k].start < n && pairs[k].end < n
    ensures Distinct(InitialLayer(pairs))
    ensures AllFrontier(pairs, n, InitialLayer(pairs), 2)
    ensures HoldsAll(pairs, n, InitialLayer(pairs), 2)
    ensures |pairs| > limit ==> Crowded(pairs, n, limit)
  {
    var initial := InitialLayer(pairs);
    forall x | 0 <= x < |initial|
      ensures IsFrontierPath(pairs, n, initial[x]) && |initial[x]| == 2
    {
      assert HasPair(pairs, initial[x][0], initial[x][1]);
    }
    forall p | IsFrontierPath(pairs, n, p) && |p| == 2
      ensures p in initial
    {
      assert HasPair(pairs, p[0], p[1]);
      var k :| 0 <= k < |pairs| && pairs[k].start == p[0] && pairs[k].end == p[1];
      assert initial[k] == p;
    }
    assert Distinct(initial) by {
      forall a, b | 0 <= a < b < |initial|
        ensures initial[a] != initial[b]
      {
        assert initial[a][0] == pairs[a].start && initial[a][1] == pairs[a].end;
      }
    }
    if |pairs| > limit {
      assert AllFrontier(pairs, n, initial, 2);
    }
  }

  /** Either the frontier paths are crowded, or the layer holds every
      frontier path with `len` positions. */
  ghost predicate Covered(pairs: seq<Pair>, n: nat, limit: nat, layer: seq<Path>, len: nat)
  {
    Crowded(pairs, n, limit) || HoldsAll(pairs, n, layer, len)
  }

  /** `next` holds every extension of `current`, unless more than `limit`
      distinct extensions exist. */
  ghost predicate GrownFully(current: seq<Path>, byStart: map<nat, seq<Pair>>, limit: nat, next: seq<Path>)
  {
    (forall q :: IsExtension(current, byStart, q) ==> q in next) || ManyExtensions(current, byStart, limit)
  }

  /** The last layer of an uncrowded search holds every frontier path of
      its length, and no frontier path is longer. */
  lemma FinalCoverage(pairs: seq<Pair>, byStart: map<nat, seq<Pair>>, n: nat, limit: nat, layer: seq<Path>, len: nat)
    requires byStart == PairsByStart(pairs)
    requires len >= 1 && Covered(pairs, n, limit, layer, len)
    requires !CanExtend(layer, byStart)
    ensures Crowded(pairs, n, limit) || HoldsAll(pairs, n, layer, len)
    ensures Crowded(pairs, n, limit) || forall p :: IsFrontierPath(pairs, n, p) ==> |p| <= len
  {
    if !Crowded(pairs, n, limit) {
      StuckLayerIsLongest(pairs, byStart, n, layer, len);
    }
  }

  /** One turn of the layer loop: a layer grown fully, or as far as
      `limit` allows, from a covering layer of frontier paths is again a
      covering layer of frontier paths, one position longer. */
  lemma NextLayerFacts(pairs: seq<Pair>, byStart: map<nat, seq<Pair>>, n: nat, limit: nat,
                       current: seq<Path>, len: nat, next: seq<Path>)
    requires byStart == PairsByStart(pairs)
    requires forall k :: 0 <= k < |pairs| ==> pairs[k].end < n
    requires len >= 1 && AllFrontier(pairs, n, current, len) && Covered(pairs, n, limit, current, len)
    requires forall x :: 0 <= x < |next| ==> IsExtension(current, byStart, next[x])
    requires GrownFully(current, byStart, limit, next)
    ensures AllFrontier(pairs, n, next, len + 1)
    ensures Covered(pairs, n, limit, next, len + 1)
  {
    forall x | 0 <= x < |next|
      ensures IsFrontierPath(pairs, n, next[x]) && |next[x]| == len + 1
    {
      ExtensionIsFrontierPath(pairs, byStart, n, current, len, next[x]);
    }
    CoverageStep(pairs, byStart, n, limit, current, len, next);
  }

  /** The layer loop of `melodic_sort_with_weights`: start from one path per
      pair, trimmed, and grow layer by layer until growing yields nothing.
      Every layer lengthens its paths by one and simple paths over `n`
      positions have at most `n` entries, so the loop ends. Unless the
      paths are crowded, the last layer holds every longest frontier path. */
  method FinalLayer(pairs: seq<Pair>, byStart: map<nat, seq<Pair>>, wm: map<(nat, nat), int>, n: nat, limit: nat)
    returns (layer: seq<Path>)
    requires pairs != [] && limit >= 1 && EndsUnique(pairs)
    requires forall k :: 0 <= k < |pairs| ==> pairs[k].start != pairs[k].end && pairs[k].start < n && pairs[k].end < n
    requires byStart == PairsByStart(pairs)
    ensures layer != [] && |layer| <= limit && Distinct(layer)
    ensures forall x :: 0 <= x < |layer| ==> IsFrontierPath(pairs, n, layer[x]) && |layer[x]| == |layer[0]| >= 2
    ensures forall x :: 0 <= x < |layer| ==> IsDeadEnd(pairs, layer[x])
    ensures Crowded(pairs, n, limit) || HoldsAll(pairs, n, layer, |layer[0]|)
    ensures Crowded(pairs, n, limit) || forall p :: IsFrontierPath(pairs, n, p) ==> |p| <= |layer[0]|
  {
    var current := InitialFrontier(pairs, wm, n, limit);
    var depth: nat := 0;
    var next := ExtendLayer(current, byStart, wm, limit);
    while next != []
      invariant current != [] && |current| <= limit && Distinct(current)
      invariant AllFrontier(pairs, n, current, depth + 2)
      invariant depth + 2 <= n
      invariant forall x :: 0 <= x < |next| ==> IsExtension(current, byStart, next[x])
      invariant |next| <= limit && Distinct(next)
      invariant next == [] <==> !CanExtend(current, byStart)
      invariant GrownFully(current, byStart, limit, next)
      invariant Covered(pairs, n, limit, current, depth + 2)
      decreases n - depth
    {
      NextLayerFacts(pairs, byStart, n, limit, current, depth + 2, next);
      SimpleBound(next[0], n);
      current := next;
      depth := depth + 1;
      next := ExtendLayer(current, byStart, wm, limit);
    }
    layer := current;
    forall x | 0 <= x < |layer|
      ensures IsDeadEnd(pairs, layer[x])
    {
      StuckLayerIsDeadEnds(pairs, byStart, layer, x);
    }
    assert |layer[0]| == depth + 2;
    FinalCoverage(pairs, byStart, n, limit, layer, depth + 2);
  }

  // ----- choosing the best path -----

  /** Path `a` beats path `b`: longer, or as long and scoring more. */
  predicate Outranks(a: Path, b: Path, wm: map<(nat, nat), int>)
  {
    |a| > |b| || (|a| == |b| && PathScore(a, wm) > PathScore(b, wm))
  }

  /** The selection loop of `melodic_sort_with_weights`: the position of the
      first path that no path of the layer beats. */
  method SelectBest(layer: seq<Path>, wm: map<(nat, nat), int>) returns (best: Option<nat>)
    ensures layer != [] <==> best.Some?
    ensures best.Some? ==> best.value < |layer|
    ensures best.Some? ==> forall k :: 0 <= k < |layer| ==> !Outranks(layer[k], layer[best.value], wm)
    ensures best.Some? ==> forall k :: 0 <= k < best.value ==> Outranks(layer[best.value], layer[k], wm)
  {
    best := None;
    var bestLen := 0;
    var bestScore := I32Min;
    var i := 0;
    while i < |layer|
      invariant i <= |layer|
      invariant best.None? <==> i == 0
      invariant best.None? ==> bestLen == 0 && bestScore == I32Min
      invariant best.Some? ==> best.value < i && bestLen == |layer[best.value]| && bestScore == PathScore(layer[best.value], wm)
      invariant forall k :: 0 <= k < i ==>
        !(|layer[k]| > bestLen || (|layer[k]| == bestLen && PathScore(layer[k], wm) > bestScore))
      invariant best.Some? ==> forall k :: 0 <= k < best.value ==> Outranks(layer[best.value], layer[k], wm)
    {
      var len := |layer[i]|;
      var score := ListScore(layer[i], wm);
      assert i == 0 ==> len > bestLen || (len == bestLen && score > bestScore);
      if len > bestLen || (len == bestLen && score > bestScore) {
        bestLen := len;
        bestScore := score;
        best := Some(i);
      }
      i := i + 1;
    }
  }

  // ----- the whole search -----

  /** Every step of the path is an edge of the compatibility graph. */
  ghost predicate IsTrackWalk(tracks: seq<Track>, p: Path)
  {
    forall i :: 0 <= i < |p| - 1 ==> IsEdge(tracks, p[i], p[i + 1])
  }

  /** `result` lists the tracks at the positions of `path`, a simple walk of
      the compatibility graph that cannot be continued: every edge leaving
      its last track leads back onto it. */
  ghost predicate Arranges(tracks: seq<Track>, path: Path, result: seq<Track>)
  {
    && |path| == |result|
    && IsSimple(path)
    && InRange(path, |tracks|)
    && IsTrackWalk(tracks, path)
    && (forall i :: 0 <= i < |path| ==> result[i] == tracks[path[i]])
    && (path != [] ==> |path| >= 2 && forall e :: IsEdge(tracks, Last(path), e) ==> e in path)
  }

  /** A simple walk of the compatibility graph. */
  ghost predicate IsSimpleWalk(tracks: seq<Track>, p: Path)
  {
    IsSimple(p) && InRange(p, |tracks|) && IsTrackWalk(tracks, p)
  }

  /** The weight of the movement from track `a` to track `b`, or 0 when
      there is none. */
  function StepScore(tracks: seq<Track>, w: MovementWeights, a: nat, b: nat): (r: int)
  {
    if IsEdge(tracks, a, b) then Weight(w, MovementOf(tracks, a, b).value) else 0
  }

  /** The sum of the movement weights along a walk. */
  function WalkScore(tracks: seq<Track>, w: MovementWeights, p: Path): (r: int)
  {
    if |p| < 2 then 0 else WalkScore(tracks, w, p[..|p| - 1]) + StepScore(tracks, w, p[|p| - 2], p[|p| - 1])
  }

  /** Every path of `s` is a simple walk with `len` positions. */
  ghost predicate AllWalks(tracks: seq<Track>, s: seq<Path>, len: nat)
  {
    forall x :: 0 <= x < |s| ==> IsSimpleWalk(tracks, s[x]) && |s[x]| == len
  }

  /** More than `limit` distinct simple walks share one length of at least
      two tracks, so a layer of the search may be trimmed. */
  ghost predicate ManyWalks(tracks: seq<Track>, limit: nat)
  {
    exists s: seq<Path>, len: nat :: len >= 2 && |s| > limit && Distinct(s) && AllWalks(tracks, s, len)
  }

  /** No simple walk of two or more tracks is longer than `p`, and none as
      long scores more. */
  ghost predicate IsBestWalk(tracks: seq<Track>, w: MovementWeights, p: Path)
  {
    forall q :: IsSimpleWalk(tracks, q) && |q| >= 2 ==>
      |q| < |p| || (|q| == |p| && WalkScore(tracks, w, q) <= WalkScore(tracks, w, p))
  }

  /** Over the pairs `build_pairs` emits, frontier paths are exactly the
      simple walks of the graph. */
  lemma FrontierIsWalk(tracks: seq<Track>, w: MovementWeights, pairs: seq<Pair>, p: Path)
    requires pairs == BuildPairs(tracks, w)
    ensures IsFrontierPath(pairs, |tracks|, p) <==> IsSimpleWalk(tracks, p)
  {
    assert IsPairWalk(pairs, p) <==> IsTrackWalk(tracks, p);
  }

  /** The score through the weight view equals the sum of movement weights. */
  lemma {:induction false} ScoreIsWalkScore(tracks: seq<Track>, w: MovementWeights, p: Path)
    ensures PathScore(p, PairWeights(BuildPairs(tracks, w))) == WalkScore(tracks, w, p)
  {
    if |p| >= 2 {
      ScoreIsWalkScore(tracks, w, p[..|p| - 1]);
      PairWeightsOfBuild(tracks, w, p[|p| - 2], p[|p| - 1]);
    }
  }

  /** Crowded frontier paths over the emitted pairs are many simple walks. */
  lemma CrowdedIsManyWalks(tracks: seq<Track>, w: MovementWeights, pairs: seq<Pair>, limit: nat)
    requires pairs == BuildPairs(tracks, w)
    requires Crowded(pairs, |tracks|, limit)
    ensures ManyWalks(tracks, limit)
  {
    var s: seq<Path>, len: nat :| len >= 2 && |s| > limit && Distinct(s) && AllFrontier(pairs, |tracks|, s, len);
    forall x | 0 <= x < |s|
      ensures IsSimpleWalk(tracks, s[x]) && |s[x]| == len
    {
      FrontierIsWalk(tracks, w, pairs, s[x]);
    }
    assert AllWalks(tracks, s, len);
  }

  /** A path of a layer holding every longest frontier path, which no path
      of the layer outranks, is a best walk. */
  lemma BestOfFullLayer(tracks: seq<Track>, w: MovementWeights, pairs: seq<Pair>, layer: seq<Path>, path: Path)
    requires pairs == BuildPairs(tracks, w)
    requires HoldsAll(pairs, |tracks|, layer, |path|)
    requires forall p :: IsFrontierPath(pairs, |tracks|, p) ==> |p| <= |path|
    requires forall k :: 0 <= k < |layer| ==> !Outranks(layer[k], path, PairWeights(pairs))
    ensures IsBestWalk(tracks, w, path)
  {
    forall q | IsSimpleWalk(tracks, q) && |q| >= 2
      ensures |q| < |path| || (|q| == |path| && WalkScore(tracks, w, q) <= WalkScore(tracks, w, path))
    {
      FrontierIsWalk(tracks, w, pairs, q);
      if |q| == |path| {
        var k :| 0 <= k < |layer| && layer[k] == q;
        assert !Outranks(q, path, PairWeights(pairs));
        ScoreIsWalkScore(tracks, w, q);
        ScoreIsWalkScore(tracks, w, path);
      }
    }
  }

  /** With no pair emitted, no two tracks form an edge. */
  lemma NoEdgeNoStep(tracks: seq<Track>, w: MovementWeights, a: nat, b: nat)
    requires BuildPairs(tracks, w) == []
    ensures !IsEdge(tracks, a, b)
  {
    assert !HasPair(BuildPairs(tracks, w), a, b);
  }

  /** With no edge, the empty walk is best: no walk has two tracks. */
  lemma NoEdgeBest(tracks: seq<Track>, w: MovementWeights)
    requires BuildPairs(tracks, w) == []
    ensures IsBestWalk(tracks, w, [])
  {
    forall q | IsSimpleWalk(tracks, q)
      ensures |q| < 2
    {
      if |q| >= 2 {
        NoEdgeNoStep(tracks, w, q[0], q[1]);
      }
    }
  }

  /** `melodic_sort_with_weights`, with the frontier width as a parameter.
      No edge gives no tracks; otherwise the tracks of a maximal simple walk
      of the graph, each keyed and none repeated. Unless more than `limit`
      simple walks share a length, so that trimming can drop one, the walk
      is a longest one and scores highest among the longest. */
  method MelodicSortWithWeights(tracks: seq<Track>, weights: MovementWeights, limit: nat) returns (result: seq<Track>)
    requires limit >= 1
    ensures result == [] <==> BuildPairs(tracks, weights) == []
    ensures exists path :: Arranges(tracks, path, result) && (ManyWalks(tracks, limit) || IsBestWalk(tracks, weights, path))
    ensures |result| <= |tracks|
    ensures forall i :: 0 <= i < |result| ==> result[i].key.Some?
  {
    var pairs := BuildPairs(tracks, weights);
    if |pairs| == 0 {
      result := [];
      NoEdgeBest(tracks, weights);
      assert Arranges(tracks, [], result);
      return;
    }
    var byStart := PairsByStart(pairs);
    var wm := PairWeights(pairs);
    PairsFitSearch(tracks, weights, pairs);
    var layer := FinalLayer(pairs, byStart, wm, |tracks|, limit);
    var best := SelectBest(layer, wm);
    var path := layer[best.value];
    result := Assemble(tracks, path);
    ChosenArranges(tracks, weights, pairs, path, result);
    ChosenPathIsBest(tracks, weights, pairs, limit, layer, best.value);
  }

  /** The tracks of a dead-end frontier path over the emitted pairs arrange
      the tracks along a maximal simple walk of keyed tracks. */
  lemma ChosenArranges(tracks: seq<Track>, w: MovementWeights, pairs: seq<Pair>, path: Path, result: seq<Track>)
    requires pairs == BuildPairs(tracks, w)
    requires |path| >= 2 && IsFrontierPath(pairs, |tracks|, path) && IsDeadEnd(pairs, path)
    requires |result| == |path| && forall i :: 0 <= i < |path| ==> result[i] == tracks[path[i]]
    ensures Arranges(tracks, path, result)
    ensures |result| <= |tracks|
    ensures forall i :: 0 <= i < |result| ==> result[i].key.Some?
  {
    WalkFacts(tracks, w, pairs, path);
    SimpleBound(path, |tracks|);
  }

  /** The emitted pairs meet what the layer loop asks of its pairs. */
  lemma PairsFitSearch(tracks: seq<Track>, w: MovementWeights, pairs: seq<Pair>)
    requires pairs == BuildPairs(tracks, w)
    ensures EndsUnique(pairs)
    ensures forall k :: 0 <= k < |pairs| ==> pairs[k].start != pairs[k].end && pairs[k].start < |tracks| && pairs[k].end < |tracks|
  {
    forall k | 0 <= k < |pairs|
      ensures pairs[k].start != pairs[k].end && pairs[k].start < |tracks| && pairs[k].end < |tracks|
    {
      SoundPairFacts(tracks, w, pairs[k]);
    }
    forall a, b | 0 <= a < b < |pairs|
      ensures (pairs[a].start, pairs[a].end) != (pairs[b].start, pairs[b].end)
    {
      OrderedPairsUnique(pairs, a, b);
    }
  }

  /** The path the selection picks from the last layer is a best walk,
      unless the walks are crowded. */
  lemma ChosenPathIsBest(tracks: seq<Track>, w: MovementWeights, pairs: seq<Pair>, limit: nat, layer: seq<Path>, b: nat)
    requires pairs == BuildPairs(tracks, w)
    requires b < |layer| && forall x :: 0 <= x < |layer| ==> |layer[x]| == |layer[0]|
    requires Crowded(pairs, |tracks|, limit) || HoldsAll(pairs, |tracks|, layer, |layer[0]|)
    requires Crowded(pairs, |tracks|, limit) || forall p :: IsFrontierPath(pairs, |tracks|, p) ==> |p| <= |layer[0]|
    requires forall k :: 0 <= k < |layer| ==> !Outranks(layer[k], layer[b], PairWeights(pairs))
    ensures ManyWalks(tracks, limit) || IsBestWalk(tracks, w, layer[b])
  {
    if Crowded(pairs, |tracks|, limit) {
      CrowdedIsManyWalks(tracks, w, pairs, limit);
    } else {
      BestOfFullLayer(tracks, w, pairs, layer, layer[b]);
    }
  }

  /** Result assembly: the tracks at the positions of the path, in order. */
  method Assemble(tracks: seq<Track>, path: Path) returns (result: seq<Track>)
    requires InRange(path, |tracks|)
    ensures |result| == |path|
    ensures forall i :: 0 <= i < |path| ==> result[i] == tracks[path[i]]
  {
    result := [];
    var i := 0;
    while i < |path|
      invariant i <= |path|
      invariant |result| == i
      invariant forall x :: 0 <= x < i ==> result[x] == tracks[path[x]]
    {
      result := result + [tracks[path[i]]];
      i := i + 1;
    }
  }

  /** A frontier path over the pairs `build_pairs` emits is a walk of the
      compatibility graph through keyed tracks, and if no pair leads off it,
      no edge does. */
  lemma WalkFacts(tracks: seq<Track>, weights: MovementWeights, pairs: seq<Pair>, path: Path)
    requires pairs == BuildPairs(tracks, weights)
    requires |path| >= 2 && InRange(path, |tracks|) && IsPairWalk(pairs, path) && IsDeadEnd(pairs, path)
    ensures IsTrackWalk(tracks, path)
    ensures forall i :: 0 <= i < |path| ==> tracks[path[i]].key.Some?
    ensures forall e :: IsEdge(tracks, Last(path), e) ==> e in path
  {
    forall i | 0 <= i < |path|
      ensures tracks[path[i]].key.Some?
    {
      if i < |path| - 1 {
        assert IsEdge(tracks, path[i], path[i + 1]);
      } else {
        assert IsEdge(tracks, path[i - 1], path[i]);
      }
    }
    forall e | IsEdge(tracks, Last(path), e)
      ensures e in path
    {
      var k :| 0 <= k < |pairs| && pairs[k].start == Last(path) && pairs[k].end == e;
    }
  }

  /** `melodic_sort`: the default weights and the frontier width of 100. */
  method MelodicSort(tracks: seq<Track>) returns (result: seq<Track>)
    ensures result == [] <==> BuildPairs(tracks, DefaultWeights()) == []
    ensures exists path ::
      Arranges(tracks, path, result) && (ManyWalks(tracks, DefaultLimit) || IsBestWalk(tracks, DefaultWeights(), path))
    ensures |result| <= |tracks|
    ensures forall i :: 0 <= i < |result| ==> result[i].key.Some?
  {
    result := MelodicSortWithWeights(tracks, DefaultWeights(), DefaultLimit);
  }
}
