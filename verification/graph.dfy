/** The compatibility graph: one weighted directed edge (`Pair`) for every
    ordered pair of distinct keyed tracks whose keys form a recognised
    movement, and the two lookup views the search reads. */
module Graph {
  import opened Wrappers
  import opened Keys
  import opened Tracks
  import opened Movements

  /** A directed edge between track positions, with its weight. */
  datatype Pair = Pair(start: nat, end: nat, weight: int)

  /** The movement from track `i` to track `j`, when both are distinct
      positions of keyed tracks and their keys form a recognised movement. */
  function MovementOf(tracks: seq<Track>, i: nat, j: nat): (r: Option<Movement>)
  {
    if i < |tracks| && j < |tracks| && i != j && tracks[i].key.Some? && tracks[j].key.Some?
    then MovementBetween(tracks[i].key.value, tracks[j].key.value)
    else None
  }

  predicate IsEdge(tracks: seq<Track>, i: nat, j: nat)
  {
    MovementOf(tracks, i, j).Some?
  }

  /** An emitted pair is an edge and carries the weight of its movement. */
  predicate SoundPair(tracks: seq<Track>, w: MovementWeights, p: Pair)
  {
    IsEdge(tracks, p.start, p.end) && p.weight == Weight(w, MovementOf(tracks, p.start, p.end).value)
  }

  /** Lexicographic order on (start, end). */
  predicate PairBefore(p: Pair, q: Pair)
  {
    p.start < q.start || (p.start == q.start && p.end < q.end)
  }

  /** Some pair of the list goes from `i` to `j`. */
  predicate HasPair(pairs: seq<Pair>, i: nat, j: nat)
  {
    exists k :: 0 <= k < |pairs| && pairs[k].start == i && pairs[k].end == j
  }

  /** Three tracks keyed 7A, 8A and 7B: every ordered pair of distinct
      positions is an edge, six in all, since 8A and 7B are also a
      subdominant/dominant step apart. */
  lemma ThreeTrackEdges(tracks: seq<Track>)
    requires |tracks| == 3
    requires tracks[0].key == Some(Key(7, A)) && tracks[1].key == Some(Key(8, A)) && tracks[2].key == Some(Key(7, B))
    ensures MovementOf(tracks, 0, 1) == Some(EnergyBoost)
    ensures MovementOf(tracks, 1, 0) == Some(EnergyDrop)
    ensures MovementOf(tracks, 0, 2) == Some(EnergySwitch)
    ensures MovementOf(tracks, 2, 0) == Some(EnergySwitch)
    ensures MovementOf(tracks, 1, 2) == Some(SubDomKey)
    ensures MovementOf(tracks, 2, 1) == Some(DomKey)
  {
    ThreeKeySteps();
  }

  /** The pair for tracks `i` and `j`, if they form an edge. */
  function PairAt(tracks: seq<Track>, w: MovementWeights, i: nat, j: nat): (r: seq<Pair>)
  {
    match MovementOf(tracks, i, j)
    case None => []
    case Some(movement) => [Pair(i, j, Weight(w, movement))]
  }

  /** The inner loop of `build_pairs`: edges from track `i` to tracks
      `j`, `j + 1`, ... in order. */
  function RowPairs(tracks: seq<Track>, w: MovementWeights, i: nat, j: nat): (r: seq<Pair>)
    requires j <= |tracks|
    decreases |tracks| - j
  {
    if j == |tracks| then [] else PairAt(tracks, w, i, j) + RowPairs(tracks, w, i, j + 1)
  }

  /** The outer loop of `build_pairs`: edges from tracks `i`, `i + 1`, ...;
      a keyless start track contributes no edge. */
  function PairsFrom(tracks: seq<Track>, w: MovementWeights, i: nat): (r: seq<Pair>)
    requires i <= |tracks|
    decreases |tracks| - i
  {
    if i == |tracks| then []
    else (if tracks[i].key.None? then [] else RowPairs(tracks, w, i, 0)) + PairsFrom(tracks, w, i + 1)
  }

  /** One row holds only sound pairs from `i` to tracks `j` onwards. */
  lemma {:induction false} RowPairsSound(tracks: seq<Track>, w: MovementWeights, i: nat, j: nat)
    requires j <= |tracks|
    ensures forall k :: 0 <= k < |RowPairs(tracks, w, i, j)| ==> RowPairs(tracks, w, i, j)[k].start == i
    ensures forall k :: 0 <= k < |RowPairs(tracks, w, i, j)| ==> j <= RowPairs(tracks, w, i, j)[k].end
    ensures forall k :: 0 <= k < |RowPairs(tracks, w, i, j)| ==> SoundPair(tracks, w, RowPairs(tracks, w, i, j)[k])
    decreases |tracks| - j
  {
    if j < |tracks| {
      RowPairsSound(tracks, w, i, j + 1);
      var here, rest := PairAt(tracks, w, i, j), RowPairs(tracks, w, i, j + 1);
      var r := here + rest;
      assert |here| <= 1;
      forall k | 0 <= k < |r|
        ensures r[k].start == i && j <= r[k].end && SoundPair(tracks, w, r[k])
      {
        if k >= |here| {
          assert r[k] == rest[k - |here|];
        } else {
          assert r[k] == Pair(i, j, Weight(w, MovementOf(tracks, i, j).value));
        }
      }
    }
  }

  /** One row holds every edge from `i` to tracks `j` onwards. */
  lemma {:induction false} RowPairsComplete(tracks: seq<Track>, w: MovementWeights, i: nat, j: nat)
    requires j <= |tracks|
    ensures forall e :: j <= e && IsEdge(tracks, i, e) ==> HasPair(RowPairs(tracks, w, i, j), i, e)
    decreases |tracks| - j
  {
    if j < |tracks| {
      RowPairsComplete(tracks, w, i, j + 1);
      var here, rest := PairAt(tracks, w, i, j), RowPairs(tracks, w, i, j + 1);
      var r := here + rest;
      forall e | j <= e && IsEdge(tracks, i, e)
        ensures HasPair(r, i, e)
      {
        if e == j {
          assert r[0].start == i && r[0].end == e;
        } else {
          var k :| 0 <= k < |rest| && rest[k].start == i && rest[k].end == e;
          assert r[|here| + k] == rest[k];
        }
      }
    }
  }

  /** One row is in increasing order of its ends. */
  lemma {:induction false} RowPairsOrdered(tracks: seq<Track>, w: MovementWeights, i: nat, j: nat)
    requires j <= |tracks|
    ensures forall k :: 0 <= k < |RowPairs(tracks, w, i, j)| ==> RowPairs(tracks, w, i, j)[k].start == i
    ensures forall a, b :: 0 <= a < b < |RowPairs(tracks, w, i, j)| ==> RowPairs(tracks, w, i, j)[a].end < RowPairs(tracks, w, i, j)[b].end
    decreases |tracks| - j
  {
    RowPairsSound(tracks, w, i, j);
    if j < |tracks| {
      RowPairsOrdered(tracks, w, i, j + 1);
      RowPairsSound(tracks, w, i, j + 1);
      var here, rest := PairAt(tracks, w, i, j), RowPairs(tracks, w, i, j + 1);
      var r := here + rest;
      assert |here| <= 1;
      forall a, b | 0 <= a < b < |r|
        ensures r[a].end < r[b].end
      {
        assert r[b] == rest[b - |here|];
        if a >= |here| {
          assert r[a] == rest[a - |here|];
        } else {
          assert r[a].end == j;
        }
      }
    }
  }

  /** The rows from `i` onwards hold only sound pairs leaving tracks `i`
      onwards. */
  lemma {:induction false} PairsFromSound(tracks: seq<Track>, w: MovementWeights, i: nat)
    requires i <= |tracks|
    ensures forall k :: 0 <= k < |PairsFrom(tracks, w, i)| ==> i <= PairsFrom(tracks, w, i)[k].start
    ensures forall k :: 0 <= k < |PairsFrom(tracks, w, i)| ==> SoundPair(tracks, w, PairsFrom(tracks, w, i)[k])
    decreases |tracks| - i
  {
    if i < |tracks| {
      PairsFromSound(tracks, w, i + 1);
      RowPairsSound(tracks, w, i, 0);
      var row := if tracks[i].key.None? then [] else RowPairs(tracks, w, i, 0);
      var rest := PairsFrom(tracks, w, i + 1);
      var r := row + rest;
      forall k | 0 <= k < |r|
        ensures i <= r[k].start && SoundPair(tracks, w, r[k])
      {
        if k >= |row| {
          assert r[k] == rest[k - |row|];
        } else {
          assert r[k] == row[k];
        }
      }
    }
  }

  /** The rows from `i` onwards hold only pairs leaving tracks `i` onwards. */
  lemma {:induction false} PairsFromStarts(tracks: seq<Track>, w: MovementWeights, i: nat)
    requires i <= |tracks|
    ensures forall k :: 0 <= k < |PairsFrom(tracks, w, i)| ==> i <= PairsFrom(tracks, w, i)[k].start
    decreases |tracks| - i
  {
    if i < |tracks| {
      PairsFromStarts(tracks, w, i + 1);
      RowPairsOrdered(tracks, w, i, 0);
      var row := if tracks[i].key.None? then [] else RowPairs(tracks, w, i, 0);
      var rest := PairsFrom(tracks, w, i + 1);
      var r := row + rest;
      forall k | 0 <= k < |r|
        ensures i <= r[k].start
      {
        if k >= |row| {
          assert r[k] == rest[k - |row|];
        } else {
          assert r[k] == row[k];
        }
      }
    }
  }

  /** The rows from `i` onwards hold every edge leaving tracks `i`
      onwards. */
  lemma {:induction false} PairsFromComplete(tracks: seq<Track>, w: MovementWeights, i: nat)
    requires i <= |tracks|
    ensures forall s, e :: i <= s && IsEdge(tracks, s, e) ==> HasPair(PairsFrom(tracks, w, i), s, e)
    decreases |tracks| - i
  {
    if i < |tracks| {
      PairsFromComplete(tracks, w, i + 1);
      RowPairsComplete(tracks, w, i, 0);
      var row := if tracks[i].key.None? then [] else RowPairs(tracks, w, i, 0);
      var rest := PairsFrom(tracks, w, i + 1);
      var r := row + rest;
      forall s, e | i <= s && IsEdge(tracks, s, e)
        ensures HasPair(r, s, e)
      {
        if s == i {
          var k :| 0 <= k < |row| && row[k].start == s && row[k].end == e;
          assert r[k] == row[k];
        } else {
          var k :| 0 <= k < |rest| && rest[k].start == s && rest[k].end == e;
          assert r[|row| + k] == rest[k];
        }
      }
    }
  }

  /** A row from `i`, ordered by end, followed by pairs ordered by (start,
      end) that all start after `i`, is ordered by (start, end). */
  lemma ConcatOrdered(row: seq<Pair>, rest: seq<Pair>, i: nat)
    requires forall k :: 0 <= k < |row| ==> row[k].start == i
    requires forall a, b :: 0 <= a < b < |row| ==> row[a].end < row[b].end
    requires forall k :: 0 <= k < |rest| ==> i < rest[k].start
    requires forall a, b :: 0 <= a < b < |rest| ==> PairBefore(rest[a], rest[b])
    ensures forall a, b :: 0 <= a < b < |row + rest| ==> PairBefore((row + rest)[a], (row + rest)[b])
  {
    var r := row + rest;
    forall a, b | 0 <= a < b < |r|
      ensures PairBefore(r[a], r[b])
    {
      if b < |row| {
        assert r[a] == row[a] && r[b] == row[b];
      } else if a < |row| {
        assert r[a] == row[a] && r[b] == rest[b - |row|];
      } else {
        assert r[a] == rest[a - |row|] && r[b] == rest[b - |row|];
      }
    }
  }

  /** The rows from `i` onwards are in increasing (start, end) order. */
  lemma {:induction false} PairsFromOrdered(tracks: seq<Track>, w: MovementWeights, i: nat)
    requires i <= |tracks|
    ensures forall a, b :: 0 <= a < b < |PairsFrom(tracks, w, i)| ==> PairBefore(PairsFrom(tracks, w, i)[a], PairsFrom(tracks, w, i)[b])
    decreases |tracks| - i
  {
    if i < |tracks| {
      PairsFromOrdered(tracks, w, i + 1);
      PairsFromStarts(tracks, w, i + 1);
      RowPairsOrdered(tracks, w, i, 0);
      var row := if tracks[i].key.None? then [] else RowPairs(tracks, w, i, 0);
      ConcatOrdered(row, PairsFrom(tracks, w, i + 1), i);
    }
  }

  /** `build_pairs`: every ordered pair of distinct keyed tracks whose keys
      form a movement, exactly once, ordered by (start, end), weighted by
      its movement. */
  function BuildPairs(tracks: seq<Track>, w: MovementWeights): (r: seq<Pair>)
    ensures forall k :: 0 <= k < |r| ==> SoundPair(tracks, w, r[k])
    ensures forall i, j :: IsEdge(tracks, i, j) <==> HasPair(r, i, j)
    ensures forall a, b :: 0 <= a < b < |r| ==> PairBefore(r[a], r[b])
  {
    PairsFromSound(tracks, w, 0);
    PairsFromComplete(tracks, w, 0);
    PairsFromOrdered(tracks, w, 0);
    var r := PairsFrom(tracks, w, 0);
    assert forall i, j :: HasPair(r, i, j) ==> IsEdge(tracks, i, j) by {
      forall i, j | HasPair(r, i, j)
        ensures IsEdge(tracks, i, j)
      {
        var k :| 0 <= k < |r| && r[k].start == i && r[k].end == j;
        assert SoundPair(tracks, w, r[k]);
      }
    }
    r
  }

  /** Sound pairs never loop and never touch a keyless track. */
  lemma SoundPairFacts(tracks: seq<Track>, w: MovementWeights, p: Pair)
    requires SoundPair(tracks, w, p)
    ensures p.start != p.end && p.start < |tracks| && p.end < |tracks|
    ensures tracks[p.start].key.Some? && tracks[p.end].key.Some?
  {
  }

  /** A pair list ordered by (start, end) has no two pairs with the same
      endpoints. */
  lemma OrderedPairsUnique(pairs: seq<Pair>, a: nat, b: nat)
    requires forall x, y :: 0 <= x < y < |pairs| ==> PairBefore(pairs[x], pairs[y])
    requires a < |pairs| && b < |pairs| && a != b
    ensures (pairs[a].start, pairs[a].end) != (pairs[b].start, pairs[b].end)
  {
    if a < b {
      assert PairBefore(pairs[a], pairs[b]);
    } else {
      assert PairBefore(pairs[b], pairs[a]);
    }
  }

  // ----- the lookup views -----

  /** The pairs leaving `s`, in list order. */
  function Outgoing(pairs: seq<Pair>, s: nat): (r: seq<Pair>)
    ensures forall k :: 0 <= k < |r| ==> r[k] in pairs && r[k].start == s
    ensures forall k :: 0 <= k < |pairs| && pairs[k].start == s ==> pairs[k] in r
  {
    if pairs == [] then []
    else
      var p := pairs[|pairs| - 1];
      var front := Outgoing(pairs[..|pairs| - 1], s);
      assert forall k :: 0 <= k < |pairs| - 1 ==> pairs[k] == pairs[..|pairs| - 1][k];
      if p.start == s then front + [p] else front
  }

  /** `pairs_by_start`: each pair is pushed, in list order, onto the entry
      of its start; a start with no pair has no entry. */
  function PairsByStart(pairs: seq<Pair>): (m: map<nat, seq<Pair>>)
    ensures forall s :: s in m <==> Outgoing(pairs, s) != []
    ensures forall s :: s in m ==> m[s] == Outgoing(pairs, s)
  {
    if pairs == [] then map[]
    else
      var m := PairsByStart(pairs[..|pairs| - 1]);
      var p := pairs[|pairs| - 1];
      m[p.start := (if p.start in m then m[p.start] else []) + [p]]
  }

  /** No later pair of the list has the same endpoints as pair `k`. */
  predicate LastWithEnds(pairs: seq<Pair>, k: nat)
    requires k < |pairs|
  {
    forall k' :: k < k' < |pairs| ==> (pairs[k'].start, pairs[k'].end) != (pairs[k].start, pairs[k].end)
  }

  /** `pair_weights`: the weight of each (start, end); a later pair with the
      same endpoints overwrites an earlier one. */
  function PairWeights(pairs: seq<Pair>): (m: map<(nat, nat), int>)
  {
    if pairs == [] then map[]
    else
      var p := pairs[|pairs| - 1];
      PairWeights(pairs[..|pairs| - 1])[(p.start, p.end) := p.weight]
  }

  /** The weight view has an entry for exactly the endpoints of the pairs. */
  lemma {:induction false} PairWeightsKeys(pairs: seq<Pair>, e: (nat, nat))
    ensures e in PairWeights(pairs) <==> HasPair(pairs, e.0, e.1)
  {
    if pairs != [] {
      var front := pairs[..|pairs| - 1];
      var p := pairs[|pairs| - 1];
      PairWeightsKeys(front, e);
      if HasPair(pairs, e.0, e.1) && e != (p.start, p.end) {
        var k :| 0 <= k < |pairs| && pairs[k].start == e.0 && pairs[k].end == e.1;
        assert front[k] == pairs[k];
      }
      if HasPair(front, e.0, e.1) {
        var k :| 0 <= k < |front| && front[k].start == e.0 && front[k].end == e.1;
        assert pairs[k] == front[k];
      }
    }
  }

  /** Pair `k`, if no later pair has its endpoints, gives the weight of its
      endpoints in the weight view. */
  lemma {:induction false} PairWeightsValue(pairs: seq<Pair>, k: nat)
    requires k < |pairs| && LastWithEnds(pairs, k)
    ensures (pairs[k].start, pairs[k].end) in PairWeights(pairs)
    ensures PairWeights(pairs)[(pairs[k].start, pairs[k].end)] == pairs[k].weight
  {
    var front := pairs[..|pairs| - 1];
    if k < |pairs| - 1 {
      assert front[k] == pairs[k];
      assert LastWithEnds(front, k) by {
        forall k' | k < k' < |front|
          ensures (front[k'].start, front[k'].end) != (front[k].start, front[k].end)
        {
          assert front[k'] == pairs[k'];
        }
      }
      PairWeightsValue(front, k);
    }
  }

  /** For the pairs `build_pairs` emits, the weight view holds exactly the
      edges, each with the weight of its movement. */
  lemma PairWeightsOfBuild(tracks: seq<Track>, w: MovementWeights, i: nat, j: nat)
    ensures (i, j) in PairWeights(BuildPairs(tracks, w)) <==> IsEdge(tracks, i, j)
    ensures IsEdge(tracks, i, j) ==>
      PairWeights(BuildPairs(tracks, w))[(i, j)] == Weight(w, MovementOf(tracks, i, j).value)
  {
    var pairs := BuildPairs(tracks, w);
    PairWeightsKeys(pairs, (i, j));
    if IsEdge(tracks, i, j) {
      var k :| 0 <= k < |pairs| && pairs[k].start == i && pairs[k].end == j;
      forall k' | k < k' < |pairs|
        ensures (pairs[k'].start, pairs[k'].end) != (pairs[k].start, pairs[k].end)
      {
        OrderedPairsUnique(pairs, k, k');
      }
      PairWeightsValue(pairs, k);
      assert SoundPair(tracks, w, pairs[k]);
    }
  }

  /** Every pair is listed under its start in the grouped view. */
  lemma GroupedHasEveryPair(pairs: seq<Pair>, k: nat)
    requires k < |pairs|
    ensures pairs[k].start in PairsByStart(pairs)
    ensures exists j :: 0 <= j < |PairsByStart(pairs)[pairs[k].start]| && PairsByStart(pairs)[pairs[k].start][j] == pairs[k]
  {
    var out := Outgoing(pairs, pairs[k].start);
    assert pairs[k] in out;
  }

  /** The grouped view lists only pairs of the list, under their start. */
  lemma GroupedPairIsPair(pairs: seq<Pair>, s: nat, j: nat)
    requires s in PairsByStart(pairs) && j < |PairsByStart(pairs)[s]|
    ensures HasPair(pairs, s, PairsByStart(pairs)[s][j].end)
  {
    var pair := PairsByStart(pairs)[s][j];
    assert pair in pairs && pair.start == s;
    var i :| 0 <= i < |pairs| && pairs[i] == pair;
  }
}
