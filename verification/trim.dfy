/** Pruning a layer of candidate paths to the `limit` best-scoring ones. */
module Trim {
  import opened Paths

  /** Position `a` ranks before position `b`: a higher score, or an equal
      score and an earlier position (a stable descending sort). */
  predicate Before(scores: seq<int>, a: nat, b: nat)
  {
    a < |scores| && b < |scores| && (scores[a] > scores[b] || (scores[a] == scores[b] && a < b))
  }

  /** Every entry ranks before every later entry. */
  predicate Ranked(scores: seq<int>, s: seq<nat>)
  {
    forall x, y :: 0 <= x < y < |s| ==> Before(scores, s[x], s[y])
  }

  /** Inserts position `i` after every entry that scores at least as much;
      since `i` is larger than every position already present, this is the
      place a stable sort gives it. */
  function Insert(scores: seq<int>, i: nat, s: seq<nat>): (r: seq<nat>)
    requires i < |scores|
    requires forall x :: 0 <= x < |s| ==> s[x] < i
    requires Ranked(scores, s)
    ensures |r| == |s| + 1
    ensures forall x: nat :: x in r <==> x in s || x == i
    ensures forall x :: 0 <= x < |r| ==> r[x] == i || r[x] in s
    ensures Ranked(scores, r)
  {
    if s == [] then [i]
    else if scores[s[0]] >= scores[i] then
      var tail := Insert(scores, i, s[1..]);
      assert forall y :: 0 <= y < |tail| ==> Before(scores, s[0], tail[y]) by {
        forall y | 0 <= y < |tail|
          ensures Before(scores, s[0], tail[y])
        {
          if tail[y] != i {
            assert tail[y] in s[1..];
            var x :| 0 <= x < |s[1..]| && s[1..][x] == tail[y];
            assert Before(scores, s[0], s[x + 1]);
          }
        }
      }
      [s[0]] + tail
    else
      [i] + s
  }

  /** The positions below `n`, ranked by score. */
  function RankPrefix(scores: seq<int>, n: nat): (r: seq<nat>)
    requires n <= |scores|
    ensures |r| == n
    ensures forall x: nat :: x in r <==> x < n
    ensures forall x :: 0 <= x < |r| ==> r[x] < n
    ensures Ranked(scores, r)
  {
    if n == 0 then [] else Insert(scores, n - 1, RankPrefix(scores, n - 1))
  }

  /** The stable descending sort of `trim_top_lists`, as the order in which
      it lists the input positions: every position exactly once, higher
      scores first, equal scores in input order. */
  function RankIndices(scores: seq<int>): (r: seq<nat>)
    ensures |r| == |scores|
    ensures forall x: nat :: x in r <==> x < |scores|
    ensures forall x :: 0 <= x < |r| ==> r[x] < |scores|
    ensures forall x, y :: 0 <= x < y < |r| ==>
      scores[r[x]] > scores[r[y]] || (scores[r[x]] == scores[r[y]] && r[x] < r[y])
  {
    var r := RankPrefix(scores, |scores|);
    assert forall x, y :: 0 <= x < y < |r| ==> Before(scores, r[x], r[y]);
    r
  }

  /** A ranking lists no position twice. */
  lemma RankedDistinct(scores: seq<int>, s: seq<nat>)
    requires Ranked(scores, s)
    ensures Distinct(s)
  {
    forall x, y | 0 <= x < y < |s|
      ensures s[x] != s[y]
    {
      assert Before(scores, s[x], s[y]);
    }
  }

  /** The lists at the first `limit` ranked positions. */
  function Select(lists: seq<Path>, rank: seq<nat>, limit: nat): (r: seq<Path>)
    requires limit <= |rank|
    requires forall x :: 0 <= x < |rank| ==> rank[x] < |lists|
    ensures |r| == limit
    ensures forall k :: 0 <= k < limit ==> r[k] == lists[rank[k]]
  {
    seq(limit, k requires 0 <= k < limit => lists[rank[k]])
  }

  /** `scores` holds the score of each list. */
  predicate ScoresOf(scores: seq<int>, lists: seq<Path>, wm: map<(nat, nat), int>)
  {
    |scores| == |lists| && forall k :: 0 <= k < |lists| ==> scores[k] == PathScore(lists[k], wm)
  }

  /** The score of every list, in order. */
  function Scores(lists: seq<Path>, wm: map<(nat, nat), int>): (s: seq<int>)
    ensures ScoresOf(s, lists, wm)
  {
    seq(|lists|, k requires 0 <= k < |lists| => PathScore(lists[k], wm))
  }

  /** A list the cut leaves out sits at a ranked position past the cut. */
  lemma DroppedPastCut(lists: seq<Path>, scores: seq<int>, limit: nat, j: nat)
    requires |scores| == |lists| && limit <= |lists|
    requires j < |lists| && lists[j] !in Select(lists, RankIndices(scores), limit)
    ensures exists q :: limit <= q < |lists| && RankIndices(scores)[q] == j
  {
    var rank := RankIndices(scores);
    assert j in rank;
    var q :| 0 <= q < |rank| && rank[q] == j;
    forall x | 0 <= x < limit
      ensures rank[x] != j
    {
      assert Select(lists, rank, limit)[x] in Select(lists, rank, limit);
    }
  }

  /** Every kept list scores at least as much as every dropped list, and on
      a tie the kept list occurs earlier in the input. */
  lemma KeptBeatDropped(lists: seq<Path>, scores: seq<int>, wm: map<(nat, nat), int>, limit: nat, k: nat, j: nat)
    requires ScoresOf(scores, lists, wm) && limit <= |lists|
    requires k < limit && j < |lists| && lists[j] !in Select(lists, RankIndices(scores), limit)
    ensures PathScore(Select(lists, RankIndices(scores), limit)[k], wm) >= PathScore(lists[j], wm)
    ensures PathScore(Select(lists, RankIndices(scores), limit)[k], wm) == PathScore(lists[j], wm) ==>
      Select(lists, RankIndices(scores), limit)[k] in lists[..j]
  {
    var rank := RankIndices(scores);
    DroppedPastCut(lists, scores, limit, j);
    var q :| limit <= q < |lists| && rank[q] == j;
    assert k < q;
    if scores[rank[k]] == scores[j] {
      assert rank[k] < j;
      assert lists[..j][rank[k]] == lists[rank[k]];
    }
  }

  /** The kept lists come highest score first. */
  lemma KeptInScoreOrder(lists: seq<Path>, scores: seq<int>, wm: map<(nat, nat), int>, limit: nat)
    requires ScoresOf(scores, lists, wm) && limit <= |lists|
    ensures forall a, b :: 0 <= a < b < limit ==>
      PathScore(Select(lists, RankIndices(scores), limit)[a], wm) >= PathScore(Select(lists, RankIndices(scores), limit)[b], wm)
  {
  }

  /** Distinct input lists give distinct kept lists. */
  lemma KeptDistinct(lists: seq<Path>, scores: seq<int>, limit: nat)
    requires |scores| == |lists| && limit <= |lists| && Distinct(lists)
    ensures Distinct(Select(lists, RankIndices(scores), limit))
  {
    var rank := RankIndices(scores);
    RankedDistinct(scores, rank);
  }

  /** `trim_top_lists`: a layer of at most `limit` paths is returned as it
      is; a larger one is sorted by score, highest first and stably, and
      cut to its first `limit` paths. */
  method TrimTopLists(lists: seq<Path>, wm: map<(nat, nat), int>, limit: nat) returns (r: seq<Path>)
    ensures |lists| <= limit ==> r == lists
    ensures |r| == (if |lists| <= limit then |lists| else limit)
    ensures forall k :: 0 <= k < |r| ==> r[k] in lists
    ensures Distinct(lists) ==> Distinct(r)
    ensures |lists| > limit ==> forall a, b :: 0 <= a < b < |r| ==> PathScore(r[a], wm) >= PathScore(r[b], wm)
    ensures |lists| > limit ==> forall k, j :: 0 <= k < |r| && 0 <= j < |lists| && lists[j] !in r ==>
      PathScore(r[k], wm) >= PathScore(lists[j], wm)
    ensures |lists| > limit ==> forall k, j ::
      0 <= k < |r| && 0 <= j < |lists| && lists[j] !in r && PathScore(r[k], wm) == PathScore(lists[j], wm)
      ==> r[k] in lists[..j]
    ensures |lists| > limit ==> forall a, b ::
      0 <= a < b < |r| && PathScore(r[a], wm) == PathScore(r[b], wm)
      ==> exists i, j :: 0 <= i < j < |lists| && lists[i] == r[a] && lists[j] == r[b]
    ensures |lists| > limit ==> r == Select(lists, RankIndices(Scores(lists, wm)), limit)
  {
    if |lists| <= limit {
      return lists;
    }
    var scores: seq<int> := [];
    var k := 0;
    while k < |lists|
      invariant k <= |lists|
      invariant |scores| == k
      invariant forall k' :: 0 <= k' < k ==> scores[k'] == PathScore(lists[k'], wm)
    {
      var score := ListScore(lists[k], wm);
      scores := scores + [score];
      k := k + 1;
    }
    assert scores == Scores(lists, wm);
    r := Select(lists, RankIndices(scores), limit);
    KeptTiesInInputOrder(lists, scores, wm, limit, r);
    KeptInScoreOrder(lists, scores, wm, limit);
    if Distinct(lists) {
      KeptDistinct(lists, scores, limit);
    }
    DroppedFacts(lists, scores, wm, limit, r);
  }

  /** Every dropped list scores at most every kept list, and loses a tie
      only to a list that occurs earlier in the input. */
  lemma DroppedFacts(lists: seq<Path>, scores: seq<int>, wm: map<(nat, nat), int>, limit: nat, r: seq<Path>)
    requires ScoresOf(scores, lists, wm) && limit <= |lists|
    requires r == Select(lists, RankIndices(scores), limit)
    ensures forall k, j :: 0 <= k < |r| && 0 <= j < |lists| && lists[j] !in r ==>
      PathScore(r[k], wm) >= PathScore(lists[j], wm)
    ensures forall k, j ::
      0 <= k < |r| && 0 <= j < |lists| && lists[j] !in r && PathScore(r[k], wm) == PathScore(lists[j], wm)
      ==> r[k] in lists[..j]
  {
    forall k, j | 0 <= k < |r| && 0 <= j < |lists| && lists[j] !in r
      ensures PathScore(r[k], wm) >= PathScore(lists[j], wm)
      ensures PathScore(r[k], wm) == PathScore(lists[j], wm) ==> r[k] in lists[..j]
    {
      KeptBeatDropped(lists, scores, wm, limit, k, j);
    }
  }

  /** Kept lists with equal scores keep their input order: the sort is
      stable. */
  lemma KeptTiesInInputOrder(lists: seq<Path>, scores: seq<int>, wm: map<(nat, nat), int>, limit: nat, r: seq<Path>)
    requires ScoresOf(scores, lists, wm) && limit <= |lists|
    requires r == Select(lists, RankIndices(scores), limit)
    ensures forall a, b ::
      0 <= a < b < |r| && PathScore(r[a], wm) == PathScore(r[b], wm)
      ==> exists i, j :: 0 <= i < j < |lists| && lists[i] == r[a] && lists[j] == r[b]
  {
    var rank := RankIndices(scores);
    forall a, b | 0 <= a < b < |r| && PathScore(r[a], wm) == PathScore(r[b], wm)
      ensures exists i, j :: 0 <= i < j < |lists| && lists[i] == r[a] && lists[j] == r[b]
    {
      assert r[a] == lists[rank[a]] && r[b] == lists[rank[b]];
      assert rank[a] < rank[b];
    }
  }
}
