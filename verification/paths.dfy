/** Paths through the compatibility graph: sequences of track positions,
    their membership test and their cumulative score. */
module Paths {

  type Path = seq<nat>

  /** No element occurs twice. */
  predicate Distinct<T(==)>(s: seq<T>)
  {
    forall a, b :: 0 <= a < b < |s| ==> s[a] != s[b]
  }

  /** A simple path: no position occurs twice. */
  predicate IsSimple(p: Path)
  {
    Distinct(p)
  }

  /** Every position is below `n`. */
  predicate InRange(p: Path, n: nat)
  {
    forall a :: 0 <= a < |p| ==> p[a] < n
  }

  function Last(p: Path): (x: nat)
    requires p != []
  {
    p[|p| - 1]
  }

  /** `list_contains`: a left-to-right scan for `target`. */
  function ListContains(list: Path, target: nat): (b: bool)
    ensures b <==> target in list
  {
    if list == [] then false
    else list[0] == target || ListContains(list[1..], target)
  }

  /** The weight of one step: its entry in the weight view, or nothing when
      the step has no entry. */
  function StepWeight(wm: map<(nat, nat), int>, a: nat, b: nat): (r: int)
  {
    if (a, b) in wm then wm[(a, b)] else 0
  }

  /** The score of a path: the sum of the weights of its consecutive steps.
      A path of fewer than two positions scores 0. */
  function PathScore(p: Path, wm: map<(nat, nat), int>): (r: int)
  {
    if |p| < 2 then 0 else PathScore(p[..|p| - 1], wm) + StepWeight(wm, p[|p| - 2], p[|p| - 1])
  }

  /** `list_score`: walks the list once, adding the weight of each
      (previous, next) step that has one. */
  method ListScore(list: Path, wm: map<(nat, nat), int>) returns (total: int)
    ensures total == PathScore(list, wm)
    ensures |list| < 2 ==> total == 0
  {
    total := 0;
    if list == [] {
      return 0;
    }
    var prev := list[0];
    var i := 1;
    while i < |list|
      invariant 1 <= i <= |list|
      invariant prev == list[i - 1]
      invariant total == PathScore(list[..i], wm)
    {
      var next := list[i];
      if (prev, next) in wm {
        total := total + wm[(prev, next)];
      }
      assert list[..i + 1][..i] == list[..i];
      prev := next;
      i := i + 1;
    }
    assert list[..i] == list;
  }

  /** Appending a position not yet on a simple path keeps it simple. */
  lemma AppendSimple(p: Path, x: nat)
    requires IsSimple(p) && x !in p
    ensures IsSimple(p + [x])
  {
    var q := p + [x];
    forall a, b | 0 <= a < b < |q|
      ensures q[a] != q[b]
    {
      if b == |p| {
        assert q[a] == p[a];
      } else {
        assert q[a] == p[a] && q[b] == p[b];
      }
    }
  }

  /** Extending a path by one step adds exactly that step's weight. */
  lemma PathScoreAppend(p: Path, x: nat, wm: map<(nat, nat), int>)
    requires p != []
    ensures PathScore(p + [x], wm) == PathScore(p, wm) + StepWeight(wm, Last(p), x)
  {
    assert (p + [x])[..|p|] == p;
  }

  /** The positions a path visits. */
  function Visited(p: Path): (r: set<nat>)
    ensures forall x: nat :: x in r <==> x in p
  {
    if p == [] then {} else Visited(p[..|p| - 1]) + {Last(p)}
  }

  /** The positions below `n`. */
  function Below(n: nat): (r: set<nat>)
    ensures forall x: nat :: x in r <==> x < n
  {
    if n == 0 then {} else Below(n - 1) + {n - 1}
  }

  /** A simple path visits as many distinct positions as it has entries. */
  lemma {:induction false} SimpleCard(p: Path)
    requires IsSimple(p)
    ensures |Visited(p)| == |p|
  {
    if p != [] {
      var front := p[..|p| - 1];
      assert IsSimple(front);
      SimpleCard(front);
      assert Last(p) !in Visited(front);
    }
  }

  /** There are `n` positions below `n`. */
  lemma {:induction false} BelowCard(n: nat)
    ensures |Below(n)| == n
  {
    if n > 0 {
      var front := Below(n - 1);
      BelowCard(n - 1);
      assert n - 1 !in front;
      assert Below(n) == front + {n - 1};
    }
  }

  /** A subset is no larger than its superset. */
  lemma {:induction false} SubsetCard(a: set<nat>, b: set<nat>)
    requires a <= b
    ensures |a| <= |b|
    decreases |b|
  {
    if a != {} {
      var x :| x in a;
      SubsetCard(a - {x}, b - {x});
    }
  }

  /** A simple path over positions below `n` has at most `n` entries. */
  lemma SimpleBound(p: Path, n: nat)
    requires IsSimple(p) && InRange(p, n)
    ensures |p| <= n
  {
    SimpleCard(p);
    BelowCard(n);
    forall x | x in Visited(p)
      ensures x in Below(n)
    {
      var a :| 0 <= a < |p| && p[a] == x;
    }
    SubsetCard(Visited(p), Below(n));
  }
}
