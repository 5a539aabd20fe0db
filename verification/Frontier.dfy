/**
 Furthest-reaching points and the overlap of a forward and a backward search: the
 mathematics behind the middle point on which the bisection splits a problem.
 The backward search is a forward search over the reversed texts.
 */
module Frontier {
  import opened Sequences
  import opened EditPlane

  /** (x, x - k) is the last point on diagonal `k` that `d` edits can reach; it may lie off the grid. */
  ghost predicate Furthest<T>(a: seq<T>, b: seq<T>, d: int, k: int, x: int) {
    && 0 <= x && 0 <= x - k
    && Dist(a, b, x, x - k) <= d
    && Dist(a, b, x + 1, x + 1 - k) > d
  }

  lemma FurthestDominates<T>(a: seq<T>, b: seq<T>, d: int, k: int, x: int, u: nat)
    requires Furthest(a, b, d, k, x) && 0 <= u - k && Dist(a, b, u, u - k) <= d
    ensures u <= x
  {
    if x < u {
      DistDiagonal(a, b, x + 1, x + 1 - k, u - x - 1);
    }
  }

  lemma FurthestUnique<T>(a: seq<T>, b: seq<T>, d: int, k: int, x: int, x': int)
    requires Furthest(a, b, d, k, x) && Furthest(a, b, d, k, x')
    ensures x == x'
  {
    FurthestDominates(a, b, d, k, x, x');
    FurthestDominates(a, b, d, k, x', x);
  }

  /** With no edit spent and nothing to match at the start, the search rests at the origin. */
  lemma FurthestStart<T>(a: seq<T>, b: seq<T>)
    requires a == [] || b == [] || a[0] != b[0]
    ensures Furthest(a, b, 0, 0, 0)
  {
  }

  /** Where a search round starts on diagonal `k`, given the frontier on the neighbouring ones. */
  function RoundStart(d: int, k: int, left: int, right: int): int {
    if k == -d || (k != d && left < right) then right else left + 1
  }

  /** The frontier of `d - 1` edits on the diagonals next to `k`, where those are in reach. */
  ghost predicate Neighbours<T>(a: seq<T>, b: seq<T>, d: int, k: int, left: int, right: int) {
    && 0 < d && -d <= k <= d
    && (k != -d ==> Furthest(a, b, d - 1, k - 1, left))
    && (k != d ==> Furthest(a, b, d - 1, k + 1, right))
  }

  lemma RoundStartInReach<T>(a: seq<T>, b: seq<T>, d: int, k: int, left: int, right: int)
    requires Neighbours(a, b, d, k, left, right)
    ensures var start := RoundStart(d, k, left, right);
            && 0 <= start && 0 <= start - k && Dist(a, b, start, start - k) <= d
            && (k != -d ==> left < start) && (k != d ==> right <= start)
  {
    if k == -d || (k != d && left < right) {
      DistStep(a, b, right, right - k - 1);
    } else {
      DistStep(a, b, left, left + 1 - k);
    }
  }

  lemma NeighboursOutOfReach<T>(a: seq<T>, b: seq<T>, d: int, k: int, left: int, right: int, x: nat)
    requires Neighbours(a, b, d, k, left, right)
    requires 0 <= x - k && (k != -d ==> left < x) && (k != d ==> right <= x)
    ensures Dist(a, b, x, x + 1 - k) >= d && Dist(a, b, x + 1, x - k) >= d
  {
    hide Dist;
    DistBounds(a, b, x, x + 1 - k);
    DistBounds(a, b, x + 1, x - k);
    if Dist(a, b, x, x + 1 - k) <= d - 1 {
      FurthestDominates(a, b, d - 1, k - 1, left, x);
    }
    if Dist(a, b, x + 1, x - k) <= d - 1 {
      FurthestDominates(a, b, d - 1, k + 1, right, x + 1);
    }
  }

  /**
   The update rule of one search round: starting from the better neighbour and taking all
   available free diagonal moves lands on the furthest point of `d` edits.
   */
  lemma FurthestAdvance<T>(a: seq<T>, b: seq<T>, d: int, k: int, left: int, right: int, x: int)
    requires Neighbours(a, b, d, k, left, right)
    requires var start := RoundStart(d, k, left, right);
             && 0 <= start <= x && 0 <= start - k
             && (x == start || (x <= |a| && x - k <= |b| && a[start..x] == b[start - k..x - k]))
    requires !(x < |a| && x - k < |b| && a[x] == b[x - k])
    ensures Furthest(a, b, d, k, x)
  {
    hide Dist;
    var start := RoundStart(d, k, left, right);
    RoundStartInReach(a, b, d, k, left, right);
    if x > start {
      DistMatches(a, b, start, start - k, x - start);
    }
    NeighboursOutOfReach(a, b, d, k, left, right, x);
    DistNoMatch(a, b, x, x - k);
  }

  // ---------- Overlap of the two searches ----------

  /**
   The overlap lemma.  A forward point within `d` edits of the origin and a backward point
   within `e` edits of the far corner lie on one diagonal, the forward one not behind the
   other.  Unless d + e exceeds the distance of the texts, the forward point is on the grid
   and exactly `d` and `e` edits away from the two corners.
   */
  lemma OverlapSplits<T>(a: seq<T>, b: seq<T>, d: nat, e: nat, x: nat, y: nat, rx: nat, ry: nat)
    requires Dist(a, b, x, y) <= d
    requires Dist(Reverse(a), Reverse(b), rx, ry) <= e
    requires x - y == (|a| - rx) - (|b| - ry) && |a| - rx <= x
    requires d + e <= EditDistance(a, b)
    ensures x <= |a| && y <= |b|
    ensures Dist(a, b, x, y) == d
    ensures Dist(Reverse(a), Reverse(b), |a| - x, |b| - y) == e
    ensures d + e == EditDistance(a, b)
  {
    OverlapOnGrid(a, b, d, e, x, y, rx, ry);
    var i := x - (|a| - rx);
    DistDiagonal(Reverse(a), Reverse(b), |a| - x, |b| - y, i);
    SplitAtLeast(a, b, x, y);
  }

  /** An overlap off the grid would be a detour: its total cost exceeds the distance. */
  lemma OverlapOnGrid<T>(a: seq<T>, b: seq<T>, d: nat, e: nat, x: nat, y: nat, rx: nat, ry: nat)
    requires Dist(a, b, x, y) <= d
    requires Dist(Reverse(a), Reverse(b), rx, ry) <= e
    requires x - y == (|a| - rx) - (|b| - ry) && |a| - rx <= x
    requires d + e <= EditDistance(a, b)
    ensures x <= |a| && y <= |b|
  {
    var n, m := |a|, |b|;
    DistBounds(Reverse(a), Reverse(b), rx, ry);
    if x > n && y > m {
      DistPastColumns(a, b, x, y);
      DistPastRows(a, b, n, y);
    } else if x > n {
      DistPastColumns(a, b, x, y);
      DistRun(a, b, n, y, m - y);
    } else if y > m {
      DistPastRows(a, b, x, y);
      DistRun(a, b, x, m, n - x);
    }
  }

  /** Conversely, some diagonal overlaps as soon as the two searches together spend the distance. */
  lemma OverlapExists<T>(a: seq<T>, b: seq<T>, d: nat, e: nat) returns (u: nat, v: nat)
    requires d + e == EditDistance(a, b)
    ensures u <= |a| && v <= |b|
    ensures Dist(a, b, u, v) == d
    ensures Dist(Reverse(a), Reverse(b), |a| - u, |b| - v) <= e
  {
    var ds;
    u, v, ds := Backtrack(a, b, |a|, |b|, d);
    SuffixDistance(a, b, u, v);
    EditDistanceIsLeast(a[u..], b[v..]);
    assert a[u..|a|] == a[u..] && b[v..|b|] == b[v..];
  }

  // ---------- The split point ----------

  ghost function FurthestX<T>(a: seq<T>, b: seq<T>, d: int, k: int): (x: int)
    requires -d <= k <= d
    ensures Furthest(a, b, d, k, x)
  {
    var start := if k < 0 then 0 else k;
    DistBounds(a, b, start, start - k);
    Climb(a, b, d, k, start)
  }

  ghost function Climb<T>(a: seq<T>, b: seq<T>, d: int, k: int, x: nat): (r: int)
    requires 0 <= x - k && Dist(a, b, x, x - k) <= d
    ensures Furthest(a, b, d, k, r)
    decreases |a| + d - x
  {
    if Dist(a, b, x + 1, x + 1 - k) > d then x
    else
      ClimbBound(a, b, d, x + 1, x + 1 - k);
      Climb(a, b, d, k, x + 1)
  }

  lemma ClimbBound<T>(a: seq<T>, b: seq<T>, d: int, x: nat, y: nat)
    requires Dist(a, b, x, y) <= d
    ensures x <= |a| + d
  {
    if x > |a| {
      DistPastColumns(a, b, x, y);
    }
  }

  /** The forward search of `d` edits and the backward search of `e` edits overlap on diagonal `k`. */
  ghost predicate Meets<T>(a: seq<T>, b: seq<T>, d: int, e: int, k: int) {
    && -d <= k <= d && -e <= |a| - |b| - k <= e
    && FurthestX(a, b, d, k) + FurthestX(Reverse(a), Reverse(b), e, |a| - |b| - k) >= |a|
  }

  /**
   The diagonal on which the searches, advancing in turn and each sweeping its diagonals
   upwards, overlap first: the forward sweep completes an odd distance, the backward sweep
   an even one, and upwards for the backward search is downwards for the forward one.
   */
  ghost predicate IsSplitDiagonal<T>(a: seq<T>, b: seq<T>, k: int) {
    var total := EditDistance(a, b);
    var d, e := (total + 1) / 2, total / 2;
    && Meets(a, b, d, e, k)
    && (total % 2 == 1 ==> forall j :: Meets(a, b, d, e, j) ==> k <= j)
    && (total % 2 == 0 ==> forall j :: Meets(a, b, d, e, j) ==> j <= k)
  }

  lemma SplitDiagonalExists<T>(a: seq<T>, b: seq<T>)
    ensures exists k :: IsSplitDiagonal(a, b, k)
  {
    hide Dist;
    var total := EditDistance(a, b);
    var d, e := (total + 1) / 2, total / 2;
    var u, v := OverlapExists(a, b, d, e);
    MeetsAt(a, b, d, e, u, v);
    var k := u as int - v as int;
    if total % 2 == 1 {
      while exists j :: Meets(a, b, d, e, j) && j < k
        invariant Meets(a, b, d, e, k)
        decreases k + d
      {
        var j :| Meets(a, b, d, e, j) && j < k;
        k := j;
      }
    }
    assert total % 2 == 1 ==> IsSplitDiagonal(a, b, k);
    if total % 2 == 0 {
      while exists j :: Meets(a, b, d, e, j) && k < j
        invariant Meets(a, b, d, e, k)
        decreases d - k
      {
        var j :| Meets(a, b, d, e, j) && k < j;
        k := j;
      }
      assert IsSplitDiagonal(a, b, k);
    }
  }

  lemma MeetsAt<T>(a: seq<T>, b: seq<T>, d: nat, e: nat, u: nat, v: nat)
    requires u <= |a| && v <= |b|
    requires Dist(a, b, u, v) == d && Dist(Reverse(a), Reverse(b), |a| - u, |b| - v) <= e
    ensures Meets(a, b, d, e, u - v)
  {
    hide Dist;
    var k, k2 := u - v, |a| - |b| - (u - v);
    DistBounds(a, b, u, v);
    DistBounds(Reverse(a), Reverse(b), |a| - u, |b| - v);
    FurthestDominates(a, b, d, k, FurthestX(a, b, d, k), u);
    FurthestDominates(Reverse(a), Reverse(b), e, k2, FurthestX(Reverse(a), Reverse(b), e, k2), |a| - u);
  }

  ghost function SplitDiagonal<T>(a: seq<T>, b: seq<T>): (k: int)
    ensures IsSplitDiagonal(a, b, k)
  {
    SplitDiagonalExists(a, b);
    var k :| IsSplitDiagonal(a, b, k);
    k
  }

  /** Where the bisection cuts `a` and `b`. */
  ghost function SplitPoint<T>(a: seq<T>, b: seq<T>): (int, int) {
    var k := SplitDiagonal(a, b);
    var x := FurthestX(a, b, (EditDistance(a, b) + 1) / 2, k);
    (x, x - k)
  }

  ghost predicate EndsDiffer<T>(a: seq<T>, b: seq<T>) {
    a == [] || b == [] || (a[0] != b[0] && a[|a| - 1] != b[|b| - 1])
  }

  /** Two non-empty texts whose ends differ are at least two edits apart. */
  lemma EndsDifferDistance<T>(a: seq<T>, b: seq<T>)
    requires a != [] && b != [] && EndsDiffer(a, b)
    ensures EditDistance(a, b) >= 2
  {
    var n, m := |a|, |b|;
    if EditDistance(a, b) < 2 {
      if Dist(a, b, n - 1, m) == 0 {
        DistZero(a, b, n - 1, m);
      } else {
        DistZero(a, b, n, m - 1);
      }
    }
  }

  /** Split points are in bounds, make both halves smaller, and divide the distance. */
  lemma SplitPointDivides<T>(a: seq<T>, b: seq<T>)
    requires a != [] && b != [] && EndsDiffer(a, b)
    ensures var (x, y) := SplitPoint(a, b);
            && 0 <= x <= |a| && 0 <= y <= |b| && 0 < x + y < |a| + |b|
            && EditDistance(a[..x], b[..y]) == (EditDistance(a, b) + 1) / 2
            && EditDistance(a[x..], b[y..]) == EditDistance(a, b) / 2
  {
    hide Dist;
    var total := EditDistance(a, b);
    var x, y := SplitPointDistances(a, b);
    PrefixDistance(a, b, x, y);
    SuffixDistance(a, b, x, y);
    EndsDifferDistance(a, b);
  }

  lemma SplitPointDistances<T>(a: seq<T>, b: seq<T>) returns (x: int, y: int)
    ensures (x, y) == SplitPoint(a, b)
    ensures 0 <= x <= |a| && 0 <= y <= |b|
    ensures Dist(a, b, x, y) == (EditDistance(a, b) + 1) / 2
    ensures Dist(Reverse(a), Reverse(b), |a| - x, |b| - y) == EditDistance(a, b) / 2
  {
    hide Dist;
    var total := EditDistance(a, b);
    var d, e := (total + 1) / 2, total / 2;
    var k := SplitDiagonal(a, b);
    x := FurthestX(a, b, d, k);
    y := x - k;
    var rx := FurthestX(Reverse(a), Reverse(b), e, |a| - |b| - k);
    OverlapSplits(a, b, d, e, x, y, rx, rx - (|a| - |b| - k));
  }
}
