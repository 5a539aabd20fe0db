/**
 Myers' divide-and-conquer diff.  `Diffs` says which script is computed, with the split
 point chosen declaratively (see Frontier); the methods compute it with two arrays that
 sweep the diagonals, and `DiffsCorrect` shows the script is a shortest one.
 */
module Myers {
  import opened Sequences
  import opened EditPlane
  import opened Frontier

  // ---------- Specification ----------

  function CommonPrefix<T(==)>(a: seq<T>, b: seq<T>): (n: nat)
    ensures n <= |a| && n <= |b| && forall i :: 0 <= i < n ==> a[i] == b[i]
    ensures n < |a| && n < |b| ==> a[n] != b[n]
  {
    if a == [] || b == [] || a[0] != b[0] then 0
    else CommonPrefix(a[1..], b[1..]) + 1
  }

  ghost predicate SameSuffix<T>(a: seq<T>, b: seq<T>, n: nat) {
    n <= |a| && n <= |b| && a[|a| - n..] == b[|b| - n..]
  }

  lemma SameSuffixGrows<T>(a: seq<T>, b: seq<T>, n: nat)
    requires SameSuffix(a, b, n) && n < |a| && n < |b| && a[|a| - n - 1] == b[|b| - n - 1]
    ensures SameSuffix(a, b, n + 1)
  {
    assert a[|a| - n - 1..] == [a[|a| - n - 1]] + a[|a| - n..];
    assert b[|b| - n - 1..] == [b[|b| - n - 1]] + b[|b| - n..];
  }

  function CommonSuffix<T(==)>(a: seq<T>, b: seq<T>): (n: nat)
    ensures SameSuffix(a, b, n)
    ensures n < |a| && n < |b| ==> a[|a| - n - 1] != b[|b| - n - 1]
  {
    CommonSuffixFrom(a, b, 0)
  }

  /** The common suffix, once its last `from` elements are known. */
  function CommonSuffixFrom<T(==)>(a: seq<T>, b: seq<T>, from: nat): (n: nat)
    requires SameSuffix(a, b, from)
    ensures from <= n && SameSuffix(a, b, n)
    ensures n < |a| && n < |b| ==> a[|a| - n - 1] != b[|b| - n - 1]
    decreases |a| - from
  {
    if from == |a| || from == |b| || a[|a| - from - 1] != b[|b| - from - 1] then from
    else
      SameSuffixGrows(a, b, from);
      CommonSuffixFrom(a, b, from + 1)
  }

  function Piece<T>(operation: Operation, text: seq<T>): seq<Diff<T>> {
    if text == [] then [] else [Diff(operation, text)]
  }

  /** Two texts cut into their common prefix, what differs between the ends, and their common suffix. */
  datatype Trimmed<T> = Trimmed(prefix: seq<T>, a: seq<T>, b: seq<T>, suffix: seq<T>)

  ghost function Trim<T>(a: seq<T>, b: seq<T>): (t: Trimmed<T>)
    ensures a == t.prefix + t.a + t.suffix && b == t.prefix + t.b + t.suffix
    ensures EndsDiffer(t.a, t.b)
  {
    hide CommonPrefix, CommonSuffix, SameSuffix, SuffixEnds;
    PrefixFits(a, b);
    var p := CommonPrefix(a, b);
    SuffixFits(a[p..], b[p..]);
    var s := CommonSuffix(a[p..], b[p..]);
    TrimParts(a, b, p, s);
    Trimmed(a[..p], a[p..|a| - s], b[p..|b| - s], a[|a| - s..])
  }

  lemma PrefixFits<T>(a: seq<T>, b: seq<T>)
    ensures var p := CommonPrefix(a, b);
            p <= |a| && p <= |b| && a[..p] == b[..p] && (p < |a| && p < |b| ==> a[p] != b[p])
  {
  }

  /** The suffix of that length cannot be extended. */
  ghost predicate SuffixEnds<T>(a: seq<T>, b: seq<T>, n: nat) {
    n < |a| && n < |b| ==> a[|a| - n - 1] != b[|b| - n - 1]
  }

  lemma SuffixFits<T>(a: seq<T>, b: seq<T>)
    ensures var s := CommonSuffix(a, b);
            s <= |a| && s <= |b| && SameSuffix(a, b, s) && SuffixEnds(a, b, s)
  {
  }

  lemma TrimParts<T>(a: seq<T>, b: seq<T>, p: nat, s: nat)
    requires p + s <= |a| && p + s <= |b| && a[..p] == b[..p]
    requires p < |a| && p < |b| ==> a[p] != b[p]
    requires SameSuffix(a[p..], b[p..], s) && SuffixEnds(a[p..], b[p..], s)
    ensures a == a[..p] + a[p..|a| - s] + a[|a| - s..]
    ensures b == a[..p] + b[p..|b| - s] + a[|a| - s..]
    ensures EndsDiffer(a[p..|a| - s], b[p..|b| - s])
  {
    hide SameSuffix, SuffixEnds, EndsDiffer;
    CutInThree(a, p, s);
    CutInThree(b, p, s);
    SuffixIs(a, b, p, s);
    MiddlesDiffer(a, b, p, s);
  }

  lemma SuffixIs<T>(a: seq<T>, b: seq<T>, p: nat, s: nat)
    requires p + s <= |a| && p + s <= |b| && SameSuffix(a[p..], b[p..], s)
    ensures a[|a| - s..] == b[|b| - s..]
  {
    CutInThree(a, p, s);
    CutInThree(b, p, s);
  }

  lemma MiddlesDiffer<T>(a: seq<T>, b: seq<T>, p: nat, s: nat)
    requires p + s <= |a| && p + s <= |b| && SuffixEnds(a[p..], b[p..], s)
    requires p < |a| && p < |b| ==> a[p] != b[p]
    ensures EndsDiffer(a[p..|a| - s], b[p..|b| - s])
  {
    hide SuffixEnds;
    if p + s < |a| && p + s < |b| {
      MiddleEnds(a, p, s);
      MiddleEnds(b, p, s);
      SuffixEndsIs(a[p..], b[p..], s);
    }
  }

  lemma SuffixEndsIs<T>(a: seq<T>, b: seq<T>, n: nat)
    requires SuffixEnds(a, b, n) && n < |a| && n < |b|
    ensures a[|a| - n - 1] != b[|b| - n - 1]
  {
  }

  lemma MiddleEnds<T>(a: seq<T>, p: nat, s: nat)
    requires p + s < |a|
    ensures var m := a[p..|a| - s];
            m != [] && m[0] == a[p] && m[|m| - 1] == a[p..][|a[p..]| - s - 1]
  {
  }

  lemma CutInThree<T>(a: seq<T>, p: nat, s: nat)
    requires p + s <= |a|
    ensures a == a[..p] + a[p..|a| - s] + a[|a| - s..]
    ensures a[p..][|a| - p - s..] == a[|a| - s..]
  {
  }

  /** The script computed for `a` and `b`. */
  ghost function Diffs<T>(a: seq<T>, b: seq<T>): seq<Diff<T>>
    decreases |a| + |b|, 1
  {
    var t := Trim(a, b);
    Piece(EQUAL, t.prefix) + MiddleDiffs(t.a, t.b) + Piece(EQUAL, t.suffix)
  }

  /** The script for what is left between the common ends. */
  ghost function MiddleDiffs<T>(a: seq<T>, b: seq<T>): seq<Diff<T>>
    requires EndsDiffer(a, b)
    decreases |a| + |b|, 0
  {
    if a == [] || b == [] || EditDistance(a, b) == |a| + |b| then
      Piece(DELETE, a) + Piece(INSERT, b)
    else
      var (x, y) := SplitPoint(a, b);
      SplitPointDivides(a, b);
      Diffs(a[..x], b[..y]) + Diffs(a[x..], b[y..])
  }

  /** `Diffs` in terms of the two trimmed lengths. */
  lemma DiffsUnfold<T>(a: seq<T>, b: seq<T>, p: nat, s: nat)
    requires p == CommonPrefix(a, b) && s == CommonSuffix(a[p..], b[p..])
    ensures p + s <= |a| && p + s <= |b|
    ensures EndsDiffer(a[p..|a| - s], b[p..|b| - s])
    ensures Diffs(a, b) == Piece(EQUAL, a[..p]) + MiddleDiffs(a[p..|a| - s], b[p..|b| - s]) + Piece(EQUAL, a[|a| - s..])
  {
    hide CommonPrefix, CommonSuffix, SameSuffix, SuffixEnds, MiddleDiffs, EndsDiffer, Piece, Trim;
    PrefixFits(a, b);
    SuffixFits(a[p..], b[p..]);
    TrimIs(a, b, p, s);
  }

  lemma TrimIs<T>(a: seq<T>, b: seq<T>, p: nat, s: nat)
    requires p == CommonPrefix(a, b) && p <= |a| && p <= |b| && s == CommonSuffix(a[p..], b[p..])
    requires p + s <= |a| && p + s <= |b|
    ensures Trim(a, b) == Trimmed(a[..p], a[p..|a| - s], b[p..|b| - s], a[|a| - s..])
    ensures EndsDiffer(a[p..|a| - s], b[p..|b| - s])
  {
    hide CommonPrefix, CommonSuffix, SameSuffix, EndsDiffer;
    var t := Trim(a, b);
  }

  /** The script turns `a` into `b`, has no empty piece, and costs the edit distance. */
  lemma {:induction false} DiffsCorrect<T>(a: seq<T>, b: seq<T>)
    ensures Transforms(Diffs(a, b), a, b)
    ensures Cost(Diffs(a, b)) == EditDistance(a, b)
    ensures NoEmptyPiece(Diffs(a, b))
    decreases |a| + |b|, 1
  {
    var t := Trim(a, b);
    MiddleDiffsCorrect(t.a, t.b);
    BetweenEqualPieces(t.prefix, MiddleDiffs(t.a, t.b), t.a, t.b, t.suffix);
    TrimmedDistance(t.prefix, t.a, t.b, t.suffix);
  }

  lemma BetweenEqualPieces<T>(p: seq<T>, middle: seq<Diff<T>>, a: seq<T>, b: seq<T>, s: seq<T>)
    requires Transforms(middle, a, b)
    ensures Transforms(Piece(EQUAL, p) + middle + Piece(EQUAL, s), p + a + s, p + b + s)
    ensures Cost(Piece(EQUAL, p) + middle + Piece(EQUAL, s)) == Cost(middle)
    ensures NoEmptyPiece(middle) ==> NoEmptyPiece(Piece(EQUAL, p) + middle + Piece(EQUAL, s))
  {
    hide Piece;
    PieceScript(EQUAL, p);
    PieceScript(EQUAL, s);
    PiecesNotEmpty(EQUAL, p, middle, s);
    ScriptConcat(Piece(EQUAL, p), middle);
    ScriptConcat(Piece(EQUAL, p) + middle, Piece(EQUAL, s));
  }

  lemma PiecesNotEmpty<T>(operation: Operation, p: seq<T>, middle: seq<Diff<T>>, s: seq<T>)
    ensures NoEmptyPiece(middle) ==> NoEmptyPiece(Piece(operation, p) + middle + Piece(operation, s))
  {
  }

  lemma {:induction false} MiddleDiffsCorrect<T>(a: seq<T>, b: seq<T>)
    requires EndsDiffer(a, b)
    ensures Transforms(MiddleDiffs(a, b), a, b)
    ensures Cost(MiddleDiffs(a, b)) == EditDistance(a, b)
    ensures NoEmptyPiece(MiddleDiffs(a, b))
    decreases |a| + |b|, 0
  {
    hide Dist, EditDistance, Diffs, Transforms, Cost, NoEmptyPiece, SplitPoint;
    if a == [] || b == [] || EditDistance(a, b) == |a| + |b| {
      ReplaceScript(a, b);
      if a == [] || b == [] {
        NothingInCommon(a, b);
      }
    } else {
      var (x, y) := SplitPoint(a, b);
      SplitPointDivides(a, b);
      DiffsCorrect(a[..x], b[..y]);
      DiffsCorrect(a[x..], b[y..]);
      Halves(Diffs(a[..x], b[..y]), Diffs(a[x..], b[y..]), a, b, x, y);
      HalvesSum(EditDistance(a, b));
    }
  }

  lemma NothingInCommon<T>(a: seq<T>, b: seq<T>)
    requires a == [] || b == []
    ensures EditDistance(a, b) == |a| + |b|
  {
    DistEdges(a, b, |a|);
    DistEdges(a, b, |b|);
  }

  lemma HalvesSum(n: nat)
    ensures (n + 1) / 2 + n / 2 == n
  {
  }

  lemma ReplaceScript<T>(a: seq<T>, b: seq<T>)
    ensures Transforms(Piece(DELETE, a) + Piece(INSERT, b), a, b)
    ensures Cost(Piece(DELETE, a) + Piece(INSERT, b)) == |a| + |b|
    ensures NoEmptyPiece(Piece(DELETE, a) + Piece(INSERT, b))
  {
    PieceScript(DELETE, a);
    PieceScript(INSERT, b);
    ScriptConcat(Piece(DELETE, a), Piece(INSERT, b));
  }

  lemma Halves<T>(p: seq<Diff<T>>, q: seq<Diff<T>>, a: seq<T>, b: seq<T>, x: nat, y: nat)
    requires x <= |a| && y <= |b|
    requires Transforms(p, a[..x], b[..y]) && Transforms(q, a[x..], b[y..])
    ensures Transforms(p + q, a, b) && Cost(p + q) == Cost(p) + Cost(q)
    ensures NoEmptyPiece(p) && NoEmptyPiece(q) ==> NoEmptyPiece(p + q)
  {
    hide OldText, NewText, Cost, NoEmptyPiece;
    ScriptConcat(p, q);
    if NoEmptyPiece(p) && NoEmptyPiece(q) {
      NoEmptyConcat(p, q);
    }
    Rejoined(a, x);
    Rejoined(b, y);
  }

  lemma Rejoined<T>(s: seq<T>, i: nat)
    requires i <= |s|
    ensures s[..i] + s[i..] == s
  {
  }

  lemma NoEmptyConcat<T>(p: seq<Diff<T>>, q: seq<Diff<T>>)
    requires NoEmptyPiece(p) && NoEmptyPiece(q)
    ensures NoEmptyPiece(p + q)
  {
  }

  lemma PieceScript<T>(operation: Operation, text: seq<T>)
    ensures OldText(Piece(operation, text)) == if operation == INSERT then [] else text
    ensures NewText(Piece(operation, text)) == if operation == DELETE then [] else text
    ensures Cost(Piece(operation, text)) == if operation == EQUAL then 0 else |text|
  {
    ScriptSingle(Diff(operation, text));
  }

  /** Minimality in full: no script between the two texts is cheaper than the computed one. */
  lemma DiffsMinimal<T>(a: seq<T>, b: seq<T>, other: seq<Diff<T>>)
    requires Transforms(other, a, b)
    ensures Cost(Diffs(a, b)) <= Cost(other)
  {
    DiffsCorrect(a, b);
    EditDistanceIsLeast(a, b);
  }

  // ---------- State of one search array ----------

  /**
   Cell of diagonal `k` in round `d`, once all diagonals below `next` have been swept:
   swept cells hold the frontier of `d` edits, those of the other parity still hold the
   frontier of d - 1 edits, and those out of reach are as they were initialised.
   */
  ghost predicate Cell<T>(a: seq<T>, b: seq<T>, d: int, next: int, k: int, x: int) {
    if k < -d || d < k then x == if k == 1 then 0 else -1
    else if (k + d) % 2 == 0 then k < next ==> Furthest(a, b, d, k, x)
    else Furthest(a, b, d - 1, k, x)
  }

  /** Every cell of the array is in that state; recursive, so that it unfolds only where asked to. */
  ghost predicate Sweep<T>(a: seq<T>, b: seq<T>, v: seq<int>, offset: int, d: int, next: int) {
    v == [] ||
    (Cell(a, b, d, next, |v| - 1 - offset, v[|v| - 1]) && Sweep(a, b, v[..|v| - 1], offset, d, next))
  }

  lemma {:induction false} SweepCells<T>(a: seq<T>, b: seq<T>, v: seq<int>, offset: int, d: int, next: int)
    ensures Sweep(a, b, v, offset, d, next)
       <==> forall j :: 0 <= j < |v| ==> Cell(a, b, d, next, j - offset, v[j])
    decreases |v|
  {
    if v != [] {
      SweepCells(a, b, v[..|v| - 1], offset, d, next);
      LastCell(a, b, v, offset, d, next);
    }
  }

  lemma LastCell<T>(a: seq<T>, b: seq<T>, v: seq<int>, offset: int, d: int, next: int)
    requires v != []
    ensures (forall j :: 0 <= j < |v| ==> Cell(a, b, d, next, j - offset, v[j]))
       <==> && Cell(a, b, d, next, |v| - 1 - offset, v[|v| - 1])
            && var w := v[..|v| - 1]; forall j :: 0 <= j < |w| ==> Cell(a, b, d, next, j - offset, w[j])
  {
    hide Cell;
    var w := v[..|v| - 1];
    assert forall j :: 0 <= j < |w| ==> w[j] == v[j];
  }

  lemma SweepCell<T>(a: seq<T>, b: seq<T>, v: seq<int>, offset: int, d: int, next: int, j: int)
    requires Sweep(a, b, v, offset, d, next) && 0 <= j < |v|
    ensures Cell(a, b, d, next, j - offset, v[j])
  {
    SweepCells(a, b, v, offset, d, next);
  }

  lemma SweepInitial<T>(a: seq<T>, b: seq<T>, v: seq<int>, offset: nat)
    requires offset + 1 < |v| && v[offset + 1] == 0
    requires forall j :: 0 <= j < |v| && j != offset + 1 ==> v[j] == -1
    ensures Sweep(a, b, v, offset, -1, 1)
  {
    SweepCells(a, b, v, offset, -1, 1);
  }

  lemma CellBegins<T>(a: seq<T>, b: seq<T>, d: int, k: int, x: int)
    requires 0 <= d && Cell(a, b, d - 1, d + 1, k, x)
    ensures Cell(a, b, d, -d, k, x)
  {
  }

  lemma SweepBegins<T>(a: seq<T>, b: seq<T>, v: seq<int>, offset: int, d: int)
    requires 0 <= d && Sweep(a, b, v, offset, d - 1, d + 1)
    ensures Sweep(a, b, v, offset, d, -d)
  {
    forall j | 0 <= j < |v|
      ensures Cell(a, b, d, -d, j - offset, v[j])
    {
      SweepCell(a, b, v, offset, d - 1, d + 1, j);
      CellBegins(a, b, d, j - offset, v[j]);
    }
    SweepCells(a, b, v, offset, d, -d);
  }

  lemma SweepStores<T>(a: seq<T>, b: seq<T>, v: seq<int>, offset: int, d: int, k: int, x: int)
    requires Sweep(a, b, v, offset, d, k)
    requires -d <= k <= d && (k + d) % 2 == 0 && 0 <= offset + k < |v|
    requires Furthest(a, b, d, k, x)
    ensures Sweep(a, b, v[offset + k := x], offset, d, k + 2)
    ensures (k + 2 + d) % 2 == 0
  {
    var w := v[offset + k := x];
    forall j | 0 <= j < |w|
      ensures Cell(a, b, d, k + 2, j - offset, w[j])
    {
      SweepCell(a, b, v, offset, d, k, j);
    }
    SweepCells(a, b, w, offset, d, k + 2);
  }

  /** What a sweep step reads next to diagonal `k` is the frontier of the round before. */
  lemma SweepNeighbours<T>(a: seq<T>, b: seq<T>, v: seq<int>, offset: int, d: int, k: int)
    requires Sweep(a, b, v, offset, d, k)
    requires 0 <= d && -d <= k <= d && (k + d) % 2 == 0
    requires 0 <= offset + k - 1 && offset + k + 1 < |v|
    ensures 0 < d ==> Neighbours(a, b, d, k, v[offset + k - 1], v[offset + k + 1])
    ensures d == 0 ==> k == 0 && v[offset + 1] == 0
  {
    SweepCell(a, b, v, offset, d, k, offset + k - 1);
    SweepCell(a, b, v, offset, d, k, offset + k + 1);
  }

  /**
   Where a sweep step starts, and that the free diagonal moves it then makes inside the grid
   end on the frontier.
   */
  lemma SweepStart<T>(a: seq<T>, b: seq<T>, v: seq<int>, offset: int, d: int, k: int)
    requires Sweep(a, b, v, offset, d, k)
    requires a != [] && b != [] && EndsDiffer(a, b)
    requires 0 <= d && -d <= k <= d && (k + d) % 2 == 0
    requires 0 <= offset + k - 1 && offset + k + 1 < |v|
    ensures var start := RoundStart(d, k, v[offset + k - 1], v[offset + k + 1]);
            && 0 <= start && 0 <= start - k
            && forall x :: SnakeEnd(a, b, k, start, x) ==> Furthest(a, b, d, k, x)
  {
    var left, right := v[offset + k - 1], v[offset + k + 1];
    var start := RoundStart(d, k, left, right);
    SweepNeighbours(a, b, v, offset, d, k);
    if d > 0 {
      RoundStartInReach(a, b, d, k, left, right);
    }
    forall x | SnakeEnd(a, b, k, start, x)
      ensures Furthest(a, b, d, k, x)
    {
      if d > 0 {
        FurthestAdvance(a, b, d, k, left, right, x);
      } else {
        FurthestStart(a, b);
      }
    }
  }

  /** From `start` on diagonal `k`, free moves lead up to `x`. */
  ghost predicate Snake<T>(a: seq<T>, b: seq<T>, k: int, start: int, x: int) {
    && 0 <= start <= x && 0 <= start - k
    && (x == start || (x <= |a| && x - k <= |b| && a[start..x] == b[start - k..x - k]))
  }

  ghost predicate SnakeEnd<T>(a: seq<T>, b: seq<T>, k: int, start: int, x: int) {
    Snake(a, b, k, start, x) && !(x < |a| && x - k < |b| && a[x] == b[x - k])
  }

  lemma SnakeGrows<T>(a: seq<T>, b: seq<T>, k: int, start: int, x: int)
    requires Snake(a, b, k, start, x) && x < |a| && x - k < |b| && a[x] == b[x - k]
    ensures Snake(a, b, k, start, x + 1)
  {
    OneMore(a, start, x);
    OneMore(b, start - k, x - k);
  }

  lemma OneMore<T>(s: seq<T>, lo: int, hi: int)
    requires 0 <= lo <= hi < |s|
    ensures s[lo..hi + 1] == s[lo..hi] + [s[hi]]
  {
  }

  // ---------- The overlap test ----------

  /** The cell the test looks up, where it exists, tells whether the searches overlap on `k`. */
  lemma TestMeets<T>(a: seq<T>, b: seq<T>, d: int, e: int, k: int, x: int, rx: int)
    requires -d <= k <= d && (k + d) % 2 == 0 && -e <= |a| - |b| - k <= e
    requires Furthest(a, b, d, k, x)
    requires Furthest(Reverse(a), Reverse(b), e, |a| - |b| - k, rx)
    ensures Meets(a, b, d, e, k) <==> x >= |a| - rx
  {
    FurthestUnique(a, b, d, k, x, FurthestX(a, b, d, k));
    FurthestUnique(Reverse(a), Reverse(b), e, |a| - |b| - k, rx, FurthestX(Reverse(a), Reverse(b), e, |a| - |b| - k));
  }

  /** Meeting before the distance is spent is impossible, so the first meeting spends it exactly. */
  lemma MeetingSpendsDistance<T>(a: seq<T>, b: seq<T>, d: nat, e: nat, k: int)
    requires Meets(a, b, d, e, k) && d + e <= EditDistance(a, b)
    ensures d + e == EditDistance(a, b)
  {
    var x, rx := FurthestX(a, b, d, k), FurthestX(Reverse(a), Reverse(b), e, |a| - |b| - k);
    OverlapSplits(a, b, d, e, x, x - k, rx, rx - (|a| - |b| - k));
  }

  lemma FirstMeetingIsSplitPoint<T>(a: seq<T>, b: seq<T>, d: nat, e: nat, k: int, x: int)
    requires d == e || d == e + 1
    requires Meets(a, b, d, e, k) && d + e <= EditDistance(a, b)
    requires d == e + 1 ==> forall j :: Meets(a, b, d, e, j) ==> k <= j
    requires d == e ==> forall j :: Meets(a, b, d, e, j) ==> j <= k
    requires Furthest(a, b, d, k, x)
    ensures SplitPoint(a, b) == (x, x - k) && d + e == EditDistance(a, b)
  {
    hide Dist;
    MeetingSpendsDistance(a, b, d, e, k);
    assert IsSplitDiagonal(a, b, k);
    assert k == SplitDiagonal(a, b);
    FurthestUnique(a, b, d, k, x, FurthestX(a, b, d, k));
  }

  /** A round in which no diagonal meets proves that the distance is larger still. */
  lemma NoMeetingRaisesDistance<T>(a: seq<T>, b: seq<T>, d: nat, e: nat)
    requires d == e || d == e + 1
    requires d + e <= EditDistance(a, b)
    requires forall j :: !Meets(a, b, d, e, j)
    ensures d + e < EditDistance(a, b)
  {
    if EditDistance(a, b) == d + e {
      var k := SplitDiagonal(a, b);
    }
  }

  /** No diagonal below `k` meets; no diagonal above `k` meets. */
  ghost predicate NoneBelow<T>(a: seq<T>, b: seq<T>, d: int, e: int, k: int) {
    forall j :: Meets(a, b, d, e, j) ==> k <= j
  }

  ghost predicate NoneAbove<T>(a: seq<T>, b: seq<T>, d: int, e: int, k: int) {
    forall j :: Meets(a, b, d, e, j) ==> j <= k
  }

  /**
   The forward test in round `d`: looking up the backward frontier of d - 1 edits on the same
   diagonal finds an overlap exactly when there is one.  The initial cell of diagonal 1, which
   is still in place in round 0, cannot be mistaken for one because the first elements differ.
   */
  lemma ForwardTest<T>(a: seq<T>, b: seq<T>, d: int, k: int, x: int, rx: int)
    requires a != [] && b != [] && EndsDiffer(a, b)
    requires 0 <= d && (|a| - |b|) % 2 != 0
    requires -d <= k <= d && (k + d) % 2 == 0 && Furthest(a, b, d, k, x)
    requires Cell(Reverse(a), Reverse(b), d - 1, d + 1, |a| - |b| - k, rx)
    ensures Meets(a, b, d, d - 1, k) <==> rx != -1 && x >= |a| - rx
  {
    hide Dist;
    var k2 := |a| - |b| - k;
    if -(d - 1) <= k2 <= d - 1 {
      TestMeets(a, b, d, d - 1, k, x, rx);
    } else if d == 0 {
      FurthestStart(a, b);
      FurthestUnique(a, b, 0, 0, 0, x);
    }
  }

  /** The backward test in round `d`, against the completed forward frontier of `d` edits. */
  lemma BackwardTest<T>(a: seq<T>, b: seq<T>, d: int, k: int, x: int, rx: int)
    requires 0 <= d && (|a| - |b|) % 2 == 0
    requires var k2 := |a| - |b| - k;
             -d <= k2 <= d && (k2 + d) % 2 == 0 && Furthest(Reverse(a), Reverse(b), d, k2, rx)
    requires Cell(a, b, d, d + 2, k, x)
    ensures Meets(a, b, d, d, k) <==> x != -1 && x >= |a| - rx
    ensures x != -1 ==> Furthest(a, b, d, k, x)
  {
    hide Dist, Furthest, FurthestX;
    OtherParity(|a|, |b|, d, k);
    if -d <= k <= d {
      TestMeets(a, b, d, d, k, x, rx);
      FurthestInside(a, b, d, k, x);
    }
  }

  lemma OtherParity(n: int, m: int, d: int, k: int)
    requires (n - m) % 2 == 0 && (n - m - k + d) % 2 == 0
    ensures (k + d) % 2 == 0
  {
    assert k + d == (n - m - k + d) + 2 * k - (n - m);
  }

  lemma FurthestInside<T>(a: seq<T>, b: seq<T>, d: int, k: int, x: int)
    requires Furthest(a, b, d, k, x)
    ensures 0 <= x
  {
    hide Dist;
  }

  /** After a full round without an overlap the distance exceeds what both searches have spent. */
  lemma NoMeetingInRound<T>(a: seq<T>, b: seq<T>, d: nat)
    requires (|a| - |b|) % 2 != 0 ==> EditDistance(a, b) >= 2 * d - 1 && NoneBelow(a, b, d, d - 1, d + 2)
    requires (|a| - |b|) % 2 == 0 ==> EditDistance(a, b) >= 2 * d && NoneAbove(a, b, d, d, |a| - |b| - d - 2)
    ensures EditDistance(a, b) >= if (|a| - |b|) % 2 != 0 then 2 * d + 1 else 2 * d + 2
  {
    hide Dist, Meets;
    DistBounds(a, b, |a|, |b|);
    ParityGap(EditDistance(a, b), |a|, |b|, d);
    if (|a| - |b|) % 2 != 0 {
      NoneInReach(a, b, d, d - 1);
      if d > 0 {
        NoMeetingRaisesDistance(a, b, d, d - 1);
      }
    } else {
      NoneInReach(a, b, d, d);
      NoMeetingRaisesDistance(a, b, d, d);
    }
  }

  /** All diagonals in reach were swept. */
  lemma NoneInReach<T>(a: seq<T>, b: seq<T>, d: int, e: int)
    requires NoneBelow(a, b, d, e, d + 2) || NoneAbove(a, b, d, e, |a| - |b| - e - 2)
    ensures forall j :: !Meets(a, b, d, e, j)
  {
    hide FurthestX;
  }

  lemma ParityGap(total: int, n: int, m: int, d: int)
    requires (n + m - total) % 2 == 0
    ensures (n - m) % 2 != 0 && total > 2 * d - 1 ==> total >= 2 * d + 1
    ensures (n - m) % 2 == 0 && total > 2 * d ==> total >= 2 * d + 2
    ensures (n - m) % 2 != 0 ==> total != 0
  {
    assert (n - m) % 2 == (n + m) % 2 by {
      assert n + m == (n - m) + 2 * m;
    }
    assert total % 2 == (n + m) % 2;
  }

  /** Diagonals of the other parity, which a round skips, cannot meet before the distance is spent. */
  lemma MeetingParity<T>(a: seq<T>, b: seq<T>, d: nat, e: nat, k: int)
    requires Meets(a, b, d, e, k) && d + e <= EditDistance(a, b)
    ensures (k + d) % 2 == 0
  {
    hide Dist, SplitPoint;
    var x, rx := FurthestX(a, b, d, k), FurthestX(Reverse(a), Reverse(b), e, |a| - |b| - k);
    OverlapSplits(a, b, d, e, x, x - k, rx, rx - (|a| - |b| - k));
    DistBounds(a, b, x, x - k);
    OddShift(x, k, d);
  }

  lemma OddShift(x: int, k: int, d: int)
    requires (x + (x - k) - d) % 2 == 0
    ensures (k + d) % 2 == 0
  {
    assert k + d == 2 * x - (x + (x - k) - d);
  }

  lemma DistanceParity<T>(a: seq<T>, b: seq<T>)
    ensures (|a| - |b|) % 2 != 0 ==> EditDistance(a, b) % 2 != 0
  {
    hide Dist, Even;
    DistBounds(a, b, |a|, |b|);
    EvenSides(|a|, |b|, EditDistance(a, b));
  }

  lemma EvenSides(n: int, m: int, total: int)
    requires Even(n + m - total)
    ensures (n - m) % 2 != 0 ==> total % 2 != 0
  {
    assert n - m - total == n + m - total - 2 * m;
  }

  /** Before a round begins no diagonal has been tested, and none lies below the first one. */
  lemma NoneTested<T>(a: seq<T>, b: seq<T>, d: int, e: int)
    ensures NoneBelow(a, b, d, e, -d) && NoneAbove(a, b, d, e, |a| - |b| + e)
  {
    hide Dist;
  }

  /** When the round limit passes without an overlap, replacing everything is a shortest script. */
  lemma SearchExhausted<T>(a: seq<T>, b: seq<T>, maxD: nat)
    requires a != [] && b != [] && EndsDiffer(a, b) && maxD == (|a| + |b| + 1) / 2
    requires EditDistance(a, b) >= if (|a| - |b|) % 2 != 0 then 2 * maxD - 1 else 2 * maxD
    ensures MiddleDiffs(a, b) == [Diff(DELETE, a), Diff(INSERT, b)]
  {
    hide Dist, MiddleDiffs, EndsDiffer;
    DistBounds(a, b, |a|, |b|);
    DistanceExhausted(|a|, |b|, maxD, EditDistance(a, b));
    MiddleDiffsReplace(a, b);
  }

  lemma DistanceExhausted(n: int, m: int, maxD: int, d: int)
    requires maxD == (n + m + 1) / 2 && d <= n + m && d >= if (n - m) % 2 != 0 then 2 * maxD - 1 else 2 * maxD
    ensures d == n + m
  {
    RoundLimit(n, m, maxD);
  }

  lemma MiddleDiffsReplace<T>(a: seq<T>, b: seq<T>)
    requires a != [] && b != [] && EndsDiffer(a, b) && EditDistance(a, b) == |a| + |b|
    ensures MiddleDiffs(a, b) == [Diff(DELETE, a), Diff(INSERT, b)]
  {
    hide Dist;
    assert Piece(DELETE, a) == [Diff(DELETE, a)] && Piece(INSERT, b) == [Diff(INSERT, b)];
    assert MiddleDiffs(a, b) == Piece(DELETE, a) + Piece(INSERT, b);
  }

  lemma RoundLimit(n: int, m: int, maxD: int)
    requires maxD == (n + m + 1) / 2
    ensures (n - m) % 2 != 0 ==> 2 * maxD - 1 == n + m
    ensures (n - m) % 2 == 0 ==> 2 * maxD == n + m
  {
    assert n + m == (n - m) + 2 * m;
  }

  lemma NoneBelowAdvances<T>(a: seq<T>, b: seq<T>, d: nat, e: nat, k: int)
    requires NoneBelow(a, b, d, e, k) && !Meets(a, b, d, e, k)
    requires (k + d) % 2 == 0 && d + e <= EditDistance(a, b)
    ensures NoneBelow(a, b, d, e, k + 2)
  {
    hide Dist;
    if Meets(a, b, d, e, k + 1) {
      MeetingParity(a, b, d, e, k + 1);
    }
  }

  lemma NoneAboveAdvances<T>(a: seq<T>, b: seq<T>, d: nat, e: nat, k: int)
    requires NoneAbove(a, b, d, e, k) && !Meets(a, b, d, e, k)
    requires (k + d) % 2 == 0 && d + e <= EditDistance(a, b)
    ensures NoneAbove(a, b, d, e, k - 2)
  {
    hide Dist;
    if Meets(a, b, d, e, k - 1) {
      MeetingParity(a, b, d, e, k - 1);
    }
  }

  /** The outcome of the forward lookup: the split point, or one more diagonal without overlap. */
  lemma ForwardLookup<T>(a: seq<T>, b: seq<T>, v: seq<int>, offset: int, d: int, k: int, x: int)
    requires a != [] && b != [] && EndsDiffer(a, b)
    requires 0 <= d < offset && |v| == 2 * offset + 1 && 2 * offset <= |a| + |b| + 1 && (|a| - |b|) % 2 != 0
    requires -d <= k <= d && (k + d) % 2 == 0 && Furthest(a, b, d, k, x)
    requires Sweep(Reverse(a), Reverse(b), v, offset, d - 1, d + 1)
    requires NoneBelow(a, b, d, d - 1, k) && EditDistance(a, b) >= 2 * d - 1
    ensures var j := offset + (|a| - |b|) - k;
            if 0 <= j < |v| && v[j] != -1 && x >= |a| - v[j]
            then SplitPoint(a, b) == (x, x - k) && EditDistance(a, b) < |a| + |b|
            else NoneBelow(a, b, d, d - 1, k + 2)
  {
    hide Dist, Cell, Sweep, SplitPoint, FurthestX;
    var j := offset + (|a| - |b|) - k;
    if 0 <= j < |v| {
      SweepCell(Reverse(a), Reverse(b), v, offset, d - 1, d + 1, j);
      ForwardTest(a, b, d, k, x, v[j]);
    }
    if Meets(a, b, d, d - 1, k) {
      FirstMeetingIsSplitPoint(a, b, d, d - 1, k, x);
    } else if d > 0 {
      NoneBelowAdvances(a, b, d, d - 1, k);
    }
  }

  /** The outcome of the backward lookup, whose diagonals go down as `k2` goes up. */
  lemma BackwardLookup<T>(a: seq<T>, b: seq<T>, v: seq<int>, offset: int, d: int, k2: int, rx: int)
    requires 0 <= d < offset && |v| == 2 * offset + 1 && 2 * offset <= |a| + |b| + 1 && (|a| - |b|) % 2 == 0
    requires -d <= k2 <= d && (k2 + d) % 2 == 0 && Furthest(Reverse(a), Reverse(b), d, k2, rx)
    requires Sweep(a, b, v, offset, d, d + 2)
    requires NoneAbove(a, b, d, d, |a| - |b| - k2) && EditDistance(a, b) >= 2 * d
    ensures var j := offset + (|a| - |b|) - k2;
            if 0 <= j < |v| && v[j] != -1 && v[j] >= |a| - rx
            then SplitPoint(a, b) == (v[j], offset + v[j] - j) && EditDistance(a, b) < |a| + |b|
            else NoneAbove(a, b, d, d, |a| - |b| - (k2 + 2))
  {
    hide Dist, Cell, Sweep, SplitPoint, FurthestX;
    var k := |a| - |b| - k2;
    var j := offset + k;
    if 0 <= j < |v| {
      SweepCell(a, b, v, offset, d, d + 2, j);
      BackwardTest(a, b, d, k, v[j], rx);
    }
    if Meets(a, b, d, d, k) {
      FirstMeetingIsSplitPoint(a, b, d, d, k, v[j]);
    } else {
      NoneAboveAdvances(a, b, d, d, k);
    }
  }

  // ---------- The algorithm ----------

  method DiffCommonPrefix<T(==)>(a: seq<T>, b: seq<T>) returns (r: nat)
    ensures r == CommonPrefix(a, b)
  {
    var n := Min(|a|, |b|);
    for i := 0 to n
      invariant CommonPrefix(a, b) == i + CommonPrefix(a[i..], b[i..])
    {
      if a[i] != b[i] {
        return i;
      }
    }
    return n;
  }

  /** How the scan for a common suffix goes on, or ends. */
  lemma SuffixScan<T>(a: seq<T>, b: seq<T>, n: nat)
    requires SameSuffix(a, b, n)
    ensures n < |a| && n < |b| && a[|a| - n - 1] == b[|b| - n - 1] ==>
              SameSuffix(a, b, n + 1) && CommonSuffixFrom(a, b, n) == CommonSuffixFrom(a, b, n + 1)
    ensures n == |a| || n == |b| || a[|a| - n - 1] != b[|b| - n - 1] ==> CommonSuffixFrom(a, b, n) == n
  {
    if n < |a| && n < |b| && a[|a| - n - 1] == b[|b| - n - 1] {
      SameSuffixGrows(a, b, n);
    }
  }

  lemma SuffixScanStarts<T>(a: seq<T>, b: seq<T>)
    ensures SameSuffix(a, b, 0) && CommonSuffix(a, b) == CommonSuffixFrom(a, b, 0)
  {
  }

  method DiffCommonSuffix<T(==)>(a: seq<T>, b: seq<T>) returns (r: nat)
    ensures r == CommonSuffix(a, b)
  {
    hide SameSuffix, CommonSuffix, CommonSuffixFrom;
    SuffixScanStarts(a, b);
    var n := Min(|a|, |b|);
    for i := 1 to n + 1
      invariant SameSuffix(a, b, i - 1)
      invariant CommonSuffix(a, b) == CommonSuffixFrom(a, b, i - 1)
    {
      SuffixScan(a, b, i - 1);
      if a[|a| - i] != b[|b| - i] {
        return i - 1;
      }
    }
    SuffixScan(a, b, n);
    return n;
  }

  method DiffMain<T(==)>(text1: seq<T>, text2: seq<T>) returns (diffs: seq<Diff<T>>)
    ensures diffs == Diffs(text1, text2)
    decreases |text1| + |text2|, 3
  {
    hide Dist, EndsDiffer, CommonPrefix, CommonSuffix, SameSuffix, Piece, Diffs, MiddleDiffs;
    var p := DiffCommonPrefix(text1, text2);
    var s := DiffCommonSuffix(text1[p..], text2[p..]);
    DiffsUnfold(text1, text2, p, s);
    var prefix, suffix := text1[..p], text1[|text1| - s..];
    diffs := DiffCompute(text1[p..|text1| - s], text2[p..|text2| - s]);
    diffs := RestoreEnds(prefix, diffs, suffix);
  }

  method RestoreEnds<T>(prefix: seq<T>, middle: seq<Diff<T>>, suffix: seq<T>) returns (diffs: seq<Diff<T>>)
    ensures diffs == Piece(EQUAL, prefix) + middle + Piece(EQUAL, suffix)
  {
    diffs := middle;
    if |prefix| > 0 {
      diffs := [Diff(EQUAL, prefix)] + diffs;
    }
    if |suffix| > 0 {
      diffs := diffs + [Diff(EQUAL, suffix)];
    }
  }

  method DiffCompute<T(==)>(text1: seq<T>, text2: seq<T>) returns (diffs: seq<Diff<T>>)
    requires EndsDiffer(text1, text2)
    ensures diffs == MiddleDiffs(text1, text2)
    decreases |text1| + |text2|, 2
  {
    if |text1| == 0 {
      if |text2| == 0 {
        return [];
      }
      return [Diff(INSERT, text2)];
    }
    if |text2| == 0 {
      return [Diff(DELETE, text1)];
    }
    diffs := DiffBisect(text1, text2);
  }

  method DiffBisect<T(==)>(text1: seq<T>, text2: seq<T>) returns (diffs: seq<Diff<T>>)
    requires text1 != [] && text2 != [] && EndsDiffer(text1, text2)
    ensures diffs == MiddleDiffs(text1, text2)
    decreases |text1| + |text2|, 1
  {
    hide Dist, EditDistance, EndsDiffer, Sweep, SplitPoint, Diffs, MiddleDiffs;
    var maxD := (|text1| + |text2| + 1) / 2;
    var vOffset := maxD;
    var vLength := 2 * maxD + 1;
    var v1 := new int[vLength](_ => -1);
    var v2 := new int[vLength](_ => -1);
    v1[vOffset + 1] := 0;
    v2[vOffset + 1] := 0;
    SweepInitial(text1, text2, v1[..], vOffset);
    SweepInitial(Reverse(text1), Reverse(text2), v2[..], vOffset);
    DistanceParity(text1, text2);

    for d := 0 to maxD
      invariant Sweep(text1, text2, v1[..], vOffset, d - 1, d + 1)
      invariant Sweep(Reverse(text1), Reverse(text2), v2[..], vOffset, d - 1, d + 1)
      invariant EditDistance(text1, text2) >= if (|text1| - |text2|) % 2 != 0 then 2 * d - 1 else 2 * d
    {
      var found, x, y := ForwardSearch(text1, text2, v1, v2, vOffset, d);
      if found {
        diffs := DiffBisectSplit(text1, text2, x, y);
        return;
      }
      found, x, y := ReverseSearch(text1, text2, v1, v2, vOffset, d);
      if found {
        diffs := DiffBisectSplit(text1, text2, x, y);
        return;
      }
      NoMeetingInRound(text1, text2, d);
    }
    SearchExhausted(text1, text2, maxD);
    return [Diff(DELETE, text1), Diff(INSERT, text2)];
  }

  /** What both search rounds need of the two arrays. */
  ghost predicate Searching<T>(a: seq<T>, b: seq<T>, v1: array<int>, v2: array<int>, vOffset: int, d: int) {
    && a != [] && b != [] && EndsDiffer(a, b)
    && v1 != v2 && v1.Length == v2.Length == 2 * vOffset + 1 && 2 * vOffset <= |a| + |b| + 1
    && 0 <= d < vOffset
    && EditDistance(a, b) >= if (|a| - |b|) % 2 != 0 then 2 * d - 1 else 2 * d
  }

  /** One forward round: advances every diagonal of `v1` to `d` edits, or stops at an overlap. */
  method ForwardSearch<T(==)>(text1: seq<T>, text2: seq<T>, v1: array<int>, v2: array<int>, vOffset: int, d: int)
    returns (found: bool, x: int, y: int)
    requires Searching(text1, text2, v1, v2, vOffset, d)
    requires Sweep(text1, text2, v1[..], vOffset, d - 1, d + 1)
    requires Sweep(Reverse(text1), Reverse(text2), v2[..], vOffset, d - 1, d + 1)
    modifies v1
    ensures found ==> SplitPoint(text1, text2) == (x, y) && EditDistance(text1, text2) < |text1| + |text2|
    ensures !found ==> Sweep(text1, text2, v1[..], vOffset, d, d + 2)
    ensures !found && (|text1| - |text2|) % 2 != 0 ==> NoneBelow(text1, text2, d, d - 1, d + 2)
  {
    hide Dist, EditDistance, EndsDiffer, Sweep, SplitPoint, Furthest, NoneBelow, NoneAbove;
    var vLength := v1.Length;
    var delta := |text1| - |text2|;
    var front := delta % 2 != 0;
    SweepBegins(text1, text2, v1[..], vOffset, d);
    NoneTested(text1, text2, d, d - 1);
    var k1 := -d;
    while k1 <= d
      invariant -d <= k1 <= d + 2 && (k1 + d) % 2 == 0
      invariant Sweep(text1, text2, v1[..], vOffset, d, k1)
      invariant v2[..] == old(v2[..])
      invariant front ==> NoneBelow(text1, text2, d, d - 1, k1)
      decreases d - k1
    {
      var k1Offset := vOffset + k1;
      var x1 := ForwardReach(text1, text2, v1, vOffset, d, k1);
      ghost var before := v1[..];
      SweepStores(text1, text2, before, vOffset, d, k1, x1);
      v1[k1Offset] := x1;
      assert v1[..] == before[vOffset + k1 := x1];
      if front {
        ForwardLookup(text1, text2, v2[..], vOffset, d, k1, x1);
        var k2Offset := vOffset + delta - k1;
        if k2Offset >= 0 && k2Offset < vLength && v2[k2Offset] != -1 {
          var x2 := |text1| - v2[k2Offset];
          if x1 >= x2 {
            return true, x1, x1 - k1;
          }
        }
      }
      k1 := k1 + 2;
    }
    return false, 0, 0;
  }

  /** The furthest point of `d` edits on diagonal `k1`, from the round before and the free moves. */
  method ForwardReach<T(==)>(text1: seq<T>, text2: seq<T>, v1: array<int>, vOffset: int, d: int, k1: int)
    returns (x1: int)
    requires text1 != [] && text2 != [] && EndsDiffer(text1, text2)
    requires -d <= k1 <= d && (k1 + d) % 2 == 0 && d < vOffset
    requires v1.Length == 2 * vOffset + 1 && Sweep(text1, text2, v1[..], vOffset, d, k1)
    ensures Furthest(text1, text2, d, k1, x1)
  {
    hide Dist;
    var k1Offset := vOffset + k1;
    SweepStart(text1, text2, v1[..], vOffset, d, k1);
    if k1 == -d || (k1 != d && v1[k1Offset - 1] < v1[k1Offset + 1]) {
      x1 := v1[k1Offset + 1];
    } else {
      x1 := v1[k1Offset - 1] + 1;
    }
    var y1 := x1 - k1;
    ghost var start := x1;
    while x1 < |text1| && y1 < |text2| && text1[x1] == text2[y1]
      invariant y1 == x1 - k1 && Snake(text1, text2, k1, start, x1)
      decreases |text1| - x1
    {
      SnakeGrows(text1, text2, k1, start, x1);
      x1, y1 := x1 + 1, y1 + 1;
    }
    assert SnakeEnd(text1, text2, k1, start, x1);
  }

  /** One backward round on `v2`, tested against the forward frontier of the same round. */
  method ReverseSearch<T(==)>(text1: seq<T>, text2: seq<T>, v1: array<int>, v2: array<int>, vOffset: int, d: int)
    returns (found: bool, x: int, y: int)
    requires Searching(text1, text2, v1, v2, vOffset, d)
    requires Sweep(text1, text2, v1[..], vOffset, d, d + 2)
    requires Sweep(Reverse(text1), Reverse(text2), v2[..], vOffset, d - 1, d + 1)
    modifies v2
    ensures found ==> SplitPoint(text1, text2) == (x, y) && EditDistance(text1, text2) < |text1| + |text2|
    ensures !found ==> Sweep(Reverse(text1), Reverse(text2), v2[..], vOffset, d, d + 2)
    ensures !found && (|text1| - |text2|) % 2 == 0 ==> NoneAbove(text1, text2, d, d, |text1| - |text2| - d - 2)
  {
    hide Dist, EditDistance, EndsDiffer, Sweep, SplitPoint, Furthest, NoneBelow, NoneAbove;
    var vLength := v1.Length;
    var delta := |text1| - |text2|;
    var front := delta % 2 != 0;
    SweepBegins(Reverse(text1), Reverse(text2), v2[..], vOffset, d);
    NoneTested(text1, text2, d, d);
    var k2 := -d;
    while k2 <= d
      invariant -d <= k2 <= d + 2 && (k2 + d) % 2 == 0
      invariant Sweep(Reverse(text1), Reverse(text2), v2[..], vOffset, d, k2)
      invariant v1[..] == old(v1[..])
      invariant !front ==> NoneAbove(text1, text2, d, d, delta - k2)
      decreases d - k2
    {
      var k2Offset := vOffset + k2;
      var x2 := ReverseReach(text1, text2, v2, vOffset, d, k2);
      ghost var before := v2[..];
      SweepStores(Reverse(text1), Reverse(text2), before, vOffset, d, k2, x2);
      v2[k2Offset] := x2;
      assert v2[..] == before[vOffset + k2 := x2];
      if !front {
        BackwardLookup(text1, text2, v1[..], vOffset, d, k2, x2);
        var k1Offset := vOffset + delta - k2;
        if k1Offset >= 0 && k1Offset < vLength && v1[k1Offset] != -1 {
          var x1 := v1[k1Offset];
          if x1 >= |text1| - x2 {
            return true, x1, vOffset + x1 - k1Offset;
          }
        }
      }
      k2 := k2 + 2;
    }
    return false, 0, 0;
  }

  method ReverseReach<T(==)>(text1: seq<T>, text2: seq<T>, v2: array<int>, vOffset: int, d: int, k2: int)
    returns (x2: int)
    requires text1 != [] && text2 != [] && EndsDiffer(text1, text2)
    requires -d <= k2 <= d && (k2 + d) % 2 == 0 && d < vOffset
    requires v2.Length == 2 * vOffset + 1 && Sweep(Reverse(text1), Reverse(text2), v2[..], vOffset, d, k2)
    ensures Furthest(Reverse(text1), Reverse(text2), d, k2, x2)
  {
    hide Dist;
    ghost var r1, r2 := Reverse(text1), Reverse(text2);
    var n, m := |text1|, |text2|;
    var k2Offset := vOffset + k2;
    SweepStart(r1, r2, v2[..], vOffset, d, k2);
    if k2 == -d || (k2 != d && v2[k2Offset - 1] < v2[k2Offset + 1]) {
      x2 := v2[k2Offset + 1];
    } else {
      x2 := v2[k2Offset - 1] + 1;
    }
    var y2 := x2 - k2;
    ghost var start := x2;
    while x2 < n && y2 < m && text1[n - x2 - 1] == text2[m - y2 - 1]
      invariant y2 == x2 - k2 && Snake(r1, r2, k2, start, x2)
      decreases n - x2
    {
      SnakeGrows(r1, r2, k2, start, x2);
      x2, y2 := x2 + 1, y2 + 1;
    }
    assert SnakeEnd(r1, r2, k2, start, x2);
  }

  method DiffBisectSplit<T(==)>(text1: seq<T>, text2: seq<T>, x: int, y: int) returns (diffs: seq<Diff<T>>)
    requires text1 != [] && text2 != [] && EndsDiffer(text1, text2)
    requires SplitPoint(text1, text2) == (x, y) && EditDistance(text1, text2) < |text1| + |text2|
    ensures diffs == MiddleDiffs(text1, text2)
    decreases |text1| + |text2|, 0
  {
    hide Dist;
    SplitPointDivides(text1, text2);
    diffs := DiffMain(text1[..x], text2[..y]);
    var rest := DiffMain(text1[x..], text2[y..]);
    diffs := diffs + rest;
  }
}
