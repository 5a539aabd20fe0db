/**
 The edit graph of two texts, read on the unbounded quarter plane: a rightward or a
 downward move costs one edit anywhere, and a diagonal move is free but only exists
 inside the grid, where the two elements agree.  Myers' frontiers live on this plane,
 because the search never clips them at the edge of the grid.
 */
module EditPlane {
  import opened Sequences

  datatype Operation = EQUAL | INSERT | DELETE

  datatype Diff<+T> = Diff(operation: Operation, text: seq<T>)

  // ---------- Distance on the plane ----------

  /** Fewest edits that lead from (0, 0) to (x, y). */
  ghost function Dist<T>(a: seq<T>, b: seq<T>, x: nat, y: nat): nat
    decreases x + y
  {
    if x == 0 then y
    else if y == 0 then x
    else if x <= |a| && y <= |b| && a[x - 1] == b[y - 1] then Dist(a, b, x - 1, y - 1)
    else 1 + Min(Dist(a, b, x - 1, y), Dist(a, b, x, y - 1))
  }

  ghost function EditDistance<T>(a: seq<T>, b: seq<T>): nat {
    Dist(a, b, |a|, |b|)
  }

  lemma DistEdges<T>(a: seq<T>, b: seq<T>, n: nat)
    ensures Dist(a, b, n, 0) == n && Dist(a, b, 0, n) == n
  {
  }

  lemma DistMatch<T>(a: seq<T>, b: seq<T>, x: nat, y: nat)
    requires x < |a| && y < |b| && a[x] == b[y]
    ensures Dist(a, b, x + 1, y + 1) == Dist(a, b, x, y)
  {
  }

  lemma DistNoMatch<T>(a: seq<T>, b: seq<T>, x: nat, y: nat)
    requires !(x < |a| && y < |b| && a[x] == b[y])
    ensures Dist(a, b, x + 1, y + 1) == 1 + Min(Dist(a, b, x, y + 1), Dist(a, b, x + 1, y))
  {
  }

  /** A point inside is reached diagonally, or from the nearer of its two neighbours. */
  lemma DistInside<T>(a: seq<T>, b: seq<T>, x: nat, y: nat)
    ensures Dist(a, b, x + 1, y + 1) == Dist(a, b, x, y)
         || Dist(a, b, x + 1, y + 1) == 1 + Min(Dist(a, b, x, y + 1), Dist(a, b, x + 1, y))
  {
    hide Dist;
    if x < |a| && y < |b| && a[x] == b[y] {
      DistMatch(a, b, x, y);
    } else {
      DistNoMatch(a, b, x, y);
    }
  }

  /** One move changes the distance by at most one; a diagonal move never lowers it. */
  lemma {:induction false} DistStep<T>(a: seq<T>, b: seq<T>, x: nat, y: nat)
    ensures -1 <= Dist(a, b, x + 1, y) - Dist(a, b, x, y) <= 1
    ensures -1 <= Dist(a, b, x, y + 1) - Dist(a, b, x, y) <= 1
    ensures Dist(a, b, x, y) <= Dist(a, b, x + 1, y + 1)
    decreases x + y
  {
    hide Dist;
    DistEdges(a, b, x);
    DistEdges(a, b, y);
    DistEdges(a, b, x + 1);
    DistEdges(a, b, y + 1);
    if x > 0 {
      DistStep(a, b, x - 1, y);
      DistInside(a, b, x - 1, y);
    }
    if y > 0 {
      DistStep(a, b, x, y - 1);
      DistInside(a, b, x, y - 1);
    }
    DistInside(a, b, x, y);
  }

  ghost predicate Even(n: int) {
    n % 2 == 0
  }

  lemma EvenZero()
    ensures Even(0)
  {
  }

  lemma EvenTwoLess(n: int)
    ensures Even(n) <==> Even(n - 2)
  {
  }

  /** The distance is at least the diagonal's offset, at most x + y, and of their parity. */
  lemma {:induction false} DistBounds<T>(a: seq<T>, b: seq<T>, x: nat, y: nat)
    ensures x - y <= Dist(a, b, x, y) && y - x <= Dist(a, b, x, y) <= x + y
    ensures Even(x + y - Dist(a, b, x, y))
    decreases x + y
  {
    hide Dist, Even;
    DistEdges(a, b, x);
    DistEdges(a, b, y);
    EvenZero();
    if x > 0 && y > 0 {
      DistBounds(a, b, x - 1, y);
      DistBounds(a, b, x, y - 1);
      DistBounds(a, b, x - 1, y - 1);
      DistInside(a, b, x - 1, y - 1);
      EvenTwoLess(x + y - Dist(a, b, x, y));
    }
  }

  lemma {:induction false} DistDiagonal<T>(a: seq<T>, b: seq<T>, x: nat, y: nat, n: nat)
    ensures Dist(a, b, x, y) <= Dist(a, b, x + n, y + n)
    decreases n
  {
    if n > 0 {
      DistDiagonal(a, b, x, y, n - 1);
      DistStep(a, b, x + n - 1, y + n - 1);
    }
  }

  /** Beyond the grid's last column only plain rightward moves are left. */
  lemma {:induction false} DistPastColumns<T>(a: seq<T>, b: seq<T>, x: nat, y: nat)
    requires |a| <= x
    ensures Dist(a, b, x, y) == Dist(a, b, |a|, y) + (x - |a|)
    decreases x + y
  {
    hide Dist;
    DistEdges(a, b, x);
    DistEdges(a, b, |a|);
    if x > |a| {
      DistPastColumns(a, b, x - 1, y);
      if y > 0 {
        DistPastColumns(a, b, x, y - 1);
        DistNoMatch(a, b, x - 1, y - 1);
        DistStep(a, b, |a|, y - 1);
      }
    }
  }

  lemma {:induction false} DistPastRows<T>(a: seq<T>, b: seq<T>, x: nat, y: nat)
    requires |b| <= y
    ensures Dist(a, b, x, y) == Dist(a, b, x, |b|) + (y - |b|)
    decreases x + y
  {
    hide Dist;
    DistEdges(a, b, y);
    DistEdges(a, b, |b|);
    if y > |b| {
      DistPastRows(a, b, x, y - 1);
      if x > 0 {
        DistPastRows(a, b, x - 1, y);
        DistNoMatch(a, b, x - 1, y - 1);
        DistStep(a, b, x - 1, |b|);
      }
    }
  }

  lemma {:induction false} DistMatches<T>(a: seq<T>, b: seq<T>, x: nat, y: nat, n: nat)
    requires x + n <= |a| && y + n <= |b| && a[x..x + n] == b[y..y + n]
    ensures Dist(a, b, x + n, y + n) == Dist(a, b, x, y)
    decreases n
  {
    if n > 0 {
      assert a[x..x + n][..n - 1] == a[x..x + n - 1] && b[y..y + n][..n - 1] == b[y..y + n - 1];
      DistMatches(a, b, x, y, n - 1);
      assert a[x + n - 1] == a[x..x + n][n - 1] == b[y + n - 1];
    }
  }

  lemma {:induction false} DistZero<T>(a: seq<T>, b: seq<T>, x: nat, y: nat)
    requires x <= |a| && y <= |b| && Dist(a, b, x, y) == 0
    ensures x == y && a[..x] == b[..y]
  {
    if x > 0 && y > 0 {
      DistZero(a, b, x - 1, y - 1);
      assert a[..x] == a[..x - 1] + [a[x - 1]] && b[..y] == b[..y - 1] + [b[y - 1]];
    }
  }

  // ---------- Edit scripts ----------

  /** What a script keeps or removes of the old text. */
  ghost function OldText<T>(ds: seq<Diff<T>>): seq<T> {
    if ds == [] then [] else
    (if ds[0].operation == INSERT then [] else ds[0].text) + OldText(ds[1..])
  }

  /** What a script keeps of, or adds to, the new text. */
  ghost function NewText<T>(ds: seq<Diff<T>>): seq<T> {
    if ds == [] then [] else
    (if ds[0].operation == DELETE then [] else ds[0].text) + NewText(ds[1..])
  }

  ghost function Cost<T>(ds: seq<Diff<T>>): nat {
    if ds == [] then 0 else
    (if ds[0].operation == EQUAL then 0 else |ds[0].text|) + Cost(ds[1..])
  }

  ghost predicate Transforms<T>(ds: seq<Diff<T>>, a: seq<T>, b: seq<T>) {
    OldText(ds) == a && NewText(ds) == b
  }

  ghost predicate NoEmptyPiece<T>(ds: seq<Diff<T>>) {
    forall i :: 0 <= i < |ds| ==> ds[i].text != []
  }

  lemma {:induction false} ScriptConcat<T>(p: seq<Diff<T>>, q: seq<Diff<T>>)
    ensures OldText(p + q) == OldText(p) + OldText(q)
    ensures NewText(p + q) == NewText(p) + NewText(q)
    ensures Cost(p + q) == Cost(p) + Cost(q)
  {
    if p == [] {
      assert p + q == q;
    } else {
      assert (p + q)[0] == p[0] && (p + q)[1..] == p[1..] + q;
      ScriptConcat(p[1..], q);
      var d := p[0];
      var kept, added := if d.operation == INSERT then [] else d.text, if d.operation == DELETE then [] else d.text;
      assert kept + (OldText(p[1..]) + OldText(q)) == kept + OldText(p[1..]) + OldText(q);
      assert added + (NewText(p[1..]) + NewText(q)) == added + NewText(p[1..]) + NewText(q);
    }
  }

  lemma ScriptSingle<T>(d: Diff<T>)
    ensures OldText([d]) == if d.operation == INSERT then [] else d.text
    ensures NewText([d]) == if d.operation == DELETE then [] else d.text
    ensures Cost([d]) == if d.operation == EQUAL then 0 else |d.text|
  {
    assert [d][1..] == [];
  }

  ghost function ReverseScript<T>(ds: seq<Diff<T>>): seq<Diff<T>> {
    if ds == [] then [] else
    ReverseScript(ds[1..]) + [Diff(ds[0].operation, Reverse(ds[0].text))]
  }

  /** A script read backwards transforms the reversed texts at the same cost. */
  lemma {:induction false} ReverseScriptTransforms<T>(ds: seq<Diff<T>>)
    ensures Transforms(ReverseScript(ds), Reverse(OldText(ds)), Reverse(NewText(ds)))
    ensures Cost(ReverseScript(ds)) == Cost(ds)
  {
    if ds != [] {
      ReverseScriptTransforms(ds[1..]);
      var d := Diff(ds[0].operation, Reverse(ds[0].text));
      ScriptSingle(d);
      ScriptConcat(ReverseScript(ds[1..]), [d]);
      ReverseConcat(if ds[0].operation == INSERT then [] else ds[0].text, OldText(ds[1..]));
      ReverseConcat(if ds[0].operation == DELETE then [] else ds[0].text, NewText(ds[1..]));
    }
  }

  /** `ds` leads from (x, y) to (x', y') in the grid of `a` and `b`. */
  ghost predicate Leads<T>(ds: seq<Diff<T>>, a: seq<T>, b: seq<T>, x: nat, y: nat, x': nat, y': nat) {
    && x <= x' <= |a| && y <= y' <= |b|
    && Transforms(ds, a[x..x'], b[y..y'])
  }

  lemma {:induction false} DistRun<T>(a: seq<T>, b: seq<T>, x: nat, y: nat, n: nat)
    ensures Dist(a, b, x + n, y) <= Dist(a, b, x, y) + n
    ensures Dist(a, b, x, y + n) <= Dist(a, b, x, y) + n
    decreases n
  {
    if n > 0 {
      DistRun(a, b, x, y, n - 1);
      DistStep(a, b, x + n - 1, y);
      DistStep(a, b, x, y + n - 1);
    }
  }

  /** No script beats the distance: its cost covers the rise of `Dist` along it. */
  lemma {:induction false} ScriptCoversDist<T>(ds: seq<Diff<T>>, a: seq<T>, b: seq<T>, x: nat, y: nat, x': nat, y': nat)
    requires Leads(ds, a, b, x, y, x', y')
    ensures Dist(a, b, x', y') <= Dist(a, b, x, y) + Cost(ds)
    decreases |ds|
  {
    if ds == [] {
      assert |a[x..x']| == 0 && |b[y..y']| == 0;
    } else {
      var d, rest := ds[0], ds[1..];
      var n := |d.text|;
      var u := if d.operation == INSERT then x else x + n;
      var v := if d.operation == DELETE then y else y + n;
      assert a[x..x'][..u - x] == a[x..u] && a[x..x'][u - x..] == a[u..x'];
      assert b[y..y'][..v - y] == b[y..v] && b[y..y'][v - y..] == b[v..y'];
      ScriptCoversDist(rest, a, b, u, v, x', y');
      if d.operation == EQUAL {
        DistMatches(a, b, x, y, n);
      } else {
        DistRun(a, b, x, y, n);
      }
    }
  }

  /** The last move of an optimal path to (x, y), as a one-element piece. */
  lemma LastMove<T>(a: seq<T>, b: seq<T>, x: nat, y: nat) returns (u: nat, v: nat, d: Diff<T>)
    requires x <= |a| && y <= |b| && 0 < x + y && 0 < Dist(a, b, x, y)
    ensures u <= x && v <= y && u + v < x + y
    ensures a[u..x] == if d.operation == INSERT then [] else d.text
    ensures b[v..y] == if d.operation == DELETE then [] else d.text
    ensures Dist(a, b, x, y) == Dist(a, b, u, v) + (if d.operation == EQUAL then 0 else 1) && |d.text| == 1
  {
    if x > 0 && y > 0 && a[x - 1] == b[y - 1] {
      u, v, d := x - 1, y - 1, Diff(EQUAL, [a[x - 1]]);
    } else if y == 0 || (x > 0 && Dist(a, b, x - 1, y) <= Dist(a, b, x, y - 1)) {
      u, v, d := x - 1, y, Diff(DELETE, [a[x - 1]]);
    } else {
      u, v, d := x, y - 1, Diff(INSERT, [b[y - 1]]);
    }
  }

  /** Walking back along an optimal path from (x, y) until only `d` edits are left before it. */
  lemma {:induction false} Backtrack<T>(a: seq<T>, b: seq<T>, x: nat, y: nat, d: nat)
    returns (u: nat, v: nat, ds: seq<Diff<T>>)
    requires x <= |a| && y <= |b| && d <= Dist(a, b, x, y)
    ensures Dist(a, b, u, v) == d
    ensures Leads(ds, a, b, u, v, x, y) && Cost(ds) == Dist(a, b, x, y) - d
    decreases x + y
  {
    hide Dist, OldText, NewText, Cost;
    if Dist(a, b, x, y) == d {
      u, v, ds := x, y, [];
      NothingLeads(a, b, x, y);
    } else {
      DistEdges(a, b, 0);
      var x', y', move := LastMove(a, b, x, y);
      var ds0;
      u, v, ds0 := Backtrack(a, b, x', y', d);
      ds := Extended(ds0, move);
      CutSlice(a, u, x', x);
      CutSlice(b, v, y', y);
    }
  }

  lemma NothingLeads<T>(a: seq<T>, b: seq<T>, x: nat, y: nat)
    requires x <= |a| && y <= |b|
    ensures Leads([], a, b, x, y, x, y) && Cost<T>([]) == 0
  {
  }

  lemma CutSlice<T>(s: seq<T>, lo: nat, mid: nat, hi: nat)
    requires lo <= mid <= hi <= |s|
    ensures s[lo..hi] == s[lo..mid] + s[mid..hi]
  {
  }

  lemma Extended<T>(ds: seq<Diff<T>>, d: Diff<T>) returns (r: seq<Diff<T>>)
    ensures r == ds + [d]
    ensures OldText(r) == OldText(ds) + if d.operation == INSERT then [] else d.text
    ensures NewText(r) == NewText(ds) + if d.operation == DELETE then [] else d.text
    ensures Cost(r) == Cost(ds) + if d.operation == EQUAL then 0 else |d.text|
  {
    r := ds + [d];
    ScriptConcat(ds, [d]);
    ScriptSingle(d);
  }

  /** The distance is attained: some script from the origin costs exactly that much. */
  lemma OptimalScript<T>(a: seq<T>, b: seq<T>, x: nat, y: nat) returns (ds: seq<Diff<T>>)
    requires x <= |a| && y <= |b|
    ensures Transforms(ds, a[..x], b[..y]) && Cost(ds) == Dist(a, b, x, y)
  {
    var u, v, rest := Backtrack(a, b, x, y, 0);
    DistZero(a, b, u, v);
    var head := Diff(EQUAL, a[..u]);
    ds := [head] + rest;
    ScriptSingle(head);
    ScriptConcat([head], rest);
    assert a[..x] == a[..u] + a[u..x] && b[..y] == b[..v] + b[v..y];
  }

  /** `EditDistance` is the least cost over all scripts that turn `a` into `b`. */
  lemma EditDistanceIsLeast<T>(a: seq<T>, b: seq<T>)
    ensures forall ds :: Transforms(ds, a, b) ==> EditDistance(a, b) <= Cost(ds)
    ensures exists ds :: Transforms(ds, a, b) && Cost(ds) == EditDistance(a, b)
  {
    forall ds | Transforms(ds, a, b)
      ensures EditDistance(a, b) <= Cost(ds)
    {
      assert a[0..|a|] == a && b[0..|b|] == b;
      ScriptCoversDist(ds, a, b, 0, 0, |a|, |b|);
    }
    var best := OptimalScript(a, b, |a|, |b|);
    assert a[..|a|] == a && b[..|b|] == b;
  }

  // ---------- Prefixes, suffixes and reversal ----------

  lemma PrefixDistance<T>(a: seq<T>, b: seq<T>, x: nat, y: nat)
    requires x <= |a| && y <= |b|
    ensures EditDistance(a[..x], b[..y]) == Dist(a, b, x, y)
  {
    var ds := OptimalScript(a, b, x, y);
    EditDistanceIsLeast(a[..x], b[..y]);
    var ds' :| Transforms(ds', a[..x], b[..y]) && Cost(ds') == EditDistance(a[..x], b[..y]);
    assert a[0..x] == a[..x] && b[0..y] == b[..y];
    ScriptCoversDist(ds', a, b, 0, 0, x, y);
  }

  lemma ReverseDistance<T>(a: seq<T>, b: seq<T>)
    ensures EditDistance(Reverse(a), Reverse(b)) == EditDistance(a, b)
  {
    ReverseDistanceAtMost(a, b);
    ReverseDistanceAtMost(Reverse(a), Reverse(b));
    ReverseTwice(a);
    ReverseTwice(b);
  }

  lemma ReverseDistanceAtMost<T>(a: seq<T>, b: seq<T>)
    ensures EditDistance(Reverse(a), Reverse(b)) <= EditDistance(a, b)
  {
    EditDistanceIsLeast(a, b);
    var ds :| Transforms(ds, a, b) && Cost(ds) == EditDistance(a, b);
    ReverseScriptTransforms(ds);
    EditDistanceIsLeast(Reverse(a), Reverse(b));
  }

  /** Distances to the far corner are distances from the origin of the reversed texts. */
  lemma SuffixDistance<T>(a: seq<T>, b: seq<T>, x: nat, y: nat)
    requires x <= |a| && y <= |b|
    ensures EditDistance(a[x..], b[y..]) == Dist(Reverse(a), Reverse(b), |a| - x, |b| - y)
  {
    ReverseDistance(a[x..], b[y..]);
    ReverseSlice(a, x, |a|);
    ReverseSlice(b, y, |b|);
    assert a[x..|a|] == a[x..] && b[y..|b|] == b[y..];
    assert Reverse(a)[0..|a| - x] == Reverse(a)[..|a| - x] && Reverse(b)[0..|b| - y] == Reverse(b)[..|b| - y];
    PrefixDistance(Reverse(a), Reverse(b), |a| - x, |b| - y);
  }

  /** Going through (x, y) is never shorter than the direct distance. */
  lemma SplitAtLeast<T>(a: seq<T>, b: seq<T>, x: nat, y: nat)
    requires x <= |a| && y <= |b|
    ensures EditDistance(a, b) <= Dist(a, b, x, y) + Dist(Reverse(a), Reverse(b), |a| - x, |b| - y)
  {
    SuffixDistance(a, b, x, y);
    EditDistanceIsLeast(a[x..], b[y..]);
    var ds :| Transforms(ds, a[x..], b[y..]) && Cost(ds) == EditDistance(a[x..], b[y..]);
    assert a[x..|a|] == a[x..] && b[y..|b|] == b[y..];
    ScriptCoversDist(ds, a, b, x, y, |a|, |b|);
  }

  /** A common prefix and a common suffix do not count. */
  lemma TrimmedDistance<T>(p: seq<T>, a: seq<T>, b: seq<T>, s: seq<T>)
    ensures EditDistance(p + a + s, p + b + s) == EditDistance(a, b)
  {
    SuffixTrimmedDistance(p + a, p + b, s);
    ReverseDistance(p + a, p + b);
    ReverseDistance(a, b);
    ReverseConcat(p, a);
    ReverseConcat(p, b);
    SuffixTrimmedDistance(Reverse(a), Reverse(b), Reverse(p));
  }

  lemma SuffixTrimmedDistance<T>(a: seq<T>, b: seq<T>, s: seq<T>)
    ensures EditDistance(a + s, b + s) == EditDistance(a, b)
  {
    var a', b' := a + s, b + s;
    assert a'[|a|..|a| + |s|] == s == b'[|b|..|b| + |s|];
    DistMatches(a', b', |a|, |b|, |s|);
    assert a'[..|a|] == a && b'[..|b|] == b;
    PrefixDistance(a', b', |a|, |b|);
  }
}
