/** The commit graph: reachability, merge bases and what a merge decides from them. */
module CommitGraph {
  import opened Sequences
  import opened Wrappers
  import opened Ordering

  type Id = string

  datatype Commit = Commit(
    parents: seq<Id>,
    tree: string,
    message: string,
    authorName: string,
    authorEmail: string,
    authorTime: int,
    committer: string,
    committerTime: int)

  type Graph = map<Id, Commit>

  // ---------- Reachability ----------

  /** `n` parent steps lead from `x` to `y`, and no commit on the way is in `stop`. */
  ghost predicate ReachesIn(g: Graph, stop: set<Id>, x: Id, y: Id, n: nat)
    decreases n
  {
    x !in stop &&
    if n == 0 then x == y
    else x in g && exists p :: p in g[x].parents && ReachesIn(g, stop, p, y, n - 1)
  }

  ghost predicate Reaches(g: Graph, stop: set<Id>, x: Id, y: Id) {
    exists n :: ReachesIn(g, stop, x, y, n)
  }

  lemma ReachesSelf(g: Graph, stop: set<Id>, x: Id)
    requires x !in stop
    ensures Reaches(g, stop, x, x)
  {
    assert ReachesIn(g, stop, x, x, 0);
  }

  lemma {:induction false} ReachesInTrans(g: Graph, stop: set<Id>, x: Id, y: Id, z: Id, n: nat, m: nat)
    requires ReachesIn(g, stop, x, y, n) && ReachesIn(g, stop, y, z, m)
    ensures ReachesIn(g, stop, x, z, n + m)
    decreases n
  {
    if n > 0 {
      var p :| p in g[x].parents && ReachesIn(g, stop, p, y, n - 1);
      ReachesInTrans(g, stop, p, y, z, n - 1, m);
    }
  }

  lemma ReachesTrans(g: Graph, stop: set<Id>, x: Id, y: Id, z: Id)
    requires Reaches(g, stop, x, y) && Reaches(g, stop, y, z)
    ensures Reaches(g, stop, x, z)
  {
    var n :| ReachesIn(g, stop, x, y, n);
    var m :| ReachesIn(g, stop, y, z, m);
    ReachesInTrans(g, stop, x, y, z, n, m);
  }

  lemma ReachesParent(g: Graph, stop: set<Id>, x: Id, p: Id)
    requires x in g && p in g[x].parents && x !in stop && p !in stop
    ensures Reaches(g, stop, x, p)
  {
    assert ReachesIn(g, stop, p, p, 0);
    assert ReachesIn(g, stop, x, p, 1);
  }

  lemma ReachesVia(g: Graph, stop: set<Id>, x: Id, y: Id, p: Id)
    requires Reaches(g, stop, x, y) && y in g && p in g[y].parents && p !in stop
    ensures Reaches(g, stop, x, p)
  {
    ReachesEnds(g, stop, x, y);
    ReachesParent(g, stop, y, p);
    ReachesTrans(g, stop, x, y, p);
  }

  lemma ReachesEnds(g: Graph, stop: set<Id>, x: Id, y: Id)
    requires Reaches(g, stop, x, y)
    ensures x !in stop && y !in stop
  {
    var n :| ReachesIn(g, stop, x, y, n);
    ReachesInEnds(g, stop, x, y, n);
  }

  lemma {:induction false} ReachesInEnds(g: Graph, stop: set<Id>, x: Id, y: Id, n: nat)
    requires ReachesIn(g, stop, x, y, n)
    ensures x !in stop && y !in stop
    decreases n
  {
    if n > 0 {
      var p :| p in g[x].parents && ReachesIn(g, stop, p, y, n - 1);
      ReachesInEnds(g, stop, p, y, n - 1);
    }
  }

  /** With every known commit, `s` holds its parents outside `stop`. */
  ghost predicate ParentClosed(g: Graph, stop: set<Id>, s: set<Id>) {
    forall v, p :: v in s && v in g && p in g[v].parents && p !in stop ==> p in s
  }

  lemma {:induction false} ReachesStaysIn(g: Graph, stop: set<Id>, s: set<Id>, x: Id, y: Id, n: nat)
    requires ParentClosed(g, stop, s) && x in s && ReachesIn(g, stop, x, y, n)
    ensures y in s
    decreases n
  {
    if n > 0 {
      var p :| p in g[x].parents && ReachesIn(g, stop, p, y, n - 1);
      ReachesInEnds(g, stop, p, y, n - 1);
      ReachesStaysIn(g, stop, s, p, y, n - 1);
    }
  }

  lemma ClosedHoldsReachable(g: Graph, stop: set<Id>, s: set<Id>, x: Id)
    requires ParentClosed(g, stop, s) && x in s
    ensures forall y :: Reaches(g, stop, x, y) ==> y in s
  {
    forall y | Reaches(g, stop, x, y)
      ensures y in s
    {
      var n :| ReachesIn(g, stop, x, y, n);
      ReachesStaysIn(g, stop, s, x, y, n);
    }
  }

  /** No commit is an ancestor of one of its parents. */
  ghost predicate Acyclic(g: Graph) {
    forall x, p :: x in g && p in g[x].parents ==> !Reaches(g, {}, p, x)
  }

  lemma AcyclicAntisymmetric(g: Graph, x: Id, y: Id)
    requires Acyclic(g) && Reaches(g, {}, x, y) && Reaches(g, {}, y, x)
    ensures x == y
  {
    var n: nat :| ReachesIn(g, {}, x, y, n);
    if n > 0 {
      var p :| p in g[x].parents && ReachesIn(g, {}, p, y, n - 1);
      assert Reaches(g, {}, p, y);
      ReachesTrans(g, {}, p, y, x);
    }
  }

  lemma {:induction false} StopsLess(g: Graph, stop: set<Id>, x: Id, y: Id, n: nat)
    requires ReachesIn(g, stop, x, y, n)
    ensures ReachesIn(g, {}, x, y, n)
    decreases n
  {
    if n > 0 {
      var p :| p in g[x].parents && ReachesIn(g, stop, p, y, n - 1);
      StopsLess(g, stop, p, y, n - 1);
    }
  }

  lemma ReachesAnyway(g: Graph, stop: set<Id>, x: Id, y: Id)
    requires Reaches(g, stop, x, y)
    ensures Reaches(g, {}, x, y)
  {
    var n :| ReachesIn(g, stop, x, y, n);
    StopsLess(g, stop, x, y, n);
  }

  // ---------- Breadth-first searches ----------

  /** Queues the parents that were not visited yet. */
  method Enqueue(queue: seq<Id>, parents: seq<Id>, visited: set<Id>) returns (r: seq<Id>)
    ensures forall y :: y in r ==> y in queue || y in parents
    ensures forall y :: y in queue ==> y in r
    ensures forall y :: y in parents ==> y in r || y in visited
  {
    r := queue;
    for i := 0 to |parents|
      invariant forall y :: y in r ==> y in queue || y in parents
      invariant forall y :: y in queue ==> y in r
      invariant forall j :: 0 <= j < i ==> parents[j] in r || parents[j] in visited
    {
      if parents[i] !in visited {
        r := r + [parents[i]];
      }
    }
  }

  /** What a search has still to see is in its queue. */
  ghost predicate Frontier(g: Graph, visited: set<Id>, queue: seq<Id>) {
    forall v, p :: v in visited && v in g && p in g[v].parents ==> p in visited || p in queue
  }

  method CollectAncestors(g: Graph, start: Id) returns (r: Option<set<Id>>)
    ensures r.Some? ==> r.value <= g.Keys && forall y :: y in r.value <==> Reaches(g, {}, start, y)
    ensures r.None? ==> exists y :: Reaches(g, {}, start, y) && y !in g
  {
    var visited: set<Id> := {};
    var queue := [start];
    ReachesSelf(g, {}, start);
    while |queue| > 0
      invariant visited <= g.Keys
      invariant forall y :: y in visited || y in queue ==> Reaches(g, {}, start, y)
      invariant Frontier(g, visited, queue)
      invariant start in visited || start in queue
      decreases g.Keys - visited, |queue|
    {
      var curr := queue[0];
      assert queue == [curr] + queue[1..];
      queue := queue[1..];
      if curr in visited {
        continue;
      }
      if curr !in g {
        return None;
      }
      visited := visited + {curr};
      forall p | p in g[curr].parents
        ensures Reaches(g, {}, start, p)
      {
        ReachesVia(g, {}, start, curr, p);
      }
      queue := Enqueue(queue, g[curr].parents, visited);
    }
    assert ParentClosed(g, {}, visited);
    ClosedHoldsReachable(g, {}, visited, start);
    return Some(visited);
  }

  /** Skips commits that cannot be loaded, but still recognises them as targets. */
  method IsReachable(g: Graph, from: Id, target: Id) returns (r: bool)
    ensures r == Reaches(g, {}, from, target)
  {
    var visited: set<Id> := {};
    var queue := [from];
    ReachesSelf(g, {}, from);
    while |queue| > 0
      invariant forall y :: y in visited || y in queue ==> Reaches(g, {}, from, y)
      invariant Frontier(g, visited, queue)
      invariant from in visited || from in queue
      invariant target !in visited
      decreases g.Keys - visited, |queue|
    {
      var curr := queue[0];
      assert queue == [curr] + queue[1..];
      queue := queue[1..];
      if curr == target {
        return true;
      }
      if curr in visited {
        continue;
      }
      visited := visited + {curr};
      if curr !in g {
        assert g.Keys - visited == g.Keys - (visited - {curr});
        continue;
      }
      forall p | p in g[curr].parents
        ensures Reaches(g, {}, from, p)
      {
        ReachesVia(g, {}, from, curr, p);
      }
      queue := Enqueue(queue, g[curr].parents, visited);
    }
    assert ParentClosed(g, {}, visited);
    ClosedHoldsReachable(g, {}, visited, from);
    return false;
  }

  method IsReachableFromAny(g: Graph, target: Id, common: set<Id>) returns (r: bool)
    ensures r == exists other :: other in common && other != target && Reaches(g, {}, other, target)
  {
    var rest := common;
    while rest != {}
      invariant rest <= common
      invariant forall other :: other in common - rest && other != target ==> !Reaches(g, {}, other, target)
      decreases rest
    {
      var other :| other in rest;
      rest := rest - {other};
      if other != target {
        var hit := IsReachable(g, other, target);
        if hit {
          return true;
        }
      }
    }
    return false;
  }

  // ---------- Merge bases ----------

  datatype MergeBases = Bases(ids: seq<Id>) | MissingCommit | NoMergeBase

  ghost predicate CommonAncestor(g: Graph, h1: Id, h2: Id, c: Id) {
    Reaches(g, {}, h1, c) && Reaches(g, {}, h2, c)
  }

  /** A common ancestor that no other common ancestor has as an ancestor. */
  ghost predicate BestCommonAncestor(g: Graph, h1: Id, h2: Id, c: Id) {
    CommonAncestor(g, h1, h2, c)
    && !exists d :: CommonAncestor(g, h1, h2, d) && d != c && Reaches(g, {}, d, c)
  }

  method FindMergeBases(g: Graph, h1: Id, h2: Id) returns (r: MergeBases)
    ensures r.Bases? ==> NoRepeats(r.ids) && (forall c :: c in r.ids <==> BestCommonAncestor(g, h1, h2, c))
    ensures r.Bases? ==> h1 in g && h2 in g && exists c :: c in g && CommonAncestor(g, h1, h2, c)
    ensures r.NoMergeBase? ==> forall c :: !CommonAncestor(g, h1, h2, c)
    ensures r.MissingCommit? <==> exists c :: c !in g && (Reaches(g, {}, h1, c) || Reaches(g, {}, h2, c))
    ensures r.NoMergeBase? ==> forall c :: Reaches(g, {}, h1, c) || Reaches(g, {}, h2, c) ==> c in g
  {
    var anc1 := CollectAncestors(g, h1);
    if anc1.None? {
      return MissingCommit;
    }
    var anc2 := CollectAncestors(g, h2);
    if anc2.None? {
      return MissingCommit;
    }
    var common := set a | a in anc1.value && a in anc2.value;
    if |common| == 0 {
      assert common == {};
      assert forall c :: CommonAncestor(g, h1, h2, c) ==> c in common;
      return NoMergeBase;
    }
    assert forall c :: CommonAncestor(g, h1, h2, c) <==> c in common;
    var result: seq<Id> := [];
    var rest := common;
    while rest != {}
      invariant rest <= common
      invariant NoRepeats(result)
      invariant forall c :: c in result <==> c in common - rest && BestCommonAncestor(g, h1, h2, c)
      decreases rest
    {
      var c :| c in rest;
      assert c !in result;
      rest := rest - {c};
      var covered := IsReachableFromAny(g, c, common);
      if !covered {
        result := result + [c];
      }
    }
    ReachesSelf(g, {}, h1);
    ReachesSelf(g, {}, h2);
    var some :| some in common;
    return Bases(result);
  }

  ghost function Above(g: Graph, s: set<Id>, c: Id): set<Id> {
    set d | d in s && d != c && Reaches(g, {}, d, c)
  }

  /** On an acyclic history every common ancestor is an ancestor of, or is, a best one. */
  lemma {:induction false} BestCommonAncestorCovers(g: Graph, h1: Id, h2: Id, s: set<Id>, c: Id)
    returns (best: Id)
    requires Acyclic(g) && (forall d :: d in s <==> CommonAncestor(g, h1, h2, d)) && c in s
    ensures BestCommonAncestor(g, h1, h2, best) && Reaches(g, {}, best, c)
    decreases Above(g, s, c)
  {
    if Above(g, s, c) == {} {
      ReachesSelf(g, {}, c);
      assert forall d :: d in s && d != c && Reaches(g, {}, d, c) ==> d in Above(g, s, c);
      best := c;
    } else {
      var d :| d in Above(g, s, c);
      forall e | e in Above(g, s, d)
        ensures e in Above(g, s, c)
      {
        ReachesTrans(g, {}, e, d, c);
        if e == c {
          AcyclicAntisymmetric(g, c, d);
        }
      }
      assert d !in Above(g, s, d);
      best := BestCommonAncestorCovers(g, h1, h2, s, d);
      ReachesTrans(g, {}, best, d, c);
    }
  }

  /**
   The merge bases on an acyclic history whose ancestors can all be loaded: there is one as
   soon as there is a common ancestor at all, none is an ancestor of another, and every
   common ancestor is reachable from one of them.
   */
  lemma MergeBasesComplete(g: Graph, h1: Id, h2: Id, ids: seq<Id>, anc: set<Id>)
    requires Acyclic(g) && (forall c :: c in ids <==> BestCommonAncestor(g, h1, h2, c))
    requires forall y :: Reaches(g, {}, h1, y) ==> y in anc
    ensures forall c :: CommonAncestor(g, h1, h2, c) ==> exists b :: b in ids && Reaches(g, {}, b, c)
    ensures forall b, b' :: b in ids && b' in ids && Reaches(g, {}, b, b') ==> b == b'
    ensures ids == [] <==> forall c :: !CommonAncestor(g, h1, h2, c)
  {
    var s := set c | c in anc && CommonAncestor(g, h1, h2, c);
    forall c | CommonAncestor(g, h1, h2, c)
      ensures exists b :: b in ids && Reaches(g, {}, b, c)
    {
      var b := BestCommonAncestorCovers(g, h1, h2, s, c);
      assert b in ids;
    }
    if ids != [] {
      assert ids[0] in ids;
      assert CommonAncestor(g, h1, h2, ids[0]);
    }
  }

  // ---------- Choosing one base ----------

  function Codes(s: string): seq<int> {
    seq(|s|, i requires 0 <= i < |s| => s[i] as int)
  }

  /** Go's `<` on strings. */
  predicate StringLess(a: string, b: string) {
    Less(Codes(a), Codes(b))
  }

  lemma StringLessTotal(a: string, b: string)
    ensures StringLess(a, b) || StringLess(b, a) || a == b
    ensures !(StringLess(a, b) && StringLess(b, a))
    ensures !StringLess(a, a)
  {
    LessTotal(Codes(a), Codes(b));
    LessTotal(Codes(a), Codes(a));
    if Codes(a) == Codes(b) {
      forall i | 0 <= i < |a|
        ensures a[i] == b[i]
      {
        assert Codes(a)[i] == Codes(b)[i];
      }
    }
  }

  /** Up to some place the two agree; there `a` ends or has the smaller character. */
  ghost predicate StringBefore(a: string, b: string) {
    exists i :: StringDiffersAt(a, b, i)
  }

  ghost predicate StringDiffersAt(a: string, b: string, i: nat) {
    i <= |a| && i < |b| && a[..i] == b[..i] && (i == |a| || a[i] < b[i])
  }

  lemma StringLessIff(a: string, b: string)
    ensures StringLess(a, b) <==> StringBefore(a, b)
  {
    LessIff(Codes(a), Codes(b));
    if i :| DiffersAt(Codes(a), Codes(b), i) {
      SamePrefix(a, b, i);
      assert StringDiffersAt(a, b, i);
    }
    if i :| StringDiffersAt(a, b, i) {
      SamePrefix(a, b, i);
      assert DiffersAt(Codes(a), Codes(b), i);
    }
  }

  lemma SamePrefix(a: string, b: string, i: nat)
    requires i <= |a| && i <= |b|
    ensures a[..i] == b[..i] <==> Codes(a)[..i] == Codes(b)[..i]
  {
    if Codes(a)[..i] == Codes(b)[..i] {
      forall k | 0 <= k < i
        ensures a[k] == b[k]
      {
        assert Codes(a)[..i][k] == Codes(b)[..i][k];
      }
    }
    if a[..i] == b[..i] {
      forall k | 0 <= k < i
        ensures Codes(a)[k] == Codes(b)[k]
      {
        assert a[..i][k] == b[..i][k];
      }
    }
  }

  ghost predicate IsLeast(b: Id, ids: seq<Id>) {
    b in ids && forall c :: c in ids ==> !StringLess(c, b)
  }

  method SelectBestMergeBase(bases: seq<Id>) returns (r: Option<Id>)
    ensures r.None? <==> bases == []
    ensures r.Some? ==> IsLeast(r.value, bases)
    ensures r.Some? ==> r.value in bases && forall b :: b in bases ==> b == r.value || StringBefore(r.value, b)
  {
    if |bases| == 0 {
      return None;
    }
    var best := bases[0];
    StringLessTotal(best, best);
    for i := 1 to |bases|
      invariant best in bases
      invariant forall j :: 0 <= j < i ==> !StringLess(bases[j], best)
    {
      var b := bases[i];
      if StringLess(b, best) {
        forall j | 0 <= j < i
          ensures !StringLess(bases[j], b)
        {
          if StringLess(bases[j], b) {
            LessTrans(Codes(bases[j]), Codes(b), Codes(best));
          }
        }
        best := b;
      }
      StringLessTotal(b, b);
    }
    LeastBefore(best, bases);
    return Some(best);
  }

  lemma LeastBefore(best: Id, bases: seq<Id>)
    requires IsLeast(best, bases)
    ensures forall b :: b in bases ==> b == best || StringBefore(best, b)
  {
    hide StringLess, StringBefore;
    forall b | b in bases
      ensures b == best || StringBefore(best, b)
    {
      StringLessTotal(best, b);
      StringLessIff(best, b);
    }
  }

  /** The choice does not depend on the order in which the bases were found. */
  lemma LeastUnique(b: Id, c: Id, ids: seq<Id>, ids': seq<Id>)
    requires (forall x :: x in ids <==> x in ids') && IsLeast(b, ids) && IsLeast(c, ids')
    ensures b == c
  {
    StringLessTotal(b, c);
  }

  // ---------- What a merge does ----------

  datatype Decision = FastForward | AlreadyUpToDate | ThreeWay(base: Id) | CannotMerge

  method DecideMerge(g: Graph, current: Id, feature: Id) returns (d: Decision)
    ensures d == FastForward ==> Reaches(g, {}, feature, current)
    ensures d == AlreadyUpToDate ==> Reaches(g, {}, current, feature) && current != feature
    ensures d.ThreeWay? ==> BestCommonAncestor(g, current, feature, d.base) && d.base != current && d.base != feature
    ensures !d.CannotMerge? ==>
              && (forall c :: Reaches(g, {}, current, c) || Reaches(g, {}, feature, c) ==> c in g)
              && exists c :: CommonAncestor(g, current, feature, c)
    ensures Acyclic(g) && !d.CannotMerge? ==> (d == FastForward <==> Reaches(g, {}, feature, current))
    ensures Acyclic(g) && !d.CannotMerge? ==>
              (d == AlreadyUpToDate <==> current != feature && Reaches(g, {}, current, feature))
    ensures Acyclic(g) && d.CannotMerge? ==>
              || (forall c :: !CommonAncestor(g, current, feature, c))
              || (exists c :: c !in g && (Reaches(g, {}, current, c) || Reaches(g, {}, feature, c)))
  {
    var bases := FindMergeBases(g, current, feature);
    if !bases.Bases? {
      return CannotMerge;
    }
    var best := SelectBestMergeBase(bases.ids);
    if best.None? {
      if Acyclic(g) {
        BasesNotEmpty(g, current, feature);
      }
      return CannotMerge;
    }
    var mergeBase := best.value;
    if Acyclic(g) {
      AncestorIsOnlyBase(g, current, feature, mergeBase);
    }
    if mergeBase == current {
      return FastForward;
    }
    if mergeBase == feature {
      return AlreadyUpToDate;
    }
    return ThreeWay(mergeBase);
  }

  lemma BasesNotEmpty(g: Graph, h1: Id, h2: Id)
    requires Acyclic(g) && forall c :: !BestCommonAncestor(g, h1, h2, c)
    ensures (forall c :: !CommonAncestor(g, h1, h2, c)) || exists c :: c !in g && Reaches(g, {}, h1, c)
  {
    if (forall c :: Reaches(g, {}, h1, c) ==> c in g) && exists c :: CommonAncestor(g, h1, h2, c) {
      var c :| CommonAncestor(g, h1, h2, c);
      MergeBasesComplete(g, h1, h2, [], g.Keys);
    }
  }

  /** If one of the two is an ancestor of the other, it is their only merge base. */
  lemma AncestorIsOnlyBase(g: Graph, h1: Id, h2: Id, b: Id)
    requires Acyclic(g) && BestCommonAncestor(g, h1, h2, b)
    ensures Reaches(g, {}, h2, h1) ==> b == h1
    ensures Reaches(g, {}, h1, h2) ==> b == h2
  {
    ReachesSelf(g, {}, h1);
    ReachesSelf(g, {}, h2);
    if Reaches(g, {}, h2, h1) {
      assert CommonAncestor(g, h1, h2, h1);
    }
    if Reaches(g, {}, h1, h2) {
      assert CommonAncestor(g, h1, h2, h2);
    }
  }
}
