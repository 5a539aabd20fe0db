/** The depth-first walk that lists the commits a rebase replays, parents first. */
module RevWalk {
  import opened Sequences
  import opened CommitGraph

  /** Every listed commit comes after those of its parents that the walk does not stop at. */
  ghost predicate ParentsFirst(g: Graph, stop: set<Id>, s: seq<Id>) {
    forall i, p :: 0 <= i < |s| && s[i] in g && p in g[s[i]].parents && p !in stop ==> p in s[..i]
  }

  /** The same for the commits listed from `from` on, with `gray` ones still to be listed. */
  ghost predicate ParentsListed(g: Graph, stop: set<Id>, gray: set<Id>, from: nat, s: seq<Id>) {
    forall i, p :: from <= i < |s| && s[i] in g && p in g[s[i]].parents && p !in stop ==> p in s[..i] || p in gray
  }

  lemma ListedConcat(g: Graph, stop: set<Id>, gray: set<Id>, from: nat, s: seq<Id>, t: seq<Id>)
    requires ParentsListed(g, stop, gray, from, s) && s <= t && ParentsListed(g, stop, gray, |s|, t)
    ensures ParentsListed(g, stop, gray, from, t)
  {
    forall i, p | from <= i < |t| && t[i] in g && p in g[t[i]].parents && p !in stop
      ensures p in t[..i] || p in gray
    {
      if i < |s| {
        assert t[i] == s[i] && t[..i] == s[..i];
      }
    }
  }

  /** A commit on the stack is not a parent of anything listed below it. */
  lemma NotOwnAncestor(g: Graph, stop: set<Id>, gray: set<Id>, curr: Id, from: nat, s: seq<Id>)
    requires Acyclic(g) && ParentsListed(g, stop, gray + {curr}, from, s)
    requires forall i :: from <= i < |s| ==> Reaches(g, stop, curr, s[i])
    ensures ParentsListed(g, stop, gray, from, s)
  {
    forall i, p | from <= i < |s| && s[i] in g && p in g[s[i]].parents && p !in stop
      ensures p in s[..i] || p in gray
    {
      if p == curr {
        ReachesAnyway(g, stop, curr, s[i]);
      }
    }
  }

  lemma ListedLast(g: Graph, stop: set<Id>, gray: set<Id>, from: nat, s: seq<Id>, curr: Id)
    requires ParentsListed(g, stop, gray, from, s) && curr in g
    requires forall p :: p in g[curr].parents && p !in stop ==> p in s || p in gray
    ensures ParentsListed(g, stop, gray, from, s + [curr])
  {
    var t := s + [curr];
    forall i, p | from <= i < |t| && t[i] in g && p in g[t[i]].parents && p !in stop
      ensures p in t[..i] || p in gray
    {
      if i < |s| {
        assert t[..i] == s[..i];
      } else {
        assert t[..i] == s;
      }
    }
  }

  lemma ReachesBelow(g: Graph, stop: set<Id>, x: Id, p: Id)
    requires x in g && x !in stop && p in g[x].parents
    ensures forall y :: Reaches(g, stop, p, y) ==> Reaches(g, stop, x, y)
  {
    forall y | Reaches(g, stop, p, y)
      ensures Reaches(g, stop, x, y)
    {
      ReachesEnds(g, stop, p, y);
      ReachesParent(g, stop, x, p);
      ReachesTrans(g, stop, x, p, y);
    }
  }

  lemma StackReachesParent(g: Graph, gray: set<Id>, curr: Id, p: Id)
    requires curr in g && p in g[curr].parents
    requires forall x :: x in gray ==> Reaches(g, {}, x, curr)
    ensures forall x :: x in gray + {curr} ==> Reaches(g, {}, x, p)
  {
    ReachesParent(g, {}, curr, p);
    forall x | x in gray
      ensures Reaches(g, {}, x, p)
    {
      ReachesTrans(g, {}, x, curr, p);
    }
  }

  /** What the walk knows: listed commits and those on the stack make up the visited ones. */
  ghost predicate WalkState(g: Graph, visited: set<Id>, result: seq<Id>, gray: set<Id>) {
    && NoRepeats(result) && visited <= g.Keys && gray <= visited
    && (forall x :: x in visited <==> x in result || x in gray)
    && (forall x :: x in result ==> x !in gray)
  }

  /** What was listed since `from` was visited since then, too. */
  lemma ListedIsNew(g: Graph, visited: set<Id>, result: seq<Id>, gray: set<Id>, visited': set<Id>, result': seq<Id>)
    requires WalkState(g, visited, result, gray) && result <= result' && NoRepeats(result')
    requires forall x :: x in result' ==> x !in gray && x in visited'
    ensures forall i :: |result| <= i < |result'| ==> result'[i] in visited' - visited
  {
    forall i | |result| <= i < |result'|
      ensures result'[i] in visited' - visited
    {
      assert result'[i] in result';
    }
  }

  lemma WalkLists(g: Graph, visited: set<Id>, result: seq<Id>, gray: set<Id>, curr: Id)
    requires WalkState(g, visited, result, gray + {curr}) && curr !in gray
    ensures WalkState(g, visited, result + [curr], gray)
  {
    var t := result + [curr];
    assert forall x :: x in t <==> x in result || x == curr;
  }

  /** All parents of the commits in `s` that the walk does not stop at were visited. */
  ghost predicate ParentsVisited(g: Graph, stop: set<Id>, s: set<Id>, visited: set<Id>) {
    forall x, p :: x in s && x in g && p in g[x].parents ==> p in visited || p in stop
  }

  // ---------- The order of the walk ----------

  /** What the first `n` parents reach. */
  ghost predicate ReachedByFirst(g: Graph, stop: set<Id>, parents: seq<Id>, n: nat, x: Id) {
    exists k :: 0 <= k < n && k < |parents| && Reaches(g, stop, parents[k], x)
  }

  /** What is below an earlier parent comes first: a commit comes after all that only later parents reach. */
  ghost predicate InParentOrder(g: Graph, stop: set<Id>, parents: seq<Id>, s: seq<Id>) {
    forall i, j, n :: 0 <= i < j < |s| && 0 <= n && ReachedByFirst(g, stop, parents, n, s[j]) ==>
      ReachedByFirst(g, stop, parents, n, s[i])
  }

  /**
   The commits from `start` up to the one at `m` are just what this one reaches without the commits
   listed before, what is below its earlier parents first, and itself last.
   */
  ghost predicate Segment(g: Graph, stop: set<Id>, s: seq<Id>, start: nat, m: nat) {
    && start <= m < |s| && s[m] in g
    && var before := stop + (set x | x in s[..start]);
       && (forall x :: x in s[start..m + 1] <==> Reaches(g, before, s[m], x))
       && InParentOrder(g, before + {s[m]}, g[s[m]].parents, s[start..m])
  }

  /** Each commit is listed at the end of such a segment. */
  ghost predicate InSegments(g: Graph, stop: set<Id>, from: nat, s: seq<Id>) {
    forall m :: from <= m < |s| ==> EndsSegment(g, stop, s, m)
  }

  ghost predicate EndsSegment(g: Graph, stop: set<Id>, s: seq<Id>, m: nat) {
    exists start :: Segment(g, stop, s, start, m)
  }

  lemma {:induction false} FewerStopsIn(g: Graph, stop: set<Id>, less: set<Id>, x: Id, y: Id, n: nat)
    requires less <= stop && ReachesIn(g, stop, x, y, n)
    ensures ReachesIn(g, less, x, y, n)
    decreases n
  {
    if n > 0 {
      var p :| p in g[x].parents && ReachesIn(g, stop, p, y, n - 1);
      FewerStopsIn(g, stop, less, p, y, n - 1);
    }
  }

  lemma FewerStops(g: Graph, stop: set<Id>, less: set<Id>, x: Id, y: Id)
    requires less <= stop && Reaches(g, stop, x, y)
    ensures Reaches(g, less, x, y)
  {
    var n :| ReachesIn(g, stop, x, y, n);
    FewerStopsIn(g, stop, less, x, y, n);
  }

  /**
   The order in which the commits that `head` reaches are listed: what is below its earlier parents
   first and `head` last.  On an acyclic history each commit comes after its parents, and what is
   listed for it is in such an order again.
   */
  ghost predicate InWalkOrder(g: Graph, stop: set<Id>, head: Id, s: seq<Id>) {
    && (s != [] ==>
          && head in g && s[|s| - 1] == head
          && InParentOrder(g, stop + {head}, g[head].parents, s[..|s| - 1]))
    && (Acyclic(g) ==> ParentsFirst(g, stop, s) && InSegments(g, stop, 0, s))
  }

  /** What a parent of the head reaches comes before what only later parents reach. */
  lemma EarlierParentFirst(g: Graph, stop: set<Id>, head: Id, s: seq<Id>, k: nat, i: nat, j: nat)
    requires InWalkOrder(g, stop, head, s) && head in g && k < |g[head].parents|
    requires i < |s| - 1 && j < |s| - 1
    requires Reaches(g, stop + {head}, g[head].parents[k], s[i])
    requires forall n :: 0 <= n <= k ==> !Reaches(g, stop + {head}, g[head].parents[n], s[j])
    ensures i < j
  {
    hide Reaches, ParentsFirst, InSegments;
    var t := s[..|s| - 1];
    assert t[i] == s[i] && t[j] == s[j];
    assert ReachedByFirst(g, stop + {head}, g[head].parents, k + 1, t[i]);
    assert !ReachedByFirst(g, stop + {head}, g[head].parents, k + 1, t[j]);
  }

  /** A path from `curr` leaves it for the last time to one of its parents. */
  lemma {:induction false} LeavesOnce(g: Graph, stop: set<Id>, curr: Id, x: Id, y: Id, n: nat)
    requires curr in g && ReachesIn(g, stop, x, y, n)
    ensures || y == curr || Reaches(g, stop + {curr}, x, y)
            || ReachedByFirst(g, stop + {curr}, g[curr].parents, |g[curr].parents|, y)
    decreases n
  {
    if n == 0 {
      if x != curr {
        ReachesSelf(g, stop + {curr}, x);
      }
    } else {
      var p :| p in g[x].parents && ReachesIn(g, stop, p, y, n - 1);
      LeavesOnce(g, stop, curr, p, y, n - 1);
      if Reaches(g, stop + {curr}, p, y) {
        if x == curr {
          var k :| 0 <= k < |g[curr].parents| && g[curr].parents[k] == p;
        } else {
          ReachesBelow(g, stop + {curr}, x, p);
        }
      }
    }
  }

  /** What a commit reaches is itself, and what its parents reach without it. */
  lemma ReachesByParents(g: Graph, stop: set<Id>, curr: Id, y: Id)
    requires curr in g && curr !in stop
    ensures Reaches(g, stop, curr, y) <==>
              y == curr || ReachedByFirst(g, stop + {curr}, g[curr].parents, |g[curr].parents|, y)
  {
    hide ReachesIn;
    ReachesSelf(g, stop, curr);
    if Reaches(g, stop, curr, y) {
      var n :| ReachesIn(g, stop, curr, y, n);
      LeavesOnce(g, stop, curr, curr, y, n);
      if Reaches(g, stop + {curr}, curr, y) {
        ReachesEnds(g, stop + {curr}, curr, y);
      }
    }
    if k :| 0 <= k < |g[curr].parents| && Reaches(g, stop + {curr}, g[curr].parents[k], y) {
      FewerStops(g, stop + {curr}, stop, g[curr].parents[k], y);
      ReachesBelow(g, stop, curr, g[curr].parents[k]);
    }
  }

  /** A path that meets something visited stays in what was visited. */
  lemma {:induction false} AroundVisited(g: Graph, stop: set<Id>, met: set<Id>, x: Id, y: Id, n: nat)
    requires ParentClosed(g, stop, met) && ReachesIn(g, stop, x, y, n)
    ensures y in met || Reaches(g, stop + met, x, y)
    decreases n
  {
    if x in met {
      ReachesStaysIn(g, stop, met, x, y, n);
    } else if n == 0 {
      ReachesSelf(g, stop + met, x);
    } else {
      var p :| p in g[x].parents && ReachesIn(g, stop, p, y, n - 1);
      AroundVisited(g, stop, met, p, y, n - 1);
      if Reaches(g, stop + met, p, y) {
        ReachesBelow(g, stop + met, x, p);
      }
    }
  }

  /** What was visited below the first `n` parents of a commit. */
  ghost predicate VisitedByFirst(g: Graph, stop: set<Id>, parents: seq<Id>, n: nat, met: set<Id>) {
    forall x :: x in met <==> ReachedByFirst(g, stop, parents, n, x)
  }

  lemma VisitsNext(g: Graph, stop: set<Id>, parents: seq<Id>, n: nat, met: set<Id>, met': set<Id>)
    requires n < |parents| && VisitedByFirst(g, stop, parents, n, met) && ParentClosed(g, stop, met) && met <= met'
    requires forall x :: x in met' && x !in met <==> Reaches(g, stop + met, parents[n], x)
    ensures VisitedByFirst(g, stop, parents, n + 1, met')
  {
    hide ReachesIn;
    var p := parents[n];
    forall x
      ensures x in met' <==> ReachedByFirst(g, stop, parents, n + 1, x)
    {
      if Reaches(g, stop, p, x) {
        AroundPath(g, stop, met, p, x);
      }
      if Reaches(g, stop + met, p, x) {
        FewerStops(g, stop + met, stop, p, x);
      }
    }
  }

  lemma AroundPath(g: Graph, stop: set<Id>, met: set<Id>, x: Id, y: Id)
    requires ParentClosed(g, stop, met) && Reaches(g, stop, x, y)
    ensures y in met || Reaches(g, stop + met, x, y)
  {
    var n :| ReachesIn(g, stop, x, y, n);
    AroundVisited(g, stop, met, x, y, n);
  }

  lemma OrderGrows(g: Graph, stop: set<Id>, parents: seq<Id>, n: nat, met: set<Id>, s: seq<Id>, t: seq<Id>)
    requires n < |parents| && VisitedByFirst(g, stop, parents, n, met) && InParentOrder(g, stop, parents, s)
    requires forall x :: x in s ==> x in met
    requires forall x :: x in t ==> x !in met && Reaches(g, stop, parents[n], x)
    ensures InParentOrder(g, stop, parents, s + t)
  {
    hide Reaches;
    var u := s + t;
    forall i, j, m | 0 <= i < j < |u| && 0 <= m && ReachedByFirst(g, stop, parents, m, u[j])
      ensures ReachedByFirst(g, stop, parents, m, u[i])
    {
      assert i < |s| ==> u[i] in s;
      assert i >= |s| ==> u[i] in t;
      if j >= |s| {
        assert u[j] in t;
        LaterParent(g, stop, parents, n, m, u[j]);
        if i < |s| {
          MoreParents(g, stop, parents, n, m, u[i]);
        }
      }
    }
  }

  lemma LaterParent(g: Graph, stop: set<Id>, parents: seq<Id>, n: nat, m: nat, x: Id)
    requires ReachedByFirst(g, stop, parents, m, x) && !ReachedByFirst(g, stop, parents, n, x)
    ensures n < m
  {
    hide Reaches;
  }

  lemma MoreParents(g: Graph, stop: set<Id>, parents: seq<Id>, n: nat, m: nat, x: Id)
    requires n <= m && ReachedByFirst(g, stop, parents, n, x)
    ensures ReachedByFirst(g, stop, parents, m, x)
  {
    hide Reaches;
  }

  lemma SegmentStays(g: Graph, stop: set<Id>, s: seq<Id>, t: seq<Id>, m: nat)
    requires s <= t && m < |s| && EndsSegment(g, stop, s, m)
    ensures EndsSegment(g, stop, t, m)
  {
    hide Reaches, InParentOrder;
    var start: nat :| Segment(g, stop, s, start, m);
    assert t[..start] == s[..start] && t[start..m + 1] == s[start..m + 1] && t[start..m] == s[start..m];
    assert Segment(g, stop, t, start, m);
  }

  /** What is on the stack is not below the commit, so it makes no difference to what this reaches. */
  lemma {:induction false} StackFarIn(g: Graph, stop: set<Id>, gray: set<Id>, curr: Id, x: Id, y: Id, n: nat)
    requires Acyclic(g) && curr !in gray && (forall z :: z in gray ==> Reaches(g, {}, z, curr))
    requires Reaches(g, {}, curr, x) && ReachesIn(g, stop, x, y, n)
    ensures ReachesIn(g, stop + gray, x, y, n)
    decreases n
  {
    hide Reaches, Acyclic;
    if x in gray {
      AcyclicAntisymmetric(g, curr, x);
    }
    if n > 0 {
      var p :| p in g[x].parents && ReachesIn(g, stop, p, y, n - 1);
      ReachesVia(g, {}, curr, x, p);
      StackFarIn(g, stop, gray, curr, p, y, n - 1);
    }
  }

  lemma StackFar(g: Graph, stop: set<Id>, gray: set<Id>, curr: Id, x: Id, y: Id)
    requires Acyclic(g) && curr !in gray && (forall z :: z in gray ==> Reaches(g, {}, z, curr))
    requires Reaches(g, {}, curr, x)
    ensures Reaches(g, stop + gray, x, y) <==> Reaches(g, stop, x, y)
  {
    hide Acyclic;
    if Reaches(g, stop, x, y) {
      var n :| ReachesIn(g, stop, x, y, n);
      StackFarIn(g, stop, gray, curr, x, y, n);
    }
    if Reaches(g, stop + gray, x, y) {
      FewerStops(g, stop + gray, stop, x, y);
    }
  }

  lemma StackFarOrder(g: Graph, stop: set<Id>, gray: set<Id>, curr: Id, s: seq<Id>)
    requires Acyclic(g) && curr in g && curr !in gray && (forall z :: z in gray ==> Reaches(g, {}, z, curr))
    requires InParentOrder(g, stop + gray, g[curr].parents, s)
    ensures InParentOrder(g, stop, g[curr].parents, s)
  {
    hide Reaches, Acyclic;
    var ps := g[curr].parents;
    forall n: nat, x
      ensures ReachedByFirst(g, stop + gray, ps, n, x) <==> ReachedByFirst(g, stop, ps, n, x)
    {
      forall k | 0 <= k < |ps|
        ensures Reaches(g, stop + gray, ps[k], x) <==> Reaches(g, stop, ps[k], x)
      {
        ReachesParent(g, {}, curr, ps[k]);
        StackFar(g, stop, gray, curr, ps[k], x);
      }
    }
  }

  /** What the walk has listed below `curr`, and now `curr` itself. */
  lemma SegmentEnds(
    g: Graph, stop: set<Id>, visited0: set<Id>, s0: seq<Id>, gray: set<Id>, curr: Id, met: set<Id>, s: seq<Id>)
    requires Acyclic(g) && curr in g && curr !in stop && curr !in visited0 && curr !in gray
    requires forall z :: z in gray ==> Reaches(g, {}, z, curr)
    requires s0 <= s && visited0 == gray + (set x | x in s0)
    requires VisitedByFirst(g, stop + visited0 + {curr}, g[curr].parents, |g[curr].parents|, met)
    requires InParentOrder(g, stop + visited0 + {curr}, g[curr].parents, s[|s0|..])
    requires forall x :: x in s[|s0|..] <==> x in met
    ensures EndsSegment(g, stop, s + [curr], |s|)
  {
    hide Reaches, Acyclic, InParentOrder, ReachedByFirst;
    var t, start, m := s + [curr], |s0|, |s|;
    var before := stop + (set x | x in t[..start]);
    assert t[..start] == s0 && t[start..m] == s[start..] && t[start..m + 1] == s[start..] + [curr];
    assert before + gray == stop + visited0 && before + {curr} + gray == stop + visited0 + {curr};
    forall x
      ensures x in t[start..m + 1] <==> Reaches(g, before, curr, x)
    {
      ReachesByParents(g, stop + visited0, curr, x);
      ReachesSelf(g, {}, curr);
      StackFar(g, before, gray, curr, curr, x);
    }
    StackFarOrder(g, before + {curr}, gray, curr, s[start..]);
    assert Segment(g, stop, t, start, m);
  }

  /** Without repeats, what was appended is just what is new. */
  lemma TailApart(s: seq<Id>, t: seq<Id>)
    requires NoRepeats(t) && s <= t
    ensures forall x :: x in t[|s|..] <==> x in t && x !in s
  {
    var tail := t[|s|..];
    assert t == s + tail;
    forall j | 0 <= j < |tail|
      ensures tail[j] !in s
    {
      assert tail[j] == t[|s| + j];
    }
  }

  /** The visited ones are those that were listed, and those on the stack. */
  lemma NewlyListed(g: Graph, visited0: set<Id>, s0: seq<Id>, gray: set<Id>, curr: Id, visited: set<Id>, s: seq<Id>)
    requires WalkState(g, visited0, s0, gray) && WalkState(g, visited, s, gray + {curr})
    requires curr !in visited0 && visited0 <= visited && s0 <= s
    ensures visited0 == gray + (set x | x in s0)
    ensures forall x :: x in s[|s0|..] <==> x in visited - visited0 - {curr}
  {
    TailApart(s0, s);
  }

  /** The two variables that the recursive walk shares. */
  class Walk {
    const g: Graph
    const base: Id
    var visited: set<Id>
    var result: seq<Id>

    constructor (g: Graph, base: Id)
      ensures this.g == g && this.base == base && visited == {} && result == []
    {
      this.g, this.base := g, base;
      visited, result := {}, [];
    }

    ghost function Stop(): set<Id> {
      {"", base}
    }

    /** Lists `curr` after everything below it, unless the walk stops here or was here before. */
    method Dfs(curr: Id, ghost gray: set<Id>) returns (ok: bool)
      requires WalkState(g, visited, result, gray)
      requires Acyclic(g) ==> forall x :: x in gray ==> Reaches(g, {}, x, curr)
      modifies this
      ensures old(visited) <= visited && old(result) <= result
      ensures ok ==> WalkState(g, visited, result, gray)
      ensures ok ==> forall x :: x in visited - old(visited) ==> Reaches(g, Stop(), curr, x)
      ensures ok ==> curr in visited || curr in Stop()
      ensures ok ==> ParentsVisited(g, Stop(), visited - old(visited), visited)
      ensures ok && Acyclic(g) ==> ParentsListed(g, Stop(), gray, |old(result)|, result)
      ensures ok ==> forall x :: x in visited && x !in old(visited) <==> Reaches(g, Stop() + old(visited), curr, x)
      ensures ok && curr !in Stop() + old(visited) ==>
                && curr in g && |result| > |old(result)| && result[|result| - 1] == curr
                && InParentOrder(g, Stop() + old(visited) + {curr}, g[curr].parents,
                                 result[|old(result)|..|result| - 1])
      ensures ok && Acyclic(g) ==> InSegments(g, Stop(), |old(result)|, result)
      ensures !ok ==> exists x :: x !in g && Reaches(g, Stop(), curr, x)
      decreases g.Keys - visited
    {
      hide Reaches, Acyclic, ParentsListed, InParentOrder, VisitedByFirst, InSegments, ReachedByFirst;
      if curr == "" || curr == base || curr in visited {
        NothingListed(g, Stop(), gray, result);
        NothingReached(g, Stop() + visited, curr);
        return true;
      }
      ReachesSelf(g, Stop(), curr);
      if curr !in g {
        visited := visited + {curr};
        return false;
      }
      visited := visited + {curr};
      ghost var gray' := gray + {curr};
      NothingListed(g, Stop(), gray', result);
      var parents := g[curr].parents;
      ghost var stop := Stop() + old(visited) + {curr};
      NothingVisited(g, stop, parents);
      assert visited - old(visited) - {curr} == {} && result[|old(result)|..] == [];
      for i := 0 to |parents|
        invariant WalkState(g, visited, result, gray')
        invariant old(visited) + {curr} <= visited && old(result) <= result
        invariant forall x :: x in visited - old(visited) ==> Reaches(g, Stop(), curr, x)
        invariant forall j :: 0 <= j < i ==> parents[j] in visited || parents[j] in Stop()
        invariant ParentsVisited(g, Stop(), visited - old(visited) - {curr}, visited)
        invariant Acyclic(g) ==> ParentsListed(g, Stop(), gray', |old(result)|, result)
        invariant VisitedByFirst(g, stop, parents, i, visited - old(visited) - {curr})
        invariant InParentOrder(g, stop, parents, result[|old(result)|..])
        invariant Acyclic(g) ==> InSegments(g, Stop(), |old(result)|, result)
      {
        var p := parents[i];
        if Acyclic(g) {
          StackReachesParent(g, gray, curr, p);
        }
        ReachesBelow(g, Stop(), curr, p);
        ghost var listed, seen := result, visited;
        ok := Dfs(p, gray');
        if !ok {
          return false;
        }
        if Acyclic(g) {
          ListedConcat(g, Stop(), gray', |old(result)|, listed, result);
          SegmentsStay(g, Stop(), |old(result)|, listed, result);
        }
        WalkedOn(g, Stop(), old(visited), old(result), gray, curr, i, seen, listed, visited, result);
      }
      ParentsWalked(g, Stop(), old(visited), old(result), gray, curr, visited, result);
      WalkLists(g, visited, result, gray, curr);
      assert (result + [curr])[|old(result)|..|result|] == result[|old(result)|..];
      result := result + [curr];
      return true;
    }
  }

  lemma NothingReached(g: Graph, stop: set<Id>, x: Id)
    requires x in stop
    ensures forall y :: !Reaches(g, stop, x, y)
  {
    hide Reaches;
    forall y
      ensures !Reaches(g, stop, x, y)
    {
      if Reaches(g, stop, x, y) {
        ReachesEnds(g, stop, x, y);
      }
    }
  }

  lemma NothingVisited(g: Graph, stop: set<Id>, parents: seq<Id>)
    ensures VisitedByFirst(g, stop, parents, 0, {}) && InParentOrder(g, stop, parents, [])
  {
  }

  lemma SegmentsStay(g: Graph, stop: set<Id>, from: nat, s: seq<Id>, t: seq<Id>)
    requires s <= t && InSegments(g, stop, from, s)
    requires InSegments(g, stop, |s|, t)
    ensures InSegments(g, stop, from, t)
  {
    hide EndsSegment;
    forall m | from <= m < |t|
      ensures EndsSegment(g, stop, t, m)
    {
      if m < |s| {
        SegmentStays(g, stop, s, t, m);
      }
    }
  }

  /** One more parent was walked. */
  lemma WalkedOn(
    g: Graph, stop0: set<Id>, visited0: set<Id>, s0: seq<Id>, gray: set<Id>, curr: Id, i: nat,
    seen: set<Id>, s: seq<Id>, visited: set<Id>, t: seq<Id>)
    requires curr in g && i < |g[curr].parents| && curr !in visited0 && visited0 + {curr} <= seen <= visited
    requires WalkState(g, seen, s, gray + {curr}) && WalkState(g, visited, t, gray + {curr})
    requires WalkState(g, visited0, s0, gray) && s0 <= s <= t
    requires ParentsVisited(g, stop0, seen - visited0 - {curr}, seen)
    requires forall x :: x in visited && x !in seen <==> Reaches(g, stop0 + seen, g[curr].parents[i], x)
    requires var stop, ps := stop0 + visited0 + {curr}, g[curr].parents;
             && VisitedByFirst(g, stop, ps, i, seen - visited0 - {curr})
             && InParentOrder(g, stop, ps, s[|s0|..])
    ensures var stop, ps := stop0 + visited0 + {curr}, g[curr].parents;
            && VisitedByFirst(g, stop, ps, i + 1, visited - visited0 - {curr})
            && InParentOrder(g, stop, ps, t[|s0|..])
  {
    hide Reaches, InParentOrder, VisitedByFirst, WalkState;
    var stop, ps := stop0 + visited0 + {curr}, g[curr].parents;
    var met, met' := seen - visited0 - {curr}, visited - visited0 - {curr};
    assert stop + met == stop0 + seen;
    assert ParentClosed(g, stop, met);
    VisitsNext(g, stop, ps, i, met, met');
    NewlyListed(g, visited0, s0, gray, curr, seen, s);
    TailIsNew(g, seen, s, gray + {curr}, visited, t);
    forall x | x in t[|s|..]
      ensures x !in met && Reaches(g, stop, ps[i], x)
    {
      FewerStops(g, stop0 + seen, stop, ps[i], x);
    }
    OrderGrows(g, stop, ps, i, met, s[|s0|..], t[|s|..]);
    assert t[|s0|..] == s[|s0|..] + t[|s|..];
  }

  lemma TailIsNew(g: Graph, seen: set<Id>, s: seq<Id>, gray: set<Id>, visited: set<Id>, t: seq<Id>)
    requires WalkState(g, seen, s, gray) && WalkState(g, visited, t, gray) && s <= t
    ensures forall x :: x in t[|s|..] ==> x in visited && x !in seen
  {
    TailApart(s, t);
  }

  /** After all parents, `curr` is listed. */
  lemma ParentsWalked(
    g: Graph, stop0: set<Id>, visited0: set<Id>, s0: seq<Id>, gray: set<Id>, curr: Id, visited: set<Id>, s: seq<Id>)
    requires curr in g && curr !in stop0 + visited0 && visited0 + {curr} <= visited && s0 <= s
    requires WalkState(g, visited0, s0, gray) && WalkState(g, visited, s, gray + {curr})
    requires var stop, ps := stop0 + visited0 + {curr}, g[curr].parents;
             && VisitedByFirst(g, stop, ps, |ps|, visited - visited0 - {curr})
             && InParentOrder(g, stop, ps, s[|s0|..])
    requires forall x :: x in visited - visited0 ==> Reaches(g, stop0, curr, x)
    requires forall p :: p in g[curr].parents ==> p in visited || p in stop0
    requires Acyclic(g) ==>
               && (forall x :: x in gray ==> Reaches(g, {}, x, curr))
               && ParentsListed(g, stop0, gray + {curr}, |s0|, s) && InSegments(g, stop0, |s0|, s)
    ensures forall x :: x in visited && x !in visited0 <==> Reaches(g, stop0 + visited0, curr, x)
    ensures Acyclic(g) ==> ParentsListed(g, stop0, gray, |s0|, s + [curr]) && InSegments(g, stop0, |s0|, s + [curr])
  {
    hide Reaches, Acyclic, ParentsListed, InParentOrder, VisitedByFirst, EndsSegment, ReachedByFirst;
    NewlyListed(g, visited0, s0, gray, curr, visited, s);
    VisitedAll(g, stop0, visited0, curr, visited);
    if Acyclic(g) {
      SegmentEnds(g, stop0, visited0, s0, gray, curr, visited - visited0 - {curr}, s);
      ListedIsNew(g, visited0, s0, gray, visited, s);
      NotOwnAncestor(g, stop0, gray, curr, |s0|, s);
      NotOwnParent(g, curr);
      ListedLast(g, stop0, gray, |s0|, s, curr);
      SegmentsStay(g, stop0, |s0|, s, s + [curr]);
    }
  }

  /** After all parents the walk has visited just what `curr` reaches. */
  lemma VisitedAll(g: Graph, stop0: set<Id>, visited0: set<Id>, curr: Id, visited: set<Id>)
    requires curr in g && curr !in stop0 + visited0 && visited0 + {curr} <= visited
    requires VisitedByFirst(
               g, stop0 + visited0 + {curr}, g[curr].parents, |g[curr].parents|, visited - visited0 - {curr})
    ensures forall x :: x in visited && x !in visited0 <==> Reaches(g, stop0 + visited0, curr, x)
  {
    hide Reaches;
    forall x
      ensures x in visited && x !in visited0 <==> Reaches(g, stop0 + visited0, curr, x)
    {
      ReachesByParents(g, stop0 + visited0, curr, x);
    }
  }

  lemma NotOwnParent(g: Graph, x: Id)
    requires Acyclic(g) && x in g
    ensures x !in g[x].parents
  {
    ReachesSelf(g, {}, x);
  }

  lemma NothingListed(g: Graph, stop: set<Id>, gray: set<Id>, s: seq<Id>)
    ensures ParentsListed(g, stop, gray, |s|, s) && InSegments(g, stop, |s|, s)
  {
  }

  /**
   Exactly the commits that parent paths reach from `head` without passing `base`, each once,
   in the order of the walk.
   */
  method CollectCommitsForRebase(g: Graph, head: Id, base: Id) returns (ok: bool, commits: seq<Id>)
    ensures ok ==> NoRepeats(commits) && forall y :: y in commits <==> Reaches(g, {"", base}, head, y)
    ensures ok ==> forall y :: y in commits ==> y in g
    ensures ok ==> InWalkOrder(g, {"", base}, head, commits)
    ensures !ok ==> exists y :: y !in g && Reaches(g, {"", base}, head, y)
  {
    hide Reaches, Acyclic, InParentOrder, InSegments;
    var walk := new Walk(g, base);
    ok := walk.Dfs(head, {});
    commits := walk.result;
    assert walk.Stop() + {} == {"", base} && commits[0..] == commits;
    if head == "" || head == base {
      NothingReached(g, {"", base}, head);
      assert forall y :: y in commits ==> y in walk.visited;
      assert |commits| > 0 ==> commits[0] in walk.visited;
    } else if ok {
      assert commits[0..|commits| - 1] == commits[..|commits| - 1];
    }
  }

  // ---------- Linear history ----------

  ghost predicate Linear(g: Graph) {
    forall x :: x in g ==> |g[x].parents| <= 1
  }

  /** Every reachable commit other than `x` has a child among the reachable ones. */
  lemma {:induction false} HasChild(g: Graph, stop: set<Id>, x: Id, y: Id, n: nat) returns (c: Id)
    requires ReachesIn(g, stop, x, y, n) && x != y
    ensures Reaches(g, stop, x, c) && c in g && y in g[c].parents && y !in stop
    decreases n
  {
    ReachesInEnds(g, stop, x, y, n);
    var p :| p in g[x].parents && ReachesIn(g, stop, p, y, n - 1);
    ReachesSelf(g, stop, x);
    if p == y {
      c := x;
    } else {
      c := HasChild(g, stop, p, y, n - 1);
      ReachesInEnds(g, stop, p, y, n - 1);
      ReachesParent(g, stop, x, p);
      ReachesTrans(g, stop, x, p, c);
    }
  }

  lemma SameIndex(s: seq<Id>, i: nat, j: nat)
    requires NoRepeats(s) && i < |s| && j < |s| && s[i] == s[j]
    ensures i == j
  {
  }

  /**
   On linear history the walk is base..head, oldest first: the last commit listed is the head
   and each commit's parent is the one listed just before it.
   */
  lemma {:induction false} LinearWalk(g: Graph, stop: set<Id>, head: Id, s: seq<Id>, i: nat)
    requires Linear(g) && NoRepeats(s) && ParentsFirst(g, stop, s)
    requires forall y :: y in s <==> Reaches(g, stop, head, y)
    requires i < |s|
    ensures s[|s| - 1] == head
    ensures forall j :: i < j < |s| ==> s[j] in g && g[s[j]].parents == [s[j - 1]]
    decreases |s| - i
  {
    hide Reaches, ReachesIn, Linear, NoRepeats, ParentsFirst;
    if i + 1 < |s| {
      LinearWalk(g, stop, head, s, i + 1);
    }
    if s[i] != head {
      var j := ChildListed(g, stop, head, s, i);
      SameIndex(s, j - 1, i);
    } else {
      SameIndex(s, i, |s| - 1);
    }
  }

  /** The child of a listed commit, which is listed later. */
  lemma ChildListed(g: Graph, stop: set<Id>, head: Id, s: seq<Id>, i: nat) returns (j: nat)
    requires Linear(g) && NoRepeats(s) && ParentsFirst(g, stop, s)
    requires forall y :: y in s <==> Reaches(g, stop, head, y)
    requires i < |s| && s[i] != head
    requires i + 1 < |s| ==>
               s[|s| - 1] == head && forall j :: i + 1 < j < |s| ==> s[j] in g && g[s[j]].parents == [s[j - 1]]
    ensures i < j < |s| && s[j] in g && g[s[j]].parents == [s[i]] && (j > i + 1 ==> s[j - 1] == s[i])
  {
    hide Reaches, ReachesIn, NoRepeats, ParentsFirst;
    assert s[i] in s;
    var c := Child(g, stop, head, s[i]);
    assert c in s;
    j :| 0 <= j < |s| && s[j] == c;
    ParentBefore(g, stop, s, j, i);
  }

  lemma Child(g: Graph, stop: set<Id>, x: Id, y: Id) returns (c: Id)
    requires Reaches(g, stop, x, y) && x != y
    ensures Reaches(g, stop, x, c) && c in g && y in g[c].parents && y !in stop
  {
    var n :| ReachesIn(g, stop, x, y, n);
    c := HasChild(g, stop, x, y, n);
  }

  lemma ParentBefore(g: Graph, stop: set<Id>, s: seq<Id>, j: nat, i: nat)
    requires NoRepeats(s) && ParentsFirst(g, stop, s) && j < |s| && i < |s|
    requires s[j] in g && s[i] in g[s[j]].parents && s[i] !in stop
    ensures i < j
  {
    hide NoRepeats;
    assert s[i] in s[..j];
    var k :| 0 <= k < j && s[k] == s[i];
    SameIndex(s, k, i);
  }
}
