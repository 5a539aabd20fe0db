/**
 Which commits a rebase replays: everything that HEAD reaches without passing the merge base,
 and when these are only commits that the target lacks.
 */
module RebaseLists {
  import opened Sequences
  import opened CommitGraph
  import opened RevWalk

  /** The least of the best common ancestors, which is the merge base that a rebase uses. */
  ghost predicate RebaseBase(g: Graph, head: Id, onto: Id, base: Id) {
    && BestCommonAncestor(g, head, onto, base)
    && forall b :: BestCommonAncestor(g, head, onto, b) ==> !StringLess(b, base)
  }

  lemma BaseUnique(g: Graph, head: Id, onto: Id, base: Id, base': Id)
    requires RebaseBase(g, head, onto, base) && RebaseBase(g, head, onto, base')
    ensures base == base'
  {
    StringLessTotal(base, base');
  }

  /** HEAD reaches the commit on a path that avoids the merge base. */
  ghost predicate Listed(g: Graph, head: Id, onto: Id, c: Id) {
    exists base :: RebaseBase(g, head, onto, base) && Reaches(g, {"", base}, head, c)
  }

  /** The list of a rebase: the commits that HEAD reaches on paths avoiding the merge base, in the order of the walk. */
  ghost predicate IsRebaseList(g: Graph, head: Id, onto: Id, ids: seq<Id>) {
    exists base :: IsListAbove(g, head, onto, ids, base)
  }

  ghost predicate IsListAbove(g: Graph, head: Id, onto: Id, ids: seq<Id>, base: Id) {
    && RebaseBase(g, head, onto, base)
    && NoRepeats(ids) && (forall c :: c in ids <==> Reaches(g, {"", base}, head, c))
    && InWalkOrder(g, {"", base}, head, ids)
  }

  lemma ListIsListed(g: Graph, head: Id, onto: Id, ids: seq<Id>)
    requires IsRebaseList(g, head, onto, ids)
    ensures forall c :: c in ids <==> Listed(g, head, onto, c)
  {
    hide BestCommonAncestor, Reaches, InWalkOrder;
    var base :| IsListAbove(g, head, onto, ids, base);
    forall c
      ensures c in ids <==> Listed(g, head, onto, c)
    {
      if Listed(g, head, onto, c) {
        var base' :| RebaseBase(g, head, onto, base') && Reaches(g, {"", base'}, head, c);
        BaseUnique(g, head, onto, base, base');
      }
    }
  }

  // ---------- Commits that the target has ----------

  /** A listed commit has a parent, other than the merge base, that the target has, too. */
  ghost predicate GoesRound(g: Graph, onto: Id, base: Id, ids: seq<Id>) {
    exists c, p :: c in ids && c in g && p in g[c].parents && p != base && p != "" && Reaches(g, {}, onto, p)
  }

  /** HEAD itself is not one of the target's commits, if anything is listed. */
  lemma HeadIsLacking(g: Graph, head: Id, onto: Id, base: Id)
    requires BestCommonAncestor(g, head, onto, base) && head != base
    ensures !Reaches(g, {}, onto, head)
  {
    hide Reaches;
    if Reaches(g, {}, onto, head) {
      ReachesSelf(g, {}, head);
    }
  }

  /** On the way from a commit that the target lacks to one it has there is a step from one to the other. */
  lemma {:induction false} StepIntoTarget(g: Graph, stop: set<Id>, head: Id, onto: Id, x: Id, c: Id, n: nat)
    returns (y: Id, p: Id)
    requires Reaches(g, stop, head, x) && ReachesIn(g, stop, x, c, n)
    requires !Reaches(g, {}, onto, x) && Reaches(g, {}, onto, c)
    ensures Reaches(g, stop, head, y) && y in g && p in g[y].parents && p !in stop && Reaches(g, {}, onto, p)
    decreases n
  {
    hide Reaches;
    if n == 0 {
      assert false;
    }
    p :| p in g[x].parents && ReachesIn(g, stop, p, c, n - 1);
    ReachesInEnds(g, stop, p, c, n - 1);
    if Reaches(g, {}, onto, p) {
      y := x;
    } else {
      ReachesVia(g, stop, head, x, p);
      y, p := StepIntoTarget(g, stop, head, onto, p, c, n - 1);
    }
  }

  /**
   A rebase replays only commits that the target lacks exactly if no listed commit has a parent,
   other than the merge base, that the target has.  A path may go round the merge base, where the
   branch and the target share history that was merged; then everything down to the root is listed.
   */
  lemma OnlyLacking(g: Graph, head: Id, onto: Id, base: Id, ids: seq<Id>)
    requires IsListAbove(g, head, onto, ids, base)
    ensures (forall c :: c in ids ==> !Reaches(g, {}, onto, c)) <==> !GoesRound(g, onto, base, ids)
  {
    hide Reaches, Acyclic, InWalkOrder;
    var stop := {"", base};
    if GoesRound(g, onto, base, ids) {
      var c, p :| c in ids && c in g && p in g[c].parents && p != base && p != "" && Reaches(g, {}, onto, p);
      ReachesVia(g, stop, head, c, p);
    }
    if c :| c in ids && Reaches(g, {}, onto, c) {
      ReachesEnds(g, stop, head, c);
      HeadIsLacking(g, head, onto, base);
      ReachesSelf(g, stop, head);
      var n := Steps(g, stop, head, c);
      var y, p := StepIntoTarget(g, stop, head, onto, head, c, n);
      assert y in ids;
    }
  }

  /** A path either avoids the merge base or leads to something that the merge base has. */
  lemma {:induction false} AvoidsOrPasses(g: Graph, base: Id, x: Id, c: Id, n: nat)
    requires ReachesIn(g, {}, x, c, n) && "" !in g && c != ""
    ensures Reaches(g, {"", base}, x, c) || Reaches(g, {}, base, c)
    decreases n
  {
    hide Reaches;
    if x == base {
      InSteps(g, {}, base, c, n);
    } else if n == 0 {
      ReachesSelf(g, {"", base}, x);
    } else {
      var p :| p in g[x].parents && ReachesIn(g, {}, p, c, n - 1);
      AvoidsOrPasses(g, base, p, c, n - 1);
      ReachesBelow(g, {"", base}, x, p);
    }
  }

  lemma InSteps(g: Graph, stop: set<Id>, x: Id, y: Id, n: nat)
    requires ReachesIn(g, stop, x, y, n)
    ensures Reaches(g, stop, x, y)
  {
  }

  /** Whatever HEAD has and the target lacks is listed; so the list is just that, or too long. */
  lemma LackingListed(g: Graph, head: Id, onto: Id, base: Id, ids: seq<Id>, c: Id)
    requires IsListAbove(g, head, onto, ids, base) && "" !in g && c != ""
    requires Reaches(g, {}, head, c) && !Reaches(g, {}, onto, c)
    ensures c in ids
  {
    hide Reaches, ReachesIn, InWalkOrder, Acyclic;
    var n := Steps(g, {}, head, c);
    AvoidsOrPasses(g, base, head, c, n);
    if Reaches(g, {}, base, c) {
      ReachesTrans(g, {}, onto, base, c);
    }
  }

  lemma Steps(g: Graph, stop: set<Id>, x: Id, y: Id) returns (n: nat)
    requires Reaches(g, stop, x, y)
    ensures ReachesIn(g, stop, x, y, n)
  {
    n :| ReachesIn(g, stop, x, y, n);
  }

  /** The list is exactly what HEAD has and the target lacks, unless it goes round the merge base. */
  lemma ListIsLacking(g: Graph, head: Id, onto: Id, base: Id, ids: seq<Id>)
    requires IsListAbove(g, head, onto, ids, base) && "" !in g
    ensures (forall c :: c != "" ==> (c in ids <==> Reaches(g, {}, head, c) && !Reaches(g, {}, onto, c)))
       <==> !GoesRound(g, onto, base, ids)
  {
    hide Reaches, InWalkOrder, Acyclic, RebaseBase, GoesRound;
    OnlyLacking(g, head, onto, base, ids);
    forall c | c in ids
      ensures c != "" && Reaches(g, {}, head, c)
    {
      ReachesEnds(g, {"", base}, head, c);
      ReachesAnyway(g, {"", base}, head, c);
    }
    forall c | c != "" && Reaches(g, {}, head, c) && !Reaches(g, {}, onto, c)
      ensures c in ids
    {
      LackingListed(g, head, onto, base, ids, c);
    }
  }

  // ---------- A branch that merged its target ----------

  /** r <- a <- b, which is the target; a <- c; and HEAD m is the merge of c and b. */
  ghost predicate MergedTarget(g: Graph, r: Id, a: Id, b: Id, c: Id, m: Id) {
    && |{r, a, b, c, m}| == 5 && "" !in {r, a, b, c, m}
    && g.Keys == {r, a, b, c, m}
    && g[r].parents == [] && g[a].parents == [r] && g[b].parents == [a]
    && g[c].parents == [a] && g[m].parents == [c, b]
  }

  /** The only merge base is the target itself, but the list has all the history that both share. */
  lemma SharedHistoryListed(g: Graph, r: Id, a: Id, b: Id, c: Id, m: Id, ids: seq<Id>)
    requires MergedTarget(g, r, a, b, c, m) && IsRebaseList(g, m, b, ids)
    ensures Acyclic(g) && forall x :: BestCommonAncestor(g, m, b, x) <==> x == b
    ensures forall x :: x in ids <==> x in {r, a, c, m}
    ensures forall x :: x in {r, a} ==> Reaches(g, {}, b, x)
  {
    hide Reaches, ReachesIn, InWalkOrder, Acyclic;
    OnlyBase(g, r, a, b, c, m);
    AroundTarget(g, r, a, b, c, m);
    NoCycle(g, r, a, b, c, m);
    var base :| IsListAbove(g, m, b, ids, base);
    assert base == b;
  }

  lemma OnlyBase(g: Graph, r: Id, a: Id, b: Id, c: Id, m: Id)
    requires MergedTarget(g, r, a, b, c, m)
    ensures forall x :: BestCommonAncestor(g, m, b, x) <==> x == b
    ensures Reaches(g, {}, b, a) && Reaches(g, {}, b, r)
  {
    hide Reaches, ReachesIn;
    ReachesSelf(g, {}, b);
    ReachesSelf(g, {}, m);
    ReachesVia(g, {}, m, m, b);
    ReachesVia(g, {}, b, b, a);
    ReachesVia(g, {}, b, a, r);
    ClosedHoldsReachable(g, {}, {r, a, b}, b);
    ClosedHoldsReachable(g, {}, {r, a}, a);
    ClosedHoldsReachable(g, {}, {r}, r);
  }

  /** What HEAD reaches around the target. */
  lemma AroundTarget(g: Graph, r: Id, a: Id, b: Id, c: Id, m: Id)
    requires MergedTarget(g, r, a, b, c, m)
    ensures forall x :: Reaches(g, {"", b}, m, x) <==> x in {r, a, c, m}
  {
    hide Reaches, ReachesIn;
    var stop := {"", b};
    ReachesSelf(g, stop, m);
    ReachesVia(g, stop, m, m, c);
    ReachesVia(g, stop, m, c, a);
    ReachesVia(g, stop, m, a, r);
    ClosedHoldsReachable(g, stop, {r, a, c, m}, m);
  }

  lemma NoCycle(g: Graph, r: Id, a: Id, b: Id, c: Id, m: Id)
    requires MergedTarget(g, r, a, b, c, m)
    ensures Acyclic(g)
  {
    hide Reaches, ReachesIn;
    ClosedHoldsReachable(g, {}, {r}, r);
    ClosedHoldsReachable(g, {}, {r, a}, a);
    ClosedHoldsReachable(g, {}, {r, a, b}, b);
    ClosedHoldsReachable(g, {}, {r, a, c}, c);
  }
}
