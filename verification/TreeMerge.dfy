/**
 The three-way merge of trees.  Trees are maps from paths to blob hashes; an absent path has
 the empty hash.  The plan sorts every path into updates, deletions and conflicts.
 */
module TreeMerge {
  import opened Sequences
  import opened Wrappers

  type Path = string
  type Hash = string
  type Tree = map<Path, Hash>

  datatype Conflict = Conflict(base: Hash, ours: Hash, theirs: Hash)

  datatype MergePlan = MergePlan(clean: Tree, conflicts: map<Path, Conflict>, deletions: seq<Path>)

  function HashAt(tree: Tree, path: Path): Hash {
    if path in tree then tree[path] else ""
  }

  function At(tree: Tree, path: Path): Option<Hash> {
    if path in tree then Some(tree[path]) else None
  }

  // ---------- What a three-way merge is ----------

  datatype Outcome = Take(version: Option<Hash>) | Clash

  /** One version, where at most one side changed or both changed alike; otherwise a clash. */
  function ThreeWay(base: Option<Hash>, ours: Option<Hash>, theirs: Option<Hash>): Outcome {
    if ours == theirs then Take(ours)
    else if base == ours then Take(theirs)
    else if base == theirs then Take(ours)
    else Clash
  }

  function OutcomeAt(base: Tree, ours: Tree, theirs: Tree, path: Path): Outcome {
    ThreeWay(At(base, path), At(ours, path), At(theirs, path))
  }

  ghost predicate HasHashes(tree: Tree) {
    forall path :: path in tree ==> tree[path] != ""
  }

  /** The plan sends path `p` where the three-way merge says. */
  ghost predicate Decides(plan: MergePlan, base: Tree, ours: Tree, theirs: Tree, p: Path) {
    var known := p in base || p in ours || p in theirs;
    match OutcomeAt(base, ours, theirs, p)
    case Take(Some(h)) => p in plan.clean && plan.clean[p] == h && p !in plan.conflicts && p !in plan.deletions
    case Take(None) => p !in plan.clean && p !in plan.conflicts && (p in plan.deletions <==> known)
    case Clash =>
      && p !in plan.clean && p !in plan.deletions
      && p in plan.conflicts
      && plan.conflicts[p] == Conflict(HashAt(base, p), HashAt(ours, p), HashAt(theirs, p))
  }

  /** The plan implements the pointwise three-way merge. */
  ghost predicate Implements(plan: MergePlan, base: Tree, ours: Tree, theirs: Tree) {
    && (forall p :: Decides(plan, base, ours, theirs, p))
    && NoRepeats(plan.deletions)
  }

  /**
   The same by the three hashes alone: a conflict exactly if they are pairwise different, and
   otherwise the one that was changed, or the common one; an empty one deletes the path.
   */
  ghost predicate PlannedByHashes(plan: MergePlan, base: Tree, ours: Tree, theirs: Tree, p: Path) {
    var b := if p in base then base[p] else "";
    var o := if p in ours then ours[p] else "";
    var t := if p in theirs then theirs[p] else "";
    && (p in plan.conflicts <==> b != o && b != t && o != t)
    && (p in plan.conflicts ==> plan.conflicts[p] == Conflict(b, o, t))
    && (p in plan.clean <==> || (o == t && o != "") || (b == o && t != "") || (b == t && o != ""))
    && (p in plan.clean ==> plan.clean[p] == if o == b then t else o)
    && (p in plan.deletions <==>
          (p in base || p in ours || p in theirs) && (o == t == "" || (b == o && t == "") || (b == t && o == "")))
  }

  lemma PlanByHashes(plan: MergePlan, base: Tree, ours: Tree, theirs: Tree)
    requires HasHashes(base) && HasHashes(ours) && HasHashes(theirs) && Implements(plan, base, ours, theirs)
    ensures forall p :: PlannedByHashes(plan, base, ours, theirs, p)
  {
    forall p
      ensures PlannedByHashes(plan, base, ours, theirs, p)
    {
      assert Decides(plan, base, ours, theirs, p);
    }
  }

  // ---------- Planning ----------

  /** Enters the outcome for `path` into the plan. */
  function Record(plan: MergePlan, base: Tree, ours: Tree, theirs: Tree, path: Path, outcome: Outcome): MergePlan {
    match outcome
    case Take(Some(h)) => plan.(clean := plan.clean[path := h])
    case Take(None) => plan.(deletions := plan.deletions + [path])
    case Clash =>
      var c := Conflict(HashAt(base, path), HashAt(ours, path), HashAt(theirs, path));
      plan.(conflicts := plan.conflicts[path := c])
  }

  ghost predicate Unplanned(plan: MergePlan, p: Path) {
    p !in plan.clean && p !in plan.conflicts && p !in plan.deletions
  }

  lemma RecordDecides(plan: MergePlan, base: Tree, ours: Tree, theirs: Tree, path: Path)
    requires path in base || path in ours || path in theirs
    requires Unplanned(plan, path) && NoRepeats(plan.deletions)
    ensures var r := Record(plan, base, ours, theirs, path, OutcomeAt(base, ours, theirs, path));
            && Decides(r, base, ours, theirs, path) && NoRepeats(r.deletions)
            && forall p :: p != path ==> (Unplanned(r, p) <==> Unplanned(plan, p))
  {
  }

  lemma RecordKeeps(plan: MergePlan, base: Tree, ours: Tree, theirs: Tree, path: Path, outcome: Outcome, p: Path)
    requires p != path
    ensures Decides(Record(plan, base, ours, theirs, path, outcome), base, ours, theirs, p)
       <==> Decides(plan, base, ours, theirs, p)
  {
  }

  method MergeTrees(base: Tree, ours: Tree, theirs: Tree) returns (plan: MergePlan)
    requires HasHashes(base) && HasHashes(ours) && HasHashes(theirs)
    ensures Implements(plan, base, ours, theirs)
    ensures forall p :: PlannedByHashes(plan, base, ours, theirs, p)
  {
    plan := MergePlan(map[], map[], []);
    var rest := base.Keys + ours.Keys + theirs.Keys;
    while rest != {}
      invariant rest <= base.Keys + ours.Keys + theirs.Keys
      invariant forall p :: p !in rest ==> Decides(plan, base, ours, theirs, p)
      invariant forall p :: p in rest ==> Unplanned(plan, p)
      invariant NoRepeats(plan.deletions)
      decreases rest
    {
      hide Decides, Unplanned, Record, OutcomeAt, NoRepeats;
      var path :| path in rest;
      var outcome := DecidePath(base, ours, theirs, path);
      RecordDecides(plan, base, ours, theirs, path);
      forall p | p != path
        ensures Decides(Record(plan, base, ours, theirs, path, outcome), base, ours, theirs, p)
           <==> Decides(plan, base, ours, theirs, p)
      {
        RecordKeeps(plan, base, ours, theirs, path, outcome, p);
      }
      plan := Record(plan, base, ours, theirs, path, outcome);
      rest := rest - {path};
    }
    PlanByHashes(plan, base, ours, theirs);
  }

  /** A plan for some of the paths. */
  lemma {:induction false} PlanFor(base: Tree, ours: Tree, theirs: Tree, paths: set<Path>) returns (plan: MergePlan)
    requires paths <= base.Keys + ours.Keys + theirs.Keys
    ensures NoRepeats(plan.deletions)
    ensures forall p :: if p in paths then Decides(plan, base, ours, theirs, p) else Unplanned(plan, p)
    decreases paths
  {
    if paths == {} {
      plan := MergePlan(map[], map[], []);
    } else {
      var path :| path in paths;
      var rest := PlanFor(base, ours, theirs, paths - {path});
      var outcome := OutcomeAt(base, ours, theirs, path);
      plan := Record(rest, base, ours, theirs, path, outcome);
      RecordDecides(rest, base, ours, theirs, path);
      forall p
        ensures if p in paths then Decides(plan, base, ours, theirs, p) else Unplanned(plan, p)
      {
        if p != path {
          RecordKeeps(rest, base, ours, theirs, path, outcome, p);
        }
      }
    }
  }

  /** There is a plan for any three trees. */
  lemma PlanExists(base: Tree, ours: Tree, theirs: Tree)
    ensures exists plan :: Implements(plan, base, ours, theirs)
  {
    var plan := PlanFor(base, ours, theirs, base.Keys + ours.Keys + theirs.Keys);
    forall p
      ensures Decides(plan, base, ours, theirs, p)
    {
    }
    assert Implements(plan, base, ours, theirs);
  }

  /** The decision for one path, by comparing hashes in this order. */
  method DecidePath(base: Tree, ours: Tree, theirs: Tree, path: Path) returns (r: Outcome)
    requires HasHashes(base) && HasHashes(ours) && HasHashes(theirs)
    requires path in base || path in ours || path in theirs
    ensures r == OutcomeAt(base, ours, theirs, path)
  {
    var bHash, oHash, tHash := HashAt(base, path), HashAt(ours, path), HashAt(theirs, path);
    if oHash == bHash && tHash == bHash {
      return Take(Some(bHash));
    }
    if oHash == tHash {
      return if path in ours then Take(Some(oHash)) else Take(None);
    }
    if tHash == bHash {
      return if path in ours then Take(Some(oHash)) else Take(None);
    }
    if oHash == bHash {
      return if path in theirs then Take(Some(tHash)) else Take(None);
    }
    return Clash;
  }

  // ---------- Laws ----------

  /** The plan is determined by the trees, whatever the order in which paths were visited. */
  lemma PlanUnique(plan: MergePlan, plan': MergePlan, base: Tree, ours: Tree, theirs: Tree)
    requires Implements(plan, base, ours, theirs) && Implements(plan', base, ours, theirs)
    ensures plan.clean == plan'.clean && plan.conflicts == plan'.conflicts
    ensures multiset(plan.deletions) == multiset(plan'.deletions)
  {
    forall p
      ensures p in plan.clean <==> p in plan'.clean
      ensures p in plan.clean ==> plan.clean[p] == plan'.clean[p]
      ensures p in plan.conflicts <==> p in plan'.conflicts
      ensures p in plan.conflicts ==> plan.conflicts[p] == plan'.conflicts[p]
      ensures p in plan.deletions <==> p in plan'.deletions
    {
      assert Decides(plan, base, ours, theirs, p) && Decides(plan', base, ours, theirs, p);
    }
    SameElements(plan.deletions, plan'.deletions);
  }

  lemma {:induction false} Once(s: seq<Path>, p: Path)
    requires NoRepeats(s)
    ensures multiset(s)[p] == if p in s then 1 else 0
    decreases |s|
  {
    if s != [] {
      var t := s[..|s| - 1];
      assert s == t + [s[|s| - 1]];
      Once(t, p);
    }
  }

  lemma SameElements(s: seq<Path>, t: seq<Path>)
    requires NoRepeats(s)
    requires NoRepeats(t)
    requires forall p :: p in s <==> p in t
    ensures multiset(s) == multiset(t)
  {
    forall p
      ensures multiset(s)[p] == multiset(t)[p]
    {
      Once(s, p);
      Once(t, p);
    }
  }

  /** Swapping the sides keeps updates and deletions and swaps the two hashes of each conflict. */
  lemma PlanSymmetric(plan: MergePlan, plan': MergePlan, base: Tree, ours: Tree, theirs: Tree)
    requires Implements(plan, base, ours, theirs) && Implements(plan', base, theirs, ours)
    ensures plan.clean == plan'.clean && multiset(plan.deletions) == multiset(plan'.deletions)
    ensures plan.conflicts.Keys == plan'.conflicts.Keys
    ensures forall p :: p in plan.conflicts ==>
              plan'.conflicts[p] == Conflict(plan.conflicts[p].base, plan.conflicts[p].theirs, plan.conflicts[p].ours)
  {
    forall p
      ensures p in plan.clean <==> p in plan'.clean
      ensures p in plan.clean ==> plan.clean[p] == plan'.clean[p]
      ensures p in plan.conflicts <==> p in plan'.conflicts
      ensures p in plan.conflicts ==>
                plan'.conflicts[p] == Conflict(plan.conflicts[p].base, plan.conflicts[p].theirs, plan.conflicts[p].ours)
      ensures p in plan.deletions <==> p in plan'.deletions
    {
      assert Decides(plan, base, ours, theirs, p) && Decides(plan', base, theirs, ours, p);
    }
    SameElements(plan.deletions, plan'.deletions);
  }

  /** A side that equals the base leaves the other side's tree; equal sides give that tree. */
  lemma PlanOfUnchanged(plan: MergePlan, base: Tree, ours: Tree, theirs: Tree)
    requires Implements(plan, base, ours, theirs)
    ensures ours == base ==> plan.clean == theirs && plan.conflicts == map[]
    ensures theirs == base || ours == theirs ==> plan.clean == ours && plan.conflicts == map[]
  {
    forall p
      ensures ours == base ==> (p in plan.clean <==> p in theirs) && p !in plan.conflicts
      ensures ours == base && p in theirs ==> plan.clean[p] == theirs[p]
      ensures theirs == base || ours == theirs ==> (p in plan.clean <==> p in ours) && p !in plan.conflicts
      ensures (theirs == base || ours == theirs) && p in ours ==> plan.clean[p] == ours[p]
    {
      assert Decides(plan, base, ours, theirs, p);
    }
  }
}
