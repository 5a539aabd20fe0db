/**
 One step of a continued rebase, in terms of what is stored: the trees that a pick is merged over,
 what becomes of each path, and the commit that is written.
 */
module ReplaySteps {
  import opened Wrappers
  import opened CommitGraph
  import opened TreeMerge
  import opened RebaseStateFiles
  import opened RepositoryModel
  import opened SequencerInvariant
  import opened ReplayMachine
  import opened Merge3
  import Strings

  // ---------- Applying the merge ----------

  /** No two of the three versions of the path are the same. */
  ghost predicate AllDiffer(base: Tree, ours: Tree, theirs: Tree, p: Path) {
    var b := if p in base then base[p] else "";
    var o := if p in ours then ours[p] else "";
    var t := if p in theirs then theirs[p] else "";
    b != o && b != t && o != t
  }

  /**
   The path in index and working files: a stage 2 entry of our version, or of 40 zeros if there is
   none, and the merged text, where all three differ; otherwise the version that was changed.
   */
  ghost predicate PathMerged(r: Repo, r': Repo, base: Tree, ours: Tree, theirs: Tree, p: Path) {
    var b := if p in base then base[p] else "";
    var o := if p in ours then ours[p] else "";
    var t := if p in theirs then theirs[p] else "";
    if AllDiffer(base, ours, theirs, p) then
      && p in r'.index
      && r'.index[p] == IndexEntry(if o == "" then "0000000000000000000000000000000000000000" else o, 2)
      && p in r'.worktree
      && r'.worktree[p] == MergeText(BlobText(r, b), BlobText(r, o), BlobText(r, t)).0
    else if p in base || p in ours || p in theirs then
      var h := if o == b then t else o;
      if h == "" then p !in r'.index && p !in r'.worktree
      else
        && p in r'.index && r'.index[p] == IndexEntry(h, 0)
        && p in r'.worktree && r'.worktree[p] == BlobText(r, h)
    else
      && (p in r'.index <==> p in r.index) && (p in r.index ==> r'.index[p] == r.index[p])
      && (p in r'.worktree <==> p in r.worktree) && (p in r.worktree ==> r'.worktree[p] == r.worktree[p])
  }

  function BlobText(r: Repo, hash: Hash): Content {
    if hash in r.objects.blobs then r.objects.blobs[hash] else ""
  }

  lemma PlanMerges(r: Repo, plan: MergePlan, base: Tree, ours: Tree, theirs: Tree)
    requires HasHashes(base) && HasHashes(ours) && HasHashes(theirs) && Implements(plan, base, ours, theirs)
    ensures forall p :: PathMerged(r, Applied(r, plan), base, ours, theirs, p)
    ensures plan.conflicts == map[] <==> forall p :: !AllDiffer(base, ours, theirs, p)
  {
    hide MergeText, Applied, Implements, HasHashes;
    PlanByHashes(plan, base, ours, theirs);
    DisjointPlan(plan, base, ours, theirs);
    forall p
      ensures PathMerged(r, Applied(r, plan), base, ours, theirs, p)
      ensures p in plan.conflicts <==> AllDiffer(base, ours, theirs, p)
    {
      assert PlannedByHashes(plan, base, ours, theirs, p);
      AppliedAt(r, plan, p);
    }
    if plan.conflicts != map[] {
      var p :| p in plan.conflicts;
    }
  }

  // ---------- Committing ----------

  /**
   From `r` to `m` the branch moved to a new commit: HEAD is its only parent, message and authorship
   are those of the pick, its tree has the paths and hashes of the index, and the marker is gone.
   */
  ghost predicate PickCommitted(r: Repo, m: Repo, pick: Id, committer: string, now: int) {
    && r.branch in r.branches && pick in r.objects.commits
    && m.branch == r.branch && m.branches.Keys == r.branches.Keys
    && (forall b :: b in r.branches && b != r.branch ==> m.branches[b] == r.branches[b])
    && m.rebase.Some? && StoppedSha !in m.rebase.value
    && (m.collision.None? ==>
          && m.branches[m.branch] in m.objects.commits
          && var c, original := m.objects.commits[m.branches[m.branch]], r.objects.commits[pick];
             && c.parents == [r.branches[r.branch]] && c.message == original.message
             && c.authorName == original.authorName && c.authorEmail == original.authorEmail
             && c.authorTime == original.authorTime && c.committer == committer && c.committerTime == now
             && c.tree in m.objects.trees
             && var tree := m.objects.trees[c.tree];
                forall p :: (p in tree <==> p in m.index) && (p in tree ==> tree[p] == m.index[p].hash))
  }

  lemma StepCommits(
    h: Hashing, r: Repo, s: Repo, pick: Id, committer: string, now: int, state: RebaseState)
    requires Hexadecimal(h) && Consistent(h, s) && ParentsKnown(s.objects) && TreeOk(s.objects, TreeOf(s.index))
    requires s.objects == r.objects && s.branches == r.branches && s.branch == r.branch && HeadOf(r).Some?
    requires s.rebase.Some? && 0 <= state.currentStep && pick in r.objects.commits
    ensures var m := Stepped(h, s, r.objects.commits[pick], committer, now, state);
            && PickCommitted(r, m, pick, committer, now)
            && m.index == s.index && m.worktree == s.worktree
  {
    hide StoreOk, ParentsKnown, Hexadecimal, IsCollision, TreeOk, IndexOk, PutTree, PutCommit;
    var original := r.objects.commits[pick];
    CommittedConsistent(h, s, original, committer, now);
    CommittedRest(h, s, original, committer, now);
    MarkerGone(state, s.rebase.value);
    var m := Committed(h, s, original, committer, now);
    TreeStored(h, m.objects, m.branches[m.branch]);
    assert forall p :: p in TreeOf(s.index) <==> p in s.index;
  }

  lemma MarkerGone(state: RebaseState, files: Files)
    requires 0 <= state.currentStep
    ensures StoppedSha !in Saved(state, files - {StoppedSha})
  {
  }

  // ---------- Continuing at a pick ----------

  /** The first line from the saved step on that is not skipped is at `j`. */
  ghost predicate NextLineAt(todo: seq<string>, step: int, j: int) {
    && 0 <= step <= j < |todo| && ReadStep(todo[j]) != Skip
    && forall k :: step <= k < j ==> ReadStep(todo[k]) == Skip
  }

  /** The pick was merged and committed, and its line is done. */
  ghost predicate PickTaken(
    h: Hashing, r: Repo, m: Repo, pick: Id, base: Tree, ours: Tree, theirs: Tree, committer: string, now: int)
    requires r.rebase.Some?
  {
    && (forall p :: PathMerged(r, m, base, ours, theirs, p))
    && PickCommitted(r, m, pick, committer, now) && InProgress(h, m) && Extends(r.objects, m.objects)
    && var st := Loaded(r.rebase.value);
       exists j :: NextLineAt(st.todoSteps, st.currentStep, j) && Loaded(m.rebase.value) == st.(currentStep := j + 1)
  }

  /** The pick was merged and has to be resolved: apart from index and files only the marker is new. */
  ghost predicate PickStops(r: Repo, r': Repo, pick: Id, base: Tree, ours: Tree, theirs: Tree)
    requires r.rebase.Some?
  {
    && (forall p :: PathMerged(r, r', base, ours, theirs, p))
    && r'.rebase == Some(r.rebase.value[StoppedSha := pick])
    && r'.objects == r.objects && r'.branches == r.branches && r'.branch == r.branch && r'.collision == r.collision
  }

  /**
   Continue at a pick: base is the stored tree of the first parent of the picked commit, however
   many it has, or the empty tree if it has none; ours is the tree of HEAD and theirs that of the
   picked commit.  If all three versions of some path differ, this is where it stops; otherwise the
   merge is committed, and continue goes on from there.
   */
  lemma ContinuePicks(
    h: Hashing, r: Repo, pick: Id, base: Tree, ours: Tree, theirs: Tree, committer: string, now: int)
    requires Hexadecimal(h) && InProgress(h, r) && r.rebase.Some? && StoppedSha !in r.rebase.value
    requires NextIs(r, Pick(pick)) && pick in r.objects.commits
    requires var o := r.objects;
             var parents := o.commits[pick].parents;
             if |parents| == 0 then base == map[]
             else
               && parents[0] in o.commits && o.commits[parents[0]].tree in o.trees
               && base == o.trees[o.commits[parents[0]].tree]
    requires var o := r.objects;
             && r.branch in r.branches && r.branches[r.branch] in o.commits
             && o.commits[r.branches[r.branch]].tree in o.trees && o.commits[pick].tree in o.trees
             && ours == o.trees[o.commits[r.branches[r.branch]].tree]
             && theirs == o.trees[o.commits[pick].tree]
    ensures 0 <= Loaded(r.rebase.value).currentStep
    ensures if exists p :: AllDiffer(base, ours, theirs, p) then
              && ContinueFrom(h, r, committer, now).1 == Stopped(pick)
              && PickStops(r, ContinueFrom(h, r, committer, now).0, pick, base, ours, theirs)
            else
              exists m: Repo ::
                && PickTaken(h, r, m, pick, base, ours, theirs, committer, now)
                && 0 <= Loaded(m.rebase.value).currentStep
                && ContinueFrom(h, r, committer, now) == ContinueFrom(h, m, committer, now)
  {
    hide Hexadecimal, StoreOk, Loaded, ReadStep, NextPick, Applied, Implements, ReplayFrom, Stepped, PausedAt,
         PathMerged, AllDiffer, PickCommitted, ParentsKnown, IsCollision, Extends, Looping, OnTrack, TreeOk, TreeOf,
         IndexOk, HasHashes, BaseTree, TreeAt, Consistent, NextIs, NextLineAt, InProgress;
    var o, st := r.objects, Loaded(r.rebase.value);
    NextFacts(h, r, pick);
    var j := NextPick(st.todoSteps, st.currentStep);
    var state, next := st.(currentStep := j), st.(currentStep := j + 1);
    ReplayAtNextPick(h, r, st, committer, now);
    TreesAre(h, r, pick, base, ours, theirs);
    PlanExists(base, ours, theirs);
    var plan :| Implements(plan, base, ours, theirs);
    PlanMerges(r, plan, base, ours, theirs);
    ReplayPlanned(h, r, state, plan, pick, committer, now);
    if plan.conflicts != map[] {
      Pauses(r, plan, pick, base, ours, theirs);
    } else {
      var m := Stepped(h, Applied(r, plan), o.commits[pick], committer, now, next);
      CleanPickKeeps(h, r, state, plan, pick, committer, now);
      Takes(h, r, plan, pick, base, ours, theirs, committer, now, next);
      GoesOn(h, m, next, committer, now);
      assert PickTaken(h, r, m, pick, base, ours, theirs, committer, now);
    }
  }

  lemma NextFacts(h: Hashing, r: Repo, pick: Id)
    requires InProgress(h, r) && NextIs(r, Pick(pick)) && r.rebase.Some? && StoppedSha !in r.rebase.value
    ensures HeadOf(r).Some? && HeadOf(r).value == r.branches[r.branch] && StoreOk(h, r.objects)
    ensures ParentsKnown(r.objects) && Consistent(h, r) && TreeOk(r.objects, TreeOf(r.index))
    ensures var st := Loaded(r.rebase.value);
            && 0 <= st.currentStep <= |st.todoSteps|
            && var j := NextPick(st.todoSteps, st.currentStep);
               && j < |st.todoSteps| && NextLineAt(st.todoSteps, st.currentStep, j)
               && ReadStep(st.todoSteps[j]) == Pick(pick)
               && Looping(h, r, st.(currentStep := j))
  {
    hide Loaded, ReadStep, NextPick, StoreOk, ParentsKnown, IsCollision, TreeOf, TreeOk, IndexOk;
    var st := Loaded(r.rebase.value);
    NextPickSkips(st.todoSteps, st.currentStep);
  }

  lemma TreesAre(h: Hashing, r: Repo, pick: Id, base: Tree, ours: Tree, theirs: Tree)
    requires StoreOk(h, r.objects) && pick in r.objects.commits && r.branch in r.branches
    requires var o := r.objects;
             var parents := o.commits[pick].parents;
             if |parents| == 0 then base == map[]
             else
               && parents[0] in o.commits && o.commits[parents[0]].tree in o.trees
               && base == o.trees[o.commits[parents[0]].tree]
    requires var o := r.objects;
             && r.branches[r.branch] in o.commits
             && o.commits[r.branches[r.branch]].tree in o.trees && o.commits[pick].tree in o.trees
             && ours == o.trees[o.commits[r.branches[r.branch]].tree]
             && theirs == o.trees[o.commits[pick].tree]
    ensures var o := r.objects;
            base == BaseTree(o, o.commits[pick]) && ours == TreeAt(o, r.branches[r.branch]) && theirs == TreeAt(o, pick)
    ensures HasHashes(base) && HasHashes(ours) && HasHashes(theirs)
    ensures TreeOk(r.objects, base) && TreeOk(r.objects, ours) && TreeOk(r.objects, theirs)
  {
    hide StoreOk;
    BaseTreeOk(h, r.objects, r.objects.commits[pick]);
    TreeAtOk(h, r.objects, r.branches[r.branch]);
    TreeAtOk(h, r.objects, pick);
  }

  lemma Pauses(r: Repo, plan: MergePlan, pick: Id, base: Tree, ours: Tree, theirs: Tree)
    requires r.rebase.Some? && forall p :: PathMerged(r, Applied(r, plan), base, ours, theirs, p)
    ensures PickStops(r, PausedAt(r, plan, pick), pick, base, ours, theirs)
  {
    hide Applied, MergeText, AllDiffer;
    AppliedRest(r, plan);
    SameMerged(r, Applied(r, plan), PausedAt(r, plan, pick), base, ours, theirs);
  }

  /** It is a matter of index and working files only. */
  lemma SameMerged(r: Repo, s: Repo, s': Repo, base: Tree, ours: Tree, theirs: Tree)
    requires (forall p :: PathMerged(r, s, base, ours, theirs, p)) && s'.index == s.index && s'.worktree == s.worktree
    ensures forall p :: PathMerged(r, s', base, ours, theirs, p)
  {
    hide MergeText, AllDiffer;
    forall p
      ensures PathMerged(r, s', base, ours, theirs, p)
    {
      assert PathMerged(r, s, base, ours, theirs, p);
    }
  }

  lemma Takes(
    h: Hashing, r: Repo, plan: MergePlan, pick: Id, base: Tree, ours: Tree, theirs: Tree, committer: string, now: int,
    next: RebaseState)
    requires Hexadecimal(h) && Consistent(h, r) && ParentsKnown(r.objects) && TreeOk(r.objects, TreeOf(r.index))
    requires HeadOf(r).Some? && r.rebase.Some? && pick in r.objects.commits
    requires 0 <= Loaded(r.rebase.value).currentStep && 0 <= next.currentStep
    requires next == Loaded(r.rebase.value).(currentStep := next.currentStep)
    requires TreeOk(r.objects, base) && TreeOk(r.objects, ours) && TreeOk(r.objects, theirs)
    requires Implements(plan, base, ours, theirs) && plan.conflicts == map[]
    requires forall p :: PathMerged(r, Applied(r, plan), base, ours, theirs, p)
    ensures var m := Stepped(h, Applied(r, plan), r.objects.commits[pick], committer, now, next);
            && (forall p :: PathMerged(r, m, base, ours, theirs, p))
            && PickCommitted(r, m, pick, committer, now)
            && m.rebase.Some? && Loaded(m.rebase.value) == next
  {
    hide Loaded, Saved, Hexadecimal, Consistent, ParentsKnown, TreeOk, TreeOf, Applied, Implements, PathMerged,
         PickCommitted, Committed;
    var s := Applied(r, plan);
    AppliedConsistent(h, r, plan, base, ours, theirs);
    AppliedRest(r, plan);
    StepCommits(h, r, s, pick, committer, now, next);
    SavedStep(r.rebase.value, next, next.currentStep);
    SameMerged(r, s, Stepped(h, s, r.objects.commits[pick], committer, now, next), base, ours, theirs);
  }

  /** Continuing from where the loop stands. */
  lemma GoesOn(h: Hashing, m: Repo, next: RebaseState, committer: string, now: int)
    requires Looping(h, m, next) && m.rebase.Some? && Loaded(m.rebase.value) == next
    ensures 0 <= next.currentStep && InProgress(h, m)
    ensures ContinueFrom(h, m, committer, now) == ReplayFrom(h, m, next, committer, now)
  {
    hide Loaded, ReplayFrom, StoreOk, ParentsKnown, TreeOk, TreeOf;
  }

  /** Continue after a pause: nothing while an entry is unresolved, otherwise the index is committed first. */
  lemma ContinueResumes(h: Hashing, r: Repo, committer: string, now: int)
    requires Hexadecimal(h) && InProgress(h, r) && r.rebase.Some? && StoppedSha in r.rebase.value
    ensures 0 <= Loaded(r.rebase.value).currentStep
    ensures var pick := Strings.Trim(r.rebase.value[StoppedSha]);
            if exists p :: p in r.index && r.index[p].stage != 0 then
              ContinueFrom(h, r, committer, now) == (r, Unmerged)
            else if pick !in r.objects.commits then
              ContinueFrom(h, r, committer, now) == (r, UnknownCommit(pick))
            else
              exists m: Repo ::
                && m.index == r.index && m.worktree == r.worktree
                && PickCommitted(r, m, pick, committer, now) && InProgress(h, m) && Extends(r.objects, m.objects)
                && Loaded(m.rebase.value)
                   == Loaded(r.rebase.value).(currentStep := Loaded(r.rebase.value).currentStep + 1)
                && ContinueFrom(h, r, committer, now) == ContinueFrom(h, m, committer, now)
  {
    hide Hexadecimal, Loaded, Saved, ReplayFrom, Stepped, PickCommitted, StoreOk, ParentsKnown, IsCollision, Extends,
         Looping, TreeOk, TreeOf, OnTrack, Strings.Trim;
    var st, pick := Loaded(r.rebase.value), Strings.Trim(r.rebase.value[StoppedSha]);
    if AllResolved(r.index) && pick in r.objects.commits {
      var next := st.(currentStep := st.currentStep + 1);
      var m := Stepped(h, r, r.objects.commits[pick], committer, now, next);
      IndexTreeOk(r.objects, r.index);
      ResumeKeeps(h, r, pick, committer, now);
      StepCommits(h, r, r, pick, committer, now, next);
      StepSaves(h, r, r.objects.commits[pick], committer, now, next);
      GoesOn(h, m, next, committer, now);
    }
  }

  lemma StepSaves(h: Hashing, r: Repo, original: Commit, committer: string, now: int, next: RebaseState)
    requires r.rebase.Some? && 0 <= Loaded(r.rebase.value).currentStep && 0 <= next.currentStep
    requires next == Loaded(r.rebase.value).(currentStep := next.currentStep)
    ensures var m := Stepped(h, r, original, committer, now, next); m.rebase.Some? && Loaded(m.rebase.value) == next
  {
    hide Loaded, Saved, Committed;
    SavedStep(r.rebase.value, next, next.currentStep);
  }

  /** Continue when only skipped lines are left: the rebase is over, and nothing else changes. */
  lemma ContinueEnds(h: Hashing, r: Repo, committer: string, now: int)
    requires r.rebase.Some? && StoppedSha !in r.rebase.value
    requires var st := Loaded(r.rebase.value);
             && 0 <= st.currentStep <= |st.todoSteps|
             && forall k :: st.currentStep <= k < |st.todoSteps| ==> ReadStep(st.todoSteps[k]) == Skip
    ensures ContinueFrom(h, r, committer, now) == (r.(rebase := None), Done)
  {
    hide Loaded, ReplayFrom, ReadStep;
    var st := Loaded(r.rebase.value);
    ReplayAtNextPick(h, r, st, committer, now);
    NoNextPick(st.todoSteps, st.currentStep);
    ReplayEnds(h, r, st.(currentStep := |st.todoSteps|), committer, now);
  }
}
