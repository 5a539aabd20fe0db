/**
 What the rebase sequencer keeps true: the invariants over repository states, and that each
 operation of a rebase preserves them.
 */
module SequencerInvariant {
  import opened Wrappers
  import opened CommitGraph
  import opened TreeMerge
  import opened RebaseStateFiles
  import opened RepositoryModel
  import opened Merge3
  import Strings
  import Lines

  // ---------- Consistent repositories ----------

  ghost predicate AllResolved(index: Index) {
    forall p :: p in index ==> index[p].stage == 0
  }

  /** Resolved entries name stored blobs. */
  ghost predicate IndexOk(o: Objects, index: Index) {
    forall p :: p in index && index[p].stage == 0 ==> index[p].hash in o.blobs && index[p].hash != ""
  }

  /** Objects are closed, no file is untracked, and a recorded collision is one. */
  ghost predicate Consistent(h: Hashing, r: Repo) {
    && StoreOk(h, r.objects) && IndexOk(r.objects, r.index)
    && r.worktree.Keys <= r.index.Keys
    && (r.collision.Some? ==> IsCollision(h, r.objects, r.collision.value))
  }

  /** Objects were only added, and a collision stays on record. */
  ghost predicate Grows(r: Repo, r': Repo) {
    Extends(r.objects, r'.objects) && (r.collision.Some? ==> r'.collision == r.collision)
  }

  lemma GrowsTrans(r: Repo, r': Repo, r'': Repo)
    requires Grows(r, r') && Grows(r', r'')
    ensures Grows(r, r'')
  {
    hide Extends;
    ExtendsTrans(r.objects, r'.objects, r''.objects);
  }

  function TreeAt(o: Objects, id: Id): Tree {
    if id in o.commits && o.commits[id].tree in o.trees then o.trees[o.commits[id].tree] else map[]
  }

  /** The tree a pick is compared with: that of its first parent, if there is one. */
  function BaseTree(o: Objects, c: Commit): Tree {
    if c.parents != [] then TreeAt(o, c.parents[0]) else map[]
  }

  lemma TreeAtOk(h: Hashing, o: Objects, id: Id)
    requires StoreOk(h, o)
    ensures TreeOk(o, TreeAt(o, id)) && HasHashes(TreeAt(o, id))
  {
  }

  lemma BaseTreeOk(h: Hashing, o: Objects, c: Commit)
    requires StoreOk(h, o)
    ensures TreeOk(o, BaseTree(o, c)) && HasHashes(BaseTree(o, c))
  {
  }

  // ---------- Replayed commits ----------

  /** `c` replays `pick` on `prev`: one parent, the same authorship and message, the merged tree. */
  ghost predicate Replays(o: Objects, c: Id, prev: Id, pick: Id) {
    && c in o.commits && prev in o.commits && pick in o.commits
    && var new', original := o.commits[c], o.commits[pick];
       && new'.parents == [prev]
       && new'.message == original.message
       && new'.authorName == original.authorName && new'.authorEmail == original.authorEmail
       && new'.authorTime == original.authorTime
       && var base, ours, theirs := BaseTree(o, original), TreeAt(o, prev), TreeAt(o, pick);
          Clashes(base, ours, theirs) || TreeAt(o, c) == MergedTree(base, ours, theirs)
  }

  /** A single-parent chain from `onto` to `head` with one replay for each of the picks, in order. */
  ghost predicate Chain(o: Objects, onto: Id, head: Id, picks: seq<Id>)
    decreases |picks|
  {
    if picks == [] then head == onto
    else
      var pick := picks[|picks| - 1];
      exists prev :: Replays(o, head, prev, pick) && Chain(o, onto, prev, picks[..|picks| - 1])
  }

  lemma ExtendsTreeAt(h: Hashing, o: Objects, o': Objects, id: Id)
    requires Extends(o, o') && StoreOk(h, o) && id in o.commits
    ensures TreeAt(o', id) == TreeAt(o, id)
  {
  }

  /** A parent that is not stored is not stored later either; so the base stays what it was. */
  ghost predicate ParentsKnown(o: Objects) {
    forall c :: c in o.commits && o.commits[c].parents != [] ==> o.commits[c].parents[0] in o.commits
  }

  lemma ExtendsReplays(h: Hashing, o: Objects, o': Objects, c: Id, prev: Id, pick: Id)
    requires Extends(o, o') && StoreOk(h, o) && ParentsKnown(o) && Replays(o, c, prev, pick)
    ensures Replays(o', c, prev, pick)
  {
    ExtendsTreeAt(h, o, o', c);
    ExtendsTreeAt(h, o, o', prev);
    ExtendsTreeAt(h, o, o', pick);
    if o.commits[pick].parents != [] {
      ExtendsTreeAt(h, o, o', o.commits[pick].parents[0]);
    }
  }

  lemma {:induction false} ExtendsChain(h: Hashing, o: Objects, o': Objects, onto: Id, head: Id, picks: seq<Id>)
    requires Extends(o, o') && StoreOk(h, o) && ParentsKnown(o) && Chain(o, onto, head, picks)
    ensures Chain(o', onto, head, picks)
    decreases |picks|
  {
    if picks != [] {
      var last := |picks| - 1;
      var prev :| Replays(o, head, prev, picks[last]) && Chain(o, onto, prev, picks[..last]);
      ExtendsReplays(h, o, o', head, prev, picks[last]);
      ExtendsChain(h, o, o', onto, prev, picks[..last]);
    }
  }

  lemma ExtendsTrans(o: Objects, o': Objects, o'': Objects)
    requires Extends(o, o') && Extends(o', o'')
    ensures Extends(o, o'')
  {
  }

  // ---------- The state of a rebase ----------

  ghost predicate Paused(r: Repo) {
    r.rebase.Some? && StoppedSha in r.rebase.value
  }

  /** A rebase is in progress and can be continued or aborted. */
  ghost predicate InProgress(h: Hashing, r: Repo) {
    && Consistent(h, r) && ParentsKnown(r.objects)
    && r.rebase.Some? && HeadOf(r).Some?
    && (!Paused(r) ==> TreeOk(r.objects, TreeOf(r.index)))
    && var st := Loaded(r.rebase.value);
       && 0 <= st.currentStep <= |st.todoSteps| && (Paused(r) ==> st.currentStep < |st.todoSteps|)
       && st.origHead in r.objects.commits && st.onto in r.objects.commits
  }

  ghost predicate PickClashes(o: Objects, head: Id, pick: Id) {
    pick in o.commits && Clashes(BaseTree(o, o.commits[pick]), TreeAt(o, head), TreeAt(o, pick))
  }

  /** The first line that is not skipped. */
  ghost predicate NextIs(r: Repo, step: Step) {
    && r.rebase.Some?
    && var st := Loaded(r.rebase.value);
       && 0 <= st.currentStep <= |st.todoSteps|
       && var j := NextPick(st.todoSteps, st.currentStep);
          j < |st.todoSteps| && ReadStep(st.todoSteps[j]) == step
  }

  /** HEAD is a chain above `onto` of picks that follow the list up to the current step. */
  ghost predicate ChainReached(r: Repo, picks: seq<Id>)
    requires r.rebase.Some? && HeadOf(r).Some?
  {
    var st := Loaded(r.rebase.value);
    && Chain(r.objects, st.onto, HeadOf(r).value, picks)
    && 0 <= st.currentStep <= |st.todoSteps| && Reached(picks, st.todoSteps, st.currentStep)
  }

  /**
   The replay is on track: HEAD is a chain of what was picked so far; a pause marker names the
   next pick, which clashes; without one the index is HEAD's tree.
   */
  ghost predicate OnTrack(r: Repo) {
    && r.rebase.Some? && HeadOf(r).Some?
    && (exists picks :: ChainReached(r, picks))
    && if StoppedSha in r.rebase.value then
         && NextIs(r, Pick(Strings.Trim(r.rebase.value[StoppedSha])))
         && PickClashes(r.objects, HeadOf(r).value, Strings.Trim(r.rebase.value[StoppedSha]))
       else r.index == Entries(TreeAt(r.objects, HeadOf(r).value))
  }

  // ---------- Each operation preserves consistency ----------

  lemma AppliedConsistent(h: Hashing, r: Repo, plan: MergePlan, base: Tree, ours: Tree, theirs: Tree)
    requires Consistent(h, r) && Implements(plan, base, ours, theirs)
    requires TreeOk(r.objects, base) && TreeOk(r.objects, ours) && TreeOk(r.objects, theirs)
    ensures Consistent(h, Applied(r, plan))
    ensures plan.conflicts == map[] && TreeOk(r.objects, TreeOf(r.index)) ==>
              TreeOk(r.objects, TreeOf(Applied(r, plan).index))
  {
    hide StoreOk, MergeText, Applied, Implements, IsCollision;
    DisjointPlan(plan, base, ours, theirs);
    AppliedRest(r, plan);
    var r' := Applied(r, plan);
    forall p
      ensures p in r'.worktree ==> p in r'.index
      ensures p in r'.index && r'.index[p].stage == 0 ==> r'.index[p].hash in r.objects.blobs && r'.index[p].hash != ""
      ensures p in r'.index && plan.conflicts == map[] && TreeOk(r.objects, TreeOf(r.index)) ==>
                r'.index[p].hash in r.objects.blobs && r'.index[p].hash != ""
    {
      assert p in r.index ==> p in TreeOf(r.index) && TreeOf(r.index)[p] == r.index[p].hash;
      AppliedAt(r, plan, p);
      if p in plan.clean {
        CleanIsVersion(plan, base, ours, theirs, p);
      }
    }
  }

  lemma CleanIsVersion(plan: MergePlan, base: Tree, ours: Tree, theirs: Tree, p: Path)
    requires Implements(plan, base, ours, theirs) && p in plan.clean
    ensures (p in ours && plan.clean[p] == ours[p]) || (p in theirs && plan.clean[p] == theirs[p])
  {
    assert Decides(plan, base, ours, theirs, p);
  }

  lemma TreesStayOk(h: Hashing, o: Objects, o': Objects)
    requires TreesOk(h, o) && o'.trees == o.trees && o.blobs.Keys <= o'.blobs.Keys
    ensures TreesOk(h, o')
  {
    forall t | t in o'.trees
      ensures h.tree(o'.trees[t]) == t && TreeOk(o', o'.trees[t])
    {
      assert TreeOk(o, o.trees[t]);
    }
  }

  lemma TreeWritten(h: Hashing, o: Objects, tree: Tree)
    requires StoreOk(h, o) && ParentsKnown(o) && TreeOk(o, tree)
    ensures var o' := WithTree(h, o, tree);
            StoreOk(h, o') && ParentsKnown(o') && Extends(o, o') && h.tree(tree) in o'.trees
  {
    hide TreesOk, BlobsOk, CommitsOk, ParentsKnown, TreeOk;
    var o' := WithTree(h, o, tree);
    TreesWritten(h, o, tree);
    BlobsStayOk(h, o, o');
    CommitsStayOk(h, o, o');
  }

  lemma TreesWritten(h: Hashing, o: Objects, tree: Tree)
    requires TreesOk(h, o) && TreeOk(o, tree)
    ensures TreesOk(h, WithTree(h, o, tree))
  {
    hide TreeOk;
    SameTreeOk(o, WithTree(h, o, tree));
  }

  lemma CommitsStayOk(h: Hashing, o: Objects, o': Objects)
    requires CommitsOk(h, o) && ParentsKnown(o) && o'.commits == o.commits && o.trees.Keys <= o'.trees.Keys
    ensures CommitsOk(h, o') && ParentsKnown(o')
  {
    hide IsHash;
  }

  lemma SameTreeOk(o: Objects, o': Objects)
    requires o.blobs == o'.blobs
    ensures forall tree :: TreeOk(o, tree) ==> TreeOk(o', tree)
  {
  }

  lemma TreeCollides(h: Hashing, o: Objects, tree: Tree)
    requires StoreOk(h, o)
    ensures TreeCollision(h, o, tree).Some? ==> IsCollision(h, o, TreeCollision(h, o, tree).value)
    ensures TreeCollision(h, o, tree).None? ==> WithTree(h, o, tree).trees[h.tree(tree)] == tree
  {
    hide TreeOk;
  }

  lemma CommitWritten(h: Hashing, o: Objects, c: Commit)
    requires Hexadecimal(h) && StoreOk(h, o) && ParentsKnown(o) && c.tree in o.trees
    requires c.parents != [] ==> c.parents[0] in o.commits
    ensures var o' := WithCommit(h, o, c);
            StoreOk(h, o') && ParentsKnown(o') && Extends(o, o') && h.commit(c) in o'.commits
  {
    hide TreesOk, BlobsOk, CommitsOk, Hexadecimal, ParentsKnown, IsHash;
    var o' := WithCommit(h, o, c);
    IdIsHash(h, c);
    TreesStayOk(h, o, o');
    BlobsStayOk(h, o, o');
    CommitsWritten(h, o, c);
  }

  lemma BlobsStayOk(h: Hashing, o: Objects, o': Objects)
    requires BlobsOk(h, o) && o'.blobs == o.blobs
    ensures BlobsOk(h, o')
  {
  }

  lemma CommitsWritten(h: Hashing, o: Objects, c: Commit)
    requires CommitsOk(h, o) && ParentsKnown(o) && c.tree in o.trees && IsHash(h.commit(c))
    requires c.parents != [] ==> c.parents[0] in o.commits
    ensures CommitsOk(h, WithCommit(h, o, c)) && ParentsKnown(WithCommit(h, o, c))
  {
    hide IsHash;
  }

  lemma IdIsHash(h: Hashing, c: Commit)
    requires Hexadecimal(h)
    ensures IsHash(h.commit(c))
  {
  }

  lemma CommitCollides(h: Hashing, o: Objects, c: Commit)
    requires StoreOk(h, o)
    ensures CommitCollision(h, o, c).Some? ==> IsCollision(h, o, CommitCollision(h, o, c).value)
    ensures CommitCollision(h, o, c).None? ==> WithCommit(h, o, c).commits[h.commit(c)] == c
  {
  }

  lemma BlobWritten(h: Hashing, o: Objects, content: Content)
    requires Hexadecimal(h) && StoreOk(h, o) && ParentsKnown(o)
    ensures var o' := WithBlob(h, o, content);
            && StoreOk(h, o') && ParentsKnown(o') && Extends(o, o')
            && h.blob(content) in o'.blobs && h.blob(content) != ""
  {
    hide TreesOk;
    assert IsHash(h.blob(content));
    TreesStayOk(h, o, WithBlob(h, o, content));
  }

  lemma BlobCollides(h: Hashing, o: Objects, content: Content)
    requires StoreOk(h, o)
    ensures BlobCollision(h, o, content).Some? ==> IsCollision(h, o, BlobCollision(h, o, content).value)
  {
  }

  lemma CollisionKept(h: Hashing, o: Objects, o': Objects, c: Collision)
    requires Extends(o, o') && IsCollision(h, o, c)
    ensures IsCollision(h, o', c)
  {
  }

  lemma IndexTreeOk(o: Objects, index: Index)
    requires IndexOk(o, index) && AllResolved(index)
    ensures TreeOk(o, TreeOf(index))
  {
  }

  lemma TreeIndexOk(o: Objects, index: Index)
    requires TreeOk(o, TreeOf(index))
    ensures IndexOk(o, index)
  {
    forall p | p in index
      ensures index[p].hash in o.blobs && index[p].hash != ""
    {
      assert p in TreeOf(index);
    }
  }

  /** The objects after a replayed commit: its tree is added first, then the commit. */
  lemma CommittedObjects(h: Hashing, r: Repo, original: Commit, committer: string, now: int)
    requires Hexadecimal(h) && StoreOk(h, r.objects) && ParentsKnown(r.objects) && TreeOk(r.objects, TreeOf(r.index))
    requires r.collision.Some? ==> IsCollision(h, r.objects, r.collision.value)
    ensures var r', c := Committed(h, r, original, committer, now), ReplayCommit(h, r, original, committer, now);
            && StoreOk(h, r'.objects) && ParentsKnown(r'.objects) && Grows(r, r')
            && (r'.collision.Some? ==> IsCollision(h, r'.objects, r'.collision.value))
            && h.commit(c) in r'.objects.commits
            && (r'.collision.None? ==>
                  && r'.objects.commits[h.commit(c)] == c
                  && c.tree in r'.objects.trees && r'.objects.trees[c.tree] == TreeOf(r.index))
  {
    hide StoreOk, ParentsKnown, TreeOk, Hexadecimal, TreeOf, IsCollision, WithTree, WithCommit, TreeCollision,
         CommitCollision;
    var c := ReplayCommit(h, r, original, committer, now);
    var o, tree := r.objects, TreeOf(r.index);
    var o1 := WithTree(h, o, tree);
    var o2 := WithCommit(h, o1, c);
    TreeWritten(h, o, tree);
    TreeCollides(h, o, tree);
    ParentWritten(o, o1, r);
    CommitWritten(h, o1, c);
    CommitCollides(h, o1, c);
    ExtendsTrans(o, o1, o2);
    var r' := Committed(h, r, original, committer, now);
    if r.collision.Some? {
      CollisionKept(h, o, o2, r.collision.value);
    } else if TreeCollision(h, o, tree).Some? {
      CollisionKept(h, o, o2, TreeCollision(h, o, tree).value);
    } else if CommitCollision(h, o1, c).Some? {
      CollisionKept(h, o1, o2, CommitCollision(h, o1, c).value);
    }
  }

  lemma ParentWritten(o: Objects, o': Objects, r: Repo)
    requires o == r.objects && Extends(o, o')
    ensures HeadOf(r).Some? ==> HeadOf(r).value in o'.commits
  {
  }

  lemma CommittedConsistent(h: Hashing, r: Repo, original: Commit, committer: string, now: int)
    requires Hexadecimal(h) && Consistent(h, r) && TreeOk(r.objects, TreeOf(r.index)) && ParentsKnown(r.objects)
    requires r.branch in r.branches
    ensures var r', c := Committed(h, r, original, committer, now), ReplayCommit(h, r, original, committer, now);
            && Consistent(h, r') && ParentsKnown(r'.objects) && Grows(r, r')
            && HeadOf(r') == Some(h.commit(c)) && TreeOk(r'.objects, TreeOf(r'.index))
            && (r'.collision.None? ==>
                  TreeAt(r'.objects, HeadOf(r').value) == TreeOf(r.index) && r'.objects.commits[HeadOf(r').value] == c)
  {
    hide StoreOk, ParentsKnown, TreeOf, Hexadecimal, IsCollision, WithTree, WithCommit;
    CommittedObjects(h, r, original, committer, now);
    var r' := Committed(h, r, original, committer, now);
    TreeOkGrows(r.objects, r'.objects, TreeOf(r.index));
    TreeIndexOk(r'.objects, r'.index);
  }

  lemma TreeOkGrows(o: Objects, o': Objects, tree: Tree)
    requires Extends(o, o') && TreeOk(o, tree)
    ensures TreeOk(o', tree)
  {
  }

  // ---------- The steps of the replay loop ----------

  /** Where the loop stands: `state` is what was saved last, advanced over skipped lines. */
  ghost predicate Looping(h: Hashing, r: Repo, state: RebaseState) {
    && InProgress(h, r) && StoppedSha !in r.rebase.value
    && var st := Loaded(r.rebase.value);
       && state == st.(currentStep := state.currentStep)
       && st.currentStep <= state.currentStep <= |state.todoSteps|
       && (forall j :: st.currentStep <= j < state.currentStep ==> ReadStep(state.todoSteps[j]) == Skip)
  }

  /** After a clashing pick: the plan is applied and the marker names the pick. */
  ghost function PausedAt(r: Repo, plan: MergePlan, hash: Id): Repo
    requires r.rebase.Some?
  {
    Applied(r, plan).(rebase := Some(r.rebase.value[StoppedSha := hash]))
  }

  /** After a commit on top of `s`: the marker is gone and the state is saved. */
  ghost function Stepped(h: Hashing, s: Repo, original: Commit, committer: string, now: int, state: RebaseState): Repo
    requires s.rebase.Some? && 0 <= state.currentStep
  {
    Committed(h, s, original, committer, now).(rebase := Some(Saved(state, s.rebase.value - {StoppedSha})))
  }

  lemma SavedStep(files: Files, state: RebaseState, step: int)
    requires 0 <= Loaded(files).currentStep && 0 <= step
    requires state == Loaded(files).(currentStep := step)
    ensures Loaded(Saved(state, files - {StoppedSha})) == state
    ensures StoppedSha !in Saved(state, files - {StoppedSha})
  {
    hide Loaded;
    LoadedIsStorable(files);
    SaveLoadRoundTrip(state, files - {StoppedSha});
  }

  lemma MarkerKeepsState(files: Files, hash: string)
    ensures Loaded(files[StoppedSha := hash]) == Loaded(files)
  {
    hide Lines.Split, Strings.Trim, Strings.Atoi;
  }

  lemma HashIsTrimmed(hash: string)
    requires IsHash(hash)
    ensures Strings.Trim(hash) == hash
  {
    hide Strings.TrimLeft, Strings.TrimRight;
    assert IsHexDigit(hash[0]) && IsHexDigit(hash[|hash| - 1]);
  }

  /** A pause keeps the rebase in progress, and on track if it was. */
  lemma PauseKeeps(h: Hashing, r: Repo, state: RebaseState, plan: MergePlan, hash: Id)
    requires Looping(h, r, state) && state.currentStep < |state.todoSteps|
    requires ReadStep(state.todoSteps[state.currentStep]) == Pick(hash) && hash in r.objects.commits
    requires var o, original := r.objects, r.objects.commits[hash];
             Implements(plan, BaseTree(o, original), TreeAt(o, HeadOf(r).value), TreeAt(o, hash))
    requires plan.conflicts != map[]
    ensures var r' := PausedAt(r, plan, hash);
            InProgress(h, r') && Paused(r') && Grows(r, r') && (OnTrack(r) ==> OnTrack(r'))
  {
    hide StoreOk, Loaded, MergeText, Applied, Implements, ParentsKnown, Chain, BaseTree, TreeAt, ReadStep, NextPick,
         ChainReached, IsCollision, TreeOk, IndexOk, Entries, Clashes, Strings.Trim;
    var o, original := r.objects, r.objects.commits[hash];
    var base, ours, theirs := BaseTree(o, original), TreeAt(o, HeadOf(r).value), TreeAt(o, hash);
    BaseTreeOk(h, o, original);
    TreeAtOk(h, o, HeadOf(r).value);
    TreeAtOk(h, o, hash);
    AppliedConsistent(h, r, plan, base, ours, theirs);
    AppliedRest(r, plan);
    MarkerKeepsState(r.rebase.value, hash);
    ConflictsAreClashes(plan, base, ours, theirs);
    NextPickIs(state.todoSteps, Loaded(r.rebase.value).currentStep, state.currentStep);
    SameReached(r, PausedAt(r, plan, hash));
    CommitIdIsHash(h, o, hash);
    HashIsTrimmed(hash);
  }

  lemma CommitIdIsHash(h: Hashing, o: Objects, id: Id)
    requires StoreOk(h, o) && id in o.commits
    ensures IsHash(id)
  {
  }

  /** Committing on `s` extends the chain of `r` by a replay of `pick`, where the tree is right and nothing collides. */
  lemma ChainGrows(
    h: Hashing, r: Repo, s: Repo, pick: Id, committer: string, now: int, onto: Id, picks: seq<Id>)
    requires Hexadecimal(h) && StoreOk(h, r.objects) && ParentsKnown(r.objects) && HeadOf(r).Some?
    requires s.objects == r.objects && s.branches == r.branches && s.branch == r.branch && Consistent(h, s)
    requires TreeOk(s.objects, TreeOf(s.index)) && pick in r.objects.commits
    requires Chain(r.objects, onto, HeadOf(r).value, picks)
    requires var o := r.objects;
             var base, ours, theirs := BaseTree(o, o.commits[pick]), TreeAt(o, HeadOf(r).value), TreeAt(o, pick);
             Clashes(base, ours, theirs) || TreeOf(s.index) == MergedTree(base, ours, theirs)
    requires Committed(h, s, r.objects.commits[pick], committer, now).collision.None?
    ensures var s' := Committed(h, s, r.objects.commits[pick], committer, now);
            HeadOf(s').Some? && Chain(s'.objects, onto, HeadOf(s').value, picks + [pick])
  {
    hide StoreOk, Chain, ParentsKnown, Clashes, MergedTree, TreeOf, Hexadecimal, Consistent, TreeOk,
         PutCommit, PutTree;
    var original := r.objects.commits[pick];
    var s' := Committed(h, s, original, committer, now);
    CommitReplays(h, r, s, pick, committer, now);
    CommittedConsistent(h, s, original, committer, now);
    ExtendsChain(h, r.objects, s'.objects, onto, HeadOf(r).value, picks);
    ChainCons(s'.objects, onto, HeadOf(s').value, HeadOf(r).value, picks, pick);
  }

  /** The new commit replays `pick` on the HEAD of `r`. */
  lemma CommitReplays(h: Hashing, r: Repo, s: Repo, pick: Id, committer: string, now: int)
    requires Hexadecimal(h) && StoreOk(h, r.objects) && ParentsKnown(r.objects) && HeadOf(r).Some?
    requires s.objects == r.objects && s.branches == r.branches && s.branch == r.branch && Consistent(h, s)
    requires TreeOk(s.objects, TreeOf(s.index)) && pick in r.objects.commits
    requires var o := r.objects;
             var base, ours, theirs := BaseTree(o, o.commits[pick]), TreeAt(o, HeadOf(r).value), TreeAt(o, pick);
             Clashes(base, ours, theirs) || TreeOf(s.index) == MergedTree(base, ours, theirs)
    requires Committed(h, s, r.objects.commits[pick], committer, now).collision.None?
    ensures var s' := Committed(h, s, r.objects.commits[pick], committer, now);
            HeadOf(s').Some? && Replays(s'.objects, HeadOf(s').value, HeadOf(r).value, pick)
  {
    hide StoreOk, ParentsKnown, Clashes, MergedTree, TreeOf, Hexadecimal, Consistent, TreeOk, PutCommit, PutTree;
    var original := r.objects.commits[pick];
    var s' := Committed(h, s, original, committer, now);
    ConsistentParts(h, s);
    CommittedConsistent(h, s, original, committer, now);
    NewReplays(h, r.objects, s'.objects, HeadOf(s').value, HeadOf(r).value, pick, TreeOf(s.index));
  }

  lemma ConsistentParts(h: Hashing, r: Repo)
    requires Consistent(h, r)
    ensures StoreOk(h, r.objects)
  {
  }

  lemma ChainCons(o: Objects, onto: Id, head: Id, prev: Id, picks: seq<Id>, pick: Id)
    requires Replays(o, head, prev, pick) && Chain(o, onto, prev, picks)
    ensures Chain(o, onto, head, picks + [pick])
  {
    hide Replays;
    assert (picks + [pick])[..|picks|] == picks && (picks + [pick])[|picks|] == pick;
  }

  /** The same objects, HEAD and saved state: the chain is as it was. */
  lemma SameReached(r: Repo, r': Repo)
    requires r.rebase.Some? && r'.rebase.Some? && HeadOf(r).Some?
    requires r'.objects == r.objects && HeadOf(r') == HeadOf(r) && Loaded(r'.rebase.value) == Loaded(r.rebase.value)
    ensures forall picks :: ChainReached(r', picks) <==> ChainReached(r, picks)
  {
    hide Loaded, Chain, Reached;
  }

  /** What the commit of a pick at line `j` makes of what was reached, if this line is saved as done. */
  lemma PickReached(h: Hashing, r: Repo, s: Repo, pick: Id, committer: string, now: int, j: nat)
    requires Hexadecimal(h) && StoreOk(h, r.objects) && ParentsKnown(r.objects) && OnTrack(r)
    requires s.objects == r.objects && s.branches == r.branches && s.branch == r.branch && Consistent(h, s)
    requires s.rebase == r.rebase && TreeOk(s.objects, TreeOf(s.index)) && pick in r.objects.commits
    requires var o := r.objects;
             var base, ours, theirs := BaseTree(o, o.commits[pick]), TreeAt(o, HeadOf(r).value), TreeAt(o, pick);
             Clashes(base, ours, theirs) || TreeOf(s.index) == MergedTree(base, ours, theirs)
    requires var st := Loaded(r.rebase.value);
             && st.currentStep <= j < |st.todoSteps|
             && if j == st.currentStep && ReadStep(st.todoSteps[j]) == Skip then NextIs(r, Pick(pick))
                else
                  && ReadStep(st.todoSteps[j]) == Pick(pick)
                  && forall k :: st.currentStep <= k < j ==> ReadStep(st.todoSteps[k]) == Skip
    ensures 0 <= Loaded(r.rebase.value).currentStep
    ensures var next := Loaded(r.rebase.value).(currentStep := j + 1);
            var r' := Stepped(h, s, r.objects.commits[pick], committer, now, next);
            r'.collision.None? ==>
              r'.rebase.Some? && HeadOf(r').Some? && exists picks :: ChainReached(r', picks)
  {
    hide Loaded, StoreOk, Chain, ParentsKnown, Clashes, MergedTree, TreeOf, Hexadecimal, Consistent, TreeOk, Reached,
         ReadStep, NextPick, Committed, Saved, BaseTree, TreeAt, PickClashes, Entries;
    var picks :| ChainReached(r, picks);
    var st := Loaded(r.rebase.value);
    var next := st.(currentStep := j + 1);
    var r' := Stepped(h, s, r.objects.commits[pick], committer, now, next);
    SavedStep(r.rebase.value, next, j + 1);
    if r'.collision.None? {
      ChainGrows(h, r, s, pick, committer, now, st.onto, picks);
      if j == st.currentStep && ReadStep(st.todoSteps[j]) == Skip {
        ReachedSkip(picks, st.todoSteps, j, pick);
      } else {
        ReachedPick(picks, st.todoSteps, st.currentStep, j, pick);
      }
      assert ChainReached(r', picks + [pick]);
    }
  }

  lemma NewReplays(h: Hashing, o: Objects, o': Objects, c: Id, prev: Id, pick: Id, tree: Tree)
    requires StoreOk(h, o) && ParentsKnown(o) && Extends(o, o')
    requires prev in o.commits && pick in o.commits && c in o'.commits && TreeAt(o', c) == tree
    requires var new', original := o'.commits[c], o.commits[pick];
             && new'.parents == [prev] && new'.message == original.message
             && new'.authorName == original.authorName && new'.authorEmail == original.authorEmail
             && new'.authorTime == original.authorTime
    requires var base, ours, theirs := BaseTree(o, o.commits[pick]), TreeAt(o, prev), TreeAt(o, pick);
             Clashes(base, ours, theirs) || tree == MergedTree(base, ours, theirs)
    ensures Replays(o', c, prev, pick)
  {
    hide Clashes, MergedTree, StoreOk;
    ExtendsTreeAt(h, o, o', prev);
    ExtendsTreeAt(h, o, o', pick);
    if o.commits[pick].parents != [] {
      ExtendsTreeAt(h, o, o', o.commits[pick].parents[0]);
    }
  }

  /** Saving after a commit keeps the rebase in progress, one step further. */
  lemma SteppedInProgress(h: Hashing, s: Repo, original: Commit, committer: string, now: int, state: RebaseState)
    requires Hexadecimal(h) && Consistent(h, s) && ParentsKnown(s.objects) && TreeOk(s.objects, TreeOf(s.index))
    requires s.rebase.Some? && HeadOf(s).Some?
    requires var st := Loaded(s.rebase.value);
             && 0 <= st.currentStep && state == st.(currentStep := state.currentStep)
             && 0 <= state.currentStep <= |st.todoSteps|
             && st.origHead in s.objects.commits && st.onto in s.objects.commits
    ensures var r' := Stepped(h, s, original, committer, now, state);
            && InProgress(h, r') && !Paused(r') && Grows(s, r')
            && Loaded(r'.rebase.value) == state && Looping(h, r', state)
  {
    hide Loaded, StoreOk, ParentsKnown, Hexadecimal, Saved, TreeOf, IsCollision, PutTree, PutCommit;
    CommittedConsistent(h, s, original, committer, now);
    SavedStep(s.rebase.value, state, state.currentStep);
  }

  /** A clean pick, applied and committed. */
  lemma CleanPickKeeps(h: Hashing, r: Repo, state: RebaseState, plan: MergePlan, hash: Id, committer: string, now: int)
    requires Hexadecimal(h) && Looping(h, r, state) && state.currentStep < |state.todoSteps|
    requires ReadStep(state.todoSteps[state.currentStep]) == Pick(hash) && hash in r.objects.commits
    requires var o, original := r.objects, r.objects.commits[hash];
             Implements(plan, BaseTree(o, original), TreeAt(o, HeadOf(r).value), TreeAt(o, hash))
    requires plan.conflicts == map[]
    ensures var next := state.(currentStep := state.currentStep + 1);
            var r' := Stepped(h, Applied(r, plan), r.objects.commits[hash], committer, now, next);
            && Looping(h, r', next) && Grows(r, r')
            && (r'.collision.None? && OnTrack(r) ==> OnTrack(r'))
  {
    hide StoreOk, Loaded, MergeText, Applied, Implements, ParentsKnown, Chain, BaseTree, TreeAt, ReadStep,
         Hexadecimal, NextPick, Reached, Committed, Saved, TreeOf, Entries, MergedTree, Clashes, IsCollision, TreeOk;
    var o, original := r.objects, r.objects.commits[hash];
    var base, ours, theirs := BaseTree(o, original), TreeAt(o, HeadOf(r).value), TreeAt(o, hash);
    var s := Applied(r, plan);
    BaseTreeOk(h, o, original);
    TreeAtOk(h, o, HeadOf(r).value);
    TreeAtOk(h, o, hash);
    AppliedConsistent(h, r, plan, base, ours, theirs);
    AppliedRest(r, plan);
    var next := state.(currentStep := state.currentStep + 1);
    SteppedInProgress(h, s, original, committer, now, next);
    CommittedRest(h, s, original, committer, now);
    if Stepped(h, s, original, committer, now, next).collision.None? && OnTrack(r) {
      EntriesTree(ours);
      ApplyMergesClean(r, plan, base, ours, theirs);
      EntriesTree(MergedTree(base, ours, theirs));
      EntriesResolved(MergedTree(base, ours, theirs));
      PickReached(h, r, s, hash, committer, now, state.currentStep);
      CommittedIndex(h, s, original, committer, now);
    }
  }

  /** A commit touches objects and the branch only. */
  lemma CommittedRest(h: Hashing, s: Repo, original: Commit, committer: string, now: int)
    ensures var s' := Committed(h, s, original, committer, now);
            s'.index == s.index && s'.worktree == s.worktree && s'.rebase == s.rebase && s'.branch == s.branch
  {
  }

  lemma EntriesResolved(tree: Tree)
    ensures AllResolved(Entries(tree))
  {
  }

  lemma EntriesTree(tree: Tree)
    ensures TreeOf(Entries(tree)) == tree
  {
  }

  lemma ResolvedEntries(index: Index)
    requires AllResolved(index)
    ensures index == Entries(TreeOf(index))
  {
  }

  /** After a commit the index is the new HEAD's tree. */
  lemma CommittedIndex(h: Hashing, s: Repo, original: Commit, committer: string, now: int)
    requires Hexadecimal(h) && Consistent(h, s) && AllResolved(s.index) && ParentsKnown(s.objects)
    requires s.branch in s.branches && Committed(h, s, original, committer, now).collision.None?
    ensures var s' := Committed(h, s, original, committer, now);
            HeadOf(s').Some? && s'.index == Entries(TreeAt(s'.objects, HeadOf(s').value))
  {
    hide StoreOk, ParentsKnown, Hexadecimal, IsCollision, PutTree, PutCommit;
    IndexTreeOk(s.objects, s.index);
    CommittedConsistent(h, s, original, committer, now);
    CommittedRest(h, s, original, committer, now);
    ResolvedEntries(s.index);
  }

  /** Resuming after all conflicts were resolved. */
  lemma ResumeKeeps(h: Hashing, r: Repo, hash: Id, committer: string, now: int)
    requires Hexadecimal(h) && InProgress(h, r) && Paused(r) && AllResolved(r.index)
    requires hash == Strings.Trim(r.rebase.value[StoppedSha]) && hash in r.objects.commits
    ensures var st := Loaded(r.rebase.value);
            var next := st.(currentStep := st.currentStep + 1);
            var r' := Stepped(h, r, r.objects.commits[hash], committer, now, next);
            && Looping(h, r', next) && Grows(r, r')
            && (r'.collision.None? && OnTrack(r) ==> OnTrack(r'))
  {
    hide StoreOk, Loaded, ParentsKnown, Chain, NextPick, Reached, BaseTree, TreeAt, ReadStep, Hexadecimal, Committed,
         Saved, Clashes, MergedTree, Entries, IsCollision, TreeOk, TreeOf;
    var st := Loaded(r.rebase.value);
    var next := st.(currentStep := st.currentStep + 1);
    IndexTreeOk(r.objects, r.index);
    SteppedInProgress(h, r, r.objects.commits[hash], committer, now, next);
    CommittedRest(h, r, r.objects.commits[hash], committer, now);
    if Stepped(h, r, r.objects.commits[hash], committer, now, next).collision.None? && OnTrack(r) {
      NextIsFirst(r, hash);
      PickReached(h, r, r, hash, committer, now, st.currentStep);
      CommittedIndex(h, r, r.objects.commits[hash], committer, now);
    }
  }

  /** The line of a pause is the pick itself or a skipped one before it. */
  lemma NextIsFirst(r: Repo, pick: Id)
    requires NextIs(r, Pick(pick))
    ensures r.rebase.Some?
    ensures var st := Loaded(r.rebase.value);
            && 0 <= st.currentStep < |st.todoSteps|
            && (ReadStep(st.todoSteps[st.currentStep]) == Skip || ReadStep(st.todoSteps[st.currentStep]) == Pick(pick))
  {
    hide Loaded, ReadStep;
  }

  // ---------- What the user does in between ----------

  /** Editing or deleting a tracked file keeps a rebase in progress, and on track. */
  lemma EditKeeps(h: Hashing, r: Repo, path: Path, content: Content)
    requires InProgress(h, r) && path in r.index
    ensures var r' := r.(worktree := r.worktree[path := content]);
            InProgress(h, r') && (OnTrack(r) ==> OnTrack(r'))
  {
    hide StoreOk, ParentsKnown, Loaded, Chain, IsCollision, ChainReached, NextPick;
    if OnTrack(r) {
      SameReached(r, r.(worktree := r.worktree[path := content]));
    }
  }

  lemma DeleteKeeps(h: Hashing, r: Repo, path: Path)
    requires InProgress(h, r)
    ensures var r' := r.(worktree := r.worktree - {path});
            InProgress(h, r') && (OnTrack(r) ==> OnTrack(r'))
  {
    hide StoreOk, ParentsKnown, Loaded, Chain, IsCollision, ChainReached, NextPick;
    if OnTrack(r) {
      SameReached(r, r.(worktree := r.worktree - {path}));
    }
  }

  lemma AddedConsistent(h: Hashing, r: Repo, path: Path)
    requires Hexadecimal(h) && StoreOk(h, r.objects) && ParentsKnown(r.objects) && IndexOk(r.objects, r.index)
    requires path in r.worktree && r.worktree.Keys <= r.index.Keys + {path}
    requires r.collision.Some? ==> IsCollision(h, r.objects, r.collision.value)
    ensures var r' := Added(h, r, path);
            && Consistent(h, r') && ParentsKnown(r'.objects) && Grows(r, r')
            && (TreeOk(r.objects, TreeOf(r.index)) ==> TreeOk(r'.objects, TreeOf(r'.index)))
  {
    hide StoreOk, ParentsKnown, Hexadecimal, IsCollision, WithBlob, BlobCollision, IndexOk, TreeOk, TreeOf, Extends;
    var content := r.worktree[path];
    BlobWritten(h, r.objects, content);
    BlobCollides(h, r.objects, content);
    var r' := Added(h, r, path);
    IndexAdded(r.objects, r'.objects, r.index, path, h.blob(content));
    if r.collision.Some? {
      CollisionKept(h, r.objects, r'.objects, r.collision.value);
    } else if BlobCollision(h, r.objects, content).Some? {
      CollisionKept(h, r.objects, r'.objects, BlobCollision(h, r.objects, content).value);
    }
  }

  lemma IndexAdded(o: Objects, o': Objects, index: Index, path: Path, hash: Hash)
    requires Extends(o, o') && IndexOk(o, index) && hash in o'.blobs && hash != ""
    ensures IndexOk(o', index[path := IndexEntry(hash, 0)])
    ensures TreeOk(o, TreeOf(index)) ==> TreeOk(o', TreeOf(index[path := IndexEntry(hash, 0)]))
  {
    assert TreeOf(index[path := IndexEntry(hash, 0)]) == TreeOf(index)[path := hash];
  }

  /** Staging a file, tracked or just created, keeps a rebase in progress, and a paused one on track. */
  lemma AddKeeps(h: Hashing, r: Repo, worktree: Worktree, path: Path)
    requires Hexadecimal(h) && InProgress(h, r) && path in worktree && worktree.Keys <= r.index.Keys + {path}
    ensures var r' := Added(h, r.(worktree := worktree), path);
            InProgress(h, r') && Grows(r, r') && (Paused(r) && OnTrack(r) ==> OnTrack(r'))
  {
    hide StoreOk, ParentsKnown, Loaded, Chain, Hexadecimal, ReadStep, Clashes, IsCollision, TreeOk, IndexOk, TreeOf,
         WithBlob, BlobCollision;
    AddedConsistent(h, r.(worktree := worktree), path);
    AddedTracked(h, r, worktree, path);
  }

  lemma AddedTracked(h: Hashing, r: Repo, worktree: Worktree, path: Path)
    requires InProgress(h, r) && path in worktree && Grows(r, Added(h, r.(worktree := worktree), path))
    ensures var r' := Added(h, r.(worktree := worktree), path);
            && HeadOf(r') == HeadOf(r) && r'.rebase == r.rebase
            && (var st := Loaded(r.rebase.value); st.origHead in r'.objects.commits && st.onto in r'.objects.commits)
            && (Paused(r) && OnTrack(r) ==> OnTrack(r'))
  {
    hide StoreOk, ParentsKnown, Loaded, Chain, ReadStep, Reached, NextPick, Clashes, IsCollision, TreeOf;
    var r' := Added(h, r.(worktree := worktree), path);
    if Paused(r) && OnTrack(r) {
      var st := Loaded(r.rebase.value);
      InProgressStore(h, r);
      var picks :| ChainReached(r, picks);
      ExtendsChain(h, r.objects, r'.objects, st.onto, HeadOf(r).value, picks);
      assert ChainReached(r', picks);
      ClashesStay(h, r.objects, r'.objects, HeadOf(r).value, Strings.Trim(r.rebase.value[StoppedSha]));
    }
  }

  lemma InProgressStore(h: Hashing, r: Repo)
    requires InProgress(h, r)
    ensures StoreOk(h, r.objects) && ParentsKnown(r.objects)
  {
    hide Loaded;
  }

  lemma ClashesStay(h: Hashing, o: Objects, o': Objects, head: Id, pick: Id)
    requires StoreOk(h, o) && ParentsKnown(o) && Extends(o, o') && head in o.commits && PickClashes(o, head, pick)
    ensures PickClashes(o', head, pick)
  {
    hide Clashes;
    ExtendsTreeAt(h, o, o', head);
    ExtendsTreeAt(h, o, o', pick);
    if o.commits[pick].parents != [] {
      ExtendsTreeAt(h, o, o', o.commits[pick].parents[0]);
    }
  }

  lemma RemoveKeeps(h: Hashing, r: Repo, path: Path)
    requires InProgress(h, r)
    ensures var r' := Removed(r, path);
            InProgress(h, r') && (Paused(r) && OnTrack(r) ==> OnTrack(r'))
  {
    hide StoreOk, ParentsKnown, Loaded, Chain, IsCollision, ChainReached, NextPick, TreeOf, TreeOk, IndexOk,
         PickClashes;
    IndexRemoved(r.objects, r.index, path);
    if OnTrack(r) {
      SameReached(r, Removed(r, path));
    }
  }

  lemma IndexRemoved(o: Objects, index: Index, path: Path)
    ensures IndexOk(o, index) ==> IndexOk(o, index - {path})
    ensures TreeOk(o, TreeOf(index)) ==> TreeOk(o, TreeOf(index - {path}))
  {
    assert TreeOf(index - {path}) == TreeOf(index) - {path};
  }

  // ---------- Resetting ----------

  /** The working files and the index are exactly the commit's tree. */
  ghost predicate MatchesCommit(r: Repo, id: Id) {
    r.index == Entries(TreeAt(r.objects, id)) && r.worktree == Contents(r.objects, TreeAt(r.objects, id))
  }

  /** A hard reset matches the commit, provided that every file in the way is tracked. */
  lemma ResetMatches(h: Hashing, r: Repo, id: Id)
    requires StoreOk(h, r.objects) && id in r.objects.commits && r.worktree.Keys <= r.index.Keys
    requires r.collision.Some? ==> IsCollision(h, r.objects, r.collision.value)
    ensures var r' := ResetTo(r, id);
            && MatchesCommit(r', id) && Consistent(h, r') && AllResolved(r'.index) && HeadOf(r') == Some(id)
            && TreeOk(r'.objects, TreeOf(r'.index))
  {
    hide IsCollision, StoreOk, TreeOf, Entries, Contents, TreeOk, IndexOk, AllResolved;
    var tree := TreeAt(r.objects, id);
    TreeStored(h, r.objects, id);
    TreeAtOk(h, r.objects, id);
    FilesReplaced(r.worktree, r.index, r.objects, tree);
    EntriesTree(tree);
    EntriesResolved(tree);
    EntriesOk(r.objects, tree);
  }

  lemma TreeStored(h: Hashing, o: Objects, id: Id)
    requires StoreOk(h, o) && id in o.commits
    ensures o.commits[id].tree in o.trees
  {
  }

  lemma FilesReplaced(files: Worktree, index: Index, o: Objects, tree: Tree)
    requires files.Keys <= index.Keys
    ensures (files - (index.Keys - tree.Keys)) + Contents(o, tree) == Contents(o, tree)
    ensures Contents(o, tree).Keys == tree.Keys
  {
  }

  lemma EntriesOk(o: Objects, tree: Tree)
    requires TreeOk(o, tree)
    ensures IndexOk(o, Entries(tree)) && Entries(tree).Keys == tree.Keys
  {
  }
}
