/** The rebase commands over a repository: start, continue and abort. */
module RebaseCommands {
  import opened Sequences
  import opened Wrappers
  import opened CommitGraph
  import opened RevWalk
  import opened RebaseLists
  import opened TreeMerge
  import opened RebaseStateFiles
  import opened RepositoryModel
  import opened SequencerInvariant
  import opened ReplayMachine
  import Merge3
  import opened Edits
  import opened MergeConflicts
  import Strings
  import Lines

  datatype Refusal = RebaseUnderway | DirtyWorkdir | NoHead | NoBranch | NoBase | BrokenHistory | UpToDate

  datatype StartResult = Refused(why: Refusal) | Ran(outcome: RunOutcome)

  // ---------- Continue ----------

  method HasUnmerged(index: Index) returns (r: bool)
    ensures r == !AllResolved(index)
  {
    var rest := index.Keys;
    while rest != {}
      invariant rest <= index.Keys
      invariant forall p :: p in index.Keys - rest ==> index[p].stage == 0
      decreases rest
    {
      var path :| path in rest;
      if index[path].stage != 0 {
        return true;
      }
      rest := rest - {path};
    }
    return false;
  }

  /** The same rebase: branch, target, origin and todo list are as before. */
  ghost predicate SameRebase(files: Files, files': Files) {
    var st, st' := Loaded(files), Loaded(files');
    && st'.headName == st.headName && st'.onto == st.onto && st'.origHead == st.origHead
    && st'.todoSteps == st.todoSteps && st'.message == st.message
    && st.currentStep <= st'.currentStep
  }

  /** HEAD is a chain above `onto` of picks that follow the whole list. */
  ghost predicate ReplayedLines(r: Repo, onto: Id, todo: seq<string>) {
    HeadOf(r).Some? && exists picks :: Chain(r.objects, onto, HeadOf(r).value, picks) && Follows(picks, todo)
  }

  ghost predicate Completed(r: Repo, st: RebaseState) {
    ReplayedLines(r, st.onto, st.todoSteps)
  }

  /** Only the current branch may have moved. */
  ghost predicate SameOtherRefs(r: Repo, r': Repo) {
    && r'.branch == r.branch && r'.branches.Keys == r.branches.Keys
    && forall b :: b in r.branches && b != r.branch ==> r'.branches[b] == r.branches[b]
  }

  /** What a call of continue guarantees, whatever its outcome. */
  ghost predicate Continued(h: Hashing, r: Repo, r': Repo, out: RunOutcome)
    requires r.rebase.Some?
  {
    && Grows(r, r') && SameOtherRefs(r, r')
    && (out == Done <==> r'.rebase.None?)
    && Justified(r, r', out)
    && if out == Done then
         && Consistent(h, r')
         && (r'.collision.None? && OnTrack(r) ==> Completed(r', Loaded(r.rebase.value)))
       else
         InProgress(h, r') && Since(r, r')
  }

  /** Each outcome is reported exactly when there is reason to. */
  ghost predicate Justified(r: Repo, r': Repo, out: RunOutcome)
    requires r.rebase.Some?
  {
    match out
    case Done => Paused(r) ==> AllResolved(r.index)
    case Stopped(hash) =>
      && NextIs(r', Pick(hash)) && HeadOf(r').Some? && PickClashes(r'.objects, HeadOf(r').value, hash)
      && exists s, plan :: Went(r, s) && PausesAt(s, r', plan, hash)
    case Unmerged => Paused(r) && !AllResolved(r.index) && r' == r
    case NoRebase => false
    case ResetFailed => false
    case BadTodo => Went(r, r') && NextIs(r', BadStep)
    case UnknownCommit(hash) =>
      && hash !in r'.objects.commits
      && ((r' == r && Paused(r) && AllResolved(r.index) && hash == Strings.Trim(r.rebase.value[StoppedSha]))
          || (Went(r, r') && NextIs(r', Pick(hash))))
  }

  /** From `r` to `r'` the rebase went on; if it was paused, past the saved step. */
  ghost predicate Went(r: Repo, r': Repo)
    requires r.rebase.Some?
  {
    && Since(r, r')
    && (Paused(r) ==> AllResolved(r.index) && Loaded(r.rebase.value).currentStep < Loaded(r'.rebase.value).currentStep)
  }

  /** `r'` is `s` with the merge of a clashing pick applied and the marker written. */
  ghost predicate PausesAt(s: Repo, r': Repo, plan: MergePlan, hash: Id) {
    && s.rebase.Some? && !Paused(s) && HeadOf(s).Some? && hash in s.objects.commits
    && plan.conflicts != map[] && r' == PausedAt(s, plan, hash)
    && var o, head := s.objects, HeadOf(s).value;
       Implements(plan, BaseTree(o, o.commits[hash]), TreeAt(o, head), TreeAt(o, hash))
  }

  /** From `r` to `r'` the rebase went on, and stayed on track if it was and nothing collided. */
  ghost predicate Since(r: Repo, r': Repo)
    requires r.rebase.Some?
  {
    && Grows(r, r') && SameOtherRefs(r, r')
    && r'.rebase.Some? && SameRebase(r.rebase.value, r'.rebase.value)
    && (r'.collision.None? && OnTrack(r) ==> OnTrack(r'))
  }

  lemma SinceTrans(r: Repo, r': Repo, r'': Repo)
    requires r.rebase.Some? && Since(r, r') && Since(r', r'')
    ensures Since(r, r'')
  {
    hide Loaded, OnTrack, Extends;
    GrowsTrans(r, r', r'');
  }

  lemma SinceSelf(r: Repo)
    requires r.rebase.Some?
    ensures Since(r, r)
  {
    hide Loaded, OnTrack;
  }

  lemma WentOn(r: Repo, r': Repo, r'': Repo)
    requires r.rebase.Some? && Went(r, r') && Since(r', r'')
    ensures Went(r, r'')
  {
    hide Loaded, OnTrack, Extends;
    SinceTrans(r, r', r'');
  }

  lemma UnmergedKeeps(h: Hashing, r: Repo)
    requires InProgress(h, r) && Paused(r) && !AllResolved(r.index)
    ensures Continued(h, r, r, Unmerged)
  {
    hide Loaded, OnTrack, InProgress;
    StillUnderway(h, r);
    SinceSelf(r);
  }

  lemma StillUnderway(h: Hashing, r: Repo)
    requires InProgress(h, r)
    ensures r.rebase.Some? && HeadOf(r).Some? && StoreOk(h, r.objects) && 0 <= Loaded(r.rebase.value).currentStep
  {
    hide Loaded, StoreOk;
  }

  method RebaseContinue(repo: Repository, committer: string, now: int) returns (out: RunOutcome)
    requires Hexadecimal(repo.h)
    requires repo.rebase.Some? ==> InProgress(repo.h, repo.State())
    modifies repo
    ensures old(repo.rebase).None? ==> out == NoRebase && repo.State() == old(repo.State())
    ensures old(repo.rebase).Some? ==> Continued(repo.h, old(repo.State()), repo.State(), out)
    ensures old(repo.rebase).Some? ==>
              && 0 <= Loaded(old(repo.rebase).value).currentStep
              && (repo.State(), out) == ContinueFrom(repo.h, old(repo.State()), committer, now)
  {
    hide InProgress, OnTrack, Loaded, Extends, Looping, Hexadecimal, Committed, Saved, Since, Went, Continued,
         StoreOk, AllResolved, Stepped;
    if repo.rebase.None? {
      return NoRebase;
    }
    ghost var start := repo.State();
    StillUnderway(repo.h, start);
    var state := Loaded(repo.rebase.value);
    if StoppedSha in repo.rebase.value {
      var unmerged := HasUnmerged(repo.index);
      if unmerged {
        UnmergedKeeps(repo.h, start);
        return Unmerged;
      }
      var stopped := Strings.Trim(repo.rebase.value[StoppedSha]);
      if stopped !in repo.objects.commits {
        NothingHappened(repo.h, start, stopped);
        return UnknownCommit(stopped);
      }
      Resumes(repo.h, start, stopped, committer, now);
      ghost var resumed := state.(currentStep := state.currentStep + 1);
      var _ := repo.CommitRebaseStep(repo.objects.commits[stopped], committer, now);
      var files := repo.rebase.value - {StoppedSha};
      state := state.(currentStep := state.currentStep + 1);
      files := SaveRebaseState(state, files);
      repo.rebase := Some(files);
      assert repo.State() == Stepped(repo.h, start, start.objects.commits[stopped], committer, now, resumed) by {
        SteppedIs(repo.h, start, start.objects.commits[stopped], committer, now, resumed, repo.State());
      }
    } else {
      LoopBegins(repo.h, start);
    }
    out := ReplayPicks(repo, state, committer, now, start);
  }

  lemma SteppedIs(h: Hashing, s: Repo, original: Commit, committer: string, now: int, state: RebaseState, r': Repo)
    requires s.rebase.Some? && 0 <= state.currentStep
    requires r' ==
             Committed(h, s, original, committer, now).(rebase := Some(Saved(state, s.rebase.value - {StoppedSha})))
    ensures r' == Stepped(h, s, original, committer, now, state)
  {
    hide Committed, Saved;
  }

  lemma PausedAtIs(r: Repo, plan: MergePlan, hash: Id, r': Repo)
    requires r.rebase.Some?
    requires r' == Applied(r, plan).(rebase := Some(r.rebase.value[StoppedSha := hash]))
    ensures r' == PausedAt(r, plan, hash)
  {
    hide Applied;
  }

  lemma NothingHappened(h: Hashing, r: Repo, stopped: Id)
    requires InProgress(h, r) && Paused(r) && AllResolved(r.index)
    requires stopped == Strings.Trim(r.rebase.value[StoppedSha]) && stopped !in r.objects.commits
    ensures Continued(h, r, r, UnknownCommit(stopped))
  {
    hide Loaded, OnTrack, InProgress;
    StillUnderway(h, r);
    SinceSelf(r);
  }

  lemma Resumes(h: Hashing, r: Repo, stopped: Id, committer: string, now: int)
    requires Hexadecimal(h) && InProgress(h, r) && r.rebase.Some? && StoppedSha in r.rebase.value
    requires AllResolved(r.index)
    requires stopped == Strings.Trim(r.rebase.value[StoppedSha]) && stopped in r.objects.commits
    ensures var st := Loaded(r.rebase.value);
            && 0 <= st.currentStep
            && var next := st.(currentStep := st.currentStep + 1);
               var r' := Stepped(h, r, r.objects.commits[stopped], committer, now, next);
               Looping(h, r', next) && Went(r, r')
  {
    hide Loaded, StoreOk, Hexadecimal, OnTrack, Committed, ParentsKnown, Chain, AllResolved, Saved,
         Strings.Trim, Since;
    ResumeKeeps(h, r, stopped, committer, now);
    SteppedSince(h, r, Loaded(r.rebase.value), r, r.objects.commits[stopped], committer, now);
    ResumedStep(h, r, r.objects.commits[stopped], committer, now);
  }

  lemma ResumedStep(h: Hashing, r: Repo, original: Commit, committer: string, now: int)
    requires r.rebase.Some? && 0 <= Loaded(r.rebase.value).currentStep
    ensures var st := Loaded(r.rebase.value);
            var next := st.(currentStep := st.currentStep + 1);
            var r' := Stepped(h, r, original, committer, now, next);
            r'.rebase.Some? && Loaded(r'.rebase.value) == next
  {
    hide Loaded, Saved, Committed;
    var st := Loaded(r.rebase.value);
    SavedStep(r.rebase.value, st.(currentStep := st.currentStep + 1), st.currentStep + 1);
  }

  lemma LoopBegins(h: Hashing, r: Repo)
    requires InProgress(h, r) && r.rebase.Some? && StoppedSha !in r.rebase.value
    ensures Looping(h, r, Loaded(r.rebase.value)) && Went(r, r)
  {
    hide Loaded, StoreOk, ParentsKnown, OnTrack;
    SinceSelf(r);
  }

  lemma StepFacts(h: Hashing, r: Repo, state: RebaseState)
    requires Looping(h, r, state)
    ensures r.rebase.Some? && StoppedSha !in r.rebase.value && HeadOf(r).Some?
    ensures 0 <= state.currentStep <= |state.todoSteps|
    ensures r.rebase.value - {StoppedSha} == r.rebase.value
  {
    hide Loaded, StoreOk;
  }

  lemma SkipKeeps(h: Hashing, r: Repo, state: RebaseState)
    requires Looping(h, r, state) && 0 <= state.currentStep < |state.todoSteps|
    requires ReadStep(state.todoSteps[state.currentStep]) == Skip
    ensures Looping(h, r, state.(currentStep := state.currentStep + 1))
  {
    hide Loaded, StoreOk, InProgress, ReadStep;
  }

  lemma LoopStops(h: Hashing, start: Repo, r: Repo, state: RebaseState, out: RunOutcome)
    requires Looping(h, r, state) && start.rebase.Some? && Went(start, r) && 0 <= state.currentStep < |state.todoSteps|
    requires match ReadStep(state.todoSteps[state.currentStep])
             case Skip => false
             case BadStep => out == BadTodo
             case Pick(hash) => hash !in r.objects.commits && out == UnknownCommit(hash)
    ensures Continued(h, start, r, out)
  {
    hide Loaded, OnTrack, ReadStep, StoreOk, ParentsKnown;
    NextPickIs(state.todoSteps, Loaded(r.rebase.value).currentStep, state.currentStep);
  }

  lemma PickFacts(h: Hashing, r: Repo, state: RebaseState, hash: Id)
    requires Looping(h, r, state) && hash in r.objects.commits && HeadOf(r).Some?
    ensures var o := r.objects;
            && HasHashes(BaseTree(o, o.commits[hash])) && TreeOk(o, BaseTree(o, o.commits[hash]))
            && HasHashes(TreeAt(o, HeadOf(r).value)) && TreeOk(o, TreeAt(o, HeadOf(r).value))
            && HasHashes(TreeAt(o, hash)) && TreeOk(o, TreeAt(o, hash))
  {
    hide Loaded, TreeAt, BaseTree, HasHashes, TreeOk, StoreOk;
    BaseTreeOk(h, r.objects, r.objects.commits[hash]);
    TreeAtOk(h, r.objects, HeadOf(r).value);
    TreeAtOk(h, r.objects, hash);
  }

  /** Every version a plan takes can be read. */
  lemma PlanReadable(r: Repo, plan: MergePlan, base: Tree, ours: Tree, theirs: Tree)
    requires Implements(plan, base, ours, theirs) && TreeOk(r.objects, ours) && TreeOk(r.objects, theirs)
    ensures plan.clean.Keys !! plan.conflicts.Keys
    ensures forall p :: p in plan.clean ==> plan.clean[p] in r.objects.blobs
  {
    hide Implements;
    DisjointPlan(plan, base, ours, theirs);
    forall p | p in plan.clean
      ensures plan.clean[p] in r.objects.blobs
    {
      CleanIsVersion(plan, base, ours, theirs, p);
    }
  }

  lemma Pauses(h: Hashing, start: Repo, r: Repo, state: RebaseState, plan: MergePlan, hash: Id, r': Repo)
    requires Hexadecimal(h) && Looping(h, r, state) && 0 <= state.currentStep < |state.todoSteps|
    requires ReadStep(state.todoSteps[state.currentStep]) == Pick(hash) && hash in r.objects.commits && HeadOf(r).Some?
    requires var o, original := r.objects, r.objects.commits[hash];
             Implements(plan, BaseTree(o, original), TreeAt(o, HeadOf(r).value), TreeAt(o, hash))
    requires plan.conflicts != map[] && start.rebase.Some? && Went(start, r) && r.rebase.Some?
    requires r' == PausedAt(r, plan, hash)
    ensures Continued(h, start, r', Stopped(hash))
  {
    hide Hexadecimal, Loaded, InProgress, OnTrack, Implements, ReadStep, BaseTree, TreeAt, Applied, Extends;
    PauseKeeps(h, r, state, plan, hash);
    AppliedRest(r, plan);
    MarkerKeepsState(r.rebase.value, hash);
    SameTodo(h, r, state);
    PausedSince(r, r', plan, hash, state);
    SinceTrans(start, r, r');
    PauseIsNext(h, r, state, plan, hash, r');
    assert PausesAt(r, r', plan, hash);
  }

  /** The marker names the next pick of the list, and this clashes with HEAD. */
  lemma PauseIsNext(h: Hashing, r: Repo, state: RebaseState, plan: MergePlan, hash: Id, r': Repo)
    requires Looping(h, r, state) && 0 <= state.currentStep < |state.todoSteps| && r.rebase.Some?
    requires ReadStep(state.todoSteps[state.currentStep]) == Pick(hash) && hash in r.objects.commits && HeadOf(r).Some?
    requires var o, original := r.objects, r.objects.commits[hash];
             Implements(plan, BaseTree(o, original), TreeAt(o, HeadOf(r).value), TreeAt(o, hash))
    requires plan.conflicts != map[] && r' == PausedAt(r, plan, hash)
    ensures NextIs(r', Pick(hash)) && HeadOf(r') == HeadOf(r) && PickClashes(r'.objects, HeadOf(r').value, hash)
  {
    hide StoreOk, Loaded, OnTrack, Implements, ReadStep, BaseTree, TreeAt, Applied, ParentsKnown, Clashes,
         IsCollision;
    AppliedRest(r, plan);
    MarkerKeepsState(r.rebase.value, hash);
    ConflictsAreClashes(plan, BaseTree(r.objects, r.objects.commits[hash]), TreeAt(r.objects, HeadOf(r).value),
                        TreeAt(r.objects, hash));
    NextPickIs(state.todoSteps, Loaded(r.rebase.value).currentStep, state.currentStep);
  }

  lemma SameTodo(h: Hashing, r: Repo, state: RebaseState)
    requires Looping(h, r, state)
    ensures r.rebase.Some? && Loaded(r.rebase.value).todoSteps == state.todoSteps
  {
    hide Loaded, StoreOk, ParentsKnown;
  }

  lemma PausedSince(r: Repo, r': Repo, plan: MergePlan, hash: Id, state: RebaseState)
    requires r.rebase.Some? && r' == PausedAt(r, plan, hash) && Loaded(r.rebase.value).todoSteps == state.todoSteps
    requires Grows(r, r')
    requires OnTrack(r) ==> OnTrack(r')
    ensures Since(r, r')
  {
    hide Loaded, OnTrack, Applied;
    AppliedRest(r, plan);
    MarkerKeepsState(r.rebase.value, hash);
  }

  lemma Advances(
    h: Hashing, start: Repo, r: Repo, state: RebaseState, plan: MergePlan, hash: Id, committer: string, now: int)
    requires Hexadecimal(h) && Looping(h, r, state) && 0 <= state.currentStep < |state.todoSteps|
    requires ReadStep(state.todoSteps[state.currentStep]) == Pick(hash) && hash in r.objects.commits && HeadOf(r).Some?
    requires var o, original := r.objects, r.objects.commits[hash];
             Implements(plan, BaseTree(o, original), TreeAt(o, HeadOf(r).value), TreeAt(o, hash))
    requires plan.conflicts == map[] && start.rebase.Some? && Went(start, r) && r.rebase.Some?
    ensures Applied(r, plan).rebase == r.rebase
    ensures var next := state.(currentStep := state.currentStep + 1);
            var r' := Stepped(h, Applied(r, plan), r.objects.commits[hash], committer, now, next);
            Looping(h, r', next) && Went(start, r')
  {
    hide Hexadecimal, Loaded, InProgress, OnTrack, Implements, ReadStep, BaseTree, TreeAt, Applied, Extends,
         Committed, Saved;
    AppliedRest(r, plan);
    CleanPickKeeps(h, r, state, plan, hash, committer, now);
    LoopState(h, r, state);
    SteppedSince(h, r, state, Applied(r, plan), r.objects.commits[hash], committer, now);
    WentOn(start, r, Stepped(h, Applied(r, plan), r.objects.commits[hash], committer, now,
                             state.(currentStep := state.currentStep + 1)));
  }

  /** A committed and saved step carries the rebase on. */
  lemma SteppedSince(h: Hashing, r: Repo, state: RebaseState, s: Repo, original: Commit, committer: string, now: int)
    requires r.rebase.Some? && s.rebase == r.rebase && s.branch == r.branch && s.branches == r.branches
    requires r.branch in r.branches
    requires 0 <= Loaded(r.rebase.value).currentStep <= state.currentStep
    requires state == Loaded(r.rebase.value).(currentStep := state.currentStep)
    requires var next := state.(currentStep := state.currentStep + 1);
             var r' := Stepped(h, s, original, committer, now, next);
             && Grows(r, r')
             && (r'.collision.None? && OnTrack(r) ==> OnTrack(r'))
    ensures Since(r, Stepped(h, s, original, committer, now, state.(currentStep := state.currentStep + 1)))
  {
    hide Loaded, OnTrack, Extends, Saved;
    var next := state.(currentStep := state.currentStep + 1);
    SavedStep(r.rebase.value, next, next.currentStep);
  }

  lemma LoopState(h: Hashing, r: Repo, state: RebaseState)
    requires Looping(h, r, state)
    ensures r.rebase.Some? && r.branch in r.branches
    ensures 0 <= Loaded(r.rebase.value).currentStep <= state.currentStep
    ensures state == Loaded(r.rebase.value).(currentStep := state.currentStep)
  {
    hide Loaded, StoreOk, ParentsKnown;
  }

  lemma Finishes(h: Hashing, start: Repo, r: Repo, r': Repo, state: RebaseState)
    requires Looping(h, r, state) && start.rebase.Some? && Went(start, r)
    requires r' == r.(rebase := None) && state.currentStep >= |state.todoSteps|
    ensures Continued(h, start, r', Done)
  {
    hide Loaded, StoreOk, Extends, Chain;
    assert r'.objects == r.objects && Consistent(h, r');
    if r'.collision.None? && OnTrack(start) {
      TrackEnds(r, r', state);
    }
  }

  /** Nothing but skipped lines is left. */
  lemma TrackEnds(r: Repo, r': Repo, state: RebaseState)
    requires OnTrack(r) && r' == r.(rebase := None)
    requires var st := Loaded(r.rebase.value);
             && 0 <= st.currentStep && state == st.(currentStep := |st.todoSteps|)
             && forall j :: st.currentStep <= j < state.currentStep ==> ReadStep(state.todoSteps[j]) == Skip
    ensures Completed(r', Loaded(r.rebase.value))
  {
    hide Loaded, Chain, Reached, Follows, ReadStep, NextIs, PickClashes;
    var st := Loaded(r.rebase.value);
    var picks :| ChainReached(r, picks);
    ReachedEnd(picks, st.todoSteps, st.currentStep);
  }

  /** The replay loop. */
  method ReplayPicks(repo: Repository, state0: RebaseState, committer: string, now: int, ghost start: Repo)
    returns (out: RunOutcome)
    requires Hexadecimal(repo.h) && Looping(repo.h, repo.State(), state0)
    requires start.rebase.Some? && Went(start, repo.State())
    modifies repo
    ensures Continued(repo.h, start, repo.State(), out)
    ensures old(repo.rebase).Some? && 0 <= state0.currentStep
    ensures (repo.State(), out) == ReplayFrom(repo.h, old(repo.State()), state0, committer, now)
  {
    hide InProgress, OnTrack, Loaded, Extends, Looping, Hexadecimal, Committed, Saved, Since, Went, Continued,
         StoreOk, AllResolved, Stepped, Applied, Implements, ReadStep, BaseTree, TreeAt, PausedAt,
         ReplayFrom, PickConflicts, PickMerged;
    ghost var first := repo.State();
    var state := state0;
    StepFacts(repo.h, repo.State(), state);
    while state.currentStep < |state.todoSteps|
      invariant Looping(repo.h, repo.State(), state) && Went(start, repo.State())
      invariant 0 <= state.currentStep && repo.rebase.Some?
      invariant ReplayFrom(repo.h, first, state0, committer, now)
           == ReplayFrom(repo.h, repo.State(), state, committer, now)
      decreases |state.todoSteps| - state.currentStep
    {
      ghost var r := repo.State();
      StepFacts(repo.h, r, state);
      ReplayEnds(repo.h, r, state, committer, now);
      var step := ReadStep(state.todoSteps[state.currentStep]);
      if step == Skip {
        SkipKeeps(repo.h, r, state);
        ReplaySkips(repo.h, r, state, committer, now);
        state := state.(currentStep := state.currentStep + 1);
        continue;
      }
      if step == BadStep {
        LoopStops(repo.h, start, r, state, BadTodo);
        return BadTodo;
      }
      var hash := step.hash;
      if hash !in repo.objects.commits {
        LoopStops(repo.h, start, r, state, UnknownCommit(hash));
        return UnknownCommit(hash);
      }
      var original := repo.objects.commits[hash];
      PickFacts(repo.h, r, state, hash);
      var baseTree := BaseTree(repo.objects, original);
      var oursTree := TreeAt(repo.objects, HeadOf(repo.State()).value);
      var theirsTree := TreeAt(repo.objects, hash);
      var plan := MergeTrees(baseTree, oursTree, theirsTree);
      PlanReadable(r, plan, baseTree, oursTree, theirsTree);
      ReplayPlanned(repo.h, r, state, plan, hash, committer, now);
      var ok := repo.ApplyMergePlan(plan);
      assert ok;
      if plan.conflicts != map[] {
        repo.rebase := Some(repo.rebase.value[StoppedSha := hash]);
        PausedAtIs(r, plan, hash, repo.State());
        Pauses(repo.h, start, r, state, plan, hash, repo.State());
        return Stopped(hash);
      }
      Advances(repo.h, start, r, state, plan, hash, committer, now);
      ghost var next := state.(currentStep := state.currentStep + 1);
      var _ := repo.CommitRebaseStep(original, committer, now);
      state := state.(currentStep := state.currentStep + 1);
      var files := SaveRebaseState(state, repo.rebase.value);
      repo.rebase := Some(files);
      SteppedIs(repo.h, Applied(r, plan), original, committer, now, next, repo.State());
    }
    ghost var last := repo.State();
    StepFacts(repo.h, last, state);
    ReplayEnds(repo.h, last, state, committer, now);
    repo.rebase := None;
    Finishes(repo.h, start, last, repo.State(), state);
    return Done;
  }

  /**
   A pause shows the merge of the clashing pick with HEAD, path by path: the versions taken, the
   files deleted, and the text of the line merge, with stage 2 in the index, exactly at the clashes.
   */
  lemma StoppedShowsMerge(h: Hashing, r: Repo, r': Repo, hash: Id)
    requires r.rebase.Some? && OnTrack(r) && Continued(h, r, r', Stopped(hash))
    requires r'.collision.None?
    ensures hash in r'.objects.commits && HeadOf(r').Some?
    ensures var o, head := r'.objects, HeadOf(r').value;
            && PickClashes(o, head, hash)
            && forall p :: MergedAt(r', r', BaseTree(o, o.commits[hash]), TreeAt(o, head), TreeAt(o, hash), p)
  {
    hide Loaded, Extends, Implements, Applied, Clashes, MergedAt;
    var s, plan :| Went(r, s) && PausesAt(s, r', plan, hash);
    AppliedRest(s, plan);
    var o, head := s.objects, HeadOf(s).value;
    var base, ours, theirs := BaseTree(o, o.commits[hash]), TreeAt(o, head), TreeAt(o, hash);
    OnTrackIndex(s);
    ApplyMerges(s, plan, base, ours, theirs);
    ApplyMergesClean(s, plan, base, ours, theirs);
    forall p
      ensures MergedAt(r', r', base, ours, theirs, p)
    {
      SameMerge(s, r', plan, hash, base, ours, theirs, p);
    }
  }

  /** The line merge of the three versions conflicts: edits that touch one another disagree. */
  ghost predicate LinesConflict(o: Objects, base: Tree, ours: Tree, theirs: Tree, p: Path) {
    var b := Lines.Split(SafeRead(o, HashAt(base, p)), '\n');
    var eo := EditsOf(b, Lines.Split(SafeRead(o, HashAt(ours, p)), '\n'));
    var et := EditsOf(b, Lines.Split(SafeRead(o, HashAt(theirs, p)), '\n'));
    SomeGroupConflicts(b, eo, et)
  }

  ghost predicate HasLine(text: string, line: string) {
    line in Lines.Split(text, '\n')
  }

  /**
   A file that stopped the rebase has all three markers if its line merge conflicts; if it does
   not, there is none that our or their version has not as a line of its own.
   */
  lemma StoppedShowsMarkers(r: Repo, base: Tree, ours: Tree, theirs: Tree, p: Path, marker: string)
    requires MergedAt(r, r, base, ours, theirs, p) && OutcomeAt(base, ours, theirs, p) == Clash && marker in MARKERS
    ensures p in r.worktree && p in r.index && r.index[p].stage == 2
    ensures LinesConflict(r.objects, base, ours, theirs, p) ==> HasLine(r.worktree[p], marker)
    ensures HasLine(r.worktree[p], marker) ==>
              || LinesConflict(r.objects, base, ours, theirs, p)
              || HasLine(SafeRead(r.objects, HashAt(ours, p)), marker)
              || HasLine(SafeRead(r.objects, HashAt(theirs, p)), marker)
  {
    hide Merge3.MergeText, SomeGroupConflicts, Lines.Split, EditsOf, OutcomeAt;
    var o := r.objects;
    var b, x, y := SafeRead(o, HashAt(base, p)), SafeRead(o, HashAt(ours, p)), SafeRead(o, HashAt(theirs, p));
    ConflictIff(b, x, y);
    MarkersIff(b, x, y, marker);
  }

  /**
   A clash of hashes need not be one of lines: a file that both sides added, ours being empty, is
   a clash, and its text is simply theirs.
   */
  lemma CleanClash(o: Objects, base: Tree, ours: Tree, theirs: Tree, p: Path)
    requires p !in base && p in ours && p in theirs && ours[p] != theirs[p] && "" !in o.blobs
    requires SafeRead(o, ours[p]) == ""
    ensures OutcomeAt(base, ours, theirs, p) == Clash && !LinesConflict(o, base, ours, theirs, p)
    ensures ConflictText(o, Conflict(HashAt(base, p), ours[p], theirs[p])) == SafeRead(o, theirs[p])
  {
    hide Merge3.MergeText, SomeGroupConflicts, Lines.Split, EditsOf;
    Merge3.MergeUnchanged("", SafeRead(o, theirs[p]));
    ConflictIff("", "", SafeRead(o, theirs[p]));
  }

  lemma OnTrackIndex(s: Repo)
    requires OnTrack(s) && !Paused(s)
    ensures HeadOf(s).Some? && TreeOf(s.index) == TreeAt(s.objects, HeadOf(s).value)
  {
    hide Loaded, Chain;
    EntriesTree(TreeAt(s.objects, HeadOf(s).value));
  }

  lemma SameMerge(s: Repo, r': Repo, plan: MergePlan, hash: Id, base: Tree, ours: Tree, theirs: Tree, p: Path)
    requires s.rebase.Some? && r' == PausedAt(s, plan, hash) && MergedAt(s, Applied(s, plan), base, ours, theirs, p)
    ensures MergedAt(r', r', base, ours, theirs, p)
  {
    hide Merge3.MergeText, OutcomeAt, Applied;
    AppliedRest(s, plan);
  }

  // ---------- Abort ----------

  /** A commit id names that commit, unless a branch is called like it and is elsewhere. */
  lemma ResolvesCommit(h: Hashing, r: Repo, id: Id)
    requires StoreOk(h, r.objects) && id in r.objects.commits
    ensures Resolve(r, id) == if id in r.branches then r.branches[id] else id
  {
    assert IsHash(id) && IsHexDigit(id[0]);
  }

  lemma CommitReadable(h: Hashing, o: Objects, id: Id)
    requires StoreOk(h, o) && id in o.commits
    ensures o.commits[id].tree in o.trees && BlobsFor(o, o.trees[o.commits[id].tree])
  {
    assert TreeOk(o, o.trees[o.commits[id].tree]);
  }

  lemma AbortFacts(h: Hashing, r: Repo)
    requires InProgress(h, r)
    ensures StoreOk(h, r.objects) && r.worktree.Keys <= r.index.Keys && r.branch in r.branches
    ensures r.collision.Some? ==> IsCollision(h, r.objects, r.collision.value)
    ensures r.rebase.Some? && Loaded(r.rebase.value).origHead in r.objects.commits
  {
    hide Loaded, StoreOk;
  }

  /**
   Gives up the rebase: HEAD, index and working files are those of the commit that the id of
   the original HEAD resolves to.  That is the original commit exactly if no branch has that
   id as its name, or the one that has it is there.
   */
  method RebaseAbort(repo: Repository) returns (ok: bool)
    requires repo.rebase.Some? ==> InProgress(repo.h, repo.State())
    modifies repo
    ensures old(repo.rebase).None? ==> !ok && repo.State() == old(repo.State())
    ensures old(repo.rebase).Some? ==>
              var r, origHead := old(repo.State()), Loaded(old(repo.rebase).value).origHead;
              var id := Resolve(r, origHead);
              && origHead in r.objects.commits
              && (id == origHead <==> origHead !in r.branches || r.branches[origHead] == origHead)
              && (ok <==> id in r.objects.commits)
              && (!ok ==> repo.State() == r)
              && (ok ==>
                    && r.objects.commits[id].tree in r.objects.trees
                    && repo.State() == ResetTo(r, id).(rebase := None)
                    && MatchesCommit(repo.State(), id) && HeadOf(repo.State()) == Some(id)
                    && Consistent(repo.h, repo.State()))
  {
    hide Loaded, StoreOk, InProgress, IsHash, ResetTo, Consistent, Resolve, BlobsFor, IsCollision;
    if repo.rebase.None? {
      return false;
    }
    ghost var r := repo.State();
    AbortFacts(repo.h, r);
    var state := Loaded(repo.rebase.value);
    ResolvesCommit(repo.h, r, state.origHead);
    ghost var id := Resolve(r, state.origHead);
    ok := repo.Reset(state.origHead);
    if id in r.objects.commits {
      CommitReadable(repo.h, r.objects, id);
      ResetMatches(repo.h, r, id);
      ClearKeeps(repo.h, ResetTo(r, id), id);
    }
    if !ok {
      return;
    }
    repo.rebase := None;
  }

  lemma ClearKeeps(h: Hashing, r: Repo, id: Id)
    ensures MatchesCommit(r, id) ==> MatchesCommit(r.(rebase := None), id)
    ensures Consistent(h, r) ==> Consistent(h, r.(rebase := None))
    ensures HeadOf(r.(rebase := None)) == HeadOf(r)
  {
    hide StoreOk, IsCollision;
  }

  // ---------- Start ----------

  /** Index and HEAD differ, or a tracked file that is there differs from the index. */
  ghost predicate Dirty(h: Hashing, r: Repo) {
    || TreeOf(r.index) != HeadTree(r)
    || exists p :: p in r.worktree && p in r.index && h.blob(r.worktree[p]) != r.index[p].hash
  }

  method IsWorkDirDirty(repo: Repository) returns (dirty: bool)
    ensures dirty == Dirty(repo.h, repo.State())
  {
    var headTree := HeadTree(repo.State());
    var rest := headTree.Keys + repo.index.Keys;
    while rest != {}
      invariant rest <= headTree.Keys + repo.index.Keys
      invariant forall p :: p in headTree.Keys + repo.index.Keys - rest ==>
                  p in headTree && p in repo.index && headTree[p] == repo.index[p].hash
      decreases rest
    {
      var path :| path in rest;
      rest := rest - {path};
      if path !in headTree || path !in repo.index || headTree[path] != repo.index[path].hash {
        return true;
      }
    }
    assert TreeOf(repo.index) == headTree;
    rest := repo.worktree.Keys;
    while rest != {}
      invariant rest <= repo.worktree.Keys
      invariant forall p :: p in repo.worktree.Keys - rest && p in repo.index ==>
                  repo.h.blob(repo.worktree[p]) == repo.index[p].hash
      decreases rest
    {
      var path :| path in rest;
      rest := rest - {path};
      if path in repo.index && repo.h.blob(repo.worktree[path]) != repo.index[path].hash {
        return true;
      }
    }
    return false;
  }

  /** No working file has the hash of a stored blob without being it. */
  ghost predicate NoFileCollides(h: Hashing, r: Repo) {
    forall p :: p in r.worktree && h.blob(r.worktree[p]) in r.objects.blobs ==>
      r.objects.blobs[h.blob(r.worktree[p])] == r.worktree[p]
  }

  /**
   A directory that is not dirty has the committed contents in every tracked file that is
   there, unless contents collide; it is all of HEAD's tree exactly if no tracked file is missing.
   */
  lemma NotDirty(h: Hashing, r: Repo)
    requires StoreOk(h, r.objects) && !Dirty(h, r) && HeadOf(r).Some?
    requires r.worktree.Keys <= r.index.Keys
    ensures TreeOf(r.index) == TreeAt(r.objects, HeadOf(r).value)
    ensures NoFileCollides(h, r) ==>
              (r.worktree == Contents(r.objects, TreeAt(r.objects, HeadOf(r).value)) <==>
                r.worktree.Keys == r.index.Keys)
  {
    hide StoreOk;
    var tree := TreeAt(r.objects, HeadOf(r).value);
    TreeAtOk(h, r.objects, HeadOf(r).value);
    assert TreeOf(r.index).Keys == r.index.Keys;
    assert Contents(r.objects, tree).Keys == tree.Keys;
    if NoFileCollides(h, r) {
      forall p | p in r.worktree
        ensures r.worktree[p] == SafeRead(r.objects, tree[p])
      {
        assert r.index[p].hash == TreeOf(r.index)[p];
      }
    }
  }

  // ---------- The todo list ----------

  /** The todo line of every commit to be replayed. */
  function TodoLines(g: Graph, ids: seq<Id>): seq<string>
    requires forall i :: 0 <= i < |ids| ==> ids[i] in g
  {
    seq(|ids|, i requires 0 <= i < |ids| => PickLine(ids[i], g[ids[i]].message))
  }

  ghost predicate OneLine(message: string) {
    '\n' !in message
  }

  ghost predicate AllKnown(g: Graph, ids: seq<Id>) {
    forall i :: 0 <= i < |ids| ==> ids[i] in g
  }

  /** All messages fit in their lines, the last one without the white space that ends the file. */
  ghost predicate MessagesFit(g: Graph, ids: seq<Id>)
    requires AllKnown(g, ids)
  {
    forall i :: 0 <= i < |ids| ==>
      OneLine(if i < |ids| - 1 then g[ids[i]].message else Strings.TrimRight(g[ids[i]].message))
  }

  /** The list as it comes back from its file, which is trimmed as a whole. */
  function LoadedTodo(todo: seq<string>): seq<string> {
    Lines.Split(Strings.Trim(Lines.Join(todo, '\n')), '\n')
  }

  lemma {:induction false} JoinTrimmed(lines: seq<string>, front: string)
    requires lines != [] && front != "" && !Strings.IsSpace(front[|front| - 1]) && front <= lines[|lines| - 1]
    ensures Strings.TrimRight(Lines.Join(lines, '\n'))
         == Lines.Join(lines[..|lines| - 1] + [Strings.TrimRight(lines[|lines| - 1])], '\n')
  {
    hide Strings.TrimRight, Strings.IsSpace;
    var init, last := lines[..|lines| - 1], lines[|lines| - 1];
    assert lines == init + [last] && last == front + last[|front|..];
    Lines.JoinOne(last, '\n');
    Lines.JoinOne(Strings.TrimRight(last), '\n');
    Strings.TrimRightAfter(front, last[|front|..]);
    if init == [] {
      assert init + [last] == [last] && init + [Strings.TrimRight(last)] == [Strings.TrimRight(last)];
    } else {
      Lines.JoinConcat(init, [last], '\n');
      Lines.JoinConcat(init, [Strings.TrimRight(last)], '\n');
      var before := Lines.Join(init, '\n') + ['\n'];
      assert before + last == (before + front) + last[|front|..];
      Strings.TrimRightAfter(before + front, last[|front|..]);
      assert before + (front + Strings.TrimRight(last[|front|..]))
        == (before + front) + Strings.TrimRight(last[|front|..]);
    }
  }

  lemma {:induction false} JoinStarts(lines: seq<string>)
    requires lines != [] && lines[0] != ""
    ensures Lines.Join(lines, '\n') != "" && Lines.Join(lines, '\n')[0] == lines[0][0]
  {
  }

  /** A written line, and the same without white space at its end. */
  lemma PickLineShape(hash: string, message: string)
    requires IsHash(hash)
    ensures var line, front := PickLine(hash, message), "pick" + [' '] + hash;
            && line != "" && line[0] == 'p' && front <= line && !Strings.IsSpace(front[|front| - 1])
            && ReadStep(line) == Pick(hash) && ReadStep(Strings.TrimRight(line)) == Pick(hash)
  {
    hide Strings.TrimRight, Strings.CutAt;
    ReadPickLine(hash, message);
    PickLineTrimmed(hash, message);
    assert IsHexDigit(hash[|hash| - 1]);
    Strings.TrimAfterTrimRight(PickLine(hash, message));
  }

  lemma FrontOneLine(hash: string)
    requires IsHash(hash)
    ensures OneLine("pick" + [' '] + hash)
  {
    forall i | 0 <= i < |hash|
      ensures hash[i] != '\n'
    {
      assert IsHexDigit(hash[i]);
    }
  }

  /** A line is as long as its message. */
  lemma PickLineFits(hash: string, message: string)
    requires IsHash(hash)
    ensures OneLine(PickLine(hash, message)) <==> OneLine(message)
    ensures OneLine(Strings.TrimRight(PickLine(hash, message))) <==> OneLine(Strings.TrimRight(message))
  {
    hide Strings.TrimRight, Strings.IsSpace, PickLine, IsHash;
    var front := "pick" + [' '] + hash;
    PickLineShape(hash, message);
    PickLineTrimmed(hash, message);
    FrontOneLine(hash);
    assert " " + message == [' '] + message;
    Strings.TrimRightAfter(front, " " + message);
    Strings.TrimRightCons(' ', message);
  }

  lemma FirstLinesKept(todo: seq<string>, loaded: seq<string>, ids: seq<Id>)
    requires |todo| == |ids| && ids != [] && loaded == todo[..|todo| - 1] + [Strings.TrimRight(todo[|todo| - 1])]
    requires forall i :: 0 <= i < |ids| ==>
               ReadStep(todo[i]) == Pick(ids[i]) && ReadStep(Strings.TrimRight(todo[i])) == Pick(ids[i])
    ensures PicksOf(todo, ids) && PicksOf(loaded, ids)
  {
    hide ReadStep, Strings.TrimRight;
  }

  /**
   The list of the commits' lines comes back as one pick for each of them exactly if the messages
   fit in their lines; then it is as it was, only without white space at its very end.
   */
  lemma TodoSurvives(g: Graph, ids: seq<Id>)
    requires ids != [] && AllKnown(g, ids) && forall i :: 0 <= i < |ids| ==> IsHash(ids[i])
    ensures PicksOf(LoadedTodo(TodoLines(g, ids)), ids) <==> MessagesFit(g, ids)
    ensures PicksOf(TodoLines(g, ids), ids)
    ensures var todo, loaded := TodoLines(g, ids), LoadedTodo(TodoLines(g, ids));
            MessagesFit(g, ids) ==> loaded == todo[..|todo| - 1] + [Strings.TrimRight(todo[|todo| - 1])]
  {
    hide Strings.Trim, Strings.TrimRight, Strings.IsSpace, ReadStep, PickLine, IsHash, Lines.Join, Lines.Split, OneLine;
    var todo, n := TodoLines(g, ids), |ids| - 1;
    forall i | 0 <= i < |ids|
      ensures todo[i] != "" && todo[i][0] == 'p'
      ensures ReadStep(todo[i]) == Pick(ids[i]) && ReadStep(Strings.TrimRight(todo[i])) == Pick(ids[i])
      ensures OneLine(todo[i]) <==> OneLine(g[ids[i]].message)
      ensures OneLine(Strings.TrimRight(todo[i])) <==> OneLine(Strings.TrimRight(g[ids[i]].message))
    {
      PickLineShape(ids[i], g[ids[i]].message);
      PickLineFits(ids[i], g[ids[i]].message);
    }
    LinesKept(g, ids);
    var kept := todo[..n] + [Strings.TrimRight(todo[n])];
    FirstLinesKept(todo, kept, ids);
    LinesFit(kept);
    assert MessagesFit(g, ids) <==> forall i :: 0 <= i < |kept| ==> OneLine(kept[i]);
  }

  lemma LinesFit(lines: seq<string>)
    requires lines != []
    ensures var loaded := Lines.Split(Lines.Join(lines, '\n'), '\n');
            && ((forall i :: 0 <= i < |lines| ==> OneLine(lines[i])) ==> loaded == lines)
            && (|loaded| == |lines| ==> forall i :: 0 <= i < |lines| ==> OneLine(lines[i]))
  {
    hide Lines.Join, Lines.Split;
    Lines.SplitCounts(lines, '\n');
    if forall i :: 0 <= i < |lines| ==> OneLine(lines[i]) {
      Lines.SplitJoin(lines, '\n');
    }
  }

  /** The first line of what is written for a commit is a pick of it, whatever further lines there are. */
  lemma FirstLinePicks(hash: string, message: string)
    requires IsHash(hash)
    ensures ReadStep(Lines.Split(PickLine(hash, message), '\n')[0]) == Pick(hash)
    ensures ReadStep(Lines.Split(Strings.TrimRight(PickLine(hash, message)), '\n')[0]) == Pick(hash)
  {
    hide Strings.TrimRight, Strings.IsSpace, ReadStep, Lines.Split, IsHash;
    var front, tail := "pick" + [' '] + hash, Strings.TrimRight(" " + message);
    FrontOneLine(hash);
    FrontPicks(hash, message);
    PickLineTrimmed(hash, message);
    PickLineShape(hash, message);
    Strings.TrimRightAfter(front, " " + message);
    if tail == "" {
      assert front + tail == front;
      TrimmedFront(hash);
    } else {
      TrimRightIsPrefix(" " + message);
      assert front + tail == PickLine(hash, tail[1..]);
      FrontPicks(hash, tail[1..]);
    }
  }

  lemma FrontPicks(hash: string, message: string)
    requires IsHash(hash)
    ensures ReadStep(Lines.Split(PickLine(hash, message), '\n')[0]) == Pick(hash)
  {
    hide ReadStep, Lines.Split, IsHash;
    FrontOneLine(hash);
    assert PickLine(hash, message) == ("pick" + [' '] + hash + [' ']) + message;
    Lines.SplitPrefix("pick" + [' '] + hash + [' '], message, '\n');
    var first := Lines.Split(message, '\n')[0];
    assert ("pick" + [' '] + hash + [' ']) + first == PickLine(hash, first);
    ReadPickLine(hash, first);
  }

  lemma TrimmedFront(hash: string)
    requires IsHash(hash)
    ensures Lines.Split("pick" + [' '] + hash, '\n')[0] == "pick" + [' '] + hash
    ensures ReadStep("pick" + [' '] + hash) == Pick(hash)
  {
    hide Strings.TrimRight, ReadStep, IsHash, Lines.Split;
    var front := "pick" + [' '] + hash;
    FrontOneLine(hash);
    Lines.SplitWhole(front, '\n');
    PickLineShape(hash, "");
    PickLineTrimmed(hash, "");
    Strings.TrimRightAfter(front, " " + "");
    SpaceTrimmed();
    assert front + Strings.TrimRight(" " + "") == front;
  }

  lemma SpaceTrimmed()
    ensures Strings.TrimRight(" " + "") == ""
  {
  }

  /** The loaded list has a pick for every commit, whatever lines the messages have. */
  lemma ListHasPicks(g: Graph, ids: seq<Id>, i: nat)
    requires i < |ids| && AllKnown(g, ids) && forall j :: 0 <= j < |ids| ==> IsHash(ids[j])
    ensures HasPick(LoadedTodo(TodoLines(g, ids)), ids[i])
  {
    hide Strings.Trim, Strings.TrimRight, Strings.IsSpace, ReadStep, PickLine, IsHash, Lines.Join, Lines.Split;
    var todo, n := TodoLines(g, ids), |ids| - 1;
    LinesKept(g, ids);
    var kept := todo[..n] + [Strings.TrimRight(todo[n])];
    FirstLinePicks(ids[i], g[ids[i]].message);
    Lines.SplitJoinFirst(kept, '\n', i);
    var line := Lines.Split(kept[i], '\n')[0];
    assert ReadStep(line) == Pick(ids[i]);
  }

  /** Trimming the file trims the last line. */
  lemma LinesKept(g: Graph, ids: seq<Id>)
    requires ids != [] && AllKnown(g, ids) && forall i :: 0 <= i < |ids| ==> IsHash(ids[i])
    ensures var todo, n := TodoLines(g, ids), |ids| - 1;
            LoadedTodo(todo) == Lines.Split(Lines.Join(todo[..n] + [Strings.TrimRight(todo[n])], '\n'), '\n')
  {
    hide Strings.Trim, Strings.TrimRight, Strings.IsSpace, ReadStep, PickLine, IsHash, Lines.Join, Lines.Split;
    var todo, n := TodoLines(g, ids), |ids| - 1;
    PickLineShape(ids[n], g[ids[n]].message);
    PickLineShape(ids[0], g[ids[0]].message);
    JoinTrimmed(todo, "pick" + [' '] + ids[n]);
    JoinStarts(todo);
    TrimFromLetter(Lines.Join(todo, '\n'));
  }

  lemma TrimFromLetter(text: string)
    requires text != "" && text[0] == 'p'
    ensures Strings.Trim(text) == Strings.TrimRight(text)
  {
  }

  // ---------- Starting a rebase ----------

  /** A closed object store and no untracked files. */
  ghost predicate Ready(h: Hashing, r: Repo) {
    && StoreOk(h, r.objects) && ParentsKnown(r.objects)
    && r.worktree.Keys <= r.index.Keys
    && (r.collision.Some? ==> IsCollision(h, r.objects, r.collision.value))
  }

  /** The sequencer's state is saved first. */
  function StartSaved(r: Repo, onto: Id, head: Id, todo: seq<string>): Repo {
    r.(rebase := Some(Saved(RebaseState("refs/heads/" + r.branch, onto, head, todo, 0, ""), map[])))
  }

  /** Then the reset goes to the commit that the target's id resolves to, if there is one. */
  ghost function Begun(r: Repo, onto: Id, head: Id, todo: seq<string>): Repo {
    var id := Resolve(r, onto);
    if id in r.objects.commits && r.objects.commits[id].tree in r.objects.trees then
      ResetTo(StartSaved(r, onto, head, todo), id)
    else StartSaved(r, onto, head, todo)
  }

  /** A rebase that starts from `r` is in progress in `b`, with nothing replayed yet. */
  ghost predicate Launched(h: Hashing, r: Repo, b: Repo, onto: Id, head: Id, todo: seq<string>) {
    && InProgress(h, b) && !Paused(b)
    && b.objects == r.objects && b.collision == r.collision && SameOtherRefs(r, b)
    && var st := Loaded(b.rebase.value);
       st.onto == onto && st.origHead == head && st.todoSteps == LoadedTodo(todo) && st.currentStep == 0
  }

  lemma StartSavedLoads(h: Hashing, r: Repo, onto: Id, head: Id, todo: seq<string>)
    requires IsHash(onto) && IsHash(head)
    ensures var s := StartSaved(r, onto, head, todo);
            && s.rebase.Some? && StoppedSha !in s.rebase.value
            && var st := Loaded(s.rebase.value);
               st.onto == onto && st.origHead == head && st.todoSteps == LoadedTodo(todo) && st.currentStep == 0
  {
    hide Loaded, Strings.Trim, Lines.Split, Lines.Join, Saved, IsHash;
    HashIsTrimmed(onto);
    HashIsTrimmed(head);
    var st := RebaseState("refs/heads/" + r.branch, onto, head, todo, 0, "");
    LoadedAfterSave(st, map[]);
    SavedNoMarker(st);
  }

  lemma SavedNoMarker(st: RebaseState)
    requires 0 <= st.currentStep
    ensures StoppedSha !in Saved(st, map[])
  {
  }

  lemma StartSavedLaunched(h: Hashing, r: Repo, onto: Id, head: Id, todo: seq<string>)
    requires Ready(h, r) && onto in r.objects.commits && HeadOf(r) == Some(head)
    requires TreeOf(r.index) == TreeAt(r.objects, head)
    ensures Launched(h, r, StartSaved(r, onto, head, todo), onto, head, todo)
  {
    hide Loaded, StoreOk, LoadedTodo, IsHash, ParentsKnown, IsCollision, TreeOf, TreeAt, Saved, TreeOk, IndexOk;
    CommitIdIsHash(h, r.objects, onto);
    CommitIdIsHash(h, r.objects, head);
    StartSavedLoads(h, r, onto, head, todo);
    TreeAtOk(h, r.objects, head);
    TreeIndexOk(r.objects, r.index);
  }

  lemma ResetLaunched(h: Hashing, r: Repo, onto: Id, head: Id, todo: seq<string>, id: Id)
    requires Ready(h, r) && onto in r.objects.commits && HeadOf(r) == Some(head) && id in r.objects.commits
    ensures r.objects.commits[id].tree in r.objects.trees
    ensures var b := ResetTo(StartSaved(r, onto, head, todo), id);
            Launched(h, r, b, onto, head, todo) && HeadOf(b) == Some(id) && (OnTrack(b) <==> id == onto)
  {
    hide Loaded, StoreOk, LoadedTodo, IsHash, ParentsKnown, IsCollision, TreeOf, TreeAt, Saved, TreeOk, IndexOk,
         Entries, ChainReached, NextIs, PickClashes;
    CommitIdIsHash(h, r.objects, onto);
    CommitIdIsHash(h, r.objects, head);
    StartSavedLoads(h, r, onto, head, todo);
    CommitReadable(h, r.objects, id);
    ResetMatches(h, StartSaved(r, onto, head, todo), id);
    NothingReached(ResetTo(StartSaved(r, onto, head, todo), id));
  }

  /** Before the first line only the target itself is a chain. */
  lemma NothingReached(b: Repo)
    requires b.rebase.Some? && HeadOf(b).Some? && Loaded(b.rebase.value).currentStep == 0
    ensures (exists picks :: ChainReached(b, picks)) <==> HeadOf(b).value == Loaded(b.rebase.value).onto
  {
    hide Loaded, Reached;
    var todo := Loaded(b.rebase.value).todoSteps;
    ReachedStart(todo);
    if HeadOf(b).value == Loaded(b.rebase.value).onto {
      assert ChainReached(b, []);
    }
    if picks :| ChainReached(b, picks) {
      ReachedNothing(picks, todo);
    }
  }

  /** A rebase starts on track exactly if the target's id resolves to the target. */
  lemma BegunLaunched(h: Hashing, r: Repo, onto: Id, head: Id, todo: seq<string>)
    requires Ready(h, r) && onto in r.objects.commits && HeadOf(r) == Some(head)
    requires TreeOf(r.index) == TreeAt(r.objects, head)
    ensures var b := Begun(r, onto, head, todo);
            && Launched(h, r, b, onto, head, todo)
            && (Resolve(r, onto) in r.objects.commits ==> (OnTrack(b) <==> Resolve(r, onto) == onto))
  {
    hide Launched, StoreOk, Resolve, OnTrack, StartSaved, ResetTo, TreeAt, TreeOf;
    var id := Resolve(r, onto);
    if id in r.objects.commits {
      ResetLaunched(h, r, onto, head, todo, id);
    } else {
      StartSavedLaunched(h, r, onto, head, todo);
    }
  }

  // ---------- Whole runs ----------

  /** No line is bad, and all picks are of stored commits. */
  ghost predicate KnownPicks(b: Repo)
    requires b.rebase.Some?
  {
    var todo := Loaded(b.rebase.value).todoSteps;
    forall i :: 0 <= i < |todo| ==>
      ReadStep(todo[i]) != BadStep && (ReadStep(todo[i]).Pick? ==> ReadStep(todo[i]).hash in b.objects.commits)
  }

  /**
   HEAD of `r'` is a chain above the target with exactly one replayed commit for each commit of
   the rebase list, in order.  `ListIsLacking` says when these are the commits that the target lacks.
   */
  ghost predicate ReplayedAll(r: Repo, r': Repo, target: string) {
    && HeadOf(r).Some? && target in r.branches && HeadOf(r').Some?
    && var onto := r.branches[target];
       exists ids ::
         && IsRebaseList(r.objects.commits, HeadOf(r).value, onto, ids)
         && Chain(r'.objects, onto, HeadOf(r').value, ids)
  }

  /**
   HEAD of `r'` is a chain above the target of picks that follow the list as it was loaded for the
   commits of the rebase list, whatever lines their messages have.
   */
  ghost predicate ReplayedList(r: Repo, r': Repo, target: string) {
    && HeadOf(r).Some? && target in r.branches
    && var g, onto := r.objects.commits, r.branches[target];
       exists ids ::
         && AllKnown(g, ids) && IsRebaseList(g, HeadOf(r).value, onto, ids)
         && ReplayedLines(r', onto, LoadedTodo(TodoLines(g, ids)))
  }

  lemma HashesOfKnown(h: Hashing, o: Objects, ids: seq<Id>)
    requires StoreOk(h, o) && AllKnown(o.commits, ids)
    ensures forall i :: 0 <= i < |ids| ==> IsHash(ids[i])
  {
    hide IsHash;
    forall i | 0 <= i < |ids|
      ensures IsHash(ids[i])
    {
      CommitIdIsHash(h, o, ids[i]);
    }
  }

  lemma KnownLines(g: Graph, ids: seq<Id>, todo: seq<string>)
    requires PicksOf(todo, ids) && AllKnown(g, ids)
    ensures forall i :: 0 <= i < |todo| ==> ReadStep(todo[i]).Pick? && ReadStep(todo[i]).hash in g
  {
    hide ReadStep;
  }

  /** What was launched for messages that fit consists of known picks. */
  lemma LaunchedKnownPicks(h: Hashing, r: Repo, b: Repo, onto: Id, head: Id, ids: seq<Id>)
    requires StoreOk(h, r.objects) && AllKnown(r.objects.commits, ids) && ids != []
    requires MessagesFit(r.objects.commits, ids)
    requires Launched(h, r, b, onto, head, TodoLines(r.objects.commits, ids))
    ensures b.rebase.Some? && KnownPicks(b)
  {
    hide Loaded, LoadedTodo, TodoLines, ReadStep, IsHash, InProgress, MessagesFit, StoreOk, PicksOf;
    HashesOfKnown(h, r.objects, ids);
    TodoSurvives(r.objects.commits, ids);
    KnownLines(r.objects.commits, ids, LoadedTodo(TodoLines(r.objects.commits, ids)));
    LaunchedRuns(h, r, b, onto, head, TodoLines(r.objects.commits, ids));
  }

  lemma LaunchedRuns(h: Hashing, r: Repo, b: Repo, onto: Id, head: Id, todo: seq<string>)
    requires Launched(h, r, b, onto, head, todo)
    ensures b.rebase.Some? && InProgress(h, b) && StoppedSha !in b.rebase.value
  {
    hide Loaded, StoreOk;
  }

  /**
   When the loop has gone through the list of a launched rebase, its lines were replayed; if the
   messages fit, this is one replay for each listed commit.
   */
  lemma FinishedReplaysAll(h: Hashing, r: Repo, b: Repo, r': Repo, target: string, ids: seq<Id>)
    requires StoreOk(h, r.objects) && HeadOf(r).Some? && target in r.branches
    requires AllKnown(r.objects.commits, ids) && ids != []
    requires IsRebaseList(r.objects.commits, HeadOf(r).value, r.branches[target], ids)
    requires Launched(h, r, b, r.branches[target], HeadOf(r).value, TodoLines(r.objects.commits, ids))
    requires b.rebase.Some? && Completed(r', Loaded(b.rebase.value))
    ensures ReplayedList(r, r', target)
    ensures MessagesFit(r.objects.commits, ids) ==> ReplayedAll(r, r', target)
  {
    hide Loaded, LoadedTodo, TodoLines, InProgress, MessagesFit, StoreOk, Chain, Follows, IsRebaseList, PicksOf, IsHash;
    HashesOfKnown(h, r.objects, ids);
    var todo := LoadedTodo(TodoLines(r.objects.commits, ids));
    var picks :| Chain(r'.objects, r.branches[target], HeadOf(r').value, picks) && Follows(picks, todo);
    if MessagesFit(r.objects.commits, ids) {
      TodoSurvives(r.objects.commits, ids);
      FollowsPicks(picks, todo, ids);
    }
  }

  /** So every listed commit was replayed at least once, and no line of a message is a bad one. */
  lemma ReplayedEach(h: Hashing, r: Repo, r': Repo, target: string) returns (ids: seq<Id>, picks: seq<Id>)
    requires StoreOk(h, r.objects) && ReplayedList(r, r', target)
    ensures HeadOf(r).Some? && target in r.branches && HeadOf(r').Some? && AllKnown(r.objects.commits, ids)
    ensures IsRebaseList(r.objects.commits, HeadOf(r).value, r.branches[target], ids)
    ensures Chain(r'.objects, r.branches[target], HeadOf(r').value, picks)
    ensures var todo := LoadedTodo(TodoLines(r.objects.commits, ids));
            Follows(picks, todo) && NoBadLine(todo) && forall p :: p in picks <==> HasPick(todo, p)
    ensures forall c :: c in ids ==> c in picks
  {
    hide LoadedTodo, TodoLines, StoreOk, Chain, Follows, IsRebaseList, IsHash, HasPick, NoBadLine;
    var g, onto := r.objects.commits, r.branches[target];
    ids :| AllKnown(g, ids) && IsRebaseList(g, HeadOf(r).value, onto, ids)
        && ReplayedLines(r', onto, LoadedTodo(TodoLines(g, ids)));
    var todo := LoadedTodo(TodoLines(g, ids));
    picks :| Chain(r'.objects, onto, HeadOf(r').value, picks) && Follows(picks, todo);
    FollowsAll(picks, todo);
    HashesOfKnown(h, r.objects, ids);
    forall c | c in ids
      ensures c in picks
    {
      var i :| 0 <= i < |ids| && ids[i] == c;
      ListHasPicks(g, ids, i);
    }
  }

  // ---------- The command ----------

  /** Each refusal has its reason; on an acyclic graph, to be up to date is to have nothing that the target lacks. */
  ghost predicate Refusable(h: Hashing, r: Repo, target: string, why: Refusal) {
    match why
    case RebaseUnderway => r.rebase.Some?
    case DirtyWorkdir => Dirty(h, r)
    case NoHead => HeadOf(r).None?
    case NoBranch => target !in r.branches
    case NoBase =>
      && HeadOf(r).Some? && target in r.branches
      && (Acyclic(r.objects.commits) ==>
            || (forall c :: !CommonAncestor(r.objects.commits, HeadOf(r).value, r.branches[target], c))
            || Broken(r.objects.commits, HeadOf(r).value) || Broken(r.objects.commits, r.branches[target]))
    case BrokenHistory => false   // a gap is noticed when the merge bases are looked for
    case UpToDate =>
      && HeadOf(r).Some? && target in r.branches
      && (HeadOf(r).value == "" || Reaches(r.objects.commits, {}, r.branches[target], HeadOf(r).value))
  }

  /** Why a rebase is refused, in the order of the checks. */
  ghost predicate RefusedInOrder(h: Hashing, r: Repo, target: string, refusal: Option<Refusal>) {
    if r.rebase.Some? then refusal == Some(RebaseUnderway)
    else if Dirty(h, r) then refusal == Some(DirtyWorkdir)
    else if HeadOf(r).None? then refusal == Some(NoHead)
    else if target !in r.branches then refusal == Some(NoBranch)
    else ListRefused(r.objects.commits, HeadOf(r).value, r.branches[target], refusal)
  }

  /** On an acyclic graph: exactly with a gap or without a common ancestor, or if the target has all of HEAD. */
  ghost predicate ListRefused(g: Graph, head: Id, onto: Id, refusal: Option<Refusal>) {
    && (refusal.Some? ==> refusal.value in {NoBase, UpToDate})
    && (head != "" && Acyclic(g) ==>
          refusal == if Broken(g, head) || Broken(g, onto) || forall c :: !CommonAncestor(g, head, onto, c) then
                       Some(NoBase)
                     else if Reaches(g, {}, onto, head) then Some(UpToDate)
                     else None)
  }

  lemma RefusedWithoutBase(g: Graph, head: Id, onto: Id)
    requires Acyclic(g) ==> (forall c :: !CommonAncestor(g, head, onto, c)) || Broken(g, head) || Broken(g, onto)
    ensures ListRefused(g, head, onto, Some(NoBase))
  {
    hide Reaches, Acyclic;
  }

  lemma RefusedUpToDate(g: Graph, head: Id, onto: Id, base: Id)
    requires CommonAncestor(g, head, onto, base) && (head == "" || Reaches(g, {}, onto, head))
    requires !Broken(g, head) && !Broken(g, onto)
    ensures ListRefused(g, head, onto, Some(UpToDate))
  {
    hide Reaches, Acyclic;
  }

  lemma NotUpToDate(g: Graph, head: Id, onto: Id, base: Id, c: Id)
    requires BestCommonAncestor(g, head, onto, base) && Reaches(g, {"", base}, head, c)
    requires !Broken(g, head) && !Broken(g, onto)
    ensures ListRefused(g, head, onto, None)
  {
    hide Reaches, Acyclic;
    ReachesEnds(g, {"", base}, head, c);
    assert CommonAncestor(g, head, onto, base);
    if Acyclic(g) {
      AncestorIsOnlyBase(g, head, onto, base);
    }
  }

  /** Some ancestor is not stored. */
  ghost predicate Broken(g: Graph, from: Id) {
    exists c :: c !in g && Reaches(g, {}, from, c)
  }

  lemma NoBestBase(g: Graph, head: Id, onto: Id)
    requires Acyclic(g) && forall c :: !BestCommonAncestor(g, head, onto, c)
    ensures (forall c :: !CommonAncestor(g, head, onto, c)) || Broken(g, head)
  {
    hide Reaches, Acyclic;
    BasesNotEmpty(g, head, onto);
  }

  lemma NothingToRebase(g: Graph, head: Id, onto: Id, base: Id)
    requires CommonAncestor(g, head, onto, base) && !Reaches(g, {"", base}, head, head)
    ensures head == "" || Reaches(g, {}, onto, head)
  {
    hide Reaches, Acyclic;
    if head != "" && head != base {
      ReachesSelf(g, {"", base}, head);
    }
  }

  /** Where the merge bases were found, the walk finds no gap. */
  lemma NoGapBelow(g: Graph, stop: set<Id>, head: Id)
    requires !Broken(g, head)
    ensures forall c :: Reaches(g, stop, head, c) ==> c in g
  {
    hide Reaches;
    forall c | Reaches(g, stop, head, c)
      ensures c in g
    {
      ReachesAnyway(g, stop, head, c);
    }
  }

  /** Everything that is checked and collected before anything changes. */
  method PrepareRebase(repo: Repository, target: string)
    returns (refusal: Option<Refusal>, head: Id, onto: Id, commits: seq<Id>)
    ensures refusal.Some? ==> Refusable(repo.h, repo.State(), target, refusal.value)
    ensures RefusedInOrder(repo.h, repo.State(), target, refusal)
    ensures refusal.None? ==>
              && repo.rebase.None? && !Dirty(repo.h, repo.State())
              && HeadOf(repo.State()) == Some(head) && target in repo.branches && onto == repo.branches[target]
              && onto in repo.objects.commits && commits != []
              && IsRebaseList(repo.objects.commits, head, onto, commits)
              && forall i :: 0 <= i < |commits| ==> commits[i] in repo.objects.commits
  {
    hide Reaches, Acyclic, InWalkOrder, Dirty, ListRefused;
    head, onto, commits := "", "", [];
    if repo.rebase.Some? {
      return Some(RebaseUnderway), head, onto, commits;
    }
    var dirty := IsWorkDirDirty(repo);
    if dirty {
      return Some(DirtyWorkdir), head, onto, commits;
    }
    var headCommit := HeadOf(repo.State());
    if headCommit.None? {
      return Some(NoHead), head, onto, commits;
    }
    head := headCommit.value;
    if target !in repo.branches {
      return Some(NoBranch), head, onto, commits;
    }
    onto := repo.branches[target];
    var bases := FindMergeBases(repo.objects.commits, head, onto);
    if !bases.Bases? {
      RefusedWithoutBase(repo.objects.commits, head, onto);
      return Some(NoBase), head, onto, commits;
    }
    var best := SelectBestMergeBase(bases.ids);
    if best.None? {
      if Acyclic(repo.objects.commits) {
        NoBestBase(repo.objects.commits, head, onto);
      }
      RefusedWithoutBase(repo.objects.commits, head, onto);
      return Some(NoBase), head, onto, commits;
    }
    NoGapBelow(repo.objects.commits, {"", best.value}, head);
    var ok;
    ok, commits := CollectCommitsForRebase(repo.objects.commits, head, best.value);
    if !ok {
      assert false;
      return Some(BrokenHistory), head, onto, commits;
    }
    if |commits| == 0 {
      assert best.value in bases.ids;
      NothingToRebase(repo.objects.commits, head, onto, best.value);
      RefusedUpToDate(repo.objects.commits, head, onto, best.value);
      return Some(UpToDate), head, onto, commits;
    }
    assert forall i :: 0 <= i < |commits| ==> commits[i] in commits;
    ListPrepared(repo.objects.commits, head, onto, bases.ids, best.value, commits);
    assert best.value in bases.ids;
    NotUpToDate(repo.objects.commits, head, onto, best.value, commits[0]);
    return None, head, onto, commits;
  }

  lemma ListPrepared(g: Graph, head: Id, onto: Id, bases: seq<Id>, base: Id, commits: seq<Id>)
    requires (forall c :: c in bases <==> BestCommonAncestor(g, head, onto, c)) && IsLeast(base, bases)
    requires NoRepeats(commits) && forall c :: c in commits <==> Reaches(g, {"", base}, head, c)
    requires InWalkOrder(g, {"", base}, head, commits)
    ensures IsRebaseList(g, head, onto, commits)
  {
    hide BestCommonAncestor, Reaches, InWalkOrder, StringLess;
    assert IsListAbove(g, head, onto, commits, base);
  }

  /** What is known after a rebase was started. */
  ghost predicate Started(h: Hashing, r: Repo, r': Repo, out: RunOutcome, target: string, committer: string, now: int) {
    && HeadOf(r).Some? && target in r.branches
    && exists ids :: StartedWith(h, r, r', out, target, ids, committer, now)
  }

  /** For the commits `ids` the state is saved, the target checked out, and the loop entered. */
  ghost predicate StartedWith(
    h: Hashing, r: Repo, r': Repo, out: RunOutcome, target: string, ids: seq<Id>, committer: string, now: int)
    requires HeadOf(r).Some? && target in r.branches
  {
    var g, head, onto := r.objects.commits, HeadOf(r).value, r.branches[target];
    && ids != [] && IsRebaseList(g, head, onto, ids) && AllKnown(g, ids) && onto in g
    && var b := Begun(r, onto, head, TodoLines(g, ids));
       && Launched(h, r, b, onto, head, TodoLines(g, ids)) && b.rebase.Some?
       && if Resolve(r, onto) in g then
            && (OnTrack(b) <==> Resolve(r, onto) == onto) && Continued(h, b, r', out)
            && 0 <= Loaded(b.rebase.value).currentStep && (r', out) == ContinueFrom(h, b, committer, now)
          else out == ResetFailed && r' == b
  }

  /** The commits to be replayed have one-line messages. */
  ghost predicate PlainMessages(g: Graph, head: Id, onto: Id) {
    forall c :: c in g && Listed(g, head, onto, c) ==> OneLine(g[c].message)
  }

  lemma PlainFit(g: Graph, head: Id, onto: Id, ids: seq<Id>)
    requires IsRebaseList(g, head, onto, ids) && AllKnown(g, ids) && PlainMessages(g, head, onto)
    ensures MessagesFit(g, ids)
  {
    hide Listed, IsRebaseList, Strings.TrimRight;
    ListIsListed(g, head, onto, ids);
    forall i | 0 <= i < |ids|
      ensures OneLine(g[ids[i]].message) && OneLine(Strings.TrimRight(g[ids[i]].message))
    {
      assert ids[i] in ids;
      TrimRightIsPrefix(g[ids[i]].message);
    }
  }

  /** Messages fit in their lines, and the target's id resolves to the target. */
  ghost predicate Faithful(r: Repo, target: string) {
    && HeadOf(r).Some? && target in r.branches
    && PlainMessages(r.objects.commits, HeadOf(r).value, r.branches[target])
    && Resolve(r, r.branches[target]) == r.branches[target]
  }

  /** A rebase that finishes at once replayed its list, if its target's id resolves to the target. */
  lemma DoneReplaysAll(h: Hashing, r: Repo, r': Repo, target: string, committer: string, now: int)
    requires Ready(h, r) && Started(h, r, r', Done, target, committer, now) && r'.collision.None?
    requires Resolve(r, r.branches[target]) == r.branches[target]
    ensures ReplayedList(r, r', target) && (Faithful(r, target) ==> ReplayedAll(r, r', target))
  {
    hide Loaded, LoadedTodo, TodoLines, InProgress, MessagesFit, StoreOk, Chain, IsRebaseList, ParentsKnown,
         IsCollision, Launched, Begun, OnTrack, Consistent, Grows, SameOtherRefs, AllResolved, Completed, Ready,
         PlainMessages, Resolve, ReplayedAll, ReplayedList, ContinueFrom;
    var g, head, onto := r.objects.commits, HeadOf(r).value, r.branches[target];
    var ids :| StartedWith(h, r, r', Done, target, ids, committer, now);
    var b := Begun(r, onto, head, TodoLines(g, ids));
    ReadyStore(h, r);
    LaunchedState(h, r, b, onto, head, TodoLines(g, ids));
    FinishedReplaysAll(h, r, b, r', target, ids);
    if Faithful(r, target) {
      PlainFit(g, head, onto, ids);
    }
  }

  lemma LaunchedState(h: Hashing, r: Repo, b: Repo, onto: Id, head: Id, todo: seq<string>)
    requires Launched(h, r, b, onto, head, todo)
    ensures b.rebase.Some? && Loaded(b.rebase.value).onto == onto && b.collision == r.collision
  {
    hide Loaded, InProgress, LoadedTodo, SameOtherRefs;
    LaunchedRuns(h, r, b, onto, head, todo);
  }

  lemma ReadyStore(h: Hashing, r: Repo)
    requires Ready(h, r)
    ensures StoreOk(h, r.objects)
  {
  }

  method Rebase(repo: Repository, target: string, committer: string, now: int) returns (result: StartResult)
    requires Hexadecimal(repo.h) && Ready(repo.h, repo.State())
    modifies repo
    ensures result.Refused? ==> repo.State() == old(repo.State())
    ensures result.Refused? ==> Refusable(repo.h, old(repo.State()), target, result.why)
    ensures RefusedInOrder(repo.h, old(repo.State()), target, if result.Refused? then Some(result.why) else None)
    ensures result.Ran? ==>
              && !Dirty(repo.h, old(repo.State()))
              && Started(repo.h, old(repo.State()), repo.State(), result.outcome, target, committer, now)
    ensures var r, r' := old(repo.State()), repo.State();
            result == Ran(Done) && r'.collision.None? && target in r.branches
            && Resolve(r, r.branches[target]) == r.branches[target] ==>
              ReplayedList(r, r', target) && (Faithful(r, target) ==> ReplayedAll(r, r', target))
  {
    hide InProgress, OnTrack, Loaded, Grows, Hexadecimal, Saved, Since, Continued, StoreOk, ParentsKnown, IsHash,
         PlainMessages, Refusable, RefusedInOrder, Reaches, Acyclic, PickLine, ResetTo, SameOtherRefs, IsRebaseList,
         Resolve, BlobsFor, LoadedTodo, IsCollision, ReplayedAll, ReplayedList, Faithful, Dirty;
    ghost var r := repo.State();
    var refusal, head, onto, commits := PrepareRebase(repo, target);
    if refusal.Some? {
      return Refused(refusal.value);
    }
    CleanHead(repo.h, r);
    var todo := TodoLines(repo.objects.commits, commits);
    var state := RebaseState("refs/heads/" + repo.branch, onto, head, todo, 0, "");
    var files := SaveRebaseState(state, map[]);
    BegunLaunched(repo.h, r, onto, head, todo);
    ghost var b := Begun(r, onto, head, todo);
    LaunchedRuns(repo.h, r, b, onto, head, todo);
    repo.rebase := Some(files);
    ghost var id := Resolve(r, onto);
    ResolveSaved(r, onto, head, todo);
    if id in r.objects.commits {
      CommitReadable(repo.h, r.objects, id);
    }
    var reset := repo.Reset(onto);
    assert repo.State() == b;
    if !reset {
      assert StartedWith(repo.h, r, repo.State(), ResetFailed, target, commits, committer, now);
      return Ran(ResetFailed);
    }
    var outcome := RebaseContinue(repo, committer, now);
    assert StartedWith(repo.h, r, repo.State(), outcome, target, commits, committer, now);
    if outcome == Done && repo.collision.None? && id == onto {
      DoneReplaysAll(repo.h, r, repo.State(), target, committer, now);
    }
    return Ran(outcome);
  }

  lemma CleanHead(h: Hashing, r: Repo)
    requires !Dirty(h, r) && HeadOf(r).Some?
    ensures TreeOf(r.index) == TreeAt(r.objects, HeadOf(r).value)
  {
  }

  lemma ResolveSaved(r: Repo, onto: Id, head: Id, todo: seq<string>)
    ensures Resolve(StartSaved(r, onto, head, todo), onto) == Resolve(r, onto)
  {
  }
}
