/**
 What the commands of a rebase do to files, index, branches and saved state, spelled out: the hard
 reset, the check for changes, and the state that a start saves.
 */
module RebaseEffects {
  import opened Wrappers
  import opened CommitGraph
  import opened TreeMerge
  import opened RebaseStateFiles
  import opened RepositoryModel
  import opened SequencerInvariant
  import opened ReplayMachine
  import opened RebaseCommands
  import Strings
  import Lines

  // ---------- Hard reset ----------

  /** The path after a hard reset to a tree: its version in the tree, or gone if it was tracked. */
  ghost predicate PathReset(r: Repo, r': Repo, tree: Tree, p: Path) {
    && (p in r'.index <==> p in tree)
    && (p in tree ==>
          && r'.index[p] == IndexEntry(tree[p], 0) && p in r'.worktree
          && r'.worktree[p] == if tree[p] in r.objects.blobs then r.objects.blobs[tree[p]] else "")
    && (p !in tree ==>
          && (p in r'.worktree <==> p in r.worktree && p !in r.index)
          && (p in r'.worktree ==> r'.worktree[p] == r.worktree[p]))
  }

  /** After a hard reset the branch is at the commit, and every path is as its tree has it. */
  lemma ResetMeans(r: Repo, id: Id)
    requires id in r.objects.commits && r.objects.commits[id].tree in r.objects.trees
    ensures var r' := ResetTo(r, id);
            && (forall p :: PathReset(r, r', r.objects.trees[r.objects.commits[id].tree], p))
            && r.branch in r'.branches && r'.branches[r.branch] == id && r'.branch == r.branch
            && (forall b :: b != r.branch ==> (b in r'.branches <==> b in r.branches))
            && (forall b :: b != r.branch && b in r.branches ==> r'.branches[b] == r.branches[b])
            && r'.objects == r.objects && r'.rebase == r.rebase && r'.collision == r.collision
  {
  }

  /** What is reset to: nothing or `HEAD` is the current branch, then come branches, then commit ids. */
  lemma ResolveMeans(r: Repo, name: string)
    ensures r.branch in r.branches ==>
              Resolve(r, "") == r.branches[r.branch] && Resolve(r, "HEAD") == r.branches[r.branch]
    ensures name != "" && name != "HEAD" && name in r.branches ==> Resolve(r, name) == r.branches[name]
    ensures name != "" && name != "HEAD" && name !in r.branches ==> Resolve(r, name) == name
  {
  }

  // ---------- Staging ----------

  /** Adding a file stages the hash of its content, which is stored under it unless another one is. */
  lemma AddMeans(h: Hashing, r: Repo, path: Path)
    requires path in r.worktree
    ensures var r', id := Added(h, r, path), h.blob(r.worktree[path]);
            && r' == r.(objects := r'.objects, index := r'.index, collision := r'.collision)
            && path in r'.index && r'.index[path] == IndexEntry(id, 0)
            && (forall p :: p != path ==>
                  (p in r'.index <==> p in r.index) && (p in r.index ==> r'.index[p] == r.index[p]))
            && Extends(r.objects, r'.objects) && id in r'.objects.blobs
            && (forall b :: b in r'.objects.blobs ==> b in r.objects.blobs || b == id)
            && (r.collision.None? ==> (r'.collision.None? <==> r'.objects.blobs[id] == r.worktree[path]))
  {
  }

  /** Creating a file writes it and stages it. */
  lemma CreateMeans(h: Hashing, r: Repo, path: Path, content: Content)
    ensures var r' := Created(h, r, path, content);
            && path in r'.worktree && r'.worktree[path] == content
            && path in r'.index && r'.index[path] == IndexEntry(h.blob(content), 0)
            && (forall p :: p != path ==>
                  && (p in r'.worktree <==> p in r.worktree) && (p in r.worktree ==> r'.worktree[p] == r.worktree[p])
                  && (p in r'.index <==> p in r.index) && (p in r.index ==> r'.index[p] == r.index[p]))
            && Extends(r.objects, r'.objects) && h.blob(content) in r'.objects.blobs
            && r'.branches == r.branches && r'.branch == r.branch && r'.rebase == r.rebase
  {
  }

  /** Removing a file takes it out of the index and the working directory. */
  lemma RemoveMeans(r: Repo, path: Path)
    ensures var r' := Removed(r, path);
            && r' == r.(index := r'.index, worktree := r'.worktree)
            && path !in r'.index && path !in r'.worktree
            && (forall p :: p != path ==>
                  (p in r'.index <==> p in r.index) && (p in r.index ==> r'.index[p] == r.index[p]))
            && (forall p :: p != path ==>
                  (p in r'.worktree <==> p in r.worktree) && (p in r.worktree ==> r'.worktree[p] == r.worktree[p]))
  {
  }

  // ---------- The check for changes ----------

  /**
   A repository is not dirty exactly if the index has the paths and hashes of HEAD's stored tree,
   and each tracked file that is there has the hash of its index entry.
   */
  lemma DirtyIff(h: Hashing, r: Repo, tree: Tree)
    requires if r.branch in r.branches && r.branches[r.branch] in r.objects.commits then
               && r.objects.commits[r.branches[r.branch]].tree in r.objects.trees
               && tree == r.objects.trees[r.objects.commits[r.branches[r.branch]].tree]
             else tree == map[]
    ensures !Dirty(h, r) <==>
              && (forall p :: p in r.index <==> p in tree)
              && (forall p :: p in r.index && p in tree ==> r.index[p].hash == tree[p])
              && forall p :: p in r.worktree && p in r.index ==> h.blob(r.worktree[p]) == r.index[p].hash
  {
    hide TreeOf;
    TreeOfIs(r.index, tree);
  }

  lemma TreeOfIs(index: Index, tree: Tree)
    ensures TreeOf(index) == tree <==>
              && (forall p :: p in index <==> p in tree)
              && forall p :: p in index && p in tree ==> index[p].hash == tree[p]
  {
    var t := TreeOf(index);
    assert forall p :: p in t <==> p in index;
    assert forall p :: p in index ==> t[p] == index[p].hash;
    if (forall p :: p in index <==> p in tree) && forall p :: p in index && p in tree ==> index[p].hash == tree[p] {
      assert t.Keys == tree.Keys;
      assert t == tree;
    }
  }

  // ---------- The saved state ----------

  /** One line for each commit: the word pick, its id and its message. */
  function PickText(g: Graph, ids: seq<Id>): string
    requires AllKnown(g, ids)
  {
    if ids == [] then ""
    else
      "pick " + ids[0] + " " + g[ids[0]].message + (if |ids| == 1 then "" else "\n" + PickText(g, ids[1..]))
  }

  lemma {:induction false} TodoText(g: Graph, ids: seq<Id>)
    requires AllKnown(g, ids)
    ensures Lines.Join(TodoLines(g, ids), '\n') == PickText(g, ids)
    decreases |ids|
  {
    if |ids| > 1 {
      TodoText(g, ids[1..]);
      assert TodoLines(g, ids)[1..] == TodoLines(g, ids[1..]);
    }
  }

  /** The files that a start leaves, before anything is replayed. */
  lemma StartFiles(r: Repo, onto: Id, head: Id, ids: seq<Id>)
    requires AllKnown(r.objects.commits, ids)
    ensures var b := Begun(r, onto, head, TodoLines(r.objects.commits, ids));
            b.rebase == Some(map[
              HeadName := "refs/heads/" + r.branch,
              Onto := onto,
              OrigHead := head,
              GitRebaseTodo := PickText(r.objects.commits, ids),
              MsgNum := "1",
              Message := ""])
  {
    hide TodoLines, PickText, ResetTo, Resolve, Lines.Join;
    TodoText(r.objects.commits, ids);
    var todo := TodoLines(r.objects.commits, ids);
    StartIs(r, onto, head, todo);
    if Resolve(r, onto) in r.objects.commits
       && r.objects.commits[Resolve(r, onto)].tree in r.objects.trees {
      ResetMeans(StartSaved(r, onto, head, todo), Resolve(r, onto));
    }
  }

  lemma StartIs(r: Repo, onto: Id, head: Id, todo: seq<string>)
    ensures StartSaved(r, onto, head, todo).rebase == Some(map[
              HeadName := "refs/heads/" + r.branch, Onto := onto, OrigHead := head,
              GitRebaseTodo := Lines.Join(todo, '\n'), MsgNum := "1", Message := ""])
    ensures StartSaved(r, onto, head, todo).objects == r.objects
  {
    hide Lines.Join;
    assert Strings.Decimal(1) == "1";
    var files: Files := map[];
    assert files + map[HeadName := "refs/heads/" + r.branch, Onto := onto, OrigHead := head,
                       GitRebaseTodo := Lines.Join(todo, '\n'), MsgNum := "1", Message := ""]
        == map[HeadName := "refs/heads/" + r.branch, Onto := onto, OrigHead := head,
               GitRebaseTodo := Lines.Join(todo, '\n'), MsgNum := "1", Message := ""];
  }
}
