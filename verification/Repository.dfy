/**
 The repository: an append-only object store, the index, the working files, the branch refs
 and the rebase-merge directory; and the operations that merge, reset and rebase are made of.
 */
module RepositoryModel {
  import opened Wrappers
  import opened CommitGraph
  import opened TreeMerge
  import opened Merge3
  import opened RebaseStateFiles

  type Content = string

  datatype IndexEntry = IndexEntry(hash: Hash, stage: nat)

  type Index = map<Path, IndexEntry>

  type Worktree = map<Path, Content>

  // ---------- Objects ----------

  datatype Objects = Objects(blobs: map<Hash, Content>, trees: map<Hash, Tree>, commits: Graph)

  /** The object hash, as an arbitrary function of the content. */
  datatype Hashing = Hashing(blob: Content -> Hash, tree: Tree -> Hash, commit: Commit -> Id)

  /** Hashes are spelled in lower-case hexadecimal digits. */
  ghost predicate Hexadecimal(h: Hashing) {
    (forall x :: IsHash(h.blob(x))) && (forall x :: IsHash(h.commit(x)))
  }

  /** Objects are stored under their hash, and what an object refers to is stored too. */
  ghost predicate StoreOk(h: Hashing, o: Objects) {
    BlobsOk(h, o) && TreesOk(h, o) && CommitsOk(h, o)
  }

  ghost predicate BlobsOk(h: Hashing, o: Objects) {
    forall b :: b in o.blobs ==> h.blob(o.blobs[b]) == b && b != ""
  }

  ghost predicate TreesOk(h: Hashing, o: Objects) {
    forall t :: t in o.trees ==> h.tree(o.trees[t]) == t && TreeOk(o, o.trees[t])
  }

  ghost predicate CommitsOk(h: Hashing, o: Objects) {
    forall c :: c in o.commits ==> h.commit(o.commits[c]) == c && o.commits[c].tree in o.trees && IsHash(c)
  }

  ghost predicate TreeOk(o: Objects, tree: Tree) {
    forall p :: p in tree ==> tree[p] in o.blobs && tree[p] != ""
  }

  /** Objects are only ever added. */
  ghost predicate Extends(o: Objects, o': Objects) {
    && (forall b :: b in o.blobs ==> b in o'.blobs && o'.blobs[b] == o.blobs[b])
    && (forall t :: t in o.trees ==> t in o'.trees && o'.trees[t] == o.trees[t])
    && (forall c :: c in o.commits ==> c in o'.commits && o'.commits[c] == o.commits[c])
  }

  /** A content that was not written because another one with the same hash was stored. */
  datatype Collision =
    | Blobs(blob: Content, otherBlob: Content)
    | Trees(tree: Tree, otherTree: Tree)
    | Commits(commit: Commit, otherCommit: Commit)

  /** The first of the two is stored, and they do collide. */
  ghost predicate IsCollision(h: Hashing, o: Objects, c: Collision) {
    match c
    case Blobs(x, y) => x != y && h.blob(x) == h.blob(y) && h.blob(x) in o.blobs && o.blobs[h.blob(x)] == x
    case Trees(x, y) => x != y && h.tree(x) == h.tree(y) && h.tree(x) in o.trees && o.trees[h.tree(x)] == x
    case Commits(x, y) =>
      x != y && h.commit(x) == h.commit(y) && h.commit(x) in o.commits && o.commits[h.commit(x)] == x
  }

  /** Writing an object: one that exists is left alone. */
  function WithBlob(h: Hashing, o: Objects, content: Content): Objects {
    if h.blob(content) in o.blobs then o else o.(blobs := o.blobs[h.blob(content) := content])
  }

  function WithTree(h: Hashing, o: Objects, tree: Tree): Objects {
    if h.tree(tree) in o.trees then o else o.(trees := o.trees[h.tree(tree) := tree])
  }

  function WithCommit(h: Hashing, o: Objects, c: Commit): Objects {
    if h.commit(c) in o.commits then o else o.(commits := o.commits[h.commit(c) := c])
  }

  function BlobCollision(h: Hashing, o: Objects, content: Content): Option<Collision> {
    var id := h.blob(content);
    if id in o.blobs && o.blobs[id] != content then Some(Blobs(o.blobs[id], content)) else None
  }

  function TreeCollision(h: Hashing, o: Objects, tree: Tree): Option<Collision> {
    var id := h.tree(tree);
    if id in o.trees && o.trees[id] != tree then Some(Trees(o.trees[id], tree)) else None
  }

  function CommitCollision(h: Hashing, o: Objects, c: Commit): Option<Collision> {
    var id := h.commit(c);
    if id in o.commits && o.commits[id] != c then Some(Commits(o.commits[id], c)) else None
  }

  function First(earlier: Option<Collision>, later: Option<Collision>): Option<Collision> {
    if earlier.Some? then earlier else later
  }

  /** The blob text, or nothing where there is no such version. */
  function SafeRead(o: Objects, hash: Hash): Content {
    if hash in o.blobs then o.blobs[hash] else ""
  }

  const ZERO_HASH: Hash := "0000000000000000000000000000000000000000"

  /** The raw hash bytes in the index are zero where no hash is given. */
  function IndexHash(hash: Hash): Hash {
    if hash == "" then ZERO_HASH else hash
  }

  function Entries(tree: Tree): Index {
    map p | p in tree :: IndexEntry(tree[p], 0)
  }

  /** The tree that the index would be written as. */
  function TreeOf(index: Index): Tree {
    map p | p in index :: index[p].hash
  }

  function Contents(o: Objects, tree: Tree): Worktree {
    map p | p in tree :: SafeRead(o, tree[p])
  }

  // ---------- Operations on repository states ----------

  /** `collision` is no part of the program: it records the first collision that a write met. */
  datatype Repo = Repo(
    objects: Objects,
    index: Index,
    worktree: Worktree,
    branches: map<string, Id>,
    branch: string,
    rebase: Option<Files>,
    collision: Option<Collision>)

  ghost function ConflictText(o: Objects, c: Conflict): Content {
    MergeText(SafeRead(o, c.base), SafeRead(o, c.ours), SafeRead(o, c.theirs)).0
  }

  /** Deletions, then updates, then conflicts, except for the paths of `todo`. */
  ghost function Layered<V>(
    m: map<Path, V>, gone: set<Path>, clean: map<Path, V>, conflicts: map<Path, V>, todo: set<Path>): map<Path, V>
  {
    (m - gone) + (clean - todo) + (conflicts - todo)
  }

  lemma LayerClean<V>(
    m: map<Path, V>, gone: set<Path>, clean: map<Path, V>, conflicts: map<Path, V>, todo: set<Path>, p: Path)
    requires p in todo && p in clean && p !in conflicts
    ensures Layered(m, gone, clean, conflicts, todo - {p}) == Layered(m, gone, clean, conflicts, todo)[p := clean[p]]
  {
  }

  lemma LayerConflict<V>(
    m: map<Path, V>, gone: set<Path>, clean: map<Path, V>, conflicts: map<Path, V>, todo: set<Path>, p: Path)
    requires p in todo && p in conflicts && p !in clean
    ensures Layered(m, gone, clean, conflicts, todo - {p})
         == Layered(m, gone, clean, conflicts, todo)[p := conflicts[p]]
  {
  }

  lemma LayerEnds<V>(m: map<Path, V>, gone: set<Path>, updates: map<Path, V>)
    ensures Layered(m, gone, updates, map[], updates.Keys) == m - gone
    ensures Layered(m, gone, updates, map[], {}) == m - gone + updates
  {
  }

  /** The state after a plan was applied, the paths of `todo` excepted. */
  ghost function AppliedBut(r: Repo, plan: MergePlan, todo: set<Path>): Repo {
    var gone := set p | p in plan.deletions;
    r.(index := Layered(r.index, gone, CleanEntries(plan), ConflictEntries(plan), todo),
       worktree := Layered(r.worktree, gone, CleanTexts(r.objects, plan), ConflictTexts(r.objects, plan), todo))
  }

  function CleanEntries(plan: MergePlan): Index {
    map p | p in plan.clean :: IndexEntry(plan.clean[p], 0)
  }

  function ConflictEntries(plan: MergePlan): Index {
    map p | p in plan.conflicts :: IndexEntry(IndexHash(plan.conflicts[p].ours), 2)
  }

  function CleanTexts(o: Objects, plan: MergePlan): Worktree {
    map p | p in plan.clean :: SafeRead(o, plan.clean[p])
  }

  ghost function ConflictTexts(o: Objects, plan: MergePlan): Worktree {
    map p | p in plan.conflicts :: ConflictText(o, plan.conflicts[p])
  }

  ghost function Applied(r: Repo, plan: MergePlan): Repo {
    AppliedBut(r, plan, {})
  }

  ghost predicate BlobsFor(o: Objects, tree: Tree) {
    forall p :: p in tree ==> tree[p] in o.blobs
  }

  /** The commit a reset argument names: HEAD, a branch of that name, or a commit id. */
  function Resolve(r: Repo, commitStr: string): Id {
    if commitStr == "" || commitStr == "HEAD" then (if r.branch in r.branches then r.branches[r.branch] else "")
    else if commitStr in r.branches then r.branches[commitStr]
    else commitStr
  }

  /** Working files, index and branch all as in the commit; files no longer tracked are removed. */
  ghost function ResetTo(r: Repo, id: Id): Repo
    requires id in r.objects.commits && r.objects.commits[id].tree in r.objects.trees
  {
    var tree := r.objects.trees[r.objects.commits[id].tree];
    r.(worktree := (r.worktree - (r.index.Keys - tree.Keys)) + Contents(r.objects, tree),
       index := Entries(tree),
       branches := r.branches[r.branch := id])
  }

  function HeadOf(r: Repo): Option<Id> {
    if r.branch in r.branches && r.branches[r.branch] in r.objects.commits then Some(r.branches[r.branch]) else None
  }

  /** The commit that replays `original` on the current HEAD with the current index as its tree. */
  function ReplayCommit(h: Hashing, r: Repo, original: Commit, committer: string, now: int): Commit {
    var parents := match HeadOf(r) case None => [] case Some(id) => [id];
    Commit(parents, h.tree(TreeOf(r.index)), original.message,
           original.authorName, original.authorEmail, original.authorTime, committer, now)
  }

  function PutBlob(h: Hashing, r: Repo, content: Content): Repo {
    r.(objects := WithBlob(h, r.objects, content),
       collision := First(r.collision, BlobCollision(h, r.objects, content)))
  }

  function PutTree(h: Hashing, r: Repo, tree: Tree): Repo {
    r.(objects := WithTree(h, r.objects, tree), collision := First(r.collision, TreeCollision(h, r.objects, tree)))
  }

  function PutCommit(h: Hashing, r: Repo, c: Commit): Repo {
    r.(objects := WithCommit(h, r.objects, c), collision := First(r.collision, CommitCollision(h, r.objects, c)))
  }

  /** The tree is written first, then the commit, and the branch moves last. */
  function Committed(h: Hashing, r: Repo, original: Commit, committer: string, now: int): Repo {
    var c := ReplayCommit(h, r, original, committer, now);
    PutCommit(h, PutTree(h, r, TreeOf(r.index)), c).(branches := r.branches[r.branch := h.commit(c)])
  }

  class Repository {
    const h: Hashing
    var objects: Objects
    var index: Index
    var worktree: Worktree
    var branches: map<string, Id>
    var branch: string
    var rebase: Option<Files>
    var collision: Option<Collision>

    constructor (h: Hashing, r: Repo)
      ensures this.h == h && State() == r
    {
      this.h := h;
      objects, index, worktree := r.objects, r.index, r.worktree;
      branches, branch, rebase, collision := r.branches, r.branch, r.rebase, r.collision;
    }

    function State(): Repo
      reads this
    {
      Repo(objects, index, worktree, branches, branch, rebase, collision)
    }

    // ---------- Applying a merge plan ----------

    /**
     Deletions, then updates, then conflicts; the index is only replaced at the end, so an
     unreadable blob leaves it as it was.
     */
    method ApplyMergePlan(plan: MergePlan) returns (ok: bool)
      requires plan.clean.Keys !! plan.conflicts.Keys
      modifies this`index, this`worktree
      ensures ok ==> State() == Applied(old(State()), plan)
      ensures !ok ==> index == old(index) && exists p :: p in plan.clean && plan.clean[p] !in objects.blobs
    {
      hide MergeText, ConflictText, AppliedBut;
      ghost var start := old(State());
      var newIndex := Delete(plan.deletions);
      NothingApplied(start, plan);
      var rest := plan.clean.Keys;
      while rest != {}
        invariant rest <= plan.clean.Keys && index == old(index)
        invariant newIndex == AppliedBut(start, plan, rest + plan.conflicts.Keys).index
        invariant worktree == AppliedBut(start, plan, rest + plan.conflicts.Keys).worktree
        decreases rest
      {
        var path :| path in rest;
        if plan.clean[path] !in objects.blobs {
          return false;
        }
        CleanApplied(start, plan, rest, path);
        worktree := worktree[path := objects.blobs[plan.clean[path]]];
        newIndex := newIndex[path := IndexEntry(plan.clean[path], 0)];
        rest := rest - {path};
      }
      assert {} + plan.conflicts.Keys == plan.conflicts.Keys;
      rest := plan.conflicts.Keys;
      while rest != {}
        invariant rest <= plan.conflicts.Keys && index == old(index)
        invariant newIndex == AppliedBut(start, plan, rest).index
        invariant worktree == AppliedBut(start, plan, rest).worktree
        decreases rest
      {
        var path :| path in rest;
        var c := plan.conflicts[path];
        var base, ours, theirs := SafeRead(objects, c.base), SafeRead(objects, c.ours), SafeRead(objects, c.theirs);
        var text, conflict := Merge3.Merge3(base, ours, theirs);
        ConflictTextIs(objects, c, text, conflict);
        ConflictApplied(start, plan, rest, path);
        worktree := worktree[path := text];
        newIndex := newIndex[path := IndexEntry(IndexHash(c.ours), 2)];
        rest := rest - {path};
      }
      index := newIndex;
      AppliedRest(start, plan);
      return true;
    }

    method Delete(deletions: seq<Path>) returns (newIndex: Index)
      modifies this`worktree
      ensures newIndex == index - (set p | p in deletions)
      ensures worktree == old(worktree) - (set p | p in deletions)
    {
      newIndex := index;
      for i := 0 to |deletions|
        invariant newIndex == index - (set p | p in deletions[..i])
        invariant worktree == old(worktree) - (set p | p in deletions[..i])
      {
        worktree := worktree - {deletions[i]};
        newIndex := newIndex - {deletions[i]};
        assert deletions[..i + 1] == deletions[..i] + [deletions[i]];
      }
      assert deletions[..|deletions|] == deletions;
    }

    // ---------- Hard reset ----------

    /** Removes files that leave the index and writes those of the tree. */
    method CheckoutTree(tree: Tree) returns (ok: bool)
      modifies this`worktree
      ensures ok ==> worktree == (old(worktree) - (index.Keys - tree.Keys)) + Contents(objects, tree)
      ensures !ok ==> exists p :: p in tree && tree[p] !in objects.blobs
    {
      hide Layered;
      var rest := index.Keys;
      while rest != {}
        invariant rest <= index.Keys
        invariant worktree == old(worktree) - (index.Keys - tree.Keys - rest)
        decreases rest
      {
        var path :| path in rest;
        if path !in tree {
          worktree := worktree - {path};
        }
        rest := rest - {path};
      }
      assert index.Keys - tree.Keys - {} == index.Keys - tree.Keys;
      rest := tree.Keys;
      assert Contents(objects, tree).Keys == tree.Keys;
      LayerEnds(old(worktree), index.Keys - tree.Keys, Contents(objects, tree));
      while rest != {}
        invariant rest <= tree.Keys
        invariant worktree == Layered(old(worktree), index.Keys - tree.Keys, Contents(objects, tree), map[], rest)
        decreases rest
      {
        var path :| path in rest;
        if tree[path] !in objects.blobs {
          return false;
        }
        LayerClean(old(worktree), index.Keys - tree.Keys, Contents(objects, tree), map[], rest, path);
        worktree := worktree[path := objects.blobs[tree[path]]];
        rest := rest - {path};
      }
      return true;
    }

    /** Makes the index the tree, all entries resolved. */
    method ReadTree(tree: Tree)
      modifies this`index
      ensures index == Entries(tree)
    {
      var newIndex: Index := map[];
      var rest := tree.Keys;
      while rest != {}
        invariant rest <= tree.Keys
        invariant newIndex == map p | p in tree && p !in rest :: IndexEntry(tree[p], 0)
        decreases rest
      {
        var path :| path in rest;
        newIndex := newIndex[path := IndexEntry(tree[path], 0)];
        rest := rest - {path};
      }
      index := newIndex;
    }

    method UpdateRef(newCommit: Id)
      modifies this`branches
      ensures branches == old(branches)[branch := newCommit]
    {
      branches := branches[branch := newCommit];
    }

    /** Working files first, then the index, and the branch last. */
    method Reset(commitStr: string) returns (ok: bool)
      modifies this`worktree, this`index, this`branches
      ensures ok ==> var id := Resolve(old(State()), commitStr);
                     && id in objects.commits && objects.commits[id].tree in objects.trees
                     && State() == ResetTo(old(State()), id)
      ensures !ok ==> index == old(index) && branches == old(branches)
      ensures !ok ==> var id := Resolve(old(State()), commitStr);
                      if id in objects.commits && objects.commits[id].tree in objects.trees then
                        !BlobsFor(objects, objects.trees[objects.commits[id].tree])
                      else State() == old(State())
    {
      var id := Resolve(State(), commitStr);
      if id !in objects.commits || objects.commits[id].tree !in objects.trees {
        return false;
      }
      var tree := objects.trees[objects.commits[id].tree];
      ok := CheckoutTree(tree);
      if !ok {
        return;
      }
      ReadTree(tree);
      UpdateRef(id);
    }

    // ---------- Writing objects ----------

    method WriteBlob(content: Content) returns (id: Hash)
      modifies this`objects, this`collision
      ensures State() == PutBlob(h, old(State()), content) && id == h.blob(content)
    {
      id := h.blob(content);
      collision := First(collision, BlobCollision(h, objects, content));
      if id !in objects.blobs {
        objects := objects.(blobs := objects.blobs[id := content]);
      }
    }

    method WriteTree(tree: Tree) returns (id: Hash)
      modifies this`objects, this`collision
      ensures State() == PutTree(h, old(State()), tree) && id == h.tree(tree)
    {
      id := h.tree(tree);
      collision := First(collision, TreeCollision(h, objects, tree));
      if id !in objects.trees {
        objects := objects.(trees := objects.trees[id := tree]);
      }
    }

    method WriteCommit(c: Commit) returns (id: Id)
      modifies this`objects, this`collision
      ensures State() == PutCommit(h, old(State()), c) && id == h.commit(c)
    {
      id := h.commit(c);
      collision := First(collision, CommitCollision(h, objects, c));
      if id !in objects.commits {
        objects := objects.(commits := objects.commits[id := c]);
      }
    }

    // ---------- Committing a replayed step ----------

    method CommitRebaseStep(original: Commit, committer: string, now: int) returns (id: Id)
      modifies this`objects, this`branches, this`collision
      ensures State() == Committed(h, old(State()), original, committer, now)
      ensures id == branches[branch]
    {
      var treeHash := WriteTree(TreeOf(index));
      var parents: seq<Id> := [];
      var head := HeadOf(State());
      if head.Some? {
        parents := [head.value];
      }
      id := WriteCommit(Commit(parents, treeHash, original.message,
                               original.authorName, original.authorEmail, original.authorTime, committer, now));
      branches := branches[branch := id];
    }

    // ---------- What the user does in between ----------

    /** Editing a tracked file, or writing it again after it was deleted. */
    method EditFile(path: Path, content: Content)
      requires path in index
      modifies this`worktree
      ensures worktree == old(worktree)[path := content]
    {
      worktree := worktree[path := content];
    }

    /** Deleting a file without telling the index. */
    method DeleteFile(path: Path)
      modifies this`worktree
      ensures worktree == old(worktree) - {path}
    {
      worktree := worktree - {path};
    }

    /** Staging a file: its content becomes a blob and its entry is resolved. */
    method AddFile(path: Path)
      requires path in worktree
      modifies this`objects, this`index, this`collision
      ensures State() == Added(h, old(State()), path)
    {
      var hash := WriteBlob(worktree[path]);
      index := index[path := IndexEntry(hash, 0)];
    }

    /** Writing a file, tracked or not, and staging it. */
    method CreateFile(path: Path, content: Content)
      modifies this`objects, this`index, this`worktree, this`collision
      ensures State() == Created(h, old(State()), path, content)
    {
      worktree := worktree[path := content];
      AddFile(path);
    }

    /** Removing a file from the working directory and the index. */
    method RemoveFile(path: Path)
      modifies this`worktree, this`index
      ensures State() == Removed(old(State()), path)
    {
      worktree := worktree - {path};
      index := index - {path};
    }
  }

  function Added(h: Hashing, r: Repo, path: Path): Repo
    requires path in r.worktree
  {
    PutBlob(h, r, r.worktree[path]).(index := r.index[path := IndexEntry(h.blob(r.worktree[path]), 0)])
  }

  function Created(h: Hashing, r: Repo, path: Path, content: Content): Repo {
    Added(h, r.(worktree := r.worktree[path := content]), path)
  }

  function Removed(r: Repo, path: Path): Repo {
    r.(worktree := r.worktree - {path}, index := r.index - {path})
  }

  lemma ConflictTextIs(o: Objects, c: Conflict, text: Content, conflict: bool)
    requires (text, conflict) == MergeText(SafeRead(o, c.base), SafeRead(o, c.ours), SafeRead(o, c.theirs))
    ensures text == ConflictText(o, c)
  {
    hide MergeText;
  }

  lemma NothingApplied(r: Repo, plan: MergePlan)
    ensures var gone := set p | p in plan.deletions;
            var s := AppliedBut(r, plan, plan.clean.Keys + plan.conflicts.Keys);
            s.index == r.index - gone && s.worktree == r.worktree - gone
  {
    hide MergeText, ConflictText;
  }

  lemma CleanApplied(r: Repo, plan: MergePlan, rest: set<Path>, path: Path)
    requires plan.clean.Keys !! plan.conflicts.Keys && rest <= plan.clean.Keys && path in rest
    ensures var s := AppliedBut(r, plan, rest + plan.conflicts.Keys);
            var s' := AppliedBut(r, plan, rest - {path} + plan.conflicts.Keys);
            && s'.index == s.index[path := IndexEntry(plan.clean[path], 0)]
            && s'.worktree == s.worktree[path := SafeRead(r.objects, plan.clean[path])]
  {
    hide MergeText, ConflictText, Layered;
    var gone := set p | p in plan.deletions;
    var todo := rest + plan.conflicts.Keys;
    assert rest - {path} + plan.conflicts.Keys == todo - {path};
    LayerClean(r.index, gone, CleanEntries(plan), ConflictEntries(plan), todo, path);
    LayerClean(r.worktree, gone, CleanTexts(r.objects, plan), ConflictTexts(r.objects, plan), todo, path);
  }

  lemma ConflictApplied(r: Repo, plan: MergePlan, rest: set<Path>, path: Path)
    requires rest <= plan.conflicts.Keys && path in rest && plan.clean.Keys !! plan.conflicts.Keys
    ensures var s, s' := AppliedBut(r, plan, rest), AppliedBut(r, plan, rest - {path});
            && s'.index == s.index[path := IndexEntry(IndexHash(plan.conflicts[path].ours), 2)]
            && s'.worktree == s.worktree[path := ConflictText(r.objects, plan.conflicts[path])]
  {
    hide MergeText, ConflictText, Layered;
    var gone := set p | p in plan.deletions;
    LayerConflict(r.index, gone, CleanEntries(plan), ConflictEntries(plan), rest, path);
    LayerConflict(r.worktree, gone, CleanTexts(r.objects, plan), ConflictTexts(r.objects, plan), rest, path);
  }

  /** Applying a plan touches the index and the working files only. */
  lemma AppliedRest(r: Repo, plan: MergePlan)
    ensures Applied(r, plan) == r.(index := Applied(r, plan).index, worktree := Applied(r, plan).worktree)
  {
    hide MergeText, ConflictText;
  }

  // ---------- What these operations guarantee ----------

  /** What a plan makes of one path. */
  lemma AppliedAt(r: Repo, plan: MergePlan, p: Path)
    requires plan.clean.Keys !! plan.conflicts.Keys
    ensures var r' := Applied(r, plan);
            if p in plan.conflicts then
              && p in r'.index && r'.index[p] == IndexEntry(IndexHash(plan.conflicts[p].ours), 2)
              && p in r'.worktree && r'.worktree[p] == ConflictText(r.objects, plan.conflicts[p])
            else if p in plan.clean then
              && p in r'.index && r'.index[p] == IndexEntry(plan.clean[p], 0)
              && p in r'.worktree && r'.worktree[p] == SafeRead(r.objects, plan.clean[p])
            else
              && (p in r'.index <==> p in r.index && p !in plan.deletions)
              && (p in r'.index ==> r'.index[p] == r.index[p])
              && (p in r'.worktree <==> p in r.worktree && p !in plan.deletions)
              && (p in r'.worktree ==> r'.worktree[p] == r.worktree[p])
  {
    hide MergeText, ConflictText;
  }

  /** The tree a merge without clashes results in. */
  function MergedTree(base: Tree, ours: Tree, theirs: Tree): Tree {
    map p | p in base.Keys + ours.Keys + theirs.Keys && OutcomeAt(base, ours, theirs, p).Take?
            && OutcomeAt(base, ours, theirs, p).version.Some?
      :: OutcomeAt(base, ours, theirs, p).version.value
  }

  /** The state after a plan for the three trees was applied. */
  ghost function Merged(r: Repo, base: Tree, ours: Tree, theirs: Tree): Repo {
    if exists plan :: Implements(plan, base, ours, theirs) then
      var plan :| Implements(plan, base, ours, theirs);
      Applied(r, plan)
    else r
  }

  /** It does not matter which plan it was. */
  lemma AppliedIsMerged(r: Repo, plan: MergePlan, base: Tree, ours: Tree, theirs: Tree)
    requires Implements(plan, base, ours, theirs)
    ensures Applied(r, plan) == Merged(r, base, ours, theirs)
  {
    hide Applied, Implements;
    var plan' :| Implements(plan', base, ours, theirs) && Merged(r, base, ours, theirs) == Applied(r, plan');
    PlanUnique(plan, plan', base, ours, theirs);
    SameApplied(r, plan, plan');
  }

  lemma SameApplied(r: Repo, plan: MergePlan, plan': MergePlan)
    requires plan.clean == plan'.clean && plan.conflicts == plan'.conflicts
    requires multiset(plan.deletions) == multiset(plan'.deletions)
    ensures Applied(r, plan) == Applied(r, plan')
  {
    hide Layered, ConflictTexts, CleanTexts, ConflictEntries, CleanEntries;
    forall p
      ensures p in plan.deletions <==> p in plan'.deletions
    {
      assert p in plan.deletions <==> p in multiset(plan.deletions);
      assert p in plan'.deletions <==> p in multiset(plan'.deletions);
    }
    assert (set p | p in plan.deletions) == (set p | p in plan'.deletions);
    SameEffects(r.objects, plan, plan');
  }

  lemma SameEffects(o: Objects, plan: MergePlan, plan': MergePlan)
    requires plan.clean == plan'.clean && plan.conflicts == plan'.conflicts
    ensures CleanEntries(plan) == CleanEntries(plan') && ConflictEntries(plan) == ConflictEntries(plan')
    ensures CleanTexts(o, plan) == CleanTexts(o, plan') && ConflictTexts(o, plan) == ConflictTexts(o, plan')
  {
    hide MergeText, ConflictText;
  }

  ghost predicate Clashes(base: Tree, ours: Tree, theirs: Tree) {
    exists p :: OutcomeAt(base, ours, theirs, p) == Clash
  }

  /** Path `p` of `r'` is the three-way merge: one version, none, or a conflict on ours, with the line merge's text. */
  ghost predicate MergedAt(r: Repo, r': Repo, base: Tree, ours: Tree, theirs: Tree, p: Path) {
    match OutcomeAt(base, ours, theirs, p)
    case Take(Some(h)) =>
      && p in r'.index && r'.index[p] == IndexEntry(h, 0)
      && p in r'.worktree && r'.worktree[p] == SafeRead(r.objects, h)
    case Take(None) =>
      && p !in r'.index && (p in base || p in ours || p in theirs ==> p !in r'.worktree)
    case Clash =>
      && p in r'.index && r'.index[p] == IndexEntry(IndexHash(HashAt(ours, p)), 2)
      && p in r'.worktree
      && r'.worktree[p] == ConflictText(r.objects, Conflict(HashAt(base, p), HashAt(ours, p), HashAt(theirs, p)))
  }

  /**
   Applied to an index that holds our tree, a plan leaves exactly the merged versions, resolved,
   and marks exactly the clashing paths as conflicts on our version.
   */
  lemma ApplyMerges(r: Repo, plan: MergePlan, base: Tree, ours: Tree, theirs: Tree)
    requires Implements(plan, base, ours, theirs) && TreeOf(r.index) == ours
    ensures forall p :: MergedAt(r, Applied(r, plan), base, ours, theirs, p)
  {
    hide MergeText, Applied;
    DisjointPlan(plan, base, ours, theirs);
    forall p
      ensures MergedAt(r, Applied(r, plan), base, ours, theirs, p)
    {
      assert Decides(plan, base, ours, theirs, p);
      AppliedAt(r, plan, p);
      assert p in r.index <==> p in TreeOf(r.index);
    }
  }

  lemma DisjointPlan(plan: MergePlan, base: Tree, ours: Tree, theirs: Tree)
    requires Implements(plan, base, ours, theirs)
    ensures plan.clean.Keys !! plan.conflicts.Keys
  {
    forall p | p in plan.clean
      ensures p !in plan.conflicts
    {
      assert Decides(plan, base, ours, theirs, p);
    }
  }

  /** Without clashes the index then is the merged tree. */
  lemma ApplyMergesClean(r: Repo, plan: MergePlan, base: Tree, ours: Tree, theirs: Tree)
    requires Implements(plan, base, ours, theirs) && TreeOf(r.index) == ours
    ensures plan.conflicts == map[] <==> !Clashes(base, ours, theirs)
    ensures plan.conflicts == map[] ==> Applied(r, plan).index == Entries(MergedTree(base, ours, theirs))
  {
    hide MergeText, Applied, Implements;
    ApplyMerges(r, plan, base, ours, theirs);
    ConflictsAreClashes(plan, base, ours, theirs);
    if plan.conflicts == map[] {
      var i, e := Applied(r, plan).index, Entries(MergedTree(base, ours, theirs));
      forall p
        ensures p in i <==> p in e
        ensures p in i && p in e ==> i[p] == e[p]
      {
        assert MergedAt(r, Applied(r, plan), base, ours, theirs, p) && OutcomeAt(base, ours, theirs, p) != Clash;
      }
      assert i == e;
    }
  }

  lemma ConflictsAreClashes(plan: MergePlan, base: Tree, ours: Tree, theirs: Tree)
    requires Implements(plan, base, ours, theirs)
    ensures forall p :: p in plan.conflicts <==> OutcomeAt(base, ours, theirs, p) == Clash
    ensures plan.conflicts == map[] <==> !Clashes(base, ours, theirs)
  {
    forall p
      ensures p in plan.conflicts <==> OutcomeAt(base, ours, theirs, p) == Clash
    {
      assert Decides(plan, base, ours, theirs, p);
    }
    if plan.conflicts != map[] {
      var p :| p in plan.conflicts;
    }
  }
}
