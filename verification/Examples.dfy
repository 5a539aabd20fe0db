/**
 A small repository in which a rebase falls short of what it promises.  Each run is one of the
 commands themselves, from a repository that is ready for a rebase and not dirty.
 */
module RebaseExamples {
  import opened Wrappers
  import opened Sequences
  import opened CommitGraph
  import opened RevWalk
  import opened TreeMerge
  import opened RebaseStateFiles
  import opened RepositoryModel
  import opened SequencerInvariant
  import opened ReplayMachine
  import opened RebaseLists
  import opened RebaseCommands
  import RebaseSessions
  import Strings
  import Lines

  // ---------- Ids ----------

  /** An id of forty equal digits. */
  function Sha(c: char): (s: string)
    ensures |s| == 40 && s[0] == c && s[39] == c
  {
    seq(40, _ => c)
  }

  function TreeSha(x: char, y: char): (s: string)
    ensures |s| == 40 && s[0] == x && s[39] == y
  {
    seq(40, i => if i < 20 then x else y)
  }

  lemma ShaIsHash(c: char)
    requires IsHexDigit(c)
    ensures IsHash(Sha(c))
  {
  }

  /** The trees of this repository have two files. */
  function TwoFiles(x: char, y: char): Tree {
    map["f" := Sha(x), "g" := Sha(y)]
  }

  function BlobId(content: Content): Hash {
    Sha(if content != "" && IsHexDigit(content[0]) then content[0] else '0')
  }

  function TreeId(tree: Tree): Hash {
    if "f" in tree && "g" in tree && tree["f"] != "" && tree["g"] != "" then TreeSha(tree["f"][0], tree["g"][0])
    else TreeSha('0', '0')
  }

  const COMMITTER: string := "m"

  /** The replay on a commit. */
  function NextDigit(c: char): char {
    if c == '2' then '5' else if c == '5' then '6' else if c == '6' then '7'
    else if c == '1' then '8' else if c == '8' then '9' else '0'
  }

  function CommitDigit(c: Commit): char {
    if c.parents == [] then '1'
    else if c.committer == COMMITTER then (if c.parents[0] == "" then '0' else NextDigit(c.parents[0][0]))
    else if c.parents[0] == Sha('3') then '4'
    else if c.tree == TreeSha('c', 'a') then '2'
    else '3'
  }

  function Hashes(): Hashing {
    Hashing((c: Content) => BlobId(c), (t: Tree) => TreeId(t), (c: Commit) => Sha(CommitDigit(c)))
  }

  lemma IdsAreHex()
    ensures Hexadecimal(Hashes())
  {
    hide Sha, NextDigit;
    forall x
      ensures IsHash(Hashes().blob(x))
    {
      ShaIsHash(if x != "" && IsHexDigit(x[0]) then x[0] else '0');
    }
    forall x
      ensures IsHash(Hashes().commit(x))
    {
      DigitIsHex(x);
      ShaIsHash(CommitDigit(x));
    }
  }

  lemma DigitIsHex(c: Commit)
    ensures IsHexDigit(CommitDigit(c))
  {
  }

  // ---------- A store with four commits ----------

  function RootCommit(): Commit {
    Commit([], TreeSha('b', 'a'), "root", "n", "e", 0, "k", 0)
  }

  function TargetCommit(): Commit {
    Commit([Sha('1')], TreeSha('c', 'a'), "target", "n", "e", 0, "k", 0)
  }

  /** A commit with a message of two lines. */
  function FixCommit(): Commit {
    Commit([Sha('1')], TreeSha('b', 'e'), "fix\n#12", "n", "e", 0, "k", 0)
  }

  function DraftCommit(): Commit {
    Commit([Sha('3')], TreeSha('d', 'e'), "draft", "n", "e", 0, "k", 0)
  }

  function Blobs(): map<Hash, Content> {
    map[Sha('a') := "as before", Sha('b') := "base", Sha('c') := "changed", Sha('d') := "draft", Sha('e') := "extra"]
  }

  function Trees(): map<Hash, Tree> {
    map[TreeSha('b', 'a') := TwoFiles('b', 'a'), TreeSha('c', 'a') := TwoFiles('c', 'a'),
        TreeSha('b', 'e') := TwoFiles('b', 'e'), TreeSha('d', 'e') := TwoFiles('d', 'e')]
  }

  function History(): Graph {
    map[Sha('1') := RootCommit(), Sha('2') := TargetCommit(), Sha('3') := FixCommit(), Sha('4') := DraftCommit()]
  }

  /** 1 is the root; 2, the target, changes "f"; 3 on 1 changes "g"; and 4 on 3 changes "f", too. */
  function Store(): Objects {
    Objects(Blobs(), Trees(), History())
  }

  /** What the store has, and what replays added: trees of two files, and commits up to `last`. */
  ghost predicate Known(o: Objects, last: char) {
    && o.blobs == Blobs() && Trees().Keys <= o.trees.Keys
    && (forall t :: t in o.trees ==> |t| == 40 && o.trees[t] == TwoFiles(t[0], t[39]))
    && (forall c :: c in o.commits ==> |c| == 40 && c[0] <= last)
    && (forall c :: c in History() ==> c in o.commits && o.commits[c] == History()[c])
  }

  lemma HistoryIs()
    ensures History().Keys == {Sha('1'), Sha('2'), Sha('3'), Sha('4')}
    ensures History()[Sha('1')] == RootCommit() && History()[Sha('2')] == TargetCommit()
    ensures History()[Sha('3')] == FixCommit() && History()[Sha('4')] == DraftCommit()
  {
    hide Sha, RootCommit, TargetCommit, FixCommit, DraftCommit;
  }

  lemma TreesAre()
    ensures Trees().Keys == {TreeSha('b', 'a'), TreeSha('c', 'a'), TreeSha('b', 'e'), TreeSha('d', 'e')}
    ensures forall t :: t in Trees() ==> Trees()[t] == TwoFiles(t[0], t[39])
  {
    hide TreeSha, TwoFiles;
  }

  lemma StoreKnown()
    ensures Known(Store(), '4')
  {
    hide Sha, RootCommit, TargetCommit, FixCommit, DraftCommit, TwoFiles, TreeSha, History, Trees, Blobs;
    HistoryIs();
    TreesAre();
  }

  lemma BlobsFine()
    ensures BlobsOk(Hashes(), Store())
  {
    hide Sha, TreeSha, TwoFiles;
  }

  lemma BlobsAre()
    ensures Blobs().Keys == {Sha('a'), Sha('b'), Sha('c'), Sha('d'), Sha('e')}
  {
    hide Sha;
  }

  lemma TreeFine(x: char, y: char)
    requires {x, y} <= {'a', 'b', 'c', 'd', 'e'}
    ensures TreeId(TwoFiles(x, y)) == TreeSha(x, y) && TreeOk(Store(), TwoFiles(x, y))
    ensures TwoFiles(TreeSha(x, y)[0], TreeSha(x, y)[39]) == TwoFiles(x, y)
  {
    hide Sha, TreeSha, Blobs, Trees, History;
    BlobsAre();
  }

  lemma TreesFine()
    ensures TreesOk(Hashes(), Store())
  {
    hide Sha, TreeSha, TwoFiles, TreeId, TreeOk, Trees, Blobs, History;
    TreesAre();
    forall t | t in Trees()
      ensures TreeId(Trees()[t]) == t && TreeOk(Store(), Trees()[t])
    {
      KnownTree(t);
    }
  }

  lemma KnownTree(t: Hash)
    requires t in Trees()
    ensures TreeId(Trees()[t]) == t && TreeOk(Store(), Trees()[t])
  {
    hide Sha, TreeSha, TwoFiles, TreeId, TreeOk, Trees, Blobs, History;
    TreesAre();
    TreeFine('b', 'a');
    TreeFine('c', 'a');
    TreeFine('b', 'e');
    TreeFine('d', 'e');
  }

  lemma DigitsOf()
    ensures CommitDigit(RootCommit()) == '1' && CommitDigit(TargetCommit()) == '2'
    ensures CommitDigit(FixCommit()) == '3' && CommitDigit(DraftCommit()) == '4'
  {
    hide Sha, TreeSha;
  }

  lemma IdsFine()
    ensures forall c :: c in History() ==> IsHash(c)
  {
    hide Sha, IsHash, RootCommit, TargetCommit, FixCommit, DraftCommit, History;
    HistoryIs();
    ShaIsHash('1');
    ShaIsHash('2');
    ShaIsHash('3');
    ShaIsHash('4');
  }

  lemma CommitsFine()
    ensures CommitsOk(Hashes(), Store())
  {
    hide Sha, TreeSha, TwoFiles, CommitDigit, History, Trees, IsHash, Blobs;
    HistoryIs();
    TreesAre();
    DigitsOf();
    IdsFine();
  }

  lemma ParentsFine()
    ensures ParentsKnown(Store())
  {
    hide Sha, TreeSha, History, Trees, Blobs;
    HistoryIs();
  }

  lemma StoreFine()
    ensures StoreOk(Hashes(), Store()) && ParentsKnown(Store())
  {
    hide BlobsOk, TreesOk, CommitsOk, ParentsKnown;
    BlobsFine();
    TreesFine();
    CommitsFine();
    ParentsFine();
  }

  // ---------- The repository before the rebase ----------

  /** "main" is at 4, and the files are those of 4. */
  function Before(branches: map<string, Id>): Repo {
    Repo(Store(), TwoEntries('d', 'e'), map["f" := "draft", "g" := "extra"], branches, "main", None, None)
  }

  function TwoEntries(x: char, y: char): Index {
    map["f" := IndexEntry(Sha(x), 0), "g" := IndexEntry(Sha(y), 0)]
  }

  /** "main" at 4 and "other" at 2, and maybe branches that are called like commits. */
  ghost predicate Branches(branches: map<string, Id>) {
    "main" in branches && branches["main"] == Sha('4') && "other" in branches && branches["other"] == Sha('2')
  }

  lemma BeforeReady(branches: map<string, Id>)
    requires Branches(branches)
    ensures var r := Before(branches); Ready(Hashes(), r) && !Dirty(Hashes(), r) && HeadOf(r) == Some(Sha('4'))
    ensures TreeOf(Before(branches).index) == TwoFiles('d', 'e')
  {
    hide StoreOk, ParentsKnown, Sha, Store, Dirty;
    StoreFine();
    HeadBefore(branches);
    CleanBefore(branches);
  }

  lemma HeadBefore(branches: map<string, Id>)
    requires Branches(branches)
    ensures HeadOf(Before(branches)) == Some(Sha('4'))
  {
    hide Sha, Blobs, Trees, History;
    HistoryIs();
  }

  lemma DraftTree()
    ensures TreeAt(Store(), Sha('4')) == TwoFiles('d', 'e')
  {
    hide Sha, TreeSha, Blobs, Trees, History, TwoFiles;
    HistoryIs();
    TreesAre();
  }

  lemma TreeOfTwo(x: char, y: char)
    ensures TreeOf(TwoEntries(x, y)) == TwoFiles(x, y)
  {
    hide Sha;
    var t, u := TreeOf(TwoEntries(x, y)), TwoFiles(x, y);
    forall p
      ensures p in t <==> p in u
      ensures p in t && p in u ==> t[p] == u[p]
    {
    }
  }

  lemma FilesHashed()
    ensures BlobId("draft") == Sha('d') && BlobId("extra") == Sha('e')
  {
    hide Sha;
  }

  lemma CleanBefore(branches: map<string, Id>)
    requires Branches(branches)
    ensures !Dirty(Hashes(), Before(branches)) && TreeOf(Before(branches).index) == TwoFiles('d', 'e')
  {
    hide Sha, Store, TreeAt, TwoFiles, TreeOf, BlobId, Branches;
    HeadBefore(branches);
    DraftTree();
    TreeOfTwo('d', 'e');
    FilesHashed();
  }

  /** A repository is ready for a rebase and not dirty, although one of its files was deleted. */
  lemma MissingFileNotDirty()
    ensures var r := Before(map["main" := Sha('4'), "other" := Sha('2')]).(worktree := map["g" := "extra"]);
            Ready(Hashes(), r) && !Dirty(Hashes(), r) && HeadOf(r).Some? && r.worktree.Keys != r.index.Keys
  {
    hide StoreOk, ParentsKnown, Sha, Store;
    var r := Before(map["main" := Sha('4'), "other" := Sha('2')]);
    BeforeReady(r.branches);
    assert "f" in r.index;
  }

  // ---------- The start ----------

  /** What each commit has below it. */
  lemma Below()
    ensures forall x :: Reaches(History(), {}, Sha('1'), x) ==> x == Sha('1')
    ensures forall x :: Reaches(History(), {}, Sha('2'), x) ==> x in {Sha('1'), Sha('2')}
    ensures forall x :: Reaches(History(), {}, Sha('3'), x) ==> x in {Sha('1'), Sha('3')}
    ensures forall x :: Reaches(History(), {}, Sha('4'), x) ==> x in {Sha('1'), Sha('3'), Sha('4')}
  {
    hide Sha, TreeSha, Reaches, History;
    HistoryIs();
    ClosedHoldsReachable(History(), {}, {Sha('1')}, Sha('1'));
    ClosedHoldsReachable(History(), {}, {Sha('1'), Sha('2')}, Sha('2'));
    ClosedHoldsReachable(History(), {}, {Sha('1'), Sha('3')}, Sha('3'));
    ClosedHoldsReachable(History(), {}, {Sha('1'), Sha('3'), Sha('4')}, Sha('4'));
  }

  lemma OnlyBase()
    ensures CommonAncestor(History(), Sha('4'), Sha('2'), Sha('1'))
    ensures forall x :: BestCommonAncestor(History(), Sha('4'), Sha('2'), x) ==> x == Sha('1')
  {
    hide Sha, TreeSha, Reaches, History;
    HistoryIs();
    Below();
    ReachesSelf(History(), {}, Sha('4'));
    ReachesSelf(History(), {}, Sha('2'));
    ReachesVia(History(), {}, Sha('4'), Sha('4'), Sha('3'));
    ReachesVia(History(), {}, Sha('4'), Sha('3'), Sha('1'));
    ReachesVia(History(), {}, Sha('2'), Sha('2'), Sha('1'));
  }

  lemma NoCycle()
    ensures Acyclic(History())
  {
    hide Sha, TreeSha, Reaches, History;
    HistoryIs();
    Below();
  }

  lemma NothingBroken()
    ensures !Broken(History(), Sha('4')) && !Broken(History(), Sha('2')) && !Reaches(History(), {}, Sha('2'), Sha('4'))
  {
    hide Sha, Reaches, History, RootCommit, TargetCommit, FixCommit, DraftCommit;
    HistoryIs();
    Below();
  }

  lemma NotRefused(branches: map<string, Id>, why: Refusal)
    requires Branches(branches)
    ensures !Refusable(Hashes(), Before(branches), "other", why)
  {
    hide Sha, Reaches, Acyclic, History, Dirty, Blobs, Trees, Broken, Ready, TwoFiles, TreeOf, TwoEntries,
         CommonAncestor;
    BeforeReady(branches);
    NothingBroken();
    OnlyBase();
    NoCycle();
    assert Sha('4') != "";
  }

  lemma ListedAre()
    ensures forall c :: Reaches(History(), {"", Sha('1')}, Sha('4'), c) <==> c in {Sha('3'), Sha('4')}
  {
    hide Sha, TreeSha, Reaches, History;
    var stop := {"", Sha('1')};
    HistoryIs();
    ReachesSelf(History(), stop, Sha('4'));
    ReachesVia(History(), stop, Sha('4'), Sha('4'), Sha('3'));
    ClosedHoldsReachable(History(), stop, {Sha('3'), Sha('4')}, Sha('4'));
  }

  lemma {:induction false} NoMoreThan(ids: seq<Id>, s: set<Id>)
    requires NoRepeats(ids) && forall c :: c in ids ==> c in s
    ensures |ids| <= |s|
  {
    if ids != [] {
      var last := ids[|ids| - 1];
      NoMoreThan(ids[..|ids| - 1], s - {last});
    }
  }

  lemma TwoOfThem(ids: seq<Id>, x: Id, y: Id)
    requires NoRepeats(ids) && forall c :: c in ids <==> c in {x, y}
    requires x != y && forall i :: 0 <= i < |ids| && ids[i] == y ==> x in ids[..i]
    ensures ids == [x, y]
  {
    NoMoreThan(ids, {x, y});
    assert y in ids;
    var i :| 0 <= i < |ids| && ids[i] == y;
    var j :| 0 <= j < i && ids[j] == x;
  }

  lemma ListIs(ids: seq<Id>)
    requires IsRebaseList(History(), Sha('4'), Sha('2'), ids)
    ensures ids == [Sha('3'), Sha('4')]
  {
    hide Sha, Reaches, Acyclic, History, BestCommonAncestor, NoRepeats;
    HistoryIs();
    OnlyBase();
    NoCycle();
    ListedAre();
    var base :| IsListAbove(History(), Sha('4'), Sha('2'), ids, base);
    var g, stop := History(), {"", base};
    forall i | 0 <= i < |ids| && ids[i] == Sha('4')
      ensures Sha('3') in ids[..i]
    {
      assert Sha('3') in g[ids[i]].parents && Sha('3') !in stop;
    }
    TwoOfThem(ids, Sha('3'), Sha('4'));
  }

  /** The todo list as it is loaded: the second line of the message looks like a comment. */
  function Todo(): seq<string> {
    [PickLine(Sha('3'), "fix"), "#12", PickLine(Sha('4'), "draft")]
  }

  lemma TodoText()
    ensures Lines.Join(Todo(), '\n') == PickLine(Sha('3'), "fix\n#12") + ['\n'] + PickLine(Sha('4'), "draft")
  {
    hide Sha;
    assert Todo()[1..] == ["#12", PickLine(Sha('4'), "draft")] && Todo()[1..][1..] == [PickLine(Sha('4'), "draft")];
    assert PickLine(Sha('3'), "fix\n#12") == PickLine(Sha('3'), "fix") + ['\n'] + "#12";
  }

  lemma TodoStorable()
    ensures Strings.IsTrimmed(Lines.Join(Todo(), '\n')) && forall i :: 0 <= i < 3 ==> '\n' !in Todo()[i]
  {
    hide Lines.Join, Sha, PickLine, IsHash;
    TodoText();
    ShaIsHash('3');
    ShaIsHash('4');
    PickLineFits(Sha('3'), "fix");
    PickLineFits(Sha('4'), "draft");
    TextEnds();
  }

  lemma TextEnds()
    ensures Strings.IsTrimmed(PickLine(Sha('3'), "fix\n#12") + ['\n'] + PickLine(Sha('4'), "draft"))
  {
    hide Sha;
  }

  /** The list that is saved for the messages "fix\\n#12" and "draft". */
  lemma TodoOfMessages()
    ensures LoadedTodo([PickLine(Sha('3'), "fix\n#12"), PickLine(Sha('4'), "draft")]) == Todo()
  {
    hide Strings.Trim, PickLine, Sha;
    TodoStorable();
    TodoText();
    var lines := [PickLine(Sha('3'), "fix\n#12"), PickLine(Sha('4'), "draft")];
    assert lines[1..] == [PickLine(Sha('4'), "draft")];
    Lines.SplitJoin(Todo(), '\n');
    Strings.TrimFixpoint(Lines.Join(Todo(), '\n'));
  }

  lemma TodoSteps()
    ensures |Todo()| == 3
    ensures ReadStep(Todo()[0]) == Pick(Sha('3')) && ReadStep(Todo()[1]) == Skip
    ensures ReadStep(Todo()[2]) == Pick(Sha('4'))
  {
    hide Strings.CutAt, PickLine, IsHash, Sha;
    assert Strings.IsTrimmed(Todo()[1]);
    ShaIsHash('3');
    ShaIsHash('4');
    ReadPickLine(Sha('3'), "fix");
    ReadPickLine(Sha('4'), "draft");
  }

  // ---------- One pick ----------

  /** The current branch is at commit `k`, the index has two files, and nothing was lost. */
  ghost predicate Standing(r: Repo, k: char, x: char, y: char, last: char) {
    && r.branch == "main" && "main" in r.branches && r.branches["main"] == Sha(k)
    && Known(r.objects, last) && Sha(k) in r.objects.commits
    && TreeOf(r.index) == TwoFiles(x, y) && r.collision.None?
  }

  lemma KnownTrees(o: Objects, last: char)
    requires Known(o, last)
    ensures TreeAt(o, Sha('1')) == TwoFiles('b', 'a') && TreeAt(o, Sha('2')) == TwoFiles('c', 'a')
    ensures TreeAt(o, Sha('3')) == TwoFiles('b', 'e') && TreeAt(o, Sha('4')) == TwoFiles('d', 'e')
    ensures Sha('3') in o.commits && BaseTree(o, o.commits[Sha('3')]) == TwoFiles('b', 'a')
    ensures Sha('4') in o.commits && BaseTree(o, o.commits[Sha('4')]) == TwoFiles('b', 'e')
  {
    hide Sha, TreeSha, TwoFiles, Trees, History, Blobs;
    HistoryIs();
    TreesAre();
  }

  /** The three trees merge to `merged`, without a clash. */
  ghost predicate MergesTo(base: Tree, ours: Tree, theirs: Tree, merged: Tree) {
    forall p :: OutcomeAt(base, ours, theirs, p) == Take(TreeMerge.At(merged, p))
  }

  lemma MergesClean(base: Tree, ours: Tree, theirs: Tree, merged: Tree)
    requires MergesTo(base, ours, theirs, merged)
    ensures !Clashes(base, ours, theirs) && MergedTree(base, ours, theirs) == merged
  {
    var m := MergedTree(base, ours, theirs);
    forall p
      ensures p in m <==> p in merged
      ensures p in m && p in merged ==> m[p] == merged[p]
    {
      assert OutcomeAt(base, ours, theirs, p) == Take(TreeMerge.At(merged, p));
    }
    assert m == merged;
  }

  /** The merge of a single file. */
  predicate Settles(base: char, ours: char, theirs: char, merged: char) {
    if ours == theirs then merged == ours
    else if base == ours then merged == theirs
    else base == theirs && merged == ours
  }

  lemma TwoMerge(b: char, b': char, o: char, o': char, t: char, t': char, m: char, m': char)
    requires Settles(b, o, t, m) && Settles(b', o', t', m')
    ensures MergesTo(TwoFiles(b, b'), TwoFiles(o, o'), TwoFiles(t, t'), TwoFiles(m, m'))
  {
    hide Sha;
  }

  /** A pick whose trees merge to `merged`, over an index that is HEAD's tree. */
  ghost predicate PicksClean(r: Repo, pick: Id, merged: Tree) {
    && HeadOf(r).Some? && pick in r.objects.commits && TreeOf(r.index) == HeadTree(r)
    && MergesTo(BaseTree(r.objects, r.objects.commits[pick]), HeadTree(r), TreeAt(r.objects, pick), merged)
  }

  lemma PickMerges(r: Repo, pick: Id, merged: Tree)
    requires PicksClean(r, pick, merged)
    ensures !PickConflicts(r, pick)
    ensures var s := PickMerged(r, pick);
            s == r.(index := s.index, worktree := s.worktree) && TreeOf(s.index) == merged
  {
    hide BaseTree, TreeAt, HeadTree, Clashes, MergedTree, Merged, Applied, Entries, TreeOf, Implements, MergesTo;
    var base, ours, theirs := BaseTree(r.objects, r.objects.commits[pick]), HeadTree(r), TreeAt(r.objects, pick);
    MergesClean(base, ours, theirs, merged);
    PlanExists(base, ours, theirs);
    var plan :| Implements(plan, base, ours, theirs);
    AppliedIsMerged(r, plan, base, ours, theirs);
    AppliedRest(r, plan);
    ApplyMergesClean(r, plan, base, ours, theirs);
    EntriesTree(merged);
  }

  /** A commit on top of commit `k` gets the next id, and collides with nothing. */
  lemma Commits(s: Repo, k: char, x: char, y: char, last: char, original: Commit)
    requires Standing(s, k, x, y, last) && '4' <= last < NextDigit(k)
    ensures var s', n := Committed(Hashes(), s, original, COMMITTER, 1), NextDigit(k);
            Standing(s', n, x, y, n) && CommitAdded(s.objects, s'.objects, n, k, x, y)
  {
    hide Sha, TreeSha, TwoFiles, Trees, History, Blobs, TreeOf, NextDigit, Known, CommitDigit, WithTree, WithCommit,
         TreeCollision, CommitCollision, TreeAt;
    var h, n := Hashes(), NextDigit(k);
    TreeIdOf(x, y);
    TreeKnown(s.objects, last, x, y);
    CommitKnown(WithTree(h, s.objects, TwoFiles(x, y)), k, x, y, last, ReplayCommit(h, s, original, COMMITTER, 1));
    SameAdded(h, s.objects, n, k, x, y, ReplayCommit(h, s, original, COMMITTER, 1));
  }

  /** The commit `n` on `k`, and nothing else. */
  ghost predicate CommitAdded(o: Objects, o': Objects, n: char, k: char, x: char, y: char) {
    && Sha(n) in o'.commits && o'.commits[Sha(n)].parents == [Sha(k)] && TreeAt(o', Sha(n)) == TwoFiles(x, y)
    && forall c :: c in o.commits ==> c in o'.commits && o'.commits[c] == o.commits[c]
  }

  lemma SameAdded(h: Hashing, o: Objects, n: char, k: char, x: char, y: char, c: Commit)
    ensures var t := WithTree(h, o, TwoFiles(x, y));
            CommitAdded(t, WithCommit(h, t, c), n, k, x, y) ==> CommitAdded(o, WithCommit(h, t, c), n, k, x, y)
  {
    hide Sha, TwoFiles, TreeAt, WithCommit;
  }

  lemma TreeIdOf(x: char, y: char)
    ensures TreeId(TwoFiles(x, y)) == TreeSha(x, y)
  {
    hide Sha, TreeSha;
  }

  lemma TreeKnown(o: Objects, last: char, x: char, y: char)
    requires Known(o, last)
    ensures TreeCollision(Hashes(), o, TwoFiles(x, y)).None? && Known(WithTree(Hashes(), o, TwoFiles(x, y)), last)
    ensures var o' := WithTree(Hashes(), o, TwoFiles(x, y));
            o'.commits == o.commits && TreeSha(x, y) in o'.trees && o'.trees[TreeSha(x, y)] == TwoFiles(x, y)
  {
    hide Sha, TreeSha, TwoFiles, Trees, History, Blobs, TreeId;
    TreeIdOf(x, y);
  }

  lemma CommitKnown(o: Objects, k: char, x: char, y: char, last: char, c: Commit)
    requires Known(o, last) && '4' <= last < NextDigit(k)
    requires c.parents == [Sha(k)] && c.tree == TreeSha(x, y) && c.committer == COMMITTER
    requires TreeSha(x, y) in o.trees && o.trees[TreeSha(x, y)] == TwoFiles(x, y)
    ensures var o', n := WithCommit(Hashes(), o, c), NextDigit(k);
            && CommitDigit(c) == n && CommitCollision(Hashes(), o, c).None?
            && Known(o', n) && CommitAdded(o, o', n, k, x, y)
  {
    hide Sha, TreeSha, TwoFiles, Trees, History, Blobs, NextDigit;
    assert CommitDigit(c) == NextDigit(k);
    assert Sha(NextDigit(k)) !in o.commits;
  }

  // ---------- The loop ----------

  /** The loop is about to read line `step`, and nothing is paused. */
  ghost predicate AtLine(r: Repo, step: int) {
    && r.rebase.Some? && StoppedSha !in r.rebase.value
    && Loaded(r.rebase.value).todoSteps == Todo() && Loaded(r.rebase.value).currentStep == step
    && Loaded(r.rebase.value).origHead == Sha('4')
  }

  /** One commit on top of commit `k`, which was HEAD. */
  ghost predicate Replayed(r: Repo, r': Repo, n: char, k: char, x: char, y: char) {
    Standing(r', n, x, y, n) && CommitAdded(r.objects, r'.objects, n, k, x, y)
  }

  /** A pick without conflicts is committed, and the loop goes on. */
  lemma TakesPick(r: Repo, st: RebaseState, pick: Id, k: char, x: char, y: char, last: char, x': char, y': char)
    requires Standing(r, k, x, y, last) && '4' <= last < NextDigit(k) && PicksClean(r, pick, TwoFiles(x', y'))
    requires r.rebase.Some? && 0 <= Loaded(r.rebase.value).currentStep
    requires st == Loaded(r.rebase.value).(currentStep := st.currentStep) && 0 <= st.currentStep < |st.todoSteps|
    requires ReadStep(st.todoSteps[st.currentStep]) == Pick(pick)
    ensures PickMerged(r, pick).rebase.Some? && !PickConflicts(r, pick)
    ensures var next := st.(currentStep := st.currentStep + 1);
            var r' := Stepped(Hashes(), PickMerged(r, pick), r.objects.commits[pick], COMMITTER, 1, next);
            && ReplayFrom(Hashes(), r, st, COMMITTER, 1) == ReplayFrom(Hashes(), r', next, COMMITTER, 1)
            && Replayed(r, r', NextDigit(k), k, x', y')
            && r'.rebase.Some? && Loaded(r'.rebase.value) == next && StoppedSha !in r'.rebase.value
  {
    hide Sha, TwoFiles, Known, TreeOf, NextDigit, Loaded, Saved, ReadStep, BaseTree, TreeAt, HeadTree, ReplayFrom,
         PickMerged, PickConflicts, Committed, Todo, MergesTo;
    PickMerges(r, pick, TwoFiles(x', y'));
    ReplayTakes(Hashes(), r, st, pick, COMMITTER, 1);
    var s := PickMerged(r, pick);
    Commits(s, k, x', y', last, r.objects.commits[pick]);
    CommittedRest(Hashes(), s, r.objects.commits[pick], COMMITTER, 1);
    var next := st.(currentStep := st.currentStep + 1);
    SavedStep(r.rebase.value, next, next.currentStep);
  }

  /** The first two lines: commit 3 is replayed, and the rest of its message skipped. */
  lemma FirstLines(r: Repo, k: char, x: char) returns (r': Repo)
    requires AtLine(r, 0) && Standing(r, k, x, 'a', '4') && HeadTree(r) == TwoFiles(x, 'a') && k in {'1', '2'}
    requires x in {'b', 'c'}
    ensures 0 <= Loaded(r.rebase.value).currentStep && AtLine(r', 1)
    ensures var st := Loaded(r'.rebase.value);
            ContinueFrom(Hashes(), r, COMMITTER, 1) == ReplayFrom(Hashes(), r', st.(currentStep := 2), COMMITTER, 1)
    ensures Replayed(r, r', NextDigit(k), k, x, 'e')
  {
    hide Sha, TwoFiles, Known, TreeOf, Loaded, ReadStep, BaseTree, TreeAt, HeadTree, ReplayFrom, PickMerged,
         PickConflicts, Stepped, MergesTo, PickLine;
    KnownTrees(r.objects, '4');
    TodoSteps();
    TwoMerge('b', 'a', x, 'a', 'b', 'e', x, 'e');
    var st := Loaded(r.rebase.value);
    TakesPick(r, st, Sha('3'), k, x, 'a', '4', x, 'e');
    r' := Stepped(Hashes(), PickMerged(r, Sha('3')), r.objects.commits[Sha('3')], COMMITTER, 1, st.(currentStep := 1));
    ReplaySkips(Hashes(), r', Loaded(r'.rebase.value), COMMITTER, 1);
  }

  // ---------- The pause ----------

  lemma ReplayPauses(h: Hashing, r: Repo, state: RebaseState, pick: Id, committer: string, now: int)
    requires r.rebase.Some? && 0 <= state.currentStep < |state.todoSteps| && pick in r.objects.commits
    requires ReadStep(state.todoSteps[state.currentStep]) == Pick(pick) && PickConflicts(r, pick)
    ensures ReplayFrom(h, r, state, committer, now)
         == (PickMerged(r, pick).(rebase := Some(r.rebase.value[StoppedSha := pick])), Stopped(pick))
  {
    hide ReadStep, PickMerged, PickConflicts;
  }

  /** The rebase is paused at the last line, on a replay of commit 3, and the line before is not saved as done. */
  ghost predicate PausedHere(p: Repo) {
    && p.rebase.Some? && StoppedSha in p.rebase.value && p.rebase.value[StoppedSha] == Sha('4')
    && Loaded(p.rebase.value).todoSteps == Todo() && Loaded(p.rebase.value).currentStep == 1
    && Loaded(p.rebase.value).origHead == Sha('4')
    && p.branch == "main" && "main" in p.branches && p.branches["main"] == Sha('5')
    && Known(p.objects, '5') && Sha('5') in p.objects.commits && TreeAt(p.objects, Sha('5')) == TwoFiles('c', 'e')
    && p.collision.None? && p.index == map["f" := IndexEntry(Sha('c'), 2), "g" := IndexEntry(Sha('e'), 0)]
  }

  lemma ClashOutcomes(p: Path)
    ensures OutcomeAt(TwoFiles('b', 'e'), TwoFiles('c', 'e'), TwoFiles('d', 'e'), p)
         == if p == "f" then Clash else if p == "g" then Take(Some(Sha('e'))) else Take(None)
    ensures HashAt(TwoFiles('c', 'e'), "f") == Sha('c')
  {
    hide Sha;
  }

  /** The last pick clashes in "f". */
  lemma LastClashes(r: Repo)
    requires Standing(r, '5', 'c', 'e', '5') && HeadTree(r) == TwoFiles('c', 'e')
    ensures HeadOf(r).Some? && Sha('4') in r.objects.commits && PickConflicts(r, Sha('4'))
    ensures var s := PickMerged(r, Sha('4'));
            && s == r.(index := s.index, worktree := s.worktree)
            && s.index == map["f" := IndexEntry(Sha('c'), 2), "g" := IndexEntry(Sha('e'), 0)]
  {
    hide Sha, TwoFiles, Known, TreeOf, BaseTree, TreeAt, HeadTree, Merged, Applied, Implements, OutcomeAt, HashAt,
         MergedAt;
    KnownTrees(r.objects, '5');
    var base, ours, theirs := TwoFiles('b', 'e'), TwoFiles('c', 'e'), TwoFiles('d', 'e');
    ClashOutcomes("f");
    PlanExists(base, ours, theirs);
    var plan :| Implements(plan, base, ours, theirs);
    AppliedIsMerged(r, plan, base, ours, theirs);
    AppliedRest(r, plan);
    ApplyMerges(r, plan, base, ours, theirs);
    ClashIndex(r, Applied(r, plan));
  }

  lemma ClashIndex(r: Repo, s: Repo)
    requires forall p :: MergedAt(r, s, TwoFiles('b', 'e'), TwoFiles('c', 'e'), TwoFiles('d', 'e'), p)
    ensures s.index == map["f" := IndexEntry(Sha('c'), 2), "g" := IndexEntry(Sha('e'), 0)]
  {
    hide Sha, TwoFiles, OutcomeAt, HashAt, ConflictText, SafeRead;
    forall p
      ensures p in s.index <==> p == "f" || p == "g"
      ensures p == "f" ==> s.index[p] == IndexEntry(Sha('c'), 2)
      ensures p == "g" ==> s.index[p] == IndexEntry(Sha('e'), 0)
    {
      ClashOutcomes(p);
      assert MergedAt(r, s, TwoFiles('b', 'e'), TwoFiles('c', 'e'), TwoFiles('d', 'e'), p);
    }
  }

  lemma RunsToPause(r: Repo) returns (p: Repo)
    requires AtLine(r, 0) && Standing(r, '2', 'c', 'a', '4') && HeadTree(r) == TwoFiles('c', 'a')
    ensures 0 <= Loaded(r.rebase.value).currentStep
    ensures ContinueFrom(Hashes(), r, COMMITTER, 1) == (p, Stopped(Sha('4'))) && PausedHere(p)
  {
    hide Sha, TwoFiles, Known, TreeOf, Loaded, ReadStep, BaseTree, TreeAt, ReplayFrom, ContinueFrom, PickMerged,
         PickConflicts, PickLine;
    var s := FirstLines(r, '2', 'c');
    TodoSteps();
    LastClashes(s);
    ReplayPauses(Hashes(), s, Loaded(s.rebase.value).(currentStep := 2), Sha('4'), COMMITTER, 1);
    MarkerKeepsState(s.rebase.value, Sha('4'));
    p := PickMerged(s, Sha('4')).(rebase := Some(s.rebase.value[StoppedSha := Sha('4')]));
  }

  // ---------- The resolution ----------

  /** The version of the pick is taken and staged. */
  function Resolved(p: Repo): Repo {
    Added(Hashes(), p.(worktree := p.worktree["f" := "draft"]), "f")
  }

  lemma ResolvedStands(p: Repo)
    requires PausedHere(p)
    ensures var q := Resolved(p);
            && Standing(q, '5', 'd', 'e', '5') && HeadTree(q) == TwoFiles('c', 'e')
            && q.rebase == p.rebase && q.objects == p.objects && q.branch == p.branch && q.branches == p.branches
            && q.index == TwoEntries('d', 'e')
  {
    hide Sha, TwoFiles, Loaded, TreeOf, Known, Resolved;
    KnownBlobs(p.objects, '5');
    ResolvedIs(p);
    TreeOfTwo('d', 'e');
  }

  lemma KnownBlobs(o: Objects, last: char)
    requires Known(o, last)
    ensures Sha('d') in o.blobs && o.blobs[Sha('d')] == "draft"
  {
    hide Sha, Trees, History, TwoFiles;
  }

  lemma ResolvedIs(p: Repo)
    requires Sha('d') in p.objects.blobs && p.objects.blobs[Sha('d')] == "draft" && p.collision.None?
    requires p.index == map["f" := IndexEntry(Sha('c'), 2), "g" := IndexEntry(Sha('e'), 0)]
    ensures Resolved(p) == p.(index := TwoEntries('d', 'e'), worktree := p.worktree["f" := "draft"])
  {
    hide Sha, BlobId;
    FilesHashed();
    assert p.index["f" := IndexEntry(Sha('d'), 0)] == TwoEntries('d', 'e');
  }

  lemma TwoResolved(x: char, y: char)
    ensures AllResolved(TwoEntries(x, y))
  {
    hide Sha;
  }

  /** The resolved pick is the next one of the list, although it was committed. */
  lemma ResolvedResumable(p: Repo)
    requires PausedHere(p) && InProgress(Hashes(), Resolved(p))
    ensures Resumable(Hashes(), Resolved(p), Sha('4'))
  {
    hide Sha, TwoFiles, Loaded, TreeOf, Known, Resolved, InProgress, ReadStep, NextPick, AllResolved, PickLine,
         OutcomeAt, BaseTree, TreeAt;
    ResolvedStands(p);
    TwoResolved('d', 'e');
    KnownTrees(p.objects, '5');
    ClashOutcomes("f");
    ShaIsHash('4');
    HashIsTrimmed(Sha('4'));
    TodoSteps();
    LastIsNext();
    InProgressHead(Resolved(p));
  }

  lemma LastIsNext()
    ensures NextPick(Todo(), 1) == 2
  {
    hide Sha, ReadStep, PickLine;
    TodoSteps();
  }

  lemma InProgressHead(r: Repo)
    requires Standing(r, '5', 'd', 'e', '5')
    ensures HeadOf(r) == Some(Sha('5'))
  {
    hide Sha, Known, TreeOf, TwoFiles;
  }

  /** The resolution is committed, and commit 4 is to be picked once more. */
  lemma ResumedStands(p: Repo)
    requires PausedHere(p)
    ensures var q := Resolved(p);
            && Sha('4') in q.objects.commits && q.rebase.Some? && Loaded(q.rebase.value).currentStep == 1
            && var m := Resumed(Hashes(), q, Sha('4'), COMMITTER, 1);
               && Standing(m, '6', 'd', 'e', '6') && Sha('4') in m.objects.commits
               && PicksClean(m, Sha('4'), TwoFiles('d', 'e'))
               && m.rebase.Some? && Loaded(m.rebase.value) == Loaded(q.rebase.value).(currentStep := 2)
  {
    hide Sha, TwoFiles, Loaded, TreeOf, Known, Resolved, BaseTree, TreeAt, Committed, Saved, MergesTo, Todo;
    var q := Resolved(p);
    ResolvedStands(p);
    KnownTrees(q.objects, '5');
    Commits(q, '5', 'd', 'e', '5', q.objects.commits[Sha('4')]);
    CommittedRest(Hashes(), q, q.objects.commits[Sha('4')], COMMITTER, 1);
    SavedStep(q.rebase.value, Loaded(q.rebase.value).(currentStep := 2), 2);
    KnownTrees(Resumed(Hashes(), q, Sha('4'), COMMITTER, 1).objects, '6');
    TwoMerge('b', 'e', 'd', 'e', 'd', 'e', 'd', 'e');
  }

  /** The pick is made once more, and the rebase finishes. */
  lemma FinishesTwice(p: Repo) returns (r': Repo)
    requires PausedHere(p) && InProgress(Hashes(), Resolved(p))
    ensures Resolved(p).rebase.Some? && 0 <= Loaded(Resolved(p).rebase.value).currentStep
    ensures ContinueFrom(Hashes(), Resolved(p), COMMITTER, 1) == (r', Done)
    ensures HeadOf(r') == Some(Sha('7')) && r'.collision.None? && r'.rebase.None?
    ensures Replays(r'.objects, Sha('7'), Sha('6'), Sha('4')) && Replays(r'.objects, Sha('6'), Sha('5'), Sha('4'))
  {
    hide Sha, TwoFiles, Loaded, TreeOf, Known, Resolved, InProgress, ReadStep, NextPick, AllResolved, PickLine,
         BaseTree, TreeAt, ContinueFrom, ReplayFrom, PickConflicts, PickMerged, Committed, Saved, Resumable, MergesTo,
         Replays, Todo, Resumed, Stepped, PicksClean, CommitAdded, Hexadecimal;
    var h, q := Hashes(), Resolved(p);
    IdsAreHex();
    ResolvedStands(p);
    ResolvedResumable(p);
    ResumedStands(p);
    TodoSteps();
    LastIsNext();
    var m, st := Resumed(h, q, Sha('4'), COMMITTER, 1), Loaded(q.rebase.value);
    TakesPick(m, st.(currentStep := 2), Sha('4'), '6', 'd', 'e', '6', 'd', 'e');
    PickedTwice(h, q, Sha('4'), COMMITTER, 1);
    var last := st.(currentStep := 3);
    var s := Stepped(h, PickMerged(m, Sha('4')), m.objects.commits[Sha('4')], COMMITTER, 1, last);
    ReplayEnds(h, s, last, COMMITTER, 1);
    r' := s.(rebase := None);
  }

  // ---------- The commands ----------

  /** The file of commit `k` that the target changed. */
  function FileAt(k: char): char {
    if k == '2' then 'c' else 'b'
  }

  lemma TodoIs()
    ensures AllKnown(History(), [Sha('3'), Sha('4')])
    ensures LoadedTodo(TodoLines(History(), [Sha('3'), Sha('4')])) == Todo()
  {
    hide Sha, PickLine, LoadedTodo, History, Todo;
    HistoryIs();
    TodoOfMessages();
    var ids := [Sha('3'), Sha('4')];
    assert TodoLines(History(), ids) == [PickLine(Sha('3'), "fix\n#12"), PickLine(Sha('4'), "draft")];
  }

  /** The target is checked out, or what else its id resolves to. */
  lemma BegunStands(branches: map<string, Id>, k: char)
    requires Branches(branches) && k in {'1', '2'} && Resolve(Before(branches), Sha('2')) == Sha(k)
    ensures AllKnown(History(), [Sha('3'), Sha('4')])
    ensures var b := Begun(Before(branches), Sha('2'), Sha('4'), TodoLines(History(), [Sha('3'), Sha('4')]));
            AtLine(b, 0) && Standing(b, k, FileAt(k), 'a', '4') && HeadTree(b) == TwoFiles(FileAt(k), 'a')
  {
    hide Sha, TwoFiles, Known, PickLine, LoadedTodo, Loaded, Resolve, TreeOf, TodoLines, Todo, Saved, Entries,
         Contents, Store;
    TodoIs();
    var r, todo := Before(branches), TodoLines(History(), [Sha('3'), Sha('4')]);
    ShaIsHash('2');
    ShaIsHash('4');
    StartSavedLoads(Hashes(), r, Sha('2'), Sha('4'), todo);
    StoreKnown();
    StoredAt(k);
    EntriesTree(TwoFiles(FileAt(k), 'a'));
    ResetStands(r, StartSaved(r, Sha('2'), Sha('4'), todo), k);
  }

  lemma StoredAt(k: char)
    requires k in {'1', '2'}
    ensures Sha(k) in Store().commits && Store().commits[Sha(k)].tree in Store().trees
    ensures Store().trees[Store().commits[Sha(k)].tree] == TwoFiles(FileAt(k), 'a')
  {
    hide Sha, TreeSha, TwoFiles, History, Trees;
    HistoryIs();
    TreesAre();
  }

  lemma ResetStands(r: Repo, s: Repo, k: char)
    requires Sha(k) in s.objects.commits && s.objects.commits[Sha(k)].tree in s.objects.trees
    requires s.branch == "main" && s.rebase.Some?
    ensures var b := ResetTo(s, Sha(k));
            && b.branch == "main" && "main" in b.branches && b.branches["main"] == Sha(k) && HeadOf(b) == Some(Sha(k))
            && b.rebase == s.rebase && b.objects == s.objects && b.collision == s.collision
            && b.index == Entries(s.objects.trees[s.objects.commits[Sha(k)].tree])
  {
    hide Sha, Contents, Entries;
  }

  lemma StartedIs(branches: map<string, Id>, k: char, r': Repo, out: RunOutcome) returns (b: Repo)
    requires Branches(branches) && k in {'1', '2'} && Resolve(Before(branches), Sha('2')) == Sha(k)
    requires Started(Hashes(), Before(branches), r', out, "other", COMMITTER, 1)
    ensures AtLine(b, 0) && Standing(b, k, FileAt(k), 'a', '4') && HeadTree(b) == TwoFiles(FileAt(k), 'a')
    ensures 0 <= Loaded(b.rebase.value).currentStep && (r', out) == ContinueFrom(Hashes(), b, COMMITTER, 1)
    ensures r'.rebase.Some? ==> InProgress(Hashes(), r')
    ensures SameOtherRefs(Before(branches), r')
  {
    hide Sha, TwoFiles, Known, LoadedTodo, Loaded, Resolve, TreeOf, TodoLines, Todo, Saved, Store, Begun,
         ContinueFrom, IsRebaseList, InProgress, Grows, Consistent, Justified, Since, HeadTree, History, OnTrack;
    var r := Before(branches);
    BeforeReady(branches);
    var ids :| StartedWith(Hashes(), r, r', out, "other", ids, COMMITTER, 1);
    HistoryOfStore();
    ListIs(ids);
    BegunStands(branches, k);
    HistoryIs();
    b := Begun(r, Sha('2'), Sha('4'), TodoLines(History(), ids));
  }

  lemma HistoryOfStore()
    ensures Store().commits == History()
  {
    hide History, Blobs, Trees;
  }

  /** HEAD is no chain of two replays above the target. */
  lemma NotAllReplayed(branches: map<string, Id>, r': Repo, c: Id, c': Id, c'': Id)
    requires Branches(branches) && HeadOf(r') == Some(c) && c in r'.objects.commits && c' in r'.objects.commits
    requires r'.objects.commits[c].parents == [c'] && r'.objects.commits[c'].parents == [c''] && c'' != Sha('2')
    ensures !ReplayedAll(Before(branches), r', "other")
  {
    hide Sha, History, Store, IsRebaseList, Clashes, MergedTree, TreeAt, BaseTree;
    var r := Before(branches);
    HistoryOfStore();
    HeadBefore(branches);
    if ReplayedAll(r, r', "other") {
      var ids :| IsRebaseList(History(), Sha('4'), Sha('2'), ids) && Chain(r'.objects, Sha('2'), c, ids);
      ListIs(ids);
      ChainOfTwo(r'.objects, Sha('2'), c, Sha('3'), Sha('4'));
      assert false;
    }
  }

  lemma ChainOfTwo(o: Objects, onto: Id, head: Id, x: Id, y: Id)
    requires Chain(o, onto, head, [x, y])
    ensures head in o.commits && |o.commits[head].parents| == 1 && o.commits[head].parents[0] in o.commits
    ensures o.commits[o.commits[head].parents[0]].parents == [onto]
  {
    hide Clashes, MergedTree, TreeAt, BaseTree;
    assert [x, y][..1] == [x] && [x][..0] == [];
    var prev :| Replays(o, head, prev, y) && Chain(o, onto, prev, [x]);
    var prev' :| Replays(o, prev, prev', x) && Chain(o, onto, prev', []);
  }

  /** On the root both commits are replayed without a pause. */
  lemma RunsToEnd(r: Repo) returns (r': Repo)
    requires AtLine(r, 0) && Standing(r, '1', 'b', 'a', '4') && HeadTree(r) == TwoFiles('b', 'a')
    ensures 0 <= Loaded(r.rebase.value).currentStep
    ensures ContinueFrom(Hashes(), r, COMMITTER, 1) == (r', Done)
    ensures HeadOf(r') == Some(Sha('9')) && r'.collision.None? && r'.rebase.None?
    ensures Sha('8') in r'.objects.commits
    ensures r'.objects.commits[Sha('9')].parents == [Sha('8')] && r'.objects.commits[Sha('8')].parents == [Sha('1')]
  {
    hide Sha, TwoFiles, Known, TreeOf, Loaded, ReadStep, BaseTree, TreeAt, ReplayFrom, ContinueFrom, PickMerged,
         PickConflicts, PickLine, Stepped, MergesTo, Todo;
    var s := FirstLines(r, '1', 'b');
    TodoSteps();
    KnownTrees(s.objects, '8');
    TwoMerge('b', 'e', 'b', 'e', 'd', 'e', 'd', 'e');
    var st := Loaded(s.rebase.value);
    TakesPick(s, st.(currentStep := 2), Sha('4'), '8', 'b', 'e', '8', 'd', 'e');
    var last := st.(currentStep := 3);
    var t := Stepped(Hashes(), PickMerged(s, Sha('4')), s.objects.commits[Sha('4')], COMMITTER, 1, last);
    ReplayEnds(Hashes(), t, last, COMMITTER, 1);
    r' := t.(rebase := None);
  }

  /** The rebase of "main" on "other", which pauses at the last line of the list. */
  method StartAndPause(branches: map<string, Id>) returns (repo: Repository)
    requires Branches(branches) && Resolve(Before(branches), Sha('2')) == Sha('2')
    ensures repo.h == Hashes() && fresh(repo)
    ensures PausedHere(repo.State()) && InProgress(Hashes(), repo.State())
    ensures SameOtherRefs(Before(branches), repo.State())
  {
    hide Sha, TwoFiles, Known, Loaded, Resolve, TreeOf, Todo, Store, ContinueFrom, InProgress, HeadTree, Ready, Dirty,
         Refusable, Started, Hexadecimal, ReplayedAll, Faithful, PausedHere, Branches, SameOtherRefs, AtLine,
         Standing;
    IdsAreHex();
    BeforeReady(branches);
    repo := new Repository(Hashes(), Before(branches));
    var result := Rebase(repo, "other", COMMITTER, 1);
    if result.Refused? {
      NotRefused(branches, result.why);
      assert false;
    }
    ghost var b := StartedIs(branches, '2', repo.State(), result.outcome);
    ghost var p := RunsToPause(b);
    PausedRebases(p);
  }

  lemma PausedRebases(p: Repo)
    requires PausedHere(p)
    ensures p.rebase.Some?
  {
    hide Sha, TwoFiles, Known, Loaded, Todo;
  }

  /**
   A rebase of two commits that pauses once: start, the clash is resolved and staged, continue.
   It finishes with two replays of commit 4, one on the other.
   */
  method TwoReplays() returns (repo: Repository, outcome: RunOutcome)
    ensures outcome == Done && repo.rebase.None? && repo.collision.None? && HeadOf(repo.State()) == Some(Sha('7'))
    ensures Replays(repo.objects, Sha('7'), Sha('6'), Sha('4')) && Replays(repo.objects, Sha('6'), Sha('5'), Sha('4'))
    ensures !ReplayedAll(Before(map["main" := Sha('4'), "other" := Sha('2')]), repo.State(), "other")
  {
    hide Sha, Known, Loaded, TreeOf, Todo, Store, ContinueFrom, InProgress, HeadTree, Hexadecimal, ReplayedAll,
         PausedHere, Replays, OnTrack, Extends, Continued;
    var branches := map["main" := Sha('4'), "other" := Sha('2')];
    repo := StartAndPause(branches);
    ghost var p := repo.State();
    ResolutionKeeps(p);
    repo.EditFile("f", "draft");
    repo.AddFile("f");
    assert repo.State() == Resolved(p);
    ghost var r' := FinishesTwice(p);
    outcome := RebaseContinue(repo, COMMITTER, 1);
    TwiceIsNotAll(branches, r');
  }

  lemma ResolutionKeeps(p: Repo)
    requires PausedHere(p) && InProgress(Hashes(), p)
    ensures p.rebase.Some? && "f" in p.index && InProgress(Hashes(), Resolved(p)) && Hexadecimal(Hashes())
  {
    hide Sha, TwoFiles, Known, Loaded, Todo, InProgress, OnTrack, Extends, Hexadecimal;
    IdsAreHex();
    NoneUntracked(p);
    AddKeeps(Hashes(), p, p.worktree["f" := "draft"], "f");
  }

  lemma NoneUntracked(r: Repo)
    requires InProgress(Hashes(), r)
    ensures r.worktree.Keys <= r.index.Keys
  {
    hide Loaded, StoreOk;
  }

  lemma TwiceIsNotAll(branches: map<string, Id>, r': Repo)
    requires Branches(branches) && HeadOf(r') == Some(Sha('7'))
    requires Replays(r'.objects, Sha('7'), Sha('6'), Sha('4')) && Replays(r'.objects, Sha('6'), Sha('5'), Sha('4'))
    ensures !ReplayedAll(Before(branches), r', "other")
  {
    hide Sha, ReplayedAll, Clashes, MergedTree, TreeAt, BaseTree, Before, Branches;
    NotAllReplayed(branches, r', Sha('7'), Sha('6'), Sha('5'));
  }

  // ---------- Branches that are called like commits ----------

  /**
   A branch may have the id of the original HEAD as its name.  If it is elsewhere, an abort goes
   there, and the original HEAD is not restored.
   */
  method AbortMisled() returns (repo: Repository, ok: bool)
    ensures ok && HeadOf(repo.State()) == Some(Sha('1'))
    ensures var r := Before(map["main" := Sha('4'), "other" := Sha('2'), Sha('4') := Sha('1')]);
            !RebaseSessions.Restored(r, repo.State())
  {
    hide Known, Loaded, TreeOf, Todo, InProgress, TwoFiles, Contents, Entries, Consistent, MatchesCommit;
    var branches := map["main" := Sha('4'), "other" := Sha('2'), Sha('4') := Sha('1')];
    repo := StartAndPause(branches);
    RootIsKnown(repo.objects);
    ok := RebaseAbort(repo);
  }

  lemma RootIsKnown(o: Objects)
    requires Known(o, '5')
    ensures Sha('1') in o.commits
  {
    hide Sha, Trees, Blobs, TwoFiles;
    HistoryIs();
  }

  /** In the same way a rebase starts from the wrong commit, and replays both commits there. */
  method StartMisled() returns (repo: Repository, result: StartResult)
    ensures result == Ran(Done) && repo.rebase.None? && repo.collision.None? && HeadOf(repo.State()) == Some(Sha('9'))
    ensures repo.objects.commits[Sha('9')].parents == [Sha('8')]
    ensures Sha('8') in repo.objects.commits && repo.objects.commits[Sha('8')].parents == [Sha('1')]
    ensures var r := Before(map["main" := Sha('4'), "other" := Sha('2'), Sha('2') := Sha('1')]);
            !ReplayedAll(r, repo.State(), "other")
  {
    hide Sha, TwoFiles, Known, Loaded, TreeOf, Todo, Store, ContinueFrom, InProgress, HeadTree, Ready, Dirty, Refusable,
         Started, Hexadecimal, ReplayedAll, Faithful, SameOtherRefs;
    var branches := map["main" := Sha('4'), "other" := Sha('2'), Sha('2') := Sha('1')];
    IdsAreHex();
    BeforeReady(branches);
    repo := new Repository(Hashes(), Before(branches));
    result := Rebase(repo, "other", COMMITTER, 1);
    if result.Refused? {
      NotRefused(branches, result.why);
      assert false;
    }
    ghost var b := StartedIs(branches, '1', repo.State(), result.outcome);
    ghost var r' := RunsToEnd(b);
    NotAllReplayed(branches, r', Sha('9'), Sha('8'), Sha('1'));
  }
}
