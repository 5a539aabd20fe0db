/**
 Writing a tree and reading it back, and what a tree hash says about the index it came from.
 */
module TreeRoundTrip {
  import opened Ordering
  import opened Lines
  import opened IndexCodec
  import opened IndexFile
  import opened TreeObjects
  import opened TreeParsing

  function LeafOf(f: File): Leaf {
    Leaf(Octal(f.mode), f.hash)
  }

  /** The path that the reader gives a file below `prefix`. */
  function FullPath(prefix: Bytes, parts: seq<Bytes>): Bytes
    requires parts != []
    decreases |parts|
  {
    if |parts| == 1 then Extend(prefix, parts[0]) else FullPath(Extend(prefix, parts[0]), parts[1..])
  }

  ghost predicate FromNode(node: Node, prefix: Bytes, path: Bytes, leaf: Leaf) {
    exists parts, f :: parts != [] && Has(node, parts, f) && path == FullPath(prefix, parts) && leaf == LeafOf(f)
  }

  /** Nothing but files of `node` was added or changed. */
  ghost predicate Adds(node: Node, prefix: Bytes, tree: Leaves, tree': Leaves) {
    && tree.Keys <= tree'.Keys
    && forall k :: k in tree' ==> (k in tree && tree'[k] == tree[k]) || FromNode(node, prefix, k, tree'[k])
  }

  /** Every file of `node` is there. */
  ghost predicate Covers(node: Node, prefix: Bytes, tree: Leaves) {
    forall parts, f :: parts != [] && Has(node, parts, f) ==> FullPath(prefix, parts) in tree
  }

  /** The file at `parts` is an entry of its directory, or below one. */
  ghost predicate Under(e: TreeEntry, parts: seq<Bytes>) {
    parts != [] && parts[0] == e.name && (|parts| == 1 <==> e.mode != DIR_MODE)
  }

  ghost predicate CoversEntry(node: Node, e: TreeEntry, prefix: Bytes, tree: Leaves) {
    forall parts, f :: Under(e, parts) && Has(node, parts, f) ==> FullPath(prefix, parts) in tree
  }

  lemma AddsTwice(node: Node, prefix: Bytes, t: Leaves, t': Leaves, t'': Leaves)
    requires Adds(node, prefix, t, t') && Adds(node, prefix, t', t'')
    ensures Adds(node, prefix, t, t'')
  {
    hide FromNode;
  }

  lemma ChildPath(node: Node, d: Bytes, prefix: Bytes, path: Bytes, leaf: Leaf)
    requires d in node.dirs && FromNode(node.dirs[d], Extend(prefix, d), path, leaf)
    ensures FromNode(node, prefix, path, leaf)
  {
    hide Has;
    var parts, f :| parts != [] && Has(node.dirs[d], parts, f) && path == FullPath(Extend(prefix, d), parts)
      && leaf == LeafOf(f);
    HasBelow(node, d, parts, f);
    assert ([d] + parts)[1..] == parts;
  }

  lemma ChildAdds(node: Node, d: Bytes, prefix: Bytes, t: Leaves, t': Leaves)
    requires d in node.dirs && Adds(node.dirs[d], Extend(prefix, d), t, t')
    ensures Adds(node, prefix, t, t')
  {
    hide FromNode;
    forall k | k in t' && FromNode(node.dirs[d], Extend(prefix, d), k, t'[k])
      ensures FromNode(node, prefix, k, t'[k])
    {
      ChildPath(node, d, prefix, k, t'[k]);
    }
  }

  lemma ChildCovers(node: Node, e: TreeEntry, prefix: Bytes, t: Leaves)
    requires e.mode == DIR_MODE && e.name in node.dirs && Covers(node.dirs[e.name], Extend(prefix, e.name), t)
    ensures CoversEntry(node, e, prefix, t)
  {
    forall parts, f | Under(e, parts) && Has(node, parts, f)
      ensures FullPath(prefix, parts) in t
    {
      assert parts[1..] != [] && Has(node.dirs[e.name], parts[1..], f);
    }
  }

  lemma FileAdds(node: Node, n: Bytes, prefix: Bytes, t: Leaves)
    requires n in node.files
    ensures Adds(node, prefix, t, t[Extend(prefix, n) := LeafOf(node.files[n])])
  {
    assert Has(node, [n], node.files[n]) && FullPath(prefix, [n]) == Extend(prefix, n);
    assert FromNode(node, prefix, Extend(prefix, n), LeafOf(node.files[n]));
  }

  lemma FileCovers(node: Node, e: TreeEntry, prefix: Bytes, t: Leaves)
    requires e.mode != DIR_MODE && Extend(prefix, e.name) in t
    ensures CoversEntry(node, e, prefix, t)
  {
  }

  lemma AllCovered(sha: Bytes -> Bytes, node: Node, es: seq<TreeEntry>, prefix: Bytes, t: Leaves)
    requires Sound(node) && forall e :: e in EntriesOf(sha, node) ==> e in es
    requires forall e :: e in es ==> CoversEntry(node, e, prefix, t)
    ensures Covers(node, prefix, t)
  {
    hide TreeId, FullPath;
    forall parts, f | parts != [] && Has(node, parts, f)
      ensures FullPath(prefix, parts) in t
    {
      var e := if |parts| == 1 then TreeEntry(f.mode, parts[0], f.hash)
               else TreeEntry(DIR_MODE, parts[0], TreeId(sha, node.dirs[parts[0]]));
      assert e in EntriesOf(sha, node) && Under(e, parts);
    }
  }

  /** What reading a stored directory gives. */
  ghost predicate ReadBack(node: Node, prefix: Bytes, tree: Leaves, r: Parsed) {
    r.Tree? && Adds(node, prefix, tree, r.files) && Covers(node, prefix, r.files)
  }

  ghost predicate ReadBackEntries(node: Node, es: seq<TreeEntry>, prefix: Bytes, tree: Leaves, r: Parsed) {
    && r.Tree? && Adds(node, prefix, tree, r.files)
    && forall e :: e in es ==> CoversEntry(node, e, prefix, r.files)
  }

  /** The store holds what is below a directory, too. */
  lemma StoredBelow(sha: Bytes -> Bytes, o: Objects, node: Node, d: Bytes)
    requires Stored(sha, o, node) && d in node.dirs
    ensures Stored(sha, o, node.dirs[d])
  {
    forall p | p in Payloads(sha, node.dirs[d])
      ensures p in Payloads(sha, node)
    {
      assert p in PayloadsBelow(sha, node);
    }
  }

  lemma StoredSelf(sha: Bytes -> Bytes, o: Objects, node: Node)
    requires Stored(sha, o, node)
    ensures TreeId(sha, node) in o && o[TreeId(sha, node)] == Payload(sha, node)
  {
    assert Payload(sha, node) in Payloads(sha, node);
  }

  lemma EntryIs(sha: Bytes -> Bytes, node: Node, e: TreeEntry)
    requires Sound(node) && e in EntriesOf(sha, node) && forall x :: |sha(x)| == 20
    ensures 0 !in e.name && |e.hash| == 20
    ensures e.mode == DIR_MODE ==> e.name in node.dirs && e.hash == TreeId(sha, node.dirs[e.name])
    ensures e.mode != DIR_MODE ==> e.name in node.files && node.files[e.name] == File(e.mode, e.hash)
  {
    hide TreeId;
    assert e.mode != DIR_MODE ==> e.name in node.files;
    if e.mode == DIR_MODE {
      assert forall n :: n in node.files ==> node.files[n].mode != DIR_MODE;
      TreeIdLength(sha, node.dirs[e.name]);
    }
  }

  lemma TreeIdLength(sha: Bytes -> Bytes, node: Node)
    requires forall x :: |sha(x)| == 20
    ensures |TreeId(sha, node)| == 20
  {
    hide Payload;
  }

  /** Reading a stored tree object finds every file below it, and nothing else. */
  lemma {:induction false} ParseStored(sha: Bytes -> Bytes, o: Objects, node: Node, prefix: Bytes, tree: Leaves,
                                       levels: nat)
    requires (forall x :: |sha(x)| == 20) && Sound(node) && Stored(sha, o, node) && Shallow(node, levels)
    ensures ReadBack(node, prefix, tree, ParseInto(o, TreeId(sha, node), prefix, tree, levels))
    decreases levels, 0, 0
  {
    hide Sound, Stored, TreeId, EntriesOf, Adds, Covers, CoversEntry, ParseRest, InOrder;
    var es := InOrder(EntriesOf(sha, node), SortKey());
    StoredSelf(sha, o, node);
    EntriesInOrder(sha, node);
    NeverLegacy(es);
    ParseListed(sha, o, node, es, prefix, tree, levels - 1);
    var r := ParseRest(o, Print(es), prefix, tree, levels - 1);
    AllCovered(sha, node, es, prefix, r.files);
  }

  lemma {:induction false} ParseListed(sha: Bytes -> Bytes, o: Objects, node: Node, es: seq<TreeEntry>, prefix: Bytes,
                                       tree: Leaves, levels: nat)
    requires (forall x :: |sha(x)| == 20) && Sound(node) && Stored(sha, o, node) && Shallow(node, levels + 1)
    requires forall e :: e in es ==> e in EntriesOf(sha, node)
    ensures ReadBackEntries(node, es, prefix, tree, ParseRest(o, Print(es), prefix, tree, levels))
    decreases levels, 1, |es|
  {
    hide Sound, Stored, TreeId, EntriesOf, Adds, Covers, CoversEntry, ParseInto, ParseRest, TreeEntryBytes;
    if es == [] {
      AddsNothing(node, prefix, tree);
      NothingLeft(o, prefix, tree, levels);
    } else {
      assert es[0] in es && forall e :: e in es[1..] ==> e in es;
      EntryIs(sha, node, es[0]);
      ParsePrinted(o, es[0], Print(es[1..]), prefix, tree, levels);
      ParseEntry(sha, o, node, es[0], prefix, tree, levels);
      var t := AddEntry(o, es[0], prefix, tree, levels).files;
      ParseListed(sha, o, node, es[1..], prefix, t, levels);
      var r := ParseRest(o, Print(es[1..]), prefix, t, levels);
      AddsTwice(node, prefix, tree, t, r.files);
      CoveredStays(node, es[0], prefix, t, r.files);
      assert es == [es[0]] + es[1..];
    }
  }

  lemma NothingLeft(o: Objects, prefix: Bytes, tree: Leaves, levels: nat)
    ensures ParseRest(o, Print([]), prefix, tree, levels) == Tree(tree)
  {
  }

  lemma AddsNothing(node: Node, prefix: Bytes, tree: Leaves)
    ensures Adds(node, prefix, tree, tree)
  {
  }

  lemma CoveredStays(node: Node, e: TreeEntry, prefix: Bytes, t: Leaves, t': Leaves)
    requires CoversEntry(node, e, prefix, t) && Adds(node, prefix, t, t')
    ensures CoversEntry(node, e, prefix, t')
  {
  }

  lemma ParseEntry(sha: Bytes -> Bytes, o: Objects, node: Node, e: TreeEntry, prefix: Bytes, tree: Leaves, levels: nat)
    requires (forall x :: |sha(x)| == 20) && Sound(node) && Stored(sha, o, node) && Shallow(node, levels + 1)
    requires e in EntriesOf(sha, node)
    ensures ReadBackEntries(node, [e], prefix, tree, AddEntry(o, e, prefix, tree, levels))
    decreases levels, 1, 0
  {
    hide Sound, Stored, TreeId, EntriesOf, Adds, Covers, CoversEntry, ParseInto, Shallow;
    EntryIs(sha, node, e);
    var r := AddEntry(o, e, prefix, tree, levels);
    if e.mode == DIR_MODE {
      SoundBelow(node, e.name, levels + 1);
      StoredBelow(sha, o, node, e.name);
      ParseStored(sha, o, node.dirs[e.name], Extend(prefix, e.name), tree, levels);
      ChildAdds(node, e.name, prefix, tree, r.files);
      ChildCovers(node, e, prefix, r.files);
    } else {
      FileAdds(node, e.name, prefix, tree);
      FileCovers(node, e, prefix, r.files);
    }
  }

  // ---------- Paths ----------

  lemma {:induction false} HasPartsOk(node: Node, parts: seq<Bytes>, f: File)
    requires Sound(node) && parts != [] && Has(node, parts, f)
    ensures PartsOk(parts)
    decreases |parts|
  {
    if |parts| > 1 {
      HasPartsOk(node.dirs[parts[0]], parts[1..], f);
      assert forall i :: 0 < i < |parts| ==> parts[i] == parts[1..][i - 1];
    }
  }

  lemma {:induction false} FullPathBelow(prefix: Bytes, parts: seq<Bytes>)
    requires prefix != [] && parts != []
    ensures FullPath(prefix, parts) == prefix + [SLASH] + Join(parts, SLASH)
    decreases |parts|
  {
    if |parts| > 1 {
      FullPathBelow(Extend(prefix, parts[0]), parts[1..]);
      var rest := Join(parts[1..], SLASH);
      assert prefix + [SLASH] + parts[0] + [SLASH] + rest == prefix + [SLASH] + (parts[0] + [SLASH] + rest);
    }
  }

  predicate LeadingSlash(path: Bytes) {
    path != [] && path[0] == SLASH
  }

  /** The reader gives a file its index path, unless that begins with a slash. */
  lemma FullPathIsPath(path: Bytes)
    requires !LeadingSlash(path)
    ensures FullPath([], Split(path, SLASH)) == path
  {
    var parts := Split(path, SLASH);
    JoinSplit(path, SLASH);
    if |parts| > 1 {
      FirstNotEmpty(path);
      FullPathBelow(parts[0], parts[1..]);
    }
  }

  lemma FirstNotEmpty(path: Bytes)
    requires !LeadingSlash(path) && path != []
    ensures Split(path, SLASH)[0] != []
  {
  }

  lemma {:induction false} FullPathNoSlash(prefix: Bytes, parts: seq<Bytes>)
    requires !LeadingSlash(prefix) && PartsOk(parts)
    ensures !LeadingSlash(FullPath(prefix, parts))
    decreases |parts|
  {
    assert NameOk(parts[0]) && !LeadingSlash(parts[0]);
    if |parts| > 1 {
      assert forall i :: 0 <= i < |parts| - 1 ==> parts[1..][i] == parts[i + 1];
      FullPathNoSlash(Extend(prefix, parts[0]), parts[1..]);
    }
  }

  // ---------- The whole index ----------

  /** The index as the reader of its tree should report it. */
  function IndexLeaves(es: seq<Entry>): Leaves {
    var m := ToMap(es);
    map p | p in m :: LeafOf(FileOf(m[p]))
  }

  ghost predicate Relative(es: seq<Entry>) {
    forall p :: p in ToMap(es) ==> !LeadingSlash(p)
  }

  lemma ReadIsIndexed(es: seq<Entry>, t: Leaves, k: Bytes)
    requires Writable(es) && Relative(es) && k in t && FromNode(Build(es), [], k, t[k])
    ensures k in IndexLeaves(es) && IndexLeaves(es)[k] == t[k]
  {
    hide Split, Join, FullPath, Sound, Octal, Writable, Has, ToMap;
    BuiltIsSound(es);
    var parts, f :| parts != [] && Has(Build(es), parts, f) && k == FullPath([], parts) && t[k] == LeafOf(f);
    HasPartsOk(Build(es), parts, f);
    var p := Join(parts, SLASH);
    assert forall i :: 0 <= i < |parts| ==> NameOk(parts[i]) && SLASH !in parts[i];
    SplitJoin(parts, SLASH);
    BuiltHas(es, p, f);
    FullPathIsPath(p);
  }

  lemma IndexedIsRead(es: seq<Entry>, t: Leaves, p: Bytes)
    requires Relative(es) && p in ToMap(es) && Covers(Build(es), [], t)
    ensures p in t
  {
    hide Split, FullPath, Has, ToMap;
    var f := FileOf(ToMap(es)[p]);
    BuiltHas(es, p, f);
    FullPathIsPath(p);
    assert Has(Build(es), Split(p, SLASH), f);
  }

  /**
   Reading the tree that was written from an index gives every path of the index with its mode
   and hash, and no other: exactly if no path begins with a slash.  (The reader loses an empty
   first component.)
   */
  lemma TreeRoundTrip(sha: Bytes -> Bytes, o: Objects, es: seq<Entry>, levels: nat)
    requires (forall x :: |sha(x)| == 20) && Writable(es) && Stored(sha, o, Build(es))
    requires levels > 0 && forall e :: e in es ==> |e.path| < levels
    ensures TreeFiles(o, TreeId(sha, Build(es)), levels).Tree?
    ensures TreeFiles(o, TreeId(sha, Build(es)), levels) == Tree(IndexLeaves(es)) <==> Relative(es)
  {
    hide Stored, TreeId, Sound, Shallow, FullPath, Has, Writable, ParseInto, Relative;
    BuiltSound(es, levels);
    ParseStored(sha, o, Build(es), [], map[], levels);
    var t := TreeFiles(o, TreeId(sha, Build(es)), levels).files;
    if Relative(es) {
      AllRead(es, t);
    } else {
      SlashLost(es, t);
    }
  }

  /** So it is right after `WriteTree`, in any store and unless contents collide. */
  lemma WrittenTreeReads(sha: Bytes -> Bytes, o: Objects, o': Objects, es: seq<Entry>, levels: nat)
    requires (forall x :: |sha(x)| == 20) && Writable(es) && ContentAddressed(sha, o)
    requires Grown(sha, o, o', Payloads(sha, Build(es))) && CollisionFree(sha, o.Values + Payloads(sha, Build(es)))
    requires levels > 0 && forall e :: e in es ==> |e.path| < levels
    ensures ContentAddressed(sha, o')
    ensures TreeFiles(o', TreeId(sha, Build(es)), levels).Tree?
    ensures TreeFiles(o', TreeId(sha, Build(es)), levels) == Tree(IndexLeaves(es)) <==> Relative(es)
  {
    hide Payloads, TreeId, Grown, CollisionFree, TreeFiles, Relative, Writable, IndexLeaves;
    GrownStores(sha, o, o', Build(es));
    TreeRoundTrip(sha, o', es, levels);
  }

  lemma AllRead(es: seq<Entry>, t: Leaves)
    requires Writable(es) && Relative(es) && Adds(Build(es), [], map[], t) && Covers(Build(es), [], t)
    ensures t == IndexLeaves(es)
  {
    hide Covers, FromNode, Relative, Writable, ToMap;
    forall k | k in t
      ensures k in IndexLeaves(es) && IndexLeaves(es)[k] == t[k]
    {
      ReadIsIndexed(es, t, k);
    }
    forall p | p in IndexLeaves(es)
      ensures p in t
    {
      IndexedIsRead(es, t, p);
    }
  }

  lemma SlashLost(es: seq<Entry>, t: Leaves)
    requires Writable(es) && !Relative(es) && Adds(Build(es), [], map[], t)
    ensures t != IndexLeaves(es)
  {
    hide Writable, ToMap, Has, FullPath, Octal;
    BuiltIsSound(es);
    var p :| p in ToMap(es) && LeadingSlash(p);
    if p in t {
      var parts, f :| parts != [] && Has(Build(es), parts, f) && p == FullPath([], parts) && t[p] == LeafOf(f);
      HasPartsOk(Build(es), parts, f);
      FullPathNoSlash([], parts);
    }
    assert p in IndexLeaves(es);
  }

  /** In an absolute path the first component is lost: "/a" is read back as "a". */
  lemma LeadingSlashLost()
    ensures FullPath([], Split([SLASH, 97], SLASH)) == [97]
  {
    SplitFirst([], [97], SLASH);
    SplitWhole([97], SLASH);
    assert [] + [SLASH] + [97] == [SLASH, 97];
    assert Split([SLASH, 97], SLASH) == [[], [97]];
    assert [[], [97]][1..] == [[97]];
  }

  // ---------- The hash as an identity ----------

  lemma IndexHas(es: seq<Entry>, parts: seq<Bytes>, f: File)
    requires Writable(es) && parts != []
    ensures Has(Build(es), parts, f)
       <==> PartsOk(parts) && Join(parts, SLASH) in ToMap(es) && f == FileOf(ToMap(es)[Join(parts, SLASH)])
  {
    hide Writable, ToMap, Has, Join, Split;
    BuiltIsSound(es);
    if Has(Build(es), parts, f) {
      HasPartsOk(Build(es), parts, f);
    }
    if PartsOk(parts) {
      assert forall i :: 0 <= i < |parts| ==> NameOk(parts[i]) && SLASH !in parts[i];
      SplitJoin(parts, SLASH);
      BuiltHas(es, Join(parts, SLASH), f);
    }
  }

  /** Paths, modes and hashes of the entries, which is all that a tree records of an index. */
  ghost predicate SameIndex(es: seq<Entry>, es': seq<Entry>) {
    && ToMap(es).Keys == ToMap(es').Keys
    && forall p :: p in ToMap(es) ==> FileOf(ToMap(es)[p]) == FileOf(ToMap(es')[p])
  }

  /** The root hash does not depend on the order of the entries. */
  lemma SameTree(es: seq<Entry>, es': seq<Entry>)
    requires Writable(es) && Writable(es')
    ensures SameIndex(es, es') <==> Build(es) == Build(es')
  {
    hide Writable, ToMap, Has, Join, Split, PartsOk, Sound;
    if SameIndex(es, es') {
      BuiltIsSound(es);
      BuiltIsSound(es');
      forall parts: seq<Bytes>, f | parts != []
        ensures Has(Build(es), parts, f) <==> Has(Build(es'), parts, f)
      {
        IndexHas(es, parts, f);
        IndexHas(es', parts, f);
      }
      FilesDetermine(Build(es), Build(es'));
    }
    if Build(es) == Build(es') {
      forall p
        ensures p in ToMap(es) <==> p in ToMap(es')
        ensures p in ToMap(es) ==> FileOf(ToMap(es)[p]) == FileOf(ToMap(es')[p])
      {
        if p in ToMap(es) {
          BuiltHas(es, p, FileOf(ToMap(es)[p]));
          BuiltHas(es', p, FileOf(ToMap(es)[p]));
        }
        if p in ToMap(es') {
          BuiltHas(es, p, FileOf(ToMap(es')[p]));
          BuiltHas(es', p, FileOf(ToMap(es')[p]));
        }
      }
    }
  }

  ghost predicate Printable(es: seq<TreeEntry>) {
    forall e :: e in es ==> 0 !in e.name && |e.hash| == 20
  }

  lemma SameFront(e: TreeEntry, x: TreeEntry, rest: Bytes, rest': Bytes)
    requires 0 !in e.name && |e.hash| == 20 && 0 !in x.name && |x.hash| == 20
    requires TreeEntryBytes(e) + rest == TreeEntryBytes(x) + rest'
    ensures e == x && rest == rest'
  {
    hide TreeEntryBytes, Octal, OctalValue;
    CutEntry(e, rest);
    CutEntry(x, rest');
    OctalRoundTrip(e.mode);
    OctalRoundTrip(x.mode);
  }

  lemma PrintedEmpty(es: seq<TreeEntry>)
    ensures Print(es) == [] <==> es == []
  {
    if es != [] {
      assert |TreeEntryBytes(es[0])| > 0;
    }
  }

  /** A tree object can be printed in one way only. */
  lemma {:induction false} PrintInjective(es: seq<TreeEntry>, es': seq<TreeEntry>)
    requires Printable(es) && Printable(es') && Print(es) == Print(es')
    ensures es == es'
    decreases |es|
  {
    PrintedEmpty(es);
    PrintedEmpty(es');
    if es != [] {
      assert es[0] in es && es'[0] in es';
      SameFront(es[0], es'[0], Print(es[1..]), Print(es'[1..]));
      assert (forall e :: e in es[1..] ==> e in es) && forall e :: e in es'[1..] ==> e in es';
      PrintInjective(es[1..], es'[1..]);
      assert es == [es[0]] + es[1..] && es' == [es'[0]] + es'[1..];
    }
  }

  lemma SameEntries(sha: Bytes -> Bytes, m: Node, n: Node)
    requires (forall x :: |sha(x)| == 20) && Sound(m) && Sound(n) && Payload(sha, m) == Payload(sha, n)
    ensures EntriesOf(sha, m) == EntriesOf(sha, n)
  {
    hide Sound, EntriesOf, Print, InOrder, Ascending;
    var es, es' := InOrder(EntriesOf(sha, m), SortKey()), InOrder(EntriesOf(sha, n), SortKey());
    EntriesInOrder(sha, m);
    EntriesInOrder(sha, n);
    forall e | e in es
      ensures 0 !in e.name && |e.hash| == 20
    {
      EntryIs(sha, m, e);
    }
    forall e | e in es'
      ensures 0 !in e.name && |e.hash| == 20
    {
      EntryIs(sha, n, e);
    }
    PrintInjective(es, es');
    assert forall e :: e in EntriesOf(sha, m) <==> e in EntriesOf(sha, n);
  }

  lemma EntriesTell(sha: Bytes -> Bytes, m: Node, n: Node)
    requires (forall x :: |sha(x)| == 20) && Sound(m) && Sound(n) && EntriesOf(sha, m) == EntriesOf(sha, n)
    ensures m.files.Keys <= n.files.Keys && forall x :: x in m.files ==> n.files[x] == m.files[x]
    ensures m.dirs.Keys <= n.dirs.Keys && forall d :: d in m.dirs ==> TreeId(sha, n.dirs[d]) == TreeId(sha, m.dirs[d])
  {
    hide TreeId;
    forall x | x in m.files
      ensures x in n.files && n.files[x] == m.files[x]
    {
      assert TreeEntry(m.files[x].mode, x, m.files[x].hash) in EntriesOf(sha, m);
      EntryIs(sha, n, TreeEntry(m.files[x].mode, x, m.files[x].hash));
    }
    forall d | d in m.dirs
      ensures d in n.dirs && TreeId(sha, n.dirs[d]) == TreeId(sha, m.dirs[d])
    {
      assert TreeEntry(DIR_MODE, d, TreeId(sha, m.dirs[d])) in EntriesOf(sha, m);
      EntryIs(sha, n, TreeEntry(DIR_MODE, d, TreeId(sha, m.dirs[d])));
    }
  }

  lemma PayloadsInclude(sha: Bytes -> Bytes, node: Node)
    ensures Payload(sha, node) in Payloads(sha, node) && TreeId(sha, node) == sha(Payload(sha, node))
    ensures forall d :: d in node.dirs ==> Payloads(sha, node.dirs[d]) <= Payloads(sha, node)
  {
    forall d, p | d in node.dirs && p in Payloads(sha, node.dirs[d])
      ensures p in Payloads(sha, node)
    {
      assert p in PayloadsBelow(sha, node);
    }
  }

  /** Unless two of their objects collide, directories with the same hash are the same all the way down. */
  lemma {:induction false} SameHashSameTree(sha: Bytes -> Bytes, m: Node, n: Node)
    requires (forall x :: |sha(x)| == 20) && Sound(m) && Sound(n)
    requires CollisionFree(sha, Payloads(sha, m) + Payloads(sha, n)) && TreeId(sha, m) == TreeId(sha, n)
    ensures m == n
    decreases m
  {
    hide Sound, Payloads, Payload, TreeId, EntriesOf;
    PayloadsInclude(sha, m);
    PayloadsInclude(sha, n);
    SameEntries(sha, m, n);
    EntriesTell(sha, m, n);
    EntriesTell(sha, n, m);
    forall d | d in m.dirs
      ensures m.dirs[d] == n.dirs[d]
    {
      SoundBelow(m, d, 0);
      SoundBelow(n, d, 0);
      SameHashSameTree(sha, m.dirs[d], n.dirs[d]);
    }
    assert m.files == n.files && m.dirs == n.dirs;
  }

  /** Two indexes are written as the same tree exactly if they have the same paths, modes and hashes. */
  lemma RootHashIdentifies(sha: Bytes -> Bytes, es: seq<Entry>, es': seq<Entry>)
    requires (forall x :: |sha(x)| == 20) && Writable(es) && Writable(es')
    requires CollisionFree(sha, Payloads(sha, Build(es)) + Payloads(sha, Build(es')))
    ensures TreeId(sha, Build(es)) == TreeId(sha, Build(es')) <==> SameIndex(es, es')
  {
    hide Payloads, TreeId, SameIndex, Writable, Sound, CollisionFree;
    SameTree(es, es');
    BuiltIsSound(es);
    BuiltIsSound(es');
    if TreeId(sha, Build(es)) == TreeId(sha, Build(es')) {
      SameHashSameTree(sha, Build(es), Build(es'));
    }
  }
}
