/**
 Tree objects: the index paths as nested directories, and each directory printed and stored
 under its hash, children first.  The hash is an arbitrary function with 20-byte results.
 */
module TreeObjects {
  import opened Ordering
  import opened Lines
  import opened IndexCodec
  import opened IndexFile

  datatype File = File(mode: U32, hash: Bytes)

  /** A directory in memory. */
  datatype Node = Node(files: map<Bytes, File>, dirs: map<Bytes, Node>)

  const EMPTY := Node(map[], map[])

  const SLASH: Byte := 47

  const DIR_MODE: U32 := 16384   // octal 40000

  // ---------- Building ----------

  function AddToTree(node: Node, parts: seq<Bytes>, f: File): Node
    requires parts != []
    decreases |parts|
  {
    if |parts| == 1 then node.(files := node.files[parts[0] := f])
    else
      var child := if parts[0] in node.dirs then node.dirs[parts[0]] else EMPTY;
      node.(dirs := node.dirs[parts[0] := AddToTree(child, parts[1..], f)])
  }

  function FileOf(e: Entry): File {
    File(e.stat.mode, e.hash)
  }

  function Build(es: seq<Entry>): Node {
    if es == [] then EMPTY
    else AddToTree(Build(es[..|es| - 1]), Split(es[|es| - 1].path, SLASH), FileOf(es[|es| - 1]))
  }

  /** The file at a path, if there is one. */
  ghost predicate Has(node: Node, parts: seq<Bytes>, f: File)
    requires parts != []
  {
    if |parts| == 1 then parts[0] in node.files && node.files[parts[0]] == f
    else parts[0] in node.dirs && Has(node.dirs[parts[0]], parts[1..], f)
  }

  lemma HasOne(node: Node, parts: seq<Bytes>, f: File, g: File)
    requires parts != [] && Has(node, parts, f) && Has(node, parts, g)
    ensures f == g
    decreases node
  {
    if |parts| > 1 {
      HasOne(node.dirs[parts[0]], parts[1..], f, g);
    }
  }

  /** Adding a file changes what is at its path and nothing else. */
  lemma {:induction false} AddedHas(node: Node, parts: seq<Bytes>, f: File, q: seq<Bytes>, g: File)
    requires parts != [] && q != []
    ensures Has(AddToTree(node, parts, f), q, g) <==> if q == parts then g == f else Has(node, q, g)
    decreases |q|
  {
    assert parts == [parts[0]] + parts[1..] && q == [q[0]] + q[1..];
    if |parts| > 1 && |q| > 1 && parts[0] == q[0] {
      var child := if parts[0] in node.dirs then node.dirs[parts[0]] else EMPTY;
      AddedHas(child, parts[1..], f, q[1..], g);
    }
  }

  lemma SplitInjective(p: Bytes, q: Bytes)
    requires Split(p, SLASH) == Split(q, SLASH)
    ensures p == q
  {
    JoinSplit(p, SLASH);
    JoinSplit(q, SLASH);
  }

  /** The tree has, at the components of each index path, the file of that path's entry. */
  lemma {:induction false} BuiltHas(es: seq<Entry>, p: Bytes, f: File)
    ensures Has(Build(es), Split(p, SLASH), f) <==> p in ToMap(es) && f == FileOf(ToMap(es)[p])
    decreases |es|
  {
    hide Split;
    if es != [] {
      var init, e := es[..|es| - 1], es[|es| - 1];
      BuiltHas(init, p, f);
      AddedHas(Build(init), Split(e.path, SLASH), FileOf(e), Split(p, SLASH), f);
      if Split(p, SLASH) == Split(e.path, SLASH) {
        SplitInjective(p, e.path);
      }
    }
  }

  // ---------- What a built tree looks like ----------

  predicate NameOk(name: Bytes) {
    SLASH !in name && 0 !in name
  }

  predicate FileOk(f: File) {
    |f.hash| == 20 && f.mode != DIR_MODE
  }

  /** Names and files are as the object format needs them, and only the root may be empty. */
  ghost predicate Sound(node: Node) {
    && (forall n :: n in node.files ==> NameOk(n) && FileOk(node.files[n]))
    && (forall d :: d in node.dirs ==> NameOk(d) && Sound(node.dirs[d]) && node.dirs[d] != EMPTY)
  }

  /** The directories are nested less than `levels` deep. */
  ghost predicate Shallow(node: Node, levels: nat) {
    levels > 0 && forall d :: d in node.dirs ==> Shallow(node.dirs[d], levels - 1)
  }

  lemma {:induction false} ShallowMore(node: Node, levels: nat, more: nat)
    requires Shallow(node, levels) && levels <= more
    ensures Shallow(node, more)
    decreases levels
  {
    forall d | d in node.dirs
      ensures Shallow(node.dirs[d], more - 1)
    {
      ShallowMore(node.dirs[d], levels - 1, more - 1);
    }
  }

  ghost predicate PartsOk(parts: seq<Bytes>) {
    parts != [] && forall i :: 0 <= i < |parts| ==> NameOk(parts[i])
  }

  lemma AddedNotEmpty(node: Node, parts: seq<Bytes>, f: File)
    requires parts != []
    ensures AddToTree(node, parts, f) != EMPTY
  {
    var r := AddToTree(node, parts, f);
    assert parts[0] in (if |parts| == 1 then r.files.Keys else r.dirs.Keys);
  }

  lemma SoundWithDir(node: Node, d: Bytes, dir: Node, levels: nat)
    requires Sound(node) && Shallow(node, levels) && levels > 1
    requires NameOk(d) && Sound(dir) && dir != EMPTY && Shallow(dir, levels - 1)
    ensures Sound(node.(dirs := node.dirs[d := dir])) && Shallow(node.(dirs := node.dirs[d := dir]), levels)
  {
    hide Sound, Shallow;
    SoundWith(node, d, dir);
    ShallowWith(node, d, dir, levels);
  }

  lemma SoundWith(node: Node, d: Bytes, dir: Node)
    requires Sound(node) && NameOk(d) && Sound(dir) && dir != EMPTY
    ensures Sound(node.(dirs := node.dirs[d := dir]))
  {
    hide NameOk, FileOk;
  }

  lemma ShallowWith(node: Node, d: Bytes, dir: Node, levels: nat)
    requires Shallow(node, levels) && levels > 1 && Shallow(dir, levels - 1)
    ensures Shallow(node.(dirs := node.dirs[d := dir]), levels)
  {
  }

  lemma SoundWithFile(node: Node, name: Bytes, f: File, levels: nat)
    requires Sound(node) && Shallow(node, levels) && NameOk(name) && FileOk(f)
    ensures Sound(node.(files := node.files[name := f])) && Shallow(node.(files := node.files[name := f]), levels)
  {
  }

  lemma SoundBelow(node: Node, d: Bytes, levels: nat)
    requires Sound(node) && d in node.dirs
    ensures Sound(node.dirs[d]) && node.dirs[d] != EMPTY
    ensures Shallow(node, levels) ==> levels > 0 && Shallow(node.dirs[d], levels - 1)
  {
  }

  lemma EmptySound(levels: nat)
    requires levels > 0
    ensures Sound(EMPTY) && Shallow(EMPTY, levels)
  {
  }

  lemma {:induction false} AddedSound(node: Node, parts: seq<Bytes>, f: File, levels: nat)
    requires Sound(node) && Shallow(node, levels) && PartsOk(parts) && FileOk(f) && |parts| <= levels
    ensures Sound(AddToTree(node, parts, f)) && Shallow(AddToTree(node, parts, f), levels)
    decreases |parts|
  {
    hide Sound, Shallow, NameOk, FileOk;
    assert NameOk(parts[0]);
    if |parts| == 1 {
      SoundWithFile(node, parts[0], f, levels);
    } else {
      var child := if parts[0] in node.dirs then node.dirs[parts[0]] else EMPTY;
      if parts[0] in node.dirs {
        SoundBelow(node, parts[0], levels);
      } else {
        EmptySound(levels - 1);
      }
      assert forall i :: 0 <= i < |parts| - 1 ==> parts[1..][i] == parts[i + 1];
      AddedSound(child, parts[1..], f, levels - 1);
      AddedNotEmpty(child, parts[1..], f);
      SoundWithDir(node, parts[0], AddToTree(child, parts[1..], f), levels);
    }
  }

  /** What the index file can hold, as tree entries: no NUL, and no directory mode. */
  ghost predicate Writable(es: seq<Entry>) {
    forall e :: e in es ==> 0 !in e.path && FileOk(FileOf(e))
  }

  lemma {:induction false} SplitPartsOk(p: Bytes)
    requires 0 !in p
    ensures PartsOk(Split(p, SLASH)) && |Split(p, SLASH)| <= |p| + 1
  {
    if p != [] {
      SplitPartsOk(p[1..]);
      assert p == [p[0]] + p[1..];
    }
  }

  lemma {:induction false} BuiltSound(es: seq<Entry>, levels: nat)
    requires Writable(es) && levels > 0 && forall e :: e in es ==> |e.path| < levels
    ensures Sound(Build(es)) && Shallow(Build(es), levels)
    decreases |es|
  {
    hide Split;
    if es != [] {
      var init, e := es[..|es| - 1], es[|es| - 1];
      assert e in es && forall x :: x in init ==> x in es;
      BuiltSound(init, levels);
      SplitPartsOk(e.path);
      AddedSound(Build(init), Split(e.path, SLASH), FileOf(e), levels);
    }
  }

  lemma {:induction false} LongestPath(es: seq<Entry>) returns (levels: nat)
    ensures levels > 0 && forall e :: e in es ==> |e.path| < levels
  {
    if es == [] {
      levels := 1;
    } else {
      var rest := LongestPath(es[1..]);
      levels := if |es[0].path| < rest then rest else |es[0].path| + 1;
    }
  }

  lemma BuiltIsSound(es: seq<Entry>)
    requires Writable(es)
    ensures Sound(Build(es))
  {
    var levels := LongestPath(es);
    BuiltSound(es, levels);
  }

  ghost predicate SameFiles(m: Node, n: Node) {
    forall parts: seq<Bytes>, f :: parts != [] ==> (Has(m, parts, f) <==> Has(n, parts, f))
  }

  lemma {:induction false} HasSome(node: Node) returns (parts: seq<Bytes>, f: File)
    requires Sound(node) && node != EMPTY
    ensures parts != [] && Has(node, parts, f)
  {
    if node.files != map[] {
      var n :| n in node.files;
      parts, f := [n], node.files[n];
    } else {
      var d :| d in node.dirs;
      var rest;
      rest, f := HasSome(node.dirs[d]);
      parts := [d] + rest;
      assert parts[1..] == rest;
    }
  }

  lemma HasBelow(node: Node, d: Bytes, rest: seq<Bytes>, f: File)
    requires rest != []
    ensures Has(node, [d] + rest, f) <==> d in node.dirs && Has(node.dirs[d], rest, f)
  {
    assert ([d] + rest)[1..] == rest;
  }

  lemma SameDir(m: Node, n: Node, d: Bytes)
    requires Sound(m) && SameFiles(m, n) && d in m.dirs
    ensures d in n.dirs && SameFiles(m.dirs[d], n.dirs[d])
  {
    hide Has, Sound;
    SoundBelow(m, d, 0);
    var parts, g := HasSome(m.dirs[d]);
    HasBelow(m, d, parts, g);
    HasBelow(n, d, parts, g);
    forall rest: seq<Bytes>, f | rest != []
      ensures Has(m.dirs[d], rest, f) <==> Has(n.dirs[d], rest, f)
    {
      HasBelow(m, d, rest, f);
      HasBelow(n, d, rest, f);
      assert Has(m, [d] + rest, f) <==> Has(n, [d] + rest, f);
    }
  }

  /** The files determine the tree: no trace remains of the order in which they were added. */
  lemma {:induction false} FilesDetermine(m: Node, n: Node)
    requires Sound(m) && Sound(n) && SameFiles(m, n)
    ensures m == n
    decreases m
  {
    forall d | d in n.dirs
      ensures d in m.dirs
    {
      SameDir(n, m, d);
    }
    forall d | d in m.dirs
      ensures d in n.dirs && m.dirs[d] == n.dirs[d]
    {
      SameDir(m, n, d);
      FilesDetermine(m.dirs[d], n.dirs[d]);
    }
    assert m.dirs == n.dirs;
    forall x
      ensures x in m.files <==> x in n.files
      ensures x in m.files ==> m.files[x] == n.files[x]
    {
      assert x in m.files ==> Has(m, [x], m.files[x]) && Has(n, [x], m.files[x]);
      assert x in n.files ==> Has(n, [x], n.files[x]) && Has(m, [x], n.files[x]);
    }
    assert m.files == n.files;
  }

  // ---------- Printing ----------

  datatype TreeEntry = TreeEntry(mode: U32, name: Bytes, hash: Bytes)

  /** The sort key: directories sort as if their name ended in a slash. */
  function SortKey(): TreeEntry -> seq<int> {
    (e: TreeEntry) => if e.mode == DIR_MODE then e.name + [SLASH] else e.name
  }

  function OctalDigit(n: nat): Byte
    requires n < 8
  {
    48 + n
  }

  /** Digits only, as `%o` prints them. */
  function Octal(n: nat): (s: Bytes)
    ensures s != [] && forall i :: 0 <= i < |s| ==> 48 <= s[i] < 56
  {
    if n < 8 then [OctalDigit(n)] else Octal(n / 8) + [OctalDigit(n % 8)]
  }

  function OctalValue(s: Bytes): int {
    if s == [] then 0 else 8 * OctalValue(s[..|s| - 1]) + s[|s| - 1] as int - 48
  }

  lemma {:induction false} OctalRoundTrip(n: nat)
    ensures OctalValue(Octal(n)) == n
  {
    if n >= 8 {
      OctalRoundTrip(n / 8);
      assert Octal(n)[..|Octal(n)| - 1] == Octal(n / 8);
    }
  }

  function TreeEntryBytes(e: TreeEntry): Bytes {
    Octal(e.mode) + [32] + e.name + [0] + e.hash
  }

  function Print(es: seq<TreeEntry>): Bytes {
    if es == [] then [] else TreeEntryBytes(es[0]) + Print(es[1..])
  }

  lemma {:induction false} PrintAppend(es: seq<TreeEntry>, e: TreeEntry)
    ensures Print(es + [e]) == Print(es) + TreeEntryBytes(e)
  {
    if es == [] {
      assert ([e])[1..] == [] && [] + [e] == [e];
    } else {
      assert (es + [e])[1..] == es[1..] + [e];
      PrintAppend(es[1..], e);
      assert TreeEntryBytes(es[0]) + (Print(es[1..]) + TreeEntryBytes(e))
        == TreeEntryBytes(es[0]) + Print(es[1..]) + TreeEntryBytes(e);
    }
  }

  // ---------- Hashing ----------

  /** The entries of some files and some directories, these under their tree hashes. */
  ghost function EntriesOfSome(sha: Bytes -> Bytes, node: Node, files: set<Bytes>, dirs: set<Bytes>): set<TreeEntry>
    requires files <= node.files.Keys && dirs <= node.dirs.Keys
    decreases node, 0
  {
    (set n | n in files :: TreeEntry(node.files[n].mode, n, node.files[n].hash))
    + (set d | d in dirs :: TreeEntry(DIR_MODE, d, TreeId(sha, node.dirs[d])))
  }

  ghost function EntriesOf(sha: Bytes -> Bytes, node: Node): set<TreeEntry>
    decreases node, 1
  {
    EntriesOfSome(sha, node, node.files.Keys, node.dirs.Keys)
  }

  ghost function Payload(sha: Bytes -> Bytes, node: Node): Bytes
    decreases node, 2
  {
    Print(InOrder(EntriesOf(sha, node), SortKey()))
  }

  /** The hash of the tree object, which depends on the hashes of everything below. */
  ghost function TreeId(sha: Bytes -> Bytes, node: Node): Bytes
    decreases node, 3
  {
    sha(Payload(sha, node))
  }

  lemma KeyTells(e: TreeEntry)
    requires SLASH !in e.name
    ensures SLASH in SortKey()(e) <==> e.mode == DIR_MODE
    ensures e.name == if SLASH in SortKey()(e) then SortKey()(e)[..|SortKey()(e)| - 1] else SortKey()(e)
  {
    if e.mode == DIR_MODE {
      assert SortKey()(e)[|e.name|] == SLASH;
      assert SortKey()(e)[..|e.name|] == e.name;
    }
  }

  /** No two entries of a directory have the same sort key. */
  lemma KeysDiffer(sha: Bytes -> Bytes, node: Node, e: TreeEntry, x: TreeEntry)
    requires Sound(node) && e in EntriesOf(sha, node) && x in EntriesOf(sha, node) && e != x
    ensures SortKey()(e) != SortKey()(x)
  {
    hide TreeId;
    assert NameOk(e.name) && NameOk(x.name);
    KeyTells(e);
    KeyTells(x);
  }

  lemma EntriesInOrder(sha: Bytes -> Bytes, node: Node)
    requires Sound(node)
    ensures Enumerates(InOrder(EntriesOf(sha, node), SortKey()), EntriesOf(sha, node), SortKey())
  {
    hide Sound, EntriesOf;
    forall e, x | e in EntriesOf(sha, node) && x in EntriesOf(sha, node) && e != x
      ensures SortKey()(e) != SortKey()(x)
    {
      KeysDiffer(sha, node, e, x);
    }
    InOrderEnumerates(EntriesOf(sha, node), SortKey());
  }

  // ---------- Storing ----------

  type Objects = map<Bytes, Bytes>

  /** The contents of the tree objects of a directory and everything below. */
  ghost function Payloads(sha: Bytes -> Bytes, node: Node): set<Bytes>
    decreases node, 1
  {
    {Payload(sha, node)} + PayloadsBelow(sha, node)
  }

  ghost function PayloadsBelow(sha: Bytes -> Bytes, node: Node): set<Bytes>
    decreases node, 0
  {
    set d, p | d in node.dirs && p in Payloads(sha, node.dirs[d]) :: p
  }

  /** Nothing stored is changed, and what is added are exactly the contents `ps`, under their hashes. */
  ghost predicate Grown(sha: Bytes -> Bytes, o: Objects, o': Objects, ps: set<Bytes>) {
    && (forall h :: h in o ==> h in o' && o'[h] == o[h])
    && (forall h :: h in o' && h !in o ==> o'[h] in ps && h == sha(o'[h]))
    && (forall p :: p in ps ==> sha(p) in o')
  }

  lemma GrownTwice(sha: Bytes -> Bytes, o: Objects, o': Objects, o'': Objects, ps: set<Bytes>, qs: set<Bytes>)
    requires Grown(sha, o, o', ps) && Grown(sha, o', o'', qs)
    ensures Grown(sha, o, o'', ps + qs)
  {
  }

  ghost predicate ContentAddressed(sha: Bytes -> Bytes, o: Objects) {
    forall h :: h in o ==> sha(o[h]) == h
  }

  ghost predicate CollisionFree(sha: Bytes -> Bytes, contents: set<Bytes>) {
    forall x, y :: x in contents && y in contents && sha(x) == sha(y) ==> x == y
  }

  /** Every tree object of the directory can be read. */
  ghost predicate Stored(sha: Bytes -> Bytes, o: Objects, node: Node) {
    forall p :: p in Payloads(sha, node) ==> sha(p) in o && o[sha(p)] == p
  }

  /** Unless two contents have the same hash, what was written can be read. */
  lemma GrownStores(sha: Bytes -> Bytes, o: Objects, o': Objects, node: Node)
    requires ContentAddressed(sha, o) && Grown(sha, o, o', Payloads(sha, node))
    requires CollisionFree(sha, o.Values + Payloads(sha, node))
    ensures ContentAddressed(sha, o') && Stored(sha, o', node)
  {
    hide Payloads;
    forall p | p in Payloads(sha, node)
      ensures sha(p) in o' && o'[sha(p)] == p
    {
      var h := sha(p);
      assert h in o ==> o[h] in o.Values && sha(o[h]) == sha(p);
      assert h !in o ==> o'[h] in Payloads(sha, node) && sha(o'[h]) == sha(p);
    }
  }

  lemma InsertEntry(sha: Bytes -> Bytes, node: Node, es: seq<TreeEntry>, some: set<TreeEntry>, e: TreeEntry)
    requires Sound(node) && some <= EntriesOf(sha, node) && e in EntriesOf(sha, node) && e !in some
    requires Enumerates(es, some, SortKey())
    ensures Enumerates(Insert(es, e, SortKey()), some + {e}, SortKey())
  {
    hide Sound, EntriesOf, Less;
    forall x | x in es
      ensures SortKey()(x) != SortKey()(e)
    {
      KeysDiffer(sha, node, e, x);
    }
    InsertAscends(es, e, SortKey());
  }

  lemma InsertFile(sha: Bytes -> Bytes, node: Node, es: seq<TreeEntry>, files: set<Bytes>, n: Bytes)
    requires Sound(node) && files <= node.files.Keys && n in node.files && n !in files
    requires Enumerates(es, EntriesOfSome(sha, node, files, {}), SortKey())
    ensures Enumerates(Insert(es, TreeEntry(node.files[n].mode, n, node.files[n].hash), SortKey()),
                       EntriesOfSome(sha, node, files + {n}, {}), SortKey())
  {
    hide TreeId, Enumerates, Sound;
    var some, e := EntriesOfSome(sha, node, files, {}), TreeEntry(node.files[n].mode, n, node.files[n].hash);
    assert EntriesOfSome(sha, node, files + {n}, {}) == some + {e};
    InsertEntry(sha, node, es, some, e);
  }

  lemma InsertDir(sha: Bytes -> Bytes, node: Node, es: seq<TreeEntry>, dirs: set<Bytes>, d: Bytes)
    requires Sound(node) && dirs <= node.dirs.Keys && d in node.dirs && d !in dirs
    requires Enumerates(es, EntriesOfSome(sha, node, node.files.Keys, dirs), SortKey())
    ensures Enumerates(Insert(es, TreeEntry(DIR_MODE, d, TreeId(sha, node.dirs[d])), SortKey()),
                       EntriesOfSome(sha, node, node.files.Keys, dirs + {d}), SortKey())
  {
    hide TreeId, Enumerates, Sound, EntriesOfSome, EntriesOf;
    var some, e := EntriesOfSome(sha, node, node.files.Keys, dirs), TreeEntry(DIR_MODE, d, TreeId(sha, node.dirs[d]));
    DirIsNew(sha, node, dirs, d);
    InsertEntry(sha, node, es, some, e);
  }

  lemma DirIsNew(sha: Bytes -> Bytes, node: Node, dirs: set<Bytes>, d: Bytes)
    requires Sound(node) && dirs <= node.dirs.Keys && d in node.dirs && d !in dirs
    ensures var some := EntriesOfSome(sha, node, node.files.Keys, dirs);
            var e := TreeEntry(DIR_MODE, d, TreeId(sha, node.dirs[d]));
            && EntriesOfSome(sha, node, node.files.Keys, dirs + {d}) == some + {e}
            && some <= EntriesOf(sha, node) && e in EntriesOf(sha, node) && e !in some
  {
    hide TreeId;
  }

  lemma NoEntries(sha: Bytes -> Bytes, node: Node)
    ensures Enumerates([], EntriesOfSome(sha, node, {}, {}), SortKey())
    ensures node.files.Keys - node.files.Keys == {}
  {
  }

  lemma NothingGrown(sha: Bytes -> Bytes, o: Objects)
    ensures Grown(sha, o, o, {})
  {
  }

  lemma PayloadsAre(sha: Bytes -> Bytes, node: Node, ps: set<Bytes>)
    requires forall p :: p in ps ==> exists d :: d in node.dirs && p in Payloads(sha, node.dirs[d])
    requires forall d :: d in node.dirs ==> Payloads(sha, node.dirs[d]) <= ps
    ensures ps + {Payload(sha, node)} == Payloads(sha, node)
  {
    assert ps == PayloadsBelow(sha, node);
  }

  lemma PayloadIs(sha: Bytes -> Bytes, node: Node, es: seq<TreeEntry>)
    requires Enumerates(es, EntriesOfSome(sha, node, node.files.Keys, node.dirs.Keys), SortKey())
    ensures Payload(sha, node) == Print(es) && TreeId(sha, node) == sha(Print(es))
  {
    InOrderIs(es, EntriesOf(sha, node), SortKey());
  }

  /** The files of a directory, in the order of their sort keys. */
  method FileEntries(sha: Bytes -> Bytes, node: Node) returns (entries: seq<TreeEntry>)
    requires Sound(node)
    ensures Enumerates(entries, EntriesOfSome(sha, node, node.files.Keys, {}), SortKey())
  {
    hide Sound, EntriesOfSome, Enumerates, Insert;
    entries := [];
    NoEntries(sha, node);
    var names := node.files.Keys;
    while names != {}
      invariant names <= node.files.Keys
      invariant Enumerates(entries, EntriesOfSome(sha, node, node.files.Keys - names, {}), SortKey())
      decreases names
    {
      var n :| n in names;
      InsertFile(sha, node, entries, node.files.Keys - names, n);
      assert node.files.Keys - names + {n} == node.files.Keys - (names - {n});
      entries := Insert(entries, TreeEntry(node.files[n].mode, n, node.files[n].hash), SortKey());
      names := names - {n};
    }
    assert node.files.Keys - names == node.files.Keys;
  }

  class ObjectStore {
    var objects: Objects

    /** Stores the content under its hash; an object that exists is left alone. */
    method HashAndWriteObject(sha: Bytes -> Bytes, data: Bytes) returns (id: Bytes)
      modifies this
      ensures id == sha(data) && Grown(sha, old(objects), objects, {data})
      ensures id in old(objects) ==> objects == old(objects)
    {
      id := sha(data);
      if id !in objects {
        objects := objects[id := data];
      }
    }

    /** Writes the directories in whatever order the map yields them, children before parents. */
    method WriteTreeRecursive(sha: Bytes -> Bytes, node: Node) returns (id: Bytes)
      requires Sound(node)
      modifies this
      ensures id == TreeId(sha, node)
      ensures Grown(sha, old(objects), objects, Payloads(sha, node))
      decreases node
    {
      hide Sound, EntriesOfSome, Enumerates, Grown, InOrder, Payload, Payloads, TreeId, EntriesOf, Insert;
      var entries := FileEntries(sha, node);
      var dirs := node.dirs.Keys;
      assert node.dirs.Keys - dirs == {};
      ghost var ps: set<Bytes> := {};
      NothingGrown(sha, objects);
      while dirs != {}
        invariant dirs <= node.dirs.Keys
        invariant Enumerates(entries, EntriesOfSome(sha, node, node.files.Keys, node.dirs.Keys - dirs), SortKey())
        invariant Grown(sha, old(objects), objects, ps)
        invariant forall p :: p in ps ==> exists d :: d in node.dirs && p in Payloads(sha, node.dirs[d])
        invariant forall d :: d in node.dirs && d !in dirs ==> Payloads(sha, node.dirs[d]) <= ps
        decreases dirs
      {
        var d :| d in dirs;
        SoundBelow(node, d, 0);
        ghost var before := objects;
        var treeHash := WriteTreeRecursive(sha, node.dirs[d]);
        GrownTwice(sha, old(objects), before, objects, ps, Payloads(sha, node.dirs[d]));
        ps := ps + Payloads(sha, node.dirs[d]);
        InsertDir(sha, node, entries, node.dirs.Keys - dirs, d);
        assert node.dirs.Keys - dirs + {d} == node.dirs.Keys - (dirs - {d});
        entries := Insert(entries, TreeEntry(DIR_MODE, d, treeHash), SortKey());
        dirs := dirs - {d};
      }
      assert node.dirs.Keys - dirs == node.dirs.Keys;
      PayloadIs(sha, node, entries);
      ghost var below := objects;
      id := HashAndWriteObject(sha, Print(entries));
      GrownTwice(sha, old(objects), below, objects, ps, {Payload(sha, node)});
      PayloadsAre(sha, node, ps);
    }

    /** Writes the tree of the index entries; the caller has read them from the index file. */
    method WriteTree(sha: Bytes -> Bytes, es: seq<Entry>) returns (id: Bytes)
      requires Writable(es)
      modifies this
      ensures id == TreeId(sha, Build(es))
      ensures Grown(sha, old(objects), objects, Payloads(sha, Build(es)))
    {
      hide Grown, Payloads, TreeId, Sound, Split, AddToTree, Writable, Shallow;
      var root := EMPTY;
      for i := 0 to |es|
        invariant root == Build(es[..i])
      {
        assert es[..i + 1][..i] == es[..i];
        root := AddToTree(root, Split(es[i].path, SLASH), FileOf(es[i]));
      }
      assert es[..|es|] == es;
      BuiltIsSound(es);
      id := WriteTreeRecursive(sha, root);
    }
  }
}
