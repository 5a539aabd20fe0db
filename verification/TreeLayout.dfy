/**
 The layout of tree objects, said about their bytes: what is written for a directory, and what is
 read from any object, whoever wrote it.
 */
module TreeLayout {
  import opened Ordering
  import opened Lines
  import opened Strings
  import opened IndexCodec
  import opened IndexFile
  import opened TreeObjects
  import opened TreeParsing
  import opened TreeRoundTrip

  // ---------- What is written ----------

  function Concat(parts: seq<Bytes>): Bytes {
    if parts == [] then [] else parts[0] + Concat(parts[1..])
  }

  function Eights(n: nat): nat {
    if n == 0 then 1 else 8 * Eights(n - 1)
  }

  /** The number that octal digits spell, each weighted by its place. */
  function OctalSum(digits: Bytes): int {
    if digits == [] then 0 else (digits[0] as int - 48) * Eights(|digits| - 1) + OctalSum(digits[1..])
  }

  /** The octal digits of a number, without leading zeros. */
  ghost predicate SpellsOctal(digits: Bytes, n: nat) {
    && digits != [] && (forall i :: 0 <= i < |digits| ==> 48 <= digits[i] <= 55)
    && (|digits| > 1 ==> digits[0] != 48) && OctalSum(digits) == n
  }

  /** Mode, blank, name, NUL, hash. */
  ghost predicate EntryText(b: Bytes, e: TreeEntry) {
    exists mode :: SpellsOctal(mode, e.mode) && b == mode + [32] + e.name + [0] + e.hash
  }

  /** A directory counts as its name with a slash. */
  function NameKey(e: TreeEntry): Bytes {
    if e.mode == 0x4000 then e.name + [47] else e.name
  }

  /** The files of the directory under their modes, and its directories under mode 40000 and the hash of their tree. */
  ghost predicate EntryOf(sha: Bytes -> Bytes, node: Node, e: TreeEntry) {
    || (e.name in node.files && e == TreeEntry(node.files[e.name].mode, e.name, node.files[e.name].hash))
    || (e.name in node.dirs && e == TreeEntry(0x4000, e.name, TreeId(sha, node.dirs[e.name])))
  }

  lemma {:induction false} OctalSumSnoc(digits: Bytes, d: Byte)
    ensures OctalSum(digits + [d]) == 8 * OctalSum(digits) + d as int - 48
    decreases |digits|
  {
    if digits == [] {
      assert [] + [d] == [d] && OctalSum([d][1..]) == 0;
    } else {
      assert (digits + [d])[1..] == digits[1..] + [d];
      OctalSumSnoc(digits[1..], d);
      var x, w := digits[0] as int - 48, Eights(|digits| - 1);
      assert x * (8 * w) == 8 * (x * w);
    }
  }

  lemma {:induction false} OctalSpells(n: nat)
    ensures SpellsOctal(Octal(n), n) && (n > 0 ==> Octal(n)[0] != 48)
  {
    if n < 8 {
      assert OctalSum([OctalDigit(n)][1..]) == 0;
    } else {
      OctalSpells(n / 8);
      OctalSumSnoc(Octal(n / 8), OctalDigit(n % 8));
    }
  }

  function Texts(es: seq<TreeEntry>): (r: seq<Bytes>)
    ensures |r| == |es| && forall i :: 0 <= i < |es| ==> r[i] == TreeEntryBytes(es[i])
  {
    seq(|es|, i requires 0 <= i < |es| => TreeEntryBytes(es[i]))
  }

  lemma {:induction false} PrintIsConcat(es: seq<TreeEntry>)
    ensures Print(es) == Concat(Texts(es))
    decreases |es|
  {
    hide TreeEntryBytes;
    if es != [] {
      PrintIsConcat(es[1..]);
      assert Texts(es)[1..] == Texts(es[1..]);
    }
  }

  lemma KeyIs(e: TreeEntry)
    ensures SortKey()(e) == NameKey(e)
  {
  }

  lemma EntriesAre(sha: Bytes -> Bytes, node: Node, e: TreeEntry)
    ensures e in EntriesOf(sha, node) <==> EntryOf(sha, node, e)
  {
    hide TreeId;
  }

  /**
   The tree object of a directory: its entries in the byte order of their names, each as mode, blank,
   name, NUL and hash, and nothing else; it is stored under the hash of just that.
   */
  lemma TreeWritten(sha: Bytes -> Bytes, node: Node) returns (es: seq<TreeEntry>, texts: seq<Bytes>)
    requires Sound(node)
    ensures Payload(sha, node) == Concat(texts) && TreeId(sha, node) == sha(Concat(texts))
    ensures |texts| == |es| && forall i :: 0 <= i < |es| ==> EntryText(texts[i], es[i])
    ensures forall e :: e in es <==> EntryOf(sha, node, e)
    ensures forall i, j :: 0 <= i < j < |es| ==> Before(NameKey(es[i]), NameKey(es[j]))
  {
    hide TreeId, Print, EntriesOf, EntryOf, Sound, TreeEntryBytes, InOrder, Before, NameKey, Concat;
    es := InOrder(EntriesOf(sha, node), SortKey());
    texts := Texts(es);
    EntriesInOrder(sha, node);
    PayloadPrints(sha, node);
    PrintIsConcat(es);
    forall i | 0 <= i < |es|
      ensures EntryText(texts[i], es[i])
    {
      EntryIsText(es[i]);
    }
    forall e
      ensures e in es <==> EntryOf(sha, node, e)
    {
      EntriesAre(sha, node, e);
    }
    forall i, j | 0 <= i < j < |es|
      ensures Before(NameKey(es[i]), NameKey(es[j]))
    {
      AscendingBefore(es, SortKey(), i, j);
      KeyIs(es[i]);
      KeyIs(es[j]);
    }
  }

  lemma PayloadPrints(sha: Bytes -> Bytes, node: Node)
    ensures Payload(sha, node) == Print(InOrder(EntriesOf(sha, node), SortKey()))
    ensures TreeId(sha, node) == sha(Payload(sha, node))
  {
  }

  lemma EntryIsText(e: TreeEntry)
    ensures EntryText(TreeEntryBytes(e), e)
  {
    hide SpellsOctal;
    OctalSpells(e.mode);
  }

  /** The files of the tree of an index: each path of it, cut at the slashes. */
  lemma FilesAtPaths(es: seq<Entry>, parts: seq<Bytes>, f: File)
    requires parts != [] && forall i :: 0 <= i < |parts| ==> 47 !in parts[i]
    ensures Has(Build(es), parts, f) <==>
              var path := Join(parts, 47);
              path in ToMap(es) && f.mode == ToMap(es)[path].stat.mode && f.hash == ToMap(es)[path].hash
  {
    hide Has, Build, Split, Join, ToMap;
    SplitJoin(parts, 47);
    BuiltHas(es, Join(parts, 47), f);
  }

  // ---------- What is read ----------

  /** An entry at the front of some bytes: the mode ends at the first blank and the name at the first NUL after it. */
  ghost predicate FrontEntry(data: Bytes, mode: Bytes, name: Bytes, hash: Bytes, rest: Bytes) {
    data == mode + [32] + name + [0] + hash + rest && 32 !in mode && 0 !in name && |hash| == 20
  }

  lemma TakeEntryIff(data: Bytes, mode: Bytes, name: Bytes, hash: Bytes, rest: Bytes)
    ensures TakeEntry(data) == Took(mode, name, hash, rest) <==> FrontEntry(data, mode, name, hash, rest)
  {
    hide CutAt;
    if FrontEntry(data, mode, name, hash, rest) {
      var afterName := hash + rest;
      var afterMode := name + [0] + afterName;
      assert data == mode + [32] + afterMode;
      CutFirst(mode, 32, afterMode);
      CutFirst(name, 0, afterName);
      assert afterName[..20] == hash && afterName[20..] == rest;
    }
    if TakeEntry(data) == Took(mode, name, hash, rest) {
      CutIs(data, 32);
      var afterMode := CutAt(data, 32).after;
      CutIs(afterMode, 0);
      var afterName := CutAt(afterMode, 0).after;
      assert afterName == hash + rest;
      assert data == mode + [32] + (name + [0] + (hash + rest));
      CutBefore(data, 32);
      CutBefore(afterMode, 0);
    }
  }

  lemma CutBefore(data: Bytes, sep: Byte)
    ensures CutAt(data, sep).Parts? ==> sep !in CutAt(data, sep).before
  {
  }

  /** The path of an entry. */
  function PathBelow(prefix: Bytes, name: Bytes): Bytes {
    if prefix == [] then name else prefix + [47] + name
  }

  /**
   How the bytes of an object are read: an entry with mode 40000 or 040000 is a directory, whose object
   is read under its path, any other one a file, with the mode as it is spelled there.
   */
  lemma ReadsEntry(
    o: Objects, data: Bytes, prefix: Bytes, tree: Leaves, levels: nat,
    mode: Bytes, name: Bytes, hash: Bytes, rest: Bytes)
    requires FrontEntry(data, mode, name, hash, rest)
    ensures ParseRest(o, data, prefix, tree, levels)
         == if mode == [52, 48, 48, 48, 48] || mode == [48, 52, 48, 48, 48, 48] then
              match ParseInto(o, hash, PathBelow(prefix, name), tree, levels)
              case Failed(e) => Failed(e)
              case Tree(t) => ParseRest(o, rest, prefix, t, levels)
            else ParseRest(o, rest, prefix, tree[PathBelow(prefix, name) := Leaf(mode, hash)], levels)
  {
    hide TakeEntry, ParseInto, FrontEntry;
    TakeEntryIff(data, mode, name, hash, rest);
    FrontNotEmpty(data, mode, name, hash, rest);
  }

  lemma FrontNotEmpty(data: Bytes, mode: Bytes, name: Bytes, hash: Bytes, rest: Bytes)
    requires FrontEntry(data, mode, name, hash, rest)
    ensures data != []
  {
  }

  /** Nothing is read from no bytes, and bytes that do not begin with an entry are refused. */
  lemma ReadsNoEntry(o: Objects, data: Bytes, prefix: Bytes, tree: Leaves, levels: nat)
    ensures data == [] ==> ParseRest(o, data, prefix, tree, levels) == Tree(tree)
    ensures data != [] && (forall mode, name, hash, rest :: !FrontEntry(data, mode, name, hash, rest)) ==>
              ParseRest(o, data, prefix, tree, levels).Failed?
  {
    hide TakeEntry, ParseInto, FrontEntry;
    if TakeEntry(data).Took? {
      var t := TakeEntry(data);
      TakeEntryIff(data, t.mode, t.name, t.hash, t.rest);
    }
  }

  /** An object is read by its bytes, unless it is a text of lines that begins with a digit. */
  lemma ReadsObject(o: Objects, hash: Bytes, prefix: Bytes, tree: Leaves, levels: nat)
    requires levels > 0 && hash in o
    ensures var data := o[hash];
            ParseInto(o, hash, prefix, tree, levels)
            == if data != [] && 48 <= data[0] <= 57 && 10 in data && 0 !in data then Failed(LegacyFormat)
               else ParseRest(o, data, prefix, tree, levels - 1)
  {
    hide ParseRest;
  }
}
