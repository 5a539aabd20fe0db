/**
 Reading tree objects back: a tree hash becomes the map from full paths to modes and hashes,
 and the hash says everything about the tree it was computed from.
 */
module TreeParsing {
  import opened Wrappers
  import opened Ordering
  import opened Strings
  import opened Lines
  import opened IndexCodec
  import opened IndexFile
  import opened TreeObjects

  datatype Leaf = Leaf(mode: Bytes, hash: Bytes)

  type Leaves = map<Bytes, Leaf>

  datatype TreeError = ObjectMissing | LegacyFormat | NoSpace | NoNul | TruncatedHash | TooDeep

  datatype Parsed = Tree(files: Leaves) | Failed(error: TreeError)

  /** The test for the flat text format of earlier versions. */
  predicate IsLegacy(data: Bytes) {
    data != [] && 48 <= data[0] <= 57 && 10 in data && 0 !in data
  }

  predicate IsDirMode(mode: Bytes) {
    mode == [52, 48, 48, 48, 48] || mode == [48, 52, 48, 48, 48, 48]
  }

  function Extend(prefix: Bytes, name: Bytes): Bytes {
    if prefix == [] then name else prefix + [SLASH] + name
  }

  datatype Taken = Bad(error: TreeError) | Took(mode: Bytes, name: Bytes, hash: Bytes, rest: Bytes)

  /** Takes `<mode> <name>\0<20-byte hash>` off the front. */
  function TakeEntry(data: Bytes): (r: Taken)
    ensures r.Took? ==> |r.rest| < |data|
  {
    match CutAt(data, 32)
    case Whole => Bad(NoSpace)
    case Parts(mode, afterMode) => TakeName(mode, afterMode)
  }

  function TakeName(mode: Bytes, data: Bytes): (r: Taken)
    ensures r.Took? ==> |r.rest| < |data|
  {
    match CutAt(data, 0)
    case Whole => Bad(NoNul)
    case Parts(name, rest) =>
      if |rest| < 20 then Bad(TruncatedHash) else Took(mode, name, rest[..20], rest[20..])
  }

  /** Adds the files below a tree object to `tree`; `levels` bounds the nesting. */
  function ParseInto(o: Objects, hash: Bytes, prefix: Bytes, tree: Leaves, levels: nat): Parsed
    decreases levels, 0, 0
  {
    if levels == 0 then Failed(TooDeep)
    else if hash !in o then Failed(ObjectMissing)
    else if IsLegacy(o[hash]) then Failed(LegacyFormat)
    else ParseRest(o, o[hash], prefix, tree, levels - 1)
  }

  function ParseRest(o: Objects, data: Bytes, prefix: Bytes, tree: Leaves, levels: nat): Parsed
    decreases levels, 1, |data|
  {
    if data == [] then Tree(tree)
    else
      match TakeEntry(data)
      case Bad(e) => Failed(e)
      case Took(mode, name, hash, rest) =>
        if IsDirMode(mode) then
          match ParseInto(o, hash, Extend(prefix, name), tree, levels)
          case Failed(e) => Failed(e)
          case Tree(t) => ParseRest(o, rest, prefix, t, levels)
        else ParseRest(o, rest, prefix, tree[Extend(prefix, name) := Leaf(mode, hash)], levels)
  }

  function TreeFiles(o: Objects, hash: Bytes, levels: nat): Parsed {
    ParseInto(o, hash, [], map[], levels)
  }

  lemma AfterCut(data: Bytes, offset: nat, sep: Byte)
    requires offset <= |data|
    ensures var cut := CutAt(data[offset..], sep);
            cut.Parts? ==> offset + |cut.before| + 1 <= |data| && data[offset + |cut.before| + 1..] == cut.after
  {
    hide CutAt;
    var cut := CutAt(data[offset..], sep);
    if cut.Parts? {
      CutIs(data[offset..], sep);
      DropFront(data, offset, cut.before, sep, cut.after);
    }
  }

  lemma CutIs(data: Bytes, sep: Byte)
    ensures var cut := CutAt(data, sep); cut.Parts? ==> data == cut.before + [sep] + cut.after
  {
  }

  lemma DropFront(data: Bytes, offset: nat, before: Bytes, sep: Byte, after: Bytes)
    requires offset <= |data| && data[offset..] == before + [sep] + after
    ensures offset + |before| + 1 <= |data| && data[offset + |before| + 1..] == after
  {
    assert data[offset..][|before| + 1..] == data[offset + |before| + 1..];
  }

  lemma AfterHash(data: Bytes, offset: nat)
    requires offset + 20 <= |data|
    ensures data[offset..][..20] == data[offset..offset + 20] && data[offset..][20..] == data[offset + 20..]
  {
  }

  method ReadTreeEntry(data: Bytes, offset: nat) returns (taken: Taken, next: nat)
    requires offset < |data|
    ensures taken == TakeEntry(data[offset..])
    ensures taken.Took? ==> offset < next <= |data| && taken.rest == data[next..]
  {
    hide CutAt, TakeName;
    var space := CutAt(data[offset..], 32);
    if space.Whole? {
      return Bad(NoSpace), offset;
    }
    AfterCut(data, offset, 32);
    taken, next := ReadName(space.before, data, offset + |space.before| + 1);
  }

  method ReadName(mode: Bytes, data: Bytes, offset: nat) returns (taken: Taken, next: nat)
    requires offset <= |data|
    ensures taken == TakeName(mode, data[offset..])
    ensures taken.Took? ==> offset < next <= |data| && taken.rest == data[next..]
  {
    hide CutAt;
    var nul := CutAt(data[offset..], 0);
    if nul.Whole? {
      return Bad(NoNul), offset;
    }
    AfterCut(data, offset, 0);
    next := offset + |nul.before| + 1;
    if next + 20 > |data| {
      return Bad(TruncatedHash), next;
    }
    AfterHash(data, next);
    return Took(mode, nul.before, data[next..next + 20], data[next + 20..]), next + 20;
  }

  class TreeReader {
    var tree: Leaves

    method ParseTreeRecursive(o: Objects, hash: Bytes, prefix: Bytes, levels: nat) returns (error: Option<TreeError>)
      modifies this
      ensures ParseInto(o, hash, prefix, old(tree), levels) == if error.None? then Tree(tree) else Failed(error.value)
      decreases levels, 1
    {
      hide ParseRest;
      if levels == 0 {
        return Some(TooDeep);
      }
      if hash !in o {
        return Some(ObjectMissing);
      }
      if IsLegacy(o[hash]) {
        return Some(LegacyFormat);
      }
      error := ParseBinary(o, o[hash], prefix, levels - 1);
    }

    /** The loop over the entries of one tree object. */
    method ParseBinary(o: Objects, data: Bytes, prefix: Bytes, levels: nat) returns (error: Option<TreeError>)
      modifies this
      ensures ParseRest(o, data, prefix, old(tree), levels) == if error.None? then Tree(tree) else Failed(error.value)
      decreases levels, 2
    {
      hide ParseInto, TakeEntry, IsDirMode, Extend;
      var offset := 0;
      while offset < |data|
        invariant 0 <= offset <= |data|
        invariant ParseRest(o, data, prefix, old(tree), levels) == ParseRest(o, data[offset..], prefix, tree, levels)
        decreases |data| - offset
      {
        var taken, next := ReadTreeEntry(data, offset);
        if taken.Bad? {
          return Some(taken.error);
        }
        offset := next;
        var fullPath := Extend(prefix, taken.name);
        if IsDirMode(taken.mode) {
          var e := ParseTreeRecursive(o, taken.hash, fullPath, levels);
          if e.Some? {
            return e;
          }
        } else {
          tree := tree[fullPath := Leaf(taken.mode, taken.hash)];
        }
      }
      return None;
    }

    method ParseTree(o: Objects, hash: Bytes, levels: nat) returns (error: Option<TreeError>)
      modifies this
      ensures TreeFiles(o, hash, levels) == if error.None? then Tree(tree) else Failed(error.value)
    {
      tree := map[];
      error := ParseTreeRecursive(o, hash, [], levels);
    }
  }

  // ---------- One entry ----------

  lemma CutEntry(e: TreeEntry, rest: Bytes)
    requires 0 !in e.name && |e.hash| == 20
    ensures TreeEntryBytes(e) + rest != []
    ensures CutAt(TreeEntryBytes(e) + rest, 32) == Parts(Octal(e.mode), e.name + [0] + (e.hash + rest))
    ensures CutAt(e.name + [0] + (e.hash + rest), 0) == Parts(e.name, e.hash + rest)
    ensures (e.hash + rest)[..20] == e.hash && (e.hash + rest)[20..] == rest
  {
    var after := e.name + [0] + (e.hash + rest);
    assert TreeEntryBytes(e) + rest == Octal(e.mode) + [32] + after;
    CutFirst(Octal(e.mode), 32, after);
    CutFirst(e.name, 0, e.hash + rest);
  }

  lemma OctalSnoc(s: Bytes, d: Byte)
    ensures OctalValue(s + [d]) == 8 * OctalValue(s) + d as int - 48
  {
    assert (s + [d])[..|s|] == s;
  }

  lemma OctalZeros(s: Bytes)
    requires OctalValue(s) == 4
    ensures OctalValue(s + [48] + [48] + [48] + [48]) == DIR_MODE
  {
    hide OctalValue;
    OctalSnoc(s, 48);
    OctalSnoc(s + [48], 48);
    OctalSnoc(s + [48] + [48], 48);
    OctalSnoc(s + [48] + [48] + [48], 48);
  }

  lemma FourValues()
    ensures OctalValue([52]) == 4 && OctalValue([48, 52]) == 4
  {
    OctalSnoc([], 52);
    OctalSnoc([], 48);
    OctalSnoc([48], 52);
    assert [] + [52] == [52] && [] + [48] == [48] && [48] + [52] == [48, 52];
  }

  lemma DirModeValues(mode: Bytes)
    requires IsDirMode(mode)
    ensures OctalValue(mode) == DIR_MODE
  {
    hide OctalValue;
    FourValues();
    OctalZeros([52]);
    OctalZeros([48, 52]);
    assert [52] + [48] + [48] + [48] + [48] == [52, 48, 48, 48, 48];
    assert [48, 52] + [48] + [48] + [48] + [48] == [48, 52, 48, 48, 48, 48];
  }

  lemma DirModeOctal()
    ensures Octal(DIR_MODE) == [52, 48, 48, 48, 48]
  {
    assert Octal(4) == [52];
    assert Octal(32) == [52, 48];
    assert Octal(256) == [52, 48, 48];
    assert Octal(2048) == [52, 48, 48, 48];
  }

  lemma ModeShows(mode: U32)
    ensures IsDirMode(Octal(mode)) <==> mode == DIR_MODE
  {
    hide OctalValue, Octal;
    OctalRoundTrip(mode);
    DirModeOctal();
    if IsDirMode(Octal(mode)) {
      DirModeValues(Octal(mode));
    }
  }

  /** The tree after one entry. */
  function AddEntry(o: Objects, e: TreeEntry, prefix: Bytes, tree: Leaves, levels: nat): Parsed {
    if e.mode == DIR_MODE then ParseInto(o, e.hash, Extend(prefix, e.name), tree, levels)
    else Tree(tree[Extend(prefix, e.name) := Leaf(Octal(e.mode), e.hash)])
  }

  /** Parsing takes a printed entry off the front. */
  lemma ParsePrinted(o: Objects, e: TreeEntry, rest: Bytes, prefix: Bytes, tree: Leaves, levels: nat)
    requires 0 !in e.name && |e.hash| == 20
    ensures var one := AddEntry(o, e, prefix, tree, levels);
            ParseRest(o, TreeEntryBytes(e) + rest, prefix, tree, levels)
            == if one.Tree? then ParseRest(o, rest, prefix, one.files, levels) else one
  {
    hide TreeEntryBytes, Octal, ParseInto, IsDirMode, Extend;
    CutEntry(e, rest);
    ModeShows(e.mode);
  }

  /** No printed tree passes for the flat text format. */
  lemma NeverLegacy(es: seq<TreeEntry>)
    ensures !IsLegacy(Print(es))
  {
    if es != [] {
      assert TreeEntryBytes(es[0])[|Octal(es[0].mode)| + 1 + |es[0].name|] == 0;
      assert Print(es)[|Octal(es[0].mode)| + 1 + |es[0].name|] == 0;
    }
  }
}
