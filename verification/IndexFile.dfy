/** The index as a map from paths to entries, and the file that holds it. */
module IndexFile {
  import opened Ordering
  import opened IndexCodec
  import opened Wrappers

  type IndexMap = map<Bytes, Entry>

  /** Every entry is filed under its own path. */
  ghost predicate Keyed(m: IndexMap) {
    forall p :: p in m ==> m[p].path == p && |m[p].hash| == 20
  }

  function PathKey(): Entry -> seq<int> {
    (e: Entry) => e.path
  }

  /** The entries of the map in path order. */
  ghost predicate Lists(es: seq<Entry>, m: IndexMap) {
    Ascending(es, PathKey()) && forall e :: e in es <==> e.path in m && m[e.path] == e
  }

  /** The map that a list of entries is loaded into; later entries replace earlier ones. */
  function ToMap(es: seq<Entry>): IndexMap {
    if es == [] then map[] else ToMap(es[..|es| - 1])[es[|es| - 1].path := es[|es| - 1]]
  }

  /** What the file holds, as a map; a missing file holds nothing. */
  function Load(sha: Bytes -> Bytes, file: Option<Bytes>): Result<IndexMap> {
    match file
    case None => Ok(map[])
    case Some(data) =>
      match ParseIndex(sha, data)
      case Err(e) => Err(e)
      case Ok(es) => Ok(ToMap(es))
  }

  /** Entry `i` is the last one of its path. */
  ghost predicate LastOf(es: seq<Entry>, i: nat) {
    i < |es| && forall j :: i < j < |es| ==> es[j].path != es[i].path
  }

  /** Of the entries of a path the last one counts, and a path is there if an entry has it. */
  lemma {:induction false} ToMapLast(es: seq<Entry>)
    ensures forall i: nat :: LastOf(es, i) ==> es[i].path in ToMap(es) && ToMap(es)[es[i].path] == es[i]
    ensures forall p :: p in ToMap(es) <==> exists i :: 0 <= i < |es| && es[i].path == p
    decreases |es|
  {
    if es != [] {
      var init, last := es[..|es| - 1], es[|es| - 1];
      ToMapLast(init);
      forall i: nat | LastOf(es, i)
        ensures es[i].path in ToMap(es) && ToMap(es)[es[i].path] == es[i]
      {
        if i < |init| {
          assert LastOf(init, i);
        }
      }
      forall p
        ensures p in ToMap(es) <==> exists i :: 0 <= i < |es| && es[i].path == p
      {
        if p in ToMap(init) {
          var i :| 0 <= i < |init| && init[i].path == p;
          assert es[i].path == p;
        }
        if i :| 0 <= i < |init| && es[i].path == p {
          assert init[i].path == p;
        }
        assert last.path in ToMap(es);
      }
    }
  }

  method LoadIndex(sha: Bytes -> Bytes, file: Option<Bytes>) returns (r: Result<IndexMap>)
    ensures r == Load(sha, file)
    ensures file.None? ==> r == Ok(map[])
  {
    if file.None? {
      return Ok(map[]);
    }
    var entries := ReadIndex(sha, file.value);
    if entries.Err? {
      return Err(entries.error);
    }
    var indexMap: IndexMap := map[];
    for i := 0 to |entries.value|
      invariant indexMap == ToMap(entries.value[..i])
    {
      var e := entries.value[i];
      indexMap := indexMap[e.path := e];
      assert entries.value[..i + 1][..i] == entries.value[..i];
    }
    assert entries.value[..|entries.value|] == entries.value;
    return Ok(indexMap);
  }

  ghost predicate HashesOk(es: seq<Entry>) {
    forall i :: 0 <= i < |es| ==> |es[i].hash| == 20
  }

  lemma ListedHashes(es: seq<Entry>, m: IndexMap)
    requires Keyed(m) && Lists(es, m)
    ensures HashesOk(es)
  {
    forall i | 0 <= i < |es|
      ensures |es[i].hash| == 20
    {
      assert es[i] in es;
    }
  }

  /** Only one list has the map's entries in path order. */
  lemma ListingUnique(es: seq<Entry>, es': seq<Entry>, m: IndexMap)
    requires Lists(es, m) && Lists(es', m)
    ensures es == es'
  {
    AscendingUnique(es, es', PathKey());
  }

  /** The paths of the list in byte order: each agrees with the next up to where it ends or has the smaller byte. */
  lemma ListingOrder(m: IndexMap, i: nat, j: nat)
    requires Keyed(m) && i < j < |Listing(m)|
    ensures Before(Listing(m)[i].path, Listing(m)[j].path)
  {
    AscendingBefore(Listing(m), PathKey(), i, j);
  }

  lemma ListsWith(es: seq<Entry>, m: IndexMap, p: Bytes)
    requires Keyed(m) && p in m && Lists(es, m - {p})
    ensures Lists(Insert(es, m[p], PathKey()), m)
  {
    InsertAscends(es, m[p], PathKey());
  }

  lemma {:induction false} ListingExists(m: IndexMap)
    requires Keyed(m)
    ensures exists es :: Lists(es, m)
    decreases |m|
  {
    if m == map[] {
      assert Lists([], m);
    } else {
      var p :| p in m;
      ListingExists(m - {p});
      var es :| Lists(es, m - {p});
      ListsWith(es, m, p);
    }
  }

  /** The map's entries in path order. */
  ghost function Listing(m: IndexMap): (es: seq<Entry>)
    requires Keyed(m)
    ensures Lists(es, m) && HashesOk(es)
  {
    ListingExists(m);
    var es :| Lists(es, m);
    ListedHashes(es, m);
    es
  }

  /**
   Collects the entries in map order, sorts them by path and prints them; the file does not
   depend on the order in which the map is walked.
   */
  method WriteMapToDisk(sha: Bytes -> Bytes, m: IndexMap) returns (data: Bytes)
    requires Keyed(m)
    ensures data == IndexBytes(sha, Listing(m))
  {
    var entries: seq<Entry> := [];
    var rest := m.Keys;
    while rest != {}
      invariant rest <= m.Keys && Ascending(entries, PathKey())
      invariant forall e :: e in entries <==> e.path in m && e.path !in rest && m[e.path] == e
      decreases rest
    {
      var path :| path in rest;
      InsertAscends(entries, m[path], PathKey());
      entries := Insert(entries, m[path], PathKey());
      rest := rest - {path};
    }
    ListingUnique(entries, Listing(m), m);
    data := UpdateIndex(sha, entries);
  }

  /** Nothing in the map is beyond what the file format can hold. */
  ghost predicate StorableMap(m: IndexMap) {
    |m| < 0x1_0000_0000 && Fits(m)
  }

  ghost predicate Fits(m: IndexMap) {
    forall p :: p in m ==> 0 !in p && m[p].stage < 4
  }

  /** The entries of `es` are all in the map. */
  ghost predicate Listed(es: seq<Entry>, m: IndexMap) {
    Ascending(es, PathKey()) && forall e :: e in es ==> e.path in m && m[e.path] == e
  }

  lemma ListedInit(es: seq<Entry>, m: IndexMap)
    requires es != [] && Listed(es, m)
    ensures Listed(es[..|es| - 1], m) && es[|es| - 1].path in m && m[es[|es| - 1].path] == es[|es| - 1]
    ensures forall e :: e in es[..|es| - 1] ==> e.path != es[|es| - 1].path
    ensures forall e :: e in es <==> e in es[..|es| - 1] || e == es[|es| - 1]
  {
    var init, last := es[..|es| - 1], es[|es| - 1];
    assert es == init + [last];
    forall e | e in init
      ensures e.path != last.path
    {
      var i :| 0 <= i < |init| && init[i] == e;
      assert Less(PathKey()(es[i]), PathKey()(last));
      LessTotal(last.path, last.path);
    }
  }

  ghost predicate HasPath(es: seq<Entry>, p: Bytes) {
    exists e :: e in es && e.path == p
  }

  lemma {:induction false} ToMapOfListed(es: seq<Entry>, m: IndexMap)
    requires Listed(es, m)
    ensures |ToMap(es)| == |es|
    ensures forall p :: p in ToMap(es) <==> HasPath(es, p)
    ensures forall p :: p in ToMap(es) ==> p in m && ToMap(es)[p] == m[p]
    decreases |es|
  {
    hide Listed;
    if es != [] {
      ListedInit(es, m);
      ToMapOfListed(es[..|es| - 1], m);
    }
  }

  /** What an index file can hold: entries under their own paths, and nothing beyond the format. */
  ghost predicate Holdable(m: IndexMap) {
    Keyed(m) && StorableMap(m)
  }

  lemma {:induction false} ToMapKeyed(es: seq<Entry>)
    requires forall i :: 0 <= i < |es| ==> 0 !in es[i].path && es[i].stage < 4 && |es[i].hash| == 20
    ensures Keyed(ToMap(es)) && |ToMap(es)| <= |es|
    ensures forall p :: p in ToMap(es) ==> 0 !in p && ToMap(es)[p].stage < 4
    decreases |es|
  {
    if es != [] {
      ToMapKeyed(es[..|es| - 1]);
      PutSize(ToMap(es[..|es| - 1]), es[|es| - 1].path, es[|es| - 1]);
    }
  }

  lemma PutSize(m: IndexMap, p: Bytes, e: Entry)
    ensures |m[p := e]| <= |m| + 1
  {
    assert m[p := e].Keys == m.Keys + {p};
    assert |m[p := e]| == |m[p := e].Keys| && |m| == |m.Keys|;
  }

  /** Whatever the file holds, what is loaded from it can be held by a file. */
  lemma LoadedHoldable(sha: Bytes -> Bytes, file: Option<Bytes>)
    ensures Load(sha, file).Ok? ==> Holdable(Load(sha, file).value)
  {
    hide ParseIndex, ToMap;
    if file.Some? && Load(sha, file).Ok? {
      ParsedIndex(sha, file.value);
      ToMapKeyed(ParseIndex(sha, file.value).value);
    } else {
      assert Holdable(map[]);
    }
  }

  /** A map is loaded again after it was written, exactly if the file can hold it. */
  lemma MapRoundTrip(sha: Bytes -> Bytes, m: IndexMap)
    requires (forall x :: |sha(x)| == 20) && Keyed(m)
    ensures Load(sha, Some(IndexBytes(sha, Listing(m)))) == Ok(m) <==> StorableMap(m)
  {
    hide ParseIndex, IndexBytes;
    var es := Listing(m);
    ListedHolds(es, m);
    LoadedHoldable(sha, Some(IndexBytes(sha, es)));
    if StorableMap(m) {
      forall i | 0 <= i < |es|
        ensures 0 !in es[i].path && es[i].stage < 4
      {
        assert es[i] in es;
      }
      IndexRoundTrip(sha, es);
    }
  }

  lemma ListedHolds(es: seq<Entry>, m: IndexMap)
    requires Keyed(m) && Lists(es, m)
    ensures ToMap(es) == m && |es| == |m|
  {
    assert Listed(es, m);
    ToMapOfListed(es, m);
    forall p | p in m
      ensures p in ToMap(es)
    {
      assert m[p] in es;
    }
    assert ToMap(es) == m;
  }
}
