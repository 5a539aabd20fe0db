/**
 The binary index file: entries printed as stat data, object id, flags, path and padding, and
 read back by a parser that also skips extensions.  SHA-1 is an arbitrary function with
 20-byte results.
 */
module IndexCodec {
  import opened Sequences

  type Byte = b: nat | b < 256

  type Bytes = seq<Byte>

  type U32 = n: nat | n < 0x1_0000_0000

  datatype Stat = Stat(
    ctimeSec: U32, ctimeNSec: U32, mtimeSec: U32, mtimeNSec: U32,
    dev: U32, ino: U32, mode: U32, uid: U32, gid: U32, size: U32)

  datatype Entry = Entry(path: Bytes, hash: Bytes, stage: nat, stat: Stat)

  datatype Error =
    | TooSmall | ChecksumMismatch | BadSignature | BadVersion | UnexpectedEOF | NotTerminated | BadPadding
    | BadExtension

  datatype Result<+T> = Ok(value: T) | Err(error: Error)

  // ---------- Numbers ----------

  type U16 = n: nat | n < 0x1_0000

  function Be16(n: U16): (b: Bytes)
    ensures |b| == 2 && FromBe16(b) == n
  {
    [n / 256, n % 256]
  }

  function FromBe16(b: Bytes): U16
    requires |b| == 2
  {
    b[0] as int * 256 + b[1] as int
  }

  function Be32(n: U32): (b: Bytes)
    ensures |b| == 4
  {
    Be16(n / 0x1_0000) + Be16(n % 0x1_0000)
  }

  function FromBe32(b: Bytes): U32
    requires |b| == 4
  {
    FromBe16(b[..2]) as int * 0x1_0000 + FromBe16(b[2..]) as int
  }

  lemma Be32RoundTrip(n: U32)
    ensures FromBe32(Be32(n)) == n
  {
    assert Be32(n)[..2] == Be16(n / 0x1_0000) && Be32(n)[2..] == Be16(n % 0x1_0000);
  }

  // ---------- Printing ----------

  function StatBytes(s: Stat): (b: Bytes)
    ensures |b| == 40
  {
    Be32(s.ctimeSec) + Be32(s.ctimeNSec) + Be32(s.mtimeSec) + Be32(s.mtimeNSec) + Be32(s.dev)
    + Be32(s.ino) + Be32(s.mode) + Be32(s.uid) + Be32(s.gid) + Be32(s.size)
  }

  /** Stage in bits 12 and 13, path length, capped, below. */
  function Flags(e: Entry): (f: nat)
    ensures f < 0x4000
  {
    e.stage % 4 * 0x1000 + (if |e.path| > 0xFFF then 0xFFF else |e.path|)
  }

  function Zeros(n: nat): (z: Bytes)
    ensures |z| == n && forall i :: 0 <= i < n ==> z[i] == 0
  {
    seq(n, _ => 0)
  }

  function Padding(size: nat): nat {
    (8 - size % 8) % 8
  }

  function EntryBytes(e: Entry): Bytes
    requires |e.hash| == 20
  {
    StatBytes(e.stat) + e.hash + Be16(Flags(e)) + e.path + [0] + Zeros(Padding(62 + |e.path| + 1))
  }

  function EntriesBytes(es: seq<Entry>): Bytes
    requires forall i :: 0 <= i < |es| ==> |es[i].hash| == 20
  {
    if es == [] then [] else EntryBytes(es[0]) + EntriesBytes(es[1..])
  }

  const SIGNATURE: Bytes := [68, 73, 82, 67]   // "DIRC"

  function Body(es: seq<Entry>): Bytes
    requires forall i :: 0 <= i < |es| ==> |es[i].hash| == 20
  {
    SIGNATURE + Be32(2) + Be32(|es| % 0x1_0000_0000) + EntriesBytes(es)
  }

  /** The index file of some entries. */
  function IndexBytes(sha: Bytes -> Bytes, es: seq<Entry>): Bytes
    requires forall i :: 0 <= i < |es| ==> |es[i].hash| == 20
  {
    Body(es) + sha(Body(es))
  }

  lemma EntryBytesIs(buf: Bytes, e: Entry)
    requires |e.hash| == 20
    ensures var nameLen := if |e.path| > 0xFFF then 0xFFF else |e.path|;
            var pad := (8 - (62 + |e.path| + 1) % 8) % 8;
            && e.stage % 4 * 0x1000 + nameLen < 0x1_0000
            && buf + EntryBytes(e)
               == buf + StatBytes(e.stat) + e.hash + Be16(e.stage % 4 * 0x1000 + nameLen) + e.path + [0] + Zeros(pad)
  {
    hide StatBytes, Be16;
    AppendRegroups(buf, StatBytes(e.stat), e.hash, Be16(Flags(e)), e.path, Zeros(Padding(62 + |e.path| + 1)));
  }

  lemma AppendRegroups(buf: Bytes, a: Bytes, b: Bytes, c: Bytes, d: Bytes, z: Bytes)
    ensures buf + (a + b + c + d + [0] + z) == buf + a + b + c + d + [0] + z
  {
  }

  lemma ZerosGrow(front: Bytes, n: nat)
    ensures front + Zeros(n) + [0] == front + Zeros(n + 1) && front + Zeros(0) == front
  {
  }

  method WriteEntry(buf: Bytes, e: Entry) returns (r: Bytes)
    requires |e.hash| == 20
    ensures r == buf + EntryBytes(e)
  {
    hide EntryBytes, StatBytes, Be16, Zeros;
    EntryBytesIs(buf, e);
    r := buf + StatBytes(e.stat);
    r := r + e.hash;
    var nameLen := |e.path|;
    if nameLen > 0xFFF {
      nameLen := 0xFFF;
    }
    r := r + Be16(e.stage % 4 * 0x1000 + nameLen);
    r := r + e.path;
    r := r + [0];
    var entrySize := 62 + |e.path| + 1;
    var pad := (8 - entrySize % 8) % 8;
    ghost var before := r;
    ZerosGrow(before, 0);
    for i := 0 to pad
      invariant r == before + Zeros(i)
    {
      ZerosGrow(before, i);
      r := r + [0];
    }
  }

  method UpdateIndex(sha: Bytes -> Bytes, entries: seq<Entry>) returns (data: Bytes)
    requires forall i :: 0 <= i < |entries| ==> |entries[i].hash| == 20
    ensures data == IndexBytes(sha, entries)
  {
    hide EntryBytes, Be32;
    data := SIGNATURE + Be32(2) + Be32(|entries| % 0x1_0000_0000);
    ghost var header := data;
    assert entries[0..] == entries;
    for i := 0 to |entries|
      invariant data + EntriesBytes(entries[i..]) == header + EntriesBytes(entries)
    {
      assert entries[i..][0] == entries[i] && entries[i..][1..] == entries[i + 1..];
      Regroup(data, EntryBytes(entries[i]), EntriesBytes(entries[i + 1..]));
      data := WriteEntry(data, entries[i]);
    }
    assert entries[|entries|..] == [] && data + [] == data;
    data := data + sha(data);
  }

  // ---------- Parsing ----------

  /** Position of the first NUL byte, or the length if there is none. */
  function FirstNul(b: Bytes): (n: nat)
    ensures n <= |b| && (n < |b| ==> b[n] == 0) && forall i :: 0 <= i < n ==> b[i] != 0
  {
    if b == [] || b[0] == 0 then 0 else 1 + FirstNul(b[1..])
  }

  function ReadStat(b: Bytes): Stat
    requires |b| >= 40
  {
    Stat(FromBe32(b[0..4]), FromBe32(b[4..8]), FromBe32(b[8..12]), FromBe32(b[12..16]), FromBe32(b[16..20]),
         FromBe32(b[20..24]), FromBe32(b[24..28]), FromBe32(b[28..32]), FromBe32(b[32..36]), FromBe32(b[36..40]))
  }

  predicate Extended(flags: nat) {
    flags / 0x4000 % 2 == 1
  }

  function StageOf(flags: nat): (stage: nat)
    ensures stage < 4
  {
    flags / 0x1000 % 4
  }

  /** What is missing to the next multiple of 8, where 8 stands for nothing. */
  function PadOf(size: nat): (pad: nat)
    ensures 1 <= pad <= 8
  {
    8 - size % 8
  }

  lemma NoNulBefore(b: Bytes, base: nat, n: nat)
    requires base <= |b| && n == FirstNul(b[base..])
    ensures base + n <= |b| && 0 !in b[base..base + n]
  {
    hide FirstNul;
    SliceOfDrop(b, base, 0, n);
  }

  /** One entry at the start of `b`, and how many bytes it takes. */
  function ParseEntry(b: Bytes): (r: Result<(Entry, nat)>)
    ensures r.Ok? ==> 0 < r.value.1 <= |b|
    ensures r.Ok? ==> 0 !in r.value.0.path && r.value.0.stage < 4 && |r.value.0.hash| == 20
  {
    hide FirstNul, ReadStat, FromBe16, FromBe32, Extended, StageOf, PadOf;
    if |b| < 62 then Err(UnexpectedEOF)
    else
      var flags := FromBe16(b[60..62]);
      var base := if Extended(flags) then 64 else 62;
      if |b| < base then Err(UnexpectedEOF)
      else
        var n := FirstNul(b[base..]);
        if base + n == |b| then Err(NotTerminated)
        else
          var pad := PadOf(base + n + 1);
          var size: nat := base + n + 1 + (if pad != 8 then pad else 0);
          if size > |b| then Err(BadPadding)
          else
            NoNulBefore(b, base, n);
            Ok((Entry(b[base..base + n], b[40..60], StageOf(flags), ReadStat(b)), size))
  }

  function ParseEntries(b: Bytes, count: nat): (r: Result<(seq<Entry>, nat)>)
    ensures r.Ok? ==> r.value.1 <= |b| && |r.value.0| == count
    decreases count
  {
    hide ParseEntry;
    if count == 0 then Ok(([], 0))
    else
      match ParseEntry(b)
      case Err(e) => Err(e)
      case Ok((first, n)) =>
        match ParseEntries(b[n..], count - 1)
        case Err(e) => Err(e)
        case Ok((rest, m)) => Ok(([first] + rest, n + m))
  }

  /** Whatever was parsed has paths without NUL bytes and stages up to 3. */
  lemma {:induction false} ParsedEntries(b: Bytes, count: nat)
    ensures var r := ParseEntries(b, count);
            r.Ok? ==>
              forall i :: 0 <= i < count ==>
                0 !in r.value.0[i].path && r.value.0[i].stage < 4 && |r.value.0[i].hash| == 20
    decreases count
  {
    hide ParseEntry;
    if count > 0 {
      var one := ParseEntry(b);
      if one.Ok? {
        ParsedEntries(b[one.value.1..], count - 1);
      }
    }
  }

  /** The bytes between the entries and the checksum hold well-formed extensions, up to a short tail. */
  function ExtensionsOk(b: Bytes): bool {
    if |b| < 8 then true
    else
      var size := FromBe32(b[4..8]);
      8 + size <= |b| && ExtensionsOk(b[8 + size..])
  }

  function ParseIndex(sha: Bytes -> Bytes, data: Bytes): Result<seq<Entry>> {
    if |data| < 32 then Err(TooSmall)
    else
      var end := |data| - 20;
      if sha(data[..end]) != data[end..] then Err(ChecksumMismatch)
      else if data[0..4] != SIGNATURE then Err(BadSignature)
      else if !(2 <= FromBe32(data[4..8]) <= 3) then Err(BadVersion)
      else
        match ParseEntries(data[12..], FromBe32(data[8..12]))
        case Err(e) => Err(e)
        case Ok((es, n)) =>
          if 12 + n < end && !ExtensionsOk(data[12 + n..end]) then Err(BadExtension) else Ok(es)
  }

  lemma ParsedIndex(sha: Bytes -> Bytes, data: Bytes)
    ensures var r := ParseIndex(sha, data);
            r.Ok? ==>
              && |r.value| < 0x1_0000_0000
              && forall i :: 0 <= i < |r.value| ==>
                   0 !in r.value[i].path && r.value[i].stage < 4 && |r.value[i].hash| == 20
  {
    hide ParseEntries, ExtensionsOk, FromBe32;
    if ParseIndex(sha, data).Ok? {
      ParsedEntries(data[12..], FromBe32(data[8..12]));
    }
  }

  method IndexByte(b: Bytes) returns (n: int)
    ensures n == if FirstNul(b) == |b| then -1 else FirstNul(b)
  {
    for i := 0 to |b|
      invariant FirstNul(b) == i + FirstNul(b[i..])
    {
      if b[i] == 0 {
        return i;
      }
    }
    return -1;
  }

  lemma SliceOfDrop(data: Bytes, start: nat, lo: nat, hi: nat)
    requires start + hi <= |data| && lo <= hi
    ensures data[start..][lo..hi] == data[start + lo..start + hi]
    ensures data[start..][lo..] == data[start + lo..]
  {
  }

  /** An entry in the middle of the file. */
  lemma ParseEntryAt(data: Bytes, start: nat)
    requires start + 62 <= |data|
    ensures var flags := FromBe16(data[start + 60..start + 62]);
            var base := if Extended(flags) then 64 else 62;
            if start + base > |data| then ParseEntry(data[start..]) == Err(UnexpectedEOF)
            else
              var n := FirstNul(data[start + base..]);
              var pad := PadOf(base + n + 1);
              var size := base + n + 1 + (if pad != 8 then pad else 0);
              ParseEntry(data[start..]) ==
                if start + base + n == |data| then Err(NotTerminated)
                else if start + size > |data| then Err(BadPadding)
                else
                  Ok((Entry(data[start + base..start + base + n], data[start + 40..start + 60], StageOf(flags),
                            ReadStat(data[start..])), size))
  {
    hide ReadStat, FirstNul, FromBe16, Extended, StageOf, PadOf;
    SliceOfDrop(data, start, 40, 60);
    SliceOfDrop(data, start, 60, 62);
    var base := if Extended(FromBe16(data[start + 60..start + 62])) then 64 else 62;
    if start + base <= |data| {
      SliceOfDrop(data, start, base, base + FirstNul(data[start + base..]));
    }
  }

  lemma EntryTooShort(b: Bytes)
    requires |b| < 62
    ensures ParseEntry(b) == Err(UnexpectedEOF)
  {
  }

  /** Reads one entry at `start` and returns the offset after it. */
  method ReadEntry(data: Bytes, start: nat) returns (r: Result<(Entry, nat)>)
    requires start <= |data|
    ensures match ParseEntry(data[start..])
            case Err(e) => r == Err(e)
            case Ok((entry, n)) => r == Ok((entry, start + n))
  {
    hide ParseEntry, ReadStat, FirstNul, FromBe16, Extended, StageOf, PadOf;
    if start + 62 > |data| {
      EntryTooShort(data[start..]);
      return Err(UnexpectedEOF);
    }
    ParseEntryAt(data, start);
    var stat := ReadStat(data[start..]);
    var offset := start + 40;
    var hash := data[offset..offset + 20];
    offset := offset + 20;
    var flags := FromBe16(data[offset..offset + 2]);
    offset := offset + 2;
    var stage := StageOf(flags);
    var baseSize := 62;
    if Extended(flags) {
      if offset + 2 > |data| {
        return Err(UnexpectedEOF);
      }
      offset := offset + 2;
      baseSize := baseSize + 2;
    }
    var idx := IndexByte(data[offset..]);
    if idx == -1 {
      return Err(NotTerminated);
    }
    var path := data[offset..offset + idx];
    offset := offset + idx + 1;
    var pad := PadOf(baseSize + |path| + 1);
    if pad != 8 {
      if offset + pad > |data| {
        return Err(BadPadding);
      }
      offset := offset + pad;
    }
    return Ok((Entry(path, hash, stage, stat), offset));
  }

  method ReadIndex(sha: Bytes -> Bytes, data: Bytes) returns (r: Result<seq<Entry>>)
    ensures r == ParseIndex(sha, data)
  {
    hide ParseEntry, FromBe32;
    if |data| < 32 {
      return Err(TooSmall);
    }
    var end := |data| - 20;
    if sha(data[..end]) != data[end..] {
      return Err(ChecksumMismatch);
    }
    if data[0..4] != SIGNATURE {
      return Err(BadSignature);
    }
    var version := FromBe32(data[4..8]);
    if version < 2 || version > 3 {
      return Err(BadVersion);
    }
    var count := FromBe32(data[8..12]);
    var offset;
    r, offset := ReadEntries(data, count);
    if r.Err? {
      return;
    }
    var ok := SkipExtensions(data, offset, end);
    if !ok {
      return Err(BadExtension);
    }
  }

  method ReadEntries(data: Bytes, count: nat) returns (r: Result<seq<Entry>>, offset: nat)
    requires |data| >= 12
    ensures match ParseEntries(data[12..], count)
            case Err(e) => r == Err(e)
            case Ok((es, n)) => r == Ok(es) && offset == 12 + n
  {
    hide ParseEntry;
    var entries: seq<Entry> := [];
    offset := 12;
    assert forall es: seq<Entry> {:trigger entries + es} :: entries + es == es;
    for i := 0 to count
      invariant 12 <= offset <= |data|
      invariant match ParseEntries(data[offset..], count - i)
                case Err(e) => ParseEntries(data[12..], count) == Err(e)
                case Ok((es, n)) => ParseEntries(data[12..], count) == Ok((entries + es, offset - 12 + n))
    {
      var one := ReadEntry(data, offset);
      if one.Err? {
        return Err(one.error), offset;
      }
      ParseOne(data, offset, count - i, one.value.0, one.value.1 - offset);
      EntriesRegroup(entries, one.value.0);
      entries := entries + [one.value.0];
      offset := one.value.1;
    }
    assert entries + [] == entries;
    return Ok(entries), offset;
  }

  lemma EntriesRegroup(es: seq<Entry>, e: Entry)
    ensures forall rest :: es + ([e] + rest) == es + [e] + rest
  {
    forall rest: seq<Entry>
      ensures es + ([e] + rest) == es + [e] + rest
    {
    }
  }

  lemma ParseOne(data: Bytes, offset: nat, count: nat, e: Entry, n: nat)
    requires offset <= |data| && count > 0 && ParseEntry(data[offset..]) == Ok((e, n))
    ensures offset + n <= |data|
    ensures ParseEntries(data[offset..], count) ==
            match ParseEntries(data[offset + n..], count - 1)
            case Err(error) => Err(error)
            case Ok((rest, m)) => Ok(([e] + rest, n + m))
  {
    hide ParseEntry;
    var r := ParseEntry(data[offset..]);
    SliceOfDrop(data, offset, n, n);
  }

  lemma SliceOfSlice(data: Bytes, lo: nat, hi: nat, i: nat, j: nat)
    requires lo + j <= hi <= |data| && i <= j
    ensures data[lo..hi][i..j] == data[lo + i..lo + j]
    ensures lo + j == hi ==> data[lo..hi][i..] == data[lo + i..hi]
  {
    var a, b := data[lo..hi][i..j], data[lo + i..lo + j];
    assert |a| == |b|;
    assert forall k :: 0 <= k < |a| ==> a[k] == b[k];
  }

  method SkipExtensions(data: Bytes, start: nat, end: nat) returns (ok: bool)
    requires end <= |data|
    ensures ok == (start >= end || ExtensionsOk(data[start..end]))
  {
    hide FromBe32;
    var offset := start;
    while offset < end
      invariant start >= end ==> offset == start
      invariant start < end ==> start <= offset <= end
      invariant start < end ==> ExtensionsOk(data[start..end]) == ExtensionsOk(data[offset..end])
      decreases end - offset
    {
      if offset + 8 > end {
        return true;
      }
      SliceOfSlice(data, offset, end, 4, 8);
      var size: int := FromBe32(data[offset + 4..offset + 8]);
      if offset + 8 + size > end {
        return false;
      }
      SliceOfSlice(data, offset, end, 8 + size, end - offset);
      offset := offset + 8 + size;
    }
    return true;
  }

  // ---------- Round trip ----------

  /** What the file format can hold. */
  ghost predicate Storable(es: seq<Entry>) {
    && |es| < 0x1_0000_0000
    && forall i :: 0 <= i < |es| ==> 0 !in es[i].path && es[i].stage < 4
  }

  lemma StatRoundTrip(s: Stat, rest: Bytes)
    ensures ReadStat(StatBytes(s) + rest) == s
  {
    hide Be32, FromBe32;
    var b := StatBytes(s) + rest;
    assert b[0..4] == Be32(s.ctimeSec) && b[4..8] == Be32(s.ctimeNSec) && b[8..12] == Be32(s.mtimeSec);
    assert b[12..16] == Be32(s.mtimeNSec) && b[16..20] == Be32(s.dev) && b[20..24] == Be32(s.ino);
    assert b[24..28] == Be32(s.mode) && b[28..32] == Be32(s.uid) && b[32..36] == Be32(s.gid)
      && b[36..40] == Be32(s.size);
    Be32RoundTrip(s.ctimeSec);
    Be32RoundTrip(s.ctimeNSec);
    Be32RoundTrip(s.mtimeSec);
    Be32RoundTrip(s.mtimeNSec);
    Be32RoundTrip(s.dev);
    Be32RoundTrip(s.ino);
    Be32RoundTrip(s.mode);
    Be32RoundTrip(s.uid);
    Be32RoundTrip(s.gid);
    Be32RoundTrip(s.size);
  }

  lemma {:induction false} FirstNulOf(path: Bytes, rest: Bytes)
    requires 0 !in path
    ensures FirstNul(path + [0] + rest) == |path|
  {
    var b := path + [0] + rest;
    if path != [] {
      assert b[1..] == path[1..] + [0] + rest;
      FirstNulOf(path[1..], rest);
    }
  }

  /** The parts of a printed entry, followed by anything. */
  lemma EntryParts(e: Entry, rest: Bytes)
    requires |e.hash| == 20
    ensures var b := EntryBytes(e) + rest;
            && |b| >= 62 && b == StatBytes(e.stat) + b[40..] && b[40..60] == e.hash && b[60..62] == Be16(Flags(e))
            && b[62..] == e.path + [0] + (Zeros(Padding(62 + |e.path| + 1)) + rest)
            && b[62..62 + |e.path|] == e.path
  {
    hide StatBytes, Be16, Flags, Zeros, Padding;
    var z := Zeros(Padding(62 + |e.path| + 1));
    var b := EntryBytes(e) + rest;
    var tail := e.path + [0] + (z + rest);
    assert b == StatBytes(e.stat) + (e.hash + (Be16(Flags(e)) + tail));
    assert b[40..] == e.hash + (Be16(Flags(e)) + tail);
    assert b[60..] == b[40..][20..] && b[60..] == Be16(Flags(e)) + tail;
    assert b[62..] == b[60..][2..];
    assert b[62..62 + |e.path|] == tail[..|e.path|];
  }

  /** Every entry takes a multiple of 8 bytes. */
  lemma EntryAligned(e: Entry)
    requires |e.hash| == 20
    ensures |EntryBytes(e)| == 62 + |e.path| + 1 + Padding(62 + |e.path| + 1)
    ensures |EntryBytes(e)| % 8 == 0
  {
    hide StatBytes, Be16, Flags, Zeros;
    PaddingAligns(62 + |e.path| + 1);
  }

  lemma PaddingAligns(size: nat)
    ensures (size + Padding(size)) % 8 == 0
    ensures Padding(size) == if 8 - size % 8 != 8 then 8 - size % 8 else 0
  {
  }

  /** The stage comes back from the flags, and the extended bit is never set. */
  lemma FlagsDecode(e: Entry)
    ensures Flags(e) / 0x4000 % 2 == 0 && Flags(e) / 0x1000 % 4 == e.stage % 4
  {
  }

  /** Reading a printed entry gives the entry, whatever follows. */
  lemma EntryRoundTrip(e: Entry, rest: Bytes)
    requires |e.hash| == 20 && 0 !in e.path && e.stage < 4
    ensures ParseEntry(EntryBytes(e) + rest) == Ok((e, |EntryBytes(e)|))
  {
    hide StatBytes, ReadStat, Flags, FirstNul, Padding, Zeros;
    EntryParts(e, rest);
    EntryAligned(e);
    PaddingAligns(62 + |e.path| + 1);
    FlagsDecode(e);
    var b := EntryBytes(e) + rest;
    StatRoundTrip(e.stat, b[40..]);
    FirstNulOf(e.path, Zeros(Padding(62 + |e.path| + 1)) + rest);
  }

  lemma {:induction false} EntriesRoundTrip(es: seq<Entry>, rest: Bytes)
    requires forall i :: 0 <= i < |es| ==> |es[i].hash| == 20 && 0 !in es[i].path && es[i].stage < 4
    ensures ParseEntries(EntriesBytes(es) + rest, |es|) == Ok((es, |EntriesBytes(es)|))
  {
    hide ParseEntry, EntryBytes, EntriesBytes;
    PrintedAhead(es, rest);
    if es != [] {
      EntriesRoundTrip(es[1..], rest);
      EntryRoundTrip(es[0], EntriesBytes(es[1..]) + rest);
    }
  }

  lemma PrintedAhead(es: seq<Entry>, rest: Bytes)
    requires forall i :: 0 <= i < |es| ==> |es[i].hash| == 20
    ensures es == [] ==> EntriesBytes(es) == []
    ensures es != [] ==>
              var b, first, tail := EntriesBytes(es) + rest, EntryBytes(es[0]), EntriesBytes(es[1..]) + rest;
              && b == first + tail && b[|first|..] == tail && [es[0]] + es[1..] == es
              && |EntriesBytes(es)| == |first| + |EntriesBytes(es[1..])|
  {
    hide EntryBytes;
    if es != [] {
      Regroup(EntryBytes(es[0]), EntriesBytes(es[1..]), rest);
    }
  }

  /** The index file's parts, as the reader takes it apart. */
  lemma FileParts(es: seq<Entry>, sum: Bytes)
    requires |sum| == 20 && forall i :: 0 <= i < |es| ==> |es[i].hash| == 20
    ensures var data := Body(es) + sum;
            && |data| >= 32 && data[..|data| - 20] == Body(es) && data[|data| - 20..] == sum
            && data[0..4] == SIGNATURE && data[4..8] == Be32(2) && data[8..12] == Be32(|es| % 0x1_0000_0000)
            && data[12..] == EntriesBytes(es) + sum
  {
    hide Be32, EntriesBytes;
    var data := Body(es) + sum;
    assert Body(es)[12..] == EntriesBytes(es);
  }

  /**
   Reading a written index gives the same entries exactly if the format can hold them: paths
   without NUL bytes, of any length, stages up to 3 and fewer than 2^32 entries.
   */
  lemma IndexRoundTrip(sha: Bytes -> Bytes, es: seq<Entry>)
    requires forall x :: |sha(x)| == 20
    requires forall i :: 0 <= i < |es| ==> |es[i].hash| == 20
    ensures ParseIndex(sha, IndexBytes(sha, es)) == Ok(es) <==> Storable(es)
  {
    hide Body, EntriesBytes, Be32, FromBe32, ParseEntries, ParseEntry, ExtensionsOk;
    var data := IndexBytes(sha, es);
    FileParts(es, sha(Body(es)));
    Be32RoundTrip(2);
    Be32RoundTrip(|es| % 0x1_0000_0000);
    ParsedEntries(data[12..], |es| % 0x1_0000_0000);
    if Storable(es) {
      EntriesRoundTrip(es, sha(Body(es)));
    }
  }
}
