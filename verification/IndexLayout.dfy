/**
 The layout of index files, said about their bytes: which files the reader accepts and what it
 reads from them, whoever wrote them, and what the writer writes.
 */
module IndexLayout {
  import opened Sequences
  import opened IndexCodec

  /** A big-endian number of four bytes. */
  function Number(b: Bytes, at: nat): int
    requires at + 4 <= |b|
  {
    0x100_0000 * (b[at] as int) + 0x1_0000 * (b[at + 1] as int) + 0x100 * (b[at + 2] as int) + b[at + 3] as int
  }

  // ---------- One entry ----------

  /** Ten numbers, one after the other. */
  ghost predicate StatAt(b: Bytes, at: nat, s: Stat)
    requires at + 40 <= |b|
  {
    && s.ctimeSec == Number(b, at) && s.ctimeNSec == Number(b, at + 4)
    && s.mtimeSec == Number(b, at + 8) && s.mtimeNSec == Number(b, at + 12)
    && s.dev == Number(b, at + 16) && s.ino == Number(b, at + 20) && s.mode == Number(b, at + 24)
    && s.uid == Number(b, at + 28) && s.gid == Number(b, at + 32) && s.size == Number(b, at + 36)
  }

  /** The extended bit of the flags, which announces two more bytes. */
  predicate LongAt(b: Bytes, at: nat)
    requires at + 62 <= |b|
  {
    b[at + 60] / 64 % 2 == 1
  }

  /** The path of an entry that has one. */
  function PathStart(b: Bytes, at: nat): nat
    requires at + 62 <= |b|
  {
    at + if LongAt(b, at) then 64 else 62
  }

  /**
   An entry stands at `at`, and the next one would stand at `next`: stat data, 20 bytes of hash, two
   bytes of flags with the stage in bits 12 and 13, the path with its NUL, and what is
   missing to a multiple of 8.
   */
  ghost predicate EntryAt(b: Bytes, at: nat, e: Entry, next: nat) {
    && at + 62 <= |b| && StatAt(b, at, e.stat) && e.hash == b[at + 40..at + 60]
    && e.stage == b[at + 60] / 16 % 4
    && var start := PathStart(b, at);
       && start + |e.path| < |b| && e.path == b[start..start + |e.path|] && 0 !in e.path && b[start + |e.path|] == 0
       && start + |e.path| + 1 <= next < start + |e.path| + 9 && (next - at) % 8 == 0 && next <= |b|
  }

  lemma NumberIs(b: Bytes, at: nat)
    requires at + 4 <= |b|
    ensures FromBe32(b[at..at + 4]) == Number(b, at)
  {
    var w := b[at..at + 4];
    assert w[0] == b[at] && w[1] == b[at + 1] && w[2] == b[at + 2] && w[3] == b[at + 3];
    assert w[..2][0] == w[0] && w[..2][1] == w[1] && w[2..][0] == w[2] && w[2..][1] == w[3];
  }

  lemma StatIs(b: Bytes, s: Stat)
    requires |b| >= 40
    ensures ReadStat(b) == s <==> StatAt(b, 0, s)
  {
    hide FromBe32, Number;
    NumberIs(b, 0);
    NumberIs(b, 4);
    NumberIs(b, 8);
    NumberIs(b, 12);
    NumberIs(b, 16);
    NumberIs(b, 20);
    NumberIs(b, 24);
    NumberIs(b, 28);
    NumberIs(b, 32);
    NumberIs(b, 36);
  }

  lemma FlagsAre(b: Bytes)
    requires |b| >= 62
    ensures var flags := FromBe16(b[60..62]);
            && (Extended(flags) <==> LongAt(b, 0)) && StageOf(flags) == b[60] / 16 % 4
  {
    assert b[60..62][0] == b[60] && b[60..62][1] == b[61];
    FlagBits(b[60], b[61]);
  }

  lemma FlagBits(x: Byte, y: Byte)
    ensures (x * 256 + y) / 0x4000 == x / 64 && (x * 256 + y) / 0x1000 == x / 16
  {
  }

  /** The one place up to which the entry is filled up. */
  lemma PadEnds(size: nat, next: nat)
    ensures var pad := PadOf(size);
            next == size + (if pad != 8 then pad else 0) <==> size <= next < size + 8 && next % 8 == 0
  {
  }

  lemma FirstNulIs(b: Bytes, n: nat)
    requires n < |b|
    ensures FirstNul(b) == n <==> b[n] == 0 && 0 !in b[..n]
  {
    hide FirstNul;
    assert forall i :: 0 <= i < n ==> b[..n][i] == b[i];
  }

  /** The first entry of some bytes. */
  lemma EntryIff(b: Bytes, e: Entry, n: nat)
    ensures ParseEntry(b) == Ok((e, n)) <==> EntryAt(b, 0, e, n)
  {
    hide ReadStat, FirstNul, FromBe16, Extended, StageOf, PadOf, StatAt, Number, LongAt;
    if |b| >= 62 {
      StatIs(b, e.stat);
      FlagsAre(b);
      var start := PathStart(b, 0);
      if start + |e.path| < |b| {
        FirstNulIs(b[start..], |e.path|);
        assert b[start..][..|e.path|] == b[start..start + |e.path|] && b[start..][|e.path|] == b[start + |e.path|];
        PadEnds(start + |e.path| + 1, n);
      }
    }
  }

  lemma EntryShifted(b: Bytes, at: nat, e: Entry, n: nat)
    requires at <= |b|
    ensures EntryAt(b[at..], 0, e, n) <==> EntryAt(b, at, e, at + n)
  {
    hide Number;
    if at + 62 <= |b| {
      StatShifted(b, at, e.stat);
      assert b[at..][40..60] == b[at + 40..at + 60] && b[at..][60] == b[at + 60];
      var start := PathStart(b, at);
      if start + |e.path| < |b| {
        assert b[at..][start - at..start - at + |e.path|] == b[start..start + |e.path|];
      }
    }
  }

  lemma StatShifted(b: Bytes, at: nat, s: Stat)
    requires at + 40 <= |b|
    ensures StatAt(b[at..], 0, s) <==> StatAt(b, at, s)
  {
    hide Number;
    forall k: nat | k + 4 <= 40
      ensures Number(b[at..], k) == Number(b, at + k)
    {
      NumberShifted(b, at, k);
    }
  }

  lemma NumberShifted(b: Bytes, at: nat, k: nat)
    requires at + k + 4 <= |b|
    ensures Number(b[at..], k) == Number(b, at + k)
  {
  }

  // ---------- Entries and extensions ----------

  /** The entries stand one behind the other. */
  ghost predicate Tiles(b: Bytes, at: nat, es: seq<Entry>, starts: seq<nat>) {
    && |starts| == |es| + 1 && starts[0] == at
    && forall i :: 0 <= i < |es| ==> EntryAt(b, starts[i], es[i], starts[i + 1])
  }

  ghost predicate EntriesAt(b: Bytes, at: nat, es: seq<Entry>, end: nat) {
    exists starts :: Tiles(b, at, es, starts) && starts[|es|] == end
  }

  lemma EntriesFirst(b: Bytes, at: nat, es: seq<Entry>, end: nat)
    requires es != []
    ensures EntriesAt(b, at, es, end) <==>
              exists next: nat :: EntryAt(b, at, es[0], next) && EntriesAt(b, next, es[1..], end)
  {
    hide EntryAt;
    if EntriesAt(b, at, es, end) {
      var starts :| Tiles(b, at, es, starts) && starts[|es|] == end;
      assert Tiles(b, starts[1], es[1..], starts[1..]);
      assert EntryAt(b, at, es[0], starts[1]);
    }
    if next: nat :| EntryAt(b, at, es[0], next) && EntriesAt(b, next, es[1..], end) {
      var starts :| Tiles(b, next, es[1..], starts) && starts[|es[1..]|] == end;
      assert Tiles(b, at, es, [at] + starts);
    }
  }

  lemma EntriesNone(b: Bytes, at: nat, end: nat)
    ensures EntriesAt(b, at, [], end) <==> at == end
  {
    assert Tiles(b, at, [], [at]);
  }

  lemma {:induction false} EntriesIff(b: Bytes, at: nat, es: seq<Entry>, n: nat)
    requires at <= |b|
    ensures ParseEntries(b[at..], |es|) == Ok((es, n)) <==> EntriesAt(b, at, es, at + n)
    decreases |es|
  {
    hide ParseEntry, EntryAt, EntriesAt;
    if es == [] {
      EntriesNone(b, at, at + n);
    } else {
      EntriesFirst(b, at, es, at + n);
      assert es == [es[0]] + es[1..];
      var one := ParseEntry(b[at..]);
      if one.Ok? {
        var (first, k) := one.value;
        assert b[at..][k..] == b[at + k..];
        if n >= k {
          EntriesIff(b, at + k, es[1..], n - k);
        }
        EntriesAfter(b, at + k, es[1..], at + n);
        EntryOnce(b, at, es[0]);
        EntryIff(b[at..], es[0], k);
        EntryShifted(b, at, es[0], k);
      } else {
        EntryNever(b, at, es[0]);
      }
    }
  }

  /** The entries end behind where they begin. */
  lemma {:induction false} EntriesAfter(b: Bytes, at: nat, es: seq<Entry>, end: nat)
    ensures EntriesAt(b, at, es, end) ==> at <= end
    decreases |es|
  {
    hide EntryAt, EntriesAt;
    if es == [] {
      EntriesNone(b, at, end);
    } else {
      EntriesFirst(b, at, es, end);
      if next: nat :| EntryAt(b, at, es[0], next) && EntriesAt(b, next, es[1..], end) {
        EntryEnds(b, at, es[0], next);
        EntriesAfter(b, next, es[1..], end);
      }
    }
  }

  lemma EntryEnds(b: Bytes, at: nat, e: Entry, next: nat)
    requires EntryAt(b, at, e, next)
    ensures at + 62 < next <= |b|
  {
    hide StatAt;
  }

  /** An entry ends where the reader says. */
  lemma EntryOnce(b: Bytes, at: nat, e: Entry)
    requires at <= |b| && ParseEntry(b[at..]).Ok?
    ensures forall next: nat :: EntryAt(b, at, e, next) ==>
              ParseEntry(b[at..]).value == (e, next - at) && at <= next
  {
    hide ParseEntry, EntryAt;
    forall next: nat | EntryAt(b, at, e, next)
      ensures ParseEntry(b[at..]).value == (e, next - at) && at <= next
    {
      EntryEnds(b, at, e, next);
      EntryIff(b[at..], e, next - at);
      EntryShifted(b, at, e, next - at);
    }
  }

  lemma EntryNever(b: Bytes, at: nat, e: Entry)
    requires at <= |b| && ParseEntry(b[at..]).Err?
    ensures forall next: nat :: !EntryAt(b, at, e, next)
  {
    hide ParseEntry, EntryAt;
    forall next: nat
      ensures !EntryAt(b, at, e, next)
    {
      if EntryAt(b, at, e, next) {
        EntryEnds(b, at, e, next);
        EntryIff(b[at..], e, next - at);
        EntryShifted(b, at, e, next - at);
      }
    }
  }

  /** Blocks of eight bytes and as many more as their last four bytes say, up to a shorter rest. */
  ghost predicate Blocks(b: Bytes, at: nat, end: nat, starts: seq<nat>)
    requires end <= |b|
  {
    && starts != [] && starts[0] == at && starts[|starts| - 1] + 8 > end
    && forall i :: 0 <= i < |starts| - 1 ==>
         starts[i] + 8 <= end && starts[i + 1] == starts[i] + 8 + Number(b, starts[i] + 4) <= end
  }

  ghost predicate BlocksTo(b: Bytes, at: nat, end: nat)
    requires end <= |b|
  {
    exists starts :: Blocks(b, at, end, starts)
  }

  lemma BlocksFirst(b: Bytes, at: nat, end: nat)
    requires end <= |b|
    ensures BlocksTo(b, at, end) <==>
              at + 8 > end || (at + 8 + Number(b, at + 4) <= end && BlocksTo(b, at + 8 + Number(b, at + 4), end))
  {
    hide Number, Blocks;
    if at + 8 > end {
      BlocksNone(b, at, end);
    } else {
      NumberIs(b, at + 4);
      var next: nat := at + 8 + Number(b, at + 4);
      if BlocksTo(b, at, end) {
        var starts :| Blocks(b, at, end, starts);
        BlocksTail(b, at, end, starts);
        assert Blocks(b, next, end, starts[1..]);
      }
      if next <= end && BlocksTo(b, next, end) {
        var starts :| Blocks(b, next, end, starts);
        BlocksCons(b, at, end, starts);
        assert Blocks(b, at, end, [at] + starts);
      }
    }
  }

  lemma BlocksNone(b: Bytes, at: nat, end: nat)
    requires end <= |b| && at + 8 > end
    ensures Blocks(b, at, end, [at])
  {
  }

  lemma BlocksTail(b: Bytes, at: nat, end: nat, starts: seq<nat>)
    requires at + 8 <= end <= |b| && Blocks(b, at, end, starts)
    ensures starts != [] && at + 8 + Number(b, at + 4) <= end
    ensures Blocks(b, at + 8 + Number(b, at + 4), end, starts[1..])
  {
    hide Number;
  }

  lemma BlocksCons(b: Bytes, at: nat, end: nat, starts: seq<nat>)
    requires at + 8 <= end <= |b| && 0 <= at + 8 + Number(b, at + 4) <= end
    requires Blocks(b, at + 8 + Number(b, at + 4), end, starts)
    ensures Blocks(b, at, end, [at] + starts)
  {
    hide Number;
    var all := [at] + starts;
    assert all[|all| - 1] == starts[|starts| - 1];
    forall i | 0 <= i < |all| - 1
      ensures all[i] + 8 <= end && all[i + 1] == all[i] + 8 + Number(b, all[i] + 4) <= end
    {
      if i > 0 {
        assert all[i] == starts[i - 1] && all[i + 1] == starts[i];
      }
    }
  }

  lemma {:induction false} ExtensionsIff(b: Bytes, at: nat, end: nat)
    requires at <= end <= |b|
    ensures ExtensionsOk(b[at..end]) <==> BlocksTo(b, at, end)
    decreases end - at
  {
    hide BlocksTo, FromBe32, Number;
    BlocksFirst(b, at, end);
    if at + 8 <= end {
      NumberIs(b, at + 4);
      SliceWithin(b, at, end);
      var next := at + 8 + Number(b, at + 4);
      if next <= end {
        assert b[at..end][next - at..] == b[next..end];
        ExtensionsIff(b, next, end);
      }
    }
  }

  lemma SliceWithin(b: Bytes, at: nat, end: nat)
    requires at + 8 <= end <= |b|
    ensures b[at..end][4..8] == b[at + 4..at + 8]
  {
    var s := b[at..end];
    assert forall k :: 0 <= k < 4 ==> s[4..8][k] == s[4 + k] && s[4 + k] == b[at + (4 + k)];
  }

  // ---------- The file ----------

  /** "DIRC", version 2 or 3, the number of entries, the entries, extensions, and the checksum of all that. */
  ghost predicate IsIndexFile(sha: Bytes -> Bytes, data: Bytes, es: seq<Entry>) {
    && |data| >= 32 && data[..4] == [68, 73, 82, 67] && 2 <= Number(data, 4) <= 3 && Number(data, 8) == |es|
    && data[|data| - 20..] == sha(data[..|data| - 20])
    && exists end: nat :: EntriesAt(data, 12, es, end) && BlocksTo(data, end, |data| - 20)
  }

  /** The reader accepts exactly these files, with these entries. */
  lemma ReadIndexIff(sha: Bytes -> Bytes, data: Bytes, es: seq<Entry>)
    ensures ParseIndex(sha, data) == Ok(es) <==> IsIndexFile(sha, data, es)
  {
    hide ParseEntries, ExtensionsOk, FromBe32, Number, EntriesAt, BlocksTo;
    if |data| >= 32 {
      NumberIs(data, 4);
      NumberIs(data, 8);
      var parsed := ParseEntries(data[12..], FromBe32(data[8..12]));
      if parsed.Ok? {
        var (got, n) := parsed.value;
        FileEntries(data, got, n, es);
        FileExtensions(data, n);
      }
      if FromBe32(data[8..12]) == |es| {
        forall end: nat | EntriesAt(data, 12, es, end)
          ensures parsed == Ok((es, end - 12)) && end >= 12
        {
          EntriesAfter(data, 12, es, end);
          EntriesIff(data, 12, es, end - 12);
        }
      }
    }
  }

  lemma FileEntries(data: Bytes, got: seq<Entry>, n: nat, es: seq<Entry>)
    requires |data| >= 32 && ParseEntries(data[12..], |got|) == Ok((got, n))
    ensures EntriesAt(data, 12, got, 12 + n) && 12 + n <= |data|
  {
    hide ParseEntry, ParseEntries, EntriesAt;
    EntriesIff(data, 12, got, n);
    ParsedWithin(data[12..], |got|);
  }

  lemma ParsedWithin(b: Bytes, count: nat)
    ensures ParseEntries(b, count).Ok? ==> ParseEntries(b, count).value.1 <= |b|
  {
    var r := ParseEntries(b, count);
  }

  lemma FileExtensions(data: Bytes, n: nat)
    requires |data| >= 32 && 12 + n <= |data|
    ensures BlocksTo(data, 12 + n, |data| - 20)
       <==> !(12 + n < |data| - 20 && !ExtensionsOk(data[12 + n..|data| - 20]))
  {
    hide BlocksTo, ExtensionsOk, Number;
    var end := |data| - 20;
    if 12 + n < end {
      ExtensionsIff(data, 12 + n, end);
    } else {
      BlocksFirst(data, 12 + n, end);
    }
  }

  /** What is wrong with the file as a whole is reported in this order. */
  lemma FileErrors(sha: Bytes -> Bytes, data: Bytes)
    ensures |data| < 32 <==> ParseIndex(sha, data) == Err(TooSmall)
    ensures |data| >= 32 && data[|data| - 20..] != sha(data[..|data| - 20])
       <==> ParseIndex(sha, data) == Err(ChecksumMismatch)
    ensures |data| >= 32 && data[|data| - 20..] == sha(data[..|data| - 20]) && data[..4] != [68, 73, 82, 67]
       <==> ParseIndex(sha, data) == Err(BadSignature)
    ensures && |data| >= 32 && data[|data| - 20..] == sha(data[..|data| - 20]) && data[..4] == [68, 73, 82, 67]
            && !(2 <= Number(data, 4) <= 3)
       <==> ParseIndex(sha, data) == Err(BadVersion)
  {
    hide ParseEntries, ExtensionsOk, FromBe32, Number;
    if |data| >= 32 {
      NumberIs(data, 4);
      EntryErrors(data[12..], FromBe32(data[8..12]));
    }
  }

  lemma {:induction false} EntryErrors(b: Bytes, count: nat)
    ensures ParseEntries(b, count).Err? ==> ParseEntries(b, count).error in {UnexpectedEOF, NotTerminated, BadPadding}
    decreases count
  {
    hide ParseEntry;
    if count > 0 {
      OneEntryError(b);
      if ParseEntry(b).Ok? {
        EntryErrors(b[ParseEntry(b).value.1..], count - 1);
      }
    }
  }

  lemma OneEntryError(b: Bytes)
    ensures ParseEntry(b).Err? ==> ParseEntry(b).error in {UnexpectedEOF, NotTerminated, BadPadding}
  {
    hide FirstNul, FromBe16, ReadStat, Extended, StageOf, PadOf;
  }

  // ---------- What is written ----------

  /**
   What the writer puts at `at` for an entry, up to `next`: stat data, hash, flags that hold the stage and
   the length of the path, both cut to their bits, the path, and one to eight NULs up to a multiple of 8.
   */
  ghost predicate WrittenAt(b: Bytes, at: nat, e: Entry, next: nat) {
    && at + 63 + |e.path| <= next <= at + 70 + |e.path| && (next - at) % 8 == 0 && next <= |b|
    && StatAt(b, at, e.stat) && b[at + 40..at + 60] == e.hash
    && 0x100 * (b[at + 60] as int) + b[at + 61] as int
       == 0x1000 * (e.stage % 4) + (if |e.path| < 0xFFF then |e.path| else 0xFFF)
    && b[at + 62..at + 62 + |e.path|] == e.path
    && forall i :: at + 62 + |e.path| <= i < next ==> b[i] == 0
  }

  lemma NumberOf(b: Bytes, at: nat, n: U32)
    requires at + 4 <= |b| && b[at..at + 4] == Be32(n)
    ensures Number(b, at) == n
  {
    hide Be32, FromBe32, Number;
    Be32RoundTrip(n);
    NumberIs(b, at);
  }

  lemma StatWritten(b: Bytes, s: Stat)
    requires |b| >= 40 && b[..40] == StatBytes(s)
    ensures StatAt(b, 0, s)
  {
    hide StatBytes, ReadStat, StatAt;
    StatRoundTrip(s, b[40..]);
    assert b == StatBytes(s) + b[40..];
    StatIs(b, s);
  }

  lemma FlagsWritten(b: Bytes, e: Entry)
    requires |b| >= 62 && b[60..62] == Be16(Flags(e))
    ensures 0x100 * (b[60] as int) + b[61] as int
         == 0x1000 * (e.stage % 4) + (if |e.path| < 0xFFF then |e.path| else 0xFFF)
  {
    hide Flags;
    assert b[60] == b[60..62][0] && b[61] == b[60..62][1];
    var f := Flags(e);
    assert f == 0x1000 * (e.stage % 4) + (if |e.path| < 0xFFF then |e.path| else 0xFFF) by {
      FlagsAdd(e);
    }
    assert FromBe16(b[60..62]) == f;
  }

  lemma FlagsAdd(e: Entry)
    ensures Flags(e) == 0x1000 * (e.stage % 4) + (if |e.path| < 0xFFF then |e.path| else 0xFFF)
  {
  }

  lemma TailZero(e: Entry, tail: Bytes)
    ensures var z := Zeros(Padding(62 + |e.path| + 1));
            var s := e.path + [0] + (z + tail);
            forall i :: |e.path| <= i < |e.path| + 1 + |z| ==> s[i] == 0
  {
  }

  lemma EntryWritten(e: Entry, rest: Bytes)
    requires |e.hash| == 20
    ensures WrittenAt(EntryBytes(e) + rest, 0, e, |EntryBytes(e)|)
  {
    hide StatBytes, Be16, Flags, Zeros, Padding, EntryBytes, StatAt;
    var b := EntryBytes(e) + rest;
    EntryParts(e, rest);
    EntryAligned(e);
    PadShort(62 + |e.path| + 1);
    HeadOf(b, StatBytes(e.stat));
    StatWritten(b, e.stat);
    FlagsWritten(b, e);
    TailZero(e, rest);
    ZerosLong(Padding(62 + |e.path| + 1));
    forall i | 62 + |e.path| <= i < |EntryBytes(e)|
      ensures b[i] == 0
    {
      assert b[i] == b[62..][i - 62];
    }
  }

  lemma HeadOf(b: Bytes, s: Bytes)
    requires |s| == 40 && |b| >= 40 && b == s + b[40..]
    ensures b[..40] == s
  {
  }

  lemma PadShort(size: nat)
    ensures Padding(size) < 8
  {
  }

  lemma ZerosLong(n: nat)
    ensures |Zeros(n)| == n
  {
  }

  lemma WrittenShifted(b: Bytes, at: nat, e: Entry, n: nat)
    requires at <= |b| && WrittenAt(b[at..], 0, e, n)
    ensures WrittenAt(b, at, e, at + n)
  {
    hide Number;
    StatShifted(b, at, e.stat);
    var s := b[at..];
    assert s[40..60] == b[at + 40..at + 60] && s[62..62 + |e.path|] == b[at + 62..at + 62 + |e.path|];
    forall i | at + 62 + |e.path| <= i < at + n
      ensures b[i] == 0
    {
      assert s[i - at] == b[i];
    }
  }

  ghost predicate WrittenEntries(b: Bytes, at: nat, es: seq<Entry>, end: nat, starts: seq<nat>) {
    && |starts| == |es| + 1 && starts[0] == at && starts[|es|] == end
    && forall i :: 0 <= i < |es| ==> WrittenAt(b, starts[i], es[i], starts[i + 1])
  }

  lemma {:induction false} EntriesWritten(b: Bytes, at: nat, es: seq<Entry>, rest: Bytes) returns (starts: seq<nat>)
    requires forall i :: 0 <= i < |es| ==> |es[i].hash| == 20
    requires at <= |b| && b[at..] == EntriesBytes(es) + rest
    ensures WrittenEntries(b, at, es, at + |EntriesBytes(es)|, starts)
    decreases |es|
  {
    hide EntryBytes, WrittenAt, EntriesBytes;
    PrintedAhead(es, rest);
    if es == [] {
      starts := [at];
    } else {
      var next := at + |EntryBytes(es[0])|;
      assert b[at..][|EntryBytes(es[0])|..] == b[next..];
      var others := EntriesWritten(b, next, es[1..], rest);
      EntryWritten(es[0], EntriesBytes(es[1..]) + rest);
      WrittenShifted(b, at, es[0], |EntryBytes(es[0])|);
      starts := [at] + others;
      StartsGrow(b, at, es, starts);
    }
  }

  lemma StartsGrow(b: Bytes, at: nat, es: seq<Entry>, starts: seq<nat>)
    requires es != [] && |starts| == |es| + 1 && starts[0] == at && WrittenAt(b, at, es[0], starts[1])
    requires WrittenEntries(b, starts[1], es[1..], starts[|es|], starts[1..])
    ensures WrittenEntries(b, at, es, starts[|es|], starts)
  {
    hide WrittenAt;
    forall i | 0 <= i < |es|
      ensures WrittenAt(b, starts[i], es[i], starts[i + 1])
    {
      if i > 0 {
        assert starts[1..][i - 1] == starts[i] && es[1..][i - 1] == es[i] && starts[1..][i] == starts[i + 1];
      }
    }
  }

  /** The file that is written, byte by byte: "DIRC", version 2, the count, the entries, the checksum of all that. */
  lemma FileWritten(sha: Bytes -> Bytes, es: seq<Entry>) returns (starts: seq<nat>)
    requires forall x :: |sha(x)| == 20
    requires forall i :: 0 <= i < |es| ==> |es[i].hash| == 20
    ensures var data := IndexBytes(sha, es);
            && |data| >= 32 && data[..8] == [68, 73, 82, 67, 0, 0, 0, 2] && Number(data, 8) == |es| % 0x1_0000_0000
            && WrittenEntries(data, 12, es, |data| - 20, starts)
            && data[|data| - 20..] == sha(data[..|data| - 20])
  {
    hide Body, EntriesBytes, Be32, Number, WrittenEntries;
    var data := IndexBytes(sha, es);
    FileParts(es, sha(Body(es)));
    NumberOf(data, 8, |es| % 0x1_0000_0000);
    VersionTwo();
    assert data[..8] == data[0..4] + data[4..8];
    starts := EntriesWritten(data, 12, es, sha(Body(es)));
  }

  lemma VersionTwo()
    ensures SIGNATURE + Be32(2) == [68, 73, 82, 67, 0, 0, 0, 2]
  {
  }
}
