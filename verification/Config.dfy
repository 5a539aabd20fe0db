/**
 The INI configuration file: how a key is set by editing the lines of the file, how it is read,
 and what the two promise each other.
 */
module Config {
  import opened Wrappers
  import opened Lines
  import opened Strings

  /** A section with its subsection. */
  datatype Place = Place(section: string, subsection: string)

  datatype Key = Key(place: Place, name: string)

  const TOP := Place("", "")

  /** The parts of a dotted key; a key without a section has none. */
  function SplitKey(fullKey: string): Option<Key> {
    var parts := Split(fullKey, '.');
    if |parts| < 2 then None
    else
      var subsection := if |parts| > 2 then Join(parts[1..|parts| - 1], '.') else "";
      Some(Key(Place(parts[0], subsection), parts[|parts| - 1]))
  }

  // ---------- Lines ----------

  function TrimQuotesLeft(s: string): string {
    if s != [] && s[0] == '"' then TrimQuotesLeft(s[1..]) else s
  }

  function TrimQuotes(s: string): string {
    var l := TrimQuotesLeft(s);
    TrimQuotesRight(l)
  }

  function TrimQuotesRight(s: string): string {
    if s != [] && s[|s| - 1] == '"' then TrimQuotesRight(s[..|s| - 1]) else s
  }

  predicate Bracketed(line: string) {
    |line| >= 2 && line[0] == '[' && line[|line| - 1] == ']'
  }

  function ParseSectionHeader(line: string): Option<Place> {
    var t := Trim(line);
    if !Bracketed(t) then None
    else
      match CutAt(t[1..|t| - 1], ' ')
      case Whole => Some(Place(t[1..|t| - 1], ""))
      case Parts(section, rest) => Some(Place(section, TrimQuotes(rest)))
  }

  predicate StartsWith(s: string, c: char) {
    s != [] && s[0] == c
  }

  /** The name before the equals sign, if there is one. */
  function SettingOf(t: string): Option<(string, string)> {
    match CutAt(t, '=')
    case Whole => None
    case Parts(name, value) => Some((Trim(name), Trim(value)))
  }

  /** The test by which the editor recognises the line to replace. */
  predicate IsLineOf(line: string, name: string) {
    var t := Trim(line);
    && !StartsWith(t, '[') && !StartsWith(t, '#') && t != ""
    && SettingOf(t).Some? && SettingOf(t).value.0 == name
  }

  function HeaderLine(p: Place): string {
    if p.subsection == "" then "[" + p.section + "]" else "[" + p.section + " \"" + p.subsection + "\"]"
  }

  function SettingLine(name: string, value: string): string {
    "\t" + name + " = " + value
  }

  // ---------- Reading ----------

  datatype Reading = Found(value: string) | In(place: Place)

  /** What one line means to a reader who looks for `key` and is in section `at`. */
  function ReadOne(text: string, at: Place, key: Key): Reading {
    var t := Trim(text);
    if t == "" || StartsWith(t, '#') || StartsWith(t, ';') then In(at)
    else if ParseSectionHeader(t).Some? then In(ParseSectionHeader(t).value)
    else if at == key.place && SettingOf(t).Some? && SettingOf(t).value.0 == key.name then Found(SettingOf(t).value.1)
    else In(at)
  }

  /** The value of the first setting of `key`; `at` is the section of the first line. */
  function Read(lines: seq<string>, at: Place, key: Key): Option<string> {
    if lines == [] then None
    else
      match ReadOne(lines[0], at, key)
      case Found(v) => Some(v)
      case In(p) => Read(lines[1..], p, key)
  }

  function ReadKey(file: Option<string>, key: Key): Option<string> {
    if file.None? then None else Read(Split(file.value, '\n'), TOP, key)
  }

  method ReadKeyFromPath(file: Option<string>, key: Key) returns (value: Option<string>)
    ensures value == ReadKey(file, key)
  {
    if file.None? {
      return None;
    }
    hide Trim, ParseSectionHeader, SettingOf;
    var current := TOP;
    var lines := Split(file.value, '\n');
    for i := 0 to |lines|
      invariant Read(lines, TOP, key) == Read(lines[i..], current, key)
    {
      assert lines[i..][1..] == lines[i + 1..];
      var t := Trim(lines[i]);
      if t == "" || StartsWith(t, '#') || StartsWith(t, ';') {
        continue;
      }
      var header := ParseSectionHeader(t);
      if header.Some? {
        current := header.value;
        continue;
      }
      if current == key.place {
        var setting := SettingOf(t);
        if setting.Some? && setting.value.0 == key.name {
          return Some(setting.value.1);
        }
      }
    }
    return None;
  }

  /** The local file first, the global one second. */
  method GetConfig(local: Option<string>, global: Option<string>, fullKey: string)
    returns (value: Option<string>, ok: bool)
    ensures ok <==> SplitKey(fullKey).Some?
    ensures !ok ==> value == None
    ensures ok ==> var key := SplitKey(fullKey).value;
                   value == if ReadKey(local, key).Some? then ReadKey(local, key) else ReadKey(global, key)
  {
    var key := SplitKey(fullKey);
    if key.None? {
      return None, false;
    }
    value := ReadKeyFromPath(local, key.value);
    if value.None? {
      value := ReadKeyFromPath(global, key.value);
    }
    ok := true;
  }

  // ---------- Setting ----------

  datatype Edited = Edited(lines: seq<string>, inside: bool, done: bool)

  /** What becomes of one line; `inside`: the section was entered, `done`: the key is in. */
  function EditOne(text: string, key: Key, line: string, inside: bool, done: bool): Edited {
    var header := ParseSectionHeader(text);
    if header.Some? then
      Edited((if inside && !done then [line] else []) + [text], header.value == key.place, done || inside)
    else if inside && !done && IsLineOf(text, key.name) then Edited([line], inside, true)
    else Edited([text], inside, done)
  }

  /** The lines with `line` put in for the key. */
  function Rewrite(lines: seq<string>, key: Key, line: string, inside: bool, done: bool): seq<string> {
    if lines == [] then if inside && !done then [line] else []
    else
      var e := EditOne(lines[0], key, line, inside, done);
      e.lines + Rewrite(lines[1..], key, line, e.inside, e.done)
  }

  /** Some line opens the section. */
  predicate Seen(lines: seq<string>, p: Place) {
    lines != [] && (ParseSectionHeader(lines[0]) == Some(p) || Seen(lines[1..], p))
  }

  function EndLine(lines: seq<string>): seq<string> {
    if lines != [] && lines[|lines| - 1] != "" then lines + [""] else lines
  }

  function LinesOf(text: string): seq<string> {
    if text == "" then [] else Split(text, '\n')
  }

  /** The lines of the file once the key is set. */
  function SetLines(lines: seq<string>, key: Key, value: string): seq<string> {
    var line := SettingLine(key.name, value);
    var out := Rewrite(lines, key, line, false, false);
    EndLine(if Seen(lines, key.place) then out else EndLine(out) + [HeaderLine(key.place), line])
  }

  function SetText(text: string, key: Key, value: string): string {
    Join(SetLines(LinesOf(text), key, value), '\n')
  }

  lemma OneEmptyLine(text: string)
    ensures |Split(text, '\n')| == 1 && Split(text, '\n')[0] == "" <==> text == ""
  {
    JoinSplit(text, '\n');
  }

  lemma RewriteNext(out: seq<string>, lines: seq<string>, i: nat, key: Key, line: string, inside: bool, done: bool)
    requires i < |lines|
    ensures var e := EditOne(lines[i], key, line, inside, done);
            out + Rewrite(lines[i..], key, line, inside, done)
              == out + e.lines + Rewrite(lines[i + 1..], key, line, e.inside, e.done)
  {
    hide EditOne;
    assert lines[i..][1..] == lines[i + 1..];
  }

  lemma SeenNext(lines: seq<string>, i: nat, p: Place)
    requires i < |lines|
    ensures Seen(lines[i..], p) <==> ParseSectionHeader(lines[i]) == Some(p) || Seen(lines[i + 1..], p)
  {
    hide ParseSectionHeader;
    assert lines[i..][1..] == lines[i + 1..];
  }

  lemma LoopStart(lines: seq<string>)
    ensures lines[0..] == lines && [] + lines == lines
  {
  }

  lemma LoopEnd(lines: seq<string>, key: Key, line: string, inside: bool, done: bool)
    ensures Rewrite(lines[|lines|..], key, line, inside, done) == if inside && !done then [line] else []
    ensures !Seen(lines[|lines|..], key.place)
  {
  }

  /** The body of the loop over the lines. */
  method EditLine(text: string, key: Key, value: string, inTargetSection: bool, keyFound: bool) returns (e: Edited)
    ensures e == EditOne(text, key, SettingLine(key.name, value), inTargetSection, keyFound)
  {
    hide ParseSectionHeader, IsLineOf, SettingLine;
    e := Edited([], inTargetSection, keyFound);
    var header := ParseSectionHeader(text);
    if header.Some? {
      if e.inside && !e.done {
        e := e.(lines := [SettingLine(key.name, value)], done := true);
      }
      e := e.(inside := header.value == key.place);
    }
    if header.None? && e.inside && !e.done && IsLineOf(text, key.name) {
      return e.(lines := [SettingLine(key.name, value)], done := true);
    }
    e := e.(lines := e.lines + [text]);
  }

  lemma EnteredSeen(text: string, key: Key, line: string, inside: bool, done: bool)
    ensures ParseSectionHeader(text) == Some(key.place) ==> EditOne(text, key, line, inside, done).inside
    ensures EditOne(text, key, line, inside, done).inside ==> inside || ParseSectionHeader(text) == Some(key.place)
  {
  }

  /** What is appended after the loop. */
  method AppendMissing(lines: seq<string>, key: Key, value: string, keyMissing: bool, sectionFound: bool)
    returns (out: seq<string>)
    ensures var line := SettingLine(key.name, value);
            out == EndLine(if keyMissing then lines + [line]
                           else if sectionFound then lines
                           else EndLine(lines) + [HeaderLine(key.place), line])
  {
    hide SettingLine, HeaderLine;
    out := lines;
    if keyMissing {
      out := out + [SettingLine(key.name, value)];
    } else if !sectionFound {
      if |out| > 0 && out[|out| - 1] != "" {
        out := out + [""];
      }
      out := out + [HeaderLine(key.place)];
      out := out + [SettingLine(key.name, value)];
    }
    if |out| > 0 && out[|out| - 1] != "" {
      out := out + [""];
    }
  }

  /** The loop over the lines. */
  method EditLines(lines: seq<string>, key: Key, value: string) returns (out: seq<string>)
    ensures out == SetLines(lines, key, value)
  {
    hide ParseSectionHeader, EditOne, SettingLine, HeaderLine, Rewrite, Seen, EndLine;
    LoopStart(lines);
    out := [];
    var inTargetSection := false;
    var keyFound := false;
    var sectionFound := false;
    ghost var line := SettingLine(key.name, value);
    for i := 0 to |lines|
      invariant out + Rewrite(lines[i..], key, line, inTargetSection, keyFound)
           == Rewrite(lines, key, line, false, false)
      invariant Seen(lines, key.place) <==> sectionFound || Seen(lines[i..], key.place)
      invariant inTargetSection ==> sectionFound
    {
      RewriteNext(out, lines, i, key, line, inTargetSection, keyFound);
      SeenNext(lines, i, key.place);
      EnteredSeen(lines[i], key, line, inTargetSection, keyFound);
      var e := EditLine(lines[i], key, value, inTargetSection, keyFound);
      out := out + e.lines;
      inTargetSection, keyFound := e.inside, e.done;
      sectionFound := sectionFound || inTargetSection;
    }
    LoopEnd(lines, key, line, inTargetSection, keyFound);
    assert out + [] == out;
    out := AppendMissing(out, key, value, inTargetSection && !keyFound, sectionFound);
  }

  /** A configuration file; `None` when there is no file. */
  class ConfigFile {
    var file: Option<string>

    method SetConfig(fullKey: string, value: string) returns (ok: bool)
      modifies this
      ensures ok <==> SplitKey(fullKey).Some?
      ensures !ok ==> file == old(file)
      ensures ok ==>
                file == Some(SetText(if old(file).None? then "" else old(file).value, SplitKey(fullKey).value, value))
    {
      hide SplitKey, Join, Split, SetLines;
      var key := SplitKey(fullKey);
      if key.None? {
        return false;
      }
      var data := if file.None? then "" else file.value;
      var lines := Split(data, '\n');
      OneEmptyLine(data);
      if |lines| == 1 && lines[0] == "" {
        lines := [];
      }
      var out := EditLines(lines, key.value, value);
      file := Some(Join(out, '\n'));
      return true;
    }
  }
}
