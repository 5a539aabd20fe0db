/**
 Configuration files, spelled out: what each kind of line means, whoever wrote it, which line a
 key is read from, and where the line of a key is written.
 */
module ConfigLayout {
  import opened Wrappers
  import opened Lines
  import opened Strings
  import opened Config
  import opened ConfigLaws

  // ---------- Kinds of lines ----------

  /** `name=value` with any white space around the two. */
  lemma SettingReads(line: string, a: string, name: string, b: string, c: string, value: string, d: string)
    requires line == a + name + b + "=" + c + value + d
    requires AllSpace(a) && AllSpace(b) && AllSpace(c) && AllSpace(d)
    requires IsTrimmed(name) && '=' !in name && IsTrimmed(value)
    ensures SettingOf(Trim(line)) == Some((name, value))
  {
    hide IsSpace, CutAt, Trim;
    var front, back := a + name + b, c + value + d;
    assert line == front + "=" + back;
    SpacesHold(a);
    SpacesHold(b);
    TrimMeans(front, a, name, b);
    TrimMeans(back, c, value, d);
    SettingParts(front, back);
  }

  lemma SettingParts(front: string, back: string)
    requires '=' !in front
    ensures SettingOf(Trim(front + "=" + back)) == Some((Trim(front), Trim(back)))
  {
    hide IsSpace, CutAt, TrimLeft, TrimRight;
    var left := LeftSpaces(front);
    var right := RightSpaces(back);
    var front', back' := TrimLeft(front), TrimRight(back);
    var t := front' + "=" + back';
    assert front + "=" + back == left + t + right;
    EqualsIsTrimmed(front', back');
    TrimMeans(front + "=" + back, left, t, right);
    assert t == front' + ['='] + back';
    CutFirst(front', '=', back');
    LeftFirst(front, left);
    TrimAfterTrimRight(back);
  }

  /** White space on the left is taken off again. */
  lemma LeftFirst(s: string, left: string)
    requires s == left + TrimLeft(s) && AllSpace(left)
    ensures Trim(TrimLeft(s)) == Trim(s)
  {
    hide IsSpace, TrimLeft, TrimRight;
    var rest := TrimLeft(s);
    var l, r := TrimParts(rest);
    assert s == (left + l) + Trim(rest) + r;
    TrimMeans(s, left + l, Trim(rest), r);
  }

  lemma SpacesHold(s: string)
    requires AllSpace(s)
    ensures '=' !in s
  {
  }

  lemma EqualsIsTrimmed(front: string, back: string)
    requires front != "" ==> !IsSpace(front[0])
    requires back != "" ==> !IsSpace(back[|back| - 1])
    ensures IsTrimmed(front + "=" + back)
  {
    var t := front + "=" + back;
    assert t[0] == if front == "" then '=' else front[0];
    assert t[|t| - 1] == if back == "" then '=' else back[|back| - 1];
  }

  lemma NoSetting(line: string)
    requires '=' !in line
    ensures SettingOf(Trim(line)) == None
  {
    hide Trim, CutAt;
    if '=' in Trim(line) {
      TrimWithin(line, '=');
    }
  }

  ghost predicate AllQuotes(s: string) {
    forall i :: 0 <= i < |s| ==> s[i] == '"'
  }

  /** `[section]` and `[section "subsection"]`, with any white space around them and any number of quotes. */
  lemma HeaderReads(line: string, a: string, section: string, q: string, subsection: string, q': string, b: string)
    requires AllSpace(a) && AllSpace(b) && ' ' !in section
    requires AllQuotes(q) && AllQuotes(q') && !QuoteEnds(subsection)
    ensures line == a + ("[" + section + "]") + b ==> ParseSectionHeader(line) == Some(Place(section, ""))
    ensures line == a + ("[" + section + " " + q + subsection + q' + "]") + b ==>
              ParseSectionHeader(line) == Some(Place(section, subsection))
  {
    hide Trim, CutAt, TrimQuotes, ParseSectionHeader;
    if line == a + ("[" + section + "]") + b {
      BracketsTrimmed(section);
      TrimMeans(line, a, "[" + section + "]", b);
      HeaderTrimmed(line);
      BracketsRead(section);
    }
    if line == a + ("[" + section + " " + q + subsection + q' + "]") + b {
      var content := section + [' '] + (q + subsection + q');
      assert "[" + section + " " + q + subsection + q' + "]" == "[" + content + "]";
      BracketsTrimmed(content);
      TrimMeans(line, a, "[" + content + "]", b);
      HeaderTrimmed(line);
      BracketsRead(content);
      CutFirst(section, ' ', q + subsection + q');
      QuotesOff(q, subsection, q');
    }
  }

  lemma BracketsTrimmed(content: string)
    ensures IsTrimmed("[" + content + "]")
  {
  }

  lemma HeaderTrimmed(line: string)
    ensures ParseSectionHeader(line) == ParseSectionHeader(Trim(line))
  {
    hide TrimLeft, TrimRight, CutAt;
  }

  lemma {:induction false} QuotesOffLeft(q: string, s: string)
    requires AllQuotes(q) && (s != "" ==> s[0] != '"')
    ensures TrimQuotesLeft(q + s) == s
    decreases |q|
  {
    if q == "" {
      assert q + s == s;
    } else {
      assert (q + s)[1..] == q[1..] + s;
      QuotesOffLeft(q[1..], s);
    }
  }

  lemma {:induction false} QuotesOffRight(s: string, q: string)
    requires AllQuotes(q) && (s != "" ==> s[|s| - 1] != '"')
    ensures TrimQuotesRight(s + q) == s
    decreases |q|
  {
    if q == "" {
      assert s + q == s;
    } else {
      assert (s + q)[..|s + q| - 1] == s + q[..|q| - 1];
      QuotesOffRight(s, q[..|q| - 1]);
    }
  }

  lemma QuotesOff(q: string, s: string, q': string)
    requires AllQuotes(q) && AllQuotes(q') && !QuoteEnds(s)
    ensures TrimQuotes(q + s + q') == s
  {
    if s == "" {
      assert q + s + q' == q + q' && AllQuotes(q + q') && q + q' == (q + q') + "";
      QuotesOffLeft(q + q', "");
    } else {
      assert q + s + q' == q + (s + q');
      QuotesOffLeft(q, s + q');
      QuotesOffRight(s, q');
    }
  }

  /** Only a line in brackets is a header. */
  lemma NoHeader(line: string)
    requires Trim(line) == "" || Trim(line)[0] != '[' || Trim(line)[|Trim(line)| - 1] != ']'
    ensures ParseSectionHeader(line) == None
  {
    hide Trim;
  }

  lemma KeyIs(fullKey: string, section: string, subsection: string, name: string)
    requires '.' !in section && '.' !in name
    ensures fullKey == section + "." + name ==> SplitKey(fullKey) == Some(Key(Place(section, ""), name))
    ensures fullKey == section + "." + subsection + "." + name ==>
              SplitKey(fullKey) == Some(Key(Place(section, subsection), name))
  {
    hide Join, Split;
    if fullKey == section + "." + name {
      SplitKeyName(Key(Place(section, ""), name));
      assert section + "." + name == section + ['.'] + name;
    }
    if fullKey == section + "." + subsection + "." + name {
      var rest := subsection + ['.'] + name;
      SplitWhole(name, '.');
      SplitConcat(subsection, '.', name);
      SplitFirst(section, rest, '.');
      var parts := [section] + (Split(subsection, '.') + [name]);
      assert fullKey == section + ['.'] + rest && parts[1..|parts| - 1] == Split(subsection, '.');
      JoinSplit(subsection, '.');
    }
  }

  // ---------- Which line is read ----------

  /** The last header before line `i` opens the section; before any header this is the one without a name. */
  ghost predicate Under(lines: seq<string>, i: nat, p: Place)
    requires i <= |lines|
  {
    || (p == Place("", "") && forall k :: 0 <= k < i ==> ParseSectionHeader(lines[k]).None?)
    || exists h :: Opens(lines, h, i, p)
  }

  ghost predicate Opens(lines: seq<string>, h: int, i: nat, p: Place)
    requires i <= |lines|
  {
    && 0 <= h < i && ParseSectionHeader(lines[h]) == Some(p)
    && forall k :: h < k < i ==> ParseSectionHeader(lines[k]).None?
  }

  /** Line `i` is a setting of the key: no header, no comment, and in its section. */
  ghost predicate Gives(lines: seq<string>, i: nat, key: Key, value: string) {
    && i < |lines| && Under(lines, i, key.place) && ParseSectionHeader(lines[i]).None?
    && var t := Trim(lines[i]); t != "" && t[0] != '#' && t[0] != ';' && SettingOf(t) == Some((key.name, value))
  }

  /** It is the first one from line `from` on. */
  ghost predicate GivesFirst(lines: seq<string>, from: nat, i: nat, key: Key, value: string) {
    && from <= i && Gives(lines, i, key, value)
    && forall k: nat, v :: from <= k < i ==> !Gives(lines, k, key, v)
  }

  ghost predicate Given(lines: seq<string>, key: Key, value: string) {
    exists i: nat :: GivesFirst(lines, 0, i, key, value)
  }

  /** A file has the value of the first line that is a setting of the key. */
  lemma ReadIff(text: string, key: Key, value: string)
    ensures ReadKey(Some(text), key) == Some(value) <==> Given(Split(text, '\n'), key, value)
  {
    hide Gives, Read, Split;
    var lines := Split(text, '\n');
    assert lines[0..] == lines;
    TopFirst(lines);
    ReadFrom(lines, 0, TOP, key);
    if Given(lines, key, value) {
      var i: nat :| GivesFirst(lines, 0, i, key, value);
      FirstIsRead(lines, i, key, value);
    }
    if ReadKey(Some(text), key) == Some(value) {
      assert Read(lines[0..], TOP, key) == Some(value);
      var k: nat :| GivesFirst(lines, 0, k, key, value);
    }
  }

  lemma FirstIsRead(lines: seq<string>, i: nat, key: Key, value: string)
    requires GivesFirst(lines, 0, i, key, value)
    ensures Read(lines, TOP, key) == Some(value)
  {
    hide Gives, Read;
    assert lines[0..] == lines;
    TopFirst(lines);
    ReadFrom(lines, 0, TOP, key);
    var read := Read(lines, TOP, key);
    assert Gives(lines, i, key, value);
    var j: nat :| GivesFirst(lines, 0, j, key, read.value);
    OneValue(lines, i, key, value, read.value);
  }

  lemma TopFirst(lines: seq<string>)
    ensures Under(lines, 0, TOP)
  {
  }

  lemma OneValue(lines: seq<string>, i: nat, key: Key, v: string, v': string)
    requires Gives(lines, i, key, v) && Gives(lines, i, key, v')
    ensures v == v'
  {
    hide Under, SettingOf, Trim;
  }

  lemma {:induction false} ReadFrom(lines: seq<string>, i: nat, at: Place, key: Key)
    requires i <= |lines| && Under(lines, i, at)
    ensures Read(lines[i..], at, key).None? ==> forall k: nat, v :: i <= k ==> !Gives(lines, k, key, v)
    ensures Read(lines[i..], at, key).Some? ==>
              exists k: nat :: GivesFirst(lines, i, k, key, Read(lines[i..], at, key).value)
    decreases |lines| - i
  {
    hide Gives, Under, ReadOne, ParseSectionHeader;
    if i < |lines| {
      LineReads(lines, i, at, key);
      assert lines[i..][1..] == lines[i + 1..];
      match ReadOne(lines[i], at, key)
      case Found(v) =>
        assert Read(lines[i..], at, key) == Some(v);
        assert GivesFirst(lines, i, i, key, v);
      case In(p) =>
        ReadFrom(lines, i + 1, p, key);
        assert Read(lines[i..], at, key) == Read(lines[i + 1..], p, key);
        if Read(lines[i + 1..], p, key).Some? {
          var v := Read(lines[i + 1..], p, key).value;
          var k: nat :| GivesFirst(lines, i + 1, k, key, v);
          assert GivesFirst(lines, i, k, key, v);
        }
    } else {
      NothingGiven(lines, key);
    }
  }

  lemma NothingGiven(lines: seq<string>, key: Key)
    ensures forall k: nat, v :: |lines| <= k ==> !Gives(lines, k, key, v)
  {
  }

  lemma LineReads(lines: seq<string>, i: nat, at: Place, key: Key)
    requires i < |lines| && Under(lines, i, at)
    ensures match ReadOne(lines[i], at, key)
            case Found(v) => Gives(lines, i, key, v)
            case In(p) => Under(lines, i + 1, p) && forall v :: !Gives(lines, i, key, v)
  {
    hide SettingOf, Trim, Under, ParseSectionHeader;
    HeaderOfTrimmed(lines[i]);
    UnderNext(lines, i, at);
    forall p | Under(lines, i, p)
      ensures p == at
    {
      UnderOne(lines, i, p, at);
    }
    SilentIsNoHeader(lines[i]);
  }

  lemma SilentIsNoHeader(line: string)
    ensures Trim(line) == "" || Trim(line)[0] == '#' || Trim(line)[0] == ';' ==> ParseSectionHeader(line).None?
  {
    hide Trim;
  }

  lemma UnderNext(lines: seq<string>, i: nat, at: Place)
    requires i < |lines| && Under(lines, i, at)
    ensures Under(lines, i + 1,
                  if ParseSectionHeader(lines[i]).Some? then ParseSectionHeader(lines[i]).value else at)
  {
    hide ParseSectionHeader;
    if ParseSectionHeader(lines[i]).Some? {
      assert Opens(lines, i, i + 1, ParseSectionHeader(lines[i]).value);
    } else if h :| Opens(lines, h, i, at) {
      assert Opens(lines, h, i + 1, at);
    }
  }

  lemma UnderOne(lines: seq<string>, i: nat, p: Place, p': Place)
    requires i <= |lines| && Under(lines, i, p) && Under(lines, i, p')
    ensures p == p'
  {
    hide ParseSectionHeader;
  }

  // ---------- Where a line is written ----------

  /** The first section of the place: its header is line `h`, and line `e` is behind it. */
  ghost predicate FirstSection(lines: seq<string>, p: Place, h: nat, e: nat) {
    && h < e <= |lines| && ParseSectionHeader(lines[h]) == Some(p)
    && (forall k :: 0 <= k < h ==> ParseSectionHeader(lines[k]) != Some(p))
    && (forall k :: h < k < e ==> ParseSectionHeader(lines[k]).None?)
    && (e < |lines| ==> ParseSectionHeader(lines[e]).Some?)
  }

  /** What the editor takes for a line of the name: lines that begin with `;` are not left out. */
  ghost predicate Names(line: string, name: string) {
    var t := Trim(line);
    t != "" && t[0] != '[' && t[0] != '#' && SettingOf(t).Some? && SettingOf(t).value.0 == name
  }

  function EndedLines(lines: seq<string>): seq<string> {
    if lines == [] || lines[|lines| - 1] == "" then lines else lines + [""]
  }

  /**
   A value is written over the first line of the name in the first section of the place, or behind
   that section if there is none, or in a new section at the end.  Nothing else is written but an
   empty line at the end.
   */
  lemma SetWritten(lines: seq<string>, key: Key, value: string)
    ensures var line := "\t" + key.name + " = " + value;
            && (forall h: nat, e: nat, i: nat ::
                  && FirstSection(lines, key.place, h, e) && h < i < e && Names(lines[i], key.name)
                  && (forall k :: h < k < i ==> !Names(lines[k], key.name)) ==>
                    SetLines(lines, key, value) == EndedLines(lines[..i] + [line] + lines[i + 1..]))
            && (forall h: nat, e: nat ::
                  && FirstSection(lines, key.place, h, e) && (forall k :: h < k < e ==> !Names(lines[k], key.name)) ==>
                    SetLines(lines, key, value) == EndedLines(lines[..e] + [line] + lines[e..]))
            && ((forall k :: 0 <= k < |lines| ==> ParseSectionHeader(lines[k]) != Some(key.place)) ==>
                  SetLines(lines, key, value)
                  == EndedLines(lines)
                     + [if key.place.subsection == "" then "[" + key.place.section + "]"
                        else "[" + key.place.section + " \"" + key.place.subsection + "\"]", line, ""])
  {
    hide ParseSectionHeader, Names, FindSpot, SetLines, SettingLine, EndedLines;
    forall h: nat, e: nat, i: nat | FirstSection(lines, key.place, h, e) && h < i < e && Names(lines[i], key.name)
                                    && forall k :: h < k < i ==> !Names(lines[k], key.name)
      ensures SetLines(lines, key, value) == EndedLines(lines[..i] + [SettingLine(key.name, value)] + lines[i + 1..])
    {
      SpotIs(lines, key, h, e, i, true);
      SetAt(lines, key, value, i, true);
    }
    forall h: nat, e: nat | FirstSection(lines, key.place, h, e) && forall k :: h < k < e ==> !Names(lines[k], key.name)
      ensures SetLines(lines, key, value) == EndedLines(lines[..e] + [SettingLine(key.name, value)] + lines[e..])
    {
      SpotIs(lines, key, h, e, e, false);
      SetAt(lines, key, value, e, false);
    }
    if forall k :: 0 <= k < |lines| ==> ParseSectionHeader(lines[k]) != Some(key.place) {
      NoSpot(lines, key);
      SetAtEnd(lines, key, value);
    }
    LineIs(key.name, value);
  }

  lemma LineIs(name: string, value: string)
    ensures SettingLine(name, value) == "\t" + name + " = " + value
  {
  }

  lemma SetAt(lines: seq<string>, key: Key, value: string, i: nat, instead: bool)
    requires FindSpot(lines, key, false) == Some(Spot(i, instead)) && i <= |lines| && (instead ==> i < |lines|)
    ensures SetLines(lines, key, value)
         == EndedLines(lines[..i] + [SettingLine(key.name, value)] + (if instead then lines[i + 1..] else lines[i..]))
  {
    hide FindSpot, SetLines, EndedLines;
    SetShape(lines, key, value);
    PutEnded(lines[..i], SettingLine(key.name, value), if instead then lines[i + 1..] else lines[i..]);
  }

  lemma SetAtEnd(lines: seq<string>, key: Key, value: string)
    requires FindSpot(lines, key, false).None?
    ensures SetLines(lines, key, value)
         == EndedLines(lines)
            + [if key.place.subsection == "" then "[" + key.place.section + "]"
               else "[" + key.place.section + " \"" + key.place.subsection + "\"]",
               SettingLine(key.name, value), ""]
  {
    hide FindSpot, SetLines, SettingLine;
    SetShape(lines, key, value);
  }

  lemma PutEnded(before: seq<string>, line: string, rest: seq<string>)
    requires line != ""
    ensures before + [line] + EndRest(rest) == EndedLines(before + [line] + rest)
  {
    EndAfterLine(before, line, rest);
  }

  lemma NamesIs(line: string, key: Key)
    requires ParseSectionHeader(line).None?
    ensures KeyLine(line, key) <==> Names(line, key.name)
  {
    hide Trim, SettingOf;
  }

  lemma {:induction false} NoSpot(lines: seq<string>, key: Key)
    requires forall k :: 0 <= k < |lines| ==> ParseSectionHeader(lines[k]) != Some(key.place)
    ensures FindSpot(lines, key, false).None?
  {
    hide ParseSectionHeader, KeyLine;
    if lines != [] {
      NoSpot(lines[1..], key);
    }
  }

  lemma {:induction false} SpotIs(lines: seq<string>, key: Key, h: nat, e: nat, i: nat, instead: bool)
    requires FirstSection(lines, key.place, h, e) && h < i && (if instead then i < e else i == e)
    requires (forall k :: h < k < i ==> !Names(lines[k], key.name)) && (instead ==> Names(lines[i], key.name))
    ensures FindSpot(lines, key, false) == Some(Spot(i, instead))
    decreases h
  {
    hide ParseSectionHeader, KeyLine, Names;
    if h == 0 {
      assert forall k :: 0 <= k < |lines| - 1 ==> lines[1..][k] == lines[k + 1];
      SpotInSection(lines[1..], key, i - 1, instead);
    } else {
      assert forall k :: 0 <= k < |lines| - 1 ==> lines[1..][k] == lines[k + 1];
      SpotIs(lines[1..], key, h - 1, e - 1, i - 1, instead);
    }
  }

  lemma {:induction false} SpotInSection(lines: seq<string>, key: Key, i: nat, instead: bool)
    requires i <= |lines| && (forall k :: 0 <= k < i ==> ParseSectionHeader(lines[k]).None?)
    requires forall k :: 0 <= k < i ==> !Names(lines[k], key.name)
    requires if instead then i < |lines| && ParseSectionHeader(lines[i]).None? && Names(lines[i], key.name)
             else i < |lines| ==> ParseSectionHeader(lines[i]).Some?
    ensures FindSpot(lines, key, true) == Some(Spot(i, instead))
    decreases i
  {
    hide ParseSectionHeader, KeyLine, Names;
    if lines != [] && ParseSectionHeader(lines[0]).None? {
      NamesIs(lines[0], key);
    }
    if i > 0 {
      SpotInSection(lines[1..], key, i - 1, instead);
    }
  }

  /** The lines that are edited are those of the file, but none where there was no file or an empty one. */
  lemma EditedLines(text: string, key: Key, value: string)
    ensures SetText(text, key, value) == Join(SetLines(if text == "" then [] else Split(text, '\n'), key, value), '\n')
  {
    hide SetLines, Join, Split;
  }

  /** The file that is written there. */
  lemma NewFile(key: Key, value: string)
    ensures SetText("", key, value)
         == (if key.place.subsection == "" then "[" + key.place.section + "]"
             else "[" + key.place.section + " \"" + key.place.subsection + "\"]")
            + "\n" + "\t" + key.name + " = " + value + "\n"
  {
    hide SetLines, Join;
    SetWritten([], key, value);
    var header := if key.place.subsection == "" then "[" + key.place.section + "]"
                  else "[" + key.place.section + " \"" + key.place.subsection + "\"]";
    var line := "\t" + key.name + " = " + value;
    assert [] + [header, line, ""] == [header, line, ""];
    JoinThree(header, line);
  }

  lemma JoinThree(a: string, b: string)
    ensures Join([a, b, ""], '\n') == a + "\n" + b + "\n"
  {
    assert [a, b, ""][1..] == [b, ""] && [b, ""][1..] == [""];
    assert Join([""], '\n') == "" && Join([b, ""], '\n') == b + ['\n'] + "";
  }
}
