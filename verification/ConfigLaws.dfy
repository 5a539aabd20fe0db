/**
 The laws of getting and setting: `SetConfig` puts one line at a place that does not depend on
 the value, so a key reads as it was set, other keys read as before, and the last set counts.
 */
module ConfigLaws {
  import opened Wrappers
  import opened Lines
  import opened Strings
  import opened Config

  // ---------- Which keys can be stored ----------

  predicate QuoteEnds(s: string) {
    s != "" && (s[0] == '"' || s[|s| - 1] == '"')
  }

  predicate PlaceOk(p: Place) {
    && p != TOP && ' ' !in p.section && '\n' !in p.section
    && '\n' !in p.subsection && !QuoteEnds(p.subsection)
  }

  predicate NameOk(name: string) {
    && IsTrimmed(name) && '=' !in name && '\n' !in name
    && !StartsWith(name, '#') && !StartsWith(name, ';') && !StartsWith(name, '[')
  }

  /** The header and the setting line for the key mean what they say. */
  predicate WellFormed(key: Key) {
    PlaceOk(key.place) && NameOk(key.name)
  }

  lemma TrimTab(s: string)
    ensures Trim("\t" + s) == Trim(s)
  {
    TrimAfterSpace('\t', s);
  }

  lemma TrimSpaceLeft(s: string)
    ensures Trim(" " + s) == Trim(s)
  {
    TrimAfterSpace(' ', s);
  }

  lemma TrimSpaceRight(s: string)
    requires IsTrimmed(s)
    ensures Trim(s + " ") == s
  {
    TrimRightBeforeSpace(s, ' ');
    TrimAfterTrimRight(s + " ");
    TrimAfterTrimRight(s);
  }

  function BeforeEquals(name: string): string {
    if name == "" then "" else name + " "
  }

  lemma SettingLineParts(name: string, value: string)
    ensures SettingLine(name, value) == if name == "" then "\t" + (" " + (['='] + (" " + value)))
                                        else "\t" + ((BeforeEquals(name) + ['=']) + (" " + value))
  {
  }

  /** The trimmed setting line: what stands before the equals sign, and what after. */
  lemma SettingLineTrimmed(name: string, value: string)
    requires NameOk(name)
    ensures Trim(SettingLine(name, value)) == BeforeEquals(name) + ['='] + TrimRight(" " + value)
  {
    hide SettingLine, Trim, TrimRight;
    SettingLineParts(name, value);
    if name == "" {
      TrimTab(" " + (['='] + (" " + value)));
      TrimSpaceLeft(['='] + (" " + value));
      TrimFrom(['='], " " + value);
    } else {
      TrimTab((BeforeEquals(name) + ['=']) + (" " + value));
      TrimFrom(BeforeEquals(name) + ['='], " " + value);
    }
  }

  lemma SettingLineReads(name: string, value: string)
    requires NameOk(name)
    ensures var t := Trim(SettingLine(name, value));
            && t != "" && !StartsWith(t, '[') && !StartsWith(t, '#') && !StartsWith(t, ';')
            && SettingOf(t) == Some((name, Trim(value)))
  {
    hide SettingLine, Trim, TrimRight, CutAt;
    SettingLineTrimmed(name, value);
    CutFirst(BeforeEquals(name), '=', TrimRight(" " + value));
    TrimSpaceRight(name);
    TrimEmpty();
    TrimAfterTrimRight(" " + value);
    TrimSpaceLeft(value);
  }

  lemma TrimEmpty()
    ensures Trim("") == ""
  {
  }

  lemma QuotesTrimmed(s: string)
    requires !QuoteEnds(s) && s != ""
    ensures TrimQuotes("\"" + s + "\"") == s
  {
    var quoted := "\"" + s + "\"";
    assert quoted[1..] == s + "\"";
    assert TrimQuotesLeft(s + "\"") == s + "\"";
    assert (s + "\"")[..|s|] == s;
    assert TrimQuotesRight(s) == s;
  }

  lemma BracketsRead(content: string)
    ensures ParseSectionHeader("[" + content + "]")
         == match CutAt(content, ' ')
            case Whole => Some(Place(content, ""))
            case Parts(section, rest) => Some(Place(section, TrimQuotes(rest)))
  {
    hide CutAt, TrimQuotes;
    var line := "[" + content + "]";
    assert IsTrimmed(line) && line[1..|line| - 1] == content;
  }

  lemma HeaderLineParts(p: Place)
    ensures HeaderLine(p)
         == "[" + (if p.subsection == "" then p.section else p.section + [' '] + ("\"" + p.subsection + "\"")) + "]"
  {
  }

  lemma HeaderLineReads(p: Place)
    requires PlaceOk(p)
    ensures ParseSectionHeader(HeaderLine(p)) == Some(p)
  {
    hide ParseSectionHeader, HeaderLine, CutAt, TrimQuotes;
    HeaderLineParts(p);
    if p.subsection == "" {
      BracketsRead(p.section);
    } else {
      var quoted := "\"" + p.subsection + "\"";
      BracketsRead(p.section + [' '] + quoted);
      CutFirst(p.section, ' ', quoted);
      QuotesTrimmed(p.subsection);
    }
  }

  // ---------- What reader and editor make of a line ----------

  /** The editor's line for the key: no header, and recognised. */
  predicate KeyLine(text: string, key: Key) {
    ParseSectionHeader(text).None? && IsLineOf(text, key.name)
  }

  lemma BracketedStarts(text: string)
    requires ParseSectionHeader(text).Some?
    ensures StartsWith(Trim(text), '[')
  {
  }

  lemma HeaderOfTrimmed(text: string)
    ensures ParseSectionHeader(Trim(text)) == ParseSectionHeader(text)
  {
    hide Trim, CutAt, TrimQuotes;
    TrimTwice(text);
  }

  lemma TrimTwice(text: string)
    ensures Trim(Trim(text)) == Trim(text)
  {
    hide TrimLeft, TrimRight;
    var t := Trim(text);
    assert IsTrimmed(t);
  }

  lemma SettingOfStart(t: string, c: char)
    requires StartsWith(t, c) && SettingOf(t).Some? && !IsSpace(c) && c != '='
    ensures StartsWith(SettingOf(t).value.0, c)
  {
    var cut := CutAt(t, '=');
    assert cut.before != [] && cut.before[0] == c;
    assert TrimLeft(cut.before) == cut.before && cut.before == [c] + cut.before[1..];
    TrimRightAfter([c], cut.before[1..]);
  }

  lemma KeyLineWritten(key: Key, value: string)
    requires WellFormed(key)
    ensures KeyLine(SettingLine(key.name, value), key)
    ensures ReadOne(SettingLine(key.name, value), key.place, key) == Found(Trim(value))
  {
    hide SettingLine, SettingOf, Trim;
    var text := SettingLine(key.name, value);
    SettingLineReads(key.name, value);
    if ParseSectionHeader(text).Some? {
      BracketedStarts(text);
    }
    HeaderOfTrimmed(text);
  }

  /** Reader and editor agree about headers and about the lines of a well-formed key. */
  lemma ReadersAgree(text: string, key: Key, at: Place)
    requires NameOk(key.name)
    ensures ParseSectionHeader(text).Some? ==> ReadOne(text, at, key) == In(ParseSectionHeader(text).value)
    ensures ParseSectionHeader(text).None? && !(at == key.place && KeyLine(text, key)) ==>
              ReadOne(text, at, key) == In(at)
  {
    hide SettingOf, Trim;
    HeaderOfTrimmed(text);
    var t := Trim(text);
    if ParseSectionHeader(text).Some? {
      BracketedStarts(text);
    } else if StartsWith(t, '[') && SettingOf(t).Some? {
      SettingOfStart(t, '[');
    }
  }

  /** A line that sets `key` says nothing about other keys, wherever it stands. */
  lemma KeyLineSilent(text: string, key: Key, other: Key, at: Place)
    requires KeyLine(text, key) && other != key && at == key.place
    ensures ReadOne(text, at, other) == In(at)
  {
    hide SettingOf, Trim;
    HeaderOfTrimmed(text);
  }

  /** Only a header takes the reader to another section, whatever key is looked for. */
  lemma ReadPlace(text: string, at: Place, key: Key)
    ensures ReadOne(text, at, key).In? ==> ReadOne(text, at, key).place == Entered(text, at)
  {
    hide SettingOf, Trim;
    HeaderOfTrimmed(text);
    if ParseSectionHeader(text).Some? {
      BracketedStarts(text);
    }
  }

  function Entered(text: string, at: Place): Place {
    if ParseSectionHeader(text).Some? then ParseSectionHeader(text).value else at
  }

  // ---------- Where the line goes ----------

  /** In front of line `at`, or in its place. */
  datatype Spot = Spot(at: nat, instead: bool)

  /** The first line of the key in the first occurrence of the section, or the end of that. */
  function FindSpot(lines: seq<string>, key: Key, inside: bool): (r: Option<Spot>)
    ensures r.Some? ==> r.value.at <= |lines| && (r.value.instead ==> r.value.at < |lines|)
  {
    if lines == [] then if inside then Some(Spot(0, false)) else None
    else if inside && ParseSectionHeader(lines[0]).Some? then Some(Spot(0, false))
    else if inside && KeyLine(lines[0], key) then Some(Spot(0, true))
    else
      match FindSpot(lines[1..], key, Inside(lines[0], key, inside))
      case None => None
      case Some(s) => Some(Spot(s.at + 1, s.instead))
  }

  function Inside(text: string, key: Key, inside: bool): bool {
    if ParseSectionHeader(text).Some? then ParseSectionHeader(text).value == key.place else inside
  }

  function Rest(lines: seq<string>, s: Spot): seq<string>
    requires s.at <= |lines| && (s.instead ==> s.at < |lines|)
  {
    if s.instead then lines[s.at + 1..] else lines[s.at..]
  }

  lemma {:induction false} RewriteDone(lines: seq<string>, key: Key, line: string, inside: bool)
    ensures Rewrite(lines, key, line, inside, true) == lines
  {
    hide ParseSectionHeader, IsLineOf;
    if lines != [] {
      RewriteDone(lines[1..], key, line, Inside(lines[0], key, inside));
      assert lines == [lines[0]] + lines[1..];
    }
  }

  function Shifted(s: Option<Spot>, n: nat): Option<Spot> {
    if s.None? then None else Some(Spot(s.value.at + n, s.value.instead))
  }

  lemma KeyLineNoHeader(line: string, key: Key)
    requires KeyLine(line, key)
    ensures ParseSectionHeader(line).None?
  {
  }

  /** Here the search ends. */
  predicate Stops(text: string, key: Key, inside: bool) {
    inside && (ParseSectionHeader(text).Some? || KeyLine(text, key))
  }

  lemma FindSpotCons(text: string, lines: seq<string>, key: Key, inside: bool)
    ensures !Stops(text, key, inside) ==>
              FindSpot([text] + lines, key, inside) == Shifted(FindSpot(lines, key, Inside(text, key, inside)), 1)
    ensures Stops(text, key, inside) ==>
              FindSpot([text] + lines, key, inside) == Some(Spot(0, ParseSectionHeader(text).None?))
  {
    hide ParseSectionHeader, KeyLine;
    assert ([text] + lines)[1..] == lines;
  }

  lemma FindSpotEnd(key: Key, inside: bool)
    ensures FindSpot([], key, inside) == if inside then Some(Spot(0, false)) else None
  {
  }

  /** The lines with `line` put at the spot. */
  function Put(lines: seq<string>, s: Spot, line: string): seq<string>
    requires s.at <= |lines| && (s.instead ==> s.at < |lines|)
  {
    lines[..s.at] + [line] + Rest(lines, s)
  }

  lemma PutCons(text: string, lines: seq<string>, s: Spot, line: string)
    requires s.at <= |lines| && (s.instead ==> s.at < |lines|)
    ensures Put([text] + lines, Spot(s.at + 1, s.instead), line) == [text] + Put(lines, s, line)
  {
    var all := [text] + lines;
    assert all[..s.at + 1] == [text] + lines[..s.at];
    assert all[s.at + 1..] == lines[s.at..];
  }

  lemma PutFirst(text: string, lines: seq<string>, instead: bool, line: string)
    ensures Put([text] + lines, Spot(0, instead), line) == if instead then [line] + lines else [line] + [text] + lines
  {
    assert ([text] + lines)[1..] == lines;
  }

  /** The editor puts the line at the spot and leaves all other lines as they are. */
  lemma {:induction false} RewriteAtSpot(lines: seq<string>, key: Key, line: string, inside: bool)
    ensures FindSpot(lines, key, inside).None? <==> !inside && !Seen(lines, key.place)
    ensures Rewrite(lines, key, line, inside, false)
         == match FindSpot(lines, key, inside)
            case None => lines
            case Some(s) => Put(lines, s, line)
  {
    hide ParseSectionHeader, KeyLine, IsLineOf, Put, FindSpot;
    if lines == [] {
      FindSpotEnd(key, inside);
      PutEnd(line);
    } else {
      var text, rest := lines[0], lines[1..];
      assert lines == [text] + rest;
      FindSpotCons(text, rest, key, inside);
      RewriteCons(text, rest, key, line, inside);
      if Stops(text, key, inside) {
        PutFirst(text, rest, ParseSectionHeader(text).None?, line);
      } else {
        var inside' := Inside(text, key, inside);
        RewriteAtSpot(rest, key, line, inside');
        var s := FindSpot(rest, key, inside');
        if s.Some? {
          SpotInRange(rest, key, inside');
          PutCons(text, rest, s.value, line);
        }
      }
    }
  }

  lemma PutEnd(line: string)
    ensures Put([], Spot(0, false), line) == [line]
  {
  }

  lemma SpotInRange(lines: seq<string>, key: Key, inside: bool)
    ensures var s := FindSpot(lines, key, inside);
            s.Some? ==> s.value.at <= |lines| && (s.value.instead ==> s.value.at < |lines|)
  {
  }

  lemma RewriteCons(text: string, lines: seq<string>, key: Key, line: string, inside: bool)
    ensures Rewrite([text] + lines, key, line, inside, false)
         == if !Stops(text, key, inside) then [text] + Rewrite(lines, key, line, Inside(text, key, inside), false)
            else if ParseSectionHeader(text).None? then [line] + lines
            else [line] + [text] + lines
  {
    hide ParseSectionHeader, IsLineOf;
    assert ([text] + lines)[1..] == lines;
    RewriteDone(lines, key, line, Inside(text, key, inside));
  }

  /** Once a line of the key is at the spot, that is where the key is found. */
  lemma {:induction false} SpotStays(lines: seq<string>, key: Key, inside: bool, line: string, rest: seq<string>)
    requires KeyLine(line, key) && FindSpot(lines, key, inside).Some?
    ensures var s := FindSpot(lines, key, inside).value;
            FindSpot(lines[..s.at] + [line] + rest, key, inside) == Some(Spot(s.at, true))
  {
    hide ParseSectionHeader, KeyLine, FindSpot;
    KeyLineNoHeader(line, key);
    SpotInRange(lines, key, inside);
    FindSpotEnd(key, inside);
    var s := FindSpot(lines, key, inside).value;
    if lines != [] {
      assert lines == [lines[0]] + lines[1..];
      FindSpotCons(lines[0], lines[1..], key, inside);
    }
    if s.at == 0 {
      FindSpotCons(line, rest, key, inside);
      SpotInside(lines, key, inside);
      assert lines[..0] + [line] + rest == [line] + rest;
    } else {
      var below := Inside(lines[0], key, inside);
      SpotStays(lines[1..], key, below, line, rest);
      assert lines[..s.at] + [line] + rest == [lines[0]] + (lines[1..][..s.at - 1] + [line] + rest);
      FindSpotCons(lines[0], lines[1..][..s.at - 1] + [line] + rest, key, inside);
    }
  }

  lemma SpotInside(lines: seq<string>, key: Key, inside: bool)
    requires FindSpot(lines, key, inside).Some? && FindSpot(lines, key, inside).value.at == 0
    ensures inside
  {
  }

  /** Lines without the section leave the search to what follows them. */
  lemma {:induction false} SpotAfter(lines: seq<string>, key: Key, inside: bool, rest: seq<string>)
    requires FindSpot(lines, key, inside).None?
    ensures FindSpot(lines + rest, key, inside) == Shifted(FindSpot(rest, key, false), |lines|)
  {
    hide ParseSectionHeader, KeyLine, FindSpot;
    FindSpotEnd(key, inside);
    if lines == [] {
      assert [] + rest == rest;
    } else {
      assert lines == [lines[0]] + lines[1..];
      FindSpotCons(lines[0], lines[1..], key, inside);
      FindSpotCons(lines[0], lines[1..] + rest, key, inside);
      SpotAfter(lines[1..], key, Inside(lines[0], key, inside), rest);
      assert lines + rest == [lines[0]] + (lines[1..] + rest);
    }
  }

  // ---------- Reading what was written ----------

  function PlaceAfter(lines: seq<string>, at: Place): Place {
    if lines == [] then at else PlaceAfter(lines[1..], Entered(lines[0], at))
  }

  lemma {:induction false} ReadAppend(lines: seq<string>, more: seq<string>, at: Place, key: Key)
    ensures Read(lines + more, at, key)
         == if Read(lines, at, key).Some? then Read(lines, at, key) else Read(more, PlaceAfter(lines, at), key)
  {
    hide ReadOne, Entered;
    if lines == [] {
      assert [] + more == more;
    } else {
      assert (lines + more)[1..] == lines[1..] + more;
      ReadPlace(lines[0], at, key);
      ReadAppend(lines[1..], more, Entered(lines[0], at), key);
    }
  }

  /** The reader is in the section exactly where the editor is. */
  lemma {:induction false} BeforeSpot(lines: seq<string>, key: Key, at: Place)
    requires NameOk(key.name)
    ensures match FindSpot(lines, key, at == key.place)
            case None => Read(lines, at, key).None? && PlaceAfter(lines, at) != key.place
            case Some(s) => Read(lines[..s.at], at, key).None? && PlaceAfter(lines[..s.at], at) == key.place
                            && (s.instead ==> KeyLine(lines[s.at], key))
  {
    hide ParseSectionHeader, KeyLine, ReadOne, NameOk;
    if lines != [] {
      var inside := at == key.place;
      if !(inside && (ParseSectionHeader(lines[0]).Some? || KeyLine(lines[0], key))) {
        ReadersAgree(lines[0], key, at);
        BeforeSpot(lines[1..], key, Entered(lines[0], at));
        var below := FindSpot(lines[1..], key, Inside(lines[0], key, inside));
        if below.Some? {
          assert lines[..below.value.at + 1][1..] == lines[1..][..below.value.at];
        }
      }
    }
  }

  lemma ReadBlank(lines: seq<string>, at: Place, key: Key)
    ensures Read(EndLine(lines), at, key) == Read(lines, at, key)
    ensures PlaceAfter(EndLine(lines), at) == PlaceAfter(lines, at)
  {
    hide PlaceAfter, Entered, Trim;
    TrimEmpty();
    ReadAppend(lines, [""], at, key);
    PlaceAppend(lines, [""], at);
    ReadBlankLine(PlaceAfter(lines, at), key);
  }

  lemma ReadBlankLine(at: Place, key: Key)
    ensures Read([""], at, key) == None && PlaceAfter([""], at) == at
    ensures ParseSectionHeader("").None?
  {
  }

  lemma {:induction false} PlaceAppend(lines: seq<string>, more: seq<string>, at: Place)
    ensures PlaceAfter(lines + more, at) == PlaceAfter(more, PlaceAfter(lines, at))
  {
    hide Entered;
    if lines == [] {
      assert [] + more == more;
    } else {
      assert (lines + more)[1..] == lines[1..] + more;
      PlaceAppend(lines[1..], more, Entered(lines[0], at));
    }
  }

  // ---------- The shape of the file ----------

  /** The lines in front of the line that is set: none of them depends on the value. */
  function Before(lines: seq<string>, key: Key): seq<string> {
    match FindSpot(lines, key, false)
    case None => EndLine(lines) + [HeaderLine(key.place)]
    case Some(s) => lines[..s.at]
  }

  function After(lines: seq<string>, key: Key): seq<string> {
    match FindSpot(lines, key, false)
    case None => [""]
    case Some(s) => EndRest(Rest(lines, s))
  }

  function EndRest(rest: seq<string>): seq<string> {
    if rest == [] then [""] else EndLine(rest)
  }

  lemma EndAfterLine(before: seq<string>, line: string, rest: seq<string>)
    requires line != ""
    ensures EndLine(before + [line] + rest) == before + [line] + EndRest(rest)
  {
    if rest == [] {
      assert before + [line] + rest == before + [line];
    }
  }

  /** Whatever the value is, one line is put between the same lines. */
  lemma SetShape(lines: seq<string>, key: Key, value: string)
    ensures SetLines(lines, key, value) == Before(lines, key) + [SettingLine(key.name, value)] + After(lines, key)
  {
    hide Rewrite, FindSpot, Seen, EndLine, HeaderLine;
    var line := SettingLine(key.name, value);
    RewriteAtSpot(lines, key, line, false);
    match FindSpot(lines, key, false)
    case None =>
      EndAfterLine(EndLine(lines) + [HeaderLine(key.place)], line, []);
      assert EndLine(lines) + [HeaderLine(key.place), line] == EndLine(lines) + [HeaderLine(key.place)] + [line] + [];
    case Some(s) =>
      EndAfterLine(lines[..s.at], line, Rest(lines, s));
  }

  lemma HeaderEnters(key: Key, inside: bool)
    requires WellFormed(key)
    ensures Inside(HeaderLine(key.place), key, inside)
    ensures forall at :: Entered(HeaderLine(key.place), at) == key.place
  {
    HeaderLineReads(key.place);
  }

  lemma NewSectionSpot(lines: seq<string>, key: Key, line: string)
    requires WellFormed(key) && KeyLine(line, key) && FindSpot(lines, key, false).None?
    ensures FindSpot(EndLine(lines) + [HeaderLine(key.place)] + [line] + [""], key, false)
         == Some(Spot(|EndLine(lines)| + 1, true))
  {
    hide FindSpot, KeyLine, WellFormed, HeaderLine, ParseSectionHeader;
    var header := HeaderLine(key.place);
    BlankKeepsNone(lines, key);
    SpotAfter(EndLine(lines), key, false, [header] + [line] + [""]);
    assert EndLine(lines) + ([header] + [line] + [""]) == EndLine(lines) + [header] + [line] + [""];
    HeaderEnters(key, false);
    FindSpotCons(header, [line] + [""], key, false);
    assert [header] + ([line] + [""]) == [header] + [line] + [""];
    FindSpotCons(line, [""], key, true);
    KeyLineNoHeader(line, key);
  }

  lemma BlankKeepsNone(lines: seq<string>, key: Key)
    requires FindSpot(lines, key, false).None?
    ensures FindSpot(EndLine(lines), key, false).None?
  {
    hide FindSpot, ParseSectionHeader;
    SpotAfter(lines, key, false, [""]);
    ReadBlankLine(TOP, key);
    FindSpotCons("", [], key, false);
    FindSpotEnd(key, false);
    assert [""] + [] == [""];
  }

  /** Setting a key again puts the new line where the old one is. */
  lemma SetAgain(lines: seq<string>, key: Key, line: string)
    requires WellFormed(key) && KeyLine(line, key)
    ensures var lines' := Before(lines, key) + [line] + After(lines, key);
            Before(lines', key) == Before(lines, key) && After(lines', key) == After(lines, key)
  {
    hide FindSpot, KeyLine, WellFormed, HeaderLine, EndLine;
    var before, after := Before(lines, key), After(lines, key);
    var lines' := before + [line] + after;
    match FindSpot(lines, key, false)
    case None =>
      NewSectionSpot(lines, key, line);
      AtSpot(before, line, after, key);
      EndedTwice(lines, key);
    case Some(s) =>
      SpotStays(lines, key, false, line, after);
      AtSpot(before, line, after, key);
      EndedTwice(lines, key);
  }

  lemma AtSpot(before: seq<string>, line: string, after: seq<string>, key: Key)
    requires FindSpot(before + [line] + after, key, false) == Some(Spot(|before|, true))
    ensures Before(before + [line] + after, key) == before && After(before + [line] + after, key) == EndRest(after)
  {
    SpliceParts(before, line, after);
  }

  lemma SpliceParts(before: seq<string>, line: string, after: seq<string>)
    ensures (before + [line] + after)[..|before|] == before && (before + [line] + after)[|before| + 1..] == after
  {
  }

  lemma EndedTwice(lines: seq<string>, key: Key)
    ensures EndRest(After(lines, key)) == After(lines, key)
  {
  }

  // ---------- The laws, on lines ----------

  lemma BeforeReads(lines: seq<string>, key: Key)
    requires WellFormed(key)
    ensures Read(Before(lines, key), TOP, key).None? && PlaceAfter(Before(lines, key), TOP) == key.place
  {
    hide FindSpot, HeaderLine, EndLine, Read, PlaceAfter, Entered;
    BeforeSpot(lines, key, TOP);
    if FindSpot(lines, key, false).None? {
      ReadBlank(lines, TOP, key);
      ReadAppend(EndLine(lines), [HeaderLine(key.place)], TOP, key);
      PlaceAppend(EndLine(lines), [HeaderLine(key.place)], TOP);
      ReadHeader(key, PlaceAfter(EndLine(lines), TOP), key, []);
    }
  }

  lemma ReadHeader(key: Key, at: Place, other: Key, rest: seq<string>)
    requires WellFormed(key)
    ensures Read([HeaderLine(key.place)] + rest, at, other) == Read(rest, key.place, other)
    ensures Read([HeaderLine(key.place)], at, other) == None
    ensures PlaceAfter([HeaderLine(key.place)], at) == key.place
  {
    hide ReadOne, ParseSectionHeader, HeaderLine;
    HeaderEnters(key, false);
    HeaderLineReads(key.place);
    HeaderReadOne(HeaderLine(key.place), at, other);
    assert ([HeaderLine(key.place)] + rest)[1..] == rest;
  }

  lemma HeaderReadOne(text: string, at: Place, key: Key)
    requires ParseSectionHeader(text).Some?
    ensures ReadOne(text, at, key) == In(ParseSectionHeader(text).value)
  {
    hide SettingOf, Trim;
    HeaderOfTrimmed(text);
    BracketedStarts(text);
  }

  /** The key reads as it was set. */
  lemma ReadWhatWasSet(lines: seq<string>, key: Key, value: string, rest: seq<string>)
    requires WellFormed(key)
    ensures Read(Before(lines, key) + [SettingLine(key.name, value)] + rest, TOP, key) == Some(Trim(value))
  {
    hide Before, ReadOne, PlaceAfter, WellFormed, SettingLine, Trim;
    var line := SettingLine(key.name, value);
    BeforeReads(lines, key);
    ReadAppend(Before(lines, key), [line] + rest, TOP, key);
    assert Before(lines, key) + ([line] + rest) == Before(lines, key) + [line] + rest;
    KeyLineWritten(key, value);
  }

  lemma SilentLine(line: string, key: Key, other: Key, rest: seq<string>)
    requires KeyLine(line, key) && other != key
    ensures Read([line] + rest, key.place, other) == Read(rest, key.place, other)
  {
    hide ReadOne, KeyLine;
    KeyLineSilent(line, key, other, key.place);
    assert ([line] + rest)[1..] == rest;
  }

  lemma ReadEndRest(rest: seq<string>, at: Place, key: Key)
    ensures Read(EndRest(rest), at, key) == Read(rest, at, key)
  {
    hide ReadOne;
    ReadBlank(rest, at, key);
    ReadBlankLine(at, key);
  }

  /** Every other key reads as before. */
  lemma OtherKeysKept(lines: seq<string>, key: Key, line: string, other: Key)
    requires WellFormed(key) && KeyLine(line, key) && other != key
    ensures Read(Before(lines, key) + [line] + After(lines, key), TOP, other) == Read(lines, TOP, other)
  {
    hide FindSpot, HeaderLine, EndLine, Read, PlaceAfter, Entered, KeyLine, WellFormed, EndRest;
    var before, after := Before(lines, key), After(lines, key);
    BeforeReads(lines, key);
    ReadAppend(before, [line] + after, TOP, other);
    assert before + ([line] + after) == before + [line] + after;
    SilentLine(line, key, other, after);
    match FindSpot(lines, key, false)
    case None =>
      ReadBlank(lines, TOP, other);
      ReadBlankLine(key.place, other);
      ReadAppend(EndLine(lines), [HeaderLine(key.place)], TOP, other);
      ReadHeader(key, PlaceAfter(EndLine(lines), TOP), other, []);
    case Some(s) =>
      SpotInRange(lines, key, false);
      ReadEndRest(Rest(lines, s), key.place, other);
      ReadAppend(lines[..s.at], lines[s.at..], TOP, other);
      assert lines[..s.at] + lines[s.at..] == lines;
      if s.instead {
        WellFormedName(key);
        BeforeSpot(lines, key, TOP);
        SilentLine(lines[s.at], key, other, Rest(lines, s));
        assert [lines[s.at]] + Rest(lines, s) == lines[s.at..];
      }
  }

  lemma WellFormedName(key: Key)
    requires WellFormed(key)
    ensures NameOk(key.name) && key.place != TOP
  {
  }

  // ---------- The laws, on files ----------

  ghost predicate OneLiners(lines: seq<string>) {
    forall i :: 0 <= i < |lines| ==> '\n' !in lines[i]
  }

  lemma HeaderOneLine(p: Place)
    requires PlaceOk(p)
    ensures '\n' !in HeaderLine(p)
  {
  }

  lemma FrameOneLiners(lines: seq<string>, key: Key)
    requires WellFormed(key) && OneLiners(lines)
    ensures OneLiners(Before(lines, key)) && OneLiners(After(lines, key))
  {
    hide FindSpot, HeaderLine;
    HeaderOneLine(key.place);
    SpotInRange(lines, key, false);
  }

  lemma SettingLineSplit(name: string, value: string)
    requires NameOk(name)
    ensures Split(SettingLine(name, value), '\n')
         == [SettingLine(name, Split(value, '\n')[0])] + Split(value, '\n')[1..]
  {
    hide Split;
    var front := "\t" + name + " = ";
    assert '\n' !in front;
    SplitPrefix(front, value, '\n');
  }

  /** The file that `SetConfig` writes, as the reader splits it. */
  lemma SetTextLines(text: string, key: Key, value: string)
    requires WellFormed(key)
    ensures var lines, values := LinesOf(text), Split(value, '\n');
            Split(SetText(text, key, value), '\n')
            == Before(lines, key) + [SettingLine(key.name, values[0])] + (values[1..] + After(lines, key))
  {
    hide SetLines, Before, After, Join, SettingLine, Split;
    var lines, values := LinesOf(text), Split(value, '\n');
    SetShape(lines, key, value);
    LinesOneLiners(text);
    FrameOneLiners(lines, key);
    SplitJoinAround(Before(lines, key), SettingLine(key.name, value), After(lines, key), '\n');
    SettingLineSplit(key.name, value);
    assert Before(lines, key) + ([SettingLine(key.name, values[0])] + values[1..]) + After(lines, key)
        == Before(lines, key) + [SettingLine(key.name, values[0])] + (values[1..] + After(lines, key));
  }

  lemma LinesOneLiners(text: string)
    ensures OneLiners(LinesOf(text))
  {
    hide Split;
  }

  lemma ReadKeyLines(text: string, key: Key)
    ensures ReadKey(Some(text), key) == Read(LinesOf(text), TOP, key)
  {
    hide ReadOne;
    if text == "" {
      ReadBlankLine(TOP, key);
    }
  }

  /**
   Get after set: a key reads as the first line of the value, without white space around it;
   so as the value exactly if that is trimmed and has one line.
   */
  lemma GetAfterSet(text: string, key: Key, value: string)
    requires WellFormed(key)
    ensures ReadKey(Some(SetText(text, key, value)), key) == Some(Trim(Split(value, '\n')[0]))
    ensures ReadKey(Some(SetText(text, key, value)), key) == Some(value) <==> IsTrimmed(value) && '\n' !in value
  {
    hide WellFormed, SetText, Before, After, Read, SettingLine, Trim, Split;
    var values := Split(value, '\n');
    SetTextLines(text, key, value);
    ReadWhatWasSet(LinesOf(text), key, values[0], values[1..] + After(LinesOf(text), key));
    TrimmedLine(value);
  }

  lemma TrimmedLine(value: string)
    ensures Trim(Split(value, '\n')[0]) == value <==> IsTrimmed(value) && '\n' !in value
  {
    hide Trim, Split;
    var first := Split(value, '\n')[0];
    if '\n' in value && Trim(first) == value {
      TrimWithin(first, '\n');
    }
    if '\n' !in value {
      SplitWhole(value, '\n');
      assert Trim(value) == value <==> IsTrimmed(value);
    }
  }

  lemma OneLineSet(text: string, key: Key, value: string)
    requires WellFormed(key) && '\n' !in value
    ensures Split(SetText(text, key, value), '\n')
         == Before(LinesOf(text), key) + [SettingLine(key.name, value)] + After(LinesOf(text), key)
    ensures LinesOf(SetText(text, key, value)) == Split(SetText(text, key, value), '\n')
  {
    hide WellFormed, SetText, Before, SettingLine, Split, FindSpot;
    SetTextLines(text, key, value);
    SplitWhole(value, '\n');
    assert [value][1..] == [] && [] + After(LinesOf(text), key) == After(LinesOf(text), key);
    AfterNotEmpty(LinesOf(text), key);
    OneEmptyLine(SetText(text, key, value));
  }

  lemma AfterNotEmpty(lines: seq<string>, key: Key)
    ensures After(lines, key) != []
  {
  }

  /** Setting one key leaves what every other key reads as. */
  lemma GetOtherAfterSet(text: string, key: Key, value: string, other: Key)
    requires WellFormed(key) && '\n' !in value && other != key
    ensures ReadKey(Some(SetText(text, key, value)), other) == ReadKey(Some(text), other)
  {
    hide WellFormed, SetText, Before, After, Read, SettingLine, Split, KeyLine, LinesOf;
    OneLineSet(text, key, value);
    ReadKeyLines(SetText(text, key, value), other);
    ReadKeyLines(text, other);
    KeyLineWritten(key, value);
    OtherKeysKept(LinesOf(text), key, SettingLine(key.name, value), other);
  }

  /** The last set counts: the file is the same as if only that had been made. */
  lemma SetAfterSet(text: string, key: Key, value: string, value': string)
    requires WellFormed(key) && '\n' !in value
    ensures SetText(SetText(text, key, value), key, value') == SetText(text, key, value')
  {
    hide WellFormed, Before, After, SettingLine, Split, KeyLine, LinesOf, Join, SetLines;
    var lines := LinesOf(text);
    OneLineSet(text, key, value);
    KeyLineWritten(key, value);
    SetAgain(lines, key, SettingLine(key.name, value));
    SetShape(lines, key, value');
    SetShape(LinesOf(SetText(text, key, value)), key, value');
  }

  // ---------- Dotted keys ----------

  /** The dotted name of a key stands for its parts. */
  lemma SplitKeyName(key: Key)
    requires '.' !in key.place.section && '.' !in key.name
    ensures var rest := if key.place.subsection == "" then key.name else key.place.subsection + ['.'] + key.name;
            SplitKey(key.place.section + ['.'] + rest) == Some(key)
  {
    hide Join, Split;
    var section, subsection := key.place.section, key.place.subsection;
    SplitWhole(key.name, '.');
    if subsection == "" {
      SplitFirst(section, key.name, '.');
    } else {
      SplitConcat(subsection, '.', key.name);
      SplitFirst(section, subsection + ['.'] + key.name, '.');
      var parts := [section] + (Split(subsection, '.') + [key.name]);
      assert parts[1..|parts| - 1] == Split(subsection, '.');
      JoinSplit(subsection, '.');
    }
  }

  lemma NoSection(fullKey: string)
    ensures SplitKey(fullKey).None? <==> '.' !in fullKey
  {
    hide Join, Split;
    JoinSplit(fullKey, '.');
    if '.' !in fullKey {
      SplitWhole(fullKey, '.');
    }
    var parts := Split(fullKey, '.');
    JoinOne(parts[0], '.');
    assert |parts| == 1 ==> parts == [parts[0]];
  }
}