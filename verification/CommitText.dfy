/**
 The text of commit objects: how a commit is printed, how it is read back, and which commits
 survive that.  Times are seconds; the zero time stands for a time that was not given.
 */
module CommitText {
  import opened Wrappers
  import opened Strings
  import Lines

  datatype CommitFields = CommitFields(
    tree: string,
    parents: seq<string>,
    authorName: string,
    authorEmail: string,
    authorTime: int,
    message: string)

  datatype CommitOptions = CommitOptions(
    tree: string,
    parents: seq<string>,
    author: string,
    committer: string,
    message: string,
    authorTime: int,
    committerTime: int)

  /** The time of day, and the time zones in which the two times are shown. */
  datatype Clock = Clock(now: int, authorZone: string, committerZone: string)

  /** Go's zero time. */
  const ZERO_TIME: int := -62135596800

  const NOBODY: string := "KitKat User <user@kitkat>"

  // ---------- Numbers and words ----------

  /** `%d`. */
  function Signed(n: int): (s: string)
    ensures s != []
  {
    if n < 0 then "-" + Decimal(-n) else Decimal(n)
  }

  predicate IsInt64(n: int) {
    -0x8000_0000_0000_0000 <= n < 0x8000_0000_0000_0000
  }

  /** `strconv.ParseInt` with base 10 and 64 bits. */
  function ParseInt64(s: string): Option<int> {
    if Unsigned(s) == [] || !AllDigits(Unsigned(s)) then None
    else
      var n: int := if s[0] == '-' then 0 - Value(Unsigned(s)) else Value(Unsigned(s));
      if IsInt64(n) then Some(n) else None
  }

  /** How many characters come before the first white space. */
  function WordLength(s: string): (n: nat)
    ensures n <= |s| && (n < |s| ==> IsSpace(s[n])) && forall i :: 0 <= i < n ==> !IsSpace(s[i])
  {
    if s == [] || IsSpace(s[0]) then 0 else 1 + WordLength(s[1..])
  }

  /** `strings.Fields`: what white space separates. */
  function Fields(s: string): seq<string>
    decreases |s|
  {
    var t := TrimLeft(s);
    if t == [] then [] else [t[..WordLength(t)]] + Fields(t[WordLength(t)..])
  }

  function IndexOf(s: string, c: char): (r: Option<nat>)
    ensures r.None? <==> c !in s
    ensures r.Some? ==> r.value < |s| && s[r.value] == c && forall k :: 0 <= k < r.value ==> s[k] != c
  {
    if s == [] then None
    else if s[0] == c then Some(0)
    else
      match IndexOf(s[1..], c)
      case None => None
      case Some(i) => Some(i + 1)
  }

  // ---------- Printing ----------

  function AuthorOf(name: string, email: string): string {
    name + " <" + email + ">"
  }

  function Author(opts: CommitOptions): string {
    if opts.author == "" then NOBODY else opts.author
  }

  function Committer(opts: CommitOptions): string {
    if opts.committer == "" then Author(opts) else opts.committer
  }

  /** A time that was not given is the present. */
  function TimeOr(time: int, now: int): int {
    if time == ZERO_TIME then now else time
  }

  function Stamped(who: string, time: int, zone: string): string {
    who + " " + Signed(time) + " " + zone
  }

  function ParentLines(parents: seq<string>): (r: seq<string>)
    ensures |r| == |parents|
    ensures forall i :: 0 <= i < |parents| ==> r[i] == "parent " + parents[i]
  {
    seq(|parents|, i requires 0 <= i < |parents| => "parent " + parents[i])
  }

  function HeaderLines(opts: CommitOptions, clock: Clock): seq<string> {
    ["tree " + opts.tree] + ParentLines(opts.parents)
    + ["author " + Stamped(Author(opts), TimeOr(opts.authorTime, clock.now), clock.authorZone)]
    + ["committer " + Stamped(Committer(opts), TimeOr(opts.committerTime, clock.now), clock.committerZone)]
  }

  /** The lines, each with its end. */
  function Ended(lines: seq<string>): string {
    if lines == [] then "" else Ended(lines[..|lines| - 1]) + lines[|lines| - 1] + "\n"
  }

  function TextOf(opts: CommitOptions, clock: Clock): string {
    var text := Ended(HeaderLines(opts, clock)) + "\n" + opts.message;
    if text[|text| - 1] == '\n' then text else text + "\n"
  }

  lemma EndedMore(lines: seq<string>, line: string)
    ensures Ended(lines + [line]) == Ended(lines) + line + "\n"
  {
    assert (lines + [line])[..|lines|] == lines;
  }

  /** Writes the buffer line by line. */
  method CommitTree(opts: CommitOptions, clock: Clock) returns (buf: string)
    ensures buf == TextOf(opts, clock)
  {
    hide Stamped, ParentLines, Signed, Ended, TextOf, HeaderLines;
    buf := "tree " + opts.tree + "\n";
    ghost var lines := ["tree " + opts.tree];
    EndedOne(lines[0]);
    ParentLinesAre(opts.parents);
    for i := 0 to |opts.parents|
      invariant lines == ["tree " + opts.tree] + ParentLines(opts.parents)[..i] && buf == Ended(lines)
    {
      EndedMore(lines, "parent " + opts.parents[i]);
      buf := buf + ("parent " + opts.parents[i]) + "\n";
      lines := lines + ["parent " + opts.parents[i]];
    }
    var authorTime := opts.authorTime;
    if authorTime == ZERO_TIME {
      authorTime := clock.now;
    }
    var committerTime := opts.committerTime;
    if committerTime == ZERO_TIME {
      committerTime := clock.now;
    }
    var author := opts.author;
    if author == "" {
      author := NOBODY;
    }
    var authorLine := "author " + Stamped(author, authorTime, clock.authorZone);
    EndedMore(lines, authorLine);
    buf := buf + authorLine + "\n";
    var committer := opts.committer;
    if committer == "" {
      committer := author;
    }
    var committerLine := "committer " + Stamped(committer, committerTime, clock.committerZone);
    EndedMore(lines + [authorLine], committerLine);
    buf := buf + committerLine + "\n" + "\n";
    HeaderIs(opts, clock);
    assert ParentLines(opts.parents)[..|opts.parents|] == ParentLines(opts.parents);
    buf := buf + opts.message;
    TextIs(opts, clock);
    if buf[|buf| - 1] != '\n' {
      buf := buf + "\n";
    }
  }

  lemma HeaderIs(opts: CommitOptions, clock: Clock)
    ensures HeaderLines(opts, clock)
         == ["tree " + opts.tree] + ParentLines(opts.parents)
            + ["author " + Stamped(Author(opts), TimeOr(opts.authorTime, clock.now), clock.authorZone)]
            + ["committer " + Stamped(Committer(opts), TimeOr(opts.committerTime, clock.now), clock.committerZone)]
  {
    hide Stamped, ParentLines;
  }

  lemma EndedOne(line: string)
    ensures Ended([line]) == line + "\n"
  {
    assert [line][..0] == [] && "" + line == line;
  }

  lemma ParentLinesAre(parents: seq<string>)
    ensures |ParentLines(parents)| == |parents|
    ensures forall i :: 0 <= i < |parents| ==> ParentLines(parents)[i] == "parent " + parents[i]
  {
  }

  lemma TextIs(opts: CommitOptions, clock: Clock)
    ensures var text := Ended(HeaderLines(opts, clock)) + "\n" + opts.message;
            TextOf(opts, clock) == if text[|text| - 1] == '\n' then text else text + "\n"
  {
  }


  // ---------- Reading ----------

  /** The positions of the brackets around the address. */
  function Brackets(line: string): Option<(nat, nat)> {
    match (IndexOf(line, '<'), IndexOf(line, '>'))
    case (Some(i), Some(j)) => if j > i then Some((i, j)) else None
    case _ => None
  }

  /** The time after the address, unless it is not there or no number. */
  function TimeAfter(rest: string): Option<int> {
    var parts := Fields(Trim(rest));
    if |parts| >= 2 then ParseInt64(parts[0]) else None
  }

  /** An author line without brackets in order is all name. */
  function ReadAuthor(c: CommitFields, line: string): CommitFields {
    match Brackets(line)
    case None => c.(authorName := line)
    case Some((i, j)) =>
      var time := TimeAfter(line[j + 1..]);
      c.(authorName := Trim(line[..i]), authorEmail := line[i + 1..j],
         authorTime := if time.Some? then time.value else c.authorTime)
  }

  function ReadHeader(c: CommitFields, line: string): CommitFields {
    match CutAt(line, ' ')
    case Whole => c
    case Parts(key, value) =>
      if key == "tree" then c.(tree := value)
      else if key == "parent" then c.(parents := c.parents + [value])
      else if key == "author" then ReadAuthor(c, value)
      else c
  }

  /** Header lines up to the first empty line; what follows is the message. */
  function ReadLines(c: CommitFields, lines: seq<string>): CommitFields
    decreases |lines|
  {
    if lines == [] then c
    else if lines[0] == "" then c.(message := Trim(Lines.Join(lines[1..], '\n')))
    else ReadLines(ReadHeader(c, lines[0]), lines[1..])
  }

  function NoFields(): CommitFields {
    CommitFields("", [], "", "", ZERO_TIME, "")
  }

  function Parsed(text: string): CommitFields {
    ReadLines(NoFields(), Lines.Split(text, '\n'))
  }

  method ParseCommit(text: string) returns (c: CommitFields)
    ensures c == Parsed(text)
  {
    hide CutAt, ReadAuthor, Trim, Lines.Split, Lines.Join;
    var lines := Lines.Split(text, '\n');
    c := NoFields();
    var i := 0;
    while i < |lines|
      invariant 0 <= i <= |lines| && ReadLines(c, lines[i..]) == Parsed(text)
    {
      assert lines[i..][1..] == lines[i + 1..];
      if lines[i] == "" {
        break;
      }
      match CutAt(lines[i], ' ') {
        case Whole =>
        case Parts(key, value) =>
          match key {
            case "tree" => c := c.(tree := value);
            case "parent" => c := c.(parents := c.parents + [value]);
            case "author" => c := ReadAuthor(c, value);
            case _ =>
          }
      }
      i := i + 1;
    }
    if i < |lines| {
      c := c.(message := Trim(Lines.Join(lines[i + 1..], '\n')));
    }
  }

  // ---------- The printed text, line by line ----------

  lemma {:induction false} EndedSplit(lines: seq<string>, rest: string)
    requires forall i :: 0 <= i < |lines| ==> '\n' !in lines[i]
    ensures Lines.Split(Ended(lines) + rest, '\n') == lines + Lines.Split(rest, '\n')
    decreases |lines|
  {
    hide Lines.Split;
    if lines == [] {
      assert "" + rest == rest && lines + Lines.Split(rest, '\n') == Lines.Split(rest, '\n');
    } else {
      var init, last := lines[..|lines| - 1], lines[|lines| - 1];
      EndedSplit(init, last + ['\n'] + rest);
      Lines.SplitFirst(last, rest, '\n');
      assert Ended(lines) + rest == Ended(init) + (last + ['\n'] + rest);
      assert init + ([last] + Lines.Split(rest, '\n')) == lines + Lines.Split(rest, '\n');
    }
  }

  /** The message, with a line end unless it has one or is empty. */
  function Body(message: string): string {
    if message == "" || message[|message| - 1] == '\n' then message else message + "\n"
  }

  lemma TextParts(opts: CommitOptions, clock: Clock)
    ensures TextOf(opts, clock) == Ended(HeaderLines(opts, clock)) + (['\n'] + Body(opts.message))
  {
    hide HeaderLines, Ended;
  }

  /** Each is a line, and none is empty. */
  ghost predicate AllLines(lines: seq<string>) {
    forall i :: 0 <= i < |lines| ==> '\n' !in lines[i] && lines[i] != ""
  }

  lemma TextLines(opts: CommitOptions, clock: Clock)
    requires AllLines(HeaderLines(opts, clock))
    ensures Lines.Split(TextOf(opts, clock), '\n')
         == HeaderLines(opts, clock) + ([""] + Lines.Split(Body(opts.message), '\n'))
  {
    hide HeaderLines, Ended, Body, TextOf, Lines.Split;
    TextParts(opts, clock);
    EndedSplit(HeaderLines(opts, clock), ['\n'] + Body(opts.message));
    Lines.SplitFirst("", Body(opts.message), '\n');
    assert "" + ['\n'] + Body(opts.message) == ['\n'] + Body(opts.message);
  }

  lemma BodyTrimmed(message: string)
    ensures Trim(Lines.Join(Lines.Split(Body(message), '\n'), '\n')) == Trim(message)
  {
    hide Trim, Lines.Split, Lines.Join;
    Lines.JoinSplit(Body(message), '\n');
    TrimLineEnd(message);
  }

  lemma TrimLineEnd(s: string)
    ensures Trim(s + "\n") == Trim(s)
  {
    hide TrimLeft, TrimRight;
    TrimEitherFirst(s + "\n");
    TrimEitherFirst(s);
    TrimRightBeforeSpace(s, '\n');
    assert s + "\n" == s + ['\n'];
  }

  // ---------- Reading the printed header ----------

  lemma ReadNext(c: CommitFields, line: string, rest: seq<string>)
    requires line != ""
    ensures ReadLines(c, [line] + rest) == ReadLines(ReadHeader(c, line), rest)
  {
    hide ReadHeader;
    assert ([line] + rest)[1..] == rest;
  }

  lemma ReadKey(c: CommitFields, key: string, value: string)
    requires ' ' !in key
    ensures CutAt(key + " " + value, ' ') == Parts(key, value)
  {
    hide CutAt;
    CutFirst(key, ' ', value);
    assert key + " " + value == key + [' '] + value;
  }

  lemma {:induction false} ReadParents(c: CommitFields, parents: seq<string>, rest: seq<string>)
    ensures ReadLines(c, ParentLines(parents) + rest) == ReadLines(c.(parents := c.parents + parents), rest)
    decreases |parents|
  {
    hide ReadLines, CutAt;
    if parents == [] {
      assert ParentLines(parents) + rest == rest && c.parents + parents == c.parents;
    } else {
      var line := "parent " + parents[0];
      var c' := c.(parents := c.parents + [parents[0]]);
      assert ParentLines(parents) + rest == [line] + (ParentLines(parents[1..]) + rest);
      assert line == "parent" + " " + parents[0];
      ReadKey(c, "parent", parents[0]);
      ReadNext(c, line, ParentLines(parents[1..]) + rest);
      ReadParents(c', parents[1..], rest);
      assert c'.parents + parents[1..] == c.parents + parents;
    }
  }

  /** Whatever the author line is, the rest of the header and the message are read as they were given. */
  lemma ParsedText(opts: CommitOptions, clock: Clock)
    requires AllLines(HeaderLines(opts, clock))
    ensures var c := NoFields().(tree := opts.tree, parents := opts.parents);
            Parsed(TextOf(opts, clock))
            == ReadAuthor(c, Stamped(Author(opts), TimeOr(opts.authorTime, clock.now), clock.authorZone))
               .(message := Trim(opts.message))
  {
    hide ReadLines, CutAt, ReadAuthor, Stamped, TextOf, Body, Trim, Lines.Split, Lines.Join, ParentLines;
    var author := Stamped(Author(opts), TimeOr(opts.authorTime, clock.now), clock.authorZone);
    var committer := Stamped(Committer(opts), TimeOr(opts.committerTime, clock.now), clock.committerZone);
    var body := Lines.Split(Body(opts.message), '\n');
    var end := [""] + body;
    var c1 := NoFields().(tree := opts.tree);
    var c2 := c1.(parents := opts.parents);
    TextLines(opts, clock);
    BodyTrimmed(opts.message);
    var tail := ["author " + author] + (["committer " + committer] + end);
    assert HeaderLines(opts, clock) + end == ["tree " + opts.tree] + (ParentLines(opts.parents) + tail);
    assert "tree " + opts.tree == "tree" + " " + opts.tree;
    ReadKey(NoFields(), "tree", opts.tree);
    ReadNext(NoFields(), "tree " + opts.tree, ParentLines(opts.parents) + tail);
    ReadParents(c1, opts.parents, tail);
    assert c1.parents + opts.parents == opts.parents;
    ReadKey(c2, "author", author);
    assert "author " + author == "author" + " " + author;
    ReadNext(c2, "author " + author, ["committer " + committer] + end);
    var c3 := ReadAuthor(c2, author);
    ReadKey(c3, "committer", committer);
    assert "committer " + committer == "committer" + " " + committer;
    ReadNext(c3, "committer " + committer, end);
    ReadMessage(c3, body);
  }

  lemma ReadMessage(c: CommitFields, body: seq<string>)
    ensures ReadLines(c, [""] + body) == c.(message := Trim(Lines.Join(body, '\n')))
  {
    assert ([""] + body)[1..] == body;
  }

  // ---------- Reading the printed author ----------

  /** Some characters, and none of them white space. */
  ghost predicate Word(s: string) {
    s != "" && forall i :: 0 <= i < |s| ==> !IsSpace(s[i])
  }

  lemma SignedIsWord(n: int)
    ensures Word(Signed(n)) && '\n' !in Signed(n)
  {
  }

  lemma NumberReads(n: int)
    requires IsInt64(n)
    ensures ParseInt64(Signed(n)) == Some(n)
  {
    if n < 0 {
      ValueDecimal(-n);
      assert Signed(n)[1..] == Decimal(-n);
    } else {
      ValueDecimal(n);
      assert IsDigit(Signed(n)[0]);
    }
  }

  lemma {:induction false} WordLengthIs(word: string, rest: string)
    requires forall i :: 0 <= i < |word| ==> !IsSpace(word[i])
    requires rest == "" || IsSpace(rest[0])
    ensures WordLength(word + rest) == |word|
  {
    hide IsSpace;
    var s, n := word + rest, WordLength(word + rest);
    assert forall i :: 0 <= i < |word| ==> s[i] == word[i];
    assert rest != "" ==> s[|word|] == rest[0];
  }

  lemma OneField(word: string)
    requires Word(word)
    ensures Fields(" " + word) == [word]
  {
    hide IsSpace, WordLength;
    SpaceBefore(word);
    WordLengthIs(word, "");
    assert word + "" == word && word[|word|..] == "" && word[..|word|] == word;
    NoFieldsLeft();
  }

  lemma NoFieldsLeft()
    ensures Fields("") == []
  {
  }

  lemma SpaceBefore(s: string)
    requires s == "" || !IsSpace(s[0])
    ensures TrimLeft(" " + s) == s && TrimLeft(s) == s
  {
    assert (" " + s)[1..] == s;
  }

  lemma TwoFields(a: string, b: string)
    requires Word(a) && Word(b)
    ensures Fields(Trim(" " + a + " " + b)) == [a, b]
  {
    hide IsSpace, WordLength, Trim;
    var t := a + (" " + b);
    TrimTwoWords(a, b);
    SpaceBefore(t);
    SpaceIsSpace();
    WordLengthIs(a, " " + b);
    assert t[..|a|] == a && t[|a|..] == " " + b;
    OneField(b);
  }

  lemma SpaceIsSpace()
    ensures IsSpace(' ')
  {
  }

  lemma TrimTwoWords(a: string, b: string)
    requires Word(a) && Word(b)
    ensures Trim(" " + a + " " + b) == a + (" " + b)
  {
    hide IsSpace, Trim;
    var t := a + (" " + b);
    SpaceIsSpace();
    assert " " + a + " " + b == [' '] + t;
    TrimAfterSpace(' ', t);
    assert t[0] == a[0] && t[|t| - 1] == b[|b| - 1];
    assert IsTrimmed(t);
    var r := Trim(t);
  }

  lemma TimeReads(time: int, zone: string)
    requires IsInt64(time) && Word(zone)
    ensures TimeAfter(" " + Signed(time) + " " + zone) == Some(time)
  {
    hide Fields, Trim, ParseInt64, Signed;
    SignedIsWord(time);
    TwoFields(Signed(time), zone);
    NumberReads(time);
  }

  lemma IndexOfAt(front: string, c: char, rest: string)
    requires c !in front
    ensures IndexOf(front + [c] + rest, c) == Some(|front|)
  {
    hide IndexOf;
    var s := front + [c] + rest;
    assert s[|front|] == c && forall i :: 0 <= i < |front| ==> s[i] == front[i];
  }

  lemma IndexOfWithin(front: string, c: char, rest: string)
    requires c in front
    ensures IndexOf(front + rest, c).Some? && IndexOf(front + rest, c).value < |front|
  {
    hide IndexOf;
    var s := front + rest;
    var i :| 0 <= i < |front| && front[i] == c;
    assert s[i] == c;
  }

  /** A name and an address that an author line can hold. */
  predicate Signable(name: string, email: string) {
    '<' !in name && '>' !in name && IsTrimmed(name) && '>' !in email
  }

  lemma LineParts(name: string, email: string, time: int, zone: string)
    ensures var line, stamp := Stamped(AuthorOf(name, email), time, zone), " " + Signed(time) + " " + zone;
            && line == (name + " ") + ['<'] + (email + ">" + stamp)
            && line == (name + " <") + (email + ">" + stamp)
            && line == (name + " <" + email) + ['>'] + stamp
            && line == name + (" <" + email + ">" + stamp)
            && |line| > |name|
  {
    hide Signed;
  }

  lemma TrimShorter(s: string)
    ensures |Trim(s)| <= |s|
  {
    assert TrimRight(TrimLeft(s)) <= TrimLeft(s);
  }

  lemma TrimName(name: string)
    ensures Trim(name + " ") == name <==> IsTrimmed(name)
  {
    hide TrimLeft, TrimRight;
    TrimEitherFirst(name + " ");
    TrimEitherFirst(name);
    assert name + " " == name + [' '];
    TrimRightBeforeSpace(name, ' ');
    var r := Trim(name);
  }

  /** Where the brackets of a printed author are. */
  lemma BracketsOf(name: string, email: string, time: int, zone: string)
    requires '<' !in name && '>' !in name
    ensures var line := Stamped(AuthorOf(name, email), time, zone);
            && Brackets(line).Some? && Brackets(line).value.0 == |name| + 1
            && (if '>' in email then Brackets(line).value.1 < |name| + 2 + |email|
                else Brackets(line).value.1 == |name| + 2 + |email|)
  {
    hide Stamped, Signed, IndexOf, AuthorOf;
    var stamp := " " + Signed(time) + " " + zone;
    LineParts(name, email, time, zone);
    IndexOfAt(name + " ", '<', email + ">" + stamp);
    if '>' in email {
      IndexOfWithin(name + " <" + email, '>', ['>'] + stamp);
      assert (name + " <" + email) + ['>'] + stamp == (name + " <" + email) + (['>'] + stamp);
      NotBefore(name + " <", '>', email + ">" + stamp);
    } else {
      IndexOfAt(name + " <" + email, '>', stamp);
    }
  }

  lemma NotBefore(front: string, c: char, rest: string)
    requires c !in front && c in rest
    ensures IndexOf(front + rest, c).Some? && IndexOf(front + rest, c).value >= |front|
  {
    hide IndexOf;
    var s := front + rest;
    var i :| 0 <= i < |rest| && rest[i] == c;
    assert s[|front| + i] == c && forall k :: 0 <= k < |front| ==> s[k] == front[k];
  }

  /** A name with brackets in it is not read back. */
  lemma BracketsInName(c: CommitFields, name: string, email: string, time: int, zone: string)
    requires '<' in name || '>' in name
    ensures ReadAuthor(c, Stamped(AuthorOf(name, email), time, zone)).authorName != name
  {
    hide Stamped, Signed, IndexOf, AuthorOf, Trim, TimeAfter;
    var line, stamp := Stamped(AuthorOf(name, email), time, zone), " " + Signed(time) + " " + zone;
    LineParts(name, email, time, zone);
    if '<' in name {
      IndexOfWithin(name, '<', " <" + email + ">" + stamp);
      TrimShorter(line[..IndexOf(line, '<').value]);
    } else {
      IndexOfAt(name + " ", '<', email + ">" + stamp);
      IndexOfWithin(name, '>', " <" + email + ">" + stamp);
    }
  }

  /** Name and address of an author line are read back exactly if the line can hold them; then the time is, too. */
  lemma AuthorReads(c: CommitFields, name: string, email: string, time: int, zone: string)
    requires IsInt64(time) && Word(zone)
    ensures var r := ReadAuthor(c, Stamped(AuthorOf(name, email), time, zone));
            && (r.authorName == name && r.authorEmail == email <==> Signable(name, email))
            && (Signable(name, email) ==> r.authorTime == time)
  {
    hide Stamped, Signed, AuthorOf, Trim, TimeAfter, Brackets, IsTrimmed;
    if '<' in name || '>' in name {
      BracketsInName(c, name, email, time, zone);
    } else {
      var line := Stamped(AuthorOf(name, email), time, zone);
      BracketsOf(name, email, time, zone);
      LineSlices(name, email, time, zone);
      TrimName(name);
      if '>' !in email {
        TimeReads(time, zone);
      }
    }
  }

  lemma LineSlices(name: string, email: string, time: int, zone: string)
    ensures var line, n, m := Stamped(AuthorOf(name, email), time, zone), |name|, |email|;
            && |line| > n + m + 2
            && line[..n + 1] == name + " " && line[n + 2..n + 2 + m] == email
            && line[n + 3 + m..] == " " + Signed(time) + " " + zone
  {
    hide Stamped, Signed, AuthorOf;
    LineParts(name, email, time, zone);
  }

  // ---------- Which commits survive ----------

  /** The options with which a commit of these fields is written. */
  function OptionsFor(c: CommitFields, committer: string, committerTime: int): CommitOptions {
    CommitOptions(c.tree, c.parents, AuthorOf(c.authorName, c.authorEmail), committer, c.message, c.authorTime,
                  committerTime)
  }

  /** One-line name and address that an author line can hold, a trimmed message, and a time that is given. */
  predicate Survives(c: CommitFields, now: int) {
    && Signable(c.authorName, c.authorEmail) && '\n' !in c.authorName && '\n' !in c.authorEmail
    && IsTrimmed(c.message) && TimeOr(c.authorTime, now) == c.authorTime
  }

  /** Object ids and the committer's identity are single words or lines, and times have 64 bits. */
  ghost predicate Writable(c: CommitFields, committer: string, clock: Clock) {
    && '\n' !in c.tree && (forall i :: 0 <= i < |c.parents| ==> '\n' !in c.parents[i]) && '\n' !in committer
    && IsInt64(c.authorTime) && IsInt64(clock.now) && Word(clock.authorZone) && Word(clock.committerZone)
  }

  lemma HeaderIsLines(c: CommitFields, committer: string, committerTime: int, clock: Clock)
    requires Writable(c, committer, clock) && '\n' !in c.authorName && '\n' !in c.authorEmail
    ensures AllLines(HeaderLines(OptionsFor(c, committer, committerTime), clock))
  {
    hide Stamped, AuthorOf, AllLines, IsSpace, TimeOr;
    var opts := OptionsFor(c, committer, committerTime);
    AuthorOneLine(c.authorName, c.authorEmail);
    AuthorGiven(c.authorName, c.authorEmail);
    var author := Stamped(Author(opts), TimeOr(opts.authorTime, clock.now), clock.authorZone);
    var who := Stamped(Committer(opts), TimeOr(opts.committerTime, clock.now), clock.committerZone);
    StampedOneLine(Author(opts), TimeOr(opts.authorTime, clock.now), clock.authorZone);
    StampedOneLine(Committer(opts), TimeOr(opts.committerTime, clock.now), clock.committerZone);
    HeaderLine("tree ", opts.tree);
    HeaderLine("author ", author);
    HeaderLine("committer ", who);
    ParentsAreLines(opts.parents);
    var front := ["tree " + opts.tree] + ParentLines(opts.parents);
    LinesTogether(["tree " + opts.tree], ParentLines(opts.parents));
    LinesTogether(front, ["author " + author]);
    LinesTogether(front + ["author " + author], ["committer " + who]);
  }

  lemma HeaderLine(key: string, value: string)
    requires key != "" && '\n' !in key && '\n' !in value
    ensures AllLines([key + value])
  {
  }

  lemma ParentsAreLines(parents: seq<string>)
    requires forall i :: 0 <= i < |parents| ==> '\n' !in parents[i]
    ensures AllLines(ParentLines(parents))
  {
  }

  lemma LinesTogether(a: seq<string>, b: seq<string>)
    requires AllLines(a) && AllLines(b)
    ensures AllLines(a + b)
  {
  }

  lemma AuthorOneLine(name: string, email: string)
    requires '\n' !in name && '\n' !in email
    ensures '\n' !in AuthorOf(name, email)
  {
  }

  lemma StampedOneLine(who: string, time: int, zone: string)
    requires '\n' !in who && Word(zone)
    ensures '\n' !in Stamped(who, time, zone)
  {
    hide Signed, Word;
    SignedIsWord(time);
    WordOneLine(zone);
  }

  lemma WordOneLine(s: string)
    requires Word(s)
    ensures '\n' !in s
  {
  }

  ghost predicate NamesOneLine(c: CommitFields) {
    '\n' !in c.authorName && '\n' !in c.authorEmail
  }

  lemma HeaderNamesOneLine(c: CommitFields, line: string)
    requires NamesOneLine(c) && '\n' !in line
    ensures NamesOneLine(ReadHeader(c, line))
  {
    hide Trim, TimeAfter, CutAt, IndexOf;
    match CutAt(line, ' ')
    case Whole =>
    case Parts(key, value) =>
      if key == "author" && Brackets(value).Some? {
        var (i, j) := Brackets(value).value;
        if '\n' in Trim(value[..i]) {
          TrimWithin(value[..i], '\n');
        }
      }
  }

  lemma {:induction false} LinesNamesOneLine(c: CommitFields, lines: seq<string>)
    requires NamesOneLine(c) && forall i :: 0 <= i < |lines| ==> '\n' !in lines[i]
    ensures NamesOneLine(ReadLines(c, lines))
    decreases |lines|
  {
    hide ReadHeader, NamesOneLine, Trim, Lines.Join;
    if lines != [] {
      if lines[0] == "" {
        SameNames(c, c.(message := Trim(Lines.Join(lines[1..], '\n'))));
      } else {
        HeaderNamesOneLine(c, lines[0]);
        LinesNamesOneLine(ReadHeader(c, lines[0]), lines[1..]);
      }
    }
  }

  lemma SameNames(c: CommitFields, c': CommitFields)
    requires c'.authorName == c.authorName && c'.authorEmail == c.authorEmail
    ensures NamesOneLine(c') <==> NamesOneLine(c)
  {
  }

  lemma ParsedOneLine(text: string)
    ensures NamesOneLine(Parsed(text))
  {
    hide ReadLines, Lines.Split;
    LinesNamesOneLine(NoFields(), Lines.Split(text, '\n'));
  }

  /** A commit is read back as it was written, exactly if it survives. */
  lemma CommitRoundTrip(c: CommitFields, committer: string, committerTime: int, clock: Clock)
    requires Writable(c, committer, clock)
    ensures Parsed(TextOf(OptionsFor(c, committer, committerTime), clock)) == c <==> Survives(c, clock.now)
  {
    hide Parsed, TextOf, ReadAuthor, Stamped, Trim, IsTrimmed, Writable, Signable, AuthorOf, HeaderLines, AllLines;
    var opts := OptionsFor(c, committer, committerTime);
    ParsedOneLine(TextOf(opts, clock));
    if '\n' !in c.authorName && '\n' !in c.authorEmail {
      HeaderIsLines(c, committer, committerTime, clock);
      ParsedText(opts, clock);
      AuthorGiven(c.authorName, c.authorEmail);
      ClockOk(c, committer, clock);
      var c0 := NoFields().(tree := opts.tree, parents := opts.parents);
      AuthorReads(c0, c.authorName, c.authorEmail, TimeOr(c.authorTime, clock.now), clock.authorZone);
      ReadAuthorKeeps(c0, Stamped(Author(opts), TimeOr(c.authorTime, clock.now), clock.authorZone));
      TrimFixpoint(c.message);
    }
  }

  lemma ReadAuthorKeeps(c: CommitFields, line: string)
    ensures var r := ReadAuthor(c, line); r.tree == c.tree && r.parents == c.parents
  {
    hide Trim, TimeAfter, Brackets;
  }

  lemma AuthorGiven(name: string, email: string)
    ensures AuthorOf(name, email) != ""
  {
  }

  lemma ClockOk(c: CommitFields, committer: string, clock: Clock)
    requires Writable(c, committer, clock)
    ensures IsInt64(TimeOr(c.authorTime, clock.now)) && Word(clock.authorZone)
  {
  }

  // ---------- Commits that were read ----------

  /** What was read from an author line can be written to one, unless the line had no brackets in order. */
  ghost predicate ReadAsLine(c: CommitFields) {
    && (Signable(c.authorName, c.authorEmail) || (Brackets(c.authorName).None? && '>' !in c.authorEmail))
    && IsInt64(c.authorTime) && IsTrimmed(c.message)
  }

  lemma ReadAuthorSignable(c: CommitFields, line: string)
    requires ReadAsLine(c)
    ensures ReadAsLine(ReadAuthor(c, line))
  {
    hide Trim, TimeAfter, IndexOf;
    EmailSignable(c);
    if Brackets(line).Some? {
      var (i, j) := Brackets(line).value;
      BracketsApart(line, i, j);
      TrimmedPart(line[..i], '<');
      TrimmedPart(line[..i], '>');
      TimeInRange(line[j + 1..]);
    }
  }

  lemma EmailSignable(c: CommitFields)
    requires ReadAsLine(c)
    ensures '>' !in c.authorEmail
  {
    hide IsTrimmed, Brackets;
  }

  lemma BracketsApart(line: string, i: nat, j: nat)
    requires Brackets(line) == Some((i, j))
    ensures i < j < |line| && '<' !in line[..i] && '>' !in line[..i] && '>' !in line[i + 1..j]
  {
    hide IndexOf;
    assert forall k :: 0 <= k < j ==> line[..j][k] == line[k];
  }

  lemma TrimmedPart(s: string, c: char)
    ensures IsTrimmed(Trim(s)) && (c !in s ==> c !in Trim(s))
  {
    hide TrimLeft, TrimRight;
    var r := Trim(s);
    if c in Trim(s) {
      TrimWithin(s, c);
    }
  }

  lemma TimeInRange(rest: string)
    ensures TimeAfter(rest).Some? ==> IsInt64(TimeAfter(rest).value)
  {
    hide Fields, Trim;
  }

  lemma HeaderRead(c: CommitFields, line: string)
    requires ReadAsLine(c)
    ensures ReadAsLine(ReadHeader(c, line))
  {
    hide ReadAuthor, IsTrimmed, Brackets, Signable, CutAt;
    match CutAt(line, ' ')
    case Whole =>
    case Parts(key, value) => ReadAuthorSignable(c, value);
  }

  lemma {:induction false} LinesRead(c: CommitFields, lines: seq<string>)
    requires ReadAsLine(c)
    ensures ReadAsLine(ReadLines(c, lines))
    decreases |lines|
  {
    hide ReadHeader, ReadAsLine, Trim, Lines.Join;
    if lines != [] {
      if lines[0] == "" {
        MessageRead(c, Lines.Join(lines[1..], '\n'));
      } else {
        HeaderRead(c, lines[0]);
        LinesRead(ReadHeader(c, lines[0]), lines[1..]);
      }
    }
  }

  lemma MessageRead(c: CommitFields, text: string)
    requires ReadAsLine(c)
    ensures ReadAsLine(c.(message := Trim(text)))
  {
    hide Trim, IsTrimmed, Brackets, Signable;
    TrimmedPart(text, ' ');
  }

  /**
   A commit that was read from an object survives being written again, exactly if name and address
   can stand on an author line and the time is given.  The first can only fail if there was
   an author line without brackets in order, and the time is missing where it was not readable.
   */
  lemma ReadCommitSurvives(text: string, now: int)
    ensures var c := Parsed(text);
            && (Survives(c, now) <==>
                  Signable(c.authorName, c.authorEmail) && TimeOr(c.authorTime, now) == c.authorTime)
            && (Signable(c.authorName, c.authorEmail) || Brackets(c.authorName).None?)
            && IsInt64(c.authorTime)
  {
    hide ReadLines, Lines.Split, Signable, Brackets;
    ParsedOneLine(text);
    NoFieldsRead();
    LinesRead(NoFields(), Lines.Split(text, '\n'));
  }

  lemma NoFieldsRead()
    ensures ReadAsLine(NoFields())
  {
  }
}
