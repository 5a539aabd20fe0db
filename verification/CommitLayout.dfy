/**
 The text of a commit object, spelled out: what is written, and what is read from any text, whoever
 wrote it.
 */
module CommitLayout {
  import opened Wrappers
  import opened Strings
  import opened CommitText
  import Lines

  // ---------- Writing ----------

  ghost predicate SpellsNumber(s: string, n: int) {
    if n < 0 then s != "" && s[0] == '-' && SpellsDecimal(s[1..], -n) else SpellsDecimal(s, n)
  }

  function ParentText(parents: seq<string>): string {
    if parents == [] then "" else "parent " + parents[0] + "\n" + ParentText(parents[1..])
  }

  /**
   The lines of a commit object and its message, which ends in a line end.  An author that is not
   given is the standard user, a committer that is not given is the author, and the zero time is now.
   */
  lemma CommitWritten(opts: CommitOptions, clock: Clock) returns (authorTime: string, committerTime: string)
    ensures SpellsNumber(authorTime, if opts.authorTime == -62135596800 then clock.now else opts.authorTime)
    ensures SpellsNumber(committerTime, if opts.committerTime == -62135596800 then clock.now else opts.committerTime)
    ensures var author := if opts.author == "" then "KitKat User <user@kitkat>" else opts.author;
            var committer := if opts.committer == "" then author else opts.committer;
            var m := opts.message;
            TextOf(opts, clock)
            == "tree " + opts.tree + "\n" + ParentText(opts.parents)
               + ("author " + author + " " + authorTime + " " + clock.authorZone + "\n")
               + ("committer " + committer + " " + committerTime + " " + clock.committerZone + "\n")
               + "\n" + (if m != "" && m[|m| - 1] != '\n' then m + "\n" else m)
  {
    hide TextOf, Ended, ParentText, Signed, Stamped, SpellsNumber, HeaderLines, ParentLines;
    var time, time' := TimeOr(opts.authorTime, clock.now), TimeOr(opts.committerTime, clock.now);
    authorTime, committerTime := Signed(time), Signed(time');
    SignedSpells(time);
    SignedSpells(time');
    StampLine("author ", Author(opts), time, clock.authorZone);
    StampLine("committer ", Committer(opts), time', clock.committerZone);
    TextParts(opts, clock);
    HeaderIs(opts, clock);
    HeaderText(opts.tree, opts.parents, "author " + Stamped(Author(opts), time, clock.authorZone),
               "committer " + Stamped(Committer(opts), time', clock.committerZone), Body(opts.message));
  }

  /** The object of a replayed commit: the author is written as name and address, and the committer's time is now. */
  lemma ReplayWritten(c: CommitFields, committer: string, clock: Clock)
    returns (authorTime: string, committerTime: string)
    ensures SpellsNumber(authorTime, if c.authorTime == -62135596800 then clock.now else c.authorTime)
    ensures SpellsNumber(committerTime, clock.now)
    ensures var author := c.authorName + " <" + c.authorEmail + ">";
            var who := if committer == "" then author else committer;
            var m := c.message;
            TextOf(OptionsFor(c, committer, ZERO_TIME), clock)
            == "tree " + c.tree + "\n" + ParentText(c.parents)
               + ("author " + author + " " + authorTime + " " + clock.authorZone + "\n")
               + ("committer " + who + " " + committerTime + " " + clock.committerZone + "\n")
               + "\n" + (if m != "" && m[|m| - 1] != '\n' then m + "\n" else m)
  {
    hide TextOf, SpellsNumber;
    authorTime, committerTime := CommitWritten(OptionsFor(c, committer, ZERO_TIME), clock);
  }

  lemma HeaderText(tree: string, parents: seq<string>, author: string, committer: string, body: string)
    ensures Ended(["tree " + tree] + ParentLines(parents) + [author] + [committer]) + (['\n'] + body)
         == "tree " + tree + "\n" + ParentText(parents) + (author + "\n") + (committer + "\n") + "\n" + body
  {
    hide Ended, ParentText, ParentLines;
    var first := ["tree " + tree];
    EndedParents(first, parents);
    EndedOne(first[0]);
    EndedMore(first + ParentLines(parents), author);
    EndedMore(first + ParentLines(parents) + [author], committer);
  }

  lemma StampLine(key: string, who: string, time: int, zone: string)
    ensures key + Stamped(who, time, zone) + "\n" == key + who + " " + Signed(time) + " " + zone + "\n"
  {
    hide Signed;
  }

  lemma SignedSpells(n: int)
    ensures SpellsNumber(Signed(n), n)
  {
    if n < 0 {
      DecimalSpells(-n);
      assert Signed(n)[1..] == Decimal(-n);
    } else {
      DecimalSpells(n);
    }
  }

  lemma {:induction false} EndedParents(first: seq<string>, parents: seq<string>)
    ensures Ended(first + ParentLines(parents)) == Ended(first) + ParentText(parents)
    decreases |parents|
  {
    hide Ended, ParentLines;
    if parents == [] {
      ParentLinesAre(parents);
      assert first + ParentLines(parents) == first && Ended(first) + "" == Ended(first);
    } else {
      var line := "parent " + parents[0];
      EndedMore(first, line);
      EndedParents(first + [line], parents[1..]);
      ParentLinesFrom(first, parents);
      Regrouped(Ended(first), line, ParentText(parents[1..]));
    }
  }

  lemma ParentLinesFrom(first: seq<string>, parents: seq<string>)
    requires parents != []
    ensures first + ParentLines(parents) == first + ["parent " + parents[0]] + ParentLines(parents[1..])
  {
  }

  lemma Regrouped(front: string, line: string, rest: string)
    ensures front + line + "\n" + rest == front + (line + "\n" + rest)
  {
  }

  // ---------- Reading the author ----------

  /** The first `<` is at `i` and the first `>` behind it at `j`. */
  ghost predicate BracketsAt(line: string, i: int, j: int) {
    && 0 <= i < j < |line| && line[i] == '<' && line[j] == '>'
    && (forall k :: 0 <= k < i ==> line[k] != '<') && (forall k :: 0 <= k < j ==> line[k] != '>')
  }

  /** What an author line means: name and address around the brackets, or all of it the name. */
  lemma AuthorLineReads(c: CommitFields, line: string)
    ensures forall i, j :: BracketsAt(line, i, j) ==>
              ReadAuthor(c, line) == c.(
                authorName := Trim(line[..i]),
                authorEmail := line[i + 1..j],
                authorTime := if TimeAfter(line[j + 1..]).Some? then TimeAfter(line[j + 1..]).value else c.authorTime)
    ensures (forall i, j :: !BracketsAt(line, i, j)) ==> ReadAuthor(c, line) == c.(authorName := line)
  {
    hide Trim, TimeAfter;
    if Brackets(line).Some? {
      var (i, j) := Brackets(line).value;
      assert BracketsAt(line, i, j);
    }
  }

  ghost predicate AreDigits(s: string) {
    s != "" && forall i :: 0 <= i < |s| ==> '0' <= s[i] <= '9'
  }

  /** The number that a word is, if it is one and has 64 bits. */
  ghost predicate IsNumber(word: string, n: int) {
    && -0x8000_0000_0000_0000 <= n < 0x8000_0000_0000_0000 && word != ""
    && var digits := if word[0] == '+' || word[0] == '-' then word[1..] else word;
       && AreDigits(digits)
       && n == if word[0] == '-' then -DigitSum(digits) else DigitSum(digits)
  }

  /** The time is the first of two or more words, if it is a number. */
  lemma TimeMeans(rest: string, left: string, word: string, gap: string, more: string)
    requires rest == left + word + gap + more && AllSpace(left) && Word(word) && AllSpace(gap) && gap != ""
    requires more != "" && !IsSpace(more[0])
    ensures TimeAfter(rest).None? ==> forall n :: !IsNumber(word, n)
    ensures TimeAfter(rest).Some? ==> IsNumber(word, TimeAfter(rest).value)
  {
    hide IsSpace, ParseInt64, TrimLeft, TrimRight, IsNumber;
    var inner := word + gap + more;
    var end := RightSpaces(inner);
    var t := TrimRight(inner);
    LastWordStays(word + gap, more);
    assert t == word + (gap + TrimRight(more)) && t[0] == word[0];
    assert inner == t + end && rest == left + inner;
    TrimMeans(rest, left, t, end);
    WordLengthIs(word, gap + TrimRight(more));
    NothingToTrim(t);
    assert t[..|word|] == word && t[|word|..] == gap + TrimRight(more);
    TrimGap(gap, TrimRight(more));
    WordReads(word);
  }

  /** With fewer than two words there is no time. */
  lemma NoTime(rest: string, left: string, word: string, right: string)
    requires rest == left + word + right && AllSpace(left) && AllSpace(right) && (word == "" || Word(word))
    ensures TimeAfter(rest) == None
  {
    hide IsSpace, ParseInt64, Trim, TrimLeft;
    TrimMeans(rest, left, word, right);
    if word == "" {
      NoFieldsLeft();
    } else {
      NothingToTrim(word);
      WordLengthIs(word, "");
      assert word + "" == word && word[|word|..] == "";
      NoFieldsLeft();
    }
  }

  lemma NothingToTrim(s: string)
    requires s == "" || !IsSpace(s[0])
    ensures TrimLeft(s) == s
  {
  }

  lemma LastWordStays(front: string, more: string)
    requires more != "" && !IsSpace(more[0])
    ensures TrimRight(more) != "" && TrimRight(more)[0] == more[0]
    ensures TrimRight(front + more) == front + TrimRight(more)
  {
    hide IsSpace;
    var c, s := more[0], more[1..];
    assert more == [c] + s;
    TrimRightCons(c, s);
    assert front + more == front + [c] + s;
    TrimRightAfter(front + [c], s);
    TrimRightAfter([c], s);
  }

  lemma TrimGap(gap: string, more: string)
    requires AllSpace(gap) && more != "" && !IsSpace(more[0])
    ensures TrimLeft(gap + more) == more && Fields(gap + more) != []
  {
    hide IsSpace;
    TrimLeftOff(gap, more);
  }

  lemma WordReads(word: string)
    requires word != ""
    ensures ParseInt64(word).None? ==> forall n :: !IsNumber(word, n)
    ensures ParseInt64(word).Some? ==> IsNumber(word, ParseInt64(word).value)
  {
    hide IsNumber, ParseInt64;
    forall n | IsNumber(word, n)
      ensures ParseInt64(word) == Some(n)
    {
      NumberIsRead(word, n);
    }
    ReadIsNumber(word);
  }

  lemma NumberIsRead(word: string, n: int)
    requires IsNumber(word, n)
    ensures ParseInt64(word) == Some(n)
  {
    hide Value, DigitSum;
    var digits := Unsigned(word);
    assert digits == if word[0] == '+' || word[0] == '-' then word[1..] else word;
    assert AllDigits(digits);
    ValueIsDigitSum(digits);
  }

  lemma ReadIsNumber(word: string)
    ensures ParseInt64(word).Some? ==> IsNumber(word, ParseInt64(word).value)
  {
    hide Value, DigitSum, AllDigits;
    DigitsAre(Unsigned(word));
    if AllDigits(Unsigned(word)) {
      ValueIsDigitSum(Unsigned(word));
    }
  }

  // ---------- Reading the lines ----------

  function ParentsIn(lines: seq<string>): seq<string> {
    if lines == [] then []
    else (if "parent " <= lines[0] then [lines[0][7..]] else []) + ParentsIn(lines[1..])
  }

  /** What a header line changes. */
  lemma HeaderLineReads(c: CommitFields, line: string)
    ensures ReadHeader(c, line)
         == if "tree " <= line then c.(tree := line[5..])
            else if "parent " <= line then c.(parents := c.parents + [line[7..]])
            else if "author " <= line then ReadAuthor(c, line[7..])
            else c
  {
    hide ReadAuthor, CutAt;
    if "tree " <= line {
      KeyLine("tree", line);
    } else if "parent " <= line {
      KeyLine("parent", line);
    } else if "author " <= line {
      KeyLine("author", line);
    } else if CutAt(line, ' ').Parts? {
      var cut := CutAt(line, ' ');
      assert line == cut.before + [' '] + cut.after;
      StartsWith(cut.before, line, cut.after);
    }
  }

  lemma KeyLine(key: string, line: string)
    requires ' ' !in key && key + " " <= line
    ensures CutAt(line, ' ') == Parts(key, line[|key| + 1..])
  {
    hide CutAt;
    CutFirst(key, ' ', line[|key| + 1..]);
    assert line == key + [' '] + line[|key| + 1..];
  }

  lemma StartsWith(key: string, line: string, value: string)
    requires line == key + [' '] + value
    ensures key + " " <= line
  {
  }

  /** The header ends before line `n`, at the first empty line or at the end of the text. */
  ghost predicate HeaderEnds(lines: seq<string>, n: int) {
    0 <= n <= |lines| && (n == |lines| || lines[n] == "") && forall i :: 0 <= i < n ==> lines[i] != ""
  }

  /** `line` is the only one of the first `n` lines that begins with `key`. */
  ghost predicate OnlyLine(lines: seq<string>, n: nat, key: string, i: int)
    requires n <= |lines|
  {
    0 <= i < n && key <= lines[i] && forall k :: 0 <= k < n && k != i ==> !(key <= lines[k])
  }

  /**
   What any text with one tree line and one author line in its header is read as, in whatever order
   the lines are and whatever other lines there are.
   */
  lemma CommitReads(text: string, n: nat, t: nat, a: nat)
    requires var lines := Lines.Split(text, '\n');
             HeaderEnds(lines, n) && OnlyLine(lines, n, "tree ", t) && OnlyLine(lines, n, "author ", a)
    ensures var lines := Lines.Split(text, '\n');
            var author := ReadAuthor(CommitFields("", [], "", "", -62135596800, ""), lines[a][7..]);
            Parsed(text)
            == CommitFields(
                 lines[t][5..], ParentsIn(lines[..n]), author.authorName, author.authorEmail, author.authorTime,
                 if n == |lines| then "" else Trim(Lines.Join(lines[n + 1..], '\n')))
  {
    hide ReadLines, ReadAuthor, Lines.Split, Lines.Join, Trim;
    FieldsRead(NoFields(), Lines.Split(text, '\n'), n, t, a);
  }

  /** The effect of the lines from the first on, where the tree and the author line may be over. */
  lemma {:induction false} FieldsRead(c: CommitFields, lines: seq<string>, n: nat, t: int, a: int)
    requires HeaderEnds(lines, n)
    requires if t < 0 then forall k :: 0 <= k < n ==> !("tree " <= lines[k]) else OnlyLine(lines, n, "tree ", t)
    requires if a < 0 then forall k :: 0 <= k < n ==> !("author " <= lines[k]) else OnlyLine(lines, n, "author ", a)
    ensures var author := if a < 0 then c else ReadAuthor(c, lines[a][7..]);
            ReadLines(c, lines)
            == CommitFields(
                 if t < 0 then c.tree else lines[t][5..],
                 c.parents + ParentsIn(lines[..n]), author.authorName, author.authorEmail, author.authorTime,
                 if n == |lines| then c.message else Trim(Lines.Join(lines[n + 1..], '\n')))
    decreases |lines|
  {
    hide ReadAuthor, Lines.Join, Trim, ReadHeader, ReadLines, ParentsIn;
    if n == 0 {
      NoParents(lines);
      LinesEnd(c, lines);
      assert c.parents + [] == c.parents;
    } else {
      var line, rest := lines[0], lines[1..];
      var c' := ReadHeader(c, line);
      LinesGoOn(c, lines);
      FieldsRead(c', rest, n - 1, t - 1, a - 1);
      HeaderLineReads(c, line);
      OneKey(line);
      ParentsMore(c.parents, lines, n);
      if n < |lines| {
        assert rest[n..] == lines[n + 1..];
      }
      if a > 0 {
        SameAuthor(c, c', lines[a][7..]);
      }
      if "author " <= line {
        AuthorOnly(c, line[7..]);
      }
    }
  }

  lemma LinesEnd(c: CommitFields, lines: seq<string>)
    requires lines == [] || lines[0] == ""
    ensures ReadLines(c, lines) == if lines == [] then c else c.(message := Trim(Lines.Join(lines[1..], '\n')))
  {
  }

  lemma LinesGoOn(c: CommitFields, lines: seq<string>)
    requires lines != [] && lines[0] != ""
    ensures ReadLines(c, lines) == ReadLines(ReadHeader(c, lines[0]), lines[1..])
  {
  }

  lemma OneKey(line: string)
    ensures "tree " <= line ==> !("parent " <= line) && !("author " <= line)
    ensures "parent " <= line ==> !("author " <= line)
  {
    assert "tree " <= line ==> line[0] == 't';
    assert "parent " <= line ==> line[0] == 'p';
    assert "author " <= line ==> line[0] == 'a';
  }

  lemma NoParents(lines: seq<string>)
    ensures ParentsIn(lines[..0]) == []
  {
  }

  lemma ParentsMore(parents: seq<string>, lines: seq<string>, n: nat)
    requires 0 < n <= |lines|
    ensures parents + ParentsIn(lines[..n])
         == (if "parent " <= lines[0] then parents + [lines[0][7..]] else parents) + ParentsIn(lines[1..][..n - 1])
  {
    assert lines[..n][1..] == lines[1..][..n - 1];
  }

  lemma AuthorOnly(c: CommitFields, line: string)
    ensures var r := ReadAuthor(c, line); r.tree == c.tree && r.parents == c.parents && r.message == c.message
  {
    hide Brackets, TimeAfter, Trim;
  }

  /** Reading an author line depends on the earlier author only. */
  lemma SameAuthor(c: CommitFields, c': CommitFields, line: string)
    requires c.authorName == c'.authorName && c.authorEmail == c'.authorEmail && c.authorTime == c'.authorTime
    ensures var r, r' := ReadAuthor(c, line), ReadAuthor(c', line);
            r.authorName == r'.authorName && r.authorEmail == r'.authorEmail && r.authorTime == r'.authorTime
  {
    hide Brackets, TimeAfter, Trim;
  }
}
