/** Parsing a rendered blame gives back the lines it was rendered from. */
module BlameRoundTrip {
  import opened Wrappers
  import opened Text
  import opened Widths
  import opened Blame

  // ---------------------------------------------------------------------------
  // From text to lines
  // ---------------------------------------------------------------------------

  function StripAll(lines: seq<string>): seq<string> {
    if lines == [] then [] else [StripCr(lines[0])] + StripAll(lines[1..])
  }

  predicate NoNewlines(lines: seq<string>) {
    forall i :: 0 <= i < |lines| ==> '\n' !in lines[i]
  }

  /** Splitting terminated lines gives the lines back, less a carriage return at their end. */
  lemma {:induction false} LinesOfUnlines(lines: seq<string>)
    requires NoNewlines(lines)
    ensures Lines(Unlines(lines)) == StripAll(lines)
  {
    if lines != [] {
      var text, line := Unlines(lines), lines[0];
      assert text == line + "\n" + Unlines(lines[1..]);
      assert text[..|line|] == line;
      FirstIndexAt(text, '\n', |line|);
      assert text[|line| + 1..] == Unlines(lines[1..]);
      LinesOfUnlines(lines[1..]);
    }
  }

  lemma StripCrIs(line: string)
    ensures StripCr(line + "\r") == line
    ensures (line == "" || line[|line| - 1] != '\r') ==> StripCr(line) == line
  {
  }

  /** A last line without a newline is a line, and keeps its carriage return. */
  lemma {:induction false} LastLineKept(lines: seq<string>, last: string)
    requires NoNewlines(lines) && last != "" && '\n' !in last
    ensures Lines(Unlines(lines) + last) == StripAll(lines) + [last]
  {
    var text := Unlines(lines) + last;
    if lines == [] {
      assert text == last && last[..|last|] == last;
      FirstIndexAt(last, '\n', |last|);
    } else {
      var line := lines[0];
      assert text == line + "\n" + (Unlines(lines[1..]) + last);
      assert text[..|line|] == line;
      FirstIndexAt(text, '\n', |line|);
      assert text[|line| + 1..] == Unlines(lines[1..]) + last;
      LastLineKept(lines[1..], last);
    }
  }

  // ---------------------------------------------------------------------------
  // Numbers, headers, details
  // ---------------------------------------------------------------------------

  lemma DecimalHas(n: nat, c: char)
    requires !IsDigit(c)
    ensures c !in Decimal(n)
  {
  }

  lemma U32OfDecimal(n: nat)
    ensures ParseU32(Decimal(n)) == if n <= U32_MAX then Some(n) else None
  {
    DigitsOfDecimal(n);
    assert IsDigit(Decimal(n)[0]);
  }

  lemma NegativeReadsBack(n: int)
    requires n < 0
    ensures ParseI64("-" + Decimal(-n)) == InI64(n)
  {
    var s := "-" + Decimal(-n);
    assert s[0] == '-' && s[1..] == Decimal(-n);
    DigitsOfDecimal(-n);
  }

  lemma NaturalReadsBack(n: nat)
    ensures ParseI64(Decimal(n)) == InI64(n)
  {
    assert IsDigit(Decimal(n)[0]);
    DigitsOfDecimal(n);
  }

  lemma I64OfDecimal(n: int)
    ensures ParseI64(SignedDecimal(n)) == InI64(n)
  {
    if n < 0 {
      NegativeReadsBack(n);
    } else {
      NaturalReadsBack(n);
    }
  }

  lemma {:induction false} TrimNothing(s: string)
    requires s != "" ==> !IsWhitespace(s[0]) && !IsWhitespace(s[|s| - 1])
    ensures Trim(s) == s
  {
  }

  lemma TimeSurvives(n: int)
    ensures ParseI64(Trim(SignedDecimal(n))) == InI64(n)
  {
    var s := SignedDecimal(n);
    assert n < 0 ==> s[0] == '-';
    assert IsDigit(s[|s| - 1]);
    assert n >= 0 ==> IsDigit(s[0]);
    TrimNothing(s);
    I64OfDecimal(n);
  }

  lemma HexDigitIff(c: char)
    ensures IsHexDigit(c) <==> c in HEX
  {
  }

  /** The parser takes a word for a commit id exactly when it has forty characters, each a hexadecimal digit. */
  lemma ShaIff(s: string)
    ensures IsSha(s) <==> IsCommitId(s)
  {
    forall i | 0 <= i < |s|
      ensures IsHexDigit(s[i]) <==> s[i] in HEX
    {
      HexDigitIff(s[i]);
    }
  }

  lemma ShaHasNoSpace(sha: string)
    requires IsSha(sha)
    ensures ' ' !in sha
  {
  }

  lemma WordThen(word: string, rest: string)
    requires ' ' !in word
    ensures FirstWord(word + " " + rest) == word && AfterWord(word + " " + rest) == Some(rest)
  {
    var line := word + " " + rest;
    assert line[..|word|] == word && line[|word| + 1..] == rest;
    FirstIndexAt(line, ' ', |word|);
  }

  lemma OneWord(word: string)
    requires ' ' !in word
    ensures FirstWord(word) == word
  {
    assert word[..|word|] == word;
    FirstIndexAt(word, ' ', |word|);
  }

  function CountText(e: Entry): string {
    if e.count.Some? then " " + Decimal(e.count.value) else ""
  }

  lemma FinalLineReadsBack(e: Entry)
    ensures FirstWord(Decimal(e.finalLine) + CountText(e)) == Decimal(e.finalLine)
  {
    DecimalHas(e.finalLine, ' ');
    if e.count.Some? {
      assert Decimal(e.finalLine) + CountText(e) == Decimal(e.finalLine) + " " + Decimal(e.count.value);
      WordThen(Decimal(e.finalLine), Decimal(e.count.value));
    } else {
      assert Decimal(e.finalLine) + CountText(e) == Decimal(e.finalLine);
      OneWord(Decimal(e.finalLine));
    }
  }

  function LineText(e: Entry): string {
    Decimal(e.origLine) + " " + (Decimal(e.finalLine) + CountText(e))
  }

  lemma HeaderBlocks(e: Entry)
    ensures HeaderText(e) == e.sha + " " + LineText(e)
  {
  }

  /** The second and third words of a header are its two line numbers. */
  lemma LinesReadBack(e: Entry)
    ensures AfterWord(LineText(e)) == Some(Decimal(e.finalLine) + CountText(e))
  {
    DecimalHas(e.origLine, ' ');
    WordThen(Decimal(e.origLine), Decimal(e.finalLine) + CountText(e));
  }

  /** The header of an entry reads back as its commit and final line. */
  lemma HeaderReadsBack(e: Entry)
    requires IsCommitId(e.sha) && e.finalLine <= U32_MAX
    ensures ParseHeaderLine(HeaderText(e)) == Some(Header(e.sha, e.finalLine))
  {
    HeaderBlocks(e);
    ShaIff(e.sha);
    ShaHasNoSpace(e.sha);
    WordThen(e.sha, LineText(e));
    LinesReadBack(e);
    FinalLineReadsBack(e);
    U32OfDecimal(e.finalLine);
  }

  /** A line number: decimal digits, perhaps after a plus sign, within 32 bits. */
  lemma ParseU32Iff(s: string, n: nat)
    ensures ParseU32(s) == Some(n)
            <==> n <= 4_294_967_295 && (Digits(s) == Some(n) || (s != "" && s[0] == '+' && Digits(s[1..]) == Some(n)))
  {
    if s != "" && s[0] == '+' {
      DigitsIff(s);
      assert s[0] !in "0123456789";
    }
  }

  /** A time: digits, perhaps after a sign, within 64 bits. */
  lemma ParseI64Iff(s: string, n: int)
    ensures ParseI64(s) == Some(n)
            <==> (&& -9_223_372_036_854_775_808 <= n <= 9_223_372_036_854_775_807
                  && (|| (n >= 0 && Digits(s) == Some(n))
                      || (n >= 0 && s != "" && s[0] == '+' && Digits(s[1..]) == Some(n))
                      || (n <= 0 && s != "" && s[0] == '-' && Digits(s[1..]) == Some(-n))))
  {
    if s != "" && s[0] in {'-', '+'} {
      DigitsIff(s);
      assert s[0] !in "0123456789";
    }
  }

  /** What a header looks like: `tail` is empty or begins with the space before the line count. */
  predicate HeaderShape(line: string, sha: string, first: string, number: string, tail: string) {
    && line == sha + " " + (first + " " + (number + tail))
    && ' ' !in first && ' ' !in number && (tail == "" || tail[0] == ' ')
  }

  lemma WordOf(line: string, word: string, tail: string)
    requires line == word + tail && ' ' !in word && (tail == "" || tail[0] == ' ')
    ensures FirstWord(line) == word
  {
    assert line[..|word|] == word;
    FirstIndexAt(line, ' ', |word|);
  }

  lemma WordsOf(line: string)
    requires AfterWord(line).Some?
    ensures line == FirstWord(line) + " " + AfterWord(line).value && ' ' !in FirstWord(line)
  {
    var i := FirstIndex(line, ' ');
    assert line == line[..i] + [line[i]] + line[i + 1..];
  }

  lemma FirstWordSplits(line: string) returns (tail: string)
    ensures line == FirstWord(line) + tail && ' ' !in FirstWord(line) && (tail == "" || tail[0] == ' ')
  {
    tail := line[FirstIndex(line, ' ')..];
  }

  lemma ShapedIsHeader(line: string, sha: string, n: nat, first: string, number: string, tail: string)
    requires HeaderShape(line, sha, first, number, tail) && IsCommitId(sha) && ParseU32(number) == Some(n)
    ensures ParseHeaderLine(line) == Some(Header(sha, n))
  {
    ShaIff(sha);
    ShaHasNoSpace(sha);
    WordThen(sha, first + " " + (number + tail));
    WordThen(first, number + tail);
    WordOf(number + tail, number, tail);
  }

  lemma HeaderIsShaped(line: string, sha: string, n: nat) returns (first: string, number: string, tail: string)
    requires ParseHeaderLine(line) == Some(Header(sha, n))
    ensures HeaderShape(line, sha, first, number, tail) && IsCommitId(sha) && ParseU32(number) == Some(n)
  {
    ShaIff(sha);
    WordsOf(line);
    var rest := AfterWord(line).value;
    WordsOf(rest);
    first, number := FirstWord(rest), FirstWord(AfterWord(rest).value);
    tail := FirstWordSplits(AfterWord(rest).value);
  }

  /** The lines taken for headers: a commit id, a word, and a line number, with anything after a further space. */
  lemma HeaderLineIff(line: string, sha: string, n: nat)
    ensures ParseHeaderLine(line) == Some(Header(sha, n))
            <==> exists first, number, tail ::
                   HeaderShape(line, sha, first, number, tail) && IsCommitId(sha) && ParseU32(number) == Some(n)
  {
    if ParseHeaderLine(line) == Some(Header(sha, n)) {
      var first, number, tail := HeaderIsShaped(line, sha, n);
    }
    if first, number, tail :|
      HeaderShape(line, sha, first, number, tail) && IsCommitId(sha) && ParseU32(number) == Some(n) {
      ShapedIsHeader(line, sha, n, first, number, tail);
    }
  }

  lemma HeaderIsNoContent(e: Entry)
    requires IsCommitId(e.sha)
    ensures !HasPrefix(HeaderText(e), "\t")
  {
    ShaIff(e.sha);
    assert HeaderText(e)[0] == e.sha[0];
    NoPrefix(HeaderText(e), "\t", 0);
  }

  lemma NoPrefix(line: string, prefix: string, i: nat)
    requires i < |line| && i < |prefix| && line[i] != prefix[i]
    ensures !HasPrefix(line, prefix)
  {
    assert |prefix| <= |line| ==> line[..|prefix|][i] == line[i];
  }

  /** A line whose first word is not forty characters long is no header. */
  lemma NotAHeader(line: string, word: string)
    requires HasPrefix(line, word + " ") && ' ' !in word && |word| < 40
    ensures ParseHeaderLine(line).None?
  {
    var rest := line[|word| + 1..];
    assert line == (word + " ") + rest;
    WordThen(word, rest);
  }

  lemma PrefixOf(word: string, rest: string)
    ensures HasPrefix(word + rest, word) && (word + rest)[|word|..] == rest
  {
  }

  /** What a detail line does while its commit is the current one. */
  lemma DetailLine(s: ParseState, line: string, word: string)
    requires s.current.Some? && s.current.value.sha in s.commits
    requires HasPrefix(line, word + " ") && ' ' !in word && 0 < |word| < 40 && word[0] != '\t'
    ensures ParseLine(s, line)
            == s.(commits := s.commits[s.current.value.sha := Detail(s.commits[s.current.value.sha], line)])
  {
    NotAHeader(line, word);
    assert line[0] == (word + " ")[0] == word[0];
  }

  lemma DetailOfAuthor(meta: CommitMeta, author: string)
    ensures HasPrefix("author " + author, "author" + " ")
    ensures Detail(meta, "author " + author) == meta.(author := Trim(author))
  {
    var line := "author " + author;
    PrefixOf("author ", author);
    assert line[6] == ' ';
    NoPrefix(line, "author-mail ", 6);
    NoPrefix(line, "author-time ", 6);
  }

  lemma DetailOfMail(meta: CommitMeta, mail: string)
    ensures HasPrefix("author-mail <" + mail + ">", "author-mail" + " ")
    ensures Detail(meta, "author-mail <" + mail + ">") == meta.(authorMail := StripAngleBrackets("<" + mail + ">"))
  {
    var line := "author-mail <" + mail + ">";
    assert line == "author-mail " + ("<" + mail + ">");
    PrefixOf("author-mail ", "<" + mail + ">");
  }

  lemma DetailOfTime(meta: CommitMeta, time: int)
    ensures HasPrefix("author-time " + SignedDecimal(time), "author-time" + " ")
    ensures Detail(meta, "author-time " + SignedDecimal(time))
            == meta.(authorTime := if InI64(time).Some? then time else 0)
  {
    var line := "author-time " + SignedDecimal(time);
    PrefixOf("author-time ", SignedDecimal(time));
    assert line[7] == 't';
    NoPrefix(line, "author-mail ", 7);
    TimeSurvives(time);
  }

  lemma DetailOfSummary(meta: CommitMeta, summary: string)
    ensures HasPrefix("summary " + summary, "summary" + " ")
    ensures Detail(meta, "summary " + summary) == meta.(summary := Trim(summary))
  {
    var line := "summary " + summary;
    PrefixOf("summary ", summary);
    assert line[0] == 's';
    NoPrefix(line, "author-mail ", 0);
    NoPrefix(line, "author-time ", 0);
    NoPrefix(line, "author ", 0);
  }

  // ---------------------------------------------------------------------------
  // Entries
  // ---------------------------------------------------------------------------

  lemma {:induction false} ParseConcat(s: ParseState, a: seq<string>, b: seq<string>)
    ensures ParseFrom(s, a + b) == ParseFrom(ParseFrom(s, a), b)
    decreases |a|
  {
    if a == [] {
      assert a + b == b;
    } else {
      assert (a + b)[0] == a[0] && (a + b)[1..] == a[1..] + b;
      ParseConcat(ParseLine(s, a[0]), a[1..], b);
    }
  }

  lemma ParseOne(s: ParseState, line: string)
    ensures ParseFrom(s, [line]) == ParseLine(s, line)
  {
    assert [line][1..] == [];
    assert ParseFrom(ParseLine(s, line), []) == ParseLine(s, line);
  }

  /** Unknown detail lines change nothing. */
  lemma {:induction false} FillerChangesNothing(s: ParseState, lines: seq<string>)
    requires AllFiller(lines)
    requires s.current.Some? && s.current.value.sha in s.commits
    ensures ParseFrom(s, lines) == s
    decreases |lines|
  {
    if lines != [] {
      assert IsFiller(lines[0]);
      var sha := s.current.value.sha;
      assert s.commits[sha := s.commits[sha]] == s.commits;
      assert AllFiller(lines[1..]);
      FillerChangesNothing(s, lines[1..]);
    }
  }

  lemma FillerThen(s: ParseState, filler: seq<string>, line: string)
    requires AllFiller(filler)
    requires s.current.Some? && s.current.value.sha in s.commits
    ensures ParseFrom(s, filler + [line]) == ParseLine(s, line)
  {
    FillerChangesNothing(s, filler);
    ParseConcat(s, filler, [line]);
    ParseOne(s, line);
  }

  function WithMeta(s: ParseState, meta: CommitMeta): ParseState
    requires s.current.Some?
  {
    s.(commits := s.commits[s.current.value.sha := meta])
  }

  predicate Open(s: ParseState) {
    s.current.Some? && s.current.value.sha in s.commits
  }

  lemma WithMetaTwice(s: ParseState, m: CommitMeta, n: CommitMeta)
    requires Open(s)
    ensures WithMeta(WithMeta(s, m), n) == WithMeta(s, n)
  {
    assert s.commits[s.current.value.sha := m][s.current.value.sha := n] == s.commits[s.current.value.sha := n];
  }

  function AuthorLines(meta: CommitMeta, f: Filler): seq<string> {
    (f.afterHeader + ["author " + meta.author]) + (f.afterAuthor + ["author-mail <" + meta.authorMail + ">"])
  }

  function SummaryLines(meta: CommitMeta, f: Filler): seq<string> {
    (f.afterTime + ["summary " + meta.summary]) + f.afterSummary
  }

  function TimeLines(meta: CommitMeta, f: Filler): seq<string> {
    (f.afterMail + ["author-time " + SignedDecimal(meta.authorTime)]) + SummaryLines(meta, f)
  }

  function CurrentMeta(s: ParseState): CommitMeta
    requires Open(s)
  {
    s.commits[s.current.value.sha]
  }

  lemma WithMetaHolds(s: ParseState, m: CommitMeta)
    requires Open(s)
    ensures Open(WithMeta(s, m)) && CurrentMeta(WithMeta(s, m)) == m
    ensures WithMeta(s, m).current == s.current && WithMeta(s, m).result == s.result
  {
  }

  function AuthorOf(m: CommitMeta, meta: CommitMeta): CommitMeta {
    m.(author := Normal(meta).author, authorMail := Normal(meta).authorMail)
  }

  function SummaryOf(m: CommitMeta, meta: CommitMeta): CommitMeta {
    m.(summary := Normal(meta).summary)
  }

  function TimeOf(m: CommitMeta, meta: CommitMeta): CommitMeta {
    SummaryOf(m.(authorTime := Normal(meta).authorTime), meta)
  }

  lemma MailReadsBack(s: ParseState, meta: CommitMeta, filler: seq<string>)
    requires AllFiller(filler) && Open(s)
    ensures ParseFrom(s, filler + ["author-mail <" + meta.authorMail + ">"])
            == WithMeta(s, CurrentMeta(s).(authorMail := Normal(meta).authorMail))
  {
    var mail := "author-mail <" + meta.authorMail + ">";
    DetailOfMail(CurrentMeta(s), meta.authorMail);
    FillerThen(s, filler, mail);
    DetailLine(s, mail, "author-mail");
  }

  lemma AuthorReadsBack(s: ParseState, meta: CommitMeta, f: Filler)
    requires ValidFiller(f) && Open(s)
    ensures ParseFrom(s, AuthorLines(meta, f)) == WithMeta(s, AuthorOf(CurrentMeta(s), meta))
  {
    var m0, author := CurrentMeta(s), "author " + meta.author;
    DetailOfAuthor(m0, meta.author);
    var m1 := Detail(m0, author);
    BlockThen(s, f.afterHeader, author, "author", f.afterAuthor + ["author-mail <" + meta.authorMail + ">"]);
    WithMetaHolds(s, m1);
    MailReadsBack(WithMeta(s, m1), meta, f.afterAuthor);
    WithMetaTwice(s, m1, AuthorOf(m0, meta));
  }

  lemma SummaryReadsBack(s: ParseState, meta: CommitMeta, f: Filler)
    requires ValidFiller(f) && Open(s)
    ensures ParseFrom(s, SummaryLines(meta, f)) == WithMeta(s, SummaryOf(CurrentMeta(s), meta))
  {
    var m0, summary := CurrentMeta(s), "summary " + meta.summary;
    DetailOfSummary(m0, meta.summary);
    BlockThen(s, f.afterTime, summary, "summary", f.afterSummary);
    WithMetaHolds(s, Detail(m0, summary));
    FillerChangesNothing(WithMeta(s, Detail(m0, summary)), f.afterSummary);
  }

  lemma TimeReadsBack(s: ParseState, meta: CommitMeta, f: Filler)
    requires ValidFiller(f) && Open(s)
    ensures ParseFrom(s, TimeLines(meta, f)) == WithMeta(s, TimeOf(CurrentMeta(s), meta))
  {
    var m0, time := CurrentMeta(s), "author-time " + SignedDecimal(meta.authorTime);
    DetailOfTime(m0, meta.authorTime);
    BlockThen(s, f.afterMail, time, "author-time", SummaryLines(meta, f));
    WithMetaHolds(s, Detail(m0, time));
    SummaryReadsBack(WithMeta(s, Detail(m0, time)), meta, f);
    WithMetaTwice(s, Detail(m0, time), TimeOf(m0, meta));
  }

  lemma DetailBlocks(meta: CommitMeta, f: Filler)
    ensures DetailLines(meta, f) == AuthorLines(meta, f) + TimeLines(meta, f)
  {
  }

  /** The detail block of a commit replaces whatever was known of it. */
  lemma DetailsReadBack(s: ParseState, meta: CommitMeta, f: Filler)
    requires ValidFiller(f) && Open(s)
    ensures ParseFrom(s, DetailLines(meta, f)) == WithMeta(s, Normal(meta))
  {
    var m1 := AuthorOf(CurrentMeta(s), meta);
    DetailBlocks(meta, f);
    ParseConcat(s, AuthorLines(meta, f), TimeLines(meta, f));
    AuthorReadsBack(s, meta, f);
    WithMetaHolds(s, m1);
    TimeReadsBack(WithMeta(s, m1), meta, f);
    WithMetaTwice(s, m1, Normal(meta));
  }

  lemma BlockThen(s: ParseState, filler: seq<string>, line: string, word: string, rest: seq<string>)
    requires AllFiller(filler)
    requires s.current.Some? && s.current.value.sha in s.commits
    requires HasPrefix(line, word + " ") && ' ' !in word && 0 < |word| < 40 && word[0] != '\t'
    ensures ParseFrom(s, (filler + [line]) + rest)
            == ParseFrom(WithMeta(s, Detail(s.commits[s.current.value.sha], line)), rest)
  {
    ParseConcat(s, filler + [line], rest);
    FillerThen(s, filler, line);
    DetailLine(s, line, word);
  }

  function DetailsOf(metas: map<string, CommitMeta>, known: set<string>, e: Entry): seq<string>
    requires e.sha in metas
  {
    if e.sha in known then e.filler.afterHeader else DetailLines(metas[e.sha], e.filler)
  }

  /** The state once the header of an entry has been read. */
  function Opened(s: ParseState, e: Entry): ParseState {
    s.(commits := s.commits[e.sha := MetaOf(s.commits, e.sha)], current := Some(Header(e.sha, e.finalLine)))
  }

  lemma OpenedHolds(s: ParseState, e: Entry, m: CommitMeta)
    ensures Open(Opened(s, e)) && CurrentMeta(Opened(s, e)) == MetaOf(s.commits, e.sha)
    ensures WithMeta(Opened(s, e), m).commits == s.commits[e.sha := m]
  {
  }

  lemma HeaderStep(e: Entry, s: ParseState)
    requires ValidEntry(e)
    ensures ParseLine(s, HeaderText(e)) == Opened(s, e)
  {
    HeaderReadsBack(e);
    HeaderIsNoContent(e);
  }

  lemma DetailsStep(metas: map<string, CommitMeta>, known: set<string>, e: Entry, s: ParseState)
    requires ValidEntry(e) && e.sha in metas
    requires Open(s) && s.current.value.sha == e.sha
    requires e.sha in known ==> CurrentMeta(s) == Normal(metas[e.sha])
    ensures ParseFrom(s, DetailsOf(metas, known, e)) == WithMeta(s, Normal(metas[e.sha]))
  {
    if e.sha in known {
      FillerChangesNothing(s, e.filler.afterHeader);
      assert s.commits[e.sha := s.commits[e.sha]] == s.commits;
    } else {
      DetailsReadBack(s, metas[e.sha], e.filler);
    }
  }

  lemma EntryBlocks(metas: map<string, CommitMeta>, known: set<string>, e: Entry)
    requires e.sha in metas
    ensures EntryLines(metas, known, e) == [HeaderText(e)] + (DetailsOf(metas, known, e) + ["\t" + e.content])
  {
  }

  /** One entry adds one line and leaves its commit's details in place. */
  lemma EntryReadsBack(metas: map<string, CommitMeta>, known: set<string>, e: Entry, s: ParseState)
    requires ValidEntry(e) && e.sha in metas
    requires known == s.commits.Keys
    requires e.sha in known ==> s.commits[e.sha] == Normal(metas[e.sha])
    ensures var h := Header(e.sha, e.finalLine);
            ParseFrom(s, EntryLines(metas, known, e))
            == ParseState(s.commits[e.sha := Normal(metas[e.sha])], Some(h),
                          s.result + [Attributed(h, Normal(metas[e.sha]))])
  {
    var m, s1 := Normal(metas[e.sha]), Opened(s, e);
    EntryBlocks(metas, known, e);
    Sandwich(s, HeaderText(e), DetailsOf(metas, known, e), "\t" + e.content);
    HeaderStep(e, s);
    OpenedHolds(s, e, m);
    DetailsStep(metas, known, e, s1);
    WithMetaHolds(s1, m);
    ContentStep(WithMeta(s1, m), e.content);
  }

  lemma Sandwich(s: ParseState, first: string, lines: seq<string>, last: string)
    ensures ParseFrom(s, [first] + (lines + [last])) == ParseLine(ParseFrom(ParseLine(s, first), lines), last)
  {
    ParseConcat(s, [first], lines + [last]);
    ParseOne(s, first);
    ParseConcat(ParseLine(s, first), lines, [last]);
    ParseOne(ParseFrom(ParseLine(s, first), lines), last);
  }

  /** A content line yields one line, with the details its commit has by then. */
  lemma ContentStep(s: ParseState, content: string)
    requires Open(s)
    ensures ParseLine(s, "\t" + content)
            == s.(result := s.result + [Attributed(s.current.value, CurrentMeta(s))])
  {
    PrefixOf("\t", content);
  }

  predicate Settled(metas: map<string, CommitMeta>, commits: map<string, CommitMeta>, shas: set<string>) {
    commits.Keys == shas && forall s :: s in shas ==> s in metas && commits[s] == Normal(metas[s])
  }

  lemma ShasSnoc(entries: seq<Entry>, e: Entry)
    ensures Shas(entries + [e]) == Shas(entries) + {e.sha}
  {
    assert e in entries + [e];
    forall s | s in Shas(entries)
      ensures s in Shas(entries + [e])
    {
      var x :| x in entries && x.sha == s;
      assert x in entries + [e];
    }
  }

  lemma OriginalSnoc(metas: map<string, CommitMeta>, rest: seq<Entry>, last: Entry)
    requires Shas(rest) <= metas.Keys && last.sha in metas && Shas(rest + [last]) <= metas.Keys
    ensures Original(metas, rest + [last])
            == Original(metas, rest) + [Attributed(Header(last.sha, last.finalLine), Normal(metas[last.sha]))]
  {
  }

  predicate ValidEntries(entries: seq<Entry>) {
    forall i :: 0 <= i < |entries| ==> ValidEntry(entries[i])
  }

  predicate ValidMetas(metas: map<string, CommitMeta>) {
    forall s :: s in metas ==> ValidMeta(metas[s])
  }

  const START := ParseState(map[], None, [])

  lemma {:induction false} RenderedReadsBack(metas: map<string, CommitMeta>, entries: seq<Entry>)
    requires Shas(entries) <= metas.Keys && ValidEntries(entries)
    ensures ParseFrom(START, Rendered(metas, entries)).result == Original(metas, entries)
    ensures Settled(metas, ParseFrom(START, Rendered(metas, entries)).commits, Shas(entries))
  {
    if entries != [] {
      var rest, last := entries[..|entries| - 1], entries[|entries| - 1];
      assert entries == rest + [last];
      ShasSnoc(rest, last);
      RenderedReadsBack(metas, rest);
      EntryReadsBack(metas, Shas(rest), last, ParseFrom(START, Rendered(metas, rest)));
      ParseConcat(START, Rendered(metas, rest), EntryLines(metas, Shas(rest), last));
      OriginalSnoc(metas, rest, last);
    }
  }

  /** Lines in front of the first header yield nothing and leave no trace. */
  lemma {:induction false} NothingBeforeHeader(lines: seq<string>)
    requires forall i :: 0 <= i < |lines| ==> ParseHeaderLine(lines[i]).None?
    ensures ParseFrom(START, lines) == START
    decreases |lines|
  {
    if lines != [] {
      NothingBeforeHeader(lines[1..]);
    }
  }

  /** A commit whose details never come has none. */
  lemma BareHeader(e: Entry)
    requires ValidEntry(e)
    ensures ParseFrom(START, [HeaderText(e), "\t" + e.content]).result == [BlameLine(e.finalLine, e.sha, "", "", 0, "")]
  {
    HeaderStep(e, START);
    OpenedHolds(START, e, NO_META);
    ContentStep(Opened(START, e), e.content);
    ParseConcat(START, [HeaderText(e)], ["\t" + e.content]);
    ParseOne(START, HeaderText(e));
    ParseOne(Opened(START, e), "\t" + e.content);
    assert [HeaderText(e)] + ["\t" + e.content] == [HeaderText(e), "\t" + e.content];
  }

  // ---------------------------------------------------------------------------
  // The round trip
  // ---------------------------------------------------------------------------

  /** Lines on which a carriage return at the end makes no difference. */
  predicate Robust(line: string) {
    '\n' !in line && (HasPrefix(line, "\t") || OneLine(line))
  }

  predicate AllRobust(lines: seq<string>) {
    forall i :: 0 <= i < |lines| ==> Robust(lines[i])
  }

  lemma {:induction false} StrippingChangesNothing(s: ParseState, lines: seq<string>)
    requires AllRobust(lines)
    ensures ParseFrom(s, StripAll(lines)) == ParseFrom(s, lines)
    decreases |lines|
  {
    if lines != [] {
      assert Robust(lines[0]);
      assert AllRobust(lines[1..]);
      StrippingChangesNothing(ParseLine(s, lines[0]), lines[1..]);
      assert StripAll(lines)[1..] == StripAll(lines[1..]);
      if HasPrefix(lines[0], "\t") {
        assert lines[0][0] == lines[0][..1][0] == '\t';
        assert HasPrefix(StripCr(lines[0]), "\t");
      }
    }
  }

  lemma RobustConcat(a: seq<string>, b: seq<string>)
    requires AllRobust(a) && AllRobust(b)
    ensures AllRobust(a + b)
  {
  }

  lemma FillerIsRobust(lines: seq<string>)
    requires AllFiller(lines)
    ensures AllRobust(lines)
  {
    forall i | 0 <= i < |lines|
      ensures Robust(lines[i])
    {
      assert IsFiller(lines[i]);
    }
  }

  lemma HeaderIsOneLine(e: Entry)
    requires IsCommitId(e.sha)
    ensures OneLine(HeaderText(e))
  {
    ShaIff(e.sha);
    DecimalHas(e.origLine, '\n');
    DecimalHas(e.finalLine, '\n');
    if e.count.Some? {
      DecimalHas(e.count.value, '\n');
    }
    var line := HeaderText(e);
    assert IsDigit(line[|line| - 1]);
  }

  lemma DetailsAreRobust(meta: CommitMeta, f: Filler)
    requires ValidMeta(meta) && ValidFiller(f)
    ensures AllRobust(DetailLines(meta, f))
  {
    var author, mail := "author " + meta.author, "author-mail <" + meta.authorMail + ">";
    var time, summary := "author-time " + SignedDecimal(meta.authorTime), "summary " + meta.summary;
    assert Robust(author) && Robust(mail) && Robust(summary);
    assert Robust(time) by {
      if meta.authorTime < 0 {
        DecimalHas(-meta.authorTime, '\n');
      } else {
        DecimalHas(meta.authorTime, '\n');
      }
      assert IsDigit(time[|time| - 1]);
    }
    FillerIsRobust(f.afterHeader);
    FillerIsRobust(f.afterAuthor);
    FillerIsRobust(f.afterMail);
    FillerIsRobust(f.afterTime);
    FillerIsRobust(f.afterSummary);
  }

  lemma {:induction false} RenderedIsRobust(metas: map<string, CommitMeta>, entries: seq<Entry>)
    requires Shas(entries) <= metas.Keys && ValidEntries(entries) && ValidMetas(metas)
    ensures AllRobust(Rendered(metas, entries))
  {
    if entries != [] {
      var rest, last := entries[..|entries| - 1], entries[|entries| - 1];
      assert entries == rest + [last];
      ShasSnoc(rest, last);
      RenderedIsRobust(metas, rest);
      HeaderIsOneLine(last);
      DetailsAreRobust(metas[last.sha], last.filler);
      FillerIsRobust(last.filler.afterHeader);
      PrefixOf("\t", last.content);
      var details :=
        if last.sha in Shas(rest) then last.filler.afterHeader else DetailLines(metas[last.sha], last.filler);
      RobustConcat([HeaderText(last)], details);
      RobustConcat([HeaderText(last)] + details, ["\t" + last.content]);
      RobustConcat(Rendered(metas, rest), EntryLines(metas, Shas(rest), last));
    }
  }

  /**
   * Whatever the file's content and the unknown details say, parsing a rendered blame yields one
   * line per entry, in order, with its commit's details as the parser normalises them.
   */
  lemma ParseInvertsRender(metas: map<string, CommitMeta>, entries: seq<Entry>)
    requires Shas(entries) <= metas.Keys && ValidEntries(entries) && ValidMetas(metas)
    ensures Parsed(Unlines(Rendered(metas, entries))) == Original(metas, entries)
  {
    RenderedIsRobust(metas, entries);
    forall i | 0 <= i < |Rendered(metas, entries)|
      ensures '\n' !in Rendered(metas, entries)[i]
    {
      assert Robust(Rendered(metas, entries)[i]);
    }
    LinesOfUnlines(Rendered(metas, entries));
    StrippingChangesNothing(START, Rendered(metas, entries));
    RenderedReadsBack(metas, entries);
  }

  // ---------------------------------------------------------------------------
  // When details survive unchanged
  // ---------------------------------------------------------------------------

  /** The characters with the Unicode property `White_Space`. */
  const WHITE_SPACE: set<char> := {
    '\t', '\n', '\U{B}', '\U{C}', '\r', ' ', '\U{85}', '\U{A0}', '\U{1680}',
    '\U{2000}', '\U{2001}', '\U{2002}', '\U{2003}', '\U{2004}', '\U{2005}',
    '\U{2006}', '\U{2007}', '\U{2008}', '\U{2009}', '\U{200A}',
    '\U{2028}', '\U{2029}', '\U{202F}', '\U{205F}', '\U{3000}'}

  lemma WhitespaceIff(c: char)
    ensures IsWhitespace(c) <==> c in WHITE_SPACE
  {
  }

  predicate Trimmed(s: string) {
    s == "" || (s[0] !in WHITE_SPACE && s[|s| - 1] !in WHITE_SPACE)
  }

  lemma TrimIsFixedIff(s: string)
    ensures Trim(s) == s <==> Trimmed(s)
  {
    if s != "" {
      WhitespaceIff(s[0]);
      WhitespaceIff(s[|s| - 1]);
    }
    if Trimmed(s) {
      TrimNothing(s);
    } else if IsWhitespace(s[0]) {
      TrimStartLength(s[1..]);
      TrimEndLength(TrimStart(s));
    } else {
      TrimEndLength(s[..|s| - 1]);
    }
  }

  predicate Each(s: string, chars: set<char>) {
    forall i :: 0 <= i < |s| ==> s[i] in chars
  }

  lemma {:induction false} TrimStartSplits(s: string) returns (before: string)
    ensures s == before + TrimStart(s) && Each(before, WHITE_SPACE)
    ensures TrimStart(s) != "" ==> TrimStart(s)[0] !in WHITE_SPACE
  {
    before := "";
    if s != "" {
      WhitespaceIff(s[0]);
      if s[0] in WHITE_SPACE {
        var rest := TrimStartSplits(s[1..]);
        before := [s[0]] + rest;
        assert s == [s[0]] + s[1..];
      }
    }
  }

  lemma {:induction false} TrimEndSplits(s: string) returns (after: string)
    ensures s == TrimEnd(s) + after && Each(after, WHITE_SPACE)
    ensures TrimEnd(s) != "" ==> TrimEnd(s)[|TrimEnd(s)| - 1] !in WHITE_SPACE
  {
    after := "";
    if s != "" {
      WhitespaceIff(s[|s| - 1]);
      if s[|s| - 1] in WHITE_SPACE {
        var rest := TrimEndSplits(s[..|s| - 1]);
        after := rest + [s[|s| - 1]];
        assert s == s[..|s| - 1] + [s[|s| - 1]];
      }
    }
  }

  /** Trimming takes white space off both ends, and all of it. */
  lemma TrimSplits(s: string) returns (before: string, after: string)
    ensures s == before + Trim(s) + after && Trimmed(Trim(s))
    ensures Each(before, WHITE_SPACE) && Each(after, WHITE_SPACE)
  {
    before := TrimStartSplits(s);
    after := TrimEndSplits(TrimStart(s));
    assert Trim(s) != "" ==> TrimStart(s)[0] == Trim(s)[0];
  }

  lemma {:induction false} LeadingSplits(s: string, c: char) returns (before: string)
    ensures s == before + DropLeading(s, c) && Each(before, {c})
    ensures DropLeading(s, c) != "" ==> DropLeading(s, c)[0] != c
  {
    before := "";
    if s != "" && s[0] == c {
      var rest := LeadingSplits(s[1..], c);
      before := [c] + rest;
      assert s == [c] + s[1..];
    }
  }

  lemma {:induction false} TrailingSplits(s: string, c: char) returns (after: string)
    ensures s == DropTrailing(s, c) + after && Each(after, {c})
    ensures DropTrailing(s, c) != "" ==> DropTrailing(s, c)[|DropTrailing(s, c)| - 1] != c
  {
    after := "";
    if s != "" && s[|s| - 1] == c {
      var rest := TrailingSplits(s[..|s| - 1], c);
      after := rest + [c];
      assert s == s[..|s| - 1] + [c];
    }
  }

  /** Stripping takes every opening bracket off the front and every closing one off the end of the trimmed text. */
  lemma StripSplits(raw: string) returns (before: string, after: string)
    ensures Trim(raw) == before + StripAngleBrackets(raw) + after && BracketFree(StripAngleBrackets(raw))
    ensures Each(before, {'<'}) && Each(after, {'>'})
  {
    before := LeadingSplits(Trim(raw), '<');
    var inner := DropLeading(Trim(raw), '<');
    after := TrailingSplits(inner, '>');
    assert StripAngleBrackets(raw) != "" ==> inner[0] == StripAngleBrackets(raw)[0];
  }

  lemma {:induction false} TrimStartLength(s: string)
    ensures |TrimStart(s)| <= |s|
  {
    if s != "" {
      TrimStartLength(s[1..]);
    }
  }

  lemma {:induction false} TrimEndLength(s: string)
    ensures |TrimEnd(s)| <= |s|
  {
    if s != "" {
      TrimEndLength(s[..|s| - 1]);
    }
  }

  predicate BracketFree(mail: string) {
    mail == "" || (mail[0] != '<' && mail[|mail| - 1] != '>')
  }

  lemma MailIsFixedIff(mail: string)
    ensures StripAngleBrackets("<" + mail + ">") == mail <==> BracketFree(mail)
  {
    var raw, inner := "<" + mail + ">", mail + ">";
    TrimNothing(raw);
    assert raw[1..] == inner;
    assert DropLeading(raw, '<') == DropLeading(inner, '<');
    if mail != "" && mail[0] == '<' {
      DropLeadingLength(inner[1..]);
      DropTrailingLength(DropLeading(inner[1..], '<'));
    } else {
      assert DropLeading(inner, '<') == inner;
      assert inner[..|mail|] == mail;
      assert DropTrailing(inner, '>') == DropTrailing(mail, '>');
      DropTrailingLength(mail);
    }
  }

  lemma {:induction false} DropLeadingLength(s: string)
    requires s != "" && s[|s| - 1] == '>'
    ensures var t := DropLeading(s, '<'); t != "" && |t| <= |s| && t[|t| - 1] == '>'
  {
    if s[0] == '<' {
      DropLeadingLength(s[1..]);
    }
  }

  lemma {:induction false} DropTrailingLength(s: string)
    ensures |DropTrailing(s, '>')| <= |s|
    ensures s != "" && s[|s| - 1] == '>' ==> |DropTrailing(s, '>')| < |s|
  {
    if s != "" {
      DropTrailingLength(s[..|s| - 1]);
    }
  }

  /** Nothing to trim or strip, and a time that fits: what git itself writes. */
  predicate InNormalForm(meta: CommitMeta) {
    && Trimmed(meta.author) && Trimmed(meta.summary)
    && BracketFree(meta.authorMail)
    && -I64_MAX - 1 <= meta.authorTime <= I64_MAX
  }

  /** The parser returns a commit's details as they were rendered exactly when they are in normal form. */
  lemma DetailsSurviveIff(meta: CommitMeta)
    ensures Normal(meta) == meta <==> InNormalForm(meta)
  {
    TrimIsFixedIff(meta.author);
    TrimIsFixedIff(meta.summary);
    MailIsFixedIff(meta.authorMail);
  }

  function MetaFor(metas: map<string, CommitMeta>, entries: seq<Entry>, i: nat): CommitMeta
    requires Shas(entries) <= metas.Keys && i < |entries|
  {
    assert entries[i] in entries && entries[i].sha in Shas(entries);
    metas[entries[i].sha]
  }

  /** The lines as they were before rendering. */
  function AsWritten(metas: map<string, CommitMeta>, entries: seq<Entry>): seq<BlameLine>
    requires Shas(entries) <= metas.Keys
  {
    seq(|entries|, i requires 0 <= i < |entries| =>
      BlameLine(entries[i].finalLine, entries[i].sha, MetaFor(metas, entries, i).author,
                MetaFor(metas, entries, i).authorMail, MetaFor(metas, entries, i).authorTime,
                MetaFor(metas, entries, i).summary))
  }

  /** Parsing inverts rendering exactly when every commit's details are in normal form. */
  lemma RoundTripIff(metas: map<string, CommitMeta>, entries: seq<Entry>)
    requires Shas(entries) <= metas.Keys && ValidEntries(entries) && ValidMetas(metas)
    ensures Parsed(Unlines(Rendered(metas, entries))) == AsWritten(metas, entries)
            <==> forall i :: 0 <= i < |entries| ==> InNormalForm(MetaFor(metas, entries, i))
  {
    ParseInvertsRender(metas, entries);
    var parsed, written := Original(metas, entries), AsWritten(metas, entries);
    forall i | 0 <= i < |entries|
      ensures parsed[i] == written[i] <==> InNormalForm(MetaFor(metas, entries, i))
    {
      DetailsSurviveIff(MetaFor(metas, entries, i));
    }
    assert parsed == written <==> forall i :: 0 <= i < |entries| ==> parsed[i] == written[i];
  }
}
