/**
 * Parsing `git blame --porcelain` (bin/cli/src/blame.rs), proved to invert the rendering that the
 * section "THE PORCELAIN FORMAT" of git-blame(1) describes.
 */
module Blame {
  import opened Wrappers
  import opened Text
  import opened Widths

  datatype BlameLine = BlameLine(
    line: nat, commit: string, author: string, authorMail: string, authorTime: int, summary: string)

  datatype CommitMeta = CommitMeta(author: string, authorMail: string, authorTime: int, summary: string)

  const NO_META := CommitMeta("", "", 0, "")

  datatype Header = Header(sha: string, finalLine: nat)

  // ---------------------------------------------------------------------------
  // Pieces of text
  // ---------------------------------------------------------------------------

  predicate IsHexDigit(c: char) {
    '0' <= c <= '9' || 'a' <= c <= 'f' || 'A' <= c <= 'F'
  }

  predicate IsSha(s: string) {
    |s| == 40 && forall i :: 0 <= i < 40 ==> IsHexDigit(s[i])
  }

  /** `str::parse::<u32>`: an optional plus sign and digits, in range. */
  function ParseU32(s: string): Option<nat> {
    match Digits(if s != "" && s[0] == '+' then s[1..] else s)
    case None => None
    case Some(n) => if n <= U32_MAX then Some(n) else None
  }

  function InI64(n: int): Option<int> {
    if -I64_MAX - 1 <= n <= I64_MAX then Some(n) else None
  }

  /** `str::parse::<i64>`: an optional sign and digits, in range. */
  function ParseI64(s: string): Option<int> {
    match Digits(if s != "" && s[0] in {'-', '+'} then s[1..] else s)
    case None => None
    case Some(n) =>
      var magnitude: int := n;
      InI64(if s[0] == '-' then -magnitude else magnitude)
  }

  /** The Unicode `White_Space` characters. */
  predicate IsWhitespace(c: char) {
    '\t' <= c <= '\r' || c == ' ' || c == '\U{85}' || c == '\U{A0}' || c == '\U{1680}'
    || '\U{2000}' <= c <= '\U{200A}' || c == '\U{2028}' || c == '\U{2029}' || c == '\U{202F}' || c == '\U{205F}'
    || c == '\U{3000}'
  }

  function TrimStart(s: string): string {
    if s != "" && IsWhitespace(s[0]) then TrimStart(s[1..]) else s
  }

  function TrimEnd(s: string): string {
    if s != "" && IsWhitespace(s[|s| - 1]) then TrimEnd(s[..|s| - 1]) else s
  }

  function Trim(s: string): string {
    TrimEnd(TrimStart(s))
  }

  function DropLeading(s: string, c: char): string {
    if s != "" && s[0] == c then DropLeading(s[1..], c) else s
  }

  function DropTrailing(s: string, c: char): string {
    if s != "" && s[|s| - 1] == c then DropTrailing(s[..|s| - 1], c) else s
  }

  function StripAngleBrackets(raw: string): string {
    DropTrailing(DropLeading(Trim(raw), '<'), '>')
  }

  predicate HasPrefix(s: string, prefix: string) {
    |prefix| <= |s| && s[..|prefix|] == prefix
  }

  function StripCr(line: string): string {
    if line != "" && line[|line| - 1] == '\r' then line[..|line| - 1] else line
  }

  /** `str::lines`: newline-terminated lines, each without a carriage return before its newline. */
  function Lines(text: string): seq<string> {
    if text == "" then []
    else
      var i := FirstIndex(text, '\n');
      if i == |text| then [text] else [StripCr(text[..i])] + Lines(text[i + 1..])
  }

  // ---------------------------------------------------------------------------
  // The parser
  // ---------------------------------------------------------------------------

  function FirstWord(line: string): string {
    line[..FirstIndex(line, ' ')]
  }

  /** What follows the first space, if there is one. */
  function AfterWord(line: string): Option<string> {
    var i := FirstIndex(line, ' ');
    if i == |line| then None else Some(line[i + 1..])
  }

  /** `<40-hex-sha> <orig-line> <final-line> [<count>]`. */
  function ParseHeaderLine(line: string): Option<Header> {
    if !IsSha(FirstWord(line)) || AfterWord(line).None? then None
    else
      var rest := AfterWord(line).value;
      if AfterWord(rest).None? then None
      else
        match ParseU32(FirstWord(AfterWord(rest).value))
        case None => None
        case Some(n) => Some(Header(FirstWord(line), n))
  }

  datatype ParseState = ParseState(commits: map<string, CommitMeta>, current: Option<Header>, result: seq<BlameLine>)

  function MetaOf(commits: map<string, CommitMeta>, sha: string): CommitMeta {
    if sha in commits then commits[sha] else NO_META
  }

  function Attributed(header: Header, meta: CommitMeta): BlameLine {
    BlameLine(header.finalLine, header.sha, meta.author, meta.authorMail, meta.authorTime, meta.summary)
  }

  function Detail(meta: CommitMeta, line: string): CommitMeta {
    if HasPrefix(line, "author-mail ") then meta.(authorMail := StripAngleBrackets(line[12..]))
    else if HasPrefix(line, "author-time ") then
      var time := ParseI64(Trim(line[12..]));
      meta.(authorTime := if time.Some? then time.value else 0)
    else if HasPrefix(line, "author ") then meta.(author := Trim(line[7..]))
    else if HasPrefix(line, "summary ") then meta.(summary := Trim(line[8..]))
    else meta
  }

  function ParseLine(s: ParseState, line: string): ParseState {
    if HasPrefix(line, "\t") then
      if s.current.None? then s
      else s.(result := s.result + [Attributed(s.current.value, MetaOf(s.commits, s.current.value.sha))])
    else
      match ParseHeaderLine(line)
      case Some(h) => s.(commits := s.commits[h.sha := MetaOf(s.commits, h.sha)], current := Some(h))
      case None =>
        if s.current.None? then s
        else
          var sha := s.current.value.sha;
          s.(commits := s.commits[sha := Detail(MetaOf(s.commits, sha), line)])
  }

  function ParseFrom(s: ParseState, lines: seq<string>): ParseState
    decreases |lines|
  {
    if lines == [] then s else ParseFrom(ParseLine(s, lines[0]), lines[1..])
  }

  function Parsed(porcelain: string): seq<BlameLine> {
    ParseFrom(ParseState(map[], None, []), Lines(porcelain)).result
  }

  method ParsePorcelainBlame(porcelain: string) returns (result: seq<BlameLine>)
    ensures result == Parsed(porcelain)
  {
    var commits: map<string, CommitMeta> := map[];
    var current: Option<Header> := None;
    result := [];
    var lines := Lines(porcelain);
    for i := 0 to |lines|
      invariant ParseFrom(ParseState(commits, current, result), lines[i..])
                == ParseFrom(ParseState(map[], None, []), lines)
    {
      var line := lines[i];
      assert lines[i..][0] == line && lines[i..][1..] == lines[i + 1..];
      if HasPrefix(line, "\t") {
        if current.Some? {
          result := result + [Attributed(current.value, MetaOf(commits, current.value.sha))];
        }
        continue;
      }
      var header := ParseHeaderLine(line);
      if header.Some? {
        commits := commits[header.value.sha := MetaOf(commits, header.value.sha)];
        current := header;
        continue;
      }
      if current.None? {
        continue;
      }
      var sha := current.value.sha;
      commits := commits[sha := Detail(MetaOf(commits, sha), line)];
    }
  }

  // ---------------------------------------------------------------------------
  // The format
  // ---------------------------------------------------------------------------

  /** Detail lines the parser does not know, by position. */
  datatype Filler = Filler(
    afterHeader: seq<string>, afterAuthor: seq<string>, afterMail: seq<string>, afterTime: seq<string>,
    afterSummary: seq<string>)

  /** One line of the file with the header in front of it. */
  datatype Entry = Entry(
    sha: string, origLine: nat, finalLine: nat, count: Option<nat>, filler: Filler, content: string)

  function SignedDecimal(n: int): string {
    if n < 0 then "-" + Decimal(-n) else Decimal(n)
  }

  function HeaderText(e: Entry): string {
    e.sha + " " + Decimal(e.origLine) + " " + Decimal(e.finalLine)
    + if e.count.Some? then " " + Decimal(e.count.value) else ""
  }

  function DetailLines(meta: CommitMeta, f: Filler): seq<string> {
    f.afterHeader + ["author " + meta.author]
    + f.afterAuthor + ["author-mail <" + meta.authorMail + ">"]
    + f.afterMail + ["author-time " + SignedDecimal(meta.authorTime)]
    + f.afterTime + ["summary " + meta.summary] + f.afterSummary
  }

  function Shas(entries: seq<Entry>): set<string> {
    set e | e in entries :: e.sha
  }

  /** The details of a commit appear with its first line only. */
  function EntryLines(metas: map<string, CommitMeta>, known: set<string>, e: Entry): seq<string>
    requires e.sha in metas
  {
    [HeaderText(e)]
    + (if e.sha in known then e.filler.afterHeader else DetailLines(metas[e.sha], e.filler))
    + ["\t" + e.content]
  }

  function Rendered(metas: map<string, CommitMeta>, entries: seq<Entry>): seq<string>
    requires Shas(entries) <= metas.Keys
  {
    if entries == [] then []
    else
      var rest, last := entries[..|entries| - 1], entries[|entries| - 1];
      assert last in entries && last.sha in Shas(entries);
      assert Shas(rest) <= Shas(entries) by {
        assert forall e :: e in rest ==> e in entries;
      }
      Rendered(metas, rest) + EntryLines(metas, Shas(rest), last)
  }

  function Unlines(lines: seq<string>): string {
    if lines == [] then "" else lines[0] + "\n" + Unlines(lines[1..])
  }

  /** Text that is one line: no newline inside, no carriage return in front of the next newline. */
  predicate OneLine(s: string) {
    '\n' !in s && (s != "" ==> s[|s| - 1] != '\r')
  }

  predicate IsFiller(line: string) {
    && OneLine(line) && !HasPrefix(line, "\t") && ParseHeaderLine(line).None?
    && !HasPrefix(line, "author-mail ") && !HasPrefix(line, "author-time ")
    && !HasPrefix(line, "author ") && !HasPrefix(line, "summary ")
  }

  predicate AllFiller(lines: seq<string>) {
    forall i :: 0 <= i < |lines| ==> IsFiller(lines[i])
  }

  predicate ValidFiller(f: Filler) {
    AllFiller(f.afterHeader) && AllFiller(f.afterAuthor) && AllFiller(f.afterMail) && AllFiller(f.afterTime)
    && AllFiller(f.afterSummary)
  }

  const HEX: set<char> := {
    '0', '1', '2', '3', '4', '5', '6', '7', '8', '9',
    'a', 'b', 'c', 'd', 'e', 'f', 'A', 'B', 'C', 'D', 'E', 'F'}

  /** Forty hexadecimal digits, in either case. */
  predicate IsCommitId(s: string) {
    |s| == 40 && forall i :: 0 <= i < 40 ==> s[i] in HEX
  }

  predicate ValidEntry(e: Entry) {
    IsCommitId(e.sha) && e.finalLine <= U32_MAX && ValidFiller(e.filler) && '\n' !in e.content
  }

  predicate ValidMeta(meta: CommitMeta) {
    OneLine(meta.author) && '\n' !in meta.authorMail && OneLine(meta.summary)
  }

  /** What the parser makes of a commit's details. */
  function Normal(meta: CommitMeta): CommitMeta {
    CommitMeta(
      Trim(meta.author),
      StripAngleBrackets("<" + meta.authorMail + ">"),
      if InI64(meta.authorTime).Some? then meta.authorTime else 0,
      Trim(meta.summary))
  }

  function Original(metas: map<string, CommitMeta>, entries: seq<Entry>): seq<BlameLine>
    requires Shas(entries) <= metas.Keys
  {
    seq(|entries|, i requires 0 <= i < |entries| =>
      assert entries[i] in entries && entries[i].sha in Shas(entries);
      Attributed(Header(entries[i].sha, entries[i].finalLine), Normal(metas[entries[i].sha])))
  }
}
