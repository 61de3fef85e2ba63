/** Skill files with YAML front matter (scripts/node/claude-skill-sync/core.js): reading the metadata and writing the
    converted file. Strings are those of JavaScript; `trim` removes its white space and line terminators. */
module SkillFile {
  import opened Wrappers
  import opened Text

  datatype Skill = Skill(name: string, description: string, body: string)

  datatype SkillError = MissingFrontMatter | MissingName | MissingDescription

  // ----- JavaScript strings -----

  predicate IsSpace(c: char) {
    || '\U{9}' <= c <= '\U{D}' || c == ' ' || c == '\U{A0}' || c == '\U{1680}' || '\U{2000}' <= c <= '\U{200A}'
    || c == '\U{2028}' || c == '\U{2029}' || c == '\U{202F}' || c == '\U{205F}' || c == '\U{3000}' || c == '\U{FEFF}'
  }

  predicate NoLeadingSpace(s: string) {
    s == "" || !IsSpace(s[0])
  }

  predicate NoTrailingSpace(s: string) {
    s == "" || !IsSpace(s[|s| - 1])
  }

  function DropLeading(s: string): (r: string)
    ensures NoLeadingSpace(r) && |r| <= |s|
    ensures r == s <==> NoLeadingSpace(s)
    ensures NoTrailingSpace(s) ==> NoTrailingSpace(r)
  {
    if NoLeadingSpace(s) then s else DropLeading(s[1..])
  }

  function DropTrailing(s: string): (r: string)
    ensures NoTrailingSpace(r) && r <= s
    ensures r == s <==> NoTrailingSpace(s)
    ensures NoLeadingSpace(s) ==> NoLeadingSpace(r)
  {
    if NoTrailingSpace(s) then s else DropTrailing(s[..|s| - 1])
  }

  function TrimJs(s: string): (r: string)
    ensures NoLeadingSpace(r) && NoTrailingSpace(r) && |r| <= |s|
    ensures r == s <==> NoLeadingSpace(s) && NoTrailingSpace(s)
  {
    DropTrailing(DropLeading(s))
  }

  predicate StartsWith(s: string, prefix: string) {
    prefix <= s
  }

  /** Every CRLF becomes LF, in one pass. */
  function NormalizeNewlines(s: string): string {
    if s == "" then ""
    else if StartsWith(s, "\r\n") then "\n" + NormalizeNewlines(s[2..])
    else [s[0]] + NormalizeNewlines(s[1..])
  }

  function JoinLines(lines: seq<string>): string {
    if lines == [] then "" else if |lines| == 1 then lines[0] else lines[0] + "\n" + JoinLines(lines[1..])
  }

  // ----- Reading -----

  predicate Quoted(s: string) {
    s != "" && (s[0] == '"' || s[0] == '\'') && s[|s| - 1] == s[0]
  }

  /** A value on one line, without blanks around it or one pair of quotes; `None` if it is blank. */
  function InlineScalar(value: string): Option<string> {
    var t := TrimJs(value);
    if t == "" then None
    else if Quoted(t) then Some(if |t| == 1 then "" else t[1..|t| - 1])
    else Some(t)
  }

  predicate BlockLine(line: string) {
    line == "" || StartsWith(line, "  ")
  }

  function Unindented(line: string): string
    requires BlockLine(line)
  {
    if line == "" then "" else line[2..]
  }

  /** The lines of a block scalar, without their indentation. */
  function Block(lines: seq<string>): (r: seq<string>)
    ensures |r| <= |lines|
  {
    if lines == [] || !BlockLine(lines[0]) then [] else [Unindented(lines[0])] + Block(lines[1..])
  }

  datatype Metadata = Metadata(name: string, description: string)

  /** Works through the lines; a later entry replaces an earlier one. */
  function ReadLines(lines: seq<string>, m: Metadata): Result<Metadata, SkillError>
    decreases |lines|
  {
    if lines == [] then Success(m)
    else
      var line := lines[0];
      if StartsWith(line, "name:") then
        match InlineScalar(line[5..])
        case None => Failure(MissingName)
        case Some(name) => ReadLines(lines[1..], m.(name := name))
      else if StartsWith(line, "description:") then
        var raw := TrimJs(line[12..]);
        if raw == "" then Failure(MissingDescription)
        else if raw == "|" || raw == ">" then
          var block := Block(lines[1..]);
          ReadLines(lines[1 + |block|..], m.(description := DropTrailing(JoinLines(block))))
        else
          match InlineScalar(raw)
          case None => Failure(MissingDescription)
          case Some(description) => ReadLines(lines[1..], m.(description := description))
      else ReadLines(lines[1..], m)
  }

  function ReadMetadata(frontMatter: string): Result<Metadata, SkillError> {
    match ReadLines(Split(frontMatter, '\n'), Metadata("", ""))
    case Failure(error) => Failure(error)
    case Success(m) =>
      if m.name == "" then Failure(MissingName)
      else if m.description == "" then Failure(MissingDescription)
      else Success(m)
  }

  const OPENING := "---\n"
  const CLOSING := "\n---"

  /** Front matter up to the first closing, and the body behind at most one line break. */
  function ExtractFrontMatter(normalized: string): Option<(string, string)> {
    if !StartsWith(normalized, OPENING) then None
    else
      var rest := normalized[4..];
      match Find(rest, CLOSING)
      case None => None
      case Some(k) =>
        var tail := rest[k + 4..];
        Some((rest[..k], if StartsWith(tail, "\n") then tail[1..] else tail))
  }

  function ParseSkill(source: string): Result<Skill, SkillError> {
    match ExtractFrontMatter(NormalizeNewlines(source))
    case None => Failure(MissingFrontMatter)
    case Some((frontMatter, body)) =>
      match ReadMetadata(frontMatter)
      case Failure(error) => Failure(error)
      case Success(m) => Success(Skill(m.name, m.description, body))
  }

  /** The inner loop, over the lines of a block from `start`. */
  method ReadBlock(lines: seq<string>, start: nat) returns (block: seq<string>)
    requires start <= |lines|
    ensures block == Block(lines[start..])
  {
    hide BlockLine, Unindented;
    block := [];
    var blockIndex := start;
    while blockIndex < |lines| && BlockLine(lines[blockIndex])
      invariant start <= blockIndex <= |lines|
      invariant block + Block(lines[blockIndex..]) == Block(lines[start..])
    {
      assert lines[blockIndex..][1..] == lines[blockIndex + 1..];
      assert (block + [Unindented(lines[blockIndex])]) + Block(lines[blockIndex + 1..])
          == block + Block(lines[blockIndex..]);
      block := block + [Unindented(lines[blockIndex])];
      blockIndex := blockIndex + 1;
    }
  }

  /** The program's reader. */
  method ParseSkillMetadata(frontMatter: string) returns (r: Result<Metadata, SkillError>)
    ensures r == ReadMetadata(frontMatter)
  {
    hide InlineScalar, Split, TrimJs, DropTrailing, Block, JoinLines;
    var lines := Split(frontMatter, '\n');
    var m := Metadata("", "");
    var index := 0;
    assert lines[0..] == lines;
    while index < |lines|
      invariant index <= |lines|
      invariant ReadLines(lines[index..], m) == ReadLines(lines, Metadata("", ""))
    {
      var line := lines[index];
      assert lines[index..][1..] == lines[index + 1..];
      if StartsWith(line, "name:") {
        var name := InlineScalar(line[5..]);
        if name.None? {
          return Failure(MissingName);
        }
        m := m.(name := name.value);
      } else if StartsWith(line, "description:") {
        var raw := TrimJs(line[12..]);
        if raw == "" {
          return Failure(MissingDescription);
        }
        if raw == "|" || raw == ">" {
          var block := ReadBlock(lines, index + 1);
          m := m.(description := DropTrailing(JoinLines(block)));
          assert lines[index..][1 + |block|..] == lines[index + 1 + |block|..];
          index := index + |block|;
        } else {
          var description := InlineScalar(raw);
          if description.None? {
            return Failure(MissingDescription);
          }
          m := m.(description := description.value);
        }
      }
      index := index + 1;
    }
    if m.name == "" {
      return Failure(MissingName);
    }
    if m.description == "" {
      return Failure(MissingDescription);
    }
    r := Success(m);
  }

  // ----- Writing -----

  function IndentAll(lines: seq<string>): (r: seq<string>)
    ensures |r| == |lines|
  {
    if lines == [] then [] else ["  " + lines[0]] + IndentAll(lines[1..])
  }

  function FormatBlockScalar(description: string): string {
    JoinLines(IndentAll(Split(description, '\n')))
  }

  function Print(skill: Skill): string {
    JoinLines(["---", "name: " + skill.name, "description: |", FormatBlockScalar(skill.description), "---"])
    + "\n" + skill.body
  }

  function Convert(source: string): Result<string, SkillError> {
    match ParseSkill(source)
    case Failure(error) => Failure(error)
    case Success(skill) => Success(Print(skill))
  }

  // ----- Lines -----

  predicate OneLine(s: string) {
    '\n' !in s
  }

  predicate AllOneLine(lines: seq<string>) {
    forall i | 0 <= i < |lines| :: OneLine(lines[i])
  }

  lemma NoBreak(line: string)
    requires OneLine(line)
    ensures Find(line, "\n").None?
  {
    forall i: nat
      ensures !OccursAt(line, "\n", i)
    {
      if i < |line| { assert line[i..i + 1][0] == line[i] && line[i] in line; }
    }
  }

  lemma FirstBreak(line: string, rest: string)
    requires OneLine(line)
    ensures Find(line + "\n" + rest, "\n") == Some(|line|)
  {
    var s := line + "\n" + rest;
    assert s[|line|..|line| + 1] == "\n";
    assert OccursAt(s, "\n", |line|);
    forall i: nat | i < |line|
      ensures !OccursAt(s, "\n", i)
    {
      assert s[i..i + 1][0] == line[i] && line[i] in line;
    }
  }

  lemma SplitLine(line: string, rest: string)
    requires OneLine(line)
    ensures Split(line, '\n') == [line]
    ensures Split(line + "\n" + rest, '\n') == [line] + Split(rest, '\n')
  {
    hide Find;
    NoBreak(line);
    FirstBreak(line, rest);
    var s := line + "\n" + rest;
    assert s[..|line|] == line && s[|line| + 1..] == rest;
  }

  /** Splitting what was joined. */
  lemma {:induction false} SplitJoined(lines: seq<string>)
    requires lines != [] && AllOneLine(lines)
    ensures Split(JoinLines(lines), '\n') == lines
  {
    hide Split;
    if |lines| == 1 {
      SplitLine(lines[0], "");
    } else {
      SplitLine(lines[0], JoinLines(lines[1..]));
      SplitJoined(lines[1..]);
    }
  }

  /** Joining what was split. */
  lemma {:induction false} JoinSplit(s: string)
    ensures JoinLines(Split(s, '\n')) == s && AllOneLine(Split(s, '\n'))
    decreases |s|
  {
    match Find(s, "\n")
    case None => NoBreakInside(s);
    case Some(k) =>
      var rest := s[k + 1..];
      JoinSplit(rest);
      assert s[k..k + 1] == "\n";
      assert s == s[..k] + "\n" + rest;
      assert Split(s, '\n') == [s[..k]] + Split(rest, '\n');
      assert Split(s, '\n')[1..] == Split(rest, '\n');
      forall i: nat
        ensures !OccursAt(s[..k], "\n", i)
      {
        if i < k { assert s[..k][i..i + 1] == s[i..i + 1] && !OccursAt(s, "\n", i); }
      }
      NoBreakInside(s[..k]);
  }

  lemma NoBreakInside(s: string)
    requires forall i: nat :: !OccursAt(s, "\n", i)
    ensures OneLine(s)
  {
    forall i | 0 <= i < |s|
      ensures s[i] != '\n'
    {
      assert !OccursAt(s, "\n", i) && s[i..i + 1] == [s[i]];
    }
  }

  lemma {:induction false} JoinConcat(a: seq<string>, b: seq<string>)
    requires a != [] && b != []
    ensures JoinLines(a + b) == JoinLines(a) + "\n" + JoinLines(b)
  {
    if |a| == 1 {
      assert (a + b)[1..] == b;
    } else {
      assert (a + b)[1..] == a[1..] + b;
      JoinConcat(a[1..], b);
    }
  }

  // ----- Line endings -----

  /** A line without the carriage return of a CRLF ending. */
  function Chomp(line: string): string {
    if line != "" && line[|line| - 1] == '\r' then line[..|line| - 1] else line
  }

  function ChompAll(lines: seq<string>): (r: seq<string>)
    ensures |r| == |lines|
    ensures forall i | 0 <= i < |lines| :: r[i] == Chomp(lines[i])
  {
    if lines == [] then [] else [Chomp(lines[0])] + ChompAll(lines[1..])
  }

  lemma NormalizeStep(c: char, rest: string)
    requires c != '\r' || rest == "" || rest[0] != '\n'
    ensures NormalizeNewlines([c] + rest) == [c] + NormalizeNewlines(rest)
  {
    var s := [c] + rest;
    assert s[1..] == rest;
    assert !StartsWith(s, "\r\n") by { assert rest != "" ==> s[1] == rest[0]; }
  }

  lemma NormalizeBreak(rest: string)
    ensures NormalizeNewlines("\r\n" + rest) == "\n" + NormalizeNewlines(rest)
  {
    assert ("\r\n" + rest)[2..] == rest;
  }

  lemma ChompStep(c: char, rest: string)
    requires c != '\r' || rest != ""
    ensures Chomp([c] + rest) == [c] + Chomp(rest)
  {
  }

  lemma {:induction false} NormalizeLine(line: string, rest: string)
    requires OneLine(line)
    ensures NormalizeNewlines(line + "\n" + rest) == Chomp(line) + "\n" + NormalizeNewlines(rest)
  {
    hide NormalizeNewlines;
    var s := line + "\n" + rest;
    if line == "" {
      NormalizeStep('\n', rest);
      assert s == ['\n'] + rest && Chomp(line) == "";
    } else if line == "\r" {
      NormalizeBreak(rest);
      assert s == "\r\n" + rest && Chomp(line) == "";
    } else {
      var tail := line[1..];
      NormalizeLine(tail, rest);
      var after := tail + "\n" + rest;
      assert s == [line[0]] + after && line == [line[0]] + tail;
      assert after[0] == if tail == "" then '\n' else tail[0];
      assert tail != "" ==> tail[0] == line[1] && line[1] in line;
      assert tail == "" ==> line[0] != '\r' by { assert line == [line[0]] + tail; }
      NormalizeStep(line[0], after);
      ChompStep(line[0], tail);
      hide Chomp;
      assert [line[0]] + (Chomp(tail) + "\n" + NormalizeNewlines(rest))
          == ([line[0]] + Chomp(tail)) + "\n" + NormalizeNewlines(rest);
    }
  }

  lemma {:induction false} NormalizeLines(lines: seq<string>, rest: string)
    requires lines != [] && AllOneLine(lines)
    ensures NormalizeNewlines(JoinLines(lines) + "\n" + rest) ==
            JoinLines(ChompAll(lines)) + "\n" + NormalizeNewlines(rest)
  {
    hide NormalizeNewlines, Chomp, ChompAll;
    if |lines| == 1 {
      NormalizeLine(lines[0], rest);
      assert ChompAll(lines) == [Chomp(lines[0])];
    } else {
      var tail := JoinLines(lines[1..]) + "\n" + rest;
      assert JoinLines(lines) + "\n" + rest == lines[0] + "\n" + tail;
      NormalizeLine(lines[0], tail);
      NormalizeLines(lines[1..], rest);
      assert ChompAll(lines)[1..] == ChompAll(lines[1..]);
    }
  }

  /** A text is its own normal form exactly when it has no CRLF. */
  lemma {:induction false} NormalizeFixed(s: string)
    ensures NormalizeNewlines(s) == s <==> Find(s, "\r\n").None?
    ensures |NormalizeNewlines(s)| <= |s|
    ensures Find(s, "\r\n").Some? ==> |NormalizeNewlines(s)| < |s|
  {
    if s == "" {
    } else if StartsWith(s, "\r\n") {
      assert OccursAt(s, "\r\n", 0);
      NormalizeFixed(s[2..]);
    } else {
      NormalizeFixed(s[1..]);
      assert !OccursAt(s, "\r\n", 0);
      forall i: nat
        ensures OccursAt(s[1..], "\r\n", i) == OccursAt(s, "\r\n", i + 1)
      {
        assert s[1..] == s[1..|s|];
        OccursInPart(s, "\r\n", 1, |s|, i);
      }
      match Find(s, "\r\n")
      case None =>
      case Some(i) => assert OccursAt(s[1..], "\r\n", i - 1);
    }
  }

  // ----- Reading what was written -----

  /** The lines between the dashes, for a one-line name and the lines of a description. */
  function HeaderLines(name: string, lines: seq<string>): seq<string> {
    ["name: " + name, "description: |"] + IndentAll(lines)
  }

  lemma {:induction false} BlockOfIndented(lines: seq<string>)
    ensures Block(IndentAll(lines)) == lines
  {
    if lines != [] {
      var indented := IndentAll(lines);
      BlockOfIndented(lines[1..]);
      assert indented[0][..2] == "  " && indented[0][2..] == lines[0];
      assert indented[1..] == IndentAll(lines[1..]);
      assert [lines[0]] + lines[1..] == lines;
    }
  }

  lemma {:induction false} ChompIndented(lines: seq<string>)
    ensures ChompAll(IndentAll(lines)) == IndentAll(ChompAll(lines))
  {
    hide Chomp;
    if lines != [] {
      ChompIndented(lines[1..]);
      ChompBehind("  ", lines[0]) by { ChompMark(); }
      assert IndentAll(lines)[1..] == IndentAll(lines[1..]);
      assert ChompAll(lines)[1..] == ChompAll(lines[1..]);
    }
  }

  lemma ChompBehind(prefix: string, line: string)
    requires Chomp(prefix) == prefix
    ensures Chomp(prefix + line) == prefix + Chomp(line)
  {
    if line == "" { assert prefix + line == prefix; }
  }

  /** A line that can stand in a header. */
  predicate HeaderLine(line: string) {
    OneLine(line) && line != "" && line[0] != '-'
  }

  predicate AllHeaderLines(lines: seq<string>) {
    forall i | 0 <= i < |lines| :: HeaderLine(lines[i])
  }

  lemma {:induction false} IndentedAreHeaderLines(lines: seq<string>)
    requires AllOneLine(lines)
    ensures AllHeaderLines(IndentAll(lines))
  {
    if lines != [] {
      assert forall i | 0 <= i < |lines[1..]| :: lines[1..][i] == lines[i + 1];
      IndentedAreHeaderLines(lines[1..]);
      assert HeaderLine("  " + lines[0]);
    }
  }

  lemma HeadersAreHeaderLines(name: string, lines: seq<string>)
    requires OneLine(name) && AllOneLine(lines)
    ensures AllHeaderLines(HeaderLines(name, lines))
  {
    hide OneLine;
    IndentedAreHeaderLines(lines);
    assert HeaderLine("name: " + name) && HeaderLine("description: |") by { HeaderMarks(name); }
  }

  lemma HeaderMarks(name: string)
    requires OneLine(name)
    ensures HeaderLine("name: " + name) && HeaderLine("description: |")
  {
  }

  lemma ChompHeader(name: string, lines: seq<string>)
    ensures ChompAll(HeaderLines(name, lines)) == HeaderLines(Chomp(name), ChompAll(lines))
  {
    ChompIndented(lines);
    ChompBehind("name: ", name);
    var header := HeaderLines(name, lines);
    assert header[1..][1..] == IndentAll(lines);
    assert header[0] == "name: " + name && header[1..][0] == "description: |";
    hide Chomp, IndentAll;
    assert Chomp("description: |") == "description: |" by { ChompMark(); }
    assert ChompAll(header) == [Chomp(header[0])] + ChompAll(header[1..]);
  }

  lemma ChompMark()
    ensures Chomp("description: |") == "description: |" && Chomp("  ") == "  "
  {
  }

  /** All the lines before the body. */
  function AllLines(name: string, lines: seq<string>): seq<string> {
    ["---"] + HeaderLines(name, lines) + ["---"]
  }

  lemma AllLinesOneLine(name: string, lines: seq<string>)
    requires OneLine(name) && AllOneLine(lines)
    ensures AllOneLine(AllLines(name, lines))
  {
    hide HeaderLines, OneLine;
    HeadersAreHeaderLines(name, lines);
    var header := HeaderLines(name, lines);
    assert forall i | 0 <= i < |header| :: HeaderLine(header[i]);
    assert OneLine("---") by { DashesOneLine(); }
  }

  lemma DashesOneLine()
    ensures OneLine("---") && Chomp("---") == "---"
  {
  }

  lemma PrintedLines(skill: Skill)
    ensures Print(skill) == JoinLines(AllLines(skill.name, Split(skill.description, '\n'))) + "\n" + skill.body
  {
    hide Split, JoinLines, IndentAll;
    var indented := IndentAll(Split(skill.description, '\n'));
    var block := FormatBlockScalar(skill.description);
    FiveLines("---", "name: " + skill.name, "description: |", block, "---", indented);
    assert AllLines(skill.name, Split(skill.description, '\n'))
        == ["---", "name: " + skill.name, "description: |"] + (indented + ["---"]);
  }

  lemma FiveLines(a: string, b: string, c: string, d: string, e: string, block: seq<string>)
    requires block != [] && d == JoinLines(block)
    ensures JoinLines([a, b, c, d, e]) == JoinLines([a, b, c] + (block + [e]))
  {
    hide JoinLines;
    var first, last := [a, b, c], [e];
    JoinConcat(first, block + last);
    JoinConcat(block, last);
    JoinConcat(first, [d] + last);
    JoinConcat([d], last);
    OneJoined(d);
    assert [a, b, c, d, e] == first + ([d] + last);
  }

  lemma OneJoined(line: string)
    ensures JoinLines([line]) == line
  {
  }

  /** No break of these lines is followed by a dash. */
  lemma {:induction false} NoDashAfterBreak(lines: seq<string>, j: nat)
    requires lines != [] && AllHeaderLines(lines)
    requires j < |JoinLines(lines)| && JoinLines(lines)[j] == '\n'
    ensures j + 1 < |JoinLines(lines)| && JoinLines(lines)[j + 1] != '-'
  {
    var line := lines[0];
    assert HeaderLine(line);
    assert j >= |line| by {
      assert line <= JoinLines(lines);
      assert forall i | 0 <= i < |line| :: line[i] != '\n' && line[i] == JoinLines(lines)[i];
    }
    if |lines| > 1 {
      var rest := JoinLines(lines[1..]);
      assert JoinLines(lines) == line + "\n" + rest;
      if j > |line| {
        assert rest[j - |line| - 1] == '\n';
        NoDashAfterBreak(lines[1..], j - |line| - 1);
      } else {
        assert HeaderLine(lines[1..][0]);
        StartOfJoined(lines[1..]);
      }
    }
  }

  lemma StartOfJoined(lines: seq<string>)
    requires lines != [] && lines[0] != ""
    ensures JoinLines(lines) != "" && JoinLines(lines)[0] == lines[0][0]
  {
  }

  lemma ClosingFound(lines: seq<string>, tail: string)
    requires lines != [] && AllHeaderLines(lines)
    ensures Find(JoinLines(lines) + CLOSING + tail, CLOSING) == Some(|JoinLines(lines)|)
  {
    hide JoinLines, Find;
    var p := JoinLines(lines);
    var s := p + CLOSING + tail;
    assert s[|p|..|p| + 4] == CLOSING;
    assert OccursAt(s, CLOSING, |p|);
    forall j: nat | j < |p|
      ensures !OccursAt(s, CLOSING, j)
    {
      if p[j] == '\n' {
        NoDashAfterBreak(lines, j);
        assert s[j..j + 4][1] == p[j + 1];
      } else {
        assert s[j..j + 4][0] == p[j];
      }
    }
  }

  /** What the reader finds in a header. */
  lemma ReadHeader(name: string, lines: seq<string>)
    requires OneLine(name) && AllOneLine(lines) && lines != []
    ensures ReadLines(HeaderLines(name, lines), Metadata("", "")) ==
            match InlineScalar(" " + name)
            case None => Failure(MissingName)
            case Some(n) => Success(Metadata(n, DropTrailing(JoinLines(lines))))
  {
    hide InlineScalar, DropTrailing, JoinLines, IndentAll;
    var header := HeaderLines(name, lines);
    BlockOfIndented(lines);
    assert header[0][..5] == "name:" && header[0][5..] == " " + name;
    assert header[1..][0] == "description: |" && header[1..][1..] == IndentAll(lines);
    DescriptionMark();
    match InlineScalar(" " + name)
    case None =>
    case Some(n) =>
      assert header[1..][1 + |lines|..] == [];
      assert ReadLines(header, Metadata("", "")) == ReadLines(header[1..], Metadata(n, ""));
  }

  lemma DescriptionMark()
    ensures StartsWith("description: |", "description:") && !StartsWith("description: |", "name:")
    ensures TrimJs("description: |"[12..]) == "|"
  {
    var line := "description: |";
    assert line[..12] == "description:" && line[12..] == " |" && line[0] != 'n';
    TrimAfterBlank("|");
    assert " " + "|" == " |";
  }

  lemma TrimAfterBlank(s: string)
    ensures TrimJs(" " + s) == TrimJs(s)
  {
    assert (" " + s)[1..] == s;
    assert DropLeading(" " + s) == DropLeading(s);
  }

  /** What reading back a printed skill with a one-line name gives, in every case. */
  lemma ParsePrinted(skill: Skill)
    requires OneLine(skill.name)
    ensures var d := DropTrailing(JoinLines(ChompAll(Split(skill.description, '\n'))));
            ParseSkill(Print(skill)) ==
            match InlineScalar(" " + Chomp(skill.name))
            case None => Failure(MissingName)
            case Some(n) =>
              if n == "" then Failure(MissingName)
              else if d == "" then Failure(MissingDescription)
              else Success(Skill(n, d, NormalizeNewlines(skill.body)))
  {
    hide *;
    var lines := Split(skill.description, '\n');
    JoinSplit(skill.description);
    AllLinesOneLine(skill.name, lines);
    AllLinesNotEmpty(skill.name, lines);
    NormalizeLines(AllLines(skill.name, lines), skill.body);
    PrintedLines(skill);
    ChompAllLines(skill.name, lines);
    ChompedOneLine(skill.name, lines);
    ParseLines(Chomp(skill.name), ChompAll(lines), Print(skill), NormalizeNewlines(skill.body));
  }

  /** Reading a text that has these lines and this body when its line ends are normalized. */
  lemma ParseLines(name: string, lines: seq<string>, source: string, body: string)
    requires OneLine(name) && AllOneLine(lines) && lines != []
    requires NormalizeNewlines(source) == JoinLines(AllLines(name, lines)) + "\n" + body
    ensures ParseSkill(source) ==
            match InlineScalar(" " + name)
            case None => Failure(MissingName)
            case Some(n) =>
              if n == "" then Failure(MissingName)
              else if DropTrailing(JoinLines(lines)) == "" then Failure(MissingDescription)
              else Success(Skill(n, DropTrailing(JoinLines(lines)), body))
  {
    var header := HeaderLines(name, lines);
    FrontMatterOfLines(name, lines, NormalizeNewlines(source), body);
    HeadersAreHeaderLines(name, lines);
    hide HeaderLines, JoinLines, Split, InlineScalar, DropTrailing, ReadLines, ExtractFrontMatter, NormalizeNewlines,
         OneLine;
    assert AllOneLine(header) by { assert forall i | 0 <= i < |header| :: HeaderLine(header[i]); }
    SplitJoined(header);
    ReadHeader(name, lines);
  }

  lemma FrontMatterOfLines(name: string, lines: seq<string>, text: string, body: string)
    requires OneLine(name) && AllOneLine(lines)
    requires text == JoinLines(AllLines(name, lines)) + "\n" + body
    ensures HeaderLines(name, lines) != []
    ensures ExtractFrontMatter(text) == Some((JoinLines(HeaderLines(name, lines)), body))
  {
    hide JoinLines, Find, OneLine, AllHeaderLines, IndentAll;
    var header := HeaderLines(name, lines);
    assert header != [];
    HeadersAreHeaderLines(name, lines);
    hide HeaderLines;
    var p := JoinLines(header);
    JoinConcat(["---"], header + ["---"]);
    JoinConcat(header, ["---"]);
    OneJoined("---");
    assert AllLines(name, lines) == ["---"] + (header + ["---"]);
    ClosingFound(header, "\n" + body);
    CutFrontMatter(p, body, text);
  }

  lemma CutFrontMatter(p: string, body: string, text: string)
    requires text == "---" + "\n" + (p + "\n" + "---") + "\n" + body
    requires Find(p + CLOSING + ("\n" + body), CLOSING) == Some(|p|)
    ensures ExtractFrontMatter(text) == Some((p, body))
  {
    hide Find;
    var rest := p + CLOSING + ("\n" + body);
    assert text == OPENING + rest;
    assert text[..4] == OPENING && text[4..] == rest;
    assert rest[..|p|] == p && rest[|p| + 4..] == "\n" + body;
    assert ("\n" + body)[..1] == "\n" && ("\n" + body)[1..] == body;
  }

  lemma AllLinesNotEmpty(name: string, lines: seq<string>)
    ensures AllLines(name, lines) != []
  {
  }

  lemma ChompAllLines(name: string, lines: seq<string>)
    ensures ChompAll(AllLines(name, lines)) == AllLines(Chomp(name), ChompAll(lines))
  {
    hide HeaderLines, Chomp;
    ChompHeader(name, lines);
    DashesOneLine();
    var header := HeaderLines(name, lines);
    var chomped := ChompAll(AllLines(name, lines));
    assert |chomped| == |header| + 2 == |AllLines(Chomp(name), ChompAll(lines))|;
    assert forall i | 0 <= i < |chomped| :: chomped[i] == AllLines(Chomp(name), ChompAll(lines))[i] by {
      assert forall i | 0 < i <= |header| :: AllLines(name, lines)[i] == header[i - 1];
    }
  }

  lemma ChompedOneLine(name: string, lines: seq<string>)
    requires OneLine(name) && AllOneLine(lines)
    ensures OneLine(Chomp(name)) && AllOneLine(ChompAll(lines))
    ensures |ChompAll(lines)| == |lines|
  {
    forall i | 0 <= i < |lines|
      ensures OneLine(ChompAll(lines)[i])
    {
      assert OneLine(lines[i]);
    }
  }

  // ----- Round trip -----

  /** The skills that survive being written and read. */
  predicate Good(skill: Skill) {
    && skill.name != "" && OneLine(skill.name) && NoLeadingSpace(skill.name) && NoTrailingSpace(skill.name)
    && !Quoted(skill.name)
    && skill.description != "" && NoTrailingSpace(skill.description)
    && Find(skill.description, "\r\n").None? && Find(skill.body, "\r\n").None?
  }

  lemma NameRoundTrip(name: string)
    ensures InlineScalar(" " + Chomp(name)) == Some(name) && name != "" <==>
            name != "" && NoLeadingSpace(name) && NoTrailingSpace(name) && !Quoted(name)
  {
    hide DropLeading, DropTrailing;
    TrimAfterBlank(Chomp(name));
    assert |TrimJs(Chomp(name))| <= |Chomp(name)| <= |name|;
    assert |Chomp(name)| == |name| ==> Chomp(name) == name;
    assert NoTrailingSpace(name) ==> Chomp(name) == name;
  }

  lemma DescriptionLines(d: string)
    ensures var read := JoinLines(ChompAll(Split(d, '\n')));
            |read| <= |d| && (read == d <==> Find(d + "\n", "\r\n").None?)
  {
    hide *;
    var lines := Split(d, '\n');
    JoinSplit(d);
    NormalizeLines(lines, "");
    NormalizeNothing();
    var read := JoinLines(ChompAll(lines));
    assert d + "\n" + "" == d + "\n" && read + "\n" + "" == read + "\n";
    NormalizeFixed(d + "\n");
    assert read + "\n" == d + "\n" ==> read == (read + "\n")[..|d|] == (d + "\n")[..|d|] == d;
  }

  lemma NormalizeNothing()
    ensures NormalizeNewlines("") == ""
  {
  }

  lemma BreakBehind(d: string)
    requires NoTrailingSpace(d)
    ensures Find(d + "\n", "\r\n").None? <==> Find(d, "\r\n").None?
  {
    hide Find;
    forall i: nat
      ensures OccursAt(d + "\n", "\r\n", i) <==> OccursAt(d, "\r\n", i)
    {
      if i + 2 <= |d| {
        assert (d + "\n")[i..i + 2] == d[i..i + 2];
      } else if i + 1 == |d| {
        assert (d + "\n")[i..i + 2][0] == d[i] && !IsSpace(d[i]);
        assert "\r\n"[0] == '\r' && IsSpace('\r');
      }
    }
  }

  lemma DescriptionRoundTrip(d: string)
    ensures DropTrailing(JoinLines(ChompAll(Split(d, '\n')))) == d <==>
            NoTrailingSpace(d) && Find(d, "\r\n").None?
  {
    hide Split, JoinLines, ChompAll, Find, DropTrailing, NoTrailingSpace;
    DescriptionLines(d);
    var read := JoinLines(ChompAll(Split(d, '\n')));
    var dropped := DropTrailing(read);
    assert NoTrailingSpace(dropped) && dropped <= read;
    assert dropped == d ==> read == d;
    if NoTrailingSpace(d) {
      BreakBehind(d);
    }
  }

  /** A one-line name: reading back what was written restores the skill exactly when the skill is good. */
  lemma PrintedRoundTrip(skill: Skill)
    requires OneLine(skill.name)
    ensures ParseSkill(Print(skill)) == Success(skill) <==> Good(skill)
  {
    hide *;
    ParsePrinted(skill);
    NameRoundTrip(skill.name);
    DescriptionRoundTrip(skill.description);
    NormalizeFixed(skill.body);
    GoodMeaning(skill);
  }

  lemma GoodMeaning(skill: Skill)
    ensures Good(skill) <==>
            (&& OneLine(skill.name)
             && (skill.name != "" && NoLeadingSpace(skill.name) && NoTrailingSpace(skill.name) && !Quoted(skill.name))
             && skill.description != ""
             && (NoTrailingSpace(skill.description) && Find(skill.description, "\r\n").None?)
             && Find(skill.body, "\r\n").None?)
  {
  }

  lemma {:induction false} DroppedIsPart(s: string)
    ensures forall c | c in DropLeading(s) :: c in s
    ensures forall c | c in DropTrailing(s) :: c in s
  {
    if !NoLeadingSpace(s) { DroppedIsPart(s[1..]); }
    if !NoTrailingSpace(s) { DroppedIsPart(s[..|s| - 1]); }
  }

  lemma InlineIsOneLine(value: string)
    requires OneLine(value)
    ensures InlineScalar(value).Some? ==> OneLine(InlineScalar(value).value)
  {
    hide DropLeading, DropTrailing;
    DroppedIsPart(value);
    DroppedIsPart(DropLeading(value));
  }

  lemma {:induction false} ReadNameIsOneLine(lines: seq<string>, m: Metadata)
    requires AllOneLine(lines) && OneLine(m.name)
    ensures ReadLines(lines, m).Success? ==> OneLine(ReadLines(lines, m).value.name)
    decreases |lines|
  {
    hide InlineScalar, Block, JoinLines, TrimJs, DropTrailing;
    if lines != [] {
      var line := lines[0];
      assert OneLine(line);
      if StartsWith(line, "name:") {
        assert OneLine(line[5..]);
        InlineIsOneLine(line[5..]);
        var name := InlineScalar(line[5..]);
        if name.Some? { ReadNameIsOneLine(lines[1..], m.(name := name.value)); }
      } else if StartsWith(line, "description:") {
        var raw := TrimJs(line[12..]);
        var block := Block(lines[1..]);
        ReadNameIsOneLine(lines[1 + |block|..], m.(description := DropTrailing(JoinLines(block))));
        var inline := InlineScalar(raw);
        if inline.Some? { ReadNameIsOneLine(lines[1..], m.(description := inline.value)); }
      } else {
        ReadNameIsOneLine(lines[1..], m);
      }
    }
  }

  /** Whatever was read, its name is one line and neither name nor description is empty. */
  lemma ParsedSkill(source: string)
    ensures ParseSkill(source).Success? ==>
            var skill := ParseSkill(source).value;
            OneLine(skill.name) && skill.name != "" && skill.description != ""
  {
    hide Split, ReadLines, NormalizeNewlines;
    match ExtractFrontMatter(NormalizeNewlines(source))
    case None =>
    case Some((frontMatter, _)) =>
      JoinSplit(frontMatter);
      ReadNameIsOneLine(Split(frontMatter, '\n'), Metadata("", ""));
  }

  /** Parser and printer undo each other exactly on the good skills. */
  lemma RoundTripIff(skill: Skill)
    ensures ParseSkill(Print(skill)) == Success(skill) <==> Good(skill)
  {
    hide ParseSkill, Print, OneLine;
    ParsedSkill(Print(skill));
    if OneLine(skill.name) {
      PrintedRoundTrip(skill);
    }
  }

  lemma FrontMatterOfPrinted(skill: Skill)
    requires OneLine(skill.name)
    ensures var header := HeaderLines(skill.name, Split(skill.description, '\n'));
            && AllOneLine(header) && header != []
            && ExtractFrontMatter(Print(skill)) == Some((JoinLines(header), skill.body))
  {
    hide *;
    var lines := Split(skill.description, '\n');
    JoinSplit(skill.description);
    PrintedLines(skill);
    FrontMatterOfLines(skill.name, lines, Print(skill), skill.body);
    HeadersAreHeaderLines(skill.name, lines);
    HeaderLinesAreOneLine(HeaderLines(skill.name, lines));
  }

  lemma HeaderLinesAreOneLine(lines: seq<string>)
    requires AllHeaderLines(lines)
    ensures AllOneLine(lines)
  {
    assert forall i | 0 <= i < |lines| :: HeaderLine(lines[i]);
  }

  /** Different skills with one-line names are written differently. */
  lemma PrintIsInjective(a: Skill, b: Skill)
    requires OneLine(a.name) && OneLine(b.name) && Print(a) == Print(b)
    ensures a == b
  {
    hide *;
    FrontMatterOfPrinted(a);
    FrontMatterOfPrinted(b);
    var linesA, linesB := Split(a.description, '\n'), Split(b.description, '\n');
    SplitJoined(HeaderLines(a.name, linesA));
    SplitJoined(HeaderLines(b.name, linesB));
    HeaderParts(a.name, linesA);
    HeaderParts(b.name, linesB);
    JoinSplit(a.description);
    JoinSplit(b.description);
  }

  lemma HeaderParts(name: string, lines: seq<string>)
    ensures var header := HeaderLines(name, lines);
            |header| >= 2 && |header[0]| >= 6 && header[0][6..] == name && Block(header[2..]) == lines
  {
    BlockOfIndented(lines);
    hide IndentAll, Block;
    assert HeaderLines(name, lines)[2..] == IndentAll(lines);
    assert ("name: " + name)[6..] == name;
  }

  /** Converting once more changes nothing exactly when the skill that was read is good. */
  lemma ConversionIsStableIff(source: string)
    requires ParseSkill(source).Success?
    ensures var skill := ParseSkill(source).value;
            Convert(source) == Success(Print(skill)) &&
            (Convert(Print(skill)) == Convert(source) <==> Good(skill))
  {
    hide *;
    var skill := ParseSkill(source).value;
    ParsedSkill(source);
    PrintedRoundTrip(skill);
    ConvertMeaning(source);
    ConvertMeaning(Print(skill));
    if ParseSkill(Print(skill)).Success? {
      ParsedSkill(Print(skill));
      var again := ParseSkill(Print(skill)).value;
      if Print(again) == Print(skill) {
        PrintIsInjective(again, skill);
      }
    }
  }

  lemma ConvertMeaning(source: string)
    ensures match ParseSkill(source)
            case Failure(error) => Convert(source) == Failure(error)
            case Success(skill) => Convert(source) == Success(Print(skill))
  {
  }
}
