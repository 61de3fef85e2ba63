/** What is read from any skill file, told from its characters and lines, and what is written for a skill. */
module SkillReading {
  import opened Wrappers
  import opened SkillFile
  import opened Text

  // ----- Trimming -----

  /** The white space and line terminators of JavaScript. */
  lemma IsSpaceIff(c: char)
    ensures IsSpace(c) <==>
            || 0x9 <= c as int <= 0xD || c as int in {0x20, 0xA0, 0x1680, 0x202F, 0x205F, 0x3000, 0xFEFF}
            || 0x2000 <= c as int <= 0x200A || 0x2028 <= c as int <= 0x2029
  {
  }

  ghost predicate Blank(s: string) {
    forall i | 0 <= i < |s| :: IsSpace(s[i])
  }

  /** The part of a text between the blanks around it. */
  ghost predicate Inside(s: string, t: string) {
    && (t != "" ==> !IsSpace(t[0]) && !IsSpace(t[|t| - 1]))
    && exists a, b :: Blank(a) && Blank(b) && s == a + t + b
  }

  lemma {:induction false} DroppedLeading(s: string) returns (a: string)
    ensures Blank(a) && s == a + DropLeading(s)
  {
    hide IsSpace;
    if NoLeadingSpace(s) {
      a := "";
    } else {
      var rest := DroppedLeading(s[1..]);
      a := [s[0]] + rest;
      BlankInFront(s[0], rest);
      hide DropLeading, Blank;
      assert s[1..] == rest + DropLeading(s[1..]);
    }
  }

  lemma BlankInFront(c: char, rest: string)
    requires IsSpace(c) && Blank(rest)
    ensures Blank([c] + rest)
  {
    hide IsSpace;
  }

  lemma {:induction false} DroppedTrailing(s: string) returns (b: string)
    ensures Blank(b) && s == DropTrailing(s) + b
  {
    hide IsSpace;
    b := "";
    if !NoTrailingSpace(s) {
      b := DroppedTrailing(s[..|s| - 1]);
      b := b + [s[|s| - 1]];
    }
  }

  lemma {:induction false} LeadingBlank(a: string, t: string)
    requires Blank(a)
    ensures DropLeading(a + t) == DropLeading(t)
  {
    hide IsSpace;
    if a == "" {
      assert a + t == t;
    } else {
      assert (a + t)[1..] == a[1..] + t;
      LeadingBlank(a[1..], t);
    }
  }

  lemma {:induction false} TrailingBlank(t: string, b: string)
    requires Blank(b)
    ensures DropTrailing(t + b) == DropTrailing(t)
  {
    hide IsSpace;
    if b == "" {
      assert t + b == t;
    } else {
      assert (t + b)[..|t + b| - 1] == t + b[..|b| - 1];
      TrailingBlank(t, b[..|b| - 1]);
    }
  }

  lemma TrimIff(s: string, t: string)
    ensures TrimJs(s) == t <==> Inside(s, t)
  {
    hide IsSpace, DropLeading, DropTrailing;
    if TrimJs(s) == t {
      var a := DroppedLeading(s);
      var b := DroppedTrailing(DropLeading(s));
      assert s == a + t + b;
    }
    if Inside(s, t) {
      var a, b :| Blank(a) && Blank(b) && s == a + t + b;
      assert a + t + b == a + (t + b);
      LeadingBlank(a, t + b);
      if t == "" {
        assert t + b == b + "" == b;
        LeadingBlank(b, "");
      } else {
        assert NoLeadingSpace(t + b) && NoTrailingSpace(t);
        TrailingBlank(t, b);
      }
    }
  }

  /** The text of a value on one line: what stands between the blanks, or between the quotes there; a single quote
      counts as both. */
  ghost predicate Says(value: string, text: string) {
    exists t ::
      && Inside(value, t) && t != ""
      && if |t| == 1 && t[0] in {'"', '\''} then text == ""
         else if t[0] in {'"', '\''} && t[|t| - 1] == t[0] then t == [t[0]] + text + [t[0]]
         else text == t
  }

  lemma InlineIff(value: string, text: string)
    ensures InlineScalar(value) == Some(text) <==> Says(value, text)
  {
    hide IsSpace, TrimJs, Inside;
    var t := TrimJs(value);
    TrimIff(value, t);
    if Says(value, text) {
      var u :| Inside(value, u) && u != ""
               && if |u| == 1 && u[0] in {'"', '\''} then text == ""
                  else if u[0] in {'"', '\''} && u[|u| - 1] == u[0] then u == [u[0]] + text + [u[0]]
                  else text == u;
      TrimIff(value, u);
      if Quoted(u) && |u| > 1 { assert u[1..|u| - 1] == text; }
    }
  }

  lemma BlankIff(value: string)
    ensures InlineScalar(value).None? <==> Blank(value)
  {
    hide TrimJs, Inside, Blank;
    TrimIff(value, "");
    NothingInside(value);
  }

  lemma NothingInside(value: string)
    ensures Inside(value, "") <==> Blank(value)
  {
    hide IsSpace;
    if Blank(value) { assert value == "" + "" + value; }
    if Inside(value, "") { var a, b :| Blank(a) && Blank(b) && value == a + "" + b; }
  }

  // ----- Front matter -----

  /** Main result: the front matter stands between the first line of dashes, which opens the text, and the first other
      line that begins with dashes; the body follows behind these dashes and one line break, if there is one. */
  lemma FrontMatterIff(text: string, frontMatter: string, body: string)
    ensures ExtractFrontMatter(text) == Some((frontMatter, body)) <==>
            && (forall i: nat | i < |frontMatter| :: !OccursAt(frontMatter + "\n---", "\n---", i))
            && (|| text == "---\n" + frontMatter + "\n---\n" + body
                || (text == "---\n" + frontMatter + "\n---" + body && (body == "" || body[0] != '\n')))
  {
    if ExtractFrontMatter(text) == Some((frontMatter, body)) { FrontMatterFound(text, frontMatter, body); }
    if forall i: nat | i < |frontMatter| :: !OccursAt(frontMatter + "\n---", "\n---", i) {
      if text == "---\n" + frontMatter + "\n---\n" + body {
        FrontMatterCut(text, frontMatter, "\n" + body);
        assert ("\n" + body)[1..] == body;
      }
      if text == "---\n" + frontMatter + "\n---" + body && (body == "" || body[0] != '\n') {
        FrontMatterCut(text, frontMatter, body);
      }
    }
  }

  lemma FrontMatterFound(text: string, frontMatter: string, body: string)
    requires ExtractFrontMatter(text) == Some((frontMatter, body))
    ensures forall i: nat | i < |frontMatter| :: !OccursAt(frontMatter + "\n---", "\n---", i)
    ensures || text == "---\n" + frontMatter + "\n---\n" + body
            || (text == "---\n" + frontMatter + "\n---" + body && (body == "" || body[0] != '\n'))
  {
    var rest := text[4..];
    assert text == OPENING + rest;
    var k := Find(rest, CLOSING).value;
    var tail := rest[k + 4..];
    assert frontMatter == rest[..k] && rest[k..k + 4] == CLOSING;
    assert body == if StartsWith(tail, "\n") then tail[1..] else tail;
    forall i: nat | i < |frontMatter|
      ensures !OccursAt(frontMatter + "\n---", "\n---", i)
    {
      assert frontMatter + "\n---" == rest[0..k + 4];
      OccursInPart(rest, "\n---", 0, k + 4, i);
    }
    assert rest == frontMatter + "\n---" + tail;
    TailOf(text, frontMatter, tail, body);
  }

  lemma TailOf(text: string, frontMatter: string, tail: string, body: string)
    requires text == "---\n" + (frontMatter + "\n---" + tail)
    requires body == if StartsWith(tail, "\n") then tail[1..] else tail
    ensures || text == "---\n" + frontMatter + "\n---\n" + body
            || (text == "---\n" + frontMatter + "\n---" + body && (body == "" || body[0] != '\n'))
  {
    if StartsWith(tail, "\n") {
      assert tail == "\n" + body;
      assert "\n---" + tail == "\n---\n" + body;
    }
  }

  lemma FrontMatterCut(text: string, frontMatter: string, tail: string)
    requires text == "---\n" + frontMatter + "\n---" + tail
    requires forall i: nat | i < |frontMatter| :: !OccursAt(frontMatter + "\n---", "\n---", i)
    ensures ExtractFrontMatter(text) == Some((frontMatter, if StartsWith(tail, "\n") then tail[1..] else tail))
  {
    var rest := text[4..];
    var k := |frontMatter|;
    assert rest == frontMatter + "\n---" + tail && text[..4] == OPENING;
    assert rest[k..k + 4] == CLOSING;
    forall i: nat | i < k
      ensures !OccursAt(rest, CLOSING, i)
    {
      assert rest[0..k + 4] == frontMatter + "\n---";
      OccursInPart(rest, "\n---", 0, k + 4, i);
    }
    assert OccursAt(rest, CLOSING, k);
    var found := Find(rest, CLOSING);
    assert found.Some? && !(found.value < k) && !(k < found.value);
    hide Find;
    assert rest[..k] == frontMatter && rest[k + 4..] == tail;
  }

  /** Without both lines of dashes nothing is read. */
  lemma NoFrontMatterIff(text: string)
    ensures ExtractFrontMatter(text).None? <==>
            forall frontMatter, tail :: text != "---\n" + frontMatter + "\n---" + tail
  {
    if ExtractFrontMatter(text).Some? {
      var (frontMatter, body) := ExtractFrontMatter(text).value;
      FrontMatterFound(text, frontMatter, body);
      if text == "---\n" + frontMatter + "\n---\n" + body {
        assert text == "---\n" + frontMatter + "\n---" + ("\n" + body);
      }
    }
    if frontMatter, tail :| text == "---\n" + frontMatter + "\n---" + tail {
      var rest := text[4..];
      assert rest == frontMatter + "\n---" + tail && text[..4] == OPENING;
      assert rest[|frontMatter|..|frontMatter| + 4] == CLOSING;
      assert OccursAt(rest, CLOSING, |frontMatter|);
    }
  }

  /** The first CRLF becomes LF, and what is behind it is normalized alone. */
  lemma {:induction false} FirstCrlf(a: string, b: string)
    requires Find(a, "\r\n").None?
    ensures NormalizeNewlines(a + "\r\n" + b) == a + "\n" + NormalizeNewlines(b)
  {
    var s := a + "\r\n" + b;
    if a == "" {
      NormalizeBreak(b);
      assert s == "\r\n" + b;
    } else {
      var rest := a[1..];
      var behind := rest + "\r\n" + b;
      assert s == [a[0]] + behind;
      forall i: nat
        ensures !OccursAt(rest, "\r\n", i)
      {
        OccursInPart(a, "\r\n", 1, |a|, i);
      }
      FirstCrlf(rest, b);
      assert !OccursAt(a, "\r\n", 0);
      assert a[0] != '\r' || behind[0] != '\n' by {
        if rest != "" { assert behind[0] == a[1] && a[0..2] == [a[0], a[1]]; }
      }
      NormalizeStep(a[0], behind);
      assert [a[0]] + (rest + "\n" + NormalizeNewlines(b)) == a + "\n" + NormalizeNewlines(b);
    }
  }

  // ----- The lines of the front matter -----

  predicate NameLine(line: string) {
    "name:" <= line
  }

  predicate DescriptionLine(line: string) {
    "description:" <= line
  }

  /** An entry without a value. */
  ghost predicate Unset(line: string) {
    || (NameLine(line) && Blank(line[5..]))
    || (DescriptionLine(line) && Blank(line[12..]))
  }

  /** The last of these lines with the name, if there is one, says the new name. */
  ghost predicate NameFrom(lines: seq<string>, before: string, name: string) {
    || ((forall i | 0 <= i < |lines| :: !NameLine(lines[i])) && name == before)
    || exists i :: 0 <= i < |lines| && NameAt(lines, i, name)
  }

  ghost predicate NameAt(lines: seq<string>, i: nat, name: string)
    requires i < |lines|
  {
    NameLine(lines[i]) && Says(lines[i][5..], name) && forall j | i < j < |lines| :: !NameLine(lines[j])
  }

  ghost predicate DescriptionFrom(lines: seq<string>, before: string, description: string) {
    || ((forall i | 0 <= i < |lines| :: !DescriptionLine(lines[i])) && description == before)
    || exists i :: 0 <= i < |lines| && DescriptionAt(lines, i, description)
  }

  ghost predicate DescriptionAt(lines: seq<string>, i: nat, description: string)
    requires i < |lines|
  {
    && DescriptionLine(lines[i]) && DescribedBy(lines[i][12..], lines[i + 1..], description)
    && forall j | i < j < |lines| :: !DescriptionLine(lines[j])
  }

  /** A value on the line itself, or behind a bar or an angle the block of the lines that follow. */
  ghost predicate DescribedBy(value: string, following: seq<string>, description: string) {
    if Inside(value, "|") || Inside(value, ">")
    then exists k, b | 0 <= k <= |following| ::
           BlockIs(following, k, description + b) && Blank(b) && Stripped(description)
    else Says(value, description)
  }

  predicate Stripped(s: string) {
    s == "" || !IsSpace(s[|s| - 1])
  }

  /** The first `k` lines are empty or indented by two blanks, the next is not, and without these blanks they make up
      the text. */
  ghost predicate BlockIs(lines: seq<string>, k: nat, text: string)
    requires k <= |lines|
  {
    && (forall i | 0 <= i < k :: lines[i] == "" || "  " <= lines[i])
    && (k < |lines| ==> lines[k] != "" && !("  " <= lines[k]))
    && exists stripped: seq<string> ::
         && |stripped| == k && text == JoinLines(stripped)
         && forall i | 0 <= i < k :: if lines[i] == "" then stripped[i] == "" else lines[i] == "  " + stripped[i]
  }

  lemma {:induction false} BlockMeaning(lines: seq<string>)
    ensures var block := Block(lines);
            && BlockIs(lines, |block|, JoinLines(block))
            && forall i | 0 <= i < |block| :: if lines[i] == "" then block[i] == "" else lines[i] == "  " + block[i]
  {
    hide JoinLines;
    var block := Block(lines);
    if block != [] {
      BlockMeaning(lines[1..]);
      var rest := Block(lines[1..]);
      assert block == [Unindented(lines[0])] + rest;
      assert forall i | 0 < i < |block| :: block[i] == rest[i - 1] && lines[i] == lines[1..][i - 1];
      if lines[0] != "" { assert lines[0] == "  " + lines[0][2..]; }
      if |block| < |lines| { assert lines[|block|] == lines[1..][|rest|]; }
    }
  }

  lemma BlockOfLines(lines: seq<string>)
    ensures var block := Block(lines); BlockIs(lines, |block|, JoinLines(block))
    ensures forall i | 0 <= i < |Block(lines)| :: !NameLine(lines[i]) && !DescriptionLine(lines[i])
  {
    hide JoinLines, Block;
    BlockMeaning(lines);
    forall i | 0 <= i < |Block(lines)|
      ensures !NameLine(lines[i]) && !DescriptionLine(lines[i])
    {
      assert lines[i] == "" || lines[i][0] == ' ';
    }
  }

  lemma DescribedInBlock(value: string, following: seq<string>)
    requires TrimJs(value) == "|" || TrimJs(value) == ">"
    ensures DescribedBy(value, following, DropTrailing(JoinLines(Block(following))))
  {
    hide JoinLines, Block, IsSpace, DropTrailing, BlockIs, TrimJs, Inside;
    TrimIff(value, TrimJs(value));
    BlockOfLines(following);
    var joined := JoinLines(Block(following));
    var b := DroppedTrailing(joined);
    assert joined == DropTrailing(joined) + b && NoTrailingSpace(DropTrailing(joined));
  }

  lemma DescribedInline(value: string, following: seq<string>, description: string)
    requires InlineScalar(TrimJs(value)) == Some(description) && TrimJs(value) != "|" && TrimJs(value) != ">"
    ensures DescribedBy(value, following, description)
  {
    TrimIff(value, "|");
    TrimIff(value, ">");
    InlineIff(value, description);
    hide IsSpace, DropLeading, DropTrailing;
  }

  /** The values of the first line of some, when those behind it have been read. */
  lemma NamesBehind(lines: seq<string>, skip: nat, before: string, name: string)
    requires 1 + skip <= |lines| && forall i | 0 < i <= skip :: !NameLine(lines[i])
    requires NameFrom(lines[1 + skip..], before, name)
    requires if NameLine(lines[0]) then Says(lines[0][5..], before) else true
    ensures NameLine(lines[0]) ==> forall other :: NameFrom(lines, other, name)
    ensures !NameLine(lines[0]) ==> NameFrom(lines, before, name)
  {
    hide Says;
    var rest := lines[1 + skip..];
    if i :| 0 <= i < |rest| && NameAt(rest, i, name) {
      forall j | i + 1 + skip < j < |lines|
        ensures !NameLine(lines[j])
      {
        assert lines[j] == rest[j - 1 - skip];
      }
      assert NameAt(lines, i + 1 + skip, name);
    } else {
      forall j | 0 < j < |lines|
        ensures !NameLine(lines[j])
      {
        if j > skip { assert lines[j] == rest[j - 1 - skip]; }
      }
      if NameLine(lines[0]) { assert NameAt(lines, 0, name); }
    }
  }

  lemma DescriptionsBehind(lines: seq<string>, skip: nat, before: string, description: string)
    requires 1 + skip <= |lines| && forall i | 0 < i <= skip :: !DescriptionLine(lines[i])
    requires DescriptionFrom(lines[1 + skip..], before, description)
    requires if DescriptionLine(lines[0]) then DescribedBy(lines[0][12..], lines[1..], before) else true
    ensures DescriptionLine(lines[0]) ==> forall other :: DescriptionFrom(lines, other, description)
    ensures !DescriptionLine(lines[0]) ==> DescriptionFrom(lines, before, description)
  {
    hide DescribedBy;
    var rest := lines[1 + skip..];
    if i :| 0 <= i < |rest| && DescriptionAt(rest, i, description) {
      forall j | i + 1 + skip < j < |lines|
        ensures !DescriptionLine(lines[j])
      {
        assert lines[j] == rest[j - 1 - skip];
      }
      assert rest[i + 1..] == lines[i + 1 + skip + 1..];
      assert DescriptionAt(lines, i + 1 + skip, description);
    } else {
      forall j | 0 < j < |lines|
        ensures !DescriptionLine(lines[j])
      {
        if j > skip { assert lines[j] == rest[j - 1 - skip]; }
      }
      if DescriptionLine(lines[0]) { assert DescriptionAt(lines, 0, description); }
    }
  }

  /** The first entry without a value decides on the error. */
  ghost predicate Fails(lines: seq<string>, error: SkillError) {
    exists i ::
      && 0 <= i < |lines| && Unset(lines[i]) && (forall j | 0 <= j < i :: !Unset(lines[j]))
      && error == if NameLine(lines[i]) then MissingName else MissingDescription
  }

  ghost predicate AllSet(lines: seq<string>) {
    forall i | 0 <= i < |lines| :: !Unset(lines[i])
  }

  /** What is read from lines, if these values were read before. */
  ghost predicate Reads(lines: seq<string>, m: Metadata, r: Result<Metadata, SkillError>) {
    match r
    case Failure(error) => Fails(lines, error)
    case Success(read) =>
      && AllSet(lines)
      && NameFrom(lines, m.name, read.name) && DescriptionFrom(lines, m.description, read.description)
  }

  /** One entry and the lines that belong to it come first, then the rest is read. */
  lemma ReadsMore(lines: seq<string>, skip: nat, m: Metadata, next: Metadata, r: Result<Metadata, SkillError>)
    requires 1 + skip <= |lines| && Reads(lines[1 + skip..], next, r)
    requires forall i | 0 < i <= skip :: !NameLine(lines[i]) && !DescriptionLine(lines[i])
    requires !Unset(lines[0])
    requires if NameLine(lines[0]) then Says(lines[0][5..], next.name) else next.name == m.name
    requires if DescriptionLine(lines[0]) then DescribedBy(lines[0][12..], lines[1..], next.description)
             else next.description == m.description
    ensures Reads(lines, m, r)
  {
    hide Says, DescribedBy, Blank;
    var rest := lines[1 + skip..];
    assert forall i | 0 <= i <= skip :: !Unset(lines[i]);
    assert forall i | 0 <= i < |rest| :: rest[i] == lines[i + 1 + skip];
    match r
    case Failure(error) =>
      var i :| 0 <= i < |rest| && Unset(rest[i]) && (forall j | 0 <= j < i :: !Unset(rest[j]))
               && error == if NameLine(rest[i]) then MissingName else MissingDescription;
      assert Unset(lines[i + 1 + skip]);
      assert forall j | skip < j < i + 1 + skip :: lines[j] == rest[j - 1 - skip];
    case Success(read) =>
      assert forall j | skip < j < |lines| :: lines[j] == rest[j - 1 - skip];
      hide Unset, NameFrom, DescriptionFrom;
      NamesBehind(lines, skip, next.name, read.name);
      DescriptionsBehind(lines, skip, next.description, read.description);
  }

  lemma FailsAtOnce(lines: seq<string>, m: Metadata)
    requires lines != [] && Unset(lines[0])
    ensures Reads(lines, m, Failure(if NameLine(lines[0]) then MissingName else MissingDescription))
  {
    hide Blank;
  }

  lemma NotBoth(line: string)
    ensures !(NameLine(line) && DescriptionLine(line))
  {
    assert NameLine(line) ==> line[..5] == "name:" && line[0] == 'n';
    assert DescriptionLine(line) ==> line[..12] == "description:" && line[0] == 'd';
  }

  lemma {:induction false} ReadingLines(lines: seq<string>, m: Metadata)
    ensures Reads(lines, m, ReadLines(lines, m))
    decreases |lines|
  {
    hide InlineScalar, TrimJs, Block, JoinLines, DropTrailing, Blank, Says, DescribedBy, Reads;
    if lines == [] {
      NothingToRead(m);
    } else {
      var line := lines[0];
      NotBoth(line);
      if NameLine(line) {
        BlankIff(line[5..]);
        match InlineScalar(line[5..])
        case None => FailsAtOnce(lines, m);
        case Some(name) =>
          InlineIff(line[5..], name);
          ReadingLines(lines[1..], m.(name := name));
          ReadsMore(lines, 0, m, m.(name := name), ReadLines(lines, m));
      } else if DescriptionLine(line) {
        ReadingDescription(lines, m);
      } else {
        ReadingLines(lines[1..], m);
        ReadsMore(lines, 0, m, m, ReadLines(lines, m));
      }
    }
  }

  lemma NothingToRead(m: Metadata)
    ensures Reads([], m, Success(m))
  {
  }

  lemma {:induction false} ReadingDescription(lines: seq<string>, m: Metadata)
    requires lines != [] && DescriptionLine(lines[0]) && !NameLine(lines[0])
    ensures Reads(lines, m, ReadLines(lines, m))
    decreases |lines|, 0
  {
    hide InlineScalar, TrimJs, Block, JoinLines, DropTrailing, Blank, Says, DescribedBy, Reads;
    var value := lines[0][12..];
    var raw := TrimJs(value);
    TrimBlankIff(value);
    if raw == "" {
      FailsAtOnce(lines, m);
    } else if raw == "|" || raw == ">" {
      var block := Block(lines[1..]);
      var next := m.(description := DropTrailing(JoinLines(block)));
      ReadingLines(lines[1 + |block|..], next);
      BlockOfLines(lines[1..]);
      assert forall i | 0 < i <= |block| :: lines[i] == lines[1..][i - 1];
      DescribedInBlock(value, lines[1..]);
      ReadsMore(lines, |block|, m, next, ReadLines(lines, m));
    } else {
      match InlineScalar(raw)
      case None => assert false by { InlineOfTrimmed(value); }
      case Some(description) =>
        DescribedInline(value, lines[1..], description);
        ReadingLines(lines[1..], m.(description := description));
        ReadsMore(lines, 0, m, m.(description := description), ReadLines(lines, m));
    }
  }

  lemma TrimBlankIff(value: string)
    ensures TrimJs(value) == "" <==> Blank(value)
  {
    hide TrimJs, Inside, Blank;
    TrimIff(value, "");
    NothingInside(value);
  }

  lemma InlineOfTrimmed(value: string)
    ensures InlineScalar(TrimJs(value)).None? <==> TrimJs(value) == ""
  {
    hide DropLeading, DropTrailing, IsSpace;
  }

  lemma OneName(lines: seq<string>, i: nat, name: string, other: string)
    requires i < |lines| && NameAt(lines, i, name) && NameFrom(lines, "", other)
    ensures name == other
  {
    hide Says;
    var j :| 0 <= j < |lines| && NameAt(lines, j, other);
    assert i == j;
    InlineIff(lines[i][5..], name);
    InlineIff(lines[i][5..], other);
  }

  lemma OneBlock(lines: seq<string>, k: nat, l: nat, a: string, b: string)
    requires k <= |lines| && l <= |lines| && BlockIs(lines, k, a) && BlockIs(lines, l, b)
    ensures k == l && a == b
  {
    hide JoinLines;
    assert !(k < l) && !(l < k);
    var c: seq<string> :| |c| == k && a == JoinLines(c)
             && forall i | 0 <= i < k :: if lines[i] == "" then c[i] == "" else lines[i] == "  " + c[i];
    var d: seq<string> :| |d| == k && b == JoinLines(d)
             && forall i | 0 <= i < k :: if lines[i] == "" then d[i] == "" else lines[i] == "  " + d[i];
    forall i | 0 <= i < k
      ensures c[i] == d[i]
    {
      if lines[i] != "" { assert c[i] == lines[i][2..] == d[i]; }
    }
    assert c == d;
  }

  lemma OneText(value: string, following: seq<string>, a: string, b: string)
    requires DescribedBy(value, following, a) && DescribedBy(value, following, b)
    ensures a == b
  {
    hide IsSpace, BlockIs, Inside, Says, Blank, DropTrailing;
    if Inside(value, "|") || Inside(value, ">") {
      var k, c :| 0 <= k <= |following| && BlockIs(following, k, a + c) && Blank(c) && Stripped(a);
      var l, d :| 0 <= l <= |following| && BlockIs(following, l, b + d) && Blank(d) && Stripped(b);
      OneBlock(following, k, l, a + c, b + d);
      TrailingBlank(a, c);
      TrailingBlank(b, d);
      assert NoTrailingSpace(a) && NoTrailingSpace(b);
    } else {
      InlineIff(value, a);
      InlineIff(value, b);
    }
  }

  lemma OneDescription(lines: seq<string>, i: nat, description: string, other: string)
    requires i < |lines| && DescriptionAt(lines, i, description) && DescriptionFrom(lines, "", other)
    ensures description == other
  {
    hide DescribedBy;
    var j :| 0 <= j < |lines| && DescriptionAt(lines, j, other);
    assert i == j;
    OneText(lines[i][12..], lines[i + 1..], description, other);
  }

  /** Main result: metadata is read exactly if every entry has a value and the last name and the last description are
      not empty; it is what these two say. */
  lemma ReadMetadataIff(frontMatter: string, lines: seq<string>, m: Metadata)
    requires JoinLines(lines) == frontMatter && lines != [] && AllOneLine(lines)
    ensures ReadMetadata(frontMatter) == Success(m) <==>
            && AllSet(lines) && m.name != "" && m.description != ""
            && (exists i :: 0 <= i < |lines| && NameAt(lines, i, m.name))
            && exists i :: 0 <= i < |lines| && DescriptionAt(lines, i, m.description)
  {
    SplitJoined(lines);
    ReadingLines(lines, Metadata("", ""));
    var r := ReadLines(lines, Metadata("", ""));
    assert ReadMetadata(frontMatter) == Success(m) <==> r == Success(m) && m.name != "" && m.description != "";
    hide ReadMetadata, Split, ReadLines, JoinLines, NameAt, DescriptionAt, AllSet, Fails;
    if i, j :| AllSet(lines) && 0 <= i < |lines| && NameAt(lines, i, m.name)
               && 0 <= j < |lines| && DescriptionAt(lines, j, m.description) {
      FailsNotAllSet(lines, r);
      OneName(lines, i, m.name, r.value.name);
      OneDescription(lines, j, m.description, r.value.description);
    }
  }

  lemma FailsNotAllSet(lines: seq<string>, r: Result<Metadata, SkillError>)
    requires AllSet(lines) && Reads(lines, Metadata("", ""), r)
    ensures r.Success?
  {
    hide Unset;
  }

  /** Which error is reported: that of the first entry without a value; or else that of the name, if the last one is
      missing or empty; or else that of the description. */
  lemma ReadMetadataFails(frontMatter: string, lines: seq<string>)
    requires JoinLines(lines) == frontMatter && lines != [] && AllOneLine(lines)
    ensures var named := exists i, name :: 0 <= i < |lines| && NameAt(lines, i, name) && name != "";
            var r := ReadMetadata(frontMatter);
            && (!AllSet(lines) ==> r.Failure? && Fails(lines, r.error))
            && (AllSet(lines) && !named ==> r == Failure(MissingName))
            && (AllSet(lines) && named ==> r != Failure(MissingName))
  {
    SplitJoined(lines);
    ReadingLines(lines, Metadata("", ""));
    hide Split, ReadLines, JoinLines, NameAt, DescriptionAt, Unset;
    var r := ReadLines(lines, Metadata("", ""));
    if AllSet(lines) {
      assert r.Success?;
      if i, name :| 0 <= i < |lines| && NameAt(lines, i, name) && name != "" {
        OneName(lines, i, name, r.value.name);
      }
    }
  }

  /** A file is read by its front matter, with line breaks normalized, and the body is what remains. */
  lemma ParseSkillIff(source: string, text: string, skill: Skill)
    requires NormalizeNewlines(source) == text
    ensures ParseSkill(source) == Success(skill) <==>
            exists frontMatter ::
              && ExtractFrontMatter(text) == Some((frontMatter, skill.body))
              && ReadMetadata(frontMatter) == Success(Metadata(skill.name, skill.description))
    ensures ParseSkill(source) == Failure(MissingFrontMatter) <==>
            ExtractFrontMatter(text).None?
  {
    hide ExtractFrontMatter, NormalizeNewlines, ReadMetadata;
    match ExtractFrontMatter(text)
    case None =>
    case Some((frontMatter, _)) => NoOtherError(frontMatter);
  }

  lemma NoOtherError(frontMatter: string)
    ensures ReadMetadata(frontMatter) != Failure(MissingFrontMatter)
  {
    ReadingLines(Split(frontMatter, '\n'), Metadata("", ""));
    hide Split, ReadLines, Unset;
  }

  // ----- Writing -----

  /** Every line of the description is indented by two blanks. */
  lemma IndentedLines(line: string, rest: string)
    requires OneLine(line)
    ensures FormatBlockScalar(line) == "  " + line
    ensures FormatBlockScalar(line + "\n" + rest) == "  " + line + "\n" + FormatBlockScalar(rest)
  {
    SplitLine(line, rest);
    var lines := Split(rest, '\n');
    assert ([line] + lines)[1..] == lines;
  }

  /** Main result: what is written for a skill. */
  lemma PrintMeaning(skill: Skill)
    ensures Print(skill) ==
            "---\nname: " + skill.name + "\ndescription: |\n" + FormatBlockScalar(skill.description) + "\n---\n"
            + skill.body
  {
    hide FormatBlockScalar;
    var block := FormatBlockScalar(skill.description);
    var lines := ["---", "name: " + skill.name, "description: |", block, "---"];
    assert lines[1..] == ["name: " + skill.name, "description: |", block, "---"];
    assert lines[1..][1..] == ["description: |", block, "---"];
    assert lines[1..][1..][1..] == [block, "---"];
    assert lines[1..][1..][1..][1..] == ["---"];
    assert JoinLines(lines[1..][1..][1..]) == block + "\n" + "---";
    assert JoinLines(lines[1..][1..]) == "description: |" + "\n" + (block + "\n" + "---");
    assert JoinLines(lines[1..]) == "name: " + skill.name + "\n" + JoinLines(lines[1..][1..]);
    assert JoinLines(lines) == "---" + "\n" + JoinLines(lines[1..]);
    hide JoinLines;
    assert "---" + "\n" + "name: " == "---\nname: ";
    assert "\n" + "description: |" + "\n" == "\ndescription: |\n";
    assert "\n" + "---" + "\n" == "\n---\n";
  }
}
