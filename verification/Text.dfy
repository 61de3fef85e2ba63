/** String searching in the sense of Rust's `str::find`: the leftmost occurrence. */
module Text {
  import opened Wrappers

  /** `pat` occurs in `s` starting at index `i`. */
  predicate OccursAt<T(==)>(s: seq<T>, pat: seq<T>, i: nat) {
    i + |pat| <= |s| && s[i..i + |pat|] == pat
  }

  ghost predicate Contains<T>(s: seq<T>, pat: seq<T>) {
    exists i: nat :: OccursAt(s, pat, i)
  }

  /** Whatever occurs in a part occurs in the whole, and what lies inside the part occurs there too. */
  lemma OccursInPart<T>(s: seq<T>, pat: seq<T>, i: nat, j: nat, k: nat)
    requires i <= j <= |s|
    ensures OccursAt(s[i..j], pat, k) <==> OccursAt(s, pat, i + k) && i + k + |pat| <= j
  {
    if i + k + |pat| <= j {
      var inner, outer := s[i..j][k..k + |pat|], s[i + k..i + k + |pat|];
      assert forall m | 0 <= m < |pat| :: inner[m] == s[i + k + m] == outer[m];
      assert inner == outer;
    }
  }

  function FindFrom<T(==)>(s: seq<T>, pat: seq<T>, i: nat): (r: Option<nat>)
    requires i <= |s|
    ensures r.Some? ==> i <= r.value && OccursAt(s, pat, r.value)
    ensures r.Some? ==> forall j: nat | i <= j < r.value :: !OccursAt(s, pat, j)
    ensures r.None? ==> forall j: nat | i <= j :: !OccursAt(s, pat, j)
    decreases |s| - i
  {
    if OccursAt(s, pat, i) then Some(i)
    else if i == |s| then None
    else FindFrom(s, pat, i + 1)
  }

  function Find<T(==)>(s: seq<T>, pat: seq<T>): (r: Option<nat>)
    ensures r.Some? ==> OccursAt(s, pat, r.value)
    ensures r.Some? ==> forall j: nat | j < r.value :: !OccursAt(s, pat, j)
    ensures r.None? ==> forall j: nat :: !OccursAt(s, pat, j)
  {
    FindFrom(s, pat, 0)
  }

  /** `str::split`: the parts between the separators. */
  function Split(s: string, separator: char): (parts: seq<string>)
    ensures |parts| >= 1
    decreases |s|
  {
    match Find(s, [separator])
    case None => [s]
    case Some(k) => [s[..k]] + Split(s[k + 1..], separator)
  }

  /** `str::replace`: every occurrence, leftmost first, without overlap. */
  function Replace(s: string, pattern: string, insert: string): string
    requires pattern != ""
    decreases |s|
  {
    match Find(s, pattern)
    case None => s
    case Some(i) => s[..i] + insert + Replace(s[i + |pattern|..], pattern, insert)
  }

  lemma ReplaceAt(s: string, pattern: string, insert: string, i: nat)
    requires pattern != "" && Find(s, pattern) == Some(i)
    ensures Replace(s, pattern, insert) == s[..i] + insert + Replace(s[i + |pattern|..], pattern, insert)
  {
    hide Find, OccursAt;
  }

  lemma ReplaceNone(s: string, pattern: string, insert: string)
    requires pattern != "" && Find(s, pattern).None?
    ensures Replace(s, pattern, insert) == s
  {
    hide Find, OccursAt;
  }

  lemma SplitAt(s: string, separator: char, i: nat)
    requires Find(s, [separator]) == Some(i)
    ensures Split(s, separator) == [s[..i]] + Split(s[i + 1..], separator)
  {
    hide Find, OccursAt;
  }

  lemma SplitNone(s: string, separator: char)
    requires Find(s, [separator]).None?
    ensures Split(s, separator) == [s]
  {
    hide Find, OccursAt;
  }

  /** The number written in decimal digits; leading zeros are allowed. */
  function DigitsValue(s: string): Option<nat> {
    if s == "" then Some(0)
    else
      var last := s[|s| - 1];
      match DigitsValue(s[..|s| - 1])
      case Some(n) => if '0' <= last <= '9' then Some(10 * n + (last as int - '0' as int)) else None
      case None => None
  }

  /** Unicode White_Space, what `str::trim` removes. */
  predicate IsWhitespace(c: char) {
    || '\U{9}' <= c <= '\U{D}' || c == ' ' || c == '\U{85}' || c == '\U{A0}' || c == '\U{1680}'
    || '\U{2000}' <= c <= '\U{200A}' || c == '\U{2028}' || c == '\U{2029}' || c == '\U{202F}' || c == '\U{205F}'
    || c == '\U{3000}'
  }

  predicate TrimmedStart(s: string) {
    s == "" || !IsWhitespace(s[0])
  }

  predicate TrimmedEnd(s: string) {
    s == "" || !IsWhitespace(s[|s| - 1])
  }

  function TrimStart(s: string): (r: string)
    ensures TrimmedStart(r)
    ensures TrimmedStart(s) ==> r == s
    ensures |r| <= |s| && r == s[|s| - |r|..]
    ensures forall i | 0 <= i < |s| - |r| :: IsWhitespace(s[i])
  {
    if TrimmedStart(s) then s else TrimStart(s[1..])
  }

  function TrimEnd(s: string): (r: string)
    ensures TrimmedEnd(r)
    ensures TrimmedEnd(s) ==> r == s
    ensures r <= s && forall i | |r| <= i < |s| :: IsWhitespace(s[i])
  {
    if TrimmedEnd(s) then s else TrimEnd(s[..|s| - 1])
  }

  function Trim(s: string): (r: string)
    ensures TrimmedStart(r) && TrimmedEnd(r)
    ensures TrimmedStart(s) && TrimmedEnd(s) ==> r == s
  {
    var t := TrimStart(s);
    var r := TrimEnd(t);
    assert r != "" ==> r[0] == t[0];
    r
  }
}
