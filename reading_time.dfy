/**
 * The reading-time estimate: markup stripped, the text normalised, words
 * counted, and minutes derived at 200 words per minute.
 */
module ReadingTime {
  import opened Wrappers
  import opened Text
  import opened Sorting

  // ---------------------------------------------------------------------
  // stripHtml: `/<[^>]+>/g` replaced by a space

  /** The position of the first `>` in `t`, if any. */
  function FirstGt(t: string): (r: Option<nat>)
    ensures r.Some? ==> r.value < |t| && t[r.value] == '>' && '>' !in t[..r.value]
    ensures r.None? ==> '>' !in t
    decreases |t|
  {
    if t == [] then None
    else if t[0] == '>' then Some(0)
    else
      match FirstGt(t[1..])
      case None => assert t == [t[0]] + t[1..]; None
      case Some(k) => assert t[..k + 1] == [t[0]] + t[1..][..k]; Some(k + 1)
  }

  /** After stripping, every `<` left is directly followed by `>` or has no `>` anywhere after it. */
  predicate NoTagLeft(r: string) {
    forall j :: 0 <= j < |r| && r[j] == '<' ==> (j + 1 < |r| && r[j + 1] == '>') || '>' !in r[j + 1..]
  }

  /** A character put before a stripped text keeps it free of tags, unless it opens one. */
  lemma ConsNoTag(c: char, rest: string)
    requires NoTagLeft(rest)
    requires c == '<' ==> (rest != [] && rest[0] == '>') || '>' !in rest
    ensures NoTagLeft([c] + rest)
  {
    var r := [c] + rest;
    forall j | 0 <= j < |r| && r[j] == '<'
      ensures (j + 1 < |r| && r[j + 1] == '>') || '>' !in r[j + 1..]
    {
      if j > 0 {
        assert r[j] == rest[j - 1] && r[j + 1..] == rest[j..];
      } else {
        assert r[1..] == rest;
      }
    }
  }

  /** Every character of a suffix is a character of the whole. */
  lemma SuffixChars(s: string, k: nat)
    requires k <= |s|
    ensures forall c :: c in s[k..] ==> c in s
  {
    forall c | c in s[k..] ensures c in s {
      var i :| 0 <= i < |s[k..]| && s[k..][i] == c;
      assert s[k + i] == c;
    }
  }

  /**
   * `stripHtml`: scanning from the left, a `<` that one or more characters
   * other than `>` and then a `>` follow is replaced, with them, by a
   * single space; every other character is kept.
   */
  function StripHtml(s: string): (r: string)
    ensures NoTagLeft(r)
    ensures '<' !in s ==> r == s
    ensures '>' !in s ==> '>' !in r
    ensures forall c :: c in r ==> c in s || c == ' '
    ensures s != [] && s[0] != '<' ==> r != [] && r[0] == s[0]
    ensures |r| <= |s|
    decreases |s|
  {
    if s == [] then []
    else
      var gt := FirstGt(s[1..]);
      if s[0] == '<' && gt.Some? && gt.value >= 1 then
        var rest := StripHtml(s[gt.value + 2..]);
        ConsNoTag(' ', rest);
        SuffixChars(s, gt.value + 2);
        [' '] + rest
      else
        var rest := StripHtml(s[1..]);
        assert s == [s[0]] + s[1..];
        SuffixChars(s, 1);
        ConsNoTag(s[0], rest);
        [s[0]] + rest
  }

  /** A character other than `<` is kept. */
  lemma StripHtmlCons(c: char, t: string)
    requires c != '<'
    ensures StripHtml([c] + t) == [c] + StripHtml(t)
  {
    var s := [c] + t;
    assert s[0] == c && s[1..] == t;
  }

  /** Text before the first `<` is kept as it is. */
  lemma {:induction false} StripHtmlKeepsText(plain: string, rest: string)
    requires '<' !in plain
    ensures StripHtml(plain + rest) == plain + StripHtml(rest)
    decreases |plain|
  {
    if plain == [] {
      assert plain + rest == rest;
    } else {
      var c, tail := plain[0], plain[1..];
      assert plain == [c] + tail;
      calc {
        StripHtml(plain + rest);
        { assert plain + rest == [c] + (tail + rest); }
        StripHtml([c] + (tail + rest));
        { StripHtmlCons(c, tail + rest); }
        [c] + StripHtml(tail + rest);
        { StripHtmlKeepsText(tail, rest); }
        [c] + (tail + StripHtml(rest));
        plain + StripHtml(rest);
      }
    }
  }

  /** A tag, `<`, one or more characters other than `>`, then `>`, becomes one space. */
  lemma StripHtmlTag(inner: string, rest: string)
    requires inner != [] && '>' !in inner
    ensures StripHtml(['<'] + inner + ['>'] + rest) == [' '] + StripHtml(rest)
  {
    var s := ['<'] + inner + ['>'] + rest;
    assert s[1..] == inner + ['>'] + rest;
    var gt := FirstGt(s[1..]);
    assert s[1..][|inner|] == '>';
    assert forall i :: 0 <= i < |inner| ==> s[1..][i] == inner[i];
    assert forall j :: |inner| < j <= |s[1..]| ==> s[1..][..j][|inner|] == '>';
    assert gt.value == |inner|;
    assert s[|inner| + 2..] == rest;
  }

  /** A `<` that does not open a tag (`>` next, or no `>` after it) is kept. */
  lemma StripHtmlLoneBracket(rest: string)
    requires (rest != [] && rest[0] == '>') || '>' !in rest
    ensures StripHtml(['<'] + rest) == ['<'] + StripHtml(rest)
  {
    var s := ['<'] + rest;
    assert s[1..] == rest;
  }

  // ---------------------------------------------------------------------
  // normalizeText

  /** The non-ASCII spaces the first replacement turns into plain spaces (U+00A0, U+1680, U+2000 to U+200A, U+202F, U+205F, U+3000). */
  predicate IsWideSpace(c: char) {
    c == '\U{00A0}' || c == '\U{1680}' || ('\U{2000}' <= c <= '\U{200A}') ||
    c == '\U{202F}' || c == '\U{205F}' || c == '\U{3000}'
  }

  /** Zero-width and bidirectional marks, which are removed (U+200B to U+200F, U+202A to U+202E, U+2060). */
  predicate IsInvisible(c: char) {
    ('\U{200B}' <= c <= '\U{200F}') || ('\U{202A}' <= c <= '\U{202E}') || c == '\U{2060}'
  }

  /** Ideographic and full-width commas and full stops, which become spaces (U+3001, U+3002, U+FF0C, U+FF0E). */
  predicate IsWideStop(c: char) {
    c == '\U{3001}' || c == '\U{3002}' || c == '\U{FF0C}' || c == '\U{FF0E}'
  }

  /** Every character satisfying `p` replaced by a space. */
  function SpaceWhere(s: string, p: char -> bool): (r: string)
    ensures |r| == |s|
    ensures forall i :: 0 <= i < |s| ==> r[i] == (if p(s[i]) then ' ' else s[i])
  {
    seq(|s|, i requires 0 <= i < |s| => if p(s[i]) then ' ' else s[i])
  }

  /** A replaced character is a space; every other one comes from `s` and does not satisfy `p`. */
  lemma SpaceWhereChars(s: string, p: char -> bool)
    ensures forall x :: x in SpaceWhere(s, p) && x != ' ' ==> x in s && !p(x)
  {
    var r := SpaceWhere(s, p);
    forall x | x in r && x != ' ' ensures x in s && !p(x) {
      var k :| 0 <= k < |r| && r[k] == x;
    }
  }

  predicate Visible(c: char) {
    !IsInvisible(c)
  }

  /** The invisible characters removed. */
  function RemoveInvisible(s: string): (r: string)
    ensures forall c :: c in r <==> c in s && !IsInvisible(c)
    decreases |s|
  {
    if s == [] then []
    else
      assert s == [s[0]] + s[1..];
      (if IsInvisible(s[0]) then [] else [s[0]]) + RemoveInvisible(s[1..])
  }

  /** Removing the invisible marks keeps the visible characters, in order and as often as they occur. */
  lemma {:induction false} RemoveInvisibleKeepsVisible(s: string)
    ensures RemoveInvisible(s) == Filter(s, Visible)
    decreases |s|
  {
    if s != [] {
      assert s == [s[0]] + s[1..];
      RemoveInvisibleKeepsVisible(s[1..]);
      FilterConcat([s[0]], s[1..], Visible);
      FilterOne(s[0], Visible);
    }
  }

  /** No two white-space characters next to each other. */
  predicate NoDoubleSpace(r: string) {
    forall j :: 0 <= j < |r| - 1 ==> !(IsSpace(r[j]) && IsSpace(r[j + 1]))
  }

  /** `replace(/\s+/gu, " ")`: every run of white space becomes one space. */
  function CollapseSpaces(s: string): (r: string)
    ensures NoDoubleSpace(r)
    ensures forall c :: c in r ==> (c in s && !IsSpace(c)) || c == ' '
    ensures s != [] ==> r != [] && (IsSpace(r[0]) <==> IsSpace(s[0]))
    decreases |s|
  {
    if s == [] then []
    else if IsSpace(s[0]) then
      var n := LeadingSpaces(s);
      var rest := CollapseSpaces(s[n..]);
      assert forall c :: c in s[n..] ==> c in s;
      [' '] + rest
    else
      var rest := CollapseSpaces(s[1..]);
      assert forall c :: c in s[1..] ==> c in s;
      [s[0]] + rest
  }

  /** The first `n` characters, none of them white space, are kept as they are. */
  lemma {:induction false} CollapseKeepsPrefix(s: string, n: nat)
    requires n <= |s| && forall i :: 0 <= i < n ==> !IsSpace(s[i])
    ensures CollapseSpaces(s) == s[..n] + CollapseSpaces(s[n..])
    decreases n
  {
    if n == 0 {
      assert s[..0] == [] && s[0..] == s;
    } else {
      var tail := s[1..];
      var after := CollapseSpaces(s[n..]);
      calc {
        CollapseSpaces(s);
        [s[0]] + CollapseSpaces(tail);
        { CollapseKeepsPrefix(tail, n - 1); assert tail[n - 1..] == s[n..]; }
        [s[0]] + (tail[..n - 1] + after);
        { assert s[..n] == [s[0]] + tail[..n - 1]; }
        s[..n] + after;
      }
    }
  }

  /** A word (a run without white space) is kept as it is. */
  lemma CollapseKeepsWord(word: string, rest: string)
    requires forall i :: 0 <= i < |word| ==> !IsSpace(word[i])
    ensures CollapseSpaces(word + rest) == word + CollapseSpaces(rest)
  {
    var s := word + rest;
    CollapseKeepsPrefix(s, |word|);
    assert s[..|word|] == word && s[|word|..] == rest;
  }

  /** A whole run of white space becomes one space. */
  lemma CollapseRun(run: string, rest: string)
    requires run != [] && forall i :: 0 <= i < |run| ==> IsSpace(run[i])
    requires rest == [] || !IsSpace(rest[0])
    ensures CollapseSpaces(run + rest) == [' '] + CollapseSpaces(rest)
  {
    var s := run + rest;
    var n := LeadingSpaces(s);
    assert forall i :: 0 <= i < |run| ==> s[i] == run[i];
    assert rest != [] ==> s[|run|] == rest[0];
    assert n == |run|;
    assert s[n..] == rest;
  }

  /**
   * `normalizeText` after Unicode normalisation: wide spaces become
   * spaces, invisible marks are dropped, wide commas and stops become
   * spaces, white-space runs collapse to one space, and the ends are
   * trimmed.
   */
  function NormalizeText(s: string): string {
    Trim(CollapseSpaces(SpaceWhere(RemoveInvisible(SpaceWhere(s, IsWideSpace)), IsWideStop)))
  }

  /** A slice of a text without doubled white space has none either. */
  lemma SliceNoDouble(d: string, i: nat, j: nat)
    requires i <= j <= |d| && NoDoubleSpace(d)
    ensures NoDoubleSpace(d[i..j])
  {
    var r := d[i..j];
    forall k | 0 <= k < |r| - 1 ensures !(IsSpace(r[k]) && IsSpace(r[k + 1])) {
      assert r[k] == d[i + k] && r[k + 1] == d[i + k + 1];
    }
  }

  /** Trimming keeps the spacing rule and adds no character. */
  lemma TrimKeeps(d: string)
    ensures NoDoubleSpace(d) ==> NoDoubleSpace(Trim(d))
    ensures forall x :: x in Trim(d) ==> x in d
  {
    var i, j :| 0 <= i <= j <= |d| && Trim(d) == d[i..j];
    if NoDoubleSpace(d) {
      SliceNoDouble(d, i, j);
    }
    forall x | x in Trim(d) ensures x in d {
      var k :| 0 <= k < |Trim(d)| && Trim(d)[k] == x;
      assert d[i + k] == x;
    }
  }

  /** What survives the replacements before the collapse: no invisible mark, no wide stop. */
  lemma ReplacedChars(s: string)
    ensures forall x :: x in SpaceWhere(RemoveInvisible(SpaceWhere(s, IsWideSpace)), IsWideStop) && x != ' ' ==>
                          !IsInvisible(x) && !IsWideStop(x)
  {
    SpaceWhereChars(RemoveInvisible(SpaceWhere(s, IsWideSpace)), IsWideStop);
  }

  /**
   * The normalised text starts and ends with a non-space, has no two
   * white-space characters in a row, uses only the plain space as white
   * space, and holds no invisible mark and no wide comma or stop.
   */
  lemma NormalizeTextShape(s: string)
    ensures NormalizeText(s) == [] || (!IsSpace(NormalizeText(s)[0]) && !IsSpace(NormalizeText(s)[|NormalizeText(s)| - 1]))
    ensures NoDoubleSpace(NormalizeText(s))
    ensures forall x :: x in NormalizeText(s) && IsSpace(x) ==> x == ' '
    ensures forall x :: x in NormalizeText(s) ==> !IsInvisible(x) && !IsWideStop(x)
  {
    var c := SpaceWhere(RemoveInvisible(SpaceWhere(s, IsWideSpace)), IsWideStop);
    var d := CollapseSpaces(c);
    var t := Trim(d);
    assert NormalizeText(s) == t;
    TrimKeeps(d);
    ReplacedChars(s);
    forall x | x in t ensures (IsSpace(x) ==> x == ' ') && !IsInvisible(x) && !IsWideStop(x) {
      assert x in d;
      assert (x in c && !IsSpace(x)) || x == ' ';
    }
  }

  // ---------------------------------------------------------------------
  // estimateReadingTime

  const WordsPerMinute := 200

  /** `Math.round`: the nearest integer, halves rounded up. */
  function JsRound(x: real): int {
    (x + 0.5).Floor
  }

  /** On a word count, `Math.round(words / 200)` is integer arithmetic. */
  lemma RoundWords(words: nat)
    ensures JsRound(words as real / WordsPerMinute as real) == (words + 100) / 200
  {
    var q := (words + 100) / 200;
    var rem := (words + 100) % 200;
    assert words + 100 == 200 * q + rem;
    var y := words as real / 200.0 + 0.5;
    assert y == q as real + rem as real / 200.0;
    assert q as real <= y < q as real + 1.0;
  }

  datatype Estimate = Estimate(minutes: nat, words: nat)

  /** The minutes for a word count: none for no words, otherwise the rounded count at 200 a minute, at least one. */
  function Minutes(words: nat): (m: nat)
    ensures m == 0 <==> words == 0
    ensures words > 0 ==> m == if (words + 100) / 200 > 1 then (words + 100) / 200 else 1
  {
    if words == 0 then 0
    else
      RoundWords(words);
      var rounded := JsRound(words as real / WordsPerMinute as real);
      if rounded > 1 then rounded else 1
  }

  /** More words never mean fewer minutes. */
  lemma MinutesMonotone(a: nat, b: nat)
    requires a <= b
    ensures Minutes(a) <= Minutes(b)
  {
    assert (a + 100) / 200 <= (b + 100) / 200;
  }

  /**
   * `estimateReadingTime`: the words of the stripped, normalised text
   * (counted by the word pattern, `countWords`) and the minutes for them.
   */
  function EstimateReadingTime(text: string, countWords: string -> nat): (e: Estimate)
    ensures e.words == countWords(NormalizeText(StripHtml(text)))
    ensures e.minutes == Minutes(e.words)
  {
    var words := countWords(NormalizeText(StripHtml(text)));
    Estimate(Minutes(words), words)
  }
}
