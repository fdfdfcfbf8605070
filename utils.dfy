/**
 * The string helpers of the site library: route detection, kebab-case to
 * title case, page titles, the markdown file filter and the shaping of a
 * parsed markdown file.
 */
module Utils {
  import opened Wrappers
  import opened Text

  /** `isRoutePath`: a defined link that starts with a slash. */
  function IsRoutePath(href: Option<string>): (r: bool)
    ensures r <==> href.Some? && |href.value| >= 1 && href.value[0] == '/'
  {
    href.Some? && StartsWith(href.value, "/")
  }

  // ---------------------------------------------------------------------
  // kebabToTitle

  /** `word.charAt(0).toUpperCase() + word.slice(1)`, with ASCII upper-casing. */
  function Capitalize(w: string): string {
    if w == [] then [] else [UpperChar(w[0])] + w[1..]
  }

  function CapitalizeAll(ps: seq<string>): (r: seq<string>)
    ensures |r| == |ps|
    ensures forall k :: 0 <= k < |ps| ==> r[k] == Capitalize(ps[k])
  {
    seq(|ps|, k requires 0 <= k < |ps| => Capitalize(ps[k]))
  }

  /** `kebabToTitle`: split on hyphens, capitalize every piece, join with spaces. */
  function KebabToTitle(s: string): string {
    Join(CapitalizeAll(Split(s, '-')), ' ')
  }

  /**
   * The same result character by character: a hyphen becomes a space, the
   * first character and every character after a hyphen is upper-cased,
   * the others are kept. `atStart` says whether a piece starts at `s[0]`.
   */
  function TitleChars(s: string, atStart: bool): (r: string)
    ensures |r| == |s|
    decreases |s|
  {
    if s == [] then []
    else if s[0] == '-' then [' '] + TitleChars(s[1..], true)
    else [if atStart then UpperChar(s[0]) else s[0]] + TitleChars(s[1..], false)
  }

  /** The pieces joined with the first one capitalized only when it starts a word. */
  function TitleJoin(ps: seq<string>, atStart: bool): string
    requires |ps| >= 1
  {
    Join([if atStart then Capitalize(ps[0]) else ps[0]] + CapitalizeAll(ps[1..]), ' ')
  }

  lemma {:induction false} TitleJoinChars(s: string, atStart: bool)
    ensures TitleJoin(Split(s, '-'), atStart) == TitleChars(s, atStart)
    decreases |s|
  {
    if s != [] {
      var rest := Split(s[1..], '-');
      TitleJoinChars(s[1..], s[0] == '-');
      assert CapitalizeAll(rest) == [Capitalize(rest[0])] + CapitalizeAll(rest[1..]);
      if s[0] == '-' {
        assert Split(s, '-') == [""] + rest;
        assert Split(s, '-')[1..] == rest;
        var tail := CapitalizeAll(rest);
        assert [Capitalize("")] + tail == [""] + tail;
        assert Join([""] + tail, ' ') == "" + [' '] + Join(tail, ' ');
      } else {
        var ps := Split(s, '-');
        assert ps == [[s[0]] + rest[0]] + rest[1..];
        assert ps[1..] == rest[1..];
        var c := if atStart then UpperChar(s[0]) else s[0];
        assert (if atStart then Capitalize(ps[0]) else ps[0]) == [c] + rest[0];
        JoinConsHead(c, rest[0], CapitalizeAll(rest[1..]), ' ');
      }
    }
  }

  /** The character `kebabToTitle` puts at position `i`. */
  function TitleCharAt(s: string, i: nat): char
    requires i < |s|
  {
    if s[i] == '-' then ' '
    else if i == 0 || s[i - 1] == '-' then UpperChar(s[i])
    else s[i]
  }

  lemma {:induction false} TitleCharsAt(s: string, atStart: bool)
    ensures forall i :: 0 < i < |s| ==> TitleChars(s, atStart)[i] == TitleCharAt(s, i)
    ensures |s| > 0 ==> TitleChars(s, atStart)[0] ==
                          (if s[0] == '-' then ' ' else if atStart then UpperChar(s[0]) else s[0])
    decreases |s|
  {
    if s != [] {
      TitleCharsAt(s[1..], s[0] == '-');
      forall i | 0 < i < |s| ensures TitleChars(s, atStart)[i] == TitleCharAt(s, i) {
        assert TitleChars(s, atStart)[i] == TitleChars(s[1..], s[0] == '-')[i - 1];
        if i > 1 {
          assert TitleCharAt(s[1..], i - 1) == TitleCharAt(s, i);
        }
      }
    }
  }

  /**
   * `kebabToTitle` keeps the length, turns every hyphen into a space,
   * upper-cases the first letter of every word and keeps every other
   * character; so its result has no hyphen.
   */
  lemma KebabToTitleChars(s: string)
    ensures |KebabToTitle(s)| == |s|
    ensures forall i :: 0 <= i < |s| ==> KebabToTitle(s)[i] == TitleCharAt(s, i)
    ensures '-' !in KebabToTitle(s)
  {
    TitleJoinChars(s, true);
    var ps := Split(s, '-');
    assert [Capitalize(ps[0])] + CapitalizeAll(ps[1..]) == CapitalizeAll(ps);
    TitleCharsAt(s, true);
    var r := KebabToTitle(s);
    forall i | 0 <= i < |r| ensures r[i] != '-' {
      assert r[i] == TitleCharAt(s, i);
    }
  }

  // ---------------------------------------------------------------------
  // buildPageTitle

  const SiteName := "Jie Wang"

  /** `buildPageTitle`: the page title, a bar, and the site name, which defaults only when absent. */
  function BuildPageTitle(pageTitle: string, siteName: Option<string>): (r: string)
    ensures |r| >= |pageTitle| + 3
    ensures r[..|pageTitle|] == pageTitle
    ensures r[|pageTitle|..|pageTitle| + 3] == " | "
    ensures r[|pageTitle| + 3..] == (if siteName.Some? then siteName.value else SiteName)
  {
    pageTitle + " | " + siteName.GetOr(SiteName)
  }

  // ---------------------------------------------------------------------
  // getMarkdownFilesFromPath, parseMarkdownFile

  /** The directory entries the markdown listing keeps, in directory order. */
  function MarkdownEntries(entries: seq<string>): (r: seq<string>)
    ensures forall f :: f in r <==> f in entries && EndsWith(f, ".md")
    decreases |entries|
  {
    if entries == [] then []
    else
      assert entries == [entries[0]] + entries[1..];
      (if EndsWith(entries[0], ".md") then [entries[0]] else []) + MarkdownEntries(entries[1..])
  }

  /** The filter keeps directory order: listing two runs of entries lists each run in turn. */
  lemma {:induction false} MarkdownEntriesAppend(a: seq<string>, b: seq<string>)
    ensures MarkdownEntries(a + b) == MarkdownEntries(a) + MarkdownEntries(b)
    decreases |a|
  {
    if a != [] {
      assert (a + b)[1..] == a[1..] + b;
      MarkdownEntriesAppend(a[1..], b);
    } else {
      assert a + b == b;
    }
  }

  /**
   * `getMarkdownFilesFromPath` on an existing directory: the kept entries
   * joined to the directory path (path joining is the platform's,
   * `pathJoin`).
   */
  function MarkdownFiles(dir: string, entries: seq<string>, pathJoin: (string, string) -> string): (r: seq<string>)
    ensures |r| == |MarkdownEntries(entries)|
    ensures forall k :: 0 <= k < |r| ==> r[k] == pathJoin(dir, MarkdownEntries(entries)[k])
  {
    var kept := MarkdownEntries(entries);
    seq(|kept|, k requires 0 <= k < |kept| => pathJoin(dir, kept[k]))
  }

  datatype ContentType = PostsContent | ProjectsContent

  /** Validated frontmatter: its content-type tag and the remaining fields. */
  datatype Frontmatter<F> = Frontmatter(fmContentType: ContentType, rest: F)

  datatype ParsedFile<F> = ParsedFile(fields: F, content: string)

  /**
   * `parseMarkdownFile`: nothing when the file cannot be read (`body` is
   * absent) or its frontmatter fails validation; otherwise the frontmatter
   * without its content-type tag and the trimmed body.
   */
  function ParseMarkdownFile<F>(body: Option<string>, frontmatter: Option<Frontmatter<F>>): (r: Option<ParsedFile<F>>)
    ensures r.Some? <==> body.Some? && frontmatter.Some?
    ensures r.Some? ==> r.value.fields == frontmatter.value.rest
    ensures r.Some? ==> r.value.content == Trim(body.value)
    ensures r.Some? ==> r.value.content == [] || (!IsSpace(r.value.content[0]) && !IsSpace(r.value.content[|r.value.content| - 1]))
    ensures r.Some? ==> exists i, j :: 0 <= i <= j <= |body.value| && r.value.content == body.value[i..j]
  {
    if body.None? || frontmatter.None? then None
    else Some(ParsedFile(frontmatter.value.rest, Trim(body.value)))
  }
}
