/**
 * The validators of the schema: the slug pattern `^(\w+)((-\w+)+)?$`, the
 * length bounds of post, comment and contact-form fields, and the
 * lowercase rule on tags.
 */
module Schema {
  import opened Wrappers
  import opened Text
  import opened Posts

  // ---------------------------------------------------------------------
  // slugRegEx

  predicate AllWord(p: string) {
    forall i :: 0 <= i < |p| ==> IsWordChar(p[i])
  }

  /**
   * The pattern after a word character: further word characters, or a
   * hyphen that a word character follows.
   */
  predicate MatchTail(t: string)
    decreases |t|
  {
    if t == [] then true
    else if IsWordChar(t[0]) then MatchTail(t[1..])
    else t[0] == '-' && |t| >= 2 && IsWordChar(t[1]) && MatchTail(t[2..])
  }

  /** `slugRegEx.test(s)`: a word character, then the tail of the pattern. */
  predicate IsSlug(s: string) {
    |s| >= 1 && IsWordChar(s[0]) && MatchTail(s[1..])
  }

  /** What an accepted slug looks like character by character. */
  predicate SlugShape(s: string) {
    |s| >= 1 &&
    (forall i :: 0 <= i < |s| ==> IsWordChar(s[i]) || s[i] == '-') &&
    s[0] != '-' && s[|s| - 1] != '-' &&
    (forall i :: 0 <= i < |s| - 1 ==> !(s[i] == '-' && s[i + 1] == '-'))
  }

  /** The shape of a tail: slug characters, no trailing hyphen, no two hyphens in a row. */
  predicate TailShape(t: string) {
    (forall i :: 0 <= i < |t| ==> IsWordChar(t[i]) || t[i] == '-') &&
    (t == [] || t[|t| - 1] != '-') &&
    (forall i :: 0 <= i < |t| - 1 ==> !(t[i] == '-' && t[i + 1] == '-'))
  }

  lemma {:induction false} MatchTailShape(t: string)
    ensures MatchTail(t) <==> TailShape(t)
    decreases |t|
  {
    if t != [] {
      if IsWordChar(t[0]) {
        MatchTailShape(t[1..]);
        assert forall i :: 1 <= i < |t| ==> t[i] == t[1..][i - 1];
      } else if t[0] == '-' && |t| >= 2 {
        MatchTailShape(t[2..]);
        assert forall i :: 2 <= i < |t| ==> t[i] == t[2..][i - 2];
        if TailShape(t) {
          assert !(t[0] == '-' && t[1] == '-');
        }
      }
    }
  }

  /** The slug pattern accepts exactly the strings of slug shape. */
  lemma SlugShapeIff(s: string)
    ensures IsSlug(s) <==> SlugShape(s)
  {
    if |s| >= 1 {
      MatchTailShape(s[1..]);
      assert forall i :: 1 <= i < |s| ==> s[i] == s[1..][i - 1];
    }
  }

  lemma AllWordCons(c: char, r: string)
    ensures AllWord([c] + r) <==> IsWordChar(c) && AllWord(r)
  {
    var s := [c] + r;
    if IsWordChar(c) && AllWord(r) {
      forall i | 0 <= i < |s| ensures IsWordChar(s[i]) {
        if i > 0 {
          assert s[i] == r[i - 1];
        }
      }
    }
    if AllWord(s) {
      assert s[0] == c;
      forall i | 0 <= i < |r| ensures IsWordChar(r[i]) {
        assert r[i] == s[i + 1];
      }
    }
  }

  /** The pieces between hyphens after a word character: the first may be empty, the others may not. */
  predicate TailRuns(t: string) {
    var ps := Split(t, '-');
    AllWord(ps[0]) && forall k :: 1 <= k < |ps| ==> ps[k] != "" && AllWord(ps[k])
  }

  /** One or more non-empty runs of word characters separated by single hyphens. */
  predicate WordRuns(s: string) {
    var ps := Split(s, '-');
    forall k :: 0 <= k < |ps| ==> ps[k] != "" && AllWord(ps[k])
  }

  lemma {:induction false} MatchTailRuns(t: string)
    ensures MatchTail(t) <==> TailRuns(t)
    decreases |t|
  {
    if t != [] {
      var ps := Split(t, '-');
      if IsWordChar(t[0]) {
        MatchTailRuns(t[1..]);
        var rest := Split(t[1..], '-');
        assert ps[0] == [t[0]] + rest[0];
        assert forall k :: 1 <= k < |ps| ==> ps[k] == rest[k];
        AllWordCons(t[0], rest[0]);
      } else if t[0] == '-' {
        var u := t[1..];
        var us := Split(u, '-');
        assert ps == [""] + us;
        if |u| >= 1 && IsWordChar(u[0]) {
          MatchTailRuns(u[1..]);
          var rest := Split(u[1..], '-');
          assert us[0] == [u[0]] + rest[0];
          assert forall k :: 1 <= k < |us| ==> us[k] == rest[k];
          AllWordCons(u[0], rest[0]);
          assert u[1..] == t[2..] && t[1] == u[0];
          if TailRuns(t) {
            assert ps[1] == us[0];
            forall k | 1 <= k < |rest| ensures rest[k] != "" && AllWord(rest[k]) {
              assert ps[k + 1] == us[k];
            }
          }
          if TailRuns(u[1..]) {
            forall k | 1 <= k < |ps| ensures ps[k] != "" && AllWord(ps[k]) {
              assert ps[k] == us[k - 1];
            }
            assert ps[0] == "";
          }
        } else if |u| >= 1 && u[0] != '-' {
          assert us[0][0] == u[0];
          assert ps[1] == us[0];
        } else if |u| >= 1 {
          assert us[0] == "";
          assert ps[1] == us[0];
        } else {
          assert ps[1] == "";
        }
      } else {
        assert ps[0][0] == t[0];
      }
    }
  }

  /** The slug pattern accepts exactly the non-empty runs of `[A-Za-z0-9_]` joined by single hyphens. */
  lemma SlugRunsIff(s: string)
    ensures IsSlug(s) <==> WordRuns(s)
  {
    var ps := Split(s, '-');
    if |s| >= 1 && IsWordChar(s[0]) {
      MatchTailRuns(s[1..]);
      var rest := Split(s[1..], '-');
      assert ps[0] == [s[0]] + rest[0];
      assert forall k :: 1 <= k < |ps| ==> ps[k] == rest[k];
      AllWordCons(s[0], rest[0]);
    } else if |s| >= 1 && s[0] != '-' {
      assert ps[0][0] == s[0];
    } else if |s| >= 1 {
      assert ps[0] == "";
    } else {
      assert ps[0] == "";
    }
  }

  // ---------------------------------------------------------------------
  // postFields, commentField, contactFormFields

  const Languages: seq<string> := ["en", "de", "zh-cn"]

  predicate IsLowercase(s: string) {
    Lower(s) == s
  }

  /**
   * The bounds `postFields` puts on a post: title at most 60 characters, a
   * slug of the pattern, a known language, excerpt at most 100 and
   * description at most 200 characters, lowercase tags, and a non-negative
   * `featuredOrder` when one is given.
   */
  predicate ValidPost(p: Post) {
    |p.title| <= 60 && IsSlug(p.slug) && p.language in Languages &&
    |p.excerpt| <= 100 && |p.description| <= 200 &&
    (forall k :: 0 <= k < |p.tags| ==> IsLowercase(p.tags[k])) &&
    (p.featuredOrder.Some? ==> p.featuredOrder.value >= 0)
  }

  /**
   * On a post whose tags are lowercase, the tag filter of the published
   * listing ignores the case of the requested tag: it keeps the post iff
   * some tag equals the request up to ASCII case.
   */
  lemma TagFilterIgnoresCase(p: Post, tag: string)
    requires ValidPost(p) && tag != ""
    ensures MatchesTag(p, Some(tag)) <==> exists k :: 0 <= k < |p.tags| && Lower(p.tags[k]) == Lower(tag)
  {
    if MatchesTag(p, Some(tag)) {
      var k :| 0 <= k < |p.tags| && p.tags[k] == Lower(tag);
      assert Lower(p.tags[k]) == Lower(tag);
    }
    if exists k :: 0 <= k < |p.tags| && Lower(p.tags[k]) == Lower(tag) {
      var k :| 0 <= k < |p.tags| && Lower(p.tags[k]) == Lower(tag);
      assert p.tags[k] == Lower(tag);
    }
  }

  const CommentTooLongMessage := "Comment length shall be less than 500"

  /** The comment content bound: at most 500 characters. */
  function CheckCommentContent(content: string): (r: Result<string>)
    ensures r.Ok? <==> |content| <= 500
    ensures r.Ok? ==> r.value == content
    ensures r.Err? ==> r.message == CommentTooLongMessage
  {
    if |content| <= 500 then Ok(content) else Err(CommentTooLongMessage)
  }

  datatype ContactForm = ContactForm(name: string, email: string, message: string)

  const NameTooShort := "Your name must be at least 2 chars"
  const NameTooLong := "You name must be at most 20 chars"
  const EmailInvalid := "Email is invalid"
  const MessageTooShort := "Your message must be at least 10 chars"

  /**
   * The issues `contactFormFields` reports, field by field: name between 2
   * and 20 characters, an e-mail address (whose check, `emailOk`, is the
   * validation library's), message at least 10 characters.
   */
  function ContactIssues(f: ContactForm, emailOk: bool): (issues: seq<string>)
    ensures issues == [] <==> 2 <= |f.name| <= 20 && emailOk && |f.message| >= 10
    ensures |issues| == (if 2 <= |f.name| <= 20 then 0 else 1) + (if emailOk then 0 else 1) +
                        (if |f.message| >= 10 then 0 else 1)
    ensures NameTooShort in issues <==> |f.name| < 2
    ensures NameTooLong in issues <==> |f.name| > 20
    ensures EmailInvalid in issues <==> !emailOk
    ensures MessageTooShort in issues <==> |f.message| < 10
    ensures |f.name| < 2 ==> issues[0] == NameTooShort
    ensures |f.name| > 20 ==> issues[0] == NameTooLong
    ensures !emailOk ==> issues[if 2 <= |f.name| <= 20 then 0 else 1] == EmailInvalid
    ensures |f.message| < 10 ==> issues[|issues| - 1] == MessageTooShort
  {
    (if |f.name| < 2 then [NameTooShort]
     else if |f.name| > 20 then [NameTooLong]
     else []) +
    (if emailOk then [] else [EmailInvalid]) +
    (if |f.message| < 10 then [MessageTooShort] else [])
  }
}
