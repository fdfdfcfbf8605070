/**
 * The `post` queries and mutations of `convex/post.ts`: tag counting, the
 * published listing's tag filter, lookup by slug, related-post ranking,
 * view counters and the markdown sync.
 */
module Posts {
  import opened Wrappers
  import opened Text
  import opened Sorting
  import opened Database
  import opened Reconcile

  /** A `post` document. */
  datatype Post = Post(
    title: string, slug: string, language: string, excerpt: string, description: string,
    content: string, date: string, lastmod: string,
    isPublished: bool, isUnlisted: bool, tags: seq<string>,
    coverImageKey: Option<string>, coverImageUrl: string,
    isFeatured: bool, featuredOrder: Option<int>, lastSyncedAt: string)

  // ---------------------------------------------------------------------
  // getAllPostTags

  datatype TagCount = TagCount(tag: string, count: nat)

  /** The posts the tag cloud counts: published and not unlisted. */
  function Listed(posts: seq<Post>): seq<Post> {
    Filter(posts, (p: Post) => p.isPublished && !p.isUnlisted)
  }

  /** Every tag of every post, post after post. */
  function AllTags(posts: seq<Post>): seq<string>
    decreases |posts|
  {
    if posts == [] then [] else AllTags(posts[..|posts| - 1]) + posts[|posts| - 1].tags
  }

  /** How many times `tag` occurs across the posts' tag lists. */
  function Occurrences(posts: seq<Post>, tag: string): nat {
    multiset(AllTags(posts))[tag]
  }

  function TagsOf(counts: seq<TagCount>): (tags: seq<string>)
    ensures |tags| == |counts|
    ensures forall k :: 0 <= k < |counts| ==> tags[k] == counts[k].tag
  {
    seq(|counts|, k requires 0 <= k < |counts| => counts[k].tag)
  }

  /** The tag cloud's order: count descending, then tag ascending. */
  function ByCountThenTag(c: TagCount): SortKey {
    SortKey(-(c.count as int), 0, c.tag)
  }

  predicate DistinctTags(counts: seq<TagCount>) {
    forall i, j :: 0 <= i < j < |counts| ==> counts[i].tag != counts[j].tag
  }

  lemma TwoPositions<T>(r: seq<T>, i: nat, j: nat)
    requires i < j < |r| && r[i] == r[j]
    ensures multiset(r)[r[i]] >= 2
  {
    assert r == r[..i] + [r[i]] + r[i + 1..j] + [r[j]] + r[j + 1..];
  }

  lemma OnlyPosition(s: seq<TagCount>, a: nat)
    requires a < |s| && DistinctTags(s)
    ensures multiset(s)[s[a]] == 1
  {
    var x := s[a];
    assert s == s[..a] + [x] + s[a + 1..];
    assert x !in s[..a];
    var tail := s[a + 1..];
    forall k | 0 <= k < |tail| ensures tail[k] != x {
      assert tail[k] == s[a + 1 + k];
    }
  }

  /** A permutation of tag counts with distinct tags has distinct tags. */
  lemma DistinctTagsKept(s: seq<TagCount>, r: seq<TagCount>)
    requires multiset(r) == multiset(s)
    requires DistinctTags(s)
    ensures DistinctTags(r)
  {
    forall i, j | 0 <= i < j < |r| ensures r[i].tag != r[j].tag {
      if r[i].tag == r[j].tag {
        assert r[i] in multiset(s) && r[j] in multiset(s);
        var a :| 0 <= a < |s| && s[a] == r[i];
        var b :| 0 <= b < |s| && s[b] == r[j];
        assert a == b;
        TwoPositions(r, i, j);
        OnlyPosition(s, a);
        assert false;
      }
    }
  }

  /**
   * The state of the counting loop after it has seen the tags in `seen`:
   * `keys` is the Map's key order (each key once), `counts` its values.
   */
  ghost predicate Tally(keys: seq<string>, counts: map<string, nat>, seen: multiset<string>) {
    (forall a, b :: 0 <= a < b < |keys| ==> keys[a] != keys[b]) &&
    (forall t :: t in keys <==> t in counts) &&
    (forall t :: t in counts <==> t in seen) &&
    (forall t :: t in counts ==> counts[t] == seen[t])
  }

  /** `tagCounts.set(tag, (tagCounts.get(tag) || 0) + 1)`: a new tag joins the keys with count 1, a known one goes up by 1. */
  method AddTag(keys: seq<string>, counts: map<string, nat>, ghost seen: multiset<string>, tag: string)
    returns (keys': seq<string>, counts': map<string, nat>)
    requires Tally(keys, counts, seen)
    ensures Tally(keys', counts', seen + multiset{tag})
    ensures keys' == if tag in counts then keys else keys + [tag]
  {
    // `tagCounts.get(tag) || 0`: a stored count is never 0.
    var previous := if tag in counts then counts[tag] else 0;
    if tag in counts {
      keys' := keys;
    } else {
      keys' := keys + [tag];
      forall a, b | 0 <= a < b < |keys'| ensures keys'[a] != keys'[b] {
        if b == |keys| {
          assert keys'[a] in keys;
        }
      }
    }
    counts' := counts[tag := previous + 1];
  }

  /** The inner loop: counts one post's tags into the Map. */
  method CountTags(keys: seq<string>, counts: map<string, nat>, ghost seen: multiset<string>, tags: seq<string>)
    returns (keys': seq<string>, counts': map<string, nat>)
    requires Tally(keys, counts, seen)
    ensures Tally(keys', counts', seen + multiset(tags))
  {
    keys', counts' := keys, counts;
    var j := 0;
    while j < |tags|
      invariant 0 <= j <= |tags|
      invariant Tally(keys', counts', seen + multiset(tags[..j]))
    {
      keys', counts' := AddTag(keys', counts', seen + multiset(tags[..j]), tags[j]);
      assert tags[..j + 1] == tags[..j] + [tags[j]];
      j := j + 1;
    }
    assert tags[..j] == tags;
  }

  /** The Map's entries, each as a tag and its count. */
  function Entries(keys: seq<string>, counts: map<string, nat>): (e: seq<TagCount>)
    requires forall t :: t in keys ==> t in counts
    ensures |e| == |keys|
    ensures forall k :: 0 <= k < |keys| ==> e[k] == TagCount(keys[k], counts[keys[k]])
  {
    seq(|keys|, k requires 0 <= k < |keys| => TagCount(keys[k], counts[keys[k]]))
  }

  /** Sorting the entries of a complete tally gives the promised tag list. */
  lemma SortedEntries(keys: seq<string>, counts: map<string, nat>, all: seq<string>, result: seq<TagCount>)
    requires Tally(keys, counts, multiset(all))
    requires multiset(result) == multiset(Entries(keys, counts))
    ensures forall t :: t in TagsOf(result) <==> t in all
    ensures forall k :: 0 <= k < |result| ==> result[k].count == multiset(all)[result[k].tag]
    ensures DistinctTags(result)
  {
    var entries := Entries(keys, counts);
    DistinctTagsKept(entries, result);
    forall t | t in all ensures t in TagsOf(result) {
      assert t in multiset(all) && t in keys;
      var a :| 0 <= a < |keys| && keys[a] == t;
      assert entries[a] in multiset(result);
      var b :| 0 <= b < |result| && result[b] == entries[a];
      assert TagsOf(result)[b] == t;
    }
    forall k | 0 <= k < |result| ensures result[k].tag in all && result[k].count == multiset(all)[result[k].tag] {
      assert result[k] in multiset(entries);
      var a :| 0 <= a < |entries| && entries[a] == result[k];
      assert result[k].tag == keys[a] && keys[a] in counts;
      assert result[k].tag in multiset(all);
    }
  }

  /**
   * `getAllPostTags`: one entry per tag used by a listed post, counting its
   * occurrences, ordered by count descending and then tag ascending.
   */
  method AllPostTags(posts: seq<Post>) returns (result: seq<TagCount>)
    ensures forall t :: t in TagsOf(result) <==> t in AllTags(Listed(posts))
    ensures forall k :: 0 <= k < |result| ==> result[k].count == Occurrences(Listed(posts), result[k].tag)
    ensures DistinctTags(result)
    ensures SortedBy(result, ByCountThenTag)
  {
    var listed := Listed(posts);
    var keys: seq<string> := [];
    var counts: map<string, nat> := map[];
    var i := 0;
    while i < |listed|
      invariant 0 <= i <= |listed|
      invariant Tally(keys, counts, multiset(AllTags(listed[..i])))
    {
      assert AllTags(listed[..i + 1]) == AllTags(listed[..i]) + listed[i].tags by {
        assert listed[..i + 1][..i] == listed[..i];
      }
      keys, counts := CountTags(keys, counts, multiset(AllTags(listed[..i])), listed[i].tags);
      i := i + 1;
    }
    assert listed[..i] == listed;
    result := SortBy(Entries(keys, counts), ByCountThenTag);
    SortedEntries(keys, counts, AllTags(listed), result);
  }

  // ---------------------------------------------------------------------
  // getPublishedPosts

  /** The optional `tag` argument keeps a post iff it is absent or empty, or the post carries its lowercase form. */
  predicate MatchesTag(p: Post, tag: Option<string>) {
    tag.None? || tag.value == "" || Lower(tag.value) in p.tags
  }

  function ByDate(p: Post): SortKey {
    SortKey(0, 0, p.date)
  }

  /** The posts the listing's index range and filter keep. */
  function ListedWithTag(tag: Option<string>): Post -> bool {
    (p: Post) => p.isPublished && !p.isUnlisted && MatchesTag(p, tag)
  }

  /** The kept posts in table (creation) order. */
  function Published(posts: seq<Post>, tag: Option<string>): seq<Post> {
    Filter(posts, ListedWithTag(tag))
  }

  /**
   * `getPublishedPosts` before pagination: the published, listed posts
   * matching the tag, each as often as stored, newest first (the index's
   * descending date order); posts of equal date come newest-created first.
   */
  function PublishedPosts(posts: seq<Post>, tag: Option<string>): (r: seq<Post>)
    ensures forall p :: p in r <==> p in posts && p.isPublished && !p.isUnlisted && MatchesTag(p, tag)
    ensures multiset(r) == multiset(Published(posts, tag))
    ensures forall i, j :: 0 <= i < j < |r| ==> LexLe(r[j].date, r[i].date)
    ensures forall k :: Filter(r, KeyIs(ByDate, k)) == Reverse(Filter(Published(posts, tag), KeyIs(ByDate, k)))
  {
    PublishedMembers(posts, tag);
    PublishedDescending(Published(posts, tag));
    PublishedTieOrder(Published(posts, tag));
    Reverse(SortBy(Published(posts, tag), ByDate))
  }

  /** The reversed ascending sort holds exactly the kept posts. */
  lemma PublishedMembers(posts: seq<Post>, tag: Option<string>)
    ensures forall p :: p in Reverse(SortBy(Published(posts, tag), ByDate)) <==>
                        p in posts && p.isPublished && !p.isUnlisted && MatchesTag(p, tag)
  {
    var kept := Published(posts, tag);
    var r := Reverse(SortBy(kept, ByDate));
    assert multiset(r) == multiset(kept);
    forall p ensures p in r <==> p in kept {
      assert p in r <==> p in multiset(r);
      assert p in kept <==> p in multiset(kept);
    }
    PublishedIff(posts, tag);
  }

  /** The filter keeps exactly the published, listed posts with the tag. */
  lemma PublishedIff(posts: seq<Post>, tag: Option<string>)
    ensures forall p :: p in Published(posts, tag) <==> p in posts && p.isPublished && !p.isUnlisted && MatchesTag(p, tag)
  {
    forall p | p in posts && ListedWithTag(tag)(p) ensures p in Published(posts, tag) {
      var i :| 0 <= i < |posts| && posts[i] == p;
    }
  }

  /** The reversed ascending sort lists the latest date first. */
  lemma PublishedDescending(kept: seq<Post>)
    ensures var r := Reverse(SortBy(kept, ByDate));
            forall i, j :: 0 <= i < j < |r| ==> LexLe(r[j].date, r[i].date)
  {
    var ascending := SortBy(kept, ByDate);
    var r := Reverse(ascending);
    forall i, j | 0 <= i < j < |r| ensures LexLe(r[j].date, r[i].date) {
      assert KeyLe(ByDate(ascending[|r| - 1 - j]), ByDate(ascending[|r| - 1 - i]));
    }
  }

  /** Reversing the stable ascending sort puts equal dates in reverse table order. */
  lemma PublishedTieOrder(kept: seq<Post>)
    ensures forall k :: Filter(Reverse(SortBy(kept, ByDate)), KeyIs(ByDate, k)) == Reverse(Filter(kept, KeyIs(ByDate, k)))
  {
    forall k ensures Filter(Reverse(SortBy(kept, ByDate)), KeyIs(ByDate, k)) == Reverse(Filter(kept, KeyIs(ByDate, k))) {
      FilterReverse(SortBy(kept, ByDate), KeyIs(ByDate, k));
      SortByStable(kept, ByDate, k);
    }
  }

  // ---------------------------------------------------------------------
  // getPostBySlug

  function WithSlug(posts: seq<Post>, slug: string): seq<Post> {
    Filter(posts, (p: Post) => p.slug == slug)
  }

  /**
   * `getPostBySlug`: the unique published post with the slug; `None` when
   * there is none or it is unpublished; an error when several posts share
   * the slug (`.unique()` throws).
   */
  function PostBySlug(posts: seq<Post>, slug: string): (r: Result<Option<Post>>)
    ensures r.Err? <==> |WithSlug(posts, slug)| > 1
    ensures r.Ok? && r.value.Some? ==>
              r.value.value in posts && r.value.value.slug == slug && r.value.value.isPublished
    ensures r.Ok? && r.value.None? ==> forall p :: p in posts && p.slug == slug ==> !p.isPublished
    ensures |WithSlug(posts, slug)| == 1 && WithSlug(posts, slug)[0].isPublished ==>
              r == Ok(Some(WithSlug(posts, slug)[0]))
  {
    var matches := WithSlug(posts, slug);
    if |matches| > 1 then Err("unique() query returned more than one result")
    else if |matches| == 0 || !matches[0].isPublished then
      assert forall p :: p in posts && p.slug == slug ==> p in matches;
      Ok(None)
    else Ok(Some(matches[0]))
  }

  // ---------------------------------------------------------------------
  // getRelatedPosts

  /** The projection `getRelatedPosts` returns, with its score. */
  datatype RelatedPost = RelatedPost(id: nat, coverImageUrl: string, slug: string, title: string,
                                     excerpt: string, date: string, tags: seq<string>, sharedTags: nat)

  function LowerAll(tags: seq<string>): (r: seq<string>)
    ensures |r| == |tags|
    ensures forall k :: 0 <= k < |tags| ==> r[k] == Lower(tags[k])
  {
    seq(|tags|, k requires 0 <= k < |tags| => Lower(tags[k]))
  }

  /** How many of the post's tags equal the lowercase form of some query tag. */
  function SharedTags(postTags: seq<string>, queryTags: seq<string>): nat {
    |Filter(postTags, (tag: string) => tag in LowerAll(queryTags))|
  }

  /** A post that may be related: published, not the current one, not unlisted. */
  predicate IsCandidate(row: Row<Post>, currentSlug: string) {
    row.doc.isPublished && row.doc.slug != currentSlug && !row.doc.isUnlisted
  }

  function Score(row: Row<Post>, queryTags: seq<string>): RelatedPost {
    RelatedPost(row.id, row.doc.coverImageUrl, row.doc.slug, row.doc.title, row.doc.excerpt,
                row.doc.date, row.doc.tags, SharedTags(row.doc.tags, queryTags))
  }

  /** The related order: more shared tags first, then newer first. */
  function ByRelevance(timeOf: string -> int): RelatedPost -> SortKey {
    (x: RelatedPost) => SortKey(-(x.sharedTags as int), -timeOf(x.date), "")
  }

  function CandidateOf(currentSlug: string): Row<Post> -> bool {
    (row: Row<Post>) => IsCandidate(row, currentSlug)
  }

  function Candidates(rows: seq<Row<Post>>, currentSlug: string): seq<Row<Post>> {
    Filter(rows, CandidateOf(currentSlug))
  }

  predicate HasShared(x: RelatedPost) {
    x.sharedTags > 0
  }

  /** A candidate row that shares at least one tag with the query. */
  function SharingCandidate(currentSlug: string, queryTags: seq<string>): Row<Post> -> bool {
    (row: Row<Post>) => IsCandidate(row, currentSlug) && SharedTags(row.doc.tags, queryTags) > 0
  }

  /** The rows a related post comes from, in table order. */
  function RelevantRows(rows: seq<Row<Post>>, currentSlug: string, queryTags: seq<string>): seq<Row<Post>> {
    Filter(rows, SharingCandidate(currentSlug, queryTags))
  }

  function Scores(candidates: seq<Row<Post>>, queryTags: seq<string>): (r: seq<RelatedPost>)
    ensures |r| == |candidates|
    ensures forall k :: 0 <= k < |candidates| ==> r[k] == Score(candidates[k], queryTags)
  {
    seq(|candidates|, k requires 0 <= k < |candidates| => Score(candidates[k], queryTags))
  }

  lemma ScoresConcat(a: seq<Row<Post>>, b: seq<Row<Post>>, queryTags: seq<string>)
    ensures Scores(a + b, queryTags) == Scores(a, queryTags) + Scores(b, queryTags)
  {
  }

  /** One row: scored and kept exactly when it is a candidate sharing a tag. */
  lemma HeadScore(head: Row<Post>, currentSlug: string, queryTags: seq<string>)
    ensures Filter(Scores(Filter([head], CandidateOf(currentSlug)), queryTags), HasShared) ==
            Scores(Filter([head], SharingCandidate(currentSlug, queryTags)), queryTags)
  {
    FilterOne(head, CandidateOf(currentSlug));
    FilterOne(head, SharingCandidate(currentSlug, queryTags));
    FilterOne(Score(head, queryTags), HasShared);
    if IsCandidate(head, currentSlug) {
      assert Scores([head], queryTags) == [Score(head, queryTags)];
    } else {
      assert Scores([], queryTags) == [];
      assert Filter([], HasShared) == [];
    }
  }

  /** Filtering the scores by the shared count scores exactly the sharing candidates. */
  lemma {:induction false} ScoresThenFilter(rows: seq<Row<Post>>, currentSlug: string, queryTags: seq<string>)
    ensures Filter(Scores(Candidates(rows, currentSlug), queryTags), HasShared) ==
            Scores(RelevantRows(rows, currentSlug, queryTags), queryTags)
    decreases |rows|
  {
    if rows == [] {
      assert Scores([], queryTags) == [];
    } else {
      var head, tail := rows[0], rows[1..];
      var candidate, sharing := CandidateOf(currentSlug), SharingCandidate(currentSlug, queryTags);
      assert rows == [head] + tail;
      var firstCandidate, firstSharing := Filter([head], candidate), Filter([head], sharing);
      calc {
        Filter(Scores(Candidates(rows, currentSlug), queryTags), HasShared);
        { FilterConcat([head], tail, candidate); }
        Filter(Scores(firstCandidate + Candidates(tail, currentSlug), queryTags), HasShared);
        { ScoresConcat(firstCandidate, Candidates(tail, currentSlug), queryTags); }
        Filter(Scores(firstCandidate, queryTags) + Scores(Candidates(tail, currentSlug), queryTags), HasShared);
        { FilterConcat(Scores(firstCandidate, queryTags), Scores(Candidates(tail, currentSlug), queryTags), HasShared); }
        Filter(Scores(firstCandidate, queryTags), HasShared) + Filter(Scores(Candidates(tail, currentSlug), queryTags), HasShared);
        { HeadScore(head, currentSlug, queryTags); ScoresThenFilter(tail, currentSlug, queryTags); }
        Scores(firstSharing, queryTags) + Scores(RelevantRows(tail, currentSlug, queryTags), queryTags);
        { ScoresConcat(firstSharing, RelevantRows(tail, currentSlug, queryTags), queryTags); }
        Scores(firstSharing + RelevantRows(tail, currentSlug, queryTags), queryTags);
        { FilterConcat([head], tail, sharing); }
        Scores(RelevantRows(rows, currentSlug, queryTags), queryTags);
      }
    }
  }

  /**
   * The scores of the candidates that share at least one tag, once each
   * and in table order.
   */
  function Relevant(rows: seq<Row<Post>>, currentSlug: string, queryTags: seq<string>): (r: seq<RelatedPost>)
    ensures r == Scores(RelevantRows(rows, currentSlug, queryTags), queryTags)
    ensures |r| <= |rows|
  {
    ScoresThenFilter(rows, currentSlug, queryTags);
    Filter(Scores(Candidates(rows, currentSlug), queryTags), HasShared)
  }

  /** Everything in `Relevant` is the score of a candidate that shares a tag. */
  lemma RelevantSound(rows: seq<Row<Post>>, currentSlug: string, queryTags: seq<string>, x: RelatedPost)
    requires x in Relevant(rows, currentSlug, queryTags)
    ensures x.sharedTags > 0
    ensures exists row :: row in rows && IsCandidate(row, currentSlug) && x == Score(row, queryTags)
  {
    var candidates := Candidates(rows, currentSlug);
    var scored := Scores(candidates, queryTags);
    var a :| 0 <= a < |scored| && scored[a] == x;
    assert candidates[a] in rows && IsCandidate(candidates[a], currentSlug);
  }

  /** Every candidate that shares a tag is scored into `Relevant`. */
  lemma RelevantComplete(rows: seq<Row<Post>>, currentSlug: string, queryTags: seq<string>, row: Row<Post>)
    requires row in rows && IsCandidate(row, currentSlug) && Score(row, queryTags).sharedTags > 0
    ensures Score(row, queryTags) in Relevant(rows, currentSlug, queryTags)
  {
    var candidates := Candidates(rows, currentSlug);
    var scored := Scores(candidates, queryTags);
    var a :| 0 <= a < |candidates| && candidates[a] == row;
    assert scored[a] == Score(row, queryTags);
  }

  /**
   * Every candidate sharing at least one tag, best first. `timeOf` is the
   * date parse (`new Date(date).getTime()`).
   */
  function RankedRelated(rows: seq<Row<Post>>, currentSlug: string, queryTags: seq<string>,
                         timeOf: string -> int): (r: seq<RelatedPost>)
    ensures SortedBy(r, ByRelevance(timeOf))
    ensures multiset(r) == multiset(Relevant(rows, currentSlug, queryTags))
    ensures |r| <= |rows|
  {
    SortBy(Relevant(rows, currentSlug, queryTags), ByRelevance(timeOf))
  }

  /**
   * `getRelatedPosts`: nothing for an empty tag list; otherwise the ranking
   * cut by `slice(0, limit)` (the caller's default limit is 3).
   */
  function RelatedPosts(rows: seq<Row<Post>>, currentSlug: string, queryTags: seq<string>,
                        limit: int, timeOf: string -> int): (r: seq<RelatedPost>)
    ensures queryTags == [] ==> r == []
    ensures queryTags != [] ==>
              r == RankedRelated(rows, currentSlug, queryTags, timeOf)[..SliceEnd(|RankedRelated(rows, currentSlug, queryTags, timeOf)|, limit)]
    ensures limit >= 0 ==> |r| <= limit
    ensures queryTags != [] && limit >= |rows| ==> r == RankedRelated(rows, currentSlug, queryTags, timeOf)
  {
    if queryTags == [] then []
    else
      var ranked := RankedRelated(rows, currentSlug, queryTags, timeOf);
      ranked[..SliceEnd(|ranked|, limit)]
  }

  const DefaultRelatedLimit := 3

  /** Under the default limit, a query with tags gets the three best-ranked posts, or all when fewer relate. */
  lemma DefaultLimitTopThree(rows: seq<Row<Post>>, currentSlug: string, queryTags: seq<string>, timeOf: string -> int)
    requires queryTags != []
    ensures var ranked := RankedRelated(rows, currentSlug, queryTags, timeOf);
            RelatedPosts(rows, currentSlug, queryTags, DefaultRelatedLimit, timeOf) ==
              if |ranked| <= 3 then ranked else ranked[..3]
  {
  }

  /** Every related result shares a tag, is a listed published post other than the current one, and is scored. */
  lemma RelatedPostsAreRelevant(rows: seq<Row<Post>>, currentSlug: string, queryTags: seq<string>,
                                limit: int, timeOf: string -> int, x: RelatedPost)
    requires x in RelatedPosts(rows, currentSlug, queryTags, limit, timeOf)
    ensures x.sharedTags > 0 && x.slug != currentSlug
    ensures exists row :: row in rows && IsCandidate(row, currentSlug) && x == Score(row, queryTags)
  {
    var ranked := RankedRelated(rows, currentSlug, queryTags, timeOf);
    var r := RelatedPosts(rows, currentSlug, queryTags, limit, timeOf);
    assert x in ranked by {
      var k :| 0 <= k < |r| && r[k] == x;
      assert ranked[k] == x;
    }
    assert x in multiset(Relevant(rows, currentSlug, queryTags));
    RelevantSound(rows, currentSlug, queryTags, x);
  }

  // ---------------------------------------------------------------------
  // getPostViewCount / increasePostViewCount

  /** A `postViewCount` document. */
  datatype ViewCount = ViewCount(slug: string, count: int)

  /** The first row holding `slug` (`.first()` on the slug index). */
  function FirstWithSlug(rows: seq<Row<ViewCount>>, slug: string): (r: Option<Row<ViewCount>>)
    ensures r.None? <==> forall k :: 0 <= k < |rows| ==> rows[k].doc.slug != slug
    ensures r.Some? ==> exists k :: 0 <= k < |rows| && rows[k] == r.value && r.value.doc.slug == slug &&
                          forall m :: 0 <= m < k ==> rows[m].doc.slug != slug
    decreases |rows|
  {
    if rows == [] then None
    else if rows[0].doc.slug == slug then Some(rows[0])
    else
      var rest := FirstWithSlug(rows[1..], slug);
      if rest.Some? then
        ghost var k :| 0 <= k < |rows[1..]| && rows[1..][k] == rest.value && rest.value.doc.slug == slug &&
                       forall m :: 0 <= m < k ==> rows[1..][m].doc.slug != slug;
        assert rows[k + 1] == rest.value;
        rest
      else rest
  }

  /** `getPostViewCount`: the first counter for the slug, or 0 when no row holds it. */
  function ViewCountOf(rows: seq<Row<ViewCount>>, slug: string): (n: int)
    ensures (forall k :: 0 <= k < |rows| ==> rows[k].doc.slug != slug) ==> n == 0
  {
    match FirstWithSlug(rows, slug)
    case Some(row) => row.doc.count
    case None => 0
  }

  /** A slug's view count is the count of the first row holding it. */
  lemma ViewCountIsFirst(rows: seq<Row<ViewCount>>, slug: string, k: nat)
    requires k < |rows| && rows[k].doc.slug == slug
    requires forall m :: 0 <= m < k ==> rows[m].doc.slug != slug
    ensures ViewCountOf(rows, slug) == rows[k].doc.count
  {
    var r := FirstWithSlug(rows, slug);
    var j :| 0 <= j < |rows| && rows[j] == r.value && r.value.doc.slug == slug &&
             forall m :: 0 <= m < j ==> rows[m].doc.slug != slug;
    assert j == k;
  }

  /** Appending a row leaves every existing first counter in place. */
  lemma {:induction false} FirstAfterAppend(rows: seq<Row<ViewCount>>, row: Row<ViewCount>, s: string)
    ensures FirstWithSlug(rows + [row], s) ==
              if FirstWithSlug(rows, s).Some? then FirstWithSlug(rows, s)
              else if row.doc.slug == s then Some(row) else None
    decreases |rows|
  {
    if rows != [] {
      assert (rows + [row])[1..] == rows[1..] + [row];
      FirstAfterAppend(rows[1..], row, s);
    }
  }

  /**
   * Patching the first counter of `slug` without touching its slug changes
   * what `slug` reads and nothing any other slug reads.
   */
  lemma {:induction false} PatchFirstCounter(rows: seq<Row<ViewCount>>, slug: string, s: string,
                                             update: ViewCount -> ViewCount)
    requires UniqueIds(rows)
    requires FirstWithSlug(rows, slug).Some?
    requires forall v :: update(v).slug == v.slug
    ensures FirstWithSlug(Updated(rows, FirstWithSlug(rows, slug).value.id, update), s) ==
              if s == slug then
                Some(Row(FirstWithSlug(rows, slug).value.id, update(FirstWithSlug(rows, slug).value.doc)))
              else FirstWithSlug(rows, s)
    decreases |rows|
  {
    assert rows == [rows[0]] + rows[1..];
    UniqueCons(rows[0], rows[1..]);
    if rows[0].doc.slug == slug {
      PatchHeadCounter(rows, slug, s, update);
    } else {
      var first := FirstWithSlug(rows[1..], slug).value;
      assert first in rows[1..];
      if rows[0].doc.slug != s {
        PatchFirstCounter(rows[1..], slug, s, update);
      }
      PatchPastHead(rows, first, slug, s, update);
    }
  }

  /** `PatchFirstCounter` when the first row holds the slug. */
  lemma PatchHeadCounter(rows: seq<Row<ViewCount>>, slug: string, s: string, update: ViewCount -> ViewCount)
    requires rows != [] && rows[0].doc.slug == slug && rows[0].id !in Ids(rows[1..])
    requires forall v :: update(v).slug == v.slug
    ensures FirstWithSlug(Updated(rows, rows[0].id, update), s) ==
              if s == slug then Some(Row(rows[0].id, update(rows[0].doc))) else FirstWithSlug(rows, s)
  {
    var id := rows[0].id;
    var u := Updated(rows, id, update);
    assert u[0] == Row(id, update(rows[0].doc));
    if s != slug {
      UpdatedTail(rows, id, update);
      forall k | 0 <= k < |rows[1..]| ensures rows[1..][k].id != id {
        assert rows[1..][k] in rows[1..];
      }
      UpdatedAbsent(rows[1..], id, update);
      assert u[1..] == rows[1..];
    }
  }

  /** `PatchFirstCounter` when the slug's first row comes later: the head is kept. */
  lemma PatchPastHead(rows: seq<Row<ViewCount>>, first: Row<ViewCount>, slug: string, s: string,
                      update: ViewCount -> ViewCount)
    requires rows != [] && rows[0].doc.slug != slug && rows[0].id !in Ids(rows[1..])
    requires first in rows[1..] && FirstWithSlug(rows[1..], slug) == Some(first)
    requires rows[0].doc.slug != s ==>
               FirstWithSlug(Updated(rows[1..], first.id, update), s) ==
                 if s == slug then Some(Row(first.id, update(first.doc))) else FirstWithSlug(rows[1..], s)
    ensures FirstWithSlug(Updated(rows, first.id, update), s) ==
              if s == slug then Some(Row(first.id, update(first.doc))) else FirstWithSlug(rows, s)
  {
    var u := Updated(rows, first.id, update);
    assert rows[0].id != first.id;
    assert u[0] == rows[0];
    UpdatedTail(rows, first.id, update);
  }

  /**
   * `increasePostViewCount`: the slug's first counter goes up by one, or a
   * counter of 1 is inserted; every other slug reads as before.
   */
  method IncreasePostViewCount(db: Table<ViewCount>, slug: string)
    requires db.Valid()
    modifies db
    ensures db.Valid()
    ensures ViewCountOf(db.rows, slug) == ViewCountOf(old(db.rows), slug) + 1
    ensures forall s :: s != slug ==> ViewCountOf(db.rows, s) == ViewCountOf(old(db.rows), s)
    ensures FirstWithSlug(old(db.rows), slug).Some? ==> |db.rows| == |old(db.rows)|
    ensures FirstWithSlug(old(db.rows), slug).None? ==>
              db.rows[..|db.rows| - 1] == old(db.rows) && |db.rows| == |old(db.rows)| + 1 &&
              db.rows[|db.rows| - 1].doc == ViewCount(slug, 1)
  {
    var existing := FirstWithSlug(db.rows, slug);
    if existing.Some? {
      var count := existing.value.doc.count;
      var update := (v: ViewCount) => v.(count := count + 1);
      var _ := db.Patch(existing.value.id, update);
      forall s ensures FirstWithSlug(db.rows, s) ==
                         if s == slug then Some(Row(existing.value.id, update(existing.value.doc)))
                         else FirstWithSlug(old(db.rows), s) {
        PatchFirstCounter(old(db.rows), slug, s, update);
      }
    } else {
      var id := db.Insert(ViewCount(slug, 1));
      forall s ensures FirstWithSlug(db.rows, s) ==
                         if FirstWithSlug(old(db.rows), s).Some? then FirstWithSlug(old(db.rows), s)
                         else if s == slug then Some(Row(id, ViewCount(slug, 1))) else None {
        FirstAfterAppend(old(db.rows), Row(id, ViewCount(slug, 1)), s);
      }
    }
  }
  // ---------------------------------------------------------------------
  // syncPosts

  /** A post as the sync receives it: every field but `lastSyncedAt`. */
  datatype PostInput = PostInput(
    title: string, slug: string, language: string, excerpt: string, description: string,
    content: string, date: string, lastmod: string,
    isPublished: bool, isUnlisted: bool, tags: seq<string>,
    coverImageKey: Option<string>, coverImageUrl: string,
    isFeatured: bool, featuredOrder: Option<int>)

  /** The inserted document: the input stamped with `lastSyncedAt = now`. */
  function NewPost(p: PostInput, now: string): Post {
    Post(p.title, p.slug, p.language, p.excerpt, p.description, p.content, p.date, p.lastmod,
         p.isPublished, p.isUnlisted, p.tags, p.coverImageKey, p.coverImageUrl,
         p.isFeatured, p.featuredOrder, now)
  }

  /**
   * The patched document: every field the input carries replaces the stored
   * one, an optional field the input lacks keeps its stored value, and
   * `lastSyncedAt` becomes `now`.
   */
  function PatchedPost(d: Post, p: PostInput, now: string): (r: Post)
    ensures r.title == p.title && r.slug == p.slug && r.language == p.language && r.excerpt == p.excerpt
    ensures r.description == p.description && r.content == p.content && r.date == p.date && r.lastmod == p.lastmod
    ensures r.isPublished == p.isPublished && r.isUnlisted == p.isUnlisted && r.tags == p.tags
    ensures r.coverImageUrl == p.coverImageUrl && r.isFeatured == p.isFeatured
    ensures r.lastSyncedAt == now
    ensures r.featuredOrder == (if p.featuredOrder.Some? then p.featuredOrder else d.featuredOrder)
    ensures r.coverImageKey == (if p.coverImageKey.Some? then p.coverImageKey else d.coverImageKey)
  {
    NewPost(p, now).(
      coverImageKey := if p.coverImageKey.Some? then p.coverImageKey else d.coverImageKey,
      featuredOrder := if p.featuredOrder.Some? then p.featuredOrder else d.featuredOrder)
  }

  /** How `syncPosts` reads and writes posts; `now` is the sync time (an ISO date-time string). */
  function PostKind(now: string): (kind: Kind<PostInput, Post>)
    ensures Coherent(kind)
  {
    Kind((d: Post) => d.slug, (p: PostInput) => p.slug, (p: PostInput) => NewPost(p, now),
         (d: Post, p: PostInput) => PatchedPost(d, p, now), (d: Post) => d.lastSyncedAt == now)
  }

  /**
   * `syncPosts`: every input is patched onto the stored post with its slug
   * or inserted, stamped with `now`; then every stored post whose slug is
   * not incoming is deleted. Afterwards the stored slugs are exactly the
   * incoming ones.
   */
  method SyncPosts(db: Table<Post>, incoming: seq<PostInput>, now: string) returns (counts: SyncCounts)
    requires db.Valid()
    modifies db
    ensures db.Valid()
    ensures counts.created + counts.updated == |incoming|
    ensures counts.updated == KnownCount(PostKind(now), incoming, Slugs(PostKind(now), old(db.rows)))
    ensures counts.deleted == StaleCount(PostKind(now), old(db.rows), InputSlugs(PostKind(now), incoming))
    ensures Slugs(PostKind(now), db.rows) == InputSlugs(PostKind(now), incoming)
    ensures forall r :: r in old(db.rows) && r.doc.slug in InputSlugs(PostKind(now), incoming) ==> r.id in Ids(db.rows)
    ensures forall r :: r in db.rows && r.id !in Ids(old(db.rows)) ==> r.doc.lastSyncedAt == now
    ensures UniqueSlugs(PostKind(now), old(db.rows)) ==> forall r :: r in db.rows ==> r.doc.lastSyncedAt == now
    ensures forall k :: 0 <= k < |old(db.rows)| ==> SyncedAt(PostKind(now), old(db.rows), db.rows, incoming, k)
    ensures forall r :: r in db.rows && r.id !in Ids(old(db.rows)) ==>
              exists p :: p in incoming && p.slug !in Slugs(PostKind(now), old(db.rows)) && r.doc == NewPost(p, now)
    ensures forall p :: p in incoming && p.slug !in Slugs(PostKind(now), old(db.rows)) ==>
              exists r :: r in db.rows && r.id !in Ids(old(db.rows)) && r.doc == NewPost(p, now)
  {
    var kind := PostKind(now);
    counts := Sync(db, kind, incoming);
  }
}
