# jae.wang core, modelled in Dafny

This project models the logic kernels of a personal website built with
TanStack Start, react-three-fiber and a Convex backend. They are:

- **The black-hole render pipeline.** Offscreen target sizing, the noise
  texture, and the per-frame pass chain main → bloom → horizontal blur →
  vertical blur. It ends with a final composite that reads a ping-pong
  history pair. Each draw call is recorded in a trace (`BlackHole`).
- **The Convex functions:**
  - the post queries and the view counter (`Posts`);
  - the project listing (`Projects`);
  - the slug-keyed sync mutations of both tables (`Reconcile`);
  - threaded comments (`Comments`);
  - the visitor upsert (`Visitors`);
  - the authentication hooks (`Auth`);
  - the `ADMIN` environment list (`Env`);
  - the schema validators (`Schema`).
- **The site library:**
  - route, title and markdown-file helpers (`Utils`);
  - the reading-time estimate (`ReadingTime`);
  - the form field components' error and id derivation (`Form`);
  - the colour theme store (`ThemeStore`).
- **The small state machines of the HUD:**
  - the idle camera orbit (`IdleOrbit`);
  - the comms panel's quote autoplay (`CommsPanel`);
  - the shared app store with the tech panels and the main console (`HudStore`);
  - the ring arithmetic of the Endurance ship drawing (`EnduranceShip`).

Shared helpers:

- `Database` is a table of rows under unique ids. Its `Table` class has `insert`, `patch` and `delete`. A patch or delete of an absent id is refused, because the runtime throws.
- `Sorting` provides a stable sort on a lexicographic key (the comparators of the code), `filter`, `reverse` and `slice`.
- `Text` holds JavaScript string primitives: `\s`, `\w`, ASCII `toLowerCase`, `includes`, `split`/`join` on one character, `trim`, and a code-unit order standing in for `localeCompare`.
- `Wrappers` provides `Option` and `Result`.

Code that updates state in place is modelled as classes with `modifies`
clauses. This covers the database tables, the render pipeline, local
storage, the orbit controls, the comms panel and the app store. The
pipeline's history pair is a two-element `array`. The noise buffer is an
`array` of bytes filled by a stride-4 loop. Pure code is modelled as
functions and lemmas.

Timers and audio playback are events. A pending timeout is a field, and a
method named `...Fires` is its callback. A track plays until `TrackEnds`
(the player's end event) or a stop. The following are parameters:

- `Math.random()`;
- the idle orbit path (its sines and cosines);
- URI decoding;
- `path.join`;
- the date parse used for ordering;
- the word-matching regular expression of the reading-time estimate.

Three behaviours of the code are easy to overlook, and this model follows the code in each:

- Offscreen targets are clamped to at least 1×1 and frames are rendered anyway. Zero-area frames are never skipped (`index.tsx:339-340`).
- The four offscreen passes run inside the frame callback. The final composite is a mesh that the framework draws after the callback. Its channels are bound before the history roles swap, so it samples the texture the main pass has just written.
- `syncProjects` deletes stale projects inside its per-project loop. Its counters therefore differ from `syncPosts` (see Findings).

## Model

| member | source | states |
|---|---|---|
| BlackHole.TargetDimension | src/components/black-hole/index.tsx:338-340 | a target side is `floor(css size × pixel ratio × render scale)` when that product is at least 1, and 1 otherwise, so never below 1 |
| BlackHole.CreateNoiseTexture | src/components/black-hole/index.tsx:31-38 | the buffer holds `size·size·4` bytes; byte j is the truncated, wrapped `random·255` of draw `3·(j/4) + j%4` for a colour byte, and 255 for an alpha byte |
| BlackHole.NoiseBytesInRange | src/components/black-hole/index.tsx:31-38 | every alpha byte is 255, and with draws in [0, 1) every colour byte lies in 0..254 |
| BlackHole.ControlCellsCoverInitialCells | src/components/black-hole/index.tsx:482-574 | the two control effects write exactly the cells created at mount, none new, and give both passes the same view offset |
| BlackHole.FrameDraws | src/components/black-hole/index.tsx:599-614 | a rendered frame issues four offscreen draw calls |
| BlackHole.FrameDrawsAreChained | src/components/black-hole/index.tsx:599-614 | each pass samples what the previous pass wrote; no pass samples its own target; bloom reads this frame's main output and not the previous frame's; the four calls are made with the same resolution and time cells (only the main pass binds the time cell) |
| BlackHole.Frames | src/components/black-hole/index.tsx:576-626 | frames rendered at the times of a sequence issue four offscreen draw calls each |
| BlackHole.FramesMainPass | src/components/black-hole/index.tsx:599-623 | frame k's main pass reads one history target and writes the other, the roles alternating with k, and sees frame k's time |
| BlackHole.FramesTime | src/components/black-hole/index.tsx:578-579 | every draw call of frame k is made with the time cell set for frame k and the one resolution |
| BlackHole.FramesFeedBack | src/components/black-hole/index.tsx:599-623 | each frame's main pass samples the history target the previous frame's main pass wrote |
| BlackHole.Pipeline.constructor | src/components/black-hole/index.tsx:338-394 | at mount all five targets share one clamped size, the roles are (historyA, historyB), every cell holds its initial value, and nothing has been drawn |
| BlackHole.Pipeline.Resize | src/components/black-hole/index.tsx:338-388 | a new drawable size or render scale resizes all five targets together and keeps the roles, cells and trace |
| BlackHole.Pipeline.ResetHistory | src/components/black-hole/index.tsx:390-394 | new history targets reset the roles to (historyA, historyB) |
| BlackHole.Pipeline.ApplyMainControls | src/components/black-hole/index.tsx:551-574 | the main-pass cells become the control values; nothing else changes |
| BlackHole.Pipeline.ApplyFinalControls | src/components/black-hole/index.tsx:482-549 | the final-composite cells become the control values; nothing else changes |
| BlackHole.Pipeline.Draw | src/components/black-hole/index.tsx:601-602 | a render appends one draw call with the pass's bound inputs, the current render target and the shared cells |
| BlackHole.Pipeline.OffscreenPasses | src/components/black-hole/index.tsx:599-614 | the four passes append exactly the chained draw calls of `FrameDraws` for the current roles |
| BlackHole.Pipeline.Frame | src/components/black-hole/index.tsx:576-626 | the shared cells are written on every frame, even one without all cameras; a frame missing a camera draws nothing and keeps the roles; otherwise the chain is drawn, the composite is bound, the target returns to the screen and the roles swap |
| BlackHole.Pipeline.BindCompositeAndSwap | src/components/black-hole/index.tsx:616-625 | the composite's channel 0 is the texture just written and channel 3 the vertical blur; the render target is the screen; the roles are exchanged; the scissor test is off |
| BlackHole.Pipeline.CompositeToScreen | src/components/black-hole/index.tsx:654-666 | the framework's draw of the composite mesh appends one screen draw with the channels as bound |
| BlackHole.Pipeline.RenderedFrame | src/components/black-hole/index.tsx:576-666 | a displayed frame is five draws; the composite samples the main pass's fresh output although the roles were swapped first, and never the new write target |
| BlackHole.Pipeline.MountedFrame | src/components/black-hole/index.tsx:576-626 | with every camera mounted the callback appends the four offscreen draws from the current roles at the new resolution and time, and swaps the roles |
| BlackHole.Pipeline.FrameCallbacks | src/components/black-hole/index.tsx:576-626 | the frame callback run once per displayed frame with every camera mounted issues exactly `Frames` of the scaled times from the current roles, so the `Frames` lemmas (ping-pong, per-frame time, feedback) hold of the pipeline; the roles end swapped iff the number of frames is odd |
| BlackHole.FramesSnoc | src/components/black-hole/index.tsx:576-626 | one more frame appends its four draw calls, with the roles the parity of the earlier frames gives |
| BlackHole.Pipeline.TwoFrames | src/components/black-hole/index.tsx:621-623 | two rendered frames restore the history roles |
| Posts.AddTag | convex/post.ts:34 | one `set` keeps the tally: the tag's count goes up by one (from 0 when new, and then it joins the key order at the end), every other count and key stays |
| Posts.CountTags | convex/post.ts:33-35 | the inner counting loop keeps the tally invariant: the Map's keys are each seen tag once, in first-seen order, with its occurrence count |
| Posts.Entries | convex/post.ts:39-40 | the Map's entries, one `{tag, count}` per key, in key order |
| Posts.SortedEntries | convex/post.ts:39-46 | a permutation of a complete tally's entries lists each counted tag once with its occurrence count |
| Posts.AllPostTags | convex/post.ts:21-48 | the tags are exactly those of published, listed posts, each once, each with its number of occurrences, sorted by count descending then tag ascending |
| Posts.PublishedPosts | convex/post.ts:51-71 | a permutation of the published, listed posts carrying the lowercased tag (when a tag is given), newest first, posts with equal dates newest-created first |
| Posts.PublishedTieOrder | convex/post.ts:57-62 | sorting the reversed rows by descending date puts equal dates in reverse creation order |
| Posts.PostBySlug | convex/post.ts:73-89 | several posts with the slug is an error; otherwise the published post with the slug, or null when it is missing or unpublished |
| Posts.LowerAll | convex/post.ts:113 | each query tag lowercased, position by position |
| Posts.Scores | convex/post.ts:111-126 | one scored projection per candidate, in order |
| Posts.Relevant | convex/post.ts:109-127 | exactly the scores, in table order, of the rows other than the current post, listed, and sharing a tag with the query |
| Posts.ScoresThenFilter | convex/post.ts:109-127 | scoring the candidates then keeping those with a shared tag equals scoring only the candidates that share a tag |
| Posts.RelevantSound | convex/post.ts:109-127 | everything kept shares a tag and is the score of a published, listed post other than the current one |
| Posts.RelevantComplete | convex/post.ts:109-127 | every such post that shares a tag is kept |
| Posts.RankedRelated | convex/post.ts:109-134 | the kept posts, a permutation, sorted by shared tags descending then date descending |
| Posts.RelatedPosts | convex/post.ts:91-137 | an empty tag list gives an empty result; otherwise the ranking sliced at `limit`, a negative limit counting from the back; a limit no smaller than the table keeps the whole ranking |
| Posts.DefaultLimitTopThree | convex/post.ts:95-135 | without a limit the first three of the ranking are returned, or all of it when shorter |
| Posts.RelatedPostsAreRelevant | convex/post.ts:100-135 | each related post shares a tag, is not the current post and is a published, listed post |
| Posts.FirstWithSlug | convex/post.ts:144-147 | `.first()` on the slug: none iff no row holds the slug, else the earliest row holding it |
| Posts.ViewCountOf | convex/post.ts:139-151 | a slug no row holds reads 0 |
| Posts.ViewCountIsFirst | convex/post.ts:144-149 | a held slug reads the count of the first row holding it |
| Posts.FirstAfterAppend | convex/post.ts:168-171 | inserting a counter row leaves every existing slug's first counter in place |
| Posts.PatchFirstCounter | convex/post.ts:163-166 | patching a slug's first counter without changing its slug changes that slug's reading only |
| Posts.IncreasePostViewCount | convex/post.ts:153-174 | the slug reads one more than before, every other slug reads as before, and a row is inserted iff the slug had none |
| Posts.PatchedPost | convex/post.ts:207-211 | the patch writes each of the input's fields, title to tags, cover image and featured flag, and `lastSyncedAt = now`; an absent featured order or cover key keeps its stored value |
| Posts.PostKind | convex/post.ts:197-221 | created and patched posts carry the input's slug and are stamped with `now` |
| Posts.SyncPosts | convex/post.ts:178-233 | created + updated = number of inputs; updated = inputs whose slug was stored; deleted = stored posts whose slug is not incoming; afterwards the stored slugs are exactly the incoming ones; a stored post whose slug is not incoming is deleted; the last stored post with an incoming slug keeps its id and holds its stored post patched with `PatchedPost`, in order, by every input carrying that slug (`PatchAll`), so it ends with the last such input's fields and is stamped `now` even when stored slugs repeat; an earlier stored post with a repeated slug is kept as it was; every added row is `NewPost(p, now)` for an input p whose slug was not stored, and every such input has one; every new row, and with unique stored slugs every row, is stamped `now` |
| Projects.ListProjects | convex/project.ts:5-10 | every project, newest-created first |
| Projects.FeaturedProjects | convex/project.ts:12-22 | exactly the projects with `featured` and `order ≤ 3`, as a permutation of them, ascending by order, with equal orders in stored (creation) order |
| Projects.FeaturedSorted | convex/project.ts:17-19 | the index order is ascending `order` |
| Projects.PatchedProject | convex/project.ts:53-57 | the patch writes slug, content and `lastSyncedAt = now`; absent GitHub URL, live URL and year keep their stored values |
| Projects.ProjectKind | convex/project.ts:44-66 | created and patched projects carry the input's slug and are stamped with `now` |
| Projects.SyncProjectsAsWritten | convex/project.ts:37-77 | with the delete loop nested, the mutation succeeds iff there is at most one input or nothing is stale; a failure rolls the table back; on success created + updated = inputs and deleted = inputs × stale projects; no input gives (0, 0, 0) and leaves the table unchanged; a success on at least one input leaves the stored slugs equal to the incoming ones and the table `SyncedTable` describes, the one `SyncProjects` leaves |
| Projects.SyncProjects | convex/project.ts:37-77 | with the delete loop after the upsert loop, the same counters, final slugs and written rows as `Posts.SyncPosts`: the last stored project with an incoming slug holds its stored project patched by every input carrying that slug, in order, and every added row is `NewProject(p, now)` for an input p whose slug was not stored |
| Reconcile.LastIndexWithSlug | convex/post.ts:200-203 | the `Map` built from the snapshot by slug returns the last row with the slug, or nothing iff no row has it |
| Reconcile.LastInputWithSlug | convex/post.ts:202-210 | the item whose patch a stored row ends with is the last item carrying its slug; -1 iff no item carries it |
| Reconcile.PatchAll | convex/post.ts:202-212 | a stored document no item's slug matches is left as it is; one the items do patch ends up carrying the slug and stamped |
| Reconcile.PatchAllLast | convex/post.ts:202-212 | the patches end with the last item carrying the slug: the result is that item's patch of the fold over the items before it |
| Reconcile.Created | convex/post.ts:213-220 | the inserted documents number the items whose slug was not stored |
| Reconcile.CreatedMembers | convex/post.ts:213-220 | a document is inserted iff some item whose slug was not stored creates it |
| Reconcile.KnownCount | convex/post.ts:202-222 | the number of inputs whose slug is stored, at most the number of inputs |
| Reconcile.StaleCount | convex/post.ts:224-229 | the number of stored rows whose slug is not incoming, at most the number of rows |
| Reconcile.KnownCountBounds | convex/post.ts:202-222 | into a table without the inputs' slugs every input is created; when all are stored every input is an update |
| Reconcile.StaleCountZero | convex/post.ts:224-229 | nothing is deleted exactly when no stored slug is stale |
| Reconcile.UpsertStep | convex/post.ts:203-221 | the item patches iff its slug is in the snapshot: then exactly the last snapshot row with the slug is rewritten; otherwise one row with a fresh id is appended and nothing fails |
| Reconcile.UpsertAll | convex/post.ts:202-222 | the upsert loop keeps the snapshot rows first under their ids; the last snapshot row with each slug holds its stored document patched, in order, by every item carrying that slug (`PatchAll`), and every other snapshot row is as stored; the rows after the snapshot are `Created(items)` in order; every item's slug is stored; created + updated = items, updated = known items |
| Reconcile.DeletePass | convex/post.ts:224-229 | the delete loop fails iff a stale id is already gone; otherwise it removes exactly the stale rows and counts them |
| Reconcile.Sync | convex/post.ts:191-232 | upsert then delete: the counters as stated for `Posts.SyncPosts`, and the table `SyncedTable` describes: the stored slugs become the incoming ones; stored rows with an incoming slug keep their ids; each snapshot row is deleted, patched by every item carrying its slug, or kept, as `SyncedAt` says; every added row is `create(p)` for an item p whose slug was not stored, and every such item has one; added rows, and with unique stored slugs all rows, are stamped |
| Reconcile.SyncTable | convex/post.ts:197-229 | deleting the stale snapshot rows from what the upsert loop leaves gives the table `SyncedTable` describes |
| Reconcile.SyncSlugs | convex/post.ts:197-229 | after both loops the stored slugs are exactly the incoming ones and no kept row loses its id |
| Reconcile.SyncStamps | convex/post.ts:207-219 | every new row is stamped, and with unique stored slugs every row is |
| Reconcile.SyncSnapshotRows | convex/post.ts:200-229 | after both loops each snapshot row is deleted when no item carries its slug; the last row with an incoming slug holds, under its id, its stored document patched by every item with that slug; an earlier row with that slug is kept as stored |
| Reconcile.SyncNewRows | convex/post.ts:213-220 | after both loops the added rows are exactly the documents created from items whose slug was not stored |
| Reconcile.NestedStep | convex/project.ts:49-74 | one pass of the nested loop: the first scan deletes the stale rows; a later scan fails exactly when something is stale; on success the table is the rows the upsert step left (its patch or insert, upserted for the items so far on a first pass or with nothing stale) less the stale rows |
| Reconcile.NestedPass | convex/project.ts:49-74 | one pass of the nested loop with its counters fails exactly on a later pass with something stale, and otherwise keeps the loop state: the table is the upsert of the items so far less the stale rows, `deleted` grown by the stale count |
| Reconcile.SyncNested | convex/project.ts:37-77 | the nested variant succeeds iff at most one item or nothing stale, then deleted = items × stale; a failure leaves the table as it was; no item leaves it unchanged; a success on at least one item leaves the table `SyncedTable` describes, the same as `Sync` |
| Database.Find | convex/comment.ts:47 | `db.get`: a document iff the id is stored, and it is that row's document |
| Database.Table.Insert | convex/post.ts:168-171 | `db.insert` appends the document under a fresh id and keeps ids unique |
| Database.Table.Patch | convex/post.ts:164-166 | `db.patch` rewrites only the row with the id and succeeds iff the id is stored |
| Database.Table.Delete | convex/post.ts:226 | `db.delete` removes only the row with the id and succeeds iff the id is stored |
| Database.RemovedOnly | convex/auth.ts:53-55 | removing an id held once takes out that row alone and keeps the others in order |
| Database.Table.Rollback | convex/project.ts:71 | a mutation that throws leaves the table as it was before it |
| Comments.NewComment | convex/comment.ts:40-67 | errors, in order: not signed in, content over 500 characters, parent not found, parent on another post, each stated with its message; success iff none applies; then the comment has the caller as author and admin flag, depth 0 at top level and parent depth + 1 for a reply |
| Comments.NewCommentThreaded | convex/comment.ts:47-56 | an accepted comment keeps the table well threaded: every reply's parent is an earlier comment of the same post, one level shallower |
| Comments.CreateComment | convex/comment.ts:40-67 | a refused comment changes nothing and reports the reason; an accepted one is appended under a fresh id; the table stays well threaded |
| Comments.WithAuthors | convex/comment.ts:19-36 | each comment joined with its author's name, avatar and website, in order; a missing author fails the whole join |
| Comments.ListByPost | convex/comment.ts:8-38 | the post's comments and no others, in table order, each joined with its own author's fields; a missing author fails the query |
| Comments.ListByPostFacts | convex/comment.ts:8-38 | the listing fails iff some comment of the post lacks its author, and otherwise lists each comment of the post with its author |
| Comments.DeleteComment | convex/comment.ts:69-76 | only a signed-in admin deletes, and only a stored id; every refusal leaves the table unchanged |
| Comments.DeleteUser | convex/auth.ts:41-57 | deleting a stored user removes the user, and the comments become the old comments filtered to those by other authors, in order; an absent user changes nothing |
| Comments.DeleteTurn | convex/auth.ts:48-55 | one turn of the loop keeps the invariant: the comments scanned so far are filtered, the rest untouched |
| Comments.DeleteIfAuthored | convex/auth.ts:53-55 | one turn of the loop deletes the next comment exactly when the user wrote it, keeping the invariant |
| Visitors.GetVisitor | convex/visitor.ts:31-38 | the session's row, none when it has none, or the error `.unique()` throws for several rows |
| Visitors.OneRowNoError | convex/visitor.ts:31-38 | with one row per session the lookup never fails |
| Visitors.Refreshed | convex/visitor.ts:14-17 | the patch replaces each sent field, keeps each absent one, keeps the session and sets `lastSeen = now` |
| Visitors.RefreshedSame | convex/visitor.ts:14-17 | refreshing with the stored metadata changes only `lastSeen` |
| Visitors.RefreshKeepsSessions | convex/visitor.ts:14-17 | a refresh changes no row's session, so one row per session is kept |
| Visitors.InsertNewSession | convex/visitor.ts:23-27 | inserting a row for a session without one keeps one row per session |
| Visitors.UpdateVisitor | convex/visitor.ts:7-29 | an existing row is refreshed and its id returned with nothing inserted; otherwise a new row is inserted and its id returned; other sessions' rows are unchanged; one row per session is kept |
| Env.AdminList | convex/helpers/getEnv.ts:6 | the empty string gives no entry; otherwise commas + 1 entries, none holding a comma |
| Env.GetAdmin | convex/helpers/getEnv.ts:10-19 | a missing or non-string `ADMIN` fails with "Invalid environment variables"; a string gives its list |
| Env.AdminListJoin | convex/helpers/getEnv.ts:6 | a non-empty `ADMIN` is its entries joined by commas |
| Env.AdminListOfJoin | convex/helpers/getEnv.ts:6 | comma-free entries are read back from their comma-joined form |
| Auth.BeforeCreate | convex/auth.ts:27-40 | a user becomes admin iff already admin or listed in `ADMIN`; every other field and every unlisted user is unchanged; it fails iff reading `ADMIN` fails |
| Auth.BeforeCreateIdempotent | convex/auth.ts:27-40 | applying the trigger twice equals applying it once |
| Auth.SessionBefore | convex/auth.ts:92-112 | no request means no change; else the session is kept, its country is the country header, and its city is the decoded city header when that is non-empty; it is mobile iff the lower-cased user agent (empty when absent) contains "mobi", "android" or "iphone" |
| Schema.SlugShapeIff | convex/schema.ts:8 | the slug pattern accepts exactly non-empty strings of `[A-Za-z0-9_-]` that neither start nor end with a hyphen and hold no two hyphens in a row |
| Schema.SlugRunsIff | convex/schema.ts:8 | the slug pattern accepts exactly one or more runs of word characters joined by single hyphens |
| Schema.TagFilterIgnoresCase | convex/schema.ts:45-49 | on a valid post (lowercase tags and the other `postFields` bounds), the tag filter keeps the post iff some tag equals the requested one up to ASCII case |
| Schema.CheckCommentContent | convex/schema.ts:62-64 | comment content is accepted iff it has at most 500 characters, else the schema's message |
| Schema.ContactIssues | convex/schema.ts:18-27 | no issue iff the name has 2 to 20 characters, the e-mail is valid and the message has at least 10 characters; one message per failing field, each present iff its check fails, in field order (name, e-mail, message) |
| Utils.IsRoutePath | src/lib/utils.ts:15 | true iff the link is defined and starts with "/" |
| Utils.KebabToTitleChars | src/lib/utils.ts:26-30 | same length; every hyphen becomes a space; the first character and each character after a hyphen are upper-cased and the others kept; no hyphen remains |
| Utils.BuildPageTitle | src/lib/utils.ts:32-33 | the page title, " \| ", then the site name, which defaults to "Jie Wang" only when absent (an empty name is kept) |
| Utils.MarkdownEntries | src/lib/utils.ts:45-46 | exactly the entries ending in ".md" |
| Utils.MarkdownEntriesAppend | src/lib/utils.ts:44-46 | the filter keeps directory order |
| Utils.MarkdownFiles | src/lib/utils.ts:37-48 | each kept entry joined to the directory, in order |
| Utils.ParseMarkdownFile | src/lib/utils.ts:50-79 | nothing when the file cannot be read or its frontmatter is invalid; otherwise the frontmatter without its content type, and the content is the trimmed body |
| ReadingTime.StripHtml | src/lib/reading-time.ts:14 | every `<` left is followed directly by `>` or by no `>` at all; the result is never longer; text without `<` is unchanged; only spaces are added |
| ReadingTime.StripHtmlKeepsText | src/lib/reading-time.ts:14 | text before the first `<` is kept as it is |
| ReadingTime.StripHtmlTag | src/lib/reading-time.ts:14 | a tag `<…>` with a non-empty body free of `>` becomes one space |
| ReadingTime.StripHtmlLoneBracket | src/lib/reading-time.ts:14 | a `<` followed by `>` or by no `>` is kept |
| ReadingTime.SpaceWhere | src/lib/reading-time.ts:8-10 | each matching character becomes a space and the others stay, position by position |
| ReadingTime.RemoveInvisible | src/lib/reading-time.ts:9 | exactly the zero-width and bidirectional marks are removed |
| ReadingTime.RemoveInvisibleKeepsVisible | src/lib/reading-time.ts:9 | the result is the input filtered to its visible characters, in order and with their multiplicity |
| ReadingTime.CollapseSpaces | src/lib/reading-time.ts:11 | no two white-space characters in a row, and no character is added but a space |
| ReadingTime.CollapseKeepsWord | src/lib/reading-time.ts:11 | a run without white space is kept as it is |
| ReadingTime.CollapseRun | src/lib/reading-time.ts:11 | a maximal white-space run becomes exactly one space |
| ReadingTime.NormalizeTextShape | src/lib/reading-time.ts:5-12 | the normalised text has no white space at its ends, none doubled, only plain spaces, no invisible mark and no wide comma or full stop |
| ReadingTime.RoundWords | src/lib/reading-time.ts:25 | `Math.round(words / 200)` is `(words + 100) div 200` |
| ReadingTime.Minutes | src/lib/reading-time.ts:20-27 | 0 minutes iff 0 words; otherwise the rounded count at 200 words a minute, at least 1 |
| ReadingTime.MinutesMonotone | src/lib/reading-time.ts:25 | more words never give fewer minutes |
| ReadingTime.EstimateReadingTime | src/lib/reading-time.ts:16-28 | the words of the stripped, normalised text, and the minutes for them |
| Form.MessageOf | src/components/ui/form.tsx:47-55 | no message iff the error is null, undefined or an object without a string `message`; a string error is its own message, an object gives its `message`, any other value its string form |
| Form.FieldComponentOf | src/components/ui/form.tsx:25-68 | outside a `Field` it throws; the message is the first error's, and only while the error is shown; `hasError` iff there is a message; the three ids carry the field id |
| Form.LabelAndFieldFlags | src/components/ui/form.tsx:58-89 | the label's error flag implies the field's invalid flag; they differ exactly when the shown first error yields no message |
| Form.IdsDistinct | src/components/ui/form.tsx:59-61 | the control, description and message ids are pairwise distinct across all fields, and each determines its field |
| Form.FieldErrorBody | src/components/ui/form.tsx:130-151 | the message when there is one, else the children; nothing iff the message is empty, or absent with falsy children |
| ThemeStore.IsThemeExactly | src/stores/theme-store.ts:4-14 | exactly "light", "dark" and "system" are themes |
| ThemeStore.ThemeNamed | src/stores/theme-store.ts:9-14 | a theme iff the value is a theme name, and its name is the value |
| ThemeStore.ReadStoredTheme | src/stores/theme-store.ts:16-27 | nothing without a window or when storage throws; else the stored value iff it is a theme name |
| ThemeStore.PersistTheme | src/stores/theme-store.ts:29-35 | with working storage the key holds the theme's name and reading it back gives the theme; a failure changes nothing |
| ThemeStore.ThemeStoreState.constructor | src/stores/theme-store.ts:37 | the store starts at the default theme, "system" |
| IdleOrbit.Progress | src/components/idle-orbit-controls.tsx:80-83 | progress lies in [0, 1], is 1 iff 1.2 seconds have elapsed, and before that is elapsed / 1.2 |
| IdleOrbit.SmoothBounds | src/components/idle-orbit-controls.tsx:84 | the easing stays in [0, 1] and fixes 0 and 1 |
| IdleOrbit.SmoothMonotone | src/components/idle-orbit-controls.tsx:84 | the easing never goes backwards on [0, 1] |
| IdleOrbit.BlendEnds | src/components/idle-orbit-controls.tsx:85-92 | a blend at 0 is the start pose and at 1 the idle pose |
| IdleOrbit.FinishedBlendIsIdle | src/components/idle-orbit-controls.tsx:84-99 | a transition at full progress lands exactly on the idle pose |
| IdleOrbit.IdleOrbitControls.constructor | src/components/idle-orbit-controls.tsx:20-36 | the initial speed, the 5-second timeout pending, idle clock 0, no transition |
| IdleOrbit.IdleOrbitControls.Frame | src/components/idle-orbit-controls.tsx:45-107 | without controls nothing changes; a transition starts only on entering idle, from the current pose; leaving idle drops it; `prevIsIdle` follows `isIdle`; the idle clock advances only while idle; the pose is the eased blend or the idle pose; the transition ends at full progress |
| IdleOrbit.IdleOrbitControls.SpeedTimerFires | src/components/idle-orbit-controls.tsx:38-41 | the timeout negates the idle speed once and is then no longer pending |
| IdleOrbit.IdleOrbitControls.Unmount | src/components/idle-orbit-controls.tsx:42 | unmounting clears the timeout, so the speed is never negated afterwards |
| CommsPanel.Panel.constructor | src/components/hud/hud-comms-panel.tsx:40-64 | closed, quote 0, autoplay armed, the 2.5-second init timeout pending, nothing loaded |
| CommsPanel.Panel.PlayQuote | src/components/hud/hud-comms-panel.tsx:85-117 | the quote at the index plays, or the first quote for an index out of range; the panel shows the raw index |
| CommsPanel.Panel.EnsureAudioGraph | src/components/hud/hud-comms-panel.tsx:66-78 | with an audio context and no stream, a stream is created and connected; otherwise nothing changes |
| CommsPanel.Panel.StartAutoplay | src/components/hud/hud-comms-panel.tsx:119-133 | nothing once every quote has played; otherwise exactly the `Autoplayed` state: autoplay on, track and panel index 0, quote 0 sounding, the audio graph created, and nothing else changed |
| CommsPanel.Panel.StopPlaybackAsWritten | src/components/hud/hud-comms-panel.tsx:80-83 | autoplay off and the track stopped; a pending next-quote timeout survives |
| CommsPanel.Panel.StopPlayback | src/components/hud/hud-comms-panel.tsx:80-83 | as written, and the pending next-quote timeout is cleared |
| CommsPanel.Panel.TrackEnds | src/components/hud/hud-comms-panel.tsx:94-111 | with autoplay off the track only ends; otherwise the next quote is scheduled, and after the last quote autoplay stops for good with every quote played |
| CommsPanel.Panel.NextTimerFires | src/components/hud/hud-comms-panel.tsx:104-106 | the scheduled quote plays, whatever autoplay and the dialog say now |
| CommsPanel.Panel.InitTimerFiresAsWritten | src/components/hud/hud-comms-panel.tsx:135-141 | init completes and the timeout is spent; unless every quote has played, autoplay restarts from quote 0 even with the dialog open, every other field kept |
| CommsPanel.Panel.InitTimerFires | src/components/hud/hud-comms-panel.tsx:135-141 | init completes and the timeout is spent; autoplay restarts from quote 0 only when the dialog is closed and not every quote has played; otherwise nothing else changes; quiet while open is kept |
| CommsPanel.Panel.SetOpenAsWritten | src/components/hud/hud-comms-panel.tsx:159-168 | an unchanged state does nothing; opening turns autoplay off and stops the track, nothing else; closing before init or with every quote played only closes; otherwise closing restarts autoplay from quote 0 |
| CommsPanel.Panel.SetOpen | src/components/hud/hud-comms-panel.tsx:159-168 | as written, with the corrected stop that also clears the scheduled quote, so the open dialog stays quiet; every branch states the whole new state |
| CommsPanel.Panel.Unmount | src/components/hud/hud-comms-panel.tsx:143-156 | both timeouts cleared, playback stopped and unloaded, autoplay off, the audio graph dropped, and the played-all mark reset |
| CommsPanel.OpenBeforeInitTimer | src/components/hud/hud-comms-panel.tsx:135-141 | opening the dialog before the init timeout still lets quote 0 play with the dialog open |
| CommsPanel.OpenBetweenQuotes | src/components/hud/hud-comms-panel.tsx:80-106 | opening the dialog in the gap after quote 0 still lets quote 1 play with the dialog open |
| HudStore.AppStore.constructor | src/stores/app-store.ts:8-11 | the store starts idle with no panel active |
| HudStore.AppStore.ClickTechPanel | src/components/hud/hud-tech-panel.tsx:53-58 | clicking the active panel clears the active id; clicking another makes it the only active one; the idle flag is kept |
| HudStore.AppStore.ExitPressed | src/components/hud/hud-main-console.tsx:42-46 | "Exit" negates the idle flag and keeps the active panel |
| HudStore.AppStore.TrajectoryPressed | src/components/hud/hud-main-console.tsx:56-60 | "Trajectory Map" makes "todo" the active id and keeps the idle flag |
| HudStore.OneBodyOnMobile | src/components/hud/hud-tech-panel.tsx:75 | on mobile only the active panel's body renders, so two rendered bodies belong to the same panel; on larger screens every body renders |
| HudStore.ClickOnMobile | src/components/hud/hud-tech-panel.tsx:53-58 | on mobile a click shows the clicked panel's body iff it was hidden, and hides every other body |
| HudStore.ExitTwice | src/components/hud/hud-main-console.tsx:42-46 | pressing "Exit" twice restores the idle flag |
| HudStore.ClickTwice | src/components/hud/hud-tech-panel.tsx:53-58 | clicking a panel twice restores the active id when it was that panel or none, and clears it otherwise |
| HudStore.ContentId | src/components/hud/hud-tech-panel.tsx:26 | the body id is the panel id followed by "-content" |
| HudStore.ContentIdInjective | src/components/hud/hud-tech-panel.tsx:26 | distinct panels have distinct body ids |
| HudStore.MainConsole.constructor | src/components/hud/hud-main-console.tsx:14 | the dialog starts closed |
| HudStore.MainConsole.LogoClicked | src/components/hud/hud-main-console.tsx:23 | the logo opens the dialog |
| HudStore.MainConsole.OnOpenChange | src/components/hud/hud-main-console.tsx:34 | the open-change callback toggles, whatever it is asked for |
| EnduranceShip.ModuleFor | src/components/endurance-ship.tsx:680-688 | each of the landing-pod, main-engine and command-module keys draws its own module, and every other key, "cryo-lab" included, a cryo lab |
| EnduranceShip.ConnectionFor | src/components/endurance-ship.tsx:757-762 | an airlock exactly for the "airlock" key, and a tunnel for every other key |
| EnduranceShip.JsRem | src/components/endurance-ship.tsx:617 | JavaScript's `%`: `a − n·trunc(a / n)`, strictly between −n and n, with the sign of the dividend, and the Euclidean remainder for a non-negative dividend |
| EnduranceShip.CorruptedInternal | src/components/endurance-ship.tsx:613-617 | no slot iff the prop is null; the default 8 marks slot 4 |
| EnduranceShip.CorruptedBelowRange | src/components/endurance-ship.tsx:617 | an index below −8 marks a negative slot, or slot 0 when 8 + k is a multiple of 12 |
| EnduranceShip.CorruptedFormula | src/components/endurance-ship.tsx:617 | index k in 1..3 marks slot k + 8, and k in 4..12 marks slot k − 4 |
| EnduranceShip.CorruptedBijection | src/components/endurance-ship.tsx:615-617 | indexes 1..12 map one to one onto slots 0..11, with 1 at slot 9 |
| EnduranceShip.CorruptedAngles | src/components/endurance-ship.tsx:692 | index 1 is the slot at 360° (three o'clock), and each next index is 30° further on |
| EnduranceShip.RingSlots | src/components/endurance-ship.tsx:686-751 | twelve slots, one per module key, each at its angle with its kind, mirroring, corruption and hubs |
| EnduranceShip.RingShape | src/components/endurance-ship.tsx:689-746 | slots sit at 90 + 30·i degrees; exactly slots 5, 6, 7 and 9 are mirrored; only slot 9 has hubs; at most one slot is corrupted, exactly one for an index in 1..12 and none for null |
| EnduranceShip.Connectors | src/components/endurance-ship.tsx:761-763 | twelve connectors, each 15° past its module, airlocks exactly at 2, 4, 8 and 10 |
| EnduranceShip.ConnectorsBetweenSlots | src/components/endurance-ship.tsx:763 | each connector lies halfway between its module and the next, and the ring closes |
| EnduranceShip.ChamferedPanel | src/components/endurance-ship.tsx:171-179 | five vertices: three rectangle corners, and the top-left corner cut `chamfer` along each edge |
| EnduranceShip.ChamferInsideRectangle | src/components/endurance-ship.tsx:171-179 | with a chamfer no longer than either side every vertex lies on the rectangle, and no chamfer closes the cut |
| Sorting.SortBy | convex/post.ts:41-46 | a permutation sorted on the comparator's key |
| Sorting.SortByStable | convex/post.ts:41-46 | the sort is stable: the elements with one key leave in their input order |
| Sorting.Filter | convex/post.ts:29 | `filter`: only kept elements, each kept element of the input, no element more often than the input holds it |
| Sorting.FilterCount | convex/post.ts:29 | a kept value occurs as often as in the input, a rejected one never |
| Sorting.FilterConcat | convex/post.ts:29 | filtering a concatenation filters each part, in order |
| Sorting.FilterReverse | convex/project.ts:8 | filtering the reverse gives the filtered sequence reversed |
| Sorting.Reverse | convex/project.ts:8 | the descending creation order is the reverse, position by position |
| Sorting.SliceEnd | convex/post.ts:135 | where `slice(0, end)` stops, a negative end counting from the back |
| Text.Lower | convex/post.ts:66 | `toLowerCase`, character by character |
| Text.Contains | convex/auth.ts:100 | a substring search: true iff the pattern occurs at some position |
| Text.Split | convex/helpers/getEnv.ts:6 | `split(",")` gives at least one piece |
| Text.JoinSplit | convex/helpers/getEnv.ts:6 | joining a split's pieces gives back the string |
| Text.Trim | src/lib/utils.ts:73 | `trim`: a slice of the input with no white space at either end |

## Left out

- Rendering is not modelled: GLSL shaders, the three.js scene graph, `useFBO` allocation and `FullscreenPass`. A pass is a record of its inputs, output and shared cells.
- `Math.random()` is a parameter of the noise buffer (`draw`). The idle orbit path's sines and cosines are a parameter of `Frame` (`idlePath`).
- Convex pagination, async handlers and index internals are left out. A table is a sequence of rows in creation order.
- `localeCompare` is a code-unit lexicographic order. `new Date(date).getTime()` is a parameter of the related-post ranking (`timeOf`).
- `roleGuard` and the authentication wrappers in `convex/functions.ts` are not part of this model. Signing in is an optional caller, and the admin check is a flag on the caller.
- Unicode NFC normalisation is not modelled. The word-matching regular expression of the reading-time estimate is a parameter (`countWords`).
- `toLowerCase` and `toUpperCase` are modelled on ASCII letters only.
- `decodeURIComponent` is a parameter (`decode`), and so is `path.join` (`pathJoin`).
- The reading of the directory and the file, and the creation of a missing content directory, are not modelled. The e-mail, URL and date-time checks of the validation library are left out, and so are `gray-matter` and `cn`.
- React rendering, `useId`, `useIsMobile` and the CSS classes are left out. Panel ids are parameters, and the mobile flag is a parameter of `HudStore.AppStore.BodyShown`.
- Howler playback, `Howler.ctx.resume()`, the audio meter and `window.setTimeout` are not modelled. Timers and track ends are event methods, and the audio context is a flag.
- `controls.update()` damping in the orbit controls is left out.
- The SVG transforms, trigonometry and number formatting of the ship drawing are left out.
- The `Record` lookups of the ship drawing are modelled on the four and two known keys. Inherited object keys are not modelled.
- The project table in `convex/schema.ts` has no `lastSyncedAt` column, and the schema shown exports no `projectFields`. The modelled project carries an optional `lastSyncedAt` because the mutation writes one.
- BlackHole.FrameDraws: its own contract gives only the number of draw calls. The chain itself is stated by `FrameDrawsAreChained`.
- Posts.PublishedPosts: pagination is not modelled. The function gives the whole ordered list that pages are cut from.
- Schema.CheckCommentContent: counts characters of the modelled string, while the validation library's `.max` counts UTF-16 code units. A character outside the Basic Multilingual Plane counts once here and twice there.
- Schema.ContactIssues: counts characters where `.min` and `.max` count UTF-16 code units, as for `CheckCommentContent`.
- Auth.SessionBefore: takes a total `decode`. `decodeURIComponent` throws a `URIError` on a malformed escape, which would fail session creation; that failure is not modelled.
- Projects: `order` and `year` are numbers (floating point) in the schema; they are modelled as integers, so fractional orders and years are not modelled.
- BlackHole.Pipeline.FrameCallbacks: drives only the frame callback; the composite draw the framework issues after each callback is stated per frame by `RenderedFrame` and `TwoFrames`.
- Posts.RelatedPosts: takes an integer `limit`. The validator admits a fractional limit, which `slice` truncates; that case is not modelled.
- Text.Split: its own contract gives only a non-empty result. The pieces are pinned down by `JoinSplit` and by the count and separator lemmas beside it.

## Findings

| source | as written | input that shows it | evidently intended | confidence | as-written member | corrected member |
|---|---|---|---|---|---|---|
| convex/project.ts:69-74 | the loop deleting stale projects sits inside the loop over incoming projects, so every stale project is deleted once per incoming project | two incoming projects and one stored project whose slug is not incoming: the second scan deletes an id already deleted, the mutation throws and nothing is synced | delete the stale projects once, after the upsert loop, as `syncPosts` does | high, not executed | Projects.SyncProjectsAsWritten | Projects.SyncProjects |
| src/components/hud/hud-comms-panel.tsx:135-141 | the init timeout's callback is created at mount and reads `isOpen` from that render, which is always false | open the dialog within 2.5 seconds of mounting: when the timeout fires, quote 0 starts playing with the dialog open | start autoplay only if the dialog is closed when the timeout fires | high, not executed | CommsPanel.OpenBeforeInitTimer | CommsPanel.Panel.InitTimerFires |
| src/components/hud/hud-comms-panel.tsx:80-83 | `stopPlayback` turns autoplay off and stops the track, but leaves a pending next-quote timeout in place | open the dialog in the two seconds after quote 0 ends: the pending timeout still plays quote 1 with the dialog open | stopping playback also clears the next-quote timeout | medium, not executed | CommsPanel.OpenBetweenQuotes | CommsPanel.Panel.StopPlayback |
