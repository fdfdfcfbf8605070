/**
 * The `project` table: the listing queries and the sync mutation that
 * reconciles the table with the project files.
 */
module Projects {
  import opened Wrappers
  import opened Sorting
  import opened Database
  import opened Reconcile

  /** A stored project; `lastSyncedAt` is the sync time in milliseconds, absent on rows no sync wrote. */
  datatype Project = Project(
    slug: string, title: string, description: string, content: Option<string>,
    techStack: seq<string>, imageUrl: string, githubUrl: Option<string>, liveUrl: Option<string>,
    featured: bool, order: int, published: bool, year: Option<int>,
    lastSyncedAt: Option<int>)

  /** A project as the sync receives it: every field but `lastSyncedAt`. */
  datatype ProjectInput = ProjectInput(
    slug: string, title: string, description: string, content: Option<string>,
    techStack: seq<string>, imageUrl: string, githubUrl: Option<string>, liveUrl: Option<string>,
    featured: bool, order: int, published: bool, year: Option<int>)

  // ---------------------------------------------------------------------
  // list, getFeaturedProjects

  /** `list`: every project, newest-created first. */
  function ListProjects(rows: seq<Row<Project>>): (r: seq<Project>)
    ensures |r| == |rows|
    ensures forall i :: 0 <= i < |rows| ==> r[i] == rows[|rows| - 1 - i].doc
  {
    Reverse(Docs(rows))
  }

  function ByOrder(p: Project): SortKey {
    SortKey(p.order, 0, "")
  }

  /** The `by_featured_order` index range `featured = true, order <= 3`. */
  predicate Featured(p: Project) {
    p.featured && p.order <= 3
  }

  /**
   * `getFeaturedProjects`: the featured projects whose `order` is at most 3,
   * in the order of the `by_featured_order` index (ascending `order`, equal
   * orders in creation order).
   */
  function FeaturedProjects(rows: seq<Row<Project>>): (r: seq<Project>)
    ensures forall p :: p in r <==> p in Docs(rows) && Featured(p)
    ensures forall i, j :: 0 <= i < j < |r| ==> r[i].order <= r[j].order
    ensures multiset(r) == multiset(Filter(Docs(rows), Featured))
    ensures forall k :: Filter(r, KeyIs(ByOrder, k)) == Filter(Filter(Docs(rows), Featured), KeyIs(ByOrder, k))
  {
    var kept := Filter(Docs(rows), Featured);
    var r := SortBy(kept, ByOrder);
    FeaturedSorted(r);
    assert forall k :: Filter(r, KeyIs(ByOrder, k)) == Filter(kept, KeyIs(ByOrder, k)) by {
      forall k ensures Filter(r, KeyIs(ByOrder, k)) == Filter(kept, KeyIs(ByOrder, k)) {
        SortByStable(kept, ByOrder, k);
      }
    }
    assert forall p :: p in r <==> p in multiset(kept);
    r
  }

  lemma FeaturedSorted(r: seq<Project>)
    requires SortedBy(r, ByOrder)
    ensures forall i, j :: 0 <= i < j < |r| ==> r[i].order <= r[j].order
  {
    forall i, j | 0 <= i < j < |r| ensures r[i].order <= r[j].order {
      assert KeyLe(ByOrder(r[i]), ByOrder(r[j]));
    }
  }

  // ---------------------------------------------------------------------
  // syncProjects

  function NewProject(p: ProjectInput, now: int): Project {
    Project(p.slug, p.title, p.description, p.content, p.techStack, p.imageUrl, p.githubUrl, p.liveUrl,
            p.featured, p.order, p.published, p.year, Some(now))
  }

  /**
   * The patched project: `content` is always written, so an input without
   * content removes the stored one; the other optional fields (`githubUrl`,
   * `liveUrl`, `year`) keep their stored value when the input lacks them.
   */
  function PatchedProject(d: Project, p: ProjectInput, now: int): (r: Project)
    ensures r.slug == p.slug && r.lastSyncedAt == Some(now) && r.content == p.content
    ensures r.githubUrl == (if p.githubUrl.Some? then p.githubUrl else d.githubUrl)
    ensures r.liveUrl == (if p.liveUrl.Some? then p.liveUrl else d.liveUrl)
    ensures r.year == (if p.year.Some? then p.year else d.year)
  {
    NewProject(p, now).(
      githubUrl := if p.githubUrl.Some? then p.githubUrl else d.githubUrl,
      liveUrl := if p.liveUrl.Some? then p.liveUrl else d.liveUrl,
      year := if p.year.Some? then p.year else d.year)
  }

  /** How `syncProjects` reads and writes projects; `now` is the sync time in milliseconds. */
  function ProjectKind(now: int): (kind: Kind<ProjectInput, Project>)
    ensures Coherent(kind)
  {
    Kind((d: Project) => d.slug, (p: ProjectInput) => p.slug, (p: ProjectInput) => NewProject(p, now),
         (d: Project, p: ProjectInput) => PatchedProject(d, p, now), (d: Project) => d.lastSyncedAt == Some(now))
  }

  /**
   * `syncProjects` as written: the loop deleting stale projects runs inside
   * the loop over the incoming projects. With no incoming project nothing
   * is deleted; with one, the stale projects are deleted once; with two or
   * more and a stale project, the second scan deletes an id already gone,
   * which throws and rolls the mutation back. When it succeeds on at least
   * one project it leaves the table `SyncProjects` leaves.
   */
  method SyncProjectsAsWritten(db: Table<Project>, incoming: seq<ProjectInput>, now: int)
    returns (result: Result<SyncCounts>)
    requires db.Valid()
    modifies db
    ensures db.Valid()
    ensures result.Ok? <==>
              |incoming| <= 1 || StaleCount(ProjectKind(now), old(db.rows), InputSlugs(ProjectKind(now), incoming)) == 0
    ensures result.Err? ==> db.rows == old(db.rows)
    ensures result.Ok? ==> result.value.created + result.value.updated == |incoming|
    ensures result.Ok? ==>
              result.value.deleted == |incoming| * StaleCount(ProjectKind(now), old(db.rows), InputSlugs(ProjectKind(now), incoming))
    ensures incoming == [] ==> result == Ok(SyncCounts(0, 0, 0)) && db.rows == old(db.rows)
    ensures result.Ok? && incoming != [] ==> Slugs(ProjectKind(now), db.rows) == InputSlugs(ProjectKind(now), incoming)
    ensures result.Ok? && incoming != [] ==> SyncedTable(ProjectKind(now), old(db.rows), db.rows, incoming)
  {
    result := SyncNested(db, ProjectKind(now), incoming);
  }

  /**
   * `syncProjects` with the delete loop after the upsert loop, as in
   * `syncPosts`: every stale project is deleted once, and afterwards the
   * stored slugs are exactly the incoming ones.
   */
  method SyncProjects(db: Table<Project>, incoming: seq<ProjectInput>, now: int) returns (counts: SyncCounts)
    requires db.Valid()
    modifies db
    ensures db.Valid()
    ensures counts.created + counts.updated == |incoming|
    ensures counts.updated == KnownCount(ProjectKind(now), incoming, Slugs(ProjectKind(now), old(db.rows)))
    ensures counts.deleted == StaleCount(ProjectKind(now), old(db.rows), InputSlugs(ProjectKind(now), incoming))
    ensures Slugs(ProjectKind(now), db.rows) == InputSlugs(ProjectKind(now), incoming)
    ensures forall r :: r in old(db.rows) && r.doc.slug in InputSlugs(ProjectKind(now), incoming) ==> r.id in Ids(db.rows)
    ensures forall r :: r in db.rows && r.id !in Ids(old(db.rows)) ==> r.doc.lastSyncedAt == Some(now)
    ensures UniqueSlugs(ProjectKind(now), old(db.rows)) ==> forall r :: r in db.rows ==> r.doc.lastSyncedAt == Some(now)
    ensures forall k :: 0 <= k < |old(db.rows)| ==> SyncedAt(ProjectKind(now), old(db.rows), db.rows, incoming, k)
    ensures forall r :: r in db.rows && r.id !in Ids(old(db.rows)) ==>
              exists p :: p in incoming && p.slug !in Slugs(ProjectKind(now), old(db.rows)) && r.doc == NewProject(p, now)
    ensures forall p :: p in incoming && p.slug !in Slugs(ProjectKind(now), old(db.rows)) ==>
              exists r :: r in db.rows && r.id !in Ids(old(db.rows)) && r.doc == NewProject(p, now)
  {
    counts := Sync(db, ProjectKind(now), incoming);
  }
}
