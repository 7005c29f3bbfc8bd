// The versioned post store of crawler/store.py. A content or comment hash is injective, so a version
// is identified by the content and the comments themselves.
module Versions {
  import opened Wrappers
  import opened Frontier

  type Comment = string

  datatype Availability = Available | Restricted | Missing

  datatype Outcome = Stored | Unchanged | ParseFailed | FetchFailed | Removed(how: Availability)

  // A captured page (NormalizedPost).
  datatype Page = Page(id: Id, url: string, title: string, author: Option<string>, category: Option<string>,
                       createdRaw: Option<string>, views: nat, isAa: bool, content: string, comments: seq<Comment>)

  // normalize_source_timestamp: the date a source text stands for, in seconds, when read at a time. An
  // absolute date does not depend on that time; "14:30", "07-15" or "32 minutes ago" do.
  type Normalizer = (string, int) -> Option<int>

  function Normalized(n: Normalizer, raw: Option<string>, at: int): Option<int> {
    if raw.Some? then n(raw.value, at) else None
  }

  // A row of the posts table.
  datatype Post = Post(key: nat, url: string, title: string, author: Option<string>, category: Option<string>,
                       createdSource: Option<int>, createdRaw: Option<string>, views: nat, commentCount: nat,
                       isAa: bool, latest: Option<nat>, availability: Availability, seenAt: int,
                       collectedAt: Option<int>)

  datatype Version = Version(post: nat, content: string, comments: seq<Comment>)

  datatype Capture = Capture(post: Option<nat>, outcome: Outcome, code: Option<Code>)

  // `comments` holds the comment rows of each post, in position order.
  datatype Archive = Archive(posts: map<Id, Post>, versions: map<nat, Version>, comments: map<nat, seq<Comment>>,
                             captures: seq<Capture>, nextPost: nat, nextVersion: nat)

  const EMPTY := Archive(map[], map[], map[], [], 1, 1)

  function Or<T>(a: Option<T>, b: Option<T>): Option<T> {
    if a.Some? then a else b
  }

  // ------------------------------------------------------------------ store_post

  ghost predicate HaveComments(a: Archive) {
    forall id | id in a.posts :: a.posts[id].key in a.comments
  }

  // A short list that would replace more comments than are stored keeps the stored body.
  predicate KeepsBody(a: Archive, page: Page, lease: Option<Lease>)
    requires HaveComments(a)
  {
    && page.id in a.posts && a.posts[page.id].latest.Some?
    && lease.Some? && lease.value.expected.Some?
    && |page.comments| < lease.value.expected.value
    && |page.comments| < |a.comments[a.posts[page.id].key]|
  }

  // The upsert into posts.
  function Upserted(n: Normalizer, a: Archive, page: Page, at: int): Post {
    var source := Normalized(n, page.createdRaw, at);
    if page.id in a.posts then
      var was := a.posts[page.id];
      was.(url := page.url, title := page.title, author := Or(page.author, was.author),
           category := Or(page.category, was.category), createdSource := Or(source, was.createdSource),
           createdRaw := Or(page.createdRaw, was.createdRaw),
           views := if page.views >= was.views then page.views else was.views,
           commentCount := |page.comments|, isAa := page.isAa, availability := Available, seenAt := at,
           collectedAt := Some(at))
    else
      Post(a.nextPost, page.url, page.title, page.author, page.category, source, page.createdRaw, page.views,
           |page.comments|, page.isAa, None, Available, at, Some(at))
  }

  // The columns of a post row that a capture compares, which are those readers see besides the views.
  // The comment count is the stored column, which a listing pass rewrites too; the export counts rows.
  datatype Projection = Projection(url: string, title: string, author: Option<string>, category: Option<string>,
                                   createdSource: Option<int>, createdRaw: Option<string>, commentCount: nat,
                                   isAa: bool)

  function Projected(p: Post): Projection {
    Projection(p.url, p.title, p.author, p.category, p.createdSource, p.createdRaw, p.commentCount, p.isAa)
  }

  // UNIQUE (post_id, content_sha256, comments_sha256)
  ghost predicate VersionsUnique(versions: map<nat, Version>) {
    forall v, w | v in versions && w in versions && versions[v] == versions[w] :: v == w
  }

  // The id of the version row of this content, if there is one.
  function Existing(versions: map<nat, Version>, wanted: Version): (v: Option<nat>)
    requires VersionsUnique(versions)
    ensures v.Some? ==> v.value in versions && versions[v.value] == wanted
    ensures v.None? ==> forall w | w in versions :: versions[w] != wanted
  {
    if exists w | w in versions :: versions[w] == wanted then
      (var w :| w in versions && versions[w] == wanted; Some(w))
    else None
  }

  datatype Result = Result(archive: Archive, version: nat, changed: bool, settle: Option<Settlement>)

  function SettleStored(page: Page, lease: Option<Lease>, at: int): Option<Settlement> {
    if lease.None? then None
    else if lease.value.expected.Some? && |page.comments| < lease.value.expected.value
    then Some(Fail(Some(IncompleteComments), at, None))
    else Some(Complete(Some(|page.comments|)))
  }

  // The upsert, the version row and the comment rows.
  function Written(n: Normalizer, a: Archive, page: Page, at: int): (Archive, nat, bool)
    requires VersionsUnique(a.versions)
  {
    var post := Upserted(n, a, page, at);
    var wanted := Version(post.key, page.content, page.comments);
    var existing := Existing(a.versions, wanted);
    var version := if existing.Some? then existing.value else a.nextVersion;
    var versionChanged := post.latest != Some(version);
    var projectionChanged := page.id !in a.posts || Projected(a.posts[page.id]) != Projected(post);
    (Archive(a.posts[page.id := post.(latest := Some(version))],
             a.versions[version := wanted],
             if versionChanged then a.comments[post.key := page.comments] else a.comments,
             a.captures,
             if page.id in a.posts then a.nextPost else a.nextPost + 1,
             if existing.None? then a.nextVersion + 1 else a.nextVersion),
     version, projectionChanged || versionChanged)
  }

  function StorePost(n: Normalizer, a: Archive, page: Page, lease: Option<Lease>, at: int): Result
    requires VersionsUnique(a.versions) && HaveComments(a)
  {
    if KeepsBody(a, page, lease) then
      var was := a.posts[page.id];
      Result(a.(captures := a.captures + [Capture(Some(was.key), ParseFailed, Some(IncompleteComments))]),
             was.latest.value, false, Some(Fail(Some(IncompleteComments), at, None)))
    else
      var (b, version, changed) := Written(n, a, page, at);
      var outcome := if changed then Stored else Unchanged;
      Result(b.(captures := a.captures + [Capture(Some(b.posts[page.id].key), outcome, None)]), version, changed,
             SettleStored(page, lease, at))
  }

  // ------------------------------------------------------------------ the other captures

  datatype Op =
    | Store(page: Page, lease: Option<Lease>, at: int)
    | Discover(listed: Page, count: nat, at: int)          // store_discovered_post
    | NotModified(id: Id, at: int)                         // record_unmodified_post, a 304
    | Record(id: Id, outcome: Outcome, code: Option<Code>, at: int)  // record_outcome

  // A listing pass knows the date as written, and leaves the source date alone.
  function Discovered(a: Archive, listed: Page, count: nat, at: int): Archive {
    if listed.id in a.posts then
      var was := a.posts[listed.id];
      a.(posts := a.posts[listed.id :=
           was.(url := listed.url, title := if was.latest.None? then listed.title else was.title,
                author := Or(listed.author, was.author), category := Or(listed.category, was.category),
                createdRaw := Or(listed.createdRaw, was.createdRaw), seenAt := at, commentCount := count)])
    else
      a.(posts := a.posts[listed.id := Post(a.nextPost, listed.url, listed.title, listed.author, listed.category,
                                            None, listed.createdRaw, 0, count, false, None, Available, at, None)],
         comments := a.comments[a.nextPost := []],
         nextPost := a.nextPost + 1)
  }

  function Do(n: Normalizer, a: Archive, op: Op): Archive
    requires VersionsUnique(a.versions) && HaveComments(a)
  {
    match op
    case Store(page, lease, at) => StorePost(n, a, page, lease, at).archive
    case Discover(listed, count, at) => Discovered(a, listed, count, at)
    case NotModified(id, at) => Confirmed(a, id, at)
    case Record(id, outcome, code, at) => Recorded(a, id, outcome, code, at)
  }

  function Confirmed(a: Archive, id: Id, at: int): Archive {
    if id !in a.posts then a
    else a.(posts := a.posts[id := a.posts[id].(seenAt := at, collectedAt := Some(at))],
            captures := a.captures + [Capture(Some(a.posts[id].key), Unchanged, None)])
  }

  function Recorded(a: Archive, id: Id, outcome: Outcome, code: Option<Code>, at: int): Archive {
    var key := if id in a.posts then Some(a.posts[id].key) else None;
    var gone := id in a.posts && outcome.Removed? && !outcome.how.Available?;
    a.(captures := a.captures + [Capture(key, outcome, code)],
       posts := if gone then a.posts[id := a.posts[id].(availability := outcome.how, collectedAt := Some(at))]
                else a.posts)
  }

  // ------------------------------------------------------------------ the invariant

  // The comment rows of a post are those captured with its latest version, which is its own.
  ghost predicate LatestMatches(a: Archive, p: Post) {
    && p.key in a.comments
    && (p.latest.Some? ==>
          && p.latest.value in a.versions
          && a.versions[p.latest.value].post == p.key
          && a.versions[p.latest.value].comments == a.comments[p.key])
    && (p.latest.None? ==> a.comments[p.key] == [])
  }

  ghost predicate Consistent(a: Archive) {
    && VersionsUnique(a.versions)
    && KeysUnique(a)
    && (forall id | id in a.posts :: LatestMatches(a, a.posts[id]))
    && (forall v | v in a.versions :: v < a.nextVersion)
  }

  // A post keeps its key, its body and a known date, and its views never decrease.
  ghost predicate PostGrows(was: Post, p: Post) {
    && p.key == was.key && p.views >= was.views && (was.latest.Some? ==> p.latest.Some?)
    && (was.createdSource.Some? ==> p.createdSource.Some?) && (was.createdRaw.Some? ==> p.createdRaw.Some?)
  }

  // What no capture undoes: versions are never removed or altered, posts grow, and captures are only
  // appended.
  ghost predicate Grows(a: Archive, b: Archive) {
    && (forall v | v in a.versions :: v in b.versions && b.versions[v] == a.versions[v])
    && (forall id | id in a.posts :: id in b.posts && PostGrows(a.posts[id], b.posts[id]))
    && a.captures <= b.captures
  }

  ghost predicate KeysUnique(a: Archive) {
    && (forall id | id in a.posts :: a.posts[id].key < a.nextPost)
    && (forall x, y | x in a.posts && y in a.posts && a.posts[x].key == a.posts[y].key :: x == y)
  }

  lemma StoreKeepsSound(n: Normalizer, a: Archive, page: Page, lease: Option<Lease>, at: int)
    requires Consistent(a)
    ensures Consistent(StorePost(n, a, page, lease, at).archive)
  {
    var b := StorePost(n, a, page, lease, at).archive;
    StoreKeepsVersions(n, a, page, lease, at);
    StoreKeepsKeys(n, a, page, lease, at);
    forall id | id in b.posts ensures LatestMatches(b, b.posts[id]) {
      StoreKeepsMatch(n, a, page, lease, at, id);
    }
  }

  lemma StoreKeepsVersions(n: Normalizer, a: Archive, page: Page, lease: Option<Lease>, at: int)
    requires Consistent(a)
    ensures var b := StorePost(n, a, page, lease, at).archive;
            VersionsUnique(b.versions) && forall v | v in b.versions :: v < b.nextVersion
  {
  }

  lemma StoreKeepsKeys(n: Normalizer, a: Archive, page: Page, lease: Option<Lease>, at: int)
    requires Consistent(a)
    ensures KeysUnique(StorePost(n, a, page, lease, at).archive)
  {
  }

  lemma StoreKeepsMatch(n: Normalizer, a: Archive, page: Page, lease: Option<Lease>, at: int, id: Id)
    requires Consistent(a)
    requires id in StorePost(n, a, page, lease, at).archive.posts
    ensures var b := StorePost(n, a, page, lease, at).archive;
            LatestMatches(b, b.posts[id])
  {
    if id in a.posts {
      assert LatestMatches(a, a.posts[id]);
    }
    if page.id in a.posts {
      assert LatestMatches(a, a.posts[page.id]);
    }
  }

  lemma StoreGrows(n: Normalizer, a: Archive, page: Page, lease: Option<Lease>, at: int)
    requires Consistent(a)
    ensures Grows(a, StorePost(n, a, page, lease, at).archive)
  {
    var b := StorePost(n, a, page, lease, at).archive;
    StoreKeepsRows(n, a, page, lease, at);
    forall id | id in a.posts ensures id in b.posts && PostGrows(a.posts[id], b.posts[id]) {
    }
  }

  // No version row is lost: a new one has a fresh id, and an existing one is found again.
  lemma StoreKeepsRows(n: Normalizer, a: Archive, page: Page, lease: Option<Lease>, at: int)
    requires Consistent(a)
    ensures var b := StorePost(n, a, page, lease, at).archive;
            forall v | v in a.versions :: v in b.versions && b.versions[v] == a.versions[v]
  {
  }

  // A row that keeps its key and its body: what a listing pass, a 304 and a recorded outcome write.
  ghost predicate Touches(was: Post, p: Post) {
    p.latest == was.latest && PostGrows(was, p)
  }

  lemma TouchKeepsSound(a: Archive, b: Archive, id: Id)
    requires Consistent(a) && id in a.posts && id in b.posts && Touches(a.posts[id], b.posts[id])
    requires b == a.(posts := a.posts[id := b.posts[id]], captures := b.captures) && a.captures <= b.captures
    ensures Consistent(b) && Grows(a, b)
  {
    TouchKeepsKeys(a, b, id);
    forall x | x in b.posts ensures LatestMatches(b, b.posts[x]) {
      assert LatestMatches(a, a.posts[x]);
    }
  }

  lemma TouchKeepsKeys(a: Archive, b: Archive, id: Id)
    requires KeysUnique(a) && id in a.posts && id in b.posts && b.posts[id].key == a.posts[id].key
    requires b.posts == a.posts[id := b.posts[id]] && b.nextPost == a.nextPost
    ensures KeysUnique(b)
  {
  }

  lemma DiscoverKeepsSound(a: Archive, listed: Page, count: nat, at: int)
    requires Consistent(a)
    ensures Consistent(Discovered(a, listed, count, at)) && Grows(a, Discovered(a, listed, count, at))
  {
    var b := Discovered(a, listed, count, at);
    if listed.id in a.posts {
      TouchKeepsSound(a, b, listed.id);
    } else {
      ListedKeys(a, b, listed.id);
      forall x | x in b.posts ensures LatestMatches(b, b.posts[x]) {
        if x != listed.id {
          assert LatestMatches(a, a.posts[x]);
        }
      }
    }
  }

  lemma ListedKeys(a: Archive, b: Archive, id: Id)
    requires KeysUnique(a) && id !in a.posts && id in b.posts && b.posts[id].key == a.nextPost
    requires b.posts == a.posts[id := b.posts[id]] && b.nextPost == a.nextPost + 1
    ensures KeysUnique(b)
  {
  }

  lemma ConfirmKeepsSound(a: Archive, id: Id, at: int)
    requires Consistent(a)
    ensures Consistent(Confirmed(a, id, at)) && Grows(a, Confirmed(a, id, at))
  {
    if id in a.posts {
      TouchKeepsSound(a, Confirmed(a, id, at), id);
    }
  }

  lemma RecordKeepsSound(a: Archive, id: Id, outcome: Outcome, code: Option<Code>, at: int)
    requires Consistent(a)
    ensures Consistent(Recorded(a, id, outcome, code, at)) && Grows(a, Recorded(a, id, outcome, code, at))
  {
    var b := Recorded(a, id, outcome, code, at);
    if id in a.posts {
      TouchKeepsSound(a, b, id);
    } else {
      CaptureKeepsSound(a, b);
    }
  }

  lemma CaptureKeepsSound(a: Archive, b: Archive)
    requires Consistent(a) && b == a.(captures := b.captures) && a.captures <= b.captures
    ensures Consistent(b) && Grows(a, b)
  {
    forall x | x in b.posts ensures LatestMatches(b, b.posts[x]) {
      assert LatestMatches(a, a.posts[x]);
    }
  }

  function Run(n: Normalizer, a: Archive, ops: seq<Op>): Archive
    requires Consistent(a)
    decreases |ops|
  {
    if ops == [] then a else (DoKeepsSound(n, a, ops[0]); Run(n, Do(n, a, ops[0]), ops[1..]))
  }

  lemma DoKeepsSound(n: Normalizer, a: Archive, op: Op)
    requires Consistent(a)
    ensures Consistent(Do(n, a, op)) && Grows(a, Do(n, a, op))
  {
    if op.Store? {
      StoreKeepsSound(n, a, op.page, op.lease, op.at);
      StoreGrows(n, a, op.page, op.lease, op.at);
    } else if op.Discover? {
      DiscoverKeepsSound(a, op.listed, op.count, op.at);
    } else if op.NotModified? {
      ConfirmKeepsSound(a, op.id, op.at);
    } else {
      RecordKeepsSound(a, op.id, op.outcome, op.code, op.at);
    }
  }

  // Over any run of captures the store stays sound and only grows.
  lemma {:induction false} RunsAreSound(n: Normalizer, a: Archive, ops: seq<Op>)
    requires Consistent(a)
    ensures Consistent(Run(n, a, ops)) && Grows(a, Run(n, a, ops))
    decreases |ops|
  {
    if ops != [] {
      DoKeepsSound(n, a, ops[0]);
      RunsAreSound(n, Do(n, a, ops[0]), ops[1..]);
      GrowsChain(a, Do(n, a, ops[0]), Run(n, Do(n, a, ops[0]), ops[1..]));
    }
  }

  lemma GrowsChain(a: Archive, b: Archive, c: Archive)
    requires Grows(a, b) && Grows(b, c)
    ensures Grows(a, c)
  {
  }

  // For a leased capture of a stored post with an expected count, the comment list shrinks only if
  // the capture meets that count; and the lease is settled as complete exactly when it does.
  lemma ShrinksOnlyWhenComplete(n: Normalizer, a: Archive, page: Page, lease: Lease, at: int)
    requires Consistent(a) && page.id in a.posts && a.posts[page.id].latest.Some? && lease.expected.Some?
    ensures var r := StorePost(n, a, page, Some(lease), at);
            var key := a.posts[page.id].key;
            && (|r.archive.comments[key]| < |a.comments[key]| ==> |page.comments| >= lease.expected.value)
            && (r.settle == Some(Complete(Some(|page.comments|))) <==> |page.comments| >= lease.expected.value)
            && (r.settle == Some(Fail(Some(IncompleteComments), at, None)) <==> |page.comments| < lease.expected.value)
  {
    assert LatestMatches(a, a.posts[page.id]);
    StoreKeepsSound(n, a, page, Some(lease), at);
    assert LatestMatches(StorePost(n, a, page, Some(lease), at).archive, StorePost(n, a, page, Some(lease), at).archive.posts[page.id]);
  }

  // A body is never kept from a listing-only row, and storing a page makes it the post's latest:
  // its content and comments are what readers get.
  lemma StoredIsLatest(n: Normalizer, a: Archive, page: Page, lease: Option<Lease>, at: int)
    requires Consistent(a) && !KeepsBody(a, page, lease)
    ensures var r := StorePost(n, a, page, lease, at);
            var p := r.archive.posts[page.id];
            && p.latest == Some(r.version)
            && r.archive.versions[r.version] == Version(p.key, page.content, page.comments)
            && r.archive.comments[p.key] == page.comments
            && p.commentCount == |page.comments|
    ensures page.id in a.posts && a.posts[page.id].latest.None? ==> !KeepsBody(a, page, lease)
  {
    StoreKeepsSound(n, a, page, lease, at);
    var r := StorePost(n, a, page, lease, at);
    assert LatestMatches(r.archive, r.archive.posts[page.id]);
  }

  // The whole capture, case by case. A list shorter than the leased count and than the stored one is set
  // aside: nothing but the record of the capture is new. Any other page is stored: its columns, with the
  // old author, category and dates where it has none and the higher of the views, its content and its
  // comments; and no other post changes.
  lemma StoredIff(n: Normalizer, a: Archive, page: Page, lease: Option<Lease>, at: int)
    requires Consistent(a)
    ensures var r := StorePost(n, a, page, lease, at);
            var short := lease.Some? && lease.value.expected.Some? && |page.comments| < lease.value.expected.value;
            var aside := short && page.id in a.posts && a.posts[page.id].latest.Some?
                         && |page.comments| < |a.comments[a.posts[page.id].key]|;
            && r.settle == (if lease.None? then None
                            else if short then Some(Fail(Some(IncompleteComments), at, None))
                            else Some(Complete(Some(|page.comments|))))
            && (aside ==> r.archive == a.(captures := a.captures + [Capture(Some(a.posts[page.id].key), ParseFailed,
                                                                            Some(IncompleteComments))]))
            && (!aside ==> IsStored(n, a, r.archive, page, at))
  {
    if !KeepsBody(a, page, lease) {
      PageIsStored(n, a, page, lease, at);
    }
  }

  lemma PageIsStored(n: Normalizer, a: Archive, page: Page, lease: Option<Lease>, at: int)
    requires Consistent(a) && !KeepsBody(a, page, lease)
    ensures IsStored(n, a, StorePost(n, a, page, lease, at).archive, page, at)
  {
    StoredIsLatest(n, a, page, lease, at);
    var b := StorePost(n, a, page, lease, at).archive;
    var p := b.posts[page.id];
    assert p == Upserted(n, a, page, at).(latest := p.latest);
    assert b.posts == a.posts[page.id := p];
  }

  ghost predicate IsStored(n: Normalizer, a: Archive, b: Archive, page: Page, at: int) {
    && page.id in b.posts && b.posts.Keys == a.posts.Keys + {page.id}
    && (forall id | id in a.posts && id != page.id :: b.posts[id] == a.posts[id])
    && var p := b.posts[page.id];
    && p.url == page.url && p.title == page.title && p.isAa == page.isAa && p.commentCount == |page.comments|
    && p.availability == Available && p.seenAt == at && p.collectedAt == Some(at)
    && p.key in b.comments && b.comments[p.key] == page.comments
    && p.latest.Some? && p.latest.value in b.versions
    && b.versions[p.latest.value] == Version(p.key, page.content, page.comments)
    && var date := if page.createdRaw.Some? then n(page.createdRaw.value, at) else None;
    if page.id in a.posts then
      && var was := a.posts[page.id];
      && p.key == was.key && p.views == (if page.views >= was.views then page.views else was.views)
      && p.author == (if page.author.Some? then page.author else was.author)
      && p.category == (if page.category.Some? then page.category else was.category)
      && p.createdRaw == (if page.createdRaw.Some? then page.createdRaw else was.createdRaw)
      && p.createdSource == (if date.Some? then date else was.createdSource)
    else
      && p.key == a.nextPost && p.views == page.views && p.author == page.author && p.category == page.category
      && p.createdRaw == page.createdRaw && p.createdSource == date
  }

  // A capture is recorded as stored exactly when it changed a compared column, the version or the
  // comments.
  lemma UnchangedMeansUnchanged(n: Normalizer, a: Archive, page: Page, lease: Option<Lease>, at: int)
    requires Consistent(a) && page.id in a.posts && !KeepsBody(a, page, lease)
    ensures var r := StorePost(n, a, page, lease, at);
            var before, after := a.posts[page.id], r.archive.posts[page.id];
            !r.changed <==> && Projected(before) == Projected(after) && before.latest == after.latest
                            && a.comments[before.key] == r.archive.comments[after.key]
  {
    assert LatestMatches(a, a.posts[page.id]);
    StoredIsLatest(n, a, page, lease, at);
  }

  // The same page again never adds a version or touches the comments. It is recorded as unchanged
  // exactly when its date, read at the later time, is unknown or the one stored.
  lemma CapturingTwice(n: Normalizer, a: Archive, page: Page, lease: Option<Lease>, at: int, later: int)
    requires Consistent(a) && !KeepsBody(a, page, lease)
    ensures var b := StorePost(n, a, page, lease, at).archive;
            var r := StorePost(n, b, page, lease, later);
            var date := Normalized(n, page.createdRaw, later);
            && Consistent(b) && !KeepsBody(b, page, lease)
            && (!r.changed <==> date.None? || date == b.posts[page.id].createdSource)
            && r.archive.versions == b.versions && r.archive.comments == b.comments
  {
    StoreKeepsSound(n, a, page, lease, at);
    StoredIsLatest(n, a, page, lease, at);
    var b := StorePost(n, a, page, lease, at).archive;
    var wanted := Version(b.posts[page.id].key, page.content, page.comments);
    assert Existing(b.versions, wanted) == b.posts[page.id].latest;
  }

  // "32 minutes ago", as TypeMoon shows recent posts.
  const COMPACT_RELATIVE := "32분전"

  function CompactRelative(raw: string, at: int): Option<int> {
    if raw == COMPACT_RELATIVE then Some(at - 32 * 60) else None
  }

  // So a page with a relative date is stored again whenever it is captured again, and its source date
  // moves with the capture.
  lemma RelativeDatesMove(a: Archive, page: Page, lease: Option<Lease>, at: int, later: int)
    requires Consistent(a) && !KeepsBody(a, page, lease)
    requires page.createdRaw == Some(COMPACT_RELATIVE) && at != later
    ensures var b := StorePost(CompactRelative, a, page, lease, at).archive;
            && Consistent(b)
            && var r := StorePost(CompactRelative, b, page, lease, later);
               && r.changed && r.archive.versions == b.versions
               && r.archive.posts[page.id].createdSource == Some(later - 32 * 60) != b.posts[page.id].createdSource
  {
    CapturingTwice(CompactRelative, a, page, lease, at, later);
  }

  // ------------------------------------------------------------------ the store itself

  class ArchiveStore {
    var a: Archive

    ghost predicate Valid()
      reads this
    {
      Consistent(a)
    }

    constructor ()
      ensures Valid() && a == EMPTY
    {
      a := EMPTY;
    }

    // One transaction. `held` says whether the frontier row still has this lease; if not, settling it
    // raises and everything is rolled back.
    method Store(n: Normalizer, page: Page, lease: Option<Lease>, held: bool, at: int)
      returns (ok: bool, version: nat, changed: bool, settle: Option<Settlement>)
      requires Valid()
      modifies this
      ensures Valid() && Grows(old(a), a)
      ensures ok <==> lease.None? || held
      ensures ok ==> Result(a, version, changed, settle) == StorePost(n, old(a), page, lease, at)
      ensures !ok ==> a == old(a)
    {
      StoreKeepsSound(n, a, page, lease, at);
      StoreGrows(n, a, page, lease, at);
      var start := a;
      if KeepsBody(a, page, lease) {
        var was := a.posts[page.id];
        a := a.(captures := a.captures + [Capture(Some(was.key), ParseFailed, Some(IncompleteComments))]);
        version, changed, settle := was.latest.value, false, Some(Fail(Some(IncompleteComments), at, None));
      } else {
        version, changed := Write(n, page, at);
        var outcome := if changed then Stored else Unchanged;
        a := a.(captures := a.captures + [Capture(Some(a.posts[page.id].key), outcome, None)]);
        settle := SettleStored(page, lease, at);
      }
      ok := lease.None? || held;
      if !ok {
        a := start;
      }
    }

    // The upsert, the version row and the comment rows, in the order store_post writes them.
    method Write(n: Normalizer, page: Page, at: int) returns (version: nat, changed: bool)
      requires Valid()
      modifies this
      ensures (a, version, changed) == Written(n, old(a), page, at)
    {
      ghost var after := Written(n, a, page, at).0;
      var existing := if page.id in a.posts then Some(a.posts[page.id]) else None;
      var post := Upserted(n, a, page, at);
      var projectionChanged := existing.None? || Projected(existing.value) != Projected(post);
      a := a.(posts := a.posts[page.id := post], nextPost := if existing.None? then a.nextPost + 1 else a.nextPost);
      version := WriteVersion(Version(post.key, page.content, page.comments));
      var versionChanged := post.latest != Some(version);
      if versionChanged {
        a := a.(comments := a.comments[post.key := page.comments],
                posts := a.posts[page.id := post.(latest := Some(version))]);
      }
      assert a.posts == after.posts;
      changed := projectionChanged || versionChanged;
    }

    // The version row: the one there is, or a new one.
    method WriteVersion(wanted: Version) returns (version: nat)
      requires VersionsUnique(a.versions)
      modifies this
      ensures var existing := Existing(old(a).versions, wanted);
              && version == (if existing.Some? then existing.value else old(a).nextVersion)
              && a == old(a).(versions := old(a).versions[version := wanted],
                              nextVersion := if existing.None? then version + 1 else old(a).nextVersion)
    {
      var found := Existing(a.versions, wanted);
      if found.None? {
        version := a.nextVersion;
        a := a.(versions := a.versions[version := wanted], nextVersion := version + 1);
      } else {
        version := found.value;
        assert a.versions[version := wanted] == a.versions;
      }
    }
  }
}
