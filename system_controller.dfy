/**
 * The public system endpoints of server/src/controllers/systemController.js:
 * the announcement, the paged article list, bug reports and the version.
 */
module SystemController {
  import opened Common
  import opened ApiResponse
  import opened Database

  // ---- getPublicInfo ----

  /** The announcement sent when none is configured. */
  const DefaultAnnouncement: Announcement :=
    Announcement("info", true, "Welcome to CursorPool", "No announcements at this time.", [])

  /**
   * `getPublicInfo`: the first active `announcement` row of `public_info`
   * decides. If that row has a value it is sent; otherwise (no row, or a
   * NULL or empty value) the default is, even when a later row has a value.
   */
  function GetPublicInfo(db: Store): (r: Reply<Announcement>)
    reads db
    ensures r.httpStatus == 200 && r.body.data.Some?
    ensures var row := First(db.publicInfo, (p: PublicInfo) => p.key == "announcement" && p.status == 1);
      && (row.Some? && db.publicInfo[row.value].value.Some? ==> r.body.data == db.publicInfo[row.value].value)
      && (row.None? || db.publicInfo[row.value].value.None? ==> r.body.data == Some(DefaultAnnouncement))
    ensures (forall j :: 0 <= j < |db.publicInfo| ==> db.publicInfo[j].key != "announcement" || db.publicInfo[j].status != 1) ==>
      r.body.data == Some(DefaultAnnouncement)
  {
    var row := First(db.publicInfo, (p: PublicInfo) => p.key == "announcement" && p.status == 1);
    if row.Some? && db.publicInfo[row.value].value.Some? then Ok(db.publicInfo[row.value].value, None)
    else Ok(Some(DefaultAnnouncement), None)
  }

  // ---- getArticleList ----

  const PageSize: int := 10

  /** `SELECT id, title, content`: what the list shows of an article. */
  datatype ArticleSummary = ArticleSummary(id: int, title: string, content: string)

  datatype ArticleList = ArticleList(articles: seq<ArticleSummary>, total: int, page: int, pageSize: int)

  /** The published articles (`status = 1`), in table order. */
  function Published(rows: seq<Article>): (r: seq<Article>)
    ensures |r| <= |rows|
    ensures forall a :: a in r <==> a in rows && a.status == 1
    ensures forall a :: multiset(r)[a] == if a.status == 1 then multiset(rows)[a] else 0
    decreases |rows|
  {
    if rows == [] then []
    else
      assert rows == [rows[0]] + rows[1..];
      var head := if rows[0].status == 1 then [rows[0]] else [];
      var r := head + Published(rows[1..]);
      assert multiset(r) == multiset(head) + multiset(Published(rows[1..]));
      assert multiset(rows) == multiset{rows[0]} + multiset(rows[1..]);
      r
  }

  /** `ORDER BY created_at DESC`. */
  predicate NewestFirst(s: seq<Article>) {
    forall i, j :: 0 <= i < j < |s| ==> s[i].createdAt >= s[j].createdAt
  }

  /** Puts `a` into a newest-first sequence, ahead of the rows no newer than it. */
  function Insert(a: Article, s: seq<Article>): (r: seq<Article>)
    requires NewestFirst(s)
    ensures NewestFirst(r) && multiset(r) == multiset(s) + multiset{a} && |r| == |s| + 1
    ensures r[0] == a || (s != [] && r[0] == s[0])
    decreases |s|
  {
    if s == [] || a.createdAt >= s[0].createdAt then [a] + s
    else
      var rest := Insert(a, s[1..]);
      assert s == [s[0]] + s[1..];
      [s[0]] + rest
  }

  /**
   * The rows in one of the orders SQLite may return for `ORDER BY
   * created_at DESC`: newest first, the same rows; rows created at the same
   * instant may come in any order.
   */
  function SortNewestFirst(s: seq<Article>): (r: seq<Article>)
    ensures NewestFirst(r) && multiset(r) == multiset(s) && |r| == |s|
    decreases |s|
  {
    if s == [] then []
    else
      assert s == [s[0]] + s[1..];
      Insert(s[0], SortNewestFirst(s[1..]))
  }

  /** `LIMIT 10 OFFSET offset`; SQLite treats a negative offset as zero. */
  function Window<T>(s: seq<T>, offset: int): (w: seq<T>)
    ensures |w| <= PageSize
    ensures var o := Max(offset, 0);
      && (o >= |s| ==> w == [])
      && (o < |s| ==> |w| == if |s| - o < PageSize then |s| - o else PageSize)
      && forall k :: 0 <= k < |w| ==> w[k] == s[o + k]
  {
    var o := if offset < 0 then 0 else offset;
    if o >= |s| then [] else s[o..if o + PageSize < |s| then o + PageSize else |s|]
  }

  function Summaries(rows: seq<Article>): (r: seq<ArticleSummary>)
    ensures |r| == |rows|
    ensures forall k :: 0 <= k < |r| ==> r[k] == ArticleSummary(rows[k].id, rows[k].title, rows[k].content)
  {
    seq(|rows|, k requires 0 <= k < |rows| => ArticleSummary(rows[k].id, rows[k].title, rows[k].content))
  }

  /** `parseInt(req.params.page) || 1`: an unparsable (`None`) or zero page is page 1. */
  function PageNumber(page: Option<int>): (p: int)
    ensures page.None? || page.value == 0 ==> p == 1
    ensures page.Some? && page.value != 0 ==> p == page.value
    ensures p != 0
  {
    if page.None? || page.value == 0 then 1 else page.value
  }

  /** The published articles, newest first: the sequence the pages cut up. */
  function Ranked(db: Store): seq<Article>
    reads db
  {
    SortNewestFirst(Published(db.articles))
  }

  /**
   * `getArticleList`: page `p` shows the published articles ranked
   * `(p - 1) * 10` to `p * 10 - 1` by creation time, and `total` counts all
   * published articles.
   */
  function GetArticleList(db: Store, page: Option<int>): (r: Reply<ArticleList>)
    reads db
    ensures r.httpStatus == 200 && r.body.data.Some?
    ensures var d := r.body.data.value;
      && d.page == PageNumber(page) && d.pageSize == PageSize
      && d.total == |Published(db.articles)| && |d.articles| <= PageSize
      && d.articles == Summaries(Window(Ranked(db), (PageNumber(page) - 1) * PageSize))
  {
    var p := PageNumber(page);
    var rows := Window(Ranked(db), (p - 1) * PageSize);
    Ok(Some(ArticleList(Summaries(rows), |Published(db.articles)|, p, PageSize)), None)
  }

  /** Everything listed is a published article of the table. */
  lemma ListedArticlesArePublished(db: Store, page: Option<int>, k: nat)
    requires k < |GetArticleList(db, page).body.data.value.articles|
    ensures var listed := GetArticleList(db, page).body.data.value.articles[k];
      exists a :: a in db.articles && a.status == 1 && listed == ArticleSummary(a.id, a.title, a.content)
  {
    var w := Window(Ranked(db), (PageNumber(page) - 1) * PageSize);
    assert GetArticleList(db, page).body.data.value.articles == Summaries(w);
    var a := w[k];
    assert a in multiset(Ranked(db));
    assert a in multiset(Published(db.articles));
  }

  /** The pages 1, 2, ..., n together show the first 10n ranked articles, in order, each once. */
  lemma {:induction false} PagesTile(s: seq<Article>, n: nat)
    ensures Pages(s, n) == s[..if n * PageSize < |s| then n * PageSize else |s|]
    decreases n
  {
    if n > 0 {
      PagesTile(s, n - 1);
      var o := (n - 1) * PageSize;
      assert n * PageSize == o + PageSize;
      var lo := if o < |s| then o else |s|;
      var hi := if o + PageSize < |s| then o + PageSize else |s|;
      var w := Window(s, o);
      assert w == s[lo..hi];
      assert s[..lo] + s[lo..hi] == s[..hi];
    }
  }

  /** The concatenation of pages 1 to n. */
  function Pages<T>(s: seq<T>, n: nat): seq<T>
    decreases n
  {
    if n == 0 then [] else Pages(s, n - 1) + Window(s, (n - 1) * PageSize)
  }

  /** A negative page number shows the first page (the offset is clamped) but is echoed back unchanged. */
  lemma NegativePageShowsFirstPage(db: Store, p: int)
    requires p < 0
    ensures GetArticleList(db, Some(p)).body.data.value.articles == GetArticleList(db, None).body.data.value.articles
    ensures GetArticleList(db, Some(p)).body.data.value.page == p
  {
  }

  // ---- reportBug ----

  datatype Receipt = Receipt(message: string)

  /** The seven fields `reportBug` requires, all truthy. */
  predicate Complete(
    appVersion: Option<string>, osVersion: Option<string>, deviceModel: Option<string>, cursorVersion: Option<string>,
    bugDescription: Option<string>, occurrenceTime: Option<string>, severity: Option<string>)
  {
    Present(appVersion) && Present(osVersion) && Present(deviceModel) && Present(cursorVersion)
    && Present(bugDescription) && Present(occurrenceTime) && Present(severity)
  }

  /**
   * `reportBug`: store a new open report (status 0) holding the submitted
   * fields, with no screenshots when none were sent.
   */
  method ReportBug(
    db: Store, apiKey: Option<string>, appVersion: Option<string>, osVersion: Option<string>,
    deviceModel: Option<string>, cursorVersion: Option<string>, bugDescription: Option<string>,
    occurrenceTime: Option<string>, screenshotUrls: Option<seq<string>>, severity: Option<string>)
    returns (r: Reply<Receipt>)
    requires db.Valid()
    modifies db`bugReports
    ensures db.Valid()
    ensures !Complete(appVersion, osVersion, deviceModel, cursorVersion, bugDescription, occurrenceTime, severity) ==>
      r == Fail("Missing required fields", 400) && db.bugReports == old(db.bugReports)
    ensures Complete(appVersion, osVersion, deviceModel, cursorVersion, bugDescription, occurrenceTime, severity) ==>
      && r == Ok(Some(Receipt("Bug report submitted successfully")), None)
      && |db.bugReports| == |old(db.bugReports)| + 1 && db.bugReports[..|old(db.bugReports)|] == old(db.bugReports)
      && var b := db.bugReports[|old(db.bugReports)|];
         && b.status == 0 && b.id == NextBugReportId(old(db.bugReports))
         && b.description == BugDescription(apiKey, appVersion.value, osVersion.value, deviceModel.value,
              cursorVersion.value, bugDescription.value, occurrenceTime.value, screenshotUrls.GetOr([]), severity.value)
  {
    if !Complete(appVersion, osVersion, deviceModel, cursorVersion, bugDescription, occurrenceTime, severity) {
      return Fail("Missing required fields", 400);
    }
    var description := BugDescription(apiKey, appVersion.value, osVersion.value, deviceModel.value,
      cursorVersion.value, bugDescription.value, occurrenceTime.value, screenshotUrls.GetOr([]), severity.value);
    db.bugReports := db.bugReports + [BugReport(NextBugReportId(db.bugReports), description, 0)];
    r := Ok(Some(Receipt("Bug report submitted successfully")), None);
  }

  // ---- getVersion ----

  /** The version body, sent bare (`res.json`) rather than in the response envelope. */
  datatype VersionInfo = VersionInfo(version: string)

  const Version: string := "1.0.0"

  function GetVersion(): (v: VersionInfo)
    ensures v.version == Version
  {
    VersionInfo(Version)
  }
}
