/** The weekly-report job: find the year's root page, the latest report
    under it, roll its title forward one week, and copy it under the root
    page of the next Monday's year with the new title. */
module ConfluenceService {
  import opened Results
  import opened Calendar
  import opened Text
  import opened WeeklyTitle
  import opened Wiki

  // ----- root pages -----

  /** The title of a year's root page, `團隊週會 {year}`. */
  function RootTitle(year: nat): string {
    "團隊週會 " + NatToString(year)
  }

  /** The body a new root page is created with, `{year} weekly reports.`. */
  function RootBody(year: nat): string {
    NatToString(year) + " weekly reports."
  }

  /** Distinct years have distinct root titles, so each year's reports stay
      under their own root page. */
  lemma RootTitleInjective(a: nat, b: nat)
    requires RootTitle(a) == RootTitle(b)
    ensures a == b
  {
    var prefix := "團隊週會 ";
    assert RootTitle(a)[|prefix|..] == NatToString(a);
    assert RootTitle(b)[|prefix|..] == NatToString(b);
  }

  /** The root page `_find_or_create_root_page` would create in this space. */
  function NewRoot(pages: seq<Page>, year: nat): Page {
    Page(|pages|, RootTitle(year), None, RootBody(year), 1)
  }

  /** The space once the year's root page exists: unchanged when the title
      search finds it, one new page at the space root otherwise. */
  function WithRoot(pages: seq<Page>, year: nat): seq<Page> {
    if PageByTitle(pages, RootTitle(year)).Some? then pages else pages + [NewRoot(pages, year)]
  }

  /** After the step the title search finds the root page, and a well-formed
      space stays well-formed. */
  lemma WithRootFindsRoot(pages: seq<Page>, year: nat)
    requires WellFormed(pages)
    ensures WellFormed(WithRoot(pages, year))
    ensures PageByTitle(WithRoot(pages, year), RootTitle(year)).Some?
    ensures pages <= WithRoot(pages, year)
  {
    var root := NewRoot(pages, year);
    if PageByTitle(pages, RootTitle(year)).None? {
      assert root in pages + [root];
    }
  }

  /** `_find_or_create_root_page`: the first page titled with the year's root
      title, reported as found, or a new page at the space root, reported as
      created. */
  method FindOrCreateRootPage(wiki: Wiki, year: nat) returns (page: Page, found: bool)
    requires wiki.Valid()
    modifies wiki
    ensures wiki.Valid()
    ensures found <==> PageByTitle(old(wiki.pages), RootTitle(year)).Some?
    ensures found ==> page == PageByTitle(old(wiki.pages), RootTitle(year)).value
    ensures !found ==> page == NewRoot(old(wiki.pages), year)
    ensures wiki.pages == WithRoot(old(wiki.pages), year)
    ensures PageByTitle(wiki.pages, RootTitle(year)) == Some(page)
    ensures page.id < |wiki.pages| && wiki.pages[page.id] == page
  {
    var title := RootTitle(year);
    var existing := PageByTitle(wiki.pages, title);
    if existing.Some? {
      PageAtId(wiki.pages, existing.value);
      return existing.value, true;
    }
    page := wiki.CreatePage(None, title, RootBody(year));
    assert page in wiki.pages;
    found := false;
  }

  // ----- the latest report -----

  /** `datetime.date.min`, where the search for the latest date starts. */
  const MinDate: Date := Date(1, 1, 1)

  /** The loop of `_find_latest_weekly_report` run over `pages`: the report
      kept so far and its end date, or the error an impossible title date
      raises. A page replaces the one kept only with a strictly later date. */
  function Scan(pages: seq<Page>): Result<(Option<Page>, Date), TitleError>
    decreases |pages|
  {
    if pages == [] then Ok((None, MinDate))
    else
      match Scan(pages[..|pages| - 1])
      case Err(e) => Err(e)
      case Ok((best, latest)) =>
        var page := pages[|pages| - 1];
        match DateFromTitle(page.title)
        case Unparsed => Ok((best, latest))
        case Impossible => Err(ImpossibleDate)
        case Parsed(end) => if Before(latest, end) then Ok((Some(page), end)) else Ok((best, latest))
  }

  /** What `_find_latest_weekly_report` returns for the child pages. */
  function LatestReport(children: seq<Page>): Result<Option<Page>, TitleError> {
    if children == [] then Ok(None)
    else
      match Scan(children)
      case Err(e) => Err(e)
      case Ok((best, _)) => Ok(best)
  }

  /** The page's title names no end date later than `d`. */
  predicate NoLaterThan(page: Page, d: Date) {
    DateFromTitle(page.title).Parsed? ==> !Before(d, DateFromTitle(page.title).end)
  }

  /** The page's title names no end date, or one strictly earlier than `d`. */
  predicate EarlierThan(page: Page, d: Date) {
    DateFromTitle(page.title).Parsed? ==> Before(DateFromTitle(page.title).end, d)
  }

  /** Page `k` is the report the loop keeps: its title names `latest`, a day
      after `date.min`; no page names a later day; and every page before it
      names an earlier one, so ties keep the first. */
  predicate FirstLatest(pages: seq<Page>, k: int, latest: Date) {
    0 <= k < |pages|
    && DateFromTitle(pages[k].title) == Parsed(latest)
    && Before(MinDate, latest)
    && (forall j :: 0 <= j < |pages| ==> NoLaterThan(pages[j], latest))
    && (forall j :: 0 <= j < k ==> EarlierThan(pages[j], latest))
  }

  /** The scan fails exactly when some title names an impossible day. */
  lemma {:induction false} ScanFails(pages: seq<Page>)
    ensures Scan(pages).Err? <==> exists j :: 0 <= j < |pages| && DateFromTitle(pages[j].title).Impossible?
    ensures Scan(pages).Err? ==> Scan(pages) == Err(ImpossibleDate)
    decreases |pages|
  {
    if pages != [] {
      var init := pages[..|pages| - 1];
      ScanFails(init);
      assert forall j :: 0 <= j < |init| ==> init[j] == pages[j];
    }
  }

  /** What the scan keeps: with no report, the starting `date.min` and no
      title naming a later day; with a report, the first page naming the
      greatest end date. */
  lemma {:induction false} ScanKeepsLatest(pages: seq<Page>)
    requires Scan(pages).Ok?
    ensures var (best, latest) := Scan(pages).value;
      (best.None? ==> latest == MinDate && forall j :: 0 <= j < |pages| ==> NoLaterThan(pages[j], MinDate))
      && (best.Some? ==> exists k :: FirstLatest(pages, k, latest) && best.value == pages[k])
    decreases |pages|
  {
    if pages != [] {
      var n := |pages| - 1;
      var init, page := pages[..n], pages[n];
      assert pages == init + [page];
      ScanKeepsLatest(init);
      var (best, latest) := Scan(init).value;
      var d := DateFromTitle(page.title);
      if d.Parsed? && Before(latest, d.end) {
        if best.Some? {
          var k :| FirstLatest(init, k, latest) && best.value == init[k];
        }
        NewLatest(init, page, latest, d.end);
      } else if best.Some? {
        var k :| FirstLatest(init, k, latest) && best.value == init[k];
        KeepLatest(init, page, k, latest);
      } else {
        assert forall j :: 0 <= j < n + 1 ==> NoLaterThan(pages[j], MinDate) by {
          assert forall j :: 0 <= j < n ==> pages[j] == init[j];
        }
      }
    }
  }

  /** `Before` is transitive: year, month and day compared in turn. */
  lemma BeforeTransitive(a: Date, b: Date, c: Date)
    requires Before(a, b) && Before(b, c)
    ensures Before(a, c)
  {
  }

  /** A page with a strictly later date than every earlier title becomes the
      one kept. */
  lemma NewLatest(init: seq<Page>, page: Page, latest: Date, end: Date)
    requires forall j :: 0 <= j < |init| ==> NoLaterThan(init[j], latest)
    requires latest == MinDate || Before(MinDate, latest)
    requires DateFromTitle(page.title) == Parsed(end) && Before(latest, end)
    ensures FirstLatest(init + [page], |init|, end)
  {
    var pages := init + [page];
    if latest != MinDate {
      BeforeTransitive(MinDate, latest, end);
    }
    forall j | 0 <= j < |init|
      ensures EarlierThan(pages[j], end) && NoLaterThan(pages[j], end)
    {
      assert pages[j] == init[j];
      var dj := DateFromTitle(init[j].title);
      if dj.Parsed? {
        if dj.end != latest {
          BeforeTransitive(dj.end, latest, end);
        }
      }
    }
  }

  /** A page naming no later date leaves the kept report in place. */
  lemma KeepLatest(init: seq<Page>, page: Page, k: int, latest: Date)
    requires FirstLatest(init, k, latest)
    requires NoLaterThan(page, latest)
    ensures FirstLatest(init + [page], k, latest)
  {
    var pages := init + [page];
    assert forall j :: 0 <= j < |init| ==> pages[j] == init[j];
  }

  /** Once the scan has failed on a prefix it fails on the whole. */
  lemma ScanFailsOnWhole(pages: seq<Page>, n: nat)
    requires n <= |pages| && Scan(pages[..n]).Err?
    ensures Scan(pages) == Err(ImpossibleDate)
  {
    ScanFails(pages[..n]);
    var j :| 0 <= j < n && DateFromTitle(pages[..n][j].title).Impossible?;
    assert pages[j] == pages[..n][j];
    ScanFails(pages);
  }

  /** `_find_latest_weekly_report`: no report when there are no children or
      no title names a day after `date.min`, otherwise the first child whose
      title names the greatest end date; an impossible title date is an error. */
  lemma LatestReportIsLatest(children: seq<Page>)
    ensures LatestReport(children).Err? <==>
              exists j :: 0 <= j < |children| && DateFromTitle(children[j].title).Impossible?
    ensures LatestReport(children) == Ok(None) <==>
              (forall j :: 0 <= j < |children| ==> !DateFromTitle(children[j].title).Impossible?)
              && forall j :: 0 <= j < |children| ==> NoLaterThan(children[j], MinDate)
    ensures LatestReport(children).Ok? && LatestReport(children).value.Some? ==>
              exists k, latest :: FirstLatest(children, k, latest)
                                  && LatestReport(children).value.value == children[k]
  {
    ScanFails(children);
    if children != [] && Scan(children).Ok? {
      ScanKeepsLatest(children);
      var (best, latest) := Scan(children).value;
      if best.Some? {
        var k :| FirstLatest(children, k, latest) && best.value == children[k];
        assert !NoLaterThan(children[k], MinDate);
      }
    }
  }

  /** `_find_latest_weekly_report` on the model: the child pages scanned in
      order, keeping the page with the strictly greatest end date so far. */
  method FindLatestWeeklyReport(wiki: Wiki, parentId: nat) returns (r: Result<Option<Page>, TitleError>)
    ensures r == LatestReport(Children(wiki.pages, parentId))
  {
    var children := Children(wiki.pages, parentId);
    if |children| == 0 {
      return Ok(None);
    }
    var latestReport: Option<Page> := None;
    var latestDate := MinDate;
    var i := 0;
    while i < |children|
      invariant 0 <= i <= |children|
      invariant Scan(children[..i]) == Ok((latestReport, latestDate))
    {
      var page := children[i];
      assert children[..i + 1][..i] == children[..i];
      var endDate := DateFromTitle(page.title);
      if endDate.Impossible? {
        ScanFailsOnWhole(children, i + 1);
        return Err(ImpossibleDate);
      }
      if endDate.Parsed? && Before(latestDate, endDate.end) {
        latestDate := endDate.end;
        latestReport := Some(page);
      }
      i := i + 1;
    }
    assert children[..i] == children;
    return Ok(latestReport);
  }

  // ----- the whole job -----

  /** Why `create_next_weekly_report` gives up: no report under the year's
      root page, or the latest report's title cannot be rolled forward. */
  datatype ReportError = NoReports | BadTitle(reason: TitleError)

  /** What the job works out from the space before it copies anything: the
      latest report under the root page of `year`, the rolled-forward title
      and the next Monday. A root page created on the way has no children,
      so that case has no reports. */
  function ReportPlan(pages: seq<Page>, year: nat): Result<(Page, string, Date), ReportError> {
    match PageByTitle(pages, RootTitle(year))
    case None => Err(NoReports)
    case Some(root) =>
      match LatestReport(Children(pages, root.id))
      case Err(e) => Err(BadTitle(e))
      case Ok(None) => Err(NoReports)
      case Ok(Some(source)) =>
        match NextWeekTitle(source.title)
        case Err(e) => Err(BadTitle(e))
        case Ok((title, monday)) => Ok((source, title, monday))
  }

  /** The space `after` is `before` with the new report `page` added last,
      possibly after a new root page: the report has the rolled-forward
      title, the source's body, version 2 (one more than the copy's 1), and
      its parent is the page the title search finds for the root of the
      next Monday's year. */
  predicate Published(before: seq<Page>, after: seq<Page>, page: Page, source: Page, title: string, monday: Date)
    requires IsRepresentable(monday)
  {
    |before| < |after| && before <= after
    && page == after[|after| - 1] && page.id == |after| - 1
    && page.title == title && page.body == source.body && page.version == 2
    && page.parent.Some? && page.parent.value < |after|
    && PageByTitle(after, RootTitle(monday.year)) == Some(after[page.parent.value])
  }

  /** The month a weekly report's next Monday falls in has a year that
      `datetime.date` can hold. */
  lemma PlanMondayRepresentable(pages: seq<Page>, year: nat)
    requires ReportPlan(pages, year).Ok?
    ensures IsRepresentable(ReportPlan(pages, year).value.2)
    ensures ReportPlan(pages, year).value.0 in pages
  {
    var root := PageByTitle(pages, RootTitle(year)).value;
    var children := Children(pages, root.id);
    var source := ReportPlan(pages, year).value.0;
    LatestReportIsLatest(children);
    var k, latest :| FirstLatest(children, k, latest) && source == children[k];
    assert children[k] in children;
    NextWeekTitleWeek(source.title);
  }

  /** The first half of `create_next_weekly_report`: find or create the
      root page of `year`, find the latest report under it and roll its title
      forward. */
  method PlanNextReport(wiki: Wiki, year: nat) returns (r: Result<(Page, string, Date), ReportError>)
    requires wiki.Valid()
    modifies wiki
    ensures wiki.Valid()
    ensures wiki.pages == WithRoot(old(wiki.pages), year)
    ensures r == ReportPlan(old(wiki.pages), year)
  {
    ghost var before := wiki.pages;
    var rootPage, rootFound := FindOrCreateRootPage(wiki, year);
    if !rootFound {
      NoChildrenYet(before, NewRoot(before, year));
    }
    var latest := FindLatestWeeklyReport(wiki, rootPage.id);
    if latest.Err? {
      return Err(BadTitle(latest.error));
    }
    if latest.value.None? {
      return Err(NoReports);
    }
    var source := latest.value.value;
    var next := GenerateNextWeekTitle(source.title);
    if next.Err? {
      return Err(BadTitle(next.error));
    }
    return Ok((source, next.value.0, next.value.1));
  }

  /** The second half of `create_next_weekly_report`: copy the report under
      the root page of the next Monday's year, created if need be, and
      retitle the copy with its version plus one. */
  method PublishReport(wiki: Wiki, source: Page, title: string, monday: Date, year: nat) returns (page: Page)
    requires wiki.Valid() && source in wiki.pages && IsRepresentable(monday)
    requires PageByTitle(wiki.pages, RootTitle(year)).Some?
    modifies wiki
    ensures wiki.Valid()
    ensures Published(old(wiki.pages), wiki.pages, page, source, title, monday)
    ensures wiki.pages == WithRoot(old(wiki.pages), monday.year) + [page]
  {
    PageAtId(wiki.pages, source);
    var rootPage := PageByTitle(wiki.pages, RootTitle(year)).value;
    PageAtId(wiki.pages, rootPage);
    var destinationParentId := rootPage.id;
    if monday.year != year {
      var newRootPage, _ := FindOrCreateRootPage(wiki, monday.year);
      destinationParentId := newRootPage.id;
    }
    ghost var withRoots := wiki.pages;
    assert PageByTitle(withRoots, RootTitle(monday.year)) == Some(withRoots[destinationParentId]);

    var copiedPage := wiki.CopyPage(source.id, destinationParentId);
    var updatedPage := wiki.UpdatePage(copiedPage.id, title, copiedPage.version + 1);
    assert updatedPage.Ok?;
    page := updatedPage.value;
    assert wiki.pages == withRoots + [page];
    PageByTitleAppend(withRoots, [page], RootTitle(monday.year));
  }

  /** `create_next_weekly_report` on the model, with the date `today` given:
      the report is copied under the root page of the next Monday's year,
      which is today's root page unless the year changes, and retitled with
      the copy's version plus one. */
  method CreateNextWeeklyReport(wiki: Wiki, today: Date) returns (r: Result<Page, ReportError>)
    requires wiki.Valid() && IsRepresentable(today)
    modifies wiki
    ensures wiki.Valid()
    ensures ReportPlan(old(wiki.pages), today.year).Err? ==>
              r == Err(ReportPlan(old(wiki.pages), today.year).error)
              && wiki.pages == WithRoot(old(wiki.pages), today.year)
    ensures ReportPlan(old(wiki.pages), today.year).Ok? ==>
              var (source, title, monday) := ReportPlan(old(wiki.pages), today.year).value;
              IsRepresentable(monday) && r.Ok? && Published(old(wiki.pages), wiki.pages, r.value, source, title, monday)
              && wiki.pages == WithRoot(WithRoot(old(wiki.pages), today.year), monday.year) + [r.value]
  {
    ghost var before := wiki.pages;
    var plan := PlanNextReport(wiki, today.year);
    if plan.Err? {
      return Err(plan.error);
    }
    var (source, title, monday) := plan.value;
    PlanMondayRepresentable(before, today.year);
    WithRootFindsRoot(before, today.year);
    ghost var mid := wiki.pages;
    var page := PublishReport(wiki, source, title, monday, today.year);
    assert before <= mid <= wiki.pages;
    return Ok(page);
  }
}
