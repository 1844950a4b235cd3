/** The news page: the cache key a request is stored under, the query its
    filters build, and the cached page it returns. */
module NewsController {
  import opened Common
  import opened Query
  import Cache

  const NEWS_PER_PAGE: nat := 9

  /** The named date ranges that take precedence over explicit dates. */
  const NamedRanges: set<string> := {"today", "yesterday", "last7days", "last30days"}

  /** A row of the aggregated feed table; `pubDate` is a timestamp. */
  datatype NewsItem = NewsItem(id: nat, title: string, description: string, source: string, pubDate: int)

  /** The query parameters; None is a parameter the request does not carry. */
  datatype NewsRequest = NewsRequest(
    page: Option<int>,
    source: Option<string>,
    sort: Option<string>,
    dateRange: Option<string>,
    dateFrom: Option<string>,
    dateTo: Option<string>,
    search: Option<string>)

  /** `$request->query(name, default)`. */
  function Param(p: Option<string>, default: string): string {
    if p.Some? then p.value else default
  }

  function Page(r: NewsRequest): int { if r.page.Some? then r.page.value else 1 }
  function Source(r: NewsRequest): string { Param(r.source, "") }
  function Sort(r: NewsRequest): string { Param(r.sort, "newest") }
  function DateRange(r: NewsRequest): string { Param(r.dateRange, "all") }
  function DateFrom(r: NewsRequest): string { Param(r.dateFrom, "") }
  function DateTo(r: NewsRequest): string { Param(r.dateTo, "") }
  function Search(r: NewsRequest): string { Param(r.search, "") }

  /** `$x ?: $fallback` on a string. */
  function OrElse(s: string, fallback: string): string {
    if Empty(s) then fallback else s
  }

  /** The key a page is cached under. */
  function CacheKey(r: NewsRequest): string {
    "news_page_" + IntToString(Page(r)) + "_source_" + OrElse(Source(r), "all")
      + "_sort_" + Sort(r) + "_date_" + DateRange(r) + "_search_" + OrElse(Search(r), "none")
  }

  /** The key of a request with no parameters. */
  lemma DefaultKey()
    ensures var r := NewsRequest(None, None, None, None, None, None, None);
      && Page(r) == 1 && Sort(r) == "newest" && DateRange(r) == "all"
      && CacheKey(r) == "news_page_" + "1" + "_source_" + "all" + "_sort_" + "newest" + "_date_" + "all" + "_search_" + "none"
  {
    var r := NewsRequest(None, None, None, None, None, None, None);
    assert IntToString(1) == "1" by {
      assert DigitChar(1) == '1';
    }
    assert OrElse(Source(r), "all") == "all" && OrElse(Search(r), "none") == "none";
  }

  /** The key does not mention the explicit dates: two requests that differ
      only there share one cached page. */
  lemma CacheKeyIgnoresDates(r: NewsRequest, from: Option<string>, to: Option<string>)
    ensures CacheKey(r.(dateFrom := from, dateTo := to)) == CacheKey(r)
  {
  }

  /** An absent source, an empty one and the literal source "all" share a
      key, although only the last filters by source. */
  lemma CacheKeySourceAll(r: NewsRequest)
    ensures CacheKey(r.(source := None)) == CacheKey(r.(source := Some(""))) == CacheKey(r.(source := Some("all")))
    ensures !BuildsSourceFilter(r.(source := None)) && BuildsSourceFilter(r.(source := Some("all")))
  {
  }

  /** Whether the query filters by source. */
  predicate BuildsSourceFilter(r: NewsRequest) { !Empty(Source(r)) }

  /** The date condition the query carries. */
  datatype DateFilter = AnyDate | Named(range: string) | Between(from: string, to: string)

  /** The ordering the query carries. */
  datatype Order = Unordered | NewestFirst | OldestFirst

  /** The query the closure builds. */
  datatype NewsQuery = NewsQuery(source: Option<string>, search: Option<string>, date: DateFilter, order: Order)

  /** The query a request describes. */
  function QueryFor(r: NewsRequest): NewsQuery {
    NewsQuery(
      if Empty(Source(r)) then None else Some(Source(r)),
      if Empty(Search(r)) then None else Some(Search(r)),
      if DateRange(r) in NamedRanges then Named(DateRange(r))
      else if !Empty(DateFrom(r)) && !Empty(DateTo(r)) then Between(DateFrom(r), DateTo(r))
      else AnyDate,
      if Sort(r) == "newest" then NewestFirst else if Sort(r) == "oldest" then OldestFirst else Unordered)
  }

  /** Filters apply only when non-empty; a named range beats explicit dates,
      which apply only in pairs; only `newest` and `oldest` order the rows. */
  lemma QueryPrecedence(r: NewsRequest)
    ensures var q := QueryFor(r);
      && (q.source.Some? <==> !Empty(Source(r)))
      && (q.search.Some? <==> !Empty(Search(r)))
      && (q.date.Named? <==> DateRange(r) in NamedRanges)
      && (q.date.Between? <==> DateRange(r) !in NamedRanges && !Empty(DateFrom(r)) && !Empty(DateTo(r)))
      && (DateRange(r) in NamedRanges ==> q.date == QueryFor(r.(dateFrom := Some("2024-01-01"), dateTo := Some("2024-12-31"))).date)
      && (q.order == Unordered <==> Sort(r) != "newest" && Sort(r) != "oldest")
      && (r.sort.None? ==> q.order == NewestFirst)
  {
  }

  /** The closure's query building, condition by condition. */
  method BuildQuery(r: NewsRequest) returns (q: NewsQuery)
    ensures q == QueryFor(r)
  {
    q := NewsQuery(None, None, AnyDate, Unordered);
    var source := Source(r);
    if !Empty(source) {
      q := q.(source := Some(source));
    }
    var search := Search(r);
    if !Empty(search) {
      q := q.(search := Some(search));
    }
    var dateRange := DateRange(r);
    if dateRange == "today" {
      q := q.(date := Named("today"));
    } else if dateRange == "yesterday" {
      q := q.(date := Named("yesterday"));
    } else if dateRange == "last7days" {
      q := q.(date := Named("last7days"));
    } else if dateRange == "last30days" {
      q := q.(date := Named("last30days"));
    } else if !Empty(DateFrom(r)) && !Empty(DateTo(r)) {
      q := q.(date := Between(DateFrom(r), DateTo(r)));
    }
    var sort := Sort(r);
    if sort == "newest" {
      q := q.(order := NewestFirst);
    } else if sort == "oldest" {
      q := q.(order := OldestFirst);
    }
  }

  /** A row the query keeps. `inWindow` stands for the date bounds, whose
      calendar arithmetic is not modelled. */
  predicate Selected(n: NewsItem, q: NewsQuery, inWindow: (DateFilter, NewsItem) -> bool) {
    && (q.source.Some? ==> n.source == q.source.value)
    && (q.search.Some? ==> Like(n.title, q.search.value) || Like(n.description, q.search.value))
    && (q.date.AnyDate? || inWindow(q.date, n))
  }

  /** The kept rows in table order. */
  function Filter(items: seq<NewsItem>, q: NewsQuery, inWindow: (DateFilter, NewsItem) -> bool): (r: seq<NewsItem>)
    ensures forall n :: n in r <==> n in items && Selected(n, q, inWindow)
    ensures multiset(r) <= multiset(items)
  {
    Where(items, (n: NewsItem) => Selected(n, q, inWindow))
  }

  function PubDate(n: NewsItem): int { n.pubDate }

  /** The kept rows in the query's order. */
  function Ordered(rows: seq<NewsItem>, order: Order): (r: seq<NewsItem>)
    ensures multiset(r) == multiset(rows)
    ensures order == NewestFirst ==> SortedDesc(r, PubDate)
    ensures order == OldestFirst ==> SortedAsc(r, PubDate)
    ensures order == Unordered ==> r == rows
  {
    match order
    case NewestFirst => SortDesc(rows, PubDate)
    case OldestFirst => SortAsc(rows, PubDate)
    case Unordered => rows
  }

  /** The page the closure returns: nine rows of the ordered result, the
      page number taken from the request as the paginator reads it. */
  function Listing(items: seq<NewsItem>, q: NewsQuery, page: int, inWindow: (DateFilter, NewsItem) -> bool): seq<NewsItem> {
    Paginate(Ordered(Filter(items, q, inWindow), q.order), page, NEWS_PER_PAGE)
  }

  /** A listed row passes every filter the request set, and a page has at
      most nine rows. */
  lemma {:induction false} ListingFacts(items: seq<NewsItem>, r: NewsRequest, inWindow: (DateFilter, NewsItem) -> bool)
    ensures |Listing(items, QueryFor(r), Page(r), inWindow)| <= NEWS_PER_PAGE
    ensures forall n | n in Listing(items, QueryFor(r), Page(r), inWindow) ::
      && n in items
      && (!Empty(Source(r)) ==> n.source == Source(r))
      && (!Empty(Search(r)) ==> Like(n.title, Search(r)) || Like(n.description, Search(r)))
  {
    var q := QueryFor(r);
    var filtered := Filter(items, q, inWindow);
    var ordered := Ordered(filtered, q.order);
    forall n | n in ordered
      ensures n in filtered
    {
      assert n in multiset(ordered);
    }
  }

  /** `index`: the page is read through the cache under the request's key. */
  method Index(cache: Cache.Store<seq<NewsItem>>, items: seq<NewsItem>, r: NewsRequest,
               inWindow: (DateFilter, NewsItem) -> bool) returns (page: seq<NewsItem>)
    modifies cache
    ensures Cache.Remembered(page, cache.entries) ==
      Cache.RememberIn(old(cache.entries), CacheKey(r), Listing(items, QueryFor(r), Page(r), inWindow))
  {
    var key := CacheKey(r);
    var q := BuildQuery(r);
    var computed := Listing(items, q, Page(r), inWindow);
    page := cache.Remember(key, computed);
  }

  /** Once a page is cached, a request differing only in its explicit dates
      is answered with that page, whatever rows its own dates would select. */
  lemma {:induction false} DatesServedFromCache(entries: map<string, seq<NewsItem>>, r: NewsRequest, first: seq<NewsItem>,
                                                from: Option<string>, to: Option<string>, other: seq<NewsItem>)
    ensures var r1 := Cache.RememberIn(entries, CacheKey(r), first);
      Cache.RememberIn(r1.entries, CacheKey(r.(dateFrom := from, dateTo := to)), other).value == r1.value
  {
    CacheKeyIgnoresDates(r, from, to);
    Cache.RememberIsStable(entries, CacheKey(r), first, other);
  }
}
