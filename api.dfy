/**
 * The read API of `app.py`: the paginated article list with its next and
 * previous links, and the per-source article count over a date range. Request
 * arguments arrive parsed: page numbers as integers, dates as day numbers,
 * absent arguments as None.
 */
module Api {
  import opened Base
  import opened RedisStore
  import opened QueryString

  function Min(a: int, b: int): int
  {
    if a <= b then a else b
  }

  // ---------------------------------------------------------------------------
  // page arithmetic

  /** `int(count / page_size) + int(count % page_size != 0)`: the number of pages, rounded up. */
  function MaxPageNo(count: nat, pageSize: int): (m: nat)
    requires pageSize >= 1
    ensures (m - 1) * pageSize < count <= m * pageSize
  {
    var q, r := count / pageSize, count % pageSize;
    assert count == q * pageSize + r;
    assert (q - 1) * pageSize == q * pageSize - pageSize;
    assert (q + 1) * pageSize == q * pageSize + pageSize;
    q + (if r != 0 then 1 else 0)
  }

  /** Where page `pageNo` starts: `(page_no - 1) * page_size`. */
  function Offset(pageNo: int, pageSize: int): (start: nat)
    requires pageNo >= 1 && pageSize >= 1
    ensures start + pageSize == pageNo * pageSize
  {
    assert (pageNo - 1) * pageSize == pageNo * pageSize - pageSize;
    (pageNo - 1) * pageSize
  }

  /** Page `pageNo` starts inside the index exactly when it is one of the first `MaxPageNo` pages. */
  lemma PageValidIffWithinMax(pageNo: int, count: nat, pageSize: int)
    requires pageNo >= 1 && pageSize >= 1
    ensures Offset(pageNo, pageSize) < count <==> pageNo <= MaxPageNo(count, pageSize)
  {
  }

  // ---------------------------------------------------------------------------
  // next and previous links

  /** `str(n)` of a non-negative integer. */
  function Decimal(n: nat): (s: string)
    ensures |s| >= 1 && forall i :: 0 <= i < |s| ==> '0' <= s[i] <= '9'
  {
    if n < 10 then [Digit(n)] else Decimal(n / 10) + [Digit(n % 10)]
  }

  function Digit(d: nat): char
    requires d < 10
  {
    ('0' as int + d) as char
  }

  /** `int(s)` of a string of decimal digits, as `articles` reads `page_no`. */
  function ParseDecimal(s: string): int
  {
    if s == [] then 0 else ParseDecimal(s[..|s| - 1]) * 10 + (s[|s| - 1] as int - '0' as int)
  }

  /** The page number a link carries is read back as that number. */
  lemma {:induction false} DecimalRoundTrip(n: nat)
    ensures ParseDecimal(Decimal(n)) == n
  {
    if n < 10 {
      assert Decimal(n)[..0] == [];
    } else {
      DecimalRoundTrip(n / 10);
      var s := Decimal(n);
      assert s[..|s| - 1] == Decimal(n / 10);
    }
  }

  /** Different page numbers give different strings, so `next` and `previous` ask for different pages. */
  lemma DecimalInjective(m: nat, n: nat)
    requires Decimal(m) == Decimal(n)
    ensures m == n
  {
    DecimalRoundTrip(m);
    DecimalRoundTrip(n);
  }

  const PageParam: string := "page_no"

  /** `_get_next_prev_url`: the request URL with `page_no` moved one page on and one page back. */
  function NextPrevUrl(url: Url, pageNo: int, count: nat, pageSize: int): (Option<Url>, Option<Url>)
    requires pageNo >= 1 && pageSize >= 1
    requires DistinctNames(url.query)
  {
    var maxPageNo := MaxPageNo(count, pageSize);
    (if maxPageNo > pageNo then Some(ReplaceQueryParam(url, PageParam, Decimal(pageNo + 1))) else None,
     if pageNo > 1 then Some(ReplaceQueryParam(url, PageParam, Decimal(pageNo - 1))) else None)
  }

  /**
   * `next` is present exactly when the following page would not be an invalid
   * page, and then asks for page `pageNo + 1`; `previous` is present exactly
   * from page 2 on, asks for page `pageNo - 1`, and points at a valid page
   * whenever the current one is.
   */
  lemma LinksMatchNeighbourPages(url: Url, pageNo: int, count: nat, pageSize: int)
    requires pageNo >= 1 && pageSize >= 1
    requires DistinctNames(url.query)
    ensures var (next, previous) := NextPrevUrl(url, pageNo, count, pageSize);
      && (next.Some? <==> Offset(pageNo + 1, pageSize) < count)
      && (next.Some? ==> (PageParam, [Decimal(pageNo + 1)]) in next.value.query)
      && (previous.Some? <==> pageNo > 1)
      && (previous.Some? ==> (PageParam, [Decimal(pageNo - 1)]) in previous.value.query)
      && (previous.Some? && Offset(pageNo, pageSize) < count ==> Offset(pageNo - 1, pageSize) < count)
  {
    PageValidIffWithinMax(pageNo + 1, count, pageSize);
  }

  // ---------------------------------------------------------------------------
  // the article list

  /** ZRANGE with non-negative indices: both ends inclusive, the stop clipped to the last entry. */
  function ZRange(index: seq<Key>, start: nat, stop: int): seq<Key>
  {
    if start >= |index| || stop < start then []
    else index[start .. if stop < |index| then stop + 1 else |index|]
  }

  /** The keys `articles` reads for a page: `zrange(start, start + page_size - 1)`. */
  function PageKeys(index: seq<Key>, pageNo: int, pageSize: int): seq<Key>
    requires pageNo >= 1 && pageSize >= 1
  {
    var start := Offset(pageNo, pageSize);
    ZRange(index, start, start + pageSize - 1)
  }

  /**
   * A valid page holds the index entries from its offset on, and exactly
   * `min(page_size, count - offset)` of them: a page starting at the last entry
   * holds one record.
   */
  lemma PageWindow(index: seq<Key>, pageNo: int, pageSize: int)
    requires pageNo >= 1 && pageSize >= 1
    requires Offset(pageNo, pageSize) < |index|
    ensures |PageKeys(index, pageNo, pageSize)| == Min(pageSize, |index| - Offset(pageNo, pageSize))
    ensures forall j :: 0 <= j < |PageKeys(index, pageNo, pageSize)| ==>
              PageKeys(index, pageNo, pageSize)[j] == index[Offset(pageNo, pageSize) + j]
  {
  }

  /** The pages from `pageNo` on, read one after another until an invalid page. */
  function PagesFrom(index: seq<Key>, pageNo: int, pageSize: int): seq<Key>
    requires pageNo >= 1 && pageSize >= 1
    decreases |index| - Offset(pageNo, pageSize)
  {
    if Offset(pageNo, pageSize) >= |index| then []
    else PageKeys(index, pageNo, pageSize) + PagesFrom(index, pageNo + 1, pageSize)
  }

  lemma {:induction false} PagesFromIsSuffix(index: seq<Key>, pageNo: int, pageSize: int)
    requires pageNo >= 1 && pageSize >= 1
    ensures PagesFrom(index, pageNo, pageSize) == index[Min(Offset(pageNo, pageSize), |index|)..]
    decreases |index| - Offset(pageNo, pageSize)
  {
    var start := Offset(pageNo, pageSize);
    if start < |index| {
      PagesFromIsSuffix(index, pageNo + 1, pageSize);
      var next := Min(Offset(pageNo + 1, pageSize), |index|);
      assert PageKeys(index, pageNo, pageSize) == index[start..next];
      assert index[start..] == index[start..next] + index[next..];
    }
  }

  /**
   * Reading page 1, 2, ... until the first invalid page gives back the whole
   * index, in order, each entry once: consecutive pages neither overlap nor
   * leave gaps, and there are exactly `MaxPageNo` valid pages.
   */
  lemma PagesPartitionIndex(index: seq<Key>, pageSize: int)
    requires pageSize >= 1
    ensures PagesFrom(index, 1, pageSize) == index
    ensures forall p :: p >= 1 ==> (Offset(p, pageSize) < |index| <==> p <= MaxPageNo(|index|, pageSize))
  {
    PagesFromIsSuffix(index, 1, pageSize);
    forall p | p >= 1 ensures Offset(p, pageSize) < |index| <==> p <= MaxPageNo(|index|, pageSize) {
      PageValidIffWithinMax(p, |index|, pageSize);
    }
  }

  /** HGETALL of an article key: a missing hash reads as an empty dictionary, here None. */
  function HGetAll(records: map<Key, Record>, key: Key): Option<Record>
  {
    if key in records then Some(records[key]) else None
  }

  datatype ArticlesReply =
    | InvalidPage
    | Page(count: nat, next: Option<Url>, previous: Option<Url>, results: seq<Option<Record>>)

  /**
   * `articles`: the page of the time index `index` (ARTICLE_LIST in score order)
   * asked for by `page_no` and `page_size`, each key resolved to its record.
   */
  method Articles(url: Url, pageNo: int, pageSize: int, index: seq<Key>, records: map<Key, Record>)
    returns (reply: ArticlesReply)
    requires pageNo >= 1 && pageSize >= 1
    requires DistinctNames(url.query)
    ensures reply.InvalidPage? <==> Offset(pageNo, pageSize) >= |index|
    ensures reply.Page? ==> reply.count == |index|
    ensures reply.Page? ==> (reply.next, reply.previous) == NextPrevUrl(url, pageNo, |index|, pageSize)
    ensures reply.Page? ==> |reply.results| == |PageKeys(index, pageNo, pageSize)|
    ensures reply.Page? ==> forall j :: 0 <= j < |reply.results| ==>
              reply.results[j] == HGetAll(records, PageKeys(index, pageNo, pageSize)[j])
  {
    var resultCount := |index|;
    var start := Offset(pageNo, pageSize);
    if start >= resultCount {
      return InvalidPage;
    }
    var articleList := ZRange(index, start, start + pageSize - 1);
    var links := NextPrevUrl(url, pageNo, resultCount, pageSize);
    var results: seq<Option<Record>> := [];
    for i := 0 to |articleList|
      invariant |results| == i
      invariant forall j :: 0 <= j < i ==> results[j] == HGetAll(records, articleList[j])
    {
      results := results + [HGetAll(records, articleList[i])];
    }
    reply := Page(resultCount, links.0, links.1, results);
  }

  /** On a consistent store every key of a page resolves to a stored record. */
  lemma PageResolvesOnValidStore(db: Db, view: seq<Key>, pageNo: int, pageSize: int)
    requires Valid(db) && ListedInScoreOrder(view, db.articleList)
    requires pageNo >= 1 && pageSize >= 1
    ensures forall j :: 0 <= j < |PageKeys(view, pageNo, pageSize)| ==>
              HGetAll(db.records, PageKeys(view, pageNo, pageSize)[j]).Some?
  {
  }

  // ---------------------------------------------------------------------------
  // stats

  /** The counters of the days `lo` to `hi`, each taken once (0 for an empty range). */
  function DaySum(counters: Counters, lo: Day, hi: Day): int
    decreases hi - lo
  {
    if hi < lo then 0 else Score(counters, lo) + DaySum(counters, lo + 1, hi)
  }

  datatype StatsReply = InsufficientArgs | StatsNotFound | ArticlesFound(total: int)

  /**
   * What `get_article_stats` answers: missing arguments first, then an unknown
   * source, then the start day's count, or the whole range's when the end day
   * is given and not before the start.
   */
  function Stats(source: Option<string>, startDate: Option<Day>, endDate: Option<Day>, summaries: Summaries): StatsReply
  {
    if source.None? || startDate.None? then InsufficientArgs
    else if source.value !in summaries then StatsNotFound
    else
      var counters := summaries[source.value];
      if endDate.Some? && endDate.value >= startDate.value
      then ArticlesFound(DaySum(counters, startDate.value, endDate.value))
      else ArticlesFound(Score(counters, startDate.value))
  }

  /**
   * `get_article_stats`: validate, check that `summary:<source>` exists, take
   * the start day's count, then walk back from the end day to the day after
   * the start, adding each day's count.
   */
  method GetArticleStats(source: Option<string>, startDate: Option<Day>, endDate: Option<Day>, summaries: Summaries)
    returns (reply: StatsReply)
    ensures reply == Stats(source, startDate, endDate, summaries)
  {
    if source.None? || startDate.None? {
      return InsufficientArgs;
    }
    if source.value !in summaries {
      return StatsNotFound;
    }
    var counters := summaries[source.value];
    var start := startDate.value;
    var totalCount := Score(counters, start);
    if endDate.Some? {
      var end := endDate.value;
      while end > start
        invariant end <= endDate.value
        invariant end >= start || end == endDate.value
        invariant totalCount == Score(counters, start) + DaySum(counters, end + 1, endDate.value)
        decreases end - start
      {
        totalCount := totalCount + Score(counters, end);
        end := end - 1;
      }
    }
    reply := ArticlesFound(totalCount);
  }

  /**
   * The checks come in order: missing arguments whatever the store holds, then
   * a source without counters (which is not the same answer as a count of 0),
   * and with no end day the start day's counter, 0 when it is absent.
   */
  lemma StatsValidationOrder(source: Option<string>, startDate: Option<Day>, endDate: Option<Day>, summaries: Summaries)
    ensures Stats(source, startDate, endDate, summaries).InsufficientArgs? <==> source.None? || startDate.None?
    ensures Stats(source, startDate, endDate, summaries).StatsNotFound?
        <==> source.Some? && startDate.Some? && source.value !in summaries
    ensures Stats(source, startDate, endDate, summaries).ArticlesFound? ==> source.Some? && source.value in summaries
    ensures source.Some? && startDate.Some? && source.value in summaries && endDate.None? ==>
              Stats(source, startDate, endDate, summaries) == ArticlesFound(Count(summaries, source.value, startDate.value))
  {
  }

  /** An end day before the start counts the start day only: the walk never runs. */
  lemma StatsEndBeforeStart(source: string, lo: Day, hi: Day, summaries: Summaries)
    requires hi < lo
    ensures Stats(Some(source), Some(lo), Some(hi), summaries) == Stats(Some(source), Some(lo), None, summaries)
  {
  }

  /** On a consistent store the count of one day is the number of distinct articles dated that day. */
  lemma StatsCountsOneDay(db: Db, source: string, day: Day)
    requires Valid(db)
    ensures Stats(Some(source), Some(day), None, db.summaries)
         == if forall k :: k in db.records ==> db.records[k].source != source then StatsNotFound
            else ArticlesFound(|ArticlesOn(db.records, source, day)|)
  {
    SourceKnownIffIngested(db, source);
    if source in db.summaries {
      assert Count(db.summaries, source, day) == Tally(db.records, source, day);
    }
  }

  /** A range of one day counts that day, as omitting the end day does. */
  lemma StatsOneDayRange(source: string, day: Day, summaries: Summaries)
    ensures Stats(Some(source), Some(day), Some(day), summaries) == Stats(Some(source), Some(day), None, summaries)
  {
    if source in summaries {
      assert DaySum(summaries[source], day + 1, day) == 0;
    }
  }

  /** The stored articles from `source` whose story date lies in `[lo, hi]`. */
  ghost function ArticlesBetween(records: map<Key, Record>, source: string, lo: Day, hi: Day): set<Key>
  {
    set k | k in records && records[k].source == source && lo <= records[k].storyDate <= hi
  }

  /** The stored articles from `source` whose story date is `day`: what `Tally` counts. */
  ghost function ArticlesOn(records: map<Key, Record>, source: string, day: Day): set<Key>
  {
    set k | k in records && records[k].source == source && records[k].storyDate == day
  }

  lemma ArticlesBetweenSplit(records: map<Key, Record>, source: string, lo: Day, hi: Day)
    requires lo <= hi
    ensures ArticlesBetween(records, source, lo, hi) == ArticlesOn(records, source, lo) + ArticlesBetween(records, source, lo + 1, hi)
    ensures ArticlesOn(records, source, lo) !! ArticlesBetween(records, source, lo + 1, hi)
  {
  }

  lemma {:induction false} DaySumCountsTallies(records: map<Key, Record>, counters: Counters, source: string, lo: Day, hi: Day)
    requires forall d :: Score(counters, d) == |ArticlesOn(records, source, d)|
    ensures DaySum(counters, lo, hi) == |ArticlesBetween(records, source, lo, hi)|
    decreases hi - lo
  {
    if hi < lo {
      assert ArticlesBetween(records, source, lo, hi) == {};
    } else {
      DaySumCountsTallies(records, counters, source, lo + 1, hi);
      ArticlesBetweenSplit(records, source, lo, hi);
    }
  }

  /** On a consistent store the range sum is the number of distinct articles dated in the range. */
  lemma DaySumCountsArticles(db: Db, source: string, lo: Day, hi: Day)
    requires Valid(db) && source in db.summaries
    ensures DaySum(db.summaries[source], lo, hi) == |ArticlesBetween(db.records, source, lo, hi)|
  {
    var counters := db.summaries[source];
    forall d ensures Score(counters, d) == |ArticlesOn(db.records, source, d)| {
      assert Count(db.summaries, source, d) == Tally(db.records, source, d);
    }
    DaySumCountsTallies(db.records, counters, source, lo, hi);
  }

  /**
   * On a consistent store the stats answer for a range is "Stats not found"
   * exactly when no article from the source was ever stored, and otherwise the
   * number of distinct stored articles from the source dated in the range,
   * which may be 0.
   */
  lemma StatsCountsDistinctArticles(db: Db, source: string, lo: Day, hi: Day)
    requires Valid(db)
    requires lo <= hi
    ensures Stats(Some(source), Some(lo), Some(hi), db.summaries)
         == if forall k :: k in db.records ==> db.records[k].source != source then StatsNotFound
            else ArticlesFound(|ArticlesBetween(db.records, source, lo, hi)|)
  {
    SourceKnownIffIngested(db, source);
    if source in db.summaries {
      DaySumCountsArticles(db, source, lo, hi);
    }
  }
}
