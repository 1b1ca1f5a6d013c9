# Newspaper scraping: a Dafny model of the ingestion and query path

The system scrapes articles from newspaper sites and stores each one in Redis.
An article is stored once, under a key derived from a hash of its title, its
publish timestamp and its authors. Each source also has a per-day counter, and
a time-ordered index lists the stored articles. The system writes each run's
articles into per-source JSON files and serves two read endpoints:

- a paginated article list with next and previous links;
- per-source article counts over a date range.

This project models that core in Dafny:

- `base.dfy` (module `Base`): the article record, dates as day numbers, and `Option`.
- `redis_store.dfy` (module `RedisStore`): the three Redis structures the code relies on.
  - The article hashes `article:<id>`.
  - One `summary:<source>` sorted set per source, from story date to count.
  - The `ARTICLE_LIST` sorted set, from article key to ingestion time.
  - The module gives these as a value `Db` and as a class `Store` whose methods are
    the Redis commands used (EXISTS, HMSET, ZINCRBY, ZADD). It also states the store
    invariant `Valid`:
    - every counter equals the number of distinct stored articles with that source and date;
    - a source has counters only if one of its articles is stored;
    - every indexed key has a record.
- `article.dfy` (module `Article`): record construction from the extractor's output.
  Both scrapers build the record the same way. The md5 digest, the URL's network
  location and `str()` of a datetime are function parameters, not modelled.
- `news_scrapper.dfy` (module `NewsScrapper`): the main path.
  - The dedup gate `ingest_data` is a function `Ingest` plus a method `IngestData` on
    the store. Then come `process_and_ingest` and the run over all articles.
  - The per-run output merge `save_json_file` is a map update keyed by
    (run date, source).
- `legacy_scraper.dfy` (module `LegacyScraper`): the earlier `scrape_articles.py` loop.
  - It uses the same gate, but never writes the time index.
  - It collects the stories dated on the run's day.
  - It raises at the first failed extraction.
- `query_string.dfy` (module `QueryString`): `_replace_query_param`, over a URL whose
  query is already parsed into a name-to-values dictionary.
- `api.dfy` (module `Api`): the read API.
  - Page arithmetic, the "Invalid page" boundary, the inclusive range read,
    the next and previous links.
  - The stats endpoint: validation order, and the backward day-by-day walk that
    accumulates the total.

Deduplication holds across runs only for articles with a publish date. An undated article's id includes its processing moment, which the clock gives to the microsecond. Each re-processing of such an article, even on the same day or twice within one run, therefore stores and counts it again.

Clock readings are parameters:

- each article's processing moment and index score;
- the run's date.

For the stats endpoint, request dates arrive already parsed into day numbers.

## Model

| member | source | states |
|---|---|---|
| `Article.Process` | news_scrapper.py:32-67 | An `ArticleException` (a failed extraction) gives no record, and a record is produced for every successful extraction. The record's source is the network location of the article URL. |
| `Article.SameIdentitySameId` | news_scrapper.py:48-53 | The id depends only on the title, the publish timestamp and the ordered authors. Processing at another moment, with other body fields, gives the same id. |
| `Article.AuthorOrderChangesIdentifier` | news_scrapper.py:48-53 | The authors are not re-sorted before hashing. Two distinct author names listed in the other order give a different identifier string. |
| `Article.UndatedUsesProcessingMoment` | news_scrapper.py:45-46 | With no publish date, the story date and time are the processing moment's, and the id is taken over that moment. This is a fallback, not a failure. |
| `Article.ListsStoredInOrder` | news_scrapper.py:48-50 | Authors, tags and keywords are stored joined with the separator character, in the extractor's order. For each list that is non-empty and free of the separator, splitting its stored string gives it back, whatever the other two lists hold. |
| `Article.SplitJoin` | news_scrapper.py:48-50 | Splitting a joined list at the separator gives the list back when no element contains the separator. |
| `Article.JoinConflatesSeparatorInName` | news_scrapper.py:48 | An author name containing the separator cannot be told apart from two authors. |
| `RedisStore.Incremented` | news_scrapper.py:74-78 | ZINCRBY by 1 creates the set and the member when absent. The one (source, date) count grows by one from 0, and every other count is unchanged. |
| `RedisStore.InsertKeepsCountersValid` | news_scrapper.py:72-78 | Storing an absent key and incrementing its own (source, date) counter keeps every counter equal to the number of distinct stored articles. |
| `RedisStore.SourceKnownIffIngested` | app.py:91-93 | On a consistent store, `summary:<source>` exists exactly when some article from that source is stored. |
| `RedisStore.ZaddLatestAppends` | news_scrapper.py:79-84 | Adding a new key with a score above every present score: an ordered listing of the old index followed by the key is an ordered listing of the new one. |
| `RedisStore.ZaddLatestListedLast` | news_scrapper.py:79-84 | Conversely, every ordered listing of the new index ends with the new key, and what comes before it is an ordered listing of the old index. Entries already listed keep their order, and the new key is read last. |
| `RedisStore.Store.Exists` | news_scrapper.py:72 | EXISTS reports whether the article hash is stored. |
| `RedisStore.Store.Hmset` | news_scrapper.py:73 | HMSET writes the record under the key and changes nothing else. |
| `RedisStore.Store.Zincrby` | news_scrapper.py:74-78 | ZINCRBY increments one source's counter for one day and changes nothing else. |
| `RedisStore.Store.Zadd` | news_scrapper.py:79-84 | ZADD sets the key's index score and changes nothing else. |
| `NewsScrapper.IngestDuplicateIsNoop` | news_scrapper.py:72 | If the key is already stored, the records, every summary counter and the time index are unchanged. |
| `NewsScrapper.IngestFreshCountsOnce` | news_scrapper.py:72-84 | A new key maps to the record. Its (source, story date) counter grows by exactly 1, from 0 when absent, and no other counter changes. The key enters the time index with the given score. |
| `NewsScrapper.IngestIndexGrowsByOne` | news_scrapper.py:79-84 | On a consistent store, a first ingestion adds exactly one index entry. |
| `NewsScrapper.IngestTwiceIsOnce` | news_scrapper.py:70-84 | Ingesting one key twice, with any data, is ingesting it once. |
| `NewsScrapper.IngestPreservesValid` | news_scrapper.py:70-84 | The gate keeps the store invariant. |
| `NewsScrapper.IngestData` | news_scrapper.py:70-84 | EXISTS, then HMSET, ZINCRBY and ZADD when absent, leaves the store in the state `Ingest` describes. |
| `NewsScrapper.FailedExtractionChangesNothing` | news_scrapper.py:116-119 | A failed extraction performs no store mutation. |
| `NewsScrapper.ProcessAndIngest` | news_scrapper.py:114-121 | The method returns the processed record (None on failure) and ingests it under `article:<id>`. |
| `NewsScrapper.Outcomes` | news_scrapper.py:143-145 | There is one result per article, and it is that article's processing outcome. |
| `NewsScrapper.IngestAllPreservesValid` | news_scrapper.py:136-143 | A whole run keeps the store invariant. |
| `NewsScrapper.IngestAllKeepsRecords` | news_scrapper.py:72-73 | A run never removes or overwrites a stored record. |
| `NewsScrapper.IngestAllStoresEverySuccess` | news_scrapper.py:114-121 | After a run, every successfully extracted article is stored under its key. |
| `NewsScrapper.IngestAllOfStoredIsNoop` | news_scrapper.py:72 | A run whose articles are all already stored changes nothing. |
| `NewsScrapper.RerunOfDatedArticlesIsNoop` | news_scrapper.py:45-53 | Re-running the same dated extractions, at any clock readings, leaves the store as the first run left it. |
| `NewsScrapper.RerunOfUndatedArticleCountsTwice` | news_scrapper.py:45-53 | The converse does not hold for undated articles. The id is taken over the processing moment, so each re-processing stores the article again, even on the same day. The lemma shows it for a re-run on another day: the article is stored twice and counted on both days. |
| `NewsScrapper.SaveJsonFileMerges` | news_scrapper.py:87-111 | The (today, source) results map gets `results[id] = record` and keeps every other id. A missing file behaves as an empty map, and no other file changes. |
| `NewsScrapper.SaveAllAsWrittenFailsOnFailedExtraction` | news_scrapper.py:144-145 | As written, the save loop raises exactly when some extraction failed. Without failures it saves what the corrected loop saves. |
| `NewsScrapper.SaveAllAsWrittenStopsAtFirstFailure` | news_scrapper.py:144-145 | As written, the loop raises at the first failed extraction. The files then on disk are those the corrected loop saves from the results before it, and nothing after it is saved. |
| `NewsScrapper.SaveAllAsWrittenCounterexample` | news_scrapper.py:96 | With results success, failure, success from two sources, the as-written loop raises with only the first article on disk. The corrected loop skips the failure and saves the second article too. |
| `NewsScrapper.SaveAllKeepsEverySuccess` | news_scrapper.py:144-145 | The corrected loop saves every successful article under today's date. A file of another date exists afterwards exactly when it existed before, with the same contents. |
| `NewsScrapper.SaveAllContents` | news_scrapper.py:96-145 | With the corrected loop, today's file for a source exists exactly when it already existed or some success came from that source. Its entry for an id is the last success with that source and id, or else the entry the file already held. Earlier ids are kept, and nothing else appears. |
| `NewsScrapper.CollectCoroutines` | news_scrapper.py:136-141 | The coroutine list holds one entry per article of every paper, in visiting order. |
| `NewsScrapper.RunCoroutines` | news_scrapper.py:142-143 | Running the coroutines leaves the store as the in-order ingestion of every article, and yields each article's processing outcome. |
| `NewsScrapper.SaveResults` | news_scrapper.py:144-145 | The corrected save loop merges every successful result into the output files and skips failed extractions. |
| `NewsScrapper.ScrapeArticles` | news_scrapper.py:128-145 | The fan-out raises exactly when there are no articles. Otherwise the store is the sequential ingestion of every article of every paper in order, and the files are the merge of every successful result, with the corrected save loop described under Findings. |
| `LegacyScraper.IngestUnindexedPreservesValid` | scrape_articles.py:101-108 | The gate without ZADD keeps the store invariant. |
| `LegacyScraper.RecordsOf` | scrape_articles.py:96-97 | These are the records the articles yield, in processing order. |
| `LegacyScraper.OnDay` | scrape_articles.py:98-100 | The filter keeps exactly the records dated on the given day. |
| `LegacyScraper.LegacyRunCrashedStays` | scrape_articles.py:97-98 | Once the loop has raised, no further article is processed. |
| `LegacyScraper.LegacyRunStories` | scrape_articles.py:96-100 | The loop raises exactly when some extraction failed. Otherwise `stories_to_save` is the processed records dated on the run date, in order, including ids already stored. |
| `LegacyScraper.LegacyRunNeverIndexes` | scrape_articles.py:101-108 | This variant never writes the time index. |
| `LegacyScraper.LegacyRunPreservesValid` | scrape_articles.py:101-108 | Each distinct id increments its (source, story date) counter exactly once. |
| `LegacyScraper.CrashEndsRun` | scrape_articles.py:92-98 | A raise at one article is the outcome of the whole run. |
| `LegacyScraper.VisitArticle` | scrape_articles.py:97-108 | The loop body raises on a failed extraction. Otherwise it lists the record when it is dated today, and stores and counts it when its key is absent. |
| `LegacyScraper.ScrapeArticles` | scrape_articles.py:87-108 | The method leaves the store, and returns the status, that the article-by-article run describes. |
| `QueryString.BelowTotal` | app.py:37 | Python's string order is total on distinct strings. |
| `QueryString.SetParamContents` | app.py:36 | `query_dict[key] = vals` gives `key` exactly those values and keeps every other parameter. |
| `QueryString.InsertByNameCorrect` | app.py:37 | Insertion keeps the query sorted by name and adds exactly the new parameter. |
| `QueryString.SortByNameCorrect` | app.py:37 | `sorted` of the items orders them by name and keeps exactly the same items. |
| `QueryString.ReplaceQueryParam` | app.py:29-38 | `key` gets exactly `[val]`, every other parameter is kept, the query is ordered by name, and scheme, host, path and fragment are unchanged. |
| `Api.MaxPageNo` | app.py:43 | The page count is ceil(count / page_size). |
| `Api.PageValidIffWithinMax` | app.py:43-63 | A page starts inside the index exactly when its number is at most the page count. |
| `Api.Decimal` | app.py:46-48 | `str` of a page number is a non-empty string of digits. |
| `Api.DecimalRoundTrip` | app.py:46-55 | `int` of the `page_no` a link carries reads back the page number that `str` wrote. |
| `Api.DecimalInjective` | app.py:45-48 | Different page numbers give different strings, so `next` and `previous` ask for different pages. |
| `Api.LinksMatchNeighbourPages` | app.py:41-49 | `next` is present exactly when the following page is valid, and then asks for `page_no + 1`. `previous` is present exactly when `page_no > 1`, and then asks for `page_no - 1`. |
| `Api.PageWindow` | app.py:65 | A valid page holds the index entries from its offset, exactly `min(page_size, count - start)` of them. |
| `Api.PagesFromIsSuffix` | app.py:58-65 | Reading pages from `p` on gives the index from page `p`'s offset to its end. |
| `Api.PagesPartitionIndex` | app.py:58-76 | Pages 1, 2, … until the first invalid one give the whole index in order, without overlap. There are exactly MaxPageNo valid pages. |
| `Api.Articles` | app.py:52-78 | The method answers "Invalid page" exactly when `(page_no - 1) * page_size >= count`. Otherwise it answers the count, the links, and the record lookup of each key of the page's range. |
| `Api.PageResolvesOnValidStore` | app.py:75-76 | On a consistent store every key of a page resolves to a stored record. |
| `Api.GetArticleStats` | app.py:81-111 | The validation order and the backward walk compute the answer `Stats` describes. |
| `Api.StatsValidationOrder` | app.py:88-101 | A missing source or start date gives "Insufficient args" whatever the store. An absent counter set gives "Stats not found", never a count. With no end date, the answer is the start day's count, or 0 if absent. |
| `Api.StatsOneDayRange` | app.py:98-108 | A one-day range counts that day, as no end date does. |
| `Api.StatsEndBeforeStart` | app.py:101-108 | An end before the start counts only the start day. |
| `Api.ArticlesBetweenSplit` | app.py:104-108 | The articles in a range are those of its first day plus those of the rest, which are disjoint. |
| `Api.DaySumCountsTallies` | app.py:104-108 | If each day's counter counts that day's articles, the range sum counts the distinct articles in the range. |
| `Api.DaySumCountsArticles` | app.py:96-108 | On a consistent store, the sum over [start, end] counts each day once. It equals the number of distinct stored articles from the source dated in the range. |
| `Api.StatsCountsOneDay` | app.py:91-101 | On a consistent store, the answer for one day is "Stats not found" exactly when the source was never ingested. Otherwise it is the number of its articles dated that day. |
| `Api.StatsCountsDistinctArticles` | app.py:88-109 | On a consistent store, the answer for a range is "Stats not found" exactly when the source was never ingested. Otherwise it is the number of its distinct articles dated in the range, which may be 0. |

## Left out

- Hashing, URL parsing and `str()` of a datetime are function parameters (`Codecs`).
  - The md5 internals and `urlparse` are not modelled.
  - `urlencode` and `urlunsplit` are not modelled either: the URL stays split, with its query parsed.
  - `QueryString.ReplaceQueryParam` keeps the URL's path as given. In the source, `urlparse` followed by `urlunsplit` drops a path's `;params` part (app.py:34-38), which the model does not capture.
  - `parse_qs` of a raw query string is not modelled. The model requires the parsed query to hold each name once, as a dictionary does.
- The article extractor is not modelled: download, parse, nlp, `newspaper.build`, `news_pool` threads and the NLTK bootstrap in download_punkt_models.py are foreign library calls and network I/O. Each article's extraction is an input: either its fields, or None for an `ArticleException`.
- Redis is three maps in separate key spaces, so a source name that collides with an article key is not modelled.
  - The Redis connection is not modelled.
  - HMSET is modelled as replacing the hash. The gate only writes absent keys.
  - Scores are integers, so the float score and the string `strftime('%s')` rendering are not modelled.
  - The read API gets the index as a sequence in score order. The order among equal scores is left open.
  - `RedisStore.ZaddLatestListedLast` requires the new score to be strictly above every present one. Scores have one-second resolution, so two articles ingested in the same second tie. Redis then orders them by member name, which the model leaves open. For such ties the model does not establish that a new key is read last.
- Files and JSON serialisation are not modelled.
  - The main scraper's `save_json_file` is the map merge.
  - The earlier scraper's `save_json_file` (scrape_articles.py:65-80) is not modelled: its `'w+'` open truncates each file, so its read-back branch is unreachable and each file keeps only its last article. The model stops at the collected `stories_to_save`.
  - `get_file_data` and the argparse entry points are not modelled.
- Flask, `jsonify`, reading request arguments and `strptime` of DD-MM-YYYY are not modelled.
  - Page numbers arrive as integers and dates as day numbers.
  - A malformed date raises ValueError in the source. That path is not modelled.
- `Api.Articles` requires `page_no >= 1` and `page_size >= 1`. The source has no such check:
  - a page size of 0 divides by zero at app.py:43 when the index is non-empty (an empty index answers "Invalid page" first, app.py:59-63);
  - a page number below 1 gives a negative ZRANGE start, which Redis reads from the end.
- `Api.MaxPageNo` computes `count / page_size` exactly. The source takes it in floating point, which is not the same for counts beyond 2^53.
- The wall clock is a parameter.
  - One moment per article serves both `datetime.now()` reads of record construction. The `ARTICLE_LIST` score that `ingest_data` reads from the clock is a separate parameter of each article, not derived from that moment.
  - The main scraper reads `datetime.now().date()` once per saved article. The model takes one `today` for the whole save loop, a difference only for a run that crosses midnight.
- Concurrency is not modelled.
  - The `asyncio.wait` fan-out runs coroutines that never suspend on I/O. It is modelled as a sequential loop in collection order.
  - `asyncio.wait` schedules from a set of tasks, and its result `tasks` is a set, so the real processing and saving order is unspecified. The order also decides, for two articles with the same id, which record is stored. If they come from different hosts, it decides which source's counter is incremented, and which version ends in the output file.
  - Python 3.11 and later refuse bare coroutines in `asyncio.wait`; the model follows the older behaviour the code was written for.
- Zero articles: the code passes an empty list to `asyncio.wait`, which raises ValueError. The model follows the code (`Run.EmptyFanOut`).
- Timezone offsets of the publish date are not modelled. `Instant` holds only a date and a time of day. For an aware datetime, `str()` ends with the offset while `.date()` and `.time()` drop it. The id at news_scrapper.py:53 therefore separates two articles that differ only in offset, and the model can merge them.
- Tags are a set in the extractor. The model takes them as a sequence in the order the extractor lists them.
- `LegacyScraper.ScrapeArticles`: the earlier loop's failure on a failed extraction is modelled as the outcome `Crashed`, not corrected. The partial store writes before the raise are kept.
- `NewsScrapper.SaveAllAsWritten` returns the raise together with the files saved before it, and stops there. The store is not part of its outcome: every task has finished ingesting before the save loop starts, so the raise loses only the remaining file saves.

## Findings

| source | as written | input that shows it | evidently intended | confidence | as-written member | corrected member |
|---|---|---|---|---|---|---|
| news_scrapper.py:144-145, 96 | The save loop calls `save_json_file(task.result(), ...)` for every task, including articles whose extraction failed and returned None. `save_json_file` subscripts `article_data['source']`, raising TypeError and ending the run before the remaining results are saved. | A run in which one article raises `ArticleException` (results `[Some(a), None, Some(b)]`: `a` is saved, then the loop raises and `b` is not saved). | Skip failed extractions, as `process_and_ingest` already does before ingesting (news_scrapper.py:117). | high, not executed | `NewsScrapper.SaveAllAsWritten` (shown by `NewsScrapper.SaveAllAsWrittenCounterexample`, `NewsScrapper.SaveAllAsWrittenFailsOnFailedExtraction` and `NewsScrapper.SaveAllAsWrittenStopsAtFirstFailure`) | `NewsScrapper.SaveAll` (proved by `NewsScrapper.SaveAllKeepsEverySuccess` and `NewsScrapper.SaveAllContents`, used by `NewsScrapper.ScrapeArticles`) |
