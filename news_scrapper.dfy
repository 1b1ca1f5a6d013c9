/**
 * The main ingestion path: one ingestion transaction per extracted article
 * (`ingest_data`, `process_and_ingest`), the run over every article of every
 * paper (`scrape_articles`) and the per-run, per-source output merge
 * (`save_json_file`).
 */
module NewsScrapper {
  import opened Base
  import opened RedisStore
  import opened Article

  /** One article of a paper: what its extraction yields, and the clock readings taken while it is processed. */
  datatype Attempt = Attempt(extraction: Option<Extracted>, now: Instant, score: int)

  // ---------------------------------------------------------------------------
  // ingest_data: the dedup gate

  /** `ingest_data`: store, count and index the record when its key is absent; otherwise nothing. */
  function Ingest(db: Db, key: Key, data: Record, score: int): Db
  {
    if key in db.records then db
    else Db(db.records[key := data],
            Incremented(db.summaries, data.source, data.storyDate),
            db.articleList[key := score])
  }

  /** A key already stored leaves the records, every counter and the time index as they were. */
  lemma IngestDuplicateIsNoop(db: Db, key: Key, data: Record, score: int)
    requires key in db.records
    ensures Ingest(db, key, data, score) == db
  {
  }

  /**
   * A new key is stored with its record, its own (source, story date) counter
   * grows by exactly one (from 0 when absent), no other counter changes, and the
   * key enters the time index with the given score.
   */
  lemma IngestFreshCountsOnce(db: Db, key: Key, data: Record, score: int)
    requires key !in db.records
    ensures Ingest(db, key, data, score).records == db.records[key := data]
    ensures Count(Ingest(db, key, data, score).summaries, data.source, data.storyDate)
         == Count(db.summaries, data.source, data.storyDate) + 1
    ensures forall s, d :: (s != data.source || d != data.storyDate) ==>
              Count(Ingest(db, key, data, score).summaries, s, d) == Count(db.summaries, s, d)
    ensures Ingest(db, key, data, score).articleList == db.articleList[key := score]
  {
  }

  /** On a consistent store a first ingestion adds exactly one index entry. */
  lemma IngestIndexGrowsByOne(db: Db, key: Key, data: Record, score: int)
    requires Valid(db)
    requires key !in db.records
    ensures |Ingest(db, key, data, score).articleList| == |db.articleList| + 1
    ensures Ingest(db, key, data, score).articleList[key] == score
  {
    assert key !in db.articleList;
  }

  /** Ingesting the same key twice is ingesting it once: one record, one count, one index entry. */
  lemma IngestTwiceIsOnce(db: Db, key: Key, data: Record, data': Record, score: int, score': int)
    ensures Ingest(Ingest(db, key, data, score), key, data', score') == Ingest(db, key, data, score)
  {
  }

  /** The gate keeps the store consistent: counters count distinct records, indexed keys have records. */
  lemma IngestPreservesValid(db: Db, key: Key, data: Record, score: int)
    requires Valid(db)
    ensures Valid(Ingest(db, key, data, score))
  {
    if key !in db.records {
      InsertKeepsCountersValid(db.records, db.summaries, key, data);
    }
  }

  /** `ingest_data` on the live store: EXISTS, then HMSET, ZINCRBY and ZADD when the key is absent. */
  method IngestData(store: Store, key: Key, data: Record, score: int)
    modifies store
    ensures store.State() == Ingest(old(store.State()), key, data, score)
  {
    var present := store.Exists(key);
    if !present {
      store.Hmset(key, data);
      store.Zincrby(data.source, data.storyDate);
      store.Zadd(key, score);
    }
  }

  // ---------------------------------------------------------------------------
  // process_and_ingest: one article

  /** What `process_and_ingest` does to the store for one article. */
  function Step(db: Db, a: Attempt, c: Codecs): Db
  {
    match Process(a.extraction, a.now, c)
    case None => db
    case Some(r) => Ingest(db, ArticleKey(r.id), r, a.score)
  }

  /** A failed extraction (`ArticleException`) leaves the store untouched. */
  lemma FailedExtractionChangesNothing(db: Db, a: Attempt, c: Codecs)
    requires a.extraction.None?
    ensures Step(db, a, c) == db
  {
  }

  /** `process_and_ingest`: build the record, ingest it under `article:<id>`, return it. */
  method ProcessAndIngest(store: Store, a: Attempt, c: Codecs) returns (articleData: Option<Record>)
    modifies store
    ensures articleData == Process(a.extraction, a.now, c)
    ensures store.State() == Step(old(store.State()), a, c)
  {
    articleData := Process(a.extraction, a.now, c);
    if articleData.Some? {
      var articleKey := ArticleKey(articleData.value.id);
      IngestData(store, articleKey, articleData.value, a.score);
    }
  }

  // ---------------------------------------------------------------------------
  // the run over all articles

  /** The store after processing `attempts` in order. */
  function IngestAll(db: Db, attempts: seq<Attempt>, c: Codecs): Db
  {
    if attempts == [] then db
    else Step(IngestAll(db, attempts[..|attempts| - 1], c), attempts[|attempts| - 1], c)
  }

  /** What each article's `process_and_ingest` returns, in order. */
  function Outcomes(attempts: seq<Attempt>, c: Codecs): (r: seq<Option<Record>>)
    ensures |r| == |attempts|
    ensures forall i :: 0 <= i < |attempts| ==> r[i] == Process(attempts[i].extraction, attempts[i].now, c)
  {
    if attempts == [] then []
    else Outcomes(attempts[..|attempts| - 1], c) + [Process(attempts[|attempts| - 1].extraction, attempts[|attempts| - 1].now, c)]
  }

  /** A whole run keeps the store consistent. */
  lemma {:induction false} IngestAllPreservesValid(db: Db, attempts: seq<Attempt>, c: Codecs)
    requires Valid(db)
    ensures Valid(IngestAll(db, attempts, c))
  {
    if attempts != [] {
      var prefix := attempts[..|attempts| - 1];
      IngestAllPreservesValid(db, prefix, c);
      var mid := IngestAll(db, prefix, c);
      var a := attempts[|attempts| - 1];
      match Process(a.extraction, a.now, c)
      case None =>
      case Some(r) => IngestPreservesValid(mid, ArticleKey(r.id), r, a.score);
    }
  }

  /** Records are immutable once stored: a run never removes or overwrites one. */
  lemma {:induction false} IngestAllKeepsRecords(db: Db, attempts: seq<Attempt>, c: Codecs)
    ensures forall k :: k in db.records ==>
              k in IngestAll(db, attempts, c).records && IngestAll(db, attempts, c).records[k] == db.records[k]
  {
    if attempts != [] {
      IngestAllKeepsRecords(db, attempts[..|attempts| - 1], c);
    }
  }

  /** After a run, every successfully extracted article is stored under its key. */
  lemma {:induction false} IngestAllStoresEverySuccess(db: Db, attempts: seq<Attempt>, c: Codecs)
    ensures forall i :: 0 <= i < |attempts| && Process(attempts[i].extraction, attempts[i].now, c).Some? ==>
              ArticleKey(Process(attempts[i].extraction, attempts[i].now, c).value.id) in IngestAll(db, attempts, c).records
  {
    if attempts != [] {
      var prefix := attempts[..|attempts| - 1];
      IngestAllStoresEverySuccess(db, prefix, c);
      var mid := IngestAll(db, prefix, c);
      var a := attempts[|attempts| - 1];
      forall i | 0 <= i < |attempts| && Process(attempts[i].extraction, attempts[i].now, c).Some?
        ensures ArticleKey(Process(attempts[i].extraction, attempts[i].now, c).value.id) in IngestAll(db, attempts, c).records
      {
        if i < |prefix| {
          assert prefix[i] == attempts[i];
          assert mid.records.Keys <= Step(mid, a, c).records.Keys;
        }
      }
    }
  }

  /** A run whose every successful article is already stored changes nothing. */
  lemma {:induction false} IngestAllOfStoredIsNoop(db: Db, attempts: seq<Attempt>, c: Codecs)
    requires forall i :: 0 <= i < |attempts| && Process(attempts[i].extraction, attempts[i].now, c).Some? ==>
               ArticleKey(Process(attempts[i].extraction, attempts[i].now, c).value.id) in db.records
    ensures IngestAll(db, attempts, c) == db
  {
    if attempts != [] {
      var prefix := attempts[..|attempts| - 1];
      forall i | 0 <= i < |prefix| && Process(prefix[i].extraction, prefix[i].now, c).Some?
        ensures ArticleKey(Process(prefix[i].extraction, prefix[i].now, c).value.id) in db.records
      {
        assert prefix[i] == attempts[i];
      }
      IngestAllOfStoredIsNoop(db, prefix, c);
    }
  }

  /**
   * Re-running the batch is safe for dated articles: a second run over the same
   * extractions, at any other clock readings, leaves the store as the first run
   * left it.
   */
  lemma RerunOfDatedArticlesIsNoop(db: Db, first: seq<Attempt>, again: seq<Attempt>, c: Codecs)
    requires |first| == |again|
    requires forall i :: 0 <= i < |first| ==> again[i].extraction == first[i].extraction
    requires forall i :: 0 <= i < |first| && first[i].extraction.Some? ==> first[i].extraction.value.publishDate.Some?
    ensures IngestAll(IngestAll(db, first, c), again, c) == IngestAll(db, first, c)
  {
    var after := IngestAll(db, first, c);
    IngestAllStoresEverySuccess(db, first, c);
    forall i | 0 <= i < |again| && Process(again[i].extraction, again[i].now, c).Some?
      ensures ArticleKey(Process(again[i].extraction, again[i].now, c).value.id) in after.records
    {
      SameIdentitySameId(again[i].extraction.value, first[i].extraction.value, again[i].now, first[i].now, c);
    }
    IngestAllOfStoredIsNoop(after, again, c);
  }

  // ---------------------------------------------------------------------------
  // save_json_file: the per-run output files

  /** The output files: (run date, source) to the file's `results` map from id to record. */
  type Files = map<(Day, string), map<string, Record>>

  /** `save_json_file`: set `results[id]` in `<today>/<source>.json`, a missing file read as empty. */
  function SaveJsonFile(files: Files, data: Record, today: Day): Files
  {
    var path := (today, data.source);
    var results := if path in files then files[path] else map[];
    files[path := results[data.id := data]]
  }

  /**
   * The merge sets `results[id]` to the record, keeps every other id of the file,
   * treats a missing file as an empty one and touches no other file.
   */
  lemma SaveJsonFileMerges(files: Files, data: Record, today: Day)
    ensures var r := SaveJsonFile(files, data, today);
      && (today, data.source) in r
      && r[(today, data.source)][data.id] == data
      && ((today, data.source) !in files ==> r[(today, data.source)] == map[data.id := data])
      && ((today, data.source) in files ==>
            r[(today, data.source)].Keys == files[(today, data.source)].Keys + {data.id}
            && forall id :: id in files[(today, data.source)] && id != data.id ==>
                 r[(today, data.source)][id] == files[(today, data.source)][id])
      && forall p :: p != (today, data.source) ==> (p in r <==> p in files) && (p in files ==> r[p] == files[p])
  {
  }

  /** The save loop, skipping articles whose extraction failed. */
  function SaveAll(files: Files, results: seq<Option<Record>>, today: Day): Files
  {
    if results == [] then files
    else
      var saved := SaveAll(files, results[..|results| - 1], today);
      match results[|results| - 1]
      case None => saved
      case Some(r) => SaveJsonFile(saved, r, today)
  }

  /**
   * What the as-written save loop leaves behind: the files written so far,
   * and whether it raised, which ends the run before the remaining results.
   */
  datatype SaveOutcome = SaveOutcome(files: Files, raised: bool)

  /**
   * The save loop as written: every result is passed to the save, and a failed
   * extraction (None) raises when the save reads its source. Files saved
   * before the raise stay on disk.
   */
  function SaveAllAsWritten(files: Files, results: seq<Option<Record>>, today: Day): SaveOutcome
  {
    if results == [] then SaveOutcome(files, false)
    else
      var before := SaveAllAsWritten(files, results[..|results| - 1], today);
      if before.raised then before
      else
        match results[|results| - 1]
        case None => SaveOutcome(before.files, true)
        case Some(r) => SaveOutcome(SaveJsonFile(before.files, r, today), false)
  }

  /** As written, one failed extraction anywhere in the run makes the save loop raise. */
  lemma {:induction false} SaveAllAsWrittenFailsOnFailedExtraction(files: Files, results: seq<Option<Record>>, today: Day)
    ensures SaveAllAsWritten(files, results, today).raised <==> exists i :: 0 <= i < |results| && results[i].None?
    ensures (forall i :: 0 <= i < |results| ==> results[i].Some?) ==>
              SaveAllAsWritten(files, results, today) == SaveOutcome(SaveAll(files, results, today), false)
  {
    if results != [] {
      var prefix := results[..|results| - 1];
      SaveAllAsWrittenFailsOnFailedExtraction(files, prefix, today);
      if exists i :: 0 <= i < |prefix| && prefix[i].None? {
        var i :| 0 <= i < |prefix| && prefix[i].None?;
        assert results[i] == prefix[i];
      }
      if exists i :: 0 <= i < |results| && results[i].None? {
        var i :| 0 <= i < |results| && results[i].None?;
        if i < |prefix| {
          assert prefix[i] == results[i];
        }
      }
      if forall i :: 0 <= i < |results| ==> results[i].Some? {
        assert forall i :: 0 <= i < |prefix| ==> prefix[i] == results[i];
      }
    }
  }

  /**
   * As written, the run stops at the first failed extraction `i`: the files
   * on disk are those the corrected loop saves from the results before `i`,
   * and nothing after `i` is saved.
   */
  lemma {:induction false} SaveAllAsWrittenStopsAtFirstFailure(files: Files, results: seq<Option<Record>>, today: Day, i: nat)
    requires i < |results| && results[i].None?
    requires forall j :: 0 <= j < i ==> results[j].Some?
    ensures SaveAllAsWritten(files, results, today) == SaveOutcome(SaveAll(files, results[..i], today), true)
  {
    var prefix := results[..|results| - 1];
    if i < |prefix| {
      assert prefix[..i] == results[..i];
      SaveAllAsWrittenStopsAtFirstFailure(files, prefix, today, i);
    } else {
      assert prefix == results[..i];
      assert forall j :: 0 <= j < |prefix| ==> prefix[j] == results[j];
      SaveAllAsWrittenFailsOnFailedExtraction(files, prefix, today);
    }
  }

  /**
   * The failure is real: with one success before a failed extraction and one
   * after, the as-written loop raises with only the first article saved,
   * while the corrected loop skips the failure and saves both.
   */
  lemma SaveAllAsWrittenCounterexample(first: Record, second: Record, today: Day)
    ensures SaveAllAsWritten(map[], [Some(first), None, Some(second)], today)
         == SaveOutcome(map[(today, first.source) := map[first.id := first]], true)
    ensures (today, second.source) in SaveAll(map[], [Some(first), None, Some(second)], today)
    ensures second.source != first.source ==>
              (today, second.source) !in SaveAllAsWritten(map[], [Some(first), None, Some(second)], today).files
  {
    var results: seq<Option<Record>> := [Some(first), None, Some(second)];
    var empty: Files := map[];
    assert results[..2] == [Some(first), None];
    assert results[..2][..1] == [Some(first)];
    assert results[..2][..1][..0] == [];
    assert SaveAllAsWritten(empty, results[..2][..1], today) == SaveOutcome(SaveJsonFile(empty, first, today), false);
    assert SaveJsonFile(empty, first, today) == map[(today, first.source) := map[first.id := first]];
    SaveAllKeepsEverySuccess(empty, results, today);
    assert results[2].Some?;
  }

  /** The corrected loop saves every successfully extracted article of the run under today's date. */
  lemma {:induction false} SaveAllKeepsEverySuccess(files: Files, results: seq<Option<Record>>, today: Day)
    ensures forall i :: 0 <= i < |results| && results[i].Some? ==>
              (today, results[i].value.source) in SaveAll(files, results, today)
              && results[i].value.id in SaveAll(files, results, today)[(today, results[i].value.source)]
    ensures forall p: (Day, string) :: p.0 != today ==>
              (p in SaveAll(files, results, today) <==> p in files)
              && (p in files ==> SaveAll(files, results, today)[p] == files[p])
  {
    if results != [] {
      var prefix := results[..|results| - 1];
      SaveAllKeepsEverySuccess(files, prefix, today);
      var saved := SaveAll(files, prefix, today);
      match results[|results| - 1]
      case None =>
      case Some(r) => SaveJsonFileMerges(saved, r, today);
      forall i | 0 <= i < |results| && results[i].Some?
        ensures (today, results[i].value.source) in SaveAll(files, results, today)
        ensures results[i].value.id in SaveAll(files, results, today)[(today, results[i].value.source)]
      {
        if i < |prefix| {
          assert prefix[i] == results[i];
          match results[|results| - 1]
          case None =>
          case Some(r) => SaveJsonFileMerges(saved, r, today);
        }
      }
    }
  }

  /** The entry for `id` in the file at `path`, if the file exists and holds it. */
  function FileEntry(files: Files, path: (Day, string), id: string): Option<Record>
  {
    if path in files && id in files[path] then Some(files[path][id]) else None
  }

  /** The last successful result with this source and id: the one whose save is read back. */
  function LastSaved(results: seq<Option<Record>>, source: string, id: string): (r: Option<Record>)
    ensures r.Some? ==> r.value.source == source && r.value.id == id && r in results
  {
    if results == [] then None
    else
      var last := results[|results| - 1];
      if last.Some? && last.value.source == source && last.value.id == id then last
      else LastSaved(results[..|results| - 1], source, id)
  }

  /** Some successful result comes from `source`. */
  predicate SavesSource(results: seq<Option<Record>>, source: string)
  {
    exists i :: 0 <= i < |results| && results[i].Some? && results[i].value.source == source
  }

  /**
   * After the corrected save loop, today's file for a source exists exactly
   * when it existed or some success came from that source, and its entry for
   * an id is the last success with that source and id, or else the entry the
   * file already held: earlier ids are kept, and nothing else appears.
   */
  lemma {:induction false} SaveAllContents(files: Files, results: seq<Option<Record>>, today: Day, source: string, id: string)
    ensures (today, source) in SaveAll(files, results, today) <==> (today, source) in files || SavesSource(results, source)
    ensures FileEntry(SaveAll(files, results, today), (today, source), id)
         == if LastSaved(results, source, id).Some? then LastSaved(results, source, id)
            else FileEntry(files, (today, source), id)
  {
    if results != [] {
      var prefix := results[..|results| - 1];
      var last := results[|results| - 1];
      SaveAllContents(files, prefix, today, source, id);
      assert forall i :: 0 <= i < |prefix| ==> prefix[i] == results[i];
      if SavesSource(results, source) && !(last.Some? && last.value.source == source) {
        var i :| 0 <= i < |results| && results[i].Some? && results[i].value.source == source;
        assert prefix[i] == results[i];
      }
    }
  }

  /** A fixed rendering of the codecs, used to exhibit behaviour on concrete articles. */
  function DemoCodecs(): Codecs
  {
    Codecs((s: string) => s, (s: string) => s, (t: Instant) => if t.day == 0 then "0" else "1")
  }

  /**
   * Re-running an undated article is not a no-op: its id is taken over the
   * processing moment, so a run on another day stores it a second time and
   * counts it on that day as well.
   */
  lemma RerunOfUndatedArticleCountsTwice()
    ensures var c := DemoCodecs();
      var a := Extracted("t", None, [], [], [], "", "u", "");
      var noon := TimeOfDay(12, 0, 0, 0);
      var first := [Attempt(Some(a), Instant(0, noon), 0)];
      var again := [Attempt(Some(a), Instant(1, noon), 86400)];
      var once := IngestAll(Db(map[], map[], map[]), first, c);
      var twice := IngestAll(once, again, c);
      && |once.records| == 1 && |twice.records| == 2
      && Count(twice.summaries, "u", 0) == 1 && Count(twice.summaries, "u", 1) == 1
  {
    var c := DemoCodecs();
    var a := Extracted("t", None, [], [], [], "", "u", "");
    var noon := TimeOfDay(12, 0, 0, 0);
    var first := [Attempt(Some(a), Instant(0, noon), 0)];
    var again := [Attempt(Some(a), Instant(1, noon), 86400)];
    assert first[..0] == [] && again[..0] == [];
    var r0, r1 := BuildRecord(a, Instant(0, noon), c), BuildRecord(a, Instant(1, noon), c);
    assert r0.id == "t0" && r1.id == "t1";
    assert ArticleKey("t0")[9] == '0' && ArticleKey("t1")[9] == '1';
    var empty := Db(map[], map[], map[]);
    assert IngestAll(empty, first[..0], c) == empty;
    assert Process(first[0].extraction, first[0].now, c) == Some(r0);
    var once := IngestAll(empty, first, c);
    assert once == Step(empty, first[0], c) == Ingest(empty, ArticleKey("t0"), r0, 0);
    assert IngestAll(once, again[..0], c) == once;
    assert Process(again[0].extraction, again[0].now, c) == Some(r1);
    var twice := IngestAll(once, again, c);
    assert twice == Step(once, again[0], c) == Ingest(once, ArticleKey("t1"), r1, 86400);
  }

  // ---------------------------------------------------------------------------
  // scrape_articles

  datatype Run =
    | EmptyFanOut         // `asyncio.wait` of no coroutines raises before anything is processed
    | Saved(files: Files) // every article processed, the output files merged

  /** The coroutine list `scrape_articles` builds: one per article of every paper, in visiting order. */
  method CollectCoroutines(papers: seq<seq<Attempt>>) returns (coroutines: seq<Attempt>)
    ensures coroutines == Flatten(papers)
  {
    coroutines := [];
    for i := 0 to |papers|
      invariant coroutines == Flatten(papers[..i])
    {
      for j := 0 to |papers[i]|
        invariant coroutines == Flatten(papers[..i]) + papers[i][..j]
      {
        coroutines := coroutines + [papers[i][j]];
      }
      assert papers[i][..|papers[i]|] == papers[i];
      FlattenPrefix(papers, i);
    }
    assert papers[..|papers|] == papers;
  }

  /** The event loop's run of the coroutines, here one after another in collection order. */
  method RunCoroutines(store: Store, coroutines: seq<Attempt>, c: Codecs) returns (results: seq<Option<Record>>)
    modifies store
    ensures store.State() == IngestAll(old(store.State()), coroutines, c)
    ensures results == Outcomes(coroutines, c)
  {
    results := [];
    assert coroutines[..0] == [];
    for i := 0 to |coroutines|
      invariant store.State() == IngestAll(old(store.State()), coroutines[..i], c)
      invariant results == Outcomes(coroutines[..i], c)
    {
      var articleData := ProcessAndIngest(store, coroutines[i], c);
      assert coroutines[..i + 1][..i] == coroutines[..i];
      results := results + [articleData];
    }
    assert coroutines[..|coroutines|] == coroutines;
  }

  /** The save loop over the results, skipping failed extractions. */
  method SaveResults(files: Files, results: seq<Option<Record>>, today: Day) returns (saved: Files)
    ensures saved == SaveAll(files, results, today)
  {
    saved := files;
    for i := 0 to |results|
      invariant saved == SaveAll(files, results[..i], today)
    {
      assert results[..i + 1][..i] == results[..i];
      match results[i]
      case None =>
      case Some(articleData) => saved := SaveJsonFile(saved, articleData, today);
    }
    assert results[..|results|] == results;
  }

  /**
   * `scrape_articles`: collect one coroutine per article of every paper, run
   * them (here one after another, in the order they were collected), then save
   * each result to the run's output files.
   */
  method ScrapeArticles(store: Store, papers: seq<seq<Attempt>>, files: Files, today: Day, c: Codecs) returns (run: Run)
    modifies store
    ensures run.EmptyFanOut? <==> Flatten(papers) == []
    ensures store.State() == IngestAll(old(store.State()), Flatten(papers), c)
    ensures run.Saved? ==> run.files == SaveAll(files, Outcomes(Flatten(papers), c), today)
  {
    var coroutines := CollectCoroutines(papers);
    if coroutines == [] {
      return EmptyFanOut;
    }
    var results := RunCoroutines(store, coroutines, c);
    var saved := SaveResults(files, results, today);
    run := Saved(saved);
  }
}
