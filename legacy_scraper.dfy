/**
 * The earlier `scrape_articles.py` ingestion loop: the same record and the same
 * dedup-gated counter, processed article by article, with no time index, and a
 * list of the articles dated on the run's own day.
 */
module LegacyScraper {
  import opened Base
  import opened RedisStore
  import opened Article

  /** One article of a paper: its extraction and the clock reading taken while it is processed. */
  datatype Fetch = Fetch(extraction: Option<Extracted>, now: Instant)

  /** The dedup gate of this loop: HMSET and ZINCRBY when the key is absent, and nothing else. */
  function IngestUnindexed(db: Db, key: Key, data: Record): Db
  {
    if key in db.records then db
    else db.(records := db.records[key := data],
             summaries := Incremented(db.summaries, data.source, data.storyDate))
  }

  /** This gate keeps the store consistent as well. */
  lemma IngestUnindexedPreservesValid(db: Db, key: Key, data: Record)
    requires Valid(db)
    ensures Valid(IngestUnindexed(db, key, data))
  {
    if key !in db.records {
      InsertKeepsCountersValid(db.records, db.summaries, key, data);
    }
  }

  /**
   * Where the loop stands: still running with the stories collected so far, or
   * stopped by the TypeError that subscripting a failed extraction's None raises.
   */
  datatype Status = Running(storiesToSave: seq<Record>) | Crashed

  /** One iteration of the inner loop, on the status: list the record when dated today, or raise. */
  function StatusStep(status: Status, f: Fetch, today: Day, c: Codecs): Status
  {
    if status.Crashed? then status
    else
      match Process(f.extraction, f.now, c)
      case None => Crashed
      case Some(r) => Running(status.storiesToSave + (if r.storyDate == today then [r] else []))
  }

  /** One iteration of the inner loop, on the store: the dedup-gated write, unless the loop has raised. */
  function StoreStep(db: Db, status: Status, f: Fetch, c: Codecs): Db
  {
    if status.Crashed? then db
    else
      match Process(f.extraction, f.now, c)
      case None => db
      case Some(r) => IngestUnindexed(db, ArticleKey(r.id), r)
  }

  /** One iteration of the inner loop. */
  function LegacyStep(db: Db, status: Status, f: Fetch, today: Day, c: Codecs): (Db, Status)
  {
    (StoreStep(db, status, f, c), StatusStep(status, f, today, c))
  }

  /** The store and the status after the loop has visited `fetches` in order. */
  function LegacyRun(db: Db, fetches: seq<Fetch>, today: Day, c: Codecs): (Db, Status)
  {
    if fetches == [] then (db, Running([]))
    else
      var (mid, status) := LegacyRun(db, fetches[..|fetches| - 1], today, c);
      LegacyStep(mid, status, fetches[|fetches| - 1], today, c)
  }

  /** Once the loop has raised, nothing further happens. */
  lemma {:induction false} LegacyRunCrashedStays(db: Db, done: seq<Fetch>, rest: seq<Fetch>, today: Day, c: Codecs)
    requires LegacyRun(db, done, today, c).1.Crashed?
    ensures LegacyRun(db, done + rest, today, c) == LegacyRun(db, done, today, c)
    decreases |rest|
  {
    if rest == [] {
      assert done + rest == done;
    } else {
      var rest' := rest[..|rest| - 1];
      assert (done + rest)[..|done + rest| - 1] == done + rest';
      LegacyRunCrashedStays(db, done, rest', today, c);
    }
  }

  /** Every fetch of the run was extracted. */
  predicate AllExtracted(fetches: seq<Fetch>)
  {
    forall i :: 0 <= i < |fetches| ==> fetches[i].extraction.Some?
  }

  /** The records the fetches yield, in order. */
  function RecordsOf(fetches: seq<Fetch>, c: Codecs): (r: seq<Record>)
    requires AllExtracted(fetches)
    ensures |r| == |fetches|
    ensures forall i :: 0 <= i < |fetches| ==> r[i] == BuildRecord(fetches[i].extraction.value, fetches[i].now, c)
  {
    if fetches == [] then []
    else RecordsOf(fetches[..|fetches| - 1], c) + [BuildRecord(fetches[|fetches| - 1].extraction.value, fetches[|fetches| - 1].now, c)]
  }

  /** The records of `rs` whose story date is `day`, in order. */
  function OnDay(rs: seq<Record>, day: Day): (r: seq<Record>)
    ensures forall x :: x in r <==> x in rs && x.storyDate == day
  {
    if rs == [] then []
    else OnDay(rs[..|rs| - 1], day) + (if rs[|rs| - 1].storyDate == day then [rs[|rs| - 1]] else [])
  }

  lemma AllExtractedSnoc(fetches: seq<Fetch>)
    requires fetches != []
    ensures AllExtracted(fetches) <==>
              AllExtracted(fetches[..|fetches| - 1]) && fetches[|fetches| - 1].extraction.Some?
  {
  }

  /**
   * The loop raises exactly when some extraction failed. Otherwise the stories to
   * save are the processed records dated on the run's day, in processing order,
   * whatever the store already held: the filter runs before the dedup check, so
   * an article stored by an earlier run is listed again.
   */
  lemma {:induction false} LegacyRunStories(db: Db, fetches: seq<Fetch>, today: Day, c: Codecs)
    ensures LegacyRun(db, fetches, today, c).1
         == if AllExtracted(fetches) then Running(OnDay(RecordsOf(fetches, c), today)) else Crashed
  {
    if fetches != [] {
      var prefix := fetches[..|fetches| - 1];
      var last := fetches[|fetches| - 1];
      LegacyRunStories(db, prefix, today, c);
      AllExtractedSnoc(fetches);
      var status := LegacyRun(db, prefix, today, c).1;
      assert LegacyRun(db, fetches, today, c).1 == StatusStep(status, last, today, c);
      if AllExtracted(fetches) {
        var records := RecordsOf(fetches, c);
        assert records == RecordsOf(prefix, c) + [records[|fetches| - 1]];
      }
    }
  }

  /** This loop never writes the time index. */
  lemma {:induction false} LegacyRunNeverIndexes(db: Db, fetches: seq<Fetch>, today: Day, c: Codecs)
    ensures LegacyRun(db, fetches, today, c).0.articleList == db.articleList
  {
    if fetches != [] {
      LegacyRunNeverIndexes(db, fetches[..|fetches| - 1], today, c);
    }
  }

  /** The loop keeps the store consistent: each distinct id is counted once. */
  lemma {:induction false} LegacyRunPreservesValid(db: Db, fetches: seq<Fetch>, today: Day, c: Codecs)
    requires Valid(db)
    ensures Valid(LegacyRun(db, fetches, today, c).0)
  {
    if fetches != [] {
      var prefix := fetches[..|fetches| - 1];
      LegacyRunPreservesValid(db, prefix, today, c);
      var (mid, status) := LegacyRun(db, prefix, today, c);
      var f := fetches[|fetches| - 1];
      if status.Running? && f.extraction.Some? {
        var r := BuildRecord(f.extraction.value, f.now, c);
        IngestUnindexedPreservesValid(mid, ArticleKey(r.id), r);
      }
    }
  }

  /** A raise at the `j`-th article of paper `i` is the outcome of the whole run. */
  lemma CrashEndsRun(db: Db, papers: seq<seq<Fetch>>, i: nat, j: nat, today: Day, c: Codecs)
    requires i < |papers| && j < |papers[i]|
    requires LegacyRun(db, Flatten(papers[..i]) + papers[i][..j + 1], today, c).1.Crashed?
    ensures LegacyRun(db, Flatten(papers), today, c) == LegacyRun(db, Flatten(papers[..i]) + papers[i][..j + 1], today, c)
  {
    FlattenSplit(papers, i, j);
    LegacyRunCrashedStays(db, Flatten(papers[..i]) + papers[i][..j + 1], papers[i][j + 1..] + Flatten(papers[i + 1..]), today, c);
  }

  /**
   * The body of the inner loop: build the record (raising on a failed
   * extraction), list it when dated today, store and count it when its key is absent.
   */
  method VisitArticle(store: Store, f: Fetch, storiesToSave: seq<Record>, today: Day, c: Codecs)
    returns (raised: bool, stories: seq<Record>)
    modifies store
    ensures raised <==> f.extraction.None?
    ensures store.State() == StoreStep(old(store.State()), Running(storiesToSave), f, c)
    ensures !raised ==> StatusStep(Running(storiesToSave), f, today, c) == Running(stories)
  {
    var articleJson := Process(f.extraction, f.now, c);
    if articleJson.None? {
      return true, storiesToSave;
    }
    raised := false;
    var article := articleJson.value;
    stories := storiesToSave;
    if article.storyDate == today {
      stories := stories + [article];
    }
    var articleKey := ArticleKey(article.id);
    var present := store.Exists(articleKey);
    if !present {
      store.Hmset(articleKey, article);
      store.Zincrby(article.source, article.storyDate);
    }
  }

  /**
   * `scrape_articles`: visit every article of every paper in order; the
   * collected list is what goes to `save_json_file`.
   */
  method ScrapeArticles(store: Store, papers: seq<seq<Fetch>>, today: Day, c: Codecs) returns (status: Status)
    modifies store
    ensures store.State() == LegacyRun(old(store.State()), Flatten(papers), today, c).0
    ensures status == LegacyRun(old(store.State()), Flatten(papers), today, c).1
  {
    var storiesToSave: seq<Record> := [];
    ghost var start := store.State();
    ghost var done: seq<Fetch> := [];
    for i := 0 to |papers|
      invariant done == Flatten(papers[..i])
      invariant (store.State(), Running(storiesToSave)) == LegacyRun(start, done, today, c)
    {
      for j := 0 to |papers[i]|
        invariant done == Flatten(papers[..i]) + papers[i][..j]
        invariant (store.State(), Running(storiesToSave)) == LegacyRun(start, done, today, c)
      {
        var f := papers[i][j];
        ghost var before := store.State();
        ghost var listed := storiesToSave;
        var raised;
        raised, storiesToSave := VisitArticle(store, f, storiesToSave, today, c);
        assert (done + [f])[..|done|] == done;
        assert papers[i][..j + 1] == papers[i][..j] + [f];
        assert LegacyRun(start, done + [f], today, c) == LegacyStep(before, Running(listed), f, today, c);
        done := done + [f];
        if raised {
          assert done == Flatten(papers[..i]) + papers[i][..j + 1];
          assert LegacyRun(start, done, today, c).1 == Crashed;
          assert store.State() == LegacyRun(start, done, today, c).0;
          CrashEndsRun(start, papers, i, j, today, c);
          assert store.State() == LegacyRun(start, Flatten(papers), today, c).0;
          return Crashed;
        }
      }
      assert papers[i][..|papers[i]|] == papers[i];
      FlattenPrefix(papers, i);
    }
    assert papers[..|papers|] == papers;
    status := Running(storiesToSave);
  }
}
