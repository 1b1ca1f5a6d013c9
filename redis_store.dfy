/**
 * The Redis database the ingestion path writes and the read API queries,
 * reduced to the three structures the code relies on:
 *   - the article hashes `article:<id>`, as a map from key to record;
 *   - one sorted set `summary:<source>` per source, from story date to count;
 *   - the sorted set `ARTICLE_LIST`, from article key to ingestion score.
 * Redis keeps these in one key space; here they are three separate maps.
 */
module RedisStore {
  import opened Base

  type Key = string

  /** One `summary:<source>` sorted set: story date to number of articles. */
  type Counters = map<Day, int>

  /** Every `summary:<source>` sorted set, by source host name. */
  type Summaries = map<string, Counters>

  /** `ARTICLE_KEY.format(id=...)`: the hash key of an article record. */
  function ArticleKey(id: string): Key
  {
    "article:" + id
  }

  datatype Db = Db(records: map<Key, Record>, summaries: Summaries, articleList: map<Key, int>)

  /** ZSCORE on one counter set, an absent member read as 0 (as the API's `if cur_count` does). */
  function Score(counters: Counters, day: Day): int
  {
    if day in counters then counters[day] else 0
  }

  /** ZSCORE summary:<source> <day>, an absent set or member read as 0. */
  function Count(summaries: Summaries, source: string, day: Day): int
  {
    if source in summaries then Score(summaries[source], day) else 0
  }

  /** ZINCRBY summary:<source> 1 <day>: the set and the member are created when absent. */
  function Incremented(summaries: Summaries, source: string, day: Day): (r: Summaries)
    ensures r.Keys == summaries.Keys + {source}
    ensures day in r[source]
    ensures Count(r, source, day) == Count(summaries, source, day) + 1
    ensures forall s, d :: (s != source || d != day) ==> Count(r, s, d) == Count(summaries, s, d)
  {
    var counters := if source in summaries then summaries[source] else map[];
    summaries[source := counters[day := Count(summaries, source, day) + 1]]
  }

  /** The number of stored articles from `source` whose story date is `day`. */
  ghost function Tally(records: map<Key, Record>, source: string, day: Day): nat
  {
    |set k | k in records && records[k].source == source && records[k].storyDate == day|
  }

  /**
   * The counters count distinct records: every (source, date) counter equals the
   * number of stored records with that source and story date, and a
   * `summary:<source>` set exists only once an article from that source was stored.
   */
  ghost predicate CountersValid(records: map<Key, Record>, summaries: Summaries)
  {
    && (forall s, d :: Count(summaries, s, d) == Tally(records, s, d))
    && (forall s :: s in summaries ==> exists k :: k in records && records[k].source == s)
  }

  /** The store invariant: the counters count records and every indexed key has a record. */
  ghost predicate Valid(db: Db)
  {
    && CountersValid(db.records, db.summaries)
    && (forall k :: k in db.articleList ==> k in db.records)
  }

  lemma EmptyIsValid()
    ensures Valid(Db(map[], map[], map[]))
  {
  }

  /** Storing a new record adds one to exactly the tally of its own (source, date). */
  lemma TallyInsert(records: map<Key, Record>, key: Key, data: Record, source: string, day: Day)
    requires key !in records
    ensures Tally(records[key := data], source, day)
         == Tally(records, source, day) + (if data.source == source && data.storyDate == day then 1 else 0)
  {
    var after := records[key := data];
    var old_ := set k | k in records && records[k].source == source && records[k].storyDate == day;
    var new_ := set k | k in after && after[k].source == source && after[k].storyDate == day;
    if data.source == source && data.storyDate == day {
      assert new_ == old_ + {key};
    } else {
      assert new_ == old_;
    }
  }

  /**
   * The dedup gate keeps the counters exact: writing a record under a key that
   * was absent and incrementing its (source, date) counter preserves CountersValid.
   */
  lemma InsertKeepsCountersValid(records: map<Key, Record>, summaries: Summaries, key: Key, data: Record)
    requires CountersValid(records, summaries)
    requires key !in records
    ensures CountersValid(records[key := data], Incremented(summaries, data.source, data.storyDate))
  {
    var r := Incremented(summaries, data.source, data.storyDate);
    forall s, d ensures Count(r, s, d) == Tally(records[key := data], s, d) {
      TallyInsert(records, key, data, s, d);
    }
    var after := records[key := data];
    forall s | s in r ensures exists k :: k in after && after[k].source == s {
      if s == data.source {
        assert key in after;
      } else {
        var k :| k in records && records[k].source == s;
        assert k in after && after[k].source == s;
      }
    }
  }

  /**
   * `summary:<source>` exists exactly when some stored article came from `source`:
   * the "Stats not found" answer means the source was never ingested.
   */
  lemma SourceKnownIffIngested(db: Db, source: string)
    requires Valid(db)
    ensures source in db.summaries <==> exists k :: k in db.records && db.records[k].source == source
  {
    if exists k :: k in db.records && db.records[k].source == source {
      var k :| k in db.records && db.records[k].source == source;
      var d := db.records[k].storyDate;
      var matching := set k' | k' in db.records && db.records[k'].source == source && db.records[k'].storyDate == d;
      assert k in matching;
      assert Tally(db.records, source, d) > 0;
      assert Count(db.summaries, source, d) > 0;
    }
  }

  /**
   * `view` lists each member of the time index once, by non-decreasing score:
   * the order ZRANGE reads (the order among equal scores is left open).
   */
  ghost predicate ListedInScoreOrder(view: seq<Key>, articleList: map<Key, int>)
  {
    && (forall i, j :: 0 <= i < j < |view| ==> view[i] != view[j])
    && (forall k :: k in view <==> k in articleList)
    && (forall i, j :: 0 <= i < j < |view| ==> articleList[view[i]] <= articleList[view[j]])
  }

  /**
   * Adding a new member whose score is above every present score extends an
   * ordered listing at its end ...
   */
  lemma ZaddLatestAppends(view: seq<Key>, articleList: map<Key, int>, key: Key, score: int)
    requires ListedInScoreOrder(view, articleList)
    requires key !in articleList
    requires forall k :: k in articleList ==> articleList[k] < score
    ensures ListedInScoreOrder(view + [key], articleList[key := score])
  {
  }

  lemma LastHoldsTopScore(view: seq<Key>, articleList: map<Key, int>)
    requires ListedInScoreOrder(view, articleList) && view != []
    ensures forall j :: 0 <= j < |view| ==> articleList[view[j]] <= articleList[view[|view| - 1]]
  {
    assert view[|view| - 1] in view;
  }

  /** Dropping a last entry that is the only new key gives an ordered listing of the old index. */
  lemma DropNewLast(view: seq<Key>, articleList: map<Key, int>, key: Key, score: int)
    requires key !in articleList
    requires ListedInScoreOrder(view, articleList[key := score])
    requires view != [] && view[|view| - 1] == key
    ensures ListedInScoreOrder(view[..|view| - 1], articleList)
  {
    var last := |view| - 1;
    var prefix := view[..last];
    assert forall j :: 0 <= j < last ==> prefix[j] == view[j] && view[j] != key;
    forall k | k in articleList ensures k in prefix {
      assert k in view;
      var j :| 0 <= j < |view| && view[j] == k;
      assert prefix[j] == k;
    }
  }

  /**
   * ... and every ordered listing of the new index is a listing of the old one
   * followed by the new key: the entries already listed keep their positions
   * relative to each other, and the new key is read last.
   */
  lemma ZaddLatestListedLast(view: seq<Key>, articleList: map<Key, int>, key: Key, score: int)
    requires key !in articleList
    requires forall k :: k in articleList ==> articleList[k] < score
    requires ListedInScoreOrder(view, articleList[key := score])
    ensures view != [] && view[|view| - 1] == key
    ensures ListedInScoreOrder(view[..|view| - 1], articleList)
  {
    var after := articleList[key := score];
    assert key in after;
    var i :| 0 <= i < |view| && view[i] == key;
    LastHoldsTopScore(view, after);
    assert after[key] <= after[view[|view| - 1]];
    DropNewLast(view, articleList, key, score);
  }

  /** The Redis connection, holding the three structures as fields. */
  class Store {
    var records: map<Key, Record>
    var summaries: Summaries
    var articleList: map<Key, int>

    /** The store's contents as a value. */
    function State(): Db
      reads this
    {
      Db(records, summaries, articleList)
    }

    /** An empty database, as before any run has stored anything. */
    constructor ()
      ensures State() == Db(map[], map[], map[])
      ensures Valid(State())
    {
      records, summaries, articleList := map[], map[], map[];
      EmptyIsValid();
    }

    /** EXISTS on an article-hash key. */
    method Exists(key: Key) returns (present: bool)
      ensures present <==> key in records
    {
      present := key in records;
    }

    /** HMSET key mapping: the hash is (re)written with the record's fields. */
    method Hmset(key: Key, data: Record)
      modifies this
      ensures State() == old(State()).(records := old(records)[key := data])
    {
      records := records[key := data];
    }

    /** ZINCRBY summary:<source> 1 <day>. */
    method Zincrby(source: string, day: Day)
      modifies this
      ensures State() == old(State()).(summaries := Incremented(old(summaries), source, day))
    {
      summaries := Incremented(summaries, source, day);
    }

    /** ZADD ARTICLE_LIST {key: score}: adds the member or replaces its score. */
    method Zadd(key: Key, score: int)
      modifies this
      ensures State() == old(State()).(articleList := old(articleList)[key := score])
    {
      articleList := articleList[key := score];
    }
  }
}
