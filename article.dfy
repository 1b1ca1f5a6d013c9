/**
 * Turning the extractor's output into an article record, as both scrapers do
 * (`get_processed_article_data` and `process_article` build the same record).
 */
module Article {
  import opened Base

  /** The fields the article extractor provides once download, parse and nlp succeed. */
  datatype Extracted = Extracted(
    title: string,
    publishDate: Option<Instant>,
    authors: seq<string>,
    tags: seq<string>,
    keywords: seq<string>,
    text: string,
    url: string,
    summary: string)

  /**
   * Functions the construction calls but whose internals are not modelled:
   * the md5 hex digest, `urlparse(url).netloc`, and `str()` of a datetime.
   */
  datatype Codecs = Codecs(md5Hex: string -> string, netloc: string -> string, showInstant: Instant -> string)

  /** The separator the scrapers join lists with. */
  const Separator: char := '|'

  /** `'|'.join(parts)`. */
  function Join(parts: seq<string>): string
  {
    if |parts| == 0 then ""
    else if |parts| == 1 then parts[0]
    else parts[0] + [Separator] + Join(parts[1..])
  }

  /** `s.split('|')`: the pieces between separators, always at least one. */
  function Split(s: string): (r: seq<string>)
    ensures |r| >= 1
  {
    if s == [] then [""]
    else
      var rest := Split(s[1..]);
      if s[0] == Separator then [""] + rest
      else [[s[0]] + rest[0]] + rest[1..]
  }

  lemma {:induction false} SplitWithoutSeparator(x: string)
    requires Separator !in x
    ensures Split(x) == [x]
  {
    if x != [] {
      SplitWithoutSeparator(x[1..]);
      assert [x[0]] + x[1..] == x;
    }
  }

  lemma {:induction false} SplitAtFirstSeparator(x: string, y: string)
    requires Separator !in x
    ensures Split(x + [Separator] + y) == [x] + Split(y)
  {
    if x == [] {
      assert x + [Separator] + y == [Separator] + y;
      assert ([Separator] + y)[1..] == y;
    } else {
      var s := x + [Separator] + y;
      assert s[1..] == x[1..] + [Separator] + y;
      SplitAtFirstSeparator(x[1..], y);
      assert [x[0]] + x[1..] == x;
    }
  }

  /**
   * The stored `'|'`-joined string gives back the extractor's list, in its
   * order, when no element contains the separator.
   */
  lemma {:induction false} SplitJoin(parts: seq<string>)
    requires |parts| >= 1
    requires forall i :: 0 <= i < |parts| ==> Separator !in parts[i]
    ensures Split(Join(parts)) == parts
  {
    if |parts| == 1 {
      SplitWithoutSeparator(parts[0]);
    } else {
      SplitJoin(parts[1..]);
      SplitAtFirstSeparator(parts[0], Join(parts[1..]));
      assert [parts[0]] + parts[1..] == parts;
    }
  }

  /** An element holding the separator cannot be told apart from two elements. */
  lemma JoinConflatesSeparatorInName()
    ensures Join(["a|b"]) == Join(["a", "b"])
  {
  }

  /** The publish moment the record uses: the extractor's, or the processing moment when it has none. */
  function PublishMoment(a: Extracted, now: Instant): Instant
  {
    match a.publishDate
    case Some(t) => t
    case None => now
  }

  /** The string the id is the digest of: title, then `str(publish_date)`, then the joined authors. */
  function Identifier(title: string, published: Instant, authors: seq<string>, c: Codecs): string
  {
    title + c.showInstant(published) + Join(authors)
  }

  /** The record built from a successful extraction processed at `now`. */
  function BuildRecord(a: Extracted, now: Instant, c: Codecs): Record
  {
    var published := PublishMoment(a, now);
    Record(
      id := c.md5Hex(Identifier(a.title, published, a.authors, c)),
      currentDate := now,
      authors := Join(a.authors),
      storyDate := published.day,
      storyTime := published.time,
      body := a.text,
      title := a.title,
      url := a.url,
      source := c.netloc(a.url),
      category := Join(a.tags),
      topics := Join(a.keywords),
      summary := a.summary)
  }

  /** Extraction, then record construction; an `ArticleException` gives no record. */
  function Process(extraction: Option<Extracted>, now: Instant, c: Codecs): (r: Option<Record>)
    ensures r.None? <==> extraction.None?
    ensures r.Some? ==> r.value.source == c.netloc(extraction.value.url)
  {
    match extraction
    case None => None
    case Some(a) => Some(BuildRecord(a, now, c))
  }

  /**
   * The id depends only on the title, the publish timestamp and the ordered
   * author list: two extractions agreeing on those get the same id, whenever
   * and however often they are processed, and whatever their other fields.
   */
  lemma SameIdentitySameId(a1: Extracted, a2: Extracted, now1: Instant, now2: Instant, c: Codecs)
    requires a1.title == a2.title && a1.authors == a2.authors
    requires a1.publishDate == a2.publishDate && a1.publishDate.Some?
    ensures BuildRecord(a1, now1, c).id == BuildRecord(a2, now2, c).id
  {
  }

  /**
   * With no publish date the record is dated by the processing moment, and the
   * id is taken over that moment: it is a fallback, not a failure.
   */
  lemma UndatedUsesProcessingMoment(a: Extracted, now: Instant, c: Codecs)
    requires a.publishDate.None?
    ensures BuildRecord(a, now, c).storyDate == now.day
    ensures BuildRecord(a, now, c).storyTime == now.time
    ensures BuildRecord(a, now, c).id == c.md5Hex(a.title + c.showInstant(now) + Join(a.authors))
  {
  }

  /**
   * Authors, tags and keywords are stored joined in the extractor's order:
   * splitting a stored string gives its list back, for each list that is
   * non-empty and free of the separator, whatever the other two lists hold.
   */
  lemma ListsStoredInOrder(a: Extracted, now: Instant, c: Codecs)
    ensures |a.authors| >= 1 && (forall i :: 0 <= i < |a.authors| ==> Separator !in a.authors[i]) ==>
              Split(BuildRecord(a, now, c).authors) == a.authors
    ensures |a.tags| >= 1 && (forall i :: 0 <= i < |a.tags| ==> Separator !in a.tags[i]) ==>
              Split(BuildRecord(a, now, c).category) == a.tags
    ensures |a.keywords| >= 1 && (forall i :: 0 <= i < |a.keywords| ==> Separator !in a.keywords[i]) ==>
              Split(BuildRecord(a, now, c).topics) == a.keywords
  {
    if |a.authors| >= 1 && forall i :: 0 <= i < |a.authors| ==> Separator !in a.authors[i] {
      SplitJoin(a.authors);
    }
    if |a.tags| >= 1 && forall i :: 0 <= i < |a.tags| ==> Separator !in a.tags[i] {
      SplitJoin(a.tags);
    }
    if |a.keywords| >= 1 && forall i :: 0 <= i < |a.keywords| ==> Separator !in a.keywords[i] {
      SplitJoin(a.keywords);
    }
  }

  /**
   * The author list is not re-sorted before hashing: two different author names
   * listed in the other order give a different identifier string.
   */
  lemma AuthorOrderChangesIdentifier(title: string, published: Instant, x: string, y: string, c: Codecs)
    requires x != y && Separator !in x && Separator !in y
    ensures Identifier(title, published, [x, y], c) != Identifier(title, published, [y, x], c)
  {
    var prefix := title + c.showInstant(published);
    var xy, yx := Join([x, y]), Join([y, x]);
    SplitJoin([x, y]);
    SplitJoin([y, x]);
    assert Split(xy)[0] != Split(yx)[0];
    assert (prefix + xy)[|prefix|..] == xy;
    assert (prefix + yx)[|prefix|..] == yx;
  }
}
