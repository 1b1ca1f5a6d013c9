/** Values shared by the scrapers, the store and the read API. */
module Base {

  datatype Option<+T> = None | Some(value: T)

  /** A calendar date as a day number: consecutive dates differ by one. */
  type Day = int

  /** What `datetime.time()` yields; never inspected, only stored. */
  datatype TimeOfDay = TimeOfDay(hour: int, minute: int, second: int, microsecond: int)

  /** A `datetime`: its calendar date and its time of day. */
  datatype Instant = Instant(day: Day, time: TimeOfDay)

  /**
   * The article record stored under `article:<id>` and written to the
   * per-source output file. Dates are kept as values rather than as their
   * `str(...)` renderings; the `'|'`-joined lists are kept as the joined strings.
   */
  datatype Record = Record(
    id: string,
    currentDate: Instant,
    authors: string,
    storyDate: Day,
    storyTime: TimeOfDay,
    body: string,
    title: string,
    url: string,
    source: string,
    category: string,
    topics: string,
    summary: string)

  /** The concatenation of a list of lists, in order (a nested `for` loop's visiting order). */
  function Flatten<T>(groups: seq<seq<T>>): seq<T>
  {
    if groups == [] then [] else Flatten(groups[..|groups| - 1]) + groups[|groups| - 1]
  }

  lemma {:induction false} FlattenAppend<T>(a: seq<seq<T>>, b: seq<seq<T>>)
    ensures Flatten(a + b) == Flatten(a) + Flatten(b)
    decreases |b|
  {
    if b == [] {
      assert a + b == a;
    } else {
      var b' := b[..|b| - 1];
      assert (a + b)[..|a + b| - 1] == a + b';
      FlattenAppend(a, b');
    }
  }

  /** Flattening the groups before group `i`, then group `i`, gives the groups up to `i`. */
  lemma FlattenPrefix<T>(groups: seq<seq<T>>, i: nat)
    requires i < |groups|
    ensures Flatten(groups[..i + 1]) == Flatten(groups[..i]) + groups[i]
  {
    assert groups[..i + 1][..i] == groups[..i];
  }

  /** Where element `j` of group `i` sits in the whole flattened sequence. */
  lemma FlattenSplit<T>(groups: seq<seq<T>>, i: nat, j: nat)
    requires i < |groups| && j < |groups[i]|
    ensures Flatten(groups) == Flatten(groups[..i]) + groups[i][..j + 1] + (groups[i][j + 1..] + Flatten(groups[i + 1..]))
  {
    assert groups == groups[..i] + [groups[i]] + groups[i + 1..];
    FlattenAppend(groups[..i] + [groups[i]], groups[i + 1..]);
    FlattenAppend(groups[..i], [groups[i]]);
    assert Flatten([groups[i]]) == groups[i] by {
      assert [groups[i]][..0] == [];
    }
    assert groups[i] == groups[i][..j + 1] + groups[i][j + 1..];
  }
}
