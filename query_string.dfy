/**
 * Rewriting one query parameter of a URL (`_replace_query_param`). The URL is
 * taken already split, with its query as `parse_qs` yields it: an
 * insertion-ordered dictionary from parameter name to its list of values.
 */
module QueryString {

  /** One query parameter: its name and its values. */
  type Param = (string, seq<string>)

  /** A split URL: scheme, network location, path, parsed query, fragment. */
  datatype Url = Url(scheme: string, netloc: string, path: string, query: seq<Param>, fragment: string)

  /** A dictionary holds each name once. */
  predicate DistinctNames(q: seq<Param>)
  {
    forall i, j :: 0 <= i < j < |q| ==> q[i].0 != q[j].0
  }

  /** Python's `<` on `str`: code point by code point, a proper prefix first. */
  predicate Below(a: string, b: string)
  {
    if |a| == 0 then |b| > 0
    else if |b| == 0 then false
    else if a[0] != b[0] then a[0] < b[0]
    else Below(a[1..], b[1..])
  }

  lemma {:induction false} BelowTotal(a: string, b: string)
    requires a != b
    ensures Below(a, b) || Below(b, a)
  {
    if |a| > 0 && |b| > 0 && a[0] == b[0] {
      assert a == [a[0]] + a[1..] && b == [b[0]] + b[1..];
      BelowTotal(a[1..], b[1..]);
    }
  }

  lemma {:induction false} BelowTransitive(a: string, b: string, c: string)
    requires Below(a, b) && Below(b, c)
    ensures Below(a, c)
  {
    if |a| > 0 && a[0] == b[0] && b[0] == c[0] {
      BelowTransitive(a[1..], b[1..], c[1..]);
    }
  }

  /** Names strictly increase along the query. */
  predicate SortedByName(q: seq<Param>)
  {
    forall i, j :: 0 <= i < j < |q| ==> Below(q[i].0, q[j].0)
  }

  /** `query_dict[key] = vals`: replaces the value in place, or appends a new entry. */
  function SetParam(q: seq<Param>, key: string, vals: seq<string>): seq<Param>
  {
    if q == [] then [(key, vals)]
    else if q[0].0 == key then [(key, vals)] + q[1..]
    else [q[0]] + SetParam(q[1..], key, vals)
  }

  /** The tail of a dictionary is a dictionary without the head's name. */
  lemma DistinctTail(q: seq<Param>)
    requires DistinctNames(q) && q != []
    ensures DistinctNames(q[1..])
    ensures forall p :: p in q[1..] ==> p.0 != q[0].0
  {
    var rest := q[1..];
    assert forall i, j :: 0 <= i < j < |rest| ==> rest[i] == q[i + 1] && rest[j] == q[j + 1];
    forall p | p in rest ensures p.0 != q[0].0 {
      var j :| 0 <= j < |rest| && rest[j] == p;
      assert q[j + 1] == p;
    }
  }

  lemma {:induction false} SetParamContents(q: seq<Param>, key: string, vals: seq<string>)
    requires DistinctNames(q)
    ensures DistinctNames(SetParam(q, key, vals))
    ensures forall p :: p in SetParam(q, key, vals) <==> p == (key, vals) || (p in q && p.0 != key)
  {
    if q != [] {
      DistinctTail(q);
      var rest := q[1..];
      assert q == [q[0]] + rest;
      if q[0].0 != key {
        SetParamContents(rest, key, vals);
        var r := SetParam(rest, key, vals);
        forall j | 0 <= j < |r| ensures r[j].0 != q[0].0 {
          assert r[j] in r;
        }
      }
    }
  }

  /** One insertion-sort step: put `p` before the first entry whose name is above its own. */
  function InsertByName(p: Param, q: seq<Param>): seq<Param>
  {
    if q == [] then [p]
    else if Below(p.0, q[0].0) then [p] + q
    else [q[0]] + InsertByName(p, q[1..])
  }

  lemma {:induction false} InsertByNameCorrect(p: Param, q: seq<Param>)
    requires SortedByName(q)
    requires forall i :: 0 <= i < |q| ==> q[i].0 != p.0
    ensures SortedByName(InsertByName(p, q))
    ensures forall x :: x in InsertByName(p, q) <==> x == p || x in q
  {
    if q != [] {
      if Below(p.0, q[0].0) {
        forall j | 0 < j < |q| + 1 ensures Below(p.0, ([p] + q)[j].0) {
          if j > 1 {
            BelowTransitive(p.0, q[0].0, q[j - 1].0);
          }
        }
      } else {
        BelowTotal(p.0, q[0].0);
        var rest := q[1..];
        InsertByNameCorrect(p, rest);
        var r := InsertByName(p, rest);
        forall j | 0 <= j < |r| ensures Below(q[0].0, r[j].0) {
          assert r[j] in r;
          if r[j] != p {
            var k :| 0 <= k < |rest| && rest[k] == r[j];
            assert q[k + 1] == r[j];
          }
        }
        assert q == [q[0]] + rest;
      }
    }
  }

  /** `sorted(...)` of the dictionary's items: by name, the names being distinct. */
  function SortByName(q: seq<Param>): seq<Param>
  {
    if q == [] then [] else InsertByName(q[0], SortByName(q[1..]))
  }

  lemma {:induction false} SortByNameCorrect(q: seq<Param>)
    requires DistinctNames(q)
    ensures SortedByName(SortByName(q))
    ensures forall x :: x in SortByName(q) <==> x in q
  {
    if q != [] {
      var rest := q[1..];
      DistinctTail(q);
      SortByNameCorrect(rest);
      var s := SortByName(rest);
      forall i | 0 <= i < |s| ensures s[i].0 != q[0].0 {
        assert s[i] in s;
      }
      InsertByNameCorrect(q[0], s);
      assert q == [q[0]] + rest;
    }
  }

  /**
   * `_replace_query_param`: `key` gets exactly the one value `val`, every other
   * parameter is kept with its values, the rebuilt query is ordered by name,
   * and the other parts of the URL are unchanged.
   */
  function ReplaceQueryParam(url: Url, key: string, val: string): (r: Url)
    requires DistinctNames(url.query)
    ensures r.scheme == url.scheme && r.netloc == url.netloc && r.path == url.path && r.fragment == url.fragment
    ensures SortedByName(r.query)
    ensures forall p :: p in r.query <==> p == (key, [val]) || (p in url.query && p.0 != key)
  {
    var q := SetParam(url.query, key, [val]);
    SetParamContents(url.query, key, [val]);
    SortByNameCorrect(q);
    Url(url.scheme, url.netloc, url.path, SortByName(q), url.fragment)
  }
}
