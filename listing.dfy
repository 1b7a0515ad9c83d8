/**
 * The list handlers `get_movies` and `get_actors`: the rows whose display
 * field (a movie's title, an actor's name) contains the search term, ignoring
 * case, ordered by that field, cut into pages of ten. The database's choice
 * among rows with equal fields is left open.
 */
module Listing {
  import opened Wrappers
  import opened Text
  import opened Values
  import opened FieldCodec
  import opened Http

  /** `MOVIES_PER_PAGE` and `ACTORS_PER_PAGE`. */
  const PerPage: nat := 10

  /** `field.ilike(f"%{term}%")`, for a term without wildcards: a substring test ignoring ASCII case. */
  predicate Matches(text: string, term: string)
  {
    Contains(LowerAscii(text), LowerAscii(term))
  }

  lemma LowerTwice(s: string)
    ensures LowerAscii(LowerAscii(s)) == LowerAscii(s)
  {
  }

  /** The case of the search term and of the field does not matter. */
  lemma MatchIgnoresCase(text: string, term: string)
    ensures Matches(text, term) == Matches(LowerAscii(text), term) == Matches(text, LowerAscii(term))
  {
    LowerTwice(text);
    LowerTwice(term);
  }

  /** The empty search term matches every field. */
  lemma EmptyTermMatchesAll(text: string)
    ensures Matches(text, "")
  {
    assert "" <= LowerAscii(text)[0..];
  }

  /** The ids of the rows the filter keeps. */
  ghost function Matching<R>(rows: map<int, R>, field: R -> string, term: string): (r: set<int>)
    ensures r <= rows.Keys
  {
    set id | id in rows && Matches(field(rows[id]), term)
  }

  /** `m` is a row of `ids` whose field no other row of `ids` orders before. */
  ghost predicate IsFirst<R>(rows: map<int, R>, field: R -> string, ids: set<int>, m: int)
    requires ids <= rows.Keys
  {
    m in ids && forall j :: j in ids ==> LexLessEq(field(rows[m]), field(rows[j]))
  }

  lemma PickOne(s: set<int>) returns (x: int)
    requires s != {}
    ensures x in s
  {
    if forall y :: y !in s {
      assert false;
    }
    x :| x in s;
  }

  lemma {:induction false} FirstExists<R>(rows: map<int, R>, field: R -> string, ids: set<int>)
    requires ids <= rows.Keys && ids != {}
    ensures exists m :: IsFirst(rows, field, ids, m)
    decreases |ids|
  {
    var x := PickOne(ids);
    var kx := field(rows[x]);
    LexTotal(kx, kx);
    var rest := ids - {x};
    if rest == {} {
      forall j | j in ids
        ensures LexLessEq(kx, field(rows[j]))
      {
        assert j !in rest;
      }
      assert IsFirst(rows, field, ids, x);
    } else {
      FirstExists(rows, field, rest);
      var y :| IsFirst(rows, field, rest, y);
      var ky := field(rows[y]);
      LexTotal(kx, ky);
      if LexLessEq(kx, ky) {
        forall j | j in rest
          ensures LexLessEq(kx, field(rows[j]))
        {
          LexTransitive(kx, ky, field(rows[j]));
        }
        assert IsFirst(rows, field, ids, x);
      } else {
        assert IsFirst(rows, field, ids, y);
      }
    }
  }

  /** `.order_by(field)`: the rows of `ids`, each once, in the order of their fields. */
  ghost function Ordered<R>(rows: map<int, R>, field: R -> string, ids: set<int>): (r: seq<int>)
    requires ids <= rows.Keys
    ensures |r| == |ids|
    ensures forall i :: 0 <= i < |r| ==> r[i] in ids
    ensures forall id :: id in ids ==> id in r
    ensures forall i, j :: 0 <= i < j < |r| ==> r[i] != r[j] && LexLessEq(field(rows[r[i]]), field(rows[r[j]]))
    decreases |ids|
  {
    if ids == {} then []
    else
      FirstExists(rows, field, ids);
      var m :| IsFirst(rows, field, ids, m);
      var rest := Ordered(rows, field, ids - {m});
      [m] + rest
  }

  /** The page number: `request.args.get("page", 1, type=int)`, 1 when absent or not an integer. */
  function PageNumber(page: Option<int>): int
  {
    if page.None? then 1 else page.value
  }

  /** `start = (page - 1) * PER_PAGE`. */
  function Start(page: Option<int>): (r: nat)
    requires PageNumber(page) >= 1
    ensures r % PerPage == 0
  {
    (PageNumber(page) - 1) * PerPage
  }

  /** `.slice(start, end)`: the positions from `start` up to `end`, as far as there are any. */
  function Slice<T>(s: seq<T>, start: nat, end: nat): (r: seq<T>)
    requires start <= end
    ensures |r| == if start >= |s| then 0 else (if end < |s| then end else |s|) - start
    ensures forall i :: 0 <= i < |r| ==> start + i < |s| && r[i] == s[start + i]
  {
    if start >= |s| then [] else s[start..if end < |s| then end else |s|]
  }

  /** The ids on the requested page. */
  ghost function PageIds<R>(rows: map<int, R>, field: R -> string, term: string, page: Option<int>): seq<int>
    requires PageNumber(page) >= 1
  {
    var start := Start(page);
    Slice(Ordered(rows, field, Matching(rows, field, term)), start, start + PerPage)
  }

  /**
   * The payload of the list handlers before `jsonify`: the formatted rows of
   * the page under `listKey`, the number of matches under `countKey`, and the
   * start offset, all keys camel-cased.
   */
  ghost function ListPayload<R>(rows: map<int, R>, field: R -> string, format: (int, R) -> Value,
                                term: string, page: Option<int>, listKey: string, countKey: string): Option<Value>
    requires PageNumber(page) >= 1
  {
    var ids := PageIds(rows, field, term, page);
    assert forall i :: 0 <= i < |ids| ==> ids[i] in rows by {
      var all := Ordered(rows, field, Matching(rows, field, term));
      assert forall i :: 0 <= i < |ids| ==> ids[i] in all;
    }
    var items := seq(|ids|, i requires 0 <= i < |ids| => format(ids[i], rows[ids[i]]));
    CamelCased(Dict([("success", Bool(true)), (listKey, List(items)),
                     (countKey, Int(|Matching(rows, field, term)|)), ("offset", Int(Start(page)))]))
  }

  /** A page holds at most ten rows, each of them a stored row that matches the term. */
  lemma PageRowsMatch<R>(rows: map<int, R>, field: R -> string, term: string, page: Option<int>)
    requires PageNumber(page) >= 1
    ensures var ids := PageIds(rows, field, term, page);
      |ids| <= PerPage && forall i :: 0 <= i < |ids| ==> ids[i] in rows && Matches(field(rows[ids[i]]), term)
  {
    var all := Ordered(rows, field, Matching(rows, field, term));
    var ids := PageIds(rows, field, term, page);
    assert forall i :: 0 <= i < |ids| ==> ids[i] in all;
  }

  /** In the order of the fields, with no row twice. */
  ghost predicate SortedDistinct<R>(rows: map<int, R>, field: R -> string, ids: seq<int>)
    requires forall i :: 0 <= i < |ids| ==> ids[i] in rows
  {
    forall i, j :: 0 <= i < j < |ids| ==> ids[i] != ids[j] && LexLessEq(field(rows[ids[i]]), field(rows[ids[j]]))
  }

  lemma SliceSorted<R>(rows: map<int, R>, field: R -> string, all: seq<int>, start: nat, end: nat)
    requires start <= end
    requires forall i :: 0 <= i < |all| ==> all[i] in rows
    requires SortedDistinct(rows, field, all)
    ensures var ids := Slice(all, start, end);
      (forall i :: 0 <= i < |ids| ==> ids[i] in rows) && SortedDistinct(rows, field, ids)
  {
    var ids := Slice(all, start, end);
    forall i, j | 0 <= i < j < |ids|
      ensures ids[i] != ids[j] && LexLessEq(field(rows[ids[i]]), field(rows[ids[j]]))
    {
      assert ids[i] == all[start + i] && ids[j] == all[start + j];
    }
  }

  /** A page lists distinct rows in the order of their fields. */
  lemma PageSorted<R>(rows: map<int, R>, field: R -> string, term: string, page: Option<int>)
    requires PageNumber(page) >= 1
    ensures var ids := PageIds(rows, field, term, page);
      forall i, j :: 0 <= i < j < |ids| ==> ids[i] in rows && ids[j] in rows && ids[i] != ids[j] && LexLessEq(field(rows[ids[i]]), field(rows[ids[j]]))
  {
    var all := Ordered(rows, field, Matching(rows, field, term));
    var start := Start(page);
    SliceSorted(rows, field, all, start, start + PerPage);
  }

  /**
   * Every matching row is on the page of its rank in the order, at the
   * position the rank leaves after the earlier full pages.
   */
  lemma EveryMatchOnItsPage<R>(rows: map<int, R>, field: R -> string, term: string, id: int) returns (rank: nat)
    requires id in rows && Matches(field(rows[id]), term)
    ensures var all := Ordered(rows, field, Matching(rows, field, term));
      rank < |all| && all[rank] == id
    ensures var ids := PageIds(rows, field, term, Some(rank / PerPage + 1));
      rank % PerPage < |ids| && ids[rank % PerPage] == id
  {
    var all := Ordered(rows, field, Matching(rows, field, term));
    assert id in Matching(rows, field, term);
    rank := FindIndex(all, id);
    var p := Some(rank / PerPage + 1);
    assert Start(p) == rank - rank % PerPage;
    var ids := Slice(all, Start(p), Start(p) + PerPage);
    assert ids == PageIds(rows, field, term, p);
    assert ids[rank % PerPage] == all[rank];
  }

  /** Every matching row is on some page. */
  lemma EveryMatchListed<R>(rows: map<int, R>, field: R -> string, term: string, id: int)
    requires id in rows && Matches(field(rows[id]), term)
    ensures exists n :: n >= 1 && id in PageIds(rows, field, term, Some(n))
  {
    var rank := EveryMatchOnItsPage(rows, field, term, id);
    var n := rank / PerPage + 1;
    assert id in PageIds(rows, field, term, Some(n));
  }

  lemma FindIndex(s: seq<int>, x: int) returns (i: nat)
    requires x in s
    ensures i < |s| && s[i] == x
  {
    if s[0] != x {
      assert x in s[1..];
      i := FindIndex(s[1..], x);
      i := i + 1;
    } else {
      i := 0;
    }
  }

  /** Pages before the last one are full; a page past the matches is empty. */
  lemma PageSizes<R>(rows: map<int, R>, field: R -> string, term: string, p: nat)
    ensures var n := |Matching(rows, field, term)|;
      var ids := PageIds(rows, field, term, Some(p + 1));
      && ((p + 1) * PerPage <= n ==> |ids| == PerPage)
      && (p * PerPage >= n ==> ids == [])
  {
  }

  /** The response of a list handler: 200 with the payload. */
  ghost function ListResponse<R>(rows: map<int, R>, field: R -> string, format: (int, R) -> Value,
                                 term: string, page: Option<int>, listKey: string, countKey: string): Response
    requires PageNumber(page) >= 1
  {
    Response(200, None, ListPayload(rows, field, format, term, page, listKey, countKey))
  }
}
