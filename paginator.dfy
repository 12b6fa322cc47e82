/** The pagination contract of the bodies API (`PaginatedResponse` and its
    class methods): how many pages a result set has, which neighbour pages
    exist, which query parameters are echoed into the neighbour links, and the
    response record that carries them. Every method of the source is a
    stateless class method, so each is a function here. */
module Paginator {
  import opened Wrappers

  /** `r` is the ceiling of the rational quotient `a / b` (for `b != 0`):
      `r - 1 < a / b <= r`, with both sides multiplied out by `b`. */
  ghost predicate IsCeilingQuotient(r: int, a: int, b: int) {
    || (b > 0 && b * (r - 1) < a <= b * r)
    || (b < 0 && b * r <= a < b * (r - 1))
  }

  /** `get_total_pages`: `ceil(count / limit)`, and 0 when the division by
      zero is caught. */
  function TotalPages(count: int, limit: int): (pages: int)
    ensures limit == 0 ==> pages == 0
    ensures limit != 0 ==> IsCeilingQuotient(pages, count, limit)
  {
    if limit == 0 then 0
    else if limit > 0 then
      // Dafny's `/` rounds down for a positive divisor, so negate twice.
      var q := (-count) / limit;
      assert -count == limit * q + (-count) % limit;
      -q
    else
      // For a negative divisor Dafny's Euclidean `/` already rounds up.
      var q := count / limit;
      assert count == limit * q + count % limit;
      q
  }

  /** A positive factor can be cancelled from both sides of a strict
      inequality. */
  lemma CancelPositiveFactor(b: int, x: int, y: int)
    requires b > 0 && b * x < b * y
    ensures x < y
  {
    assert b * (y - x) == b * y - b * x;
  }

  /** At most one integer is the ceiling of a quotient. */
  lemma CeilingQuotientUnique(r1: int, r2: int, a: int, b: int)
    requires IsCeilingQuotient(r1, a, b) && IsCeilingQuotient(r2, a, b)
    ensures r1 == r2
  {
    if b > 0 {
      CancelPositiveFactor(b, r1 - 1, r2);
      CancelPositiveFactor(b, r2 - 1, r1);
    } else {
      assert (-b) * (r1 - 1) == -(b * (r1 - 1)) && (-b) * r2 == -(b * r2);
      assert (-b) * (r2 - 1) == -(b * (r2 - 1)) && (-b) * r1 == -(b * r1);
      CancelPositiveFactor(-b, r1 - 1, r2);
      CancelPositiveFactor(-b, r2 - 1, r1);
    }
  }

  /** For a positive page size the page count is the integer formula
      `(count + limit - 1) / limit`. */
  lemma TotalPagesFormula(count: int, limit: int)
    requires limit > 0
    ensures TotalPages(count, limit) == (count + limit - 1) / limit
  {
    var q := (count + limit - 1) / limit;
    var m := (count + limit - 1) % limit;
    assert count + limit - 1 == limit * q + m;
    assert limit * (q - 1) == limit * q - limit;
    assert IsCeilingQuotient(q, count, limit);
    CeilingQuotientUnique(TotalPages(count, limit), q, count, limit);
  }

  /** The ceiling property of the page count for a positive page size,
      without the case split on the sign of the divisor. */
  lemma TotalPagesCeiling(count: int, limit: int)
    requires limit > 0
    ensures limit * TotalPages(count, limit) - limit < count <= limit * TotalPages(count, limit)
  {
    var p := TotalPages(count, limit);
    assert limit * (p - 1) == limit * p - limit;
  }

  /** With a positive page size, a result set of `count` records has no
      pages when it is empty, at least one otherwise, and never more pages
      than records. */
  lemma TotalPagesBounds(count: int, limit: int)
    requires count >= 0 && limit > 0
    ensures count == 0 ==> TotalPages(count, limit) == 0
    ensures count > 0 ==> 1 <= TotalPages(count, limit) <= count
  {
    TotalPagesCeiling(count, limit);
    CeilingBounds(count, limit, TotalPages(count, limit));
  }

  lemma CeilingBounds(count: int, limit: int, p: int)
    requires count >= 0 && limit > 0
    requires limit * p - limit < count <= limit * p
    ensures count == 0 ==> p == 0
    ensures count > 0 ==> 1 <= p <= count
  {
    assert limit * (-1) == -limit;
    CancelPositiveFactor(limit, -1, p);
    if count == 0 {
      assert limit * 1 == limit;
      CancelPositiveFactor(limit, p, 1);
    } else {
      assert limit * 0 == 0;
      CancelPositiveFactor(limit, 0, p);
      assert count <= limit * count by { assert limit * count - count == (limit - 1) * count; }
      assert limit * (p - 1) == limit * p - limit;
      CancelPositiveFactor(limit, p - 1, count);
    }
  }

  /** `get_next_page`: no next page on or after the last page, otherwise the
      page after the current one. */
  function NextPage(currentPage: int, count: int, limit: int): (next: Option<int>)
    ensures next.None? <==> currentPage >= TotalPages(count, limit)
    ensures next.Some? ==> next.value == currentPage + 1
  {
    var totalPages := TotalPages(count, limit);
    if currentPage == totalPages || currentPage > totalPages then None
    else Some(currentPage + 1)
  }

  /** `get_previous_page`: no previous page on page 1 or more than one page
      past the last page, otherwise the page before the current one. */
  function PreviousPage(currentPage: int, count: int, limit: int): (previous: Option<int>)
    ensures previous.None? <==> currentPage == 1 || currentPage > TotalPages(count, limit) + 1
    ensures previous.Some? ==> previous.value == currentPage - 1
  {
    var totalPages := TotalPages(count, limit);
    if currentPage == 1 || currentPage > totalPages + 1 then None
    else Some(currentPage - 1)
  }

  /** Going forward from a real page and then back returns to it. */
  lemma NextThenPrevious(currentPage: int, count: int, limit: int)
    requires currentPage >= 1 && NextPage(currentPage, count, limit).Some?
    ensures PreviousPage(NextPage(currentPage, count, limit).value, count, limit) == Some(currentPage)
  {
  }

  /** Going back and then forward returns to the current page unless the
      current page is the one page past the end that still has a previous
      page. */
  lemma PreviousThenNext(currentPage: int, count: int, limit: int)
    requires PreviousPage(currentPage, count, limit).Some?
    ensures currentPage <= TotalPages(count, limit)
        <==> NextPage(PreviousPage(currentPage, count, limit).value, count, limit) == Some(currentPage)
  {
  }

  /** From any page from 1 on, the neighbour pages that exist are real
      pages: between 1 and the last page. */
  lemma NeighboursInRange(currentPage: int, count: int, limit: int)
    requires currentPage >= 1 && count >= 0 && limit > 0
    ensures NextPage(currentPage, count, limit).Some? ==>
      2 <= NextPage(currentPage, count, limit).value <= TotalPages(count, limit)
    ensures PreviousPage(currentPage, count, limit).Some? ==>
      1 <= PreviousPage(currentPage, count, limit).value <= TotalPages(count, limit)
  {
    TotalPagesBounds(count, limit);
  }

  /** On page 1 of a result set that fits in one page there is neither a
      next nor a previous page (the empty result set included). */
  lemma SinglePageHasNoNeighbours(count: int, limit: int)
    requires 0 <= count <= limit && limit > 0
    ensures NextPage(1, count, limit) == None
    ensures PreviousPage(1, count, limit) == None
  {
    TotalPagesCeiling(count, limit);
    var p := TotalPages(count, limit);
    assert limit * (p - 1) == limit * p - limit && limit * 1 == limit;
    CancelPositiveFactor(limit, p - 1, 1);
  }

  /** On page 1 of a result set larger than one page, page 2 is next. */
  lemma FirstPageOfLargerSetHasNext(count: int, limit: int)
    requires count > limit > 0
    ensures NextPage(1, count, limit) == Some(2)
  {
    TotalPagesCeiling(count, limit);
    assert limit * 1 == limit;
    CancelPositiveFactor(limit, 1, TotalPages(count, limit));
  }

  /** A value echoed into a query string: the query record holds integers,
      floats (modelled as reals) and strings. */
  datatype Value = IntValue(i: int) | RealValue(x: real) | StrValue(s: string)

  /** A field of a query record as `dict(query).items()` yields it: its name
      and its value, `None` when absent. */
  type Field = (string, Option<Value>)

  /** A query-string parameter to echo: a name and a present value. */
  type Param = (string, Value)

  /** No name occurs twice, as in a Python dict. */
  predicate DistinctNames<V>(entries: seq<(string, V)>) {
    forall i, j :: 0 <= i < j < |entries| ==> entries[i].0 != entries[j].0
  }

  /** `get_query_params_dict`: the fields whose value is not `None`, with
      their values unwrapped, in the record's field order. */
  function QueryParams(fields: seq<Field>): (params: seq<Param>)
    ensures |params| <= |fields|
    ensures forall p {:trigger p in params} :: p in params <==> (p.0, Some(p.1)) in fields
  {
    if |fields| == 0 then []
    else
      var rest := QueryParams(fields[1..]);
      assert forall f :: f in fields <==> f == fields[0] || f in fields[1..];
      match fields[0].1
      case None => rest
      case Some(v) => [(fields[0].0, v)] + rest
  }

  /** Filtering keeps the relative order of the fields: it distributes over
      concatenation. */
  lemma {:induction false} QueryParamsAppend(a: seq<Field>, b: seq<Field>)
    ensures QueryParams(a + b) == QueryParams(a) + QueryParams(b)
  {
    if |a| > 0 {
      assert (a + b)[0] == a[0];
      assert (a + b)[1..] == a[1..] + b;
      QueryParamsAppend(a[1..], b);
    } else {
      assert a + b == b;
    }
  }

  /** Every echoed name is the name of one of the fields. */
  lemma ParamNamesAreFieldNames(fields: seq<Field>, i: int)
    requires 0 <= i < |QueryParams(fields)|
    ensures exists j :: 0 <= j < |fields| && fields[j].0 == QueryParams(fields)[i].0
  {
    var p := QueryParams(fields)[i];
    assert p in QueryParams(fields);
    assert (p.0, Some(p.1)) in fields;
  }

  /** A record with distinct field names gives a dict with distinct names. */
  lemma {:induction false} QueryParamsDistinct(fields: seq<Field>)
    requires DistinctNames(fields)
    ensures DistinctNames(QueryParams(fields))
  {
    if |fields| > 0 {
      var rest := QueryParams(fields[1..]);
      assert DistinctNames(fields[1..]) by {
        forall i, j | 0 <= i < j < |fields[1..]| ensures fields[1..][i].0 != fields[1..][j].0 {
          assert fields[1..][i] == fields[i + 1] && fields[1..][j] == fields[j + 1];
        }
      }
      QueryParamsDistinct(fields[1..]);
      if fields[0].1.Some? {
        var params := QueryParams(fields);
        assert params == [(fields[0].0, fields[0].1.value)] + rest;
        forall j | 1 <= j < |params| ensures params[0].0 != params[j].0 {
          assert params[j] == rest[j - 1];
          ParamNamesAreFieldNames(fields[1..], j - 1);
          var k :| 0 <= k < |fields[1..]| && fields[1..][k].0 == rest[j - 1].0;
          assert fields[1..][k] == fields[k + 1];
        }
      }
    }
  }

  /** In a record with distinct field names, a field is echoed under its
      name exactly when it holds a value, and then with that value. */
  lemma EchoedField(fields: seq<Field>, i: int)
    requires DistinctNames(fields) && 0 <= i < |fields|
    ensures forall v :: (fields[i].0, v) in QueryParams(fields) <==> fields[i].1 == Some(v)
  {
    forall v ensures (fields[i].0, v) in QueryParams(fields) <==> fields[i].1 == Some(v) {
      if (fields[i].0, v) in QueryParams(fields) {
        var j :| 0 <= j < |fields| && fields[j] == (fields[i].0, Some(v));
        assert i == j;
      }
      if fields[i].1 == Some(v) {
        assert fields[i] == (fields[i].0, Some(v));
      }
    }
  }

  /** `PaginatedResponse`: the total count, the two neighbour links and the
      page of results. */
  datatype PaginatedResponse<T> = PaginatedResponse(
    count: int,
    nextPage: Option<string>,
    previousPage: Option<string>,
    results: seq<T>)

  /** The two URL-building collaborators: `request.url_for(name=, page=)`
      resolving a named route and page into a URL, and
      `furl(url).add(params).url` appending query parameters to a URL. */
  datatype Router = Router(
    urlFor: (string, int) -> string,
    addQuery: (string, seq<Param>) -> string)

  /** The truthiness gate of `get_next_page_url` / `get_previous_page_url`:
      a URL is built only for a page number that is present and non-zero. */
  function PageUrl(router: Router, name: string, page: Option<int>): (url: Option<string>)
    ensures url.Some? <==> page.Some? && page.value != 0
    ensures url.Some? ==> url.value == router.urlFor(name, page.value)
  {
    match page
    case Some(n) => if n != 0 then Some(router.urlFor(name, n)) else None
    case None => None
  }

  /** `get_next_page_url`: a link to the next page, present before the last
      page except from page -1, whose next page is the falsy page 0. */
  function NextPageUrl(router: Router, name: string, currentPage: int, count: int, limit: int): (url: Option<string>)
    ensures url.Some? <==> currentPage < TotalPages(count, limit) && currentPage != -1
    ensures url.Some? ==> url.value == router.urlFor(name, currentPage + 1)
  {
    PageUrl(router, name, NextPage(currentPage, count, limit))
  }

  /** `get_previous_page_url`: a link to the previous page exactly when the
      previous page exists (its only falsy value, page 0, is already ruled
      out on page 1). */
  function PreviousPageUrl(router: Router, name: string, currentPage: int, count: int, limit: int): (url: Option<string>)
    ensures url.Some? <==> PreviousPage(currentPage, count, limit).Some?
    ensures url.Some? ==> url.value == router.urlFor(name, currentPage - 1)
  {
    PageUrl(router, name, PreviousPage(currentPage, count, limit))
  }

  /** `furl(url).add(params).url`, with an absent URL staying absent. */
  function WithQuery(router: Router, url: Option<string>, params: seq<Param>): (link: Option<string>)
    ensures link.Some? <==> url.Some?
    ensures link.Some? ==> link.value == router.addQuery(url.value, params)
  {
    if url.Some? then Some(router.addQuery(url.value, params)) else None
  }

  /** `paginate`: the count and the items are passed through unchanged; the
      two links point at the neighbour pages of the named route and carry
      every present query parameter. */
  function Paginate<T>(router: Router, name: string, items: seq<T>, count: int, currentPage: int,
                       query: seq<Field>, limit: int): (r: PaginatedResponse<T>)
    ensures r.count == count && r.results == items
    ensures r.nextPage.Some? <==> currentPage < TotalPages(count, limit) && currentPage != -1
    ensures r.nextPage.Some? ==>
      r.nextPage.value == router.addQuery(router.urlFor(name, currentPage + 1), QueryParams(query))
    ensures r.previousPage.Some? <==> currentPage != 1 && currentPage <= TotalPages(count, limit) + 1
    ensures r.previousPage.Some? ==>
      r.previousPage.value == router.addQuery(router.urlFor(name, currentPage - 1), QueryParams(query))
  {
    var queryParams := QueryParams(query);
    var nextPageUrl := NextPageUrl(router, name, currentPage, count, limit);
    var previousPageUrl := PreviousPageUrl(router, name, currentPage, count, limit);
    PaginatedResponse(
      count,
      WithQuery(router, nextPageUrl, queryParams),
      WithQuery(router, previousPageUrl, queryParams),
      items)
  }

  /** For a real page (page 1 or later) the response has a next link
      exactly when `get_next_page` gives a page, and a previous link exactly
      when `get_previous_page` does: the truthiness gate never drops one. */
  lemma LinksFollowNeighbours<T>(router: Router, name: string, items: seq<T>, count: int,
                                 currentPage: int, query: seq<Field>, limit: int)
    requires currentPage >= 1
    ensures Paginate(router, name, items, count, currentPage, query, limit).nextPage.Some?
        <==> NextPage(currentPage, count, limit).Some?
    ensures Paginate(router, name, items, count, currentPage, query, limit).previousPage.Some?
        <==> PreviousPage(currentPage, count, limit).Some?
  {
  }
}
