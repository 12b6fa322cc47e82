/** The two listing routes of the bodies endpoint: the query record with its
    defaults, the fetch offset of a page, which count and fetch calls get the
    query, and how the pagination record is assembled from them. The
    repository calls `crud.body.get_count` and `crud.body.get_multi` are
    collaborators and are passed in as functions. */
module Bodies {
  import opened Wrappers
  import opened Paginator

  /** `BodyQueryParams`: every search field is optional; only the page size
      has a default. Floats are modelled as reals. */
  datatype BodyQueryParams = BodyQueryParams(
    limit: Option<int>,
    ra: Option<real>,
    dec: Option<real>,
    radius: Option<real>,
    name: Option<string>,
    constellation: Option<string>)

  /** The query record a request with no query string gets: 20 records per
      page and no search criteria. */
  function DefaultQuery(): (q: BodyQueryParams)
    ensures q.limit == Some(20)
    ensures q.ra.None? && q.dec.None? && q.radius.None? && q.name.None? && q.constellation.None?
  {
    BodyQueryParams(Some(20), None, None, None, None, None)
  }

  function IntField(o: Option<int>): Option<Value> {
    if o.Some? then Some(IntValue(o.value)) else None
  }

  function RealField(o: Option<real>): Option<Value> {
    if o.Some? then Some(RealValue(o.value)) else None
  }

  function StrField(o: Option<string>): Option<Value> {
    if o.Some? then Some(StrValue(o.value)) else None
  }

  /** `dict(query).items()`: the fields of the record by name, in declaration
      order. */
  function Fields(q: BodyQueryParams): seq<Field> {
    [ ("limit", IntField(q.limit)),
      ("ra", RealField(q.ra)),
      ("dec", RealField(q.dec)),
      ("radius", RealField(q.radius)),
      ("name", StrField(q.name)),
      ("constellation", StrField(q.constellation)) ]
  }

  /** The page size is echoed into the neighbour links exactly when it is
      present, with its value unchanged. */
  lemma EchoedLimit(q: BodyQueryParams)
    ensures forall n :: ("limit", IntValue(n)) in QueryParams(Fields(q)) <==> q.limit == Some(n)
  {
    assert DistinctNames(Fields(q));
    EchoedField(Fields(q), 0);
  }

  /** The position parameters echoed into the neighbour links are exactly
      the present position fields of the query, each under its own name
      with its value unchanged. */
  lemma EchoedPosition(q: BodyQueryParams)
    ensures forall x :: ("ra", RealValue(x)) in QueryParams(Fields(q)) <==> q.ra == Some(x)
    ensures forall x :: ("dec", RealValue(x)) in QueryParams(Fields(q)) <==> q.dec == Some(x)
    ensures forall x :: ("radius", RealValue(x)) in QueryParams(Fields(q)) <==> q.radius == Some(x)
  {
    assert DistinctNames(Fields(q));
    EchoedField(Fields(q), 1);
    EchoedField(Fields(q), 2);
    EchoedField(Fields(q), 3);
  }

  /** The text parameters echoed into the neighbour links are exactly the
      present text fields of the query, unchanged. */
  lemma EchoedText(q: BodyQueryParams)
    ensures forall s :: ("name", StrValue(s)) in QueryParams(Fields(q)) <==> q.name == Some(s)
    ensures forall s :: ("constellation", StrValue(s)) in QueryParams(Fields(q)) <==> q.constellation == Some(s)
  {
    assert DistinctNames(Fields(q));
    EchoedField(Fields(q), 4);
    EchoedField(Fields(q), 5);
  }

  /** Nothing but the record's own fields is echoed, and no name twice. */
  lemma EchoedNames(q: BodyQueryParams)
    ensures forall p :: p in QueryParams(Fields(q)) ==>
      p.0 in {"limit", "ra", "dec", "radius", "name", "constellation"}
    ensures DistinctNames(QueryParams(Fields(q)))
  {
    var fields := Fields(q);
    forall p | p in QueryParams(fields)
      ensures p.0 in {"limit", "ra", "dec", "radius", "name", "constellation"}
    {
      assert (p.0, Some(p.1)) in fields;
      var j :| 0 <= j < |fields| && fields[j] == (p.0, Some(p.1));
    }
    assert DistinctNames(fields);
    QueryParamsDistinct(fields);
  }

  /** The page size is always echoed when present, so the default query
      echoes exactly `limit=20`. */
  lemma DefaultQueryEchoesLimit()
    ensures QueryParams(Fields(DefaultQuery())) == [("limit", IntValue(20))]
  {
    var fields := Fields(DefaultQuery());
    assert fields == [("limit", Some(IntValue(20)))] + fields[1..];
    assert fields[1..] == [("ra", None)] + fields[2..];
    assert fields[2..] == [("dec", None)] + fields[3..];
    assert fields[3..] == [("radius", None)] + fields[4..];
    assert fields[4..] == [("name", None)] + fields[5..];
    assert fields[5..] == [("constellation", None)];
    QueryParamsAppend([("limit", Some(IntValue(20)))], fields[1..]);
    QueryParamsAppend([("ra", None)], fields[2..]);
    QueryParamsAppend([("dec", None)], fields[3..]);
    QueryParamsAppend([("radius", None)], fields[4..]);
    QueryParamsAppend([("name", None)], fields[5..]);
  }

  /** The collaborators behind `crud.body`: `get_count(db)` is
      `getCount(None)`, `get_count(db, query_params=query)` is
      `getCount(Some(query))`, and `get_multi(db, query_params=query,
      skip=start, limit=limit)` is `getMulti(query, start, limit)`. */
  datatype Repository<T> = Repository(
    getCount: Option<BodyQueryParams> -> nat,
    getMulti: (BodyQueryParams, int, int) -> seq<T>)

  /** `(page - 1) * query.limit` with `query.limit` set to `None` raises a
      `TypeError` before any call is made. */
  datatype EndpointError = LimitMissing

  /** The route both listings link their neighbour pages to. */
  const PaginatedRouteName: string := "bodies:list-paginated"

  /** The number of records skipped to reach `page`. */
  function Offset(page: int, limit: int): int {
    (page - 1) * limit
  }

  lemma MultiplyMonotone(b: int, x: int, y: int)
    requires b >= 0 && x <= y
    ensures b * x <= b * y
  {
    assert b * y - b * x == b * (y - x);
  }

  /** Consecutive pages fetch adjacent windows of `limit` records, starting
      at offset 0 on page 1. */
  lemma OffsetsAdjacent(page: int, limit: int)
    ensures Offset(1, limit) == 0
    ensures Offset(page + 1, limit) == Offset(page, limit) + limit
  {
  }

  /** For a positive page size, every page from 1 to the last starts inside
      the result set, and the page after the last starts beyond it. */
  lemma PageStartsInside(count: int, limit: int, page: int)
    requires count >= 0 && limit > 0
    ensures 1 <= page <= TotalPages(count, limit) ==> 0 <= Offset(page, limit) < count
    ensures page == TotalPages(count, limit) + 1 ==> Offset(page, limit) >= count
  {
    var total := TotalPages(count, limit);
    assert limit * (total - 1) < count <= limit * total;
    if 1 <= page <= total {
      MultiplyMonotone(limit, 0, page - 1);
      MultiplyMonotone(limit, page - 1, total - 1);
    }
  }

  /** For a positive page size, the pages 1 to the last cover the result
      set: record `i` lies in the window of page `i / limit + 1`. */
  lemma PagesCoverResults(count: int, limit: int, i: int)
    requires 0 <= i < count && limit > 0
    ensures 1 <= i / limit + 1 <= TotalPages(count, limit)
    ensures Offset(i / limit + 1, limit) <= i < Offset(i / limit + 1, limit) + limit
  {
    var page := i / limit + 1;
    var total := TotalPages(count, limit);
    assert i == limit * (i / limit) + i % limit;
    assert Offset(page, limit) == limit * (i / limit);
    assert limit * (page - 1) <= i < count <= limit * total;
    CancelPositiveFactor(limit, page - 1, total);
  }

  /** `list_bodies`: the first page. It fetches from offset 0 with the
      query, but counts without it: the count is over all bodies. */
  function ListBodies<T>(repo: Repository<T>, router: Router, query: BodyQueryParams)
    : (r: Result<PaginatedResponse<T>, EndpointError>)
    ensures r.Failure? <==> query.limit.None?
    ensures r.Success? ==>
      var limit := query.limit.value;
      r.value == Paginate(router, PaginatedRouteName, repo.getMulti(query, 0, limit),
                          repo.getCount(None), 1, Fields(query), limit)
  {
    match query.limit
    case None => Failure(LimitMissing)
    case Some(limit) =>
      var page := 1;
      var start := Offset(page, limit);
      var count := repo.getCount(None);
      var bodies := repo.getMulti(query, start, limit);
      Success(Paginate(router, PaginatedRouteName, bodies, count, page, Fields(query), limit))
  }

  /** `list_bodies_paginated`: page `page`, fetched at offset
      `(page - 1) * limit` and counted with the same query it is fetched
      with. */
  function ListBodiesPaginated<T>(repo: Repository<T>, router: Router, page: int, query: BodyQueryParams)
    : (r: Result<PaginatedResponse<T>, EndpointError>)
    ensures r.Failure? <==> query.limit.None?
    ensures r.Success? ==>
      var limit := query.limit.value;
      r.value == Paginate(router, PaginatedRouteName, repo.getMulti(query, (page - 1) * limit, limit),
                          repo.getCount(Some(query)), page, Fields(query), limit)
  {
    match query.limit
    case None => Failure(LimitMissing)
    case Some(limit) =>
      var start := Offset(page, limit);
      var count := repo.getCount(Some(query));
      var bodies := repo.getMulti(query, start, limit);
      Success(Paginate(router, PaginatedRouteName, bodies, count, page, Fields(query), limit))
  }

  /** The first-page route is page 1 of the paginated route whenever the
      filtered and the unfiltered counts agree (in particular, for a query
      that filters nothing out). */
  lemma FirstPageIsPageOne<T>(repo: Repository<T>, router: Router, query: BodyQueryParams)
    requires repo.getCount(None) == repo.getCount(Some(query))
    ensures ListBodies(repo, router, query) == ListBodiesPaginated(repo, router, 1, query)
  {
  }

  /** A listing with no query string and 406 bodies in the catalogue: the
      count is 406, the next link goes to page 2 carrying `limit=20`, and
      there is no previous link. */
  lemma DefaultListingOf406(repo: Repository<int>, router: Router)
    requires repo.getCount(Some(DefaultQuery())) == 406
    ensures ListBodiesPaginated(repo, router, 1, DefaultQuery()).Success?
    ensures ListBodiesPaginated(repo, router, 1, DefaultQuery()).value.count == 406
    ensures ListBodiesPaginated(repo, router, 1, DefaultQuery()).value.nextPage
         == Some(router.addQuery(router.urlFor(PaginatedRouteName, 2), [("limit", IntValue(20))]))
    ensures ListBodiesPaginated(repo, router, 1, DefaultQuery()).value.previousPage == None
  {
    DefaultQueryEchoesLimit();
    FirstPageOfLargerSetHasNext(406, 20);
  }

  /** When the matching bodies fit on one page (none at all included), page 1
      has neither a next nor a previous link. */
  lemma SinglePageListingHasNoLinks<T>(repo: Repository<T>, router: Router, query: BodyQueryParams)
    requires query.limit.Some? && query.limit.value > 0
    requires repo.getCount(Some(query)) <= query.limit.value
    ensures ListBodiesPaginated(repo, router, 1, query).Success?
    ensures ListBodiesPaginated(repo, router, 1, query).value.nextPage == None
    ensures ListBodiesPaginated(repo, router, 1, query).value.previousPage == None
  {
    SinglePageHasNoNeighbours(repo.getCount(Some(query)), query.limit.value);
  }

  /** The first-page route as evidently intended: counted with the same
      query it fetches with, so it is exactly page 1 of the paginated
      route. */
  function ListBodiesFiltered<T>(repo: Repository<T>, router: Router, query: BodyQueryParams)
    : (r: Result<PaginatedResponse<T>, EndpointError>)
    ensures r == ListBodiesPaginated(repo, router, 1, query)
    ensures r.Success? ==> r.value.count == repo.getCount(Some(query))
    ensures r.Success? ==> r.value.results == repo.getMulti(query, 0, query.limit.value)
  {
    match query.limit
    case None => Failure(LimitMissing)
    case Some(limit) =>
      var page := 1;
      var start := Offset(page, limit);
      var count := repo.getCount(Some(query));
      var bodies := repo.getMulti(query, start, limit);
      Success(Paginate(router, PaginatedRouteName, bodies, count, page, Fields(query), limit))
  }

  /** The first-page route as written reports the unfiltered count: with
      406 bodies of which 3 lie near (2.294522, 59.14978), it answers count
      406 and links page 2, which holds none of the matching bodies, while
      the filtered route answers count 3 and no next link. */
  lemma FirstPageCountIgnoresQuery(router: Router)
    ensures
      var query := DefaultQuery().(ra := Some(2.294522), dec := Some(59.14978));
      var repo := Repository((o: Option<BodyQueryParams>) => if o.None? then 406 else 3,
                             (q: BodyQueryParams, skip: int, limit: int) => if skip >= 3 then [] else [1, 2, 3]);
      && ListBodies(repo, router, query).Success?
      && ListBodies(repo, router, query).value.count == 406
      && ListBodies(repo, router, query).value.nextPage
         == Some(router.addQuery(router.urlFor(PaginatedRouteName, 2), QueryParams(Fields(query))))
      && ListBodiesPaginated(repo, router, 2, query).Success?
      && ListBodiesPaginated(repo, router, 2, query).value.results == []
      && ListBodiesFiltered(repo, router, query).Success?
      && ListBodiesFiltered(repo, router, query).value.count == 3
      && ListBodiesFiltered(repo, router, query).value.nextPage.None?
  {
    var query := DefaultQuery().(ra := Some(2.294522), dec := Some(59.14978));
    var repo := Repository((o: Option<BodyQueryParams>) => if o.None? then 406 else 3,
                           (q: BodyQueryParams, skip: int, limit: int) => if skip >= 3 then [] else [1, 2, 3]);
    FirstPageOfLargerSetHasNext(406, 20);
    SinglePageHasNoNeighbours(3, 20);
    assert Offset(2, 20) == 20;
  }
}
