# Perseus bodies API: pagination contract, listing routes and settings validators

This project is a Dafny model of the pagination core of the Perseus API. Perseus serves a catalogue of stars and Messier objects over HTTP. The model covers three parts:

- **`PaginatedResponse`** (`app/api/paginator.py`), modelled in module `Paginator` (`paginator.dfy`). It covers the page count, the next and previous page numbers, the truthiness gate on the neighbour URLs, and the query parameters echoed into those URLs. It also covers the response record that `paginate` assembles.
- **The two listing routes** (`app/api/api_v1/endpoints/bodies.py`), modelled in module `Bodies` (`bodies.dfy`). It covers the `BodyQueryParams` record and its defaults, the fetch offset `(page - 1) * limit`, and which `crud.body` calls receive the query.
- **The settings validators** (`app/core/config.py`), modelled in module `Config` (`config.dfy`). These are `assemble_cors_origins`, `assemble_db_connection` and `sentry_dsn_can_be_blank`. The Python string methods they rely on (`split(",")`, `strip()`) are modelled in module `Text` (`text.dfy`), together with `",".join`, which is used to state round trips. `Option` and `Result` live in `Wrappers` (`wrappers.dfy`).

All three source files are stateless code. Every class method, route handler and validator is therefore a Dafny function, and the properties are ensures clauses and lemmas.

The collaborators are passed in as functions:

- `Router.urlFor` stands for `request.url_for(name=, page=)`.
- `Router.addQuery` stands for `furl(url).add(params).url`.
- `Repository.getCount` stands for `crud.body.get_count`. `None` means "called without the query".
- `Repository.getMulti` stands for `crud.body.get_multi`.

Where the code's annotations and names differ from what it does, the model follows what it does:

- `get_next_page` and `get_previous_page` are annotated `-> Optional[str]` (`app/api/paginator.py:36`, `:47`) but return the page number `current_page ± 1` (`:42`, `:52`). They return `Option<int>` here.
- The endpoint declares its own six-field `BodyQueryParams` (`app/api/api_v1/endpoints/bodies.py:14-41`), not the fourteen-field one in `app/api/api_v1/params/bodies.py`. The six fields are `limit`, `ra`, `dec`, `radius`, `name` and `constellation`.
- `list_bodies` is documented as listing the bodies that match the query, but it counts without the query. See "## Findings".

## Model

| member | source | states |
|---|---|---|
| Paginator.TotalPages | app/api/paginator.py:28-33 | With a zero page size the page count is 0 and nothing is raised. Otherwise it is the ceiling of count / limit, stated as `r - 1 < count/limit <= r` multiplied out by the divisor, for either sign of the divisor. |
| Paginator.TotalPagesFormula | app/api/paginator.py:29-31 | For a positive page size the page count equals the integer formula `(count + limit - 1) / limit`. |
| Paginator.TotalPagesBounds | app/api/paginator.py:29-33 | For count >= 0 and a positive page size: an empty result has 0 pages, and a non-empty one has between 1 and `count` pages. |
| Paginator.NextPage | app/api/paginator.py:35-42 | There is no next page exactly when the current page is at or past the page count. Otherwise the next page is the current page + 1. |
| Paginator.PreviousPage | app/api/paginator.py:44-52 | There is no previous page exactly on page 1 or more than one page past the page count. Otherwise the previous page is the current page - 1. |
| Paginator.NextThenPrevious | app/api/paginator.py:35-52 | From page 1 or later, the previous page of the next page is the current page. |
| Paginator.PreviousThenNext | app/api/paginator.py:35-52 | Whenever a previous page exists, its next page is the current page exactly when the current page is not past the page count. |
| Paginator.NeighboursInRange | app/api/paginator.py:35-52 | From page 1 or later, an existing next page lies in 2..total pages and an existing previous page lies in 1..total pages. |
| Paginator.SinglePageHasNoNeighbours | app/api/paginator.py:35-52 | On page 1, when 0 <= count <= limit, there is neither a next nor a previous page. This includes the empty result. |
| Paginator.FirstPageOfLargerSetHasNext | app/api/paginator.py:35-42 | On page 1, when count > limit > 0, the next page is page 2. |
| Paginator.QueryParams | app/api/paginator.py:72-74 | A name/value pair is echoed exactly when the record has that field with that value not `None`. `None` fields are dropped, and the result is never longer than the record. |
| Paginator.QueryParamsAppend | app/api/paginator.py:73-74 | The filter keeps the fields' order: it distributes over concatenation. |
| Paginator.QueryParamsDistinct | app/api/paginator.py:73-74 | A record with distinct field names yields a parameter list with distinct names. |
| Paginator.EchoedField | app/api/paginator.py:73-74 | In a record with distinct names, a field is echoed under its name exactly when it holds a value, and with that same value. |
| Paginator.PageUrl | app/api/paginator.py:58-61 | A URL is built only for a page number that is present and non-zero, and it is `url_for` of that page. |
| Paginator.NextPageUrl | app/api/paginator.py:54-61 | A next-page URL exists exactly before the last page, except from page -1, whose next page 0 is falsy. The URL is `url_for(name, current + 1)`. |
| Paginator.PreviousPageUrl | app/api/paginator.py:63-70 | A previous-page URL exists exactly when a previous page exists: the falsy page 0 only arises on page 1, which is already excluded. The URL is `url_for(name, current - 1)`. |
| Paginator.WithQuery | app/api/paginator.py:95-97 | A link is present exactly when its URL is, and it is that URL with the echoed parameters added. |
| Paginator.Paginate | app/api/paginator.py:76-101 | The response carries the given count and items unchanged. The next link exists exactly when current < total pages and current != -1. The previous link exists exactly when current != 1 and current <= total pages + 1. Each link is the neighbour page's URL with the echoed query parameters. |
| Paginator.LinksFollowNeighbours | app/api/paginator.py:54-70 | From page 1 or later, the response has a next (previous) link exactly when `get_next_page` (`get_previous_page`) returns a page. |
| Bodies.DefaultQuery | app/api/api_v1/endpoints/bodies.py:14-41 | The default query has a page size of 20, and every other field is absent. |
| Bodies.EchoedLimit | app/api/api_v1/endpoints/bodies.py:15-17 | The page size is echoed as `limit` exactly when it is present, with its value. |
| Bodies.EchoedPosition | app/api/api_v1/endpoints/bodies.py:19-31 | `ra`, `dec` and `radius` are each echoed exactly when present, with their values. |
| Bodies.EchoedText | app/api/api_v1/endpoints/bodies.py:33-41 | `name` and `constellation` are each echoed exactly when present, with their values. |
| Bodies.EchoedNames | app/api/api_v1/endpoints/bodies.py:14-41 | Only the record's six field names are echoed, each at most once. |
| Bodies.DefaultQueryEchoesLimit | app/api/api_v1/endpoints/bodies.py:15-17 | The default query echoes exactly `[("limit", 20)]`. |
| Bodies.OffsetsAdjacent | app/api/api_v1/endpoints/bodies.py:90 | Page 1 starts at offset 0, and each page starts `limit` records after the previous one. |
| Bodies.PageStartsInside | app/api/api_v1/endpoints/bodies.py:90-94 | For a positive page size, pages 1..total start inside the counted result set, and the page after the last starts at or beyond its end. |
| Bodies.PagesCoverResults | app/api/api_v1/endpoints/bodies.py:90-94 | For a positive page size, record `i` of the result set lies in the fetch window of page `i / limit + 1`, and that page is between 1 and total pages. |
| Bodies.ListBodies | app/api/api_v1/endpoints/bodies.py:44-71 | The first-page route fails exactly when `limit` is `None` (the `TypeError` of `(page - 1) * None`). Otherwise it fetches with the query at offset 0 with page size `limit`, counts without the query, and paginates page 1 of `"bodies:list-paginated"` with `limit` and the full query. |
| Bodies.ListBodiesPaginated | app/api/api_v1/endpoints/bodies.py:74-104 | The paginated route fails exactly when `limit` is `None`. Otherwise it fetches at offset `(page - 1) * limit` with page size `limit`, counts with the same query it fetches with, and paginates the same page of `"bodies:list-paginated"` with `limit` and the full query. |
| Bodies.FirstPageIsPageOne | app/api/api_v1/endpoints/bodies.py:55-61 | The first-page route gives exactly page 1 of the paginated route whenever the unfiltered and filtered counts agree. |
| Bodies.DefaultListingOf406 | app/tests/api/api_v1/test_bodies.py:17-31 | With 406 matching bodies and no query string, page 1 reports count 406, links the next page as page 2 with `limit=20`, and has no previous link. |
| Bodies.SinglePageListingHasNoLinks | app/tests/api/api_v1/test_bodies.py:97-113 | When the matching bodies fit on one page (none included), page 1 of the paginated route has neither link. |
| Bodies.FirstPageCountIgnoresQuery | app/api/api_v1/endpoints/bodies.py:59 | Worked case for the as-written first-page route: 406 bodies, of which 3 match the query, with a fetch that returns nothing from offset 3 on. It reports count 406 and a next link to page 2 of the paginated route, and that page's results are empty. The corrected route reports count 3 and no next link. |
| Bodies.ListBodiesFiltered | app/api/api_v1/endpoints/bodies.py:55-71 | The corrected first-page route is exactly page 1 of the paginated route. Its count is the filtered count, and its results are the fetch at offset 0. |
| Config.AssembleCorsOrigins | app/core/config.py:30-36 | A string not starting with `[` gives (number of commas) + 1 origins, each the stripped comma-separated piece. A string starting with `[`, or a list, passes through unchanged. `None` or any other type raises `ValueError(v)`. |
| Config.SplitOriginsAreClean | app/core/config.py:32-33 | Every origin split out of a comma-separated string has no comma and no whitespace at either end. |
| Config.StripEachClean | app/core/config.py:33 | Stripping every piece of a list whose pieces have no comma and no surrounding whitespace returns the list unchanged. |
| Config.CorsOriginsRoundTrip | app/core/config.py:32-33 | One or more clean origins written out comma-separated (not starting with `[`) validate back to the same list. The empty list is excluded because `"".split(",")` gives `[""]`, not `[]`. |
| Config.CorsOriginsRejoin | app/core/config.py:32-33 | A comma-separated string whose pieces have no surrounding whitespace is recovered by joining its validated origins. |
| Config.AssembleDbConnection | app/core/config.py:40-44 | A string URI is kept unchanged. Any non-string, `None` included, becomes `sqlite:///./perseus.db.sqlite3`. |
| Config.DbConnectionIdempotent | app/core/config.py:40-44 | Validating an already validated URI changes nothing. |
| Config.SentryDsnCanBeBlank | app/core/config.py:48-52 | An empty DSN becomes absent, and a non-empty one is kept unchanged. |
| Text.SplitOnComma | app/core/config.py:33 | `split(",")` gives (number of commas) + 1 pieces, and none of them contains a comma. |
| Text.JoinSplit | app/core/config.py:33 | Joining the pieces of `split(",")` with commas gives the original string. |
| Text.SplitJoin | app/core/config.py:33 | Splitting a comma-join of one or more comma-free pieces gives the pieces back. |
| Text.Strip | app/core/config.py:33 | `strip()` returns a contiguous slice of its input. Everything removed before and after it is whitespace, and the result neither starts nor ends with whitespace. |
| Text.StripIdempotent | app/core/config.py:33 | Stripping twice equals stripping once. |
| Text.StripKeepsCommaFree | app/core/config.py:33 | Stripping a comma-free piece leaves it comma-free. |

## Findings

| source | as written | input that shows it | evidently intended | confidence | as-written member | corrected member |
|---|---|---|---|---|---|---|
| app/api/api_v1/endpoints/bodies.py:59 | The first-page route counts with `crud.body.get_count(db)`, without the query, while it fetches with the query. | A catalogue of 406 bodies, 3 of them within the default radius of ra=2.294522, dec=59.14978, requested on the first-page route: count 406 and a next link to page 2, which holds no records. | Count with `get_count(db, query_params=query)`, as the paginated route does at line 92, so that count, links and results describe the same filtered set. | medium; not executed | Bodies.FirstPageCountIgnoresQuery | Bodies.ListBodiesFiltered |

`Bodies.ListBodies` keeps the route as written. `Bodies.ListBodiesFiltered` is the corrected route.

## Left out

- Paginator.TotalPages: computes the exact rational ceiling. The source's `math.ceil(count / limit)` goes through a Python float, which can round once |count| exceeds 2^53. A quotient beyond the float range makes `count / limit` raise `OverflowError`, which the `except ZeroDivisionError` does not catch, while the model returns a value. Page counts of real catalogues are far below both bounds.
- Paginator.WithQuery: `furl(None).add(params).url` is taken to stay absent. The source code does not show this, but the endpoint tests rely on it (`previous_page is None`). `url_for` and `furl` are foreign library calls. They are modelled only as the functions `Router.urlFor` and `Router.addQuery`, so the model states nothing about URL syntax or the order of query parameters inside the URL string.
- Bodies.ListBodies and Bodies.ListBodiesPaginated: `crud.body.get_count` and `get_multi` are arbitrary functions (`CRUDBase` is not part of this model). So the model does not promise that a page holds at most `limit` records, or that count and fetch agree on the filtered set.
- The search filtering (radial, name, constellation), the visibility and sidereal-time computation and the result ordering are not part of this model. None of them is in the files modelled.
- The query fields `ra`, `dec` and `radius` are Python floats, modelled as reals. They are only echoed, never computed with. FastAPI's parsing of the query string and of the `page` path parameter into typed values is not modelled.
- Config.AssembleCorsOrigins: the list case is modelled as a list of strings. The source passes through a list of any elements.
- Config.SentryDsnCanBeBlank: takes only strings, the type the environment supplies. `len(v)` on a non-string value (a `TypeError` for `None`) is not modelled.
- Text.IsSpace: lists the characters Python's `str.isspace()` accepts. No other Unicode processing is involved.
- Settings loading from the environment and `.env`, pydantic's coercion to `AnyHttpUrl`/`EmailStr`/`HttpUrl`, and the random `SECRET_KEY` are I/O and library behaviour, so they are not modelled.
- Body ORM columns and their constellation hook (a floating-point astropy call), the seed, dump and flush scripts, `crud_body.create`, the session, router and application wiring: database and file I/O, not part of the pagination core.
