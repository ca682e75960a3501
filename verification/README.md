# Web of Science search client: query building, paging and normalisation

This project is a Dafny model of the search logic of the Web of Science plugin
(`tools/wos_search.py`). It covers three parts:

- **Query building.** `check_type`, `check_query` and `get_query` produce a query in the
  Web of Science query language. `search` then adds the year and document-type clauses, in
  this order: base clause `<code>=(<text>)`, then ` AND PY=(<year>)`, then ` AND DT=(<type>)`.
- **Paging.** `search` calls `query_once` for pages 1, 2, 3, … of at most 50 records. It stops
  when `rest_num` reaches zero or when a page reports a total of 0, and it concatenates the
  documents of the successful pages.
- **Response normalisation.** `_process_response` keeps each hit that has a non-empty
  `identifiers` block and flattens it into a record. The other hits are dropped.

The remote service is modelled as an injected `Endpoint`, a function from a `Request`
(query, limit, page, sort field, database) to a `Transport` outcome. That outcome is either
an exception (`Raised`) or a status with a decoded body (`Responded`). The current year is a
`nat` parameter, not a clock read.

Modules, one per component:

| file | module | models |
|---|---|---|
| `wrappers.dfy` | `Wrappers` | `Option` / `Result` (the source's exceptions become `Failure`) |
| `decimal.dfy` | `Decimal` | how Python formats a non-negative `int` as text (the year inside the query) |
| `query_builder.dfy` | `QueryBuilder` | `check_type`, `check_query`, `get_query`, year and DT clauses |
| `response.dfy` | `Response` | raw and normalised documents, `_process_response` |
| `paging.dfy` | `Paging` | `query_once`, the paging plan, the paging loop |
| `search.dfy` | `WosSearch` | `search` as a whole |

Facts about the code that the model keeps:

- `search` returns a plain list of records. The total reported by the service is not returned.
- No publication date is rebuilt. The line that reads the month is commented out, and only
  the year reaches the record.
- `types` is passed through unchanged. A string value is not split.
- Author entries are not filtered. Each entry's `displayName` is read directly.
- `query_once` answers `(0, [])` in three cases: a limit of 0 or less, which makes no
  request; an exception from `requests.get`; and a status other than 200. A 200 body that is
  not JSON, or that has no `metadata.total`, raises out of `search`.

## Model

| member | source | states |
|---|---|---|
| Decimal.FromNat | tools/wos_search.py:136 | the year is written as digits only, with no leading zero unless it is 0 |
| Decimal.ToNatFromNat | tools/wos_search.py:136 | reading the written year back gives the same number |
| Decimal.FromNatToNat | tools/wos_search.py:136 | every canonical digit string is how some year is written, so the rendering is one-to-one with canonical text |
| QueryBuilder.CheckType | tools/wos_search.py:11-21 | succeeds exactly for `""`, `All`, `Article`, `Review`; yields `""` exactly for `""`/`All`; returns `Article`/`Review` unchanged; any other value is an `InvalidDocumentType` error carrying the value |
| QueryBuilder.CheckQuery | tools/wos_search.py:42-45 | the query text sits inside one pair of parentheses, unchanged |
| QueryBuilder.GetQuery | tools/wos_search.py:47-55 | succeeds exactly for TS, TI, AU, DO, IS, PMID; an unknown code is an `InvalidQueryType` error; the result is `code=(text)` and splits back into exactly that code and text |
| QueryBuilder.BaseClauseSplits | tools/wos_search.py:53-54 | a base clause can be parsed back into its field code and query text, because no valid code contains `=` |
| QueryBuilder.ResolveYear | tools/wos_search.py:134-138 | a trailing `-` gets `-` plus the current year appended; then a leading `-` gets `1900-` prepended; any other year is unchanged |
| QueryBuilder.YearClause | tools/wos_search.py:134-139 | the PY clause is absent exactly when the year is empty |
| QueryBuilder.TypeClause | tools/wos_search.py:141-143 | the DT clause is absent exactly when `check_type` returned `""` |
| QueryBuilder.BuildQuery | tools/wos_search.py:132-143 | fails exactly on an invalid query type or document type; the query-type error is reported first; on success the query is the base clause, then the PY clause, then the DT clause |
| QueryBuilder.BaseClauseFirst | tools/wos_search.py:132-143 | every built query starts with `code=(text)`; with no year and no type filter it is exactly that |
| QueryBuilder.YearClauseSecond | tools/wos_search.py:134-139 | a non-empty year puts ` AND PY=(<resolved>)` directly after the base clause |
| QueryBuilder.TypeClauseLast | tools/wos_search.py:141-143 | an `Article`/`Review` filter puts ` AND DT=(<type>)` at the very end |
| QueryBuilder.ResolveYearDoublesEndHyphen | tools/wos_search.py:135-136 | as written, `D-` becomes `D--<current year>`, which is not a closed year range |
| QueryBuilder.ResolveYearDoublesStartHyphen | tools/wos_search.py:137-138 | as written, `-D` becomes `1900--D`, which is not a closed year range |
| QueryBuilder.ResolveYearExamples | tools/wos_search.py:135-138 | `2020-` gives `2020--2026` when the current year is 2026; `-2020` gives `1900--2020`; `2018-2020` is unchanged |
| QueryBuilder.ResolveYearIntendedClosesEnd | tools/wos_search.py:135-136 | the corrected resolution turns `D-` into the closed range `D-<current year>` |
| QueryBuilder.ResolveYearIntendedClosesStart | tools/wos_search.py:137-138 | the corrected resolution turns `-D` into the closed range `1900-D` |
| QueryBuilder.UnopenedYearUnchanged | tools/wos_search.py:134-139 | both resolutions leave single years and closed ranges unchanged |
| QueryBuilder.BuildQueryPlainExample | tools/wos_search.py:132-143 | `cancer` with TS and no filters gives `TS=(cancer)` |
| QueryBuilder.BuildQueryFilteredExample | tools/wos_search.py:132-143 | TI, `2018-2020` and `Article` give `TI=(cancer) AND PY=(2018-2020) AND DT=(Article)` |
| QueryBuilder.QueryTypeErrorExample | tools/wos_search.py:53 | query type `XX` fails with `InvalidQueryType` |
| QueryBuilder.DocumentTypeErrorExample | tools/wos_search.py:21 | document type `Foo` fails with `InvalidDocumentType` |
| QueryBuilder.ResolveYearIntended | tools/wos_search.py:134-138 | the corrected resolution: a single year or closed range is unchanged; `D-` gets the current year appended after its own hyphen; `-D` gets `1900` put before its own hyphen |
| Response.AuthorNames | tools/wos_search.py:82 | one author name per author entry, in order, each being the entry's `displayName` |
| Response.Normalize | tools/wos_search.py:70-83 | `doi`/`pmid` come from `identifiers` or default to `""`; `types` defaults to an empty list and is otherwise passed through; uid, title, year, link and keywords are copied; authors are the display names |
| Response.ProcessHits | tools/wos_search.py:66-85 | never more records than hits |
| Response.ProcessHitsSources | tools/wos_search.py:66-84 | every record is the normalisation of a hit with identifiers, and every such hit gives a record |
| Response.Kept | tools/wos_search.py:67-69 | a hit is skipped exactly when its `identifiers` block is missing or empty; a kept hit has one |
| Response.ProcessResponse | tools/wos_search.py:64-85 | a response without `hits` gives no records; with `hits` the records are the kept hits' normalisations, as the `ProcessHits` lemmas describe |
| Response.ProcessHitsAppend | tools/wos_search.py:66-84 | normalising concatenated hit lists concatenates the results, so input order is kept |
| Response.ProcessHitsSingle | tools/wos_search.py:67-84 | one hit gives its record when it has identifiers, and nothing when it does not |
| Response.ProcessHitsEmptyIff | tools/wos_search.py:67-69 | the output is empty exactly when no hit has a non-empty `identifiers` block |
| Response.ProcessHitsAllKept | tools/wos_search.py:66-84 | when every hit has identifiers, the output is the hit-by-hit normalisation, of the same length |
| Response.NormalizeIgnoresMonth | tools/wos_search.py:76-77 | the record does not depend on `publishMonth`: no date is reconstructed |
| Response.NormalizeReadsOnlyDoiAndPmid | tools/wos_search.py:73-75 | of `identifiers`, only `doi` and `pmid` reach the record |
| Paging.QueryOnce | tools/wos_search.py:99-112 | a limit of 0 or less, an exception or a non-200 status gives `(0, [])`; a 200 response gives its reported total and the normalised hits of its body |
| Paging.QueryOnceSkipsEndpoint | tools/wos_search.py:99-100 | with a limit of 0 or less the reply is `(0, [])` whatever the endpoint: no request is made |
| Paging.RemainingLimits | tools/wos_search.py:155-163 | every later limit lies in 1..50; there are no later pages exactly when `rest_num <= 0` |
| Paging.Plan | tools/wos_search.py:145-163 | the first limit is `min(num_results, 50)` and every later one lies in 1..50 |
| Paging.RemainingLimitsCover | tools/wos_search.py:153-163 | the later limits add up to `rest_num`; all but the last are 50; there are `ceil(rest_num / 50)` of them |
| Paging.LaterPages | tools/wos_search.py:155-163 | the `query_once` calls of the loop: none exactly when `rest_num <= 0`; otherwise the next call is for page `page + 1` with limit `min(rest_num, 50)` |
| Paging.Pages | tools/wos_search.py:145-163 | the reference sequence of `query_once` calls of `search`: the first call, then the later pages unless the first total is 0; it carries no contract of its own, and `PagesFirstCall` and `PagesShape` state its properties |
| Paging.PagesFirstCall | tools/wos_search.py:145-150 | the first call is page 1 with limit `min(num_results, 50)` and gets the endpoint's reply; a first total of 0 ends the paging there |
| Paging.Contribution | tools/wos_search.py:149-162 | a call reporting a total of 0 adds nothing to the result, and any other call adds its documents unchanged |
| Paging.SuccessfulDocs | tools/wos_search.py:149-152 | the result of a single call is that call's contribution: nothing when it reported 0, its documents otherwise |
| Paging.NoSuccessfulCallNoDocs | tools/wos_search.py:149-162 | calls that all reported a total of 0 leave the result empty |
| Paging.PlanExample | tools/wos_search.py:145-163 | 120 wanted of 500 gives limits 50, 50, 20 |
| Paging.LaterPagesShape | tools/wos_search.py:155-163 | later pages are numbered consecutively, their limits follow the plan, each reply is the endpoint's answer, only the last page can fail, and paging stops only at a failure or at the end of the plan |
| Paging.PagesShape | tools/wos_search.py:145-163 | all requested pages are numbered 1, 2, 3, …; their limits follow the plan set by the FIRST page's total; only the last can fail; paging stops only at a failure or at the end of the plan |
| Paging.FirstFailureYieldsNothing | tools/wos_search.py:145-150 | with `num_results <= 0` or a first page reporting 0, only that one call is made and the search returns `[]` |
| Paging.SecondPageFailureKeepsFirstPage | tools/wos_search.py:155-162 | a failing second page ends the search with exactly the first page's documents |
| Paging.Paginate | tools/wos_search.py:145-166 | the calls made are exactly the planned pages up to the first failure; the result is the documents of the successful calls in fetch order; `num_results <= 0` gives `[]` |
| Paging.FetchRemaining | tools/wos_search.py:155-166 | the loop makes exactly the later-page calls and appends each successful page's documents; `rest_num` strictly decreases |
| Paging.SteadyLaterPagesCount | tools/wos_search.py:155-163 | against an endpoint that always returns `limit` hits, the later pages bring exactly `rest_num` records |
| Paging.SteadySearchCount | tools/wos_search.py:145-166 | against such an endpoint, a search for `n > 0` records returns `max(min(n, total), min(n, 50))` of them |
| Paging.SteadySearchExample | tools/wos_search.py:145-166 | `n = 120` with a total of 500 makes three calls with limits 50, 50, 20 and returns 120 records |
| WosSearch.Search | tools/wos_search.py:114-166 | fails exactly on an invalid query type or document type, before any request; otherwise it makes the planned calls for the built query and returns the concatenated documents of the successful pages; `num_results <= 0` gives `[]` |

## Left out

- Network I/O is left out: `requests.get`, the request URL with its `X-ApiKey` header and
  `base_url`, `response.json()` and `traceback.print_exc`. The `Endpoint` function parameter
  stands in for the remote service. The database code `WOK` is passed in each `Request`.
- A body that is not JSON, or that has no `metadata.total`, is left out. In the code this
  raises out of `search`. The model's `RawResponse` always carries a total.
- `time.sleep(10)` between pages is left out. It is rate-limit timing and has no effect on
  the result.
- `datetime.now()` is left out. The current year is the `currentYear` parameter.
- A missing `title`, `source`, `links`, `keywords`, `names`, `names.authors` or author
  `displayName` raises `KeyError` in the code. Here those fields are required in
  `RawDocument`.
- JSON values of unexpected types are left out. `identifiers` values are strings,
  `publishYear` is an integer, and `types` is text or a list of strings.
- Python truthiness on non-string inputs (`None` for `year` or `document_type`) is left out.
  Inputs are strings, and the empty string stands for "absent".
- `get_query` validates with `assert`, which Python drops under `-O`. The model always
  applies the check.
- `WOSSearchTool._invoke` (tools/wos_search.py:169-190) is left out: it is host-framework
  glue that defaults parameters and wraps results into messages. provider/wos.py is left
  out: it validates credentials by running a test query.
- The default arguments of `search` (tools/wos_search.py:114-115) are not modelled. The only
  caller, `_invoke` (tools/wos_search.py:188), passes all six arguments.
- WosSearch.Search and Paging.Paginate also return `log`, the list of `query_once` calls
  made. The code keeps no such list. It exists only so that the pages and limits requested
  can be stated.

## Findings

| source | as written | input that shows it | evidently intended | confidence | as-written member | corrected member |
|---|---|---|---|---|---|---|
| tools/wos_search.py:135-136 | `"{}-{}".format(year, now.year)` on a year that already ends in `-` | year `2020-` with current year 2026 gives `PY=(2020--2026)` | `PY=(2020-2026)`, a range ending at the current year | medium, not executed | QueryBuilder.ResolveYearDoublesEndHyphen | QueryBuilder.ResolveYearIntendedClosesEnd |
| tools/wos_search.py:137-138 | `'{}-{}'.format(1900, year)` on a year that already starts with `-` | year `-2020` gives `PY=(1900--2020)` | `PY=(1900-2020)` | medium, not executed | QueryBuilder.ResolveYearDoublesStartHyphen | QueryBuilder.ResolveYearIntendedClosesStart |

`QueryBuilder.ResolveYearIntended` is the corrected resolution. It appends the current year
directly after the trailing hyphen, and it puts `1900` directly before the leading hyphen.
Both lemmas prove that the result is then a closed range `<digits>-<digits>` with the
promised bounds. `BuildQuery`, and so `Search`, deliberately keep the as-written
`ResolveYear`, so that the modelled search sends the same query strings as the code.
