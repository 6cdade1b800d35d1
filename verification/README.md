# ror_wikidata_claim_overlap in Dafny

The script `ror_wikidata_claim_overlap.py` finds Wikidata items that carry
a ROR ID (property P6782) and writes one CSV per claim. Each CSV maps ROR ID
to Wikidata ID to the claim's value. This project models the data-shaping
part of the script as pure functions over immutable values:

- the SPARQL query text built from the claim map, and the page window
  ` LIMIT <limit> OFFSET <offset>` appended to it (sections 15.4 and 15.5
  of the SPARQL 1.1 Query Language; `OPTIONAL` is section 6);
- the twenty page offsets `range(offset, offset + limit * 20, limit)`;
- the normalisation of one page of result bindings into a dict keyed by
  ROR ID, and the worker's fallback to `{}` when a page fails;
- the merge of the pages with `dict.update` in offset order;
- the rows each claim's CSV file receives.

Python dicts are modelled as sequences of (key, value) pairs with distinct
keys (`OrderedMap`). Insertion order is therefore visible. Assigning to a
present key keeps its position and replaces its value. Assigning to a new
key appends it. Claim values are `Option<string>`; `None` is an unbound
variable.

Modules, one per file:

| file | module | models |
|---|---|---|
| wrappers.dfy | `Wrappers` | `Option` and `Result` |
| strings.dfy | `Strings` | `str.split` on one character, its inverse join, and `split("/")[-1]` |
| decimal.dfy | `Decimal` | `str(int)` and a parser that reads it back |
| ordered_map.dfy | `OrderedMap` | insertion-ordered dicts: `d.get`, `d[k] = v`, `dict.update`, dict building |
| query.dfy | `SparqlQuery` | `generate_sparql_query` and the request text |
| schedule.dfy | `PageSchedule` | Python's `range` and the page offsets |
| normalize.dfy | `Normalize` | `process_wikidata_results` and `worker` |
| emit.dfy | `CsvEmit` | the rows and headers of `generate_csv_files` |
| pipeline.dfy | `Pipeline` | `main`: requests, merge, files |

Where the code and the intended behaviour could be read differently, the
model follows the code:

- A negative limit does not give an empty schedule. `range(o, o + 20 * l, l)`
  with `l < 0` counts down, so there are twenty offsets `o, o + l, ...`
  in decreasing order (`PageSchedule.PageOffsetsSchedule`).
- A zero limit makes `range` raise `ValueError`. `main` catches it, so no
  request is made and no file is written (`Pipeline.Run` is a `Failure`).
- `{"wikidata_id": w, **{...}}` lets a claim named `wikidata_id` overwrite
  the Wikidata ID, in place. The record's Wikidata ID is therefore an
  `Option` (`Normalize.RecordFields`, `CsvEmit.Row`).
- A binding without a `rorID` or `item` value (or whose term has no
  `"value"`) makes `process_wikidata_results` raise `KeyError`. The worker
  then returns `{}` for the whole page, not just that binding
  (`Normalize.Worker`).

## Model

| member | source | states |
|---|---|---|
| SparqlQuery.QueryIsLines | ror_wikidata_claim_overlap/ror_wikidata_claim_overlap.py:47-55 | The query is the lines `SELECT ?item ?rorID ?<name>...`, `WHERE {`, the P6782 triple, one `OPTIONAL { ?item wdt:<id> ?<name> }` line per claim in claim-map order, and `}`, joined by newlines |
| SparqlQuery.QueryLinesRecovered | ror_wikidata_claim_overlap/ror_wikidata_claim_overlap.py:47-55 | When no claim id or name holds a newline, splitting the query at newlines gives exactly those lines, four more than there are claims, with one `OPTIONAL` line per claim in order |
| SparqlQuery.FirstLineIsSelect | ror_wikidata_claim_overlap/ror_wikidata_claim_overlap.py:48-55 | When no claim name holds a newline, the text before the query's first newline is exactly the select clause, whatever the claim ids are |
| SparqlQuery.SelectLineRecovered | ror_wikidata_claim_overlap/ror_wikidata_claim_overlap.py:48-55 | When claim names hold no space or newline, the first line's words are `SELECT`, `?item`, `?rorID`, then exactly one `?<name>` per claim in claim-map order; claim ids are unrestricted |
| SparqlQuery.QueryWithoutClaims | ror_wikidata_claim_overlap/ror_wikidata_claim_overlap.py:47-55 | With an empty claim map the query is exactly `SELECT ?item ?rorID\nWHERE {\n  ?item wdt:P6782 ?rorID .\n}` |
| SparqlQuery.FullQuery | ror_wikidata_claim_overlap/ror_wikidata_claim_overlap.py:59 | The request text is longer than the base query and starts with it unchanged |
| SparqlQuery.FullQueryWindow | ror_wikidata_claim_overlap/ror_wikidata_claim_overlap.py:59 | Split at spaces, the request text is the base query's words followed by `LIMIT`, the limit, `OFFSET`, the offset; the two number words are exactly `str(limit)` and `str(offset)` and read back as the limit and offset, for any query text |
| Decimal.IntToString | ror_wikidata_claim_overlap/ror_wikidata_claim_overlap.py:59 | `str(n)` holds no space and starts with `-` exactly for negative `n`; the rest is at least one digit, only digits, with no leading zero, and is `0` exactly for zero |
| Decimal.ParseIntToString | ror_wikidata_claim_overlap/ror_wikidata_claim_overlap.py:59 | Reading back `str(n)` gives `n` |
| PageSchedule.Range | ror_wikidata_claim_overlap/ror_wikidata_claim_overlap.py:123 | `range(start, stop, step)` starts at `start`, moves by `step`, stays short of `stop`, and stops only when one more step would reach `stop` |
| PageSchedule.PageOffsets | ror_wikidata_claim_overlap/ror_wikidata_claim_overlap.py:123 | The schedule fails exactly when the limit is zero |
| PageSchedule.PageOffsetsSchedule | ror_wikidata_claim_overlap/ror_wikidata_claim_overlap.py:123 | For every non-zero limit there are exactly 20 offsets, the i-th is `offset + i * limit`, strictly increasing for a positive limit and strictly decreasing for a negative one |
| Strings.Split | ror_wikidata_claim_overlap/ror_wikidata_claim_overlap.py:82 | `s.split(sep)` has at least one piece, no piece holds `sep`, and joining the pieces with `sep` gives back `s` |
| Strings.LastSegment | ror_wikidata_claim_overlap/ror_wikidata_claim_overlap.py:82 | `split("/")[-1]` holds no `/`, is a suffix of the URI, and is preceded by a `/` whenever it is not the whole URI |
| OrderedMap.Put | ror_wikidata_claim_overlap/ror_wikidata_claim_overlap.py:83 | After `d[k] = v`, `k` holds `v` and every other key holds what it held |
| OrderedMap.FromAssignments | ror_wikidata_claim_overlap/ror_wikidata_claim_overlap.py:79-87 | Assigning pairs into `{}` in order gives a dict whose keys are the distinct keys in first-assignment order, each holding its last assigned value, every item being one of the assignments |
| OrderedMap.Update | ror_wikidata_claim_overlap/ror_wikidata_claim_overlap.py:127 | After `m.update(n)` a dict stays a dict; every key of `n` holds its last value in `n` and every other key keeps its value in `m` |
| OrderedMap.UpdateIsAssignments | ror_wikidata_claim_overlap/ror_wikidata_claim_overlap.py:125-127 | `m.update(n)` on a dict is the dict built by assigning `m`'s items and then `n`'s, so present keys keep their position |
| Normalize.MakeRecord | ror_wikidata_claim_overlap/ror_wikidata_claim_overlap.py:83-87 | A record is a dict whose keys are `wikidata_id` followed by the claim names, each once, in first-occurrence order |
| Normalize.RecordFields | ror_wikidata_claim_overlap/ror_wikidata_claim_overlap.py:84-86 | A record holds each claim name's bound value (`None` when unbound), and the Wikidata ID unless a claim is named `wikidata_id` |
| Normalize.Entry | ror_wikidata_claim_overlap/ror_wikidata_claim_overlap.py:81-87 | A binding yields an item exactly when it has a `rorID` value and an `item` value, and the item's key is that `rorID` value |
| Normalize.ProcessWikidataResults | ror_wikidata_claim_overlap/ror_wikidata_claim_overlap.py:78-88 | Normalising fails exactly when some binding lacks a `rorID` or `item` value; otherwise the page is a dict |
| Normalize.PageKeyOrder | ror_wikidata_claim_overlap/ror_wikidata_claim_overlap.py:78-88 | The page's keys are the bindings' ROR IDs, each at its first occurrence; a key is on the page exactly when some binding has it as its ROR ID |
| Normalize.PageLastWins | ror_wikidata_claim_overlap/ror_wikidata_claim_overlap.py:80-87 | The last binding with a given ROR ID supplies its record: Wikidata ID the last segment of that binding's item URI, claim fields its bound values |
| Normalize.Worker | ror_wikidata_claim_overlap/ror_wikidata_claim_overlap.py:105-112 | A failed request or a page that cannot be normalised gives `{}`; a page that normalises gives the normalised page; every page is a dict whose records have the fields the CSV writer reads |
| Pipeline.MergePages | ror_wikidata_claim_overlap/ror_wikidata_claim_overlap.py:125-127 | Folding the pages with `dict.update` gives a dict |
| Pipeline.MergeLatestWins | ror_wikidata_claim_overlap/ror_wikidata_claim_overlap.py:125-127 | Each merged key holds its value from the latest page that has it |
| Pipeline.MergeKeys | ror_wikidata_claim_overlap/ror_wikidata_claim_overlap.py:125-127 | The merged keys are the union of the pages' keys, each at its first appearance across the pages in offset order |
| Pipeline.FetchPages | ror_wikidata_claim_overlap/ror_wikidata_claim_overlap.py:121-124 | One page per offset, in offset order, each the worker's page for the request with that offset |
| Pipeline.Run | ror_wikidata_claim_overlap/ror_wikidata_claim_overlap.py:115-128 | A run fails exactly when the limit is zero and otherwise produces one file per claim |
| Pipeline.RunRequests | ror_wikidata_claim_overlap/ror_wikidata_claim_overlap.py:119-124 | A run makes 20 requests; the i-th is the base query with `LIMIT limit OFFSET offset + i * limit` |
| Pipeline.RunWithEveryRequestFailing | ror_wikidata_claim_overlap/ror_wikidata_claim_overlap.py:105-128 | When every request fails, the run still completes, with one file per claim and no data rows |
| Pipeline.RunFileRows | ror_wikidata_claim_overlap/ror_wikidata_claim_overlap.py:115-128 | File i is `<name>_mapping.csv` with header `["ROR ID", "Wikidata ID", name]`; its rows are exactly the merged dict's truthy values for that claim (every row's value is truthy, every truthy value has a row), in key order; each merged record comes from the latest page with that ROR ID |
| CsvEmit.ClaimRows | ror_wikidata_claim_overlap/ror_wikidata_claim_overlap.py:98-101 | A claim has at most as many rows as the aggregate has records, and no row's value is empty |
| CsvEmit.ClaimRowsExact | ror_wikidata_claim_overlap/ror_wikidata_claim_overlap.py:98-101 | Every row repeats the aggregate's ROR ID, Wikidata ID and value, and that value is truthy; every truthy value has a row; rows follow the aggregate's key order |
| CsvEmit.GenerateCsvFiles | ror_wikidata_claim_overlap/ror_wikidata_claim_overlap.py:91-101 | One file per claim item in claim-map order, named `<name>_mapping.csv`, with header `["ROR ID", "Wikidata ID", name]` and at most as many rows as the aggregate has records |
| CsvEmit.CsvFileRows | ror_wikidata_claim_overlap/ror_wikidata_claim_overlap.py:93-101 | Each claim's file holds exactly the aggregate's truthy values for that claim (no row for `None` or `""`, a row for every truthy value), one row per ROR ID, in the aggregate's key order |

## Left out

- HTTP (`requests.get`, the headers, the e-mail, `raise_for_status`, JSON decoding) is not modelled. A request is the parameter `fetch`, which maps the request text to a `Response`: either the bindings or a failure.
- `multiprocessing.Pool` and `pool.map` are modelled as a sequential map over the offsets. `pool.map` returns results in that order.
- `parse_json_claims` is not modelled. The claim map is an input: a sequence of (id, name) pairs in the JSON object's order.
- File output is not modelled: `os.makedirs`, `open`, `csv.writer` quoting, and the writer turning `None` into an empty cell. A file is its name, its header and its rows.
- Duplicate claim names are not merged. They make the source write the same file twice, and the model lists one `CsvFile` per claim item.
- `parse_arguments`, `logging`, and `main`'s exception handling other than the zero-limit `ValueError` are not modelled, nor is pool cleanup.
- Partial output is not modelled. `generate_csv_files` cannot fail on a missing field, because every record the writer reads has the fields it indexes (`Normalize.Worker`, `Pipeline.MergeRecordsHaveFields`). It can fail in `open`, for example for a claim name holding `/` whose directory does not exist; the earlier claims' files are then already written and `main` swallows the error. File-system errors are left out together with `open`, so `Pipeline.Run` always produces every file.
- A binding's term members other than `"value"` (`type`, `datatype`, `xml:lang`) are not modelled, because they are never read.
- SPARQL semantics are not modelled, only the query text. Claim ids and names are interpolated verbatim and are not assumed to be valid SPARQL names.
- SparqlQuery.QueryLinesRecovered: the line structure is stated for claim ids and names without newlines. A newline inside a name splits that line in the source too.
- SparqlQuery.SelectLineRecovered: the word structure is stated for claim names without spaces or newlines, for the same reason; claim ids appear only on later lines and are unrestricted.
