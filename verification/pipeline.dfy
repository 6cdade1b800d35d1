/**
 The driver: the page requests, the merge of their pages with
 `dict.update` in offset order, and the CSV files written from the merged
 dict. The worker pool is modelled as a sequential map over the offsets,
 which is the order `pool.map` returns its results in.
 */
module Pipeline {
  import opened Wrappers
  import opened OrderedMap
  import opened SparqlQuery
  import opened PageSchedule
  import opened Normalize
  import opened CsvEmit

  /** `all_data = {}` then `all_data.update(result)` for each page, in order. */
  function MergePages(pages: seq<Page>): (r: Page)
    ensures Valid(r)
    decreases |pages|
  {
    if |pages| == 0 then []
    else Update(MergePages(pages[..|pages| - 1]), pages[|pages| - 1])
  }

  /** The items of all pages, one page after another. */
  function Flatten(pages: seq<Page>): seq<(string, Record)>
    decreases |pages|
  {
    if |pages| == 0 then [] else Flatten(pages[..|pages| - 1]) + pages[|pages| - 1]
  }

  /** The value of `k` in the last page that has `k`, found by scanning the pages from the end. */
  function LatestValue(pages: seq<Page>, k: string): Option<Record>
    decreases |pages|
  {
    if |pages| == 0 then None
    else if k in Keys(pages[|pages| - 1]) then Get(pages[|pages| - 1], k)
    else LatestValue(pages[..|pages| - 1], k)
  }

  /** Merging is assigning every page's items, one page after another, into one fresh dict. */
  lemma {:induction false} MergeIsAssignments(pages: seq<Page>)
    ensures MergePages(pages) == FromAssignments(Flatten(pages))
    decreases |pages|
  {
    if |pages| > 0 {
      var prefix := pages[..|pages| - 1];
      MergeIsAssignments(prefix);
      UpdateFromAssignments(Flatten(prefix), pages[|pages| - 1]);
    }
  }

  /** Later pages win: each key holds its value from the latest page that has it. */
  lemma {:induction false} MergeLatestWins(pages: seq<Page>)
    requires forall i :: 0 <= i < |pages| ==> Valid(pages[i])
    ensures forall k :: Get(MergePages(pages), k) == LatestValue(pages, k)
    decreases |pages|
  {
    if |pages| > 0 {
      var last := pages[|pages| - 1];
      MergeLatestWins(pages[..|pages| - 1]);
      forall k
        ensures Get(MergePages(pages), k) == LatestValue(pages, k)
      {
        GetIsLastValue(last, k);
      }
    }
  }

  /** The merged keys are the union of the pages' keys, each where it first appeared. */
  lemma {:induction false} MergeKeys(pages: seq<Page>)
    ensures Keys(MergePages(pages)) == FirstOccurrences(Keys(Flatten(pages)))
    ensures forall k :: k in Keys(MergePages(pages)) <==> exists i :: 0 <= i < |pages| && k in Keys(pages[i])
  {
    MergeIsAssignments(pages);
    FlattenKeys(pages);
  }

  lemma {:induction false} FlattenKeys(pages: seq<Page>)
    ensures forall k :: k in Keys(Flatten(pages)) <==> exists i :: 0 <= i < |pages| && k in Keys(pages[i])
    decreases |pages|
  {
    if |pages| > 0 {
      var prefix := pages[..|pages| - 1];
      var last := pages[|pages| - 1];
      FlattenKeys(prefix);
      assert Keys(Flatten(pages)) == Keys(Flatten(prefix)) + Keys(last);
      forall k | k in Keys(Flatten(pages))
        ensures exists i :: 0 <= i < |pages| && k in Keys(pages[i])
      {
        if k in Keys(last) {
          assert pages[|pages| - 1] == last;
        } else {
          var i :| 0 <= i < |prefix| && k in Keys(prefix[i]);
          assert pages[i] == prefix[i];
        }
      }
      forall k, i | 0 <= i < |pages| && k in Keys(pages[i])
        ensures k in Keys(Flatten(pages))
      {
        if i < |pages| - 1 {
          assert prefix[i] == pages[i];
        }
      }
    }
  }

  lemma {:induction false} FlattenItems(pages: seq<Page>, names: seq<string>)
    requires forall i, p :: 0 <= i < |pages| && p in pages[i] ==> HasFields(p.1, names)
    ensures forall p :: p in Flatten(pages) ==> HasFields(p.1, names)
    decreases |pages|
  {
    if |pages| > 0 {
      FlattenItems(pages[..|pages| - 1], names);
    }
  }

  /** Every merged record came from some page, so it has every field the pages' records have. */
  lemma MergeRecordsHaveFields(pages: seq<Page>, names: seq<string>)
    requires forall i, p :: 0 <= i < |pages| && p in pages[i] ==> HasFields(p.1, names)
    ensures forall p :: p in MergePages(pages) ==> HasFields(p.1, names)
  {
    MergeIsAssignments(pages);
    FlattenItems(pages, names);
  }

  /**
   `pool.map(worker_func, offsets)`: for each offset, the page the worker
   makes of the endpoint's response to the query with that page window.
   */
  function FetchPages(query: string, claims: Claims, limit: int, offsets: seq<int>, fetch: string -> Response): (pages: seq<Page>)
    ensures |pages| == |offsets|
    ensures forall i :: 0 <= i < |offsets| ==> pages[i] == Worker(fetch(FullQuery(query, limit, offsets[i])), claims)
    ensures forall i :: 0 <= i < |offsets| ==> Valid(pages[i])
    ensures forall i, p :: 0 <= i < |offsets| && p in pages[i] ==> HasFields(p.1, ClaimNames(claims))
  {
    var pages := seq(|offsets|, i requires 0 <= i < |offsets| => Worker(fetch(FullQuery(query, limit, offsets[i])), claims));
    pages
  }

  /**
   `main` after the claims are loaded: builds the query, fetches the pages,
   merges them and produces the CSV files. `fetch` stands for the HTTP
   request; a zero limit makes `range` raise, and the run ends with no files.
   */
  function Run(claims: Claims, offset: int, limit: int, fetch: string -> Response): (r: Result<seq<CsvFile>>)
    ensures r.Failure? <==> limit == 0
    ensures r.Success? ==> |r.value| == |claims|
  {
    match PageOffsets(offset, limit)
    case Failure(e) => Failure(e)
    case Success(offsets) =>
      var pages := FetchPages(GenerateSparqlQuery(claims), claims, limit, offsets, fetch);
      MergeRecordsHaveFields(pages, ClaimNames(claims));
      Success(GenerateCsvFiles(MergePages(pages), claims))
  }

  /**
   The requests of a run: twenty of them, the i-th being the base query with
   the window `LIMIT limit OFFSET offset + i * limit`.
   */
  lemma RunRequests(claims: Claims, offset: int, limit: int, fetch: string -> Response)
    requires limit != 0
    ensures var offsets := PageOffsets(offset, limit).value;
      && |offsets| == PageCount
      && forall i :: 0 <= i < PageCount ==>
           FetchPages(GenerateSparqlQuery(claims), claims, limit, offsets, fetch)[i]
           == Worker(fetch(FullQuery(GenerateSparqlQuery(claims), limit, offset + i * limit)), claims)
  {
    PageOffsetsSchedule(offset, limit);
  }

  /** Merging pages that are all empty gives the empty dict. */
  lemma {:induction false} MergeEmptyPages(pages: seq<Page>)
    requires forall i :: 0 <= i < |pages| ==> pages[i] == []
    ensures MergePages(pages) == []
    decreases |pages|
  {
    if |pages| > 0 {
      MergeEmptyPages(pages[..|pages| - 1]);
    }
  }

  /** When every request fails the run still completes, with one file per claim and no data rows. */
  lemma RunWithEveryRequestFailing(claims: Claims, offset: int, limit: int, fetch: string -> Response)
    requires limit != 0
    requires forall q :: fetch(q).RequestFailed?
    ensures Run(claims, offset, limit, fetch).Success?
    ensures |Run(claims, offset, limit, fetch).value| == |claims|
    ensures forall i :: 0 <= i < |claims| ==> Run(claims, offset, limit, fetch).value[i].rows == []
  {
    var offsets := PageOffsets(offset, limit).value;
    var pages := FetchPages(GenerateSparqlQuery(claims), claims, limit, offsets, fetch);
    MergeEmptyPages(pages);
    var files := Run(claims, offset, limit, fetch).value;
    assert files == GenerateCsvFiles([], claims);
  }

  /**
   File `i` of a run is `<name>_mapping.csv` for the i-th claim, and its rows
   are exactly the merged dict's truthy values for that claim, in the merged
   dict's key order; each merged record is the one from the latest page that
   has its ROR ID.
   */
  lemma RunFileRows(claims: Claims, offset: int, limit: int, fetch: string -> Response, i: nat)
    requires limit != 0
    requires i < |claims|
    ensures Run(claims, offset, limit, fetch).Success?
    ensures var pages := FetchPages(GenerateSparqlQuery(claims), claims, limit, PageOffsets(offset, limit).value, fetch);
      var data := MergePages(pages);
      var name := claims[i].1;
      var file := Run(claims, offset, limit, fetch).value[i];
      && file.fileName == name + "_mapping.csv"
      && file.header == ["ROR ID", "Wikidata ID", name]
      && (forall k :: Get(data, k) == LatestValue(pages, k))
      && (forall j :: 0 <= j < |file.rows| ==> RowAgrees(data, name, file.rows[j]))
      && (forall j :: 0 <= j < |file.rows| ==> Truthy(ClaimValue(data, file.rows[j].rorId, name)))
      && (forall k :: k in Keys(data) && Truthy(ClaimValue(data, k, name)) ==> k in RowIds(file.rows))
      && IsSubsequence(RowIds(file.rows), Keys(data))
  {
    var pages := FetchPages(GenerateSparqlQuery(claims), claims, limit, PageOffsets(offset, limit).value, fetch);
    var data := MergePages(pages);
    MergeLatestWins(pages);
    MergeRecordsHaveFields(pages, ClaimNames(claims));
    CsvFileRows(data, claims, i);
  }
}
