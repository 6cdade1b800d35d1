/**
 `generate_csv_files`: which rows each claim's CSV file receives, and in
 what order. Writing the files (directories, quoting, encoding) is left out;
 a file is its name, its header and its data rows.
 */
module CsvEmit {
  import opened Wrappers
  import opened OrderedMap
  import opened SparqlQuery
  import opened Normalize

  /**
   One data row `[ror_id, values["wikidata_id"], values[claim_name]]`. The
   Wikidata ID is `None` only when a claim named `wikidata_id` was unbound;
   the claim value is a non-empty string.
   */
  datatype Row = Row(rorId: string, wikidataId: Option<string>, value: string)

  /** One output file: its name, its header row and its data rows. */
  datatype CsvFile = CsvFile(fileName: string, header: seq<string>, rows: seq<Row>)

  /** Python truthiness of a claim value: `None` and `""` are false. */
  predicate Truthy(v: Option<string>)
  {
    v.Some? && v.value != ""
  }

  /** Every record has the fields the writer reads for the claim `name`. */
  predicate Readable(data: Page, name: string)
  {
    forall p :: p in data ==> HasFields(p.1, [name])
  }

  /** The data rows of claim `name`'s file: one per record whose value for `name` is truthy, in dict order. */
  function ClaimRows(data: Page, name: string): (r: seq<Row>)
    requires Readable(data, name)
    ensures |r| <= |data|
    ensures forall j :: 0 <= j < |r| ==> r[j].value != ""
    decreases |data|
  {
    if |data| == 0 then []
    else
      var (rorId, record) := data[0];
      var value := Get(record, name).value;
      var rest := ClaimRows(data[1..], name);
      if Truthy(value) then [Row(rorId, Get(record, WikidataIdKey).value, value.value)] + rest else rest
  }

  /** The ROR IDs of some rows, in order. */
  function RowIds(rows: seq<Row>): (r: seq<string>)
    ensures |r| == |rows|
    ensures forall j :: 0 <= j < |rows| ==> r[j] == rows[j].rorId
  {
    seq(|rows|, j requires 0 <= j < |rows| => rows[j].rorId)
  }

  /** `a` is `b` with some elements left out and the rest kept in order. */
  predicate IsSubsequence<T(==)>(a: seq<T>, b: seq<T>)
    decreases |b|
  {
    if |a| == 0 then true
    else if |b| == 0 then false
    else if a[0] == b[0] then IsSubsequence(a[1..], b[1..])
    else IsSubsequence(a, b[1..])
  }

  /** `row` is what the aggregate holds for its ROR ID under the claim `name`. */
  predicate RowAgrees(data: Page, name: string, row: Row)
  {
    && Get(data, row.rorId).Some?
    && Get(Get(data, row.rorId).value, name) == Some(Some(row.value))
    && Get(Get(data, row.rorId).value, WikidataIdKey) == Some(row.wikidataId)
  }

  /** The claim value the aggregate holds for `k`, when it holds one. */
  function ClaimValue(data: Page, k: string, name: string): Option<string>
  {
    match Get(data, k)
    case None => None
    case Some(record) =>
      match Get(record, name)
      case None => None
      case Some(v) => v
  }

  /** Every row's ROR ID is a key of the aggregate. */
  lemma {:induction false} ClaimRowIdsAreKeys(data: Page, name: string)
    requires Readable(data, name)
    ensures forall j :: 0 <= j < |ClaimRows(data, name)| ==> ClaimRows(data, name)[j].rorId in Keys(data)
    decreases |data|
  {
    if |data| > 0 {
      assert Keys(data) == [data[0].0] + Keys(data[1..]);
      ClaimRowIdsAreKeys(data[1..], name);
    }
  }

  /** A dict without its first item is a dict that no longer holds the first key. */
  lemma DictTail(data: Page)
    requires Valid(data) && |data| > 0
    ensures Valid(data[1..])
    ensures data[0].0 !in Keys(data[1..])
  {
    assert Keys(data) == [data[0].0] + Keys(data[1..]);
    assert Keys(data[1..]) == Keys(data)[1..];
  }

  /** Every row repeats what the aggregate holds for its ROR ID. */
  lemma {:induction false} ClaimRowsAgree(data: Page, name: string)
    requires Valid(data)
    requires Readable(data, name)
    ensures forall j :: 0 <= j < |ClaimRows(data, name)| ==> RowAgrees(data, name, ClaimRows(data, name)[j])
    decreases |data|
  {
    if |data| > 0 {
      var k0 := data[0].0;
      var tail := data[1..];
      DictTail(data);
      ClaimRowsAgree(tail, name);
      ClaimRowIdsAreKeys(tail, name);
      var rest := ClaimRows(tail, name);
      forall j | 0 <= j < |rest|
        ensures RowAgrees(data, name, rest[j])
      {
        assert rest[j].rorId != k0;
      }
    }
  }

  /** The first record's row, when it has one, comes first. */
  lemma FirstRow(data: Page, name: string)
    requires Readable(data, name)
    requires |data| > 0 && Truthy(ClaimValue(data, data[0].0, name))
    ensures |ClaimRows(data, name)| > 0 && ClaimRows(data, name)[0].rorId == data[0].0
  {
    assert Get(data, data[0].0) == Some(data[0].1);
  }

  /** The rows of the later records are rows of the whole aggregate. */
  lemma LaterRows(data: Page, name: string)
    requires Readable(data, name)
    requires |data| > 0
    ensures forall k :: k in RowIds(ClaimRows(data[1..], name)) ==> k in RowIds(ClaimRows(data, name))
  {
    var r := ClaimRows(data, name);
    var rest := ClaimRows(data[1..], name);
    if r != rest {
      assert RowIds(r) == [data[0].0] + RowIds(rest);
    }
  }

  /** A ROR ID whose value for the claim is truthy has a row. */
  lemma {:induction false} ClaimRowCovers(data: Page, name: string, k: string)
    requires Readable(data, name)
    requires k in Keys(data) && Truthy(ClaimValue(data, k, name))
    ensures k in RowIds(ClaimRows(data, name))
    decreases |data|
  {
    if k == data[0].0 {
      FirstRow(data, name);
    } else {
      var tail := data[1..];
      assert Keys(data) == [data[0].0] + Keys(tail);
      assert ClaimValue(data, k, name) == ClaimValue(tail, k, name);
      ClaimRowCovers(tail, name, k);
      LaterRows(data, name);
    }
  }

  /** Every ROR ID whose value for the claim is truthy has a row. */
  lemma ClaimRowsCover(data: Page, name: string)
    requires Readable(data, name)
    ensures forall k :: k in Keys(data) && Truthy(ClaimValue(data, k, name)) ==> k in RowIds(ClaimRows(data, name))
  {
    forall k | k in Keys(data) && Truthy(ClaimValue(data, k, name))
      ensures k in RowIds(ClaimRows(data, name))
    {
      ClaimRowCovers(data, name, k);
    }
  }

  /** The rows follow the aggregate's key order; in a dict, no ROR ID has two rows. */
  lemma {:induction false} ClaimRowsOrdered(data: Page, name: string)
    requires Valid(data)
    requires Readable(data, name)
    ensures IsSubsequence(RowIds(ClaimRows(data, name)), Keys(data))
    decreases |data|
  {
    if |data| > 0 {
      var k0 := data[0].0;
      var tail := data[1..];
      DictTail(data);
      assert Keys(data) == [k0] + Keys(tail);
      ClaimRowsOrdered(tail, name);
      var r := ClaimRows(data, name);
      var rest := ClaimRows(tail, name);
      if r == rest {
        ClaimRowIdsAreKeys(tail, name);
        if |rest| > 0 {
          assert RowIds(rest)[0] != k0;
        }
      } else {
        assert RowIds(r) == [k0] + RowIds(rest);
        assert RowIds(r)[1..] == RowIds(rest);
      }
    }
  }

  /** Every row's ROR ID holds a truthy value for the claim: no row is written for `None` or `""`. */
  lemma ClaimRowsTruthy(data: Page, name: string)
    requires Valid(data)
    requires Readable(data, name)
    ensures forall j :: 0 <= j < |ClaimRows(data, name)| ==> Truthy(ClaimValue(data, ClaimRows(data, name)[j].rorId, name))
  {
    var rows := ClaimRows(data, name);
    ClaimRowsAgree(data, name);
    forall j | 0 <= j < |rows|
      ensures Truthy(ClaimValue(data, rows[j].rorId, name))
    {
      assert RowAgrees(data, name, rows[j]);
      assert ClaimValue(data, rows[j].rorId, name) == Some(rows[j].value);
    }
  }

  /**
   A claim's rows are exactly the aggregate's truthy values for that claim:
   every row repeats what the aggregate holds for its ROR ID, every ROR ID
   with a truthy value has a row, and the rows follow the aggregate's key
   order (so no ROR ID has two rows).
   */
  lemma ClaimRowsExact(data: Page, name: string)
    requires Valid(data)
    requires Readable(data, name)
    ensures forall j :: 0 <= j < |ClaimRows(data, name)| ==> RowAgrees(data, name, ClaimRows(data, name)[j])
    ensures forall k :: k in Keys(data) && Truthy(ClaimValue(data, k, name)) ==> k in RowIds(ClaimRows(data, name))
    ensures forall j :: 0 <= j < |ClaimRows(data, name)| ==> Truthy(ClaimValue(data, ClaimRows(data, name)[j].rorId, name))
    ensures IsSubsequence(RowIds(ClaimRows(data, name)), Keys(data))
  {
    ClaimRowsAgree(data, name);
    ClaimRowsTruthy(data, name);
    ClaimRowsCover(data, name);
    ClaimRowsOrdered(data, name);
  }

  lemma FieldsReadable(data: Page, names: seq<string>, name: string)
    requires forall p :: p in data ==> HasFields(p.1, names)
    requires name in names
    ensures Readable(data, name)
  {
  }

  /** The header row of claim `name`'s file. */
  function Header(name: string): seq<string>
  {
    ["ROR ID", "Wikidata ID", name]
  }

  /**
   `generate_csv_files(data, claims)`: one file per claim item, in claim-map
   order, named `<name>_mapping.csv`, holding that claim's header and rows.
   */
  function GenerateCsvFiles(data: Page, claims: Claims): (r: seq<CsvFile>)
    requires forall p :: p in data ==> HasFields(p.1, ClaimNames(claims))
    ensures |r| == |claims|
    ensures forall i :: 0 <= i < |claims| ==> r[i].fileName == claims[i].1 + "_mapping.csv"
    ensures forall i :: 0 <= i < |claims| ==> r[i].header == ["ROR ID", "Wikidata ID", claims[i].1]
    ensures forall i :: 0 <= i < |claims| ==> |r[i].rows| <= |data|
  {
    var names := ClaimNames(claims);
    forall i | 0 <= i < |names|
      ensures Readable(data, names[i])
    {
      FieldsReadable(data, names, names[i]);
    }
    seq(|claims|, i requires 0 <= i < |claims| =>
      CsvFile(names[i] + "_mapping.csv", Header(names[i]), ClaimRows(data, names[i])))
  }

  /**
   Each claim's file holds exactly the aggregate's truthy values for that
   claim, one row per ROR ID, in the aggregate's key order.
   */
  lemma CsvFileRows(data: Page, claims: Claims, i: nat)
    requires Valid(data)
    requires forall p :: p in data ==> HasFields(p.1, ClaimNames(claims))
    requires i < |claims|
    ensures var name := claims[i].1;
      var rows := GenerateCsvFiles(data, claims)[i].rows;
      && (forall j :: 0 <= j < |rows| ==> RowAgrees(data, name, rows[j]))
      && (forall j :: 0 <= j < |rows| ==> Truthy(ClaimValue(data, rows[j].rorId, name)))
      && (forall k :: k in Keys(data) && Truthy(ClaimValue(data, k, name)) ==> k in RowIds(rows))
      && IsSubsequence(RowIds(rows), Keys(data))
  {
    var names := ClaimNames(claims);
    FieldsReadable(data, names, names[i]);
    ClaimRowsExact(data, names[i]);
  }
}
