/**
 `process_wikidata_results` and `worker`: one page of result bindings
 reshaped into a dict keyed by ROR ID, and a failed page turned into `{}`.
 */
module Normalize {
  import opened Wrappers
  import opened OrderedMap
  import opened Strings
  import opened SparqlQuery

  /** One RDF term of a result binding (a JSON object); only its "value" member is read. */
  datatype Term = Term(value: Option<string>)

  /**
   One result row as decoded by `json`: query variable to term, each
   variable once (a decoded JSON object has distinct keys), in the object's order.
   */
  type Binding = seq<(string, Term)>

  /** A normalised record: `"wikidata_id"`, then one entry per claim name. */
  type Record = seq<(string, Option<string>)>

  /** ROR ID to record. */
  type Page = seq<(string, Record)>

  /**
   What one page request yields: the decoded `results.bindings` array, or a
   failure (an HTTP error status, a network error or a body that is not the
   expected JSON).
   */
  datatype Response = Bindings(results: seq<Binding>) | RequestFailed

  const WikidataIdKey: string := "wikidata_id"
  const RorIdVariable: string := "rorID"
  const ItemVariable: string := "item"

  /** `claims.values()`, in order. */
  function ClaimNames(claims: Claims): (r: seq<string>)
    ensures |r| == |claims|
    ensures forall i :: 0 <= i < |claims| ==> r[i] == claims[i].1
  {
    seq(|claims|, i requires 0 <= i < |claims| => claims[i].1)
  }

  /**
   `result.get(name, {}).get("value")`: the value bound to `name`, or `None`
   when the variable is unbound or its term has no value. Exactly then does
   `result[name]["value"]` raise `KeyError`.
   */
  function BoundValue(b: Binding, name: string): Option<string>
  {
    match Get(b, name)
    case None => None
    case Some(t) => t.value
  }

  /** The fields `generate_csv_files` reads from a record. */
  predicate HasFields(record: Record, names: seq<string>)
  {
    && Get(record, WikidataIdKey).Some?
    && forall n :: n in names ==> Get(record, n).Some?
  }

  /** The assignments `{name: <bound value> for name in names}` makes, in order. */
  function ClaimPairs(b: Binding, names: seq<string>): (r: seq<(string, Option<string>)>)
    ensures Keys(r) == names
    ensures forall i :: 0 <= i < |r| ==> r[i].1 == BoundValue(b, r[i].0)
  {
    seq(|names|, i requires 0 <= i < |names| => (names[i], BoundValue(b, names[i])))
  }

  /**
   `{"wikidata_id": wikidataId, **{name: <bound value> for name in names}}`:
   the Wikidata ID first, then each claim's bound value (`None` when unbound).
   A claim named `wikidata_id` overwrites the Wikidata ID in place.
   */
  function MakeRecord(wikidataId: string, b: Binding, names: seq<string>): (r: Record)
    ensures Valid(r)
    ensures Keys(r) == FirstOccurrences([WikidataIdKey] + names)
  {
    var pairs := [(WikidataIdKey, Some(wikidataId))] + ClaimPairs(b, names);
    assert Keys(pairs) == [WikidataIdKey] + names;
    FromAssignments(pairs)
  }

  /**
   A record holds each claim name's bound value, and the Wikidata ID unless
   a claim is itself named `wikidata_id`; it has every field the CSV writer reads.
   */
  lemma RecordFields(wikidataId: string, b: Binding, names: seq<string>)
    ensures forall n :: n in names ==> Get(MakeRecord(wikidataId, b, names), n) == Some(BoundValue(b, n))
    ensures WikidataIdKey !in names ==> Get(MakeRecord(wikidataId, b, names), WikidataIdKey) == Some(Some(wikidataId))
    ensures HasFields(MakeRecord(wikidataId, b, names), names)
  {
    var head := [(WikidataIdKey, Some(wikidataId))];
    var claimPairs := ClaimPairs(b, names);
    var r := MakeRecord(wikidataId, b, names);
    forall n | n in names
      ensures Get(r, n) == Some(BoundValue(b, n))
    {
      LastValueConcat(head, claimPairs, n);
      LastValueUniform(claimPairs, n, BoundValue(b, n));
    }
    LastValueConcat(head, claimPairs, WikidataIdKey);
    GetFindsKeys(r, WikidataIdKey);
  }

  /**
   One binding's dict item: its ROR ID and its record, whose Wikidata ID is
   the last path segment of the item URI. `None` when the binding has no
   `rorID` or no `item` value, where the source raises `KeyError`.
   */
  function Entry(b: Binding, names: seq<string>): (r: Option<(string, Record)>)
    ensures r.Some? <==> BoundValue(b, RorIdVariable).Some? && BoundValue(b, ItemVariable).Some?
    ensures r.Some? ==> r.value.0 == BoundValue(b, RorIdVariable).value
  {
    match BoundValue(b, RorIdVariable)
    case None => None
    case Some(rorId) =>
      match BoundValue(b, ItemVariable)
      case None => None
      case Some(item) => Some((rorId, MakeRecord(LastSegment(item), b, names)))
  }

  /** The items of all bindings, in order, or `None` as soon as one binding has none. */
  function Entries(results: seq<Binding>, names: seq<string>): (r: Option<seq<(string, Record)>>)
    ensures r.Some? <==> forall i :: 0 <= i < |results| ==> Entry(results[i], names).Some?
    ensures r.Some? ==> |r.value| == |results|
    ensures r.Some? ==> forall i :: 0 <= i < |results| ==> r.value[i] == Entry(results[i], names).value
    decreases |results|
  {
    if |results| == 0 then Some([])
    else
      match Entry(results[0], names)
      case None => None
      case Some(e) =>
        match Entries(results[1..], names)
        case None =>
          assert forall i :: 1 <= i < |results| ==> results[1..][i - 1] == results[i];
          None
        case Some(es) => Some([e] + es)
  }

  /**
   `process_wikidata_results(results, claims)`: assigns each binding's item
   into a fresh dict in order, or raises (`None`) when some binding lacks a
   `rorID` or `item` value.
   */
  function ProcessWikidataResults(results: seq<Binding>, claims: Claims): (r: Option<Page>)
    ensures r.None? <==> exists i :: 0 <= i < |results| && Entry(results[i], ClaimNames(claims)).None?
    ensures r.Some? ==> Valid(r.value)
  {
    match Entries(results, ClaimNames(claims))
    case None => None
    case Some(es) => Some(FromAssignments(es))
  }

  /** The ROR IDs of the bindings, in order, when every binding has one. */
  function RorIds(results: seq<Binding>): (r: seq<string>)
    requires forall i :: 0 <= i < |results| ==> BoundValue(results[i], RorIdVariable).Some?
    ensures |r| == |results|
    ensures forall i :: 0 <= i < |results| ==> Some(r[i]) == BoundValue(results[i], RorIdVariable)
  {
    seq(|results|, i requires 0 <= i < |results| && BoundValue(results[i], RorIdVariable).Some? =>
      BoundValue(results[i], RorIdVariable).value)
  }

  /** A string is among the ROR IDs exactly when some binding has it as its ROR ID. */
  lemma RorIdsMembership(results: seq<Binding>)
    requires forall i :: 0 <= i < |results| ==> BoundValue(results[i], RorIdVariable).Some?
    ensures forall k :: k in RorIds(results) <==> exists i :: 0 <= i < |results| && BoundValue(results[i], RorIdVariable) == Some(k)
  {
    var ids := RorIds(results);
    forall k
      ensures k in ids <==> exists i :: 0 <= i < |results| && BoundValue(results[i], RorIdVariable) == Some(k)
    {
      if k in ids {
        var i :| 0 <= i < |ids| && ids[i] == k;
        assert BoundValue(results[i], RorIdVariable) == Some(k);
      }
    }
  }

  /**
   A normalised page is keyed by the bindings' ROR IDs, each where it first
   occurs: a key is on the page exactly when some binding has it as its ROR ID.
   */
  lemma PageKeyOrder(results: seq<Binding>, claims: Claims)
    requires ProcessWikidataResults(results, claims).Some?
    ensures forall i :: 0 <= i < |results| ==> BoundValue(results[i], RorIdVariable).Some?
    ensures Keys(ProcessWikidataResults(results, claims).value) == FirstOccurrences(RorIds(results))
    ensures forall k :: k in Keys(ProcessWikidataResults(results, claims).value)
              <==> exists i :: 0 <= i < |results| && BoundValue(results[i], RorIdVariable) == Some(k)
  {
    var es := Entries(results, ClaimNames(claims)).value;
    assert Keys(es) == RorIds(results);
    RorIdsMembership(results);
  }

  /** Every record of a normalised page has the Wikidata ID field and one field per claim name. */
  lemma PageRecordsHaveFields(results: seq<Binding>, claims: Claims)
    requires ProcessWikidataResults(results, claims).Some?
    ensures forall p :: p in ProcessWikidataResults(results, claims).value ==> HasFields(p.1, ClaimNames(claims))
  {
    var names := ClaimNames(claims);
    var es := Entries(results, names).value;
    forall p | p in FromAssignments(es)
      ensures HasFields(p.1, names)
    {
      var i :| 0 <= i < |es| && es[i] == p;
      EntryHasFields(results[i], names);
    }
  }

  lemma EntryHasFields(b: Binding, names: seq<string>)
    requires Entry(b, names).Some?
    ensures HasFields(Entry(b, names).value.1, names)
  {
    RecordFields(LastSegment(BoundValue(b, ItemVariable).value), b, names);
  }

  /**
   Last binding wins: a binding whose ROR ID no later binding repeats
   supplies that key's record, whose Wikidata ID is the last segment of the
   binding's item URI and whose claim fields hold the binding's values.
   */
  lemma PageLastWins(results: seq<Binding>, claims: Claims, i: nat)
    requires ProcessWikidataResults(results, claims).Some?
    requires i < |results|
    requires forall j :: i < j < |results| ==> BoundValue(results[j], RorIdVariable) != BoundValue(results[i], RorIdVariable)
    ensures BoundValue(results[i], RorIdVariable).Some? && BoundValue(results[i], ItemVariable).Some?
    ensures Get(ProcessWikidataResults(results, claims).value, BoundValue(results[i], RorIdVariable).value)
         == Some(MakeRecord(LastSegment(BoundValue(results[i], ItemVariable).value), results[i], ClaimNames(claims)))
  {
    var es := Entries(results, ClaimNames(claims)).value;
    forall j | i < j < |es|
      ensures es[j].0 != es[i].0
    {
      assert BoundValue(results[j], RorIdVariable) != BoundValue(results[i], RorIdVariable);
    }
    LastValueAt(es, i);
  }

  /**
   `worker`: the normalised page, or `{}` when the request failed or the
   bindings could not be normalised.
   */
  function Worker(response: Response, claims: Claims): (r: Page)
    ensures Valid(r)
    ensures response.RequestFailed? ==> r == []
    ensures response.Bindings? && ProcessWikidataResults(response.results, claims).None? ==> r == []
    ensures response.Bindings? && ProcessWikidataResults(response.results, claims).Some? ==>
      r == ProcessWikidataResults(response.results, claims).value
    ensures forall p :: p in r ==> HasFields(p.1, ClaimNames(claims))
  {
    match response
    case RequestFailed => []
    case Bindings(results) =>
      match ProcessWikidataResults(results, claims)
      case None => []
      case Some(page) =>
        PageRecordsHaveFields(results, claims);
        page
  }
}
