/**
 The query text sent to the SPARQL endpoint: the base query built from the
 claim map, and the request text that appends a `LIMIT`/`OFFSET` page
 window to it (sections 15.4 and 15.5 of the SPARQL 1.1 Query Language;
 each claim is an `OPTIONAL` group pattern, section 6). Only the text is
 modelled; claim ids and names are interpolated verbatim, so nothing here
 assumes they are well-formed SPARQL names.
 */
module SparqlQuery {
  import opened Wrappers
  import opened Strings
  import opened Decimal

  /**
   The claim map as decoded by `json`: its (claim id, claim name) items in
   the object's order, each id once (a decoded JSON object has distinct keys).
   */
  type Claims = seq<(string, string)>

  /** The Wikidata property holding an item's ROR ID. */
  const RorIdProperty: string := "P6782"

  /** The triple every result matches: the item has a ROR ID. */
  const RorIdTriple: string := "  ?item wdt:" + RorIdProperty + " ?rorID ."

  const SelectHead: string := "SELECT ?item ?rorID"
  const WhereHead: string := "WHERE {" + "\n" + RorIdTriple

  /** The query variable `?<name>`. */
  function Variable(name: string): string
  {
    "?" + name
  }

  /** The `OPTIONAL` group for one claim, as one line (without its leading newline). */
  function OptionalLine(id: string, name: string): string
  {
    "  OPTIONAL { ?item wdt:" + id + " " + Variable(name) + " }"
  }

  /** The select clause once the loop over `claims` has appended ` ?<name>` for each item. */
  function SelectClause(claims: Claims): string
    decreases |claims|
  {
    if |claims| == 0 then SelectHead
    else SelectClause(claims[..|claims| - 1]) + " " + Variable(claims[|claims| - 1].1)
  }

  /** The where clause once the loop over `claims` has appended a newline and an `OPTIONAL` line per item. */
  function WhereClause(claims: Claims): string
    decreases |claims|
  {
    if |claims| == 0 then WhereHead
    else
      var (id, name) := claims[|claims| - 1];
      WhereClause(claims[..|claims| - 1]) + "\n" + OptionalLine(id, name)
  }

  /** `generate_sparql_query(claims)`. */
  function GenerateSparqlQuery(claims: Claims): string
  {
    SelectClause(claims) + "\n" + WhereClause(claims) + "\n}"
  }

  /** `f"{query} LIMIT {limit} OFFSET {offset}"`: the text of one page request. */
  function FullQuery(query: string, limit: int, offset: int): (r: string)
    ensures |r| > |query| && r[..|query|] == query
  {
    query + " LIMIT " + IntToString(limit) + " OFFSET " + IntToString(offset)
  }

  // ----- The query read as lines and words -----

  /** The words of the select line: `SELECT ?item ?rorID`, then `?<name>` per claim, in order. */
  function SelectTokens(claims: Claims): (r: seq<string>)
    ensures |r| == |claims| + 3
  {
    ["SELECT", "?item", "?rorID"] + seq(|claims|, i requires 0 <= i < |claims| => Variable(claims[i].1))
  }

  function OptionalLines(claims: Claims): (r: seq<string>)
    ensures |r| == |claims|
  {
    seq(|claims|, i requires 0 <= i < |claims| => OptionalLine(claims[i].0, claims[i].1))
  }

  /**
   The query as lines: the select line, `WHERE {`, the fixed ROR ID triple,
   one `OPTIONAL` line per claim in claim-map order, and the closing brace.
   */
  function QueryLines(claims: Claims): (r: seq<string>)
    ensures |r| == |claims| + 4
  {
    [Join(SelectTokens(claims), ' '), "WHERE {", RorIdTriple]
      + OptionalLines(claims) + ["}"]
  }

  /** No claim id or name contains the character `c`. */
  predicate ClaimsAvoid(claims: Claims, c: char)
  {
    forall i :: 0 <= i < |claims| ==> c !in claims[i].0 && c !in claims[i].1
  }

  lemma {:induction false} SelectClauseTokens(claims: Claims)
    ensures SelectClause(claims) == Join(SelectTokens(claims), ' ')
    decreases |claims|
  {
    if |claims| == 0 {
      assert SelectTokens(claims) == ["SELECT", "?item", "?rorID"];
      assert Join(["?item", "?rorID"], ' ') == "?item" + [' '] + "?rorID";
    } else {
      var prefix := claims[..|claims| - 1];
      var name := claims[|claims| - 1].1;
      SelectClauseTokens(prefix);
      assert SelectTokens(claims) == SelectTokens(prefix) + [Variable(name)];
      JoinSnoc(SelectTokens(prefix), Variable(name), ' ');
    }
  }

  lemma {:induction false} WhereClauseLines(claims: Claims)
    ensures WhereClause(claims)
         == Join(["WHERE {", RorIdTriple] + OptionalLines(claims), '\n')
    decreases |claims|
  {
    var head := ["WHERE {", RorIdTriple];
    if |claims| == 0 {
      assert head + OptionalLines(claims) == head;
    } else {
      var prefix := claims[..|claims| - 1];
      var (id, name) := claims[|claims| - 1];
      WhereClauseLines(prefix);
      assert OptionalLines(claims) == OptionalLines(prefix) + [OptionalLine(id, name)];
      assert head + OptionalLines(claims) == (head + OptionalLines(prefix)) + [OptionalLine(id, name)];
      JoinSnoc(head + OptionalLines(prefix), OptionalLine(id, name), '\n');
    }
  }

  /** Joining a first line, a block of lines and a last line. */
  lemma JoinFramed(first: string, body: seq<string>, last: string, sep: char)
    requires |body| >= 1
    ensures Join([first] + body + [last], sep) == first + [sep] + Join(body, sep) + [sep] + last
  {
    JoinConcat([first], body, sep);
    JoinSnoc([first] + body, last, sep);
  }

  /** The query text: the select clause, a newline, the where clause, a newline and `}`. */
  lemma QueryFrame(claims: Claims)
    ensures GenerateSparqlQuery(claims) == SelectClause(claims) + ['\n'] + WhereClause(claims) + ['\n'] + "}"
  {
    assert "\n}" == ['\n'] + "}";
  }

  /** The query is its lines joined by newlines. */
  lemma QueryIsLines(claims: Claims)
    ensures GenerateSparqlQuery(claims) == Join(QueryLines(claims), '\n')
  {
    SelectClauseTokens(claims);
    WhereClauseLines(claims);
    QueryFrame(claims);
    var body := ["WHERE {", RorIdTriple] + OptionalLines(claims);
    var select := SelectClause(claims);
    assert QueryLines(claims) == [select] + body + ["}"];
    JoinFramed(select, body, "}", '\n');
  }

  /** Text joined from pieces that avoid `c`, with a separator other than `c`, avoids `c`. */
  lemma {:induction false} JoinAvoids(pieces: seq<string>, sep: char, c: char)
    requires c != sep
    requires forall i :: 0 <= i < |pieces| ==> c !in pieces[i]
    ensures c !in Join(pieces, sep)
    decreases |pieces|
  {
    if |pieces| > 1 {
      JoinAvoids(pieces[1..], sep, c);
    }
  }

  /** The select words avoid a character that the claim names avoid and the fixed words avoid. */
  lemma SelectTokensAvoid(claims: Claims, c: char)
    requires c !in "SELECT" && c !in "?item" && c !in "?rorID"
    requires forall i :: 0 <= i < |claims| ==> c !in claims[i].1
    ensures forall i :: 0 <= i < |SelectTokens(claims)| ==> c !in SelectTokens(claims)[i]
  {
    var tokens := SelectTokens(claims);
    forall i | 0 <= i < |tokens|
      ensures c !in tokens[i]
    {
      if i >= 3 {
        assert tokens[i] == Variable(claims[i - 3].1);
      }
    }
  }

  /** No `OPTIONAL` line holds a newline when no claim id or name does. */
  lemma OptionalLinesAvoidNewline(claims: Claims)
    requires ClaimsAvoid(claims, '\n')
    ensures forall i :: 0 <= i < |claims| ==> '\n' !in OptionalLines(claims)[i]
  {
    forall i | 0 <= i < |claims|
      ensures '\n' !in OptionalLines(claims)[i]
    {
      var (id, name) := claims[i];
      assert OptionalLines(claims)[i] == "  OPTIONAL { ?item wdt:" + id + " " + ("?" + name) + " }";
    }
  }

  /** No line of the query holds a newline when no claim id or name does. */
  lemma QueryLinesAvoidNewline(claims: Claims)
    requires ClaimsAvoid(claims, '\n')
    ensures forall i :: 0 <= i < |QueryLines(claims)| ==> '\n' !in QueryLines(claims)[i]
  {
    SelectTokensAvoid(claims, '\n');
    JoinAvoids(SelectTokens(claims), ' ', '\n');
    OptionalLinesAvoidNewline(claims);
    var fixed := [Join(SelectTokens(claims), ' '), "WHERE {", RorIdTriple];
    assert forall i :: 0 <= i < 3 ==> '\n' !in fixed[i];
    var lines := QueryLines(claims);
    assert lines == fixed + OptionalLines(claims) + ["}"];
  }

  /**
   When no claim id or name contains a newline, splitting the query at
   newlines gives back exactly its lines: `|claims| + 4` of them, with one
   `OPTIONAL` line per claim in claim-map order.
   */
  lemma QueryLinesRecovered(claims: Claims)
    requires ClaimsAvoid(claims, '\n')
    ensures Split(GenerateSparqlQuery(claims), '\n') == QueryLines(claims)
  {
    QueryIsLines(claims);
    QueryLinesAvoidNewline(claims);
    SplitJoin(QueryLines(claims), '\n');
  }

  /** The fixed words of the select line hold no newline. */
  lemma FixedSelectWordsAvoidNewline()
    ensures '\n' !in "SELECT" && '\n' !in "?item" && '\n' !in "?rorID"
  {
  }

  /** The select clause holds no newline when no claim name does. */
  lemma SelectClauseAvoidsNewline(claims: Claims)
    requires forall i :: 0 <= i < |claims| ==> '\n' !in claims[i].1
    ensures '\n' !in SelectClause(claims)
  {
    FixedSelectWordsAvoidNewline();
    SelectTokensAvoid(claims, '\n');
    JoinAvoids(SelectTokens(claims), ' ', '\n');
    SelectClauseTokens(claims);
  }

  /** The query is the select clause, a newline, and the rest of the text. */
  lemma QueryAfterSelect(claims: Claims)
    ensures GenerateSparqlQuery(claims) == SelectClause(claims) + ['\n'] + (WhereClause(claims) + "\n}")
  {
    assert "\n" == ['\n'];
  }

  /** When no claim name contains a newline, the first line of the query is the select clause. */
  lemma FirstLineIsSelect(claims: Claims)
    requires forall i :: 0 <= i < |claims| ==> '\n' !in claims[i].1
    ensures Split(GenerateSparqlQuery(claims), '\n')[0] == SelectClause(claims)
  {
    SelectClauseAvoidsNewline(claims);
    QueryAfterSelect(claims);
    FirstPiece(SelectClause(claims), WhereClause(claims) + "\n}", '\n');
  }

  /**
   When no claim name contains a space or a newline, the first line of the
   query splits into `SELECT`, `?item`, `?rorID` and one `?<name>` per claim,
   in claim-map order. Claim ids do not reach the first line, so they are
   unrestricted.
   */
  lemma SelectLineRecovered(claims: Claims)
    requires forall i :: 0 <= i < |claims| ==> '\n' !in claims[i].1 && ' ' !in claims[i].1
    ensures Split(Split(GenerateSparqlQuery(claims), '\n')[0], ' ') == SelectTokens(claims)
  {
    FirstLineIsSelect(claims);
    SelectClauseTokens(claims);
    SelectTokensAvoid(claims, ' ');
    SplitJoin(SelectTokens(claims), ' ');
  }

  /** With no claims the query selects only `?item` and `?rorID` and has only the ROR ID triple. */
  lemma QueryWithoutClaims()
    ensures GenerateSparqlQuery([])
         == "SELECT ?item ?rorID" + "\n" + "WHERE {" + "\n" + "  ?item wdt:P6782 ?rorID ." + "\n" + "}"
  {
    QueryFrame([]);
  }

  /** Join unfolded once: the first piece, the separator, the join of the rest. */
  lemma JoinWords(pieces: seq<string>, sep: char)
    requires |pieces| >= 2
    ensures Join(pieces, sep) == pieces[0] + [sep] + Join(pieces[1..], sep)
  {
  }

  lemma FullQueryAsWords(query: string, l: string, o: string)
    ensures query + " LIMIT " + l + " OFFSET " + o == query + [' '] + Join(["LIMIT", l, "OFFSET", o], ' ')
  {
    assert " LIMIT " == [' '] + "LIMIT" + [' '];
    assert " OFFSET " == [' '] + "OFFSET" + [' '];
    JoinWords(["OFFSET", o], ' ');
    JoinWords([l, "OFFSET", o], ' ');
    JoinWords(["LIMIT", l, "OFFSET", o], ' ');
  }

  /**
   The request text ends in the words `LIMIT <limit> OFFSET <offset>`,
   the numbers written as `str` writes them and reading back as `limit`
   and `offset`; every word before them is a
   word of the base query, whatever the query contains.
   */
  lemma FullQueryWindow(query: string, limit: int, offset: int)
    ensures var words := Split(FullQuery(query, limit, offset), ' ');
      && |words| >= 5
      && words[..|words| - 4] == Split(query, ' ')
      && words[|words| - 4] == "LIMIT"
      && words[|words| - 3] == IntToString(limit)
      && ParseInt(words[|words| - 3]) == Some(limit)
      && words[|words| - 2] == "OFFSET"
      && words[|words| - 1] == IntToString(offset)
      && ParseInt(words[|words| - 1]) == Some(offset)
  {
    var l := IntToString(limit);
    var o := IntToString(offset);
    var window := ["LIMIT", l, "OFFSET", o];
    FullQueryAsWords(query, l, o);
    SplitConcat(query, Join(window, ' '), ' ');
    SplitJoin(window, ' ');
    ParseIntToString(limit);
    ParseIntToString(offset);
  }
}
