/** The statement-type classifier of the legacy JDBC sniffer
    (com.github.bedrin.jdbc.sniffer.sql.Query), which also treats WITH as SELECT
    and has no MERGE. */
module SqlQuery {
  import opened Wrappers
  import opened JavaText

  datatype Type = SELECT | INSERT | UPDATE | DELETE | OTHER

  datatype Query = Query(queryType: Type)

  function Normalize(sql: string): string {
    ToLower(Trim(sql))
  }

  function Classify(normalized: string): Type {
    if StartsWith(normalized, "select ") || StartsWith(normalized, "with ") then SELECT
    else if StartsWith(normalized, "insert ") then INSERT
    else if StartsWith(normalized, "update ") then UPDATE
    else if StartsWith(normalized, "delete ") then DELETE
    else OTHER
  }

  /** Query.parse: null stays null, any other text is classified on its
      normalised form. */
  function Parse(sql: Option<string>): (r: Option<Query>)
    ensures r.None? <==> sql.None?
    ensures r.Some? ==> r.value.queryType == Classify(Normalize(sql.value))
  {
    match sql
    case None => None
    case Some(s) => Some(Query(Classify(Normalize(s))))
  }

  /** SELECT exactly for the "select " and "with " prefixes; INSERT, UPDATE and
      DELETE exactly for their keyword; everything else, "merge " included, is
      OTHER. */
  lemma ClassifyIff(n: string)
    ensures Classify(n) == SELECT <==> StartsWith(n, "select ") || StartsWith(n, "with ")
    ensures Classify(n) == INSERT <==> StartsWith(n, "insert ")
    ensures Classify(n) == UPDATE <==> StartsWith(n, "update ")
    ensures Classify(n) == DELETE <==> StartsWith(n, "delete ")
    ensures StartsWith(n, "merge ") ==> Classify(n) == OTHER
  {
    PrefixesExclusive(n, "select ", "with ");
    PrefixesExclusive(n, "select ", "insert ");
    PrefixesExclusive(n, "select ", "update ");
    PrefixesExclusive(n, "select ", "delete ");
    PrefixesExclusive(n, "select ", "merge ");
    PrefixesExclusive(n, "with ", "insert ");
    PrefixesExclusive(n, "with ", "update ");
    PrefixesExclusive(n, "with ", "delete ");
    PrefixesExclusive(n, "with ", "merge ");
    PrefixesExclusive(n, "insert ", "update ");
    PrefixesExclusive(n, "insert ", "delete ");
    PrefixesExclusive(n, "insert ", "merge ");
    PrefixesExclusive(n, "update ", "delete ");
    PrefixesExclusive(n, "update ", "merge ");
    PrefixesExclusive(n, "delete ", "merge ");
  }

  lemma ClassifyIgnoresCase(a: string, b: string)
    requires ToLower(a) == ToLower(b)
    ensures Classify(Normalize(a)) == Classify(Normalize(b))
  {
    TrimLowerCommute(a);
    TrimLowerCommute(b);
  }

  lemma ClassifyIgnoresSurroundingWhitespace(s: string)
    ensures Classify(Normalize(Trim(s))) == Classify(Normalize(s))
  {
    TrimIdempotent(s);
  }

  /** Text already trimmed and in lower case is classified as it stands. */
  lemma ParseOfNormal(s: string)
    requires |s| > 0 && !IsTrimmable(s[0]) && !IsTrimmable(s[|s| - 1])
    requires forall i :: 0 <= i < |s| ==> !('A' <= s[i] <= 'Z')
    ensures Parse(Some(s)) == Some(Query(Classify(s)))
  {
    TrimLowerNoop(s);
  }

  lemma CommonTableExpressionIsSelect()
    ensures Parse(Some("with t as (values 1) table t")) == Some(Query(SELECT))
  {
    var s := "with t as (values 1) table t";
    ParseOfNormal(s);
    assert s[..5] == "with ";
  }

  /** This classifier has no MERGE kind. */
  lemma MergeIsOther()
    ensures Parse(Some("merge into t")) == Some(Query(OTHER))
  {
    ParseOfNormal("merge into t");
    ClassifyIff("merge into t");
  }
}
