/** The statement-kind classifier of the legacy JDBC sniffer
    (com.github.bedrin.jdbc.sniffer.sql.StatementMetaData). */
module SqlStatementMetaData {
  import opened Wrappers
  import opened JavaText

  /** The statement kinds this classifier distinguishes. */
  datatype Query = SELECT | INSERT | UPDATE | DELETE | MERGE | OTHER

  /** An executed statement: the sql exactly as given, its kind, and the id of
      the thread that executed it. */
  datatype StatementMetaData = StatementMetaData(sql: string, query: Query, owner: int)

  /** The text the keyword test looks at. */
  function Normalize(sql: string): string {
    ToLower(Trim(sql))
  }

  /** The if/else-if chain over the normalised text. */
  function Classify(normalized: string): Query {
    if StartsWith(normalized, "select ") then SELECT
    else if StartsWith(normalized, "insert ") then INSERT
    else if StartsWith(normalized, "update ") then UPDATE
    else if StartsWith(normalized, "delete ") then DELETE
    else if StartsWith(normalized, "merge ") then MERGE
    else OTHER
  }

  /** StatementMetaData.parse: null stays null; otherwise the original sql is
      stored, classified on its normalised form, and owned by `owner`, the
      calling thread. */
  function Parse(sql: Option<string>, owner: int): (r: Option<StatementMetaData>)
    ensures r.None? <==> sql.None?
    ensures r.Some? ==> r.value.sql == sql.value && r.value.owner == owner
    ensures r.Some? ==> r.value.query == Classify(Normalize(sql.value))
  {
    match sql
    case None => None
    case Some(s) => Some(StatementMetaData(s, Classify(Normalize(s)), owner))
  }

  /** The keyword that selects each kind, with its trailing space. */
  function Keyword(q: Query): string
    requires q != OTHER
  {
    match q
    case SELECT => "select "
    case INSERT => "insert "
    case UPDATE => "update "
    case DELETE => "delete "
    case MERGE => "merge "
  }

  /** A kind other than OTHER is chosen exactly when the normalised text starts
      with its keyword; OTHER exactly when it starts with none of them. */
  lemma ClassifyIff(n: string, q: Query)
    ensures q != OTHER ==> (Classify(n) == q <==> StartsWith(n, Keyword(q)))
    ensures Classify(n) == OTHER <==>
      !StartsWith(n, "select ") && !StartsWith(n, "insert ") && !StartsWith(n, "update ") &&
      !StartsWith(n, "delete ") && !StartsWith(n, "merge ")
  {
    PrefixesExclusive(n, "select ", "insert ");
    PrefixesExclusive(n, "select ", "update ");
    PrefixesExclusive(n, "select ", "delete ");
    PrefixesExclusive(n, "select ", "merge ");
    PrefixesExclusive(n, "insert ", "update ");
    PrefixesExclusive(n, "insert ", "delete ");
    PrefixesExclusive(n, "insert ", "merge ");
    PrefixesExclusive(n, "update ", "delete ");
    PrefixesExclusive(n, "update ", "merge ");
    PrefixesExclusive(n, "delete ", "merge ");
  }

  /** Two texts that differ only in letter case classify alike. */
  lemma ClassifyIgnoresCase(a: string, b: string)
    requires ToLower(a) == ToLower(b)
    ensures Classify(Normalize(a)) == Classify(Normalize(b))
  {
    TrimLowerCommute(a);
    TrimLowerCommute(b);
  }

  /** Surrounding whitespace does not change the classification. */
  lemma ClassifyIgnoresSurroundingWhitespace(s: string)
    ensures Classify(Normalize(Trim(s))) == Classify(Normalize(s))
  {
    TrimIdempotent(s);
  }

  /** Text already trimmed and in lower case is classified as it stands. */
  lemma ParseOfNormal(s: string, owner: int)
    requires |s| > 0 && !IsTrimmable(s[0]) && !IsTrimmable(s[|s| - 1])
    requires forall i :: 0 <= i < |s| ==> !('A' <= s[i] <= 'Z')
    ensures Parse(Some(s), owner) == Some(StatementMetaData(s, Classify(s), owner))
  {
    TrimLowerNoop(s);
  }

  /** The keyword must be followed by a space: a newline does not count. */
  lemma NewlineAfterKeywordIsOther()
    ensures Parse(Some("select\n1"), 0) == Some(StatementMetaData("select\n1", OTHER, 0))
  {
    var s := "select\n1";
    ParseOfNormal(s, 0);
    assert s[..7][6] != "select "[6];
    assert s[..6][0] != "merge "[0] && s[..7][0] != "insert "[0];
    assert s[..7][0] != "update "[0] && s[..7][0] != "delete "[0];
  }

  lemma MergeIsMerge()
    ensures Parse(Some("merge into t"), 3) == Some(StatementMetaData("merge into t", MERGE, 3))
  {
    ParseOfNormal("merge into t", 3);
    ClassifyIff("merge into t", MERGE);
  }
}
