/** WrongNumberOfRowsError: the assertion failure raised when the number of
    rows returned or affected falls outside the expected range. It keeps the
    expectation and the observed statements and builds a detail message that
    lists the statements matching the expected query kind.

    The map of executed statements is given as its entries in iteration
    order; `None` stands for a null map. */
module WrongNumberOfRows {
  import opened Wrappers
  import opened JavaText

  /** io.sniffy.Threads: which threads an expectation counts. */
  datatype Threads = ANY | CURRENT | OTHERS

  /** io.sniffy.Query: the kind of statement an expectation counts. */
  datatype Query = ANY | SELECT | INSERT | UPDATE | DELETE | MERGE | OTHER

  /** The parts of a StatementMetaData key the error reads. */
  datatype StatementMetaData = StatementMetaData(sql: string, query: Query)

  /** The part of SqlStats the error reads. */
  datatype SqlStats = SqlStats(rows: Int32)

  type Entry = (StatementMetaData, SqlStats)

  datatype Failure = NullPointer

  /** The error's final fields; the getters read them unchanged. */
  datatype WrongNumberOfRowsError = WrongNumberOfRowsError(
    message: string,
    threadMatcher: Threads,
    query: Option<Query>,
    minimumRows: Int32,
    maximumRows: Int32,
    numRows: Int32,
    executedStatements: seq<Entry>)

  /** The expected range that opens the message. */
  function RangeText(minimumRows: Int32, maximumRows: Int32): string {
    "Expected between " + Decimal(minimumRows) + " and " + Decimal(maximumRows)
  }

  /** The thread wording after the expected range. */
  function ThreadsText(threadMatcher: Threads): string {
    if threadMatcher == CURRENT then " current thread"
    else if threadMatcher == OTHERS then " other threads"
    else ""
  }

  /** The row wording: the SELECT branch and the fallback say the same. */
  function RowsText(query: Option<Query>): (r: string)
    ensures r == "affected" <==> query == Some(INSERT) || query == Some(UPDATE) || query == Some(MERGE)
    ensures r != "affected" ==> r == "returned / affected"
  {
    if query == Some(SELECT) then "returned / affected"
    else if query == Some(INSERT) || query == Some(UPDATE) || query == Some(MERGE) then "affected"
    else "returned / affected"
  }

  function RowsHeading(query: Option<Query>): string {
    " rows " + RowsText(query)
  }

  function Observed(numRows: Int32): string {
    "Observed " + Decimal(numRows) + " rows instead:"
  }

  /** Whether a statement gets a line under the given filter. */
  predicate Listed(query: Option<Query>, statement: StatementMetaData) {
    query == Some(Query.ANY) || query.None? || statement.query == query.value
  }

  /** The entries that get a line, in iteration order. */
  function ListedEntries(entries: seq<Entry>, query: Option<Query>): seq<Entry> {
    if |entries| == 0 then []
    else
      var last := entries[|entries| - 1];
      ListedEntries(entries[..|entries| - 1], query) + (if Listed(query, last.0) then [last] else [])
  }

  /** One statement line. */
  function Line(e: Entry, lineSeparator: string): string {
    e.0.sql + "; /* " + Decimal(e.1.rows) + " rows */" + lineSeparator
  }

  /** The lines of the given entries, one after the other. */
  function Lines(entries: seq<Entry>, lineSeparator: string): string {
    if |entries| == 0 then ""
    else Lines(entries[..|entries| - 1], lineSeparator) + Line(entries[|entries| - 1], lineSeparator)
  }

  /** Everything before the statement lines. */
  function Header(threadMatcher: Threads, query: Option<Query>, minimumRows: Int32, maximumRows: Int32,
                  numRows: Int32, lineSeparator: string): string
  {
    RangeText(minimumRows, maximumRows) + ThreadsText(threadMatcher) + RowsHeading(query)
    + lineSeparator + Observed(numRows)
  }

  /** The statement lines: none for a null map. */
  function StatementLines(query: Option<Query>, executedStatements: Option<seq<Entry>>, lineSeparator: string): string {
    if executedStatements.None? then "" else Lines(ListedEntries(executedStatements.value, query), lineSeparator)
  }

  /** The detail message buildDetailMessage produces. */
  function DetailMessage(threadMatcher: Threads, query: Option<Query>, minimumRows: Int32, maximumRows: Int32,
                         numRows: Int32, executedStatements: Option<seq<Entry>>, lineSeparator: string): string
  {
    Header(threadMatcher, query, minimumRows, maximumRows, numRows, lineSeparator)
    + StatementLines(query, executedStatements, lineSeparator)
  }

  /** The loop of buildDetailMessage over the map's entries. */
  method AppendLines(header: string, entries: seq<Entry>, query: Option<Query>, lineSeparator: string) returns (sb: string)
    ensures sb == header + Lines(ListedEntries(entries, query), lineSeparator)
  {
    sb := header;
    for i := 0 to |entries|
      invariant sb == header + Lines(ListedEntries(entries[..i], query), lineSeparator)
    {
      ListedLinesStep(entries, i, query, lineSeparator);
      if query == Some(Query.ANY) || query.None? || entries[i].0.query == query.value {
        AppendAssociative(header, Lines(ListedEntries(entries[..i], query), lineSeparator), Line(entries[i], lineSeparator));
        sb := sb + Line(entries[i], lineSeparator);
      } else {
        assert Lines(ListedEntries(entries[..i], query), lineSeparator) + "" == Lines(ListedEntries(entries[..i], query), lineSeparator);
      }
    }
    assert entries[..|entries|] == entries;
  }

  /** buildDetailMessage: the StringBuilder and the loop over the entries. */
  method BuildDetailMessage(threadMatcher: Threads, query: Option<Query>, minimumQueries: Int32, maximumQueries: Int32,
                            numQueries: Int32, executedStatements: Option<seq<Entry>>, lineSeparator: string)
    returns (r: string)
    ensures r == DetailMessage(threadMatcher, query, minimumQueries, maximumQueries, numQueries, executedStatements, lineSeparator)
  {
    var sb := RangeText(minimumQueries, maximumQueries);
    if threadMatcher == CURRENT {
      sb := sb + " current thread";
    } else if threadMatcher == OTHERS {
      sb := sb + " other threads";
    }
    assert sb == RangeText(minimumQueries, maximumQueries) + ThreadsText(threadMatcher);
    sb := sb + RowsHeading(query) + lineSeparator + Observed(numQueries);
    if executedStatements.Some? {
      sb := AppendLines(sb, executedStatements.value, query, lineSeparator);
    } else {
      assert sb + "" == sb;
    }
    return sb;
  }

  lemma AppendAssociative(a: string, b: string, c: string)
    ensures a + b + c == a + (b + c)
  {
  }

  /** One more entry adds its line exactly when it is listed. */
  lemma ListedLinesStep(entries: seq<Entry>, i: nat, query: Option<Query>, lineSeparator: string)
    requires i < |entries|
    ensures Lines(ListedEntries(entries[..i + 1], query), lineSeparator)
            == Lines(ListedEntries(entries[..i], query), lineSeparator)
               + (if Listed(query, entries[i].0) then Line(entries[i], lineSeparator) else "")
  {
    assert entries[..i + 1][..i] == entries[..i];
    var before := ListedEntries(entries[..i], query);
    if Listed(query, entries[i].0) {
      assert (before + [entries[i]])[..|before|] == before;
    } else {
      assert before + [] == before;
    }
  }

  /** The constructor: the message is built first (a null map gives no
      lines), then wrapping a null map throws NullPointerException. */
  method Create(threadMatcher: Threads, query: Option<Query>, minimumRows: Int32, maximumQueries: Int32,
                numRows: Int32, executedStatements: Option<seq<Entry>>, lineSeparator: string)
    returns (r: Result<WrongNumberOfRowsError, Failure>)
    ensures r.Err? <==> executedStatements.None?
    ensures r.Ok? ==> r.value.threadMatcher == threadMatcher && r.value.query == query
    ensures r.Ok? ==> r.value.minimumRows == minimumRows && r.value.maximumRows == maximumQueries
    ensures r.Ok? ==> r.value.numRows == numRows && r.value.executedStatements == executedStatements.value
    ensures r.Ok? ==> r.value.message
                      == DetailMessage(threadMatcher, query, minimumRows, maximumQueries, numRows, executedStatements, lineSeparator)
  {
    var message := BuildDetailMessage(threadMatcher, query, minimumRows, maximumQueries, numRows, executedStatements, lineSeparator);
    if executedStatements.None? {
      return Err(NullPointer);
    }
    return Ok(WrongNumberOfRowsError(message, threadMatcher, query, minimumRows, maximumQueries, numRows, executedStatements.value));
  }

  /** getExecutedSqls: the sql of every key, in iteration order. */
  method GetExecutedSqls(e: WrongNumberOfRowsError) returns (sqls: seq<string>)
    ensures |sqls| == |e.executedStatements|
    ensures forall i :: 0 <= i < |sqls| ==> sqls[i] == e.executedStatements[i].0.sql
  {
    sqls := [];
    for i := 0 to |e.executedStatements|
      invariant |sqls| == i
      invariant forall j :: 0 <= j < i ==> sqls[j] == e.executedStatements[j].0.sql
    {
      sqls := sqls + [e.executedStatements[i].0.sql];
    }
  }

  /** getExecutedStatements: the keys, in iteration order. */
  function ExecutedStatements(e: WrongNumberOfRowsError): (keys: seq<StatementMetaData>)
    ensures |keys| == |e.executedStatements|
    ensures forall i :: 0 <= i < |keys| ==> keys[i] == e.executedStatements[i].0
  {
    seq(|e.executedStatements|, i requires 0 <= i < |e.executedStatements| => e.executedStatements[i].0)
  }

  // Properties of the message.

  /** A prefix stays a prefix when text is appended. */
  lemma PrefixExtended(s: string, p: string, t: string)
    requires StartsWith(s, p)
    ensures StartsWith(s + t, p)
  {
    assert (s + t)[..|p|] == s[..|p|];
  }

  /** The text appended last is what a string ends with. */
  lemma SuffixOfAppend(front: string, middle: string, back: string)
    ensures var s := front + middle + back; s[|s| - |middle + back|..] == middle + back
  {
    assert front + middle + back == front + (middle + back);
  }

  /** The message opens with the expected range and the thread wording, then
      " rows ". */
  lemma MessageStartsWithRange(threadMatcher: Threads, query: Option<Query>, minimumRows: Int32, maximumRows: Int32,
                               numRows: Int32, executedStatements: Option<seq<Entry>>, lineSeparator: string)
    ensures var m := DetailMessage(threadMatcher, query, minimumRows, maximumRows, numRows, executedStatements, lineSeparator);
            StartsWith(m, RangeText(minimumRows, maximumRows)) &&
            StartsWith(m, RangeText(minimumRows, maximumRows) + ThreadsText(threadMatcher)) &&
            StartsWith(m, RangeText(minimumRows, maximumRows) + ThreadsText(threadMatcher) + RowsHeading(query))
  {
    var r := RangeText(minimumRows, maximumRows);
    var t := ThreadsText(threadMatcher);
    var h := RowsHeading(query);
    var o := Observed(numRows);
    var l := StatementLines(query, executedStatements, lineSeparator);
    assert StartsWith(r + t + h, r + t + h);
    PrefixExtended(r, r, t);
    PrefixExtended(r + t, r, h);
    PrefixExtended(r + t, r + t, h);
    var x := r + t + h;
    PrefixExtended(x, r, lineSeparator);
    PrefixExtended(x, r + t, lineSeparator);
    PrefixExtended(x, x, lineSeparator);
    var y := x + lineSeparator;
    PrefixExtended(y, r, o);
    PrefixExtended(y, r + t, o);
    PrefixExtended(y, x, o);
    var z := y + o;
    PrefixExtended(z, r, l);
    PrefixExtended(z, r + t, l);
    PrefixExtended(z, x, l);
  }

  /** The thread wording: " current thread" for CURRENT, " other threads"
      for OTHERS, and nothing for ANY. */
  lemma ThreadsWording(t: Threads)
    ensures t == CURRENT <==> ThreadsText(t) == " current thread"
    ensures t == OTHERS <==> ThreadsText(t) == " other threads"
    ensures t == Threads.ANY <==> ThreadsText(t) == ""
  {
  }

  /** The message ends with "Observed <n> rows instead:" followed by exactly
      the lines of the listed entries. */
  lemma MessageEndsWithObservedLines(threadMatcher: Threads, query: Option<Query>, minimumRows: Int32,
      maximumRows: Int32, numRows: Int32, executedStatements: Option<seq<Entry>>, lineSeparator: string)
    ensures var m := DetailMessage(threadMatcher, query, minimumRows, maximumRows, numRows, executedStatements, lineSeparator);
            var tail := Observed(numRows) + StatementLines(query, executedStatements, lineSeparator);
            |tail| <= |m| && m[|m| - |tail|..] == tail
  {
    var front := RangeText(minimumRows, maximumRows) + ThreadsText(threadMatcher) + RowsHeading(query) + lineSeparator;
    SuffixOfAppend(front, Observed(numRows), StatementLines(query, executedStatements, lineSeparator));
  }

  /** With a null map the message is the header alone. */
  lemma NullMapNoLines(threadMatcher: Threads, query: Option<Query>, minimumRows: Int32, maximumRows: Int32,
                       numRows: Int32, lineSeparator: string)
    ensures DetailMessage(threadMatcher, query, minimumRows, maximumRows, numRows, None, lineSeparator)
            == Header(threadMatcher, query, minimumRows, maximumRows, numRows, lineSeparator)
  {
  }

  /** Under ANY or a null filter every statement gets a line. */
  lemma {:induction false} AnyListsAll(entries: seq<Entry>, query: Option<Query>)
    requires query.None? || query == Some(Query.ANY)
    ensures ListedEntries(entries, query) == entries
  {
    if |entries| > 0 {
      AnyListsAll(entries[..|entries| - 1], query);
      assert entries[..|entries| - 1] + [entries[|entries| - 1]] == entries;
    }
  }

  /** Under a specific kind, the listed entries are exactly the entries of
      that kind: each listed one has it, and each one that has it is listed. */
  lemma {:induction false} KindListsMatching(entries: seq<Entry>, kind: Query)
    requires kind != Query.ANY
    ensures forall e :: e in ListedEntries(entries, Some(kind)) <==> e in entries && e.0.query == kind
  {
    if |entries| > 0 {
      var init := entries[..|entries| - 1];
      var last := entries[|entries| - 1];
      KindListsMatching(init, kind);
      assert entries == init + [last];
    }
  }

  /** The listed entries are drawn from the entries, so there are never more
      lines than statements. */
  lemma {:induction false} ListedEntriesBound(entries: seq<Entry>, query: Option<Query>)
    ensures |ListedEntries(entries, query)| <= |entries|
  {
    if |entries| > 0 {
      ListedEntriesBound(entries[..|entries| - 1], query);
    }
  }

  /** A scenario: a SELECT and then an INSERT under an INSERT filter; only
      the INSERT gets a line. */
  lemma InsertFilterScenario(select: StatementMetaData, insert: StatementMetaData, s1: SqlStats, s2: SqlStats, lineSeparator: string)
    requires select.query == SELECT && insert.query == INSERT
    ensures StatementLines(Some(INSERT), Some([(select, s1), (insert, s2)]), lineSeparator) == Line((insert, s2), lineSeparator)
  {
    var es := [(select, s1), (insert, s2)];
    assert es[..1] == [(select, s1)];
    assert [(select, s1)][..0] == [];
    assert ListedEntries([(select, s1)], Some(INSERT)) == [];
    assert ListedEntries(es, Some(INSERT)) == [(insert, s2)];
    assert [(insert, s2)][..0] == [];
    var line := Line((insert, s2), lineSeparator);
    assert Lines([(insert, s2)], lineSeparator) == "" + line;
    assert "" + line == line;
  }
}
