/** The Spy of sniffy-core (io.sniffy.Spy): an observation session over the
    records the Spy collects — executed statements, socket operations and
    captured network packets, each kept in insertion order — with views that
    filter them by thread and address, optionally drop call-site detail and
    merge the records whose keys then collide, and a list of expectations
    checked on verify and close.

    What an expectation finds when it checks the Spy (Expectation.verify) is
    a parameter `verdict`; the id of the calling thread, the packet merge
    threshold of the configuration and the stack of the closing thread are
    parameters too. */
module SniffySpy {
  import opened Wrappers
  import opened JavaText
  import opened ErrorChain
  import opened StackFrames
  import opened Grouping
  import opened SocketMeta
  import opened NetworkPackets
  import opened Traffic
  import ExceptionUtil

  // ---------------------------------------------------------------- matchers

  /** Threads.ANY, Threads.CURRENT and Threads.OTHERS. */
  datatype ThreadMatcher = ANY | CURRENT | OTHERS

  /** Whether a matcher accepts the thread that made a call. A key without
      thread metadata belongs to no particular thread. */
  predicate ThreadMatches(m: ThreadMatcher, currentThreadId: int, t: Option<ThreadMetaData>) {
    match m
    case ANY => true
    case CURRENT => t.Some? && t.value.threadId == currentThreadId
    case OTHERS => t.Some? && t.value.threadId != currentThreadId
  }

  /** An AddressMatcher: a test on the socket address. */
  type AddressMatcher = Address -> bool

  /** AddressMatchers.anyAddressMatcher. */
  function AnyAddress(a: Address): bool { true }

  /** getSocketOperations accepts every address when given no matcher. */
  predicate AddressMatches(m: Option<AddressMatcher>, a: Address) {
    m.None? || m.value(a)
  }

  // ---------------------------------------------------------------- executed statements

  /** StatementMetaData of sniffy-core: the statement text, its kind, where it
      was executed from and by which thread. Two keys are equal when all four
      are. */
  datatype StatementKey = StatementKey(sql: string, kind: nat, stackTrace: Option<string>, thread: ThreadMetaData)

  datatype SqlStats = SqlStats(elapsedTime: int, bytesDown: int, bytesUp: int, rows: int, queries: int)

  /** SqlStats.accumulate: field-wise addition. */
  function AccumulateSql(a: SqlStats, b: SqlStats): SqlStats {
    SqlStats(a.elapsedTime + b.elapsedTime, a.bytesDown + b.bytesDown, a.bytesUp + b.bytesUp,
      a.rows + b.rows, a.queries + b.queries)
  }

  function StatementId(k: StatementKey): StatementKey { k }

  /** The key getExecutedStatements files a record under. */
  function StatementKeyOf(k: StatementKey, removeStackTraces: bool): StatementKey {
    if removeStackTraces then StatementKey(k.sql, k.kind, None, k.thread) else k
  }

  /** The records getExecutedStatements keeps, under their new keys, in order. */
  function SelectStatements(records: seq<(StatementKey, SqlStats)>, threads: ThreadMatcher, currentThreadId: int,
                            removeStackTraces: bool): seq<(StatementKey, SqlStats)>
  {
    if |records| == 0 then []
    else
      var rest := SelectStatements(records[..|records| - 1], threads, currentThreadId, removeStackTraces);
      var last := records[|records| - 1];
      var key := StatementKeyOf(last.0, removeStackTraces);
      if ThreadMatches(threads, currentThreadId, Some(key.thread)) then rest + [(key, last.1)] else rest
  }

  /** The map getExecutedStatements returns. */
  function StatementView(records: seq<(StatementKey, SqlStats)>, threads: ThreadMatcher, currentThreadId: int,
                         removeStackTraces: bool): seq<(StatementKey, SqlStats)>
  {
    GroupBy(SelectStatements(records, threads, currentThreadId, removeStackTraces), StatementId, AccumulateSql)
  }

  /** The selection keeps exactly the records of matching threads, rekeyed. */
  lemma {:induction false} SelectStatementsMeaning(records: seq<(StatementKey, SqlStats)>, threads: ThreadMatcher,
                                                   currentThreadId: int, removeStackTraces: bool)
    ensures var sel := SelectStatements(records, threads, currentThreadId, removeStackTraces);
      forall i :: 0 <= i < |sel| ==>
        ThreadMatches(threads, currentThreadId, Some(sel[i].0.thread)) &&
        (removeStackTraces ==> sel[i].0.stackTrace.None?) &&
        exists j :: 0 <= j < |records| && sel[i] == (StatementKeyOf(records[j].0, removeStackTraces), records[j].1)
    ensures var sel := SelectStatements(records, threads, currentThreadId, removeStackTraces);
      forall j :: 0 <= j < |records| && ThreadMatches(threads, currentThreadId, Some(records[j].0.thread)) ==>
        (StatementKeyOf(records[j].0, removeStackTraces), records[j].1) in sel
  {
    if |records| > 0 {
      var init := records[..|records| - 1];
      var n := |records| - 1;
      SelectStatementsMeaning(init, threads, currentThreadId, removeStackTraces);
      assert forall j :: 0 <= j < |init| ==> init[j] == records[j];
      var rest := SelectStatements(init, threads, currentThreadId, removeStackTraces);
      var sel := SelectStatements(records, threads, currentThreadId, removeStackTraces);
      var key := StatementKeyOf(records[n].0, removeStackTraces);
      assert key.thread == records[n].0.thread;
      if ThreadMatches(threads, currentThreadId, Some(key.thread)) {
        assert sel == rest + [(key, records[n].1)];
        forall i | 0 <= i < |sel|
          ensures ThreadMatches(threads, currentThreadId, Some(sel[i].0.thread))
          ensures removeStackTraces ==> sel[i].0.stackTrace.None?
          ensures exists j :: 0 <= j < |records| && sel[i] == (StatementKeyOf(records[j].0, removeStackTraces), records[j].1)
        {
          if i < |rest| {
            assert sel[i] == rest[i];
            var j :| 0 <= j < |init| && rest[i] == (StatementKeyOf(init[j].0, removeStackTraces), init[j].1);
            assert init[j] == records[j];
          } else {
            assert sel[i] == (StatementKeyOf(records[n].0, removeStackTraces), records[n].1);
          }
        }
      } else {
        assert sel == rest;
      }
    }
  }

  /** Every entry of getExecutedStatements is the key of a record of a
      matching thread, without its stack trace when those are removed, and
      holds the accumulation of the stats of all the records filed under it,
      in order. */
  lemma StatementViewEntry(records: seq<(StatementKey, SqlStats)>, threads: ThreadMatcher, currentThreadId: int,
                           removeStackTraces: bool, k: nat)
    requires k < |StatementView(records, threads, currentThreadId, removeStackTraces)|
    ensures var v := StatementView(records, threads, currentThreadId, removeStackTraces);
      ThreadMatches(threads, currentThreadId, Some(v[k].0.thread)) &&
      (removeStackTraces ==> v[k].0.stackTrace.None?) &&
      (exists j :: 0 <= j < |records| && StatementKeyOf(records[j].0, removeStackTraces) == v[k].0) &&
      Merged(SelectStatements(records, threads, currentThreadId, removeStackTraces), v[k].0, StatementId, AccumulateSql) == Some(v[k].1)
  {
    var sel := SelectStatements(records, threads, currentThreadId, removeStackTraces);
    SelectStatementsMeaning(records, threads, currentThreadId, removeStackTraces);
    var v := GroupBy(sel, StatementId, AccumulateSql);
    GroupByFirstKey(sel, StatementId, AccumulateSql, k);
    GroupByMerged(sel, StatementId, AccumulateSql, k);
    var p := Position(Ids(sel, StatementId), StatementId(v[k].0));
    assert v[k].0 == sel[p].0;
    var j :| 0 <= j < |records| && sel[p] == (StatementKeyOf(records[j].0, removeStackTraces), records[j].1);
    assert StatementKeyOf(records[j].0, removeStackTraces) == v[k].0;
  }

  /** getExecutedStatements has one entry per key, and a key for every record
      of a matching thread. */
  lemma StatementViewComplete(records: seq<(StatementKey, SqlStats)>, threads: ThreadMatcher, currentThreadId: int,
                              removeStackTraces: bool)
    ensures DistinctIds(StatementView(records, threads, currentThreadId, removeStackTraces), StatementId)
    ensures var v := StatementView(records, threads, currentThreadId, removeStackTraces);
      forall j :: 0 <= j < |records| && ThreadMatches(threads, currentThreadId, Some(records[j].0.thread)) ==>
        exists k :: 0 <= k < |v| && v[k].0 == StatementKeyOf(records[j].0, removeStackTraces)
  {
    var sel := SelectStatements(records, threads, currentThreadId, removeStackTraces);
    var v := StatementView(records, threads, currentThreadId, removeStackTraces);
    SelectStatementsMeaning(records, threads, currentThreadId, removeStackTraces);
    GroupByKeys(sel, StatementId, AccumulateSql);
    forall j | 0 <= j < |records| && ThreadMatches(threads, currentThreadId, Some(records[j].0.thread))
      ensures exists k :: 0 <= k < |v| && v[k].0 == StatementKeyOf(records[j].0, removeStackTraces)
    {
      var key := StatementKeyOf(records[j].0, removeStackTraces);
      var i :| 0 <= i < |sel| && sel[i] == (key, records[j].1);
      assert Ids(sel, StatementId)[i] == key;
      var k := Position(Ids(v, StatementId), key);
      assert Ids(v, StatementId)[k] == v[k].0;
    }
  }

  // ---------------------------------------------------------------- socket operations

  datatype SocketStats = SocketStats(elapsedTime: int, bytesDown: int, bytesUp: int)

  /** SocketStats.accumulate: field-wise addition. */
  function AccumulateSocket(a: SocketStats, b: SocketStats): SocketStats {
    SocketStats(a.elapsedTime + b.elapsedTime, a.bytesDown + b.bytesDown, a.bytesUp + b.bytesUp)
  }

  /** The key getSocketOperations files a record under: without stack traces,
      a new SocketMetaData with a null stack trace. */
  function SocketKeyOf(env: Env, k: SocketMetaData, removeStackTraces: bool): SocketMetaData {
    if removeStackTraces then New(env, k.protocol, k.address, k.connectionId, None, k.threadMetaData) else k
  }

  /** The records getSocketOperations keeps (thread and address tested on the
      stored key), under their new keys, in order. */
  function SelectSockets(env: Env, records: seq<(SocketMetaData, SocketStats)>, threads: ThreadMatcher, currentThreadId: int,
                         addressMatcher: Option<AddressMatcher>, removeStackTraces: bool): seq<(SocketMetaData, SocketStats)>
  {
    if |records| == 0 then []
    else
      var rest := SelectSockets(env, records[..|records| - 1], threads, currentThreadId, addressMatcher, removeStackTraces);
      var last := records[|records| - 1];
      if ThreadMatches(threads, currentThreadId, last.0.threadMetaData) && AddressMatches(addressMatcher, last.0.address)
      then rest + [(SocketKeyOf(env, last.0, removeStackTraces), last.1)]
      else rest
  }

  /** The map getSocketOperations returns; its keys are compared by equals. */
  function SocketView(env: Env, records: seq<(SocketMetaData, SocketStats)>, threads: ThreadMatcher, currentThreadId: int,
                      addressMatcher: Option<AddressMatcher>, removeStackTraces: bool): seq<(SocketMetaData, SocketStats)>
  {
    GroupBy(SelectSockets(env, records, threads, currentThreadId, addressMatcher, removeStackTraces), Identity, AccumulateSocket)
  }

  /** getSocketOperations adds one record at a time: a record that passes
      both tests is put, or accumulated into the entry equal to its key. */
  lemma SocketViewStep(env: Env, records: seq<(SocketMetaData, SocketStats)>, i: nat, threads: ThreadMatcher, currentThreadId: int,
                       addressMatcher: Option<AddressMatcher>, removeStackTraces: bool)
    requires i < |records|
    ensures var before := SocketView(env, records[..i], threads, currentThreadId, addressMatcher, removeStackTraces);
      SocketView(env, records[..i + 1], threads, currentThreadId, addressMatcher, removeStackTraces) ==
        if ThreadMatches(threads, currentThreadId, records[i].0.threadMetaData) && AddressMatches(addressMatcher, records[i].0.address)
        then Upsert(before, SocketKeyOf(env, records[i].0, removeStackTraces), records[i].1, Identity, AccumulateSocket)
        else before
  {
    assert records[..i + 1][..i] == records[..i];
  }

  /** Every record the selection keeps passed both tests and is rekeyed. */
  lemma {:induction false} SelectSocketsSound(env: Env, records: seq<(SocketMetaData, SocketStats)>, threads: ThreadMatcher,
                                              currentThreadId: int, addressMatcher: Option<AddressMatcher>, removeStackTraces: bool)
    ensures forall i :: 0 <= i < |SelectSockets(env, records, threads, currentThreadId, addressMatcher, removeStackTraces)| ==>
      exists j :: 0 <= j < |records| &&
        ThreadMatches(threads, currentThreadId, records[j].0.threadMetaData) &&
        AddressMatches(addressMatcher, records[j].0.address) &&
        SelectSockets(env, records, threads, currentThreadId, addressMatcher, removeStackTraces)[i] ==
          (SocketKeyOf(env, records[j].0, removeStackTraces), records[j].1)
  {
    if |records| > 0 {
      var init := records[..|records| - 1];
      var sel := SelectSockets(env, records, threads, currentThreadId, addressMatcher, removeStackTraces);
      var rest := SelectSockets(env, init, threads, currentThreadId, addressMatcher, removeStackTraces);
      SelectSocketsSound(env, init, threads, currentThreadId, addressMatcher, removeStackTraces);
      assert forall i :: 0 <= i < |rest| ==>
        exists j :: 0 <= j < |init| &&
          ThreadMatches(threads, currentThreadId, init[j].0.threadMetaData) &&
          AddressMatches(addressMatcher, init[j].0.address) &&
          rest[i] == (SocketKeyOf(env, init[j].0, removeStackTraces), init[j].1);
      assert forall j :: 0 <= j < |init| ==> init[j] == records[j];
      forall i | 0 <= i < |sel|
        ensures exists j :: (0 <= j < |records| &&
          ThreadMatches(threads, currentThreadId, records[j].0.threadMetaData) &&
          AddressMatches(addressMatcher, records[j].0.address) &&
          sel[i] == (SocketKeyOf(env, records[j].0, removeStackTraces), records[j].1))
      {
        if i < |rest| {
          assert sel[i] == rest[i];
          var j :| 0 <= j < |init| &&
            ThreadMatches(threads, currentThreadId, init[j].0.threadMetaData) &&
            AddressMatches(addressMatcher, init[j].0.address) &&
            rest[i] == (SocketKeyOf(env, init[j].0, removeStackTraces), init[j].1);
          assert records[j] == init[j];
        } else {
          var j := |records| - 1;
          assert sel[i] == (SocketKeyOf(env, records[j].0, removeStackTraces), records[j].1);
          assert ThreadMatches(threads, currentThreadId, records[j].0.threadMetaData) &&
            AddressMatches(addressMatcher, records[j].0.address);
        }
      }
      assert forall i :: 0 <= i < |sel| ==>
        exists j :: 0 <= j < |records| &&
          ThreadMatches(threads, currentThreadId, records[j].0.threadMetaData) &&
          AddressMatches(addressMatcher, records[j].0.address) &&
          sel[i] == (SocketKeyOf(env, records[j].0, removeStackTraces), records[j].1);
    } else {
      assert SelectSockets(env, records, threads, currentThreadId, addressMatcher, removeStackTraces) == [];
    }
  }

  /** Every record that passes both tests is kept, rekeyed. */
  lemma {:induction false} SelectSocketsComplete(env: Env, records: seq<(SocketMetaData, SocketStats)>, threads: ThreadMatcher,
                                                 currentThreadId: int, addressMatcher: Option<AddressMatcher>, removeStackTraces: bool)
    ensures var sel := SelectSockets(env, records, threads, currentThreadId, addressMatcher, removeStackTraces);
      forall j :: (0 <= j < |records| && ThreadMatches(threads, currentThreadId, records[j].0.threadMetaData) &&
        AddressMatches(addressMatcher, records[j].0.address)) ==>
        (SocketKeyOf(env, records[j].0, removeStackTraces), records[j].1) in sel
  {
    if |records| > 0 {
      var init := records[..|records| - 1];
      SelectSocketsComplete(env, init, threads, currentThreadId, addressMatcher, removeStackTraces);
      assert forall j :: 0 <= j < |init| ==> init[j] == records[j];
    }
  }

  /** The selection keeps exactly the records that pass both tests, rekeyed. */
  lemma SelectSocketsMeaning(env: Env, records: seq<(SocketMetaData, SocketStats)>, threads: ThreadMatcher,
                              currentThreadId: int, addressMatcher: Option<AddressMatcher>, removeStackTraces: bool)
    ensures var sel := SelectSockets(env, records, threads, currentThreadId, addressMatcher, removeStackTraces);
      forall i :: 0 <= i < |sel| ==>
        exists j :: 0 <= j < |records| &&
          ThreadMatches(threads, currentThreadId, records[j].0.threadMetaData) &&
          AddressMatches(addressMatcher, records[j].0.address) &&
          sel[i] == (SocketKeyOf(env, records[j].0, removeStackTraces), records[j].1)
    ensures var sel := SelectSockets(env, records, threads, currentThreadId, addressMatcher, removeStackTraces);
      forall j :: (0 <= j < |records| && ThreadMatches(threads, currentThreadId, records[j].0.threadMetaData) &&
        AddressMatches(addressMatcher, records[j].0.address)) ==>
        (SocketKeyOf(env, records[j].0, removeStackTraces), records[j].1) in sel
  {
    SelectSocketsSound(env, records, threads, currentThreadId, addressMatcher, removeStackTraces);
    SelectSocketsComplete(env, records, threads, currentThreadId, addressMatcher, removeStackTraces);
  }

  /** Every entry of getSocketOperations comes from a record whose thread and
      address matched, keeps that record's address, connection and thread,
      has no stack trace when those are removed, and holds the accumulation
      of the stats of every record equal to it, in order. */
  lemma SocketViewEntry(env: Env, records: seq<(SocketMetaData, SocketStats)>, threads: ThreadMatcher, currentThreadId: int,
                        addressMatcher: Option<AddressMatcher>, removeStackTraces: bool, k: nat)
    requires k < |SocketView(env, records, threads, currentThreadId, addressMatcher, removeStackTraces)|
    ensures var v := SocketView(env, records, threads, currentThreadId, addressMatcher, removeStackTraces);
      (exists j :: 0 <= j < |records| &&
        ThreadMatches(threads, currentThreadId, records[j].0.threadMetaData) &&
        AddressMatches(addressMatcher, records[j].0.address) &&
        v[k].0.address == records[j].0.address && v[k].0.connectionId == records[j].0.connectionId &&
        v[k].0.threadMetaData == records[j].0.threadMetaData) &&
      (removeStackTraces ==> v[k].0.stackTrace.None?) &&
      Merged(SelectSockets(env, records, threads, currentThreadId, addressMatcher, removeStackTraces), Identity(v[k].0), Identity, AccumulateSocket) == Some(v[k].1)
  {
    var sel := SelectSockets(env, records, threads, currentThreadId, addressMatcher, removeStackTraces);
    SelectSocketsMeaning(env, records, threads, currentThreadId, addressMatcher, removeStackTraces);
    GroupByFirstKey(sel, Identity, AccumulateSocket, k);
    GroupByMerged(sel, Identity, AccumulateSocket, k);
  }

  /** getSocketOperations has one entry per equal key, and an entry equal to
      the key of every record that passes both tests. */
  lemma SocketViewComplete(env: Env, records: seq<(SocketMetaData, SocketStats)>, threads: ThreadMatcher, currentThreadId: int,
                           addressMatcher: Option<AddressMatcher>, removeStackTraces: bool)
    ensures DistinctIds(SocketView(env, records, threads, currentThreadId, addressMatcher, removeStackTraces), Identity)
    ensures var v := SocketView(env, records, threads, currentThreadId, addressMatcher, removeStackTraces);
      forall j :: (0 <= j < |records| && ThreadMatches(threads, currentThreadId, records[j].0.threadMetaData) &&
        AddressMatches(addressMatcher, records[j].0.address)) ==>
        exists k :: 0 <= k < |v| && Identity(v[k].0) == Identity(SocketKeyOf(env, records[j].0, removeStackTraces))
  {
    var sel := SelectSockets(env, records, threads, currentThreadId, addressMatcher, removeStackTraces);
    var v := SocketView(env, records, threads, currentThreadId, addressMatcher, removeStackTraces);
    SelectSocketsMeaning(env, records, threads, currentThreadId, addressMatcher, removeStackTraces);
    GroupByKeys(sel, Identity, AccumulateSocket);
    forall j | 0 <= j < |records| && ThreadMatches(threads, currentThreadId, records[j].0.threadMetaData) &&
        AddressMatches(addressMatcher, records[j].0.address)
      ensures exists k :: 0 <= k < |v| && Identity(v[k].0) == Identity(SocketKeyOf(env, records[j].0, removeStackTraces))
    {
      var key := SocketKeyOf(env, records[j].0, removeStackTraces);
      var i :| 0 <= i < |sel| && sel[i] == (key, records[j].1);
      assert Ids(sel, Identity)[i] == Identity(key);
      var k := Position(Ids(v, Identity), Identity(key));
      assert Ids(v, Identity)[k] == Identity(v[k].0);
    }
  }

  /** The selection from two records: each kept record in order. */
  lemma SelectSocketsPair(env: Env, r1: (SocketMetaData, SocketStats), r2: (SocketMetaData, SocketStats), threads: ThreadMatcher,
                          currentThreadId: int, addressMatcher: Option<AddressMatcher>, removeStackTraces: bool)
    ensures SelectSockets(env, [r1, r2], threads, currentThreadId, addressMatcher, removeStackTraces) ==
      (if ThreadMatches(threads, currentThreadId, r1.0.threadMetaData) && AddressMatches(addressMatcher, r1.0.address)
       then [(SocketKeyOf(env, r1.0, removeStackTraces), r1.1)] else []) +
      (if ThreadMatches(threads, currentThreadId, r2.0.threadMetaData) && AddressMatches(addressMatcher, r2.0.address)
       then [(SocketKeyOf(env, r2.0, removeStackTraces), r2.1)] else [])
  {
    var records := [r1, r2];
    assert records[..1] == [r1] && [r1][..0] == [];
    assert SelectSockets(env, [r1], threads, currentThreadId, addressMatcher, removeStackTraces) ==
      if ThreadMatches(threads, currentThreadId, r1.0.threadMetaData) && AddressMatches(addressMatcher, r1.0.address)
      then [(SocketKeyOf(env, r1.0, removeStackTraces), r1.1)] else [];
  }

  /** One connection made by the calling thread and one by another thread:
      CURRENT and OTHERS each see one entry, with that connection's stats, and
      ANY sees both. */
  lemma PerThreadSplit(env: Env, mine: SocketMetaData, theirs: SocketMetaData, s1: SocketStats, s2: SocketStats, currentThreadId: int)
    requires mine.threadMetaData.Some? && mine.threadMetaData.value.threadId == currentThreadId
    requires theirs.threadMetaData.Some? && theirs.threadMetaData.value.threadId != currentThreadId
    ensures SocketView(env, [(mine, s1), (theirs, s2)], CURRENT, currentThreadId, Some(AnyAddress), true) ==
      [(SocketKeyOf(env, mine, true), s1)]
    ensures SocketView(env, [(mine, s1), (theirs, s2)], OTHERS, currentThreadId, Some(AnyAddress), true) ==
      [(SocketKeyOf(env, theirs, true), s2)]
    ensures |SocketView(env, [(mine, s1), (theirs, s2)], ANY, currentThreadId, Some(AnyAddress), true)| == 2
  {
    var k1, k2 := SocketKeyOf(env, mine, true), SocketKeyOf(env, theirs, true);
    assert AddressMatches(Some(AnyAddress), mine.address) && AddressMatches(Some(AnyAddress), theirs.address);
    assert ThreadMatches(CURRENT, currentThreadId, mine.threadMetaData) && !ThreadMatches(CURRENT, currentThreadId, theirs.threadMetaData);
    assert ThreadMatches(OTHERS, currentThreadId, theirs.threadMetaData) && !ThreadMatches(OTHERS, currentThreadId, mine.threadMetaData);
    SelectSocketsPair(env, (mine, s1), (theirs, s2), CURRENT, currentThreadId, Some(AnyAddress), true);
    SelectSocketsPair(env, (mine, s1), (theirs, s2), OTHERS, currentThreadId, Some(AnyAddress), true);
    SelectSocketsPair(env, (mine, s1), (theirs, s2), ANY, currentThreadId, Some(AnyAddress), true);
    GroupBySmall((k1, s1), (k2, s2), Identity, AccumulateSocket);
    GroupBySmall((k2, s2), (k1, s1), Identity, AccumulateSocket);
  }

  /** Two connections of one thread to the same IP address and port, say one
      opened by host name and one by textual address, are one entry of
      getSocketOperations holding the sum of their stats: InetSocketAddress
      does not compare host names. */
  lemma HostNamesShareEntry(env: Env, c1: SocketMetaData, c2: SocketMetaData, s1: SocketStats, s2: SocketStats, currentThreadId: int)
    requires SameAddress(c1.address, c2.address) && c1.connectionId == c2.connectionId
    requires ThreadId(c1) == ThreadId(c2)
    ensures SocketView(env, [(c1, s1), (c2, s2)], ANY, currentThreadId, None, true) ==
      [(SocketKeyOf(env, c1, true), AccumulateSocket(s1, s2))]
  {
    var k1, k2 := SocketKeyOf(env, c1, true), SocketKeyOf(env, c2, true);
    SelectSocketsPair(env, (c1, s1), (c2, s2), ANY, currentThreadId, None, true);
    assert Identity(k1) == Identity(k2);
    GroupBySmall((k1, s1), (k2, s2), Identity, AccumulateSocket);
  }

  // ---------------------------------------------------------------- network traffic

  /** GroupingOptions: the parts of a connection's key that its traffic is
      grouped by. */
  datatype GroupingOptions = GroupingOptions(groupByConnection: bool, groupByStackTrace: bool, groupByThread: bool)

  /** The key getNetworkTraffic files a connection's packets under: unless
      grouped by everything, a new SocketMetaData with connection id -1, no
      stack trace or no thread for each part not grouped by. */
  function TrafficKeyOf(env: Env, k: SocketMetaData, options: GroupingOptions): (r: SocketMetaData)
    ensures r.address == k.address && r.protocol == k.protocol
    ensures r.connectionId == if options.groupByConnection then k.connectionId else -1
    ensures r.threadMetaData == if options.groupByThread then k.threadMetaData else None
    ensures r.stackTrace.None? <==> !options.groupByStackTrace || k.stackTrace.None?
    ensures r.stackTrace.Some? ==> r.stackTrace.value.text == k.stackTrace.value.text
    ensures options.groupByConnection && options.groupByStackTrace && options.groupByThread ==> r == k
  {
    if !options.groupByConnection || !options.groupByStackTrace || !options.groupByThread then
      New(env, k.protocol, k.address, if options.groupByConnection then k.connectionId else -1,
        if options.groupByStackTrace then k.stackTrace else None, if options.groupByThread then k.threadMetaData else None)
    else k
  }

  /** The connections getNetworkTraffic keeps (thread and address tested on
      the stored key), under their new keys, in order. */
  function SelectTraffic(env: Env, records: seq<(SocketMetaData, seq<NetworkPacket>)>, threads: ThreadMatcher, currentThreadId: int,
                         addressMatcher: AddressMatcher, options: GroupingOptions): seq<(SocketMetaData, seq<NetworkPacket>)>
  {
    if |records| == 0 then []
    else
      var rest := SelectTraffic(env, records[..|records| - 1], threads, currentThreadId, addressMatcher, options);
      var last := records[|records| - 1];
      if ThreadMatches(threads, currentThreadId, last.0.threadMetaData) && addressMatcher(last.0.address)
      then rest + [(TrafficKeyOf(env, last.0, options), last.1)]
      else rest
  }

  /** List.addAll. */
  function AppendPackets(a: seq<NetworkPacket>, b: seq<NetworkPacket>): seq<NetworkPacket> {
    a + b
  }

  /** The map getNetworkTraffic builds before it reduces the lists: per key
      (compared by equals), the packets of every kept connection filed under
      it, connection after connection. */
  function TrafficGroups(env: Env, records: seq<(SocketMetaData, seq<NetworkPacket>)>, threads: ThreadMatcher, currentThreadId: int,
                         addressMatcher: AddressMatcher, options: GroupingOptions): seq<(SocketMetaData, seq<NetworkPacket>)>
  {
    GroupBy(SelectTraffic(env, records, threads, currentThreadId, addressMatcher, options), Identity, AppendPackets)
  }

  /** Some stored connection was opened by a thread the matcher accepts. */
  ghost predicate AnyThreadMatches(records: seq<(SocketMetaData, seq<NetworkPacket>)>, threads: ThreadMatcher, currentThreadId: int) {
    exists i :: 0 <= i < |records| && ThreadMatches(threads, currentThreadId, records[i].0.threadMetaData)
  }

  /** getSocketOperations reads a missing address matcher as one that
      accepts every address. getNetworkTraffic dereferences a missing one
      (Spy.GroupTraffic fails with NullPointer there), so it only ever
      applies the matcher it was given; its Ok result is stated with this
      function for that reason. */
  function MatcherOrAny(m: Option<AddressMatcher>): (r: AddressMatcher)
    ensures forall a :: r(a) == AddressMatches(m, a)
  {
    if m.Some? then m.value else AnyAddress
  }

  /** networkTraffic.get(key), a new list put under the key when there is
      none, then addAll of the connection's packets. */
  method FilePackets(groups: seq<(SocketMetaData, seq<NetworkPacket>)>, key: SocketMetaData, packets: seq<NetworkPacket>)
    returns (next: seq<(SocketMetaData, seq<NetworkPacket>)>)
    ensures next == Upsert(groups, key, packets, Identity, AppendPackets)
  {
    var existing := Position(Ids(groups, Identity), Identity(key));
    if existing == -1 {
      next := groups + [(key, packets)];
    } else {
      next := groups[existing := (groups[existing].0, AppendPackets(groups[existing].1, packets))];
    }
  }

  lemma NoMatchSnoc(records: seq<(SocketMetaData, seq<NetworkPacket>)>, i: nat, threads: ThreadMatcher, currentThreadId: int)
    requires i < |records| && !AnyThreadMatches(records[..i], threads, currentThreadId)
    requires !ThreadMatches(threads, currentThreadId, records[i].0.threadMetaData)
    ensures !AnyThreadMatches(records[..i + 1], threads, currentThreadId)
  {
    assert forall j :: 0 <= j < i ==> records[..i + 1][j] == records[..i][j];
  }

  lemma TrafficGroupsStep(env: Env, records: seq<(SocketMetaData, seq<NetworkPacket>)>, i: nat, threads: ThreadMatcher,
                          currentThreadId: int, addressMatcher: AddressMatcher, options: GroupingOptions)
    requires i < |records|
    ensures var before := TrafficGroups(env, records[..i], threads, currentThreadId, addressMatcher, options);
      TrafficGroups(env, records[..i + 1], threads, currentThreadId, addressMatcher, options) ==
        if ThreadMatches(threads, currentThreadId, records[i].0.threadMetaData) && addressMatcher(records[i].0.address)
        then Upsert(before, TrafficKeyOf(env, records[i].0, options), records[i].1, Identity, AppendPackets)
        else before
  {
    assert records[..i + 1][..i] == records[..i];
  }

  /** Every connection the selection keeps passed both tests and is rekeyed. */
  lemma {:induction false} SelectTrafficSound(env: Env, records: seq<(SocketMetaData, seq<NetworkPacket>)>, threads: ThreadMatcher,
                                              currentThreadId: int, addressMatcher: AddressMatcher, options: GroupingOptions)
    ensures forall i :: 0 <= i < |SelectTraffic(env, records, threads, currentThreadId, addressMatcher, options)| ==>
      exists j :: 0 <= j < |records| &&
        ThreadMatches(threads, currentThreadId, records[j].0.threadMetaData) && addressMatcher(records[j].0.address) &&
        SelectTraffic(env, records, threads, currentThreadId, addressMatcher, options)[i] == (TrafficKeyOf(env, records[j].0, options), records[j].1)
  {
    if |records| > 0 {
      var init := records[..|records| - 1];
      SelectTrafficSound(env, init, threads, currentThreadId, addressMatcher, options);
      assert forall j :: 0 <= j < |init| ==> init[j] == records[j];
      var sel := SelectTraffic(env, records, threads, currentThreadId, addressMatcher, options);
      var rest := SelectTraffic(env, init, threads, currentThreadId, addressMatcher, options);
      forall i | 0 <= i < |sel|
        ensures exists j :: (0 <= j < |records| &&
          ThreadMatches(threads, currentThreadId, records[j].0.threadMetaData) && addressMatcher(records[j].0.address) &&
          sel[i] == (TrafficKeyOf(env, records[j].0, options), records[j].1))
      {
        if i < |rest| {
          assert sel[i] == rest[i];
          var j :| 0 <= j < |init| &&
            ThreadMatches(threads, currentThreadId, init[j].0.threadMetaData) && addressMatcher(init[j].0.address) &&
            rest[i] == (TrafficKeyOf(env, init[j].0, options), init[j].1);
          assert records[j] == init[j];
        } else {
          var j := |records| - 1;
          assert sel[i] == (TrafficKeyOf(env, records[j].0, options), records[j].1);
          assert ThreadMatches(threads, currentThreadId, records[j].0.threadMetaData) && addressMatcher(records[j].0.address);
        }
      }
      assert forall i :: 0 <= i < |sel| ==>
        exists j :: 0 <= j < |records| &&
          ThreadMatches(threads, currentThreadId, records[j].0.threadMetaData) && addressMatcher(records[j].0.address) &&
          sel[i] == (TrafficKeyOf(env, records[j].0, options), records[j].1);
    } else {
      assert SelectTraffic(env, records, threads, currentThreadId, addressMatcher, options) == [];
    }
  }

  /** Every connection that passes both tests is kept, rekeyed. */
  lemma {:induction false} SelectTrafficComplete(env: Env, records: seq<(SocketMetaData, seq<NetworkPacket>)>, threads: ThreadMatcher,
                                                 currentThreadId: int, addressMatcher: AddressMatcher, options: GroupingOptions)
    ensures forall j :: (0 <= j < |records| && ThreadMatches(threads, currentThreadId, records[j].0.threadMetaData) &&
      addressMatcher(records[j].0.address)) ==>
      (TrafficKeyOf(env, records[j].0, options), records[j].1) in SelectTraffic(env, records, threads, currentThreadId, addressMatcher, options)
  {
    if |records| > 0 {
      var init := records[..|records| - 1];
      SelectTrafficComplete(env, init, threads, currentThreadId, addressMatcher, options);
      assert forall j :: 0 <= j < |init| ==> init[j] == records[j];
    }
  }

  /** The selection keeps exactly the connections that pass both tests, rekeyed. */
  lemma SelectTrafficMeaning(env: Env, records: seq<(SocketMetaData, seq<NetworkPacket>)>, threads: ThreadMatcher,
                             currentThreadId: int, addressMatcher: AddressMatcher, options: GroupingOptions)
    ensures var sel := SelectTraffic(env, records, threads, currentThreadId, addressMatcher, options);
      forall i :: 0 <= i < |sel| ==>
        exists j :: 0 <= j < |records| &&
          ThreadMatches(threads, currentThreadId, records[j].0.threadMetaData) && addressMatcher(records[j].0.address) &&
          sel[i] == (TrafficKeyOf(env, records[j].0, options), records[j].1)
    ensures var sel := SelectTraffic(env, records, threads, currentThreadId, addressMatcher, options);
      forall j :: (0 <= j < |records| && ThreadMatches(threads, currentThreadId, records[j].0.threadMetaData) &&
        addressMatcher(records[j].0.address)) ==>
        (TrafficKeyOf(env, records[j].0, options), records[j].1) in sel
  {
    SelectTrafficSound(env, records, threads, currentThreadId, addressMatcher, options);
    SelectTrafficComplete(env, records, threads, currentThreadId, addressMatcher, options);
  }

  /** The selection keeps no packet that is not stored, and none twice. */
  lemma {:induction false} SelectTrafficPackets(env: Env, records: seq<(SocketMetaData, seq<NetworkPacket>)>, threads: ThreadMatcher,
                                                currentThreadId: int, addressMatcher: AddressMatcher, options: GroupingOptions)
    ensures multiset(Flatten(SelectTraffic(env, records, threads, currentThreadId, addressMatcher, options))) <= multiset(Flatten(records))
  {
    if |records| > 0 {
      var init := records[..|records| - 1];
      SelectTrafficPackets(env, init, threads, currentThreadId, addressMatcher, options);
      var sel := SelectTraffic(env, records, threads, currentThreadId, addressMatcher, options);
      var rest := SelectTraffic(env, init, threads, currentThreadId, addressMatcher, options);
      assert Flatten(records) == Flatten(init) + records[|records| - 1].1;
      if |sel| > |rest| {
        assert sel[..|sel| - 1] == rest;
      }
    }
  }

  /** Every list of the grouped map belongs to a key equal to that of a kept
      connection, and is the concatenation, in order, of the packets of every
      kept connection filed under that key. */
  lemma TrafficGroupEntry(env: Env, records: seq<(SocketMetaData, seq<NetworkPacket>)>, threads: ThreadMatcher, currentThreadId: int,
                          addressMatcher: AddressMatcher, options: GroupingOptions, k: nat)
    requires k < |TrafficGroups(env, records, threads, currentThreadId, addressMatcher, options)|
    ensures var g := TrafficGroups(env, records, threads, currentThreadId, addressMatcher, options);
      (exists j :: 0 <= j < |records| &&
        ThreadMatches(threads, currentThreadId, records[j].0.threadMetaData) && addressMatcher(records[j].0.address) &&
        g[k].0 == TrafficKeyOf(env, records[j].0, options)) &&
      Merged(SelectTraffic(env, records, threads, currentThreadId, addressMatcher, options), Identity(g[k].0), Identity, AppendPackets) == Some(g[k].1)
  {
    var sel := SelectTraffic(env, records, threads, currentThreadId, addressMatcher, options);
    SelectTrafficMeaning(env, records, threads, currentThreadId, addressMatcher, options);
    GroupByFirstKey(sel, Identity, AppendPackets, k);
    GroupByMerged(sel, Identity, AppendPackets, k);
  }

  /** Grouping neither duplicates a stored packet nor invents one: with
      distinct stored packets, the grouped lists hold distinct stored
      packets. */
  lemma TrafficGroupsDistinct(env: Env, records: seq<(SocketMetaData, seq<NetworkPacket>)>, threads: ThreadMatcher, currentThreadId: int,
                              addressMatcher: AddressMatcher, options: GroupingOptions)
    requires Distinct(Flatten(records))
    ensures Distinct(Flatten(TrafficGroups(env, records, threads, currentThreadId, addressMatcher, options)))
    ensures Elements(TrafficGroups(env, records, threads, currentThreadId, addressMatcher, options)) <= Elements(records)
  {
    var sel := SelectTraffic(env, records, threads, currentThreadId, addressMatcher, options);
    var g := TrafficGroups(env, records, threads, currentThreadId, addressMatcher, options);
    SelectTrafficPackets(env, records, threads, currentThreadId, addressMatcher, options);
    GroupByKeepsElements(sel, Identity, AppendPackets);
    DistinctIsMultiset(Flatten(records));
    DistinctIsMultiset(Flatten(g));
    TrafficGroupsMembers(env, records, threads, currentThreadId, addressMatcher, options);
  }

  /** The grouped lists hold stored packets only. */
  lemma TrafficGroupsMembers(env: Env, records: seq<(SocketMetaData, seq<NetworkPacket>)>, threads: ThreadMatcher, currentThreadId: int,
                             addressMatcher: AddressMatcher, options: GroupingOptions)
    ensures Elements(TrafficGroups(env, records, threads, currentThreadId, addressMatcher, options)) <= Elements(records)
  {
    var sel := SelectTraffic(env, records, threads, currentThreadId, addressMatcher, options);
    var g := TrafficGroups(env, records, threads, currentThreadId, addressMatcher, options);
    SelectTrafficPackets(env, records, threads, currentThreadId, addressMatcher, options);
    GroupByKeepsElements(sel, Identity, AppendPackets);
    FlattenElements(g);
    FlattenElements(records);
    forall p | p in Elements(g) ensures p in Elements(records) {
      assert p in multiset(Flatten(g));
    }
  }

  lemma ReduceSnoc(t: seq<Packet>, i: nat, maxDelay: Int64)
    requires i < |t|
    ensures Reduce(t[..i + 1], maxDelay) == Step(Reduce(t[..i], maxDelay), t[i], maxDelay)
  {
    assert t[..i + 1][..i] == t[..i];
  }

  /** The loop's state: distinct run heads, whose values are `heads`, the
      last of them in `last`. */
  predicate HeadsHold(reduced: seq<NetworkPacket>, last: NetworkPacket?, heads: seq<Packet>)
    reads set q | q in reduced
  {
    Distinct(reduced) && |heads| == |reduced| && (forall k :: 0 <= k < |reduced| ==> reduced[k].Value() == heads[k]) &&
    (last == null <==> |reduced| == 0) && (last != null ==> last == reduced[|reduced| - 1])
  }

  /** One turn of the reduction loop over t, at t[i]: combine the packet
      into the last run head if combine accepts it, and otherwise make it the
      new last head. */
  method ReduceStep(reduced: seq<NetworkPacket>, last: NetworkPacket?, p: NetworkPacket, maxDelay: Int64,
                    ghost heads: seq<Packet>, ghost t: seq<Packet>, ghost i: nat)
    returns (next: seq<NetworkPacket>, nextLast: NetworkPacket, ghost nextHeads: seq<Packet>)
    requires HeadsHold(reduced, last, heads) && p !in reduced
    requires i < |t| && p.Value() == t[i]
    modifies set q | q in reduced
    ensures HeadsHold(next, nextLast, nextHeads) && nextHeads == Step(heads, t[i], maxDelay)
    ensures next == reduced || next == reduced + [p]
  {
    var joined := false;
    if last != null {
      joined := last.Combine(p, maxDelay);
    }
    if joined {
      next, nextLast := reduced, last;
      nextHeads := heads[..|heads| - 1] + [heads[|heads| - 1].(bytes := heads[|heads| - 1].bytes + p.bytes)];
      forall k | 0 <= k < |next| - 1 ensures next[k].Value() == nextHeads[k] {
        assert reduced[k] != last;
      }
    } else {
      next, nextLast := reduced + [p], p;
      nextHeads := heads + [p.Value()];
    }
  }

  /** One turn of the reduction loop, as written, for the packet at
      position i: a copy without the stack trace stands in for it when stack
      traces are not grouped by, and then it joins the last run or heads a
      new one. */
  method ReduceTurn(sorted: seq<NetworkPacket>, i: nat, reduced: seq<NetworkPacket>, last: NetworkPacket?,
                    byStackTrace: bool, maxDelay: Int64, ghost heads: seq<Packet>, ghost t: seq<Packet>)
    returns (next: seq<NetworkPacket>, nextLast: NetworkPacket, ghost nextHeads: seq<Packet>)
    requires i < |sorted| && i < |t| && t[i] == Strip(sorted[i].Value(), byStackTrace)
    requires HeadsHold(reduced, last, heads) && heads == Reduce(t[..i], maxDelay) && sorted[i] !in reduced
    modifies set q | q in reduced
    ensures HeadsHold(next, nextLast, nextHeads) && nextHeads == Reduce(t[..i + 1], maxDelay)
    ensures forall q :: q in reduced ==> q in next
    ensures forall q :: q in next ==> q in reduced || q == sorted[i] || (fresh(q) && !byStackTrace)
  {
    ReduceSnoc(t, i, maxDelay);
    var p := sorted[i];
    if !byStackTrace && p.stackTrace.Some? {
      var bytes := p.GetBytes();
      p := new NetworkPacket(p.sent, p.timestamp, None, bytes, 0, |bytes|);
    }
    next, nextLast, nextHeads := ReduceStep(reduced, last, p, maxDelay, heads, t, i);
  }

  /** The reduction loop of getNetworkTraffic over one sorted list, as
      written: a packet is replaced by a copy without its stack trace when
      stack traces are not grouped by, and otherwise it is the stored packet
      itself that heads a run and has the later packets of the run combined
      into it. */
  method ReducePackets(sorted: seq<NetworkPacket>, byStackTrace: bool, maxDelay: Int64) returns (reduced: seq<NetworkPacket>)
    requires Distinct(sorted)
    modifies set p | p in sorted
    ensures Values(reduced) == Reduce(StripAll(old(Values(sorted)), byStackTrace), maxDelay)
    ensures forall p :: p in reduced ==> p in sorted || (fresh(p) && !byStackTrace)
    ensures forall p :: p in sorted && p !in reduced ==> p.bytes == old(p.bytes)
  {
    ghost var vs := Values(sorted);
    ghost var t := StripAll(vs, byStackTrace);
    reduced := [];
    ghost var heads: seq<Packet> := [];
    var last: NetworkPacket? := null;
    for i := 0 to |sorted|
      invariant HeadsHold(reduced, last, heads) && heads == Reduce(t[..i], maxDelay)
      invariant forall p :: p in reduced ==> p in sorted || (fresh(p) && !byStackTrace)
      invariant forall j :: i <= j < |sorted| ==> sorted[j] !in reduced
      invariant forall j :: 0 <= j < |sorted| && sorted[j] !in reduced ==> sorted[j].Value() == vs[j]
    {
      reduced, last, heads := ReduceTurn(sorted, i, reduced, last, byStackTrace, maxDelay, heads, t);
    }
    TakeAll(t);
    ValuesPointwise(reduced, heads);
  }

  /** One turn of the reduction loop with the fix: the packet at position i
      is always copied first. */
  method ReduceTurnCopying(sorted: seq<NetworkPacket>, i: nat, reduced: seq<NetworkPacket>, last: NetworkPacket?,
                           byStackTrace: bool, maxDelay: Int64, ghost heads: seq<Packet>, ghost t: seq<Packet>)
    returns (next: seq<NetworkPacket>, nextLast: NetworkPacket, ghost nextHeads: seq<Packet>)
    requires i < |sorted| && i < |t| && t[i] == Strip(sorted[i].Value(), byStackTrace)
    requires HeadsHold(reduced, last, heads) && heads == Reduce(t[..i], maxDelay)
    modifies set q | q in reduced
    ensures HeadsHold(next, nextLast, nextHeads) && nextHeads == Reduce(t[..i + 1], maxDelay)
    ensures forall q :: q in next ==> q in reduced || fresh(q)
  {
    ReduceSnoc(t, i, maxDelay);
    var p := sorted[i];
    var bytes := p.GetBytes();
    var copy := new NetworkPacket(p.sent, p.timestamp, if byStackTrace then p.stackTrace else None, bytes, 0, |bytes|);
    next, nextLast, nextHeads := ReduceStep(reduced, last, copy, maxDelay, heads, t, i);
  }

  /** The reduction loop with the fix: every packet is copied before it is
      reduced, so a run head is always a new packet and the stored packets
      are never changed. */
  method ReducePacketsCopying(sorted: seq<NetworkPacket>, byStackTrace: bool, maxDelay: Int64) returns (reduced: seq<NetworkPacket>)
    ensures Values(reduced) == Reduce(StripAll(old(Values(sorted)), byStackTrace), maxDelay)
    ensures forall p :: p in reduced ==> fresh(p)
  {
    ghost var vs := Values(sorted);
    ghost var t := StripAll(vs, byStackTrace);
    reduced := [];
    ghost var heads: seq<Packet> := [];
    var last: NetworkPacket? := null;
    for i := 0 to |sorted|
      invariant HeadsHold(reduced, last, heads) && heads == Reduce(t[..i], maxDelay)
      invariant forall p :: p in reduced ==> fresh(p)
      invariant forall j :: 0 <= j < |sorted| ==> sorted[j].Value() == vs[j]
    {
      reduced, last, heads := ReduceTurnCopying(sorted, i, reduced, last, byStackTrace, maxDelay, heads, t);
    }
    TakeAll(t);
    ValuesPointwise(reduced, heads);
  }

  /** Sorting keeps a list's elements. */
  lemma SortMembers(ps: seq<NetworkPacket>)
    ensures forall p :: p in SortByTimestamp(ps) ==> p in ps
  {
    forall p | p in SortByTimestamp(ps) ensures p in ps {
      assert p in multiset(SortByTimestamp(ps));
    }
  }

  /** Sorting keeps a list's elements, so it keeps them distinct. */
  lemma SortKeepsElements(ps: seq<NetworkPacket>)
    requires Distinct(ps)
    ensures Distinct(SortByTimestamp(ps))
    ensures forall p :: p in SortByTimestamp(ps) ==> p in ps
  {
    var sorted := SortByTimestamp(ps);
    DistinctIsMultiset(ps);
    DistinctIsMultiset(sorted);
    forall p | p in sorted ensures p in ps {
      assert p in multiset(sorted);
    }
  }

  /** In a map whose packets are all distinct, the list of entry k is
      distinct and shares no packet with any other entry. */
  lemma EntryIsDisjoint(groups: seq<(SocketMetaData, seq<NetworkPacket>)>, k: nat)
    requires Distinct(Flatten(groups)) && k < |groups|
    ensures Distinct(groups[k].1)
    ensures forall j, p :: 0 <= j < |groups| && j != k && p in groups[j].1 ==> p !in groups[k].1
  {
    FlattenDistinct(groups, k, k);
    forall j, p | 0 <= j < |groups| && j != k && p in groups[j].1 ensures p !in groups[k].1 {
      FlattenDistinct(groups, j, k);
    }
  }

  /** The second loop's body for one entry, as written: sort the list by
      timestamp, then reduce it in place. */
  method ReduceEntry(packets: seq<NetworkPacket>, byStackTrace: bool, maxDelay: Int64) returns (reduced: seq<NetworkPacket>)
    requires Distinct(packets)
    modifies set p | p in packets
    ensures Values(reduced) == Reduce(StripAll(old(Values(SortByTimestamp(packets))), byStackTrace), maxDelay)
    ensures forall p :: p in reduced ==> p in packets || (fresh(p) && !byStackTrace)
    ensures forall p :: p in packets && p !in reduced ==> p.bytes == old(p.bytes)
  {
    var sorted := SortByTimestamp(packets);
    SortKeepsElements(packets);
    reduced := ReducePackets(sorted, byStackTrace, maxDelay);
  }

  /** The lists reported so far, each the reduction of the sorted values
      in `inputs` at the same position: every reported packet still has the
      value it was reported with. */
  ghost predicate Reported(out: seq<(SocketMetaData, seq<NetworkPacket>)>, inputs: seq<seq<Packet>>, reported: set<NetworkPacket>,
                           byStackTrace: bool, maxDelay: Int64)
    reads reported
  {
    |out| == |inputs| && reported == Elements(out) &&
    (forall j :: 0 <= j < |out| ==> |out[j].1| == |Reduce(StripAll(inputs[j], byStackTrace), maxDelay)|) &&
    (forall j, i :: 0 <= j < |out| && 0 <= i < |out[j].1| ==>
      out[j].1[i] in reported && out[j].1[i].Value() == Reduce(StripAll(inputs[j], byStackTrace), maxDelay)[i])
  }

  twostate lemma ReportedUnchanged(out: seq<(SocketMetaData, seq<NetworkPacket>)>, new inputs: seq<seq<Packet>>, new reported: set<NetworkPacket>,
                                   new byStackTrace: bool, new maxDelay: Int64)
    requires old(allocated(reported)) && old(Reported(out, inputs, reported, byStackTrace, maxDelay))
    requires forall p :: p in reported ==> p.bytes == old(p.bytes)
    ensures Reported(out, inputs, reported, byStackTrace, maxDelay)
  {
    forall j, i | 0 <= j < |out| && 0 <= i < |out[j].1|
      ensures out[j].1[i].Value() == Reduce(StripAll(inputs[j], byStackTrace), maxDelay)[i]
    {
      assert out[j].1[i] in reported;
    }
  }

  lemma ReportedSnoc(out: seq<(SocketMetaData, seq<NetworkPacket>)>, inputs: seq<seq<Packet>>, reported: set<NetworkPacket>,
                     e: (SocketMetaData, seq<NetworkPacket>), sorted: seq<Packet>, byStackTrace: bool, maxDelay: Int64)
    requires Reported(out, inputs, reported, byStackTrace, maxDelay)
    requires Values(e.1) == Reduce(StripAll(sorted, byStackTrace), maxDelay)
    ensures Reported(out + [e], inputs + [sorted], reported + (set p | p in e.1), byStackTrace, maxDelay)
  {
    ElementsSnoc(out, e);
    var out', inputs' := out + [e], inputs + [sorted];
    forall j, i | 0 <= j < |out'| && 0 <= i < |out'[j].1|
      ensures out'[j].1[i] in reported + set p | p in e.1
      ensures out'[j].1[i].Value() == Reduce(StripAll(inputs'[j], byStackTrace), maxDelay)[i]
    {
      if j < |out| {
        assert out'[j] == out[j] && inputs'[j] == inputs[j];
      }
    }
  }

  /** A reported list has the values it was reported with. */
  lemma ReportedValues(out: seq<(SocketMetaData, seq<NetworkPacket>)>, inputs: seq<seq<Packet>>, reported: set<NetworkPacket>,
                       byStackTrace: bool, maxDelay: Int64, j: nat)
    requires Reported(out, inputs, reported, byStackTrace, maxDelay) && j < |out|
    ensures Values(out[j].1) == Reduce(StripAll(inputs[j], byStackTrace), maxDelay)
  {
    ValuesPointwise(out[j].1, Reduce(StripAll(inputs[j], byStackTrace), maxDelay));
  }

  /** One turn of the second loop over entry k: its list is sorted and
      reduced in place, and the lists reported before it keep their values. */
  method ReduceNext(groups: seq<(SocketMetaData, seq<NetworkPacket>)>, k: nat, out: seq<(SocketMetaData, seq<NetworkPacket>)>,
                    ghost inputs: seq<seq<Packet>>, ghost reported: set<NetworkPacket>, ghost sorted: seq<Packet>,
                    byStackTrace: bool, maxDelay: Int64)
    returns (reduced: seq<NetworkPacket>)
    requires k < |groups| && Distinct(groups[k].1)
    requires Reported(out, inputs, reported, byStackTrace, maxDelay) && forall p :: p in reported ==> p !in groups[k].1
    requires Values(SortByTimestamp(groups[k].1)) == sorted
    modifies set p | p in groups[k].1
    ensures Reported(out + [(groups[k].0, reduced)], inputs + [sorted], reported + (set p | p in reduced), byStackTrace, maxDelay)
    ensures forall p :: p in reduced ==> p in groups[k].1 || (fresh(p) && !byStackTrace)
    ensures forall p :: p in groups[k].1 && p !in reduced ==> p.bytes == old(p.bytes)
  {
    label before:
    reduced := ReduceEntry(groups[k].1, byStackTrace, maxDelay);
    ReportedUnchanged@before(out, inputs, reported, byStackTrace, maxDelay);
    ReportedSnoc(out, inputs, reported, (groups[k].0, reduced), sorted, byStackTrace, maxDelay);
  }

  /** One more reported entry keeps the keys in step with the grouped map. */
  lemma KeysSnoc(out: seq<(SocketMetaData, seq<NetworkPacket>)>, groups: seq<(SocketMetaData, seq<NetworkPacket>)>, e: (SocketMetaData, seq<NetworkPacket>))
    requires |out| < |groups| && e.0 == groups[|out|].0
    requires forall j :: 0 <= j < |out| ==> out[j].0 == groups[j].0
    ensures forall j :: 0 <= j < |out| + 1 ==> (out + [e])[j].0 == groups[j].0
  {
  }

  /** The bytes each of a set of packets holds. */
  ghost function BytesOf(ps: set<NetworkPacket>): (bytes: map<NetworkPacket, seq<Byte>>)
    reads ps
    ensures forall p :: p in ps ==> p in bytes && bytes[p] == p.bytes
  {
    map p | p in ps :: p.bytes
  }

  /** The values packets have when their bytes are the ones in `bytes`. */
  ghost function ValuesWith(ps: seq<NetworkPacket>, bytes: map<NetworkPacket, seq<Byte>>): seq<Packet> {
    seq(|ps|, i requires 0 <= i < |ps| =>
      Packet(ps[i].sent, ps[i].timestamp, ps[i].stackTrace, if ps[i] in bytes then bytes[ps[i]] else []))
  }

  lemma ValuesWithCurrent(ps: seq<NetworkPacket>, bytes: map<NetworkPacket, seq<Byte>>)
    requires forall p :: p in ps ==> p in bytes && p.bytes == bytes[p]
    ensures Values(ps) == ValuesWith(ps, bytes)
  {
    ValuesPointwise(ps, ValuesWith(ps, bytes));
  }

  /** The sorted values of every grouped list, with the bytes in `bytes`. */
  ghost function SortedValuesWith(groups: seq<(SocketMetaData, seq<NetworkPacket>)>, bytes: map<NetworkPacket, seq<Byte>>): seq<seq<Packet>> {
    seq(|groups|, j requires 0 <= j < |groups| => ValuesWith(SortByTimestamp(groups[j].1), bytes))
  }

  /** While the stored packets hold the bytes in `bytes`, those are the values sorted and reduced. */
  lemma SnapshotValues(groups: seq<(SocketMetaData, seq<NetworkPacket>)>, bytes: map<NetworkPacket, seq<Byte>>)
    requires forall p :: p in Elements(groups) ==> p in bytes && p.bytes == bytes[p]
    ensures forall j :: 0 <= j < |groups| ==> Values(SortByTimestamp(groups[j].1)) == SortedValuesWith(groups, bytes)[j]
  {
    forall j | 0 <= j < |groups| ensures Values(SortByTimestamp(groups[j].1)) == SortedValuesWith(groups, bytes)[j] {
      SortMembers(groups[j].1);
      forall p | p in SortByTimestamp(groups[j].1) ensures p in bytes && p.bytes == bytes[p] {
        assert p in groups[j].1;
      }
      ValuesWithCurrent(SortByTimestamp(groups[j].1), bytes);
    }
  }

  /** What the second loop has done after k entries: `out` holds the
      reduction of the first k sorted snapshots in `pre`, `done` the packets
      of those entries, and a stored packet that was not reported still has
      the bytes it had in `bytes`. */
  ghost predicate GroupsProgress(groups: seq<(SocketMetaData, seq<NetworkPacket>)>, k: nat, out: seq<(SocketMetaData, seq<NetworkPacket>)>,
                                 reported: set<NetworkPacket>, done: set<NetworkPacket>, pre: seq<seq<Packet>>,
                                 bytes: map<NetworkPacket, seq<Byte>>, byStackTrace: bool, maxDelay: Int64)
    reads Elements(groups), reported
  {
    k <= |groups| == |pre| && Reported(out, pre[..k], reported, byStackTrace, maxDelay) && done == Elements(groups[..k]) &&
    (forall j :: 0 <= j < k ==> out[j].0 == groups[j].0) &&
    (forall p :: p in reported && p in Elements(groups) ==> p in done) &&
    (forall p :: p in Elements(groups) && p !in reported ==> p in bytes && p.bytes == bytes[p])
  }

  /** One turn of the second loop, as written: entry k is sorted and reduced
      in place. */
  method ReduceGroupsTurn(groups: seq<(SocketMetaData, seq<NetworkPacket>)>, k: nat, out: seq<(SocketMetaData, seq<NetworkPacket>)>,
                          ghost reported: set<NetworkPacket>, ghost done: set<NetworkPacket>, ghost pre: seq<seq<Packet>>,
                          ghost bytes: map<NetworkPacket, seq<Byte>>, byStackTrace: bool, maxDelay: Int64)
    returns (out': seq<(SocketMetaData, seq<NetworkPacket>)>, ghost reported': set<NetworkPacket>, ghost done': set<NetworkPacket>)
    requires Distinct(Flatten(groups)) && k < |groups| && pre == SortedValuesWith(groups, bytes)
    requires GroupsProgress(groups, k, out, reported, done, pre, bytes, byStackTrace, maxDelay)
    modifies set p | p in groups[k].1
    ensures GroupsProgress(groups, k + 1, out', reported', done', pre, bytes, byStackTrace, maxDelay)
    ensures forall p :: p in reported' ==> p in reported || p in Elements(groups) || (fresh(p) && !byStackTrace)
  {
    EntryIsDisjoint(groups, k);
    PrefixDisjoint(groups, k);
    forall p | p in groups[k].1 ensures p in Elements(groups) && p !in reported && p in bytes && p.bytes == bytes[p] {
      assert p in Elements(groups);
    }
    SortMembers(groups[k].1);
    ValuesWithCurrent(SortByTimestamp(groups[k].1), bytes);
    var reduced := ReduceNext(groups, k, out, pre[..k], reported, pre[k], byStackTrace, maxDelay);
    ElementsPrefix(groups, k);
    TakeSnoc(pre, k);
    KeysSnoc(out, groups, (groups[k].0, reduced));
    out' := out + [(groups[k].0, reduced)];
    reported' := reported + set p | p in reduced;
    done' := done + set p | p in groups[k].1;
  }

  /** The reduction of every grouped list, as written: each list is sorted
      by timestamp and reduced in place. */
  method ReduceGroups(groups: seq<(SocketMetaData, seq<NetworkPacket>)>, byStackTrace: bool, maxDelay: Int64)
    returns (out: seq<(SocketMetaData, seq<NetworkPacket>)>)
    requires Distinct(Flatten(groups))
    modifies Elements(groups)
    ensures |out| == |groups|
    ensures forall k :: 0 <= k < |groups| ==> (out[k].0 == groups[k].0 &&
      Values(out[k].1) == Reduce(StripAll(old(Values(SortByTimestamp(groups[k].1))), byStackTrace), maxDelay))
    ensures forall p :: p in Elements(out) ==> p in Elements(groups) || (fresh(p) && !byStackTrace)
    ensures forall p :: p in Elements(groups) && p !in Elements(out) ==> p.bytes == old(p.bytes)
  {
    ghost var bytes := BytesOf(Elements(groups));
    ghost var pre := SortedValuesWith(groups, bytes);
    SnapshotValues(groups, bytes);
    out := [];
    ghost var reported: set<NetworkPacket> := {};
    ghost var done: set<NetworkPacket> := {};
    assert groups[..0] == [];
    for k := 0 to |groups|
      invariant GroupsProgress(groups, k, out, reported, done, pre, bytes, byStackTrace, maxDelay)
      invariant forall p :: p in reported ==> p in Elements(groups) || (fresh(p) && !byStackTrace)
    {
      out, reported, done := ReduceGroupsTurn(groups, k, out, reported, done, pre, bytes, byStackTrace, maxDelay);
    }
    TakeAll(pre);
    forall k | 0 <= k < |groups| ensures Values(out[k].1) == Reduce(StripAll(pre[k], byStackTrace), maxDelay) {
      ReportedValues(out, pre, reported, byStackTrace, maxDelay, k);
    }
  }

  /** One turn of the second loop with the fix: the reduction works on
      copies, so nothing reported before changes. */
  method ReduceNextCopying(groups: seq<(SocketMetaData, seq<NetworkPacket>)>, k: nat, out: seq<(SocketMetaData, seq<NetworkPacket>)>,
                           ghost inputs: seq<seq<Packet>>, ghost reported: set<NetworkPacket>, ghost sorted: seq<Packet>,
                           byStackTrace: bool, maxDelay: Int64)
    returns (reduced: seq<NetworkPacket>)
    requires k < |groups| && Reported(out, inputs, reported, byStackTrace, maxDelay)
    requires Values(SortByTimestamp(groups[k].1)) == sorted
    ensures Reported(out + [(groups[k].0, reduced)], inputs + [sorted], reported + (set p | p in reduced), byStackTrace, maxDelay)
    ensures forall p :: p in reduced ==> fresh(p)
  {
    label before:
    reduced := ReducePacketsCopying(SortByTimestamp(groups[k].1), byStackTrace, maxDelay);
    ReportedUnchanged@before(out, inputs, reported, byStackTrace, maxDelay);
    ReportedSnoc(out, inputs, reported, (groups[k].0, reduced), sorted, byStackTrace, maxDelay);
  }

  /** One turn of the second loop with the fix. */
  method ReduceGroupsTurnCopying(groups: seq<(SocketMetaData, seq<NetworkPacket>)>, k: nat, out: seq<(SocketMetaData, seq<NetworkPacket>)>,
                                 ghost reported: set<NetworkPacket>, ghost done: set<NetworkPacket>, ghost pre: seq<seq<Packet>>,
                                 ghost bytes: map<NetworkPacket, seq<Byte>>, byStackTrace: bool, maxDelay: Int64)
    returns (out': seq<(SocketMetaData, seq<NetworkPacket>)>, ghost reported': set<NetworkPacket>, ghost done': set<NetworkPacket>)
    requires k < |groups| && pre == SortedValuesWith(groups, bytes)
    requires GroupsProgress(groups, k, out, reported, done, pre, bytes, byStackTrace, maxDelay)
    requires forall p :: p in Elements(groups) ==> p !in reported
    ensures GroupsProgress(groups, k + 1, out', reported', done', pre, bytes, byStackTrace, maxDelay)
    ensures forall p :: p in Elements(groups) ==> p !in reported'
    ensures forall p :: p in reported' ==> p in reported || fresh(p)
  {
    forall p | p in groups[k].1 ensures p in bytes && p.bytes == bytes[p] {
      assert p in Elements(groups);
    }
    SortMembers(groups[k].1);
    ValuesWithCurrent(SortByTimestamp(groups[k].1), bytes);
    var reduced := ReduceNextCopying(groups, k, out, pre[..k], reported, pre[k], byStackTrace, maxDelay);
    ElementsPrefix(groups, k);
    TakeSnoc(pre, k);
    KeysSnoc(out, groups, (groups[k].0, reduced));
    out' := out + [(groups[k].0, reduced)];
    reported' := reported + set p | p in reduced;
    done' := done + set p | p in groups[k].1;
  }

  /** The reduction of every grouped list, with the fix: each list is
      sorted and reduced into new packets, and the stored ones stay as they were. */
  method ReduceGroupsCopying(groups: seq<(SocketMetaData, seq<NetworkPacket>)>, byStackTrace: bool, maxDelay: Int64)
    returns (out: seq<(SocketMetaData, seq<NetworkPacket>)>)
    ensures |out| == |groups|
    ensures forall k :: 0 <= k < |groups| ==> (out[k].0 == groups[k].0 &&
      Values(out[k].1) == Reduce(StripAll(Values(SortByTimestamp(groups[k].1)), byStackTrace), maxDelay))
    ensures forall p :: p in Elements(out) ==> fresh(p)
  {
    ghost var bytes := BytesOf(Elements(groups));
    ghost var pre := SortedValuesWith(groups, bytes);
    out := [];
    ghost var reported: set<NetworkPacket> := {};
    ghost var done: set<NetworkPacket> := {};
    assert groups[..0] == [];
    for k := 0 to |groups|
      invariant GroupsProgress(groups, k, out, reported, done, pre, bytes, byStackTrace, maxDelay)
      invariant forall p :: p in Elements(groups) ==> p !in reported
      invariant forall p :: p in reported ==> fresh(p)
    {
      out, reported, done := ReduceGroupsTurnCopying(groups, k, out, reported, done, pre, bytes, byStackTrace, maxDelay);
    }
    TakeAll(pre);
    SnapshotValues(groups, bytes);
    forall k | 0 <= k < |groups| ensures Values(out[k].1) == Reduce(StripAll(pre[k], byStackTrace), maxDelay) {
      ReportedValues(out, pre, reported, byStackTrace, maxDelay, k);
    }
  }

  // ---------------------------------------------------------------- expectations

  /** A Spy.Expectation; what its verify finds is the `verdict` parameter. */
  datatype Expectation = Expectation(id: nat)

  datatype SniffyAssertionError = SniffyAssertionError(id: nat)

  /** What a Spy method throws. */
  datatype SpyError =
    | SpyClosed(closeStackTrace: seq<StackFrame>)
    | AssertionFailed(chain: Chain<SniffyAssertionError>)
    | NegativeArraySize
    | CallbackFailed(error: CallbackError, suppressed: seq<SpyError>)
    | NullPointer

  /** What a callback passed to execute, run or call threw. */
  datatype CallbackError = CallbackError(id: nat)

  /** What verify() makes of the failures: nothing, or the chain of them. */
  function VerifyOutcome(failures: seq<SniffyAssertionError>): (r: Outcome<SpyError>)
    ensures r.Pass? <==> |failures| == 0
    ensures r.Fail? ==> r.error.AssertionFailed? && Throwables(r.error.chain) == failures
  {
    match ChainOf(failures)
    case None => Pass
    case Some(c) =>
      ChainKeepsOrder(failures);
      Fail(AssertionFailed(c))
  }

  /** The suppressed list verifyAndAddToException attaches to a callback's error. */
  function Suppressed(failures: seq<SniffyAssertionError>): (s: seq<SpyError>)
    ensures |s| <= 1 && (|s| == 0 <==> |failures| == 0)
    ensures |s| == 1 ==> Outcome.Fail(s[0]) == VerifyOutcome(failures)
  {
    match VerifyOutcome(failures)
    case Pass => []
    case Fail(e) => [e]
  }

  /** The message of SpyClosedException: the close stack trace printed below
      "Spy is closed" and a "Close stack trace:" line. */
  function SpyClosedMessage(closeStackTrace: seq<StackFrame>, lineSeparator: string): string {
    ExceptionUtil.Message("Spy is closed" + lineSeparator + "Close stack trace:", closeStackTrace, lineSeparator)
  }

  lemma SpyClosedMessageShape(closeStackTrace: seq<StackFrame>, lineSeparator: string)
    ensures StartsWith(SpyClosedMessage(closeStackTrace, lineSeparator), "Spy is closed" + lineSeparator + "Close stack trace:")
    ensures |closeStackTrace| == 0 ==> SpyClosedMessage(closeStackTrace, lineSeparator) == "Spy is closed" + lineSeparator + "Close stack trace:"
  {
    ExceptionUtil.MessageExtends("Spy is closed" + lineSeparator + "Close stack trace:", closeStackTrace, lineSeparator, 0);
  }

  // ---------------------------------------------------------------- the session

  class Spy {
    var executedStatements: seq<(StatementKey, SqlStats)>
    var socketOperations: seq<(SocketMetaData, SocketStats)>
    var networkTraffic: seq<(SocketMetaData, seq<NetworkPacket>)>
    var expectations: seq<Expectation>
    var closed: bool
    var closeStackTrace: seq<StackFrame>

    /** The errors the expectations raise, in list order. */
    function CurrentFailures(verdict: Expectation -> Option<SniffyAssertionError>): seq<SniffyAssertionError>
      reads this
    {
      FailuresOf(expectations, verdict)
    }

    /** A new Spy: nothing recorded, nothing expected, open. */
    constructor ()
      ensures executedStatements == [] && socketOperations == [] && networkTraffic == []
      ensures expectations == [] && !closed && closeStackTrace == []
    {
      executedStatements := [];
      socketOperations := [];
      networkTraffic := [];
      expectations := [];
      closed := false;
      closeStackTrace := [];
    }

    /** getExecutedStatements(threadMatcher, removeStackTraces). */
    method GetExecutedStatements(threads: ThreadMatcher, currentThreadId: int, removeStackTraces: bool)
      returns (r: seq<(StatementKey, SqlStats)>)
      ensures r == StatementView(executedStatements, threads, currentThreadId, removeStackTraces)
    {
      r := [];
      for i := 0 to |executedStatements|
        invariant r == StatementView(executedStatements[..i], threads, currentThreadId, removeStackTraces)
      {
        assert executedStatements[..i + 1][..i] == executedStatements[..i];
        var entry := executedStatements[i];
        var key := entry.0;
        if removeStackTraces {
          key := StatementKey(key.sql, key.kind, None, key.thread);
        }
        if ThreadMatches(threads, currentThreadId, Some(key.thread)) {
          var existing := Position(Ids(r, StatementId), key);
          if existing == -1 {
            r := r + [(key, entry.1)];
          } else {
            r := r[existing := (r[existing].0, AccumulateSql(r[existing].1, entry.1))];
          }
        }
      }
      assert executedStatements[..|executedStatements|] == executedStatements;
    }

    /** getSocketOperations(threadMatcher, addressMatcher, removeStackTraces). */
    method GetSocketOperations(env: Env, threads: ThreadMatcher, currentThreadId: int, addressMatcher: Option<AddressMatcher>,
                               removeStackTraces: bool) returns (r: seq<(SocketMetaData, SocketStats)>)
      ensures r == SocketView(env, socketOperations, threads, currentThreadId, addressMatcher, removeStackTraces)
    {
      r := [];
      for i := 0 to |socketOperations|
        invariant r == SocketView(env, socketOperations[..i], threads, currentThreadId, addressMatcher, removeStackTraces)
      {
        SocketViewStep(env, socketOperations, i, threads, currentThreadId, addressMatcher, removeStackTraces);
        var entry := socketOperations[i];
        var key := entry.0;
        if ThreadMatches(threads, currentThreadId, key.threadMetaData) && (addressMatcher.None? || addressMatcher.value(key.address)) {
          if removeStackTraces {
            key := New(env, key.protocol, key.address, key.connectionId, None, key.threadMetaData);
          }
          var existing := Position(Ids(r, Identity), Identity(key));
          if existing == -1 {
            r := r + [(key, entry.1)];
          } else {
            r := r[existing := (r[existing].0, AccumulateSocket(r[existing].1, entry.1))];
          }
        }
      }
      assert socketOperations[..|socketOperations|] == socketOperations;
    }

    /** The values of the k-th grouped list, sorted by timestamp. */
    ghost function SortedTraffic(env: Env, threads: ThreadMatcher, currentThreadId: int, addressMatcher: AddressMatcher,
                                 options: GroupingOptions, k: nat): seq<Packet>
      requires k < |TrafficGroups(env, networkTraffic, threads, currentThreadId, addressMatcher, options)|
      reads this, Elements(networkTraffic)
    {
      var g := TrafficGroups(env, networkTraffic, threads, currentThreadId, addressMatcher, options);
      TrafficGroupsMembers(env, networkTraffic, threads, currentThreadId, addressMatcher, options);
      SortMembers(g[k].1);
      assert forall p :: p in g[k].1 ==> p in Elements(g);
      Values(SortByTimestamp(g[k].1))
    }

    /** The sorted lists, read through a snapshot of the stored bytes. */
    lemma SortedTrafficWith(env: Env, threads: ThreadMatcher, currentThreadId: int, addressMatcher: AddressMatcher,
                            options: GroupingOptions, bytes: map<NetworkPacket, seq<Byte>>)
      requires forall p :: p in Elements(networkTraffic) ==> p in bytes && p.bytes == bytes[p]
      ensures forall k :: 0 <= k < |TrafficGroups(env, networkTraffic, threads, currentThreadId, addressMatcher, options)| ==>
        SortedTraffic(env, threads, currentThreadId, addressMatcher, options, k) ==
        ValuesWith(SortByTimestamp(TrafficGroups(env, networkTraffic, threads, currentThreadId, addressMatcher, options)[k].1), bytes)
    {
      var g := TrafficGroups(env, networkTraffic, threads, currentThreadId, addressMatcher, options);
      TrafficGroupsMembers(env, networkTraffic, threads, currentThreadId, addressMatcher, options);
      forall k | 0 <= k < |g| ensures SortedTraffic(env, threads, currentThreadId, addressMatcher, options, k) == ValuesWith(SortByTimestamp(g[k].1), bytes) {
        SortMembers(g[k].1);
        assert forall p :: p in g[k].1 ==> p in Elements(g);
        ValuesWithCurrent(SortByTimestamp(g[k].1), bytes);
      }
    }

    /** The first loop of getNetworkTraffic: the stored connections whose
        thread and address match, rekeyed by the grouping options and grouped
        under equal keys. A null address matcher is dereferenced as soon as a
        connection's thread matches. */
    method GroupTraffic(env: Env, threads: ThreadMatcher, currentThreadId: int, addressMatcher: Option<AddressMatcher>,
                        options: GroupingOptions) returns (r: Result<seq<(SocketMetaData, seq<NetworkPacket>)>, SpyError>)
      ensures r.Err? <==> addressMatcher.None? && AnyThreadMatches(networkTraffic, threads, currentThreadId)
      ensures r.Err? ==> r.error == NullPointer
      ensures r.Ok? ==> r.value == TrafficGroups(env, networkTraffic, threads, currentThreadId, MatcherOrAny(addressMatcher), options)
    {
      var groups: seq<(SocketMetaData, seq<NetworkPacket>)> := [];
      for i := 0 to |networkTraffic|
        invariant groups == TrafficGroups(env, networkTraffic[..i], threads, currentThreadId, MatcherOrAny(addressMatcher), options)
        invariant addressMatcher.None? ==> !AnyThreadMatches(networkTraffic[..i], threads, currentThreadId)
      {
        TrafficGroupsStep(env, networkTraffic, i, threads, currentThreadId, MatcherOrAny(addressMatcher), options);
        var entry := networkTraffic[i];
        var key := entry.0;
        if ThreadMatches(threads, currentThreadId, key.threadMetaData) {
          if addressMatcher.None? {
            return Err(NullPointer);
          }
          if addressMatcher.value(key.address) {
            if !options.groupByConnection || !options.groupByStackTrace || !options.groupByThread {
              key := New(env, key.protocol, key.address, if options.groupByConnection then key.connectionId else -1,
                if options.groupByStackTrace then key.stackTrace else None, if options.groupByThread then key.threadMetaData else None);
            }
            groups := FilePackets(groups, key, entry.1);
          }
        }
        if addressMatcher.None? {
          NoMatchSnoc(networkTraffic, i, threads, currentThreadId);
        }
      }
      assert networkTraffic[..|networkTraffic|] == networkTraffic;
      return Ok(groups);
    }

    /** getNetworkTraffic(threadMatcher, addressMatcher, groupingOptions), as
        written: group, then sort and reduce every list, with the stored
        packets heading the runs. maxDelay is the configured packet merge
        threshold. */
    method GetNetworkTraffic(env: Env, threads: ThreadMatcher, currentThreadId: int, addressMatcher: Option<AddressMatcher>,
                             options: GroupingOptions, maxDelay: Int64)
      returns (r: Result<seq<(SocketMetaData, seq<NetworkPacket>)>, SpyError>)
      requires Distinct(Flatten(networkTraffic))
      modifies Elements(networkTraffic)
      ensures r.Err? <==> addressMatcher.None? && AnyThreadMatches(networkTraffic, threads, currentThreadId)
      ensures r.Err? ==> r.error == NullPointer
      ensures r.Ok? ==> |r.value| == |TrafficGroups(env, networkTraffic, threads, currentThreadId, MatcherOrAny(addressMatcher), options)|
      ensures r.Ok? ==> forall k :: 0 <= k < |r.value| ==>
        r.value[k].0 == TrafficGroups(env, networkTraffic, threads, currentThreadId, MatcherOrAny(addressMatcher), options)[k].0 &&
        Values(r.value[k].1) == Reduce(StripAll(old(SortedTraffic(env, threads, currentThreadId, MatcherOrAny(addressMatcher), options, k)),
          options.groupByStackTrace), maxDelay)
      ensures r.Ok? ==> forall p :: p in Elements(r.value) ==> p in Elements(networkTraffic) || (fresh(p) && !options.groupByStackTrace)
      ensures forall p :: p in Elements(networkTraffic) && (r.Err? || p !in Elements(r.value)) ==> p.bytes == old(p.bytes)
    {
      ghost var bytes := BytesOf(Elements(networkTraffic));
      SortedTrafficWith(env, threads, currentThreadId, MatcherOrAny(addressMatcher), options, bytes);
      var grouped := GroupTraffic(env, threads, currentThreadId, addressMatcher, options);
      if grouped.Err? {
        return Err(grouped.error);
      }
      var groups := grouped.value;
      TrafficGroupsDistinct(env, networkTraffic, threads, currentThreadId, MatcherOrAny(addressMatcher), options);
      forall k | 0 <= k < |groups| ensures old(SortedTraffic(env, threads, currentThreadId, MatcherOrAny(addressMatcher), options, k)) ==
        Values(SortByTimestamp(groups[k].1))
      {
        assert old(SortedTraffic(env, threads, currentThreadId, MatcherOrAny(addressMatcher), options, k)) ==
          ValuesWith(SortByTimestamp(groups[k].1), bytes);
        SortMembers(groups[k].1);
        assert forall p :: p in SortByTimestamp(groups[k].1) ==> p in Elements(networkTraffic) by {
          assert forall p :: p in groups[k].1 ==> p in Elements(groups);
        }
        ValuesWithCurrent(SortByTimestamp(groups[k].1), bytes);
      }
      var out := ReduceGroups(groups, options.groupByStackTrace, maxDelay);
      return Ok(out);
    }

    /** getNetworkTraffic with the fix: the reduction copies every packet, so
        the stored packets are left as they were. */
    method GetNetworkTrafficCopying(env: Env, threads: ThreadMatcher, currentThreadId: int, addressMatcher: Option<AddressMatcher>,
                                    options: GroupingOptions, maxDelay: Int64)
      returns (r: Result<seq<(SocketMetaData, seq<NetworkPacket>)>, SpyError>)
      ensures r.Err? <==> addressMatcher.None? && AnyThreadMatches(networkTraffic, threads, currentThreadId)
      ensures r.Err? ==> r.error == NullPointer
      ensures r.Ok? ==> |r.value| == |TrafficGroups(env, networkTraffic, threads, currentThreadId, MatcherOrAny(addressMatcher), options)|
      ensures r.Ok? ==> forall k :: 0 <= k < |r.value| ==>
        r.value[k].0 == TrafficGroups(env, networkTraffic, threads, currentThreadId, MatcherOrAny(addressMatcher), options)[k].0 &&
        Values(r.value[k].1) == Reduce(StripAll(SortedTraffic(env, threads, currentThreadId, MatcherOrAny(addressMatcher), options, k),
          options.groupByStackTrace), maxDelay)
      ensures r.Ok? ==> forall p :: p in Elements(r.value) ==> fresh(p)
    {
      var grouped := GroupTraffic(env, threads, currentThreadId, addressMatcher, options);
      if grouped.Err? {
        return Err(grouped.error);
      }
      var out := ReduceGroupsCopying(grouped.value, options.groupByStackTrace, maxDelay);
      return Ok(out);
    }

    /** expect(expectation): append, evaluate nothing. */
    method Expect(e: Expectation) returns (r: Outcome<SpyError>)
      modifies this
      ensures old(closed) ==> r == Fail(SpyClosed(old(closeStackTrace))) && unchanged(this)
      ensures !old(closed) ==> r == Pass && expectations == old(expectations) + [e] && !closed
      ensures closeStackTrace == old(closeStackTrace) && executedStatements == old(executedStatements)
      ensures socketOperations == old(socketOperations) && networkTraffic == old(networkTraffic)
    {
      if closed {
        return Fail(SpyClosed(closeStackTrace));
      }
      expectations := expectations + [e];
      return Pass;
    }

    /** verify(expectation): evaluate one expectation now; the list is not
        touched (the method changes nothing). */
    method VerifyNow(e: Expectation, verdict: Expectation -> Option<SniffyAssertionError>) returns (r: Outcome<SpyError>)
      ensures closed ==> r == Fail(SpyClosed(closeStackTrace))
      ensures !closed ==> (r.Pass? <==> verdict(e).None?)
      ensures !closed && r.Fail? ==> r.error == AssertionFailed(Failure(verdict(e).value, None))
    {
      if closed {
        return Fail(SpyClosed(closeStackTrace));
      }
      var failure := verdict(e);
      if failure.Some? {
        return Fail(AssertionFailed(Failure(failure.value, None)));
      }
      return Pass;
    }

    /** getSniffyAssertionError: verify every expectation in order; the first
        error is returned and each later one becomes the cause of the one
        before it. */
    method GetSniffyAssertionError(verdict: Expectation -> Option<SniffyAssertionError>)
      returns (r: Result<Option<Chain<SniffyAssertionError>>, SpyError>)
      ensures closed ==> r == Err(SpyClosed(closeStackTrace))
      ensures !closed ==> r == Ok(ChainOf(CurrentFailures(verdict)))
    {
      if closed {
        return Err(SpyClosed(closeStackTrace));
      }
      var failures: seq<SniffyAssertionError> := [];
      for i := 0 to |expectations|
        invariant failures == FailuresOf(expectations[..i], verdict)
      {
        assert expectations[..i + 1][..i] == expectations[..i];
        var failure := verdict(expectations[i]);
        if failure.Some? {
          failures := failures + [failure.value];
        }
      }
      assert expectations[..|expectations|] == expectations;
      return Ok(ChainOf(failures));
    }

    /** verify(): throw the chain, if there is one. */
    method Verify(verdict: Expectation -> Option<SniffyAssertionError>) returns (r: Outcome<SpyError>)
      ensures closed ==> r == Fail(SpyClosed(closeStackTrace))
      ensures !closed ==> r == VerifyOutcome(CurrentFailures(verdict))
    {
      var chain := GetSniffyAssertionError(verdict);
      if chain.Err? {
        return Fail(chain.error);
      }
      if chain.value.Some? {
        return Fail(AssertionFailed(chain.value.value));
      }
      return Pass;
    }

    /** close(): verify, and then, in the finally block (so even when verify
        threw, and even when the Spy was closed already), mark the Spy closed
        and record the stack without its first frame. An empty stack makes the
        copy array negative-sized, and that exception replaces verify's. */
    method Close(verdict: Expectation -> Option<SniffyAssertionError>, stack: seq<StackFrame>) returns (r: Outcome<SpyError>)
      modifies this
      ensures closed
      ensures closeStackTrace == if |stack| > 0 then stack[1..] else old(closeStackTrace)
      ensures r == if |stack| == 0 then Fail(NegativeArraySize)
        else if old(closed) then Fail(SpyClosed(old(closeStackTrace)))
        else VerifyOutcome(old(CurrentFailures(verdict)))
      ensures expectations == old(expectations) && executedStatements == old(executedStatements)
      ensures socketOperations == old(socketOperations) && networkTraffic == old(networkTraffic)
    {
      r := Verify(verdict);
      closed := true;
      if |stack| == 0 {
        return Fail(NegativeArraySize);
      }
      closeStackTrace := stack[1..];
    }

    /** reset(): forget everything recorded and every expectation. */
    method Reset() returns (r: Outcome<SpyError>)
      modifies this
      ensures old(closed) ==> r == Fail(SpyClosed(old(closeStackTrace))) && unchanged(this)
      ensures !old(closed) ==> (r == Pass && expectations == [] && !closed &&
        executedStatements == [] && socketOperations == [] && networkTraffic == [])
      ensures closeStackTrace == old(closeStackTrace)
    {
      if closed {
        return Fail(SpyClosed(closeStackTrace));
      }
      executedStatements := [];
      socketOperations := [];
      networkTraffic := [];
      expectations := [];
      return Pass;
    }

    /** execute(Executable) and run(Runnable): the callback's outcome and what
        the expectations find after it are parameters. A failing callback's
        error is rethrown with verify's error, if any, as suppressed;
        otherwise verify's outcome is the result. */
    method Execute(callback: Outcome<CallbackError>, verdict: Expectation -> Option<SniffyAssertionError>) returns (r: Outcome<SpyError>)
      ensures closed ==> r == Fail(SpyClosed(closeStackTrace))
      ensures !closed && callback.Fail? ==>
        r == Fail(CallbackFailed(callback.error, Suppressed(CurrentFailures(verdict))))
      ensures !closed && callback.Pass? ==> r == VerifyOutcome(CurrentFailures(verdict))
    {
      if closed {
        return Fail(SpyClosed(closeStackTrace));
      }
      if callback.Fail? {
        var verified := Verify(verdict);
        var suppressed := if verified.Fail? then [verified.error] else [];
        return Fail(CallbackFailed(callback.error, suppressed));
      }
      r := Verify(verdict);
    }

    /** call(Callable): as execute, returning the callback's value (as
        SpyWithValue) when verification passes. */
    method Call<V>(callback: Result<V, CallbackError>, verdict: Expectation -> Option<SniffyAssertionError>) returns (r: Result<V, SpyError>)
      ensures closed ==> r == Err(SpyClosed(closeStackTrace))
      ensures !closed && callback.Err? ==>
        r == Err(CallbackFailed(callback.error, Suppressed(CurrentFailures(verdict))))
      ensures !closed && callback.Ok? ==>
        (r.Ok? <==> |CurrentFailures(verdict)| == 0) &&
        (r.Ok? ==> r.value == callback.value) &&
        (r.Err? ==> Fail(r.error) == VerifyOutcome(CurrentFailures(verdict)))
    {
      if closed {
        return Err(SpyClosed(closeStackTrace));
      }
      var verified := Verify(verdict);
      if callback.Err? {
        var suppressed := if verified.Fail? then [verified.error] else [];
        return Err(CallbackFailed(callback.error, suppressed));
      }
      if verified.Fail? {
        return Err(verified.error);
      }
      return Ok(callback.value);
    }
  }

  /** Closing twice: the second close reports the first close's stack, and
      afterwards the Spy refuses expect, verify and reset; the views still
      answer, since they do not check that the Spy is open. */
  method CloseTwice(s: Spy, verdict: Expectation -> Option<SniffyAssertionError>, first: seq<StackFrame>, second: seq<StackFrame>, e: Expectation)
    returns (again: Outcome<SpyError>)
    requires !s.closed && |first| > 0 && |second| > 0
    modifies s
    ensures again == Fail(SpyClosed(first[1..]))
    ensures s.closed && s.closeStackTrace == second[1..]
  {
    var _ := s.Close(verdict, first);
    again := s.Close(verdict, second);
    var appended := s.Expect(e);
    assert appended == Fail(SpyClosed(second[1..]));
    var verify := s.Verify(verdict);
    assert verify == Fail(SpyClosed(second[1..]));
    var reset := s.Reset();
    assert reset == Fail(SpyClosed(second[1..]));
  }

  /** With every grouping option on, a single stored connection is its own
      group. */
  lemma SingleConnectionGroups(env: Env, key: SocketMetaData, ps: seq<NetworkPacket>, currentThreadId: int)
    ensures TrafficGroups(env, [(key, ps)], ANY, currentThreadId, AnyAddress, GroupingOptions(true, true, true)) == [(key, ps)]
  {
    var options := GroupingOptions(true, true, true);
    var records := [(key, ps)];
    assert records[..|records| - 1] == [];
    assert TrafficKeyOf(env, key, options) == key;
    assert ThreadMatches(ANY, currentThreadId, key.threadMetaData) && AnyAddress(key.address);
    var sel := SelectTraffic(env, records, ANY, currentThreadId, AnyAddress, options);
    assert sel == SelectTraffic(env, [], ANY, currentThreadId, AnyAddress, options) + [(key, ps)];
    assert sel == [(key, ps)];
    var empty: seq<(SocketMetaData, seq<NetworkPacket>)> := [];
    assert sel[..|sel| - 1] == empty;
    assert GroupBy(empty, Identity, AppendPackets) == empty;
    assert Ids(empty, Identity) == [];
    assert Upsert(empty, key, ps, Identity, AppendPackets) == [(key, ps)];
  }

  /** Two connections of one thread to the same IP address and port, looked
      up by different host names: grouped neither by connection nor by stack
      trace, their packets are filed under one key, first connection first. */
  lemma HostNamesShareTrafficGroup(env: Env, c1: SocketMetaData, c2: SocketMetaData, p1: seq<NetworkPacket>, p2: seq<NetworkPacket>,
                                   currentThreadId: int)
    requires SameAddress(c1.address, c2.address) && ThreadId(c1) == ThreadId(c2)
    ensures var options := GroupingOptions(false, false, true);
      TrafficGroups(env, [(c1, p1), (c2, p2)], ANY, currentThreadId, AnyAddress, options) ==
      [(TrafficKeyOf(env, c1, options), p1 + p2)]
  {
    var options := GroupingOptions(false, false, true);
    var k1, k2 := TrafficKeyOf(env, c1, options), TrafficKeyOf(env, c2, options);
    var records := [(c1, p1), (c2, p2)];
    assert records[..1] == [(c1, p1)] && [(c1, p1)][..0] == [];
    assert AnyAddress(c1.address) && AnyAddress(c2.address);
    assert SelectTraffic(env, [(c1, p1)], ANY, currentThreadId, AnyAddress, options) == [(k1, p1)];
    assert SelectTraffic(env, records, ANY, currentThreadId, AnyAddress, options) == [(k1, p1), (k2, p2)];
    assert Identity(k1) == Identity(k2);
    GroupBySmall((k1, p1), (k2, p2), Identity, AppendPackets);
  }

  /** Two packets in the same direction at the same instant merge when the
      threshold is 0. */
  lemma TwoPacketsMerge(x: Packet, y: Packet)
    requires x.sent == y.sent && x.timestamp == y.timestamp
    ensures Reduce(StripAll([x, y], true), 0) == [x.(bytes := x.bytes + y.bytes)]
  {
    var t := StripAll([x, y], true);
    assert t == [x, y];
    assert t[..1] == [x] && [x][..0] == [];
    assert Reduce(t[..1], 0) == [x];
  }

  /** A one-element list holds nothing but its element. */
  lemma OnlyElement<T>(s: seq<T>, x: T)
    requires |s| == 1 && s[0] != x
    ensures x !in s
  {
  }

  /** Two distinct packets sent at the same instant, as a list. */
  predicate SimultaneousPair(a: NetworkPacket, b: NetworkPacket)
    reads a, b
  {
    a != b && a.sent && b.sent && a.timestamp == 0 && b.timestamp == 0 && a.stackTrace.None? && b.stackTrace.None?
  }

  /** ReducePackets on [a, b]: one packet, one of the two, holding both
      packets' bytes; a packet not reported keeps its bytes. */
  method ReducePair(a: NetworkPacket, b: NetworkPacket) returns (reduced: seq<NetworkPacket>)
    requires SimultaneousPair(a, b)
    modifies a, b
    ensures |reduced| == 1 && (reduced[0] == a || reduced[0] == b)
    ensures reduced[0].bytes == old(a.bytes) + old(b.bytes)
    ensures a !in reduced ==> a.bytes == old(a.bytes)
    ensures b !in reduced ==> b.bytes == old(b.bytes)
  {
    var pair := [a, b];
    ghost var x, y := a.Value(), b.Value();
    ValuesPointwise(pair, [x, y]);
    TwoPacketsMerge(x, y);
    assert a in pair && b in pair;
    reduced := ReducePackets(pair, true, 0);
    assert |Values(reduced)| == 1;
    var r := reduced[0];
    assert Values(reduced)[0] == r.Value() && r in reduced;
    assert r.bytes == x.bytes + y.bytes && r in pair;
  }

  /** The second loop of getNetworkTraffic on the sorted list [a, b], grouped by
      stack trace, with threshold 0, as written: the single reported packet
      is one of the two stored packets, now holding both packets' bytes,
      and the other is left as it was. */
  method ReduceTwoPackets(a: NetworkPacket, b: NetworkPacket) returns (q: NetworkPacket)
    requires SimultaneousPair(a, b)
    modifies a, b
    ensures q == a || q == b
    ensures q.bytes == old(a.bytes) + old(b.bytes)
    ensures q == a ==> b.bytes == old(b.bytes)
    ensures q == b ==> a.bytes == old(a.bytes)
  {
    var reduced := ReducePair(a, b);
    q := reduced[0];
    if q == a {
      OnlyElement(reduced, b);
    } else {
      OnlyElement(reduced, a);
    }
  }

  /** The same list with the fix: the reported packet is a new one holding
      both packets' bytes. */
  method ReduceTwoPacketsCopying(a: NetworkPacket, b: NetworkPacket) returns (q: NetworkPacket)
    requires SimultaneousPair(a, b)
    ensures fresh(q) && q.bytes == a.bytes + b.bytes
  {
    ValuesPointwise([a, b], [a.Value(), b.Value()]);
    TwoPacketsMerge(a.Value(), b.Value());
    ghost var merged := Packet(true, 0, None, a.bytes + b.bytes);
    var reduced := ReducePacketsCopying([a, b], true, 0);
    assert Values(reduced) == [merged];
    q := reduced[0];
    assert q in reduced && q.Value() == merged;
  }

  /** Asking twice for the traffic of a connection that captured bytes [1]
      and [2] at the same instant, as written: the first report merges the
      two packets into a stored packet, so the second report holds three
      bytes where only two were captured. */
  method RepeatedTrafficReport() returns (first: seq<Byte>, second: seq<Byte>)
    ensures first == [1, 2] && |second| == 3
  {
    var a := new NetworkPacket(true, 0, None, [1], 0, 1);
    var b := new NetworkPacket(true, 0, None, [2], 0, 1);
    var q1 := ReduceTwoPackets(a, b);
    first := q1.bytes;
    var q2 := ReduceTwoPackets(a, b);
    second := q2.bytes;
  }

  /** The same two requests with the fix: both reports hold the two
      captured bytes. */
  method RepeatedTrafficReportCopying() returns (first: seq<Byte>, second: seq<Byte>)
    ensures first == [1, 2] && second == [1, 2]
  {
    var a := new NetworkPacket(true, 0, None, [1], 0, 1);
    var b := new NetworkPacket(true, 0, None, [2], 0, 1);
    var q1 := ReduceTwoPacketsCopying(a, b);
    first := q1.bytes;
    var q2 := ReduceTwoPacketsCopying(a, b);
    second := q2.bytes;
  }

  /** The reported chain describes the expectations: none when all pass, and
      otherwise the first failing expectation's error, followed through
      getCause by the errors of the later failing ones, in list order. */
  lemma VerifyReportsFailures(expectations: seq<Expectation>, verdict: Expectation -> Option<SniffyAssertionError>)
    ensures VerifyOutcome(FailuresOf(expectations, verdict)).Pass? <==>
      forall i :: 0 <= i < |expectations| ==> verdict(expectations[i]).None?
    ensures VerifyOutcome(FailuresOf(expectations, verdict)).Fail? ==>
      exists i :: 0 <= i < |expectations| && Some(VerifyOutcome(FailuresOf(expectations, verdict)).error.chain.error) == verdict(expectations[i]) &&
        forall j :: 0 <= j < i ==> verdict(expectations[j]).None?
  {
    FailuresOfMeaning(expectations, verdict);
  }
}
