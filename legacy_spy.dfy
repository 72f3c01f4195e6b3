/** The Spy of the legacy JDBC sniffer (com.github.bedrin.jdbc.sniffer.Spy): a
    session that remembers the statement counters at its start, keeps a list
    of expected [min, max] statement counts, and checks them on verify and
    close. The global and thread-local counters (Sniffer.COUNTER and
    Sniffer.THREAD_LOCAL_COUNTER) are read at a moment and passed in as
    `now`; the stack of the closing thread is passed in as `stack`. */
module LegacySpy {
  import opened Wrappers
  import opened JavaText
  import opened ErrorChain
  import opened StackFrames
  import SqlQuery

  /** Which threads' statements are counted. */
  datatype Threads = ANY | CURRENT | OTHERS

  /** A statement type to count, or ALL of them. */
  datatype QueryType = ALL | Kind(kind: SqlQuery.Type)

  /** A counter: the number of statements executed so far, per statement type. */
  type Counter = QueryType -> Int32

  /** The two counters at one moment: all threads, and the calling thread. */
  datatype Counters = Counters(global: Counter, threadLocal: Counter)

  // ---------------------------------------------------------------- counting

  /** The `switch` of executedStatements, in Java int arithmetic (each
      operator wraps around at 32 bits). */
  function Counted(threads: Threads, q: QueryType, now: Counters, base: Counters): Int32 {
    match threads
    case ANY => Wrap32(now.global(q) - base.global(q))
    case CURRENT => Wrap32(now.threadLocal(q) - base.threadLocal(q))
    case OTHERS =>
      Wrap32(Wrap32(Wrap32(now.global(q) - now.threadLocal(q)) - base.global(q)) + base.threadLocal(q))
  }

  /** Java evaluates g - l - g0 + l0 left to right, wrapping at every step;
      that is one wrap of the exact value. */
  lemma OthersStepwise(g: int, l: int, g0: int, l0: int)
    ensures Wrap32(Wrap32(Wrap32(g - l) - g0) + l0) == Wrap32(g - l - g0 + l0)
  {
    Wrap32Sum(g - l, -g0);
    Wrap32Sum(g - l - g0, l0);
  }

  lemma WrappedSplit(g: int, l: int, g0: int, l0: int)
    ensures Wrap32(g - g0) == Wrap32(Wrap32(l - l0) + Wrap32(g - l - g0 + l0))
  {
    var x := g - l - g0 + l0;
    Wrap32Sum(l - l0, Wrap32(x));
    Wrap32Sum(x, l - l0);
    assert l - l0 + Wrap32(x) == Wrap32(x) + (l - l0);
    assert x + (l - l0) == g - g0;
  }

  /** The calling thread's statements and the other threads' statements add up
      to all statements, for every statement type, in int arithmetic. */
  lemma CurrentPlusOthersIsAny(q: QueryType, now: Counters, base: Counters)
    ensures Counted(ANY, q, now, base) ==
      Wrap32(Counted(CURRENT, q, now, base) + Counted(OTHERS, q, now, base))
  {
    var g: int, l: int, g0: int, l0: int := now.global(q), now.threadLocal(q), base.global(q), base.threadLocal(q);
    OthersStepwise(g, l, g0, l0);
    assert Counted(OTHERS, q, now, base) == Wrap32(g - l - g0 + l0);
    assert Counted(CURRENT, q, now, base) == Wrap32(l - l0);
    WrappedSplit(g, l, g0, l0);
  }

  /** Without overflow the three counts are the exact differences against the
      baseline, and CURRENT + OTHERS == ANY holds exactly. */
  lemma CountsAreDifferences(q: QueryType, now: Counters, base: Counters)
    requires 0 <= base.threadLocal(q) <= now.threadLocal(q)
    requires 0 <= base.global(q) <= now.global(q)
    requires base.threadLocal(q) <= base.global(q) && now.threadLocal(q) <= now.global(q)
    requires now.threadLocal(q) - base.threadLocal(q) <= now.global(q) - base.global(q)
    ensures Counted(ANY, q, now, base) == now.global(q) - base.global(q)
    ensures Counted(CURRENT, q, now, base) == now.threadLocal(q) - base.threadLocal(q)
    ensures Counted(OTHERS, q, now, base) ==
      (now.global(q) - now.threadLocal(q)) - (base.global(q) - base.threadLocal(q))
    ensures Counted(ANY, q, now, base) == Counted(CURRENT, q, now, base) + Counted(OTHERS, q, now, base)
  {
    OthersStepwise(now.global(q), now.threadLocal(q), base.global(q), base.threadLocal(q));
  }

  // ---------------------------------------------------------------- expectations

  datatype Expectation =
    ThreadMatcherExpectation(minimumQueries: Int32, maximumQueries: Int32, threadMatcher: Threads, queryType: QueryType)

  /** The WrongNumberOfQueriesError that validate throws: the expectation's
      matcher and bounds, the observed count and the SQL recorded so far. */
  datatype WrongNumberOfQueries =
    WrongNumberOfQueries(threadMatcher: Threads, minimumQueries: Int32, maximumQueries: Int32, numQueries: Int32, executedSqls: seq<string>)

  /** ThreadMatcherExpectation.validate: the error, or None when the observed
      count lies within the bounds. */
  function Validate(e: Expectation, now: Counters, base: Counters, executedSqls: seq<string>): (r: Option<WrongNumberOfQueries>)
    ensures var n := Counted(e.threadMatcher, e.queryType, now, base);
      (r.None? <==> e.minimumQueries <= n <= e.maximumQueries) &&
      (r.Some? ==> r.value == WrongNumberOfQueries(e.threadMatcher, e.minimumQueries, e.maximumQueries, n, executedSqls))
  {
    var n := Counted(e.threadMatcher, e.queryType, now, base);
    if n > e.maximumQueries || n < e.minimumQueries then
      Some(WrongNumberOfQueries(e.threadMatcher, e.minimumQueries, e.maximumQueries, n, executedSqls))
    else None
  }

  /** The errors of the failing expectations, in list order. */
  function Failures(es: seq<Expectation>, now: Counters, base: Counters, executedSqls: seq<string>): seq<WrongNumberOfQueries> {
    if |es| == 0 then []
    else
      var rest := Failures(es[..|es| - 1], now, base, executedSqls);
      match Validate(es[|es| - 1], now, base, executedSqls)
      case None => rest
      case Some(w) => rest + [w]
  }

  /** Nothing fails exactly when every expectation holds; otherwise the first
      error belongs to the first expectation that does not hold. */
  lemma {:induction false} FailuresMeaning(es: seq<Expectation>, now: Counters, base: Counters, executedSqls: seq<string>)
    ensures |Failures(es, now, base, executedSqls)| == 0 <==>
      forall i :: 0 <= i < |es| ==> Validate(es[i], now, base, executedSqls).None?
    ensures |Failures(es, now, base, executedSqls)| > 0 ==>
      exists i :: 0 <= i < |es| && Validate(es[i], now, base, executedSqls) == Some(Failures(es, now, base, executedSqls)[0]) &&
        forall j :: 0 <= j < i ==> Validate(es[j], now, base, executedSqls).None?
  {
    if |es| > 0 {
      var init := es[..|es| - 1];
      FailuresMeaning(init, now, base, executedSqls);
      assert forall i :: 0 <= i < |init| ==> init[i] == es[i];
      var rest := Failures(init, now, base, executedSqls);
      if |rest| == 0 && Validate(es[|es| - 1], now, base, executedSqls).Some? {
        assert Validate(es[|es| - 1], now, base, executedSqls) == Some(Failures(es, now, base, executedSqls)[0]);
      }
    }
  }

  /** Expectations the source builds for its alias families. */
  function Never(threads: Threads, q: QueryType): Expectation { ThreadMatcherExpectation(0, 0, threads, q) }
  function AtMostOnce(threads: Threads, q: QueryType): Expectation { ThreadMatcherExpectation(0, 1, threads, q) }
  function AtMost(n: Int32, threads: Threads, q: QueryType): Expectation { ThreadMatcherExpectation(0, n, threads, q) }
  function Exactly(n: Int32, threads: Threads, q: QueryType): Expectation { ThreadMatcherExpectation(n, n, threads, q) }
  function AtLeast(n: Int32, threads: Threads, q: QueryType): Expectation { ThreadMatcherExpectation(n, IntMax, threads, q) }
  function Between(min: Int32, max: Int32, threads: Threads, q: QueryType): Expectation { ThreadMatcherExpectation(min, max, threads, q) }

  /** What each alias accepts, for any observed count: never exactly 0,
      atMostOnce 0 or 1, atMost(n) 0..n, expect(n) exactly n, atLeast(n) n or
      more (Integer.MAX_VALUE bounds nothing an int can hold), between(a, b)
      a..b inclusive. */
  lemma AliasMeaning(threads: Threads, q: QueryType, now: Counters, base: Counters, sqls: seq<string>, n: Int32, m: Int32)
    ensures var c := Counted(threads, q, now, base);
      (Validate(Never(threads, q), now, base, sqls).None? <==> c == 0) &&
      (Validate(AtMostOnce(threads, q), now, base, sqls).None? <==> 0 <= c <= 1) &&
      (Validate(AtMost(n, threads, q), now, base, sqls).None? <==> 0 <= c <= n) &&
      (Validate(Exactly(n, threads, q), now, base, sqls).None? <==> c == n) &&
      (Validate(AtLeast(n, threads, q), now, base, sqls).None? <==> n <= c) &&
      (Validate(Between(n, m, threads, q), now, base, sqls).None? <==> n <= c <= m)
  {
  }

  // ---------------------------------------------------------------- the session

  /** A call made through a Spy's callback: what the callback itself threw. */
  datatype CallbackError = CallbackError(id: nat)

  /** What a Spy method throws. */
  datatype SpyError =
    | SpyClosed(closeStackTrace: seq<StackFrame>)
    | WrongNumberOfQueriesError(chain: Chain<WrongNumberOfQueries>)
    | NegativeArraySize
    | CallbackFailed(error: CallbackError, suppressed: seq<SpyError>)

  /** What verify() makes of the failures: nothing, or the chain of them. */
  function VerifyOutcome(failures: seq<WrongNumberOfQueries>): (r: Outcome<SpyError>)
    ensures r.Pass? <==> |failures| == 0
    ensures r.Fail? ==> r.error.WrongNumberOfQueriesError? && Throwables(r.error.chain) == failures
  {
    match ChainOf(failures)
    case None => Pass
    case Some(c) =>
      ChainKeepsOrder(failures);
      Fail(WrongNumberOfQueriesError(c))
  }

  /** The suppressed list verifyAndAddToException attaches to a callback's error. */
  function Suppressed(failures: seq<WrongNumberOfQueries>): (s: seq<SpyError>)
    ensures |s| <= 1 && (|s| == 0 <==> |failures| == 0)
  {
    match VerifyOutcome(failures)
    case Pass => []
    case Fail(e) => [e]
  }

  class Spy {
    var initialCount: Counter
    var initialThreadLocalCount: Counter
    var executedSqls: seq<string>
    var closed: bool
    var closeStackTrace: seq<StackFrame>
    var expectations: seq<Expectation>

    /** The baselines as one value. */
    function Baseline(): Counters
      reads this
    {
      Counters(initialCount, initialThreadLocalCount)
    }

    /** The errors the expectations would raise on counters `now`. */
    function CurrentFailures(now: Counters): seq<WrongNumberOfQueries>
      reads this
    {
      Failures(expectations, now, Baseline(), executedSqls)
    }

    /** Spy(): baselines taken from the counters at creation. */
    constructor (now: Counters)
      ensures initialCount == now.global && initialThreadLocalCount == now.threadLocal
      ensures executedSqls == [] && !closed && expectations == [] && closeStackTrace == []
    {
      initialCount := now.global;
      initialThreadLocalCount := now.threadLocal;
      executedSqls := [];
      closed := false;
      closeStackTrace := [];
      expectations := [];
    }

    /** addExecutedSql. */
    method AddExecutedSql(sql: string)
      modifies this
      ensures executedSqls == old(executedSqls) + [sql]
      ensures initialCount == old(initialCount) && initialThreadLocalCount == old(initialThreadLocalCount)
      ensures closed == old(closed) && closeStackTrace == old(closeStackTrace) && expectations == old(expectations)
    {
      executedSqls := executedSqls + [sql];
    }

    /** reset: re-baseline and forget the recorded SQL; the expectations stay. */
    method Reset(now: Counters) returns (r: Outcome<SpyError>)
      modifies this
      ensures old(closed) ==> r == Fail(SpyClosed(old(closeStackTrace))) && unchanged(this)
      ensures !old(closed) ==> (r == Pass && Baseline() == now && executedSqls == [] &&
        expectations == old(expectations) && !closed && closeStackTrace == old(closeStackTrace))
    {
      if closed {
        return Fail(SpyClosed(closeStackTrace));
      }
      initialCount := now.global;
      initialThreadLocalCount := now.threadLocal;
      executedSqls := [];
      return Pass;
    }

    /** executedStatements(threadMatcher, queryType). */
    method ExecutedStatements(threads: Threads, q: QueryType, now: Counters) returns (r: Result<Int32, SpyError>)
      ensures closed ==> r == Err(SpyClosed(closeStackTrace))
      ensures !closed ==> r == Ok(Counted(threads, q, now, Baseline()))
    {
      if closed {
        return Err(SpyClosed(closeStackTrace));
      }
      return Ok(Counted(threads, q, now, Baseline()));
    }

    /** The expect* family: append one expectation, evaluate nothing. */
    method Expect(e: Expectation) returns (r: Outcome<SpyError>)
      modifies this
      ensures old(closed) ==> r == Fail(SpyClosed(old(closeStackTrace))) && unchanged(this)
      ensures !old(closed) ==> (r == Pass && expectations == old(expectations) + [e] &&
        Baseline() == old(Baseline()) && executedSqls == old(executedSqls) &&
        !closed && closeStackTrace == old(closeStackTrace))
    {
      if closed {
        return Fail(SpyClosed(closeStackTrace));
      }
      expectations := expectations + [e];
      return Pass;
    }

    method ExpectNever(threads: Threads, q: QueryType) returns (r: Outcome<SpyError>)
      modifies this
      ensures old(closed) ==> r == Fail(SpyClosed(old(closeStackTrace))) && unchanged(this)
      ensures !old(closed) ==> (r == Pass && expectations == old(expectations) + [Never(threads, q)] &&
        Baseline() == old(Baseline()) && executedSqls == old(executedSqls) &&
        !closed && closeStackTrace == old(closeStackTrace))
    {
      r := Expect(Never(threads, q));
    }

    method ExpectAtMostOnce(threads: Threads, q: QueryType) returns (r: Outcome<SpyError>)
      modifies this
      ensures old(closed) ==> r == Fail(SpyClosed(old(closeStackTrace))) && unchanged(this)
      ensures !old(closed) ==> (r == Pass && expectations == old(expectations) + [AtMostOnce(threads, q)] &&
        Baseline() == old(Baseline()) && executedSqls == old(executedSqls) &&
        !closed && closeStackTrace == old(closeStackTrace))
    {
      r := Expect(AtMostOnce(threads, q));
    }

    method ExpectAtMost(n: Int32, threads: Threads, q: QueryType) returns (r: Outcome<SpyError>)
      modifies this
      ensures old(closed) ==> r == Fail(SpyClosed(old(closeStackTrace))) && unchanged(this)
      ensures !old(closed) ==> (r == Pass && expectations == old(expectations) + [AtMost(n, threads, q)] &&
        Baseline() == old(Baseline()) && executedSqls == old(executedSqls) &&
        !closed && closeStackTrace == old(closeStackTrace))
    {
      r := Expect(AtMost(n, threads, q));
    }

    /** Spy.expect(n, ...). */
    method ExpectExactly(n: Int32, threads: Threads, q: QueryType) returns (r: Outcome<SpyError>)
      modifies this
      ensures old(closed) ==> r == Fail(SpyClosed(old(closeStackTrace))) && unchanged(this)
      ensures !old(closed) ==> (r == Pass && expectations == old(expectations) + [Exactly(n, threads, q)] &&
        Baseline() == old(Baseline()) && executedSqls == old(executedSqls) &&
        !closed && closeStackTrace == old(closeStackTrace))
    {
      r := Expect(Exactly(n, threads, q));
    }

    method ExpectAtLeast(n: Int32, threads: Threads, q: QueryType) returns (r: Outcome<SpyError>)
      modifies this
      ensures old(closed) ==> r == Fail(SpyClosed(old(closeStackTrace))) && unchanged(this)
      ensures !old(closed) ==> (r == Pass && expectations == old(expectations) + [AtLeast(n, threads, q)] &&
        Baseline() == old(Baseline()) && executedSqls == old(executedSqls) &&
        !closed && closeStackTrace == old(closeStackTrace))
    {
      r := Expect(AtLeast(n, threads, q));
    }

    method ExpectBetween(min: Int32, max: Int32, threads: Threads, q: QueryType) returns (r: Outcome<SpyError>)
      modifies this
      ensures old(closed) ==> r == Fail(SpyClosed(old(closeStackTrace))) && unchanged(this)
      ensures !old(closed) ==> (r == Pass && expectations == old(expectations) + [Between(min, max, threads, q)] &&
        Baseline() == old(Baseline()) && executedSqls == old(executedSqls) &&
        !closed && closeStackTrace == old(closeStackTrace))
    {
      r := Expect(Between(min, max, threads, q));
    }

    /** The verify* family: evaluate one fresh expectation now; the list is
        not touched (the method changes nothing). */
    method VerifyNow(e: Expectation, now: Counters) returns (r: Outcome<SpyError>)
      ensures closed ==> r == Fail(SpyClosed(closeStackTrace))
      ensures !closed ==> (r.Pass? <==> Validate(e, now, Baseline(), executedSqls).None?)
      ensures !closed && r.Fail? ==>
        r.error == WrongNumberOfQueriesError(Failure(Validate(e, now, Baseline(), executedSqls).value, None))
    {
      if closed {
        return Fail(SpyClosed(closeStackTrace));
      }
      var failure := Validate(e, now, Baseline(), executedSqls);
      if failure.Some? {
        return Fail(WrongNumberOfQueriesError(Failure(failure.value, None)));
      }
      return Pass;
    }

    /** getWrongNumberOfQueriesError: validate every expectation in order; the
        first error is returned and each later one becomes the cause of the one
        before it. */
    method GetWrongNumberOfQueriesError(now: Counters) returns (r: Result<Option<Chain<WrongNumberOfQueries>>, SpyError>)
      ensures closed ==> r == Err(SpyClosed(closeStackTrace))
      ensures !closed ==> r == Ok(ChainOf(CurrentFailures(now)))
    {
      if closed {
        return Err(SpyClosed(closeStackTrace));
      }
      var failures: seq<WrongNumberOfQueries> := [];
      for i := 0 to |expectations|
        invariant failures == Failures(expectations[..i], now, Baseline(), executedSqls)
      {
        assert expectations[..i + 1][..i] == expectations[..i];
        var failure := Validate(expectations[i], now, Baseline(), executedSqls);
        if failure.Some? {
          failures := failures + [failure.value];
        }
      }
      assert expectations[..|expectations|] == expectations;
      return Ok(ChainOf(failures));
    }

    /** verify(): throw the chain, if there is one. */
    method Verify(now: Counters) returns (r: Outcome<SpyError>)
      ensures closed ==> r == Fail(SpyClosed(closeStackTrace))
      ensures !closed ==> r == VerifyOutcome(CurrentFailures(now))
    {
      var chain := GetWrongNumberOfQueriesError(now);
      if chain.Err? {
        return Fail(chain.error);
      }
      if chain.value.Some? {
        return Fail(WrongNumberOfQueriesError(chain.value.value));
      }
      return Pass;
    }

    /** close(): verify, then (in the finally block, so even when verify threw)
        mark the Spy closed and record where it was closed: the stack without
        its first frame. An empty stack makes the copy array negative-sized,
        and that exception replaces verify's. */
    method Close(now: Counters, stack: seq<StackFrame>) returns (r: Outcome<SpyError>)
      modifies this
      ensures old(closed) ==> r == Fail(SpyClosed(old(closeStackTrace))) && unchanged(this)
      ensures !old(closed) ==> (closed && expectations == old(expectations) &&
        Baseline() == old(Baseline()) && executedSqls == old(executedSqls))
      ensures !old(closed) && |stack| > 0 ==>
        closeStackTrace == stack[1..] && r == VerifyOutcome(old(CurrentFailures(now)))
      ensures !old(closed) && |stack| == 0 ==>
        closeStackTrace == old(closeStackTrace) && r == Fail(NegativeArraySize)
    {
      if closed {
        return Fail(SpyClosed(closeStackTrace));
      }
      r := Verify(now);
      closed := true;
      if |stack| == 0 {
        return Fail(NegativeArraySize);
      }
      closeStackTrace := stack[1..];
    }

    /** execute(Executable) and run(Runnable): the callback's outcome, the
        statements it executes (which the sniffer records through
        addExecutedSql while it runs) and the counters after it are
        parameters. A failing callback's error is rethrown with verify's
        error, if any, as suppressed; otherwise verify's outcome is the
        result. Either way verify sees the callback's statements. */
    method Execute(callback: Outcome<CallbackError>, ran: seq<string>, after: Counters) returns (r: Outcome<SpyError>)
      modifies this
      ensures old(closed) ==> r == Fail(SpyClosed(old(closeStackTrace))) && unchanged(this)
      ensures !old(closed) ==> executedSqls == old(executedSqls) + ran && !closed
      ensures !old(closed) ==> (expectations == old(expectations) && Baseline() == old(Baseline()) &&
        closeStackTrace == old(closeStackTrace))
      ensures !old(closed) && callback.Fail? ==>
        r == Fail(CallbackFailed(callback.error, Suppressed(CurrentFailures(after))))
      ensures !old(closed) && callback.Pass? ==> r == VerifyOutcome(CurrentFailures(after))
    {
      if closed {
        return Fail(SpyClosed(closeStackTrace));
      }
      executedSqls := executedSqls + ran;
      var verified := Verify(after);
      if callback.Fail? {
        var suppressed := if verified.Fail? then [verified.error] else [];
        return Fail(CallbackFailed(callback.error, suppressed));
      }
      return verified;
    }

    /** call(Callable): as execute, returning the callback's value (as
        SpyWithValue) when verification passes. */
    method Call<V>(callback: Result<V, CallbackError>, ran: seq<string>, after: Counters) returns (r: Result<V, SpyError>)
      modifies this
      ensures old(closed) ==> r == Err(SpyClosed(old(closeStackTrace))) && unchanged(this)
      ensures !old(closed) ==> executedSqls == old(executedSqls) + ran && !closed
      ensures !old(closed) ==> (expectations == old(expectations) && Baseline() == old(Baseline()) &&
        closeStackTrace == old(closeStackTrace))
      ensures !old(closed) && callback.Err? ==>
        r == Err(CallbackFailed(callback.error, Suppressed(CurrentFailures(after))))
      ensures !old(closed) && callback.Ok? ==>
        (r.Ok? <==> |CurrentFailures(after)| == 0) &&
        (r.Ok? ==> r.value == callback.value) &&
        (r.Err? ==> Fail(r.error) == VerifyOutcome(CurrentFailures(after)))
    {
      if closed {
        return Err(SpyClosed(closeStackTrace));
      }
      executedSqls := executedSqls + ran;
      var verified := Verify(after);
      if callback.Err? {
        var suppressed := if verified.Fail? then [verified.error] else [];
        return Err(CallbackFailed(callback.error, suppressed));
      }
      if verified.Fail? {
        return Err(verified.error);
      }
      return Ok(callback.value);
    }
  }

  /** expectNever(ANY), then a callback that executes one statement: the
      error verify raises lists that statement. */
  method CallbackStatementsReported(before: Counters, after: Counters) returns (r: Outcome<SpyError>)
    requires after.global(ALL) == Wrap32(before.global(ALL) + 1)
    ensures r == Fail(WrongNumberOfQueriesError(Failure(WrongNumberOfQueries(ANY, 0, 0, 1, ["select 1"]), None)))
  {
    var s := new Spy(before);
    var _ := s.ExpectNever(ANY, ALL);
    r := s.Execute(Pass, ["select 1"], after);
    assert Counted(ANY, ALL, after, s.Baseline()) == 1 by {
      Wrap32Sum(before.global(ALL), 1);
    }
    assert s.expectations == [Never(ANY, ALL)];
    assert s.executedSqls == ["select 1"];
    assert [Never(ANY, ALL)][..0] == [];
    assert Validate(Never(ANY, ALL), after, s.Baseline(), ["select 1"]) == Some(WrongNumberOfQueries(ANY, 0, 0, 1, ["select 1"]));
    assert Failures([], after, s.Baseline(), ["select 1"]) == [];
    assert Failures([Never(ANY, ALL)], after, s.Baseline(), ["select 1"]) == [WrongNumberOfQueries(ANY, 0, 0, 1, ["select 1"])];
    assert s.CurrentFailures(after) == [WrongNumberOfQueries(ANY, 0, 0, 1, ["select 1"])];
  }

  /** A closed Spy refuses everything, a second close included, with the
      stack recorded by the first close. */
  method ClosedSpyRefusesEverything(s: Spy, now: Counters, stack: seq<StackFrame>, e: Expectation)
    requires !s.closed && |stack| > 0
    modifies s
    ensures s.closed && s.closeStackTrace == stack[1..]
  {
    var _ := s.Close(now, stack);
    var again := s.Close(now, stack);
    assert again == Fail(SpyClosed(stack[1..]));
    var count := s.ExecutedStatements(ANY, ALL, now);
    assert count == Err(SpyClosed(stack[1..]));
    var appended := s.Expect(e);
    assert appended == Fail(SpyClosed(stack[1..]));
    var verify := s.Verify(now);
    assert verify == Fail(SpyClosed(stack[1..]));
    var reset := s.Reset(now);
    assert reset == Fail(SpyClosed(stack[1..]));
  }
}
