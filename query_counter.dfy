/** QueryCounter, the JUnit rule of the legacy JDBC sniffer: it reads the
    @Expectations, @Expectation and @NoQueriesAllowed annotations of a test
    method (or, when the method has none, of the nearest class in its
    hierarchy that has any), and decides whether the test runs unchanged,
    runs under a sniffer with a list of expectations, or is replaced by a
    statement that reports conflicting annotations. */
module QueryCounter {
  import opened Wrappers
  import opened JavaText
  import LegacySpy

  /** The @Expectation annotation's parameters. */
  datatype ExpectationAnnotation = ExpectationAnnotation(value: Int32, atMost: Int32, atLeast: Int32, threads: LegacySpy.Threads)

  /** The three annotations found on one method or class; None and false
      stand for an absent annotation. */
  datatype Annotations = Annotations(
    expectations: Option<seq<ExpectationAnnotation>>,
    expectation: Option<ExpectationAnnotation>,
    noQueriesAllowed: bool)
  {
    predicate Any() {
      expectations.Some? || expectation.Some? || noQueriesAllowed
    }
  }

  const NoAnnotations := Annotations(None, None, false)

  /** The @Expectation that @NoQueriesAllowed carries: no queries, from any
      thread, with atMost and atLeast at their default of -1. */
  const NoQueriesExpectation := ExpectationAnnotation(0, -1, -1, LegacySpy.Threads.ANY)

  datatype Throwable = IllegalArgumentException(message: string) | Thrown(id: nat)

  const ExpectationWithNoQueries := "Cannot specify @Expectation and @NotAllowedQueries on one test method"
  const ExpectationsWithNoQueries := "Cannot specify @Expectations and @NotAllowedQueries on one test method"
  const ValueWithBounds := "Cannot specify value parameter together with atLeast or atMost parameters"

  /** The statement apply returns. */
  datatype Decision =
    | Original
    | InvalidAnnotations(exception: Throwable)
    | Sniffer(expectationList: seq<ExpectationAnnotation>)

  /** The annotations the rule acts on: the method's own when it has any,
      otherwise those of the first class up the hierarchy that has any.
      `hierarchy` lists the test class and its superclasses below Object. */
  function Search(onMethod: Annotations, hierarchy: seq<Annotations>): Annotations
    decreases |hierarchy|
  {
    if onMethod.Any() || |hierarchy| == 0 then onMethod
    else Search(hierarchy[0], hierarchy[1..])
  }

  /** The annotations found come from the method when it carries any;
      otherwise from the first class in the hierarchy that carries any, or
      there are none at all. */
  lemma {:induction false} SearchMeaning(onMethod: Annotations, hierarchy: seq<Annotations>)
    ensures onMethod.Any() ==> Search(onMethod, hierarchy) == onMethod
    ensures !onMethod.Any() && (forall i :: 0 <= i < |hierarchy| ==> !hierarchy[i].Any()) ==>
              !Search(onMethod, hierarchy).Any()
    ensures !onMethod.Any() && Search(onMethod, hierarchy).Any() ==>
              exists i :: 0 <= i < |hierarchy| && hierarchy[i] == Search(onMethod, hierarchy)
                          && forall j :: 0 <= j < i ==> !hierarchy[j].Any()
    ensures !onMethod.Any() && (exists i :: 0 <= i < |hierarchy| && hierarchy[i].Any()) ==>
              Search(onMethod, hierarchy).Any()
    decreases |hierarchy|
  {
    if !onMethod.Any() && |hierarchy| > 0 {
      SearchMeaning(hierarchy[0], hierarchy[1..]);
      var r := Search(onMethod, hierarchy);
      if r.Any() {
        if hierarchy[0].Any() {
          assert hierarchy[0] == r;
        } else {
          var i :| 0 <= i < |hierarchy[1..]| && hierarchy[1..][i] == r
                   && forall j :: 0 <= j < i ==> !hierarchy[1..][j].Any();
          assert hierarchy[i + 1] == r;
          assert forall j :: 0 <= j < i + 1 ==> !hierarchy[j].Any() by {
            forall j | 0 <= j < i + 1
              ensures !hierarchy[j].Any()
            {
              if j > 0 {
                assert hierarchy[j] == hierarchy[1..][j - 1];
              }
            }
          }
        }
      }
      if exists i :: 0 <= i < |hierarchy| && hierarchy[i].Any() {
        var i :| 0 <= i < |hierarchy| && hierarchy[i].Any();
        if i > 0 {
          assert hierarchy[1..][i - 1].Any();
        }
      }
      if forall i :: 0 <= i < |hierarchy| ==> !hierarchy[i].Any() {
        assert forall i :: 0 <= i < |hierarchy[1..]| ==> !hierarchy[1..][i].Any() by {
          forall i | 0 <= i < |hierarchy[1..]|
            ensures !hierarchy[1..][i].Any()
          {
            assert hierarchy[1..][i] == hierarchy[i + 1];
          }
        }
      }
    }
  }

  /** An expectation that gives both an exact value and a bound. */
  predicate Conflicting(e: ExpectationAnnotation) {
    e.value != -1 && (e.atMost != -1 || e.atLeast != -1)
  }

  /** The single @Expectation, if present, followed by the @Expectations
      values in order. */
  function ExpectationList(a: Annotations): (list: seq<ExpectationAnnotation>)
    ensures |list| == (if a.expectation.Some? then 1 else 0) + (if a.expectations.Some? then |a.expectations.value| else 0)
    ensures a.expectation.Some? ==> list[0] == a.expectation.value
    ensures a.expectations.Some? ==> list[|list| - |a.expectations.value|..] == a.expectations.value
  {
    (if a.expectation.Some? then [a.expectation.value] else [])
    + (if a.expectations.Some? then a.expectations.value else [])
  }

  /** The decision table of apply, on the annotations found. */
  function Decide(a: Annotations): Decision {
    if a.expectation.Some? && a.noQueriesAllowed then InvalidAnnotations(IllegalArgumentException(ExpectationWithNoQueries))
    else if a.expectations.Some? && a.noQueriesAllowed then InvalidAnnotations(IllegalArgumentException(ExpectationsWithNoQueries))
    else if a.expectations.Some? || a.expectation.Some? then
      if exists i :: 0 <= i < |ExpectationList(a)| && Conflicting(ExpectationList(a)[i])
      then InvalidAnnotations(IllegalArgumentException(ValueWithBounds))
      else Sniffer(ExpectationList(a))
    else if a.noQueriesAllowed then Sniffer([NoQueriesExpectation])
    else Original
  }

  /** What the table means: the test runs unchanged exactly when there are
      no annotations; @NoQueriesAllowed next to either other annotation is
      always invalid; a sniffer never receives a conflicting expectation,
      and its list is non-empty when there is an @Expectation and is the
      @Expectations values when there is only that. */
  lemma DecideMeaning(a: Annotations)
    ensures Decide(a) == Original <==> !a.Any()
    ensures a.noQueriesAllowed && (a.expectation.Some? || a.expectations.Some?) ==> Decide(a).InvalidAnnotations?
    ensures Decide(a).Sniffer? ==> forall e :: e in Decide(a).expectationList ==> !Conflicting(e)
    ensures Decide(a).Sniffer? && a.expectation.Some? ==> |Decide(a).expectationList| > 0
    ensures Decide(a).Sniffer? && !a.expectation.Some? && a.expectations.Some? ==>
              Decide(a).expectationList == a.expectations.value
    ensures a.noQueriesAllowed && !a.expectation.Some? && !a.expectations.Some? ==>
              Decide(a) == Sniffer([NoQueriesExpectation])
  {
    if Decide(a).Sniffer? && a.expectations.Some? && !a.expectation.Some? {
      assert [] + a.expectations.value == a.expectations.value;
    }
  }

  /** Any expectation with an exact value and a bound makes the annotations
      invalid, wherever it sits in the list. */
  lemma ConflictInvalidates(a: Annotations, i: nat)
    requires i < |ExpectationList(a)| && Conflicting(ExpectationList(a)[i])
    ensures Decide(a).InvalidAnnotations?
  {
  }

  /** The first loop of apply: up the class hierarchy while nothing has
      been found. */
  method SearchHierarchy(onMethod: Annotations, hierarchy: seq<Annotations>)
    returns (expectations: Option<seq<ExpectationAnnotation>>, expectation: Option<ExpectationAnnotation>, notAllowedQueries: bool)
    ensures Annotations(expectations, expectation, notAllowedQueries) == Search(onMethod, hierarchy)
  {
    expectations := onMethod.expectations;
    expectation := onMethod.expectation;
    notAllowedQueries := onMethod.noQueriesAllowed;
    var k := 0;
    while expectations.None? && expectation.None? && !notAllowedQueries && k < |hierarchy|
      invariant 0 <= k <= |hierarchy|
      invariant Search(Annotations(expectations, expectation, notAllowedQueries), hierarchy[k..]) == Search(onMethod, hierarchy)
      decreases |hierarchy| - k
    {
      assert hierarchy[k..][1..] == hierarchy[k + 1..];
      expectations := hierarchy[k].expectations;
      expectation := hierarchy[k].expectation;
      notAllowedQueries := hierarchy[k].noQueriesAllowed;
      k := k + 1;
    }
  }

  /** The second loop of apply: whether some expectation gives both an
      exact value and a bound, stopping at the first that does. */
  method AnyConflicting(expectationList: seq<ExpectationAnnotation>) returns (conflict: bool)
    ensures conflict <==> exists i :: 0 <= i < |expectationList| && Conflicting(expectationList[i])
  {
    for i := 0 to |expectationList|
      invariant forall j :: 0 <= j < i ==> !Conflicting(expectationList[j])
    {
      if expectationList[i].value != -1 {
        if expectationList[i].atMost != -1 || expectationList[i].atLeast != -1 {
          return true;
        }
      }
    }
    return false;
  }

  /** apply: the search up the class hierarchy, then the decision, with the
      loop over the expectation list returning on the first conflict. */
  method Apply(onMethod: Annotations, hierarchy: seq<Annotations>) returns (d: Decision)
    ensures d == Decide(Search(onMethod, hierarchy))
  {
    var expectations, expectation, notAllowedQueries := SearchHierarchy(onMethod, hierarchy);
    ghost var found := Annotations(expectations, expectation, notAllowedQueries);

    if expectation.Some? && notAllowedQueries {
      return InvalidAnnotations(IllegalArgumentException(ExpectationWithNoQueries));
    } else if expectations.Some? && notAllowedQueries {
      return InvalidAnnotations(IllegalArgumentException(ExpectationsWithNoQueries));
    } else if expectations.Some? || expectation.Some? {
      var expectationList: seq<ExpectationAnnotation> := [];
      if expectation.Some? {
        expectationList := expectationList + [expectation.value];
      }
      if expectations.Some? {
        expectationList := expectationList + expectations.value;
      }
      assert expectationList == ExpectationList(found);
      var conflict := AnyConflicting(expectationList);
      if conflict {
        return InvalidAnnotations(IllegalArgumentException(ValueWithBounds));
      }
      return Sniffer(expectationList);
    } else if notAllowedQueries {
      return Sniffer([NoQueriesExpectation]);
    } else {
      return Original;
    }
  }

  /** InvalidAnnotationsStatement.evaluate: the delegate runs, and then the
      configured exception is thrown from the finally block, replacing
      whatever the delegate threw. */
  function EvaluateInvalid(delegateOutcome: Outcome<Throwable>, exception: Throwable): (r: Outcome<Throwable>)
    ensures r == Fail(exception)
  {
    match delegateOutcome
    case Pass => Fail(exception)
    case Fail(_) => Fail(exception)
  }

  /** A test class annotated with @NoQueriesAllowed, extended by a test
      class without annotations, with a test method carrying @Expectation:
      the method's annotation wins and the class is not consulted. */
  method MethodAnnotationWins(e: ExpectationAnnotation) returns (d: Decision)
    requires !Conflicting(e)
    ensures d == Sniffer([e])
  {
    var onMethod := Annotations(None, Some(e), false);
    assert ExpectationList(onMethod) == [e] + [] == [e];
    d := Apply(onMethod, [NoAnnotations, Annotations(None, None, true)]);
  }

  /** The same classes for a method without annotations: the superclass's
      @NoQueriesAllowed applies. */
  method InheritedNoQueries() returns (d: Decision)
    ensures d == Sniffer([NoQueriesExpectation])
  {
    var h := [NoAnnotations, Annotations(None, None, true)];
    assert h[1..] == [Annotations(None, None, true)] && h[1..][1..] == [];
    assert Search(h[1..][0], h[1..][1..]) == Annotations(None, None, true);
    assert Search(h[0], h[1..]) == Annotations(None, None, true);
    assert Search(NoAnnotations, h) == Annotations(None, None, true);
    d := Apply(NoAnnotations, h);
  }
}
