/** io.sniffy.util.Range: turns the value/min/max of a @Count or an
    @Expectation annotation into one range, rejecting ambiguous combinations.
    -1 is the "not set" sentinel throughout. */
module Range {
  import opened Wrappers
  import opened JavaText

  const Unset: Int32 := -1

  predicate IsSet(x: Int32) { x != Unset }

  /** The attributes of a @Count annotation. */
  datatype Count = Count(value: Int32, min: Int32, max: Int32)

  /** The attributes of an @Expectation annotation that Range reads. */
  datatype Expectation = Expectation(value: Int32, atLeast: Int32, atMost: Int32, count: Count)

  datatype Range = Range(value: Int32, min: Int32, max: Int32)

  /** An IllegalArgumentException and its message. */
  datatype IllegalArgument = IllegalArgument(message: string)

  const ValueWithAtLeastAtMost := "Ambiguous configuration - parameter value used together with atLeast/atMost"
  const ValueWithCount := "Ambiguous configuration - parameter value used together with count"
  const MinWithCount := "Ambiguous configuration - parameter min used together with count"
  const MaxWithCount := "Ambiguous configuration - parameter max used together with count"
  const ValueWithMinMax := "Ambiguous configuration - parameter value used together with min/max"

  /** An exact value together with either bound. */
  predicate Ambiguous(value: Int32, min: Int32, max: Int32) {
    IsSet(value) && (IsSet(min) || IsSet(max))
  }

  /** A Range never carries an exact value together with a bound. */
  predicate Unambiguous(r: Range) {
    !Ambiguous(r.value, r.min, r.max)
  }

  /** Range.parse(Count). */
  function ParseCount(c: Count): (r: Result<Range, IllegalArgument>)
    ensures r.Err? <==> Ambiguous(c.value, c.min, c.max)
    ensures r.Err? ==> r.error.message == ValueWithAtLeastAtMost
    ensures r.Ok? ==> r.value == Range(c.value, c.min, c.max) && Unambiguous(r.value)
  {
    if Ambiguous(c.value, c.min, c.max) then Err(IllegalArgument(ValueWithAtLeastAtMost))
    else Ok(Range(c.value, c.min, c.max))
  }

  /** One adoption step of parse(Expectation): the count's field replaces the
      expectation's field when set, and setting both is an error. */
  function Adopt(own: Int32, fromCount: Int32, message: string): Result<Int32, IllegalArgument> {
    if IsSet(fromCount) then
      if IsSet(own) then Err(IllegalArgument(message)) else Ok(fromCount)
    else Ok(own)
  }

  /** Range.parse(Expectation), check by check in the order the source makes them. */
  function ParseExpectation(e: Expectation): Result<Range, IllegalArgument> {
    if Ambiguous(e.value, e.atLeast, e.atMost) then Err(IllegalArgument(ValueWithAtLeastAtMost))
    else
      match Adopt(e.value, e.count.value, ValueWithCount)
      case Err(x) => Err(x)
      case Ok(value) =>
        match Adopt(e.atLeast, e.count.min, MinWithCount)
        case Err(x) => Err(x)
        case Ok(min) =>
          match Adopt(e.atMost, e.count.max, MaxWithCount)
          case Err(x) => Err(x)
          case Ok(max) =>
            if Ambiguous(value, min, max) then Err(IllegalArgument(ValueWithMinMax))
            else Ok(Range(value, min, max))
  }

  /** Whichever of the two fields is set, the expectation's own first. */
  function Pick(own: Int32, fromCount: Int32): Int32 {
    if IsSet(own) then own else fromCount
  }

  /** The declarative reading of parse(Expectation): no attribute is given
      both on the expectation and on its count, and the merged attributes do
      not combine an exact value with a bound. */
  predicate Acceptable(e: Expectation) {
    !(IsSet(e.value) && IsSet(e.count.value)) &&
    !(IsSet(e.atLeast) && IsSet(e.count.min)) &&
    !(IsSet(e.atMost) && IsSet(e.count.max)) &&
    !Ambiguous(Pick(e.value, e.count.value), Pick(e.atLeast, e.count.min), Pick(e.atMost, e.count.max))
  }

  /** parse(Expectation) succeeds exactly on acceptable annotations, and then
      each field is whichever source field is set (or -1 when neither is); the
      result is never ambiguous. */
  lemma ParseExpectationCorrect(e: Expectation)
    ensures ParseExpectation(e).Ok? <==> Acceptable(e)
    ensures ParseExpectation(e).Ok? ==>
      ParseExpectation(e).value ==
        Range(Pick(e.value, e.count.value), Pick(e.atLeast, e.count.min), Pick(e.atMost, e.count.max))
    ensures ParseExpectation(e).Ok? ==> Unambiguous(ParseExpectation(e).value)
  {
  }

  /** The expectation's own value together with atLeast or atMost is rejected,
      whatever its count says, with the first message. */
  lemma OwnAmbiguityRejected(e: Expectation)
    requires Ambiguous(e.value, e.atLeast, e.atMost)
    ensures ParseExpectation(e) == Err(IllegalArgument(ValueWithAtLeastAtMost))
  {
  }

  /** The first check never changes whether parsing succeeds, only which
      message is reported: without it, the later checks reject the same
      annotations. */
  lemma OwnAmbiguityAlsoCaughtLater(e: Expectation)
    requires Ambiguous(e.value, e.atLeast, e.atMost)
    ensures !Acceptable(e)
  {
  }

  /** Setting an attribute on both the expectation and its count is rejected
      with the message naming that attribute (the earlier checks passing). */
  lemma BothSetRejected(e: Expectation)
    requires !Ambiguous(e.value, e.atLeast, e.atMost)
    ensures IsSet(e.value) && IsSet(e.count.value) ==>
      ParseExpectation(e) == Err(IllegalArgument(ValueWithCount))
    ensures !(IsSet(e.value) && IsSet(e.count.value)) && IsSet(e.atLeast) && IsSet(e.count.min) ==>
      ParseExpectation(e) == Err(IllegalArgument(MinWithCount))
  {
  }

  /** @Expectation(atLeast = 2, atMost = 5, value = 3): rejected. */
  lemma ValueWithAtLeastRejected()
    ensures ParseExpectation(Expectation(3, 2, 5, Count(Unset, Unset, Unset))) == Err(IllegalArgument(ValueWithAtLeastAtMost))
  {
  }

  /** @Expectation(count = @Count(2)): the count's value is adopted. */
  lemma CountValueAdopted()
    ensures ParseExpectation(Expectation(Unset, Unset, Unset, Count(2, Unset, Unset))) == Ok(Range(2, Unset, Unset))
  {
  }

  /** @Expectation(value = 1, count = @Count(min = 2)): each part alone is fine,
      the merge is not. */
  lemma MergedAmbiguityRejected()
    ensures ParseExpectation(Expectation(1, Unset, Unset, Count(Unset, 2, Unset))) ==
      Err(IllegalArgument(ValueWithMinMax))
  {
  }
}
