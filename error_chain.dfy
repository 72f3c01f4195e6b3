/** The cause chain both Spy versions build from failed expectations: the
    first failure is the error reported, the second becomes its cause (by
    Throwable.initCause), the third the cause of the second, and so on. */
module ErrorChain {
  import opened Wrappers

  /** A throwable and the chain of causes below it. */
  datatype Chain<E> = Failure(error: E, cause: Option<Chain<E>>)

  /** The chain the loop leaves behind for failures reported in this order;
      None when nothing failed. */
  function ChainOf<E>(failures: seq<E>): (c: Option<Chain<E>>)
    ensures c.None? <==> |failures| == 0
    ensures c.Some? ==> c.value.error == failures[0]
  {
    if |failures| == 0 then None else Some(Failure(failures[0], ChainOf(failures[1..])))
  }

  /** Walking getCause from the reported error: every throwable of the chain, outermost first. */
  function Throwables<E>(c: Chain<E>): (s: seq<E>)
    ensures |s| > 0 && s[0] == c.error
  {
    match c.cause
    case None => [c.error]
    case Some(next) => [c.error] + Throwables(next)
  }

  /** The chain holds exactly the failures, in the order they were reported. */
  lemma {:induction false} ChainKeepsOrder<E>(failures: seq<E>)
    requires |failures| > 0
    ensures Throwables(ChainOf(failures).value) == failures
  {
    if |failures| > 1 {
      ChainKeepsOrder(failures[1..]);
    }
  }

  /** The i-th failure is reached from the reported one by i getCause steps. */
  function CauseAt<E>(c: Chain<E>, i: nat): Option<E> {
    if i == 0 then Some(c.error)
    else match c.cause
      case None => None
      case Some(next) => CauseAt(next, i - 1)
  }

  lemma {:induction false} CauseAtIsFailure<E>(failures: seq<E>, i: nat)
    requires i < |failures|
    ensures CauseAt(ChainOf(failures).value, i) == Some(failures[i])
  {
    if i > 0 {
      CauseAtIsFailure(failures[1..], i - 1);
    }
  }

  /** The errors of the elements that fail `check`, in order. */
  function FailuresOf<X, E>(xs: seq<X>, check: X -> Option<E>): seq<E> {
    if |xs| == 0 then []
    else
      var rest := FailuresOf(xs[..|xs| - 1], check);
      match check(xs[|xs| - 1])
      case None => rest
      case Some(e) => rest + [e]
  }

  /** Nothing fails exactly when every element passes; otherwise the first
      error is that of the first element that fails. */
  lemma {:induction false} FailuresOfMeaning<X, E>(xs: seq<X>, check: X -> Option<E>)
    ensures |FailuresOf(xs, check)| == 0 <==> forall i :: 0 <= i < |xs| ==> check(xs[i]).None?
    ensures |FailuresOf(xs, check)| > 0 ==>
      exists i :: 0 <= i < |xs| && check(xs[i]) == Some(FailuresOf(xs, check)[0]) &&
        forall j :: 0 <= j < i ==> check(xs[j]).None?
  {
    if |xs| > 0 {
      var init := xs[..|xs| - 1];
      FailuresOfMeaning(init, check);
      assert forall i :: 0 <= i < |init| ==> init[i] == xs[i];
      if |FailuresOf(init, check)| == 0 && check(xs[|xs| - 1]).Some? {
        assert check(xs[|xs| - 1]) == Some(FailuresOf(xs, check)[0]);
      }
    }
  }
}
