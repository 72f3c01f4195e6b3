/** io.sniffy.trace.StackTraceExtractor: rendering a list of frames as text,
    and cutting a captured stack down to the call made through a proxy.
    Capturing the stack is left to the caller (the frames are a parameter),
    and so is reflection: `resolve(name)` stands for
    baseClass.isAssignableFrom(Class.forName(name)), None meaning that
    Class.forName threw ClassNotFoundException. */
module StackTraceExtractor {
  import opened Wrappers
  import opened JavaText
  import opened StackFrames

  // ---------------------------------------------------------------- printStackTrace

  /** Every frame's text followed by the separator, as the StringBuilder loop
      leaves it. */
  function Lines(frames: seq<StackFrame>, lineSeparator: string): string {
    if |frames| == 0 then ""
    else Lines(frames[..|frames| - 1], lineSeparator) + FrameText(frames[|frames| - 1]) + lineSeparator
  }

  /** printStackTrace: null and empty give "", otherwise the lines with only
      their last character cut off. */
  function Printed(frames: Option<seq<StackFrame>>, lineSeparator: string): string {
    match frames
    case None => ""
    case Some(fs) =>
      var text := Lines(fs, lineSeparator);
      if |text| > 0 then text[..|text| - 1] else ""
  }

  method PrintStackTrace(frames: Option<seq<StackFrame>>, lineSeparator: string) returns (r: string)
    ensures r == Printed(frames, lineSeparator)
  {
    if frames.None? {
      return "";
    }
    var fs := frames.value;
    var sb := "";
    for i := 0 to |fs|
      invariant sb == Lines(fs[..i], lineSeparator)
    {
      assert fs[..i + 1][..i] == fs[..i];
      sb := sb + FrameText(fs[i]) + lineSeparator;
    }
    assert fs[..|fs|] == fs;
    if |sb| > 0 {
      r := sb[..|sb| - 1];
    } else {
      r := "";
    }
  }

  /** The texts of the frames. */
  function Texts(frames: seq<StackFrame>): (t: seq<string>)
    ensures |t| == |frames| && forall i :: 0 <= i < |frames| ==> t[i] == FrameText(frames[i])
  {
    seq(|frames|, i requires 0 <= i < |frames| => FrameText(frames[i]))
  }

  /** The lines are the join followed by one more separator. */
  lemma {:induction false} LinesAreJoinPlusSeparator(frames: seq<StackFrame>, lineSeparator: string)
    requires |frames| > 0
    ensures Lines(frames, lineSeparator) == Join(Texts(frames), lineSeparator) + lineSeparator
  {
    var n := |frames|;
    if n > 1 {
      LinesAreJoinPlusSeparator(frames[..n - 1], lineSeparator);
      assert Texts(frames)[..n - 1] == Texts(frames[..n - 1]);
    } else {
      assert frames[..0] == [];
    }
  }

  /** Null and empty lists print as "". */
  lemma NothingPrintsEmpty(lineSeparator: string)
    ensures Printed(None, lineSeparator) == ""
    ensures Printed(Some([]), lineSeparator) == ""
  {
  }

  /** What printStackTrace returns for a non-empty list: the join, followed by
      all of the separator but its last character. */
  lemma PrintedShape(frames: seq<StackFrame>, lineSeparator: string)
    requires |frames| > 0 && |lineSeparator| > 0
    ensures Printed(Some(frames), lineSeparator) ==
      Join(Texts(frames), lineSeparator) + lineSeparator[..|lineSeparator| - 1]
  {
    LinesAreJoinPlusSeparator(frames, lineSeparator);
    DropLastOfAppend(Join(Texts(frames), lineSeparator), lineSeparator);
  }

  /** Cutting the last character off a + b cuts it off b. */
  lemma DropLastOfAppend(a: string, b: string)
    requires |b| > 0
    ensures (a + b)[..|a + b| - 1] == a + b[..|b| - 1]
  {
  }

  /** With a one-character separator ("\n"), printStackTrace is exactly a join. */
  lemma PrintedIsJoinForOneCharSeparator(frames: seq<StackFrame>, lineSeparator: string)
    requires |lineSeparator| == 1
    ensures Printed(Some(frames), lineSeparator) == Join(Texts(frames), lineSeparator)
  {
    if |frames| > 0 {
      PrintedShape(frames, lineSeparator);
      assert lineSeparator[..0] == "";
    }
  }

  /** With the two-character separator "\r\n" a stray "\r" is left behind. */
  lemma PrintedKeepsCarriageReturn(f: StackFrame)
    ensures Printed(Some([f]), "\r\n") == FrameText(f) + "\r"
  {
    PrintedShape([f], "\r\n");
    assert Texts([f]) == [FrameText(f)];
  }

  /** The join the loop evidently aims at: the whole trailing separator removed. */
  function PrintedJoined(frames: Option<seq<StackFrame>>, lineSeparator: string): string {
    match frames
    case None => ""
    case Some(fs) => Join(Texts(fs), lineSeparator)
  }

  /** PrintedJoined removes exactly the trailing separator, whatever its
      length, and agrees with printStackTrace for one-character separators. */
  lemma PrintedJoinedCorrect(frames: seq<StackFrame>, lineSeparator: string)
    requires |frames| > 0
    ensures PrintedJoined(Some(frames), lineSeparator) + lineSeparator == Lines(frames, lineSeparator)
    ensures |lineSeparator| == 1 ==> PrintedJoined(Some(frames), lineSeparator) == Printed(Some(frames), lineSeparator)
  {
    LinesAreJoinPlusSeparator(frames, lineSeparator);
    if |lineSeparator| == 1 {
      PrintedIsJoinForOneCharSeparator(frames, lineSeparator);
    }
  }

  // ---------------------------------------------------------------- getTraceForProxiedMethod

  /** The Method whose proxied call is looked for: its declaring class's
      canonical name and its name. */
  datatype MethodRef = MethodRef(declaringClass: string, name: string)

  datatype TraceError =
    | ClassNotFound(className: string)   // Class.forName failed
    | IllegalArgument                    // Arrays.copyOfRange with from > to

  /** createTraceElement: the method's class and name at the proxy frame's file and line. */
  function BaseFrame(m: MethodRef, proxy: StackFrame): StackFrame {
    StackFrame(m.declaringClass, m.name, proxy.fileName, proxy.lineNumber)
  }

  /** The search of the loop, from index `from` on: the index of the first
      frame whose class name contains "Proxy" and whose class is a subtype of
      the base class, None when there is none, or the failure of Class.forName. */
  function FirstProxy(frames: seq<StackFrame>, resolve: string -> Option<bool>, from: nat): Result<Option<nat>, TraceError>
    decreases |frames| - from
  {
    if from >= |frames| then Ok(None)
    else
      var name := frames[from].className;
      if !ContainsText(name, "Proxy") then FirstProxy(frames, resolve, from + 1)
      else match resolve(name)
        case None => Err(ClassNotFound(name))
        case Some(true) => Ok(Some(from))
        case Some(false) => FirstProxy(frames, resolve, from + 1)
  }

  /** getTraceForProxiedMethod. */
  function ProxiedTrace(frames: seq<StackFrame>, m: MethodRef, resolve: string -> Option<bool>): Result<seq<StackFrame>, TraceError> {
    match FirstProxy(frames, resolve, 0)
    case Err(e) => Err(e)
    case Ok(None) => Ok(frames)
    case Ok(Some(i)) =>
      if i + 1 > |frames| - 1 then Err(IllegalArgument)
      else Ok([BaseFrame(m, frames[i])] + frames[i + 1..|frames| - 1])
  }

  method TraceForProxiedMethod(frames: seq<StackFrame>, m: MethodRef, resolve: string -> Option<bool>)
    returns (r: Result<seq<StackFrame>, TraceError>)
    ensures r == ProxiedTrace(frames, m, resolve)
  {
    var startIndex := 0;
    var baseMethodTrace: Option<StackFrame> := None;
    var i := 0;
    while i < |frames|
      invariant 0 <= i <= |frames| && startIndex == 0
      invariant FirstProxy(frames, resolve, 0) == FirstProxy(frames, resolve, i)
    {
      var name := frames[i].className;
      if ContainsText(name, "Proxy") {
        var assignable := resolve(name);
        if assignable.None? {
          return Err(ClassNotFound(name));
        }
        if assignable.value {
          baseMethodTrace := Some(BaseFrame(m, frames[i]));
          startIndex := i + 1;
          break;
        }
      }
      i := i + 1;
    }
    if startIndex == 0 {
      return Ok(frames);
    }
    if startIndex > |frames| - 1 {
      return Err(IllegalArgument);
    }
    return Ok([baseMethodTrace.value] + frames[startIndex..|frames| - 1]);
  }

  /** A frame the search stops at: a proxy class assignable to the base class. */
  ghost predicate IsProxyOfBase(frames: seq<StackFrame>, resolve: string -> Option<bool>, i: nat)
    requires i < |frames|
  {
    Contains(frames[i].className, "Proxy") && resolve(frames[i].className) == Some(true)
  }

  /** A frame the search passes over without failing. */
  ghost predicate Skipped(frames: seq<StackFrame>, resolve: string -> Option<bool>, i: nat)
    requires i < |frames|
  {
    !Contains(frames[i].className, "Proxy") || resolve(frames[i].className) == Some(false)
  }

  /** What the search finds: the first proxy frame with every earlier frame
      skipped; no proxy frame, every frame skipped; or a failure at the first
      frame that neither is skipped nor a proxy. */
  lemma {:induction false} FirstProxyMeaning(frames: seq<StackFrame>, resolve: string -> Option<bool>, from: nat)
    requires from <= |frames|
    ensures match FirstProxy(frames, resolve, from)
      case Ok(None) => forall j :: from <= j < |frames| ==> Skipped(frames, resolve, j)
      case Ok(Some(i)) =>
        from <= i < |frames| && IsProxyOfBase(frames, resolve, i) &&
        forall j :: from <= j < i ==> Skipped(frames, resolve, j)
      case Err(e) =>
        exists i :: from <= i < |frames| && e == ClassNotFound(frames[i].className) &&
          Contains(frames[i].className, "Proxy") && resolve(frames[i].className).None? &&
          forall j :: from <= j < i ==> Skipped(frames, resolve, j)
    decreases |frames| - from
  {
    if from < |frames| {
      FirstProxyMeaning(frames, resolve, from + 1);
    }
  }

  /** No proxy frame: the captured stack is returned unchanged. */
  lemma NoProxyKeepsAll(frames: seq<StackFrame>, m: MethodRef, resolve: string -> Option<bool>)
    requires forall j :: 0 <= j < |frames| ==> Skipped(frames, resolve, j)
    ensures ProxiedTrace(frames, m, resolve) == Ok(frames)
  {
    NoProxyFrom(frames, resolve, 0);
  }

  lemma {:induction false} NoProxyFrom(frames: seq<StackFrame>, resolve: string -> Option<bool>, from: nat)
    requires forall j :: from <= j < |frames| ==> Skipped(frames, resolve, j)
    ensures FirstProxy(frames, resolve, from) == Ok(None)
    decreases |frames| - from
  {
    if from < |frames| {
      assert Skipped(frames, resolve, from);
      NoProxyFrom(frames, resolve, from + 1);
    }
  }

  /** The first proxy frame at i, not the last frame: the synthetic base frame
      followed by frames i+1 .. len-2 (the outermost frame is dropped). */
  lemma ProxyAt(frames: seq<StackFrame>, m: MethodRef, resolve: string -> Option<bool>, i: nat)
    requires i < |frames| && IsProxyOfBase(frames, resolve, i)
    requires forall j :: 0 <= j < i ==> Skipped(frames, resolve, j)
    ensures i + 1 < |frames| ==>
      ProxiedTrace(frames, m, resolve) == Ok([BaseFrame(m, frames[i])] + frames[i + 1..|frames| - 1])
    ensures i + 1 == |frames| ==> ProxiedTrace(frames, m, resolve) == Err(IllegalArgument)
  {
    ProxyFoundAt(frames, resolve, i, 0);
  }

  lemma {:induction false} ProxyFoundAt(frames: seq<StackFrame>, resolve: string -> Option<bool>, i: nat, from: nat)
    requires from <= i < |frames| && IsProxyOfBase(frames, resolve, i)
    requires forall j :: from <= j < i ==> Skipped(frames, resolve, j)
    ensures FirstProxy(frames, resolve, from) == Ok(Some(i))
    decreases i - from
  {
    if from < i {
      assert Skipped(frames, resolve, from);
      ProxyFoundAt(frames, resolve, i, from + 1);
    }
  }
}
