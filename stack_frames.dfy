/** java.lang.StackTraceElement as the core uses it: four fields and the
    text StackTraceElement.toString gives them. */
module StackFrames {
  import opened Wrappers
  import opened JavaText

  /** A stack frame. A line number of -2 marks a native method. */
  datatype StackFrame = StackFrame(className: string, methodName: string, fileName: Option<string>, lineNumber: int)

  /** StackTraceElement.toString (the Java 8 form, without module names). */
  function FrameText(f: StackFrame): (t: string)
    ensures StartsWith(t, f.className + "." + f.methodName + "(")
    ensures |t| > 0 && t[|t| - 1] == ')'
  {
    var head := f.className + "." + f.methodName;
    var source :=
      if f.lineNumber == -2 then "Native Method"
      else match f.fileName
        case Some(file) => if f.lineNumber >= 0 then file + ":" + Decimal(f.lineNumber) else file
        case None => "Unknown Source";
    assert (head + "(" + source + ")")[..|head + "("|] == head + "(";
    head + "(" + source + ")"
  }
}
