/** ExceptionUtil.generateMessage of the legacy JDBC sniffer: a message
    followed by one "\tat <frame>" line per stack frame, the way a stack trace
    prints. The platform line separator is a parameter. */
module ExceptionUtil {
  import opened JavaText
  import opened StackFrames

  /** What one frame appends to the message. */
  function FrameLine(lineSeparator: string, f: StackFrame): string {
    lineSeparator + "\tat " + FrameText(f)
  }

  /** The message after appending `frames`, in order, to `s`. */
  function Message(s: string, frames: seq<StackFrame>, lineSeparator: string): string {
    if |frames| == 0 then s
    else Message(s, frames[..|frames| - 1], lineSeparator) + FrameLine(lineSeparator, frames[|frames| - 1])
  }

  /** generateMessage: the StringBuilder loop. */
  method GenerateMessage(s: string, closeStackTrace: seq<StackFrame>, lineSeparator: string) returns (r: string)
    ensures r == Message(s, closeStackTrace, lineSeparator)
  {
    var sb := s;
    for i := 0 to |closeStackTrace|
      invariant sb == Message(s, closeStackTrace[..i], lineSeparator)
    {
      assert closeStackTrace[..i + 1][..i] == closeStackTrace[..i];
      sb := sb + FrameLine(lineSeparator, closeStackTrace[i]);
    }
    assert closeStackTrace[..|closeStackTrace|] == closeStackTrace;
    return sb;
  }

  /** The total length of the frames' texts. */
  function TextLength(frames: seq<StackFrame>): nat {
    if |frames| == 0 then 0 else TextLength(frames[..|frames| - 1]) + |FrameText(frames[|frames| - 1])|
  }

  /** With no frames the message is s itself. */
  lemma NoFramesNoChange(s: string, lineSeparator: string)
    ensures Message(s, [], lineSeparator) == s
  {
  }

  /** Appending frames only ever extends the message: what was there stays a
      prefix, and s is always the start. */
  lemma {:induction false} MessageExtends(s: string, frames: seq<StackFrame>, lineSeparator: string, j: nat)
    requires j <= |frames|
    ensures StartsWith(Message(s, frames, lineSeparator), Message(s, frames[..j], lineSeparator))
    ensures StartsWith(Message(s, frames, lineSeparator), s)
  {
    if j < |frames| {
      var n := |frames|;
      assert frames[..n - 1][..j] == frames[..j];
      MessageExtends(s, frames[..n - 1], lineSeparator, j);
      var m := Message(s, frames[..n - 1], lineSeparator);
      assert Message(s, frames, lineSeparator)[..|m|] == m;
    } else {
      assert frames[..j] == frames;
    }
    if |frames| > 0 {
      MessageExtends(s, frames[..|frames| - 1], lineSeparator, 0);
      var m := Message(s, frames[..|frames| - 1], lineSeparator);
      assert Message(s, frames, lineSeparator)[..|m|] == m;
    }
  }

  /** Frame k's line sits right after the lines of frames 0..k-1: the lines
      appear in array order. */
  lemma FrameLineInPlace(s: string, frames: seq<StackFrame>, lineSeparator: string, k: nat)
    requires k < |frames|
    ensures var lo := |Message(s, frames[..k], lineSeparator)|;
      var hi := |Message(s, frames[..k + 1], lineSeparator)|;
      lo <= hi <= |Message(s, frames, lineSeparator)| &&
      Message(s, frames, lineSeparator)[lo..hi] == FrameLine(lineSeparator, frames[k])
  {
    MessageExtends(s, frames, lineSeparator, k + 1);
    assert frames[..k + 1][..k] == frames[..k];
  }

  lemma MulSucc(n: nat, w: nat)
    ensures (n + 1) * w == n * w + w
  {
  }

  /** |message| = |s| + sum over frames of (|separator| + 4 + |frame text|). */
  lemma {:induction false} MessageLength(s: string, frames: seq<StackFrame>, lineSeparator: string)
    ensures |Message(s, frames, lineSeparator)| == |s| + |frames| * (|lineSeparator| + 4) + TextLength(frames)
  {
    if |frames| > 0 {
      var init, last := frames[..|frames| - 1], frames[|frames| - 1];
      MessageLength(s, init, lineSeparator);
      assert |FrameLine(lineSeparator, last)| == |lineSeparator| + 4 + |FrameText(last)|;
      MulSucc(|init|, |lineSeparator| + 4);
    }
  }
}
