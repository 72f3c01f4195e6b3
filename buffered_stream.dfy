/** BufferedServletOutputStream: the servlet output stream that holds the
    response body in a buffer so the filter can still change the response
    before it is committed. Writes go to the buffer; when a write would take
    the buffer past 200 KiB, the buffer is flushed to the target first.
    The first flush or close tells the response wrapper that the response is
    about to be committed, and close tells it once more before closing.

    The response wrapper and the target stream are calls into code outside
    the model; they are recorded, in order, as the stream's `events`. Each
    notice hands the wrapper's listener the live buffer, which the listener
    may rewrite (SnifferFilter injects its header before the commit and its
    footer before the close); what the listener does to the buffer is the
    stream's `listener`, and the target receives the rewritten bytes. */
module BufferedStream {
  import opened Wrappers
  import opened JavaText

  /** A call the stream makes on the response wrapper or on the target. */
  datatype Event =
    | NotifyBeforeCommit(contents: seq<Byte>)
    | NotifyBeforeClose(contents: seq<Byte>)
    | TargetWrite(bytes: seq<Byte>)
    | TargetFlush
    | SetCommitted
    | TargetClose

  /** What the response wrapper's listener makes of the buffer it is handed
      with each notice. */
  datatype Listener = Listener(beforeCommit: seq<Byte> -> seq<Byte>, beforeClose: seq<Byte> -> seq<Byte>)

  /** A listener that leaves the buffer as it is. */
  const Unchanged := Listener(c => c, c => c)

  datatype StreamError =
    | IOException(message: string)
    | IllegalStateException(message: string)
    | IndexOutOfBoundsException

  const MaximumBufferSize: Int32 := 200 * 1024

  const ClosedMessage := "Output Stream is closed"
  const FlushedMessage := "Output Stream was already sent to client"

  /** The number of commit notices in a run of events. */
  function Notices(events: seq<Event>): nat {
    if |events| == 0 then 0
    else Notices(events[..|events| - 1]) + (if events[|events| - 1].NotifyBeforeCommit? then 1 else 0)
  }

  /** The number of times the target was closed in a run of events. */
  function TargetCloses(events: seq<Event>): nat {
    if |events| == 0 then 0
    else TargetCloses(events[..|events| - 1]) + (if events[|events| - 1].TargetClose? then 1 else 0)
  }

  lemma {:induction false} CountsAppend(a: seq<Event>, b: seq<Event>)
    ensures Notices(a + b) == Notices(a) + Notices(b)
    ensures TargetCloses(a + b) == TargetCloses(a) + TargetCloses(b)
  {
    if |b| == 0 {
      assert a + b == a;
    } else {
      assert (a + b)[..|a + b| - 1] == a + b[..|b| - 1];
      CountsAppend(a, b[..|b| - 1]);
    }
  }

  lemma CountsSingle(e: Event)
    ensures Notices([e]) == (if e.NotifyBeforeCommit? then 1 else 0)
    ensures TargetCloses([e]) == (if e.TargetClose? then 1 else 0)
  {
    assert [e][..0] == [];
  }

  /** (byte) b: the low eight bits of an int, as a signed byte. */
  function ByteOf(b: Int32): (r: Byte)
    ensures (r - b) % 256 == 0
  {
    (b + 128) % 256 - 128
  }

  /** flushIfOverflow's test, in int arithmetic as the source writes it. */
  predicate Overflows(size: int, newBytes: Int32) {
    Wrap32(size + newBytes) > MaximumBufferSize
  }

  /** The buffer after the commit notice, when one is sent. */
  function Committed(notify: bool, contents: seq<Byte>, l: Listener): seq<Byte> {
    if notify then l.beforeCommit(contents) else contents
  }

  /** The calls one flush makes: the commit notice when the stream has not
      been flushed yet, then writing what the buffer then holds to the
      target, flushing the target and marking the response committed. */
  function FlushEvents(notify: bool, contents: seq<Byte>, l: Listener): (r: seq<Event>)
    ensures Notices(r) == (if notify then 1 else 0) && TargetCloses(r) == 0
    ensures notify ==> r == [NotifyBeforeCommit(contents), TargetWrite(l.beforeCommit(contents)), TargetFlush, SetCommitted]
    ensures !notify ==> r == [TargetWrite(contents), TargetFlush, SetCommitted]
  {
    var commit: seq<Event> := if notify then [NotifyBeforeCommit(contents)] else [];
    var written := Committed(notify, contents, l);
    CountsSingle(NotifyBeforeCommit(contents));
    CountsSingle(TargetWrite(written));
    CountsSingle(TargetFlush);
    CountsSingle(SetCommitted);
    CountsAppend(commit, [TargetWrite(written)]);
    CountsAppend(commit + [TargetWrite(written)], [TargetFlush]);
    CountsAppend(commit + [TargetWrite(written)] + [TargetFlush], [SetCommitted]);
    commit + [TargetWrite(written)] + [TargetFlush] + [SetCommitted]
  }

  /** The notices a first close sends before it flushes: the commit notice
      when the stream has not been flushed, then the close notice with
      whatever the commit listener left in the buffer. */
  function CloseNotices(notify: bool, contents: seq<Byte>, l: Listener): (r: seq<Event>)
    ensures Notices(r) == (if notify then 1 else 0) && TargetCloses(r) == 0
    ensures notify ==> r == [NotifyBeforeCommit(contents), NotifyBeforeClose(l.beforeCommit(contents))]
    ensures !notify ==> r == [NotifyBeforeClose(contents)]
  {
    var commit: seq<Event> := if notify then [NotifyBeforeCommit(contents)] else [];
    var closing := Committed(notify, contents, l);
    CountsSingle(NotifyBeforeCommit(contents));
    CountsSingle(NotifyBeforeClose(closing));
    CountsAppend(commit, [NotifyBeforeClose(closing)]);
    commit + [NotifyBeforeClose(closing)]
  }

  /** The buffer a first close flushes: the close listener's rewrite of what
      the commit listener, if notified, left. */
  function Closing(notify: bool, contents: seq<Byte>, l: Listener): seq<Byte> {
    l.beforeClose(Committed(notify, contents, l))
  }

  class BufferedServletOutputStream {
    /** The buffer's contents. */
    var buffer: seq<Byte>
    /** What getBufferSize reports. */
    var capacity: int
    var closed: bool
    var flushed: bool
    /** The target has already been closed. */
    var targetClosed: bool
    /** Every call made on the response wrapper and the target so far. */
    var events: seq<Event>
    /** What the response wrapper's listener does to the buffer. */
    const listener: Listener

    /** The commit notice has been sent exactly when the stream is flushed,
        and at most once; the target is closed exactly when the stream is,
        at most once; a closed stream holds nothing. */
    ghost predicate Valid()
      reads this
    {
      Notices(events) <= 1 && (flushed <==> Notices(events) == 1)
      && TargetCloses(events) <= 1 && (targetClosed <==> TargetCloses(events) == 1)
      && (closed <==> targetClosed)
      && (closed ==> flushed && buffer == [])
    }

    /** A new stream for a response wrapper over a fresh Buffer of the given
        capacity. */
    constructor (initialCapacity: int, wrapperListener: Listener)
      ensures Valid()
      ensures buffer == [] && capacity == initialCapacity && events == []
      ensures !closed && !flushed && !targetClosed && listener == wrapperListener
    {
      listener := wrapperListener;
      buffer := [];
      capacity := initialCapacity;
      closed := false;
      flushed := false;
      targetClosed := false;
      events := [];
    }

    /** flush: the commit notice on the first flush only, which lets the
        listener rewrite the buffer; then the buffer goes to the target and
        is emptied. */
    method Flush()
      requires Valid()
      modifies this
      ensures Valid()
      ensures events == old(events) + FlushEvents(!old(flushed), old(buffer), listener)
      ensures buffer == [] && flushed
      ensures closed == old(closed) && targetClosed == old(targetClosed) && capacity == old(capacity)
    {
      var calls: seq<Event> := [];
      if !flushed {
        calls := [NotifyBeforeCommit(buffer)];
        buffer := listener.beforeCommit(buffer);
      }
      calls := calls + [TargetWrite(buffer)] + [TargetFlush];
      buffer := [];
      calls := calls + [SetCommitted];
      ghost var before := events;
      events := events + calls;
      flushed := true;
      CountsAppend(before, FlushEvents(!old(flushed), old(buffer), listener));
    }

    /** close: nothing when already closed; otherwise the commit notice if
        the stream was not flushed, the close notice, a flush, and closing
        the target once. */
    method Close()
      requires Valid()
      modifies this
      ensures Valid()
      ensures old(closed) ==> events == old(events) && buffer == old(buffer) && flushed == old(flushed)
      ensures !old(closed) ==> events == old(events) + CloseNotices(!old(flushed), old(buffer), listener)
                                         + FlushEvents(false, Closing(!old(flushed), old(buffer), listener), listener)
                                         + [TargetClose]
      ensures closed && targetClosed && flushed && buffer == [] && capacity == old(capacity)
    {
      if !closed {
        ghost var before := events;
        ghost var contents := buffer;
        ghost var notify := !flushed;
        var notices: seq<Event> := [];
        if !flushed {
          flushed := true;
          notices := [NotifyBeforeCommit(buffer)];
          buffer := listener.beforeCommit(buffer);
        }
        notices := notices + [NotifyBeforeClose(buffer)];
        buffer := listener.beforeClose(buffer);
        events := events + notices;
        assert notices == CloseNotices(notify, contents, listener);
        CountsAppend(before, notices);
        assert events == before + notices && buffer == Closing(notify, contents, listener) && flushed;
        Flush();
        ghost var flushedEvents := events;
        assert flushedEvents == before + notices + FlushEvents(false, Closing(notify, contents, listener), listener);
        if !targetClosed {
          events := events + [TargetClose];
          targetClosed := true;
        }
        CountsSingle(TargetClose);
        CountsAppend(flushedEvents, [TargetClose]);
        closed := true;
      }
    }

    /** reset: empties the buffer, unless the stream has been flushed. */
    method Reset() returns (r: Outcome<StreamError>)
      requires Valid()
      modifies this
      ensures Valid()
      ensures r == (if old(flushed) then Fail(IllegalStateException(FlushedMessage)) else Pass)
      ensures buffer == (if old(flushed) then old(buffer) else [])
      ensures events == old(events) && flushed == old(flushed) && closed == old(closed)
      ensures targetClosed == old(targetClosed) && capacity == old(capacity)
    {
      r := CheckNotFlushed();
      if r.Fail? {
        return;
      }
      buffer := [];
    }

    /** setBufferSize: makes room for `size` bytes, unless the stream has
        been flushed. */
    method SetBufferSize(size: Int32) returns (r: Outcome<StreamError>)
      requires Valid()
      modifies this
      ensures Valid()
      ensures r == (if old(flushed) then Fail(IllegalStateException(FlushedMessage)) else Pass)
      ensures capacity == (if old(flushed) || size <= old(capacity) then old(capacity) else size)
      ensures events == old(events) && buffer == old(buffer) && flushed == old(flushed)
      ensures closed == old(closed) && targetClosed == old(targetClosed)
    {
      r := CheckNotFlushed();
      if r.Fail? {
        return;
      }
      if size > capacity {
        capacity := size;
      }
    }

    /** getBufferSize. */
    function GetBufferSize(): (size: int)
      reads this
      ensures size == capacity
    {
      capacity
    }

    method CheckOpen() returns (r: Outcome<StreamError>)
      ensures r == (if closed then Fail(IOException(ClosedMessage)) else Pass)
    {
      if closed {
        return Fail(IOException(ClosedMessage));
      }
      return Pass;
    }

    method CheckNotFlushed() returns (r: Outcome<StreamError>)
      ensures r == (if flushed then Fail(IllegalStateException(FlushedMessage)) else Pass)
    {
      if flushed {
        return Fail(IllegalStateException(FlushedMessage));
      }
      return Pass;
    }

    /** flushIfOverflow: a flush when newBytes more would go past the
        maximum buffer size. */
    method FlushIfOverflow(newBytes: Int32)
      requires Valid()
      modifies this
      ensures Valid()
      ensures FlushedThrough(Overflows(old(|buffer|), newBytes))
    {
      if Wrap32(|buffer| + newBytes) > MaximumBufferSize {
        Flush();
      }
    }

    /** The state after flushIfOverflow: when `over`, one flush happened;
        otherwise nothing changed. */
    twostate predicate FlushedThrough(over: bool)
      reads this
    {
      events == old(events) + (if over then FlushEvents(!old(flushed), old(buffer), listener) else [])
      && buffer == (if over then [] else old(buffer))
      && flushed == (old(flushed) || over)
      && closed == old(closed) && targetClosed == old(targetClosed) && capacity == old(capacity)
    }

    /** The state after a write of `bytes` to an open stream: the overflow
        flush, then the bytes appended to the buffer. */
    twostate predicate WroteThrough(newBytes: Int32, bytes: seq<Byte>)
      reads this
    {
      var over := Overflows(old(|buffer|), newBytes);
      events == old(events) + (if over then FlushEvents(!old(flushed), old(buffer), listener) else [])
      && buffer == (if over then [] else old(buffer)) + bytes
      && flushed == (old(flushed) || over)
      && closed == old(closed) && targetClosed == old(targetClosed) && capacity == old(capacity)
    }

    /** write(int): one byte, the low eight bits of b. */
    method Write(b: Int32) returns (r: Outcome<StreamError>)
      requires Valid()
      modifies this
      ensures Valid()
      ensures r == (if old(closed) then Fail(IOException(ClosedMessage)) else Pass)
      ensures old(closed) ==> unchanged(this)
      ensures !old(closed) ==> WroteThrough(1, [ByteOf(b)])
    {
      r := CheckOpen();
      if r.Fail? {
        return;
      }
      FlushIfOverflow(1);
      buffer := buffer + [ByteOf(b)];
    }

    /** write(byte[]). */
    method WriteBytes(b: seq<Byte>) returns (r: Outcome<StreamError>)
      requires Valid() && |b| <= IntMax
      modifies this
      ensures Valid()
      ensures r == (if old(closed) then Fail(IOException(ClosedMessage)) else Pass)
      ensures old(closed) ==> unchanged(this)
      ensures !old(closed) ==> WroteThrough(|b|, b)
    {
      r := CheckOpen();
      if r.Fail? {
        return;
      }
      FlushIfOverflow(|b|);
      buffer := buffer + b;
    }

    /** write(byte[], off, len): the bounds are checked by the buffer, after
        the overflow flush has already happened. */
    method WriteRange(b: seq<Byte>, off: Int32, len: Int32) returns (r: Outcome<StreamError>)
      requires Valid() && |b| <= IntMax
      modifies this
      ensures Valid()
      ensures old(closed) ==> r == Fail(IOException(ClosedMessage)) && unchanged(this)
      ensures !old(closed) && !(0 <= off && 0 <= len && off + len <= |b|) ==>
                r == Fail(IndexOutOfBoundsException) && FlushedThrough(Overflows(old(|buffer|), len))
      ensures !old(closed) && 0 <= off && 0 <= len && off + len <= |b| ==>
                r == Pass && WroteThrough(len, b[off..off + len])
    {
      r := CheckOpen();
      if r.Fail? {
        return;
      }
      FlushIfOverflow(len);
      if !(0 <= off && 0 <= len && off + len <= |b|) {
        return Fail(IndexOutOfBoundsException);
      }
      buffer := buffer + b[off..off + len];
    }
  }

  /** When the sum fits in an int, the overflow test is the plain
      comparison. */
  lemma OverflowsMeaning(size: nat, newBytes: Int32)
    requires size + newBytes <= IntMax && IntMin <= size + newBytes
    ensures Overflows(size, newBytes) <==> size + newBytes > MaximumBufferSize
  {
  }

  /** The test is made in int arithmetic: a one-byte buffer and a write of
      Integer.MAX_VALUE bytes do not count as an overflow, since the sum
      wraps to a negative number. */
  lemma OverflowWraps()
    ensures !Overflows(1, IntMax)
  {
    assert Wrap32(1 + IntMax) == IntMin;
  }

  /** A new stream with two bytes written: they wait in the buffer. */
  method OpenWithTwoBytes(l: Listener) returns (s: BufferedServletOutputStream)
    ensures fresh(s) && s.Valid() && s.listener == l
    ensures s.buffer == [1, 2] && s.events == [] && !s.flushed && !s.closed
  {
    s := new BufferedServletOutputStream(32, l);
    var r := s.Write(1);
    r := s.Write(2);
  }

  /** Two bytes written, then closed twice, with a listener that leaves the
      buffer alone: the wrapper hears of the commit once, then of the close;
      the target gets the two bytes and is closed once. */
  method CloseTwice() returns (events: seq<Event>)
    ensures events == [NotifyBeforeCommit([1, 2]), NotifyBeforeClose([1, 2]),
                       TargetWrite([1, 2]), TargetFlush, SetCommitted, TargetClose]
  {
    var s := OpenWithTwoBytes(Unchanged);
    s.Close();
    s.Close();
    events := s.events;
  }

  /** Two bytes written and closed, with a listener that puts a header byte
      in front before the commit and a footer byte behind before the close,
      as SnifferFilter does with its HTML: the close notice sees the header,
      and the target gets header, body and footer. */
  method CloseWithInjection() returns (events: seq<Event>)
    ensures events == [NotifyBeforeCommit([1, 2]), NotifyBeforeClose([60, 1, 2]),
                       TargetWrite([60, 1, 2, 62]), TargetFlush, SetCommitted, TargetClose]
  {
    var l := Listener(c => [60] + c, c => c + [62]);
    assert l.beforeCommit([1, 2]) == [60, 1, 2];
    assert l.beforeClose([60, 1, 2]) == [60, 1, 2, 62];
    var s := OpenWithTwoBytes(l);
    s.Close();
    events := s.events;
  }

  /** A flush before the close sends the commit notice then, so the header
      goes out with the first bytes; the close notice sees only what was
      written since, and the footer follows it. */
  method FlushThenCloseWithInjection() returns (events: seq<Event>)
    ensures events == [NotifyBeforeCommit([1, 2]), TargetWrite([60, 1, 2]), TargetFlush, SetCommitted,
                       NotifyBeforeClose([3]), TargetWrite([3, 62]), TargetFlush, SetCommitted, TargetClose]
  {
    var l := Listener(c => [60] + c, c => c + [62]);
    assert l.beforeCommit([1, 2]) == [60, 1, 2];
    assert l.beforeClose([3]) == [3, 62];
    var s := OpenWithTwoBytes(l);
    s.Flush();
    assert s.events == [NotifyBeforeCommit([1, 2]), TargetWrite([60, 1, 2]), TargetFlush, SetCommitted];
    assert !Overflows(0, 1) by {
      assert Wrap32(0 + 1) == 1;
    }
    var r := s.Write(3);
    assert s.buffer == [3] && s.flushed;
    s.Close();
    events := s.events;
  }

  /** Once closed, the stream refuses both reset and further writes. */
  method ClosedStreamRefuses() returns (resetAfterClose: Outcome<StreamError>, writeAfterClose: Outcome<StreamError>)
    ensures resetAfterClose == Fail(IllegalStateException(FlushedMessage))
    ensures writeAfterClose == Fail(IOException(ClosedMessage))
  {
    var s := new BufferedServletOutputStream(32, Unchanged);
    s.Close();
    resetAfterClose := s.Reset();
    writeAfterClose := s.Write(3);
  }

  /** A full buffer: 200 KiB written, then one byte more. The extra byte
      makes the stream flush the 200 KiB to the target (with the commit
      notice) and then start a new buffer with that byte. */
  method OverflowScenario() returns (events: seq<Event>, buffer: seq<Byte>)
    ensures events == FlushEvents(true, seq(MaximumBufferSize, _ => 0), Unchanged)
    ensures buffer == [7]
  {
    var s := new BufferedServletOutputStream(32, Unchanged);
    var full := seq(MaximumBufferSize, _ => 0);
    var r := s.WriteBytes(full);
    assert s.buffer == full && s.events == [];
    r := s.Write(7);
    events := s.events;
    buffer := s.buffer;
  }
}
