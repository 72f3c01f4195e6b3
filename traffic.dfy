/** The reporting side of captured network traffic, on packet values: the
    order Collections.sort puts packets in, and the reduction loop of
    Spy.getNetworkTraffic, which appends a packet to the current run head
    when NetworkPacket.combine accepts it and starts a new run otherwise. */
module Traffic {
  import opened Wrappers
  import opened JavaText
  import opened NetworkPackets

  // ---------------------------------------------------------------- sorting

  predicate SortedByTimestamp(ps: seq<NetworkPacket>) {
    forall i, j :: 0 <= i < j < |ps| ==> ps[i].timestamp <= ps[j].timestamp
  }

  /** Insert p before the first packet that is not earlier than it. */
  function Insert(p: NetworkPacket, ps: seq<NetworkPacket>): (r: seq<NetworkPacket>)
    ensures multiset(r) == multiset(ps) + multiset{p}
  {
    if |ps| == 0 || p.timestamp <= ps[0].timestamp then [p] + ps
    else
      assert ps == [ps[0]] + ps[1..];
      [ps[0]] + Insert(p, ps[1..])
  }

  /** Inserting into a list in timestamp order keeps it in order. */
  lemma {:induction false} InsertSorted(p: NetworkPacket, ps: seq<NetworkPacket>)
    requires SortedByTimestamp(ps)
    ensures SortedByTimestamp(Insert(p, ps))
  {
    if |ps| > 0 && p.timestamp > ps[0].timestamp {
      var rest := Insert(p, ps[1..]);
      InsertSorted(p, ps[1..]);
      forall k | 0 <= k < |rest|
        ensures ps[0].timestamp <= rest[k].timestamp
      {
        assert rest[k] in multiset(ps[1..]) + multiset{p};
        if rest[k] != p {
          assert rest[k] in ps[1..];
        }
      }
      assert Insert(p, ps) == [ps[0]] + rest;
    }
  }

  /** Collections.sort with NetworkPacket.compareTo: a stable sort by
      timestamp, so packets with equal timestamps keep their order. */
  function SortByTimestamp(ps: seq<NetworkPacket>): (r: seq<NetworkPacket>)
    ensures SortedByTimestamp(r)
    ensures multiset(r) == multiset(ps) && |r| == |ps|
  {
    if |ps| == 0 then []
    else
      assert ps == [ps[0]] + ps[1..];
      InsertSorted(ps[0], SortByTimestamp(ps[1..]));
      Insert(ps[0], SortByTimestamp(ps[1..]))
  }

  /** The packets of ps with timestamp t, in the order ps holds them. */
  function WithTimestamp(ps: seq<NetworkPacket>, t: int): seq<NetworkPacket> {
    if |ps| == 0 then []
    else (if ps[0].timestamp == t then [ps[0]] else []) + WithTimestamp(ps[1..], t)
  }

  /** Insert puts p ahead of every packet with p's timestamp. */
  lemma {:induction false} InsertStable(p: NetworkPacket, ps: seq<NetworkPacket>, t: int)
    ensures WithTimestamp(Insert(p, ps), t) == (if p.timestamp == t then [p] else []) + WithTimestamp(ps, t)
  {
    if |ps| == 0 || p.timestamp <= ps[0].timestamp {
      assert ([p] + ps)[1..] == ps;
    } else {
      InsertStable(p, ps[1..], t);
      assert ([ps[0]] + Insert(p, ps[1..]))[1..] == Insert(p, ps[1..]);
    }
  }

  /** The sort is stable: packets with equal timestamps keep their order. */
  lemma {:induction false} SortStable(ps: seq<NetworkPacket>, t: int)
    ensures WithTimestamp(SortByTimestamp(ps), t) == WithTimestamp(ps, t)
  {
    if |ps| > 0 {
      SortStable(ps[1..], t);
      InsertStable(ps[0], SortByTimestamp(ps[1..]), t);
    }
  }

  /** A list already in order is left as it is. */
  lemma {:induction false} SortKeepsSorted(ps: seq<NetworkPacket>)
    requires SortedByTimestamp(ps)
    ensures SortByTimestamp(ps) == ps
  {
    if |ps| > 0 {
      SortKeepsSorted(ps[1..]);
      assert ps == [ps[0]] + ps[1..];
    }
  }

  // ---------------------------------------------------------------- reduction

  /** Whether `p` joins the run whose head is `head`. */
  predicate JoinsRun(head: Packet, p: Packet, maxDelay: Int64) {
    Joins(head.sent, head.timestamp, p.sent, p.timestamp, maxDelay)
  }

  /** A packet as the loop sees it: when packets are not grouped by stack
      trace, one carrying a stack trace is replaced by a copy without it. */
  function Strip(p: Packet, byStackTrace: bool): (q: Packet)
    ensures q.sent == p.sent && q.timestamp == p.timestamp && q.bytes == p.bytes
    ensures q.stackTrace == if byStackTrace then p.stackTrace else None
  {
    if !byStackTrace && p.stackTrace.Some? then p.(stackTrace := None) else p
  }

  function StripAll(s: seq<Packet>, byStackTrace: bool): (r: seq<Packet>)
    ensures |r| == |s| && forall i :: 0 <= i < |s| ==> r[i] == Strip(s[i], byStackTrace)
  {
    seq(|s|, i requires 0 <= i < |s| => Strip(s[i], byStackTrace))
  }

  /** One turn of the loop: combine into the last head, or add a new head. */
  function Step(r: seq<Packet>, p: Packet, maxDelay: Int64): seq<Packet> {
    if |r| > 0 && JoinsRun(r[|r| - 1], p, maxDelay) then
      r[..|r| - 1] + [r[|r| - 1].(bytes := r[|r| - 1].bytes + p.bytes)]
    else r + [p]
  }

  /** The loop over a whole (sorted) list, turn by turn. */
  function Reduce(s: seq<Packet>, maxDelay: Int64): seq<Packet> {
    if |s| == 0 then [] else Step(Reduce(s[..|s| - 1], maxDelay), s[|s| - 1], maxDelay)
  }

  /** The concatenated bytes of a list of packets. */
  function AllBytes(s: seq<Packet>): seq<Byte> {
    if |s| == 0 then [] else s[0].bytes + AllBytes(s[1..])
  }

  lemma {:induction false} AllBytesAppend(a: seq<Packet>, b: seq<Packet>)
    ensures AllBytes(a + b) == AllBytes(a) + AllBytes(b)
  {
    if |a| == 0 {
      assert a + b == b;
    } else {
      assert (a + b)[0] == a[0] && (a + b)[1..] == a[1..] + b;
      AllBytesAppend(a[1..], b);
    }
  }

  /** How many of the packets of `t` join `head` before the first that does not. */
  function RunLength(head: Packet, t: seq<Packet>, maxDelay: Int64): (n: nat)
    ensures n <= |t|
    ensures forall i :: 0 <= i < n ==> JoinsRun(head, t[i], maxDelay)
    ensures n < |t| ==> !JoinsRun(head, t[n], maxDelay)
  {
    if |t| == 0 || !JoinsRun(head, t[0], maxDelay) then 0 else 1 + RunLength(head, t[1..], maxDelay)
  }

  /** The reduction described run by run: the first packet heads a run made
      of itself and the longest block after it of packets that join it; the
      run is reported as the head carrying all the run's bytes; the rest is
      reduced the same way. */
  function ReduceRuns(s: seq<Packet>, maxDelay: Int64): seq<Packet>
    decreases |s|
  {
    if |s| == 0 then []
    else
      var n := RunLength(s[0], s[1..], maxDelay);
      [s[0].(bytes := AllBytes(s[..n + 1]))] + ReduceRuns(s[n + 1..], maxDelay)
  }

  /** The loop over `t`, starting from the heads `r` already reported. */
  function Fold(r: seq<Packet>, t: seq<Packet>, maxDelay: Int64): seq<Packet>
    decreases |t|
  {
    if |t| == 0 then r else Fold(Step(r, t[0], maxDelay), t[1..], maxDelay)
  }

  lemma {:induction false} FoldSnoc(r: seq<Packet>, t: seq<Packet>, p: Packet, maxDelay: Int64)
    ensures Fold(r, t + [p], maxDelay) == Step(Fold(r, t, maxDelay), p, maxDelay)
    decreases |t|
  {
    if |t| == 0 {
      assert Fold(Step(r, p, maxDelay), [], maxDelay) == Step(r, p, maxDelay);
    } else {
      assert (t + [p])[0] == t[0] && (t + [p])[1..] == t[1..] + [p];
      FoldSnoc(Step(r, t[0], maxDelay), t[1..], p, maxDelay);
    }
  }

  lemma {:induction false} ReduceIsFold(s: seq<Packet>, maxDelay: Int64)
    ensures Reduce(s, maxDelay) == Fold([], s, maxDelay)
  {
    if |s| > 0 {
      ReduceIsFold(s[..|s| - 1], maxDelay);
      FoldSnoc([], s[..|s| - 1], s[|s| - 1], maxDelay);
      assert s[..|s| - 1] + [s[|s| - 1]] == s;
    }
  }

  /** A head whose bytes grew still heads the same run. */
  lemma {:induction false} RunLengthIgnoresBytes(h: Packet, b: seq<Byte>, t: seq<Packet>, maxDelay: Int64)
    ensures RunLength(h.(bytes := b), t, maxDelay) == RunLength(h, t, maxDelay)
  {
    if |t| > 0 && JoinsRun(h, t[0], maxDelay) {
      RunLengthIgnoresBytes(h, b, t[1..], maxDelay);
    }
  }

  lemma AllBytesCons(h: Packet, t: seq<Packet>)
    ensures AllBytes([h] + t) == h.bytes + AllBytes(t)
  {
    assert ([h] + t)[0] == h && ([h] + t)[1..] == t;
  }

  /** A run: the head and what follows. */
  lemma RunBytes(h: Packet, t: seq<Packet>, n: nat)
    requires n <= |t|
    ensures ([h] + t)[..n + 1] == [h] + t[..n]
    ensures AllBytes(([h] + t)[..n + 1]) == h.bytes + AllBytes(t[..n])
    ensures ([h] + t)[n + 1..] == t[n..]
  {
    assert ([h] + t)[..n + 1] == [h] + t[..n];
    AllBytesCons(h, t[..n]);
  }

  /** The bytes of a run do not change when its second packet is moved into the head. */
  lemma GrownRunBytes(h: Packet, t: seq<Packet>, n: nat)
    requires 1 <= n <= |t|
    ensures AllBytes(([h] + t)[..n + 1]) == AllBytes(([h.(bytes := h.bytes + t[0].bytes)] + t[1..])[..n])
  {
    var h2 := h.(bytes := h.bytes + t[0].bytes);
    RunBytes(h, t, n);
    RunBytes(h2, t[1..], n - 1);
    assert t[..n] == [t[0]] + t[1..][..n - 1];
    AllBytesCons(t[0], t[1..][..n - 1]);
  }

  /** Both descriptions agree on a run whose head grew by the bytes of a
      packet that joined it. */
  lemma RunOfGrownHead(h: Packet, t: seq<Packet>, maxDelay: Int64)
    requires |t| > 0 && JoinsRun(h, t[0], maxDelay)
    ensures ReduceRuns([h.(bytes := h.bytes + t[0].bytes)] + t[1..], maxDelay) == ReduceRuns([h] + t, maxDelay)
  {
    var h2 := h.(bytes := h.bytes + t[0].bytes);
    var s, s2 := [h] + t, [h2] + t[1..];
    assert s[0] == h && s[1..] == t;
    assert s2[0] == h2 && s2[1..] == t[1..];
    var n := RunLength(h, t, maxDelay);
    RunLengthIgnoresBytes(h, h.bytes + t[0].bytes, t[1..], maxDelay);
    assert n - 1 == RunLength(s2[0], s2[1..], maxDelay);
    GrownRunBytes(h, t, n);
    RunBytes(h, t, n);
    RunBytes(h2, t[1..], n - 1);
    assert s[n + 1..] == s2[n..];
  }

  /** A run of one packet reports the packet itself. */
  lemma SingleRun(h: Packet, t: seq<Packet>, maxDelay: Int64)
    requires |t| == 0 || !JoinsRun(h, t[0], maxDelay)
    ensures ReduceRuns([h] + t, maxDelay) == [h] + ReduceRuns(t, maxDelay)
  {
    var s := [h] + t;
    assert s[0] == h && s[1..] == t;
    assert RunLength(s[0], s[1..], maxDelay) == 0;
    RunBytes(h, t, 0);
    assert t[..0] == [];
    assert AllBytes(s[..1]) == h.bytes;
    assert s[0].(bytes := AllBytes(s[..1])) == h;
    assert s[1..] == t;
    assert ReduceRuns(s, maxDelay) == [s[0].(bytes := AllBytes(s[..1]))] + ReduceRuns(s[1..], maxDelay);
  }

  /** The step that combines `p` into the last head `h`. */
  lemma StepJoins(r: seq<Packet>, h: Packet, p: Packet, maxDelay: Int64)
    requires JoinsRun(h, p, maxDelay)
    ensures Step(r + [h], p, maxDelay) == r + [h.(bytes := h.bytes + p.bytes)]
  {
    var q := r + [h];
    assert q[|q| - 1] == h && q[..|q| - 1] == r;
  }

  /** The step that makes `p` a new head. */
  lemma StepBreaks(r: seq<Packet>, h: Packet, p: Packet, maxDelay: Int64)
    requires !JoinsRun(h, p, maxDelay)
    ensures Step(r + [h], p, maxDelay) == (r + [h]) + [p]
  {
    var q := r + [h];
    assert q[|q| - 1] == h;
  }

  lemma AppendAssoc<T>(a: seq<T>, b: seq<T>, c: seq<T>)
    ensures (a + b) + c == a + (b + c)
  {
  }

  lemma {:induction false} FoldRuns(r: seq<Packet>, h: Packet, t: seq<Packet>, maxDelay: Int64)
    ensures Fold(r + [h], t, maxDelay) == r + ReduceRuns([h] + t, maxDelay)
    decreases |t|
  {
    if |t| == 0 {
      SingleRun(h, t, maxDelay);
      assert ReduceRuns(t, maxDelay) == [];
      assert ReduceRuns([h] + t, maxDelay) == [h];
      assert Fold(r + [h], t, maxDelay) == r + [h];
    } else if JoinsRun(h, t[0], maxDelay) {
      var h2 := h.(bytes := h.bytes + t[0].bytes);
      StepJoins(r, h, t[0], maxDelay);
      assert Fold(r + [h], t, maxDelay) == Fold(r + [h2], t[1..], maxDelay);
      FoldRuns(r, h2, t[1..], maxDelay);
      RunOfGrownHead(h, t, maxDelay);
    } else {
      StepBreaks(r, h, t[0], maxDelay);
      assert Fold(r + [h], t, maxDelay) == Fold((r + [h]) + [t[0]], t[1..], maxDelay);
      FoldRuns(r + [h], t[0], t[1..], maxDelay);
      assert [t[0]] + t[1..] == t;
      SingleRun(h, t, maxDelay);
      AppendAssoc(r, [h], ReduceRuns(t, maxDelay));
    }
  }

  /** The loop computes the run-by-run description: the merge is anchored at
      the first packet of each run, since the head is not replaced by the
      packets combined into it. */
  lemma ReduceIsRuns(s: seq<Packet>, maxDelay: Int64)
    ensures Reduce(s, maxDelay) == ReduceRuns(s, maxDelay)
  {
    ReduceIsFold(s, maxDelay);
    if |s| > 0 {
      assert Step([], s[0], maxDelay) == [] + [s[0]];
      assert Fold([], s, maxDelay) == Fold([] + [s[0]], s[1..], maxDelay);
      FoldRuns([], s[0], s[1..], maxDelay);
      assert [s[0]] + s[1..] == s;
    }
  }

  /** Reducing loses, duplicates and reorders no byte. */
  lemma {:induction false} ReduceRunsKeepsBytes(s: seq<Packet>, maxDelay: Int64)
    ensures AllBytes(ReduceRuns(s, maxDelay)) == AllBytes(s)
    decreases |s|
  {
    if |s| > 0 {
      var n := RunLength(s[0], s[1..], maxDelay);
      ReduceRunsKeepsBytes(s[n + 1..], maxDelay);
      assert s == s[..n + 1] + s[n + 1..];
      AllBytesAppend(s[..n + 1], s[n + 1..]);
    }
  }

  lemma ReduceKeepsBytes(s: seq<Packet>, maxDelay: Int64)
    ensures AllBytes(Reduce(s, maxDelay)) == AllBytes(s)
  {
    ReduceIsRuns(s, maxDelay);
    ReduceRunsKeepsBytes(s, maxDelay);
  }

  lemma {:induction false} StripKeepsBytes(s: seq<Packet>, byStackTrace: bool)
    ensures AllBytes(StripAll(s, byStackTrace)) == AllBytes(s)
  {
    if |s| > 0 {
      StripKeepsBytes(s[1..], byStackTrace);
      assert StripAll(s, byStackTrace)[1..] == StripAll(s[1..], byStackTrace);
    }
  }

  predicate Sorted(s: seq<Packet>) {
    forall i, j :: 0 <= i < j < |s| ==> s[i].timestamp <= s[j].timestamp
  }

  lemma {:induction false} ReduceRunsKeepsOrder(s: seq<Packet>, maxDelay: Int64)
    requires Sorted(s)
    ensures Sorted(ReduceRuns(s, maxDelay))
    ensures |ReduceRuns(s, maxDelay)| > 0 ==> ReduceRuns(s, maxDelay)[0].timestamp == s[0].timestamp
    decreases |s|
  {
    if |s| > 0 {
      var n := RunLength(s[0], s[1..], maxDelay);
      ReduceRunsKeepsOrder(s[n + 1..], maxDelay);
    }
  }

  /** Output packets are in timestamp order when the input is. */
  lemma ReduceKeepsOrder(s: seq<Packet>, maxDelay: Int64)
    requires Sorted(s)
    ensures Sorted(Reduce(s, maxDelay))
  {
    ReduceIsRuns(s, maxDelay);
    ReduceRunsKeepsOrder(s, maxDelay);
  }

  /** No packet would join the one before it. */
  predicate Separated(s: seq<Packet>, maxDelay: Int64) {
    forall i :: 0 < i < |s| ==> !JoinsRun(s[i - 1], s[i], maxDelay)
  }

  /** The first reported packet carries the first packet's direction and time. */
  lemma ReduceRunsHead(s: seq<Packet>, maxDelay: Int64)
    ensures |ReduceRuns(s, maxDelay)| > 0 <==> |s| > 0
    ensures |s| > 0 ==> ReduceRuns(s, maxDelay)[0].sent == s[0].sent && ReduceRuns(s, maxDelay)[0].timestamp == s[0].timestamp
  {
  }

  /** A reduced list is separated: every head stopped the run before it. */
  lemma {:induction false} ReducedIsSeparated(s: seq<Packet>, maxDelay: Int64)
    ensures Separated(ReduceRuns(s, maxDelay), maxDelay)
    decreases |s|
  {
    if |s| > 0 {
      var n := RunLength(s[0], s[1..], maxDelay);
      var rest := s[n + 1..];
      var tail := ReduceRuns(rest, maxDelay);
      ReducedIsSeparated(rest, maxDelay);
      ReduceRunsHead(rest, maxDelay);
      var r := ReduceRuns(s, maxDelay);
      assert r == [s[0].(bytes := AllBytes(s[..n + 1]))] + tail;
      forall i | 0 < i < |r|
        ensures !JoinsRun(r[i - 1], r[i], maxDelay)
      {
        if i == 1 {
          assert !JoinsRun(s[0], s[1..][n], maxDelay);
        } else {
          assert r[i - 1] == tail[i - 2] && r[i] == tail[i - 1];
        }
      }
    }
  }

  lemma SeparatedTail(s: seq<Packet>, maxDelay: Int64)
    requires |s| > 0 && Separated(s, maxDelay)
    ensures Separated(s[1..], maxDelay)
  {
    var rest := s[1..];
    forall i | 0 < i < |rest|
      ensures !JoinsRun(rest[i - 1], rest[i], maxDelay)
    {
      assert rest[i - 1] == s[i] && rest[i] == s[i + 1];
    }
  }

  /** A separated list is its own reduction. */
  lemma {:induction false} SeparatedIsReduced(s: seq<Packet>, maxDelay: Int64)
    requires Separated(s, maxDelay)
    ensures ReduceRuns(s, maxDelay) == s
    decreases |s|
  {
    if |s| > 0 {
      var rest := s[1..];
      if |s| > 1 {
        assert !JoinsRun(s[0], rest[0], maxDelay);
      }
      SeparatedTail(s, maxDelay);
      SeparatedIsReduced(rest, maxDelay);
      assert s == [s[0]] + rest;
      SingleRun(s[0], rest, maxDelay);
    }
  }

  lemma ReduceIdempotent(s: seq<Packet>, maxDelay: Int64)
    ensures Reduce(Reduce(s, maxDelay), maxDelay) == Reduce(s, maxDelay)
  {
    ReduceIsRuns(s, maxDelay);
    ReducedIsSeparated(s, maxDelay);
    var r := ReduceRuns(s, maxDelay);
    ReduceIsRuns(r, maxDelay);
    SeparatedIsReduced(r, maxDelay);
  }

  /** Packets in the order Collections.sort leaves them have values in timestamp order. */
  lemma SortedValues(ps: seq<NetworkPacket>)
    requires SortedByTimestamp(ps)
    ensures Sorted(Values(ps))
  {
  }

  /** Dropping stack traces changes no timestamp. */
  lemma StripKeepsOrder(s: seq<Packet>, byStackTrace: bool)
    requires Sorted(s)
    ensures Sorted(StripAll(s, byStackTrace))
  {
  }

  /** What getNetworkTraffic reports for one group whose packets are in
      timestamp order: packets still in timestamp order, carrying all the
      group's bytes in the same order, no packet that would have joined the
      one before it, and a list another reduction leaves as it is. */
  lemma ReportMeaning(s: seq<Packet>, byStackTrace: bool, maxDelay: Int64)
    requires Sorted(s)
    ensures var r := Reduce(StripAll(s, byStackTrace), maxDelay);
      Sorted(r) && AllBytes(r) == AllBytes(s) && Separated(r, maxDelay) && Reduce(r, maxDelay) == r
  {
    var t := StripAll(s, byStackTrace);
    StripKeepsOrder(s, byStackTrace);
    ReduceKeepsOrder(t, maxDelay);
    StripKeepsBytes(s, byStackTrace);
    ReduceKeepsBytes(t, maxDelay);
    ReduceIsRuns(t, maxDelay);
    ReducedIsSeparated(t, maxDelay);
    ReduceIdempotent(t, maxDelay);
  }
}
