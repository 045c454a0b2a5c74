/** The STATUS body (src/protocol.py:97-236): fixed head, then two newest-first lists of 16-bit slice counts. */
module StatusBody {
  import opened Wrappers
  import opened Wire
  import opened Protocol

  /** The first n entries, or all if there are fewer. */
  function Cut(s: seq<int>, n: nat): (r: seq<int>)
    ensures r <= s && |r| == Min(n, |s|)
  {
    if n < |s| then s[..n] else s
  }

  /** Slice counts are never negative. */
  predicate Counts(s: seq<int>)
  {
    forall i :: 0 <= i < |s| ==> s[i] >= 0
  }

  predicate StatusInRange(snap: StatusSnapshot, maxSlices: nat)
  {
    && TelemetryInRange(HeadOf(snap))
    && snap.bucketMs < U32
    && |Cut(snap.recvSlices, maxSlices)| < U16 && |Cut(snap.respSlices, maxSlices)| < U16
    && Counts(Cut(snap.recvSlices, maxSlices)) && Counts(Cut(snap.respSlices, maxSlices))
  }

  /** The fields a STATUS head shares with a telemetry trailer. */
  function HeadOf(snap: StatusSnapshot): Telemetry
  {
    Telemetry(snap.serverMono, snap.received, snap.completed,
              snap.readPending, snap.processing, snap.responsePending,
              snap.rxBytes, snap.txBytes, snap.intervalRx, snap.intervalTx,
              snap.kernelSend, snap.kernelRecv)
  }

  function StatusRecord(snap: StatusSnapshot, nRecv: nat, nResp: nat): (r: Record)
    requires TelemetryInRange(HeadOf(snap)) && snap.bucketMs < U32 && nRecv < U16 && nResp < U16
    ensures Shape(r) == STATUS_HEAD && Fits(r)
  {
    Widths();
    Push(8, snap.serverMono, Push(8, snap.received, Push(8, snap.completed,
      Push(4, Max(0, snap.readPending), Push(4, Max(0, snap.processing), Push(4, Max(0, snap.responsePending),
      Push(8, Max(0, snap.rxBytes), Push(8, Max(0, snap.txBytes),
      Push(4, Max(0, snap.intervalRx), Push(4, Max(0, snap.intervalTx), Push(4, Max(1, snap.bucketMs),
      Push(4, PackKernel(snap.kernelSend), Push(4, PackKernel(snap.kernelRecv),
      Push(2, nRecv, Push(2, nResp, Nil)))))))))))))))
  }

  function PackCounts(counts: seq<int>): (bs: bytes)
    requires Counts(counts)
    ensures |bs| == STATUS_COUNT * |counts|
  {
    if counts == [] then []
    else PackInt(STATUS_COUNT, Min(counts[0], 0xFFFF)) + PackCounts(counts[1..])
  }

  function EncodeStatusBody(snap: StatusSnapshot, maxSlices: nat): (body: bytes)
    requires StatusInRange(snap, maxSlices)
    ensures |body| ==
      STATUS_HEAD_SIZE + STATUS_COUNT * (|Cut(snap.recvSlices, maxSlices)| + |Cut(snap.respSlices, maxSlices)|)
  {
    StatusHeadSize();
    var recv, resp := Cut(snap.recvSlices, maxSlices), Cut(snap.respSlices, maxSlices);
    Pack(StatusRecord(snap, |recv|, |resp|)) + PackCounts(recv + resp)
  }

  function CountAt(payload: bytes, off: nat): nat
    requires off + STATUS_COUNT <= |payload|
  {
    UnpackInt(payload[off..off + STATUS_COUNT])
  }

  /** The n 16-bit counts that start at off. */
  function CountsAt(payload: bytes, off: nat, n: nat): (counts: seq<int>)
    requires off + STATUS_COUNT * n <= |payload|
    ensures |counts| == n
    ensures forall i :: 0 <= i < n ==> counts[i] == CountAt(payload, off + STATUS_COUNT * i)
  {
    seq(n, i requires 0 <= i < n => CountAt(payload, off + STATUS_COUNT * i))
  }

  function DecodeStatusBody(payload: bytes): Option<StatusSnapshot>
  {
    StatusHeadSize();
    if |payload| < STATUS_HEAD_SIZE then None
    else
      var v := Unpack(STATUS_HEAD, payload);
      var nRecv, nResp := At(v, 13), At(v, 14);
      if |payload| < STATUS_HEAD_SIZE + STATUS_COUNT * (nRecv + nResp) || At(v, 10) <= 0 then None
      else Some(StatusOf(v, CountsAt(payload, STATUS_HEAD_SIZE, nRecv),
                         CountsAt(payload, STATUS_HEAD_SIZE + STATUS_COUNT * nRecv, nResp)))
  }

  function StatusOf(v: Record, recv: seq<int>, resp: seq<int>): StatusSnapshot
  {
    StatusSnapshot(At(v, 0), At(v, 1), At(v, 2), At(v, 3), At(v, 4), At(v, 5), At(v, 6), At(v, 7),
                   At(v, 8), At(v, 9), At(v, 10), UnpackKernel(At(v, 11)), UnpackKernel(At(v, 12)), recv, resp)
  }

  lemma StatusOffsets()
    ensures OffsetOf(STATUS_HEAD, 0) == 0 && OffsetOf(STATUS_HEAD, 1) == 8 && OffsetOf(STATUS_HEAD, 2) == 16
    ensures OffsetOf(STATUS_HEAD, 3) == 24 && OffsetOf(STATUS_HEAD, 4) == 28 && OffsetOf(STATUS_HEAD, 5) == 32
    ensures OffsetOf(STATUS_HEAD, 6) == 36 && OffsetOf(STATUS_HEAD, 7) == 44 && OffsetOf(STATUS_HEAD, 8) == 52
    ensures OffsetOf(STATUS_HEAD, 9) == 56 && OffsetOf(STATUS_HEAD, 10) == 60
  {
  }

  lemma BehindOne(w: nat, rest: Layout, i: nat)
    requires i >= 1
    ensures var layout := Field(w, rest);
            && OffsetOf(layout, i) == w + OffsetOf(rest, i - 1) && WidthAt(layout, i) == WidthAt(rest, i - 1)
            && Arity(layout) == 1 + Arity(rest)
  {
  }

  lemma BehindThree(rest: Layout, i: nat)
    requires i >= 3
    ensures var layout := Field(8, Field(8, Field(8, rest)));
            && OffsetOf(layout, i) == 24 + OffsetOf(rest, i - 3) && WidthAt(layout, i) == WidthAt(rest, i - 3)
            && Arity(layout) == 3 + Arity(rest)
  {
    BehindOne(8, rest, i - 2);
    BehindOne(8, Field(8, rest), i - 1);
    BehindOne(8, Field(8, Field(8, rest)), i);
  }

  /** The fields behind the first three. */
  const STATUS_REST := Field(4, Field(4, Field(4, Field(8, Field(8, Field(4, Field(4, Field(4, Field(4, Field(4,
      Field(2, Field(2, End))))))))))))

  lemma RestOffsets()
    ensures OffsetOf(STATUS_REST, 8) == 40 && OffsetOf(STATUS_REST, 9) == 44 && OffsetOf(STATUS_REST, 10) == 48
    ensures OffsetOf(STATUS_REST, 11) == 50 && Arity(STATUS_REST) == 12
    ensures WidthAt(STATUS_REST, 8) == 4 && WidthAt(STATUS_REST, 9) == 4 && WidthAt(STATUS_REST, 10) == 2
    ensures WidthAt(STATUS_REST, 11) == 2
  {
  }

  lemma StatusOffsetsToo()
    ensures OffsetOf(STATUS_HEAD, 11) == 64 && OffsetOf(STATUS_HEAD, 12) == 68
    ensures OffsetOf(STATUS_HEAD, 13) == 72 && OffsetOf(STATUS_HEAD, 14) == 74 && Arity(STATUS_HEAD) == 15
    ensures WidthAt(STATUS_HEAD, 11) == 4 && WidthAt(STATUS_HEAD, 12) == 4 && WidthAt(STATUS_HEAD, 13) == 2
    ensures WidthAt(STATUS_HEAD, 14) == 2
  {
    hide OffsetOf, WidthAt, Arity;
    RestOffsets();
    BehindThree(STATUS_REST, 11);
    BehindThree(STATUS_REST, 12);
    BehindThree(STATUS_REST, 13);
    BehindThree(STATUS_REST, 14);
  }

  lemma StatusWidths()
    ensures WidthAt(STATUS_HEAD, 0) == 8 && WidthAt(STATUS_HEAD, 1) == 8 && WidthAt(STATUS_HEAD, 2) == 8
    ensures WidthAt(STATUS_HEAD, 3) == 4 && WidthAt(STATUS_HEAD, 4) == 4 && WidthAt(STATUS_HEAD, 5) == 4
    ensures WidthAt(STATUS_HEAD, 6) == 8 && WidthAt(STATUS_HEAD, 7) == 8 && WidthAt(STATUS_HEAD, 8) == 4
    ensures WidthAt(STATUS_HEAD, 9) == 4 && WidthAt(STATUS_HEAD, 10) == 4
  {
  }

  /** The numbers of a STATUS head and where they are. */
  lemma HeadFields(payload: bytes)
    requires |payload| >= STATUS_HEAD_SIZE == Size(STATUS_HEAD)
    ensures var v := Unpack(STATUS_HEAD, payload);
            && At(v, 0) == UnpackInt(payload[0..8]) && At(v, 1) == UnpackInt(payload[8..16])
            && At(v, 2) == UnpackInt(payload[16..24]) && At(v, 3) == UnpackInt(payload[24..28])
            && At(v, 4) == UnpackInt(payload[28..32]) && At(v, 5) == UnpackInt(payload[32..36])
            && At(v, 6) == UnpackInt(payload[36..44]) && At(v, 7) == UnpackInt(payload[44..52])
            && At(v, 8) == UnpackInt(payload[52..56]) && At(v, 9) == UnpackInt(payload[56..60])
            && At(v, 10) == UnpackInt(payload[60..64]) && At(v, 11) == UnpackInt(payload[64..68])
            && At(v, 12) == UnpackInt(payload[68..72]) && At(v, 13) == UnpackInt(payload[72..74])
            && At(v, 14) == UnpackInt(payload[74..76])
  {
    hide Unpack, UnpackInt, At, OffsetOf, WidthAt, Arity, Size;
    StatusOffsets();
    StatusOffsetsToo();
    StatusWidths();
    FieldAtOffset(STATUS_HEAD, payload, 0, 0, 8);
    FieldAtOffset(STATUS_HEAD, payload, 1, 8, 16);
    FieldAtOffset(STATUS_HEAD, payload, 2, 16, 24);
    FieldAtOffset(STATUS_HEAD, payload, 3, 24, 28);
    FieldAtOffset(STATUS_HEAD, payload, 4, 28, 32);
    FieldAtOffset(STATUS_HEAD, payload, 5, 32, 36);
    FieldAtOffset(STATUS_HEAD, payload, 6, 36, 44);
    FieldAtOffset(STATUS_HEAD, payload, 7, 44, 52);
    FieldAtOffset(STATUS_HEAD, payload, 8, 52, 56);
    FieldAtOffset(STATUS_HEAD, payload, 9, 56, 60);
    FieldAtOffset(STATUS_HEAD, payload, 10, 60, 64);
    FieldAtOffset(STATUS_HEAD, payload, 11, 64, 68);
    FieldAtOffset(STATUS_HEAD, payload, 12, 68, 72);
    FieldAtOffset(STATUS_HEAD, payload, 13, 72, 74);
    FieldAtOffset(STATUS_HEAD, payload, 14, 74, 76);
  }

  /** What the decoder accepts, byte by byte: a head with a bucket, and as many counts as the head announces. */
  predicate AcceptableStatus(payload: bytes)
  {
    && |payload| >= 76 && UnpackInt(payload[60..64]) > 0
    && |payload| >= 76 + 2 * (UnpackInt(payload[72..74]) + UnpackInt(payload[74..76]))
  }

  /** The decoder, byte by byte: what it accepts, and every field of what it then returns. */
  lemma StatusDecodesExactly(payload: bytes)
    ensures DecodeStatusBody(payload).Some? <==> AcceptableStatus(payload)
    ensures AcceptableStatus(payload) ==>
              var snap := DecodeStatusBody(payload).value;
              && snap.serverMono == UnpackInt(payload[0..8]) && snap.received == UnpackInt(payload[8..16])
              && snap.completed == UnpackInt(payload[16..24]) && snap.readPending == UnpackInt(payload[24..28])
              && snap.processing == UnpackInt(payload[28..32]) && snap.responsePending == UnpackInt(payload[32..36])
              && snap.rxBytes == UnpackInt(payload[36..44]) && snap.txBytes == UnpackInt(payload[44..52])
              && snap.intervalRx == UnpackInt(payload[52..56]) && snap.intervalTx == UnpackInt(payload[56..60])
              && snap.bucketMs == UnpackInt(payload[60..64])
              && snap.kernelSend == Known(UnpackInt(payload[64..68]))
              && snap.kernelRecv == Known(UnpackInt(payload[68..72]))
    ensures AcceptableStatus(payload) ==>
              var snap := DecodeStatusBody(payload).value;
              var from := 76 + 2 * |snap.recvSlices|;
              && |snap.recvSlices| == UnpackInt(payload[72..74]) && |snap.respSlices| == UnpackInt(payload[74..76])
              && from + 2 * |snap.respSlices| <= |payload|
              && (forall i :: 0 <= i < |snap.recvSlices| ==>
                    snap.recvSlices[i] == UnpackInt(payload[76 + 2 * i..78 + 2 * i]))
              && (forall i :: 0 <= i < |snap.respSlices| ==>
                    snap.respSlices[i] == UnpackInt(payload[from + 2 * i..from + 2 * i + 2]))
  {
    hide Unpack, UnpackInt, At, Size;
    StatusHeadSize();
    if |payload| >= STATUS_HEAD_SIZE { HeadFields(payload); }
  }

  /** The decoder's list loop: read one count, advance the offset, n times. */
  method ReadCounts(payload: bytes, start: nat, n: nat) returns (counts: seq<int>, off: nat)
    requires start + STATUS_COUNT * n <= |payload|
    ensures counts == CountsAt(payload, start, n)
    ensures off == start + STATUS_COUNT * n
  {
    off := start;
    counts := [];
    for k := 0 to n
      invariant off == start + STATUS_COUNT * k
      invariant |counts| == k
      invariant forall i :: 0 <= i < k ==> counts[i] == CountAt(payload, start + STATUS_COUNT * i)
    {
      counts := counts + [CountAt(payload, off)];
      off := off + STATUS_COUNT;
    }
  }

  /** The decoder as the program runs it: the second list starts where the first one stopped. */
  method DecodeStatusBodyLoop(payload: bytes) returns (r: Option<StatusSnapshot>)
    ensures r == DecodeStatusBody(payload)
  {
    hide Unpack, StatusOf, CountsAt, CountAt;
    StatusHeadSize();
    if |payload| < STATUS_HEAD_SIZE { return None; }
    var v := Unpack(STATUS_HEAD, payload);
    var nRecv, nResp := At(v, 13), At(v, 14);
    if |payload| < STATUS_HEAD_SIZE + (nRecv + nResp) * STATUS_COUNT || At(v, 10) <= 0 { return None; }
    var recv, off := ReadCounts(payload, STATUS_HEAD_SIZE, nRecv);
    var resp, end := ReadCounts(payload, off, nResp);
    r := Some(StatusOf(v, recv, resp));
  }

  function Capped(counts: seq<int>): (r: seq<int>)
    ensures |r| == |counts|
  {
    seq(|counts|, i requires 0 <= i < |counts| => Min(counts[i], 0xFFFF))
  }

  /** What survives the wire. */
  function NormalStatus(snap: StatusSnapshot, maxSlices: nat): StatusSnapshot
  {
    StatusSnapshot(snap.serverMono, snap.received, snap.completed,
                   Max(0, snap.readPending), Max(0, snap.processing), Max(0, snap.responsePending),
                   Max(0, snap.rxBytes), Max(0, snap.txBytes), Max(0, snap.intervalRx), Max(0, snap.intervalTx),
                   Max(1, snap.bucketMs), NormalKernel(snap.kernelSend), NormalKernel(snap.kernelRecv),
                   Capped(Cut(snap.recvSlices, maxSlices)), Capped(Cut(snap.respSlices, maxSlices)))
  }

  lemma {:induction false} CountAtInPack(counts: seq<int>, i: nat)
    requires Counts(counts) && i < |counts|
    ensures CountAt(PackCounts(counts), STATUS_COUNT * i) == Min(counts[i], 0xFFFF)
  {
    var first, rest := PackInt(STATUS_COUNT, Min(counts[0], 0xFFFF)), PackCounts(counts[1..]);
    Widths();
    var all := PackCounts(counts);
    assert all == first + rest;
    if i == 0 {
      assert all[0..2] == first;
      UnpackPackInt(STATUS_COUNT, Min(counts[0], 0xFFFF));
    } else {
      CountAtInPack(counts[1..], i - 1);
      assert all[2 * i..2 * i + 2] == rest[2 * (i - 1)..2 * (i - 1) + 2];
    }
  }

  lemma CountInside(head: bytes, mid: bytes, tail: bytes, at: nat)
    requires at + STATUS_COUNT <= |mid|
    ensures CountAt(head + (mid + tail), |head| + at) == CountAt(mid, at)
  {
    assert (head + (mid + tail))[|head| + at..|head| + at + STATUS_COUNT] == mid[at..at + STATUS_COUNT];
  }

  /** Decoding an encoded STATUS body, whatever bytes trail it, gives the snapshot's normal form. */
  lemma StatusRoundTrip(snap: StatusSnapshot, maxSlices: nat, tail: bytes)
    requires StatusInRange(snap, maxSlices)
    ensures DecodeStatusBody(EncodeStatusBody(snap, maxSlices) + tail) == Some(NormalStatus(snap, maxSlices))
  {
    hide Unpack, UnpackInt, Pack, PackInt, PackCounts, CountAt, StatusOf, StatusRecord, TelemetryInRange, At;
    StatusHeadSize();
    var recv, resp := Cut(snap.recvSlices, maxSlices), Cut(snap.respSlices, maxSlices);
    var r := StatusRecord(snap, |recv|, |resp|);
    var payload := EncodeStatusBody(snap, maxSlices) + tail;
    assert payload == Pack(r) + (PackCounts(recv + resp) + tail);
    UnpackPack(r, PackCounts(recv + resp) + tail);
    PackedCounts(recv + resp);
    StatusLists(Pack(r), PackCounts(recv + resp), tail, recv, resp);
    StatusOfRecord(snap, |recv|, |resp|, Capped(recv), Capped(resp));
  }

  lemma PackedCounts(counts: seq<int>)
    requires Counts(counts)
    ensures forall k :: 0 <= k < |counts| ==> CountAt(PackCounts(counts), STATUS_COUNT * k) == Min(counts[k], 0xFFFF)
  {
    forall k | 0 <= k < |counts|
      ensures CountAt(PackCounts(counts), STATUS_COUNT * k) == Min(counts[k], 0xFFFF)
    {
      CountAtInPack(counts, k);
    }
  }

  /** Both lists, read from where the head says they are. */
  lemma StatusLists(head: bytes, packed: bytes, tail: bytes, recv: seq<int>, resp: seq<int>)
    requires |packed| == STATUS_COUNT * (|recv| + |resp|)
    requires forall k :: 0 <= k < |recv + resp| ==> CountAt(packed, STATUS_COUNT * k) == Min((recv + resp)[k], 0xFFFF)
    ensures var payload := head + (packed + tail);
            && CountsAt(payload, |head|, |recv|) == Capped(recv)
            && CountsAt(payload, |head| + STATUS_COUNT * |recv|, |resp|) == Capped(resp)
  {
    var both := recv + resp;
    var payload := head + (packed + tail);
    CountsInside(head, packed, tail, both);
    CappedFrom(payload, |head|, both, 0, recv);
    CappedFrom(payload, |head|, both, |recv|, resp);
  }

  lemma CountsInside(head: bytes, packed: bytes, tail: bytes, counts: seq<int>)
    requires |packed| == STATUS_COUNT * |counts|
    requires forall k :: 0 <= k < |counts| ==> CountAt(packed, STATUS_COUNT * k) == Min(counts[k], 0xFFFF)
    ensures forall k :: 0 <= k < |counts| ==>
      CountAt(head + (packed + tail), |head| + STATUS_COUNT * k) == Min(counts[k], 0xFFFF)
  {
    forall k | 0 <= k < |counts|
      ensures CountAt(head + (packed + tail), |head| + STATUS_COUNT * k) == Min(counts[k], 0xFFFF)
    {
      CountInside(head, packed, tail, STATUS_COUNT * k);
    }
  }

  lemma CappedFrom(payload: bytes, base: nat, all: seq<int>, from: nat, part: seq<int>)
    requires from + |part| <= |all| && all[from..from + |part|] == part
    requires base + STATUS_COUNT * |all| <= |payload|
    requires forall k :: 0 <= k < |all| ==> CountAt(payload, base + STATUS_COUNT * k) == Min(all[k], 0xFFFF)
    ensures CountsAt(payload, base + STATUS_COUNT * from, |part|) == Capped(part)
  {
    var got := CountsAt(payload, base + STATUS_COUNT * from, |part|);
    forall i | 0 <= i < |part| ensures got[i] == Min(part[i], 0xFFFF) {
      assert part[i] == all[from + i];
    }
  }

  lemma StatusOfRecord(snap: StatusSnapshot, nRecv: nat, nResp: nat, recv: seq<int>, resp: seq<int>)
    requires TelemetryInRange(HeadOf(snap)) && snap.bucketMs < U32 && nRecv < U16 && nResp < U16
    ensures var r := StatusRecord(snap, nRecv, nResp);
            && At(r, 10) == Max(1, snap.bucketMs) && At(r, 13) == nRecv && At(r, 14) == nResp
            && StatusOf(r, recv, resp) ==
               NormalStatus(snap, 0).(recvSlices := recv, respSlices := resp)
  {
  }

  /** Sending what was received changes nothing more. */
  lemma NormalStatusIdempotent(snap: StatusSnapshot, maxSlices: nat)
    requires StatusInRange(snap, maxSlices)
    ensures var n := NormalStatus(snap, maxSlices);
            StatusInRange(n, maxSlices) && NormalStatus(n, maxSlices) == n
  {
    var n := NormalStatus(snap, maxSlices);
    assert Cut(n.recvSlices, maxSlices) == n.recvSlices;
    assert Cut(n.respSlices, maxSlices) == n.respSlices;
  }
}
