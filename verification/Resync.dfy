/**
 What the parser makes of a PDU longer than the limit (src/protocol.py:307-323): it drops bytes until four of
 them read as a length it believes, which may happen inside the header and inside the payload.
 */
module Resync {
  import opened Wire
  import opened Protocol
  import opened Streams

  /** Four zero bytes: a length of 0 and nothing else, which is cut off as a PDU and does not decode. */
  const ZEROS: bytes := [0, 0, 0, 0]

  /** The number in the four bytes from i on. */
  function Word(raw: bytes, i: nat): nat
    requires i + LEN_SIZE <= |raw|
  {
    var (a: int, b: int, c: int, d: int) := (raw[i], raw[i + 1], raw[i + 2], raw[i + 3]);
    ((a * 256 + b) * 256 + c) * 256 + d
  }

  lemma UnpackLast(bs: bytes)
    requires bs != []
    ensures UnpackInt(bs) == UnpackInt(bs[..|bs| - 1]) * 256 + bs[|bs| - 1]
  {
  }

  lemma TotalIsWord(raw: bytes, i: nat)
    requires i + LEN_SIZE <= |raw|
    ensures Total(raw[i..]) == Word(raw, i)
  {
    var b := raw[i..][..LEN_SIZE];
    assert b == [raw[i], raw[i + 1], raw[i + 2], raw[i + 3]];
    UnpackLast(b);
    assert b[..3] == [raw[i], raw[i + 1], raw[i + 2]];
    UnpackLast(b[..3]);
    assert b[..3][..2] == [raw[i], raw[i + 1]];
    UnpackLast(b[..3][..2]);
    assert b[..3][..2][..1] == [raw[i]];
    UnpackLast(b[..3][..2][..1]);
  }

  lemma SkipAt(raw: bytes, i: nat)
    requires i + LEN_SIZE <= |raw| && Word(raw, i) > MAX_INNER
    ensures PopPdus(raw[i..]) == PopPdus(raw[i + 1..])
  {
    TotalIsWord(raw, i);
    assert raw[i..][1..] == raw[i + 1..];
  }

  /** A length the parser believes: that many bytes are cut off, whatever they are. */
  lemma CutAt(raw: bytes, i: nat)
    requires i + LEN_SIZE <= |raw| && Total(raw[i..]) <= MAX_INNER && i + LEN_SIZE + Total(raw[i..]) <= |raw|
    ensures var j := i + LEN_SIZE + Total(raw[i..]);
            PopPdus(raw[i..]).frames == [raw[i..j]] + PopPdus(raw[j..]).frames
  {
    var n := LEN_SIZE + Total(raw[i..]);
    assert raw[i..][..n] == raw[i..i + n] && raw[i..][n..] == raw[i + n..];
  }

  lemma ZerosAt(raw: bytes, i: nat)
    requires i + LEN_SIZE <= |raw| && raw[i..i + LEN_SIZE] == ZEROS
    ensures PopPdus(raw[i..]).frames == [ZEROS] + PopPdus(raw[i + 4..]).frames
  {
    hide PopPdus, Total;
    assert raw[i] == 0 && raw[i + 1] == 0 && raw[i + 2] == 0 && raw[i + 3] == 0;
    TotalIsWord(raw, i);
    CutAt(raw, i);
  }

  lemma ZerosDoNotDecode()
    ensures DecodePdu(ZEROS).None?
  {
  }

  lemma PackLast(w: nat, v: nat)
    requires w > 0
    ensures PackInt(w, v) == PackInt(w - 1, v / 256) + [v % 256]
  {
  }

  lemma {:induction false} PackZero(w: nat)
    ensures PackInt(w, 0) == seq(w, i => 0)
  {
    if w > 0 { PackZero(w - 1); }
  }

  /** The high bytes of a small number are 0. */
  lemma {:induction false} PackHigh(w: nat, v: nat, k: nat)
    requires k <= w && v < Pow256(w - k)
    ensures PackInt(w, v)[..k] == seq(k, i => 0)
  {
    if w == k {
      PackZero(w);
    } else {
      PackHigh(w - 1, v / 256, k);
      PackLast(w, v);
      assert PackInt(w, v)[..k] == PackInt(w - 1, v / 256)[..k];
    }
  }

  /** The upper half of a time, in units of 2^32 nanoseconds. */
  lemma PackUpper(v: nat)
    ensures PackInt(8, v)[..4] == PackInt(4, v / U32)
  {
    hide PackInt;
    PackLast(8, v);
    PackLast(7, v / 256);
    PackLast(6, v / 256 / 256);
    PackLast(5, v / 256 / 256 / 256);
    assert v / 256 / 256 / 256 / 256 == v / U32;
  }

  /** A length just over 2^20, as it is written. */
  lemma LengthBytes(low: nat)
    requires low < 256
    ensures PackInt(4, 0x10_0000 + low) == [0, 16, 0, low]
  {
    hide PackInt;
    PackLast(4, 0x10_0000 + low);
    PackLast(3, 0x1000);
    PackLast(2, 0x10);
    PackZero(1);
    assert (0x10_0000 + low) / 256 == 0x1000 && (0x10_0000 + low) % 256 == low;
  }

  /** The number 1, as it is written. */
  lemma OneBytes()
    ensures PackInt(8, 1) == [0, 0, 0, 0, 0, 0, 0, 1]
  {
    hide PackInt;
    PackLast(8, 1);
    PackZero(7);
  }

  lemma PackPush(w: nat, v: nat, r: Record)
    requires v < Pow256(w) && Fits(r)
    ensures Pack(Push(w, v, r)) == PackInt(w, v) + Pack(r)
  {
  }

  lemma PackByte(v: nat, r: Record)
    requires v < 256 && Fits(r)
    ensures Pow256(1) == 256 && Pack(Push(1, v, r)) == [v] + Pack(r)
  {
    PackLast(1, v);
  }

  /** The last three fields of a header. */
  lemma LastFields(seqNo: nat, clientNs: nat, bodyLen: nat)
    requires seqNo < U64 && clientNs < U64 && bodyLen < U32
    ensures Pow256(4) == U32 && Pow256(8) == U64
    ensures Pack(Push(8, seqNo, Push(8, clientNs, Push(4, bodyLen, Nil)))) ==
      PackInt(8, seqNo) + (PackInt(8, clientNs) + PackInt(4, bodyLen))
  {
    Widths();
    var r8 := Push(4, bodyLen, Nil);
    PackPush(4, bodyLen, Nil);
    PackPush(8, clientNs, r8);
    PackPush(8, seqNo, Push(8, clientNs, r8));
    assert PackInt(4, bodyLen) + [] == PackInt(4, bodyLen);
  }

  /** The header of an ECHO, field by field. */
  lemma HeaderBytes(flags: nat, seqNo: nat, clientNs: nat, bodyLen: nat)
    requires HeaderFits(ECHO, flags, seqNo, clientNs, bodyLen)
    ensures Header(ECHO, flags, seqNo, clientNs, bodyLen) ==
      [78] + ([80] + ([2] + ([1] + ([flags] + ([0] +
        (PackInt(8, seqNo) + (PackInt(8, clientNs) + PackInt(4, bodyLen))))))))
  {
    hide Pack, PackInt, Size;
    LastFields(seqNo, clientNs, bodyLen);
    var r6 := Push(8, seqNo, Push(8, clientNs, Push(4, bodyLen, Nil)));
    var r5 := Push(1, 0, r6);
    var r4 := Push(1, flags, r5);
    var r3 := Push(1, ECHO, r4);
    var r2 := Push(1, 2, r3);
    var r1 := Push(1, 80, r2);
    PackByte(0, r6);
    PackByte(flags, r5);
    PackByte(ECHO, r4);
    PackByte(2, r3);
    PackByte(80, r2);
    PackByte(78, r1);
  }

  /** Where the fields of an ECHO are in its bytes. */
  lemma PduBytes(flags: nat, seqNo: nat, clientNs: nat, body: bytes)
    requires HeaderFits(ECHO, flags, seqNo, clientNs, |body|)
    ensures var raw := Protocol.Pdu(ECHO, flags, seqNo, clientNs, body);
            && raw[..4] == PackInt(4, |body| + INNER_HDR_SIZE)
            && raw[4] == 78 && raw[5] == 80 && raw[6] == 2 && raw[7] == 1 && raw[8] == flags && raw[9] == 0
            && raw[10..18] == PackInt(8, seqNo) && raw[18..26] == PackInt(8, clientNs) && raw[30..] == body
  {
    hide Header, PackInt;
    HeaderBytes(flags, seqNo, clientNs, |body|);
    var raw := Protocol.Pdu(ECHO, flags, seqNo, clientNs, body);
    var h := Header(ECHO, flags, seqNo, clientNs, |body|);
    assert h[6..14] == PackInt(8, seqNo) && h[14..22] == PackInt(8, clientNs);
    assert raw == PackInt(4, |body| + INNER_HDR_SIZE) + (h + body);
    assert raw[4..30] == h;
    assert forall i :: 4 <= i < 30 ==> raw[i] == raw[4..30][i - 4];
    assert raw[10..18] == raw[4..30][6..14] && raw[18..26] == raw[4..30][14..22];
  }

  // ----- just beyond the limit -----

  /** The first 13 bytes of an ECHO just beyond the limit: its length, the header up to the high bytes of the number. */
  predicate StartsOversize(raw: bytes)
  {
    && |raw| >= 30
    && raw[0] == 0 && raw[1] == 16 && raw[2] == 0 && raw[3] > INNER_HDR_SIZE
    && raw[4] == 78 && raw[5] == 80 && raw[6] == 2 && raw[7] == 1 && raw[8] > 0
    && raw[9..13] == ZEROS
  }

  lemma OversizeStarts(flags: byte, seqNo: nat, clientNs: nat, body: bytes)
    requires MAX_BODY < |body| <= MAX_BODY + TELEMETRY_SIZE && flags > 0
    requires seqNo < 0x100_0000_0000 && clientNs < U64
    ensures StartsOversize(Protocol.Pdu(ECHO, flags, seqNo, clientNs, body))
  {
    hide PackInt, Protocol.Pdu;
    PduBytes(flags, seqNo, clientNs, body);
    LengthBytes(|body| - MAX_BODY + INNER_HDR_SIZE);
    var raw := Protocol.Pdu(ECHO, flags, seqNo, clientNs, body);
    assert raw[0] == raw[..4][0] && raw[1] == raw[..4][1] && raw[2] == raw[..4][2] && raw[3] == raw[..4][3];
    assert Pow256(5) == 0x100_0000_0000;
    PackHigh(8, seqNo, 3);
    assert forall i :: 0 <= i < 3 ==> raw[10 + i] == raw[10..18][..3][i] == 0;
    assert raw[10] == 0 && raw[11] == 0 && raw[12] == 0;
  }

  /** Its length and the first bytes of its header are dropped. */
  lemma LengthDropped(raw: bytes)
    requires StartsOversize(raw)
    ensures PopPdus(raw) == PopPdus(raw[5..])
  {
    hide PopPdus;
    assert raw[0..] == raw;
    SkipAt(raw, 0);
    SkipAt(raw, 1);
    SkipAt(raw, 2);
    SkipAt(raw, 3);
    SkipAt(raw, 4);
  }

  lemma HeaderDropped(raw: bytes)
    requires StartsOversize(raw)
    ensures PopPdus(raw[5..]) == PopPdus(raw[9..])
  {
    hide PopPdus;
    SkipAt(raw, 5);
    SkipAt(raw, 6);
    SkipAt(raw, 7);
    assert raw[9..13][0] == 0 && raw[9..13][1] == 0 && raw[9..13][2] == 0;
    SkipAt(raw, 8);
  }

  /** And the reserved byte, with the three high bytes of the number, is cut off as a PDU. */
  lemma OversizeFrames(raw: bytes)
    requires StartsOversize(raw)
    ensures PopPdus(raw).frames == [ZEROS] + PopPdus(raw[13..]).frames
  {
    hide PopPdus;
    LengthDropped(raw);
    HeaderDropped(raw);
    ZerosAt(raw, 9);
  }

  /**
   An ECHO with a body over the limit by at most a trailer loses its length and half of its header to
   resynchronisation, and the first PDU that comes out of it is four zero bytes: the reserved byte and the high
   bytes of the number, whatever its time and its body are.
   */
  lemma FirstPieceIsZeros(flags: byte, seqNo: nat, clientNs: nat, body: bytes)
    requires MAX_BODY < |body| <= MAX_BODY + TELEMETRY_SIZE && flags > 0
    requires seqNo < 0x100_0000_0000 && clientNs < U64
    ensures var raw := Protocol.Pdu(ECHO, flags, seqNo, clientNs, body);
            PopPdus(raw).frames == [ZEROS] + PopPdus(raw[13..]).frames
  {
    hide PopPdus, Protocol.Pdu, StartsOversize;
    OversizeStarts(flags, seqNo, clientNs, body);
    OversizeFrames(Protocol.Pdu(ECHO, flags, seqNo, clientNs, body));
  }

  // ----- a PDU inside a payload -----

  /** At q the parser drops a byte, or cuts off something that ends before `stop`. */
  predicate Passes(raw: bytes, q: nat, stop: nat)
  {
    q + LEN_SIZE <= |raw| && (Word(raw, q) > MAX_INNER || q + LEN_SIZE + Word(raw, q) <= stop)
  }

  /** If it does so everywhere before `stop`, it comes to `stop`, and finds there what it would find starting there. */
  lemma {:induction false} Lands(raw: bytes, i: nat, stop: nat)
    requires i <= stop <= |raw| && forall q :: i <= q < stop ==> Passes(raw, q, stop)
    ensures forall f :: f in PopPdus(raw[stop..]).frames ==> f in PopPdus(raw[i..]).frames
    decreases stop - i
  {
    hide PopPdus, Word, Total;
    if i < stop {
      assert Passes(raw, i, stop);
      TotalIsWord(raw, i);
      if Word(raw, i) > MAX_INNER {
        SkipAt(raw, i);
        Lands(raw, i + 1, stop);
      } else {
        CutAt(raw, i);
        Lands(raw, i + LEN_SIZE + Word(raw, i), stop);
      }
    }
  }

  /** A payload of n bytes that ends in `tail`, behind bytes that no length the parser believes begins with. */
  function Filled(n: nat, tail: bytes): (payload: bytes)
    requires |tail| <= n
    ensures |payload| == n
  {
    seq(n - |tail|, i => 255) + tail
  }

  /** The parser comes through the filling from anywhere inside it. */
  lemma FillingPasses(raw: bytes, n: nat, tail: bytes, q: nat)
    requires |tail| <= n && |tail| >= LEN_SIZE && |raw| == 30 + n && raw[30..] == Filled(n, tail)
    requires 30 <= q < 30 + n - |tail|
    ensures Passes(raw, q, 30 + n - |tail|)
  {
    assert raw[q] == raw[30..][q - 30] == 255;
  }

  lemma TailIsCut(raw: bytes, n: nat, tail: bytes, i: nat, stop: nat)
    requires |tail| <= n && IsPdu(tail) && |raw| == 30 + n && raw[30..] == Filled(n, tail)
    requires i <= stop == 30 + n - |tail| && forall q :: i <= q < 30 ==> Passes(raw, q, stop)
    ensures tail in PopPdus(raw[i..]).frames
  {
    hide PopPdus, IsPdu, Passes;
    forall q | i <= q < stop ensures Passes(raw, q, stop) {
      if q >= 30 {
        assert |tail| >= LEN_SIZE by { ShortestPdu(tail); }
        FillingPasses(raw, n, tail, q);
      }
    }
    Lands(raw, i, stop);
    assert raw[stop..] == raw[30..][n - |tail|..] == tail;
    PopWhole([tail]);
    assert Concat([tail]) == tail;
  }

  lemma ShortestPdu(raw: bytes)
    requires IsPdu(raw)
    ensures |raw| >= LEN_SIZE
  {
  }

  /** However the header reads, nothing that starts in it is long enough to reach the end of a longer payload. */
  lemma FarTailIsCut(raw: bytes, n: nat, tail: bytes)
    requires |tail| <= n && IsPdu(tail) && |raw| == 30 + n && raw[30..] == Filled(n, tail)
    requires n >= MAX_INNER + 3 + |tail|
    ensures tail in PopPdus(raw).frames
  {
    hide PopPdus, IsPdu, Word;
    var stop := 30 + n - |tail|;
    assert forall q :: 0 <= q < 30 ==> Passes(raw, q, stop);
    assert raw[0..] == raw;
    TailIsCut(raw, n, tail, 0, stop);
  }

  /** A PDU that a payload of at least 1,048,635 bytes ends with is found, whatever the number and the time. */
  lemma FarTailCutOut(flags: byte, seqNo: nat, clientNs: nat, n: nat, tail: bytes)
    requires |tail| == 30 && IsPdu(tail) && n >= MAX_INNER + 33 && HeaderFits(ECHO, flags, seqNo, clientNs, n)
    ensures tail in PopPdus(Protocol.Pdu(ECHO, flags, seqNo, clientNs, Filled(n, tail))).frames
  {
    hide Protocol.Pdu, PopPdus, IsPdu, PackInt, Filled;
    PduBytes(flags, seqNo, clientNs, Filled(n, tail));
    FarTailIsCut(Protocol.Pdu(ECHO, flags, seqNo, clientNs, Filled(n, tail)), n, tail);
  }

  /** A time between 2^35 and 2^51 nanoseconds, half a minute and 26 days. */
  predicate InReach(clock: nat)
  {
    8 * U32 <= clock < 0x8_0000 * U32
  }

  lemma OneAt(raw: bytes)
    requires |raw| >= 30 && raw[10..18] == PackInt(8, 1)
    ensures raw[13..17] == ZEROS && raw[17] == 1
  {
    hide PackInt;
    OneBytes();
    var number := raw[10..18];
    assert raw[13] == number[3] && raw[14] == number[4] && raw[15] == number[5] && raw[16] == number[6];
    assert raw[17] == number[7];
  }

  /** After the number 1, what is cut off next has the seconds of the time for its length and ends in the filling. */
  lemma NearTailIsCut(raw: bytes, clock: nat, n: nat, tail: bytes)
    requires |tail| == 30 && IsPdu(tail) && n > MAX_BODY && |raw| == 30 + n && raw[30..] == Filled(n, tail)
    requires StartsOversize(raw) && raw[10..18] == PackInt(8, 1) && raw[18..26] == PackInt(8, clock) && InReach(clock)
    ensures tail in PopPdus(raw).frames
  {
    hide PopPdus, IsPdu, PackInt, Total, StartsOversize;
    OversizeFrames(raw);
    OneAt(raw);
    ZerosAt(raw, 13);
    SkipAt(raw, 17);
    TimeIsLength(raw, clock);
    var j := 22 + clock / U32;
    CutAt(raw, 18);
    TailIsCut(raw, n, tail, j, n);
  }

  lemma TimeIsLength(raw: bytes, clock: nat)
    requires |raw| >= 30 && raw[18..26] == PackInt(8, clock) && clock < U64
    ensures Total(raw[18..]) == clock / U32
  {
    hide PackInt, UnpackInt;
    Widths();
    PackUpper(clock);
    UnpackPackInt(4, clock / U32);
    assert raw[18..][..4] == raw[18..26][..4];
  }

  /** The payloads and times for which the parser certainly comes to a PDU of 30 bytes at the end of the first ECHO. */
  predicate Reaches(n: nat, clock: nat)
  {
    clock < U64 && (n >= MAX_INNER + 33 || (n > MAX_BODY && InReach(clock)))
  }

  /** So it finds a PDU that a payload beyond the limit ends with. */
  lemma TailCutOut(flags: byte, clock: nat, n: nat, tail: bytes)
    requires |tail| == 30 && IsPdu(tail) && flags > 0 && Reaches(n, clock) && n + INNER_HDR_SIZE < U32
    ensures tail in PopPdus(Protocol.Pdu(ECHO, flags, 1, clock, Filled(n, tail))).frames
  {
    hide Protocol.Pdu, PopPdus, IsPdu, PackInt, StartsOversize, Filled;
    if n >= MAX_INNER + 33 {
      FarTailCutOut(flags, 1, clock, n, tail);
    } else {
      var raw := Protocol.Pdu(ECHO, flags, 1, clock, Filled(n, tail));
      PduBytes(flags, 1, clock, Filled(n, tail));
      OversizeStarts(flags, 1, clock, Filled(n, tail));
      NearTailIsCut(raw, clock, n, tail);
    }
  }
}
