/**
 The binary PDU format (src/protocol.py): header, ECHO telemetry trailer, STATUS body, and the
 server's answer to one request.
 */
module Protocol {
  import opened Wrappers
  import opened Wire

  const ECHO := 1
  const STATUS := 2

  const FLAG_REQ := 1
  const FLAG_RESP := 2
  const FLAG_TELEMETRY := 4

  const LEN_SIZE := 4
  const MAX_BODY := 1024 * 1024

  // magic 'N' 'P', version, type, flags, reserved, seq, client_ns, body_len
  const INNER_HDR := Field(1, Field(1, Field(1, Field(1, Field(1, Field(1, Field(8, Field(8, Field(4, End)))))))))
  const INNER_HDR_SIZE := 26
  const TELEMETRY :=
    Field(8, Field(8, Field(8, Field(4, Field(4, Field(4, Field(8, Field(8,
      Field(4, Field(4, Field(4, Field(4, End))))))))))))
  const TELEMETRY_SIZE := 68
  const STATUS_HEAD :=
    Field(8, Field(8, Field(8, Field(4, Field(4, Field(4, Field(8, Field(8,
      Field(4, Field(4, Field(4, Field(4, Field(4, Field(2, Field(2, End)))))))))))))))
  const STATUS_HEAD_SIZE := 76
  const STATUS_COUNT := 2

  const U16 := 0x1_0000
  const U32 := 0x1_0000_0000
  const U64 := 0x1_0000_0000_0000_0000
  const KERNEL_UNKNOWN := 0xFFFF_FFFF

  /** One flag bit of the flags byte. */
  predicate HasFlag(flags: nat, bit: nat)
    requires bit > 0
  {
    (flags / bit) % 2 == 1
  }

  datatype Telemetry = Telemetry(
    serverMono: int, received: int, completed: int,
    readPending: int, processing: int, responsePending: int,
    rxBytes: int, txBytes: int, intervalRx: int, intervalTx: int,
    kernelSend: Option<int>, kernelRecv: Option<int>)

  datatype StatusSnapshot = StatusSnapshot(
    serverMono: int, received: int, completed: int,
    readPending: int, processing: int, responsePending: int,
    rxBytes: int, txBytes: int, intervalRx: int, intervalTx: int,
    bucketMs: int, kernelSend: Option<int>, kernelRecv: Option<int>,
    recvSlices: seq<int>, respSlices: seq<int>)

  datatype Frame = Frame(
    mtype: nat, flags: nat, seqNo: nat, clientNs: nat,
    payload: bytes, telemetry: Option<Telemetry>, raw: bytes)
  {
    predicate IsReq() { HasFlag(flags, FLAG_REQ) }
    predicate IsResp() { HasFlag(flags, FLAG_RESP) }
  }

  // ----- layouts -----

  lemma HeaderSize()
    ensures Size(INNER_HDR) == INNER_HDR_SIZE
  {
  }

  lemma TelemetrySize()
    ensures Size(TELEMETRY) == TELEMETRY_SIZE
  {
  }

  lemma StatusHeadSize()
    ensures Size(STATUS_HEAD) == STATUS_HEAD_SIZE
  {
    var tail := Field(4, Field(4, Field(4, Field(4, Field(4, Field(2, Field(2, End)))))));
    assert Size(tail) == 24;
    assert STATUS_HEAD == Field(8, Field(8, Field(8, Field(4, Field(4, Field(4, Field(8, Field(8, tail))))))));
  }

  lemma Widths()
    ensures Pow256(1) == 256 && Pow256(2) == U16 && Pow256(4) == U32 && Pow256(8) == U64
  {
  }

  // ----- PDU encoders -----

  predicate HeaderFits(mtype: nat, flags: nat, seqNo: nat, clientNs: nat, bodyLen: nat)
  {
    mtype < 256 && flags < 256 && seqNo < U64 && clientNs < U64 && bodyLen + INNER_HDR_SIZE < U32
  }

  function HeaderRecord(mtype: nat, flags: nat, reserved: nat, seqNo: nat, clientNs: nat, bodyLen: nat): (r: Record)
    requires HeaderFits(mtype, flags, seqNo, clientNs, bodyLen) && reserved < 256
    ensures Fits(r) && Shape(r) == INNER_HDR
  {
    Widths();
    Push(1, 78, Push(1, 80, Push(1, 2, Push(1, mtype, Push(1, flags, Push(1, reserved,
      Push(8, seqNo, Push(8, clientNs, Push(4, bodyLen, Nil)))))))))
  }

  function Header(mtype: nat, flags: nat, seqNo: nat, clientNs: nat, bodyLen: nat): (hdr: bytes)
    requires HeaderFits(mtype, flags, seqNo, clientNs, bodyLen)
    ensures |hdr| == INNER_HDR_SIZE
  {
    HeaderSize();
    Pack(HeaderRecord(mtype, flags, 0, seqNo, clientNs, bodyLen))
  }

  function Inner(mtype: nat, flags: nat, seqNo: nat, clientNs: nat, body: bytes): (inner: bytes)
    requires HeaderFits(mtype, flags, seqNo, clientNs, |body|)
    ensures |inner| == INNER_HDR_SIZE + |body|
  {
    Header(mtype, flags, seqNo, clientNs, |body|) + body
  }

  function WrapPdu(inner: bytes): (raw: bytes)
    requires |inner| < U32
    ensures |raw| == LEN_SIZE + |inner|
  {
    PackInt(LEN_SIZE, |inner|) + inner
  }

  function Pdu(mtype: nat, flags: nat, seqNo: nat, clientNs: nat, body: bytes): (raw: bytes)
    requires HeaderFits(mtype, flags, seqNo, clientNs, |body|)
    ensures |raw| == LEN_SIZE + INNER_HDR_SIZE + |body|
  {
    WrapPdu(Inner(mtype, flags, seqNo, clientNs, body))
  }

  function EncodeEchoRequest(seqNo: nat, clientNs: nat, payload: bytes): bytes
    requires HeaderFits(ECHO, FLAG_REQ, seqNo, clientNs, |payload|)
  {
    Pdu(ECHO, FLAG_REQ, seqNo, clientNs, payload)
  }

  /** An empty trailer counts as no telemetry, as an empty bytes object is false in Python. */
  function EncodeEchoResponse(seqNo: nat, clientNs: nat, payload: bytes, telemetry: bytes): bytes
    requires HeaderFits(ECHO, FLAG_RESP + FLAG_TELEMETRY, seqNo, clientNs, |payload| + |telemetry|)
  {
    if telemetry != [] then Pdu(ECHO, FLAG_RESP + FLAG_TELEMETRY, seqNo, clientNs, payload + telemetry)
    else Pdu(ECHO, FLAG_RESP, seqNo, clientNs, payload)
  }

  function EncodeStatusRequest(seqNo: nat, clientNs: nat): bytes
    requires HeaderFits(STATUS, FLAG_REQ, seqNo, clientNs, 0)
  {
    Pdu(STATUS, FLAG_REQ, seqNo, clientNs, [])
  }

  function EncodeStatusResponse(seqNo: nat, clientNs: nat, body: bytes): bytes
    requires HeaderFits(STATUS, FLAG_RESP, seqNo, clientNs, |body|)
  {
    Pdu(STATUS, FLAG_RESP, seqNo, clientNs, body)
  }

  // ----- PDU decoder -----

  /** What the decoder makes of a body once the header is accepted. */
  function SplitBody(mtype: nat, flags: nat, seqNo: nat, clientNs: nat, body: bytes, raw: bytes): Option<Frame>
  {
    if mtype == ECHO && HasFlag(flags, FLAG_TELEMETRY) then
      if |body| < TELEMETRY_SIZE then None
      else
        var cut := |body| - TELEMETRY_SIZE;
        match DecodeTelemetry(body[cut..])
        case None => None
        case Some(t) => Some(Frame(mtype, flags, seqNo, clientNs, body[..cut], Some(t), raw))
    else Some(Frame(mtype, flags, seqNo, clientNs, body, None, raw))
  }

  function DecodeInner(inner: bytes): Option<Frame>
    requires |inner| < U32
  {
    HeaderSize();
    if |inner| < INNER_HDR_SIZE then None
    else
      var h := Unpack(INNER_HDR, inner);
      var mtype, bodyLen := At(h, 3), At(h, 8);
      if At(h, 0) != 78 || At(h, 1) != 80 || At(h, 2) != 2 then None
      else if mtype != ECHO && mtype != STATUS then None
      else if bodyLen > MAX_BODY || bodyLen != |inner| - INNER_HDR_SIZE then None
      else SplitBody(mtype, At(h, 4), At(h, 6), At(h, 7), inner[INNER_HDR_SIZE..], WrapPdu(inner))
  }

  function DecodePdu(raw: bytes): Option<Frame>
  {
    if |raw| < LEN_SIZE + INNER_HDR_SIZE then None
    else
      var total := UnpackInt(raw[..LEN_SIZE]);
      if total != |raw| - LEN_SIZE || total > MAX_BODY + INNER_HDR_SIZE then None
      else DecodeInner(raw[LEN_SIZE..])
  }

  // ----- telemetry trailer -----

  function Max(a: int, b: int): (m: int)
    ensures a <= m && b <= m && (m == a || m == b)
  {
    if a > b then a else b
  }

  function Min(a: int, b: int): (m: int)
    ensures m <= a && m <= b && (m == a || m == b)
  {
    if a < b then a else b
  }

  function PackKernel(value: Option<int>): (v: nat)
    ensures v < U32
  {
    if value.None? || value.value < 0 then KERNEL_UNKNOWN else Min(value.value, KERNEL_UNKNOWN - 1)
  }

  function UnpackKernel(v: nat): Option<int>
  {
    if v == KERNEL_UNKNOWN then None else Some(v)
  }

  /** The kernel sizes a peer can be told: unknown, or saturated just below the unknown marker. */
  function NormalKernel(value: Option<int>): Option<int>
  {
    if value.None? || value.value < 0 then None else Some(Min(value.value, 0xFFFF_FFFE))
  }

  predicate TelemetryInRange(t: Telemetry)
  {
    && 0 <= t.serverMono < U64 && 0 <= t.received < U64 && 0 <= t.completed < U64
    && t.readPending < U32 && t.processing < U32 && t.responsePending < U32
    && t.rxBytes < U64 && t.txBytes < U64 && t.intervalRx < U32 && t.intervalTx < U32
  }

  function TelemetryRecord(t: Telemetry): (r: Record)
    requires TelemetryInRange(t)
    ensures Shape(r) == TELEMETRY && Fits(r)
  {
    Widths();
    Push(8, t.serverMono, Push(8, t.received, Push(8, t.completed,
      Push(4, Max(0, t.readPending), Push(4, Max(0, t.processing), Push(4, Max(0, t.responsePending),
      Push(8, Max(0, t.rxBytes), Push(8, Max(0, t.txBytes),
      Push(4, Max(0, t.intervalRx), Push(4, Max(0, t.intervalTx),
      Push(4, PackKernel(t.kernelSend), Push(4, PackKernel(t.kernelRecv), Nil))))))))))))
  }

  function EncodeTelemetry(t: Telemetry): (blob: bytes)
    requires TelemetryInRange(t)
    ensures |blob| == TELEMETRY_SIZE
  {
    TelemetrySize();
    Pack(TelemetryRecord(t))
  }

  function DecodeTelemetry(blob: bytes): (t: Option<Telemetry>)
    ensures t.Some? <==> |blob| >= TELEMETRY_SIZE
  {
    TelemetrySize();
    if |blob| < TELEMETRY_SIZE then None
    else
      Some(TelemetryOf(Unpack(TELEMETRY, blob)))
  }

  function TelemetryOf(v: Record): Telemetry
  {
    Telemetry(At(v, 0), At(v, 1), At(v, 2), At(v, 3), At(v, 4), At(v, 5), At(v, 6), At(v, 7),
              At(v, 8), At(v, 9), UnpackKernel(At(v, 10)), UnpackKernel(At(v, 11)))
  }

  function NormalTelemetry(t: Telemetry): Telemetry
  {
    Telemetry(t.serverMono, t.received, t.completed,
              Max(0, t.readPending), Max(0, t.processing), Max(0, t.responsePending),
              Max(0, t.rxBytes), Max(0, t.txBytes), Max(0, t.intervalRx), Max(0, t.intervalTx),
              NormalKernel(t.kernelSend), NormalKernel(t.kernelRecv))
  }

  lemma KernelRoundTrip(value: Option<int>)
    ensures UnpackKernel(PackKernel(value)) == NormalKernel(value)
  {
  }

  lemma TelemetryOfRecord(t: Telemetry)
    requires TelemetryInRange(t)
    ensures TelemetryOf(TelemetryRecord(t)) == NormalTelemetry(t)
  {
    hide PackKernel, UnpackKernel, NormalKernel;
    KernelRoundTrip(t.kernelSend);
    KernelRoundTrip(t.kernelRecv);
  }

  /** A trailer reads back as the telemetry it was made from, up to clamping. */
  lemma TelemetryRoundTrip(t: Telemetry)
    requires TelemetryInRange(t)
    ensures DecodeTelemetry(EncodeTelemetry(t)) == Some(NormalTelemetry(t))
  {
    hide TelemetryOf, TelemetryRecord, NormalTelemetry, Pack, Unpack;
    TelemetrySize();
    TelemetryOfRecord(t);
    var r := TelemetryRecord(t);
    UnpackPack(r, []);
    assert Pack(r) + [] == EncodeTelemetry(t);
  }

  lemma TelemetryOfInRange(v: Record)
    requires Fits(v) && Shape(v) == TELEMETRY
    ensures TelemetryInRange(TelemetryOf(v))
    ensures At(v, 10) < U32 && At(v, 11) < U32
  {
    Widths();
    FitsAt(v, 0); FitsAt(v, 1); FitsAt(v, 2); FitsAt(v, 3); FitsAt(v, 4); FitsAt(v, 5);
    FitsAt(v, 6); FitsAt(v, 7); FitsAt(v, 8); FitsAt(v, 9); FitsAt(v, 10); FitsAt(v, 11);
  }

  lemma TelemetryRecordOf(v: Record)
    requires Fits(v) && Shape(v) == TELEMETRY
    ensures TelemetryInRange(TelemetryOf(v)) && TelemetryRecord(TelemetryOf(v)) == v
  {
    TelemetryOfInRange(v);
    var r := TelemetryRecord(TelemetryOf(v));
    forall i | 0 <= i < 12 ensures At(r, i) == At(v, i) {
      if i < 6 {
        assert i == 0 || i == 1 || i == 2 || i == 3 || i == 4 || i == 5;
      } else {
        assert i == 6 || i == 7 || i == 8 || i == 9 || i == 10 || i == 11;
      }
    }
    SameFields(r, v, 12);
  }

  /** Every 68-byte trailer is the encoding of the telemetry it reads as. */
  lemma TelemetryBytes(blob: bytes)
    requires |blob| == TELEMETRY_SIZE
    ensures DecodeTelemetry(blob).Some? && TelemetryInRange(DecodeTelemetry(blob).value)
    ensures EncodeTelemetry(DecodeTelemetry(blob).value) == blob
  {
    hide Pack, Unpack, TelemetryRecord, TelemetryOf, TelemetryInRange;
    TelemetrySize();
    var v := Unpack(TELEMETRY, blob);
    TelemetryRecordOf(v);
    PackUnpack(TELEMETRY, blob);
    assert blob[..TELEMETRY_SIZE] == blob;
  }

  lemma TelemetryOffsets()
    ensures OffsetOf(TELEMETRY, 0) == 0 && OffsetOf(TELEMETRY, 1) == 8 && OffsetOf(TELEMETRY, 2) == 16
    ensures OffsetOf(TELEMETRY, 3) == 24 && OffsetOf(TELEMETRY, 4) == 28 && OffsetOf(TELEMETRY, 5) == 32
    ensures OffsetOf(TELEMETRY, 6) == 36 && OffsetOf(TELEMETRY, 7) == 44 && OffsetOf(TELEMETRY, 8) == 52
    ensures OffsetOf(TELEMETRY, 9) == 56 && OffsetOf(TELEMETRY, 10) == 60 && OffsetOf(TELEMETRY, 11) == 64
    ensures Arity(TELEMETRY) == 12
  {
  }

  lemma TelemetryWidths()
    ensures WidthAt(TELEMETRY, 0) == 8 && WidthAt(TELEMETRY, 1) == 8 && WidthAt(TELEMETRY, 2) == 8
    ensures WidthAt(TELEMETRY, 3) == 4 && WidthAt(TELEMETRY, 4) == 4 && WidthAt(TELEMETRY, 5) == 4
    ensures WidthAt(TELEMETRY, 6) == 8 && WidthAt(TELEMETRY, 7) == 8 && WidthAt(TELEMETRY, 8) == 4
    ensures WidthAt(TELEMETRY, 9) == 4 && WidthAt(TELEMETRY, 10) == 4 && WidthAt(TELEMETRY, 11) == 4
  {
  }

  /** The twelve numbers of a trailer and where they are. */
  lemma TelemetryFields(blob: bytes)
    requires |blob| >= TELEMETRY_SIZE
    ensures var t := DecodeTelemetry(blob).value;
            && t.serverMono == UnpackInt(blob[0..8]) && t.received == UnpackInt(blob[8..16])
            && t.completed == UnpackInt(blob[16..24]) && t.readPending == UnpackInt(blob[24..28])
            && t.processing == UnpackInt(blob[28..32]) && t.responsePending == UnpackInt(blob[32..36])
            && t.rxBytes == UnpackInt(blob[36..44]) && t.txBytes == UnpackInt(blob[44..52])
            && t.intervalRx == UnpackInt(blob[52..56]) && t.intervalTx == UnpackInt(blob[56..60])
            && t.kernelSend == Known(UnpackInt(blob[60..64])) && t.kernelRecv == Known(UnpackInt(blob[64..68]))
  {
    hide Unpack, UnpackInt, At, OffsetOf, WidthAt, Arity, Size;
    TelemetrySize();
    TelemetryOffsets();
    TelemetryWidths();
    FieldAtOffset(TELEMETRY, blob, 0, 0, 8);
    FieldAtOffset(TELEMETRY, blob, 1, 8, 16);
    FieldAtOffset(TELEMETRY, blob, 2, 16, 24);
    FieldAtOffset(TELEMETRY, blob, 3, 24, 28);
    FieldAtOffset(TELEMETRY, blob, 4, 28, 32);
    FieldAtOffset(TELEMETRY, blob, 5, 32, 36);
    FieldAtOffset(TELEMETRY, blob, 6, 36, 44);
    FieldAtOffset(TELEMETRY, blob, 7, 44, 52);
    FieldAtOffset(TELEMETRY, blob, 8, 52, 56);
    FieldAtOffset(TELEMETRY, blob, 9, 56, 60);
    FieldAtOffset(TELEMETRY, blob, 10, 60, 64);
    FieldAtOffset(TELEMETRY, blob, 11, 64, 68);
  }

  /** A kernel queue size as it is sent: all ones where it is unknown. */
  function Known(v: nat): Option<int>
  {
    if v == 0xFFFF_FFFF then None else Some(v)
  }

  // ----- PDU round trips -----

  /** Decoding an encoded PDU: accepted exactly up to the body limit, and split as its flags say. */
  lemma DecodeOfPdu(mtype: nat, flags: nat, seqNo: nat, clientNs: nat, body: bytes)
    requires HeaderFits(mtype, flags, seqNo, clientNs, |body|)
    requires mtype == ECHO || mtype == STATUS
    ensures var raw := Pdu(mtype, flags, seqNo, clientNs, body);
            DecodePdu(raw) == if |body| > MAX_BODY then None else SplitBody(mtype, flags, seqNo, clientNs, body, raw)
  {
    hide SplitBody, PackInt, UnpackInt, Pack, Unpack;
    HeaderSize();
    var h := HeaderRecord(mtype, flags, 0, seqNo, clientNs, |body|);
    var inner := Inner(mtype, flags, seqNo, clientNs, body);
    var raw := WrapPdu(inner);
    Widths();
    UnpackPackInt(LEN_SIZE, |inner|);
    assert raw[..LEN_SIZE] == PackInt(LEN_SIZE, |inner|);
    assert raw[LEN_SIZE..] == inner;
    UnpackPack(h, body);
    assert Unpack(INNER_HDR, inner) == h;
    assert inner[INNER_HDR_SIZE..] == body;
  }

  /** Any payload followed by a trailer is split back at the trailer, whatever the payload looks like. */
  lemma EchoResponseRoundTrip(seqNo: nat, clientNs: nat, payload: bytes, trailer: bytes)
    requires HeaderFits(ECHO, FLAG_RESP + FLAG_TELEMETRY, seqNo, clientNs, |payload| + |trailer|)
    requires |trailer| == TELEMETRY_SIZE
    ensures var raw := EncodeEchoResponse(seqNo, clientNs, payload, trailer);
            DecodePdu(raw) ==
              if |payload| + TELEMETRY_SIZE > MAX_BODY then None
              else Some(Frame(ECHO, 6, seqNo, clientNs, payload, DecodeTelemetry(trailer), raw))
  {
    var body := payload + trailer;
    DecodeOfPdu(ECHO, 6, seqNo, clientNs, body);
    assert body[..|payload|] == payload && body[|payload|..] == trailer;
    assert DecodeTelemetry(trailer).Some?;
  }

  /** What a decoded frame says its bytes were, with the reserved byte written as 0. */
  function Reencode(f: Frame): bytes
    requires f.telemetry.Some? ==> TelemetryInRange(f.telemetry.value)
    requires HeaderFits(f.mtype, f.flags, f.seqNo, f.clientNs, |BodyOf(f)|)
  {
    Pdu(f.mtype, f.flags, f.seqNo, f.clientNs, BodyOf(f))
  }

  function BodyOf(f: Frame): bytes
    requires f.telemetry.Some? ==> TelemetryInRange(f.telemetry.value)
  {
    f.payload + if f.telemetry.Some? then EncodeTelemetry(f.telemetry.value) else []
  }

  const RESERVED_AT := 9

  /** What acceptance means for the bytes: a full header record, a body within the limit, nothing else. */
  lemma AcceptedParts(raw: bytes) returns (h: Record)
    requires DecodePdu(raw).Some?
    ensures Fits(h) && Shape(h) == INNER_HDR
    ensures At(h, 0) == 78 && At(h, 1) == 80 && At(h, 2) == 2
    ensures At(h, 3) == ECHO || At(h, 3) == STATUS
    ensures LEN_SIZE + INNER_HDR_SIZE <= |raw| <= LEN_SIZE + INNER_HDR_SIZE + MAX_BODY
    ensures At(h, 8) == |raw| - LEN_SIZE - INNER_HDR_SIZE
    ensures raw == PackInt(LEN_SIZE, |raw| - LEN_SIZE) + (Pack(h) + raw[LEN_SIZE + INNER_HDR_SIZE..])
    ensures |Pack(h)| == INNER_HDR_SIZE
    ensures DecodePdu(raw) == SplitBody(At(h, 3), At(h, 4), At(h, 6), At(h, 7), raw[LEN_SIZE + INNER_HDR_SIZE..], raw)
  {
    hide SplitBody, PackInt, UnpackInt, Pack, Unpack;
    HeaderSize();
    var inner := raw[LEN_SIZE..];
    h := Unpack(INNER_HDR, inner);
    PackUnpack(INNER_HDR, inner);
    PackUnpackInt(raw[..LEN_SIZE]);
    assert inner == inner[..INNER_HDR_SIZE] + inner[INNER_HDR_SIZE..];
    assert inner[INNER_HDR_SIZE..] == raw[LEN_SIZE + INNER_HDR_SIZE..];
    assert WrapPdu(inner) == raw;
  }

  lemma ReservedByte(h: Record)
    requires Fits(h) && Shape(h) == INNER_HDR
    ensures |Pack(h)| == INNER_HDR_SIZE && Pack(h)[RESERVED_AT - LEN_SIZE] == At(h, 5)
  {
    HeaderSize();
    ByteFieldAt(h, 5);
  }

  lemma HeaderFieldsFit(h: Record)
    requires Fits(h) && Shape(h) == INNER_HDR
    ensures At(h, 3) < 256 && At(h, 4) < 256 && At(h, 5) < 256 && At(h, 6) < U64 && At(h, 7) < U64
  {
    Widths();
    FitsAt(h, 3); FitsAt(h, 4); FitsAt(h, 5); FitsAt(h, 6); FitsAt(h, 7);
  }

  lemma HeaderRecordOf(h: Record)
    requires Fits(h) && Shape(h) == INNER_HDR
    requires At(h, 0) == 78 && At(h, 1) == 80 && At(h, 2) == 2
    requires HeaderFits(At(h, 3), At(h, 4), At(h, 6), At(h, 7), At(h, 8)) && At(h, 5) < 256
    ensures HeaderRecord(At(h, 3), At(h, 4), At(h, 5), At(h, 6), At(h, 7), At(h, 8)) == h
  {
    var r := HeaderRecord(At(h, 3), At(h, 4), At(h, 5), At(h, 6), At(h, 7), At(h, 8));
    forall i | 0 <= i < 9 ensures At(r, i) == At(h, i) {
      assert i == 0 || i == 1 || i == 2 || i == 3 || i == 4 || i == 5 || i == 6 || i == 7 || i == 8;
    }
    SameFields(r, h, 9);
  }

  lemma BodyOfSplit(mtype: nat, flags: nat, seqNo: nat, clientNs: nat, body: bytes, raw: bytes)
    requires SplitBody(mtype, flags, seqNo, clientNs, body, raw).Some?
    ensures var f := SplitBody(mtype, flags, seqNo, clientNs, body, raw).value;
            && (f.telemetry.Some? ==> TelemetryInRange(f.telemetry.value))
            && BodyOf(f) == body
  {
    if mtype == ECHO && HasFlag(flags, FLAG_TELEMETRY) {
      var cut := |body| - TELEMETRY_SIZE;
      TelemetryBytes(body[cut..]);
      assert body == body[..cut] + body[cut..];
    }
  }

  lemma BodyOfAccepted(raw: bytes)
    requires DecodePdu(raw).Some?
    ensures var f := DecodePdu(raw).value;
            && (f.telemetry.Some? ==> TelemetryInRange(f.telemetry.value))
            && BodyOf(f) == raw[LEN_SIZE + INNER_HDR_SIZE..]
  {
    var h := AcceptedParts(raw);
    BodyOfSplit(At(h, 3), At(h, 4), At(h, 6), At(h, 7), raw[LEN_SIZE + INNER_HDR_SIZE..], raw);
  }

  /** Two header records that differ only in the reserved byte pack to bytes that differ only there. */
  lemma ReservedDecides(h: Record, zero: Record, body: bytes)
    requires Fits(h) && Shape(h) == INNER_HDR && Fits(zero) && Shape(zero) == INNER_HDR
    requires At(zero, 5) == 0 && (At(h, 5) == 0 ==> h == zero)
    ensures |Pack(h)| == INNER_HDR_SIZE
    ensures Pack(zero) + body == Pack(h) + body <==> (Pack(h) + body)[RESERVED_AT - LEN_SIZE] == 0
  {
    ReservedByte(h);
    ReservedByte(zero);
    assert (Pack(zero) + body)[RESERVED_AT - LEN_SIZE] == 0;
  }

  lemma ReencodeOf(f: Frame, h: Record, raw: bytes, body: bytes)
    requires f.telemetry.Some? ==> TelemetryInRange(f.telemetry.value)
    requires BodyOf(f) == body && |body| <= MAX_BODY
    requires Fits(h) && Shape(h) == INNER_HDR
    requires At(h, 0) == 78 && At(h, 1) == 80 && At(h, 2) == 2 && At(h, 5) < 256
    requires f.mtype == At(h, 3) && f.flags == At(h, 4) && f.seqNo == At(h, 6) && f.clientNs == At(h, 7)
    requires |body| == At(h, 8) && |Pack(h)| == INNER_HDR_SIZE
    requires HeaderFits(f.mtype, f.flags, f.seqNo, f.clientNs, |body|)
    requires raw == PackInt(LEN_SIZE, INNER_HDR_SIZE + |body|) + (Pack(h) + body)
    ensures Reencode(f) == raw <==> raw[RESERVED_AT] == 0
  {
    var zero := HeaderRecord(f.mtype, f.flags, 0, f.seqNo, f.clientNs, |body|);
    HeaderRecordOf(h);
    ReservedDecides(h, zero, body);
    var prefix := PackInt(LEN_SIZE, INNER_HDR_SIZE + |body|);
    SamePrefix(prefix, Pack(h) + body, Pack(zero) + body);
    assert raw[RESERVED_AT] == (Pack(h) + body)[RESERVED_AT - LEN_SIZE];
  }

  lemma SamePrefix(prefix: bytes, a: bytes, b: bytes)
    ensures prefix + a == prefix + b <==> a == b
  {
    assert (prefix + a)[|prefix|..] == a && (prefix + b)[|prefix|..] == b;
  }

  /**
   An accepted PDU keeps its own bytes, and re-encoding the decoded frame (trailer included) gives
   those bytes back exactly when the reserved byte is 0: it is the only byte a frame forgets.
   */
  lemma AcceptedReencodes(raw: bytes)
    requires DecodePdu(raw).Some?
    ensures var f := DecodePdu(raw).value;
            && f.raw == raw
            && (f.telemetry.Some? ==> TelemetryInRange(f.telemetry.value))
            && |raw| == LEN_SIZE + INNER_HDR_SIZE + |BodyOf(f)|
            && |BodyOf(f)| <= MAX_BODY
            && (f.telemetry.Some? <==> f.mtype == ECHO && HasFlag(f.flags, FLAG_TELEMETRY))
            && HeaderFits(f.mtype, f.flags, f.seqNo, f.clientNs, |BodyOf(f)|)
            && (Reencode(f) == raw <==> raw[RESERVED_AT] == 0)
  {
    hide Pack, Unpack, PackInt, UnpackInt, Reencode, BodyOf, At, TelemetryInRange, DecodeTelemetry;
    var f := DecodePdu(raw).value;
    var h := AcceptedParts(raw);
    BodyOfAccepted(raw);
    HeaderFieldsFit(h);
    ReencodeOf(f, h, raw, raw[LEN_SIZE + INNER_HDR_SIZE..]);
  }

  /** What the decoder accepts, byte by byte. */
  predicate Acceptable(raw: bytes)
  {
    && 30 <= |raw| <= 30 + MAX_BODY && UnpackInt(raw[..4]) == |raw| - 4
    && raw[4] == 78 && raw[5] == 80 && raw[6] == 2 && (raw[7] == 1 || raw[7] == 2)
    && UnpackInt(raw[26..30]) == |raw| - 30
    && (HasTrailer(raw) ==> |raw| >= 98)
  }

  /** An ECHO whose third flag bit is set. */
  predicate HasTrailer(raw: bytes)
    requires |raw| >= 30
  {
    raw[7] == 1 && raw[8] / 4 % 2 == 1
  }

  lemma HeaderOffsets()
    ensures OffsetOf(INNER_HDR, 0) == 0 && OffsetOf(INNER_HDR, 1) == 1 && OffsetOf(INNER_HDR, 2) == 2
    ensures OffsetOf(INNER_HDR, 3) == 3 && OffsetOf(INNER_HDR, 4) == 4 && OffsetOf(INNER_HDR, 6) == 6
    ensures OffsetOf(INNER_HDR, 7) == 14 && OffsetOf(INNER_HDR, 8) == 22 && Arity(INNER_HDR) == 9
    ensures WidthAt(INNER_HDR, 0) == 1 && WidthAt(INNER_HDR, 1) == 1 && WidthAt(INNER_HDR, 2) == 1
    ensures WidthAt(INNER_HDR, 3) == 1 && WidthAt(INNER_HDR, 4) == 1 && WidthAt(INNER_HDR, 6) == 8
    ensures WidthAt(INNER_HDR, 7) == 8 && WidthAt(INNER_HDR, 8) == 4
  {
  }

  lemma HeaderByte(inner: bytes, i: nat)
    requires |inner| >= INNER_HDR_SIZE && i < 5
    ensures At(Unpack(INNER_HDR, inner), i) == inner[i]
  {
    hide Unpack, UnpackInt, At, OffsetOf, WidthAt, Arity, Size;
    HeaderSize();
    HeaderOffsets();
    assert i == 0 || i == 1 || i == 2 || i == 3 || i == 4;
    FieldAtOffset(INNER_HDR, inner, i, i, i + 1);
    OneByte(inner, i);
  }

  /** The fields of the header, by their offsets in the whole PDU. */
  lemma HeaderFields(raw: bytes)
    requires |raw| >= LEN_SIZE + INNER_HDR_SIZE
    ensures var h := Unpack(INNER_HDR, raw[LEN_SIZE..]);
            && At(h, 0) == raw[4] && At(h, 1) == raw[5] && At(h, 2) == raw[6] && At(h, 3) == raw[7]
            && At(h, 4) == raw[8] && At(h, 6) == UnpackInt(raw[10..18]) && At(h, 7) == UnpackInt(raw[18..26])
            && At(h, 8) == UnpackInt(raw[26..30])
  {
    hide Unpack, UnpackInt, At, OffsetOf, WidthAt, Arity, Size;
    HeaderSize();
    HeaderOffsets();
    var inner := raw[LEN_SIZE..];
    HeaderByte(inner, 0);
    HeaderByte(inner, 1);
    HeaderByte(inner, 2);
    HeaderByte(inner, 3);
    HeaderByte(inner, 4);
    FieldAtOffset(INNER_HDR, inner, 6, 6, 14);
    FieldAtOffset(INNER_HDR, inner, 7, 14, 22);
    FieldAtOffset(INNER_HDR, inner, 8, 22, 26);
    assert inner[6..14] == raw[10..18] && inner[14..22] == raw[18..26] && inner[22..26] == raw[26..30];
  }

  lemma AcceptsExactly(raw: bytes)
    ensures DecodePdu(raw).Some? <==> Acceptable(raw)
  {
    hide Unpack, UnpackInt, DecodeTelemetry;
    HeaderSize();
    if |raw| >= LEN_SIZE + INNER_HDR_SIZE {
      HeaderFields(raw);
      assert raw[LEN_SIZE..][INNER_HDR_SIZE..] == raw[30..];
    }
  }

  /** The decoder, byte by byte: what it accepts, and every field of what it then returns. */
  lemma DecodesExactly(raw: bytes)
    ensures DecodePdu(raw).Some? <==> Acceptable(raw)
    ensures Acceptable(raw) ==>
              var f := DecodePdu(raw).value;
              && f.mtype == raw[7] && f.flags == raw[8] && f.raw == raw
              && f.seqNo == UnpackInt(raw[10..18]) && f.clientNs == UnpackInt(raw[18..26])
              && (f.IsReq() <==> raw[8] % 2 == 1) && (f.IsResp() <==> raw[8] / 2 % 2 == 1)
              && (if HasTrailer(raw)
                  then f.payload == raw[30..|raw| - 68] && f.telemetry == DecodeTelemetry(raw[|raw| - 68..])
                  else f.payload == raw[30..] && f.telemetry.None?)
  {
    hide Unpack, UnpackInt, DecodeTelemetry, Pack, PackInt;
    AcceptsExactly(raw);
    if Acceptable(raw) {
      HeaderFields(raw);
      AcceptedReencodes(raw);
      var body := raw[LEN_SIZE..][INNER_HDR_SIZE..];
      assert body == raw[30..];
      if |raw| >= 98 {
        assert body[..|body| - 68] == raw[30..|raw| - 68] && body[|body| - 68..] == raw[|raw| - 68..];
      }
    }
  }

  // ----- the server's answer and its identity -----

  /**
   The answer to one raw PDU. A hook that is absent is None; Some(b) is what the hook would return.
   An ECHO without telemetry comes back as it was, REQ flag included.
   */
  function DispatchBinary(raw: bytes, telemetry: Option<bytes>, status: Option<bytes>): Option<bytes>
    requires telemetry.Some? ==> |telemetry.value| <= MAX_BODY
    requires status.Some? ==> |status.value| <= MAX_BODY
  {
    match DecodePdu(raw)
    case None => None
    case Some(f) =>
      AcceptedReencodes(raw);
      if !f.IsReq() then None
      else if f.mtype == ECHO then
        if telemetry.Some? && telemetry.value != [] then
          Some(EncodeEchoResponse(f.seqNo, f.clientNs, f.payload, telemetry.value))
        else Some(raw)
      else if f.mtype == STATUS then
        if status.None? then None else Some(EncodeStatusResponse(f.seqNo, f.clientNs, status.value))
      else None
  }

  /** A STATUS answer carries the body it was given, under the request's number and time. */
  lemma StatusAnswerCarries(raw: bytes, telemetry: Option<bytes>, body: bytes)
    requires DecodePdu(raw).Some? && DecodePdu(raw).value.IsReq() && DecodePdu(raw).value.mtype == STATUS
    requires (telemetry.Some? ==> |telemetry.value| <= MAX_BODY) && |body| <= MAX_BODY
    ensures var f := DecodePdu(raw).value;
            var answer := DispatchBinary(raw, telemetry, Some(body));
            && answer.Some?
            && DecodePdu(answer.value) == Some(Frame(STATUS, FLAG_RESP, f.seqNo, f.clientNs, body, None, answer.value))
  {
    hide DecodePdu, Pdu, Reencode, BodyOf;
    AcceptedReencodes(raw);
    var f := DecodePdu(raw).value;
    DecodeOfPdu(STATUS, FLAG_RESP, f.seqNo, f.clientNs, body);
  }

  /** An ECHO answer with telemetry carries the request's payload and the trailer it was given. */
  lemma EchoAnswerCarries(raw: bytes, trailer: bytes, status: Option<bytes>)
    requires IsEchoRequest(raw) && |trailer| == TELEMETRY_SIZE && (status.Some? ==> |status.value| <= MAX_BODY)
    requires |DecodePdu(raw).value.payload| + TELEMETRY_SIZE <= MAX_BODY
    ensures var f := DecodePdu(raw).value;
            var answer := DispatchBinary(raw, Some(trailer), status);
            && answer.Some?
            && DecodePdu(answer.value) ==
                 Some(Frame(ECHO, 6, f.seqNo, f.clientNs, f.payload, DecodeTelemetry(trailer), answer.value))
  {
    hide DecodePdu, Pdu, Reencode, BodyOf, DecodeTelemetry, EncodeEchoResponse;
    AcceptedReencodes(raw);
    var f := DecodePdu(raw).value;
    EchoResponseRoundTrip(f.seqNo, f.clientNs, f.payload, trailer);
  }

  function EchoRequestIdentity(raw: bytes): Option<bytes>
  {
    match DecodePdu(raw)
    case None => None
    case Some(f) =>
      AcceptedReencodes(raw);
      if f.mtype != ECHO then None else Some(EncodeEchoRequest(f.seqNo, f.clientNs, f.payload))
  }

  predicate IsEchoRequest(raw: bytes)
  {
    DecodePdu(raw).Some? && DecodePdu(raw).value.mtype == ECHO && DecodePdu(raw).value.IsReq()
  }

  lemma EncodedEchoRequest(seqNo: nat, clientNs: nat, payload: bytes)
    requires HeaderFits(ECHO, FLAG_REQ, seqNo, clientNs, |payload|) && |payload| <= MAX_BODY
    ensures var raw := EncodeEchoRequest(seqNo, clientNs, payload);
            && DecodePdu(raw) == Some(Frame(ECHO, FLAG_REQ, seqNo, clientNs, payload, None, raw))
            && raw[RESERVED_AT] == 0
  {
    DecodeOfPdu(ECHO, FLAG_REQ, seqNo, clientNs, payload);
    var raw := EncodeEchoRequest(seqNo, clientNs, payload);
    var f := Frame(ECHO, FLAG_REQ, seqNo, clientNs, payload, None, raw);
    assert BodyOf(f) == payload;
    assert Reencode(f) == raw;
    AcceptedReencodes(raw);
  }

  /** An accepted ECHO PDU is the canonical request for its fields exactly when only REQ and no reserved bit is set. */
  lemma CanonicalEcho(raw: bytes)
    requires IsEchoRequest(raw)
    ensures EchoRequestIdentity(raw) == Some(raw) <==> DecodePdu(raw).value.flags == FLAG_REQ && raw[RESERVED_AT] == 0
  {
    AcceptedReencodes(raw);
    EchoIsCanonical(DecodePdu(raw).value, raw);
  }

  /** Exactly ECHOs have an identity: the request with their number, time and payload and nothing else set. */
  lemma IdentityIs(raw: bytes)
    ensures EchoRequestIdentity(raw).None? <==> DecodePdu(raw).None? || DecodePdu(raw).value.mtype != ECHO
    ensures EchoRequestIdentity(raw).Some? ==>
              var f, id := DecodePdu(raw).value, EchoRequestIdentity(raw).value;
              && DecodePdu(id) == Some(Frame(ECHO, FLAG_REQ, f.seqNo, f.clientNs, f.payload, None, id))
              && id[RESERVED_AT] == 0
  {
    hide DecodePdu, Pdu, Reencode, BodyOf, EncodeEchoRequest;
    if DecodePdu(raw).Some? {
      AcceptedReencodes(raw);
      BodyHasPayload(DecodePdu(raw).value);
      var f := DecodePdu(raw).value;
      EncodedEchoRequest(f.seqNo, f.clientNs, f.payload);
    }
  }

  lemma BodyHasPayload(f: Frame)
    requires f.telemetry.Some? ==> TelemetryInRange(f.telemetry.value)
    ensures |f.payload| <= |BodyOf(f)|
  {
  }

  lemma EchoIsCanonical(f: Frame, raw: bytes)
    requires DecodePdu(raw) == Some(f) && f.mtype == ECHO
    requires f.telemetry.Some? ==> TelemetryInRange(f.telemetry.value)
    requires f.telemetry.Some? <==> HasFlag(f.flags, FLAG_TELEMETRY)
    requires |f.payload| <= MAX_BODY && HeaderFits(ECHO, f.flags, f.seqNo, f.clientNs, |BodyOf(f)|)
    requires Reencode(f) == raw <==> raw[RESERVED_AT] == 0
    ensures EncodeEchoRequest(f.seqNo, f.clientNs, f.payload) == raw <==> f.flags == FLAG_REQ && raw[RESERVED_AT] == 0
  {
    EncodedEchoRequest(f.seqNo, f.clientNs, f.payload);
    if f.flags == FLAG_REQ {
      assert f.telemetry.None?;
      assert BodyOf(f) == f.payload;
    }
  }

  /**
   The identity of the server's answer is the request itself, byte for byte, exactly when the
   request is canonical and its payload leaves room for the trailer.
   */
  lemma AnswerIdentity(raw: bytes, trailer: bytes, status: Option<bytes>)
    requires IsEchoRequest(raw) && |trailer| == TELEMETRY_SIZE
    requires status.Some? ==> |status.value| <= MAX_BODY
    ensures var f := DecodePdu(raw).value;
            var answer := DispatchBinary(raw, Some(trailer), status);
            && answer.Some?
            && (EchoRequestIdentity(answer.value) == Some(raw) <==>
                f.flags == FLAG_REQ && raw[RESERVED_AT] == 0 && |f.payload| + TELEMETRY_SIZE <= MAX_BODY)
  {
    AcceptedReencodes(raw);
    var f := DecodePdu(raw).value;
    EchoResponseRoundTrip(f.seqNo, f.clientNs, f.payload, trailer);
    CanonicalEcho(raw);
  }

  /** Without telemetry the answer to an ECHO request is the request, and carries RESP exactly if the request did. */
  lemma AnswerWithoutTelemetry(raw: bytes, status: Option<bytes>)
    requires IsEchoRequest(raw)
    requires status.Some? ==> |status.value| <= MAX_BODY
    ensures var answer := DispatchBinary(raw, None, status);
            && answer == Some(raw)
            && (DecodePdu(answer.value).value.IsResp() <==> DecodePdu(raw).value.IsResp())
  {
  }
}
