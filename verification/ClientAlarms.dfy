/** When the client counts a response as a mismatch or as malformed, and when it receives anything at all. */
module ClientAlarms {
  import opened Wrappers
  import opened Wire
  import opened Protocol
  import opened StatusBody
  import opened Streams
  import opened Resync
  import opened Answers
  import opened Book
  import opened BookHistory
  import opened ClientMachine
  import opened ClientSteps
  import opened ClientCounts
  import opened ClientRuns
  import opened ClientScripts
  import opened ClientAnswers
  import opened ClientTrips

  // ----- no false alarms -----

  lemma RunClear(u: Setup, acts: seq<Action>)
    requires Run(u, acts).Some? && Calm(u.telemetry, u.sizes)
    ensures Clear(Run(u, acts).value)
  {
    hide Run, Inv, ItemsInv, NumbersInv, LineInv, NetInv, HeldInv, SentInv, ReadersInv, SentCounts, ReceivedCounts,
      QuietInv, Clear, Calm;
    RunKeeps(u, acts);
    CalmIsClear(Run(u, acts).value);
  }

  /**
   Whatever the network loses, repeats, delays or reorders: with telemetry on (or if no payload can be encoded),
   no response is counted as a mismatch or as malformed while no PDU beyond the limit has been written; and none
   ever is if payloads leave room for the trailer.
   */
  lemma NoFalseAlarms(u: Setup, acts: seq<Action>)
    requires (u.telemetry || !CanOffer(u.sizes)) && Run(u, acts).Some?
    ensures var s := Run(u, acts).value;
            && (Clear(s) ==> NoAlarm(s))
            && (u.sizes.most + TELEMETRY_SIZE <= MAX_BODY || !CanOffer(u.sizes) ==> Clear(s))
  {
    hide Run, Inv, ItemsInv, NumbersInv, LineInv, NetInv, HeldInv, SentInv, ReadersInv, SentCounts, ReceivedCounts,
      Clear;
    RunKeeps(u, acts);
    if Calm(u.telemetry, u.sizes) { RunClear(u, acts); }
  }

  /**
   With telemetry off the client accepts no ECHO, in any run in which no payload is beyond the limit: an
   ECHO answer is its request byte for byte, has no RESP flag, and counts as a protocol error.
   */
  lemma TelemetryOff(u: Setup, acts: seq<Action>, r: nat, raw: bytes)
    requires !u.telemetry && Run(u, acts).Some?
    ensures var s := Run(u, acts).value;
            && (Clear(s) ==> s.received == 0)
            && (Clear(s) && Enabled(s, Deliver(r, raw)) && IsEcho(raw) ==>
                  Next(s, Deliver(r, raw)) == s.(protocolErrors := s.protocolErrors + 1))
            && (u.sizes.most <= MAX_BODY || !CanOffer(u.sizes) ==> Clear(s))
  {
    hide Run, Inv, ItemsInv, NumbersInv, LineInv, NetInv, HeldInv, SentInv, ReadersInv, SentCounts, DecodePdu, IsAnswer,
      CutFrom, AcceptedOf, InHand, Clear;
    RunKeeps(u, acts);
    var s := Run(u, acts).value;
    if Clear(s) && Enabled(s, Deliver(r, raw)) && IsEcho(raw) { EchoIsRefused(s, raw); }
    if Calm(u.telemetry, u.sizes) { RunClear(u, acts); }
  }

  lemma EchoIsRefused(s: Sys, raw: bytes)
    requires !s.telemetry && Clear(s) && Inv(s.hist) && ItemsInv(s) && NetInv(s) && CutFrom(s.responses, raw)
      && IsEcho(raw)
    ensures !DecodePdu(raw).value.IsResp()
  {
    hide Inv, Clear, ItemsInv, NetInv, DecodePdu, IsAnswer, CutFrom;
    ResponseNumber(s, raw);
    var item := s.hist.items[DecodePdu(raw).value.seqNo];
    RequestHasNoResp(s.sizes, item, raw);
  }

  lemma RequestHasNoResp(sizes: Sizes, item: Pending, raw: bytes)
    requires DecodesAs(sizes, item) && IsAnswer(false, item.raw, raw) && IsEcho(raw)
    ensures !DecodePdu(raw).value.IsResp()
  {
    hide DecodePdu, IsAnswer;
    AnswerNumber(false, item.raw, raw);
  }

  // ----- and when there are -----

  lemma CutItself(raw: bytes)
    requires IsPdu(raw)
    ensures CutFrom({raw}, raw)
  {
    hide IsPdu, CutFrom;
    CutWhole({raw}, raw);
  }

  lemma CutOfOne(raw: bytes, piece: bytes)
    requires piece in PopPdus(raw).frames
    ensures CutFrom({raw}, piece)
  {
    hide PopPdus, CutFrom;
    assert Concat([raw]) == raw;
    CutOne({raw}, [raw], piece);
  }

  /** The first ECHO on its way, and what comes back: `req` cut from it, its answer, and `raw` cut from that. */
  function ThereAndBack(clock: nat, payload: bytes, req: bytes, resp: bytes, raw: bytes): (acts: seq<Action>)
    ensures |acts| == 10 && acts[..8] == FirstSteps(clock, payload)
    ensures acts[8] == Serve(req, resp) && acts[9] == Deliver(0, raw)
  {
    FirstSteps(clock, payload) + [Serve(req, resp), Deliver(0, raw)]
  }

  /** The first ECHO was written, nothing has arrived, and no alarm was counted. */
  ghost predicate JustSent(u: Setup, clock: nat, payload: bytes, s: Sys)
    requires HeaderFits(ECHO, FLAG_REQ, 1, clock, |payload|)
  {
    && s.hist == DoAdd(Start(u).hist, EchoItem(1, clock, payload))
    && |s.readers| >= 1 && s.readers[0] == RIdle
    && s.received == 0 && NoAlarm(s)
  }

  lemma NoAlarmYet(u: Setup, t: Sys, s: Sys)
    requires SameAlarms(Start(u), t) && SameTotals(Start(u), t) && s == t.(responses := s.responses)
    ensures NoAlarm(s) && s.received == 0
  {
  }

  lemma Returned(u: Setup, acts: seq<Action>, clock: nat, payload: bytes, req: bytes, resp: bytes, raw: bytes)
    returns (s: Sys)
    requires u.readers >= 1 && Offers(u, payload) && clock < U64
    requires |acts| >= 10 && acts[..10] == ThereAndBack(clock, payload, req, resp, raw)
    requires CutFrom({EncodeEchoRequest(1, clock, payload)}, req) && IsAnswer(u.telemetry, req, resp)
    requires CutFrom({resp}, raw)
    ensures JustSent(u, clock, payload, s) && Run(u, acts[..10]) == Some(Delivered(s, 0, raw))
  {
    hide Run, EncodeEchoRequest, IsAnswer, CutFrom, DecodePdu, DoAdd, EchoItem, Delivered, SameFlags, SameTotals,
      SameAlarms, NoAlarm, Start, FirstSteps, ThereAndBack;
    assert acts[..8] == acts[..10][..8] && acts[8] == acts[..10][8] && acts[9] == acts[..10][9];
    StartFixed(u);
    FirstWritten(u, acts, clock, payload);
    s := Run(u, acts[..8]).value.(responses := {resp});
    FirstIsIdle(u);
    assert Run(u, acts[..8]).value.responses + {resp} == {resp};
    ServedAt(u, acts, 8, req, resp, raw);
    NoAlarmYet(u, Run(u, acts[..8]).value, s);
  }

  /** Something that does not decode, or has no RESP, is a protocol error. */
  lemma RefusedIsAlarm(u: Setup, clock: nat, payload: bytes, s: Sys, raw: bytes)
    requires HeaderFits(ECHO, FLAG_REQ, 1, clock, |payload|) && JustSent(u, clock, payload, s)
    requires DecodePdu(raw).None? || !DecodePdu(raw).value.IsResp()
    ensures Delivered(s, 0, raw).protocolErrors == 1
  {
    hide DecodePdu, DoAdd, EchoItem, Take, DoTake;
  }

  /** Telemetry off, and any payload within the limit, at any time: the answer to the first ECHO is a protocol error. */
  lemma OffAlarm(u: Setup, clock: nat, payload: bytes) returns (acts: seq<Action>)
    requires !u.telemetry && u.readers >= 1 && Offers(u, payload) && |payload| <= MAX_BODY && clock < U64
    ensures var req := EncodeEchoRequest(1, clock, payload); acts == ThereAndBack(clock, payload, req, req, req)
    ensures Run(u, acts).Some? && Run(u, acts).value.protocolErrors == 1
  {
    hide Run, EncodeEchoRequest, IsAnswer, CutFrom, DecodePdu, IsPdu, JustSent, Delivered, FirstSteps;
    var req := EncodeEchoRequest(1, clock, payload);
    acts := ThereAndBack(clock, payload, req, req, req);
    assert acts[..10] == acts;
    EncodedEchoRequest(1, clock, payload);
    AcceptedIsPdu(req);
    CutItself(req);
    EchoAnswered(false, clock, payload, seq(TELEMETRY_SIZE, i => 0));
    var s := Returned(u, acts, clock, payload, req, req, req);
    RefusedIsAlarm(u, clock, payload, s, req);
  }

  /**
   Telemetry on, and any payload within the limit that leaves no room for the trailer, at any time: four zero bytes
   cut from the answer are a protocol error.
   */
  lemma OversizeAlarm(u: Setup, clock: nat, payload: bytes, trailer: bytes) returns (acts: seq<Action>)
    requires u.telemetry && u.readers >= 1 && Offers(u, payload) && clock < U64 && |trailer| == TELEMETRY_SIZE
    requires |payload| <= MAX_BODY < |payload| + TELEMETRY_SIZE
    ensures var req, resp := EncodeEchoRequest(1, clock, payload), EncodeEchoResponse(1, clock, payload, trailer);
            acts == ThereAndBack(clock, payload, req, resp, ZEROS)
    ensures Run(u, acts).Some? && Run(u, acts).value.protocolErrors == 1
  {
    hide Run, EncodeEchoRequest, EncodeEchoResponse, IsAnswer, CutFrom, DecodePdu, IsPdu, JustSent, Delivered,
      FirstSteps;
    var req, resp := EncodeEchoRequest(1, clock, payload), EncodeEchoResponse(1, clock, payload, trailer);
    acts := ThereAndBack(clock, payload, req, resp, ZEROS);
    assert acts[..10] == acts;
    EncodedEchoRequest(1, clock, payload);
    AcceptedIsPdu(req);
    CutItself(req);
    EchoAnswered(true, clock, payload, trailer);
    ZerosFromAnswer(clock, payload, trailer);
    ZerosDoNotDecode();
    var s := Returned(u, acts, clock, payload, req, resp, ZEROS);
    RefusedIsAlarm(u, clock, payload, s, ZEROS);
  }

  lemma ZerosFromAnswer(clock: nat, payload: bytes, trailer: bytes)
    requires clock < U64 && |trailer| == TELEMETRY_SIZE && |payload| <= MAX_BODY < |payload| + TELEMETRY_SIZE
    ensures CutFrom({EncodeEchoResponse(1, clock, payload, trailer)}, ZEROS)
  {
    hide Protocol.Pdu, PopPdus, CutFrom;
    FirstPieceIsZeros(FLAG_RESP + FLAG_TELEMETRY, 1, clock, payload + trailer);
    CutOfOne(EncodeEchoResponse(1, clock, payload, trailer), ZEROS);
  }

  // ----- a payload that ends in a PDU -----

  /** An ECHO of number 1 and time 0 without a payload. */
  function Embedded(flags: byte): (raw: bytes)
    ensures |raw| == 30
  {
    Protocol.Pdu(ECHO, flags, 1, 0, [])
  }

  /** A payload of n bytes that ends in it, and the first ECHO of a run with that payload. */
  function Carrier(n: nat, clock: nat, flags: byte): bytes
    requires 30 <= n && n + INNER_HDR_SIZE < U32 && clock < U64
  {
    EncodeEchoRequest(1, clock, Filled(n, Embedded(flags)))
  }

  lemma EmbeddedDecodes(flags: byte)
    requires flags == FLAG_REQ || flags == FLAG_REQ + FLAG_RESP
    ensures var raw := Embedded(flags);
            DecodePdu(raw) == Some(Frame(ECHO, flags, 1, 0, [], None, raw)) && IsPdu(raw) && IsEchoRequest(raw)
  {
    hide DecodePdu, Protocol.Pdu, IsPdu;
    DecodeOfPdu(ECHO, flags, 1, 0, []);
    AcceptedIsPdu(Embedded(flags));
  }

  /** If payloads of that length are beyond the limit, the server finds what the payload ends in. */
  lemma EmbeddedCut(n: nat, clock: nat, flags: byte)
    requires Reaches(n, clock) && n + INNER_HDR_SIZE < U32 && (flags == FLAG_REQ || flags == FLAG_REQ + FLAG_RESP)
    ensures CutFrom({Carrier(n, clock, flags)}, Embedded(flags))
  {
    hide DecodePdu, Embedded, Filled, PopPdus, CutFrom, Protocol.Pdu, IsPdu;
    EmbeddedDecodes(flags);
    TailCutOut(FLAG_REQ, clock, n, Embedded(flags));
    CutOfOne(Carrier(n, clock, flags), Embedded(flags));
  }

  /** And answers it, without telemetry with itself. */
  lemma EmbeddedAnswered(flags: byte)
    requires flags == FLAG_REQ || flags == FLAG_REQ + FLAG_RESP
    ensures IsAnswer(false, Embedded(flags), Embedded(flags)) && CutFrom({Embedded(flags)}, Embedded(flags))
  {
    hide DecodePdu, Embedded, IsPdu, CutFrom, IsStatusBody;
    EmbeddedDecodes(flags);
    CutItself(Embedded(flags));
    var body := EmptyStatus();
    AnswerWithoutTelemetry(Embedded(flags), Some(body));
    AnswerExists(false, Embedded(flags), seq(TELEMETRY_SIZE, i => 0), body);
  }

  /** What arrives is taken for the answer to the first ECHO. */
  lemma TakenForAnswer(u: Setup, clock: nat, payload: bytes, s: Sys, raw: bytes)
    requires HeaderFits(ECHO, FLAG_REQ, 1, clock, |payload|) && JustSent(u, clock, payload, s)
    requires DecodePdu(raw).Some? && DecodePdu(raw).value.IsResp() && DecodePdu(raw).value.seqNo == 1
    ensures var s' := Delivered(s, 0, raw);
            && |s'.readers| >= 1 && s'.readers[0] == Taken(EchoItem(1, clock, payload), DecodePdu(raw).value, false)
            && s'.received == 0 && s'.mismatch == 0
  {
    hide DecodePdu, EncodeEchoRequest, DoTake;
    FirstIsHeld(u, clock, payload);
  }

  lemma OneAfterOther(first: seq<Action>, rest: seq<Action>)
    ensures (first + rest)[..|first|] == first && (first + rest)[..|first + rest|] == first + rest
    ensures forall i :: 0 <= i < |rest| ==> rest[i] == (first + rest)[|first| + i]
  {
  }

  /**
   Telemetry off, and a payload beyond the limit that ends in an ECHO with both REQ and RESP: the server finds it,
   answers it with itself, and the client takes it for the answer to the ECHO that carried it.
   */
  lemma EmbeddedRun(u: Setup, n: nat, clock: nat) returns (acts: seq<Action>)
    requires !u.telemetry && u.readers >= 1 && u.sizes.least <= n <= u.sizes.most && n + INNER_HDR_SIZE < U32
    requires Reaches(n, clock)
    ensures |acts| >= 8 && acts[..8] == FirstSteps(clock, Filled(n, Embedded(FLAG_REQ + FLAG_RESP)))
    ensures Run(u, acts).Some? && Run(u, acts).value.received == 1
  {
    hide Run, Embedded, Filled, Next, Enabled, DecodePdu, IsPdu, IsEchoRequest, EncodeEchoRequest, IsAnswer, CutFrom,
      JustSent, Delivered, FirstSteps, ThereAndBack, Reaches;
    assert n > MAX_BODY && clock < U64 by { ReachesBeyond(n, clock); }
    var flags: byte := FLAG_REQ + FLAG_RESP;
    var raw, payload := Embedded(flags), Filled(n, Embedded(flags));
    var first, rest := ThereAndBack(clock, payload, raw, raw, raw), [Compare(0), CheckSeq(0), CountIn(0)];
    acts := first + rest;
    OneAfterOther(first, rest);
    assert acts[..8] == acts[..10][..8];
    EmbeddedDecodes(flags);
    EmbeddedCut(n, clock, flags);
    EmbeddedAnswered(flags);
    var s := Returned(u, acts, clock, payload, raw, raw, raw);
    TakenForAnswer(u, clock, payload, s, raw);
    CountedIn(u, acts);
  }

  lemma ReachesBeyond(n: nat, clock: nat)
    requires Reaches(n, clock)
    ensures n > MAX_BODY && clock < U64
  {
  }

  /** The rest of a reader's work. */
  lemma CheckedOff(u: Setup, acts: seq<Action>)
    requires |acts| >= 12 && acts[10] == Compare(0) && acts[11] == CheckSeq(0)
    requires Run(u, acts[..10]).Some? && |Run(u, acts[..10]).value.readers| >= 1
    requires var s := Run(u, acts[..10]).value;
             s.readers[0].Taken? && s.readers[0].item.mtype == ECHO && s.received == 0
    ensures Run(u, acts[..12]).Some? && |Run(u, acts[..12]).value.readers| >= 1
    ensures var s := Run(u, acts[..12]).value;
            s.readers[0].Checked? && s.readers[0].item.mtype == ECHO && s.received == 0
  {
    hide Run, IsAnswer, CutFrom, Differs, Delivered, DecodeStatusBody, SchedulerNext, SenderNext, ProbeNext, OthersNext;
    RunPrefix(u, acts, 10);
    RunPrefix(u, acts, 11);
  }

  lemma CountedIn(u: Setup, acts: seq<Action>)
    requires |acts| >= 13 && acts[10] == Compare(0) && acts[11] == CheckSeq(0) && acts[12] == CountIn(0)
    requires Run(u, acts[..10]).Some? && |Run(u, acts[..10]).value.readers| >= 1
    requires var s := Run(u, acts[..10]).value;
             s.readers[0].Taken? && s.readers[0].item.mtype == ECHO && s.received == 0
    ensures Run(u, acts[..13]).Some? && Run(u, acts[..13]).value.received == 1
  {
    hide Run, IsAnswer, CutFrom, Differs, Delivered, DecodeStatusBody, SchedulerNext, SenderNext, ProbeNext, OthersNext;
    CheckedOff(u, acts);
    RunPrefix(u, acts, 12);
  }

  /**
   A payload beyond the limit that ends in an ECHO request, which the server finds and answers. Without telemetry
   the answer is a protocol error; with it, it is taken for the answer to the ECHO that carried it, and differs.
   */
  lemma EmbeddedAlarm(u: Setup, n: nat, clock: nat) returns (acts: seq<Action>)
    requires u.readers >= 1 && u.sizes.least <= n <= u.sizes.most && n + INNER_HDR_SIZE < U32 && Reaches(n, clock)
    ensures |acts| >= 8 && acts[..8] == FirstSteps(clock, Filled(n, Embedded(FLAG_REQ)))
    ensures Run(u, acts).Some? && !NoAlarm(Run(u, acts).value)
  {
    hide Run, Filled, Embedded, FirstSteps;
    if u.telemetry {
      acts := AlarmOnAnswer(u, n, clock);
    } else {
      acts := AlarmOnItself(u, n, clock);
    }
  }

  lemma AlarmOnItself(u: Setup, n: nat, clock: nat) returns (acts: seq<Action>)
    requires !u.telemetry && u.readers >= 1 && u.sizes.least <= n <= u.sizes.most && n + INNER_HDR_SIZE < U32
    requires Reaches(n, clock)
    ensures |acts| >= 8 && acts[..8] == FirstSteps(clock, Filled(n, Embedded(FLAG_REQ)))
    ensures Run(u, acts).Some? && Run(u, acts).value.protocolErrors == 1
  {
    hide Run, Embedded, Filled, DecodePdu, IsPdu, IsEchoRequest, EncodeEchoRequest, IsAnswer, CutFrom, JustSent,
      Delivered, FirstSteps, ThereAndBack, Reaches;
    assert n > MAX_BODY && clock < U64 by { ReachesBeyond(n, clock); }
    var raw, payload := Embedded(FLAG_REQ), Filled(n, Embedded(FLAG_REQ));
    acts := ThereAndBack(clock, payload, raw, raw, raw);
    assert acts[..10] == acts;
    EmbeddedDecodes(FLAG_REQ);
    EmbeddedCut(n, clock, FLAG_REQ);
    EmbeddedAnswered(FLAG_REQ);
    var s := Returned(u, acts, clock, payload, raw, raw, raw);
    RefusedIsAlarm(u, clock, payload, s, raw);
  }

  /** The answer with a trailer, as it arrives. */
  lemma EmbeddedResponse(trailer: bytes)
    requires |trailer| == TELEMETRY_SIZE
    ensures var resp := EncodeEchoResponse(1, 0, [], trailer);
            && IsAnswer(true, Embedded(FLAG_REQ), resp) && CutFrom({resp}, resp)
            && DecodePdu(resp).Some? && DecodePdu(resp).value.IsResp() && DecodePdu(resp).value.seqNo == 1
            && DecodePdu(resp).value.payload == []
  {
    hide DecodePdu, IsPdu, CutFrom, IsAnswer, EncodeEchoResponse, Protocol.Pdu;
    EchoAnswered(true, 0, [], trailer);
    EchoResponseRoundTrip(1, 0, [], trailer);
    AcceptedIsPdu(EncodeEchoResponse(1, 0, [], trailer));
    CutItself(EncodeEchoResponse(1, 0, [], trailer));
  }

  lemma BeyondDoesNotDecode(clock: nat, payload: bytes)
    requires HeaderFits(ECHO, FLAG_REQ, 1, clock, |payload|) && |payload| > MAX_BODY
    ensures DecodePdu(EncodeEchoRequest(1, clock, payload)).None?
  {
    hide DecodePdu, Protocol.Pdu;
    DecodeOfPdu(ECHO, FLAG_REQ, 1, clock, payload);
  }

  lemma AlarmOnAnswer(u: Setup, n: nat, clock: nat) returns (acts: seq<Action>)
    requires u.telemetry && u.readers >= 1 && u.sizes.least <= n <= u.sizes.most && n + INNER_HDR_SIZE < U32
    requires Reaches(n, clock)
    ensures |acts| >= 8 && acts[..8] == FirstSteps(clock, Filled(n, Embedded(FLAG_REQ)))
    ensures Run(u, acts).Some? && Run(u, acts).value.mismatch == 1
  {
    hide Run, Embedded, Filled, Next, Enabled, EchoItem, DecodePdu, IsPdu, IsEchoRequest, EncodeEchoRequest,
      EncodeEchoResponse, IsAnswer, CutFrom, JustSent, Delivered, FirstSteps, ThereAndBack, Reaches;
    assert n > MAX_BODY && clock < U64 by { ReachesBeyond(n, clock); }
    var trailer: bytes := seq(TELEMETRY_SIZE, i => 0);
    var raw, payload := Embedded(FLAG_REQ), Filled(n, Embedded(FLAG_REQ));
    var resp := EncodeEchoResponse(1, 0, [], trailer);
    var first, rest := ThereAndBack(clock, payload, raw, resp, resp), [Compare(0)];
    acts := first + rest;
    OneAfterOther(first, rest);
    assert acts[..8] == acts[..10][..8];
    EmbeddedCut(n, clock, FLAG_REQ);
    EmbeddedResponse(trailer);
    var s := Returned(u, acts, clock, payload, raw, resp, resp);
    TakenForAnswer(u, clock, payload, s, resp);
    ComparedAndDiffers(u, acts, clock, payload);
  }

  lemma ComparedAndDiffers(u: Setup, acts: seq<Action>, clock: nat, payload: bytes)
    requires HeaderFits(ECHO, FLAG_REQ, 1, clock, |payload|) && |payload| > MAX_BODY
    requires |acts| >= 11 && acts[10] == Compare(0)
    requires Run(u, acts[..10]).Some? && |Run(u, acts[..10]).value.readers| >= 1
    requires var s := Run(u, acts[..10]).value;
             s.readers[0].Taken? && s.readers[0].item == EchoItem(1, clock, payload) && s.mismatch == 0
    ensures Run(u, acts[..11]).Some? && Run(u, acts[..11]).value.mismatch == 1
  {
    hide Run, IsAnswer, CutFrom, DecodePdu, EncodeEchoRequest, Delivered, DecodeStatusBody, SchedulerNext, SenderNext,
      ProbeNext, OthersNext;
    BeyondDoesNotDecode(clock, payload);
    RunPrefix(u, acts, 10);
  }

  // ----- a request that decodes, and a payload that differs -----

  /** The first ECHO and its mark, the carrier as the second, and the answer to what the carrier ends in. */
  function TwoEchoes(clock: nat, payload: bytes, now: int, clock2: nat, n: nat, resp: bytes): seq<Action>
    requires n >= 30
  {
    FirstSteps(clock, payload) + [TellBook(now), CountSent] + FirstSteps(clock2, Filled(n, Embedded(FLAG_REQ)))
    + [Serve(Embedded(FLAG_REQ), resp), Deliver(0, resp), Compare(0)]
  }

  lemma TwoEchoesAre(clock: nat, payload: bytes, now: int, clock2: nat, n: nat, resp: bytes)
    requires n >= 30
    ensures var acts := TwoEchoes(clock, payload, now, clock2, n, resp);
            && |acts| == 21 && acts[..21] == acts && acts[..8] == FirstSteps(clock, payload)
            && acts[8] == TellBook(now) && acts[9] == CountSent
            && acts[10..18] == FirstSteps(clock2, Filled(n, Embedded(FLAG_REQ)))
            && acts[18] == Serve(Embedded(FLAG_REQ), resp) && acts[19] == Deliver(0, resp) && acts[20] == Compare(0)
  {
    hide FirstSteps, Filled, Embedded;
  }

  /** The first item is still the one handed out for its number. */
  lemma FirstStillThere(u: Setup, clock: nat, payload: bytes, now: int, second: Pending)
    requires HeaderFits(ECHO, FLAG_REQ, 1, clock, |payload|) && second.seqNo == 2
    ensures var h := DoMark(DoAdd(NewHistory(u.timeoutNs, u.remember), EchoItem(1, clock, payload)), 1, now);
            Take(DoAdd(h, second).book, 1).0 == Ok(EchoItem(1, clock, payload).(sendMono := Some(now)))
  {
    hide EncodeEchoRequest;
  }

  /** The server finds the embedded request in the second ECHO, whatever the first one was. */
  lemma SecondCarries(first: bytes, clock2: nat, n: nat)
    requires n >= MAX_INNER + 33 && HeaderFits(ECHO, FLAG_REQ, 2, clock2, n)
    ensures CutFrom({first} + {EncodeEchoRequest(2, clock2, Filled(n, Embedded(FLAG_REQ)))}, Embedded(FLAG_REQ))
  {
    hide DecodePdu, Embedded, Filled, PopPdus, CutFrom, Protocol.Pdu, IsPdu;
    var carrier := EncodeEchoRequest(2, clock2, Filled(n, Embedded(FLAG_REQ)));
    EmbeddedDecodes(FLAG_REQ);
    FarTailCutOut(FLAG_REQ, 2, clock2, n, Embedded(FLAG_REQ));
    CutOfOne(carrier, Embedded(FLAG_REQ));
    CutGrows({carrier}, {first} + {carrier}, Embedded(FLAG_REQ));
  }

  /** Both ECHOs are on the network. */
  lemma BothWritten(u: Setup, acts: seq<Action>, clock: nat, payload: bytes, now: int, clock2: nat, second: bytes)
    requires Offers(u, payload) && clock < U64 && Offers(u, second) && clock2 < U64
    requires |acts| >= 18 && acts[..8] == FirstSteps(clock, payload) && acts[8] == TellBook(now)
    requires acts[9] == CountSent && acts[10..18] == FirstSteps(clock2, second)
    ensures Run(u, acts[..18]).Some?
    ensures var s := Run(u, acts[..18]).value;
            && s.requests == {EncodeEchoRequest(1, clock, payload)} + {EncodeEchoRequest(2, clock2, second)}
            && s.responses == {} && s.telemetry == u.telemetry && s.readers == Start(u).readers && NoAlarm(s)
            && s.hist == DoAdd(DoMark(DoAdd(NewHistory(u.timeoutNs, u.remember), EchoItem(1, clock, payload)), 1, now),
                               EchoItem(2, clock2, second))
  {
    hide Run, EncodeEchoRequest, DoAdd, DoMark, EchoItem, Start, NewHistory, FirstSteps, Told;
    FirstTold(u, acts, clock, payload, now);
    ToldIs(u, clock, payload, now);
    WrittenAt(u, acts, 10, clock2, second);
  }

  lemma BothServed(u: Setup, acts: seq<Action>, clock: nat, payload: bytes, now: int, clock2: nat, n: nat,
                   trailer: bytes)
    requires u.telemetry && u.readers >= 1 && Offers(u, payload) && clock < U64 && clock2 < U64
    requires u.sizes.least <= n <= u.sizes.most && n + INNER_HDR_SIZE < U32 && n >= MAX_INNER + 33
    requires |trailer| == TELEMETRY_SIZE
    requires acts == TwoEchoes(clock, payload, now, clock2, n, EncodeEchoResponse(1, 0, [], trailer))
    ensures Run(u, acts[..20]).Some?
    ensures var s := Run(u, acts[..20]).value;
            && |s.readers| >= 1 && NoAlarm(s) && s.readers[0].Taken? && s.readers[0].frame.payload == []
            && s.readers[0].item == EchoItem(1, clock, payload).(sendMono := Some(now))
  {
    hide Run, EncodeEchoRequest, EncodeEchoResponse, DecodePdu, IsAnswer, CutFrom, DoAdd, DoMark, DoTake, Take,
      EchoItem, Start, NewHistory, FirstSteps, TwoEchoes, Delivered, NoAlarm, Filled, Embedded;
    var resp, second := EncodeEchoResponse(1, 0, [], trailer), Filled(n, Embedded(FLAG_REQ));
    TwoEchoesAre(clock, payload, now, clock2, n, resp);
    BothWritten(u, acts, clock, payload, now, clock2, second);
    FirstIsIdle(u);
    SecondCarries(EncodeEchoRequest(1, clock, payload), clock2, n);
    EmbeddedResponse(trailer);
    var s := Run(u, acts[..18]).value;
    assert s.responses + {resp} == {resp};
    ServedAt(u, acts, 18, Embedded(FLAG_REQ), resp, resp);
    SecondNumber(clock2, second);
    FirstStillThere(u, clock, payload, now, EchoItem(2, clock2, second));
    TakenInTime(s.(responses := {resp}), resp, DecodePdu(resp).value,
                EchoItem(1, clock, payload).(sendMono := Some(now)));
    SameButReaders(s, Run(u, acts[..20]).value);
  }

  lemma SecondNumber(clock2: nat, second: bytes)
    requires HeaderFits(ECHO, FLAG_REQ, 2, clock2, |second|)
    ensures EchoItem(2, clock2, second).seqNo == 2
  {
  }

  lemma SameButReaders(s: Sys, s': Sys)
    requires SameAlarms(s, s') && NoAlarm(s)
    ensures NoAlarm(s')
  {
  }

  /**
   Telemetry on, and a first ECHO whose request decodes, with any payload but an empty one: the answer to a PDU that
   the second payload ends in is taken for the first one's, its payload differs, and that is the only alarm.
   */
  lemma DifferingRun(u: Setup, clock: nat, payload: bytes, now: int, clock2: nat, n: nat, trailer: bytes)
    returns (acts: seq<Action>)
    requires u.telemetry && u.readers >= 1 && Offers(u, payload) && clock < U64 && clock2 < U64
    requires 0 < |payload| <= MAX_BODY && |trailer| == TELEMETRY_SIZE
    requires u.sizes.least <= n <= u.sizes.most && n + INNER_HDR_SIZE < U32 && n >= MAX_INNER + 33
    ensures DecodePdu(EncodeEchoRequest(1, clock, payload)).Some?
    ensures acts == TwoEchoes(clock, payload, now, clock2, n, EncodeEchoResponse(1, 0, [], trailer))
    ensures Run(u, acts).Some?
    ensures var s := Run(u, acts).value; s.mismatch == 1 && s.seqMismatch == 0 && s.protocolErrors == 0
  {
    hide Run, EncodeEchoRequest, EncodeEchoResponse, DecodePdu, EchoItem, TwoEchoes, Enabled, Next;
    var resp := EncodeEchoResponse(1, 0, [], trailer);
    acts := TwoEchoes(clock, payload, now, clock2, n, resp);
    TwoEchoesAre(clock, payload, now, clock2, n, resp);
    EncodedEchoRequest(1, clock, payload);
    BothServed(u, acts, clock, payload, now, clock2, n, trailer);
    CompareExactly(Run(u, acts[..20]).value, 0, 1, clock, payload, Some(now));
    RunPrefix(u, acts, 20);
  }

  // ----- exactly when -----

  /** The run with an alarm, if there is one. */
  lemma SomeAlarm(u: Setup) returns (acts: seq<Action>)
    requires u.readers >= 1 && CanOffer(u.sizes) && (!u.telemetry || u.sizes.most + TELEMETRY_SIZE > MAX_BODY)
    ensures Run(u, acts).Some? && !NoAlarm(Run(u, acts).value)
  {
    hide Run, ThereAndBack;
    var (least, most) := (u.sizes.least, u.sizes.most);
    if least > MAX_BODY {
      acts := EmbeddedAlarm(u, least, 0x100 * U32);
    } else if !u.telemetry {
      acts := OffAlarm(u, 0, seq(least, i => 0));
    } else {
      acts := OversizeAlarm(u, 0, seq(Min(most, MAX_BODY), i => 0), seq(TELEMETRY_SIZE, i => 0));
    }
  }

  /**
   All runs of a client with at least one reader keep the three alarms at 0 if and only if the server's
   telemetry is on and payloads leave room for the trailer, or no payload can be encoded.
   */
  lemma AlarmsIff(u: Setup)
    requires u.readers >= 1
    ensures (forall acts :: Run(u, acts).Some? ==> NoAlarm(Run(u, acts).value)) <==>
      (u.telemetry && u.sizes.most + TELEMETRY_SIZE <= MAX_BODY) || !CanOffer(u.sizes)
  {
    hide Run, Clear, NoAlarm;
    if (u.telemetry && u.sizes.most + TELEMETRY_SIZE <= MAX_BODY) || !CanOffer(u.sizes) {
      forall acts | Run(u, acts).Some? ensures NoAlarm(Run(u, acts).value) { NoFalseAlarms(u, acts); }
    } else {
      var acts := SomeAlarm(u);
    }
  }

  /**
   With telemetry off, a client with at least one reader receives nothing in any run if and only if its
   payloads are within the limit, or cannot be encoded: beyond it, a payload can hold what reads as an answer.
   */
  lemma NothingReceivedIff(u: Setup)
    requires !u.telemetry && u.readers >= 1
    ensures (forall acts :: Run(u, acts).Some? ==> Run(u, acts).value.received == 0) <==>
      u.sizes.most <= MAX_BODY || !CanOffer(u.sizes)
  {
    hide Run, Clear, Next, Enabled;
    if u.sizes.most <= MAX_BODY || !CanOffer(u.sizes) {
      forall acts | Run(u, acts).Some? ensures Run(u, acts).value.received == 0 { TelemetryOff(u, acts, 0, []); }
    } else {
      var acts := EmbeddedRun(u, Max(u.sizes.least, MAX_BODY + 1), 0x100 * U32);
    }
  }
}
