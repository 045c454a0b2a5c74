/**
 What may be an answer to a request, whatever the server's counters are at the time, and what the client reads
 in it.
 */
module Answers {
  import opened Wrappers
  import opened Wire
  import opened Protocol
  import opened StatusBody
  import Streams

  ghost predicate IsStatusBody(body: bytes)
  {
    exists snap: StatusSnapshot, m: nat :: StatusInRange(snap, m) && body == EncodeStatusBody(snap, m)
  }

  /** The answer of a server, with its telemetry on or off, that reports this trailer and this STATUS body. */
  ghost predicate AnswersWith(telemetry: bool, req: bytes, resp: bytes, trailer: bytes, body: bytes)
  {
    && |trailer| == TELEMETRY_SIZE && |body| <= MAX_BODY && IsStatusBody(body)
    && DispatchBinary(req, if telemetry then Some(trailer) else None, Some(body)) == Some(resp)
  }

  /** A possible answer of a server to one raw request. */
  ghost predicate IsAnswer(telemetry: bool, req: bytes, resp: bytes)
  {
    exists trailer: bytes, body: bytes :: AnswersWith(telemetry, req, resp, trailer, body)
  }

  predicate IsRequest(raw: bytes)
  {
    DecodePdu(raw).Some? && DecodePdu(raw).value.IsReq()
  }

  predicate IsEcho(raw: bytes)
  {
    DecodePdu(raw).Some? && DecodePdu(raw).value.mtype == ECHO
  }

  /** A frame the decoder accepts is an ECHO or a STATUS. */
  lemma TwoTypes(raw: bytes)
    requires DecodePdu(raw).Some?
    ensures DecodePdu(raw).value.mtype == ECHO || DecodePdu(raw).value.mtype == STATUS
  {
    var h := AcceptedParts(raw);
  }

  /** Requests, and only requests, are answered. */
  lemma AnswerExists(telemetry: bool, req: bytes, trailer: bytes, body: bytes)
    requires |trailer| == TELEMETRY_SIZE && |body| <= MAX_BODY && IsStatusBody(body)
    ensures var answer := DispatchBinary(req, if telemetry then Some(trailer) else None, Some(body));
            && (answer.Some? <==> IsRequest(req))
            && (answer.Some? ==> answer.value != [] && AnswersWith(telemetry, req, answer.value, trailer, body))
            && (answer.Some? ==> IsAnswer(telemetry, req, answer.value))
  {
    hide DecodePdu, Pdu, Reencode, BodyOf, IsStatusBody;
    if DecodePdu(req).Some? {
      TwoTypes(req);
      AcceptedReencodes(req);
    }
  }

  /** A decodable ECHO answer answers an ECHO request. */
  lemma EchoAnswersEcho(telemetry: bool, req: bytes, resp: bytes)
    requires IsAnswer(telemetry, req, resp)
    ensures IsRequest(req) && (IsEcho(resp) ==> IsEcho(req))
  {
    hide DecodePdu, Pdu, Reencode, BodyOf, IsStatusBody, EncodeEchoResponse;
    var trailer: bytes, body: bytes :| AnswersWith(telemetry, req, resp, trailer, body);
    TwoTypes(req);
    AcceptedReencodes(req);
    var f := DecodePdu(req).value;
    if f.mtype == STATUS { DecodeOfPdu(STATUS, FLAG_RESP, f.seqNo, f.clientNs, body); }
  }

  /** An answer that decodes at all carries its request's number and type. */
  lemma AnswerNumber(telemetry: bool, req: bytes, resp: bytes)
    requires IsAnswer(telemetry, req, resp) && DecodePdu(resp).Some?
    ensures DecodePdu(req).Some?
    ensures DecodePdu(resp).value.seqNo == DecodePdu(req).value.seqNo
      && DecodePdu(resp).value.mtype == DecodePdu(req).value.mtype
    ensures !telemetry && IsEcho(req) ==> resp == req
  {
    hide DecodePdu, Pdu, Reencode, EncodeTelemetry, IsStatusBody, EncodeEchoResponse;
    var trailer: bytes, body: bytes :| AnswersWith(telemetry, req, resp, trailer, body);
    TwoTypes(req);
    AcceptedReencodes(req);
    var f := DecodePdu(req).value;
    if f.mtype == STATUS {
      StatusResponseSays(f.seqNo, f.clientNs, body);
    } else if telemetry {
      EchoResponseRoundTrip(f.seqNo, f.clientNs, f.payload, trailer);
    }
  }

  lemma PduFits(mtype: nat, flags: nat, seqNo: nat, clientNs: nat, body: bytes)
    requires HeaderFits(mtype, flags, seqNo, clientNs, |body|)
    ensures Streams.IsPdu(Pdu(mtype, flags, seqNo, clientNs, body)) <==> |body| <= MAX_BODY
  {
    hide Streams.IsPdu, WrapPdu;
    Streams.WrapIsPdu(Inner(mtype, flags, seqNo, clientNs, body));
  }

  /** An accepted frame is within the limit, and the parser cuts it off whole. */
  lemma AcceptedIsPdu(raw: bytes)
    requires DecodePdu(raw).Some?
    ensures Streams.IsPdu(raw)
  {
    hide DecodeInner;
  }

  /** An answer can be cut off whole exactly if it leaves room for the trailer it carries. */
  lemma AnswerIsPdu(telemetry: bool, req: bytes, resp: bytes)
    requires IsAnswer(telemetry, req, resp)
    ensures DecodePdu(req).Some?
    ensures Streams.IsPdu(resp) <==> (telemetry && IsEcho(req) ==> HasRoom(req))
  {
    hide DecodePdu, Pdu, Reencode, EncodeTelemetry, IsStatusBody, Streams.IsPdu;
    var trailer: bytes, body: bytes :| AnswersWith(telemetry, req, resp, trailer, body);
    TwoTypes(req);
    AcceptedReencodes(req);
    var f := DecodePdu(req).value;
    if f.mtype == STATUS {
      PduFits(STATUS, FLAG_RESP, f.seqNo, f.clientNs, body);
    } else if telemetry {
      PduFits(ECHO, FLAG_RESP + FLAG_TELEMETRY, f.seqNo, f.clientNs, f.payload + trailer);
    } else {
      AcceptedIsPdu(req);
    }
  }

  /** The request's payload leaves room for the telemetry trailer. */
  predicate HasRoom(req: bytes)
  {
    DecodePdu(req).Some? && |DecodePdu(req).value.payload| + TELEMETRY_SIZE <= MAX_BODY
  }

  lemma StatusBodyAccepted(body: bytes)
    requires IsStatusBody(body)
    ensures DecodeStatusBody(body).Some?
  {
    var snap: StatusSnapshot, m: nat :| StatusInRange(snap, m) && body == EncodeStatusBody(snap, m);
    StatusRoundTrip(snap, m, []);
    assert body + [] == body;
  }

  lemma StatusResponseSays(seqNo: nat, clientNs: nat, body: bytes)
    requires HeaderFits(STATUS, FLAG_RESP, seqNo, clientNs, |body|) && |body| <= MAX_BODY && IsStatusBody(body)
    ensures var raw := EncodeStatusResponse(seqNo, clientNs, body);
            DecodePdu(raw) == Some(Frame(STATUS, FLAG_RESP, seqNo, clientNs, body, None, raw))
  {
    DecodeOfPdu(STATUS, FLAG_RESP, seqNo, clientNs, body);
  }

  /**
   What an answer says, if it is no ECHO without telemetry: it carries RESP and the request's type, number and client
   time; an ECHO answer carries the request's payload, a STATUS answer a body that some snapshot was encoded as.
   */
  ghost predicate Says(f: Frame, g: Frame)
  {
    && g.IsResp() && g.mtype == f.mtype && g.seqNo == f.seqNo && g.clientNs == f.clientNs
    && (f.mtype == ECHO ==> g.payload == f.payload && g.telemetry.Some?)
    && (f.mtype == STATUS ==> IsStatusBody(g.payload) && DecodeStatusBody(g.payload).Some? && g.telemetry.None?)
  }

  /** An answer carries what the server reports: an ECHO answer the trailer, a STATUS answer the body. */
  lemma AnswerCarries(telemetry: bool, req: bytes, resp: bytes, trailer: bytes, body: bytes)
    requires AnswersWith(telemetry, req, resp, trailer, body)
    requires IsEcho(req) ==> telemetry && HasRoom(req)
    ensures DecodePdu(req).Some? && DecodePdu(resp).Some? && Says(DecodePdu(req).value, DecodePdu(resp).value)
    ensures IsEcho(req) ==> DecodePdu(resp).value.telemetry == DecodeTelemetry(trailer)
    ensures !IsEcho(req) ==> DecodePdu(resp).value.payload == body
  {
    hide DecodePdu, DecodeStatusBody, DecodeTelemetry, IsStatusBody, DispatchBinary;
    var status := Some(body);
    RequestAnswered(telemetry, req, trailer, body);
    if IsEcho(req) {
      EchoAnswerCarries(req, trailer, status);
      TrailerRead(trailer);
    } else {
      StatusAnswerCarries(req, if telemetry then Some(trailer) else None, body);
      StatusBodyAccepted(body);
    }
  }

  lemma TrailerRead(trailer: bytes)
    requires |trailer| == TELEMETRY_SIZE
    ensures DecodeTelemetry(trailer).Some?
  {
  }

  lemma RequestAnswered(telemetry: bool, req: bytes, trailer: bytes, body: bytes)
    requires |trailer| == TELEMETRY_SIZE && |body| <= MAX_BODY && IsStatusBody(body)
    requires DispatchBinary(req, if telemetry then Some(trailer) else None, Some(body)).Some?
    ensures IsRequest(req) && (IsEcho(req) || DecodePdu(req).value.mtype == STATUS)
  {
    hide DecodePdu, DispatchBinary, IsStatusBody;
    AnswerExists(telemetry, req, trailer, body);
    TwoTypes(req);
  }

  lemma AnswerSays(telemetry: bool, req: bytes, resp: bytes)
    requires IsAnswer(telemetry, req, resp)
    requires IsEcho(req) ==> telemetry && HasRoom(req)
    ensures DecodePdu(req).Some? && DecodePdu(resp).Some? && Says(DecodePdu(req).value, DecodePdu(resp).value)
  {
    hide DecodePdu, AnswersWith, Says, HasRoom, IsEcho;
    var trailer: bytes, body: bytes :| AnswersWith(telemetry, req, resp, trailer, body);
    AnswerCarries(telemetry, req, resp, trailer, body);
  }
}
