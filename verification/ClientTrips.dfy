/** Whole trips of one request: an ECHO answered in time, an ECHO answered too late, and a probe. */
module ClientTrips {
  import opened Wrappers
  import opened Wire
  import opened Protocol
  import opened StatusBody
  import opened Streams
  import opened Answers
  import opened Book
  import opened BookHistory
  import opened ClientMachine
  import opened ClientSteps
  import opened ClientRuns
  import opened ClientScripts
  import opened ClientAnswers

  // ----- there and back, and counted -----

  /** The steps of the first ECHO of a run, answered after it was marked sent. */
  function RoundTrip(clock: nat, payload: bytes, now: int, resp: bytes): seq<Action>
    requires HeaderFits(ECHO, FLAG_REQ, 1, clock, |payload|)
  {
    FirstSteps(clock, payload) +
    [TellBook(now), CountSent, Serve(EncodeEchoRequest(1, clock, payload), resp), Deliver(0, resp),
     Compare(0), CheckSeq(0), CountIn(0), ApplyIn(0)]
  }

  /** The first twelve of them, one by one. */
  lemma WayThere(clock: nat, payload: bytes, now: int, resp: bytes)
    requires HeaderFits(ECHO, FLAG_REQ, 1, clock, |payload|)
    ensures var acts := RoundTrip(clock, payload, now, resp);
            && |acts| == 16 && acts[..8] == FirstSteps(clock, payload)
            && acts[8] == TellBook(now) && acts[9] == CountSent
            && acts[10] == Serve(EncodeEchoRequest(1, clock, payload), resp) && acts[11] == Deliver(0, resp)
  {
    hide EncodeEchoRequest, FirstSteps;
  }

  /** And the rest. */
  lemma WayBack(clock: nat, payload: bytes, now: int, resp: bytes)
    requires HeaderFits(ECHO, FLAG_REQ, 1, clock, |payload|)
    ensures var acts := RoundTrip(clock, payload, now, resp);
            && |acts| == 16 && acts[..16] == acts
            && acts[12] == Compare(0) && acts[13] == CheckSeq(0) && acts[14] == CountIn(0) && acts[15] == ApplyIn(0)
  {
    hide EncodeEchoRequest, FirstSteps;
  }

  /** The answer to the first ECHO, with a trailer, as it comes back. */
  lemma FirstAnswer(clock: nat, payload: bytes, trailer: bytes)
    requires clock < U64 && |payload| + TELEMETRY_SIZE <= MAX_BODY && |trailer| == TELEMETRY_SIZE
    ensures var req, resp := EncodeEchoRequest(1, clock, payload), EncodeEchoResponse(1, clock, payload, trailer);
            && IsAnswer(true, req, resp) && CutFrom({req}, req) && CutFrom({resp}, resp)
            && DecodePdu(resp) == Some(Frame(ECHO, 6, 1, clock, payload, DecodeTelemetry(trailer), resp))
  {
    hide DecodePdu, IsPdu, CutFrom, EncodeEchoRequest, EncodeEchoResponse, DecodeTelemetry, IsAnswer;
    var req, resp := EncodeEchoRequest(1, clock, payload), EncodeEchoResponse(1, clock, payload, trailer);
    EncodedEchoRequest(1, clock, payload);
    AcceptedIsPdu(req);
    CutWhole({req}, req);
    EchoResponseRoundTrip(1, clock, payload, trailer);
    AcceptedIsPdu(resp);
    CutWhole({resp}, resp);
    EchoAnswered(true, clock, payload, trailer);
  }

  /** The state in which the first ECHO was written and marked sent. */
  function Told(u: Setup, clock: nat, payload: bytes, now: int): Sys
    requires Offers(u, payload) && clock < U64
  {
    StartReady(u, clock, payload);
    OnWire(Start(u), clock, payload).(hist := DoMark(DoAdd(Start(u).hist, EchoItem(1, clock, payload)), 1, now),
                                      wireSent := 1, sender := TIdle)
  }

  lemma FirstTold(u: Setup, acts: seq<Action>, clock: nat, payload: bytes, now: int)
    requires Offers(u, payload) && clock < U64 && |acts| >= 10 && acts[..8] == FirstSteps(clock, payload)
    requires acts[8] == TellBook(now) && acts[9] == CountSent
    ensures Run(u, acts[..10]) == Some(Told(u, clock, payload, now))
  {
    hide Run, EncodeEchoRequest, DoAdd, DoMark, EchoItem, Start, FirstSteps;
    RunEmpty(u, acts);
    StartReady(u, clock, payload);
    StartCounts(u);
    assert acts[0..8] == acts[..8];
    WrittenAt(u, acts, 0, clock, payload);
    ToldAt(u, acts, 8, now);
  }

  lemma ToldIs(u: Setup, clock: nat, payload: bytes, now: int)
    requires Offers(u, payload) && clock < U64
    ensures var s := Told(u, clock, payload, now);
            && s.requests == {EncodeEchoRequest(1, clock, payload)} && s.responses == {}
            && s.telemetry == u.telemetry && s.readers == Start(u).readers
            && s.hist == DoMark(DoAdd(NewHistory(u.timeoutNs, u.remember), EchoItem(1, clock, payload)), 1, now)
            && NoAlarm(s) && s.received == 0 && s.late == 0 && s.wireSent == 1
            && ReadyToGoOn(s) && s.sizes == u.sizes && s.lastSeq == 1
  {
    hide EncodeEchoRequest, DoAdd, DoMark, EchoItem;
    StartReady(u, clock, payload);
    StartCounts(u);
  }

  /** The sending threads are where they were at first. */
  predicate ReadyToGoOn(s: Sys)
  {
    s.sched.SIdle? && s.sender.TIdle? && s.txq == [] && !s.schedStop && !s.stopped
  }

  lemma StartCounts(u: Setup)
    ensures var s := Start(u);
            && s.wireSent == 0 && s.received == 0 && NoAlarm(s) && s.requests == {} && s.responses == {}
            && s.telemetry == u.telemetry && s.hist == NewHistory(u.timeoutNs, u.remember) && s.late == 0
  {
  }

  /** Nothing is open, and nothing was counted as lost or unsent. */
  predicate NothingLeft(b: BookState)
  {
    b.open.vals == map[] && b.lost == 0 && b.unsent == 0
  }

  /** The book when the answer comes: the item is handed out, and nothing is left. */
  lemma FirstTaken(u: Setup, clock: nat, payload: bytes, now: int)
    requires HeaderFits(ECHO, FLAG_REQ, 1, clock, |payload|)
    ensures var h := DoMark(DoAdd(NewHistory(u.timeoutNs, u.remember), EchoItem(1, clock, payload)), 1, now);
            && Take(h.book, 1).0 == Ok(EchoItem(1, clock, payload).(sendMono := Some(now)))
            && NothingLeft(DoTake(h, 1).book)
  {
    hide EncodeEchoRequest;
  }

  lemma TakenInTime(s: Sys, raw: bytes, frame: Frame, item: Pending)
    requires |s.readers| >= 1 && DecodePdu(raw) == Some(frame) && frame.IsResp()
    requires Take(s.hist.book, frame.seqNo).0 == Ok(item)
    ensures Delivered(s, 0, raw) ==
      s.(hist := DoTake(s.hist, frame.seqNo), readers := s.readers[0 := Taken(item, frame, false)])
  {
    hide DecodePdu, Take, DoTake;
  }

  /** The state in which the first ECHO has been taken by the reader. */
  function FirstBack(u: Setup, clock: nat, payload: bytes, now: int, resp: bytes, frame: Frame): Sys
    requires Offers(u, payload) && clock < U64 && u.readers >= 1
  {
    FirstIsIdle(u);
    var s := Told(u, clock, payload, now);
    s.(hist := DoTake(s.hist, 1), responses := {resp},
       readers := Start(u).readers[0 := Taken(EchoItem(1, clock, payload).(sendMono := Some(now)), frame, false)])
  }

  lemma Arrived(u: Setup, acts: seq<Action>, clock: nat, payload: bytes, now: int, trailer: bytes)
    requires u.telemetry && u.readers >= 1 && Offers(u, payload) && clock < U64 && |trailer| == TELEMETRY_SIZE
    requires |payload| + TELEMETRY_SIZE <= MAX_BODY
    requires acts == RoundTrip(clock, payload, now, EncodeEchoResponse(1, clock, payload, trailer))
    ensures var resp := EncodeEchoResponse(1, clock, payload, trailer);
            var frame := Frame(ECHO, 6, 1, clock, payload, DecodeTelemetry(trailer), resp);
            Run(u, acts[..12]) == Some(FirstBack(u, clock, payload, now, resp, frame))
  {
    hide Run, EncodeEchoRequest, EncodeEchoResponse, DecodePdu, IsAnswer, CutFrom, DoAdd, DoMark, DoTake, Take,
      EchoItem, Start, NewHistory, FirstSteps, RoundTrip, DecodeTelemetry, Delivered, Told, NoAlarm;
    var req, resp := EncodeEchoRequest(1, clock, payload), EncodeEchoResponse(1, clock, payload, trailer);
    var frame := Frame(ECHO, 6, 1, clock, payload, DecodeTelemetry(trailer), resp);
    WayThere(clock, payload, now, resp);
    FirstTold(u, acts, clock, payload, now);
    ToldIs(u, clock, payload, now);
    FirstIsIdle(u);
    FirstAnswer(clock, payload, trailer);
    var s := Told(u, clock, payload, now);
    assert s.responses + {resp} == {resp};
    ServedAt(u, acts, 10, req, resp, resp);
    FirstTaken(u, clock, payload, now);
    TakenInTime(s.(responses := {resp}), resp, frame, EchoItem(1, clock, payload).(sendMono := Some(now)));
  }

  /** What that state says. */
  lemma FirstBackIs(u: Setup, clock: nat, payload: bytes, now: int, resp: bytes, frame: Frame)
    requires Offers(u, payload) && clock < U64 && u.readers >= 1
    ensures var s := FirstBack(u, clock, payload, now, resp, frame);
            && |s.readers| >= 1 && NoAlarm(s) && s.received == 0 && s.late == 0 && s.wireSent == 1
            && NothingLeft(s.hist.book)
            && s.readers[0] == Taken(EchoItem(1, clock, payload).(sendMono := Some(now)), frame, false)
  {
    hide EncodeEchoRequest, DoAdd, DoMark, DoTake, EchoItem, NewHistory, Told;
    FirstTaken(u, clock, payload, now);
    ToldIs(u, clock, payload, now);
  }

  /** It is compared, and is no mismatch. */
  lemma FirstCompared(u: Setup, acts: seq<Action>, clock: nat, payload: bytes, now: int, trailer: bytes)
    requires u.telemetry && u.readers >= 1 && Offers(u, payload) && clock < U64 && |trailer| == TELEMETRY_SIZE
    requires |payload| + TELEMETRY_SIZE <= MAX_BODY
    requires acts == RoundTrip(clock, payload, now, EncodeEchoResponse(1, clock, payload, trailer))
    ensures Run(u, acts[..13]).Some?
    ensures var s := Run(u, acts[..13]).value;
            && s.received == 0 && s.wireSent == 1 && s.late == 0 && NoAlarm(s)
            && NothingLeft(s.hist.book) && |s.readers| >= 1
            && s.readers[0].Compared? && s.readers[0].item.mtype == ECHO && !s.readers[0].late
            && s.readers[0].frame.seqNo == s.readers[0].item.seqNo
  {
    hide Run, EncodeEchoRequest, EncodeEchoResponse, EchoItem, RoundTrip, FirstSteps, FirstBack, DecodeTelemetry,
      Enabled, Next, NothingLeft;
    var resp := EncodeEchoResponse(1, clock, payload, trailer);
    var frame := Frame(ECHO, 6, 1, clock, payload, DecodeTelemetry(trailer), resp);
    WayBack(clock, payload, now, resp);
    Arrived(u, acts, clock, payload, now, trailer);
    var s := FirstBack(u, clock, payload, now, resp, frame);
    FirstBackIs(u, clock, payload, now, resp, frame);
    CompareExactly(s, 0, 1, clock, payload, Some(now));
    RunPrefix(u, acts, 12);
    IsAnEcho(clock, payload, Some(now));
    assert Run(u, acts[..13]).value == s.(readers := Run(u, acts[..13]).value.readers);
  }

  /**
   With telemetry on, for every payload that leaves room for the trailer, every time, every instant at which the book
   is told and every trailer: the first ECHO is written, marked sent, answered, taken, compared and counted. It is
   received, nothing is open, lost or unsent, and no alarm is counted.
   */
  lemma AnswerReceived(u: Setup, clock: nat, payload: bytes, now: int, trailer: bytes) returns (acts: seq<Action>)
    requires u.telemetry && u.readers >= 1 && Offers(u, payload) && clock < U64 && |trailer| == TELEMETRY_SIZE
    requires |payload| + TELEMETRY_SIZE <= MAX_BODY
    ensures acts == RoundTrip(clock, payload, now, EncodeEchoResponse(1, clock, payload, trailer))
    ensures Run(u, acts).Some?
    ensures var s := Run(u, acts).value;
            && s.received == 1 && s.wireSent == 1 && s.late == 0 && NoAlarm(s)
            && NothingLeft(s.hist.book)
            && |s.readers| >= 1 && s.readers[0] == RIdle
  {
    hide Run, EncodeEchoRequest, EncodeEchoResponse, RoundTrip, FirstSteps, NothingLeft;
    acts := RoundTrip(clock, payload, now, EncodeEchoResponse(1, clock, payload, trailer));
    WayBack(clock, payload, now, EncodeEchoResponse(1, clock, payload, trailer));
    FirstCompared(u, acts, clock, payload, now, trailer);
    CheckAndCount(u, acts, 13);
  }

  lemma IsAnEcho(clock: nat, payload: bytes, sent: Option<int>)
    requires HeaderFits(ECHO, FLAG_REQ, 1, clock, |payload|)
    ensures var item := EchoItem(1, clock, payload).(sendMono := sent); item.mtype == ECHO && item.seqNo == 1
  {
  }

  /** The rest of a reader's work on an ECHO found under its number. */
  lemma CheckAndCount(u: Setup, acts: seq<Action>, i: nat)
    requires |acts| >= i + 3 && acts[i] == CheckSeq(0) && acts[i + 1] == CountIn(0) && acts[i + 2] == ApplyIn(0)
    requires Run(u, acts[..i]).Some? && |Run(u, acts[..i]).value.readers| >= 1
    requires var r := Run(u, acts[..i]).value.readers[0];
             r.Compared? && r.item.mtype == ECHO && r.frame.seqNo == r.item.seqNo
    ensures Run(u, acts[..i + 3]).Some?
    ensures var (s, s') := (Run(u, acts[..i]).value, Run(u, acts[..i + 3]).value);
            s' == s.(received := s.received + 1, late := s.late + (if s.readers[0].late then 1 else 0),
                     readers := s.readers[0 := RIdle])
  {
    hide Run, Enabled, Next, AcceptableStatus;
    var s := Run(u, acts[..i]).value;
    CheckAndCountExactly(s, 0);
    RunPrefix(u, acts, i);
    var s1 := Run(u, acts[..i + 1]).value;
    CheckAndCountExactly(s1, 0);
    RunPrefix(u, acts, i + 1);
    var s2 := Run(u, acts[..i + 2]).value;
    ApplyExactly(s2, 0);
    RunPrefix(u, acts, i + 2);
    assert s.readers[0 := s1.readers[0]][0 := s2.readers[0]][0 := RIdle] == s.readers[0 := RIdle];
  }

  // ----- and when it comes after the timeout -----

  /** The steps of the first ECHO of a run, answered after a reap. */
  function LateTrip(clock: nat, payload: bytes, now: int, reapedAt: int, resp: bytes): seq<Action>
    requires HeaderFits(ECHO, FLAG_REQ, 1, clock, |payload|)
  {
    FirstSteps(clock, payload) +
    [TellBook(now), CountSent, ReapNow(reapedAt), Serve(EncodeEchoRequest(1, clock, payload), resp), Deliver(0, resp),
     Compare(0), CheckSeq(0), CountIn(0), ApplyIn(0)]
  }

  lemma LateThere(clock: nat, payload: bytes, now: int, reapedAt: int, resp: bytes)
    requires HeaderFits(ECHO, FLAG_REQ, 1, clock, |payload|)
    ensures var acts := LateTrip(clock, payload, now, reapedAt, resp);
            && |acts| == 17 && acts[..8] == FirstSteps(clock, payload)
            && acts[8] == TellBook(now) && acts[9] == CountSent && acts[10] == ReapNow(reapedAt)
            && acts[11] == Serve(EncodeEchoRequest(1, clock, payload), resp) && acts[12] == Deliver(0, resp)
  {
    hide EncodeEchoRequest, FirstSteps;
  }

  lemma LateBack(clock: nat, payload: bytes, now: int, reapedAt: int, resp: bytes)
    requires HeaderFits(ECHO, FLAG_REQ, 1, clock, |payload|)
    ensures var acts := LateTrip(clock, payload, now, reapedAt, resp);
            && |acts| == 17 && acts[..17] == acts
            && acts[13] == Compare(0) && acts[14] == CheckSeq(0) && acts[15] == CountIn(0) && acts[16] == ApplyIn(0)
  {
    hide EncodeEchoRequest, FirstSteps;
  }

  /** The book after that reap, and when the answer comes. */
  lemma LateTaken(u: Setup, clock: nat, payload: bytes, now: int, reapedAt: int)
    requires HeaderFits(ECHO, FLAG_REQ, 1, clock, |payload|) && reapedAt - now >= u.timeoutNs && u.remember >= 1
    ensures var h := DoMark(DoAdd(NewHistory(u.timeoutNs, u.remember), EchoItem(1, clock, payload)), 1, now);
            var reaped := DoReap(h, reapedAt, false);
            && reaped.book.lost == 1 && reaped.book.open.vals == map[]
            && Take(reaped.book, 1).0 == Late(EchoItem(1, clock, payload).(sendMono := Some(now)))
            && NothingLeft(DoTake(reaped, 1).book)
  {
    hide EncodeEchoRequest;
    var h := DoMark(DoAdd(NewHistory(u.timeoutNs, u.remember), EchoItem(1, clock, payload)), 1, now);
    assert h.book.open.keys == [1] && [1][..0] == [];
    assert DoReapKeys(h, [], reapedAt, false) == h;
    assert DoReapKeys(h, [1], reapedAt, false) == DoReapOne(h, 1, reapedAt, false);
  }

  /** The state in which it is lost. */
  lemma FirstReaped(u: Setup, acts: seq<Action>, clock: nat, payload: bytes, now: int, reapedAt: int)
    requires Offers(u, payload) && clock < U64 && |acts| >= 11 && acts[..8] == FirstSteps(clock, payload)
    requires acts[8] == TellBook(now) && acts[9] == CountSent && acts[10] == ReapNow(reapedAt)
    ensures var s := Told(u, clock, payload, now);
            Run(u, acts[..11]) == Some(s.(hist := DoReap(s.hist, reapedAt, false)))
  {
    hide Run, Told, FirstSteps, IsAnswer, CutFrom, DoReap, SchedulerNext, SenderNext, ProbeNext, ReaderNext;
    FirstTold(u, acts, clock, payload, now);
    RunPrefix(u, acts, 10);
  }

  lemma TakenTooLate(s: Sys, raw: bytes, frame: Frame, item: Pending)
    requires |s.readers| >= 1 && DecodePdu(raw) == Some(frame) && frame.IsResp()
    requires Take(s.hist.book, frame.seqNo).0 == Late(item)
    ensures Delivered(s, 0, raw) ==
      s.(hist := DoTake(s.hist, frame.seqNo), readers := s.readers[0 := Taken(item, frame, true)])
  {
    hide DecodePdu, Take, DoTake;
  }

  lemma LateArrived(u: Setup, acts: seq<Action>, clock: nat, payload: bytes, now: int, reapedAt: int, trailer: bytes)
    requires u.telemetry && u.readers >= 1 && Offers(u, payload) && clock < U64 && |trailer| == TELEMETRY_SIZE
    requires |payload| + TELEMETRY_SIZE <= MAX_BODY && reapedAt - now >= u.timeoutNs && u.remember >= 1
    requires acts == LateTrip(clock, payload, now, reapedAt, EncodeEchoResponse(1, clock, payload, trailer))
    ensures Run(u, acts[..13]).Some?
    ensures var s := Run(u, acts[..13]).value;
            && |s.readers| >= 1 && NoAlarm(s) && s.received == 0 && s.late == 0 && NothingLeft(s.hist.book)
            && s.readers[0].Taken? && s.readers[0].item == EchoItem(1, clock, payload).(sendMono := Some(now))
            && s.readers[0].late && s.readers[0].frame.payload == payload && s.readers[0].frame.seqNo == 1
  {
    hide Run, EncodeEchoRequest, EncodeEchoResponse, DecodePdu, IsAnswer, CutFrom, DoAdd, DoMark, DoTake, DoReap, Take,
      EchoItem, Start, NewHistory, FirstSteps, LateTrip, DecodeTelemetry, Delivered, Told, NothingLeft;
    var req, resp := EncodeEchoRequest(1, clock, payload), EncodeEchoResponse(1, clock, payload, trailer);
    LateThere(clock, payload, now, reapedAt, resp);
    FirstReaped(u, acts, clock, payload, now, reapedAt);
    ToldIs(u, clock, payload, now);
    FirstIsIdle(u);
    FirstAnswer(clock, payload, trailer);
    var s := Run(u, acts[..11]).value;
    assert s.responses + {resp} == {resp};
    ServedAt(u, acts, 11, req, resp, resp);
    LateTaken(u, clock, payload, now, reapedAt);
    TakenTooLate(s.(responses := {resp}), resp, Frame(ECHO, 6, 1, clock, payload, DecodeTelemetry(trailer), resp),
                 EchoItem(1, clock, payload).(sendMono := Some(now)));
  }

  lemma LateCompared(u: Setup, acts: seq<Action>, clock: nat, payload: bytes, now: int, reapedAt: int, trailer: bytes)
    requires u.telemetry && u.readers >= 1 && Offers(u, payload) && clock < U64 && |trailer| == TELEMETRY_SIZE
    requires |payload| + TELEMETRY_SIZE <= MAX_BODY && reapedAt - now >= u.timeoutNs && u.remember >= 1
    requires acts == LateTrip(clock, payload, now, reapedAt, EncodeEchoResponse(1, clock, payload, trailer))
    ensures Run(u, acts[..14]).Some?
    ensures var s := Run(u, acts[..14]).value;
            && |s.readers| >= 1 && NoAlarm(s) && s.received == 0 && s.late == 0 && NothingLeft(s.hist.book)
            && s.readers[0].Compared? && s.readers[0].item.mtype == ECHO && s.readers[0].late
            && s.readers[0].frame.seqNo == s.readers[0].item.seqNo
  {
    hide Run, EncodeEchoRequest, EncodeEchoResponse, EchoItem, LateTrip, FirstSteps, Enabled, Next, NothingLeft;
    LateBack(clock, payload, now, reapedAt, EncodeEchoResponse(1, clock, payload, trailer));
    LateArrived(u, acts, clock, payload, now, reapedAt, trailer);
    var s := Run(u, acts[..13]).value;
    CompareExactly(s, 0, 1, clock, payload, Some(now));
    RunPrefix(u, acts, 13);
    IsAnEcho(clock, payload, Some(now));
    assert Run(u, acts[..14]).value == s.(readers := Run(u, acts[..14]).value.readers);
  }

  /**
   The same when the answer comes after the first ECHO has timed out: it is lost in a reap at least timeoutNs after its
   mark, and no longer lost but received, and counted as late, once the answer has come.
   */
  lemma LateReceived(u: Setup, clock: nat, payload: bytes, now: int, reapedAt: int, trailer: bytes)
    returns (acts: seq<Action>)
    requires u.telemetry && u.readers >= 1 && Offers(u, payload) && clock < U64 && |trailer| == TELEMETRY_SIZE
    requires |payload| + TELEMETRY_SIZE <= MAX_BODY && reapedAt - now >= u.timeoutNs && u.remember >= 1
    ensures acts == LateTrip(clock, payload, now, reapedAt, EncodeEchoResponse(1, clock, payload, trailer))
    ensures Run(u, acts[..11]).Some? && Run(u, acts[..11]).value.hist.book.lost == 1
    ensures Run(u, acts).Some?
    ensures var s := Run(u, acts).value;
            && s.received == 1 && s.late == 1 && NoAlarm(s) && NothingLeft(s.hist.book)
            && |s.readers| >= 1 && s.readers[0] == RIdle
  {
    hide Run, EncodeEchoRequest, EncodeEchoResponse, LateTrip, FirstSteps, NothingLeft;
    acts := LateTrip(clock, payload, now, reapedAt, EncodeEchoResponse(1, clock, payload, trailer));
    LostFirst(u, acts, clock, payload, now, reapedAt, EncodeEchoResponse(1, clock, payload, trailer));
    LateBack(clock, payload, now, reapedAt, EncodeEchoResponse(1, clock, payload, trailer));
    LateCompared(u, acts, clock, payload, now, reapedAt, trailer);
    CheckAndCount(u, acts, 14);
  }

  lemma LostFirst(u: Setup, acts: seq<Action>, clock: nat, payload: bytes, now: int, reapedAt: int, resp: bytes)
    requires Offers(u, payload) && clock < U64 && reapedAt - now >= u.timeoutNs && u.remember >= 1
    requires acts == LateTrip(clock, payload, now, reapedAt, resp)
    ensures |acts| >= 11 && Run(u, acts[..11]).Some? && Run(u, acts[..11]).value.hist.book.lost == 1
  {
    hide Run, Told, FirstSteps, DoReap, DoMark, DoAdd, EchoItem, LateTrip, EncodeEchoRequest, NothingLeft, Take, DoTake;
    LateThere(clock, payload, now, reapedAt, resp);
    FirstReaped(u, acts, clock, payload, now, reapedAt);
    ToldIs(u, clock, payload, now);
    LateTaken(u, clock, payload, now, reapedAt);
  }

  // ----- the same for a probe -----

  /** The steps of the first probe of a run, up to the socket and to the counter. */
  function ProbeSteps(clock: nat, now: int): seq<Action>
  {
    [ProbeTest, ProbeNumber, ProbeEnlist(clock), ProbeOk, ProbeMark(now), ProbeCount]
  }

  function StatusTrip(clock: nat, now: int, resp: bytes): seq<Action>
    requires clock < U64
  {
    ProbeSteps(clock, now) + [Serve(EncodeStatusRequest(1, clock), resp), Deliver(0, resp),
                              Compare(0), CheckSeq(0), CountIn(0), ApplyIn(0)]
  }

  /** The state after the first six steps. */
  function Probed(u: Setup, clock: nat, now: int): Sys
    requires clock < U64
  {
    Start(u).(lastSeq := 1, statusSent := 1, hist := DoMark(DoAdd(Start(u).hist, StatusItem(1, clock)), 1, now),
              requests := {EncodeStatusRequest(1, clock)}, wired := {1})
  }

  lemma StartIdle(u: Setup)
    ensures var s := Start(u);
            s.probe == PIdle && !s.stopped && s.lastSeq == 0 && s.statusSent == 0 && s.requests == {} && s.wired == {}
  {
  }

  /** Each step of the probe, as it comes. */
  lemma ProbeGoes(s: Sys, clock: nat, now: int)
    requires clock < U64
    ensures s.probe.PIdle? && !s.stopped ==> Enabled(s, ProbeTest) && Next(s, ProbeTest) == s.(probe := PReady)
    ensures s.probe.PReady? ==>
              && Enabled(s, ProbeNumber)
              && Next(s, ProbeNumber) == s.(lastSeq := s.lastSeq + 1, probe := PNumbered(s.lastSeq + 1))
    ensures s.probe == PNumbered(1) ==>
              && Enabled(s, ProbeEnlist(clock))
              && Next(s, ProbeEnlist(clock)) == s.(hist := DoAdd(s.hist, StatusItem(1, clock)),
                                                   probe := PEnlisted(Outgoing(1, EncodeStatusRequest(1, clock))))
    ensures s.probe.PEnlisted? ==>
              var out := s.probe.out;
              && Enabled(s, ProbeOk)
              && Next(s, ProbeOk) == s.(requests := s.requests + {out.raw}, wired := s.wired + {out.seqNo},
                                        probe := PWritten(out.seqNo))
    ensures s.probe.PWritten? ==>
              && Enabled(s, ProbeMark(now))
              && Next(s, ProbeMark(now)) == s.(hist := DoMark(s.hist, s.probe.seqNo, now), probe := PMarked)
    ensures s.probe.PMarked? ==>
              && Enabled(s, ProbeCount)
              && Next(s, ProbeCount) == s.(statusSent := s.statusSent + 1, probe := PIdle)
  {
    hide EncodeStatusRequest, IsAnswer, CutFrom, SchedulerNext, SenderNext, ReaderNext, OthersNext, DoAdd, DoMark,
      DoUnsend;
  }

  lemma ProbeStepsAre(acts: seq<Action>, clock: nat, now: int)
    requires |acts| >= 6 && acts[..6] == ProbeSteps(clock, now)
    ensures acts[0] == ProbeTest && acts[1] == ProbeNumber && acts[2] == ProbeEnlist(clock)
    ensures acts[3] == ProbeOk && acts[4] == ProbeMark(now) && acts[5] == ProbeCount
  {
    var steps := acts[..6];
    assert acts[0] == steps[0] && acts[1] == steps[1] && acts[2] == steps[2];
    assert acts[3] == steps[3] && acts[4] == steps[4] && acts[5] == steps[5];
  }

  lemma ProbeNumbered(u: Setup, acts: seq<Action>, clock: nat, now: int)
    requires clock < U64 && |acts| >= 6 && acts[0] == ProbeTest && acts[1] == ProbeNumber
    ensures Run(u, acts[..2]) == Some(Start(u).(lastSeq := 1, probe := PNumbered(1)))
  {
    hide Run, Start, Enabled, Next, EncodeStatusRequest, DoAdd, DoMark, StatusItem;
    StartIdle(u);
    RunEmpty(u, acts);
    ProbeGoes(Start(u), clock, now);
    RunPrefix(u, acts, 0);
    ProbeGoes(Run(u, acts[..1]).value, clock, now);
    RunPrefix(u, acts, 1);
  }

  lemma ProbeBooked(u: Setup, acts: seq<Action>, clock: nat, now: int)
    requires clock < U64 && |acts| >= 6 && acts[0] == ProbeTest && acts[1] == ProbeNumber
      && acts[2] == ProbeEnlist(clock)
    ensures Run(u, acts[..3]) ==
      Some(Start(u).(lastSeq := 1, hist := DoAdd(Start(u).hist, StatusItem(1, clock)),
                     probe := PEnlisted(Outgoing(1, EncodeStatusRequest(1, clock)))))
  {
    hide Run, Start, Enabled, Next, EncodeStatusRequest, DoAdd, DoMark, StatusItem;
    ProbeNumbered(u, acts, clock, now);
    ProbeGoes(Run(u, acts[..2]).value, clock, now);
    RunPrefix(u, acts, 2);
  }

  lemma FirstProbed(u: Setup, acts: seq<Action>, clock: nat, now: int)
    requires clock < U64 && |acts| >= 6 && acts[..6] == ProbeSteps(clock, now)
    ensures Run(u, acts[..6]) == Some(Probed(u, clock, now))
  {
    hide Run, Start, Enabled, Next, EncodeStatusRequest, DoAdd, DoMark, StatusItem, ProbeSteps;
    ProbeStepsAre(acts, clock, now);
    StartIdle(u);
    ProbeBooked(u, acts, clock, now);
    var s := Run(u, acts[..3]).value;
    assert s.requests + {EncodeStatusRequest(1, clock)} == {EncodeStatusRequest(1, clock)} && s.wired + {1} == {1};
    ProbeGoes(s, clock, now);
    RunPrefix(u, acts, 3);
    ProbeGoes(Run(u, acts[..4]).value, clock, now);
    RunPrefix(u, acts, 4);
    ProbeGoes(Run(u, acts[..5]).value, clock, now);
    RunPrefix(u, acts, 5);
  }

  lemma StatusThere(clock: nat, now: int, resp: bytes)
    requires clock < U64
    ensures var acts := StatusTrip(clock, now, resp);
            && |acts| == 12 && acts[..6] == ProbeSteps(clock, now)
            && acts[6] == Serve(EncodeStatusRequest(1, clock), resp) && acts[7] == Deliver(0, resp)
  {
    hide EncodeStatusRequest;
  }

  lemma StatusBack(clock: nat, now: int, resp: bytes)
    requires clock < U64
    ensures var acts := StatusTrip(clock, now, resp);
            && |acts| == 12 && acts[..12] == acts
            && acts[8] == Compare(0) && acts[9] == CheckSeq(0) && acts[10] == CountIn(0) && acts[11] == ApplyIn(0)
  {
    hide EncodeStatusRequest;
  }

  lemma BodyAcceptable(body: bytes)
    requires IsStatusBody(body)
    ensures AcceptableStatus(body)
  {
    hide IsStatusBody, DecodeStatusBody, AcceptableStatus;
    StatusBodyAccepted(body);
    StatusDecodesExactly(body);
  }

  lemma StatusAnswer(telemetry: bool, clock: nat, body: bytes)
    requires clock < U64 && |body| <= MAX_BODY && IsStatusBody(body)
    ensures var req, resp := EncodeStatusRequest(1, clock), EncodeStatusResponse(1, clock, body);
            && IsAnswer(telemetry, req, resp) && CutFrom({req}, req) && CutFrom({resp}, resp)
            && DecodePdu(resp) == Some(Frame(STATUS, FLAG_RESP, 1, clock, body, None, resp))
  {
    hide DecodePdu, IsPdu, CutFrom, EncodeStatusRequest, EncodeStatusResponse, IsAnswer, IsStatusBody;
    var req, resp := EncodeStatusRequest(1, clock), EncodeStatusResponse(1, clock, body);
    EncodedStatusRequest(1, clock);
    AcceptedIsPdu(req);
    CutWhole({req}, req);
    StatusResponseSays(1, clock, body);
    AcceptedIsPdu(resp);
    CutWhole({resp}, resp);
    AnswerExists(telemetry, req, seq(TELEMETRY_SIZE, i => 0), body);
  }

  lemma ProbeTaken(u: Setup, clock: nat, now: int)
    requires clock < U64
    ensures var h := DoMark(DoAdd(Start(u).hist, StatusItem(1, clock)), 1, now);
            && Take(h.book, 1).0 == Ok(StatusItem(1, clock).(sendMono := Some(now)))
            && NothingLeft(DoTake(h, 1).book)
    ensures StatusItem(1, clock).seqNo == 1 && StatusItem(1, clock).mtype == STATUS
  {
    hide EncodeStatusRequest;
  }

  lemma ProbedIs(u: Setup, clock: nat, now: int)
    requires clock < U64
    ensures var s := Probed(u, clock, now);
            && s.requests == {EncodeStatusRequest(1, clock)} && s.responses == {} && s.telemetry == u.telemetry
            && s.readers == Start(u).readers && s.hist == DoMark(DoAdd(Start(u).hist, StatusItem(1, clock)), 1, now)
            && NoAlarm(s) && s.statusReceived == 0 && s.statusSent == 1 && s.received == 0
  {
    hide EncodeStatusRequest, DoAdd, DoMark, StatusItem;
  }

  /** The probe's answer is in the reader's hands. */
  lemma StatusArrived(u: Setup, acts: seq<Action>, clock: nat, now: int, body: bytes)
    requires u.readers >= 1 && clock < U64 && |body| <= MAX_BODY && IsStatusBody(body)
    requires acts == StatusTrip(clock, now, EncodeStatusResponse(1, clock, body))
    ensures Run(u, acts[..8]).Some?
    ensures var s := Run(u, acts[..8]).value;
            && |s.readers| >= 1 && NoAlarm(s) && s.statusReceived == 0 && s.statusSent == 1 && s.received == 0
            && NothingLeft(s.hist.book) && s.readers[0].Taken? && s.readers[0].item.mtype == STATUS
            && !s.readers[0].late && s.readers[0].frame.payload == body
  {
    hide Run, EncodeStatusRequest, EncodeStatusResponse, DecodePdu, IsAnswer, CutFrom, DoAdd, DoMark, DoTake, Take,
      StatusItem, NewHistory, StatusTrip, Delivered, NothingLeft, IsStatusBody, Start, Probed, ProbeSteps;
    var resp := EncodeStatusResponse(1, clock, body);
    StatusThere(clock, now, resp);
    FirstProbed(u, acts, clock, now);
    ProbedIs(u, clock, now);
    FirstIsIdle(u);
    StatusAnswer(u.telemetry, clock, body);
    var s := Probed(u, clock, now);
    assert s.responses + {resp} == {resp};
    ServedAt(u, acts, 6, EncodeStatusRequest(1, clock), resp, resp);
    ProbeTaken(u, clock, now);
    TakenInTime(s.(responses := {resp}), resp, Frame(STATUS, FLAG_RESP, 1, clock, body, None, resp),
                StatusItem(1, clock).(sendMono := Some(now)));
  }

  /**
   Telemetry on or off, for every time, every instant at which the book is told and every body the server may report:
   the first probe is written, marked sent, answered, taken, counted and applied, and no alarm is counted.
   */
  lemma StatusReceived(u: Setup, clock: nat, now: int, body: bytes) returns (acts: seq<Action>)
    requires u.readers >= 1 && clock < U64 && |body| <= MAX_BODY && IsStatusBody(body)
    ensures acts == StatusTrip(clock, now, EncodeStatusResponse(1, clock, body))
    ensures Run(u, acts).Some?
    ensures var s := Run(u, acts).value;
            && s.statusReceived == 1 && s.statusSent == 1 && s.received == 0 && NoAlarm(s) && NothingLeft(s.hist.book)
            && |s.readers| >= 1 && s.readers[0] == RIdle
  {
    hide Run, EncodeStatusRequest, EncodeStatusResponse, StatusTrip, NothingLeft, Enabled, Next, AcceptableStatus,
      IsStatusBody, DecodeStatusBody;
    var resp := EncodeStatusResponse(1, clock, body);
    acts := StatusTrip(clock, now, resp);
    StatusBack(clock, now, resp);
    StatusArrived(u, acts, clock, now, body);
    ProbeCountedIn(u, acts);
    BodyAcceptable(body);
    ApplyExactly(Run(u, acts[..11]).value, 0);
    RunPrefix(u, acts, 11);
  }

  /** The reader's work on it, up to the counter. */
  lemma ProbeCountedIn(u: Setup, acts: seq<Action>)
    requires |acts| >= 11 && acts[8] == Compare(0) && acts[9] == CheckSeq(0) && acts[10] == CountIn(0)
    requires Run(u, acts[..8]).Some? && |Run(u, acts[..8]).value.readers| >= 1
    requires var r := Run(u, acts[..8]).value.readers[0]; r.Taken? && r.item.mtype == STATUS && !r.late
    ensures Run(u, acts[..11]).Some?
    ensures var (s, s') := (Run(u, acts[..8]).value, Run(u, acts[..11]).value);
            s' == s.(statusReceived := s.statusReceived + 1,
                     readers := s.readers[0 := Counted(s.readers[0].item, s.readers[0].frame)])
  {
    hide Run, Enabled, Next;
    var s := Run(u, acts[..8]).value;
    CompareProbe(s, 0);
    RunPrefix(u, acts, 8);
    var s1 := Run(u, acts[..9]).value;
    CheckAndCountExactly(s1, 0);
    RunPrefix(u, acts, 9);
    var s2 := Run(u, acts[..10]).value;
    CheckAndCountExactly(s2, 0);
    RunPrefix(u, acts, 10);
    var last := Run(u, acts[..11]).value.readers[0];
    assert s.readers[0 := s1.readers[0]][0 := s2.readers[0]][0 := last] == s.readers[0 := last];
  }
  // ----- writes that fail -----

  lemma FailsAt(u: Setup, acts: seq<Action>, i: nat)
    requires i + 2 <= |acts| && acts[i] == SendFail && acts[i + 1] == GiveUp
    requires Run(u, acts[..i]).Some? && Run(u, acts[..i]).value.sender.Holding?
    ensures var s := Run(u, acts[..i]).value;
            Run(u, acts[..i + 2]) ==
              Some(s.(hist := DoUnsend(s.hist, s.sender.out.seqNo), sender := TDone, stopped := true))
  {
    hide Run, IsAnswer, CutFrom, SchedulerNext, ProbeNext, ReaderNext, OthersNext, DoUnsend, DoMark;
    RunPrefix(u, acts, i);
    RunPrefix(u, acts, i + 1);
  }

  lemma FirstUnsent(u: Setup, clock: nat, payload: bytes)
    requires HeaderFits(ECHO, FLAG_REQ, 1, clock, |payload|)
    ensures var b := DoUnsend(DoAdd(NewHistory(u.timeoutNs, u.remember), EchoItem(1, clock, payload)), 1).book;
            b.open.vals == map[] && b.unsent == 1 && b.lost == 0
  {
    hide EncodeEchoRequest;
  }

  /** For every payload and time: writing the first ECHO fails, and it is unsent, with nothing open or written. */
  lemma FailedRun(u: Setup, clock: nat, payload: bytes) returns (acts: seq<Action>)
    requires Offers(u, payload) && clock < U64
    ensures acts == FirstSteps(clock, payload)[..7] + [SendFail, GiveUp]
    ensures Run(u, acts).Some?
    ensures var s := Run(u, acts).value;
            && s.offered == 1 && s.wireSent == 0 && s.requests == {} && s.stopped && s.sender.TDone?
            && s.hist.book.open.vals == map[] && s.hist.book.unsent == 1 && s.hist.book.lost == 0
  {
    hide Run, EncodeEchoRequest, DoAdd, DoUnsend, EchoItem, FirstSteps, NewHistory;
    acts := FirstSteps(clock, payload)[..7] + [SendFail, GiveUp];
    RunEmpty(u, acts);
    StartReady(u, clock, payload);
    StartCounts(u);
    assert acts[0..7] == FirstSteps(clock, payload)[..7] && acts[7] == SendFail && acts[8] == GiveUp;
    PickedAt(u, acts, 0, clock, payload);
    FailsAt(u, acts, 7);
    FirstUnsent(u, clock, payload);
    assert acts[..9] == acts;
  }
}
