/** Runs of the client machine put together from a few steps: an ECHO on its way to the server and back. */
module ClientScripts {
  import opened Wrappers
  import opened Wire
  import opened Protocol
  import opened StatusBody
  import opened Streams
  import opened Answers
  import opened BookHistory
  import opened ClientMachine
  import opened ClientRuns

  lemma RunPrefix(u: Setup, acts: seq<Action>, i: nat)
    requires i < |acts| && Run(u, acts[..i]).Some? && Enabled(Run(u, acts[..i]).value, acts[i])
    ensures Run(u, acts[..i + 1]) == Some(Next(Run(u, acts[..i]).value, acts[i]))
  {
    hide Enabled, Next, Run;
    RunNext(u, acts[..i], acts[i]);
    assert acts[..i + 1] == acts[..i] + [acts[i]];
  }

  lemma RunEmpty(u: Setup, acts: seq<Action>)
    ensures Run(u, acts[..0]) == Some(Start(u))
  {
  }

  /** The scheduler finds both flags clear and counts the first ECHO. */
  const FIRST_OFFER := [TestSched, TestStop, Offer]

  /** A payload the client may make. */
  predicate Offers(u: Setup, payload: bytes)
  {
    u.sizes.least <= |payload| <= u.sizes.most && |payload| + INNER_HDR_SIZE < U32
  }

  /** The state after those three steps, from any state in which the scheduler is at its loop. */
  lemma OfferedAt(u: Setup, acts: seq<Action>, i: nat)
    requires i + 3 <= |acts| && acts[i..i + 3] == FIRST_OFFER && Run(u, acts[..i]).Some?
    requires var s := Run(u, acts[..i]).value; s.sched.SIdle? && !s.schedStop && !s.stopped
    ensures var s := Run(u, acts[..i]).value;
            Run(u, acts[..i + 3]) == Some(s.(offered := s.offered + 1, sched := Offered))
  {
    hide Run, IsAnswer, CutFrom, SenderNext, ProbeNext, ReaderNext, OthersNext;
    var steps := acts[i..i + 3];
    assert acts[i] == steps[0] && acts[i + 1] == steps[1] && acts[i + 2] == steps[2];
    RunPrefix(u, acts, i);
    RunPrefix(u, acts, i + 1);
    RunPrefix(u, acts, i + 2);
  }

  lemma FirstOffered(u: Setup, acts: seq<Action>)
    requires |acts| >= 3 && acts[..3] == FIRST_OFFER
    ensures Run(u, acts[..3]) == Some(Start(u).(offered := 1, sched := Offered))
  {
    hide Run, IsAnswer, CutFrom;
    RunEmpty(u, acts);
    assert acts[0..3] == acts[..3];
    OfferedAt(u, acts, 0);
  }

  /** The steps by which the first ECHO reaches the network. */
  function FirstSteps(clock: nat, payload: bytes): (acts: seq<Action>)
    ensures |acts| == 8
  {
    FIRST_OFFER + [Number, Enlist(clock, payload), Queue, Pick, SendOk]
  }

  /** What is on the queue. */
  function Request(seqNo: nat, clock: nat, payload: bytes): Outgoing
    requires HeaderFits(ECHO, FLAG_REQ, seqNo, clock, |payload|)
  {
    Outgoing(seqNo, EncodeEchoRequest(seqNo, clock, payload))
  }

  /** A state in which an ECHO can go straight from the scheduler to the socket. */
  predicate ReadyFor(s: Sys, clock: nat, payload: bytes)
  {
    && s.sched.SIdle? && s.sender.TIdle? && s.txq == [] && !s.schedStop && !s.stopped
    && s.sizes.least <= |payload| <= s.sizes.most && HeaderFits(ECHO, FLAG_REQ, s.lastSeq + 1, clock, |payload|)
  }

  /** It has entered the book. */
  function InBook(s: Sys, clock: nat, payload: bytes): Sys
    requires ReadyFor(s, clock, payload)
  {
    var n := s.lastSeq + 1;
    s.(offered := s.offered + 1, lastSeq := n, hist := DoAdd(s.hist, EchoItem(n, clock, payload)),
       sched := Enlisted(Request(n, clock, payload)))
  }

  /** It is in the sender's hands. */
  function InSender(s: Sys, clock: nat, payload: bytes): Sys
    requires ReadyFor(s, clock, payload)
  {
    InBook(s, clock, payload).(sched := SIdle, sender := Holding(Request(s.lastSeq + 1, clock, payload)))
  }

  /** It is on the network. */
  function OnWire(s: Sys, clock: nat, payload: bytes): Sys
    requires ReadyFor(s, clock, payload)
  {
    var out := Request(s.lastSeq + 1, clock, payload);
    InSender(s, clock, payload).(sender := Written(out),
                                 requests := s.requests + {out.raw}, wired := s.wired + {out.seqNo})
  }

  lemma BookedAt(u: Setup, acts: seq<Action>, i: nat, clock: nat, payload: bytes)
    requires i + 7 <= |acts| && acts[i..i + 7] == FirstSteps(clock, payload)[..7]
    requires Run(u, acts[..i]).Some? && ReadyFor(Run(u, acts[..i]).value, clock, payload)
    ensures Run(u, acts[..i + 5]) == Some(InBook(Run(u, acts[..i]).value, clock, payload))
  {
    hide Run, EncodeEchoRequest, IsAnswer, CutFrom, DoAdd, SenderNext, ProbeNext, ReaderNext, OthersNext;
    var steps := acts[i..i + 7];
    assert acts[i..i + 3] == steps[..3] && acts[i + 3] == steps[3] && acts[i + 4] == steps[4];
    OfferedAt(u, acts, i);
    RunPrefix(u, acts, i + 3);
    RunPrefix(u, acts, i + 4);
  }

  lemma PickedAt(u: Setup, acts: seq<Action>, i: nat, clock: nat, payload: bytes)
    requires i + 7 <= |acts| && acts[i..i + 7] == FirstSteps(clock, payload)[..7]
    requires Run(u, acts[..i]).Some? && ReadyFor(Run(u, acts[..i]).value, clock, payload)
    ensures Run(u, acts[..i + 7]) == Some(InSender(Run(u, acts[..i]).value, clock, payload))
  {
    hide Run, EncodeEchoRequest, IsAnswer, CutFrom, DoAdd, EchoItem, ProbeNext, ReaderNext, OthersNext;
    var steps := acts[i..i + 7];
    assert acts[i + 5] == steps[5] && acts[i + 6] == steps[6];
    BookedAt(u, acts, i, clock, payload);
    RunPrefix(u, acts, i + 5);
    var out := Request(Run(u, acts[..i]).value.lastSeq + 1, clock, payload);
    assert Run(u, acts[..i + 6]).value.txq == [out];
    RunPrefix(u, acts, i + 6);
    assert [out][1..] == [];
  }

  /** The eight steps, from any such state. */
  lemma WrittenAt(u: Setup, acts: seq<Action>, i: nat, clock: nat, payload: bytes)
    requires i + 8 <= |acts| && acts[i..i + 8] == FirstSteps(clock, payload)
    requires Run(u, acts[..i]).Some? && ReadyFor(Run(u, acts[..i]).value, clock, payload)
    ensures Run(u, acts[..i + 8]) == Some(OnWire(Run(u, acts[..i]).value, clock, payload))
  {
    hide Run, EncodeEchoRequest, IsAnswer, CutFrom, DoAdd, EchoItem, SchedulerNext, ProbeNext, ReaderNext, OthersNext;
    assert acts[i + 7] == acts[i..i + 8][7] && acts[i..i + 7] == acts[i..i + 8][..7];
    PickedAt(u, acts, i, clock, payload);
    RunPrefix(u, acts, i + 7);
  }

  lemma StartReady(u: Setup, clock: nat, payload: bytes)
    requires Offers(u, payload) && clock < U64
    ensures ReadyFor(Start(u), clock, payload) && Start(u).lastSeq == 0 && Start(u).offered == 0
  {
  }

  /** The first ECHO reaches the network. */
  lemma FirstWritten(u: Setup, acts: seq<Action>, clock: nat, payload: bytes)
    requires Offers(u, payload) && clock < U64 && |acts| >= 8 && acts[..8] == FirstSteps(clock, payload)
    ensures Run(u, acts[..8]).Some?
    ensures var s := Run(u, acts[..8]).value;
            var raw := EncodeEchoRequest(1, clock, payload);
            && SameSettings(Start(u), s) && SameFlags(Start(u), s) && SameAlarms(Start(u), s) && SameTotals(Start(u), s)
            && s.readers == Start(u).readers && s.sender == Written(Outgoing(1, raw))
            && s.requests == {raw} && s.responses == {}
            && s.offered == 1 && s.hist == DoAdd(Start(u).hist, EchoItem(1, clock, payload))
  {
    hide Run, EncodeEchoRequest, DoAdd, EchoItem, Start, FirstSteps;
    RunEmpty(u, acts);
    StartReady(u, clock, payload);
    NothingYet(u);
    assert acts[0..8] == acts[..8];
    WrittenAt(u, acts, 0, clock, payload);
  }

  lemma NothingYet(u: Setup)
    ensures Start(u).requests == {} && Start(u).responses == {} && !Start(u).reaped
  {
  }

  /** The ECHO that was just added is open and unsent. */
  lemma FirstIsHeld(u: Setup, clock: nat, payload: bytes)
    requires HeaderFits(ECHO, FLAG_REQ, 1, clock, |payload|)
    ensures var h := DoAdd(Start(u).hist, EchoItem(1, clock, payload));
            HeldUnsent(h.book, 1) && h.book.open.vals[1] == EchoItem(1, clock, payload) && h.book.seenAcks == []
  {
    hide EncodeEchoRequest;
  }

  // ----- and back -----

  /** Some STATUS body, for a server that has counted nothing. */
  lemma EmptyStatus() returns (body: bytes)
    ensures IsStatusBody(body) && |body| <= MAX_BODY
  {
    var snap := StatusSnapshot(0, 0, 0, 0, 0, 0, 0, 0, 0, 0, 1, None, None, [], []);
    body := EncodeStatusBody(snap, 0);
  }

  /** What an ECHO request asks for. */
  lemma EchoAnswered(telemetry: bool, clock: nat, payload: bytes, trailer: bytes)
    requires clock < U64 && |payload| <= MAX_BODY && |trailer| == TELEMETRY_SIZE
    ensures var req := EncodeEchoRequest(1, clock, payload);
            IsAnswer(telemetry, req, if telemetry then EncodeEchoResponse(1, clock, payload, trailer) else req)
  {
    hide DecodePdu, EncodeEchoRequest, EncodeEchoResponse, IsStatusBody;
    var body := EmptyStatus();
    EncodedEchoRequest(1, clock, payload);
    AnswerExists(telemetry, EncodeEchoRequest(1, clock, payload), trailer, body);
  }

  /** The sender tells the book and counts. */
  lemma ToldAt(u: Setup, acts: seq<Action>, i: nat, now: int)
    requires i + 2 <= |acts| && acts[i] == TellBook(now) && acts[i + 1] == CountSent
    requires Run(u, acts[..i]).Some? && Run(u, acts[..i]).value.sender.Written?
    ensures var s := Run(u, acts[..i]).value;
            Run(u, acts[..i + 2]) ==
              Some(s.(hist := DoMark(s.hist, s.sender.out.seqNo, now), wireSent := s.wireSent + 1, sender := TIdle))
  {
    hide Run, IsAnswer, CutFrom, SchedulerNext, ProbeNext, ReaderNext, OthersNext, DoUnsend, DoMark;
    RunPrefix(u, acts, i);
    RunPrefix(u, acts, i + 1);
  }

  /** The server answers something cut from the requests, and something cut from the responses arrives. */
  lemma ServedAt(u: Setup, acts: seq<Action>, i: nat, req: bytes, resp: bytes, raw: bytes)
    requires i + 2 <= |acts| && acts[i] == Serve(req, resp) && acts[i + 1] == Deliver(0, raw)
    requires Run(u, acts[..i]).Some?
    requires var s := Run(u, acts[..i]).value;
             && |s.readers| >= 1 && s.readers[0] == RIdle
             && CutFrom(s.requests, req) && IsAnswer(s.telemetry, req, resp) && CutFrom(s.responses + {resp}, raw)
    ensures var s := Run(u, acts[..i]).value;
            Run(u, acts[..i + 2]) == Some(Delivered(s.(responses := s.responses + {resp}), 0, raw))
  {
    hide Run, IsAnswer, CutFrom, Delivered, SchedulerNext, SenderNext, ProbeNext, DoReap;
    RunPrefix(u, acts, i);
    RunPrefix(u, acts, i + 1);
  }

  lemma FirstIsIdle(u: Setup)
    requires u.readers >= 1
    ensures |Start(u).readers| >= 1 && Start(u).readers[0] == RIdle
  {
  }
}
