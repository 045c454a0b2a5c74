/**
 Every step of the client machine keeps its invariant: the items, their numbers, the way to the socket, the
 network.
 */
module ClientSteps {
  import opened Wrappers
  import opened Wire
  import opened Protocol
  import opened Streams
  import opened Answers
  import opened Book
  import opened BookHistory
  import opened BookReap
  import opened ClientMachine

  // ----- the book -----

  /** The book's part of a step, as a step of the book alone. */
  ghost function BookOp(s: Sys, a: Action): Option<Op>
    requires Enabled(s, a)
  {
    match a
    case Enlist(clock, payload) => Some(Add(EchoItem(s.sched.seqNo, clock, payload)))
    case ProbeEnlist(clock) => Some(Add(StatusItem(s.probe.seqNo, clock)))
    case SendFail => Some(Unsend(s.sender.out.seqNo))
    case ProbeFail => Some(Unsend(s.probe.out.seqNo))
    case TellBook(now) => Some(Mark(s.sender.out.seqNo, now))
    case ProbeMark(now) => Some(Mark(s.probe.seqNo, now))
    case ReapNow(now) => Some(ReapOp(now, false))
    case FinalReap(now) => Some(ReapOp(now, true))
    case Deliver(r, raw) =>
      if DecodePdu(raw).Some? && DecodePdu(raw).value.IsResp() then Some(TakeOp(DecodePdu(raw).value.seqNo)) else None
    case _ => None
  }

  /** The history moves by a step of the book, or not at all. */
  ghost predicate HistMove(s: Sys, a: Action)
    requires Enabled(s, a)
  {
    Next(s, a).hist == if BookOp(s, a).Some? then Step(s.hist, BookOp(s, a).value) else s.hist
  }

  lemma HistRead(s: Sys, a: Action)
    requires Enabled(s, a) && OfReader(a)
    ensures HistMove(s, a)
  {
    hide Enabled, DecodePdu, IsAnswer, CutFrom, DoTake, Take, SchedulerNext, SenderNext, ProbeNext, ReaderWorks,
      OthersNext;
  }

  lemma HistOffered(s: Sys, a: Action)
    requires Enabled(s, a) && OfScheduler(a)
    ensures HistMove(s, a)
  {
    hide Enabled, IsAnswer, CutFrom, SenderNext, ProbeNext, ReaderNext, OthersNext, DoAdd, EchoItem;
  }

  lemma HistSent(s: Sys, a: Action)
    requires Enabled(s, a) && OfSender(a)
    ensures HistMove(s, a)
  {
    hide Enabled, IsAnswer, CutFrom, SchedulerNext, ProbeNext, ReaderNext, OthersNext, DoUnsend, DoMark;
  }

  lemma HistProbed(s: Sys, a: Action)
    requires Enabled(s, a) && OfProbe(a)
    ensures HistMove(s, a)
  {
    hide Enabled, IsAnswer, CutFrom, SchedulerNext, SenderNext, ReaderNext, OthersNext, DoAdd, DoUnsend, DoMark,
      StatusItem;
  }

  lemma HistReaped(s: Sys, a: Action)
    requires Enabled(s, a) && OfOthers(a)
    ensures HistMove(s, a)
  {
    hide Enabled, IsAnswer, CutFrom, SchedulerNext, SenderNext, ProbeNext, ReaderNext, DoReap;
  }

  lemma HistMoves(s: Sys, a: Action)
    requires Enabled(s, a)
    ensures HistMove(s, a)
  {
    hide Enabled, HistMove;
    if OfScheduler(a) {
      HistOffered(s, a);
    } else if OfSender(a) {
      HistSent(s, a);
    } else if OfProbe(a) {
      HistProbed(s, a);
    } else if OfReader(a) {
      HistRead(s, a);
    } else {
      HistReaped(s, a);
    }
  }

  lemma OpAllowed(s: Sys, a: Action)
    requires Enabled(s, a) && NumbersInv(s) && BookOp(s, a).Some?
    ensures Allowed(s.hist, BookOp(s, a).value)
  {
    hide DecodePdu, IsAnswer, CutFrom, EncodeEchoRequest, EncodeStatusRequest;
  }

  lemma HistKept(s: Sys, a: Action)
    requires Enabled(s, a) && NumbersInv(s) && Inv(s.hist)
    ensures Inv(Next(s, a).hist)
  {
    hide Inv, Next, BookOp, Enabled, NumbersInv, Step;
    HistMoves(s, a);
    if BookOp(s, a).Some? {
      OpAllowed(s, a);
      StepKeeps(s.hist, BookOp(s, a).value);
    }
  }

  /** The map of items only grows, by the item added. */
  lemma StepItems(h: History, op: Op)
    requires Inv(h)
    ensures Step(h, op).items == if op.Add? then h.items[op.item.seqNo := op.item] else h.items
  {
    hide Inv, AddItem, Take, ReapOne, TrimLost, DropUnsent, MarkSent;
    if op.ReapOp? { ReapPlaces(h, op.now, op.force); }
  }

  predicate Enlists(a: Action)
  {
    a.Enlist? || a.ProbeEnlist?
  }

  ghost function NewItem(s: Sys, a: Action): Pending
    requires Enabled(s, a) && Enlists(a)
  {
    if a.Enlist? then EchoItem(s.sched.seqNo, a.clock, a.payload) else StatusItem(s.probe.seqNo, a.clock)
  }

  lemma ItemsMove(s: Sys, a: Action)
    requires Enabled(s, a) && Inv(s.hist)
    ensures Next(s, a).hist.items ==
      if Enlists(a) then s.hist.items[NewItem(s, a).seqNo := NewItem(s, a)] else s.hist.items
  {
    hide Inv, Next, Step, EchoItem, StatusItem, DecodePdu, IsAnswer, CutFrom;
    HistMoves(s, a);
    if BookOp(s, a).Some? { StepItems(s.hist, BookOp(s, a).value); }
  }

  // ----- items and numbers -----

  /** What a run fixes once, and what only moves one way. */
  lemma FixedParts(s: Sys, a: Action)
    requires Enabled(s, a)
    ensures var s' := Next(s, a);
            s'.telemetry == s.telemetry && s'.sizes == s.sizes && |s'.readers| == |s.readers|
            && (s'.reaped <==> s.reaped || a.FinalReap?)
  {
    hide IsAnswer, CutFrom, SchedulerNext, SenderNext, ProbeNext, ReaderNext, DoReap;
  }

  lemma EncodedStatusRequest(seqNo: nat, clientNs: nat)
    requires HeaderFits(STATUS, FLAG_REQ, seqNo, clientNs, 0)
    ensures var raw := EncodeStatusRequest(seqNo, clientNs);
            DecodePdu(raw) == Some(Frame(STATUS, FLAG_REQ, seqNo, clientNs, [], None, raw))
  {
    DecodeOfPdu(STATUS, FLAG_REQ, seqNo, clientNs, []);
  }

  lemma NewEchoGood(sizes: Sizes, seqNo: nat, clock: nat, payload: bytes)
    requires HeaderFits(ECHO, FLAG_REQ, seqNo, clock, |payload|) && sizes.least <= |payload| <= sizes.most
    ensures GoodItem(sizes, EchoItem(seqNo, clock, payload))
  {
    hide DecodePdu, Protocol.Pdu, IsPdu;
    PduFits(ECHO, FLAG_REQ, seqNo, clock, payload);
    if |payload| <= MAX_BODY { EncodedEchoRequest(seqNo, clock, payload); }
  }

  lemma NewProbeGood(sizes: Sizes, seqNo: nat, clock: nat)
    requires HeaderFits(STATUS, FLAG_REQ, seqNo, clock, 0)
    ensures GoodItem(sizes, StatusItem(seqNo, clock))
  {
    hide DecodePdu, Protocol.Pdu, IsPdu;
    PduFits(STATUS, FLAG_REQ, seqNo, clock, []);
    EncodedStatusRequest(seqNo, clock);
  }

  lemma NewItemGood(s: Sys, a: Action)
    requires Enabled(s, a) && Enlists(a)
    ensures GoodItem(s.sizes, NewItem(s, a))
  {
    hide GoodItem, EchoItem, StatusItem, IsAnswer, CutFrom;
    if a.Enlist? {
      NewEchoGood(s.sizes, s.sched.seqNo, a.clock, a.payload);
    } else {
      NewProbeGood(s.sizes, s.probe.seqNo, a.clock);
    }
  }

  lemma ItemsKept(s: Sys, a: Action)
    requires Enabled(s, a) && Inv(s.hist) && ItemsInv(s)
    ensures ItemsInv(Next(s, a))
  {
    hide Inv, GoodItem, Enabled, Next, NewItem;
    FixedParts(s, a);
    ItemsMove(s, a);
    if Enlists(a) { NewItemGood(s, a); }
  }

  /** A new item is made and not yet sent, and ECHOs are the ones whose loss is counted. */
  lemma NewItemFresh(s: Sys, a: Action)
    requires Enabled(s, a) && Enlists(a)
    ensures var item := NewItem(s, a); item.createMono == a.clock && item.sendMono.None?
    ensures NewItem(s, a).trackLoss <==> a.Enlist?
  {
    hide EncodeEchoRequest, EncodeStatusRequest, IsAnswer, CutFrom;
  }

  /** A new item has the number its thread was given, and the type of its thread. */
  lemma NewItemIs(s: Sys, a: Action)
    requires Enabled(s, a) && Enlists(a)
    ensures NewItem(s, a).seqNo == (if a.Enlist? then s.sched.seqNo else s.probe.seqNo)
    ensures NewItem(s, a).mtype == (if a.Enlist? then ECHO else STATUS)
  {
    hide EncodeEchoRequest, EncodeStatusRequest, IsAnswer, CutFrom;
  }

  lemma NumbersScheduled(s: Sys, a: Action)
    requires Enabled(s, a) && OfScheduler(a) && Inv(s.hist) && NumbersInv(s)
    ensures NumbersInv(Next(s, a))
  {
    hide Inv, IsAnswer, CutFrom, SenderNext, ProbeNext, ReaderNext, OthersNext, DoAdd, EchoItem, NewItem;
    ItemsMove(s, a);
    if Enlists(a) { NewItemIs(s, a); }
  }

  lemma NumbersProbed(s: Sys, a: Action)
    requires Enabled(s, a) && OfProbe(a) && Inv(s.hist) && NumbersInv(s)
    ensures NumbersInv(Next(s, a))
  {
    hide Inv, IsAnswer, CutFrom, SchedulerNext, SenderNext, ReaderNext, OthersNext, DoAdd, DoUnsend, DoMark, StatusItem,
      NewItem;
    ItemsMove(s, a);
    if Enlists(a) { NewItemIs(s, a); }
  }

  lemma NumbersKept(s: Sys, a: Action)
    requires Enabled(s, a) && Inv(s.hist) && NumbersInv(s)
    ensures NumbersInv(Next(s, a))
  {
    hide Enabled, Inv, SchedulerNext, SenderNext, ProbeNext, ReaderNext, OthersNext, NewItem;
    if OfScheduler(a) {
      NumbersScheduled(s, a);
    } else if OfProbe(a) {
      NumbersProbed(s, a);
    } else {
      ItemsMove(s, a);
    }
  }

  // ----- the line to the socket -----

  /** The steps that hand a request on along the line. */
  predicate HandsOn(a: Action)
  {
    a.Enlist? || a.Queue? || a.Pick? || a.SendOk? || a.SendFail?
  }

  lemma LineScheduled(s: Sys, a: Action)
    requires Enabled(s, a) && (a.Enlist? || a.Queue?)
    ensures var l, l' := Line(s), Line(Next(s, a)); l' == if a.Enlist? then l + [Next(s, a).sched.out] else l
  {
    hide IsAnswer, CutFrom, SenderNext, ProbeNext, ReaderNext, OthersNext, DoAdd, EchoItem;
  }

  lemma LinePicked(s: Sys, a: Action)
    requires Enabled(s, a) && a.Pick?
    ensures Line(Next(s, a)) == Line(s)
  {
    hide IsAnswer, CutFrom, SchedulerNext, ProbeNext, ReaderNext, OthersNext, DoUnsend, DoMark;
    assert s.txq == [s.txq[0]] + s.txq[1..];
  }

  lemma LineSends(s: Sys, a: Action)
    requires Enabled(s, a) && (a.SendOk? || a.SendFail?)
    ensures Line(s) == [s.sender.out] + Line(Next(s, a))
  {
    hide IsAnswer, CutFrom, SchedulerNext, ProbeNext, ReaderNext, OthersNext, DoUnsend, DoMark;
  }

  lemma LineStill(s: Sys, a: Action)
    requires Enabled(s, a) && !HandsOn(a)
    ensures Line(Next(s, a)) == Line(s)
  {
    hide IsAnswer, CutFrom, ProbeNext, ReaderNext, OthersNext, DoAdd, DoUnsend, DoMark, EchoItem;
  }

  /** How a step changes the line: an item joins at the back, leaves at the front, or neither. */
  lemma LineMoves(s: Sys, a: Action)
    requires Enabled(s, a)
    ensures var l, l' := Line(s), Line(Next(s, a));
            if a.Enlist? then l' == l + [Next(s, a).sched.out]
            else if a.SendOk? || a.SendFail? then l == [s.sender.out] + l'
            else l' == l
  {
    hide Line;
    if a.Enlist? || a.Queue? {
      LineScheduled(s, a);
    } else if a.Pick? {
      LinePicked(s, a);
    } else if a.SendOk? || a.SendFail? {
      LineSends(s, a);
    } else {
      LineStill(s, a);
    }
  }

  lemma SameItemsMap(s: Sys, s': Sys)
    requires s'.hist.items == s.hist.items
    ensures forall out, t :: IsItem(s', out, t) <==> IsItem(s, out, t)
  {
  }

  /** What is left when the first of a line without repetitions goes. */
  lemma DistinctTail(first: Outgoing, line: seq<Outgoing>)
    requires Distinct([first] + line)
    ensures Distinct(line)
    ensures forall i :: 0 <= i < |line| ==> line[i].seqNo != first.seqNo && line[i] == ([first] + line)[i + 1]
  {
    var all := [first] + line;
    assert all[0] == first && forall i :: 0 <= i < |line| ==> all[i + 1] == line[i];
  }

  /** The probe's item is no ECHO, so it is not on the line. */
  lemma ProbeApart(s: Sys, j: nat)
    requires LineInv(s) && s.probe.PEnlisted? && j < |Line(s)|
    ensures Line(s)[j].seqNo != s.probe.out.seqNo
  {
    hide Line;
    assert IsItem(s, Line(s)[j], ECHO) && IsItem(s, s.probe.out, STATUS);
  }

  lemma LineSent(s: Sys)
    requires Enabled(s, SendOk) && LineInv(s)
    ensures LineInv(Next(s, SendOk))
  {
    hide IsAnswer, CutFrom, Line, IsItem, Distinct, SchedulerNext, ProbeNext, ReaderNext, OthersNext, DoUnsend, DoMark;
    LineMoves(s, SendOk);
    DistinctTail(s.sender.out, Line(Next(s, SendOk)));
    SameItemsMap(s, Next(s, SendOk));
    assert Line(s)[0] == s.sender.out;
    if s.probe.PEnlisted? { ProbeApart(s, 0); }
  }

  lemma LineFailed(s: Sys)
    requires Enabled(s, SendFail) && Inv(s.hist) && LineInv(s)
    ensures LineInv(Next(s, SendFail))
  {
    hide Inv, IsAnswer, CutFrom, Line, IsItem, Distinct, SchedulerNext, ProbeNext, ReaderNext, OthersNext, DoUnsend,
      DoMark;
    LineMoves(s, SendFail);
    DistinctTail(s.sender.out, Line(Next(s, SendFail)));
    ItemsMove(s, SendFail);
    SameItemsMap(s, Next(s, SendFail));
  }

  lemma DistinctGrows(line: seq<Outgoing>, last: Outgoing)
    requires Distinct(line) && forall i :: 0 <= i < |line| ==> line[i].seqNo != last.seqNo
    ensures Distinct(line + [last])
  {
  }

  lemma EnlistedOut(s: Sys, a: Action)
    requires Enabled(s, a) && Enlists(a)
    ensures (if a.Enlist? then Next(s, a).sched.out else Next(s, a).probe.out) ==
      Outgoing(NewItem(s, a).seqNo, NewItem(s, a).raw)
    ensures if a.Enlist? then Next(s, a).probe == s.probe else Next(s, a).sched == s.sched
    ensures Next(s, a).sender == s.sender && Next(s, a).wired == s.wired
  {
    hide EchoItem, StatusItem, DoAdd, IsAnswer, CutFrom, SenderNext, ReaderNext, OthersNext, DoUnsend, DoMark;
  }

  lemma ItemsOnly(s: Sys, s': Sys, item: Pending)
    requires s'.hist.items == s.hist.items[item.seqNo := item] && item.seqNo !in s.hist.items
    ensures forall out, t :: IsItem(s, out, t) ==> IsItem(s', out, t)
    ensures IsItem(s', Outgoing(item.seqNo, item.raw), item.mtype)
  {
  }

  lemma NewNumber(s: Sys, a: Action)
    requires Enabled(s, a) && Enlists(a) && NumbersInv(s) && NetInv(s)
    ensures NewItem(s, a).seqNo !in s.hist.items && NewItem(s, a).seqNo !in s.wired
  {
    hide EchoItem, StatusItem, KnownRequest, KnownResponse, CutFrom, IsAnswer;
    NewItemIs(s, a);
  }

  lemma LineJoined(s: Sys, a: Action)
    requires Enabled(s, a) && Enlists(a) && Inv(s.hist) && NumbersInv(s) && LineInv(s) && NetInv(s)
    ensures LineInv(Next(s, a))
  {
    hide Inv, Next, Enabled, NewItem, NumbersInv, NetInv, Line, IsItem, Distinct;
    var s' := Next(s, a);
    LineMoves(s, a);
    ItemsMove(s, a);
    NewNumber(s, a);
    NewItemIs(s, a);
    EnlistedOut(s, a);
    ItemsOnly(s, s', NewItem(s, a));
    AfterEnlist(s, a);
    if a.Enlist? {
      forall i | 0 <= i < |Line(s)| ensures Line(s)[i].seqNo != s'.sched.out.seqNo { ItemIn(s, Line(s)[i]); }
      DistinctGrows(Line(s), s'.sched.out);
    }
  }

  lemma ItemIn(s: Sys, out: Outgoing)
    requires IsItem(s, out, ECHO)
    ensures out.seqNo in s.hist.items
  {
  }

  lemma AfterEnlist(s: Sys, a: Action)
    requires Enabled(s, a) && Enlists(a)
    ensures var s' := Next(s, a); if a.Enlist? then s'.sched.Enlisted? else s'.probe.PEnlisted?
  {
    hide EchoItem, StatusItem, DoAdd, IsAnswer, CutFrom, SenderNext, ReaderNext, OthersNext, DoUnsend, DoMark;
  }

  lemma LineOtherwise(s: Sys, a: Action)
    requires Enabled(s, a) && !a.SendOk? && !a.SendFail? && !Enlists(a) && Inv(s.hist) && LineInv(s)
    ensures LineInv(Next(s, a))
  {
    hide Inv, IsAnswer, CutFrom, ReaderNext, OthersNext, DoAdd, DoUnsend, DoMark, EchoItem, StatusItem, Line, IsItem,
      Distinct;
    LineMoves(s, a);
    ItemsMove(s, a);
    SameItemsMap(s, Next(s, a));
    if a.ProbeOk? { ProbeSent(s); }
  }

  lemma ProbeSent(s: Sys)
    requires LineInv(s) && s.probe.PEnlisted?
    ensures forall i :: 0 <= i < |Line(s)| ==> Line(s)[i].seqNo != s.probe.out.seqNo
    ensures s.probe.out.seqNo in s.hist.items && s.hist.items[s.probe.out.seqNo].mtype == STATUS
  {
    forall i | 0 <= i < |Line(s)| ensures Line(s)[i].seqNo != s.probe.out.seqNo { ProbeApart(s, i); }
  }

  lemma LineKept(s: Sys, a: Action)
    requires Enabled(s, a) && Inv(s.hist) && NumbersInv(s) && LineInv(s) && NetInv(s)
    ensures LineInv(Next(s, a))
  {
    hide Enabled, Next, Inv, NumbersInv, LineInv, NetInv;
    if a.SendOk? {
      LineSent(s);
    } else if a.SendFail? {
      LineFailed(s);
    } else if Enlists(a) {
      LineJoined(s, a);
    } else {
      LineOtherwise(s, a);
    }
  }

  // ----- the network -----

  predicate Sends(a: Action)
  {
    a.SendOk? || a.ProbeOk?
  }

  /** The request a step writes to a socket. */
  ghost function Sent(s: Sys, a: Action): Outgoing
    requires Enabled(s, a) && Sends(a)
  {
    if a.SendOk? then s.sender.out else s.probe.out
  }

  /** How a step changes the network. */
  lemma NetMoves(s: Sys, a: Action)
    requires Enabled(s, a)
    ensures Next(s, a).requests == s.requests + if Sends(a) then {Sent(s, a).raw} else {}
    ensures Next(s, a).wired == s.wired + if Sends(a) then {Sent(s, a).seqNo} else {}
    ensures Next(s, a).responses == s.responses + if a.Serve? then {a.resp} else {}
  {
    hide Next, Enabled, Sent;
    if Sends(a) {
      RequestWritten(s, a);
    } else {
      NothingWritten(s, a);
    }
    if !a.Serve? { NothingServed(s, a); } else { ResponseWritten(s, a); }
  }

  lemma RequestWritten(s: Sys, a: Action)
    requires Enabled(s, a) && Sends(a)
    ensures Next(s, a).requests == s.requests + {Sent(s, a).raw} && Next(s, a).wired == s.wired + {Sent(s, a).seqNo}
  {
    hide IsAnswer, CutFrom, SchedulerNext, ReaderNext, OthersNext, DoAdd, DoUnsend, DoMark, StatusItem;
  }

  lemma SenderWritesNothing(s: Sys, a: Action)
    requires Enabled(s, a) && OfSender(a) && !a.SendOk?
    ensures SenderNext(s, a).requests == s.requests && SenderNext(s, a).wired == s.wired
  {
    hide IsAnswer, CutFrom, DoUnsend, DoMark;
  }

  lemma ProbeWritesNothing(s: Sys, a: Action)
    requires Enabled(s, a) && OfProbe(a) && !a.ProbeOk?
    ensures ProbeNext(s, a).requests == s.requests && ProbeNext(s, a).wired == s.wired
  {
    hide IsAnswer, CutFrom, DoAdd, DoUnsend, DoMark, StatusItem;
  }

  lemma NothingWritten(s: Sys, a: Action)
    requires Enabled(s, a) && !Sends(a)
    ensures Next(s, a).requests == s.requests && Next(s, a).wired == s.wired
  {
    hide Enabled, SchedulerNext, SenderNext, ProbeNext, ReaderNext, OthersNext;
    if OfSender(a) { SenderWritesNothing(s, a); }
    if OfProbe(a) { ProbeWritesNothing(s, a); }
  }

  lemma ResponseWritten(s: Sys, a: Action)
    requires Enabled(s, a) && a.Serve?
    ensures Next(s, a).responses == s.responses + {a.resp}
  {
    hide IsAnswer, CutFrom, SchedulerNext, SenderNext, ProbeNext, ReaderNext, DoReap;
  }

  lemma NothingServed(s: Sys, a: Action)
    requires Enabled(s, a) && !a.Serve?
    ensures Next(s, a).responses == s.responses
  {
    hide IsAnswer, CutFrom, SchedulerNext, SenderNext, ProbeNext, ReaderNext, DoReap;
  }

  /** What is written is an item of the thread's type, written for the first time. */
  lemma SendsNew(s: Sys, a: Action)
    requires Enabled(s, a) && LineInv(s) && Sends(a)
    ensures Sent(s, a).seqNo !in s.wired && IsItem(s, Sent(s, a), if a.SendOk? then ECHO else STATUS)
    ensures a.SendOk? ==> |Line(s)| > 0 && Line(s)[0] == s.sender.out
  {
    hide IsAnswer, CutFrom, IsItem, Distinct;
    if a.SendOk? { assert Line(s)[0] == s.sender.out; }
  }

  /** A PDU beyond the limit stays on the network. */
  lemma ClearBefore(s: Sys, a: Action)
    requires Enabled(s, a) && Clear(Next(s, a))
    ensures Clear(s)
  {
    hide Enabled, Next, IsPdu;
    NetMoves(s, a);
  }

  lemma KnownStays(s: Sys, s': Sys, req: bytes)
    requires KnownRequest(s, req) && s.wired <= s'.wired
    requires forall k :: k in s.hist.items ==> k in s'.hist.items && s'.hist.items[k] == s.hist.items[k]
    ensures KnownRequest(s', req)
  {
    var k :| k in s.wired && k in s.hist.items && s.hist.items[k].raw == req;
    assert k in s'.wired && k in s'.hist.items && s'.hist.items[k].raw == req;
  }

  lemma ResponseStays(s: Sys, s': Sys, resp: bytes)
    requires KnownResponse(s, resp) && s.requests <= s'.requests && s'.telemetry == s.telemetry
    ensures KnownResponse(s', resp)
  {
    hide CutFrom, IsAnswer;
    var req :| CutFrom(s.requests, req) && IsAnswer(s.telemetry, req, resp);
    CutGrows(s.requests, s'.requests, req);
  }

  lemma SentIsKnown(s: Sys, s': Sys, out: Outgoing, mtype: nat)
    requires IsItem(s', out, mtype) && out.seqNo in s'.wired
    ensures KnownRequest(s', out.raw)
  {
  }

  lemma ServedIsKnown(s: Sys, a: Action)
    requires Enabled(s, a) && a.Serve?
    ensures KnownResponse(s, a.resp)
  {
    hide CutFrom, IsAnswer;
  }

  lemma NetKept(s: Sys, a: Action)
    requires Enabled(s, a) && Inv(s.hist) && NumbersInv(s) && LineInv(s) && NetInv(s)
    ensures NetInv(Next(s, a))
  {
    hide Inv, Enabled, Next, NumbersInv, LineInv, KnownRequest, KnownResponse, IsItem, Sent, NewItem;
    var s' := Next(s, a);
    FixedParts(s, a);
    NetMoves(s, a);
    ItemsMove(s, a);
    if Enlists(a) { NewNumber(s, a); }
    if Sends(a) { SendsNew(s, a); NetSent(s, a); }
    if a.Serve? { ServedIsKnown(s, a); }
    forall req | req in s'.requests ensures KnownRequest(s', req) {
      if req in s.requests { KnownStays(s, s', req); }
    }
    forall resp | resp in s'.responses ensures KnownResponse(s', resp) {
      ResponseStays(s, s', resp);
    }
  }

  lemma NetSent(s: Sys, a: Action)
    requires Enabled(s, a) && Inv(s.hist) && LineInv(s) && Sends(a)
    ensures KnownRequest(Next(s, a), Sent(s, a).raw) && Sent(s, a).seqNo in s.hist.items
  {
    hide Inv, Enabled, Next, LineInv, Sent;
    SendsNew(s, a);
    NetMoves(s, a);
    ItemsMove(s, a);
    SentIsKnown(s, Next(s, a), Sent(s, a), if a.SendOk? then ECHO else STATUS);
  }

  /** An item within the limit decodes to its key. */
  lemma ItemNumber(s: Sys, k: nat)
    requires Inv(s.hist) && ItemsInv(s) && k in s.hist.items && IsPdu(s.hist.items[k].raw)
    ensures DecodesAs(s.sizes, s.hist.items[k]) && DecodePdu(s.hist.items[k].raw).value.seqNo == k
  {
    hide DecodePdu, IsPdu;
    assert GoodItem(s.sizes, s.hist.items[k]);
    assert SameItems(s.hist);
  }

  /** While no PDU is beyond the limit, what arrives is a response, and it answers an item that was written. */
  lemma ResponseAnswers(s: Sys, raw: bytes) returns (k: nat)
    requires Clear(s) && Inv(s.hist) && ItemsInv(s) && NetInv(s) && CutFrom(s.responses, raw)
    ensures k in s.wired && k in s.hist.items && raw in s.responses && IsPdu(s.hist.items[k].raw)
    ensures IsAnswer(s.telemetry, s.hist.items[k].raw, raw)
  {
    hide IsAnswer, CutFrom, Inv, GoodItem, IsPdu;
    CutWhole(s.responses, raw);
    assert KnownResponse(s, raw);
    var req :| CutFrom(s.requests, req) && IsAnswer(s.telemetry, req, raw);
    CutWhole(s.requests, req);
    assert KnownRequest(s, req);
    k :| k in s.wired && k in s.hist.items && s.hist.items[k].raw == req;
  }

  /** And it carries that item's number. */
  lemma ResponseNumber(s: Sys, raw: bytes)
    requires Clear(s) && Inv(s.hist) && ItemsInv(s) && NetInv(s) && CutFrom(s.responses, raw) && DecodePdu(raw).Some?
    ensures var k := DecodePdu(raw).value.seqNo;
            && k in s.wired && k in s.hist.items && raw in s.responses && DecodesAs(s.sizes, s.hist.items[k])
            && IsAnswer(s.telemetry, s.hist.items[k].raw, raw)
  {
    hide DecodePdu, IsAnswer, CutFrom, Inv, ItemsInv, NetInv, Clear;
    var k := ResponseAnswers(s, raw);
    ItemNumber(s, k);
    AnswerNumber(s.telemetry, s.hist.items[k].raw, raw);
  }
}
