/** Every step of the client machine keeps its counters and what its readers hold; and so the whole invariant. */
module ClientCounts {
  import opened Wrappers
  import opened Wire
  import opened Protocol
  import opened StatusBody
  import opened Streams
  import opened Answers
  import opened Book
  import opened BookHistory
  import opened ClientMachine
  import opened ClientSteps
  import opened ClientPlaces

  // ----- what the readers hold -----

  /** The item the book hands out is the one added under that number, but for its send time. */
  lemma TakenItem(h: History, n: nat)
    requires Inv(h) && Take(h.book, n).0.Accepted()
    ensures n in h.items && SameButSendTime(Take(h.book, n).0.item, h.items[n])
  {
  }

  /** What an answer to a good item says to the reader who gets both. */
  lemma AnswerFits(telemetry: bool, sizes: Sizes, item: Pending, raw: bytes)
    requires DecodesAs(sizes, item) && IsAnswer(telemetry, item.raw, raw) && IsPdu(raw)
    requires DecodePdu(raw).Some? && DecodePdu(raw).value.IsResp()
    ensures Says(DecodePdu(item.raw).value, DecodePdu(raw).value)
    ensures !telemetry ==> item.mtype != ECHO
  {
    hide DecodePdu, IsAnswer, Says, IsPdu;
    AnswerNumber(telemetry, item.raw, raw);
    AnswerIsPdu(telemetry, item.raw, raw);
    AnswerSays(telemetry, item.raw, raw);
  }

  lemma TakenFits(s: Sys, raw: bytes)
    requires Clear(s) && Inv(s.hist) && ItemsInv(s) && NetInv(s) && CutFrom(s.responses, raw)
    requires DecodePdu(raw).Some? && DecodePdu(raw).value.IsResp()
    requires Take(s.hist.book, DecodePdu(raw).value.seqNo).0.Accepted()
    ensures var verdict := Take(s.hist.book, DecodePdu(raw).value.seqNo).0;
            ReaderOk(s.telemetry, s.sizes, Taken(verdict.item, DecodePdu(raw).value, verdict.Late?))
  {
    hide DecodePdu, IsAnswer, Inv, Take, Says, NetInv, ItemsInv, IsPdu, CutFrom;
    var n := DecodePdu(raw).value.seqNo;
    TakenItem(s.hist, n);
    ResponseNumber(s, raw);
    AnswerFits(s.telemetry, s.sizes, Take(s.hist.book, n).0.item, raw);
  }

  /** What a reader holds after a step: what it held, the same item further on, nothing, or a response just accepted. */
  ghost predicate HoldsNext(s: Sys, a: Action, held: Reader, now: Reader)
    requires Enabled(s, a)
  {
    || now == held || now.RIdle?
    || (!held.RIdle? && !now.RIdle? && now.item == held.item && now.frame == held.frame)
    || (Accepts(s, a).Some? && DecodePdu(a.raw).Some? && DecodePdu(a.raw).value.IsResp()
        && var verdict := Take(s.hist.book, DecodePdu(a.raw).value.seqNo).0;
           verdict.Accepted() && now == Taken(verdict.item, DecodePdu(a.raw).value, verdict.Late?))
  }

  lemma ReadersQuiet(s: Sys, a: Action)
    requires Enabled(s, a) && !OfReader(a)
    ensures Next(s, a).readers == s.readers && SameTotals(s, Next(s, a)) && Accepts(s, a).None?
  {
    hide IsAnswer, CutFrom, SchedulerNext, SenderNext, ProbeNext, OthersNext, Take, EchoItem, StatusItem;
  }

  lemma ReaderTakes(s: Sys, a: Action, r: nat)
    requires Enabled(s, a) && a.Deliver? && r < |s.readers|
    ensures |Next(s, a).readers| == |s.readers| && HoldsNext(s, a, s.readers[r], Next(s, a).readers[r])
  {
    hide IsAnswer, CutFrom, SchedulerNext, SenderNext, ProbeNext, OthersNext, DecodePdu, DoTake, Take;
  }

  lemma ReaderGoesOn(s: Sys, a: Action, r: nat)
    requires Enabled(s, a) && OfReader(a) && !a.Deliver? && r < |s.readers|
    ensures |Next(s, a).readers| == |s.readers| && HoldsNext(s, a, s.readers[r], Next(s, a).readers[r])
  {
    hide IsAnswer, CutFrom, SchedulerNext, SenderNext, ProbeNext, OthersNext, Delivered, Differs, DecodeStatusBody,
      Accepts, DecodePdu, Take;
  }

  lemma ReaderMoves(s: Sys, a: Action, r: nat)
    requires Enabled(s, a) && r < |s.readers|
    ensures |Next(s, a).readers| == |s.readers| && HoldsNext(s, a, s.readers[r], Next(s, a).readers[r])
  {
    hide Enabled, Next, Accepts;
    if a.Deliver? {
      ReaderTakes(s, a, r);
    } else if OfReader(a) {
      ReaderGoesOn(s, a, r);
    } else {
      ReadersQuiet(s, a);
    }
  }

  lemma ReadersKept(s: Sys, a: Action)
    requires Enabled(s, a) && Inv(s.hist) && ItemsInv(s) && NetInv(s) && ReadersInv(s)
    ensures ReadersInv(Next(s, a))
  {
    hide Inv, Next, Clear, DecodePdu, IsAnswer, CutFrom, ItemsInv, NetInv, DecodesAs, Says, Take;
    FixedParts(s, a);
    if Clear(Next(s, a)) {
      ClearBefore(s, a);
      forall r | 0 <= r < |Next(s, a).readers| ensures ReaderOk(s.telemetry, s.sizes, Next(s, a).readers[r]) {
        ReaderMoves(s, a, r);
        assert ReaderOk(s.telemetry, s.sizes, s.readers[r]);
        if Accepts(s, a).Some? { TakenFits(s, a.raw); }
      }
    }
  }

  // ----- what was offered and sent -----

  /** How a step changes the items of one type. */
  lemma TypeMoves(s: Sys, a: Action, mtype: nat)
    requires Enabled(s, a) && Inv(s.hist) && NumbersInv(s)
    ensures var es, es' := OfType(s.hist.items, mtype), OfType(Next(s, a).hist.items, mtype);
            if Enlists(a) && mtype == (if a.Enlist? then ECHO else STATUS)
            then NewItem(s, a).seqNo !in es && es' == es + {NewItem(s, a).seqNo} else es' == es
    ensures Enlists(a) ==> NewItem(s, a).seqNo !in s.hist.items
  {
    hide Inv, Next, IsAnswer, CutFrom, NewItem;
    ItemsMove(s, a);
    if Enlists(a) { NewItemIs(s, a); }
  }

  lemma OfferedByScheduler(s: Sys, a: Action)
    requires Enabled(s, a) && OfScheduler(a)
    ensures Next(s, a).offered - OfferInHand(Next(s, a)) == s.offered - OfferInHand(s) + if a.Enlist? then 1 else 0
  {
    hide IsAnswer, CutFrom, SenderNext, ProbeNext, ReaderNext, OthersNext, DoAdd, EchoItem;
  }

  /** How a step changes `offered` and the scheduler's hand. */
  lemma OfferedMoves(s: Sys, a: Action)
    requires Enabled(s, a)
    ensures Next(s, a).offered - OfferInHand(Next(s, a)) == s.offered - OfferInHand(s) + if a.Enlist? then 1 else 0
  {
    hide Enabled, SchedulerNext, SenderNext, ProbeNext, ReaderNext, OthersNext;
    if OfScheduler(a) { OfferedByScheduler(s, a); }
  }

  lemma WireSentBySender(s: Sys, a: Action)
    requires Enabled(s, a) && OfSender(a)
    ensures Next(s, a).wireSent + SendInHand(Next(s, a)) == s.wireSent + SendInHand(s) + if a.SendOk? then 1 else 0
  {
    hide IsAnswer, CutFrom, SchedulerNext, ProbeNext, ReaderNext, OthersNext, DoUnsend, DoMark, SameSettings,
      SameTotals, SameAlarms;
  }

  /** How a step changes wire_sent and the sender's hand. */
  lemma WireSentMoves(s: Sys, a: Action)
    requires Enabled(s, a)
    ensures Next(s, a).wireSent + SendInHand(Next(s, a)) == s.wireSent + SendInHand(s) + if a.SendOk? then 1 else 0
  {
    hide Enabled, SchedulerNext, SenderNext, ProbeNext, ReaderNext, OthersNext;
    if OfSender(a) { WireSentBySender(s, a); }
  }

  lemma StatusSentByProbe(s: Sys, a: Action)
    requires Enabled(s, a) && OfProbe(a)
    ensures Next(s, a).statusSent + ProbeInHand(Next(s, a)) ==
      s.statusSent + ProbeInHand(s) + if a.ProbeOk? then 1 else 0
  {
    hide IsAnswer, CutFrom, SchedulerNext, SenderNext, ReaderNext, OthersNext, DoAdd, StatusItem, DoUnsend, DoMark,
      SameSettings, SameTotals, SameAlarms, SameFlags;
  }

  /** How a step changes status_sent and the probe's hand. */
  lemma StatusSentMoves(s: Sys, a: Action)
    requires Enabled(s, a)
    ensures Next(s, a).statusSent + ProbeInHand(Next(s, a)) ==
      s.statusSent + ProbeInHand(s) + if a.ProbeOk? then 1 else 0
  {
    hide Enabled, SchedulerNext, SenderNext, ProbeNext, ReaderNext, OthersNext;
    if OfProbe(a) { StatusSentByProbe(s, a); }
  }

  /** How a step changes what was written of one type. */
  lemma WiredMoves(s: Sys, a: Action, mtype: nat)
    requires Enabled(s, a) && Inv(s.hist) && NumbersInv(s) && LineInv(s) && NetInv(s)
    ensures var w, w' := s.wired * OfType(s.hist.items, mtype), Next(s, a).wired * OfType(Next(s, a).hist.items, mtype);
            if Sends(a) && mtype == (if a.SendOk? then ECHO else STATUS)
            then Sent(s, a).seqNo !in w && w' == w + {Sent(s, a).seqNo} else w' == w
  {
    hide Inv, Next, Enabled, NumbersInv, LineInv, KnownRequest, KnownResponse, Sent, NewItem;
    TypeMoves(s, a, mtype);
    NetMoves(s, a);
    if Sends(a) { SendsNew(s, a); }
  }

  lemma SentCountsKept(s: Sys, a: Action)
    requires Enabled(s, a) && Inv(s.hist) && NumbersInv(s) && LineInv(s) && NetInv(s) && SentCounts(s)
    ensures SentCounts(Next(s, a))
  {
    hide Inv, Next, Enabled, NumbersInv, LineInv, NetInv, OfType, OfferInHand, SendInHand, ProbeInHand, Sent, NewItem;
    TypeMoves(s, a, ECHO);
    OfferedMoves(s, a);
    WireSentMoves(s, a);
    StatusSentMoves(s, a);
    WiredMoves(s, a, ECHO);
    WiredMoves(s, a, STATUS);
  }

  // ----- what was received -----

  lemma {:induction false} InHandUpdate(readers: seq<Reader>, r: nat, to: Reader, holds: Reader -> nat)
    requires r < |readers|
    ensures InHand(readers[r := to], holds) == InHand(readers, holds) - holds(readers[r]) + holds(to)
    decreases |readers|
  {
    var n := |readers| - 1;
    if r == n {
      assert readers[r := to][..n] == readers[..n];
    } else {
      InHandUpdate(readers[..n], r, to, holds);
      assert readers[r := to][..n] == readers[..n][r := to];
    }
  }

  /** The number a step makes the book accept, if any. */
  ghost function Accepts(s: Sys, a: Action): Option<nat>
    requires Enabled(s, a)
  {
    match BookOp(s, a)
    case Some(TakeOp(n)) => if Take(s.hist.book, n).0.Accepted() then Some(n) else None
    case _ => None
  }

  lemma AcceptedHasItem(h: History, k: nat)
    requires Inv(h) && k in h.accepted
    ensures k in h.items
  {
    assert k in BookHistory.At(h, Answered);
  }

  predicate IsOf(h: History, k: nat, mtype: nat)
  {
    k in h.items && h.items[k].mtype == mtype
  }

  /** How a step changes the items of one type that were accepted. */
  lemma AcceptedMoves(s: Sys, a: Action, mtype: nat)
    requires Enabled(s, a) && Inv(s.hist) && NumbersInv(s)
    ensures var e, e' := AcceptedOf(s.hist, mtype), AcceptedOf(Next(s, a).hist, mtype);
            if Accepts(s, a).Some? && IsOf(s.hist, Accepts(s, a).value, mtype)
            then Accepts(s, a).value !in e && e' == e + {Accepts(s, a).value} else e' == e
  {
    hide Inv, Next, DecodePdu, IsAnswer, CutFrom, EchoItem, StatusItem, Take, Step, NewItem;
    HistMoves(s, a);
    TypeMoves(s, a, mtype);
    ItemsMove(s, a);
    if BookOp(s, a).Some? { StepAccepts(s.hist, BookOp(s, a).value); }
    if Accepts(s, a).Some? { AcceptsNew(s.hist, Accepts(s, a).value); }
    forall k | k in s.hist.accepted ensures k in s.hist.items { AcceptedHasItem(s.hist, k); }
  }

  ghost predicate AcceptsLate(s: Sys, a: Action)
    requires Enabled(s, a)
  {
    Accepts(s, a).Some? && Take(s.hist.book, Accepts(s, a).value).0.Late?
  }

  lemma LatesMove(s: Sys, a: Action)
    requires Enabled(s, a)
    ensures Next(s, a).hist.lates == s.hist.lates + if AcceptsLate(s, a) then 1 else 0
  {
    hide Next, DecodePdu, IsAnswer, CutFrom, EchoItem, StatusItem, Take, Step;
    HistMoves(s, a);
    if BookOp(s, a).Some? { StepAccepts(s.hist, BookOp(s, a).value); }
  }

  /** What a step brings into a reader's hand: a response just accepted, counted by `holds`. */
  ghost function Brings(s: Sys, a: Action, holds: Reader -> nat): nat
    requires Enabled(s, a)
  {
    if Accepts(s, a).None? then 0
    else
      var verdict := Take(s.hist.book, Accepts(s, a).value).0;
      holds(Taken(verdict.item, DecodePdu(a.raw).value, verdict.Late?))
  }

  /** What a step takes out of a reader's hand and into a counter. */
  ghost function PutsDown(s: Sys, a: Action, holds: Reader -> nat): nat
    requires Enabled(s, a)
  {
    if a.CountIn? then holds(s.readers[a.r]) else 0
  }

  /** A way of counting that looks at the item and at being late, and only until the reader has counted. */
  ghost predicate CountsHeld(holds: Reader -> nat)
  {
    && holds(RIdle) == 0
    && (forall item, frame :: holds(Counted(item, frame)) == 0)
    && (forall item, frame, late ::
          holds(Taken(item, frame, late)) == holds(Compared(item, frame, late)) == holds(Checked(item, frame, late)))
  }

  lemma ThreeWays()
    ensures CountsHeld(HoldsEcho) && CountsHeld(HoldsStatus) && CountsHeld(HoldsLate)
  {
  }

  /** A response is delivered: how the hands change. */
  lemma HandsDeliver(s: Sys, a: Action, holds: Reader -> nat)
    requires Enabled(s, a) && a.Deliver? && CountsHeld(holds)
    ensures InHand(Next(s, a).readers, holds) == InHand(s.readers, holds) + Brings(s, a, holds)
  {
    hide IsAnswer, CutFrom, DecodePdu, DoTake, Take, InHand, SchedulerNext, SenderNext, ProbeNext, OthersNext;
    InHandUpdate(s.readers, a.r, Next(s, a).readers[a.r], holds);
  }

  /** Any other step of a reader. */
  lemma HandsWork(s: Sys, a: Action, holds: Reader -> nat)
    requires Enabled(s, a) && OfReader(a) && !a.Deliver? && CountsHeld(holds)
    ensures InHand(Next(s, a).readers, holds) + PutsDown(s, a, holds) == InHand(s.readers, holds)
    ensures Accepts(s, a).None?
  {
    hide IsAnswer, CutFrom, InHand, Differs, DecodeStatusBody, SchedulerNext, SenderNext, ProbeNext, OthersNext;
    InHandUpdate(s.readers, a.r, Next(s, a).readers[a.r], holds);
  }

  /** How a step changes what the readers hold, whichever way it is counted. */
  lemma HandsMove(s: Sys, a: Action, holds: Reader -> nat)
    requires Enabled(s, a) && CountsHeld(holds)
    ensures InHand(Next(s, a).readers, holds) + PutsDown(s, a, holds) == InHand(s.readers, holds) + Brings(s, a, holds)
  {
    hide Enabled, Next, CountsHeld, InHand, Accepts;
    if a.Deliver? {
      HandsDeliver(s, a, holds);
    } else if OfReader(a) {
      HandsWork(s, a, holds);
    } else {
      ReadersQuiet(s, a);
    }
  }

  /** How a step changes the three counters of responses. */
  lemma TotalsMove(s: Sys, a: Action)
    requires Enabled(s, a)
    ensures Next(s, a).received == s.received + PutsDown(s, a, HoldsEcho)
    ensures Next(s, a).statusReceived == s.statusReceived + PutsDown(s, a, HoldsStatus)
    ensures Next(s, a).late == s.late + PutsDown(s, a, HoldsLate)
  {
    hide Enabled, Next;
    if a.CountIn? {
      TotalsCounted(s, a);
    } else if OfReader(a) {
      TotalsStay(s, a);
    } else {
      ReadersQuiet(s, a);
    }
  }

  lemma TotalsCounted(s: Sys, a: Action)
    requires Enabled(s, a) && a.CountIn?
    ensures Next(s, a).received == s.received + HoldsEcho(s.readers[a.r])
    ensures Next(s, a).statusReceived == s.statusReceived + HoldsStatus(s.readers[a.r])
    ensures Next(s, a).late == s.late + HoldsLate(s.readers[a.r])
  {
    hide IsAnswer, CutFrom, Differs, DecodeStatusBody, SchedulerNext, SenderNext, ProbeNext, OthersNext;
  }

  lemma TotalsStay(s: Sys, a: Action)
    requires Enabled(s, a) && OfReader(a) && !a.CountIn?
    ensures SameTotals(s, Next(s, a))
  {
    hide IsAnswer, CutFrom, Delivered, Differs, DecodeStatusBody, SchedulerNext, SenderNext, ProbeNext, OthersNext;
  }

  /** What is brought in is an ECHO, a probe, or late, as the history says. */
  lemma BroughtIn(s: Sys, a: Action)
    requires Enabled(s, a) && Inv(s.hist)
    ensures Brings(s, a, HoldsEcho) == if Accepts(s, a).Some? && IsOf(s.hist, Accepts(s, a).value, ECHO) then 1 else 0
    ensures Brings(s, a, HoldsStatus) ==
      if Accepts(s, a).Some? && IsOf(s.hist, Accepts(s, a).value, STATUS) then 1 else 0
    ensures Brings(s, a, HoldsLate) == if AcceptsLate(s, a) then 1 else 0
  {
    hide Inv, Take, DecodePdu, IsAnswer, CutFrom, EchoItem, StatusItem;
    if Accepts(s, a).Some? { TakenItem(s.hist, Accepts(s, a).value); }
  }

  lemma ReceivedCountsKept(s: Sys, a: Action)
    requires Enabled(s, a) && Inv(s.hist) && NumbersInv(s) && ReceivedCounts(s)
    ensures ReceivedCounts(Next(s, a))
  {
    hide Inv, Next, Enabled, NumbersInv, Accepts, AcceptsLate, AcceptedOf, InHand, IsOf, Brings, PutsDown, CountsHeld,
      HoldsEcho, HoldsStatus, HoldsLate;
    ThreeWays();
    AcceptedMoves(s, a, ECHO);
    AcceptedMoves(s, a, STATUS);
    LatesMove(s, a);
    TotalsMove(s, a);
    BroughtIn(s, a);
    HandsMove(s, a, HoldsEcho);
    HandsMove(s, a, HoldsStatus);
    HandsMove(s, a, HoldsLate);
  }

  // ----- no false alarms -----

  /** With telemetry on, or without ECHOs, and nothing beyond the limit, whatever arrives decodes and carries RESP. */
  lemma ResponseIsGood(s: Sys, raw: bytes)
    requires s.telemetry || !CanOffer(s.sizes)
    requires Clear(s) && Inv(s.hist) && ItemsInv(s) && NetInv(s) && CutFrom(s.responses, raw)
    ensures DecodePdu(raw).Some? && DecodePdu(raw).value.IsResp()
  {
    hide Inv, ItemsInv, NetInv, DecodePdu, IsAnswer, CutFrom, IsPdu;
    var k := ResponseAnswers(s, raw);
    AnswerIsPdu(s.telemetry, s.hist.items[k].raw, raw);
    if !s.telemetry { OnlyProbes(s, k); }
    AnswerSays(s.telemetry, s.hist.items[k].raw, raw);
  }

  lemma OnlyProbes(s: Sys, k: nat)
    requires !CanOffer(s.sizes) && ItemsInv(s) && k in s.hist.items && IsPdu(s.hist.items[k].raw)
    ensures !IsEcho(s.hist.items[k].raw)
  {
    hide DecodePdu, IsPdu;
    assert GoodItem(s.sizes, s.hist.items[k]);
  }

  /** A response that says what its request asked for is no mismatch. */
  lemma SaysIsNoMismatch(sizes: Sizes, item: Pending, frame: Frame)
    requires DecodesAs(sizes, item) && Says(DecodePdu(item.raw).value, frame)
    ensures item.mtype == ECHO ==> !Differs(item, frame) && frame.seqNo == item.seqNo
    ensures item.mtype == STATUS ==> DecodeStatusBody(frame.payload).Some?
  {
    hide DecodePdu, DecodeStatusBody;
  }

  lemma AlarmsQuiet(s: Sys, a: Action)
    requires Enabled(s, a) && !OfReader(a)
    ensures SameAlarms(s, Next(s, a))
  {
    hide IsAnswer, CutFrom, SchedulerNext, SenderNext, ProbeNext, OthersNext;
  }

  lemma AlarmsDeliver(s: Sys, a: Action)
    requires Enabled(s, a) && a.Deliver? && DecodePdu(a.raw).Some? && DecodePdu(a.raw).value.IsResp()
    ensures SameAlarms(s, Next(s, a))
  {
    hide IsAnswer, CutFrom, DecodePdu, DoTake, Take, SchedulerNext, SenderNext, ProbeNext, OthersNext;
  }

  lemma AlarmsWork(s: Sys, a: Action)
    requires Enabled(s, a) && OfReader(a) && !a.Deliver?
    requires var (item, frame) := (s.readers[a.r].item, s.readers[a.r].frame);
             && (item.mtype == ECHO ==> !Differs(item, frame) && frame.seqNo == item.seqNo)
             && (item.mtype == STATUS ==> DecodeStatusBody(frame.payload).Some?)
    ensures SameAlarms(s, Next(s, a))
  {
    hide IsAnswer, CutFrom, Differs, DecodeStatusBody, SchedulerNext, SenderNext, ProbeNext, OthersNext;
  }

  lemma AlarmsKept(s: Sys, a: Action)
    requires Enabled(s, a) && Clear(s) && Inv(s.hist) && ItemsInv(s) && NetInv(s) && ReadersInv(s)
    requires s.telemetry || !CanOffer(s.sizes)
    ensures SameAlarms(s, Next(s, a))
  {
    hide Inv, Clear, Next, ItemsInv, NetInv, DecodesAs, Says, Differs, DecodePdu, IsAnswer, CutFrom, DecodeStatusBody,
      SameAlarms;
    if !OfReader(a) {
      AlarmsQuiet(s, a);
    } else if a.Deliver? {
      ResponseIsGood(s, a.raw);
      AlarmsDeliver(s, a);
    } else {
      assert ReaderOk(s.telemetry, s.sizes, s.readers[a.r]);
      SaysIsNoMismatch(s.sizes, s.readers[a.r].item, s.readers[a.r].frame);
      AlarmsWork(s, a);
    }
  }

  /** With telemetry off, no ECHO is accepted: its answer is the request, which has no RESP flag. */
  lemma NoEchoAccepted(s: Sys, a: Action)
    requires Enabled(s, a) && !s.telemetry && Clear(s) && Inv(s.hist) && NumbersInv(s) && ItemsInv(s) && NetInv(s)
    requires AcceptedOf(s.hist, ECHO) == {}
    ensures AcceptedOf(Next(s, a).hist, ECHO) == {}
  {
    hide Inv, Next, Clear, NumbersInv, ItemsInv, NetInv, DecodesAs, Says, DecodePdu, IsAnswer, CutFrom, EchoItem,
      StatusItem, Take, AcceptedOf;
    AcceptedMoves(s, a, ECHO);
    if Accepts(s, a).Some? && IsOf(s.hist, Accepts(s, a).value, ECHO) {
      TakenItem(s.hist, Accepts(s, a).value);
      TakenFits(s, a.raw);
    }
  }

  lemma QuietKept(s: Sys, a: Action)
    requires Enabled(s, a) && Inv(s.hist) && NumbersInv(s) && ItemsInv(s) && NetInv(s) && ReadersInv(s) && QuietInv(s)
    ensures QuietInv(Next(s, a))
  {
    hide Inv, Enabled, Next, Clear, NumbersInv, ItemsInv, NetInv, ReadersInv, AcceptedOf;
    FixedParts(s, a);
    if Clear(Next(s, a)) {
      ClearBefore(s, a);
      if s.telemetry || !CanOffer(s.sizes) { AlarmsKept(s, a); }
      if !s.telemetry { NoEchoAccepted(s, a); }
    }
  }

  // ----- all together -----

  lemma StepKept(s: Sys, a: Action)
    requires SysInv(s) && Enabled(s, a)
    ensures SysInv(Next(s, a))
  {
    hide Enabled, Next, Inv, ItemsInv, NumbersInv, LineInv, NetInv, HeldInv, SentInv, ReadersInv, SentCounts,
      ReceivedCounts, QuietInv;
    HistKept(s, a);
    ItemsKept(s, a);
    NumbersKept(s, a);
    LineKept(s, a);
    NetKept(s, a);
    HeldKept(s, a);
    SentKept(s, a);
    ReadersKept(s, a);
    SentCountsKept(s, a);
    ReceivedCountsKept(s, a);
    QuietKept(s, a);
  }

  lemma StartInv(u: Setup)
    ensures SysInv(Start(u))
  {
    hide IsAnswer, CutFrom, DecodePdu, KnownRequest, KnownResponse;
    var s := Start(u);
    assert LostTracked(s.hist) == {} && BookHistory.At(s.hist, Dropped) == {};
    assert OfType(s.hist.items, ECHO) == {} && OfType(s.hist.items, STATUS) == {};
    assert AcceptedOf(s.hist, ECHO) == {} && AcceptedOf(s.hist, STATUS) == {};
    AllIdle(u.readers, HoldsEcho);
    AllIdle(u.readers, HoldsStatus);
    AllIdle(u.readers, HoldsLate);
  }

  lemma {:induction false} AllIdle(n: nat, holds: Reader -> nat)
    requires holds(RIdle) == 0
    ensures InHand(seq(n, i => RIdle), holds) == 0
  {
    if n > 0 {
      AllIdle(n - 1, holds);
      assert seq(n, i => RIdle)[..n - 1] == seq(n - 1, i => RIdle);
    }
  }

  // ----- when nothing beyond the limit is ever written -----

  /** The client's payloads fit, and the server's answers to them do; or there are none. */
  predicate Calm(telemetry: bool, sizes: Sizes)
  {
    !CanOffer(sizes) || sizes.most + (if telemetry then TELEMETRY_SIZE else 0) <= MAX_BODY
  }

  lemma CalmItem(s: Sys, req: bytes)
    requires ItemsInv(s) && KnownRequest(s, req) && Calm(s.telemetry, s.sizes)
    ensures IsPdu(req) && (s.telemetry && IsEcho(req) ==> HasRoom(req))
  {
    hide IsPdu, DecodePdu;
    var k :| k in s.wired && k in s.hist.items && s.hist.items[k].raw == req;
    assert GoodItem(s.sizes, s.hist.items[k]);
  }

  lemma CalmIsClear(s: Sys)
    requires ItemsInv(s) && NetInv(s) && Calm(s.telemetry, s.sizes)
    ensures Clear(s)
  {
    hide IsPdu, CutFrom, IsAnswer, DecodePdu, KnownRequest, KnownResponse, ItemsInv, Calm;
    forall req | req in s.requests ensures IsPdu(req) { CalmItem(s, req); }
    forall resp | resp in s.responses ensures IsPdu(resp) { CalmAnswer(s, resp); }
  }

  lemma CalmAnswer(s: Sys, resp: bytes)
    requires ItemsInv(s) && NetInv(s) && Calm(s.telemetry, s.sizes) && AllPdus(s.requests) && resp in s.responses
    ensures IsPdu(resp)
  {
    hide IsPdu, CutFrom, IsAnswer, DecodePdu, KnownRequest, ItemsInv, Calm, IsEcho, HasRoom;
    assert KnownResponse(s, resp);
    var req :| CutFrom(s.requests, req) && IsAnswer(s.telemetry, req, resp);
    CutWhole(s.requests, req);
    CalmItem(s, req);
    AnswerIsPdu(s.telemetry, req, resp);
  }
}
