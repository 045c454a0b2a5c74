/**
 Client, network and server as one step machine (src/peer_client/binary_io.py, schedule.py:40-72,
 client.py:191-237). Threads: scheduler, sender, probe, any number of readers, reaper and the caller
 of stop. Every section under a lock, every queue operation and every socket call is one step; between
 two steps of a thread any other thread may run. The network keeps every PDU ever written; what arrives
 at a peer is whatever the parser cuts from these PDUs written one after another, each of them any number
 of times, in any order, or never. PDUs within the limit arrive whole; one beyond it may arrive in pieces
 (module Resync). A send that fails puts nothing on the network. Where a number, a time or a payload does
 not fit its field, encoding raises and the thread ends: it makes no further step. A payload has any contents and
 any length between two bounds; the program draws its contents from a pseudo-random generator.
 */
module ClientMachine {
  import opened Wrappers
  import opened Wire
  import opened Protocol
  import opened StatusBody
  import opened Answers
  import opened Streams
  import opened Book
  import opened BookHistory

  datatype Outgoing = Outgoing(seqNo: nat, raw: bytes)

  /**
   SPassed: before an offer, sched_stop was found clear; SReady: and so was the other flag; SFull: sched_stop was
   found clear again, and the scheduler sleeps until the queue has room; Offered: counted; Numbered: has a number;
   Enlisted: in the book, and not yet on the queue.
   */
  datatype Scheduler =
    | SIdle | SPassed | SReady | SFull | Offered | Numbered(seqNo: nat) | Enlisted(out: Outgoing)

  /**
   Written: sendall returned; Marked: the book knows; then wire_sent is counted. Failing: sendall raised
   and the book was told; then the stop flag is set.
   */
  datatype Sender =
    | TIdle | Holding(out: Outgoing) | Written(out: Outgoing) | Marked(out: Outgoing) | Failing | TDone

  /** PReady: the stop flag was found clear for the last time before a probe. */
  datatype Probe = PIdle | PReady | PNumbered(seqNo: nat) | PEnlisted(out: Outgoing) | PWritten(seqNo: nat) | PMarked

  /** Taken: accepted by the book; Compared, Checked: the two tests of an ECHO are done; Counted: in the totals. */
  datatype Reader =
    | RIdle | Taken(item: Pending, frame: Frame, late: bool) | Compared(item: Pending, frame: Frame, late: bool)
    | Checked(item: Pending, frame: Frame, late: bool) | Counted(item: Pending, frame: Frame)

  /** The shortest and the longest payload; one fixed length if both are the same. */
  datatype Sizes = Sizes(least: nat, most: nat)

  datatype Sys = Sys(
    telemetry: bool,   // the server's setting
    sizes: Sizes,      // of payloads
    hist: History,     // the book and what has become of its items
    lastSeq: nat,
    offered: nat, wireSent: nat, received: nat, late: nat, statusSent: nat, statusReceived: nat,
    mismatch: nat, seqMismatch: nat, protocolErrors: nat,
    txq: seq<Outgoing>, sched: Scheduler, sender: Sender, probe: Probe, readers: seq<Reader>,
    schedStop: bool, stopped: bool,  // the two stop flags
    requests: set<bytes>, responses: set<bytes>,  // the network
    wired: set<nat>,   // numbers whose request was written to a socket
    reaped: bool)      // the forced reap of stop has run

  datatype Action =
    | TestSched | TestStop | Sleep | Wake | Offer | Number | Enlist(clock: nat, payload: bytes) | Queue
    | Pick | Quit | SendOk | SendFail | GiveUp | TellBook(now: int) | CountSent
    | ProbeTest | ProbeNumber | ProbeEnlist(clock: nat) | ProbeOk | ProbeFail | ProbeMark(now: int) | ProbeCount
    | Deliver(r: nat, raw: bytes) | Compare(r: nat) | CheckSeq(r: nat) | CountIn(r: nat) | ApplyIn(r: nat)
    | ReapNow(now: int) | FinalReap(now: int) | SchedStop | StopAll
    | Serve(req: bytes, resp: bytes)

  datatype Setup = Setup(telemetry: bool, sizes: Sizes, timeoutNs: int, remember: nat, readers: nat)

  function Start(u: Setup): Sys
  {
    Sys(u.telemetry, u.sizes, NewHistory(u.timeoutNs, u.remember), 0, 0, 0, 0, 0, 0, 0, 0, 0, 0,
        [], SIdle, TIdle, PIdle, seq(u.readers, i => RIdle), false, false, {}, {}, {}, false)
  }

  ghost predicate Enabled(s: Sys, a: Action)
  {
    match a
    case TestSched => s.sched.SIdle? && !s.schedStop
    case TestStop => s.sched.SPassed? && !s.stopped
    case Sleep => s.sched.SReady? && !s.schedStop
    case Wake => s.sched.SFull? && !s.schedStop
    case Offer => s.sched.SReady?
    case Number => s.sched.Offered?
    case Enlist(now, payload) =>
      && s.sched.Numbered? && s.sizes.least <= |payload| <= s.sizes.most
      && HeaderFits(ECHO, FLAG_REQ, s.sched.seqNo, now, |payload|)
    case Queue => s.sched.Enlisted?
    case Pick => s.sender.TIdle? && s.txq != []
    case Quit => s.sender.TIdle? && s.stopped
    case SendOk => s.sender.Holding?
    case SendFail => s.sender.Holding?
    case GiveUp => s.sender.Failing?
    case TellBook(_) => s.sender.Written?
    case CountSent => s.sender.Marked?
    case ProbeTest => s.probe.PIdle? && !s.stopped
    case ProbeNumber => s.probe.PReady?
    case ProbeEnlist(now) => s.probe.PNumbered? && HeaderFits(STATUS, FLAG_REQ, s.probe.seqNo, now, 0)
    case ProbeOk => s.probe.PEnlisted?
    case ProbeFail => s.probe.PEnlisted?
    case ProbeMark(_) => s.probe.PWritten?
    case ProbeCount => s.probe.PMarked?
    case Deliver(r, raw) => r < |s.readers| && s.readers[r].RIdle? && CutFrom(s.responses, raw)
    case Compare(r) => r < |s.readers| && s.readers[r].Taken?
    case CheckSeq(r) => r < |s.readers| && s.readers[r].Compared?
    case CountIn(r) => r < |s.readers| && s.readers[r].Checked?
    case ApplyIn(r) => r < |s.readers| && s.readers[r].Counted?
    case ReapNow(_) => true
    case FinalReap(_) => s.schedStop && s.stopped
    case SchedStop => true
    case StopAll => s.schedStop
    case Serve(req, resp) => CutFrom(s.requests, req) && IsAnswer(s.telemetry, req, resp)
  }

  function EchoItem(seqNo: nat, now: nat, payload: bytes): Pending
    requires HeaderFits(ECHO, FLAG_REQ, seqNo, now, |payload|)
  {
    Pending(seqNo, ECHO, now, None, EncodeEchoRequest(seqNo, now, payload), true)
  }

  function StatusItem(seqNo: nat, now: nat): Pending
    requires HeaderFits(STATUS, FLAG_REQ, seqNo, now, 0)
  {
    Pending(seqNo, STATUS, now, None, EncodeStatusRequest(seqNo, now), false)
  }

  /** The comparison of an ECHO response with its request. */
  predicate Differs(item: Pending, frame: Frame)
  {
    match DecodePdu(item.raw)
    case None => true
    case Some(req) => frame.payload != req.payload || frame.seqNo != req.seqNo
  }

  // ----- what a step may leave alone -----

  predicate SameSettings(s: Sys, s': Sys)
  {
    s'.telemetry == s.telemetry && s'.sizes == s.sizes && |s'.readers| == |s.readers|
  }

  predicate SameNet(s: Sys, s': Sys)
  {
    s'.requests == s.requests && s'.responses == s.responses && s'.wired == s.wired
  }

  predicate SameFlags(s: Sys, s': Sys)
  {
    s'.schedStop == s.schedStop && s'.stopped == s.stopped && s'.reaped == s.reaped
  }

  predicate SameTotals(s: Sys, s': Sys)
  {
    s'.received == s.received && s'.statusReceived == s.statusReceived && s'.late == s.late
  }

  predicate SameAlarms(s: Sys, s': Sys)
  {
    s'.mismatch == s.mismatch && s'.seqMismatch == s.seqMismatch && s'.protocolErrors == s.protocolErrors
  }

  /** The threads that send, their queue and their counters. */
  predicate SameSending(s: Sys, s': Sys)
  {
    && s'.sched == s.sched && s'.txq == s.txq && s'.sender == s.sender && s'.probe == s.probe
    && s'.lastSeq == s.lastSeq && s'.offered == s.offered && s'.wireSent == s.wireSent && s'.statusSent == s.statusSent
  }

  /** A response reaches a reader: rejected, or offered to the book. */
  function Delivered(s: Sys, r: nat, raw: bytes): (s': Sys)
    requires r < |s.readers|
    ensures SameSettings(s, s') && SameNet(s, s') && SameFlags(s, s') && SameSending(s, s') && SameTotals(s, s')
    ensures s'.mismatch == s.mismatch && s'.seqMismatch == s.seqMismatch
  {
    match DecodePdu(raw)
    case None => s.(protocolErrors := s.protocolErrors + 1)
    case Some(frame) =>
      if !frame.IsResp() then s.(protocolErrors := s.protocolErrors + 1)
      else
        var verdict := Take(s.hist.book, frame.seqNo).0;
        s.(hist := DoTake(s.hist, frame.seqNo),
           readers := if !verdict.Accepted() then s.readers
                      else s.readers[r := Taken(verdict.item, frame, verdict.Late?)])
  }

  // ----- the steps, thread by thread, with what each thread leaves alone -----

  predicate OfScheduler(a: Action)
  {
    a.TestSched? || a.TestStop? || a.Sleep? || a.Wake? || a.Offer? || a.Number? || a.Enlist? || a.Queue?
  }

  ghost function SchedulerNext(s: Sys, a: Action): (s': Sys)
    requires Enabled(s, a) && OfScheduler(a)
    ensures SameSettings(s, s') && SameNet(s, s') && SameTotals(s, s') && SameAlarms(s, s') && SameFlags(s, s')
    ensures s'.sender == s.sender && s'.probe == s.probe && s'.readers == s.readers
    ensures s'.wireSent == s.wireSent && s'.statusSent == s.statusSent
  {
    match a
    case TestSched => s.(sched := SPassed)
    case TestStop => s.(sched := SReady)
    case Sleep => s.(sched := SFull)
    case Wake => s.(sched := SReady)
    case Offer => s.(offered := s.offered + 1, sched := Offered)
    case Number => s.(lastSeq := s.lastSeq + 1, sched := Numbered(s.lastSeq + 1))
    case Enlist(now, payload) =>
      var item := EchoItem(s.sched.seqNo, now, payload);
      s.(hist := DoAdd(s.hist, item), sched := Enlisted(Outgoing(item.seqNo, item.raw)))
    case Queue => s.(txq := s.txq + [s.sched.out], sched := SIdle)
  }

  predicate OfSender(a: Action)
  {
    a.Pick? || a.Quit? || a.SendOk? || a.SendFail? || a.GiveUp? || a.TellBook? || a.CountSent?
  }

  ghost function SenderNext(s: Sys, a: Action): (s': Sys)
    requires Enabled(s, a) && OfSender(a)
    ensures SameSettings(s, s') && SameTotals(s, s') && SameAlarms(s, s')
    ensures s'.sched == s.sched && s'.probe == s.probe && s'.readers == s.readers && s'.lastSeq == s.lastSeq
    ensures s'.offered == s.offered && s'.statusSent == s.statusSent
    ensures s'.reaped == s.reaped && s'.schedStop == s.schedStop && s'.responses == s.responses
  {
    match a
    case Pick => s.(txq := s.txq[1..], sender := Holding(s.txq[0]))
    case Quit => s.(sender := TDone)
    case SendOk =>
      var out := s.sender.out;
      s.(requests := s.requests + {out.raw}, wired := s.wired + {out.seqNo}, sender := Written(out))
    case SendFail => s.(hist := DoUnsend(s.hist, s.sender.out.seqNo), sender := Failing)
    case GiveUp => s.(stopped := true, sender := TDone)
    case TellBook(now) => s.(hist := DoMark(s.hist, s.sender.out.seqNo, now), sender := Marked(s.sender.out))
    case CountSent => s.(wireSent := s.wireSent + 1, sender := TIdle)
  }

  predicate OfProbe(a: Action)
  {
    a.ProbeTest? || a.ProbeNumber? || a.ProbeEnlist? || a.ProbeOk? || a.ProbeFail? || a.ProbeMark? || a.ProbeCount?
  }

  ghost function ProbeNext(s: Sys, a: Action): (s': Sys)
    requires Enabled(s, a) && OfProbe(a)
    ensures SameSettings(s, s') && SameTotals(s, s') && SameAlarms(s, s') && SameFlags(s, s')
    ensures s'.sched == s.sched && s'.txq == s.txq && s'.sender == s.sender && s'.readers == s.readers
    ensures s'.offered == s.offered && s'.wireSent == s.wireSent
    ensures s'.responses == s.responses
  {
    match a
    case ProbeTest => s.(probe := PReady)
    case ProbeNumber => s.(lastSeq := s.lastSeq + 1, probe := PNumbered(s.lastSeq + 1))
    case ProbeEnlist(now) =>
      var item := StatusItem(s.probe.seqNo, now);
      s.(hist := DoAdd(s.hist, item), probe := PEnlisted(Outgoing(item.seqNo, item.raw)))
    case ProbeOk =>
      var out := s.probe.out;
      s.(requests := s.requests + {out.raw}, wired := s.wired + {out.seqNo}, probe := PWritten(out.seqNo))
    case ProbeFail => s.(hist := DoUnsend(s.hist, s.probe.out.seqNo), probe := PIdle)
    case ProbeMark(now) => s.(hist := DoMark(s.hist, s.probe.seqNo, now), probe := PMarked)
    case ProbeCount => s.(statusSent := s.statusSent + 1, probe := PIdle)
  }

  predicate OfReader(a: Action)
  {
    a.Deliver? || a.Compare? || a.CheckSeq? || a.CountIn? || a.ApplyIn?
  }

  /** A reader goes on with a response the book has accepted. */
  ghost function ReaderWorks(s: Sys, a: Action): (s': Sys)
    requires Enabled(s, a) && OfReader(a) && !a.Deliver?
    ensures SameSettings(s, s') && SameNet(s, s') && SameFlags(s, s') && SameSending(s, s') && s'.hist == s.hist
  {
    var r := a.r;
    var (item, frame) := (s.readers[r].item, s.readers[r].frame);
    match a
    case Compare(_) =>
      s.(mismatch := s.mismatch + (if item.mtype == ECHO && Differs(item, frame) then 1 else 0),
         readers := s.readers[r := Compared(item, frame, s.readers[r].late)])
    case CheckSeq(_) =>
      s.(seqMismatch := s.seqMismatch + (if item.mtype == ECHO && frame.seqNo != item.seqNo then 1 else 0),
         readers := s.readers[r := Checked(item, frame, s.readers[r].late)])
    case CountIn(_) =>
      s.(late := s.late + (if s.readers[r].late then 1 else 0),
         received := s.received + (if item.mtype == ECHO then 1 else 0),
         statusReceived := s.statusReceived + (if item.mtype == STATUS then 1 else 0),
         readers := s.readers[r := Counted(item, frame)])
    case ApplyIn(_) =>
      var bad := item.mtype == STATUS && DecodeStatusBody(frame.payload).None?;
      s.(mismatch := s.mismatch + (if bad then 1 else 0), readers := s.readers[r := RIdle])
  }

  ghost function ReaderNext(s: Sys, a: Action): (s': Sys)
    requires Enabled(s, a) && OfReader(a)
    ensures SameSettings(s, s') && SameNet(s, s') && SameFlags(s, s') && SameSending(s, s')
    ensures !a.Deliver? ==> s'.hist == s.hist
  {
    if a.Deliver? then Delivered(s, a.r, a.raw) else ReaderWorks(s, a)
  }

  /** The reaper, the caller of stop, and the server. */
  predicate OfOthers(a: Action)
  {
    a.ReapNow? || a.FinalReap? || a.SchedStop? || a.StopAll? || a.Serve?
  }

  ghost function OthersNext(s: Sys, a: Action): (s': Sys)
    requires Enabled(s, a) && OfOthers(a)
    ensures SameSettings(s, s') && SameTotals(s, s') && SameAlarms(s, s') && SameSending(s, s')
    ensures s'.readers == s.readers && s'.requests == s.requests && s'.wired == s.wired
  {
    match a
    case ReapNow(now) => s.(hist := DoReap(s.hist, now, false))
    case FinalReap(now) => s.(hist := DoReap(s.hist, now, true), reaped := true)
    case SchedStop => s.(schedStop := true)
    case StopAll => s.(stopped := true)
    case Serve(req, resp) => s.(responses := s.responses + {resp})
  }

  ghost function Next(s: Sys, a: Action): Sys
    requires Enabled(s, a)
  {
    if OfScheduler(a) then SchedulerNext(s, a)
    else if OfSender(a) then SenderNext(s, a)
    else if OfProbe(a) then ProbeNext(s, a)
    else if OfReader(a) then ReaderNext(s, a)
    else OthersNext(s, a)
  }

  // ----- the invariant, part by part -----

  /** No PDU beyond the limit has been written so far. */
  predicate Clear(s: Sys)
  {
    AllPdus(s.requests) && AllPdus(s.responses)
  }

  /** A request decodes to its item's own number and type. */
  predicate DecodesAs(sizes: Sizes, item: Pending)
  {
    && DecodePdu(item.raw).Some?
    && var f := DecodePdu(item.raw).value;
       && f.flags == FLAG_REQ && f.seqNo == item.seqNo && f.mtype == item.mtype
       && (f.mtype == ECHO ==> |f.payload| <= sizes.most)
  }

  /** Some payload of these sizes can be encoded; otherwise no ECHO ever enters the book. */
  predicate CanOffer(sizes: Sizes)
  {
    sizes.least <= sizes.most && sizes.least + INNER_HDR_SIZE < U32
  }

  /** A request as the client makes them: if it is within the limit, and it is if payloads are, it decodes. */
  predicate GoodItem(sizes: Sizes, item: Pending)
  {
    && (item.mtype == ECHO || item.mtype == STATUS)
    && (item.trackLoss <==> item.mtype == ECHO)
    && (item.mtype == ECHO ==> CanOffer(sizes))
    && (IsPdu(item.raw) ==> DecodesAs(sizes, item))
    && (item.mtype == STATUS || sizes.most <= MAX_BODY ==> IsPdu(item.raw))
  }

  ghost predicate ItemsInv(s: Sys)
  {
    forall k :: k in s.hist.items ==> GoodItem(s.sizes, s.hist.items[k])
  }

  /** A number is used for one item only. */
  ghost predicate NumbersInv(s: Sys)
  {
    && (forall k :: k in s.hist.items ==> k <= s.lastSeq)
    && (s.sched.Numbered? ==> s.sched.seqNo <= s.lastSeq && s.sched.seqNo !in s.hist.items)
    && (s.probe.PNumbered? ==> s.probe.seqNo <= s.lastSeq && s.probe.seqNo !in s.hist.items)
    && (s.sched.Numbered? && s.probe.PNumbered? ==> s.sched.seqNo != s.probe.seqNo)
  }

  /** ECHO requests on their way to the socket, oldest first. */
  function Line(s: Sys): seq<Outgoing>
  {
    (if s.sender.Holding? then [s.sender.out] else []) + s.txq + (if s.sched.Enlisted? then [s.sched.out] else [])
  }

  predicate IsItem(s: Sys, out: Outgoing, mtype: nat)
  {
    out.seqNo in s.hist.items && s.hist.items[out.seqNo].raw == out.raw && s.hist.items[out.seqNo].mtype == mtype
  }

  predicate Distinct(line: seq<Outgoing>)
  {
    forall i, j :: 0 <= i < j < |line| ==> line[i].seqNo != line[j].seqNo
  }

  ghost predicate LineInv(s: Sys)
  {
    && Distinct(Line(s))
    && (forall i :: 0 <= i < |Line(s)| ==> IsItem(s, Line(s)[i], ECHO) && Line(s)[i].seqNo !in s.wired)
    && (s.sender.Written? || s.sender.Marked? ==> IsItem(s, s.sender.out, ECHO) && s.sender.out.seqNo in s.wired)
    && (s.probe.PEnlisted? ==> IsItem(s, s.probe.out, STATUS) && s.probe.out.seqNo !in s.wired)
    && (s.probe.PWritten? ==>
          && s.probe.seqNo in s.wired && s.probe.seqNo in s.hist.items
          && s.hist.items[s.probe.seqNo].mtype == STATUS)
  }

  /** A request on the network is the encoding of an item that was written. */
  ghost predicate KnownRequest(s: Sys, req: bytes)
  {
    exists k :: k in s.wired && k in s.hist.items && s.hist.items[k].raw == req
  }

  /** A response on the network answers what can be cut from the requests. */
  ghost predicate KnownResponse(s: Sys, resp: bytes)
  {
    exists req :: CutFrom(s.requests, req) && IsAnswer(s.telemetry, req, resp)
  }

  ghost predicate NetInv(s: Sys)
  {
    && (forall k :: k in s.wired ==> k in s.hist.items)
    && (forall req :: req in s.requests ==> KnownRequest(s, req))
    && (forall resp :: resp in s.responses ==> KnownResponse(s, resp))
  }

  /** What was written, item by item: the book's places agree with the wire, up to items between send and mark. */
  predicate SentAgrees(s: Sys, k: nat)
    requires k in s.hist.place
  {
    match s.hist.place[k]
    case Answered => k in s.wired || !Clear(s)
    case Lost => k in s.wired
    case Forgotten => k in s.wired
    case Dropped => s.reaped || k !in s.wired
    case Waiting =>
      && (SentInBook(s.hist.book, k) ==> k in s.wired)
      && (k in s.wired ==> SentInBook(s.hist.book, k) || AtSocket(s, k))
  }

  predicate SentInBook(b: BookState, k: nat)
  {
    k in b.open.vals && b.open.vals[k].sendMono.Some?
  }

  /** k has been written by a thread that has not told the book yet. */
  predicate AtSocket(s: Sys, k: nat)
  {
    (s.sender.Written? && s.sender.out.seqNo == k) || (s.probe.PWritten? && s.probe.seqNo == k)
  }

  ghost predicate SentInv(s: Sys)
  {
    forall k :: k in s.hist.place ==> SentAgrees(s, k)
  }

  /**
   An item not written yet is open and unsent, unless something cut from a PDU beyond the limit was taken for
   its answer.
   */
  predicate OnItsWay(s: Sys, k: nat)
  {
    HeldUnsent(s.hist.book, k) || (!Clear(s) && k in s.hist.place && s.hist.place[k] == Answered)
  }

  /** Until the forced reap, so is every request on its way to a socket. */
  ghost predicate HeldInv(s: Sys)
  {
    !s.reaped ==>
      && (forall i :: 0 <= i < |Line(s)| ==> OnItsWay(s, Line(s)[i].seqNo))
      && (s.probe.PEnlisted? ==> OnItsWay(s, s.probe.out.seqNo))
  }

  /** What a reader holds: an accepted item and a response that answers it. */
  ghost predicate ReaderOk(telemetry: bool, sizes: Sizes, r: Reader)
  {
    r.RIdle? ||
    (&& DecodesAs(sizes, r.item)
     && Says(DecodePdu(r.item.raw).value, r.frame)
     && (!telemetry ==> r.item.mtype != ECHO))
  }

  ghost predicate ReadersInv(s: Sys)
  {
    Clear(s) ==> forall r :: 0 <= r < |s.readers| ==> ReaderOk(s.telemetry, s.sizes, s.readers[r])
  }

  function OfType(items: map<nat, Pending>, mtype: nat): set<nat>
  {
    set k | k in items && items[k].mtype == mtype
  }

  ghost function AcceptedOf(h: History, mtype: nat): set<nat>
  {
    set k | k in h.accepted && k in h.items && h.items[k].mtype == mtype
  }

  /** The readers that hold something not yet counted, where `holds` says who does. */
  function InHand(readers: seq<Reader>, holds: Reader -> nat): nat
  {
    if readers == [] then 0
    else InHand(readers[..|readers| - 1], holds) + holds(readers[|readers| - 1])
  }

  predicate Uncounted(r: Reader)
  {
    r.Taken? || r.Compared? || r.Checked?
  }

  /** 1 for a reader that holds an accepted ECHO not yet in `received`. */
  function HoldsEcho(r: Reader): nat
  {
    if Uncounted(r) && r.item.mtype == ECHO then 1 else 0
  }

  /** 1 for a reader that holds an accepted STATUS not yet in `status_received`. */
  function HoldsStatus(r: Reader): nat
  {
    if Uncounted(r) && r.item.mtype == STATUS then 1 else 0
  }

  /** 1 for a reader that holds a late response not yet in `late`. */
  function HoldsLate(r: Reader): nat
  {
    if Uncounted(r) && r.late then 1 else 0
  }

  /** 1 while an offer is counted and not yet in the book. */
  function OfferInHand(s: Sys): nat
  {
    if s.sched.Offered? || s.sched.Numbered? then 1 else 0
  }

  /** 1 while a written ECHO is not yet in wire_sent. */
  function SendInHand(s: Sys): nat
  {
    if s.sender.Written? || s.sender.Marked? then 1 else 0
  }

  /** 1 while a written probe is not yet in status_sent. */
  function ProbeInHand(s: Sys): nat
  {
    if s.probe.PWritten? || s.probe.PMarked? then 1 else 0
  }

  ghost predicate SentCounts(s: Sys)
  {
    && s.offered == |OfType(s.hist.items, ECHO)| + OfferInHand(s)
    && s.wireSent + SendInHand(s) == |s.wired * OfType(s.hist.items, ECHO)|
    && s.statusSent + ProbeInHand(s) == |s.wired * OfType(s.hist.items, STATUS)|
  }

  ghost predicate ReceivedCounts(s: Sys)
  {
    && s.received + InHand(s.readers, HoldsEcho) == |AcceptedOf(s.hist, ECHO)|
    && s.statusReceived + InHand(s.readers, HoldsStatus) == |AcceptedOf(s.hist, STATUS)|
    && s.late + InHand(s.readers, HoldsLate) == s.hist.lates
  }

  predicate NoAlarm(s: Sys)
  {
    s.mismatch == 0 && s.seqMismatch == 0 && s.protocolErrors == 0
  }

  ghost predicate QuietInv(s: Sys)
  {
    Clear(s) ==>
      && (s.telemetry || !CanOffer(s.sizes) ==> NoAlarm(s))
      && (!s.telemetry ==> AcceptedOf(s.hist, ECHO) == {})
  }

  ghost predicate SysInv(s: Sys)
  {
    && Inv(s.hist)
    && ItemsInv(s) && NumbersInv(s) && LineInv(s) && NetInv(s)
    && HeldInv(s) && SentInv(s) && ReadersInv(s)
    && SentCounts(s) && ReceivedCounts(s) && QuietInv(s)
  }
}
