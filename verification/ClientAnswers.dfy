/** What becomes of each response that reaches the client, of each comparison, and of a write that fails. */
module ClientAnswers {
  import opened Wrappers
  import opened Wire
  import opened Protocol
  import opened StatusBody
  import opened Streams
  import opened Answers
  import opened Book
  import opened BookHistory
  import opened BookVerdicts
  import opened ClientMachine
  import opened ClientSteps
  import opened ClientPlaces
  import opened ClientCounts
  import opened ClientRuns

  // ----- the book inside the machine -----

  /** In every reachable state the book's history is that of a legal run of the book's own operations. */
  lemma {:induction false} RunIsOps(u: Setup, acts: seq<Action>) returns (ops: seq<Op>)
    requires Run(u, acts).Some?
    ensures LegalRun(u.timeoutNs, u.remember, ops)
    ensures RunOps(u.timeoutNs, u.remember, ops) == Run(u, acts).value.hist
    decreases |acts|
  {
    hide Run, Enabled, Next, Step, SysInv, Start, NewHistory, Allowed, BookOp;
    if acts == [] {
      ops := [];
      RunNone(u);
    } else {
      var init, a := acts[..|acts| - 1], acts[|acts| - 1];
      assert acts == init + [a];
      RunBefore(u, init, a);
      var before := RunIsOps(u, init);
      var s := Run(u, init).value;
      HistMoves(s, a);
      RunKeeps(u, init);
      if BookOp(s, a).Some? {
        OpAllowed(s, a) by { NumbersOf(s); }
        ops := before + [BookOp(s, a).value];
        assert ops[..|ops| - 1] == before;
      } else {
        ops := before;
      }
    }
  }

  lemma NumbersOf(s: Sys)
    requires SysInv(s)
    ensures NumbersInv(s) && Inv(s.hist) && LineInv(s) && HeldInv(s) && SentInv(s)
  {
  }

  lemma RunNone(u: Setup)
    ensures Run(u, []) == Some(Start(u)) && Start(u).hist == NewHistory(u.timeoutNs, u.remember)
  {
  }

  // ----- a response arrives -----

  /** What the reader then holds: the item under the response's number, as it was added but for its send time. */
  ghost predicate Handed(s: Sys, k: nat, frame: Frame, late: bool, now: Reader)
  {
    && now.Taken? && now.frame == frame && now.late == late
    && k in s.hist.items && SameButSendTime(now.item, s.hist.items[k])
  }

  lemma ItemHanded(s: Sys, k: nat)
    requires Inv(s.hist)
    ensures k in s.hist.book.open.vals ==>
              k in s.hist.items && SameButSendTime(s.hist.book.open.vals[k], s.hist.items[k])
    ensures k in s.hist.book.lostSeqs.vals ==>
              k in s.hist.items && SameButSendTime(s.hist.book.lostSeqs.vals[k], s.hist.items[k])
  {
  }

  lemma DeliverIs(s: Sys, r: nat, raw: bytes)
    requires Enabled(s, Deliver(r, raw))
    ensures r < |s.readers| && Next(s, Deliver(r, raw)) == Delivered(s, r, raw)
  {
    hide Delivered, IsAnswer, CutFrom, SchedulerNext, SenderNext, ProbeNext, OthersNext;
  }

  /** A response that goes to the book, by where its item is. */
  lemma OfferedToBook(s: Sys, r: nat, raw: bytes)
    requires Inv(s.hist) && r < |s.readers| && DecodePdu(raw).Some? && DecodePdu(raw).value.IsResp()
    ensures var (k, s') := (DecodePdu(raw).value.seqNo, Delivered(s, r, raw));
            && s' == s.(hist := s'.hist, readers := s'.readers)
            && if IsIn(s.hist, k, Waiting) || IsIn(s.hist, k, Lost) then
                 && s'.hist.place == s.hist.place[k := Answered]
                 && r < |s'.readers| && s'.readers == s.readers[r := s'.readers[r]]
                 && Handed(s, k, DecodePdu(raw).value, s.hist.place[k] == Lost, s'.readers[r])
               else
                 && s'.readers == s.readers
                 && s'.hist == s.hist.(book := s.hist.book.(duplicates := s'.hist.book.duplicates))
  {
    hide DecodePdu, Inv, LastOf;
    var k := DecodePdu(raw).value.seqNo;
    WhereItIs(s.hist, k);
    ItemHanded(s, k);
  }

  /**
   In every reachable state, what a reader does with a PDU that reaches it. One that is not acceptable or has no RESP
   bit is a protocol error and nothing else. Any other is taken for the item under its number if that is waiting, or,
   as late, if it is lost and remembered; the item is answered then. Otherwise only `duplicates` may change.
   */
  lemma DeliverExactly(u: Setup, acts: seq<Action>, r: nat, raw: bytes)
    requires Run(u, acts).Some? && Enabled(Run(u, acts).value, Deliver(r, raw))
    ensures var (s, s') := (Run(u, acts).value, Next(Run(u, acts).value, Deliver(r, raw)));
            if !Acceptable(raw) || raw[8] / 2 % 2 == 0 then s' == s.(protocolErrors := s.protocolErrors + 1)
            else
              var k := UnpackInt(raw[10..18]);
              && s' == s.(hist := s'.hist, readers := s'.readers)
              && if IsIn(s.hist, k, Waiting) || IsIn(s.hist, k, Lost) then
                   && s'.hist.place == s.hist.place[k := Answered]
                   && DecodePdu(raw).Some? && r < |s'.readers| && s'.readers == s.readers[r := s'.readers[r]]
                   && Handed(s, k, DecodePdu(raw).value, s.hist.place[k] == Lost, s'.readers[r])
                 else
                   && s'.readers == s.readers
                   && s'.hist == s.hist.(book := s.hist.book.(duplicates := s'.hist.book.duplicates))
  {
    hide Run, DecodePdu, UnpackInt, Enabled, Next, Inv, SysInv, Acceptable, Handed, IsIn, DoTake, Take;
    var s := Run(u, acts).value;
    RunKeeps(u, acts);
    NumbersOf(s);
    DecodesExactly(raw);
    DeliverIs(s, r, raw);
    if DecodePdu(raw).Some? && DecodePdu(raw).value.IsResp() { OfferedToBook(s, r, raw); }
  }

  // ----- the comparison -----

  /** An ECHO as the client makes it, as it may stand in the book after it was marked sent. */
  lemma EchoItemDecodes(seqNo: nat, clock: nat, payload: bytes)
    requires HeaderFits(ECHO, FLAG_REQ, seqNo, clock, |payload|)
    ensures var raw := EchoItem(seqNo, clock, payload).raw;
            if |payload| > MAX_BODY then DecodePdu(raw).None?
            else DecodePdu(raw) == Some(Frame(ECHO, FLAG_REQ, seqNo, clock, payload, None, raw))
  {
    hide DecodePdu, Protocol.Pdu;
    DecodeOfPdu(ECHO, FLAG_REQ, seqNo, clock, payload);
  }

  /**
   The comparison of a response with an ECHO: `mismatch` goes up by one if and only if the payloads differ, or the
   numbers, or the request is beyond the limit; nothing else changes but how far the reader is.
   */
  lemma CompareExactly(s: Sys, r: nat, seqNo: nat, clock: nat, payload: bytes, sent: Option<int>)
    requires HeaderFits(ECHO, FLAG_REQ, seqNo, clock, |payload|) && r < |s.readers| && s.readers[r].Taken?
    requires s.readers[r].item == EchoItem(seqNo, clock, payload).(sendMono := sent)
    ensures Enabled(s, Compare(r))
    ensures var (item, frame) := (s.readers[r].item, s.readers[r].frame);
            var differs := |payload| > MAX_BODY || frame.payload != payload || frame.seqNo != seqNo;
            Next(s, Compare(r)) == s.(mismatch := s.mismatch + (if differs then 1 else 0),
                                      readers := s.readers[r := Compared(item, frame, s.readers[r].late)])
  {
    hide DecodePdu, EncodeEchoRequest, IsAnswer, CutFrom, SchedulerNext, SenderNext, ProbeNext, OthersNext, Delivered;
    EchoItemDecodes(seqNo, clock, payload);
  }

  /** A probe is not compared. */
  lemma CompareProbe(s: Sys, r: nat)
    requires r < |s.readers| && s.readers[r].Taken? && s.readers[r].item.mtype != ECHO
    ensures Enabled(s, Compare(r))
    ensures var (item, frame) := (s.readers[r].item, s.readers[r].frame);
            Next(s, Compare(r)) == s.(readers := s.readers[r := Compared(item, frame, s.readers[r].late)])
  {
    hide DecodePdu, IsAnswer, CutFrom, SchedulerNext, SenderNext, ProbeNext, OthersNext, Delivered, Differs;
  }

  /** The second test of an ECHO, and what is counted in. */
  lemma CheckAndCountExactly(s: Sys, r: nat)
    requires r < |s.readers|
    ensures s.readers[r].Compared? ==>
              var (item, frame) := (s.readers[r].item, s.readers[r].frame);
              && Enabled(s, CheckSeq(r))
              && Next(s, CheckSeq(r)) == s.(
                   seqMismatch := s.seqMismatch + (if item.mtype == ECHO && frame.seqNo != item.seqNo then 1 else 0),
                   readers := s.readers[r := Checked(item, frame, s.readers[r].late)])
    ensures s.readers[r].Checked? ==>
              var (item, frame) := (s.readers[r].item, s.readers[r].frame);
              && Enabled(s, CountIn(r))
              && Next(s, CountIn(r)) == s.(
                   late := s.late + (if s.readers[r].late then 1 else 0),
                   received := s.received + (if item.mtype == ECHO then 1 else 0),
                   statusReceived := s.statusReceived + (if item.mtype == STATUS then 1 else 0),
                   readers := s.readers[r := Counted(item, frame)])
  {
    hide IsAnswer, CutFrom, Differs, Delivered, DecodeStatusBody, SchedulerNext, SenderNext, ProbeNext, OthersNext;
  }

  /** The body of a probe's answer is looked at when it is applied, and counts as a mismatch if it is refused. */
  lemma ApplyExactly(s: Sys, r: nat)
    requires r < |s.readers| && s.readers[r].Counted?
    ensures Enabled(s, ApplyIn(r))
    ensures var (item, frame) := (s.readers[r].item, s.readers[r].frame);
            var refused := item.mtype == STATUS && !AcceptableStatus(frame.payload);
            Next(s, ApplyIn(r)) == s.(mismatch := s.mismatch + (if refused then 1 else 0),
                                      readers := s.readers[r := RIdle])
  {
    hide DecodeStatusBody, AcceptableStatus, IsAnswer, CutFrom, SchedulerNext, SenderNext, ProbeNext, OthersNext,
      Delivered;
    StatusDecodesExactly(s.readers[r].frame.payload);
  }

  /** The items of a run are the ones its threads encode. */
  ghost predicate Encoded(item: Pending, k: nat)
  {
    || (exists clock: nat, payload: bytes ::
          HeaderFits(ECHO, FLAG_REQ, k, clock, |payload|) && item == EchoItem(k, clock, payload))
    || (exists clock: nat :: HeaderFits(STATUS, FLAG_REQ, k, clock, 0) && item == StatusItem(k, clock))
  }

  lemma NewIsEncoded(s: Sys, a: Action)
    requires Enabled(s, a) && Enlists(a)
    ensures Encoded(NewItem(s, a), NewItem(s, a).seqNo)
  {
    hide EncodeEchoRequest, EncodeStatusRequest, IsAnswer, CutFrom;
  }

  /** In every reachable state every item is an encoded ECHO or STATUS request. */
  lemma {:induction false} ItemsAreEncoded(u: Setup, acts: seq<Action>, k: nat)
    requires Run(u, acts).Some? && k in Run(u, acts).value.hist.items
    ensures Encoded(Run(u, acts).value.hist.items[k], k)
    decreases |acts|
  {
    hide Run, Enabled, Next, SysInv, Start, Encoded, NewItem, Enlists;
    if acts == [] {
      RunNone(u);
      NothingAdded(u.timeoutNs, u.remember, k);
    } else {
      var init, a := acts[..|acts| - 1], acts[|acts| - 1];
      assert acts == init + [a];
      RunBefore(u, init, a);
      var s := Run(u, init).value;
      RunKeeps(u, init);
      ItemsMove(s, a) by { NumbersOf(s); }
      if Enlists(a) { NewIsEncoded(s, a); }
      if k in s.hist.items { ItemsAreEncoded(u, init, k); }
    }
  }

  // ----- seq_mismatch -----

  /** What a reader holds goes together: the item was found under the response's number. */
  ghost predicate NumbersMatch(s: Sys)
  {
    s.seqMismatch == 0 &&
    forall r :: 0 <= r < |s.readers| && !s.readers[r].RIdle? ==> s.readers[r].item.seqNo == s.readers[r].frame.seqNo
  }

  lemma TakenNumber(h: History, n: nat)
    requires Inv(h) && Take(h.book, n).0.Accepted()
    ensures Take(h.book, n).0.item.seqNo == n
  {
    TakenItem(h, n);
  }

  lemma SeqMismatchMoves(s: Sys, a: Action)
    requires Enabled(s, a)
    ensures Next(s, a).seqMismatch ==
      s.seqMismatch + if a.CheckSeq? && s.readers[a.r].item.mtype == ECHO
                         && s.readers[a.r].frame.seqNo != s.readers[a.r].item.seqNo then 1 else 0
  {
    hide IsAnswer, CutFrom, SchedulerNext, SenderNext, ProbeNext, OthersNext, Differs, DecodeStatusBody, Delivered;
  }

  lemma MatchKept(s: Sys, a: Action)
    requires Enabled(s, a) && Inv(s.hist) && NumbersMatch(s)
    ensures NumbersMatch(Next(s, a))
  {
    hide Inv, Next, Take, DecodePdu, IsAnswer, CutFrom, EchoItem, StatusItem;
    SeqMismatchMoves(s, a);
    FixedParts(s, a);
    forall r | 0 <= r < |Next(s, a).readers| && !Next(s, a).readers[r].RIdle?
      ensures Next(s, a).readers[r].item.seqNo == Next(s, a).readers[r].frame.seqNo
    {
      ReaderMoves(s, a, r);
      if Accepts(s, a).Some? { TakenNumber(s.hist, Accepts(s, a).value); }
    }
  }

  lemma StartMatches(u: Setup)
    ensures NumbersMatch(Start(u))
  {
  }

  lemma {:induction false} RunMatches(u: Setup, acts: seq<Action>)
    requires Run(u, acts).Some?
    ensures NumbersMatch(Run(u, acts).value)
    decreases |acts|
  {
    hide Run, Enabled, Next, SysInv, Start, NumbersMatch;
    if acts == [] {
      RunNone(u);
      StartMatches(u);
    } else {
      var init, a := acts[..|acts| - 1], acts[|acts| - 1];
      assert acts == init + [a];
      RunBefore(u, init, a);
      RunMatches(u, init);
      RunKeeps(u, init);
      MatchKept(Run(u, init).value, a) by { NumbersOf(Run(u, init).value); }
    }
  }

  /** `seq_mismatch` is 0 in every run, whatever arrives: a response is only held against the item of its number. */
  lemma SeqMismatchNever(u: Setup, acts: seq<Action>)
    requires Run(u, acts).Some?
    ensures Run(u, acts).value.seqMismatch == 0
  {
    hide Run;
    RunMatches(u, acts);
  }

  // ----- a write that fails -----

  /** A thread's request before it is written: it waits unsent, was dropped by the forced reap, or is answered. */
  lemma UnwrittenIsWhere(s: Sys, k: nat)
    requires SysInv(s) && k !in s.wired && k in s.hist.place
    ensures IsIn(s.hist, k, Waiting) ==> HeldUnsent(s.hist.book, k)
    ensures IsIn(s.hist, k, Waiting) || IsIn(s.hist, k, Dropped) || (IsIn(s.hist, k, Answered) && !Clear(s))
  {
    hide Inv, ItemsInv, NumbersInv, LineInv, NetInv, HeldInv, ReadersInv, SentCounts, ReceivedCounts, QuietInv, Clear,
      SentInv, AtSocket;
    EachAgrees(s, k);
    WaitingIsOpen(s.hist, k);
  }

  lemma UnwrittenOut(s: Sys, a: Action)
    requires SysInv(s) && Enabled(s, a) && (a.SendFail? || a.ProbeFail?)
    ensures var k := if a.SendFail? then s.sender.out.seqNo else s.probe.out.seqNo; k !in s.wired && k in s.hist.place
  {
    hide ItemsInv, NumbersInv, NetInv, HeldInv, ReadersInv, SentCounts, ReceivedCounts, QuietInv, Clear, SentInv,
      IsAnswer, CutFrom, Distinct;
    PlaceKeys(s.hist) by { NumbersOf(s); }
    if a.SendFail? { assert Line(s)[0] == s.sender.out; }
  }

  /**
   In every reachable state, when writing a request to the socket fails: its item is no longer open, and if it was, it
   is the one more counted as unsent. Before the forced reap it was, unless it is answered already, which takes
   something cut from a PDU beyond the limit.
   */
  lemma FailedWrite(u: Setup, acts: seq<Action>, a: Action)
    requires Run(u, acts).Some? && Enabled(Run(u, acts).value, a) && (a.SendFail? || a.ProbeFail?)
    ensures var (s, s') := (Run(u, acts).value, Next(Run(u, acts).value, a));
            var k := if a.SendFail? then s.sender.out.seqNo else s.probe.out.seqNo;
            && k !in s'.hist.book.open.vals && k in s.hist.place && k in s'.hist.place
            && (if s.hist.place[k] == Waiting
                then s'.hist.place == s.hist.place[k := Dropped] && s'.hist.book.unsent == s.hist.book.unsent + 1
                else s'.hist == s.hist && (s.hist.place[k] == Dropped || (s.hist.place[k] == Answered && !Clear(s))))
            && (!s.reaped && Clear(s) ==> s.hist.place[k] == Waiting)
  {
    hide Run, SysInv, Inv, Clear, IsAnswer, CutFrom, SchedulerNext, ReaderNext, OthersNext, DoAdd, DoMark, StatusItem;
    var s := Run(u, acts).value;
    RunKeeps(u, acts);
    UnwrittenOut(s, a);
    var k := if a.SendFail? then s.sender.out.seqNo else s.probe.out.seqNo;
    UnwrittenIsWhere(s, k);
    NumbersOf(s);
    WaitingIsOpen(s.hist, k);
    HistMoves(s, a);
    if !s.reaped && Clear(s) { HeldBeforeReap(s, a); }
  }

  lemma HeldBeforeReap(s: Sys, a: Action)
    requires SysInv(s) && Enabled(s, a) && (a.SendFail? || a.ProbeFail?) && !s.reaped && Clear(s)
    ensures var k := if a.SendFail? then s.sender.out.seqNo else s.probe.out.seqNo; IsIn(s.hist, k, Waiting)
  {
    hide ItemsInv, NumbersInv, NetInv, ReadersInv, SentCounts, ReceivedCounts, QuietInv, Clear, SentInv, Inv, LineInv,
      IsAnswer, CutFrom;
    var k := if a.SendFail? then s.sender.out.seqNo else s.probe.out.seqNo;
    HeldIsWaiting(s.hist, k);
    if a.SendFail? { assert Line(s)[0] == s.sender.out; }
  }

  lemma SenderMoves(s: Sys, a: Action)
    requires Enabled(s, a)
    ensures s.stopped ==> Next(s, a).stopped
    ensures Next(s, a).sender.TDone? ==> s.sender.TDone? || Next(s, a).stopped
  {
    hide IsAnswer, CutFrom, SchedulerNext, ProbeNext, ReaderNext, DoReap, DoUnsend, DoMark;
  }

  /** In every reachable state the sender has ended only if the stop flag is set: a failed write sets it. */
  lemma {:induction false} SenderEndsStopped(u: Setup, acts: seq<Action>)
    requires Run(u, acts).Some? && Run(u, acts).value.sender.TDone?
    ensures Run(u, acts).value.stopped
    decreases |acts|
  {
    hide Run, Enabled, Next, Start;
    if acts == [] {
      RunNone(u);
      StartSends(u);
    } else {
      var init, a := acts[..|acts| - 1], acts[|acts| - 1];
      assert acts == init + [a];
      RunBefore(u, init, a);
      SenderMoves(Run(u, init).value, a);
      if Run(u, init).value.sender.TDone? { SenderEndsStopped(u, init); }
    }
  }

  lemma StartSends(u: Setup)
    ensures Start(u).sender == TIdle
  {
  }
}
