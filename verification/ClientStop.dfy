/** What the forced reap at the end of stop settles, what it does not, and exactly when. */
module ClientStop {
  import opened Wrappers
  import opened Wire
  import opened Protocol
  import opened Streams
  import opened Answers
  import opened Book
  import opened BookHistory
  import opened BookReap
  import opened ClientMachine
  import opened ClientSteps
  import opened ClientPlaces
  import opened ClientRuns
  import opened ClientScripts

  // ----- an ECHO written and counted as unsent -----

  /** What a step may add to the misfiled ECHOs. */
  ghost function NewlyMisfiled(s: Sys, a: Action): set<nat>
    requires Enabled(s, a)
  {
    if a.FinalReap? then Untold(s)
    else if a.SendOk? && s.sender.out.seqNo in EchoesAt(s.hist, Dropped) then {s.sender.out.seqNo}
    else {}
  }

  /** Whether one item is misfiled, before and after a step. */
  ghost predicate MisfiledStep(s: Sys, a: Action, k: nat)
    requires Enabled(s, a)
  {
    k in Misfiled(Next(s, a)) <==> k in Misfiled(s) || k in NewlyMisfiled(s, a)
  }

  /** A step that moves no item. */
  lemma MisfiledQuiet(s: Sys, a: Action, k: nat)
    requires Enabled(s, a) && LineInv(s) && BookOp(s, a).None?
    ensures MisfiledStep(s, a, k)
  {
    hide Next, LineInv, IsAnswer, CutFrom, DecodePdu, EchoItem, StatusItem;
    HistMoves(s, a);
    NetMoves(s, a);
    if Sends(a) { SendsNew(s, a); }
  }

  /** The items a step keeps, under the same number. */
  lemma ItemStays(s: Sys, a: Action, k: nat)
    requires Enabled(s, a) && Inv(s.hist) && NumbersInv(s) && k in s.hist.items
    ensures k in Next(s, a).hist.items && Next(s, a).hist.items[k] == s.hist.items[k]
  {
    hide Inv, Next, NewItem, IsAnswer, CutFrom;
    ItemsMove(s, a);
    if Enlists(a) { NewItemIs(s, a); }
  }

  /** A step of the book other than the forced reap files no written item as unsent. */
  lemma MisfiledOther(s: Sys, a: Action, k: nat)
    requires Enabled(s, a) && Inv(s.hist) && NumbersInv(s) && LineInv(s) && k in s.hist.place
    requires BookOp(s, a).Some? && !a.FinalReap?
    ensures MisfiledStep(s, a, k)
  {
    hide Inv, Next, Step, NumbersInv, DecodePdu, IsAnswer, CutFrom, EchoItem, StatusItem, HeldUnsent, SentInBook,
      Distinct;
    PlaceKeys(s.hist);
    ItemStays(s, a, k);
    HistMoves(s, a);
    NetMoves(s, a);
    OpAllowed(s, a);
    PlaceSteps(s.hist, BookOp(s, a).value, k);
    if a.SendFail? { assert Line(s)[0] == s.sender.out; }
  }

  lemma MisfiledReaped(s: Sys, a: Action, k: nat)
    requires Enabled(s, a) && Inv(s.hist) && NumbersInv(s) && k in s.hist.place && a.FinalReap?
    ensures MisfiledStep(s, a, k)
  {
    hide Inv, Next, NumbersInv, IsAnswer, CutFrom, DoReap;
    PlaceKeys(s.hist);
    ItemStays(s, a, k);
    HistMoves(s, a);
    NetMoves(s, a);
    PlaceSteps(s.hist, BookOp(s, a).value, k);
    ForcedReapSettles(s.hist, a.now, k);
    WaitingIsOpen(s.hist, k);
    if k in s.hist.book.open.vals { OpenIsItem(s.hist, k); }
  }

  lemma MisfiledNew(s: Sys, a: Action, k: nat)
    requires Enabled(s, a) && Inv(s.hist) && NumbersInv(s) && NetInv(s) && k !in s.hist.place
    ensures MisfiledStep(s, a, k)
  {
    hide Inv, Next, Enabled, NumbersInv, KnownRequest, KnownResponse, NewItem, Sent;
    PlaceKeys(s.hist);
    HistKept(s, a);
    PlaceKeys(Next(s, a).hist);
    ItemsMove(s, a);
    if k in s.hist.book.open.vals { OpenHasPlace(s.hist, k); }
    if k in Next(s, a).hist.place {
      NewIsHeld(s, a);
    }
  }

  /**
   An ECHO that was written is counted as unsent in two cases only: the forced reap of stop finds it
   between sendall and mark_sent, or it is written after that reap has already dropped it.
   */
  lemma MisfiledExactly(s: Sys, a: Action)
    requires SysInv(s) && Enabled(s, a)
    ensures Misfiled(Next(s, a)) == Misfiled(s) + NewlyMisfiled(s, a)
  {
    hide Inv, Next, Enabled, Misfiled, NewlyMisfiled, ItemsInv, NumbersInv, LineInv, NetInv, HeldInv, SentInv,
      ReadersInv, SentCounts, ReceivedCounts, QuietInv;
    forall k ensures MisfiledStep(s, a, k) {
      if k !in s.hist.place {
        MisfiledNew(s, a, k);
      } else if BookOp(s, a).None? {
        MisfiledQuiet(s, a, k);
      } else if a.FinalReap? {
        MisfiledReaped(s, a, k);
      } else {
        MisfiledOther(s, a, k);
      }
    }
    assert forall k :: MisfiledStep(s, a, k) ==>
      (k in Misfiled(Next(s, a)) <==> k in Misfiled(s) + NewlyMisfiled(s, a));
  }

  // ----- right after the forced reap -----

  lemma ReapEmpties(h: History, now: int)
    requires Inv(h)
    ensures DoReap(h, now, true).book.open.vals == map[]
  {
    hide Inv, DoReap, ReapKeys;
    ReapExact(h, now, true);
    ReapKeepsTimeout(h, now, true);
    assert forall k :: k in h.book.open.vals ==> k in h.book.open.keys by { OpenOk(h); }
  }

  lemma OpenOk(h: History)
    requires Inv(h)
    ensures h.book.open.Ok()
  {
  }

  lemma FinalReapEmpties(s: Sys, a: Action)
    requires Enabled(s, a) && a.FinalReap? && Inv(s.hist)
    ensures Next(s, a).hist.book.open.vals == map[]
  {
    hide Next, Inv, DoReap, IsAnswer, CutFrom;
    HistMoves(s, a);
    ReapEmpties(s.hist, a.now);
  }

  /** With nothing open, every ECHO enlisted has exactly one outcome: received, lost or unsent. */
  ghost predicate Settled(s: Sys)
  {
    && s.hist.book.open.vals == map[]
    && OfType(s.hist.items, ECHO) == AcceptedOf(s.hist, ECHO) + LostTracked(s.hist) + EchoesAt(s.hist, Dropped)
    && AcceptedOf(s.hist, ECHO) !! LostTracked(s.hist) !! EchoesAt(s.hist, Dropped)
    && s.offered ==
         s.received + InHand(s.readers, HoldsEcho) + s.hist.book.lost + |EchoesAt(s.hist, Dropped)| + OfferInHand(s)
  }

  lemma ThreeOutcomes(s: Sys)
    requires Inv(s.hist) && ItemsInv(s) && s.hist.book.open.vals == map[]
    ensures OpenEchoes(s.hist.book) == {}
    ensures OfType(s.hist.items, ECHO) == AcceptedOf(s.hist, ECHO) + LostTracked(s.hist) + EchoesAt(s.hist, Dropped)
    ensures AcceptedOf(s.hist, ECHO) !! LostTracked(s.hist) !! EchoesAt(s.hist, Dropped)
  {
    hide Inv, ItemsInv, EchoesAt, OfType, LostTracked, AcceptedOf;
    OnePlaceEach(s.hist);
    OpenEchoesWait(s);
    LostEchoes(s);
    AnsweredEchoes(s.hist);
    assert OpenEchoes(s.hist.book) == {};
  }

  lemma EmptyIsSettled(u: Setup, acts: seq<Action>)
    requires Run(u, acts).Some? && Run(u, acts).value.hist.book.open.vals == map[]
    ensures Settled(Run(u, acts).value)
  {
    hide Run, Inv, ItemsInv, EchoesAt, OfType, InHand, NumbersInv, LineInv, NetInv, HeldInv, SentInv, ReadersInv,
      QuietInv, SentCounts, ReceivedCounts, LostTracked, AcceptedOf;
    RunKeeps(u, acts);
    Conservation(u, acts);
    ThreeOutcomes(Run(u, acts).value);
  }

  /** The forced reap at the end of stop settles every ECHO that is in the book. */
  lemma StopSettles(u: Setup, acts: seq<Action>, now: int)
    requires Run(u, acts).Some? && Enabled(Run(u, acts).value, FinalReap(now))
    ensures Run(u, acts + [FinalReap(now)]).Some? && Settled(Run(u, acts + [FinalReap(now)]).value)
  {
    hide Run, Settled, SysInv, Next;
    RunNext(u, acts, FinalReap(now));
    RunKeeps(u, acts);
    FinalReapEmpties(Run(u, acts).value, FinalReap(now)) by { InvOf(Run(u, acts).value); }
    EmptyIsSettled(u, acts + [FinalReap(now)]);
  }

  lemma InvOf(s: Sys)
    requires SysInv(s)
    ensures Inv(s.hist) && NumbersInv(s)
  {
  }

  /**
   When stop ends, the ECHOs written are the received and the lost ones (and the phantoms, if a PDU beyond the
   limit was written) exactly if its reap did not catch the sender with an ECHO written and not yet marked sent.
   */
  lemma WireSettles(u: Setup, acts: seq<Action>, now: int)
    requires Run(u, acts).Some? && Enabled(Run(u, acts).value, FinalReap(now)) && !Run(u, acts).value.reaped
    ensures Run(u, acts + [FinalReap(now)]).Some?
    ensures var (before, s) := (Run(u, acts).value, Run(u, acts + [FinalReap(now)]).value);
            && s.wireSent + SendInHand(s) + |Phantoms(s, ECHO)| ==
                 s.received + InHand(s.readers, HoldsEcho) + s.hist.book.lost + (if Caught(before) then 1 else 0)
            && (Clear(s) ==> Phantoms(s, ECHO) == {})
            && (Misfiled(s) == {} <==> !Caught(before))
  {
    hide Run, Next, SysInv, EchoesAt, InHand, Misfiled, Untold, SentEchoes, Caught, Phantoms, Clear, DoReap;
    RunNext(u, acts, FinalReap(now));
    RunKeeps(u, acts);
    var before := Run(u, acts).value;
    var s := Run(u, acts + [FinalReap(now)]).value;
    FinalReapEmpties(before, FinalReap(now)) by { InvOf(before); }
    NothingOpen(s);
    NoneMisfiled(before);
    UntoldIsTheSenders(before);
    MisfiledExactly(before, FinalReap(now));
    WireConservation(u, acts + [FinalReap(now)]);
  }

  lemma NothingOpen(s: Sys)
    requires s.hist.book.open.vals == map[]
    ensures SentEchoes(s.hist.book) == {} && Untold(s) == {}
  {
  }

  // ----- ever after -----

  /** An operation that adds nothing opens nothing. */
  lemma OpStaysEmpty(h: History, op: Op)
    requires Inv(h) && h.book.open.vals == map[] && !op.Add?
    ensures Step(h, op).book.open.vals == map[]
  {
    hide Inv, DoReap;
    match op
    case TakeOp(n) => TakeOpen(h.book, n);
    case ReapOp(now, force) => ReapPlaces(h, now, force);
    case _ =>
  }

  lemma StepStaysEmpty(s: Sys, a: Action)
    requires Enabled(s, a) && Inv(s.hist) && s.hist.book.open.vals == map[] && !Enlists(a)
    ensures Next(s, a).hist.book.open.vals == map[]
  {
    hide Next, Inv, Step, IsAnswer, CutFrom, DecodePdu;
    HistMoves(s, a);
    if BookOp(s, a).Some? { OpStaysEmpty(s.hist, BookOp(s, a).value); }
  }

  /** The run without its last step. */
  lemma RunInit(u: Setup, acts: seq<Action>, later: seq<Action>)
    requires later != [] && Run(u, acts + later).Some?
    ensures var init, a := later[..|later| - 1], later[|later| - 1];
            && Run(u, acts + init).Some? && Enabled(Run(u, acts + init).value, a)
            && Run(u, acts + later) == Some(Next(Run(u, acts + init).value, a))
  {
    hide Run, Enabled, Next;
    var init, a := later[..|later| - 1], later[|later| - 1];
    assert acts + later == (acts + init) + [a];
    RunBefore(u, acts + init, a);
  }

  lemma {:induction false} StaysEmpty(u: Setup, acts: seq<Action>, later: seq<Action>)
    requires Run(u, acts).Some? && Run(u, acts).value.hist.book.open.vals == map[]
    requires Run(u, acts + later).Some? && forall i :: 0 <= i < |later| ==> !Enlists(later[i])
    ensures Run(u, acts + later).value.hist.book.open.vals == map[]
    decreases |later|
  {
    hide Run, Enabled, Next, SysInv;
    if later == [] {
      assert acts + later == acts;
    } else {
      var init := later[..|later| - 1];
      RunInit(u, acts, later);
      StaysEmpty(u, acts, init);
      RunKeeps(u, acts + init);
      StepStaysEmpty(Run(u, acts + init).value, later[|later| - 1]) by { InvOf(Run(u, acts + init).value); }
    }
  }

  /** What the reap settled stays settled, in every later state, as long as nothing new enters the book. */
  lemma StaysSettled(u: Setup, acts: seq<Action>, now: int, later: seq<Action>)
    requires Run(u, acts).Some? && Enabled(Run(u, acts).value, FinalReap(now))
    requires Run(u, acts + [FinalReap(now)] + later).Some?
    requires forall i :: 0 <= i < |later| ==> !Enlists(later[i])
    ensures Settled(Run(u, acts + [FinalReap(now)] + later).value)
  {
    hide Run, Settled, Enlists, Enabled;
    StopSettles(u, acts, now);
    EmptyOf(Run(u, acts + [FinalReap(now)]).value);
    StaysEmpty(u, acts + [FinalReap(now)], later);
    EmptyIsSettled(u, acts + [FinalReap(now)] + later);
  }

  lemma EmptyOf(s: Sys)
    requires Settled(s)
    ensures s.hist.book.open.vals == map[]
  {
  }

  // ----- when something does enter the book after the reap -----

  /**
   A thread has an offer or a probe, begun or past its last test of the stop flags, that can be encoded and is yet
   to enter the book.
   */
  predicate CanEnlist(s: Sys)
  {
    || (CanOffer(s.sizes) && (s.sched.SReady? || s.sched.Offered?) && s.lastSeq + 1 < U64)
    || (CanOffer(s.sizes) && s.sched.Numbered? && s.sched.seqNo < U64)
    || (s.probe.PReady? && s.lastSeq + 1 < U64)
    || (s.probe.PNumbered? && s.probe.seqNo < U64)
  }

  predicate Stopped(s: Sys)
  {
    s.schedStop && s.stopped
  }

  lemma FlagsStay(s: Sys, a: Action)
    requires Enabled(s, a) && Stopped(s)
    ensures Stopped(Next(s, a))
  {
    hide IsAnswer, CutFrom, SchedulerNext, ProbeNext, ReaderNext, DoReap, DoUnsend, DoMark;
  }

  /** Nothing enlists, and neither the scheduler nor the probe comes to where it could. */
  lemma CannotEnlist(s: Sys, a: Action)
    requires Enabled(s, a) && Stopped(s) && !CanEnlist(s)
    ensures !Enlists(a) && !CanEnlist(Next(s, a))
  {
    hide IsAnswer, CutFrom, SenderNext, ReaderNext, OthersNext, DoAdd, DoUnsend, DoMark, EchoItem, StatusItem;
  }

  lemma {:induction false} NeverEnlists(u: Setup, acts: seq<Action>, later: seq<Action>)
    requires Run(u, acts).Some? && Stopped(Run(u, acts).value) && !CanEnlist(Run(u, acts).value)
    requires Run(u, acts + later).Some?
    ensures Stopped(Run(u, acts + later).value) && !CanEnlist(Run(u, acts + later).value)
    ensures forall i :: 0 <= i < |later| ==> !Enlists(later[i])
    decreases |later|
  {
    hide Run, Enabled, Next, CanEnlist, Enlists, Stopped;
    if later == [] {
      assert acts + later == acts;
    } else {
      var init, a := later[..|later| - 1], later[|later| - 1];
      RunInit(u, acts, later);
      NeverEnlists(u, acts, init);
      CannotEnlist(Run(u, acts + init).value, a);
      FlagsStay(Run(u, acts + init).value, a);
      assert forall i :: 0 <= i < |init| ==> init[i] == later[i];
    }
  }

  lemma EnlistOpens(u: Setup, acts: seq<Action>, a: Action)
    requires Run(u, acts).Some? && Enlists(a) && Enabled(Run(u, acts).value, a)
    ensures Run(u, acts + [a]).Some? && Run(u, acts + [a]).value.hist.book.open.vals != map[]
  {
    hide Run, Next, Enabled, NewItem;
    RunNext(u, acts, a);
    NewIsHeld(Run(u, acts).value, a);
  }

  /** One step nearer to the book. */
  function Nearer(s: Sys): Action
  {
    if CanOffer(s.sizes) && s.sched.SReady? then Offer
    else if CanOffer(s.sizes) && s.sched.Offered? then Number
    else ProbeNumber
  }

  function StepsLeft(s: Sys): nat
  {
    if CanOffer(s.sizes) && s.sched.Numbered? && s.sched.seqNo < U64 then 0
    else if s.probe.PNumbered? && s.probe.seqNo < U64 then 0
    else if CanOffer(s.sizes) && s.sched.SReady? && s.lastSeq + 1 < U64 then 2
    else 1
  }

  lemma ComesNearer(s: Sys)
    requires CanEnlist(s) && StepsLeft(s) > 0
    ensures Enabled(s, Nearer(s)) && CanEnlist(Next(s, Nearer(s))) && StepsLeft(Next(s, Nearer(s))) < StepsLeft(s)
  {
    hide IsAnswer, CutFrom;
  }

  /** The shortest continuation in which it does. */
  lemma {:induction false} CanEnlistDoes(u: Setup, acts: seq<Action>) returns (later: seq<Action>)
    requires Run(u, acts).Some? && CanEnlist(Run(u, acts).value)
    ensures Run(u, acts + later).Some? && Run(u, acts + later).value.hist.book.open.vals != map[]
    decreases StepsLeft(Run(u, acts).value)
  {
    hide Run, Next, SchedulerNext;
    var s := Run(u, acts).value;
    if StepsLeft(s) > 0 {
      var a := Nearer(s);
      ComesNearer(s);
      RunNext(u, acts, a);
      var rest := CanEnlistDoes(u, acts + [a]);
      later := [a] + rest;
      assert acts + later == acts + [a] + rest;
    } else if CanOffer(s.sizes) && s.sched.Numbered? && s.sched.seqNo < U64 {
      later := [Enlist(0, seq(s.sizes.least, i => 0))];
      EnlistOpens(u, acts, later[0]);
    } else {
      later := [ProbeEnlist(0)];
      EnlistOpens(u, acts, later[0]);
    }
  }

  lemma ReapKeepsHands(s: Sys, a: Action)
    requires Enabled(s, a) && a.FinalReap?
    ensures CanEnlist(Next(s, a)) <==> CanEnlist(s)
    ensures Stopped(s) && Stopped(Next(s, a))
  {
    hide DoReap, IsAnswer, CutFrom;
  }

  /**
   After stop's forced reap the book stays empty, whatever the threads still do, exactly if at the reap no thread
   had an offer or a probe that was yet to enter the book.
   */
  lemma StaysEmptyIff(u: Setup, acts: seq<Action>, now: int)
    requires Run(u, acts).Some? && Enabled(Run(u, acts).value, FinalReap(now))
    ensures !CanEnlist(Run(u, acts).value) <==>
      (forall later :: Run(u, acts + [FinalReap(now)] + later).Some? ==>
         Run(u, acts + [FinalReap(now)] + later).value.hist.book.open.vals == map[])
  {
    hide Run, Enabled, Next, CanEnlist, Settled, Enlists, Stopped;
    var all := acts + [FinalReap(now)];
    StopSettles(u, acts, now);
    EmptyOf(Run(u, all).value);
    RunNext(u, acts, FinalReap(now));
    ReapKeepsHands(Run(u, acts).value, FinalReap(now));
    if CanEnlist(Run(u, acts).value) {
      var later := CanEnlistDoes(u, all);
    } else {
      forall later | Run(u, all + later).Some? ensures Run(u, all + later).value.hist.book.open.vals == map[] {
        NeverEnlists(u, all, later);
        StaysEmpty(u, all, later);
      }
    }
  }

  // ----- two runs -----

  /** The first ECHO is counted, and the reap comes before it has a number: it enters the book, and stays open. */
  lemma LateOfferExample(u: Setup, clock: nat, payload: bytes)
    requires Offers(u, payload) && clock < U64
    ensures var acts := FIRST_OFFER + [SchedStop, StopAll, FinalReap(clock), Number, Enlist(clock, payload)];
            && Run(u, acts).Some?
            && var s := Run(u, acts).value;
               s.reaped && s.offered == 1 && OfferInHand(s) == 0 && OpenEchoes(s.hist.book) == {1}
  {
    hide Run, EncodeEchoRequest, IsAnswer, CutFrom, DoReap, Inv;
    var acts := FIRST_OFFER + [SchedStop, StopAll, FinalReap(clock), Number, Enlist(clock, payload)];
    LateOfferReaped(u, acts, clock);
    RunPrefix(u, acts, 6);
    RunPrefix(u, acts, 7);
    assert acts[..8] == acts;
  }

  lemma LateOfferStopped(u: Setup, acts: seq<Action>)
    requires |acts| >= 5 && acts[..3] == FIRST_OFFER && acts[3] == SchedStop && acts[4] == StopAll
    ensures Run(u, acts[..5]) ==
      Some(Start(u).(offered := 1, sched := Offered, schedStop := true, stopped := true))
  {
    hide Run, IsAnswer, CutFrom, SchedulerNext, SenderNext, ProbeNext, ReaderNext, DoReap;
    FirstOffered(u, acts);
    RunPrefix(u, acts, 3);
    RunPrefix(u, acts, 4);
  }

  lemma LateOfferReaped(u: Setup, acts: seq<Action>, now: int)
    requires |acts| >= 6 && acts[..3] == FIRST_OFFER
    requires acts[3] == SchedStop && acts[4] == StopAll && acts[5] == FinalReap(now)
    ensures Run(u, acts[..6]).Some?
    ensures var s := Run(u, acts[..6]).value;
            && s.reaped && s.offered == 1 && s.lastSeq == 0 && s.sched == Offered && s.sizes == u.sizes
            && s.hist.book.open.vals == map[]
  {
    hide Run, IsAnswer, CutFrom, DoReap, SysInv, Inv, SchedulerNext, SenderNext, ProbeNext, ReaderNext;
    LateOfferStopped(u, acts);
    var s := Run(u, acts[..5]).value;
    RunKeeps(u, acts[..5]);
    RunPrefix(u, acts, 5);
    FinalReapEmpties(s, FinalReap(now)) by { InvOf(s); }
  }

  /** The reap comes between sendall and mark_sent, and ECHO 1, though written, is counted as unsent. */
  lemma CaughtExample(u: Setup, clock: nat, payload: bytes)
    requires Offers(u, payload) && clock < U64
    ensures var acts := FirstSteps(clock, payload) + [SchedStop, StopAll, FinalReap(clock)];
            && Run(u, acts).Some?
            && Run(u, acts).value.offered == 1
            && Misfiled(Run(u, acts).value) == {1}
  {
    hide Run, EncodeEchoRequest, SysInv, Misfiled, Caught, DoReap, IsAnswer, CutFrom, SchedulerNext, SenderNext,
      ProbeNext, ReaderNext;
    var acts := FirstSteps(clock, payload) + [SchedStop, StopAll, FinalReap(clock)];
    CaughtPrefix(u, acts, clock, payload);
    CaughtMisfiles(u, acts[..10], clock);
    RunPrefix(u, acts, 10);
    assert acts[..11] == acts;
  }

  lemma CaughtPrefix(u: Setup, acts: seq<Action>, clock: nat, payload: bytes)
    requires Offers(u, payload) && clock < U64 && |acts| >= 10 && acts[..8] == FirstSteps(clock, payload)
    requires acts[8] == SchedStop && acts[9] == StopAll
    ensures Run(u, acts[..10]).Some?
    ensures var s := Run(u, acts[..10]).value;
            s.offered == 1 && !s.reaped && s.schedStop && s.stopped && Caught(s) && s.sender.out.seqNo == 1
  {
    hide Run, EncodeEchoRequest, IsAnswer, CutFrom, DoAdd, EchoItem, Start, SchedulerNext, SenderNext, ProbeNext,
      ReaderNext, HeldUnsent, FirstSteps;
    FirstWritten(u, acts, clock, payload);
    FirstIsHeld(u, clock, payload);
    NothingYet(u);
    RunPrefix(u, acts, 8);
    RunPrefix(u, acts, 9);
  }

  lemma CaughtMisfiles(u: Setup, acts: seq<Action>, now: int)
    requires Run(u, acts).Some? && !Run(u, acts).value.reaped && Caught(Run(u, acts).value)
    requires Enabled(Run(u, acts).value, FinalReap(now))
    ensures Misfiled(Next(Run(u, acts).value, FinalReap(now))) == {Run(u, acts).value.sender.out.seqNo}
  {
    hide Run, SysInv, Misfiled, Untold, Next, Enabled;
    var s := Run(u, acts).value;
    RunKeeps(u, acts);
    UntoldIsTheSenders(s);
    NoneMisfiled(s);
    MisfiledExactly(s, FinalReap(now));
  }
}
