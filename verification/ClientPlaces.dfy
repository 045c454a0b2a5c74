/** Every step of the client machine keeps what was written in agreement with what the book says. */
module ClientPlaces {
  import opened Wrappers
  import opened Protocol
  import opened Streams
  import opened Answers
  import opened Book
  import opened BookHistory
  import opened BookReap
  import opened ClientMachine
  import opened ClientSteps

  // ----- one item, one operation of the book -----

  /**
   How an operation changes the place of one item already in the book's history, and whether the item is
   open and marked sent.
   */
  ghost predicate PlaceStep(h: History, op: Op, k: nat)
    requires k in h.place
  {
    var h' := Step(h, op);
    && k in h'.place
    && match op
       case Add(_) => Unmoved(h, h', k)
       case Mark(n, _) =>
         && h'.place[k] == h.place[k]
         && SentInBook(h'.book, k) == (SentInBook(h.book, k) || (k == n && h.place[k] == Waiting))
       case Unsend(n) => if k == n && HeldUnsent(h.book, k) then h'.place[k] == Dropped else Unmoved(h, h', k)
       case TakeOp(n) =>
         || Unmoved(h, h', k)
         || (k == n && (h.place[k] == Waiting || h.place[k] == Lost) && h'.place[k] == Answered)
       case ReapOp(_, force) =>
         && PlaceMove(h.book, k, h.place[k], h'.place[k], force)
         && (h'.place[k] == Waiting ==> SentInBook(h'.book, k) == SentInBook(h.book, k))
  }

  predicate Unmoved(h: History, h': History, k: nat)
    requires k in h.place && k in h'.place
  {
    h'.place[k] == h.place[k] && SentInBook(h'.book, k) == SentInBook(h.book, k)
  }

  lemma WaitingIsOpen(h: History, k: nat)
    requires Inv(h) && k in h.place
    ensures h.place[k] == Waiting <==> k in h.book.open.vals
  {
    hide SameItems, Counters, Memory;
    assert k in At(h, Waiting) <==> k in h.book.open.vals;
  }

  lemma LostIsListed(h: History, k: nat)
    requires Inv(h) && k in h.place
    ensures h.place[k] == Lost <==> k in h.book.lostSeqs.vals
  {
    hide SameItems, Counters, Memory;
    assert k in At(h, Lost) <==> k in h.book.lostSeqs.vals;
  }

  lemma ReapPlace(h: History, now: int, force: bool, k: nat)
    requires Inv(h) && k in h.place
    ensures PlaceStep(h, ReapOp(now, force), k)
  {
    hide Inv, DoReap;
    ReapPlaces(h, now, force);
    ReapKeepsTimeout(h, now, force);
    WaitingIsOpen(h, k);
    WaitingIsOpen(DoReap(h, now, force), k);
  }

  /** What take does to the open items: at most the one answered leaves. */
  lemma TakeOpen(b: BookState, n: nat)
    ensures var (verdict, b') := Take(b, n);
            b'.open.vals == if verdict.Ok? then b.open.vals - {n} else b.open.vals
  {
  }

  lemma TakePlace(h: History, n: nat, k: nat)
    requires Inv(h) && k in h.place
    ensures PlaceStep(h, TakeOp(n), k)
  {
    hide Inv, Take, PlaceMove;
    WaitingIsOpen(h, k);
    LostIsListed(h, k);
    TakeOpen(h.book, n);
    TakeFrom(h.book, n);
  }

  lemma TakeFrom(b: BookState, n: nat)
    ensures var verdict := Take(b, n).0;
            (verdict.Ok? ==> n in b.open.vals) && (verdict.Late? ==> n in b.lostSeqs.vals)
  {
  }

  lemma PlaceKeys(h: History)
    requires Inv(h)
    ensures h.items.Keys == h.place.Keys
  {
  }

  lemma PlaceSteps(h: History, op: Op, k: nat)
    requires Inv(h) && Allowed(h, op) && k in h.place
    ensures PlaceStep(h, op, k)
  {
    hide Inv, DoReap, DoTake, Take, PlaceMove;
    WaitingIsOpen(h, k);
    PlaceKeys(h);
    match op
    case TakeOp(n) => TakePlace(h, n, k);
    case ReapOp(now, force) => ReapPlace(h, now, force, k);
    case _ =>
  }

  lemma OpenHasPlace(h: History, k: nat)
    requires Inv(h) && k in h.book.open.vals
    ensures k in h.place && h.place[k] == Waiting
  {
    assert k in At(h, Waiting);
  }

  lemma HeldIsWaiting(h: History, k: nat)
    requires Inv(h)
    ensures HeldUnsent(h.book, k) <==> k in h.place && h.place[k] == Waiting && !SentInBook(h.book, k)
  {
    hide Inv;
    if k in h.place { WaitingIsOpen(h, k); }
    if k in h.book.open.vals { OpenHasPlace(h, k); }
  }

  // ----- what was written against the book -----

  /** How a step changes what the agreement speaks of, beside the book. */
  lemma SocketMoves(s: Sys, a: Action)
    requires Enabled(s, a) && !Sends(a)
    ensures forall k :: AtSocket(Next(s, a), k) ==> AtSocket(s, k)
    ensures forall k :: AtSocket(s, k) ==>
      AtSocket(Next(s, a), k) || (a.TellBook? && k == s.sender.out.seqNo) || (a.ProbeMark? && k == s.probe.seqNo)
  {
    hide IsAnswer, CutFrom, SchedulerNext, ReaderNext, OthersNext, DoAdd, DoUnsend, DoMark, StatusItem;
  }

  /** A request is written: unless the forced reap came first, its item has not been dropped. */
  lemma SentWritten(s: Sys, a: Action, k: nat)
    requires Enabled(s, a) && Inv(s.hist) && LineInv(s) && HeldInv(s) && k in s.hist.place && SentAgrees(s, k)
    requires Sends(a)
    ensures k in Next(s, a).hist.place && SentAgrees(Next(s, a), k)
  {
    hide Inv, IsAnswer, CutFrom, SchedulerNext, ReaderNext, OthersNext, DoAdd, DoUnsend, DoMark, StatusItem, IsItem,
      Clear, Distinct;
    HeldIsWaiting(s.hist, k);
    if Clear(Next(s, a)) { ClearBefore(s, a); }
    SendsNew(s, a);
  }

  /** Any other step that leaves this item where it is. */
  lemma SentUnmoved(s: Sys, a: Action, k: nat)
    requires Enabled(s, a) && !Sends(a) && !a.TellBook? && !a.ProbeMark? && k in s.hist.place && SentAgrees(s, k)
    requires k in Next(s, a).hist.place && Unmoved(s.hist, Next(s, a).hist, k)
    ensures SentAgrees(Next(s, a), k)
  {
    hide Enabled, Next, Clear, AtSocket, SentInBook;
    if Clear(Next(s, a)) { ClearBefore(s, a); }
    FixedParts(s, a);
    NetMoves(s, a);
    SocketMoves(s, a);
  }

  lemma SentTold(s: Sys, a: Action, k: nat)
    requires Enabled(s, a) && k in s.hist.place && SentAgrees(s, k) && LineInv(s) && (a.TellBook? || a.ProbeMark?)
    requires var op := Mark(if a.TellBook? then s.sender.out.seqNo else s.probe.seqNo, a.now);
             BookOp(s, a) == Some(op) && PlaceStep(s.hist, op, k)
    ensures k in Next(s, a).hist.place && SentAgrees(Next(s, a), k)
  {
    hide Next, Line, Clear, DoMark, SentInBook, IsAnswer, CutFrom, Distinct;
    if Clear(Next(s, a)) { ClearBefore(s, a); }
    HistMoves(s, a);
    FixedParts(s, a);
    NetMoves(s, a);
    SocketMoves(s, a);
  }

  lemma SentFailed(s: Sys, a: Action, k: nat)
    requires Enabled(s, a) && k in s.hist.place && SentAgrees(s, k) && LineInv(s) && (a.SendFail? || a.ProbeFail?)
    requires BookOp(s, a).Some? && PlaceStep(s.hist, BookOp(s, a).value, k)
    ensures k in Next(s, a).hist.place && SentAgrees(Next(s, a), k)
  {
    hide Next, Clear, DoUnsend, IsAnswer, CutFrom, AtSocket, SentInBook, IsItem, Distinct;
    HistMoves(s, a);
    NetMoves(s, a);
    if Unmoved(s.hist, Next(s, a).hist, k) {
      SentUnmoved(s, a, k);
    } else if a.SendFail? {
      assert Line(s)[0] == s.sender.out;
    }
  }

  lemma SentReaped(s: Sys, a: Action, k: nat)
    requires Enabled(s, a) && k in s.hist.place && SentAgrees(s, k) && Inv(s.hist) && (a.ReapNow? || a.FinalReap?)
    requires BookOp(s, a).Some? && PlaceStep(s.hist, BookOp(s, a).value, k)
    ensures k in Next(s, a).hist.place && SentAgrees(Next(s, a), k)
  {
    hide Inv, Next, Clear, DoReap, AtSocket;
    if Clear(Next(s, a)) { ClearBefore(s, a); }
    WaitingIsOpen(s.hist, k);
    HistMoves(s, a);
    FixedParts(s, a);
    NetMoves(s, a);
    SocketMoves(s, a);
  }

  lemma SentTaken(s: Sys, a: Action, k: nat)
    requires Enabled(s, a) && k in s.hist.place && SentAgrees(s, k) && Inv(s.hist) && ItemsInv(s) && NetInv(s)
    requires a.Deliver? && BookOp(s, a).Some? && PlaceStep(s.hist, BookOp(s, a).value, k)
    ensures k in Next(s, a).hist.place && SentAgrees(Next(s, a), k)
  {
    hide Inv, Next, Clear, DoTake, Take, DecodePdu, IsAnswer, CutFrom, ItemsInv, NetInv, AtSocket, SentInBook;
    HistMoves(s, a);
    NetMoves(s, a);
    if Unmoved(s.hist, Next(s, a).hist, k) {
      SentUnmoved(s, a, k);
    } else if Clear(Next(s, a)) {
      ClearBefore(s, a);
      ResponseNumber(s, a.raw);
    }
  }

  lemma SentStep(s: Sys, a: Action, k: nat)
    requires Enabled(s, a) && Inv(s.hist) && NumbersInv(s) && ItemsInv(s) && LineInv(s) && NetInv(s) && HeldInv(s)
    requires k in s.hist.place && SentAgrees(s, k)
    ensures k in Next(s, a).hist.place && SentAgrees(Next(s, a), k)
  {
    hide Inv, DecodePdu, IsAnswer, CutFrom, Next, EchoItem, StatusItem, PlaceStep, NumbersInv, ItemsInv, LineInv,
      NetInv, HeldInv, SentAgrees, Step;
    if Sends(a) {
      SentWritten(s, a, k);
    } else if BookOp(s, a).None? {
      HistMoves(s, a);
      SentUnmoved(s, a, k);
    } else {
      OpAllowed(s, a);
      PlaceSteps(s.hist, BookOp(s, a).value, k);
      match a
      case TellBook(_) => SentTold(s, a, k);
      case ProbeMark(_) => SentTold(s, a, k);
      case SendFail => SentFailed(s, a, k);
      case ProbeFail => SentFailed(s, a, k);
      case ReapNow(_) => SentReaped(s, a, k);
      case FinalReap(_) => SentReaped(s, a, k);
      case Deliver(_, _) => SentTaken(s, a, k);
      case Enlist(_, _) => SentBeside(s, a, k);
      case ProbeEnlist(_) => SentBeside(s, a, k);
    }
  }

  lemma SentBeside(s: Sys, a: Action, k: nat)
    requires Enabled(s, a) && k in s.hist.place && SentAgrees(s, k) && Enlists(a)
    requires BookOp(s, a).Some? && PlaceStep(s.hist, BookOp(s, a).value, k)
    ensures k in Next(s, a).hist.place && SentAgrees(Next(s, a), k)
  {
    hide Next, SentAgrees, EchoItem, StatusItem, DoAdd, IsAnswer, CutFrom, Unmoved;
    HistMoves(s, a);
    SentUnmoved(s, a, k);
  }

  lemma NewIsHeld(s: Sys, a: Action)
    requires Enabled(s, a) && Enlists(a)
    ensures HeldUnsent(Next(s, a).hist.book, NewItem(s, a).seqNo)
    ensures NewItem(s, a).seqNo in Next(s, a).hist.place && Next(s, a).hist.place[NewItem(s, a).seqNo] == Waiting
  {
    hide Next, EncodeEchoRequest, EncodeStatusRequest, IsAnswer, CutFrom;
    HistMoves(s, a);
  }

  /** The only new place is that of an item just added: open and unsent, and its number was never written. */
  lemma NewPlace(s: Sys, a: Action, k: nat)
    requires Enabled(s, a) && Inv(s.hist) && NumbersInv(s) && NetInv(s)
    requires k in Next(s, a).hist.place && k !in s.hist.place
    ensures SentAgrees(Next(s, a), k)
  {
    hide Inv, Enabled, Next, NewItem, NetInv, NumbersInv, AtSocket, Clear;
    HistKept(s, a);
    ItemsMove(s, a);
    PlaceKeys(s.hist);
    PlaceKeys(Next(s, a).hist);
    NewIsHeld(s, a);
    NewNumber(s, a);
    NetMoves(s, a);
  }

  lemma SentKept(s: Sys, a: Action)
    requires Enabled(s, a) && Inv(s.hist) && NumbersInv(s) && ItemsInv(s) && LineInv(s) && NetInv(s)
      && HeldInv(s) && SentInv(s)
    ensures SentInv(Next(s, a))
  {
    hide Inv, Next, Enabled, NumbersInv, ItemsInv, LineInv, NetInv, HeldInv, SentAgrees;
    var s' := Next(s, a);
    forall k | k in s'.hist.place ensures SentAgrees(s', k) {
      if k in s.hist.place {
        SentStep(s, a, k);
      } else {
        NewPlace(s, a, k);
      }
    }
  }

  // ----- requests on their way -----

  /** The steps after which an item on its way need not be in the book: a failed write of it, and the forced reap. */
  ghost predicate GivesUp(s: Sys, a: Action, k: nat)
    requires Enabled(s, a)
  {
    a.FinalReap? || (a.SendFail? && s.sender.out.seqNo == k) || (a.ProbeFail? && s.probe.out.seqNo == k)
  }

  lemma WayAnswered(s: Sys, a: Action, k: nat)
    requires Enabled(s, a) && Inv(s.hist) && NumbersInv(s) && !Clear(s) && k in s.hist.place
      && s.hist.place[k] == Answered
    ensures OnItsWay(Next(s, a), k)
  {
    hide Inv, Next, Step, Clear, DecodePdu, IsAnswer, CutFrom, EchoItem, StatusItem, NumbersInv;
    HistMoves(s, a);
    if Clear(Next(s, a)) { ClearBefore(s, a); }
    if BookOp(s, a).Some? {
      OpAllowed(s, a);
      PlaceSteps(s.hist, BookOp(s, a).value, k);
      WaitingIsOpen(s.hist, k);
    }
  }

  lemma WayHeld(s: Sys, a: Action, k: nat)
    requires Enabled(s, a) && Inv(s.hist) && NumbersInv(s) && ItemsInv(s) && LineInv(s) && NetInv(s)
    requires HeldUnsent(s.hist.book, k) && k !in s.wired && !GivesUp(s, a, k)
    ensures OnItsWay(Next(s, a), k)
  {
    hide Inv, Next, Step, Clear, DecodePdu, IsAnswer, CutFrom, EchoItem, StatusItem, ItemsInv, NetInv, NumbersInv, Line;
    HistMoves(s, a);
    HistKept(s, a);
    HeldIsWaiting(s.hist, k);
    HeldIsWaiting(Next(s, a).hist, k);
    if BookOp(s, a).Some? {
      OpAllowed(s, a);
      PlaceSteps(s.hist, BookOp(s, a).value, k);
      if a.Deliver? && Clear(Next(s, a)) {
        ClearBefore(s, a);
        ResponseNumber(s, a.raw);
      }
    }
  }

  /** Any other step leaves it there. */
  lemma WayStays(s: Sys, a: Action, k: nat)
    requires Enabled(s, a) && Inv(s.hist) && NumbersInv(s) && ItemsInv(s) && LineInv(s) && NetInv(s)
    requires OnItsWay(s, k) && k !in s.wired && !GivesUp(s, a, k)
    ensures OnItsWay(Next(s, a), k)
  {
    hide Inv, Next, Enabled, Clear, ItemsInv, LineInv, NetInv, NumbersInv, HeldUnsent, GivesUp;
    if HeldUnsent(s.hist.book, k) { WayHeld(s, a, k); } else { WayAnswered(s, a, k); }
  }

  lemma LineWay(s: Sys, a: Action)
    requires Enabled(s, a) && Inv(s.hist) && NumbersInv(s) && ItemsInv(s) && LineInv(s) && NetInv(s) && HeldInv(s)
    requires !s.reaped && !a.FinalReap?
    ensures forall i :: 0 <= i < |Line(Next(s, a))| ==> OnItsWay(Next(s, a), Line(Next(s, a))[i].seqNo)
  {
    hide Inv, IsAnswer, CutFrom, Next, Line, OnItsWay, ItemsInv, NetInv, NumbersInv, NewItem, IsItem, Distinct;
    LineMoves(s, a);
    var l, l' := Line(s), Line(Next(s, a));
    forall i | 0 <= i < |l'| ensures OnItsWay(Next(s, a), l'[i].seqNo) {
      if a.Enlist? && i == |l| {
        NewOnItsWay(s, a);
      } else {
        var j := if a.SendOk? || a.SendFail? then i + 1 else i;
        assert l'[i] == l[j];
        if a.SendFail? { FirstApart(s, j); }
        if a.ProbeFail? { ProbeApart(s, j); }
        WayStays(s, a, l[j].seqNo);
      }
    }
  }

  lemma NewOnItsWay(s: Sys, a: Action)
    requires Enabled(s, a) && Enlists(a)
    ensures a.Enlist? ==> Next(s, a).sched.Enlisted? && OnItsWay(Next(s, a), Next(s, a).sched.out.seqNo)
    ensures a.ProbeEnlist? ==> Next(s, a).probe.PEnlisted? && OnItsWay(Next(s, a), Next(s, a).probe.out.seqNo)
  {
    hide Enabled, Next, NewItem, HeldUnsent, Clear;
    AfterEnlist(s, a);
    EnlistedOut(s, a);
    NewIsHeld(s, a);
  }

  lemma FirstApart(s: Sys, j: nat)
    requires LineInv(s) && s.sender.Holding? && 0 < j < |Line(s)|
    ensures Line(s)[j].seqNo != s.sender.out.seqNo
  {
    assert Line(s)[0] == s.sender.out;
  }

  lemma ProbeWay(s: Sys, a: Action)
    requires Enabled(s, a) && Inv(s.hist) && NumbersInv(s) && ItemsInv(s) && LineInv(s) && NetInv(s) && HeldInv(s)
    requires !s.reaped && !a.FinalReap? && Next(s, a).probe.PEnlisted?
    ensures OnItsWay(Next(s, a), Next(s, a).probe.out.seqNo)
  {
    hide Inv, Next, IsAnswer, CutFrom, Line, OnItsWay, ItemsInv, NetInv, NumbersInv, NewItem, Distinct, IsItem;
    if a.ProbeEnlist? {
      NewOnItsWay(s, a);
    } else {
      ProbeStays(s, a);
      if a.SendFail? { SenderApart(s); }
      WayStays(s, a, s.probe.out.seqNo);
    }
  }

  lemma ProbeStays(s: Sys, a: Action)
    requires Enabled(s, a) && !a.ProbeEnlist? && Next(s, a).probe.PEnlisted?
    ensures s.probe == Next(s, a).probe && !OfProbe(a)
  {
    hide IsAnswer, CutFrom, SchedulerNext, SenderNext, ReaderNext, OthersNext, DoUnsend, DoMark;
  }

  lemma SenderApart(s: Sys)
    requires LineInv(s) && s.sender.Holding? && s.probe.PEnlisted?
    ensures s.sender.out.seqNo != s.probe.out.seqNo
  {
    assert Line(s)[0] == s.sender.out;
    ProbeApart(s, 0);
  }

  lemma HeldKept(s: Sys, a: Action)
    requires Enabled(s, a) && Inv(s.hist) && NumbersInv(s) && ItemsInv(s) && LineInv(s) && NetInv(s) && HeldInv(s)
    ensures HeldInv(Next(s, a))
  {
    hide Inv, Enabled, Next, Line, OnItsWay, ItemsInv, NetInv, NumbersInv, LineInv;
    FixedParts(s, a);
    if !s.reaped && !a.FinalReap? {
      LineWay(s, a);
      if Next(s, a).probe.PEnlisted? { ProbeWay(s, a); }
    }
  }
}
