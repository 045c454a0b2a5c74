/** What every run of the client, the network and the server keeps, whatever the interleaving. */
module ClientRuns {
  import opened Wrappers
  import opened Protocol
  import opened OrderedDict
  import opened Book
  import opened BookHistory
  import opened ClientMachine
  import opened ClientSteps
  import opened ClientPlaces
  import opened ClientCounts

  /** The state after a sequence of steps, if each was possible when it came. */
  ghost function Run(u: Setup, acts: seq<Action>): Option<Sys>
    decreases |acts|
  {
    if acts == [] then Some(Start(u))
    else
      match Run(u, acts[..|acts| - 1])
      case None => None
      case Some(s) => if Enabled(s, acts[|acts| - 1]) then Some(Next(s, acts[|acts| - 1])) else None
  }

  lemma {:induction false} RunKeeps(u: Setup, acts: seq<Action>)
    requires Run(u, acts).Some?
    ensures SysInv(Run(u, acts).value)
    ensures Run(u, acts).value.telemetry == u.telemetry && Run(u, acts).value.sizes == u.sizes
    decreases |acts|
  {
    hide SysInv, Next, Enabled, Start;
    if acts == [] {
      StartInv(u);
      StartFixed(u);
    } else {
      var init, a := acts[..|acts| - 1], acts[|acts| - 1];
      RunKeeps(u, init);
      StepKept(Run(u, init).value, a);
      FixedParts(Run(u, init).value, a);
    }
  }

  lemma StartFixed(u: Setup)
    ensures Start(u).telemetry == u.telemetry && Start(u).sizes == u.sizes
  {
  }

  lemma RunNext(u: Setup, acts: seq<Action>, a: Action)
    requires Run(u, acts).Some? && Enabled(Run(u, acts).value, a)
    ensures Run(u, acts + [a]) == Some(Next(Run(u, acts).value, a))
  {
    hide Enabled, Next;
    assert (acts + [a])[..|acts|] == acts;
  }

  lemma RunBefore(u: Setup, acts: seq<Action>, a: Action)
    requires Run(u, acts + [a]).Some?
    ensures Run(u, acts).Some? && Enabled(Run(u, acts).value, a)
    ensures Run(u, acts + [a]) == Some(Next(Run(u, acts).value, a))
  {
    hide Enabled, Next;
    assert (acts + [a])[..|acts|] == acts;
  }

  // ----- where every ECHO is -----

  ghost function EchoesAt(h: History, p: Place): set<nat>
  {
    set k | k in h.place && h.place[k] == p && k in h.items && h.items[k].mtype == ECHO
  }

  function OpenEchoes(b: BookState): set<nat>
  {
    set k | k in b.open.vals && b.open.vals[k].mtype == ECHO
  }

  /** Open ECHOs the book knows to be sent. */
  function SentEchoes(b: BookState): set<nat>
  {
    set k | k in b.open.vals && b.open.vals[k].mtype == ECHO && b.open.vals[k].sendMono.Some?
  }

  /** Open ECHOs that were written and that the book still takes for unsent. */
  ghost function Untold(s: Sys): set<nat>
  {
    set k | k in OpenEchoes(s.hist.book) && s.hist.book.open.vals[k].sendMono.None? && k in s.wired
  }

  /** ECHOs that were written and that the book counted as unsent. */
  ghost function Misfiled(s: Sys): set<nat>
  {
    set k | k in EchoesAt(s.hist, Dropped) && k in s.wired
  }

  /**
   Items accepted and, so far, never written: something cut from a PDU beyond the limit was taken for their
   answer.
   */
  ghost function Phantoms(s: Sys, mtype: nat): set<nat>
  {
    AcceptedOf(s.hist, mtype) - s.wired
  }

  lemma OpenEchoesWait(s: Sys)
    requires Inv(s.hist)
    ensures OpenEchoes(s.hist.book) == EchoesAt(s.hist, Waiting)
  {
    forall k | k in s.hist.place ensures s.hist.place[k] == Waiting <==> k in s.hist.book.open.vals {
      WaitingIsOpen(s.hist, k);
    }
    assert SameItems(s.hist);
  }

  /** `lost` counts the ECHOs that timed out and were not answered since, and nothing else. */
  lemma LostEchoes(s: Sys)
    requires Inv(s.hist) && ItemsInv(s)
    ensures LostTracked(s.hist) == EchoesAt(s.hist, Lost) + EchoesAt(s.hist, Forgotten)
    ensures s.hist.book.lost == |EchoesAt(s.hist, Lost)| + |EchoesAt(s.hist, Forgotten)|
  {
    hide DecodePdu;
    forall k | k in s.hist.items ensures s.hist.items[k].trackLoss <==> s.hist.items[k].mtype == ECHO {
      assert GoodItem(s.sizes, s.hist.items[k]);
    }
    assert EchoesAt(s.hist, Lost) !! EchoesAt(s.hist, Forgotten);
  }

  lemma AnsweredEchoes(h: History)
    requires Inv(h)
    ensures AcceptedOf(h, ECHO) == EchoesAt(h, Answered)
  {
    assert forall k :: k in h.accepted <==> k in BookHistory.At(h, Answered);
  }

  /** Every ECHO enlisted is in exactly one place. */
  lemma OnePlaceEach(h: History)
    requires Inv(h)
    ensures OfType(h.items, ECHO) ==
      EchoesAt(h, Answered) + EchoesAt(h, Lost) + EchoesAt(h, Forgotten) + EchoesAt(h, Dropped) + EchoesAt(h, Waiting)
    ensures EchoesAt(h, Answered) !! EchoesAt(h, Lost) !! EchoesAt(h, Forgotten)
      !! EchoesAt(h, Dropped) !! EchoesAt(h, Waiting)
  {
    PlaceKeys(h);
  }

  lemma EchoCount(h: History)
    requires Inv(h)
    ensures |OfType(h.items, ECHO)| ==
              |EchoesAt(h, Answered)| + |EchoesAt(h, Lost)| + |EchoesAt(h, Forgotten)|
              + |EchoesAt(h, Dropped)| + |EchoesAt(h, Waiting)|
  {
    hide Inv, OfType, EchoesAt;
    OnePlaceEach(h);
  }

  // ----- conservation -----

  /**
   Conservation, in every reachable state: each ECHO offered has been received, is lost, is unsent, is
   open, or is in a thread's hands; `unsent` is the unsent ECHOs and the unsent STATUS probes.
   */
  lemma Conservation(u: Setup, acts: seq<Action>)
    requires Run(u, acts).Some?
    ensures var s := Run(u, acts).value;
            && s.offered == s.received + InHand(s.readers, HoldsEcho) + s.hist.book.lost + |EchoesAt(s.hist, Dropped)|
                            + |OpenEchoes(s.hist.book)| + OfferInHand(s)
            && s.hist.book.unsent ==
                 |EchoesAt(s.hist, Dropped)| + |BookHistory.At(s.hist, Dropped) - EchoesAt(s.hist, Dropped)|
  {
    hide Run, Inv, ItemsInv, EchoesAt, OpenEchoes, OfType, InHand;
    RunKeeps(u, acts);
    var s := Run(u, acts).value;
    EchoCount(s.hist);
    OpenEchoesWait(s);
    LostEchoes(s);
    AnsweredEchoes(s.hist);
    DroppedEchoes(s.hist);
  }

  lemma DroppedEchoes(h: History)
    requires Inv(h)
    ensures EchoesAt(h, Dropped) <= BookHistory.At(h, Dropped) && h.book.unsent == |BookHistory.At(h, Dropped)|
  {
  }

  /** What was written, by place: the answered but for phantoms, all the lost, some of the open, and the misfiled. */
  lemma WiredPlaces(s: Sys)
    requires Inv(s.hist) && SentInv(s)
    ensures s.wired * OfType(s.hist.items, ECHO) ==
              (EchoesAt(s.hist, Answered) - Phantoms(s, ECHO)) + EchoesAt(s.hist, Lost) + EchoesAt(s.hist, Forgotten)
              + Misfiled(s) + (SentEchoes(s.hist.book) + Untold(s))
  {
    hide Inv, Clear, SentInv;
    PlaceKeys(s.hist);
    AnsweredEchoes(s.hist);
    forall k | k in s.hist.place
      ensures SentAgrees(s, k) && (s.hist.place[k] == Waiting <==> k in s.hist.book.open.vals)
    {
      EachAgrees(s, k);
      WaitingIsOpen(s.hist, k);
    }
    forall k | k in s.hist.book.open.vals ensures IsOf(s.hist, k, s.hist.book.open.vals[k].mtype) && k in s.hist.place {
      OpenIsItem(s.hist, k);
    }
  }

  lemma EachAgrees(s: Sys, k: nat)
    requires SentInv(s) && k in s.hist.place
    ensures SentAgrees(s, k)
  {
  }

  lemma WiredCount(s: Sys)
    requires Inv(s.hist) && SentInv(s)
    ensures |s.wired * OfType(s.hist.items, ECHO)| + |Phantoms(s, ECHO)| ==
              |EchoesAt(s.hist, Answered)| + |EchoesAt(s.hist, Lost)| + |EchoesAt(s.hist, Forgotten)| + |Misfiled(s)|
              + |SentEchoes(s.hist.book)| + |Untold(s)|
  {
    hide Inv, OfType, EchoesAt, SentInv, SentAgrees;
    WiredPlaces(s);
    OnePlaceEach(s.hist);
    OpenEchoesWait(s);
    AnsweredEchoes(s.hist);
    Parted(EchoesAt(s.hist, Answered), Phantoms(s, ECHO));
    assert SentEchoes(s.hist.book) !! Untold(s);
    assert SentEchoes(s.hist.book) <= OpenEchoes(s.hist.book) && Untold(s) <= OpenEchoes(s.hist.book);
  }

  lemma Parted(whole: set<nat>, part: set<nat>)
    requires part <= whole
    ensures |whole| == |whole - part| + |part|
  {
    assert whole == (whole - part) + part;
  }

  /** The sender has written an ECHO, nobody has answered it, and the book does not know. */
  predicate Caught(s: Sys)
  {
    s.sender.Written? && HeldUnsent(s.hist.book, s.sender.out.seqNo)
  }

  /** At most one ECHO is written and unknown to the book as sent: the one the sender holds. */
  lemma UntoldIsTheSenders(s: Sys)
    requires SysInv(s)
    ensures Untold(s) == if Caught(s) then {s.sender.out.seqNo} else {}
  {
    hide DecodePdu, GoodItem, Inv, SentCounts, ReceivedCounts, QuietInv, ReadersInv, NetInv, NumbersInv, HeldInv,
      Line, Clear;
    forall k | k in s.hist.book.open.vals ensures IsOf(s.hist, k, s.hist.book.open.vals[k].mtype) {
      OpenIsItem(s.hist, k);
    }
    forall k | k in s.hist.book.open.vals ensures k in s.hist.place && s.hist.place[k] == Waiting {
      OpenHasPlace(s.hist, k);
    }
    forall k | k in Untold(s) ensures s.sender.Written? && k == s.sender.out.seqNo {
      assert SentAgrees(s, k);
    }
  }

  lemma OpenIsItem(h: History, k: nat)
    requires Inv(h) && k in h.book.open.vals
    ensures IsOf(h, k, h.book.open.vals[k].mtype) && k in h.place && h.place[k] == Waiting
  {
    assert SameItems(h);
    OpenHasPlace(h, k);
  }

  /**
   Conservation on the wire, in every reachable state: each ECHO written has been received, is lost, is
   open, or was filed as unsent. The correction terms are the readers' and the sender's hands, and the
   phantoms, of which there are none while no PDU beyond the limit has been written.
   */
  lemma WireConservation(u: Setup, acts: seq<Action>)
    requires Run(u, acts).Some?
    ensures var s := Run(u, acts).value;
            && s.wireSent + SendInHand(s) + |Phantoms(s, ECHO)| ==
                 s.received + InHand(s.readers, HoldsEcho) + s.hist.book.lost
                 + |SentEchoes(s.hist.book)| + |Untold(s)| + |Misfiled(s)|
            && Untold(s) == (if Caught(s) then {s.sender.out.seqNo} else {})
            && (Clear(s) ==> Phantoms(s, ECHO) == {})
            && (!s.reaped ==> Misfiled(s) == {})
            && s.wireSent + SendInHand(s) <= s.offered
  {
    hide Run, Inv, ItemsInv, EchoesAt, OfType, InHand, SentEchoes, Untold, Misfiled, Phantoms, SentInv, HeldUnsent,
      LineInv, NetInv, HeldInv, ReadersInv, NumbersInv, QuietInv, Caught, Clear;
    RunKeeps(u, acts);
    var s := Run(u, acts).value;
    WiredCount(s);
    UntoldIsTheSenders(s);
    LostEchoes(s);
    AnsweredEchoes(s.hist);
    NoneMisfiled(s);
    NoPhantoms(s, ECHO);
    SubsetCount(s.wired * OfType(s.hist.items, ECHO), OfType(s.hist.items, ECHO));
  }

  lemma {:induction false} SubsetCount(a: set<nat>, b: set<nat>)
    requires a <= b
    ensures |a| <= |b|
  {
    assert b == a + (b - a);
  }

  lemma NoneMisfiled(s: Sys)
    requires SysInv(s)
    ensures !s.reaped ==> Misfiled(s) == {}
  {
    hide Inv, ItemsInv, NumbersInv, LineInv, NetInv, HeldInv, SentInv, ReadersInv, SentCounts, ReceivedCounts, QuietInv;
    if !s.reaped {
      forall k ensures k !in Misfiled(s) {
        if k in s.hist.place { EachAgrees(s, k); }
      }
    }
  }

  /** While nothing beyond the limit has been written, what was accepted was written first. */
  lemma NoPhantoms(s: Sys, mtype: nat)
    requires Inv(s.hist) && SentInv(s)
    ensures Clear(s) ==> Phantoms(s, mtype) == {}
  {
    hide Inv, Clear, SentInv;
    if Clear(s) {
      forall k | k in AcceptedOf(s.hist, mtype) ensures k in s.wired {
        AcceptedIsAnswered(s.hist, k);
        EachAgrees(s, k);
      }
    }
  }

  lemma AcceptedIsAnswered(h: History, k: nat)
    requires Inv(h) && k in h.accepted
    ensures k in h.place && h.place[k] == Answered
  {
    assert k in BookHistory.At(h, Answered);
  }

  lemma AcceptedSplit(s: Sys, mtype: nat)
    ensures |AcceptedOf(s.hist, mtype)| <= |s.wired * OfType(s.hist.items, mtype)| + |Phantoms(s, mtype)|
  {
    var accepted, phantoms := AcceptedOf(s.hist, mtype), Phantoms(s, mtype);
    Parted(accepted, phantoms);
    assert accepted - phantoms <= s.wired * OfType(s.hist.items, mtype);
    SubsetCount(accepted - phantoms, s.wired * OfType(s.hist.items, mtype));
  }

  /** Every accepted number is an ECHO's or a probe's. */
  lemma AcceptedByType(s: Sys)
    requires Inv(s.hist) && ItemsInv(s)
    ensures |s.hist.accepted| == |AcceptedOf(s.hist, ECHO)| + |AcceptedOf(s.hist, STATUS)|
  {
    hide DecodePdu;
    forall k | k in s.hist.accepted ensures k in s.hist.items && (IsOf(s.hist, k, ECHO) || IsOf(s.hist, k, STATUS)) {
      AcceptedHasItem(s.hist, k);
      assert GoodItem(s.sizes, s.hist.items[k]);
    }
    var all := set k | k in s.hist.accepted;
    KeyCount(s.hist.accepted, all);
    assert all == AcceptedOf(s.hist, ECHO) + AcceptedOf(s.hist, STATUS);
    assert AcceptedOf(s.hist, ECHO) !! AcceptedOf(s.hist, STATUS);
  }

  /**
   No more probes are answered than were sent, no more ECHOs received than written, and no more responses
   are late than were received, in every reachable state, again up to what threads hold and to phantoms.
   */
  lemma ResponsesBounded(u: Setup, acts: seq<Action>)
    requires Run(u, acts).Some?
    ensures var s := Run(u, acts).value;
            var echoes := s.received + InHand(s.readers, HoldsEcho);
            var probes := s.statusReceived + InHand(s.readers, HoldsStatus);
            && probes <= s.statusSent + ProbeInHand(s) + |Phantoms(s, STATUS)|
            && echoes <= s.wireSent + SendInHand(s) + |Phantoms(s, ECHO)|
            && (Clear(s) ==> Phantoms(s, STATUS) == {} && Phantoms(s, ECHO) == {})
            && s.late + InHand(s.readers, HoldsLate) == s.hist.lates <= echoes + probes
  {
    hide Run, ItemsInv, OfType, AcceptedOf, Phantoms, InHand, HoldsEcho, HoldsStatus, HoldsLate, SentInv, LineInv,
      NetInv, HeldInv, ReadersInv, NumbersInv, QuietInv, SendInHand, ProbeInHand, SameItems, Places, Counters, Clear;
    RunKeeps(u, acts);
    var s := Run(u, acts).value;
    AcceptedSplit(s, ECHO);
    AcceptedSplit(s, STATUS);
    NoPhantoms(s, ECHO);
    NoPhantoms(s, STATUS);
    AcceptedByType(s);
  }
}
