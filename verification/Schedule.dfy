/**
 The scheduler thread (src/peer_client/schedule.py:18-38, 40-62) against the clock, the sender and the
 two stop flags. Instants are real seconds on the monotonic clock; the inter-arrival draws are any
 non-negative reals. Each test, wait and queue call is one step, and between two of them the clock may
 move on, the sender may take requests off the queue and either flag may be set.
 */
module Schedule {
  import opened Wrappers

  /**
   Head, HeadToo: the two flag tests at the head of the loop; Draw: the draw; Wait: the clock is read; Nap: the
   wait on sched_stop; Check, CheckToo: the two flag tests after it; Room: the first test of the queue; Full, Flag,
   Sleep: the size test, the flag test and the body of the inner loop; Offer: _offer_echo is entered; Put: counted,
   and not yet on the queue.
   */
  datatype Pc =
    | Head | HeadToo | Draw | Wait | Nap | Check | CheckToo | Room | Full | Flag | Sleep | Offer | Put | Halted

  /** One request offered: the instant planned for it, and when it was offered. */
  datatype Offered = Offered(planned: real, at: real)

  datatype Sched = Sched(
    maxPending: Option<nat>, start: real,
    clock: real, nextDue: real, pc: Pc,
    draws: seq<real>, offers: seq<Offered>,  // all draws and all offers so far
    txq: nat,                                // the length of the queue
    schedStop: bool, stopped: bool)

  datatype Action =
    | TestHead | TestHeadToo | DrawNext(d: real)
    | ReadClock | Napped | TestStop | TestStopToo
    | TestRoom | TestFull | TestFlag | Slept
    | Count | Enqueue
    | Tick(dt: real) | SenderTakes | SetSchedStop | SetStopped

  function Begin(maxPending: Option<nat>, start: real): Sched
  {
    Sched(maxPending, start, start, start, Head, [], [], 0, false, false)
  }

  predicate Enabled(s: Sched, a: Action)
  {
    match a
    case TestHead => s.pc == Head
    case TestHeadToo => s.pc == HeadToo
    case DrawNext(d) => s.pc == Draw && d >= 0.0
    case ReadClock => s.pc == Wait
    case Napped => s.pc == Nap
    case TestStop => s.pc == Check
    case TestStopToo => s.pc == CheckToo
    case TestRoom => s.pc == Room
    case TestFull => s.pc == Full
    case TestFlag => s.pc == Flag
    case Slept => s.pc == Sleep
    case Count => s.pc == Offer
    case Enqueue => s.pc == Put
    case Tick(dt) => dt >= 0.0
    case SenderTakes => s.txq > 0
    case SetSchedStop => true
    case SetStopped => true
  }

  predicate QueueFull(s: Sched)
  {
    s.maxPending.Some? && s.txq >= s.maxPending.value
  }

  function Next(s: Sched, a: Action): Sched
    requires Enabled(s, a)
  {
    match a
    case TestHead => s.(pc := if s.schedStop then Halted else HeadToo)
    case TestHeadToo => s.(pc := if s.stopped then Halted else Draw)
    case DrawNext(d) => s.(nextDue := s.nextDue + d, draws := s.draws + [d], pc := Wait)
    case ReadClock => s.(pc := if s.nextDue <= s.clock then Check else Nap)
    case Napped => s.(pc := if s.schedStop then Halted else Wait)
    case TestStop => s.(pc := if s.schedStop then Halted else CheckToo)
    case TestStopToo => s.(pc := if s.stopped then Halted else Room)
    case TestRoom => s.(pc := if QueueFull(s) then Full else Offer)
    case TestFull => s.(pc := if QueueFull(s) then Flag else Offer)
    case TestFlag => s.(pc := if s.schedStop then Offer else Sleep)
    case Slept => s.(pc := if s.schedStop then Halted else Full)
    case Count => s.(offers := s.offers + [Offered(s.nextDue, s.clock)], pc := Put)
    case Enqueue => s.(txq := s.txq + 1, pc := Head)
    case Tick(dt) => s.(clock := s.clock + dt)
    case SenderTakes => s.(txq := s.txq - 1)
    case SetSchedStop => s.(schedStop := true)
    case SetStopped => s.(stopped := true)
  }

  /** The state after a sequence of steps, if each was possible when it came. */
  function Run(maxPending: Option<nat>, start: real, acts: seq<Action>): Option<Sched>
    decreases |acts|
  {
    RunFrom(Begin(maxPending, start), acts)
  }

  function RunFrom(s: Sched, acts: seq<Action>): Option<Sched>
    decreases |acts|
  {
    if acts == [] then Some(s)
    else
      match RunFrom(s, acts[..|acts| - 1])
      case None => None
      case Some(t) => if Enabled(t, acts[|acts| - 1]) then Some(Next(t, acts[|acts| - 1])) else None
  }

  function Sum(draws: seq<real>): real
  {
    if draws == [] then 0.0 else Sum(draws[..|draws| - 1]) + draws[|draws| - 1]
  }

  /** The k-th instant of the schedule: the start and the first k draws. */
  function Instant(s: Sched, k: nat): real
    requires k <= |s.draws|
  {
    s.start + Sum(s.draws[..k])
  }

  // ----- the plan -----

  /** A draw is pending from the time it is drawn until its request is offered. */
  predicate DrawPending(s: Sched)
  {
    !BetweenDraws(s) && s.pc != Halted
  }

  predicate BetweenDraws(s: Sched)
  {
    s.pc == Head || s.pc == HeadToo || s.pc == Draw || s.pc == Put
  }

  ghost predicate PlanInv(s: Sched)
  {
    && s.nextDue == Instant(s, |s.draws|)
    && |s.offers| <= |s.draws| <= |s.offers| + 1
    && (DrawPending(s) ==> |s.draws| == |s.offers| + 1)
    && (BetweenDraws(s) ==> |s.draws| == |s.offers|)
    && (DrawPending(s) && s.pc != Wait && s.pc != Nap ==> s.nextDue <= s.clock)
    && (forall k :: 0 <= k < |s.offers| ==> OnPlan(s, k))
  }

  /** Offer k is the (k+1)-st instant of the schedule, offered no earlier than that. */
  predicate OnPlan(s: Sched, k: nat)
    requires k < |s.offers| <= |s.draws|
  {
    s.offers[k].planned == Instant(s, k + 1) && s.offers[k].planned <= s.offers[k].at <= s.clock
  }

  lemma PlanDrawn(s: Sched, d: real)
    requires PlanInv(s) && Enabled(s, DrawNext(d))
    ensures PlanInv(Next(s, DrawNext(d)))
  {
    var s' := Next(s, DrawNext(d));
    assert s'.draws[..|s'.draws|] == s'.draws && s.draws[..|s.draws|] == s.draws;
    assert s'.draws[..|s'.draws| - 1] == s.draws;
    forall k | 0 <= k < |s'.offers| ensures OnPlan(s', k) {
      assert OnPlan(s, k);
      assert s'.draws[..k + 1] == s.draws[..k + 1];
    }
  }

  lemma PlanKept(s: Sched, a: Action)
    requires PlanInv(s) && Enabled(s, a)
    ensures PlanInv(Next(s, a))
  {
    hide Sum;
    if a.DrawNext? {
      PlanDrawn(s, a.d);
    } else {
      var s' := Next(s, a);
      forall k | 0 <= k < |s'.offers| ensures OnPlan(s', k) {
        if k < |s.offers| { assert OnPlan(s, k); }
      }
    }
  }

  // ----- the queue -----

  /** The request about to be queued found room, or fell through after sched_stop was set. */
  predicate QueueInv(s: Sched)
  {
    s.maxPending.Some? ==>
      && (s.pc == Offer || s.pc == Put ==> s.txq < s.maxPending.value || (s.schedStop && s.txq <= s.maxPending.value))
      && (s.txq > s.maxPending.value ==>
            s.schedStop && s.txq == s.maxPending.value + 1 && (s.pc == Head || s.pc == Halted))
  }

  lemma QueueKept(s: Sched, a: Action)
    requires QueueInv(s) && Enabled(s, a)
    ensures QueueInv(Next(s, a))
  {
  }

  /** 1 where the scheduler may still make a draw although sched_stop is set. */
  function MayStillDraw(pc: Pc): nat
  {
    if pc == HeadToo || pc == Draw then 1 else 0
  }

  /** 1 where the scheduler may still offer a request although sched_stop is set. */
  function MayStillOffer(pc: Pc): nat
  {
    if pc == CheckToo || pc == Room || pc == Full || pc == Flag || pc == Offer then 1 else 0
  }

  lemma StoppedStep(s: Sched, a: Action)
    requires s.schedStop && Enabled(s, a)
    ensures var s' := Next(s, a);
            && s'.schedStop
            && |s'.draws| + MayStillDraw(s'.pc) <= |s.draws| + MayStillDraw(s.pc)
            && |s'.offers| + MayStillOffer(s'.pc) <= |s.offers| + MayStillOffer(s.pc)
  {
  }

  // ----- every run -----

  lemma {:induction false} RunKeeps(maxPending: Option<nat>, start: real, acts: seq<Action>)
    requires Run(maxPending, start, acts).Some?
    ensures var s := Run(maxPending, start, acts).value;
            PlanInv(s) && QueueInv(s) && s.maxPending == maxPending && s.start == start
    decreases |acts|
  {
    hide PlanInv, QueueInv;
    if acts == [] {
      BeginPlan(maxPending, start);
    } else {
      var init := acts[..|acts| - 1];
      RunKeeps(maxPending, start, init);
      var s := Run(maxPending, start, init).value;
      PlanKept(s, acts[|acts| - 1]);
      QueueKept(s, acts[|acts| - 1]);
    }
  }

  lemma BeginPlan(maxPending: Option<nat>, start: real)
    ensures PlanInv(Begin(maxPending, start)) && QueueInv(Begin(maxPending, start))
  {
  }

  /**
   The schedule is absolute: however long waits, sends and a full queue take, the k-th offer is planned
   for the start plus the first k draws, none is skipped, and none is offered before its instant.
   */
  lemma NoDriftNoSkip(maxPending: Option<nat>, start: real, acts: seq<Action>, k: nat)
    requires Run(maxPending, start, acts).Some? && k < |Run(maxPending, start, acts).value.offers|
    ensures var s := Run(maxPending, start, acts).value;
            && |s.offers| <= |s.draws| <= |s.offers| + 1
            && s.offers[k].planned == start + Sum(s.draws[..k + 1])
            && s.offers[k].planned <= s.offers[k].at <= s.clock
  {
    hide Run, Sum;
    RunKeeps(maxPending, start, acts);
    assert OnPlan(Run(maxPending, start, acts).value, k);
  }

  /** The queue holds at most max_pending requests until sched_stop is set, and one more at most ever. */
  lemma BacklogBound(maxPending: nat, start: real, acts: seq<Action>)
    requires Run(Some(maxPending), start, acts).Some?
    ensures var s := Run(Some(maxPending), start, acts).value;
            && s.txq <= maxPending + 1
            && (!s.schedStop ==> s.txq <= maxPending)
  {
    hide Run, PlanInv;
    RunKeeps(Some(maxPending), start, acts);
  }

  lemma {:induction false} RunConcat(s: Sched, a: seq<Action>, b: seq<Action>)
    requires RunFrom(s, a).Some?
    ensures RunFrom(s, a + b) == RunFrom(RunFrom(s, a).value, b)
    decreases |b|
  {
    if b == [] {
      assert a + b == a;
    } else {
      assert (a + b)[..|a + b| - 1] == a + b[..|b| - 1];
      RunConcat(s, a, b[..|b| - 1]);
    }
  }

  lemma RunAppend(s: Sched, acts: seq<Action>, a: Action)
    requires RunFrom(s, acts).Some? && Enabled(RunFrom(s, acts).value, a)
    ensures RunFrom(s, acts + [a]) == Some(Next(RunFrom(s, acts).value, a))
  {
    assert (acts + [a])[..|acts|] == acts;
  }

  /** A request due at once comes to the test for room. */
  lemma ToTheTest(s: Sched) returns (acts: seq<Action>)
    requires s.pc == Head && !s.schedStop && !s.stopped && s.nextDue <= s.clock
    ensures RunFrom(s, acts) == Some(s.(draws := s.draws + [0.0], pc := Room))
  {
    hide RunFrom;
    RunNone(s);
    acts := [];
    RunAppend(s, acts, TestHead);
    acts := acts + [TestHead];
    RunAppend(s, acts, TestHeadToo);
    acts := acts + [TestHeadToo];
    RunAppend(s, acts, DrawNext(0.0));
    acts := acts + [DrawNext(0.0)];
    RunAppend(s, acts, ReadClock);
    acts := acts + [ReadClock];
    RunAppend(s, acts, TestStop);
    acts := acts + [TestStop];
    RunAppend(s, acts, TestStopToo);
    acts := acts + [TestStopToo];
  }

  lemma RunNone(s: Sched)
    ensures RunFrom(s, []) == Some(s)
  {
  }

  /** It finds room and is queued. */
  lemma OneQueued(s: Sched) returns (acts: seq<Action>)
    requires s.pc == Head && !s.schedStop && !s.stopped && s.nextDue <= s.clock && !QueueFull(s)
    ensures RunFrom(s, acts) ==
      Some(s.(draws := s.draws + [0.0], offers := s.offers + [Offered(s.nextDue, s.clock)], txq := s.txq + 1))
  {
    hide RunFrom;
    acts := ToTheTest(s);
    RunAppend(s, acts, TestRoom);
    acts := acts + [TestRoom];
    RunAppend(s, acts, Count);
    acts := acts + [Count];
    RunAppend(s, acts, Enqueue);
    acts := acts + [Enqueue];
  }

  /** Or the queue is full, and sched_stop is set between the size test and the flag test. */
  lemma FallsThrough(s: Sched) returns (acts: seq<Action>)
    requires s.pc == Head && !s.schedStop && !s.stopped && s.nextDue <= s.clock && QueueFull(s)
    ensures RunFrom(s, acts).Some? && RunFrom(s, acts).value.txq == s.txq + 1
  {
    hide RunFrom;
    acts := ToTheTest(s);
    RunAppend(s, acts, TestRoom);
    acts := acts + [TestRoom];
    RunAppend(s, acts, TestFull);
    acts := acts + [TestFull];
    RunAppend(s, acts, SetSchedStop);
    acts := acts + [SetSchedStop];
    RunAppend(s, acts, TestFlag);
    acts := acts + [TestFlag];
    RunAppend(s, acts, Count);
    acts := acts + [Count];
    RunAppend(s, acts, Enqueue);
    acts := acts + [Enqueue];
  }

  lemma {:induction false} FillsUp(maxPending: nat, start: real, n: nat) returns (acts: seq<Action>)
    requires n <= maxPending
    ensures var t := Run(Some(maxPending), start, acts);
            && t.Some? && t.value.txq == n && t.value.pc == Head && !t.value.schedStop && !t.value.stopped
            && t.value.nextDue <= t.value.clock && t.value.maxPending == Some(maxPending)
  {
    if n == 0 {
      acts := [];
    } else {
      var before := FillsUp(maxPending, start, n - 1);
      var round := OneQueued(Run(Some(maxPending), start, before).value);
      RunConcat(Begin(Some(maxPending), start), before, round);
      acts := before + round;
    }
  }

  /** For every limit some run does reach max_pending + 1: the wait for room falls through when sched_stop is set. */
  lemma BacklogBoundIsReached(maxPending: nat, start: real)
    ensures exists acts ::
              && Run(Some(maxPending), start, acts).Some?
              && Run(Some(maxPending), start, acts).value.txq == maxPending + 1
  {
    hide RunFrom;
    var before := FillsUp(maxPending, start, maxPending);
    var last := FallsThrough(Run(Some(maxPending), start, before).value);
    RunConcat(Begin(Some(maxPending), start), before, last);
    assert Run(Some(maxPending), start, before + last).Some?;
  }

  /**
   Once sched_stop is set, at most one more draw is ever made and at most one more request is offered, and not
   both: only past the test of sched_stop and before the draw, or past the next one and before the offer.
   */
  lemma {:induction false} OneMoreAfterStop(s: Sched, acts: seq<Action>)
    requires s.schedStop && RunFrom(s, acts).Some?
    ensures var t := RunFrom(s, acts).value;
            && t.schedStop
            && |t.draws| + MayStillDraw(t.pc) <= |s.draws| + MayStillDraw(s.pc)
            && |t.offers| + MayStillOffer(t.pc) <= |s.offers| + MayStillOffer(s.pc)
            && |t.draws| + |t.offers| <= |s.draws| + |s.offers| + 1
    decreases |acts|
  {
    if acts != [] {
      OneMoreAfterStop(s, acts[..|acts| - 1]);
      StoppedStep(RunFrom(s, acts[..|acts| - 1]).value, acts[|acts| - 1]);
    }
  }

  /** The scheduler's own steps: not the clock's, the sender's or a flag's. */
  predicate IsOwn(a: Action)
  {
    !a.Tick? && !a.SenderTakes? && !a.SetSchedStop? && !a.SetStopped?
  }

  function OwnCount(acts: seq<Action>): nat
  {
    if acts == [] then 0 else OwnCount(acts[..|acts| - 1]) + if IsOwn(acts[|acts| - 1]) then 1 else 0
  }

  /** How many steps of its own the scheduler has left at most once sched_stop is set. */
  function Left(pc: Pc): nat
  {
    match pc
    case Halted => 0
    case Head => 1
    case Nap => 1
    case Check => 1
    case Sleep => 1
    case Wait => 2
    case Put => 2
    case Draw => 3
    case Offer => 3
    case HeadToo => 4
    case Flag => 4
    case Full => 5
    case Room => 6
    case CheckToo => 7
  }

  lemma LeftStep(s: Sched, a: Action)
    requires s.schedStop && Enabled(s, a)
    ensures Left(Next(s, a).pc) + (if IsOwn(a) then 1 else 0) <= Left(s.pc) <= 7 && Next(s, a).schedStop
  {
  }

  /** Once sched_stop is set the scheduler ends within seven steps of its own, however far off the next instant is. */
  lemma {:induction false} EndsSoon(s: Sched, acts: seq<Action>)
    requires s.schedStop && RunFrom(s, acts).Some?
    ensures RunFrom(s, acts).value.schedStop && OwnCount(acts) + Left(RunFrom(s, acts).value.pc) <= Left(s.pc) <= 7
    ensures s.pc != Halted ==> exists a :: IsOwn(a) && Enabled(s, a)
    decreases |acts|
  {
    if acts == [] {
      OwnEnabled(s);
    } else {
      EndsSoon(s, acts[..|acts| - 1]);
      LeftStep(RunFrom(s, acts[..|acts| - 1]).value, acts[|acts| - 1]);
    }
  }

  /** And until it has ended it always has one it can take. */
  lemma OwnEnabled(s: Sched)
    ensures s.pc != Halted ==> exists a :: IsOwn(a) && Enabled(s, a)
  {
    match s.pc
    case Head => assert IsOwn(TestHead) && Enabled(s, TestHead);
    case HeadToo => assert IsOwn(TestHeadToo) && Enabled(s, TestHeadToo);
    case Draw => assert IsOwn(DrawNext(0.0)) && Enabled(s, DrawNext(0.0));
    case Wait => assert IsOwn(ReadClock) && Enabled(s, ReadClock);
    case Nap => assert IsOwn(Napped) && Enabled(s, Napped);
    case Check => assert IsOwn(TestStop) && Enabled(s, TestStop);
    case CheckToo => assert IsOwn(TestStopToo) && Enabled(s, TestStopToo);
    case Room => assert IsOwn(TestRoom) && Enabled(s, TestRoom);
    case Full => assert IsOwn(TestFull) && Enabled(s, TestFull);
    case Flag => assert IsOwn(TestFlag) && Enabled(s, TestFlag);
    case Sleep => assert IsOwn(Slept) && Enabled(s, Slept);
    case Offer => assert IsOwn(Count) && Enabled(s, Count);
    case Put => assert IsOwn(Enqueue) && Enabled(s, Enqueue);
    case Halted =>
  }

  /** 1 where a draw may still be made although the other flag is set: past its test at the head. */
  function MayDrawStopped(pc: Pc): nat
  {
    if pc == Draw then 1 else 0
  }

  /** 1 where a request may still be offered then: past its test after the wait. */
  function MayOfferStopped(pc: Pc): nat
  {
    if pc == Room || pc == Full || pc == Flag || pc == Sleep || pc == Offer then 1 else 0
  }

  lemma OtherStoppedStep(s: Sched, a: Action)
    requires s.stopped && Enabled(s, a)
    ensures var s' := Next(s, a);
            && s'.stopped
            && |s'.draws| + MayDrawStopped(s'.pc) <= |s.draws| + MayDrawStopped(s.pc)
            && |s'.offers| + MayOfferStopped(s'.pc) <= |s.offers| + MayOfferStopped(s.pc)
  {
  }

  /** The same of the other flag, which ends the program without sched_stop when a write fails. */
  lemma {:induction false} OneMoreAfterStopped(s: Sched, acts: seq<Action>)
    requires s.stopped && RunFrom(s, acts).Some?
    ensures var t := RunFrom(s, acts).value;
            && t.stopped
            && |t.draws| + MayDrawStopped(t.pc) <= |s.draws| + MayDrawStopped(s.pc)
            && |t.offers| + MayOfferStopped(t.pc) <= |s.offers| + MayOfferStopped(s.pc)
            && |t.draws| + |t.offers| <= |s.draws| + |s.offers| + 1
    decreases |acts|
  {
    if acts != [] {
      OneMoreAfterStopped(s, acts[..|acts| - 1]);
      OtherStoppedStep(RunFrom(s, acts[..|acts| - 1]).value, acts[|acts| - 1]);
    }
  }

  /** In some run a draw does follow: sched_stop is set right after it was tested. */
  lemma DrawAfterStop(maxPending: Option<nat>, start: real) returns (acts: seq<Action>, later: seq<Action>)
    ensures Run(maxPending, start, acts).Some? && Run(maxPending, start, acts).value.schedStop
    ensures RunFrom(Run(maxPending, start, acts).value, later).Some?
    ensures |RunFrom(Run(maxPending, start, acts).value, later).value.draws| ==
      |Run(maxPending, start, acts).value.draws| + 1
  {
    hide RunFrom;
    var s := Begin(maxPending, start);
    RunNone(s);
    RunAppend(s, [], TestHead);
    RunAppend(s, [] + [TestHead], SetSchedStop);
    acts := [] + [TestHead] + [SetSchedStop];
    var t := RunFrom(s, acts).value;
    RunNone(t);
    RunAppend(t, [], TestHeadToo);
    RunAppend(t, [] + [TestHeadToo], DrawNext(0.0));
    later := [] + [TestHeadToo] + [DrawNext(0.0)];
  }
}
