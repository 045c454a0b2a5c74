/** A connection never gets stuck: whatever state it is in, what it has received can still be answered. */
module ServerProgress {
  import opened Wrappers
  import opened Wire
  import opened Protocol
  import opened Streams
  import opened Answers
  import opened ServerPipeline
  import opened ServerRuns

  /** The next thing a connection's threads can do with what they have; the server reports this trailer and body. */
  function NextWork(c: Conn, trailer: bytes, body: bytes): Option<Action>
  {
    if c.reader.Putting? then Some(PutFrame)
    else
      match c.worker
      case Got(_) => Some(if c.draining then CountRx else Begin)
      case Busy(_) => Some(CountRx)
      case Noted(_) => Some(Answer(trailer, body))
      case Answered(_) => Some(Finish)
      case Ready(_) => Some(PutResp)
      case Finished => NextWrite(c)
      case Idle => if c.rxq != [] then Some(GetRaw) else NextWrite(c)
  }

  function NextWrite(c: Conn): Option<Action>
  {
    match c.writer
    case Free => if c.txq != [] then Some(GetResp) else None
    case Holding(_) => Some(SendOk)
    case Sent(_) => Some(CountTx)
    case Failed(_) => None
  }

  /** How many steps there are left at most. */
  function Weight(c: Conn): nat
  {
    (if c.reader.Putting? then 12 * |c.reader.frames| + 1 else 0) + 11 * |c.rxq| + WorkerWeight(c.worker)
    + 4 * |c.txq| + (if c.writer.Holding? then 3 else if c.writer.Sent? then 2 else 0)
  }

  function WorkerWeight(w: Worker): nat
  {
    match w
    case Got(_) => 10
    case Busy(_) => 9
    case Noted(_) => 8
    case Answered(_) => 7
    case Ready(_) => 6
    case _ => 0
  }

  /** The worker and the writer are still there. */
  predicate Alive(c: Conn)
  {
    !c.worker.Finished? && !c.writer.Failed?
  }

  predicate Reports(trailer: bytes, body: bytes)
  {
    |trailer| == TELEMETRY_SIZE && |body| <= MAX_BODY
  }

  lemma ReaderWorks(telemetry: bool, c: Conn)
    requires c.reader.Putting? && Alive(c)
    ensures var c' := Local(telemetry, c, PutFrame); Alive(c') && c'.stream == c.stream && Weight(c') < Weight(c)
  {
  }

  lemma WorkerWorks(telemetry: bool, c: Conn, trailer: bytes, body: bytes)
    requires !c.reader.Putting? && Alive(c) && ModeInv(c) && Reports(trailer, body) && IsStatusBody(body)
    requires !c.worker.Idle? || c.rxq != []
    ensures var a := NextWork(c, trailer, body).value;
            && Enabled(c, a)
            && var c' := Local(telemetry, c, a); Alive(c') && c'.stream == c.stream && Weight(c') < Weight(c)
  {
    hide IsRequest, IsEcho, DispatchBinary, IsStatusBody, PopPdus;
  }

  lemma WriterWorks(telemetry: bool, c: Conn, a: Action)
    requires Alive(c) && NextWrite(c) == Some(a)
    ensures Enabled(c, a)
    ensures var c' := Local(telemetry, c, a); Alive(c') && c'.stream == c.stream && Weight(c') < Weight(c)
  {
    hide IsRequest, IsEcho, DispatchBinary, IsStatusBody, PopPdus;
  }

  /** That step is possible, and brings the end nearer. */
  lemma WorkIsPossible(telemetry: bool, c: Conn, trailer: bytes, body: bytes)
    requires Alive(c) && ModeInv(c) && Reports(trailer, body) && IsStatusBody(body)
    requires NextWork(c, trailer, body).Some?
    ensures var a := NextWork(c, trailer, body).value;
            && Enabled(c, a)
            && var c' := Local(telemetry, c, a); Alive(c') && c'.stream == c.stream && Weight(c') < Weight(c)
  {
    hide Local, Weight, Enabled;
    if c.reader.Putting? {
      ReaderWorks(telemetry, c);
      PutIsPossible(c);
    } else if !c.worker.Idle? || c.rxq != [] {
      WorkerWorks(telemetry, c, trailer, body);
    } else {
      WriterWorks(telemetry, c, NextWrite(c).value);
    }
  }

  lemma PutIsPossible(c: Conn)
    requires c.reader.Putting?
    ensures Enabled(c, PutFrame)
  {
  }

  lemma RunAct(telemetry: bool, events: seq<Event>, i: nat, a: Action)
    requires Run(telemetry, events).Some? && i < |Run(telemetry, events).value.conns|
    requires Enabled(Run(telemetry, events).value.conns[i], a)
    ensures Run(telemetry, events + [Act(i, a)]) == Some(Apply(Run(telemetry, events).value, i, a))
  {
    hide Enabled, Apply;
    assert (events + [Act(i, a)])[..|events|] == events;
  }

  lemma ApplyAt(s: Server, i: nat, a: Action)
    requires i < |s.conns| && Enabled(s.conns[i], a)
    ensures var s' := Apply(s, i, a); |s'.conns| == |s.conns| && s'.conns[i] == Local(s.telemetry, s.conns[i], a)
  {
    hide Local, Enabled, IsRequest, IsEcho;
  }

  /** Every frame of the stream is queued and answered, in order. */
  ghost predicate AllDone(telemetry: bool, c: Conn)
  {
    && c.log == PopPdus(c.stream).frames
    && |c.written| == |Answerable(c.log)| && AllAnswers(telemetry, Answerable(c.log), c.written)
  }

  lemma NoWorkIsDone(telemetry: bool, events: seq<Event>, i: nat, trailer: bytes, body: bytes)
    requires Run(telemetry, events).Some? && i < |Run(telemetry, events).value.conns|
    requires var c := Run(telemetry, events).value.conns[i]; Alive(c) && NextWork(c, trailer, body).None?
    ensures AllDone(telemetry, Run(telemetry, events).value.conns[i])
  {
    hide Run, PopPdus, AllAnswers, Answerable, IsAnswer;
    PipelineRefines(telemetry, events, i);
    QuietMeansAllAnswered(telemetry, events, i);
    var c := Run(telemetry, events).value.conns[i];
    assert c.log + [] == c.log;
  }

  /** Only the threads of connection i move, and nothing more is received. */
  predicate OwnSteps(later: seq<Event>, i: nat)
  {
    forall k :: 0 <= k < |later| ==> later[k].Act? && later[k].conn == i && !later[k].action.Recv?
  }

  lemma NoRecv(c: Conn, trailer: bytes, body: bytes)
    requires NextWork(c, trailer, body).Some?
    ensures !NextWork(c, trailer, body).value.Recv?
  {
  }

  lemma ModeOf(telemetry: bool, events: seq<Event>, i: nat)
    requires Run(telemetry, events).Some? && i < |Run(telemetry, events).value.conns|
    ensures ModeInv(Run(telemetry, events).value.conns[i]) && Run(telemetry, events).value.telemetry == telemetry
  {
    hide Run, ConnInv, Sum, ModeInv;
    RunKeeps(telemetry, events);
  }

  /** One step nearer. */
  lemma OneStep(telemetry: bool, events: seq<Event>, i: nat, trailer: bytes, body: bytes) returns (e: Event)
    requires Run(telemetry, events).Some? && i < |Run(telemetry, events).value.conns|
    requires Reports(trailer, body) && IsStatusBody(body) && Alive(Run(telemetry, events).value.conns[i])
    requires NextWork(Run(telemetry, events).value.conns[i], trailer, body).Some?
    ensures OwnSteps([e], i) && Run(telemetry, events + [e]).Some?
    ensures var (s, s') := (Run(telemetry, events).value, Run(telemetry, events + [e]).value);
            && i < |s'.conns| && Alive(s'.conns[i]) && s'.conns[i].stream == s.conns[i].stream
            && Weight(s'.conns[i]) < Weight(s.conns[i])
  {
    hide Run, Local, Apply, Enabled, Weight, Alive, Reports, IsStatusBody, NextWork, ModeInv;
    var s := Run(telemetry, events).value;
    var a := NextWork(s.conns[i], trailer, body).value;
    ModeOf(telemetry, events, i);
    WorkIsPossible(telemetry, s.conns[i], trailer, body);
    NoRecv(s.conns[i], trailer, body);
    RunAct(telemetry, events, i, a);
    ApplyAt(s, i, a);
    e := Act(i, a);
  }

  /**
   From every reachable state, for every connection whose worker has not left and whose writer has not failed: some
   continuation without further input answers every request in the bytes received so far, in order.
   */
  lemma {:induction false} AllCanBeAnswered(telemetry: bool, events: seq<Event>, i: nat, trailer: bytes, body: bytes)
    returns (later: seq<Event>)
    requires Run(telemetry, events).Some? && i < |Run(telemetry, events).value.conns|
    requires Alive(Run(telemetry, events).value.conns[i]) && Reports(trailer, body) && IsStatusBody(body)
    ensures OwnSteps(later, i) && Run(telemetry, events + later).Some?
    ensures i < |Run(telemetry, events + later).value.conns|
    ensures Run(telemetry, events + later).value.conns[i].stream == Run(telemetry, events).value.conns[i].stream
    ensures AllDone(telemetry, Run(telemetry, events + later).value.conns[i])
    decreases Weight(Run(telemetry, events).value.conns[i])
  {
    hide Run, Weight, Alive, Reports, IsStatusBody, AllDone, NextWork;
    if NextWork(Run(telemetry, events).value.conns[i], trailer, body).None? {
      later := [];
      assert events + later == events;
      NoWorkIsDone(telemetry, events, i, trailer, body);
    } else {
      var e := OneStep(telemetry, events, i, trailer, body);
      var rest := AllCanBeAnswered(telemetry, events + [e], i, trailer, body);
      later := [e] + rest;
      assert events + later == events + [e] + rest;
      assert forall k :: 0 <= k < |rest| ==> later[k + 1] == rest[k];
    }
  }
}
