/** Every run of the server: any number of connections, any interleaving of their threads. */
module ServerRuns {
  import opened Wrappers
  import opened Wire
  import opened Protocol
  import opened Streams
  import opened Answers
  import opened ServerPipeline

  datatype Event = Accept | Act(conn: nat, action: Action)

  /** The state after a sequence of events, if each was possible when it came. */
  ghost function Run(telemetry: bool, events: seq<Event>): Option<Server>
    decreases |events|
  {
    if events == [] then Some(Server(telemetry, [], 0, 0, 0, 0))
    else
      match Run(telemetry, events[..|events| - 1])
      case None => None
      case Some(s) => NextState(s, events[|events| - 1])
  }

  ghost function NextState(s: Server, e: Event): Option<Server>
  {
    match e
    case Accept => Some(s.(conns := s.conns + [NewConn()]))
    case Act(i, a) => if i < |s.conns| && Enabled(s.conns[i], a) then Some(Apply(s, i, a)) else None
  }

  function Sum(conns: seq<Conn>, f: Conn -> int): int
  {
    if conns == [] then 0 else Sum(conns[..|conns| - 1], f) + f(conns[|conns| - 1])
  }

  lemma {:induction false} SumUpdate(conns: seq<Conn>, f: Conn -> int, i: nat, c: Conn)
    requires i < |conns|
    ensures Sum(conns[i := c], f) == Sum(conns, f) - f(conns[i]) + f(c)
    decreases |conns|
  {
    var n := |conns| - 1;
    if i == n {
      assert conns[i := c][..n] == conns[..n];
    } else {
      SumUpdate(conns[..n], f, i, c);
      assert conns[i := c][..n] == conns[..n][i := c];
    }
  }

  lemma SumAppend(conns: seq<Conn>, f: Conn -> int, c: Conn)
    ensures Sum(conns + [c], f) == Sum(conns, f) + f(c)
  {
    assert (conns + [c])[..|conns|] == conns;
  }

  lemma {:induction false} SumBound(conns: seq<Conn>, f: Conn -> int, g: Conn -> int)
    requires forall i :: 0 <= i < |conns| ==> f(conns[i]) <= g(conns[i])
    ensures Sum(conns, f) <= Sum(conns, g)
    decreases |conns|
  {
    if conns != [] { SumBound(conns[..|conns| - 1], f, g); }
  }

  lemma {:induction false} SumHas(conns: seq<Conn>, f: Conn -> int, i: nat)
    requires i < |conns| && forall k :: 0 <= k < |conns| ==> f(conns[k]) >= 0
    ensures Sum(conns, f) >= f(conns[i])
    decreases |conns|
  {
    var n := |conns| - 1;
    if i < n {
      SumHas(conns[..n], f, i);
    } else {
      SumPositive(conns[..n], f);
    }
  }

  lemma {:induction false} SumPositive(conns: seq<Conn>, f: Conn -> int)
    requires forall k :: 0 <= k < |conns| ==> f(conns[k]) >= 0
    ensures Sum(conns, f) >= 0
    decreases |conns|
  {
    if conns != [] { SumPositive(conns[..|conns| - 1], f); }
  }

  /** 1 while this connection's worker is counted in `processing`. */
  function Counted(c: Conn): int
  {
    if c.worker.Busy? || c.worker.Answered? || (c.worker.Noted? && !c.draining) then 1 else 0
  }

  /** Only the main loop counts itself. */
  predicate ModeInv(c: Conn)
  {
    c.draining ==> !c.worker.Busy? && !c.worker.Answered?
  }

  ghost predicate ServerInv(s: Server)
  {
    && (forall i :: 0 <= i < |s.conns| ==> ConnInv(s.telemetry, s.conns[i]) && ModeInv(s.conns[i]))
    && s.echoRx == Sum(s.conns, (c: Conn) => c.echoRx)
    && s.statusRx == Sum(s.conns, (c: Conn) => c.statusRx)
    && s.echoTx == Sum(s.conns, (c: Conn) => c.echoTx)
    && s.processing == Sum(s.conns, Counted)
  }

  lemma ProcessingPositive(s: Server, i: nat)
    requires ServerInv(s) && i < |s.conns| && s.conns[i].worker.Answered?
    ensures s.processing >= 1
  {
    hide ConnInv, Sum;
    SumHas(s.conns, Counted, i);
  }

  lemma ApplyKeeps(s: Server, i: nat, a: Action)
    requires ServerInv(s) && i < |s.conns| && Enabled(s.conns[i], a)
    ensures ServerInv(Apply(s, i, a))
  {
    hide ConnInv, Sum, IsRequest, IsEcho, DispatchBinary, PopPdus, IsStatusBody;
    var c := s.conns[i];
    var c' := Local(s.telemetry, c, a);
    ConnKept(s.telemetry, c, a);
    if a.Finish? { ProcessingPositive(s, i); }
    SumUpdate(s.conns, (c: Conn) => c.echoRx, i, c');
    SumUpdate(s.conns, (c: Conn) => c.statusRx, i, c');
    SumUpdate(s.conns, (c: Conn) => c.echoTx, i, c');
    SumUpdate(s.conns, Counted, i, c');
  }

  lemma AcceptKeeps(s: Server)
    requires ServerInv(s)
    ensures ServerInv(s.(conns := s.conns + [NewConn()]))
  {
    hide Sum;
    NewConnInv(s.telemetry);
    hide ConnInv;
    SumAppend(s.conns, (c: Conn) => c.echoRx, NewConn());
    SumAppend(s.conns, (c: Conn) => c.statusRx, NewConn());
    SumAppend(s.conns, (c: Conn) => c.echoTx, NewConn());
    SumAppend(s.conns, Counted, NewConn());
  }

  lemma NewConnInv(telemetry: bool)
    ensures ConnInv(telemetry, NewConn())
  {
  }

  lemma {:induction false} RunKeeps(telemetry: bool, events: seq<Event>)
    requires Run(telemetry, events).Some?
    ensures ServerInv(Run(telemetry, events).value) && Run(telemetry, events).value.telemetry == telemetry
    decreases |events|
  {
    hide ServerInv, Apply, NewConn;
    if events == [] {
      FreshServer(telemetry);
    } else {
      var init := events[..|events| - 1];
      RunKeeps(telemetry, init);
      match events[|events| - 1]
      case Accept => AcceptKeeps(Run(telemetry, init).value);
      case Act(i, a) =>
        ApplyKeeps(Run(telemetry, init).value, i, a);
        ApplyTelemetry(Run(telemetry, init).value, i, a);
    }
  }

  lemma FreshServer(telemetry: bool)
    ensures ServerInv(Server(telemetry, [], 0, 0, 0, 0))
  {
  }

  lemma ApplyTelemetry(s: Server, i: nat, a: Action)
    requires i < |s.conns| && Enabled(s.conns[i], a)
    ensures Apply(s, i, a).telemetry == s.telemetry
  {
  }

  // ----- what every run guarantees -----

  /**
   Pipeline refinement, on every connection of every reachable state: the frames queued are the ones the
   received bytes hold, in order; response k written answers the k-th request read; and responses
   written, responses on their way and requests still unanswered account for every request read.
   */
  lemma PipelineRefines(telemetry: bool, events: seq<Event>, i: nat)
    requires Run(telemetry, events).Some? && i < |Run(telemetry, events).value.conns|
    ensures var c := Run(telemetry, events).value.conns[i];
            var reqs := Answerable(c.log);
            && c.log + Pending(c.reader) == PopPdus(c.stream).frames
            && |c.written| + |Unsent(c)| + |Answerable(Unanswered(c))| == |reqs|
            && (forall k :: 0 <= k < |c.written| ==> IsAnswer(telemetry, reqs[k], c.written[k]))
            && (forall k :: 0 <= k < |Unsent(c)| ==> IsAnswer(telemetry, reqs[|c.written| + k], Unsent(c)[k]))
            && reqs[|c.written| + |Unsent(c)|..] == Answerable(Unanswered(c))
  {
    hide IsAnswer, Answerable, PopPdus, Unsent, Unanswered, Run;
    RunKeeps(telemetry, events);
    var c := Run(telemetry, events).value.conns[i];
    assert ConnInv(telemetry, c);
    assert Responses(c) == c.written + Unsent(c);
    assert forall k :: 0 <= k < |c.written| ==> Responses(c)[k] == c.written[k];
    assert forall k :: 0 <= k < |Unsent(c)| ==> Responses(c)[|c.written| + k] == Unsent(c)[k];
  }

  /** Request k leaves room for the trailer its answer carries. */
  predicate Fitting(telemetry: bool, c: Conn, k: nat)
  {
    k < |Answerable(c.log)| ==> var req := Answerable(c.log)[k]; telemetry && IsEcho(req) ==> HasRoom(req)
  }

  /**
   With telemetry on, response k carries the type, number, client time and ECHO payload of request k, if there
   is room.
   */
  lemma RepliesInOrder(events: seq<Event>, i: nat, k: nat)
    requires Run(true, events).Some? && i < |Run(true, events).value.conns|
    requires var c := Run(true, events).value.conns[i]; k < |c.written| && Fitting(true, c, k)
    ensures var c := Run(true, events).value.conns[i];
            && k < |Answerable(c.log)|
            && DecodePdu(Answerable(c.log)[k]).Some? && DecodePdu(c.written[k]).Some?
            && Says(DecodePdu(Answerable(c.log)[k]).value, DecodePdu(c.written[k]).value)
  {
    hide IsAnswer, Answerable, PopPdus, Unsent, Unanswered, Run, DecodePdu, Says;
    PipelineRefines(true, events, i);
    var c := Run(true, events).value.conns[i];
    AnswerSays(true, Answerable(c.log)[k], c.written[k]);
  }

  /**
   What the client's read loop makes of what has arrived of a connection, however it is chunked: if the requests
   answered leave room, exactly the responses that have arrived completely, in order, and the beginning of the
   next one is kept. A response whose request does not leave room is the only kind that cannot be cut off whole.
   */
  lemma ClientReads(telemetry: bool, events: seq<Event>, i: nat, chunks: seq<bytes>)
    requires Run(telemetry, events).Some? && i < |Run(telemetry, events).value.conns|
    requires Concat(chunks) <= Concat(Run(telemetry, events).value.conns[i].written)
    ensures var c := Run(telemetry, events).value.conns[i];
            && (forall k :: 0 <= k < |c.written| ==> (IsPdu(c.written[k]) <==> Fitting(telemetry, c, k)))
            && ((forall k :: 0 <= k < |c.written| ==> Fitting(telemetry, c, k)) ==>
                  var p := Feed([], chunks);
                  && p.frames <= c.written && Concat(p.frames) + p.rest == Concat(chunks)
                  && (|p.frames| < |c.written| ==> |p.rest| < |c.written[|p.frames|]|)
                  && (Concat(chunks) == Concat(c.written) ==> p == Popped(c.written, [])))
  {
    hide IsAnswer, Answerable, PopPdus, Unsent, Unanswered, Run, DecodePdu, IsPdu, Feed, Concat;
    PipelineRefines(telemetry, events, i);
    var c := Run(telemetry, events).value.conns[i];
    forall k | 0 <= k < |c.written| ensures IsPdu(c.written[k]) <==> Fitting(telemetry, c, k) {
      AnswerIsPdu(telemetry, Answerable(c.log)[k], c.written[k]);
    }
    if forall k :: 0 <= k < |c.written| ==> Fitting(telemetry, c, k) {
      ChunkingIndependence(chunks, chunks);
      PopPrefix(c.written, Concat(chunks));
      PopWhole(c.written);
    }
  }

  /** When nothing is queued or in hand and no send has failed, every request read has been answered on the wire. */
  lemma QuietMeansAllAnswered(telemetry: bool, events: seq<Event>, i: nat)
    requires Run(telemetry, events).Some? && i < |Run(telemetry, events).value.conns|
    requires var c := Run(telemetry, events).value.conns[i];
             c.rxq == [] && c.txq == [] && (c.worker.Idle? || c.worker.Finished?) && c.writer.Free?
    ensures var c := Run(telemetry, events).value.conns[i];
            |c.written| == |Answerable(c.log)| && AllAnswers(telemetry, Answerable(c.log), c.written)
  {
    hide IsAnswer, PopPdus, Run;
    RunKeeps(telemetry, events);
    var c := Run(telemetry, events).value.conns[i];
    assert ConnInv(telemetry, c);
    assert Responses(c) == c.written && Unanswered(c) == [];
  }

  /**
   When a worker leaves, every request queued so far has been answered, in order; and if the reader has ended, those
   are all the requests in the bytes received.
   */
  lemma WorkerLeavesNothing(telemetry: bool, events: seq<Event>, i: nat)
    requires Run(telemetry, events).Some? && i < |Run(telemetry, events).value.conns|
    requires Enabled(Run(telemetry, events).value.conns[i], Exit)
    ensures var c := Run(telemetry, events).value.conns[i];
            && |Responses(c)| == |Answerable(c.log)| && AllAnswers(telemetry, Answerable(c.log), Responses(c))
            && (c.reader.Hung? ==> c.log == PopPdus(c.stream).frames)
  {
    hide IsAnswer, PopPdus, Run;
    RunKeeps(telemetry, events);
    var c := Run(telemetry, events).value.conns[i];
    assert ConnInv(telemetry, c);
    assert Unanswered(c) == [] && c.log + [] == c.log;
  }

  lemma {:induction false} EchoCountBound(telemetry: bool, reqs: seq<bytes>, resps: seq<bytes>, n: nat)
    requires AllAnswers(telemetry, reqs, resps) && n <= |resps|
    ensures EchoCount(resps[..n]) <= EchoCount(reqs[..n])
    decreases n
  {
    hide IsAnswer, IsEcho;
    if n > 0 {
      EchoCountBound(telemetry, reqs, resps, n - 1);
      EchoAnswersEcho(telemetry, reqs[n - 1], resps[n - 1]);
      assert resps[..n][..n - 1] == resps[..n - 1] && reqs[..n][..n - 1] == reqs[..n - 1];
    }
  }

  lemma {:induction false} EchoCountMore(frames: seq<bytes>, n: nat)
    requires n <= |frames|
    ensures EchoCount(frames[..n]) <= EchoCount(frames)
    decreases |frames|
  {
    if n == |frames| {
      assert frames[..n] == frames;
    } else {
      EchoCountMore(frames[..|frames| - 1], n);
      assert frames[..|frames| - 1][..n] == frames[..n];
    }
  }

  lemma ConnTxAtMostRx(telemetry: bool, c: Conn)
    requires ConnInv(telemetry, c)
    ensures c.echoTx <= c.echoRx
  {
    hide IsAnswer, IsEcho, Answerable, PopPdus, Unsent, Unanswered, EchoCount;
    var reqs, resps, n := Answerable(c.log), Responses(c), |c.written|;
    EchoCountBound(telemetry, reqs, resps, n);
    assert resps[..n] == c.written;
    EchoCountMore(reqs[..|resps|], n);
    assert reqs[..|resps|][..n] == reqs[..n];
  }

  /** No more ECHOs are ever counted as answered than as received. */
  lemma TxAtMostRx(telemetry: bool, events: seq<Event>)
    requires Run(telemetry, events).Some?
    ensures Run(telemetry, events).value.echoTx <= Run(telemetry, events).value.echoRx
  {
    hide Sum, ConnInv, Run;
    RunKeeps(telemetry, events);
    var s := Run(telemetry, events).value;
    var rx, tx := (c: Conn) => c.echoRx, (c: Conn) => c.echoTx;
    forall i | 0 <= i < |s.conns| ensures tx(s.conns[i]) <= rx(s.conns[i]) {
      ConnTxAtMostRx(s.telemetry, s.conns[i]);
    }
    SumBound(s.conns, tx, rx);
  }

  /** The requests taken up on a connection: those answered, and the one whose answer is being made. */
  function TakenUp(c: Conn): int
  {
    |Responses(c)| + if c.worker.Noted? then 1 else 0
  }

  lemma {:induction false} SumAdds(conns: seq<Conn>, f: Conn -> int, g: Conn -> int, h: Conn -> int)
    requires forall i :: 0 <= i < |conns| ==> f(conns[i]) + g(conns[i]) == h(conns[i])
    ensures Sum(conns, f) + Sum(conns, g) == Sum(conns, h)
    decreases |conns|
  {
    if conns != [] { SumAdds(conns[..|conns| - 1], f, g, h); }
  }

  /** Every request a worker took up is counted once, as an ECHO or as a STATUS. */
  lemma RequestsCounted(telemetry: bool, events: seq<Event>)
    requires Run(telemetry, events).Some?
    ensures var s := Run(telemetry, events).value; s.echoRx + s.statusRx == Sum(s.conns, TakenUp)
  {
    hide Sum, Run, Responses, OrderInv, ReaderInv;
    RunKeeps(telemetry, events);
    var s := Run(telemetry, events).value;
    forall i | 0 <= i < |s.conns| ensures s.conns[i].echoRx + s.conns[i].statusRx == TakenUp(s.conns[i]) {
      assert ConnInv(s.telemetry, s.conns[i]);
    }
    SumAdds(s.conns, (c: Conn) => c.echoRx, (c: Conn) => c.statusRx, TakenUp);
  }

  /** `processing` is the number of workers inside _handle, so max(0, processing - 1) never binds. */
  lemma ClampNeverBinds(telemetry: bool, events: seq<Event>, i: nat)
    requires Run(telemetry, events).Some?
    ensures var s := Run(telemetry, events).value;
            && s.processing == Sum(s.conns, Counted)
            && (i < |s.conns| && Enabled(s.conns[i], Finish) ==> Apply(s, i, Finish).processing == s.processing - 1)
  {
    hide Sum, ConnInv, Run;
    RunKeeps(telemetry, events);
    var s := Run(telemetry, events).value;
    if i < |s.conns| && Enabled(s.conns[i], Finish) { ProcessingPositive(s, i); }
  }

  /** The 2,000,000-byte cut-off is unreachable: a read never leaves more than 1,114,141 bytes to parse. */
  lemma CutOffUnreachable(telemetry: bool, events: seq<Event>, i: nat, data: bytes)
    requires Run(telemetry, events).Some? && i < |Run(telemetry, events).value.conns|
    requires Enabled(Run(telemetry, events).value.conns[i], Recv(data))
    ensures |Run(telemetry, events).value.conns[i].buf + data| <= 1_114_141 < BUF_LIMIT
  {
    hide Run, PopPdus, OrderInv, CountInv, Sum;
    RunKeeps(telemetry, events);
    var c := Run(telemetry, events).value.conns[i];
    assert ConnInv(telemetry, c);
    RestBound(c.stream);
  }
}
