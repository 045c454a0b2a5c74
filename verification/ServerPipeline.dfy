/**
 The TCP server as a step machine (src/peer_server.py:344-411 and 464-494): per connection a reader,
 a worker and a writer joined by two queues, and counters shared by all connections. Each section
 under a lock, each queue operation and each socket call is one step. A step that a stop flag only
 permits (leaving a loop) is left open at any time, so every way of stopping is covered.
 */
module ServerPipeline {
  import opened Wrappers
  import opened Wire
  import opened Protocol
  import opened Streams
  import opened Answers

  const RECV_SIZE := 65536
  const BUF_LIMIT := 2_000_000

  /** Putting(frames): popped, and not yet on the queue. */
  datatype Reader = Reading | Putting(frames: seq<bytes>) | Hung

  /**
   Busy: counted in `processing`; Noted: also in echo_rx or status_rx; Answered: the response is made; Ready:
   uncounted.
   */
  datatype Worker = Idle | Got(raw: bytes) | Busy(raw: bytes) | Noted(raw: bytes)
                  | Answered(resp: Option<bytes>) | Ready(resp: Option<bytes>) | Finished

  /** Sent: written, and not yet counted. Failed: sendall raised and the thread ended. */
  datatype Writer = Free | Holding(resp: bytes) | Sent(resp: bytes) | Failed(resp: bytes)

  datatype Conn = Conn(
    buf: bytes, reader: Reader, rxq: seq<bytes>, worker: Worker, draining: bool, txq: seq<bytes>, writer: Writer,
    // what has happened so far
    stream: bytes,        // every byte received
    log: seq<bytes>,      // every frame put on rxq
    written: seq<bytes>,  // every response handed to the socket
    echoRx: nat, statusRx: nat, echoTx: nat)  // this connection's part of the shared counters

  datatype Server = Server(telemetry: bool, conns: seq<Conn>, echoRx: nat, echoTx: nat, statusRx: nat, processing: int)

  datatype Action =
    | Recv(data: bytes) | PutFrame | Hangup
    | GetRaw | Begin | CountRx | Answer(trailer: bytes, body: bytes) | Finish | PutResp | Drain | Exit
    | GetResp | SendOk | SendFail | CountTx

  function NewConn(): Conn
  {
    Conn([], Reading, [], Idle, false, [], Free, [], [], [], 0, 0, 0)
  }

  /** Whether a connection's threads are at the point where an action can happen. */
  ghost predicate Enabled(c: Conn, a: Action)
  {
    match a
    case Recv(data) => c.reader.Reading? && 0 < |data| <= RECV_SIZE
    case PutFrame => c.reader.Putting?
    case Hangup => c.reader.Reading?
    case GetRaw => c.worker.Idle? && c.rxq != []
    case Begin => c.worker.Got? && !c.draining
    case CountRx => if c.draining then c.worker.Got? else c.worker.Busy?
    case Answer(trailer, body) =>
      c.worker.Noted? && |trailer| == TELEMETRY_SIZE && |body| <= MAX_BODY && IsStatusBody(body)
    case Finish => c.worker.Answered?
    case PutResp => c.worker.Ready?
    case Drain => c.worker.Idle? && !c.draining
    case Exit => c.worker.Idle? && c.draining && c.rxq == []
    case GetResp => c.writer.Free? && c.txq != []
    case SendOk => c.writer.Holding?
    case SendFail => c.writer.Holding?
    case CountTx => c.writer.Sent?
  }

  /** After the answer is made: the main loop still has `processing` to uncount, the draining loop does not. */
  function Made(c: Conn, resp: Option<bytes>): Worker
  {
    if c.draining then Ready(resp) else Answered(resp)
  }

  function Local(telemetry: bool, c: Conn, a: Action): Conn
    requires Enabled(c, a)
  {
    match a
    case Recv(data) =>
      var buf := c.buf + data;
      if |buf| > BUF_LIMIT then c.(buf := buf, stream := c.stream + data, reader := Hung)
      else
        var p := PopPdus(buf);
        c.(buf := p.rest, stream := c.stream + data, reader := Putting(p.frames))
    case PutFrame =>
      var fs := c.reader.frames;
      if fs == [] then c.(reader := Reading)
      else c.(reader := Putting(fs[1..]), rxq := c.rxq + [fs[0]], log := c.log + [fs[0]])
    case Hangup => c.(reader := Hung)
    case GetRaw => c.(rxq := c.rxq[1..], worker := Got(c.rxq[0]))
    case Begin => c.(worker := Busy(c.worker.raw))
    case CountRx =>
      var raw := c.worker.raw;
      if IsRequest(raw) then
        c.(worker := Noted(raw),
           echoRx := c.echoRx + (if IsEcho(raw) then 1 else 0), statusRx := c.statusRx + (if IsEcho(raw) then 0 else 1))
      else c.(worker := Made(c, None))
    case Answer(trailer, body) =>
      c.(worker := Made(c, DispatchBinary(c.worker.raw, if telemetry then Some(trailer) else None, Some(body))))
    case Finish => c.(worker := Ready(c.worker.resp))
    case PutResp =>
      var resp := c.worker.resp;
      c.(worker := Idle, txq := if resp.Some? && resp.value != [] then c.txq + [resp.value] else c.txq)
    case Drain => c.(draining := true)
    case Exit => c.(worker := Finished)
    case GetResp => c.(txq := c.txq[1..], writer := Holding(c.txq[0]))
    case SendOk => c.(writer := Sent(c.writer.resp), written := c.written + [c.writer.resp])
    case SendFail => c.(writer := Failed(c.writer.resp))
    case CountTx => c.(writer := Free, echoTx := c.echoTx + if IsEcho(c.writer.resp) then 1 else 0)
  }

  function Apply(s: Server, i: nat, a: Action): Server
    requires i < |s.conns| && Enabled(s.conns[i], a)
  {
    var c := s.conns[i];
    var c' := Local(s.telemetry, c, a);
    s.(conns := s.conns[i := c'],
       echoRx := s.echoRx + (if a.CountRx? && IsRequest(c.worker.raw) && IsEcho(c.worker.raw) then 1 else 0),
       statusRx := s.statusRx + (if a.CountRx? && IsRequest(c.worker.raw) && !IsEcho(c.worker.raw) then 1 else 0),
       echoTx := s.echoTx + (if a.CountTx? && IsEcho(c.writer.resp) then 1 else 0),
       processing := if a.Begin? then s.processing + 1
                     else if a.Finish? then Max(0, s.processing - 1)
                     else s.processing)
  }

  // ----- what a connection keeps: its responses are the answers to its requests, in order -----

  /** The frames that get an answer. */
  function Answerable(frames: seq<bytes>): seq<bytes>
  {
    if frames == [] then []
    else (if IsRequest(frames[0]) then [frames[0]] else []) + Answerable(frames[1..])
  }

  lemma {:induction false} AnswerableSum(a: seq<bytes>, b: seq<bytes>)
    ensures Answerable(a + b) == Answerable(a) + Answerable(b)
    decreases |a|
  {
    if a == [] {
      assert a + b == b;
    } else {
      assert (a + b)[1..] == a[1..] + b;
      AnswerableSum(a[1..], b);
    }
  }

  function Pending(r: Reader): seq<bytes>
  {
    if r.Putting? then r.frames else []
  }

  /** Answers made and not yet handed to the socket, oldest first. */
  function Unsent(c: Conn): seq<bytes>
  {
    (match c.writer case Holding(r) => [r] case Failed(r) => [r] case _ => []) + c.txq +
    (match c.worker
     case Answered(r) => (if r.Some? then [r.value] else [])
     case Ready(r) => (if r.Some? then [r.value] else [])
     case _ => [])
  }

  /** Frames read and not yet answered, oldest first. */
  function Unanswered(c: Conn): seq<bytes>
  {
    (match c.worker case Got(r) => [r] case Busy(r) => [r] case Noted(r) => [r] case _ => []) + c.rxq
  }

  /** Every response, sent or on its way, in order. */
  function Responses(c: Conn): seq<bytes>
  {
    c.written + Unsent(c)
  }

  ghost predicate AllAnswers(telemetry: bool, reqs: seq<bytes>, resps: seq<bytes>)
  {
    |resps| <= |reqs| && forall k :: 0 <= k < |resps| ==> IsAnswer(telemetry, reqs[k], resps[k]) && resps[k] != []
  }

  /** The frames put on the queue, with those popped and waiting, are what the byte stream holds. */
  ghost predicate ReaderInv(c: Conn)
  {
    PopPdus(c.stream) == Popped(c.log + Pending(c.reader), c.buf)
  }

  /** The responses so far answer the first requests read, in order, and the rest are still to be answered. */
  ghost predicate OrderInv(telemetry: bool, c: Conn)
  {
    var reqs, resps := Answerable(c.log), Responses(c);
    && AllAnswers(telemetry, reqs, resps)
    && reqs[|resps|..] == Answerable(Unanswered(c))
    && (c.worker.Noted? ==> IsRequest(c.worker.raw))
  }

  function EchoCount(frames: seq<bytes>): nat
  {
    if frames == [] then 0 else EchoCount(frames[..|frames| - 1]) + if IsEcho(frames[|frames| - 1]) then 1 else 0
  }

  ghost predicate CountInv(c: Conn)
  {
    && |Responses(c)| <= |Answerable(c.log)|
    && c.echoRx ==
         EchoCount(Answerable(c.log)[..|Responses(c)|]) + (if c.worker.Noted? && IsEcho(c.worker.raw) then 1 else 0)
    && c.echoRx + c.statusRx == |Responses(c)| + (if c.worker.Noted? then 1 else 0)
    && c.echoTx + (if c.writer.Sent? && IsEcho(c.writer.resp) then 1 else 0) == EchoCount(c.written)
    && (c.writer.Sent? ==> c.written != [] && c.written[|c.written| - 1] == c.writer.resp)
  }

  ghost predicate ConnInv(telemetry: bool, c: Conn)
  {
    ReaderInv(c) && OrderInv(telemetry, c) && CountInv(c)
  }

  // ----- each step keeps it -----

  /** Steps that neither read a frame, nor answer one, nor drop one. */
  predicate Shuffles(a: Action)
  {
    !a.PutFrame? && !a.CountRx? && !a.Answer?
  }

  lemma PutRespKeeps(telemetry: bool, c: Conn)
    requires Enabled(c, PutResp) && OrderInv(telemetry, c)
    ensures Unsent(Local(telemetry, c, PutResp)) == Unsent(c)
  {
    hide IsAnswer, IsRequest, IsEcho, PopPdus, Answerable, Unanswered;
    if c.worker.resp.Some? {
      var resps := Responses(c);
      assert resps[|resps| - 1] == c.worker.resp.value;
    }
  }

  lemma GetRespKeeps(telemetry: bool, c: Conn)
    requires Enabled(c, GetResp)
    ensures Unsent(Local(telemetry, c, GetResp)) == Unsent(c)
  {
    assert c.txq == [c.txq[0]] + c.txq[1..];
  }

  lemma SendOkKeeps(telemetry: bool, c: Conn)
    requires Enabled(c, SendOk)
    ensures Responses(Local(telemetry, c, SendOk)) == Responses(c)
  {
    var later := Unsent(Local(telemetry, c, SendOk));
    assert Unsent(c) == [c.writer.resp] + later;
    assert c.written + ([c.writer.resp] + later) == c.written + [c.writer.resp] + later;
  }

  lemma ShufflesKeep(telemetry: bool, c: Conn, a: Action)
    requires Enabled(c, a) && Shuffles(a) && OrderInv(telemetry, c)
    ensures var c' := Local(telemetry, c, a);
            c'.log == c.log && Responses(c') == Responses(c) && Unanswered(c') == Unanswered(c)
  {
    hide IsAnswer, IsRequest, IsEcho, PopPdus, Answerable, AllAnswers, OrderInv;
    match a
    case PutResp => PutRespKeeps(telemetry, c);
    case GetResp => GetRespKeeps(telemetry, c);
    case SendOk => SendOkKeeps(telemetry, c);
    case GetRaw => assert c.rxq == [c.rxq[0]] + c.rxq[1..];
    case _ =>
  }

  lemma PutFrameKeeps(telemetry: bool, c: Conn)
    requires c.reader.Putting? && OrderInv(telemetry, c)
    ensures OrderInv(telemetry, Local(telemetry, c, PutFrame))
    ensures var c' := Local(telemetry, c, PutFrame);
            && Responses(c') == Responses(c)
            && Answerable(c.log) <= Answerable(c'.log)
  {
    hide IsAnswer, IsRequest, IsEcho, Answerable;
    var c' := Local(telemetry, c, PutFrame);
    if c.reader.frames != [] {
      var f := [c.reader.frames[0]];
      AnswerableSum(c.log, f);
      AnswerableSum(Unanswered(c), f);
      assert Unanswered(c') == Unanswered(c) + f;
    }
  }

  lemma AnswerableFirst(raw: bytes, rest: seq<bytes>)
    ensures Answerable([raw] + rest) == (if IsRequest(raw) then [raw] else []) + Answerable(rest)
  {
    assert ([raw] + rest)[1..] == rest;
  }

  lemma CountRxKeeps(telemetry: bool, c: Conn)
    requires Enabled(c, CountRx) && OrderInv(telemetry, c)
    ensures OrderInv(telemetry, Local(telemetry, c, CountRx))
    ensures var c' := Local(telemetry, c, CountRx);
            c'.log == c.log && Responses(c') == Responses(c)
  {
    hide IsAnswer, IsRequest, IsEcho, Answerable;
    AnswerableFirst(c.worker.raw, c.rxq);
    assert Unanswered(c) == [c.worker.raw] + c.rxq;
    var c' := Local(telemetry, c, CountRx);
    if !IsRequest(c.worker.raw) { assert Unanswered(c') == c.rxq; }
  }

  /** Answering the request in hand adds its answer to the responses and takes it off the unanswered frames. */
  lemma AnswerKeeps(telemetry: bool, c: Conn, trailer: bytes, body: bytes)
    requires Enabled(c, Answer(trailer, body)) && OrderInv(telemetry, c)
    ensures var c' := Local(telemetry, c, Answer(trailer, body));
            && OrderInv(telemetry, c')
            && c'.log == c.log && |Responses(c')| == |Responses(c)| + 1 <= |Answerable(c.log)|
            && Answerable(c.log)[|Responses(c)|] == c.worker.raw
  {
    hide IsAnswer, IsRequest, IsEcho, Answerable, DispatchBinary, IsStatusBody;
    var raw := c.worker.raw;
    var c' := Local(telemetry, c, Answer(trailer, body));
    AnswerExists(telemetry, raw, trailer, body);
    var answer := DispatchBinary(raw, if telemetry then Some(trailer) else None, Some(body)).value;
    AnswerableFirst(raw, c.rxq);
    assert Unanswered(c) == [raw] + c.rxq && Unanswered(c') == c.rxq;
    assert Unsent(c') == Unsent(c) + [answer];
    assert Responses(c') == Responses(c) + [answer];
    AnsweredNext(telemetry, Answerable(c.log), Responses(c), raw, answer, Answerable(c.rxq));
  }

  lemma AnsweredNext(telemetry: bool, reqs: seq<bytes>, resps: seq<bytes>, raw: bytes, answer: bytes, rest: seq<bytes>)
    requires AllAnswers(telemetry, reqs, resps) && reqs[|resps|..] == [raw] + rest
    requires IsAnswer(telemetry, raw, answer) && answer != []
    ensures AllAnswers(telemetry, reqs, resps + [answer]) && reqs[|resps| + 1..] == rest && reqs[|resps|] == raw
  {
    hide IsAnswer;
    assert reqs[|resps|] == reqs[|resps|..][0];
    assert reqs[|resps| + 1..] == reqs[|resps|..][1..];
  }

  lemma OrderKept(telemetry: bool, c: Conn, a: Action)
    requires Enabled(c, a) && OrderInv(telemetry, c)
    ensures OrderInv(telemetry, Local(telemetry, c, a))
  {
    hide IsAnswer, IsRequest, IsEcho, Answerable, DispatchBinary, IsStatusBody, PopPdus;
    match a
    case PutFrame => PutFrameKeeps(telemetry, c);
    case CountRx => CountRxKeeps(telemetry, c);
    case Answer(trailer, body) => AnswerKeeps(telemetry, c, trailer, body);
    case _ => ShufflesKeep(telemetry, c, a);
  }

  lemma ReaderKept(telemetry: bool, c: Conn, a: Action)
    requires Enabled(c, a) && ReaderInv(c)
    ensures ReaderInv(Local(telemetry, c, a))
    ensures a.Recv? ==> |c.buf + a.data| <= BUF_LIMIT
  {
    hide IsAnswer, IsRequest, IsEcho, Answerable, DispatchBinary, IsStatusBody, PopPdus, IsPdu, Incomplete;
    if a.Recv? {
      RestBound(c.stream);
      PopInTwo(c.stream, a.data);
      var p := PopPdus(c.buf + a.data);
      assert c.log + [] == c.log;
    } else if a.PutFrame? && c.reader.frames != [] {
      var fs := c.reader.frames;
      assert c.log + [fs[0]] + fs[1..] == c.log + fs;
    }
  }

  lemma EchoCountOne(frames: seq<bytes>, raw: bytes)
    ensures EchoCount(frames + [raw]) == EchoCount(frames) + if IsEcho(raw) then 1 else 0
  {
    assert (frames + [raw])[..|frames|] == frames;
  }

  lemma CountKept(telemetry: bool, c: Conn, a: Action)
    requires Enabled(c, a) && OrderInv(telemetry, c) && CountInv(c)
    ensures CountInv(Local(telemetry, c, a))
  {
    hide IsAnswer, IsRequest, IsEcho, Answerable, DispatchBinary, IsStatusBody, PopPdus, AllAnswers, Responses,
      Unanswered, EchoCount;
    var c' := Local(telemetry, c, a);
    var reqs, n := Answerable(c.log), |Responses(c)|;
    match a
    case PutFrame =>
      PutFrameKeeps(telemetry, c);
      assert Answerable(c'.log)[..n] == reqs[..n];
    case CountRx => CountRxKeeps(telemetry, c);
    case Answer(trailer, body) =>
      AnswerKeeps(telemetry, c, trailer, body);
      EchoCountOne(reqs[..n], c.worker.raw);
      assert reqs[..n] + [c.worker.raw] == reqs[..n + 1];
    case SendOk =>
      ShufflesKeep(telemetry, c, a);
      EchoCountOne(c.written, c.writer.resp);
    case _ => ShufflesKeep(telemetry, c, a);
  }

  lemma ConnKept(telemetry: bool, c: Conn, a: Action)
    requires Enabled(c, a) && ConnInv(telemetry, c)
    ensures ConnInv(telemetry, Local(telemetry, c, a))
  {
    hide ReaderInv, OrderInv, CountInv, Local;
    ReaderKept(telemetry, c, a);
    OrderKept(telemetry, c, a);
    CountKept(telemetry, c, a);
  }
}
