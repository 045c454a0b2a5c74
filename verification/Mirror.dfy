/**
 The timeline end to end: what the server counted, sent in STATUS bodies, laid into the client's
 series, and read back there (make_snapshot, _apply_status).
 */
module Mirror {
  import opened Wrappers
  import opened Wire
  import opened Protocol
  import opened StatusBody
  import opened Answers
  import opened Timing

  /** One STATUS payload, and the client's slice when it was applied. */
  datatype Applied = Applied(sid: int, payload: bytes)

  /** The client keeps one series for the requests the server received and one for its responses. */
  function Slices(snap: StatusSnapshot, responses: bool): seq<int>
  {
    if responses then snap.respSlices else snap.recvSlices
  }

  /** One of the client's two series after some STATUS payloads; a body that does not decode changes nothing. */
  function ClientAfter(applied: seq<Applied>, keep: nat, responses: bool): Counts
    decreases |applied|
  {
    if applied == [] then map[]
    else
      var counts := ClientAfter(applied[..|applied| - 1], keep, responses);
      var last := applied[|applied| - 1];
      match DecodeStatusBody(last.payload)
      case None => counts
      case Some(snap) => Replaced(counts, keep, last.sid, Slices(snap, responses))
  }

  /** The clock never runs back: no payload was applied at a slice later than `now`. */
  predicate NotAfter(applied: seq<Applied>, now: int)
  {
    forall i :: 0 <= i < |applied| ==> applied[i].sid <= now
  }

  /** So the client's series never holds a slice newer than now. */
  lemma {:induction false} ClientNotAhead(applied: seq<Applied>, keep: nat, responses: bool, now: int)
    requires NotAfter(applied, now)
    ensures NothingNewer(ClientAfter(applied, keep, responses), now)
    decreases |applied|
  {
    if applied != [] {
      var init, last := applied[..|applied| - 1], applied[|applied| - 1];
      ClientNotAhead(init, keep, responses, now);
      match DecodeStatusBody(last.payload)
      case None =>
      case Some(snap) =>
        ReplacedNotAhead(ClientAfter(init, keep, responses), keep, last.sid, Slices(snap, responses), now);
    }
  }

  lemma ReplacedNotAhead(counts: Counts, keep: nat, newest: int, values: seq<int>, now: int)
    requires NothingNewer(counts, now) && newest <= now
    ensures NothingNewer(Replaced(counts, keep, newest, values), now)
  {
    var after := Replaced(counts, keep, newest, values);
    forall k | k in after ensures k <= now { OverlayAt(newest, values, k); }
  }

  /**
   Whatever came before, once a STATUS body is applied the client shows the server's window with each
   count capped at 65535, for as many slices as both keep; d slices later, with no newer STATUS, it
   shows it shifted right behind d zeros. Bytes after the body do not matter.
   */
  lemma WindowIsMirrored(before: seq<Applied>, snap: StatusSnapshot, window: nat, tail: bytes,
                         keep: nat, responses: bool, newest: int, d: nat, m: nat)
    requires StatusInRange(snap, window) && |Slices(snap, responses)| == window
    requires NotAfter(before, newest) && m <= window && m <= keep + 1
    ensures var last := Applied(newest, EncodeStatusBody(snap, window) + tail);
            var counts := ClientAfter(before + [last], keep, responses);
            NewestFirst(counts, newest + d, d + m) == Zeros(d) + Capped(Slices(snap, responses))[..m]
  {
    var last := Applied(newest, EncodeStatusBody(snap, window) + tail);
    assert (before + [last])[..|before|] == before;
    StatusRoundTrip(snap, window, tail);
    ClientNotAhead(before, keep, responses, newest);
    MirrorShifts(ClientAfter(before, keep, responses), keep, newest, Capped(Slices(snap, responses)), d, m);
  }

  /** What the client applies when the server's answer to a STATUS request arrives. */
  function Arriving(req: bytes, telemetry: Option<bytes>, body: bytes): Option<bytes>
    requires (telemetry.Some? ==> |telemetry.value| <= MAX_BODY) && |body| <= MAX_BODY
  {
    match DispatchBinary(req, telemetry, Some(body))
    case None => None
    case Some(resp) => if DecodePdu(resp).None? then None else Some(DecodePdu(resp).value.payload)
  }

  predicate IsStatusRequest(raw: bytes)
  {
    IsRequest(raw) && DecodePdu(raw).value.mtype == STATUS
  }

  /** The same, for the body as it arrives in the server's answer to any STATUS request. */
  lemma AnswerIsMirrored(before: seq<Applied>, req: bytes, telemetry: Option<bytes>, snap: StatusSnapshot, window: nat,
                         keep: nat, responses: bool, newest: int, d: nat, m: nat)
    requires IsStatusRequest(req) && (telemetry.Some? ==> |telemetry.value| <= MAX_BODY)
    requires StatusInRange(snap, window) && |Slices(snap, responses)| == window
    requires NotAfter(before, newest) && m <= window && m <= keep + 1
    ensures |EncodeStatusBody(snap, window)| <= MAX_BODY
    ensures var arriving := Arriving(req, telemetry, EncodeStatusBody(snap, window));
            && arriving.Some?
            && var counts := ClientAfter(before + [Applied(newest, arriving.value)], keep, responses);
               NewestFirst(counts, newest + d, d + m) == Zeros(d) + Capped(Slices(snap, responses))[..m]
  {
    hide DecodePdu, ClientAfter, NewestFirst;
    var body := EncodeStatusBody(snap, window);
    assert |body| <= MAX_BODY by { BodyFits(snap, window); }
    hide EncodeStatusBody, DispatchBinary;
    StatusAnswerCarries(req, telemetry, body);
    WindowIsMirrored(before, snap, window, [], keep, responses, newest, d, m);
    assert body + [] == body;
  }

  lemma BodyFits(snap: StatusSnapshot, window: nat)
    requires StatusInRange(snap, window)
    ensures |EncodeStatusBody(snap, window)| <= MAX_BODY
  {
  }

  /**
   From what was ever counted to what is shown: if the server's series, resized or not, still covers the window it
   sends in an answer, slice d + i of the client's view is the true number counted for the server's slice sid - i,
   capped.
   */
  lemma CountedIsShown(events: seq<Event>, serverKeep: nat, sid: int, window: nat, snap: StatusSnapshot,
                       req: bytes, telemetry: Option<bytes>,
                       before: seq<Applied>, keep: nat, responses: bool, newest: int, d: nat, m: nat)
    requires IsStatusRequest(req) && (telemetry.Some? ==> |telemetry.value| <= MAX_BODY)
    requires Slices(snap, responses) == NewestFirst(CacheAfter(events, serverKeep), sid, window)
    requires StatusInRange(snap, window)
    requires window == 0 || WithinHorizon(events, serverKeep, sid - window + 1)
    requires NotAfter(before, newest) && m <= window && m <= keep + 1
    ensures |EncodeStatusBody(snap, window)| <= MAX_BODY
    ensures var arriving := Arriving(req, telemetry, EncodeStatusBody(snap, window));
            && arriving.Some?
            && var counts := ClientAfter(before + [Applied(newest, arriving.value)], keep, responses);
               var shown := NewestFirst(counts, newest + d, d + m);
               && (forall i :: 0 <= i < d ==> shown[i] == 0)
               && (forall j :: d <= j < d + m ==> shown[j] == Min(Total(events, sid - (j - d)), 0xFFFF))
  {
    hide EncodeStatusBody, ClientAfter, CacheAfter, Total, WithinHorizon, Arriving;
    AnswerIsMirrored(before, req, telemetry, snap, window, keep, responses, newest, d, m);
    WindowExact(events, serverKeep, sid, window);
    var arriving := Arriving(req, telemetry, EncodeStatusBody(snap, window)).value;
    var shown := NewestFirst(ClientAfter(before + [Applied(newest, arriving)], keep, responses), newest + d, d + m);
    assert shown == Zeros(d) + Capped(Slices(snap, responses))[..m];
    forall j | d <= j < d + m ensures shown[j] == Min(Total(events, sid - (j - d)), 0xFFFF) {
      assert shown[j] == Capped(Slices(snap, responses))[j - d];
    }
  }

  /** A series that keeps twice its window covers every window that ends near its newest slice. */
  lemma WindowAlwaysCovered(events: seq<Event>, window: nat, sid: int, newestCounted: int)
    requires FixedKeep(events, newestCounted) && sid >= newestCounted - window - 1
    ensures WithinHorizon(events, 2 * window, sid - window + 1)
  {
    HorizonOfFixedKeep(events, 2 * window, newestCounted, sid - window + 1);
  }
}
