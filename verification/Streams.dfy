/**
 Cutting a TCP byte stream into PDUs (pop_pdus, src/protocol.py:307-323): what it returns, that it
 does not depend on how the stream was chunked, and how far its buffer can grow.
 */
module Streams {
  import opened Wire
  import opened Protocol

  const MAX_INNER := MAX_BODY + INNER_HDR_SIZE
  const MAX_REST := LEN_SIZE + MAX_INNER - 1

  datatype Popped = Popped(frames: seq<bytes>, rest: bytes)

  /** The length field at the front of a buffer. */
  function Total(buf: bytes): nat
    requires |buf| >= LEN_SIZE
  {
    UnpackInt(buf[..LEN_SIZE])
  }

  /** Nothing more can be cut off: the length field or the body is still incomplete. */
  predicate Incomplete(buf: bytes)
  {
    |buf| < LEN_SIZE || (Total(buf) <= MAX_INNER && |buf| < LEN_SIZE + Total(buf))
  }

  function PopPdus(buf: bytes): (p: Popped)
    ensures Incomplete(p.rest)
    decreases |buf|
  {
    if |buf| < LEN_SIZE then Popped([], buf)
    else if Total(buf) > MAX_INNER then PopPdus(buf[1..])
    else if |buf| < LEN_SIZE + Total(buf) then Popped([], buf)
    else
      var need := LEN_SIZE + Total(buf);
      var p := PopPdus(buf[need..]);
      Popped([buf[..need]] + p.frames, p.rest)
  }

  method PopPdusLoop(stream: bytes) returns (out: seq<bytes>, buf: bytes)
    ensures Popped(out, buf) == PopPdus(stream)
  {
    out, buf := [], stream;
    while true
      invariant PopPdus(stream) == Popped(out + PopPdus(buf).frames, PopPdus(buf).rest)
      decreases |buf|
    {
      if |buf| < LEN_SIZE { break; }
      var total := Total(buf);
      if total > MAX_INNER {
        buf := buf[1..];
        continue;
      }
      var need := LEN_SIZE + total;
      if |buf| < need { break; }
      out, buf := out + [buf[..need]], buf[need..];
    }
  }

  // ----- what was returned, as a segmentation of the input -----

  /** A cut-off PDU, or one byte skipped while looking for a plausible length. */
  datatype Piece = Pdu(raw: bytes) | Skipped(b: byte)

  function PieceBytes(p: Piece): bytes
  {
    match p
    case Pdu(raw) => raw
    case Skipped(b) => [b]
  }

  function Flatten(pieces: seq<Piece>): bytes
  {
    if pieces == [] then [] else PieceBytes(pieces[0]) + Flatten(pieces[1..])
  }

  function PdusOf(pieces: seq<Piece>): seq<bytes>
  {
    if pieces == [] then []
    else (if pieces[0].Pdu? then [pieces[0].raw] else []) + PdusOf(pieces[1..])
  }

  predicate IsPdu(raw: bytes)
  {
    |raw| >= LEN_SIZE && Total(raw) <= MAX_INNER && |raw| == LEN_SIZE + Total(raw)
  }

  /** Each PDU has the length it announces; each skipped byte starts an over-limit length; the rest is incomplete. */
  predicate Legal(pieces: seq<Piece>, rest: bytes)
  {
    if pieces == [] then Incomplete(rest)
    else
      && Legal(pieces[1..], rest)
      && match pieces[0]
         case Pdu(raw) => IsPdu(raw)
         case Skipped(b) =>
           var tail := [b] + Flatten(pieces[1..]) + rest;
           |tail| >= LEN_SIZE && Total(tail) > MAX_INNER
  }

  lemma PopOne(raw: bytes, tail: bytes)
    requires IsPdu(raw)
    ensures PopPdus(raw + tail) == Popped([raw] + PopPdus(tail).frames, PopPdus(tail).rest)
  {
    var buf := raw + tail;
    assert buf[..LEN_SIZE] == raw[..LEN_SIZE];
    assert buf[..|raw|] == raw && buf[|raw|..] == tail;
  }

  /** A legal segmentation of a stream is the one that pop_pdus returns: there is no other. */
  lemma {:induction false} SegmentationIsPopped(pieces: seq<Piece>, rest: bytes)
    requires Legal(pieces, rest)
    ensures PopPdus(Flatten(pieces) + rest) == Popped(PdusOf(pieces), rest)
  {
    var buf := Flatten(pieces) + rest;
    if pieces == [] {
      assert buf == rest;
    } else {
      SegmentationIsPopped(pieces[1..], rest);
      var tail := Flatten(pieces[1..]) + rest;
      match pieces[0]
      case Pdu(raw) =>
        assert buf == raw + tail;
        PopOne(raw, tail);
      case Skipped(b) =>
        assert buf == [b] + Flatten(pieces[1..]) + rest;
        assert buf[1..] == tail;
    }
  }

  /** Every byte of every input is accounted for: it is in one PDU, in order, or skipped, or kept. */
  lemma {:induction false} EveryByteAccounted(buf: bytes) returns (pieces: seq<Piece>)
    ensures Legal(pieces, PopPdus(buf).rest)
    ensures Flatten(pieces) + PopPdus(buf).rest == buf
    ensures PdusOf(pieces) == PopPdus(buf).frames
    decreases |buf|
  {
    if Incomplete(buf) {
      pieces := [];
    } else if Total(buf) > MAX_INNER {
      var later := EveryByteAccounted(buf[1..]);
      pieces := AddSkipped(buf, later, PopPdus(buf).rest);
    } else {
      var need := LEN_SIZE + Total(buf);
      var later := EveryByteAccounted(buf[need..]);
      assert buf[..need][..LEN_SIZE] == buf[..LEN_SIZE];
      assert buf == buf[..need] + buf[need..];
      pieces := AddPdu(buf[..need], later, PopPdus(buf).rest);
    }
  }

  lemma AddPdu(raw: bytes, later: seq<Piece>, rest: bytes) returns (pieces: seq<Piece>)
    requires IsPdu(raw) && Legal(later, rest)
    ensures Legal(pieces, rest) && Flatten(pieces) + rest == raw + (Flatten(later) + rest)
    ensures PdusOf(pieces) == [raw] + PdusOf(later)
  {
    pieces := [Pdu(raw)] + later;
    assert pieces[1..] == later;
    assert Flatten(pieces) == raw + Flatten(later);
  }

  lemma AddSkipped(buf: bytes, later: seq<Piece>, rest: bytes) returns (pieces: seq<Piece>)
    requires |buf| >= LEN_SIZE && Total(buf) > MAX_INNER
    requires Legal(later, rest) && Flatten(later) + rest == buf[1..]
    ensures Legal(pieces, rest) && Flatten(pieces) + rest == buf && PdusOf(pieces) == PdusOf(later)
  {
    pieces := [Skipped(buf[0])] + later;
    assert pieces[1..] == later;
    assert [buf[0]] + Flatten(later) + rest == buf;
    assert Flatten(pieces) == [buf[0]] + Flatten(later);
  }

  function SkippedCount(pieces: seq<Piece>): nat
  {
    if pieces == [] then 0 else (if pieces[0].Skipped? then 1 else 0) + SkippedCount(pieces[1..])
  }

  function TotalBytes(frames: seq<bytes>): nat
  {
    if frames == [] then 0 else |frames[0]| + TotalBytes(frames[1..])
  }

  lemma {:induction false} PieceLengths(pieces: seq<Piece>)
    ensures |Flatten(pieces)| == TotalBytes(PdusOf(pieces)) + SkippedCount(pieces)
  {
    if pieces != [] {
      PieceLengths(pieces[1..]);
      if pieces[0].Pdu? {
        assert PdusOf(pieces)[1..] == PdusOf(pieces[1..]);
      } else {
        assert PdusOf(pieces) == PdusOf(pieces[1..]);
      }
    }
  }

  /** Bytes in = bytes of PDUs out + bytes skipped + bytes kept. */
  lemma BytesConserved(buf: bytes) returns (pieces: seq<Piece>)
    ensures Legal(pieces, PopPdus(buf).rest) && PdusOf(pieces) == PopPdus(buf).frames
    ensures |buf| == TotalBytes(PopPdus(buf).frames) + SkippedCount(pieces) + |PopPdus(buf).rest|
  {
    pieces := EveryByteAccounted(buf);
    PieceLengths(pieces);
  }

  // ----- round trip -----

  function Wrapped(inners: seq<bytes>): seq<Piece>
    requires forall i :: 0 <= i < |inners| ==> |inners[i]| <= MAX_INNER
  {
    if inners == [] then [] else [Pdu(WrapPdu(inners[0]))] + Wrapped(inners[1..])
  }

  /** A wrapped PDU is one the parser will cut off exactly if it is within the limit. */
  lemma WrapIsPdu(inner: bytes)
    requires |inner| < U32
    ensures IsPdu(WrapPdu(inner)) <==> |inner| <= MAX_INNER
  {
    Widths();
    UnpackPackInt(LEN_SIZE, |inner|);
    assert WrapPdu(inner)[..LEN_SIZE] == PackInt(LEN_SIZE, |inner|);
  }

  lemma {:induction false} WrappedLegal(inners: seq<bytes>, rest: bytes)
    requires forall i :: 0 <= i < |inners| ==> |inners[i]| <= MAX_INNER
    requires Incomplete(rest)
    ensures Legal(Wrapped(inners), rest)
    ensures |PdusOf(Wrapped(inners))| == |inners|
    ensures forall i :: 0 <= i < |inners| ==> PdusOf(Wrapped(inners))[i] == WrapPdu(inners[i])
  {
    if inners != [] {
      WrapIsPdu(inners[0]);
      WrappedLegal(inners[1..], rest);
      assert Wrapped(inners)[1..] == Wrapped(inners[1..]);
    }
  }

  /** Any run of encoded PDUs, then part of another, comes back as exactly those PDUs and that part. */
  lemma StreamRoundTrip(inners: seq<bytes>, next: bytes, k: nat)
    requires forall i :: 0 <= i < |inners| ==> |inners[i]| <= MAX_INNER
    requires |next| <= MAX_INNER && k < LEN_SIZE + |next|
    ensures var p := PopPdus(Flatten(Wrapped(inners)) + WrapPdu(next)[..k]);
            && p.rest == WrapPdu(next)[..k]
            && |p.frames| == |inners|
            && forall i :: 0 <= i < |inners| ==> p.frames[i] == WrapPdu(inners[i])
  {
    var rest := WrapPdu(next)[..k];
    WrapIsPdu(next);
    if k >= LEN_SIZE { assert rest[..LEN_SIZE] == WrapPdu(next)[..LEN_SIZE]; }
    WrappedLegal(inners, rest);
    SegmentationIsPopped(Wrapped(inners), rest);
  }

  // ----- chunking -----

  /** Popping early loses nothing: the rest, with what arrives later, gives what the whole would have. */
  lemma {:induction false} PopInTwo(a: bytes, b: bytes)
    ensures PopPdus(a + b) ==
      Popped(PopPdus(a).frames + PopPdus(PopPdus(a).rest + b).frames, PopPdus(PopPdus(a).rest + b).rest)
    decreases |a|
  {
    hide UnpackInt, Incomplete;
    if |a| >= LEN_SIZE {
      assert (a + b)[..LEN_SIZE] == a[..LEN_SIZE];
      if Total(a) > MAX_INNER {
        PopInTwo(a[1..], b);
        assert (a + b)[1..] == a[1..] + b;
      } else if |a| >= LEN_SIZE + Total(a) {
        var need := LEN_SIZE + Total(a);
        PopInTwo(a[need..], b);
        assert (a + b)[need..] == a[need..] + b;
        assert (a + b)[..need] == a[..need];
      }
    }
  }

  function Concat(chunks: seq<bytes>): bytes
  {
    if chunks == [] then [] else chunks[0] + Concat(chunks[1..])
  }

  /** The read loop: append a chunk, pop what is complete, keep the rest. */
  function Feed(buf: bytes, chunks: seq<bytes>): Popped
    decreases |chunks|
  {
    if chunks == [] then Popped([], buf)
    else
      var p := PopPdus(buf + chunks[0]);
      var q := Feed(p.rest, chunks[1..]);
      Popped(p.frames + q.frames, q.rest)
  }

  lemma {:induction false} FeedIsPop(buf: bytes, chunks: seq<bytes>)
    requires Incomplete(buf)
    ensures Feed(buf, chunks) == PopPdus(buf + Concat(chunks))
    decreases |chunks|
  {
    if chunks == [] {
      assert buf + [] == buf;
    } else {
      FeedIsPop(PopPdus(buf + chunks[0]).rest, chunks[1..]);
      PopInTwo(buf + chunks[0], Concat(chunks[1..]));
      ConcatAssoc(buf, chunks[0], Concat(chunks[1..]));
    }
  }

  /** Any two ways of chunking one byte stream give the same PDUs and leave the same rest. */
  lemma ChunkingIndependence(a: seq<bytes>, b: seq<bytes>)
    requires Concat(a) == Concat(b)
    ensures Feed([], a) == Feed([], b) == PopPdus(Concat(a))
  {
    FeedIsPop([], a);
    FeedIsPop([], b);
    assert [] + Concat(a) == Concat(a);
  }

  /** The buffer kept between reads never exceeds the longest PDU less a byte. */
  lemma RestBound(stream: bytes)
    ensures |PopPdus(stream).rest| <= MAX_REST == 1_048_605
  {
  }

  /** The bound is tight: the longest PDU less its last byte is kept whole. */
  lemma RestBoundIsReached() returns (stream: bytes)
    ensures |PopPdus(stream).rest| == MAX_REST
  {
    var body: bytes := seq(MAX_INNER - 1, i => 0);
    stream := PackInt(LEN_SIZE, MAX_INNER) + body;
    UnpackPackInt(LEN_SIZE, MAX_INNER);
    assert stream[..LEN_SIZE] == PackInt(LEN_SIZE, MAX_INNER);
  }

  // ----- what can be cut from PDUs written one after another -----

  predicate AllPdus(pdus: set<bytes>)
  {
    forall p :: p in pdus ==> IsPdu(p)
  }

  predicate OutOf(list: seq<bytes>, pdus: set<bytes>)
  {
    forall i :: 0 <= i < |list| ==> list[i] in pdus
  }

  /** The parser finds raw in some sequence of these PDUs, each taken any number of times in any order. */
  ghost predicate CutFrom(pdus: set<bytes>, raw: bytes)
  {
    exists list: seq<bytes> :: OutOf(list, pdus) && raw in PopPdus(Concat(list)).frames
  }

  /** Whole PDUs within the limit, one after another, come back as they are and leave nothing. */
  lemma {:induction false} PopWhole(list: seq<bytes>)
    requires forall i :: 0 <= i < |list| ==> IsPdu(list[i])
    ensures PopPdus(Concat(list)) == Popped(list, [])
  {
    if list != [] {
      PopWhole(list[1..]);
      PopOne(list[0], Concat(list[1..]));
      assert list == [list[0]] + list[1..];
    }
  }

  /** A PDU that has not arrived completely. */
  lemma PartIncomplete(raw: bytes, part: bytes)
    requires IsPdu(raw) && part <= raw && part != raw
    ensures PopPdus(part) == Popped([], part)
  {
    if |part| >= LEN_SIZE { assert part[..LEN_SIZE] == raw[..LEN_SIZE]; }
  }

  /** When PDUs within the limit have arrived in part, the complete ones come back, and the rest is kept. */
  lemma {:induction false} PopPrefix(list: seq<bytes>, part: bytes)
    requires (forall i :: 0 <= i < |list| ==> IsPdu(list[i])) && part <= Concat(list)
    ensures var p := PopPdus(part);
            && p.frames <= list && Concat(p.frames) + p.rest == part
            && (|p.frames| < |list| ==> |p.rest| < |list[|p.frames|]|)
    decreases |list|
  {
    if list == [] {
      assert part == [];
    } else if |part| < |list[0]| {
      assert part <= list[0];
      PartIncomplete(list[0], part);
      assert Concat([]) + part == part;
    } else {
      var later := part[|list[0]|..];
      assert part == list[0] + later && later <= Concat(list[1..]);
      PopOne(list[0], later);
      PopPrefix(list[1..], later);
      var q := PopPdus(later);
      assert PopPdus(part).frames == [list[0]] + q.frames;
      assert ([list[0]] + q.frames)[1..] == q.frames;
      ConcatAssoc(list[0], Concat(q.frames), q.rest);
      assert list == [list[0]] + list[1..];
    }
  }

  /** Nothing but the PDUs themselves can be cut from PDUs within the limit. */
  lemma CutWhole(pdus: set<bytes>, raw: bytes)
    requires AllPdus(pdus)
    ensures CutFrom(pdus, raw) <==> raw in pdus
  {
    hide IsPdu, PopPdus;
    if CutFrom(pdus, raw) {
      var list: seq<bytes> :| OutOf(list, pdus) && raw in PopPdus(Concat(list)).frames;
      PopWhole(list);
    }
    if raw in pdus {
      PopWhole([raw]);
      CutOne(pdus, [raw], raw);
    }
  }

  lemma CutOne(pdus: set<bytes>, list: seq<bytes>, raw: bytes)
    requires OutOf(list, pdus) && raw in PopPdus(Concat(list)).frames
    ensures CutFrom(pdus, raw)
  {
  }

  lemma CutGrows(pdus: set<bytes>, more: set<bytes>, raw: bytes)
    requires pdus <= more && CutFrom(pdus, raw)
    ensures CutFrom(more, raw)
  {
    hide PopPdus;
    var list: seq<bytes> :| OutOf(list, pdus) && raw in PopPdus(Concat(list)).frames;
    CutOne(more, list, raw);
  }
}
