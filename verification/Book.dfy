/** The in-flight book (src/traffic/book.py): each operation as a function on the book's value, and the class itself. */
module Book {
  import opened Wrappers
  import opened Wire
  import opened Protocol
  import opened OrderedDict

  datatype Pending = Pending(
    seqNo: nat, mtype: nat, createMono: int, sendMono: Option<int>, raw: bytes, trackLoss: bool)

  /** What take answers; an accepted item comes with the answer. */
  datatype Verdict = Ok(item: Pending) | Late(item: Pending) | Duplicate | Unknown
  {
    predicate Accepted() { Ok? || Late? }
  }

  datatype BookState = BookState(
    timeoutNs: int, remember: nat,
    open: Dict<Pending>, lostSeqs: Dict<Pending>, seenAcks: seq<nat>,
    lost: int, unsent: int, duplicates: int, reorder: int, expectNext: int)

  function NewBook(timeoutNs: int, remember: nat): BookState
  {
    BookState(timeoutNs, remember, Dict([], map[]), Dict([], map[]), [], 0, 0, 0, 0, 1)
  }

  ghost predicate WellFormed(b: BookState)
  {
    b.open.Ok() && b.lostSeqs.Ok() && NoDup(b.seenAcks)
  }

  function AddItem(b: BookState, item: Pending): BookState
  {
    b.(open := b.open.Put(item.seqNo, item))
  }

  function MarkSent(b: BookState, seqNo: nat, sendMono: int): BookState
  {
    if seqNo in b.open.vals then
      b.(open := b.open.Put(seqNo, b.open.vals[seqNo].(sendMono := Some(sendMono))))
    else b
  }

  function DropUnsent(b: BookState, seqNo: nat): BookState
  {
    if seqNo in b.open.vals && b.open.vals[seqNo].sendMono.None? then
      b.(open := b.open.Drop(seqNo), unsent := b.unsent + 1)
    else b
  }

  function LastOf(s: seq<nat>, n: nat): seq<nat>
  {
    if |s| > n then s[|s| - n..] else s
  }

  function Take(b: BookState, seqNo: nat): (Verdict, BookState)
  {
    if seqNo in b.seenAcks then (Duplicate, b.(duplicates := b.duplicates + 1))
    else if seqNo in b.open.vals then
      var item := b.open.vals[seqNo];
      (Ok(item),
       b.(open := b.open.Drop(seqNo),
          seenAcks := LastOf(b.seenAcks + [seqNo], b.remember),
          reorder := if item.mtype == ECHO && seqNo > b.expectNext then b.reorder + 1 else b.reorder,
          expectNext := if item.mtype == ECHO then Max(b.expectNext, seqNo + 1) else b.expectNext))
    else if seqNo in b.lostSeqs.vals then
      var item := b.lostSeqs.vals[seqNo];
      (Late(item),
       b.(lostSeqs := b.lostSeqs.Drop(seqNo),
          seenAcks := b.seenAcks + [seqNo],
          lost := if item.trackLoss then Max(0, b.lost - 1) else b.lost))
    else (Unknown, b)
  }

  predicate Overdue(item: Pending, timeoutNs: int, now: int)
  {
    item.sendMono.Some? && now - item.sendMono.value >= timeoutNs
  }

  /** What reap does with one open item. */
  function ReapOne(b: BookState, k: nat, now: int, force: bool): BookState
  {
    if k !in b.open.vals then b
    else
      var item := b.open.vals[k];
      if item.sendMono.None? then
        if force then b.(open := b.open.Drop(k), unsent := b.unsent + 1) else b
      else if force || Overdue(item, b.timeoutNs, now) then
        b.(open := b.open.Drop(k), lostSeqs := b.lostSeqs.Put(k, item),
           lost := if item.trackLoss then b.lost + 1 else b.lost)
      else b
  }

  function ReapKeys(b: BookState, keys: seq<nat>, now: int, force: bool): BookState
    decreases |keys|
  {
    if keys == [] then b
    else ReapOne(ReapKeys(b, keys[..|keys| - 1], now, force), keys[|keys| - 1], now, force)
  }

  function TrimLost(b: BookState): BookState
  {
    if |b.lostSeqs.keys| > b.remember then
      b.(lostSeqs := b.lostSeqs.DropFirst(|b.lostSeqs.keys| - b.remember))
    else b
  }

  function Reap(b: BookState, now: int, force: bool): BookState
  {
    TrimLost(ReapKeys(b, b.open.keys, now, force))
  }

  lemma AckIsNew(acks: seq<nat>, k: nat, remember: nat)
    requires NoDup(acks) && k !in acks
    ensures NoDup(acks + [k]) && NoDup(LastOf(acks + [k], remember))
  {
  }

  /** The mutable book. Its lock makes each method one atomic step; here a method is that step. */
  class InflightBook {
    const timeoutNs: int
    const remember: nat
    var open: Dict<Pending>
    var lostSeqs: Dict<Pending>
    var seenAcks: seq<nat>
    var lost: int
    var unsent: int
    var duplicates: int
    var reorder: int
    var expectNext: int

    function State(): BookState
      reads this
    {
      BookState(timeoutNs, remember, open, lostSeqs, seenAcks, lost, unsent, duplicates, reorder, expectNext)
    }

    constructor (timeoutNs: int, remember: nat)
      ensures State() == NewBook(timeoutNs, remember)
      ensures WellFormed(State())
    {
      this.timeoutNs, this.remember := timeoutNs, remember;
      open, lostSeqs, seenAcks := Dict([], map[]), Dict([], map[]), [];
      lost, unsent, duplicates, reorder, expectNext := 0, 0, 0, 0, 1;
    }

    method Add(item: Pending)
      requires WellFormed(State())
      modifies this
      ensures WellFormed(State()) && State() == AddItem(old(State()), item)
    {
      open := open.Put(item.seqNo, item);
    }

    method Sent(seqNo: nat, sendMono: int)
      requires WellFormed(State())
      modifies this
      ensures WellFormed(State()) && State() == MarkSent(old(State()), seqNo, sendMono)
    {
      if seqNo in open.vals {
        open := open.Put(seqNo, open.vals[seqNo].(sendMono := Some(sendMono)));
      }
    }

    method Unsend(seqNo: nat)
      requires WellFormed(State())
      modifies this
      ensures WellFormed(State()) && State() == DropUnsent(old(State()), seqNo)
    {
      if seqNo in open.vals && open.vals[seqNo].sendMono.None? {
        open := open.Drop(seqNo);
        unsent := unsent + 1;
      }
    }

    method TakeResponse(seqNo: nat) returns (verdict: Verdict)
      requires WellFormed(State())
      modifies this
      ensures WellFormed(State())
      ensures (verdict, State()) == Take(old(State()), seqNo)
    {
      hide NoDup, Without;
      if seqNo in seenAcks {
        duplicates := duplicates + 1;
        return Duplicate;
      }
      AckIsNew(seenAcks, seqNo, remember);
      if seqNo in open.vals {
        var item := open.vals[seqNo];
        open := open.Drop(seqNo);
        seenAcks := seenAcks + [seqNo];
        if item.mtype == ECHO && seqNo > expectNext { reorder := reorder + 1; }
        if item.mtype == ECHO { expectNext := Max(expectNext, seqNo + 1); }
        if |seenAcks| > remember {
          ForgetOldest(|seenAcks| - remember);
        }
        return Ok(item);
      }
      if seqNo in lostSeqs.vals {
        var late := lostSeqs.vals[seqNo];
        lostSeqs := lostSeqs.Drop(seqNo);
        seenAcks := seenAcks + [seqNo];
        if late.trackLoss { lost := Max(0, lost - 1); }
        return Late(late);
      }
      return Unknown;
    }

    /** The tail of take: delete the oldest acks, one key at a time. */
    method ForgetOldest(extra: nat)
      requires NoDup(seenAcks) && extra <= |seenAcks|
      modifies `seenAcks
      ensures seenAcks == old(seenAcks)[extra..]
    {
      var all := seenAcks;
      for i := 0 to extra
        invariant seenAcks == all[i..]
      {
        WithoutFirst(seenAcks);
        seenAcks := Without(seenAcks, all[i]);
      }
    }

    /** The body of reap's loop over the open items. */
    method ReapItem(k: nat, now: int, force: bool) returns (loss: int, unsentOne: int)
      requires WellFormed(State())
      modifies this
      ensures WellFormed(State()) && State() == ReapOne(old(State()), k, now, force)
      ensures loss == lost - old(lost) && unsentOne == unsent - old(unsent)
    {
      hide NoDup, Without;
      loss, unsentOne := 0, 0;
      if k in open.vals {
        var item := open.vals[k];
        if item.sendMono.None? {
          if force {
            open := open.Drop(k);
            unsent, unsentOne := unsent + 1, 1;
          }
        } else if force || now - item.sendMono.value >= timeoutNs {
          open := open.Drop(k);
          lostSeqs := lostSeqs.Put(k, item);
          if item.trackLoss { lost, loss := lost + 1, 1; }
        }
      }
    }

    /** The tail of reap: delete the oldest lost items, one key at a time. */
    method EvictLost()
      requires WellFormed(State())
      modifies `lostSeqs
      ensures WellFormed(State()) && State() == TrimLost(old(State()))
    {
      var extra := |lostSeqs.keys| - remember;
      if extra > 0 {
        var full := lostSeqs;
        for i := 0 to extra
          invariant full.Ok() && lostSeqs == full.DropFirst(i)
        {
          DropFirstSteps(full, i);
          lostSeqs := lostSeqs.Drop(full.keys[i]);
        }
      }
    }

    method ReapNow(now: int, force: bool) returns (losses: int, unsentNow: int)
      requires WellFormed(State())
      modifies this
      ensures WellFormed(State()) && State() == Reap(old(State()), now, force)
      ensures losses == lost - old(lost) && unsentNow == unsent - old(unsent)
    {
      hide NoDup, Without, ReapOne, TrimLost;
      losses, unsentNow := 0, 0;
      var keys := open.keys;
      for i := 0 to |keys|
        invariant WellFormed(State())
        invariant State() == ReapKeys(old(State()), keys[..i], now, force)
        invariant losses == lost - old(lost) && unsentNow == unsent - old(unsent)
      {
        var loss, unsentOne := ReapItem(keys[i], now, force);
        losses, unsentNow := losses + loss, unsentNow + unsentOne;
        assert keys[..i + 1][..i] == keys[..i];
      }
      assert keys[..|keys|] == keys;
      EvictLost();
    }

    method Waiting() returns (n: nat)
      requires WellFormed(State())
      ensures n == |set k | k in open.vals && open.vals[k].sendMono.Some?|
    {
      n := 0;
      ghost var counted: set<nat> := {};
      for i := 0 to |open.keys|
        invariant n == |counted|
        invariant counted == set k | k in open.keys[..i] && open.vals[k].sendMono.Some?
      {
        var k := open.keys[i];
        assert open.keys[..i + 1] == open.keys[..i] + [k];
        assert k !in open.keys[..i];
        if open.vals[k].sendMono.Some? {
          counted := counted + {k};
          n := n + 1;
        }
      }
      assert open.keys[..|open.keys|] == open.keys;
      assert counted == set k | k in open.vals && open.vals[k].sendMono.Some?;
    }
  }
}
