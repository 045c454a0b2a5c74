/**
 What the in-flight book promises over whole runs. A history keeps, beside the book, every item ever
 added and where it went; the theorems say what the book's bounded memories and counters mean in
 terms of it, for every sequence of operations that adds each sequence number at most once.
 */
module BookHistory {
  import opened OrderedDict
  import opened Book

  /** Where an item is, or how it left the book. */
  datatype Place = Waiting | Lost | Forgotten | Answered | Dropped

  datatype History = History(
    book: BookState,
    items: map<nat, Pending>,  // every item ever added, as it was added
    place: map<nat, Place>,    // the one place each of them is in
    accepted: seq<nat>,        // what take answered "ok" or "late" to, in order
    lateSinceOk: nat,          // "late" answers since the last "ok"
    lates: nat)                // "late" answers so far

  datatype Op =
    | Add(item: Pending)
    | Mark(seqNo: nat, sendMono: int)
    | Unsend(seqNo: nat)
    | TakeOp(seqNo: nat)
    | ReapOp(now: int, force: bool)

  function NewHistory(timeoutNs: int, remember: nat): History
  {
    History(NewBook(timeoutNs, remember), map[], map[], [], 0, 0)
  }

  /** Sequence numbers are never reused: what _next_seq guarantees. */
  predicate Allowed(h: History, op: Op)
  {
    op.Add? ==> op.item.seqNo !in h.items
  }

  function DoAdd(h: History, item: Pending): History
  {
    h.(book := AddItem(h.book, item),
       items := h.items[item.seqNo := item],
       place := h.place[item.seqNo := Waiting])
  }

  predicate HeldUnsent(b: BookState, k: nat)
  {
    k in b.open.vals && b.open.vals[k].sendMono.None?
  }

  function DoMark(h: History, k: nat, t: int): History
  {
    h.(book := MarkSent(h.book, k, t))
  }

  function DoUnsend(h: History, k: nat): History
  {
    h.(book := DropUnsent(h.book, k),
       place := if HeldUnsent(h.book, k) then h.place[k := Dropped] else h.place)
  }

  function DoTake(h: History, k: nat): History
  {
    var (verdict, book) := Take(h.book, k);
    if verdict.Accepted() then
      History(book, h.items, h.place[k := Answered], h.accepted + [k],
              if verdict.Ok? then 0 else h.lateSinceOk + 1,
              if verdict.Ok? then h.lates else h.lates + 1)
    else h.(book := book)
  }

  function DoReapOne(h: History, k: nat, now: int, force: bool): History
  {
    var book := ReapOne(h.book, k, now, force);
    h.(book := book,
       place := if k !in h.book.open.vals || k in book.open.vals then h.place
                else if HeldUnsent(h.book, k) then h.place[k := Dropped]
                else h.place[k := Lost])
  }

  function DoReapKeys(h: History, keys: seq<nat>, now: int, force: bool): History
    decreases |keys|
  {
    if keys == [] then h
    else DoReapOne(DoReapKeys(h, keys[..|keys| - 1], now, force), keys[|keys| - 1], now, force)
  }

  function DoTrim(h: History): History
  {
    var book := TrimLost(h.book);
    h.(book := book,
       place := map k | k in h.place ::
         if h.place[k] == Lost && k !in book.lostSeqs.vals then Forgotten else h.place[k])
  }

  function DoReap(h: History, now: int, force: bool): History
  {
    DoTrim(DoReapKeys(h, h.book.open.keys, now, force))
  }

  function Step(h: History, op: Op): History
  {
    match op
    case Add(item) => DoAdd(h, item)
    case Mark(k, t) => DoMark(h, k, t)
    case Unsend(k) => DoUnsend(h, k)
    case TakeOp(k) => DoTake(h, k)
    case ReapOp(now, force) => DoReap(h, now, force)
  }

  // ----- the invariant -----

  /** Tracked items counted as lost: those still remembered as lost and those forgotten since. */
  ghost function LostTracked(h: History): set<nat>
  {
    set k | k in h.place && (h.place[k] == Lost || h.place[k] == Forgotten) && k in h.items && h.items[k].trackLoss
  }

  ghost function At(h: History, p: Place): set<nat>
  {
    set k | k in h.place && h.place[k] == p
  }

  /** Every item added has one place, and the book's dictionaries and the acceptance history agree with it. */
  ghost predicate Places(h: History)
  {
    && h.items.Keys == h.place.Keys
    && h.book.open.vals.Keys == At(h, Waiting)
    && h.book.lostSeqs.vals.Keys == At(h, Lost)
    && (forall k :: k in h.accepted <==> k in At(h, Answered))
  }

  /** Items are filed under their own number and only their send time changes. */
  ghost predicate SameItems(h: History)
  {
    && (forall k :: k in h.items ==> h.items[k].seqNo == k)
    && (forall k :: k in h.book.open.vals ==> k in h.items && SameButSendTime(h.book.open.vals[k], h.items[k]))
    && (forall k :: k in h.book.lostSeqs.vals ==> k in h.items && SameButSendTime(h.book.lostSeqs.vals[k], h.items[k]))
    && (forall k :: k in h.book.lostSeqs.vals ==> h.book.lostSeqs.vals[k].sendMono.Some?)
  }

  predicate SameButSendTime(now: Pending, added: Pending)
  {
    now == added.(sendMono := now.sendMono)
  }

  ghost predicate Counters(h: History)
  {
    h.book.lost == |LostTracked(h)| && h.book.unsent == |At(h, Dropped)|
  }

  /** The ack memory is the end of the acceptance history, longer by the late answers since the last "ok". */
  ghost predicate Memory(h: History)
  {
    && NoDup(h.accepted)
    && h.book.seenAcks == LastOf(h.accepted, h.book.remember + h.lateSinceOk)
    && h.lates <= |h.accepted|
  }

  /** The invariant while reap is still moving items. */
  ghost predicate Core(h: History)
  {
    h.book.open.Ok() && h.book.lostSeqs.Ok() && Places(h) && SameItems(h) && Counters(h) && Memory(h)
  }

  ghost predicate Inv(h: History)
  {
    Core(h) && |h.book.lostSeqs.keys| <= h.book.remember
  }

  // ----- each step keeps it -----

  lemma AddPlaces(h: History, item: Pending)
    requires Places(h) && Counters(h) && item.seqNo !in h.items
    ensures Places(DoAdd(h, item)) && Counters(DoAdd(h, item))
  {
    var h' := DoAdd(h, item);
    assert LostTracked(h') == LostTracked(h);
    assert At(h', Waiting) == At(h, Waiting) + {item.seqNo};
    assert At(h', Lost) == At(h, Lost);
    assert At(h', Answered) == At(h, Answered);
    assert At(h', Dropped) == At(h, Dropped);
  }

  lemma AddItems(h: History, item: Pending)
    requires SameItems(h) && item.seqNo !in h.items
    ensures SameItems(DoAdd(h, item))
  {
  }

  lemma AddMemory(h: History, item: Pending)
    requires Memory(h)
    ensures Memory(DoAdd(h, item))
  {
  }

  lemma AddKeeps(h: History, item: Pending)
    requires Inv(h) && item.seqNo !in h.items
    ensures Inv(DoAdd(h, item))
  {
    hide Places, Counters, Memory, NoDup;
    AddPlaces(h, item);
    AddItems(h, item);
    assert Memory(DoAdd(h, item)) by { AddMemory(h, item); }
  }

  lemma MarkKeeps(h: History, k: nat, t: int)
    requires Inv(h)
    ensures Inv(DoMark(h, k, t))
  {
    var h' := DoMark(h, k, t);
    assert h'.book.open.vals.Keys == h.book.open.vals.Keys;
    assert LostTracked(h') == LostTracked(h) && forall p :: At(h', p) == At(h, p);
  }

  /** One item moved: it joins its new place and leaves any other. */
  lemma AtMoved(h: History, h': History, k: nat, to: Place, p: Place)
    requires k in h.place && h'.place == h.place[k := to]
    ensures At(h', p) == if p == to then At(h, p) + {k} else At(h, p) - {k}
  {
  }

  lemma AllAtMoved(h: History, h': History, k: nat, to: Place)
    requires k in h.place && h'.place == h.place[k := to]
    ensures forall p :: At(h', p) == if p == to then At(h, p) + {k} else At(h, p) - {k}
  {
    hide At;
    forall p ensures At(h', p) == if p == to then At(h, p) + {k} else At(h, p) - {k} { AtMoved(h, h', k, to, p); }
  }

  lemma LossSame(h: History, h': History, k: nat, to: Place)
    requires k in h.place && h.place[k] == Waiting && (to == Answered || to == Dropped)
    requires h'.place == h.place[k := to] && h'.items == h.items
    ensures LostTracked(h') == LostTracked(h)
  {
  }

  lemma IsAt(h: History, k: nat, p: Place)
    ensures k in At(h, p) <==> k in h.place && h.place[k] == p
  {
  }

  /** An open item counted as unsent. */
  lemma OpenToDropped(h: History, h': History, k: nat)
    requires Places(h) && k in h.book.open.vals
    requires h'.items == h.items && h'.place == h.place[k := Dropped]
    requires h'.book.open.vals == h.book.open.vals - {k}
    requires h'.book.lostSeqs.vals == h.book.lostSeqs.vals
    requires h'.accepted == h.accepted
    ensures Places(h')
    ensures |At(h', Dropped)| == |At(h, Dropped)| + 1 && LostTracked(h') == LostTracked(h)
  {
    hide At, LostTracked;
    IsAt(h, k, Waiting);
    IsAt(h, k, Lost);
    IsAt(h, k, Answered);
    IsAt(h, k, Dropped);
    AllAtMoved(h, h', k, Dropped);
    LossSame(h, h', k, Dropped);
  }

  /** An open item answered. */
  lemma OpenToAnswered(h: History, h': History, k: nat)
    requires Places(h) && k in h.book.open.vals
    requires h'.items == h.items && h'.place == h.place[k := Answered]
    requires h'.book.open.vals == h.book.open.vals - {k}
    requires h'.book.lostSeqs.vals == h.book.lostSeqs.vals
    requires h'.accepted == h.accepted + [k]
    ensures Places(h')
    ensures At(h', Dropped) == At(h, Dropped) && LostTracked(h') == LostTracked(h)
    ensures k !in h.accepted
  {
    hide At, LostTracked;
    IsAt(h, k, Waiting);
    IsAt(h, k, Lost);
    IsAt(h, k, Answered);
    IsAt(h, k, Dropped);
    AllAtMoved(h, h', k, Answered);
    LossSame(h, h', k, Answered);
  }

  /** An open item timed out. */
  lemma OpenToLost(h: History, h': History, k: nat)
    requires Places(h) && k in h.book.open.vals
    requires h'.items == h.items && h'.place == h.place[k := Lost]
    requires h'.book.open.vals == h.book.open.vals - {k}
    requires h'.book.lostSeqs.vals.Keys == h.book.lostSeqs.vals.Keys + {k}
    requires h'.accepted == h.accepted
    ensures Places(h')
    ensures At(h', Dropped) == At(h, Dropped)
    ensures |LostTracked(h')| == |LostTracked(h)| + if h.items[k].trackLoss then 1 else 0
  {
    hide At, LostTracked;
    IsAt(h, k, Waiting);
    IsAt(h, k, Answered);
    IsAt(h, k, Dropped);
    AllAtMoved(h, h', k, Lost);
    LossGrows(h, h', k);
  }

  lemma LossGrows(h: History, h': History, k: nat)
    requires k in h.place && k in h.items && h.place[k] == Waiting
    requires h'.place == h.place[k := Lost] && h'.items == h.items
    ensures |LostTracked(h')| == |LostTracked(h)| + if h.items[k].trackLoss then 1 else 0
  {
    assert k !in LostTracked(h);
    if h.items[k].trackLoss {
      assert LostTracked(h') == LostTracked(h) + {k};
    } else {
      assert LostTracked(h') == LostTracked(h);
    }
  }

  /** A lost item is answered after all: it comes off the loss count if it was on it. */
  lemma LeavesLost(h: History, h': History, k: nat)
    requires Places(h) && k in h.book.lostSeqs.vals
    requires h'.items == h.items && h'.place == h.place[k := Answered]
    requires h'.book.open.vals == h.book.open.vals
    requires h'.book.lostSeqs.vals == h.book.lostSeqs.vals - {k}
    requires h'.accepted == h.accepted + [k]
    ensures Places(h')
    ensures |At(h', Dropped)| == |At(h, Dropped)|
    ensures |LostTracked(h')| == |LostTracked(h)| - if h.items[k].trackLoss then 1 else 0
    ensures k !in h.accepted
  {
    hide At, LostTracked;
    IsAt(h, k, Waiting);
    IsAt(h, k, Lost);
    IsAt(h, k, Answered);
    IsAt(h, k, Dropped);
    AllAtMoved(h, h', k, Answered);
    LossShrinks(h, h', k);
  }

  lemma LossShrinks(h: History, h': History, k: nat)
    requires k in h.place && k in h.items && h.place[k] == Lost
    requires h'.place == h.place[k := Answered] && h'.items == h.items
    ensures |LostTracked(h')| == |LostTracked(h)| - if h.items[k].trackLoss then 1 else 0
  {
    if h.items[k].trackLoss {
      assert k in LostTracked(h) && LostTracked(h') == LostTracked(h) - {k};
    } else {
      assert LostTracked(h') == LostTracked(h);
    }
  }

  lemma UnsendKeeps(h: History, k: nat)
    requires Inv(h)
    ensures Inv(DoUnsend(h, k))
  {
    var h' := DoUnsend(h, k);
    if HeldUnsent(h.book, k) {
      OpenToDropped(h, h', k);
    } else {
      assert h' == h;
    }
  }

  lemma TakeOkKeeps(h: History, k: nat)
    requires Inv(h) && Take(h.book, k).0.Ok?
    ensures Inv(DoTake(h, k))
  {
    hide At, LostTracked, Places;
    var h' := DoTake(h, k);
    OpenToAnswered(h, h', k);
    OkMemory(h.accepted, k, h.book.remember, h.lateSinceOk);
  }

  /** An item gone from one of the two dictionaries. */
  lemma FewerItems(h: History, h': History, k: nat)
    requires SameItems(h) && h'.items == h.items
    requires h'.book.open.vals == h.book.open.vals || h'.book.open.vals == h.book.open.vals - {k}
    requires h'.book.lostSeqs.vals == h.book.lostSeqs.vals || h'.book.lostSeqs.vals == h.book.lostSeqs.vals - {k}
    ensures SameItems(h')
  {
  }

  lemma LateRemembered(h: History, h': History, k: nat)
    requires Memory(h) && k !in h.accepted && h'.accepted == h.accepted + [k] && h'.lates == h.lates + 1
    requires h'.book.seenAcks == h.book.seenAcks + [k] && h'.book.remember == h.book.remember
      && h'.lateSinceOk == h.lateSinceOk + 1
    ensures Memory(h')
  {
    LateMemory(h.accepted, k, h.book.remember, h.lateSinceOk);
  }

  lemma TakeLateKeeps(h: History, k: nat)
    requires Inv(h) && Take(h.book, k).0.Late?
    ensures Inv(DoTake(h, k))
  {
    hide At, LostTracked, Places, SameItems, Memory, NoDup, Without, LastOf;
    var h' := DoTake(h, k);
    LateIsCounted(h, k);
    LateSame(h, k);
    LeavesLost(h, h', k);
    FewerItems(h, h', k);
    LateRemembered(h, h', k);
  }

  lemma LateSame(h: History, k: nat)
    requires SameItems(h) && k in h.book.lostSeqs.vals
    ensures k in h.items && h.items[k].trackLoss == h.book.lostSeqs.vals[k].trackLoss
  {
  }

  lemma TakeKeeps(h: History, k: nat)
    requires Inv(h)
    ensures Inv(DoTake(h, k))
  {
    var h' := DoTake(h, k);
    var verdict := Take(h.book, k).0;
    if verdict.Ok? {
      TakeOkKeeps(h, k);
    } else if verdict.Late? {
      TakeLateKeeps(h, k);
    } else {
      assert LostTracked(h') == LostTracked(h) && At(h', Dropped) == At(h, Dropped);
      assert At(h', Waiting) == At(h, Waiting) && At(h', Lost) == At(h, Lost) && At(h', Answered) == At(h, Answered);
    }
  }

  /** The late branch's max(0, lost - 1) never binds: a late tracked item is on the counter. */
  lemma LateIsCounted(h: History, k: nat)
    requires Inv(h) && Take(h.book, k).0.Late?
    ensures Take(h.book, k).0.item.trackLoss ==> h.book.lost >= 1
  {
    assert k in At(h, Lost);
    if h.items[k].trackLoss { assert k in LostTracked(h); }
  }

  /** One more acceptance in time: the memory is trimmed. */
  lemma OkMemory(accepted: seq<nat>, k: nat, remember: nat, more: nat)
    ensures LastOf(LastOf(accepted, remember + more) + [k], remember) == LastOf(accepted + [k], remember)
  {
    var s, all := LastOf(accepted, remember + more) + [k], accepted + [k];
    if |s| > remember { assert s[|s| - remember..] == all[|all| - remember..]; }
  }

  /** One more late acceptance: it is not. */
  lemma LateMemory(accepted: seq<nat>, k: nat, remember: nat, more: nat)
    ensures LastOf(accepted, remember + more) + [k] == LastOf(accepted + [k], remember + (more + 1))
  {
  }

  lemma DropKeepsItems(h: History, h': History, k: nat)
    requires SameItems(h) && Memory(h) && h'.items == h.items && h'.accepted == h.accepted && h'.lates == h.lates
    requires h'.book.open.vals == h.book.open.vals - {k} && h'.book.lostSeqs.vals == h.book.lostSeqs.vals
    requires h'.book.seenAcks == h.book.seenAcks && h'.book.remember == h.book.remember
      && h'.lateSinceOk == h.lateSinceOk
    ensures SameItems(h') && Memory(h')
  {
  }

  /** The part of reap that counts an item as unsent. */
  lemma ReapDrops(h: History, k: nat, now: int, force: bool)
    requires Core(h) && HeldUnsent(h.book, k) && force
    ensures Core(DoReapOne(h, k, now, force))
  {
    hide At, LostTracked, NoDup, Places, SameItems, Memory, Without;
    var h' := DoReapOne(h, k, now, force);
    OpenToDropped(h, h', k);
    DropKeepsItems(h, h', k);
  }

  lemma LossKeepsItems(h: History, h': History, k: nat)
    requires SameItems(h) && Memory(h) && h'.items == h.items && h'.accepted == h.accepted && h'.lates == h.lates
    requires k in h.book.open.vals && h.book.open.vals[k].sendMono.Some?
    requires h'.book.open.vals == h.book.open.vals - {k}
    requires h'.book.lostSeqs.vals == h.book.lostSeqs.vals[k := h.book.open.vals[k]]
    requires h'.book.seenAcks == h.book.seenAcks && h'.book.remember == h.book.remember
      && h'.lateSinceOk == h.lateSinceOk
    ensures SameItems(h') && Memory(h')
    ensures h.items[k].trackLoss == h.book.open.vals[k].trackLoss
  {
  }

  /** The part that counts it as lost. */
  lemma ReapLoses(h: History, k: nat, now: int, force: bool)
    requires Core(h) && k in h.book.open.vals && h.book.open.vals[k].sendMono.Some?
    requires force || Overdue(h.book.open.vals[k], h.book.timeoutNs, now)
    ensures Core(DoReapOne(h, k, now, force))
  {
    hide At, LostTracked, NoDup, Places, SameItems, Memory, Without;
    var h' := DoReapOne(h, k, now, force);
    LossKeepsItems(h, h', k);
    OpenToLost(h, h', k);
  }

  lemma ReapOneKeeps(h: History, k: nat, now: int, force: bool)
    requires Core(h)
    ensures Core(DoReapOne(h, k, now, force))
  {
    hide Core;
    if k in h.book.open.vals && HeldUnsent(h.book, k) && force {
      ReapDrops(h, k, now, force);
    } else if k in h.book.open.vals && h.book.open.vals[k].sendMono.Some?
      && (force || Overdue(h.book.open.vals[k], h.book.timeoutNs, now)) {
      ReapLoses(h, k, now, force);
    } else {
      assert DoReapOne(h, k, now, force) == h;
    }
  }

  lemma {:induction false} ReapKeysKeeps(h: History, keys: seq<nat>, now: int, force: bool)
    requires Core(h)
    ensures Core(DoReapKeys(h, keys, now, force))
    ensures DoReapKeys(h, keys, now, force).book == ReapKeys(h.book, keys, now, force)
    decreases |keys|
  {
    if keys != [] {
      ReapKeysKeeps(h, keys[..|keys| - 1], now, force);
      ReapOneKeeps(DoReapKeys(h, keys[..|keys| - 1], now, force), keys[|keys| - 1], now, force);
    }
  }

  /** Forgetting moves places from lost to forgotten, and no other. */
  lemma TrimPlaces(h: History)
    requires Places(h) && h.book.lostSeqs.Ok()
    ensures Places(DoTrim(h))
    ensures At(DoTrim(h), Dropped) == At(h, Dropped)
  {
    hide TrimLost;
    var h' := DoTrim(h);
    TrimShrinks(h.book);
    assert At(h', Waiting) == At(h, Waiting);
    assert At(h', Lost) == h'.book.lostSeqs.vals.Keys;
    assert At(h', Answered) == At(h, Answered);
    assert At(h', Dropped) == At(h, Dropped);
  }

  /** A forgotten item stays on the loss counter. */
  lemma TrimLosses(h: History)
    requires Places(h)
    ensures LostTracked(DoTrim(h)) == LostTracked(h)
  {
    hide TrimLost;
  }

  lemma TrimItems(h: History)
    requires SameItems(h) && h.book.lostSeqs.Ok()
    ensures SameItems(DoTrim(h))
  {
    hide TrimLost;
    TrimShrinks(h.book);
  }

  lemma TrimKeeps(h: History)
    requires Core(h)
    ensures Inv(DoTrim(h))
  {
    hide TrimLost, Places, SameItems, LostTracked, At;
    TrimShrinks(h.book);
    TrimPlaces(h);
    TrimLosses(h);
    TrimItems(h);
  }

  lemma TrimShrinks(b: BookState)
    requires b.lostSeqs.Ok()
    ensures var t := TrimLost(b);
            && t == b.(lostSeqs := t.lostSeqs) && t.lostSeqs.Ok()
            && |t.lostSeqs.keys| <= b.remember
            && t.lostSeqs.vals.Keys <= b.lostSeqs.vals.Keys
            && forall k :: k in t.lostSeqs.vals ==> t.lostSeqs.vals[k] == b.lostSeqs.vals[k]
  {
  }

  lemma StepKeeps(h: History, op: Op)
    requires Inv(h) && Allowed(h, op)
    ensures Inv(Step(h, op))
  {
    match op
    case Add(item) => AddKeeps(h, item);
    case Mark(k, t) => MarkKeeps(h, k, t);
    case Unsend(k) => UnsendKeeps(h, k);
    case TakeOp(k) => TakeKeeps(h, k);
    case ReapOp(now, force) =>
      ReapKeysKeeps(h, h.book.open.keys, now, force);
      TrimKeeps(DoReapKeys(h, h.book.open.keys, now, force));
  }

  // ----- every run -----

  predicate LegalRun(timeoutNs: int, remember: nat, ops: seq<Op>)
    decreases |ops|
  {
    ops == [] ||
    (LegalRun(timeoutNs, remember, ops[..|ops| - 1]) &&
     Allowed(RunOps(timeoutNs, remember, ops[..|ops| - 1]), ops[|ops| - 1]))
  }

  /** The history after a whole sequence of operations. */
  function RunOps(timeoutNs: int, remember: nat, ops: seq<Op>): History
    decreases |ops|
  {
    if ops == [] then NewHistory(timeoutNs, remember)
    else Step(RunOps(timeoutNs, remember, ops[..|ops| - 1]), ops[|ops| - 1])
  }

  lemma {:induction false} OpsKeep(timeoutNs: int, remember: nat, ops: seq<Op>)
    requires LegalRun(timeoutNs, remember, ops)
    ensures Inv(RunOps(timeoutNs, remember, ops))
    decreases |ops|
  {
    if ops == [] {
      var h := NewHistory(timeoutNs, remember);
      assert LostTracked(h) == {} && At(h, Dropped) == {};
    } else {
      OpsKeep(timeoutNs, remember, ops[..|ops| - 1]);
      StepKeeps(RunOps(timeoutNs, remember, ops[..|ops| - 1]), ops[|ops| - 1]);
    }
  }

  /** The answer to the take that is operation i of a run. */
  function VerdictAt(timeoutNs: int, remember: nat, ops: seq<Op>, i: nat): Verdict
    requires i < |ops| && ops[i].TakeOp?
  {
    Take(RunOps(timeoutNs, remember, ops[..i]).book, ops[i].seqNo).0
  }

  lemma RunStep(timeoutNs: int, remember: nat, ops: seq<Op>, i: nat)
    requires i < |ops|
    ensures RunOps(timeoutNs, remember, ops[..i + 1]) == Step(RunOps(timeoutNs, remember, ops[..i]), ops[i])
    ensures LegalRun(timeoutNs, remember, ops[..i + 1]) ==> LegalRun(timeoutNs, remember, ops[..i])
  {
    assert ops[..i + 1][..i] == ops[..i];
  }

  lemma {:induction false} LegalPrefix(timeoutNs: int, remember: nat, ops: seq<Op>, i: nat)
    requires LegalRun(timeoutNs, remember, ops) && i <= |ops|
    ensures LegalRun(timeoutNs, remember, ops[..i])
    decreases |ops| - i
  {
    if i == |ops| {
      assert ops[..i] == ops;
    } else {
      LegalPrefix(timeoutNs, remember, ops, i + 1);
      RunStep(timeoutNs, remember, ops, i);
    }
  }

  lemma {:induction false} ReapAccepts(h: History, keys: seq<nat>, now: int, force: bool)
    ensures DoReapKeys(h, keys, now, force).accepted == h.accepted && DoReapKeys(h, keys, now, force).lates == h.lates
    decreases |keys|
  {
    if keys != [] { ReapAccepts(h, keys[..|keys| - 1], now, force); }
  }

  lemma StepAccepts(h: History, op: Op)
    ensures Step(h, op).accepted ==
      if op.TakeOp? && Take(h.book, op.seqNo).0.Accepted() then h.accepted + [op.seqNo] else h.accepted
    ensures Step(h, op).lates == h.lates + if op.TakeOp? && Take(h.book, op.seqNo).0.Late? then 1 else 0
  {
    if op.ReapOp? { ReapAccepts(h, h.book.open.keys, op.now, op.force); }
  }

  lemma PrefixTrans(a: seq<nat>, b: seq<nat>, c: seq<nat>)
    requires a <= b <= c
    ensures a <= c
  {
  }

  lemma RunAccepts(timeoutNs: int, remember: nat, ops: seq<Op>, i: nat)
    requires i < |ops|
    ensures RunOps(timeoutNs, remember, ops[..i]).accepted <= RunOps(timeoutNs, remember, ops[..i + 1]).accepted
  {
    RunStep(timeoutNs, remember, ops, i);
    StepAccepts(RunOps(timeoutNs, remember, ops[..i]), ops[i]);
  }

  lemma {:induction false} AcceptedStays(timeoutNs: int, remember: nat, ops: seq<Op>, i: nat, j: nat)
    requires i <= j <= |ops|
    ensures RunOps(timeoutNs, remember, ops[..i]).accepted <= RunOps(timeoutNs, remember, ops[..j]).accepted
    decreases j - i
  {
    if i < j {
      AcceptedStays(timeoutNs, remember, ops, i, j - 1);
      RunAccepts(timeoutNs, remember, ops, j - 1);
      PrefixTrans(RunOps(timeoutNs, remember, ops[..i]).accepted, RunOps(timeoutNs, remember, ops[..j - 1]).accepted,
                  RunOps(timeoutNs, remember, ops[..j]).accepted);
    }
  }

  /** An acceptance is of a number not accepted before. */
  lemma AcceptsNew(h: History, k: nat)
    requires Inv(h) && Take(h.book, k).0.Accepted()
    ensures k !in h.accepted && k in h.items
  {
    assert k in At(h, Waiting) || k in At(h, Lost);
  }

  /**
   Exactly-once acceptance: in any run, if a take of k was answered "ok" or "late", no other take of
   k is, however long ago it was and whatever the bounded memories have forgotten since.
   */
  lemma ExactlyOnce(timeoutNs: int, remember: nat, ops: seq<Op>, i: nat, j: nat)
    requires LegalRun(timeoutNs, remember, ops) && i < j < |ops|
    requires ops[i].TakeOp? && ops[j].TakeOp? && ops[i].seqNo == ops[j].seqNo
    requires VerdictAt(timeoutNs, remember, ops, i).Accepted()
    ensures !VerdictAt(timeoutNs, remember, ops, j).Accepted()
  {
    var k := ops[i].seqNo;
    RunStep(timeoutNs, remember, ops, i);
    StepAccepts(RunOps(timeoutNs, remember, ops[..i]), ops[i]);
    AcceptedStays(timeoutNs, remember, ops, i + 1, j);
    assert k == RunOps(timeoutNs, remember, ops[..i + 1]).accepted[|RunOps(timeoutNs, remember, ops[..i]).accepted|];
    if VerdictAt(timeoutNs, remember, ops, j).Accepted() {
      LegalPrefix(timeoutNs, remember, ops, j);
      OpsKeep(timeoutNs, remember, ops[..j]);
      AcceptsNew(RunOps(timeoutNs, remember, ops[..j]), k);
    }
  }

  /** In every reachable state the three dictionaries share no key. */
  lemma DictionariesDisjoint(timeoutNs: int, remember: nat, ops: seq<Op>, k: nat)
    requires LegalRun(timeoutNs, remember, ops)
    ensures var b := RunOps(timeoutNs, remember, ops).book;
            && !(k in b.open.vals && k in b.lostSeqs.vals)
            && !(k in b.open.vals && k in b.seenAcks)
            && !(k in b.lostSeqs.vals && k in b.seenAcks)
  {
    var h := RunOps(timeoutNs, remember, ops);
    OpsKeep(timeoutNs, remember, ops);
    if k in h.book.seenAcks { assert k in h.accepted && k in At(h, Answered); }
    if k in h.book.open.vals { assert k in At(h, Waiting); }
    if k in h.book.lostSeqs.vals { assert k in At(h, Lost); }
  }

  /**
   The ack memory holds exactly the last `remember` accepted numbers and, before them, as many more as there were
   "late" answers since the last "ok"; each of them is answered "duplicate".
   */
  lemma DuplicateMemory(timeoutNs: int, remember: nat, ops: seq<Op>)
    requires LegalRun(timeoutNs, remember, ops)
    ensures var h := RunOps(timeoutNs, remember, ops);
            var kept := remember + h.lateSinceOk;
            && |h.book.seenAcks| == (if |h.accepted| > kept then kept else |h.accepted|)
            && h.book.seenAcks == h.accepted[|h.accepted| - |h.book.seenAcks|..]
            && forall k :: k in h.book.seenAcks <==> Take(h.book, k).0 == Duplicate
  {
    hide RunOps, LegalRun, Places, SameItems, Counters;
    OpsKeep(timeoutNs, remember, ops);
    Parameters(timeoutNs, remember, ops);
  }

  lemma {:induction false} Parameters(timeoutNs: int, remember: nat, ops: seq<Op>)
    ensures var b := RunOps(timeoutNs, remember, ops).book; b.remember == remember && b.timeoutNs == timeoutNs
    decreases |ops|
  {
    if ops != [] {
      Parameters(timeoutNs, remember, ops[..|ops| - 1]);
      var h := RunOps(timeoutNs, remember, ops[..|ops| - 1]);
      var op := ops[|ops| - 1];
      if op.ReapOp? { ReapParameters(h, h.book.open.keys, op.now, op.force); }
    }
  }

  lemma {:induction false} ReapParameters(h: History, keys: seq<nat>, now: int, force: bool)
    ensures var b := DoReapKeys(h, keys, now, force).book;
            b.remember == h.book.remember && b.timeoutNs == h.book.timeoutNs
    decreases |keys|
  {
    if keys != [] { ReapParameters(h, keys[..|keys| - 1], now, force); }
  }

  /**
   Loss accounting: in every reachable state `lost` is exactly the tracked items that timed out and
   were not answered since, remembered or not; at most `remember` are remembered; and a "late" answer
   to a tracked item always finds the counter positive.
   */
  lemma LossAccounting(timeoutNs: int, remember: nat, ops: seq<Op>, k: nat)
    requires LegalRun(timeoutNs, remember, ops)
    ensures var h := RunOps(timeoutNs, remember, ops);
            && h.book.lost == |LostTracked(h)| && h.book.unsent == |At(h, Dropped)|
            && |h.book.lostSeqs.keys| <= remember
            && (Take(h.book, k).0.Late? && Take(h.book, k).0.item.trackLoss ==> h.book.lost >= 1)
  {
    OpsKeep(timeoutNs, remember, ops);
    Parameters(timeoutNs, remember, ops);
    var h := RunOps(timeoutNs, remember, ops);
    if Take(h.book, k).0.Late? { LateIsCounted(h, k); }
  }
}
