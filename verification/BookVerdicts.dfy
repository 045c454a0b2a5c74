/**
 What the book's operations answer over whole runs, in terms of the operations before them: who was added, when
 each item was last marked sent, and where it is.
 */
module BookVerdicts {
  import opened Wrappers
  import opened Protocol
  import opened OrderedDict
  import opened Book
  import opened BookHistory
  import opened BookReap

  // ----- the items -----

  /** Operation i adds item number k. */
  predicate AddsAt(ops: seq<Op>, i: nat, k: nat)
  {
    i < |ops| && ops[i].Add? && ops[i].item.seqNo == k
  }

  lemma StepItem(h: History, op: Op, k: nat)
    requires Inv(h)
    ensures var items := Step(h, op).items;
            if op.Add? && op.item.seqNo == k then k in items && items[k] == op.item
            else (k in items <==> k in h.items) && (k in items ==> items[k] == h.items[k])
  {
    hide Inv, ReapOne, TrimLost, Take, MarkSent, DropUnsent;
    if op.ReapOp? { ReapPlaces(h, op.now, op.force); }
  }

  /** The items of a run are the ones its operations add. */
  lemma {:induction false} ItemsAreAdded(timeoutNs: int, remember: nat, ops: seq<Op>, k: nat)
    requires LegalRun(timeoutNs, remember, ops)
    ensures var h := RunOps(timeoutNs, remember, ops);
            && (k in h.items <==> exists i: nat :: AddsAt(ops, i, k))
            && (forall i: nat :: AddsAt(ops, i, k) ==> k in h.items && h.items[k] == ops[i].item)
    decreases |ops|
  {
    hide Inv, Step, NewHistory;
    if ops == [] {
      NothingAdded(timeoutNs, remember, k);
    } else {
      var init, op := ops[..|ops| - 1], ops[|ops| - 1];
      var h := RunOps(timeoutNs, remember, init);
      ItemsAreAdded(timeoutNs, remember, init, k);
      OpsKeep(timeoutNs, remember, init);
      StepItem(h, op, k);
      forall i: nat | i < |init| ensures AddsAt(ops, i, k) <==> AddsAt(init, i, k) { assert ops[i] == init[i]; }
      if k in h.items {
        var i: nat :| AddsAt(init, i, k);
        assert AddsAt(ops, i, k);
      }
      if op.Add? && op.item.seqNo == k { assert AddsAt(ops, |init|, k); }
    }
  }

  lemma NothingAdded(timeoutNs: int, remember: nat, k: nat)
    ensures k !in NewHistory(timeoutNs, remember).items
  {
  }

  // ----- the send times -----

  predicate IsIn(h: History, k: nat, p: Place)
  {
    k in h.place && h.place[k] == p
  }

  /** How an operation changes the send time of item k: only a mark_sent that finds it waiting does. */
  function NextTime(h: History, op: Op, k: nat, t: Option<int>): Option<int>
  {
    match op
    case Add(item) => if item.seqNo == k then item.sendMono else t
    case Mark(n, now) => if n == k && IsIn(h, k, Waiting) then Some(now) else t
    case _ => t
  }

  /** The instant item k was last marked sent at while it was waiting, or what it was added with. */
  function SentAt(timeoutNs: int, remember: nat, ops: seq<Op>, k: nat): Option<int>
    decreases |ops|
  {
    if ops == [] then None
    else
      var init := ops[..|ops| - 1];
      NextTime(RunOps(timeoutNs, remember, init), ops[|ops| - 1], k, SentAt(timeoutNs, remember, init, k))
  }

  /** The instant of the last mark_sent of k since k was added, read off the operations alone. */
  function LastMark(ops: seq<Op>, k: nat): Option<int>
    decreases |ops|
  {
    if ops == [] then None
    else
      var init := ops[..|ops| - 1];
      match ops[|ops| - 1]
      case Add(item) => if item.seqNo == k then item.sendMono else LastMark(init, k)
      case Mark(n, now) => if n == k then Some(now) else LastMark(init, k)
      case _ => LastMark(init, k)
  }

  /** An item that the book holds, open or lost, is the one added, with this send time. */
  ghost predicate HeldAs(h: History, k: nat, t: Option<int>)
  {
    && (k in h.book.open.vals ==> k in h.items && h.book.open.vals[k] == h.items[k].(sendMono := t))
    && (k in h.book.lostSeqs.vals ==> k in h.items && h.book.lostSeqs.vals[k] == h.items[k].(sendMono := t))
  }

  /** A reap moves items as they are. */
  ghost predicate SameValues(b: BookState, r: BookState)
  {
    && (forall k :: k in r.open.vals ==> k in b.open.vals && r.open.vals[k] == b.open.vals[k])
    && (forall k :: k in r.lostSeqs.vals ==>
          || (k in b.lostSeqs.vals && r.lostSeqs.vals[k] == b.lostSeqs.vals[k])
          || (k in b.open.vals && r.lostSeqs.vals[k] == b.open.vals[k]))
  }

  lemma {:induction false} KeysKeepValues(b: BookState, keys: seq<nat>, now: int, force: bool)
    ensures SameValues(b, ReapKeys(b, keys, now, force))
    decreases |keys|
  {
    if keys != [] { KeysKeepValues(b, keys[..|keys| - 1], now, force); }
  }

  lemma ReapKeepsValues(h: History, now: int, force: bool)
    requires Inv(h)
    ensures SameValues(h.book, Reap(h.book, now, force))
  {
    hide ReapKeys, TrimLost;
    KeysKeepValues(h.book, h.book.open.keys, now, force);
    ReapKeysKeeps(h, h.book.open.keys, now, force);
    TrimShrinks(ReapKeys(h.book, h.book.open.keys, now, force));
  }

  lemma ReapHolds(h: History, now: int, force: bool, k: nat, t: Option<int>)
    requires Inv(h) && HeldAs(h, k, t)
    ensures HeldAs(DoReap(h, now, force), k, t)
  {
    hide Inv, DoReap, Reap;
    ReapKeepsValues(h, now, force);
    ReapKeepsTimeout(h, now, force);
    ReapPlaces(h, now, force);
  }

  lemma MarkHolds(h: History, n: nat, now: int, k: nat, t: Option<int>)
    requires Inv(h) && HeldAs(h, k, t)
    ensures HeldAs(DoMark(h, n, now), k, NextTime(h, Mark(n, now), k, t))
  {
    hide SameItems, Counters, Memory;
    assert k in h.book.open.vals <==> k in At(h, Waiting);
    assert k in h.book.lostSeqs.vals <==> k in At(h, Lost);
  }

  lemma AddHolds(h: History, item: Pending, k: nat, t: Option<int>)
    requires Inv(h) && item.seqNo !in h.items && HeldAs(h, k, t)
    ensures HeldAs(DoAdd(h, item), k, NextTime(h, Add(item), k, t))
  {
    hide Counters, Memory, NoDup;
    assert forall n :: n in h.book.lostSeqs.vals ==> n in At(h, Lost);
  }

  lemma StepHolds(h: History, op: Op, k: nat, t: Option<int>)
    requires Inv(h) && Allowed(h, op) && HeldAs(h, k, t)
    ensures HeldAs(Step(h, op), k, NextTime(h, op, k, t))
  {
    hide Inv, DoAdd, DoMark, DoReap;
    match op
    case Add(item) => AddHolds(h, item, k, t);
    case Mark(n, now) => MarkHolds(h, n, now, k, t);
    case ReapOp(now, force) => ReapHolds(h, now, force, k, t);
    case Unsend(_) =>
    case TakeOp(_) =>
  }

  /** In every reachable state an item open or lost is the one added, with the time it was last marked at. */
  lemma {:induction false} SendTimes(timeoutNs: int, remember: nat, ops: seq<Op>, k: nat)
    requires LegalRun(timeoutNs, remember, ops)
    ensures HeldAs(RunOps(timeoutNs, remember, ops), k, SentAt(timeoutNs, remember, ops, k))
    decreases |ops|
  {
    hide Inv, Step, HeldAs, NextTime;
    if ops == [] {
      EmptyHolds(timeoutNs, remember, k);
    } else {
      var init := ops[..|ops| - 1];
      SendTimes(timeoutNs, remember, init, k);
      OpsKeep(timeoutNs, remember, init);
      StepHolds(RunOps(timeoutNs, remember, init), ops[|ops| - 1], k, SentAt(timeoutNs, remember, init, k));
    }
  }

  lemma EmptyHolds(timeoutNs: int, remember: nat, k: nat)
    ensures HeldAs(NewHistory(timeoutNs, remember), k, None)
  {
  }

  /** An item that waits after an operation that does not add it waited before. */
  lemma WaitedBefore(h: History, op: Op, k: nat)
    requires Inv(h) && IsIn(Step(h, op), k, Waiting) && !(op.Add? && op.item.seqNo == k)
    ensures IsIn(h, k, Waiting)
  {
    hide Inv, ReapOne, TrimLost, Take, MarkSent, DropUnsent, DoReap;
    if op.ReapOp? { ReapPlaces(h, op.now, op.force); }
  }

  /** While an item waits, its send time is that of the last mark_sent of its number, whoever looks. */
  lemma {:induction false} WaitingSentAt(timeoutNs: int, remember: nat, ops: seq<Op>, k: nat)
    requires LegalRun(timeoutNs, remember, ops) && IsIn(RunOps(timeoutNs, remember, ops), k, Waiting)
    ensures SentAt(timeoutNs, remember, ops, k) == LastMark(ops, k)
    decreases |ops|
  {
    hide Inv, Step;
    if ops != [] {
      var init, op := ops[..|ops| - 1], ops[|ops| - 1];
      if !(op.Add? && op.item.seqNo == k) {
        OpsKeep(timeoutNs, remember, init);
        WaitedBefore(RunOps(timeoutNs, remember, init), op, k);
        WaitingSentAt(timeoutNs, remember, init, k);
      }
    }
  }

  // ----- what take answers -----

  /** k is among the last n of these. */
  predicate AmongLast(s: seq<nat>, n: nat, k: nat)
  {
    exists i :: 0 <= i < |s| && i >= |s| - n && s[i] == k
  }

  lemma InSuffix(s: seq<nat>, n: nat, m: nat, k: nat)
    requires m <= |s| && m == (if |s| > n then n else |s|)
    ensures k in s[|s| - m..] <==> AmongLast(s, n, k)
  {
    if AmongLast(s, n, k) {
      var i :| 0 <= i < |s| && i >= |s| - n && s[i] == k;
      assert s[|s| - m..][i - (|s| - m)] == k;
    }
  }

  /** Where an item is decides which dictionary has it. */
  lemma WhereItIs(h: History, k: nat)
    requires Inv(h)
    ensures k in h.book.open.vals <==> IsIn(h, k, Waiting)
    ensures k in h.book.lostSeqs.vals <==> IsIn(h, k, Lost)
    ensures k in h.accepted <==> IsIn(h, k, Answered)
    ensures k in h.items <==> k in h.place
    ensures k in h.book.seenAcks ==> k in h.accepted
  {
    hide SameItems, Counters;
    assert k in h.book.open.vals <==> k in At(h, Waiting);
    assert k in h.book.lostSeqs.vals <==> k in At(h, Lost);
    assert k in h.accepted <==> k in At(h, Answered);
  }

  /**
   Over every run, what take(k) answers: "ok" with the item if it is waiting, "late" with the item if it is lost and
   remembered, "duplicate" if it is answered and among the last `remember` answers (or those before them that the
   late ones since the last "ok" keep), and "unknown" otherwise; and the number is answered then, if it was not.
   */
  lemma TakeAnswers(timeoutNs: int, remember: nat, ops: seq<Op>, k: nat)
    requires LegalRun(timeoutNs, remember, ops)
    ensures var h := RunOps(timeoutNs, remember, ops);
            var verdict := Take(h.book, k).0;
            if k !in h.place then verdict == Unknown
            else
              && k in h.items
              && match h.place[k]
                 case Waiting => verdict == Ok(h.items[k].(sendMono := LastMark(ops, k)))
                 case Lost => verdict == Late(h.items[k].(sendMono := SentAt(timeoutNs, remember, ops, k)))
                 case Answered =>
                   verdict == if AmongLast(h.accepted, remember + h.lateSinceOk, k) then Duplicate else Unknown
                 case Forgotten => verdict == Unknown
                 case Dropped => verdict == Unknown
    ensures var h := RunOps(timeoutNs, remember, ops);
            DoTake(h, k).place ==
              if IsIn(h, k, Waiting) || IsIn(h, k, Lost) then h.place[k := Answered] else h.place
  {
    hide RunOps, Inv, LastOf, SentAt, LastMark, NoDup, AmongLast;
    var h := RunOps(timeoutNs, remember, ops);
    OpsKeep(timeoutNs, remember, ops);
    WhereItIs(h, k);
    DuplicateMemory(timeoutNs, remember, ops);
    SendTimes(timeoutNs, remember, ops, k);
    if IsIn(h, k, Waiting) { WaitingSentAt(timeoutNs, remember, ops, k); }
    InSuffix(h.accepted, remember + h.lateSinceOk, |h.book.seenAcks|, k);
  }

  // ----- what reap and drop_unsent do -----

  /**
   Over every run, when a waiting item leaves in a reap at `now`: if it was ever marked sent, exactly if the reap is
   forced or the last mark was timeoutNs ago or more, and then it is lost; if never, exactly if the reap is forced,
   and then it is unsent.
   */
  lemma ReapDecides(timeoutNs: int, remember: nat, ops: seq<Op>, k: nat, now: int, force: bool)
    requires LegalRun(timeoutNs, remember, ops) && IsIn(RunOps(timeoutNs, remember, ops), k, Waiting)
    ensures var h' := DoReap(RunOps(timeoutNs, remember, ops), now, force);
            && k in h'.place
            && match LastMark(ops, k)
               case Some(t) =>
                 if force || now - t >= timeoutNs
                 then k !in h'.book.open.vals && (h'.place[k] == Lost || h'.place[k] == Forgotten)
                 else k in h'.book.open.vals && h'.place[k] == Waiting
               case None =>
                 if force then k !in h'.book.open.vals && h'.place[k] == Dropped
                 else k in h'.book.open.vals && h'.place[k] == Waiting
  {
    hide RunOps, Inv, LastMark, SentAt, DoReap, Reap, NoDup, TimedOut;
    var h := RunOps(timeoutNs, remember, ops);
    OpsKeep(timeoutNs, remember, ops);
    Parameters(timeoutNs, remember, ops);
    WaitingSentAt(timeoutNs, remember, ops, k);
    SendTimes(timeoutNs, remember, ops, k);
    WhereItIs(h, k);
    ReapExact(h, now, force);
    ReapKeepsTimeout(h, now, force);
    ReapPlaces(h, now, force);
    WhereItIs(DoReap(h, now, force), k);
    assert k in h.book.open.keys by { OpenKeys(h); }
  }

  lemma OpenKeys(h: History)
    requires Inv(h)
    ensures forall k :: k in h.book.open.keys <==> k in h.book.open.vals
  {
  }

  /** Over every run, drop_unsent(k) takes an item out exactly if it is waiting and was never marked sent. */
  lemma UnsendDecides(timeoutNs: int, remember: nat, ops: seq<Op>, k: nat)
    requires LegalRun(timeoutNs, remember, ops)
    ensures var h := RunOps(timeoutNs, remember, ops);
            var h' := DoUnsend(h, k);
            if IsIn(h, k, Waiting) && LastMark(ops, k).None?
            then k !in h'.book.open.vals && h'.place == h.place[k := Dropped] && h'.book.unsent == h.book.unsent + 1
            else h' == h
  {
    hide RunOps, Inv, LastMark, SentAt, NoDup;
    var h := RunOps(timeoutNs, remember, ops);
    OpsKeep(timeoutNs, remember, ops);
    SendTimes(timeoutNs, remember, ops, k);
    WhereItIs(h, k);
    if IsIn(h, k, Waiting) { WaitingSentAt(timeoutNs, remember, ops, k); }
  }

  // ----- duplicates and reordering -----

  /** The verdicts of a run's takes, in order. */
  function Verdicts(timeoutNs: int, remember: nat, ops: seq<Op>): seq<(nat, Verdict)>
    decreases |ops|
  {
    if ops == [] then []
    else
      var init, op := ops[..|ops| - 1], ops[|ops| - 1];
      Verdicts(timeoutNs, remember, init) +
      if op.TakeOp? then [(op.seqNo, Take(RunOps(timeoutNs, remember, init).book, op.seqNo).0)] else []
  }

  function Duplicates(verdicts: seq<(nat, Verdict)>): nat
  {
    if verdicts == [] then 0
    else Duplicates(verdicts[..|verdicts| - 1]) + if verdicts[|verdicts| - 1].1.Duplicate? then 1 else 0
  }

  /** The ECHOs answered in time, in the order of their answers. */
  function InTime(verdicts: seq<(nat, Verdict)>): seq<nat>
  {
    if verdicts == [] then []
    else
      var (k, verdict) := verdicts[|verdicts| - 1];
      InTime(verdicts[..|verdicts| - 1]) + if verdict.Ok? && verdict.item.mtype == ECHO then [k] else []
  }

  /** A number beyond the one expected: the number after all before it, and 1 at first. */
  predicate Leaps(before: seq<nat>, k: nat)
  {
    k > 1 && forall i :: 0 <= i < |before| ==> before[i] + 1 < k
  }

  /** How many of these came with a number beyond the one expected. */
  function LeapCount(answered: seq<nat>): nat
  {
    if answered == [] then 0
    else
      var before := answered[..|answered| - 1];
      LeapCount(before) + if Leaps(before, answered[|answered| - 1]) then 1 else 0
  }

  /** The least number that is at least 1 and above all of these. */
  predicate IsNext(answered: seq<nat>, n: int)
  {
    && n >= 1 && (forall i :: 0 <= i < |answered| ==> answered[i] < n)
    && (n == 1 || exists i :: 0 <= i < |answered| && answered[i] + 1 == n)
  }

  lemma NextGrows(answered: seq<nat>, n: int, k: nat)
    requires IsNext(answered, n)
    ensures IsNext(answered + [k], Max(n, k + 1))
    ensures LeapCount(answered + [k]) == LeapCount(answered) + if k > n then 1 else 0
  {
    var all := answered + [k];
    assert all[..|answered|] == answered && all[|answered|] == k;
    assert forall i :: 0 <= i < |answered| ==> all[i] == answered[i];
    assert Leaps(answered, k) <==> k > n;
  }

  /** The three counters of take agree with the verdicts so far. */
  predicate CountsAgree(b: BookState, verdicts: seq<(nat, Verdict)>)
  {
    && b.duplicates == Duplicates(verdicts)
    && IsNext(InTime(verdicts), b.expectNext) && b.reorder == LeapCount(InTime(verdicts))
  }

  lemma TakeCounts(b: BookState, k: nat, verdicts: seq<(nat, Verdict)>)
    requires CountsAgree(b, verdicts)
    ensures CountsAgree(Take(b, k).1, verdicts + [(k, Take(b, k).0)])
  {
    hide LeapCount, IsNext, LastOf;
    var answer := (k, Take(b, k).0);
    assert (verdicts + [answer])[..|verdicts|] == verdicts;
    assert InTime(verdicts) + [] == InTime(verdicts);
    NextGrows(InTime(verdicts), b.expectNext, k);
  }

  /**
   Over every run: `duplicates` is the number of takes answered "duplicate"; expect_next is one more than the highest
   ECHO answered in time, and `reorder` is how many of them came with a number beyond the one expected.
   */
  lemma {:induction false} DuplicatesAndLeaps(timeoutNs: int, remember: nat, ops: seq<Op>)
    ensures var b := RunOps(timeoutNs, remember, ops).book;
            var verdicts := Verdicts(timeoutNs, remember, ops);
            && b.duplicates == Duplicates(verdicts)
            && IsNext(InTime(verdicts), b.expectNext) && b.reorder == LeapCount(InTime(verdicts))
    decreases |ops|
  {
    hide LeapCount, IsNext, InTime, Duplicates, ReapOne, TrimLost, Take;
    if ops == [] {
      NoneAnswered(timeoutNs, remember);
    } else {
      var init, op := ops[..|ops| - 1], ops[|ops| - 1];
      var h := RunOps(timeoutNs, remember, init);
      var verdicts := Verdicts(timeoutNs, remember, init);
      DuplicatesAndLeaps(timeoutNs, remember, init);
      if op.TakeOp? {
        TakeCounts(h.book, op.seqNo, verdicts);
      } else {
        assert verdicts + [] == verdicts;
        if op.ReapOp? { ReapCountsNone(h, h.book.open.keys, op.now, op.force); }
      }
    }
  }

  lemma NoneAnswered(timeoutNs: int, remember: nat)
    ensures CountsAgree(NewBook(timeoutNs, remember), [])
  {
  }

  predicate SameTakeCounts(b: BookState, b': BookState)
  {
    b'.duplicates == b.duplicates && b'.expectNext == b.expectNext && b'.reorder == b.reorder
  }

  lemma {:induction false} ReapCountsNone(h: History, keys: seq<nat>, now: int, force: bool)
    ensures SameTakeCounts(h.book, DoReapKeys(h, keys, now, force).book)
    ensures SameTakeCounts(h.book, TrimLost(DoReapKeys(h, keys, now, force).book))
    decreases |keys|
  {
    if keys != [] { ReapCountsNone(h, keys[..|keys| - 1], now, force); }
  }
}
