/** What one call of reap does, stated without its loops: who leaves, in what order, and what a second call finds. */
module BookReap {
  import opened OrderedDict
  import opened Book
  import opened BookHistory

  /** A sent item that a reap at `now` moves to the lost items. */
  predicate TimesOut(b: BookState, k: nat, now: int, force: bool)
  {
    && k in b.open.vals && b.open.vals[k].sendMono.Some?
    && (force || now - b.open.vals[k].sendMono.value >= b.timeoutNs)
  }

  /** An item that a reap removes from the open ones, lost or unsent. */
  predicate Leaves(b: BookState, k: nat, now: int, force: bool)
  {
    TimesOut(b, k, now, force) || (force && HeldUnsent(b, k))
  }

  /** The keys that time out, in the order given. */
  function TimedOut(b: BookState, keys: seq<nat>, now: int, force: bool): (r: seq<nat>)
    ensures forall k :: k in r ==> k in keys && TimesOut(b, k, now, force)
    decreases |keys|
  {
    if keys == [] then []
    else
      var k := keys[|keys| - 1];
      var before := TimedOut(b, keys[..|keys| - 1], now, force);
      if TimesOut(b, k, now, force) then before + [k] else before
  }

  /** The items that stay open after some keys were looked at. */
  ghost predicate OpenAfter(b: BookState, r: BookState, keys: seq<nat>, now: int, force: bool)
  {
    && (forall k :: k in r.open.vals <==> k in b.open.vals && !(k in keys && Leaves(b, k, now, force)))
    && (forall k :: k in r.open.vals ==> r.open.vals[k] == b.open.vals[k])
  }

  lemma {:induction false} ReapKeysOpen(b: BookState, keys: seq<nat>, now: int, force: bool)
    requires NoDup(keys) && forall k :: k in keys ==> k in b.open.vals
    ensures var r := ReapKeys(b, keys, now, force);
            r.timeoutNs == b.timeoutNs && r.remember == b.remember && OpenAfter(b, r, keys, now, force)
    decreases |keys|
  {
    if keys != [] {
      var init, k := keys[..|keys| - 1], keys[|keys| - 1];
      ReapKeysOpen(b, init, now, force);
      assert keys == init + [k] && k !in init;
      OneMoreOpen(b, ReapKeys(b, init, now, force), init, k, now, force);
    }
  }

  lemma OneMoreOpen(b: BookState, r: BookState, init: seq<nat>, k: nat, now: int, force: bool)
    requires r.timeoutNs == b.timeoutNs && OpenAfter(b, r, init, now, force)
    requires k in b.open.vals && k !in init
    ensures OpenAfter(b, ReapOne(r, k, now, force), init + [k], now, force)
  {
    assert k in r.open.vals && r.open.vals[k] == b.open.vals[k];
  }

  lemma {:induction false} ReapKeysLost(b: BookState, keys: seq<nat>, now: int, force: bool)
    requires NoDup(keys) && forall k :: k in keys ==> k in b.open.vals && k !in b.lostSeqs.vals
    ensures var r := ReapKeys(b, keys, now, force);
            && r.lostSeqs.keys == b.lostSeqs.keys + TimedOut(b, keys, now, force)
            && forall k :: k in r.lostSeqs.vals ==> k in b.lostSeqs.vals || k in keys
    decreases |keys|
  {
    if keys != [] {
      var init, k := keys[..|keys| - 1], keys[|keys| - 1];
      ReapKeysLost(b, init, now, force);
      ReapKeysOpen(b, init, now, force);
      assert keys == init + [k] && k !in init;
      var r := ReapKeys(b, init, now, force);
      assert k in r.open.vals && r.open.vals[k] == b.open.vals[k];
      assert k !in r.lostSeqs.vals;
    }
  }

  /**
   One reap: an item stays open exactly if it does not leave; the lost items are the old ones and the
   ones that timed out, in the order they were added, cut to the newest `remember`.
   */
  lemma ReapExact(h: History, now: int, force: bool)
    requires Inv(h)
    ensures var b, r := h.book, Reap(h.book, now, force);
            && OpenAfter(b, r, b.open.keys, now, force)
            && var all := b.lostSeqs.keys + TimedOut(b, b.open.keys, now, force);
               && |r.lostSeqs.keys| == (if |all| > b.remember then b.remember else |all|)
               && r.lostSeqs.keys == all[|all| - |r.lostSeqs.keys|..]
  {
    forall k | k in h.book.open.keys ensures k in h.book.open.vals && k !in h.book.lostSeqs.vals {
      assert k in At(h, Waiting) && k !in At(h, Lost);
    }
    ReapKeysOpen(h.book, h.book.open.keys, now, force);
    ReapKeysLost(h.book, h.book.open.keys, now, force);
  }

  /** After a reap at `now` no open item that was sent is overdue. */
  lemma NothingOverdue(h: History, now: int, k: nat)
    requires Inv(h)
    ensures var r := Reap(h.book, now, false);
            k in r.open.vals && r.open.vals[k].sendMono.Some? ==> now - r.open.vals[k].sendMono.value < h.book.timeoutNs
  {
    ReapExact(h, now, false);
    ReapKeepsTimeout(h, now, false);
  }

  lemma ReapKeepsTimeout(h: History, now: int, force: bool)
    requires Inv(h)
    ensures Reap(h.book, now, force).timeoutNs == h.book.timeoutNs
    ensures Reap(h.book, now, force) == DoReap(h, now, force).book
    ensures Inv(DoReap(h, now, force))
  {
    ReapKeysKeeps(h, h.book.open.keys, now, force);
    ReapParameters(h, h.book.open.keys, now, force);
    TrimKeeps(DoReapKeys(h, h.book.open.keys, now, force));
  }

  lemma {:induction false} NothingToReap(b: BookState, keys: seq<nat>, now: int)
    requires forall k :: k in keys ==> !TimesOut(b, k, now, false)
    ensures ReapKeys(b, keys, now, false) == b
    decreases |keys|
  {
    if keys != [] {
      NothingToReap(b, keys[..|keys| - 1], now);
      assert keys[|keys| - 1] in keys;
    }
  }

  /** A second reap at the same instant changes nothing at all, so it returns (0, 0). */
  lemma ReapTwice(h: History, now: int)
    requires Inv(h)
    ensures var r := Reap(h.book, now, false); Reap(r, now, false) == r
  {
    var r := Reap(h.book, now, false);
    ReapKeepsTimeout(h, now, false);
    forall k | k in r.open.keys ensures !TimesOut(r, k, now, false) {
      NothingOverdue(h, now, k);
    }
    NothingToReap(r, r.open.keys, now);
  }

  /** A forced reap leaves nothing open: every item added was answered, or lost, or never sent. */
  lemma ForcedReapSettles(h: History, now: int, k: nat)
    requires Inv(h) && k in h.items
    ensures var h' := DoReap(h, now, true);
            && h'.book.open.vals == map[]
            && k in h'.place
            && (h'.place[k] == Answered || h'.place[k] == Lost || h'.place[k] == Forgotten || h'.place[k] == Dropped)
  {
    var h' := DoReap(h, now, true);
    ReapExact(h, now, true);
    ReapKeepsTimeout(h, now, true);
    SameItemsAdded(h, h.book.open.keys, now, true);
    assert h'.items == h.items;
    assert h'.book.open.vals == map[];
    assert k !in At(h', Waiting);
  }

  lemma {:induction false} SameItemsAdded(h: History, keys: seq<nat>, now: int, force: bool)
    ensures DoReapKeys(h, keys, now, force).items == h.items
    decreases |keys|
  {
    if keys != [] { SameItemsAdded(h, keys[..|keys| - 1], now, force); }
  }

  /** What a reap may do to the place of an item, seen from outside. */
  predicate PlaceMove(b: BookState, k: nat, from: Place, to: Place, force: bool)
  {
    || to == from
    || (from == Waiting && k in b.open.vals && b.open.vals[k].sendMono.Some? && (to == Lost || to == Forgotten))
    || (from == Waiting && force && HeldUnsent(b, k) && to == Dropped)
    || (from == Lost && to == Forgotten)
  }

  ghost predicate ReapMoves(h: History, h': History, force: bool)
  {
    && h'.items == h.items && h'.accepted == h.accepted && h'.place.Keys == h.place.Keys
    && (forall k :: k in h.place ==> PlaceMove(h.book, k, h.place[k], h'.place[k], force))
    && (forall k :: k in h'.book.open.vals ==> k in h.book.open.vals && h'.book.open.vals[k] == h.book.open.vals[k])
  }

  lemma {:induction false} KeysMove(h: History, keys: seq<nat>, now: int, force: bool)
    requires Core(h)
    ensures ReapMoves(h, DoReapKeys(h, keys, now, force), force)
    decreases |keys|
  {
    hide Core;
    if keys != [] {
      var init := keys[..|keys| - 1];
      KeysMove(h, init, now, force);
      ReapKeysKeeps(h, init, now, force);
      var h1, k := DoReapKeys(h, init, now, force), keys[|keys| - 1];
      if k in h1.book.open.vals {
        OpenIsWaiting(h1, k);
        OpenIsWaiting(h, k);
      }
      OneMoves(h, h1, k, now, force);
    }
  }

  lemma OpenIsWaiting(h: History, k: nat)
    requires Core(h) && k in h.book.open.vals
    ensures k in h.place && h.place[k] == Waiting
  {
    assert k in At(h, Waiting);
  }

  lemma OneMoves(h: History, h1: History, k: nat, now: int, force: bool)
    requires ReapMoves(h, h1, force)
    requires k in h1.book.open.vals ==> k in h1.place && h1.place[k] == Waiting && h.place[k] == Waiting
    ensures ReapMoves(h, DoReapOne(h1, k, now, force), force)
  {
    hide LostTracked, At;
    var h2 := DoReapOne(h1, k, now, force);
    if k in h1.book.open.vals {
      assert h1.book.open.vals[k] == h.book.open.vals[k];
      assert forall x :: x in h.place && x != k ==> h2.place[x] == h1.place[x];
    }
  }

  lemma ReapPlaces(h: History, now: int, force: bool)
    requires Inv(h)
    ensures ReapMoves(h, DoReap(h, now, force), force)
  {
    hide Core;
    KeysMove(h, h.book.open.keys, now, force);
    ReapKeysKeeps(h, h.book.open.keys, now, force);
    TrimMoves(h, DoReapKeys(h, h.book.open.keys, now, force), force);
  }

  lemma TrimMoves(h: History, h1: History, force: bool)
    requires ReapMoves(h, h1, force)
    ensures ReapMoves(h, DoTrim(h1), force)
  {
  }
}
