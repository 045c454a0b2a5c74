/**
 Per-slice counters (src/traffic/timing.py): a pruned cache that must agree with the histogram of
 everything ever counted, and its mirror on the client.
 */
module Timing {
  type Counts = map<int, int>

  function Get(counts: Counts, k: int): int
  {
    if k in counts then counts[k] else 0
  }

  function Prune(counts: Counts, cutoff: int): Counts
  {
    map k | k in counts && k >= cutoff :: counts[k]
  }

  function PruneIfOver(counts: Counts, keep: nat, newest: int): Counts
  {
    if |counts| > keep then Prune(counts, newest - keep) else counts
  }

  function Added(counts: Counts, keep: nat, sid: int, n: int): Counts
  {
    PruneIfOver(counts[sid := Get(counts, sid) + n], keep, sid)
  }

  /** A newest-first list laid over the slices newest, newest - 1, ... */
  function Overlay(newest: int, values: seq<int>): Counts
    decreases |values|
  {
    if values == [] then map[]
    else Overlay(newest, values[..|values| - 1])[newest - (|values| - 1) := values[|values| - 1]]
  }

  lemma {:induction false} OverlayAt(newest: int, values: seq<int>, k: int)
    ensures k in Overlay(newest, values) <==> newest - |values| < k <= newest
    ensures k in Overlay(newest, values) ==> Overlay(newest, values)[k] == values[newest - k]
    decreases |values|
  {
    if values != [] { OverlayAt(newest, values[..|values| - 1], k); }
  }

  function Replaced(counts: Counts, keep: nat, newest: int, values: seq<int>): Counts
  {
    PruneIfOver(counts + Overlay(newest, values), keep, newest)
  }

  function NewestFirst(counts: Counts, sid: int, n: nat): (r: seq<int>)
    ensures |r| == n
  {
    seq(n, i => Get(counts, sid - i))
  }

  lemma HasMember(keys: set<int>)
    requires keys != {}
    ensures exists k :: k in keys
  {
    assert (forall k :: k !in keys) ==> keys == {};
  }

  class CounterSeries {
    var keep: nat
    var counts: Counts

    constructor (keep: nat)
      ensures this.keep == keep && counts == map[]
    {
      this.keep, counts := keep, map[];
    }

    /** The program's pruning loop, in whatever order the keys come. */
    method PruneOver(newest: int)
      modifies `counts
      ensures counts == PruneIfOver(old(counts), keep, newest)
    {
      if |counts| > keep {
        var cutoff := newest - keep;
        var all, keys := counts, counts.Keys;
        while keys != {}
          invariant keys <= all.Keys
          invariant counts == map k | k in all && (k in keys || k >= cutoff) :: all[k]
          decreases |keys|
        {
          HasMember(keys);
          var key :| key in keys;
          if key < cutoff { counts := counts - {key}; }
          keys := keys - {key};
        }
      }
    }

    method AddTo(sid: int, n: int)
      modifies `counts
      ensures counts == Added(old(counts), keep, sid, n)
    {
      counts := counts[sid := Get(counts, sid) + n];
      PruneOver(sid);
    }

    method ReplaceWindow(newest: int, values: seq<int>)
      modifies `counts
      ensures counts == Replaced(old(counts), keep, newest, values)
    {
      for i := 0 to |values|
        invariant counts == old(counts) + Overlay(newest, values[..i])
      {
        counts := counts[newest - i := values[i]];
        assert values[..i + 1][..i] == values[..i];
      }
      assert values[..|values|] == values;
      PruneOver(newest);
    }
  }

  // ----- what one operation keeps and drops -----

  lemma AtMostMore(counts: Counts, k: int, n: int)
    ensures |counts[k := n]| == |counts| + if k in counts then 0 else 1
  {
    var keys := counts.Keys;
    assert counts[k := n].Keys == keys + {k};
    assert |keys| == |counts| && |counts[k := n].Keys| == |counts[k := n]|;
  }

  /**
   After a count for slice sid: sid holds n more than before; every other slice keeps its count if there are at most
   keep slices in all or it is no more than keep older than sid, and is gone otherwise.
   */
  lemma AddedAt(counts: Counts, keep: nat, sid: int, n: int, k: int)
    ensures var slices := |counts| + if sid in counts then 0 else 1;
            var after := Added(counts, keep, sid, n);
            && (k in after <==> (k == sid || k in counts) && (slices <= keep || k >= sid - keep))
            && (k in after ==> after[k] == (if k in counts then counts[k] else 0) + if k == sid then n else 0)
  {
    AtMostMore(counts, sid, Get(counts, sid) + n);
  }

  /** Slice k is one of the n slices up to the newest. */
  predicate InWindow(newest: int, n: nat, k: int)
  {
    newest - n < k <= newest
  }

  function WindowKeys(newest: int, n: nat): set<int>
  {
    set k: int | newest - n < k <= newest && InWindow(newest, n, k)
  }

  /** The number of slices once a window has been laid in. */
  function SlicesWith(counts: Counts, newest: int, values: seq<int>): nat
  {
    |counts.Keys + WindowKeys(newest, |values|)|
  }

  lemma OverlayKeys(counts: Counts, newest: int, values: seq<int>)
    ensures |counts + Overlay(newest, values)| == SlicesWith(counts, newest, values)
  {
    var laid := counts + Overlay(newest, values);
    forall k ensures k in Overlay(newest, values) <==> k in WindowKeys(newest, |values|) {
      OverlayAt(newest, values, k);
    }
    assert laid.Keys == counts.Keys + WindowKeys(newest, |values|);
    assert |laid.Keys| == |laid|;
  }

  /**
   After a window is laid in: a slice of the window holds the window's value; an older or newer one keeps its count;
   and what is more than keep older than the newest is gone if there are more than keep slices in all.
   */
  lemma ReplacedAt(counts: Counts, keep: nat, newest: int, values: seq<int>, k: int)
    ensures var inWindow := InWindow(newest, |values|, k);
            var after := Replaced(counts, keep, newest, values);
            && (k in after <==>
                  (inWindow || k in counts) && (SlicesWith(counts, newest, values) <= keep || k >= newest - keep))
            && (k in after ==> after[k] == if inWindow then values[newest - k] else counts[k])
  {
    OverlayAt(newest, values, k);
    OverlayKeys(counts, newest, values);
  }

  // ----- the cache against the full histogram -----

  /** What happens to a series: a count, or a change of how much it keeps. */
  datatype Event = Count(sid: int, n: int) | Resize(keep: nat)

  function KeepAfter(events: seq<Event>, keep: nat): nat
    decreases |events|
  {
    if events == [] then keep
    else
      var last := events[|events| - 1];
      if last.Resize? then last.keep else KeepAfter(events[..|events| - 1], keep)
  }

  function CacheAfter(events: seq<Event>, keep: nat): Counts
    decreases |events|
  {
    if events == [] then map[]
    else
      var init, last := events[..|events| - 1], events[|events| - 1];
      match last
      case Resize(_) => CacheAfter(init, keep)
      case Count(sid, n) => Added(CacheAfter(init, keep), KeepAfter(init, keep), sid, n)
  }

  /** Everything ever counted for slice k. */
  function Total(events: seq<Event>, k: int): int
    decreases |events|
  {
    if events == [] then 0
    else
      var last := events[|events| - 1];
      Total(events[..|events| - 1], k) + if last.Count? && last.sid == k then last.n else 0
  }

  /** Slice k was never older than the pruning cutoff of any count, with the keep of that moment. */
  predicate WithinHorizon(events: seq<Event>, keep: nat, k: int)
    decreases |events|
  {
    events == [] ||
    (var init, last := events[..|events| - 1], events[|events| - 1];
     WithinHorizon(init, keep, k) && (last.Count? ==> k >= last.sid - KeepAfter(init, keep)))
  }

  /** The cache holds the true total of every slice within the horizon, through any counts and resizes. */
  lemma {:induction false} CacheExact(events: seq<Event>, keep: nat, k: int)
    requires WithinHorizon(events, keep, k)
    ensures Get(CacheAfter(events, keep), k) == Total(events, k)
    decreases |events|
  {
    if events != [] {
      CacheExact(events[..|events| - 1], keep, k);
    }
  }

  lemma {:induction false} NewerIsWithin(events: seq<Event>, keep: nat, k: int, newer: int)
    requires WithinHorizon(events, keep, k) && k <= newer
    ensures WithinHorizon(events, keep, newer)
    decreases |events|
  {
    if events != [] { NewerIsWithin(events[..|events| - 1], keep, k, newer); }
  }

  /** Events with one fixed keep whose newest slice is maxSid. */
  predicate FixedKeep(events: seq<Event>, maxSid: int)
  {
    forall i :: 0 <= i < |events| ==> events[i].Count? && events[i].sid <= maxSid
  }

  /** With a fixed keep the horizon is the newest slice less keep. */
  lemma {:induction false} HorizonOfFixedKeep(events: seq<Event>, keep: nat, maxSid: int, k: int)
    requires FixedKeep(events, maxSid) && k >= maxSid - keep
    ensures WithinHorizon(events, keep, k) && KeepAfter(events, keep) == keep
    decreases |events|
  {
    if events != [] { HorizonOfFixedKeep(events[..|events| - 1], keep, maxSid, k); }
  }

  /** A window read from the cache is the true histogram, as far back as its oldest slice is within the horizon. */
  lemma WindowExact(events: seq<Event>, keep: nat, sid: int, n: nat)
    requires n == 0 || WithinHorizon(events, keep, sid - n + 1)
    ensures var w := NewestFirst(CacheAfter(events, keep), sid, n);
            forall i :: 0 <= i < n ==> w[i] == Total(events, sid - i)
  {
    var w := NewestFirst(CacheAfter(events, keep), sid, n);
    forall i | 0 <= i < n ensures w[i] == Total(events, sid - i) {
      NewerIsWithin(events, keep, sid - n + 1, sid - i);
      CacheExact(events, keep, sid - i);
    }
  }

  // ----- how large the cache gets -----

  /** Every slice arrives at most d behind the newest one before it. */
  predicate AtMostLate(events: seq<Event>, d: nat)
  {
    forall i, j :: 0 <= i < j < |events| && events[i].Count? && events[j].Count? ==> events[i].sid <= events[j].sid + d
  }

  lemma {:induction false} IntervalSize(s: set<int>, lo: int, hi: int)
    requires lo <= hi + 1 && forall k :: k in s ==> lo <= k <= hi
    ensures |s| <= hi - lo + 1
    decreases hi - lo + 1
  {
    if lo > hi {
      assert forall k :: k !in s;
      assert s == {};
    } else {
      IntervalSize(s - {hi}, lo, hi - 1);
    }
  }

  lemma {:induction false} CachedWasCounted(events: seq<Event>, keep: nat, k: int)
    requires k in CacheAfter(events, keep)
    ensures exists i :: 0 <= i < |events| && events[i].Count? && events[i].sid == k
    decreases |events|
  {
    var init, last := events[..|events| - 1], events[|events| - 1];
    if last.Count? && last.sid == k {
      assert events[|events| - 1].sid == k;
    } else {
      CachedWasCounted(init, keep, k);
      var i :| 0 <= i < |init| && init[i].Count? && init[i].sid == k;
      assert events[i] == init[i];
    }
  }

  /** With a fixed keep the cache holds at most keep + 1 + d slices when none arrives more than d late. */
  lemma {:induction false} CacheSize(events: seq<Event>, keep: nat, d: nat)
    requires AtMostLate(events, d) && forall i :: 0 <= i < |events| ==> events[i].Count?
    ensures |CacheAfter(events, keep)| <= keep + 1 + d
    decreases |events|
  {
    if events != [] {
      var init, last := events[..|events| - 1], events[|events| - 1];
      CacheSize(init, keep, d);
      FixedKeepStays(init, keep);
      var after := CacheAfter(events, keep);
      var grown := CacheAfter(init, keep)[last.sid := Get(CacheAfter(init, keep), last.sid) + last.n];
      if |grown| > keep {
        forall k | k in after ensures last.sid - keep <= k <= last.sid + d {
          CachedWasCounted(events, keep, k);
        }
        IntervalSize(after.Keys, last.sid - keep, last.sid + d);
      }
      assert |after.Keys| == |after|;
    }
  }

  lemma {:induction false} FixedKeepStays(events: seq<Event>, keep: nat)
    requires forall i :: 0 <= i < |events| ==> events[i].Count?
    ensures KeepAfter(events, keep) == keep
    decreases |events|
  {
    if events != [] { FixedKeepStays(events[..|events| - 1], keep); }
  }

  // ----- the mirror -----

  /** No slice of a mirror is newer than the last window put into it. */
  predicate NothingNewer(counts: Counts, newest: int)
  {
    forall k :: k in counts ==> k <= newest
  }

  function Zeros(n: nat): (r: seq<int>)
    ensures |r| == n && forall i :: 0 <= i < n ==> r[i] == 0
  {
    seq(n, i => 0)
  }

  /**
   A mirrored window reads back as it was sent for its first keep + 1 slices, and d slices later, with
   nothing new, as the same window behind d zeros.
   */
  lemma MirrorShifts(counts: Counts, keep: nat, newest: int, values: seq<int>, d: nat, m: nat)
    requires NothingNewer(counts, newest) && m <= |values| && m <= keep + 1
    ensures NothingNewer(Replaced(counts, keep, newest, values), newest)
    ensures NewestFirst(Replaced(counts, keep, newest, values), newest + d, d + m) == Zeros(d) + values[..m]
  {
    var after := Replaced(counts, keep, newest, values);
    forall k | k in after ensures k <= newest { OverlayAt(newest, values, k); }
    var got, want := NewestFirst(after, newest + d, d + m), Zeros(d) + values[..m];
    forall i | 0 <= i < d + m ensures got[i] == want[i] {
      var k := newest + d - i;
      OverlayAt(newest, values, k);
      assert got[i] == Get(after, k);
      if i < d {
        assert k !in after && want[i] == 0;
      } else {
        assert (counts + Overlay(newest, values))[k] == values[newest - k] && k >= newest - keep;
        assert Get(after, k) == values[newest - k];
        assert want[i] == values[i - d];
      }
    }
  }
}
