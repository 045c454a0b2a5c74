/** A dictionary that remembers insertion order, as Python's dict does: the order decides what is evicted first. */
module OrderedDict {
  ghost predicate NoDup<T>(s: seq<T>)
  {
    forall i, j :: 0 <= i < j < |s| ==> s[i] != s[j]
  }

  function Without(s: seq<nat>, k: nat): (r: seq<nat>)
    ensures forall x :: x in r <==> x in s && x != k
    ensures k !in s ==> r == s
    ensures |r| <= |s|
  {
    if s == [] then []
    else if s[0] == k then Without(s[1..], k)
    else
      assert s == [s[0]] + s[1..];
      [s[0]] + Without(s[1..], k)
  }

  lemma {:induction false} WithoutNoDup(s: seq<nat>, k: nat)
    requires NoDup(s)
    ensures NoDup(Without(s, k))
  {
    if s != [] {
      WithoutNoDup(s[1..], k);
      if s[0] != k {
        assert s[0] !in Without(s[1..], k);
      }
    }
  }

  lemma WithoutFirst(s: seq<nat>)
    requires NoDup(s) && s != []
    ensures Without(s, s[0]) == s[1..]
  {
    assert s[0] !in s[1..];
  }

  datatype Dict<V> = Dict(keys: seq<nat>, vals: map<nat, V>) {
    ghost predicate Ok() {
      NoDup(keys) && forall k :: k in keys <==> k in vals
    }

    /** d[k] = v: a new key goes last, an old key keeps its place. */
    function Put(k: nat, v: V): (d: Dict<V>)
      ensures Ok() ==> d.Ok()
      ensures d.vals == vals[k := v]
    {
      Dict(if k in vals then keys else keys + [k], vals[k := v])
    }

    /** d.pop(k, None) */
    function Drop(k: nat): (d: Dict<V>)
      ensures Ok() ==> d.Ok()
      ensures d.vals == vals - {k}
    {
      assert Ok() ==> NoDup(Without(keys, k)) by { if Ok() { WithoutNoDup(keys, k); } }
      Dict(Without(keys, k), vals - {k})
    }

    /** The n oldest keys deleted. */
    function DropFirst(n: nat): (d: Dict<V>)
      requires n <= |keys|
      ensures Ok() ==> d.Ok()
    {
      Dict(keys[n..], vals - (set k | k in keys[..n]))
    }
  }

  lemma DropFirstSteps<V>(d: Dict<V>, n: nat)
    requires d.Ok() && n < |d.keys|
    ensures d.DropFirst(n).Drop(d.keys[n]) == d.DropFirst(n + 1)
  {
    WithoutFirst(d.keys[n..]);
  }

  /** A list without repetitions is as long as the set of its members. */
  lemma {:induction false} KeyCount(s: seq<nat>, keys: set<nat>)
    requires NoDup(s) && forall k :: k in s <==> k in keys
    ensures |s| == |keys|
    decreases |s|
  {
    if s == [] {
      assert keys == {};
    } else {
      assert s[0] !in s[1..];
      assert s == [s[0]] + s[1..];
      KeyCount(s[1..], keys - {s[0]});
    }
  }
}
