/** Power-of-two padding and the bit-reversal permutation (src/web_raw3d.js:115-130). */
module BitReversal {
  function Pow2(k: nat): (p: nat)
    ensures p >= 1
  {
    if k == 0 then 1 else 2 * Pow2(k - 1)
  }

  // ----- nextPow2 -----

  /** p <<= 1 on a 32-bit signed integer. */
  function ShiftLeft(p: int): int
  {
    var v := (2 * p) % 0x1_0000_0000;
    if v >= 0x8000_0000 then v - 0x1_0000_0000 else v
  }

  /** The value of p after k turns of the loop. */
  function Shifted(k: nat): int
  {
    if k == 0 then 1 else ShiftLeft(Shifted(k - 1))
  }

  lemma {:induction false} Pow2Monotone(a: nat, b: nat)
    requires a <= b
    ensures Pow2(a) <= Pow2(b)
    decreases b
  {
    if a < b { Pow2Monotone(a, b - 1); }
  }

  lemma Pow2Of30()
    ensures Pow2(30) == 0x4000_0000
  {
    assert Pow2(10) == 1024;
    assert Pow2(20) == 1024 * 1024;
  }

  lemma LeastPower(n: int, k: nat)
    requires n <= Pow2(k) && forall j: nat :: j < k ==> Pow2(j) < n
    ensures forall j: nat :: Pow2(j) >= n ==> Pow2(k) <= Pow2(j)
  {
    forall j: nat | Pow2(j) >= n ensures Pow2(k) <= Pow2(j) { Pow2Monotone(k, if j < k then k else j); }
  }

  /** The loop of nextPow2, which ends with the least power of two that is at least n. */
  method NextPow2(n: int) returns (p: int)
    requires n <= 0x4000_0000
    ensures p >= n && exists k: nat :: p == Pow2(k) && forall j: nat :: Pow2(j) >= n ==> p <= Pow2(j)
  {
    hide ShiftLeft;
    p := 1;
    ghost var k := 0;
    Pow2Of30();
    while p < n
      invariant k <= 30 && p == Pow2(k)
      invariant forall j: nat :: j < k ==> Pow2(j) < n
      decreases 30 - k
    {
      assert k != 30;
      Pow2Monotone(k + 1, 30);
      ShiftValues(p);
      p, k := ShiftLeft(p), k + 1;
    }
    LeastPower(n, k);
  }

  lemma ShiftValues(p: int)
    ensures 0 <= p < 0x4000_0000 ==> ShiftLeft(p) == 2 * p
    ensures ShiftLeft(0x4000_0000) == -0x8000_0000 && ShiftLeft(-0x8000_0000) == 0 && ShiftLeft(0) == 0
  {
  }

  lemma {:induction false} ShiftedValues(k: nat)
    ensures Shifted(k) == if k <= 30 then Pow2(k) else if k == 31 then -0x8000_0000 else 0
  {
    Pow2Of30();
    if k > 0 {
      ShiftedValues(k - 1);
      ShiftValues(Shifted(k - 1));
      if k <= 30 { Pow2Monotone(k, 30); }
    }
  }

  lemma ShiftedAtMost(k: nat)
    ensures Shifted(k) <= 0x4000_0000
  {
    Pow2Of30();
    ShiftedValues(k);
    if k <= 30 { Pow2Monotone(k, 30); }
  }

  /** The loop ends exactly for arguments up to 2^30: beyond that p wraps to negative, then to 0, and stays there. */
  lemma NextPow2EndsIff(n: int)
    ensures (exists k: nat :: Shifted(k) >= n) <==> n <= 0x4000_0000
  {
    Pow2Of30();
    ShiftedValues(30);
    forall k: nat ensures Shifted(k) <= 0x4000_0000 { ShiftedAtMost(k); }
    assert n <= 0x4000_0000 ==> Shifted(30) >= n;
  }

  // ----- bit reversal -----

  /** The m low bits of i in reverse order. */
  function Rev(m: nat, i: nat): (r: nat)
    requires i < Pow2(m)
    ensures r < Pow2(m)
  {
    if m == 0 then 0 else (if i % 2 == 1 then Pow2(m - 1) else 0) + Rev(m - 1, i / 2)
  }

  /** Reading the same number from its top bit. */
  lemma {:induction false} RevTop(m: nat, i: nat)
    requires m >= 1 && i < Pow2(m)
    ensures var h := Pow2(m - 1);
            Rev(m, i) == if i < h then 2 * Rev(m - 1, i) else 2 * Rev(m - 1, i - h) + 1
    decreases m
  {
    if m > 1 {
      var h := Pow2(m - 1);
      RevTop(m - 1, i / 2);
      if i >= h {
        assert (i - h) / 2 == i / 2 - Pow2(m - 2) && (i - h) % 2 == i % 2;
      }
    }
  }

  /** Reversing twice changes nothing. */
  lemma {:induction false} RevRev(m: nat, i: nat)
    requires i < Pow2(m)
    ensures Rev(m, Rev(m, i)) == i
    decreases m
  {
    if m > 0 {
      var r := Rev(m - 1, i / 2);
      RevRev(m - 1, i / 2);
      assert Rev(m, i) == if i % 2 == 1 then Pow2(m - 1) + r else r;
      RevTop(m, Rev(m, i));
    }
  }

  /** j & bit != 0 for a one-bit mask. */
  predicate HasBit(j: nat, bit: nat)
    requires bit > 0
  {
    (j / bit) % 2 == 1
  }

  /** j ^ bit for a one-bit mask. */
  function Toggle(j: nat, bit: nat): int
    requires bit > 0
  {
    if HasBit(j, bit) then j - bit else j + bit
  }

  lemma TopBit(j: nat, bit: nat)
    requires bit > 0 && j < 2 * bit
    ensures HasBit(j, bit) <==> j >= bit
  {
    if j >= bit { assert j / bit == 1; } else { assert j / bit == 0; }
  }

  /** One turn of the carry loop on the t bits still to be decided. */
  lemma RevNext(t: nat, q: nat)
    requires t >= 1 && q + 1 < Pow2(t)
    ensures var j, bit := Rev(t, q), Pow2(t - 1);
            && (HasBit(j, bit) <==> q % 2 == 1)
            && (q % 2 == 0 ==> Rev(t, q + 1) == j + bit)
            && (q % 2 == 1 ==>
                  && t >= 2 && q / 2 + 1 < bit && j - bit == Rev(t - 1, q / 2)
                  && Rev(t, q + 1) == Rev(t - 1, q / 2 + 1))
  {
    TopBit(Rev(t, q), Pow2(t - 1));
    if q % 2 == 1 {
      assert (q + 1) % 2 == 0 && (q + 1) / 2 == q / 2 + 1;
    } else {
      assert (q + 1) % 2 == 1 && (q + 1) / 2 == q / 2;
    }
  }

  /**
   The carry loop: from the reversal of i - 1 to the reversal of i, adding one at the top bit. Its bits are those
   of 32-bit integers: n >> 1 is half of n up to 2^30, and negative for the next power of two.
   */
  method NextReversed(n: nat, j0: nat, ghost m: nat, ghost i: nat) returns (j: nat)
    requires n == Pow2(m) && m <= 30 && 1 <= i < n && j0 == Rev(m, i - 1)
    ensures j == Rev(m, i)
  {
    var bit := n / 2;
    j := j0;
    ghost var t, q := m, i - 1;
    while HasBit(j, bit)
      invariant 1 <= t <= m && bit == Pow2(t - 1) && 0 <= q && q + 1 < Pow2(t)
      invariant j == Rev(t, q) && Rev(m, i) == Rev(t, q + 1)
      decreases t
    {
      RevNext(t, q);
      j := Toggle(j, bit);
      bit := bit / 2;
      t, q := t - 1, q / 2;
    }
    RevNext(t, q);
    j := Toggle(j, bit);
  }

  /** The permutation itself. */
  function BitReversed<T>(x: seq<T>, m: nat): (r: seq<T>)
    requires |x| == Pow2(m)
    ensures |r| == |x|
  {
    seq(|x|, k requires 0 <= k < |x| => x[Rev(m, k)])
  }

  /** The permutation restores its input when applied twice. */
  lemma BitReversedTwice<T>(x: seq<T>, m: nat)
    requires |x| == Pow2(m)
    ensures BitReversed(BitReversed(x, m), m) == x
  {
    var y := BitReversed(x, m);
    forall k | 0 <= k < |x| ensures BitReversed(y, m)[k] == x[k] {
      RevRev(m, k);
    }
  }

  /** The array once every pair with a member below i has been swapped. */
  function PartlyReversed(x: seq<real>, m: nat, i: nat): (r: seq<real>)
    requires |x| == Pow2(m)
    ensures |r| == |x|
  {
    seq(|x|, k requires 0 <= k < |x| => if k < i || Rev(m, k) < i then x[Rev(m, k)] else x[k])
  }

  /** The swap at i, made only when i is the smaller of its pair, extends the reversed part by one. */
  lemma SwapExtends(x: seq<real>, m: nat, i: nat)
    requires |x| == Pow2(m) && i < |x|
    ensures var a, j := PartlyReversed(x, m, i), Rev(m, i);
            PartlyReversed(x, m, i + 1) == if i < j then a[i := a[j]][j := a[i]] else a
  {
    var a, j := PartlyReversed(x, m, i), Rev(m, i);
    RevRev(m, i);
    var b := if i < j then a[i := a[j]][j := a[i]] else a;
    forall k | 0 <= k < |x| ensures PartlyReversed(x, m, i + 1)[k] == b[k] {
      RevRev(m, k);
      assert Rev(m, k) == i <==> k == j;
    }
  }

  /** The first loop of fft1d: both arrays permuted in place. */
  method BitReverseInPlace(re: array<real>, im: array<real>, ghost m: nat)
    requires re != im && re.Length == im.Length == Pow2(m) && m <= 30
    modifies re, im
    ensures re[..] == BitReversed(old(re[..]), m) && im[..] == BitReversed(old(im[..]), m)
  {
    var n := re.Length;
    ghost var x, y := re[..], im[..];
    var i, j := 1, 0;
    RevZero(m);
    SwapExtends(x, m, 0);
    SwapExtends(y, m, 0);
    assert x == PartlyReversed(x, m, 0) && y == PartlyReversed(y, m, 0);
    while i < n
      invariant 1 <= i && i <= n && j == Rev(m, i - 1)
      invariant re[..] == PartlyReversed(x, m, i) && im[..] == PartlyReversed(y, m, i)
    {
      j := NextReversed(n, j, m, i);
      SwapExtends(x, m, i);
      SwapExtends(y, m, i);
      if i < j {
        re[i], re[j] := re[j], re[i];
        im[i], im[j] := im[j], im[i];
      }
      i := i + 1;
    }
    assert PartlyReversed(x, m, n) == BitReversed(x, m);
    assert PartlyReversed(y, m, n) == BitReversed(y, m);
  }

  lemma {:induction false} RevZero(m: nat)
    ensures Rev(m, 0) == 0
  {
    if m > 0 { RevZero(m - 1); }
  }
}
