/**
 The in-place radix-2 transform (fft1d, src/web_raw3d.js:120-148) over exact reals. The twiddle of a
 stage is a parameter: `root(len)` stands for (cos(-2 pi / len), sin(-2 pi / len)), of which only two
 laws are used.
 */
module Fft {
  import opened Complex
  import opened BitReversal

  /** root(2) = -1, and up to length 2^m squaring the root of a length gives the root of half the length. */
  predicate Twiddles(root: nat -> C, m: nat)
  {
    root(2) == Neg(ONE) && forall s: nat :: 2 <= s <= m ==> HalvesAt(root, s)
  }

  /** exp(-2 pi i / len) for lengths 1, 2 and 4. */
  function QuarterTurns(len: nat): C
  {
    if len <= 1 then ONE else if len == 2 then Neg(ONE) else C(0.0, -1.0)
  }

  lemma FourthRoots()
    ensures Twiddles(QuarterTurns, 2)
  {
    assert Pow2(2) == 4 && Pow2(1) == 2;
  }

  predicate HalvesAt(root: nat -> C, s: nat)
    requires s >= 1
  {
    Mul(root(Pow2(s)), root(Pow2(s))) == root(Pow2(s - 1))
  }

  /** A root of length 2^s, raised to half its length, is -1. */
  lemma {:induction false} HalfTurn(root: nat -> C, s: nat)
    requires Twiddles(root, s) && s >= 1
    ensures Pow(root(Pow2(s)), Pow2(s - 1)) == Neg(ONE)
    decreases s
  {
    var w := root(Pow2(s));
    if s == 1 {
      assert Pow2(1) == 2 && Pow(w, 1) == Mul(ONE, w);
      MulOne(w);
    } else {
      var h := Pow2(s - 2);
      HalfTurn(root, s - 1);
      assert HalvesAt(root, s);
      PowSquare(w, h);
      PowAdd(w, h, h);
    }
  }

  /** Undoing the bit reversal block by block: interleave the two halves, each undone. */
  function Unreversed(x: seq<C>, s: nat): (r: seq<C>)
    requires |x| == Pow2(s)
    ensures |r| == |x|
    decreases s
  {
    if s == 0 then x
    else
      var h := Pow2(s - 1);
      Interleave(Unreversed(x[..h], s - 1), Unreversed(x[h..], s - 1))
  }

  lemma InterleavedAtRev(e: seq<C>, o: seq<C>, s: nat, i: nat)
    requires s >= 1 && |e| == |o| == Pow2(s - 1) && i < Pow2(s)
    ensures var h := Pow2(s - 1);
            Interleave(e, o)[Rev(s, i)] == if i < h then e[Rev(s - 1, i)] else o[Rev(s - 1, i - h)]
  {
    RevTop(s, i);
    InterleaveAt(e, o, Rev(s - 1, if i < Pow2(s - 1) then i else i - Pow2(s - 1)));
  }

  lemma {:induction false} UnreversedAt(x: seq<C>, s: nat, i: nat)
    requires |x| == Pow2(s) && i < |x|
    ensures Unreversed(x, s)[Rev(s, i)] == x[i]
    decreases s
  {
    if s > 0 {
      var h := Pow2(s - 1);
      InterleavedAtRev(Unreversed(x[..h], s - 1), Unreversed(x[h..], s - 1), s, i);
      if i < h {
        UnreversedAt(x[..h], s - 1, i);
      } else {
        UnreversedAt(x[h..], s - 1, i - h);
      }
    }
  }

  /** The permuted input, undone, is the input. */
  lemma UnreversedBitReversed(x: seq<C>, m: nat)
    requires |x| == Pow2(m)
    ensures Unreversed(BitReversed(x, m), m) == x
  {
    var y := BitReversed(x, m);
    forall k | 0 <= k < |x| ensures Unreversed(y, m)[k] == x[k] {
      RevRev(m, k);
      UnreversedAt(y, m, Rev(m, k));
    }
  }

  // ----- one butterfly stage on one block -----

  /** Output k of the butterflies on halves e and o with twiddle w. */
  function Butterfly(e: seq<C>, o: seq<C>, w: C, k: nat): C
    requires |e| == |o| && k < 2 * |e|
  {
    var h := |e|;
    if k < h then Add(e[k], Mul(o[k], Pow(w, k))) else Sub(e[k - h], Mul(o[k - h], Pow(w, k - h)))
  }

  function Combined(e: seq<C>, o: seq<C>, w: C): (r: seq<C>)
    requires |e| == |o|
    ensures |r| == 2 * |e|
  {
    seq(2 * |e|, k requires 0 <= k < 2 * |e| => Butterfly(e, o, w, k))
  }

  lemma FirstHalf(e: seq<C>, o: seq<C>, w: C, k: nat)
    requires |e| == |o|
    ensures Add(Eval(e, Pow(Mul(w, w), k)), Mul(Eval(o, Pow(Mul(w, w), k)), Pow(w, k))) ==
      Eval(Interleave(e, o), Pow(w, k))
  {
    EvalInterleave(e, o, Pow(w, k));
    PowSquare(w, k);
    MulComm(Pow(w, k), Eval(o, Pow(Mul(w, w), k)));
  }

  lemma SecondHalf(e: seq<C>, o: seq<C>, w: C, j: nat, h: nat)
    requires |e| == |o| && Pow(w, h) == Neg(ONE)
    ensures Sub(Eval(e, Pow(Mul(w, w), j)), Mul(Eval(o, Pow(Mul(w, w), j)), Pow(w, j))) ==
            Eval(Interleave(e, o), Pow(w, j + h))
  {
    var u, v, p := Eval(e, Pow(Mul(w, w), j)), Eval(o, Pow(Mul(w, w), j)), Pow(w, j);
    OtherHalf(w, j, h);
    EvalInterleave(e, o, Pow(w, j + h));
    PowSquare(w, j);
    MulComm(p, v);
    MulAdd(p, v, v);
    assert Add(u, Neg(Mul(p, v))) == Sub(u, Mul(v, p));
  }

  lemma CombinedAt(e: seq<C>, o: seq<C>, w: C, k: nat)
    requires |e| == |o| && Pow(w, |e|) == Neg(ONE) && k < 2 * |e|
    ensures Butterfly(Dft(e, Mul(w, w)), Dft(o, Mul(w, w)), w, k) == Eval(Interleave(e, o), Pow(w, k))
  {
    if k < |e| {
      FirstHalf(e, o, w, k);
    } else {
      SecondHalf(e, o, w, k - |e|, |e|);
    }
  }

  /** The butterflies turn the transforms of the even and odd parts into the transform of the whole. */
  lemma CombinedIsDft(e: seq<C>, o: seq<C>, w: C)
    requires |e| == |o| && Pow(w, |e|) == Neg(ONE)
    ensures Combined(Dft(e, Mul(w, w)), Dft(o, Mul(w, w)), w) == Dft(Interleave(e, o), w)
  {
    forall k | 0 <= k < 2 * |e|
      ensures Butterfly(Dft(e, Mul(w, w)), Dft(o, Mul(w, w)), w, k) == Eval(Interleave(e, o), Pow(w, k))
    {
      CombinedAt(e, o, w, k);
    }
  }

  /** Half a turn further the power changes sign and its square does not. */
  lemma OtherHalf(w: C, j: nat, h: nat)
    requires Pow(w, h) == Neg(ONE)
    ensures Pow(w, j + h) == Neg(Pow(w, j))
    ensures Mul(Pow(w, j + h), Pow(w, j + h)) == Mul(Pow(w, j), Pow(w, j))
  {
    PowAdd(w, j, h);
    MulAdd(Pow(w, j), ONE, ONE);
    MulOne(Pow(w, j));
  }

  // ----- the whole array, stage by stage -----

  /** n is a whole number of blocks of length len. */
  predicate Whole(n: nat, len: nat)
    requires len >= 1
  {
    n == 0 || (n >= len && Whole(n - len, len))
  }

  lemma {:induction false} WholeSum(a: nat, b: nat, len: nat)
    requires len >= 1 && Whole(a, len) && Whole(b, len)
    ensures Whole(a + b, len)
    decreases a
  {
    if a > 0 {
      WholeSum(a - len, b, len);
      assert a + b - len == a - len + b;
    }
  }

  lemma {:induction false} WholePow2(m: nat, s: nat)
    requires s <= m
    ensures Whole(Pow2(m), Pow2(s))
    decreases m
  {
    if s == m {
      assert Whole(0, Pow2(s));
    } else {
      WholePow2(m - 1, s);
      WholeSum(Pow2(m - 1), Pow2(m - 1), Pow2(s));
    }
  }

  /** The array after the stage of length 2^s: each block of the permuted input transformed. */
  function Blocks(x: seq<C>, root: nat -> C, s: nat): (r: seq<C>)
    ensures |r| == |x|
    decreases |x|
  {
    var len := Pow2(s);
    if |x| < len then x else BlockOf(x[..len], root, s) + Blocks(x[len..], root, s)
  }

  function BlockOf(x: seq<C>, root: nat -> C, s: nat): (r: seq<C>)
    requires |x| == Pow2(s)
    ensures |r| == |x|
  {
    Dft(Unreversed(x, s), root(Pow2(s)))
  }

  lemma BlocksOfOne(x: seq<C>, root: nat -> C, s: nat)
    requires |x| == Pow2(s)
    ensures Blocks(x, root, s) == BlockOf(x, root, s)
  {
    assert x[..|x|] == x && x[|x|..] == [];
    assert Blocks([], root, s) == [];
  }

  lemma SplitAppend(x: seq<C>, y: seq<C>, n: nat)
    requires n <= |x|
    ensures (x + y)[..n] == x[..n] && (x + y)[n..] == x[n..] + y
  {
  }

  lemma {:induction false} BlocksAppend(x: seq<C>, y: seq<C>, root: nat -> C, s: nat)
    requires Whole(|x|, Pow2(s)) && |y| == Pow2(s)
    ensures Blocks(x + y, root, s) == Blocks(x, root, s) + BlockOf(y, root, s)
    decreases |x|
  {
    if x == [] {
      assert x + y == y;
      BlocksOfOne(y, root, s);
    } else {
      var len := Pow2(s);
      assert |x| > 0 && |x| >= len;
      SplitAppend(x, y, len);
      BlocksAppend(x[len..], y, root, s);
    }
  }

  /** A block of length 2^(s+1) from its two half blocks. */
  lemma BlockFromHalves(x: seq<C>, root: nat -> C, s: nat)
    requires Twiddles(root, s + 1) && |x| == Pow2(s + 1)
    ensures var h := Pow2(s);
            BlockOf(x, root, s + 1) ==
              Combined(BlockOf(x[..h], root, s), BlockOf(x[h..], root, s), root(Pow2(s + 1)))
  {
    var h, w := Pow2(s), root(Pow2(s + 1));
    HalfTurn(root, s + 1);
    if s >= 1 { assert HalvesAt(root, s + 1); }
    CombinedIsDft(Unreversed(x[..h], s), Unreversed(x[h..], s), w);
  }

  // ----- the program -----

  function Zip(re: seq<real>, im: seq<real>): (r: seq<C>)
    requires |re| == |im|
    ensures |r| == |re|
  {
    seq(|re|, k requires 0 <= k < |re| => C(re[k], im[k]))
  }

  /** Entry k of the array after j turns of the inner loop on the block at i. */
  function PartlyCombined(z: seq<C>, i: nat, h: nat, w: C, j: nat, k: nat): C
    requires i + 2 * h <= |z| && j <= h && k < |z|
  {
    if i <= k < i + j || i + h <= k < i + h + j then Butterfly(z[i..i + h], z[i + h..i + 2 * h], w, k - i) else z[k]
  }

  /** The array with the block at i, of two halves of length h, replaced by its butterflies. */
  function Spliced(z: seq<C>, i: nat, h: nat, w: C): (r: seq<C>)
    requires i + 2 * h <= |z|
    ensures |r| == |z|
  {
    z[..i] + Combined(z[i..i + h], z[i + h..i + 2 * h], w) + z[i + 2 * h..]
  }

  /** One butterfly on entries a and b. */
  method ButterflyInPlace(re: array<real>, im: array<real>, a: nat, b: nat, w: C)
    requires re != im && re.Length == im.Length && a < b < re.Length
    modifies re, im
    ensures var u, v := C(old(re[a]), old(im[a])), Mul(C(old(re[b]), old(im[b])), w);
            C(re[a], im[a]) == Add(u, v) && C(re[b], im[b]) == Sub(u, v)
    ensures forall k :: 0 <= k < re.Length && k != a && k != b ==> re[k] == old(re[k]) && im[k] == old(im[k])
  {
    var uRe, uIm := re[a], im[a];
    var vRe := re[b] * w.re - im[b] * w.im;
    var vIm := re[b] * w.im + im[b] * w.re;
    re[a], im[a] := uRe + vRe, uIm + vIm;
    re[b], im[b] := uRe - vRe, uIm - vIm;
  }

  /** The inner loop: the butterflies of one block, in place, with a running power of the twiddle. */
  method CombineBlock(re: array<real>, im: array<real>, i: nat, h: nat, wlen: C)
    requires re != im && re.Length == im.Length && i + 2 * h <= re.Length
    modifies re, im
    ensures Zip(re[..], im[..]) == Spliced(Zip(old(re[..]), old(im[..])), i, h, wlen)
  {
    ghost var z := Zip(re[..], im[..]);
    var w := ONE;
    for j := 0 to h
      invariant w == Pow(wlen, j)
      invariant forall k :: 0 <= k < re.Length ==> C(re[k], im[k]) == PartlyCombined(z, i, h, wlen, j, k)
    {
      assert C(re[i + j], im[i + j]) == z[i + j] && C(re[i + j + h], im[i + j + h]) == z[i + j + h];
      ButterflyInPlace(re, im, i + j, i + j + h, w);
      NextTurn(z, i, h, wlen, j);
      w := Mul(w, wlen);
    }
    AllCombined(z, Zip(re[..], im[..]), i, h, wlen);
  }

  lemma NextTurn(z: seq<C>, i: nat, h: nat, w: C, j: nat)
    requires i + 2 * h <= |z| && j < h
    ensures var u, v := z[i + j], Mul(z[i + j + h], Pow(w, j));
            PartlyCombined(z, i, h, w, j + 1, i + j) == Add(u, v)
              && PartlyCombined(z, i, h, w, j + 1, i + j + h) == Sub(u, v)
    ensures forall k :: 0 <= k < |z| && k != i + j && k != i + j + h ==>
              PartlyCombined(z, i, h, w, j + 1, k) == PartlyCombined(z, i, h, w, j, k)
  {
  }

  lemma AllCombined(z: seq<C>, z': seq<C>, i: nat, h: nat, w: C)
    requires i + 2 * h <= |z| == |z'|
    requires forall k :: 0 <= k < |z| ==> z'[k] == PartlyCombined(z, i, h, w, h, k)
    ensures z' == Spliced(z, i, h, w)
  {
  }

  /** Combining the next block y, after whole blocks p and before the rest q, is one more block done. */
  lemma OneMoreBlock(p: seq<C>, y: seq<C>, q: seq<C>, root: nat -> C, s: nat)
    requires Twiddles(root, s + 1) && Whole(|p|, Pow2(s + 1)) && |y| == Pow2(s + 1)
    ensures Spliced(Blocks(p, root, s + 1) + Blocks(y + q, root, s), |p|, Pow2(s), root(Pow2(s + 1))) ==
              Blocks(p + y, root, s + 1) + Blocks(q, root, s)
  {
    var h := Pow2(s);
    TwoBlocks(y, q, root, s);
    BlockFromHalves(y, root, s);
    BlocksAppend(p, y, root, s + 1);
    Regroup(Blocks(p, root, s + 1), BlockOf(y[..h], root, s), BlockOf(y[h..], root, s), Blocks(q, root, s),
      root(Pow2(s + 1)));
  }

  lemma Regroup(done: seq<C>, a: seq<C>, b: seq<C>, rest: seq<C>, w: C)
    requires |a| == |b|
    ensures Spliced(done + (a + b + rest), |done|, |a|, w) == done + Combined(a, b, w) + rest
  {
    var z, i, h := done + (a + b + rest), |done|, |a|;
    assert z[..i] == done && z[i..i + h] == a && z[i + h..i + 2 * h] == b && z[i + 2 * h..] == rest;
  }

  lemma TwoBlocks(y: seq<C>, q: seq<C>, root: nat -> C, s: nat)
    requires |y| == Pow2(s + 1)
    ensures var h := Pow2(s);
            Blocks(y + q, root, s) == BlockOf(y[..h], root, s) + BlockOf(y[h..], root, s) + Blocks(q, root, s)
  {
    var h := Pow2(s);
    SplitAppend(y, q, h);
    SplitAppend(y[h..], q, h);
    assert y[h..][..h] == y[h..] && y[h..][h..] + q == q;
    assert Blocks(y + q, root, s) == BlockOf(y[..h], root, s) + Blocks(y[h..] + q, root, s);
  }

  /** The array inside a stage, with blocks of the next length done up to i. */
  function StageAt(x: seq<C>, root: nat -> C, s: nat, i: nat): (r: seq<C>)
    requires i <= |x|
    ensures |r| == |x|
  {
    Blocks(x[..i], root, s + 1) + Blocks(x[i..], root, s)
  }

  lemma StageEnds(x: seq<C>, root: nat -> C, s: nat)
    ensures StageAt(x, root, s, 0) == Blocks(x, root, s) && StageAt(x, root, s, |x|) == Blocks(x, root, s + 1)
  {
    assert x[..0] == [] && x[0..] == x && x[..|x|] == x && x[|x|..] == [];
  }

  lemma StageTurn(x: seq<C>, root: nat -> C, s: nat, i: nat)
    requires Twiddles(root, s + 1) && Whole(i, Pow2(s + 1)) && i + Pow2(s + 1) <= |x|
    ensures Spliced(StageAt(x, root, s, i), i, Pow2(s), root(Pow2(s + 1))) == StageAt(x, root, s, i + Pow2(s + 1))
  {
    var j := i + Pow2(s + 1);
    assert x[i..] == x[i..j] + x[j..] && x[..i] + x[i..j] == x[..j];
    OneMoreBlock(x[..i], x[i..j], x[j..], root, s);
  }

  lemma StageTurnAt(z: seq<C>, x: seq<C>, root: nat -> C, s: nat, i: nat, len: nat, h: nat, w: C)
    requires Twiddles(root, s + 1) && len == Pow2(s + 1) && h == Pow2(s) && Whole(i, len) && i + len <= |x|
    requires z == StageAt(x, root, s, i) && w == root(len)
    ensures Spliced(z, i, h, w) == StageAt(x, root, s, i + len)
  {
    hide Blocks, Spliced, StageAt;
    StageTurn(x, root, s, i);
  }

  lemma NoBlocks(len: nat)
    requires len >= 1
    ensures Whole(0, len)
  {
  }

  lemma NextBlock(i: nat, n: nat, len: nat)
    requires len >= 1 && i < n && Whole(i, len) && Whole(n - i, len)
    ensures i + len <= n && Whole(i + len, len) && Whole(n - (i + len), len)
  {
    assert i + len - len == i && n - i - len == n - (i + len);
  }

  /** One turn of the block loop. */
  method NextBlockInPlace(re: array<real>, im: array<real>, i: nat, len: nat, h: nat, wlen: C,
                          root: nat -> C, ghost x: seq<C>, ghost s: nat)
    requires re != im && re.Length == im.Length == |x| && Twiddles(root, s + 1) && wlen == root(len)
    requires len == Pow2(s + 1) && h == Pow2(s) && Whole(i, len) && i + len <= |x|
    requires Zip(re[..], im[..]) == StageAt(x, root, s, i)
    modifies re, im
    ensures Zip(re[..], im[..]) == StageAt(x, root, s, i + len)
  {
    hide Blocks, Spliced, StageAt;
    StageTurnAt(Zip(re[..], im[..]), x, root, s, i, len, h, wlen);
    CombineBlock(re, im, i, h, wlen);
  }

  /** The block loop: one stage, from transforms of length 2^s to transforms of length 2^(s+1). */
  method Stage(re: array<real>, im: array<real>, len: nat, root: nat -> C, ghost x: seq<C>, ghost s: nat)
    requires re != im && re.Length == im.Length == |x| && Twiddles(root, s + 1)
    requires len == Pow2(s + 1) && Whole(|x|, len)
    requires Zip(re[..], im[..]) == Blocks(x, root, s)
    modifies re, im
    ensures Zip(re[..], im[..]) == Blocks(x, root, s + 1)
  {
    hide Blocks, StageAt, Zip, Whole, Twiddles;
    var n := re.Length;
    var wlen := root(len);
    var i := 0;
    StageEnds(x, root, s);
    NoBlocks(len);
    while i < n
      invariant i <= n && Whole(i, len) && Whole(n - i, len)
      invariant Zip(re[..], im[..]) == StageAt(x, root, s, i)
    {
      NextBlock(i, n, len);
      NextBlockInPlace(re, im, i, len, len / 2, wlen, root, x, s);
      i := i + len;
    }
  }

  lemma {:induction false} BlocksOfLengthOne(x: seq<C>, root: nat -> C)
    ensures Blocks(x, root, 0) == x
    decreases |x|
  {
    if x != [] {
      BlocksOfLengthOne(x[1..], root);
      var a := x[0];
      assert x[..1] == [a];
      EvalOne(a, ONE);
      MulOne(a);
      assert Dft([a], root(1)) == [a];
    }
  }

  lemma LastStage(x: seq<C>, root: nat -> C, m: nat)
    requires |x| == Pow2(m)
    ensures Blocks(BitReversed(x, m), root, m) == Dft(x, root(|x|))
  {
    BlocksOfOne(BitReversed(x, m), root, m);
    UnreversedBitReversed(x, m);
  }

  lemma DftIsSum(x: seq<C>, w: C, k: nat)
    requires k < |x|
    ensures Dft(x, w)[k] == DftSum(x, w, k, |x|)
  {
    DftSumIsEval(x, w, k, |x|);
    assert x[..|x|] == x;
  }

  lemma ZipReversed(re: seq<real>, im: seq<real>, m: nat)
    requires |re| == |im| == Pow2(m)
    ensures Zip(BitReversed(re, m), BitReversed(im, m)) == BitReversed(Zip(re, im), m)
  {
  }

  /**
   The stage length is Shifted(1), Shifted(2) and so on: it starts at 2 and is shifted left once a stage, on
   32-bit integers. It comes to exceed the array's length exactly for lengths up to 2^29: at 2^30 it goes from
   2^30 to -2^31, which is not above it.
   */
  lemma StagesEndIff(m: nat)
    ensures (exists k: nat :: k > 0 && Shifted(k) > Pow2(m)) <==> m <= 29
  {
    Pow2Of30();
    if m <= 29 {
      Pow2Monotone(m + 1, 30);
      ShiftedValues(m + 1);
      assert Shifted(m + 1) > Pow2(m);
    } else {
      Pow2Monotone(30, m);
      forall k: nat ensures Shifted(k) <= Pow2(m) { ShiftedAtMost(k); }
    }
  }

  /** The next stage length, while the arrays are short enough. */
  lemma NextLength(s: nat, m: nat)
    requires s < m <= 29
    ensures ShiftLeft(Pow2(s + 1)) == Pow2(s + 2)
  {
    Pow2Of30();
    Pow2Monotone(s + 1, 29);
    ShiftValues(Pow2(s + 1));
  }

  /** The stage loop, on input already permuted. */
  method AllStages(re: array<real>, im: array<real>, root: nat -> C, ghost y: seq<C>, ghost m: nat)
    requires re != im && re.Length == im.Length == |y| == Pow2(m) && m <= 29 && Twiddles(root, m)
    requires Zip(re[..], im[..]) == y
    modifies re, im
    ensures Zip(re[..], im[..]) == Blocks(y, root, m)
  {
    BlocksOfLengthOne(y, root);
    var len := 2;
    ghost var s := 0;
    while len <= re.Length
      invariant s <= m && len == Pow2(s + 1)
      invariant Zip(re[..], im[..]) == Blocks(y, root, s)
      decreases m - s
    {
      WholePow2(m, s + 1);
      NextLength(s, m);
      Stage(re, im, len, root, y, s);
      len, s := ShiftLeft(len), s + 1;
    }
    if s < m { Pow2Monotone(s + 1, m); }
  }

  /**
   fft1d leaves the discrete Fourier transform of its input in place: for every power-of-two length for which
   its stage loop ends, and every input, entry k is the sum over j of x[j] root(n)^(j k).
   */
  method Fft1d(re: array<real>, im: array<real>, root: nat -> C, ghost m: nat)
    requires re != im && re.Length == im.Length == Pow2(m) && m <= 29 && Twiddles(root, m)
    modifies re, im
    ensures var x, w := Zip(old(re[..]), old(im[..])), root(re.Length);
            forall k :: 0 <= k < re.Length ==> C(re[k], im[k]) == DftSum(x, w, k, |x|)
  {
    ghost var x := Zip(re[..], im[..]);
    ZipReversed(re[..], im[..], m);
    BitReverseInPlace(re, im, m);
    AllStages(re, im, root, BitReversed(x, m), m);
    LastStage(x, root, m);
    forall k | 0 <= k < re.Length ensures C(re[k], im[k]) == DftSum(x, root(re.Length), k, |x|) {
      DftIsSum(x, root(re.Length), k);
      assert C(re[k], im[k]) == Zip(re[..], im[..])[k];
    }
  }
}
