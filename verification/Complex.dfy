/** Exact complex arithmetic, polynomial evaluation and the discrete Fourier transform as a sum. */
module Complex {
  datatype C = C(re: real, im: real)

  const ZERO := C(0.0, 0.0)
  const ONE := C(1.0, 0.0)

  function Add(a: C, b: C): C { C(a.re + b.re, a.im + b.im) }
  function Sub(a: C, b: C): C { C(a.re - b.re, a.im - b.im) }
  function Mul(a: C, b: C): C { C(a.re * b.re - a.im * b.im, a.re * b.im + a.im * b.re) }
  function Neg(a: C): C { C(-a.re, -a.im) }

  lemma MulComm(a: C, b: C) ensures Mul(a, b) == Mul(b, a) {}
  lemma MulOne(a: C) ensures Mul(a, ONE) == a && Mul(ONE, a) == a {}

  lemma MulAssoc(a: C, b: C, c: C)
    ensures Mul(Mul(a, b), c) == Mul(a, Mul(b, c))
  {
  }

  lemma MulAdd(a: C, b: C, c: C)
    ensures Mul(a, Add(b, c)) == Add(Mul(a, b), Mul(a, c))
    ensures Mul(a, Neg(b)) == Neg(Mul(a, b)) && Mul(Neg(a), b) == Neg(Mul(a, b))
  {
  }

  function Pow(w: C, k: nat): C
  {
    if k == 0 then ONE else Mul(Pow(w, k - 1), w)
  }

  lemma {:induction false} PowAdd(w: C, a: nat, b: nat)
    ensures Pow(w, a + b) == Mul(Pow(w, a), Pow(w, b))
    decreases b
  {
    if b == 0 {
      MulOne(Pow(w, a));
    } else {
      PowAdd(w, a, b - 1);
      MulAssoc(Pow(w, a), Pow(w, b - 1), w);
    }
  }

  lemma {:induction false} PowPow(w: C, k: nat, t: nat)
    ensures Pow(w, t * k) == Pow(Pow(w, k), t)
    decreases t
  {
    if t == 0 {
      assert t * k == 0;
    } else {
      assert t * k == (t - 1) * k + k;
      PowAdd(w, (t - 1) * k, k);
      PowPow(w, k, t - 1);
    }
  }

  lemma {:induction false} PowSquare(w: C, k: nat)
    ensures Pow(Mul(w, w), k) == Mul(Pow(w, k), Pow(w, k))
    decreases k
  {
    if k > 0 {
      var p := Pow(w, k - 1);
      PowSquare(w, k - 1);
      MulAssoc(Mul(p, p), w, w);
      MulAssoc(p, p, w);
      MulComm(p, w);
      MulAssoc(p, w, p);
      MulAssoc(Mul(p, w), p, w);
    }
  }

  /** x[0] + x[1] z + x[2] z^2 + ... by Horner's rule. */
  function Eval(x: seq<C>, z: C): C
  {
    if x == [] then ZERO else Add(x[0], Mul(z, Eval(x[1..], z)))
  }

  /** The transform as it is written down: the sum over j < n of x[j] w^(j k). */
  function DftSum(x: seq<C>, w: C, k: nat, n: nat): C
    requires n <= |x|
  {
    if n == 0 then ZERO else Add(DftSum(x, w, k, n - 1), Mul(x[n - 1], Pow(w, (n - 1) * k)))
  }

  lemma AppendStep(x0: C, z: C, pt: C, a: C, p: C)
    ensures Add(x0, Mul(z, Add(pt, Mul(a, p)))) == Add(Add(x0, Mul(z, pt)), Mul(a, Mul(p, z)))
  {
    MulAdd(z, pt, Mul(a, p));
    MulComm(z, Mul(a, p));
    MulAssoc(a, p, z);
  }

  lemma EvalOne(a: C, z: C)
    ensures Eval([a], z) == Add(ZERO, Mul(a, ONE))
  {
    assert [a][1..] == [];
    assert Mul(z, ZERO) == ZERO;
  }

  lemma {:induction false} EvalAppend(x: seq<C>, a: C, z: C)
    ensures Eval(x + [a], z) == Add(Eval(x, z), Mul(a, Pow(z, |x|)))
    decreases |x|
  {
    if x == [] {
      assert [] + [a] == [a];
      EvalOne(a, z);
    } else {
      var tail := x[1..];
      assert (x + [a])[1..] == tail + [a] && (x + [a])[0] == x[0];
      EvalAppend(tail, a, z);
      AppendStep(x[0], z, Eval(tail, z), a, Pow(z, |x| - 1));
    }
  }

  /** The sum is the polynomial's value at w^k. */
  lemma {:induction false} DftSumIsEval(x: seq<C>, w: C, k: nat, n: nat)
    requires n <= |x|
    ensures DftSum(x, w, k, n) == Eval(x[..n], Pow(w, k))
    decreases n
  {
    if n > 0 {
      DftSumIsEval(x, w, k, n - 1);
      EvalAppend(x[..n - 1], x[n - 1], Pow(w, k));
      assert x[..n - 1] + [x[n - 1]] == x[..n];
      PowPow(w, k, n - 1);
    }
  }

  function Dft(x: seq<C>, w: C): (r: seq<C>)
    ensures |r| == |x|
  {
    seq(|x|, k requires 0 <= k => Eval(x, Pow(w, k)))
  }

  /** e[0], o[0], e[1], o[1], ... */
  function Interleave(e: seq<C>, o: seq<C>): (r: seq<C>)
    requires |e| == |o|
    ensures |r| == 2 * |e|
  {
    if e == [] then [] else [e[0], o[0]] + Interleave(e[1..], o[1..])
  }

  lemma {:induction false} InterleaveAt(e: seq<C>, o: seq<C>, t: nat)
    requires |e| == |o| && t < |e|
    ensures Interleave(e, o)[2 * t] == e[t] && Interleave(e, o)[2 * t + 1] == o[t]
    decreases t
  {
    if t > 0 { InterleaveAt(e[1..], o[1..], t - 1); }
  }

  lemma HornerTwice(e0: C, o0: C, z: C, pe: C, po: C)
    ensures Add(e0, Mul(z, Add(o0, Mul(z, Add(pe, Mul(z, po)))))) ==
            Add(Add(e0, Mul(Mul(z, z), pe)), Mul(z, Add(o0, Mul(Mul(z, z), po))))
  {
    var zz := Mul(z, z);
    MulAdd(z, pe, Mul(z, po));
    MulAdd(z, o0, Mul(z, Add(pe, Mul(z, po))));
    MulAssoc(z, z, Add(pe, Mul(z, po)));
    MulAdd(zz, pe, Mul(z, po));
    MulAdd(z, o0, Mul(zz, po));
    MulAssoc(zz, z, po);
    MulAssoc(z, zz, po);
    MulComm(zz, z);
  }

  /** Splitting a polynomial into its even and odd coefficients. */
  lemma {:induction false} EvalInterleave(e: seq<C>, o: seq<C>, z: C)
    requires |e| == |o|
    ensures Eval(Interleave(e, o), z) == Add(Eval(e, Mul(z, z)), Mul(z, Eval(o, Mul(z, z))))
    decreases |e|
  {
    if e == [] {
      assert Mul(z, ZERO) == ZERO;
    } else {
      var x := Interleave(e, o);
      var rest := Interleave(e[1..], o[1..]);
      EvalInterleave(e[1..], o[1..], z);
      assert x[0] == e[0] && x[1..] == [o[0]] + rest && x[1..][1..] == rest;
      assert Eval(x[1..], z) == Add(o[0], Mul(z, Eval(rest, z)));
      HornerTwice(e[0], o[0], z, Eval(e[1..], Mul(z, z)), Eval(o[1..], Mul(z, z)));
    }
  }
}
