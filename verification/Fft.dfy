/** The in-place radix-2 Fourier transform of the Resonance audio library, over exact complex numbers. */
module Fft {
  datatype Complex = Complex(re: real, im: real)

  const ZERO: Complex := Complex(0.0, 0.0)
  const ONE: Complex := Complex(1.0, 0.0)
  const MINUS_ONE: Complex := Complex(-1.0, 0.0)

  function Add(a: Complex, b: Complex): Complex { Complex(a.re + b.re, a.im + b.im) }

  function Sub(a: Complex, b: Complex): Complex { Complex(a.re - b.re, a.im - b.im) }

  function Mul(a: Complex, b: Complex): Complex { Complex(a.re * b.re - a.im * b.im, a.re * b.im + a.im * b.re) }

  lemma SquareOfI()
    ensures Mul(Complex(0.0, 1.0), Complex(0.0, 1.0)) == Complex(-1.0, 0.0)
  {
  }

  /** Real numbers are added and multiplied as such. */
  lemma RealArithmetic(x: real, y: real)
    ensures Add(Complex(x, 0.0), Complex(y, 0.0)) == Complex(x + y, 0.0)
    ensures Mul(Complex(x, 0.0), Complex(y, 0.0)) == Complex(x * y, 0.0)
  {
    assert x * 0.0 == 0.0 && 0.0 * y == 0.0 && 0.0 * 0.0 == 0.0;
  }

  /** Every number is a real one and a real multiple of `i`. */
  lemma RealAndImaginary(a: Complex)
    ensures Add(Complex(a.re, 0.0), Mul(Complex(a.im, 0.0), Complex(0.0, 1.0))) == a
  {
  }

  lemma MulAssociates(a: Complex, b: Complex, c: Complex)
    ensures Mul(Mul(a, b), c) == Mul(a, Mul(b, c))
  {
  }

  lemma MulCommutes(a: Complex, b: Complex)
    ensures Mul(a, b) == Mul(b, a)
  {
  }

  lemma MulDistributes(a: Complex, b: Complex, c: Complex)
    ensures Mul(a, Add(b, c)) == Add(Mul(a, b), Mul(a, c))
  {
  }

  lemma MulNegative(a: Complex, b: Complex, c: Complex)
    ensures Add(b, Mul(Mul(MINUS_ONE, a), c)) == Sub(b, Mul(a, c))
    ensures Mul(Mul(MINUS_ONE, a), Mul(MINUS_ONE, a)) == Mul(a, a)
  {
  }

  function Pow(w: Complex, k: nat): Complex {
    if k == 0 then ONE else Mul(w, Pow(w, k - 1))
  }

  lemma {:induction false} PowAdds(w: Complex, a: nat, b: nat)
    ensures Pow(w, a + b) == Mul(Pow(w, a), Pow(w, b))
  {
    hide Mul;
    if a == 0 {
      OneIsNeutral(Pow(w, b));
    } else {
      PowAdds(w, a - 1, b);
      MulAssociates(w, Pow(w, a - 1), Pow(w, b));
    }
  }

  lemma OneIsNeutral(a: Complex)
    ensures Mul(ONE, a) == a && Add(a, Mul(a, ZERO)) == a && Add(ZERO, a) == a
  {
  }

  lemma {:induction false} PowPow(w: Complex, a: nat, b: nat)
    ensures Pow(Pow(w, a), b) == Pow(w, b * a)
  {
    hide Mul;
    if b == 0 {
    } else {
      PowPow(w, a, b - 1);
      PowAdds(w, a, (b - 1) * a);
      assert a + (b - 1) * a == b * a;
    }
  }

  lemma PowSquare(w: Complex, k: nat)
    ensures Pow(Mul(w, w), k) == Mul(Pow(w, k), Pow(w, k)) == Pow(w, 2 * k)
  {
    hide Mul;
    SquareIs(w);
    PowPow(w, 2, k);
    PowAdds(w, k, k);
  }

  lemma SquareIs(w: Complex)
    ensures Pow(w, 2) == Mul(w, w) && Pow(w, 1) == w
  {
    assert Pow(w, 1) == Mul(w, Pow(w, 0)) == w;
  }

  // ----- the transform

  /** The sum of `x[j] * w^(j * k)` over `from <= j`. */
  function SumFrom(x: seq<Complex>, w: Complex, k: nat, from: nat): Complex
    decreases |x| - from
  {
    if from >= |x| then ZERO else Add(Mul(x[from], Pow(w, from * k)), SumFrom(x, w, k, from + 1))
  }

  /** The discrete Fourier transform at `k`, with `w` for the root of unity. */
  function Dft(x: seq<Complex>, w: Complex, k: nat): Complex { SumFrom(x, w, k, 0) }

  /** The real and the imaginary part of that sum, over real numbers: `c` and `s` are the parts of the powers of `w`. */
  ghost function RealSum(x: seq<Complex>, c: nat -> real, s: nat -> real, k: nat, from: nat): real
    decreases |x| - from
  {
    if from >= |x| then 0.0
    else x[from].re * c(from * k) - x[from].im * s(from * k) + RealSum(x, c, s, k, from + 1)
  }

  ghost function ImaginarySum(x: seq<Complex>, c: nat -> real, s: nat -> real, k: nat, from: nat): real
    decreases |x| - from
  {
    if from >= |x| then 0.0
    else x[from].re * s(from * k) + x[from].im * c(from * k) + ImaginarySum(x, c, s, k, from + 1)
  }

  /** The parts of the powers of a number follow the rule for sums of angles. */
  ghost predicate Turns(w: Complex, c: nat -> real, s: nat -> real) {
    && c(0) == 1.0 && s(0) == 0.0
    && forall k: nat :: c(k + 1) == w.re * c(k) - w.im * s(k) && s(k + 1) == w.re * s(k) + w.im * c(k)
  }

  lemma {:induction false} PowTurns(w: Complex, c: nat -> real, s: nat -> real, k: nat)
    requires Turns(w, c, s)
    ensures Pow(w, k) == Complex(c(k), s(k))
  {
    hide Mul, Turns;
    if k == 0 {
      TurnsStart(w, c, s);
    } else {
      PowTurns(w, c, s, k - 1);
      TurnsOn(w, c, s, k - 1);
      MulParts(w, c(k - 1), s(k - 1));
    }
  }

  lemma TurnsStart(w: Complex, c: nat -> real, s: nat -> real)
    requires Turns(w, c, s)
    ensures Complex(c(0), s(0)) == ONE
  {
  }

  lemma TurnsOn(w: Complex, c: nat -> real, s: nat -> real, k: nat)
    requires Turns(w, c, s)
    ensures c(k + 1) == w.re * c(k) - w.im * s(k) && s(k + 1) == w.re * s(k) + w.im * c(k)
  {
  }

  lemma MulParts(a: Complex, c: real, s: real)
    ensures Mul(a, Complex(c, s)) == Complex(a.re * c - a.im * s, a.re * s + a.im * c)
  {
  }

  lemma AddParts(a: Complex, x: real, y: real)
    ensures Add(a, Complex(x, y)) == Complex(a.re + x, a.im + y)
  {
  }

  /** The transform in real numbers: sums of samples times cosines and sines. */
  lemma {:induction false} DftInReals(x: seq<Complex>, w: Complex, c: nat -> real, s: nat -> real, k: nat, from: nat)
    requires Turns(w, c, s)
    ensures SumFrom(x, w, k, from) == Complex(RealSum(x, c, s, k, from), ImaginarySum(x, c, s, k, from))
    ensures from == 0 ==> Dft(x, w, k) == Complex(RealSum(x, c, s, k, 0), ImaginarySum(x, c, s, k, 0))
    decreases |x| - from
  {
    hide *;
    SumsUnfold(x, w, c, s, k, from);
    if from < |x| {
      var p := from * k;
      DftInReals(x, w, c, s, k, from + 1);
      PowTurns(w, c, s, p);
      MulParts(x[from], c(p), s(p));
      var term := Complex(x[from].re * c(p) - x[from].im * s(p), x[from].re * s(p) + x[from].im * c(p));
      var x1, y1 := RealSum(x, c, s, k, from + 1), ImaginarySum(x, c, s, k, from + 1);
      assert Pow(w, p) == Complex(c(p), s(p));
      assert Mul(x[from], Pow(w, p)) == term;
      assert SumFrom(x, w, k, from + 1) == Complex(x1, y1);
      assert SumFrom(x, w, k, from) == Add(Mul(x[from], Pow(w, p)), SumFrom(x, w, k, from + 1));
      assert SumFrom(x, w, k, from) == Add(term, Complex(x1, y1));
      AddParts(term, x1, y1);
      assert SumFrom(x, w, k, from).re == RealSum(x, c, s, k, from);
      assert SumFrom(x, w, k, from).im == ImaginarySum(x, c, s, k, from);
    }
  }

  lemma SumsUnfold(x: seq<Complex>, w: Complex, c: nat -> real, s: nat -> real, k: nat, from: nat)
    ensures Dft(x, w, k) == SumFrom(x, w, k, 0)
    ensures from >= |x| ==>
              && SumFrom(x, w, k, from) == Complex(0.0, 0.0)
              && RealSum(x, c, s, k, from) == 0.0 && ImaginarySum(x, c, s, k, from) == 0.0
    ensures from < |x| ==>
              var p := from * k;
              && SumFrom(x, w, k, from) == Add(Mul(x[from], Pow(w, p)), SumFrom(x, w, k, from + 1))
              && RealSum(x, c, s, k, from) == x[from].re * c(p) - x[from].im * s(p) + RealSum(x, c, s, k, from + 1)
              && ImaginarySum(x, c, s, k, from)
                   == x[from].re * s(p) + x[from].im * c(p) + ImaginarySum(x, c, s, k, from + 1)
  {
    hide Mul, Add, Pow;
  }

  /** The polynomial with coefficients `x`. */
  function Eval(x: seq<Complex>, z: Complex): Complex {
    if x == [] then ZERO else Add(x[0], Mul(z, Eval(x[1..], z)))
  }

  /** A transform is the value of the polynomial at a power of the root. */
  lemma {:induction false} SumIsEval(x: seq<Complex>, w: Complex, k: nat, from: nat)
    requires from <= |x|
    ensures SumFrom(x, w, k, from) == Mul(Pow(w, from * k), Eval(x[from..], Pow(w, k)))
    decreases |x| - from
  {
    hide Mul, Add;
    if from == |x| {
      MulZero(Pow(w, from * k));
    } else {
      var z, p, rest := Pow(w, k), Pow(w, from * k), Eval(x[from + 1..], Pow(w, k));
      SumIsEval(x, w, k, from + 1);
      assert x[from..][1..] == x[from + 1..];
      assert (from + 1) * k == from * k + k;
      PowAdds(w, from * k, k);
      MulAssociates(p, z, rest);
      MulDistributes(p, x[from], Mul(z, rest));
      MulCommutes(p, x[from]);
    }
  }

  lemma MulZero(a: Complex)
    ensures Mul(a, ZERO) == ZERO
  {
  }

  lemma DftIsEval(x: seq<Complex>, w: Complex, k: nat)
    ensures Dft(x, w, k) == Eval(x, Pow(w, k))
  {
    hide Mul, Add;
    SumIsEval(x, w, k, 0);
    assert x[0..] == x;
    OneIsNeutral(Eval(x, Pow(w, k)));
  }

  function Evens(x: seq<Complex>): (e: seq<Complex>)
    ensures |e| == |x| / 2
  {
    seq(|x| / 2, i requires 0 <= i < |x| / 2 => x[2 * i])
  }

  function Odds(x: seq<Complex>): (o: seq<Complex>)
    ensures |o| == |x| / 2
  {
    seq(|x| / 2, i requires 0 <= i < |x| / 2 => x[2 * i + 1])
  }

  /** The even and odd halves of a polynomial. */
  lemma {:induction false} EvalHalves(x: seq<Complex>, z: Complex)
    requires |x| % 2 == 0
    ensures Eval(x, z) == Add(Eval(Evens(x), Mul(z, z)), Mul(z, Eval(Odds(x), Mul(z, z))))
    decreases |x|
  {
    hide Mul, Add;
    if x == [] {
      MulZero(z);
      OneIsNeutral(ZERO);
    } else {
      var rest, z2 := x[2..], Mul(z, z);
      EvalHalves(rest, z);
      assert Evens(x) == [x[0]] + Evens(rest) && Odds(x) == [x[1]] + Odds(rest);
      assert Evens(x)[1..] == Evens(rest) && Odds(x)[1..] == Odds(rest);
      assert x[1..][1..] == rest;
      HalvesAlgebra(x[0], x[1], z, Eval(Evens(rest), z2), Eval(Odds(rest), z2));
    }
  }

  lemma HalvesAlgebra(a: Complex, b: Complex, z: Complex, e: Complex, o: Complex)
    ensures Add(a, Mul(z, Add(b, Mul(z, Add(e, Mul(z, o))))))
         == Add(Add(a, Mul(Mul(z, z), e)), Mul(z, Add(b, Mul(Mul(z, z), o))))
  {
    hide Add, Mul;
    var zo := Mul(z, o);
    MulDistributes(z, e, zo);
    MulDistributes(z, b, Add(Mul(z, e), Mul(z, zo)));
    MulDistributes(z, Mul(z, e), Mul(z, zo));
    MulDistributes(z, b, Mul(Mul(z, z), o));
    MulAssociates(z, z, e);
    MulAssociates(z, z, o);
    AddShuffle(a, Mul(z, b), Mul(z, Mul(z, e)), Mul(z, Mul(z, zo)));
  }

  lemma AddShuffle(a: Complex, b: Complex, c: Complex, d: Complex)
    ensures Add(a, Add(b, Add(c, d))) == Add(Add(a, c), Add(b, d))
  {
  }

  predicate IsPowerOfTwo(n: nat) { n == 1 || (n > 1 && n % 2 == 0 && IsPowerOfTwo(n / 2)) }

  function Lower(e: seq<Complex>, o: seq<Complex>, w: Complex): (r: seq<Complex>)
    requires |e| == |o|
    ensures |r| == |e| && forall j :: 0 <= j < |e| ==> r[j] == Add(e[j], Mul(Pow(w, j), o[j]))
  {
    seq(|e|, j requires 0 <= j < |e| => Add(e[j], Mul(Pow(w, j), o[j])))
  }

  function Upper(e: seq<Complex>, o: seq<Complex>, w: Complex): (r: seq<Complex>)
    requires |e| == |o|
    ensures |r| == |e| && forall j :: 0 <= j < |e| ==> r[j] == Sub(e[j], Mul(Pow(w, j), o[j]))
  {
    seq(|e|, j requires 0 <= j < |e| => Sub(e[j], Mul(Pow(w, j), o[j])))
  }

  lemma PowerPositive(n: nat)
    requires IsPowerOfTwo(n)
    ensures n > 0
  {
  }

  /** One level of butterflies: the transform of a sequence from those of its halves. */
  function Merge(e: seq<Complex>, o: seq<Complex>, w: Complex): (r: seq<Complex>)
    requires |e| == |o|
    ensures |r| == 2 * |e|
    ensures forall j :: 0 <= j < |e| ==>
              r[j] == Add(e[j], Mul(Pow(w, j), o[j])) && r[j + |e|] == Sub(e[j], Mul(Pow(w, j), o[j]))
  {
    Lower(e, o, w) + Upper(e, o, w)
  }

  /** The transform by halves. */
  function Fast(x: seq<Complex>, w: Complex): (r: seq<Complex>)
    requires IsPowerOfTwo(|x|)
    ensures |r| == |x|
    decreases |x|
  {
    if |x| == 1 then x else Merge(Fast(Evens(x), Mul(w, w)), Fast(Odds(x), Mul(w, w)), w)
  }

  /** The square of a root of order n is one of order n / 2. */
  lemma RootSquare(w: Complex, n: nat)
    requires IsPowerOfTwo(n) && n > 2 && Pow(w, n / 2) == MINUS_ONE
    ensures Pow(Mul(w, w), n / 2 / 2) == MINUS_ONE
  {
    PowSquare(w, n / 2 / 2);
    assert n / 2 > 1 && 2 * (n / 2 / 2) == n / 2;
  }

  /** The transform by halves is the Fourier transform. */
  lemma {:induction false} FastIsEval(x: seq<Complex>, w: Complex, k: nat)
    requires IsPowerOfTwo(|x|) && k < |x| && (|x| > 1 ==> Pow(w, |x| / 2) == MINUS_ONE)
    ensures Fast(x, w)[k] == Eval(x, Pow(w, k))
    decreases |x|
  {
    hide *;
    if |x| == 1 {
      FastOne(x, w, Pow(w, k));
    } else {
      FastSplits(x, w);
      var mh := |x| / 2;
      var j := if k < mh then k else k - mh;
      var z := Pow(w, j);
      if mh > 1 {
        RootSquare(w, |x|);
      }
      FastIsEval(Evens(x), Mul(w, w), j);
      FastIsEval(Odds(x), Mul(w, w), j);
      PowSquare(w, j);
      EvalHalves(x, z);
      PowAdds(w, mh, j);
      EvalHalves(x, Mul(MINUS_ONE, z));
      MulNegative(z, Eval(Evens(x), Mul(z, z)), Eval(Odds(x), Mul(z, z)));
    }
  }

  lemma FastOne(x: seq<Complex>, w: Complex, z: Complex)
    requires |x| == 1
    ensures Fast(x, w) == x && Eval(x, z) == x[0]
  {
    assert x[1..] == [];
    MulZero(z);
    AddZero(x[0]);
  }

  lemma FastSplits(x: seq<Complex>, w: Complex)
    requires IsPowerOfTwo(|x|) && |x| > 1
    ensures |x| % 2 == 0 && IsPowerOfTwo(|x| / 2) && |x| / 2 > 0 && |x| / 2 + |x| / 2 == |x|
    ensures var e, o := Fast(Evens(x), Mul(w, w)), Fast(Odds(x), Mul(w, w));
            && Fast(x, w) == Merge(e, o, w) && |e| == |o| == |x| / 2
            && forall j :: 0 <= j < |x| / 2 ==>
                 && Fast(x, w)[j] == Add(e[j], Mul(Pow(w, j), o[j]))
                 && Fast(x, w)[j + |x| / 2] == Sub(e[j], Mul(Pow(w, j), o[j]))
  {
    hide Mul, Add, Sub;
  }

  lemma AddZero(a: Complex)
    ensures Add(a, ZERO) == a
  {
  }

  // ----- energy

  function Norm(a: Complex): real { a.re * a.re + a.im * a.im }

  function Energy(x: seq<Complex>): real {
    if x == [] then 0.0 else Energy(x[..|x| - 1]) + Norm(x[|x| - 1])
  }

  lemma {:induction false} EnergyAppend(a: seq<Complex>, b: seq<Complex>)
    ensures Energy(a + b) == Energy(a) + Energy(b)
    decreases |b|
  {
    hide Norm;
    if b == [] {
      assert a + b == a;
    } else {
      var n := |b| - 1;
      assert (a + b)[..|a + b| - 1] == a + b[..n];
      EnergyAppend(a, b[..n]);
    }
  }

  lemma {:induction false} EnergyHalves(x: seq<Complex>)
    requires |x| % 2 == 0
    ensures Energy(x) == Energy(Evens(x)) + Energy(Odds(x))
    decreases |x|
  {
    hide Norm;
    if x != [] {
      var n := |x| - 2;
      var rest := x[..n];
      EnergyHalves(rest);
      assert x[..|x| - 1][..n] == rest;
      assert Evens(x)[..n / 2] == Evens(rest) && Odds(x)[..n / 2] == Odds(rest);
    }
  }

  /** A butterfly with a factor of modulus one doubles the energy of its two numbers. */
  lemma ButterflyEnergy(u: Complex, v: Complex, w: Complex)
    requires Norm(w) == 1.0
    ensures Norm(Add(u, Mul(w, v))) + Norm(Sub(u, Mul(w, v))) == 2.0 * (Norm(u) + Norm(v))
  {
    NormMul(w, v);
    SumAndDifference(u, Mul(w, v));
  }

  lemma SumAndDifference(u: Complex, t: Complex)
    ensures Norm(Add(u, t)) + Norm(Sub(u, t)) == 2.0 * (Norm(u) + Norm(t))
  {
  }

  lemma NormMul(a: Complex, b: Complex)
    ensures Norm(Mul(a, b)) == Norm(a) * Norm(b)
  {
  }

  lemma {:induction false} NormPow(w: Complex, k: nat)
    requires Norm(w) == 1.0
    ensures Norm(Pow(w, k)) == 1.0
  {
    if k > 0 {
      hide Mul, Norm;
      NormPow(w, k - 1);
      NormMul(w, Pow(w, k - 1));
    } else {
      assert ONE.re * ONE.re == 1.0;
    }
  }

  /** A level of butterflies doubles the energy. */
  lemma MergeEnergy(e: seq<Complex>, o: seq<Complex>, w: Complex)
    requires |e| == |o| && Norm(w) == 1.0
    ensures Energy(Merge(e, o, w)) == 2.0 * (Energy(e) + Energy(o))
  {
    hide Energy, Norm, Lower, Upper;
    HalvesEnergy(e, o, w);
    EnergyAppend(Lower(e, o, w), Upper(e, o, w));
  }

  lemma {:induction false} HalvesEnergy(e: seq<Complex>, o: seq<Complex>, w: Complex)
    requires |e| == |o| && Norm(w) == 1.0
    ensures Energy(Lower(e, o, w)) + Energy(Upper(e, o, w)) == 2.0 * (Energy(e) + Energy(o))
    decreases |e|
  {
    hide *;
    if e == [] {
      NoEnergy();
      assert Lower(e, o, w) == [] && Upper(e, o, w) == [] && o == [];
    } else {
      var n := |e| - 1;
      HalvesEnergy(e[..n], o[..n], w);
      assert Lower(e, o, w)[..n] == Lower(e[..n], o[..n], w);
      assert Upper(e, o, w)[..n] == Upper(e[..n], o[..n], w);
      EnergyLast(Lower(e, o, w));
      EnergyLast(Upper(e, o, w));
      EnergyLast(e);
      EnergyLast(o);
      NormPow(w, n);
      ButterflyEnergy(e[n], o[n], Pow(w, n));
    }
  }

  lemma NoEnergy()
    ensures Energy([]) == 0.0
  {
  }

  lemma EnergyLast(x: seq<Complex>)
    requires x != []
    ensures Energy(x) == Energy(x[..|x| - 1]) + Norm(x[|x| - 1])
  {
  }

  /** With a root of modulus one the transform multiplies the energy by its size. */
  lemma {:induction false} FastEnergy(x: seq<Complex>, w: Complex)
    requires IsPowerOfTwo(|x|) && Norm(w) == 1.0
    ensures Energy(Fast(x, w)) == |x| as real * Energy(x)
    decreases |x|
  {
    hide *;
    PowerPositive(|x|);
    if |x| == 1 {
      FastOne(x, w, w);
      TimesOne(Energy(x));
    } else {
      var e, o, w2 := Evens(x), Odds(x), Mul(w, w);
      FastSplits(x, w);
      NormMul(w, w);
      TimesOne(Norm(w));
      FastEnergy(e, w2);
      FastEnergy(o, w2);
      MergeEnergy(Fast(e, w2), Fast(o, w2), w);
      EnergyHalves(x);
      TwiceHalf(|x|, Energy(e), Energy(o));
    }
  }

  lemma TimesOne(e: real)
    ensures 1 as real * e == e
  {
  }

  lemma TwiceHalf(n: nat, a: real, b: real)
    requires n / 2 + n / 2 == n
    ensures 2.0 * ((n / 2) as real * a + (n / 2) as real * b) == n as real * (a + b)
  {
    var half := (n / 2) as real;
    assert n as real == 2.0 * half;
  }

  // ----- bit reversal

  function Two(b: nat): (n: nat)
    ensures n > 0
  {
    if b == 0 then 1 else 2 * Two(b - 1)
  }

  lemma {:induction false} TwoAdds(a: nat, b: nat)
    ensures Two(a + b) == Two(a) * Two(b)
  {
    if a > 0 {
      TwoAdds(a - 1, b);
      assert 2 * (Two(a - 1) * Two(b)) == (2 * Two(a - 1)) * Two(b);
    }
  }

  lemma {:induction false} TwoIsPower(b: nat)
    ensures IsPowerOfTwo(Two(b))
  {
    if b > 0 {
      TwoIsPower(b - 1);
    }
  }

  /** The number of trailing zeros of a power of two. */
  function Log2(n: nat): (b: nat)
    requires IsPowerOfTwo(n)
    ensures Two(b) == n
  {
    if n == 1 then 0 else 1 + Log2(n / 2)
  }

  /** The low `bits` bits of `i` in reverse order. */
  function Rev(i: nat, bits: nat): (r: nat)
    ensures r < Two(bits)
  {
    if bits == 0 then 0
    else (if i % 2 == 1 then Two(bits - 1) else 0) + Rev(i / 2, bits - 1)
  }

  /** The highest bit becomes the lowest. */
  lemma {:induction false} RevTop(i: nat, bits: nat)
    requires bits > 0 && i < Two(bits - 1)
    ensures Rev(i, bits) == 2 * Rev(i, bits - 1)
    ensures Rev(i + Two(bits - 1), bits) == 2 * Rev(i, bits - 1) + 1
  {
    if bits > 1 {
      RevTop(i / 2, bits - 1);
      assert (i + Two(bits - 1)) / 2 == i / 2 + Two(bits - 2);
    } else {
      assert Rev(1, 1) == 1;
    }
  }

  lemma {:induction false} RevInvolution(i: nat, bits: nat)
    requires i < Two(bits)
    ensures Rev(Rev(i, bits), bits) == i
  {
    if bits > 0 {
      RevInvolution(i / 2, bits - 1);
      RevTop(Rev(i / 2, bits - 1), bits);
    }
  }

  // ----- the stages

  /** The buffer once every block of `2^a` numbers has been transformed, before any larger one is. */
  function Staged(x: seq<Complex>, w: Complex, b: nat, a: nat): (r: seq<Complex>)
    requires |x| == Two(b)
    ensures |r| == |x|
    decreases b
  {
    TwoIsPower(b);
    if b <= a then Fast(x, w) else Staged(Evens(x), Mul(w, w), b - 1, a) + Staged(Odds(x), Mul(w, w), b - 1, a)
  }

  /** The buffer in bit-reversed order is the first stage. */
  lemma {:induction false} ReversedIsStaged(x: seq<Complex>, w: Complex, b: nat)
    requires |x| == Two(b)
    ensures forall i :: 0 <= i < |x| ==> Staged(x, w, b, 0)[i] == x[Rev(i, b)]
    decreases b
  {
    hide Mul;
    if b > 0 {
      ReversedIsStaged(Evens(x), Mul(w, w), b - 1);
      ReversedIsStaged(Odds(x), Mul(w, w), b - 1);
      forall i | 0 <= i < |x|
        ensures Staged(x, w, b, 0)[i] == x[Rev(i, b)]
      {
        RevTop(if i < Two(b - 1) then i else i - Two(b - 1), b);
      }
    }
  }

  ghost predicate Blocks(n: nat, s: nat) { n == 0 || (n >= s > 0 && Blocks(n - s, s)) }

  lemma {:induction false} BlocksAdd(a: nat, b: nat, s: nat)
    requires Blocks(a, s) && Blocks(b, s)
    ensures Blocks(a + b, s)
    decreases a
  {
    if a > 0 {
      BlocksAdd(a - s, b, s);
    }
  }

  /** A pass over the buffer: butterflies between the halves of every block of `2 * m`. */
  function Butterflies(y: seq<Complex>, m: nat, z: Complex): (r: seq<Complex>)
    requires m > 0 && Blocks(|y|, 2 * m)
    ensures |r| == |y|
    decreases |y|
  {
    if y == [] then [] else Merge(y[..m], y[m..2 * m], z) + Butterflies(y[2 * m..], m, z)
  }

  lemma {:induction false} ButterfliesAppend(y: seq<Complex>, v: seq<Complex>, m: nat, z: Complex)
    requires m > 0 && Blocks(|y|, 2 * m) && Blocks(|v|, 2 * m)
    ensures Blocks(|y + v|, 2 * m) && Butterflies(y + v, m, z) == Butterflies(y, m, z) + Butterflies(v, m, z)
    decreases |y|
  {
    hide *;
    BlocksAdd(|y|, |v|, 2 * m);
    if y == [] {
      assert y + v == v;
      NoButterflies(m, z);
    } else {
      ButterfliesStep(y, m, z);
      ButterfliesStep(y + v, m, z);
      ButterfliesAppend(y[2 * m..], v, m, z);
      assert (y + v)[..m] == y[..m] && (y + v)[m..2 * m] == y[m..2 * m] && (y + v)[2 * m..] == y[2 * m..] + v;
    }
  }

  /** The root for blocks of `2^s`, by squaring. */
  function Root(w: Complex, b: nat, s: nat): Complex
    decreases b
  {
    if b <= s then w else Root(Mul(w, w), b - 1, s)
  }

  lemma {:induction false} RootIsPower(w: Complex, b: nat, s: nat)
    requires s <= b
    ensures Root(w, b, s) == Pow(w, Two(b - s))
    decreases b
  {
    hide Mul;
    if b == s {
      SquareIs(w);
    } else {
      RootIsPower(Mul(w, w), b - 1, s);
      PowSquare(w, Two(b - 1 - s));
    }
  }

  lemma {:induction false} StagedBlocks(b: nat, a: nat)
    requires a <= b
    ensures Blocks(Two(b), Two(a))
    decreases b
  {
    if b > a {
      StagedBlocks(b - 1, a);
      BlocksAdd(Two(b - 1), Two(b - 1), Two(a));
    } else {
      assert Blocks(0, Two(a));
    }
  }

  /** A pass of butterflies takes the buffer from one stage to the next. */
  lemma {:induction false} StageStep(x: seq<Complex>, w: Complex, b: nat, a: nat)
    requires |x| == Two(b) && a < b
    ensures Blocks(|x|, 2 * Two(a))
    ensures Butterflies(Staged(x, w, b, a), Two(a), Root(w, b, a + 1)) == Staged(x, w, b, a + 1)
    decreases b
  {
    hide *;
    StagedBlocks(b, a + 1);
    TwoNext(a + 1);
    if b == a + 1 {
      RootSteps(w, b, a + 1);
      LastStage(x, w, b, a);
    } else {
      StagedSplits(x, w, b, a);
      StagedSplits(x, w, b, a + 1);
      RootSteps(w, b, a + 1);
      var e, o, w2 := Evens(x), Odds(x), Mul(w, w);
      StageStep(e, w2, b - 1, a);
      StageStep(o, w2, b - 1, a);
      ButterfliesAppend(Staged(e, w2, b - 1, a), Staged(o, w2, b - 1, a), Two(a), Root(w, b, a + 1));
    }
  }

  lemma StagedSplits(x: seq<Complex>, w: Complex, b: nat, a: nat)
    requires |x| == Two(b) && b > a
    ensures |Evens(x)| == |Odds(x)| == Two(b - 1)
    ensures Staged(x, w, b, a) == Staged(Evens(x), Mul(w, w), b - 1, a) + Staged(Odds(x), Mul(w, w), b - 1, a)
  {
    hide Mul, Fast;
  }

  lemma RootSteps(w: Complex, b: nat, s: nat)
    ensures Root(w, b, s) == if b <= s then w else Root(Mul(w, w), b - 1, s)
  {
  }

  lemma LastStage(x: seq<Complex>, w: Complex, b: nat, a: nat)
    requires |x| == Two(b) && b == a + 1 && Blocks(|x|, 2 * Two(a))
    ensures Butterflies(Staged(x, w, b, a), Two(a), w) == Staged(x, w, b, a + 1)
  {
    hide Mul, Merge;
    TwoIsPower(b);
    var e, o := Staged(Evens(x), Mul(w, w), a, a), Staged(Odds(x), Mul(w, w), a, a);
    assert (e + o)[..Two(a)] == e && (e + o)[Two(a)..2 * Two(a)] == o && (e + o)[2 * Two(a)..] == [];
    FastSplits(x, w);
  }

  /** The entry of the twiddle table for butterfly `j` of a pass over blocks of `2^(a + 1)`. */
  lemma TwiddleIndex(w: Complex, b: nat, a: nat, j: nat)
    requires a < b && j < Two(a)
    ensures Two(b) / (2 * Two(a)) == Two(b - a - 1) && j * Two(b - a - 1) < Two(b) / 2
    ensures Pow(w, j * Two(b - a - 1)) == Pow(Root(w, b, a + 1), j)
  {
    hide Mul, Pow, Root;
    var step := Two(b - a - 1);
    TwoAdds(a + 1, b - a - 1);
    TwoAdds(a, b - a - 1);
    Quotient(2 * Two(a), step);
    Bounded(j, Two(a), step);
    RootIsPower(w, b, a + 1);
    PowPow(w, step, j);
  }

  lemma Quotient(m: nat, step: nat)
    requires m > 0
    ensures (m * step) / m == step
  {
    var n := m * step;
    var q := n / m;
    assert n == m * q + n % m;
    if q < step {
      MulGap(m, q, step);
    } else if step < q {
      MulGap(m, step, q);
    }
  }

  lemma {:induction false} MulGap(m: nat, a: nat, b: nat)
    requires a < b
    ensures m * b >= m * a + m
    decreases b
  {
    assert m * b == m * (b - 1) + m;
    if a < b - 1 {
      MulGap(m, a, b - 1);
    }
  }

  lemma Bounded(j: nat, m: nat, step: nat)
    requires j < m && step > 0
    ensures j * step < m * step
  {
  }

  // ----- the context

  class FftContext {
    const size: nat
    const revTable: seq<nat>
    const twiddles: seq<Complex>
    /** The root of unity that the twiddle factors are powers of. */
    const w: Complex

    ghost predicate Valid() {
      && IsPowerOfTwo(size)
      && |revTable| == size && (forall i :: 0 <= i < size ==> revTable[i] == Rev(i, Log2(size)))
      && |twiddles| == size / 2 && (forall i :: 0 <= i < size / 2 ==> twiddles[i] == Pow(w, i))
    }

    /** One entry of the reversal table, bit by bit. */
    static method Reverse(i: nat, bits: nat) returns (r: nat)
      ensures r == Rev(i, bits)
    {
      r := 0;
      var rest := i;
      for j := 0 to bits
        invariant Rev(i, bits) == r + Rev(rest, bits - j)
      {
        if rest % 2 == 1 {
          // the bit is not set yet, so "or" adds it
          r := r + Two(bits - 1 - j);
        }
        rest := rest / 2;
      }
    }

    constructor (size: nat, w: Complex)
      requires IsPowerOfTwo(size)
      ensures Valid() && this.size == size && this.w == w
    {
      hide Pow, Rev;
      var bits := Log2(size);
      var table: seq<nat> := [];
      for i := 0 to size
        invariant |table| == i && forall p :: 0 <= p < i ==> table[p] == Rev(p, bits)
      {
        var r := Reverse(i, bits);
        table := table + [r];
      }
      var factors: seq<Complex> := [];
      for i := 0 to size / 2
        invariant |factors| == i && forall p :: 0 <= p < i ==> factors[p] == Pow(w, p)
      {
        factors := factors + [Pow(w, i)];
      }
      this.size, this.w, this.revTable, this.twiddles := size, w, table, factors;
    }

    /** Puts the buffer in bit-reversed order by swapping pairs. */
    method Permute(buffer: array<Complex>)
      requires Valid() && buffer.Length == size
      modifies buffer
      ensures buffer[..] == Staged(old(buffer[..]), w, Log2(size), 0)
    {
      hide Rev, Two, Staged, IsPowerOfTwo, Log2;
      ghost var x, bits := buffer[..], Log2(size);
      for i := 0 to size
        invariant forall p :: 0 <= p < size ==> buffer[p] == if p < i || Rev(p, bits) < i then x[Rev(p, bits)] else x[p]
      {
        var j := revTable[i];
        RevInvolution(i, bits);
        assert forall p :: 0 <= p < size && Rev(p, bits) == i ==> p == j by {
          forall p | 0 <= p < size && Rev(p, bits) == i
            ensures p == j
          {
            RevInvolution(p, bits);
          }
        }
        if i < j {
          buffer[i], buffer[j] := buffer[j], buffer[i];
        }
      }
      ReversedIsStaged(x, w, bits);
    }

    /** The butterflies of one block. */
    method Block(buffer: array<Complex>, ghost a: nat, k: nat, mh: nat, step: nat)
      requires Valid() && buffer.Length == size && a < Log2(size)
      requires mh == Two(a) && step == Two(Log2(size) - a - 1) && k + 2 * mh <= size
      modifies buffer
      ensures var was := old(buffer[..]);
              buffer[..]
                  == was[..k] + Merge(was[k..k + mh], was[k + mh..k + 2 * mh], Root(w, Log2(size), a + 1))
                      + was[k + 2 * mh..]
    {
      hide *;
      SizeIs();
      ghost var z, was := Root(w, Log2(size), a + 1), buffer[..];
      PairedNone(was, k, mh, z);
      for j := 0 to mh
        invariant Paired(was, buffer[..], k, mh, j, z)
      {
        TwiddleIndex(w, Log2(size), a, j);
        TwiddleIs(j * step);
        PairedStep(was, buffer[..], k, mh, j, z);
        var factor := twiddles[j * step];
        var u := buffer[k + j];
        var t := Mul(factor, buffer[k + j + mh]);
        buffer[k + j] := Add(u, t);
        buffer[k + j + mh] := Sub(u, t);
      }
      PairedAll(was, buffer[..], k, mh, z);
    }

    lemma TwiddleIs(i: nat)
      requires Valid() && i < size / 2
      ensures |twiddles| == size / 2 && twiddles[i] == Pow(w, i)
    {
    }

    /** A pass of butterflies over all blocks of `m`. */
    method Stage(buffer: array<Complex>, ghost x: seq<Complex>, ghost a: nat, m: nat)
      requires Valid() && buffer.Length == size == |x| && a < Log2(size) && m == 2 * Two(a)
      requires buffer[..] == Staged(x, w, Log2(size), a)
      modifies buffer
      ensures buffer[..] == Staged(x, w, Log2(size), a + 1)
    {
      hide *;
      SizeIs();
      ghost var b, z, was := Log2(size), Root(w, Log2(size), a + 1), buffer[..];
      StageStep(x, w, b, a);
      Passing(was, m / 2, z);
      HalfIs(a, m);
      TwiddleIndex(w, b, a, 0);
      var mh, step := m / 2, size / m;
      var k := 0;
      while k < size
        invariant k <= size && Passed(was, buffer[..], k, mh, z)
        decreases size - k
      {
        ghost var now := buffer[..];
        PassLeaves(was, now, k, mh, z);
        Block(buffer, a, k, mh, step);
        PassBlock(was, now, buffer[..], k, mh, z);
        k := k + m;
      }
      PassEnds(was, buffer[..], mh, z);
    }

    lemma SizeIs()
      requires Valid()
      ensures IsPowerOfTwo(size) && size == Two(Log2(size))
    {
    }

    /** In place: the buffer becomes its Fourier transform, with `w` for the root of unity. */
    method Process(buffer: array<Complex>)
      requires Valid() && buffer.Length == size
      modifies buffer
      ensures IsPowerOfTwo(size) && buffer[..] == Fast(old(buffer[..]), w)
      ensures (size > 1 ==> Pow(w, size / 2) == MINUS_ONE) ==>
                forall k :: 0 <= k < size ==> buffer[k] == Dft(old(buffer[..]), w, k)
      ensures Norm(w) == 1.0 ==> Energy(buffer[..]) == size as real * Energy(old(buffer[..]))
    {
      hide *;
      SizeIs();
      ghost var x, b := buffer[..], Log2(size);
      Permute(buffer);
      var m := 2;
      ghost var a := 0;
      TwoStarts();
      while m <= size
        invariant m == 2 * Two(a) && a <= b
        invariant buffer[..] == Staged(x, w, b, a)
        decreases b - a
      {
        TwoGrows(a, b);
        Stage(buffer, x, a, m);
        m := m * 2;
        a := a + 1;
        TwoNext(a);
      }
      TwoGrows(a, b);
      StagedLast(x, w, b, a);
      Transformed(x, w);
    }
  }

  /** Place `q` of the buffer after the first `done` butterflies of the block at `k`. */
  function PairedAt(was: seq<Complex>, k: nat, mh: nat, done: nat, z: Complex, q: nat): Complex
    requires k + 2 * mh <= |was| && done <= mh && q < |was|
  {
    if k <= q < k + done then Add(was[q], Mul(Pow(z, q - k), was[q + mh]))
    else if k + mh <= q < k + mh + done then Sub(was[q - mh], Mul(Pow(z, q - mh - k), was[q]))
    else was[q]
  }

  ghost predicate Paired(was: seq<Complex>, now: seq<Complex>, k: nat, mh: nat, done: nat, z: Complex)
    requires k + 2 * mh <= |was| && done <= mh
  {
    |now| == |was| && forall q :: 0 <= q < |was| ==> now[q] == PairedAt(was, k, mh, done, z, q)
  }

  lemma PairedStep(was: seq<Complex>, now: seq<Complex>, k: nat, mh: nat, j: nat, z: Complex)
    requires k + 2 * mh <= |was| && j < mh && Paired(was, now, k, mh, j, z)
    ensures |now| == |was| && now[k + j] == was[k + j] && now[k + j + mh] == was[k + j + mh]
    ensures var u, t := now[k + j], Mul(Pow(z, j), now[k + j + mh]);
            Paired(was, now[k + j := Add(u, t)][k + j + mh := Sub(u, t)], k, mh, j + 1, z)
  {
    hide Mul, Add, Sub, Pow;
    assert now[k + j] == PairedAt(was, k, mh, j, z, k + j) && now[k + j + mh] == PairedAt(was, k, mh, j, z, k + j + mh);
  }

  lemma PairedAll(was: seq<Complex>, now: seq<Complex>, k: nat, mh: nat, z: Complex)
    requires k + 2 * mh <= |was| && Paired(was, now, k, mh, mh, z)
    ensures now == was[..k] + Merge(was[k..k + mh], was[k + mh..k + 2 * mh], z) + was[k + 2 * mh..]
  {
    hide Mul, Add, Sub, Pow, Lower, Upper;
    var merged := Merge(was[k..k + mh], was[k + mh..k + 2 * mh], z);
    forall q | 0 <= q < |was|
      ensures now[q] == (was[..k] + merged + was[k + 2 * mh..])[q]
    {
      assert now[q] == PairedAt(was, k, mh, mh, z, q);
      if k <= q < k + mh {
        assert merged[q - k] == now[q];
      } else if k + mh <= q < k + 2 * mh {
        assert merged[q - k - mh + mh] == now[q];
      }
    }
  }

  lemma PairedNone(was: seq<Complex>, k: nat, mh: nat, z: Complex)
    requires k + 2 * mh <= |was|
    ensures Paired(was, was, k, mh, 0, z)
  {
  }

  lemma TwoStarts()
    ensures Two(0) == 1
  {
  }

  lemma TwoNext(a: nat)
    requires a > 0
    ensures Two(a) == 2 * Two(a - 1)
  {
  }

  lemma {:induction false} TwoGrows(a: nat, b: nat)
    requires a <= b
    ensures 2 * Two(a) <= Two(b) <==> a < b
    ensures Two(a) <= Two(b)
    decreases b
  {
    if a < b {
      TwoGrows(a, b - 1);
    }
  }

  lemma StagedLast(x: seq<Complex>, w: Complex, b: nat, a: nat)
    requires |x| == Two(b) && b <= a
    ensures IsPowerOfTwo(|x|) && Staged(x, w, b, a) == Fast(x, w)
  {
    TwoIsPower(b);
  }

  lemma Transformed(x: seq<Complex>, w: Complex)
    requires IsPowerOfTwo(|x|)
    ensures |Fast(x, w)| == |x|
    ensures (|x| > 1 ==> Pow(w, |x| / 2) == MINUS_ONE) ==> forall k :: 0 <= k < |x| ==> Fast(x, w)[k] == Dft(x, w, k)
    ensures Norm(w) == 1.0 ==> Energy(Fast(x, w)) == |x| as real * Energy(x)
  {
    hide Fast, Pow, Dft, Norm, Energy;
    if |x| > 1 ==> Pow(w, |x| / 2) == MINUS_ONE {
      forall k | 0 <= k < |x|
        ensures Fast(x, w)[k] == Dft(x, w, k)
      {
        FastIsEval(x, w, k);
        DftIsEval(x, w, k);
      }
    }
    if Norm(w) == 1.0 {
      FastEnergy(x, w);
    }
  }

  lemma HalfIs(a: nat, m: nat)
    requires m == 2 * Two(a)
    ensures m / 2 == Two(a) && 2 * (m / 2) == m
  {
  }

  /** A pass that has done the blocks before `k`. */
  ghost predicate Passed(was: seq<Complex>, now: seq<Complex>, k: nat, m: nat, z: Complex) {
    && m > 0 && k <= |was| && Blocks(k, 2 * m) && Blocks(|was| - k, 2 * m)
    && now == Butterflies(was[..k], m, z) + was[k..]
  }

  lemma Passing(was: seq<Complex>, m: nat, z: Complex)
    requires m > 0 && Blocks(|was|, 2 * m)
    ensures Passed(was, was, 0, m, z)
  {
    NoButterflies(m, z);
    assert was[..0] == [] && was[0..] == was;
  }

  lemma PassEnds(was: seq<Complex>, now: seq<Complex>, m: nat, z: Complex)
    requires Passed(was, now, |was|, m, z) && Blocks(|was|, 2 * m)
    ensures now == Butterflies(was, m, z)
  {
    assert was[..|was|] == was;
  }

  lemma PassLeaves(was: seq<Complex>, now: seq<Complex>, k: nat, m: nat, z: Complex)
    requires Passed(was, now, k, m, z) && k < |was|
    ensures |now| == |was| && k + 2 * m <= |was|
  {
    BlocksSteps(|was| - k, 2 * m);
  }

  /** One more block of a pass. */
  lemma PassBlock(was: seq<Complex>, now: seq<Complex>, later: seq<Complex>, k: nat, m: nat, z: Complex)
    requires Passed(was, now, k, m, z) && k + 2 * m <= |was| == |now|
    requires later == now[..k] + Merge(now[k..k + m], now[k + m..k + 2 * m], z) + now[k + 2 * m..]
    ensures Passed(was, later, k + 2 * m, m, z)
  {
    hide Merge, Blocks, Butterflies;
    BlocksSteps(|was| - k, 2 * m);
    var block := was[k..k + 2 * m];
    BlocksSteps(2 * m, 2 * m);
    BlocksAdd(k, 2 * m, 2 * m);
    assert was[..k + 2 * m] == was[..k] + block;
    ButterfliesAppend(was[..k], block, m, z);
    ButterfliesStep(block, m, z);
    Slices(Butterflies(was[..k], m, z), was, k, m);
  }

  lemma BlocksSteps(n: nat, s: nat)
    requires s > 0
    ensures Blocks(0, s) && Blocks(s, s)
    ensures n > 0 && Blocks(n, s) ==> n >= s && Blocks(n - s, s)
  {
    assert Blocks(0, s);
  }

  lemma Slices(front: seq<Complex>, was: seq<Complex>, k: nat, m: nat)
    requires |front| == k && k + 2 * m <= |was|
    ensures var now := front + was[k..];
            && now[..k] == front
            && now[k..k + m] == was[k..k + 2 * m][..m]
            && now[k + m..k + 2 * m] == was[k..k + 2 * m][m..2 * m]
            && now[k + 2 * m..] == was[k + 2 * m..]
  {
    var block := was[k..k + 2 * m];
    assert block[..m] == was[k..k + m] && block[m..2 * m] == was[k + m..k + 2 * m];
  }

  lemma ButterfliesStep(y: seq<Complex>, m: nat, z: Complex)
    requires m > 0 && y != [] && Blocks(|y|, 2 * m)
    ensures |y| >= 2 * m && Blocks(|y| - 2 * m, 2 * m)
    ensures Butterflies(y, m, z) == Merge(y[..m], y[m..2 * m], z) + Butterflies(y[2 * m..], m, z)
    ensures |y| == 2 * m ==> Butterflies(y, m, z) == Merge(y[..m], y[m..2 * m], z)
  {
    hide Merge;
    assert |y| == 2 * m ==> y[2 * m..] == [];
  }

  /** A pass with factors of modulus one doubles the energy of the buffer. */
  lemma {:induction false} PassEnergy(y: seq<Complex>, m: nat, z: Complex)
    requires m > 0 && Blocks(|y|, 2 * m) && Norm(z) == 1.0
    ensures Energy(Butterflies(y, m, z)) == 2.0 * Energy(y)
    decreases |y|
  {
    hide *;
    if y == [] {
      NoButterflies(m, z);
      NoEnergy();
    } else {
      ButterfliesStep(y, m, z);
      PassEnergy(y[2 * m..], m, z);
      MergeEnergy(y[..m], y[m..2 * m], z);
      EnergyAppend(Merge(y[..m], y[m..2 * m], z), Butterflies(y[2 * m..], m, z));
      EnergyAppend(y[..m], y[m..2 * m]);
      EnergyAppend(y[..m] + y[m..2 * m], y[2 * m..]);
      assert y == y[..m] + y[m..2 * m] + y[2 * m..];
    }
  }

  lemma NoButterflies(m: nat, z: Complex)
    requires m > 0
    ensures Blocks(0, 2 * m) && Butterflies([], m, z) == []
  {
  }
}
