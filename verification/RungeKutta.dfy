/** One step of the transient solver (rk4_core, HotSpot/RCutil.c) with the slope of the block model,
    dy = p - Cy. */
module RungeKutta {
  import opened LinearAlgebra
  import opened LupFactors
  import opened Substitution
  import opened Lup
  import opened BlockModel

  /** A vector and a multiple of another. */
  function Along(x: Vec, s: real, z: Vec): Vec {
    i => x(i) + s * z(i)
  }

  lemma TimesAlong(n: nat, c: Mat, x: Vec, s: real, z: Vec, y: Vec, i: int)
    requires SameVec(n, y, Along(x, s, z))
    ensures TimesVec(n, c, y)(i) == TimesVec(n, c, x)(i) + s * TimesVec(n, c, z)(i)
  {
    forall j | 0 <= j < n
      ensures Terms(c, y, i)(j) == Terms(c, x, i)(j) + Multiple(s, Terms(c, z, i))(j)
    {
      Distribute(c(i, j), x(j), s, z(j));
    }
    SumPlusTimes(n, Terms(c, x, i), Terms(c, z, i), s, Terms(c, y, i));
  }

  lemma Distribute(a: real, x: real, s: real, z: real)
    ensures a * (x + s * z) == a * x + s * (a * z)
  {
  }

  /** p - Cy. */
  function Slope(n: nat, c: Mat, p: Vec, y: Vec): Vec {
    i => p(i) - TimesVec(n, c, y)(i)
  }

  /** C applied so many times. */
  function Power(n: nat, c: Mat, times: nat, x: Vec): Vec {
    if times == 0 then x else TimesVec(n, c, Power(n, c, times - 1, x))
  }

  /** A value with its first four derivatives, expanded over an interval. */
  function Expansion(h: real, y: real, d1: real, d2: real, d3: real, d4: real): real {
    y + h * d1 + h * h / 2.0 * d2 + h * h * h / 6.0 * d3 + h * h * h * h / 24.0 * d4
  }

  /** Over an interval h the solution of dy = p - Cy, with slope k at y, up to the term in the fourth
      power of h: its derivatives are k, -Ck, CCk and -CCCk. */
  function Taylor(n: nat, c: Mat, y: Vec, k: Vec, h: real): Vec {
    i => Expansion(h, y(i), k(i), -Power(n, c, 1, k)(i), Power(n, c, 2, k)(i), -Power(n, c, 3, k)(i))
  }

  /** What rk4_core makes of the four slopes. */
  function Weighed(h: real, y: real, k1: real, k2: real, k3: real, k4: real): real {
    y + h * (k1 + 2.0 * k2 + 2.0 * k3 + k4) / 6.0
  }

  /** The slope at a trial point. */
  lemma SlopeAlong(n: nat, c: Mat, p: Vec, y: Vec, k: Vec, s: real, z: Vec, t: Vec, i: int)
    requires 0 <= i < n && SameVec(n, k, Slope(n, c, p, y)) && SameVec(n, t, Along(y, s, z))
    ensures Slope(n, c, p, t)(i) == k(i) - s * TimesVec(n, c, z)(i)
  {
    TimesAlong(n, c, y, s, z, t, i);
  }

  function Less(a: real, s: real, b: real): real {
    a - s * b
  }

  /** The four slopes, as combinations of the derivatives. */
  ghost predicate Slopes(n: nat, c: Mat, h: real, k1: Vec, k2: Vec, k3: Vec, k4: Vec) {
    forall i | 0 <= i < n ::
      k2(i) == Less(k1(i), h / 2.0, TimesVec(n, c, k1)(i)) &&
      k3(i) == Less(k1(i), h / 2.0, TimesVec(n, c, k2)(i)) &&
      k4(i) == Less(k1(i), h, TimesVec(n, c, k3)(i))
  }

  lemma StepIsTaylor(n: nat, c: Mat, y: Vec, h: real, k1: Vec, k2: Vec, k3: Vec, k4: Vec, i: int)
    requires 0 <= i < n && Slopes(n, c, h, k1, k2, k3, k4)
    ensures Weighed(h, y(i), k1(i), k2(i), k3(i), k4(i)) == Taylor(n, c, y, k1, h)(i)
  {
    var c1, c2, c3 := Power(n, c, 1, k1), Power(n, c, 2, k1), Power(n, c, 3, k1);
    assert Power(n, c, 0, k1) == k1;
    assert c1 == TimesVec(n, c, k1);
    assert c2 == TimesVec(n, c, c1);
    assert c3 == TimesVec(n, c, c2);
    hide TimesVec, Power;
    SecondSlope(n, c, h, k1, k2, c1, c2, i);
    ThirdSlope(n, c, h, k1, k2, k3, c1, c2, c3, i);
    hide Less, Weighed, Expansion;
    Combine(h, y(i), k1(i), c1(i), c2(i), c3(i), TimesVec(n, c, k2)(i), TimesVec(n, c, k3)(i), k2(i), k3(i), k4(i));
  }

  /** A vector less a multiple of another. */
  ghost predicate IsLess(n: nat, z: Vec, x: Vec, s: real, y: Vec) {
    forall i | 0 <= i < n :: z(i) == Less(x(i), s, y(i))
  }

  lemma TimesLess(n: nat, c: Mat, z: Vec, x: Vec, s: real, y: Vec, i: int)
    requires IsLess(n, z, x, s, y)
    ensures TimesVec(n, c, z)(i) == Less(TimesVec(n, c, x)(i), s, TimesVec(n, c, y)(i))
  {
    assert SameVec(n, z, Along(x, -s, y));
    TimesAlong(n, c, x, -s, y, z, i);
  }

  lemma SecondSlope(n: nat, c: Mat, h: real, k1: Vec, k2: Vec, c1: Vec, c2: Vec, i: int)
    requires 0 <= i < n && IsLess(n, k2, k1, h / 2.0, c1) && c1 == TimesVec(n, c, k1) && c2 == TimesVec(n, c, c1)
    ensures TimesVec(n, c, k2)(i) == Less(c1(i), h / 2.0, c2(i))
  {
    TimesLess(n, c, k2, k1, h / 2.0, c1, i);
  }

  lemma ThirdSlope(n: nat, c: Mat, h: real, k1: Vec, k2: Vec, k3: Vec, c1: Vec, c2: Vec, c3: Vec, i: int)
    requires 0 <= i < n && IsLess(n, k2, k1, h / 2.0, c1) && IsLess(n, k3, k1, h / 2.0, TimesVec(n, c, k2))
    requires c1 == TimesVec(n, c, k1) && c2 == TimesVec(n, c, c1) && c3 == TimesVec(n, c, c2)
    ensures TimesVec(n, c, k3)(i) == Less(c1(i), h / 2.0, Less(c2(i), h / 2.0, c3(i)))
  {
    hide TimesVec, Less;
    var ck := TimesVec(n, c, k2);
    forall r | 0 <= r < n
      ensures ck(r) == Less(c1(r), h / 2.0, c2(r))
    {
      SecondSlope(n, c, h, k1, k2, c1, c2, r);
    }
    TimesLess(n, c, ck, c1, h / 2.0, c2, i);
    TimesLess(n, c, k3, k1, h / 2.0, ck, i);
  }

  lemma Combine(h: real, y: real, k: real, c1: real, c2: real, c3: real, a2: real, a3: real, k2: real, k3: real,
                k4: real)
    requires a2 == Less(c1, h / 2.0, c2) && a3 == Less(c1, h / 2.0, Less(c2, h / 2.0, c3))
    requires k2 == Less(k, h / 2.0, c1) && k3 == Less(k, h / 2.0, a2) && k4 == Less(k, h, a3)
    ensures Weighed(h, y, k, k2, k3, k4) == Expansion(h, y, k, -c1, c2, -c3)
  {
    assert k3 == k - h / 2.0 * (c1 - h / 2.0 * c2);
    assert k4 == k - h * (c1 - h / 2.0 * (c2 - h / 2.0 * c3));
  }

  /** t = y + s * k. */
  method Trial(n: nat, y: array<real>, s: real, k: array<real>, t: array<real>)
    requires y.Length == k.Length == t.Length == n && t != y && t != k
    modifies t
    ensures SameVec(n, AsVec(t[..]), Along(AsVec(y[..]), s, AsVec(k[..])))
  {
    for i := 0 to n
      invariant forall r | 0 <= r < i :: t[r] == y[r] + s * k[r]
    {
      t[i] := y[i] + s * k[i];
    }
  }

  /** The slope at a trial point, in terms of the slope at y. */
  method TrialSlope(n: nat, c: array2<real>, y: array<real>, k1: array<real>, p: array<real>, s: real, k: array<real>,
                    t: array<real>, next: array<real>)
    requires IsSquareArray(c, n) && y.Length == k1.Length == p.Length == k.Length == t.Length == next.Length == n
    requires t != y && t != k && t != k1 && t != p && next != y && next != k && next != k1 && next != p && next != t
    requires SameVec(n, AsVec(k1[..]), Slope(n, AsMat(Values(c)), AsVec(p[..]), AsVec(y[..])))
    modifies t, next
    ensures forall i | 0 <= i < n :: next[i] == k1[i] - s * TimesVec(n, AsMat(Values(c)), AsVec(k[..]))(i)
  {
    hide TimesVec;
    Trial(n, y, s, k, t);
    SlopeFn(c, n, t, p, next);
    forall i | 0 <= i < n
      ensures next[i] == k1[i] - s * TimesVec(n, AsMat(Values(c)), AsVec(k[..]))(i)
    {
      SlopeAlong(n, AsMat(Values(c)), AsVec(p[..]), AsVec(y[..]), AsVec(k1[..]), s, AsVec(k[..]), AsVec(t[..]), i);
    }
  }

  /** yout = y + h * (k1 + 2 * k2 + 2 * k3 + k4) / 6. */
  method Weigh(n: nat, y: array<real>, k1: array<real>, k2: array<real>, k3: array<real>, k4: array<real>, h: real,
               yout: array<real>)
    requires y.Length == k1.Length == k2.Length == k3.Length == k4.Length == yout.Length == n
    requires yout != y && yout != k1 && yout != k2 && yout != k3 && yout != k4
    modifies yout
    ensures forall i | 0 <= i < n :: yout[i] == Weighed(h, y[i], k1[i], k2[i], k3[i], k4[i])
  {
    for i := 0 to n
      invariant forall r | 0 <= r < i :: yout[r] == Weighed(h, y[r], k1[r], k2[r], k3[r], k4[r])
    {
      yout[i] := y[i] + h * (k1[i] + 2.0 * k2[i] + 2.0 * k3[i] + k4[i]) / 6.0;
    }
  }

  /** The result of the four slopes is the Taylor step. */
  lemma StepsAreTaylor(n: nat, c: Mat, y: seq<real>, h: real, k1: seq<real>, k2: seq<real>, k3: seq<real>,
                       k4: seq<real>, yout: seq<real>)
    requires |y| == |k1| == |k2| == |k3| == |k4| == |yout| == n
    requires forall i | 0 <= i < n :: k2[i] == Less(k1[i], h / 2.0, TimesVec(n, c, AsVec(k1))(i))
    requires forall i | 0 <= i < n :: k3[i] == Less(k1[i], h / 2.0, TimesVec(n, c, AsVec(k2))(i))
    requires forall i | 0 <= i < n :: k4[i] == Less(k1[i], h, TimesVec(n, c, AsVec(k3))(i))
    requires forall i | 0 <= i < n :: yout[i] == Weighed(h, y[i], k1[i], k2[i], k3[i], k4[i])
    ensures SameVec(n, AsVec(yout), Taylor(n, c, AsVec(y), AsVec(k1), h))
  {
    hide TimesVec, Taylor, Weighed, Less;
    assert Slopes(n, c, h, AsVec(k1), AsVec(k2), AsVec(k3), AsVec(k4));
    forall i | 0 <= i < n
      ensures AsVec(yout)(i) == Taylor(n, c, AsVec(y), AsVec(k1), h)(i)
    {
      StepIsTaylor(n, c, AsVec(y), h, AsVec(k1), AsVec(k2), AsVec(k3), AsVec(k4), i);
    }
  }

  /** rk4_core, with slope_fn_block for the callback: the step is the Taylor expansion of the solution up
      to the fourth power of h. */
  method Rk4Core(n: nat, c: array2<real>, y: array<real>, k1: array<real>, p: array<real>, h: real, yout: array<real>)
    requires IsSquareArray(c, n) && y.Length == k1.Length == p.Length == yout.Length == n && yout != y && yout != k1
    requires yout != p
    requires SameVec(n, AsVec(k1[..]), Slope(n, AsMat(Values(c)), AsVec(p[..]), AsVec(y[..])))
    modifies yout
    ensures SameVec(n, AsVec(yout[..]), Taylor(n, AsMat(Values(c)), AsVec(y[..]), AsVec(k1[..]), h))
  {
    hide TimesVec, Taylor, SameVec, Slope, AsVec, AsMat, Weighed;
    var t, k2, k3, k4 := new real[n], new real[n], new real[n], new real[n];
    TrialSlope(n, c, y, k1, p, h / 2.0, k1, t, k2);
    TrialSlope(n, c, y, k1, p, h / 2.0, k2, t, k3);
    TrialSlope(n, c, y, k1, p, h, k3, t, k4);
    Weigh(n, y, k1, k2, k3, k4, h, yout);
    StepsAreTaylor(n, AsMat(Values(c)), y[..], h, k1[..], k2[..], k3[..], k4[..], yout[..]);
  }

  // ----- at rest -----

  lemma {:induction false} PowerOfNothing(n: nat, c: Mat, times: nat, k: Vec, i: int)
    requires 0 <= i < n && SameVec(n, k, Zero)
    ensures Power(n, c, times, k)(i) == 0.0
  {
    if times > 0 {
      var x := Power(n, c, times - 1, k);
      forall j | 0 <= j < n
        ensures Terms(c, x, i)(j) == 0.0
      {
        PowerOfNothing(n, c, times - 1, k, j);
      }
      SumZero(n, Terms(c, x, i));
    }
  }

  /** A steady state stays where it is, whatever the step. */
  lemma RestStays(n: nat, c: Mat, y: Vec, k: Vec, h: real)
    requires SameVec(n, k, Zero)
    ensures SameVec(n, Taylor(n, c, y, k, h), y)
  {
    forall i | 0 <= i < n
      ensures Taylor(n, c, y, k, h)(i) == y(i)
    {
      PowerOfNothing(n, c, 1, k, i);
      PowerOfNothing(n, c, 2, k, i);
      PowerOfNothing(n, c, 3, k, i);
    }
  }
}
