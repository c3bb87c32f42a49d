/** The exact two-sided sign test behind the power table, over real arithmetic: rounding is not modelled. */
module SignPower {
  import opened Numerals

  /** Binomial coefficients, by Pascal's rule. */
  function Choose(n: nat, k: nat): nat {
    if k == 0 then 1 else if n == 0 then 0 else Choose(n - 1, k - 1) + Choose(n - 1, k)
  }

  function Power(x: real, k: nat): real {
    if k == 0 then 1.0 else x * Power(x, k - 1)
  }

  /** binom.pmf(k, n, p) */
  function Pmf(k: nat, n: nat, p: real): real {
    if k > n then 0.0 else Choose(n, k) as real * (Power(p, k) * Power(1.0 - p, n - k))
  }

  /** The outcomes below `m` that are no likelier than one of weight `c` under a fair coin, by weight. */
  function NoLikelier(n: nat, c: nat, m: nat): nat {
    if m == 0 then 0 else NoLikelier(n, c, m - 1) + (if Choose(n, m - 1) <= c then Choose(n, m - 1) else 0)
  }

  /** binomtest(k, n, 0.5).pvalue, times 2^n: the weight of all outcomes no likelier than `k`. */
  function PValueWeight(n: nat, k: nat): nat {
    NoLikelier(n, Choose(n, k), n + 1)
  }

  predicate Rejects(n: nat, k: nat, alpha: real) {
    PValueWeight(n, k) as real <= alpha * TwoPower(n) as real
  }

  function RejectedMass(n: nat, p: real, alpha: real, m: nat): real {
    if m == 0 then 0.0
    else RejectedMass(n, p, alpha, m - 1) + (if Rejects(n, m - 1, alpha) then Pmf(m - 1, n, p) else 0.0)
  }

  /** sign_power(lineages, win_probability, alpha) */
  function SignTestPower(n: nat, p: real, alpha: real): real {
    RejectedMass(n, p, alpha, n + 1)
  }

  // ---------------------------------------------------------------- the test keeps its level

  function RejectedWeight(n: nat, alpha: real, m: nat): nat {
    if m == 0 then 0 else RejectedWeight(n, alpha, m - 1) + (if Rejects(n, m - 1, alpha) then Choose(n, m - 1) else 0)
  }

  /** The likeliest rejected outcome below `m`, if any. */
  lemma {:induction false} LikeliestRejected(n: nat, alpha: real, m: nat) returns (none: bool, k: nat)
    ensures none ==> RejectedWeight(n, alpha, m) == 0 && forall j: nat :: j < m ==> !Rejects(n, j, alpha)
    ensures !none ==> k < m && Rejects(n, k, alpha) && forall j: nat :: j < m && Rejects(n, j, alpha) ==> Choose(n, j) <= Choose(n, k)
    decreases m
  {
    if m == 0 {
      none, k := true, 0;
    } else {
      none, k := LikeliestRejected(n, alpha, m - 1);
      if Rejects(n, m - 1, alpha) && (none || Choose(n, k) < Choose(n, m - 1)) {
        none, k := false, m - 1;
      }
    }
  }

  lemma {:induction false} RejectedWithin(n: nat, alpha: real, c: nat, m: nat)
    requires forall j: nat :: j < m && Rejects(n, j, alpha) ==> Choose(n, j) <= c
    ensures RejectedWeight(n, alpha, m) <= NoLikelier(n, c, m)
    decreases m
  {
    if m > 0 {
      RejectedWithin(n, alpha, c, m - 1);
    }
  }

  lemma {:induction false} PowerSplits(x: real, a: nat, b: nat)
    ensures Power(x, a + b) == Power(x, a) * Power(x, b)
    decreases a
  {
    if a > 0 {
      PowerSplits(x, a - 1, b);
      assert Power(x, a + b) == x * Power(x, (a - 1) + b);
      MulAssociates(x, Power(x, a - 1), Power(x, b));
    }
  }

  lemma MulAssociates(a: real, b: real, c: real)
    ensures a * (b * c) == (a * b) * c
  {
  }

  lemma {:induction false} HalvesAndDoubles(n: nat)
    ensures Power(0.5, n) * TwoPower(n) as real == 1.0
    decreases n
  {
    if n > 0 {
      HalvesAndDoubles(n - 1);
      var h, t := Power(0.5, n - 1), TwoPower(n - 1) as real;
      assert Power(0.5, n) == 0.5 * h;
      assert TwoPower(n) as real == 2.0 * t;
      assert (0.5 * h) * (2.0 * t) == h * t;
    }
  }

  lemma FairPmf(k: nat, n: nat)
    requires k <= n
    ensures Pmf(k, n, 0.5) == Choose(n, k) as real * Power(0.5, n)
  {
    PowerSplits(0.5, k, n - k);
    assert k + (n - k) == n;
    assert 1.0 - 0.5 == 0.5;
  }

  lemma {:induction false} FairMassIsWeight(n: nat, alpha: real, m: nat)
    requires m <= n + 1
    ensures RejectedMass(n, 0.5, alpha, m) == RejectedWeight(n, alpha, m) as real * Power(0.5, n)
    decreases m
  {
    hide Choose, Power, Pmf, Rejects;
    if m > 0 {
      FairMassIsWeight(n, alpha, m - 1);
      FairPmf(m - 1, n);
      Distribute(Power(0.5, n), RejectedWeight(n, alpha, m - 1) as real, Choose(n, m - 1) as real);
    }
  }

  /** Under the null hypothesis the test rejects with probability at most alpha, for every sample size. */
  lemma TestKeepsLevel(n: nat, alpha: real)
    requires 0.0 <= alpha
    ensures SignTestPower(n, 0.5, alpha) <= alpha
  {
    hide Choose, Power, TwoPower, RejectedMass, RejectedWeight, NoLikelier;
    FairMassIsWeight(n, alpha, n + 1);
    var none, k := LikeliestRejected(n, alpha, n + 1);
    var w, h, t := RejectedWeight(n, alpha, n + 1) as real, Power(0.5, n), TwoPower(n) as real;
    if !none {
      RejectedWithin(n, alpha, Choose(n, k), n + 1);
      assert w <= alpha * t;
    }
    HalvesAndDoubles(n);
    PowerIsNonnegative(0.5, n);
    TwoPowerIsPositive(n);
    ScaleDown(w, alpha, h, t);
  }

  lemma TwoPowerIsPositive(n: nat)
    ensures TwoPower(n) > 0
  {
  }

  lemma ScaleDown(w: real, alpha: real, h: real, t: real)
    requires 0.0 <= h && h * t == 1.0 && (w == 0.0 || w <= alpha * t) && 0.0 <= alpha && 0.0 < t
    ensures w * h <= alpha
  {
    if w != 0.0 {
      assert w * h <= (alpha * t) * h by { MulMonotone(w, alpha * t, h); }
      assert (alpha * t) * h == alpha * (h * t);
    }
  }

  lemma MulMonotone(a: real, b: real, h: real)
    requires a <= b && 0.0 <= h
    ensures a * h <= b * h
  {
  }

  lemma {:induction false} PowerIsNonnegative(x: real, k: nat)
    requires 0.0 <= x
    ensures 0.0 <= Power(x, k)
    decreases k
  {
    if k > 0 {
      PowerIsNonnegative(x, k - 1);
    }
  }

  // ---------------------------------------------------------------- power is a probability

  function Mass(n: nat, p: real, m: nat): real {
    if m == 0 then 0.0 else Mass(n, p, m - 1) + Pmf(m - 1, n, p)
  }

  lemma {:induction false} ChooseBeyond(n: nat, k: nat)
    requires k > n
    ensures Choose(n, k) == 0
    decreases n
  {
    if n > 0 {
      ChooseBeyond(n - 1, k - 1);
      ChooseBeyond(n - 1, k);
    }
  }

  /** Pascal's rule for the weights of outcomes. */
  lemma PmfRecurs(k: nat, n: nat, p: real)
    ensures Pmf(k, n + 1, p) == (1.0 - p) * Pmf(k, n, p) + (if k == 0 then 0.0 else p * Pmf(k - 1, n, p))
  {
    hide Choose, Power;
    var q := 1.0 - p;
    if k == 0 {
      ChooseNone(n);
      ChooseNone(n + 1);
      PowerStep(q, n);
      Rearrange0(q, Power(q, n));
    } else if k <= n {
      Pascal(n, k - 1);
      PowerStep(p, k - 1);
      PowerStep(q, n - k);
      assert n + 1 - k == (n - k) + 1 && n - (k - 1) == (n - k) + 1;
      Rearrange(Choose(n, k - 1) as real, Choose(n, k) as real, p, q, Power(p, k - 1), Power(q, n - k));
    } else if k == n + 1 {
      Pascal(n, n);
      ChooseBeyond(n, n + 1);
      PowerStep(p, n);
      Rearrange1(Choose(n, n) as real, p, Power(p, n));
    }
  }

  lemma PowerStep(x: real, k: nat)
    ensures Power(x, k + 1) == x * Power(x, k)
    ensures Power(x, 0) == 1.0
  {
  }

  lemma Rearrange0(q: real, y: real)
    ensures 1.0 * (1.0 * (q * y)) == q * (1.0 * (1.0 * y))
  {
  }

  lemma Rearrange1(a: real, p: real, x: real)
    ensures a * ((p * x) * 1.0) == p * (a * (x * 1.0))
  {
    assert a * (p * x) == (a * p) * x == (p * a) * x == p * (a * x);
  }

  lemma Rearrange(a: real, b: real, p: real, q: real, x: real, y: real)
    ensures (a + b) * ((p * x) * (q * y)) == q * (b * ((p * x) * y)) + p * (a * (x * (q * y)))
  {
    var m := (p * x) * (q * y);
    assert (a + b) * m == a * m + b * m;
    assert b * m == q * (b * ((p * x) * y)) by { Shuffle(b, p * x, q, y); }
    assert a * m == p * (a * (x * (q * y))) by { Shuffle(a, q * y, p, x); }
  }

  lemma Shuffle(b: real, z: real, q: real, y: real)
    ensures b * (z * (q * y)) == q * (b * (z * y))
    ensures b * ((q * y) * z) == q * (b * (y * z))
  {
    assert z * (q * y) == q * (z * y);
    assert b * (q * (z * y)) == q * (b * (z * y));
  }

  lemma {:induction false} MassRecurs(n: nat, p: real, m: nat)
    ensures Mass(n + 1, p, m) == (1.0 - p) * Mass(n, p, m) + p * (if m == 0 then 0.0 else Mass(n, p, m - 1))
    decreases m
  {
    hide Pmf;
    if m > 0 {
      MassRecurs(n, p, m - 1);
      PmfRecurs(m - 1, n, p);
      var a, f := Mass(n, p, m - 1), Pmf(m - 1, n, p);
      var b, g := 0.0, 0.0;
      if m > 1 {
        b, g := Mass(n, p, m - 2), Pmf(m - 2, n, p);
        assert p * g == p * Pmf(m - 2, n, p);
      }
      assert m == 1 ==> p * g == 0.0;
      Distribute(1.0 - p, a, f);
      Distribute(p, b, g);
      assert Mass(n, p, m) == a + f;
      assert Mass(n, p, m - 1) == b + g;
      assert Pmf(m - 1, n + 1, p) == (1.0 - p) * f + p * g;
      assert Mass(n + 1, p, m) == Mass(n + 1, p, m - 1) + Pmf(m - 1, n + 1, p);
    }
  }

  lemma Distribute(a: real, b: real, c: real)
    ensures a * (b + c) == a * b + a * c
  {
  }

  /** The weights of all outcomes sum to one. */
  lemma {:induction false} MassIsOne(n: nat, p: real)
    ensures Mass(n, p, n + 1) == 1.0
    decreases n
  {
    if n == 0 {
      assert Mass(0, p, 1) == Mass(0, p, 0) + Pmf(0, 0, p);
    } else {
      MassIsOne(n - 1, p);
      MassRecurs(n - 1, p, n + 1);
      assert Pmf(n, n - 1, p) == 0.0;
      assert Mass(n - 1, p, n + 1) == Mass(n - 1, p, n) + Pmf(n, n - 1, p);
    }
  }

  lemma PmfIsNonnegative(k: nat, n: nat, p: real)
    requires 0.0 <= p <= 1.0
    ensures 0.0 <= Pmf(k, n, p)
  {
    if k <= n {
      PowerIsNonnegative(p, k);
      PowerIsNonnegative(1.0 - p, n - k);
      ProductIsNonnegative(Power(p, k), Power(1.0 - p, n - k));
      ProductIsNonnegative(Choose(n, k) as real, Power(p, k) * Power(1.0 - p, n - k));
    }
  }

  lemma ProductIsNonnegative(a: real, b: real)
    requires 0.0 <= a && 0.0 <= b
    ensures 0.0 <= a * b
  {
  }

  lemma RejectsMore(n: nat, k: nat, alpha: real, beta: real)
    requires alpha <= beta && Rejects(n, k, alpha)
    ensures Rejects(n, k, beta)
  {
    hide TwoPower, PValueWeight;
    MulMonotone(alpha, beta, TwoPower(n) as real);
  }

  lemma {:induction false} RejectedMassWithin(n: nat, p: real, alpha: real, beta: real, m: nat)
    requires 0.0 <= p <= 1.0 && alpha <= beta
    ensures 0.0 <= RejectedMass(n, p, alpha, m) <= RejectedMass(n, p, beta, m) <= Mass(n, p, m)
    decreases m
  {
    hide Pmf, Rejects;
    if m > 0 {
      RejectedMassWithin(n, p, alpha, beta, m - 1);
      PmfIsNonnegative(m - 1, n, p);
      if Rejects(n, m - 1, alpha) {
        RejectsMore(n, m - 1, alpha, beta);
      }
    }
  }

  /** Power is a probability and grows with the level. */
  lemma PowerIsProbability(n: nat, p: real, alpha: real, beta: real)
    requires 0.0 <= p <= 1.0 && alpha <= beta
    ensures 0.0 <= SignTestPower(n, p, alpha) <= SignTestPower(n, p, beta) <= 1.0
  {
    RejectedMassWithin(n, p, alpha, beta, n + 1);
    MassIsOne(n, p);
  }

  // ---------------------------------------------------------------- symmetry

  lemma {:induction false} ChooseAll(n: nat)
    ensures Choose(n, n) == 1
    decreases n
  {
    if n > 0 {
      ChooseAll(n - 1);
      ChooseBeyond(n - 1, n);
    }
  }

  lemma {:induction false} ChooseIsSymmetric(n: nat, k: nat)
    requires k <= n
    ensures Choose(n, k) == Choose(n, n - k)
    decreases n
  {
    if k == 0 || k == n {
      ChooseAll(n);
    } else {
      ChooseIsSymmetric(n - 1, k - 1);
      ChooseIsSymmetric(n - 1, k);
    }
  }

  /** The rejected mass of the outcomes from `m` up to n. */
  function UpperMass(n: nat, p: real, alpha: real, m: nat): real
    requires m <= n + 1
    decreases n + 1 - m
  {
    if m == n + 1 then 0.0
    else (if Rejects(n, m, alpha) then Pmf(m, n, p) else 0.0) + UpperMass(n, p, alpha, m + 1)
  }

  lemma {:induction false} LowerPlusUpper(n: nat, p: real, alpha: real, m: nat)
    requires m <= n + 1
    ensures RejectedMass(n, p, alpha, m) + UpperMass(n, p, alpha, m) == SignTestPower(n, p, alpha)
    decreases n + 1 - m
  {
    if m <= n {
      LowerPlusUpper(n, p, alpha, m + 1);
    }
  }

  /** k wins at p weigh as much as k losses at 1 - p. */
  lemma PmfMirrors(n: nat, p: real, k: nat)
    requires k <= n
    ensures Pmf(k, n, p) == Pmf(n - k, n, 1.0 - p)
  {
    hide Choose, Power;
    ChooseIsSymmetric(n, k);
    assert 1.0 - (1.0 - p) == p && n - (n - k) == k;
  }

  lemma {:induction false} MirroredMass(n: nat, p: real, alpha: real, m: nat)
    requires m <= n + 1
    ensures RejectedMass(n, p, alpha, m) == UpperMass(n, 1.0 - p, alpha, n + 1 - m)
    decreases m
  {
    hide Pmf, Choose;
    if m > 0 {
      MirroredMass(n, p, alpha, m - 1);
      ChooseIsSymmetric(n, m - 1);
      PmfMirrors(n, p, m - 1);
    }
  }

  /** A lineage that wins with probability p is as detectable as one that loses with probability p. */
  lemma PowerIsSymmetric(n: nat, p: real, alpha: real)
    ensures SignTestPower(n, p, alpha) == SignTestPower(n, 1.0 - p, alpha)
  {
    MirroredMass(n, p, alpha, n + 1);
    LowerPlusUpper(n, 1.0 - p, alpha, 0);
  }

  // ---------------------------------------------------------------- the p-value as two tails

  function LowerTail(n: nat, m: nat): nat {
    if m == 0 then 0 else LowerTail(n, m - 1) + Choose(n, m - 1)
  }

  lemma {:induction false} Absorption(n: nat, k: nat)
    requires k < n
    ensures (k + 1) * Choose(n, k + 1) == (n - k) * Choose(n, k)
    decreases n
  {
    hide Choose;
    Pascal(n - 1, k);
    if k < n - 1 {
      Absorption(n - 1, k);
    } else {
      ChooseBeyond(n - 1, n);
    }
    if k == 0 {
      ChooseNone(n - 1);
      ChooseNone(n);
      Combine(n, 0, 0, Choose(n - 1, 0), Choose(n - 1, 1));
    } else {
      Pascal(n - 1, k - 1);
      Absorption(n - 1, k - 1);
      Combine(n, k, Choose(n - 1, k - 1), Choose(n - 1, k), Choose(n - 1, k + 1));
    }
  }

  lemma Pascal(n: nat, k: nat)
    ensures Choose(n + 1, k + 1) == Choose(n, k) + Choose(n, k + 1)
  {
  }

  lemma ChooseNone(n: nat)
    ensures Choose(n, 0) == 1
  {
  }

  lemma Combine(n: nat, k: nat, a: nat, c: nat, d: nat)
    requires k < n && (k + 1) * d == (n - 1 - k) * c && k * c == (n - k) * a
    ensures (k + 1) * (c + d) == (n - k) * (a + c)
  {
    assert (k + 1) * (c + d) == k * c + c + (k + 1) * d;
    assert (n - k) * (a + c) == (n - k) * a + (n - k) * c;
    assert (n - k) * c == c + (n - 1 - k) * c;
  }

  lemma {:induction false} ChooseIsPositive(n: nat, k: nat)
    requires k <= n
    ensures Choose(n, k) > 0
    decreases n
  {
    if 0 < k {
      ChooseIsPositive(n - 1, k - 1);
    }
  }

  /** Below the middle each outcome is strictly likelier than the one before it. */
  lemma RisesToMiddle(n: nat, k: nat)
    requires 2 * k + 1 < n
    ensures Choose(n, k) < Choose(n, k + 1)
  {
    hide Choose;
    Absorption(n, k);
    ChooseIsPositive(n, k);
    Larger(k + 1, n - k, Choose(n, k + 1), Choose(n, k));
  }

  lemma Larger(a: nat, b: nat, x: nat, y: nat)
    requires 0 < a < b && a * x == b * y && 0 < y
    ensures y < x
  {
    assert b * y == a * y + (b - a) * y;
    assert (b - a) * y > 0;
    assert a * (x - y) > 0;
  }

  lemma {:induction false} RisesBetween(n: nat, j: nat, k: nat)
    requires j < k && 2 * k <= n
    ensures Choose(n, j) < Choose(n, k)
    decreases k
  {
    hide Choose;
    RisesToMiddle(n, k - 1);
    if j < k - 1 {
      RisesBetween(n, j, k - 1);
    }
  }

  /** Outcomes compare by their distance from the nearer end. */
  lemma ComparesByDistance(n: nat, j: nat, k: nat)
    requires j <= n && 2 * k <= n
    ensures Choose(n, j) <= Choose(n, k) <==> j <= k || n - k <= j
  {
    hide Choose;
    ChooseIsSymmetric(n, j);
    var i := if 2 * j <= n then j else n - j;
    if i < k {
      RisesBetween(n, i, k);
    } else if k < i {
      RisesBetween(n, k, i);
    }
  }

  lemma {:induction false} TailMirrors(n: nat, m: nat)
    requires m <= n + 1
    ensures LowerTail(n, n + 1) == LowerTail(n, m) + LowerTail(n, n + 1 - m)
    decreases m
  {
    hide Choose;
    if m > 0 {
      TailMirrors(n, m - 1);
      ChooseIsSymmetric(n, m - 1);
      assert n + 1 - (m - 1) == (n + 1 - m) + 1;
      assert n - (m - 1) == n + 1 - m;
    }
  }

  lemma {:induction false} NoLikelierAsTails(n: nat, k: nat, m: nat)
    requires 2 * k < n && m <= n + 1
    ensures NoLikelier(n, Choose(n, k), m)
         == if m <= k + 1 then LowerTail(n, m)
            else if m <= n - k then LowerTail(n, k + 1)
            else LowerTail(n, k + 1) + (LowerTail(n, m) - LowerTail(n, n - k))
    decreases m
  {
    hide Choose;
    if m > 0 {
      NoLikelierAsTails(n, k, m - 1);
      ComparesByDistance(n, m - 1, k);
    }
  }

  lemma {:induction false} WholeRow(n: nat, m: nat)
    ensures LowerTail(n + 1, m) == LowerTail(n, m) + (if m == 0 then 0 else LowerTail(n, m - 1))
    decreases m
  {
    if m > 0 {
      WholeRow(n, m - 1);
    }
  }

  lemma {:induction false} RowSum(n: nat)
    ensures LowerTail(n, n + 1) == TwoPower(n)
    decreases n
  {
    if n == 0 {
      assert LowerTail(0, 1) == LowerTail(0, 0) + Choose(0, 0);
    } else {
      RowSum(n - 1);
      WholeRow(n - 1, n + 1);
      ChooseBeyond(n - 1, n);
      assert LowerTail(n - 1, n + 1) == LowerTail(n - 1, n) + Choose(n - 1, n);
    }
  }

  lemma {:induction false} MiddleIsLikeliest(n: nat, k: nat, m: nat)
    requires 2 * k == n && m <= n + 1
    ensures NoLikelier(n, Choose(n, k), m) == LowerTail(n, m)
    decreases m
  {
    hide Choose;
    if m > 0 {
      MiddleIsLikeliest(n, k, m - 1);
      ComparesByDistance(n, m - 1, k);
    }
  }

  /** The p-value of k wins: twice the tail beyond the nearer end, or 1 at the exact middle. */
  lemma PValueIsTwoTails(n: nat, k: nat)
    requires k <= n
    ensures PValueWeight(n, k) ==
      if 2 * k == n then TwoPower(n) else 2 * LowerTail(n, (if 2 * k < n then k else n - k) + 1)
  {
    hide Choose;
    ChooseIsSymmetric(n, k);
    var i := if 2 * k <= n then k else n - k;
    if 2 * i == n {
      MiddleIsLikeliest(n, i, n + 1);
      RowSum(n);
    } else {
      NoLikelierAsTails(n, i, n + 1);
      TailMirrors(n, i + 1);
    }
  }

  /** The two-sided p-value of k wins: twice the nearer tail of the fair binomial, 1 at the exact middle. */
  function TwoTailP(n: nat, k: nat): real
    requires k <= n
  {
    if 2 * k == n then 1.0 else 2.0 * LowerTail(n, (if 2 * k < n then k else n - k) + 1) as real * Power(0.5, n)
  }

  /** An outcome counts exactly when that p-value is at most alpha. */
  lemma CountsExactlyWhenUnlikely(n: nat, k: nat, alpha: real)
    requires k <= n
    ensures Rejects(n, k, alpha) <==> TwoTailP(n, k) <= alpha
  {
    hide LowerTail, Power, TwoPower, PValueWeight;
    PValueIsTwoTails(n, k);
    HalvesAndDoubles(n);
    TwoPowerIsPositive(n);
    var w, h, t := PValueWeight(n, k) as real, Power(0.5, n), TwoPower(n) as real;
    assert TwoTailP(n, k) == w * h by {
      if 2 * k != n {
        assert w == 2.0 * LowerTail(n, (if 2 * k < n then k else n - k) + 1) as real;
      }
    }
    Scaled(w, h, t, alpha);
  }

  lemma Scaled(w: real, h: real, t: real, alpha: real)
    requires h * t == 1.0 && 0.0 < t
    ensures w <= alpha * t <==> w * h <= alpha
  {
    assert 0.0 < h by {
      if h <= 0.0 {
        MulMonotone(h, 0.0, t);
      }
    }
    if w <= alpha * t {
      MulMonotone(w, alpha * t, h);
      MulAssociates(alpha, t, h);
    }
    if w * h <= alpha {
      MulMonotone(w * h, alpha, t);
      MulAssociates(w, h, t);
    }
  }

  /** The probability of the outcomes below m whose p-value is at most alpha. */
  function UnlikelyMass(n: nat, p: real, alpha: real, m: nat): real
    requires m <= n + 1
  {
    if m == 0 then 0.0
    else UnlikelyMass(n, p, alpha, m - 1) + (if TwoTailP(n, m - 1) <= alpha then Pmf(m - 1, n, p) else 0.0)
  }

  /** Power is the probability of an outcome whose p-value is at most alpha: of all of them and of no other. */
  lemma {:induction false} PowerIsUnlikelyMass(n: nat, p: real, alpha: real)
    ensures SignTestPower(n, p, alpha) == UnlikelyMass(n, p, alpha, n + 1)
  {
    RejectedIsUnlikely(n, p, alpha, n + 1);
  }

  lemma {:induction false} RejectedIsUnlikely(n: nat, p: real, alpha: real, m: nat)
    requires m <= n + 1
    ensures RejectedMass(n, p, alpha, m) == UnlikelyMass(n, p, alpha, m)
    decreases m
  {
    hide Pmf, Rejects, TwoTailP;
    if m > 0 {
      RejectedIsUnlikely(n, p, alpha, m - 1);
      CountsExactlyWhenUnlikely(n, m - 1, alpha);
    }
  }
}
