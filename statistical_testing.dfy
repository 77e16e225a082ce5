/** The index bookkeeping of the statistical test: restricting the difference vector and its
    covariance matrix to a set of indices, or to the complement of one, the eigenvalue filter
    of the Mahalanobis distance, and the argument checks and branch choice of the chi-squared
    and F cumulative distributions.

    The linear algebra (the eigen decomposition, the matrix-vector product, the Cholesky
    factorization) is done by LAPACK and BLAS, whose results enter as parameters. */
module Statistics {
  import opened Errors
  import Arith

  predicate StrictlyIncreasing(s: seq<int>)
  {
    forall a, b :: 0 <= a < b < |s| ==> s[a] < s[b]
  }

  function Elements(s: seq<int>): set<int>
  {
    set x | x in s
  }

  /** Adds x to a strictly increasing list, keeping it strictly increasing. */
  function InsertSorted(u: seq<int>, x: int): (v: seq<int>)
    requires StrictlyIncreasing(u)
    ensures StrictlyIncreasing(v) && Elements(v) == Elements(u) + {x}
    decreases |u|
  {
    if |u| == 0 then [x]
    else if x < u[0] then
      ConsSmaller(x, u);
      [x] + u
    else if x == u[0] then
      assert x in Elements(u);
      u
    else
      var rest := InsertSorted(u[1..], x);
      ConsAfterInsert(u, x, rest);
      [u[0]] + rest
  }

  /** Elements(h :: t) is {h} plus Elements(t). */
  lemma ElementsCons(h: int, t: seq<int>)
    ensures Elements([h] + t) == {h} + Elements(t)
  {
    assert forall y :: y in [h] + t <==> y == h || y in t;
  }

  /** A value below the head of a strictly increasing list can be put in front of it. */
  lemma ConsSmaller(x: int, u: seq<int>)
    requires |u| > 0 && StrictlyIncreasing(u) && x < u[0]
    ensures StrictlyIncreasing([x] + u) && Elements([x] + u) == Elements(u) + {x}
  {
    ElementsCons(x, u);
    var v := [x] + u;
    forall a, b | 0 <= a < b < |v| ensures v[a] < v[b] {
      if a == 0 {
        assert v[b] == u[b - 1] && u[0] <= u[b - 1];
      } else {
        assert v[a] == u[a - 1] && v[b] == u[b - 1];
      }
    }
  }

  /** The head of u in front of x inserted into the rest of u. */
  lemma ConsAfterInsert(u: seq<int>, x: int, rest: seq<int>)
    requires |u| > 0 && StrictlyIncreasing(u) && u[0] < x
    requires StrictlyIncreasing(rest) && Elements(rest) == Elements(u[1..]) + {x}
    ensures StrictlyIncreasing([u[0]] + rest) && Elements([u[0]] + rest) == Elements(u) + {x}
  {
    assert u == [u[0]] + u[1..];
    ElementsCons(u[0], u[1..]);
    ElementsCons(u[0], rest);
    forall b | 0 <= b < |rest| ensures u[0] < rest[b] {
      assert rest[b] in Elements(rest);
      if rest[b] != x {
        var a :| 0 <= a < |u[1..]| && u[1..][a] == rest[b];
        assert u[a + 1] == rest[b];
      }
    }
    var v := [u[0]] + rest;
    forall a, b | 0 <= a < b < |v| ensures v[a] < v[b] {
      if a == 0 {
        assert v[b] == rest[b - 1];
      } else {
        assert v[a] == rest[a - 1] && v[b] == rest[b - 1];
      }
    }
  }

  /** std::sort then std::unique then resize: the distinct indices in increasing order. */
  method SortUnique(indices: seq<int>) returns (u: seq<int>)
    ensures StrictlyIncreasing(u) && Elements(u) == Elements(indices)
  {
    u := [];
    for i := 0 to |indices|
      invariant StrictlyIncreasing(u) && Elements(u) == Elements(indices[..i])
    {
      assert indices[..i + 1] == indices[..i] + [indices[i]];
      u := InsertSorted(u, indices[i]);
    }
    assert indices[..|indices|] == indices;
  }

  /** A set of integers has exactly one strictly increasing listing, so the sorted and
      deduplicated list is determined by the set of indices alone. */
  lemma {:induction false} StrictlyIncreasingUnique(u: seq<int>, v: seq<int>)
    requires StrictlyIncreasing(u) && StrictlyIncreasing(v) && Elements(u) == Elements(v)
    ensures u == v
    decreases |u|
  {
    if |u| > 0 {
      assert u[0] in Elements(v);
      var k :| 0 <= k < |v| && v[k] == u[0];
      assert v[0] in Elements(v);
      var l :| 0 <= l < |u| && u[l] == v[0];
      assert v[0] <= v[k] && u[0] <= u[l];
      assert u == [u[0]] + u[1..] && v == [v[0]] + v[1..];
      assert Elements(u[1..]) == Elements(u) - {u[0]};
      assert Elements(v[1..]) == Elements(v) - {v[0]};
      StrictlyIncreasingUnique(u[1..], v[1..]);
    }
  }

  /** The resized list holds one entry per distinct index. */
  lemma {:induction false} DistinctCount(u: seq<int>)
    requires StrictlyIncreasing(u)
    ensures |Elements(u)| == |u|
    decreases |u|
  {
    if |u| > 0 {
      assert u == [u[0]] + u[1..];
      assert Elements(u) == {u[0]} + Elements(u[1..]);
      assert u[0] !in Elements(u[1..]);
      DistinctCount(u[1..]);
    }
  }

  /** The position of entry (i, j) in a row-major n x n matrix. */
  function At(i: int, j: int, n: int): int
  {
    i * n + j
  }

  lemma AtBound(i: nat, j: nat, n: nat)
    requires i < n && j < n
    ensures 0 <= At(i, j, n) < n * n
  {
    Arith.MulMonotone(i + 1, n, n);
  }

  /** Entry (a, b) of a row-major n x n matrix. */
  function Entry(m: seq<real>, n: nat, a: int, b: int): real
    requires |m| == n * n && 0 <= a < n && 0 <= b < n
  {
    AtBound(a, b, n);
    m[At(a, b, n)]
  }

  /** Row-major order: an entry in an earlier row, or earlier in the same row, comes first. */
  lemma AtOrder(a: nat, b: nat, i: nat, j: nat, n: nat)
    requires b < n && j < n && (a < i || (a == i && b < j))
    ensures At(a, b, n) < At(i, j, n)
  {
    if a < i {
      Arith.MulMonotone(a + 1, i, n);
    }
  }

  /** The bounds check of selectIndices as written: out_of_range only when the largest index
      exceeds the size, so an index equal to the size is let through. */
  predicate OutOfBoundsAsWritten(kept: seq<int>, n: int)
    requires |kept| > 0
  {
    kept[0] < 0 || kept[|kept| - 1] > n
  }

  /** The check selectIndices needs before it reads df_[index]: every index is a position of
      the vector. */
  predicate OutOfBounds(kept: seq<int>, n: int)
    requires |kept| > 0
  {
    kept[0] < 0 || kept[|kept| - 1] >= n
  }

  /** For a sorted list the corrected check rejects exactly the lists holding an index that is
      not a position of the vector. */
  lemma OutOfBoundsMeansSomeIndexInvalid(kept: seq<int>, n: int)
    requires |kept| > 0 && StrictlyIncreasing(kept)
    ensures !OutOfBounds(kept, n) <==> forall x :: x in kept ==> 0 <= x < n
  {
    if !OutOfBounds(kept, n) {
      forall x | x in kept ensures 0 <= x < n {
        var a :| 0 <= a < |kept| && kept[a] == x;
        assert kept[0] <= kept[a] <= kept[|kept| - 1];
      }
    } else {
      assert kept[0] in kept && kept[|kept| - 1] in kept;
    }
  }

  predicate AllBelow(kept: seq<int>, n: int)
  {
    forall i :: 0 <= i < |kept| ==> 0 <= kept[i] < n
  }

  /** A sorted list that passes the corrected check holds positions of the vector only. */
  lemma InBoundsAllBelow(kept: seq<int>, n: int)
    requires |kept| > 0 && StrictlyIncreasing(kept) && !OutOfBounds(kept, n)
    ensures AllBelow(kept, n)
  {
    OutOfBoundsMeansSomeIndexInvalid(kept, n);
    forall i | 0 <= i < |kept| ensures 0 <= kept[i] < n {
      assert kept[i] in kept;
    }
  }

  /** With two entries in df_ the index list [2] passes the check as written, and selectIndices
      then reads df_[2], one past the end; the corrected check rejects it. */
  lemma SelectBoundsCounterexample()
    ensures !OutOfBoundsAsWritten([2], 2)
    ensures OutOfBounds([2], 2)
  {
  }

  /** The positions 0..n-1 missing from the discard list, in increasing order. */
  function Complement(n: nat, discard: seq<int>): seq<int>
    decreases n
  {
    if n == 0 then []
    else Complement(n - 1, discard) + (if (n - 1) in discard then [] else [n - 1])
  }

  /** The complement holds exactly the positions below n that are not discarded, in strictly
      increasing order. */
  lemma {:induction false} ComplementSpec(n: nat, discard: seq<int>)
    ensures StrictlyIncreasing(Complement(n, discard))
    ensures forall x :: x in Complement(n, discard) <==> 0 <= x < n && x !in discard
    decreases n
  {
    if n > 0 {
      ComplementSpec(n - 1, discard);
      var s := Complement(n - 1, discard);
      assert forall a :: 0 <= a < |s| ==> s[a] < n - 1 by {
        forall a | 0 <= a < |s| ensures s[a] < n - 1 {
          assert s[a] in s;
        }
      }
    }
  }

  /** The loop of discardIndices as written, from position i with the discard cursor at
      `cursor`: None where it reads the discard list one past its end. */
  function ComplementAsWritten(i: nat, n: nat, discard: seq<int>, cursor: nat): Option<seq<int>>
    decreases n - i
  {
    if i >= n then Some([])
    else if cursor >= |discard| then None
    else if i == discard[cursor] then ComplementAsWritten(i + 1, n, discard, cursor + 1)
    else
      match ComplementAsWritten(i + 1, n, discard, cursor)
      case None => None
      case Some(rest) => Some([i] + rest)
  }

  /** Discarding [0] out of three positions: after position 0 matches, the loop compares
      position 1 with the entry past the end of the list, where the complement [1, 2] was
      meant. */
  lemma DiscardPastEndCounterexample()
    ensures ComplementAsWritten(0, 3, [0], 0) == None
    ensures Complement(3, [0]) == [1, 2]
  {
    assert 0 in [0] && 1 !in [0] && 2 !in [0];
  }

  /** The values the eigen filter keeps: the number of eigenvalues above the threshold among
      the first i, the normalized components and the distance they add up to. */
  function KeptCount(eigenvalues: seq<real>, threshold: real, i: nat): nat
    requires i <= |eigenvalues|
  {
    if i == 0 then 0
    else KeptCount(eigenvalues, threshold, i - 1) + (if eigenvalues[i - 1] > threshold then 1 else 0)
  }

  function NormalizedSamples(eigenvalues: seq<real>, dfPrimed: seq<real>, threshold: real,
                             sqrt: real -> real, i: nat): seq<real>
    requires i <= |eigenvalues| == |dfPrimed|
    requires forall x: real :: x > 0.0 ==> sqrt(x) > 0.0
    requires threshold >= 0.0
  {
    if i == 0 then []
    else
      NormalizedSamples(eigenvalues, dfPrimed, threshold, sqrt, i - 1) +
      (if eigenvalues[i - 1] > threshold then [dfPrimed[i - 1] / sqrt(eigenvalues[i - 1])] else [])
  }

  function Distance(eigenvalues: seq<real>, dfPrimed: seq<real>, threshold: real, i: nat): real
    requires i <= |eigenvalues| == |dfPrimed|
    requires threshold >= 0.0
  {
    if i == 0 then 0.0
    else
      Distance(eigenvalues, dfPrimed, threshold, i - 1) +
      (if eigenvalues[i - 1] > threshold then SquareOver(dfPrimed[i - 1], eigenvalues[i - 1]) else 0.0)
  }

  /** The term a kept eigenvalue adds to the distance: the squared component over the
      eigenvalue. */
  function SquareOver(d: real, e: real): real
    requires e > 0.0
  {
    d * d / e
  }

  /** One normalized sample per kept eigenvalue, and never more kept than there are. */
  lemma {:induction false} NormalizedSamplesPerKept(eigenvalues: seq<real>, dfPrimed: seq<real>,
                                                    threshold: real, sqrt: real -> real, i: nat)
    requires i <= |eigenvalues| == |dfPrimed|
    requires forall x: real :: x > 0.0 ==> sqrt(x) > 0.0
    requires threshold >= 0.0
    ensures |NormalizedSamples(eigenvalues, dfPrimed, threshold, sqrt, i)| == KeptCount(eigenvalues, threshold, i) <= i
  {
    if i > 0 {
      NormalizedSamplesPerKept(eigenvalues, dfPrimed, threshold, sqrt, i - 1);
    }
  }

  /** How a cumulative distribution is evaluated: zero, the regularized lower incomplete gamma
      function, one minus the regularized upper one, or the regularized incomplete beta
      function, each at the arguments given. */
  datatype CdfEvaluation =
    | CdfZero
    | LowerGamma(s: real, z: real)
    | OneMinusUpperGamma(s: real, z: real)
    | LowerBeta(a: real, b: real, x: real)

  const NegativeArgument := "The cdf is defined only for positive arguments"

  /** chi2Cdf(x, k): a logic_error for a negative x or a non-positive k, zero at x = 0, the
      series of the lower gamma function below the mean k and the continued fraction of the
      upper one from the mean on. */
  function Chi2Cdf(x: real, k: int): (r: Result<CdfEvaluation>)
    ensures r.Failure? <==> x < 0.0 || k <= 0
    ensures r.Failure? ==> r == Failure(LogicError, NegativeArgument)
    ensures r.Success? ==> (r.value == CdfZero <==> x == 0.0)
    ensures r.Success? ==> (r.value.LowerGamma? <==> 0.0 < x < k as real)
    ensures r.Success? && x > 0.0 ==>
      (r.value.LowerGamma? || r.value.OneMinusUpperGamma?) && r.value.s == 0.5 * k as real && r.value.z == 0.5 * x
  {
    if x < 0.0 || k <= 0 then Failure(LogicError, NegativeArgument)
    else if x == 0.0 then Success(CdfZero)
    else if x < k as real then Success(LowerGamma(0.5 * k as real, 0.5 * x))
    else Success(OneMinusUpperGamma(0.5 * k as real, 0.5 * x))
  }

  lemma MulPositive(a: real, b: real)
    requires a > 0.0 && b > 0.0
    ensures a * b > 0.0
  {
  }

  /** fCdf(x, nu1, nu2): a logic_error for a negative x or a non-positive degree of freedom,
      zero at x = 0, otherwise the incomplete beta function at nu1 x / (nu1 x + nu2), a point
      strictly inside (0, 1). */
  function FCdf(x: real, nu1: int, nu2: int): (r: Result<CdfEvaluation>)
    ensures r.Failure? <==> x < 0.0 || nu1 <= 0 || nu2 <= 0
    ensures r.Failure? ==> r == Failure(LogicError, NegativeArgument)
    ensures r.Success? ==> (r.value == CdfZero <==> x == 0.0)
    ensures r.Success? && x > 0.0 ==>
      r.value.LowerBeta? && r.value.a == 0.5 * nu1 as real && r.value.b == 0.5 * nu2 as real && 0.0 < r.value.x < 1.0
  {
    if x < 0.0 || nu1 <= 0 || nu2 <= 0 then Failure(LogicError, NegativeArgument)
    else if x == 0.0 then Success(CdfZero)
    else
      var p := nu1 as real * x;
      MulPositive(nu1 as real, x);
      BetaArgumentInside(p, nu2 as real);
      Success(LowerBeta(0.5 * nu1 as real, 0.5 * nu2 as real, p / (p + nu2 as real)))
  }

  lemma BetaArgumentInside(p: real, q: real)
    requires p > 0.0 && q > 0.0
    ensures 0.0 < p / (p + q) < 1.0
  {
  }

  /** The argument of chi2Cdf: the distance times the number of samples. */
  function Chi2Argument(distance: real, nSamples: int): real
  {
    distance * nSamples as real
  }

  /** The argument of fCdf: the distance times (samples - dof) / dof. */
  function FArgument(distance: real, nSamples: int, dof: int): real
    requires dof != 0
  {
    distance * (nSamples - dof) as real / dof as real
  }

  /** One minus the cumulative distribution, as evaluated numerically. */
  function PValue(evaluate: CdfEvaluation -> real, c: CdfEvaluation): real
  {
    1.0 - evaluate(c)
  }

  class StatisticalTesting {
    /** The difference vector and its covariance matrix, row-major. */
    var df: seq<real>
    var cov: seq<real>
    /** -1 until computed. */
    var distance: real
    var dof: int
    var pvalue: real
    var samples: int
    var normalizedSamples: seq<real>

    /** The covariance is square over df; once the distance is computed there is one normalized
        sample per degree of freedom; a p-value is only ever computed with the distance. */
    ghost predicate Valid()
      reads this
    {
      |cov| == |df| * |df| && 0 <= dof &&
      (distance != -1.0 ==> |normalizedSamples| == dof) &&
      (pvalue != -1.0 ==> distance != -1.0)
    }

    constructor (df0: seq<real>, cov0: seq<real>)
      requires |cov0| == |df0| * |df0|
      ensures Valid() && df == df0 && cov == cov0
      ensures distance == -1.0 && pvalue == -1.0 && dof == 0 && normalizedSamples == []
    {
      df := df0;
      cov := cov0;
      distance := -1.0;
      dof := 0;
      pvalue := -1.0;
      samples := 0;
      normalizedSamples := [];
    }

    /** selectIndices: sorts and deduplicates the list (`kept`); an empty list is a logic_error
        and an index outside the vector an out_of_range, both leaving the test unchanged;
        otherwise df_ and cov_ are restricted to the listed positions, in increasing order. */
    method SelectIndices(indices: seq<int>) returns (r: Outcome, kept: seq<int>)
      requires Valid()
      modifies this
      ensures Valid()
      ensures StrictlyIncreasing(kept) && Elements(kept) == Elements(indices)
      ensures |kept| == 0 ==> r == Throw(LogicError, "Test is empty.")
      ensures |kept| > 0 && OutOfBounds(kept, old(|df|)) ==> r == Throw(OutOfRange, "Index out of bounds.")
      ensures r.Ok? <==> |kept| > 0 && !OutOfBounds(kept, old(|df|))
      ensures r.Throw? ==> df == old(df) && cov == old(cov)
      ensures r.Ok? ==> RestrictionOf(df, cov, old(df), old(cov), kept)
      ensures distance == old(distance) && dof == old(dof) && pvalue == old(pvalue)
      ensures samples == old(samples) && normalizedSamples == old(normalizedSamples)
    {
      kept := SortUnique(indices);
      if |kept| == 0 {
        return Throw(LogicError, "Test is empty."), kept;
      }
      if OutOfBounds(kept, |df|) {
        return Throw(OutOfRange, "Index out of bounds."), kept;
      }
      InBoundsAllBelow(kept, |df|);
      var newDf, newCov := Restrict(df, cov, |df|, kept);
      df := newDf;
      cov := newCov;
      r := Ok;
    }

    /** discardIndices: sorts and deduplicates the list; an index below zero or above the size
        is an out_of_range (one equal to the size is let through and ignored); otherwise the
        test keeps the complement, as selectIndices would, so discarding every position is
        "Test is empty.". The source reads the first entry, so the list must not be empty. */
    method DiscardIndices(indices: seq<int>) returns (r: Outcome, discarded: seq<int>)
      requires Valid() && |indices| > 0
      modifies this
      ensures Valid()
      ensures StrictlyIncreasing(discarded) && Elements(discarded) == Elements(indices) && |discarded| > 0
      ensures OutOfBoundsAsWritten(discarded, old(|df|)) ==> r == Throw(OutOfRange, "Index out of bounds.")
      ensures !OutOfBoundsAsWritten(discarded, old(|df|)) && Complement(old(|df|), discarded) == [] ==>
        r == Throw(LogicError, "Test is empty.")
      ensures r.Ok? <==> !OutOfBoundsAsWritten(discarded, old(|df|)) && Complement(old(|df|), discarded) != []
      ensures r.Throw? ==> df == old(df) && cov == old(cov)
      ensures r.Ok? ==> RestrictionOf(df, cov, old(df), old(cov), Complement(old(|df|), discarded))
      ensures distance == old(distance) && dof == old(dof) && pvalue == old(pvalue)
      ensures samples == old(samples) && normalizedSamples == old(normalizedSamples)
    {
      discarded := SortUnique(indices);
      assert indices[0] in Elements(discarded);
      if OutOfBoundsAsWritten(discarded, |df|) {
        return Throw(OutOfRange, "Index out of bounds."), discarded;
      }
      var n := |df|;
      assert forall a :: 0 <= a < |discarded| ==> discarded[a] >= discarded[0] >= 0;
      var pick := ComplementOf(n, discarded);
      ComplementSpec(n, discarded);
      if |pick| > 0 {
        assert pick[0] in pick && pick[|pick| - 1] in pick;
      }
      var kept;
      r, kept := SelectIndices(pick);
      StrictlyIncreasingUnique(kept, pick);
    }

    /** computeMahalanobisDistanceSquared: nothing when the distance is already known;
        otherwise, with the eigenvalues of the covariance in increasing order and the
        components of df in the eigenbasis (LAPACK's syevd and BLAS's gemv, which also leave the
        eigenvectors in cov_), keeps every eigenvalue above ten times the leading one times
        the machine epsilon: one degree of freedom and one normalized sample each, and the
        distance sums the kept squared components over their eigenvalues. */
    method ComputeMahalanobisDistanceSquared(eigenvalues: seq<real>, eigenvectors: seq<real>,
                                             dfPrimed: seq<real>, epsilon: real, sqrt: real -> real)
      requires Valid() && 0 < |df| == |eigenvalues| == |dfPrimed| && |eigenvectors| == |cov|
      requires eigenvalues[|eigenvalues| - 1] >= 0.0 && epsilon > 0.0
      requires forall x: real :: x > 0.0 ==> sqrt(x) > 0.0
      modifies this
      ensures Valid()
      ensures old(distance) != -1.0 ==>
        distance == old(distance) && dof == old(dof) && normalizedSamples == old(normalizedSamples) && cov == old(cov)
      ensures old(distance) == -1.0 ==>
        var threshold := 10.0 * eigenvalues[|eigenvalues| - 1] * epsilon;
        threshold >= 0.0 &&
        dof == KeptCount(eigenvalues, threshold, |eigenvalues|) &&
        normalizedSamples == NormalizedSamples(eigenvalues, dfPrimed, threshold, sqrt, |eigenvalues|) &&
        distance == Distance(eigenvalues, dfPrimed, threshold, |eigenvalues|) &&
        cov == eigenvectors
      ensures df == old(df) && pvalue == old(pvalue) && samples == old(samples)
      ensures distance != -1.0
    {
      if distance != -1.0 {
        return;
      }
      cov := eigenvectors;
      var leading := eigenvalues[|eigenvalues| - 1];
      var threshold := 10.0 * leading * epsilon;
      MulPositiveOrZero(10.0 * leading, epsilon);
      var kept, normalized, result := FilterEigenvalues(eigenvalues, dfPrimed, threshold, sqrt);
      dof := kept;
      normalizedSamples := normalized;
      distance := result;
    }

    /** computePValue without the fast path: records the number of samples, computes the
        distance, then takes one minus the chi-squared cdf of distance * samples with dof
        degrees of freedom when the covariance is known, or one minus the F cdf otherwise.
        An argument the cdf refuses is its logic_error, and the p-value stays as it was.
        `evaluate` is the numerical evaluation of the incomplete gamma and beta functions. */
    method ComputePValue(knownExpectedCovariance: bool, nSamples: int,
                         eigenvalues: seq<real>, eigenvectors: seq<real>, dfPrimed: seq<real>,
                         epsilon: real, sqrt: real -> real, evaluate: CdfEvaluation -> real)
      returns (r: Result<real>)
      requires Valid() && 0 < |df| == |eigenvalues| == |dfPrimed| && |eigenvectors| == |cov|
      requires eigenvalues[|eigenvalues| - 1] >= 0.0 && epsilon > 0.0
      requires forall x: real :: x > 0.0 ==> sqrt(x) > 0.0
      modifies this
      ensures Valid() && samples == nSamples && distance != -1.0
      ensures knownExpectedCovariance ==>
        var c := Chi2Cdf(Chi2Argument(distance, nSamples), dof);
        (c.Failure? ==> r == Failure(c.kind, c.message)) &&
        (c.Success? ==> r == Success(PValue(evaluate, c.value)))
      ensures !knownExpectedCovariance ==>
        (dof <= 0 || nSamples - dof <= 0 ==> r == Failure(LogicError, NegativeArgument)) &&
        (dof > 0 ==>
          var c := FCdf(FArgument(distance, nSamples, dof), dof, nSamples - dof);
          (c.Failure? ==> r == Failure(c.kind, c.message)) &&
          (c.Success? ==> r == Success(PValue(evaluate, c.value))))
      ensures r.Success? ==> pvalue == r.value
      ensures r.Failure? ==> pvalue == old(pvalue)
    {
      samples := nSamples;
      ComputeMahalanobisDistanceSquared(eigenvalues, eigenvectors, dfPrimed, epsilon, sqrt);
      var c;
      if knownExpectedCovariance {
        c := Chi2Cdf(Chi2Argument(distance, nSamples), dof);
      } else {
        // With no degree of freedom C++ divides by zero; fCdf refuses nu1 = 0 whatever x is.
        var x := if dof != 0 then FArgument(distance, nSamples, dof) else 0.0;
        c := FCdf(x, dof, nSamples - dof);
      }
      if c.Failure? {
        return Failure(c.kind, c.message);
      }
      pvalue := PValue(evaluate, c.value);
      r := Success(pvalue);
    }

    /** printInfo: a logic_error until the p-value is computed; otherwise it writes the first
        dof normalized samples, all of which exist. */
    method PrintInfo() returns (r: Outcome, written: seq<real>)
      requires Valid()
      ensures r == Throw(LogicError, "StatisticalTesting: the pvalue has not been computed yet.") <==> pvalue == -1.0
      ensures r.Ok? ==> r == Ok && |written| == dof && written == normalizedSamples[..dof]
    {
      if pvalue == -1.0 {
        return Throw(LogicError, "StatisticalTesting: the pvalue has not been computed yet."), [];
      }
      written := [];
      for i := 0 to dof
        invariant written == normalizedSamples[..i]
      {
        written := written + [normalizedSamples[i]];
      }
      r := Ok;
    }
  }

  /** The loop of computeMahalanobisDistanceSquared over the eigenvalues: the number kept
      above the threshold, their normalized samples and the distance, which is never
      negative. */
  method FilterEigenvalues(eigenvalues: seq<real>, dfPrimed: seq<real>, threshold: real, sqrt: real -> real)
    returns (kept: nat, normalized: seq<real>, result: real)
    requires |eigenvalues| == |dfPrimed| && threshold >= 0.0
    requires forall x: real :: x > 0.0 ==> sqrt(x) > 0.0
    ensures kept == KeptCount(eigenvalues, threshold, |eigenvalues|) == |normalized|
    ensures normalized == NormalizedSamples(eigenvalues, dfPrimed, threshold, sqrt, |eigenvalues|)
    ensures result == Distance(eigenvalues, dfPrimed, threshold, |eigenvalues|) && result >= 0.0
  {
    var n := |eigenvalues|;
    result := 0.0;
    kept := 0;
    normalized := [];
    for i := 0 to n
      invariant kept == KeptCount(eigenvalues, threshold, i)
      invariant normalized == NormalizedSamples(eigenvalues, dfPrimed, threshold, sqrt, i)
      invariant result == Distance(eigenvalues, dfPrimed, threshold, i)
    {
      if eigenvalues[i] > threshold {
        result := result + SquareOver(dfPrimed[i], eigenvalues[i]);
        normalized := normalized + [dfPrimed[i] / sqrt(eigenvalues[i])];
        kept := kept + 1;
      }
    }
    NormalizedSamplesPerKept(eigenvalues, dfPrimed, threshold, sqrt, n);
    DistanceNonNegative(eigenvalues, dfPrimed, threshold, n);
  }

  /** The rows of a matrix, one after the other. */
  function Flatten(rows: seq<seq<real>>): seq<real>
    decreases |rows|
  {
    if |rows| == 0 then [] else Flatten(rows[..|rows| - 1]) + rows[|rows| - 1]
  }

  lemma {:induction false} FlattenLength(rows: seq<seq<real>>, m: nat)
    requires forall a :: 0 <= a < |rows| ==> |rows[a]| == m
    ensures |Flatten(rows)| == At(|rows|, 0, m)
    decreases |rows|
  {
    var k := |rows|;
    if k > 0 {
      FlattenLength(rows[..k - 1], m);
      assert At(k, 0, m) == At(k - 1, 0, m) + m;
    }
  }

  /** Flattening rows of length m gives a row-major matrix whose entry (a, b) is rows[a][b]. */
  lemma {:induction false} FlattenEntry(rows: seq<seq<real>>, m: nat, a: nat, b: nat)
    requires forall r :: 0 <= r < |rows| ==> |rows[r]| == m
    requires a < |rows| && b < m
    ensures At(a, b, m) < |Flatten(rows)|
    ensures Flatten(rows)[At(a, b, m)] == rows[a][b]
    decreases |rows|
  {
    var k := |rows|;
    var prefix := rows[..k - 1];
    FlattenLength(prefix, m);
    FlattenLength(rows, m);
    AtOrder(a, b, k, 0, m);
    if a < k - 1 {
      FlattenEntry(prefix, m, a, b);
      assert prefix[a] == rows[a];
    }
  }

  /** newDf and newCov are df and cov restricted to the positions in kept: entry i of the new
      vector is entry kept[i] of the old one, entry (i, j) of the new matrix is entry
      (kept[i], kept[j]) of the old one. */
  ghost predicate RestrictionOf(newDf: seq<real>, newCov: seq<real>, df: seq<real>, cov: seq<real>, kept: seq<int>)
  {
    |cov| == |df| * |df| && AllBelow(kept, |df|) &&
    |newDf| == |kept| && |newCov| == |kept| * |kept| &&
    (forall i :: 0 <= i < |kept| ==> newDf[i] == df[kept[i]]) &&
    (forall i, j :: 0 <= i < |kept| && 0 <= j < |kept| ==>
      Entry(newCov, |kept|, i, j) == Entry(cov, |df|, kept[i], kept[j]))
  }

  /** The loops of selectIndices that fill new_df and new_cov: entry i of the new vector is
      entry kept[i] of the old one, entry (i, j) of the new matrix is entry (kept[i], kept[j])
      of the old one. The rows are produced in order. */
  method Restrict(df: seq<real>, cov: seq<real>, n: nat, kept: seq<int>)
    returns (newDf: seq<real>, newCov: seq<real>)
    requires |df| == n && |cov| == n * n && AllBelow(kept, n)
    ensures RestrictionOf(newDf, newCov, df, cov, kept)
  {
    var m := |kept|;
    newDf := [];
    var rows: seq<seq<real>> := [];
    for i := 0 to m
      invariant |newDf| == i && |rows| == i
      invariant forall a :: 0 <= a < i ==> newDf[a] == df[kept[a]]
      invariant forall a :: 0 <= a < i ==> |rows[a]| == m
      invariant forall a, b :: 0 <= a < i && 0 <= b < m ==> rows[a][b] == Entry(cov, n, kept[a], kept[b])
    {
      newDf := newDf + [df[kept[i]]];
      var row := CopyRow(cov, n, kept, i);
      rows := rows + [row];
    }
    newCov := Flatten(rows);
    FlattenLength(rows, m);
    assert At(m, 0, m) == m * m;
    forall i, j | 0 <= i < m && 0 <= j < m
      ensures Entry(newCov, m, i, j) == Entry(cov, n, kept[i], kept[j])
    {
      FlattenEntry(rows, m, i, j);
    }
  }

  /** The inner loop of selectIndices: row i of the new matrix. */
  method CopyRow(cov: seq<real>, n: nat, kept: seq<int>, i: nat) returns (row: seq<real>)
    requires |cov| == n * n && i < |kept| && AllBelow(kept, n)
    ensures |row| == |kept|
    ensures forall b :: 0 <= b < |kept| ==> row[b] == Entry(cov, n, kept[i], kept[b])
  {
    row := [];
    for j := 0 to |kept|
      invariant |row| == j
      invariant forall b :: 0 <= b < j ==> row[b] == Entry(cov, n, kept[i], kept[b])
    {
      row := row + [Entry(cov, n, kept[i], kept[j])];
    }
  }

  /** The loop of discardIndices with the cursor compared only while it is inside the list:
      the positions below n that the sorted list does not hold. */
  method ComplementOf(n: nat, discarded: seq<int>) returns (pick: seq<int>)
    requires StrictlyIncreasing(discarded) && forall a :: 0 <= a < |discarded| ==> discarded[a] >= 0
    ensures pick == Complement(n, discarded)
  {
    pick := [];
    var cursor := 0;
    for i := 0 to n
      invariant 0 <= cursor <= |discarded|
      invariant pick == Complement(i, discarded)
      invariant forall a :: 0 <= a < cursor ==> discarded[a] < i
      invariant forall a :: cursor <= a < |discarded| ==> discarded[a] >= i
    {
      if cursor < |discarded| && i == discarded[cursor] {
        cursor := cursor + 1;
      } else {
        pick := pick + [i];
      }
    }
  }

  lemma MulPositiveOrZero(a: real, b: real)
    requires a >= 0.0 && b > 0.0
    ensures a * b >= 0.0
  {
  }

  /** A kept term divides a square by a positive eigenvalue, so the distance is never negative,
      in particular never the sentinel -1. */
  lemma {:induction false} DistanceNonNegative(eigenvalues: seq<real>, dfPrimed: seq<real>, threshold: real, i: nat)
    requires i <= |eigenvalues| == |dfPrimed| && threshold >= 0.0
    ensures Distance(eigenvalues, dfPrimed, threshold, i) >= 0.0
  {
    if i > 0 {
      DistanceNonNegative(eigenvalues, dfPrimed, threshold, i - 1);
      if eigenvalues[i - 1] > threshold {
        var d := dfPrimed[i - 1];
        SquareNonNegative(d);
        QuotientNonNegative(d * d, eigenvalues[i - 1]);
      }
    }
  }

  lemma SquareNonNegative(d: real)
    ensures d * d >= 0.0
  {
    if d < 0.0 {
      MulPositive(-d, -d);
      assert (-d) * (-d) == d * d;
    } else if d > 0.0 {
      MulPositive(d, d);
    }
  }

  lemma QuotientNonNegative(a: real, b: real)
    requires a >= 0.0 && b > 0.0
    ensures a / b >= 0.0
  {
  }
}
