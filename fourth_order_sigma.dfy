/** The Matsubara-frequency index arithmetic of the fourth-order self-energy, the index guards of
    its diagrams, the spin-block copy and scaling that ends every diagram, and the sum of the
    diagrams.

    A fermionic index f of a grid of Nw frequencies stands for the odd integer 2(f - Nw/2) + 1,
    a bosonic index b of a grid of Nb frequencies for the even integer 2(b - Nb/2). The helpers
    map between indices by computing with these integers and dividing by 2 with C++ integer
    division, which truncates toward zero. */
module SigmaFourthOrder {
  import opened Errors

  /** The sizes of the fermionic (w) and the bosonic (w_VERTEX_BOSONIC) frequency domains. */
  datatype Grid = Grid(nw: nat, nb: nat)

  /** C++ `a / 2` on int: the quotient truncated toward zero. */
  function CDiv2(a: int): (q: int)
    ensures a % 2 == 0 ==> 2 * q == a
    ensures a % 2 != 0 && a > 0 ==> 2 * q == a - 1
    ensures a % 2 != 0 && a < 0 ==> 2 * q == a + 1
  {
    if a >= 0 then a / 2 else -((-a) / 2)
  }

  /** The odd Matsubara integer of a fermionic index. */
  function Fermionic(g: Grid, f: int): int
  {
    2 * (f - g.nw / 2) + 1
  }

  /** The even Matsubara integer of a bosonic index. */
  function Bosonic(g: Grid, b: int): int
  {
    2 * (b - g.nb / 2)
  }

  /** subtract_freq_fb(w1, w2): the fermionic index of w2 - w1, w2 bosonic and w1 fermionic. */
  function SubtractFreqFb(g: Grid, w1: int, w2: int): int
  {
    CDiv2((Bosonic(g, w2) - Fermionic(g, w1)) - 1 + g.nw)
  }

  /** subtract_freq_bf(w1, w2): the fermionic index of w2 - w1, w1 bosonic and w2 fermionic. */
  function SubtractFreqBf(g: Grid, w1: int, w2: int): int
  {
    CDiv2((Fermionic(g, w2) - Bosonic(g, w1)) - 1 + g.nw)
  }

  /** add_freq_bf(w1, w2): the fermionic index of w1 + w2, w1 bosonic and w2 fermionic. */
  function AddFreqBf(g: Grid, w1: int, w2: int): int
  {
    CDiv2((Bosonic(g, w1) + Fermionic(g, w2)) - 1 + g.nw)
  }

  /** subtract_freq_ff(w1, w2) as written: the bosonic index of w2 - w1, both fermionic, with
      the truncating division. */
  function SubtractFreqFfAsWritten(g: Grid, w1: int, w2: int): int
  {
    CDiv2((Fermionic(g, w2) - Fermionic(g, w1)) + g.nb)
  }

  /** add_freq_ff(w1, w2) as written: the bosonic index of w1 + w2, both fermionic. */
  function AddFreqFfAsWritten(g: Grid, w1: int, w2: int): int
  {
    CDiv2((Fermionic(g, w1) + Fermionic(g, w2)) + g.nb)
  }

  /** subtract_freq_ff with the division rounding down, so that a difference below the grid
      gives a negative index for every grid size. */
  function SubtractFreqFf(g: Grid, w1: int, w2: int): (b: int)
    ensures Bosonic(g, b) == Fermionic(g, w2) - Fermionic(g, w1)
  {
    var n := (Fermionic(g, w2) - Fermionic(g, w1)) + g.nb;
    HalfOfBosonicNumerator(g, Fermionic(g, w2) - Fermionic(g, w1));
    n / 2
  }

  /** add_freq_ff with the division rounding down. */
  function AddFreqFf(g: Grid, w1: int, w2: int): (b: int)
    ensures Bosonic(g, b) == Fermionic(g, w1) + Fermionic(g, w2)
  {
    var n := (Fermionic(g, w1) + Fermionic(g, w2)) + g.nb;
    HalfOfBosonicNumerator(g, Fermionic(g, w1) + Fermionic(g, w2));
    n / 2
  }

  /** For an even integer x, the floor of (x + Nb)/2 is the bosonic index of x. */
  lemma HalfOfBosonicNumerator(g: Grid, x: int)
    requires x % 2 == 0
    ensures Bosonic(g, (x + g.nb) / 2) == x
  {
    var n := x + g.nb;
    if g.nb % 2 == 0 {
      assert n == 2 * (x / 2 + g.nb / 2);
    } else {
      assert g.nb == 2 * (g.nb / 2) + 1;
      assert n == 2 * (x / 2 + g.nb / 2) + 1;
    }
  }

  /** The fermionic grid sizes the code is used with: an even number of frequencies, as many
      positive as negative. */
  predicate EvenFermionicGrid(g: Grid)
  {
    g.nw % 2 == 0
  }

  /** A fermionic index is determined by its Matsubara integer. */
  lemma FermionicInjective(g: Grid, f1: int, f2: int)
    requires Fermionic(g, f1) == Fermionic(g, f2)
    ensures f1 == f2
  {
  }

  /** On an even fermionic grid, add_freq_bf adds the Matsubara integers exactly. */
  lemma AddFreqBfExact(g: Grid, b: int, f: int)
    requires EvenFermionicGrid(g)
    ensures Fermionic(g, AddFreqBf(g, b, f)) == Bosonic(g, b) + Fermionic(g, f)
  {
    var n := (Bosonic(g, b) + Fermionic(g, f)) - 1 + g.nw;
    assert n == 2 * ((b - g.nb / 2) + (f - g.nw / 2) + g.nw / 2);
  }

  /** On an even fermionic grid, subtract_freq_bf subtracts the Matsubara integers exactly. */
  lemma SubtractFreqBfExact(g: Grid, b: int, f: int)
    requires EvenFermionicGrid(g)
    ensures Fermionic(g, SubtractFreqBf(g, b, f)) == Fermionic(g, f) - Bosonic(g, b)
  {
    var n := (Fermionic(g, f) - Bosonic(g, b)) - 1 + g.nw;
    assert n == 2 * ((f - g.nw / 2) - (b - g.nb / 2) + g.nw / 2);
  }

  /** On an even fermionic grid, subtract_freq_fb subtracts the Matsubara integers exactly. */
  lemma SubtractFreqFbExact(g: Grid, f: int, b: int)
    requires EvenFermionicGrid(g)
    ensures Fermionic(g, SubtractFreqFb(g, f, b)) == Bosonic(g, b) - Fermionic(g, f)
  {
    var n := (Bosonic(g, b) - Fermionic(g, f)) - 1 + g.nw;
    assert n == 2 * ((b - g.nb / 2) - (f - g.nw / 2) - 1 + g.nw / 2);
  }

  /** Adding a bosonic frequency and subtracting it again gives the fermionic index back, and
      the other way round. */
  lemma AddSubtractBfRoundTrip(g: Grid, b: int, f: int)
    requires EvenFermionicGrid(g)
    ensures SubtractFreqBf(g, b, AddFreqBf(g, b, f)) == f
    ensures AddFreqBf(g, b, SubtractFreqBf(g, b, f)) == f
  {
    AddFreqBfExact(g, b, f);
    SubtractFreqBfExact(g, b, AddFreqBf(g, b, f));
    FermionicInjective(g, SubtractFreqBf(g, b, AddFreqBf(g, b, f)), f);
    SubtractFreqBfExact(g, b, f);
    AddFreqBfExact(g, b, SubtractFreqBf(g, b, f));
    FermionicInjective(g, AddFreqBf(g, b, SubtractFreqBf(g, b, f)), f);
  }

  /** nu - (nu - w) = w: subtract_freq_fb is its own inverse for a fixed bosonic index. */
  lemma SubtractFreqFbInvolution(g: Grid, f: int, b: int)
    requires EvenFermionicGrid(g)
    ensures SubtractFreqFb(g, SubtractFreqFb(g, f, b), b) == f
  {
    SubtractFreqFbExact(g, f, b);
    SubtractFreqFbExact(g, SubtractFreqFb(g, f, b), b);
    FermionicInjective(g, SubtractFreqFb(g, SubtractFreqFb(g, f, b), b), f);
  }

  /** Where the numerator is not negative, the truncating helpers agree with the corrected
      ones, so their bosonic integer is exact there. */
  lemma FfAsWrittenAgreeWhenNonNegative(g: Grid, w1: int, w2: int)
    ensures (Fermionic(g, w2) - Fermionic(g, w1)) + g.nb >= 0 ==>
      SubtractFreqFfAsWritten(g, w1, w2) == SubtractFreqFf(g, w1, w2)
    ensures (Fermionic(g, w1) + Fermionic(g, w2)) + g.nb >= 0 ==>
      AddFreqFfAsWritten(g, w1, w2) == AddFreqFf(g, w1, w2)
  {
  }

  /** On a grid with an odd number of bosonic frequencies the truncating subtract_freq_ff maps
      the difference just below the grid, whose index is -1, to index 0: with Nw = 4 and
      Nb = 3, w2 - w1 for w1 = 3, w2 = 1 is -4, whose bosonic index is -1, and the code
      returns 0, an in-range index of the frequency -2, which the `< 0` guards let through. */
  lemma SubtractFreqFfTruncationCounterexample()
    ensures var g := Grid(4, 3);
      Fermionic(g, 1) - Fermionic(g, 3) == -4 &&
      SubtractFreqFfAsWritten(g, 3, 1) == 0 && Bosonic(g, 0) == -2 &&
      SubtractFreqFf(g, 3, 1) == -1 &&
      Guard4D(g, 3, 1) == Some(0)
  {
    var g := Grid(4, 3);
    assert g.nw / 2 == 2 && g.nb / 2 == 1;
    assert Fermionic(g, 1) == -1 && Fermionic(g, 3) == 3;
    var n := (Fermionic(g, 1) - Fermionic(g, 3)) + g.nb;
    assert n == -1;
    assert CDiv2(n) == 0;
    assert SubtractFreqFf(g, 3, 1) == n / 2 == -1;
  }

  /** The same for add_freq_ff: with Nw = 4 and Nb = 3, w1 + w2 for w1 = 1, w2 = 0 is -4, and
      the code returns index 0 instead of -1. */
  lemma AddFreqFfTruncationCounterexample()
    ensures var g := Grid(4, 3);
      Fermionic(g, 1) + Fermionic(g, 0) == -4 &&
      AddFreqFfAsWritten(g, 1, 0) == 0 && Bosonic(g, 0) == -2 &&
      AddFreqFf(g, 1, 0) == -1 &&
      Guard4F(g, 0, 1) == Some(0)
  {
    var g := Grid(4, 3);
    assert g.nw / 2 == 2 && g.nb / 2 == 1;
    assert Fermionic(g, 1) == -1 && Fermionic(g, 0) == -3;
    assert CDiv2(-1) == 0;
    assert AddFreqFfAsWritten(g, 1, 0) == CDiv2(-1);
    assert AddFreqFf(g, 1, 0) == (-1) / 2;
  }

  predicate InFermionic(g: Grid, f: int)
  {
    0 <= f < g.nw
  }

  predicate InBosonic(g: Grid, b: int)
  {
    0 <= b < g.nb
  }

  /** The loop of execute_4A over w runs from |nu_c| to Nw - |nu_c|, nu_c = nu - Nb/2: exactly
      the frequencies w for which both w - nu_c and w + nu_c are inside the fermionic grid. So
      the read at w - nu_c is in range, and it is the frequency w minus the bosonic nu. */
  lemma Diagram4ALoopRange(g: Grid, nu: int, w: int)
    requires InBosonic(g, nu) && EvenFermionicGrid(g)
    ensures var nuC := nu - g.nb / 2;
      var absNuC := if nuC < 0 then -nuC else nuC;
      (absNuC <= w < g.nw - absNuC <==> InFermionic(g, w - nuC) && InFermionic(g, w + nuC))
    ensures var nuC := nu - g.nb / 2;
      Fermionic(g, w - nuC) == Fermionic(g, w) - Bosonic(g, nu)
  {
  }

  /** The Matsubara integer x lies between the lowest and the highest frequency of the
      fermionic grid. */
  predicate FermionicOnGrid(g: Grid, x: int)
  {
    Fermionic(g, 0) <= x <= Fermionic(g, g.nw - 1)
  }

  /** The Matsubara integer x lies between the lowest and the highest frequency of the bosonic
      grid. */
  predicate BosonicOnGrid(g: Grid, x: int)
  {
    Bosonic(g, 0) <= x <= Bosonic(g, g.nb - 1)
  }

  /** A fermionic index is in range exactly when its frequency is on the grid. */
  lemma FermionicIndexOnGrid(g: Grid, f: int)
    ensures InFermionic(g, f) <==> FermionicOnGrid(g, Fermionic(g, f))
  {
  }

  /** The even integer whose numerator x + Nb is -1, so that the truncating division by 2
      gives index 0; it lies just below the bosonic grid, and only an odd Nb has one. */
  predicate JustBelowBosonicGrid(g: Grid, x: int)
  {
    x + g.nb == -1
  }

  /** What subtract_freq_ff and add_freq_ff as written make of the even Matsubara integer x:
      an index in range exactly when x is on the bosonic grid or just below it; x's own index
      when x is on the grid, and index 0 when x is just below it. */
  lemma TruncatedBosonicIndex(g: Grid, x: int)
    requires x % 2 == 0
    ensures InBosonic(g, CDiv2(x + g.nb)) <==> BosonicOnGrid(g, x) || JustBelowBosonicGrid(g, x)
    ensures BosonicOnGrid(g, x) ==> Bosonic(g, CDiv2(x + g.nb)) == x
    ensures JustBelowBosonicGrid(g, x) ==> CDiv2(x + g.nb) == 0 && !BosonicOnGrid(g, x)
  {
    var n := x + g.nb;
    if n >= 0 {
      HalfOfBosonicNumerator(g, x);
      assert CDiv2(n) == n / 2;
    } else if n < -1 {
      assert CDiv2(n) < 0;
    }
  }

  /** The difference and the sum of two fermionic Matsubara integers are even. */
  lemma FermionicPairEven(g: Grid, f1: int, f2: int)
    ensures (Fermionic(g, f2) - Fermionic(g, f1)) % 2 == 0
    ensures (Fermionic(g, f1) + Fermionic(g, f2)) % 2 == 0
  {
    assert Fermionic(g, f2) - Fermionic(g, f1) == 2 * (f2 - f1);
    assert Fermionic(g, f1) + Fermionic(g, f2) == 2 * (f1 + f2 - 2 * (g.nw / 2) + 1);
  }

  /** execute_4C: the term (nu, w) reads G at nu - w, skipped when that is off the grid. */
  function Guard4C(g: Grid, nu: int, w: int): (r: Option<int>)
    ensures r.Some? ==> InFermionic(g, r.value)
    ensures EvenFermionicGrid(g) ==>
      (r.Some? <==> FermionicOnGrid(g, Bosonic(g, nu) - Fermionic(g, w))) &&
      (r.Some? ==> Fermionic(g, r.value) == Bosonic(g, nu) - Fermionic(g, w))
  {
    var nuMinusW := SubtractFreqFb(g, w, nu);
    var kept := if nuMinusW < 0 || nuMinusW >= g.nw then None else Some(nuMinusW);
    FermionicIndexOnGrid(g, nuMinusW);
    if EvenFermionicGrid(g) then SubtractFreqFbExact(g, w, nu); kept else kept
  }

  /** execute_4D: the term (nu, w) reads chi at w - nu (bosonic), computed by the truncating
      subtract_freq_ff: it is read when w - nu is on the bosonic grid, and also when w - nu is
      just below the grid, where chi is read at index 0. */
  function Guard4D(g: Grid, nu: int, w: int): (r: Option<int>)
    ensures r.Some? ==> InBosonic(g, r.value)
    ensures var x := Fermionic(g, w) - Fermionic(g, nu);
      (r.Some? <==> BosonicOnGrid(g, x) || JustBelowBosonicGrid(g, x)) &&
      (BosonicOnGrid(g, x) ==> r.Some? && Bosonic(g, r.value) == x) &&
      (JustBelowBosonicGrid(g, x) ==> r == Some(0))
  {
    var wMinusNu := SubtractFreqFfAsWritten(g, nu, w);
    FermionicPairEven(g, nu, w);
    TruncatedBosonicIndex(g, Fermionic(g, w) - Fermionic(g, nu));
    if wMinusNu < 0 || wMinusNu >= g.nb then None else Some(wMinusNu)
  }

  /** execute_4E: the term (nu, w) reads chi at nu - w (bosonic), computed by the truncating
      subtract_freq_ff, with the same extra read at index 0 just below the grid. */
  function Guard4E(g: Grid, nu: int, w: int): (r: Option<int>)
    ensures r.Some? ==> InBosonic(g, r.value)
    ensures var x := Fermionic(g, nu) - Fermionic(g, w);
      (r.Some? <==> BosonicOnGrid(g, x) || JustBelowBosonicGrid(g, x)) &&
      (BosonicOnGrid(g, x) ==> r.Some? && Bosonic(g, r.value) == x) &&
      (JustBelowBosonicGrid(g, x) ==> r == Some(0))
  {
    var nuMinusW := SubtractFreqFfAsWritten(g, w, nu);
    FermionicPairEven(g, w, nu);
    TruncatedBosonicIndex(g, Fermionic(g, nu) - Fermionic(g, w));
    if nuMinusW < 0 || nuMinusW >= g.nb then None else Some(nuMinusW)
  }

  /** execute_4F: the term (nu, w) reads phi at w + nu (bosonic), computed by the truncating
      add_freq_ff, with the same extra read at index 0 just below the grid. */
  function Guard4F(g: Grid, nu: int, w: int): (r: Option<int>)
    ensures r.Some? ==> InBosonic(g, r.value)
    ensures var x := Fermionic(g, w) + Fermionic(g, nu);
      (r.Some? <==> BosonicOnGrid(g, x) || JustBelowBosonicGrid(g, x)) &&
      (BosonicOnGrid(g, x) ==> r.Some? && Bosonic(g, r.value) == x) &&
      (JustBelowBosonicGrid(g, x) ==> r == Some(0))
  {
    var wPlusNu := AddFreqFfAsWritten(g, w, nu);
    FermionicPairEven(g, w, nu);
    TruncatedBosonicIndex(g, Fermionic(g, w) + Fermionic(g, nu));
    if wPlusNu < 0 || wPlusNu >= g.nb then None else Some(wPlusNu)
  }

  /** The three fermionic indices a term of execute_4G or execute_4H reads G at. */
  datatype Reads3 = Reads3(first: int, second: int, third: int)

  /** execute_4G: the term (nu1, nu2, w) reads G at w - nu1, w - nu2 and w - nu1 - nu2, and is
      skipped unless all three are on the grid. */
  function Guard4G(g: Grid, nu1: int, nu2: int, w: int): (r: Option<Reads3>)
    ensures r.Some? ==> InFermionic(g, r.value.first) && InFermionic(g, r.value.second) && InFermionic(g, r.value.third)
    ensures EvenFermionicGrid(g) ==>
      (r.Some? <==>
        FermionicOnGrid(g, Fermionic(g, w) - Bosonic(g, nu1)) &&
        FermionicOnGrid(g, Fermionic(g, w) - Bosonic(g, nu2)) &&
        FermionicOnGrid(g, Fermionic(g, w) - Bosonic(g, nu1) - Bosonic(g, nu2))) &&
      (r.Some? ==>
        Fermionic(g, r.value.first) == Fermionic(g, w) - Bosonic(g, nu1) &&
        Fermionic(g, r.value.second) == Fermionic(g, w) - Bosonic(g, nu2) &&
        Fermionic(g, r.value.third) == Fermionic(g, w) - Bosonic(g, nu1) - Bosonic(g, nu2))
  {
    var wMinusNu1 := SubtractFreqBf(g, nu1, w);
    var wMinusNu2 := SubtractFreqBf(g, nu2, w);
    var wMinusNu1MinusNu2 := SubtractFreqBf(g, nu2, wMinusNu1);
    var kept :=
      if wMinusNu1 < 0 || wMinusNu1 >= g.nw || wMinusNu2 < 0 || wMinusNu2 >= g.nw
         || wMinusNu1MinusNu2 < 0 || wMinusNu1MinusNu2 >= g.nw then None
      else Some(Reads3(wMinusNu1, wMinusNu2, wMinusNu1MinusNu2));
    FermionicIndexOnGrid(g, wMinusNu1);
    FermionicIndexOnGrid(g, wMinusNu2);
    FermionicIndexOnGrid(g, wMinusNu1MinusNu2);
    if EvenFermionicGrid(g) then
      SubtractFreqBfExact(g, nu1, w);
      SubtractFreqBfExact(g, nu2, w);
      SubtractFreqBfExact(g, nu2, wMinusNu1);
      kept
    else kept
  }

  /** execute_4H: the term (nu1, nu2, w) reads G at w - nu1, nu2 - w and nu1 + nu2 - w, and is
      skipped unless all three are on the grid. */
  function Guard4H(g: Grid, nu1: int, nu2: int, w: int): (r: Option<Reads3>)
    ensures r.Some? ==> InFermionic(g, r.value.first) && InFermionic(g, r.value.second) && InFermionic(g, r.value.third)
    ensures EvenFermionicGrid(g) ==>
      (r.Some? <==>
        FermionicOnGrid(g, Fermionic(g, w) - Bosonic(g, nu1)) &&
        FermionicOnGrid(g, Bosonic(g, nu2) - Fermionic(g, w)) &&
        FermionicOnGrid(g, Bosonic(g, nu1) + Bosonic(g, nu2) - Fermionic(g, w))) &&
      (r.Some? ==>
        Fermionic(g, r.value.first) == Fermionic(g, w) - Bosonic(g, nu1) &&
        Fermionic(g, r.value.second) == Bosonic(g, nu2) - Fermionic(g, w) &&
        Fermionic(g, r.value.third) == Bosonic(g, nu1) + Bosonic(g, nu2) - Fermionic(g, w))
  {
    var wMinusNu1 := SubtractFreqBf(g, nu1, w);
    var nu2MinusW := SubtractFreqFb(g, w, nu2);
    var nu1PlusNu2MinusW := AddFreqBf(g, nu1, nu2MinusW);
    var kept :=
      if wMinusNu1 < 0 || wMinusNu1 >= g.nw || nu2MinusW < 0 || nu2MinusW >= g.nw
         || nu1PlusNu2MinusW < 0 || nu1PlusNu2MinusW >= g.nw then None
      else Some(Reads3(wMinusNu1, nu2MinusW, nu1PlusNu2MinusW));
    FermionicIndexOnGrid(g, wMinusNu1);
    FermionicIndexOnGrid(g, nu2MinusW);
    FermionicIndexOnGrid(g, nu1PlusNu2MinusW);
    if EvenFermionicGrid(g) then
      SubtractFreqBfExact(g, nu1, w);
      SubtractFreqFbExact(g, w, nu2);
      AddFreqBfExact(g, nu1, nu2MinusW);
      kept
    else kept
  }

  /** The indices a term of the k-independent part F of execute_4J, 4K or 4L reads: two
      fermionic indices for G and one bosonic index for chi or phi. */
  datatype InnerReads = InnerReads(g1: int, g2: int, vertex: int)

  /** execute_4J, F(q, nu): the term (w1, w2) reads G at nu - w1 and nu - w2 and chi at
      nu - w1 - w2, the last computed by the truncating subtract_freq_ff: on an even fermionic
      grid the term is read when both G frequencies are on the grid and nu - w1 - w2 is on the
      bosonic grid or just below it, where chi is read at index 0. */
  function Guard4J(g: Grid, nu: int, w1: int, w2: int): (r: Option<InnerReads>)
    ensures r.Some? ==> InFermionic(g, r.value.g1) && InFermionic(g, r.value.g2) && InBosonic(g, r.value.vertex)
    ensures EvenFermionicGrid(g) ==>
      var x := Bosonic(g, nu) - Fermionic(g, w1) - Fermionic(g, w2);
      (r.Some? <==>
        FermionicOnGrid(g, Bosonic(g, nu) - Fermionic(g, w1)) &&
        FermionicOnGrid(g, Bosonic(g, nu) - Fermionic(g, w2)) &&
        (BosonicOnGrid(g, x) || JustBelowBosonicGrid(g, x))) &&
      (r.Some? ==>
        Fermionic(g, r.value.g1) == Bosonic(g, nu) - Fermionic(g, w1) &&
        Fermionic(g, r.value.g2) == Bosonic(g, nu) - Fermionic(g, w2) &&
        (BosonicOnGrid(g, x) ==> Bosonic(g, r.value.vertex) == x) &&
        (JustBelowBosonicGrid(g, x) ==> r.value.vertex == 0))
  {
    var nuMinusW1 := SubtractFreqFb(g, w1, nu);
    var nuMinusW2 := SubtractFreqFb(g, w2, nu);
    var nuMinusW1MinusW2 := SubtractFreqFfAsWritten(g, w2, nuMinusW1);
    var kept :=
      if nuMinusW1 < 0 || nuMinusW1 >= g.nw then None
      else if nuMinusW2 < 0 || nuMinusW2 >= g.nw then None
      else if nuMinusW1MinusW2 < 0 || nuMinusW1MinusW2 >= g.nb then None
      else Some(InnerReads(nuMinusW1, nuMinusW2, nuMinusW1MinusW2));
    FermionicIndexOnGrid(g, nuMinusW1);
    FermionicIndexOnGrid(g, nuMinusW2);
    FermionicPairEven(g, w2, nuMinusW1);
    TruncatedBosonicIndex(g, Fermionic(g, nuMinusW1) - Fermionic(g, w2));
    if EvenFermionicGrid(g) then
      SubtractFreqFbExact(g, w1, nu);
      SubtractFreqFbExact(g, w2, nu);
      kept
    else kept
  }

  /** execute_4K, F(q, nu): the term (w1, w2) reads G at nu + w1 and nu + w2 and phi at
      nu + w1 + w2, the last computed by the truncating add_freq_ff, with the same extra read
      at index 0 just below the bosonic grid. */
  function Guard4K(g: Grid, nu: int, w1: int, w2: int): (r: Option<InnerReads>)
    ensures r.Some? ==> InFermionic(g, r.value.g1) && InFermionic(g, r.value.g2) && InBosonic(g, r.value.vertex)
    ensures EvenFermionicGrid(g) ==>
      var x := Bosonic(g, nu) + Fermionic(g, w1) + Fermionic(g, w2);
      (r.Some? <==>
        FermionicOnGrid(g, Bosonic(g, nu) + Fermionic(g, w1)) &&
        FermionicOnGrid(g, Bosonic(g, nu) + Fermionic(g, w2)) &&
        (BosonicOnGrid(g, x) || JustBelowBosonicGrid(g, x))) &&
      (r.Some? ==>
        Fermionic(g, r.value.g1) == Bosonic(g, nu) + Fermionic(g, w1) &&
        Fermionic(g, r.value.g2) == Bosonic(g, nu) + Fermionic(g, w2) &&
        (BosonicOnGrid(g, x) ==> Bosonic(g, r.value.vertex) == x) &&
        (JustBelowBosonicGrid(g, x) ==> r.value.vertex == 0))
  {
    var nuPlusW1 := AddFreqBf(g, nu, w1);
    var nuPlusW2 := AddFreqBf(g, nu, w2);
    var nuPlusW1PlusW2 := AddFreqFfAsWritten(g, nuPlusW1, w2);
    var kept :=
      if nuPlusW1 < 0 || nuPlusW1 >= g.nw then None
      else if nuPlusW2 < 0 || nuPlusW2 >= g.nw then None
      else if nuPlusW1PlusW2 < 0 || nuPlusW1PlusW2 >= g.nb then None
      else Some(InnerReads(nuPlusW1, nuPlusW2, nuPlusW1PlusW2));
    FermionicIndexOnGrid(g, nuPlusW1);
    FermionicIndexOnGrid(g, nuPlusW2);
    FermionicPairEven(g, nuPlusW1, w2);
    TruncatedBosonicIndex(g, Fermionic(g, nuPlusW1) + Fermionic(g, w2));
    if EvenFermionicGrid(g) then
      AddFreqBfExact(g, nu, w1);
      AddFreqBfExact(g, nu, w2);
      kept
    else kept
  }

  /** execute_4L, F(q, nu): the term (w1, w2) reads G at nu + w1 and nu + w2 and chi at
      w1 - w2, the last computed by the truncating subtract_freq_ff, with the same extra read
      at index 0 just below the bosonic grid. */
  function Guard4L(g: Grid, nu: int, w1: int, w2: int): (r: Option<InnerReads>)
    ensures r.Some? ==> InFermionic(g, r.value.g1) && InFermionic(g, r.value.g2) && InBosonic(g, r.value.vertex)
    ensures EvenFermionicGrid(g) ==>
      var x := Fermionic(g, w1) - Fermionic(g, w2);
      (r.Some? <==>
        FermionicOnGrid(g, Bosonic(g, nu) + Fermionic(g, w1)) &&
        FermionicOnGrid(g, Bosonic(g, nu) + Fermionic(g, w2)) &&
        (BosonicOnGrid(g, x) || JustBelowBosonicGrid(g, x))) &&
      (r.Some? ==>
        Fermionic(g, r.value.g1) == Bosonic(g, nu) + Fermionic(g, w1) &&
        Fermionic(g, r.value.g2) == Bosonic(g, nu) + Fermionic(g, w2) &&
        (BosonicOnGrid(g, x) ==> Bosonic(g, r.value.vertex) == x) &&
        (JustBelowBosonicGrid(g, x) ==> r.value.vertex == 0))
  {
    var nuPlusW1 := AddFreqBf(g, nu, w1);
    var nuPlusW2 := AddFreqBf(g, nu, w2);
    var w1MinusW2 := SubtractFreqFfAsWritten(g, w2, w1);
    var kept :=
      if nuPlusW1 < 0 || nuPlusW1 >= g.nw then None
      else if nuPlusW2 < 0 || nuPlusW2 >= g.nw then None
      else if w1MinusW2 < 0 || w1MinusW2 >= g.nb then None
      else Some(InnerReads(nuPlusW1, nuPlusW2, w1MinusW2));
    FermionicIndexOnGrid(g, nuPlusW1);
    FermionicIndexOnGrid(g, nuPlusW2);
    FermionicPairEven(g, w2, w1);
    TruncatedBosonicIndex(g, Fermionic(g, w1) - Fermionic(g, w2));
    if EvenFermionicGrid(g) then
      AddFreqBfExact(g, nu, w1);
      AddFreqBfExact(g, nu, w2);
      kept
    else kept
  }

  /** The second stage of execute_4J: Sigma(k, w) reads G at nu - w, skipped when that is off
      the grid. */
  function Guard4JOuter(g: Grid, nu: int, w: int): (r: Option<int>)
    ensures r.Some? ==> InFermionic(g, r.value)
    ensures EvenFermionicGrid(g) ==>
      (r.Some? <==> FermionicOnGrid(g, Bosonic(g, nu) - Fermionic(g, w))) &&
      (r.Some? ==> Fermionic(g, r.value) == Bosonic(g, nu) - Fermionic(g, w))
  {
    Guard4C(g, nu, w)
  }

  /** The second stage of execute_4K and execute_4L: Sigma(k, w) reads G at w - nu, skipped
      when that is off the grid. */
  function Guard4KLOuter(g: Grid, nu: int, w: int): (r: Option<int>)
    ensures r.Some? ==> InFermionic(g, r.value)
    ensures EvenFermionicGrid(g) ==>
      (r.Some? <==> FermionicOnGrid(g, Fermionic(g, w) - Bosonic(g, nu))) &&
      (r.Some? ==> Fermionic(g, r.value) == Fermionic(g, w) - Bosonic(g, nu))
  {
    var wMinusNu := SubtractFreqBf(g, nu, w);
    var kept := if wMinusNu < 0 || wMinusNu >= g.nw then None else Some(wMinusNu);
    FermionicIndexOnGrid(g, wMinusNu);
    if EvenFermionicGrid(g) then SubtractFreqBfExact(g, nu, w); kept else kept
  }

  /** A key of a self-energy function: (b1, s1, b2, s2, k, w). */
  datatype Key = Key(b1: int, s1: int, b2: int, s2: int, k: int, w: int)

  /** A self-energy function; an absent key holds zero. */
  type SigmaFunction = map<Key, real>

  function Get(f: SigmaFunction, key: Key): real
  {
    if key in f then f[key] else 0.0
  }

  function SpinUp(k: int, w: int): Key
  {
    Key(0, 0, 0, 0, k, w)
  }

  function SpinDown(k: int, w: int): Key
  {
    Key(0, 1, 0, 1, k, w)
  }

  /** A spin-down entry inside the (k, w) domains. */
  predicate IsCopiedKey(key: Key, nk: int, nw: int)
  {
    key.b1 == 0 && key.s1 == 1 && key.b2 == 0 && key.s2 == 1 && 0 <= key.k < nk && 0 <= key.w < nw
  }

  /** The copy at the end of every execute_4X: the (0,1,0,1) block takes the values of the
      (0,0,0,0) block for every k and w; everything else keeps its value. */
  method CopySpinBlock(f: SigmaFunction, nk: nat, nw: nat) returns (g: SigmaFunction)
    ensures forall k, w :: 0 <= k < nk && 0 <= w < nw ==> Get(g, SpinDown(k, w)) == Get(f, SpinUp(k, w))
    ensures forall key :: !IsCopiedKey(key, nk, nw) ==> Get(g, key) == Get(f, key)
  {
    g := f;
    var w := 0;
    while w < nw
      invariant 0 <= w <= nw
      invariant forall k, w' :: 0 <= k < nk && 0 <= w' < w ==> Get(g, SpinDown(k, w')) == Get(f, SpinUp(k, w'))
      invariant forall key :: !IsCopiedKey(key, nk, w) ==> Get(g, key) == Get(f, key)
    {
      var k := 0;
      while k < nk
        invariant 0 <= k <= nk
        invariant forall k', w' :: 0 <= k' < nk && 0 <= w' < w ==> Get(g, SpinDown(k', w')) == Get(f, SpinUp(k', w'))
        invariant forall k' :: 0 <= k' < k ==> Get(g, SpinDown(k', w)) == Get(f, SpinUp(k', w))
        invariant forall key :: !IsCopiedKey(key, nk, w) && !(IsCopiedKey(key, k, w + 1) && key.w == w) ==> Get(g, key) == Get(f, key)
      {
        g := g[SpinDown(k, w) := Get(g, SpinUp(k, w))];
        k := k + 1;
      }
      w := w + 1;
    }
  }

  /** `Sigma *= factor`. */
  function Scaled(f: SigmaFunction, factor: real): (g: SigmaFunction)
    ensures forall key :: Get(g, key) == Get(f, key) * factor
  {
    map key | key in f :: f[key] * factor
  }

  /** The end of every execute_4X: copy the spin block, then scale. The two spin blocks stay
      equal, and every entry is the scaled entry of the copied function. */
  method FinishDiagram(f: SigmaFunction, nk: nat, nw: nat, factor: real) returns (g: SigmaFunction)
    ensures forall k, w :: 0 <= k < nk && 0 <= w < nw ==>
      Get(g, SpinDown(k, w)) == Get(g, SpinUp(k, w)) == Get(f, SpinUp(k, w)) * factor
    ensures forall key :: !IsCopiedKey(key, nk, nw) ==> Get(g, key) == Get(f, key) * factor
  {
    var copied := CopySpinBlock(f, nk, nw);
    g := Scaled(copied, factor);
    forall k, w | 0 <= k < nk && 0 <= w < nw
      ensures Get(g, SpinUp(k, w)) == Get(f, SpinUp(k, w)) * factor
    {
      assert !IsCopiedKey(SpinUp(k, w), nk, nw);
    }
  }

  /** `Sigma += other`. */
  function Plus(f: SigmaFunction, g: SigmaFunction): (h: SigmaFunction)
    ensures forall key :: Get(h, key) == Get(f, key) + Get(g, key)
  {
    map key | key in f.Keys + g.Keys :: Get(f, key) + Get(g, key)
  }

  /** The ten computed diagrams. */
  datatype Diagrams = Diagrams(
    a: SigmaFunction, c: SigmaFunction, d: SigmaFunction, e: SigmaFunction, f: SigmaFunction,
    g: SigmaFunction, h: SigmaFunction, j: SigmaFunction, k: SigmaFunction, l: SigmaFunction)

  /** execute_on_cluster after the diagrams: Sigma starts at zero and receives every diagram,
      4A and 4H twice since 4B equals 4A and 4I equals 4H. */
  method ExecuteOnCluster(parts: Diagrams) returns (sigma: SigmaFunction)
    ensures forall key ::
      Get(sigma, key) == 2.0 * Get(parts.a, key) + Get(parts.c, key) + Get(parts.d, key) + Get(parts.e, key) +
      Get(parts.f, key) + Get(parts.g, key) + 2.0 * Get(parts.h, key) + Get(parts.j, key) +
      Get(parts.k, key) + Get(parts.l, key)
  {
    sigma := map[];
    sigma := Plus(sigma, parts.a);
    sigma := Plus(sigma, parts.a);
    sigma := Plus(sigma, parts.c);
    sigma := Plus(sigma, parts.d);
    sigma := Plus(sigma, parts.e);
    sigma := Plus(sigma, parts.f);
    sigma := Plus(sigma, parts.g);
    sigma := Plus(sigma, parts.h);
    sigma := Plus(sigma, parts.h);
    sigma := Plus(sigma, parts.j);
    sigma := Plus(sigma, parts.k);
    sigma := Plus(sigma, parts.l);
  }
}
