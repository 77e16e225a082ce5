/** The CPU single-particle accumulator: binning of the vertex pairs of every measured
    configuration into per-spin NFFT binners, and the transform of the binners into M(r, w).

    A binner (Dnfft1D, which is not part of this model) is the sequence of samples accumulated
    into it; adding one binner into another appends its samples. The band-band-distance index,
    the cluster subtraction and the NFFT transform are functions carried by `Parameters`. */
module SpAccumulation {
  import opened Errors
  import opened Arith

  /** One accumulated sample: the band-band-distance index, the scaled time and the value. */
  datatype Sample = Sample(index: int, scaledTau: real, value: real)

  type Binner = seq<Sample>

  /** A vertex of a spin configuration. */
  datatype Vertex = Vertex(leftBand: int, rightBand: int, leftSite: int, rightSite: int, tau: real)

  /** What the accumulator reads from the parameters and the domains. */
  datatype Parameters = Parameters(
    beta: real,
    bands: nat,
    sites: nat,
    frequencies: nat,
    /** bbr_dmn(b_i, b_j, delta_r). */
    bbr: (int, int, int) -> int,
    /** RDmn::parameter_type::subtract(r_j, r_i). */
    subtract: (int, int) -> int,
    /** The value the NFFT finalize gives a binner at (w, b1, b2, r). */
    transform: (Binner, int, int, int, int) -> real)

  predicate ValidParameters(p: Parameters)
  {
    p.beta > 0.0 && p.sites > 0
  }

  /** An n x n matrix stored row by row. */
  predicate IsMatrix(m: seq<seq<real>>, n: nat)
  {
    |m| == n && forall i :: 0 <= i < n ==> |m[i]| == n
  }

  /** The arguments of one accumulate call: the two M matrices, the two configurations and the
      sign. */
  datatype Measurement = Measurement(ms: seq<seq<seq<real>>>, configs: seq<seq<Vertex>>, sign: int)

  predicate WellFormed(meas: Measurement)
  {
    |meas.ms| == 2 && |meas.configs| == 2 &&
    forall s :: 0 <= s < 2 ==> IsMatrix(meas.ms[s], |meas.configs[s]|)
  }

  /** The sample of the ordered vertex pair (i, j) of spin s: the index of (right band of i,
      left band of j, left site of j minus right site of i), the time (tau_i - tau_j) / (2 beta)
      and sign * M[s](i, j), or sign * M[s](i, j)^2 for the squared binner. */
  function PairSample(p: Parameters, meas: Measurement, s: nat, squared: bool, i: nat, j: nat): Sample
    requires ValidParameters(p) && WellFormed(meas) && s < 2
    requires i < |meas.configs[s]| && j < |meas.configs[s]|
  {
    var c := meas.configs[s];
    var f := meas.ms[s][i][j];
    Sample(p.bbr(c[i].rightBand, c[j].leftBand, p.subtract(c[j].leftSite, c[i].rightSite)),
           (c[i].tau - c[j].tau) * (1.0 / (2.0 * p.beta)),
           if squared then meas.sign as real * f * f else meas.sign as real * f)
  }

  /** The samples of column j: the pairs (i, j) for i = 0..n-1. */
  function Column(p: Parameters, meas: Measurement, s: nat, squared: bool, j: nat): (col: seq<Sample>)
    requires ValidParameters(p) && WellFormed(meas) && s < 2 && j < |meas.configs[s]|
    ensures |col| == |meas.configs[s]|
  {
    var n := |meas.configs[s]|;
    seq(n, i requires 0 <= i < n => PairSample(p, meas, s, squared, i, j))
  }

  /** The samples of the first `cols` columns, column after column. */
  function PairsUpTo(p: Parameters, meas: Measurement, s: nat, squared: bool, cols: nat): seq<Sample>
    requires ValidParameters(p) && WellFormed(meas) && s < 2 && cols <= |meas.configs[s]|
    decreases cols
  {
    if cols == 0 then [] else PairsUpTo(p, meas, s, squared, cols - 1) + Column(p, meas, s, squared, cols - 1)
  }

  /** Everything one accumulate call adds to the binner of spin s. */
  function PairSamples(p: Parameters, meas: Measurement, s: nat, squared: bool): seq<Sample>
    requires ValidParameters(p) && WellFormed(meas) && s < 2
  {
    PairsUpTo(p, meas, s, squared, |meas.configs[s]|)
  }

  lemma {:induction false} PairsUpToLength(p: Parameters, meas: Measurement, s: nat, squared: bool, cols: nat)
    requires ValidParameters(p) && WellFormed(meas) && s < 2 && cols <= |meas.configs[s]|
    ensures |PairsUpTo(p, meas, s, squared, cols)| == cols * |meas.configs[s]|
    decreases cols
  {
    if cols > 0 {
      PairsUpToLength(p, meas, s, squared, cols - 1);
      assert cols * |meas.configs[s]| == (cols - 1) * |meas.configs[s]| + |meas.configs[s]|;
    }
  }

  /** After `cols` columns, the pair (i, j) of an earlier column sits at position j*n + i. */
  lemma {:induction false} PairsUpToAt(p: Parameters, meas: Measurement, s: nat, squared: bool, cols: nat, i: nat, j: nat)
    requires ValidParameters(p) && WellFormed(meas) && s < 2 && cols <= |meas.configs[s]|
    requires i < |meas.configs[s]| && j < cols
    ensures j * |meas.configs[s]| + i < |PairsUpTo(p, meas, s, squared, cols)|
    ensures PairsUpTo(p, meas, s, squared, cols)[j * |meas.configs[s]| + i] == PairSample(p, meas, s, squared, i, j)
    decreases cols
  {
    var n := |meas.configs[s]|;
    PairsUpToLength(p, meas, s, squared, cols - 1);
    var before := PairsUpTo(p, meas, s, squared, cols - 1);
    var col := Column(p, meas, s, squared, cols - 1);
    assert PairsUpTo(p, meas, s, squared, cols) == before + col;
    if j < cols - 1 {
      PairsUpToAt(p, meas, s, squared, cols - 1, i, j);
    } else {
      assert (before + col)[j * n + i] == col[i];
    }
  }

  /** One accumulate call adds exactly n^2 samples to the binner of a spin with n vertices, one
      for every ordered pair (i, j): the pair (i, j) sits at position j*n + i. */
  lemma PairSamplesLayout(p: Parameters, meas: Measurement, s: nat, squared: bool, i: nat, j: nat)
    requires ValidParameters(p) && WellFormed(meas) && s < 2
    requires i < |meas.configs[s]| && j < |meas.configs[s]|
    ensures |PairSamples(p, meas, s, squared)| == |meas.configs[s]| * |meas.configs[s]|
    ensures j * |meas.configs[s]| + i < |PairSamples(p, meas, s, squared)|
    ensures PairSamples(p, meas, s, squared)[j * |meas.configs[s]| + i] == PairSample(p, meas, s, squared, i, j)
  {
    PairsUpToLength(p, meas, s, squared, |meas.configs[s]|);
    PairsUpToAt(p, meas, s, squared, |meas.configs[s]|, i, j);
  }

  /** A pair of binners, one per spin. */
  predicate IsPair(b: seq<Binner>)
  {
    |b| == 2
  }

  /** The binner pair after one accumulate call: each spin's samples appended to its binner. */
  function AddMeasurement(p: Parameters, pair: seq<Binner>, meas: Measurement, squared: bool): (r: seq<Binner>)
    requires ValidParameters(p) && WellFormed(meas) && IsPair(pair)
    ensures IsPair(r)
  {
    [pair[0] + PairSamples(p, meas, 0, squared), pair[1] + PairSamples(p, meas, 1, squared)]
  }

  /** The binner pair after the first `spins` spins of one accumulate call. */
  function AddSpins(p: Parameters, pair: seq<Binner>, meas: Measurement, squared: bool, spins: nat): (r: seq<Binner>)
    requires ValidParameters(p) && WellFormed(meas) && IsPair(pair) && spins <= 2
    ensures IsPair(r)
  {
    [pair[0] + (if 0 < spins then PairSamples(p, meas, 0, squared) else []),
     pair[1] + (if 1 < spins then PairSamples(p, meas, 1, squared) else [])]
  }

  /** Accumulating measurements one after the other into an empty binner pair. */
  function Accumulated(p: Parameters, measurements: seq<Measurement>, squared: bool): (r: seq<Binner>)
    requires ValidParameters(p)
    requires forall k :: 0 <= k < |measurements| ==> WellFormed(measurements[k])
    ensures IsPair(r)
    decreases |measurements|
  {
    if |measurements| == 0 then [[], []]
    else AddMeasurement(p, Accumulated(p, measurements[..|measurements| - 1], squared), measurements[|measurements| - 1], squared)
  }

  lemma AllWellFormedConcat(xs: seq<Measurement>, ys: seq<Measurement>)
    requires forall k :: 0 <= k < |xs| ==> WellFormed(xs[k])
    requires forall k :: 0 <= k < |ys| ==> WellFormed(ys[k])
    ensures forall k :: 0 <= k < |xs + ys| ==> WellFormed((xs + ys)[k])
  {
    forall k | 0 <= k < |xs + ys| ensures WellFormed((xs + ys)[k]) {
      if k < |xs| { assert (xs + ys)[k] == xs[k]; } else { assert (xs + ys)[k] == ys[k - |xs|]; }
    }
  }

  /** Binners filled separately and merged hold, spin by spin, what one binner filled with all
      the measurements in that order holds: merging is the concatenation of the histories. */
  lemma {:induction false} AccumulatedConcat(p: Parameters, xs: seq<Measurement>, ys: seq<Measurement>, squared: bool)
    requires ValidParameters(p)
    requires forall k :: 0 <= k < |xs| ==> WellFormed(xs[k])
    requires forall k :: 0 <= k < |ys| ==> WellFormed(ys[k])
    ensures forall k :: 0 <= k < |xs + ys| ==> WellFormed((xs + ys)[k])
    ensures forall s :: 0 <= s < 2 ==>
      Accumulated(p, xs + ys, squared)[s] == Accumulated(p, xs, squared)[s] + Accumulated(p, ys, squared)[s]
    decreases |ys|
  {
    AllWellFormedConcat(xs, ys);
    if |ys| == 0 {
      assert xs + ys == xs;
    } else {
      var init := ys[..|ys| - 1];
      var last := ys[|ys| - 1];
      assert forall k :: 0 <= k < |init| ==> WellFormed(init[k]);
      AccumulatedConcat(p, xs, init, squared);
      assert (xs + ys)[..|xs + ys| - 1] == xs + init;
      assert (xs + ys)[|xs + ys| - 1] == last;
      var whole, front, back := Accumulated(p, xs + init, squared), Accumulated(p, xs, squared), Accumulated(p, init, squared);
      assert Accumulated(p, xs + ys, squared) == AddMeasurement(p, whole, last, squared);
      assert Accumulated(p, ys, squared) == AddMeasurement(p, back, last, squared);
      forall s | 0 <= s < 2
        ensures Accumulated(p, xs + ys, squared)[s] == front[s] + Accumulated(p, ys, squared)[s]
      {
        BinnerAppendAssociates(front[s], back[s], PairSamples(p, last, s, squared));
      }
    }
  }

  /** A key of M(r, w): (b1, s1, b2, s2, r, w). */
  datatype Key = Key(b1: int, s1: int, b2: int, s2: int, r: int, w: int)

  /** func::function over the orbital-spin, cluster and frequency domains; an absent key holds
      zero. */
  type MFunction = map<Key, real>

  function Get(f: MFunction, k: Key): real
  {
    if k in f then f[k] else 0.0
  }

  /** A spin-diagonal key inside the domains. */
  predicate IsDiagonalKey(p: Parameters, k: Key)
  {
    0 <= k.s1 < 2 && k.s2 == k.s1 &&
    0 <= k.b1 < p.bands && 0 <= k.b2 < p.bands && 0 <= k.r < p.sites && 0 <= k.w < p.frequencies
  }

  /** What finalizeFunction adds at key k: the transform of the spin's binner at
      (w, b1, b2, r) times 1/|R| on spin-diagonal keys, nothing elsewhere. */
  function Weight(p: Parameters, ft: seq<Binner>, k: Key): (v: real)
    requires IsPair(ft)
    ensures !IsDiagonalKey(p, k) ==> v == 0.0
  {
    if IsDiagonalKey(p, k) then p.transform(ft[k.s1], k.w, k.b1, k.b2, k.r) * (1.0 / p.sites as real) else 0.0
  }

  /** finalizeFunction: adds the normalized transform of both binners to the spin-diagonal
      entries of `f`; every other entry keeps its value. */
  method FinalizeFunction(p: Parameters, ft: seq<Binner>, f: MFunction) returns (g: MFunction)
    requires IsPair(ft)
    ensures forall k :: Get(g, k) == Get(f, k) + Weight(p, ft, k)
    ensures forall k: Key :: k.s1 != k.s2 ==> Get(g, k) == Get(f, k)
  {
    g := f;
    var s := 0;
    while s < 2
      invariant 0 <= s <= 2
      invariant forall k :: Get(g, k) == Get(f, k) + (if k.s1 < s then Weight(p, ft, k) else 0.0)
    {
      g := AddFrequencies(p, ft, g, s);
      s := s + 1;
    }
  }

  /** The loop over w of finalizeFunction for spin s. */
  method AddFrequencies(p: Parameters, ft: seq<Binner>, f: MFunction, s: int) returns (g: MFunction)
    requires IsPair(ft) && 0 <= s < 2
    ensures forall k :: Get(g, k) == Get(f, k) + (if k.s1 == s then Weight(p, ft, k) else 0.0)
  {
    g := f;
    var w := 0;
    while w < p.frequencies
      invariant 0 <= w <= p.frequencies
      invariant forall k :: Get(g, k) == Get(f, k) + (if k.s1 == s && k.w < w then Weight(p, ft, k) else 0.0)
    {
      g := AddSites(p, ft, g, s, w);
      w := w + 1;
    }
  }

  /** The loop over r for spin s and frequency w. */
  method AddSites(p: Parameters, ft: seq<Binner>, f: MFunction, s: int, w: int) returns (g: MFunction)
    requires IsPair(ft) && 0 <= s < 2 && 0 <= w < p.frequencies
    ensures forall k :: Get(g, k) == Get(f, k) + (if k.s1 == s && k.w == w then Weight(p, ft, k) else 0.0)
  {
    g := f;
    var r := 0;
    while r < p.sites
      invariant 0 <= r <= p.sites
      invariant forall k :: Get(g, k) == Get(f, k) + (if k.s1 == s && k.w == w && k.r < r then Weight(p, ft, k) else 0.0)
    {
      g := AddBandPairs(p, ft, g, s, w, r);
      r := r + 1;
    }
  }

  /** The loop over b2 for spin s, frequency w and site r. */
  method AddBandPairs(p: Parameters, ft: seq<Binner>, f: MFunction, s: int, w: int, r: int) returns (g: MFunction)
    requires IsPair(ft) && 0 <= s < 2 && 0 <= w < p.frequencies && 0 <= r < p.sites
    ensures forall k :: Get(g, k) == Get(f, k) + (if k.s1 == s && k.w == w && k.r == r then Weight(p, ft, k) else 0.0)
  {
    g := f;
    var b2 := 0;
    while b2 < p.bands
      invariant 0 <= b2 <= p.bands
      invariant forall k :: Get(g, k) == Get(f, k) + (if k.s1 == s && k.w == w && k.r == r && k.b2 < b2 then Weight(p, ft, k) else 0.0)
    {
      g := AddBands(p, ft, g, s, w, r, b2);
      b2 := b2 + 1;
    }
  }

  /** The innermost loop over b1: one entry (b1, s, b2, s, r, w) per band b1. */
  method AddBands(p: Parameters, ft: seq<Binner>, f: MFunction, s: int, w: int, r: int, b2: int) returns (g: MFunction)
    requires IsPair(ft) && 0 <= s < 2 && 0 <= w < p.frequencies && 0 <= r < p.sites && 0 <= b2 < p.bands
    ensures forall k :: Get(g, k) == Get(f, k) + (if k.s1 == s && k.w == w && k.r == r && k.b2 == b2 then Weight(p, ft, k) else 0.0)
  {
    g := f;
    var normalization := 1.0 / p.sites as real;
    var b1 := 0;
    while b1 < p.bands
      invariant 0 <= b1 <= p.bands
      invariant forall k :: Get(g, k) == Get(f, k) + (if k.s1 == s && k.w == w && k.r == r && k.b2 == b2 && k.b1 < b1 then Weight(p, ft, k) else 0.0)
    {
      var key := Key(b1, s, b2, s, r, w);
      assert IsDiagonalKey(p, key);
      g := g[key := Get(g, key) + p.transform(ft[s], w, b1, b2, r) * normalization];
      b1 := b1 + 1;
    }
  }

  /** The two flags of the accumulator and the calls that change them. */
  datatype Flags = Flags(initialized: bool, finalized: bool)

  datatype Call = ResetCall | AccumulateCall | FinalizeCall | SumToCall | GetterCall

  /** The flags after one call: resetAccumulation starts a cycle, finalize ends it, every
      other call leaves both flags alone (accumulate also when it throws). */
  function AfterCall(f: Flags, c: Call): Flags
  {
    match c
    case ResetCall => Flags(true, false)
    case FinalizeCall => Flags(false, true)
    case _ => f
  }

  function AfterCalls(f: Flags, calls: seq<Call>): Flags
    decreases |calls|
  {
    if |calls| == 0 then f else AfterCall(AfterCalls(f, calls[..|calls| - 1]), calls[|calls| - 1])
  }

  /** accumulate is accepted after a resetAccumulation with no finalize since. */
  lemma {:induction false} AccumulateAllowedAfterReset(f: Flags, calls: seq<Call>, i: nat)
    requires i < |calls| && calls[i] == ResetCall
    requires forall j :: i < j < |calls| ==> calls[j] != FinalizeCall
    ensures AfterCalls(f, calls).initialized && !AfterCalls(f, calls).finalized
    decreases |calls|
  {
    var n := |calls|;
    if i < n - 1 {
      AccumulateAllowedAfterReset(f, calls[..n - 1], i);
    }
  }

  /** accumulate throws after a finalize with no resetAccumulation since. */
  lemma {:induction false} AccumulateRefusedAfterFinalize(f: Flags, calls: seq<Call>, i: nat)
    requires i < |calls| && calls[i] == FinalizeCall
    requires forall j :: i < j < |calls| ==> calls[j] != ResetCall
    ensures !AfterCalls(f, calls).initialized && AfterCalls(f, calls).finalized
    decreases |calls|
  {
    var n := |calls|;
    if i < n - 1 {
      AccumulateRefusedAfterFinalize(f, calls[..n - 1], i);
    }
  }

  /** A fresh accumulator never reset refuses accumulate. */
  lemma {:induction false} AccumulateRefusedWithoutReset(calls: seq<Call>)
    requires forall j :: 0 <= j < |calls| ==> calls[j] != ResetCall
    ensures !AfterCalls(Flags(false, false), calls).initialized
    decreases |calls|
  {
    if |calls| > 0 {
      AccumulateRefusedWithoutReset(calls[..|calls| - 1]);
    }
  }

  class SpAccumulator {
    const params: Parameters
    const accumulateMSqr: bool
    var initialized: bool
    var finalized: bool
    /** The accumulated binners, one per spin, and those of the squared values. */
    var cachedNfft: Option<seq<Binner>>
    var cachedNfftSqr: Option<seq<Binner>>
    /** The binners of the last measurement alone. */
    var singleMeasurement: Option<seq<Binner>>
    var mRW: Option<MFunction>
    var mRWSqr: Option<MFunction>
    var singleMeasurementMRW: Option<MFunction>

    ghost predicate Valid()
      reads this
    {
      ValidParameters(params) &&
      (cachedNfft.Some? ==> IsPair(cachedNfft.value)) &&
      (cachedNfftSqr.Some? ==> IsPair(cachedNfftSqr.value)) &&
      (singleMeasurement.Some? ==> IsPair(singleMeasurement.value)) &&
      (initialized ==> cachedNfft.Some? && singleMeasurement.Some? && (accumulateMSqr ==> cachedNfftSqr.Some?)) &&
      (finalized ==> mRW.Some? && (accumulateMSqr ==> mRWSqr.Some?)) &&
      !(initialized && finalized)
    }

    /** The binners finalize reads are allocated. */
    ghost predicate BinnersAllocated()
      reads this
    {
      cachedNfft.Some? && (accumulateMSqr ==> cachedNfftSqr.Some?)
    }

    constructor (p: Parameters, accumulateMSquared: bool)
      requires ValidParameters(p)
      ensures Valid() && params == p && accumulateMSqr == accumulateMSquared
      ensures !initialized && !finalized
      ensures cachedNfft == None && cachedNfftSqr == None && singleMeasurement == None
      ensures mRW == None && mRWSqr == None && singleMeasurementMRW == None
    {
      params := p;
      accumulateMSqr := accumulateMSquared;
      initialized := false;
      finalized := false;
      cachedNfft := None;
      cachedNfftSqr := None;
      singleMeasurement := None;
      mRW := None;
      mRWSqr := None;
      singleMeasurementMRW := None;
    }

    /** resetAccumulation: empty binners (the squared ones only when squares are accumulated),
        no finalized functions, ready to accumulate. */
    method ResetAccumulation()
      requires Valid()
      modifies this
      ensures Valid() && initialized && !finalized
      ensures Flags(initialized, finalized) == AfterCall(old(Flags(initialized, finalized)), ResetCall)
      ensures cachedNfft == Some([[], []]) && singleMeasurement == Some([[], []])
      ensures cachedNfftSqr == if accumulateMSqr then Some([[], []]) else old(cachedNfftSqr)
      ensures mRW == None && mRWSqr == None && singleMeasurementMRW == None
    {
      cachedNfft := Some([[], []]);
      if accumulateMSqr {
        cachedNfftSqr := Some([[], []]);
      }
      singleMeasurement := Some([[], []]);
      mRW := None;
      mRWSqr := None;
      singleMeasurementMRW := None;
      finalized := false;
      initialized := true;
    }

    /** accumulate: throws unless initialized; otherwise appends every ordered vertex pair of
        each spin to that spin's binners and leaves the single-measurement binners holding
        exactly this call's samples. */
    method Accumulate(meas: Measurement) returns (r: Outcome)
      requires Valid() && WellFormed(meas)
      modifies this
      ensures Valid()
      ensures r == Ok <==> old(initialized)
      ensures !old(initialized) ==> r == Throw(LogicError, "The accumulator was not initialized.") && unchanged(this)
      ensures old(initialized) ==>
        cachedNfft == Some(AddMeasurement(params, old(cachedNfft).value, meas, false)) &&
        cachedNfftSqr == (if accumulateMSqr then Some(AddMeasurement(params, old(cachedNfftSqr).value, meas, true)) else old(cachedNfftSqr)) &&
        singleMeasurement == Some(AddMeasurement(params, [[], []], meas, false))
      ensures Flags(initialized, finalized) == AfterCall(old(Flags(initialized, finalized)), AccumulateCall)
      ensures mRW == old(mRW) && mRWSqr == old(mRWSqr) && singleMeasurementMRW == old(singleMeasurementMRW)
    {
      if !initialized {
        return Throw(LogicError, "The accumulator was not initialized.");
      }
      // The single-measurement binners start empty; the loops fill all three pairs.
      var main, sqr, single := AppendSpins(params, meas, accumulateMSqr, cachedNfft.value,
                                           if accumulateMSqr then cachedNfftSqr.value else [[], []]);
      cachedNfft := Some(main);
      if accumulateMSqr {
        cachedNfftSqr := Some(sqr);
      }
      singleMeasurement := Some(single);
      r := Ok;
    }

    /** finalize: nothing when already finalized; otherwise M(r, w) from the binners, M^2(r, w)
        when squares are accumulated, and the accumulator leaves the accumulating state. */
    method Finalize()
      requires Valid() && (finalized || BinnersAllocated())
      modifies this
      ensures Valid() && Flags(initialized, finalized) == AfterCall(old(Flags(initialized, finalized)), FinalizeCall)
      ensures old(finalized) ==> unchanged(this)
      ensures !old(finalized) ==>
        BinnersAllocated() && mRW.Some? &&
        (forall k :: Get(mRW.value, k) == Weight(params, cachedNfft.value, k)) &&
        (accumulateMSqr ==> mRWSqr.Some? && forall k :: Get(mRWSqr.value, k) == Weight(params, cachedNfftSqr.value, k)) &&
        (!accumulateMSqr ==> mRWSqr == old(mRWSqr))
      ensures cachedNfft == old(cachedNfft) && cachedNfftSqr == old(cachedNfftSqr)
      ensures singleMeasurement == old(singleMeasurement) && singleMeasurementMRW == old(singleMeasurementMRW)
    {
      if finalized {
        return;
      }
      var m := FinalizeFunction(params, cachedNfft.value, map[]);
      mRW := Some(m);
      if accumulateMSqr {
        var mSqr := FinalizeFunction(params, cachedNfftSqr.value, map[]);
        mRWSqr := Some(mSqr);
      }
      finalized := true;
      initialized := false;
    }

    /** sumTo: allocates empty binners in `other` where missing, then appends this
        accumulator's binners to other's, spin by spin; the flags of both and the rest of
        `other` are untouched, and `this` is unchanged unless it is `other`. */
    method SumTo(other: SpAccumulator)
      requires Valid() && other.Valid() && BinnersAllocated()
      modifies other
      ensures other.Valid()
      ensures var before := if old(other.cachedNfft).Some? then old(other.cachedNfft).value else [[], []];
        other.cachedNfft == Some([before[0] + old(cachedNfft).value[0], before[1] + old(cachedNfft).value[1]])
      ensures accumulateMSqr ==>
        var before := if old(other.cachedNfftSqr).Some? then old(other.cachedNfftSqr).value else [[], []];
        other.cachedNfftSqr == Some([before[0] + old(cachedNfftSqr).value[0], before[1] + old(cachedNfftSqr).value[1]])
      ensures !accumulateMSqr ==> other.cachedNfftSqr == old(other.cachedNfftSqr)
      ensures other.initialized == old(other.initialized) && other.finalized == old(other.finalized)
      ensures other.singleMeasurement == old(other.singleMeasurement)
      ensures other.mRW == old(other.mRW) && other.mRWSqr == old(other.mRWSqr)
      ensures other.singleMeasurementMRW == old(other.singleMeasurementMRW)
      ensures other != this ==> unchanged(this)
    {
      var mine := cachedNfft.value;
      var mineSqr := if accumulateMSqr then cachedNfftSqr.value else [[], []];
      // An absent binner pair of `other` is allocated empty before the merge.
      var sum := if other.cachedNfft.Some? then other.cachedNfft.value else [[], []];
      var sumSqr := if other.cachedNfftSqr.Some? then other.cachedNfftSqr.value else [[], []];
      sum, sumSqr := MergePairs(accumulateMSqr, sum, sumSqr, mine, mineSqr);
      other.cachedNfft := Some(sum);
      if accumulateMSqr {
        other.cachedNfftSqr := Some(sumSqr);
      }
    }

    /** get_sign_times_M_r_w: M(r, w), or a logic_error before finalize. */
    method GetSignTimesMRW() returns (r: Result<MFunction>)
      requires Valid()
      ensures r.Success? <==> finalized
      ensures r.Failure? ==> r == Failure(LogicError, "The accumulator was not finalized.")
      ensures r.Success? ==> mRW == Some(r.value)
    {
      if !finalized {
        return Failure(LogicError, "The accumulator was not finalized.");
      }
      r := Success(mRW.value);
    }

    /** get_sign_times_M_r_w_sqr: the finalize check comes first, then the squares check. */
    method GetSignTimesMRWSqr() returns (r: Result<MFunction>)
      requires Valid()
      ensures r.Success? <==> finalized && accumulateMSqr
      ensures !finalized ==> r == Failure(LogicError, "The accumulator was not finalized.")
      ensures finalized && !accumulateMSqr ==> r == Failure(LogicError, "M squared was not accumulated.")
      ensures r.Success? ==> mRWSqr == Some(r.value)
    {
      if !finalized {
        return Failure(LogicError, "The accumulator was not finalized.");
      }
      if !accumulateMSqr {
        return Failure(LogicError, "M squared was not accumulated.");
      }
      r := Success(mRWSqr.value);
    }

    /** get_single_measurement_sign_times_M_r_w: a fresh function from the single-measurement
        binners, kept and returned. */
    method GetSingleMeasurementSignTimesMRW() returns (m: MFunction)
      requires Valid() && singleMeasurement.Some?
      modifies this
      ensures Valid()
      ensures initialized == old(initialized) && finalized == old(finalized)
      ensures cachedNfft == old(cachedNfft) && cachedNfftSqr == old(cachedNfftSqr)
      ensures singleMeasurement == old(singleMeasurement) && mRW == old(mRW) && mRWSqr == old(mRWSqr)
      ensures forall k :: Get(m, k) == Weight(params, singleMeasurement.value, k)
      ensures singleMeasurementMRW == Some(m)
    {
      m := FinalizeFunction(params, singleMeasurement.value, map[]);
      singleMeasurementMRW := Some(m);
    }
  }

  /** The spin loop of accumulate: both spins' samples appended to the main and (when squares
      are accumulated) the squared binners, and held alone by fresh single-measurement binners. */
  method AppendSpins(p: Parameters, meas: Measurement, squares: bool, main: seq<Binner>, sqr: seq<Binner>)
    returns (main': seq<Binner>, sqr': seq<Binner>, single': seq<Binner>)
    requires ValidParameters(p) && WellFormed(meas) && IsPair(main) && IsPair(sqr)
    ensures main' == AddMeasurement(p, main, meas, false)
    ensures squares ==> sqr' == AddMeasurement(p, sqr, meas, true)
    ensures single' == AddMeasurement(p, [[], []], meas, false)
  {
    main', sqr', single' := main, sqr, [[], []];
    var s := 0;
    while s < 2
      invariant 0 <= s <= 2 && |main'| == 2 && |sqr'| == 2 && |single'| == 2
      invariant forall k :: 0 <= k < 2 ==> main'[k] == main[k] + (if k < s then PairSamples(p, meas, k, false) else [])
      invariant forall k :: 0 <= k < 2 ==> sqr'[k] == sqr[k] + (if k < s && squares then PairSamples(p, meas, k, true) else [])
      invariant forall k :: 0 <= k < 2 ==> single'[k] == [] + (if k < s then PairSamples(p, meas, k, false) else [])
    {
      var mainS, sqrS, singleS := AppendPairs(p, meas, s, squares, main'[s], sqr'[s], single'[s]);
      main', sqr', single' := main'[s := mainS], sqr'[s := sqrS], single'[s := singleS];
      s := s + 1;
    }
  }

  /** The spin loop of sumTo: this accumulator's binners appended, spin by spin, to the
      merged ones, and its squared binners to the merged squared ones when squares are kept. */
  method MergePairs(squares: bool, sum: seq<Binner>, sumSqr: seq<Binner>, mine: seq<Binner>, mineSqr: seq<Binner>)
    returns (sum': seq<Binner>, sumSqr': seq<Binner>)
    requires IsPair(sum) && IsPair(sumSqr) && IsPair(mine) && IsPair(mineSqr)
    ensures sum' == [sum[0] + mine[0], sum[1] + mine[1]]
    ensures sumSqr' == if squares then [sumSqr[0] + mineSqr[0], sumSqr[1] + mineSqr[1]] else sumSqr
  {
    sum', sumSqr' := sum, sumSqr;
    var s := 0;
    while s < 2
      invariant 0 <= s <= 2 && |sum'| == 2 && |sumSqr'| == 2
      invariant forall k :: 0 <= k < 2 ==> sum'[k] == sum[k] + (if k < s then mine[k] else [])
      invariant forall k :: 0 <= k < 2 ==> sumSqr'[k] == sumSqr[k] + (if k < s && squares then mineSqr[k] else [])
    {
      sum' := sum'[s := sum'[s] + mine[s]];
      if squares {
        sumSqr' := sumSqr'[s := sumSqr'[s] + mineSqr[s]];
      }
      s := s + 1;
    }
  }

  /** Appending two runs of samples one after the other appends their concatenation. */
  lemma BinnerAppendAssociates(b: Binner, x: seq<Sample>, y: seq<Sample>)
    ensures b + x + y == b + (x + y)
  {
  }

  /** The double loop of accumulate for spin s: the pair (i, j) for every column j and, inside,
      every row i, appended to the main, the squared (when squares are accumulated) and the
      single-measurement binner. */
  method AppendPairs(p: Parameters, meas: Measurement, s: nat, squares: bool, main: Binner, sqr: Binner, single: Binner)
    returns (main': Binner, sqr': Binner, single': Binner)
    requires ValidParameters(p) && WellFormed(meas) && s < 2
    ensures main' == main + PairSamples(p, meas, s, false)
    ensures sqr' == if squares then sqr + PairSamples(p, meas, s, true) else sqr
    ensures single' == single + PairSamples(p, meas, s, false)
  {
    var n := |meas.configs[s]|;
    main', sqr', single' := main, sqr, single;
    var j := 0;
    while j < n
      invariant 0 <= j <= n
      invariant main' == main + PairsUpTo(p, meas, s, false, j)
      invariant sqr' == if squares then sqr + PairsUpTo(p, meas, s, true, j) else sqr
      invariant single' == single + PairsUpTo(p, meas, s, false, j)
    {
      assert PairsUpTo(p, meas, s, false, j + 1) == PairsUpTo(p, meas, s, false, j) + Column(p, meas, s, false, j);
      assert PairsUpTo(p, meas, s, true, j + 1) == PairsUpTo(p, meas, s, true, j) + Column(p, meas, s, true, j);
      BinnerAppendAssociates(main, PairsUpTo(p, meas, s, false, j), Column(p, meas, s, false, j));
      BinnerAppendAssociates(sqr, PairsUpTo(p, meas, s, true, j), Column(p, meas, s, true, j));
      BinnerAppendAssociates(single, PairsUpTo(p, meas, s, false, j), Column(p, meas, s, false, j));
      main', sqr', single' := AppendColumn(p, meas, s, squares, j, main', sqr', single');
      j := j + 1;
    }
  }

  /** The inner loop of accumulate: the pairs (i, j) of column j for i = 0..n-1. */
  method AppendColumn(p: Parameters, meas: Measurement, s: nat, squares: bool, j: nat, main: Binner, sqr: Binner, single: Binner)
    returns (main': Binner, sqr': Binner, single': Binner)
    requires ValidParameters(p) && WellFormed(meas) && s < 2 && j < |meas.configs[s]|
    ensures main' == main + Column(p, meas, s, false, j)
    ensures sqr' == if squares then sqr + Column(p, meas, s, true, j) else sqr
    ensures single' == single + Column(p, meas, s, false, j)
  {
    var config := meas.configs[s];
    var n := |config|;
    var oneDivTwoBeta := 1.0 / (2.0 * p.beta);
    var bj, rj, tj := config[j].leftBand, config[j].leftSite, config[j].tau;
    ghost var col, colSqr := Column(p, meas, s, false, j), Column(p, meas, s, true, j);
    main', sqr', single' := main, sqr, single;
    var i := 0;
    while i < n
      invariant 0 <= i <= n
      invariant main' == main + col[..i]
      invariant sqr' == if squares then sqr + colSqr[..i] else sqr
      invariant single' == single + col[..i]
    {
      var bi, ri, ti := config[i].rightBand, config[i].rightSite, config[i].tau;
      var deltaR := p.subtract(rj, ri);
      var scaledTau := (ti - tj) * oneDivTwoBeta;
      var index := p.bbr(bi, bj, deltaR);
      var f := meas.ms[s][i][j];
      assert col[..i + 1] == col[..i] + [col[i]];
      assert colSqr[..i + 1] == colSqr[..i] + [colSqr[i]];
      assert col[i] == PairSample(p, meas, s, false, i, j) == Sample(index, scaledTau, meas.sign as real * f);
      assert colSqr[i] == PairSample(p, meas, s, true, i, j) == Sample(index, scaledTau, meas.sign as real * f * f);
      main' := main' + [Sample(index, scaledTau, meas.sign as real * f)];
      if squares {
        sqr' := sqr' + [Sample(index, scaledTau, meas.sign as real * f * f)];
      }
      single' := single' + [Sample(index, scaledTau, meas.sign as real * f)];
      i := i + 1;
    }
    assert col[..n] == col && colSqr[..n] == colSqr;
  }

  /** The session of the two-accumulator test: two accumulators each measure once and are
      summed into a third; a fourth measures both in turn. After finalize both give the same
      M(r, w), the transform of the binners filled with both measurements. */
  method SumToMatchesSequentialAccumulation(p: Parameters, m1: Measurement, m2: Measurement, squares: bool)
    returns (summed: MFunction, sequential: MFunction)
    requires ValidParameters(p) && WellFormed(m1) && WellFormed(m2)
    ensures forall k :: Get(summed, k) == Get(sequential, k)
    ensures forall k :: Get(summed, k) == Weight(p, Accumulated(p, [m1, m2], false), k)
  {
    summed := SummedRun(p, m1, m2, squares);
    sequential := SequentialRun(p, m1, m2, squares);
  }

  /** The binners of two measurements accumulated in turn: each spin's samples of the first,
      then those of the second. */
  lemma AccumulatedTwo(p: Parameters, m1: Measurement, m2: Measurement)
    requires ValidParameters(p) && WellFormed(m1) && WellFormed(m2)
    ensures Accumulated(p, [m1], false) == [PairSamples(p, m1, 0, false), PairSamples(p, m1, 1, false)]
    ensures Accumulated(p, [m1, m2], false) ==
      [PairSamples(p, m1, 0, false) + PairSamples(p, m2, 0, false),
       PairSamples(p, m1, 1, false) + PairSamples(p, m2, 1, false)]
  {
    assert [m1, m2][..1] == [m1] && [m1][..0] == [] && [m1][0] == m1;
    assert Accumulated(p, [], false) == [[], []];
    assert [] + PairSamples(p, m1, 0, false) == PairSamples(p, m1, 0, false);
    assert [] + PairSamples(p, m1, 1, false) == PairSamples(p, m1, 1, false);
  }

  /** A new accumulator, reset and given one measurement. */
  method MeasuredOnce(p: Parameters, m: Measurement, squares: bool) returns (acc: SpAccumulator)
    requires ValidParameters(p) && WellFormed(m)
    ensures fresh(acc) && acc.Valid() && acc.params == p && acc.accumulateMSqr == squares
    ensures acc.BinnersAllocated()
    ensures acc.cachedNfft == Some([PairSamples(p, m, 0, false), PairSamples(p, m, 1, false)])
  {
    acc := new SpAccumulator(p, squares);
    acc.ResetAccumulation();
    var r := acc.Accumulate(m);
    assert [] + PairSamples(p, m, 0, false) == PairSamples(p, m, 0, false);
    assert [] + PairSamples(p, m, 1, false) == PairSamples(p, m, 1, false);
  }

  /** Two accumulators measure once each and are summed into a third, which is finalized. */
  method SummedRun(p: Parameters, m1: Measurement, m2: Measurement, squares: bool) returns (m: MFunction)
    requires ValidParameters(p) && WellFormed(m1) && WellFormed(m2)
    ensures forall k :: Get(m, k) == Weight(p, Accumulated(p, [m1, m2], false), k)
  {
    AccumulatedTwo(p, m1, m2);
    var acc1 := MeasuredOnce(p, m1, squares);
    var acc2 := MeasuredOnce(p, m2, squares);
    var sum := new SpAccumulator(p, squares);
    sum.ResetAccumulation();
    acc1.SumTo(sum);
    assert [] + PairSamples(p, m1, 0, false) == PairSamples(p, m1, 0, false);
    assert [] + PairSamples(p, m1, 1, false) == PairSamples(p, m1, 1, false);
    acc2.SumTo(sum);
    sum.Finalize();
    var got := sum.GetSignTimesMRW();
    m := got.value;
  }

  /** One accumulator measures both configurations in turn and is finalized. */
  method SequentialRun(p: Parameters, m1: Measurement, m2: Measurement, squares: bool) returns (m: MFunction)
    requires ValidParameters(p) && WellFormed(m1) && WellFormed(m2)
    ensures forall k :: Get(m, k) == Weight(p, Accumulated(p, [m1, m2], false), k)
  {
    AccumulatedTwo(p, m1, m2);
    var acc := new SpAccumulator(p, squares);
    acc.ResetAccumulation();
    var r1 := acc.Accumulate(m1);
    assert [] + PairSamples(p, m1, 0, false) == PairSamples(p, m1, 0, false);
    assert [] + PairSamples(p, m1, 1, false) == PairSamples(p, m1, 1, false);
    var r2 := acc.Accumulate(m2);
    acc.Finalize();
    var got := acc.GetSignTimesMRW();
    m := got.value;
  }
}
