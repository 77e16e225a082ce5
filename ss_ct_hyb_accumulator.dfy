/** The bookkeeping of the segment (SS-CT-HYB) accumulator: the measurement counter, the
    accumulated phase, the histogram of visited expansion orders, the finalize guard and the
    merge of one accumulator into another.

    The base class that holds the counters (MC_accumulator_data) and the inner single-particle
    accumulator (SpAccumulatorNfft) are not part of this model: the counters are the record
    `AccumulatorData`, and the inner accumulator is the sequence of calls made on it. */
module SsCtHyb {
  import opened Errors

  /** The counters of the base class. */
  datatype AccumulatorData = AccumulatorData(
    dcaIteration: int,
    numberOfMeasurements: int,
    /** The sign of the last configuration copied from the walker. */
    currentPhase: int,
    /** Every sign added to the accumulated phase, in order. */
    accumulatedPhase: seq<int>)

  /** A segment of the hybridization expansion. */
  datatype Segment = Segment(orbital: int, start: real, end: real)

  type Matrix = seq<seq<real>>

  /** What updateFrom reads from the walker. */
  datatype Walker = Walker(sign: int, configuration: seq<Segment>, mMatrices: seq<Matrix>)

  /** A call made on the inner single-particle accumulator. */
  datatype SpCall =
    | SpInitialize
    | SpFinalize
    | SpAccumulate(sign: int, configuration: seq<Segment>, mMatrices: seq<Matrix>)
    | SpSumTo

  /** The number of finalize calls on the inner accumulator since its last initialize. */
  function FinalizesSinceInitialize(calls: seq<SpCall>): nat
    decreases |calls|
  {
    if |calls| == 0 then 0
    else
      var before := FinalizesSinceInitialize(calls[..|calls| - 1]);
      match calls[|calls| - 1]
      case SpInitialize => 0
      case SpFinalize => before + 1
      case _ => before
  }

  /** The sum of the bins of a histogram. */
  function Sum(s: seq<real>): real
    decreases |s|
  {
    if |s| == 0 then 0.0 else Sum(s[..|s| - 1]) + s[|s| - 1]
  }

  /** Raising one bin raises the sum by as much. */
  lemma {:induction false} SumUpdate(s: seq<real>, k: nat, d: real)
    requires k < |s|
    ensures Sum(s[k := s[k] + d]) == Sum(s) + d
    decreases |s|
  {
    var t := s[k := s[k] + d];
    var n := |s|;
    assert t[..n - 1] == if k < n - 1 then s[..n - 1][k := s[k] + d] else s[..n - 1];
    if k < n - 1 {
      SumUpdate(s[..n - 1], k, d);
    }
  }

  /** The sum of an elementwise sum is the sum of the sums. */
  lemma {:induction false} SumPointwise(a: seq<real>, b: seq<real>, c: seq<real>)
    requires |a| == |b| == |c|
    requires forall k :: 0 <= k < |c| ==> c[k] == a[k] + b[k]
    ensures Sum(c) == Sum(a) + Sum(b)
    decreases |c|
  {
    var n := |c|;
    if n > 0 {
      SumPointwise(a[..n - 1], b[..n - 1], c[..n - 1]);
    }
  }

  lemma {:induction false} SumZeros(s: seq<real>)
    requires forall k :: 0 <= k < |s| ==> s[k] == 0.0
    ensures Sum(s) == 0.0
    decreases |s|
  {
    if |s| > 0 {
      SumZeros(s[..|s| - 1]);
    }
  }

  class SsCtHybAccumulator {
    var data: AccumulatorData
    var configuration: seq<Segment>
    /** One M matrix per orbital-spin index nu. */
    const mMatrices: array<Matrix>
    /** The histogram of visited expansion orders. */
    const visited: array<real>
    const length: array<real>
    const overlap: array<real>
    var finalized: bool
    /** The calls made so far on the inner single-particle accumulator. */
    var spCalls: seq<SpCall>

    /** The arrays are distinct; a step of the inner accumulator is finalized exactly when
        this accumulator is; the histogram never holds more entries than measurements. */
    ghost predicate Valid()
      reads this, visited
    {
      visited != length && visited != overlap && length != overlap &&
      FinalizesSinceInitialize(spCalls) == (if finalized then 1 else 0) &&
      0 <= data.numberOfMeasurements && |data.accumulatedPhase| == data.numberOfMeasurements &&
      Sum(visited[..]) <= data.numberOfMeasurements as real
    }

    constructor (orbitalSpins: nat, expansionOrders: nat, base: AccumulatorData)
      requires 0 <= base.numberOfMeasurements == |base.accumulatedPhase|
      ensures Valid() && !finalized && spCalls == [] && data == base && configuration == []
      ensures mMatrices.Length == orbitalSpins && visited.Length == expansionOrders
      ensures length.Length == orbitalSpins && overlap.Length == orbitalSpins * orbitalSpins
      ensures visited[..] == seq(expansionOrders, k => 0.0)
      ensures fresh(mMatrices) && fresh(visited) && fresh(length) && fresh(overlap)
    {
      data := base;
      configuration := [];
      mMatrices := new Matrix[orbitalSpins](k => []);
      visited := new real[expansionOrders](k => 0.0);
      length := new real[orbitalSpins](k => 0.0);
      overlap := new real[orbitalSpins * orbitalSpins](k => 0.0);
      finalized := false;
      spCalls := [];
      new;
      SumZeros(visited[..]);
    }

    /** initialize: the base counters take the value the base class's initialize leaves
        (`base`), the histogram, length and overlap are zeroed, the inner accumulator is
        initialized and the accumulator is no longer finalized. */
    method Initialize(dcaIteration: int, base: AccumulatorData)
      requires Valid()
      requires base.dcaIteration == dcaIteration
      requires 0 <= base.numberOfMeasurements == |base.accumulatedPhase|
      modifies this, visited, length, overlap
      ensures Valid() && !finalized && data == base
      ensures forall k :: 0 <= k < visited.Length ==> visited[k] == 0.0
      ensures forall k :: 0 <= k < length.Length ==> length[k] == 0.0
      ensures forall k :: 0 <= k < overlap.Length ==> overlap[k] == 0.0
      ensures spCalls == old(spCalls) + [SpInitialize]
      ensures configuration == old(configuration) && mMatrices[..] == old(mMatrices[..])
    {
      data := base;
      Zero(visited);
      spCalls := spCalls + [SpInitialize];
      Zero(length);
      Zero(overlap);
      finalized := false;
      SumZeros(visited[..]);
    }

    /** finalize: finalizes the inner accumulator, once: a second call does nothing. */
    method Finalize()
      requires Valid()
      modifies this
      ensures Valid() && finalized
      ensures spCalls == if old(finalized) then old(spCalls) else old(spCalls) + [SpFinalize]
      ensures FinalizesSinceInitialize(spCalls) == 1
      ensures data == old(data) && configuration == old(configuration)
    {
      if finalized {
        return;
      }
      spCalls := spCalls + [SpFinalize];
      finalized := true;
    }

    /** updateFrom: copies the walker's sign, its configuration and its M matrix of every
        orbital-spin index; nothing else changes. */
    method UpdateFrom(walker: Walker)
      requires Valid() && |walker.mMatrices| == mMatrices.Length
      modifies this, mMatrices
      ensures Valid()
      ensures data == old(data).(currentPhase := walker.sign)
      ensures configuration == walker.configuration
      ensures mMatrices[..] == walker.mMatrices
      ensures finalized == old(finalized) && spCalls == old(spCalls)
    {
      data := data.(currentPhase := walker.sign);
      configuration := walker.configuration;
      var l := 0;
      while l < mMatrices.Length
        invariant 0 <= l <= mMatrices.Length
        invariant forall k :: 0 <= k < l ==> mMatrices[k] == walker.mMatrices[k]
        invariant data == old(data).(currentPhase := walker.sign) && configuration == walker.configuration
        invariant finalized == old(finalized) && spCalls == old(spCalls)
      {
        mMatrices[l] := walker.mMatrices[l];
        l := l + 1;
      }
    }

    /** measure: one more measurement, the current sign added to the accumulated phase, the
        bin of the current expansion order raised by one when the histogram has it, and the
        configuration handed to the inner accumulator. */
    method Measure()
      requires Valid()
      modifies this, visited
      ensures Valid()
      ensures data == old(data).(numberOfMeasurements := old(data.numberOfMeasurements) + 1,
                                 accumulatedPhase := old(data.accumulatedPhase) + [old(data.currentPhase)])
      ensures var k := |configuration|;
        visited[..] == if k < visited.Length then old(visited[..])[k := old(visited[k]) + 1.0] else old(visited[..])
      ensures spCalls == old(spCalls) + [SpAccumulate(data.currentPhase, configuration, mMatrices[..])]
      ensures finalized == old(finalized) && configuration == old(configuration)
    {
      data := data.(numberOfMeasurements := data.numberOfMeasurements + 1,
                    accumulatedPhase := data.accumulatedPhase + [data.currentPhase]);
      var k := |configuration|;
      if k < visited.Length {
        SumUpdate(visited[..], k, 1.0);
        visited[k] := visited[k] + 1.0;
      }
      spCalls := spCalls + [SpAccumulate(data.currentPhase, configuration, mMatrices[..])];
    }

    /** sumTo: adds the accumulated phase, the measurement count and the histogram, bin by bin,
        into `other`, and merges the inner accumulators. length, overlap and the measured
        functions are not merged. */
    method SumTo(other: SsCtHybAccumulator)
      requires Valid() && other.Valid() && other != this
      requires other.visited != visited && other.visited.Length == visited.Length
      modifies other, other.visited, this
      ensures other.Valid()
      ensures other.data == old(other.data).(
        numberOfMeasurements := old(other.data.numberOfMeasurements) + data.numberOfMeasurements,
        accumulatedPhase := old(other.data.accumulatedPhase) + data.accumulatedPhase)
      ensures forall k :: 0 <= k < visited.Length ==> other.visited[k] == old(other.visited[k]) + visited[k]
      ensures other.finalized == old(other.finalized) && other.spCalls == old(other.spCalls)
      ensures other.configuration == old(other.configuration)
      ensures spCalls == old(spCalls) + [SpSumTo]
      ensures data == old(data) && visited[..] == old(visited[..]) && finalized == old(finalized)
    {
      other.data := other.data.(
        numberOfMeasurements := other.data.numberOfMeasurements + data.numberOfMeasurements,
        accumulatedPhase := other.data.accumulatedPhase + data.accumulatedPhase);
      ghost var before := other.visited[..];
      var k := 0;
      while k < visited.Length
        invariant 0 <= k <= visited.Length
        invariant forall i :: 0 <= i < k ==> other.visited[i] == before[i] + visited[i]
        invariant forall i :: k <= i < visited.Length ==> other.visited[i] == before[i]
        invariant other.data == old(other.data).(
          numberOfMeasurements := old(other.data.numberOfMeasurements) + data.numberOfMeasurements,
          accumulatedPhase := old(other.data.accumulatedPhase) + data.accumulatedPhase)
        invariant data == old(data) && visited[..] == old(visited[..])
        invariant other.finalized == old(other.finalized) && other.spCalls == old(other.spCalls)
        invariant other.configuration == old(other.configuration)
        invariant finalized == old(finalized) && spCalls == old(spCalls)
      {
        other.visited[k] := other.visited[k] + visited[k];
        k := k + 1;
      }
      SumPointwise(before, visited[..], other.visited[..]);
      spCalls := spCalls + [SpSumTo];
    }

    /** clearSingleMeasurement: always a logic_error. */
    method ClearSingleMeasurement() returns (r: Outcome)
      ensures r == Throw(LogicError, "SsCtHyb method doesn't traffic in M_r_w() developer error!")
    {
      r := Throw(LogicError, "SsCtHyb method doesn't traffic in M_r_w() developer error!");
    }
  }

  /** `f = 0` on a function: every entry set to zero. */
  method Zero(a: array<real>)
    modifies a
    ensures forall k :: 0 <= k < a.Length ==> a[k] == 0.0
  {
    var k := 0;
    while k < a.Length
      invariant 0 <= k <= a.Length
      invariant forall i :: 0 <= i < k ==> a[i] == 0.0
    {
      a[k] := 0.0;
      k := k + 1;
    }
  }
}
