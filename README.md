# DCA++ measurement and bookkeeping core, modelled in Dafny

This project models six pieces of sequential logic from DCA++, a dynamical cluster
approximation code. Each is modelled in its own module.

- `SpAccumulation` (sp_accumulator.dfy) is the CPU single-particle accumulator `SpAccumulator`.
  - Its two flags `initialized_` and `finalized_` form the reset / accumulate / finalize protocol.
  - `accumulate` bins every ordered vertex pair (i, j) of each spin configuration into per-spin NFFT binners.
  - `finalize` transforms the binners into M(r, w), and the getters refuse to work in the wrong state.
  - `sumTo` merges the raw binners into another accumulator, allocating them on demand.
  - A binner is the sequence of samples `(index, scaled tau, value)` it received; `+=` appends.
- `SsCtHyb` (ss_ct_hyb_accumulator.dfy) is the bookkeeping of the segment (SS-CT-HYB) accumulator.
  - It keeps the measurement counter, the accumulated phase and the histogram of visited expansion orders.
  - `finalize` runs at most once per initialize, and `sumTo` adds one accumulator into another.
- `SigmaFourthOrder` (fourth_order_sigma.dfy) covers the fourth-order self-energy.
  - It models the Matsubara frequency-index helpers `add_freq_bf`, `add_freq_ff`, `subtract_freq_bf`, `subtract_freq_fb` and `subtract_freq_ff`, with C++'s truncating `/`.
  - It models the index guards of `execute_4A` … `execute_4L`, the spin-block copy and scaling that end each diagram, and the sum in `execute_on_cluster`.
- `Statistics` (statistical_testing.dfy) covers `StatisticalTesting`.
  - `selectIndices` and `discardIndices` sort, deduplicate and bounds-check the indices, then restrict the vector and the row-major covariance matrix.
  - It models the eigenvalue filter of the Mahalanobis distance, the argument checks and branch choice of `chi2Cdf` and `fCdf`, `computePValue` (the eigen-basis path), and the precondition of `printInfo`.
- `PointGroupSymmetry` (symmetry_element.dfy) covers `point_group_symmetry_element::to_JSON`.
  - Its loops build the text exactly as written; number printing is a parameter.
  - It also covers `set_permutation` and `get_permutation`.
- `Hdf5Reader` (hdf5_reader.dfy) covers the HDF5 reader.
  - It models `get_path`, the `begin_step` / `end_step` flags and the string read `execute(name, std::string&)`.
  - The file is a map from absolute path to stored string.

Three small modules support them:

- `Errors` holds the error kinds (`logic_error`, `out_of_range`, `runtime_error`) and the `Outcome`, `Result` and `Option` types.
- `Text` holds string joining and character counting.
- `Arith` holds one monotonicity lemma for products.

Floating-point and complex values become `real`. Integers are unbounded. Where C++ integer
division matters (the frequency helpers), it is modelled exactly. The index guards of the
diagrams use the helpers as the code writes them, truncation included; the corrected
`subtract_freq_ff` and `add_freq_ff` of the Findings are separate members.

Where the specification and the code differ, the model follows the code:

- `sumTo` does not refuse a finalized accumulator.
- `get_sign_times_M_r_w_sqr` checks "not finalized" before "M squared was not accumulated".
- The error messages are those of the code.

## Model

| member | source | states |
|---|---|---|
| SpAccumulation.PairSamplesLayout | include/dca/phys/dca_step/cluster_solver/shared_tools/accumulation/sp/sp_accumulator.hpp:155-177 | One accumulate call adds exactly n² samples for a spin with n vertices. The pair (i, j) sits at position j·n + i. Its sample has index bbr(right band of i, left band of j, subtract(left site of j, right site of i)), time (τ_i − τ_j)/(2β) and value sign·M(i, j), or sign·M(i, j)² for the squared binner. |
| SpAccumulation.PairsUpToLength | include/dca/phys/dca_step/cluster_solver/shared_tools/accumulation/sp/sp_accumulator.hpp:157-177 | After the first `cols` columns of the double loop, the binner holds cols·n samples. |
| SpAccumulation.PairsUpToAt | include/dca/phys/dca_step/cluster_solver/shared_tools/accumulation/sp/sp_accumulator.hpp:157-177 | The pair (i, j) of an earlier column sits at position j·n + i. |
| SpAccumulation.AccumulatedConcat | include/dca/phys/dca_step/cluster_solver/shared_tools/accumulation/sp/sp_accumulator.hpp:215-228 | Binners filled separately with xs and with ys, then merged with `+=`, equal spin by spin the binners filled with xs followed by ys. |
| SpAccumulation.Weight | include/dca/phys/dca_step/cluster_solver/shared_tools/accumulation/sp/sp_accumulator.hpp:185-194 | finalizeFunction adds nothing at a key that is spin-off-diagonal or outside the domains. |
| SpAccumulation.FinalizeFunction | include/dca/phys/dca_step/cluster_solver/shared_tools/accumulation/sp/sp_accumulator.hpp:181-196 | Every entry grows by exactly its weight: transform(binner of s)(w, b1, b2, r)·1/|R| at the spin-diagonal keys (b1, s, b2, s, r, w). Spin-off-diagonal entries keep their value. |
| SpAccumulation.AddFrequencies | include/dca/phys/dca_step/cluster_solver/shared_tools/accumulation/sp/sp_accumulator.hpp:189-194 | The w loop for spin s adds the weight exactly at the keys of spin s. |
| SpAccumulation.AddSites | include/dca/phys/dca_step/cluster_solver/shared_tools/accumulation/sp/sp_accumulator.hpp:190-194 | The r loop adds the weight exactly at the keys of spin s and frequency w. |
| SpAccumulation.AddBandPairs | include/dca/phys/dca_step/cluster_solver/shared_tools/accumulation/sp/sp_accumulator.hpp:191-194 | The b2 loop adds the weight exactly at the keys of spin s, frequency w and site r. |
| SpAccumulation.AddBands | include/dca/phys/dca_step/cluster_solver/shared_tools/accumulation/sp/sp_accumulator.hpp:192-194 | The b1 loop adds the weight exactly at the keys (b1, s, b2, s, r, w) for every band b1. |
| SpAccumulation.AccumulateAllowedAfterReset | include/dca/phys/dca_step/cluster_solver/shared_tools/accumulation/sp/sp_accumulator.hpp:124-145 | After a resetAccumulation with no finalize since, the accumulator is initialized and not finalized, so accumulate is accepted. |
| SpAccumulation.AccumulateRefusedAfterFinalize | include/dca/phys/dca_step/cluster_solver/shared_tools/accumulation/sp/sp_accumulator.hpp:198-213 | After a finalize with no resetAccumulation since, the accumulator is not initialized, so accumulate throws. |
| SpAccumulation.AccumulateRefusedWithoutReset | include/dca/phys/dca_step/cluster_solver/shared_tools/accumulation/sp/sp_accumulator.hpp:144-145 | An accumulator that was never reset is never initialized, so accumulate throws. |
| SpAccumulation.SpAccumulator.ResetAccumulation | include/dca/phys/dca_step/cluster_solver/shared_tools/accumulation/sp/sp_accumulator.hpp:124-137 | The main and single-measurement binner pairs become empty. The squared pair is emptied only when squares are accumulated, and is otherwise left alone. There are no finalized functions. Afterwards the accumulator is initialized and not finalized. |
| SpAccumulation.SpAccumulator.Accumulate | include/dca/phys/dca_step/cluster_solver/shared_tools/accumulation/sp/sp_accumulator.hpp:139-179 | Throws "The accumulator was not initialized." exactly when not initialized, and then changes nothing. Otherwise it appends each spin's pair samples to the main binners, and the squared ones when squares are accumulated. Afterwards the single-measurement binners hold exactly this call's samples. |
| SpAccumulation.SpAccumulator.Finalize | include/dca/phys/dca_step/cluster_solver/shared_tools/accumulation/sp/sp_accumulator.hpp:198-213 | When already finalized, nothing changes. Otherwise M(r, w) is the weight of the main binners, and M²(r, w) that of the squared binners when squares are accumulated. Afterwards it is finalized and not initialized. |
| SpAccumulation.SpAccumulator.SumTo | include/dca/phys/dca_step/cluster_solver/shared_tools/accumulation/sp/sp_accumulator.hpp:215-228 | `other`'s missing binner pairs are allocated empty, the squared one only when this accumulator accumulates squares. This accumulator's samples are then appended spin by spin. `other`'s flags, single-measurement binners and functions, and this accumulator, are unchanged. |
| SpAccumulation.SpAccumulator.GetSignTimesMRW | include/dca/phys/dca_step/cluster_solver/shared_tools/accumulation/sp/sp_accumulator.hpp:230-235 | Returns M(r, w) exactly when finalized, and otherwise the logic_error "The accumulator was not finalized.". |
| SpAccumulation.SpAccumulator.GetSignTimesMRWSqr | include/dca/phys/dca_step/cluster_solver/shared_tools/accumulation/sp/sp_accumulator.hpp:237-244 | Succeeds exactly when finalized and squares were accumulated. The "not finalized" error comes first, then "M squared was not accumulated.". |
| SpAccumulation.SpAccumulator.GetSingleMeasurementSignTimesMRW | include/dca/phys/dca_step/cluster_solver/shared_tools/accumulation/sp/sp_accumulator.hpp:246-252 | A new function holding the weight of the single-measurement binners. It is kept in the accumulator, and nothing else changes. |
| SpAccumulation.AppendSpins | include/dca/phys/dca_step/cluster_solver/shared_tools/accumulation/sp/sp_accumulator.hpp:151-178 | The spin loop appends each spin's pair samples to the main binners, and the squared samples when squares are accumulated. The single-measurement binners start empty and end holding only this call's samples. |
| SpAccumulation.MergePairs | include/dca/phys/dca_step/cluster_solver/shared_tools/accumulation/sp/sp_accumulator.hpp:222-226 | The spin loop of sumTo appends this accumulator's binner of each spin to the merged binner of that spin. It does the same for the squared binners only when squares are accumulated, and otherwise leaves them as they were. |
| SpAccumulation.AppendPairs | include/dca/phys/dca_step/cluster_solver/shared_tools/accumulation/sp/sp_accumulator.hpp:157-177 | The double loop appends exactly the spin's pair samples to the main and single-measurement binners, and the squared samples only when squares are accumulated. |
| SpAccumulation.AppendColumn | include/dca/phys/dca_step/cluster_solver/shared_tools/accumulation/sp/sp_accumulator.hpp:161-176 | The inner loop appends the samples of column j, i = 0..n−1. |
| SpAccumulation.SumToMatchesSequentialAccumulation | include/dca/phys/dca_step/cluster_solver/shared_tools/accumulation/sp/sp_accumulator.hpp:215-228 | Two accumulators that each measure once and are summed into a third give the same finalized M(r, w) as one accumulator that measures both. That result is the transform of the binners filled with both measurements. |
| SpAccumulation.SummedRun | include/dca/phys/dca_step/cluster_solver/shared_tools/accumulation/sp/sp_accumulator.hpp:215-228 | Reset, accumulate, sumTo twice into a third accumulator, then finalize: M(r, w) is the weight of both measurements in order. |
| SpAccumulation.SequentialRun | include/dca/phys/dca_step/cluster_solver/shared_tools/accumulation/sp/sp_accumulator.hpp:139-213 | Reset, two accumulate calls, then finalize: M(r, w) is the weight of both measurements in order. |
| SsCtHyb.SumUpdate | include/dca/phys/dca_step/cluster_solver/ss_ct_hyb/ss_ct_hyb_accumulator.hpp:268-270 | Raising one histogram bin raises the histogram's total by as much. |
| SsCtHyb.SumPointwise | include/dca/phys/dca_step/cluster_solver/ss_ct_hyb/ss_ct_hyb_accumulator.hpp:322 | The total of a bin-by-bin sum is the sum of the totals. |
| SsCtHyb.SsCtHybAccumulator.Initialize | include/dca/phys/dca_step/cluster_solver/ss_ct_hyb/ss_ct_hyb_accumulator.hpp:217-229 | The base counters take the base class's initialized values. The histogram, length and overlap are zero. The inner accumulator is initialized, and the accumulator is not finalized. |
| SsCtHyb.SsCtHybAccumulator.Finalize | include/dca/phys/dca_step/cluster_solver/ss_ct_hyb/ss_ct_hyb_accumulator.hpp:231-238 | The inner finalize runs only if not yet finalized. Afterwards exactly one inner finalize has happened since the last initialize. |
| SsCtHyb.SsCtHybAccumulator.UpdateFrom | include/dca/phys/dca_step/cluster_solver/ss_ct_hyb/ss_ct_hyb_accumulator.hpp:253-261 | Copies the walker's sign, its configuration and every M matrix. Nothing else changes. |
| SsCtHyb.SsCtHybAccumulator.Measure | include/dca/phys/dca_step/cluster_solver/ss_ct_hyb/ss_ct_hyb_accumulator.hpp:263-274 | The measurement count grows by exactly 1, and the current sign is appended to the phase. Bin k = |configuration| grows by 1 iff k < the histogram size, and every other bin is unchanged. The configuration goes to the inner accumulator. The histogram's total never exceeds the measurement count. |
| SsCtHyb.SsCtHybAccumulator.SumTo | include/dca/phys/dca_step/cluster_solver/ss_ct_hyb/ss_ct_hyb_accumulator.hpp:317-325 | `other` gains this accumulator's phase samples, its measurement count and its histogram, bin by bin. Nothing else of `other` changes. The inner accumulators are merged. |
| SsCtHyb.SsCtHybAccumulator.ClearSingleMeasurement | include/dca/phys/dca_step/cluster_solver/ss_ct_hyb/ss_ct_hyb_accumulator.hpp:327-330 | Always the logic_error with the source's message. |
| SsCtHyb.Zero | include/dca/phys/dca_step/cluster_solver/ss_ct_hyb/ss_ct_hyb_accumulator.hpp:221-226 | `f = 0` sets every entry to zero. |
| SigmaFourthOrder.CDiv2 | src/phys_library/DCA+_step/cluster_solver/cluster_solver_series_expansion/series_expansion/4th_order_perturbation_sigma.h:860 | C++ `/ 2` on int: exact on even numerators. On odd ones it rounds toward zero, down for positive and up for negative. |
| SigmaFourthOrder.SubtractFreqFf | src/phys_library/DCA+_step/cluster_solver/cluster_solver_series_expansion/series_expansion/4th_order_perturbation_sigma.h:874-880 | Corrected subtract_freq_ff: the bosonic integer of the result is exactly the difference of the two odd integers, for every grid size. |
| SigmaFourthOrder.AddFreqFf | src/phys_library/DCA+_step/cluster_solver/cluster_solver_series_expansion/series_expansion/4th_order_perturbation_sigma.h:883-889 | Corrected add_freq_ff: the bosonic integer of the result is exactly the sum of the two odd integers. |
| SigmaFourthOrder.HalfOfBosonicNumerator | src/phys_library/DCA+_step/cluster_solver/cluster_solver_series_expansion/series_expansion/4th_order_perturbation_sigma.h:878 | For an even x, halving x + Nb by rounding down gives the bosonic index of x. |
| SigmaFourthOrder.FermionicInjective | src/phys_library/DCA+_step/cluster_solver/cluster_solver_series_expansion/series_expansion/4th_order_perturbation_sigma.h:858 | A fermionic index is determined by its odd integer 2(f − Nw/2) + 1. |
| SigmaFourthOrder.AddFreqBfExact | src/phys_library/DCA+_step/cluster_solver/cluster_solver_series_expansion/series_expansion/4th_order_perturbation_sigma.h:892-898 | With an even Nw, the odd integer of add_freq_bf(b, f) is 2(b − Nb/2) + 2(f − Nw/2) + 1. |
| SigmaFourthOrder.SubtractFreqBfExact | src/phys_library/DCA+_step/cluster_solver/cluster_solver_series_expansion/series_expansion/4th_order_perturbation_sigma.h:865-871 | With an even Nw, subtract_freq_bf(b, f) gives the odd integer of f minus the even integer of b. |
| SigmaFourthOrder.SubtractFreqFbExact | src/phys_library/DCA+_step/cluster_solver/cluster_solver_series_expansion/series_expansion/4th_order_perturbation_sigma.h:856-862 | With an even Nw, subtract_freq_fb(f, b) gives the even integer of b minus the odd integer of f. |
| SigmaFourthOrder.AddSubtractBfRoundTrip | src/phys_library/DCA+_step/cluster_solver/cluster_solver_series_expansion/series_expansion/4th_order_perturbation_sigma.h:865-898 | With an even Nw, subtract_freq_bf(b, add_freq_bf(b, f)) == f and add_freq_bf(b, subtract_freq_bf(b, f)) == f. |
| SigmaFourthOrder.SubtractFreqFbInvolution | src/phys_library/DCA+_step/cluster_solver/cluster_solver_series_expansion/series_expansion/4th_order_perturbation_sigma.h:856-862 | With an even Nw, subtract_freq_fb(subtract_freq_fb(f, b), b) == f. |
| SigmaFourthOrder.FfAsWrittenAgreeWhenNonNegative | src/phys_library/DCA+_step/cluster_solver/cluster_solver_series_expansion/series_expansion/4th_order_perturbation_sigma.h:874-889 | Where the numerator is non-negative, the truncating ff helpers equal the corrected ones, so their bosonic integer is exact. |
| SigmaFourthOrder.SubtractFreqFfTruncationCounterexample | src/phys_library/DCA+_step/cluster_solver/cluster_solver_series_expansion/series_expansion/4th_order_perturbation_sigma.h:874-880 | Nw = 4, Nb = 3, w1 = 3, w2 = 1: the code returns 0 where the difference's index is −1. |
| SigmaFourthOrder.AddFreqFfTruncationCounterexample | src/phys_library/DCA+_step/cluster_solver/cluster_solver_series_expansion/series_expansion/4th_order_perturbation_sigma.h:883-889 | Nw = 4, Nb = 3, w1 = 1, w2 = 0: the code returns 0 where the sum's index is −1. |
| SigmaFourthOrder.Diagram4ALoopRange | src/phys_library/DCA+_step/cluster_solver/cluster_solver_series_expansion/series_expansion/4th_order_perturbation_sigma.h:230-236 | w ∈ [\|nu_c\|, Nw − \|nu_c\|) iff w − nu_c and w + nu_c are both fermionic indices. The read at w − nu_c is the frequency w minus nu. |
| SigmaFourthOrder.TruncatedBosonicIndex | src/phys_library/DCA+_step/cluster_solver/cluster_solver_series_expansion/series_expansion/4th_order_perturbation_sigma.h:874-889 | For an even integer x, the truncating half of x + Nb is an index in [0, Nb) iff x lies on the bosonic grid or is the integer just below it. On the grid it is x's own index; just below it, it is 0. |
| SigmaFourthOrder.Guard4C | src/phys_library/DCA+_step/cluster_solver/cluster_solver_series_expansion/series_expansion/4th_order_perturbation_sigma.h:267-269 | A term that is not skipped reads G at an index in [0, Nw). With an even Nw, the term is read iff the frequency nu − w lies on the fermionic grid, and the index read is that frequency. |
| SigmaFourthOrder.Guard4D | src/phys_library/DCA+_step/cluster_solver/cluster_solver_series_expansion/series_expansion/4th_order_perturbation_sigma.h:304-305 | With the truncating subtract_freq_ff, chi is read iff w − nu lies on the bosonic grid or is the even integer just below it (odd Nb only). On the grid the index read is w − nu; just below it the index read is 0. A read index is always in [0, Nb). |
| SigmaFourthOrder.Guard4E | src/phys_library/DCA+_step/cluster_solver/cluster_solver_series_expansion/series_expansion/4th_order_perturbation_sigma.h:341-342 | The same as Guard4D for the chi read at nu − w. |
| SigmaFourthOrder.Guard4F | src/phys_library/DCA+_step/cluster_solver/cluster_solver_series_expansion/series_expansion/4th_order_perturbation_sigma.h:378-379 | The same as Guard4D for the phi read at w + nu, computed by the truncating add_freq_ff. |
| SigmaFourthOrder.Guard4G | src/phys_library/DCA+_step/cluster_solver/cluster_solver_series_expansion/series_expansion/4th_order_perturbation_sigma.h:433-437 | The three G reads are in range. With an even Nw, the term is read iff w − nu1, w − nu2 and w − nu1 − nu2 all lie on the fermionic grid, and those are the frequencies read. |
| SigmaFourthOrder.Guard4H | src/phys_library/DCA+_step/cluster_solver/cluster_solver_series_expansion/series_expansion/4th_order_perturbation_sigma.h:501-505 | The three G reads are in range. With an even Nw, the term is read iff w − nu1, nu2 − w and nu1 + nu2 − w all lie on the fermionic grid, and those are the frequencies read. |
| SigmaFourthOrder.Guard4J | src/phys_library/DCA+_step/cluster_solver/cluster_solver_series_expansion/series_expansion/4th_order_perturbation_sigma.h:626-634 | Both G reads and the chi read are in range. With an even Nw, the term is read iff nu − w1 and nu − w2 lie on the fermionic grid and nu − w1 − w2 lies on the bosonic grid or just below it (the truncating subtract_freq_ff). The G reads are those frequencies; chi is read at nu − w1 − w2, or at index 0 just below the grid. |
| SigmaFourthOrder.Guard4K | src/phys_library/DCA+_step/cluster_solver/cluster_solver_series_expansion/series_expansion/4th_order_perturbation_sigma.h:713-721 | The same as Guard4J for G at nu + w1 and nu + w2 and phi at nu + w1 + w2, computed by the truncating add_freq_ff. |
| SigmaFourthOrder.Guard4L | src/phys_library/DCA+_step/cluster_solver/cluster_solver_series_expansion/series_expansion/4th_order_perturbation_sigma.h:799-807 | The same as Guard4J for G at nu + w1 and nu + w2 and chi at w1 − w2, computed by the truncating subtract_freq_ff. |
| SigmaFourthOrder.Guard4JOuter | src/phys_library/DCA+_step/cluster_solver/cluster_solver_series_expansion/series_expansion/4th_order_perturbation_sigma.h:658-659 | G is read in range. With an even Nw, the second stage of 4J reads iff nu − w lies on the fermionic grid, and reads at that frequency. |
| SigmaFourthOrder.Guard4KLOuter | src/phys_library/DCA+_step/cluster_solver/cluster_solver_series_expansion/series_expansion/4th_order_perturbation_sigma.h:745-746 | G is read in range. With an even Nw, the second stage of 4K (and of 4L, lines 832-833) reads iff w − nu lies on the fermionic grid, and reads at that frequency. |
| SigmaFourthOrder.CopySpinBlock | src/phys_library/DCA+_step/cluster_solver/cluster_solver_series_expansion/series_expansion/4th_order_perturbation_sigma.h:245-247 | Every (0,1,0,1,k,w) entry takes the value of (0,0,0,0,k,w). Every other entry is unchanged. |
| SigmaFourthOrder.Scaled | src/phys_library/DCA+_step/cluster_solver/cluster_solver_series_expansion/series_expansion/4th_order_perturbation_sigma.h:251 | `Sigma *= factor` multiplies every entry by the factor. |
| SigmaFourthOrder.FinishDiagram | src/phys_library/DCA+_step/cluster_solver/cluster_solver_series_expansion/series_expansion/4th_order_perturbation_sigma.h:245-251 | After copy and scaling, the two spin blocks are still equal, both the scaled spin-up value. Every other entry is scaled. |
| SigmaFourthOrder.Plus | src/phys_library/DCA+_step/cluster_solver/cluster_solver_series_expansion/series_expansion/4th_order_perturbation_sigma.h:203 | `Sigma += other` adds entry by entry. |
| SigmaFourthOrder.ExecuteOnCluster | src/phys_library/DCA+_step/cluster_solver/cluster_solver_series_expansion/series_expansion/4th_order_perturbation_sigma.h:202-214 | Sigma = 2·4A + 4C + 4D + 4E + 4F + 4G + 2·4H + 4J + 4K + 4L at every key. |
| Statistics.InsertSorted | src/math/statistical_testing/statistical_testing.cpp:115-116 | Adding an index to a strictly increasing list keeps it strictly increasing, with the index added to its elements. |
| Statistics.SortUnique | src/math/statistical_testing/statistical_testing.cpp:115-120 | sort + unique + resize gives a strictly increasing list with the same elements. |
| Statistics.StrictlyIncreasingUnique | src/math/statistical_testing/statistical_testing.cpp:115-120 | A set has only one strictly increasing listing, so the result is determined by the set of indices. |
| Statistics.DistinctCount | src/math/statistical_testing/statistical_testing.cpp:119-120 | The resized list has one entry per distinct index. |
| Statistics.AtBound | src/math/statistical_testing/statistical_testing.cpp:132 | Entry (i, j) of an n × n row-major matrix lies inside its n·n storage. |
| Statistics.AtOrder | src/math/statistical_testing/statistical_testing.cpp:128-133 | Row-major positions grow with the row, then with the column. |
| Statistics.OutOfBoundsMeansSomeIndexInvalid | src/math/statistical_testing/statistical_testing.cpp:123-124 | For a sorted list, the corrected bounds check passes iff every index is a position of the vector. |
| Statistics.SelectBoundsCounterexample | src/math/statistical_testing/statistical_testing.cpp:123-124 | With two entries, [2] passes the check as written and fails the corrected one. |
| Statistics.ComplementSpec | src/math/statistical_testing/statistical_testing.cpp:147-155 | The complement is strictly increasing and holds x iff 0 ≤ x < n and x is not discarded. |
| Statistics.DiscardPastEndCounterexample | src/math/statistical_testing/statistical_testing.cpp:148-155 | Discarding [0] of three positions makes the loop as written read past the list, where [1, 2] was meant. |
| Statistics.NormalizedSamplesPerKept | src/math/statistical_testing/statistical_testing.cpp:100-105 | One normalized sample per kept eigenvalue, and no more kept than examined. |
| Statistics.Chi2Cdf | src/math/statistical_testing/statistical_testing.cpp:269-279 | A logic_error iff x < 0 or k ≤ 0. Zero iff x = 0. The lower gamma branch iff 0 < x < k, else one minus the upper one, both at (k/2, x/2). |
| Statistics.FCdf | src/math/statistical_testing/statistical_testing.cpp:282-289 | A logic_error iff x < 0, nu1 ≤ 0 or nu2 ≤ 0. Zero iff x = 0. Otherwise the incomplete beta at (nu1/2, nu2/2) and at a point strictly inside (0, 1). |
| Statistics.BetaArgumentInside | src/math/statistical_testing/statistical_testing.cpp:288 | nu1·x/(nu1·x + nu2) lies strictly between 0 and 1. |
| Statistics.StatisticalTesting.SelectIndices | src/math/statistical_testing/statistical_testing.cpp:114-137 | The indices become strictly increasing with the same elements. An empty list gives "Test is empty." and an index that is not a position gives "Index out of bounds." (the corrected `>=` check of the Findings), both leaving the test unchanged. Otherwise df and cov are restricted: df[i] = old df[idx[i]] and cov(i, j) = old cov(idx[i], idx[j]). |
| Statistics.StatisticalTesting.DiscardIndices | src/math/statistical_testing/statistical_testing.cpp:139-158 | The indices are deduplicated and checked with the `>` of the source. Otherwise df and cov are restricted to the complement, the positions 0..N−1 not discarded, in increasing order. An empty complement gives "Test is empty.". |
| Statistics.StatisticalTesting.ComputeMahalanobisDistanceSquared | src/math/statistical_testing/statistical_testing.cpp:73-112 | Nothing changes when the distance is known. Otherwise dof is the number of eigenvalues above 10·leading·epsilon, with one normalized sample each, and the distance is the sum of their squared components over the eigenvalues. Afterwards the distance is never the sentinel −1. |
| Statistics.StatisticalTesting.ComputePValue | src/math/statistical_testing/statistical_testing.cpp:31-45 | Records the sample count and computes the distance. The p-value is 1 − chi2Cdf(distance·n, dof) when the covariance is known, else 1 − fCdf(distance·(n − dof)/dof, dof, n − dof). A refused argument propagates the cdf's logic_error and keeps the old p-value. |
| Statistics.StatisticalTesting.PrintInfo | src/math/statistical_testing/statistical_testing.cpp:160-174 | The logic_error iff the p-value has not been computed. Otherwise it writes exactly the first dof normalized samples. |
| Statistics.FilterEigenvalues | src/math/statistical_testing/statistical_testing.cpp:99-111 | The loop gives the kept count, the normalized samples and the distance of the eigen filter. The distance is never negative. |
| Statistics.FlattenLength | src/math/statistical_testing/statistical_testing.cpp:126 | n rows of n entries fill n·n positions. |
| Statistics.FlattenEntry | src/math/statistical_testing/statistical_testing.cpp:132 | Entry (a, b) of the flattened rows is rows[a][b]. |
| Statistics.Restrict | src/math/statistical_testing/statistical_testing.cpp:126-136 | new_df[i] = df[idx[i]] and new_cov[i·n + j] = cov[idx[i]·N + idx[j]] for all i, j. |
| Statistics.CopyRow | src/math/statistical_testing/statistical_testing.cpp:131-132 | Row i of the new matrix is entry (idx[i], idx[j]) of the old one for every j. |
| Statistics.ComplementOf | src/math/statistical_testing/statistical_testing.cpp:147-155 | The loop, with the cursor compared only while inside the list, yields exactly the complement. |
| Statistics.DistanceNonNegative | src/math/statistical_testing/statistical_testing.cpp:100-102 | A sum of squares over positive eigenvalues is never negative. |
| PointGroupSymmetry.RowEntries | include/dca/phys/domains/quantum/point_group_symmetry_element.hpp:61-66 | Row i lists O[i + j·D] for j = 0..D−1, all inside the D·D storage. |
| PointGroupSymmetry.ColumnMajorRowInBounds | include/dca/phys/domains/quantum/point_group_symmetry_element.hpp:63-65 | i + j·D < D·D for i, j < D. |
| PointGroupSymmetry.JsonTextShape | include/dca/phys/domains/quantum/point_group_symmetry_element.hpp:83-94 | The text always ends with "\n\n\n". An empty P prints "-1]". |
| PointGroupSymmetry.DimensionZeroLeavesBracketsOpen | include/dca/phys/domains/quantum/point_group_symmetry_element.hpp:57-81 | With DIMENSION = 0, the O and t parts are only their openings. |
| PointGroupSymmetry.RowBrackets | include/dca/phys/domains/quantum/point_group_symmetry_element.hpp:60-66 | Every printed row opens and closes one bracket. |
| PointGroupSymmetry.OTextBrackets | include/dca/phys/domains/quantum/point_group_symmetry_element.hpp:57-72 | The O part opens 1 + D brackets and closes D + 1 of them, or none when D = 0. |
| PointGroupSymmetry.TTextBrackets | include/dca/phys/domains/quantum/point_group_symmetry_element.hpp:74-81 | The t part opens one bracket and closes it iff D ≥ 1. |
| PointGroupSymmetry.PTextBrackets | include/dca/phys/domains/quantum/point_group_symmetry_element.hpp:83-92 | The P part opens and closes one bracket. |
| PointGroupSymmetry.BracketBalance | include/dca/phys/domains/quantum/point_group_symmetry_element.hpp:56-95 | When no number prints a bracket, the brackets balance iff DIMENSION ≥ 1. With DIMENSION = 0, two stay open. |
| PointGroupSymmetry.PointGroupSymmetryElement.SetPermutation | include/dca/phys/domains/quantum/point_group_symmetry_element.hpp:30-32 | P becomes p, so get_permutation then returns p. |
| PointGroupSymmetry.PointGroupSymmetryElement.GetPermutation | include/dca/phys/domains/quantum/point_group_symmetry_element.hpp:33-35 | Returns P. |
| PointGroupSymmetry.PointGroupSymmetryElement.ToJson | include/dca/phys/domains/quantum/point_group_symmetry_element.hpp:55-95 | Appends exactly the O part, the t part, the P part and "\n\n\n". |
| PointGroupSymmetry.PointGroupSymmetryElement.WriteO | include/dca/phys/domains/quantum/point_group_symmetry_element.hpp:57-72 | Appends "\"O\" : [\n" and the rows joined by ",\n", with the last row followed by "\n],\n". |
| PointGroupSymmetry.PointGroupSymmetryElement.WriteRow | include/dca/phys/domains/quantum/point_group_symmetry_element.hpp:60-66 | Appends "[", the row's values separated by ", ", then "]". |
| PointGroupSymmetry.PointGroupSymmetryElement.WriteT | include/dca/phys/domains/quantum/point_group_symmetry_element.hpp:74-81 | Appends "\"t\" : [ ", the D values separated by ", " and closed by "]", then ",\n". |
| PointGroupSymmetry.PointGroupSymmetryElement.WriteP | include/dca/phys/domains/quantum/point_group_symmetry_element.hpp:83-92 | Appends "\"P\" : [ ", then "-1]" for an empty P, else its values separated by ", " and closed by "]". |
| Hdf5Reader.AbsolutePathRoundTrip | src/io/hdf5/hdf5_reader.cpp:52-63 | When no group name holds '/', splitting the path after its leading '/' gives the group names back. |
| Hdf5Reader.NulToEmpty | src/io/hdf5/hdf5_reader.cpp:91-93 | The value is "" iff the stored string is "" or a single NUL. It differs from the stored string only for a single NUL. |
| Hdf5Reader.RunStepsBookkeeping | src/io/hdf5/hdf5_reader.cpp:65-75 | A run without an exception raises step by exactly the number of end_step calls. A step stays open once opened, so a run holds at most one begin_step. |
| Hdf5Reader.SecondBeginStepThrows | src/io/hdf5/hdf5_reader.cpp:65-75 | begin_step, end_step, begin_step: the third call throws. |
| Hdf5Reader.HDF5Reader.GetPath | src/io/hdf5/hdf5_reader.cpp:52-63 | "/" when no group is open. Otherwise "/" then the names joined by "/", with no trailing slash. |
| Hdf5Reader.HDF5Reader.BeginStep | src/io/hdf5/hdf5_reader.cpp:65-69 | The runtime_error while in a step, changing nothing. Otherwise it opens a step. |
| Hdf5Reader.HDF5Reader.EndStep | src/io/hdf5/hdf5_reader.cpp:71-75 | The runtime_error when not in a step. Otherwise step grows by exactly 1, and the step stays open. |
| Hdf5Reader.HDF5Reader.ExecuteString | src/io/hdf5/hdf5_reader.cpp:77-96 | Found iff get_path() + "/" + name exists, which is "//name" at the root. When absent, the value is untouched. Otherwise it is the stored string, with a lone NUL read as "". |

## Left out

- The NFFT binner `Dnfft1D` is not part of this model. Its cubic-kernel interpolation, oversampling and FFT are the parameter `transform` applied to the binner's sample sequence.
- A binner is modelled as a sequence, so the model does not claim that sums are independent of the merge order.
- `bbr_dmn` and `RDmn::parameter_type::subtract` are not part of this model. They are the function parameters `bbr` and `subtract`.
- Floating-point rounding and complex values are not modelled: every value is a `real`.
- The numerics of `incLGamma`, `incUGamma` and `incLBeta` (series, Lentz iterations, `lgamma`) are left out. The cdfs return which evaluation they make, and `ComputePValue` takes the evaluation as the parameter `evaluate`.
- LAPACK and BLAS calls are left out: `syevd`, `gemv`, `potrf`, `trsv` and `dot`. Their results (the eigenvalues in increasing order, the eigenvectors, df in the eigenbasis, epsilon and `sqrt`) are parameters, and a covariance matrix's leading eigenvalue is taken to be non-negative.
- The fast path `computeFastMahalanobisDistanceSquared` (statistical_testing.cpp:46-69) and the `allow_fast` flag of `computePValue` are left out. Besides its Cholesky factorization (with the fallback to the eigen-basis path), that path sets `dof_` to the size of df, overwrites df in place with the triangular solve, and never fills `normalized_samples_`. The model's invariant that the normalized samples number `dof_` after a distance is computed, and `PrintInfo`'s promise that all the samples it writes exist, hold only because this path is left out. After `computePValue` with `allow_fast` set, `printInfo` reads `normalized_samples_[i]` for i < `dof_` past the end of an empty vector (statistical_testing.cpp:171-172); this is an observation from reading the code, not executed.
- `incLGamma`, `incUGamma` and `incLBeta` throw a `logic_error` when their iterations do not converge (statistical_testing.cpp:192-193, 221-222, 261-262). The model has no such error: once the cdf accepts its arguments, `ComputePValue` always succeeds.
- Statistics.StatisticalTesting.ComputeMahalanobisDistanceSquared requires a non-empty df, because the source reads `eigenvalues[n - 1]`. It also requires a non-negative leading eigenvalue and a positive epsilon, which hold for a covariance matrix and for `std::numeric_limits<double>::epsilon()`. The same holds for Statistics.StatisticalTesting.ComputePValue.
- Statistics.StatisticalTesting.SelectIndices uses the corrected bounds check `>=` (`OutOfBounds`), so it refuses an index equal to the size of df, which the source's `>` lets through before reading `df_[size]`. The as-written check is exhibited by `SelectBoundsCounterexample`.
- Statistics.StatisticalTesting.DiscardIndices requires a non-empty index list, because the source reads `indices[0]`.
- Statistics.StatisticalTesting.DiscardIndices uses the corrected loop (`ComplementOf`), which never reads past the list. The as-written loop is `ComplementAsWritten`.
- `printInfo`'s file output, timestamp and verbose printing are left out as I/O. The model returns what is written.
- The constructor of `StatisticalTesting` (in its header) is not part of this model. The Dafny constructor sets the distance and the p-value to the sentinel −1.
- Statistics.SortUnique works on a value sequence rather than sorting `indices` in place: the caller's vector is a reference parameter, and only its final contents matter here.
- H5 calls (opening the file, datasets, data types) are left out. The file is a map from absolute path to stored string.
- The other `execute` overloads, `open_file` and `close_file` of the reader are left out. They are H5 calls.
- The HDF5 reader's constructor is not part of this model.
- The summation loops of `execute_4A` … `execute_4L` are left out. They sum complex products of G, chi, phi and Sigma_2 over k and frequency, which is floating-point work. What each term reads, and when it is skipped, is modelled by the `Guard4X` functions. The spin-block copy, the scaling and the final sum are modelled.
- The thread splitting of the fourth-order code is left out as concurrency.
- The factor each `execute_4X` scales its function by (U^2 or U^4 over powers of beta·Nk, negative for 4H and 4L) is the `factor` parameter of `FinishDiagram`; its value is not modelled.
- The base class `MC_accumulator_data` of the SS-CT-HYB accumulator is not part of this model. Its `initialize` result is the parameter `base`.
- `accumulate_length`, `accumulate_overlap` and the inner `SpAccumulatorNfft` are left out. They call walker routines that are not part of this model. The inner accumulator is the list of calls made on it.
- `write` of the SS-CT-HYB accumulator is I/O and is left out.
- SsCtHyb.SsCtHybAccumulator.SumTo requires `other` to be a different accumulator with its own histogram. The source also accepts summing an accumulator into itself, which doubles its counts; the model does not cover that aliasing.
- SpAccumulation.SpAccumulator.Finalize and SpAccumulation.SpAccumulator.SumTo require allocated binners (`BinnersAllocated`). The source dereferences a null pointer when they are missing, which the model does not cover.
- SpAccumulation.SpAccumulator.GetSingleMeasurementSignTimesMRW requires stored single-measurement binners. The source dereferences a null pointer when there are none, which the model does not cover.
- The point-group element's constructor, copy constructor, `linear_transform` and `transform` live in a source file that is not part of this model.
- GPU streams, device memory and `synchronizeCopy` are left out.

## Findings

| source | as written | input that shows it | evidently intended | confidence | as-written member | corrected member |
|---|---|---|---|---|---|---|
| src/phys_library/DCA+_step/cluster_solver/cluster_solver_series_expansion/series_expansion/4th_order_perturbation_sigma.h:874-880 | `subtract_freq_ff` halves with C++ `/`, which truncates toward zero. With an odd Nb, a difference just below the bosonic grid (true index −1) comes out as index 0, which the `< 0` guards at lines 305, 342, 634 and 807 let through. The model's guards (`Guard4D`, `Guard4E`, `Guard4J`, `Guard4L`) follow the code and read chi at index 0 there. | Nw = 4, Nb = 3, w1 = 3, w2 = 1: the difference −4 has index −1, and the code returns 0 (frequency −2). | Index −1, so the term is skipped. | medium, not executed | SigmaFourthOrder.SubtractFreqFfTruncationCounterexample | SigmaFourthOrder.SubtractFreqFf |
| src/phys_library/DCA+_step/cluster_solver/cluster_solver_series_expansion/series_expansion/4th_order_perturbation_sigma.h:883-889 | `add_freq_ff` truncates the same way, so a sum just below the grid passes the guards at lines 379 and 721 (`Guard4F`, `Guard4K` read phi at index 0 there). | Nw = 4, Nb = 3, w1 = 1, w2 = 0: the sum −4 has index −1, and the code returns 0. | Index −1, so the term is skipped. | medium, not executed | SigmaFourthOrder.AddFreqFfTruncationCounterexample | SigmaFourthOrder.AddFreqFf |
| src/math/statistical_testing/statistical_testing.cpp:123-124 | The bounds check rejects only `indices.back() > df_.size()`, so an index equal to the size passes, and `df_[size]` is read at line 129. | df_ with 2 entries, indices = [2]. | `>=`: reject any index that is not a position. | high, not executed | Statistics.SelectBoundsCounterexample | Statistics.StatisticalTesting.SelectIndices |
| src/math/statistical_testing/statistical_testing.cpp:148-155 | Once every discarded index has been matched, `compare` is at the end of the list, and `*compare` is still read for each remaining position. | df_ with 3 entries, indices = [0]: at i = 1 the loop reads past the list. | Compare only while `compare` is inside the list, giving [1, 2]. | high, not executed | Statistics.DiscardPastEndCounterexample | Statistics.ComplementOf |
