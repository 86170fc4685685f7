# pyJac forward-rate tests: reaction classification and fixture bookkeeping

This project models, in Dafny, the rules that pyJac's rate-constant tests
impose on the reaction classifier and on the reference fixture they compare
against. The reaction list is abstract. Each reaction has a kind (elementary,
three-body, chemically activated, falloff with no/Troe/SRI blending, PLOG,
Chebyshev), an activation energy, a temperature exponent, a reversibility
flag and third-body efficiencies with a default. No chemistry library is
involved.

The model has three parts.

- **Category descriptors** (`Classifier`). `Classify` returns the
  "simple", "plog" and "cheb" descriptors that `assign_rates` must produce.
  Each has a count, an ascending mask of reaction indices, and a base offset.
  The offset is present exactly when the mask is a run of consecutive indices.
  The descriptors partition the reaction indices. The rows
  `test_rate_constants` compares (the elementary reactions) all lie in
  "simple".
- **Rate-type specialization** (`Specializer`, `Sweep`). There are three
  rules (fixed, hybrid, full) for a simple reaction's type tag. The loop that
  builds the expected tag array is modelled, with one entry per simple
  reaction in mask order. The full rule is proved to refine the hybrid one.
  The configuration sweep is modelled as a loop over trials. It re-raises a
  failure unless both `width` and `depth` are set.
- **Fixture bookkeeping** (`TestFixture`). `storage.__init__` builds the
  third-body, reversible, falloff, SRI and Troe index sets, the per-species
  efficiency rows, the position maps `troe_to_pr_map`, `sri_to_pr_map` and
  `thd_to_fall_map`, and the reference array shapes. `Build` shows that all
  of them agree: every index array the per-state loop uses selects a valid row
  of the same reaction.

`Indexing` holds the shared selection `Select`, which is
`[i for i, x in enumerate(xs) if p(x)]`, and `IndexOf`, which is
`np.where(s == x)[0][0]`. `Mechanism` holds the reaction record.
`pyjac/core/rate_subs.py` (`assign_rates`, `rate_const_kernel_gen`,
`get_rate_eqn`) is not part of this model. The model states what the tests
require of its results.

Facts about the test code that the model follows:

- **Full rule** (`pyjac/tests/test_rate_subs.py:106-115`).
  - Tag 2 means no activation energy (`Ea == 0`) and a non-integral exponent.
  - Tag 3 means activation energy present (`Ea != 0`) and a zero exponent (`b == 0`).
- **Tolerated failures** (`pyjac/tests/test_rate_subs.py:155`). A failing
  configuration is re-raised unless `width` and `depth` are both truthy. So a
  configuration with width 4 and depth unset must succeed.
- **Uniform granularity.** Line 40 passes `RateSpecialization.full` but
  expects every type to be 0. This is the uniform (fixed) granularity, and
  `RateType(Fixed, _)` models it.

Conventions:
- An empty mask has offset `None`.
- A chemically activated reaction is a falloff reaction in the chemistry
  library's class hierarchy. It is in `thd_inds` and `fall_inds`, and in
  `sri_inds` or `troe_inds` according to its blending function, just like a
  falloff reaction.

## Model

| member | source | states |
|---|---|---|
| `Indexing.Select` | pyjac/tests/__init__.py:58-59 | the comprehension's result holds exactly the positions whose element satisfies the condition, ascending and without repeats, each in range |
| `Indexing.IndexOf` | pyjac/tests/__init__.py:64-65 | `np.where(s == x)[0][0]` is a position holding `x`, and no earlier position holds it |
| `Classifier.UnitStrideIsRun` | pyjac/tests/test_rate_subs.py:57 | every consecutive difference being 1 is equivalent to `mask[k] == mask[0] + k` for all `k`, so the category is addressable by a base offset plus a local index |
| `Classifier.Offset` | pyjac/tests/test_rate_subs.py:57-60 | the offset is present iff the mask is non-empty and a consecutive run; it is then the first mask entry, and `None` otherwise |
| `Classifier.Describe` | pyjac/tests/test_rate_subs.py:53-60 | `num == len(mask)`; the mask is ascending and holds exactly the indices of the category; offset as in `Offset` |
| `Classifier.Classify` | pyjac/tests/test_rate_subs.py:48-77 | the three descriptors' counts sum to the number of reactions (the partition itself is `ClassifyPartitions`) |
| `Classifier.CountIsCardinality` | pyjac/tests/test_rate_subs.py:53-55 | a descriptor whose count is its mask's length and whose mask is ascending counts exactly the set of its mask's entries: `num == len(inds)` for any set holding the mask's members |
| `Classifier.CategoryCounts` | pyjac/tests/test_rate_subs.py:53-55 | each category's `num` is the number of reactions of that category (plog, cheb and simple) |
| `Classifier.ClassifyPartitions` | pyjac/tests/test_rate_subs.py:71-77 | every reaction index is in exactly one of the three masks, and the three counts sum to the number of reactions, so no index is missing or repeated |
| `Classifier.SimpleMaskIsSelection` | pyjac/tests/test_rate_subs.py:84-95 | the "simple" mask is the ascending list of the reactions that are neither PLOG nor Chebyshev (line 86's filter), and the "simple" count is its length, so it equals the length of the expected type array |
| `Classifier.CompareMask` | pyjac/tests/test_rate_subs.py:142 | the compared rows are exactly the elementary reactions, ascending |
| `Classifier.CompareMaskWithinSimple` | pyjac/tests/test_rate_subs.py:142-153 | every compared row is a "simple" reaction, i.e. one the rate kernel evaluates in closed form |
| `Classifier.ThreeReactionExample` | pyjac/tests/test_rate_subs.py:48-77 | for an elementary, a PLOG and a Chebyshev reaction the masks are `[0]`, `[1]`, `[2]`, each with its element as offset |
| `Classifier.SimpleExpectationAsWrittenRejects` | pyjac/tests/test_rate_subs.py:71-73 | the "simple" check as written expects the Chebyshev indices, and that rejects the correct descriptor of the three-reaction mechanism |
| `Specializer.HybridType` | pyjac/tests/test_rate_subs.py:89-94 | tag 0 iff no activation energy and no exponent; 1 iff no activation energy and a non-zero integral exponent; 2 iff activation energy or a non-integral exponent |
| `Specializer.FullType` | pyjac/tests/test_rate_subs.py:106-115 | the five tags are exactly: constant; integral power law; non-integral power law; activation energy without exponent; both present |
| `Specializer.RateType` | pyjac/tests/test_rate_subs.py:40-43 | the uniform granularity gives every simple reaction tag 0; the hybrid granularity gives the hybrid tag (at most 2) and the full granularity the full tag (at most 4) |
| `Specializer.FullRefinesHybrid` | pyjac/tests/test_rate_subs.py:89-115 | the full tag determines the hybrid tag: 0 to 0, 1 to 1, and 2, 3, 4 to 2 |
| `Specializer.GranularitiesNest` | pyjac/tests/test_rate_subs.py:89-115 | reactions with equal full tags have equal hybrid tags; the full tag is 0 iff the hybrid tag is 0 |
| `Specializer.TypeExamples` | pyjac/tests/test_rate_subs.py:91-92 | zero activation energy with exponent 2 is tag 1 under both rules; zero activation energy with zero exponent is tag 0 under every granularity |
| `Specializer.ReferenceRateTypes` | pyjac/tests/test_rate_subs.py:84-95 | the expected type array has one entry per "simple" reaction (the simple `num`), and entry `k` is the tag of the `k`-th reaction of the simple mask |
| `Sweep.ToleratesFailure` | pyjac/tests/test_rate_subs.py:155 | a failure is tolerated only when both `width` and `depth` are set; if either is unset or 0 it is re-raised |
| `Sweep.ToleranceInOptionSpace` | pyjac/tests/test_rate_subs.py:130-139 | over the swept option lists a failure is tolerated iff width and depth are both 4; with either unset it is re-raised |
| `Sweep.RunSweep` | pyjac/tests/test_rate_subs.py:144-156 | the sweep completes iff no trial fails in a configuration lacking width or depth; otherwise it re-raises at the first such trial |
| `TestFixture.ThirdBodyIndices` | pyjac/tests/__init__.py:39-42 | ascending list of exactly the falloff, chemically activated and three-body reactions, each in range |
| `TestFixture.ReversibleIndices` | pyjac/tests/__init__.py:54 | ascending list of exactly the reversible reactions, each in range |
| `TestFixture.FalloffIndices` | pyjac/tests/__init__.py:58-59 | ascending list of exactly the falloff and chemically activated reactions |
| `TestFixture.SriIndices` | pyjac/tests/__init__.py:60-61 | ascending list of exactly the falloff and chemically activated reactions with SRI blending |
| `TestFixture.TroeIndices` | pyjac/tests/__init__.py:62-63 | ascending list of exactly the falloff and chemically activated reactions with Troe blending |
| `TestFixture.IndexSetsNest` | pyjac/tests/__init__.py:39-63 | falloff indices are third-body indices; SRI and Troe indices are disjoint subsets of the falloff indices |
| `TestFixture.ChemicallyActivatedTroeExample` | pyjac/tests/__init__.py:58-63 | a single chemically activated reaction with Troe blending is in `fall_inds` and `troe_inds` and not in `sri_inds` |
| `TestFixture.EfficiencyRow` | pyjac/tests/__init__.py:48-49 | one entry per species: the listed efficiency for listed species, the default efficiency for all others |
| `TestFixture.EfficiencyRows` | pyjac/tests/__init__.py:44-51 | one row per third-body reaction in index order; entry `[k][j]` is the efficiency that reaction gives species `j` |
| `TestFixture.PositionMap` | pyjac/tests/__init__.py:64-65 | `troe_to_pr_map` and `sri_to_pr_map` have one in-range entry per Troe or SRI reaction, with `fall_inds[map[j]]` equal to that reaction |
| `TestFixture.PositionMapIncreasing` | pyjac/tests/__init__.py:64-65 | between ascending index sets the position map is strictly increasing |
| `TestFixture.ThirdBodyToFalloffMap` | pyjac/tests/__init__.py:81 | the map is ascending and holds exactly the positions in `thd_inds` whose reaction is in `fall_inds` |
| `TestFixture.ThirdBodyToFalloffAligned` | pyjac/tests/__init__.py:81 | `thd_to_fall_map` has one entry per falloff reaction, ascending, with `thd_inds[map[m]] == fall_inds[m]` |
| `TestFixture.Build` | pyjac/tests/__init__.py:36-81 | the fixture's index sets are the selections above; `T` and `P` have `test_size` entries; every array has `test_size` columns and one row per member of its index set; every index array used by the per-state loop (lines 89-98) selects an in-range row of the same reaction |

## Findings

| source | as written | input that shows it | evidently intended | confidence | as-written member | corrected member |
|---|---|---|---|---|---|---|
| pyjac/tests/test_rate_subs.py:71-73 | `elem_inds` is built as the union of the PLOG and Chebyshev indices and never used; the "simple" count and mask are compared against the Chebyshev indices | reactions `[elementary, PLOG, Chebyshev]`: the correct simple mask is `[0]`, the check expects `[2]` | the "simple" mask is the complement of the PLOG and Chebyshev indices | high, not executed | `Classifier.SimpleExpectationAsWrittenRejects` | `Classifier.ClassifyPartitions` |

## Left out

- The chemistry library's numerics are not modelled: concentrations, forward and reverse rate constants, equilibrium constants, low- and high-pressure rates, Troe and SRI blending values, and entropy and enthalpy (`pyjac/tests/__init__.py:83-101`). They are a floating-point oracle. Only the shapes and index alignment these lines depend on are modelled, in `TestFixture.Consistent`.
- The random values of the temperatures, pressures and mass fractions (`pyjac/tests/__init__.py:32-34`) are left out as randomness. Only their sizes are kept: `T` and `P` have `test_size` entries and the mass fractions have shape `(n_species, test_size)`.
- Specializer.ReferenceRateTypes: the model reads `Ea` and `b` from the reaction record's one Arrhenius rate. For falloff and chemically activated reactions this stands for the high-pressure rate. The test's `reac.rate` raises `AttributeError` on such reactions (`pyjac/tests/test_rate_subs.py:87-88` and `104-105`): the chemistry library gives them `high_rate` and `low_rate` but no `rate`. That error path is not modelled.
- `get_rate_eqn` and its string checks (`pyjac/tests/test_rate_subs.py:27-36`) are left out: the symbolic derivation is in code not modelled.
- Kernel generation and execution (`loopy_options`, `rate_const_kernel_gen`, `auto_run`) are left out. In `Sweep.RunSweep` each configuration's outcome is an input bit (`Trial.failed`).
- `OptionLoop`'s enumeration is left out. `Sweep.InOptionSpace` only describes which configurations it produces.
- The one-time `setUp` caching, equation loading, the mechanism file reader, file paths and loopy caching (`pyjac/tests/__init__.py:104-134`) are left out as fixture plumbing and I/O.
- Integrality of the exponent is `x.Floor as real == x`. Python floats such as NaN and infinity are not modelled: there `int(b)` raises.
- Masks are unbounded naturals, not NumPy `int32`.
- Several lines of `pyjac/tests/test_rate_subs.py` do not run as written. The model checks what each evidently means.
  - Lines 55-56, 64-65 and 72-73 use `=` inside `assert`, which is a syntax error. The model checks the intended equalities.
  - `np.sorted` (lines 56, 65, 73) and the bare `sort` (line 71) do not exist. The model takes them as ascending sorting.
  - `assert result['simple']['type'] == np.array(rtypes)` (lines 95, 116) compares arrays, and the truth value of a result with more than one element is ambiguous. The model checks element-wise equality of the whole array (`ReferenceRateTypes`).
- Lines 90 and 107 call `rtypes[i].append(0)` with an undefined `i`. The model appends to `rtypes`.
- Lines 79, 96 and 117 call `__tester()` without its argument. Each category check is modelled as applying to the descriptor just computed.
- Edge cases in `pyjac/tests/__init__.py` where the source fails are left out with the per-state loop (lines 83-101). `TestFixture.Build` returns a consistent fixture for them anyway.
  - With no third-body reactions, `np.array([])` gives the efficiency matrix shape `(0,)` rather than `(0, n_species)`. Then `np.dot(thd_eff_maps, self.concs[:, i])` at line 91 raises `ValueError`. The model uses an empty sequence of rows.
  - With no reversible reactions, `rev_inds` is an empty float array, which NumPy refuses as an index at lines 89-90. The model uses an empty sequence of indices.
