# abcvoting reference-instance generator, modelled in Dafny

abcvoting keeps a set of reference fixtures (`instance*.abc.yaml`) that its
voting-rule tests check against. `tests/test_instances/generate.py` writes
them, one batch at a time:

1. It enumerates parameter tuples `(committeesize, num_voters, num_cand,
   prob_distribution, setsize)` from five value lists, in
   `itertools.product` order.
2. It drops the tuples where the committee size is not below the number of
   candidates, resolves the `"committeesize"` set-size sentinel, and stably
   sorts the tuples by number of candidates.
3. For each tuple it draws approval profiles until one has enough approved
   candidates. Optionally it keeps drawing until the AV and PAV rules share
   no winning committee.
4. It asks every rule of the registry for its committees, and writes one
   fixture per tuple under a zero-padded, indexed file name.

The model has seven modules, one per piece of that pipeline:

- `Common` (`common.dfy`): shared types. Ballots are sets of candidates and
  profiles are sequences of ballots. It also defines the scenario tuple, the
  random-stream state, and the errors that escape. Everything the generator
  cannot see lives in the environment record `Env`:
  - the profile generators, as `draw`;
  - the rule solvers, as `solve`;
  - the rule registry, as `registry`;
  - Python's `float()` acceptance of a string, as `parsesAsFloat`.
- `Enumeration` (`enumeration.dfy`): the cross product, the filter, the
  sentinel resolution and the stable sort. `EnumerateScenarios` is the loop
  and in-place sort. The function `Enumerate` specifies it.
- `Sampler` (`sampler.dfy`): `generate_profile`, meaning the tag dispatch and
  the retry loop. `GenerateProfile` is the loop. `SampleFrom` specifies it.
- `Gate` (`gate.dfy`): the AV/PAV distinctness loop and its
  sorted-tuple intersection test. `DrawAcceptedProfile` is the loop.
  `DrawAccepted` specifies it.
- `Oracle` (`oracle.dfy`): rule-instance expansion.
  `ComputeRuleInstances` is the nested loop. `Expand` specifies it.
- `Naming` (`naming.dfy`): `f"/instance{batch}{index:04d}.abc.yaml"` and
  the fixture description string.
- `Driver` (`driver.dfy`): `generate_abc_yaml_testinstances` as a whole.
  `GenerateTestInstances` is the loop. `RunBatch` specifies it.

The random stream is an explicit state `RandomState(seed, pos)`. The batch
starts at `RandomState(24121838, 0)`, which models `random.seed(24121838)`.
Every draw from the stream reads the profile at the current position and
advances the position by one. The source's two `while True` loops do not
terminate on every input. Both are modelled as loops over stream positions
below a bound `env.limit`. Reaching the bound yields the outcome
`StreamExhausted`, which stands for "the source is still looping".

A Python exception that escapes is an `Outcome.Fail` carrying an `Error`:

- `UnknownDistribution`: the `raise ValueError` of the dispatch.
- `BadDistributionParameter`: `float()` rejecting the Mallows or Urn suffix.
- `SolverFailed`: a rule computation raising.

An exception aborts the batch. The fixtures written before it remain
written.

## Model

| member | source | states |
|---|---|---|
| Enumeration.EnumerateScenarios | tests/test_instances/generate.py:47-56 | The appending loop over the product followed by the in-place sort yields exactly `Enumerate(axes)`. |
| Enumeration.ProductLength | tests/test_instances/generate.py:48-50 | The product has as many entries as the product of the five axis lengths. |
| Enumeration.ProductAt | tests/test_instances/generate.py:48-50 | Combination (a, b, c, d, e) sits at its mixed-radix position `ProductIndex`. So the last axis varies fastest, as in `itertools.product`. |
| Enumeration.ProductIndexHorner | tests/test_instances/generate.py:48-50 | That position is `(((a·V+b)·N+c)·D+d)·S+e`, where V, N, D and S are the lengths of the last four axes. |
| Enumeration.ProductMember | tests/test_instances/generate.py:48-50 | A tuple occurs in the product exactly when it combines one value from each axis. |
| Enumeration.KeptMember | tests/test_instances/generate.py:51-55 | A tuple is kept exactly when it is the sentinel-resolved form of some combination with `committeesize < num_cand`. |
| Enumeration.KeptLength | tests/test_instances/generate.py:51-55 | The kept list is as long as the number of feasible combinations. |
| Enumeration.SortByCandIsStableSort | tests/test_instances/generate.py:56 | The sort orders by `num_cand`, is a permutation, and keeps the relative order of tuples with equal `num_cand`. |
| Enumeration.StableSortUnique | tests/test_instances/generate.py:56 | Any list sorted by `num_cand` with the same equal-key subsequences equals the sort's output. So the insertion sort agrees with every stable sort, including Python's. |
| Enumeration.EnumerateMember | tests/test_instances/generate.py:47-56 | A tuple is enumerated exactly when it is a combination of the axes with `committeesize < num_cand`, with its sentinel resolved. |
| Enumeration.EnumerateResolved | tests/test_instances/generate.py:51-55 | Each enumerated tuple has `committeesize < num_cand` and is never left with the sentinel. Its set size is its committee size when the axis value was the sentinel, and the axis value unchanged otherwise (`None` included). |
| Enumeration.EnumeratePermutation | tests/test_instances/generate.py:47-56 | The enumeration is a permutation of the filtered, sentinel-resolved product. |
| Enumeration.EnumerateCount | tests/test_instances/generate.py:47-56 | The enumeration's length is the number of feasible combinations. |
| Enumeration.EnumerateOrder | tests/test_instances/generate.py:48-56 | `num_cand` is non-decreasing along the enumeration. Tuples with equal `num_cand` keep their product order. |
| Enumeration.EnumerateExample | tests/test_instances/generate.py:47-56 | For axes [3,4] × [8] × [6,4] × ["IC"] × ["committeesize"], the enumeration has three tuples: (3,8,4,3), then (3,8,6,3), then (4,8,6,4). |
| Sampler.Dispatch | tests/test_instances/generate.py:13-28 | Each tag selects exactly one branch. "IC" gives the IC request. A "Mallows" tag gives the Mallows request, and a "Urn" tag the Urn request, exactly when `float()` accepts the suffix after the prefix; that suffix is the dispersion or replace parameter. A rejected suffix gives the parameter error. "IC-party" gives a party-list request for 3 parties. Every other tag gives the unknown-tag error. Requests other than party-list carry the scenario's set size. |
| Sampler.ApprovedCandidatesMember | tests/test_instances/generate.py:30 | A candidate is approved exactly when some voter's ballot contains it. |
| Sampler.Retry | tests/test_instances/generate.py:12-33 | A returned profile has at least `committeesize` approved candidates and was drawn after the start state. The only failure is running out of stream. |
| Sampler.SampleFrom | tests/test_instances/generate.py:11-33 | `generate_profile` raises the unknown-tag error exactly for tags outside the closed set. When the dispatch raises, `generate_profile` fails with the dispatch's own error. Any other failure is running out of stream. A returned profile passed the approved-candidates check. |
| Sampler.GenerateProfile | tests/test_instances/generate.py:11-33 | The `while True` loop, with the dispatch inside it, returns `SampleFrom(s, env, st)`. |
| Sampler.RetryFirstFeasible | tests/test_instances/generate.py:29-33 | The returned profile is the draw just before the returned position. Every earlier draw from the start failed the approved-candidates check. |
| Sampler.RetryExhausted | tests/test_instances/generate.py:29-33 | The loop gives up only if every draw from the start up to the bound failed the check. |
| Gate.SortedTupleProps | tests/test_instances/generate.py:79-81 | `tuple(sorted(committee))` is sorted and has the committee's members. |
| Gate.SortedDetermined | tests/test_instances/generate.py:79-81 | Two sorted sequences with the same members are equal. |
| Gate.SortedTupleSameMembers | tests/test_instances/generate.py:79-81 | Two committees normalise to the same tuple exactly when they have the same members, in any order. |
| Gate.SharesCommitteeIff | tests/test_instances/generate.py:79-82 | The intersection is non-empty exactly when some AV committee and some PAV committee have the same members. |
| Gate.DrawAccepted | tests/test_instances/generate.py:71-83 | An accepted sample was drawn after the start state, from the same seed. |
| Gate.DrawAcceptedProfile | tests/test_instances/generate.py:71-83 | The gate loop returns `DrawAccepted(s, avNeqPav, env, st)`. It calls both solvers before looking at `av_neq_pav`. |
| Gate.DrawAcceptedSound | tests/test_instances/generate.py:71-83 | The accepted profile passed the approved-candidates check and both irresolute solves answered. With `av_neq_pav`, AV and PAV share no committee on it. |
| Gate.GateOffTakesFirst | tests/test_instances/generate.py:77-78 | With `av_neq_pav` false, the first profile `generate_profile` returns is kept, when both the AV and the PAV irresolute solves answer on it. |
| Gate.GateOnSkipsShared | tests/test_instances/generate.py:79-83 | With `av_neq_pav` true, a profile on which AV and PAV share a committee is discarded and the loop draws again. |
| Oracle.ComputeRuleInstances | tests/test_instances/generate.py:85-104 | The nested loops build exactly `Expand(registry, solve, profile, committeesize)`. |
| Oracle.ExpandPrefixFails | tests/test_instances/generate.py:86-99 | Once a solve fails, the expansion fails with that rule's error. No later rule changes it. |
| Oracle.TotalModesGrows | tests/test_instances/generate.py:101-104 | A longer registry prefix contributes at least as many records. |
| Oracle.ExpandLength | tests/test_instances/generate.py:101-104 | The expansion has one record per rule and supported `resolute` value. |
| Oracle.ExpandAt | tests/test_instances/generate.py:95-104 | Rule j's records start after the records of rules 0..j-1 and follow its `resolute_values` order. All of them carry the committees of one solve, made with `resolute=False` exactly when `False` is among those values. |
| Oracle.ExpandFailure | tests/test_instances/generate.py:86-99 | The expansion fails exactly when some rule's solve raises. The error then names the first such rule. |
| Naming.Zeros | tests/test_instances/generate.py:68 | The padding has the requested length and consists of '0' characters only. |
| Naming.Decimal | tests/test_instances/generate.py:68 | `str(n)` is non-empty and all digits, with no leading zero unless it is "0". |
| Naming.DecimalValue | tests/test_instances/generate.py:68 | `str(n)` reads back as n. |
| Naming.LeadingZerosValue | tests/test_instances/generate.py:68 | Leading zeros do not change the value a digit string denotes. |
| Naming.Pad4Props | tests/test_instances/generate.py:68 | `{index:04d}` is max(4, number of digits) long, all digits, and reads back as the index. |
| Naming.FileNameInjective | tests/test_instances/generate.py:68 | Within one batch and directory, two indices give the same file name exactly when they are equal. |
| Naming.FileNameExample | tests/test_instances/generate.py:68 | The fixture at index 1 of batch "S" is "/instanceS0001.abc.yaml". |
| Naming.Pad4Wide | tests/test_instances/generate.py:68 | Index 12345 is written as "12345", with no truncation. |
| Naming.IntToStringNotWord | tests/test_instances/generate.py:110-115 | `str(i)` is non-empty and starts with a minus sign or a digit, so it never reads as "committeesize" or "None". |
| Naming.DescriptionExample | tests/test_instances/generate.py:110-115 | The tuple (3, 8, 6, "IC", 3) is described as "profile generated via prob_distribution=IC, num_voters=8, num_cand=6, setsize=3". |
| Naming.DescriptionSetSize | tests/test_instances/generate.py:110-115 | The description ends with the printed set size. That text is "committeesize" exactly for the sentinel, "None" exactly for `None`, and `str(n)` for a number n. |
| Driver.WriteFixture | tests/test_instances/generate.py:66-117 | The loop body for one tuple returns exactly `MakeFixture`: the file name, the gate's profile, the registry's expansion, and the stream state after the accepted draw. |
| Driver.GenerateTestInstances | tests/test_instances/generate.py:45-117 | The batch loop writes exactly `RunBatch` over `Enumerate(axes)`. Without an error, `num_instances` equals the number of enumerated tuples and of fixtures written. After an error, it is one more than the fixtures written. |
| Driver.RunBatchPrefixFails | tests/test_instances/generate.py:58-117 | An error on a tuple ends the batch. Nothing is written for later tuples. |
| Driver.MakeFixtureSound | tests/test_instances/generate.py:66-117 | Each fixture has the index's file name, the tuple's committee size and description, and an accepted profile. Its rule instances are the registry's expansion on that profile. |
| Driver.RunBatchLength | tests/test_instances/generate.py:58-117 | Without an error, one fixture is written per tuple. With one, fewer are written. |
| Driver.RunBatchFixtureAt | tests/test_instances/generate.py:58-117 | The i-th fixture is made for the i-th tuple under the i-th file name and satisfies `MakeFixtureSound`'s properties. |
| Driver.BatchFixturesFeasible | tests/test_instances/generate.py:47-117 | Every fixture written belongs to an enumerated tuple whose committee size is below its number of candidates. Its profile passed the gate for that committee size. |
| Driver.EnumeratedDescription | tests/test_instances/generate.py:110-115 | The description of every enumerated tuple never shows the sentinel. Its set size is the tuple's committee size where the axis value was the sentinel, and the axis value otherwise. |

## Left out

- Random sampling. `genprofiles.random_*_profile` is the abstract function `env.draw`, indexed by stream position. A position counts draws, not the random numbers a generator consumes. Whether the generators' outputs are valid profiles is not modelled. `env.draw` is total, so an exception raised inside a `genprofiles` generator is not modelled. In the source such an exception escapes `generate_profile`, because the generator calls sit outside the `try` around the approved-candidates check. Draws are keyed by stream position and request, so two batches that reach the same position with the same request get the same profile, whereas the source's generators may have consumed different amounts of randomness by then. Within one batch each position is drawn at most once, so no property stated here depends on this.
- Sampler.GenerateProfile: the source's `while True` loop may run forever. The model stops at `env.limit` draws and reports `StreamExhausted`. `Gate.DrawAcceptedProfile` does the same for the gate loop.
- Sampler.Dispatch: `float()` on the Mallows and Urn suffixes is the abstract predicate `env.parsesAsFloat`. The suffix is passed on as a string rather than as a floating-point number.
- Sampler.EnoughApprovedCandidates: `check_enough_approved_candidates` (abcvoting.misc) is not part of this model. It is defined as "the ballots approve at least `committeesize` distinct candidates".
- The voting-rule solvers (`abcrules.compute`) are the abstract function `env.solve`. A solve that raises returns `None`.
- The rule registry (`abcrules.MAIN_RULE_IDS`, `abcrules.get_rule`) is the abstract sequence `env.registry` of rule ids with their `resolute_values`. The actual list of rules is not part of this model.
- YAML writing (`fileio.write_abcvoting_instance_to_yaml_file`) is modelled as appending a `Fixture` record. The file format is not modelled.
- The directory of the script (`os.path.dirname(os.path.abspath(__file__))`) is the parameter `dir`.
- The progress `print` output is not modelled.
- The `__main__` batch configurations are static data. `Enumeration.EnumerateExample` is a worked example of the same shape.
- Set-size axis values other than integers, the `"committeesize"` sentinel and `None` are not modelled.
- Negative integers are formatted with a minus sign for descriptions. `{index:04d}` is only applied to non-negative indices.
