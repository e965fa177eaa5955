/** The batch driver `generate_abc_yaml_testinstances` (generate.py lines
    36-119): seed the random stream, enumerate the parameter tuples, and for
    each tuple draw an accepted profile, expand the rule instances and write
    one fixture. Writing a fixture is modelled as appending it to the list of
    fixtures written so far. */
module Driver {
  import opened Common
  import opened Enumeration
  import opened Sampler
  import opened Gate
  import opened Oracle
  import opened Naming

  /** Line 45: `random.seed(24121838)`. */
  const Seed := 24121838

  /** The content of one `.abc.yaml` fixture and the path it is written to. */
  datatype Fixture = Fixture(
    fileName: string,
    profile: Profile,
    committeeSize: int,
    description: string,
    computeInstances: seq<RuleInstance>)

  /** The fixtures written so far, the random stream's state, and the error
      that aborted the batch, if one did. */
  datatype Run = Run(written: seq<Fixture>, state: RandomState, failure: Option<Error>)

  /** One pass of the loop body of lines 61-117 for the tuple at `index`. */
  function MakeFixture(dir: string, batch: string, index: nat, s: Scenario, avNeqPav: bool,
                       env: Env, st: RandomState): Outcome<(Fixture, RandomState)>
  {
    match DrawAccepted(s, avNeqPav, env, st)
    case Fail(e) => Fail(e)
    case Ok(sample) =>
      match Expand(env.registry, env.solve, sample.profile, s.committeeSize)
      case Fail(e) => Fail(e)
      case Ok(instances) =>
        Ok((Fixture(FileName(dir, batch, index), sample.profile, s.committeeSize,
                    Description(s), instances),
            sample.state))
  }

  /** The batch run over the first |tuples| parameter tuples. */
  function RunBatch(dir: string, batch: string, avNeqPav: bool, env: Env,
                    tuples: seq<Scenario>): Run
  {
    if tuples == [] then Run([], RandomState(Seed, 0), None)
    else
      var prev := RunBatch(dir, batch, avNeqPav, env, tuples[..|tuples| - 1]);
      if prev.failure.Some? then prev
      else
        match MakeFixture(dir, batch, |tuples| - 1, tuples[|tuples| - 1], avNeqPav, env, prev.state)
        case Fail(e) => Run(prev.written, prev.state, Some(e))
        case Ok((fixture, next)) => Run(prev.written + [fixture], next, None)
  }

  /** Lines 66-117 for the tuple at `index`: the file name, the gate loop,
      the rule-instance expansion and the fixture, with the stream state after
      the accepted draw. */
  method WriteFixture(dir: string, batch: string, index: nat, s: Scenario, avNeqPav: bool,
                      env: Env, st: RandomState)
    returns (r: Outcome<(Fixture, RandomState)>)
    ensures r == MakeFixture(dir, batch, index, s, avNeqPav, env, st)
  {
    var filename := FileName(dir, batch, index);
    var accepted := DrawAcceptedProfile(s, avNeqPav, env, st);
    if accepted.Fail? {
      return Fail(accepted.error);
    }
    var profile := accepted.value.profile;
    var ruleInstances := ComputeRuleInstances(env, profile, s.committeeSize);
    if ruleInstances.Fail? {
      return Fail(ruleInstances.error);
    }
    var fixture := Fixture(filename, profile, s.committeeSize, Description(s), ruleInstances.value);
    return Ok((fixture, accepted.value.state));
  }

  /** Lines 36-119. `numInstances` is the counter of line 64: it counts the
      tuple being processed, so it is one ahead of the fixtures written when
      a tuple fails. */
  method GenerateTestInstances(batch: string, x: Axes, avNeqPav: bool, dir: string, env: Env)
    returns (written: seq<Fixture>, numInstances: nat, failure: Option<Error>)
    ensures written == RunBatch(dir, batch, avNeqPav, env, Enumerate(x)).written
    ensures failure == RunBatch(dir, batch, avNeqPav, env, Enumerate(x)).failure
    ensures failure.None? ==> numInstances == |Enumerate(x)| == |written|
    ensures failure.Some? ==> numInstances == |written| + 1 <= |Enumerate(x)|
  {
    var state := RandomState(Seed, 0);
    var parameterTuples := EnumerateScenarios(x);
    written, numInstances, failure := [], 0, None;
    for index := 0 to |parameterTuples|
      invariant RunBatch(dir, batch, avNeqPav, env, parameterTuples[..index]) == Run(written, state, None)
      invariant numInstances == index == |written|
    {
      numInstances := numInstances + 1;
      var made := WriteFixture(dir, batch, index, parameterTuples[index], avNeqPav, env, state);
      RunBatchStep(dir, batch, avNeqPav, env, parameterTuples, index, written, state, made);
      if made.Fail? {
        failure := Some(made.error);
        RunBatchPrefixFails(dir, batch, avNeqPav, env, parameterTuples, index + 1);
        return;
      }
      written := written + [made.value.0];
      state := made.value.1;
    }
    assert parameterTuples[..|parameterTuples|] == parameterTuples;
  }

  /** One more tuple after a prefix that did not abort: the run either
      aborts with the fixture's error or appends the fixture. */
  lemma RunBatchStep(dir: string, batch: string, avNeqPav: bool, env: Env,
                     tuples: seq<Scenario>, n: nat, written: seq<Fixture>, state: RandomState,
                     made: Outcome<(Fixture, RandomState)>)
    requires n < |tuples|
    requires RunBatch(dir, batch, avNeqPav, env, tuples[..n]) == Run(written, state, None)
    requires made == MakeFixture(dir, batch, n, tuples[n], avNeqPav, env, state)
    ensures made.Fail? ==>
              RunBatch(dir, batch, avNeqPav, env, tuples[..n + 1]) == Run(written, state, Some(made.error))
    ensures made.Ok? ==>
              RunBatch(dir, batch, avNeqPav, env, tuples[..n + 1])
              == Run(written + [made.value.0], made.value.1, None)
  {
    assert tuples[..n + 1][..n] == tuples[..n];
  }

  /** An aborted prefix aborts the whole batch, with nothing written after it. */
  lemma {:induction false} RunBatchPrefixFails(dir: string, batch: string, avNeqPav: bool, env: Env,
                                               tuples: seq<Scenario>, m: nat)
    requires m <= |tuples|
    requires RunBatch(dir, batch, avNeqPav, env, tuples[..m]).failure.Some?
    ensures RunBatch(dir, batch, avNeqPav, env, tuples) == RunBatch(dir, batch, avNeqPav, env, tuples[..m])
    decreases |tuples| - m
  {
    if m < |tuples| {
      assert tuples[..m + 1][..m] == tuples[..m];
      RunBatchPrefixFails(dir, batch, avNeqPav, env, tuples, m + 1);
    } else {
      assert tuples[..m] == tuples;
    }
  }

  /** What the fixture written for tuple `s` at position `index` holds. */
  ghost predicate FixtureFor(f: Fixture, dir: string, batch: string, index: nat, s: Scenario,
                             avNeqPav: bool, env: Env)
  {
    && f.fileName == FileName(dir, batch, index)
    && f.committeeSize == s.committeeSize
    && f.description == Description(s)
    && EnoughApprovedCandidates(f.profile, s.committeeSize)
    && Accepted(f.profile, s.committeeSize, avNeqPav, env)
    && Expand(env.registry, env.solve, f.profile, s.committeeSize) == Ok(f.computeInstances)
  }

  lemma MakeFixtureSound(dir: string, batch: string, index: nat, s: Scenario, avNeqPav: bool,
                         env: Env, st: RandomState)
    requires MakeFixture(dir, batch, index, s, avNeqPav, env, st).Ok?
    ensures FixtureFor(MakeFixture(dir, batch, index, s, avNeqPav, env, st).value.0,
                       dir, batch, index, s, avNeqPav, env)
  {
    DrawAcceptedSound(s, avNeqPav, env, st);
  }

  /** A run writes one fixture per tuple unless it aborts, and then it has
      written fewer. */
  lemma {:induction false} RunBatchLength(dir: string, batch: string, avNeqPav: bool, env: Env,
                                          tuples: seq<Scenario>)
    ensures RunBatch(dir, batch, avNeqPav, env, tuples).failure.None?
            ==> |RunBatch(dir, batch, avNeqPav, env, tuples).written| == |tuples|
    ensures RunBatch(dir, batch, avNeqPav, env, tuples).failure.Some?
            ==> |RunBatch(dir, batch, avNeqPav, env, tuples).written| < |tuples|
  {
    if tuples != [] {
      RunBatchLength(dir, batch, avNeqPav, env, tuples[..|tuples| - 1]);
    }
  }

  /** The fixture at position i was made for the i-th tuple, under the i-th
      file name, from a profile that passed the approved-candidates check and
      the gate, with the rule instances the registry expands to on it. */
  lemma {:induction false} RunBatchFixtureAt(dir: string, batch: string, avNeqPav: bool, env: Env,
                                             tuples: seq<Scenario>, i: nat)
    requires i < |RunBatch(dir, batch, avNeqPav, env, tuples).written|
    ensures i < |tuples|
    ensures FixtureFor(RunBatch(dir, batch, avNeqPav, env, tuples).written[i],
                       dir, batch, i, tuples[i], avNeqPav, env)
  {
    assert tuples != [];
    var n := |tuples| - 1;
    var init := tuples[..n];
    var prev := RunBatch(dir, batch, avNeqPav, env, init);
    var w := RunBatch(dir, batch, avNeqPav, env, tuples).written;
    RunBatchLength(dir, batch, avNeqPav, env, init);
    if i < |prev.written| {
      RunBatchFixtureAt(dir, batch, avNeqPav, env, init, i);
      assert init[i] == tuples[i];
      assert w[i] == prev.written[i];
      assert FixtureFor(prev.written[i], dir, batch, i, init[i], avNeqPav, env);
    } else {
      var made := MakeFixture(dir, batch, n, tuples[n], avNeqPav, env, prev.state);
      assert prev.failure.None? && made.Ok?;
      assert w == prev.written + [made.value.0];
      assert i == n && w[i] == made.value.0;
      MakeFixtureSound(dir, batch, n, tuples[n], avNeqPav, env, prev.state);
      assert FixtureFor(made.value.0, dir, batch, n, tuples[n], avNeqPav, env);
    }
  }

  /** Every fixture a batch writes belongs to a feasible enumerated tuple:
      its committee size is below that tuple's number of candidates, and its
      profile passed the gate for that committee size. */
  lemma BatchFixturesFeasible(dir: string, batch: string, avNeqPav: bool, env: Env, x: Axes, i: nat)
    requires i < |RunBatch(dir, batch, avNeqPav, env, Enumerate(x)).written|
    ensures i < |Enumerate(x)|
    ensures RunBatch(dir, batch, avNeqPav, env, Enumerate(x)).written[i].committeeSize
            < Enumerate(x)[i].numCand
    ensures Accepted(RunBatch(dir, batch, avNeqPav, env, Enumerate(x)).written[i].profile,
                     Enumerate(x)[i].committeeSize, avNeqPav, env)
  {
    RunBatchFixtureAt(dir, batch, avNeqPav, env, Enumerate(x), i);
    EnumerateResolved(x, Enumerate(x)[i]);
  }

  /** The description of every enumerated tuple shows a concrete set size:
      never the sentinel word, and the tuple's committee size where the axis
      value was the sentinel. */
  lemma EnumeratedDescription(x: Axes, s: Scenario)
    requires s in Enumerate(x)
    ensures SetSizeToString(s.setSize) != "committeesize"
    ensures exists v :: v in x.setSizes &&
              SetSizeToString(s.setSize)
              == (if v == CommitteeSizeTag then IntToString(s.committeeSize) else SetSizeToString(v))
  {
    EnumerateResolved(x, s);
    DescriptionSetSize(s);
    var v :| v in x.setSizes &&
             s.setSize == (if v == CommitteeSizeTag then Count(s.committeeSize) else v);
  }
}
