/** Rule-instance expansion (generate.py lines 85-104): for every rule of
    the registry, one solver call, then one record per supported `resolute`
    value, all carrying that call's committees. */
module Oracle {
  import opened Common

  /** One entry of `compute_instances` in the fixture. */
  datatype RuleInstance = RuleInstance(ruleId: string, resolute: bool, expectedCommittees: seq<Committee>)

  /** Lines 95-98: the single computation is irresolute whenever the rule
      supports irresolute mode. */
  function ComputationMode(rule: Rule): bool
  {
    if false in rule.resoluteValues then false else true
  }

  /** Lines 101-104 for one rule: a record per supported `resolute` value. */
  function RecordsFor(rule: Rule, committees: seq<Committee>): seq<RuleInstance>
  {
    seq(|rule.resoluteValues|, i requires 0 <= i < |rule.resoluteValues| =>
      RuleInstance(rule.id, rule.resoluteValues[i], committees))
  }

  /** The `rule_instances` list for a registry, or the failure of the first
      rule whose solver raises. */
  function Expand(registry: seq<Rule>, solve: (string, Profile, int, bool) -> Option<seq<Committee>>,
                  p: Profile, committeeSize: int): Outcome<seq<RuleInstance>>
  {
    if registry == [] then Ok([])
    else
      match Expand(registry[..|registry| - 1], solve, p, committeeSize)
      case Fail(e) => Fail(e)
      case Ok(prev) =>
        var rule := registry[|registry| - 1];
        match solve(rule.id, p, committeeSize, ComputationMode(rule))
        case None => Fail(SolverFailed(rule.id))
        case Some(committees) => Ok(prev + RecordsFor(rule, committees))
  }

  /** Lines 85-104. */
  method ComputeRuleInstances(env: Env, profile: Profile, committeeSize: int)
    returns (r: Outcome<seq<RuleInstance>>)
    ensures r == Expand(env.registry, env.solve, profile, committeeSize)
  {
    var registry := env.registry;
    var ruleInstances: seq<RuleInstance> := [];
    for j := 0 to |registry|
      invariant Expand(registry[..j], env.solve, profile, committeeSize) == Ok(ruleInstances)
    {
      assert registry[..j + 1][..j] == registry[..j];
      var rule := registry[j];
      var resolute := if false in rule.resoluteValues then false else true;
      var committees := env.solve(rule.id, profile, committeeSize, resolute);
      if committees.None? {
        ExpandPrefixFails(registry, env.solve, profile, committeeSize, j + 1);
        return Fail(SolverFailed(rule.id));
      }
      ghost var before := ruleInstances;
      for i := 0 to |rule.resoluteValues|
        invariant ruleInstances == before + RecordsFor(rule, committees.value)[..i]
      {
        ruleInstances := ruleInstances
          + [RuleInstance(rule.id, rule.resoluteValues[i], committees.value)];
      }
      assert RecordsFor(rule, committees.value)[..|rule.resoluteValues|]
             == RecordsFor(rule, committees.value);
    }
    assert registry[..|registry|] == registry;
    return Ok(ruleInstances);
  }

  /** Once a prefix of the registry fails, the whole expansion fails the same way. */
  lemma {:induction false} ExpandPrefixFails(
    registry: seq<Rule>, solve: (string, Profile, int, bool) -> Option<seq<Committee>>,
    p: Profile, k: int, m: nat)
    requires m <= |registry|
    requires Expand(registry[..m], solve, p, k).Fail?
    ensures Expand(registry, solve, p, k) == Expand(registry[..m], solve, p, k)
    decreases |registry| - m
  {
    if m < |registry| {
      var longer := registry[..m + 1];
      assert longer[..m] == registry[..m];
      assert registry[..m + 1][..m + 1] == longer;
      ExpandPrefixFails(registry, solve, p, k, m + 1);
    } else {
      assert registry[..m] == registry;
    }
  }

  /** Number of records a registry prefix contributes. */
  function TotalModes(registry: seq<Rule>): nat
  {
    if registry == [] then 0
    else TotalModes(registry[..|registry| - 1]) + |registry[|registry| - 1].resoluteValues|
  }

  lemma {:induction false} TotalModesGrows(registry: seq<Rule>, a: nat, b: nat)
    requires a <= b <= |registry|
    ensures TotalModes(registry[..a]) <= TotalModes(registry[..b])
    decreases b - a
  {
    if a < b {
      TotalModesGrows(registry, a, b - 1);
      assert registry[..b][..b - 1] == registry[..b - 1];
    }
  }

  /** The expansion has one record per (rule, supported resolute value). */
  lemma {:induction false} ExpandLength(
    registry: seq<Rule>, solve: (string, Profile, int, bool) -> Option<seq<Committee>>,
    p: Profile, k: int)
    requires Expand(registry, solve, p, k).Ok?
    ensures |Expand(registry, solve, p, k).value| == TotalModes(registry)
  {
    if registry != [] {
      ExpandLength(registry[..|registry| - 1], solve, p, k);
    }
  }

  /** The records of rule `j` start at the number of records of the rules
      before it, follow the order of its `resolute_values`, and all carry the
      committees of one solver call, made irresolute exactly when the rule
      supports irresolute mode. */
  lemma {:induction false} ExpandAt(
    registry: seq<Rule>, solve: (string, Profile, int, bool) -> Option<seq<Committee>>,
    p: Profile, k: int, j: nat, i: nat)
    requires Expand(registry, solve, p, k).Ok?
    requires j < |registry| && i < |registry[j].resoluteValues|
    ensures solve(registry[j].id, p, k, !(false in registry[j].resoluteValues)).Some?
    ensures TotalModes(registry[..j]) + i < |Expand(registry, solve, p, k).value|
    ensures Expand(registry, solve, p, k).value[TotalModes(registry[..j]) + i]
            == RuleInstance(registry[j].id, registry[j].resoluteValues[i],
                            solve(registry[j].id, p, k, !(false in registry[j].resoluteValues)).value)
  {
    var n := |registry| - 1;
    var init := registry[..n];
    var prev := Expand(init, solve, p, k).value;
    ExpandLength(init, solve, p, k);
    ExpandLength(registry, solve, p, k);
    if j == n {
      assert registry[..j] == init;
    } else {
      ExpandAt(init, solve, p, k, j, i);
      assert init[..j] == registry[..j];
      assert init[..j + 1] == registry[..j + 1];
      assert registry[..j + 1][..j] == registry[..j];
      TotalModesGrows(init, j + 1, n);
      assert init[..n] == init;
    }
  }

  /** The expansion fails exactly when some rule's solver raises, and then
      with the first such rule. */
  lemma {:induction false} ExpandFailure(
    registry: seq<Rule>, solve: (string, Profile, int, bool) -> Option<seq<Committee>>,
    p: Profile, k: int)
    ensures Expand(registry, solve, p, k).Fail? <==>
            exists j :: 0 <= j < |registry| &&
              solve(registry[j].id, p, k, ComputationMode(registry[j])).None?
    ensures Expand(registry, solve, p, k).Fail? ==>
            exists j :: 0 <= j < |registry|
              && solve(registry[j].id, p, k, ComputationMode(registry[j])).None?
              && Expand(registry, solve, p, k).error == SolverFailed(registry[j].id)
              && forall j' :: 0 <= j' < j ==>
                   solve(registry[j'].id, p, k, ComputationMode(registry[j'])).Some?
  {
    if registry != [] {
      var n := |registry| - 1;
      var init := registry[..n];
      ExpandFailure(init, solve, p, k);
      assert forall j :: 0 <= j < n ==> init[j] == registry[j];
    }
  }
}
