/** The distinctness gate (generate.py lines 71-83): draw profiles until
    the AV and PAV rules, asked for all their winning committees, share no
    committee, or take the first profile when the gate is off. */
module Gate {
  import opened Common
  import opened Sampler

  // ---------------------------------------------------------------------------
  // Committee normalisation: `tuple(sorted(committee))`
  // ---------------------------------------------------------------------------

  predicate Sorted(s: seq<nat>)
  {
    forall i, j :: 0 <= i < j < |s| ==> s[i] <= s[j]
  }

  function InsertSorted(x: nat, s: seq<nat>): seq<nat>
  {
    if s == [] || x <= s[0] then [x] + s else [s[0]] + InsertSorted(x, s[1..])
  }

  /** `tuple(sorted(committee))` */
  function SortedTuple(c: Committee): seq<nat>
  {
    if c == [] then [] else InsertSorted(c[0], SortedTuple(c[1..]))
  }

  lemma {:induction false} InsertSortedMultiset(x: nat, s: seq<nat>)
    ensures multiset(InsertSorted(x, s)) == multiset(s) + multiset{x}
  {
    if !(s == [] || x <= s[0]) {
      InsertSortedMultiset(x, s[1..]);
      assert s == [s[0]] + s[1..];
    }
  }

  lemma SortedCons(y: nat, u: seq<nat>)
    requires Sorted(u)
    requires u == [] || y <= u[0]
    ensures Sorted([y] + u)
  {
    var r := [y] + u;
    forall i, j | 0 <= i < j < |r| ensures r[i] <= r[j] {
      if i == 0 && j > 1 {
        assert u[0] <= u[j - 1];
      }
    }
  }

  lemma {:induction false} InsertSortedSorted(x: nat, s: seq<nat>)
    requires Sorted(s)
    ensures Sorted(InsertSorted(x, s))
  {
    if s == [] || x <= s[0] {
      SortedCons(x, s);
    } else {
      var t := s[1..];
      assert Sorted(t);
      InsertSortedSorted(x, t);
      var u := InsertSorted(x, t);
      assert u[0] == x || u[0] == t[0];
      SortedCons(s[0], u);
    }
  }

  /** The normal form is sorted and holds the committee's members. */
  lemma {:induction false} SortedTupleProps(c: Committee)
    ensures Sorted(SortedTuple(c))
    ensures multiset(SortedTuple(c)) == multiset(c)
  {
    if c != [] {
      SortedTupleProps(c[1..]);
      InsertSortedMultiset(c[0], SortedTuple(c[1..]));
      InsertSortedSorted(c[0], SortedTuple(c[1..]));
      assert c == [c[0]] + c[1..];
    }
  }

  lemma SortedHeadIsLeast(a: seq<nat>, x: nat)
    requires Sorted(a) && x in a
    ensures a[0] <= x
  {
    var i :| 0 <= i < |a| && a[i] == x;
  }

  /** A sorted sequence is determined by its elements. */
  lemma {:induction false} SortedDetermined(a: seq<nat>, b: seq<nat>)
    requires Sorted(a) && Sorted(b)
    requires multiset(a) == multiset(b)
    ensures a == b
  {
    assert |a| == |multiset(a)| == |multiset(b)| == |b|;
    if a != [] {
      assert a[0] in multiset(b) && b[0] in multiset(a);
      SortedHeadIsLeast(b, a[0]);
      SortedHeadIsLeast(a, b[0]);
      var x := a[0];
      assert x == b[0];
      assert a == [x] + a[1..];
      assert b == [x] + b[1..];
      assert multiset(a) == multiset{x} + multiset(a[1..]) by { assert a == [x] + a[1..]; }
      assert multiset(b) == multiset{x} + multiset(b[1..]) by { assert b == [x] + b[1..]; }
      calc {
        multiset(a[1..]);
        (multiset{x} + multiset(a[1..])) - multiset{x};
        multiset(b) - multiset{x};
        (multiset{x} + multiset(b[1..])) - multiset{x};
        multiset(b[1..]);
      }
      assert Sorted(a[1..]);
      assert Sorted(b[1..]);
      SortedDetermined(a[1..], b[1..]);
    }
  }

  /** Two committees have the same normal form exactly when they have the
      same members, whatever order the solver listed them in. */
  lemma SortedTupleSameMembers(c1: Committee, c2: Committee)
    ensures SortedTuple(c1) == SortedTuple(c2) <==> multiset(c1) == multiset(c2)
  {
    SortedTupleProps(c1);
    SortedTupleProps(c2);
    if multiset(c1) == multiset(c2) {
      SortedDetermined(SortedTuple(c1), SortedTuple(c2));
    }
  }

  // ---------------------------------------------------------------------------
  // The intersection test of lines 79-82
  // ---------------------------------------------------------------------------

  /** `set(tuple(sorted(committee)) for committee in committees)` */
  function Normalised(committees: seq<Committee>): set<seq<nat>>
  {
    set i | 0 <= i < |committees| :: SortedTuple(committees[i])
  }

  /** The intersection of lines 79-81 is non-empty. */
  predicate SharesCommittee(av: seq<Committee>, pav: seq<Committee>)
  {
    Normalised(pav) * Normalised(av) != {}
  }

  /** The two rules share a committee exactly when some AV committee and
      some PAV committee have the same members. */
  lemma SharesCommitteeIff(av: seq<Committee>, pav: seq<Committee>)
    ensures SharesCommittee(av, pav) <==>
            exists i, j :: 0 <= i < |av| && 0 <= j < |pav| && multiset(av[i]) == multiset(pav[j])
  {
    if SharesCommittee(av, pav) {
      var t :| t in Normalised(pav) * Normalised(av);
      var j :| 0 <= j < |pav| && SortedTuple(pav[j]) == t;
      var i :| 0 <= i < |av| && SortedTuple(av[i]) == t;
      SortedTupleSameMembers(av[i], pav[j]);
    }
    if exists i, j :: 0 <= i < |av| && 0 <= j < |pav| && multiset(av[i]) == multiset(pav[j]) {
      var i, j :| 0 <= i < |av| && 0 <= j < |pav| && multiset(av[i]) == multiset(pav[j]);
      SortedTupleSameMembers(av[i], pav[j]);
      assert SortedTuple(av[i]) in Normalised(pav) * Normalised(av);
    }
  }

  // ---------------------------------------------------------------------------
  // The gate loop
  // ---------------------------------------------------------------------------

  /** The profile passes the gate: both reference rules' irresolute solvers
      answer, and, when `avNeqPav` is set, they share no committee. */
  predicate Accepted(p: Profile, committeeSize: int, avNeqPav: bool, env: Env)
  {
    && env.solve("av", p, committeeSize, false).Some?
    && env.solve("pav", p, committeeSize, false).Some?
    && (avNeqPav ==> !SharesCommittee(env.solve("av", p, committeeSize, false).value,
                                      env.solve("pav", p, committeeSize, false).value))
  }

  /** What the loop of lines 71-83 leaves in `profile` (with the stream state
      after it), or the error that ends the scenario. */
  function DrawAccepted(s: Scenario, avNeqPav: bool, env: Env, st: RandomState): (r: Outcome<Sample>)
    ensures r.Ok? ==> st.pos < r.value.state.pos <= env.limit && r.value.state.seed == st.seed
    decreases env.limit - st.pos
  {
    match SampleFrom(s, env, st)
    case Fail(e) => Fail(e)
    case Ok(sample) =>
      match env.solve("av", sample.profile, s.committeeSize, false)
      case None => Fail(SolverFailed("av"))
      case Some(av) =>
        match env.solve("pav", sample.profile, s.committeeSize, false)
        case None => Fail(SolverFailed("pav"))
        case Some(pav) =>
          if !avNeqPav then Ok(sample)
          else if !SharesCommittee(av, pav) then Ok(sample)
          else DrawAccepted(s, avNeqPav, env, sample.state)
  }

  /** Lines 71-83. */
  method DrawAcceptedProfile(s: Scenario, avNeqPav: bool, env: Env, st: RandomState)
    returns (r: Outcome<Sample>)
    ensures r == DrawAccepted(s, avNeqPav, env, st)
  {
    var state := st;
    while true
      invariant DrawAccepted(s, avNeqPav, env, state) == DrawAccepted(s, avNeqPav, env, st)
      decreases env.limit - state.pos
    {
      var sampled := GenerateProfile(s, env, state);
      if sampled.Fail? {
        return Fail(sampled.error);
      }
      var profile := sampled.value.profile;
      var committeesAv := env.solve("av", profile, s.committeeSize, false);
      if committeesAv.None? {
        return Fail(SolverFailed("av"));
      }
      var committeesPav := env.solve("pav", profile, s.committeeSize, false);
      if committeesPav.None? {
        return Fail(SolverFailed("pav"));
      }
      if !avNeqPav {
        return Ok(sampled.value);
      }
      if !SharesCommittee(committeesAv.value, committeesPav.value) {
        return Ok(sampled.value);
      }
      state := sampled.value.state;
    }
  }

  /** An accepted profile passed the approved-candidates check and the gate. */
  lemma {:induction false} DrawAcceptedSound(s: Scenario, avNeqPav: bool, env: Env, st: RandomState)
    requires DrawAccepted(s, avNeqPav, env, st).Ok?
    ensures EnoughApprovedCandidates(DrawAccepted(s, avNeqPav, env, st).value.profile, s.committeeSize)
    ensures Accepted(DrawAccepted(s, avNeqPav, env, st).value.profile, s.committeeSize, avNeqPav, env)
    decreases env.limit - st.pos
  {
    var sample := SampleFrom(s, env, st).value;
    var p := sample.profile;
    if avNeqPav && SharesCommittee(env.solve("av", p, s.committeeSize, false).value,
                                   env.solve("pav", p, s.committeeSize, false).value) {
      DrawAcceptedSound(s, avNeqPav, env, sample.state);
    }
  }

  /** With the gate off, the first profile `generate_profile` returns is
      the one kept, provided both reference solvers answer on it. */
  lemma GateOffTakesFirst(s: Scenario, env: Env, st: RandomState)
    requires SampleFrom(s, env, st).Ok?
    requires Accepted(SampleFrom(s, env, st).value.profile, s.committeeSize, false, env)
    ensures DrawAccepted(s, false, env, st) == SampleFrom(s, env, st)
  {
  }

  /** With the gate on, every profile the loop skipped was feasible but had
      a committee both reference rules return. */
  lemma GateOnSkipsShared(s: Scenario, env: Env, st: RandomState)
    requires SampleFrom(s, env, st).Ok?
    requires env.solve("av", SampleFrom(s, env, st).value.profile, s.committeeSize, false).Some?
    requires env.solve("pav", SampleFrom(s, env, st).value.profile, s.committeeSize, false).Some?
    requires SharesCommittee(
               env.solve("av", SampleFrom(s, env, st).value.profile, s.committeeSize, false).value,
               env.solve("pav", SampleFrom(s, env, st).value.profile, s.committeeSize, false).value)
    ensures DrawAccepted(s, true, env, st) == DrawAccepted(s, true, env, SampleFrom(s, env, st).value.state)
  {
  }
}
