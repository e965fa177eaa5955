/** `generate_profile` (generate.py lines 11-33): dispatch on the
    distribution tag, draw a profile, and draw again until the profile has
    enough approved candidates for the committee size. */
module Sampler {
  import opened Common

  /** `s.startswith(p)` */
  predicate HasPrefix(s: string, p: string)
  {
    |p| <= |s| && s[..|p|] == p
  }

  /** The tags some dispatch branch accepts: "IC" and "IC-party" exactly,
      anything starting with "Mallows" or "Urn". */
  predicate KnownTag(tag: string)
  {
    tag == "IC" || HasPrefix(tag, "Mallows") || HasPrefix(tag, "Urn") || tag == "IC-party"
  }

  /** Number of parties the party-list generator is always asked for. */
  const PartyCount := 3

  /** The if/elif chain of lines 13-28 for one scenario: which generator is
      asked for what, or the `ValueError` that escapes (an unknown tag, or a
      Mallows/Urn suffix `float()` rejects). */
  function Dispatch(s: Scenario, parsesAsFloat: string -> bool): (r: Outcome<Request>)
    ensures r == Fail(UnknownDistribution(s.distribution)) <==> !KnownTag(s.distribution)
    ensures r.Ok? ==> r.value.numCand == s.numCand && r.value.numVoters == s.numVoters
    ensures r.Ok? && r.value.PartyListRequest? <==> s.distribution == "IC-party"
    ensures r.Ok? && r.value.PartyListRequest? ==> r.value.numParties == PartyCount
    ensures r.Ok? && !r.value.PartyListRequest? ==> r.value.setSize == s.setSize
    ensures r.Ok? && r.value.ICRequest? <==> s.distribution == "IC"
    ensures r.Ok? && r.value.MallowsRequest? <==>
              HasPrefix(s.distribution, "Mallows") && parsesAsFloat(s.distribution[7..])
    ensures r.Ok? && r.value.MallowsRequest? ==> r.value.dispersion == s.distribution[7..]
    ensures r.Ok? && r.value.UrnRequest? <==>
              HasPrefix(s.distribution, "Urn") && parsesAsFloat(s.distribution[3..])
    ensures r.Ok? && r.value.UrnRequest? ==> r.value.replace == s.distribution[3..]
    ensures r == Fail(BadDistributionParameter(s.distribution)) <==>
              (HasPrefix(s.distribution, "Mallows") && !parsesAsFloat(s.distribution[7..]))
              || (HasPrefix(s.distribution, "Urn") && !parsesAsFloat(s.distribution[3..]))
    ensures r.Fail? ==> r.error in {UnknownDistribution(s.distribution),
                                    BadDistributionParameter(s.distribution)}
  {
    var tag := s.distribution;
    // The four branches are disjoint: the tags differ in their first letter.
    assert HasPrefix(tag, "Mallows") ==> tag[0] == 'M' by {
      if HasPrefix(tag, "Mallows") { assert tag[0] == tag[..7][0]; }
    }
    assert HasPrefix(tag, "Urn") ==> tag[0] == 'U' by {
      if HasPrefix(tag, "Urn") { assert tag[0] == tag[..3][0]; }
    }
    if tag == "IC" then
      Ok(ICRequest(s.numCand, s.numVoters, s.setSize))
    else if HasPrefix(tag, "Mallows") then
      if parsesAsFloat(tag[7..]) then Ok(MallowsRequest(s.numCand, s.numVoters, s.setSize, tag[7..]))
      else Fail(BadDistributionParameter(tag))
    else if HasPrefix(tag, "Urn") then
      if parsesAsFloat(tag[3..]) then Ok(UrnRequest(s.numCand, s.numVoters, s.setSize, tag[3..]))
      else Fail(BadDistributionParameter(tag))
    else if tag == "IC-party" then
      Ok(PartyListRequest(s.numCand, s.numVoters, PartyCount))
    else
      Fail(UnknownDistribution(tag))
  }

  /** The candidates approved by at least one voter. */
  function ApprovedCandidates(p: Profile): set<nat>
  {
    if p == [] then {} else ApprovedCandidates(p[..|p| - 1]) + p[|p| - 1]
  }

  /** A candidate is approved exactly when some voter's ballot contains it. */
  lemma {:induction false} ApprovedCandidatesMember(p: Profile, c: nat)
    ensures c in ApprovedCandidates(p) <==> exists v :: 0 <= v < |p| && c in p[v]
  {
    if p != [] {
      var init := p[..|p| - 1];
      ApprovedCandidatesMember(init, c);
      assert forall v :: 0 <= v < |init| ==> init[v] == p[v];
    }
  }

  /** `check_enough_approved_candidates(profile, committeesize)` does not raise. */
  predicate EnoughApprovedCandidates(p: Profile, committeeSize: int)
  {
    |ApprovedCandidates(p)| >= committeeSize
  }

  /** The stream state after one more draw. */
  function Next(st: RandomState): RandomState
  {
    RandomState(st.seed, st.pos + 1)
  }

  /** The retry loop for one dispatched request, starting at stream state `st`. */
  function Retry(req: Request, committeeSize: int, env: Env, st: RandomState): (r: Outcome<Sample>)
    ensures r.Ok? ==> st.pos < r.value.state.pos <= env.limit && r.value.state.seed == st.seed
    ensures r.Ok? ==> EnoughApprovedCandidates(r.value.profile, committeeSize)
    ensures r.Fail? ==> r.error == StreamExhausted
    decreases env.limit - st.pos
  {
    if st.pos >= env.limit then Fail(StreamExhausted)
    else
      var p := env.draw(st, req);
      if EnoughApprovedCandidates(p, committeeSize) then Ok(Sample(p, Next(st)))
      else Retry(req, committeeSize, env, Next(st))
  }

  /** What `generate_profile` returns (or raises) for scenario `s` when the
      random stream starts in state `st`. It raises exactly for the tags
      outside the closed set and for a Mallows/Urn suffix `float()` rejects;
      any profile it returns passed the approved-candidates check for the
      scenario's committee size and was drawn from the stream after `st`. */
  function SampleFrom(s: Scenario, env: Env, st: RandomState): (r: Outcome<Sample>)
    ensures r == Fail(UnknownDistribution(s.distribution)) <==> !KnownTag(s.distribution)
    ensures r.Fail? && r.error != StreamExhausted <==> Dispatch(s, env.parsesAsFloat).Fail?
    ensures Dispatch(s, env.parsesAsFloat).Fail? ==> r == Fail(Dispatch(s, env.parsesAsFloat).error)
    ensures r.Ok? ==> EnoughApprovedCandidates(r.value.profile, s.committeeSize)
    ensures r.Ok? ==> st.pos < r.value.state.pos <= env.limit && r.value.state.seed == st.seed
  {
    match Dispatch(s, env.parsesAsFloat)
    case Fail(e) => Fail(e)
    case Ok(req) => Retry(req, s.committeeSize, env, st)
  }

  /** Lines 11-33. The dispatch stays inside the loop, as in the source. */
  method GenerateProfile(s: Scenario, env: Env, st: RandomState) returns (r: Outcome<Sample>)
    ensures r == SampleFrom(s, env, st)
  {
    var state := st;
    while true
      invariant state.seed == st.seed && st.pos <= state.pos
      invariant Dispatch(s, env.parsesAsFloat).Ok? ==>
                Retry(Dispatch(s, env.parsesAsFloat).value, s.committeeSize, env, state)
                == SampleFrom(s, env, st)
      decreases env.limit - state.pos
    {
      var request := Dispatch(s, env.parsesAsFloat);
      if request.Fail? {
        return Fail(request.error);
      }
      if state.pos >= env.limit {
        return Fail(StreamExhausted);
      }
      var profile := env.draw(state, request.value);
      state := Next(state);
      if EnoughApprovedCandidates(profile, s.committeeSize) {
        return Ok(Sample(profile, state));
      }
    }
  }

  /** The retry loop returns the first feasible draw: every earlier draw
      from the stream failed the approved-candidates check. */
  lemma {:induction false} RetryFirstFeasible(req: Request, k: int, env: Env, st: RandomState)
    requires Retry(req, k, env, st).Ok?
    ensures Retry(req, k, env, st).value.profile
            == env.draw(RandomState(st.seed, Retry(req, k, env, st).value.state.pos - 1), req)
    ensures forall j :: st.pos <= j < Retry(req, k, env, st).value.state.pos - 1 ==>
              !EnoughApprovedCandidates(env.draw(RandomState(st.seed, j), req), k)
    decreases env.limit - st.pos
  {
    assert st == RandomState(st.seed, st.pos);
    var p := env.draw(st, req);
    if !EnoughApprovedCandidates(p, k) {
      var out := Retry(req, k, env, st).value;
      assert Retry(req, k, env, st) == Retry(req, k, env, Next(st));
      RetryFirstFeasible(req, k, env, Next(st));
      forall j | st.pos <= j < out.state.pos - 1
        ensures !EnoughApprovedCandidates(env.draw(RandomState(st.seed, j), req), k)
      {
        if j == st.pos {
          assert RandomState(st.seed, j) == st;
        }
      }
    }
  }

  /** The loop gives up only at the stream bound, after every draw from `st`
      on failed the check. */
  lemma {:induction false} RetryExhausted(req: Request, k: int, env: Env, st: RandomState)
    requires Retry(req, k, env, st).Fail?
    ensures forall j :: st.pos <= j < env.limit ==>
              !EnoughApprovedCandidates(env.draw(RandomState(st.seed, j), req), k)
    decreases env.limit - st.pos
  {
    if st.pos < env.limit {
      RetryExhausted(req, k, env, Next(st));
    }
  }
}
