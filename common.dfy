/** Shared vocabulary of the reference-instance generator: scenarios, profiles,
    committees, the explicit random-stream handle and the failure outcomes. */
module Common {

  /** Why a generation step stops. The first two are the `ValueError`s that
      `generate_profile` lets escape; the last stands for a retry loop that
      has used up the part of the random stream this model looks at. */
  datatype Error =
    | UnknownDistribution(tag: string)     // no dispatch branch matches the tag
    | BadDistributionParameter(tag: string) // `float(...)` rejects the tag's suffix
    | SolverFailed(ruleId: string)          // a rule's solver raised
    | StreamExhausted                       // retry loop still running at the stream bound

  datatype Outcome<+T> = Ok(value: T) | Fail(error: Error)

  datatype Option<+T> = None | Some(value: T)

  /** An approval ballot: the candidates one voter approves of. */
  type Ballot = set<nat>

  /** A profile: one ballot per voter, in voter order. */
  type Profile = seq<Ballot>

  /** A committee as a solver lists it (its member order is not significant). */
  type Committee = seq<nat>

  /** An approval-set size axis value: a number, the sentinel string
      "committeesize", or Python's `None`. */
  datatype SetSize = Count(n: int) | CommitteeSizeTag | NoSize

  /** One parameter tuple `(committeesize, num_voters, num_cand, prob_distribution, setsize)`. */
  datatype Scenario = Scenario(
    committeeSize: int,
    numVoters: int,
    numCand: int,
    distribution: string,
    setSize: SetSize)

  /** The process-wide random stream, made explicit: the seed it was last
      reset with and how many sampler draws have been taken from it since. */
  datatype RandomState = RandomState(seed: int, pos: nat)

  /** A sampled profile together with the stream state after it was drawn. */
  datatype Sample = Sample(profile: Profile, state: RandomState)

  /** What the tag dispatch of `generate_profile` asks a ballot generator
      for. The Mallows dispersion and the Urn replace rate stay the unparsed
      text after the tag prefix. */
  datatype Request =
    | ICRequest(numCand: int, numVoters: int, setSize: SetSize)
    | MallowsRequest(numCand: int, numVoters: int, setSize: SetSize, dispersion: string)
    | UrnRequest(numCand: int, numVoters: int, setSize: SetSize, replace: string)
    | PartyListRequest(numCand: int, numVoters: int, numParties: int)

  /** A registry entry: a rule id and the `resolute` values the rule supports, in order. */
  datatype Rule = Rule(id: string, resoluteValues: seq<bool>)

  /** The collaborators the generator calls but does not implement.
      - `parsesAsFloat`: whether Python's `float()` accepts a string;
      - `draw`: the profile the generator for a request returns when the
        random stream is in a given state;
      - `solve`: `abcrules.compute(rule_id, profile, committeesize, resolute)`,
        `None` when it raises;
      - `registry`: `abcrules.MAIN_RULE_IDS` with each rule's `resolute_values`;
      - `limit`: the stream position at which this model stops following a
        retry loop (the source would keep drawing). */
  datatype Env = Env(
    parsesAsFloat: string -> bool,
    draw: (RandomState, Request) -> Profile,
    solve: (string, Profile, int, bool) -> Option<seq<Committee>>,
    registry: seq<Rule>,
    limit: nat)
}
