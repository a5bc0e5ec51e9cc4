/** The simulation driver of sim/sim.py: it watches the credences of an
    epistemic network of network/network.py and stops at research
    abandonment, consensus or stable polarization, or at the round horizon.
    The simulation and its network share one parameter record (sim/simsetup.py
    passes the same `ENParams` to both), so the low stop and the lifecycle
    flag are read from the network's parameters. */
module Simulation {
  import opened Experiments
  import opened Jeffrey
  import opened Agents
  import opened Turns
  import opened Network
  import Priors

  /** The credence above which a scientist counts as confident in the true
      view; hard-coded in sim/sim.py, whatever the consensus threshold. */
  const ConfidenceCut: real := 0.99

  /** `float(np.mean(...))` over the flags `credence > 0.99`: NaN for an
      empty list, otherwise the share `confident / size`, kept as its two
      counts so that shares of joined lists add up exactly. */
  datatype Proportion = Undefined | Share(confident: nat, size: nat)

  /** How many credences lie above `ConfidenceCut`. */
  function CountConfident(creds: seq<real>): (r: nat)
    ensures r <= |creds|
    ensures r == 0 <==> forall i | 0 <= i < |creds| :: creds[i] <= ConfidenceCut
    ensures r == |creds| <==> forall i | 0 <= i < |creds| :: creds[i] > ConfidenceCut
  {
    if creds == [] then 0
    else (if creds[0] > ConfidenceCut then 1 else 0) + CountConfident(creds[1..])
  }

  /** `_prop_truth_confidently`: the share of credences above 0.99, or
      `Undefined` for nobody. */
  function PropTruthConfidently(creds: seq<real>): (r: Proportion)
    ensures r.Undefined? <==> creds == []
    ensures r.Share? ==> 0 < r.size == |creds| && r.confident <= r.size
    ensures r.Share? ==> (r.confident == 0 <==> forall i | 0 <= i < |creds| :: creds[i] <= ConfidenceCut)
    ensures r.Share? ==> (r.confident == r.size <==> forall i | 0 <= i < |creds| :: creds[i] > ConfidenceCut)
  {
    if creds == [] then Undefined else Share(CountConfident(creds), |creds|)
  }

  /** The share as the number `np.mean` returns. */
  function Value(p: Proportion): (v: real)
    requires p.Share? && 0 < p.size && p.confident <= p.size
    ensures 0.0 <= v <= 1.0
    ensures v == 0.0 <==> p.confident == 0
    ensures v == 1.0 <==> p.confident == p.size
  {
    FractionInUnit(p.confident as real, p.size as real);
    p.confident as real / p.size as real
  }

  /** Counting is additive over concatenation. */
  lemma {:induction false} CountConfidentAppend(a: seq<real>, b: seq<real>)
    ensures CountConfident(a + b) == CountConfident(a) + CountConfident(b)
    decreases |a|
  {
    if a == [] {
      assert a + b == b;
    } else {
      assert (a + b)[0] == a[0];
      assert (a + b)[1..] == a[1..] + b;
      CountConfidentAppend(a[1..], b);
    }
  }

  /** The share over working and retired scientists together pools the
      two shares: confident scientists and sizes add up. */
  lemma {:induction false} PropOfAll(working: seq<real>, retired: seq<real>)
    requires working != [] && retired != []
    ensures PropTruthConfidently(working + retired)
         == Share(PropTruthConfidently(working).confident + PropTruthConfidently(retired).confident,
                  |working| + |retired|)
  {
    CountConfidentAppend(working, retired);
  }

  /** When everybody is above 0.99 the share is 1. */
  lemma {:induction false} AllConfident(creds: seq<real>)
    requires creds != [] && forall i | 0 <= i < |creds| :: creds[i] > ConfidenceCut
    ensures PropTruthConfidently(creds) == Share(|creds|, |creds|)
    ensures Value(PropTruthConfidently(creds)) == 1.0
  {
  }

  /** A population started with `confident_priors` is confident to the
      last scientist: the .991 prior lies above the cut of sim/sim.py. */
  lemma ConfidentStart(pop: nat)
    requires pop > 0
    ensures Value(PropTruthConfidently(Priors.ConfidentPriors(pop))) == 1.0
  {
    AllConfident(Priors.ConfidentPriors(pop));
  }

  /** What the stop checks read from a scientist. */
  datatype Agent = Agent(credence: real, lowStop: real, m: real)

  function AgentsOf(ss: seq<Scientist>): (r: seq<Agent>)
    reads ss
    ensures |r| == |ss|
    ensures forall i | 0 <= i < |ss| :: r[i].credence == ss[i].credence
  {
    seq(|ss|, i requires 0 <= i < |ss| reads ss => Agent(ss[i].credence, ss[i].lowStop, ss[i].m))
  }

  /** `[s.credence for s in agents]`. */
  function CredenceList(ss: seq<Scientist>): (r: seq<real>)
    reads ss
    ensures |r| == |ss| && forall i | 0 <= i < |ss| :: r[i] == ss[i].credence
  {
    seq(|ss|, i requires 0 <= i < |ss| reads ss => ss[i].credence)
  }

  /** A scientist above 0.99. */
  predicate HighRoller(a: Agent)
  {
    a.credence > ConfidenceCut
  }

  /** Some scientist above 0.99 is still trusted enough by `a` (distance
      times `m` below 1) to pull it up. */
  predicate Pullable(a: Agent, agents: seq<Agent>)
  {
    exists h | h in agents && HighRoller(h) :: Dm(a.credence, h.credence, a.m) < 1.0
  }

  /** A scientist that keeps the network from being stably polarized: not
      above the threshold `t`, and either still experimenting (above its
      low stop) or still within a high roller's reach. */
  predicate Unsettled(a: Agent, agents: seq<Agent>, t: real)
  {
    a.credence <= t && (a.lowStop < a.credence || Pullable(a, agents))
  }

  /** `_stable_polarization` as a property of the population. */
  predicate StablyPolarized(agents: seq<Agent>, t: real)
  {
    forall i | 0 <= i < |agents| :: !Unsettled(agents[i], agents, t)
  }

  /** `[s for s in scientists if s.credence > .99]`. */
  function HighRollers(ss: seq<Scientist>): (r: seq<Scientist>)
    reads ss
    ensures forall x | x in r :: x in ss && x.credence > ConfidenceCut
    ensures forall x | x in ss && x.credence > ConfidenceCut :: x in r
  {
    if ss == [] then []
    else (if ss[0].credence > ConfidenceCut then [ss[0]] else []) + HighRollers(ss[1..])
  }

  /** `_stable_polarization(scientists, t)`: the loop that looks for a
      scientist keeping the network from being stably polarized. */
  method StablePolarization(scientists: seq<Scientist>, t: real) returns (b: bool)
    ensures b == StablyPolarized(AgentsOf(scientists), t)
    ensures (exists i | 0 <= i < |scientists| :: scientists[i].lowStop < scientists[i].credence <= t) ==> !b
    ensures (forall i | 0 <= i < |scientists| :: scientists[i].credence > t) ==> b
  {
    ghost var agents := AgentsOf(scientists);
    for j := 0 to |scientists|
      invariant forall k | 0 <= k < j :: !Unsettled(agents[k], agents, t)
    {
      var scientist := scientists[j];
      if scientist.credence > t {
        continue;
      }
      if scientist.lowStop < scientist.credence <= t {
        assert Unsettled(agents[j], agents, t);
        return false;
      }
      var pulled := InReach(scientists, j);
      if pulled {
        return false;
      }
    }
    return true;
  }

  /** The inner loop of `_stable_polarization`: whether some scientist
      above 0.99 is within reach (distrust below 1) of scientist j. */
  method InReach(scientists: seq<Scientist>, j: nat) returns (pulled: bool)
    requires j < |scientists|
    ensures pulled == Pullable(AgentsOf(scientists)[j], AgentsOf(scientists))
  {
    var scientist := scientists[j];
    var highRollers := HighRollers(scientists);
    for h := 0 to |highRollers|
      invariant forall x | x in highRollers[..h] :: scientist.Dm(x) >= 1.0
    {
      if scientist.Dm(highRollers[h]) < 1.0 {
        var k :| 0 <= k < |scientists| && scientists[k] == highRollers[h];
        Reaches(scientists, j, k);
        return true;
      }
      assert highRollers[..h + 1] == highRollers[..h] + [highRollers[h]];
    }
    assert highRollers[..|highRollers|] == highRollers;
    NoneInReach(scientists, j);
    return false;
  }

  /** A high roller that scientist j trusts enough makes j pullable. */
  lemma Reaches(scientists: seq<Scientist>, j: nat, k: nat)
    requires j < |scientists| && k < |scientists|
    requires scientists[k].credence > ConfidenceCut && scientists[j].Dm(scientists[k]) < 1.0
    ensures Pullable(AgentsOf(scientists)[j], AgentsOf(scientists))
  {
    var agents := AgentsOf(scientists);
    assert agents[k] in agents && HighRoller(agents[k]);
  }

  /** With every high roller out of reach, scientist j is not pullable. */
  lemma NoneInReach(scientists: seq<Scientist>, j: nat)
    requires j < |scientists|
    requires forall x | x in scientists && x.credence > ConfidenceCut :: scientists[j].Dm(x) >= 1.0
    ensures !Pullable(AgentsOf(scientists)[j], AgentsOf(scientists))
  {
    var agents := AgentsOf(scientists);
    forall a | a in agents && HighRoller(a)
      ensures Dm(agents[j].credence, a.credence, agents[j].m) >= 1.0
    {
      var k :| 0 <= k < |agents| && agents[k] == a;
      assert scientists[k] in scientists;
    }
  }

  /** Everybody above the threshold is stably polarized as well, which is
      why the consensus check comes first. */
  lemma ConsensusIsPolarized(agents: seq<Agent>, t: real)
    requires forall i | 0 <= i < |agents| :: agents[i].credence > t
    ensures StablyPolarized(agents, t)
  {
  }

  /** With a low stop below 0.99 and everybody at or below it, nobody is a
      high roller, so the population is stably polarized as well, which is
      why the abandonment check comes first. */
  lemma AbandonmentIsPolarized(agents: seq<Agent>, lowStop: real, t: real)
    requires lowStop <= ConfidenceCut
    requires forall i | 0 <= i < |agents| :: agents[i].credence <= lowStop && agents[i].lowStop == lowStop
    ensures StablyPolarized(agents, t)
  {
    forall i | 0 <= i < |agents|
      ensures !Pullable(agents[i], agents)
    {
      forall h | h in agents
        ensures !HighRoller(h)
      {
      }
    }
  }

  /** The outcome of a run: the round of the one conclusion reached, and
      the share of scientists confident in the true view (with the shares
      of working and retired scientists in lifecycle mode). */
  datatype RawResults = RawResults(consensusRound: Option<nat>,
                                   researchAbandonedRound: Option<nat>,
                                   stablePolRound: Option<nat>,
                                   unstableConclusionRound: Option<nat>,
                                   propConfident: Proportion,
                                   propRetiredConfident: Option<Proportion>,
                                   propWorkingConfident: Option<Proportion>)

  /** Exactly one of the four round fields is set. */
  predicate OneConclusion(r: RawResults)
  {
    (if r.consensusRound.Some? then 1 else 0) + (if r.researchAbandonedRound.Some? then 1 else 0)
    + (if r.stablePolRound.Some? then 1 else 0) + (if r.unstableConclusionRound.Some? then 1 else 0) == 1
  }

  /** The round of a stable conclusion (abandonment, consensus or
      polarization), if the result records one. */
  function StableRound(r: RawResults): Option<nat>
  {
    if r.researchAbandonedRound.Some? then r.researchAbandonedRound
    else if r.consensusRound.Some? then r.consensusRound
    else r.stablePolRound
  }

  /** The credences of `agents`, in order. */
  function Creds(agents: seq<Agent>): (r: seq<real>)
    ensures |r| == |agents| && forall i | 0 <= i < |agents| :: r[i] == agents[i].credence
  {
    seq(|agents|, i requires 0 <= i < |agents| => agents[i].credence)
  }

  /** `all(credences <= x)`. */
  predicate AllAtMost(creds: seq<real>, x: real)
  {
    forall i | 0 <= i < |creds| :: creds[i] <= x
  }

  /** `all(credences > x)`. */
  predicate AllAbove(creds: seq<real>, x: real)
  {
    forall i | 0 <= i < |creds| :: creds[i] > x
  }

  /** The checks of a stable-mode `_sim_action` at round `round`, in their
      order: abandonment when every credence is at most the low stop, then
      consensus when every credence is above the threshold `t`, then
      stable polarization; none of them means the network plays on. */
  function StableVerdict(agents: seq<Agent>, lowStop: real, t: real, round: nat): (r: Option<RawResults>)
    ensures r.Some? ==> OneConclusion(r.value) && StableRound(r.value) == Some(round)
    ensures r.Some? ==> r.value.unstableConclusionRound.None? && r.value.propConfident == PropTruthConfidently(Creds(agents))
  {
    var creds := Creds(agents);
    var share := PropTruthConfidently(creds);
    if AllAtMost(creds, lowStop) then
      Some(RawResults(None, Some(round), None, None, share, None, None))
    else if AllAbove(creds, t) then
      Some(RawResults(Some(round), None, None, None, share, None, None))
    else if StablyPolarized(agents, t) then
      Some(RawResults(None, None, Some(round), None, share, None, None))
    else None
  }

  /** Which conclusion the checks reach: abandonment exactly when nobody is
      above the low stop; consensus exactly when somebody is above the low
      stop and everybody above the threshold; polarization exactly when
      neither holds and `StablyPolarized` does; otherwise none. */
  lemma VerdictPriority(agents: seq<Agent>, lowStop: real, t: real, round: nat)
    ensures var r := StableVerdict(agents, lowStop, t, round);
            && (r.Some? && r.value.researchAbandonedRound.Some? <==>
                  forall i | 0 <= i < |agents| :: agents[i].credence <= lowStop)
            && (r.Some? && r.value.consensusRound.Some? <==>
                  (exists i | 0 <= i < |agents| :: agents[i].credence > lowStop)
                  && forall i | 0 <= i < |agents| :: agents[i].credence > t)
            && (r.Some? && r.value.stablePolRound.Some? <==>
                  (exists i | 0 <= i < |agents| :: agents[i].credence > lowStop)
                  && (exists i | 0 <= i < |agents| :: agents[i].credence <= t)
                  && StablyPolarized(agents, t))
            && (r.None? <==>
                  (exists i | 0 <= i < |agents| :: agents[i].credence > lowStop)
                  && (exists i | 0 <= i < |agents| :: agents[i].credence <= t)
                  && !StablyPolarized(agents, t))
  {
    var creds := Creds(agents);
    assert AllAtMost(creds, lowStop) <==> forall i | 0 <= i < |agents| :: agents[i].credence <= lowStop;
    assert AllAbove(creds, t) <==> forall i | 0 <= i < |agents| :: agents[i].credence > t;
  }

  /** The result `run_sim` records on reaching round `max`: the horizon as
      the round of an unstable conclusion, the share over working and
      retired scientists, and in lifecycle mode the two shares apart. */
  function Horizon(max: nat, working: seq<real>, retired: seq<real>, lifecycle: bool): (r: RawResults)
    ensures OneConclusion(r) && r.unstableConclusionRound == Some(max) && StableRound(r).None?
    ensures r.propConfident == PropTruthConfidently(working + retired)
    ensures r.propWorkingConfident.Some? <==> lifecycle
    ensures lifecycle ==> r.propWorkingConfident == Some(PropTruthConfidently(working))
                          && r.propRetiredConfident == Some(PropTruthConfidently(retired))
  {
    var all := PropTruthConfidently(working + retired);
    if lifecycle then
      RawResults(None, None, None, Some(max), all, Some(PropTruthConfidently(retired)), Some(PropTruthConfidently(working)))
    else RawResults(None, None, None, Some(max), all, None, None)
  }

  /** The parameters of the simulation beyond those of the network: the
      round horizon, and the consensus threshold, whose absence (or 0)
      selects the unstable mode. */
  datatype SimParams = SimParams(maxResearchRounds: nat, stableConfidenceThreshold: Option<real>)

  /** `not params.stable_confidence_threshold`: no threshold, or 0. */
  predicate Unstable(p: SimParams)
  {
    p.stableConfidenceThreshold.None? || p.stableConfidenceThreshold.value == 0.0
  }

  /** Whether `enetwork_play_round(unstable_sim=True)` raises for these
      network parameters. */
  predicate Unsupported(p: Network.Params)
  {
    p.networkType != Complete || !p.lifecycle
  }

  class EpistemicNetworkSimulation {
    const network: ENetwork
    const params: SimParams
    var roundsPlayed: nat
    var results: Option<RawResults>

    /** `EpistemicNetworkSimulation(epistemic_network, params)`. */
    constructor (network: ENetwork, params: SimParams)
      ensures this.network == network && this.params == params
      ensures roundsPlayed == 0 && results == None
    {
      this.network := network;
      this.params := params;
      roundsPlayed := 0;
      results := None;
    }

    /** The checks of a stable-mode `_sim_action`, on the network as it is. */
    method StableChecks(round: nat, t: real) returns (verdict: Option<RawResults>)
      requires network.Valid()
      ensures verdict == StableVerdict(AgentsOf(network.scientists), network.params.lowStop, t, round)
    {
      var scientists := network.scientists;
      ghost var agents := AgentsOf(scientists);
      var credences := CredenceList(scientists);
      assert credences == Creds(agents);
      var share := PropTruthConfidently(credences);
      if AllAtMost(credences, network.params.lowStop) {
        return Some(RawResults(None, Some(round), None, None, share, None, None));
      }
      if AllAbove(credences, t) {
        return Some(RawResults(Some(round), None, None, None, share, None, None));
      }
      var polarized := StablePolarization(scientists, t);
      if polarized {
        return Some(RawResults(None, None, Some(round), None, share, None, None));
      }
      return None;
    }

    /** `_sim_action(sim_round)`: nothing once a result is recorded;
        otherwise the round is noted, and in unstable mode the network plays
        an unstable round (whose NotImplementedError ends the run), while in
        stable mode the checks run on the credences as they are and, when
        none concludes, the network plays one stable round. */
    method SimAction(round: nat, d: RoundDraws) returns (r: Outcome)
      requires network.Valid() && DrawsFit(d, network.params)
      modifies this`roundsPlayed, this`results
      modifies network`scientists, network`retired, network`Repr, network`roundsPlayed
      modifies network.Repr`influencers, network.Repr`roundExperiment, network.Repr`credence
      modifies network.Repr`previousExperiment, network.Repr`roundsOfExperience
      ensures network.Valid() && fresh(network.Repr - old(network.Repr))
      ensures old(results).Some? ==> r.Pass? && unchanged(this) && unchanged(network) && unchanged(network.Repr)
      ensures old(results).None? ==> roundsPlayed == round
      ensures r.Fail? <==> old(results).None? && Unstable(params) && Unsupported(network.params)
      ensures r.Fail? ==> r.error == NotImplementedError
      ensures old(results).None? && Unstable(params) ==>
                results == None && network.roundsPlayed == old(network.roundsPlayed) + (if r.Pass? then 1 else 0)
      ensures old(results).None? && !Unstable(params) ==>
                results == StableVerdict(old(AgentsOf(network.scientists)), network.params.lowStop,
                                         params.stableConfidenceThreshold.value, round)
      ensures old(results).None? && !Unstable(params) && results.Some? ==>
                unchanged(network) && unchanged(network.Repr)
      ensures old(results).None? && !Unstable(params) && results.None? ==>
                && network.roundsPlayed == old(network.roundsPlayed) + 1
                && network.scientists == old(network.scientists)
    {
      r := Pass;
      if results.Some? {
        return;
      }
      if Unstable(params) {
        r := UnstableAction(round, d);
      } else {
        StableAction(round, d);
      }
    }

    /** `_sim_action` in unstable mode: the network plays an unstable
        round, which raises for configurations it does not support. */
    method UnstableAction(round: nat, d: RoundDraws) returns (r: Outcome)
      requires network.Valid() && DrawsFit(d, network.params) && results.None? && Unstable(params)
      modifies this`roundsPlayed, this`results
      modifies network`scientists, network`retired, network`Repr, network`roundsPlayed
      modifies network.Repr`influencers, network.Repr`roundExperiment, network.Repr`credence
      modifies network.Repr`previousExperiment, network.Repr`roundsOfExperience
      ensures network.Valid() && fresh(network.Repr - old(network.Repr))
      ensures roundsPlayed == round && results == None
      ensures r.Fail? <==> Unsupported(network.params)
      ensures r.Fail? ==> r.error == NotImplementedError
      ensures network.roundsPlayed == old(network.roundsPlayed) + (if r.Pass? then 1 else 0)
    {
      r := network.PlayRound(true, d);
      Note(round, None);
    }

    /** `_sim_action` in stable mode: the checks on the credences as they
        are, and one stable round of the network when none concludes. */
    method StableAction(round: nat, d: RoundDraws)
      requires network.Valid() && DrawsFit(d, network.params) && results.None? && !Unstable(params)
      modifies this`roundsPlayed, this`results
      modifies network`scientists, network`retired, network`Repr, network`roundsPlayed
      modifies network.Repr`influencers, network.Repr`roundExperiment, network.Repr`credence
      modifies network.Repr`previousExperiment, network.Repr`roundsOfExperience
      ensures network.Valid()
      ensures fresh(network.Repr - old(network.Repr))
      ensures roundsPlayed == round
      ensures results == StableVerdict(old(AgentsOf(network.scientists)), network.params.lowStop,
                                       params.stableConfidenceThreshold.value, round)
      ensures results.Some? ==> unchanged(network) && unchanged(network.Repr)
      ensures results.None? ==>
                && network.roundsPlayed == old(network.roundsPlayed) + 1
                && network.scientists == old(network.scientists)
    {
      var verdict := StableChecks(round, params.stableConfidenceThreshold.value);
      if verdict.Some? {
        Note(round, verdict);
        return;
      }
      var _ := network.PlayRound(false, d);
      Note(round, None);
    }

    /** `self._rounds_played = sim_round` and the result of the round; the
        network is left as it was. */
    method Note(round: nat, verdict: Option<RawResults>)
      modifies this`roundsPlayed, this`results
      ensures roundsPlayed == round && results == verdict
      ensures unchanged(network) && unchanged(network.Repr)
      ensures network.Valid() == old(network.Valid())
      ensures network.Credences() == old(network.Credences()) && network.Influencers() == old(network.Influencers())
    {
      roundsPlayed := round;
      results := verdict;
      NetworkUntouched();
    }

    /** A change to the simulation's own fields leaves the network as it
        was. */
    twostate lemma NetworkUntouched()
      requires unchanged(network) && forall x | x in network.Repr :: unchanged(x)
      ensures network.Valid() == old(network.Valid())
      ensures network.Credences() == old(network.Credences()) && network.Influencers() == old(network.Influencers())
    {
    }

    /** `_sim_action` as the run loop sees it: only whether the round
        concluded, and how many rounds the network played. */
    method Act(round: nat, d: RoundDraws) returns (r: Outcome)
      requires network.Valid() && DrawsFit(d, network.params) && results.None?
      modifies this`roundsPlayed, this`results
      modifies network`scientists, network`retired, network`Repr, network`roundsPlayed
      modifies network.Repr`influencers, network.Repr`roundExperiment, network.Repr`credence
      modifies network.Repr`previousExperiment, network.Repr`roundsOfExperience
      ensures network.Valid() && fresh(network.Repr - old(network.Repr))
      ensures r.Fail? <==> Unstable(params) && Unsupported(network.params)
      ensures r.Fail? ==> r.error == NotImplementedError
      ensures Unstable(params) ==>
                results == None && network.roundsPlayed == old(network.roundsPlayed) + (if r.Pass? then 1 else 0)
      ensures !Unstable(params) && results.Some? ==>
                && OneConclusion(results.value) && StableRound(results.value) == Some(round)
                && network.roundsPlayed == old(network.roundsPlayed)
      ensures !Unstable(params) && results.None? ==> network.roundsPlayed == old(network.roundsPlayed) + 1
    {
      r := SimAction(round, d);
    }

    /** `run_sim`: `_sim_action` for rounds 1 to the horizon, stopping after
        the first recorded result or the first error; on reaching the
        horizon the horizon result replaces whatever was recorded.  A stable
        conclusion recorded at round j follows j - 1 rounds of the
        network. */
    method RunSim(draws: seq<RoundDraws>) returns (r: Outcome)
      requires network.Valid() && |draws| >= params.maxResearchRounds
      requires forall i | 0 <= i < |draws| :: DrawsFit(draws[i], network.params)
      modifies this`roundsPlayed, this`results
      modifies network`scientists, network`retired, network`Repr, network`roundsPlayed
      modifies network.Repr`influencers, network.Repr`roundExperiment, network.Repr`credence
      modifies network.Repr`previousExperiment, network.Repr`roundsOfExperience
      ensures network.Valid()
      ensures old(results).Some? ==> r.Pass? && results == old(results)
      ensures r.Fail? <==> old(results).None? && params.maxResearchRounds >= 1 && Unstable(params) && Unsupported(network.params)
      ensures r.Fail? ==> r.error == NotImplementedError
      ensures r.Pass? && old(results).None? ==> (results.Some? <==> params.maxResearchRounds >= 1)
      ensures r.Pass? && old(results).None? && results.Some? ==>
                && OneConclusion(results.value)
                && (match StableRound(results.value)
                    case Some(j) =>
                      && !Unstable(params) && 1 <= j < params.maxResearchRounds
                      && network.roundsPlayed == old(network.roundsPlayed) + j - 1
                    case None =>
                      && results.value.unstableConclusionRound == Some(params.maxResearchRounds)
                      && network.roundsPlayed - old(network.roundsPlayed)
                           in {params.maxResearchRounds - 1, params.maxResearchRounds})
      ensures r.Pass? && old(results).None? && Unstable(params) && params.maxResearchRounds >= 1 ==>
                network.roundsPlayed == old(network.roundsPlayed) + params.maxResearchRounds
    {
      r := Pass;
      ghost var n0 := network.roundsPlayed;
      ghost var fresh0 := old(results).None?;
      var i := 1;
      while i <= params.maxResearchRounds
        invariant 1 <= i <= params.maxResearchRounds + 1
        invariant network.Valid() && fresh(network.Repr - old(network.Repr))
        invariant r.Pass?
        invariant i <= params.maxResearchRounds || i == 1
        invariant fresh0 && Unstable(params) && Unsupported(network.params) ==> i == 1
        invariant !fresh0 ==> results == old(results) && i == 1
        invariant fresh0 && results.None? ==> network.roundsPlayed == n0 + (i - 1)
        invariant fresh0 && results.Some? ==>
                    && OneConclusion(results.value) && !Unstable(params)
                    && StableRound(results.value).Some?
                    && 1 <= StableRound(results.value).value < i
                    && i <= params.maxResearchRounds
                    && network.roundsPlayed == n0 + StableRound(results.value).value - 1
      {
        if results.Some? {
          break;
        }
        r := Act(i, draws[i - 1]);
        if r.Fail? {
          return;
        }
        if i == params.maxResearchRounds {
          var working := CredenceList(network.scientists);
          var retired := CredenceList(network.retired);
          results := Some(Horizon(i, working, retired, network.params.lifecycle));
          return;
        }
        i := i + 1;
      }
    }
  }
}
