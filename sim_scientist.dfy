/** The standalone scientist of sim/scientist.py, the revision the network
    of sim/network.py is built from.  It repeats the decision rule and the
    Jeffrey update of agents/ in one class; its arithmetic is the same
    module Jeffrey computes, which its contracts state. */
module SimAgents {
  import opened Experiments
  import opened Jeffrey
  import opened Agents

  class Scientist {
    const nPerRound: nat
    const epsilon: real
    const lowStop: real
    const m: real
    var credence: real
    var roundExperiment: Option<Trial>
    var previousExperiment: Option<Trial>
    var roundsOfExperience: nat
    /** Influencers; may include the scientist itself. */
    var influencers: seq<Scientist>
    /** Whether the network seeded this scientist as a skeptic. */
    var isSkeptic: bool

    predicate Valid()
      reads this
    {
      InUnit(credence) && nPerRound >= 1
    }

    predicate Updater()
      reads this
    {
      ValidUpdater(epsilon, m) && nPerRound >= 1
    }

    /** The state `__init__` leaves behind: credence = prior, no current or
        previous experiment, no experience, no influencers. */
    predicate Initial(prior: real, skeptic: bool)
      reads this
    {
      && credence == prior && roundExperiment == None && previousExperiment == None
      && roundsOfExperience == 0 && influencers == [] && isSkeptic == skeptic
    }

    /** `Scientist(...)` with the parameters the network passes; the random
        generator is replaced by the draws passed to the actions. */
    constructor (nPerRound: nat, epsilon: real, lowStop: real, prior: real, m: real, skeptic: bool)
      requires InUnit(prior) && nPerRound >= 1
      ensures Valid() && Initial(prior, skeptic)
      ensures this.nPerRound == nPerRound && this.epsilon == epsilon && this.lowStop == lowStop && this.m == m
    {
      this.nPerRound := nPerRound;
      this.epsilon := epsilon;
      this.lowStop := lowStop;
      this.m := m;
      credence := prior;
      roundExperiment := None;
      previousExperiment := None;
      roundsOfExperience := 0;
      influencers := [];
      isSkeptic := skeptic;
    }

    /** `s.__init__(prior, params, rng, skeptic)` on an existing scientist:
        the same object starts over, with the network's parameters. */
    method Reinit(prior: real, skeptic: bool)
      requires InUnit(prior) && nPerRound >= 1
      modifies this`credence, this`roundExperiment, this`previousExperiment, this`roundsOfExperience
      modifies this`influencers, this`isSkeptic
      ensures Valid() && Initial(prior, skeptic)
    {
      credence := prior;
      roundExperiment := None;
      previousExperiment := None;
      roundsOfExperience := 0;
      influencers := [];
      isSkeptic := skeptic;
    }

    function GetExperimentData(): (r: Option<BinomialExperiment>)
      reads this
      ensures r == roundExperiment
    {
      roundExperiment
    }

    method StopAction()
      modifies this`roundExperiment
      ensures roundExperiment == None
    {
      roundExperiment := None;
    }

    /** `_experiment(n, epsilon)`: `k` is the binomial draw. */
    method RunExperiment(n: nat, epsilon: real, k: nat)
      requires 1 <= n && k <= n
      modifies this`roundExperiment
      ensures roundExperiment == Some(BinomialExperiment(k, n))
    {
      roundExperiment := Some(Experiment(n, k));
    }

    method ContinueAction(k: nat)
      requires 1 <= nPerRound && k <= nPerRound
      modifies this`roundExperiment
      ensures roundExperiment == Some(BinomialExperiment(k, nPerRound))
    {
      RunExperiment(nPerRound, epsilon, k);
    }

    /** `decide_round_research_action`: no experiment below `low_stop`,
        otherwise one of `n_per_round` trials; the rule of agents/. */
    method DecideRoundResearchAction(k: nat)
      requires Valid() && k <= nPerRound
      modifies this`roundExperiment
      ensures roundExperiment.None? <==> credence < lowStop
      ensures roundExperiment == Decision(credence, lowStop, nPerRound, k)
    {
      if credence < lowStop {
        StopAction();
      } else {
        ContinueAction(k);
      }
    }

    method AddJeffreyInfluencer(influencer: Scientist)
      modifies this`influencers
      ensures influencers == old(influencers) + [influencer]
    {
      influencers := influencers + [influencer];
    }

    /** `dm`: the distance between the two credences times m, the trust
        discount of the jeffreyupdater revision. */
    function Dm(influencer: Scientist): (r: real)
      reads this, influencer
      ensures influencer == this ==> r == 0.0
      ensures m >= 0.0 ==> r >= 0.0
    {
      Jeffrey.Dm(credence, influencer.credence, m)
    }

    function SourceOf(influencer: Scientist): Source
      reads influencer
    {
      Source(influencer == this, influencer.credence, influencer.roundExperiment)
    }

    function Sources(): seq<Source>
      reads this, influencers
    {
      seq(|influencers|, j requires 0 <= j < |influencers| reads this, influencers => SourceOf(influencers[j]))
    }

    /** `_jeffrey_update_credence_on_influencer`: the same step of the fold
        as the jeffreyupdater revision computes. */
    method UpdateOnInfluencer(influencer: Scientist)
      requires Valid() && Updater() && UsableSource(SourceOf(influencer))
      modifies this`credence
      ensures Valid()
      ensures credence == StepOn(old(credence), old(SourceOf(influencer)), epsilon, m)
    {
      var exp := influencer.GetExperimentData();
      if exp.Some? {
        ghost var src := SourceOf(influencer);
        var dm := Dm(influencer);
        var posterior := UpdateSteps(credence, exp.value, epsilon, dm);
        StepOnClosedForm(credence, src, epsilon, m);
        credence := posterior;
      }
    }

    /** `jeffrey_update_credence`: the fold over the influencers in list
        order, on the sources as they were when the call began. */
    method JeffreyUpdateCredence()
      requires Valid() && Updater()
      requires UsableSources(Sources())
      modifies this`credence
      ensures Valid()
      ensures credence == Fold(old(credence), old(Sources()), epsilon, m)
    {
      ghost var start := Sources();
      ghost var c0 := credence;
      for j := 0 to |influencers|
        invariant Valid()
        invariant credence == Fold(c0, start[..j], epsilon, m)
        invariant forall i | 0 <= i < |influencers| && influencers[i] != this ::
                    SourceOf(influencers[i]) == start[i]
      {
        var influencer := influencers[j];
        assert SourceOf(influencer).data == start[j].data;
        FoldSnoc(c0, start[..j], start[j], epsilon, m);
        assert start[..j + 1] == start[..j] + [start[j]];
        UpdateOnInfluencer(influencer);
      }
      assert start[..|influencers|] == start;
    }
  }
}
