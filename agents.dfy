/** The scientist of agents/scientist.py, with the behaviour it takes from
    its mixins agents/crsupervisor.py (stop or continue research by credence)
    and agents/updaters/jeffreyupdater.py (the influencer list and the update
    loop).  The arithmetic of the update lives in module Jeffrey. */
module Agents {
  import opened Experiments
  import opened Jeffrey

  /** The research action of `decide_round_research_action`: stop (no
      experiment this round) when credence is below `low_stop`, otherwise
      run an experiment of `n` trials, whose number of successes is `k`. */
  function Decision(credence: real, lowStop: real, n: nat, k: nat): (r: Option<BinomialExperiment>)
    requires k <= n
    ensures r.None? <==> credence < lowStop
    ensures r.Some? ==> r.value.n == n && r.value.k <= r.value.n
  {
    if credence < lowStop then None else Some(Experiment(n, k))
  }

  /** The mutable state of a scientist, as one value. */
  datatype Record = Record(credence: real,
                           roundExperiment: Option<Trial>,
                           previousExperiment: Option<Trial>,
                           roundsOfExperience: nat,
                           influencers: seq<Scientist>)

  class Scientist {
    const nPerRound: nat
    const epsilon: real
    const lowStop: real
    const m: real
    var credence: real
    var roundExperiment: Option<Trial>
    /** Attributes that network/network.py keeps on every scientist. */
    var previousExperiment: Option<Trial>
    var roundsOfExperience: nat
    /** `jeffrey_influencers`; may include the scientist itself. */
    var influencers: seq<Scientist>

    function Snapshot(): Record
      reads this
    {
      Record(credence, roundExperiment, previousExperiment, roundsOfExperience, influencers)
    }

    /** A credence that is a probability, and at least one trial per
        experiment (with none, the update would divide by zero). */
    predicate Valid()
      reads this
    {
      InUnit(credence) && nPerRound >= 1
    }

    /** The parameters under which the update is defined: a success rate
        0.5 + epsilon strictly inside (0, 1), a non-negative distrust
        multiplier, and at least one trial per experiment. */
    predicate Updater()
      reads this
    {
      ValidUpdater(epsilon, m) && nPerRound >= 1
    }

    /** `Scientist(rng, n_per_round, epsilon, low_stop, prior, m)`; the random
        generator is replaced by the draws passed to the actions. */
    constructor (nPerRound: nat, epsilon: real, lowStop: real, prior: real, m: real)
      requires InUnit(prior) && nPerRound >= 1
      ensures Valid()
      ensures this.nPerRound == nPerRound && this.epsilon == epsilon && this.lowStop == lowStop && this.m == m
      ensures credence == prior && roundExperiment == None && influencers == []
      ensures previousExperiment == None && roundsOfExperience == 0
    {
      this.nPerRound := nPerRound;
      this.epsilon := epsilon;
      this.lowStop := lowStop;
      this.m := m;
      credence := prior;
      roundExperiment := None;
      previousExperiment := None;
      roundsOfExperience := 0;
      influencers := [];
    }

    /** `get_experiment_data`: this round's experiment, if any. */
    function GetExperimentData(): (r: Option<BinomialExperiment>)
      reads this
      ensures r == roundExperiment
    {
      roundExperiment
    }

    method StopAction()
      modifies this`roundExperiment
      ensures roundExperiment == None
    {
      roundExperiment := None;
    }

    /** `_experiment(n, epsilon)`: `k` is the binomial draw. */
    method RunExperiment(n: nat, epsilon: real, k: nat)
      requires 1 <= n && k <= n
      modifies this`roundExperiment
      ensures roundExperiment == Some(BinomialExperiment(k, n))
    {
      roundExperiment := Some(Experiment(n, k));
    }

    method ContinueAction(k: nat)
      requires 1 <= nPerRound && k <= nPerRound
      modifies this`roundExperiment
      ensures roundExperiment == Some(BinomialExperiment(k, nPerRound))
    {
      RunExperiment(nPerRound, epsilon, k);
    }

    /** `decide_round_research_action` (agents/crsupervisor.py): exactly one
        of the stop and continue actions runs, chosen by comparing credence
        with `low_stop`; nothing but the round experiment changes. */
    method DecideRoundResearchAction(k: nat)
      requires Valid() && k <= nPerRound
      modifies this`roundExperiment
      ensures Valid()
      ensures roundExperiment == Decision(credence, lowStop, nPerRound, k)
    {
      if credence < lowStop {
        StopAction();
      } else {
        ContinueAction(k);
      }
    }

    method AddJeffreyInfluencer(influencer: Scientist)
      modifies this`influencers
      ensures influencers == old(influencers) + [influencer]
    {
      influencers := influencers + [influencer];
    }

    /** `dm`: distrust of an influencer; zero towards oneself. */
    function Dm(influencer: Scientist): (r: real)
      reads this, influencer
      ensures influencer == this ==> r == 0.0
      ensures m >= 0.0 ==> r >= 0.0
    {
      Jeffrey.Dm(credence, influencer.credence, m)
    }

    /** What this scientist reads from an influencer. */
    function SourceOf(influencer: Scientist): Source
      reads influencer
    {
      Source(influencer == this, influencer.credence, influencer.roundExperiment)
    }

    /** What this scientist reads from each of its influencers, in order. */
    function Sources(): seq<Source>
      reads this, influencers
    {
      seq(|influencers|, j requires 0 <= j < |influencers| reads this, influencers => SourceOf(influencers[j]))
    }

    /** `_jeffrey_update_credence_on_influencer`, step by step as in the
        source; its effect is one step of the fold in module Jeffrey. */
    method UpdateOnInfluencer(influencer: Scientist)
      requires Valid() && Updater() && UsableSource(SourceOf(influencer))
      modifies this`credence
      ensures Valid()
      ensures credence == StepOn(old(credence), old(SourceOf(influencer)), epsilon, m)
    {
      var exp := influencer.GetExperimentData();
      if exp.Some? {
        ghost var src := SourceOf(influencer);
        var dm := Dm(influencer);
        var posterior := UpdateSteps(credence, exp.value, epsilon, dm);
        StepOnClosedForm(credence, src, epsilon, m);
        credence := posterior;
      }
    }

    /** `jeffrey_update_credence`: update on every influencer in list order;
        the result is the fold of module Jeffrey over the sources as they
        were when the call began. */
    method JeffreyUpdateCredence()
      requires Valid() && Updater()
      requires UsableSources(Sources())
      modifies this`credence
      ensures Valid()
      ensures credence == Fold(old(credence), old(Sources()), epsilon, m)
    {
      ghost var start := Sources();
      ghost var c0 := credence;
      var j := 0;
      while j < |influencers|
        invariant 0 <= j <= |influencers|
        invariant Valid()
        invariant UsableSources(start[..j])
        invariant credence == Fold(c0, start[..j], epsilon, m)
        invariant forall i | 0 <= i < |influencers| && influencers[i] != this ::
                    SourceOf(influencers[i]) == start[i]
      {
        var influencer := influencers[j];
        assert SourceOf(influencer).data == start[j].data;
        FoldSnoc(c0, start[..j], start[j], epsilon, m);
        assert start[..j + 1] == start[..j] + [start[j]];
        UpdateOnInfluencer(influencer);
        j := j + 1;
      }
      assert start[..j] == start;
    }
  }
}
