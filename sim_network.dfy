/** The network revision of sim/network.py: a fixed population of the
    scientists of sim/scientist.py, some of them seeded as skeptics, each
    reading the whole population in its own shuffled order; a round is
    decide, update in list order, gain experience, and the lifecycle step,
    which re-initialises a veteran in place. */
module SimNetwork {
  import opened Experiments
  import opened Jeffrey
  import opened SimAgents
  import opened Turns

  /** `lifecyclesetup`: a scientist is replaced every `roundsToNewAgent`
      rounds. */
  datatype LifecycleSetup = LifecycleSetup(roundsToNewAgent: int)

  /** The fields of the parameters this network reads. */
  datatype Params = Params(initPopcount: nat,
                           skepticN: nat,
                           nPerRound: nat,
                           epsilon: real,
                           lowStop: real,
                           m: real,
                           lifecycleSetup: Option<LifecycleSetup>)

  /** Parameters under which every update of a round is defined. */
  predicate ValidParams(p: Params)
  {
    ValidUpdater(p.epsilon, p.m) && p.nPerRound >= 1
  }

  /** A scientist built with the network's parameters. */
  predicate Fits(x: Scientist, p: Params)
  {
    x.nPerRound == p.nPerRound && x.epsilon == p.epsilon && x.lowStop == p.lowStop && x.m == p.m
  }

  /** The skeptic's prior, and the experience everyone starts with. */
  const SkepticPrior: real := 0.5
  const StartingExperience: nat := 20

  /** `[s for s in scientists if not s.is_skeptic]`. */
  function NonSkeptics(ss: seq<Scientist>): (r: seq<Scientist>)
    reads ss`isSkeptic
    ensures forall x | x in r :: x in ss && !x.isSkeptic
    ensures forall x | x in ss && !x.isSkeptic :: x in r
  {
    if ss == [] then []
    else (if !ss[0].isSkeptic then [ss[0]] else []) + NonSkeptics(ss[1..])
  }

  /** `[s for s in scientists if s.rounds_of_experience >= 20]`. */
  function Veterans(ss: seq<Scientist>): (r: seq<Scientist>)
    reads ss`roundsOfExperience
    ensures forall x | x in r :: x in ss && x.roundsOfExperience >= StartingExperience
    ensures forall x | x in ss && x.roundsOfExperience >= StartingExperience :: x in r
  {
    if ss == [] then []
    else (if ss[0].roundsOfExperience >= StartingExperience then [ss[0]] else []) + Veterans(ss[1..])
  }

  /** Whom `_lifecycle_round_actions` replaces after `played` rounds: nobody
      unless `played` is a multiple of `every` and some scientist has at
      least 20 rounds of experience; then the veteran at `pick` (modulo
      their number), which models the uniform draw. */
  function Replaced(ss: seq<Scientist>, played: nat, every: int, pick: nat): (r: Option<Scientist>)
    requires every != 0
    reads ss`roundsOfExperience
    ensures r.Some? <==> played % every == 0 && exists x | x in ss :: x.roundsOfExperience >= StartingExperience
    ensures r.Some? ==> r.value in ss && r.value.roundsOfExperience >= StartingExperience
  {
    if played % every != 0 then None
    else
      var pool := Veterans(ss);
      if pool == [] then None else Some(pool[pick % |pool|])
  }

  /** The random draws one call of `enetwork_play_round` consumes: one
      binomial draw per scientist, the veteran draw, the admission prior,
      and one shuffle per scientist for rebuilding the topology. */
  datatype RoundDraws = RoundDraws(draws: seq<nat>, pick: nat, admitPrior: real, perms: seq<seq<nat>>)

  /** Shuffles for every one of `n` scientists. */
  predicate Shuffles(perms: seq<seq<nat>>, n: nat)
  {
    |perms| == n && forall j | 0 <= j < n :: IsPermutation(perms[j], n)
  }

  /** Draws a round under parameters `p` can consume. */
  predicate DrawsFit(d: RoundDraws, p: Params)
  {
    && |d.draws| >= p.initPopcount
    && (forall i | 0 <= i < |d.draws| :: d.draws[i] <= p.nPerRound)
    && InUnit(d.admitPrior)
    && Shuffles(d.perms, p.initPopcount)
  }

  /** What a scientist reads from its influencers is its view of the
      credences and reports held in `cred` and `data`. */
  lemma SourcesAreView(s: Scientist, cred: map<Scientist, real>, data: map<Scientist, Option<BinomialExperiment>>)
    requires forall x | x in s.influencers :: x in cred && x in data && cred[x] == x.credence && data[x] == x.roundExperiment
    ensures s.Sources() == ViewOf(s, s.influencers, cred, data)
  {
  }

  class ENetwork {
    const params: Params
    var scientists: seq<Scientist>
    var retireeCredences: seq<real>
    var roundsPlayed: nat
    /** The scientists of the network. */
    ghost var Repr: set<Scientist>

    /** `Repr` is exactly the population, which keeps its initial size and
        has nobody twice. */
    ghost predicate Roster()
      reads this`Repr, this`scientists
    {
      && ValidParams(params)
      && |scientists| == params.initPopcount
      && Distinct(scientists)
      && (forall x | x in Repr :: x in scientists)
      && (forall x | x in scientists :: x in Repr)
    }

    /** Everyone carries the network's parameters. */
    ghost predicate Fitted()
      reads this`Repr
    {
      forall x | x in Repr :: Fits(x, params)
    }

    /** Influencer lists point inside the network. */
    ghost predicate Closed()
      reads this`Repr, Repr`influencers
    {
      forall x, y | x in Repr && y in x.influencers :: y in Repr
    }

    /** The object structure, with every credence a probability. */
    ghost predicate Wired()
      reads this`Repr, this`scientists, Repr`influencers, Repr`credence
    {
      Shape() && forall x | x in Repr :: InUnit(x.credence)
    }

    /** `Wired` apart from the credences, which the update phase changes. */
    ghost predicate Shape()
      reads this`Repr, this`scientists, Repr`influencers
    {
      Roster() && Fitted() && Closed()
    }

    /** Every influencer list is the whole population, shuffled. */
    ghost predicate Structured()
      reads this`Repr, this`scientists, Repr`influencers
    {
      forall x | x in Repr :: Shuffle(x.influencers, scientists)
    }

    ghost predicate Valid()
      reads this`Repr, this`scientists, Repr`influencers, Repr`credence
    {
      Wired() && Structured()
    }

    ghost function Credences(): (r: map<Scientist, real>)
      reads this`Repr, Repr`credence
      ensures r.Keys == Repr
    {
      map x | x in Repr :: x.credence
    }

    ghost function Reports(): (r: map<Scientist, Option<BinomialExperiment>>)
      reads this`Repr, Repr`roundExperiment
      ensures r.Keys == Repr
    {
      map x | x in Repr :: x.roundExperiment
    }

    ghost function Influencers(): (r: map<Scientist, seq<Scientist>>)
      reads this`Repr, Repr`influencers
      ensures r.Keys == Repr
    {
      map x | x in Repr :: x.influencers
    }

    ghost function Experience(): (r: map<Scientist, nat>)
      reads this`Repr, Repr`roundsOfExperience
      ensures r.Keys == Repr
    {
      map x | x in Repr :: x.roundsOfExperience
    }

    /** The skeptics of the population. */
    ghost function Skeptics(): (r: set<Scientist>)
      reads this`Repr, Repr`isSkeptic
      ensures r <= Repr
    {
      set x | x in Repr && x.isSkeptic
    }

    /** The population has as many members as the list has entries. */
    lemma PopulationSize()
      requires Roster()
      ensures |Repr| == |scientists|
    {
      DistinctCard(scientists);
      assert Repr == set x | x in scientists;
    }

    /** A change to the network's own fields leaves the population's state
        as it was. */
    twostate lemma Untouched()
      requires unchanged(this`Repr, this`scientists) && forall x | x in Repr :: unchanged(x)
      ensures Valid() == old(Valid())
      ensures Credences() == old(Credences()) && Experience() == old(Experience())
      ensures Reports() == old(Reports()) && Skeptics() == old(Skeptics())
    {
    }

    /** A change to round experiments alone leaves everything else as it
        was. */
    twostate lemma ReportsOnly()
      requires unchanged(this`Repr) && forall x | x in Repr :: unchanged(x`credence, x`influencers, x`roundsOfExperience, x`isSkeptic)
      ensures Credences() == old(Credences()) && Influencers() == old(Influencers())
      ensures Experience() == old(Experience()) && Skeptics() == old(Skeptics())
    {
    }

    /** A change to the experience alone leaves everything else, and the
        object structure, as it was. */
    twostate lemma ExperienceOnly()
      requires unchanged(this`Repr, this`scientists)
      requires forall x | x in Repr :: unchanged(x`credence, x`influencers, x`roundExperiment, x`isSkeptic)
      ensures Credences() == old(Credences()) && Influencers() == old(Influencers())
      ensures Reports() == old(Reports()) && Skeptics() == old(Skeptics())
      ensures old(Wired()) ==> Wired()
    {
    }

    /** A change to influencer lists alone leaves everything else as it
        was. */
    twostate lemma InfluencersOnly()
      requires unchanged(this`Repr, this`scientists)
      requires forall x | x in Repr :: unchanged(x`credence, x`roundsOfExperience, x`roundExperiment, x`isSkeptic)
      ensures Credences() == old(Credences()) && Experience() == old(Experience())
      ensures Reports() == old(Reports()) && Skeptics() == old(Skeptics())
      ensures old(Roster() && Fitted()) ==> Roster() && Fitted()
      ensures forall x | x in Repr :: x.credence == old(x.credence)
    {
    }

    /** A change to credences alone leaves everything else as it was. */
    twostate lemma CredencesOnly()
      requires unchanged(this`Repr)
      requires forall x | x in Repr :: unchanged(x`roundExperiment, x`influencers, x`roundsOfExperience, x`isSkeptic)
      ensures Reports() == old(Reports()) && Influencers() == old(Influencers())
      ensures Experience() == old(Experience()) && Skeptics() == old(Skeptics())
    {
    }

    // -------------------------------------------------------------------
    // Construction (sim/network.py:7-38)
    // -------------------------------------------------------------------

    /** `[Scientist(prior, params, rng, False) for prior in priors]`. */
    static method Recruit(params: Params, priors: seq<real>) returns (ss: seq<Scientist>)
      requires ValidParams(params)
      requires forall i | 0 <= i < |priors| :: InUnit(priors[i])
      ensures |ss| == |priors| && Distinct(ss)
      ensures forall x | x in ss :: fresh(x) && Fits(x, params) && x.Valid()
      ensures forall i | 0 <= i < |ss| :: ss[i].Initial(priors[i], false)
    {
      ss := [];
      for i := 0 to |priors|
        invariant |ss| == i && Distinct(ss)
        invariant forall x | x in ss :: fresh(x) && Fits(x, params) && x.Valid()
        invariant forall j | 0 <= j < i :: ss[j].Initial(priors[j], false)
      {
        var s := new Scientist(params.nPerRound, params.epsilon, params.lowStop, priors[i], params.m, false);
        ss := ss + [s];
      }
    }

    /** The population of `ENetwork.__init__`, before seeding and
        structuring: nobody is a skeptic and nobody has an influencer. */
    constructor (params: Params, priors: seq<real>)
      requires ValidParams(params) && |priors| == params.initPopcount
      requires forall i | 0 <= i < |priors| :: InUnit(priors[i])
      ensures Wired() && fresh(Repr) && Skeptics() == {}
      ensures this.params == params && roundsPlayed == 0 && retireeCredences == []
      ensures forall i | 0 <= i < |scientists| :: scientists[i].Initial(priors[i], false)
    {
      this.params := params;
      var ss := Recruit(params, priors);
      scientists := ss;
      retireeCredences := [];
      roundsPlayed := 0;
      Repr := set x | x in ss;
    }

    /** `skeptic_to_become.__init__(prior, params, rng, True)`: a
        non-skeptic starts over as a skeptic with prior .5. */
    method Convert(s: Scientist)
      requires Wired() && s in Repr && !s.isSkeptic && forall x | x in Repr :: x.influencers == []
      modifies s`credence, s`roundExperiment, s`previousExperiment, s`roundsOfExperience
      modifies s`influencers, s`isSkeptic
      ensures Wired() && forall x | x in Repr :: x.influencers == []
      ensures Skeptics() == old(Skeptics()) + {s} && s !in old(Skeptics())
      ensures Credences() == old(Credences())[s := SkepticPrior]
    {
      assert Fits(s, params);
      s.Reinit(SkepticPrior, true);
    }

    /** One iteration of the seeding loop: the non-skeptic at `pick`
        (modulo their number) becomes a skeptic with prior .5; ValueError
        when everyone already is one. */
    method SeedOne(pick: nat) returns (r: Outcome)
      requires Wired() && forall x | x in Repr :: x.influencers == []
      modifies Repr`credence, Repr`roundExperiment, Repr`previousExperiment, Repr`roundsOfExperience
      modifies Repr`influencers, Repr`isSkeptic
      ensures Wired()
      ensures forall x | x in Repr :: x.influencers == []
      ensures r.Fail? <==> old(|Skeptics()|) == |scientists|
      ensures r.Fail? ==> r.error == ValueError
      ensures |Skeptics()| == old(|Skeptics()|) + (if r.Pass? then 1 else 0)
      ensures old(Skeptics()) <= Skeptics()
      ensures forall x | x in Repr ::
                Credences()[x] == if x in Skeptics() - old(Skeptics()) then SkepticPrior else old(Credences())[x]
    {
      PopulationSize();
      var pool := NonSkeptics(scientists);
      if pool == [] {
        assert Skeptics() == Repr;
        return Fail(ValueError);
      }
      assert |Skeptics()| < |scientists| by {
        StrictSubset(Skeptics(), Repr, pool[0]);
      }
      var chosen := pool[pick % |pool|];
      Convert(chosen);
      r := Pass;
    }

    /** `for _ in range(skeptic_n)` of `ENetwork.__init__`: `picks[t]` is the
        draw of iteration t.  Starting from no skeptics, the loop yields
        exactly `skeptic_n` of them, each with prior .5, and raises
        ValueError once nobody is left to convert. */
    method SeedSkeptics(picks: seq<nat>) returns (r: Outcome)
      requires Wired() && Skeptics() == {} && |picks| >= params.skepticN
      requires forall x | x in Repr :: x.influencers == []
      modifies Repr`credence, Repr`roundExperiment, Repr`previousExperiment, Repr`roundsOfExperience
      modifies Repr`influencers, Repr`isSkeptic
      ensures Wired() && forall x | x in Repr :: x.influencers == []
      ensures r.Fail? <==> params.skepticN > |scientists|
      ensures r.Fail? ==> r.error == ValueError
      ensures r.Pass? ==> |Skeptics()| == params.skepticN
      ensures forall x | x in Repr :: Credences()[x] == if x in Skeptics() then SkepticPrior else old(Credences())[x]
    {
      for t := 0 to params.skepticN
        invariant Wired() && forall x | x in Repr :: x.influencers == []
        invariant |Skeptics()| == t <= |scientists|
        invariant forall x | x in Repr :: Credences()[x] == if x in Skeptics() then SkepticPrior else old(Credences())[x]
      {
        r := SeedOne(picks[t]);
        if r.Fail? {
          return;
        }
      }
      r := Pass;
    }

    /** Everyone starts with 20 rounds of experience. */
    method Season()
      requires Wired()
      modifies Repr`roundsOfExperience
      ensures Wired() && Credences() == old(Credences()) && Skeptics() == old(Skeptics())
      ensures forall x | x in Repr :: x.roundsOfExperience == StartingExperience
    {
      for i := 0 to |scientists|
        invariant Wired()
        invariant forall k | 0 <= k < i :: scientists[k].roundsOfExperience == StartingExperience
      {
        scientists[i].roundsOfExperience := StartingExperience;
      }
    }

    /** `_add_all_influencers_for_updater`: append every one of `influencers`,
        in order. */
    static method AddAllInfluencers(updater: Scientist, influencers: seq<Scientist>)
      modifies updater`influencers
      ensures updater.influencers == old(updater.influencers) + influencers
    {
      for j := 0 to |influencers|
        invariant updater.influencers == old(updater.influencers) + influencers[..j]
      {
        updater.AddJeffreyInfluencer(influencers[j]);
        assert influencers[..j + 1] == influencers[..j] + [influencers[j]];
      }
    }

    /** One iteration of `_structure_scientific_network`: the scientist's list
        is emptied and refilled with the population in the shuffled order
        `perm`. */
    method Rewire(s: Scientist, perm: seq<nat>)
      requires IsPermutation(perm, |scientists|)
      modifies s`influencers
      ensures s.influencers == Arrange(scientists, perm)
    {
      s.influencers := [];
      var shuffled := [];
      for i := 0 to |perm|
        invariant shuffled == Arrange(scientists, perm[..i])
      {
        shuffled := shuffled + [scientists[perm[i]]];
      }
      assert perm[..|perm|] == perm;
      AddAllInfluencers(s, shuffled);
    }

    /** The loop of `_structure_scientific_network`: scientist j, in list
        order, gets the population arranged by `perms[j]`. */
    method RewireAll(perms: seq<seq<nat>>)
      requires Distinct(scientists) && Shuffles(perms, |scientists|) && forall x | x in scientists :: x in Repr
      modifies Repr`influencers
      ensures forall j | 0 <= j < |scientists| :: scientists[j].influencers == Arrange(scientists, perms[j])
    {
      for i := 0 to |scientists|
        invariant forall k | 0 <= k < i :: scientists[k].influencers == Arrange(scientists, perms[k])
      {
        Rewire(scientists[i], perms[i]);
      }
    }

    /** `_structure_scientific_network`: every scientist's influencers
        become the whole population, shuffled by its own permutation. */
    method StructureScientificNetwork(perms: seq<seq<nat>>)
      requires Wired() && Shuffles(perms, |scientists|)
      modifies Repr`influencers
      ensures Valid()
      ensures forall j | 0 <= j < |scientists| :: scientists[j].influencers == Arrange(scientists, perms[j])
      ensures Credences() == old(Credences()) && Experience() == old(Experience())
      ensures Reports() == old(Reports()) && Skeptics() == old(Skeptics())
    {
      RewireAll(perms);
      InfluencersOnly();
      forall x | x in Repr
        ensures Shuffle(x.influencers, scientists)
      {
        var j :| 0 <= j < |scientists| && scientists[j] == x;
        ArrangeShuffles(scientists, perms[j]);
      }
    }

    /** `ENetwork(rng, params)`: ValueError when the priors function does not
        deliver `scientist_init_popcount` priors, or when there are more
        skeptics to seed than scientists; otherwise exactly `skeptic_n`
        skeptics at prior .5, everyone else at its prior, everyone with 20
        rounds of experience, and every influencer list a shuffle of the
        whole population. */
    static method Create(params: Params, priors: seq<real>, picks: seq<nat>, perms: seq<seq<nat>>)
      returns (r: Result<ENetwork>)
      requires ValidParams(params) && |picks| >= params.skepticN && Shuffles(perms, params.initPopcount)
      requires forall i | 0 <= i < |priors| :: InUnit(priors[i])
      ensures r.Failure? <==> |priors| != params.initPopcount || params.skepticN > params.initPopcount
      ensures r.Failure? ==> r.error == ValueError
      ensures r.Success? ==> var net := r.value;
                fresh(net) && fresh(net.Repr) && net.Valid() && net.params == params
                && net.roundsPlayed == 0 && net.retireeCredences == []
                && |net.Skeptics()| == params.skepticN
                && (forall i | 0 <= i < |net.scientists| ::
                      net.scientists[i].credence == if net.scientists[i] in net.Skeptics() then SkepticPrior else priors[i])
                && (forall x | x in net.Repr :: x.roundsOfExperience == StartingExperience)
    {
      if |priors| != params.initPopcount {
        return Failure(ValueError);
      }
      var net := new ENetwork(params, priors);
      var seeded := net.SeedSkeptics(picks);
      if seeded.Fail? {
        return Failure(ValueError);
      }
      net.Establish(perms);
      r := Success(net);
    }

    /** The last two steps of `__init__`: everyone gets 20 rounds of
        experience, then the topology is built. */
    method Establish(perms: seq<seq<nat>>)
      requires Wired() && Shuffles(perms, |scientists|)
      modifies Repr`roundsOfExperience, Repr`influencers
      ensures Valid()
      ensures Credences() == old(Credences()) && Skeptics() == old(Skeptics())
      ensures forall x | x in Repr :: x.roundsOfExperience == StartingExperience
    {
      Season();
      StructureScientificNetwork(perms);
    }

    // -------------------------------------------------------------------
    // The round (sim/network.py:41-55)
    // -------------------------------------------------------------------

    /** A scientist clears its round experiment and decides anew with the
        binomial draw `k`; only its round experiment changes. */
    method ResetAndDecide(s: Scientist, k: nat)
      requires Wired() && s in Repr && k <= params.nPerRound
      modifies s`roundExperiment
      ensures Wired()
      ensures Reports() == old(Reports())[s := Agents.Decision(Credences()[s], params.lowStop, params.nPerRound, k)]
    {
      assert Fits(s, params) && s.Valid();
      s.roundExperiment := None;
      s.DecideRoundResearchAction(k);
    }

    /** One iteration of the decide loop: scientist i decides after the
        first i have. */
    method DecideOne(s: Scientist, i: nat, ghost rep: map<Scientist, Option<BinomialExperiment>>, draws: seq<nat>)
      requires Wired() && i < |scientists| <= |draws| && s == scientists[i] && rep.Keys == Repr
      requires forall j | 0 <= j < |draws| :: draws[j] <= params.nPerRound
      requires Reports() == Decisions(scientists, i, Credences(), rep, params.lowStop, params.nPerRound, draws)
      modifies s`roundExperiment
      ensures Wired()
      ensures Reports() == Decisions(scientists, i + 1, Credences(), rep, params.lowStop, params.nPerRound, draws)
    {
      ResetAndDecide(s, draws[i]);
      DecisionsStep(scientists, i, Credences(), rep, params.lowStop, params.nPerRound, draws, old(Reports()), Reports());
    }

    /** Phase 1: every scientist, in list order, clears its experiment and
        decides with the binomial draw `draws[i]`. */
    method DecidePhase(draws: seq<nat>)
      requires Wired() && |draws| >= |scientists|
      requires forall i | 0 <= i < |draws| :: draws[i] <= params.nPerRound
      modifies Repr`roundExperiment
      ensures Wired()
      ensures Reports() == Decisions(scientists, |scientists|, Credences(), old(Reports()), params.lowStop, params.nPerRound, draws)
      ensures Credences() == old(Credences()) && Influencers() == old(Influencers())
      ensures Experience() == old(Experience()) && Skeptics() == old(Skeptics())
    {
      ghost var rep := Reports();
      for i := 0 to |scientists|
        invariant Wired()
        invariant Reports() == Decisions(scientists, i, Credences(), rep, params.lowStop, params.nPerRound, draws)
      {
        DecideOne(scientists[i], i, rep, draws);
      }
      ReportsOnly();
    }

    /** A scientist runs `jeffrey_update_credence`; only its credence changes. */
    method TakeTurn(s: Scientist)
      requires Wired() && s in Repr
      modifies s`credence
      ensures Wired() && Credences() == old(Credences())[s := s.credence]
      ensures s.credence == Fold(old(s.credence), old(s.Sources()), params.epsilon, params.m)
    {
      assert Fits(s, params) && s.Valid();
      assert forall j | 0 <= j < |s.influencers| :: s.influencers[j] in Repr;
      s.JeffreyUpdateCredence();
    }

    /** One iteration of the update loop: scientist i takes its turn on the
        live credences, which hold the first i turns of the sweep. */
    method UpdateOne(s: Scientist, i: nat, ghost before: map<Scientist, real>, ghost infl: map<Scientist, seq<Scientist>>,
                     ghost data: map<Scientist, Option<BinomialExperiment>>)
      requires Wired() && i < |scientists| && s == scientists[i] && forall x | x in scientists :: x in before
      requires Influencers() == infl && Reports() == data
      requires Credences() == Sweep(scientists, i, infl, data, params.epsilon, params.m, before)
      modifies s`credence
      ensures Wired() && Influencers() == infl && Reports() == data
      ensures Credences() == Sweep(scientists, i + 1, infl, data, params.epsilon, params.m, before)
    {
      ghost var cur := Credences();
      assert s in Repr && Fits(s, params);
      assert forall x | x in s.influencers :: x in Repr;
      SourcesAreView(s, cur, data);
      SweepStep(scientists, i, infl, data, params.epsilon, params.m, before);
      TakeTurn(s);
      CredencesOnly();
    }

    /** Phase 2: every scientist takes its turn, in list order, on the live
        credences and the experiments fixed in phase 1. */
    method UpdatePhase()
      requires Wired()
      modifies Repr`credence
      ensures Wired()
      ensures Credences() == Sweep(scientists, |scientists|, Influencers(), Reports(), params.epsilon, params.m,
                                   old(Credences()))
      ensures Influencers() == old(Influencers()) && Reports() == old(Reports())
      ensures Experience() == old(Experience()) && Skeptics() == old(Skeptics())
    {
      ghost var before := Credences();
      ghost var infl := Influencers();
      ghost var data := Reports();
      var i := 0;
      while i < |scientists|
        invariant 0 <= i <= |scientists|
        invariant Wired() && Influencers() == infl && Reports() == data
        invariant Credences() == Sweep(scientists, i, infl, data, params.epsilon, params.m, before)
      {
        UpdateOne(scientists[i], i, before, infl, data);
        i := i + 1;
      }
      CredencesOnly();
    }

    /** One iteration of the experience loop: scientist i gains a round
        after the first i have. */
    method GainOne(s: Scientist, i: nat, ghost exp: map<Scientist, nat>)
      requires Distinct(scientists) && i < |scientists| && s == scientists[i] && s in exp
      requires Experience() == Older(scientists[..i], exp)
      modifies s`roundsOfExperience
      ensures Experience() == Older(scientists[..i + 1], exp)
    {
      s.roundsOfExperience := s.roundsOfExperience + 1;
      OlderStep(scientists, i, exp, old(Experience()), Experience());
    }

    /** Phase 3: every scientist gains a round of experience. */
    method ExperiencePhase()
      requires Wired()
      modifies Repr`roundsOfExperience
      ensures Wired()
      ensures Experience() == Older(scientists, old(Experience()))
      ensures Credences() == old(Credences()) && Influencers() == old(Influencers())
      ensures Reports() == old(Reports()) && Skeptics() == old(Skeptics())
    {
      GainAll();
      ExperienceOnly();
    }

    /** The experience loop over the population, in list order. */
    method GainAll()
      requires Distinct(scientists) && forall x | x in scientists :: x in Repr
      modifies Repr`roundsOfExperience
      ensures Experience() == Older(scientists, old(Experience()))
    {
      ghost var exp := Experience();
      for i := 0 to |scientists|
        invariant Experience() == Older(scientists[..i], exp)
      {
        GainOne(scientists[i], i, exp);
      }
      assert scientists[..|scientists|] == scientists;
    }

    /** `_standard_round_actions`: every scientist clears its experiment and
        decides (`draws[i]` for scientist i), giving the reports `decided`;
        then every one updates in list order on the live credences and
        those reports; then every one gains a round of experience.  The
        reports stay until the next round clears them. */
    method StandardRoundActions(draws: seq<nat>) returns (ghost decided: map<Scientist, Option<BinomialExperiment>>)
      requires Valid() && |draws| >= |scientists|
      requires forall i | 0 <= i < |draws| :: draws[i] <= params.nPerRound
      modifies Repr`roundExperiment, Repr`credence, Repr`roundsOfExperience
      ensures Valid()
      ensures decided == Decisions(scientists, |scientists|, old(Credences()), old(Reports()), params.lowStop, params.nPerRound, draws)
      ensures Reports() == decided
      ensures Credences() == Sweep(scientists, |scientists|, Influencers(), decided, params.epsilon, params.m,
                                   old(Credences()))
      ensures Experience() == Older(scientists, old(Experience()))
      ensures Influencers() == old(Influencers()) && Skeptics() == old(Skeptics())
    {
      DecidePhase(draws);
      decided := Reports();
      UpdatePhase();
      ExperiencePhase();
      assert Structured() by {
        forall x | x in Repr
          ensures Shuffle(x.influencers, scientists)
        {
          assert x.influencers == old(Influencers())[x];
        }
      }
    }

    // -------------------------------------------------------------------
    // The lifecycle step (sim/network.py:57-80)
    // -------------------------------------------------------------------

    /** `retiree.__init__(prior, params, rng, retiree.is_skeptic)`: the same
        object starts over with `prior`, keeping its skeptic flag. */
    method Restart(s: Scientist, prior: real)
      requires Wired() && s in Repr && InUnit(prior)
      modifies s`credence, s`roundExperiment, s`previousExperiment, s`roundsOfExperience
      modifies s`influencers, s`isSkeptic
      ensures Wired() && s.Initial(prior, old(s.isSkeptic))
      ensures Credences() == old(Credences())[s := prior]
      ensures Experience() == old(Experience())[s := 0]
      ensures Skeptics() == old(Skeptics())
    {
      assert Fits(s, params);
      s.Reinit(prior, s.isSkeptic);
    }

    /** `retiree_credences.append(c)`; the population is left as it was. */
    method LogRetiree(c: real)
      modifies this`retireeCredences
      ensures retireeCredences == old(retireeCredences) + [c]
      ensures Valid() == old(Valid())
      ensures Credences() == old(Credences()) && Experience() == old(Experience())
      ensures Reports() == old(Reports()) && Skeptics() == old(Skeptics())
    {
      retireeCredences := retireeCredences + [c];
      Untouched();
    }

    /** The replacement itself: the retiree's credence is logged and it
        starts over with `prior` and its skeptic flag. */
    method Retire(s: Scientist, prior: real)
      requires Wired() && s in Repr && InUnit(prior)
      modifies this`retireeCredences
      modifies s`credence, s`roundExperiment, s`previousExperiment, s`roundsOfExperience
      modifies s`influencers, s`isSkeptic
      ensures Wired() && s.Initial(prior, old(s.isSkeptic))
      ensures retireeCredences == old(retireeCredences) + [old(s.credence)]
      ensures Credences() == old(Credences())[s := prior]
      ensures Experience() == old(Experience())[s := 0]
      ensures Skeptics() == old(Skeptics())
    {
      LogRetiree(s.credence);
      Restart(s, prior);
    }

    /** `_lifecycle_round_actions`: NotImplementedError without a lifecycle
        setup, and a division by zero when it asks for a replacement every
        0 rounds.  Otherwise, when the rounds played are a multiple of
        `rounds_to_new_agent` and there is a veteran, the veteran `Replaced`
        picks (the `retiree`) is replaced as `Retire` says, with prior .5
        if it is a skeptic and `admitPrior` (the admissions priors' draw)
        otherwise; with no retiree nothing changes. */
    method LifecycleRoundActions(pick: nat, admitPrior: real, perms: seq<seq<nat>>)
      returns (r: Outcome, ghost retiree: Option<Scientist>)
      requires Valid() && InUnit(admitPrior) && Shuffles(perms, |scientists|)
      modifies this`retireeCredences
      modifies Repr`credence, Repr`roundExperiment, Repr`previousExperiment, Repr`roundsOfExperience
      modifies Repr`influencers, Repr`isSkeptic
      ensures Valid()
      ensures r.Fail? <==> params.lifecycleSetup.None? || params.lifecycleSetup.value.roundsToNewAgent == 0
      ensures r.Fail? ==> r.error == if params.lifecycleSetup.None? then NotImplementedError else ZeroDivisionError
      ensures r.Pass? ==> retiree == old(Replaced(scientists, roundsPlayed, params.lifecycleSetup.value.roundsToNewAgent, pick))
      ensures retiree.None? ==> unchanged(this) && unchanged(Repr)
      ensures retiree.Some? ==> retiree.value in Repr
      ensures retiree.Some? ==>
                var s := retiree.value;
                && retireeCredences == old(retireeCredences) + [old(Credences())[s]]
                && Credences() == old(Credences())[s := if s in old(Skeptics()) then SkepticPrior else admitPrior]
                && Experience() == old(Experience())[s := 0]
      ensures Skeptics() == old(Skeptics())
    {
      retiree := None;
      if params.lifecycleSetup.None? {
        return Fail(NotImplementedError), None;
      }
      var every := params.lifecycleSetup.value.roundsToNewAgent;
      if every == 0 {
        return Fail(ZeroDivisionError), None;
      }
      r := Pass;
      if roundsPlayed % every != 0 {
        return;
      }
      var veterans := Veterans(scientists);
      if veterans == [] {
        return;
      }
      var s := veterans[pick % |veterans|];
      retiree := Some(s);
      var prior := if s.isSkeptic then SkepticPrior else admitPrior;
      Replace(s, prior, perms);
    }

    /** A retiree is replaced, and the topology is rebuilt. */
    method Replace(s: Scientist, prior: real, perms: seq<seq<nat>>)
      requires Valid() && s in Repr && InUnit(prior) && Shuffles(perms, |scientists|)
      modifies this`retireeCredences
      modifies Repr`credence, Repr`roundExperiment, Repr`previousExperiment, Repr`roundsOfExperience
      modifies Repr`influencers, Repr`isSkeptic
      ensures Valid()
      ensures retireeCredences == old(retireeCredences) + [old(Credences())[s]]
      ensures Credences() == old(Credences())[s := prior]
      ensures Experience() == old(Experience())[s := 0]
      ensures Skeptics() == old(Skeptics())
    {
      Retire(s, prior);
      StructureScientificNetwork(perms);
    }

    /** `enetwork_play_round`: a standard round, then the lifecycle step
        (stopping at its error, with the standard round played), then one
        more round played.  Because the error depends on the parameters
        alone, a configuration without a lifecycle setup fails on the first
        round. */
    method PlayRound(d: RoundDraws) returns (r: Outcome)
      requires Valid() && DrawsFit(d, params)
      modifies this`retireeCredences, this`roundsPlayed
      modifies Repr`credence, Repr`roundExperiment, Repr`previousExperiment, Repr`roundsOfExperience
      modifies Repr`influencers, Repr`isSkeptic
      ensures Valid()
      ensures r.Fail? <==> params.lifecycleSetup.None? || params.lifecycleSetup.value.roundsToNewAgent == 0
      ensures r.Fail? ==> r.error == if params.lifecycleSetup.None? then NotImplementedError else ZeroDivisionError
      ensures roundsPlayed == old(roundsPlayed) + (if r.Pass? then 1 else 0)
      ensures Skeptics() == old(Skeptics())
    {
      StandardRound(d.draws);
      ghost var retiree;
      r, retiree := LifecycleRoundActions(d.pick, d.admitPrior, d.perms);
      if r.Fail? {
        return;
      }
      CountRound();
    }

    /** `StandardRoundActions`, seen from `PlayRound`. */
    method StandardRound(draws: seq<nat>)
      requires Valid() && |draws| >= |scientists|
      requires forall i | 0 <= i < |draws| :: draws[i] <= params.nPerRound
      modifies Repr`roundExperiment, Repr`credence, Repr`roundsOfExperience
      ensures Valid() && Skeptics() == old(Skeptics())
    {
      var _ := StandardRoundActions(draws);
    }

    /** `self._rounds_played += 1`; the population is left as it was. */
    method CountRound()
      modifies this`roundsPlayed
      ensures roundsPlayed == old(roundsPlayed) + 1
      ensures Valid() == old(Valid()) && Skeptics() == old(Skeptics())
    {
      roundsPlayed := roundsPlayed + 1;
      Untouched();
    }
  }
}
