/** The epistemic network of network/network.py: a list of working
    scientists, a list of retired ones, the influencer topology, and the
    round protocol (decide, update in list order, age), with retirement and
    admission in the unstable lifecycle mode. */
module Network {
  import opened Experiments
  import opened Jeffrey
  import opened Agents
  import opened Priors
  import opened Turns

  datatype NetworkType = Complete | Cycle

  /** The fields of `ENParams` this network reads. */
  datatype Params = Params(initPopcount: nat,
                           networkType: NetworkType,
                           nPerRound: nat,
                           epsilon: real,
                           lowStop: real,
                           m: real,
                           lifecycle: bool)

  /** Parameters under which every update of a round is defined. */
  predicate ValidParams(p: Params)
  {
    ValidUpdater(p.epsilon, p.m) && p.nPerRound >= 1
  }

  /** `math.ceil(init * 0.7)`: the population below which nobody retires. */
  function ContractionLimit(init: nat): (r: nat)
    ensures r as real >= 0.7 * init as real
    ensures (r - 1) as real < 0.7 * init as real
  {
    (7 * init + 9) / 10
  }

  /** `math.floor(init * 1.3)`: the population above which nobody is admitted. */
  function ExpansionLimit(init: nat): (r: nat)
    ensures r as real <= 1.3 * init as real
    ensures 1.3 * init as real < (r + 1) as real
  {
    (13 * init) / 10
  }

  /** The starting population lies between the two limits. */
  lemma LimitsAround(init: nat)
    ensures ContractionLimit(init) <= init <= ExpansionLimit(init)
  {
  }

  /** `xs[j]` with Python's negative indexing. */
  function PyIndex<T>(xs: seq<T>, j: int): T
    requires -|xs| <= j < |xs|
  {
    if j >= 0 then xs[j] else xs[|xs| + j]
  }

  /** The three influencers `_add_cycle_influencers_for_updater` gives the
      scientist at index i: its left neighbour `influencers[i-1]` (the last
      one when i is 0), itself, and its right neighbour, modulo the size. */
  function CycleInfluencers<T>(xs: seq<T>, i: nat): (r: seq<T>)
    requires i < |xs|
    ensures |r| == 3
    ensures r[0] == xs[(i + |xs| - 1) % |xs|]
    ensures r[1] == xs[i]
    ensures r[2] == xs[(i + 1) % |xs|]
  {
    Neighbours(i, |xs|);
    [PyIndex(xs, i - 1), xs[i], xs[(i + 1) % |xs|]]
  }

  /** The indices either side of i on a cycle of n. */
  lemma Neighbours(i: nat, n: nat)
    requires i < n
    ensures (i + n - 1) % n == if i == 0 then n - 1 else i - 1
    ensures (i + 1) % n == if i + 1 == n then 0 else i + 1
  {
    if i == 0 {
      ModBelow(n - 1, n);
    } else {
      ModWrap(i + n - 1, n);
    }
    if i + 1 < n {
      ModBelow(i + 1, n);
    } else {
      ModWrap(i + 1, n);
    }
  }

  lemma ModBelow(a: int, n: int)
    requires 0 <= a < n
    ensures a % n == a
  {
  }

  lemma ModWrap(a: int, n: int)
    requires n <= a < 2 * n
    ensures a % n == a - n
  {
  }

  /** The influencer list `_structure_scientific_network` gives the
      scientist at index i. */
  function Topology<T>(xs: seq<T>, i: nat, networkType: NetworkType): seq<T>
    requires i < |xs|
  {
    match networkType
    case Complete => xs
    case Cycle => CycleInfluencers(xs, i)
  }

  /** The topology only ever names members of the list. */
  lemma TopologyWithin<T>(xs: seq<T>, i: nat, networkType: NetworkType, y: T)
    requires i < |xs| && y in Topology(xs, i, networkType)
    ensures y in xs
  {
  }

  /** `list.remove(x)`: the list without the first occurrence of `x`. */
  function Remove<T(==)>(xs: seq<T>, x: T): (r: seq<T>)
    requires x in xs
    ensures |r| == |xs| - 1
    ensures multiset(r) == multiset(xs) - multiset{x}
  {
    var i := IndexOf(xs, x);
    assert xs == xs[..i] + [x] + xs[i + 1..];
    xs[..i] + xs[i + 1..]
  }

  /** `[s for s in scientists if s.rounds_of_experience > 10]`. */
  function Experienced(ss: seq<Scientist>): (r: seq<Scientist>)
    reads ss`roundsOfExperience
    ensures |r| <= |ss|
    ensures forall x | x in r :: x in ss && x.roundsOfExperience > 10
    ensures forall x | x in ss && x.roundsOfExperience > 10 :: x in r
  {
    if ss == [] then []
    else (if ss[0].roundsOfExperience > 10 then [ss[0]] else []) + Experienced(ss[1..])
  }

  /** The random draws one call of `enetwork_play_round` consumes: the
      lifecycle's uniform draws, index draw and admission prior, and one
      binomial draw per working scientist for each standard round
      (`lifecycleDraws` for the one inside the unstable actions, `draws`
      for the last). */
  datatype RoundDraws = RoundDraws(retireCoin: real, retirePick: nat, admitCoin: real, admitPrior: real,
                                   lifecycleDraws: seq<nat>, draws: seq<nat>)

  /** Draws a round under parameters `p` can consume: the admission prior
      lies in [UNIFORM_LOW, 1), and there is a binomial draw of at most
      `n_per_round` successes for every scientist the population bounds
      allow. */
  predicate DrawsFit(d: RoundDraws, p: Params)
  {
    && UniformLow <= d.admitPrior < 1.0
    && |d.lifecycleDraws| > ExpansionLimit(p.initPopcount)
    && |d.draws| > ExpansionLimit(p.initPopcount)
    && (forall i | 0 <= i < |d.lifecycleDraws| :: d.lifecycleDraws[i] <= p.nPerRound)
    && (forall i | 0 <= i < |d.draws| :: d.draws[i] <= p.nPerRound)
  }

  /** Whom `_retire` sends into retirement: nobody unless the uniform draw
      `coin` is below 0.25, the population is above `ContractionLimit`, and
      somebody has more than 10 rounds of experience; then the experienced
      scientist at `pick` (modulo their number), which models the uniform
      index draw. */
  function Retiree(ss: seq<Scientist>, init: nat, coin: real, pick: nat): (r: Option<Scientist>)
    reads ss`roundsOfExperience
    ensures r.Some? <==> coin < 0.25 && |ss| > ContractionLimit(init) && exists x | x in ss :: x.roundsOfExperience > 10
    ensures r.Some? ==> r.value in ss && r.value.roundsOfExperience > 10
  {
    if coin < 0.25 && |ss| > ContractionLimit(init) then
      var pool := Experienced(ss);
      if pool == [] then None else Some(pool[pick % |pool|])
    else None
  }

  /** A scientist built with the network's parameters. */
  predicate Carries(x: Scientist, p: Params)
    reads x
  {
    InUnit(x.credence) && Fits(x, p)
  }

  /** `Carries` apart from the credence: the network's parameters. */
  predicate Fits(x: Scientist, p: Params)
  {
    x.nPerRound == p.nPerRound && x.epsilon == p.epsilon && x.lowStop == p.lowStop && x.m == p.m
  }

  /** Phase 3 on values: the previous experiments once the scientists of
      `order` have kept their round experiment from `rep`. */
  function Aged(order: seq<Scientist>, prev: map<Scientist, Option<BinomialExperiment>>,
                rep: map<Scientist, Option<BinomialExperiment>>): (r: map<Scientist, Option<BinomialExperiment>>)
    requires prev.Keys <= rep.Keys
    ensures r.Keys == prev.Keys
  {
    map x | x in prev :: if x in order then rep[x] else prev[x]
  }

  /** Phase 3 on values: the round experiments once the scientists of
      `order` have cleared theirs. */
  function Cleared(order: seq<Scientist>, rep: map<Scientist, Option<BinomialExperiment>>)
    : (r: map<Scientist, Option<BinomialExperiment>>)
    ensures r.Keys == rep.Keys
  {
    map x | x in rep :: if x in order then None else rep[x]
  }

  /** One more scientist of a list without repeats ages: from the maps
      `p0`, `r0`, `e0` after the first `i` scientists of `order` have aged,
      ageing `order[i]` gives the maps after `i + 1`. */
  lemma AgedStep(order: seq<Scientist>, i: nat, prev: map<Scientist, Option<BinomialExperiment>>,
                 rep: map<Scientist, Option<BinomialExperiment>>, exp: map<Scientist, nat>,
                 p0: map<Scientist, Option<BinomialExperiment>>, r0: map<Scientist, Option<BinomialExperiment>>,
                 e0: map<Scientist, nat>, p1: map<Scientist, Option<BinomialExperiment>>,
                 r1: map<Scientist, Option<BinomialExperiment>>, e1: map<Scientist, nat>)
    requires i < |order| && Distinct(order) && prev.Keys == rep.Keys && forall x | x in order :: x in rep && x in exp
    requires p0 == Aged(order[..i], prev, rep) && r0 == Cleared(order[..i], rep) && e0 == Older(order[..i], exp)
    requires p1 == p0[order[i] := r0[order[i]]] && r1 == r0[order[i] := None] && e1 == e0[order[i] := e0[order[i]] + 1]
    ensures p1 == Aged(order[..i + 1], prev, rep)
    ensures r1 == Cleared(order[..i + 1], rep)
    ensures e1 == Older(order[..i + 1], exp)
  {
    assert order[..i + 1] == order[..i] + [order[i]];
    assert order[i] !in order[..i];
  }

  /** What a scientist reads from its influencers is its view of the
      credences and reports held in `cred` and `data`. */
  lemma SourcesAreView(s: Scientist, cred: map<Scientist, real>, data: map<Scientist, Option<BinomialExperiment>>)
    requires forall x | x in s.influencers :: x in cred && x in data && cred[x] == x.credence && data[x] == x.roundExperiment
    ensures s.Sources() == ViewOf(s, s.influencers, cred, data)
  {
  }

  /** In a list without repeats, `list.remove(x)` leaves no `x` behind. */
  lemma RemoveDistinct<T>(xs: seq<T>, x: T)
    requires Distinct(xs) && x in xs
    ensures x !in Remove(xs, x)
  {
    var i := IndexOf(xs, x);
    assert Remove(xs, x) == xs[..i] + xs[i + 1..];
  }

  /** Lemma: moving one working scientist to the retired list keeps every
      scientist distinct. */
  lemma MoveKeepsDistinct(scientists: seq<Scientist>, retired: seq<Scientist>, s: Scientist)
    requires Distinct(scientists + retired) && s in scientists
    ensures Distinct(Remove(scientists, s) + (retired + [s]))
  {
    var after := Remove(scientists, s) + (retired + [s]);
    assert multiset(after) == multiset(scientists + retired);
    forall a, b | 0 <= a < b < |after|
      ensures after[a] != after[b]
    {
      if after[a] == after[b] {
        TwoCopies(after, a, b);
        DistinctCounts(scientists + retired, after[a]);
        assert false;
      }
    }
  }

  /** A value at two positions occurs at least twice. */
  lemma TwoCopies<T>(xs: seq<T>, a: nat, b: nat)
    requires a < b < |xs| && xs[a] == xs[b]
    ensures multiset(xs)[xs[a]] >= 2
  {
    assert xs == xs[..a] + [xs[a]] + xs[a + 1..b] + [xs[b]] + xs[b + 1..];
  }

  lemma {:induction false} DistinctCounts<T>(xs: seq<T>, x: T)
    requires Distinct(xs)
    ensures multiset(xs)[x] <= 1
    decreases |xs|
  {
    if xs != [] {
      assert Distinct(xs[1..]);
      DistinctCounts(xs[1..], x);
      assert xs == [xs[0]] + xs[1..];
      if xs[0] == x {
        assert x !in xs[1..];
      }
    }
  }

  class ENetwork {
    const params: Params
    var scientists: seq<Scientist>
    var retired: seq<Scientist>
    var roundsPlayed: nat
    /** Every scientist the network has ever held, working or retired. */
    ghost var Repr: set<Scientist>

    /** The object structure: `Repr` is exactly the working and retired
        scientists, nobody appears twice, everyone carries the network's
        parameters, and influencer lists point inside the network. */
    ghost predicate Wired()
      reads this`Repr, this`scientists, this`retired, Repr`influencers, Repr`credence
    {
      Shape() && forall x | x in Repr :: InUnit(x.credence)
    }

    /** `Wired` apart from the credences, which the update phase changes. */
    ghost predicate Shape()
      reads this`Repr, this`scientists, this`retired, Repr`influencers
    {
      Roster() && Fitted() && Closed()
    }

    /** `Repr` is exactly the working and retired scientists, and nobody
        appears twice. */
    ghost predicate Roster()
      reads this`Repr, this`scientists, this`retired
    {
      && ValidParams(params)
      && (forall x | x in Repr :: x in scientists || x in retired)
      && (forall x | x in scientists :: x in Repr)
      && (forall x | x in retired :: x in Repr)
      && Distinct(scientists + retired)
    }

    /** Everyone carries the network's parameters. */
    ghost predicate Fitted()
      reads this`Repr
    {
      forall x | x in Repr :: Fits(x, params)
    }

    /** Influencer lists point inside the network. */
    ghost predicate Closed()
      reads this`Repr, Repr`influencers
    {
      forall x, y | x in Repr && y in x.influencers :: y in Repr
    }

    /** Between rounds nobody holds a round experiment. */
    ghost predicate Resting()
      reads this`Repr, Repr`roundExperiment
    {
      forall x | x in Repr :: x.roundExperiment == None
    }

    /** The class invariant between rounds, including the population
        bounds that retirement and admission keep. */
    ghost predicate Valid()
      reads this`Repr, this`scientists, this`retired, Repr`influencers, Repr`credence, Repr`roundExperiment
    {
      && Wired()
      && Resting()
      && ContractionLimit(params.initPopcount) <= |scientists| <= ExpansionLimit(params.initPopcount) + 1
    }

    /** Every scientist's current credence. */
    ghost function Credences(): (r: map<Scientist, real>)
      reads this`Repr, Repr`credence
      ensures r.Keys == Repr
    {
      map x | x in Repr :: x.credence
    }

    /** Every scientist's round experiment. */
    ghost function Reports(): (r: map<Scientist, Option<BinomialExperiment>>)
      reads this`Repr, Repr`roundExperiment
      ensures r.Keys == Repr
    {
      map x | x in Repr :: x.roundExperiment
    }

    /** Every scientist's influencer list. */
    ghost function Influencers(): (r: map<Scientist, seq<Scientist>>)
      reads this`Repr, Repr`influencers
      ensures r.Keys == Repr
    {
      map x | x in Repr :: x.influencers
    }

    /** Every scientist's previous experiment. */
    ghost function Previous(): (r: map<Scientist, Option<BinomialExperiment>>)
      reads this`Repr, Repr`previousExperiment
      ensures r.Keys == Repr
    {
      map x | x in Repr :: x.previousExperiment
    }

    /** Every scientist's rounds of experience. */
    ghost function Experience(): (r: map<Scientist, nat>)
      reads this`Repr, Repr`roundsOfExperience
      ensures r.Keys == Repr
    {
      map x | x in Repr :: x.roundsOfExperience
    }

    /** The scientists `ENetwork(rng, params)` builds, one per prior, each
        with the network's parameters. */
    static method Recruit(params: Params, priors: seq<real>) returns (ss: seq<Scientist>)
      requires ValidParams(params)
      requires forall i | 0 <= i < |priors| :: InUnit(priors[i])
      ensures |ss| == |priors| && Distinct(ss)
      ensures forall x | x in ss :: fresh(x) && Carries(x, params) && x.influencers == [] && x.roundExperiment == None
      ensures forall i | 0 <= i < |ss| ::
                ss[i].Snapshot() == Record(priors[i], None, None, 0, [])
    {
      ss := [];
      var i := 0;
      while i < |priors|
        invariant 0 <= i <= |priors| && |ss| == i && Distinct(ss)
        invariant forall x | x in ss :: fresh(x) && Carries(x, params) && x.influencers == [] && x.roundExperiment == None
        invariant forall j | 0 <= j < i :: ss[j].Snapshot() == Record(priors[j], None, None, 0, [])
      {
        var s := new Scientist(params.nPerRound, params.epsilon, params.lowStop, priors[i], params.m);
        ss := ss + [s];
        i := i + 1;
      }
    }

    /** The population of `ENetwork.__init__`, before structuring: one
        scientist per prior, nobody with an influencer. */
    constructor (params: Params, priors: seq<real>)
      requires ValidParams(params) && |priors| == params.initPopcount
      requires forall i | 0 <= i < |priors| :: InUnit(priors[i])
      ensures Wired() && Resting() && fresh(Repr)
      ensures this.params == params && roundsPlayed == 0 && retired == []
      ensures |scientists| == |priors|
      ensures forall i | 0 <= i < |scientists| :: scientists[i].Snapshot() == Record(priors[i], None, None, 0, [])
    {
      this.params := params;
      var ss := Recruit(params, priors);
      scientists := ss;
      retired := [];
      roundsPlayed := 0;
      Repr := set x | x in ss;
      new;
      assert scientists + retired == scientists;
    }

    /** The last step of `__init__`: the topology is built over the
        starting population. */
    method Establish()
      requires Wired() && Resting() && retired == [] && |scientists| == params.initPopcount
      modifies Repr`influencers
      ensures Valid()
      ensures forall i | 0 <= i < |scientists| ::
                scientists[i].influencers == old(scientists[i].influencers) + Topology(scientists, i, params.networkType)
    {
      LimitsAround(params.initPopcount);
      StructureScientificNetwork();
    }

    /** `ENetwork(rng, params)`: ValueError when the priors function does not
        deliver exactly `scientist_init_popcount` priors; otherwise every
        scientist starts from its prior with the influencers of the
        topology. */
    static method Create(params: Params, priors: seq<real>) returns (r: Result<ENetwork>)
      requires ValidParams(params)
      requires forall i | 0 <= i < |priors| :: InUnit(priors[i])
      ensures r.Failure? <==> |priors| != params.initPopcount
      ensures r.Failure? ==> r.error == ValueError
      ensures r.Success? ==> fresh(r.value) && fresh(r.value.Repr) && r.value.Valid()
      ensures r.Success? ==> r.value.params == params && r.value.roundsPlayed == 0 && r.value.retired == []
      ensures r.Success? ==> |r.value.scientists| == |priors|
      ensures r.Success? ==>
                forall i | 0 <= i < |r.value.scientists| ::
                  r.value.scientists[i].Snapshot()
                  == Record(priors[i], None, None, 0, Topology(r.value.scientists, i, params.networkType))
    {
      if |priors| != params.initPopcount {
        return Failure(ValueError);
      }
      var net := new ENetwork(params, priors);
      net.Establish();
      return Success(net);
    }

    /** `_add_all_influencers_for_updater`: append every one of `influencers`,
        in order. */
    static method AddAllInfluencers(updater: Scientist, influencers: seq<Scientist>)
      modifies updater`influencers
      ensures updater.influencers == old(updater.influencers) + influencers
    {
      var j := 0;
      while j < |influencers|
        invariant 0 <= j <= |influencers|
        invariant updater.influencers == old(updater.influencers) + influencers[..j]
      {
        updater.AddJeffreyInfluencer(influencers[j]);
        assert influencers[..j + 1] == influencers[..j] + [influencers[j]];
        j := j + 1;
      }
    }

    /** `_add_cycle_influencers_for_updater`. */
    static method AddCycleInfluencers(updater: Scientist, i: nat, influencers: seq<Scientist>)
      requires i < |influencers|
      modifies updater`influencers
      ensures updater.influencers == old(updater.influencers) + CycleInfluencers(influencers, i)
    {
      updater.AddJeffreyInfluencer(PyIndex(influencers, i - 1));
      updater.AddJeffreyInfluencer(influencers[i]);
      updater.AddJeffreyInfluencer(influencers[(i + 1) % |influencers|]);
    }

    /** One iteration of `_structure_scientific_network`. */
    method StructureOne(s: Scientist, i: nat)
      requires i < |scientists| && s == scientists[i]
      modifies s`influencers
      ensures s.influencers == old(s.influencers) + Topology(scientists, i, params.networkType)
    {
      match params.networkType {
        case Complete =>
          AddAllInfluencers(s, scientists);
        case Cycle =>
          AddCycleInfluencers(s, i, scientists);
      }
    }

    /** `_structure_scientific_network`: every working scientist, in list
        order, gets the influencers of the topology; the credences and the
        object structure stay as they were. */
    method StructureScientificNetwork()
      requires Wired()
      modifies Repr`influencers
      ensures Wired()
      ensures forall i | 0 <= i < |scientists| ::
                scientists[i].influencers == old(scientists[i].influencers) + Topology(scientists, i, params.networkType)
      ensures forall x | x in retired :: x.influencers == old(x.influencers)
    {
      DistinctSplit(scientists, retired);
      StructureAll();
      InfluencersOnly();
      forall x, y | x in Repr && y in x.influencers
        ensures y in Repr
      {
        if x in scientists && y !in old(x.influencers) {
          var k :| 0 <= k < |scientists| && scientists[k] == x;
          TopologyWithin(scientists, k, params.networkType, y);
        }
      }
    }

    /** The loop of `_structure_scientific_network`. */
    method StructureAll()
      requires Distinct(scientists) && forall x | x in scientists :: x in Repr && x !in retired
      modifies Repr`influencers
      ensures forall i | 0 <= i < |scientists| ::
                scientists[i].influencers == old(scientists[i].influencers) + Topology(scientists, i, params.networkType)
      ensures forall x | x in retired :: x.influencers == old(x.influencers)
    {
      var i := 0;
      while i < |scientists|
        invariant 0 <= i <= |scientists|
        invariant forall k | 0 <= k < i ::
                    scientists[k].influencers == old(scientists[k].influencers) + Topology(scientists, k, params.networkType)
        invariant forall k | i <= k < |scientists| :: scientists[k].influencers == old(scientists[k].influencers)
        invariant forall x | x in retired :: x.influencers == old(x.influencers)
      {
        StructureOne(scientists[i], i);
        i := i + 1;
      }
    }

    // -------------------------------------------------------------------
    // The round (network/network.py:53-62)
    // -------------------------------------------------------------------

    /** A working scientist decides its research action with the binomial
        draw `k`; only its round experiment changes. */
    method Decide(s: Scientist, k: nat)
      requires Wired() && s in Repr && k <= params.nPerRound
      modifies s`roundExperiment
      ensures Wired()
      ensures Reports() == old(Reports())[s := Decision(Credences()[s], params.lowStop, params.nPerRound, k)]
    {
      assert Carries(s, params);
      s.DecideRoundResearchAction(k);
    }

    /** One iteration of the decide loop: scientist i decides after the
        first i have. */
    method DecideOne(s: Scientist, i: nat, ghost rep: map<Scientist, Option<BinomialExperiment>>, draws: seq<nat>)
      requires Wired() && i < |scientists| <= |draws| && s == scientists[i] && rep.Keys == Repr
      requires forall j | 0 <= j < |draws| :: draws[j] <= params.nPerRound
      requires Reports() == Decisions(scientists, i, Credences(), rep, params.lowStop, params.nPerRound, draws)
      modifies s`roundExperiment
      ensures Wired()
      ensures Reports() == Decisions(scientists, i + 1, Credences(), rep, params.lowStop, params.nPerRound, draws)
    {
      DistinctSplit(scientists, retired);
      Decide(s, draws[i]);
      DecisionsStep(scientists, i, Credences(), rep, params.lowStop, params.nPerRound, draws, old(Reports()), Reports());
    }

    /** Phase 1: every working scientist decides, in list order, with the
        binomial draw `draws[i]` for scientist i. */
    method DecidePhase(draws: seq<nat>)
      requires Wired() && |draws| >= |scientists|
      requires forall i | 0 <= i < |draws| :: draws[i] <= params.nPerRound
      modifies Repr`roundExperiment
      ensures Wired()
      ensures Reports() == Decisions(scientists, |scientists|, Credences(), old(Reports()), params.lowStop, params.nPerRound, draws)
      ensures Credences() == old(Credences()) && Influencers() == old(Influencers())
      ensures Previous() == old(Previous()) && Experience() == old(Experience())
    {
      ghost var rep := Reports();
      var i := 0;
      while i < |scientists|
        invariant 0 <= i <= |scientists|
        invariant Wired()
        invariant Reports() == Decisions(scientists, i, Credences(), rep, params.lowStop, params.nPerRound, draws)
      {
        DecideOne(scientists[i], i, rep, draws);
        i := i + 1;
      }
      ReportsOnly();
    }

    /** A scientist runs `jeffrey_update_credence`; only its credence changes. */
    method TakeTurn(s: Scientist)
      requires Wired() && s in Repr
      modifies s`credence
      ensures Wired() && Credences() == old(Credences())[s := s.credence]
      ensures s.credence == Fold(old(s.credence), old(s.Sources()), params.epsilon, params.m)
    {
      assert Carries(s, params);
      assert forall j | 0 <= j < |s.influencers| :: s.influencers[j] in Repr;
      s.JeffreyUpdateCredence();
    }

    /** One iteration of the update loop: scientist i takes its turn on the
        live credences, which hold the first i turns of the sweep. */
    method UpdateOne(s: Scientist, i: nat, ghost before: map<Scientist, real>, ghost infl: map<Scientist, seq<Scientist>>,
                     ghost data: map<Scientist, Option<BinomialExperiment>>)
      requires Wired() && i < |scientists| && s == scientists[i] && forall x | x in scientists :: x in before
      requires Influencers() == infl && Reports() == data
      requires Credences() == Sweep(scientists, i, infl, data, params.epsilon, params.m, before)
      modifies s`credence
      ensures Wired() && Influencers() == infl && Reports() == data
      ensures Credences() == Sweep(scientists, i + 1, infl, data, params.epsilon, params.m, before)
      ensures Previous() == old(Previous()) && Experience() == old(Experience())
    {
      ghost var cur := Credences();
      assert s in Repr && Carries(s, params);
      assert forall x | x in s.influencers :: x in Repr;
      SourcesAreView(s, cur, data);
      SweepStep(scientists, i, infl, data, params.epsilon, params.m, before);
      TakeTurn(s);
      CredencesOnly();
    }

    /** Phase 2: every working scientist takes its turn, in list order, on
        the live credences; everyone's experiment is the one fixed in
        phase 1. */
    method UpdatePhase()
      requires Wired()
      modifies Repr`credence
      ensures Wired()
      ensures Credences() == Sweep(scientists, |scientists|, Influencers(), Reports(), params.epsilon, params.m,
                                   old(Credences()))
      ensures Influencers() == old(Influencers()) && Reports() == old(Reports())
      ensures Previous() == old(Previous()) && Experience() == old(Experience())
    {
      ghost var before := Credences();
      ghost var infl := Influencers();
      ghost var data := Reports();
      var i := 0;
      while i < |scientists|
        invariant 0 <= i <= |scientists|
        invariant Wired() && Influencers() == infl && Reports() == data
        invariant Previous() == old(Previous()) && Experience() == old(Experience())
        invariant Credences() == Sweep(scientists, i, infl, data, params.epsilon, params.m, before)
      {
        UpdateOne(scientists[i], i, before, infl, data);
        i := i + 1;
      }
    }

    /** A working scientist ages: its round experiment becomes its previous
        one and is cleared, and it gains a round of experience. */
    method Age(s: Scientist)
      requires s in Repr
      modifies s`previousExperiment, s`roundExperiment, s`roundsOfExperience
      ensures Previous() == old(Previous())[s := old(Reports())[s]]
      ensures Reports() == old(Reports())[s := None]
      ensures Experience() == old(Experience())[s := old(Experience())[s] + 1]
    {
      s.previousExperiment, s.roundExperiment, s.roundsOfExperience := s.roundExperiment, None, s.roundsOfExperience + 1;
    }

    /** One iteration of the ageing loop: scientist i ages after the first
        i have. */
    method AgeOne(s: Scientist, i: nat, ghost prev: map<Scientist, Option<BinomialExperiment>>,
                  ghost rep: map<Scientist, Option<BinomialExperiment>>, ghost exp: map<Scientist, nat>)
      requires Distinct(scientists) && i < |scientists| && s == scientists[i] && forall x | x in scientists :: x in Repr
      requires prev.Keys == rep.Keys == exp.Keys == Repr
      requires Previous() == Aged(scientists[..i], prev, rep)
      requires Reports() == Cleared(scientists[..i], rep)
      requires Experience() == Older(scientists[..i], exp)
      modifies s`previousExperiment, s`roundExperiment, s`roundsOfExperience
      ensures Previous() == Aged(scientists[..i + 1], prev, rep)
      ensures Reports() == Cleared(scientists[..i + 1], rep)
      ensures Experience() == Older(scientists[..i + 1], exp)
    {
      Age(s);
      AgedStep(scientists, i, prev, rep, exp, old(Previous()), old(Reports()), old(Experience()),
               Previous(), Reports(), Experience());
    }

    /** Phase 3: every working scientist keeps its experiment as the
        previous one, clears it, and gains a round of experience. */
    method AgePhase()
      requires Wired()
      modifies Repr`previousExperiment, Repr`roundExperiment, Repr`roundsOfExperience
      ensures Wired()
      ensures Previous() == Aged(scientists, old(Previous()), old(Reports()))
      ensures Reports() == Cleared(scientists, old(Reports()))
      ensures Experience() == Older(scientists, old(Experience()))
      ensures Credences() == old(Credences()) && Influencers() == old(Influencers())
    {
      DistinctSplit(scientists, retired);
      AgeAll();
      AgeingOnly();
    }

    /** The ageing loop over the working list, in list order. */
    method AgeAll()
      requires Distinct(scientists) && forall x | x in scientists :: x in Repr
      modifies Repr`previousExperiment, Repr`roundExperiment, Repr`roundsOfExperience
      ensures Previous() == Aged(scientists, old(Previous()), old(Reports()))
      ensures Reports() == Cleared(scientists, old(Reports()))
      ensures Experience() == Older(scientists, old(Experience()))
    {
      ghost var prev, rep, exp := Previous(), Reports(), Experience();
      var i := 0;
      while i < |scientists|
        invariant 0 <= i <= |scientists|
        invariant Previous() == Aged(scientists[..i], prev, rep)
        invariant Reports() == Cleared(scientists[..i], rep)
        invariant Experience() == Older(scientists[..i], exp)
      {
        AgeOne(scientists[i], i, prev, rep, exp);
        i := i + 1;
      }
      assert scientists[..i] == scientists;
    }

    /** `_standard_round_actions`: every working scientist decides with its
        binomial draw (`draws[i]` for scientist i), giving the reports
        `decided`; then every one of them updates in list order on the live
        credences and those reports; then every one of them ages.  Retired
        scientists are left as they were. */
    method StandardRoundActions(draws: seq<nat>) returns (ghost decided: map<Scientist, Option<BinomialExperiment>>)
      requires Valid() && |draws| >= |scientists|
      requires forall i | 0 <= i < |draws| :: draws[i] <= params.nPerRound
      modifies Repr`roundExperiment, Repr`credence, Repr`previousExperiment, Repr`roundsOfExperience
      ensures Valid()
      ensures decided == Decisions(scientists, |scientists|, old(Credences()), old(Reports()), params.lowStop, params.nPerRound, draws)
      ensures Credences() == Sweep(scientists, |scientists|, Influencers(), decided, params.epsilon, params.m,
                                   old(Credences()))
      ensures Previous() == Aged(scientists, old(Previous()), decided)
      ensures Experience() == Older(scientists, old(Experience()))
    {
      DecidePhase(draws);
      decided := Reports();
      UpdatePhase();
      AgePhase();
      assert scientists[..|scientists|] == scientists;
    }

    // -------------------------------------------------------------------
    // The lifecycle (network/network.py:100-146)
    // -------------------------------------------------------------------

    /** `_retire`: the scientist `Retiree` picks (if any) leaves the working
        list and goes to the end of the retired list; nothing else changes. */
    method Retire(coin: real, pick: nat) returns (ghost gone: Option<Scientist>)
      requires Valid()
      modifies this`scientists, this`retired
      ensures Valid()
      ensures gone == old(Retiree(scientists, params.initPopcount, coin, pick))
      ensures gone.None? ==> scientists == old(scientists) && retired == old(retired)
      ensures gone.Some? ==> scientists == Remove(old(scientists), gone.value) && retired == old(retired) + [gone.value]
      ensures gone.Some? ==> gone.value !in scientists
    {
      gone := None;
      if coin < 0.25 {
        if |scientists| <= ContractionLimit(params.initPopcount) {
          return;
        }
        var pool := Experienced(scientists);
        if pool == [] {
          return;
        }
        var s := pool[pick % |pool|];
        Move(s);
        gone := Some(s);
      }
    }

    /** The two list operations of `_retire`: the scientist leaves the
        working list and is appended to the retired one. */
    method Move(s: Scientist)
      requires Valid() && s in scientists && |scientists| > ContractionLimit(params.initPopcount)
      modifies this`scientists, this`retired
      ensures Valid()
      ensures scientists == Remove(old(scientists), s) && retired == old(retired) + [s] && s !in scientists
    {
      MoveKeepsDistinct(scientists, retired, s);
      DistinctSplit(scientists, retired);
      RemoveDistinct(scientists, s);
      retired := retired + [s];
      scientists := Remove(scientists, s);
    }

    /** The loop of `_admissions` and the append that ends it: the fresh
        scientist `s` and every working scientist influence each other. */
    method Welcome(s: Scientist)
      requires Valid() && |scientists| <= ExpansionLimit(params.initPopcount)
      requires s !in Repr && Carries(s, params) && s.Snapshot() == Record(s.credence, None, None, 0, [])
      modifies this`scientists, this`Repr, Repr`influencers, s`influencers
      ensures Valid()
      ensures scientists == old(scientists) + [s] && Repr == old(Repr) + {s}
      ensures s.Snapshot() == Record(old(s.credence), None, None, 0, old(scientists))
      ensures forall x | x in old(scientists) :: x.influencers == old(x.influencers) + [s]
      ensures forall x | x in old(retired) :: x.influencers == old(x.influencers)
    {
      DistinctSplit(scientists, retired);
      Introduce(s);
      Enlist(s);
    }

    /** The bookkeeping of `_admissions`: the newcomer, already
        linked with every working scientist, joins the working list. */
    method Enlist(s: Scientist)
      requires s !in Repr && Carries(s, params) && s.roundExperiment == None
      requires Roster() && Fitted() && Resting() && forall x | x in Repr :: InUnit(x.credence)
      requires forall x, y | x in Repr && y in x.influencers :: y in Repr || y == s
      requires forall y | y in s.influencers :: y in Repr
      requires ContractionLimit(params.initPopcount) <= |scientists| <= ExpansionLimit(params.initPopcount)
      modifies this`scientists, this`Repr
      ensures Valid() && scientists == old(scientists) + [s] && Repr == old(Repr) + {s}
    {
      DistinctInsert(scientists, retired, s);
      scientists := scientists + [s];
      Repr := Repr + {s};
    }

    /** The loop of `_admissions`: the newcomer and each working
        scientist, in list order, become each other's influencers. */
    method Introduce(s: Scientist)
      requires s !in Repr && s !in retired && Distinct(scientists) && forall x | x in scientists :: x in Repr && x !in retired
      modifies Repr`influencers, s`influencers
      ensures s.influencers == old(s.influencers) + scientists
      ensures forall x | x in scientists :: x.influencers == old(x.influencers) + [s]
      ensures forall x | x in retired :: x.influencers == old(x.influencers)
    {
      var j := 0;
      while j < |scientists|
        invariant 0 <= j <= |scientists|
        invariant s.influencers == old(s.influencers) + scientists[..j]
        invariant forall k | 0 <= k < j :: scientists[k].influencers == old(scientists[k].influencers) + [s]
        invariant forall k | j <= k < |scientists| :: scientists[k].influencers == old(scientists[k].influencers)
        invariant forall x | x in retired :: x.influencers == old(x.influencers)
      {
        var existing := scientists[j];
        s.AddJeffreyInfluencer(existing);
        existing.AddJeffreyInfluencer(s);
        assert scientists[..j + 1] == scientists[..j] + [existing];
        j := j + 1;
      }
      assert scientists[..j] == scientists;
      forall x | x in scientists
        ensures x.influencers == old(x.influencers) + [s]
      {
        var k :| 0 <= k < |scientists| && scientists[k] == x;
      }
    }

    /** `_admissions`: once more than 10 rounds have been played, when the
        uniform draw `coin` is below 0.25 and the population is at most
        `ExpansionLimit`, a new scientist with prior `cr` (the draw
        `rng.uniform(UNIFORM_LOW)`) joins at the end of the working list; it
        is influenced by every working scientist, in list order, and each of
        them gets it appended to its own influencers. */
    method Admissions(coin: real, cr: real) returns (ghost newcomer: Option<Scientist>)
      requires Valid() && UniformLow <= cr < 1.0
      modifies this`scientists, this`Repr, Repr`influencers
      ensures Valid()
      ensures newcomer.Some? <==> old(roundsPlayed) > 10 && coin < 0.25 && old(|scientists|) <= ExpansionLimit(params.initPopcount)
      ensures newcomer.None? ==> scientists == old(scientists) && Repr == old(Repr) && Influencers() == old(Influencers())
      ensures newcomer.Some? ==>
                var s := newcomer.value;
                && fresh(s)
                && scientists == old(scientists) + [s] && Repr == old(Repr) + {s}
                && s.Snapshot() == Record(cr, None, None, 0, old(scientists))
                && (forall x | x in old(scientists) :: x.influencers == old(x.influencers) + [s])
                && (forall x | x in old(retired) :: x.influencers == old(x.influencers))
    {
      newcomer := None;
      if !(roundsPlayed > 10) {
        return;
      }
      if coin < 0.25 {
        if |scientists| > ExpansionLimit(params.initPopcount) {
          return;
        }
        var s := new Scientist(params.nPerRound, params.epsilon, params.lowStop, cr, params.m);
        Welcome(s);
        newcomer := Some(s);
      }
    }

    /** `_lifecycle`: retirement, then admission. */
    method Lifecycle(d: RoundDraws) returns (ghost gone: Option<Scientist>, ghost newcomer: Option<Scientist>)
      requires Valid() && DrawsFit(d, params)
      modifies this`scientists, this`retired, this`Repr, Repr`influencers
      ensures Valid()
      ensures gone == old(Retiree(scientists, params.initPopcount, d.retireCoin, d.retirePick))
      ensures gone.Some? ==> gone.value in retired && gone.value !in scientists
      ensures |scientists| == old(|scientists|) - (if gone.Some? then 1 else 0) + (if newcomer.Some? then 1 else 0)
      ensures newcomer.Some? ==> fresh(newcomer.value) && newcomer.value.credence == d.admitPrior
      ensures fresh(Repr - old(Repr))
    {
      gone := Retire(d.retireCoin, d.retirePick);
      newcomer := Admissions(d.admitCoin, d.admitPrior);
    }

    /** `_unstable_sim_actions`: NotImplementedError (before anything
        changes) unless the network is complete and the lifecycle is on;
        otherwise the lifecycle and then a standard round. */
    method UnstableSimActions(d: RoundDraws) returns (r: Outcome)
      requires Valid() && DrawsFit(d, params)
      modifies this`scientists, this`retired, this`Repr, Repr`influencers
      modifies Repr`roundExperiment, Repr`credence, Repr`previousExperiment, Repr`roundsOfExperience
      ensures Valid()
      ensures r.Fail? <==> params.networkType != Complete || !params.lifecycle
      ensures r.Fail? ==> r.error == NotImplementedError && unchanged(this) && unchanged(Repr)
      ensures fresh(Repr - old(Repr))
    {
      if params.networkType != Complete {
        return Fail(NotImplementedError);
      }
      if !params.lifecycle {
        return Fail(NotImplementedError);
      }
      var _, _ := Lifecycle(d);
      var _ := StandardRoundActions(d.lifecycleDraws);
      r := Pass;
    }

    /** `enetwork_play_round(unstable_sim)`: the unstable actions when asked
        for (stopping at their error), then a standard round, then one more
        round played.  A stable round changes no list: it is exactly
        `StandardRoundActions` on `d.draws`. */
    method PlayRound(unstable: bool, d: RoundDraws) returns (r: Outcome)
      requires Valid() && DrawsFit(d, params)
      modifies this`scientists, this`retired, this`Repr, this`roundsPlayed, Repr`influencers
      modifies Repr`roundExperiment, Repr`credence, Repr`previousExperiment, Repr`roundsOfExperience
      ensures Valid() && fresh(Repr - old(Repr))
      ensures r.Fail? <==> unstable && (params.networkType != Complete || !params.lifecycle)
      ensures r.Fail? ==> r.error == NotImplementedError && unchanged(this) && unchanged(Repr)
      ensures r.Pass? ==> roundsPlayed == old(roundsPlayed) + 1
      ensures !unstable ==> scientists == old(scientists) && retired == old(retired) && Repr == old(Repr)
      ensures !unstable ==>
                Credences() == Sweep(scientists, |scientists|, Influencers(),
                                     Decisions(scientists, |scientists|, old(Credences()), old(Reports()),
                                               params.lowStop, params.nPerRound, d.draws),
                                     params.epsilon, params.m, old(Credences()))
    {
      if unstable {
        r := UnstableSimActions(d);
        if r.Fail? {
          return;
        }
      }
      var _ := StandardRoundActions(d.draws);
      CountRound();
      r := Pass;
    }

    /** `self._rounds_played += 1`; the scientists are left as they were. */
    method CountRound()
      modifies this`roundsPlayed
      ensures roundsPlayed == old(roundsPlayed) + 1
      ensures Valid() == old(Valid()) && Credences() == old(Credences()) && Influencers() == old(Influencers())
    {
      roundsPlayed := roundsPlayed + 1;
      Untouched();
    }

    /** A change to influencer lists alone leaves the credences, the
        object structure and the experiments as they were. */
    twostate lemma InfluencersOnly()
      requires unchanged(this`Repr, this`scientists, this`retired)
      requires forall x | x in Repr :: unchanged(x`credence, x`roundExperiment)
      ensures Credences() == old(Credences())
      ensures old(Roster() && Fitted()) ==> Roster() && Fitted()
      ensures old(Resting()) ==> Resting()
      ensures forall x | x in Repr :: x.credence == old(x.credence)
    {
    }

    /** A change to round experiments alone leaves everything else as it was. */
    twostate lemma ReportsOnly()
      requires unchanged(this`Repr)
      requires forall x | x in Repr :: unchanged(x`credence, x`influencers, x`previousExperiment, x`roundsOfExperience)
      ensures Credences() == old(Credences()) && Influencers() == old(Influencers())
      ensures Previous() == old(Previous()) && Experience() == old(Experience())
    {
    }

    /** A change to credences alone leaves everything else as it was. */
    twostate lemma CredencesOnly()
      requires unchanged(this`Repr)
      requires forall x | x in Repr :: unchanged(x`roundExperiment, x`influencers, x`previousExperiment, x`roundsOfExperience)
      ensures Reports() == old(Reports()) && Influencers() == old(Influencers())
      ensures Previous() == old(Previous()) && Experience() == old(Experience())
    {
    }

    /** Ageing leaves the credences, the influencers and the object
        structure as they were. */
    twostate lemma AgeingOnly()
      requires unchanged(this`Repr, this`scientists, this`retired)
      requires forall x | x in Repr :: unchanged(x`credence, x`influencers)
      ensures Credences() == old(Credences()) && Influencers() == old(Influencers())
      ensures old(Wired()) ==> Wired()
    {
    }

    /** A change to the network's own counters leaves the scientists' state
        as it was. */
    twostate lemma Untouched()
      requires unchanged(this`Repr, this`scientists, this`retired) && forall x | x in Repr :: unchanged(x)
      ensures Valid() == old(Valid()) && Credences() == old(Credences()) && Influencers() == old(Influencers())
    {
    }
  }
}
