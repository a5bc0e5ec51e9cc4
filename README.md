# Epistemic networks of Jeffrey updaters, in Dafny

This project models the belief-update and round engine of the
diversity-epistemic-networks simulator. The simulator is a network of
scientists who test a better theory against a worse one. The better theory's
success rate is p = 0.5 + epsilon and the worse one's is 1 - p. Each round:

1. every scientist decides whether to run a binomial experiment of
   `n_per_round` trials (it does when its credence is at least `low_stop`);
2. then each scientist, in list order, updates its credence on what its
   influencers report, with a discounted Jeffrey update;
3. then every scientist ages.

The simulation driver stops at research abandonment, at consensus, at stable
polarization, or at the round horizon.

The modules follow the repository's files:

| module | file(s) | form |
|---|---|---|
| `Experiments` | capabilities/experimentgen.py | values: the experiment record, the errors raised |
| `Jeffrey` | agents/updaters/jeffreyupdater.py (and the copy in sim/scientist.py) | pure functions over `real`, lemmas; one method for the update's intermediates |
| `Agents` | agents/scientist.py, agents/crsupervisor.py, the list and loop of jeffreyupdater.py | `class Scientist` |
| `SimAgents` | sim/scientist.py | `class Scientist` |
| `Turns` | the three phases of a round, as functions on maps | the specifications of the phase loops |
| `Network` | network/network.py | `class ENetwork`: complete and cycle topologies, rounds, retirement and admission |
| `SimNetwork` | sim/network.py | `class ENetwork`: skeptic seeding, shuffled topology, rounds, replacement in place |
| `Simulation` | sim/sim.py | stop checks as predicates and functions; `class EpistemicNetworkSimulation` with the round loop |
| `Priors` | sim/priors_func.py | pure functions |

## Central results

- **The update is a partial Bayes step.** The discounted update equals
  c + (1 - min(1, dm)) · (P(H|E) - c). It therefore stays in [0, 1] and lies
  between the prior and the Bayes posterior; it never moves against Bayes.
  A discount of 1 or more leaves the credence unchanged, a discount of 0 is
  plain Bayes, and a credence of 0 stays 0.
  See `Jeffrey.UpdateClosedForm`, `Jeffrey.UpdateBetween`,
  `Jeffrey.UpdateFullyDiscounted`, `Jeffrey.UpdateUndiscounted` and
  `Jeffrey.UpdateFromZero`.
- **Both divisions are defined.** With at least one trial, P(E) lies strictly
  inside (0, 1) (`Jeffrey.MarginalInside`). With no trials, P(E) = 1 and
  the source divides by zero (`Jeffrey.NoTrialsMarginalIsOne`).
- **Evidence moves the posterior the right way.** The Bayes posterior rises
  exactly when successes outnumber failures (`Jeffrey.EvidenceDirection`).
  The binomial coefficient of the full likelihood cancels
  (`Jeffrey.CoefficientCancels`).
- **Updating is a fold.** Updating on an influencer list is a left fold in
  list order (`Jeffrey.Fold`). Both scientist classes are proved to compute
  that fold.
- **The phases are loops over the scientist objects.** They update fields in
  place and are proved against the value-level specifications in `Turns`.
  - The update phase reads live credences: scientists earlier in the list
    have already updated. `Turns.SweepSeesPhaseView` states this: each
    scientist updates on the final credences of those before it and the
    starting credences of those after it.
  - The class invariants are kept through every round, retirement,
    admission and replacement:
    - every scientist appears once;
    - influencer lists point inside the network;
    - credences are probabilities;
    - in network/network.py the population stays between
      `ContractionLimit` (ceil(0.7 init)) and `ExpansionLimit` + 1
      (floor(1.3 init) + 1). The admission test at network/network.py:133
      turns a newcomer away only when the population is already *above*
      floor(1.3 init). So an admission at exactly floor(1.3 init) takes it one
      scientist past that bound;
    - in sim/network.py the population stays at its initial size;
    - after each round of sim/network.py, every influencer list is a
      shuffle of the whole population.
- **The stop checks run in priority order.** `Simulation.VerdictPriority`
  states which conclusion each population reaches. `Simulation.RunSim`
  proves that a stable conclusion recorded at round j follows j - 1 network
  rounds.

Randomness is taken as parameters:

- the coin flips `rng.uniform() < 0.25` are real draws;
- a choice among L candidates is a draw `pick`, taken modulo L;
- a shuffle is a permutation of the indices;
- a binomial draw is a `k` with k <= n;
- a uniform prior is a value in [0.001, 1).

Python's exceptions are an `Outcome` or `Result` value.

Behaviour of the code worth knowing, all of it modelled as written:

- `_stable_polarization` returns True when every credence exceeds the
  threshold T. The loop skips every such scientist (sim/sim.py:46-48) and
  falls through to `return True` (sim/sim.py:62).
  It also returns True when everybody is at or below a low stop under 0.99:
  nobody is a high roller (sim/sim.py:56-61).
  See `Simulation.ConsensusIsPolarized` and `Simulation.AbandonmentIsPolarized`.
  `_sim_action` tests abandonment (sim/sim.py:81) and consensus
  (sim/sim.py:87) first, so these answers never decide a run.
- The stop checks run on the credences before the round's network play
  (sim/sim.py:78-104).
- The update phase reads influencers' live credences. The scientists are
  updated one after another (network/network.py:57-58, sim/network.py:52-53),
  so a scientist earlier in the list has already updated when a later one
  reads it.
- Every scientist updates, skeptics included (sim/network.py:52-53).
- The complete topology of network/network.py:35-37 adds the influencers in
  list order. The topology of sim/network.py:30-38 shuffles them for each
  scientist.
  Both include the scientist itself among its influencers.
- Retirement differs between the two network files.
  - In network/network.py a scientist needs more than 10 rounds of
    experience to retire (network/network.py:114). The retiree moves to the
    retired list, but it stays in the other scientists' influencer lists
    (network/network.py:119-120).
  - In sim/network.py it needs at least 20 rounds of experience
    (sim/network.py:65). The retiree is re-initialised in place
    (sim/network.py:79).
- In network/network.py, retirement and admission are independent draws
  (network/network.py:100-102). A newcomer does not need a retiree to make
  room.
- With no trials (n = 0) the marginal P(E) is 1, and
  agents/updaters/jeffreyupdater.py:43 divides by 1 - P(E) = 0.

## Model

| member | source | states |
|---|---|---|
| Experiments.Experiment | capabilities/experimentgen.py:13-15 | an experiment of n trials records n and at most n successes |
| Jeffrey.SuccessRate | agents/updaters/jeffreyupdater.py:38 | p = 0.5 + epsilon lies strictly inside (0, 1) for a proper epsilon |
| Jeffrey.LikelihoodSwap | agents/updaters/jeffreyupdater.py:81-92 | swapping successes and failures swaps P(E\|H) and P(E\|not-H) |
| Jeffrey.LikelihoodsInside | agents/updaters/jeffreyupdater.py:81-92 | with n >= 1 and 0 < p < 1 both truncated likelihoods lie strictly inside (0, 1) |
| Jeffrey.MarginalInside | agents/updaters/jeffreyupdater.py:39-43 | with n >= 1 the marginal P(E) lies strictly inside (0, 1), so both divisions are defined |
| Jeffrey.NoTrialsMarginalIsOne | agents/updaters/jeffreyupdater.py:39-43 | with n = 0 both likelihoods are 1 and 1 - P(E) = 0: the division by 1 - P(E) is by zero |
| Jeffrey.Dm | agents/updaters/jeffreyupdater.py:28-30 | the discount is 0 between equal credences and non-negative for m >= 0 |
| Jeffrey.JeffreyClosedForm | agents/updaters/jeffreyupdater.py:42-47 | the mixed posterior equals c + (1 - min(1, dm)) (P(H\|E) - c) |
| Jeffrey.PosteriorOnEvidenceInUnit | agents/updaters/jeffreyupdater.py:42 | P(H\|E) is a probability |
| Jeffrey.JeffreyBetween | agents/updaters/jeffreyupdater.py:42-62 | the update stays in [0, 1], between prior and Bayes posterior, never against Bayes, and moves whenever dm < 1 and the posterior differs |
| Jeffrey.FullDiscountIgnoresEvidence | agents/updaters/jeffreyupdater.py:44-47 | dm >= 1 leaves the credence unchanged |
| Jeffrey.NoDiscountIsBayes | agents/updaters/jeffreyupdater.py:44-47 | dm = 0 gives c P(E\|H) / P(E) |
| Jeffrey.CoefficientCancels | agents/updaters/jeffreyupdater.py:73-87 | scaling both likelihoods by a positive coefficient (the binomial coefficient of `_likelihood`) gives the same update |
| Jeffrey.BayesPosterior | agents/updaters/jeffreyupdater.py:36-42 | the Bayes posterior of a binomial report is a probability and its likelihoods are admissible |
| Jeffrey.UpdateClosedForm | agents/updaters/jeffreyupdater.py:33-47 | the update on a report equals c + (1 - min(1, dm)) (P(H\|E) - c) |
| Jeffrey.PartialStep | agents/updaters/jeffreyupdater.py:44-47 | a step part of the way from c towards a probability b stays a probability between c and b, and moves only in the direction of b |
| Jeffrey.UpdateSteps | agents/updaters/jeffreyupdater.py:36-47 | computing the intermediates one at a time yields c + (1 - min(1, dm)) (P(H\|E) - c) |
| Jeffrey.UpdateBetween | agents/updaters/jeffreyupdater.py:33-62 | the update on a report is a probability between prior and Bayes posterior and never moves against Bayes |
| Jeffrey.UpdateFullyDiscounted | agents/updaters/jeffreyupdater.py:44-47 | a discount of at least 1 leaves the credence exactly unchanged |
| Jeffrey.UpdateUndiscounted | agents/updaters/jeffreyupdater.py:28-47 | updating on oneself, or with m = 0, is plain Bayes |
| Jeffrey.UpdateFromZero | agents/updaters/jeffreyupdater.py:59-62 | a credence of 0 stays 0 |
| Jeffrey.EvidenceDirection | agents/updaters/jeffreyupdater.py:36-42 | for 0 < c < 1 the Bayes posterior rises, stays or falls exactly as successes exceed, equal or fall below failures |
| Jeffrey.PosteriorDirection | agents/updaters/jeffreyupdater.py:42 | Bayes raises a credence inside (0, 1) exactly when P(E\|H) > P(E\|not-H), and keeps it exactly when they are equal |
| Jeffrey.LikelihoodOrder | agents/updaters/jeffreyupdater.py:81-92 | with p > 1/2, P(E\|H) exceeds or equals P(E\|not-H) exactly when 2k exceeds or equals n |
| Jeffrey.FavourableEvidence | agents/updaters/jeffreyupdater.py:36-42 | with at least as many successes as failures the Bayes posterior is at least the prior |
| Jeffrey.StepOn | agents/updaters/jeffreyupdater.py:33-47 | one influencer step keeps a probability and leaves it unchanged without data |
| Jeffrey.StepOnClosedForm | agents/updaters/jeffreyupdater.py:33-47 | a step on a report is the partial step towards the Bayes posterior, discounted against the influencer's credence |
| Jeffrey.StepOnSelf | agents/updaters/jeffreyupdater.py:28-47 | updating on one's own experiment is plain Bayes |
| Jeffrey.Fold | agents/updaters/jeffreyupdater.py:24-26 | the update over an influencer list keeps a probability |
| Jeffrey.FoldSnoc | agents/updaters/jeffreyupdater.py:24-26 | one more influencer at the end of the list applies one more step to the previous result |
| Jeffrey.FoldFromZero | agents/updaters/jeffreyupdater.py:59-62 | a credence of 0 stays 0 over any influencer list |
| Jeffrey.FoldWithoutData | agents/updaters/jeffreyupdater.py:34-35 | influencers without experiment data leave the credence unchanged |
| Jeffrey.FoldFavourable | agents/updaters/jeffreyupdater.py:24-26 | when no report has more failures than successes, the fold ends at or above its start |
| Agents.Decision | agents/crsupervisor.py:9-13 | no experiment exactly when credence < low_stop, otherwise n trials and k <= n successes |
| Agents.Scientist.constructor | agents/scientist.py:11-24 | credence = prior, no round experiment, no influencers, the parameters stored |
| Agents.Scientist.GetExperimentData | agents/scientist.py:32-33 | returns exactly the round experiment |
| Agents.Scientist.StopAction | agents/scientist.py:36-37 | the round experiment becomes None |
| Agents.Scientist.RunExperiment | agents/scientist.py:42-43 | the round experiment becomes (k, n) |
| Agents.Scientist.ContinueAction | agents/scientist.py:39-40 | the round experiment becomes (k, n_per_round) |
| Agents.Scientist.DecideRoundResearchAction | agents/crsupervisor.py:9-13 | exactly one action runs, by credence against low_stop; only the round experiment changes |
| Agents.Scientist.AddJeffreyInfluencer | agents/updaters/jeffreyupdater.py:19-20 | appends the influencer at the end |
| Agents.Scientist.Dm | agents/updaters/jeffreyupdater.py:28-30 | zero towards oneself, non-negative for m >= 0 |
| Agents.Scientist.UpdateOnInfluencer | agents/updaters/jeffreyupdater.py:33-47 | the credence becomes one fold step on what the influencer reports |
| Agents.Scientist.JeffreyUpdateCredence | agents/updaters/jeffreyupdater.py:24-26 | the credence becomes the left fold over the influencers in list order |
| SimAgents.Scientist.constructor | sim/scientist.py:9-31 | credence = prior, no current or previous experiment, no experience, no influencers |
| SimAgents.Scientist.Reinit | sim/scientist.py:17-31 | re-running `__init__` on the object gives the same initial state |
| SimAgents.Scientist.GetExperimentData | sim/scientist.py:38-39 | returns exactly the round experiment |
| SimAgents.Scientist.StopAction | sim/scientist.py:48-49 | the round experiment becomes None |
| SimAgents.Scientist.RunExperiment | sim/scientist.py:54-55 | the round experiment becomes (k, n) |
| SimAgents.Scientist.ContinueAction | sim/scientist.py:51-52 | the round experiment becomes (k, n_per_round) |
| SimAgents.Scientist.DecideRoundResearchAction | sim/scientist.py:41-45 | None exactly when credence < low_stop; the same rule as agents/ |
| SimAgents.Scientist.AddJeffreyInfluencer | sim/scientist.py:57-58 | appends the influencer at the end |
| SimAgents.Scientist.Dm | sim/scientist.py:66-68 | zero towards oneself, non-negative for m >= 0 |
| SimAgents.Scientist.UpdateOnInfluencer | sim/scientist.py:71-85 | the same fold step as the jeffreyupdater revision |
| SimAgents.Scientist.JeffreyUpdateCredence | sim/scientist.py:62-64 | the credence becomes the left fold over the influencers in list order |
| Turns.Decisions | network/network.py:54-56 | phase 1 touches only the reports of the deciding scientists |
| Turns.DecisionsStep | network/network.py:54-56 | one more decision in the loop is one more scientist of the phase-1 function |
| Turns.Older | network/network.py:59-62 | the experience map keeps its scientists |
| Turns.OlderStep | network/network.py:59-62 | one more scientist ageing in the loop is one more step of the ageing function |
| Turns.ArrangeShuffles | sim/network.py:33-37 | arranging the population by a permutation of its indices yields a shuffle: every scientist exactly once |
| Turns.AgentTurn | network/network.py:57-58 | a scientist's turn keeps its credence a probability |
| Turns.Sweep | network/network.py:57-58 | the update phase touches credences only, keeping every scientist |
| Turns.PhaseView | network/network.py:57-58 | the credences turn i sees: updated for those before it, starting for the rest |
| Turns.SweepUntouched | network/network.py:57-58 | a scientist whose turn has not come holds its starting credence |
| Turns.SweepSettled | network/network.py:57-58 | a credence is final once its owner's turn has passed and does not recur |
| Turns.SweepPrefix | network/network.py:57-58 | after i turns the credences are exactly what turn i sees |
| Turns.SettledForGood | network/network.py:57-58 | in a list without repeats a credence after its turn is the final one |
| Turns.SweepSeesPhaseView | network/network.py:57-58 | each scientist updates on the final credences of those before it and the starting credences of those after; others keep theirs |
| Turns.SweepKeepsUnit | network/network.py:57-58 | the update phase keeps every credence a probability |
| Network.ContractionLimit | network/network.py:112 | ceil(0.7 init) as an exact bound |
| Network.ExpansionLimit | network/network.py:133 | floor(1.3 init) as an exact bound |
| Network.LimitsAround | network/network.py:112-133 | the starting population lies between the two limits |
| Network.CycleInfluencers | network/network.py:154-160 | scientist i gets its left neighbour (the last for i = 0), itself, and its right neighbour modulo the size |
| Network.Neighbours | network/network.py:158-160 | the cycle's neighbour indices, with wrap-around at both ends |
| Network.TopologyWithin | network/network.py:31-43 | both topologies name only members of the list |
| Network.Remove | network/network.py:120 | `list.remove` takes out exactly one copy |
| Network.Experienced | network/network.py:114 | exactly the scientists with more than 10 rounds of experience |
| Network.Retiree | network/network.py:110-118 | someone retires exactly when coin < 0.25, the population is above the contraction limit and someone has more than 10 rounds; the retiree is such a scientist |
| Network.Aged | network/network.py:60 | the previous experiments of the scientists that aged become their round experiments; the others keep theirs; the same scientists |
| Network.Cleared | network/network.py:61 | the round experiments of the scientists that aged become None; the same scientists |
| Network.AgedStep | network/network.py:59-62 | one more scientist ageing in the loop is one more step of the three ageing maps |
| Network.SourcesAreView | network/network.py:57-58 | what a scientist reads from its influencers is its view of the network's credences and reports |
| Network.RemoveDistinct | network/network.py:119-120 | the removed scientist is gone from a list without repeats |
| Network.MoveKeepsDistinct | network/network.py:119-120 | moving a scientist to the retired list keeps everybody distinct |
| Network.ENetwork.Recruit | network/network.py:15-22 | one fresh scientist per prior, with the network's parameters and the prior as credence |
| Network.ENetwork.constructor | network/network.py:11-27 | the starting population from the priors, nobody retired, no round played |
| Network.ENetwork.Establish | network/network.py:28 | the topology is added to every scientist and the class invariant holds |
| Network.ENetwork.Create | network/network.py:8-28 | ValueError exactly when the priors do not match the population count; otherwise each scientist holds its prior and the topology's influencers |
| Network.ENetwork.AddAllInfluencers | network/network.py:148-152 | appends every influencer in order |
| Network.ENetwork.AddCycleInfluencers | network/network.py:154-160 | appends the three cycle influencers |
| Network.ENetwork.StructureOne | network/network.py:34-40 | one scientist gets the influencers of the topology |
| Network.ENetwork.StructureAll | network/network.py:34-40 | every working scientist gets its topology, retired ones nothing |
| Network.ENetwork.StructureScientificNetwork | network/network.py:31-43 | every working scientist gets its topology; the invariant holds |
| Network.ENetwork.Decide | network/network.py:56 | a scientist's decision changes only its own report |
| Network.ENetwork.DecideOne | network/network.py:54-56 | the loop's reports after i + 1 decisions |
| Network.ENetwork.DecidePhase | network/network.py:54-56 | phase 1 in list order; credences, influencers, previous experiments and experience unchanged |
| Network.ENetwork.TakeTurn | network/network.py:58 | a scientist's credence becomes the fold over its influencers; nothing else changes |
| Network.ENetwork.UpdateOne | network/network.py:57-58 | the loop's credences after i + 1 turns are those of the sweep |
| Network.ENetwork.UpdatePhase | network/network.py:57-58 | phase 2 yields the sweep on live credences and phase-1 reports; nothing else changes |
| Network.ENetwork.Age | network/network.py:60-62 | previous := round experiment, round experiment := None, experience + 1 |
| Network.ENetwork.AgeOne | network/network.py:59-62 | the loop's maps after i + 1 scientists have aged |
| Network.ENetwork.AgeAll | network/network.py:59-62 | the ageing loop yields the three ageing maps |
| Network.ENetwork.AgePhase | network/network.py:59-62 | phase 3 ages every working scientist; credences and influencers unchanged |
| Network.ENetwork.StandardRoundActions | network/network.py:53-62 | decide, then the sweep on the decided reports, then ageing; afterwards nobody holds a round experiment |
| Network.ENetwork.Retire | network/network.py:104-121 | the retiree moves from the working list to the end of the retired list; with none, nothing changes |
| Network.ENetwork.Move | network/network.py:119-120 | the scientist leaves the working list and is appended to the retired list |
| Network.ENetwork.Introduce | network/network.py:143-145 | the newcomer gets every working scientist; each of them gets the newcomer |
| Network.ENetwork.Enlist | network/network.py:146 | the newcomer joins the end of the working list; the invariant holds |
| Network.ENetwork.Welcome | network/network.py:143-146 | the newcomer and every working scientist influence each other, and the newcomer is appended |
| Network.ENetwork.Admissions | network/network.py:124-146 | a newcomer with prior cr joins exactly when more than 10 rounds were played, coin < 0.25 and the population is at most the expansion limit |
| Network.ENetwork.Lifecycle | network/network.py:100-102 | retirement, then admission; the population changes by the departures and arrivals |
| Network.ENetwork.UnstableSimActions | network/network.py:64-77 | NotImplementedError, before any change, exactly unless complete and lifecycle |
| Network.ENetwork.PlayRound | network/network.py:46-50 | errors as the unstable actions; otherwise one more round played, and a stable round is the standard round |
| Network.ENetwork.CountRound | network/network.py:50 | one more round played; the scientists untouched |
| SimNetwork.NonSkeptics | sim/network.py:20 | exactly the non-skeptics |
| SimNetwork.Veterans | sim/network.py:65 | exactly the scientists with at least 20 rounds of experience |
| SimNetwork.Replaced | sim/network.py:61-70 | someone is replaced exactly when the round count is a multiple of the interval and a veteran exists; it is a veteran |
| SimNetwork.SourcesAreView | sim/network.py:52-53 | what a scientist reads is its view of the network's credences and reports |
| SimNetwork.ENetwork.Recruit | sim/network.py:14 | one fresh non-skeptic scientist per prior, in its initial state |
| SimNetwork.ENetwork.constructor | sim/network.py:7-17 | the starting population: nobody a skeptic, no round played, no retiree logged |
| SimNetwork.ENetwork.Convert | sim/network.py:21-22 | a non-skeptic starts over as a skeptic at prior .5 |
| SimNetwork.ENetwork.SeedOne | sim/network.py:18-22 | one more skeptic at prior .5, or ValueError when nobody is left |
| SimNetwork.ENetwork.SeedSkeptics | sim/network.py:18-22 | exactly skeptic_n skeptics at prior .5, or ValueError exactly when skeptic_n exceeds the population |
| SimNetwork.ENetwork.Season | sim/network.py:23-25 | everyone has 20 rounds of experience |
| SimNetwork.ENetwork.AddAllInfluencers | sim/network.py:92-96 | appends every influencer in order |
| SimNetwork.ENetwork.Rewire | sim/network.py:31-38 | the list is emptied and refilled with the population in the shuffled order |
| SimNetwork.ENetwork.RewireAll | sim/network.py:30-38 | each scientist gets the population arranged by its own permutation |
| SimNetwork.ENetwork.StructureScientificNetwork | sim/network.py:30-38 | every influencer list is a shuffle of the population; credences, experience, reports and skeptics unchanged |
| SimNetwork.ENetwork.Create | sim/network.py:7-27 | ValueError on a size mismatch or too many skeptics; otherwise skeptic_n skeptics at .5, the others at their priors, everyone at 20 rounds |
| SimNetwork.ENetwork.Establish | sim/network.py:23-26 | experience 20 for everyone and the shuffled topology |
| SimNetwork.ENetwork.ResetAndDecide | sim/network.py:48-51 | a scientist's report is cleared and decided anew; nothing else changes |
| SimNetwork.ENetwork.DecideOne | sim/network.py:48-51 | the loop's reports after i + 1 decisions |
| SimNetwork.ENetwork.DecidePhase | sim/network.py:48-51 | phase 1 in list order; credences, influencers, experience and skeptics unchanged |
| SimNetwork.ENetwork.TakeTurn | sim/network.py:53 | a scientist's credence becomes the fold over its influencers |
| SimNetwork.ENetwork.UpdateOne | sim/network.py:52-53 | the loop's credences after i + 1 turns are those of the sweep |
| SimNetwork.ENetwork.UpdatePhase | sim/network.py:52-53 | phase 2 yields the sweep on live credences; nothing else changes |
| SimNetwork.ENetwork.GainOne | sim/network.py:54-55 | the loop's experience after i + 1 scientists |
| SimNetwork.ENetwork.GainAll | sim/network.py:54-55 | the experience loop yields the ageing map |
| SimNetwork.ENetwork.ExperiencePhase | sim/network.py:54-55 | everyone gains a round; nothing else changes |
| SimNetwork.ENetwork.StandardRoundActions | sim/network.py:47-55 | decide, then the sweep on the decided reports, then experience + 1; reports stay until next round |
| SimNetwork.ENetwork.Restart | sim/network.py:79 | the retiree starts over with the prior, keeping its skeptic flag |
| SimNetwork.ENetwork.LogRetiree | sim/network.py:78 | the retiree's credence is appended to the log; the population untouched |
| SimNetwork.ENetwork.Retire | sim/network.py:78-79 | the credence is logged and the scientist starts over in place |
| SimNetwork.ENetwork.Replace | sim/network.py:73-80 | replacement in place with the given prior, then the topology is rebuilt |
| SimNetwork.ENetwork.LifecycleRoundActions | sim/network.py:57-80 | NotImplementedError without a setup, ZeroDivisionError for an interval of 0; otherwise the chosen veteran is replaced, with prior .5 exactly for a skeptic; population and skeptic set conserved |
| SimNetwork.ENetwork.PlayRound | sim/network.py:41-44 | the lifecycle errors, one more round played on success, skeptics conserved |
| SimNetwork.ENetwork.StandardRound | sim/network.py:42 | the standard round keeps the invariant and the skeptics |
| SimNetwork.ENetwork.CountRound | sim/network.py:44 | one more round played; the population untouched |
| Simulation.CountConfident | sim/sim.py:41 | the count is 0 exactly when nobody is above 0.99 and full exactly when everybody is |
| Simulation.PropTruthConfidently | sim/sim.py:39-41 | undefined exactly for an empty list, otherwise confident out of all, with both extremes characterised |
| Simulation.Value | sim/sim.py:41 | the share lies in [0, 1], is 0 exactly for nobody and 1 exactly for everybody |
| Simulation.PropOfAll | sim/sim.py:24-27 | the share over working and retired pools the two counts |
| Simulation.AllConfident | sim/sim.py:39-41 | everybody above 0.99 gives share 1 |
| Simulation.ConfidentStart | sim/priors_func.py:26-38 | a population started with `confident_priors` has share 1 under the 0.99 cut |
| Simulation.CredenceList | sim/sim.py:79 | the credences of the scientists, in order |
| Simulation.HighRollers | sim/sim.py:56 | exactly the scientists above 0.99 |
| Simulation.StablePolarization | sim/sim.py:43-62 | returns whether nobody is unsettled; false when someone lies in (low_stop, T]; true when everybody is above T |
| Simulation.InReach | sim/sim.py:56-61 | whether some scientist above 0.99 has dm < 1 from scientist j |
| Simulation.ConsensusIsPolarized | sim/sim.py:44-48 | everybody above the threshold counts as stably polarized |
| Simulation.AbandonmentIsPolarized | sim/sim.py:43-62 | everybody at or below a low stop under 0.99 counts as stably polarized |
| Simulation.StableVerdict | sim/sim.py:78-103 | a verdict sets exactly one round field, to this round, with the share of the working scientists |
| Simulation.VerdictPriority | sim/sim.py:78-103 | abandonment, consensus, polarization and none, each characterised exactly, in priority order |
| Simulation.Horizon | sim/sim.py:22-37 | the horizon result: the unstable round set to max, the pooled share, and the two shares exactly in lifecycle mode |
| Simulation.EpistemicNetworkSimulation.constructor | sim/sim.py:9-15 | no round noted, no result |
| Simulation.EpistemicNetworkSimulation.StableChecks | sim/sim.py:78-103 | the checks compute the stable verdict on the current credences |
| Simulation.EpistemicNetworkSimulation.SimAction | sim/sim.py:64-104 | a no-op once a result exists; otherwise the round is noted; the unstable round's error, or the stable verdict and one network round when none concludes |
| Simulation.EpistemicNetworkSimulation.UnstableAction | sim/sim.py:71-73 | an unstable network round, failing exactly for unsupported configurations |
| Simulation.EpistemicNetworkSimulation.StableAction | sim/sim.py:75-104 | the verdict on the credences before the round; the network plays exactly when there is none |
| Simulation.EpistemicNetworkSimulation.Note | sim/sim.py:69 | the round and verdict are recorded; the network untouched |
| Simulation.EpistemicNetworkSimulation.Act | sim/sim.py:64-104 | one round of the run loop: its error, and how many network rounds it played |
| Simulation.EpistemicNetworkSimulation.RunSim | sim/sim.py:17-37 | the run ends with one conclusion; a stable one at round j < max follows j - 1 network rounds; the horizon result replaces any result of the last round |
| Priors.DefaultConfidentStart | sim/priors_func.py:7-9 | the default high credence lies above 0.99 |
| Priors.UniformPriors | sim/priors_func.py:13-24 | pop priors, each in [0.001, 1) |
| Priors.ConfidentPriors | sim/priors_func.py:26-38 | pop priors, each above 0.99 and a probability |

## Left out

- Floating point: credences and likelihoods are exact reals. Underflow of p^k for large n, rounding, and NaN propagation are not modelled.
- `np.mean` is modelled as `Proportion`, which keeps the confident count and the size. The mean of an empty list (NaN) is `Undefined`. `Value` gives the share as a real.
- Randomness: every draw of the random generator or of `np.random.choice` is an input.
  - Each choice is a `pick` taken modulo the number of candidates.
  - Each shuffle is a permutation.
  - Each binomial draw is a k <= n.
  - The distributions themselves are not modelled.
- `n_per_round >= 1`, `-0.5 < epsilon < 0.5` and `m >= 0` are required of the parameters. With no trials the source divides by zero (`Jeffrey.NoTrialsMarginalIsOne`).
- Constructor signatures: the model does not reproduce that the scientist constructors are called with a different number of arguments than they take.
  - `Scientist` is called with 7 arguments at network/network.py:136-142, but agents/scientist.py takes 6.
  - `Scientist(prior, params, rng, False)` at sim/network.py:14 does not match sim/scientist.py:9-16.
  - `params.priors_func` is called with three arguments at network/network.py:13, but the priors functions of sim/priors_func.py:13 and 26 take two (sim/network.py:12 calls them with two). `Network.ENetwork.Create` takes the priors as given.
  - The model builds each scientist from the network's parameters.
- Agents.Scientist.constructor: creates `previousExperiment` as None and `roundsOfExperience` as 0, the initial values of sim/scientist.py:19-21. `Network.ENetwork.Admissions` gives its newcomer the same values.
  - agents/scientist.py:11-24 never creates `previous_binomial_experiment` or `rounds_of_experience`.
  - As written, `scientist.rounds_of_experience += 1` at network/network.py:62 therefore raises AttributeError in the first round, and so would the experience test at network/network.py:114.
  - The model does not capture that error: it plays the round with the two fields initialised.
- The missing imports of `math` and `UNIFORM_LOW` in network/network.py (lines 112, 133 and 135) are not modelled. The ceil and floor bounds and the 0.001 floor are modelled as intended.
- `id_code` of sim/scientist.py:22 is dropped. `is_skeptic`, which sim/network.py reads but sim/scientist.py never sets, is a field set by the constructor.
- The ValueError at sim/network.py:71-72 cannot be reached: the chosen retiree always exists. It is not modelled.
- The `case _` branch of network/network.py:41-43 cannot be reached: `NetworkType` has exactly two values.
- `_likelihood` (agents/updaters/jeffreyupdater.py:73-78) is not a member. Its factorial function is only the positive coefficient of `Jeffrey.CoefficientCancels`.
- `__str__`, the print diagnostics, and the commented-out incentive-structure code are not modelled.
- sim/simsetup.py, sim/output_processor.py, counterfactual_analysis.py, plot.py, diversity.py and sim/sim_models.py are not part of this model. The parameter records are derived from their use sites.
- The simulation reads the low stop and the lifecycle flag from the network's parameters. sim/simsetup.py passes one parameter record to both.
- `Repr` is ghost bookkeeping of every scientist a network has held. It is not part of the source.
- Network.ENetwork.constructor: stops before `_structure_scientific_network`. `Network.ENetwork.Establish` adds the topology, and `Network.ENetwork.Create` composes the two as `__init__` does.
- Network.ENetwork.Lifecycle: states the population change and the retiree. It does not restate the lists, which `Retire` and `Admissions` state.
- Network.ENetwork.UnstableSimActions: states only the error and the invariant on success. It does not state the credences after the lifecycle and the standard round.
- Network.ENetwork.PlayRound: states the credences only for a stable round. An unstable round states only the invariant and the round count.
- SimNetwork.ENetwork.PlayRound: states the errors, the round count, the invariant and the skeptic set. It does not restate the round's credences, which `SimNetwork.ENetwork.StandardRoundActions` states.
- Simulation.EpistemicNetworkSimulation.SimAction: after the network plays, it states the round count and the unchanged working list, not the new credences.
- Simulation.EpistemicNetworkSimulation.RunSim: states the conclusion, its round and the network round count. It does not state the credences the run ends with.
