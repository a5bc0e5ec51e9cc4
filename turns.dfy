/** The phases of a round as computations on values: the decisions of
    phase 1, the update phase, where the agents of an update order take
    their turns one after another and each one reads the credences as they
    stand when its turn comes, and the ageing of phase 3. */
module Turns {
  import opened Experiments
  import opened Jeffrey
  import opened Agents

  predicate Distinct<T(==)>(xs: seq<T>)
  {
    forall i, j | 0 <= i < j < |xs| :: xs[i] != xs[j]
  }

  /** Index of the first occurrence of `x`. */
  function IndexOf<T(==)>(xs: seq<T>, x: T): (i: nat)
    requires x in xs
    ensures i < |xs| && xs[i] == x && x !in xs[..i]
  {
    if xs[0] == x then 0 else 1 + IndexOf(xs[1..], x)
  }

  /** Position of a member of a list without repeats. */
  lemma IndexOfDistinct<T>(xs: seq<T>, i: nat)
    requires Distinct(xs) && i < |xs|
    ensures IndexOf(xs, xs[i]) == i
  {
  }

  /** In a list without repeats, the two halves have none either and
      share nothing. */
  lemma DistinctSplit<T>(a: seq<T>, b: seq<T>)
    requires Distinct(a + b)
    ensures Distinct(a) && Distinct(b)
    ensures forall x | x in a :: x !in b
  {
    forall i, j | 0 <= i < j < |a|
      ensures a[i] != a[j]
    {
      assert (a + b)[i] == a[i] && (a + b)[j] == a[j];
    }
    forall i, j | 0 <= i < j < |b|
      ensures b[i] != b[j]
    {
      assert (a + b)[|a| + i] == b[i] && (a + b)[|a| + j] == b[j];
    }
    forall i, j | 0 <= i < |a| && 0 <= j < |b|
      ensures a[i] != b[j]
    {
      assert (a + b)[i] == a[i] && (a + b)[|a| + j] == b[j];
    }
  }

  /** A newcomer that is in neither half can join between them without
      creating a repeat. */
  lemma DistinctInsert<T>(a: seq<T>, b: seq<T>, x: T)
    requires Distinct(a + b) && x !in a && x !in b
    ensures Distinct(a + [x] + b)
  {
    var c := a + [x] + b;
    forall i, j | 0 <= i < j < |c|
      ensures c[i] != c[j]
    {
      if i < |a| && j > |a| {
        assert c[j] == (a + b)[j - 1] && c[i] == (a + b)[i];
      } else if i > |a| {
        assert c[j] == (a + b)[j - 1] && c[i] == (a + b)[i - 1];
      } else if j < |a| {
        assert c[j] == (a + b)[j] && c[i] == (a + b)[i];
      }
    }
  }

  /** Phase 1 on values: the round experiments once the first `i`
      scientists of `order` have decided, scientist j on its credence in
      `cred` with the draw `draws[j]`; every other report stays as in `rep`. */
  function Decisions<T(==)>(order: seq<T>, i: nat, cred: map<T, real>, rep: map<T, Option<BinomialExperiment>>,
                            lowStop: real, n: nat, draws: seq<nat>): (r: map<T, Option<BinomialExperiment>>)
    requires i <= |order| <= |draws| && forall x | x in order :: x in cred
    requires forall j | 0 <= j < |draws| :: draws[j] <= n
    ensures r.Keys == rep.Keys
  {
    map x | x in rep :: if x in order[..i] then Decision(cred[x], lowStop, n, draws[IndexOf(order, x)]) else rep[x]
  }

  /** One more scientist of a list without repeats decides. */
  lemma DecisionsStep<T>(order: seq<T>, i: nat, cred: map<T, real>, rep: map<T, Option<BinomialExperiment>>,
                         lowStop: real, n: nat, draws: seq<nat>,
                         r0: map<T, Option<BinomialExperiment>>, r1: map<T, Option<BinomialExperiment>>)
    requires i < |order| <= |draws| && Distinct(order) && forall x | x in order :: x in cred && x in rep
    requires forall j | 0 <= j < |draws| :: draws[j] <= n
    requires r0 == Decisions(order, i, cred, rep, lowStop, n, draws)
    requires r1 == r0[order[i] := Decision(cred[order[i]], lowStop, n, draws[i])]
    ensures r1 == Decisions(order, i + 1, cred, rep, lowStop, n, draws)
  {
    IndexOfDistinct(order, i);
    assert order[..i + 1] == order[..i] + [order[i]];
  }

  /** Phase 3 on values: the experience once the scientists of `order`
      have gained a round. */
  function Older<T(==)>(order: seq<T>, exp: map<T, nat>): (r: map<T, nat>)
    ensures r.Keys == exp.Keys
  {
    map x | x in exp :: if x in order then exp[x] + 1 else exp[x]
  }

  /** One more agent of a list without repeats gains a round: from the
      map `e0` after the first `i` agents of `order` have, raising the
      experience of `order[i]` gives the map after `i + 1`. */
  lemma OlderStep<T>(order: seq<T>, i: nat, exp: map<T, nat>, e0: map<T, nat>, e1: map<T, nat>)
    requires i < |order| && Distinct(order) && order[i] in exp
    requires e0 == Older(order[..i], exp) && e1 == e0[order[i] := e0[order[i]] + 1]
    ensures e1 == Older(order[..i + 1], exp)
  {
    assert order[..i + 1] == order[..i] + [order[i]];
    assert order[i] !in order[..i];
  }

  /** A list without repeats has as many members as entries. */
  lemma {:induction false} DistinctCard<T>(xs: seq<T>)
    requires Distinct(xs)
    ensures |set x | x in xs| == |xs|
    decreases |xs|
  {
    if xs != [] {
      DistinctCard(xs[1..]);
      assert (set x | x in xs) == {xs[0]} + (set x | x in xs[1..]);
      assert xs[0] !in xs[1..];
    }
  }

  /** A set that misses a member of another it lies in is smaller. */
  lemma StrictSubset<T>(a: set<T>, b: set<T>, x: T)
    requires a <= b && x in b && x !in a
    ensures |a| < |b|
  {
    assert b == a + (b - a) && x in b - a;
  }

  /** `ys` rearranged: the same length, every member of `ys` exactly once. */
  predicate Shuffle<T(==)>(xs: seq<T>, ys: seq<T>)
  {
    && |xs| == |ys| && Distinct(xs)
    && (forall y | y in ys :: y in xs)
    && (forall x | x in xs :: x in ys)
  }

  /** What `rng.shuffle(np.arange(n))` leaves behind: the indices 0 to n - 1,
      each exactly once, in some order. */
  predicate IsPermutation(perm: seq<nat>, n: nat)
  {
    && |perm| == n && Distinct(perm)
    && (forall i | 0 <= i < n :: perm[i] < n)
    && (forall v | 0 <= v < n :: v in perm)
  }

  /** `[xs[i] for i in perm]`. */
  function Arrange<T>(xs: seq<T>, perm: seq<nat>): seq<T>
    requires forall i | 0 <= i < |perm| :: perm[i] < |xs|
  {
    seq(|perm|, i requires 0 <= i < |perm| => xs[perm[i]])
  }

  /** Arranging a list without repeats by a permutation of its indices
      shuffles it. */
  lemma ArrangeShuffles<T>(xs: seq<T>, perm: seq<nat>)
    requires Distinct(xs) && IsPermutation(perm, |xs|)
    ensures Shuffle(Arrange(xs, perm), xs)
  {
    var r := Arrange(xs, perm);
    assert Distinct(r) by {
      forall i, j | 0 <= i < j < |r|
        ensures r[i] != r[j]
      {
        assert perm[i] != perm[j];
      }
    }
    forall y | y in xs
      ensures y in r
    {
      var v :| 0 <= v < |xs| && xs[v] == y;
      assert v in perm;
      var i :| 0 <= i < |perm| && perm[i] == v;
      assert r[i] == y;
    }
    forall x | x in r
      ensures x in xs
    {
      var i :| 0 <= i < |r| && r[i] == x;
      assert xs[perm[i]] == x;
    }
  }

  /** Everything one agent's turn in the update phase reads is present:
      its influencer list, its credence, and a credence and a usable report
      for each influencer. */
  predicate Turnable<T(==)>(x: T, c: map<T, real>, infl: map<T, seq<T>>, data: map<T, Option<BinomialExperiment>>,
                            epsilon: real, m: real)
  {
    && ValidUpdater(epsilon, m) && x in infl && x in c && InUnit(c[x])
    && forall y | y in infl[x] :: y in c && y in data && (data[y].Some? ==> Usable(data[y].value))
  }

  /** One agent's turn in the update phase (`jeffrey_update_credence`): the
      fold of the update over its influencers, on the credences `c` as they
      stand.  Where something the turn reads is missing, the credence stays. */
  function AgentTurn<T(==)>(x: T, c: map<T, real>, infl: map<T, seq<T>>, data: map<T, Option<BinomialExperiment>>,
                            epsilon: real, m: real): (r: real)
    ensures x in c && InUnit(c[x]) ==> InUnit(r)
  {
    if Turnable(x, c, infl, data, epsilon, m) then Fold(c[x], ViewOf(x, infl[x], c, data), epsilon, m)
    else if x in c then c[x] else 0.0
  }

  /** The credences after the first `i` agents of `order` have taken their
      turns, starting from `cred`. */
  function Sweep<T(==)>(order: seq<T>, i: nat, infl: map<T, seq<T>>, data: map<T, Option<BinomialExperiment>>,
                        epsilon: real, m: real, cred: map<T, real>): (r: map<T, real>)
    requires i <= |order| && forall x | x in order :: x in cred
    ensures r.Keys == cred.Keys
    decreases i
  {
    if i == 0 then cred
    else
      var c := Sweep(order, i - 1, infl, data, epsilon, m, cred);
      var x := order[i - 1];
      assert x in order;
      c[x := AgentTurn(x, c, infl, data, epsilon, m)]
  }

  /** Turn number `i` of a sweep: the agent folds its update over what its
      influencers hold after the first `i` turns. */
  lemma SweepStep<T>(order: seq<T>, i: nat, infl: map<T, seq<T>>, data: map<T, Option<BinomialExperiment>>,
                     epsilon: real, m: real, cred: map<T, real>)
    requires i < |order| && forall x | x in order :: x in cred
    requires Turnable(order[i], Sweep(order, i, infl, data, epsilon, m, cred), infl, data, epsilon, m)
    ensures var c, x := Sweep(order, i, infl, data, epsilon, m, cred), order[i];
            Sweep(order, i + 1, infl, data, epsilon, m, cred)
              == c[x := Fold(c[x], ViewOf(x, infl[x], c, data), epsilon, m)]
  {
  }

  /** The credences agent number `i` of the update order sees in the update
      phase: agents before it in `order` have already updated (`after`), the
      others have not (`before`). */
  function PhaseView<T(==)>(order: seq<T>, i: nat, before: map<T, real>, after: map<T, real>): (view: map<T, real>)
    requires i <= |order| && before.Keys <= after.Keys
    ensures view.Keys == before.Keys
    ensures forall x | x in order[..i] && x in before :: view[x] == after[x]
    ensures forall x | x !in order[..i] && x in before :: view[x] == before[x]
  {
    map x | x in before :: if x in order[..i] then after[x] else before[x]
  }

  /** Lemma: an agent that is not among the first `i` of the order still
      holds its starting credence. */
  lemma {:induction false} SweepUntouched<T>(order: seq<T>, i: nat, infl: map<T, seq<T>>,
                                              data: map<T, Option<BinomialExperiment>>, epsilon: real, m: real,
                                              cred: map<T, real>, x: T)
    requires i <= |order| && (forall y | y in order :: y in cred)
    requires x in cred && x !in order[..i]
    ensures Sweep(order, i, infl, data, epsilon, m, cred)[x] == cred[x]
    decreases i
  {
    if i > 0 {
      assert order[..i - 1] == order[..i][..i - 1];
      assert order[i - 1] in order[..i];
      SweepUntouched(order, i - 1, infl, data, epsilon, m, cred, x);
    }
  }

  /** Lemma: when agent `order[j]` does not come up again, its credence is
      final once its own turn has passed. */
  lemma {:induction false} SweepSettled<T>(order: seq<T>, i: nat, j: nat, infl: map<T, seq<T>>,
                                            data: map<T, Option<BinomialExperiment>>, epsilon: real, m: real,
                                            cred: map<T, real>)
    requires j < i <= |order| && (forall y | y in order :: y in cred)
    requires forall k | j < k < i :: order[k] != order[j]
    ensures Sweep(order, i, infl, data, epsilon, m, cred)[order[j]] == Sweep(order, j + 1, infl, data, epsilon, m, cred)[order[j]]
    decreases i
  {
    if i > j + 1 {
      SweepSettled(order, i - 1, j, infl, data, epsilon, m, cred);
    }
  }

  /** Lemma: in an order without repeats, the credences after `i` turns are
      what agent `i` sees: final credences for the agents before it, starting
      credences for everyone else. */
  lemma {:induction false} SweepPrefix<T>(order: seq<T>, i: nat, infl: map<T, seq<T>>, data: map<T, Option<BinomialExperiment>>,
                       epsilon: real, m: real, cred: map<T, real>)
    requires i <= |order| && Distinct(order) && (forall y | y in order :: y in cred)
    ensures Sweep(order, i, infl, data, epsilon, m, cred)
            == PhaseView(order, i, cred, Sweep(order, |order|, infl, data, epsilon, m, cred))
  {
    forall y | y in cred
      ensures Sweep(order, i, infl, data, epsilon, m, cred)[y]
              == PhaseView(order, i, cred, Sweep(order, |order|, infl, data, epsilon, m, cred))[y]
    {
      if y in order[..i] {
        var j :| 0 <= j < i && order[j] == y;
        SettledForGood(order, i, j, infl, data, epsilon, m, cred);
      } else {
        SweepUntouched(order, i, infl, data, epsilon, m, cred, y);
      }
    }
  }

  /** An agent of a list without repeats that has had its turn keeps its
      credence to the end of the sweep. */
  lemma {:induction false} SettledForGood<T>(order: seq<T>, i: nat, j: nat, infl: map<T, seq<T>>,
                                             data: map<T, Option<BinomialExperiment>>, epsilon: real, m: real,
                                             cred: map<T, real>)
    requires j < i <= |order| && Distinct(order) && (forall y | y in order :: y in cred)
    ensures Sweep(order, i, infl, data, epsilon, m, cred)[order[j]]
            == Sweep(order, |order|, infl, data, epsilon, m, cred)[order[j]]
  {
    SweepSettled(order, i, j, infl, data, epsilon, m, cred);
    SweepSettled(order, |order|, j, infl, data, epsilon, m, cred);
  }

  /** The update loop as the program runs it: in an order without
      repeats, every agent of the order ends with its turn taken on the
      credences it sees (the final credences of the agents before it, the
      starting credences of the others), and agents outside the order keep
      their credences. */
  lemma SweepSeesPhaseView<T>(order: seq<T>, infl: map<T, seq<T>>, data: map<T, Option<BinomialExperiment>>,
                              epsilon: real, m: real, cred: map<T, real>)
    requires Distinct(order) && (forall y | y in order :: y in cred)
    ensures var after := Sweep(order, |order|, infl, data, epsilon, m, cred);
            forall i | 0 <= i < |order| :: after[order[i]] == AgentTurn(order[i], PhaseView(order, i, cred, after), infl, data, epsilon, m)
    ensures var after := Sweep(order, |order|, infl, data, epsilon, m, cred);
            forall x | x in cred && x !in order :: after[x] == cred[x]
  {
    var n := |order|;
    var after := Sweep(order, n, infl, data, epsilon, m, cred);
    forall i | 0 <= i < n
      ensures after[order[i]] == AgentTurn(order[i], PhaseView(order, i, cred, after), infl, data, epsilon, m)
    {
      SweepPrefix(order, i, infl, data, epsilon, m, cred);
      SweepSettled(order, n, i, infl, data, epsilon, m, cred);
    }
    forall x | x in cred && x !in order
      ensures after[x] == cred[x]
    {
      assert order[..n] == order;
      SweepUntouched(order, n, infl, data, epsilon, m, cred, x);
    }
  }

  /** Lemma: the update phase keeps every credence a probability. */
  lemma {:induction false} SweepKeepsUnit<T>(order: seq<T>, i: nat, infl: map<T, seq<T>>,
                                              data: map<T, Option<BinomialExperiment>>, epsilon: real, m: real,
                                              cred: map<T, real>)
    requires i <= |order| && (forall y | y in order :: y in cred) && (forall y | y in cred :: InUnit(cred[y]))
    ensures var r := Sweep(order, i, infl, data, epsilon, m, cred);
            forall y | y in r :: InUnit(r[y])
    decreases i
  {
    if i > 0 {
      SweepKeepsUnit(order, i - 1, infl, data, epsilon, m, cred);
      assert var r := Sweep(order, i - 1, infl, data, epsilon, m, cred);
             forall y | y in r :: InUnit(r[y]);
      assert order[i - 1] in order;
    }
  }
}
