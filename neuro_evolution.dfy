/** The neuroevolution trainer of src/learning/NeuroEvolution/NeuroEvolution.cpp: a set
    of populations evolved in lockstep, a scheduler that hands out one member of every
    population per episode and advances a generation when enough episodes are done, and
    the bookkeeping of each member's scores. Network weights, randomness, the
    configuration file and the log files are outside the model (see README.md). */
module NeuroEvolution {
  import Scheduling
  import opened Fitness

  /** `NeuroEvoMember`: the bookkeeping fields the trainer reads and writes. */
  class Member {
    var maxScore: real
    var maxScore1: real
    var maxScore2: real
    var pastScores: seq<real>

    /** A member with freshly randomised weights and no score history. The initial
        record comes from `NeuroEvoMember`, which is not part of this model; the body
        starts it at zero and no contract depends on that value. */
    constructor ()
      ensures pastScores == []
    {
      maxScore, maxScore1, maxScore2 := 0.0, 0.0, 0.0;
      pastScores := [];
    }

    function Record(): Best
      reads this
    {
      Best(maxScore, maxScore1, maxScore2)
    }

    /** The body of the loop of `updateScores` for one selected member: the episode's
        scalar `score` joins the history and updates the running best. */
    method Credit(score: real, c0: real, c1: real, leniencyCoef: real)
      modifies this
      ensures pastScores == old(pastScores) + [score]
      ensures Record() == Aggregate(old(Record()), score, c0, c1, leniencyCoef)
    {
      pastScores := pastScores + [score];
      var prevScore := maxScore;
      if prevScore > score {
        var newScore := leniencyCoef * prevScore + (1.0 - leniencyCoef) * score;
        maxScore := newScore;
      } else {
        maxScore := score;
        maxScore1 := c0;
        maxScore2 := c1;
      }
    }
  }

  /** Members listed best first: `maxScore` does not increase along the list. */
  predicate ScoreOrdered(s: seq<Member>)
    reads s
  {
    forall i :: 0 < i < |s| ==> s[i - 1].maxScore >= s[i].maxScore
  }

  /** In a score-ordered list a member ranks at least as high as every member after it. */
  lemma {:induction false} RanksAbove(s: seq<Member>, a: nat, b: nat)
    requires ScoreOrdered(s) && a <= b < |s|
    ensures s[a].maxScore >= s[b].maxScore
    decreases b - a
  {
    if a < b {
      RanksAbove(s, a + 1, b);
    }
  }

  /** Elitism: when the first `keep` members of the score-ordered list `sorted` are kept
      in place and the others replaced, every member that dropped out scored no higher than
      any kept one, and every kept member was in `sorted`. */
  lemma Elitism(sorted: seq<Member>, after: seq<Member>, keep: nat)
    requires ScoreOrdered(sorted) && keep <= |sorted| == |after|
    requires after[..keep] == sorted[..keep]
    ensures forall a | 0 <= a < keep :: after[a] in sorted
    ensures KeptBest(sorted, after, keep)
  {
    forall a, m | 0 <= a < keep && m in sorted && m !in after
      ensures m.maxScore <= after[a].maxScore
    {
      var t :| 0 <= t < |sorted| && sorted[t] == m;
      assert forall u | 0 <= u < keep :: after[u] == sorted[..keep][u];
      assert keep <= t;
      RanksAbove(sorted, a, t);
    }
    assert forall u | 0 <= u < keep :: after[u] == sorted[..keep][u];
  }

  /** No member of `before` that is missing from `after` scored higher than any of the
      first `keep` members of `after`. */
  ghost predicate KeptBest(before: seq<Member>, after: seq<Member>, keep: nat)
    reads before, after
  {
    forall a, m | 0 <= a < keep && a < |after| && m in before && m !in after :: m.maxScore <= after[a].maxScore
  }

  /** What a generation advance does to one population, seen from its members before
      (`before`) and after (`after`): the first `keep` members are former members, the
      others have an empty history, and no member that left scored higher than a kept
      one. */
  ghost predicate Regenerated(before: seq<Member>, after: seq<Member>, keep: nat)
    reads before, after
  {
    keep <= |after| &&
    (forall a | 0 <= a < keep :: after[a] in before) &&
    (forall t | keep <= t < |after| :: after[t].pastScores == []) &&
    KeptBest(before, after, keep)
  }

  /** The records of `pop`, in order. */
  ghost function Records(pop: seq<Member>): (r: seq<Best>)
    reads pop
    ensures |r| == |pop| && forall k :: 0 <= k < |pop| ==> r[k] == pop[k].Record()
  {
    if pop == [] then [] else [pop[0].Record()] + Records(pop[1..])
  }

  /** The evolution-log line `rec` was written at tick `tick` for a population whose
      members had the records `recs`: it holds one of them, and none of them has a
      higher `maxScore`. */
  ghost predicate LogsBest(rec: GenerationRecord, tick: int, recs: seq<Best>)
  {
    rec.tick == tick && rec.best in recs &&
    forall b :: b in recs ==> b.maxScore <= rec.best.maxScore
  }

  /** The record of the head of a score-ordered permutation of `before` is the best
      record of `before`. */
  lemma LogsBestOfPermutation(rec: GenerationRecord, tick: int, sorted: seq<Member>, before: seq<Member>)
    requires multiset(sorted) == multiset(before) && 0 < |sorted|
    requires rec.tick == tick && rec.best == sorted[0].Record()
    requires forall t :: 0 <= t < |sorted| ==> sorted[t].maxScore <= rec.best.maxScore
    ensures LogsBest(rec, tick, Records(before))
  {
    var recs := Records(before);
    assert sorted[0] in multiset(before);
    var k :| 0 <= k < |before| && before[k] == sorted[0];
    assert recs[k] == rec.best;
    forall b | b in recs ensures b.maxScore <= rec.best.maxScore {
      var j :| 0 <= j < |recs| && recs[j] == b;
      assert before[j] in multiset(sorted);
      var t :| 0 <= t < |sorted| && sorted[t] == before[j];
    }
  }

  /** Elitism survives a reordering: `before` may be replaced by any permutation of it,
      and a kept prefix copied from `sorted` consists of members of `before`. */
  lemma KeptBestSameMembers(before: seq<Member>, sorted: seq<Member>, after: seq<Member>, keep: nat)
    requires multiset(before) == multiset(sorted)
    requires keep <= |sorted| && keep <= |after| && after[..keep] == sorted[..keep]
    requires KeptBest(sorted, after, keep)
    ensures KeptBest(before, after, keep)
    ensures forall a | 0 <= a < keep :: after[a] in before
  {
    forall m ensures m in before <==> m in sorted {
      assert m in before <==> m in multiset(before);
      assert m in sorted <==> m in multiset(sorted);
    }
    assert forall a | 0 <= a < keep :: after[a] == sorted[..keep][a];
  }

  /** Regeneration survives a reordering of the population it started from. */
  lemma RegeneratedSameMembers(before: seq<Member>, sorted: seq<Member>, after: seq<Member>, keep: nat)
    requires multiset(before) == multiset(sorted) && keep <= |sorted|
    requires Regenerated(sorted, after, keep) && after[..keep] == sorted[..keep]
    ensures Regenerated(before, after, keep)
  {
    KeptBestSameMembers(before, sorted, after, keep);
  }

  /** `m` placed into the list `s` after every leading member at least as good. */
  function InsertByScore(s: seq<Member>, m: Member): (r: seq<Member>)
    reads s, m
    ensures multiset(r) == multiset(s) + multiset{m}
  {
    if s == [] || s[0].maxScore <= m.maxScore then [m] + s
    else
      assert s == [s[0]] + s[1..];
      [s[0]] + InsertByScore(s[1..], m)
  }

  /** Inserting into a score-ordered list keeps it score-ordered; the new head is `m`
      or the old head. */
  lemma {:induction false} InsertKeepsOrder(s: seq<Member>, m: Member)
    requires ScoreOrdered(s)
    ensures ScoreOrdered(InsertByScore(s, m))
    ensures InsertByScore(s, m)[0] == m || (s != [] && InsertByScore(s, m)[0] == s[0])
  {
    if s != [] && s[0].maxScore > m.maxScore {
      InsertKeepsOrder(s[1..], m);
    }
  }

  /** The sort inside `orderPopulation`: `ms` reordered by `maxScore`, best first, by
      inserting one member after the other. */
  method SortByScore(ms: seq<Member>) returns (sorted: seq<Member>)
    ensures multiset(sorted) == multiset(ms) && |sorted| == |ms|
    ensures forall m :: m in sorted <==> m in ms
    ensures ScoreOrdered(sorted)
  {
    sorted := [];
    var i := 0;
    while i < |ms|
      invariant 0 <= i <= |ms|
      invariant ScoreOrdered(sorted) && multiset(sorted) == multiset(ms[..i])
    {
      InsertKeepsOrder(sorted, ms[i]);
      sorted := InsertByScore(sorted, ms[i]);
      assert ms[..i + 1] == ms[..i] + [ms[i]];
      i := i + 1;
    }
    assert ms[..i] == ms;
    SameMembers(sorted, ms);
  }

  /** Two lists with the same multiset have the same length and the same members. */
  lemma SameMembers(a: seq<Member>, b: seq<Member>)
    requires multiset(a) == multiset(b)
    ensures |a| == |b| && forall m :: m in a <==> m in b
  {
    assert |a| == |multiset(a)| && |b| == |multiset(b)|;
    forall m ensures m in a <==> m in b {
      assert m in a <==> m in multiset(a);
      assert m in b <==> m in multiset(b);
    }
  }

  /** `NeuroEvoPopulation`: a fixed-size list of members. Its source is not part of this
      model; the bodies below are stand-ins that meet the contracts the trainer relies on. */
  class Population {
    var members: seq<Member>

    /** A population of `size` new members. */
    constructor (size: nat)
      ensures |members| == size
      ensures forall m :: m in members ==> fresh(m) && m.pastScores == []
      ensures forall a, b :: 0 <= a < b < |members| ==> members[a] != members[b]
    {
      var ms: seq<Member> := [];
      while |ms| < size
        invariant |ms| <= size
        invariant forall m :: m in ms ==> fresh(m) && m.pastScores == []
        invariant forall a, b :: 0 <= a < b < |ms| ==> ms[a] != ms[b]
      {
        var m := new Member();
        ms := ms + [m];
      }
      members := ms;
    }

    /** `orderPopulation`: reorders the members by `maxScore`, best first. */
    method OrderPopulation()
      modifies this
      ensures multiset(members) == multiset(old(members))
      ensures |members| == |old(members)|
      ensures forall m :: m in members <==> m in old(members)
      ensures ScoreOrdered(members)
    {
      members := SortByScore(members);
    }

    /** `mutate`: replaces the last `count` members, the lowest ranked after ordering,
        by new ones; the others are kept in place. */
    method Mutate(count: nat)
      requires count <= |members|
      modifies this
      ensures |members| == |old(members)|
      ensures members[..|members| - count] == old(members)[..|members| - count]
      ensures forall t :: |members| - count <= t < |members| ==>
        fresh(members[t]) && members[t].pastScores == []
      ensures forall m :: m in members ==> m in old(members) || fresh(m)
    {
      var n := |members|;
      var i := n - count;
      while i < n
        invariant n - count <= i <= n && |members| == n
        invariant members[..n - count] == old(members)[..n - count]
        invariant forall t :: n - count <= t < i ==>
          fresh(members[t]) && members[t].pastScores == []
        invariant forall t :: i <= t < n ==> members[t] == old(members)[t]
      {
        var m := new Member();
        members := members[i := m];
        i := i + 1;
      }
      forall m | m in members ensures m in old(members) || fresh(m) {
        var t :| 0 <= t < n && members[t] == m;
        if t < n - count {
          assert members[..n - count][t] == m;
        }
      }
    }
  }

  /** Populations of `size` members each, pairwise distinct, no member shared between
      two of them. */
  ghost predicate Partitioned(pops: seq<Population>, size: nat)
    reads pops
  {
    (forall i :: 0 <= i < |pops| ==> |pops[i].members| == size) &&
    (forall i, j :: 0 <= i < j < |pops| ==> pops[i] != pops[j]) &&
    (forall i, j, m | 0 <= i < |pops| && 0 <= j < |pops| &&
       m in pops[i].members && m in pops[j].members :: i == j)
  }

  /** `selected` is empty or holds one member of each population, in order. */
  ghost predicate Selects(selected: seq<Member>, pops: seq<Population>)
    reads pops
  {
    selected == [] ||
    (|selected| == |pops| && forall i :: 0 <= i < |selected| ==> selected[i] in pops[i].members)
  }

  /** The loop of `updateScores`: every member of `selected`, which holds no member
      twice, is credited with the same episode. */
  method CreditAll(selected: seq<Member>, score: real, c0: real, c1: real, leniencyCoef: real)
    requires forall a, b :: 0 <= a < b < |selected| ==> selected[a] != selected[b]
    modifies selected
    ensures forall k :: 0 <= k < |selected| ==>
      selected[k].pastScores == old(selected[k].pastScores) + [score] &&
      selected[k].Record() == Aggregate(old(selected[k].Record()), score, c0, c1, leniencyCoef)
  {
    var oneElem := 0;
    while oneElem < |selected|
      invariant 0 <= oneElem <= |selected|
      invariant forall k :: 0 <= k < oneElem ==>
        selected[k].pastScores == old(selected[k].pastScores) + [score] &&
        selected[k].Record() == Aggregate(old(selected[k].Record()), score, c0, c1, leniencyCoef)
      invariant forall k :: oneElem <= k < |selected| ==> unchanged(selected[k])
    {
      selected[oneElem].Credit(score, c0, c1, leniencyCoef);
      oneElem := oneElem + 1;
    }
  }

  /** One line of the evolution log written when a generation advances (the average
      scores of the generation are not modelled). */
  datatype GenerationRecord = GenerationRecord(tick: int, best: Best)

  /** The trainer. */
  class NeuroEvolution {
    const populationSize: nat
    const numberOfElementsToMutate: nat
    const numberOfTestsBetweenGenerations: nat
    const numberOfControllers: nat
    const leniencyCoef: real
    const coevolution: bool

    var currentTest: int
    var generationNumber: nat
    var scoresOfTheGeneration: seq<seq<real>>
    var selectedControllers: seq<Member>
    var populations: seq<Population>

    /** The lines appended to logs/scores.csv, one per episode. */
    ghost var scoreLog: seq<(real, real)>
    /** The lines appended to the evolution log, one per generation advance. */
    ghost var evolutionLog: seq<GenerationRecord>

    /** `testsToDo` of this configuration. */
    function TestsToDo(): nat {
      Scheduling.TestsToDo(coevolution, populationSize, numberOfTestsBetweenGenerations)
    }

    /** The counter value a generation advance restarts from. */
    function Restart(): int {
      Scheduling.Restart(coevolution, populationSize, numberOfElementsToMutate)
    }

    /** The configuration constraints, the shape of the populations, and that no member
        belongs to two populations. */
    ghost predicate PopulationsValid()
      reads this, populations
    {
      0 < populationSize && numberOfElementsToMutate <= populationSize &&
      0 < numberOfTestsBetweenGenerations && 0 < numberOfControllers &&
      |populations| == numberOfControllers &&
      Partitioned(populations, populationSize)
    }

    /** The selection holds one member of each population, in population order (or is
        empty before the first call of `NextSetOfControllers`). */
    ghost predicate SelectionValid()
      reads this, populations
    {
      Selects(selectedControllers, populations)
    }

    ghost predicate Valid()
      reads this, populations
    {
      PopulationsValid() && SelectionValid() &&
      0 <= currentTest <= TestsToDo() &&
      (forall v :: v in scoresOfTheGeneration ==> |v| == 2)
    }

    /** Distinct populations contribute distinct selected members. */
    lemma SelectionDistinct()
      requires Valid()
      ensures forall a, b :: 0 <= a < b < |selectedControllers| ==> selectedControllers[a] != selectedControllers[b]
    {
    }

    /** The constructor, with the configuration values passed in instead of read from a file. */
    constructor (populationSize: nat, numberOfElementsToMutate: nat, numberOfTestsBetweenGenerations: nat,
                 numberOfControllers: nat, leniencyCoef: real, coevolution: bool)
      requires 0 < populationSize && numberOfElementsToMutate <= populationSize
      requires 0 < numberOfTestsBetweenGenerations && 0 < numberOfControllers
      ensures Valid()
      ensures this.populationSize == populationSize && this.numberOfElementsToMutate == numberOfElementsToMutate
      ensures this.numberOfTestsBetweenGenerations == numberOfTestsBetweenGenerations
      ensures this.numberOfControllers == numberOfControllers
      ensures this.leniencyCoef == leniencyCoef && this.coevolution == coevolution
      ensures currentTest == 0 && generationNumber == 0
      ensures scoresOfTheGeneration == [] && selectedControllers == []
      ensures scoreLog == [] && evolutionLog == []
      ensures forall i :: 0 <= i < |populations| ==> fresh(populations[i])
      ensures forall i, t :: 0 <= i < |populations| && 0 <= t < |populations[i].members| ==>
        populations[i].members[t].pastScores == []
      ensures forall i, a, b :: 0 <= i < |populations| && 0 <= a < b < |populations[i].members| ==>
        populations[i].members[a] != populations[i].members[b]
    {
      var pops: seq<Population> := [];
      while |pops| < numberOfControllers
        invariant |pops| <= numberOfControllers
        invariant forall i :: 0 <= i < |pops| ==> fresh(pops[i]) && |pops[i].members| == populationSize
        invariant forall i, t :: 0 <= i < |pops| && 0 <= t < |pops[i].members| ==> pops[i].members[t].pastScores == []
        invariant forall i, a, b :: 0 <= i < |pops| && 0 <= a < b < |pops[i].members| ==>
          pops[i].members[a] != pops[i].members[b]
        invariant forall i, j :: 0 <= i < j < |pops| ==> pops[i] != pops[j]
        invariant forall i, j, m | 0 <= i < |pops| && 0 <= j < |pops| &&
          m in pops[i].members && m in pops[j].members :: i == j
      {
        var p := new Population(populationSize);
        pops := pops + [p];
      }
      this.populationSize := populationSize;
      this.numberOfElementsToMutate := numberOfElementsToMutate;
      this.numberOfTestsBetweenGenerations := numberOfTestsBetweenGenerations;
      this.numberOfControllers := numberOfControllers;
      this.leniencyCoef := leniencyCoef;
      this.coevolution := coevolution;
      currentTest, generationNumber := 0, 0;
      scoresOfTheGeneration, selectedControllers := [], [];
      populations := pops;
      scoreLog, evolutionLog := [], [];
    }

    /** `orderAllPopulations`: counts the new generation, orders every population and
        logs the best member of the first one. */
    method OrderAllPopulations()
      requires Valid()
      modifies this, populations
      ensures Valid()
      ensures generationNumber == old(generationNumber) + 1
      ensures populations == old(populations) && selectedControllers == old(selectedControllers)
      ensures currentTest == old(currentTest) && scoresOfTheGeneration == old(scoresOfTheGeneration)
      ensures scoreLog == old(scoreLog)
      ensures forall i :: 0 <= i < |populations| ==>
        ScoreOrdered(populations[i].members) &&
        multiset(populations[i].members) == multiset(old(populations[i].members))
      ensures evolutionLog == old(evolutionLog) +
        [GenerationRecord(generationNumber * numberOfTestsBetweenGenerations, populations[0].members[0].Record())]
      ensures forall t :: 0 <= t < |populations[0].members| ==>
        populations[0].members[t].maxScore <= evolutionLog[|evolutionLog| - 1].best.maxScore
      ensures LogsBest(evolutionLog[|evolutionLog| - 1], generationNumber * numberOfTestsBetweenGenerations,
                       old(Records(populations[0].members)))
    {
      generationNumber := generationNumber + 1;
      OrderEach(old(populations[0].members));
      assert evolutionLog == old(evolutionLog);
      LogBest(old(Lineup()), old(Records(populations[0].members)));
    }

    /** The evolution-log line of `orderAllPopulations`: the tick and the record of the
        first member of the first population. The populations, ordered, held the members
        of `lineup` up to order; those of the first had the records `records`. */
    method LogBest(ghost lineup: seq<seq<Member>>, ghost records: seq<Best>)
      requires Valid() && |lineup| == |populations|
      requires forall i :: 0 <= i < |populations| ==>
        ScoreOrdered(populations[i].members) && multiset(populations[i].members) == multiset(lineup[i])
      requires Records(lineup[0]) == records
      modifies this
      ensures Valid()
      ensures forall i :: 0 <= i < |populations| ==>
        ScoreOrdered(populations[i].members) && multiset(populations[i].members) == multiset(lineup[i])
      ensures evolutionLog == old(evolutionLog) +
        [GenerationRecord(generationNumber * numberOfTestsBetweenGenerations, populations[0].members[0].Record())]
      ensures forall t :: 0 <= t < |populations[0].members| ==>
        populations[0].members[t].maxScore <= evolutionLog[|evolutionLog| - 1].best.maxScore
      ensures generationNumber == old(generationNumber) && currentTest == old(currentTest)
      ensures populations == old(populations) && selectedControllers == old(selectedControllers)
      ensures scoresOfTheGeneration == old(scoresOfTheGeneration) && scoreLog == old(scoreLog)
      ensures LogsBest(evolutionLog[|evolutionLog| - 1], generationNumber * numberOfTestsBetweenGenerations, records)
    {
      var rec := LeaderLine(lineup[0], records);
      evolutionLog := evolutionLog + [rec];
    }

    /** The line `LogBest` appends: the tick and the record of the head of the first
        population, once ordered; its members were `before` up to order, with the records
        `records`. */
    method LeaderLine(ghost before: seq<Member>, ghost records: seq<Best>) returns (rec: GenerationRecord)
      requires Valid() && ScoreOrdered(populations[0].members)
      requires multiset(populations[0].members) == multiset(before) && Records(before) == records
      ensures rec == GenerationRecord(generationNumber * numberOfTestsBetweenGenerations, populations[0].members[0].Record())
      ensures forall t :: 0 <= t < |populations[0].members| ==> populations[0].members[t].maxScore <= rec.best.maxScore
      ensures LogsBest(rec, generationNumber * numberOfTestsBetweenGenerations, records)
    {
      var best := populations[0].members[0];
      forall t | 0 <= t < |populations[0].members|
        ensures populations[0].members[t].maxScore <= best.maxScore
      {
        RanksAbove(populations[0].members, 0, t);
      }
      rec := GenerationRecord(generationNumber * numberOfTestsBetweenGenerations, best.Record());
      LogsBestOfPermutation(rec, rec.tick, populations[0].members, before);
    }

    /** The loop of `orderAllPopulations`: every population ordered in turn. */
    method OrderEach(ghost pop: seq<Member>)
      requires Valid()
      modifies populations
      ensures unchanged(this) && Valid()
      ensures Records(pop) == old(Records(pop))
      ensures forall i :: 0 <= i < |populations| ==>
        ScoreOrdered(populations[i].members) &&
        multiset(populations[i].members) == multiset(old(populations[i].members))
    {
      var i := 0;
      while i < |populations|
        invariant 0 <= i <= |populations|
        invariant Valid()
        invariant forall j :: 0 <= j < i ==>
          ScoreOrdered(populations[j].members) &&
          multiset(populations[j].members) == multiset(old(populations[j].members))
        invariant forall j :: i <= j < |populations| ==> populations[j].members == old(populations[j].members)
        invariant Records(pop) == old(Records(pop))
      {
        OrderOne(i, pop);
        i := i + 1;
      }
    }

    /** One step of `orderAllPopulations`: population `i` is ordered; reordering keeps
        every member where it belongs, so the state stays valid. */
    method OrderOne(i: nat, ghost pop: seq<Member>)
      requires Valid() && i < |populations|
      modifies populations[i]
      ensures unchanged(this) && Valid()
      ensures Records(pop) == old(Records(pop))
      ensures forall j | 0 <= j < |populations| && j != i :: populations[j].members == old(populations[j].members)
      ensures ScoreOrdered(populations[i].members)
      ensures multiset(populations[i].members) == multiset(old(populations[i].members))
    {
      populations[i].OrderPopulation();
    }

    /** `mutateEveryController`: mutates the last `numberOfElementsToMutate` members of
        every population. On ordered populations this is elitist: no member that is
        replaced scored higher than a kept one. */
    method MutateEveryController()
      requires PopulationsValid()
      requires forall i :: 0 <= i < |populations| ==> ScoreOrdered(populations[i].members)
      modifies populations
      ensures unchanged(this) && PopulationsValid()
      ensures forall i :: 0 <= i < |populations| ==>
        populations[i].members[..populationSize - numberOfElementsToMutate] ==
          old(populations[i].members)[..populationSize - numberOfElementsToMutate]
      ensures forall i, t | 0 <= i < |populations| && populationSize - numberOfElementsToMutate <= t < populationSize ::
        fresh(populations[i].members[t]) && populations[i].members[t].pastScores == []
      ensures forall i :: 0 <= i < |populations| ==>
        KeptBest(old(populations[i].members), populations[i].members, populationSize - numberOfElementsToMutate)
      ensures forall i :: 0 <= i < |populations| ==>
        Regenerated(old(populations[i].members), populations[i].members, populationSize - numberOfElementsToMutate)
    {
      var i := 0;
      while i < |populations|
        modifies populations
        invariant 0 <= i <= |populations|
        invariant PopulationsValid()
        invariant forall j :: 0 <= j < i ==>
          populations[j].members[..populationSize - numberOfElementsToMutate] ==
            old(populations[j].members)[..populationSize - numberOfElementsToMutate]
        invariant forall j, t | 0 <= j < i && populationSize - numberOfElementsToMutate <= t < populationSize ::
          fresh(populations[j].members[t]) && populations[j].members[t].pastScores == []
        invariant forall j :: i <= j < |populations| ==> populations[j].members == old(populations[j].members)
      {
        MutateOne(i);
        i := i + 1;
      }
      forall i | 0 <= i < |populations|
        ensures Regenerated(old(populations[i].members), populations[i].members, populationSize - numberOfElementsToMutate)
      {
        Elitism(old(populations[i].members), populations[i].members, populationSize - numberOfElementsToMutate);
      }
    }

    /** One step of `mutateEveryController`: population `i` is mutated, the others are
        not touched, and no member becomes shared. */
    method MutateOne(i: nat)
      requires PopulationsValid() && i < |populations|
      modifies populations[i]
      ensures unchanged(this) && PopulationsValid()
      ensures forall j | 0 <= j < |populations| && j != i :: populations[j].members == old(populations[j].members)
      ensures populations[i].members[..populationSize - numberOfElementsToMutate] ==
        old(populations[i].members)[..populationSize - numberOfElementsToMutate]
      ensures forall t | populationSize - numberOfElementsToMutate <= t < populationSize ::
        fresh(populations[i].members[t]) && populations[i].members[t].pastScores == []
    {
      populations[i].Mutate(numberOfElementsToMutate);
    }

    /** The population half of a generation advance: `orderAllPopulations` then
        `mutateEveryController`. Each population keeps its best
        `populationSize - numberOfElementsToMutate` members and replaces the others by new
        ones, none of the dropped members ranking above a kept one. */
    method OrderAndMutate()
      requires Valid()
      modifies this, populations
      ensures PopulationsValid()
      ensures generationNumber == old(generationNumber) + 1
      ensures currentTest == old(currentTest) && scoresOfTheGeneration == old(scoresOfTheGeneration)
      ensures populations == old(populations) && selectedControllers == old(selectedControllers)
      ensures scoreLog == old(scoreLog)
      ensures |evolutionLog| == |old(evolutionLog)| + 1 && evolutionLog[..|old(evolutionLog)|] == old(evolutionLog)
      ensures LogsBest(evolutionLog[|old(evolutionLog)|], generationNumber * numberOfTestsBetweenGenerations,
                       old(Records(populations[0].members)))
      ensures forall i :: 0 <= i < |populations| ==>
        Regenerated(old(populations[i].members), populations[i].members, populationSize - numberOfElementsToMutate)
      ensures forall i, t | 0 <= i < |populations| && populationSize - numberOfElementsToMutate <= t < populationSize ::
        fresh(populations[i].members[t])
    {
      OrderAllPopulations();
      label Ordered:
      MutateEveryController();
      forall i | 0 <= i < |populations|
        ensures Regenerated(old(populations[i].members), populations[i].members, populationSize - numberOfElementsToMutate)
      {
        RegeneratedSameMembers(old(populations[i].members), old@Ordered(populations[i].members),
                               populations[i].members, populationSize - numberOfElementsToMutate);
      }
    }

    /** The generation advance inside `nextSetOfControllers`: order and mutate every
        population, clear the generation's score log and restart the counter. */
    method AdvanceGeneration()
      requires Valid()
      modifies this, populations
      ensures PopulationsValid()
      ensures currentTest == Restart() && generationNumber == old(generationNumber) + 1
      ensures scoresOfTheGeneration == []
      ensures populations == old(populations) && selectedControllers == old(selectedControllers)
      ensures scoreLog == old(scoreLog)
      ensures |evolutionLog| == |old(evolutionLog)| + 1 && evolutionLog[..|old(evolutionLog)|] == old(evolutionLog)
      ensures LogsBest(evolutionLog[|old(evolutionLog)|], generationNumber * numberOfTestsBetweenGenerations,
                       old(Records(populations[0].members)))
      ensures forall i :: 0 <= i < |populations| ==>
        Regenerated(old(populations[i].members), populations[i].members, populationSize - numberOfElementsToMutate)
      ensures forall i, t | 0 <= i < |populations| && populationSize - numberOfElementsToMutate <= t < populationSize ::
        fresh(populations[i].members[t])
    {
      OrderAndMutate();
      ClearGeneration(old(Lineup()));
    }

    /** The members of every population, in population order. */
    ghost function Lineup(): (r: seq<seq<Member>>)
      reads this, populations
      ensures |r| == |populations| && forall i :: 0 <= i < |r| ==> r[i] == populations[i].members
    {
      seq(|populations|, i reads this, populations requires 0 <= i < |populations| => populations[i].members)
    }

    /** The end of a generation advance: the generation's score log is cleared and the
        counter restarts. Only the trainer's own fields change, so what the advance did
        to the populations, whose members were `before`, stays true. */
    method ClearGeneration(ghost before: seq<seq<Member>>)
      requires PopulationsValid() && |before| == |populations|
      requires forall i :: 0 <= i < |populations| ==>
        Regenerated(before[i], populations[i].members, populationSize - numberOfElementsToMutate)
      modifies this
      ensures PopulationsValid()
      ensures currentTest == Restart() && scoresOfTheGeneration == []
      ensures generationNumber == old(generationNumber) && evolutionLog == old(evolutionLog)
      ensures populations == old(populations) && selectedControllers == old(selectedControllers)
      ensures scoreLog == old(scoreLog)
      ensures forall i :: 0 <= i < |populations| ==>
        Regenerated(before[i], populations[i].members, populationSize - numberOfElementsToMutate)
    {
      this.scoresOfTheGeneration := [];
      if coevolution {
        currentTest := 0;
      } else {
        currentTest := populationSize - numberOfElementsToMutate;
      }
    }

    /** `nextSetOfControllers`: advances the generation if it is over, then selects one
        member of every population. `picks[i]` stands for `rand() % populationSize` drawn
        for population `i` in coevolution mode. */
    method NextSetOfControllers(picks: seq<nat>) returns (selected: seq<Member>)
      requires Valid()
      requires coevolution ==> |picks| == |populations| && forall i :: 0 <= i < |picks| ==> picks[i] < populationSize
      requires coevolution || currentTest < populationSize || 1 <= numberOfElementsToMutate
      modifies this, populations
      ensures Valid()
      ensures var slot := Scheduling.Slot(old(currentTest), TestsToDo(), Restart());
        currentTest == slot + 1 &&
        |selected| == |populations| &&
        forall i :: 0 <= i < |selected| ==>
          selected[i] == populations[i].members[if coevolution then picks[i] else slot]
      ensures selectedControllers == selected && populations == old(populations)
      ensures old(currentTest) == TestsToDo() ==>
        generationNumber == old(generationNumber) + 1 && scoresOfTheGeneration == [] &&
        |evolutionLog| == |old(evolutionLog)| + 1 && evolutionLog[..|old(evolutionLog)|] == old(evolutionLog) &&
        LogsBest(evolutionLog[|old(evolutionLog)|], generationNumber * numberOfTestsBetweenGenerations,
                 old(Records(populations[0].members))) &&
        (forall i :: 0 <= i < |populations| ==>
           Regenerated(old(populations[i].members), populations[i].members, populationSize - numberOfElementsToMutate)) &&
        (forall i, t | 0 <= i < |populations| && populationSize - numberOfElementsToMutate <= t < populationSize ::
           fresh(populations[i].members[t]))
      ensures old(currentTest) != TestsToDo() ==>
        generationNumber == old(generationNumber) && scoresOfTheGeneration == old(scoresOfTheGeneration) &&
        evolutionLog == old(evolutionLog) &&
        forall i :: 0 <= i < |populations| ==> populations[i].members == old(populations[i].members)
      ensures scoreLog == old(scoreLog)
    {
      var testsToDo := if coevolution then numberOfTestsBetweenGenerations else populationSize;
      if currentTest == testsToDo {
        AdvanceGeneration();
      }
      Scheduling.SlotInRange(coevolution, populationSize, numberOfElementsToMutate,
                             numberOfTestsBetweenGenerations, old(currentTest));
      assert currentTest == Scheduling.Slot(old(currentTest), TestsToDo(), Restart());
      selected := SelectAndStep(picks, old(Lineup()));
    }

    /** The selection half of `nextSetOfControllers`: one member of every population, at
        the picked index in coevolution mode and at `currentTest` otherwise; the previous
        selection is discarded and the counter moves on. No population and no member
        changes, so populations regenerated from `lineup` stay so. */
    method SelectAndStep(picks: seq<nat>, ghost lineup: seq<seq<Member>>) returns (selected: seq<Member>)
      requires PopulationsValid() && forall w :: w in scoresOfTheGeneration ==> |w| == 2
      requires coevolution ==> |picks| == |populations| && forall i :: 0 <= i < |picks| ==> picks[i] < populationSize
      requires 0 <= currentTest < TestsToDo() && (!coevolution ==> currentTest < populationSize)
      modifies this
      ensures Valid()
      ensures currentTest == old(currentTest) + 1
      ensures |selected| == |populations| && forall i :: 0 <= i < |selected| ==>
        selected[i] == populations[i].members[if coevolution then picks[i] else old(currentTest)]
      ensures selectedControllers == selected && populations == old(populations)
      ensures generationNumber == old(generationNumber) && scoresOfTheGeneration == old(scoresOfTheGeneration)
      ensures scoreLog == old(scoreLog) && evolutionLog == old(evolutionLog)
      ensures forall i :: 0 <= i < |populations| ==> populations[i].members == old(populations[i].members)
      ensures old(|lineup| == |populations| && forall i :: 0 <= i < |populations| ==>
                    Regenerated(lineup[i], populations[i].members, populationSize - numberOfElementsToMutate)) ==>
        forall i :: 0 <= i < |populations| ==>
          Regenerated(lineup[i], populations[i].members, populationSize - numberOfElementsToMutate)
    {
      selected := Sample(picks, currentTest);
      selectedControllers := selected;
      currentTest := currentTest + 1;
    }

    /** The sampling loop of `nextSetOfControllers`: population `i` contributes its
        member at `picks[i]` in coevolution mode and at `slot` otherwise. */
    method Sample(picks: seq<nat>, slot: nat) returns (selected: seq<Member>)
      requires PopulationsValid()
      requires coevolution ==> |picks| == |populations| && forall i :: 0 <= i < |picks| ==> picks[i] < populationSize
      requires !coevolution ==> slot < populationSize
      ensures |selected| == |populations| && forall i :: 0 <= i < |selected| ==>
        selected[i] == populations[i].members[if coevolution then picks[i] else slot]
      ensures Selects(selected, populations)
    {
      selected := [];
      var i := 0;
      while i < |populations|
        invariant 0 <= i <= |populations| && |selected| == i
        invariant forall j :: 0 <= j < i ==>
          selected[j] == populations[j].members[if coevolution then picks[j] else slot]
        invariant forall j :: 0 <= j < i ==> selected[j] in populations[j].members
      {
        var selectedOne := if coevolution then picks[i] else slot;
        selected := selected + [populations[i].members[selectedOne]];
        i := i + 1;
      }
    }

    /** `updateScores`: records one episode's score vector against the members selected
        for it. A vector without exactly two components is padded with -1.0 and left out
        of the generation's log; `multiscore[1]` is read, so at least one component is
        needed. */
    method UpdateScores(multiscore: seq<real>)
      requires Valid() && 1 <= |multiscore|
      modifies this, selectedControllers
      ensures Valid()
      ensures scoresOfTheGeneration == old(scoresOfTheGeneration) + Logged(multiscore)
      ensures currentTest == old(currentTest) && generationNumber == old(generationNumber)
      ensures selectedControllers == old(selectedControllers) && populations == old(populations)
      ensures evolutionLog == old(evolutionLog)
      ensures scoreLog == old(scoreLog) + [(Padded(multiscore)[0], Padded(multiscore)[1])]
      ensures forall i :: 0 <= i < |selectedControllers| ==>
        selectedControllers[i].pastScores == old(selectedControllers[i].pastScores) + [Scalar(multiscore)] &&
        selectedControllers[i].Record() == Update(old(selectedControllers[i].Record()), multiscore, leniencyCoef)
    {
      var v, score := RecordEpisode(multiscore);
      CreditSelection(score, v[0], v[1]);
    }

    /** The crediting half of `updateScores`: only the selected members change, so the
        trainer's own state and the populations stay as they were. */
    method CreditSelection(score: real, c0: real, c1: real)
      requires Valid()
      modifies selectedControllers
      ensures unchanged(this) && unchanged(populations) && Valid()
      ensures forall k :: 0 <= k < |selectedControllers| ==>
        selectedControllers[k].pastScores == old(selectedControllers[k].pastScores) + [score] &&
        selectedControllers[k].Record() == Aggregate(old(selectedControllers[k].Record()), score, c0, c1, leniencyCoef)
    {
      SelectionDistinct();
      CreditAll(selectedControllers, score, c0, c1, leniencyCoef);
    }

    /** The logging half of `updateScores`: a two-component vector joins the
        generation's score log, any other is padded; the two components read from the
        padded vector go to logs/scores.csv. Returns the padded vector and its scalar
        score. */
    method RecordEpisode(multiscore: seq<real>) returns (v: seq<real>, score: real)
      requires 1 <= |multiscore| && forall w :: w in scoresOfTheGeneration ==> |w| == 2
      modifies this`scoresOfTheGeneration, this`scoreLog
      ensures v == Padded(multiscore) && score == Scalar(multiscore)
      ensures scoresOfTheGeneration == old(scoresOfTheGeneration) + Logged(multiscore)
      ensures forall w :: w in scoresOfTheGeneration ==> |w| == 2
      ensures scoreLog == old(scoreLog) + [(v[0], v[1])]
    {
      v := multiscore;
      if |v| == 2 {
        scoresOfTheGeneration := scoresOfTheGeneration + [v];
      } else {
        v := v + [-1.0];
      }
      score := 1.0 * v[0] - 0.0 * v[1];
      scoreLog := scoreLog + [(v[0], v[1])];
    }
  }
}
