/** The counter arithmetic of `NeuroEvolution::nextSetOfControllers`
    (src/learning/NeuroEvolution/NeuroEvolution.cpp), as pure functions of the
    configuration and of `currentTest`, and what a run of consecutive calls does. */
module Scheduling {

  /** `testsToDo`: the calls a generation lasts before the next one advances it: the
      configured number of random tests when coevolving, otherwise one call per member.
      Under the configuration's constraints a generation lasts at least one call. */
  function TestsToDo(coevolution: bool, populationSize: nat, numberOfTestsBetweenGenerations: nat): (r: nat)
    ensures r == numberOfTestsBetweenGenerations || r == populationSize
    ensures coevolution ==> r == numberOfTestsBetweenGenerations
    ensures !coevolution ==> r == populationSize
    ensures 0 < populationSize && 0 < numberOfTestsBetweenGenerations ==> 0 < r
  {
    if coevolution then numberOfTestsBetweenGenerations else populationSize
  }

  /** The value `currentTest` is reset to by a generation advance: 0 when coevolving,
      otherwise the first of the mutated members, which sit at the end after sorting:
      the members from the restart value on are exactly the `numberOfElementsToMutate`
      last ones, and it is a member index as soon as one member is mutated. */
  function Restart(coevolution: bool, populationSize: nat, numberOfElementsToMutate: nat): (r: int)
    ensures coevolution ==> r == 0
    ensures !coevolution ==> r + numberOfElementsToMutate == populationSize
    ensures numberOfElementsToMutate <= populationSize ==> 0 <= r <= populationSize
    ensures !coevolution && numberOfElementsToMutate <= populationSize ==>
      (r < populationSize <==> 1 <= numberOfElementsToMutate)
  {
    if coevolution then 0 else populationSize - numberOfElementsToMutate
  }

  /** The value of `currentTest` a call works with: reset if the generation is over.
      In sequential mode it is the index selected in every population. It is the counter
      or the restart value, and never the exhausted value `testsToDo` unless the restart
      value is that too. */
  function Slot(currentTest: int, testsToDo: int, restart: int): (r: int)
    ensures r == currentTest || r == restart
    ensures currentTest == testsToDo ==> r == restart
    ensures currentTest != testsToDo ==> r == currentTest
    ensures restart != testsToDo ==> r != testsToDo
  {
    if currentTest == testsToDo then restart else currentTest
  }

  /** Under the configuration's constraints the counter stays within `[0, testsToDo]`
      between calls, and in sequential mode the selected index is a valid member index,
      provided that when the generation ends at least one member is mutated. */
  lemma SlotInRange(coevolution: bool, populationSize: nat, numberOfElementsToMutate: nat,
                    numberOfTestsBetweenGenerations: nat, currentTest: int)
    requires 0 < populationSize && numberOfElementsToMutate <= populationSize
    requires 0 < numberOfTestsBetweenGenerations
    requires 0 <= currentTest <= TestsToDo(coevolution, populationSize, numberOfTestsBetweenGenerations)
    requires coevolution || currentTest < populationSize || 1 <= numberOfElementsToMutate
    ensures var limit := TestsToDo(coevolution, populationSize, numberOfTestsBetweenGenerations);
            var slot := Slot(currentTest, limit, Restart(coevolution, populationSize, numberOfElementsToMutate));
            0 <= slot && slot + 1 <= limit && (!coevolution ==> slot < populationSize)
  {
  }

  /** With no member mutated, the sequential mode restarts at `populationSize`, one past
      the last member, so the call that ends a generation would select out of range. */
  lemma NoMutationRestartsOutOfRange(populationSize: nat)
    ensures Slot(populationSize, TestsToDo(false, populationSize, 1), Restart(false, populationSize, 0)) == populationSize
  {
  }

  /** The integers `lo, lo+1, ..., hi-1`. */
  function Range(lo: int, hi: int): (r: seq<int>)
    ensures |r| == if lo <= hi then hi - lo else 0
    ensures forall t :: 0 <= t < |r| ==> r[t] == lo + t
    decreases hi - lo
  {
    if hi <= lo then [] else [lo] + Range(lo + 1, hi)
  }

  /** The slots of `calls` consecutive calls starting with counter `currentTest`. */
  function Slots(currentTest: int, calls: nat, testsToDo: int, restart: int): (r: seq<int>)
    ensures |r| == calls
    decreases calls
  {
    if calls == 0 then []
    else
      var slot := Slot(currentTest, testsToDo, restart);
      [slot] + Slots(slot + 1, calls - 1, testsToDo, restart)
  }

  /** How many of `calls` consecutive calls starting with counter `currentTest` advance
      a generation. */
  function Advances(currentTest: int, calls: nat, testsToDo: int, restart: int): nat
    decreases calls
  {
    if calls == 0 then 0
    else
      var slot := Slot(currentTest, testsToDo, restart);
      (if currentTest == testsToDo then 1 else 0) + Advances(slot + 1, calls - 1, testsToDo, restart)
  }

  /** From counter `c` the next `testsToDo - c` calls use slots `c, c+1, ...` and advance
      nothing; the call after them advances once and restarts. */
  lemma {:induction false} RunToLimit(c: int, testsToDo: int, restart: int)
    requires 0 <= c <= testsToDo
    ensures Slots(c, testsToDo - c, testsToDo, restart) == Range(c, testsToDo)
    ensures Advances(c, testsToDo - c, testsToDo, restart) == 0
    ensures Slots(c, testsToDo - c + 1, testsToDo, restart)[testsToDo - c] == restart
    ensures Advances(c, testsToDo - c + 1, testsToDo, restart) == 1
    decreases testsToDo - c
  {
    if c < testsToDo {
      RunToLimit(c + 1, testsToDo, restart);
      assert Slots(c, testsToDo - c + 1, testsToDo, restart)
          == [c] + Slots(c + 1, testsToDo - c, testsToDo, restart);
    }
  }

  /** Sequential mode, first generation: the calls select indices 0, 1, ..., populationSize-1
      in order without advancing; the next call advances and selects the first mutated index. */
  lemma SequentialFirstGeneration(populationSize: nat, numberOfElementsToMutate: nat)
    ensures var limit, restart := TestsToDo(false, populationSize, 1), Restart(false, populationSize, numberOfElementsToMutate);
      Slots(0, populationSize, limit, restart) == Range(0, populationSize) &&
      Advances(0, populationSize, limit, restart) == 0 &&
      Advances(0, populationSize + 1, limit, restart) == 1 &&
      Slots(0, populationSize + 1, limit, restart)[populationSize] == populationSize - numberOfElementsToMutate
  {
    RunToLimit(0, populationSize, populationSize - numberOfElementsToMutate);
  }

  /** Coevolution mode: the first `numberOfTestsBetweenGenerations` calls advance nothing
      and the one after them advances exactly once. */
  lemma CoevolutionFirstGeneration(numberOfTestsBetweenGenerations: nat, populationSize: nat, numberOfElementsToMutate: nat)
    ensures var limit, restart := TestsToDo(true, populationSize, numberOfTestsBetweenGenerations), Restart(true, populationSize, numberOfElementsToMutate);
      Advances(0, numberOfTestsBetweenGenerations, limit, restart) == 0 &&
      Advances(0, numberOfTestsBetweenGenerations + 1, limit, restart) == 1
  {
    RunToLimit(0, numberOfTestsBetweenGenerations, 0);
  }

  /** Every later generation starts with the advancing call and lasts
      `testsToDo - restart` calls, using slots `restart, ..., testsToDo-1`: in sequential
      mode only the mutated members are evaluated again. */
  lemma {:induction false} LaterGeneration(testsToDo: int, restart: int)
    requires 0 <= restart < testsToDo
    ensures Slots(testsToDo, testsToDo - restart, testsToDo, restart) == Range(restart, testsToDo)
    ensures Advances(testsToDo, testsToDo - restart, testsToDo, restart) == 1
    ensures Advances(testsToDo, testsToDo - restart + 1, testsToDo, restart) == 2
  {
    RunToLimit(restart + 1, testsToDo, restart);
  }
}
