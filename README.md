# NTRT neuroevolution bookkeeping, in Dafny

This project models two pieces of bookkeeping from the NASA Tensegrity Robotics
Toolkit's learning code. It proves what they keep invariant.

**The neuroevolution trainer** (`src/learning/NeuroEvolution/NeuroEvolution.cpp`):
- The trainer holds `numberOfControllers` populations of `populationSize` members.
- Each call of `nextSetOfControllers` hands out one member of every population.
- A run of `testsToDo` calls makes a generation. At the end of a generation every population is ordered by score, its worst `numberOfElementsToMutate` members are replaced, and the counter restarts.
- `updateScores` turns an episode's score vector into a scalar score. It credits that score to every selected member: it appends it to the member's history and updates the member's running best (a win, or a blend with the leniency coefficient).

**The top-N selection loop** of `scripts/PostProcess.py`:
- Each results file yields a score. A parameter set counts only the first time it is seen with a score.
- The loop keeps the `numScore` best files in a descending list `topScore`, with their file indices in `topParam`, and a threshold `maxScore` that a score must beat to enter the list.

Files:
- `fitness.dfy` (module `Fitness`): the scoring rule, as pure functions over `real` scores.
- `scheduling.dfy` (module `Scheduling`): the counter arithmetic of `nextSetOfControllers` as functions, and lemmas about runs of consecutive calls.
- `neuro_evolution.dfy` (module `NeuroEvolution`): the trainer as classes.
  - `Member` holds the per-member scores, updated in place.
  - `Population` holds a member list.
  - `NeuroEvolution` holds the counters, the score log, the selection and the populations.
  - The selected members alias members of the populations. The `modifies` clauses say which objects a call may change.
- `post_process.dfy` (module `PostProcess`): the per-file loop body, as methods over sequences, proved against a characterisation of the top-N list.

Three behaviours of the code are easy to misread, and the model follows the code in each:
- **A tie wins.** The code blends only when the previous best is strictly above the new score (`prevScore > score`). A score equal to the best replaces the best and its components.
- **The logged components.** The components written to the score log and taken on a win are read from the padded vector. A one-component vector therefore logs and keeps `-1` as its second component.
- **Repeats and missing keys.** A results file whose parameter ID was already counted, or whose `maxScore` key is missing, scores 0. A missing `maxScore` also leaves `paramList` and `fileSum` unchanged, because the exception is raised before they are updated.

## Model

| member | source | states |
|---|---|---|
| Fitness.Padded | src/learning/NeuroEvolution/NeuroEvolution.cpp:191-194 | A two-component vector is read as it is. Any other vector gets one `-1` appended. The original components are kept in front. |
| Fitness.Logged | src/learning/NeuroEvolution/NeuroEvolution.cpp:191-192 | The generation's score log gains the vector exactly when it has two components, and every logged vector has two components. |
| Fitness.Blend | src/learning/NeuroEvolution/NeuroEvolution.cpp:204 | The blend of a best `p` and a score `s` lies the fraction `leniencyCoef` of the way from `s` to `p`: it is `leniencyCoef * (p - s)` above `s` and `(1 - leniencyCoef) * (p - s)` below `p`. |
| Fitness.Scalar | src/learning/NeuroEvolution/NeuroEvolution.cpp:195 | The scalar score (weights 1 and 0) equals the first component. |
| Fitness.Aggregate | src/learning/NeuroEvolution/NeuroEvolution.cpp:201-212 | A score at least the previous best wins: it becomes the best, with its components. A lower score keeps the components. With a coefficient in [0, 1] the new best lies between the score and the old best. With a coefficient below 1 a loss strictly lowers the best. |
| Fitness.Update | src/learning/NeuroEvolution/NeuroEvolution.cpp:195-212 | For a raw score vector: a first component at least the previous best wins and is stored with the first two components, `-1` standing in for the second when the vector has only one. A lower first component blends into the best and keeps the stored components. |
| Fitness.BlendBetween | src/learning/NeuroEvolution/NeuroEvolution.cpp:203-205 | The leniency blend of a best `p` and a lower score `s` lies in `[s, p]` for a coefficient in [0, 1]. It is strictly below `p` for a coefficient below 1. |
| Fitness.ReplayBounded | src/learning/NeuroEvolution/NeuroEvolution.cpp:196-212 | Over any series of episodes, with a coefficient in [0, 1], a member's best is at least the latest score. It never exceeds the highest of its start value and all the scores it saw. |
| Fitness.AggregateExamples | src/learning/NeuroEvolution/NeuroEvolution.cpp:201-212 | Worked cases. A best of 10 that loses to 4 with coefficient 0.5 becomes 7 and keeps its components. A best of 5 that meets 9 is replaced. |
| Scheduling.TestsToDo | src/learning/NeuroEvolution/NeuroEvolution.cpp:152-156 | A generation lasts `numberOfTestsBetweenGenerations` calls when coevolving and `populationSize` calls otherwise, and at least one call when both are positive. |
| Scheduling.Restart | src/learning/NeuroEvolution/NeuroEvolution.cpp:165-168 | The counter restarts at 0 when coevolving. Otherwise the restart value plus `numberOfElementsToMutate` is `populationSize`, so the members from it on are exactly the mutated ones. It is a member index exactly when at least one member is mutated. |
| Scheduling.Slot | src/learning/NeuroEvolution/NeuroEvolution.cpp:158-178 | A call works with the counter, or with the restart value when the counter has reached `testsToDo`. It never works with `testsToDo` itself unless the restart value equals it. |
| Scheduling.SlotInRange | src/learning/NeuroEvolution/NeuroEvolution.cpp:152-183 | Under the configuration ranges, the counter value a call works with lies in `[0, testsToDo)`. In sequential mode it is a valid member index, provided the sequential reset does not land past the end. |
| Scheduling.NoMutationRestartsOutOfRange | src/learning/NeuroEvolution/NeuroEvolution.cpp:165-178 | In sequential mode with no member mutated, the call that ends a generation selects index `populationSize`, one past the last member. |
| Scheduling.RunToLimit | src/learning/NeuroEvolution/NeuroEvolution.cpp:158-183 | From counter `c`, the next `testsToDo - c` calls use slots `c, c+1, ..., testsToDo-1` and advance no generation. The call after them advances exactly once and uses the restart slot. |
| Scheduling.SequentialFirstGeneration | src/learning/NeuroEvolution/NeuroEvolution.cpp:155-183 | In sequential mode the first `populationSize` calls select indices `0, 1, ..., populationSize-1` in order without advancing. The next call advances once and selects `populationSize - numberOfElementsToMutate`. |
| Scheduling.CoevolutionFirstGeneration | src/learning/NeuroEvolution/NeuroEvolution.cpp:153-183 | In coevolution mode the first `numberOfTestsBetweenGenerations` calls advance nothing. The call after them advances exactly once. |
| Scheduling.LaterGeneration | src/learning/NeuroEvolution/NeuroEvolution.cpp:158-183 | Every later generation starts with the advancing call and lasts `testsToDo - restart` calls. It uses the slots `restart, ..., testsToDo-1`, so in sequential mode only the mutated members are evaluated again. The next call advances again. |
| NeuroEvolution.Member.Credit | src/learning/NeuroEvolution/NeuroEvolution.cpp:198-212 | One selected member gains the episode's scalar score at the end of its history. Its best record becomes `Aggregate` of the old record. |
| NeuroEvolution.CreditAll | src/learning/NeuroEvolution/NeuroEvolution.cpp:196-213 | Every member of a selection without repeats gains exactly one history entry, the score. Its record is updated once by `Aggregate`. Only the selected members may change. |
| NeuroEvolution.RanksAbove | src/learning/NeuroEvolution/NeuroEvolution.cpp:124-132 | In an ordered population a member's `maxScore` is at least that of every member after it. In particular the member at index 0, which the evolution log records, is the best. |
| NeuroEvolution.Elitism | src/learning/NeuroEvolution/NeuroEvolution.cpp:160-161 | When the first `keep` members of an ordered population stay in place and the others are replaced, every kept member was there before. No member that dropped out scored higher than a kept one. |
| NeuroEvolution.KeptBestSameMembers | src/learning/NeuroEvolution/NeuroEvolution.cpp:160-161 | Elitism measured against the ordered population also holds against the population before ordering, since ordering only permutes it. The kept members were all in the population before ordering. |
| NeuroEvolution.InsertByScore | src/learning/NeuroEvolution/NeuroEvolution.cpp:125 | Placing a member into a list (the step of the stand-in ordering) adds exactly that member: the multiset grows by it. |
| NeuroEvolution.InsertKeepsOrder | src/learning/NeuroEvolution/NeuroEvolution.cpp:125 | Placing a member into a list ordered by `maxScore` keeps it ordered. The new head is the inserted member or the old head. |
| NeuroEvolution.SortByScore | src/learning/NeuroEvolution/NeuroEvolution.cpp:125 | The sort of the stand-in ordering returns a permutation of its input (same multiset, same length, same membership) whose `maxScore` does not increase along the list. |
| NeuroEvolution.SameMembers | src/learning/NeuroEvolution/NeuroEvolution.cpp:125 | Two member lists that are permutations of each other have the same length and the same members, so ordering neither adds nor loses a member. |
| NeuroEvolution.Records | src/learning/NeuroEvolution/NeuroEvolution.cpp:128 | The records of a member list, one per member and in order: the values the evolution log can take. |
| NeuroEvolution.LogsBestOfPermutation | src/learning/NeuroEvolution/NeuroEvolution.cpp:124-128 | The record of the head of an ordered permutation of a population is one of the records the population had, and no record it had has a higher `maxScore`. |
| NeuroEvolution.RegeneratedSameMembers | src/learning/NeuroEvolution/NeuroEvolution.cpp:160-161 | A population regenerated from its ordered form is also regenerated from its form before ordering: the kept members were members before, the new ones have an empty history, and no member that left outranked a kept one. |
| NeuroEvolution.Population.constructor | src/learning/NeuroEvolution/NeuroEvolution.cpp:71-75 | A new population has `populationSize` members: distinct new objects, each with an empty score history. |
| NeuroEvolution.Population.OrderPopulation | src/learning/NeuroEvolution/NeuroEvolution.cpp:124-127 | Ordering permutes the members (same multiset, same length, same membership). Afterwards `maxScore` does not increase along the list. |
| NeuroEvolution.Population.Mutate | src/learning/NeuroEvolution/NeuroEvolution.cpp:97-100 | The size is preserved and the first `size - count` members stay in place. The last `count` are new members with an empty history. Every member afterwards was a member before or is new. |
| NeuroEvolution.NeuroEvolution.constructor | src/learning/NeuroEvolution/NeuroEvolution.cpp:53-81 | The counters start at 0, the logs and the selection are empty, and `numberOfControllers` new populations of `populationSize` members are created. The state satisfies the trainer invariant: sizes, distinct populations, no member shared between populations, counter in `[0, testsToDo]`. Within each population the members are distinct and every one has an empty score history. |
| NeuroEvolution.NeuroEvolution.SelectionDistinct | src/learning/NeuroEvolution/NeuroEvolution.cpp:171-182 | Because no member is shared between populations, the selection never holds a member twice. So `updateScores` credits each selected member exactly once. |
| NeuroEvolution.NeuroEvolution.OrderAllPopulations | src/learning/NeuroEvolution/NeuroEvolution.cpp:105-141 | `generationNumber` grows by one. Every population is ordered and permuted. The evolution log gains `generationNumber * numberOfTestsBetweenGenerations` and the record of member 0 of population 0. That record is one the population had before ordering, and none of them had a higher `maxScore`. The invariant is kept and nothing else changes. |
| NeuroEvolution.NeuroEvolution.OrderEach | src/learning/NeuroEvolution/NeuroEvolution.cpp:123-126 | Each population in turn is ordered and keeps its multiset of members. No member's record changes. The trainer's own fields and the invariant are kept. |
| NeuroEvolution.NeuroEvolution.OrderOne | src/learning/NeuroEvolution/NeuroEvolution.cpp:125 | Population `i` is ordered and keeps its multiset of members. No other population's member list changes, no member's record changes, and the invariant is kept. |
| NeuroEvolution.NeuroEvolution.LogBest | src/learning/NeuroEvolution/NeuroEvolution.cpp:127-128 | The evolution log gains the tick `generationNumber * numberOfTestsBetweenGenerations` and the record of member 0 of population 0. On ordered populations that record holds the highest `maxScore`, and it is the best of the records the population had before ordering. The populations stay ordered and nothing else changes. |
| NeuroEvolution.NeuroEvolution.LeaderLine | src/learning/NeuroEvolution/NeuroEvolution.cpp:127-128 | The line to log holds the tick and the record of the head of the ordered first population. No member of that population has a higher `maxScore`, and the record is the best of those the population had before ordering. |
| NeuroEvolution.NeuroEvolution.MutateEveryController | src/learning/NeuroEvolution/NeuroEvolution.cpp:95-101 | Every population keeps its first `populationSize - numberOfElementsToMutate` members in place. Its last `numberOfElementsToMutate` are new members with an empty history. On ordered populations no member that was replaced scored higher than a kept one. The trainer's own fields and the invariant are kept. |
| NeuroEvolution.NeuroEvolution.MutateOne | src/learning/NeuroEvolution/NeuroEvolution.cpp:99 | Population `i` keeps its first `populationSize - numberOfElementsToMutate` members and gets new members with an empty history after them. No other population's member list changes and the invariant is kept. |
| NeuroEvolution.NeuroEvolution.OrderAndMutate | src/learning/NeuroEvolution/NeuroEvolution.cpp:160-161 | `generationNumber` grows by one and the evolution log gains exactly one line: the tick and a record of population 0 before ordering that no member of it beat. In every population the kept prefix consists of former members, the rest are new members with an empty history, and no member that left outranked a kept one. |
| NeuroEvolution.NeuroEvolution.AdvanceGeneration | src/learning/NeuroEvolution/NeuroEvolution.cpp:158-169 | A generation advance has the effects of `OrderAndMutate` (one more generation, one log line with the best record of population 0, kept prefixes of former members, new members with an empty history, elitism). It also clears `scoresOfTheGeneration` and resets `currentTest` to 0 in coevolution mode and to `populationSize - numberOfElementsToMutate` otherwise. The population invariant is kept. |
| NeuroEvolution.NeuroEvolution.ClearGeneration | src/learning/NeuroEvolution/NeuroEvolution.cpp:163-168 | The generation's score log is emptied and the counter restarts at the restart value. The populations, their members and the logs are unchanged, so what the advance did to the populations still holds. |
| NeuroEvolution.NeuroEvolution.NextSetOfControllers | src/learning/NeuroEvolution/NeuroEvolution.cpp:150-187 | A generation advances exactly when `currentTest == testsToDo` on entry. The advance then has all the effects of `AdvanceGeneration` on the populations and the logs, so in sequential mode the member handed out is a new one with an empty history. Without an advance the generation number, score log, evolution log and populations are unchanged. Afterwards `currentTest` is one past the slot used. The returned and stored selection holds one member per population: the picked index in coevolution mode, the slot otherwise. The invariant `0 <= currentTest <= testsToDo` is kept. |
| NeuroEvolution.NeuroEvolution.SelectAndStep | src/learning/NeuroEvolution/NeuroEvolution.cpp:171-183 | The previous selection is replaced by one member per population, at the picked index in coevolution mode and at the current counter otherwise. The counter grows by one and the full invariant holds again. No population or member changes, so populations that were regenerated stay so. |
| NeuroEvolution.NeuroEvolution.Sample | src/learning/NeuroEvolution/NeuroEvolution.cpp:172-182 | The sampled list has one entry per population: the member at `picks[i]` in coevolution mode and at `slot` otherwise. Each entry is a member of its own population. |
| NeuroEvolution.NeuroEvolution.RecordEpisode | src/learning/NeuroEvolution/NeuroEvolution.cpp:191-195 | Returns the padded vector and the scalar score. The score vector joins the generation's log only when it has two components. The score file gains the first two padded components. |
| NeuroEvolution.NeuroEvolution.CreditSelection | src/learning/NeuroEvolution/NeuroEvolution.cpp:196-213 | Every selected member gains the score in its history and its record is updated once by `Aggregate`. The trainer's fields and the populations are unchanged, so the invariant is kept. |
| NeuroEvolution.NeuroEvolution.UpdateScores | src/learning/NeuroEvolution/NeuroEvolution.cpp:189-221 | The score log grows by `Logged`, and the score file gains one line. Every selected member gains the scalar score in its history, and its record is updated by the win/leniency rule. The counters, the selection and the populations are unchanged. Only the trainer and the selected members may change, so every unselected member is untouched. |
| PostProcess.InsertAt | scripts/PostProcess.py:79-80 | `list.insert(j, x)`: the list is one longer, `x` is at `j`, and the entries before and after `j` are shifted accordingly. |
| PostProcess.PopAt | scripts/PostProcess.py:84-85 | `list.pop(k)`: the list is one shorter. The entries before `k` stay and the ones after it move down by one. |
| PostProcess.Classify | scripts/PostProcess.py:57-68 | The ID list grows exactly when the file has an ID not yet counted and a score; it then gains that ID and the file scores its recorded value. Otherwise the list is unchanged and the file scores 0. A list without duplicates stays without. |
| PostProcess.Scan | scripts/PostProcess.py:52-68 | Every file gets one score, and the counted parameter IDs hold no duplicates. |
| PostProcess.ScanStep | scripts/PostProcess.py:52-68 | One more file extends the scan: its score is appended and the ID list becomes the one its classification returns. |
| PostProcess.ScanCountsFirstOnly | scripts/PostProcess.py:58-66 | A file with a non-zero score has an ID and a score, and its score is the recorded one. No earlier file with the same ID had a score. |
| PostProcess.ScanCounts | scripts/PostProcess.py:58-64 | A file with both an ID and a score leaves its ID among the counted ones. |
| PostProcess.InitialInv | scripts/PostProcess.py:44-50 | The initial accumulators (zero sums, zero threshold, empty lists) satisfy the loop invariant. |
| PostProcess.ScoreFile | scripts/PostProcess.py:57-68 | The file's score and the new ID list are those of the deduplication rule. `fileSum == len(paramList)` and the absence of duplicates are kept. A file that adds no ID scores 0. |
| PostProcess.RankFile | scripts/PostProcess.py:70-85 | The ranked list afterwards holds exactly the best `numScore` files, by score and then by file order, with the new file among the candidates. The lists stay parallel and within `numScore`. Listed scores are positive and at least the threshold, and the threshold never decreases. A score at or below the threshold changes nothing. A list below capacity grows by one and gains the file. A full list stays at `numScore` entries. |
| PostProcess.ProcessFile | scripts/PostProcess.py:52-88 | One iteration: deduplication as above, `scoreSum` grows by exactly the file's score, the loop invariant is kept, and the threshold never decreases. The invariant includes that the threshold stays 0 until a positive-scoring file has been dropped from the list. |
| PostProcess.ThresholdZeroIff | scripts/PostProcess.py:82-83 | Under the top-N invariant the threshold is 0 exactly when no positive-scoring file has been dropped, since only an overflow raises it. |
| PostProcess.ProcessAll | scripts/PostProcess.py:52-88 | After all files: `scoreSum` is the sum of every file's score, and `fileSum` is the number of distinct counted IDs. `topScore`/`topParam` hold the best `numScore` positive-scoring files in rank order, ties going to the earlier file. Every positive-scoring file left out is at or below the threshold and ranks behind every listed file. The threshold printed at the end is 0 exactly when every positive-scoring file is listed; otherwise it is the last listed score, `topScore[numScore-1]`. |
| PostProcess.SkipKeepsInv | scripts/PostProcess.py:70 | A file whose score is at most the threshold may be skipped: the list is still the top-N of the longer file series. |
| PostProcess.PrefixAtLeast | scripts/PostProcess.py:72-77 | When the search stops at position `j`, every entry before `j` is at least the new score. |
| PostProcess.InsertParallel | scripts/PostProcess.py:79-80 | Inserting the score and the file index at the same position keeps `topScore[k]` the score of file `topParam[k]`. |
| PostProcess.InsertRanked | scripts/PostProcess.py:71-80 | Inserting after every entry at least the score and before every entry below it keeps the list in rank order. The new file ranks behind earlier files with equal scores. |
| PostProcess.InsertComplete | scripts/PostProcess.py:70-80 | After inserting a score above the threshold, every unlisted positive file is still at most the threshold and behind every listed file. |
| PostProcess.TruncateKeepsInv | scripts/PostProcess.py:82-85 | When the list overflows, popping the entry at `numScore` and raising the threshold to the new last entry restores the top-N invariant. The threshold does not decrease. |

## Left out

- The clock-counter seeding (`rdtsc`, `srand`, `eng.seed`) is left out. `rand() % populationSize` in coevolution mode becomes the caller-supplied `picks`, each below `populationSize`.
- Reading the configuration file is left out. The six parameters are constructor arguments.
- NeuroEvolution.NeuroEvolution.constructor: requires four configuration constraints that the source does not check. Each is part of the trainer invariant, and the model does not cover a configuration that breaks one:
  - `0 < populationSize`: otherwise `rand() % populationSize` divides by zero in coevolution mode.
  - `numberOfElementsToMutate <= populationSize`: otherwise the population's `mutate` is asked for more members than it has.
  - `0 < numberOfTestsBetweenGenerations`: with 0, a coevolving trainer advances on its first call and its counter then grows past `testsToDo` forever, so no later generation comes. In sequential mode the value only scales the logged tick, which is then always 0. Both runs are defined in the source; the model leaves them out.
  - `0 < numberOfControllers`: with no population, `populations.at(0)` in `orderAllPopulations` (line 128) throws `std::out_of_range` when the first generation ends. The model does not include this exception.
- NeuroEvolution.NeuroEvolution.NextSetOfControllers: in sequential mode, a call that ends a generation requires `numberOfElementsToMutate >= 1`. With 0 the source selects index `populationSize`, out of range (see `Scheduling.NoMutationRestartsOutOfRange`).
- The log files are ghost sequences:
  - `logs/evolution*.csv` is `evolutionLog`, without the two generation averages. The averages are floating-point divisions that are NaN for an empty log.
  - `logs/scores.csv` is `scoreLog`.
  - Opening the files, and the exception thrown when the logs directory is missing, are not modelled.
- Writing the best member of every population to a `.nnw` file (`saveToFile`) is left out: it is file output only.
- `diffclock`, the destructor and the console output are left out.
- The internals of `NeuroEvoPopulation` and `NeuroEvoMember` (network weights, sorting, mutation, `getMember`) are not part of this model. `Population.OrderPopulation` and `Population.Mutate` have stand-in bodies, and their contracts are assumptions about that unseen code: ordering permutes the members by non-increasing `maxScore`; mutation keeps the first members and replaces the last `count`. The trainer itself relies only on two of these facts: the mutated members are the last ones (line 168), and member 0 is the best after ordering (line 128). The weights themselves are not modelled.
- NeuroEvolution.Population.Mutate: the mutated members are modelled as new objects with an empty history. The real `NeuroEvoPopulation::mutate` may instead update the existing member objects in place and keep them alive. The model therefore does not capture the aliasing seen by a caller that holds a pointer to a mutated member across a generation advance. Such a caller would see the same object with new weights, not a different object. The clauses that follow from this assumption are the `fresh` and empty-history ones on `Population.Mutate`, `MutateOne`, `MutateEveryController`, `OrderAndMutate`, `AdvanceGeneration` and `NextSetOfControllers`, and the empty-history part of the `Regenerated` predicate.
- NeuroEvolution.Member.constructor: the initial record of a new member comes from `NeuroEvoMember`, which is not part of this model. The stand-in body starts it at zero, and no contract states or depends on its value; only the empty history is promised.
- Scores are `real`. IEEE double rounding, infinities and NaN are not modelled.
- `updateScores` requires a non-empty score vector, because the source reads `multiscore[1]` after padding, which is out of range for an empty vector.
- PostProcess.ProcessAll: requires `numScore >= 1`. Python's behaviour with a zero or negative `numScore` (negative-index `pop`) is not modelled.
- Reading the results files, the `argv` handling, `topObj`, the final printing and the division `scoreSum / fileSum` are left out. Each file arrives as the result of its two lookups. A `float()` conversion error (a non-numeric `maxScore`) is not modelled.
- The other files of the repository (robot models, application entry points) are not part of this model.
