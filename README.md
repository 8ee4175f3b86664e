# Reference diploid exact allele-frequency calculator, and Sample

This project models two pieces of GATK (the Genome Analysis Toolkit) in Dafny and proves properties of them.

**The reference diploid exact calculator.** `ReferenceDiploidExactAFCalculator` computes the likelihood of every allele-count conformation of a diploid site. A conformation is a vector giving the number of chromosomes carrying each alternate allele.

- The calculator keeps a FIFO queue of conformations and a map from conformation to `ExactACset`. An `ExactACset` holds a column of log-likelihoods, one per sample-prefix length.
- It pops a conformation and finishes its column (`computeLofK`). Then it reports to the state tracker and asks whether to abort this branch.
- If it does not abort, it pushes its column into every conformation reachable by one more sample genotype (`updateACset` / `pushData`). The +1 successors come first, then the +2 successors of different alleles, then those of equal alleles.
- A successor is queued and created on first sight.

**Sample.** `Sample` is an immutable record of a sample under study: its ID, family, parents, sex and affection status. It has Java equality, hashing and ordering, and it merges two descriptions of the same sample field by field.

**Modules:**

- `GenotypeIndex`: the diploid PL index `PLIndex(i, j) = j(j+1)/2 + i` and its inverse `AllelePair`. These are the order of genotype likelihoods.
- `Conformations`: count vectors, and the successor lists (`DependentSet` values) exactly as the loops at lines 86-113 build them.
- `SuccessorLaws`: what each successor means, which genotype feeds it, coverage, distinctness and order.
- `Worklist`: the queue discipline on values. It proves well-formed vectors, no duplicates in the queue and termination in general; when no branch is pruned, it also proves no conformation processed twice, processing by non-decreasing total count, completeness, and every predecessor processed before its successor.
- `ExactModel`: the numbers as functions.
  - `Pushed` is pushData, `LofK` is the column computeLofK produces, `PushOne` is updateACset on the cache's cells, and `PushAll` is a sequence of them.
  - The log table, `approximateLogSumLog` and the initial cell value are parameters (`Numerics`).
- `Execution`: the whole loop as a pure function `Run`, and the guarantees of a run.
- `ExactCalculator`: the imperative calculator.
  - `ExactACset` is a class with an `array<real>`, updated in place.
  - The queue is a `seq<ExactACset>`; the cache is a `map<seq<int>, ExactACset>`.
  - The state tracker is a class recording the calls it receives.
  - Every method is proved to compute what `Execution` says.
- `Samples`: the Sample record and its operations. Java `null` becomes `Option.None`; a thrown exception becomes a `Result` failure.

## Model

| member | source | states |
|---|---|---|
| GenotypeIndex.PLIndexFormula | src/main/java/org/broadinstitute/hellbender/tools/walkers/genotyper/afcalc/ReferenceDiploidExactAFCalculator.java:90 | the PL index of genotype (i, j), i <= j, is j(j+1)/2 + i, as calculatePLindex(0, allele+1) and calculatePLindex(i+1, j+1) use it |
| GenotypeIndex.PLIndexInjective | src/main/java/org/broadinstitute/hellbender/tools/walkers/genotyper/afcalc/ReferenceDiploidExactAFCalculator.java:106 | distinct ordered allele pairs have distinct PL indices |
| GenotypeIndex.AllelePairOfPLIndex | src/main/java/org/broadinstitute/hellbender/tools/walkers/genotyper/afcalc/ReferenceDiploidExactAFCalculator.java:232 | getAllelePair inverts the PL index: the pair of PLIndex(i, j) is (i, j) |
| GenotypeIndex.PLIndexOfAllelePair | src/main/java/org/broadinstitute/hellbender/tools/walkers/genotyper/afcalc/ReferenceDiploidExactAFCalculator.java:232 | every index is the PL index of the ordered pair getAllelePair returns |
| GenotypeIndex.GenotypeCount | src/main/java/org/broadinstitute/hellbender/tools/walkers/genotyper/afcalc/ReferenceDiploidExactAFCalculator.java:216 | every genotype over the alleles has a PL index below the per-sample likelihood count, so gl[PLsetIndex] is in range |
| Conformations.SumInc | src/main/java/org/broadinstitute/hellbender/tools/walkers/genotyper/afcalc/ReferenceDiploidExactAFCalculator.java:87-88 | incrementing one allele count raises the total count by one |
| Conformations.SuccessorsParts | src/main/java/org/broadinstitute/hellbender/tools/walkers/genotyper/afcalc/ReferenceDiploidExactAFCalculator.java:78-121 | with a wiggle of 0 nothing is generated; with a wiggle over 1 the successors are the +1 list, then the different-allele list, then the same-allele list; otherwise only the +1 list |
| Conformations.DiffPairsMembers | src/main/java/org/broadinstitute/hellbender/tools/walkers/genotyper/afcalc/ReferenceDiploidExactAFCalculator.java:99-110 | the different-allele pairs enumerated are exactly the pairs i < j of alternate alleles |
| Conformations.DiffPairsIncreasing | src/main/java/org/broadinstitute/hellbender/tools/walkers/genotyper/afcalc/ReferenceDiploidExactAFCalculator.java:99-110 | the different-allele pairs come in lexicographic order of the nested loops |
| SuccessorLaws.IncIsAddGenotype | src/main/java/org/broadinstitute/hellbender/tools/walkers/genotyper/afcalc/ReferenceDiploidExactAFCalculator.java:86-90 | the +1 successor of allele a is the conformation plus the ref/alt genotype (0, a+1) |
| SuccessorLaws.IncIncIsAddGenotype | src/main/java/org/broadinstitute/hellbender/tools/walkers/genotyper/afcalc/ReferenceDiploidExactAFCalculator.java:101-106 | the +2 successor of alleles i <= j is the conformation plus the genotype (i+1, j+1) |
| SuccessorLaws.SumAddGenotype | src/main/java/org/broadinstitute/hellbender/tools/walkers/genotyper/afcalc/ReferenceDiploidExactAFCalculator.java:86-106 | adding a ref/alt genotype raises the total by 1, adding a two-alternate genotype by 2 |
| SuccessorLaws.AddGenotypeWellFormed | src/main/java/org/broadinstitute/hellbender/tools/walkers/genotyper/afcalc/ReferenceDiploidExactAFCalculator.java:78-95 | a successor within the wiggle is again a well-formed conformation |
| SuccessorLaws.AddGenotypeInjective | src/main/java/org/broadinstitute/hellbender/tools/walkers/genotyper/afcalc/ReferenceDiploidExactAFCalculator.java:86-113 | different genotypes added to the same conformation give different conformations |
| SuccessorLaws.SuccessorAt | src/main/java/org/broadinstitute/hellbender/tools/walkers/genotyper/afcalc/ReferenceDiploidExactAFCalculator.java:86-113 | the k-th successor is, by position, fed by the k-th ref/alt genotype, the k-th different-allele pair or the k-th homozygous alternate, and equals the generator plus that genotype |
| SuccessorLaws.SuccessorsMeaning | src/main/java/org/broadinstitute/hellbender/tools/walkers/genotyper/afcalc/ReferenceDiploidExactAFCalculator.java:86-113 | every successor equals its generator plus the genotype its PL index names; a +2 genotype only occurs with a wiggle over 1 |
| SuccessorLaws.SuccessorsCover | src/main/java/org/broadinstitute/hellbender/tools/walkers/genotyper/afcalc/ReferenceDiploidExactAFCalculator.java:86-113 | every non-reference genotype (every ref/alt one, and every two-alternate one when the wiggle exceeds 1) feeds some successor |
| SuccessorLaws.SuccessorsLength | src/main/java/org/broadinstitute/hellbender/tools/walkers/genotyper/afcalc/ReferenceDiploidExactAFCalculator.java:79-113 | there are 0 successors at wiggle 0, numAlt at wiggle 1 and 2 numAlt + numAlt(numAlt-1)/2 above |
| SuccessorLaws.SuccessorsDistinct | src/main/java/org/broadinstitute/hellbender/tools/walkers/genotyper/afcalc/ReferenceDiploidExactAFCalculator.java:86-113 | no two successors of a conformation share a PL index or a conformation |
| SuccessorLaws.SuccessorsOrdered | src/main/java/org/broadinstitute/hellbender/tools/walkers/genotyper/afcalc/ReferenceDiploidExactAFCalculator.java:115-121 | successors are handed on ref/alt first, then different alternates, then equal alternates |
| Worklist.EnqueueAllShape | src/main/java/org/broadinstitute/hellbender/tools/walkers/genotyper/afcalc/ReferenceDiploidExactAFCalculator.java:195-200 | handing targets to the cache only appends, in order, each target not already queued and not the current conformation; every other target ends up queued |
| Worklist.EnqueueAllDistinct | src/main/java/org/broadinstitute/hellbender/tools/walkers/genotyper/afcalc/ReferenceDiploidExactAFCalculator.java:195-200 | the queue stays free of duplicates and never re-queues the conformation being processed |
| Worklist.EnqueueAllAppend | src/main/java/org/broadinstitute/hellbender/tools/walkers/genotyper/afcalc/ReferenceDiploidExactAFCalculator.java:115-121 | handing on a + b is handing on a, then b |
| Worklist.EnqueueAllSorted | src/main/java/org/broadinstitute/hellbender/tools/walkers/genotyper/afcalc/ReferenceDiploidExactAFCalculator.java:115-121 | targets given in non-decreasing total order are appended in that order |
| Worklist.SuccessorTargets | src/main/java/org/broadinstitute/hellbender/tools/walkers/genotyper/afcalc/ReferenceDiploidExactAFCalculator.java:78-113 | successors are well formed, their total is 1 or 2 above the generator's and at most numChr, and there are at most MaxSuccessors of them |
| Worklist.InitialInv | src/main/java/org/broadinstitute/hellbender/tools/walkers/genotyper/afcalc/ReferenceDiploidExactAFCalculator.java:38-42 | the initial queue, holding only the zero conformation, satisfies the queue invariant |
| Worklist.StepInv | src/main/java/org/broadinstitute/hellbender/tools/walkers/genotyper/afcalc/ReferenceDiploidExactAFCalculator.java:44-53 | one iteration, pruned or not, keeps the queue well formed and duplicate-free |
| Worklist.StepDecreases | src/main/java/org/broadinstitute/hellbender/tools/walkers/genotyper/afcalc/ReferenceDiploidExactAFCalculator.java:44-53 | one iteration strictly decreases a potential, so the loop terminates |
| Worklist.PredecessorByOne | src/main/java/org/broadinstitute/hellbender/tools/walkers/genotyper/afcalc/ReferenceDiploidExactAFCalculator.java:86-92 | every non-zero conformation is a +1 successor of some conformation one lower |
| Worklist.PredecessorByTwo | src/main/java/org/broadinstitute/hellbender/tools/walkers/genotyper/afcalc/ReferenceDiploidExactAFCalculator.java:95-113 | every conformation of total at least 2 is a successor of one two lower |
| Worklist.StepQueueOrdered | src/main/java/org/broadinstitute/hellbender/tools/walkers/genotyper/afcalc/ReferenceDiploidExactAFCalculator.java:115-121 | without pruning, the queue stays sorted by total count, spanning at most 2 |
| Worklist.StepNoPrune | src/main/java/org/broadinstitute/hellbender/tools/walkers/genotyper/afcalc/ReferenceDiploidExactAFCalculator.java:44-53 | without pruning, an iteration keeps the full no-prune invariant, and the popped conformation was never processed and all its predecessors were |
| Worklist.StepHistory | src/main/java/org/broadinstitute/hellbender/tools/walkers/genotyper/afcalc/ReferenceDiploidExactAFCalculator.java:44-53 | without pruning, processed conformations stay well formed, distinct and sorted by total, and include the zero conformation |
| Worklist.StepClosure | src/main/java/org/broadinstitute/hellbender/tools/walkers/genotyper/afcalc/ReferenceDiploidExactAFCalculator.java:44-53 | without pruning, every successor of a processed conformation is queued or processed |
| Worklist.StepPredecessorsFirst | src/main/java/org/broadinstitute/hellbender/tools/walkers/genotyper/afcalc/ReferenceDiploidExactAFCalculator.java:44-53 | without pruning, every processed conformation is processed after all its predecessors, so it received all its pushes before its own turn |
| Worklist.HeadAfterPredecessors | src/main/java/org/broadinstitute/hellbender/tools/walkers/genotyper/afcalc/ReferenceDiploidExactAFCalculator.java:47 | without pruning, every predecessor of the conformation at the head of the queue has been processed |
| Worklist.AllProcessed | src/main/java/org/broadinstitute/hellbender/tools/walkers/genotyper/afcalc/ReferenceDiploidExactAFCalculator.java:44 | when the queue empties without pruning, every well-formed conformation has been processed |
| ExactModel.Fill | src/main/java/org/broadinstitute/hellbender/tools/walkers/genotyper/afcalc/ReferenceDiploidExactAFCalculator.java:197 | a new conformation's cells all hold the same initial value |
| ExactModel.PushedFrame | src/main/java/org/broadinstitute/hellbender/tools/walkers/genotyper/afcalc/ReferenceDiploidExactAFCalculator.java:210-219 | pushData leaves cell 0, and every cell j with 2j below the target's total, unchanged |
| ExactModel.PushesCommute | src/main/java/org/broadinstitute/hellbender/tools/walkers/genotyper/afcalc/ReferenceDiploidExactAFCalculator.java:206-220 | two pushes into one target commute when the log-sum is commutative and associative |
| ExactModel.PushOne | src/main/java/org/broadinstitute/hellbender/tools/walkers/genotyper/afcalc/ReferenceDiploidExactAFCalculator.java:188-204 | updateACset changes only the target's cells, creating them if absent |
| ExactModel.PushAll | src/main/java/org/broadinstitute/hellbender/tools/walkers/genotyper/afcalc/ReferenceDiploidExactAFCalculator.java:116-121 | a sequence of pushes touches exactly the targets and keeps every other conformation's cells |
| ExactModel.PushAllAppend | src/main/java/org/broadinstitute/hellbender/tools/walkers/genotyper/afcalc/ReferenceDiploidExactAFCalculator.java:115-121 | pushing a + b is pushing a then b |
| ExactModel.PushAllOnce | src/main/java/org/broadinstitute/hellbender/tools/walkers/genotyper/afcalc/ReferenceDiploidExactAFCalculator.java:116-121 | a target that occurs once receives exactly the one push addressed to it |
| ExactModel.LofKCell | src/main/java/org/broadinstitute/hellbender/tools/walkers/genotyper/afcalc/ReferenceDiploidExactAFCalculator.java:135-158 | cell j of the completed column is the recurrence of computeLofK applied to cell j-1 |
| ExactModel.LofKZeroIsHomRefSum | src/main/java/org/broadinstitute/hellbender/tools/walkers/genotyper/afcalc/ReferenceDiploidExactAFCalculator.java:135-138 | for the zero conformation, cell j is the sum of the first j samples' homozygous-reference likelihoods |
| ExactModel.LofKNonZeroCell | src/main/java/org/broadinstitute/hellbender/tools/walkers/genotyper/afcalc/ReferenceDiploidExactAFCalculator.java:149-158 | for a non-zero conformation, the homozygous-reference term enters cell j exactly when K < 2j - 1, and the cell is then renormalised by log(2j) + log(2j-1) |
| ExactModel.PriorSumPerAllele | src/main/java/org/broadinstitute/hellbender/tools/walkers/genotyper/afcalc/ReferenceDiploidExactAFCalculator.java:166-170 | each allele contributes exactly priors[count] when its count is positive and nothing when it is 0: the prior sum is the sum with that allele's count zeroed, plus its own prior |
| ExactModel.PriorSumPermutation | src/main/java/org/broadinstitute/hellbender/tools/walkers/genotyper/afcalc/ReferenceDiploidExactAFCalculator.java:166-170 | the prior sum depends only on the multiset of allele counts, not on the order of the alleles |
| Execution.Start | src/main/java/org/broadinstitute/hellbender/tools/walkers/genotyper/afcalc/ReferenceDiploidExactAFCalculator.java:38-42 | the loop starts with only the zero conformation queued and cached |
| Execution.SuccessorsFit | src/main/java/org/broadinstitute/hellbender/tools/walkers/genotyper/afcalc/ReferenceDiploidExactAFCalculator.java:222-253 | every push names a genotype whose alleles are present in the target, so every logOf argument in determineCoefficient is a non-negative count |
| Execution.ValidInputPriors | src/main/java/org/broadinstitute/hellbender/tools/walkers/genotyper/afcalc/ReferenceDiploidExactAFCalculator.java:168 | every allele count of a conformation indexes the priors |
| Execution.Expand | src/main/java/org/broadinstitute/hellbender/tools/walkers/genotyper/afcalc/ReferenceDiploidExactAFCalculator.java:59-125 | processing a conformation only extends the tracker's calls, keeps it cached and replaces its cells by the completed column |
| Execution.ExpandShape | src/main/java/org/broadinstitute/hellbender/tools/walkers/genotyper/afcalc/ReferenceDiploidExactAFCalculator.java:72-122 | what processing queues is the targets it generates, and it caches nothing else |
| Execution.ExecStep | src/main/java/org/broadinstitute/hellbender/tools/walkers/genotyper/afcalc/ReferenceDiploidExactAFCalculator.java:44-53 | one iteration is the abstract worklist step, appends the popped conformation to the processed list and keeps the loop invariant |
| Execution.ExecStepGood | src/main/java/org/broadinstitute/hellbender/tools/walkers/genotyper/afcalc/ReferenceDiploidExactAFCalculator.java:44-53 | one iteration keeps the cache's keys equal to the queue and the invariant |
| Execution.Run | src/main/java/org/broadinstitute/hellbender/tools/walkers/genotyper/afcalc/ReferenceDiploidExactAFCalculator.java:44-53 | the loop ends with an empty queue and an empty cache |
| Execution.RunExtends | src/main/java/org/broadinstitute/hellbender/tools/walkers/genotyper/afcalc/ReferenceDiploidExactAFCalculator.java:44-53 | the run only extends the tracker's calls and the processed list |
| Execution.RunNoPrune | src/main/java/org/broadinstitute/hellbender/tools/walkers/genotyper/afcalc/ReferenceDiploidExactAFCalculator.java:44-53 | without pruning, the run keeps the no-prune invariant and the predecessors-first order |
| Execution.RunStartsWithZero | src/main/java/org/broadinstitute/hellbender/tools/walkers/genotyper/afcalc/ReferenceDiploidExactAFCalculator.java:135-143 | the zero conformation is processed first and reports its likelihood and its posterior with prior 0 to the tracker |
| Execution.RunComplete | src/main/java/org/broadinstitute/hellbender/tools/walkers/genotyper/afcalc/ReferenceDiploidExactAFCalculator.java:21-56 | without pruning, every well-formed conformation is processed exactly once, in non-decreasing total order, after all its predecessors |
| ExactCalculator.ExactACset.constructor | src/main/java/org/broadinstitute/hellbender/tools/walkers/genotyper/afcalc/ReferenceDiploidExactAFCalculator.java:40 | a new conformation has the given counts and a fresh column of the given size holding the initial value |
| ExactCalculator.StateTracker.constructor | src/main/java/org/broadinstitute/hellbender/tools/walkers/genotyper/afcalc/ReferenceDiploidExactAFCalculator.java:21-22 | a tracker starts with no recorded calls and a fixed abort policy |
| ExactCalculator.StateTracker.SetLogLikelihoodOfAFzero | src/main/java/org/broadinstitute/hellbender/tools/walkers/genotyper/afcalc/ReferenceDiploidExactAFCalculator.java:141 | the call is recorded |
| ExactCalculator.StateTracker.SetLogPosteriorOfAFzero | src/main/java/org/broadinstitute/hellbender/tools/walkers/genotyper/afcalc/ReferenceDiploidExactAFCalculator.java:142 | the call is recorded |
| ExactCalculator.StateTracker.UpdateMLEifNeeded | src/main/java/org/broadinstitute/hellbender/tools/walkers/genotyper/afcalc/ReferenceDiploidExactAFCalculator.java:163 | the call is recorded |
| ExactCalculator.StateTracker.UpdateMAPifNeeded | src/main/java/org/broadinstitute/hellbender/tools/walkers/genotyper/afcalc/ReferenceDiploidExactAFCalculator.java:172 | the call is recorded |
| ExactCalculator.StateTracker.Abort | src/main/java/org/broadinstitute/hellbender/tools/walkers/genotyper/afcalc/ReferenceDiploidExactAFCalculator.java:73 | the answer is the policy applied to the calls seen so far |
| ExactCalculator.ComputeLofK | src/main/java/org/broadinstitute/hellbender/tools/walkers/genotyper/afcalc/ReferenceDiploidExactAFCalculator.java:127-173 | the column becomes LofK of its old contents, and the tracker receives the zero-case or the MLE/MAP calls with the values LofKEvents states |
| ExactCalculator.FillColumn | src/main/java/org/broadinstitute/hellbender/tools/walkers/genotyper/afcalc/ReferenceDiploidExactAFCalculator.java:131-158 | the in-place loops compute LofK |
| ExactCalculator.AddPriors | src/main/java/org/broadinstitute/hellbender/tools/walkers/genotyper/afcalc/ReferenceDiploidExactAFCalculator.java:165-170 | the result adds the prior of every positive allele count |
| ExactCalculator.PushData | src/main/java/org/broadinstitute/hellbender/tools/walkers/genotyper/afcalc/ReferenceDiploidExactAFCalculator.java:206-220 | the target's column becomes Pushed of its old contents; the dependent is read only |
| ExactCalculator.CachedSet | src/main/java/org/broadinstitute/hellbender/tools/walkers/genotyper/afcalc/ReferenceDiploidExactAFCalculator.java:195-200 | a target not cached is created, cached and queued; a cached one is reused |
| ExactCalculator.PushInto | src/main/java/org/broadinstitute/hellbender/tools/walkers/genotyper/afcalc/ReferenceDiploidExactAFCalculator.java:203 | only the target's cells change, to the pushed values |
| ExactCalculator.UpdateACset | src/main/java/org/broadinstitute/hellbender/tools/walkers/genotyper/afcalc/ReferenceDiploidExactAFCalculator.java:188-204 | the queue is EnqueueAll of one target and the cells are PushOne |
| ExactCalculator.UpdateDependent | src/main/java/org/broadinstitute/hellbender/tools/walkers/genotyper/afcalc/ReferenceDiploidExactAFCalculator.java:116-121 | one loop iteration extends the prefix of pushes already done |
| ExactCalculator.UpdateEach | src/main/java/org/broadinstitute/hellbender/tools/walkers/genotyper/afcalc/ReferenceDiploidExactAFCalculator.java:116-121 | a loop over a dependent list queues its targets and applies its pushes in order |
| ExactCalculator.PlusTwoLists | src/main/java/org/broadinstitute/hellbender/tools/walkers/genotyper/afcalc/ReferenceDiploidExactAFCalculator.java:96-113 | the nested loops build exactly the different-allele and same-allele lists |
| ExactCalculator.UpdatePlusOne | src/main/java/org/broadinstitute/hellbender/tools/walkers/genotyper/afcalc/ReferenceDiploidExactAFCalculator.java:86-92 | the +1 loop queues and pushes into exactly the +1 successors |
| ExactCalculator.UpdatePlusTwo | src/main/java/org/broadinstitute/hellbender/tools/walkers/genotyper/afcalc/ReferenceDiploidExactAFCalculator.java:95-122 | the +2 block pushes the different-allele successors, then the same-allele ones |
| ExactCalculator.UpdateSuccessors | src/main/java/org/broadinstitute/hellbender/tools/walkers/genotyper/afcalc/ReferenceDiploidExactAFCalculator.java:83-122 | all successor pushes together are PushAll of Successors |
| ExactCalculator.HandOn | src/main/java/org/broadinstitute/hellbender/tools/walkers/genotyper/afcalc/ReferenceDiploidExactAFCalculator.java:72-122 | an aborted or saturated conformation hands on nothing; otherwise all its successors |
| ExactCalculator.CompleteCells | src/main/java/org/broadinstitute/hellbender/tools/walkers/genotyper/afcalc/ReferenceDiploidExactAFCalculator.java:68 | the processed conformation's column becomes Completed; nothing else changes |
| ExactCalculator.CalculateAlleleCountConformation | src/main/java/org/broadinstitute/hellbender/tools/walkers/genotyper/afcalc/ReferenceDiploidExactAFCalculator.java:59-125 | the queue, cells and tracker calls afterwards are those of Expand; the result is the last cell of the completed column |
| ExactCalculator.Pop | src/main/java/org/broadinstitute/hellbender/tools/walkers/genotyper/afcalc/ReferenceDiploidExactAFCalculator.java:47 | the popped conformation is well formed and still cached |
| ExactCalculator.CachedRemove | src/main/java/org/broadinstitute/hellbender/tools/walkers/genotyper/afcalc/ReferenceDiploidExactAFCalculator.java:52 | removing the processed conformation leaves the cache's keys equal to the queue |
| ExactCalculator.ProcessNext | src/main/java/org/broadinstitute/hellbender/tools/walkers/genotyper/afcalc/ReferenceDiploidExactAFCalculator.java:46-52 | one iteration of the imperative loop mirrors ExecStep |
| ExactCalculator.Initialize | src/main/java/org/broadinstitute/hellbender/tools/walkers/genotyper/afcalc/ReferenceDiploidExactAFCalculator.java:33-42 | the imperative queue and cache start as Start |
| ExactCalculator.Drain | src/main/java/org/broadinstitute/hellbender/tools/walkers/genotyper/afcalc/ReferenceDiploidExactAFCalculator.java:44-53 | the imperative loop ends with the tracker calls and processing order of Run |
| ExactCalculator.ComputeLogPNonRef | src/main/java/org/broadinstitute/hellbender/tools/walkers/genotyper/afcalc/ReferenceDiploidExactAFCalculator.java:21-53 | the tracker receives exactly the calls of Run from Start, and conformations are processed in its order |
| Samples.NewSample | src/main/java/org/broadinstitute/hellbender/utils/samples/Sample.java:17-31 | a sample is built iff ID and sex are non-null, with the error "ID is null" or "sex is null" otherwise, and the fields copied |
| Samples.NewSampleOfUnknownAffection | src/main/java/org/broadinstitute/hellbender/utils/samples/Sample.java:33-39 | the short constructor gives affection UNKNOWN and fails as the long one does |
| Samples.EqualOrNull | src/main/java/org/broadinstitute/hellbender/utils/samples/Sample.java:134-141 | two nullable values are equal-or-null iff both are null or both are equal |
| Samples.Equals | src/main/java/org/broadinstitute/hellbender/utils/samples/Sample.java:80-95 | a sample equals only a non-null Sample with equal ID and equal-or-null other fields |
| Samples.EqualsIsEquivalence | src/main/java/org/broadinstitute/hellbender/utils/samples/Sample.java:80-95 | equals is reflexive, symmetric and transitive |
| Samples.StringHashIsPolynomial | src/main/java/org/broadinstitute/hellbender/utils/samples/Sample.java:75-78 | String.hashCode with 32-bit wrap-around equals the documented polynomial reduced to 32 bits |
| Samples.HashCode | src/main/java/org/broadinstitute/hellbender/utils/samples/Sample.java:75-78 | the hash is a 32-bit value, determined by the ID alone |
| Samples.EqualsHashCode | src/main/java/org/broadinstitute/hellbender/utils/samples/Sample.java:75-95 | equal samples have equal hash codes |
| Samples.CompareStringsZero | src/main/java/org/broadinstitute/hellbender/utils/samples/Sample.java:70-73 | String.compareTo is 0 exactly on equal strings |
| Samples.CompareStringsAntisymmetric | src/main/java/org/broadinstitute/hellbender/utils/samples/Sample.java:70-73 | String.compareTo is antisymmetric |
| Samples.CompareStringsTransitive | src/main/java/org/broadinstitute/hellbender/utils/samples/Sample.java:70-73 | String.compareTo's order is transitive |
| Samples.CompareTo | src/main/java/org/broadinstitute/hellbender/utils/samples/Sample.java:70-73 | samples compare as their IDs; 0 iff the IDs are equal; antisymmetric |
| Samples.CompareToCoarserThanEquals | src/main/java/org/broadinstitute/hellbender/utils/samples/Sample.java:70-95 | any two different samples with the same ID compare as 0 yet are not equal |
| Samples.EqualsCompareTo | src/main/java/org/broadinstitute/hellbender/utils/samples/Sample.java:70-95 | equal samples compare as 0 |
| Samples.MergeValues | src/main/java/org/broadinstitute/hellbender/utils/samples/Sample.java:111-132 | merging fails iff both values are non-empty and differ, with the name and field in the error; otherwise it keeps the non-empty value, and takes o2 when o1 is empty |
| Samples.MergeValuesIdempotent | src/main/java/org/broadinstitute/hellbender/utils/samples/Sample.java:111-132 | merging a value with itself gives it back |
| Samples.MergeValuesSymmetric | src/main/java/org/broadinstitute/hellbender/utils/samples/Sample.java:111-132 | the merge does not depend on argument order unless both are empty |
| Samples.MergeValuesAbsorbs | src/main/java/org/broadinstitute/hellbender/utils/samples/Sample.java:111-132 | merging the result with the second input again gives the result |
| Samples.MergeSamples | src/main/java/org/broadinstitute/hellbender/utils/samples/Sample.java:97-109 | an equal sample merges to the new one; the merge fails iff some field conflicts, naming the sample and the first conflicting field; otherwise it keeps the ID, and each field keeps every non-empty value and takes the new sample's value when this sample's is empty |
| Samples.MergeEqualSucceeds | src/main/java/org/broadinstitute/hellbender/utils/samples/Sample.java:97-99 | merging equal samples never fails |
| Samples.MergeSamplesAbsorbs | src/main/java/org/broadinstitute/hellbender/utils/samples/Sample.java:97-109 | merging the merged sample with the new one again gives the merged sample |

## Left out

- Input lengths: every likelihood row is taken to have an entry for every genotype, and the priors an entry for every allele count up to numChr (ValidInput). The callers that build them guarantee this; on shorter input the source would fail part-way with an index exception, which is not modelled.
- Numerics: `MathUtils.LogCache` and `approximateLogSumLog` are parameters of type `Numerics`, and values are reals. Floating-point rounding and the lookup table are not modelled. PushesCommute needs an exact, associative log-sum, which the approximate one is not.
- The initial contents of a new ExactACset's column are the parameter `unset`. ExactACset.java is not part of this model.
- The state tracker: StateTracker.java is not part of this model.
  - It is a recorder of the calls computeLofK makes, with the abort decision a function of those calls, the last cell and the conformation.
  - The MLE/MAP bookkeeping, and the aborted flag it returns, are not modelled.
- `getGLs` and `getResultFromFinalState` are not part of this model. The genotype likelihoods are the input `gls`, entry 0 a placeholder; the method's result is the tracker's recorded calls.
- The null checks on vc, the priors and the tracker (lines 23-25) are not modelled: the Dafny arguments cannot be null.
- ExactModel.DetermineCoefficient: it has no ensures of its own. Its precondition (the genotype's alleles are present) holds for every push by Execution.SuccessorsFit, so every LogCache argument is a non-negative count.
- The loops of calculateAlleleCountConformation are split into helper methods (UpdatePlusOne, PlusTwoLists, UpdateEach, UpdatePlusTwo, HandOn). Each is a loop or block of the source with its own contract.
- Java's Deque and HashMap are a sequence and a map. Object identity of ExactACcounts keys is value equality of the count vector.
- Pruning: once a branch is pruned, a descendant may later be reached and created again through another path. The model allows this. Termination is proved by a potential, not by distinctness of all processed conformations. Once a branch is pruned, neither the processing order by total count nor complete pushes are guaranteed, in the model as in the source: with two alternate alleles, eight chromosomes and only [1,0] pruned, [3,1] is processed before its predecessor [3,0] and never receives that push.
- Integer overflow: counts, indices and chromosome numbers are unbounded integers. The source's `int` arithmetic never approaches 2^31 for realistic sample counts.
- Sex.java and Affection.java are not part of this model. Their values are taken as MALE, FEMALE, UNKNOWN and AFFECTED, UNAFFECTED, UNKNOWN, OTHER.
- Samples.StringHash, Samples.CompareStrings: a `char` stands for one UTF-16 code unit. Unicode beyond the basic plane is not modelled.
- Samples.MergeValues: the source's `o1 == o2` reference comparison, for non-String values, is taken as value equality. This holds for the enum fields it is used on. The error carries the sample name and the field, not the two values of the message.
- `toString` and the getters of Sample are left out; they only read fields.
