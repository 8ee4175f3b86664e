/** The reference diploid exact allele-frequency calculator: the worklist
    loop over allele-count conformations, with each conformation's cells held
    in an array that is updated in place. */
module ExactCalculator {
  import opened GenotypeIndex
  import opened Conformations
  import opened SuccessorLaws
  import opened Worklist
  import opened ExactModel
  import opened Execution

  /** One conformation: its allele counts, fixed at creation, and its
      log-likelihood for every sample-prefix length 0..numSamples. */
  class ExactACset {
    const counts: seq<int>
    const ll: array<real>

    constructor (size: nat, counts: seq<int>, unset: real)
      ensures this.counts == counts && fresh(ll) && ll.Length == size
      ensures ll[..] == Fill(size, unset)
    {
      this.counts := counts;
      ll := new real[size](_ => unset);
    }
  }

  /** The best-so-far tracker.  Its policy is not part of this model: it is
      represented by the calls it receives, and its abort decision is a
      fixed function of those calls and of the branch being asked about. */
  class StateTracker {
    var events: seq<TrackerEvent>
    const abortPolicy: (seq<TrackerEvent>, real, seq<int>) -> bool

    constructor (abortPolicy: (seq<TrackerEvent>, real, seq<int>) -> bool)
      ensures events == [] && this.abortPolicy == abortPolicy
    {
      events := [];
      this.abortPolicy := abortPolicy;
    }

    method SetLogLikelihoodOfAFzero(x: real)
      modifies this
      ensures events == old(events) + [LikelihoodOfAFzero(x)]
    {
      events := events + [LikelihoodOfAFzero(x)];
    }

    method SetLogPosteriorOfAFzero(x: real)
      modifies this
      ensures events == old(events) + [PosteriorOfAFzero(x)]
    {
      events := events + [PosteriorOfAFzero(x)];
    }

    method UpdateMLEifNeeded(x: real, counts: seq<int>)
      modifies this
      ensures events == old(events) + [MLECandidate(x, counts)]
    {
      events := events + [MLECandidate(x, counts)];
    }

    method UpdateMAPifNeeded(x: real, counts: seq<int>)
      modifies this
      ensures events == old(events) + [MAPCandidate(x, counts)]
    {
      events := events + [MAPCandidate(x, counts)];
    }

    /** Whether the branch whose likelihood is x can be abandoned. */
    method Abort(x: real, counts: seq<int>) returns (b: bool)
      ensures b == abortPolicy(events, x, counts)
    {
      b := abortPolicy(events, x, counts);
    }
  }

  /** Fills the cells of a popped conformation: cell 0 is 0; the zero
      vector accumulates homozygous-reference likelihoods and records the
      AF=0 likelihood and posterior; any other vector completes each pushed
      cell with the homozygous-reference case where there is room,
      renormalises it, offers its likelihood to the MLE, then adds the priors
      of its present alleles and offers the result to the MAP. */
  method ComputeLofK(acSet: ExactACset, gls: seq<seq<real>>, priors: seq<real>, num: Numerics,
                     tracker: StateTracker)
    requires ValidGLs(gls, |acSet.counts|) && acSet.ll.Length == |gls|
    requires forall k :: 0 <= k < |acSet.counts| ==> 0 <= acSet.counts[k] < |priors|
    requires |priors| >= 1
    modifies acSet.ll, tracker
    ensures acSet.ll[..] == LofK(num, gls, Sum(acSet.counts), old(acSet.ll[..]))
    ensures tracker.events == old(tracker.events) + LofKEvents(acSet.ll[..], acSet.counts, priors)
  {
    var totalK := Sum(acSet.counts);
    FillColumn(acSet.ll, gls, totalK, num);
    var last := acSet.ll[acSet.ll.Length - 1];

    if totalK == 0 {
      tracker.SetLogLikelihoodOfAFzero(last);
      tracker.SetLogPosteriorOfAFzero(last + priors[0]);
      return;
    }

    tracker.UpdateMLEifNeeded(last, acSet.counts);
    var logLofK := AddPriors(last, acSet.counts, priors);
    tracker.UpdateMAPifNeeded(logLofK, acSet.counts);
  }

  /** The cell loop of computeLofK: cell 0 becomes 0 and each later cell is
      computed from the previous one, in place. */
  method FillColumn(ll: array<real>, gls: seq<seq<real>>, totalK: int, num: Numerics)
    requires ValidGLs(gls, 0) && ll.Length == |gls|
    modifies ll
    ensures ll[..] == LofK(num, gls, totalK, old(ll[..]))
  {
    ghost var cells := ll[..];
    ghost var want := LofK(num, gls, totalK, cells);
    ll[0] := 0.0;
    var j := 1;
    while j < ll.Length
      invariant 1 <= j <= ll.Length
      invariant forall k :: 0 <= k < j ==> ll[k] == want[k]
      invariant forall k :: j <= k < ll.Length ==> ll[k] == cells[k]
    {
      LofKCell(num, gls, totalK, cells, j);
      if totalK == 0 {
        ll[j] := ll[j - 1] + gls[j][HomRefIndex];
      } else {
        if totalK < 2 * j - 1 {
          var gl := gls[j];
          var conformationValue := num.logOf(2 * j - totalK) + num.logOf(2 * j - totalK - 1) + ll[j - 1] + gl[HomRefIndex];
          ll[j] := num.logSumLog(ll[j], conformationValue);
        }
        var logDenominator := num.logOf(2 * j) + num.logOf(2 * j - 1);
        ll[j] := ll[j] - logDenominator;
      }
      j := j + 1;
    }
    assert ll[..] == want;
  }

  /** The prior loop of computeLofK: adds the log prior of each present
      allele's count. */
  method AddPriors(x: real, counts: seq<int>, priors: seq<real>) returns (y: real)
    requires forall k :: 0 <= k < |counts| ==> 0 <= counts[k] < |priors|
    ensures y == x + PriorSum(priors, counts)
  {
    y := x;
    var i := 0;
    while i < |counts|
      invariant 0 <= i <= |counts|
      invariant y == x + PriorSum(priors, counts[..i])
    {
      var acCount := counts[i];
      if acCount > 0 {
        y := y + priors[acCount];
      }
      assert counts[..i + 1][..i] == counts[..i];
      i := i + 1;
    }
    assert counts[..i] == counts;
  }

  /** Folds one generator's contribution into the cells of a successor. */
  method PushData(targetSet: ExactACset, dependentSet: ExactACset, plIndex: nat,
                  gls: seq<seq<real>>, num: Numerics)
    requires ValidGLs(gls, |targetSet.counts|)
    requires targetSet.ll.Length == |gls| && dependentSet.ll.Length == |gls|
    requires PairFits(plIndex, targetSet.counts)
    requires targetSet.ll != dependentSet.ll
    modifies targetSet.ll
    ensures targetSet.ll[..] == Pushed(num, gls, old(targetSet.ll[..]), targetSet.counts, dependentSet.ll[..], plIndex)
  {
    ghost var orig := targetSet.ll[..];
    ghost var want := Pushed(num, gls, orig, targetSet.counts, dependentSet.ll[..], plIndex);
    var totalK := Sum(targetSet.counts);
    var j := 1;
    while j < targetSet.ll.Length
      invariant 1 <= j <= targetSet.ll.Length
      invariant targetSet.ll[..j] == want[..j]
      invariant forall k :: j <= k < targetSet.ll.Length ==> targetSet.ll[k] == orig[k]
    {
      if totalK <= 2 * j {
        var gl := gls[j];
        var conformationValue := DetermineCoefficient(num, plIndex, j, targetSet.counts, totalK) + dependentSet.ll[j - 1] + gl[plIndex];
        targetSet.ll[j] := num.logSumLog(targetSet.ll[j], conformationValue);
      }
      j := j + 1;
    }
  }

  // ---------------------------------------------------------------------
  // The queue and the cache

  /** The conformations of the queued sets, in queue order. */
  function Vectors(queue: seq<ExactACset>): (r: seq<seq<int>>)
    ensures |r| == |queue| && forall i :: 0 <= i < |queue| ==> r[i] == queue[i].counts
  {
    seq(|queue|, i requires 0 <= i < |queue| => queue[i].counts)
  }

  /** The cells of every cached conformation. */
  ghost function Cells(cache: map<seq<int>, ExactACset>): map<seq<int>, seq<real>>
    reads set k | k in cache :: cache[k].ll
  {
    map k | k in cache :: cache[k].ll[..]
  }

  /** The cache maps each conformation to the set that holds it, every set
      has size cells in an array of its own, the queued sets are the cached
      ones, and the cached conformations are the queued ones plus those in
      extra (the one being processed). */
  ghost predicate Cached(queue: seq<ExactACset>, cache: map<seq<int>, ExactACset>, extra: set<seq<int>>, size: nat)
  {
    && (forall k :: k in cache ==> cache[k].counts == k && cache[k].ll.Length == size)
    && (forall k1, k2 :: k1 in cache && k2 in cache && k1 != k2 ==> cache[k1].ll != cache[k2].ll)
    && (forall i :: 0 <= i < |queue| ==> queue[i].counts in cache && cache[queue[i].counts] == queue[i])
    && (forall k :: k in cache <==> k in Vectors(queue) || k in extra)
  }

  /** The first half of updateACset: the set cached for index, created with
      fresh cells and queued when the cache does not hold one yet. */
  method CachedSet(index: seq<int>, numChr: nat, dependentSet: ExactACset,
                   queue: seq<ExactACset>, cache: map<seq<int>, ExactACset>,
                   gls: seq<seq<real>>, num: Numerics)
    returns (queue': seq<ExactACset>, cache': map<seq<int>, ExactACset>)
    requires |gls| >= 1 && numChr == NumChr(gls)
    requires Cached(queue, cache, {dependentSet.counts}, |gls|) && cache[dependentSet.counts] == dependentSet
    requires index != dependentSet.counts
    ensures Cached(queue', cache', {dependentSet.counts}, |gls|) && cache'[dependentSet.counts] == dependentSet
    ensures index in cache'
    ensures forall k :: k in cache ==> k in cache' && cache'[k] == cache[k]
    ensures forall k :: k in cache' && k !in cache ==> fresh(cache'[k].ll)
    ensures Vectors(queue') == EnqueueAll(Vectors(queue), dependentSet.counts, [index])
    ensures Cells(cache') == Cells(cache)[index := if index in cache then Cells(cache)[index] else Fill(|gls|, num.unset)]
  {
    queue', cache' := queue, cache;
    if index !in cache {
      var acSet := new ExactACset(numChr / 2 + 1, index, num.unset);
      cache' := cache[index := acSet];
      queue' := queue + [acSet];
      assert Vectors(queue') == Vectors(queue) + [index];
    }
  }

  /** Makes sure the conformation newSetCounts is cached, creating it with
      fresh cells and queueing it when it is not, then pushes the
      generator's cells into it. */
  method UpdateACset(newSetCounts: seq<int>, numChr: nat, dependentSet: ExactACset, plIndex: nat,
                     queue: seq<ExactACset>, cache: map<seq<int>, ExactACset>,
                     gls: seq<seq<real>>, num: Numerics)
    returns (queue': seq<ExactACset>, cache': map<seq<int>, ExactACset>)
    requires |gls| >= 1 && numChr == NumChr(gls)
    requires Cached(queue, cache, {dependentSet.counts}, |gls|) && cache[dependentSet.counts] == dependentSet
    requires newSetCounts != dependentSet.counts
    requires ValidGLs(gls, |newSetCounts|) && PairFits(plIndex, newSetCounts)
    modifies if newSetCounts in cache then {cache[newSetCounts].ll} else {}
    ensures Cached(queue', cache', {dependentSet.counts}, |gls|) && cache'[dependentSet.counts] == dependentSet
    ensures dependentSet.ll[..] == old(dependentSet.ll[..])
    ensures forall k :: k in cache ==> k in cache' && cache'[k] == cache[k]
    ensures forall k :: k in cache' && k !in cache ==> fresh(cache'[k].ll)
    ensures Vectors(queue') == EnqueueAll(Vectors(queue), dependentSet.counts, [newSetCounts])
    ensures Cells(cache') == PushOne(num, gls, old(Cells(cache)), dependentSet.ll[..], Dependent(newSetCounts, plIndex))
  {
    var index := newSetCounts;
    queue', cache' := CachedSet(index, numChr, dependentSet, queue, cache, gls, num);
    ghost var found := Cells(cache');
    PushInto(index, cache', dependentSet, plIndex, gls, num);
    PushOneAt(num, gls, old(Cells(cache)), found, dependentSet.ll[..], Dependent(newSetCounts, plIndex));
  }

  /** The second half of updateACset: pushData into the cached set of index,
      which changes the cells of that conformation only. */
  method PushInto(index: seq<int>, cache: map<seq<int>, ExactACset>, dependentSet: ExactACset, plIndex: nat,
                  gls: seq<seq<real>>, num: Numerics)
    requires index in cache && cache[index].counts == index && dependentSet.ll.Length == |gls|
    requires forall k :: k in cache ==> cache[k].ll.Length == |gls|
    requires forall k :: k in cache && k != index ==> cache[k].ll != cache[index].ll
    requires dependentSet.ll != cache[index].ll
    requires ValidGLs(gls, |index|) && PairFits(plIndex, index)
    modifies cache[index].ll
    ensures dependentSet.ll[..] == old(dependentSet.ll[..])
    ensures Cells(cache) == old(Cells(cache))[index := Pushed(num, gls, old(cache[index].ll[..]), index, dependentSet.ll[..], plIndex)]
  {
    ghost var found := Cells(cache);
    PushData(cache[index], dependentSet, plIndex, gls, num);
    ghost var want := found[index := cache[index].ll[..]];
    forall k | k in cache
      ensures cache[k].ll[..] == want[k]
    {
      if k != index {
        assert cache[k].ll != cache[index].ll;
      }
    }
    CellsAre(cache, want);
  }

  /** The cells of a cache, given key by key. */
  lemma CellsAre(cache: map<seq<int>, ExactACset>, want: map<seq<int>, seq<real>>)
    requires cache.Keys == want.Keys
    requires forall k :: k in cache ==> cache[k].ll[..] == want[k]
    ensures Cells(cache) == want
  {
  }

  /** updateACset on the i-th of a list of dependents of one generator,
      seen as one more step of handing the list over: the queue and the
      cells move from those for the first i dependents to those for the
      first i + 1. */
  method UpdateDependent(newSetCounts: seq<int>, plIndex: nat, ghost deps: seq<Dependent>, ghost i: nat,
                         numChr: nat, dependentSet: ExactACset,
                         ghost queue0: seq<seq<int>>, ghost cells0: map<seq<int>, seq<real>>, ghost gen: seq<real>,
                         queue: seq<ExactACset>, cache: map<seq<int>, ExactACset>,
                         gls: seq<seq<real>>, num: Numerics)
    returns (queue': seq<ExactACset>, cache': map<seq<int>, ExactACset>)
    requires i < |deps| && deps[i] == Dependent(newSetCounts, plIndex)
    requires AllFit(gls, deps) && dependentSet.counts !in Targets(deps)
    requires |gls| >= 1 && numChr == NumChr(gls) && |gen| == |gls|
    requires forall k :: k in cells0 ==> |cells0[k]| == |gls|
    requires Cached(queue, cache, {dependentSet.counts}, |gls|) && cache[dependentSet.counts] == dependentSet
    requires dependentSet.ll[..] == gen
    requires Vectors(queue) == EnqueueAll(queue0, dependentSet.counts, Targets(deps[..i]))
    requires Cells(cache) == PushAll(num, gls, cells0, gen, deps[..i])
    modifies if newSetCounts in cache then {cache[newSetCounts].ll} else {}
    ensures Cached(queue', cache', {dependentSet.counts}, |gls|) && cache'[dependentSet.counts] == dependentSet
    ensures dependentSet.ll[..] == gen
    ensures forall k :: k in cache ==> k in cache' && cache'[k] == cache[k]
    ensures forall k :: k in cache' && k !in cache ==> fresh(cache'[k].ll)
    ensures Vectors(queue') == EnqueueAll(queue0, dependentSet.counts, Targets(deps[..i + 1]))
    ensures Cells(cache') == PushAll(num, gls, cells0, gen, deps[..i + 1])
  {
    assert Targets(deps)[i] == newSetCounts;
    TargetsSnoc(deps, i);
    PushAllPrefixStep(num, gls, cells0, gen, deps, i);
    queue', cache' := UpdateACset(newSetCounts, numChr, dependentSet, plIndex, queue, cache, gls, num);
    EnqueueAllAppend(queue0, dependentSet.counts, Targets(deps[..i]), [newSetCounts]);
  }

  /** One of the two loops of calculateAlleleCountConformation that hand a
      list of dependents to updateACset in order. */
  method UpdateEach(deps: seq<Dependent>, numChr: nat, dependentSet: ExactACset,
                    queue: seq<ExactACset>, cache: map<seq<int>, ExactACset>,
                    gls: seq<seq<real>>, num: Numerics)
    returns (queue': seq<ExactACset>, cache': map<seq<int>, ExactACset>)
    requires |gls| >= 1 && numChr == NumChr(gls)
    requires Cached(queue, cache, {dependentSet.counts}, |gls|) && cache[dependentSet.counts] == dependentSet
    requires dependentSet.counts !in Targets(deps)
    requires AllFit(gls, deps)
    modifies set k | k in cache :: cache[k].ll
    ensures Cached(queue', cache', {dependentSet.counts}, |gls|) && cache'[dependentSet.counts] == dependentSet
    ensures dependentSet.ll[..] == old(dependentSet.ll[..])
    ensures forall k :: k in cache ==> k in cache' && cache'[k] == cache[k]
    ensures forall k :: k in cache' && k !in cache ==> fresh(cache'[k].ll)
    ensures Vectors(queue') == EnqueueAll(Vectors(queue), dependentSet.counts, Targets(deps))
    ensures Cells(cache') == PushAll(num, gls, old(Cells(cache)), old(dependentSet.ll[..]), deps)
  {
    ghost var gen := dependentSet.ll[..];
    queue', cache' := queue, cache;
    var i := 0;
    while i < |deps|
      invariant 0 <= i <= |deps|
      invariant Cached(queue', cache', {dependentSet.counts}, |gls|) && cache'[dependentSet.counts] == dependentSet
      invariant forall k :: k in cache ==> k in cache' && cache'[k] == cache[k]
      invariant forall k :: k in cache' && k !in cache ==> fresh(cache'[k].ll)
      invariant dependentSet.ll[..] == gen
      invariant Vectors(queue') == EnqueueAll(Vectors(queue), dependentSet.counts, Targets(deps[..i]))
      invariant Cells(cache') == PushAll(num, gls, old(Cells(cache)), gen, deps[..i])
    {
      var dependent := deps[i];
      queue', cache' := UpdateDependent(dependent.counts, dependent.plIndex, deps, i, numChr, dependentSet,
                                        Vectors(queue), old(Cells(cache)), gen, queue', cache', gls, num);
      i := i + 1;
    }
    assert deps[..i] == deps;
  }

  /** The nested loops of calculateAlleleCountConformation that list the
      "+2" successors: for each pair of alternate alleles i <= j, the
      generator with both incremented, fed by the genotype (i+1, j+1); pairs
      of different alleles and pairs of the same allele go to separate
      lists. */
  method PlusTwoLists(counts: seq<int>) returns (differentAlleles: seq<Dependent>, sameAlleles: seq<Dependent>)
    ensures differentAlleles == DifferentAlleles(counts) && sameAlleles == SameAlleles(counts)
  {
    var numAltAlleles := |counts|;
    differentAlleles, sameAlleles := [], [];
    var alleleI := 0;
    while alleleI < numAltAlleles
      invariant 0 <= alleleI <= numAltAlleles
      invariant PairsBelow(Rows(numAltAlleles, alleleI), numAltAlleles)
      invariant differentAlleles == PlusTwoAll(counts, Rows(numAltAlleles, alleleI))
      invariant sameAlleles == PlusTwoAll(counts, SamePairs(alleleI))
    {
      RowStart(numAltAlleles, alleleI);
      var alleleJ := alleleI;
      while alleleJ < numAltAlleles
        invariant alleleI <= alleleJ <= numAltAlleles
        invariant alleleJ == alleleI ==> differentAlleles == PlusTwoAll(counts, Rows(numAltAlleles, alleleI))
        invariant alleleJ == alleleI ==> sameAlleles == PlusTwoAll(counts, SamePairs(alleleI))
        invariant alleleJ > alleleI ==> PairsBelow(Rows(numAltAlleles, alleleI) + Row(alleleI, alleleI + 1, alleleJ), numAltAlleles)
        invariant alleleJ > alleleI ==> differentAlleles == PlusTwoAll(counts, Rows(numAltAlleles, alleleI) + Row(alleleI, alleleI + 1, alleleJ))
        invariant alleleJ > alleleI ==> sameAlleles == PlusTwoAll(counts, SamePairs(alleleI + 1))
      {
        var acCountsClone := counts[alleleI := counts[alleleI] + 1];
        acCountsClone := acCountsClone[alleleJ := acCountsClone[alleleJ] + 1];
        var plIndex := PLIndex(alleleI + 1, alleleJ + 1);
        assert Dependent(acCountsClone, plIndex) == PlusTwoOf(counts, (alleleI, alleleJ));
        if alleleI == alleleJ {
          SameGrow(counts, alleleI);
          sameAlleles := sameAlleles + [Dependent(acCountsClone, plIndex)];
        } else {
          DiffGrow(counts, alleleI, alleleJ);
          differentAlleles := differentAlleles + [Dependent(acCountsClone, plIndex)];
        }
        alleleJ := alleleJ + 1;
      }
      RowsGrow(numAltAlleles, alleleI);
      alleleI := alleleI + 1;
    }
  }

  /** The "+1" loop of calculateAlleleCountConformation: for each alternate
      allele, the generator with that allele incremented, fed by the ref/alt
      heterozygote, is handed to updateACset. */
  method UpdatePlusOne(acSet: ExactACset, numChr: nat, queue: seq<ExactACset>, cache: map<seq<int>, ExactACset>,
                       gls: seq<seq<real>>, num: Numerics)
    returns (queue': seq<ExactACset>, cache': map<seq<int>, ExactACset>)
    requires |gls| >= 1 && numChr == NumChr(gls)
    requires Cached(queue, cache, {acSet.counts}, |gls|) && cache[acSet.counts] == acSet
    requires AllFit(gls, PlusOne(acSet.counts)) && acSet.counts !in Targets(PlusOne(acSet.counts))
    modifies set k | k in cache :: cache[k].ll
    ensures Cached(queue', cache', {acSet.counts}, |gls|) && cache'[acSet.counts] == acSet
    ensures acSet.ll[..] == old(acSet.ll[..])
    ensures forall k :: k in cache ==> k in cache' && cache'[k] == cache[k]
    ensures forall k :: k in cache' && k !in cache ==> fresh(cache'[k].ll)
    ensures Vectors(queue') == EnqueueAll(Vectors(queue), acSet.counts, Targets(PlusOne(acSet.counts)))
    ensures Cells(cache') == PushAll(num, gls, old(Cells(cache)), old(acSet.ll[..]), PlusOne(acSet.counts))
  {
    ghost var v := acSet.counts;
    ghost var gen := acSet.ll[..];
    ghost var plusOne := PlusOne(v);
    queue', cache' := queue, cache;
    var numAltAlleles := |acSet.counts|;
    var allele := 0;
    while allele < numAltAlleles
      invariant 0 <= allele <= numAltAlleles
      invariant Cached(queue', cache', {v}, |gls|) && cache'[v] == acSet
      invariant forall k :: k in cache ==> k in cache' && cache'[k] == cache[k]
      invariant forall k :: k in cache' && k !in cache ==> fresh(cache'[k].ll)
      invariant acSet.ll[..] == gen
      invariant Vectors(queue') == EnqueueAll(Vectors(queue), v, Targets(plusOne[..allele]))
      invariant Cells(cache') == PushAll(num, gls, old(Cells(cache)), gen, plusOne[..allele])
    {
      var acCountsClone := Inc(acSet.counts, allele);
      var plIndex := PLIndex(0, allele + 1);
      assert plusOne[allele] == Dependent(acCountsClone, plIndex);
      queue', cache' := UpdateDependent(acCountsClone, plIndex, plusOne, allele, numChr, acSet,
                                        Vectors(queue), old(Cells(cache)), gen, queue', cache', gls, num);
      allele := allele + 1;
    }
    assert plusOne[..allele] == plusOne;
  }

  /** The "+2" part of calculateAlleleCountConformation: the two lists are
      built first, then handed to updateACset, different-allele ones first. */
  method UpdatePlusTwo(acSet: ExactACset, numChr: nat, queue: seq<ExactACset>, cache: map<seq<int>, ExactACset>,
                       gls: seq<seq<real>>, num: Numerics)
    returns (queue': seq<ExactACset>, cache': map<seq<int>, ExactACset>)
    requires |gls| >= 1 && numChr == NumChr(gls)
    requires Cached(queue, cache, {acSet.counts}, |gls|) && cache[acSet.counts] == acSet
    requires AllFit(gls, DifferentAlleles(acSet.counts) + SameAlleles(acSet.counts))
    requires acSet.counts !in Targets(DifferentAlleles(acSet.counts) + SameAlleles(acSet.counts))
    modifies set k | k in cache :: cache[k].ll
    ensures Cached(queue', cache', {acSet.counts}, |gls|) && cache'[acSet.counts] == acSet
    ensures acSet.ll[..] == old(acSet.ll[..])
    ensures forall k :: k in cache ==> k in cache' && cache'[k] == cache[k]
    ensures forall k :: k in cache' && k !in cache ==> fresh(cache'[k].ll)
    ensures Vectors(queue') == EnqueueAll(Vectors(queue), acSet.counts, Targets(DifferentAlleles(acSet.counts) + SameAlleles(acSet.counts)))
    ensures Cells(cache') == PushAll(num, gls, old(Cells(cache)), old(acSet.ll[..]), DifferentAlleles(acSet.counts) + SameAlleles(acSet.counts))
  {
    ghost var v := acSet.counts;
    ghost var gen := acSet.ll[..];
    ghost var cells0 := Cells(cache);
    var differentAlleles, sameAlleles := PlusTwoLists(acSet.counts);
    AllFitParts(gls, differentAlleles, sameAlleles);
    TargetsAppend(differentAlleles, sameAlleles);
    queue', cache' := UpdateEach(differentAlleles, numChr, acSet, queue, cache, gls, num);
    queue', cache' := UpdateEach(sameAlleles, numChr, acSet, queue', cache', gls, num);
    PushAllAppend(num, gls, cells0, gen, differentAlleles, sameAlleles);
    EnqueueAllAppend(Vectors(queue), v, Targets(differentAlleles), Targets(sameAlleles));
  }

  /** The successor part of calculateAlleleCountConformation, once the
      tracker has kept the branch and some chromosome is left: the "+1"
      successors, then, when two chromosomes are left, the "+2" ones. */
  method UpdateSuccessors(acSet: ExactACset, numChr: nat, ACwiggle: int,
                          queue: seq<ExactACset>, cache: map<seq<int>, ExactACset>,
                          gls: seq<seq<real>>, num: Numerics, ghost deps: seq<Dependent>)
    returns (queue': seq<ExactACset>, cache': map<seq<int>, ExactACset>)
    requires |gls| >= 1 && numChr == NumChr(gls)
    requires ACwiggle == numChr - Sum(acSet.counts) && ACwiggle != 0
    requires deps == Successors(acSet.counts, numChr)
    requires Cached(queue, cache, {acSet.counts}, |gls|) && cache[acSet.counts] == acSet
    requires AllFit(gls, deps)
    requires acSet.counts !in Targets(deps)
    modifies set k | k in cache :: cache[k].ll
    ensures Cached(queue', cache', {acSet.counts}, |gls|) && cache'[acSet.counts] == acSet
    ensures acSet.ll[..] == old(acSet.ll[..])
    ensures forall k :: k in cache ==> k in cache' && cache'[k] == cache[k]
    ensures forall k :: k in cache' && k !in cache ==> fresh(cache'[k].ll)
    ensures Vectors(queue') == EnqueueAll(Vectors(queue), acSet.counts, Targets(deps))
    ensures Cells(cache') == PushAll(num, gls, old(Cells(cache)), old(acSet.ll[..]), deps)
  {
    ghost var v := acSet.counts;
    ghost var gen := acSet.ll[..];
    ghost var cells0 := Cells(cache);
    ghost var plusOne := PlusOne(v);
    ghost var plusTwo := DifferentAlleles(v) + SameAlleles(v);
    SuccessorsParts(v, numChr);
    if ACwiggle > 1 {
      assert deps == plusOne + plusTwo;
      AllFitParts(gls, plusOne, plusTwo);
      TargetsAppend(plusOne, plusTwo);
    }
    queue', cache' := UpdatePlusOne(acSet, numChr, queue, cache, gls, num);
    if ACwiggle > 1 {
      queue', cache' := UpdatePlusTwo(acSet, numChr, queue', cache', gls, num);
      PushAllAppend(num, gls, cells0, gen, plusOne, plusTwo);
      EnqueueAllAppend(Vectors(queue), v, Targets(plusOne), Targets(plusTwo));
    }
  }

  /** The tail of calculateAlleleCountConformation: nothing more happens
      when the tracker prunes the conformation or it has no room left;
      otherwise its successors are updated and queued. */
  method HandOn(acSet: ExactACset, numChr: nat, abort: bool,
                queue: seq<ExactACset>, cache: map<seq<int>, ExactACset>,
                gls: seq<seq<real>>, num: Numerics, ghost deps: seq<Dependent>)
    returns (queue': seq<ExactACset>, cache': map<seq<int>, ExactACset>)
    requires |gls| >= 1 && numChr == NumChr(gls)
    requires deps == if abort then [] else Successors(acSet.counts, numChr)
    requires Cached(queue, cache, {acSet.counts}, |gls|) && cache[acSet.counts] == acSet
    requires AllFit(gls, deps)
    requires acSet.counts !in Targets(deps)
    modifies set k | k in cache :: cache[k].ll
    ensures Cached(queue', cache', {acSet.counts}, |gls|) && cache'[acSet.counts] == acSet
    ensures forall k :: k in cache ==> k in cache' && cache'[k] == cache[k]
    ensures forall k :: k in cache' && k !in cache ==> fresh(cache'[k].ll)
    ensures Vectors(queue') == EnqueueAll(Vectors(queue), acSet.counts, Targets(deps))
    ensures Cells(cache') == PushAll(num, gls, old(Cells(cache)), old(acSet.ll[..]), deps)
  {
    queue', cache' := queue, cache;
    if !abort {
      var ACwiggle := numChr - Sum(acSet.counts);
      if ACwiggle != 0 {
        queue', cache' := UpdateSuccessors(acSet, numChr, ACwiggle, queue, cache, gls, num, deps);
      }
    }
  }

  /** The computeLofK call of calculateAlleleCountConformation, seen from
      the cache: only the popped conformation's cells change. */
  method CompleteCells(acSet: ExactACset, cache: map<seq<int>, ExactACset>, gls: seq<seq<real>>,
                       priors: seq<real>, num: Numerics, tracker: StateTracker, ghost inp: Input)
    requires inp == Input(|acSet.counts|, gls, priors, num, tracker.abortPolicy)
    requires ValidInput(inp) && WellFormed(acSet.counts, inp.numAlt, NumChr(inp.gls))
    requires forall k :: 0 <= k < |acSet.counts| ==> acSet.counts[k] < |priors|
    requires acSet.counts in cache && cache[acSet.counts] == acSet && acSet.ll.Length == |gls|
    requires forall k :: k in cache && k != acSet.counts ==> cache[k].ll != acSet.ll
    modifies tracker, acSet.ll
    ensures acSet.ll[..] == Completed(inp, old(Cells(cache)), acSet.counts)
    ensures Cells(cache) == old(Cells(cache))[acSet.counts := acSet.ll[..]]
    ensures tracker.events == old(tracker.events) + LofKEvents(acSet.ll[..], acSet.counts, priors)
  {
    ghost var v := acSet.counts;
    ghost var cells0 := Cells(cache);
    ValidInputPriors(inp, v);
    ComputeLofK(acSet, gls, priors, num, tracker);
    ghost var lofk := acSet.ll[..];
    forall k | k in cache
      ensures cache[k].ll[..] == cells0[v := lofk][k]
    {
      if k != v {
        assert cache[k].ll != acSet.ll;
      }
    }
  }

  /** calculateAlleleCountConformation on the conformation just popped from
      the queue (still cached): completes its cells and reports them to the
      tracker; unless the tracker abandons it, or all chromosomes are
      used, hands its successors to the cache.  The queue, the cells of the
      cache and the tracker calls end as Expand says; the result is the
      conformation's likelihood over all samples. */
  method CalculateAlleleCountConformation(acSet: ExactACset, gls: seq<seq<real>>, numChr: nat,
                                          queue: seq<ExactACset>, cache: map<seq<int>, ExactACset>,
                                          priors: seq<real>, num: Numerics, tracker: StateTracker,
                                          ghost inp: Input, ghost cells: map<seq<int>, seq<real>>,
                                          ghost events: seq<TrackerEvent>)
    returns (logLofK: real, queue': seq<ExactACset>, cache': map<seq<int>, ExactACset>)
    requires inp == Input(|acSet.counts|, gls, priors, num, tracker.abortPolicy)
    requires cells == Cells(cache) && events == tracker.events
    requires ValidInput(inp) && WellFormed(acSet.counts, inp.numAlt, NumChr(gls)) && numChr == NumChr(gls)
    requires Cached(queue, cache, {acSet.counts}, |gls|) && cache[acSet.counts] == acSet
    modifies tracker, set k | k in cache :: cache[k].ll
    ensures Cached(queue', cache', {acSet.counts}, |gls|) && cache'[acSet.counts] == acSet
    ensures forall k :: k in cache ==> k in cache' && cache'[k] == cache[k]
    ensures forall k :: k in cache' && k !in cache ==> fresh(cache'[k].ll)
    ensures var x := Expand(inp, Vectors(queue), cells, events, acSet.counts);
      && Vectors(queue') == x.queue && Cells(cache') == x.cells && tracker.events == x.events
    ensures logLofK == Completed(inp, cells, acSet.counts)[|gls| - 1]
  {
    ghost var v := acSet.counts;
    ghost var cells0 := cells;
    ghost var events0 := events;
    ValidInputPriors(inp, v);
    CompleteCells(acSet, cache, gls, priors, num, tracker, inp);
    ghost var lofk := acSet.ll[..];
    logLofK := acSet.ll[acSet.ll.Length - 1];
    var abort := tracker.Abort(logLofK, acSet.counts);
    ghost var deps := Generated(inp, v, abort);
    ExpandIs(inp, Vectors(queue), cells0, events0, v, lofk, abort, deps);
    queue', cache' := HandOn(acSet, numChr, abort, queue, cache, gls, num, deps);
  }

  /** Popping the head of a queue that matches the run state leaves the
      head cached but no longer queued. */
  lemma Pop(queue: seq<ExactACset>, cache: map<seq<int>, ExactACset>, inp: Input, ex: Exec)
    requires Good(inp, ex) && queue != [] && Vectors(queue) == ex.queue
    requires Cached(queue, cache, {}, |inp.gls|)
    ensures Vectors(queue[1..]) == ex.queue[1..]
    ensures WellFormed(queue[0].counts, inp.numAlt, NumChr(inp.gls)) && |queue[0].counts| == inp.numAlt
    ensures Cached(queue[1..], cache, {queue[0].counts}, |inp.gls|) && cache[queue[0].counts] == queue[0]
  {
    assert Vectors(queue[1..]) == ex.queue[1..];
    forall k
      ensures k in cache <==> k in Vectors(queue[1..]) || k == queue[0].counts
    {
      assert Vectors(queue) == [queue[0].counts] + Vectors(queue[1..]);
    }
  }

  /** Evicting the processed conformation, once it is no longer queued,
      leaves the cache holding exactly the queued ones. */
  lemma CachedRemove(queue: seq<ExactACset>, cache: map<seq<int>, ExactACset>, v: seq<int>, size: nat)
    requires Cached(queue, cache, {v}, size) && v !in Vectors(queue)
    ensures Cached(queue, cache - {v}, {}, size)
  {
  }

  /** Evicting a conformation from the cache drops its cells. */
  lemma CellsRemove(cache: map<seq<int>, ExactACset>, k: seq<int>)
    ensures Cells(cache - {k}) == Cells(cache) - {k}
  {
  }

  /** The calculator's queue, cache and tracker hold the state e of a run. */
  ghost predicate Mirrors(queue: seq<ExactACset>, cache: map<seq<int>, ExactACset>, tracker: StateTracker,
                          inp: Input, e: Exec)
    reads tracker, set k | k in cache :: cache[k].ll
  {
    && Good(inp, e) && Cached(queue, cache, {}, |inp.gls|)
    && Vectors(queue) == e.queue && Cells(cache) == e.cells && tracker.events == e.events
  }

  /** One iteration of the loop of computeLogPNonRef: the head of the queue
      is removed, processed, and evicted from the cache, as ExecStep says. */
  method ProcessNext(queue: seq<ExactACset>, cache: map<seq<int>, ExactACset>, gls: seq<seq<real>>,
                     numChr: nat, priors: seq<real>, num: Numerics, stateTracker: StateTracker,
                     ghost inp: Input, ghost ex: Exec)
    returns (queue': seq<ExactACset>, cache': map<seq<int>, ExactACset>)
    requires inp == Input(inp.numAlt, gls, priors, num, stateTracker.abortPolicy)
    requires Mirrors(queue, cache, stateTracker, inp, ex) && queue != [] && numChr == NumChr(gls)
    modifies stateTracker, set k | k in cache :: cache[k].ll
    ensures Mirrors(queue', cache', stateTracker, inp, ExecStep(inp, ex))
    ensures forall k :: k in cache' ==> (k in cache && cache'[k] == cache[k]) || fresh(cache'[k].ll)
  {
    Pop(queue, cache, inp, ex);
    var acSet := queue[0];
    var rest := queue[1..];
    var _, q, c := CalculateAlleleCountConformation(acSet, gls, numChr, rest, cache, priors, num, stateTracker, inp,
                                                   Cells(cache), stateTracker.events);
    CellsRemove(c, acSet.counts);
    assert acSet.counts !in ExecStep(inp, ex).queue;
    CachedRemove(q, c, acSet.counts, |gls|);
    queue', cache' := q, c - {acSet.counts};
  }

  /** The state before the loop: the zero conformation, with fresh cells,
      queued and cached. */
  method Initialize(numAlternateAlleles: nat, numSamples: nat, num: Numerics, ghost inp: Input, ghost ex: Exec)
    returns (queue: seq<ExactACset>, cache: map<seq<int>, ExactACset>)
    requires inp.numAlt == numAlternateAlleles && inp.num == num && |inp.gls| == numSamples + 1
    requires ex == Start(inp, ex.events)
    ensures Cached(queue, cache, {}, numSamples + 1)
    ensures forall k :: k in cache ==> fresh(cache[k].ll)
    ensures Vectors(queue) == ex.queue && Cells(cache) == ex.cells
  {
    var zeroCounts := Zero(numAlternateAlleles);
    var zeroSet := new ExactACset(numSamples + 1, zeroCounts, num.unset);
    queue := [zeroSet];
    cache := map[zeroSet.counts := zeroSet];
    assert Vectors(queue) == ex.queue;
    assert Cells(cache) == ex.cells;
  }

  /** The loop of computeLogPNonRef: processes the head of the queue until
      the queue is empty.  The tracker calls and the processed
      conformations end as Run from the matching state says. */
  method Drain(queue: seq<ExactACset>, cache: map<seq<int>, ExactACset>, gls: seq<seq<real>>,
               priors: seq<real>, num: Numerics, stateTracker: StateTracker, ghost inp: Input, ghost ex: Exec)
    returns (ghost processed: seq<seq<int>>)
    requires inp == Input(inp.numAlt, gls, priors, num, stateTracker.abortPolicy)
    requires Mirrors(queue, cache, stateTracker, inp, ex)
    modifies stateTracker, set k | k in cache :: cache[k].ll
    ensures stateTracker.events == Run(inp, ex).events && processed == Run(inp, ex).done
  {
    var numChr := 2 * (|gls| - 1);
    ghost var final := Run(inp, ex);
    ghost var cur := ex;
    var q, c := queue, cache;
    processed := ex.done;
    while q != []
      invariant Mirrors(q, c, stateTracker, inp, cur) && Run(inp, cur) == final
      invariant forall k :: k in c ==> (k in cache && c[k] == cache[k]) || fresh(c[k].ll)
      invariant processed == cur.done
      decreases Potential(cur.queue, inp.numAlt, numChr)
    {
      RunStep(inp, cur);
      processed := processed + [cur.queue[0]];
      ghost var c0 := c;
      q, c := ProcessNext(q, c, gls, numChr, priors, num, stateTracker, inp, cur);
      forall k | k in c
        ensures (k in cache && c[k] == cache[k]) || fresh(c[k].ll)
      {
        if k in c0 && c[k] == c0[k] {
          assert (k in cache && c0[k] == cache[k]) || fresh(c0[k].ll);
        }
      }
      cur := ExecStep(inp, cur);
    }
  }

  /** computeLogPNonRef from the genotype likelihoods on: the zero
      conformation is queued and cached, then each popped conformation is
      processed and evicted until the queue is empty.  The calls the tracker
      receives, and the order in which conformations are processed, are
      those of Run from Start. */
  method ComputeLogPNonRef(numAlternateAlleles: nat, gls: seq<seq<real>>, priors: seq<real>,
                           num: Numerics, stateTracker: StateTracker)
    returns (ghost processed: seq<seq<int>>)
    requires ValidInput(Input(numAlternateAlleles, gls, priors, num, stateTracker.abortPolicy))
    modifies stateTracker
    ensures var inp := Input(numAlternateAlleles, gls, priors, num, stateTracker.abortPolicy);
      var r := Run(inp, Start(inp, old(stateTracker.events)));
      stateTracker.events == r.events && processed == r.done
  {
    ghost var inp := Input(numAlternateAlleles, gls, priors, num, stateTracker.abortPolicy);
    ghost var ex := Start(inp, stateTracker.events);
    var numSamples := |gls| - 1;
    var queue, cache := Initialize(numAlternateAlleles, numSamples, num, inp, ex);
    processed := Drain(queue, cache, gls, priors, num, stateTracker, inp, ex);
  }
}
