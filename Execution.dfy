/** The whole of computeLogPNonRef as a function of its inputs: the queue of
    conformations, the cells of every cached conformation and the calls made
    on the state tracker, advanced one popped conformation at a time until
    the queue is empty.  The imperative calculator is proved to compute
    exactly this; what the run guarantees is proved here. */
module Execution {
  import opened GenotypeIndex
  import opened Conformations
  import opened SuccessorLaws
  import opened Worklist
  import opened ExactModel

  /** What computeLogPNonRef works from: the number of alternate alleles,
      the genotype likelihoods (entry 0 a placeholder, one entry per sample
      after it), the log priors indexed by allele count, the numerics, and
      the tracker's abort decision as a function of the calls it has seen. */
  datatype Input = Input(numAlt: nat, gls: seq<seq<real>>, priors: seq<real>, num: Numerics,
                         abortPolicy: (seq<TrackerEvent>, real, seq<int>) -> bool)

  /** Two chromosomes per sample. */
  function NumChr(gls: seq<seq<real>>): nat
    requires |gls| >= 1
  {
    2 * (|gls| - 1)
  }

  /** Every sample has a likelihood for every genotype, and there is a prior
      for every allele count up to numChr. */
  ghost predicate ValidInput(inp: Input)
  {
    ValidGLs(inp.gls, inp.numAlt) && |inp.priors| > NumChr(inp.gls)
  }

  /** The state between two iterations: the queue, the cells of every cached
      conformation, the calls made on the tracker, and the conformations
      processed so far. */
  datatype Exec = Exec(queue: seq<seq<int>>, cells: map<seq<int>, seq<real>>,
                       events: seq<TrackerEvent>, done: seq<seq<int>>)

  /** What holds between iterations: the queue is duplicate-free and
      well-formed, the cache holds exactly the queued conformations, each
      with one cell per sample-prefix length, and everything processed was
      well-formed. */
  ghost predicate Good(inp: Input, e: Exec)
  {
    && ValidInput(inp)
    && Inv(Sched(e.queue, e.done), inp.numAlt, NumChr(inp.gls))
    && (forall t :: t in e.cells <==> t in e.queue)
    && (forall t :: t in e.cells ==> |e.cells[t]| == |inp.gls|)
    && (forall i :: 0 <= i < |e.done| ==> WellFormed(e.done[i], inp.numAlt, NumChr(inp.gls)))
  }

  /** The state before the loop: only the zero conformation, with fresh
      cells, is queued and cached; events0 are the calls the tracker had
      already received. */
  function Start(inp: Input, events0: seq<TrackerEvent>): (r: Exec)
    ensures r.queue == [Zero(inp.numAlt)] && r.done == [] && r.events == events0
    ensures ValidInput(inp) ==> Good(inp, r)
  {
    Exec([Zero(inp.numAlt)], map[Zero(inp.numAlt) := Fill(|inp.gls|, inp.num.unset)], events0, [])
  }

  /** A successor's genotype is present in its counts, and a successor has
      as many entries as its generator. */
  lemma SuccessorsFit(v: seq<int>, numChr: nat)
    requires forall k :: 0 <= k < |v| ==> v[k] >= 0
    ensures forall k :: 0 <= k < |Successors(v, numChr)| ==>
      |Successors(v, numChr)[k].counts| == |v| && PairFits(Successors(v, numChr)[k].plIndex, Successors(v, numChr)[k].counts)
  {
    SuccessorsMeaning(v, numChr);
  }

  // ---------------------------------------------------------------------
  // One iteration

  /** The cells of v once computeLofK has completed them. */
  function Completed(inp: Input, cells: map<seq<int>, seq<real>>, v: seq<int>): (r: seq<real>)
    requires ValidInput(inp) && v in cells && |cells[v]| == |inp.gls|
    ensures |r| == |inp.gls| && r[0] == 0.0
  {
    LofK(inp.num, inp.gls, Sum(v), cells[v])
  }

  /** Whether the tracker abandons v once it has been told v's likelihood. */
  function Pruned(inp: Input, events: seq<TrackerEvent>, v: seq<int>, lofk: seq<real>): bool
    requires ValidInput(inp) && WellFormed(v, inp.numAlt, NumChr(inp.gls)) && |lofk| >= 1
  {
    ValidInputPriors(inp, v);
    inp.abortPolicy(events + LofKEvents(lofk, v, inp.priors), lofk[|lofk| - 1], v)
  }

  lemma ValidInputPriors(inp: Input, v: seq<int>)
    requires ValidInput(inp) && WellFormed(v, inp.numAlt, NumChr(inp.gls))
    ensures forall k :: 0 <= k < |v| ==> 0 <= v[k] < |inp.priors|
  {
    forall k | 0 <= k < |v|
      ensures v[k] < |inp.priors|
    {
      EntryAtMostSum(v, k);
    }
  }

  /** The successors v hands to the cache: none when the tracker prunes v. */
  function Generated(inp: Input, v: seq<int>, pruned: bool): seq<Dependent>
    requires |inp.gls| >= 1
  {
    if pruned then [] else Successors(v, NumChr(inp.gls))
  }

  /** calculateAlleleCountConformation on the conformation v just popped
      (queue is what remains queued; v is still cached): v's cells are
      completed and reported to the tracker, and unless the tracker prunes v
      its successors are handed to the cache, each receiving v's completed
      cells.  The result's history is left empty. */
  function Expand(inp: Input, queue: seq<seq<int>>, cells: map<seq<int>, seq<real>>,
                  events: seq<TrackerEvent>, v: seq<int>): (r: Exec)
    requires ValidInput(inp) && WellFormed(v, inp.numAlt, NumChr(inp.gls))
    requires v in cells && forall t :: t in cells ==> |cells[t]| == |inp.gls|
    ensures events <= r.events
    ensures forall t :: t in r.cells ==> |r.cells[t]| == |inp.gls|
    ensures v in r.cells && r.cells[v] == Completed(inp, cells, v)
  {
    var lofk := Completed(inp, cells, v);
    ValidInputPriors(inp, v);
    var deps := Generated(inp, v, Pruned(inp, events, v, lofk));
    SuccessorsFit(v, NumChr(inp.gls));
    SuccessorTargets(v, inp.numAlt, NumChr(inp.gls));
    var cells' := PushAll(inp.num, inp.gls, cells[v := lofk], lofk, deps);
    assert v !in Targets(deps);
    Exec(EnqueueAll(queue, v, Targets(deps)), cells', events + LofKEvents(lofk, v, inp.priors), [])
  }

  /** Whether the iteration from e prunes the conformation it pops. */
  function StepPruned(inp: Input, e: Exec): bool
    requires Good(inp, e) && e.queue != []
  {
    var v := e.queue[0];
    Pruned(inp, e.events, v, Completed(inp, e.cells, v))
  }

  /** One iteration of the loop of computeLogPNonRef: pop the head, expand
      it, evict it from the cache. */
  function ExecStep(inp: Input, e: Exec): (r: Exec)
    requires Good(inp, e) && e.queue != []
    ensures Good(inp, r)
    ensures Sched(r.queue, r.done) == Step(Sched(e.queue, e.done), NumChr(inp.gls), StepPruned(inp, e))
    ensures e.events <= r.events && r.done == e.done + [e.queue[0]]
  {
    var v := e.queue[0];
    var x := Expand(inp, e.queue[1..], e.cells, e.events, v);
    ExecStepGood(inp, e);
    Exec(x.queue, x.cells - {v}, x.events, e.done + [v])
  }

  lemma ExecStepGood(inp: Input, e: Exec)
    requires Good(inp, e) && e.queue != []
    ensures var v := e.queue[0];
      var x := Expand(inp, e.queue[1..], e.cells, e.events, v);
      var r := Exec(x.queue, x.cells - {v}, x.events, e.done + [v]);
      && Good(inp, r)
      && Sched(r.queue, r.done) == Step(Sched(e.queue, e.done), NumChr(inp.gls), StepPruned(inp, e))
  {
    var v := e.queue[0];
    var x := Expand(inp, e.queue[1..], e.cells, e.events, v);
    var ts := ExpandShape(inp, e.queue[1..], e.cells, e.events, v);
    StepGood(inp, e, x, ts, StepPruned(inp, e));
  }

  /** An iteration that queues and caches the targets ts of the popped
      conformation, and evicts it, keeps the loop invariant and is the
      abstract worklist step. */
  lemma StepGood(inp: Input, e: Exec, x: Exec, ts: seq<seq<int>>, pruned: bool)
    requires Good(inp, e) && e.queue != []
    requires ts == if pruned then [] else Targets(Successors(e.queue[0], NumChr(inp.gls)))
    requires x.queue == EnqueueAll(e.queue[1..], e.queue[0], ts)
    requires forall t :: t in x.cells <==> t in e.cells || t in ts
    requires forall t :: t in x.cells ==> |x.cells[t]| == |inp.gls|
    ensures var r := Exec(x.queue, x.cells - {e.queue[0]}, x.events, e.done + [e.queue[0]]);
      && Good(inp, r)
      && Sched(r.queue, r.done) == Step(Sched(e.queue, e.done), NumChr(inp.gls), pruned)
  {
    var v := e.queue[0];
    var rest := e.queue[1..];
    StepInv(Sched(e.queue, e.done), inp.numAlt, NumChr(inp.gls), pruned);
    assert e.queue == [v] + rest;
    QueueCellsAgree(rest, v, ts, e.cells, x.cells);
  }

  /** What Expand hands on: the targets ts it queues, and ts are the only
      conformations it may add to the cache. */
  lemma ExpandShape(inp: Input, queue: seq<seq<int>>, cells: map<seq<int>, seq<real>>,
                    events: seq<TrackerEvent>, v: seq<int>) returns (ts: seq<seq<int>>)
    requires ValidInput(inp) && WellFormed(v, inp.numAlt, NumChr(inp.gls))
    requires v in cells && forall t :: t in cells ==> |cells[t]| == |inp.gls|
    ensures ts == Targets(Generated(inp, v, Pruned(inp, events, v, Completed(inp, cells, v))))
    ensures Expand(inp, queue, cells, events, v).queue == EnqueueAll(queue, v, ts)
    ensures forall t :: t in Expand(inp, queue, cells, events, v).cells <==> t in cells || t in ts
  {
    var lofk := Completed(inp, cells, v);
    ValidInputPriors(inp, v);
    var deps := Generated(inp, v, Pruned(inp, events, v, lofk));
    SuccessorsFit(v, NumChr(inp.gls));
    ts := Targets(deps);
  }

  /** Expand, component by component, for the successors deps it hands on:
      the targets of deps are queued after queue, the completed cells of v
      are pushed into each dependent in turn, and the tracker is told of v. */
  lemma ExpandIs(inp: Input, queue: seq<seq<int>>, cells: map<seq<int>, seq<real>>,
                 events: seq<TrackerEvent>, v: seq<int>, lofk: seq<real>, abort: bool,
                 deps: seq<Dependent>)
    requires ValidInput(inp) && WellFormed(v, inp.numAlt, NumChr(inp.gls))
    requires v in cells && forall t :: t in cells ==> |cells[t]| == |inp.gls|
    requires lofk == Completed(inp, cells, v)
    requires forall k :: 0 <= k < |v| ==> 0 <= v[k] < |inp.priors|
    requires abort == inp.abortPolicy(events + LofKEvents(lofk, v, inp.priors), lofk[|lofk| - 1], v)
    requires deps == Generated(inp, v, abort)
    ensures abort == Pruned(inp, events, v, lofk)
    ensures AllFit(inp.gls, deps) && v !in Targets(deps)
    ensures var x := Expand(inp, queue, cells, events, v);
      && x.queue == EnqueueAll(queue, v, Targets(deps))
      && x.cells == PushAll(inp.num, inp.gls, cells[v := lofk], lofk, deps)
      && x.events == events + LofKEvents(lofk, v, inp.priors)
  {
    ValidInputPriors(inp, v);
    SuccessorsFit(v, NumChr(inp.gls));
    SuccessorTargets(v, inp.numAlt, NumChr(inp.gls));
    assert v !in Targets(deps);
  }

  /** The cache after an iteration, less the popped v, holds exactly the
      queue after it. */
  lemma QueueCellsAgree(q: seq<seq<int>>, v: seq<int>, ts: seq<seq<int>>,
                        c: map<seq<int>, seq<real>>, c': map<seq<int>, seq<real>>)
    requires forall t :: t in c <==> t in [v] + q
    requires forall t :: t in c' <==> t in c || t in ts
    requires v !in q
    ensures forall t :: t in c' - {v} <==> t in EnqueueAll(q, v, ts)
  {
    EnqueueAllShape(q, v, ts);
    var r := EnqueueAll(q, v, ts);
    forall t
      ensures t in c' - {v} <==> t in r
    {
      if t in q {
        var i :| 0 <= i < |q| && q[i] == t;
        assert r[i] == t;
      }
    }
  }

  /** The loop of computeLogPNonRef: iterate until the queue is empty.  It
      terminates because every iteration lowers the potential of the queue,
      even when pruning lets a conformation be queued again after its
      eviction. */
  function Run(inp: Input, e: Exec): (r: Exec)
    requires Good(inp, e)
    ensures Good(inp, r) && r.queue == [] && r.cells == map[]
    decreases Potential(e.queue, inp.numAlt, NumChr(inp.gls))
  {
    if e.queue == [] then e
    else
      StepDecreases(Sched(e.queue, e.done), inp.numAlt, NumChr(inp.gls), StepPruned(inp, e));
      Run(inp, ExecStep(inp, e))
  }

  /** A run from a non-empty queue is one iteration followed by the run
      from there, which starts with a lower potential. */
  lemma RunStep(inp: Input, e: Exec)
    requires Good(inp, e) && e.queue != []
    ensures Run(inp, e) == Run(inp, ExecStep(inp, e))
    ensures Potential(ExecStep(inp, e).queue, inp.numAlt, NumChr(inp.gls)) < Potential(e.queue, inp.numAlt, NumChr(inp.gls))
  {
    StepDecreases(Sched(e.queue, e.done), inp.numAlt, NumChr(inp.gls), StepPruned(inp, e));
  }

  // ---------------------------------------------------------------------
  // What a run guarantees

  /** A run only adds: the tracker calls and the history of e are prefixes
      of those of the run from e. */
  lemma {:induction false} RunExtends(inp: Input, e: Exec)
    requires Good(inp, e)
    ensures e.events <= Run(inp, e).events && e.done <= Run(inp, e).done
    decreases Potential(e.queue, inp.numAlt, NumChr(inp.gls))
  {
    if e.queue != [] {
      StepDecreases(Sched(e.queue, e.done), inp.numAlt, NumChr(inp.gls), StepPruned(inp, e));
      RunExtends(inp, ExecStep(inp, e));
    }
  }

  /** The tracker never abandons a branch. */
  ghost predicate NeverPrunes(inp: Input)
  {
    forall events, x, counts :: !inp.abortPolicy(events, x, counts)
  }

  /** Without pruning, the run keeps the processing order of NoPruneInv and
      processes every conformation after all those it is a successor of. */
  lemma {:induction false} RunNoPrune(inp: Input, e: Exec)
    requires Good(inp, e) && NeverPrunes(inp)
    requires NoPruneInv(Sched(e.queue, e.done), inp.numAlt, NumChr(inp.gls))
    requires PredecessorsFirst(e.done, inp.numAlt, NumChr(inp.gls))
    ensures var r := Run(inp, e);
      && NoPruneInv(Sched(r.queue, r.done), inp.numAlt, NumChr(inp.gls))
      && PredecessorsFirst(r.done, inp.numAlt, NumChr(inp.gls))
    decreases Potential(e.queue, inp.numAlt, NumChr(inp.gls))
  {
    if e.queue != [] {
      var st := Sched(e.queue, e.done);
      assert !StepPruned(inp, e);
      StepDecreases(st, inp.numAlt, NumChr(inp.gls), false);
      StepNoPrune(st, inp.numAlt, NumChr(inp.gls));
      StepPredecessorsFirst(st, inp.numAlt, NumChr(inp.gls));
      RunNoPrune(inp, ExecStep(inp, e));
    }
  }

  /** The first conformation processed is the zero one, and the first calls
      the tracker receives report the likelihood that no sample carries an
      alternate allele (the sum over samples of the homozygous-reference
      likelihoods), then that plus the prior of allele count 0. */
  lemma RunStartsWithZero(inp: Input, events0: seq<TrackerEvent>) returns (r: Exec, lof0: real)
    requires ValidInput(inp)
    ensures r == Run(inp, Start(inp, events0))
    ensures lof0 == HomRefSum(inp.gls, |inp.gls| - 1)
    ensures |r.done| >= 1 && r.done[0] == Zero(inp.numAlt)
    ensures |r.events| >= |events0| + 2
    ensures r.events[|events0|..|events0| + 2] == [LikelihoodOfAFzero(lof0), PosteriorOfAFzero(lof0 + inp.priors[0])]
  {
    var s := Start(inp, events0);
    var e1;
    e1, lof0 := FirstStep(inp, events0);
    RunStep(inp, s);
    r := Run(inp, e1);
    RunExtends(inp, e1);
    PrefixSlice(e1.events, r.events, |events0|, |events0| + 2);
    PrefixSlice(e1.done, r.done, 0, 1);
    AppendSlice(events0, [LikelihoodOfAFzero(lof0), PosteriorOfAFzero(lof0 + inp.priors[0])]);
  }

  lemma AppendSlice<T>(a: seq<T>, b: seq<T>)
    ensures (a + b)[|a|..|a| + |b|] == b
  {
  }

  /** A slice within a prefix is the same slice of the whole. */
  lemma PrefixSlice<T>(a: seq<T>, b: seq<T>, lo: nat, hi: nat)
    requires a <= b && lo < hi <= |a|
    ensures |b| >= hi && b[lo..hi] == a[lo..hi] && b[lo] == a[lo]
  {
    assert a == b[..|a|];
  }

  /** The first iteration processes the zero conformation and reports its
      likelihood and posterior. */
  lemma FirstStep(inp: Input, events0: seq<TrackerEvent>) returns (e1: Exec, lof0: real)
    requires ValidInput(inp)
    ensures e1 == ExecStep(inp, Start(inp, events0))
    ensures lof0 == HomRefSum(inp.gls, |inp.gls| - 1)
    ensures e1.done == [Zero(inp.numAlt)]
    ensures e1.events == events0 + [LikelihoodOfAFzero(lof0), PosteriorOfAFzero(lof0 + inp.priors[0])]
  {
    var s := Start(inp, events0);
    var z := Zero(inp.numAlt);
    var lofk := Completed(inp, s.cells, z);
    lof0 := HomRefSum(inp.gls, |inp.gls| - 1);
    LofKZeroIsHomRefSum(inp.num, inp.gls, s.cells[z], |inp.gls| - 1);
    assert lofk[|lofk| - 1] == lof0;
    var evs := LofKEvents(lofk, z, inp.priors);
    assert evs == [LikelihoodOfAFzero(lof0), PosteriorOfAFzero(lof0 + inp.priors[0])];
    e1 := ExecStep(inp, s);
    assert e1.events == events0 + evs;
  }

  /** Without pruning, the run processes every conformation of numChr
      chromosomes over numAlt alternate alleles, each once, in order of
      total count, and each after every conformation it is a successor of. */
  lemma RunComplete(inp: Input, events0: seq<TrackerEvent>)
    requires ValidInput(inp) && NeverPrunes(inp)
    ensures var d := Run(inp, Start(inp, events0)).done;
      && (forall w :: WellFormed(w, inp.numAlt, NumChr(inp.gls)) ==> w in d)
      && Distinct(d) && SortedBySum(d)
      && PredecessorsFirst(d, inp.numAlt, NumChr(inp.gls))
  {
    var s := Start(inp, events0);
    InitialNoPruneInv(inp.numAlt, NumChr(inp.gls));
    RunNoPrune(inp, s);
    var r, _ := RunStartsWithZero(inp, events0);
    forall w | WellFormed(w, inp.numAlt, NumChr(inp.gls))
      ensures w in r.done
    {
      AllProcessed(Sched(r.queue, r.done), inp.numAlt, NumChr(inp.gls), w);
    }
  }
}
