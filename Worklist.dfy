/** The worklist discipline of the exact model, on values: a FIFO queue of
    allele-count vectors, a cache keyed by vector whose keys are exactly the
    queued vectors (plus the one being processed), and the history of
    processed vectors.  The imperative calculator is proved to follow these
    steps; the properties of the discipline (well-formed vectors, no
    duplicates in the queue, termination, and, when no branch is pruned,
    processing order and completeness) are proved here once. */
module Worklist {
  import opened GenotypeIndex
  import opened Conformations
  import opened SuccessorLaws

  /** The all-zero vector the computation starts from. */
  function Zero(n: nat): (z: seq<int>)
    ensures |z| == n && Sum(z) == 0
    ensures forall k :: 0 <= k < n ==> z[k] == 0
  {
    if n == 0 then [] else [0] + Zero(n - 1)
  }

  ghost predicate Distinct(q: seq<seq<int>>)
  {
    forall i, j :: 0 <= i < j < |q| ==> q[i] != q[j]
  }

  ghost predicate SortedBySum(q: seq<seq<int>>)
  {
    forall i, j :: 0 <= i < j < |q| ==> Sum(q[i]) <= Sum(q[j])
  }

  /** Hands the targets ts to the cache one by one: a target that is not
      cached yet (not queued, and not the vector cur being processed, which
      stays cached until it is finished) is appended to the queue. */
  function EnqueueAll(q: seq<seq<int>>, cur: seq<int>, ts: seq<seq<int>>): seq<seq<int>>
  {
    if ts == [] then q
    else
      var q' := EnqueueAll(q, cur, ts[..|ts| - 1]);
      var t := ts[|ts| - 1];
      if t in q' || t == cur then q' else q' + [t]
  }

  /** The queue only grows at its end; what is added is, in order, each
      target not already present; a target is present afterwards unless it
      is the vector being processed. */
  lemma {:induction false} EnqueueAllShape(q: seq<seq<int>>, cur: seq<int>, ts: seq<seq<int>>)
    ensures var r := EnqueueAll(q, cur, ts);
      && |q| <= |r| <= |q| + |ts|
      && r[..|q|] == q
      && (forall i :: |q| <= i < |r| ==> r[i] in ts && r[i] != cur && r[i] !in q)
      && (forall t :: t in ts && t != cur ==> t in r)
      && (forall x :: x in r ==> x in q || x in ts)
  {
    if ts != [] {
      EnqueueAllShape(q, cur, ts[..|ts| - 1]);
    }
  }

  lemma {:induction false} EnqueueAllDistinct(q: seq<seq<int>>, cur: seq<int>, ts: seq<seq<int>>)
    requires Distinct(q) && cur !in q
    ensures Distinct(EnqueueAll(q, cur, ts)) && cur !in EnqueueAll(q, cur, ts)
  {
    if ts != [] {
      EnqueueAllDistinct(q, cur, ts[..|ts| - 1]);
    }
  }

  /** Handing over a + b is handing over a, then b. */
  lemma {:induction false} EnqueueAllAppend(q: seq<seq<int>>, cur: seq<int>, a: seq<seq<int>>, b: seq<seq<int>>)
    ensures EnqueueAll(q, cur, a + b) == EnqueueAll(EnqueueAll(q, cur, a), cur, b)
  {
    if b == [] {
      assert a + b == a;
    } else {
      assert (a + b)[..|a + b| - 1] == a + b[..|b| - 1];
      EnqueueAllAppend(q, cur, a, b[..|b| - 1]);
    }
  }

  /** Targets handed over in non-decreasing total are appended in
      non-decreasing total. */
  lemma {:induction false} EnqueueAllSorted(q: seq<seq<int>>, cur: seq<int>, ts: seq<seq<int>>)
    requires SortedBySum(ts)
    ensures var r := EnqueueAll(q, cur, ts);
      forall i, j :: |q| <= i < j < |r| ==> Sum(r[i]) <= Sum(r[j])
  {
    if ts != [] {
      var ts' := ts[..|ts| - 1];
      EnqueueAllSorted(q, cur, ts');
      EnqueueAllShape(q, cur, ts');
    }
  }

  // ---------------------------------------------------------------------
  // Successor vectors, on the level of the worklist

  lemma SuccessorTargets(v: seq<int>, numAlt: nat, numChr: nat)
    requires WellFormed(v, numAlt, numChr)
    ensures var ts := Targets(Successors(v, numChr));
      && (forall k :: 0 <= k < |ts| ==> WellFormed(ts[k], numAlt, numChr))
      && (forall k :: 0 <= k < |ts| ==> Sum(v) < Sum(ts[k]) <= Sum(v) + 2)
      && SortedBySum(ts)
      && |ts| <= MaxSuccessors(numAlt)
  {
    var ts := Targets(Successors(v, numChr));
    forall k | 0 <= k < |ts|
      ensures WellFormed(ts[k], numAlt, numChr)
      ensures Sum(ts[k]) == Sum(v) + (if k < |v| then 1 else 2)
    {
      TargetAt(v, numAlt, numChr, k);
    }
    if ts != [] {
      SuccessorIndex(v, numChr, 0);
    }
  }

  /** The k-th successor vector is well-formed and has one copy more than v
      among the "+1" ones, two copies more after them. */
  lemma TargetAt(v: seq<int>, numAlt: nat, numChr: nat, k: nat)
    requires WellFormed(v, numAlt, numChr) && k < |Successors(v, numChr)|
    ensures var w := Successors(v, numChr)[k].counts;
      WellFormed(w, numAlt, numChr) && Sum(w) == Sum(v) + (if k < |v| then 1 else 2)
  {
    var d := Successors(v, numChr)[k];
    SuccessorMeans(v, numChr, k);
    var pr := AllelePair(d.plIndex);
    AddGenotypeWellFormed(v, pr, numAlt, numChr);
  }

  /** The most successors one vector can have. */
  function MaxSuccessors(numAlt: nat): nat
  {
    2 * numAlt + |DiffPairs(numAlt)|
  }

  // ---------------------------------------------------------------------
  // The abstract state and one iteration of the loop

  /** The queued vectors, in order, and the processed ones, in order. */
  datatype Sched = Sched(queue: seq<seq<int>>, done: seq<seq<int>>)

  function Initial(numAlt: nat): Sched
  {
    Sched([Zero(numAlt)], [])
  }

  /** One iteration: pop the head, generate its successors unless the
      tracker aborted this branch, hand them to the cache, evict the head. */
  function Step(st: Sched, numChr: nat, aborted: bool): Sched
    requires st.queue != []
  {
    var v := st.queue[0];
    var ts := if aborted then [] else Targets(Successors(v, numChr));
    Sched(EnqueueAll(st.queue[1..], v, ts), st.done + [v])
  }

  /** What holds of every reachable state, pruned or not. */
  ghost predicate Inv(st: Sched, numAlt: nat, numChr: nat)
  {
    && (forall i :: 0 <= i < |st.queue| ==> WellFormed(st.queue[i], numAlt, numChr))
    && Distinct(st.queue)
  }

  lemma InitialInv(numAlt: nat, numChr: nat)
    ensures Inv(Initial(numAlt), numAlt, numChr)
  {
  }

  lemma StepInv(st: Sched, numAlt: nat, numChr: nat, aborted: bool)
    requires Inv(st, numAlt, numChr) && st.queue != []
    ensures Inv(Step(st, numChr, aborted), numAlt, numChr)
  {
    var v := st.queue[0];
    var rest := st.queue[1..];
    var ts := if aborted then [] else Targets(Successors(v, numChr));
    SuccessorTargets(v, numAlt, numChr);
    EnqueueAllShape(rest, v, ts);
    assert v !in rest;
    EnqueueAllDistinct(rest, v, ts);
    var r := EnqueueAll(rest, v, ts);
    forall i | 0 <= i < |r|
      ensures WellFormed(r[i], numAlt, numChr)
    {
      if i < |rest| {
        assert r[i] == rest[i] == st.queue[i + 1];
      } else {
        assert r[i] in ts;
      }
    }
  }

  // ---------------------------------------------------------------------
  // Termination: a potential that every step decreases

  function Pow(b: nat, e: nat): (r: nat)
    ensures b >= 1 ==> r >= 1
  {
    if e == 0 then 1 else b * Pow(b, e - 1)
  }

  lemma {:induction false} PowMonotone(b: nat, e1: nat, e2: nat)
    requires b >= 1 && e1 <= e2
    ensures Pow(b, e1) <= Pow(b, e2)
  {
    if e1 < e2 {
      PowMonotone(b, e1, e2 - 1);
    }
  }

  /** Weight of a queued vector: exponential in the chromosomes it leaves. */
  function Weight(v: seq<int>, numAlt: nat, numChr: nat): nat
  {
    Pow(MaxSuccessors(numAlt) + 1, if Sum(v) <= numChr then numChr - Sum(v) else 0)
  }

  function Potential(q: seq<seq<int>>, numAlt: nat, numChr: nat): nat
  {
    if q == [] then 0 else Potential(q[..|q| - 1], numAlt, numChr) + Weight(q[|q| - 1], numAlt, numChr)
  }

  lemma {:induction false} PotentialConcat(a: seq<seq<int>>, b: seq<seq<int>>, numAlt: nat, numChr: nat)
    ensures Potential(a + b, numAlt, numChr) == Potential(a, numAlt, numChr) + Potential(b, numAlt, numChr)
  {
    if b == [] {
      assert a + b == a;
    } else {
      assert (a + b)[..|a + b| - 1] == a + b[..|b| - 1];
      PotentialConcat(a, b[..|b| - 1], numAlt, numChr);
    }
  }

  lemma {:induction false} PotentialBound(s: seq<seq<int>>, numAlt: nat, numChr: nat, w: nat)
    requires forall k :: 0 <= k < |s| ==> Weight(s[k], numAlt, numChr) <= w
    ensures Potential(s, numAlt, numChr) <= |s| * w
  {
    if s != [] {
      var n := |s| - 1;
      PotentialBound(s[..n], numAlt, numChr, w);
      assert Potential(s, numAlt, numChr) <= n * w + w;
      assert n * w + w == |s| * w;
    }
  }

  lemma MulStrict(n: nat, b: nat, x: nat)
    requires n < b && x >= 1
    ensures n * x < b * x
  {
  }

  /** What one vector can add to the queue weighs less than the vector. */
  lemma AddedLighter(v: seq<int>, added: seq<seq<int>>, numAlt: nat, numChr: nat)
    requires Sum(v) < numChr
    requires |added| <= MaxSuccessors(numAlt)
    requires forall k :: 0 <= k < |added| ==> Sum(v) < Sum(added[k]) <= numChr
    ensures Potential(added, numAlt, numChr) < Weight(v, numAlt, numChr)
  {
    var b := MaxSuccessors(numAlt) + 1;
    var room := numChr - Sum(v);
    var x := Pow(b, room - 1);
    forall k | 0 <= k < |added|
      ensures Weight(added[k], numAlt, numChr) <= x
    {
      PowMonotone(b, numChr - Sum(added[k]), room - 1);
    }
    PotentialBound(added, numAlt, numChr, x);
    MulStrict(|added|, b, x);
    assert Weight(v, numAlt, numChr) == b * x;
  }

  /** Every iteration strictly decreases the potential: the popped vector
      weighs more than all the successors it can add, since each of them
      leaves at least one chromosome fewer.  Hence the loop terminates even
      when pruning lets a vector be created again after its eviction. */
  lemma StepDecreases(st: Sched, numAlt: nat, numChr: nat, aborted: bool)
    requires Inv(st, numAlt, numChr) && st.queue != []
    ensures Potential(Step(st, numChr, aborted).queue, numAlt, numChr) < Potential(st.queue, numAlt, numChr)
  {
    var v := st.queue[0];
    var rest := st.queue[1..];
    var ts := if aborted then [] else Targets(Successors(v, numChr));
    TargetsAbove(v, numAlt, numChr, ts, aborted);
    var added := AddedWithin(rest, v, ts, numChr);
    assert st.queue == [v] + rest;
    PotentialConcat([v], rest, numAlt, numChr);
    PotentialConcat(rest, added, numAlt, numChr);
    PotentialSingle(v, numAlt, numChr);
    if added != [] {
      AddedLighter(v, added, numAlt, numChr);
    }
  }

  lemma PotentialSingle(v: seq<int>, numAlt: nat, numChr: nat)
    ensures Potential([v], numAlt, numChr) == Weight(v, numAlt, numChr)
  {
    assert [v][..0] == [];
  }

  /** The targets a step hands over lie strictly above v and within numChr. */
  lemma TargetsAbove(v: seq<int>, numAlt: nat, numChr: nat, ts: seq<seq<int>>, aborted: bool)
    requires WellFormed(v, numAlt, numChr)
    requires ts == if aborted then [] else Targets(Successors(v, numChr))
    ensures |ts| <= MaxSuccessors(numAlt)
    ensures forall t :: t in ts ==> Sum(v) < Sum(t) <= numChr
  {
    SuccessorTargets(v, numAlt, numChr);
  }

  /** What handing ts over appends to q, and that it comes from ts. */
  lemma AddedWithin(q: seq<seq<int>>, cur: seq<int>, ts: seq<seq<int>>, numChr: nat) returns (added: seq<seq<int>>)
    requires forall t :: t in ts ==> Sum(cur) < Sum(t) <= numChr
    ensures EnqueueAll(q, cur, ts) == q + added && |added| <= |ts|
    ensures forall k :: 0 <= k < |added| ==> Sum(cur) < Sum(added[k]) <= numChr
  {
    var r := EnqueueAll(q, cur, ts);
    EnqueueAllShape(q, cur, ts);
    added := r[|q|..];
    assert r == q + added;
    forall k | 0 <= k < |added|
      ensures Sum(cur) < Sum(added[k]) <= numChr
    {
      assert added[k] == r[|q| + k];
    }
  }

  // ---------------------------------------------------------------------
  // Processing order when no branch is pruned

  /** What holds of every state reached without pruning: the queue and the
      processing history are both ordered by total count, nothing is
      processed twice, every vector processed so far has had its successors
      handed to the cache, and every vector with a smaller total than the
      head of the queue has already been processed. */
  ghost predicate NoPruneInv(st: Sched, numAlt: nat, numChr: nat)
  {
    && Inv(st, numAlt, numChr)
    && SortedBySum(st.queue)
    && (forall i :: 0 <= i < |st.queue| ==> Sum(st.queue[i]) <= Sum(st.queue[0]) + 2)
    && (forall i :: 0 <= i < |st.done| ==> WellFormed(st.done[i], numAlt, numChr))
    && Distinct(st.done)
    && SortedBySum(st.done)
    && (forall i, j :: 0 <= i < |st.done| && 0 <= j < |st.queue| ==> Sum(st.done[i]) <= Sum(st.queue[j]))
    && (forall u :: u in st.done ==> u !in st.queue)
    && (forall u, t :: u in st.done && t in Targets(Successors(u, numChr)) ==> t in st.queue || t in st.done)
    && (st.queue != [] ==> forall w :: WellFormed(w, numAlt, numChr) && Sum(w) < Sum(st.queue[0]) ==> w in st.done)
    && (st.done == [] ==> st.queue == [Zero(numAlt)])
    && (st.done != [] ==> Zero(numAlt) in st.done)
  }

  lemma InitialNoPruneInv(numAlt: nat, numChr: nat)
    ensures NoPruneInv(Initial(numAlt), numAlt, numChr)
  {
    forall w | WellFormed(w, numAlt, numChr)
      ensures Sum(w) >= 0
    {
      SumNonNegative(w);
    }
  }

  /** The only well-formed vector with total zero is the zero vector. */
  lemma ZeroUnique(w: seq<int>, numAlt: nat, numChr: nat)
    requires WellFormed(w, numAlt, numChr) && Sum(w) == 0
    ensures w == Zero(numAlt)
  {
    forall k | 0 <= k < |w|
      ensures w[k] == 0
    {
      EntryAtMostSum(w, k);
    }
  }

  lemma {:induction false} FindPositive(w: seq<int>) returns (a: nat)
    requires forall k :: 0 <= k < |w| ==> w[k] >= 0
    requires Sum(w) >= 1
    ensures a < |w| && w[a] >= 1
  {
    if w[0] >= 1 {
      a := 0;
    } else {
      var b := FindPositive(w[1..]);
      a := b + 1;
    }
  }

  /** The vector with allele a counted once less. */
  function Dec(w: seq<int>, a: nat): seq<int>
    requires a < |w|
  {
    w[a := w[a] - 1]
  }

  /** Every vector other than zero is a "+1" successor of a well-formed
      vector with one copy fewer. */
  lemma PredecessorByOne(w: seq<int>, numAlt: nat, numChr: nat) returns (u: seq<int>)
    requires WellFormed(w, numAlt, numChr) && Sum(w) >= 1
    ensures WellFormed(u, numAlt, numChr) && Sum(u) == Sum(w) - 1
    ensures w in Targets(Successors(u, numChr))
  {
    var a := FindPositive(w);
    DecWellFormed(w, a, numAlt, numChr);
    u := Dec(w, a);
    var s := Successors(u, numChr);
    SuccessorsParts(u, numChr);
    assert s[a] == PlusOne(u)[a];
    assert Targets(s)[a] == w;
  }

  /** Removing one copy of a present allele keeps a vector well-formed. */
  lemma DecWellFormed(w: seq<int>, a: nat, numAlt: nat, numChr: nat)
    requires WellFormed(w, numAlt, numChr) && a < |w| && w[a] >= 1
    ensures WellFormed(Dec(w, a), numAlt, numChr) && Sum(Dec(w, a)) == Sum(w) - 1
    ensures Inc(Dec(w, a), a) == w
  {
    assert Inc(Dec(w, a), a) == w;
    SumInc(Dec(w, a), a);
  }

  lemma IncCommutes(u: seq<int>, a: nat, b: nat)
    requires a < |u| && b < |u|
    ensures Inc(Inc(u, a), b) == Inc(Inc(u, b), a)
  {
  }

  /** Every vector with a total of at least two is a "+2" successor of a
      well-formed vector with two copies fewer. */
  lemma PredecessorByTwo(w: seq<int>, numAlt: nat, numChr: nat) returns (u: seq<int>)
    requires WellFormed(w, numAlt, numChr) && Sum(w) >= 2
    ensures WellFormed(u, numAlt, numChr) && Sum(u) == Sum(w) - 2
    ensures w in Targets(Successors(u, numChr))
  {
    var a := FindPositive(w);
    DecWellFormed(w, a, numAlt, numChr);
    var u1 := Dec(w, a);
    var b := FindPositive(u1);
    DecWellFormed(u1, b, numAlt, numChr);
    u := Dec(u1, b);
    var i, j := if a <= b then a else b, if a <= b then b else a;
    assert Inc(Inc(u, b), a) == w;
    IncCommutes(u, a, b);
    assert Inc(Inc(u, i), j) == w;
    PlusTwoTarget(u, i, j, numAlt, numChr);
  }

  /** A vector two copies short of numChr has every "+2" vector as a target. */
  lemma PlusTwoTarget(u: seq<int>, i: nat, j: nat, numAlt: nat, numChr: nat)
    requires WellFormed(u, numAlt, numChr) && i <= j < |u| && Sum(u) + 2 <= numChr
    ensures Inc(Inc(u, i), j) in Targets(Successors(u, numChr))
  {
    SuccessorsParts(u, numChr);
    TargetsAppend(PlusOne(u), DifferentAlleles(u) + SameAlleles(u));
    TargetsAppend(DifferentAlleles(u), SameAlleles(u));
    if i == j {
      SameTarget(u, i);
    } else {
      var k := DiffTarget(u, i, j);
    }
  }

  lemma SameTarget(u: seq<int>, i: nat)
    requires i < |u|
    ensures Inc(Inc(u, i), i) in Targets(SameAlleles(u))
  {
    assert Targets(SameAlleles(u))[i] == PlusTwoOf(u, (i, i)).counts;
  }

  lemma DiffTarget(u: seq<int>, i: nat, j: nat) returns (k: nat)
    requires i < j < |u|
    ensures k < |DifferentAlleles(u)| && Targets(DifferentAlleles(u))[k] == Inc(Inc(u, i), j)
    ensures Inc(Inc(u, i), j) in Targets(DifferentAlleles(u))
  {
    DiffPairsMembers(|u|);
    k :| 0 <= k < |DiffPairs(|u|)| && DiffPairs(|u|)[k] == (i, j);
    assert Targets(DifferentAlleles(u))[k] == PlusTwoOf(u, (i, j)).counts;
  }

  /** Without pruning, once the head of the queue has total K >= 1, every
      vector with total up to K + 1 has been created: it is queued or done. */
  lemma Covered(st: Sched, numAlt: nat, numChr: nat, w: seq<int>)
    requires NoPruneInv(st, numAlt, numChr) && st.queue != [] && Sum(st.queue[0]) >= 1
    requires WellFormed(w, numAlt, numChr) && Sum(w) <= Sum(st.queue[0]) + 1
    ensures w in st.queue || w in st.done
  {
    var k := Sum(st.queue[0]);
    if Sum(w) < k {
    } else if Sum(w) == k {
      var u := PredecessorByOne(w, numAlt, numChr);
    } else {
      var u := PredecessorByTwo(w, numAlt, numChr);
    }
  }

  /** Without pruning, the head has total 0 only in the initial state. */
  lemma HeadZeroIsInitial(st: Sched, numAlt: nat, numChr: nat)
    requires NoPruneInv(st, numAlt, numChr) && st.queue != [] && Sum(st.queue[0]) == 0
    ensures st.done == [] && st.queue == [Zero(numAlt)]
  {
    ZeroUnique(st.queue[0], numAlt, numChr);
  }

  /** Without pruning, a vector past the first appends only "+2" targets:
      its "+1" targets are already queued. */
  lemma AppendedAreNew(st: Sched, numAlt: nat, numChr: nat)
    requires NoPruneInv(st, numAlt, numChr) && st.queue != []
    ensures var v := st.queue[0];
      var rest := st.queue[1..];
      var r := EnqueueAll(rest, v, Targets(Successors(v, numChr)));
      && (Sum(v) == 0 ==> rest == [])
      && (forall i :: |rest| <= i < |r| ==> Sum(v) < Sum(r[i]) <= Sum(v) + 2)
      && (Sum(v) >= 1 ==> forall i :: |rest| <= i < |r| ==> Sum(r[i]) == Sum(v) + 2)
  {
    var v := st.queue[0];
    var rest := st.queue[1..];
    var ts := Targets(Successors(v, numChr));
    var r := EnqueueAll(rest, v, ts);
    SuccessorTargets(v, numAlt, numChr);
    EnqueueAllShape(rest, v, ts);
    if Sum(v) == 0 {
      HeadZeroIsInitial(st, numAlt, numChr);
    }
    if Sum(v) >= 1 {
      PlusOneTargetsQueued(st, numAlt, numChr);
    }
    forall i | |rest| <= i < |r|
      ensures Sum(v) < Sum(r[i]) <= Sum(v) + 2
    {
      assert r[i] in ts;
    }
  }

  /** Without pruning, the targets with one copy more than a head of total
      at least 1 are already queued behind it. */
  lemma PlusOneTargetsQueued(st: Sched, numAlt: nat, numChr: nat)
    requires NoPruneInv(st, numAlt, numChr) && st.queue != [] && Sum(st.queue[0]) >= 1
    ensures var v := st.queue[0];
      forall t :: t in Targets(Successors(v, numChr)) && Sum(t) == Sum(v) + 1 ==> t in st.queue[1..]
  {
    var v := st.queue[0];
    SuccessorTargets(v, numAlt, numChr);
    forall t | t in Targets(Successors(v, numChr)) && Sum(t) == Sum(v) + 1
      ensures t in st.queue[1..]
    {
      Covered(st, numAlt, numChr, t);
      forall d | 0 <= d < |st.done|
        ensures st.done[d] != t
      {
        assert Sum(st.done[d]) <= Sum(st.queue[0]);
      }
      var q :| 0 <= q < |st.queue| && st.queue[q] == t;
      assert q != 0;
      assert st.queue[1..][q - 1] == t;
    }
  }

  /** The queue after a step without pruning is ordered, its spread stays
      within two, and its head is not below the popped vector. */
  lemma StepQueueOrdered(st: Sched, numAlt: nat, numChr: nat)
    requires NoPruneInv(st, numAlt, numChr) && st.queue != []
    ensures var v := st.queue[0];
      var r := Step(st, numChr, false).queue;
      && SortedBySum(r)
      && (forall i :: 0 <= i < |r| ==> Sum(v) <= Sum(r[i]) <= Sum(v) + 2)
      && (forall i :: 0 <= i < |r| ==> Sum(r[i]) <= Sum(r[0]) + 2)
  {
    var v := st.queue[0];
    var rest := st.queue[1..];
    var ts := Targets(Successors(v, numChr));
    var r := EnqueueAll(rest, v, ts);
    SuccessorTargets(v, numAlt, numChr);
    EnqueueAllShape(rest, v, ts);
    EnqueueAllSorted(rest, v, ts);
    AppendedAreNew(st, numAlt, numChr);
    forall i | 0 <= i < |r|
      ensures Sum(v) <= Sum(r[i]) <= Sum(v) + 2
    {
      if i < |rest| {
        assert r[i] == st.queue[i + 1];
      }
    }
    forall i, j | 0 <= i < j < |r|
      ensures Sum(r[i]) <= Sum(r[j])
    {
      if j < |rest| {
        assert r[i] == st.queue[i + 1] && r[j] == st.queue[j + 1];
      }
    }
  }

  /** Without pruning every step keeps NoPruneInv.  Moreover the vector it
      processes has not been processed before, and every vector it is a
      successor of has been processed already, so it has received every push
      it can receive before its own turn. */
  lemma StepNoPrune(st: Sched, numAlt: nat, numChr: nat)
    requires NoPruneInv(st, numAlt, numChr) && st.queue != []
    ensures NoPruneInv(Step(st, numChr, false), numAlt, numChr)
    ensures st.queue[0] !in st.done
    ensures forall u :: WellFormed(u, numAlt, numChr) && st.queue[0] in Targets(Successors(u, numChr)) ==> u in st.done
  {
    var v := st.queue[0];
    var st' := Step(st, numChr, false);
    StepInv(st, numAlt, numChr, false);
    StepQueueOrdered(st, numAlt, numChr);
    StepHistory(st, numAlt, numChr);
    StepHistoryBelowQueue(st, numAlt, numChr);
    StepClosure(st, numAlt, numChr);
    if st'.queue != [] {
      forall w | WellFormed(w, numAlt, numChr) && Sum(w) < Sum(st'.queue[0])
        ensures w in st'.done
      {
        BelowNewHead(st, numAlt, numChr, w);
      }
    }
    forall u | WellFormed(u, numAlt, numChr) && v in Targets(Successors(u, numChr))
      ensures u in st.done
    {
      SuccessorTargets(u, numAlt, numChr);
    }
  }

  /** The processing history after a step without pruning stays
      well-formed, duplicate-free and ordered by total. */
  lemma StepHistory(st: Sched, numAlt: nat, numChr: nat)
    requires NoPruneInv(st, numAlt, numChr) && st.queue != []
    ensures var st' := Step(st, numChr, false);
      && (forall i :: 0 <= i < |st'.done| ==> WellFormed(st'.done[i], numAlt, numChr))
      && Distinct(st'.done)
      && SortedBySum(st'.done)
      && st'.done != [] && Zero(numAlt) in st'.done
  {
    var v := st.queue[0];
    var done' := st.done + [v];
    assert Step(st, numChr, false).done == done';
    assert v !in st.done;
    forall i | 0 <= i < |st.done|
      ensures Sum(st.done[i]) <= Sum(v)
    {
    }
    forall i, j | 0 <= i < j < |done'|
      ensures done'[i] != done'[j] && Sum(done'[i]) <= Sum(done'[j])
    {
      if j < |st.done| {
        assert done'[i] == st.done[i] && done'[j] == st.done[j];
      }
    }
    if st.done == [] {
      assert v == Zero(numAlt);
    }
  }

  /** After a step without pruning the history stays below, and apart
      from, the queue. */
  lemma StepHistoryBelowQueue(st: Sched, numAlt: nat, numChr: nat)
    requires NoPruneInv(st, numAlt, numChr) && st.queue != []
    ensures var st' := Step(st, numChr, false);
      && (forall i, j :: 0 <= i < |st'.done| && 0 <= j < |st'.queue| ==> Sum(st'.done[i]) <= Sum(st'.queue[j]))
      && (forall u :: u in st'.done ==> u !in st'.queue)
  {
    var v := st.queue[0];
    var rest := st.queue[1..];
    var ts := Targets(Successors(v, numChr));
    var r := EnqueueAll(rest, v, ts);
    var done' := st.done + [v];
    assert Step(st, numChr, false) == Sched(r, done');
    StepQueueOrdered(st, numAlt, numChr);
    AppendedAreNew(st, numAlt, numChr);
    EnqueueAllShape(rest, v, ts);
    EnqueueAllDistinct(rest, v, ts);
    forall i | 0 <= i < |done'|
      ensures Sum(done'[i]) <= Sum(v)
    {
      if i < |st.done| {
        assert done'[i] == st.done[i];
      }
    }
    forall u | u in st.done
      ensures u !in r
    {
      var d :| 0 <= d < |st.done| && st.done[d] == u;
      assert Sum(u) <= Sum(v);
      assert u !in rest;
    }
  }

  /** After a step without pruning, the successors of every processed
      vector are queued or processed. */
  lemma StepClosure(st: Sched, numAlt: nat, numChr: nat)
    requires NoPruneInv(st, numAlt, numChr) && st.queue != []
    ensures var st' := Step(st, numChr, false);
      forall u, t :: u in st'.done && t in Targets(Successors(u, numChr)) ==> t in st'.queue || t in st'.done
  {
    var v := st.queue[0];
    var rest := st.queue[1..];
    var ts := Targets(Successors(v, numChr));
    var r := EnqueueAll(rest, v, ts);
    var done' := st.done + [v];
    EnqueueAllShape(rest, v, ts);
    forall u, t | u in done' && t in Targets(Successors(u, numChr))
      ensures t in r || t in done'
    {
      if u == v {
      } else {
        assert t in st.queue || t in st.done;
        if t in st.queue && t != v {
          var q :| 0 <= q < |st.queue| && st.queue[q] == t;
          assert rest[q - 1] == t;
          assert r[q - 1] == t;
        }
      }
    }
  }

  /** A vector below the head after a step is processed by then. */
  lemma BelowNewHead(st: Sched, numAlt: nat, numChr: nat, w: seq<int>)
    requires NoPruneInv(st, numAlt, numChr) && st.queue != []
    requires Step(st, numChr, false).queue != []
    requires WellFormed(w, numAlt, numChr) && Sum(w) < Sum(Step(st, numChr, false).queue[0])
    ensures w in Step(st, numChr, false).done
  {
    var v := st.queue[0];
    var rest := st.queue[1..];
    var ts := Targets(Successors(v, numChr));
    var r := EnqueueAll(rest, v, ts);
    StepQueueOrdered(st, numAlt, numChr);
    EnqueueAllShape(rest, v, ts);
    if Sum(w) < Sum(v) {
    } else if w == v {
    } else if Sum(v) == 0 {
      HeadZeroIsInitial(st, numAlt, numChr);
      SumNonNegative(w);
      if Sum(w) == 0 {
        ZeroUnique(w, numAlt, numChr);
      } else {
        var u := PredecessorByOne(w, numAlt, numChr);
        ZeroUnique(u, numAlt, numChr);
        assert w in r;
        NotQueuedBelowHead(r, w);
      }
    } else {
      Covered(st, numAlt, numChr, w);
      if w !in st.done {
        var q :| 0 <= q < |st.queue| && st.queue[q] == w;
        assert r[q - 1] == w;
        NotQueuedBelowHead(r, w);
      }
    }
  }

  lemma NotQueuedBelowHead(r: seq<seq<int>>, w: seq<int>)
    requires SortedBySum(r) && w in r
    ensures Sum(r[0]) <= Sum(w)
  {
  }

  /** Every processed vector was processed after every vector it is a
      successor of: it had received all its pushes before its own turn.
      This holds only when no branch is pruned (see StepPredecessorsFirst). */
  ghost predicate PredecessorsFirst(done: seq<seq<int>>, numAlt: nat, numChr: nat)
  {
    forall i, u :: 0 <= i < |done| && WellFormed(u, numAlt, numChr) && done[i] in Targets(Successors(u, numChr))
      ==> u in done[..i]
  }

  lemma StepPredecessorsFirst(st: Sched, numAlt: nat, numChr: nat)
    requires NoPruneInv(st, numAlt, numChr) && st.queue != []
    requires PredecessorsFirst(st.done, numAlt, numChr)
    ensures PredecessorsFirst(Step(st, numChr, false).done, numAlt, numChr)
  {
    var d := Step(st, numChr, false).done;
    assert d == st.done + [st.queue[0]];
    forall i, u | 0 <= i < |d| && WellFormed(u, numAlt, numChr) && d[i] in Targets(Successors(u, numChr))
      ensures u in d[..i]
    {
      if i < |st.done| {
        assert d[..i] == st.done[..i];
        assert d[i] == st.done[i];
      } else {
        assert d[..i] == st.done;
        HeadAfterPredecessors(st, numAlt, numChr, u);
      }
    }
  }

  /** Without pruning, every vector the head of the queue is a successor of
      has already been processed. */
  lemma HeadAfterPredecessors(st: Sched, numAlt: nat, numChr: nat, u: seq<int>)
    requires NoPruneInv(st, numAlt, numChr) && st.queue != []
    requires WellFormed(u, numAlt, numChr) && st.queue[0] in Targets(Successors(u, numChr))
    ensures u in st.done
  {
    var ts := Targets(Successors(u, numChr));
    SuccessorTargets(u, numAlt, numChr);
    var k :| 0 <= k < |ts| && ts[k] == st.queue[0];
    assert Sum(u) < Sum(st.queue[0]);
  }

  /** When the queue has run dry without pruning, every well-formed vector
      has been processed: the walk visits the whole space of conformations. */
  lemma {:induction false} AllProcessed(st: Sched, numAlt: nat, numChr: nat, w: seq<int>)
    requires NoPruneInv(st, numAlt, numChr) && st.queue == [] && st.done != []
    requires WellFormed(w, numAlt, numChr)
    ensures w in st.done
    decreases Sum(w)
  {
    SumNonNegative(w);
    if Sum(w) == 0 {
      ZeroUnique(w, numAlt, numChr);
    } else {
      var u := PredecessorByOne(w, numAlt, numChr);
      AllProcessed(st, numAlt, numChr, u);
    }
  }
}
