/** The values the exact model computes, as functions of what the
    calculator's arrays hold before each in-place update.  Log-space numbers
    are reals; the log table, the approximate log-sum and the fill value of a
    fresh cell array are supplied from outside as a Numerics value. */
module ExactModel {
  import opened GenotypeIndex
  import opened Conformations

  /** Log-space primitives the core calls but does not define: the cached
      logarithm of a non-negative integer (LogCache.get), the approximate
      log(exp(a) + exp(b)), and the value a freshly created cell holds. */
  datatype Numerics = Numerics(logOf: nat -> real, logSumLog: (real, real) -> real, unset: real)

  /** n copies of x: the cells of a freshly created conformation. */
  function Fill(n: nat, x: real): (r: seq<real>)
    ensures |r| == n && forall j :: 0 <= j < n ==> r[j] == x
  {
    seq(n, _ => x)
  }

  /** PL index of the homozygous-reference genotype. */
  const HomRefIndex: nat := 0

  /** Genotype likelihoods as the calculator receives them: entry 0 is a
      placeholder, entry j (1 <= j) holds sample j's log-likelihood for each
      genotype over the reference and numAlt alternate alleles. */
  ghost predicate ValidGLs(gls: seq<seq<real>>, numAlt: nat)
  {
    |gls| >= 1 && forall j :: 1 <= j < |gls| ==> |gls[j]| >= GenotypeCount(numAlt + 1)
  }

  /** The genotype behind pl is present in the counts: a ref/alt genotype
      needs one copy of its alternate allele, a homozygous alternate two
      copies, two different alternates one copy each. */
  predicate PairFits(pl: nat, counts: seq<int>)
  {
    var pr := AllelePair(pl);
    && 1 <= pr.1 <= |counts|
    && (if pr.0 == 0 then counts[pr.1 - 1] >= 1
        else if pr.0 == pr.1 then counts[pr.0 - 1] >= 2
        else counts[pr.0 - 1] >= 1 && counts[pr.1 - 1] >= 1)
  }

  /** The log of the closed-form number of ways a sample with the genotype
      at pl completes the target counts, among 2j chromosomes:
      ref/b: 2 k_b (2j - K); b/b: k_b (k_b - 1); b/c: 2 k_b k_c.  Every
      argument of logOf is a non-negative count, which the precondition
      guarantees. */
  function DetermineCoefficient(num: Numerics, pl: nat, j: nat, counts: seq<int>, totalK: int): real
    requires PairFits(pl, counts)
    requires totalK <= 2 * j
  {
    var pr := AllelePair(pl);
    if pr.0 == 0 then
      num.logOf(2 * counts[pr.1 - 1]) + num.logOf(2 * j - totalK)
    else
      var ki := counts[pr.0 - 1];
      if pr.0 == pr.1 then num.logOf(ki) + num.logOf(ki - 1)
      else num.logOf(2) + num.logOf(ki) + num.logOf(counts[pr.1 - 1])
  }

  // ---------------------------------------------------------------------
  // pushData

  /** Cell j of the target after one push from a generator: log-summed with
      the generator's cell j-1, the feeding genotype's likelihood for sample
      j and the coefficient, when the target's total fits in 2j chromosomes;
      untouched otherwise and at cell 0. */
  function Pushed(num: Numerics, gls: seq<seq<real>>, target: seq<real>, counts: seq<int>,
                  gen: seq<real>, pl: nat): (r: seq<real>)
    requires ValidGLs(gls, |counts|) && |target| == |gls| && |gen| == |gls|
    requires PairFits(pl, counts)
    ensures |r| == |target|
  {
    var totalK := Sum(counts);
    seq(|target|, j requires 0 <= j < |target| =>
      if 1 <= j && totalK <= 2 * j then
        num.logSumLog(target[j], DetermineCoefficient(num, pl, j, counts, totalK) + gen[j - 1] + gls[j][pl])
      else target[j])
  }

  /** A push changes no cell but those j in 1..numSamples with totalK <= 2j:
      cell 0 and every cell too small to hold the target's alleles keep
      their value. */
  lemma PushedFrame(num: Numerics, gls: seq<seq<real>>, target: seq<real>, counts: seq<int>,
                    gen: seq<real>, pl: nat)
    requires ValidGLs(gls, |counts|) && |target| == |gls| && |gen| == |gls|
    requires PairFits(pl, counts)
    ensures var r := Pushed(num, gls, target, counts, gen, pl);
      && r[0] == target[0]
      && (forall j :: 0 <= j < |r| && 2 * j < Sum(counts) ==> r[j] == target[j])
  {
  }

  /** Pushes from different generators into disjoint-in-effect cells
      commute when the log-sum is commutative and associative: the order in
      which a conformation's predecessors are processed does not matter for
      exact arithmetic. */
  lemma PushesCommute(num: Numerics, gls: seq<seq<real>>, target: seq<real>, counts: seq<int>,
                      gen1: seq<real>, pl1: nat, gen2: seq<real>, pl2: nat)
    requires ValidGLs(gls, |counts|) && |target| == |gls| && |gen1| == |gls| && |gen2| == |gls|
    requires PairFits(pl1, counts) && PairFits(pl2, counts)
    requires forall a, b :: num.logSumLog(a, b) == num.logSumLog(b, a)
    requires forall a, b, c :: num.logSumLog(num.logSumLog(a, b), c) == num.logSumLog(a, num.logSumLog(b, c))
    ensures Pushed(num, gls, Pushed(num, gls, target, counts, gen1, pl1), counts, gen2, pl2)
         == Pushed(num, gls, Pushed(num, gls, target, counts, gen2, pl2), counts, gen1, pl1)
  {
    var r12 := Pushed(num, gls, Pushed(num, gls, target, counts, gen1, pl1), counts, gen2, pl2);
    var r21 := Pushed(num, gls, Pushed(num, gls, target, counts, gen2, pl2), counts, gen1, pl1);
    var k := Sum(counts);
    forall j | 0 <= j < |target|
      ensures r12[j] == r21[j]
    {
      if 1 <= j && k <= 2 * j {
        var c1 := DetermineCoefficient(num, pl1, j, counts, k) + gen1[j - 1] + gls[j][pl1];
        var c2 := DetermineCoefficient(num, pl2, j, counts, k) + gen2[j - 1] + gls[j][pl2];
        SwapLastTwo(num.logSumLog, target[j], c1, c2);
      }
    }
  }

  lemma SwapLastTwo(f: (real, real) -> real, x: real, y: real, z: real)
    requires forall a, b :: f(a, b) == f(b, a)
    requires forall a, b, c :: f(f(a, b), c) == f(a, f(b, c))
    ensures f(f(x, y), z) == f(f(x, z), y)
  {
    calc {
      f(f(x, y), z);
      f(x, f(y, z));
      { assert f(y, z) == f(z, y); }
      f(x, f(z, y));
      f(f(x, z), y);
    }
  }

  /** The cells of every conformation after the generator's cells gen have
      been pushed into dependent d; a d without cells yet starts from fresh
      ones.  Only d's cells change. */
  function PushOne(num: Numerics, gls: seq<seq<real>>, cells: map<seq<int>, seq<real>>,
                   gen: seq<real>, d: Dependent): (r: map<seq<int>, seq<real>>)
    requires |gen| == |gls|
    requires forall k :: k in cells ==> |cells[k]| == |gls|
    requires ValidGLs(gls, |d.counts|) && PairFits(d.plIndex, d.counts)
    ensures r.Keys == cells.Keys + {d.counts}
    ensures forall k :: k in r ==> |r[k]| == |gls|
    ensures forall k :: k in cells && k != d.counts ==> r[k] == cells[k]
  {
    var start := if d.counts in cells then cells[d.counts] else Fill(|gls|, num.unset);
    cells[d.counts := Pushed(num, gls, start, d.counts, gen, d.plIndex)]
  }

  /** PushOne once the start cells are in place: d's cells, old or fresh,
      are replaced by one push into them. */
  lemma PushOneAt(num: Numerics, gls: seq<seq<real>>, cells: map<seq<int>, seq<real>>,
                  found: map<seq<int>, seq<real>>, gen: seq<real>, d: Dependent)
    requires |gen| == |gls|
    requires forall k :: k in cells ==> |cells[k]| == |gls|
    requires ValidGLs(gls, |d.counts|) && PairFits(d.plIndex, d.counts)
    requires found == cells[d.counts := if d.counts in cells then cells[d.counts] else Fill(|gls|, num.unset)]
    ensures found[d.counts := Pushed(num, gls, found[d.counts], d.counts, gen, d.plIndex)] == PushOne(num, gls, cells, gen, d)
  {
  }

  /** Every dependent's genotype is present in its counts, and every
      sample has a likelihood for that genotype. */
  ghost predicate AllFit(gls: seq<seq<real>>, deps: seq<Dependent>)
  {
    forall d :: d in deps ==> Fits(gls, d)
  }

  ghost predicate Fits(gls: seq<seq<real>>, d: Dependent)
  {
    ValidGLs(gls, |d.counts|) && PairFits(d.plIndex, d.counts)
  }

  /** PushOne for each dependent in turn. */
  function PushAll(num: Numerics, gls: seq<seq<real>>, cells: map<seq<int>, seq<real>>,
                   gen: seq<real>, deps: seq<Dependent>): (r: map<seq<int>, seq<real>>)
    requires |gen| == |gls|
    requires forall k :: k in cells ==> |cells[k]| == |gls|
    requires AllFit(gls, deps)
    ensures forall t :: t in r <==> t in cells || t in Targets(deps)
    ensures forall k :: k in r ==> |r[k]| == |gls|
    ensures forall k :: k in cells && k !in Targets(deps) ==> r[k] == cells[k]
  {
    if deps == [] then cells
    else
      var init := deps[..|deps| - 1];
      assert Targets(deps) == Targets(init) + [deps[|deps| - 1].counts];
      AllFitTake(gls, deps, |deps| - 1);
      assert deps[|deps| - 1] in deps;
      PushOne(num, gls, PushAll(num, gls, cells, gen, init), gen, deps[|deps| - 1])
  }

  lemma AllFitAppend(gls: seq<seq<real>>, a: seq<Dependent>, b: seq<Dependent>)
    requires AllFit(gls, a) && AllFit(gls, b)
    ensures AllFit(gls, a + b) && (b != [] ==> AllFit(gls, b[..|b| - 1]))
  {
    if b != [] {
      AllFitTake(gls, b, |b| - 1);
    }
  }

  lemma AllFitTake(gls: seq<seq<real>>, deps: seq<Dependent>, n: nat)
    requires AllFit(gls, deps) && n <= |deps|
    ensures AllFit(gls, deps[..n])
  {
    forall d | d in deps[..n]
      ensures d in deps
    {
      var i :| 0 <= i < n && deps[..n][i] == d;
      assert deps[i] == d;
    }
  }

  /** Every part of a fitting list fits. */
  lemma AllFitParts(gls: seq<seq<real>>, a: seq<Dependent>, b: seq<Dependent>)
    requires AllFit(gls, a + b)
    ensures AllFit(gls, a) && AllFit(gls, b)
  {
  }

  /** Pushing a + b is pushing a, then b. */
  lemma {:induction false} PushAllAppend(num: Numerics, gls: seq<seq<real>>, cells: map<seq<int>, seq<real>>,
                                         gen: seq<real>, a: seq<Dependent>, b: seq<Dependent>)
    requires |gen| == |gls|
    requires forall k :: k in cells ==> |cells[k]| == |gls|
    requires AllFit(gls, a) && AllFit(gls, b)
    ensures AllFit(gls, a + b)
    ensures PushAll(num, gls, cells, gen, a + b) == PushAll(num, gls, PushAll(num, gls, cells, gen, a), gen, b)
    decreases |b|
  {
    AllFitAppend(gls, a, b);
    if b == [] {
      assert a + b == a;
    } else {
      var b' := b[..|b| - 1];
      var d := b[|b| - 1];
      var m := PushAll(num, gls, cells, gen, a);
      PushAllAppend(num, gls, cells, gen, a, b');
      SplitLast(a, b);
      PushAllLast(num, gls, cells, gen, a + b', d);
      PushAllLast(num, gls, m, gen, b', d);
    }
  }

  lemma SplitLast<T>(a: seq<T>, b: seq<T>)
    requires b != []
    ensures b == b[..|b| - 1] + [b[|b| - 1]]
    ensures a + b == (a + b[..|b| - 1]) + [b[|b| - 1]]
  {
    assert b == b[..|b| - 1] + [b[|b| - 1]];
  }

  lemma SplitAt<T>(s: seq<T>, k: nat)
    requires k < |s|
    ensures s == (s[..k] + [s[k]]) + s[k + 1..]
  {
    assert s == s[..k] + s[k..];
    assert s[k..] == [s[k]] + s[k + 1..];
  }

  lemma Snoc<T>(s: seq<T>, x: T)
    ensures (s + [x])[..|s + [x]| - 1] == s && (s + [x])[|s + [x]| - 1] == x
  {
    assert (s + [x])[..|s|] == s;
  }

  /** Pushing deps + [d] is pushing deps, then d. */
  lemma PushAllLast(num: Numerics, gls: seq<seq<real>>, cells: map<seq<int>, seq<real>>,
                    gen: seq<real>, deps: seq<Dependent>, d: Dependent)
    requires |gen| == |gls|
    requires forall k :: k in cells ==> |cells[k]| == |gls|
    requires AllFit(gls, deps + [d])
    ensures AllFit(gls, deps) && ValidGLs(gls, |d.counts|) && PairFits(d.plIndex, d.counts)
    ensures PushAll(num, gls, cells, gen, deps + [d])
         == PushOne(num, gls, PushAll(num, gls, cells, gen, deps), gen, d)
  {
    Snoc(deps, d);
    AllFitParts(gls, deps, [d]);
    assert d in [d];
  }

  /** Pushing the first i + 1 dependents is pushing the first i, then
      dependent i. */
  lemma PushAllPrefixStep(num: Numerics, gls: seq<seq<real>>, cells: map<seq<int>, seq<real>>,
                          gen: seq<real>, deps: seq<Dependent>, i: nat)
    requires |gen| == |gls|
    requires forall k :: k in cells ==> |cells[k]| == |gls|
    requires AllFit(gls, deps) && i < |deps|
    ensures AllFit(gls, deps[..i]) && AllFit(gls, deps[..i + 1]) && Fits(gls, deps[i])
    ensures PushAll(num, gls, cells, gen, deps[..i + 1])
         == PushOne(num, gls, PushAll(num, gls, cells, gen, deps[..i]), gen, deps[i])
  {
    AllFitTake(gls, deps, i + 1);
    assert deps[..i + 1] == deps[..i] + [deps[i]];
    PushAllLast(num, gls, cells, gen, deps[..i], deps[i]);
  }

  /** A dependent whose conformation no other dependent shares receives
      exactly one push: its cells end as its old cells (or fresh ones)
      pushed once with its own genotype. */
  lemma PushAllOnce(num: Numerics, gls: seq<seq<real>>, cells: map<seq<int>, seq<real>>,
                    gen: seq<real>, deps: seq<Dependent>, k: nat)
    requires |gen| == |gls|
    requires forall c :: c in cells ==> |cells[c]| == |gls|
    requires AllFit(gls, deps)
    requires k < |deps|
    requires forall i :: 0 <= i < |deps| && i != k ==> deps[i].counts != deps[k].counts
    ensures deps[k] in deps
    ensures var r := PushAll(num, gls, cells, gen, deps);
      deps[k].counts in r && r[deps[k].counts] == PushOne(num, gls, cells, gen, deps[k])[deps[k].counts]
  {
    var d := deps[k];
    var pre := deps[..k];
    var post := deps[k + 1..];
    SplitAt(deps, k);
    TargetsAvoid(deps, k);
    AllFitParts(gls, pre + [d], post);
    PushAllAppend(num, gls, cells, gen, pre + [d], post);
    PushAllFirstTime(num, gls, cells, gen, pre, d);
  }

  /** The conformation of dependent k appears at no other position. */
  lemma TargetsAvoid(deps: seq<Dependent>, k: nat)
    requires k < |deps|
    requires forall i :: 0 <= i < |deps| && i != k ==> deps[i].counts != deps[k].counts
    ensures deps[k].counts !in Targets(deps[..k]) && deps[k].counts !in Targets(deps[k + 1..])
  {
    forall i | 0 <= i < k
      ensures Targets(deps[..k])[i] != deps[k].counts
    {
      assert Targets(deps[..k])[i] == deps[i].counts;
    }
    var post := deps[k + 1..];
    forall i | 0 <= i < |post|
      ensures Targets(post)[i] != deps[k].counts
    {
      assert post[i] == deps[k + 1 + i];
    }
  }

  /** Pushing d after dependents that never touch d's conformation gives
      d's cells as one push from where they started. */
  lemma PushAllFirstTime(num: Numerics, gls: seq<seq<real>>, cells: map<seq<int>, seq<real>>,
                         gen: seq<real>, pre: seq<Dependent>, d: Dependent)
    requires |gen| == |gls|
    requires forall c :: c in cells ==> |cells[c]| == |gls|
    requires AllFit(gls, pre + [d])
    requires d.counts !in Targets(pre)
    ensures Fits(gls, d)
    ensures PushAll(num, gls, cells, gen, pre + [d])[d.counts] == PushOne(num, gls, cells, gen, d)[d.counts]
  {
    PushAllLast(num, gls, cells, gen, pre, d);
    PushOneSameStart(num, gls, PushAll(num, gls, cells, gen, pre), cells, gen, d);
  }

  /** Pushing into d gives the same cells from two maps that agree on d. */
  lemma PushOneSameStart(num: Numerics, gls: seq<seq<real>>, m: map<seq<int>, seq<real>>, cells: map<seq<int>, seq<real>>,
                         gen: seq<real>, d: Dependent)
    requires |gen| == |gls| && Fits(gls, d)
    requires forall k :: k in m ==> |m[k]| == |gls|
    requires forall k :: k in cells ==> |cells[k]| == |gls|
    requires d.counts in m <==> d.counts in cells
    requires d.counts in cells ==> m[d.counts] == cells[d.counts]
    ensures PushOne(num, gls, m, gen, d)[d.counts] == PushOne(num, gls, cells, gen, d)[d.counts]
  {
  }

  // ---------------------------------------------------------------------
  // computeLofK

  /** The new cell j of a non-zero vector of total K from its pushed value
      and the new cell j-1: the homozygous-reference term is log-summed in
      when sample j leaves room (K < 2j - 1), then the log of the
      2j(2j-1) ways of drawing sample j's chromosomes is subtracted. */
  function NextCell(num: Numerics, gls: seq<seq<real>>, totalK: int, j: nat, pushed: real, prev: real): real
    requires 1 <= j < |gls| && |gls[j]| > HomRefIndex
  {
    var combined :=
      if totalK < 2 * j - 1 then
        num.logSumLog(pushed, num.logOf(2 * j - totalK) + num.logOf(2 * j - totalK - 1) + prev + gls[j][HomRefIndex])
      else pushed;
    combined - (num.logOf(2 * j) + num.logOf(2 * j - 1))
  }

  /** The new cell j: for the zero vector, the previous cell plus sample
      j's homozygous-reference likelihood; otherwise NextCell. */
  function CellStep(num: Numerics, gls: seq<seq<real>>, totalK: int, j: nat, pushed: real, prev: real): real
    requires 1 <= j < |gls| && |gls[j]| > HomRefIndex
  {
    if totalK == 0 then prev + gls[j][HomRefIndex] else NextCell(num, gls, totalK, j, pushed, prev)
  }

  /** The first n+1 cells after computeLofK, computed cell by cell from
      cell 0 = 0 the way the source's loop overwrites them in place; for the
      zero vector each cell adds sample j's homozygous-reference likelihood
      to the previous one. */
  function LofKPrefix(num: Numerics, gls: seq<seq<real>>, totalK: int, cells: seq<real>, n: nat): (r: seq<real>)
    requires ValidGLs(gls, 0) && |cells| == |gls| && n < |cells|
    ensures |r| == n + 1 && r[0] == 0.0
  {
    if n == 0 then [0.0]
    else
      var prev := LofKPrefix(num, gls, totalK, cells, n - 1);
      prev + [CellStep(num, gls, totalK, n, cells[n], prev[n - 1])]
  }

  /** All cells after computeLofK. */
  function LofK(num: Numerics, gls: seq<seq<real>>, totalK: int, cells: seq<real>): (r: seq<real>)
    requires ValidGLs(gls, 0) && |cells| == |gls|
    ensures |r| == |cells| && r[0] == 0.0
  {
    LofKPrefix(num, gls, totalK, cells, |cells| - 1)
  }

  /** Running sum of the homozygous-reference likelihoods of samples 1..j:
      the reference definition of the zero vector's cells. */
  function HomRefSum(gls: seq<seq<real>>, j: nat): real
    requires ValidGLs(gls, 0) && j < |gls|
  {
    if j == 0 then 0.0 else HomRefSum(gls, j - 1) + gls[j][HomRefIndex]
  }

  /** Later iterations of the loop leave cell m alone. */
  lemma {:induction false} LofKPrefixStable(num: Numerics, gls: seq<seq<real>>, totalK: int, cells: seq<real>, m: nat, n: nat)
    requires ValidGLs(gls, 0) && |cells| == |gls| && m <= n < |cells|
    ensures LofKPrefix(num, gls, totalK, cells, n)[m] == LofKPrefix(num, gls, totalK, cells, m)[m]
    decreases n
  {
    if m < n {
      LofKPrefixStable(num, gls, totalK, cells, m, n - 1);
    }
  }

  /** Cell j of the completed column is the recurrence applied to cell
      j - 1. */
  lemma LofKCell(num: Numerics, gls: seq<seq<real>>, totalK: int, cells: seq<real>, j: nat)
    requires ValidGLs(gls, 0) && |cells| == |gls| && 1 <= j < |cells|
    ensures var r := LofK(num, gls, totalK, cells);
      r[j] == CellStep(num, gls, totalK, j, cells[j], r[j - 1])
  {
    LofKPrefixStable(num, gls, totalK, cells, j, |cells| - 1);
    LofKPrefixStable(num, gls, totalK, cells, j - 1, |cells| - 1);
    LofKPrefixLast(num, gls, totalK, cells, j);
  }

  /** The last cell of a prefix is the recurrence applied to the last cell
      of the shorter one. */
  lemma LofKPrefixLast(num: Numerics, gls: seq<seq<real>>, totalK: int, cells: seq<real>, n: nat)
    requires ValidGLs(gls, 0) && |cells| == |gls| && 1 <= n < |cells|
    ensures LofKPrefix(num, gls, totalK, cells, n)[n]
        == CellStep(num, gls, totalK, n, cells[n], LofKPrefix(num, gls, totalK, cells, n - 1)[n - 1])
  {
  }

  /** For the zero vector, cell j is the sum of the homozygous-reference
      likelihoods of the first j samples, whatever the cells held before. */
  lemma {:induction false} LofKZeroIsHomRefSum(num: Numerics, gls: seq<seq<real>>, cells: seq<real>, j: nat)
    requires ValidGLs(gls, 0) && |cells| == |gls| && j < |cells|
    ensures LofK(num, gls, 0, cells)[j] == HomRefSum(gls, j)
  {
    if j > 0 {
      LofKZeroIsHomRefSum(num, gls, cells, j - 1);
      LofKCell(num, gls, 0, cells, j);
    }
  }

  /** For a non-zero vector, a cell j with K >= 2j - 1 (no room for a
      homozygous-reference sample j) is only its pushed value renormalised,
      and the homozygous-reference term enters exactly when K < 2j - 1. */
  lemma LofKNonZeroCell(num: Numerics, gls: seq<seq<real>>, totalK: int, cells: seq<real>, j: nat)
    requires ValidGLs(gls, 0) && |cells| == |gls| && 1 <= j < |cells| && totalK > 0
    ensures var r := LofK(num, gls, totalK, cells);
      var denom := num.logOf(2 * j) + num.logOf(2 * j - 1);
      && (totalK >= 2 * j - 1 ==> r[j] == cells[j] - denom)
      && (totalK < 2 * j - 1 ==> r[j] == num.logSumLog(cells[j],
            num.logOf(2 * j - totalK) + num.logOf(2 * j - totalK - 1) + r[j - 1] + gls[j][HomRefIndex]) - denom)
  {
    LofKCell(num, gls, totalK, cells, j);
  }

  // ---------------------------------------------------------------------
  // The calls computeLofK makes on the state tracker

  /** What the tracker is told; it is modelled by the calls it receives. */
  datatype TrackerEvent =
    | LikelihoodOfAFzero(value: real)
    | PosteriorOfAFzero(value: real)
    | MLECandidate(value: real, counts: seq<int>)
    | MAPCandidate(value: real, counts: seq<int>)

  /** The log prior one allele contributes: that of its count when the
      allele is present, nothing when its count is 0. */
  function AllelePrior(priors: seq<real>, c: int): real
    requires c < |priors|
  {
    if c > 0 then priors[c] else 0.0
  }

  /** The sum of the log priors at each non-zero allele count. */
  function PriorSum(priors: seq<real>, counts: seq<int>): real
    requires forall k :: 0 <= k < |counts| ==> counts[k] < |priors|
  {
    if counts == [] then 0.0
    else PriorSum(priors, counts[..|counts| - 1]) + AllelePrior(priors, counts[|counts| - 1])
  }

  /** The zero vector records the AF=0 likelihood and posterior (prior at
      count 0 added); any other vector offers its likelihood to the MLE,
      then likelihood plus priors to the MAP. */
  function LofKEvents(cells: seq<real>, counts: seq<int>, priors: seq<real>): (r: seq<TrackerEvent>)
    requires |cells| >= 1 && |priors| >= 1
    requires forall k :: 0 <= k < |counts| ==> counts[k] < |priors|
  {
    var last := cells[|cells| - 1];
    if Sum(counts) == 0 then [LikelihoodOfAFzero(last), PosteriorOfAFzero(last + priors[0])]
    else [MLECandidate(last, counts), MAPCandidate(last + PriorSum(priors, counts), counts)]
  }

  /** Each allele k contributes exactly the prior of its own count when it
      is present and nothing when it is absent: the sum is the sum with
      allele k's count zeroed, plus allele k's prior. */
  lemma {:induction false} PriorSumPerAllele(priors: seq<real>, counts: seq<int>, k: nat)
    requires forall i :: 0 <= i < |counts| ==> 0 <= counts[i] < |priors|
    requires k < |counts| && |priors| >= 1
    ensures PriorSum(priors, counts) == PriorSum(priors, counts[k := 0]) + AllelePrior(priors, counts[k])
  {
    var n := |counts|;
    var z := counts[k := 0];
    if k == n - 1 {
      assert z[..n - 1] == counts[..n - 1];
    } else {
      assert z[..n - 1] == counts[..n - 1][k := 0];
      PriorSumPerAllele(priors, counts[..n - 1], k);
    }
  }

  /** Taking out the allele at position i takes out exactly its prior. */
  lemma {:induction false} PriorSumRemove(priors: seq<real>, counts: seq<int>, i: nat)
    requires forall k :: 0 <= k < |counts| ==> counts[k] < |priors|
    requires i < |counts|
    ensures var rest := counts[..i] + counts[i + 1..];
      (forall k :: 0 <= k < |rest| ==> rest[k] < |priors|)
      && PriorSum(priors, counts) == PriorSum(priors, rest) + AllelePrior(priors, counts[i])
  {
    var n := |counts|;
    var rest := counts[..i] + counts[i + 1..];
    if i == n - 1 {
      assert rest == counts[..n - 1];
    } else {
      var q := counts[..n - 1];
      PriorSumRemove(priors, q, i);
      assert rest[..|rest| - 1] == q[..i] + q[i + 1..];
      assert rest[|rest| - 1] == counts[n - 1];
    }
  }

  /** The prior sum does not depend on the order of the alleles. */
  lemma {:induction false} PriorSumPermutation(priors: seq<real>, counts: seq<int>, p: seq<int>)
    requires forall k :: 0 <= k < |counts| ==> counts[k] < |priors|
    requires forall k :: 0 <= k < |p| ==> p[k] < |priors|
    requires multiset(counts) == multiset(p)
    ensures PriorSum(priors, counts) == PriorSum(priors, p)
    decreases |counts|
  {
    if counts != [] {
      var n := |counts|;
      var i := RemoveLast(counts, p);
      PriorSumRemove(priors, p, i);
      PriorSumPermutation(priors, counts[..n - 1], p[..i] + p[i + 1..]);
    }
  }

  /** The last element of counts sits at some position i of its
      permutation p, and what remains on both sides is again a
      permutation. */
  lemma RemoveLast(counts: seq<int>, p: seq<int>) returns (i: nat)
    requires counts != [] && multiset(counts) == multiset(p)
    ensures i < |p| && p[i] == counts[|counts| - 1]
    ensures multiset(counts[..|counts| - 1]) == multiset(p[..i] + p[i + 1..])
  {
    var n := |counts|;
    assert counts[n - 1] in multiset(counts);
    i :| 0 <= i < |p| && p[i] == counts[n - 1];
    MultisetRemove(counts, n - 1);
    MultisetRemove(p, i);
    assert counts[..n - 1] == counts[..n - 1] + counts[n..];
  }

  lemma MultisetRemove<T>(s: seq<T>, i: nat)
    requires i < |s|
    ensures multiset(s[..i] + s[i + 1..]) == multiset(s) - multiset{s[i]}
  {
    assert s == s[..i] + [s[i]] + s[i + 1..];
  }
}
