/** Allele-count vectors ("AC conformations") and the successors the exact
    model derives from each of them.  A vector holds one count per alternate
    allele; it is used by value, as the key of the conformation cache. */
module Conformations {
  import opened GenotypeIndex

  /** Total number of alternate-allele copies in a vector. */
  function Sum(v: seq<int>): int
  {
    if v == [] then 0 else v[0] + Sum(v[1..])
  }

  /** A vector the calculator may hold: one non-negative count per alternate
      allele, using at most numChr chromosomes. */
  ghost predicate WellFormed(v: seq<int>, numAlt: nat, numChr: nat)
  {
    |v| == numAlt && (forall k :: 0 <= k < |v| ==> v[k] >= 0) && Sum(v) <= numChr
  }

  /** The vector with allele a counted once more (a clone, then ++). */
  function Inc(v: seq<int>, a: nat): seq<int>
    requires a < |v|
  {
    v[a := v[a] + 1]
  }

  lemma {:induction false} SumInc(v: seq<int>, a: nat)
    requires a < |v|
    ensures Sum(Inc(v, a)) == Sum(v) + 1
  {
    if a > 0 {
      assert Inc(v, a)[1..] == Inc(v[1..], a - 1);
      SumInc(v[1..], a - 1);
    } else {
      assert Inc(v, a)[1..] == v[1..];
    }
  }

  lemma {:induction false} SumNonNegative(v: seq<int>)
    requires forall k :: 0 <= k < |v| ==> v[k] >= 0
    ensures Sum(v) >= 0
  {
    if v != [] {
      SumNonNegative(v[1..]);
    }
  }

  /** Every entry is bounded by the total. */
  lemma {:induction false} EntryAtMostSum(v: seq<int>, k: nat)
    requires forall i :: 0 <= i < |v| ==> v[i] >= 0
    requires k < |v|
    ensures v[k] <= Sum(v)
  {
    SumNonNegative(v[1..]);
    if k > 0 {
      EntryAtMostSum(v[1..], k - 1);
    }
  }

  /** How many copies of alternate allele k (allele k+1 in genotype
      numbering, where 0 is the reference) the genotype pair carries. */
  function AltDose(pair: (nat, nat), k: nat): nat
  {
    (if pair.0 == k + 1 then 1 else 0) + (if pair.1 == k + 1 then 1 else 0)
  }

  /** The vector v with the alternate alleles of one sample's genotype added:
      the meaning of "a sample with this genotype joins the population". */
  function AddGenotype(v: seq<int>, pair: (nat, nat)): (w: seq<int>)
    ensures |w| == |v|
  {
    seq(|v|, k requires 0 <= k < |v| => v[k] + AltDose(pair, k))
  }

  /** A successor together with the index of the genotype that feeds it
      (the source's DependentSet). */
  datatype Dependent = Dependent(counts: seq<int>, plIndex: nat)

  /** "+1" successors: each alternate allele in turn, fed by the ref/alt
      heterozygote. */
  function PlusOne(v: seq<int>): (r: seq<Dependent>)
    ensures |r| == |v|
  {
    seq(|v|, a requires 0 <= a < |v| => Dependent(Inc(v, a), PLIndex(0, a + 1)))
  }

  /** Pairs (i, j) with i < j < n, row by row: the order the nested loops of
      the source visit them. */
  function DiffPairs(n: nat): seq<(nat, nat)>
  {
    Rows(n, n)
  }

  function Rows(n: nat, i: nat): seq<(nat, nat)>
    requires i <= n
  {
    if i == 0 then [] else Rows(n, i - 1) + Row(i - 1, i, n)
  }

  /** (i, lo), (i, lo+1), ..., (i, hi-1). */
  function Row(i: nat, lo: nat, hi: nat): (r: seq<(nat, nat)>)
    requires lo <= hi
    ensures |r| == hi - lo
  {
    seq(hi - lo, k requires 0 <= k < hi - lo => (i, lo + k))
  }

  /** Pairs (i, i) with i < n. */
  function SamePairs(n: nat): (r: seq<(nat, nat)>)
    ensures |r| == n
  {
    seq(n, i requires 0 <= i < n => (i, i))
  }

  /** The "+2" successor for alternate alleles i <= j, fed by genotype
      (i+1, j+1). */
  function PlusTwoOf(v: seq<int>, pr: (nat, nat)): Dependent
    requires pr.0 <= pr.1 < |v|
  {
    Dependent(Inc(Inc(v, pr.0), pr.1), PLIndex(pr.0 + 1, pr.1 + 1))
  }

  /** Every pair is of alleles i <= j below n. */
  ghost predicate PairsBelow(prs: seq<(nat, nat)>, n: nat)
  {
    forall k :: 0 <= k < |prs| ==> prs[k].0 <= prs[k].1 < n
  }

  function PlusTwoAll(v: seq<int>, prs: seq<(nat, nat)>): (r: seq<Dependent>)
    requires PairsBelow(prs, |v|)
    ensures |r| == |prs|
  {
    seq(|prs|, k requires 0 <= k < |prs| => PlusTwoOf(v, prs[k]))
  }

  /** "+2" successors whose two new alleles differ, in loop order. */
  function DifferentAlleles(v: seq<int>): (r: seq<Dependent>)
  {
    DiffPairsMembers(|v|);
    PlusTwoAll(v, DiffPairs(|v|))
  }

  /** "+2" successors whose two new alleles are the same one. */
  function SameAlleles(v: seq<int>): (r: seq<Dependent>)
  {
    PlusTwoAll(v, SamePairs(|v|))
  }

  /** The successors generated from a processed vector, in the order they
      are handed to the cache: none when all numChr chromosomes are used,
      the "+1" ones, then (only when two chromosomes are left) the
      different-allele "+2" ones before the same-allele ones. */
  function Successors(v: seq<int>, numChr: nat): seq<Dependent>
  {
    var wiggle := numChr - Sum(v);
    if wiggle == 0 then []
    else PlusOne(v) + (if wiggle > 1 then DifferentAlleles(v) + SameAlleles(v) else [])
  }

  /** The vectors of a successor list, in order. */
  function Targets(ds: seq<Dependent>): (r: seq<seq<int>>)
    ensures |r| == |ds|
  {
    seq(|ds|, k requires 0 <= k < |ds| => ds[k].counts)
  }

  /** The vectors of a prefix one longer. */
  lemma TargetsSnoc(ds: seq<Dependent>, i: nat)
    requires i < |ds|
    ensures ds[..i + 1] == ds[..i] + [ds[i]]
    ensures Targets(ds[..i + 1]) == Targets(ds[..i]) + [ds[i].counts]
  {
    assert ds[..i + 1] == ds[..i] + [ds[i]];
  }

  lemma PlusTwoAllAppend(v: seq<int>, a: seq<(nat, nat)>, b: seq<(nat, nat)>)
    requires PairsBelow(a, |v|) && PairsBelow(b, |v|)
    ensures PairsBelow(a + b, |v|)
    ensures PlusTwoAll(v, a + b) == PlusTwoAll(v, a) + PlusTwoAll(v, b)
  {
    assert forall k :: 0 <= k < |a + b| ==> (a + b)[k].0 <= (a + b)[k].1 < |v|;
  }

  /** The rows before row i, as the nested loops start row i. */
  lemma RowStart(n: nat, i: nat)
    requires i < n
    ensures PairsBelow(Rows(n, i), n)
    ensures Rows(n, i) + Row(i, i + 1, i + 1) == Rows(n, i)
  {
    RowsMembers(n, i);
  }

  /** One more pair (i, j) of different alleles in row i. */
  lemma DiffGrow(v: seq<int>, i: nat, j: nat)
    requires i < j < |v|
    ensures PairsBelow(Rows(|v|, i) + Row(i, i + 1, j), |v|)
    ensures PairsBelow(Rows(|v|, i) + Row(i, i + 1, j + 1), |v|)
    ensures PlusTwoAll(v, Rows(|v|, i) + Row(i, i + 1, j + 1))
         == PlusTwoAll(v, Rows(|v|, i) + Row(i, i + 1, j)) + [PlusTwoOf(v, (i, j))]
  {
    var n := |v|;
    RowsBelow(n, i);
    var done := Rows(n, i) + Row(i, i + 1, j);
    RowSnoc(Rows(n, i), i, j);
    assert PairsBelow(Row(i, i + 1, j), n);
    PlusTwoAllAppend(v, Rows(n, i), Row(i, i + 1, j));
    PlusTwoAllAppend(v, done, [(i, j)]);
  }

  lemma RowsBelow(n: nat, i: nat)
    requires i <= n
    ensures PairsBelow(Rows(n, i), n)
  {
    RowsMembers(n, i);
  }

  lemma RowSnoc(rows: seq<(nat, nat)>, i: nat, j: nat)
    requires i < j
    ensures rows + Row(i, i + 1, j + 1) == (rows + Row(i, i + 1, j)) + [(i, j)]
  {
    assert Row(i, i + 1, j + 1) == Row(i, i + 1, j) + [(i, j)];
  }

  /** The pair (i, i) of the same allele. */
  lemma SameGrow(v: seq<int>, i: nat)
    requires i < |v|
    ensures PlusTwoAll(v, SamePairs(i + 1)) == PlusTwoAll(v, SamePairs(i)) + [PlusTwoOf(v, (i, i))]
  {
    assert SamePairs(i + 1) == SamePairs(i) + [(i, i)];
    PlusTwoAllAppend(v, SamePairs(i), [(i, i)]);
  }

  /** Row i completed. */
  lemma RowsGrow(n: nat, i: nat)
    requires i < n
    ensures PairsBelow(Rows(n, i + 1), n)
    ensures Rows(n, i + 1) == Rows(n, i) + Row(i, i + 1, n)
  {
    RowsMembers(n, i + 1);
  }

  lemma TargetsAppend(a: seq<Dependent>, b: seq<Dependent>)
    ensures Targets(a + b) == Targets(a) + Targets(b)
  {
  }

  /** The successor list in its parts: the "+1" ones, then, only when two
      chromosomes are left, the different-allele and same-allele "+2" ones. */
  lemma SuccessorsParts(v: seq<int>, numChr: nat)
    requires numChr - Sum(v) != 0
    ensures numChr - Sum(v) > 1 ==> Successors(v, numChr) == PlusOne(v) + DifferentAlleles(v) + SameAlleles(v)
    ensures numChr - Sum(v) <= 1 ==> Successors(v, numChr) == PlusOne(v)
  {
  }

  // ---------------------------------------------------------------------
  // Properties of the pair enumeration

  lemma {:induction false} RowsMembers(n: nat, i: nat)
    requires i <= n
    ensures forall k :: 0 <= k < |Rows(n, i)| ==> Rows(n, i)[k].0 < Rows(n, i)[k].1 < n && Rows(n, i)[k].0 < i
    ensures forall a: nat, b: nat :: a < b < n && a < i ==> (a, b) in Rows(n, i)
  {
    if i > 0 {
      RowsMembers(n, i - 1);
      var r := Rows(n, i - 1) + Row(i - 1, i, n);
      forall a: nat, b: nat | a < b < n && a < i
        ensures (a, b) in Rows(n, i)
      {
        if a == i - 1 {
          assert r[|Rows(n, i - 1)| + (b - i)] == (a, b);
        } else {
          assert (a, b) in Rows(n, i - 1);
        }
      }
    }
  }

  lemma DiffPairsMembers(n: nat)
    ensures forall k :: 0 <= k < |DiffPairs(n)| ==> DiffPairs(n)[k].0 < DiffPairs(n)[k].1 < n
    ensures forall a: nat, b: nat :: a < b < n ==> (a, b) in DiffPairs(n)
  {
    RowsMembers(n, n);
  }

  /** Lexicographic order on pairs. */
  predicate PairLess(p: (nat, nat), q: (nat, nat))
  {
    p.0 < q.0 || (p.0 == q.0 && p.1 < q.1)
  }

  lemma {:induction false} RowsIncreasing(n: nat, i: nat)
    requires i <= n
    ensures forall p, q :: 0 <= p < q < |Rows(n, i)| ==> PairLess(Rows(n, i)[p], Rows(n, i)[q])
  {
    if i > 0 {
      RowsIncreasing(n, i - 1);
      RowsMembers(n, i - 1);
    }
  }

  /** The enumeration lists each pair once, in increasing order. */
  lemma DiffPairsIncreasing(n: nat)
    ensures forall p, q :: 0 <= p < q < |DiffPairs(n)| ==> PairLess(DiffPairs(n)[p], DiffPairs(n)[q])
  {
    RowsIncreasing(n, n);
  }
}
