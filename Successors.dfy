/** Successor generation of the exact model, stated by what it means: which
    genotype of one more sample each successor stands for, that every such
    genotype is covered once, and in which order they are produced. */
module SuccessorLaws {
  import opened GenotypeIndex
  import opened Conformations

  /** Kind of genotype a pair is: 0 ref/alt, 1 two different alternates,
      2 a homozygous alternate. */
  function PairKind(pr: (nat, nat)): nat
  {
    if pr.0 == 0 then 0 else if pr.0 < pr.1 then 1 else 2
  }

  lemma IncIsAddGenotype(v: seq<int>, a: nat)
    requires a < |v|
    ensures Inc(v, a) == AddGenotype(v, (0, a + 1))
  {
  }

  lemma IncIncIsAddGenotype(v: seq<int>, a: nat, b: nat)
    requires a <= b < |v|
    ensures Inc(Inc(v, a), b) == AddGenotype(v, (a + 1, b + 1))
  {
  }

  /** Adding a genotype adds its alternate alleles to the total. */
  lemma SumAddGenotype(v: seq<int>, pr: (nat, nat))
    requires pr.0 <= pr.1 && 1 <= pr.1 <= |v|
    ensures Sum(AddGenotype(v, pr)) == Sum(v) + (if pr.0 == 0 then 1 else 2)
  {
    if pr.0 == 0 {
      SumAddOne(v, pr.1 - 1);
    } else {
      SumAddTwo(v, pr.0 - 1, pr.1 - 1);
    }
  }

  lemma SumAddOne(v: seq<int>, a: nat)
    requires a < |v|
    ensures Sum(AddGenotype(v, (0, a + 1))) == Sum(v) + 1
  {
    IncIsAddGenotype(v, a);
    SumInc(v, a);
  }

  lemma SumAddTwo(v: seq<int>, a: nat, b: nat)
    requires a <= b < |v|
    ensures Sum(AddGenotype(v, (a + 1, b + 1))) == Sum(v) + 2
  {
    IncIncIsAddGenotype(v, a, b);
    SumInc(v, a);
    SumInc(Inc(v, a), b);
  }

  /** A genotype that fits in the chromosomes left keeps a vector
      well-formed. */
  lemma AddGenotypeWellFormed(v: seq<int>, pr: (nat, nat), numAlt: nat, numChr: nat)
    requires WellFormed(v, numAlt, numChr)
    requires pr.0 <= pr.1 && 1 <= pr.1 <= |v|
    requires Sum(v) + (if pr.0 == 0 then 1 else 2) <= numChr
    ensures WellFormed(AddGenotype(v, pr), numAlt, numChr)
    ensures Sum(AddGenotype(v, pr)) == Sum(v) + (if pr.0 == 0 then 1 else 2)
  {
    SumAddGenotype(v, pr);
    var w := AddGenotype(v, pr);
    forall a | 0 <= a < |w|
      ensures w[a] >= 0
    {
      assert w[a] == v[a] + AltDose(pr, a);
    }
  }

  /** Two different non-hom-ref genotypes never lead to the same vector. */
  lemma AddGenotypeInjective(v: seq<int>, p: (nat, nat), q: (nat, nat))
    requires p.0 <= p.1 && 1 <= p.1 <= |v|
    requires q.0 <= q.1 && 1 <= q.1 <= |v|
    requires AddGenotype(v, p) == AddGenotype(v, q)
    ensures p == q
  {
    var w := AddGenotype(v, p);
    assert w[p.1 - 1] == AddGenotype(v, q)[p.1 - 1];
    assert w[q.1 - 1] == AddGenotype(v, q)[q.1 - 1];
    assert p.1 == q.1;
    if p.0 != 0 {
      assert w[p.0 - 1] == AddGenotype(v, q)[p.0 - 1];
    }
    if q.0 != 0 {
      assert w[q.0 - 1] == AddGenotype(v, q)[q.0 - 1];
    }
  }

  /** The k-th successor, read off the part of the list it lies in. */
  lemma SuccessorIndex(v: seq<int>, numChr: nat, k: nat)
    requires k < |Successors(v, numChr)|
    ensures numChr != Sum(v)
    ensures var n := |v|;
      var s := Successors(v, numChr);
      && (k < n ==> s[k] == PlusOne(v)[k])
      && (n <= k ==> numChr - Sum(v) > 1 && |s| == n + |DiffPairs(n)| + n)
      && (n <= k < n + |DiffPairs(n)| ==> s[k] == DifferentAlleles(v)[k - n])
      && (n + |DiffPairs(n)| <= k ==> s[k] == SameAlleles(v)[k - n - |DiffPairs(n)|])
  {
    SuccessorsParts(v, numChr);
  }

  /** d is fed by the genotype pr, which is not homozygous reference, and
      is v plus that genotype's alternate alleles. */
  ghost predicate FedBy(v: seq<int>, numChr: nat, d: Dependent, pr: (nat, nat))
  {
    && pr.0 <= pr.1 && 1 <= pr.1 <= |v|
    && AllelePair(d.plIndex) == pr && d.counts == AddGenotype(v, pr)
    && (pr.0 != 0 ==> numChr - Sum(v) > 1)
    && numChr != Sum(v)
  }

  /** The genotype feeding the k-th successor, by position: the ref/alt
      heterozygotes in allele order, then the pairs of different alternates
      in enumeration order, then the homozygous alternates in allele order;
      and the successor is the generator plus that genotype. */
  lemma SuccessorAt(v: seq<int>, numChr: nat, k: nat)
    requires k < |Successors(v, numChr)|
    ensures var n := |v|;
      var dif := DiffPairs(n);
      var d := Successors(v, numChr)[k];
      && (k < n ==> FedBy(v, numChr, d, (0, k + 1)))
      && (n <= k < n + |dif| ==> FedBy(v, numChr, d, (dif[k - n].0 + 1, dif[k - n].1 + 1)))
      && (n + |dif| <= k ==> FedBy(v, numChr, d, (k - n - |dif| + 1, k - n - |dif| + 1)))
  {
    var n := |v|;
    var dif := DiffPairs(n);
    if k < n {
      SuccessorAtPlusOne(v, numChr, k);
    } else if k < n + |dif| {
      SuccessorAtDifferent(v, numChr, k);
    } else {
      SuccessorAtSame(v, numChr, k);
    }
  }

  lemma SuccessorAtPlusOne(v: seq<int>, numChr: nat, k: nat)
    requires k < |Successors(v, numChr)| && k < |v|
    ensures FedBy(v, numChr, Successors(v, numChr)[k], (0, k + 1))
  {
    SuccessorIndex(v, numChr, k);
    PlusOneAt(v, k);
  }

  lemma SuccessorAtDifferent(v: seq<int>, numChr: nat, k: nat)
    requires k < |Successors(v, numChr)| && |v| <= k < |v| + |DiffPairs(|v|)|
    ensures var pr := DiffPairs(|v|)[k - |v|];
      FedBy(v, numChr, Successors(v, numChr)[k], (pr.0 + 1, pr.1 + 1))
  {
    var t := k - |v|;
    SuccessorInDifferent(v, numChr, k);
    DifferentAt(v, t);
    var pr := DiffPairs(|v|)[t];
    assert FedBy(v, numChr, DifferentAlleles(v)[t], (pr.0 + 1, pr.1 + 1));
  }

  lemma SuccessorInDifferent(v: seq<int>, numChr: nat, k: nat)
    requires k < |Successors(v, numChr)| && |v| <= k < |v| + |DiffPairs(|v|)|
    ensures numChr - Sum(v) > 1
    ensures Successors(v, numChr)[k] == DifferentAlleles(v)[k - |v|]
  {
    SuccessorIndex(v, numChr, k);
  }

  lemma SuccessorAtSame(v: seq<int>, numChr: nat, k: nat)
    requires k < |Successors(v, numChr)| && |v| + |DiffPairs(|v|)| <= k
    ensures var a := k - |v| - |DiffPairs(|v|)|;
      FedBy(v, numChr, Successors(v, numChr)[k], (a + 1, a + 1))
  {
    SuccessorIndex(v, numChr, k);
    SameAt(v, k - |v| - |DiffPairs(|v|)|);
  }

  /** What the k-th successor means, whatever part of the list it is in. */
  lemma SuccessorMeans(v: seq<int>, numChr: nat, k: nat)
    requires k < |Successors(v, numChr)|
    ensures var d := Successors(v, numChr)[k];
      && Means(v, numChr, d)
      && AllelePair(d.plIndex).0 <= AllelePair(d.plIndex).1
      && PairKind(AllelePair(d.plIndex)) == if k < |v| then 0 else if k < |v| + |DiffPairs(|v|)| then 1 else 2
  {
    SuccessorAt(v, numChr, k);
    DiffPairsMembers(|v|);
  }

  lemma PlusOneAt(v: seq<int>, a: nat)
    requires a < |v|
    ensures AllelePair(PlusOne(v)[a].plIndex) == (0, a + 1)
    ensures PlusOne(v)[a].counts == AddGenotype(v, (0, a + 1))
  {
    AllelePairOfPLIndex(0, a + 1);
    IncIsAddGenotype(v, a);
  }

  lemma DifferentAt(v: seq<int>, t: nat)
    requires t < |DiffPairs(|v|)|
    ensures var pr := DiffPairs(|v|)[t];
      && pr.0 < pr.1 < |v|
      && AllelePair(DifferentAlleles(v)[t].plIndex) == (pr.0 + 1, pr.1 + 1)
      && DifferentAlleles(v)[t].counts == AddGenotype(v, (pr.0 + 1, pr.1 + 1))
  {
    DiffPairsMembers(|v|);
    var pr := DiffPairs(|v|)[t];
    AllelePairOfPLIndex(pr.0 + 1, pr.1 + 1);
    IncIncIsAddGenotype(v, pr.0, pr.1);
  }

  lemma SameAt(v: seq<int>, a: nat)
    requires a < |v|
    ensures AllelePair(SameAlleles(v)[a].plIndex) == (a + 1, a + 1)
    ensures SameAlleles(v)[a].counts == AddGenotype(v, (a + 1, a + 1))
  {
    AllelePairOfPLIndex(a + 1, a + 1);
    IncIncIsAddGenotype(v, a, a);
  }

  /** What a successor d of v means: v plus the alternate alleles of a
      genotype that is not homozygous reference, and that genotype is the
      one feeding d; a "+2" genotype occurs only when two chromosomes are
      left. */
  ghost predicate Means(v: seq<int>, numChr: nat, d: Dependent)
  {
    var pr := AllelePair(d.plIndex);
    && 1 <= pr.1 <= |v| && d.counts == AddGenotype(v, pr)
    && (pr.0 != 0 ==> numChr - Sum(v) > 1)
    && numChr != Sum(v)
  }

  /** Every successor means what its genotype says. */
  lemma SuccessorsMeaning(v: seq<int>, numChr: nat)
    ensures forall k :: 0 <= k < |Successors(v, numChr)| ==> Means(v, numChr, Successors(v, numChr)[k])
  {
    forall k | 0 <= k < |Successors(v, numChr)|
      ensures Means(v, numChr, Successors(v, numChr)[k])
    {
      SuccessorMeans(v, numChr, k);
    }
  }

  /** Every genotype other than hom-ref feeds some successor: the ref/alt
      heterozygotes whenever a chromosome is left, and all the others as
      well when two are left. */
  lemma SuccessorsCover(v: seq<int>, numChr: nat, i: nat, j: nat)
    requires i <= j <= |v| && 1 <= j
    requires numChr != Sum(v)
    requires i == 0 || numChr - Sum(v) > 1
    ensures exists k :: 0 <= k < |Successors(v, numChr)| && Successors(v, numChr)[k].plIndex == PLIndex(i, j)
  {
    var k := CoverAt(v, numChr, i, j);
  }

  lemma CoverAt(v: seq<int>, numChr: nat, i: nat, j: nat) returns (k: nat)
    requires i <= j <= |v| && 1 <= j
    requires numChr != Sum(v)
    requires i == 0 || numChr - Sum(v) > 1
    ensures k < |Successors(v, numChr)| && Successors(v, numChr)[k].plIndex == PLIndex(i, j)
  {
    SuccessorsLength(v, numChr);
    if i == 0 {
      k := j - 1;
      SuccessorIndex(v, numChr, k);
    } else if i < j {
      var t := CoverDifferent(v, i, j);
      k := |v| + t;
      SuccessorIndex(v, numChr, k);
    } else {
      k := |v| + |DiffPairs(|v|)| + (i - 1);
      SuccessorIndex(v, numChr, k);
      assert SamePairs(|v|)[i - 1] == (i - 1, i - 1);
    }
  }

  /** The pair of different alternates i < j is fed to some "+2" successor. */
  lemma CoverDifferent(v: seq<int>, i: nat, j: nat) returns (t: nat)
    requires 1 <= i < j <= |v|
    ensures t < |DiffPairs(|v|)| && DifferentAlleles(v)[t].plIndex == PLIndex(i, j)
  {
    var dif := DiffPairs(|v|);
    DiffPairsMembers(|v|);
    assert (i - 1, j - 1) in dif;
    t :| 0 <= t < |dif| && dif[t] == (i - 1, j - 1);
  }

  /** How many successors a vector has: none when no chromosome is left,
      one per alternate allele when one is, and the "+2" ones as well when
      two or more are. */
  lemma SuccessorsLength(v: seq<int>, numChr: nat)
    ensures var wiggle := numChr - Sum(v);
      |Successors(v, numChr)| == if wiggle == 0 then 0 else if wiggle > 1 then 2 * |v| + |DiffPairs(|v|)| else |v|
  {
    if numChr - Sum(v) > 1 {
      assert |DifferentAlleles(v)| == |DiffPairs(|v|)|;
      assert |SameAlleles(v)| == |v|;
    }
  }

  /** Each genotype feeds at most one successor, and no two successors are
      the same vector. */
  lemma SuccessorsDistinct(v: seq<int>, numChr: nat)
    ensures forall k1, k2 :: 0 <= k1 < k2 < |Successors(v, numChr)| ==>
      Successors(v, numChr)[k1].plIndex != Successors(v, numChr)[k2].plIndex
      && Successors(v, numChr)[k1].counts != Successors(v, numChr)[k2].counts
  {
    var s := Successors(v, numChr);
    forall k1, k2 | 0 <= k1 < k2 < |s|
      ensures s[k1].plIndex != s[k2].plIndex && s[k1].counts != s[k2].counts
    {
      DistinctPair(v, numChr, k1, k2);
    }
  }

  lemma DistinctPair(v: seq<int>, numChr: nat, k1: nat, k2: nat)
    requires k1 < k2 < |Successors(v, numChr)|
    ensures var s := Successors(v, numChr);
      s[k1].plIndex != s[k2].plIndex && s[k1].counts != s[k2].counts
  {
    var s := Successors(v, numChr);
    DistinctGenotypes(v, numChr, k1, k2);
    SuccessorMeans(v, numChr, k1);
    SuccessorMeans(v, numChr, k2);
    if s[k1].counts == s[k2].counts {
      AddGenotypeInjective(v, AllelePair(s[k1].plIndex), AllelePair(s[k2].plIndex));
    }
  }

  /** Two positions of the successor list are fed by different genotypes:
      across parts the kinds differ, and within a part the genotypes
      increase. */
  lemma DistinctGenotypes(v: seq<int>, numChr: nat, k1: nat, k2: nat)
    requires k1 < k2 < |Successors(v, numChr)|
    ensures AllelePair(Successors(v, numChr)[k1].plIndex) != AllelePair(Successors(v, numChr)[k2].plIndex)
  {
    var n := |v|;
    var dif := DiffPairs(n);
    if k2 < n {
      SuccessorAtPlusOne(v, numChr, k1);
      SuccessorAtPlusOne(v, numChr, k2);
    } else if n <= k1 && k2 < n + |dif| {
      SuccessorAtDifferent(v, numChr, k1);
      SuccessorAtDifferent(v, numChr, k2);
      DiffPairsIncreasing(n);
      assert PairLess(dif[k1 - n], dif[k2 - n]);
    } else if n + |dif| <= k1 {
      SuccessorAtSame(v, numChr, k1);
      SuccessorAtSame(v, numChr, k2);
    } else {
      SuccessorMeans(v, numChr, k1);
      SuccessorMeans(v, numChr, k2);
    }
  }

  /** The kind of genotype feeding the k-th successor, by position. */
  lemma SuccessorKindAt(v: seq<int>, numChr: nat)
    ensures forall k :: 0 <= k < |Successors(v, numChr)| ==>
      PairKind(AllelePair(Successors(v, numChr)[k].plIndex))
        == if k < |v| then 0 else if k < |v| + |DiffPairs(|v|)| then 1 else 2
  {
    forall k | 0 <= k < |Successors(v, numChr)|
      ensures PairKind(AllelePair(Successors(v, numChr)[k].plIndex))
        == if k < |v| then 0 else if k < |v| + |DiffPairs(|v|)| then 1 else 2
    {
      SuccessorMeans(v, numChr, k);
    }
  }

  /** Successors come ref/alt heterozygotes first, then pairs of different
      alternate alleles, then homozygous alternates. */
  lemma SuccessorsOrdered(v: seq<int>, numChr: nat)
    ensures forall k1, k2 :: 0 <= k1 < k2 < |Successors(v, numChr)| ==>
      PairKind(AllelePair(Successors(v, numChr)[k1].plIndex)) <= PairKind(AllelePair(Successors(v, numChr)[k2].plIndex))
  {
    SuccessorKindAt(v, numChr);
  }
}
