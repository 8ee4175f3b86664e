/** The canonical "PL" ordering of diploid genotypes: the unordered allele pair
    (i, j) with i <= j (allele 0 is the reference) sits at index j*(j+1)/2 + i.
    Both directions of the mapping are modelled here, since the core looks a
    genotype up by its pair and recovers a pair from an index. */
module GenotypeIndex {

  /** The j-th triangular number, 0 + 1 + ... + j. */
  function Tri(j: nat): nat
  {
    if j == 0 then 0 else Tri(j - 1) + j
  }

  lemma {:induction false} TriClosedForm(j: nat)
    ensures 2 * Tri(j) == j * (j + 1)
  {
    if j > 0 {
      TriClosedForm(j - 1);
    }
  }

  /** Index of the genotype made of alleles i <= j. */
  function PLIndex(i: nat, j: nat): (p: nat)
    requires i <= j
    ensures Tri(j) <= p < Tri(j + 1)
  {
    Tri(j) + i
  }

  /** The source's formula j*(j+1)/2 + i. */
  lemma PLIndexFormula(i: nat, j: nat)
    requires i <= j
    ensures PLIndex(i, j) == j * (j + 1) / 2 + i
  {
    TriClosedForm(j);
  }

  /** Number of genotypes over numAlleles alleles (reference included). */
  function GenotypeCount(numAlleles: nat): (n: nat)
    ensures forall i: nat, j: nat :: i <= j < numAlleles ==> PLIndex(i, j) < n
  {
    TriMonotone();
    Tri(numAlleles)
  }

  lemma TriMonotone()
    ensures forall a: nat, b: nat :: a <= b ==> Tri(a) <= Tri(b)
  {
    forall a: nat, b: nat | a <= b
      ensures Tri(a) <= Tri(b)
    {
      TriLe(a, b);
    }
  }

  lemma {:induction false} TriLe(a: nat, b: nat)
    requires a <= b
    ensures Tri(a) <= Tri(b)
  {
    if a < b {
      TriLe(a, b - 1);
    }
  }

  /** Searches the row j of the triangle that holds offset p (p counted from
      the start of row j). */
  function AllelePairFrom(p: nat, j: nat): (r: (nat, nat))
    ensures r.0 <= r.1 && j <= r.1
    ensures PLIndex(r.0, r.1) == Tri(j) + p
    decreases p
  {
    if p <= j then (p, j) else AllelePairFrom(p - (j + 1), j + 1)
  }

  /** The allele pair stored at index p: the inverse of PLIndex. */
  function AllelePair(p: nat): (r: (nat, nat))
    ensures r.0 <= r.1 && PLIndex(r.0, r.1) == p
  {
    AllelePairFrom(p, 0)
  }

  /** Distinct pairs have distinct indices. */
  lemma PLIndexInjective(i: nat, j: nat, i': nat, j': nat)
    requires i <= j && i' <= j'
    requires PLIndex(i, j) == PLIndex(i', j')
    ensures i == i' && j == j'
  {
    if j < j' {
      TriLe(j + 1, j');
    } else if j' < j {
      TriLe(j' + 1, j);
    }
  }

  lemma AllelePairOfPLIndex(i: nat, j: nat)
    requires i <= j
    ensures AllelePair(PLIndex(i, j)) == (i, j)
  {
    var r := AllelePair(PLIndex(i, j));
    PLIndexInjective(r.0, r.1, i, j);
  }

  lemma PLIndexOfAllelePair(p: nat)
    ensures PLIndex(AllelePair(p).0, AllelePair(p).1) == p
  {
  }
}
