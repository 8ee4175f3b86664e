/** An individual under study: its identifiers, sex and affection status,
    the equality and ordering samples are compared by, and the merge of two
    records of the same individual read from different sources.  A Java
    null is None. */
module Samples {

  datatype Option<+T> = None | Some(value: T)

  /** Why a sample could not be built or merged. */
  datatype SampleError =
    | NullArgument(message: string)
    | Inconsistent(name: string, field: string)

  datatype Result<+T> = Success(value: T) | Failure(error: SampleError) {
    predicate IsFailure() {
      Failure?
    }

    function PropagateFailure<U>(): Result<U>
      requires Failure?
    {
      Failure(error)
    }

    function Extract(): T
      requires Success?
    {
      value
    }
  }

  datatype Sex = Male | Female | Unknown

  datatype Affection = Affected | Unaffected | Unknown | Other

  /** A sample record.  The ID and the sex are never null; the other
      fields may be. */
  datatype Sample = Sample(id: string, familyID: Option<string>, paternalID: Option<string>,
                           maternalID: Option<string>, gender: Sex, affection: Option<Affection>)

  /** What equals may be handed: null, a sample, or any other object. */
  datatype Object = Null | SampleObject(sample: Sample) | OtherObject

  // ---------------------------------------------------------------------
  // Construction

  /** The six-argument constructor: a null ID or a null sex is refused, the
      ID first; every other field is kept as given, null included. */
  function NewSample(id: Option<string>, familyID: Option<string>, paternalID: Option<string>,
                     maternalID: Option<string>, gender: Option<Sex>, affection: Option<Affection>): (r: Result<Sample>)
    ensures r.Success? <==> id.Some? && gender.Some?
    ensures id.None? ==> r.error == NullArgument("ID is null")
    ensures id.Some? && gender.None? ==> r.error == NullArgument("sex is null")
    ensures r.Success? ==> && r.value.id == id.value && r.value.gender == gender.value
                           && r.value.familyID == familyID && r.value.paternalID == paternalID
                           && r.value.maternalID == maternalID && r.value.affection == affection
  {
    if id.None? then Failure(NullArgument("ID is null"))
    else if gender.None? then Failure(NullArgument("sex is null"))
    else Success(Sample(id.value, familyID, paternalID, maternalID, gender.value, affection))
  }

  /** The five-argument constructor: as the six-argument one, with the
      affection status unknown. */
  function NewSampleOfUnknownAffection(id: Option<string>, familyID: Option<string>, paternalID: Option<string>,
                                       maternalID: Option<string>, gender: Option<Sex>): (r: Result<Sample>)
    ensures r.Success? <==> id.Some? && gender.Some?
    ensures r.Failure? ==> r.error.NullArgument?
    ensures r.Success? ==> && r.value.affection == Some(Affection.Unknown)
                           && r.value.id == id.value && r.value.gender == gender.value
                           && r.value.familyID == familyID && r.value.paternalID == paternalID
                           && r.value.maternalID == maternalID
  {
    NewSample(id, familyID, paternalID, maternalID, gender, Some(Affection.Unknown))
  }

  // ---------------------------------------------------------------------
  // Equality, hashing and ordering

  /** Two nullable values are equal, or both null. */
  function EqualOrNull<T(==)>(o1: Option<T>, o2: Option<T>): (r: bool)
    ensures r <==> o1 == o2
    ensures o1.None? ==> (r <==> o2.None?)
  {
    if o1.None? then o2.None?
    else if o2.None? then false
    else o1.value == o2.value
  }

  /** equals: only a sample can equal a sample, and then exactly when the
      IDs are equal and every other field is equal or null on both sides. */
  function Equals(s: Sample, o: Object): (r: bool)
    ensures o.Null? ==> !r
    ensures r <==> o == SampleObject(s)
  {
    match o
    case Null => false
    case SampleObject(other) =>
      && s.id == other.id
      && EqualOrNull(s.familyID, other.familyID)
      && EqualOrNull(s.paternalID, other.paternalID)
      && EqualOrNull(s.maternalID, other.maternalID)
      && EqualOrNull(Some(s.gender), Some(other.gender))
      && EqualOrNull(s.affection, other.affection)
    case OtherObject => false
  }

  lemma EqualsIsEquivalence(a: Sample, b: Sample, c: Sample)
    ensures Equals(a, SampleObject(a))
    ensures Equals(a, SampleObject(b)) ==> Equals(b, SampleObject(a))
    ensures Equals(a, SampleObject(b)) && Equals(b, SampleObject(c)) ==> Equals(a, SampleObject(c))
  {
  }

  const TwoTo32: int := 0x1_0000_0000
  const TwoTo31: int := 0x8000_0000

  /** The 32-bit two's-complement value congruent to x. */
  function Int32(x: int): (r: int)
    ensures -TwoTo31 <= r < TwoTo31
    ensures (r - x) % TwoTo32 == 0
  {
    var m := x % TwoTo32;
    if m >= TwoTo31 then m - TwoTo32 else m
  }

  /** Java's String.hashCode: h = 31 * h + c over the characters, in 32-bit
      arithmetic that wraps around. */
  function StringHash(s: string): (r: int)
    ensures -TwoTo31 <= r < TwoTo31
  {
    if s == [] then 0 else Int32(31 * StringHash(s[..|s| - 1]) + s[|s| - 1] as int)
  }

  function Pow31(n: nat): nat
  {
    if n == 0 then 1 else 31 * Pow31(n - 1)
  }

  /** The documented value of String.hashCode before wrap-around:
      s[0] * 31^(n-1) + s[1] * 31^(n-2) + ... + s[n-1]. */
  function PolynomialHash(s: string): int
  {
    if s == [] then 0 else s[0] as int * Pow31(|s| - 1) + PolynomialHash(s[1..])
  }

  lemma {:induction false} PolynomialHashSnoc(s: string, c: char)
    ensures PolynomialHash(s + [c]) == 31 * PolynomialHash(s) + c as int
  {
    if s != [] {
      assert (s + [c])[1..] == s[1..] + [c];
      PolynomialHashSnoc(s[1..], c);
      assert Pow31(|s|) == 31 * Pow31(|s| - 1);
    } else {
      assert s + [c] == [c];
    }
  }

  /** Wrapping before or after multiplying by 31 and adding c gives the
      same 32-bit value. */
  lemma Int32Step(x: int, c: int)
    ensures Int32(31 * Int32(x) + c) == Int32(31 * x + c)
  {
    var k := (Int32(x) - x) / TwoTo32;
    assert Int32(x) == x + k * TwoTo32;
    assert 31 * Int32(x) + c == (31 * x + c) + (31 * k) * TwoTo32;
    Int32Shift(31 * x + c, 31 * k);
  }

  lemma Int32Shift(y: int, k: int)
    ensures Int32(y + k * TwoTo32) == Int32(y)
  {
    assert (y + k * TwoTo32) % TwoTo32 == y % TwoTo32;
  }

  /** The wrapping fold computes the documented polynomial, wrapped once. */
  lemma {:induction false} StringHashIsPolynomial(s: string)
    ensures StringHash(s) == Int32(PolynomialHash(s))
  {
    if s != [] {
      var init := s[..|s| - 1];
      StringHashIsPolynomial(init);
      Int32Step(PolynomialHash(init), s[|s| - 1] as int);
      assert s == init + [s[|s| - 1]];
      PolynomialHashSnoc(init, s[|s| - 1]);
    }
  }

  /** hashCode: the hash of the ID alone. */
  function HashCode(s: Sample): (r: int)
    ensures -TwoTo31 <= r < TwoTo31
    ensures r == Int32(PolynomialHash(s.id))
  {
    StringHashIsPolynomial(s.id);
    StringHash(s.id)
  }

  /** Equal samples have equal hash codes. */
  lemma EqualsHashCode(a: Sample, b: Sample)
    requires Equals(a, SampleObject(b))
    ensures HashCode(a) == HashCode(b)
  {
  }

  /** Java's String.compareTo: the difference of the first differing
      characters, or else of the lengths. */
  function CompareStrings(a: string, b: string): int
  {
    if a == [] || b == [] then |a| - |b|
    else if a[0] != b[0] then a[0] as int - b[0] as int
    else CompareStrings(a[1..], b[1..])
  }

  lemma {:induction false} CompareStringsZero(a: string, b: string)
    ensures CompareStrings(a, b) == 0 <==> a == b
  {
    if a != [] && b != [] && a[0] == b[0] {
      CompareStringsZero(a[1..], b[1..]);
      assert a == [a[0]] + a[1..] && b == [b[0]] + b[1..];
    }
  }

  lemma {:induction false} CompareStringsAntisymmetric(a: string, b: string)
    ensures CompareStrings(a, b) == -CompareStrings(b, a)
  {
    if a != [] && b != [] && a[0] == b[0] {
      CompareStringsAntisymmetric(a[1..], b[1..]);
    }
  }

  lemma {:induction false} CompareStringsTransitive(a: string, b: string, c: string)
    requires CompareStrings(a, b) < 0 && CompareStrings(b, c) < 0
    ensures CompareStrings(a, c) < 0
  {
    if a != [] && b != [] && c != [] && a[0] == b[0] && b[0] == c[0] {
      CompareStringsTransitive(a[1..], b[1..], c[1..]);
    }
  }

  /** compareTo: samples are ordered by ID alone. */
  function CompareTo(s: Sample, other: Sample): (r: int)
    ensures r == 0 <==> s.id == other.id
    ensures r == -CompareStrings(other.id, s.id)
  {
    CompareStringsZero(s.id, other.id);
    CompareStringsAntisymmetric(s.id, other.id);
    CompareStrings(s.id, other.id)
  }

  /** The ordering ignores every field but the ID, so it does not agree
      with equals: two different records of one ID compare as 0 but are
      not equal. */
  lemma CompareToCoarserThanEquals(a: Sample, b: Sample)
    requires a.id == b.id && a != b
    ensures CompareTo(a, b) == 0 && !Equals(a, SampleObject(b))
  {
  }

  lemma EqualsCompareTo(a: Sample, b: Sample)
    requires Equals(a, SampleObject(b))
    ensures CompareTo(a, b) == 0
  {
  }

  // ---------------------------------------------------------------------
  // Merging

  /** A value carries no information: it is null, or equal to the field's
      empty value when the field has one. */
  predicate IsEmpty<T(==)>(o: Option<T>, emptyValue: Option<T>)
  {
    o.None? || (emptyValue.Some? && o == emptyValue)
  }

  /** Two values both carry information and disagree. */
  predicate Clash<T(==)>(o1: Option<T>, o2: Option<T>, emptyValue: Option<T>)
  {
    !IsEmpty(o1, emptyValue) && !IsEmpty(o2, emptyValue) && o1 != o2
  }

  /** mergeValues: an empty first value yields the second; otherwise an
      empty second value yields the first; two equal real values yield that
      value; two different real values are inconsistent. */
  function MergeValues<T(==)>(name: string, field: string, o1: Option<T>, o2: Option<T>,
                              emptyValue: Option<T>): (r: Result<Option<T>>)
    ensures r.Failure? <==> Clash(o1, o2, emptyValue)
    ensures r.Failure? ==> r.error == Inconsistent(name, field)
    ensures r.Success? ==> r.value == o1 || r.value == o2
    ensures r.Success? && !IsEmpty(o1, emptyValue) ==> r.value == o1
    ensures r.Success? && !IsEmpty(o2, emptyValue) ==> r.value == o2
    ensures r.Success? && IsEmpty(o1, emptyValue) ==> r.value == o2
  {
    if IsEmpty(o1, emptyValue) then Success(o2)
    else if IsEmpty(o2, emptyValue) then Success(o1)
    else if o1 == o2 then Success(o1)
    else Failure(Inconsistent(name, field))
  }

  lemma MergeValuesIdempotent<T>(name: string, field: string, x: Option<T>, emptyValue: Option<T>)
    ensures MergeValues(name, field, x, x, emptyValue) == Success(x)
  {
  }

  /** Unless both are empty, the order of the two values does not matter. */
  lemma MergeValuesSymmetric<T>(name: string, field: string, o1: Option<T>, o2: Option<T>,
                                    emptyValue: Option<T>)
    requires !IsEmpty(o1, emptyValue) || !IsEmpty(o2, emptyValue)
    ensures MergeValues(name, field, o1, o2, emptyValue) == MergeValues(name, field, o2, o1, emptyValue)
  {
  }

  /** Merging the second value again into a merged value changes nothing. */
  lemma MergeValuesAbsorbs<T>(name: string, field: string, o1: Option<T>, o2: Option<T>,
                                  emptyValue: Option<T>)
    requires MergeValues(name, field, o1, o2, emptyValue).Success?
    ensures var m := MergeValues(name, field, o1, o2, emptyValue).value;
      MergeValues(name, field, m, o2, emptyValue) == Success(m)
  {
  }

  /** Some field of the two records holds two different real values. */
  predicate Conflicting(s: Sample, n: Sample)
  {
    || Clash(s.familyID, n.familyID, None)
    || Clash(s.paternalID, n.paternalID, None)
    || Clash(s.maternalID, n.maternalID, None)
    || Clash(Some(s.gender), Some(n.gender), Some(Sex.Unknown))
    || Clash(s.affection, n.affection, Some(Affection.Unknown))
  }

  /** m keeps every real value of s and of n, field by field, and takes
      each field from one of them; when s's value is empty, n's is taken,
      even if it is empty in another way. */
  predicate Keeps<T(==)>(m: Option<T>, a: Option<T>, b: Option<T>, emptyValue: Option<T>)
  {
    && (m == a || m == b)
    && (!IsEmpty(a, emptyValue) ==> m == a)
    && (!IsEmpty(b, emptyValue) ==> m == b)
    && (IsEmpty(a, emptyValue) ==> m == b)
  }

  /** The label of the first field, in the order mergeSamples merges them,
      whose two values clash. */
  function FirstConflict(s: Sample, n: Sample): string
  {
    if Clash(s.familyID, n.familyID, None) then "FamilyID"
    else if Clash(s.paternalID, n.paternalID, None) then "PaternalID"
    else if Clash(s.maternalID, n.maternalID, None) then "MaterialID"
    else if Clash(Some(s.gender), Some(n.gender), Some(Sex.Unknown)) then "Gender"
    else "Affection"
  }

  predicate MergeOf(m: Sample, s: Sample, n: Sample)
  {
    && Keeps(m.familyID, s.familyID, n.familyID, None)
    && Keeps(m.paternalID, s.paternalID, n.paternalID, None)
    && Keeps(m.maternalID, s.maternalID, n.maternalID, None)
    && Keeps(Some(m.gender), Some(s.gender), Some(n.gender), Some(Sex.Unknown))
    && Keeps(m.affection, s.affection, n.affection, Some(Affection.Unknown))
  }

  /** mergeSamples: an equal record is returned as it is; otherwise a new
      record with this sample's ID, merged field by field, with null as the
      empty family, paternal and maternal ID and unknown as the empty sex
      and affection; the first inconsistent field is reported. */
  function MergeSamples(s: Sample, newSample: Sample): (r: Result<Sample>)
    ensures Equals(s, SampleObject(newSample)) ==> r == Success(newSample)
    ensures r.Failure? <==> Conflicting(s, newSample)
    ensures r.Failure? ==> r.error == Inconsistent(s.id, FirstConflict(s, newSample))
    ensures r.Success? ==> r.value.id == s.id && MergeOf(r.value, s, newSample)
  {
    if Equals(s, SampleObject(newSample)) then Success(newSample)
    else
      var familyID :- MergeValues(s.id, "FamilyID", s.familyID, newSample.familyID, None);
      var paternalID :- MergeValues(s.id, "PaternalID", s.paternalID, newSample.paternalID, None);
      var maternalID :- MergeValues(s.id, "MaterialID", s.maternalID, newSample.maternalID, None);
      var gender :- MergeValues(s.id, "Gender", Some(s.gender), Some(newSample.gender), Some(Sex.Unknown));
      var affection :- MergeValues(s.id, "Affection", s.affection, newSample.affection, Some(Affection.Unknown));
      NewSample(Some(s.id), familyID, paternalID, maternalID, gender, affection)
  }

  /** Merging a record with an equal one never fails. */
  lemma MergeEqualSucceeds(s: Sample, n: Sample)
    requires Equals(s, SampleObject(n))
    ensures MergeSamples(s, n).Success?
  {
  }

  /** Merging the same new record a second time changes nothing. */
  lemma MergeSamplesAbsorbs(s: Sample, n: Sample)
    requires MergeSamples(s, n).Success?
    ensures var m := MergeSamples(s, n).value;
      MergeSamples(m, n) == Success(m)
  {
    var m := MergeSamples(s, n).value;
    if !Equals(m, SampleObject(n)) {
      assert !Conflicting(m, n);
      var r := MergeSamples(m, n).value;
      assert r.familyID == m.familyID;
      assert r.paternalID == m.paternalID;
      assert r.maternalID == m.maternalID;
      assert r.gender == m.gender;
      assert r.affection == m.affection;
    }
  }
}
