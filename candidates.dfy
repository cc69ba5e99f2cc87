/**
 * The (distance, model) pair that the mapper emits and the reducer consumes
 * (KnnPattern.DoubleString), as a value.
 */
module Candidates {

  /** A training row ranked against the query: its squared distance and its class label (the model). */
  datatype Candidate = Candidate(distance: real, model: string)

  /**
   * String.compareTo: the difference of the first pair of characters that differ,
   * or else the difference of the lengths.
   */
  function CompareStrings(a: string, b: string): (c: int)
    ensures c == 0 <==> a == b
  {
    if |a| == 0 || |b| == 0 then |a| - |b|
    else if a[0] != b[0] then a[0] as int - b[0] as int
    else
      var c := CompareStrings(a[1..], b[1..]);
      assert a == [a[0]] + a[1..] && b == [b[0]] + b[1..];
      c
  }

  /** String.compareTo is antisymmetric. */
  lemma {:induction false} CompareStringsAntisymmetric(a: string, b: string)
    ensures CompareStrings(a, b) == -CompareStrings(b, a)
  {
    if |a| > 0 && |b| > 0 && a[0] == b[0] {
      CompareStringsAntisymmetric(a[1..], b[1..]);
    }
  }

  /**
   * KnnPattern.DoubleString: the mutable carrier the mapper reuses for every
   * pair it writes. The getters are plain reads of the two fields.
   */
  class DoubleString {
    var distance: real
    var model: string

    /** new DoubleString(): distance 0.0; the model, null in Java, is the empty string here. */
    constructor()
      ensures distance == 0.0 && model == ""
    {
      distance := 0.0;
      model := "";
    }

    /** set(lhs, rhs) overwrites both fields. */
    method Set(lhs: real, rhs: string)
      modifies this
      ensures distance == lhs && model == rhs
      // the getters read back what was set
      ensures Value() == Candidate(lhs, rhs)
    {
      distance := lhs;
      model := rhs;
    }

    /**
     * getDistance() and getModel() together: the pair as it is read back, and as
     * write() serialises it.
     */
    function Value(): (c: Candidate)
      reads this
      ensures c.distance == distance && c.model == model
    {
      Candidate(distance, model)
    }

    /**
     * compareTo(o) compares the models alone, so that two pairs with one model
     * and different distances compare as equal; it is antisymmetric.
     */
    function CompareTo(o: DoubleString): (c: int)
      reads this, o
      ensures c == 0 <==> model == o.model
      ensures c == -CompareStrings(o.model, model)
    {
      CompareStringsAntisymmetric(model, o.model);
      CompareStrings(model, o.model)
    }
  }
}
