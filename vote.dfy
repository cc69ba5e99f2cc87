/**
 * The reducer's majority vote over the models of the K nearest neighbours:
 * a HashMap from model to frequency built by one loop, then a scan for the
 * entry of highest frequency with a strict `>`.
 */
module Vote {
  import opened Wrappers

  /** The number of occurrences of l in list. */
  function Count(list: seq<string>, l: string): (n: nat)
    ensures n <= |list|
    ensures n > 0 <==> l in list
    decreases |list|
  {
    if list == [] then 0
    else
      var front := list[..|list| - 1];
      assert list == front + [list[|list| - 1]];
      Count(front, l) + (if list[|list| - 1] == l then 1 else 0)
  }

  /** The distinct elements of list, in order of first occurrence. */
  function Distinct(list: seq<string>): (ds: seq<string>)
    ensures forall l :: l in ds <==> l in list
    ensures forall i, j :: 0 <= i < j < |ds| ==> ds[i] != ds[j]
    decreases |list|
  {
    if list == [] then []
    else
      var front := list[..|list| - 1];
      var x := list[|list| - 1];
      assert list == front + [x];
      if x in Distinct(front) then Distinct(front) else Distinct(front) + [x]
  }

  /** The sum of the counts in list of the elements of ds. */
  function SumCounts(ds: seq<string>, list: seq<string>): int
    decreases |ds|
  {
    if ds == [] then 0 else SumCounts(ds[..|ds| - 1], list) + Count(list, ds[|ds| - 1])
  }

  /** Appending x to list adds one to the sum exactly when x is counted by ds. */
  lemma {:induction false} SumCountsAppend(ds: seq<string>, list: seq<string>, x: string)
    requires forall i, j :: 0 <= i < j < |ds| ==> ds[i] != ds[j]
    ensures SumCounts(ds, list + [x]) == SumCounts(ds, list) + (if x in ds then 1 else 0)
    decreases |ds|
  {
    var l := list + [x];
    assert l[..|l| - 1] == list;
    if ds != [] {
      var front := ds[..|ds| - 1];
      SumCountsAppend(front, list, x);
      assert x in ds <==> x in front || x == ds[|ds| - 1];
      if x == ds[|ds| - 1] {
        assert x !in front by {
          forall i | 0 <= i < |front| ensures front[i] != x {
            assert front[i] == ds[i];
          }
        }
      }
    }
  }

  /** Adding to ds an element that list lacks leaves the sum unchanged. */
  lemma SumCountsAbsent(ds: seq<string>, list: seq<string>, x: string)
    requires x !in list
    ensures SumCounts(ds + [x], list) == SumCounts(ds, list)
  {
    assert (ds + [x])[..|ds|] == ds;
  }

  /** The frequencies of the distinct elements of list add up to the length of list. */
  lemma {:induction false} CountsSumToLength(list: seq<string>)
    ensures SumCounts(Distinct(list), list) == |list|
    decreases |list|
  {
    if list != [] {
      var front := list[..|list| - 1];
      var x := list[|list| - 1];
      assert list == front + [x];
      CountsSumToLength(front);
      SumCountsAppend(Distinct(front), front, x);
      if x !in Distinct(front) {
        SumCountsAbsent(Distinct(front), front, x);
        SumCountsAppend(Distinct(front) + [x], front, x);
        assert x in Distinct(front) + [x];
      }
    }
  }

  /**
   * The freqMap loop: a key for every element of list, holding its number of
   * occurrences (get() == null puts 1, otherwise frequency + 1).
   */
  method Frequencies(list: seq<string>) returns (freq: map<string, int>)
    ensures forall l :: l in freq <==> l in list
    ensures forall l :: l in freq ==> freq[l] == Count(list, l)
    // the keys are the distinct labels, and their frequencies add up to knnList.size()
    ensures forall l :: l in freq <==> l in Distinct(list)
    ensures SumCounts(Distinct(list), list) == |list|
  {
    freq := map[];
    for i := 0 to |list|
      invariant forall l :: l in freq <==> l in list[..i]
      invariant forall l :: l in freq ==> freq[l] == Count(list[..i], l)
    {
      var l := list[i];
      assert list[..i + 1][..i] == list[..i];
      if l !in freq {
        freq := freq[l := 1];
      } else {
        freq := freq[l := freq[l] + 1];
      }
    }
    assert list[..|list|] == list;
    CountsSumToLength(list);
  }

  /**
   * The argmax scan: mostCommonModel starts null and maxFrequency -1, and an
   * entry replaces them only when its frequency is strictly greater. The
   * HashMap's iteration order is the parameter order, which lists every key
   * (a string that is not a key is passed over).
   */
  method MostCommon(freq: map<string, int>, order: seq<string>) returns (best: Option<string>)
    requires forall l :: l in freq ==> l in order
    // null exactly when no frequency is above -1 (in particular, when freqMap is empty)
    ensures best.None? <==> forall l :: l in freq ==> freq[l] <= -1
    // otherwise a key of maximal frequency ...
    ensures best.Some? ==> best.value in freq && forall l :: l in freq ==> freq[l] <= freq[best.value]
    // ... and the first such key in iteration order
    ensures best.Some? ==>
              exists i :: && 0 <= i < |order| && order[i] == best.value
                          && forall j :: 0 <= j < i && order[j] in freq ==> freq[order[j]] < freq[best.value]
  {
    best := None;
    var maxFrequency := -1;
    ghost var at := 0;
    for i := 0 to |order|
      invariant best.Some? ==> best.value in freq
      invariant maxFrequency == (if best.None? then -1 else freq[best.value])
      invariant best.Some? ==> maxFrequency > -1
      invariant forall j :: 0 <= j < i && order[j] in freq ==> freq[order[j]] <= maxFrequency
      invariant best.Some? ==>
                  && at < i && order[at] == best.value
                  && forall j :: 0 <= j < at && order[j] in freq ==> freq[order[j]] < maxFrequency
    {
      if order[i] in freq && freq[order[i]] > maxFrequency {
        best := Some(order[i]);
        maxFrequency := freq[order[i]];
        at := i;
      }
    }
    forall l | l in freq ensures freq[l] <= maxFrequency {
      var j :| 0 <= j < |order| && order[j] == l;
    }
  }

  /**
   * The whole vote over knnList: null exactly when the list is empty, otherwise
   * an element of the list that no other element outnumbers.
   */
  method MostFrequent(list: seq<string>, order: seq<string>) returns (best: Option<string>)
    requires forall l :: l in list ==> l in order
    ensures best.None? <==> list == []
    ensures best.Some? ==> best.value in list && forall l :: Count(list, l) <= Count(list, best.value)
  {
    var freq := Frequencies(list);
    best := MostCommon(freq, order);
    if list != [] {
      assert list[0] in freq;
    }
    if best.Some? {
      forall l ensures Count(list, l) <= Count(list, best.value) {
        if l in list {
          assert l in freq;
        }
      }
    }
  }
}
