/**
 * The K-nearest-neighbour job: KnnMapper ranks the training rows of its split
 * against the query point and emits its K nearest as (distance, model) pairs;
 * KnnReducer ranks all emitted pairs again and takes the majority model.
 */
module Knn {
  import opened Wrappers
  import opened Distance
  import opened Candidates
  import opened TopK
  import opened Strings
  import opened Vote

  /** The header row of the training CSV starts with this column name. */
  const Header: string := "feature_0"

  /** map() returns early on the header row and on a line that trim() leaves empty. */
  predicate IsSkipped(line: string)
  {
    Header <= line || Trim(line) == []
  }

  /**
   * What one call of map() does with a line: skip it, throw (Java's
   * NoSuchElementException or NumberFormatException, which fail the task), or
   * add a candidate to the ranking.
   */
  datatype MapOutcome = Skipped | Malformed | Added(candidate: Candidate)

  /**
   * Double.parseDouble(token.trim()) on each of the first n tokens:
   * the values if every one parses, None if one of them throws.
   */
  function ParseFeatures(tokens: seq<string>, parse: string -> Option<real>, n: nat): (r: Option<seq<real>>)
    requires n <= |tokens|
    ensures r.Some? ==> |r.value| == n && forall i :: 0 <= i < n ==> parse(Trim(tokens[i])) == Some(r.value[i])
    ensures r.None? <==> exists i :: 0 <= i < n && parse(Trim(tokens[i])).None?
  {
    if n == 0 then Some([])
    else
      match ParseFeatures(tokens, parse, n - 1)
      case None => None
      case Some(front) =>
        match parse(Trim(tokens[n - 1]))
        case None => None
        case Some(v) => Some(front + [v])
  }

  /**
   * The outcome of map() on line, with Double.parseDouble as parse and the query
   * point as query: a row needs six parsable features and a seventh token, the
   * label; its candidate is (totalSquaredDistance(row, query), label.trim()).
   */
  function RowOutcome(line: string, parse: string -> Option<real>, query: Features): (o: MapOutcome)
    // skipped exactly for the header row and for blank lines
    ensures o.Skipped? <==> Header <= line || forall i :: 0 <= i < |line| ==> IsBlank(line[i])
    // otherwise malformed exactly when a token is missing or a feature does not parse
    ensures o.Malformed? <==>
              && !IsSkipped(line)
              && (|Tokens(line)| <= NumFeatures ||
                  exists i :: 0 <= i < NumFeatures && parse(Trim(Tokens(line)[i])).None?)
    // an added candidate is at the squared distance of the parsed features, with the trimmed label
    ensures o.Added? ==>
              && |Tokens(line)| > NumFeatures
              && o.candidate.model == Trim(Tokens(line)[NumFeatures])
              && o.candidate.distance >= 0.0
              && exists f: Features ::
                   && (forall i :: 0 <= i < NumFeatures ==> parse(Trim(Tokens(line)[i])) == Some(f[i]))
                   && o.candidate.distance == SumOfSquares(f, query, NumFeatures)
  {
    if IsSkipped(line) then Skipped
    else
      var tokens := Tokens(line);
      if |tokens| <= NumFeatures then Malformed
      else
        match ParseFeatures(tokens, parse, NumFeatures)
        case None => Malformed
        case Some(f) =>
          var row: Features := f;
          Added(Candidate(SumOfSquares(row, query, NumFeatures), Trim(tokens[NumFeatures])))
  }

  /** One map task: the ranking of its split's rows, and the DoubleString it writes through. */
  class KnnMapper {
    const k: int
    const query: Features
    const distanceAndModel: DoubleString
    var knnMap: KnnMap
    /** The candidates of the rows added so far, in input order. */
    ghost var rows: seq<Candidate>

    /** KnnMap is the ranking of the rows added so far. */
    ghost predicate Valid()
      reads this
    {
      knnMap == InsertAll([], k, rows)
    }

    /** The mapper after setup(): K and the query point read, KnnMap empty. */
    constructor(k: int, query: Features)
      ensures this.k == k && this.query == query
      ensures knnMap == [] && rows == [] && Valid()
      ensures fresh(distanceAndModel)
    {
      this.k := k;
      this.query := query;
      distanceAndModel := new DoubleString();
      knnMap := [];
      rows := [];
    }

    /** map(): skip, throw, or put the row's candidate and trim KnnMap back to K entries. */
    method Map(line: string, parse: string -> Option<real>) returns (outcome: MapOutcome)
      requires Valid()
      modifies this
      ensures Valid()
      ensures outcome == RowOutcome(line, parse, query)
      ensures outcome.Added? ==>
                rows == old(rows) + [outcome.candidate] && knnMap == Insert(old(knnMap), k, outcome.candidate)
      ensures !outcome.Added? ==> rows == old(rows) && knnMap == old(knnMap)
      ensures 0 <= k ==> |knnMap| <= k
    {
      outcome := ReadRow(line, parse);
      if outcome.Added? {
        var c := outcome.candidate;
        knnMap := PutAndTrim(knnMap, k, c);
        InsertAllSnoc([], k, rows, c);
        rows := rows + [c];
      }
    }

    /**
     * The part of map() that reads the line: the header and blank-line check,
     * the tokenizer, six parseDouble calls, the label and totalSquaredDistance.
     */
    method ReadRow(line: string, parse: string -> Option<real>) returns (outcome: MapOutcome)
      ensures outcome == RowOutcome(line, parse, query)
    {
      if Header <= line || Trim(line) == [] {
        return Skipped;
      }
      var tokens := Tokens(line);
      var rFeatures := ReadFeatures(tokens, parse);
      if rFeatures.None? || |tokens| == NumFeatures {
        return Malformed;
      }
      var rTarget := Trim(tokens[NumFeatures]);
      var tDist := TotalSquaredDistance(rFeatures.value, query);
      outcome := Added(Candidate(tDist, rTarget));
    }

    /**
     * The feature loop of map(): six times st.nextToken(), then parseDouble of
     * the trimmed token. None when a token is missing or does not parse.
     */
    method ReadFeatures(tokens: seq<string>, parse: string -> Option<real>) returns (r: Option<seq<real>>)
      ensures |tokens| < NumFeatures ==> r.None?
      ensures |tokens| >= NumFeatures ==> r == ParseFeatures(tokens, parse, NumFeatures)
    {
      var rFeatures: seq<real> := [];
      for i := 0 to NumFeatures
        invariant i <= |tokens|
        invariant ParseFeatures(tokens, parse, i) == Some(rFeatures)
      {
        if i == |tokens| {
          return None;
        }
        var v := parse(Trim(tokens[i]));
        if v.None? {
          return None;
        }
        rFeatures := rFeatures + [v.value];
      }
      return Some(rFeatures);
    }

    /**
     * cleanup(): writes every entry of KnnMap once, in ascending order of
     * distance; these are the K nearest rows of the split.
     */
    method Cleanup() returns (emitted: seq<Candidate>)
      requires Valid()
      modifies distanceAndModel
      ensures emitted == knnMap
      ensures Ordered(emitted)
      ensures IsSmallest(Distances(emitted), Distances(rows), k)
      ensures SubMap(Latest(emitted), Latest(rows))
      ensures forall e :: e in emitted ==> e in rows
      // distanceAndModel is left holding the last pair written, if there was one
      ensures emitted != [] ==> distanceAndModel.Value() == emitted[|emitted| - 1]
      ensures emitted == [] ==> distanceAndModel.Value() == old(distanceAndModel.Value())
    {
      emitted := [];
      for i := 0 to |knnMap|
        invariant emitted == knnMap[..i]
        invariant i > 0 ==> distanceAndModel.Value() == knnMap[i - 1]
        invariant i == 0 ==> distanceAndModel.Value() == old(distanceAndModel.Value())
      {
        distanceAndModel.Set(knnMap[i].distance, knnMap[i].model);
        emitted := emitted + [distanceAndModel.Value()];
      }
      assert knnMap[..|knnMap|] == knnMap;
      RankingContents(k, rows);
      EntriesArrived(k, rows);
    }
  }

  /** The single reduce task: a second ranking over every emitted pair, then the vote. */
  class KnnReducer {
    const k: int
    var knnMap: KnnMap
    /** The pairs received so far, in arrival order. */
    ghost var received: seq<Candidate>

    /** KnnMap is the ranking of the pairs received so far. */
    ghost predicate Valid()
      reads this
    {
      knnMap == InsertAll([], k, received)
    }

    /** The reducer after setup(): K read, KnnMap empty. */
    constructor(k: int)
      ensures this.k == k && knnMap == [] && received == [] && Valid()
    {
      this.k := k;
      knnMap := [];
      received := [];
    }

    /**
     * reduce(): rank values, then vote over the models of KnnMap. None is the
     * Java NullPointerException of new Text(null) when KnnMap is empty.
     * The HashMap of the vote is iterated in order. Its keys are the models left
     * in KnnMap, which are models received, so an order listing every model
     * received lists every key; a listed model that is not a key is passed over
     * by the scan, so the extra entries do not change the result.
     */
    method Reduce(values: seq<Candidate>, order: seq<string>) returns (result: Option<string>)
      requires Valid()
      requires forall i :: 0 <= i < |received| ==> received[i].model in order
      requires forall i :: 0 <= i < |values| ==> values[i].model in order
      modifies this
      ensures Valid() && received == old(received) + values
      ensures IsSmallest(Distances(knnMap), Distances(received), k)
      ensures 0 <= k ==> |knnMap| <= k
      // no answer exactly when nothing arrived at all or K is not positive
      ensures result.None? <==> received == [] || k <= 0
      // otherwise a model of KnnMap that no other model outnumbers there
      ensures result.Some? ==>
                && result.value in Models(knnMap)
                && forall l :: Count(Models(knnMap), l) <= Count(Models(knnMap), result.value)
    {
      Receive(values);
      result := MostCommonModel(order);
    }

    /** The loop of reduce() over its values: the same put-and-trim step as map(). */
    method Receive(values: seq<Candidate>)
      requires Valid()
      modifies this
      ensures Valid() && received == old(received) + values
      ensures IsSmallest(Distances(knnMap), Distances(received), k)
      ensures 0 <= k ==> |knnMap| <= k
    {
      ghost var before := received;
      for i := 0 to |values|
        invariant Valid() && received == before + values[..i]
      {
        var v := values[i];
        ExtendPrefix(before, values, i);
        knnMap := PutAndTrim(knnMap, k, v);
        InsertAllSnoc([], k, received, v);
        received := received + [v];
      }
      assert values[..|values|] == values;
      RankingKeepsSmallest(k, received);
    }

    /**
     * The vote of reduce(): knnList, freqMap and the strict-maximum scan over
     * order, which lists every model received and so every key of freqMap.
     */
    method MostCommonModel(order: seq<string>) returns (result: Option<string>)
      requires Valid()
      requires forall i :: 0 <= i < |received| ==> received[i].model in order
      ensures result.None? <==> received == [] || k <= 0
      ensures result.Some? ==>
                && result.value in Models(knnMap)
                && forall l :: Count(Models(knnMap), l) <= Count(Models(knnMap), result.value)
    {
      var knnList := Models(knnMap);
      forall i | 0 <= i < |knnList| ensures knnList[i] in order {
        var j := EntryOrigin(k, received, i);
      }
      RankingEmpty(k, received);
      result := MostFrequent(knnList, order);
    }
  }

  lemma ExtendPrefix(a: seq<Candidate>, b: seq<Candidate>, i: nat)
    requires i < |b|
    ensures a + b[..i + 1] == (a + b[..i]) + [b[i]]
  {
    assert b[..i + 1] == b[..i] + [b[i]];
  }

  /** The concatenation of the parts, in order. */
  function Flatten(ps: seq<seq<Candidate>>): seq<Candidate>
    decreases |ps|
  {
    if ps == [] then [] else Flatten(ps[..|ps| - 1]) + ps[|ps| - 1]
  }

  /** The distances of each part are distances of the concatenation. */
  lemma {:induction false} PartWithin(ps: seq<seq<Candidate>>, p: nat)
    requires p < |ps|
    ensures Distances(ps[p]) <= Distances(Flatten(ps))
    decreases |ps|
  {
    var front := ps[..|ps| - 1];
    DistancesConcat(Flatten(front), ps[|ps| - 1]);
    if p < |ps| - 1 {
      assert front[p] == ps[p];
      PartWithin(front, p);
    }
  }

  /** A distance of the concatenation is a distance of some part (the p-th). */
  lemma {:induction false} PartOf(ps: seq<seq<Candidate>>, d: real) returns (p: nat)
    requires d in Distances(Flatten(ps))
    ensures p < |ps| && d in Distances(ps[p])
    decreases |ps|
  {
    var front := ps[..|ps| - 1];
    DistancesConcat(Flatten(front), ps[|ps| - 1]);
    if d in Distances(ps[|ps| - 1]) {
      p := |ps| - 1;
    } else {
      p := PartOf(front, d);
      assert front[p] == ps[p];
    }
  }

  /** Two sequences holding the same pairs, in any order, carry the same distances. */
  lemma SameDistances(a: seq<Candidate>, b: seq<Candidate>)
    requires multiset(a) == multiset(b)
    ensures Distances(a) == Distances(b)
  {
    forall d | d in Distances(a) ensures d in Distances(b) {
      var i := DistanceWitness(a, d);
      assert a[i] in multiset(b);
    }
    forall d | d in Distances(b) ensures d in Distances(a) {
      var i := DistanceWitness(b, d);
      assert b[i] in multiset(a);
    }
  }

  /** Every distance a mapper emits is a distance of its part, so of the data set. */
  lemma EmittedWithinData(k: int, parts: seq<seq<Candidate>>, outs: seq<seq<Candidate>>)
    requires |outs| == |parts| && forall p :: 0 <= p < |parts| ==> outs[p] == InsertAll([], k, parts[p])
    ensures Distances(Flatten(outs)) <= Distances(Flatten(parts))
  {
    forall d | d in Distances(Flatten(outs)) ensures d in Distances(Flatten(parts)) {
      var p := PartOf(outs, d);
      RankingKeepsSmallest(k, parts[p]);
      PartWithin(parts, p);
    }
  }

  /** Each of the K smallest distances of the data set survives the mapper that saw it. */
  lemma SmallestAreEmitted(k: int, parts: seq<seq<Candidate>>, outs: seq<seq<Candidate>>)
    requires |outs| == |parts| && forall p :: 0 <= p < |parts| ==> outs[p] == InsertAll([], k, parts[p])
    ensures Distances(InsertAll([], k, Flatten(parts))) <= Distances(Flatten(outs))
  {
    var all := Distances(Flatten(parts));
    var s := Distances(InsertAll([], k, Flatten(parts)));
    RankingKeepsSmallest(k, Flatten(parts));
    forall d | d in s ensures d in Distances(Flatten(outs)) {
      var p := PartOf(parts, d);
      RankingKeepsSmallest(k, parts[p]);
      PartWithin(parts, p);
      SmallestRestricts(s, all, Distances(outs[p]), Distances(parts[p]), k);
      PartWithin(outs, p);
    }
  }

  /**
   * The merge: say the mappers split the data set into parts, each emits its
   * ranking, and the reducer receives all of the emitted pairs in any order.
   * Then the reducer's key set is the min(K, #distinct) smallest distinct
   * distances of the whole data set. This is the key set a single mapper keeps
   * over all of it, however the rows are split and delivered.
   */
  lemma MergeKeepsSmallest(k: int, data: seq<Candidate>, parts: seq<seq<Candidate>>,
                           outs: seq<seq<Candidate>>, received: seq<Candidate>)
    requires multiset(Flatten(parts)) == multiset(data)
    requires |outs| == |parts| && forall p :: 0 <= p < |parts| ==> outs[p] == InsertAll([], k, parts[p])
    requires multiset(received) == multiset(Flatten(outs))
    ensures IsSmallest(Distances(InsertAll([], k, received)), Distances(data), k)
    ensures Distances(InsertAll([], k, received)) == Distances(InsertAll([], k, data))
  {
    var whole := Flatten(parts);
    var s := Distances(InsertAll([], k, whole));
    SameDistances(whole, data);
    SameDistances(received, Flatten(outs));
    EmittedWithinData(k, parts, outs);
    SmallestAreEmitted(k, parts, outs);
    RankingKeepsSmallest(k, whole);
    SmallestOfSubset(s, Distances(received), Distances(whole), k);
    RankingKeepsSmallest(k, received);
    SmallestUnique(s, Distances(InsertAll([], k, received)), Distances(received), k);
    KeysDependOnlyOnDistances(k, whole, data);
  }
}
