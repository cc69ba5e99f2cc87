/**
 * The bounded ranking that the mapper and the reducer share: a TreeMap from
 * distance to model that, after every put, drops its last (largest) key when
 * it holds more than K entries. The map is keyed by distance alone, so a second
 * row at a distance already held overwrites the model stored there.
 *
 * The TreeMap is represented by its entry list in ascending key order (what
 * entrySet() iterates), with strictly increasing distances, so that there is
 * one entry per distinct distance.
 */
module TopK {
  import opened Candidates

  /** TreeMap<Double, String>, as its entries in ascending order of distance. */
  type KnnMap = seq<Candidate>

  /** Strictly ascending distances: a valid TreeMap entry list. */
  ghost predicate Ordered(m: KnnMap)
  {
    forall i, j :: 0 <= i < j < |m| ==> m[i].distance < m[j].distance
  }

  /** The set of distances carried by a sequence of candidates (for a KnnMap: its key set). */
  function Distances(cs: seq<Candidate>): (ds: set<real>)
    ensures forall i :: 0 <= i < |cs| ==> cs[i].distance in ds
    decreases |cs|
  {
    if cs == [] then {} else Distances(cs[..|cs| - 1]) + {cs[|cs| - 1].distance}
  }

  /** Every distance in Distances(cs) is carried by some candidate of cs. */
  lemma {:induction false} DistanceWitness(cs: seq<Candidate>, d: real) returns (i: nat)
    requires d in Distances(cs)
    ensures i < |cs| && cs[i].distance == d
    decreases |cs|
  {
    if cs[|cs| - 1].distance == d {
      i := |cs| - 1;
    } else {
      i := DistanceWitness(cs[..|cs| - 1], d);
    }
  }

  lemma DistancesConcat(a: seq<Candidate>, b: seq<Candidate>)
    ensures Distances(a + b) == Distances(a) + Distances(b)
  {
    forall d | d in Distances(a + b) ensures d in Distances(a) + Distances(b) {
      var i := DistanceWitness(a + b, d);
      if i < |a| {
        assert a[i] == (a + b)[i];
      } else {
        assert b[i - |a|] == (a + b)[i];
      }
    }
    forall d | d in Distances(a) ensures d in Distances(a + b) {
      var i := DistanceWitness(a, d);
      assert (a + b)[i] == a[i];
    }
    forall d | d in Distances(b) ensures d in Distances(a + b) {
      var i := DistanceWitness(b, d);
      assert (a + b)[|a| + i] == b[i];
    }
  }

  lemma SubsetCard(a: set<real>, b: set<real>)
    requires a <= b
    ensures |a| <= |b|
    ensures |a| == |b| ==> a == b
  {
    assert a * b == a;
    assert a + b == b;
    assert a - b == {};
    assert |b - a| >= 0;
  }

  /** In an entry list, every held distance is at most the last one. */
  lemma LastIsLargest(m: KnnMap)
    requires Ordered(m) && |m| > 0
    ensures forall d :: d in Distances(m) ==> d <= m[|m| - 1].distance
  {
    forall d | d in Distances(m) ensures d <= m[|m| - 1].distance {
      var i := DistanceWitness(m, d);
    }
  }

  /** Dropping the last entry of an entry list removes exactly its distance. */
  lemma DropLast(m: KnnMap)
    requires Ordered(m) && |m| > 0
    ensures Distances(m[..|m| - 1]) == Distances(m) - {m[|m| - 1].distance}
    ensures Latest(m[..|m| - 1]) == Latest(m) - {m[|m| - 1].distance}
  {
    var front := m[..|m| - 1];
    forall d | d in Distances(front) ensures d < m[|m| - 1].distance {
      var i := DistanceWitness(front, d);
      assert front[i] == m[i];
    }
    LatestKeys(front);
    PutRemoved(Latest(front), m[|m| - 1].distance, m[|m| - 1].model);
  }

  /** Removing a key just put into t, when t lacked it, gives back t. */
  lemma PutRemoved(t: map<real, string>, x: real, v: string)
    requires x !in t
    ensures t[x := v] - {x} == t
  {
  }

  /** An entry list has one entry per distinct distance. */
  lemma {:induction false} OrderedCard(m: KnnMap)
    requires Ordered(m)
    ensures |Distances(m)| == |m|
  {
    if |m| > 0 {
      var front := m[..|m| - 1];
      assert Ordered(front);
      OrderedCard(front);
      DropLast(m);
    }
  }

  /**
   * What a TreeMap holds after putting cs in order with no eviction: one entry per
   * distance, carrying the model of the last candidate at that distance.
   */
  function Latest(cs: seq<Candidate>): (t: map<real, string>)
    decreases |cs|
  {
    if cs == [] then map[]
    else Latest(cs[..|cs| - 1])[cs[|cs| - 1].distance := cs[|cs| - 1].model]
  }

  /** The keys of Latest(cs) are the distances of cs. */
  lemma {:induction false} LatestKeys(cs: seq<Candidate>)
    ensures Latest(cs).Keys == Distances(cs)
    decreases |cs|
  {
    if cs != [] {
      LatestKeys(cs[..|cs| - 1]);
    }
  }

  /** Merging a one-entry map under t, at a key t lacks, is putting that entry into t. */
  lemma MergeFresh(x: real, a: string, t: map<real, string>)
    requires x !in t
    ensures map[x := a] + t == t[x := a]
  {
  }

  /** A put under a merge commutes with the merge when the merged key differs. */
  lemma MergeCommute(x: real, a: string, y: real, b: string, t: map<real, string>)
    requires x != y
    ensures map[x := a] + t[y := b] == (map[x := a] + t)[y := b]
  {
  }

  lemma {:induction false} LatestConcat(a: seq<Candidate>, b: seq<Candidate>)
    ensures Latest(a + b) == Latest(a) + Latest(b)
    decreases |b|
  {
    if b == [] {
      assert a + b == a;
    } else {
      var bf := b[..|b| - 1];
      var bl := b[|b| - 1];
      assert (a + b)[..|a + b| - 1] == a + bf;
      assert (a + b)[|a + b| - 1] == bl;
      LatestConcat(a, bf);
    }
  }

  lemma LatestCons(c: Candidate, s: seq<Candidate>)
    ensures Latest([c] + s) == map[c.distance := c.model] + Latest(s)
  {
    LatestConcat([c], s);
    assert [c][..0] == [];
  }

  /** In an entry list, the first distance is below every other. */
  lemma HeadBelowRest(m: KnnMap)
    requires Ordered(m) && |m| > 0
    ensures forall d :: d in Distances(m[1..]) ==> m[0].distance < d
  {
    forall d | d in Distances(m[1..]) ensures m[0].distance < d {
      var i := DistanceWitness(m[1..], d);
      assert m[1..][i] == m[i + 1];
    }
  }

  /** In an entry list, every held distance is at least the first one. */
  lemma FirstIsSmallest(m: KnnMap)
    requires Ordered(m) && |m| > 0
    ensures forall d :: d in Distances(m) ==> m[0].distance <= d
  {
    forall d | d in Distances(m) ensures m[0].distance <= d {
      var i := DistanceWitness(m, d);
    }
  }

  /** A candidate below every distance of an entry list can go in front of it. */
  lemma OrderedCons(c: Candidate, s: KnnMap)
    requires Ordered(s)
    requires forall d :: d in Distances(s) ==> c.distance < d
    ensures Ordered([c] + s)
  {
    var r := [c] + s;
    forall i, j | 0 <= i < j < |r| ensures r[i].distance < r[j].distance {
      assert r[j] == s[j - 1];
      if i > 0 {
        assert r[i] == s[i - 1];
      } else {
        assert s[j - 1].distance in Distances(s);
      }
    }
  }

  /** TreeMap.put(distance, model): a new key enters in order; an existing key gets the new model. */
  function Put(m: KnnMap, c: Candidate): (r: KnnMap)
    requires Ordered(m)
    ensures Ordered(r)
    ensures Latest(r) == Latest(m)[c.distance := c.model]
    ensures Distances(r) == Distances(m) + {c.distance}
  {
    if m == [] || c.distance < m[0].distance then
      PutInFront(m, c);
      [c] + m
    else if c.distance == m[0].distance then
      PutOver(m, c);
      [c] + m[1..]
    else
      var rest := Put(m[1..], c);
      PutBehind(m, c, rest);
      [m[0]] + rest
  }

  /** The key set of a put follows from its contents. */
  lemma PutKeys(m: KnnMap, c: Candidate, r: KnnMap)
    requires Latest(r) == Latest(m)[c.distance := c.model]
    ensures Distances(r) == Distances(m) + {c.distance}
  {
    LatestKeys(r);
    LatestKeys(m);
  }

  /** Put of a key below every key held: the new entry goes first. */
  lemma PutInFront(m: KnnMap, c: Candidate)
    requires Ordered(m) && (m == [] || c.distance < m[0].distance)
    ensures Ordered([c] + m)
    ensures Latest([c] + m) == Latest(m)[c.distance := c.model]
    ensures Distances([c] + m) == Distances(m) + {c.distance}
  {
    assert forall d :: d in Distances(m) ==> c.distance < d by {
      if m != [] {
        FirstIsSmallest(m);
      }
    }
    assert Ordered([c] + m) by {
      OrderedCons(c, m);
    }
    LatestCons(c, m);
    LatestKeys(m);
    MergeFresh(c.distance, c.model, Latest(m));
    PutKeys(m, c, [c] + m);
  }

  /** Put of the first key held: the new model replaces the first entry's. */
  lemma PutOver(m: KnnMap, c: Candidate)
    requires Ordered(m) && m != [] && c.distance == m[0].distance
    ensures Ordered([c] + m[1..])
    ensures Latest([c] + m[1..]) == Latest(m)[c.distance := c.model]
    ensures Distances([c] + m[1..]) == Distances(m) + {c.distance}
  {
    var rest := m[1..];
    var t := Latest(rest);
    HeadBelowRest(m);
    assert Ordered([c] + rest) by {
      OrderedCons(c, rest);
    }
    assert c.distance !in t by {
      LatestKeys(rest);
    }
    OverwriteHead(m, c);
    PutKeys(m, c, [c] + rest);
  }

  /** Replacing the first entry by one at the same distance is a put, when the rest lacks that distance. */
  lemma OverwriteHead(m: seq<Candidate>, c: Candidate)
    requires m != [] && c.distance == m[0].distance && c.distance !in Latest(m[1..])
    ensures Latest([c] + m[1..]) == Latest(m)[c.distance := c.model]
  {
    var rest := m[1..];
    var t := Latest(rest);
    assert m == [m[0]] + rest;
    assert Latest([c] + rest) == t[c.distance := c.model] by {
      LatestCons(c, rest);
      MergeFresh(c.distance, c.model, t);
    }
    assert Latest(m) == t[m[0].distance := m[0].model] by {
      LatestCons(m[0], rest);
      MergeFresh(m[0].distance, m[0].model, t);
    }
  }

  /** Put of a key above the first one: the first entry stays in front of the put into the rest. */
  lemma PutBehind(m: KnnMap, c: Candidate, rest: KnnMap)
    requires Ordered(m) && m != [] && m[0].distance < c.distance
    requires Ordered(rest)
    requires Latest(rest) == Latest(m[1..])[c.distance := c.model]
    requires Distances(rest) == Distances(m[1..]) + {c.distance}
    ensures Ordered([m[0]] + rest)
    ensures Latest([m[0]] + rest) == Latest(m)[c.distance := c.model]
    ensures Distances([m[0]] + rest) == Distances(m) + {c.distance}
  {
    assert m == [m[0]] + m[1..];
    assert Ordered([m[0]] + rest) by {
      HeadBelowRest(m);
      OrderedCons(m[0], rest);
    }
    LatestCons(m[0], m[1..]);
    LatestCons(m[0], rest);
    MergeCommute(m[0].distance, m[0].model, c.distance, c.model, Latest(m[1..]));
    PutKeys(m, c, [m[0]] + rest);
  }

  /** A put adds an entry exactly when its distance is new; otherwise the size stays. */
  lemma PutSize(m: KnnMap, c: Candidate)
    requires Ordered(m)
    ensures |Put(m, c)| == if c.distance in Distances(m) then |m| else |m| + 1
  {
    OrderedCard(m);
    OrderedCard(Put(m, c));
    if c.distance in Distances(m) {
      assert Distances(m) + {c.distance} == Distances(m);
    }
  }

  /** Every entry of sub is in whole, with the same model. */
  ghost predicate SubMap(sub: map<real, string>, whole: map<real, string>)
  {
    forall d :: d in sub ==> d in whole && sub[d] == whole[d]
  }

  lemma SubMapPut(a: map<real, string>, b: map<real, string>, x: real, v: string)
    requires SubMap(a, b)
    ensures SubMap(a[x := v], b[x := v])
  {
  }

  lemma SubMapTrans(a: map<real, string>, b: map<real, string>, c: map<real, string>)
    requires SubMap(a, b) && SubMap(b, c)
    ensures SubMap(a, c)
  {
  }

  /** A put under a merge is a put into the merge. */
  lemma MergeUpdate(a: map<real, string>, b: map<real, string>, x: real, v: string)
    ensures a + b[x := v] == (a + b)[x := v]
  {
  }

  /**
   * One ranking step: KnnMap.put(distance, model), then, if KnnMap.size() > K,
   * KnnMap.remove(KnnMap.lastKey()).
   */
  function Insert(m: KnnMap, k: int, c: Candidate): (r: KnnMap)
    requires Ordered(m)
    ensures Ordered(r)
    // every entry kept is an entry of the put
    ensures SubMap(Latest(r), Latest(Put(m, c)))
    // if the put leaves at most K entries, nothing is evicted
    ensures |Put(m, c)| <= k ==> r == Put(m, c)
    // otherwise exactly the entry at the largest key goes
    ensures |Put(m, c)| > k ==>
              var gone := Put(m, c)[|Put(m, c)| - 1].distance;
              && |r| == |Put(m, c)| - 1
              && Distances(r) == Distances(Put(m, c)) - {gone}
              && forall d :: d in Distances(r) ==> d < gone
    // the size bound K is kept
    ensures 0 <= k && |m| <= k ==> |r| <= k
  {
    var put := Put(m, c);
    PutSize(m, c);
    if |put| > k then
      DropLast(put);
      LastIsLargest(put);
      put[..|put| - 1]
    else
      put
  }

  /**
   * A ranking step at a distance already held evicts nothing: the size and key
   * set stay, and only the model at that distance changes (the last writer wins).
   */
  lemma InsertExisting(m: KnnMap, k: int, c: Candidate)
    requires Ordered(m) && |m| <= k && c.distance in Distances(m)
    ensures |Insert(m, k, c)| == |m|
    ensures Distances(Insert(m, k, c)) == Distances(m)
    ensures Latest(Insert(m, k, c)) == Latest(m)[c.distance := c.model]
  {
    PutSize(m, c);
    assert Distances(m) + {c.distance} == Distances(m);
  }

  /**
   * The statement pair both ranking loops run: KnnMap.put(distance, model);
   * if (KnnMap.size() > K) KnnMap.remove(KnnMap.lastKey()).
   */
  method PutAndTrim(m: KnnMap, k: int, c: Candidate) returns (r: KnnMap)
    requires Ordered(m)
    ensures r == Insert(m, k, c)
  {
    r := Put(m, c);
    if |r| > k {
      r := r[..|r| - 1];
    }
  }

  /** The ranking state after inserting cs, in order, into m. */
  function InsertAll(m: KnnMap, k: int, cs: seq<Candidate>): (r: KnnMap)
    requires Ordered(m)
    ensures Ordered(r)
    ensures 0 <= k && |m| <= k ==> |r| <= k
    decreases |cs|
  {
    if cs == [] then m
    else Insert(InsertAll(m, k, cs[..|cs| - 1]), k, cs[|cs| - 1])
  }

  /** Feeding one more candidate is one more ranking step. */
  lemma InsertAllSnoc(m: KnnMap, k: int, cs: seq<Candidate>, c: Candidate)
    requires Ordered(m)
    ensures InsertAll(m, k, cs + [c]) == Insert(InsertAll(m, k, cs), k, c)
  {
    assert (cs + [c])[..|cs|] == cs;
  }

  /** The number of keys a ranking of capacity K keeps out of n distinct distances. */
  function Capacity(k: int, n: nat): (c: nat)
    ensures c <= n && (0 <= k ==> c <= k)
    ensures 0 <= k && c < n ==> c == k
  {
    if k < 0 then 0 else if k < n then k else n
  }

  /** keys are exactly the min(K, |all|) smallest values of all. */
  ghost predicate IsSmallest(keys: set<real>, all: set<real>, k: int)
  {
    && keys <= all
    && |keys| == Capacity(k, |all|)
    && forall x, y :: x in keys && y in all && y !in keys ==> x < y
  }

  /** Two sets that are each the K smallest of the same set are equal. */
  lemma SmallestUnique(a: set<real>, b: set<real>, all: set<real>, k: int)
    requires IsSmallest(a, all, k) && IsSmallest(b, all, k)
    ensures a == b
  {
    forall x | x in a ensures x in b {
      if x !in b {
        // everything in b is below x, so b lies inside a - {x}, which is too small for it
        forall y | y in b ensures y in a - {x} {
          assert y < x;
        }
        SubsetCard(b, a - {x});
        assert false;
      }
    }
    SubsetCard(a, b);
  }

  /** The K smallest of all stay the K smallest of any set between them and all. */
  lemma SmallestOfSubset(s: set<real>, sub: set<real>, all: set<real>, k: int)
    requires IsSmallest(s, all, k)
    requires s <= sub <= all
    ensures IsSmallest(s, sub, k)
  {
    SubsetCard(sub, all);
    SubsetCard(s, sub);
    if k >= 0 && |s| < k {
      // fewer than K distances at all: s is the whole of all
      SubsetCard(s, all);
    }
  }

  /** A value among the K smallest of all is among the K smallest of any part of all holding it. */
  lemma SmallestRestricts(s: set<real>, all: set<real>, sp: set<real>, part: set<real>, k: int)
    requires IsSmallest(s, all, k) && IsSmallest(sp, part, k)
    requires part <= all
    ensures s * part <= sp
  {
    forall x | x in s && x in part ensures x in sp {
      if x !in sp {
        // then sp is full, all of it lies below x, and so all of it is in s - {x}
        SubsetCard(sp, part);
        forall y | y in sp ensures y in s - {x} {
          assert y < x;
        }
        SubsetCard(sp, s - {x});
        assert false;
      }
    }
  }

  /** Re-inserting a kept distance changes neither the key set nor the distances seen. */
  lemma InsertKept(m: KnnMap, k: int, c: Candidate, all: set<real>)
    requires Ordered(m) && IsSmallest(Distances(m), all, k)
    requires c.distance in Distances(m)
    ensures IsSmallest(Distances(Insert(m, k, c)), all + {c.distance}, k)
  {
    SubsetCard(Distances(m), all);
    OrderedCard(m);
    OrderedCard(Put(m, c));
    assert all + {c.distance} == all;
    assert Distances(Put(m, c)) == Distances(m);
  }

  /** A distance that already lost to the K kept ones is evicted again at once. */
  lemma InsertLoser(m: KnnMap, k: int, c: Candidate, all: set<real>)
    requires Ordered(m) && IsSmallest(Distances(m), all, k)
    requires c.distance !in Distances(m) && c.distance in all
    ensures IsSmallest(Distances(Insert(m, k, c)), all + {c.distance}, k)
  {
    var put := Put(m, c);
    assert all + {c.distance} == all;
    SubsetCard(Distances(m), all);
    assert |Distances(m)| < |all| by {
      assert Distances(m) != all;
    }
    OrderedCard(m);
    OrderedCard(put);
    assert |put| > k;
    LastIsLargest(put);
    assert put[|put| - 1].distance == c.distance by {
      var last := put[|put| - 1].distance;
      assert last in Distances(put);
      assert c.distance <= last;
    }
  }

  /** A new distance with room to spare is kept, and nothing is evicted. */
  lemma InsertFits(m: KnnMap, k: int, c: Candidate, all: set<real>)
    requires Ordered(m) && IsSmallest(Distances(m), all, k)
    requires c.distance !in all
    requires |Put(m, c)| <= k
    ensures IsSmallest(Distances(Insert(m, k, c)), all + {c.distance}, k)
  {
    SubsetCard(Distances(m), all);
    OrderedCard(m);
    OrderedCard(Put(m, c));
    assert Distances(m) == all;
  }

  /** A new distance at full capacity: the largest of the kept keys and it is evicted. */
  lemma InsertFull(m: KnnMap, k: int, c: Candidate, all: set<real>)
    requires Ordered(m) && IsSmallest(Distances(m), all, k)
    requires c.distance !in all
    requires |Put(m, c)| > k
    ensures IsSmallest(Distances(Insert(m, k, c)), all + {c.distance}, k)
  {
    var d := c.distance;
    var put := Put(m, c);
    var r := Insert(m, k, c);
    var gone := put[|put| - 1].distance;
    var all' := all + {d};
    SubsetCard(Distances(m), all);
    OrderedCard(m);
    OrderedCard(put);
    OrderedCard(r);
    LastIsLargest(put);
    assert gone in Distances(put);
    assert |all'| == |all| + 1;
    forall x, y | x in Distances(r) && y in all' && y !in Distances(r) ensures x < y {
      if y != gone {
        assert y in all && y !in Distances(m);
        if x == d {
          assert gone in Distances(m);
          assert d < gone;
        }
      }
    }
  }

  /** put-then-evict keeps the key set equal to the K smallest distances seen. */
  lemma InsertKeepsSmallest(m: KnnMap, k: int, c: Candidate, all: set<real>)
    requires Ordered(m) && IsSmallest(Distances(m), all, k)
    ensures IsSmallest(Distances(Insert(m, k, c)), all + {c.distance}, k)
  {
    if c.distance in Distances(m) {
      InsertKept(m, k, c, all);
    } else if c.distance in all {
      InsertLoser(m, k, c, all);
    } else if |Put(m, c)| <= k {
      InsertFits(m, k, c, all);
    } else {
      InsertFull(m, k, c, all);
    }
  }

  /** After inserting cs into a ranking of the K smallest of all, it holds the K smallest of all and cs. */
  lemma {:induction false} InsertAllKeepsSmallest(m: KnnMap, k: int, cs: seq<Candidate>, all: set<real>)
    requires Ordered(m) && IsSmallest(Distances(m), all, k)
    ensures IsSmallest(Distances(InsertAll(m, k, cs)), all + Distances(cs), k)
    decreases |cs|
  {
    if cs == [] {
      assert all + Distances(cs) == all;
    } else {
      var front := cs[..|cs| - 1];
      InsertAllKeepsSmallest(m, k, front, all);
      InsertKeepsSmallest(InsertAll(m, k, front), k, cs[|cs| - 1], all + Distances(front));
      assert all + Distances(front) + {cs[|cs| - 1].distance} == all + Distances(cs);
    }
  }

  /** A fresh ranking fed cs holds exactly the min(K, #distinct) smallest distinct distances of cs. */
  lemma RankingKeepsSmallest(k: int, cs: seq<Candidate>)
    ensures IsSmallest(Distances(InsertAll([], k, cs)), Distances(cs), k)
  {
    var empty: KnnMap := [];
    assert Distances(empty) == {};
    InsertAllKeepsSmallest(empty, k, cs, {});
    assert {} + Distances(cs) == Distances(cs);
  }

  /** While at most K distinct distances have arrived, nothing is evicted. */
  lemma NoEvictionBelowCapacity(k: int, cs: seq<Candidate>)
    requires |Distances(cs)| <= k
    ensures Distances(InsertAll([], k, cs)) == Distances(cs)
  {
    RankingKeepsSmallest(k, cs);
    SubsetCard(Distances(InsertAll([], k, cs)), Distances(cs));
  }

  /** The kept distances depend only on the set of distances fed in, not on order or repetition. */
  lemma KeysDependOnlyOnDistances(k: int, a: seq<Candidate>, b: seq<Candidate>)
    requires Distances(a) == Distances(b)
    ensures Distances(InsertAll([], k, a)) == Distances(InsertAll([], k, b))
  {
    RankingKeepsSmallest(k, a);
    RankingKeepsSmallest(k, b);
    SmallestUnique(Distances(InsertAll([], k, a)), Distances(InsertAll([], k, b)), Distances(a), k);
  }

  /** A ranking whose entries agree with the puts so far keeps agreeing after more puts. */
  lemma {:induction false} InsertAllAgrees(m: KnnMap, k: int, cs: seq<Candidate>, seen: map<real, string>)
    requires Ordered(m) && SubMap(Latest(m), seen)
    ensures SubMap(Latest(InsertAll(m, k, cs)), seen + Latest(cs))
    decreases |cs|
  {
    if cs == [] {
      assert seen + Latest(cs) == seen;
    } else {
      var front := cs[..|cs| - 1];
      var c := cs[|cs| - 1];
      var before := InsertAll(m, k, front);
      InsertAllAgrees(m, k, front, seen);
      SubMapPut(Latest(before), seen + Latest(front), c.distance, c.model);
      MergeUpdate(seen, Latest(front), c.distance, c.model);
      SubMapTrans(Latest(InsertAll(m, k, cs)), Latest(before)[c.distance := c.model], seen + Latest(cs));
    }
  }

  /**
   * A fresh ranking fed cs holds the min(K, #distinct) smallest distinct distances of cs,
   * each with the model of the last candidate that arrived at it.
   */
  lemma RankingContents(k: int, cs: seq<Candidate>)
    ensures IsSmallest(Distances(InsertAll([], k, cs)), Distances(cs), k)
    ensures SubMap(Latest(InsertAll([], k, cs)), Latest(cs))
  {
    RankingKeepsSmallest(k, cs);
    var empty: KnnMap := [];
    var none: map<real, string> := map[];
    InsertAllAgrees(empty, k, cs, none);
    assert none + Latest(cs) == Latest(cs);
  }

  /** In an entry list, Latest finds each entry's model at its distance. */
  lemma {:induction false} LatestAt(m: KnnMap, i: nat)
    requires Ordered(m) && i < |m|
    ensures m[i].distance in Latest(m) && Latest(m)[m[i].distance] == m[i].model
    decreases |m|
  {
    if i < |m| - 1 {
      var front := m[..|m| - 1];
      assert front[i] == m[i];
      LatestAt(front, i);
    }
  }

  /** Every entry of Latest(cs) comes from some candidate of cs. */
  lemma {:induction false} LatestWitness(cs: seq<Candidate>, d: real) returns (j: nat)
    requires d in Latest(cs)
    ensures j < |cs| && cs[j] == Candidate(d, Latest(cs)[d])
    decreases |cs|
  {
    if cs[|cs| - 1].distance == d {
      j := |cs| - 1;
    } else {
      j := LatestWitness(cs[..|cs| - 1], d);
    }
  }

  /** Each entry a fresh ranking holds is one of the candidates fed to it (the j-th). */
  lemma EntryOrigin(k: int, cs: seq<Candidate>, i: nat) returns (j: nat)
    requires i < |InsertAll([], k, cs)|
    ensures j < |cs| && cs[j] == InsertAll([], k, cs)[i]
  {
    var r := InsertAll([], k, cs);
    RankingContents(k, cs);
    LatestAt(r, i);
    j := LatestWitness(cs, r[i].distance);
  }

  /** Every entry a fresh ranking holds is one of the candidates fed to it. */
  lemma EntriesArrived(k: int, cs: seq<Candidate>)
    ensures forall e :: e in InsertAll([], k, cs) ==> e in cs
  {
    var r := InsertAll([], k, cs);
    forall i | 0 <= i < |r| ensures r[i] in cs {
      var j := EntryOrigin(k, cs, i);
    }
  }

  /** A fresh ranking ends up empty exactly when nothing arrived or K is not positive. */
  lemma RankingEmpty(k: int, cs: seq<Candidate>)
    ensures InsertAll([], k, cs) == [] <==> cs == [] || k <= 0
  {
    var r := InsertAll([], k, cs);
    RankingKeepsSmallest(k, cs);
    OrderedCard(r);
    if cs != [] {
      assert cs[0].distance in Distances(cs);
    }
  }

  /** Every entry of an entry list is what its map view holds at that entry's distance. */
  lemma LatestAtEvery(m: KnnMap)
    requires Ordered(m)
    ensures forall i :: 0 <= i < |m| ==> m[i].distance in Latest(m) && Latest(m)[m[i].distance] == m[i].model
  {
    forall i | 0 <= i < |m|
      ensures m[i].distance in Latest(m) && Latest(m)[m[i].distance] == m[i].model
    {
      LatestAt(m, i);
    }
  }

  /**
   * new ArrayList(KnnMap.values()): one model per entry, in ascending order of
   * key, each the value the map holds at that key.
   */
  function Models(m: KnnMap): (ms: seq<string>)
    requires Ordered(m)
    ensures |ms| == |m|
    ensures forall i :: 0 <= i < |m| ==> m[i].distance in Latest(m) && Latest(m)[m[i].distance] == ms[i]
  {
    LatestAtEvery(m);
    seq(|m|, i requires 0 <= i < |m| => m[i].model)
  }
}
