# K-nearest-neighbour classification on MapReduce, modelled in Dafny

`KnnPattern` classifies one query point with six numeric features. It finds the
K training rows nearest to the query (squared Euclidean distance) and returns
the most common class label among them. The work is split into two stages:

* **`KnnMapper`** runs once per input split.
  * `map()` reads one CSV line, computes the line's squared distance to the
    query, and puts the (distance, label) pair into a `TreeMap<Double,String>`.
  * After each put, `map()` removes the map's last key if the map holds more
    than K entries.
  * `cleanup()` writes the surviving entries in ascending order of distance,
    as `DoubleString` pairs.
* **`KnnReducer`** puts every received pair into a second bounded `TreeMap`,
  in the same way.
  * It then counts the labels of the surviving entries in a `HashMap`.
  * It returns the first label, in the map's iteration order, whose count is
    maximal. The scan replaces its candidate only on a strictly greater count.

The modules follow that structure:

| file | module | what it holds |
|---|---|---|
| `wrappers.dfy` | `Wrappers` | `Option` |
| `distance.dfy` | `Distance` | `squaredDistance` / `totalSquaredDistance` |
| `candidates.dfy` | `Candidates` | the (distance, model) pair; the `DoubleString` class and its `compareTo` |
| `strings.dfy` | `Strings` | `String.trim()` and `StringTokenizer(",")`, as far as the mapper uses them |
| `topk.dfy` | `TopK` | the bounded ranking, and the theory of the K smallest keys |
| `vote.dfy` | `Vote` | the frequency map and the strict-maximum scan |
| `knn.dfy` | `Knn` | the mapper and reducer classes, the record filter, and the merge theorem over any partitioning of the data |

How the Java state is represented:

* **The `TreeMap`** is its entry list in ascending key order (the order `entrySet()`
  iterates), with strictly increasing distances.
  * Its contents are specified by `Latest(cs)`, the map that the puts of `cs`
    build when each later put overwrites an earlier one.
  * Its key set is `Distances`.
  * The central property is `IsSmallest(keys, all, K)`: the keys are exactly the
    min(K, |all|) smallest distinct distances.
* **The mapper** is a class. Its `knnMap` field is reassigned by `Map`.
  A ghost `rows` field records what has been added so far, and `Valid()`
  states that `knnMap` is the ranking of `rows`.
* **The reducer** is a class too, with a ghost `received` field in place of `rows`.

Bad rows:
* `map()` skips only the header row (one starting with `feature_0`) and lines
  that trim to nothing.
* On any other bad row, `nextToken()` or `parseDouble` throws.

The model gives such a row the outcome `Malformed`. It leaves the mapper's
state unchanged, because the task fails.

## Model

| member | source | states |
|---|---|---|
| Distance.Square | mapreduce-knn/KnnPattern.java:93-96 | `squaredDistance(n1)`, `Math.pow(n1, 2)`, is never negative, and is zero for a zero difference |
| Distance.TotalSquaredDistance | mapreduce-knn/KnnPattern.java:99-106 | the loop sums `squaredDistance(S[i] - R[i])` over the six features; the result is that sum, and it is never negative |
| Distance.DistanceToSelfIsZero | mapreduce-knn/KnnPattern.java:99-106 | a training row identical to the query is at distance 0 |
| Distance.DistanceSymmetric | mapreduce-knn/KnnPattern.java:99-106 | swapping R and S does not change the distance |
| Candidates.CompareStrings | mapreduce-knn/KnnPattern.java:75 | `String.compareTo` is 0 exactly when the strings are equal |
| Candidates.CompareStringsAntisymmetric | mapreduce-knn/KnnPattern.java:75 | `a.compareTo(b) == -b.compareTo(a)` |
| Candidates.DoubleString.constructor | mapreduce-knn/KnnPattern.java:39-40 | a new pair has distance 0.0 and no model |
| Candidates.DoubleString.Set | mapreduce-knn/KnnPattern.java:42-46 | `set` overwrites both fields with its arguments, so the getters then return exactly `(lhs, rhs)` |
| Candidates.DoubleString.Value | mapreduce-knn/KnnPattern.java:48-56 | `getDistance()` and `getModel()` read the two fields back, as one pair |
| Candidates.DoubleString.CompareTo | mapreduce-knn/KnnPattern.java:73-76 | pairs compare by model alone: 0 exactly when the models are equal, whatever the distances; the comparison is antisymmetric |
| Strings.Trim | mapreduce-knn/KnnPattern.java:129 | the result is no longer than the input and has no blank at either end; it is empty exactly when every character is blank |
| Strings.TrimIsInfix | mapreduce-knn/KnnPattern.java:129 | `trim()` keeps one contiguous piece of the string and strips only blanks around it |
| Strings.TrimKeepsUnpadded | mapreduce-knn/KnnPattern.java:139 | a token with no surrounding blanks is passed to `parseDouble` unchanged |
| Strings.Tokens | mapreduce-knn/KnnPattern.java:134 | every token is non-empty and contains no comma |
| Strings.TokensOfUndelimited | mapreduce-knn/KnnPattern.java:134 | a non-empty line with no comma is one token |
| Strings.TokensSplit | mapreduce-knn/KnnPattern.java:134 | the tokens of `a + "," + b` are the tokens of `a` followed by those of `b`; runs of commas yield no empty token |
| Knn.ParseFeatures | mapreduce-knn/KnnPattern.java:137-140 | all n features parse, giving the values in token order, or else some token among the first n fails to parse (both directions) |
| Knn.RowOutcome | mapreduce-knn/KnnPattern.java:128-145 | a line is skipped exactly when it starts with `feature_0` or is all blank; otherwise it fails exactly when a token is missing or a feature does not parse; otherwise it adds (distance of the parsed features to the query, trimmed seventh token) |
| Knn.KnnMapper.constructor | mapreduce-knn/KnnPattern.java:83-90 | the mapper starts with an empty `KnnMap` and no rows seen |
| Knn.KnnMapper.Map | mapreduce-knn/KnnPattern.java:125-154 | only an added row changes the state; it appends the row's candidate and performs one put-and-trim step; `KnnMap` stays the ranking of the rows seen and never exceeds K entries |
| Knn.KnnMapper.ReadRow | mapreduce-knn/KnnPattern.java:128-145 | the outcome of reading a line is the one `RowOutcome` describes |
| Knn.KnnMapper.ReadFeatures | mapreduce-knn/KnnPattern.java:137-140 | the six-feature loop fails if fewer than six tokens exist; otherwise it returns exactly what `ParseFeatures` says |
| Knn.KnnMapper.Cleanup | mapreduce-knn/KnnPattern.java:158-170 | writes every entry of `KnnMap` once, in ascending order of distance; these are the min(K, #distinct) smallest distances of the split's rows, each with the model of the last row at that distance, and every pair written is a pair of the split; `distanceAndModel` is left holding the last pair written |
| Knn.KnnReducer.constructor | mapreduce-knn/KnnPattern.java:177-186 | the reducer starts with an empty `KnnMap` and nothing received |
| Knn.KnnReducer.Receive | mapreduce-knn/KnnPattern.java:194-206 | after the loop, `KnnMap` holds the min(K, #distinct) smallest distances of everything received, and at most K entries |
| Knn.KnnReducer.MostCommonModel | mapreduce-knn/KnnPattern.java:208-243 | for any iteration order that lists every model received (so every key of `freqMap`), the answer is null exactly when nothing was received or K ≤ 0; otherwise it is a model of `KnnMap` that no other model outnumbers there |
| Knn.KnnReducer.Reduce | mapreduce-knn/KnnPattern.java:190-245 | `Receive` followed by `MostCommonModel`: a label that no other label outnumbers among the K nearest pairs received, or null exactly when there are none |
| Knn.MergeKeepsSmallest | mapreduce-knn/KnnPattern.java:148-153 | for any split of the data into parts, and any delivery order of the mappers' outputs, the reducer's keys are the min(K, #distinct) smallest distinct distances of the whole data set, the keys one mapper over all of it would keep |
| TopK.Put | mapreduce-knn/KnnPattern.java:148 | `TreeMap.put` keeps the entries in ascending order; a new distance is added, and an existing distance gets the new model; nothing else changes |
| TopK.PutSize | mapreduce-knn/KnnPattern.java:148 | a put grows the map by one exactly when its distance is new |
| TopK.Insert | mapreduce-knn/KnnPattern.java:148-153 | put, then an eviction only when the size exceeds K; if there is one, it removes exactly the entry with the largest key, and every key left is smaller than that one; a map of at most K entries stays at most K |
| TopK.InsertExisting | mapreduce-knn/KnnPattern.java:148-153 | a ranking step at a distance already held, with at most K entries, evicts nothing: the size and key set stay the same, and only the model at that distance is replaced |
| TopK.PutAndTrim | mapreduce-knn/KnnPattern.java:201-205 | the reducer's statements perform the same ranking step as the mapper's |
| TopK.InsertAll | mapreduce-knn/KnnPattern.java:148-153 | a sequence of ranking steps keeps the entries ordered and the size at most K |
| TopK.InsertAllSnoc | mapreduce-knn/KnnPattern.java:148-153 | one more row is one more ranking step |
| TopK.RankingKeepsSmallest | mapreduce-knn/KnnPattern.java:148-153 | a fresh ranking fed any rows keeps exactly the min(K, #distinct) smallest distinct distances of those rows |
| TopK.RankingContents | mapreduce-knn/KnnPattern.java:148-153 | the same key set, and each key holds the model of the last row that arrived at that distance |
| TopK.NoEvictionBelowCapacity | mapreduce-knn/KnnPattern.java:150-153 | while at most K distinct distances have arrived, nothing is removed |
| TopK.KeysDependOnlyOnDistances | mapreduce-knn/KnnPattern.java:194-206 | the kept key set depends only on the set of distances fed in, not on their order or repetition |
| TopK.EntryOrigin | mapreduce-knn/KnnPattern.java:148-153 | each entry of a ranking is one of the candidates that was put into it |
| TopK.EntriesArrived | mapreduce-knn/KnnPattern.java:161-169 | every pair a ranking holds, and so every pair `cleanup` writes, is a pair that was put into it |
| TopK.RankingEmpty | mapreduce-knn/KnnPattern.java:150-153 | a ranking ends up empty exactly when nothing was put into it or K ≤ 0 |
| TopK.Models | mapreduce-knn/KnnPattern.java:212 | `knnList` has one model per entry of `KnnMap`: its i-th element is the value the map holds at its i-th key in ascending order |
| Vote.Count | mapreduce-knn/KnnPattern.java:218-228 | the frequency of a label is at most the list length, and positive exactly for labels in the list |
| Vote.Distinct | mapreduce-knn/KnnPattern.java:218-228 | the key set of `freqMap`: the labels of the list, each once |
| Vote.CountsSumToLength | mapreduce-knn/KnnPattern.java:218-228 | the frequencies in `freqMap` add up to the length of `knnList` |
| Vote.Frequencies | mapreduce-knn/KnnPattern.java:214-228 | `freqMap` has a key exactly for each label in `knnList`, and each key holds its number of occurrences; the keys are the distinct labels, and their frequencies add up to `knnList.size()` |
| Vote.MostCommon | mapreduce-knn/KnnPattern.java:230-240 | null exactly when no frequency exceeds -1; otherwise a key of maximal frequency, and the first such key in iteration order |
| Vote.MostFrequent | mapreduce-knn/KnnPattern.java:212-240 | the vote over `knnList` is null exactly when the list is empty; otherwise it is a label of the list that no label outnumbers |

## Left out

- `main` (lines 249-301) is left out: the parameter file, the job configuration, `numReducers` and job submission. A `numReducers` above 1 does not change the answer. Every map output has the key `NullWritable` (line 168), whose hash is constant, so one reducer receives every pair and the others never call `reduce`. The model has that one reducer.
- `setup()` of both classes, which reads `knn.k` and `knn.feature.i` from the Hadoop `Configuration`, is left out. K and the query point are constructor parameters.
- The Hadoop `Context` is left out. `cleanup()` returns the pairs it would write, `reduce()` returns its answer, and `Receive` takes the values as a sequence.
- `readFields` / `write` are left out, because serialisation is I/O. The two getters are modelled together by `DoubleString.Value`.
- `run_knn_tests.py`, a script that benchmarks the job over data files, block sizes and reducer counts, is not part of this model.
- Double arithmetic is modelled as exact real arithmetic. IEEE rounding, NaN, infinities and signed zero are left out. `Math.pow(x, 2)` is `x * x`.
- `Double.parseDouble` is a parameter `parse`. A token it rejects is `None`, and the exception it throws is the outcome `Malformed`.
- The `NoSuchElementException` of a missing token is also the outcome `Malformed`. Neither exception is modelled further.
- `Knn.KnnReducer.MostCommonModel`: `new Text(null)` throws when `knnList` is empty; the model returns `None` instead.
- `Vote.MostCommon`: the `HashMap`'s iteration order is left to the caller, through a parameter `order` that lists every key. The result is proved for every such order, and not for Java's hash order in particular.
- `Candidates.DoubleString.constructor`: Java initialises the model to `null`; the model uses the empty string. A `compareTo` against a null model, which throws, is not modelled.
- Java strings are UTF-16 code units; the model uses Dafny characters. `compareTo` and `trim()` compare characters by code point.
- `Distance.DistanceToSelfIsZero`: only one direction is proved, that equal points are at distance 0. The converse, that distance 0 means equal points, is not stated.
- The `TreeMap` red-black tree is modelled as its sorted entry list. Its O(log K) cost is not modelled.
- `Knn.MergeKeepsSmallest`: it states the key set the reducer keeps. Which model is stored at a distance held by rows in two splits depends on the delivery order; `RankingContents` states only that it is the model of the last pair to arrive at that distance.
