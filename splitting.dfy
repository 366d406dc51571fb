/**
 * Field split: a source split carved into named fragments by proportions of
 * its original length, through repeated calls of `train_test_split`.
 */
module Splitting {
  import opened DataDict

  /** A split proportion `num / den`, standing for a non-negative float of the configuration. */
  datatype Ratio = Ratio(num: nat, den: nat)

  type Proportion = r: Ratio | r.den > 0 witness Ratio(0, 1)

  /** `a * b`, as repeated addition. */
  function Times(a: nat, b: nat): nat
    decreases b
  {
    if b == 0 then 0 else Times(a, b - 1) + a
  }

  /** `m // d`, as repeated subtraction. */
  function Quotient(m: nat, d: nat): nat
    requires d > 0
    decreases m
  {
    if m < d then 0 else 1 + Quotient(m - d, d)
  }

  /**
   * `int(n * p)`: the number of samples a proportion `p` of `n` samples makes,
   * the floor of `n * num / den` (see `TakeIsFloor`, which proves exactly
   * that). `Times` and `Quotient` stand in for `*` and `/` only to keep the
   * split proofs away from the solver's non-linear arithmetic.
   */
  function Take(n: nat, p: Proportion): nat
  {
    Quotient(Times(n, p.num), p.den)
  }

  lemma {:induction false} TimesIsProduct(a: nat, b: nat)
    ensures Times(a, b) == a * b
    decreases b
  {
    if b > 0 {
      TimesIsProduct(a, b - 1);
    }
  }

  lemma {:induction false} QuotientIsFloor(m: nat, d: nat)
    requires d > 0
    ensures Quotient(m, d) * d <= m < (Quotient(m, d) + 1) * d
    decreases m
  {
    if m >= d {
      QuotientIsFloor(m - d, d);
    }
  }

  /** `Take(n, p)` is the floor of `n * p`: the largest `k` with `k * den <= n * num`. */
  lemma TakeIsFloor(n: nat, p: Proportion)
    ensures Take(n, p) * p.den <= n * p.num < (Take(n, p) + 1) * p.den
    ensures Take(n, p) == n * p.num / p.den
  {
    TimesIsProduct(n, p.num);
    QuotientIsFloor(n * p.num, p.den);
    FloorUnique(Take(n, p), n * p.num, p.den);
  }

  /** The bounds `k * d <= m < (k + 1) * d` single out `k` as the floor of `m / d`. */
  lemma FloorUnique(k: nat, m: nat, d: nat)
    requires d > 0
    requires k * d <= m < (k + 1) * d
    ensures k == m / d
  {
    var q := m / d;
    assert q * d <= m < (q + 1) * d;
    // Monotonicity of `* d` rules out both `k < q` and `q < k`.
    forall a: nat, b: nat | a <= b ensures a * d <= b * d {
      assert b * d == a * d + (b - a) * d;
    }
  }

  /** The fragment sizes `int(n * p)` for the proportions `ps`, all taken of the original length `n`. */
  function Sizes(n: nat, ps: seq<Proportion>): (sizes: seq<nat>)
    ensures |sizes| == |ps|
    decreases |ps|
  {
    if ps == [] then [] else [Take(n, ps[0])] + Sizes(n, ps[1..])
  }

  lemma {:induction false} SizesAt(n: nat, ps: seq<Proportion>, j: nat)
    requires j < |ps|
    ensures Sizes(n, ps)[j] == Take(n, ps[j])
    decreases j
  {
    if j > 0 {
      SizesAt(n, ps[1..], j - 1);
    }
  }

  /**
   * Every call of `train_test_split` from call `i` on is given parts it
   * accepts: the fragment carved out of the pool and what stays in the pool
   * are both non-empty.
   */
  predicate Admissible(pool: nat, sizes: seq<nat>, i: nat)
    decreases |sizes| - i
  {
    i >= |sizes| || (1 <= sizes[i] < pool && Admissible(pool - sizes[i], sizes, i + 1))
  }

  /** The split targets and proportions suit a source split of `n` samples. */
  predicate SplitFits(n: nat, fields: seq<string>, ps: seq<Proportion>)
  {
    |fields| >= 1 && |ps| >= |fields| - 1 && Admissible(n, Sizes(n, ps[..|fields| - 1]), 0)
  }

  /** The random state's shuffle of the pool at the `step`-th call of `train_test_split`. */
  type Shuffle = (nat, seq<Sample>) -> seq<Sample>

  /** A shuffle only reorders. */
  ghost predicate Permutes(shuffle: Shuffle)
  {
    forall step, s :: multiset(shuffle(step, s)) == multiset(s)
  }

  /**
   * `train_test_split(pool, test_size=t)`: the shuffled pool cut into a
   * train part of `|pool| - t` samples and a test part of `t` samples.
   */
  function TrainTestSplit(pool: seq<Sample>, testSize: nat, shuffle: Shuffle, step: nat): (parts: (seq<Sample>, seq<Sample>))
    requires Permutes(shuffle)
    requires 0 < testSize < |pool|
    ensures |parts.0| == |pool| - testSize && |parts.1| == testSize
  {
    var shuffled := shuffle(step, pool);
    assert |shuffled| == |multiset(shuffled)| == |pool|;
    (shuffled[testSize..], shuffled[..testSize])
  }

  /** The two parts hold exactly the samples of the pool, each as often. */
  lemma TrainTestSplitKeeps(pool: seq<Sample>, testSize: nat, shuffle: Shuffle, step: nat)
    requires Permutes(shuffle)
    requires 0 < testSize < |pool|
    ensures var parts := TrainTestSplit(pool, testSize, shuffle, step);
      multiset(parts.0) + multiset(parts.1) == multiset(pool)
  {
    var shuffled := shuffle(step, pool);
    assert |shuffled| == |multiset(shuffled)| == |pool|;
    assert shuffled == shuffled[..testSize] + shuffled[testSize..];
  }

  /**
   * The fragments a split of `pool` produces from call `i` on: one fragment
   * of each size `sizes[i..]`, then what remains of the pool.
   */
  function Fragments(pool: seq<Sample>, sizes: seq<nat>, shuffle: Shuffle, i: nat): (frags: seq<seq<Sample>>)
    requires Permutes(shuffle) && i <= |sizes| && Admissible(|pool|, sizes, i)
    ensures |frags| == |sizes| - i + 1
    decreases |sizes| - i
  {
    if i == |sizes| then [pool]
    else
      var parts := TrainTestSplit(pool, |pool| - sizes[i], shuffle, i);
      [parts.0] + Fragments(parts.1, sizes, shuffle, i + 1)
  }

  /** `sum(sizes[i:])`. */
  function SumFrom(sizes: seq<nat>, i: nat): nat
    decreases |sizes| - i
  {
    if i >= |sizes| then 0 else sizes[i] + SumFrom(sizes, i + 1)
  }

  /** Fragment `j` from call `i` on has size `sizes[i + j]`; the last fragment holds the rest of the pool. */
  lemma {:induction false} FragmentSizes(pool: seq<Sample>, sizes: seq<nat>, shuffle: Shuffle, i: nat)
    requires Permutes(shuffle) && i <= |sizes| && Admissible(|pool|, sizes, i)
    ensures SumFrom(sizes, i) < |pool| || i == |sizes|
    ensures forall j :: 0 <= j < |sizes| - i ==> |Fragments(pool, sizes, shuffle, i)[j]| == sizes[i + j]
    ensures |Fragments(pool, sizes, shuffle, i)[|sizes| - i]| == |pool| - SumFrom(sizes, i)
    decreases |sizes| - i
  {
    if i < |sizes| {
      var parts := TrainTestSplit(pool, |pool| - sizes[i], shuffle, i);
      var rest := Fragments(parts.1, sizes, shuffle, i + 1);
      FragmentSizes(parts.1, sizes, shuffle, i + 1);
      var frags := Fragments(pool, sizes, shuffle, i);
      assert frags == [parts.0] + rest;
      forall j | 0 <= j < |sizes| - i ensures |frags[j]| == sizes[i + j] {
        if j > 0 {
          assert frags[j] == rest[j - 1];
        }
      }
    }
  }

  /** The samples of all fragments, counted with repetition. */
  function Union(frags: seq<seq<Sample>>): multiset<Sample>
    decreases |frags|
  {
    if frags == [] then multiset{} else multiset(frags[0]) + Union(frags[1..])
  }

  /** The fragments partition the pool: no sample is lost or duplicated. */
  lemma {:induction false} FragmentsPartition(pool: seq<Sample>, sizes: seq<nat>, shuffle: Shuffle, i: nat)
    requires Permutes(shuffle) && i <= |sizes| && Admissible(|pool|, sizes, i)
    ensures Union(Fragments(pool, sizes, shuffle, i)) == multiset(pool)
    decreases |sizes| - i
  {
    if i < |sizes| {
      var parts := TrainTestSplit(pool, |pool| - sizes[i], shuffle, i);
      TrainTestSplitKeeps(pool, |pool| - sizes[i], shuffle, i);
      var rest := Fragments(parts.1, sizes, shuffle, i + 1);
      FragmentsPartition(parts.1, sizes, shuffle, i + 1);
      assert ([parts.0] + rest)[1..] == rest;
    }
  }

  /** Writes `d[fields[j]] = frags[j]` for each `j` in order. */
  function WriteAll(d: Dict, fields: seq<string>, frags: seq<seq<Sample>>): Dict
    requires |fields| == |frags|
    decreases |fields|
  {
    if fields == [] then d
    else
      var last := |fields| - 1;
      WriteAll(d, fields[..last], frags[..last]).Put(Split(fields[last]), Chunk(frags[last]))
  }

  /**
   * Writing fragments keeps the dictionary well formed and made of lists; it
   * adds exactly the named fields and leaves every other key as it was.
   */
  lemma {:induction false} WriteAllKeeps(d: Dict, fields: seq<string>, frags: seq<seq<Sample>>)
    requires |fields| == |frags|
    ensures d.Valid() ==> WriteAll(d, fields, frags).Valid()
    ensures d.AllChunks() ==> WriteAll(d, fields, frags).AllChunks()
    ensures forall k :: k in WriteAll(d, fields, frags).values <==> k in d.values || (k.Split? && k.name in fields)
    ensures forall k :: k in d.values && (k.Index? || k.name !in fields) ==> WriteAll(d, fields, frags).values[k] == d.values[k]
    decreases |fields|
  {
    if fields != [] {
      var last := |fields| - 1;
      assert fields == fields[..last] + [fields[last]];
      WriteAllKeeps(d, fields[..last], frags[..last]);
    }
  }

  /** A field named once more later on is overwritten; the last write of each field stays. */
  lemma {:induction false} WriteAllLastWins(d: Dict, fields: seq<string>, frags: seq<seq<Sample>>, j: nat)
    requires |fields| == |frags| && j < |fields|
    requires forall j' :: j < j' < |fields| ==> fields[j'] != fields[j]
    ensures Split(fields[j]) in WriteAll(d, fields, frags).values
    ensures WriteAll(d, fields, frags).values[Split(fields[j])] == Chunk(frags[j])
    decreases |fields|
  {
    var last := |fields| - 1;
    var prefix := WriteAll(d, fields[..last], frags[..last]);
    assert WriteAll(d, fields, frags) == prefix.Put(Split(fields[last]), Chunk(frags[last]));
    if j < last {
      var shorter := fields[..last];
      assert shorter[j] == fields[j];
      assert forall j' :: j < j' < |shorter| ==> shorter[j'] == fields[j'];
      WriteAllLastWins(d, shorter, frags[..last], j);
      assert fields[j] != fields[last];
    }
  }

  /** One more write: the prefix of `i + 1` fields is the prefix of `i` fields, then field `i`. */
  lemma WriteAllStep(d: Dict, fields: seq<string>, frags: seq<seq<Sample>>, i: nat)
    requires |fields| == |frags| && i < |fields|
    ensures WriteAll(d, fields[..i + 1], frags[..i + 1])
         == WriteAll(d, fields[..i], frags[..i]).Put(Split(fields[i]), Chunk(frags[i]))
  {
    assert fields[..i + 1][..i] == fields[..i] && frags[..i + 1][..i] == frags[..i];
  }

  /**
   * The split loop from call `i` on: `written` is the data so far, `pool` what
   * is left of the source; each call writes its train part to field `i` and
   * goes on with its test part, and the last field gets the rest of the pool.
   */
  function Carve(written: Dict, pool: seq<Sample>, fields: seq<string>, sizes: seq<nat>, shuffle: Shuffle, i: nat): Dict
    requires Permutes(shuffle) && i < |fields| && |sizes| == |fields| - 1
    requires Admissible(|pool|, sizes, i)
    decreases |fields| - i
  {
    if i == |fields| - 1 then written.Put(Split(fields[i]), Chunk(pool))
    else
      var parts := TrainTestSplit(pool, |pool| - sizes[i], shuffle, i);
      Carve(written.Put(Split(fields[i]), Chunk(parts.0)), parts.1, fields, sizes, shuffle, i + 1)
  }

  /** One iteration of the split loop leaves a pool that suits the calls still to come. */
  lemma CarveStep(written: Dict, pool: seq<Sample>, fields: seq<string>, sizes: seq<nat>, shuffle: Shuffle, i: nat, size: nat)
    requires Permutes(shuffle) && i < |sizes| == |fields| - 1 && size == sizes[i]
    requires Admissible(|pool|, sizes, i)
    ensures 0 < |pool| - size < |pool|
    ensures var parts := TrainTestSplit(pool, |pool| - size, shuffle, i);
      && Admissible(|parts.1|, sizes, i + 1)
      && Carve(written, pool, fields, sizes, shuffle, i)
         == Carve(written.Put(Split(fields[i]), Chunk(parts.0)), parts.1, fields, sizes, shuffle, i + 1)
  {
  }

  /** Fragment `i` is the train part of call `i`, and its test part yields the fragments after it. */
  lemma FragmentsAt(pool: seq<Sample>, sizes: seq<nat>, shuffle: Shuffle, frags: seq<seq<Sample>>, i: nat)
    requires Permutes(shuffle) && i < |sizes| && i < |frags|
    requires Admissible(|pool|, sizes, i)
    requires frags[i..] == Fragments(pool, sizes, shuffle, i)
    ensures 0 < |pool| - sizes[i] < |pool|
    ensures var parts := TrainTestSplit(pool, |pool| - sizes[i], shuffle, i);
      && frags[i] == parts.0
      && Admissible(|parts.1|, sizes, i + 1)
      && frags[i + 1..] == Fragments(parts.1, sizes, shuffle, i + 1)
  {
    assert frags[i] == frags[i..][0];
    assert frags[i + 1..] == frags[i..][1..];
  }

  /**
   * The split loop writes the fragments: from call `i` on, it writes
   * fragments `i..` to fields `i..` on top of the writes of fragments `..i`.
   */
  lemma {:induction false} CarveWritesFragments(d: Dict, fields: seq<string>, sizes: seq<nat>, frags: seq<seq<Sample>>,
                                                pool: seq<Sample>, shuffle: Shuffle, i: nat)
    requires Permutes(shuffle)
    requires |frags| == |fields| && i < |fields| && |sizes| == |fields| - 1
    requires Admissible(|pool|, sizes, i)
    requires frags[i..] == Fragments(pool, sizes, shuffle, i)
    ensures Carve(WriteAll(d, fields[..i], frags[..i]), pool, fields, sizes, shuffle, i) == WriteAll(d, fields, frags)
    decreases |fields| - i
  {
    if i == |fields| - 1 {
      assert frags[i] == frags[i..][0];
      CarveWritesLast(d, fields, sizes, frags, pool, shuffle);
    } else {
      FragmentsAt(pool, sizes, shuffle, frags, i);
      var parts := TrainTestSplit(pool, |pool| - sizes[i], shuffle, i);
      CarveWritesOne(d, fields, sizes, frags, pool, shuffle, i);
      CarveWritesFragments(d, fields, sizes, frags, parts.1, shuffle, i + 1);
    }
  }

  /** The last field receives what is left of the pool. */
  lemma CarveWritesLast(d: Dict, fields: seq<string>, sizes: seq<nat>, frags: seq<seq<Sample>>, pool: seq<Sample>, shuffle: Shuffle)
    requires Permutes(shuffle)
    requires |frags| == |fields| >= 1 && |sizes| == |fields| - 1
    requires frags[|fields| - 1] == pool
    ensures Carve(WriteAll(d, fields[..|fields| - 1], frags[..|fields| - 1]), pool, fields, sizes, shuffle, |fields| - 1)
         == WriteAll(d, fields, frags)
  {
    var i := |fields| - 1;
    WriteAllStep(d, fields, frags, i);
    assert fields[..i + 1] == fields && frags[..i + 1] == frags;
  }

  /** One call of the split loop writes fragment `i` to field `i`. */
  lemma CarveWritesOne(d: Dict, fields: seq<string>, sizes: seq<nat>, frags: seq<seq<Sample>>, pool: seq<Sample>, shuffle: Shuffle, i: nat)
    requires Permutes(shuffle)
    requires |frags| == |fields| && i < |sizes| == |fields| - 1
    requires Admissible(|pool|, sizes, i)
    requires sizes[i] < |pool| && frags[i] == TrainTestSplit(pool, |pool| - sizes[i], shuffle, i).0
    ensures var parts := TrainTestSplit(pool, |pool| - sizes[i], shuffle, i);
      && Admissible(|parts.1|, sizes, i + 1)
      && Carve(WriteAll(d, fields[..i], frags[..i]), pool, fields, sizes, shuffle, i)
         == Carve(WriteAll(d, fields[..i + 1], frags[..i + 1]), parts.1, fields, sizes, shuffle, i + 1)
  {
    WriteAllStep(d, fields, frags, i);
    CarveStep(WriteAll(d, fields[..i], frags[..i]), pool, fields, sizes, shuffle, i, sizes[i]);
  }

  /** The fragment sizes of a split of `d`'s source split. */
  function SourceSizes(d: Dict, source: string, fields: seq<string>, ps: seq<Proportion>): seq<nat>
    requires d.AllChunks() && Split(source) in d.values
    requires |fields| >= 1 && |ps| >= |fields| - 1
  {
    Sizes(|d.values[Split(source)].samples|, ps[..|fields| - 1])
  }

  /** The fragments of the source split, one per target field. */
  function SourceFragments(d: Dict, source: string, fields: seq<string>, ps: seq<Proportion>, shuffle: Shuffle): (frags: seq<seq<Sample>>)
    requires d.AllChunks() && Split(source) in d.values && Permutes(shuffle)
    requires SplitFits(|d.values[Split(source)].samples|, fields, ps)
    ensures |frags| == |fields|
  {
    Fragments(d.values[Split(source)].samples, SourceSizes(d, source, fields, ps), shuffle, 0)
  }

  /**
   * `_split_data` on a source split of `d`: the fragments of its samples
   * written to the split fields, in order.
   */
  function SplitResult(d: Dict, source: string, fields: seq<string>, ps: seq<Proportion>, shuffle: Shuffle): (r: Dict)
    requires d.AllChunks() && Split(source) in d.values && Permutes(shuffle)
    requires SplitFits(|d.values[Split(source)].samples|, fields, ps)
    ensures d.Valid() ==> r.Valid()
    ensures r.AllChunks()
    ensures forall k :: k in r.values <==> k in d.values || (k.Split? && k.name in fields)
    ensures forall k :: k in d.values && (k.Index? || k.name !in fields) ==> r.values[k] == d.values[k]
  {
    WriteAllKeeps(d, fields, SourceFragments(d, source, fields, ps, shuffle));
    WriteAll(d, fields, SourceFragments(d, source, fields, ps, shuffle))
  }

  /** The split loop, run from the first call on the whole source split, computes `SplitResult`. */
  lemma CarveIsSplitResult(d: Dict, source: string, fields: seq<string>, ps: seq<Proportion>, shuffle: Shuffle)
    requires d.AllChunks() && Split(source) in d.values && Permutes(shuffle)
    requires SplitFits(|d.values[Split(source)].samples|, fields, ps)
    ensures var samples, sizes := d.values[Split(source)].samples, SourceSizes(d, source, fields, ps);
      && Admissible(|samples|, sizes, 0)
      && Carve(d, samples, fields, sizes, shuffle, 0) == SplitResult(d, source, fields, ps, shuffle)
  {
    var sizes := SourceSizes(d, source, fields, ps);
    var frags := SourceFragments(d, source, fields, ps, shuffle);
    assert fields[..0] == [] && frags[..0] == [] && frags[0..] == frags;
    CarveWritesFragments(d, fields, sizes, frags, d.values[Split(source)].samples, shuffle, 0);
  }

  /** With distinct target names, target `j` holds fragment `j`. */
  lemma SplitResultFragments(d: Dict, source: string, fields: seq<string>, ps: seq<Proportion>, shuffle: Shuffle)
    requires d.AllChunks() && Split(source) in d.values && Permutes(shuffle)
    requires SplitFits(|d.values[Split(source)].samples|, fields, ps)
    requires forall i, j :: 0 <= i < j < |fields| ==> fields[i] != fields[j]
    ensures forall j :: 0 <= j < |fields| ==>
      SplitResult(d, source, fields, ps, shuffle).values[Split(fields[j])] == Chunk(SourceFragments(d, source, fields, ps, shuffle)[j])
  {
    var frags := SourceFragments(d, source, fields, ps, shuffle);
    forall j | 0 <= j < |fields| ensures SplitResult(d, source, fields, ps, shuffle).values[Split(fields[j])] == Chunk(frags[j]) {
      WriteAllLastWins(d, fields, frags, j);
    }
  }

  /**
   * With distinct target names, target `j` holds `int(n * ps[j])` samples of
   * the `n` source samples for every target but the last, which holds the
   * remainder.
   */
  lemma SplitResultSizes(d: Dict, source: string, fields: seq<string>, ps: seq<Proportion>, shuffle: Shuffle)
    requires d.AllChunks() && Split(source) in d.values && Permutes(shuffle)
    requires SplitFits(|d.values[Split(source)].samples|, fields, ps)
    requires forall i, j :: 0 <= i < j < |fields| ==> fields[i] != fields[j]
    ensures forall j :: 0 <= j < |fields| - 1 ==>
      |SplitResult(d, source, fields, ps, shuffle).values[Split(fields[j])].samples| == Take(|d.values[Split(source)].samples|, ps[j])
    ensures |SplitResult(d, source, fields, ps, shuffle).values[Split(fields[|fields| - 1])].samples|
      == |d.values[Split(source)].samples| - SumFrom(SourceSizes(d, source, fields, ps), 0)
  {
    var samples := d.values[Split(source)].samples;
    var sizes := SourceSizes(d, source, fields, ps);
    SplitResultFragments(d, source, fields, ps, shuffle);
    FragmentSizes(samples, sizes, shuffle, 0);
    forall j | 0 <= j < |fields| - 1 ensures sizes[j] == Take(|samples|, ps[j]) {
      SizesAt(|samples|, ps[..|fields| - 1], j);
    }
  }

  /**
   * Proportions "0.2 0.3" of 100 samples over the fields "train valid test":
   * 20 and 30 samples, and the remaining 50 for the last field.
   */
  lemma SplitSizesExample()
    ensures Sizes(100, [Ratio(1, 5), Ratio(3, 10)]) == [20, 30]
    ensures SplitFits(100, ["train", "valid", "test"], [Ratio(1, 5), Ratio(3, 10)])
    ensures 100 - SumFrom([20, 30], 0) == 50
  {
    var ps: seq<Proportion> := [Ratio(1, 5), Ratio(3, 10)];
    TakeIsFloor(100, ps[0]);
    TakeIsFloor(100, ps[1]);
    assert ps[1..] == [Ratio(3, 10)];
    assert ps[..2] == ps;
  }

  /** The fragments written by a split hold exactly the samples of the source, each as often. */
  lemma SplitResultPartition(d: Dict, source: string, fields: seq<string>, ps: seq<Proportion>, shuffle: Shuffle)
    requires d.AllChunks() && Split(source) in d.values && Permutes(shuffle)
    requires SplitFits(|d.values[Split(source)].samples|, fields, ps)
    ensures Union(SourceFragments(d, source, fields, ps, shuffle)) == multiset(d.values[Split(source)].samples)
  {
    FragmentsPartition(d.values[Split(source)].samples, SourceSizes(d, source, fields, ps), shuffle, 0);
  }
}
