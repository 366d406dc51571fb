/**
 * Preprocessing: a deep copy of the data dictionary into which every sample's
 * transformed text is written under the sample's integer position, not under
 * its split. The splits themselves are copied unchanged.
 */
module Preprocessing {
  import opened Wrappers
  import opened DataDict

  /** A batch text transform from the preprocessor registry. */
  type Prep = seq<string> -> seq<string>

  /** The transform answers a one-text batch with at least one text, so `prep([t])[0]` exists. */
  ghost predicate AnswersSingletons(prep: Prep)
  {
    forall t: string :: |prep([t])| > 0
  }

  /** `(prep([text])[0], labels)`: the sample with its text transformed and its labels kept. */
  function PrepSample(prep: Prep, s: Sample): (r: Sample)
    requires AnswersSingletons(prep)
    ensures r.labels == s.labels
    ensures [r.text] == prep([s.text])[..1]
  {
    Sample(prep([s.text])[0], s.labels)
  }

  /** The inner loop: `copy[i] = PrepSample(chunk[i])` for each position `i` in order. */
  function PrepChunk(copy: Dict, chunk: seq<Sample>, prep: Prep): Dict
    requires AnswersSingletons(prep)
    decreases |chunk|
  {
    if chunk == [] then copy
    else
      var last := |chunk| - 1;
      PrepChunk(copy, chunk[..last], prep).Put(Index(last), Record(PrepSample(prep, chunk[last])))
  }

  /** The outer loop: the inner loop over the samples of each key of `ks` in turn, read from the original `d`. */
  function PrepSplits(d: Dict, ks: seq<Key>, prep: Prep): Dict
    requires d.AllChunks() && AnswersSingletons(prep)
    requires forall k :: k in ks ==> k in d.values
    decreases |ks|
  {
    if ks == [] then d
    else
      var last := |ks| - 1;
      assert forall k :: k in ks[..last] ==> k in ks;
      PrepChunk(PrepSplits(d, ks[..last], prep), d.values[ks[last]].samples, prep)
  }

  /** One more position of the inner loop. */
  lemma PrepChunkStep(c: Dict, chunk: seq<Sample>, i: nat, prep: Prep)
    requires AnswersSingletons(prep) && i < |chunk|
    ensures PrepChunk(c, chunk[..i + 1], prep) == PrepChunk(c, chunk[..i], prep).Put(Index(i), Record(PrepSample(prep, chunk[i])))
  {
    assert chunk[..i + 1][..i] == chunk[..i];
  }

  /** One more key of the outer loop. */
  lemma PrepSplitsStep(d: Dict, ks: seq<Key>, j: nat, prep: Prep)
    requires d.AllChunks() && AnswersSingletons(prep)
    requires j < |ks| && forall k :: k in ks ==> k in d.values
    ensures forall k :: k in ks[..j + 1] ==> k in d.values
    ensures PrepSplits(d, ks[..j + 1], prep) == PrepChunk(PrepSplits(d, ks[..j], prep), d.values[ks[j]].samples, prep)
  {
    assert ks[..j + 1][..j] == ks[..j];
  }

  /** `preprocess`: the copy after both loops have run over the keys of `d` in order. */
  function Preprocessed(d: Dict, prep: Prep): Dict
    requires d.Valid() && d.AllChunks() && AnswersSingletons(prep)
  {
    PrepSplits(d, d.keys, prep)
  }

  function Max(a: nat, b: nat): nat
  {
    if a < b then b else a
  }

  /** The length of the longest split among `ks`. */
  function MaxLen(d: Dict, ks: seq<Key>): nat
    requires d.AllChunks() && forall k :: k in ks ==> k in d.values
    decreases |ks|
  {
    if ks == [] then 0
    else
      var last := |ks| - 1;
      assert forall k :: k in ks[..last] ==> k in ks;
      Max(MaxLen(d, ks[..last]), |d.values[ks[last]].samples|)
  }

  /**
   * Sample `i` of the last split in `ks` that has more than `i` samples: the
   * sample whose transformed copy ends up under the integer key `i`.
   */
  function Covering(d: Dict, ks: seq<Key>, i: nat): (s: Option<Sample>)
    requires d.AllChunks() && forall k :: k in ks ==> k in d.values
    ensures s.Some? <==> i < MaxLen(d, ks)
    ensures s.Some? ==> exists k :: k in ks && i < |d.values[k].samples| && s.value == d.values[k].samples[i]
    decreases |ks|
  {
    if ks == [] then None
    else
      var last := |ks| - 1;
      assert forall k :: k in ks[..last] ==> k in ks;
      var chunk := d.values[ks[last]].samples;
      if i < |chunk| then Some(chunk[i]) else Covering(d, ks[..last], i)
  }

  /**
   * The sample that ends up under integer key `i` comes from the LAST key of
   * `ks` whose split is longer than `i`: every later split is too short.
   */
  lemma {:induction false} CoveringIsLast(d: Dict, ks: seq<Key>, i: nat)
    requires d.AllChunks() && forall k :: k in ks ==> k in d.values
    requires i < MaxLen(d, ks)
    ensures exists j :: (0 <= j < |ks| && i < |d.values[ks[j]].samples| && Covering(d, ks, i).value == d.values[ks[j]].samples[i]
      && forall j' :: j < j' < |ks| ==> |d.values[ks[j']].samples| <= i)
    decreases |ks|
  {
    var last := |ks| - 1;
    var chunk := d.values[ks[last]].samples;
    if i < |chunk| {
      assert 0 <= last < |ks| && i < |d.values[ks[last]].samples| && Covering(d, ks, i).value == d.values[ks[last]].samples[i];
    } else {
      var prefix := ks[..last];
      assert forall k :: k in prefix ==> k in ks;
      CoveringIsLast(d, prefix, i);
      var j :| 0 <= j < |prefix| && i < |d.values[prefix[j]].samples| && Covering(d, prefix, i).value == d.values[prefix[j]].samples[i]
        && forall j' :: j < j' < |prefix| ==> |d.values[prefix[j']].samples| <= i;
      assert prefix[j] == ks[j];
      forall j' | j < j' < |ks| ensures |d.values[ks[j']].samples| <= i {
        if j' < last {
          assert prefix[j'] == ks[j'];
        }
      }
    }
  }

  /** The integer keys `lo <= i < hi` that `c` does not hold yet, in increasing order. */
  function NewIndexKeys(c: Dict, lo: nat, hi: nat): seq<Key>
    decreases hi
  {
    if hi <= lo then []
    else NewIndexKeys(c, lo, hi - 1) + (if Index(hi - 1) in c.values then [] else [Index(hi - 1)])
  }

  /** The inner loop adds exactly the integer keys below the length of the split. */
  lemma {:induction false} PrepChunkDomain(c: Dict, chunk: seq<Sample>, prep: Prep)
    requires AnswersSingletons(prep)
    ensures forall k :: k in PrepChunk(c, chunk, prep).values <==> k in c.values || (k.Index? && k.i < |chunk|)
    decreases |chunk|
  {
    if chunk != [] {
      PrepChunkDomain(c, chunk[..|chunk| - 1], prep);
    }
  }

  /** The keys the inner loop leaves in the copy: the new positions go to the end, in increasing order. */
  lemma {:induction false} PrepChunkKeys(c: Dict, chunk: seq<Sample>, prep: Prep)
    requires AnswersSingletons(prep)
    ensures c.Valid() ==> PrepChunk(c, chunk, prep).Valid()
    ensures PrepChunk(c, chunk, prep).keys == c.keys + NewIndexKeys(c, 0, |chunk|)
    decreases |chunk|
  {
    if chunk != [] {
      var last := |chunk| - 1;
      var init := chunk[..last];
      PrepChunkKeys(c, init, prep);
      PrepChunkDomain(c, init, prep);
      var p := PrepChunk(c, init, prep);
      var added := if Index(last) in c.values then [] else [Index(last)];
      assert Index(last) in p.values <==> Index(last) in c.values;
      assert PrepChunk(c, chunk, prep).keys == p.keys + added;
      assert NewIndexKeys(c, 0, |chunk|) == NewIndexKeys(c, 0, last) + added;
    }
  }

  /** The inner loop keeps the value of every key it does not overwrite. */
  lemma {:induction false} PrepChunkKept(c: Dict, chunk: seq<Sample>, prep: Prep)
    requires AnswersSingletons(prep)
    ensures forall k :: k in c.values && !(k.Index? && k.i < |chunk|) ==>
      k in PrepChunk(c, chunk, prep).values && PrepChunk(c, chunk, prep).values[k] == c.values[k]
    decreases |chunk|
  {
    if chunk != [] {
      PrepChunkKept(c, chunk[..|chunk| - 1], prep);
    }
  }

  /** The inner loop leaves the transformed sample `i` under integer key `i`. */
  lemma {:induction false} PrepChunkWritten(c: Dict, chunk: seq<Sample>, prep: Prep)
    requires AnswersSingletons(prep)
    ensures forall i: nat :: i < |chunk| ==>
      Index(i) in PrepChunk(c, chunk, prep).values && PrepChunk(c, chunk, prep).values[Index(i)] == Record(PrepSample(prep, chunk[i]))
    decreases |chunk|
  {
    if chunk != [] {
      var last := |chunk| - 1;
      var init := chunk[..last];
      PrepChunkWritten(c, init, prep);
      var r := PrepChunk(c, chunk, prep);
      forall i: nat | i < last ensures Index(i) in r.values && r.values[Index(i)] == Record(PrepSample(prep, chunk[i])) {
        assert init[i] == chunk[i];
      }
    }
  }

  /** Integer keys of the copy are those of `d` plus every position below `m`. */
  lemma {:induction false} NewIndexKeysShift(p: Dict, d: Dict, m: nat, l: nat)
    requires forall i: nat :: Index(i) in p.values <==> Index(i) in d.values || i < m
    ensures NewIndexKeys(p, 0, l) == NewIndexKeys(d, m, l)
    decreases l
  {
    if l > 0 {
      NewIndexKeysShift(p, d, m, l - 1);
    }
  }

  lemma {:induction false} NewIndexKeysAppend(d: Dict, m: nat, l: nat)
    ensures NewIndexKeys(d, 0, m) + NewIndexKeys(d, m, l) == NewIndexKeys(d, 0, Max(m, l))
    decreases l
  {
    if l > m {
      NewIndexKeysAppend(d, m, l - 1);
    }
  }

  /** Both loops add exactly the integer keys below the longest split's length. */
  lemma {:induction false} PrepSplitsDomain(d: Dict, ks: seq<Key>, prep: Prep)
    requires d.AllChunks() && AnswersSingletons(prep)
    requires forall k :: k in ks ==> k in d.values
    ensures forall k :: k in PrepSplits(d, ks, prep).values <==> k in d.values || (k.Index? && k.i < MaxLen(d, ks))
    decreases |ks|
  {
    if ks != [] {
      var prefix := ks[..|ks| - 1];
      assert forall k :: k in prefix ==> k in ks;
      PrepSplitsDomain(d, prefix, prep);
      PrepChunkDomain(PrepSplits(d, prefix, prep), d.values[ks[|ks| - 1]].samples, prep);
    }
  }

  /** Both loops keep the order listing every key once. */
  lemma {:induction false} PrepSplitsValid(d: Dict, ks: seq<Key>, prep: Prep)
    requires d.Valid() && d.AllChunks() && AnswersSingletons(prep)
    requires forall k :: k in ks ==> k in d.values
    ensures PrepSplits(d, ks, prep).Valid()
    decreases |ks|
  {
    if ks != [] {
      var prefix := ks[..|ks| - 1];
      assert forall k :: k in prefix ==> k in ks;
      PrepSplitsValid(d, prefix, prep);
      PrepChunkKeys(PrepSplits(d, prefix, prep), d.values[ks[|ks| - 1]].samples, prep);
    }
  }

  /**
   * The keys both loops leave in the copy: the keys of `d` in their order,
   * then the integer keys below the longest split's length that `d` lacks,
   * in increasing order.
   */
  lemma {:induction false} PrepSplitsKeys(d: Dict, ks: seq<Key>, prep: Prep)
    requires d.AllChunks() && AnswersSingletons(prep)
    requires forall k :: k in ks ==> k in d.values
    ensures PrepSplits(d, ks, prep).keys == d.keys + NewIndexKeys(d, 0, MaxLen(d, ks))
    decreases |ks|
  {
    if ks != [] {
      var last := |ks| - 1;
      var prefix := ks[..last];
      assert forall k :: k in prefix ==> k in ks;
      PrepSplitsKeys(d, prefix, prep);
      PrepSplitsDomain(d, prefix, prep);
      var p := PrepSplits(d, prefix, prep);
      var chunk := d.values[ks[last]].samples;
      var m := MaxLen(d, prefix);
      assert MaxLen(d, ks) == Max(m, |chunk|);
      assert PrepSplits(d, ks, prep) == PrepChunk(p, chunk, prep);
      assert forall i: nat :: Index(i) in p.values <==> Index(i) in d.values || i < m;
      PrepChunkAfterSplits(d, p, chunk, prep, m);
    }
  }

  /**
   * The inner loop over one more split, run on a copy that already holds the
   * integer keys below `m`: the keys below the new maximum follow in order.
   */
  lemma PrepChunkAfterSplits(d: Dict, p: Dict, chunk: seq<Sample>, prep: Prep, m: nat)
    requires AnswersSingletons(prep)
    requires p.keys == d.keys + NewIndexKeys(d, 0, m)
    requires forall i: nat :: Index(i) in p.values <==> Index(i) in d.values || i < m
    ensures PrepChunk(p, chunk, prep).keys == d.keys + NewIndexKeys(d, 0, Max(m, |chunk|))
  {
    var below, added := NewIndexKeys(d, 0, m), NewIndexKeys(d, m, |chunk|);
    assert (d.keys + below) + added == d.keys + (below + added);
    PrepChunkKeys(p, chunk, prep);
    NewIndexKeysShift(p, d, m, |chunk|);
    NewIndexKeysAppend(d, m, |chunk|);
  }

  /** Both loops keep the value of every key of `d` that is not an overwritten integer key. */
  lemma {:induction false} PrepSplitsKept(d: Dict, ks: seq<Key>, prep: Prep)
    requires d.AllChunks() && AnswersSingletons(prep)
    requires forall k :: k in ks ==> k in d.values
    ensures forall k :: k in d.values && !(k.Index? && k.i < MaxLen(d, ks)) ==>
      k in PrepSplits(d, ks, prep).values && PrepSplits(d, ks, prep).values[k] == d.values[k]
    decreases |ks|
  {
    if ks != [] {
      var prefix := ks[..|ks| - 1];
      assert forall k :: k in prefix ==> k in ks;
      PrepSplitsKept(d, prefix, prep);
      PrepChunkKept(PrepSplits(d, prefix, prep), d.values[ks[|ks| - 1]].samples, prep);
    }
  }

  /**
   * After both loops, integer key `i` holds the transformed sample `i` of the
   * last split, in iteration order, longer than `i`.
   */
  lemma {:induction false} PrepSplitsWritten(d: Dict, ks: seq<Key>, prep: Prep)
    requires d.AllChunks() && AnswersSingletons(prep)
    requires forall k :: k in ks ==> k in d.values
    ensures forall i: nat :: i < MaxLen(d, ks) ==>
      && Index(i) in PrepSplits(d, ks, prep).values
      && PrepSplits(d, ks, prep).values[Index(i)] == Record(PrepSample(prep, Covering(d, ks, i).value))
    decreases |ks|
  {
    if ks != [] {
      var prefix := ks[..|ks| - 1];
      assert forall k :: k in prefix ==> k in ks;
      PrepSplitsWritten(d, prefix, prep);
      var p := PrepSplits(d, prefix, prep);
      var chunk := d.values[ks[|ks| - 1]].samples;
      PrepChunkWritten(p, chunk, prep);
      PrepChunkKept(p, chunk, prep);
    }
  }

  /**
   * The keys `preprocess` leaves: those of `d` in their order, then the
   * integer positions below the longest split's length that `d` lacks, in
   * increasing order; each key once.
   */
  lemma PreprocessedKeys(d: Dict, prep: Prep)
    requires d.Valid() && d.AllChunks() && AnswersSingletons(prep)
    ensures Preprocessed(d, prep).Valid()
    ensures Preprocessed(d, prep).keys == d.keys + NewIndexKeys(d, 0, MaxLen(d, d.keys))
    ensures forall k :: k in Preprocessed(d, prep).values <==> k in d.values || (k.Index? && k.i < MaxLen(d, d.keys))
  {
    assert forall k :: k in d.keys ==> k in d.values;
    PrepSplitsValid(d, d.keys, prep);
    PrepSplitsKeys(d, d.keys, prep);
    PrepSplitsDomain(d, d.keys, prep);
  }

  /**
   * The values `preprocess` leaves: every split keeps its original samples,
   * untransformed; integer key `i` holds the transformed sample `i` of the
   * last split in key order that is longer than `i`, with its labels kept.
   */
  lemma PreprocessedValues(d: Dict, prep: Prep)
    requires d.Valid() && d.AllChunks() && AnswersSingletons(prep)
    ensures forall name :: Split(name) in d.values ==>
      Split(name) in Preprocessed(d, prep).values && Preprocessed(d, prep).values[Split(name)] == d.values[Split(name)]
    ensures forall i: nat :: i < MaxLen(d, d.keys) ==>
      && Index(i) in Preprocessed(d, prep).values
      && Preprocessed(d, prep).values[Index(i)] == Record(PrepSample(prep, Covering(d, d.keys, i).value))
      && LabelsFromPosition(d, i, Preprocessed(d, prep).values[Index(i)].sample.labels)
  {
    var r := Preprocessed(d, prep);
    assert forall k :: k in d.keys ==> k in d.values;
    PrepSplitsKept(d, d.keys, prep);
    PrepSplitsWritten(d, d.keys, prep);
    forall i: nat | i < MaxLen(d, d.keys)
      ensures LabelsFromPosition(d, i, r.values[Index(i)].sample.labels)
    {
      var s := Covering(d, d.keys, i).value;
      var k :| k in d.keys && i < |d.values[k].samples| && s == d.values[k].samples[i];
      assert k in d.values;
    }
  }

  /** `labels` are the labels of sample `i` of some split of `d`. */
  ghost predicate LabelsFromPosition(d: Dict, i: nat, labels: seq<string>)
    requires d.AllChunks()
  {
    exists k :: k in d.values && i < |d.values[k].samples| && labels == d.values[k].samples[i].labels
  }
}
