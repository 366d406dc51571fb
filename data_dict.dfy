/**
 * The dataset's `data` dictionary. Python dictionaries remember the order in
 * which keys were first inserted, and `preprocess` depends on that order, so
 * a dictionary is its entries together with its keys in insertion order.
 */
module DataDict {

  /** One labelled sample: the pair `(text, labels)`. */
  datatype Sample = Sample(text: string, labels: seq<string>)

  /**
   * A dictionary key: the name of a split ("train", "valid", ...), or the
   * integer index under which `preprocess` stores a single sample.
   */
  datatype Key = Split(name: string) | Index(i: nat)

  /** A dictionary value: the list of samples of a split, or one sample. */
  datatype Entry = Chunk(samples: seq<Sample>) | Record(sample: Sample)

  datatype Dict = Dict(keys: seq<Key>, values: map<Key, Entry>) {

    /** The order lists every key exactly once. */
    ghost predicate Valid()
    {
      && (forall i, j :: 0 <= i < j < |keys| ==> keys[i] != keys[j])
      && (forall k :: k in values <==> k in keys)
    }

    /** Every value is a list of samples (the shape before preprocessing). */
    predicate AllChunks()
    {
      forall k :: k in values ==> values[k].Chunk?
    }

    /**
     * `d[k] = v`: the value under `k` is replaced; a new key goes to the end
     * of the order, an existing one keeps its place.
     */
    function Put(k: Key, v: Entry): (d: Dict)
      ensures d.values.Keys == values.Keys + {k} && d.values[k] == v
      ensures forall j :: j in values && j != k ==> d.values[j] == values[j]
      ensures k in values ==> d.keys == keys
      ensures k !in values ==> d.keys == keys + [k]
    {
      Dict(if k in values then keys else keys + [k], values[k := v])
    }
  }

  /** Writing the same key twice leaves only the second write. */
  lemma PutTwice(d: Dict, k: Key, v: Entry, w: Entry)
    ensures d.Put(k, v).Put(k, w) == d.Put(k, w)
  {
    assert d.Put(k, v).Put(k, w).values == d.Put(k, w).values;
  }
}
