/** Field merge: one target split that holds several splits one after another. */
module Merging {
  import opened DataDict

  /** Every name in `names` is a split of `d`. */
  predicate Present(d: Dict, names: seq<string>)
  {
    forall n :: n in names ==> Split(n) in d.values
  }

  /** The first name of `names` that is not a split of `d`: the key a merge fails on. */
  function FirstMissing(d: Dict, names: seq<string>): (n: string)
    requires !Present(d, names)
    ensures exists j :: 0 <= j < |names| && names[j] == n && Present(d, names[..j])
    ensures Split(n) !in d.values
    decreases |names|
  {
    if Split(names[0]) !in d.values then
      assert Present(d, names[..0]);
      names[0]
    else
      assert forall x :: x in names[1..] ==> x in names;
      var n := FirstMissing(d, names[1..]);
      ghost var j :| 0 <= j < |names[1..]| && names[1..][j] == n && Present(d, names[1..][..j]);
      assert names[..j + 1] == [names[0]] + names[1..][..j];
      n
  }

  /** The samples of the splits `names`, in listed order. */
  function Concat(d: Dict, names: seq<string>): seq<Sample>
    requires d.AllChunks() && Present(d, names)
    decreases |names|
  {
    if names == [] then []
    else Concat(d, names[..|names| - 1]) + d.values[Split(names[|names| - 1])].samples
  }

  /** One more name: its samples go after those of the names before it. */
  lemma ConcatStep(d: Dict, names: seq<string>, i: nat)
    requires d.AllChunks() && i < |names| && Present(d, names[..i]) && Split(names[i]) in d.values
    ensures Present(d, names[..i + 1])
    ensures Concat(d, names[..i + 1]) == Concat(d, names[..i]) + d.values[Split(names[i])].samples
  {
    assert names[..i + 1] == names[..i] + [names[i]];
    assert names[..i + 1][..i] == names[..i];
  }

  /** The listed order, read from the front: the first split's samples come first. */
  lemma {:induction false} ConcatCons(d: Dict, n: string, names: seq<string>)
    requires d.AllChunks() && Present(d, [n] + names)
    ensures Present(d, names)
    ensures Concat(d, [n] + names) == d.values[Split(n)].samples + Concat(d, names)
    decreases |names|
  {
    assert forall x :: x in names ==> x in [n] + names;
    if names != [] {
      var init := names[..|names| - 1];
      assert ([n] + names)[..|names|] == [n] + init;
      assert forall x :: x in [n] + init ==> x in [n] + names;
      ConcatCons(d, n, init);
    }
  }

  /** The merged split holds as many samples as the listed splits together. */
  lemma {:induction false} ConcatLength(d: Dict, names: seq<string>)
    requires d.AllChunks() && Present(d, names)
    ensures |Concat(d, names)| == TotalLength(d, names)
    decreases |names|
  {
    if names != [] {
      ConcatCons(d, names[0], names[1..]);
      assert [names[0]] + names[1..] == names;
      ConcatLength(d, names[1..]);
    }
  }

  /** The number of samples in the splits `names`, counted with repetition. */
  function TotalLength(d: Dict, names: seq<string>): nat
    requires d.AllChunks() && Present(d, names)
    decreases |names|
  {
    if names == [] then 0
    else |d.values[Split(names[0])].samples| + TotalLength(d, names[1..])
  }

  /**
   * `_merge_data`: a copy of `d` whose `target` holds the concatenation;
   * every other key keeps its value and no key is removed.
   */
  function Merged(d: Dict, names: seq<string>, target: string): (r: Dict)
    requires d.AllChunks() && Present(d, names)
    ensures d.Valid() ==> r.Valid()
    ensures r.AllChunks()
    ensures r.values.Keys == d.values.Keys + {Split(target)}
    ensures r.values[Split(target)] == Chunk(Concat(d, names))
    ensures forall k :: k in d.values && k != Split(target) ==> r.values[k] == d.values[k]
  {
    d.Put(Split(target), Chunk(Concat(d, names)))
  }
}
