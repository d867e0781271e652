/**
 The key -> count accumulator shared by every report (`DefaultReport.result`
 in lopro.go), and the arithmetic on it: reading a key, bumping a key and
 merging two accumulators.

 Counts are unbounded integers here; the source uses `int64`.
 */
module Counts {

  /** A report's key -> count map. */
  type Tally = map<string, int>

  /** Reading a key that is absent from a Go map yields the zero value. */
  function Count(m: Tally, k: string): int
  {
    if k in m then m[k] else 0
  }

  /** `m[k] += 1` on a Go map: the key is created if absent. */
  function Bump(m: Tally, k: string): (r: Tally)
    ensures r.Keys == m.Keys + {k}
    ensures Count(r, k) == Count(m, k) + 1
    ensures forall j :: j != k ==> Count(r, j) == Count(m, j)
  {
    m[k := Count(m, k) + 1]
  }

  /** The key-by-key sum of two accumulators: every key of either side is
      present, carrying the sum of both sides' counts. */
  function Plus(a: Tally, b: Tally): (r: Tally)
    ensures r.Keys == a.Keys + b.Keys
    ensures forall k :: Count(r, k) == Count(a, k) + Count(b, k)
  {
    map k | k in a.Keys + b.Keys :: Count(a, k) + Count(b, k)
  }

  /** Two accumulators with the same keys and the same counts are equal. */
  lemma Extensionality(a: Tally, b: Tally)
    requires a.Keys == b.Keys
    requires forall k :: Count(a, k) == Count(b, k)
    ensures a == b
  {
    forall k | k in a
      ensures a[k] == b[k]
    {
      assert Count(a, k) == Count(b, k);
    }
  }

  /** `DefaultReport.Merge`: the loop over the other map's entries, in
      whatever order the map hands them out, adding each into `a`. Any
      order gives the key-by-key sum. */
  method MergeInto(a: Tally, b: Tally) returns (r: Tally)
    ensures r.Keys == a.Keys + b.Keys
    ensures forall k :: Count(r, k) == Count(a, k) + Count(b, k)
    ensures r == Plus(a, b)
  {
    r := a;
    var rest := b.Keys;
    while rest != {}
      invariant rest <= b.Keys
      invariant r.Keys == a.Keys + (b.Keys - rest)
      invariant forall k :: k in r ==> r[k] == Count(a, k) + (if k in rest then 0 else Count(b, k))
      decreases rest
    {
      var k :| k in rest;
      r := r[k := Count(r, k) + b[k]];
      rest := rest - {k};
    }
    Extensionality(r, Plus(a, b));
  }

  lemma PlusEmptyRight(a: Tally)
    ensures Plus(a, map[]) == a
  {
    Extensionality(Plus(a, map[]), a);
  }

  lemma PlusEmptyLeft(a: Tally)
    ensures Plus(map[], a) == a
  {
    Extensionality(Plus(map[], a), a);
  }

  /** Merging is commutative over the key space. */
  lemma PlusCommutative(a: Tally, b: Tally)
    ensures Plus(a, b) == Plus(b, a)
  {
    Extensionality(Plus(a, b), Plus(b, a));
  }

  /** Merging is associative over the key space. */
  lemma PlusAssociative(a: Tally, b: Tally, c: Tally)
    ensures Plus(Plus(a, b), c) == Plus(a, Plus(b, c))
  {
    Extensionality(Plus(Plus(a, b), c), Plus(a, Plus(b, c)));
  }

  /** Bumping a key is merging in the one-key accumulator `{k: 1}`. */
  lemma BumpIsPlus(m: Tally, k: string)
    ensures Bump(m, k) == Plus(m, map[k := 1])
  {
    Extensionality(Bump(m, k), Plus(m, map[k := 1]));
  }
}
