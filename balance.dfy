/** The class-balancing arithmetic of `getData`: label counts over the list
    `y` built from the cache, the number of pool samples appended as
    UNKNOWN, and the shape of the training data it produces. */
module Balance {
  import opened Model

  /** `y.count(v)`. */
  function Count(y: seq<int>, v: int): (n: nat)
    ensures n <= |y|
  {
    if y == [] then 0 else (if y[0] == v then 1 else 0) + Count(y[1..], v)
  }

  /** The set of labels occurring in `y`. */
  function Labels(y: seq<int>): set<int> {
    set l | l in y
  }

  /** `len(set(y + [-1])) - 1`: the number of distinct labels other than UNKNOWN. */
  function NumIdentities(y: seq<int>): int {
    |Labels(y) + {UNKNOWN}| - 1
  }

  function NumUnknown(y: seq<int>): nat {
    Count(y, UNKNOWN)
  }

  function NumIdentified(y: seq<int>): nat {
    |y| - NumUnknown(y)
  }

  /** How many UNKNOWN samples `getData` appends to labels `y` when the pool
      holds `poolSize` embeddings: `numIdentified / numIdentities - numUnknown`
      if positive, cut at the end of the pool by the slice. */
  function AugmentCount(y: seq<int>, poolSize: nat): (n: nat)
    requires NumIdentities(y) > 0
    ensures n <= poolSize
  {
    var target := NumIdentified(y) / NumIdentities(y) - NumUnknown(y);
    if target <= 0 then 0 else if target < poolSize then target else poolSize
  }

  /** AugmentCount in terms of the three counts `getData` computes. */
  lemma AugmentCountOf(y: seq<int>, poolSize: nat, numUnknown: int, numIdentified: int, numIdentities: int)
    requires numUnknown == NumUnknown(y) && numIdentified == NumIdentified(y) && numIdentities == NumIdentities(y) > 0
    ensures var t := numIdentified / numIdentities - numUnknown;
      AugmentCount(y, poolSize) == if t <= 0 then 0 else if t < poolSize then t else poolSize
  {
  }

  /** `k` copies of the UNKNOWN label. */
  function Padding(k: nat): seq<int> {
    seq(k, _ => UNKNOWN)
  }

  lemma PaddingGrows(k: nat)
    ensures Padding(k + 1) == Padding(k) + [UNKNOWN]
  {
  }

  /** No stored face has a real identity. */
  ghost predicate AllUnknown(images: map<Hash, Face>) {
    forall h :: h in images ==> images[h].identity == UNKNOWN
  }

  /** `keys` lists every key of `images` exactly once. */
  ghost predicate Enumerates(images: map<Hash, Face>, keys: seq<Hash>) {
    && |keys| == |images|
    && (forall i, j :: 0 <= i < j < |keys| ==> keys[i] != keys[j])
    && (forall h :: h in images <==> h in keys)
  }

  /** The representations of the cached faces `keys` lists, in that order. */
  function RepsOf(images: map<Hash, Face>, keys: seq<Hash>): (X: seq<Rep>)
    requires forall h | h in keys :: h in images
    ensures |X| == |keys|
    ensures forall i :: 0 <= i < |keys| ==> X[i] == images[keys[i]].rep
    decreases |keys|
  {
    if keys == [] then []
    else RepsOf(images, keys[..|keys| - 1]) + [images[keys[|keys| - 1]].rep]
  }

  /** The identities of the cached faces `keys` lists, in that order. */
  function IdsOf(images: map<Hash, Face>, keys: seq<Hash>): (y: seq<int>)
    requires forall h | h in keys :: h in images
    ensures |y| == |keys|
    ensures forall i :: 0 <= i < |keys| ==> y[i] == images[keys[i]].identity
    decreases |keys|
  {
    if keys == [] then []
    else IdsOf(images, keys[..|keys| - 1]) + [images[keys[|keys| - 1]].identity]
  }

  /** Rows `X`, `y` balanced against pool `pool`: nothing when no label is
      an identity, otherwise the rows followed by the first AugmentCount
      embeddings of the pool labelled UNKNOWN. */
  function Augmented(X: seq<Rep>, y: seq<int>, pool: seq<Rep>): Option<Samples> {
    if NumIdentities(y) == 0 then None
    else
      var k := AugmentCount(y, |pool|);
      Some(Samples(X + pool[..k], y + Padding(k)))
  }

  /** With a nonempty pool the training data always holds at least two
      classes, so the classifier never sees a single label: one identity
      and no UNKNOWN sample means a positive padding count. */
  lemma AugmentedHasTwoClasses(X: seq<Rep>, y: seq<int>, pool: seq<Rep>)
    requires |pool| > 0 && Augmented(X, y, pool).Some?
    ensures |Labels(Augmented(X, y, pool).value.y)| >= 2
  {
    var k := AugmentCount(y, |pool|);
    var full := y + Padding(k);
    assert Augmented(X, y, pool).value.y == full;
    NumIdentitiesIsDistinctKnown(y);
    var known := Labels(y) - {UNKNOWN};
    assert known <= Labels(full);
    if UNKNOWN in y || k > 0 {
      assert UNKNOWN in full by {
        if UNKNOWN !in y { assert full[|y|] == UNKNOWN; }
      }
      var both := known + {UNKNOWN};
      assert known !! {UNKNOWN};
      assert both <= Labels(full);
      SubsetCard(both, Labels(full));
    } else {
      CountIsMultiplicity(y, UNKNOWN);
      assert Labels(y) == known;
      assert |y| > 0;
      assert NumUnknown(y) == 0 && NumIdentified(y) == |y|;
      assert |known| >= 2;
      SubsetCard(known, Labels(full));
    }
  }

  lemma SubsetCard(a: set<int>, b: set<int>)
    requires a <= b
    ensures |a| <= |b|
  {
    assert b == a + (b - a);
  }

  /** What `getData` returns for cache `images` and pool `pool` when it
      visits the cache in the order `keys`. */
  function BalancedData(images: map<Hash, Face>, pool: seq<Rep>, keys: seq<Hash>): Option<Samples>
    requires forall h | h in keys :: h in images
  {
    Augmented(RepsOf(images, keys), IdsOf(images, keys), pool)
  }

  /** The training data holds one row per cached face, in visiting order,
      followed by at most the whole pool as UNKNOWN rows. */
  lemma BalancedDataRows(images: map<Hash, Face>, pool: seq<Rep>, keys: seq<Hash>)
    requires Enumerates(images, keys)
    ensures match BalancedData(images, pool, keys)
      case None => true
      case Some(d) =>
        var n := |images|;
        && |d.X| == |d.y| && n <= |d.y| <= n + |pool|
        && (forall i :: 0 <= i < n ==> d.X[i] == images[keys[i]].rep && d.y[i] == images[keys[i]].identity)
        && d.X[n..] == pool[..|d.y| - n]
        && (forall i :: n <= i < |d.y| ==> d.y[i] == UNKNOWN)
  {
    var d := BalancedData(images, pool, keys);
    if d.Some? {
      var y := IdsOf(images, keys);
      var k := AugmentCount(y, |pool|);
      assert d.value.X[|keys|..] == pool[..k];
      forall i | |keys| <= i < |d.value.y| ensures d.value.y[i] == UNKNOWN {
        assert d.value.y[i] == Padding(k)[i - |keys|];
      }
    }
  }

  /** `getData` returns nothing exactly when no cached face has an identity. */
  lemma NoDataIffAllUnknown(images: map<Hash, Face>, pool: seq<Rep>, keys: seq<Hash>)
    requires Enumerates(images, keys)
    ensures BalancedData(images, pool, keys).None? <==> AllUnknown(images)
  {
    var y := IdsOf(images, keys);
    NoIdentitiesIffAllUnknownLabels(y);
    if !AllUnknown(images) {
      var h :| h in images && images[h].identity != UNKNOWN;
      var i :| 0 <= i < |keys| && keys[i] == h;
      assert y[i] != UNKNOWN;
    }
  }

  /** Count is the multiplicity of the value in the list. */
  lemma {:induction false} CountIsMultiplicity(y: seq<int>, v: int)
    ensures Count(y, v) == multiset(y)[v]
  {
    if y != [] {
      CountIsMultiplicity(y[1..], v);
      assert y == [y[0]] + y[1..];
      assert multiset(y) == multiset{y[0]} + multiset(y[1..]);
    }
  }

  /** NumIdentities is the number of distinct labels other than UNKNOWN. */
  lemma NumIdentitiesIsDistinctKnown(y: seq<int>)
    ensures NumIdentities(y) == |Labels(y) - {UNKNOWN}|
  {
    var known := Labels(y) - {UNKNOWN};
    assert Labels(y) + {UNKNOWN} == known + {UNKNOWN};
    assert known !! {UNKNOWN};
  }

  /** There are no identities exactly when every label is UNKNOWN. */
  lemma NoIdentitiesIffAllUnknownLabels(y: seq<int>)
    ensures NumIdentities(y) == 0 <==> forall i :: 0 <= i < |y| ==> y[i] == UNKNOWN
  {
    NumIdentitiesIsDistinctKnown(y);
    if NumIdentities(y) == 0 {
      forall i | 0 <= i < |y| ensures y[i] == UNKNOWN {
        assert y[i] in Labels(y);
      }
    }
  }

  /** The number of appended samples depends only on which labels occur how
      often, not on the order in which the dictionary was visited. */
  lemma AugmentCountIgnoresOrder(y1: seq<int>, y2: seq<int>, poolSize: nat)
    requires multiset(y1) == multiset(y2)
    requires NumIdentities(y1) > 0
    ensures NumIdentities(y2) > 0
    ensures AugmentCount(y1, poolSize) == AugmentCount(y2, poolSize)
  {
    assert Labels(y1) == Labels(y2) by {
      forall l ensures l in y1 <==> l in y2 {
        assert l in y1 <==> l in multiset(y1);
        assert l in y2 <==> l in multiset(y2);
      }
    }
    CountIsMultiplicity(y1, UNKNOWN);
    CountIsMultiplicity(y2, UNKNOWN);
    assert |y1| == |multiset(y1)| == |y2|;
  }

  /** The rows of a training set: its embeddings paired with their labels. */
  function Rows(d: Samples): (r: seq<(Rep, int)>)
    ensures |r| == if |d.X| < |d.y| then |d.X| else |d.y|
  {
    seq(if |d.X| < |d.y| then |d.X| else |d.y|, i requires 0 <= i < |d.X| && i < |d.y| => (d.X[i], d.y[i]))
  }

  /** `f` applied to every key of `keys`, in order. */
  function Apply<T>(f: Hash -> T, keys: seq<Hash>): (r: seq<T>)
    ensures |r| == |keys|
  {
    seq(|keys|, i requires 0 <= i < |keys| => f(keys[i]))
  }

  lemma ApplyConcat<T>(f: Hash -> T, a: seq<Hash>, b: seq<Hash>)
    ensures Apply(f, a + b) == Apply(f, a) + Apply(f, b)
  {
  }

  /** A key sequence without repetitions holds each of its keys once. */
  lemma {:induction false} DistinctMultiplicity(keys: seq<Hash>, h: Hash)
    requires forall i, j :: 0 <= i < j < |keys| ==> keys[i] != keys[j]
    ensures multiset(keys)[h] == if h in keys then 1 else 0
  {
    if keys != [] {
      var init := keys[..|keys| - 1];
      DistinctMultiplicity(init, h);
      assert keys == init + [keys[|keys| - 1]];
      assert h in keys <==> h in init || h == keys[|keys| - 1];
      if h == keys[|keys| - 1] {
        assert h !in init by {
          forall i | 0 <= i < |init| ensures init[i] != h {
            assert init[i] == keys[i];
          }
        }
      }
    }
  }

  /** Two enumerations of the same cache are permutations of each other. */
  lemma EnumerationsPermute(images: map<Hash, Face>, k1: seq<Hash>, k2: seq<Hash>)
    requires Enumerates(images, k1) && Enumerates(images, k2)
    ensures multiset(k1) == multiset(k2)
  {
    forall h ensures multiset(k1)[h] == multiset(k2)[h] {
      DistinctMultiplicity(k1, h);
      DistinctMultiplicity(k2, h);
    }
  }

  /** Mapping a function over two permutations of the keys gives
      permutations of each other. */
  lemma {:induction false} ApplyPermutes<T>(f: Hash -> T, k1: seq<Hash>, k2: seq<Hash>)
    requires multiset(k1) == multiset(k2)
    ensures multiset(Apply(f, k1)) == multiset(Apply(f, k2))
    decreases |k1|
  {
    if k1 != [] {
      var last := |k1| - 1;
      var h := k1[last];
      assert h in multiset(k2);
      var j :| 0 <= j < |k2| && k2[j] == h;
      RemoveAt(f, k1, last);
      RemoveAt(f, k2, j);
      assert k1[..last] + k1[last + 1..] == k1[..last];
      ApplyPermutes(f, k1[..last], k2[..j] + k2[j + 1..]);
    }
  }

  /** Taking out the key at `j` takes its image out of the mapped sequence. */
  lemma RemoveAt<T>(f: Hash -> T, keys: seq<Hash>, j: nat)
    requires j < |keys|
    ensures multiset(keys[..j] + keys[j + 1..]) == multiset(keys) - multiset{keys[j]}
    ensures multiset(Apply(f, keys)) == multiset(Apply(f, keys[..j] + keys[j + 1..])) + multiset{f(keys[j])}
  {
    var left, right := keys[..j], keys[j + 1..];
    assert keys == left + [keys[j]] + right;
    ApplyConcat(f, left + [keys[j]], right);
    ApplyConcat(f, left, [keys[j]]);
    ApplyConcat(f, left, right);
    assert Apply(f, [keys[j]]) == [f(keys[j])];
  }

  /** The label of a cached face, UNKNOWN for a key not in the cache. */
  function IdOf(images: map<Hash, Face>): Hash -> int {
    h => if h in images then images[h].identity else UNKNOWN
  }

  /** The row of a cached face. */
  function RowOf(images: map<Hash, Face>): Hash -> (Rep, int) {
    h => if h in images then (images[h].rep, images[h].identity) else ([], UNKNOWN)
  }

  /** The training data does not depend on the order in which the dictionary
      is visited, up to the order of its rows: two visiting orders give data
      for one exactly when for the other, and then the same rows equally
      often. */
  lemma BalancedDataIgnoresOrder(images: map<Hash, Face>, pool: seq<Rep>, k1: seq<Hash>, k2: seq<Hash>)
    requires Enumerates(images, k1) && Enumerates(images, k2)
    ensures BalancedData(images, pool, k1).None? <==> BalancedData(images, pool, k2).None?
    ensures BalancedData(images, pool, k1).Some? ==>
      multiset(Rows(BalancedData(images, pool, k1).value)) == multiset(Rows(BalancedData(images, pool, k2).value))
  {
    EnumerationsPermute(images, k1, k2);
    LabelsPermute(images, k1, k2);
    var y1, y2 := IdsOf(images, k1), IdsOf(images, k2);
    if NumIdentities(y1) > 0 {
      AugmentCountIgnoresOrder(y1, y2, |pool|);
      var k := AugmentCount(y1, |pool|);
      ApplyPermutes(RowOf(images), k1, k2);
      TopRows(images, pool, k1, k);
      TopRows(images, pool, k2, k);
      var tail := Rows(Samples(pool[..k], Padding(k)));
      var r1, r2 := Apply(RowOf(images), k1), Apply(RowOf(images), k2);
      assert BalancedData(images, pool, k1).value == Samples(RepsOf(images, k1) + pool[..k], y1 + Padding(k));
      assert BalancedData(images, pool, k2).value == Samples(RepsOf(images, k2) + pool[..k], y2 + Padding(k));
      assert multiset(r1 + tail) == multiset(r1) + multiset(tail);
      assert multiset(r2 + tail) == multiset(r2) + multiset(tail);
    } else if NumIdentities(y2) > 0 {
      AugmentCountIgnoresOrder(y2, y1, |pool|);
    }
  }

  /** The labels of two enumerations of the cache are permutations of each
      other. */
  lemma LabelsPermute(images: map<Hash, Face>, k1: seq<Hash>, k2: seq<Hash>)
    requires forall h | h in k1 :: h in images
    requires forall h | h in k2 :: h in images
    requires multiset(k1) == multiset(k2)
    ensures multiset(IdsOf(images, k1)) == multiset(IdsOf(images, k2))
  {
    ApplyPermutes(IdOf(images), k1, k2);
    IdsOfIsApply(images, k1);
    IdsOfIsApply(images, k2);
  }

  lemma IdsOfIsApply(images: map<Hash, Face>, keys: seq<Hash>)
    requires forall h | h in keys :: h in images
    ensures IdsOf(images, keys) == Apply(IdOf(images), keys)
  {
    forall i | 0 <= i < |keys| ensures IdsOf(images, keys)[i] == Apply(IdOf(images), keys)[i] {
      assert keys[i] in images;
    }
  }

  /** The rows of cache rows followed by `k` pool rows. */
  lemma TopRows(images: map<Hash, Face>, pool: seq<Rep>, keys: seq<Hash>, k: nat)
    requires forall h | h in keys :: h in images
    requires k <= |pool|
    ensures Rows(Samples(RepsOf(images, keys) + pool[..k], IdsOf(images, keys) + Padding(k)))
      == Apply(RowOf(images), keys) + Rows(Samples(pool[..k], Padding(k)))
  {
  }

  /** Balancing: after the padding, the UNKNOWN class holds as many samples as
      an average identity, `numIdentified / numIdentities`, or as the pool
      allows, whichever is less, but never fewer than it held before; the
      identified samples and the set of identities are left as they were. */
  lemma BalancedUnknownCount(y: seq<int>, poolSize: nat)
    requires NumIdentities(y) > 0
    ensures var full := y + Padding(AugmentCount(y, poolSize));
      var average := NumIdentified(y) / NumIdentities(y);
      var reach := if average < NumUnknown(y) + poolSize then average else NumUnknown(y) + poolSize;
      && NumUnknown(full) == (if NumUnknown(y) < reach then reach else NumUnknown(y))
      && NumIdentified(full) == NumIdentified(y)
      && NumIdentities(full) == NumIdentities(y)
  {
    var k := AugmentCount(y, poolSize);
    var full := y + Padding(k);
    CountIsMultiplicity(y, UNKNOWN);
    CountIsMultiplicity(full, UNKNOWN);
    CountIsMultiplicity(Padding(k), UNKNOWN);
    assert multiset(full) == multiset(y) + multiset(Padding(k));
    assert Count(Padding(k), UNKNOWN) == k by {
      PaddingCount(k);
    }
    assert Labels(full) + {UNKNOWN} == Labels(y) + {UNKNOWN} by {
      forall l | l in full ensures l in y || l == UNKNOWN {
        var i :| 0 <= i < |full| && full[i] == l;
        if i >= |y| { assert full[i] == Padding(k)[i - |y|]; }
      }
    }
  }

  lemma {:induction false} PaddingCount(k: nat)
    ensures Count(Padding(k), UNKNOWN) == k
  {
    if k > 0 {
      assert Padding(k)[1..] == Padding(k - 1);
      PaddingCount(k - 1);
    }
  }
}
