/**
 * The first-occurrence de-duplication that both post-processing scripts
 * perform: items are visited in order, a set remembers the keys of the items
 * kept, and an item is kept exactly when its key is not yet in the set. The
 * key (an MD5 digest or Python's `hash` of a JSON dump) is a parameter.
 */
module Dedup {
  import opened Wrappers

  // ---------------------------------------------------------------------------
  // The items a loop considers
  // ---------------------------------------------------------------------------

  /** The values `f` gives for the items that yield one, in order: the items a loop over
      `xs` handles, `None` standing for an item skipped or whose handling raised. */
  function Collect<A, B>(xs: seq<A>, f: A -> Option<B>): (r: seq<B>)
    ensures |r| <= |xs|
    decreases |xs|
  {
    if xs == [] then []
    else
      var last := f(xs[|xs| - 1]);
      Collect(xs[..|xs| - 1], f) + (if last.Some? then [last.value] else [])
  }

  /** One more item at the end. */
  lemma CollectSnoc<A, B>(xs: seq<A>, x: A, f: A -> Option<B>)
    ensures Collect(xs + [x], f) == Collect(xs, f) + (if f(x).Some? then [f(x).value] else [])
  {
    assert (xs + [x])[..|xs|] == xs;
  }

  /** One more item of a prefix. */
  lemma CollectNext<A, B>(xs: seq<A>, f: A -> Option<B>, i: nat)
    requires i < |xs|
    ensures Collect(xs[..i + 1], f) == Collect(xs[..i], f) + (if f(xs[i]).Some? then [f(xs[i]).value] else [])
  {
    assert xs[..i + 1][..i] == xs[..i];
  }

  /** Two lists of items, one after the other. */
  lemma {:induction false} CollectAppend<A, B>(a: seq<A>, b: seq<A>, f: A -> Option<B>)
    ensures Collect(a + b, f) == Collect(a, f) + Collect(b, f)
    decreases |b|
  {
    if b == [] {
      assert a + b == a;
    } else {
      var n := |b| - 1;
      var x := b[n];
      CollectAppend(a, b[..n], f);
      assert a + b == (a + b[..n]) + [x];
      assert b == b[..n] + [x];
      CollectSnoc(a + b[..n], x, f);
      CollectSnoc(b[..n], x, f);
      var o := if f(x).Some? then [f(x).value] else [];
      Assoc(Collect(a, f), Collect(b[..n], f), o);
    }
  }

  lemma Assoc<T>(p: seq<T>, q: seq<T>, r: seq<T>)
    ensures (p + q) + r == p + (q + r)
  {
  }

  /** An item that yields nothing is skipped, and the items after it are handled as if it
      were not there. */
  lemma CollectSkip<A, B>(a: seq<A>, x: A, b: seq<A>, f: A -> Option<B>)
    requires f(x).None?
    ensures Collect(a + [x] + b, f) == Collect(a + b, f)
  {
    CollectAppend(a + [x], b, f);
    CollectAppend(a, b, f);
    CollectSnoc(a, x, f);
  }

  /** Every value collected comes from an item. */
  lemma {:induction false} CollectFrom<A, B>(xs: seq<A>, f: A -> Option<B>, y: B)
    requires y in Collect(xs, f)
    ensures exists j :: 0 <= j < |xs| && f(xs[j]) == Some(y)
    decreases |xs|
  {
    var n := |xs| - 1;
    CollectNext(xs, f, n);
    assert xs[..n + 1] == xs;
    if y in Collect(xs[..n], f) {
      CollectFrom(xs[..n], f, y);
      var j :| 0 <= j < n && f(xs[..n][j]) == Some(y);
      assert xs[..n][j] == xs[j];
    }
  }

  // ---------------------------------------------------------------------------
  // First occurrences
  // ---------------------------------------------------------------------------

  /** The keys of some items. */
  function KeysOf<T, K(!new)>(xs: seq<T>, key: T -> K): set<K>
    decreases |xs|
  {
    if xs == [] then {} else KeysOf(xs[..|xs| - 1], key) + {key(xs[|xs| - 1])}
  }

  /** A key is among the keys exactly when some item has it. */
  lemma {:induction false} KeysOfIff<T, K(!new)>(xs: seq<T>, key: T -> K)
    ensures forall k :: k in KeysOf(xs, key) <==> exists i :: 0 <= i < |xs| && key(xs[i]) == k
    decreases |xs|
  {
    if xs != [] {
      var init := xs[..|xs| - 1];
      KeysOfIff(init, key);
      assert forall i :: 0 <= i < |init| ==> init[i] == xs[i];
    }
  }

  /** No two items share a key. */
  predicate DistinctKeys<T, K(==)>(xs: seq<T>, key: T -> K) {
    forall i, j :: 0 <= i < j < |xs| ==> key(xs[i]) != key(xs[j])
  }

  /** The item at `j` is the first with its key. */
  predicate FirstAt<T, K(==, !new)>(xs: seq<T>, key: T -> K, j: nat)
    requires j < |xs|
  {
    key(xs[j]) !in KeysOf(xs[..j], key)
  }

  /** The items whose key has not come before, in order. */
  function FirstOfEach<T, K(==, !new)>(xs: seq<T>, key: T -> K): (r: seq<T>)
    ensures |r| <= |xs|
    decreases |xs|
  {
    if xs == [] then []
    else
      var d := FirstOfEach(xs[..|xs| - 1], key);
      if FirstAt(xs, key, |xs| - 1) then d + [xs[|xs| - 1]] else d
  }

  /** One more item: it is appended exactly when its key is new. */
  lemma FirstOfEachNext<T, K(!new)>(xs: seq<T>, key: T -> K, i: nat)
    requires i < |xs|
    ensures FirstOfEach(xs[..i + 1], key) ==
      if key(xs[i]) !in KeysOf(xs[..i], key) then FirstOfEach(xs[..i], key) + [xs[i]] else FirstOfEach(xs[..i], key)
  {
    var p := xs[..i + 1];
    assert p[..i] == xs[..i];
  }

  /** One more item at the end, as the loops meet it. */
  lemma FirstOfEachSnoc<T, K(!new)>(xs: seq<T>, x: T, key: T -> K)
    ensures KeysOf(xs + [x], key) == KeysOf(xs, key) + {key(x)}
    ensures FirstOfEach(xs + [x], key) ==
      if key(x) in KeysOf(xs, key) then FirstOfEach(xs, key) else FirstOfEach(xs, key) + [x]
  {
    assert (xs + [x])[..|xs|] == xs;
  }

  /** The kept items have the keys of all items. */
  lemma {:induction false} FirstOfEachKeys<T, K(!new)>(xs: seq<T>, key: T -> K)
    ensures KeysOf(FirstOfEach(xs, key), key) == KeysOf(xs, key)
    decreases |xs|
  {
    if xs != [] {
      var n := |xs| - 1;
      FirstOfEachKeys(xs[..n], key);
      var d := FirstOfEach(xs[..n], key);
      if FirstAt(xs, key, n) {
        assert (d + [xs[n]])[..|d|] == d;
      }
    }
  }

  /** No two kept items share a key. */
  lemma {:induction false} FirstOfEachDistinct<T, K(!new)>(xs: seq<T>, key: T -> K)
    ensures DistinctKeys(FirstOfEach(xs, key), key)
    decreases |xs|
  {
    if xs != [] {
      var n := |xs| - 1;
      FirstOfEachDistinct(xs[..n], key);
      FirstOfEachKeys(xs[..n], key);
      var d := FirstOfEach(xs[..n], key);
      KeysOfIff(d, key);
      if FirstAt(xs, key, n) {
        var r := d + [xs[n]];
        assert forall i :: 0 <= i < |d| ==> r[i] == d[i];
      }
    }
  }

  /** The first item with its key is kept. */
  lemma FirstOfEachKeeps<T, K(!new)>(xs: seq<T>, key: T -> K, j: nat)
    requires j < |xs| && FirstAt(xs, key, j)
    ensures xs[j] in FirstOfEach(xs, key)
  {
    FirstOfEachNext(xs, key, j);
    FirstOfEachPrefix(xs, key, j + 1);
    var d := FirstOfEach(xs[..j + 1], key);
    assert d[|d| - 1] == xs[j];
  }

  /** Every kept item is the first item with its key. */
  lemma {:induction false} FirstOfEachFrom<T, K(!new)>(xs: seq<T>, key: T -> K, x: T)
    requires x in FirstOfEach(xs, key)
    ensures exists j :: 0 <= j < |xs| && xs[j] == x && FirstAt(xs, key, j)
    decreases |xs|
  {
    var n := |xs| - 1;
    FirstOfEachNext(xs, key, n);
    assert xs[..n + 1] == xs;
    var init := xs[..n];
    if x in FirstOfEach(init, key) {
      FirstOfEachFrom(init, key, x);
      var j :| 0 <= j < |init| && init[j] == x && FirstAt(init, key, j);
      assert init[..j] == xs[..j];
    } else {
      assert FirstAt(xs, key, n);
    }
  }

  lemma FirstOfEachGrows<T, K(!new)>(xs: seq<T>, key: T -> K, i: nat)
    requires i < |xs|
    ensures FirstOfEach(xs[..i], key) <= FirstOfEach(xs[..i + 1], key)
  {
    var p := xs[..i + 1];
    assert p[..i] == xs[..i];
    var d := FirstOfEach(xs[..i], key);
    assert FirstOfEach(p, key) == d || FirstOfEach(p, key) == d + [xs[i]];
  }

  /** The items kept from a prefix open those kept from the whole: the kept items stay in
      the order they were met. */
  lemma {:induction false} FirstOfEachPrefix<T, K(!new)>(xs: seq<T>, key: T -> K, i: nat)
    requires i <= |xs|
    ensures FirstOfEach(xs[..i], key) <= FirstOfEach(xs, key)
    decreases |xs| - i
  {
    if i == |xs| {
      assert xs[..i] == xs;
    } else {
      FirstOfEachPrefix(xs, key, i + 1);
      FirstOfEachGrows(xs, key, i);
      PrefixSteps(FirstOfEach(xs[..i], key), FirstOfEach(xs[..i + 1], key), FirstOfEach(xs, key));
    }
  }

  lemma PrefixSteps<T>(a: seq<T>, b: seq<T>, c: seq<T>)
    requires a <= b && b <= c
    ensures a <= c
  {
    assert c[..|a|] == b[..|a|];
  }
}
