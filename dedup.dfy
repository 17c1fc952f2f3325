/**
 * Scanning a list and keeping an element only when no kept element has the
 * same key: the shape of the builder's import loop, which keeps a package
 * path unless one with the same short name is already kept. The key
 * function is a parameter, so the facts below are proved once for any key.
 */
module Dedup {
  /** The keys of a list, in order. */
  function Keys<T>(key: T -> T, xs: seq<T>): (r: seq<T>)
    ensures |r| == |xs| && forall i :: 0 <= i < |xs| ==> r[i] == key(xs[i])
  {
    seq(|xs|, i requires 0 <= i < |xs| => key(xs[i]))
  }

  /** One turn: `x` is added unless its key is already a kept key. */
  function Keep<T(==)>(key: T -> T, kept: seq<T>, x: T): seq<T> {
    if key(x) in Keys(key, kept) then kept else kept + [x]
  }

  /** The list kept after the first `n` elements. */
  function Kept<T(==)>(key: T -> T, xs: seq<T>, n: nat): seq<T>
    requires n <= |xs|
  {
    if n == 0 then [] else Keep(key, Kept(key, xs, n - 1), xs[n - 1])
  }

  /** The indices, below `n`, of the elements that were not added. */
  function Dropped<T(==)>(key: T -> T, xs: seq<T>, n: nat): (r: seq<nat>)
    requires n <= |xs|
    ensures forall j :: 0 <= j < |r| ==> r[j] < n
  {
    if n == 0 then []
    else Dropped(key, xs, n - 1) + (if key(xs[n - 1]) in Keys(key, Kept(key, xs, n - 1)) then [n - 1] else [])
  }

  /** One turn only appends. */
  lemma KeepExtends<T>(key: T -> T, kept: seq<T>, x: T)
    ensures |kept| <= |Keep(key, kept, x)|
    ensures forall i :: 0 <= i < |kept| ==> Keep(key, kept, x)[i] == kept[i]
  {
  }

  /** After its turn an element's key is kept. */
  lemma KeepHasKey<T>(key: T -> T, kept: seq<T>, x: T)
    ensures key(x) in Keys(key, Keep(key, kept, x))
  {
    var next := Keep(key, kept, x);
    if key(x) !in Keys(key, kept) {
      assert Keys(key, next)[|kept|] == key(x);
    }
  }

  /** A key already kept is still kept after a turn. */
  lemma KeepKeepsKeys<T>(key: T -> T, kept: seq<T>, x: T, k: T)
    requires k in Keys(key, kept)
    ensures k in Keys(key, Keep(key, kept, x))
  {
    if key(x) !in Keys(key, kept) {
      var idx :| 0 <= idx < |kept| && Keys(key, kept)[idx] == k;
      assert Keys(key, kept + [x])[idx] == k;
    }
  }

  /** What is kept stays kept, in place. */
  lemma {:induction false} KeptGrows<T>(key: T -> T, xs: seq<T>, k: nat, n: nat)
    requires k <= n <= |xs|
    ensures |Kept(key, xs, k)| <= |Kept(key, xs, n)|
    ensures forall i :: 0 <= i < |Kept(key, xs, k)| ==> Kept(key, xs, n)[i] == Kept(key, xs, k)[i]
  {
    if k < n {
      KeptGrows(key, xs, k, n - 1);
      KeepExtends(key, Kept(key, xs, n - 1), xs[n - 1]);
    }
  }

  /** No two kept elements share a key. */
  lemma {:induction false} KeptDistinct<T>(key: T -> T, xs: seq<T>, n: nat)
    requires n <= |xs|
    ensures forall i, j :: 0 <= i < j < |Kept(key, xs, n)| ==> key(Kept(key, xs, n)[i]) != key(Kept(key, xs, n)[j])
  {
    if n > 0 {
      KeptDistinct(key, xs, n - 1);
      var kept := Kept(key, xs, n - 1);
      if key(xs[n - 1]) !in Keys(key, kept) {
        forall i | 0 <= i < |kept|
          ensures key(kept[i]) != key(xs[n - 1])
        {
          assert Keys(key, kept)[i] == key(kept[i]);
        }
      }
    }
  }

  /** Every element seen has its key among the kept keys: it was added, or one with its key was already there. */
  lemma {:induction false} KeptCovers<T>(key: T -> T, xs: seq<T>, n: nat)
    requires n <= |xs|
    ensures forall j :: 0 <= j < n ==> key(xs[j]) in Keys(key, Kept(key, xs, n))
  {
    forall j | 0 <= j < n
      ensures key(xs[j]) in Keys(key, Kept(key, xs, n))
    {
      KeptCoversOne(key, xs, n, j);
    }
  }

  /** The same for one element, by induction on the turns after it. */
  lemma {:induction false} KeptCoversOne<T>(key: T -> T, xs: seq<T>, n: nat, j: nat)
    requires j < n <= |xs|
    ensures key(xs[j]) in Keys(key, Kept(key, xs, n))
  {
    var prev := Kept(key, xs, n - 1);
    assert Kept(key, xs, n) == Keep(key, prev, xs[n - 1]);
    if j == n - 1 {
      KeepHasKey(key, Kept(key, xs, n - 1), xs[n - 1]);
    } else {
      KeptCoversOne(key, xs, n - 1, j);
      KeepKeepsKeys(key, Kept(key, xs, n - 1), xs[n - 1], key(xs[j]));
    }
  }

  /** Each element is kept or dropped, never both and never neither. */
  lemma {:induction false} KeptOrDropped<T>(key: T -> T, xs: seq<T>, n: nat)
    requires n <= |xs|
    ensures |Kept(key, xs, n)| + |Dropped(key, xs, n)| == n
  {
    if n > 0 {
      KeptOrDropped(key, xs, n - 1);
    }
  }
}
