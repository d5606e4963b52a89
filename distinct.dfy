/** Order-preserving removal of duplicates: an element is kept when no
    earlier element had the same key. The legacy template extractors keep
    the first copy of each template text; the registry import keeps the
    first record of each language description. */
module Distinct {

  /** The elements of `xs` whose key is neither in `seen` nor the key of an
      earlier element, in their order in `xs`. */
  function DistinctBy<T, K>(xs: seq<T>, key: T -> K, seen: set<K>): seq<T>
    decreases |xs|
  {
    if xs == [] then []
    else if key(xs[0]) in seen then DistinctBy(xs[1..], key, seen)
    else [xs[0]] + DistinctBy(xs[1..], key, seen + {key(xs[0])})
  }

  ghost function KeySet<T, K>(xs: seq<T>, key: T -> K): set<K>
  {
    set x | x in xs :: key(x)
  }

  /** The index of the first element of `xs` with key `kv`, or `|xs|`. */
  ghost function FirstIndex<T, K>(xs: seq<T>, key: T -> K, kv: K): (r: nat)
    ensures r <= |xs|
    ensures r < |xs| ==> key(xs[r]) == kv
    ensures forall j :: 0 <= j < r ==> key(xs[j]) != kv
  {
    if xs == [] then 0
    else if key(xs[0]) == kv then 0
    else 1 + FirstIndex(xs[1..], key, kv)
  }

  /** No two kept elements share a key, and no kept key was already seen. */
  lemma {:induction false} DistinctByKeys<T, K>(xs: seq<T>, key: T -> K, seen: set<K>, r: seq<T>)
    requires r == DistinctBy(xs, key, seen)
    ensures forall i :: 0 <= i < |r| ==> key(r[i]) !in seen
    ensures forall i, j :: 0 <= i < j < |r| ==> key(r[i]) != key(r[j])
    decreases |xs|
  {
    if xs != [] {
      var x := xs[0];
      if key(x) in seen {
        DistinctByKeys(xs[1..], key, seen, r);
      } else {
        var rest := DistinctBy(xs[1..], key, seen + {key(x)});
        DistinctByKeys(xs[1..], key, seen + {key(x)}, rest);
        assert r == [x] + rest;
        assert forall i :: 1 <= i < |r| ==> r[i] == rest[i - 1];
      }
    }
  }

  /** Every key of `xs` that was not already seen is kept once: the kept
      keys are exactly the keys of `xs` less `seen`. */
  lemma {:induction false} DistinctByComplete<T, K>(xs: seq<T>, key: T -> K, seen: set<K>, r: seq<T>)
    requires r == DistinctBy(xs, key, seen)
    ensures KeySet(r, key) == KeySet(xs, key) - seen
    decreases |xs|
  {
    if xs != [] {
      var x := xs[0];
      assert xs == [x] + xs[1..];
      assert KeySet(xs, key) == {key(x)} + KeySet(xs[1..], key);
      if key(x) in seen {
        DistinctByComplete(xs[1..], key, seen, r);
      } else {
        var rest := DistinctBy(xs[1..], key, seen + {key(x)});
        DistinctByComplete(xs[1..], key, seen + {key(x)}, rest);
        assert r == [x] + rest;
        assert KeySet([x] + rest, key) == {key(x)} + KeySet(rest, key);
      }
    }
  }

  /** For an element whose key differs from the head's, the first index
      in `xs` is one past the first index in the tail. */
  lemma FirstIndexTail<T, K>(xs: seq<T>, key: T -> K, kv: K)
    requires xs != [] && key(xs[0]) != kv
    ensures FirstIndex(xs, key, kv) == 1 + FirstIndex(xs[1..], key, kv)
  {
  }

  /** Each kept element is the first element of `xs` with its key. */
  lemma {:induction false} DistinctByFirst<T, K>(xs: seq<T>, key: T -> K, seen: set<K>, r: seq<T>)
    requires r == DistinctBy(xs, key, seen)
    ensures forall i :: 0 <= i < |r| ==>
              FirstIndex(xs, key, key(r[i])) < |xs| && r[i] == xs[FirstIndex(xs, key, key(r[i]))]
    decreases |xs|
  {
    if xs != [] {
      var x := xs[0];
      var seen' := if key(x) in seen then seen else seen + {key(x)};
      var rest := DistinctBy(xs[1..], key, seen');
      assert r == rest || r == [x] + rest;
      DistinctByFirst(xs[1..], key, seen', rest);
      DistinctByKeys(xs[1..], key, seen', rest);
      forall i | 0 <= i < |r|
        ensures FirstIndex(xs, key, key(r[i])) < |xs| && r[i] == xs[FirstIndex(xs, key, key(r[i]))]
      {
        if r == rest {
          FirstIndexTail(xs, key, key(rest[i]));
        } else if i > 0 {
          assert r[i] == rest[i - 1];
          FirstIndexTail(xs, key, key(rest[i - 1]));
        }
      }
    }
  }

  /** The kept elements are in the order of their first occurrences. */
  lemma {:induction false} DistinctByOrder<T, K>(xs: seq<T>, key: T -> K, seen: set<K>, r: seq<T>)
    requires r == DistinctBy(xs, key, seen)
    ensures forall i, j :: 0 <= i < j < |r| ==>
              FirstIndex(xs, key, key(r[i])) < FirstIndex(xs, key, key(r[j]))
    decreases |xs|
  {
    if xs != [] {
      var x := xs[0];
      var seen' := if key(x) in seen then seen else seen + {key(x)};
      var rest := DistinctBy(xs[1..], key, seen');
      assert r == rest || r == [x] + rest;
      DistinctByOrder(xs[1..], key, seen', rest);
      DistinctByKeys(xs[1..], key, seen', rest);
      forall i, j | 0 <= i < j < |r|
        ensures FirstIndex(xs, key, key(r[i])) < FirstIndex(xs, key, key(r[j]))
      {
        if r == rest {
          FirstIndexTail(xs, key, key(rest[i]));
          FirstIndexTail(xs, key, key(rest[j]));
        } else {
          assert r[j] == rest[j - 1];
          FirstIndexTail(xs, key, key(rest[j - 1]));
          if i > 0 {
            assert r[i] == rest[i - 1];
            FirstIndexTail(xs, key, key(rest[i - 1]));
          }
        }
      }
    }
  }

  /** The loop of the template extractors: a `haveSeen` map records every
      text appended so far, and a text is appended only when unseen. */
  function Same(t: string): string
  {
    t
  }

  method Dedup(xs: seq<string>) returns (r: seq<string>)
    ensures r == DistinctBy(xs, Same, {})
  {
    var id := Same;
    var haveSeen: map<string, bool> := map[];
    r := [];
    var i := 0;
    assert xs[0..] == xs;
    assert haveSeen.Keys == {};
    while i < |xs|
      invariant i <= |xs|
      invariant forall t :: t in haveSeen ==> haveSeen[t]
      invariant r + DistinctBy(xs[i..], id, haveSeen.Keys) == DistinctBy(xs, id, {})
    {
      assert xs[i..] == [xs[i]] + xs[i + 1..];
      var t := xs[i];
      if !(t in haveSeen && haveSeen[t]) {
        assert t !in haveSeen.Keys;
        ghost var before := haveSeen.Keys;
        assert DistinctBy(xs[i..], id, before) == [t] + DistinctBy(xs[i + 1..], id, before + {t});
        r := r + [t];
        haveSeen := haveSeen[t := true];
        assert haveSeen.Keys == before + {t};
      } else {
        assert DistinctBy(xs[i..], id, haveSeen.Keys) == DistinctBy(xs[i + 1..], id, haveSeen.Keys);
      }
      i := i + 1;
    }
  }
}
