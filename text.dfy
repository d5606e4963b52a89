/** Strings as sequences of characters, and the handful of string
    operations the pipeline relies on: substring search, ASCII lower-casing,
    splitting on one separator character, and the scans a regular-expression
    engine performs when it matches a character class greedily. */
module Text {

  datatype Option<T> = None | Some(value: T)

  /** An error is carried as its message, as Go's `errors.New` does. */
  datatype Result<T> = Ok(value: T) | Err(msg: string)

  /** `sub` occurs in `s` starting at index `i`. */
  predicate OccursAt(s: string, sub: string, i: nat)
  {
    i + |sub| <= |s| && s[i..i + |sub|] == sub
  }

  /** The first index at or after `i` where `sub` occurs (Go `strings.Index`
      on `s[i:]`, shifted by `i`). */
  function IndexFrom(s: string, sub: string, i: nat): (r: Option<nat>)
    requires i <= |s|
    ensures r.Some? ==> i <= r.value <= |s| && OccursAt(s, sub, r.value)
    ensures r.Some? ==> forall j :: i <= j < r.value ==> !OccursAt(s, sub, j)
    ensures r.None? ==> forall j :: i <= j <= |s| ==> !OccursAt(s, sub, j)
    decreases |s| - i
  {
    if OccursAt(s, sub, i) then Some(i)
    else if i == |s| then None
    else IndexFrom(s, sub, i + 1)
  }

  /** A slice of a slice is a slice of the original. */
  lemma SliceOfSlice(s: string, a: nat, b: nat, c: nat, d: nat)
    requires a <= b <= |s| && c <= d <= b - a
    ensures s[a..b][c..d] == s[a + c..a + d]
  {
    assert forall q :: 0 <= q < d - c ==> s[a..b][c..d][q] == s[a + c + q];
  }

  /** Cutting a sequence at `n` after position `m`. */
  lemma SplitTail<T>(r: seq<T>, m: nat, n: nat)
    requires m <= n <= |r|
    ensures r[m..] == r[m..n] + r[n..] && r[..n][m..] == r[m..n]
  {
  }

  /** Go `strings.Contains`. */
  predicate Contains(s: string, sub: string)
  {
    IndexFrom(s, sub, 0).Some?
  }

  lemma ContainsAt(s: string, sub: string, i: nat)
    requires OccursAt(s, sub, i)
    ensures Contains(s, sub)
  {
  }

  /** ASCII lower-casing of one character. */
  function LowerChar(c: char): char
  {
    if 'A' <= c <= 'Z' then (c as int + 32) as char else c
  }

  /** Lower-casing of a string, character by character (ASCII letters only). */
  function ToLower(s: string): (r: string)
    ensures |r| == |s|
    ensures forall i :: 0 <= i < |s| ==> r[i] == LowerChar(s[i])
  {
    if s == [] then [] else [LowerChar(s[0])] + ToLower(s[1..])
  }

  /** The first index at or after `i` holding `c`, or `|s|` if there is none. */
  function FirstFrom(s: string, c: char, i: nat): (r: nat)
    requires i <= |s|
    ensures i <= r <= |s|
    ensures forall k :: i <= k < r ==> s[k] != c
    ensures r < |s| ==> s[r] == c
    decreases |s| - i
  {
    if i == |s| || s[i] == c then i else FirstFrom(s, c, i + 1)
  }

  /** The first index at or after `i` not holding `c`, or `|s|`: the end of
      a run of `c` that starts at `i`. */
  function RunEnd(s: string, c: char, i: nat): (r: nat)
    requires i <= |s|
    ensures i <= r <= |s|
    ensures forall k :: i <= k < r ==> s[k] == c
    ensures r < |s| ==> s[r] != c
    decreases |s| - i
  {
    if i == |s| || s[i] != c then i else RunEnd(s, c, i + 1)
  }

  /** The largest `j` with `lo <= j` and `j + 2 <= hi` such that `s[j]` and
      `s[j + 1]` are both `c`: where a greedy `[^x]*` followed by `cc`
      stops after backtracking. */
  function LastPair(s: string, c: char, lo: nat, hi: nat): (r: Option<nat>)
    requires hi <= |s|
    ensures r.Some? ==> lo <= r.value && r.value + 2 <= hi
    ensures r.Some? ==> s[r.value] == c && s[r.value + 1] == c
    ensures r.Some? ==> forall j :: r.value < j && j + 2 <= hi ==> !(s[j] == c && s[j + 1] == c)
    ensures r.None? ==> forall j :: lo <= j && j + 2 <= hi ==> !(s[j] == c && s[j + 1] == c)
    decreases hi
  {
    if hi < lo + 2 then None
    else if s[hi - 2] == c && s[hi - 1] == c then Some(hi - 2)
    else LastPair(s, c, lo, hi - 1)
  }

  /** The number of occurrences of `c` in `s`. */
  function Count(s: string, c: char): nat
  {
    if s == [] then 0 else (if s[0] == c then 1 else 0) + Count(s[1..], c)
  }

  lemma {:induction false} CountZero(s: string, c: char)
    ensures Count(s, c) == 0 <==> c !in s
  {
    if s != [] {
      CountZero(s[1..], c);
      assert c in s <==> s[0] == c || c in s[1..];
    }
  }

  lemma {:induction false} CountAppend(a: string, b: string, c: char)
    ensures Count(a + b, c) == Count(a, c) + Count(b, c)
  {
    if a == [] {
      assert a + b == b;
    } else {
      assert (a + b)[1..] == a[1..] + b;
      CountAppend(a[1..], b, c);
    }
  }

  /** Parts joined back with the separator between them (Go `strings.Join`). */
  function Join(parts: seq<string>, c: char): string
  {
    if parts == [] then []
    else if |parts| == 1 then parts[0]
    else parts[0] + [c] + Join(parts[1..], c)
  }

  /** Go `strings.Split(s, string(c))`: the fields between occurrences of
      `c`. */
  function Split(s: string, c: char): seq<string>
    decreases |s|
  {
    var i := FirstFrom(s, c, 0);
    if i == |s| then [s] else [s[..i]] + Split(s[i + 1..], c)
  }

  /** There is always one more field than there are separators. */
  lemma {:induction false} SplitCount(s: string, c: char)
    ensures |Split(s, c)| == Count(s, c) + 1
    decreases |s|
  {
    var i := FirstFrom(s, c, 0);
    assert c !in s[..i] by {
      forall k | 0 <= k < i ensures s[..i][k] != c { }
    }
    CountZero(s[..i], c);
    if i == |s| {
      assert s[..i] == s;
    } else {
      SplitCount(s[i + 1..], c);
      assert s == s[..i] + ([c] + s[i + 1..]);
      CountAppend(s[..i], [c] + s[i + 1..], c);
      CountAppend([c], s[i + 1..], c);
      assert Count([c], c) == 1 by { assert [c][1..] == []; }
    }
  }

  /** No field holds the separator. */
  lemma {:induction false} SplitFields(s: string, c: char)
    ensures forall k :: 0 <= k < |Split(s, c)| ==> c !in Split(s, c)[k]
    decreases |s|
  {
    var i := FirstFrom(s, c, 0);
    assert c !in s[..i] by {
      forall k | 0 <= k < i ensures s[..i][k] != c { }
    }
    if i < |s| {
      SplitFields(s[i + 1..], c);
      var r, rest := Split(s, c), Split(s[i + 1..], c);
      assert forall k :: 1 <= k < |r| ==> r[k] == rest[k - 1];
    } else {
      assert s[..i] == s;
    }
  }

  /** Joining the fields back with the separator gives the string. */
  lemma {:induction false} SplitJoin(s: string, c: char)
    ensures Join(Split(s, c), c) == s
    decreases |s|
  {
    var i := FirstFrom(s, c, 0);
    if i < |s| {
      SplitJoin(s[i + 1..], c);
      var rest := Split(s[i + 1..], c);
      SplitCount(s[i + 1..], c);
      assert ([s[..i]] + rest)[1..] == rest;
      assert s == s[..i] + [c] + s[i + 1..];
    }
  }

  /** Splitting a string that holds exactly one separator gives the text
      before it and the text after it. */
  lemma SplitAround(a: string, b: string, c: char)
    requires c !in a && c !in b
    ensures Split(a + [c] + b, c) == [a, b]
  {
    var s := a + [c] + b;
    assert s[|a|] == c;
    var i := FirstFrom(s, c, 0);
    assert i == |a|;
    assert s[..i] == a;
    assert s[i + 1..] == b;
    var rest := Split(b, c);
    assert FirstFrom(b, c, 0) == |b|;
  }
}
