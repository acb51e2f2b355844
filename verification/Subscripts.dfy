/** Array subscripts in tools/apply_struct.py: the mixed-radix `index` of `paths`. */
module Subscripts {

  function Count(dims: seq<nat>): nat {
    if dims == [] then 1 else Count(dims[..|dims| - 1]) * dims[|dims| - 1]
  }

  predicate Positive(dims: seq<nat>) { forall k :: 0 <= k < |dims| ==> dims[k] > 0 }

  /** The subscripts of element `i`, the last one varying fastest. */
  function Digits(dims: seq<nat>, i: nat): seq<nat>
    requires Positive(dims)
  {
    if dims == [] then []
    else
      var d := dims[|dims| - 1];
      Digits(dims[..|dims| - 1], i / d) + [i % d]
  }

  ghost predicate InBounds(dims: seq<nat>, t: seq<nat>) {
    |t| == |dims| && forall k :: 0 <= k < |t| ==> t[k] < dims[k]
  }

  function Rank(dims: seq<nat>, t: seq<nat>): nat
    requires |t| == |dims|
  {
    if dims == [] then 0
    else Rank(dims[..|dims| - 1], t[..|t| - 1]) * dims[|dims| - 1] + t[|t| - 1]
  }

  lemma {:induction false} NoZero(dims: seq<nat>)
    requires Count(dims) > 0
    ensures Positive(dims)
  {
    if dims != [] {
      assert dims[|dims| - 1] > 0;
      NoZero(dims[..|dims| - 1]);
    }
  }

  lemma MulOrder(a: nat, b: nat, d: nat)
    ensures a <= b ==> a * d <= b * d
  {
  }

  lemma QuotientBelow(i: nat, c: nat, d: nat)
    requires d > 0 && i < c * d
    ensures i / d < c
  {
    MulOrder(c, i / d, d);
  }

  lemma {:induction false} DigitsRank(dims: seq<nat>, i: nat)
    requires Positive(dims)
    requires i < Count(dims)
    ensures InBounds(dims, Digits(dims, i)) && Rank(dims, Digits(dims, i)) == i
  {
    if dims != [] {
      var init, d := dims[..|dims| - 1], dims[|dims| - 1];
      QuotientBelow(i, Count(init), d);
      DigitsRank(init, i / d);
      var t := Digits(dims, i);
      assert t[..|t| - 1] == Digits(init, i / d);
    }
  }

  lemma {:induction false} SplitBack(r: nat, d: nat, last: nat)
    requires last < d
    ensures (r * d + last) / d == r && (r * d + last) % d == last
  {
    var n := r * d + last;
    var q, m := n / d, n % d;
    assert n == q * d + m;
    MulOrder(q + 1, r, d);
    MulOrder(r + 1, q, d);
  }

  lemma {:induction false} RankFits(r: nat, c: nat, d: nat, last: nat)
    requires r < c && last < d
    ensures r * d + last < c * d
  {
    MulOrder(r + 1, c, d);
  }

  lemma {:induction false} RankDigits(dims: seq<nat>, t: seq<nat>)
    requires Positive(dims)
    requires InBounds(dims, t)
    ensures Rank(dims, t) < Count(dims) && Digits(dims, Rank(dims, t)) == t
  {
    if dims != [] {
      var n := |dims| - 1;
      RankDigits(dims[..n], t[..n]);
      var r := Rank(dims[..n], t[..n]);
      RankFits(r, Count(dims[..n]), dims[n], t[n]);
      SplitBack(r, dims[n], t[n]);
      assert t == t[..n] + [t[n]];
    }
  }

  ghost predicate Before(a: seq<nat>, b: seq<nat>, k: nat) {
    k < |a| && k < |b| && a[k] < b[k] && forall j :: 0 <= j < k ==> a[j] == b[j]
  }

  /** Row-major: a smaller element number has lexicographically smaller subscripts. */
  lemma {:induction false} RowMajor(dims: seq<nat>, i: nat, j: nat) returns (k: nat)
    requires Positive(dims)
    requires i < j < Count(dims)
    ensures Before(Digits(dims, i), Digits(dims, j), k)
  {
    var n := |dims| - 1;
    var init, d := dims[..n], dims[n];
    QuotientBelow(j, Count(init), d);
    QuotientOrder(i, j, d);
    DigitsLength(init, i / d);
    DigitsLength(init, j / d);
    if i / d < j / d {
      k := RowMajor(init, i / d, j / d);
    } else {
      k := n;
    }
  }

  lemma {:induction false} QuotientOrder(i: nat, j: nat, d: nat)
    requires d > 0 && i < j
    ensures i / d < j / d || (i / d == j / d && i % d < j % d)
  {
    MulOrder(j / d + 1, i / d, d);
  }

  lemma {:induction false} DigitsLength(dims: seq<nat>, i: nat)
    requires Positive(dims)
    ensures |Digits(dims, i)| == |dims|
  {
    if dims != [] {
      DigitsLength(dims[..|dims| - 1], i / dims[|dims| - 1]);
    }
  }

  function Decimal(n: nat): string {
    if n < 10 then ["0123456789"[n]] else Decimal(n / 10) + Decimal(n % 10)
  }

  function Text(t: seq<nat>): string {
    if t == [] then "" else "[" + Decimal(t[0]) + "]" + Text(t[1..])
  }

  /** `index`: the subscripts are found last first. */
  method Index(dims: seq<nat>, i: nat) returns (text: string)
    requires Positive(dims)
    ensures text == Text(Digits(dims, i))
  {
    var idx: seq<nat>, rest, n := [], i, |dims|;
    assert dims[..n] == dims;
    while n > 0
      invariant 0 <= n <= |dims|
      invariant Positive(dims[..n])
      invariant Digits(dims[..n], rest) + idx == Digits(dims, i)
    {
      DigitsStep(dims, n, rest, idx);
      idx, rest, n := [rest % dims[n - 1]] + idx, rest / dims[n - 1], n - 1;
    }
    assert idx == Digits(dims, i);
    text := "";
    while n < |idx|
      invariant n <= |idx|
      invariant text + Text(idx[n..]) == Text(idx)
    {
      TextStep(idx, n, text);
      text, n := text + ("[" + Decimal(idx[n]) + "]"), n + 1;
    }
  }

  lemma DigitsStep(dims: seq<nat>, n: nat, rest: nat, idx: seq<nat>)
    requires Positive(dims) && 0 < n <= |dims|
    ensures Positive(dims[..n]) && Positive(dims[..n - 1])
    ensures Digits(dims[..n], rest) + idx
         == Digits(dims[..n - 1], rest / dims[n - 1]) + ([rest % dims[n - 1]] + idx)
  {
    assert dims[..n][..n - 1] == dims[..n - 1];
  }

  lemma TextStep(idx: seq<nat>, n: nat, text: string)
    requires n < |idx|
    ensures text + Text(idx[n..]) == text + ("[" + Decimal(idx[n]) + "]") + Text(idx[n + 1..])
  {
    assert idx[n..][1..] == idx[n + 1..];
  }
}
