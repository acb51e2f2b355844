/** tools/import_ref.py `prune`: what one function needs of a C file, transitively
    and in the original order. */
module Prune {

  type Name = string

  /** A top-level item, as the names it declares and the names it uses. */
  datatype Item = Item(declares: set<Name>, uses: set<Name>)

  // ----- what is kept -----

  ghost predicate Wanted(items: seq<Item>, keep: Name, c: set<nat>, n: Name) {
    n == keep || exists k :: k in c && k < |items| && n in items[k].uses
  }

  ghost predicate Asked(items: seq<Item>, keep: Name, c: set<nat>, k: nat) {
    k < |items| && exists n :: n in items[k].declares && Wanted(items, keep, c, n)
  }

  /** Nothing outside `c` declares a name that `keep` or an item of `c` wants. */
  ghost predicate Closed(items: seq<Item>, keep: Name, c: set<nat>) {
    forall k: nat :: Asked(items, keep, c, k) ==> k in c
  }

  ghost predicate Least(items: seq<Item>, keep: Name, c: set<nat>) {
    (forall k <- c :: k < |items|) && Closed(items, keep, c) &&
    forall d: set<nat> :: Closed(items, keep, d) ==> c <= d
  }

  lemma AskedGrows(items: seq<Item>, keep: Name, c: set<nat>, d: set<nat>, k: nat)
    requires Asked(items, keep, c, k) && c <= d
    ensures Asked(items, keep, d, k)
  {
    var n :| n in items[k].declares && Wanted(items, keep, c, n);
    assert Wanted(items, keep, d, n);
  }

  /** The chosen positions below `n`, in order. */
  function Positions(c: set<nat>, n: nat): (p: seq<nat>)
    ensures forall i :: 0 <= i < |p| ==> p[i] in c && p[i] < n
  {
    if n == 0 then []
    else if n - 1 in c then Positions(c, n - 1) + [n - 1]
    else Positions(c, n - 1)
  }

  lemma {:induction false} PositionsExactly(c: set<nat>, n: nat)
    ensures var p := Positions(c, n);
            (forall i, j :: 0 <= i < j < |p| ==> p[i] < p[j]) && forall k: nat :: k in c && k < n ==> k in p
  {
    if n > 0 {
      PositionsExactly(c, n - 1);
      var p := Positions(c, n - 1);
      assert n - 1 in c ==> forall k: nat :: k in p || k == n - 1 ==> k in p + [n - 1];
    }
  }

  function Select(items: seq<Item>, p: seq<nat>): (r: seq<Item>)
    requires forall i :: 0 <= i < |p| ==> p[i] < |items|
    ensures |r| == |p| && forall i :: 0 <= i < |p| ==> r[i] == items[p[i]]
  {
    seq(|p|, i requires 0 <= i < |p| => items[p[i]])
  }

  // ----- the fixpoint loop -----

  ghost predicate State(items: seq<Item>, keep: Name, chosen: set<nat>, want: set<Name>) {
    (forall k <- chosen :: k < |items|) &&
    (forall n :: n in want <==> Wanted(items, keep, chosen, n)) &&
    forall d: set<nat> :: Closed(items, keep, d) ==> chosen <= d
  }

  lemma TakeOne(items: seq<Item>, keep: Name, chosen: set<nat>, want: set<Name>, k: nat)
    requires State(items, keep, chosen, want) && k < |items|
    requires items[k].declares * want != {}
    ensures State(items, keep, chosen + {k}, want + items[k].uses)
  {
    var n :| n in items[k].declares * want;
    assert Asked(items, keep, chosen, k);
    forall d: set<nat> | Closed(items, keep, d) ensures chosen + {k} <= d {
      AskedGrows(items, keep, chosen, d, k);
    }
    forall m ensures m in want + items[k].uses <==> Wanted(items, keep, chosen + {k}, m) {
      if m in items[k].uses {
        assert k in chosen + {k};
      } else {
        WantedBefore(items, keep, chosen, k, m);
      }
    }
  }

  lemma WantedBefore(items: seq<Item>, keep: Name, chosen: set<nat>, k: nat, m: Name)
    requires k < |items| && m !in items[k].uses
    ensures Wanted(items, keep, chosen + {k}, m) <==> Wanted(items, keep, chosen, m)
  {
  }

  /** The scan over the items, once. */
  method Scan(items: seq<Item>, chosen0: set<nat>, want0: set<Name>, ghost keep: Name)
      returns (chosen: set<nat>, want: set<Name>, changed: bool)
    requires State(items, keep, chosen0, want0)
    ensures State(items, keep, chosen, want) && chosen0 <= chosen
    ensures if changed then chosen0 < chosen else chosen == chosen0 && Closed(items, keep, chosen)
  {
    chosen, want, changed := chosen0, want0, false;
    var k := 0;
    while k < |items|
      invariant 0 <= k <= |items|
      invariant State(items, keep, chosen, want) && chosen0 <= chosen
      invariant changed ==> chosen0 < chosen
      invariant !changed ==> chosen == chosen0 && want == want0
      invariant !changed ==> forall j: nat :: j < k ==> j in chosen || items[j].declares * want == {}
    {
      if k !in chosen && items[k].declares * want != {} {
        TakeOne(items, keep, chosen, want, k);
        chosen, want, changed := chosen + {k}, want + items[k].uses, true;
      }
      k := k + 1;
    }
    if !changed {
      NothingAsked(items, keep, chosen, want);
    }
  }

  lemma NothingAsked(items: seq<Item>, keep: Name, chosen: set<nat>, want: set<Name>)
    requires State(items, keep, chosen, want)
    requires forall j: nat :: j < |items| ==> j in chosen || items[j].declares * want == {}
    ensures Closed(items, keep, chosen)
  {
    forall k: nat | Asked(items, keep, chosen, k) ensures k in chosen {
      var n :| n in items[k].declares && Wanted(items, keep, chosen, n);
      assert n in items[k].declares * want;
    }
  }

  ghost function UpTo(n: nat): (s: set<nat>)
    ensures forall k: nat :: k in s <==> k < n
  {
    if n == 0 then {} else UpTo(n - 1) + {n - 1}
  }

  /** The kept items, in the original order. */
  method Emit(items: seq<Item>, chosen: set<nat>) returns (out: seq<Item>)
    ensures out == Select(items, Positions(chosen, |items|))
  {
    out := [];
    var k := 0;
    while k < |items|
      invariant 0 <= k <= |items|
      invariant out == Select(items, Positions(chosen, k))
    {
      if k in chosen {
        SelectLast(items, Positions(chosen, k), k);
        assert Positions(chosen, k + 1) == Positions(chosen, k) + [k];
        out := out + [items[k]];
      } else {
        assert Positions(chosen, k + 1) == Positions(chosen, k);
      }
      k := k + 1;
    }
  }

  lemma SelectLast(items: seq<Item>, p: seq<nat>, k: nat)
    requires k < |items| && forall i :: 0 <= i < |p| ==> p[i] < |items|
    ensures Select(items, p + [k]) == Select(items, p) + [items[k]]
  {
  }

  /** `out` is what stays of `items`: a least closed set of them, in order. */
  ghost predicate Pruned(items: seq<Item>, keep: Name, out: seq<Item>) {
    exists c: set<nat> :: Least(items, keep, c) && out == Select(items, Positions(c, |items|))
  }

  method Run(items: seq<Item>, keep: Name) returns (out: seq<Item>)
    ensures Pruned(items, keep, out)
  {
    var want, chosen, changed := {keep}, {}, true;
    while changed
      invariant State(items, keep, chosen, want)
      invariant !changed ==> Closed(items, keep, chosen)
      decreases UpTo(|items|) - chosen, changed
    {
      chosen, want, changed := Scan(items, chosen, want, keep);
    }
    out := Emit(items, chosen);
    assert Least(items, keep, chosen);
  }

  // ----- what this means -----

  /** The result is determined by the items and the name to keep. */
  lemma PrunedUnique(items: seq<Item>, keep: Name, out: seq<Item>, out': seq<Item>)
    requires Pruned(items, keep, out) && Pruned(items, keep, out')
    ensures out == out'
  {
    var c: set<nat> :| Least(items, keep, c) && out == Select(items, Positions(c, |items|));
    var d: set<nat> :| Least(items, keep, d) && out' == Select(items, Positions(d, |items|));
    assert c <= d && d <= c;
    assert c == d;
    assert Positions(c, |items|) == Positions(d, |items|);
  }

  /** A kept item is there for a reason: it declares a name that `keep` or another
      kept item wants. */
  lemma KeptForAReason(items: seq<Item>, keep: Name, c: set<nat>, k: nat)
    requires Least(items, keep, c) && k in c
    ensures Asked(items, keep, c, k)
  {
    if !Asked(items, keep, c, k) {
      var d := c - {k};
      forall j: nat | Asked(items, keep, d, j) ensures j in d {
        AskedGrows(items, keep, d, c, j);
      }
      assert Closed(items, keep, d);
    }
  }

  /** `p` lists positions of `items`, none twice. */
  ghost predicate Distinct(items: seq<Item>, p: seq<nat>) {
    (forall i :: 0 <= i < |p| ==> p[i] < |items|) && forall i, j :: 0 <= i < j < |p| ==> p[i] != p[j]
  }

  /** The positions of `p` that point into `c`. */
  ghost function Pull(p: seq<nat>, c: set<nat>): set<nat> { set i: nat | i < |p| && p[i] in c }

  ghost function Push(p: seq<nat>, c: set<nat>): set<nat> { set i: nat | i < |p| && i in c :: p[i] }

  lemma WantedThrough(items: seq<Item>, keep: Name, p: seq<nat>, c: set<nat>, n: Name)
    requires Distinct(items, p)
    ensures Wanted(Select(items, p), keep, c, n) <==> Wanted(items, keep, Push(p, c), n)
  {
    var some := Select(items, p);
    if i :| i in c && i < |some| && n in some[i].uses {
      assert p[i] in Push(p, c);
    }
    if k :| k in Push(p, c) && k < |items| && n in items[k].uses {
      var i: nat :| i < |p| && i in c && p[i] == k;
      assert n in some[i].uses;
    }
  }

  lemma AskedThrough(items: seq<Item>, keep: Name, p: seq<nat>, c: set<nat>, i: nat)
    requires Distinct(items, p) && i < |p|
    ensures Asked(Select(items, p), keep, c, i) <==> Asked(items, keep, Push(p, c), p[i])
  {
    forall n ensures Wanted(Select(items, p), keep, c, n) <==> Wanted(items, keep, Push(p, c), n) {
      WantedThrough(items, keep, p, c, n);
    }
  }

  /** Whatever the order of the items, the same ones are kept. */
  lemma OrderFree(items: seq<Item>, keep: Name, p: seq<nat>, c: set<nat>)
    requires Distinct(items, p) && forall k: nat :: k < |items| ==> k in p
    requires Least(Select(items, p), keep, c)
    ensures Least(items, keep, Push(p, c))
  {
    forall k: nat | Asked(items, keep, Push(p, c), k) ensures k in Push(p, c) {
      assert k in p;
      var i: nat :| i < |p| && p[i] == k;
      AskedThrough(items, keep, p, c, i);
    }
    forall d: set<nat> | Closed(items, keep, d) ensures Push(p, c) <= d {
      PullClosed(items, keep, p, d);
    }
  }

  /** The positions selected out of a closed set are closed. */
  lemma PullClosed(items: seq<Item>, keep: Name, p: seq<nat>, d: set<nat>)
    requires Distinct(items, p) && Closed(items, keep, d)
    ensures Closed(Select(items, p), keep, Pull(p, d))
  {
    forall i: nat | Asked(Select(items, p), keep, Pull(p, d), i) ensures i in Pull(p, d) {
      AskedThrough(items, keep, p, Pull(p, d), i);
      assert Push(p, Pull(p, d)) <= d;
      AskedGrows(items, keep, Push(p, Pull(p, d)), d, p[i]);
    }
  }

  /** Pruning what has been pruned keeps all of it. */
  lemma PruneTwice(items: seq<Item>, keep: Name, out: seq<Item>, again: seq<Item>)
    requires Pruned(items, keep, out) && Pruned(out, keep, again)
    ensures again == out
  {
    var c: set<nat> :| Least(items, keep, c) && out == Select(items, Positions(c, |items|));
    var d: set<nat> :| Least(out, keep, d) && again == Select(out, Positions(d, |out|));
    AllKept(items, keep, c, d);
    PositionsAll(d, |out|);
  }

  /** Every item kept is asked for by the kept ones alone. */
  lemma AllKept(items: seq<Item>, keep: Name, c: set<nat>, again: set<nat>)
    requires Least(items, keep, c)
    requires Least(Select(items, Positions(c, |items|)), keep, again)
    ensures forall i: nat :: i < |Positions(c, |items|)| ==> i in again
  {
    var p := Positions(c, |items|);
    var d := Push(p, again);
    PositionsExactly(c, |items|);
    forall k: nat | Asked(items, keep, d, k) ensures k in d {
      assert d <= c;
      AskedGrows(items, keep, d, c, k);
      assert k in p;
      var i: nat :| i < |p| && p[i] == k;
      AskedThrough(items, keep, p, again, i);
    }
    assert Closed(items, keep, d);
    forall i: nat | i < |p| ensures i in again {
      assert p[i] in d;
    }
  }

  lemma {:induction false} PositionsAll(c: set<nat>, n: nat)
    requires forall i: nat :: i < n ==> i in c
    ensures |Positions(c, n)| == n && forall i :: 0 <= i < n ==> Positions(c, n)[i] == i
  {
    if n > 0 {
      PositionsAll(c, n - 1);
      assert Positions(c, n) == Positions(c, n - 1) + [n - 1];
    }
  }
}
