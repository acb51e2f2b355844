/** tools/struct_scan.py `main`: functions that share a distinctive offset are
    put in one group, by union-find without ranks. */
module Groups {

  type Fn = nat

  // ----- chains of shared offsets -----

  /** `marks` holds, for each distinctive offset, the functions that use it. */
  predicate Shares(marks: seq<seq<Fn>>, a: Fn, b: Fn) {
    exists m :: 0 <= m < |marks| && a in marks[m] && b in marks[m]
  }

  predicate Chain(marks: seq<seq<Fn>>, p: seq<Fn>) {
    p != [] && forall i :: 0 <= i < |p| - 1 ==> Shares(marks, p[i], p[i + 1])
  }

  ghost predicate Connected(marks: seq<seq<Fn>>, a: Fn, b: Fn) {
    exists p :: Chain(marks, p) && p[0] == a && p[|p| - 1] == b
  }

  lemma ConnectedSelf(marks: seq<seq<Fn>>, a: Fn)
    ensures Connected(marks, a, a)
  {
    assert Chain(marks, [a]) && [a][0] == a;
  }

  lemma ConnectedStep(marks: seq<seq<Fn>>, a: Fn, b: Fn)
    requires Shares(marks, a, b)
    ensures Connected(marks, a, b)
  {
    assert Chain(marks, [a, b]) && [a, b][0] == a;
  }

  lemma ConnectedTrans(marks: seq<seq<Fn>>, a: Fn, b: Fn, c: Fn)
    requires Connected(marks, a, b) && Connected(marks, b, c)
    ensures Connected(marks, a, c)
  {
    var p :| Chain(marks, p) && p[0] == a && p[|p| - 1] == b;
    var q :| Chain(marks, q) && q[0] == b && q[|q| - 1] == c;
    var r := p + q[1..];
    forall i | 0 <= i < |r| - 1 ensures Shares(marks, r[i], r[i + 1]) {
      if i >= |p| - 1 {
        assert r[i] == q[i - (|p| - 1)] && r[i + 1] == q[i + 1 - (|p| - 1)];
      }
    }
    assert Chain(marks, r) && r[0] == a && r[|r| - 1] == c;
  }

  function Reversed(p: seq<Fn>): (r: seq<Fn>)
    ensures |r| == |p| && forall i :: 0 <= i < |p| ==> r[i] == p[|p| - 1 - i]
  {
    seq(|p|, i requires 0 <= i < |p| => p[|p| - 1 - i])
  }

  lemma ConnectedSym(marks: seq<seq<Fn>>, a: Fn, b: Fn)
    requires Connected(marks, a, b)
    ensures Connected(marks, b, a)
  {
    var p :| Chain(marks, p) && p[0] == a && p[|p| - 1] == b;
    var r := Reversed(p);
    forall i | 0 <= i < |r| - 1 ensures Shares(marks, r[i], r[i + 1]) {
      assert Shares(marks, p[|p| - 2 - i], p[|p| - 2 - i + 1]);
    }
    assert Chain(marks, r) && r[0] == b && r[|r| - 1] == a;
  }

  // ----- the parent map -----

  /** What holds at each function: its parent and root are known, the parent has
      the same root, and the depth falls on the way up. */
  predicate NodeOk(parent: map<Fn, Fn>, root: map<Fn, Fn>, depth: map<Fn, nat>, x: Fn) {
    x in parent && x in root && x in depth &&
    parent[x] in parent && parent[x] in root && parent[x] in depth && root[x] in parent &&
    parent[root[x]] == root[x] && root[parent[x]] == root[x] &&
    if parent[x] == x then root[x] == x else depth[parent[x]] < depth[x]
  }

  ghost predicate Forest(parent: map<Fn, Fn>, root: map<Fn, Fn>, depth: map<Fn, nat>) {
    parent.Keys == root.Keys == depth.Keys &&
    forall x {:trigger NodeOk(parent, root, depth, x)} :: x in parent ==> NodeOk(parent, root, depth, x)
  }

  /** The representative before a function was ever looked up is itself. */
  function RootOf(root: map<Fn, Fn>, x: Fn): Fn {
    if x in root then root[x] else x
  }

  lemma AddNode(parent: map<Fn, Fn>, root: map<Fn, Fn>, depth: map<Fn, nat>, x: Fn)
    requires Forest(parent, root, depth) && x !in parent
    ensures Forest(parent[x := x], root[x := x], depth[x := 0])
  {
    var p, r, d := parent[x := x], root[x := x], depth[x := 0];
    forall y | y in p ensures NodeOk(p, r, d, y) {
      if y != x {
        assert NodeOk(parent, root, depth, y);
      }
    }
  }

  function Hung(depth: map<Fn, nat>, root: map<Fn, Fn>, rf: Fn, extra: nat): map<Fn, nat>
    requires depth.Keys == root.Keys
  {
    map x | x in depth :: if root[x] == rf then depth[x] + extra else depth[x]
  }

  function Merged(root: map<Fn, Fn>, rf: Fn, rg: Fn): map<Fn, Fn> {
    map x | x in root :: if root[x] == rf then rg else root[x]
  }

  /** Hanging one root under another keeps the forest. */
  lemma HangRoot(parent: map<Fn, Fn>, root: map<Fn, Fn>, depth: map<Fn, nat>, rf: Fn, rg: Fn)
    requires Forest(parent, root, depth) && rf in parent && rg in parent && rf != rg
    requires root[rf] == rf && root[rg] == rg
    ensures Forest(parent[rf := rg], Merged(root, rf, rg), Hung(depth, root, rf, depth[rg] + 1))
  {
    var p, r, d := parent[rf := rg], Merged(root, rf, rg), Hung(depth, root, rf, depth[rg] + 1);
    assert NodeOk(parent, root, depth, rg) && NodeOk(parent, root, depth, rf);
    forall x | x in p ensures NodeOk(p, r, d, x) {
      assert NodeOk(parent, root, depth, x);
    }
  }

  class UnionFind {
    var parent: map<Fn, Fn>
    ghost var root: map<Fn, Fn>      // the representative of each function
    ghost var depth: map<Fn, nat>    // falls along parent links

    /** The parent map is a forest, and `root` its roots. */
    ghost predicate Valid()
      reads this
    {
      Forest(parent, root, depth)
    }

    constructor ()
      ensures Valid() && root == map[]
    {
      parent, root, depth := map[], map[], map[];
    }

    /** `find`: walks up to the root; a function not seen before is its own. */
    method Find(x: Fn) returns (r: Fn)
      requires Valid()
      modifies this
      ensures Valid() && x in root && r == root[x] && r in root && root[r] == r
      ensures root.Keys == old(root).Keys + {x} && forall y :: RootOf(root, y) == RootOf(old(root), y)
    {
      if x !in parent {
        AddNode(parent, root, depth, x);
        parent, root, depth := parent[x := x], root[x := x], depth[x := 0];
      }
      r := x;
      assert NodeOk(parent, root, depth, r);
      while parent[r] != r
        invariant NodeOk(parent, root, depth, r) && root[r] == root[x]
        decreases depth[r]
      {
        r := parent[r];
        assert NodeOk(parent, root, depth, r);
      }
    }

    /** `parent[find(f)] = find(g)`: the two groups become one. */
    method Link(f: Fn, g: Fn)
      requires Valid()
      modifies this
      ensures Valid()
      ensures root.Keys == old(root).Keys + {f, g}
      ensures forall x :: RootOf(root, x) ==
                if RootOf(old(root), x) == RootOf(old(root), f) then RootOf(old(root), g) else RootOf(old(root), x)
    {
      var rg := Find(g);
      ghost var known := root;
      var rf := Find(f);
      assert RootOf(root, rg) == RootOf(known, rg) == rg;
      Hang(rf, rg);
    }

    method Hang(rf: Fn, rg: Fn)
      requires Valid() && rf in root && rg in root && root[rf] == rf && root[rg] == rg
      modifies this
      ensures Valid() && root.Keys == old(root).Keys
      ensures forall x :: RootOf(root, x) == if RootOf(old(root), x) == rf then rg else RootOf(old(root), x)
    {
      if rf != rg {
        HangRoot(parent, root, depth, rf, rg);
        depth := Hung(depth, root, rf, depth[rg] + 1);
        parent := parent[rf := rg];
        root := Merged(root, rf, rg);
      } else {
        assert NodeOk(parent, root, depth, rg);
        assert parent[rf := rg] == parent;
        parent := parent[rf := rg];
      }
    }
  }

  /** Functions in one tree are connected. */
  ghost predicate Sound(marks: seq<seq<Fn>>, root: map<Fn, Fn>) {
    forall a, b :: RootOf(root, a) == RootOf(root, b) ==> Connected(marks, a, b)
  }

  /** The functions of each of the first `n` offsets are in one tree. */
  ghost predicate Complete(marks: seq<seq<Fn>>, n: nat, root: map<Fn, Fn>) {
    forall m, f, g :: 0 <= m < n && m < |marks| && f in marks[m] && g in marks[m] ==> RootOf(root, f) == RootOf(root, g)
  }

  lemma {:induction false} ChainInOneTree(marks: seq<seq<Fn>>, root: map<Fn, Fn>, p: seq<Fn>)
    requires Complete(marks, |marks|, root) && Chain(marks, p)
    ensures RootOf(root, p[0]) == RootOf(root, p[|p| - 1])
    decreases |p|
  {
    if |p| > 1 {
      var q := p[1..];
      assert Shares(marks, p[0], p[0 + 1]);
      forall i | 0 <= i < |q| - 1 ensures Shares(marks, q[i], q[i + 1]) {
        assert Shares(marks, p[i + 1], p[i + 1 + 1]);
      }
      ChainInOneTree(marks, root, q);
    }
  }

  /** What a link does to the roots. */
  ghost predicate LinkedRoots(before: map<Fn, Fn>, after: map<Fn, Fn>, f: Fn, g: Fn) {
    forall x :: RootOf(after, x) ==
      if RootOf(before, x) == RootOf(before, f) then RootOf(before, g) else RootOf(before, x)
  }

  /** Joining two functions that share an offset joins no strangers. */
  lemma SoundLink(marks: seq<seq<Fn>>, before: map<Fn, Fn>, after: map<Fn, Fn>, f: Fn, g: Fn)
    requires Sound(marks, before) && Shares(marks, f, g) && LinkedRoots(before, after, f, g)
    ensures Sound(marks, after)
  {
    ConnectedStep(marks, f, g);
    ConnectedSym(marks, f, g);
    forall a, b | RootOf(after, a) == RootOf(after, b) ensures Connected(marks, a, b) {
      var x, y, rf, rg := RootOf(before, a), RootOf(before, b), RootOf(before, f), RootOf(before, g);
      if x == y {
        assert Connected(marks, a, b);
      } else if x == rf {
        assert y == rg;
        ConnectedTrans(marks, a, f, g);
        ConnectedTrans(marks, a, g, b);
      } else {
        assert x == rg && y == rf;
        ConnectedTrans(marks, a, g, f);
        ConnectedTrans(marks, a, f, b);
      }
    }
  }

  /** The first `k` functions of `fs` share one root. */
  ghost predicate Joined(fs: seq<Fn>, k: nat, root: map<Fn, Fn>) {
    forall i :: 0 <= i < k && i < |fs| ==> RootOf(root, fs[i]) == RootOf(root, fs[0])
  }

  /** The inner loop on one offset: its functions end up in one tree. */
  method JoinOffset(u: UnionFind, fs: seq<Fn>, ghost marks: seq<seq<Fn>>, ghost n: nat)
    requires u.Valid() && n < |marks| && marks[n] == fs && |fs| > 0
    requires Sound(marks, u.root) && Complete(marks, n, u.root)
    modifies u
    ensures u.Valid() && Sound(marks, u.root) && Complete(marks, n + 1, u.root)
  {
    var k := 1;
    while k < |fs|
      invariant 1 <= k <= |fs|
      invariant u.Valid() && Sound(marks, u.root) && Complete(marks, n, u.root) && Joined(fs, k, u.root)
    {
      ghost var before := u.root;
      u.Link(fs[k], fs[0]);
      assert Shares(marks, fs[k], fs[0]);
      SoundLink(marks, before, u.root, fs[k], fs[0]);
      k := k + 1;
    }
  }

  /** The two loops of `main`: for all functions, having the same root and being
      connected by a chain of shared offsets is the same thing. */
  method GroupFunctions(marks: seq<seq<Fn>>) returns (u: UnionFind)
    requires forall m :: 0 <= m < |marks| ==> |marks[m]| > 0
    ensures fresh(u) && u.Valid()
    ensures forall a, b :: RootOf(u.root, a) == RootOf(u.root, b) <==> Connected(marks, a, b)
  {
    u := new UnionFind();
    forall a ensures Connected(marks, a, a) {
      ConnectedSelf(marks, a);
    }
    var n := 0;
    while n < |marks|
      invariant 0 <= n <= |marks|
      invariant fresh(u) && u.Valid() && Sound(marks, u.root) && Complete(marks, n, u.root)
    {
      JoinOffset(u, marks[n], marks, n);
      n := n + 1;
    }
    SameRootExactly(marks, u.root);
  }

  lemma SameRootExactly(marks: seq<seq<Fn>>, root: map<Fn, Fn>)
    requires Sound(marks, root) && Complete(marks, |marks|, root)
    ensures forall a, b :: RootOf(root, a) == RootOf(root, b) <==> Connected(marks, a, b)
  {
    forall a, b | Connected(marks, a, b) ensures RootOf(root, a) == RootOf(root, b) {
      var p :| Chain(marks, p) && p[0] == a && p[|p| - 1] == b;
      ChainInOneTree(marks, root, p);
    }
  }

  /** `groups[find(f)].add(f)` over the marked functions: each lands in the group
      of its root, so two marked functions share a group exactly when a chain of
      shared offsets connects them. */
  method CollectGroups(u: UnionFind, fs: seq<Fn>, ghost marks: seq<seq<Fn>>, groups: map<Fn, set<Fn>>)
    returns (groups': map<Fn, set<Fn>>)
    requires u.Valid()
    requires forall r, f :: r in groups && f in groups[r] ==> RootOf(u.root, f) == r
    modifies u
    ensures u.Valid() && forall x :: RootOf(u.root, x) == RootOf(old(u.root), x)
    ensures forall r, f :: r in groups' && f in groups'[r] ==> RootOf(u.root, f) == r
    ensures forall r :: r in groups ==> r in groups' && groups[r] <= groups'[r]
    ensures forall f <- fs :: RootOf(u.root, f) in groups' && f in groups'[RootOf(u.root, f)]
  {
    groups' := groups;
    var k := 0;
    while k < |fs|
      invariant 0 <= k <= |fs|
      invariant u.Valid() && forall x :: RootOf(u.root, x) == RootOf(old(u.root), x)
      invariant forall r, f :: r in groups' && f in groups'[r] ==> RootOf(u.root, f) == r
      invariant forall r :: r in groups ==> r in groups' && groups[r] <= groups'[r]
      invariant forall i :: 0 <= i < k ==> RootOf(u.root, fs[i]) in groups' && fs[i] in groups'[RootOf(u.root, fs[i])]
    {
      var r := u.Find(fs[k]);
      groups' := groups'[r := (if r in groups' then groups'[r] else {}) + {fs[k]}];
      k := k + 1;
    }
  }

  /** Some group has both. */
  ghost predicate Together(groups: map<Fn, set<Fn>>, a: Fn, b: Fn) {
    exists r :: r in groups && a in groups[r] && b in groups[r]
  }

  ghost predicate Marked(marks: seq<seq<Fn>>, n: nat, a: Fn) { exists k :: 0 <= k < n && k < |marks| && a in marks[k] }

  /** The three loops of `main`: two marked functions are in one group exactly when
      a chain of shared offsets connects them. */
  method Group(marks: seq<seq<Fn>>) returns (groups: map<Fn, set<Fn>>)
    requires forall m :: 0 <= m < |marks| ==> |marks[m]| > 0
    ensures forall a, b :: Marked(marks, |marks|, a) && Marked(marks, |marks|, b) ==>
              (Together(groups, a, b) <==> Connected(marks, a, b))
  {
    var u := GroupFunctions(marks);
    groups := map[];
    var n := 0;
    while n < |marks|
      invariant 0 <= n <= |marks| && fresh(u) && u.Valid()
      invariant forall a, b :: RootOf(u.root, a) == RootOf(u.root, b) <==> Connected(marks, a, b)
      invariant forall r, f :: r in groups && f in groups[r] ==> RootOf(u.root, f) == r
      invariant forall a :: Marked(marks, n, a) ==> RootOf(u.root, a) in groups && a in groups[RootOf(u.root, a)]
    {
      groups := CollectGroups(u, marks[n], marks, groups);
      n := n + 1;
    }
    GroupsAreComponents(marks, u.root, groups);
  }

  lemma GroupsAreComponents(marks: seq<seq<Fn>>, root: map<Fn, Fn>, groups: map<Fn, set<Fn>>)
    requires forall a, b :: RootOf(root, a) == RootOf(root, b) <==> Connected(marks, a, b)
    requires forall r, f :: r in groups && f in groups[r] ==> RootOf(root, f) == r
    requires forall a :: Marked(marks, |marks|, a) ==> RootOf(root, a) in groups && a in groups[RootOf(root, a)]
    ensures forall a, b :: Marked(marks, |marks|, a) && Marked(marks, |marks|, b) ==>
              (Together(groups, a, b) <==> Connected(marks, a, b))
  {
  }
}
