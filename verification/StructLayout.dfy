/** Flattening a table of C structs to the primitive slots of one of them, twice:
    tools/struct_scan.py `layout` (offset to access kind) and
    tools/apply_struct.py `paths` (offset to access path and C type). */
module StructLayout {
  import opened Prelude
  import opened Subscripts

  datatype Kind = F | D | W | H | B

  datatype Field = Field(off: nat, typ: string, ptr: bool, dims: seq<nat>)

  type Table = map<string, seq<Field>>

  datatype Slot = Slot(path: string, typ: string)

  /** Field names by struct and offset. */
  type Names = (string, nat) -> string

  const MATRIX := "CMtxF"
  const PTR := "ptr"

  function Prim(typ: string): Option<(Kind, nat)> {
    if typ == "f32" then Some((F, 4))
    else if typ == "f64" then Some((D, 8))
    else if typ == "s32" || typ == "u32" then Some((W, 4))
    else if typ == "s16" || typ == "u16" then Some((H, 2))
    else if typ == "s8" || typ == "u8" then Some((B, 1))
    else None
  }

  /** The access kind of a slot's C type. */
  function KindOf(s: Slot): Kind { if Prim(s.typ).Some? then Prim(s.typ).value.0 else W }

  predicate Nested(t: Table, f: Field) { !f.ptr && Prim(f.typ).None? && f.typ in t }

  /** No struct contains itself: `rank` falls from a struct to those inside it.
      Both programs parse the matrix type the same way. */
  ghost predicate Acyclic(t: Table, rank: string -> nat) {
    (forall name, k :: name in t && 0 <= k < |t[name]| && Nested(t, t[name][k]) ==> rank(t[name][k].typ) < rank(name)) &&
    MATRIX in t && t[MATRIX] == [Field(0, "f32", false, [16])]
  }

  // ----- writing slots into a dictionary -----

  /** Where element `i` begins. */
  function At(at: nat, size: nat, i: nat): nat { at + size * i }

  function Always(kind: Kind): nat -> Kind { (i: nat) => kind }

  function Many<V>(at: nat, size: nat, count: nat, v: nat -> V): map<nat, V> {
    if count == 0 then map[] else Many(at, size, count - 1, v)[At(at, size, count - 1) := v(count - 1)]
  }

  /** The 16 slots of a matrix. */
  function Grid<V>(at: nat, v: nat -> V): map<nat, V> { Many(at, 4, 16, v) }

  predicate Covers(x: nat, d: nat, s: set<nat>) { x >= d && x - d in s }

  function Shift<V>(m: map<nat, V>, d: nat): (r: map<nat, V>)
    ensures forall x: nat {:trigger x in r} :: x in r <==> Covers(x, d, m.Keys)
    ensures forall x: nat {:trigger r[x]} :: x in r && Covers(x, d, m.Keys) ==> r[x] == m[x - d]
  {
    if m == map[] then map[]
    else
      var end := Greatest(m.Keys) + d;
      map x: nat | x <= end && Covers(x, d, m.Keys) :: m[x - d]
  }

  function Repeated<V>(m: map<nat, V>, at: nat, span: nat, count: nat): map<nat, V> {
    if count == 0 then map[] else Repeated(m, at, span, count - 1) + Shift(m, At(at, span, count - 1))
  }

  predicate IsGreatest(s: set<nat>, g: nat) { g in s && forall x <- s :: x <= g }

  function Greatest(s: set<nat>): (g: nat)
    requires s != {}
    ensures IsGreatest(s, g)
  {
    GreatestExists(s);
    var g: nat :| g in s && IsGreatest(s, g);
    g
  }

  lemma GreaterOf(s: set<nat>, y: nat, h: nat)
    requires y in s && IsGreatest(s - {y}, h)
    ensures IsGreatest(s, if h < y then y else h)
  {
    forall x <- s ensures x <= if h < y then y else h {
      if x != y {
        assert x in s - {y};
      }
    }
  }

  lemma {:induction false} GreatestExists(s: set<nat>)
    requires s != {}
    ensures exists g: nat :: g in s && IsGreatest(s, g)
    decreases |s|
  {
    var y :| y in s;
    var less := s - {y};
    if less != {} {
      GreatestExists(less);
      var h: nat :| h in less && IsGreatest(less, h);
      GreaterOf(s, y, h);
    } else {
      assert s == {y};
      assert IsGreatest(s, y);
    }
  }

  // ----- layout -----

  /** `None` where the source raises: an unknown struct, or the span of one
      without slots. */
  function Layout(t: Table, rank: string -> nat, name: string): Option<map<nat, Kind>>
    requires Acyclic(t, rank)
    decreases rank(name), 2, 0
  {
    if name in t then LayoutTo(t, rank, name, |t[name]|) else None
  }

  /** The first `n` fields. A later slot replaces an earlier one. */
  function LayoutTo(t: Table, rank: string -> nat, name: string, n: nat): Option<map<nat, Kind>>
    requires Acyclic(t, rank) && name in t && n <= |t[name]|
    decreases rank(name), 1, n
  {
    if n == 0 then Some(map[])
    else
      var before := LayoutTo(t, rank, name, n - 1);
      var slots := FieldKinds(t, rank, name, n - 1);
      Join(before, slots)
  }

  function FieldKinds(t: Table, rank: string -> nat, name: string, k: nat): Option<map<nat, Kind>>
    requires Acyclic(t, rank) && name in t && k < |t[name]|
    decreases rank(name), 0, 0
  {
    var f := t[name][k];
    if f.ptr then Some(Many(f.off, 4, Count(f.dims), Always(W)))
    else if Prim(f.typ).Some? then
      var (kind, size) := Prim(f.typ).value;
      Some(Many(f.off, size, Count(f.dims), Always(kind)))
    else if f.typ in t then
      var sub := Layout(t, rank, f.typ);
      if sub.None? || sub.value == map[] then None
      else Some(Repeated(sub.value, f.off, Greatest(sub.value.Keys) + 4, Count(f.dims)))
    else Some(map[f.off := W])
  }

  // ----- paths -----

  function Indexed(f: Field, i: nat): string { if Positive(f.dims) then Text(Digits(f.dims, i)) else "" }

  function Elements(full: string, f: Field, typ: string): nat -> Slot {
    (i: nat) => Slot(full + Indexed(f, i), typ)
  }

  function Cells(full: string): nat -> Slot { (i: nat) => Slot(full + Text([i / 4, i % 4]), "f32") }

  function Paths(t: Table, rank: string -> nat, names: Names, name: string, prefix: string, base: nat)
      : Option<map<nat, Slot>>
    requires Acyclic(t, rank)
    decreases rank(name), 3, 0, 0
  {
    if name in t then PathsTo(t, rank, names, name, prefix, base, |t[name]|) else None
  }

  function PathsTo(t: Table, rank: string -> nat, names: Names, name: string, prefix: string, base: nat, n: nat)
      : Option<map<nat, Slot>>
    requires Acyclic(t, rank) && name in t && n <= |t[name]|
    decreases rank(name), 2, n, 0
  {
    if n == 0 then Some(map[])
    else
      var before := PathsTo(t, rank, names, name, prefix, base, n - 1);
      var slots := FieldPaths(t, rank, names, name, prefix, base, n - 1);
      Join(before, slots)
  }

  function FieldPaths(t: Table, rank: string -> nat, names: Names, name: string, prefix: string, base: nat, k: nat)
      : Option<map<nat, Slot>>
    requires Acyclic(t, rank) && name in t && k < |t[name]|
    decreases rank(name), 1, 0, 0
  {
    var f := t[name][k];
    var full := prefix + names(name, f.off);
    if f.ptr then Some(Many(base + f.off, 4, Count(f.dims), Elements(full, f, PTR)))
    else if Prim(f.typ).Some? then
      Some(Many(base + f.off, Prim(f.typ).value.1, Count(f.dims), Elements(full, f, f.typ)))
    else if f.typ == MATRIX then
      Some(Grid(base + f.off, Cells(full)))
    else if f.typ in t then
      var sub := Layout(t, rank, f.typ);
      if sub.None? || sub.value == map[] then None
      else RepeatPaths(t, rank, names, name, full, base + f.off, k, Greatest(sub.value.Keys) + 4, Count(f.dims))
    else Some(map[base + f.off := Slot(full, PTR)])
  }

  function RepeatPaths(t: Table, rank: string -> nat, names: Names, name: string, full: string, at: nat, k: nat,
                       span: nat, count: nat): Option<map<nat, Slot>>
    requires Acyclic(t, rank) && name in t && k < |t[name]| && Nested(t, t[name][k])
    decreases rank(name), 0, 0, count
  {
    if count == 0 then Some(map[])
    else
      var f := t[name][k];
      var before := RepeatPaths(t, rank, names, name, full, at, k, span, count - 1);
      var one := Paths(t, rank, names, f.typ, full + Indexed(f, count - 1) + ".", At(at, span, count - 1));
      Join(before, one)
  }

  // ----- the two agree -----

  function Kinds(m: map<nat, Slot>): map<nat, Kind> { map k | k in m :: KindOf(m[k]) }

  lemma KindsJoin(a: map<nat, Slot>, b: map<nat, Slot>)
    ensures Kinds(a + b) == Kinds(a) + Kinds(b)
  {
  }

  lemma ShiftJoin<V>(a: map<nat, V>, b: map<nat, V>, d: nat)
    ensures Shift(a + b, d) == Shift(a, d) + Shift(b, d)
  {
  }

  lemma ShiftTwice<V>(m: map<nat, V>, d: nat, e: nat)
    ensures Shift(Shift(m, d), e) == Shift(m, d + e)
  {
  }

  lemma KindsWrite(m: map<nat, Slot>, k: nat, s: Slot)
    ensures Kinds(m[k := s]) == Kinds(m)[k := KindOf(s)]
  {
  }

  lemma ShiftWrite<V>(m: map<nat, V>, k: nat, v: V, d: nat)
    ensures Shift(m[k := v], d) == Shift(m, d)[d + k := v]
  {
  }

  lemma WriteStep(p: map<nat, Slot>, l: map<nat, Kind>, to: nat, from: nat, s: Slot, kind: Kind, base: nat)
    requires Kinds(p) == Shift(l, base) && to == base + from && KindOf(s) == kind
    ensures Kinds(p[to := s]) == Shift(l[from := kind], base)
  {
    KindsWrite(p, to, s);
    ShiftWrite(l, from, kind, base);
  }

  lemma AtMoves(to: nat, at: nat, base: nat, size: nat, i: nat)
    requires to == base + at
    ensures At(to, size, i) == base + At(at, size, i)
  {
  }

  /** A run of slots, written at `to` by `paths` and at `at` by `layout`. */
  lemma {:induction false} ManyAgree(to: nat, at: nat, base: nat, size: nat, count: nat, v: nat -> Slot, w: nat -> Kind)
    requires to == base + at
    requires forall i :: KindOf(v(i)) == w(i)
    ensures Kinds(Many(to, size, count, v)) == Shift(Many(at, size, count, w), base)
  {
    if count == 0 {
      NoSlots(base);
    } else {
      var i := count - 1;
      ManyAgree(to, at, base, size, i, v, w);
      AtMoves(to, at, base, size, i);
      assert KindOf(v(i)) == w(i);
      WriteStep(Many(to, size, i, v), Many(at, size, i, w), At(to, size, i), At(at, size, i), v(i), w(i), base);
      ManyLast(to, size, i, v);
      ManyLast(at, size, i, w);
    }
  }

  lemma NoSlots(base: nat)
    ensures Kinds(map[]) == Shift(map[], base)
  {
  }

  lemma ManyLast<V>(at: nat, size: nat, i: nat, v: nat -> V)
    ensures Many(at, size, i + 1, v) == Many(at, size, i, v)[At(at, size, i) := v(i)]
  {
  }

  lemma MoveStep<V>(rest: map<nat, V>, m: map<nat, V>, step: nat, base: nat, to: nat)
    requires to == base + step
    ensures Shift(rest + Shift(m, step), base) == Shift(rest, base) + Shift(m, to)
  {
    ShiftJoin(rest, Shift(m, step), base);
    ShiftTwice(m, step, base);
  }

  lemma {:induction false} RepeatedShift<V>(m: map<nat, V>, to: nat, at: nat, base: nat, span: nat, count: nat)
    requires to == base + at
    ensures Shift(Repeated(m, at, span, count), base) == Repeated(m, to, span, count)
  {
    if count > 0 {
      var i := count - 1;
      RepeatedShift(m, to, at, base, span, i);
      MoveStep(Repeated(m, at, span, i), m, At(at, span, i), base, At(to, span, i));
    }
  }

  /** `paths` does not repeat a matrix, so there may be no array of them. */
  predicate OneMatrix(f: Field) { !f.ptr && f.typ == MATRIX ==> Count(f.dims) == 1 }

  ghost predicate NoMatrixArrays(t: Table) {
    forall name, k :: name in t && 0 <= k < |t[name]| ==> OneMatrix(t[name][k])
  }

  ghost predicate Agree(p: Option<map<nat, Slot>>, l: Option<map<nat, Kind>>, base: nat) {
    (p.Some? <==> l.Some?) && (p.Some? ==> Kinds(p.value) == Shift(l.value, base))
  }

  lemma {:induction false} Agreement(t: Table, rank: string -> nat, names: Names, name: string, prefix: string, base: nat)
    requires Acyclic(t, rank) && NoMatrixArrays(t)
    ensures Agree(Paths(t, rank, names, name, prefix, base), Layout(t, rank, name), base)
    decreases rank(name), 3, 0, 0
  {
    if name in t {
      AgreementTo(t, rank, names, name, prefix, base, |t[name]|);
    }
  }

  lemma {:induction false} AgreementTo(t: Table, rank: string -> nat, names: Names, name: string, prefix: string,
                                      base: nat, n: nat)
    requires Acyclic(t, rank) && NoMatrixArrays(t) && name in t && n <= |t[name]|
    ensures Agree(PathsTo(t, rank, names, name, prefix, base, n), LayoutTo(t, rank, name, n), base)
    decreases rank(name), 2, n, 0
  {
    if n > 0 {
      AgreementTo(t, rank, names, name, prefix, base, n - 1);
      FieldAgrees(t, rank, names, name, prefix, base, n - 1);
      AgreeJoin(PathsTo(t, rank, names, name, prefix, base, n - 1),
                FieldPaths(t, rank, names, name, prefix, base, n - 1),
                LayoutTo(t, rank, name, n - 1), FieldKinds(t, rank, name, n - 1), base);
    }
  }

  function Join<V>(a: Option<map<nat, V>>, b: Option<map<nat, V>>): Option<map<nat, V>> {
    if a.Some? && b.Some? then Some(a.value + b.value) else None
  }

  lemma AgreeJoin(p: Option<map<nat, Slot>>, q: Option<map<nat, Slot>>,
                  l: Option<map<nat, Kind>>, k: Option<map<nat, Kind>>, base: nat)
    requires Agree(p, l, base) && Agree(q, k, base)
    ensures Agree(Join(p, q), Join(l, k), base)
  {
    if p.Some? && q.Some? {
      KindsJoin(p.value, q.value);
      ShiftJoin(l.value, k.value, base);
    }
  }

  /** A run of slots lies in its own `size * count` bytes, and its last slot there. */
  lemma {:induction false} ManyKeys<V>(at: nat, size: nat, count: nat, v: nat -> V)
    ensures forall x <- Many(at, size, count, v) :: at <= x <= at + size * count
    ensures forall x <- Many(at, size, count, v) :: x <= At(at, size, count - 1)
    ensures count > 0 ==> At(at, size, count - 1) in Many(at, size, count, v)
    ensures count > 0 ==> at in Many(at, size, count, v)
  {
    if count > 0 {
      ManyKeys(at, size, count - 1, v);
    }
  }

  lemma {:induction false} ManyShift<V>(to: nat, at: nat, base: nat, size: nat, count: nat, v: nat -> V)
    requires to == base + at
    ensures Shift(Many(at, size, count, v), base) == Many(to, size, count, v)
  {
    if count > 0 {
      var i := count - 1;
      ManyShift(to, at, base, size, i, v);
      AtMoves(to, at, base, size, i);
      ShiftWrite(Many(at, size, i, v), At(at, size, i), v(i), base);
    }
  }

  /** The layout of one matrix, as far as repeating it goes. */
  ghost predicate MatrixMap(sub: map<nat, Kind>) {
    sub != map[] && 0 in sub && IsGreatest(sub.Keys, 60) &&
    forall at: nat :: Repeated(sub, at, 64, 1) == Grid(at, Always(F))
  }

  lemma NothingBefore<V>(m: map<nat, V>)
    ensures map[] + m == m
  {
  }

  lemma GridRepeats(sub: map<nat, Kind>, n: nat, at: nat)
    requires sub == Many(0, 4, n, Always(F))
    ensures Repeated(sub, at, 64, 1) == Many(at, 4, n, Always(F))
  {
    ManyShift(at, 0, at, 4, n, Always(F));
    assert At(at, 64, 0) == at;
    NothingBefore(Shift(sub, at));
  }

  lemma GridIsMatrix(n: nat)
    requires n == 16
    ensures MatrixMap(Many(0, 4, n, Always(F)))
  {
    var sub := Many(0, 4, n, Always(F));
    ManyKeys(0, 4, n, Always(F));
    assert At(0, 4, n - 1) == 60;
    forall at: nat ensures Repeated(sub, at, 64, 1) == Grid(at, Always(F)) {
      GridRepeats(sub, n, at);
    }
  }

  lemma MatrixCount()
    ensures Count([16]) == 16
  {
    assert [16][..0] == [];
    assert Count([]) == 1;
  }

  /** What `layout` makes of the matrix's table entry. */
  lemma MatrixEntry(t: Table, rank: string -> nat) returns (sub: map<nat, Kind>)
    requires Acyclic(t, rank)
    ensures Layout(t, rank, MATRIX) == Some(sub) && MatrixMap(sub)
  {
    var n := Count([16]);
    MatrixCount();
    sub := Many(0, 4, n, Always(F));
    GridIsMatrix(n);
    assert Prim("f32") == Some((F, 4));
    assert FieldKinds(t, rank, MATRIX, 0) == Some(sub);
    assert LayoutTo(t, rank, MATRIX, 0) == Some(map[]);
    NothingBefore(sub);
  }

  /** What each makes of a matrix field. */
  lemma MatrixSlots(t: Table, rank: string -> nat, names: Names, name: string, prefix: string, base: nat, k: nat)
    returns (sub: map<nat, Kind>)
    requires Acyclic(t, rank) && name in t && k < |t[name]|
    requires !t[name][k].ptr && t[name][k].typ == MATRIX
    ensures MatrixMap(sub)
    ensures FieldPaths(t, rank, names, name, prefix, base, k)
         == Some(Grid(base + t[name][k].off, Cells(prefix + names(name, t[name][k].off))))
    ensures FieldKinds(t, rank, name, k) == Some(Repeated(sub, t[name][k].off, 64, Count(t[name][k].dims)))
  {
    sub := MatrixEntry(t, rank);
    assert Prim(MATRIX).None?;
    assert Greatest(sub.Keys) == 60;
  }

  lemma MatrixSame(sub: map<nat, Kind>, to: nat, at: nat, base: nat, full: string)
    requires MatrixMap(sub) && to == base + at
    ensures Kinds(Grid(to, Cells(full))) == Shift(Repeated(sub, at, 64, 1), base)
  {
    ManyAgree(to, at, base, 4, 16, Cells(full), Always(F));
  }

  /** Two or more matrices have a slot behind the first one's 64 bytes. */
  lemma MatricesDiffer(sub: map<nat, Kind>, to: nat, at: nat, base: nat, count: nat, full: string)
    requires MatrixMap(sub) && to == base + at && count != 1
    ensures Kinds(Grid(to, Cells(full))) != Shift(Repeated(sub, at, 64, count), base)
  {
    RepeatedShift(sub, to, at, base, 64, count);
    ManyKeys(to, 4, 16, Cells(full));
    if count == 0 {
      Differs(Grid(to, Cells(full)), map[], to);
    } else {
      assert At(to, 64, count - 1) in Repeated(sub, to, 64, count);
      DiffersLast(Grid(to, Cells(full)), Repeated(sub, to, 64, count), At(to, 64, count - 1));
    }
  }

  lemma MatrixCounts(sub: map<nat, Kind>, to: nat, at: nat, base: nat, count: nat, full: string)
    requires MatrixMap(sub) && to == base + at
    ensures Kinds(Grid(to, Cells(full))) == Shift(Repeated(sub, at, 64, count), base) <==> count == 1
  {
    if count == 1 {
      MatrixSame(sub, to, at, base, full);
    } else {
      MatricesDiffer(sub, to, at, base, count, full);
    }
  }

  /** The two agree on a matrix field exactly when it is a single matrix. */
  lemma MatrixAgreesExactly(t: Table, rank: string -> nat, names: Names, name: string, prefix: string, base: nat, k: nat)
    requires Acyclic(t, rank) && name in t && k < |t[name]|
    requires !t[name][k].ptr && t[name][k].typ == MATRIX
    ensures Agree(FieldPaths(t, rank, names, name, prefix, base, k), FieldKinds(t, rank, name, k), base)
       <==> Count(t[name][k].dims) == 1
  {
    var f := t[name][k];
    var full := prefix + names(name, f.off);
    var sub := MatrixSlots(t, rank, names, name, prefix, base, k);
    MatrixCounts(sub, base + f.off, f.off, base, Count(f.dims), full);
    AgreesWhen(FieldPaths(t, rank, names, name, prefix, base, k), FieldKinds(t, rank, name, k), base,
               Grid(base + f.off, Cells(full)), Repeated(sub, f.off, 64, Count(f.dims)));
  }

  lemma AgreesWhen(p: Option<map<nat, Slot>>, l: Option<map<nat, Kind>>, base: nat, x: map<nat, Slot>, y: map<nat, Kind>)
    requires p == Some(x) && l == Some(y)
    ensures Agree(p, l, base) <==> Kinds(x) == Shift(y, base)
  {
  }

  /** A struct with two matrices: `CMtxF m[2];` at offset 0. */
  lemma TwoMatricesDiffer(names: Names, rank: string -> nat)
    requires rank(MATRIX) == 0 && rank("Two") == 1
    ensures var t := map[MATRIX := [Field(0, "f32", false, [16])], "Two" := [Field(0, MATRIX, false, [2])]];
            Acyclic(t, rank) && !Agree(FieldPaths(t, rank, names, "Two", "", 0, 0), FieldKinds(t, rank, "Two", 0), 0)
  {
    var t := map[MATRIX := [Field(0, "f32", false, [16])], "Two" := [Field(0, MATRIX, false, [2])]];
    assert Prim("f32").Some? && Prim(MATRIX).None?;
    assert [2][..0] == [] && Count([2]) == 2;
    MatrixAgreesExactly(t, rank, names, "Two", "", 0, 0);
  }

  lemma Differs(p: map<nat, Slot>, l: map<nat, Kind>, first: nat)
    requires first in p && first !in l
    ensures Kinds(p) != l
  {
    assert first in Kinds(p);
  }

  lemma DiffersLast(p: map<nat, Slot>, l: map<nat, Kind>, last: nat)
    requires last in l && last !in p
    ensures Kinds(p) != l
  {
    assert last !in Kinds(p);
  }

  lemma {:induction false} RepeatAgrees(t: Table, rank: string -> nat, names: Names, name: string, full: string,
                                       to: nat, at: nat, base: nat, k: nat, span: nat, count: nat, sub: map<nat, Kind>)
    requires Acyclic(t, rank) && NoMatrixArrays(t) && name in t && k < |t[name]| && Nested(t, t[name][k])
    requires Layout(t, rank, t[name][k].typ) == Some(sub) && to == base + at
    ensures Agree(RepeatPaths(t, rank, names, name, full, to, k, span, count),
                  Some(Repeated(sub, at, span, count)), base)
    decreases rank(name), 0, 0, count
  {
    if count > 0 {
      var i := count - 1;
      var f := t[name][k];
      var one := Paths(t, rank, names, f.typ, full + Indexed(f, i) + ".", At(to, span, i));
      RepeatAgrees(t, rank, names, name, full, to, at, base, k, span, i, sub);
      Agreement(t, rank, names, f.typ, full + Indexed(f, i) + ".", At(to, span, i));
      assert Kinds(one.value) == Shift(sub, At(to, span, i));
      RepeatStep(RepeatPaths(t, rank, names, name, full, to, k, span, i).value, one.value,
                 Repeated(sub, at, span, i), sub, At(at, span, i), base, At(to, span, i));
    }
  }

  lemma RepeatStep(p: map<nat, Slot>, one: map<nat, Slot>, l: map<nat, Kind>, sub: map<nat, Kind>,
                   step: nat, base: nat, to: nat)
    requires Kinds(p) == Shift(l, base) && Kinds(one) == Shift(sub, to) && to == base + step
    ensures Kinds(p + one) == Shift(l + Shift(sub, step), base)
  {
    KindsJoin(p, one);
    MoveStep(l, sub, step, base, to);
  }

  lemma PointersAgree(t: Table, rank: string -> nat, names: Names, name: string, prefix: string, base: nat, k: nat)
    requires Acyclic(t, rank) && name in t && k < |t[name]| && t[name][k].ptr
    ensures Agree(FieldPaths(t, rank, names, name, prefix, base, k), FieldKinds(t, rank, name, k), base)
  {
    var f := t[name][k];
    var v := Elements(prefix + names(name, f.off), f, PTR);
    ManyAgree(base + f.off, f.off, base, 4, Count(f.dims), v, Always(W));
  }

  lemma PrimsAgree(t: Table, rank: string -> nat, names: Names, name: string, prefix: string, base: nat, k: nat)
    requires Acyclic(t, rank) && name in t && k < |t[name]|
    requires !t[name][k].ptr && Prim(t[name][k].typ).Some?
    ensures Agree(FieldPaths(t, rank, names, name, prefix, base, k), FieldKinds(t, rank, name, k), base)
  {
    var f := t[name][k];
    var (kind, size) := Prim(f.typ).value;
    var v := Elements(prefix + names(name, f.off), f, f.typ);
    ManyAgree(base + f.off, f.off, base, size, Count(f.dims), v, Always(kind));
  }

  lemma UnknownAgrees(t: Table, rank: string -> nat, names: Names, name: string, prefix: string, base: nat, k: nat)
    requires Acyclic(t, rank) && name in t && k < |t[name]|
    requires var f := t[name][k]; !f.ptr && Prim(f.typ).None? && f.typ !in t
    ensures Agree(FieldPaths(t, rank, names, name, prefix, base, k), FieldKinds(t, rank, name, k), base)
  {
    var f := t[name][k];
    WriteStep(map[], map[], base + f.off, f.off, Slot(prefix + names(name, f.off), PTR), W, base);
  }

  lemma FieldAgrees(t: Table, rank: string -> nat, names: Names, name: string, prefix: string, base: nat, k: nat)
    requires Acyclic(t, rank) && NoMatrixArrays(t) && name in t && k < |t[name]|
    ensures Agree(FieldPaths(t, rank, names, name, prefix, base, k), FieldKinds(t, rank, name, k), base)
    decreases rank(name), 1, 0, 0
  {
    var f := t[name][k];
    if f.ptr {
      PointersAgree(t, rank, names, name, prefix, base, k);
    } else if Prim(f.typ).Some? {
      PrimsAgree(t, rank, names, name, prefix, base, k);
    } else if f.typ == MATRIX {
      assert OneMatrix(f);
      MatrixAgreesExactly(t, rank, names, name, prefix, base, k);
    } else if f.typ in t {
      var sub := Layout(t, rank, f.typ);
      if sub.Some? && sub.value != map[] {
        RepeatAgrees(t, rank, names, name, prefix + names(name, f.off), base + f.off, f.off, base, k,
                     Greatest(sub.value.Keys) + 4, Count(f.dims), sub.value);
      }
    } else {
      UnknownAgrees(t, rank, names, name, prefix, base, k);
    }
  }

  // ----- the loops -----

  lemma PutBehind<V>(out: map<nat, V>, k: nat, v: V)
    ensures out[k := v] == out + map[k := v]
  {
  }

  lemma JoinBehind<V>(out: map<nat, V>, m: map<nat, V>, n: map<nat, V>)
    ensures (out + m) + n == out + (m + n)
  {
  }

  method WriteMany<V>(out: map<nat, V>, at: nat, size: nat, count: nat, v: nat -> V) returns (out': map<nat, V>)
    ensures out' == out + Many(at, size, count, v)
  {
    out' := out;
    var i := 0;
    while i < count
      invariant 0 <= i <= count
      invariant out' == out + Many(at, size, i, v)
    {
      out' := out'[At(at, size, i) := v(i)];
      i := i + 1;
    }
  }

  function Part(sub: map<nat, Kind>, keys: set<nat>): map<nat, Kind> { map k | k in sub && k in keys :: sub[k] }

  lemma PartStep(sub: map<nat, Kind>, keys: set<nat>, k: nat)
    requires k in sub
    ensures Part(sub, keys + {k}) == Part(sub, keys)[k := sub[k]]
  {
  }

  lemma CopyStep(out: map<nat, Kind>, sub: map<nat, Kind>, keys: set<nat>, k: nat, d: nat)
    requires k in sub
    ensures (out + Shift(Part(sub, keys), d))[d + k := sub[k]] == out + Shift(Part(sub, keys + {k}), d)
  {
    PartStep(sub, keys, k);
    ShiftWrite(Part(sub, keys), k, sub[k], d);
  }

  method CopyTo(out: map<nat, Kind>, sub: map<nat, Kind>, d: nat) returns (out': map<nat, Kind>)
    ensures out' == out + Shift(sub, d)
  {
    out' := out;
    var left := sub.Keys;
    ghost var done: set<nat> := {};
    while left != {}
      invariant left <= sub.Keys && left + done == sub.Keys
      invariant out' == out + Shift(Part(sub, done), d)
      decreases |left|
    {
      var k :| k in left;
      CopyStep(out, sub, done, k, d);
      out' := out'[d + k := sub[k]];
      done := done + {k};
      left := left - {k};
    }
    assert Part(sub, done) == sub;
  }

  /** `layout`, filling its own dictionary. */
  method FillLayout(t: Table, name: string, ghost rank: string -> nat) returns (out: Option<map<nat, Kind>>)
    requires Acyclic(t, rank)
    ensures out == Layout(t, rank, name)
    decreases rank(name), 1
  {
    if name !in t {
      return None;
    }
    var slots: map<nat, Kind> := map[];
    var k := 0;
    while k < |t[name]|
      invariant 0 <= k <= |t[name]|
      invariant LayoutTo(t, rank, name, k) == Some(slots)
    {
      var more := FillField(t, name, k, slots, rank);
      if more.None? {
        LayoutFails(t, rank, name, k + 1, |t[name]|);
        return None;
      }
      slots := more.value;
      k := k + 1;
    }
    return Some(slots);
  }

  lemma {:induction false} LayoutFails(t: Table, rank: string -> nat, name: string, k: nat, n: nat)
    requires Acyclic(t, rank) && name in t && k <= n <= |t[name]| && LayoutTo(t, rank, name, k).None?
    ensures LayoutTo(t, rank, name, n).None?
  {
    if k < n {
      LayoutFails(t, rank, name, k, n - 1);
    }
  }

  method FillField(t: Table, name: string, k: nat, slots: map<nat, Kind>, ghost rank: string -> nat)
      returns (out: Option<map<nat, Kind>>)
    requires Acyclic(t, rank) && name in t && k < |t[name]|
    ensures out == Join(Some(slots), FieldKinds(t, rank, name, k))
    decreases rank(name), 0
  {
    var f := t[name][k];
    if f.ptr {
      var more := WriteMany(slots, f.off, 4, Count(f.dims), Always(W));
      return Some(more);
    }
    if Prim(f.typ).Some? {
      var (kind, size) := Prim(f.typ).value;
      var more := WriteMany(slots, f.off, size, Count(f.dims), Always(kind));
      return Some(more);
    }
    if f.typ !in t {
      PutBehind(slots, f.off, W);
      return Some(slots[f.off := W]);
    }
    var sub := FillLayout(t, f.typ, rank);
    if sub.None? || sub.value == map[] {
      return None;
    }
    var span := Greatest(sub.value.Keys) + 4;
    var more := FillRepeated(slots, sub.value, f.off, span, Count(f.dims));
    return Some(more);
  }

  method FillRepeated(slots: map<nat, Kind>, sub: map<nat, Kind>, at: nat, span: nat, count: nat)
      returns (out: map<nat, Kind>)
    ensures out == slots + Repeated(sub, at, span, count)
  {
    out := slots;
    var i := 0;
    while i < count
      invariant 0 <= i <= count
      invariant out == slots + Repeated(sub, at, span, i)
    {
      out := CopyTo(out, sub, At(at, span, i));
      JoinBehind(slots, Repeated(sub, at, span, i), Shift(sub, At(at, span, i)));
      i := i + 1;
    }
  }

  lemma JoinAssoc(out: Option<map<nat, Slot>>, before: Option<map<nat, Slot>>, one: Option<map<nat, Slot>>)
    ensures Join(Join(out, before), one) == Join(out, Join(before, one))
  {
    if out.Some? && before.Some? && one.Some? {
      JoinBehind(out.value, before.value, one.value);
    }
  }

  lemma NothingAdded(out: map<nat, Slot>)
    ensures Some(out) == Join(Some(out), Some(map[]))
  {
    assert out + map[] == out;
  }

  lemma PathsMore(t: Table, rank: string -> nat, names: Names, name: string, prefix: string, base: nat, k: nat,
                  out: map<nat, Slot>)
    requires Acyclic(t, rank) && name in t && k < |t[name]|
    ensures Join(Some(out), PathsTo(t, rank, names, name, prefix, base, k + 1))
         == Join(Join(Some(out), PathsTo(t, rank, names, name, prefix, base, k)),
                 FieldPaths(t, rank, names, name, prefix, base, k))
  {
    JoinAssoc(Some(out), PathsTo(t, rank, names, name, prefix, base, k),
              FieldPaths(t, rank, names, name, prefix, base, k));
  }

  ghost predicate Filled(t: Table, rank: string -> nat, names: Names, name: string, full: string, at: nat, k: nat,
                         span: nat, i: nat, out: map<nat, Slot>, slots: Option<map<nat, Slot>>)
    requires Acyclic(t, rank) && name in t && k < |t[name]| && Nested(t, t[name][k])
  {
    slots == Join(Some(out), RepeatPaths(t, rank, names, name, full, at, k, span, i))
  }

  lemma FilledStep(t: Table, rank: string -> nat, names: Names, name: string, full: string, at: nat, k: nat,
                   span: nat, i: nat, out: map<nat, Slot>, slots: map<nat, Slot>, more: Option<map<nat, Slot>>)
    requires Acyclic(t, rank) && name in t && k < |t[name]| && Nested(t, t[name][k])
    requires Filled(t, rank, names, name, full, at, k, span, i, out, Some(slots))
    requires more == Join(Some(slots), Paths(t, rank, names, t[name][k].typ,
                                             full + Indexed(t[name][k], i) + ".", At(at, span, i)))
    ensures Filled(t, rank, names, name, full, at, k, span, i + 1, out, more)
  {
    JoinAssoc(Some(out), RepeatPaths(t, rank, names, name, full, at, k, span, i),
              Paths(t, rank, names, t[name][k].typ, full + Indexed(t[name][k], i) + ".", At(at, span, i)));
  }

  /** `paths`, filling the dictionary it shares with its recursive calls. */
  method FillPaths(t: Table, names: Names, name: string, prefix: string, base: nat, out: map<nat, Slot>,
                   ghost rank: string -> nat) returns (out': Option<map<nat, Slot>>)
    requires Acyclic(t, rank)
    ensures out' == Join(Some(out), Paths(t, rank, names, name, prefix, base))
    decreases rank(name), 2, 0
  {
    if name !in t {
      return None;
    }
    var slots := out;
    NothingAdded(out);
    var k := 0;
    while k < |t[name]|
      invariant 0 <= k <= |t[name]|
      invariant Some(slots) == Join(Some(out), PathsTo(t, rank, names, name, prefix, base, k))
    {
      PathsMore(t, rank, names, name, prefix, base, k, out);
      var more := FillFieldPaths(t, names, name, prefix, base, k, slots, rank);
      if more.None? {
        PathsFail(t, rank, names, name, prefix, base, k + 1, |t[name]|);
        return None;
      }
      slots := more.value;
      k := k + 1;
    }
    return Some(slots);
  }

  lemma {:induction false} PathsFail(t: Table, rank: string -> nat, names: Names, name: string, prefix: string,
                                     base: nat, k: nat, n: nat)
    requires Acyclic(t, rank) && name in t && k <= n <= |t[name]|
    requires PathsTo(t, rank, names, name, prefix, base, k).None?
    ensures PathsTo(t, rank, names, name, prefix, base, n).None?
  {
    if k < n {
      PathsFail(t, rank, names, name, prefix, base, k, n - 1);
    }
  }

  /** The field kinds that need no recursion. */
  method FillFlatPaths(t: Table, f: Field, full: string, at: nat, out: map<nat, Slot>) returns (out': map<nat, Slot>)
    requires f.ptr || Prim(f.typ).Some? || f.typ == MATRIX || f.typ !in t
    ensures f.ptr ==> out' == out + Many(at, 4, Count(f.dims), Elements(full, f, PTR))
    ensures !f.ptr && Prim(f.typ).Some? ==>
      out' == out + Many(at, Prim(f.typ).value.1, Count(f.dims), Elements(full, f, f.typ))
    ensures !f.ptr && Prim(f.typ).None? && f.typ == MATRIX ==> out' == out + Grid(at, Cells(full))
    ensures !f.ptr && Prim(f.typ).None? && f.typ != MATRIX ==> out' == out + map[at := Slot(full, PTR)]
  {
    if f.ptr {
      out' := WriteMany(out, at, 4, Count(f.dims), Elements(full, f, PTR));
    } else if Prim(f.typ).Some? {
      out' := WriteMany(out, at, Prim(f.typ).value.1, Count(f.dims), Elements(full, f, f.typ));
    } else if f.typ == MATRIX {
      out' := WriteMany(out, at, 4, 16, Cells(full));
    } else {
      PutBehind(out, at, Slot(full, PTR));
      out' := out[at := Slot(full, PTR)];
    }
  }

  method FillFieldPaths(t: Table, names: Names, name: string, prefix: string, base: nat, k: nat,
                        out: map<nat, Slot>, ghost rank: string -> nat) returns (out': Option<map<nat, Slot>>)
    requires Acyclic(t, rank) && name in t && k < |t[name]|
    ensures out' == Join(Some(out), FieldPaths(t, rank, names, name, prefix, base, k))
    decreases rank(name), 1, 0
  {
    var f := t[name][k];
    var full := prefix + names(name, f.off);
    if f.ptr || Prim(f.typ).Some? || f.typ == MATRIX || f.typ !in t {
      var more := FillFlatPaths(t, f, full, base + f.off, out);
      return Some(more);
    }
    var sub := FillLayout(t, f.typ, rank);
    if sub.None? || sub.value == map[] {
      return None;
    }
    out' := FillEach(t, names, name, full, base + f.off, k, Greatest(sub.value.Keys) + 4, Count(f.dims), out, rank);
  }

  method FillEach(t: Table, names: Names, name: string, full: string, at: nat, k: nat, span: nat, count: nat,
                  out: map<nat, Slot>, ghost rank: string -> nat) returns (out': Option<map<nat, Slot>>)
    requires Acyclic(t, rank) && name in t && k < |t[name]| && Nested(t, t[name][k])
    ensures out' == Join(Some(out), RepeatPaths(t, rank, names, name, full, at, k, span, count))
    decreases rank(name), 0, 0
  {
    var f := t[name][k];
    var slots := out;
    NothingAdded(out);
    var i := 0;
    while i < count
      invariant 0 <= i <= count
      invariant Filled(t, rank, names, name, full, at, k, span, i, out, Some(slots))
    {
      var path := full + Indexed(f, i) + ".";
      var more := FillPaths(t, names, f.typ, path, At(at, span, i), slots, rank);
      FilledStep(t, rank, names, name, full, at, k, span, i, out, slots, more);
      if more.None? {
        RepeatFails(t, rank, names, name, full, at, k, span, i + 1, count);
        return None;
      }
      slots := more.value;
      i := i + 1;
    }
    return Some(slots);
  }

  lemma {:induction false} RepeatFails(t: Table, rank: string -> nat, names: Names, name: string, full: string,
                                       at: nat, k: nat, span: nat, i: nat, count: nat)
    requires Acyclic(t, rank) && name in t && k < |t[name]| && Nested(t, t[name][k]) && i <= count
    requires RepeatPaths(t, rank, names, name, full, at, k, span, i).None?
    ensures RepeatPaths(t, rank, names, name, full, at, k, span, count).None?
  {
    if i < count {
      RepeatFails(t, rank, names, name, full, at, k, span, i, count - 1);
    }
  }
}
