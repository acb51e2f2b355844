/** tools/sn_li.py `main`: one pass over the file, with the pool of float
    literals it carries along. */
module SnLiPool {
  import opened Prelude
  import opened Mips
  import opened SnLiDivide
  import opened SnLi

  /** cc1's section directives: absolute ones, and the ones that depend on the
      section in force. */
  datatype SecDir = Absolute(name: string) | Previous | PushSection(name: string) | PopSection

  /** A line of the file. `Literal` is the pool's entry for one float (alignment,
      label and value); `LoadLit` is the lui/lwc1 or lui/ldc1 pair that reads it. */
  datatype Item =
    | Asm(line: Line)
    | Section(d: SecDir)
    | DivMacro(op: DivOp, rd: Reg, rs: Reg, rt: Reg)
    | Access(mop: MemOp, mrt: Reg, off: Offset, base: Reg)
    | LiFloat(double: bool, freg: nat, value: int)
    | LiInt(double: bool, reg: Reg, bits: Word)
    | Literal(n: nat, double: bool, value: int)
    | LoadLit(n: nat, double: bool, freg: nat)

  const RODATA: string := ".rodata"

  function AsItems(lines: seq<Line>): (r: seq<Item>)
    ensures |r| == |lines|
    ensures forall k :: 0 <= k < |r| ==> r[k] == Asm(lines[k])
  {
    seq(|lines|, k requires 0 <= k < |lines| => Asm(lines[k]))
  }

  /** The loop's variables besides `out`. */
  datatype St = St(n: nat, ndiv: nat, nr: bool, pool: seq<Item>)

  const START: St := St(0, 0, false, [])

  function Flush(pool: seq<Item>): seq<Item> {
    if pool == [] then [] else [Section(Absolute(RODATA))] + pool
  }

  /** What stands in the line's own place in the output; `n` and `div` number its
      literal and its division labels. */
  function InPlace(item: Item, n: nat, div: nat, nr: bool): seq<Item> {
    match item
    case DivMacro(op, rd, rs, rt) => AsItems(Expand(op, rd, rs, rt, div, nr))
    case Access(op, rt, off, base) =>
      var e := ExpandMem(op, rt, off, base);
      if e.Some? then AsItems(e.value) else [item]
    case LiFloat(double, freg, _) => [LoadLit(n, double, freg)]
    case LiInt(double, reg, bits) => if double then [item] else [Asm(Code([], Li(reg, bits)))]
    case _ => [item]
  }

  function ModeAfter(item: Item, nr: bool): bool {
    if item.Asm? then NrAfter(item.line, nr) else nr
  }

  /** What a line has written out before it, and the pool behind it. */
  function FlushedBy(item: Item, pool: seq<Item>): seq<Item> {
    if item.Section? then Flush(pool) else []
  }

  function PoolBehind(item: Item, pool: seq<Item>, n: nat): seq<Item> {
    (if item.Section? then [] else pool) + (if item.LiFloat? then [Literal(n, item.double, item.value)] else [])
  }

  function NextSt(item: Item, st: St): St {
    var n := if item.LiFloat? then st.n + 1 else st.n;
    St(n, st.ndiv + 1, ModeAfter(item, st.nr), PoolBehind(item, st.pool, n))
  }

  function Own(item: Item, st: St): seq<Item> {
    var st' := NextSt(item, st);
    InPlace(item, st'.n, st'.ndiv, st'.nr)
  }

  /** One turn of the loop on `item`. */
  function Turn(item: Item, st: St): (seq<Item>, St) {
    (FlushedBy(item, st.pool) + Own(item, st), NextSt(item, st))
  }

  function Rewrite(items: seq<Item>, st: St): seq<Item>
    decreases |items|
  {
    if items == [] then Flush(st.pool)
    else Turn(items[0], st).0 + Rewrite(items[1..], NextSt(items[0], st))
  }

  /** The body of the loop of `main`. */
  method Advance(item: Item, st: St) returns (emit: seq<Item>, st': St)
    ensures (emit, st') == Turn(item, st)
  {
    var n, ndiv, noreorder, pool := st.n, st.ndiv + 1, st.nr, st.pool;
    emit := [];
    if pool != [] && item.Section? {
      emit := Flush(pool);
      pool := [];
    }
    if item == Asm(Dir(Noreorder)) {
      noreorder := true;
    } else if item == Asm(Dir(Reorder)) {
      noreorder := false;
    }
    if item.LiFloat? {
      n := n + 1;
      pool := pool + [Literal(n, item.double, item.value)];
    }
    assert pool == PoolBehind(item, st.pool, n) && emit == FlushedBy(item, st.pool);
    emit := emit + InPlace(item, n, ndiv, noreorder);
    st' := St(n, ndiv, noreorder, pool);
  }

  method ExpandFile(items: seq<Item>) returns (out: seq<Item>)
    ensures out == Rewrite(items, START)
  {
    var st := START;
    out := [];
    var i := 0;
    while i < |items|
      invariant 0 <= i <= |items|
      invariant Rewrite(items, START) == out + Rewrite(items[i..], st)
    {
      Unfold(items, i, st, out);
      var emit, st' := Advance(items[i], st);
      out := out + emit;
      st := st';
      i := i + 1;
    }
    assert items[i..] == [];
    out := out + Flush(st.pool);
  }

  lemma Unfold(items: seq<Item>, i: nat, st: St, out: seq<Item>)
    requires i < |items|
    ensures var t := Turn(items[i], st);
            out + Rewrite(items[i..], st) == (out + t.0) + Rewrite(items[i + 1..], t.1)
  {
    assert items[i..][1..] == items[i + 1..];
  }

  // ----- labels and literals -----

  function Defs(items: seq<Item>): seq<Item> {
    if items == [] then [] else (if items[0].Literal? then [items[0]] else []) + Defs(items[1..])
  }

  function Uses(items: seq<Item>): seq<Item> {
    if items == [] then [] else (if items[0].LoadLit? then [items[0]] else []) + Uses(items[1..])
  }

  function Floats(items: seq<Item>): seq<Item> {
    if items == [] then [] else (if items[0].LiFloat? then [items[0]] else []) + Floats(items[1..])
  }

  /** cc1's file: neither pool entries nor loads from the pool yet. */
  predicate Source(items: seq<Item>) {
    forall k :: 0 <= k < |items| ==> !items[k].Literal? && !items[k].LoadLit?
  }

  lemma DefsHead(x: seq<Item>, y: seq<Item>)
    requires x != []
    ensures Defs(x + y) == (if x[0].Literal? then [x[0]] else []) + Defs(x[1..] + y)
  {
    assert (x + y)[1..] == x[1..] + y;
  }

  lemma {:induction false} DefsAppend(x: seq<Item>, y: seq<Item>)
    ensures Defs(x + y) == Defs(x) + Defs(y)
    decreases |x|
  {
    if x == [] {
      assert x + y == y;
    } else {
      DefsAppend(x[1..], y);
      DefsHead(x, y);
    }
  }

  lemma UsesHead(x: seq<Item>, y: seq<Item>)
    requires x != []
    ensures Uses(x + y) == (if x[0].LoadLit? then [x[0]] else []) + Uses(x[1..] + y)
  {
    assert (x + y)[1..] == x[1..] + y;
  }

  lemma {:induction false} UsesAppend(x: seq<Item>, y: seq<Item>)
    ensures Uses(x + y) == Uses(x) + Uses(y)
    decreases |x|
  {
    if x == [] {
      assert x + y == y;
    } else {
      UsesAppend(x[1..], y);
      UsesHead(x, y);
    }
  }

  lemma {:induction false} NoneOf(x: seq<Item>)
    requires forall k :: 0 <= k < |x| ==> !x[k].Literal? && !x[k].LoadLit?
    ensures Defs(x) == [] && Uses(x) == []
    decreases |x|
  {
    if x != [] {
      NoneOf(x[1..]);
    }
  }

  lemma {:induction false} AllOf(x: seq<Item>)
    requires forall k :: 0 <= k < |x| ==> x[k].Literal?
    ensures Defs(x) == x && Uses(x) == []
    decreases |x|
  {
    if x != [] {
      AllOf(x[1..]);
      assert x == [x[0]] + x[1..];
    }
  }

  predicate PoolOk(st: St) {
    forall k :: 0 <= k < |st.pool| ==> st.pool[k].Literal?
  }

  lemma DefsOfFlush(pool: seq<Item>)
    requires forall k :: 0 <= k < |pool| ==> pool[k].Literal?
    ensures Defs(Flush(pool)) == pool && Uses(Flush(pool)) == []
  {
    AllOf(pool);
    NoneOf([Section(Absolute(RODATA))]);
    DefsAppend([Section(Absolute(RODATA))], pool);
    UsesAppend([Section(Absolute(RODATA))], pool);
  }

  /** What the output owes one turn: its own lines are no literals, and load one
      only for a float. */
  predicate OwnOk(item: Item, n: nat, own: seq<Item>) {
    (forall k :: 0 <= k < |own| ==> !own[k].Literal?) &&
    if item.LiFloat? then own == [LoadLit(n, item.double, item.freg)]
    else forall k :: 0 <= k < |own| ==> !own[k].LoadLit?
  }

  lemma OwnKinds(item: Item, st: St)
    requires !item.Literal? && !item.LoadLit?
    ensures OwnOk(item, NextSt(item, st).n, Own(item, st))
    ensures if item.Section? then Own(item, st) == [item]
            else forall k :: 0 <= k < |Own(item, st)| ==> !Own(item, st)[k].Section?
  {
  }

  lemma DefsOfTurn(item: Item, pool: seq<Item>, n: nat, own: seq<Item>)
    requires OwnOk(item, n, own)
    requires forall k :: 0 <= k < |pool| ==> pool[k].Literal?
    ensures Defs(FlushedBy(item, pool) + own) + PoolBehind(item, pool, n) ==
            pool + (if item.LiFloat? then [Literal(n, item.double, item.value)] else [])
  {
    DefsAppend(FlushedBy(item, pool), own);
    DefsOfFlush(pool);
    if item.LiFloat? {
      assert own[1..] == [];
    } else {
      NoneOf(own);
    }
  }

  lemma UsesOfTurn(item: Item, pool: seq<Item>, n: nat, own: seq<Item>)
    requires OwnOk(item, n, own)
    requires forall k :: 0 <= k < |pool| ==> pool[k].Literal?
    ensures Uses(FlushedBy(item, pool) + own) == if item.LiFloat? then [LoadLit(n, item.double, item.freg)] else []
  {
    UsesAppend(FlushedBy(item, pool), own);
    DefsOfFlush(pool);
    if item.LiFloat? {
      assert own[1..] == [];
    } else {
      NoneOf(own);
    }
  }

  /** The pool's entry for one float, and the load that takes its place. */
  function Entry(item: Item, n: nat): Item {
    if item.LiFloat? then Literal(n, item.double, item.value) else item
  }

  function Load(item: Item, n: nat): Item {
    if item.LiFloat? then LoadLit(n, item.double, item.freg) else item
  }

  function EntryFor(floats: seq<Item>, first: nat): seq<Item>
    decreases |floats|
  {
    if floats == [] then [] else [Entry(floats[0], first)] + EntryFor(floats[1..], first + 1)
  }

  function LoadFor(floats: seq<Item>, first: nat): seq<Item>
    decreases |floats|
  {
    if floats == [] then [] else [Load(floats[0], first)] + LoadFor(floats[1..], first + 1)
  }

  lemma {:induction false} EntryAt(floats: seq<Item>, first: nat)
    ensures |EntryFor(floats, first)| == |LoadFor(floats, first)| == |floats|
    ensures forall k :: 0 <= k < |floats| ==> EntryFor(floats, first)[k] == Entry(floats[k], first + k)
    ensures forall k :: 0 <= k < |floats| ==> LoadFor(floats, first)[k] == Load(floats[k], first + k)
    decreases |floats|
  {
    if floats != [] {
      EntryAt(floats[1..], first + 1);
    }
  }

  lemma {:induction false} OnlyFloats(items: seq<Item>)
    ensures forall k :: 0 <= k < |Floats(items)| ==> Floats(items)[k].LiFloat?
    decreases |items|
  {
    if items != [] {
      OnlyFloats(items[1..]);
    }
  }

  lemma {:induction false} LiteralsInOrder(items: seq<Item>, st: St)
    requires Source(items) && PoolOk(st)
    ensures Defs(Rewrite(items, st)) == st.pool + EntryFor(Floats(items), st.n + 1)
    ensures Uses(Rewrite(items, st)) == LoadFor(Floats(items), st.n + 1)
    decreases |items|
  {
    if items == [] {
      DefsOfFlush(st.pool);
    } else {
      var item, st' := items[0], NextSt(items[0], st);
      OwnKinds(item, st);
      LiteralsInOrder(items[1..], st');
      LiteralsStep(item, st.pool, st'.n, Own(item, st), Floats(items[1..]), Rewrite(items[1..], st'));
    }
  }

  lemma LiteralsStep(item: Item, pool: seq<Item>, n: nat, own: seq<Item>, floats: seq<Item>, rest: seq<Item>)
    requires OwnOk(item, n, own)
    requires forall k :: 0 <= k < |pool| ==> pool[k].Literal?
    requires Defs(rest) == PoolBehind(item, pool, n) + EntryFor(floats, n + 1)
    requires Uses(rest) == LoadFor(floats, n + 1)
    ensures var all := (if item.LiFloat? then [item] else []) + floats;
            var first := if item.LiFloat? then n else n + 1;
            Defs(FlushedBy(item, pool) + own + rest) == pool + EntryFor(all, first) &&
            Uses(FlushedBy(item, pool) + own + rest) == LoadFor(all, first)
  {
    DefsOfTurn(item, pool, n, own);
    UsesOfTurn(item, pool, n, own);
    DefsAppend(FlushedBy(item, pool) + own, rest);
    UsesAppend(FlushedBy(item, pool) + own, rest);
    Assoc(Defs(FlushedBy(item, pool) + own), PoolBehind(item, pool, n), EntryFor(floats, n + 1));
    if item.LiFloat? {
      Assoc(pool, [Literal(n, item.double, item.value)], EntryFor(floats, n + 1));
    } else {
      assert [] + floats == floats && pool + [] == pool && [] + LoadFor(floats, n + 1) == LoadFor(floats, n + 1);
    }
  }

  lemma NumberedFrom(floats: seq<Item>, k: nat)
    requires k < |floats| && floats[k].LiFloat?
    ensures |EntryFor(floats, 1)| == |LoadFor(floats, 1)| == |floats|
    ensures EntryFor(floats, 1)[k] == Literal(k + 1, floats[k].double, floats[k].value)
    ensures LoadFor(floats, 1)[k] == LoadLit(k + 1, floats[k].double, floats[k].freg)
  {
    EntryAt(floats, 1);
    assert EntryFor(floats, 1)[k] == Entry(floats[k], 1 + k);
    assert LoadFor(floats, 1)[k] == Load(floats[k], 1 + k);
  }

  lemma PoolOfFile(items: seq<Item>)
    requires Source(items)
    ensures var floats, out := Floats(items), Rewrite(items, START);
            |Defs(out)| == |Uses(out)| == |floats| &&
            forall k :: 0 <= k < |floats| ==>
              floats[k].LiFloat? &&
              Defs(out)[k] == Literal(k + 1, floats[k].double, floats[k].value) &&
              Uses(out)[k] == LoadLit(k + 1, floats[k].double, floats[k].freg)
  {
    LiteralsInOrder(items, START);
    OnlyFloats(items);
    EntryAt(Floats(items), 1);
    forall k | 0 <= k < |Floats(items)|
      ensures var f := Floats(items)[k];
              f.LiFloat? && EntryFor(Floats(items), 1)[k] == Literal(k + 1, f.double, f.value) &&
              LoadFor(Floats(items), 1)[k] == LoadLit(k + 1, f.double, f.freg)
    {
      NumberedFrom(Floats(items), k);
    }
  }
}
