/** The division macros of a whole file: wherever cc1 wrote one, the file that
    tools/sn_li.py writes divides. */
module SnLiFile {
  import opened Prelude
  import opened Mips
  import opened SnLiDivide
  import opened SnLi
  import opened SnLiPool

  /** The lines an item stands for. Loads of literals and the lines sn_li.py
      leaves to gas are instructions that do not branch. */
  function Lower(item: Item): seq<Line> {
    match item
    case Asm(line) => [line]
    case Section(_) => [Dir(Text(".section"))]
    case Literal(n, _, _) => [Dir(Text(".align")), Mark(Lit(n)), Dir(Text(".float"))]
    case LoadLit(n, _, _) => [Code([], Plain(2 * n)), Code([], Plain(2 * n + 1))]
    case _ => [Code([], Plain(0))]
  }

  function Flat(items: seq<Item>): seq<Line> {
    if items == [] then [] else Lower(items[0]) + Flat(items[1..])
  }

  lemma {:induction false} FlatAppend(x: seq<Item>, y: seq<Item>)
    ensures Flat(x + y) == Flat(x) + Flat(y)
    decreases |x|
  {
    if x == [] {
      assert x + y == y;
    } else {
      assert (x + y)[1..] == x[1..] + y;
      FlatAppend(x[1..], y);
    }
  }

  lemma {:induction false} FlatOfLines(lines: seq<Line>)
    ensures Flat(AsItems(lines)) == lines
    decreases |lines|
  {
    if lines != [] {
      assert AsItems(lines)[1..] == AsItems(lines[1..]);
      FlatOfLines(lines[1..]);
      assert lines == [lines[0]] + lines[1..];
    }
  }

  lemma {:induction false} ModeAppend(x: seq<Line>, y: seq<Line>, nr: bool)
    ensures NrThrough(x + y, nr) == NrThrough(y, NrThrough(x, nr))
    decreases |x|
  {
    if x == [] {
      assert x + y == y;
    } else {
      assert (x + y)[1..] == x[1..] + y;
      ModeAppend(x[1..], y, NrAfter(x[0], nr));
    }
  }

  predicate IsDivLabel(l: Label) { l.DivA? || l.DivB? }

  /** cc1's own lines define none of sn_li.py's labels. */
  ghost predicate OwnLabels(items: seq<Item>) {
    forall k, l :: 0 <= k < |items| && items[k].Asm? && IsDivLabel(l) ==> !Defines(items[k].line, l)
  }

  /** `x` leaves the mode at `nr'`, and of the division labels defines at most
      those numbered `div`. */
  ghost predicate Clean(x: seq<Line>, nr: bool, nr': bool, div: nat) {
    NrThrough(x, nr) == nr' &&
    forall k, l :: 0 <= k < |x| && Defines(x[k], l) && IsDivLabel(l) ==> l.n == div
  }

  lemma CleanAppend(x: seq<Line>, y: seq<Line>, nr: bool, nr1: bool, nr2: bool, div: nat)
    requires Clean(x, nr, nr1, div) && Clean(y, nr1, nr2, div)
    ensures Clean(x + y, nr, nr2, div)
  {
    ModeAppend(x, y, nr);
  }

  lemma {:induction false} ExpandClean(op: DivOp, rd: Reg, rs: Reg, rt: Reg, n: nat, nr: bool)
    ensures Clean(Expand(op, rd, rs, rt, n, nr), nr, nr, n)
  {
    var a, b, fin := BeforeA(op, rs, rt, n, nr), BetweenAB(rs, rt, n), Finish(op, rd, nr);
    ExpandParts(op, rd, rs, rt, n, nr);
    ModeBeforeA(op, rs, rt, n, nr);
    FinishClean(op, rd, nr, n);
    if op.unsigned {
      ModeOfPlain([Mark(DivA(n))], true);
      CleanAppend([Mark(DivA(n))], fin, true, true, nr, n);
    } else {
      ModeOfPlain(b, true);
      ModeOfPlain([Mark(DivB(n))], true);
      CleanAppend([Mark(DivB(n))], fin, true, true, nr, n);
      CleanAppend(b, [Mark(DivB(n))] + fin, true, true, nr, n);
    }
    CleanAppend(a, AfterZeroCheck(op, rd, rs, rt, n, nr), nr, true, nr, n);
  }

  lemma FinishClean(op: DivOp, rd: Reg, nr: bool, n: nat)
    ensures Clean(Finish(op, rd, nr), true, nr, n)
  {
    var x := [Code([], MoveFrom(if op.rem then Hi else Lo, rd)), Dir(At)];
    ModeOfPlain(x, true);
    if nr {
      assert Finish(op, rd, nr) == x;
    } else {
      assert Finish(op, rd, nr) == x + [Dir(Reorder)];
      ModeAppend(x, [Dir(Reorder)], true);
    }
  }

  lemma OneLine(item: Item, nr: bool, nr': bool, div: nat)
    requires Clean(Lower(item), nr, nr', div)
    ensures Clean(Flat([item]), nr, nr', div)
  {
    assert Flat([item][1..]) == [];
    assert Flat([item]) == Lower(item);
  }

  lemma LowerClean(item: Item, nr: bool, div: nat)
    requires OwnLabels([item])
    ensures Clean(Lower(item), nr, ModeAfter(item, nr), div)
  {
    assert [item][0] == item;
    if item.Asm? {
      assert NrThrough([item.line][1..], NrAfter(item.line, nr)) == NrAfter(item.line, nr);
    } else {
      ModeOfPlain(Lower(item), nr);
    }
  }

  lemma OwnClean(item: Item, st: St)
    requires OwnLabels([item])
    ensures Clean(Flat(Own(item, st)), st.nr, NextSt(item, st).nr, st.ndiv + 1)
  {
    if item.DivMacro? {
      FlatOfLines(Expand(item.op, item.rd, item.rs, item.rt, st.ndiv + 1, st.nr));
      ExpandClean(item.op, item.rd, item.rs, item.rt, st.ndiv + 1, st.nr);
    } else if item.Access? && ExpandMem(item.mop, item.mrt, item.off, item.base).Some? {
      FlatOfLines(ExpandMem(item.mop, item.mrt, item.off, item.base).value);
      ModeOfPlain(ExpandMem(item.mop, item.mrt, item.off, item.base).value, st.nr);
    } else {
      OwnIsOne(item, st);
      LowerClean(Own(item, st)[0], st.nr, st.ndiv + 1);
      OneLine(Own(item, st)[0], st.nr, NextSt(item, st).nr, st.ndiv + 1);
    }
  }

  lemma OwnIsOne(item: Item, st: St)
    requires OwnLabels([item]) && !item.DivMacro?
    requires item.Access? ==> ExpandMem(item.mop, item.mrt, item.off, item.base).None?
    ensures var own := Own(item, st);
            |own| == 1 && own == [own[0]] && OwnLabels(own) && ModeAfter(own[0], st.nr) == ModeAfter(item, st.nr)
  {
    assert [item][0] == item;
  }

  lemma {:induction false} PoolClean(pool: seq<Item>, nr: bool, div: nat)
    requires forall k :: 0 <= k < |pool| ==> pool[k].Literal? || pool[k].Section?
    ensures Clean(Flat(pool), nr, nr, div)
    decreases |pool|
  {
    if pool != [] {
      PoolClean(pool[1..], nr, div);
      ModeOfPlain(Lower(pool[0]), nr);
      ModeAppend(Lower(pool[0]), Flat(pool[1..]), nr);
    }
  }

  /** The loop's variables behind the first `i` lines, and what is written by then. */
  function StAt(items: seq<Item>, i: nat): St
    requires i <= |items|
  {
    if i == 0 then START else NextSt(items[i - 1], StAt(items, i - 1))
  }

  function Written(items: seq<Item>, i: nat): seq<Item>
    requires i <= |items|
  {
    if i == 0 then [] else Written(items, i - 1) + Turn(items[i - 1], StAt(items, i - 1)).0
  }

  lemma {:induction false} WrittenThenRest(items: seq<Item>, i: nat)
    requires i <= |items|
    ensures Rewrite(items, START) == Written(items, i) + Rewrite(items[i..], StAt(items, i))
    decreases i
  {
    if i > 0 {
      WrittenThenRest(items, i - 1);
      Unfold(items, i - 1, StAt(items, i - 1), Written(items, i - 1));
    } else {
      assert items[0..] == items;
    }
  }

  /** A beginning of the file that ends in mode `nr` and defines division labels
      numbered up to `i` only. */
  ghost predicate CleanUpTo(x: seq<Line>, nr: bool, i: nat) {
    NrThrough(x, false) == nr &&
    forall k, l :: 0 <= k < |x| && Defines(x[k], l) && IsDivLabel(l) ==> l.n <= i
  }

  lemma CleanLonger(x: seq<Line>, y: seq<Line>, nr: bool, nr': bool, i: nat)
    requires CleanUpTo(x, nr, i) && Clean(y, nr, nr', i + 1)
    ensures CleanUpTo(x + y, nr', i + 1)
  {
    ModeAppend(x, y, false);
  }

  lemma TurnClean(item: Item, st: St)
    requires OwnLabels([item]) && PoolOk(st)
    ensures Clean(Flat(Turn(item, st).0), st.nr, NextSt(item, st).nr, st.ndiv + 1)
  {
    var flush, own := FlushedBy(item, st.pool), Own(item, st);
    PoolClean(flush, st.nr, st.ndiv + 1);
    OwnClean(item, st);
    FlatAppend(flush, own);
    CleanAppend(Flat(flush), Flat(own), st.nr, st.nr, NextSt(item, st).nr, st.ndiv + 1);
  }

  ghost predicate Invariant(out: seq<Item>, st: St) {
    PoolOk(st) && CleanUpTo(Flat(out), st.nr, st.ndiv)
  }

  lemma InvariantKept(out: seq<Item>, st: St, item: Item)
    requires Invariant(out, st) && OwnLabels([item])
    ensures Invariant(out + Turn(item, st).0, NextSt(item, st))
  {
    var emit := Turn(item, st).0;
    TurnClean(item, st);
    FlatAppend(out, emit);
    CleanLonger(Flat(out), Flat(emit), st.nr, NextSt(item, st).nr, st.ndiv);
  }

  lemma OwnLabelsAt(items: seq<Item>, k: nat)
    requires k < |items| && OwnLabels(items)
    ensures OwnLabels([items[k]])
  {
  }

  lemma {:induction false} LineNumbers(items: seq<Item>, i: nat)
    requires i <= |items|
    ensures StAt(items, i).ndiv == i
  {
    if i > 0 {
      LineNumbers(items, i - 1);
    }
  }

  lemma {:induction false} WrittenClean(items: seq<Item>, i: nat)
    requires i <= |items| && OwnLabels(items)
    ensures Invariant(Written(items, i), StAt(items, i))
    decreases i
  {
    if i > 0 {
      WrittenClean(items, i - 1);
      OwnLabelsAt(items, i - 1);
      InvariantKept(Written(items, i - 1), StAt(items, i - 1), items[i - 1]);
    }
  }

  /** The file cut at its `i`-th line, one that is no section directive. */
  lemma CutAt(items: seq<Item>, i: nat, st: St, own: seq<Item>, rest: seq<Item>)
    requires i < |items| && st == StAt(items, i) && !items[i].Section? && own == Own(items[i], st)
    requires rest == Rewrite(items[i + 1..], NextSt(items[i], st))
    ensures Flat(Rewrite(items, START)) == Flat(Written(items, i)) + (Flat(own) + Flat(rest))
  {
    WrittenThenRest(items, i);
    assert items[i..][1..] == items[i + 1..] && items[i..][0] == items[i];
    TurnInPlace(items[i..], st, own);
    FlatAppend(Written(items, i), own + rest);
    FlatAppend(own, rest);
  }

  function ExpandOf(item: Item, n: nat, nr: bool): seq<Line>
    requires item.DivMacro?
  {
    Expand(item.op, item.rd, item.rs, item.rt, n, nr)
  }

  lemma OwnMacro(item: Item, st: St)
    requires item.DivMacro?
    ensures Own(item, st) == AsItems(ExpandOf(item, st.ndiv + 1, st.nr))
  {
    assert NextSt(item, st).nr == st.nr && NextSt(item, st).ndiv == st.ndiv + 1;
  }

  /** A turn that flushes nothing. */
  lemma TurnInPlace(items: seq<Item>, st: St, own: seq<Item>)
    requires items != [] && !items[0].Section? && own == Own(items[0], st)
    ensures Rewrite(items, st) == own + Rewrite(items[1..], NextSt(items[0], st))
  {
    assert [] + own == own;
  }

  lemma StandsBehind(items: seq<Item>, i: nat)
    requires i <= |items| && OwnLabels(items)
    ensures StandsIn(Flat(Written(items, i)), i + 1, StAt(items, i).nr)
  {
    WrittenClean(items, i);
    LineNumbers(items, i);
    assert IsDivLabel(DivA(i + 1)) && IsDivLabel(DivB(i + 1));
  }

  lemma CutLines(items: seq<Item>, i: nat, st: St, code: seq<Line>, rest: seq<Item>)
    requires i < |items| && st == StAt(items, i) && !items[i].Section? && AsItems(code) == Own(items[i], st)
    requires rest == Rewrite(items[i + 1..], NextSt(items[i], st))
    ensures Flat(Rewrite(items, START)) == Flat(Written(items, i)) + (code + Flat(rest))
  {
    CutAt(items, i, st, AsItems(code), rest);
    FlatOfLines(code);
  }

  /** Where the `i`-th line's division macro stands in the file that is written. */
  lemma MacroStands(items: seq<Item>, i: nat) returns (pre: seq<Line>, post: seq<Line>, nr: bool)
    requires OwnLabels(items) && i < |items| && items[i].DivMacro?
    ensures Flat(Rewrite(items, START)) == pre + (ExpandOf(items[i], i + 1, nr) + post)
    ensures StandsIn(pre, i + 1, nr)
  {
    var st := StAt(items, i);
    nr := st.nr;
    pre, post := Flat(Written(items, i)), Flat(Rewrite(items[i + 1..], NextSt(items[i], st)));
    StandsBehind(items, i);
    LineNumbers(items, i);
    OwnMacro(items[i], st);
    CutLines(items, i, st, ExpandOf(items[i], i + 1, nr), Rewrite(items[i + 1..], NextSt(items[i], st)));
  }

  /** In the file sn_li.py writes, the place of every division macro divides: the
      machine traps on a zero divisor and on INT_MIN / -1 and otherwise reaches
      the next line with the truncated result, whatever surrounds the macro. */
  lemma DivisionsOfFile(env: Env, items: seq<Item>, i: nat, m: Mach) returns (pre: seq<Line>, post: seq<Line>, nr: bool)
    requires OwnLabels(items) && DividesRight(env)
    requires i < |items| && items[i].DivMacro? && OperandsOk(items[i].op, items[i].rs, items[i].rt)
    ensures Flat(Rewrite(items, START)) == pre + (ExpandOf(items[i], i + 1, nr) + post)
    ensures StandsIn(pre, i + 1, nr)
    ensures OwedFrom(env, items[i].op, items[i].rd, items[i].rs, items[i].rt, i + 1, nr, pre, post, m)
  {
    var d := items[i];
    pre, post, nr := MacroStands(items, i);
    DivideRuns(env, d.op, d.rd, d.rs, d.rt, i + 1, nr, pre, post, m);
  }
}
