/** When the file tools/sn_li.py writes is fit for tools/sn_hilo.py: a condition on
    cc1's own lines, whatever is expanded between them. */
module SnFit {
  import opened Prelude
  import opened Mips
  import opened SnHilo
  import opened SnHiloPlaces
  import opened SnLiDivide
  import opened SnLi
  import opened SnLiFile
  import SnLiPool

  type Item = SnLiPool.Item

  // ----- fit in any state of the filter -----

  /** The next instruction, which is the slot of a branch in front of `lines`. */
  function NextIns(lines: seq<Line>): Option<Instr> {
    if lines == [] then None else if lines[0].Code? then Some(lines[0].ins) else NextIns(lines[1..])
  }

  lemma {:induction false} NextIsSlot(lines: seq<Line>, nr: bool)
    ensures var slot := SlotOf(Place(nr, lines));
            NextIns(lines) == if slot.Some? then Some(slot.value.0) else None
    decreases |lines|
  {
    if lines != [] && !lines[0].Code? {
      NextIsSlot(lines[1..], NrAfter(lines[0], nr));
    }
  }

  predicate Calm(ins: Instr) { !ins.Branch? && KindOf(ins) != Write }

  predicate CalmNext(lines: seq<Line>) {
    var next := NextIns(lines);
    next.Some? ==> Calm(next.value)
  }

  /** A HI/LO write on the very next line, free to move if it is one that moves. */
  predicate FreeWrite(branch: Line, slot: Line)
    requires branch.Code? && branch.ins.Branch?
  {
    slot.Code? && KindOf(slot.ins) == Write &&
    (Movable(slot) ==>
      branch.labels == [] && slot.labels == [] &&
      (branch.ins.link.Some? ==> !Reads(slot.ins, branch.ins.link.value)))
  }

  predicate IsBranch(line: Line) { line.Code? && line.ins.Branch? }

  predicate HeadFits(line: Line, rest: seq<Line>, nr: bool) {
    IsBranch(line) && nr ==> CalmNext(rest) || (rest != [] && FreeWrite(line, rest[0]))
  }

  predicate AlwaysFit(lines: seq<Line>, nr: bool)
    decreases |lines|
  {
    lines == [] || (HeadFits(lines[0], lines[1..], nr) && AlwaysFit(lines[1..], NrAfter(lines[0], nr)))
  }

  lemma {:induction false} NotPadded(rest: seq<Line>, st: St)
    requires CalmNext(rest)
    ensures !PadsFirst(rest, st)
    decreases |rest|
  {
    if rest != [] && !rest[0].Code? {
      NotPadded(rest[1..], AfterText(rest[0], st));
    }
  }

  lemma HeadOk(lines: seq<Line>, st: St)
    requires lines != [] && HeadFits(lines[0], lines[1..], st.nr)
    ensures BranchOk(lines, st)
  {
    if IsBranch(lines[0]) && st.nr {
      NextIsSlot(lines[1..], true);
      if CalmNext(lines[1..]) {
        NotPadded(lines[1..], Loop(lines, st).st);
      }
    }
  }

  lemma {:induction false} FitIsWellFormed(lines: seq<Line>, st: St)
    requires AlwaysFit(lines, st.nr)
    ensures WellFormed(lines, st)
    decreases |lines|
  {
    if lines != [] {
      var t := Loop(lines, st);
      HeadOk(lines, st);
      TurnKeepsMode(lines, st);
      if t.used == 2 {
        assert lines[1..][0] == lines[1] && lines[1..][1..] == lines[2..];
      }
      FitIsWellFormed(lines[t.used..], t.st);
    }
  }

  // ----- pieces put in front -----

  /** Fit whatever comes behind: a branch has its slot inside. */
  predicate Closed(x: seq<Line>, nr: bool)
    decreases |x|
  {
    x == [] ||
    ((IsBranch(x[0]) && nr ==> |x| > 1 && x[1].Code? && Calm(x[1].ins)) &&
     Closed(x[1..], NrAfter(x[0], nr)))
  }

  lemma {:induction false} ClosedFits(x: seq<Line>, y: seq<Line>, nr: bool)
    requires Closed(x, nr) && AlwaysFit(y, NrThrough(x, nr))
    ensures AlwaysFit(x + y, nr)
    decreases |x|
  {
    if x == [] {
      assert x + y == y;
    } else {
      assert (x + y)[1..] == x[1..] + y;
      if IsBranch(x[0]) && nr {
        assert (x[1..] + y)[0] == x[1];
      }
      ClosedFits(x[1..], y, NrAfter(x[0], nr));
    }
  }

  lemma {:induction false} NoBranchClosed(x: seq<Line>, nr: bool)
    requires forall k :: 0 <= k < |x| ==> !IsBranch(x[k])
    ensures Closed(x, nr)
    decreases |x|
  {
    if x != [] {
      NoBranchClosed(x[1..], NrAfter(x[0], nr));
    }
  }

  lemma ClosedCons(line: Line, rest: seq<Line>, nr: bool)
    requires Closed(rest, NrAfter(line, nr))
    requires IsBranch(line) && nr ==> rest != [] && rest[0].Code? && Calm(rest[0].ins)
    ensures Closed([line] + rest, nr)
  {
    assert ([line] + rest)[1..] == rest;
  }

  lemma FinishClosed(op: DivOp, rd: Reg, nr: bool)
    ensures Closed(Finish(op, rd, nr), true)
  {
    NoBranchClosed(Finish(op, rd, nr), true);
  }

  lemma BranchOverBreak(code: nat, cond: Cond, l: Label, rest: seq<Line>)
    requires Closed(rest, true)
    ensures Closed([Code([], Branch(cond, false, None, ToLabel(l)))] + ([Code([], Nop)] + ([Code([], Break(code))] + rest)), true)
  {
    var brk := [Code([], Break(code))] + rest;
    ClosedCons(Code([], Break(code)), rest, true);
    ClosedCons(Code([], Nop), brk, true);
    ClosedCons(Code([], Branch(cond, false, None, ToLabel(l))), [Code([], Nop)] + brk, true);
  }

  lemma OverflowClosed(op: DivOp, rd: Reg, rs: Reg, rt: Reg, n: nat, nr: bool)
    ensures Closed(OverflowCheck(op, rd, rs, rt, n, nr), true)
  {
    var fin := [Mark(DivB(n))] + Finish(op, rd, nr);
    var brk := [Code([], Break(6))] + fin;
    var nop := [Code([], Nop)] + brk;
    var second := [Code([], Branch(Ne(rs, AT), false, None, ToLabel(DivB(n))))] + nop;
    var lui := [Code([], Lui(AT, 0x8000))] + second;
    var first := [Code([], Branch(Ne(rt, AT), false, None, ToLabel(DivB(n))))] + lui;
    FinishClosed(op, rd, nr);
    ClosedCons(Mark(DivB(n)), Finish(op, rd, nr), true);
    BranchOverBreak(6, Ne(rs, AT), DivB(n), fin);
    ClosedCons(Code([], Lui(AT, 0x8000)), second, true);
    ClosedCons(first[0], lui, true);
    ClosedCons(Code([], Li(AT, MINUS_ONE)), first, true);
  }

  lemma ZeroClosed(op: DivOp, rd: Reg, rs: Reg, rt: Reg, n: nat, nr: bool)
    ensures Closed(ZeroCheck(op, rd, rs, rt, n, nr), true)
  {
    var inner := if op.unsigned then Finish(op, rd, nr) else OverflowCheck(op, rd, rs, rt, n, nr);
    var after := [Mark(DivA(n))] + inner;
    var brk := [Code([], Break(7))] + after;
    var nop := [Code([], Nop)] + brk;
    var check := [Code([], Branch(Ne(rt, 0), false, None, ToLabel(DivA(n))))] + nop;
    FinishClosed(op, rd, nr);
    OverflowClosed(op, rd, rs, rt, n, nr);
    ClosedCons(Mark(DivA(n)), inner, true);
    BranchOverBreak(7, Ne(rt, 0), DivA(n), after);
    ClosedCons(Code([], MulDiv(if op.unsigned then Divu else Div, Some(0), rs, rt)), check, true);
  }

  lemma ExpandClosed(op: DivOp, rd: Reg, rs: Reg, rt: Reg, n: nat, nr: bool)
    ensures Closed(Expand(op, rd, rs, rt, n, nr), nr)
  {
    var zero := ZeroCheck(op, rd, rs, rt, n, nr);
    ZeroClosed(op, rd, rs, rt, n, nr);
    ClosedCons(Dir(Noat), zero, true);
    if nr {
      assert Expand(op, rd, rs, rt, n, nr) == [Dir(Noat)] + zero;
    } else {
      ClosedCons(Dir(Noreorder), [Dir(Noat)] + zero, nr);
    }
  }

  // ----- cc1's lines -----

  /** Items that put no instruction in their place. */
  predicate IsText(item: Item) { item.Section? || item.Literal? || (item.Asm? && !item.line.Code?) }

  /** The next instruction is no branch, no HI/LO write and no division macro. */
  predicate CalmItems(items: seq<Item>) {
    items == [] ||
    if IsText(items[0]) then CalmItems(items[1..])
    else !items[0].DivMacro? && (items[0].Asm? ==> Calm(items[0].line.ins))
  }

  predicate BranchItem(item: Item) { item.Asm? && IsBranch(item.line) }

  /** In front of `rest` a branch with a slot is fit to rewrite. */
  predicate ItemFits(item: Item, rest: seq<Item>, nr: bool) {
    BranchItem(item) && nr ==>
      CalmItems(rest) || (rest != [] && rest[0].Asm? && FreeWrite(item.line, rest[0].line))
  }

  predicate ItemsFit(items: seq<Item>, nr: bool) {
    items == [] || (ItemFits(items[0], items[1..], nr) && ItemsFit(items[1..], SnLiPool.ModeAfter(items[0], nr)))
  }

  predicate Texts(x: seq<Line>) { forall k :: 0 <= k < |x| ==> !x[k].Code? }

  lemma {:induction false} NextBehindTexts(x: seq<Line>, y: seq<Line>)
    requires Texts(x)
    ensures NextIns(x + y) == NextIns(y)
    decreases |x|
  {
    if x == [] {
      assert x + y == y;
    } else {
      assert (x + y)[1..] == x[1..] + y;
      NextBehindTexts(x[1..], y);
    }
  }

  lemma {:induction false} PoolTexts(pool: seq<Item>)
    requires forall k :: 0 <= k < |pool| ==> pool[k].Literal? || pool[k].Section?
    ensures Texts(Flat(pool))
    decreases |pool|
  {
    if pool != [] {
      PoolTexts(pool[1..]);
    }
  }

  lemma FlatOne(item: Item)
    ensures Flat([item]) == Lower(item)
  {
    assert [item][1..] == [];
  }

  /** What one item puts in its place: its own line if cc1 wrote an instruction or a
      text, and otherwise lines that are fit whatever follows them. */
  predicate InItsPlace(item: Item, own: seq<Line>, nr: bool) {
    if item.Asm? then own == [item.line]
    else
      Closed(own, nr) && (IsText(item) ==> Texts(own)) &&
      (!IsText(item) && !item.DivMacro? ==> own != [] && own[0].Code? && Calm(own[0].ins))
  }

  lemma MacroLines(item: Item, st: SnLiPool.St)
    requires item.DivMacro?
    ensures InItsPlace(item, Flat(SnLiPool.Own(item, st)), st.nr)
  {
    OwnMacro(item, st);
    FlatOfLines(ExpandOf(item, st.ndiv + 1, st.nr));
    ExpandClosed(item.op, item.rd, item.rs, item.rt, st.ndiv + 1, st.nr);
  }

  lemma AccessLines(item: Item, st: SnLiPool.St)
    requires item.Access? && ExpandMem(item.mop, item.mrt, item.off, item.base).Some?
    ensures InItsPlace(item, Flat(SnLiPool.Own(item, st)), st.nr)
  {
    var lines := ExpandMem(item.mop, item.mrt, item.off, item.base).value;
    FlatOfLines(lines);
    NoBranchClosed(lines, st.nr);
  }

  /** Every other item puts one item in its place. */
  lemma OneItem(item: Item, st: SnLiPool.St) returns (own: Item)
    requires !item.DivMacro?
    requires item.Access? ==> ExpandMem(item.mop, item.mrt, item.off, item.base).None?
    ensures SnLiPool.Own(item, st) == [own] && (item.Asm? ==> own == item) && (IsText(item) ==> own == item)
    ensures !item.Asm? ==> forall k :: 0 <= k < |Lower(own)| ==> !IsBranch(Lower(own)[k])
    ensures !IsText(item) && !item.Asm? ==> Lower(own)[0].Code? && Calm(Lower(own)[0].ins)
  {
    own := SnLiPool.Own(item, st)[0];
  }

  lemma OwnLines(item: Item, st: SnLiPool.St)
    ensures InItsPlace(item, Flat(SnLiPool.Own(item, st)), st.nr)
  {
    if item.DivMacro? {
      MacroLines(item, st);
    } else if item.Access? && ExpandMem(item.mop, item.mrt, item.off, item.base).Some? {
      AccessLines(item, st);
    } else {
      var own := OneItem(item, st);
      FlatOne(own);
      if !item.Asm? {
        NoBranchClosed(Lower(own), st.nr);
      }
    }
  }

  lemma TurnItems(items: seq<Item>, st: SnLiPool.St)
    requires items != []
    ensures SnLiPool.Rewrite(items, st) ==
            (SnLiPool.FlushedBy(items[0], st.pool) + SnLiPool.Own(items[0], st)) +
            SnLiPool.Rewrite(items[1..], SnLiPool.NextSt(items[0], st))
  {
  }

  lemma FlatThree(a: seq<Item>, b: seq<Item>, c: seq<Item>)
    ensures Flat((a + b) + c) == Flat(a) + (Flat(b) + Flat(c))
  {
    FlatAppend(a + b, c);
    FlatAppend(a, b);
    Assoc(Flat(a), Flat(b), Flat(c));
  }

  lemma TurnLines(items: seq<Item>, st: SnLiPool.St)
    requires items != []
    ensures Flat(SnLiPool.Rewrite(items, st)) ==
            Flat(SnLiPool.FlushedBy(items[0], st.pool)) +
            (Flat(SnLiPool.Own(items[0], st)) + Flat(SnLiPool.Rewrite(items[1..], SnLiPool.NextSt(items[0], st))))
  {
    TurnItems(items, st);
    FlatThree(SnLiPool.FlushedBy(items[0], st.pool), SnLiPool.Own(items[0], st),
              SnLiPool.Rewrite(items[1..], SnLiPool.NextSt(items[0], st)));
  }

  lemma {:induction false} CalmSlot(items: seq<Item>, st: SnLiPool.St)
    requires CalmItems(items) && SnLiPool.PoolOk(st)
    ensures CalmNext(Flat(SnLiPool.Rewrite(items, st)))
    decreases |items|
  {
    if items == [] {
      PoolTexts(SnLiPool.Flush(st.pool));
      var x := Flat(SnLiPool.Flush(st.pool));
      NextBehindTexts(x, []);
      assert x + [] == x;
    } else {
      var item, st' := items[0], SnLiPool.NextSt(items[0], st);
      var flush, own := Flat(SnLiPool.FlushedBy(item, st.pool)), Flat(SnLiPool.Own(item, st));
      var rest := Flat(SnLiPool.Rewrite(items[1..], st'));
      TurnLines(items, st);
      OwnLines(item, st);
      PoolTexts(SnLiPool.FlushedBy(item, st.pool));
      NextBehindTexts(flush, own + rest);
      if IsText(item) {
        CalmSlot(items[1..], st');
        NextBehindTexts(own, rest);
      } else {
        assert (own + rest)[0] == own[0];
      }
    }
  }

  /** The line in front of what the rest of the file becomes. */
  lemma LineFits(line: Line, rest: seq<Item>, st: SnLiPool.St, nr: bool)
    requires SnLiPool.PoolOk(st) && ItemFits(SnLiPool.Asm(line), rest, nr)
    ensures HeadFits(line, Flat(SnLiPool.Rewrite(rest, st)), nr)
  {
    if IsBranch(line) && nr {
      if CalmItems(rest) {
        CalmSlot(rest, st);
      } else {
        TurnLines(rest, st);
        OwnLines(rest[0], st);
        var tail := Flat(SnLiPool.Rewrite(rest[1..], SnLiPool.NextSt(rest[0], st)));
        assert ([] + ([rest[0].line] + tail))[0] == rest[0].line;
      }
    }
  }

  lemma OwnFit(item: Item, rest: seq<Item>, st: SnLiPool.St, own: seq<Line>, tail: seq<Line>)
    requires SnLiPool.PoolOk(st) && ItemFits(item, rest, st.nr) && own == Flat(SnLiPool.Own(item, st))
    requires tail == Flat(SnLiPool.Rewrite(rest, SnLiPool.NextSt(item, st)))
    requires AlwaysFit(tail, SnLiPool.ModeAfter(item, st.nr)) && OwnLabels([item])
    ensures AlwaysFit(own + tail, st.nr)
  {
    OwnLines(item, st);
    if item.Asm? {
      LineFits(item.line, rest, SnLiPool.NextSt(item, st), st.nr);
      assert ([item.line] + tail)[1..] == tail;
    } else {
      OwnClean(item, st);
      ClosedFits(own, tail, st.nr);
    }
  }

  lemma {:induction false} ItemsAlwaysFit(items: seq<Item>, st: SnLiPool.St)
    requires SnLiPool.PoolOk(st) && ItemsFit(items, st.nr) && OwnLabels(items)
    ensures AlwaysFit(Flat(SnLiPool.Rewrite(items, st)), st.nr)
    decreases |items|
  {
    if items == [] {
      FlushFits(SnLiPool.Flush(st.pool), [], st.nr);
      assert Flat(SnLiPool.Flush(st.pool)) + [] == Flat(SnLiPool.Flush(st.pool));
    } else {
      var item, st' := items[0], SnLiPool.NextSt(items[0], st);
      ItemsAlwaysFit(items[1..], st');
      OwnLabelsAt(items, 0);
      TurnLines(items, st);
      TurnFits(item, items[1..], st, SnLiPool.FlushedBy(item, st.pool), Flat(SnLiPool.Rewrite(items[1..], st')));
    }
  }

  lemma TurnFits(item: Item, rest: seq<Item>, st: SnLiPool.St, flush: seq<Item>, tail: seq<Line>)
    requires SnLiPool.PoolOk(st) && ItemFits(item, rest, st.nr) && OwnLabels([item])
    requires flush == SnLiPool.FlushedBy(item, st.pool)
    requires tail == Flat(SnLiPool.Rewrite(rest, SnLiPool.NextSt(item, st)))
    requires AlwaysFit(tail, SnLiPool.ModeAfter(item, st.nr))
    ensures AlwaysFit(Flat(flush) + (Flat(SnLiPool.Own(item, st)) + tail), st.nr)
  {
    var own := Flat(SnLiPool.Own(item, st));
    OwnFit(item, rest, st, own, tail);
    FlushFits(flush, own + tail, st.nr);
  }

  lemma FlushFits(flush: seq<Item>, rest: seq<Line>, nr: bool)
    requires forall k :: 0 <= k < |flush| ==> flush[k].Literal? || flush[k].Section?
    requires AlwaysFit(rest, nr)
    ensures AlwaysFit(Flat(flush) + rest, nr)
  {
    PoolTexts(flush);
    PoolClean(flush, nr, 0);
    NoBranchClosed(Flat(flush), nr);
    ClosedFits(Flat(flush), rest, nr);
  }

  /** If every branch of cc1's file that has a slot is followed by an instruction that
      neither branches nor writes HI/LO and is no division macro, or on the very next
      line by a write that is free to move, then sn_hilo.py may rewrite what sn_li.py
      makes of the file. */
  lemma FitAfterExpansion(items: seq<Item>)
    requires ItemsFit(items, false) && OwnLabels(items)
    ensures WellFormed(Flat(SnLiPool.Rewrite(items, SnLiPool.START)), START)
  {
    ItemsAlwaysFit(items, SnLiPool.START);
    FitIsWellFormed(Flat(SnLiPool.Rewrite(items, SnLiPool.START)), START);
  }
}
