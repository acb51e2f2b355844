/** tools/sn_li.py: the expansion of a division macro, run on the machine.

    The hardware divide says nothing useful for a zero divisor or for the one
    signed quotient that overflows; the expansion traps there (break 7, break 6)
    and otherwise leaves the truncated quotient or remainder in rd. */
module SnLiDivide {
  import opened Prelude
  import opened Mips

  const INT_MIN: Word := 0x8000_0000
  const MINUS_ONE: Word := 0xFFFF_FFFF
  const AT: Reg := 1

  datatype DivOp = DivOp(unsigned: bool, rem: bool)    // div, divu, rem, remu

  /** `expand_div`: `n` numbers the labels, `nr` is the mode the macro stands in. */
  function Expand(op: DivOp, rd: Reg, rs: Reg, rt: Reg, n: nat, nr: bool): seq<Line> {
    (if nr then [] else [Dir(Noreorder)]) + ([Dir(Noat)] + ZeroCheck(op, rd, rs, rt, n, nr))
  }

  function ZeroCheck(op: DivOp, rd: Reg, rs: Reg, rt: Reg, n: nat, nr: bool): seq<Line> {
    [Code([], MulDiv(if op.unsigned then Divu else Div, Some(0), rs, rt))] + (
      [Code([], Branch(Ne(rt, 0), false, None, ToLabel(DivA(n))))] + ([Code([], Nop)] + (
        [Code([], Break(7))] + AfterZeroCheck(op, rd, rs, rt, n, nr))))
  }

  function AfterZeroCheck(op: DivOp, rd: Reg, rs: Reg, rt: Reg, n: nat, nr: bool): seq<Line> {
    [Mark(DivA(n))] + (if op.unsigned then Finish(op, rd, nr) else OverflowCheck(op, rd, rs, rt, n, nr))
  }

  function OverflowCheck(op: DivOp, rd: Reg, rs: Reg, rt: Reg, n: nat, nr: bool): seq<Line> {
    [Code([], Li(AT, MINUS_ONE))] + ([Code([], Branch(Ne(rt, AT), false, None, ToLabel(DivB(n))))] + (
      [Code([], Lui(AT, 0x8000))] + ([Code([], Branch(Ne(rs, AT), false, None, ToLabel(DivB(n))))] + (
        [Code([], Nop)] + ([Code([], Break(6))] + ([Mark(DivB(n))] + Finish(op, rd, nr)))))))
  }

  function Finish(op: DivOp, rd: Reg, nr: bool): seq<Line> {
    [Code([], MoveFrom(if op.rem then Hi else Lo, rd))] + ([Dir(At)] + (if nr then [] else [Dir(Reorder)]))
  }

  // ----- what a division is -----

  function Abs(x: int): nat { if x < 0 then -x else x }

  /** The quotient rounded towards zero, and the remainder it leaves. */
  function Quot(a: int, b: int): int
    requires b != 0
  {
    var q: int := Abs(a) / Abs(b);
    if (a < 0) == (b < 0) then q else -q
  }

  function Rem(a: int, b: int): int
    requires b != 0
  {
    var r := Abs(a) % Abs(b);
    if a < 0 then -r else r
  }

  lemma QuotRem(a: int, b: int)
    requires b != 0
    ensures a == b * Quot(a, b) + Rem(a, b)
    ensures Abs(Rem(a, b)) < Abs(b) && Abs(b * Quot(a, b)) <= Abs(a)
    ensures Rem(a, b) != 0 ==> ((Rem(a, b) < 0) == (a < 0))
  {
    var x: int, y: int := Abs(a), Abs(b);
    var q, r := x / y, x % y;
    assert x == y * q + r && 0 <= r < y;
    assert b * Quot(a, b) == if a < 0 then -(y * q) else y * q;
    assert 0 <= y * q by { assert 0 <= q; }
  }

  predicate Overflows(op: DivOp, a: Word, b: Word) {
    !op.unsigned && a == INT_MIN && b == MINUS_ONE
  }

  function Result(op: DivOp, a: Word, b: Word): Word
    requires b != 0
  {
    var x, y := if op.unsigned then a else Signed(a), if op.unsigned then b else Signed(b);
    Wrap(if op.rem then Rem(x, y) else Quot(x, y))
  }

  /** The divide unit is right wherever the architecture says what it does. */
  ghost predicate DividesRight(env: Env) {
    forall unsigned, a: Word, b: Word ::
      b != 0 && !Overflows(DivOp(unsigned, false), a, b) ==>
      env.muldiv(if unsigned then Divu else Div, a, b) ==
        (Result(DivOp(unsigned, true), a, b), Result(DivOp(unsigned, false), a, b))
  }

  // ----- runs -----

  /** Some number of steps leads there, past no likely branch. */
  ghost predicate Reaches(env: Env, prog: seq<Line>, s: State, o: Outcome) {
    exists n: nat :: Steps(env, prog, s, n) == o && Quiet(env, prog, s, n)
  }

  lemma Go(env: Env, prog: seq<Line>, s: State, mid: State, o: Outcome)
    requires Step(env, prog, s) == Running(mid) && !AtLikely(s) && Reaches(env, prog, mid, o)
    ensures Reaches(env, prog, s, o)
  {
    var n: nat :| Steps(env, prog, mid, n) == o && Quiet(env, prog, mid, n);
    assert Steps(env, prog, s, n + 1) == o && Quiet(env, prog, s, n + 1);
  }

  lemma Here(env: Env, prog: seq<Line>, s: State)
    ensures Reaches(env, prog, s, Running(s))
  {
    assert Steps(env, prog, s, 0) == Running(s) && Quiet(env, prog, s, 0);
  }

  lemma Stop(env: Env, prog: seq<Line>, s: State)
    requires Step(env, prog, s).Done? && !AtLikely(s)
    ensures Reaches(env, prog, s, Step(env, prog, s))
  {
    assert Steps(env, prog, s, 1) == Step(env, prog, s) && Quiet(env, prog, s, 1);
  }

  /** What the macro owes its caller, run from machine state `m` to the line
      after it: registers other than rd and $at, memory and mode unchanged. */
  predicate Owed(op: DivOp, rd: Reg, rs: Reg, rt: Reg, nr: bool, post: seq<Line>, m: Mach, o: Outcome) {
    var a, b := Get(m.core, rs), Get(m.core, rt);
    if b == 0 then o.Done? && o.why == Trap(7)
    else if Overflows(op, a, b) then o.Done? && o.why == Trap(6)
    else
      o.Running? && o.s.at == Place(nr, post) &&
      (rd != 0 ==> Get(o.s.m.core, rd) == Result(op, a, b)) &&
      Kept(m.core, o.s.m.core, rd) &&
      o.s.m.lo == Result(op.(rem := false), a, b) && o.s.m.hi == Result(op.(rem := true), a, b)
  }

  predicate Kept(c: Core, c': Core, rd: Reg) {
    c'.mem == c.mem && c'.fcc == c.fcc &&
    (forall q <- c.regs.Keys + c'.regs.Keys :: q != rd && q != AT ==> Get(c', q) == Get(c, q))
  }

  // ----- finding the labels -----

  function NrThrough(pre: seq<Line>, nr: bool): bool {
    if pre == [] then nr else NrThrough(pre[1..], NrAfter(pre[0], nr))
  }

  predicate NoneDefines(x: seq<Line>, l: Label) { forall k :: 0 <= k < |x| ==> !Defines(x[k], l) }

  lemma {:induction false} SkipPrefix(pre: seq<Line>, rest: seq<Line>, nr: bool, l: Label)
    requires NoneDefines(pre, l)
    ensures FindLabel(Place(nr, pre + rest), l) == FindLabel(Place(NrThrough(pre, nr), rest), l)
    decreases |pre|
  {
    if pre == [] {
      assert pre + rest == rest;
    } else {
      assert (pre + rest)[1..] == pre[1..] + rest;
      SkipPrefix(pre[1..], rest, NrAfter(pre[0], nr), l);
    }
  }

  /** The macro stands after `pre`, which defines none of its labels. */
  predicate StandsIn(pre: seq<Line>, n: nat, nr: bool) {
    NrThrough(pre, false) == nr && NoneDefines(pre, DivA(n)) && NoneDefines(pre, DivB(n))
  }

  /** One instruction that neither branches nor traps. */
  lemma GoCode(env: Env, prog: seq<Line>, ins: Instr, rest: seq<Line>, nr: bool, m: Mach, o: Outcome)
    requires !ins.Branch? && Exec(env, ins, m).Next?
    requires Reaches(env, prog, State(Place(nr, rest), Exec(env, ins, m).m), o)
    ensures Reaches(env, prog, State(Place(nr, [Code([], ins)] + rest), m), o)
  {
    Go(env, prog, State(Place(nr, [Code([], ins)] + rest), m), State(Place(nr, rest), Exec(env, ins, m).m), o);
  }

  lemma GoText(env: Env, prog: seq<Line>, line: Line, rest: seq<Line>, nr: bool, m: Mach, o: Outcome)
    requires !line.Code?
    requires Reaches(env, prog, State(Place(NrAfter(line, nr), rest), m), o)
    ensures Reaches(env, prog, State(Place(nr, [line] + rest), m), o)
  {
    Go(env, prog, State(Place(nr, [line] + rest), m), State(Place(NrAfter(line, nr), rest), m), o);
  }

  /** `bne rs,rt,l` with its slot, in noreorder mode. */
  lemma GoBne(env: Env, prog: seq<Line>, rs: Reg, rt: Reg, l: Label, slot: Instr, rest: seq<Line>, m: Mach, o: Outcome)
    requires !slot.Branch? && Exec(env, slot, m).Next?
    requires if Get(m.core, rs) == Get(m.core, rt)
             then Reaches(env, prog, State(Place(true, rest), Exec(env, slot, m).m), o)
             else Where(prog, AtLabel(l)).Some? &&
                  Reaches(env, prog, State(Where(prog, AtLabel(l)).value, Exec(env, slot, m).m), o)
    ensures Reaches(env, prog, State(Place(true, [Code([], Branch(Ne(rs, rt), false, None, ToLabel(l)))] +
                                                 ([Code([], slot)] + rest)), m), o)
  {
    var b := Branch(Ne(rs, rt), false, None, ToLabel(l));
    var after := [Code([], slot)] + rest;
    var s := State(Place(true, [Code([], b)] + after), m);
    assert SlotOf(Place(true, after)) == Some((slot, Place(true, rest)));
    assert Step(env, prog, s) == BranchStep(env, prog, b, Place(true, after), m);
    if Get(m.core, rs) == Get(m.core, rt) {
      Go(env, prog, s, State(Place(true, rest), Exec(env, slot, m).m), o);
    } else {
      Go(env, prog, s, State(Where(prog, AtLabel(l)).value, Exec(env, slot, m).m), o);
    }
  }

  lemma StopsAtBreak(env: Env, prog: seq<Line>, code: nat, rest: seq<Line>, nr: bool, m: Mach)
    ensures Reaches(env, prog, State(Place(nr, [Code([], Break(code))] + rest), m), Done(Trap(code), m))
  {
    Stop(env, prog, State(Place(nr, [Code([], Break(code))] + rest), m));
  }

  // ----- the parts of the expansion, last one first -----

  function Finished(op: DivOp, rd: Reg, m: Mach): Mach {
    m.(core := Set(m.core, rd, if op.rem then m.hi else m.lo))
  }

  lemma Regroup<T>(a: T, b: T, c: seq<T>, d: seq<T>)
    ensures ([a] + ([b] + c)) + d == [a] + ([b] + (c + d))
  {
  }

  lemma RunFinish(env: Env, prog: seq<Line>, op: DivOp, rd: Reg, nr: bool, post: seq<Line>, m: Mach)
    ensures Reaches(env, prog, State(Place(true, Finish(op, rd, nr) + post), m),
                    Running(State(Place(nr, post), Finished(op, rd, m))))
  {
    var end := if nr then [] else [Dir(Reorder)];
    var m', o := Finished(op, rd, m), Running(State(Place(nr, post), Finished(op, rd, m)));
    Here(env, prog, State(Place(nr, post), m'));
    if nr {
      assert end + post == post;
    } else {
      GoText(env, prog, Dir(Reorder), post, true, m', o);
    }
    GoText(env, prog, Dir(At), end + post, true, m', o);
    GoCode(env, prog, MoveFrom(if op.rem then Hi else Lo, rd), [Dir(At)] + (end + post), true, m, o);
    Regroup(Code([], MoveFrom(if op.rem then Hi else Lo, rd)), Dir(At), end, post);
  }

  lemma RunFromB(env: Env, prog: seq<Line>, op: DivOp, rd: Reg, n: nat, nr: bool, post: seq<Line>, m: Mach)
    ensures Reaches(env, prog, State(Place(true, [Mark(DivB(n))] + (Finish(op, rd, nr) + post)), m),
                    Running(State(Place(nr, post), Finished(op, rd, m))))
  {
    RunFinish(env, prog, op, rd, nr, post, m);
    GoText(env, prog, Mark(DivB(n)), Finish(op, rd, nr) + post, true, m, Running(State(Place(nr, post), Finished(op, rd, m))));
  }

  /** The signed check as the code runs it, `$at` operands and all. */
  function OverflowOutcome(op: DivOp, rd: Reg, rs: Reg, rt: Reg, nr: bool, post: seq<Line>, m: Mach): Outcome {
    var c1 := Set(m.core, AT, MINUS_ONE);
    var c2 := Set(c1, AT, INT_MIN);
    if Get(c1, rt) == MINUS_ONE && Get(c2, rs) == INT_MIN then Done(Trap(6), m.(core := c2))
    else Running(State(Place(nr, post), Finished(op, rd, m.(core := c2))))
  }

  lemma OverflowSplit(op: DivOp, rd: Reg, rs: Reg, rt: Reg, n: nat, nr: bool, post: seq<Line>)
    ensures OverflowCheck(op, rd, rs, rt, n, nr) + post ==
            [Code([], Li(AT, MINUS_ONE))] + ([Code([], Branch(Ne(rt, AT), false, None, ToLabel(DivB(n))))] + (
              [Code([], Lui(AT, 0x8000))] + ([Code([], Branch(Ne(rs, AT), false, None, ToLabel(DivB(n))))] + (
                [Code([], Nop)] + ([Code([], Break(6))] + ([Mark(DivB(n))] + (Finish(op, rd, nr) + post)))))))
  {
    var d := [Mark(DivB(n))] + Finish(op, rd, nr);
    var c := [Code([], Nop)] + ([Code([], Break(6))] + d);
    var b := [Code([], Lui(AT, 0x8000))] + ([Code([], Branch(Ne(rs, AT), false, None, ToLabel(DivB(n))))] + c);
    Regroup(Code([], Li(AT, MINUS_ONE)), Code([], Branch(Ne(rt, AT), false, None, ToLabel(DivB(n)))), b, post);
    Regroup(Code([], Lui(AT, 0x8000)), Code([], Branch(Ne(rs, AT), false, None, ToLabel(DivB(n)))), c, post);
    Regroup(Code([], Nop), Code([], Break(6)), d, post);
    assert d + post == [Mark(DivB(n))] + (Finish(op, rd, nr) + post);
  }

  lemma ZeroSplit(op: DivOp, rd: Reg, rs: Reg, rt: Reg, n: nat, nr: bool, post: seq<Line>)
    ensures ZeroCheck(op, rd, rs, rt, n, nr) + post ==
            [Code([], MulDiv(if op.unsigned then Divu else Div, Some(0), rs, rt))] + (
              [Code([], Branch(Ne(rt, 0), false, None, ToLabel(DivA(n))))] + ([Code([], Nop)] + (
                [Code([], Break(7))] + (AfterZeroCheck(op, rd, rs, rt, n, nr) + post))))
  {
    var b := [Code([], Nop)] + ([Code([], Break(7))] + AfterZeroCheck(op, rd, rs, rt, n, nr));
    Regroup(Code([], MulDiv(if op.unsigned then Divu else Div, Some(0), rs, rt)),
            Code([], Branch(Ne(rt, 0), false, None, ToLabel(DivA(n)))), b, post);
    Regroup(Code([], Nop), Code([], Break(7)), AfterZeroCheck(op, rd, rs, rt, n, nr), post);
  }

  lemma RunOverflowCheck(env: Env, prog: seq<Line>, op: DivOp, rd: Reg, rs: Reg, rt: Reg, n: nat, nr: bool,
                         post: seq<Line>, m: Mach)
    requires Where(prog, AtLabel(DivB(n))) == Some(Place(true, [Mark(DivB(n))] + (Finish(op, rd, nr) + post)))
    ensures Reaches(env, prog, State(Place(true, OverflowCheck(op, rd, rs, rt, n, nr) + post), m),
                    OverflowOutcome(op, rd, rs, rt, nr, post, m))
  {
    var o := OverflowOutcome(op, rd, rs, rt, nr, post, m);
    var m1 := m.(core := Set(m.core, AT, MINUS_ONE));
    var m2 := m.(core := Set(m1.core, AT, INT_MIN));
    var fromB := [Mark(DivB(n))] + (Finish(op, rd, nr) + post);
    var brk := [Code([], Break(6))] + fromB;
    var second := [Code([], Branch(Ne(rs, AT), false, None, ToLabel(DivB(n))))] + ([Code([], Nop)] + brk);
    var first := [Code([], Branch(Ne(rt, AT), false, None, ToLabel(DivB(n))))] + ([Code([], Lui(AT, 0x8000))] + second);
    RunFromB(env, prog, op, rd, n, nr, post, m2);
    StopsAtBreak(env, prog, 6, fromB, true, m2);
    if Get(m1.core, rt) == MINUS_ONE {
      GoBne(env, prog, rs, AT, DivB(n), Nop, brk, m2, o);
    }
    assert Exec(env, Lui(AT, 0x8000), m1) == Next(m2);
    GoBne(env, prog, rt, AT, DivB(n), Lui(AT, 0x8000), second, m1, o);
    GoCode(env, prog, Li(AT, MINUS_ONE), first, true, m, o);
    OverflowSplit(op, rd, rs, rt, n, nr, post);
  }

  function CheckedOutcome(op: DivOp, rd: Reg, rs: Reg, rt: Reg, nr: bool, post: seq<Line>, m: Mach): Outcome {
    if op.unsigned then Running(State(Place(nr, post), Finished(op, rd, m)))
    else OverflowOutcome(op, rd, rs, rt, nr, post, m)
  }

  predicate LabelsFound(prog: seq<Line>, op: DivOp, rd: Reg, rs: Reg, rt: Reg, n: nat, nr: bool, post: seq<Line>) {
    Where(prog, AtLabel(DivA(n))) == Some(Place(true, AfterZeroCheck(op, rd, rs, rt, n, nr) + post)) &&
    (!op.unsigned ==>
       Where(prog, AtLabel(DivB(n))) == Some(Place(true, [Mark(DivB(n))] + (Finish(op, rd, nr) + post))))
  }

  lemma RunAfterZeroCheck(env: Env, prog: seq<Line>, op: DivOp, rd: Reg, rs: Reg, rt: Reg, n: nat, nr: bool,
                          post: seq<Line>, m: Mach)
    requires LabelsFound(prog, op, rd, rs, rt, n, nr, post)
    ensures Reaches(env, prog, State(Place(true, AfterZeroCheck(op, rd, rs, rt, n, nr) + post), m),
                    CheckedOutcome(op, rd, rs, rt, nr, post, m))
  {
    var rest := if op.unsigned then Finish(op, rd, nr) else OverflowCheck(op, rd, rs, rt, n, nr);
    if op.unsigned {
      RunFinish(env, prog, op, rd, nr, post, m);
    } else {
      RunOverflowCheck(env, prog, op, rd, rs, rt, n, nr, post, m);
    }
    GoText(env, prog, Mark(DivA(n)), rest + post, true, m, CheckedOutcome(op, rd, rs, rt, nr, post, m));
    Assoc([Mark(DivA(n))], rest, post);
  }

  /** What the expansion does, for any divide unit and any operands. */
  function ExpandOutcome(env: Env, op: DivOp, rd: Reg, rs: Reg, rt: Reg, nr: bool, post: seq<Line>, m: Mach): Outcome {
    var (h, l) := env.muldiv(if op.unsigned then Divu else Div, Get(m.core, rs), Get(m.core, rt));
    var m' := Mach(m.core, h, l);
    if Get(m.core, rt) == 0 then Done(Trap(7), m') else CheckedOutcome(op, rd, rs, rt, nr, post, m')
  }

  lemma RunZeroCheck(env: Env, prog: seq<Line>, op: DivOp, rd: Reg, rs: Reg, rt: Reg, n: nat, nr: bool,
                     post: seq<Line>, m: Mach)
    requires LabelsFound(prog, op, rd, rs, rt, n, nr, post)
    ensures Reaches(env, prog, State(Place(true, ZeroCheck(op, rd, rs, rt, n, nr) + post), m),
                    ExpandOutcome(env, op, rd, rs, rt, nr, post, m))
  {
    var o := ExpandOutcome(env, op, rd, rs, rt, nr, post, m);
    var div := MulDiv(if op.unsigned then Divu else Div, Some(0), rs, rt);
    var m' := Exec(env, div, m).m;
    var fromA := AfterZeroCheck(op, rd, rs, rt, n, nr) + post;
    var brk := [Code([], Break(7))] + fromA;
    var check := [Code([], Branch(Ne(rt, 0), false, None, ToLabel(DivA(n))))] + ([Code([], Nop)] + brk);
    RunAfterZeroCheck(env, prog, op, rd, rs, rt, n, nr, post, m');
    StopsAtBreak(env, prog, 7, fromA, true, m');
    GoBne(env, prog, rt, 0, DivA(n), Nop, brk, m', o);
    GoCode(env, prog, div, check, true, m, o);
    ZeroSplit(op, rd, rs, rt, n, nr, post);
  }

  lemma ExpandSplit(op: DivOp, rd: Reg, rs: Reg, rt: Reg, n: nat, nr: bool, post: seq<Line>)
    ensures var body := [Dir(Noat)] + (ZeroCheck(op, rd, rs, rt, n, nr) + post);
            Expand(op, rd, rs, rt, n, nr) + post == if nr then body else [Dir(Noreorder)] + body
  {
    var zero := ZeroCheck(op, rd, rs, rt, n, nr);
    assert ([Dir(Noat)] + zero) + post == [Dir(Noat)] + (zero + post);
    assert [] + ([Dir(Noat)] + zero) == [Dir(Noat)] + zero;
    assert ([Dir(Noreorder)] + ([Dir(Noat)] + zero)) + post == [Dir(Noreorder)] + (([Dir(Noat)] + zero) + post);
  }

  lemma RunExpand(env: Env, prog: seq<Line>, op: DivOp, rd: Reg, rs: Reg, rt: Reg, n: nat, nr: bool,
                  post: seq<Line>, m: Mach)
    requires LabelsFound(prog, op, rd, rs, rt, n, nr, post)
    ensures Reaches(env, prog, State(Place(nr, Expand(op, rd, rs, rt, n, nr) + post), m),
                    ExpandOutcome(env, op, rd, rs, rt, nr, post, m))
  {
    var o := ExpandOutcome(env, op, rd, rs, rt, nr, post, m);
    var body := ZeroCheck(op, rd, rs, rt, n, nr) + post;
    RunZeroCheck(env, prog, op, rd, rs, rt, n, nr, post, m);
    GoText(env, prog, Dir(Noat), body, true, m, o);
    if !nr {
      GoText(env, prog, Dir(Noreorder), [Dir(Noat)] + body, false, m, o);
    }
    ExpandSplit(op, rd, rs, rt, n, nr, post);
  }

  // ----- the macro in a program -----

  lemma {:induction false} FindInside(pre: seq<Line>, mid: seq<Line>, rest: seq<Line>, nr: bool, l: Label)
    requires NoneDefines(pre, l) && NoneDefines(mid, l)
    requires NrThrough(pre, false) == nr && NrThrough(mid, nr)
    ensures Where(pre + (mid + ([Mark(l)] + rest)), AtLabel(l)) == Some(Place(true, [Mark(l)] + rest))
  {
    SkipPrefix(pre, mid + ([Mark(l)] + rest), false, l);
    SkipPrefix(mid, [Mark(l)] + rest, nr, l);
  }

  /** Where the label of each check ends up. */
  function BeforeA(op: DivOp, rs: Reg, rt: Reg, n: nat, nr: bool): seq<Line> {
    (if nr then [] else [Dir(Noreorder)]) +
    [Dir(Noat), Code([], MulDiv(if op.unsigned then Divu else Div, Some(0), rs, rt)),
     Code([], Branch(Ne(rt, 0), false, None, ToLabel(DivA(n)))), Code([], Nop), Code([], Break(7))]
  }

  function BetweenAB(rs: Reg, rt: Reg, n: nat): seq<Line> {
    [Mark(DivA(n)), Code([], Li(AT, MINUS_ONE)), Code([], Branch(Ne(rt, AT), false, None, ToLabel(DivB(n)))),
     Code([], Lui(AT, 0x8000)), Code([], Branch(Ne(rs, AT), false, None, ToLabel(DivB(n)))),
     Code([], Nop), Code([], Break(6))]
  }

  lemma {:induction false} ModeOfPlain(x: seq<Line>, nr: bool)
    requires forall k :: 0 <= k < |x| ==> x[k] != Dir(Noreorder) && x[k] != Dir(Reorder)
    ensures NrThrough(x, nr) == nr
    decreases |x|
  {
    if x != [] {
      ModeOfPlain(x[1..], nr);
    }
  }

  lemma ModeBeforeA(op: DivOp, rs: Reg, rt: Reg, n: nat, nr: bool)
    ensures NrThrough(BeforeA(op, rs, rt, n, nr), nr)
  {
    var x := BeforeA(op, rs, rt, n, nr);
    if nr {
      ModeOfPlain(x, true);
    } else {
      ModeOfPlain(x[1..], true);
    }
  }

  lemma PartsDefine(op: DivOp, rs: Reg, rt: Reg, n: nat, nr: bool)
    ensures NoneDefines(BeforeA(op, rs, rt, n, nr), DivA(n)) && NoneDefines(BeforeA(op, rs, rt, n, nr), DivB(n))
    ensures NoneDefines(BetweenAB(rs, rt, n), DivB(n))
  {
  }

  lemma ExpandParts(op: DivOp, rd: Reg, rs: Reg, rt: Reg, n: nat, nr: bool)
    ensures Expand(op, rd, rs, rt, n, nr) == BeforeA(op, rs, rt, n, nr) + AfterZeroCheck(op, rd, rs, rt, n, nr)
    ensures !op.unsigned ==>
              AfterZeroCheck(op, rd, rs, rt, n, nr) == BetweenAB(rs, rt, n) + ([Mark(DivB(n))] + Finish(op, rd, nr))
  {
  }

  lemma Assoc<T>(a: seq<T>, b: seq<T>, c: seq<T>)
    ensures (a + b) + c == a + (b + c)
  {
  }

  lemma {:induction false} LabelA(pre: seq<Line>, a: seq<Line>, tail: seq<Line>, post: seq<Line>, n: nat, nr: bool)
    requires StandsIn(pre, n, nr) && NrThrough(a, nr) && NoneDefines(a, DivA(n))
    ensures Where(pre + ((a + ([Mark(DivA(n))] + tail)) + post), AtLabel(DivA(n))) ==
            Some(Place(true, ([Mark(DivA(n))] + tail) + post))
  {
    Assoc(a, [Mark(DivA(n))] + tail, post);
    Assoc([Mark(DivA(n))], tail, post);
    FindInside(pre, a, tail + post, nr, DivA(n));
  }

  lemma LabelsInContext(pre: seq<Line>, op: DivOp, rd: Reg, rs: Reg, rt: Reg, n: nat, nr: bool, post: seq<Line>)
    requires StandsIn(pre, n, nr)
    ensures LabelsFound(pre + (Expand(op, rd, rs, rt, n, nr) + post), op, rd, rs, rt, n, nr, post)
  {
    var a, b, fin := BeforeA(op, rs, rt, n, nr), BetweenAB(rs, rt, n), Finish(op, rd, nr);
    ModeBeforeA(op, rs, rt, n, nr);
    ExpandParts(op, rd, rs, rt, n, nr);
    PartsDefine(op, rs, rt, n, nr);
    LabelA(pre, a, if op.unsigned then fin else OverflowCheck(op, rd, rs, rt, n, nr), post, n, nr);
    if !op.unsigned {
      ModeOfPlain(b, true);
      LabelB(pre, a, b, fin, post, n, nr);
    }
  }

  lemma {:induction false} LabelB(pre: seq<Line>, a: seq<Line>, b: seq<Line>, fin: seq<Line>, post: seq<Line>, n: nat, nr: bool)
    requires StandsIn(pre, n, nr) && NrThrough(a, nr) && NrThrough(b, true)
    requires NoneDefines(a, DivB(n)) && NoneDefines(b, DivB(n))
    ensures Where(pre + ((a + (b + ([Mark(DivB(n))] + fin))) + post), AtLabel(DivB(n))) ==
            Some(Place(true, [Mark(DivB(n))] + (fin + post)))
  {
    var rest := [Mark(DivB(n))] + (fin + post);
    Assoc(a, b + ([Mark(DivB(n))] + fin), post);
    Assoc(b, [Mark(DivB(n))] + fin, post);
    Assoc([Mark(DivB(n))], fin, post);
    SkipPrefix(pre, a + (b + rest), false, DivB(n));
    SkipPrefix(a, b + rest, nr, DivB(n));
    SkipPrefix(b, rest, true, DivB(n));
  }

  ghost predicate OwedFrom(env: Env, op: DivOp, rd: Reg, rs: Reg, rt: Reg, n: nat, nr: bool,
                           pre: seq<Line>, post: seq<Line>, m: Mach) {
    var code := Expand(op, rd, rs, rt, n, nr) + post;
    exists o :: Owed(op, rd, rs, rt, nr, post, m, o) && Reaches(env, pre + code, State(Place(nr, code), m), o)
  }

  /** `$at` must not carry an operand of a signed division, unless the other
      operand is `$0` in a way that settles the check first. */
  predicate OperandsOk(op: DivOp, rs: Reg, rt: Reg) {
    op.unsigned || rt == 0 || (rs != AT && (rt != AT || rs == 0))
  }

  lemma DivideRuns(env: Env, op: DivOp, rd: Reg, rs: Reg, rt: Reg, n: nat, nr: bool,
                   pre: seq<Line>, post: seq<Line>, m: Mach)
    requires DividesRight(env) && StandsIn(pre, n, nr) && OperandsOk(op, rs, rt)
    ensures OwedFrom(env, op, rd, rs, rt, n, nr, pre, post, m)
  {
    LabelsInContext(pre, op, rd, rs, rt, n, nr, post);
    RunExpand(env, pre + (Expand(op, rd, rs, rt, n, nr) + post), op, rd, rs, rt, n, nr, post, m);
    OutcomeOwed(env, op, rd, rs, rt, nr, post, m);
  }

  lemma OutcomeOwed(env: Env, op: DivOp, rd: Reg, rs: Reg, rt: Reg, nr: bool, post: seq<Line>, m: Mach)
    requires DividesRight(env) && OperandsOk(op, rs, rt)
    ensures Owed(op, rd, rs, rt, nr, post, m, ExpandOutcome(env, op, rd, rs, rt, nr, post, m))
  {
    var a, b := Get(m.core, rs), Get(m.core, rt);
    if b != 0 && !Overflows(op, a, b) {
      assert !Overflows(DivOp(op.unsigned, false), a, b);
      assert env.muldiv(if op.unsigned then Divu else Div, a, b) ==
             (Result(DivOp(op.unsigned, true), a, b), Result(DivOp(op.unsigned, false), a, b));
    }
  }

  // ----- and only then -----

  /** A divide unit that is right, to run the failing programs on. */
  function Ideal(): Env {
    Env((id, c) => c, (op, r, w, c) => c,
        (op: MulOp, a: Word, b: Word) =>
          if b == 0 || !(op.Div? || op.Divu?) then (0, 0)
          else (Result(DivOp(op.Divu?, true), a, b), Result(DivOp(op.Divu?, false), a, b)),
        k => 0, w => None)
  }

  /** Operands the broken expansion traps on although the division is fine. */
  function Bad(rs: Reg, rt: Reg): Mach {
    var regs: map<Reg, Word> :=
      if rs == rt then map[AT := 5]
      else if rs == AT then map[AT := 5, rt := MINUS_ONE]
      else map[AT := 2, rs := INT_MIN];
    Mach(Core(regs, map[], false), 0, 0)
  }

  /** A run that has trapped cannot also come out behind the macro at the end of
      the file: it would fall off there. */
  lemma TrapIsFinal(env: Env, prog: seq<Line>, s: State, code: nat, m: Mach, nr: bool, m': Mach)
    requires Reaches(env, prog, s, Done(Trap(code), m))
    ensures !Reaches(env, prog, s, Running(State(Place(nr, []), m')))
  {
    if Reaches(env, prog, s, Running(State(Place(nr, []), m'))) {
      var j: nat :| Steps(env, prog, s, j) == Done(Trap(code), m) && Quiet(env, prog, s, j);
      var k: nat :| Steps(env, prog, s, k) == Running(State(Place(nr, []), m')) && Quiet(env, prog, s, k);
      assert Steps(env, prog, State(Place(nr, []), m'), j + 1) == Done(FellOff, m');
      StepsAdd(env, prog, s, j, k + 1);
      StepsAdd(env, prog, s, k, j + 1);
    }
  }

  ghost predicate AlwaysRight(op: DivOp, rd: Reg, rs: Reg, rt: Reg, n: nat, nr: bool) {
    forall env: Env, pre: seq<Line>, post: seq<Line>, m: Mach ::
      DividesRight(env) && StandsIn(pre, n, nr) ==> OwedFrom(env, op, rd, rs, rt, n, nr, pre, post, m)
  }

  lemma BadTraps(op: DivOp, rd: Reg, rs: Reg, rt: Reg, n: nat, nr: bool)
    requires !OperandsOk(op, rs, rt)
    ensures var pre := if nr then [Dir(Noreorder)] else [];
            StandsIn(pre, n, nr) && !OwedFrom(Ideal(), op, rd, rs, rt, n, nr, pre, [], Bad(rs, rt))
  {
    var pre, m := if nr then [Dir(Noreorder)] else [], Bad(rs, rt);
    var code := Expand(op, rd, rs, rt, n, nr) + [];
    assert NrThrough(pre, false) == nr by {
      if nr {
        assert pre[1..] == [];
      }
    }
    LabelsInContext(pre, op, rd, rs, rt, n, nr, []);
    RunExpand(Ideal(), pre + code, op, rd, rs, rt, n, nr, [], m);
    var o := ExpandOutcome(Ideal(), op, rd, rs, rt, nr, [], m);
    assert o.Done? && o.why == Trap(6);
    assert Get(m.core, rt) != 0 && !Overflows(op, Get(m.core, rs), Get(m.core, rt));
    if OwedFrom(Ideal(), op, rd, rs, rt, n, nr, pre, [], m) {
      var o' :| Owed(op, rd, rs, rt, nr, [], m, o') && Reaches(Ideal(), pre + code, State(Place(nr, code), m), o');
      TrapIsFinal(Ideal(), pre + code, State(Place(nr, code), m), 6, o.m, nr, o'.s.m);
    }
  }

  /** The expansion is a division in every program, on every machine and on all
      operands, exactly when `$at` stays out of the signed operands. */
  lemma DivideRightExactly(op: DivOp, rd: Reg, rs: Reg, rt: Reg, n: nat, nr: bool)
    ensures AlwaysRight(op, rd, rs, rt, n, nr) <==> OperandsOk(op, rs, rt)
  {
    if OperandsOk(op, rs, rt) {
      forall env: Env, pre: seq<Line>, post: seq<Line>, m: Mach | DividesRight(env) && StandsIn(pre, n, nr)
        ensures OwedFrom(env, op, rd, rs, rt, n, nr, pre, post, m)
      {
        DivideRuns(env, op, rd, rs, rt, n, nr, pre, post, m);
      }
    } else {
      BadTraps(op, rd, rs, rt, n, nr);
    }
  }
}
