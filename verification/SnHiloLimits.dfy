/** Where the side conditions of SnHiloPlaces come from: each is exactly what
    the rewriting needs, and a program outside it changes its meaning. */
module SnHiloLimits {
  import opened Prelude
  import opened Mips
  import opened SnHilo
  import opened SnHiloPlaces
  import opened SnHiloMeaning

  /** A delay slot that is not on the next line survives if and only if no hazard
      nop is put in front of it; otherwise the nop becomes the slot. */
  lemma {:induction false} SlotKeptExactly(rest: seq<Line>, st: St)
    requires var slot := SlotOf(Place(st.nr, rest)); slot.Some? && !slot.value.0.Branch?
    ensures SlotOf(Place(st.nr, Rewrite(rest, st))).Some?
    ensures var slot, slot' := SlotOf(Place(st.nr, rest)).value.0, SlotOf(Place(st.nr, Rewrite(rest, st))).value.0;
            (slot' == slot <==> !PadsFirst(rest, st)) && (PadsFirst(rest, st) ==> slot' == Nop)
    decreases |rest|
  {
    var t := Loop(rest, st);
    var tail := Rewrite(rest[t.used..], t.st);
    if !rest[0].Code? {
      SlotKeptExactly(rest[1..], t.st);
      assert ([rest[0]] + tail)[1..] == tail;
    } else {
      assert (t.emit + tail)[0] == t.emit[0];
    }
  }

  /** The file that shows it: `mflo $2; b L; # comment; mult $4,$5; L:`. */
  const BRANCH: Line := Code([], Branch(Always, false, None, ToLabel(User("L"))))
  const COMMENT: Line := Dir(Text("# comment"))
  const MULT: Line := Code([], MulDiv(Mult, None, 4, 5))

  /** The file, with the lines of `x` behind the comment. */
  function Commented(x: seq<Line>): seq<Line> {
    [Dir(Noreorder)] + ([Code([], MoveFrom(Lo, 2))] + ([BRANCH] + ([COMMENT] + x)))
  }

  /** One turn that keeps its line behind `need` nops. */
  lemma LineKept(line: Line, rest: seq<Line>, st: St, need: nat)
    requires rest == [] || !rest[0].Code? || !line.Code? || !line.ins.Branch?
    requires need == if line.Code? && st.nr && KindOf(line.ins) == Write then Need(st.region) else 0
    ensures Rewrite([line] + rest, st) == Nops(need) + ([line] + Rewrite(rest, Loop([line] + rest, st).st))
  {
    var lines := [line] + rest;
    assert lines[0] == line && lines[1..] == rest;
    assert !TakesSlot(lines, st);
    assert Nops(0) + [line] == [line];
    KeptBehindNops(need, line, Rewrite(rest, Loop(lines, st).st));
  }

  lemma KeptBehindNops(need: nat, line: Line, rest: seq<Line>)
    ensures (Nops(need) + [line]) + rest == Nops(need) + ([line] + rest)
  {
  }

  /** The variables behind a line that is no write. */
  predicate StateBehind(line: Line, st: St, st': St) {
    if line.Code? then st' == St(st.nr, st.region + [KindOf(line.ins)], Some(KindOf(line.ins)))
    else st' == AfterText(line, st)
  }

  lemma PlainKept(line: Line, rest: seq<Line>, st: St, st': St)
    requires rest == [] || !rest[0].Code? || !line.Code? || !line.ins.Branch?
    requires (line.Code? ==> KindOf(line.ins) != Write) && StateBehind(line, st, st')
    ensures Rewrite([line] + rest, st) == [line] + Rewrite(rest, st')
  {
    LineKept(line, rest, st, 0);
    assert Nops(0) + ([line] + Rewrite(rest, st')) == [line] + Rewrite(rest, st');
    assert st.region + Fill(0) == st.region;
  }

  /** The multiply, met behind the mflo and the branch. */
  lemma PaddedMult(x: seq<Line>, st: St)
    requires st == St(true, [Read, Jump], Some(Jump)) && x == [MULT] + [Mark(User("L"))]
    ensures Rewrite(x, st) == [NOP] + x
  {
    var end := [Mark(User("L"))];
    LineKept(MULT, end, st, 1);
    assert Nops(1) == [NOP] && end == [Mark(User("L"))] + [];
    PlainKept(Mark(User("L")), [], Loop(x, st).st, Loop(x, st).st);
  }

  lemma BranchAndComment(x: seq<Line>, st: St)
    requires x == [MULT] + [Mark(User("L"))] && st == St(true, [Read], Some(Read))
    ensures Rewrite([BRANCH] + ([COMMENT] + x), st) == [BRANCH] + ([COMMENT] + ([NOP] + x))
  {
    var behind := St(true, [Read, Jump], Some(Jump));
    PaddedMult(x, behind);
    PlainKept(COMMENT, x, behind, behind);
    PlainKept(BRANCH, [COMMENT] + x, st, behind);
  }

  lemma CommentedRewrite(x: seq<Line>, tail: seq<Line>)
    requires x == [MULT] + [Mark(User("L"))] && tail == [BRANCH] + ([COMMENT] + x)
    ensures Rewrite([Dir(Noreorder)] + ([Code([], MoveFrom(Lo, 2))] + tail), START) == Commented([NOP] + x)
  {
    var s1, s2 := St(true, [], None), St(true, [Read], Some(Read));
    BranchAndComment(x, s2);
    PlainKept(Code([], MoveFrom(Lo, 2)), tail, s1, s2);
    PlainKept(Dir(Noreorder), [Code([], MoveFrom(Lo, 2))] + tail, START, s1);
  }

  /** The whole file, as written: the nop has become the slot of the branch, which
      now jumps over the multiply. */
  lemma CommentInFrontOfSlot(x: seq<Line>)
    requires x == [MULT] + [Mark(User("L"))]
    ensures Rewrite(Commented(x), START) == Commented([NOP] + x)
    ensures SlotOf(Place(true, [COMMENT] + x)) == Some((MULT.ins, Place(true, [Mark(User("L"))])))
    ensures SlotOf(Place(true, [COMMENT] + ([NOP] + x))) == Some((Nop, Place(true, x)))
  {
    CommentedRewrite(x, [BRANCH] + ([COMMENT] + x));
    BehindComment(x);
    BehindComment([NOP] + x);
    assert x[1..] == [Mark(User("L"))] && ([NOP] + x)[1..] == x;
  }

  lemma BehindComment(x: seq<Line>)
    requires x != [] && x[0].Code?
    ensures SlotOf(Place(true, [COMMENT] + x)) == Some((x[0].ins, Place(true, x[1..])))
  {
    assert ([COMMENT] + x)[1..] == x;
  }

  ghost predicate SameEitherSide(b: Instr, ins: Instr)
    requires b.Branch? && ins.MulDiv?
  {
    forall env: Env, rest: seq<Line>, m: Mach ::
      Exec(env, ins, Linked(env, b, rest, m)) == Next(Linked(env, b, rest, Exec(env, ins, m).m))
  }

  /** A multiply computes the same on either side of a branch, whatever the
      machine, if and only if it does not read the register the branch links. */
  lemma MovesOverLinkExactly(b: Instr, ins: Instr)
    requires b.Branch? && ins.MulDiv? && (ins.dst.None? || ins.dst == Some(0))
    ensures SameEitherSide(b, ins) <==> (b.link.Some? ==> !Reads(ins, b.link.value))
  {
    if b.link.Some? && Reads(ins, b.link.value) {
      var env := Env((id, c) => c, (op, r, w, c) => c, (op, x, y) => (x, y), k => 1, w => None);
      var m := Mach(Core(map[], map[], false), 0, 0);
      var linked := Linked(env, b, [], m);
      assert Get(m.core, ins.rs) == 0 && Get(m.core, ins.rt) == 0;
      assert Get(linked.core, b.link.value) == 1;
      assert Exec(env, ins, linked) != Next(Linked(env, b, [], Exec(env, ins, m).m));
    } else {
      forall env: Env, rest: seq<Line>, m: Mach
        ensures Exec(env, ins, Linked(env, b, rest, m)) == Next(Linked(env, b, rest, Exec(env, ins, m).m))
      {
        ExecBeforeBranch(env, b, ins, rest, m);
      }
    }
  }

  /** On the not-taken edge of a likely branch the input leaves HI/LO alone and
      the output has run the multiply: they agree exactly when it changes nothing. */
  lemma LikelyEdge(env: Env, prog: seq<Line>, a: State, out: seq<Line>, st: St) returns (n: nat)
    requires a.at.nr == st.nr && MovesSlot(a.at.code, st)
    requires a.at.code[0].ins.likely && !Taken(a.at.code[0].ins.cond, a.m.core)
    ensures var b, ins := a.at.code[0].ins, a.at.code[1].ins;
            var linked := Linked(env, b, a.at.code[1..], a.m);
            var o, o' := Step(env, prog, a), Steps(env, out, State(Place(true, Rewrite(a.at.code, st)), a.m), n);
            o.Running? && o'.Running? && o.s.m == linked && linked.hi == a.m.hi && linked.lo == a.m.lo &&
            o'.s.m == Mach(linked.core, env.muldiv(ins.mop, Get(a.m.core, ins.rs), Get(a.m.core, ins.rt)).0,
                           env.muldiv(ins.mop, Get(a.m.core, ins.rs), Get(a.m.core, ins.rt)).1)
  {
    var code := a.at.code;
    n := ReachMovedBranch(env, out, code, st, a.m);
    assert code[1..][0] == code[1];
    assert Behind(code, st)[0] == NOP;
    LinksKept(code[2..], Loop(code, st).st);
    assert code[1..] == [code[1]] + code[2..];
    LinkCountOne(code[1], code[2..]);
    LinkCountOne(NOP, Rewrite(code[2..], Loop(code, st).st));
  }

  /** A label written on the branch's own line stays on the branch: control that
      arrives there no longer runs the multiply. */
  lemma LabelOnBranchLine(lines: seq<Line>, st: St, l: Label)
    requires MovesSlot(lines, st) && l in lines[0].labels && l !in lines[1].labels
    ensures FindLabel(Place(true, Rewrite(lines, st)), l) ==
            Some(Place(true, [lines[0]] + ([NOP] + Rewrite(lines[2..], Loop(lines, st).st))))
    ensures FindLabel(Place(true, lines), l) == Some(Place(true, lines))
  {
    BranchTurn(lines, st);
    SkipLines(Lead(lines, st), [lines[0]] + Behind(lines, st), true, l);
  }

  function MachOf(o: Outcome): Mach { if o.Running? then o.s.m else o.m }

  lemma BranchOverSlot(env: Env, prog: seq<Line>, branch: Line, slot: Line, rest: seq<Line>, m: Mach)
    requires branch.Code? && branch.ins.Branch? && slot.Code?
    requires slot.ins == Nop || slot.ins.MulDiv?
    ensures var b := branch.ins;
            var linked := Linked(env, b, [slot] + rest, m);
            var o := Step(env, prog, State(Place(true, [branch] + ([slot] + rest)), m));
            MachOf(o) == (if b.likely && !Taken(b.cond, m.core) then linked else Exec(env, slot.ins, linked).m) &&
            (!Taken(b.cond, m.core) ==> o == Running(State(Place(true, rest), MachOf(o)))) &&
            (Taken(b.cond, m.core) ==> o == Arrive(env, prog, b.target, m.core, MachOf(o)))
  {
    assert ([branch] + ([slot] + rest))[1..] == [slot] + rest && ([slot] + rest)[1..] == rest;
  }

  lemma SameLink(env: Env, b: Instr, lines: seq<Line>, st: St, m: Mach)
    requires MovesSlot(lines, st) && b.Branch?
    ensures Linked(env, b, Behind(lines, st), m) == Linked(env, b, lines[1..], m)
  {
    LinksKept(lines[2..], Loop(lines, st).st);
    assert lines[1..] == [lines[1]] + lines[2..];
    LinkCountOne(lines[1], lines[2..]);
    LinkCountOne(NOP, Rewrite(lines[2..], Loop(lines, st).st));
  }

  /** The machines behind the branch when both files are entered at the label on it:
      the output has made the link alone, the input has run the multiply as well. */
  lemma EnteredAtBranch(env: Env, prog: seq<Line>, out: seq<Line>, lines: seq<Line>, st: St, l: Label, m: Mach)
    requires MovesSlot(lines, st) && l in lines[0].labels && l !in lines[1].labels
    ensures var b := lines[0].ins;
            var p, q := FindLabel(Place(true, lines), l), FindLabel(Place(true, Rewrite(lines, st)), l);
            p.Some? && q.Some? &&
            var linked := Linked(env, b, lines[1..], m);
            MachOf(Step(env, out, State(q.value, m))) == linked &&
            MachOf(Step(env, prog, State(p.value, m))) ==
              if b.likely && !Taken(b.cond, m.core) then linked else Exec(env, lines[1].ins, linked).m
  {
    LabelOnBranchLine(lines, st, l);
    SameLink(env, lines[0].ins, lines, st, m);
    assert lines == [lines[0]] + ([lines[1]] + lines[2..]) && lines[1..] == [lines[1]] + lines[2..];
    BranchOverSlot(env, prog, lines[0], lines[1], lines[2..], m);
    BranchOverSlot(env, out, lines[0], NOP, Rewrite(lines[2..], Loop(lines, st).st), m);
  }

  /** HI/LO as a file leaves them behind the branch when entered at `l`. */
  function BehindEntry(env: Env, prog: seq<Line>, code: seq<Line>, l: Label, m: Mach): (Word, Word) {
    var p := FindLabel(Place(true, code), l);
    if p.None? then (m.hi, m.lo)
    else
      var m' := MachOf(Step(env, prog, State(p.value, m)));
      (m'.hi, m'.lo)
  }

  lemma EntriesDiffer(env: Env, prog: seq<Line>, out: seq<Line>, lines: seq<Line>, st: St, l: Label, m: Mach)
    requires MovesSlot(lines, st) && l in lines[0].labels && l !in lines[1].labels && !lines[0].ins.likely
    requires forall op, x, y :: env.muldiv(op, x, y) != (m.hi, m.lo)
    ensures BehindEntry(env, prog, lines, l, m) != BehindEntry(env, out, Rewrite(lines, st), l, m)
  {
    EnteredAtBranch(env, prog, out, lines, st, l, m);
  }

  /** So a label on the line of any branch that is not likely breaks the file. */
  lemma BranchLabelLoses(prog: seq<Line>, out: seq<Line>, lines: seq<Line>, st: St, l: Label)
    requires MovesSlot(lines, st) && l in lines[0].labels && l !in lines[1].labels && !lines[0].ins.likely
    ensures exists env: Env, m: Mach ::
      BehindEntry(env, prog, lines, l, m) != BehindEntry(env, out, Rewrite(lines, st), l, m)
  {
    var env := Env((id, c) => c, (op, r, w, c) => c, (op, x, y) => (1, 1), k => 0, w => None);
    var m := Mach(Core(map[], map[], false), 0, 0);
    EntriesDiffer(env, prog, out, lines, st, l, m);
  }

  /** A label on the slot's line moves with the slot: control that arrives there now
      runs the branch as well. */
  lemma LabelOnSlotLine(lines: seq<Line>, st: St, l: Label)
    requires MovesSlot(lines, st) && l in lines[1].labels && l !in lines[0].labels
    ensures FindLabel(Place(true, lines), l) == Some(Place(true, lines[1..]))
    ensures FindLabel(Place(true, Rewrite(lines, st)), l) ==
            Some(Place(true, [Respell(lines[1]), Dir(Pop), lines[0]] + Behind(lines, st)))
  {
    var nops := Nops(if st.prev == Some(MulFloat) then 1 else 0);
    var rest := [Respell(lines[1]), Dir(Pop), lines[0]] + Behind(lines, st);
    BranchTurn(lines, st);
    SlotFirst(nops, Respell(lines[1]), lines[0], Behind(lines, st));
    SkipLines(nops + [Dir(Push), Dir(ArchVr5500)], rest, true, l);
    assert lines[1..][0] == lines[1];
  }

  lemma SlotFirst(nops: seq<Line>, slot: Line, branch: Line, behind: seq<Line>)
    ensures (nops + [Dir(Push), Dir(ArchVr5500), slot, Dir(Pop)]) + ([branch] + behind)
         == (nops + [Dir(Push), Dir(ArchVr5500)]) + ([slot, Dir(Pop), branch] + behind)
  {
  }

  /** Entered at the label on the slot, the input runs the multiply and goes on
      behind it; the output runs it, and then the branch as well. */
  lemma EnteredAtSlot(env: Env, prog: seq<Line>, out: seq<Line>, lines: seq<Line>, st: St, l: Label, m: Mach)
    requires MovesSlot(lines, st) && l in lines[1].labels && l !in lines[0].labels
    ensures var b, m1 := lines[0].ins, Exec(env, lines[1].ins, m).m;
            var p, q := FindLabel(Place(true, lines), l), FindLabel(Place(true, Rewrite(lines, st)), l);
            p.Some? && q.Some? &&
            var linked := Linked(env, b, lines[1..], m1);
            Step(env, prog, State(p.value, m)) == Running(State(Place(true, lines[2..]), m1)) &&
            Steps(env, out, State(q.value, m), 3) ==
              if Taken(b.cond, m1.core) then Arrive(env, out, b.target, m1.core, linked)
              else Running(State(Place(true, Rewrite(lines[2..], Loop(lines, st).st)), linked))
  {
    var m1, rest := Exec(env, lines[1].ins, m).m, Rewrite(lines[2..], Loop(lines, st).st);
    LabelOnSlotLine(lines, st, l);
    assert lines[1..][1..] == lines[2..] && lines[1..][0] == lines[1];
    SameLink(env, lines[0].ins, lines, st, m1);
    BranchOverSlot(env, out, lines[0], NOP, rest, m1);
    SlotPopBranch(env, out, Respell(lines[1]), [lines[0]] + ([NOP] + rest), m, m1);
    PairFirst(Respell(lines[1]), Dir(Pop), lines[0], [NOP] + rest);
  }

  lemma PairFirst(a: Line, b: Line, c: Line, rest: seq<Line>)
    ensures [a, b, c] + rest == [a, b] + ([c] + rest)
  {
  }

  lemma SlotPopBranch(env: Env, out: seq<Line>, slot: Line, rest: seq<Line>, m: Mach, m1: Mach)
    requires slot.Code? && slot.ins.MulDiv? && Exec(env, slot.ins, m) == Next(m1)
    ensures Steps(env, out, State(Place(true, [slot, Dir(Pop)] + rest), m), 3)
         == Step(env, out, State(Place(true, rest), m1))
  {
    var code, s := [slot, Dir(Pop)] + rest, State(Place(true, rest), m1);
    assert code[1..] == [Dir(Pop)] + rest && ([Dir(Pop)] + rest)[1..] == rest;
    assert Steps(env, out, s, 1) == Step(env, out, s);
    var s1 := State(Place(true, [Dir(Pop)] + rest), m1);
    assert Step(env, out, s1) == Running(s);
    assert Steps(env, out, s1, 2) == Steps(env, out, s, 1);
    assert Step(env, out, State(Place(true, code), m)) == Running(s1);
  }
}
