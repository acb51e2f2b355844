/** tools/sn_hilo.py keeps the meaning of the file it rewrites.

    Input and output run in step from any label and from any return point. The
    registers and memory always agree. HI/LO agree too, except that a multiply
    moved in front of a likely branch also runs when the branch is not taken:
    from there HI and LO are `Stale` until they are written again. */
module SnHiloMeaning {
  import opened Prelude
  import opened Mips
  import opened SnHilo
  import opened SnHiloPlaces

  // ----- stale HI/LO -----

  datatype Stale = Stale(hi: bool, lo: bool)

  const FRESH: Stale := Stale(false, false)

  function Freshen(ins: Instr, stale: Stale): Stale {
    match ins
    case MulDiv(_, _, _, _) => FRESH
    case MoveTo(part, _) => if part.Hi? then stale.(hi := false) else stale.(lo := false)
    case _ => stale
  }

  predicate UsesStale(ins: Instr, stale: Stale) {
    ins.MoveFrom? && if ins.part.Hi? then stale.hi else stale.lo
  }

  /** The instruction of a step that can touch HI/LO, and whether it is nullified. */
  datatype Touch = Nothing | Runs(ins: Instr) | Nullified(ins: Instr)

  function Touches(s: State): Touch {
    if s.at.code == [] || !s.at.code[0].Code? then Nothing
    else
      var ins := s.at.code[0].ins;
      if !ins.Branch? then Runs(ins)
      else if !s.at.nr then Nothing
      else
        var slot := SlotOf(Place(true, s.at.code[1..]));
        if slot.None? || slot.value.0.Branch? then Nothing
        else if ins.likely && !Taken(ins.cond, s.m.core) then Nullified(slot.value.0)
        else Runs(slot.value.0)
  }

  function StaleAfter(s: State, stale: Stale): Stale {
    match Touches(s)
    case Nothing => stale
    case Runs(ins) => Freshen(ins, stale)
    case Nullified(ins) => if ins.MulDiv? then Stale(true, true) else stale
  }

  predicate StepUsesStale(s: State, stale: Stale) {
    Touches(s).Runs? && UsesStale(Touches(s).ins, stale)
  }

  /** The input never reads HI or LO where a nullified multiply left them stale. */
  ghost predicate Disciplined(env: Env, prog: seq<Line>, s: State, stale: Stale, n: nat)
    decreases n
  {
    n == 0 ||
    (!StepUsesStale(s, stale) &&
     var o := Step(env, prog, s); o.Running? ==> Disciplined(env, prog, o.s, StaleAfter(s, stale), n - 1))
  }

  function StaleAt(env: Env, prog: seq<Line>, s: State, stale: Stale, n: nat): Stale
    decreases n
  {
    if n == 0 then stale
    else
      var o := Step(env, prog, s);
      if o.Done? then StaleAfter(s, stale) else StaleAt(env, prog, o.s, StaleAfter(s, stale), n - 1)
  }

  // ----- what the two runs share -----

  predicate Same(m: Mach, m': Mach, stale: Stale) {
    m.core == m'.core && (!stale.hi ==> m.hi == m'.hi) && (!stale.lo ==> m.lo == m'.lo)
  }

  predicate Matches(o: Outcome, o': Outcome, st: St, stale: Stale) {
    if o.Running? then o'.Running? && Tracks(o.s.at, o'.s.at, st) && Same(o.s.m, o'.s.m, stale)
    else o'.Done? && o.why == o'.why && Same(o.m, o'.m, stale)
  }

  // ----- single steps -----

  lemma ExecSame(env: Env, ins: Instr, m: Mach, m': Mach, stale: Stale)
    requires !ins.Branch? && Same(m, m', stale) && !UsesStale(ins, stale)
    ensures var e, e' := Exec(env, ins, m), Exec(env, ins, m');
            if e.Traps? then e' == e else e'.Next? && Same(e.m, e'.m, Freshen(ins, stale))
  {
  }

  lemma ArriveTracks(env: Env, prog: seq<Line>, target: Target, before: Core, m: Mach, m': Mach, stale: Stale)
    returns (st: St)
    requires WellFormed(prog, START) && Same(m, m', stale)
    ensures Matches(Arrive(env, prog, target, before, m), Arrive(env, Rewrite(prog, START), target, before, m'), st, stale)
  {
    st := START;
    match target
    case ToLabel(l) =>
      st := WhereTracks(prog, AtLabel(l));
    case ToReg(rs) =>
      var pt := env.resolve(Get(before, rs));
      if pt.Some? {
        st := WhereTracks(prog, pt.value);
      }
  }

  /** A branch whose slot was left alone. */
  lemma BranchTracks(env: Env, prog: seq<Line>, a: State, q: Place, m': Mach, st: St, after: St, stale: Stale)
    returns (st': St)
    requires WellFormed(prog, START)
    requires a.at.code != [] && a.at.code[0].Code? && a.at.code[0].ins.Branch?
    requires a.at.nr == q.nr && Same(a.m, m', stale) && !StepUsesStale(a, stale)
    requires LinkCount(q.code) == LinkCount(a.at.code[1..])
    requires var x, y := AfterBranch(Place(q.nr, a.at.code[1..])), AfterBranch(q);
             x.None? == y.None? && (x.Some? ==> Tracks(x.value, y.value, after))
    requires q.nr ==>
               var s, s' := SlotOf(Place(true, a.at.code[1..])), SlotOf(q);
               s.None? == s'.None? && (s.Some? ==> s.value.0 == s'.value.0)
    ensures Matches(Step(env, prog, a), BranchStep(env, Rewrite(prog, START), a.at.code[0].ins, q, m'),
                    st', StaleAfter(a, stale))
  {
    var b, p := a.at.code[0].ins, Place(q.nr, a.at.code[1..]);
    var linked, linked' := Linked(env, b, p.code, a.m), Linked(env, b, q.code, m');
    var taken := Taken(b.cond, a.m.core);
    st' := after;
    if !q.nr {
      if taken {
        st' := ArriveTracks(env, prog, b.target, a.m.core, linked, linked', stale);
      }
    } else {
      var slot := SlotOf(p);
      if slot.Some? && !slot.value.0.Branch? && !(b.likely && !taken) {
        var ins := slot.value.0;
        ExecSame(env, ins, linked, linked', stale);
        var e, e' := Exec(env, ins, linked), Exec(env, ins, linked');
        if e.Next? && taken {
          st' := ArriveTracks(env, prog, b.target, a.m.core, e.m, e'.m, Freshen(ins, stale));
        }
      }
    }
  }

  lemma StepText(env: Env, prog: seq<Line>, line: Line, rest: seq<Line>, nr: bool, m: Mach)
    requires !line.Code?
    ensures Step(env, prog, State(Place(nr, [line] + rest), m)) ==
            Running(State(Place(NrAfter(line, nr), rest), m))
  {
    assert ([line] + rest)[1..] == rest;
  }

  lemma {:induction false} RunNops(env: Env, prog: seq<Line>, n: nat, rest: seq<Line>, nr: bool, m: Mach)
    ensures Steps(env, prog, State(Place(nr, Nops(n) + rest), m), n) == Running(State(Place(nr, rest), m))
    decreases n
  {
    if n == 0 {
      assert Nops(0) + rest == rest;
    } else {
      assert Nops(n) + rest == [NOP] + (Nops(n - 1) + rest);
      assert ([NOP] + (Nops(n - 1) + rest))[1..] == Nops(n - 1) + rest;
      RunNops(env, prog, n - 1, rest, nr, m);
    }
  }

  lemma OneStep(env: Env, prog: seq<Line>, s: State)
    ensures Steps(env, prog, s, 1) == Step(env, prog, s)
  {
    var o := Step(env, prog, s);
    if o.Running? {
      assert Steps(env, prog, o.s, 0) == Running(o.s);
    }
  }

  /** `n` steps to a place, then one more. */
  lemma ThenStep(env: Env, prog: seq<Line>, s: State, n: nat, s': State)
    requires Steps(env, prog, s, n) == Running(s')
    ensures Steps(env, prog, s, n + 1) == Step(env, prog, s')
  {
    StepsAdd(env, prog, s, n, 1);
    OneStep(env, prog, s');
  }

  /** The moved multiply, in its `.set` brackets, in front of the branch. */
  lemma RunMoved(env: Env, prog: seq<Line>, lines: seq<Line>, st: St, rest: seq<Line>, m: Mach) returns (n: nat)
    requires MovesSlot(lines, st)
    ensures var e := Exec(env, lines[1].ins, m);
            e.Next? && e.m.core == m.core &&
            Steps(env, prog, State(Place(true, Lead(lines, st) + rest), m), n) == Running(State(Place(true, rest), e.m))
  {
    var s, pad := Respell(lines[1]), if st.prev == Some(MulFloat) then 1 else 0;
    var m1 := Exec(env, lines[1].ins, m).m;
    var d := [Dir(Pop)] + rest;
    var c := [s] + d;
    var b := [Dir(ArchVr5500)] + c;
    var a := [Dir(Push)] + b;
    assert Lead(lines, st) + rest == Nops(pad) + a;
    RunNops(env, prog, pad, a, true, m);
    StepText(env, prog, Dir(Push), b, true, m);
    StepText(env, prog, Dir(ArchVr5500), c, true, m);
    assert c[1..] == d && Exec(env, s.ins, m) == Next(m1);
    StepText(env, prog, Dir(Pop), rest, true, m1);
    var start := State(Place(true, Nops(pad) + a), m);
    ThenStep(env, prog, start, pad, State(Place(true, a), m));
    ThenStep(env, prog, start, pad + 1, State(Place(true, b), m));
    ThenStep(env, prog, start, pad + 2, State(Place(true, c), m));
    ThenStep(env, prog, start, pad + 3, State(Place(true, d), m1));
    n := pad + 4;
  }

  /** The multiply reads the same operands before the branch as in its slot. */
  lemma ExecBeforeBranch(env: Env, b: Instr, ins: Instr, rest: seq<Line>, m: Mach)
    requires b.Branch? && ins.MulDiv? && (ins.dst.None? || ins.dst == Some(0))
    requires b.link.Some? ==> !Reads(ins, b.link.value)
    ensures Exec(env, ins, Linked(env, b, rest, m)).m == Linked(env, b, rest, Exec(env, ins, m).m)
  {
  }

  /** The two machines behind the multiply and the link, in either order. */
  lemma MovedMachines(env: Env, b: Instr, ins: Instr, rest: seq<Line>, m: Mach, m': Mach, stale: Stale)
    requires b.Branch? && ins.MulDiv? && (ins.dst.None? || ins.dst == Some(0)) && Same(m, m', stale)
    requires b.link.Some? ==> !Reads(ins, b.link.value)
    ensures Exec(env, ins, m').Next? && Exec(env, ins, m').m.core == m.core
    ensures Exec(env, ins, Linked(env, b, rest, m)).Next?
    ensures Same(Exec(env, ins, Linked(env, b, rest, m)).m, Linked(env, b, rest, Exec(env, ins, m').m), FRESH)
    ensures Linked(env, b, rest, m).core == Linked(env, b, rest, Exec(env, ins, m').m).core
  {
    ExecSame(env, ins, m, m', stale);
    ExecBeforeBranch(env, b, ins, rest, m);
  }

  lemma MovedTracks(env: Env, prog: seq<Line>, a: State, m': Mach, st: St, stale: Stale) returns (st': St)
    requires WellFormed(prog, START) && WellFormed(a.at.code, st) && a.at.nr == st.nr
    requires MovesSlot(a.at.code, st) && Same(a.m, m', stale)
    ensures var code := a.at.code;
            Matches(Step(env, prog, a),
                    BranchStep(env, Rewrite(prog, START), code[0].ins, Place(true, Behind(code, st)),
                               Exec(env, code[1].ins, m').m),
                    st', StaleAfter(a, stale))
  {
    var code, q := a.at.code, Place(true, Behind(a.at.code, st));
    var b, ins := code[0].ins, code[1].ins;
    var after := AfterTracks(code, st, q);
    assert code[1..][0] == code[1];
    MovedMachines(env, b, ins, q.code, a.m, m', stale);
    st' := after;
    if Taken(b.cond, a.m.core) {
      st' := ArriveTracks(env, prog, b.target, a.m.core, Exec(env, ins, Linked(env, b, q.code, a.m)).m,
                          Linked(env, b, q.code, Exec(env, ins, m').m), FRESH);
    }
  }

  /** An instruction that is no branch, behind the nops in front of it. */
  lemma PlainTracks(env: Env, prog: seq<Line>, a: State, b: State, st: St, stale: Stale)
    returns (m: nat, st': St)
    requires WellFormed(prog, START)
    requires Tracks(a.at, b.at, st) && Same(a.m, b.m, stale) && !StepUsesStale(a, stale)
    requires a.at.code != [] && a.at.code[0].Code? && !a.at.code[0].ins.Branch?
    ensures m >= 1
    ensures Matches(Step(env, prog, a), Steps(env, Rewrite(prog, START), b, m), st', StaleAfter(a, stale))
  {
    var out, code := Rewrite(prog, START), a.at.code;
    var t := Loop(code, st);
    var rest, pad := Rewrite(code[1..], t.st), |t.emit| - 1;
    st' := t.st;
    TurnKeepsMode(code, st);
    assert b.at.code == Nops(pad) + ([code[0]] + rest);
    RunNops(env, out, pad, [code[0]] + rest, b.at.nr, b.m);
    ThenStep(env, out, b, pad, State(Place(b.at.nr, [code[0]] + rest), b.m));
    assert ([code[0]] + rest)[1..] == rest;
    ExecSame(env, code[0].ins, a.m, b.m, stale);
    m := pad + 1;
  }

  // ----- whole runs -----

  /** One input step is matched by at least one output step. */
  lemma StepTracks(env: Env, prog: seq<Line>, a: State, b: State, st: St, stale: Stale)
    returns (m: nat, st': St)
    requires WellFormed(prog, START)
    requires Tracks(a.at, b.at, st) && Same(a.m, b.m, stale) && !StepUsesStale(a, stale)
    ensures m >= 1
    ensures Matches(Step(env, prog, a), Steps(env, Rewrite(prog, START), b, m), st', StaleAfter(a, stale))
  {
    var out, code := Rewrite(prog, START), a.at.code;
    m, st' := 1, st;
    OneStep(env, out, b);
    if code != [] {
      var t := Loop(code, st);
      if !code[0].Code? {
        st' := t.st;
        TurnKeepsMode(code, st);
        StepText(env, out, code[0], Rewrite(code[1..], t.st), b.at.nr, b.m);
      } else if code[0].ins.Branch? {
        m, st' := BranchRun(env, prog, a, b, st, stale);
      } else {
        m, st' := PlainTracks(env, prog, a, b, st, stale);
      }
    }
  }

  /** Reaching the branch, its slot still behind it. */
  lemma ReachBranch(env: Env, prog: seq<Line>, lines: seq<Line>, st: St, m: Mach)
    requires lines != [] && lines[0].Code? && lines[0].ins.Branch? && !MovesSlot(lines, st)
    ensures Steps(env, prog, State(Place(st.nr, Rewrite(lines, st)), m), |Lead(lines, st)| + 1) ==
            BranchStep(env, prog, lines[0].ins, Place(st.nr, Behind(lines, st)), m)
  {
    var n, code := |Lead(lines, st)|, [lines[0]] + Behind(lines, st);
    BranchTurn(lines, st);
    assert Lead(lines, st) == Nops(n);
    assert code[1..] == Behind(lines, st);
    RunNops(env, prog, n, code, st.nr, m);
    ThenStep(env, prog, State(Place(st.nr, Rewrite(lines, st)), m), n, State(Place(st.nr, code), m));
  }

  /** Reaching the branch behind the multiply moved out of its slot. */
  lemma ReachMovedBranch(env: Env, prog: seq<Line>, lines: seq<Line>, st: St, m: Mach) returns (n: nat)
    requires MovesSlot(lines, st)
    ensures n >= 1 && Exec(env, lines[1].ins, m).Next?
    ensures Steps(env, prog, State(Place(true, Rewrite(lines, st)), m), n) ==
            BranchStep(env, prog, lines[0].ins, Place(true, Behind(lines, st)), Exec(env, lines[1].ins, m).m)
  {
    var code := [lines[0]] + Behind(lines, st);
    BranchTurn(lines, st);
    assert code[1..] == Behind(lines, st);
    n := RunMoved(env, prog, lines, st, code, m);
    ThenStep(env, prog, State(Place(true, Rewrite(lines, st)), m), n, State(Place(true, code), Exec(env, lines[1].ins, m).m));
    n := n + 1;
  }

  lemma BranchRun(env: Env, prog: seq<Line>, a: State, b: State, st: St, stale: Stale)
    returns (m: nat, st': St)
    requires WellFormed(prog, START)
    requires Tracks(a.at, b.at, st) && Same(a.m, b.m, stale) && !StepUsesStale(a, stale)
    requires a.at.code != [] && a.at.code[0].Code? && a.at.code[0].ins.Branch?
    ensures m >= 1
    ensures Matches(Step(env, prog, a), Steps(env, Rewrite(prog, START), b, m), st', StaleAfter(a, stale))
  {
    var code := a.at.code;
    if MovesSlot(code, st) {
      m := ReachMovedBranch(env, Rewrite(prog, START), code, st, b.m);
      st' := MovedTracks(env, prog, a, b.m, st, stale);
    } else {
      var q := Place(st.nr, Behind(code, st));
      m := |Lead(code, st)| + 1;
      ReachBranch(env, Rewrite(prog, START), code, st, b.m);
      BranchTurn(code, st);
      var after := AfterTracks(code, st, q);
      st' := BranchTracks(env, prog, a, q, b.m, st, after, stale);
    }
  }

  lemma {:induction false} RunTracks(env: Env, prog: seq<Line>, a: State, b: State, st: St, stale: Stale, n: nat)
    returns (m: nat, st': St)
    requires WellFormed(prog, START)
    requires Tracks(a.at, b.at, st) && Same(a.m, b.m, stale) && Disciplined(env, prog, a, stale, n)
    ensures m >= n
    ensures Matches(Steps(env, prog, a, n), Steps(env, Rewrite(prog, START), b, m), st', StaleAt(env, prog, a, stale, n))
    decreases n
  {
    m, st' := 0, st;
    if n > 0 {
      var j, mid := StepTracks(env, prog, a, b, st, stale);
      var o, o' := Step(env, prog, a), Steps(env, Rewrite(prog, START), b, j);
      m, st' := n + j, mid;
      if o.Running? {
        var k, end := RunTracks(env, prog, o.s, o'.s, mid, StaleAfter(a, stale), n - 1);
        StepsAdd(env, Rewrite(prog, START), b, j, k);
        m, st' := j + k, end;
      } else {
        StepsAdd(env, Rewrite(prog, START), b, j, n);
      }
    }
  }

  /** What an observer sees of two outcomes: running or stopped alike, for the
      same reason, with the same registers, memory and (unless stale) HI/LO. */
  predicate Alike(o: Outcome, o': Outcome, stale: Stale) {
    if o.Running? then o'.Running? && o.s.at.nr == o'.s.at.nr && Same(o.s.m, o'.s.m, stale)
    else o'.Done? && o.why == o'.why && Same(o.m, o'.m, stale)
  }

  /** Entered at any code point with any machine state, the rewritten file does
      what the file does: every run of it is followed, and every code point of
      one is a code point of the other. */
  lemma MeaningKept(env: Env, prog: seq<Line>, pt: CodePoint, m: Mach, n: nat)
    requires WellFormed(prog, START)
    requires Where(prog, pt).Some? ==> Disciplined(env, prog, State(Where(prog, pt).value, m), FRESH, n)
    ensures Where(prog, pt).Some? <==> Where(Rewrite(prog, START), pt).Some?
    ensures Where(prog, pt).Some? ==>
              var a, b := State(Where(prog, pt).value, m), State(Where(Rewrite(prog, START), pt).value, m);
              exists n' :: n' >= n &&
                Alike(Steps(env, prog, a, n), Steps(env, Rewrite(prog, START), b, n'), StaleAt(env, prog, a, FRESH, n))
  {
    var st := WhereTracks(prog, pt);
    if Where(prog, pt).Some? {
      var a, b := State(Where(prog, pt).value, m), State(Where(Rewrite(prog, START), pt).value, m);
      var n', _ := RunTracks(env, prog, a, b, st, FRESH, n);
      assert Alike(Steps(env, prog, a, n), Steps(env, Rewrite(prog, START), b, n'), StaleAt(env, prog, a, FRESH, n));
    }
  }

  /** Nothing is added either: where the output stops after `n` steps, the input
      has stopped for the same reason. */
  lemma StopsTogether(env: Env, prog: seq<Line>, pt: CodePoint, m: Mach, n: nat)
    requires WellFormed(prog, START)
    requires Where(prog, pt).Some? && Disciplined(env, prog, State(Where(prog, pt).value, m), FRESH, n)
    requires Where(Rewrite(prog, START), pt).Some? ==>
               Steps(env, Rewrite(prog, START), State(Where(Rewrite(prog, START), pt).value, m), n).Done?
    ensures Where(Rewrite(prog, START), pt).Some?
    ensures var a, b := State(Where(prog, pt).value, m), State(Where(Rewrite(prog, START), pt).value, m);
            Alike(Steps(env, prog, a, n), Steps(env, Rewrite(prog, START), b, n), StaleAt(env, prog, a, FRESH, n))
  {
    var st := WhereTracks(prog, pt);
    var a, b := State(Where(prog, pt).value, m), State(Where(Rewrite(prog, START), pt).value, m);
    var n', _ := RunTracks(env, prog, a, b, st, FRESH, n);
    StepsAdd(env, Rewrite(prog, START), b, n, n' - n);
  }
}
