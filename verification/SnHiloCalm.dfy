/** Files in which no likely branch has a multiply in its slot: tools/sn_hilo.py
    keeps all of the machine, HI and LO included, on every run. */
module SnHiloCalm {
  import opened Prelude
  import opened Mips
  import opened SnHilo
  import opened SnHiloPlaces
  import opened SnHiloMeaning

  /** What a likely branch could nullify, looked up from the line behind it. */
  predicate CalmBehind(rest: seq<Line>) {
    var slot := SlotOf(Place(true, rest));
    slot.Some? ==> !slot.value.0.MulDiv?
  }

  predicate Calm(lines: seq<Line>) {
    lines == [] ||
    ((lines[0].Code? && lines[0].ins.Branch? && lines[0].ins.likely ==> CalmBehind(lines[1..])) && Calm(lines[1..]))
  }

  lemma {:induction false} CalmSlot(p: Place)
    requires Calm(p.code)
    ensures SlotOf(p).Some? ==> Calm(SlotOf(p).value.1.code)
    decreases |p.code|
  {
    if p.code != [] && !p.code[0].Code? {
      CalmSlot(Place(NrAfter(p.code[0], p.nr), p.code[1..]));
    }
  }

  lemma {:induction false} CalmLabel(p: Place, l: Label)
    requires Calm(p.code)
    ensures FindLabel(p, l).Some? ==> Calm(FindLabel(p, l).value.code)
    decreases |p.code|
  {
    if p.code != [] {
      CalmLabel(Place(NrAfter(p.code[0], p.nr), p.code[1..]), l);
    }
  }

  lemma {:induction false} CalmReturn(p: Place, k: nat)
    requires Calm(p.code)
    ensures FindReturn(p, k).Some? ==> Calm(FindReturn(p, k).value.code)
    decreases |p.code|
  {
    if p.code != [] {
      var rest := Place(NrAfter(p.code[0], p.nr), p.code[1..]);
      CalmSlot(rest);
      CalmReturn(rest, k);
    }
  }

  lemma CalmWhere(prog: seq<Line>, pt: CodePoint)
    requires Calm(prog)
    ensures Where(prog, pt).Some? ==> Calm(Where(prog, pt).value.code)
  {
    match pt
    case AtLabel(l) => CalmLabel(Place(false, prog), l);
    case AfterCall(k) => CalmReturn(Place(false, prog), k);
  }

  lemma CalmArrive(env: Env, prog: seq<Line>, target: Target, before: Core, m: Mach)
    requires Calm(prog)
    ensures var o := Arrive(env, prog, target, before, m); o.Running? ==> Calm(o.s.at.code)
  {
    match target
    case ToLabel(l) => CalmWhere(prog, AtLabel(l));
    case ToReg(rs) =>
      var pt := env.resolve(Get(before, rs));
      if pt.Some? {
        CalmWhere(prog, pt.value);
      }
  }

  /** A step stays among calm places and leaves nothing stale. */
  lemma CalmStep(env: Env, prog: seq<Line>, s: State)
    requires Calm(prog) && Calm(s.at.code)
    ensures Step(env, prog, s).Running? ==> Calm(Step(env, prog, s).s.at.code)
    ensures StaleAfter(s, FRESH) == FRESH && !StepUsesStale(s, FRESH)
  {
    if s.at.code != [] && s.at.code[0].Code? && s.at.code[0].ins.Branch? {
      var b, rest := s.at.code[0].ins, Place(s.at.nr, s.at.code[1..]);
      var linked := Linked(env, b, rest.code, s.m);
      CalmSlot(rest);
      CalmArrive(env, prog, b.target, s.m.core, linked);
      if rest.nr && SlotOf(rest).Some? && !SlotOf(rest).value.0.Branch? && Exec(env, SlotOf(rest).value.0, linked).Next? {
        CalmArrive(env, prog, b.target, s.m.core, Exec(env, SlotOf(rest).value.0, linked).m);
      }
    }
  }

  lemma {:induction false} CalmRun(env: Env, prog: seq<Line>, s: State, n: nat)
    requires Calm(prog) && Calm(s.at.code)
    ensures Disciplined(env, prog, s, FRESH, n) && StaleAt(env, prog, s, FRESH, n) == FRESH
    decreases n
  {
    if n > 0 {
      CalmStep(env, prog, s);
      var o := Step(env, prog, s);
      if o.Running? {
        CalmRun(env, prog, o.s, n - 1);
      }
    }
  }

  /** The same in every respect: mode, registers, memory, HI, LO, and why it stopped. */
  predicate Equal(o: Outcome, o': Outcome) {
    if o.Running? then o'.Running? && o.s.at.nr == o'.s.at.nr && o.s.m == o'.s.m
    else o == o'
  }

  /** From every label and return point, every run of the file is a run of what the
      filter writes, with nothing about the run itself assumed. */
  lemma CalmKept(env: Env, prog: seq<Line>, pt: CodePoint, m: Mach, n: nat)
    requires WellFormed(prog, START) && Calm(prog)
    ensures Where(prog, pt).Some? <==> Where(Rewrite(prog, START), pt).Some?
    ensures Where(prog, pt).Some? ==>
              var a, b := State(Where(prog, pt).value, m), State(Where(Rewrite(prog, START), pt).value, m);
              exists n' :: n' >= n && Equal(Steps(env, prog, a, n), Steps(env, Rewrite(prog, START), b, n'))
  {
    if Where(prog, pt).Some? {
      CalmWhere(prog, pt);
      CalmRun(env, prog, State(Where(prog, pt).value, m), n);
    }
    MeaningKept(env, prog, pt, m, n);
    if Where(prog, pt).Some? {
      var a, b := State(Where(prog, pt).value, m), State(Where(Rewrite(prog, START), pt).value, m);
      var n' :| n' >= n && Alike(Steps(env, prog, a, n), Steps(env, Rewrite(prog, START), b, n'), FRESH);
      assert Equal(Steps(env, prog, a, n), Steps(env, Rewrite(prog, START), b, n'));
    }
  }

  /** A loop with a multiply in its branch's slot: `.set noreorder; L: mflo $2; nop;
      bne $2,$3,L; mult $2,$3`. */
  const LOOP: seq<Line> :=
    [Dir(Noreorder), Mark(User("L")), Code([], MoveFrom(Lo, 2)), NOP,
     Code([], Branch(Ne(2, 3), false, None, ToLabel(User("L")))), Code([], MulDiv(Mult, None, 2, 3))]

  lemma LoopIsCalm()
    ensures Calm(LOOP)
  {
    assert LOOP[1..][1..] == LOOP[2..] && LOOP[2..][1..] == LOOP[3..] && LOOP[3..][1..] == LOOP[4..];
    assert LOOP[4..][1..] == LOOP[5..] && LOOP[5..][1..] == [];
    assert Calm(LOOP[5..]) && Calm(LOOP[4..]) && Calm(LOOP[3..]) && Calm(LOOP[2..]) && Calm(LOOP[1..]);
  }

  /** The loop's own branch, met behind the mflo and the nop. */
  lemma LoopEnd(st: St)
    requires st == St(true, [Read, Plainly], Some(Plainly))
    ensures MovesSlot(LOOP[4..], st) && WellFormed(LOOP[4..], st)
  {
    assert LOOP[4..][0] == LOOP[4] && LOOP[4..][1] == LOOP[5] && LOOP[4..][2..] == [];
  }

  /** It meets the conditions, and its slot is moved. */
  lemma LoopQualifies()
    ensures WellFormed(LOOP, START) && Calm(LOOP)
    ensures MovesSlot(LOOP[4..], St(true, [Read, Plainly], Some(Plainly)))
  {
    var s1 := St(true, [], None);
    var s3, s4 := St(true, [Read], Some(Read)), St(true, [Read, Plainly], Some(Plainly));
    LoopIsCalm();
    LoopEnd(s4);
    LineFits(LOOP[3..], s3, s4);
    assert LOOP[3..][1..] == LOOP[4..];
    LineFits(LOOP[2..], s1, s3);
    assert LOOP[2..][1..] == LOOP[3..] && LOOP[1..][1..] == LOOP[2..];
    assert WellFormed(LOOP[1..], s1);
  }

  /** A line that is no branch and needs no nop. */
  lemma LineFits(lines: seq<Line>, st: St, st': St)
    requires lines != [] && lines[0].Code? && !lines[0].ins.Branch? && Loop(lines, st).st == st'
    requires WellFormed(lines[1..], st')
    ensures WellFormed(lines, st)
  {
  }
}
