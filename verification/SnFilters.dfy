/** The two assembly filters in a row, as the build runs them: tools/sn_li.py, then
    tools/sn_hilo.py on what it wrote. */
module SnFilters {
  import opened Prelude
  import opened Mips
  import opened SnLiDivide
  import opened SnLiFile
  import opened SnFit
  import opened SnHiloPlaces
  import opened SnHiloMeaning
  import SnLiPool
  import SnHilo

  /** The second filter does not look across a line that is no instruction: behind
      one it goes on as from its beginning, in some state of its own. */
  lemma {:induction false} HiloCut(pre: seq<Line>, code: seq<Line>, st: SnHilo.St) returns (out: seq<Line>, st': SnHilo.St)
    requires code != [] && !code[0].Code?
    ensures SnHilo.Rewrite(pre + code, st) == out + SnHilo.Rewrite(code, st')
    ensures st'.nr == NrThrough(pre, st.nr) && (WellFormed(pre + code, st) ==> WellFormed(code, st'))
    decreases |pre|
  {
    if pre == [] {
      out, st' := [], st;
      assert pre + code == code && [] + SnHilo.Rewrite(code, st) == SnHilo.Rewrite(code, st);
    } else {
      var t := SnHilo.Loop(pre + code, st);
      HiloTurn(pre, code, st);
      var more;
      more, st' := HiloCut(pre[t.used..], code, t.st);
      out := t.emit + more;
      Assoc(t.emit, more, SnHilo.Rewrite(code, st'));
    }
  }

  lemma HiloTurn(pre: seq<Line>, code: seq<Line>, st: SnHilo.St)
    requires pre != [] && code != [] && !code[0].Code?
    ensures var t := SnHilo.Loop(pre + code, st);
            t.used <= |pre| && NrThrough(pre[t.used..], t.st.nr) == NrThrough(pre, st.nr) &&
            SnHilo.Rewrite(pre + code, st) == t.emit + SnHilo.Rewrite(pre[t.used..] + code, t.st) &&
            (WellFormed(pre + code, st) ==> WellFormed(pre[t.used..] + code, t.st))
  {
    var lines := pre + code;
    var t := SnHilo.Loop(lines, st);
    ModeOfTurn(pre, code, st);
    assert lines[t.used..] == pre[t.used..] + code;
  }

  lemma ModeOfTurn(pre: seq<Line>, code: seq<Line>, st: SnHilo.St)
    requires pre != [] && code != [] && !code[0].Code?
    ensures var t := SnHilo.Loop(pre + code, st);
            t.used <= |pre| && NrThrough(pre[t.used..], t.st.nr) == NrThrough(pre, st.nr)
  {
    var lines := pre + code;
    var t := SnHilo.Loop(lines, st);
    TurnKeepsMode(lines, st);
    assert lines[0] == pre[0];
    if t.used == 2 {
      assert |pre| > 1 && lines[1] == pre[1];
      assert pre[1..][0] == pre[1] && pre[1..][1..] == pre[2..];
    }
  }

  /** Away from likely branches nothing becomes stale. */
  lemma {:induction false} QuietRun(env: Env, prog: seq<Line>, s: State, n: nat)
    requires Quiet(env, prog, s, n)
    ensures Disciplined(env, prog, s, FRESH, n) && StaleAt(env, prog, s, FRESH, n) == FRESH
    decreases n
  {
    if n > 0 && Step(env, prog, s).Running? {
      QuietRun(env, prog, Step(env, prog, s).s, n - 1);
    }
  }

  /** What a run in the first file owes, a run in the second pays. */
  lemma OwedThrough(env: Env, prog: seq<Line>, code: seq<Line>, nr: bool, st: SnHilo.St, m: Mach, o: Outcome,
                    op: DivOp, rd: Reg, rs: Reg, rt: Reg, post: seq<Line>) returns (n: nat, st': SnHilo.St)
    requires WellFormed(prog, SnHilo.START) && WellFormed(code, st) && st.nr == nr
    requires Reaches(env, prog, State(Place(nr, code), m), o) && Owed(op, rd, rs, rt, nr, post, m, o)
    ensures Owed(op, rd, rs, rt, nr, SnHilo.Rewrite(post, st'), m,
                 Steps(env, SnHilo.Rewrite(prog, SnHilo.START), State(Place(nr, SnHilo.Rewrite(code, st)), m), n))
  {
    var a, b := State(Place(nr, code), m), State(Place(nr, SnHilo.Rewrite(code, st)), m);
    var k: nat :| Steps(env, prog, a, k) == o && Quiet(env, prog, a, k);
    QuietRun(env, prog, a, k);
    n, st' := RunTracks(env, prog, a, b, st, FRESH, k);
  }

  /** In the file as both filters leave it, the place of every division macro
      divides: the machine traps as it should, or reaches the line behind with the
      truncated result. */
  lemma DivisionsOfBoth(env: Env, items: seq<SnLiPool.Item>, i: nat, m: Mach)
    returns (before: seq<Line>, post: seq<Line>, st: SnHilo.St, st': SnHilo.St, nr: bool, n: nat)
    requires OwnLabels(items) && DividesRight(env)
    requires i < |items| && items[i].DivMacro? && OperandsOk(items[i].op, items[i].rs, items[i].rt)
    requires ItemsFit(items, false)
    ensures var out := SnHilo.Rewrite(Flat(SnLiPool.Rewrite(items, SnLiPool.START)), SnHilo.START);
            var macro := SnHilo.Rewrite(ExpandOf(items[i], i + 1, nr) + post, st);
            out == before + macro &&
            Owed(items[i].op, items[i].rd, items[i].rs, items[i].rt, nr, SnHilo.Rewrite(post, st'), m,
                 Steps(env, out, State(Place(nr, macro), m), n))
  {
    var d, prog := items[i], Flat(SnLiPool.Rewrite(items, SnLiPool.START));
    var pre;
    FitAfterExpansion(items);
    pre, post, nr := DivisionsOfFile(env, items, i, m);
    var code := ExpandOf(d, i + 1, nr) + post;
    before, st := HiloCut(pre, code, SnHilo.START);
    var o :| Owed(d.op, d.rd, d.rs, d.rt, nr, post, m, o) && Reaches(env, pre + code, State(Place(nr, code), m), o);
    n, st' := OwedThrough(env, prog, code, nr, st, m, o, d.op, d.rd, d.rs, d.rt, post);
  }
}
