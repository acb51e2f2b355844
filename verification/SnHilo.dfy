/** tools/sn_hilo.py: multiplies and divides around delay slots, and the HI/LO
    hazard inside noreorder regions. */
module SnHilo {
  import opened Prelude
  import opened Mips

  // ----- what the filter knows of an instruction: the class of its mnemonic -----

  datatype Kind = Read | Write | Jump | MulFloat | Plainly

  function KindOf(ins: Instr): Kind {
    match ins
    case MoveFrom(_, _) => Read
    case MulDiv(_, _, _, _) => Write
    case MoveTo(_, _) => Write
    case Branch(_, _, _, _) => Jump
    case FMul(_) => MulFloat
    case _ => Plainly
  }

  /** A real multiply or divide: two operands, or `$0` and two operands. The
      three-operand spelling is only recognised without a label on the line. */
  predicate Movable(line: Line) {
    line.Code? && line.ins.MulDiv? &&
    (line.ins.dst.None? || (line.ins.dst == Some(0) && line.labels == []))
  }

  /** A two-operand divide is respelled with `$0`. */
  function Respell(line: Line): Line {
    if line.Code? && line.ins.MulDiv? && line.ins.mop.IsDiv() && line.ins.dst.None?
    then line.(ins := line.ins.(dst := Some(0)))
    else line
  }

  const NOP: Line := Code([], Nop)

  function Nops(n: nat): (r: seq<Line>)
    ensures |r| == n
    ensures forall k :: 0 <= k < n ==> r[k] == NOP
  {
    seq(n, _ => NOP)
  }

  function Fill(n: nat): seq<Kind> { seq(n, _ => Plainly) }

  /** The loop's variables besides `i` and `out`. */
  datatype St = St(nr: bool, region: seq<Kind>, prev: Option<Kind>)

  const START: St := St(false, [], None)

  predicate LastIs(region: seq<Kind>, back: nat, k: Kind) {
    0 < back <= |region| && region[|region| - back] == k
  }

  function Need(region: seq<Kind>): nat {
    if LastIs(region, 1, Read) then 2 else if LastIs(region, 2, Read) then 1 else 0
  }

  function AfterText(line: Line, st: St): St {
    if line == Dir(Noreorder) then St(true, [], st.prev)
    else if line == Dir(Reorder) then st.(nr := false)
    else st
  }

  /** One turn of the loop: lines consumed, lines emitted, the new variables. */
  datatype Turn = Turn(used: nat, emit: seq<Line>, st: St)

  predicate TakesSlot(lines: seq<Line>, st: St) {
    |lines| > 1 && st.nr && lines[0].Code? && lines[0].ins.Branch? &&
    lines[1].Code? && KindOf(lines[1].ins) == Write
  }

  predicate MovesSlot(lines: seq<Line>, st: St) {
    TakesSlot(lines, st) && Movable(lines[1]) && st.prev != Some(Read)
  }

  function Moved(slot: Line, branch: Line): seq<Line> {
    [Dir(Push), Dir(ArchVr5500), Respell(slot), Dir(Pop), branch, NOP]
  }

  function Loop(lines: seq<Line>, st: St): (t: Turn)
    requires lines != []
    ensures 1 <= t.used <= 2 && t.used <= |lines|
    ensures t.used == 2 <==> TakesSlot(lines, st)
  {
    var line := lines[0];
    if !line.Code? then Turn(1, [line], AfterText(line, st))
    else
      var op := KindOf(line.ins);
      if MovesSlot(lines, st) then
        Turn(2, Nops(if st.prev == Some(MulFloat) then 1 else 0) + Moved(lines[1], line),
             St(st.nr, st.region + [Write, Jump, Plainly], Some(Plainly)))
      else if TakesSlot(lines, st) then
        var need := if LastIs(st.region, 1, Read) then 1 else 0;
        Turn(2, Nops(need) + [line, lines[1]], St(st.nr, st.region + Fill(need) + [Jump, Write], Some(Write)))
      else
        var need := if st.nr && op == Write then Need(st.region) else 0;
        Turn(1, Nops(need) + [line], St(st.nr, st.region + Fill(need) + [op], Some(op)))
  }

  /** What the filter writes for `lines`, entered with the variables `st`. */
  function Rewrite(lines: seq<Line>, st: St): seq<Line>
    decreases |lines|
  {
    if lines == [] then []
    else
      var t := Loop(lines, st);
      t.emit + Rewrite(lines[t.used..], t.st)
  }

  /** The body of the loop of `main`, on the lines from `i` on. */
  method Advance(lines: seq<Line>, i: nat, st: St) returns (t: Turn)
    requires i < |lines|
    ensures t == Loop(lines[i..], st)
  {
    var noreorder, region, prev := st.nr, st.region, st.prev;
    var line, used, emit := lines[i], 1, [];
    assert line == lines[i..][0];
    if line == Dir(Noreorder) {
      noreorder, region := true, [];
    } else if line == Dir(Reorder) {
      noreorder := false;
    }
    if !line.Code? {
      emit := [line];
    } else {
      var op := KindOf(line.ins);
      if noreorder && op == Jump && i + 1 < |lines| && lines[i + 1].Code? && KindOf(lines[i + 1].ins) == Write {
        var slot := lines[i + 1];
        assert slot == lines[i..][1];
        used := 2;
        if Movable(slot) && prev != Some(Read) {
          emit := Nops(if prev == Some(MulFloat) then 1 else 0) + Moved(slot, line);
          region, prev := region + [Write, Jump, Plainly], Some(Plainly);
        } else {
          var need := if LastIs(region, 1, Read) then 1 else 0;
          emit := Nops(need) + [line, slot];
          region, prev := region + Fill(need) + [Jump, Write], Some(Write);
        }
      } else {
        var need := if noreorder && op == Write then Need(region) else 0;
        emit := Nops(need) + [line];
        region, prev := region + Fill(need) + [op], Some(op);
      }
    }
    t := Turn(used, emit, St(noreorder, region, prev));
  }

  /** `main`: the whole filter, line list to line list. */
  method Filter(lines: seq<Line>) returns (out: seq<Line>)
    ensures out == Rewrite(lines, START)
  {
    out := [];
    var st := START;
    var i := 0;
    while i < |lines|
      invariant 0 <= i <= |lines|
      invariant Rewrite(lines, START) == out + Rewrite(lines[i..], st)
      decreases |lines| - i
    {
      var t := Advance(lines, i, st);
      Unfold(lines, i, st, out);
      out := out + t.emit;
      st := t.st;
      i := i + t.used;
    }
  }

  lemma Unfold(lines: seq<Line>, i: nat, st: St, out: seq<Line>)
    requires i < |lines|
    ensures var t := Loop(lines[i..], st);
            out + Rewrite(lines[i..], st) == (out + t.emit) + Rewrite(lines[i + t.used..], t.st)
  {
    assert lines[i..][Loop(lines[i..], st).used..] == lines[i + Loop(lines[i..], st).used..];
  }
}
