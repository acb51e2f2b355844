/** The HI/LO hazard of tools/sn_hilo.py, over a whole output file: inside a
    noreorder region two instructions stand between an mfhi/mflo and the next
    HI/LO write; a write moved out of a delay slot keeps at least one. */
module SnHiloHazard {
  import opened Prelude
  import opened Mips
  import opened SnHilo

  /** A line of the output, and whether it was moved out of a slot. */
  datatype Out = Out(line: Line, moved: bool)

  function Mark(x: seq<Line>, moved: Option<Line>): (r: seq<Out>)
    ensures |r| == |x| && forall k :: 0 <= k < |x| ==> r[k] == Out(x[k], moved == Some(x[k]))
  {
    seq(|x|, k requires 0 <= k < |x| => Out(x[k], moved == Some(x[k])))
  }

  function SlotMoved(lines: seq<Line>, st: St): Option<Line> {
    if MovesSlot(lines, st) then Some(Respell(lines[1])) else None
  }

  /** The output with the moved lines marked. */
  function Marked(lines: seq<Line>, st: St): seq<Out>
    decreases |lines|
  {
    if lines == [] then []
    else
      var t := Loop(lines, st);
      Mark(t.emit, SlotMoved(lines, st)) + Marked(lines[t.used..], t.st)
  }

  lemma {:induction false} MarkedIsRewrite(lines: seq<Line>, st: St)
    ensures |Marked(lines, st)| == |Rewrite(lines, st)|
    ensures forall k :: 0 <= k < |Rewrite(lines, st)| ==> Marked(lines, st)[k].line == Rewrite(lines, st)[k]
    decreases |lines|
  {
    if lines != [] {
      var t := Loop(lines, st);
      MarkedIsRewrite(lines[t.used..], t.st);
    }
  }

  /** An instruction of the output, with the number of `.set noreorder` lines above
      it and the mode. */
  datatype Emitted = Emitted(kind: Kind, region: nat, nr: bool, moved: bool)

  function Trace(out: seq<Out>, nr: bool, region: nat): seq<Emitted> {
    if out == [] then []
    else
      var line := out[0].line;
      (if line.Code? then [Emitted(KindOf(line.ins), region, nr, out[0].moved)] else []) +
      Trace(out[1..], NrAfter(line, nr), if line == Dir(Noreorder) then region + 1 else region)
  }

  /** How far a HI/LO write has to stay behind a read of its region. */
  function Gap(e: Emitted): nat { if e.moved then 2 else 3 }

  ghost predicate Apart(t: seq<Emitted>, p: nat, q: nat)
    requires p < q < |t|
  {
    t[p].kind == Read && t[q].kind == Write && t[p].region == t[q].region && t[q].nr ==> q - p >= Gap(t[q])
  }

  ghost predicate HazardFree(t: seq<Emitted>) {
    forall p: nat, q: nat :: p < q < |t| ==> Apart(t, p, q)
  }

  /** A write may stand behind the kinds `l1`, and `l2` before that. */
  predicate Fits(out: Out, nr: bool, l1: Option<Kind>, l2: Option<Kind>)
    requires out.line.Code?
  {
    nr && KindOf(out.line.ins) == Write ==> l1 != Some(Read) && (l2 == Some(Read) ==> out.moved)
  }

  /** The same discipline read off line by line, `l1` and `l2` being the last two
      kinds emitted in the region. */
  predicate Safe(out: seq<Out>, nr: bool, l1: Option<Kind>, l2: Option<Kind>) {
    out == [] ||
    var line := out[0].line;
    if line.Code? then Fits(out[0], nr, l1, l2) && Safe(out[1..], nr, Some(KindOf(line.ins)), l1)
    else if line == Dir(Noreorder) then Safe(out[1..], true, None, None)
    else Safe(out[1..], NrAfter(line, nr), l1, l2)
  }

  /** The kind `back` instructions before the end of `pre`, if it is in `region`. */
  function Recent(pre: seq<Emitted>, region: nat, back: nat): Option<Kind> {
    if 0 < back <= |pre| && pre[|pre| - back].region == region then Some(pre[|pre| - back].kind) else None
  }

  lemma HazardFreeLonger(pre: seq<Emitted>, e: Emitted)
    requires HazardFree(pre)
    requires forall k :: 0 <= k < |pre| ==> pre[k].region <= e.region
    requires e.nr && e.kind == Write ==>
      Recent(pre, e.region, 1) != Some(Read) && (Recent(pre, e.region, 2) == Some(Read) ==> e.moved)
    ensures HazardFree(pre + [e])
  {
    var longer := pre + [e];
    forall p: nat, q: nat | p < q < |longer| ensures Apart(longer, p, q) {
      if q < |pre| {
        assert Apart(pre, p, q);
      }
    }
  }

  lemma TraceCode(pre: seq<Emitted>, e: Emitted, out: seq<Out>, nr: bool, region: nat)
    requires out != [] && out[0].line.Code? && e == Emitted(KindOf(out[0].line.ins), region, nr, out[0].moved)
    ensures pre + Trace(out, nr, region) == (pre + [e]) + Trace(out[1..], nr, region)
  {
  }

  lemma {:induction false} SafeIsHazardFree(pre: seq<Emitted>, out: seq<Out>, nr: bool, region: nat)
    requires forall k :: 0 <= k < |pre| ==> pre[k].region <= region
    requires HazardFree(pre)
    requires Safe(out, nr, Recent(pre, region, 1), Recent(pre, region, 2))
    ensures HazardFree(pre + Trace(out, nr, region))
    decreases |out|
  {
    if out == [] {
      assert pre + Trace(out, nr, region) == pre;
    } else if out[0].line.Code? {
      var e := Emitted(KindOf(out[0].line.ins), region, nr, out[0].moved);
      var longer := pre + [e];
      HazardFreeLonger(pre, e);
      assert Recent(longer, region, 1) == Some(e.kind) && Recent(longer, region, 2) == Recent(pre, region, 1);
      SafeIsHazardFree(longer, out[1..], nr, region);
      TraceCode(pre, e, out, nr, region);
    } else {
      var line := out[0].line;
      var region' := if line == Dir(Noreorder) then region + 1 else region;
      SafeIsHazardFree(pre, out[1..], NrAfter(line, nr), region');
      assert Trace(out, nr, region) == Trace(out[1..], NrAfter(line, nr), region');
    }
  }

  function Last(region: seq<Kind>, back: nat): Option<Kind> {
    if 0 < back <= |region| then Some(region[|region| - back]) else None
  }

  /** `prev` is the end of the region whenever the region is not empty. */
  predicate Coherent(st: St) {
    st.region != [] ==> st.prev == Last(st.region, 1)
  }

  predicate SafeFrom(out: seq<Out>, st: St) {
    Safe(out, st.nr, Last(st.region, 1), Last(st.region, 2))
  }

  lemma SafeCode(x: Out, rest: seq<Out>, nr: bool, l1: Option<Kind>, l2: Option<Kind>)
    requires x.line.Code?
    ensures Safe([x] + rest, nr, l1, l2) <==> Fits(x, nr, l1, l2) && Safe(rest, nr, Some(KindOf(x.line.ins)), l1)
  {
    assert ([x] + rest)[1..] == rest;
  }

  lemma SafeText(x: Out, rest: seq<Out>, nr: bool, l1: Option<Kind>, l2: Option<Kind>)
    requires !x.line.Code? && x.line != Dir(Noreorder)
    ensures Safe([x] + rest, nr, l1, l2) <==> Safe(rest, NrAfter(x.line, nr), l1, l2)
  {
    assert ([x] + rest)[1..] == rest;
  }

  function OutNops(n: nat): seq<Out> { Mark(Nops(n), None) }

  lemma NopsCons(n: nat, rest: seq<Out>, region: seq<Kind>)
    requires n > 0
    ensures OutNops(n) + rest == [Out(NOP, false)] + (OutNops(n - 1) + rest)
    ensures region + Fill(n) == (region + [Plainly]) + Fill(n - 1)
  {
  }

  lemma {:induction false} SafeNops(n: nat, rest: seq<Out>, nr: bool, region: seq<Kind>)
    requires n <= 2
    requires Safe(rest, nr, Last(region + Fill(n), 1), Last(region + Fill(n), 2))
    ensures Safe(OutNops(n) + rest, nr, Last(region, 1), Last(region, 2))
    decreases n
  {
    if n == 0 {
      assert OutNops(n) + rest == rest && region + Fill(n) == region;
    } else {
      var nop := Out(NOP, false);
      NopsCons(n, rest, region);
      SafeNops(n - 1, rest, nr, region + [Plainly]);
      SafeCode(nop, OutNops(n - 1) + rest, nr, Last(region, 1), Last(region, 2));
    }
  }

  /** The lines a moved slot becomes. */
  function OutMoved(slot: Line, branch: Line): seq<Out> {
    [Out(Dir(Push), false), Out(Dir(ArchVr5500), false), Out(Respell(slot), true), Out(Dir(Pop), false),
     Out(branch, false), Out(NOP, false)]
  }

  lemma SafeBehindSlot(branch: Line, rest: seq<Out>, l1: Option<Kind>)
    requires branch.Code? && branch.ins.Branch? && Safe(rest, true, Some(Plainly), Some(Jump))
    ensures Safe([Out(Dir(Pop), false)] + ([Out(branch, false)] + ([Out(NOP, false)] + rest)), true, Some(Write), l1)
  {
    var tail := [Out(NOP, false)] + rest;
    SafeCode(Out(NOP, false), rest, true, Some(Jump), Some(Write));
    SafeCode(Out(branch, false), tail, true, Some(Write), l1);
    SafeText(Out(Dir(Pop), false), [Out(branch, false)] + tail, true, Some(Write), l1);
  }

  lemma SafeMoved(slot: Line, branch: Line, rest: seq<Out>, l1: Option<Kind>, l2: Option<Kind>)
    requires Movable(slot) && branch.Code? && branch.ins.Branch? && l1 != Some(Read)
    requires Safe(rest, true, Some(Plainly), Some(Jump))
    ensures Safe(OutMoved(slot, branch) + rest, true, l1, l2)
  {
    var s := Out(Respell(slot), true);
    var tail := [Out(Dir(Pop), false)] + ([Out(branch, false)] + ([Out(NOP, false)] + rest));
    SafeBehindSlot(branch, rest, l1);
    SafeCode(s, tail, true, l1, l2);
    SafeText(Out(Dir(ArchVr5500), false), [s] + tail, true, l1, l2);
    SafeText(Out(Dir(Push), false), [Out(Dir(ArchVr5500), false)] + ([s] + tail), true, l1, l2);
    MovedLines(slot, branch, rest);
  }

  lemma MovedLines(slot: Line, branch: Line, rest: seq<Out>)
    ensures OutMoved(slot, branch) + rest
         == [Out(Dir(Push), false)] + ([Out(Dir(ArchVr5500), false)] + ([Out(Respell(slot), true)] +
              ([Out(Dir(Pop), false)] + ([Out(branch, false)] + ([Out(NOP, false)] + rest)))))
  {
  }

  /** What a turn emits, marked. */
  lemma TurnMarks(lines: seq<Line>, st: St, need: nat)
    requires lines != [] && |Loop(lines, st).emit| == need + (if MovesSlot(lines, st) then 6 else Loop(lines, st).used)
    ensures var t := Loop(lines, st);
            Mark(t.emit, SlotMoved(lines, st)) ==
            OutNops(need) + (if MovesSlot(lines, st) then OutMoved(lines[1], lines[0]) else Mark(lines[..t.used], None))
  {
  }

  lemma Assoc(a: seq<Out>, b: seq<Out>, c: seq<Out>)
    ensures (a + b) + c == a + (b + c)
  {
  }

  lemma TurnMoved(lines: seq<Line>, st: St, rest: seq<Out>)
    requires Coherent(st) && MovesSlot(lines, st)
    requires SafeFrom(rest, Loop(lines, st).st)
    ensures SafeFrom(Mark(Loop(lines, st).emit, SlotMoved(lines, st)) + rest, st)
  {
    var need := if st.prev == Some(MulFloat) then 1 else 0;
    var region := st.region + Fill(need);
    SafeMoved(lines[1], lines[0], rest, Last(region, 1), Last(region, 2));
    SafeNops(need, OutMoved(lines[1], lines[0]) + rest, true, st.region);
    TurnMarks(lines, st, need);
    Assoc(OutNops(need), OutMoved(lines[1], lines[0]), rest);
  }

  lemma SafePair(x: Out, y: Out, rest: seq<Out>, l1: Option<Kind>, l2: Option<Kind>)
    requires x.line.Code? && y.line.Code? && KindOf(x.line.ins) == Jump && KindOf(y.line.ins) == Write && l1 != Some(Read)
    requires Safe(rest, true, Some(Write), Some(Jump))
    ensures Safe([x] + ([y] + rest), true, l1, l2)
  {
    SafeCode(y, rest, true, Some(Jump), l1);
    SafeCode(x, [y] + rest, true, l1, l2);
  }

  lemma MarkedPair(lines: seq<Line>, rest: seq<Out>)
    requires |lines| > 1
    ensures Mark(lines[..2], None) + rest == [Out(lines[0], false)] + ([Out(lines[1], false)] + rest)
  {
  }

  /** `region` behind the nops a kept slot needs. */
  lemma NoReadInFront(region: seq<Kind>)
    ensures var need := if LastIs(region, 1, Read) then 1 else 0; Last(region + Fill(need), 1) != Some(Read)
  {
  }

  lemma TurnKept(lines: seq<Line>, st: St, rest: seq<Out>)
    requires TakesSlot(lines, st) && !MovesSlot(lines, st)
    requires SafeFrom(rest, Loop(lines, st).st)
    ensures SafeFrom(Mark(Loop(lines, st).emit, SlotMoved(lines, st)) + rest, st)
  {
    var need := if LastIs(st.region, 1, Read) then 1 else 0;
    var region := st.region + Fill(need);
    var x, y := Out(lines[0], false), Out(lines[1], false);
    NoReadInFront(st.region);
    assert SafeFrom(rest, Loop(lines, st).st) ==> Safe(rest, true, Some(Write), Some(Jump));
    SafePair(x, y, rest, Last(region, 1), Last(region, 2));
    SafeNops(need, [x] + ([y] + rest), true, st.region);
    TurnMarks(lines, st, need);
    MarkedPair(lines, rest);
    Assoc(OutNops(need), Mark(lines[..2], None), rest);
  }

  lemma TurnAlone(lines: seq<Line>, st: St, rest: seq<Out>)
    requires lines != [] && lines[0].Code? && !TakesSlot(lines, st)
    requires SafeFrom(rest, Loop(lines, st).st)
    ensures SafeFrom(Mark(Loop(lines, st).emit, SlotMoved(lines, st)) + rest, st)
  {
    var line := Out(lines[0], false);
    var need := if st.nr && KindOf(lines[0].ins) == Write then Need(st.region) else 0;
    var region := st.region + Fill(need);
    SafeCode(line, rest, st.nr, Last(region, 1), Last(region, 2));
    SafeNops(need, [line] + rest, st.nr, st.region);
    TurnMarks(lines, st, need);
    assert Mark(lines[..1], None) == [line];
    Assoc(OutNops(need), [line], rest);
  }

  lemma {:induction false} MarkedSafe(lines: seq<Line>, st: St)
    requires Coherent(st)
    ensures SafeFrom(Marked(lines, st), st)
    decreases |lines|
  {
    if lines != [] {
      var t := Loop(lines, st);
      var rest := Marked(lines[t.used..], t.st);
      MarkedSafe(lines[t.used..], t.st);
      if !lines[0].Code? {
        assert Mark(t.emit, None) == [Out(lines[0], false)];
        assert ([Out(lines[0], false)] + rest)[1..] == rest;
      } else if MovesSlot(lines, st) {
        TurnMoved(lines, st, rest);
      } else if TakesSlot(lines, st) {
        TurnKept(lines, st, rest);
      } else {
        TurnAlone(lines, st, rest);
      }
    }
  }

  /** Every file the filter writes keeps the hazard, whatever it was given. */
  lemma OutputHazardFree(lines: seq<Line>)
    ensures HazardFree(Trace(Marked(lines, START), false, 0))
    ensures |Marked(lines, START)| == |Rewrite(lines, START)|
    ensures forall k :: 0 <= k < |Rewrite(lines, START)| ==> Marked(lines, START)[k].line == Rewrite(lines, START)[k]
  {
    MarkedIsRewrite(lines, START);
    MarkedSafe(lines, START);
    SafeIsHazardFree([], Marked(lines, START), false, 0);
    assert [] + Trace(Marked(lines, START), false, 0) == Trace(Marked(lines, START), false, 0);
  }
}
