/** Places in a file and in what tools/sn_hilo.py makes of it: labels, return
    points and delay slots are found in both, at corresponding places. */
module SnHiloPlaces {
  import opened Prelude
  import opened Mips
  import opened SnHilo

  // ----- side conditions -----

  /** From state `st`, the first instruction of `rest` gets hazard nops in front. */
  predicate PadsFirst(rest: seq<Line>, st: St)
    decreases |rest|
  {
    rest != [] &&
    if rest[0].Code? then st.nr && KindOf(rest[0].ins) == Write && Need(st.region) > 0
    else PadsFirst(rest[1..], AfterText(rest[0], st))
  }

  predicate Reads(ins: Instr, r: Reg) {
    r != 0 && ins.MulDiv? && (ins.rs == r || ins.rt == r)
  }

  /** A branch with a slot: the slot is no branch; if it is moved, no label stands on
      either line, and over a linking branch it does not read the link register; if
      it is not on the very next line, it is not a HI/LO write that the filter would
      pad (nops would take its place). */
  predicate BranchOk(lines: seq<Line>, st: St)
    requires lines != []
  {
    lines[0].Code? && lines[0].ins.Branch? && st.nr ==>
      var slot := SlotOf(Place(true, lines[1..]));
      (slot.Some? ==> !slot.value.0.Branch?) &&
      if MovesSlot(lines, st) then
        lines[0].labels == [] && lines[1].labels == [] &&
        (lines[0].ins.link.Some? ==> !Reads(lines[1].ins, lines[0].ins.link.value))
      else if TakesSlot(lines, st) then true
      else !PadsFirst(lines[1..], Loop(lines, st).st)
  }

  /** Every branch is fit to rewrite. */
  predicate WellFormed(lines: seq<Line>, st: St)
    decreases |lines|
  {
    lines == [] ||
    (BranchOk(lines, st) && var t := Loop(lines, st); WellFormed(lines[t.used..], t.st))
  }

  /** The output is at the rewriting of the place the input is at. */
  predicate Tracks(p: Place, q: Place, st: St) {
    p.nr == st.nr && q.nr == st.nr && WellFormed(p.code, st) && q.code == Rewrite(p.code, st)
  }

  // ----- places correspond -----

  /** A line that a search for `l` passes over. */
  predicate Skips(line: Line, l: Label) {
    !Defines(line, l) && line != Dir(Noreorder) && line != Dir(Reorder)
  }

  lemma {:induction false} SkipLines(x: seq<Line>, rest: seq<Line>, nr: bool, l: Label)
    requires forall k :: 0 <= k < |x| ==> Skips(x[k], l)
    ensures FindLabel(Place(nr, x + rest), l) == FindLabel(Place(nr, rest), l)
    decreases |x|
  {
    if x == [] {
      assert x + rest == rest;
    } else {
      assert (x + rest)[0] == x[0] && (x + rest)[1..] == x[1..] + rest;
      SkipLines(x[1..], rest, nr, l);
    }
  }

  /** A turn on an instruction emits no mode switch. */
  lemma TurnKeepsMode(lines: seq<Line>, st: St)
    requires lines != []
    ensures Loop(lines, st).st.nr == NrAfter(lines[0], st.nr)
    ensures lines[0].Code? ==> forall k :: 0 <= k < |Loop(lines, st).emit| ==> NrAfter(Loop(lines, st).emit[k], st.nr) == st.nr
  {
    var t := Loop(lines, st);
    if MovesSlot(lines, st) {
      assert forall k :: 0 <= k < |t.emit| ==> t.emit[k] == NOP || t.emit[k] in Moved(lines[1], lines[0]);
    } else if lines[0].Code? {
      assert forall k :: 0 <= k < |t.emit| ==> t.emit[k].Code?;
    }
  }

  /** The variables that make the filter pass a line, or a slot that stays, through
      as it does here, with the nops in front of it already behind. */
  function Padded(lines: seq<Line>, st: St): St
    requires lines != []
  {
    var need := |Loop(lines, st).emit| - Loop(lines, st).used;
    if !lines[0].Code? || need < 0 then st else st.(region := st.region + Fill(need))
  }

  lemma PaddedTurn(lines: seq<Line>, st: St)
    requires lines != [] && lines[0].Code? && !MovesSlot(lines, st)
    ensures var t, t' := Loop(lines, st), Loop(lines, Padded(lines, st));
            t'.st == t.st && t'.used == t.used && t'.emit == lines[..t.used] && !MovesSlot(lines, Padded(lines, st)) &&
            exists n: nat :: t.emit == Nops(n) + lines[..t.used]
  {
    var t, st' := Loop(lines, st), Padded(lines, st);
    var need: nat := |t.emit| - t.used;
    assert t.emit == Nops(need) + lines[..t.used];
    assert TakesSlot(lines, st') == TakesSlot(lines, st) && st'.prev == st.prev;
    assert !LastIs(st'.region, 1, Read) || need == 0;
    assert Nops(0) + lines[..t.used] == lines[..t.used];
  }

  /** Control may arrive on a line that is not moved: behind its nops. */
  lemma LineTracks(lines: seq<Line>, st: St)
    requires lines != [] && lines[0].Code? && !MovesSlot(lines, st) && WellFormed(lines, st)
    ensures Tracks(Place(st.nr, lines), Place(st.nr, lines[..Loop(lines, st).used] + Rewrite(lines[Loop(lines, st).used..], Loop(lines, st).st)),
                   Padded(lines, st))
  {
    PaddedTurn(lines, st);
  }

  /** And on a slot that stays: behind its branch. */
  function InSlot(st: St): St { St(st.nr, st.region + [Jump], Some(Jump)) }

  lemma SlotLineTracks(lines: seq<Line>, st: St, rest: seq<Line>)
    requires TakesSlot(lines, st) && !MovesSlot(lines, st) && WellFormed(lines, st)
    requires rest == Rewrite(lines[2..], Loop(lines, st).st)
    ensures Tracks(Place(st.nr, lines[1..]), Place(st.nr, [lines[1]] + rest), InSlot(Padded(lines, st)))
  {
    var st' := InSlot(Padded(lines, st));
    PaddedTurn(lines, st);
    assert lines[1..][0] == lines[1] && lines[1..][1..] == lines[2..];
    assert Need(st'.region) == 0;
    assert Loop(lines[1..], st').emit == [lines[1]];
    assert Loop(lines[1..], st').st == Loop(lines, st).st;
  }

  /** A label on one of the lines of a turn. */
  predicate OwnLabel(lines: seq<Line>, st: St, l: Label)
    requires lines != []
  {
    Defines(lines[0], l) || (TakesSlot(lines, st) && Defines(lines[1], l))
  }

  /** The search for such a label stops at the line itself. */
  lemma OwnFound(lines: seq<Line>, st: St, rest: seq<Line>, l: Label)
    requires lines != [] && lines[0].Code? && OwnLabel(lines, st, l)
    ensures FindLabel(Place(st.nr, lines[..Loop(lines, st).used] + rest), l)
         == Some(Place(st.nr, if Defines(lines[0], l) then lines[..Loop(lines, st).used] + rest else [lines[1]] + rest))
  {
    var own := lines[..Loop(lines, st).used];
    assert (own + rest)[0] == lines[0];
    if !Defines(lines[0], l) {
      assert (own + rest)[1..] == [lines[1]] + rest;
      assert ([lines[1]] + rest)[0] == lines[1];
    }
  }

  /** In the output the nops in front of the line are passed over. */
  lemma OwnFoundBehindNops(lines: seq<Line>, st: St, l: Label)
    requires lines != [] && lines[0].Code? && !MovesSlot(lines, st) && OwnLabel(lines, st, l)
    ensures var t := Loop(lines, st);
            var rest := Rewrite(lines[t.used..], t.st);
            FindLabel(Place(st.nr, Rewrite(lines, st)), l) == FindLabel(Place(st.nr, lines[..t.used] + rest), l)
  {
    var t := Loop(lines, st);
    var rest := Rewrite(lines[t.used..], t.st);
    PaddedTurn(lines, st);
    var n: nat :| t.emit == Nops(n) + lines[..t.used];
    SkipNops(n, lines[..t.used], rest, st.nr, l);
  }

  lemma SkipNops(n: nat, own: seq<Line>, rest: seq<Line>, nr: bool, l: Label)
    ensures FindLabel(Place(nr, (Nops(n) + own) + rest), l) == FindLabel(Place(nr, own + rest), l)
  {
    assert (Nops(n) + own) + rest == Nops(n) + (own + rest);
    SkipLines(Nops(n), own + rest, nr, l);
  }

  lemma OwnLabelTracks(lines: seq<Line>, st: St, l: Label) returns (st': St)
    requires lines != [] && lines[0].Code? && !MovesSlot(lines, st) && WellFormed(lines, st) && OwnLabel(lines, st, l)
    ensures var p, q := FindLabel(Place(st.nr, lines), l), FindLabel(Place(st.nr, Rewrite(lines, st)), l);
            p.Some? && q.Some? && Tracks(p.value, q.value, st')
  {
    var t := Loop(lines, st);
    var rest := Rewrite(lines[t.used..], t.st);
    OwnFoundBehindNops(lines, st, l);
    OwnFound(lines, st, rest, l);
    OwnFound(lines, st, lines[t.used..], l);
    assert lines == lines[..t.used] + lines[t.used..];
    if Defines(lines[0], l) {
      st' := Padded(lines, st);
      LineTracks(lines, st);
    } else {
      st' := InSlot(Padded(lines, st));
      SlotLineTracks(lines, st, rest);
      assert lines[1..] == [lines[1]] + lines[2..];
    }
  }

  /** A turn without the label is passed over in both files. */
  lemma TurnPassed(lines: seq<Line>, st: St, l: Label)
    requires lines != [] && lines[0].Code? && !OwnLabel(lines, st, l)
    ensures var t := Loop(lines, st);
            FindLabel(Place(st.nr, lines), l) == FindLabel(Place(st.nr, lines[t.used..]), l) &&
            FindLabel(Place(st.nr, Rewrite(lines, st)), l) == FindLabel(Place(st.nr, Rewrite(lines[t.used..], t.st)), l)
  {
    var t := Loop(lines, st);
    TurnSkips(lines, st, l);
    assert lines == lines[..t.used] + lines[t.used..];
    SkipLines(lines[..t.used], lines[t.used..], st.nr, l);
    SkipLines(t.emit, Rewrite(lines[t.used..], t.st), st.nr, l);
  }

  /** A turn whose lines do not define `l` emits none that does. */
  lemma TurnSkips(lines: seq<Line>, st: St, l: Label)
    requires lines != [] && lines[0].Code? && !OwnLabel(lines, st, l)
    ensures forall k :: 0 <= k < |Loop(lines, st).emit| ==> Skips(Loop(lines, st).emit[k], l)
    ensures forall k :: 0 <= k < Loop(lines, st).used ==> Skips(lines[k], l)
  {
    assert !Defines(lines[0], l) && Skips(NOP, l);
    if TakesSlot(lines, st) {
      assert !Defines(lines[1], l) && Skips(Respell(lines[1]), l);
    }
  }

  lemma {:induction false} LabelTracks(lines: seq<Line>, st: St, l: Label) returns (st': St)
    requires WellFormed(lines, st)
    ensures var p, q := FindLabel(Place(st.nr, lines), l), FindLabel(Place(st.nr, Rewrite(lines, st)), l);
            p.None? == q.None? && (p.Some? ==> Tracks(p.value, q.value, st'))
    decreases |lines|
  {
    st' := st;
    if lines != [] {
      var t := Loop(lines, st);
      TurnKeepsMode(lines, st);
      if lines[0].Code? && OwnLabel(lines, st, l) {
        st' := OwnLabelTracks(lines, st, l);
      } else if lines[0].Code? {
        st' := LabelTracks(lines[t.used..], t.st, l);
        TurnPassed(lines, st, l);
      } else if !Defines(lines[0], l) {
        var rest := Rewrite(lines[1..], t.st);
        st' := LabelTracks(lines[1..], t.st, l);
        assert ([lines[0]] + rest)[1..] == rest;
      }
    }
  }

  lemma {:induction false} LinkCountAppend(x: seq<Line>, y: seq<Line>)
    ensures LinkCount(x + y) == LinkCount(x) + LinkCount(y)
    decreases |x|
  {
    if x == [] {
      assert x + y == y;
    } else {
      assert (x + y)[1..] == x[1..] + y;
      LinkCountAppend(x[1..], y);
    }
  }

  lemma {:induction false} LinkCountNops(n: nat)
    ensures LinkCount(Nops(n)) == 0
    decreases n
  {
    if n > 0 {
      assert Nops(n)[1..] == Nops(n - 1);
      LinkCountNops(n - 1);
    }
  }

  lemma LinkCountOne(line: Line, rest: seq<Line>)
    ensures LinkCount([line] + rest) == (if Links(line) then 1 else 0) + LinkCount(rest)
  {
    assert ([line] + rest)[1..] == rest;
  }

  lemma LinkCountMoved(slot: Line, branch: Line)
    requires !Links(slot)
    ensures LinkCount(Moved(slot, branch)) == if Links(branch) then 1 else 0
  {
    var s := Respell(slot);
    var tail := [Dir(Pop)] + ([branch] + [NOP]);
    MovedSplit(slot, branch);
    LinkCountOne(Dir(Push), [Dir(ArchVr5500)] + ([s] + tail));
    LinkCountOne(Dir(ArchVr5500), [s] + tail);
    LinkCountOne(s, tail);
    LinkCountOne(Dir(Pop), [branch] + [NOP]);
    LinkCountOne(branch, [NOP]);
    LinkCountNops(1);
    assert Nops(1) == [NOP];
  }

  lemma MovedSplit(slot: Line, branch: Line)
    ensures Moved(slot, branch)
         == [Dir(Push)] + ([Dir(ArchVr5500)] + ([Respell(slot)] + ([Dir(Pop)] + ([branch] + [NOP]))))
  {
  }

  lemma {:induction false} TurnLinks(lines: seq<Line>, st: St)
    requires lines != []
    ensures LinkCount(Loop(lines, st).emit) == LinkCount(lines[..Loop(lines, st).used])
  {
    var t := Loop(lines, st);
    var need := |t.emit| - (if MovesSlot(lines, st) then 6 else t.used);
    LinkCountNops(need);
    if MovesSlot(lines, st) {
      LinkCountAppend(Nops(need), Moved(lines[1], lines[0]));
      LinkCountMoved(lines[1], lines[0]);
      assert lines[..2] == [lines[0]] + ([lines[1]] + []);
      LinkCountOne(lines[0], [lines[1]] + []);
      LinkCountOne(lines[1], []);
    } else {
      assert t.emit == Nops(need) + lines[..t.used];
      LinkCountAppend(Nops(need), lines[..t.used]);
    }
  }

  lemma {:induction false} LinksKept(lines: seq<Line>, st: St)
    ensures LinkCount(Rewrite(lines, st)) == LinkCount(lines)
    decreases |lines|
  {
    if lines != [] {
      var t := Loop(lines, st);
      LinksKept(lines[t.used..], t.st);
      TurnLinks(lines, st);
      LinkCountAppend(t.emit, Rewrite(lines[t.used..], t.st));
      assert lines == lines[..t.used] + lines[t.used..];
      LinkCountAppend(lines[..t.used], lines[t.used..]);
    }
  }

  /** A slot that is not padded is still the slot in the output. */
  lemma {:induction false} SlotTracks(rest: seq<Line>, st: St) returns (st': St)
    requires WellFormed(rest, st) && !PadsFirst(rest, st)
    requires var slot := SlotOf(Place(st.nr, rest)); slot.Some? ==> !slot.value.0.Branch?
    ensures var s, s' := SlotOf(Place(st.nr, rest)), SlotOf(Place(st.nr, Rewrite(rest, st)));
            s.None? == s'.None? && (s.Some? ==> s.value.0 == s'.value.0 && Tracks(s.value.1, s'.value.1, st'))
    decreases |rest|
  {
    st' := st;
    if rest != [] {
      var t := Loop(rest, st);
      var tail := Rewrite(rest[1..], t.st);
      TurnKeepsMode(rest, st);
      if rest[0].Code? {
        st' := t.st;
        assert t.emit == [rest[0]];
        assert ([rest[0]] + tail)[1..] == tail;
      } else {
        st' := SlotTracks(rest[1..], t.st);
        assert ([rest[0]] + tail)[1..] == tail;
      }
    }
  }

  lemma {:induction false} SkipReturns(x: seq<Line>, rest: seq<Line>, nr: bool, k: nat)
    requires forall i :: 0 <= i < |x| ==> NrAfter(x[i], nr) == nr
    requires LinkCount(x) == 0
    ensures FindReturn(Place(nr, x + rest), k) == FindReturn(Place(nr, rest), k)
    decreases |x|
  {
    if x == [] {
      assert x + rest == rest;
    } else {
      assert (x + rest)[0] == x[0] && (x + rest)[1..] == x[1..] + rest;
      SkipReturns(x[1..], rest, nr, k);
    }
  }

  /** The place after the branch that opens `lines`, in input and output. */
  lemma AfterTracks(lines: seq<Line>, st: St, q: Place) returns (st': St)
    requires lines != [] && lines[0].Code? && lines[0].ins.Branch? && WellFormed(lines, st)
    requires q.nr == st.nr
    requires q.code == if MovesSlot(lines, st) then [NOP] + Rewrite(lines[2..], Loop(lines, st).st)
                       else if TakesSlot(lines, st) then [lines[1]] + Rewrite(lines[2..], Loop(lines, st).st)
                       else Rewrite(lines[1..], Loop(lines, st).st)
    ensures LinkCount(q.code) == LinkCount(lines[1..])
    ensures var p := Place(st.nr, lines[1..]);
            var a, b := AfterBranch(p), AfterBranch(q);
            a.None? == b.None? && (a.Some? ==> Tracks(a.value, b.value, st'))
    ensures st.nr ==>
              var s, s' := SlotOf(Place(true, lines[1..])), SlotOf(q);
              s.None? == s'.None? &&
              (s.Some? ==> !s.value.0.Branch? && !s'.value.0.Branch? &&
                           s'.value.0 == if MovesSlot(lines, st) then Nop else s.value.0)
  {
    var t := Loop(lines, st);
    var rest := Rewrite(lines[t.used..], t.st);
    LinksKept(lines[t.used..], t.st);
    st' := t.st;
    if TakesSlot(lines, st) {
      assert lines[1..] == [lines[1]] + lines[2..];
      LinkCountOne(lines[1], lines[2..]);
      LinkCountOne(lines[1], rest);
      LinkCountOne(NOP, rest);
      assert lines[1..][1..] == lines[2..];
      assert ([NOP] + rest)[1..] == rest && ([lines[1]] + rest)[1..] == rest;
    } else if st.nr {
      st' := SlotTracks(lines[1..], t.st);
    }
  }

  /** What a turn on a branch puts before the branch, and what follows it. */
  function Lead(lines: seq<Line>, st: St): seq<Line> {
    if MovesSlot(lines, st) then
      Nops(if st.prev == Some(MulFloat) then 1 else 0) +
      [Dir(Push), Dir(ArchVr5500), Respell(lines[1]), Dir(Pop)]
    else if TakesSlot(lines, st) then Nops(if LastIs(st.region, 1, Read) then 1 else 0)
    else []
  }

  function OwnSlot(lines: seq<Line>, st: St): seq<Line> {
    if MovesSlot(lines, st) then [NOP] else if TakesSlot(lines, st) then [lines[1]] else []
  }

  function Behind(lines: seq<Line>, st: St): seq<Line>
    requires lines != []
  {
    var t := Loop(lines, st);
    OwnSlot(lines, st) + Rewrite(lines[t.used..], t.st)
  }

  lemma BranchEmit(lines: seq<Line>, st: St)
    requires lines != [] && lines[0].Code? && lines[0].ins.Branch?
    ensures Loop(lines, st).emit == Lead(lines, st) + ([lines[0]] + OwnSlot(lines, st))
  {
  }

  lemma Regroup<T>(a: seq<T>, b: seq<T>, c: seq<T>, d: seq<T>)
    ensures (a + (b + c)) + d == a + (b + (c + d))
  {
  }

  lemma BranchTurn(lines: seq<Line>, st: St)
    requires lines != [] && lines[0].Code? && lines[0].ins.Branch?
    ensures Rewrite(lines, st) == Lead(lines, st) + ([lines[0]] + Behind(lines, st))
    ensures !TakesSlot(lines, st) ==> Behind(lines, st) == Rewrite(lines[1..], Loop(lines, st).st)
  {
    BranchEmit(lines, st);
    var t := Loop(lines, st);
    Regroup(Lead(lines, st), [lines[0]], OwnSlot(lines, st), Rewrite(lines[t.used..], t.st));
  }

  lemma LeadIsPadding(lines: seq<Line>, st: St)
    ensures forall k :: 0 <= k < |Lead(lines, st)| ==>
                          NrAfter(Lead(lines, st)[k], st.nr) == st.nr && !Links(Lead(lines, st)[k])
  {
  }

  lemma {:induction false} NoLinks(x: seq<Line>)
    requires forall k :: 0 <= k < |x| ==> !Links(x[k])
    ensures LinkCount(x) == 0
    decreases |x|
  {
    if x != [] {
      NoLinks(x[1..]);
    }
  }

  lemma {:induction false} ReturnTracks(lines: seq<Line>, st: St, k: nat) returns (st': St)
    requires WellFormed(lines, st)
    ensures var p, q := FindReturn(Place(st.nr, lines), k), FindReturn(Place(st.nr, Rewrite(lines, st)), k);
            p.None? == q.None? && (p.Some? ==> Tracks(p.value, q.value, st'))
    decreases |lines|
  {
    st' := st;
    if lines != [] {
      var t := Loop(lines, st);
      var rest := Rewrite(lines[t.used..], t.st);
      TurnKeepsMode(lines, st);
      if lines[0].Code? && lines[0].ins.Branch? {
        BranchTurn(lines, st);
        LeadIsPadding(lines, st);
        NoLinks(Lead(lines, st));
        SkipReturns(Lead(lines, st), [lines[0]] + Behind(lines, st), st.nr, k);
        assert ([lines[0]] + Behind(lines, st))[1..] == Behind(lines, st);
        var after := AfterTracks(lines, st, Place(st.nr, Behind(lines, st)));
        if Links(lines[0]) && LinkCount(lines[1..]) == k {
          st' := after;
        } else {
          st' := ReturnTracks(lines[t.used..], t.st, k);
          SkipSlot(lines, st, k);
        }
      } else {
        st' := ReturnTracks(lines[t.used..], t.st, k);
        TurnLinks(lines, st);
        assert LinkCount(lines[..1]) == 0 by { assert lines[..1] == [lines[0]]; NoLinks(lines[..1]); }
        if lines[0].Code? {
          SkipReturns(t.emit, rest, st.nr, k);
        } else {
          assert ([lines[0]] + rest)[1..] == rest;
        }
      }
    }
  }

  lemma SkipSlot(lines: seq<Line>, st: St, k: nat)
    requires lines != [] && lines[0].Code? && lines[0].ins.Branch? && WellFormed(lines, st)
    ensures var t := Loop(lines, st);
            FindReturn(Place(st.nr, Behind(lines, st)), k) == FindReturn(Place(st.nr, Rewrite(lines[t.used..], t.st)), k) &&
            FindReturn(Place(st.nr, lines[1..]), k) == FindReturn(Place(st.nr, lines[t.used..]), k)
  {
    var t := Loop(lines, st);
    var rest := Rewrite(lines[t.used..], t.st);
    if TakesSlot(lines, st) {
      assert lines[1..] == [lines[1]] + lines[2..];
      NoLinks([lines[1]]);
      NoLinks([NOP]);
      SkipReturns([lines[1]], lines[2..], st.nr, k);
      SkipReturns([lines[1]], rest, st.nr, k);
      SkipReturns([NOP], rest, st.nr, k);
    } else {
      BranchTurn(lines, st);
    }
  }

  lemma WhereTracks(prog: seq<Line>, pt: CodePoint) returns (st: St)
    requires WellFormed(prog, START)
    ensures var p, q := Where(prog, pt), Where(Rewrite(prog, START), pt);
            p.None? == q.None? && (p.Some? ==> Tracks(p.value, q.value, st))
  {
    match pt
    case AtLabel(l) => st := LabelTracks(prog, START, l);
    case AfterCall(k) => st := ReturnTracks(prog, START, k);
  }
}
