/** What tools/sn_hilo.py may change: take away the lines it adds, and the output
    is the input with some branch/slot pairs swapped. */
module SnHiloOrder {
  import opened Prelude
  import opened Mips
  import opened SnHilo

  /** A branch with a multiply or divide behind it that the filter may move. */
  predicate MovablePair(a: seq<Line>) {
    |a| > 1 && a[0].Code? && a[0].ins.Branch? && Movable(a[1])
  }

  /** `b` is `a` with nops put in, at most `room` before the next line of `a` and
      two before each later one, and with some pairs in the form of a moved slot.
      Every other line is there, unchanged and in order. */
  predicate Woven(a: seq<Line>, b: seq<Line>, room: nat)
    decreases |b|
  {
    (a == [] && b == []) ||
    (b != [] && b[0] == NOP && room > 0 && Woven(a, b[1..], room - 1)) ||
    (a != [] && b != [] && a[0] == b[0] && Woven(a[1..], b[1..], 2)) ||
    (MovablePair(a) && |b| >= 6 && b[..6] == Moved(a[1], a[0]) && Woven(a[2..], b[6..], 2))
  }

  lemma {:induction false} NopsWoven(a: seq<Line>, b: seq<Line>, n: nat, room: nat)
    requires Woven(a, b, room)
    ensures Woven(a, Nops(n) + b, room + n)
    decreases n
  {
    if n == 0 {
      assert Nops(n) + b == b;
    } else {
      NopsWoven(a, b, n - 1, room);
      assert (Nops(n) + b)[1..] == Nops(n - 1) + b;
    }
  }

  lemma {:induction false} MoreRoom(a: seq<Line>, b: seq<Line>, room: nat, more: nat)
    requires Woven(a, b, room) && room <= more
    ensures Woven(a, b, more)
    decreases |b|
  {
    if b != [] && b[0] == NOP && room > 0 && Woven(a, b[1..], room - 1) {
      MoreRoom(a, b[1..], room - 1, more - 1);
    }
  }

  lemma LineWoven(line: Line, a: seq<Line>, b: seq<Line>)
    requires Woven(a, b, 2)
    ensures Woven([line] + a, [line] + b, 0)
  {
    assert ([line] + a)[1..] == a && ([line] + b)[1..] == b;
  }

  lemma PairWoven(branch: Line, slot: Line, a: seq<Line>, b: seq<Line>)
    requires branch.Code? && branch.ins.Branch? && Movable(slot) && Woven(a, b, 2)
    ensures Woven([branch, slot] + a, Moved(slot, branch) + b, 0)
  {
    assert ([branch, slot] + a)[2..] == a;
    assert (Moved(slot, branch) + b)[..6] == Moved(slot, branch) && (Moved(slot, branch) + b)[6..] == b;
  }

  /** Up to two nops in front. */
  lemma NopsFirst(need: nat, a: seq<Line>, b: seq<Line>)
    requires need <= 2 && Woven(a, b, 0)
    ensures Woven(a, Nops(need) + b, 2)
  {
    NopsWoven(a, b, need, 0);
    MoreRoom(a, Nops(need) + b, need, 2);
  }

  /** One or two lines kept. */
  lemma TwoWoven(x: Line, y: Line, a: seq<Line>, b: seq<Line>)
    requires Woven(a, b, 2)
    ensures Woven([x] + ([y] + a), [x] + ([y] + b), 0)
  {
    LineWoven(y, a, b);
    MoreRoom([y] + a, [y] + b, 0, 2);
    LineWoven(x, [y] + a, [y] + b);
  }

  lemma KeptWoven(kept: seq<Line>, a: seq<Line>, b: seq<Line>)
    requires 1 <= |kept| <= 2 && Woven(a, b, 2)
    ensures Woven(kept + a, kept + b, 0)
  {
    if |kept| == 1 {
      assert kept == [kept[0]];
      LineWoven(kept[0], a, b);
    } else {
      assert kept + a == [kept[0]] + ([kept[1]] + a) && kept + b == [kept[0]] + ([kept[1]] + b);
      TwoWoven(kept[0], kept[1], a, b);
    }
  }

  function OwnLines(lines: seq<Line>, st: St): seq<Line>
    requires lines != []
  {
    if MovesSlot(lines, st) then Moved(lines[1], lines[0]) else lines[..Loop(lines, st).used]
  }

  /** What one turn writes: its own lines kept, or the pair moved, behind nops. */
  lemma TurnShape(lines: seq<Line>, st: St) returns (need: nat)
    requires lines != []
    ensures need <= 2 && Loop(lines, st).emit == Nops(need) + OwnLines(lines, st)
  {
    need := |Loop(lines, st).emit| - |OwnLines(lines, st)|;
  }

  lemma OwnWoven(lines: seq<Line>, st: St, used: nat, b: seq<Line>)
    requires lines != [] && used == Loop(lines, st).used && Woven(lines[used..], b, 2)
    ensures Woven(lines, OwnLines(lines, st) + b, 0)
  {
    assert lines == lines[..used] + lines[used..];
    if MovesSlot(lines, st) {
      assert lines[..2] == [lines[0], lines[1]];
      PairWoven(lines[0], lines[1], lines[2..], b);
    } else {
      KeptWoven(lines[..used], lines[used..], b);
    }
  }

  lemma Assoc(a: seq<Line>, b: seq<Line>, c: seq<Line>)
    ensures (a + b) + c == a + (b + c)
  {
  }

  /** The output without what was added is the input with pairs swapped. */
  lemma {:induction false} OnlySwapsPairs(lines: seq<Line>, st: St)
    ensures Woven(lines, Rewrite(lines, st), 2)
    decreases |lines|
  {
    if lines != [] {
      var t := Loop(lines, st);
      var rest, own := Rewrite(lines[t.used..], t.st), OwnLines(lines, st);
      OnlySwapsPairs(lines[t.used..], t.st);
      OwnWoven(lines, st, t.used, rest);
      var need := TurnShape(lines, st);
      NopsFirst(need, lines, own + rest);
      Assoc(Nops(need), own, rest);
    }
  }
}
