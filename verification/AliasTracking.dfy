/** tools/struct_scan.py `arg0_accesses`: following $a0 through a function body.

    Calls have delay slots. The scan reads the `jal` before its slot; the machine
    runs the slot before the callee clobbers the caller's registers. */
module AliasTracking {

  type Reg = nat
  type Kind = nat      // access width and signedness: lw, lh, lhu, lwc1, ...

  const A0: Reg := 4
  const RA: Reg := 31

  /** Registers whose name starts with `s`: s0-s7 and sp. */
  predicate Saved(r: Reg) { 16 <= r <= 23 || r == 29 }

  datatype Ins =
    | Load(kind: Kind, rt: Reg, off: int, base: Reg, fp: bool)
    | Store(kind: Kind, off: int, base: Reg)
    | Move(dst: Reg, src: Reg)        // addu, or, daddu with $0
    | Call                            // jal
    | OtherCall(link: Reg)            // jalr, branch-and-link: not a jal to the scan
    | Write(r: Reg)                   // any other instruction that names a register first
    | Quiet                           // labels, branches, stores by symbol, ...

  // ----- the scan -----

  function HoldersAfter(ins: Ins, holders: set<Reg>): set<Reg> {
    match ins
    case Load(_, rt, _, _, fp) => if fp then holders else holders - {rt}
    case Move(dst, src) => if src in holders then holders + {dst} else holders - {dst}
    case Call => set r | r in holders && Saved(r)
    case Write(r) => holders - {r}
    case _ => holders
  }

  function Recorded(ins: Ins, holders: set<Reg>): multiset<(int, Kind)> {
    if (ins.Load? || ins.Store?) && ins.base in holders && ins.off >= 0 then multiset{(ins.off, ins.kind)}
    else multiset{}
  }

  function Found(body: seq<Ins>, i: nat, holders: set<Reg>): multiset<(int, Kind)>
    decreases |body| - i
  {
    if i >= |body| then multiset{}
    else Recorded(body[i], holders) + Found(body, i + 1, HoldersAfter(body[i], holders))
  }

  /** A line that is no access, move or call: the only kind behind which the scan
      asks whether any register is left to follow. */
  method OtherLine(ins: Ins, holders: set<Reg>) returns (holders': set<Reg>)
    requires !ins.Load? && !ins.Store? && !ins.Move? && !ins.Call?
    ensures holders' == HoldersAfter(ins, holders) && Recorded(ins, holders) == multiset{}
  {
    holders' := holders;
    if ins.Write? {
      holders' := holders - {ins.r};
    }
  }

  method AccessLine(ins: Ins, holders: set<Reg>, out: multiset<(int, Kind)>)
      returns (holders': set<Reg>, out': multiset<(int, Kind)>)
    requires ins.Load? || ins.Store?
    ensures holders' == HoldersAfter(ins, holders) && out' == out + Recorded(ins, holders)
  {
    holders', out' := holders, out;
    if ins.base in holders && ins.off >= 0 {
      out' := out + multiset{(ins.off, ins.kind)};
    }
    if ins.Load? && ins.rt in holders && !ins.fp {
      holders' := holders - {ins.rt};
    }
  }

  method MoveLine(ins: Ins, holders: set<Reg>) returns (holders': set<Reg>)
    requires ins.Move?
    ensures holders' == HoldersAfter(ins, holders) && Recorded(ins, holders) == multiset{}
  {
    holders' := holders;
    if ins.src in holders {
      holders' := holders + {ins.dst};
    } else if ins.dst in holders {
      holders' := holders - {ins.dst};
    }
  }

  lemma FoundStep(all: multiset<(int, Kind)>, body: seq<Ins>, i: nat, holders: set<Reg>, out: multiset<(int, Kind)>)
    requires i < |body| && all == out + Found(body, i, holders)
    ensures all == (out + Recorded(body[i], holders)) + Found(body, i + 1, HoldersAfter(body[i], holders))
  {
    assert Found(body, i, holders) == Recorded(body[i], holders) + Found(body, i + 1, HoldersAfter(body[i], holders));
  }

  /** One line of the body; `looked` when the scan asks whether to go on. */
  method OneLine(ins: Ins, holders: set<Reg>, out: multiset<(int, Kind)>)
      returns (holders': set<Reg>, out': multiset<(int, Kind)>, looked: bool)
    ensures holders' == HoldersAfter(ins, holders) && out' == out + Recorded(ins, holders)
  {
    holders', out', looked := holders, out, false;
    if ins.Load? || ins.Store? {
      holders', out' := AccessLine(ins, holders, out);
    } else if ins.Move? {
      holders' := MoveLine(ins, holders);
    } else if ins.Call? {
      holders' := set r | r in holders && Saved(r);
    } else {
      holders' := OtherLine(ins, holders);
      looked := true;
    }
  }

  method Arg0Accesses(body: seq<Ins>) returns (out: multiset<(int, Kind)>)
    ensures out == Found(body, 0, {A0})
  {
    var holders := {A0};
    out := multiset{};
    ghost var all := Found(body, 0, {A0});
    var i := 0;
    while i < |body|
      invariant 0 <= i <= |body|
      invariant all == out + Found(body, i, holders)
    {
      FoundStep(all, body, i, holders, out);
      var looked;
      holders, out, looked := OneLine(body[i], holders, out);
      if looked && holders == {} {
        NothingLeft(body, i + 1);
        return;
      }
      i := i + 1;
    }
  }

  /** With no holder left nothing more is recorded. */
  lemma {:induction false} NothingLeft(body: seq<Ins>, i: nat)
    ensures Found(body, i, {}) == multiset{}
    decreases |body| - i
  {
    if i < |body| {
      assert HoldersAfter(body[i], {}) == {};
      NothingLeft(body, i + 1);
    }
  }

  // ----- the machine -----

  /** What the scan does not know: values loaded or computed at instruction `i`,
      and what a call at `i` leaves in a register. */
  datatype Env = Env(value: nat -> int, clobber: (nat, Reg) -> int)

  type Regs = Reg -> int

  function With(regs: Regs, r: Reg, v: int): Regs { (q: Reg) => if q == r then v else regs(q) }

  function Exec(ins: Ins, i: nat, env: Env, regs: Regs): Regs {
    match ins
    case Load(_, rt, _, _, fp) => if fp then regs else With(regs, rt, env.value(i))
    case Move(dst, src) => With(regs, dst, regs(src))
    case Write(r) => With(regs, r, env.value(i))
    case _ => regs
  }

  function Clobbered(i: nat, env: Env, regs: Regs): Regs {
    (q: Reg) => if Saved(q) then regs(q) else env.clobber(i, q)
  }

  predicate IsCall(ins: Ins) { ins.Call? || ins.OtherCall? }

  /** The register a call leaves its return address in, before its slot is run. */
  function Link(call: Ins): Reg { if call.OtherCall? then call.link else RA }

  function Linked(call: Ins, i: nat, env: Env, regs: Regs): Regs { With(regs, Link(call), env.value(i)) }

  function BehindSlot(call: Ins, slot: Ins, i: nat, env: Env, regs: Regs): Regs {
    Clobbered(i, env, Exec(slot, i + 1, env, Linked(call, i, env, regs)))
  }

  /** The access an instruction makes, as address and kind. */
  function Made(ins: Ins, regs: Regs): seq<(int, Kind)> {
    if ins.Load? || ins.Store? then [(regs(ins.base) + ins.off, ins.kind)] else []
  }

  /** The accesses of a straight-line run: a call takes effect behind its slot. */
  function Run(body: seq<Ins>, i: nat, env: Env, regs: Regs): seq<(int, Kind)>
    decreases |body| - i
  {
    if i >= |body| then []
    else if IsCall(body[i]) then
      if i + 1 < |body| then
        Made(body[i + 1], Linked(body[i], i, env, regs)) +
        Run(body, i + 2, env, BehindSlot(body[i], body[i + 1], i, env, regs))
      else []
    else Made(body[i], regs) + Run(body, i + 1, env, Exec(body[i], i, env, regs))
  }

  function Shift(access: (int, Kind), a0: int): (int, Kind) { (access.0 - a0, access.1) }

  /** Accesses relative to `a0`. */
  function Relative(trace: seq<(int, Kind)>, a0: int): multiset<(int, Kind)> {
    if trace == [] then multiset{} else multiset{Shift(trace[0], a0)} + Relative(trace[1..], a0)
  }

  // ----- soundness -----

  ghost predicate Tracks(holders: set<Reg>, regs: Regs, a0: int) {
    forall r <- holders :: regs(r) == a0
  }

  function SavedOf(holders: set<Reg>): set<Reg> { set r | r in holders && Saved(r) }

  /** What the scan follows behind a call and its slot. */
  function AfterCall(call: Ins, slot: Ins, holders: set<Reg>): set<Reg> {
    HoldersAfter(slot, HoldersAfter(call, holders))
  }

  /** The scan follows and records no more than it would by reading the call's two
      effects where they take place: the link before the slot, the callee behind. */
  predicate SlotOk(call: Ins, slot: Ins, holders: set<Reg>) {
    !IsCall(slot) &&
    AfterCall(call, slot, holders) <= SavedOf(HoldersAfter(slot, holders - {Link(call)})) &&
    Recorded(slot, HoldersAfter(call, holders)) <= Recorded(slot, holders - {Link(call)})
  }

  predicate Ordinary(body: seq<Ins>, i: nat, holders: set<Reg>)
    decreases |body| - i
  {
    i >= |body| ||
    ((IsCall(body[i]) && i + 1 < |body| ==> SlotOk(body[i], body[i + 1], holders)) &&
     Ordinary(body, i + 1, HoldersAfter(body[i], holders)))
  }

  lemma StepTracks(ins: Ins, i: nat, env: Env, holders: set<Reg>, regs: Regs, a0: int)
    requires Tracks(holders, regs, a0) && !IsCall(ins)
    ensures Tracks(HoldersAfter(ins, holders), Exec(ins, i, env, regs), a0)
  {
  }

  ghost predicate RightOver(call: Ins, slot: Ins, i: nat, holders: set<Reg>, env: Env, regs: Regs, a0: int) {
    Tracks(holders, regs, a0) ==>
      Tracks(AfterCall(call, slot, holders), BehindSlot(call, slot, i, env, regs), a0) &&
      Recorded(slot, HoldersAfter(call, holders)) <= Relative(Made(slot, Linked(call, i, env, regs)), a0)
  }

  ghost predicate AlwaysRight(call: Ins, slot: Ins, i: nat, holders: set<Reg>) {
    forall env: Env, regs: Regs, a0: int :: RightOver(call, slot, i, holders, env, regs, a0)
  }

  lemma CallRight(call: Ins, slot: Ins, i: nat, holders: set<Reg>, env: Env, regs: Regs, a0: int)
    requires IsCall(call) && SlotOk(call, slot, holders)
    ensures RightOver(call, slot, i, holders, env, regs, a0)
  {
    if Tracks(holders, regs, a0) {
      var left, linked := holders - {Link(call)}, Linked(call, i, env, regs);
      StepTracks(slot, i + 1, env, left, linked, a0);
      RecordedMade(slot, left, linked, a0);
    }
  }

  /** A callee that leaves 1 wherever it may. */
  function Careless(i: nat): Env { Env(k => if k == i then 1 else 0, (k, r) => 1) }

  lemma FollowedWrong(call: Ins, slot: Ins, i: nat, holders: set<Reg>, r: Reg)
    requires IsCall(call) && !IsCall(slot)
    requires r in AfterCall(call, slot, holders) && r !in SavedOf(HoldersAfter(slot, holders - {Link(call)}))
    ensures BehindSlot(call, slot, i, Careless(i), _ => 0)(r) == 1
  {
    var linked := Linked(call, i, Careless(i), _ => 0);
    assert linked(Link(call)) == 1;
    assert r in HoldersAfter(slot, holders);
  }

  lemma RecordedWrong(call: Ins, slot: Ins, i: nat, holders: set<Reg>)
    requires IsCall(call) && !IsCall(slot)
    requires !(Recorded(slot, HoldersAfter(call, holders)) <= Recorded(slot, holders - {Link(call)}))
    ensures !(Recorded(slot, HoldersAfter(call, holders)) <=
              Relative(Made(slot, Linked(call, i, Careless(i), _ => 0)), 0))
  {
    var made := Made(slot, Linked(call, i, Careless(i), _ => 0));
    assert made == [(1 + slot.off, slot.kind)] && made[1..] == [];
    assert (slot.off, slot.kind) in Recorded(slot, HoldersAfter(call, holders));
    assert (slot.off, slot.kind) !in Relative(made, 0);
  }

  lemma CallWrong(call: Ins, slot: Ins, i: nat, holders: set<Reg>)
    requires IsCall(call) && !IsCall(slot) && !SlotOk(call, slot, holders)
    ensures !AlwaysRight(call, slot, i, holders)
  {
    var regs: Regs := _ => 0;
    assert Tracks(holders, regs, 0);
    if r :| r in AfterCall(call, slot, holders) && r !in SavedOf(HoldersAfter(slot, holders - {Link(call)})) {
      FollowedWrong(call, slot, i, holders, r);
    } else {
      RecordedWrong(call, slot, i, holders);
    }
    assert !RightOver(call, slot, i, holders, Careless(i), regs, 0);
  }

  /** Over a call and its slot the scan is right on all machines, whatever the
      callee does, exactly under the check above. */
  lemma CallRightExactly(call: Ins, slot: Ins, i: nat, holders: set<Reg>)
    requires IsCall(call) && !IsCall(slot)
    ensures AlwaysRight(call, slot, i, holders) <==> SlotOk(call, slot, holders)
  {
    if SlotOk(call, slot, holders) {
      forall env: Env, regs: Regs, a0: int ensures RightOver(call, slot, i, holders, env, regs, a0) {
        CallRight(call, slot, i, holders, env, regs, a0);
      }
    } else {
      CallWrong(call, slot, i, holders);
    }
  }

  /** For a `jal` the case that fails is a copy into a register the callee is free
      to overwrite, `jal f; move $a0,$s0`. */
  lemma JalSlot(slot: Ins, holders: set<Reg>)
    requires !IsCall(slot)
    ensures SlotOk(Call, slot, holders)
       <==> !(slot.Move? && slot.src in holders && Saved(slot.src) && !Saved(slot.dst))
  {
    if slot.Move? && slot.src in holders && Saved(slot.src) && !Saved(slot.dst) {
      assert slot.dst in AfterCall(Call, slot, holders);
    } else {
      forall r | r in AfterCall(Call, slot, holders)
        ensures r in SavedOf(HoldersAfter(slot, holders - {RA}))
      {
      }
    }
  }

  /** For any other call all registers still followed behind the slot must be ones
      the callee saves. */
  lemma OtherCallSlot(link: Reg, slot: Ins, holders: set<Reg>)
    requires !IsCall(slot) && link !in holders
    ensures SlotOk(OtherCall(link), slot, holders) <==> forall r <- HoldersAfter(slot, holders) :: Saved(r)
  {
    assert holders - {link} == holders;
  }

  lemma RecordedMade(ins: Ins, holders: set<Reg>, regs: Regs, a0: int)
    requires Tracks(holders, regs, a0)
    ensures Recorded(ins, holders) <= Relative(Made(ins, regs), a0)
  {
    if ins.Load? || ins.Store? {
      assert Made(ins, regs)[1..] == [];
    }
  }

  lemma RelativeCons(x: seq<(int, Kind)>, y: seq<(int, Kind)>, a0: int)
    requires x != []
    ensures Relative(x + y, a0) == multiset{Shift(x[0], a0)} + Relative(x[1..] + y, a0)
  {
    assert (x + y)[1..] == x[1..] + y;
  }

  lemma {:induction false} RelativeAppend(x: seq<(int, Kind)>, y: seq<(int, Kind)>, a0: int)
    ensures Relative(x + y, a0) == Relative(x, a0) + Relative(y, a0)
    decreases |x|
  {
    if x == [] {
      assert x + y == y;
    } else {
      var first := multiset{Shift(x[0], a0)};
      RelativeAppend(x[1..], y, a0);
      RelativeCons(x, y, a0);
    }
  }

  /** Every offset the scan records is a real access at $a0 plus that offset. */
  lemma {:induction false} ScanSound(body: seq<Ins>, i: nat, holders: set<Reg>, env: Env, regs: Regs, a0: int)
    requires Ordinary(body, i, holders) && Tracks(holders, regs, a0)
    ensures Found(body, i, holders) <= Relative(Run(body, i, env, regs), a0)
    decreases |body| - i
  {
    if i < |body| {
      var ins := body[i];
      if IsCall(ins) {
        if i + 1 < |body| {
          var slot := body[i + 1];
          var regs' := BehindSlot(ins, slot, i, env, regs);
          CallRight(ins, slot, i, holders, env, regs, a0);
          ScanSound(body, i + 2, AfterCall(ins, slot, holders), env, regs', a0);
          RelativeAppend(Made(slot, Linked(ins, i, env, regs)), Run(body, i + 2, env, regs'), a0);
        }
      } else {
        StepTracks(ins, i, env, holders, regs, a0);
        RecordedMade(ins, holders, regs, a0);
        ScanSound(body, i + 1, HoldersAfter(ins, holders), env, Exec(ins, i, env, regs), a0);
        RelativeAppend(Made(ins, regs), Run(body, i + 1, env, Exec(ins, i, env, regs)), a0);
      }
    }
  }

  lemma BodySound(body: seq<Ins>, env: Env, regs: Regs)
    requires Ordinary(body, 0, {A0})
    ensures Found(body, 0, {A0}) <= Relative(Run(body, 0, env, regs), regs(A0))
  {
    ScanSound(body, 0, {A0}, env, regs, regs(A0));
  }

  /** Two bodies on which the scan is wrong: the access it records at offset 8 goes
      through a register the callee has overwritten. */
  const MISLEADING: seq<Ins> := [Move(16, A0), Call, Move(A0, 16), Load(0, 2, 8, A0, false)]

  const BEHIND_JALR: seq<Ins> := [OtherCall(RA), Quiet, Load(0, 2, 8, A0, false)]

  lemma JalrRun(env: Env, regs: Regs)
    requires env.clobber(0, A0) == 1 && regs(A0) == 0
    ensures Run(BEHIND_JALR, 0, env, regs) == [(9, 0)]
  {
    var r2 := BehindSlot(OtherCall(RA), Quiet, 0, env, regs);
    assert r2(A0) == 1;
    assert Run(BEHIND_JALR, 3, env, Exec(BEHIND_JALR[2], 2, env, r2)) == [];
    assert Run(BEHIND_JALR, 2, env, r2) == [(9, 0)];
    assert Run(BEHIND_JALR, 0, env, regs) == [] + Run(BEHIND_JALR, 2, env, r2);
  }

  lemma JalrMisleads()
    ensures (8, 0) in Found(BEHIND_JALR, 0, {A0})
    ensures exists env: Env, regs: Regs :: (8, 0) !in Relative(Run(BEHIND_JALR, 0, env, regs), regs(A0))
  {
    assert (8, 0) in Recorded(BEHIND_JALR[2], {A0});
    assert (8, 0) in Found(BEHIND_JALR, 2, {A0});
    assert (8, 0) in Found(BEHIND_JALR, 1, {A0});
    var env, regs: Regs := Careless(0), _ => 0;
    JalrRun(env, regs);
    LastAccess();
  }

  lemma LastAccess()
    ensures Relative([(9, 0)], 0) == multiset{(9, 0)}
  {
    var last := [(9, 0)];
    assert last[1..] == [];
  }

  lemma MisleadingFound()
    ensures (8, 0) in Found(MISLEADING, 0, {A0})
  {
    var h1, h2, h3 := {A0, 16}, {16}, {16, A0};
    assert HoldersAfter(MISLEADING[0], {A0}) == h1;
    assert HoldersAfter(MISLEADING[1], h1) == h2;
    assert HoldersAfter(MISLEADING[2], h2) == h3;
    assert (8, 0) in Recorded(MISLEADING[3], h3);
    assert (8, 0) in Found(MISLEADING, 3, h3);
    assert (8, 0) in Found(MISLEADING, 2, h2);
    assert (8, 0) in Found(MISLEADING, 1, h1);
  }

  lemma MisleadingRun(env: Env, regs: Regs)
    requires env.clobber(1, A0) == 1 && regs(A0) == 0
    ensures Run(MISLEADING, 0, env, regs) == [(9, 0)]
  {
    var r1 := Exec(MISLEADING[0], 0, env, regs);
    var r2 := BehindSlot(Call, MISLEADING[2], 1, env, r1);
    assert r2(A0) == 1;
    assert Run(MISLEADING, 4, env, Exec(MISLEADING[3], 3, env, r2)) == [];
    assert Run(MISLEADING, 3, env, r2) == [(9, 0)];
    assert Run(MISLEADING, 1, env, r1) == [] + Run(MISLEADING, 3, env, r2);
    assert Run(MISLEADING, 0, env, regs) == [] + Run(MISLEADING, 1, env, r1);
  }

  lemma MoveInSlotMisleads()
    ensures (8, 0) in Found(MISLEADING, 0, {A0})
    ensures exists env: Env, regs: Regs :: (8, 0) !in Relative(Run(MISLEADING, 0, env, regs), regs(A0))
  {
    MisleadingFound();
    var env, regs: Regs := Env(_ => 0, (k, r) => 1), _ => 0;
    MisleadingRun(env, regs);
    LastAccess();
  }
}
