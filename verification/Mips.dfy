/** A small MIPS machine that runs assembly text line by line.

    The program counter is the rest of the file: a place in a program is the
    suffix of lines still to run, with the `.set reorder`/`.set noreorder` mode
    in force there. In a noreorder region a branch owns a delay slot, the next
    instruction line; in a reorder region the assembler fills the slot itself,
    so a branch there has none. A branch-likely that is not taken nullifies its
    slot. Code addresses are symbolic: `Env` says which word a return point is
    and which place a word in a register names.

    Effects the rewriters never look into (loads, stores, floating point, the
    64-bit multiplies) are arbitrary functions of the environment. */
module Mips {
  import opened Prelude

  type Reg = nat

  /** Labels of cc1's own, and the ones sn_li.py makes up. */
  datatype Label = User(name: string) | DivA(n: nat) | DivB(n: nat) | Lit(n: nat)

  datatype Part = Hi | Lo

  datatype MulOp = Mult | Multu | Dmult | Dmultu | Div | Divu | Ddiv | Ddivu {
    predicate IsDiv() { Div? || Divu? || Ddiv? || Ddivu? }
  }

  /** Loads and stores; `merge` for lwl and lwr, which keep part of the register. */
  datatype MemOp = MemOp(store: bool, merge: bool, id: nat)

  datatype Cond = Always | Eq(rs: Reg, rt: Reg) | Ne(rs: Reg, rt: Reg)
                | Lez(rs: Reg) | Gtz(rs: Reg) | Ltz(rs: Reg) | Gez(rs: Reg) | Fp(flag: bool)

  datatype Target = ToLabel(l: Label) | ToReg(rs: Reg)

  datatype Instr =
    | Nop
    | Plain(id: nat)                   // anything else that neither branches nor touches HI/LO
    | FMul(id: nat)                    // mul.s, mul.d
    | Li(rd: Reg, imm: Word)
    | Lui(rd: Reg, imm16: nat)
    | Addu(rd: Reg, rs: Reg, rt: Reg)
    | Mem(op: MemOp, rt: Reg, off: int, base: Reg)
    | MulDiv(mop: MulOp, dst: Option<Reg>, rs: Reg, rt: Reg)
    | MoveFrom(part: Part, rd: Reg)    // mfhi, mflo
    | MoveTo(part: Part, rs: Reg)      // mthi, mtlo
    | Branch(cond: Cond, likely: bool, link: Option<Reg>, target: Target)
    | Break(code: nat)

  datatype Directive = Noreorder | Reorder | Push | ArchVr5500 | Pop | At | Noat | Text(text: string)

  datatype Line = Mark(l: Label) | Dir(d: Directive) | Code(labels: seq<Label>, ins: Instr)

  datatype Core = Core(regs: map<Reg, Word>, mem: map<Word, Word>, fcc: bool)

  /** Registers, memory and the HI/LO pair. */
  datatype Mach = Mach(core: Core, hi: Word, lo: Word)

  /** A place code can be entered from outside straight-line flow: a label, or
      the point after the linking branch with `k` linking branches below it. */
  datatype CodePoint = AtLabel(l: Label) | AfterCall(k: nat)

  datatype Env = Env(
    plain: (nat, Core) -> Core,
    access: (MemOp, Reg, Word, Core) -> Core,
    muldiv: (MulOp, Word, Word) -> (Word, Word),   // (HI, LO)
    retAddr: nat -> Word,
    resolve: Word -> Option<CodePoint>)

  datatype Place = Place(nr: bool, code: seq<Line>)

  datatype State = State(at: Place, m: Mach)

  datatype Why = Trap(code: nat) | LeftTo(l: Label) | LeftAddr(w: Word) | FellOff | Undefined

  datatype Outcome = Running(s: State) | Done(why: Why, m: Mach)

  // ----- registers -----

  function Get(c: Core, r: Reg): Word {
    if r == 0 then 0 else if r in c.regs then c.regs[r] else 0
  }

  function Set(c: Core, r: Reg, w: Word): Core {
    if r == 0 then c else c.(regs := c.regs[r := w])
  }

  function Wrap(x: int): Word { x % 0x1_0000_0000 }

  function Signed(w: Word): int { if w < 0x8000_0000 then w else w - 0x1_0000_0000 }

  // ----- instructions other than branches -----

  datatype Effect = Next(m: Mach) | Traps(code: nat)

  function Exec(env: Env, ins: Instr, m: Mach): Effect
    requires !ins.Branch?
  {
    var c := m.core;
    match ins
    case Nop => Next(m)
    case Plain(id) => Next(m.(core := env.plain(id, c)))
    case FMul(id) => Next(m.(core := env.plain(id, c)))
    case Li(rd, imm) => Next(m.(core := Set(c, rd, imm)))
    case Lui(rd, imm16) => Next(m.(core := Set(c, rd, Wrap(imm16 * 0x1_0000))))
    case Addu(rd, rs, rt) => Next(m.(core := Set(c, rd, Wrap(Get(c, rs) + Get(c, rt)))))
    case Mem(op, rt, off, base) => Next(m.(core := env.access(op, rt, Wrap(Get(c, base) + off), c)))
    case MulDiv(op, dst, rs, rt) =>
      var (h, l) := env.muldiv(op, Get(c, rs), Get(c, rt));
      Next(Mach(if dst.Some? then Set(c, dst.value, l) else c, h, l))
    case MoveFrom(part, rd) => Next(m.(core := Set(c, rd, if part.Hi? then m.hi else m.lo)))
    case MoveTo(part, rs) => Next(if part.Hi? then m.(hi := Get(c, rs)) else m.(lo := Get(c, rs)))
    case Break(code) => Traps(code)
  }

  // ----- places in a program -----

  function NrAfter(line: Line, nr: bool): bool {
    if line == Dir(Noreorder) then true else if line == Dir(Reorder) then false else nr
  }

  predicate Links(line: Line) {
    line.Code? && line.ins.Branch? && line.ins.link.Some?
  }

  function LinkCount(code: seq<Line>): nat {
    if code == [] then 0 else (if Links(code[0]) then 1 else 0) + LinkCount(code[1..])
  }

  predicate Defines(line: Line, l: Label) {
    line == Mark(l) || (line.Code? && l in line.labels)
  }

  /** The delay slot of a branch: the next instruction line, and what follows it. */
  function SlotOf(p: Place): Option<(Instr, Place)>
    decreases |p.code|
  {
    if p.code == [] then None
    else if p.code[0].Code? then Some((p.code[0].ins, Place(p.nr, p.code[1..])))
    else SlotOf(Place(NrAfter(p.code[0], p.nr), p.code[1..]))
  }

  function FindLabel(p: Place, l: Label): Option<Place>
    decreases |p.code|
  {
    if p.code == [] then None
    else if Defines(p.code[0], l) then Some(p)
    else FindLabel(Place(NrAfter(p.code[0], p.nr), p.code[1..]), l)
  }

  /** Where a call returns to: past the slot if the branch has one. */
  function AfterBranch(p: Place): Option<Place> {
    if p.nr then
      var slot := SlotOf(p);
      if slot.None? then None else Some(slot.value.1)
    else Some(p)
  }

  function FindReturn(p: Place, k: nat): Option<Place>
    decreases |p.code|
  {
    if p.code == [] then None
    else
      var rest := Place(NrAfter(p.code[0], p.nr), p.code[1..]);
      if Links(p.code[0]) && LinkCount(p.code[1..]) == k then AfterBranch(rest)
      else FindReturn(rest, k)
  }

  /** A file is read from its top in reorder mode. */
  function Where(prog: seq<Line>, pt: CodePoint): Option<Place> {
    match pt
    case AtLabel(l) => FindLabel(Place(false, prog), l)
    case AfterCall(k) => FindReturn(Place(false, prog), k)
  }

  // ----- one step -----

  predicate Taken(cond: Cond, c: Core) {
    match cond
    case Always => true
    case Eq(rs, rt) => Get(c, rs) == Get(c, rt)
    case Ne(rs, rt) => Get(c, rs) != Get(c, rt)
    case Lez(rs) => Signed(Get(c, rs)) <= 0
    case Gtz(rs) => Signed(Get(c, rs)) > 0
    case Ltz(rs) => Signed(Get(c, rs)) < 0
    case Gez(rs) => Signed(Get(c, rs)) >= 0
    case Fp(flag) => c.fcc == flag
  }

  /** Control arrives at the target read from `before`, with machine state `m`. */
  function Arrive(env: Env, prog: seq<Line>, target: Target, before: Core, m: Mach): Outcome {
    match target
    case ToLabel(l) =>
      var p := Where(prog, AtLabel(l));
      if p.Some? then Running(State(p.value, m)) else Done(LeftTo(l), m)
    case ToReg(rs) =>
      var w := Get(before, rs);
      var pt := env.resolve(w);
      if pt.None? then Done(LeftAddr(w), m)
      else
        var p := Where(prog, pt.value);
        if p.Some? then Running(State(p.value, m)) else Done(LeftAddr(w), m)
  }

  function Linked(env: Env, b: Instr, rest: seq<Line>, m: Mach): Mach
    requires b.Branch?
  {
    if b.link.Some? then m.(core := Set(m.core, b.link.value, env.retAddr(LinkCount(rest)))) else m
  }

  function BranchStep(env: Env, prog: seq<Line>, b: Instr, rest: Place, m: Mach): Outcome
    requires b.Branch?
  {
    var taken := Taken(b.cond, m.core);
    var linked := Linked(env, b, rest.code, m);
    if !rest.nr then
      if taken then Arrive(env, prog, b.target, m.core, linked) else Running(State(rest, linked))
    else
      var slot := SlotOf(rest);
      if slot.None? || slot.value.0.Branch? then Done(Undefined, linked)
      else
        var (ins, after) := slot.value;
        if b.likely && !taken then Running(State(after, linked))
        else
          match Exec(env, ins, linked)
          case Traps(code) => Done(Trap(code), linked)
          case Next(m') =>
            if taken then Arrive(env, prog, b.target, m.core, m') else Running(State(after, m'))
  }

  function Step(env: Env, prog: seq<Line>, s: State): Outcome {
    if s.at.code == [] then Done(FellOff, s.m)
    else
      var line := s.at.code[0];
      var rest := Place(NrAfter(line, s.at.nr), s.at.code[1..]);
      if !line.Code? then Running(State(rest, s.m))
      else if line.ins.Branch? then BranchStep(env, prog, line.ins, rest, s.m)
      else
        match Exec(env, line.ins, s.m)
        case Traps(code) => Done(Trap(code), s.m)
        case Next(m') => Running(State(rest, m'))
  }

  /** At most `n` steps. */
  function Steps(env: Env, prog: seq<Line>, s: State, n: nat): Outcome
    decreases n
  {
    if n == 0 then Running(s)
    else
      match Step(env, prog, s)
      case Done(why, m) => Done(why, m)
      case Running(s') => Steps(env, prog, s', n - 1)
  }

  predicate AtLikely(s: State) {
    s.at.code != [] && s.at.code[0].Code? && s.at.code[0].ins.Branch? && s.at.code[0].ins.likely
  }

  /** No likely branch is met in the next `n` steps. */
  predicate Quiet(env: Env, prog: seq<Line>, s: State, n: nat)
    decreases n
  {
    n == 0 || (!AtLikely(s) && var o := Step(env, prog, s); o.Running? ==> Quiet(env, prog, o.s, n - 1))
  }

  lemma {:induction false} StepsAdd(env: Env, prog: seq<Line>, s: State, j: nat, k: nat)
    ensures var o := Steps(env, prog, s, j);
            Steps(env, prog, s, j + k) == if o.Done? then o else Steps(env, prog, o.s, k)
    decreases j
  {
    if j > 0 {
      var o := Step(env, prog, s);
      if o.Running? {
        StepsAdd(env, prog, o.s, j - 1, k);
      }
    }
  }
}
