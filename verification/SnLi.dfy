/** tools/sn_li.py: the macro expander over a whole file. Float literals go to a
    pool that is written out at the next section directive, divisions and far
    loads and stores are expanded in place. */
module SnLi {
  import opened Prelude
  import opened Mips
  import opened SnLiDivide

  // ----- loads and stores with a large offset -----

  /** A number, or a symbol that the linker gives the value `v`. */
  datatype Offset = Num(n: int) | Sym(v: int)

  /** The `%hi` and `%lo` halves: the low one is signed. */
  function HiHalf(n: int): nat { ((n + 0x8000) / 0x1_0000) % 0x1_0000 }

  function LoHalf(n: int): int { n - ((n + 0x8000) / 0x1_0000) * 0x1_0000 }

  function ExpandMem(op: MemOp, rt: Reg, off: Offset, base: Reg): Option<seq<Line>> {
    match off
    case Num(n) =>
      if -0x8000 <= n <= 0x7FFF then None
      else Some([Code([], Lui(AT, HiHalf(n))), Code([], Addu(AT, base, AT)), Code([], Mem(op, rt, LoHalf(n), AT))])
    case Sym(v) =>
      if op.store then None
      else Some([Code([], Lui(AT, HiHalf(v))), Code([], Addu(AT, AT, base)), Code([], Mem(op, rt, LoHalf(v), AT))])
  }

  function ValueOf(off: Offset): int { if off.Num? then off.n else off.v }

  lemma Halves(n: int)
    ensures -0x8000 <= LoHalf(n) <= 0x7FFF
    ensures Wrap(HiHalf(n) * 0x1_0000 + LoHalf(n)) == Wrap(n)
  {
    var h := (n + 0x8000) / 0x1_0000;
    var q := h / 0x1_0000;
    assert h == q * 0x1_0000 + HiHalf(n);
    assert HiHalf(n) * 0x1_0000 + LoHalf(n) == n - q * 0x1_0000_0000;
  }

  lemma WrapSum(x: int, y: int)
    ensures Wrap(Wrap(x) + y) == Wrap(x + y)
  {
  }

  /** The machine at the access itself: `$at` holds the upper part of the address. */
  function AtAccess(off: Offset, base: Reg, m: Mach): Mach {
    var c1 := Set(m.core, AT, Wrap(HiHalf(ValueOf(off)) * 0x1_0000));
    m.(core := Set(c1, AT, Wrap(Get(c1, base) + Get(c1, AT))))
  }

  /** The address the expansion accesses, and the one the source line names. */
  function Reached(off: Offset, base: Reg, m: Mach): Word {
    Wrap(Get(AtAccess(off, base, m).core, AT) + LoHalf(ValueOf(off)))
  }

  function Meant(off: Offset, base: Reg, m: Mach): Word {
    Wrap(Get(m.core, base) + ValueOf(off))
  }

  lemma AddressReached(off: Offset, base: Reg, m: Mach)
    requires base != AT
    ensures Reached(off, base, m) == Meant(off, base, m)
  {
    var n, b := ValueOf(off), Get(m.core, base);
    var hi := HiHalf(n) * 0x1_0000;
    Halves(n);
    WrapSum(hi, b);
    WrapSum(hi + b, LoHalf(n));
    WrapSum(hi + LoHalf(n), b);
    WrapSum(n, b);
  }

  lemma Three<T>(x: seq<T>, post: seq<T>)
    requires |x| == 3
    ensures x + post == [x[0]] + ([x[1]] + ([x[2]] + post))
  {
  }

  // ----- what the line owes -----

  /** Equal memories and, but for `$at`, equal registers. */
  ghost predicate SameApart(c: Core, c': Core) {
    (forall q: Reg :: q != AT ==> Get(c, q) == Get(c', q)) && c.mem == c'.mem && c.fcc == c'.fcc
  }

  /** Does the access look at its register's old value? */
  predicate ReadsRt(op: MemOp) { op.store || op.merge }

  /** What an access leaves for a reader: everything but `$at`, and the register loaded. */
  ghost predicate SameResult(op: MemOp, rt: Reg, c: Core, c': Core) {
    SameApart(c, c') && (!op.store ==> Get(c, rt) == Get(c', rt))
  }

  ghost predicate BlindAt(env: Env, op: MemOp, rt: Reg, a: Word, c: Core, c': Core) {
    SameApart(c, c') && (ReadsRt(op) ==> Get(c, rt) == Get(c', rt)) ==>
      SameResult(op, rt, env.access(op, rt, a, c), env.access(op, rt, a, c'))
  }

  /** An access looks at `$at` only if that is the register it stores or merges into. */
  ghost predicate Blind(env: Env, op: MemOp, rt: Reg) {
    forall a: Word, c: Core, c': Core :: BlindAt(env, op, rt, a, c, c')
  }

  /** The line as written accesses its own address with the registers as they are. */
  ghost predicate FarOwed(env: Env, op: MemOp, rt: Reg, off: Offset, base: Reg, m: Mach, m': Mach) {
    SameResult(op, rt, env.access(op, rt, Meant(off, base, m), m.core), m'.core) && m'.hi == m.hi && m'.lo == m.lo
  }

  /** The machine behind the expansion. */
  function Final(env: Env, op: MemOp, rt: Reg, off: Offset, base: Reg, m: Mach): Mach {
    var m' := AtAccess(off, base, m);
    m'.(core := env.access(op, rt, Reached(off, base, m), m'.core))
  }

  /** Before the access `$at` alone has changed. */
  lemma OnlyAtDiffers(off: Offset, base: Reg, m: Mach)
    ensures var m' := AtAccess(off, base, m);
            SameApart(m.core, m'.core) && m'.hi == m.hi && m'.lo == m.lo
  {
  }

  /** What each line of the expansion does. */
  lemma FarLines(env: Env, op: MemOp, rt: Reg, off: Offset, base: Reg, m: Mach) returns (m1: Mach, m2: Mach)
    requires ExpandMem(op, rt, off, base).Some?
    ensures var x := ExpandMem(op, rt, off, base).value;
            |x| == 3 && x[0] == Code([], x[0].ins) && x[1] == Code([], x[1].ins) && x[2] == Code([], x[2].ins) &&
            !x[0].ins.Branch? && !x[1].ins.Branch? && !x[2].ins.Branch? &&
            Exec(env, x[0].ins, m) == Next(m1) && Exec(env, x[1].ins, m1) == Next(m2) &&
            Exec(env, x[2].ins, m2) == Next(Final(env, op, rt, off, base, m))
  {
    m1 := m.(core := Set(m.core, AT, Wrap(HiHalf(ValueOf(off)) * 0x1_0000)));
    m2 := AtAccess(off, base, m);
    assert Exec(env, Lui(AT, HiHalf(ValueOf(off))), m) == Next(m1);
    Sums(env, base, m1);
  }

  /** The addition, in either order of its operands. */
  lemma Sums(env: Env, base: Reg, m: Mach)
    ensures var m' := m.(core := Set(m.core, AT, Wrap(Get(m.core, base) + Get(m.core, AT))));
            Exec(env, Addu(AT, base, AT), m) == Next(m') && Exec(env, Addu(AT, AT, base), m) == Next(m')
  {
  }

  /** Three lines, three steps, from any place the line may stand in. */
  lemma FarRuns(env: Env, prog: seq<Line>, op: MemOp, rt: Reg, off: Offset, base: Reg, nr: bool, post: seq<Line>, m: Mach)
    requires ExpandMem(op, rt, off, base).Some?
    ensures Steps(env, prog, State(Place(nr, ExpandMem(op, rt, off, base).value + post), m), 3)
         == Running(State(Place(nr, post), Final(env, op, rt, off, base, m)))
  {
    var x := ExpandMem(op, rt, off, base).value;
    var m1, m2 := FarLines(env, op, rt, off, base, m);
    Three(x, post);
    PlainLine(env, prog, x[0].ins, [x[1]] + ([x[2]] + post), nr, m, 2);
    PlainLine(env, prog, x[1].ins, [x[2]] + post, nr, m1, 1);
    PlainLine(env, prog, x[2].ins, post, nr, m2, 0);
  }

  lemma PlainLine(env: Env, prog: seq<Line>, ins: Instr, rest: seq<Line>, nr: bool, m: Mach, n: nat)
    requires !ins.Branch? && Exec(env, ins, m).Next?
    ensures Steps(env, prog, State(Place(nr, [Code([], ins)] + rest), m), n + 1)
         == Steps(env, prog, State(Place(nr, rest), Exec(env, ins, m).m), n)
  {
    var s := State(Place(nr, [Code([], ins)] + rest), m);
    assert s.at.code[1..] == rest;
    assert Step(env, prog, s) == Running(State(Place(nr, rest), Exec(env, ins, m).m));
  }

  /** The expansion performs the access at base + offset, mod 2^32, on the
      registers the line was written for. */
  lemma FarAccess(env: Env, prog: seq<Line>, op: MemOp, rt: Reg, off: Offset, base: Reg, nr: bool, post: seq<Line>, m: Mach)
    requires ExpandMem(op, rt, off, base).Some? && base != AT && !(ReadsRt(op) && rt == AT) && Blind(env, op, rt)
    ensures var o := Steps(env, prog, State(Place(nr, ExpandMem(op, rt, off, base).value + post), m), 3);
            o.Running? && o.s.at == Place(nr, post) && FarOwed(env, op, rt, off, base, m, o.s.m)
  {
    FarRuns(env, prog, op, rt, off, base, nr, post, m);
    AddressReached(off, base, m);
    OnlyAtDiffers(off, base, m);
    assert BlindAt(env, op, rt, Meant(off, base, m), m.core, AtAccess(off, base, m).core);
  }

  ghost predicate FarRight(env: Env, prog: seq<Line>, op: MemOp, rt: Reg, off: Offset, base: Reg, nr: bool,
                           post: seq<Line>, m: Mach)
    requires ExpandMem(op, rt, off, base).Some?
  {
    var o := Steps(env, prog, State(Place(nr, ExpandMem(op, rt, off, base).value + post), m), 3);
    o.Running? && o.s.at == Place(nr, post) && FarOwed(env, op, rt, off, base, m, o.s.m)
  }

  ghost predicate AlwaysFarRight(op: MemOp, rt: Reg, off: Offset, base: Reg)
    requires ExpandMem(op, rt, off, base).Some?
  {
    forall env: Env, prog: seq<Line>, nr: bool, post: seq<Line>, m: Mach :: Blind(env, op, rt) ==>
      FarRight(env, prog, op, rt, off, base, nr, post, m)
  }

  /** An access that writes its address to memory, and one that writes its register. */
  function Trace(op: MemOp, rt: Reg, a: Word, c: Core): Core {
    var c' := c.(mem := c.mem[0 := a]);
    if op.store then c' else Set(c', rt, 0)
  }

  function Store(op: MemOp, rt: Reg, a: Word, c: Core): Core { c.(mem := c.mem[0 := Get(c, rt)]) }

  function Tracing(): Env { Ideal().(access := Trace) }

  function Storing(): Env { Ideal().(access := Store) }

  function OnlyAt(v: Word): Mach { Mach(Core(map[AT := v], map[], false), 0, 0) }

  /** With `$at` as the base its value is gone before it is added. */
  lemma BaseLost(op: MemOp, rt: Reg, off: Offset)
    requires ExpandMem(op, rt, off, AT).Some?
    ensures !AlwaysFarRight(op, rt, off, AT)
  {
    var m0, m1 := OnlyAt(0), OnlyAt(1);
    AlwaysBlind(op, rt);
    AtForgotten(off, m0, m1);
    MeantByAt(off);
    if Reached(off, AT, m0) == Meant(off, AT, m0) {
      Missed(op, rt, off, AT, m1);
    } else {
      Missed(op, rt, off, AT, m0);
    }
  }

  lemma AtForgotten(off: Offset, m: Mach, m': Mach)
    ensures Reached(off, AT, m) == Reached(off, AT, m')
  {
    var half: int := Wrap(HiHalf(ValueOf(off)) * 0x1_0000);
    assert Get(AtAccess(off, AT, m).core, AT) == Wrap(half + half);
    assert Get(AtAccess(off, AT, m').core, AT) == Wrap(half + half);
  }

  lemma MeantByAt(off: Offset)
    ensures Meant(off, AT, OnlyAt(0)) != Meant(off, AT, OnlyAt(1))
  {
    assert Get(OnlyAt(0).core, AT) == 0 && Get(OnlyAt(1).core, AT) == 1;
    WrapNext(ValueOf(off));
  }

  lemma WrapNext(x: int)
    ensures Wrap(0 + x) != Wrap(1 + x)
  {
  }

  lemma AlwaysBlind(op: MemOp, rt: Reg)
    ensures Blind(Tracing(), op, rt)
  {
    forall a: Word, c: Core, c': Core ensures BlindAt(Tracing(), op, rt, a, c, c') {
      TracingBlind(op, rt, a, c, c');
    }
  }

  lemma Missed(op: MemOp, rt: Reg, off: Offset, base: Reg, m: Mach)
    requires ExpandMem(op, rt, off, base).Some? && Reached(off, base, m) != Meant(off, base, m)
    ensures !FarRight(Tracing(), [], op, rt, off, base, false, [], m)
  {
    FarRuns(Tracing(), [], op, rt, off, base, false, [], m);
    Traced(op, rt, off, base, m);
  }

  /** Under tracing the line is right only if its own address is reached. */
  lemma Traced(op: MemOp, rt: Reg, off: Offset, base: Reg, m: Mach)
    ensures FarOwed(Tracing(), op, rt, off, base, m, Final(Tracing(), op, rt, off, base, m))
        ==> Reached(off, base, m) == Meant(off, base, m)
  {
    var m2, want := AtAccess(off, base, m), Trace(op, rt, Meant(off, base, m), m.core);
    assert Tracing().access(op, rt, Meant(off, base, m), m.core) == want;
    assert Tracing().access(op, rt, Reached(off, base, m), m2.core) == Trace(op, rt, Reached(off, base, m), m2.core);
    assert want.mem[0] == Meant(off, base, m);
  }

  lemma TracingBlind(op: MemOp, rt: Reg, a: Word, c: Core, c': Core)
    ensures BlindAt(Tracing(), op, rt, a, c, c')
  {
    assert Tracing().access(op, rt, a, c) == Trace(op, rt, a, c);
    assert Tracing().access(op, rt, a, c') == Trace(op, rt, a, c');
    if SameApart(c, c') {
      var d, d' := Trace(op, rt, a, c), Trace(op, rt, a, c');
      forall q: Reg | q != AT ensures Get(d, q) == Get(d', q) {
        assert Get(c, q) == Get(c', q);
      }
    }
  }

  /** `sw $1,0x20000($4)`: what is stored is half an address. */
  lemma RegisterLost(op: MemOp, off: Offset, base: Reg)
    requires ExpandMem(op, AT, off, base).Some? && ReadsRt(op) && base != AT
    ensures !AlwaysFarRight(op, AT, off, base)
  {
    var env := Storing();
    var half := Wrap(HiHalf(ValueOf(off)) * 0x1_0000);
    var m := OnlyAt(if half == 0 then 1 else 0);
    assert Blind(env, op, AT) by {
      forall a: Word, c: Core, c': Core ensures BlindAt(env, op, AT, a, c, c') {
        StoringBlind(op, AT, a, c, c');
      }
    }
    assert Get(m.core, AT) != half && Get(AtAccess(off, base, m).core, AT) == half;
    Overwritten(op, off, base, m);
  }

  lemma Overwritten(op: MemOp, off: Offset, base: Reg, m: Mach)
    requires ExpandMem(op, AT, off, base).Some? && Get(AtAccess(off, base, m).core, AT) != Get(m.core, AT)
    ensures !FarRight(Storing(), [], op, AT, off, base, false, [], m)
  {
    var env, m2 := Storing(), AtAccess(off, base, m);
    var want, got := Store(op, AT, Meant(off, base, m), m.core), Store(op, AT, Reached(off, base, m), m2.core);
    assert env.access(op, AT, Meant(off, base, m), m.core) == want;
    assert env.access(op, AT, Reached(off, base, m), m2.core) == got;
    assert want.mem[0] != got.mem[0];
    FarRuns(env, [], op, AT, off, base, false, [], m);
  }

  lemma StoringBlind(op: MemOp, rt: Reg, a: Word, c: Core, c': Core)
    requires ReadsRt(op)
    ensures BlindAt(Storing(), op, rt, a, c, c')
  {
    assert Storing().access(op, rt, a, c) == Store(op, rt, a, c);
    assert Storing().access(op, rt, a, c') == Store(op, rt, a, c');
    if SameApart(c, c') && Get(c, rt) == Get(c', rt) {
      var d, d' := Store(op, rt, a, c), Store(op, rt, a, c');
      forall q: Reg | q != AT ensures Get(d, q) == Get(d', q) {
        assert Get(c, q) == Get(c', q);
      }
      assert Get(d, rt) == Get(c, rt) && Get(d', rt) == Get(c', rt);
    }
  }

  /** The expansion is the access in every program and on every machine exactly when
      `$at` is not the base, nor a register that is stored or merged into. */
  lemma FarAccessExactly(op: MemOp, rt: Reg, off: Offset, base: Reg)
    requires ExpandMem(op, rt, off, base).Some?
    ensures AlwaysFarRight(op, rt, off, base) <==> base != AT && !(ReadsRt(op) && rt == AT)
  {
    if base == AT {
      BaseLost(op, rt, off);
    } else if ReadsRt(op) && rt == AT {
      RegisterLost(op, off, base);
    } else {
      forall env: Env, prog: seq<Line>, nr: bool, post: seq<Line>, m: Mach | Blind(env, op, rt)
        ensures FarRight(env, prog, op, rt, off, base, nr, post, m)
      {
        FarAccess(env, prog, op, rt, off, base, nr, post, m);
      }
    }
  }
}
