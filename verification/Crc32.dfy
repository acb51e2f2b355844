/** The CRC-32 of tools/n64crc.c: the table-driven code against the bit-serial
    definition (polynomial 0xEDB88320, reflected, as in section 8 of RFC 1952). */
module Crc32 {
  import opened Prelude
  import opened Bits

  const POLY: Word := 0xEDB8_8320
  const ALL: Word := 0xFFFF_FFFF

  type Bit = b: int | 0 <= b < 2

  // ----- the definition: one message bit at a time -----

  function FeedBit(c: Word, bit: Bit): Word {
    XorWord(c / 2, POLY);
    if c % 2 != bit then Xor(c / 2, POLY) else c / 2
  }

  function Feed(c: Word, bits: seq<Bit>): Word
    decreases |bits|
  {
    if bits == [] then c else Feed(FeedBit(c, bits[0]), bits[1..])
  }

  /** The low `n` bits of `x`, least significant first. */
  function BitsOf(n: nat, x: nat): (r: seq<Bit>)
    ensures |r| == n
  {
    if n == 0 then [] else [x % 2] + BitsOf(n - 1, x / 2)
  }

  function MessageBits(msg: seq<Byte>): seq<Bit> {
    if msg == [] then [] else BitsOf(8, msg[0]) + MessageBits(msg[1..])
  }

  function Crc(msg: seq<Byte>): Word {
    ALL - Feed(ALL, MessageBits(msg))
  }

  // ----- the code: one byte at a time, from a table -----

  function Step(c: Word): Word {
    XorWord(c / 2, POLY);
    if c % 2 == 1 then Xor(c / 2, POLY) else c / 2
  }

  function StepN(n: nat, c: Word): Word
    decreases n
  {
    if n == 0 then c else StepN(n - 1, Step(c))
  }

  /** The table's entry for a byte: eight steps. */
  function Entry(i: Word): Word { StepN(8, i) }

  /** The inner loop of `gen_table`. */
  method TableEntry(i: Word) returns (crc: Word)
    ensures crc == Entry(i)
  {
    crc := i;
    var j := 8;
    while j > 0
      invariant 0 <= j <= 8
      invariant StepN(8, i) == StepN(j, crc)
    {
      XorWord(crc / 2, POLY);
      if crc % 2 == 1 {
        crc := Xor(crc / 2, POLY);
      } else {
        crc := crc / 2;
      }
      j := j - 1;
    }
  }

  method GenTable(table: array<Word>)
    requires table.Length == 256
    modifies table
    ensures forall i :: 0 <= i < 256 ==> table[i] == Entry(i)
  {
    var i := 0;
    while i < 256
      invariant 0 <= i <= 256
      invariant forall k :: 0 <= k < i ==> table[k] == Entry(k)
    {
      table[i] := TableEntry(i);
      i := i + 1;
    }
  }

  // ----- why the table works -----

  lemma StepLinear(a: Word, b: Word)
    ensures Xor(a, b) < 0x1_0000_0000 && Xor(Step(a), Step(b)) < 0x1_0000_0000
    ensures Step(Xor(a, b)) == Xor(Step(a), Step(b))
  {
    XorWord(a, b);
    XorWord(Step(a), Step(b));
    XorParts(a, b);
    var x, y := a / 2, b / 2;
    if a % 2 == 1 && b % 2 == 1 {
      XorFour(x, POLY, y, POLY);
      XorSelf(POLY);
      XorZero(Xor(x, y));
    } else if a % 2 == 1 {
      XorSwap(x, POLY, y);
    } else if b % 2 == 1 {
      XorAssoc(x, y, POLY);
    }
  }

  lemma {:induction false} StepsLinear(n: nat, a: Word, b: Word)
    ensures Xor(a, b) < 0x1_0000_0000
    ensures StepN(n, Xor(a, b)) == Xor(StepN(n, a), StepN(n, b))
    decreases n
  {
    XorWord(a, b);
    if n != 0 {
      StepLinear(a, b);
      StepsLinear(n - 1, Step(a), Step(b));
    }
  }

  /** Feeding bits is stepping with the bits folded into the state first. */
  lemma FeedBitStep(c: Word, x: Word)
    ensures Xor(c, x) < 0x1_0000_0000 && Xor(FeedBit(c, x % 2), x / 2) < 0x1_0000_0000
    ensures Step(Xor(c, x)) == Xor(FeedBit(c, x % 2), x / 2)
  {
    XorWord(c, x);
    XorWord(FeedBit(c, x % 2), x / 2);
    XorParts(c, x);
    XorSwap(c / 2, POLY, x / 2);
  }

  lemma {:induction false} FeedIsSteps(n: nat, c: Word, x: Word)
    requires High(n, x) == 0
    ensures Xor(c, x) < 0x1_0000_0000
    ensures Feed(c, BitsOf(n, x)) == StepN(n, Xor(c, x))
    decreases n
  {
    XorWord(c, x);
    if n == 0 {
      XorZero(c);
    } else {
      assert BitsOf(n, x)[1..] == BitsOf(n - 1, x / 2);
      FeedBitStep(c, x);
      FeedIsSteps(n - 1, FeedBit(c, x % 2), x / 2);
    }
  }

  /** `n` steps move the high part down and look only at the low part. */
  lemma {:induction false} StepsSplit(n: nat, x: Word)
    ensures High(n, x) <= x && Low(n, x) <= x
    ensures StepN(n, x) == Xor(High(n, x), StepN(n, Low(n, x)))
    decreases n
  {
    CutBounds(n, x);
    if n == 0 {
      XorZero(x);
      assert StepN(0, x) == x && High(0, x) == x && Low(0, x) == 0;
    } else {
      LowParts(n, x);
      StepsSplit(n - 1, x / 2);
      var p: Word := if x % 2 == 1 then POLY else 0;
      var h, l := High(n, x), Low(n - 1, x / 2);
      XorZero(x / 2);
      XorZero(l);
      StepsLinear(n - 1, x / 2, p);
      StepsLinear(n - 1, l, p);
      XorAssoc(h, StepN(n - 1, l), StepN(n - 1, p));
      assert Step(x) == Xor(x / 2, p) && Step(Low(n, x)) == Xor(l, p);
    }
  }

  lemma {:induction false} CutBounds(n: nat, x: nat)
    ensures High(n, x) <= x && Low(n, x) <= x
    decreases n
  {
    if n != 0 {
      CutBounds(n - 1, x / 2);
    }
  }

  /** One table look-up is eight bits of the definition. */
  lemma {:induction false} TableStep(c: Word, b: Byte)
    ensures 0 <= Xor(c, b) % 0x100 < 0x100
    ensures Xor(c / 0x100, StepN(8, Xor(c, b) % 0x100)) == Feed(c, BitsOf(8, b))
  {
    XorWord(c, b);
    CutAtByte(b);
    CutAtByte(c);
    CutAtByte(Xor(c, b));
    FeedIsSteps(8, c, b);
    StepsSplit(8, Xor(c, b));
    XorHigh(8, c, b);
    XorZero(c / 0x100);
  }

  lemma {:induction false} FeedAppend(c: Word, x: seq<Bit>, y: seq<Bit>)
    ensures Feed(c, x + y) == Feed(Feed(c, x), y)
    decreases |x|
  {
    if x == [] {
      assert x + y == y;
    } else {
      assert (x + y)[1..] == x[1..] + y;
      FeedAppend(FeedBit(c, x[0]), x[1..], y);
    }
  }

  lemma {:induction false} MessageSnoc(msg: seq<Byte>, b: Byte)
    ensures MessageBits(msg + [b]) == MessageBits(msg) + BitsOf(8, b)
  {
    if msg == [] {
      assert [b][1..] == [];
      assert msg + [b] == [b];
    } else {
      assert (msg + [b])[1..] == msg[1..] + [b];
      MessageSnoc(msg[1..], b);
    }
  }

  /** `crc32`: the table-driven loop computes the bit-serial CRC of every message. */
  method ComputeCrc(table: array<Word>, data: array<Byte>, start: nat, len: nat) returns (crc: Word)
    requires table.Length == 256 && forall i :: 0 <= i < 256 ==> table[i] == Entry(i)
    requires start + len <= data.Length
    ensures crc == Crc(data[start..start + len])
  {
    crc := ALL;
    var i := 0;
    while i < len
      invariant 0 <= i <= len
      invariant crc == Feed(ALL, MessageBits(data[start..start + i]))
    {
      var b := data[start + i];
      TableStep(crc, b);
      MessageSnoc(data[start..start + i], b);
      FeedAppend(ALL, MessageBits(data[start..start + i]), BitsOf(8, b));
      assert data[start..start + i + 1] == data[start..start + i] + [b];
      crc := Xor(crc / 0x100, table[Xor(crc, b) % 0x100]);
      i := i + 1;
    }
    crc := ALL - crc;
  }

  // ----- what the CRC promises -----

  function XorMessages(a: seq<Byte>, b: seq<Byte>): (r: seq<Byte>)
    requires |a| == |b|
    ensures |r| == |a|
  {
    if a == [] then []
    else
      XorByte(a[0], b[0]);
      [Xor(a[0], b[0])] + XorMessages(a[1..], b[1..])
  }

  lemma XorByte(a: Byte, b: Byte)
    ensures Xor(a, b) < 0x100
  {
    Pow2Values();
    XorBelow(8, a, b);
  }

  /** The state after a message, byte by byte. */
  function Run(c: Word, msg: seq<Byte>): Word {
    Feed(c, MessageBits(msg))
  }

  lemma {:induction false} RunStep(c: Word, msg: seq<Byte>)
    requires msg != []
    ensures Xor(c, msg[0]) < 0x1_0000_0000
    ensures Run(c, msg) == Run(StepN(8, Xor(c, msg[0])), msg[1..])
  {
    XorWord(c, msg[0]);
    CutAtByte(msg[0]);
    FeedIsSteps(8, c, msg[0]);
    FeedAppend(c, BitsOf(8, msg[0]), MessageBits(msg[1..]));
  }

  lemma {:induction false} RunLinear(c: Word, d: Word, a: seq<Byte>, b: seq<Byte>)
    requires |a| == |b|
    ensures Xor(c, d) < 0x1_0000_0000
    ensures Run(Xor(c, d), XorMessages(a, b)) == Xor(Run(c, a), Run(d, b))
    decreases |a|
  {
    XorWord(c, d);
    if a != [] {
      var x, y := a[0], b[0];
      XorByte(x, y);
      RunStep(c, a);
      RunStep(d, b);
      RunStep(Xor(c, d), XorMessages(a, b));
      XorFour(c, d, x, y);
      StepsLinear(8, Xor(c, x), Xor(d, y));
      assert XorMessages(a, b)[1..] == XorMessages(a[1..], b[1..]);
      RunLinear(StepN(8, Xor(c, x)), StepN(8, Xor(d, y)), a[1..], b[1..]);
    }
  }

  lemma {:induction false} Complement(n: nat, c: nat)
    requires c < Pow2(n)
    ensures Xor(c, Pow2(n) - 1) == Pow2(n) - 1 - c
  {
    if n != 0 {
      Complement(n - 1, c / 2);
      XorParts(c, Pow2(n) - 1);
      assert (Pow2(n) - 1) / 2 == Pow2(n - 1) - 1 && (Pow2(n) - 1) % 2 == 1;
    }
  }

  lemma CrcXor(msg: seq<Byte>)
    ensures Crc(msg) == Xor(Run(ALL, msg), ALL)
  {
    Pow2Values();
    Complement(32, Run(ALL, msg));
  }

  /** The CRC is affine: over messages of one length, the CRCs of three messages
      combine to the CRC of their combination. */
  lemma {:induction false} CrcAffine(a: seq<Byte>, b: seq<Byte>, c: seq<Byte>)
    requires |a| == |b| == |c|
    ensures Xor(Xor(Crc(a), Crc(b)), Crc(c)) == Crc(XorMessages(XorMessages(a, b), c))
  {
    var x, y, z := Run(ALL, a), Run(ALL, b), Run(ALL, c);
    CrcXor(a);
    CrcXor(b);
    CrcXor(c);
    CrcXor(XorMessages(XorMessages(a, b), c));
    RunLinear(ALL, ALL, a, b);
    XorSelf(ALL);
    RunLinear(0, ALL, XorMessages(a, b), c);
    XorZero(ALL);
    XorFour(x, ALL, y, ALL);
    XorZero(Xor(x, y));
    XorAssoc(Xor(x, y), z, ALL);
  }

  // ----- burst errors -----

  lemma StepInjective(a: Word, b: Word)
    requires Step(a) == Step(b)
    ensures a == b
  {
    StepParity(a);
    StepParity(b);
    if a % 2 == 1 {
      XorCancel(a / 2, b / 2, POLY);
    }
  }

  /** The top bit of the polynomial tells which branch a step took. */
  lemma StepParity(a: Word)
    ensures Step(a) >= 0x8000_0000 <==> a % 2 == 1
  {
    Pow2Values();
    assert Pow2(32) == 2 * Pow2(31);
    if a % 2 == 1 {
      XorTop(31, a / 2, POLY);
    }
  }

  lemma {:induction false} StepsInjective(n: nat, a: Word, b: Word)
    requires StepN(n, a) == StepN(n, b)
    ensures a == b
    decreases n
  {
    if n != 0 {
      StepsInjective(n - 1, Step(a), Step(b));
      StepInjective(a, b);
    }
  }

  /** A bit sequence as a number, first bit lowest. */
  function Num(bits: seq<Bit>): nat {
    if bits == [] then 0 else bits[0] + 2 * Num(bits[1..])
  }

  lemma {:induction false} NumBits(bits: seq<Bit>)
    ensures Num(bits) < Pow2(|bits|) && BitsOf(|bits|, Num(bits)) == bits && High(|bits|, Num(bits)) == 0
  {
    if bits != [] {
      NumBits(bits[1..]);
      assert bits == [bits[0]] + bits[1..];
    }
  }

  lemma {:induction false} Pow2Monotone(m: nat, n: nat)
    requires m <= n
    ensures Pow2(m) <= Pow2(n)
    decreases n
  {
    if m < n {
      Pow2Monotone(m, n - 1);
    }
  }

  /** At most 32 bits, fed into one state, leave different traces. */
  lemma WindowInjective(c: Word, u: seq<Bit>, v: seq<Bit>)
    requires |u| == |v| <= 32 && Feed(c, u) == Feed(c, v)
    ensures u == v
  {
    NumBits(u);
    NumBits(v);
    Pow2Monotone(|u|, 32);
    Pow2Values();
    FeedIsSteps(|u|, c, Num(u));
    FeedIsSteps(|u|, c, Num(v));
    StepsInjective(|u|, Xor(c, Num(u)), Xor(c, Num(v)));
    XorComm(c, Num(u));
    XorComm(c, Num(v));
    XorCancel(Num(u), Num(v), c);
  }

  lemma {:induction false} SuffixInjective(c: Word, d: Word, s: seq<Bit>)
    requires Feed(c, s) == Feed(d, s)
    ensures c == d
    decreases |s|
  {
    if s != [] {
      SuffixInjective(FeedBit(c, s[0]), FeedBit(d, s[0]), s[1..]);
      XorZero(c);
      FeedIsSteps(1, c, s[0]);
      FeedIsSteps(1, d, s[0]);
      assert BitsOf(1, s[0]) == [s[0]] && [s[0]][1..] == [];
      assert StepN(1, Xor(c, s[0])) == FeedBit(c, s[0]) && StepN(1, Xor(d, s[0])) == FeedBit(d, s[0]);
      StepsInjective(1, Xor(c, s[0]), Xor(d, s[0]));
      XorCancel(c, d, s[0]);
    }
  }

  /** The CRC detects every burst: two different bit strings that agree outside
      32 consecutive bits never share their state, hence never their CRC. */
  lemma BurstDetected(pre: seq<Bit>, u: seq<Bit>, v: seq<Bit>, post: seq<Bit>)
    requires |u| == |v| <= 32 && u != v
    ensures Feed(ALL, pre + u + post) != Feed(ALL, pre + v + post)
  {
    FeedAppend(ALL, pre + u, post);
    FeedAppend(ALL, pre + v, post);
    FeedAppend(ALL, pre, u);
    FeedAppend(ALL, pre, v);
    if Feed(ALL, pre + u + post) == Feed(ALL, pre + v + post) {
      SuffixInjective(Feed(ALL, pre + u), Feed(ALL, pre + v), post);
      WindowInjective(Feed(ALL, pre), u, v);
    }
  }

  /** The same of whole messages of bytes. */
  lemma CrcDetectsBursts(a: seq<Byte>, b: seq<Byte>, pre: seq<Bit>, u: seq<Bit>, v: seq<Bit>, post: seq<Bit>)
    requires MessageBits(a) == pre + u + post && MessageBits(b) == pre + v + post
    requires |u| == |v| <= 32 && a != b
    ensures Crc(a) != Crc(b)
  {
    if u == v {
      MessageBitsInjective(a, b);
    } else {
      BurstDetected(pre, u, v, post);
    }
  }

  lemma {:induction false} MessageBitsInjective(a: seq<Byte>, b: seq<Byte>)
    requires MessageBits(a) == MessageBits(b)
    ensures a == b
    decreases |a|
  {
    if a != [] && b != [] {
      var x, y := MessageBits(a), MessageBits(b);
      assert x[..8] == BitsOf(8, a[0]) && y[..8] == BitsOf(8, b[0]);
      assert x[8..] == MessageBits(a[1..]) && y[8..] == MessageBits(b[1..]);
      CutAtByte(a[0]);
      CutAtByte(b[0]);
      BitsInjective(8, a[0], b[0]);
      MessageBitsInjective(a[1..], b[1..]);
      assert a == [a[0]] + a[1..] && b == [b[0]] + b[1..];
    }
  }

  lemma {:induction false} BitsInjective(n: nat, x: nat, y: nat)
    requires BitsOf(n, x) == BitsOf(n, y) && High(n, x) == High(n, y)
    ensures x == y
    decreases n
  {
    if n != 0 {
      assert BitsOf(n, x)[0] == x % 2 && BitsOf(n, x)[1..] == BitsOf(n - 1, x / 2);
      assert BitsOf(n, y)[0] == y % 2 && BitsOf(n, y)[1..] == BitsOf(n - 1, y / 2);
      BitsInjective(n - 1, x / 2, y / 2);
      SameParts(x, y);
    }
  }
}
