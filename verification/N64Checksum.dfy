/** The ROM checksum of tools/n64crc.c: boot chip, the six accumulators, and the
    repair of the header. */
module N64Checksum {
  import opened Prelude
  import opened Bits
  import opened Crc32

  const HEADER: nat := 0x40
  const BOOT_END: nat := 0x1000
  const CRC1: nat := 0x10
  const CRC2: nat := 0x14
  const START: nat := 0x1000
  const LENGTH: nat := 0x10_0000
  const ROM: nat := START + LENGTH
  const KEYS: nat := HEADER + 0x710

  function Add(a: Word, b: Word): Word { (a + b) % 0x1_0000_0000 }

  function X(a: Word, b: Word): Word {
    XorWord(a, b);
    Xor(a, b)
  }

  /** BYTES2LONG */
  function WordAt(data: seq<Byte>, i: nat): Word
    requires i + 4 <= |data|
  {
    var a: int, b: int, c: int, d: int := data[i], data[i + 1], data[i + 2], data[i + 3];
    a * 0x100_0000 + b * 0x1_0000 + c * 0x100 + d
  }

  // ----- rotation -----

  lemma {:induction false} LowBelow(n: nat, a: nat)
    ensures Low(n, a) < Pow2(n)
    decreases n
  {
    if n != 0 {
      LowBelow(n - 1, a / 2);
    }
  }

  lemma {:induction false} HighBelow(n: nat, m: nat, a: nat)
    requires a < Pow2(n + m)
    ensures High(n, a) < Pow2(m)
    decreases n
  {
    if n != 0 {
      HighBelow(n - 1, m, a / 2);
    }
  }

  lemma {:induction false} Pow2Add(m: nat, n: nat)
    ensures Pow2(m) * Pow2(n) == Pow2(m + n)
    decreases m
  {
    if m != 0 {
      Pow2Add(m - 1, n);
      assert Pow2(m) * Pow2(n) == 2 * (Pow2(m - 1) * Pow2(n));
    }
  }

  lemma RolBelow(d: Word, b: nat)
    requires b < 32
    ensures Low(32 - b, d) * Pow2(b) + High(32 - b, d) < 0x1_0000_0000
  {
    Pow2Values();
    LowBelow(32 - b, d);
    HighBelow(32 - b, b, d);
    Pow2Add(32 - b, b);
    MulBelow(Low(32 - b, d), Pow2(32 - b), Pow2(b));
  }

  lemma {:induction false} Times(a: nat, p: nat, q: nat)
    requires a <= p
    ensures a * q <= p * q
    decreases q
  {
    if q > 0 {
      Times(a, p, q - 1);
    }
  }

  lemma {:induction false} MulBelow(a: nat, p: nat, q: nat)
    requires a < p
    ensures a * q + q <= p * q
  {
    Times(a + 1, p, q);
    assert (a + 1) * q == a * q + q;
  }

  /** ROL: the low 32 - b bits go up, the high b bits come down. */
  function Rol(d: Word, b: nat): Word
    requires b < 32
  {
    RolBelow(d, b);
    Low(32 - b, d) * Pow2(b) + High(32 - b, d)
  }

  // ----- the loop -----

  datatype Acc = Acc(t1: Word, t2: Word, t3: Word, t4: Word, t5: Word, t6: Word)

  /** One word `d` of the ROM; `key` is the boot-block word the 6105 mixes in. */
  function Mix(boot: int, key: Word, d: Word, a: Acc): Acc {
    var t6 := Add(a.t6, d);
    var r := Rol(d, d % 0x20);
    var t5 := Add(a.t5, r);
    Acc(Add(a.t1, X(if boot == 6105 then key else t5, d)),
        X(a.t2, if a.t2 > d then r else X(t6, d)),
        X(a.t3, d),
        if t6 < a.t6 then Add(a.t4, 1) else a.t4,
        t5,
        t6)
  }

  /** The accumulators after the words, the first word first. */
  function Mixed(boot: int, keys: seq<Word>, words: seq<Word>, seed: Word): Acc
    requires |keys| == 64
    decreases |words|
  {
    if words == [] then Acc(seed, seed, seed, seed, seed, seed)
    else
      var n := |words| - 1;
      Mix(boot, keys[n % 64], words[n], Mixed(boot, keys, words[..n], seed))
  }

  function Seed(boot: int): Word {
    if boot == 6101 || boot == 6102 then 0xF8CA_4DDC
    else if boot == 6103 then 0xA388_6759
    else if boot == 6106 then 0x1FEA_617A
    else 0xDF26_F436
  }

  function Finish(boot: int, a: Acc): (Word, Word) {
    if boot == 6103 then (Add(X(a.t6, a.t4), a.t3), Add(X(a.t5, a.t2), a.t1))
    else if boot == 6106 then
      (Add((a.t6 * a.t4) % 0x1_0000_0000, a.t3), Add((a.t5 * a.t2) % 0x1_0000_0000, a.t1))
    else (X(X(a.t6, a.t4), a.t3), X(X(a.t5, a.t2), a.t1))
  }

  // ----- the accumulators in closed form -----

  function Sum(words: seq<Word>): nat {
    if words == [] then 0 else words[0] + Sum(words[1..])
  }

  function XorAll(words: seq<Word>): Word {
    if words == [] then 0 else X(words[0], XorAll(words[1..]))
  }

  function RolSum(words: seq<Word>): nat {
    if words == [] then 0 else Rol(words[0], words[0] % 0x20) + RolSum(words[1..])
  }

  lemma {:induction false} SumSnoc(words: seq<Word>, d: Word)
    ensures Sum(words + [d]) == Sum(words) + d
    ensures XorAll(words + [d]) == X(XorAll(words), d)
    ensures RolSum(words + [d]) == RolSum(words) + Rol(d, d % 0x20)
    decreases |words|
  {
    if words == [] {
      assert words + [d] == [d] && [d][1..] == [];
      XorZero(d);
    } else {
      assert (words + [d])[1..] == words[1..] + [d];
      SumSnoc(words[1..], d);
      XorAssoc(words[0], XorAll(words[1..]), d);
    }
  }

  /** t4:t6 as one 64-bit number is `s`, mod 2^64. */
  predicate Holds64(t4: Word, t6: Word, s: nat) {
    t4 * 0x1_0000_0000 + t6 == s % 0x1_0000_0000_0000_0000
  }

  lemma {:induction false} Carry(t4: Word, t6: Word, s: nat, d: Word)
    requires Holds64(t4, t6, s)
    ensures Holds64(if Add(t6, d) < t6 then Add(t4, 1) else t4, Add(t6, d), s + d)
  {
    var total := t4 * 0x1_0000_0000 + t6 + d;
    assert (s + d) % 0x1_0000_0000_0000_0000 ==
           if total < 0x1_0000_0000_0000_0000 then total else total - 0x1_0000_0000_0000_0000;
    if t6 + d < 0x1_0000_0000 {
      assert Add(t6, d) == t6 + d;
    } else {
      assert Add(t6, d) == t6 + d - 0x1_0000_0000;
    }
  }

  lemma AddMore(t: Word, s: nat, r: Word)
    requires t == s % 0x1_0000_0000
    ensures Add(t, r) == (s + r) % 0x1_0000_0000
  {
  }

  lemma {:induction false} SumKept(boot: int, keys: seq<Word>, words: seq<Word>, seed: Word)
    requires |keys| == 64
    ensures var a := Mixed(boot, keys, words, seed);
            Holds64(a.t4, a.t6, seed * 0x1_0000_0000 + seed + Sum(words))
    decreases |words|
  {
    if words != [] {
      var n := |words| - 1;
      SumKept(boot, keys, words[..n], seed);
      assert words == words[..n] + [words[n]];
      SumSnoc(words[..n], words[n]);
      var a := Mixed(boot, keys, words[..n], seed);
      var s := seed * 0x1_0000_0000 + seed + Sum(words[..n]);
      Carry(a.t4, a.t6, s, words[n]);
      assert s + words[n] == seed * 0x1_0000_0000 + seed + Sum(words);
    }
  }

  lemma {:induction false} XorKept(boot: int, keys: seq<Word>, words: seq<Word>, seed: Word)
    requires |keys| == 64
    ensures Mixed(boot, keys, words, seed).t3 == X(seed, XorAll(words))
    decreases |words|
  {
    if words == [] {
      XorZero(seed);
    } else {
      var n := |words| - 1;
      XorKept(boot, keys, words[..n], seed);
      assert words == words[..n] + [words[n]];
      SumSnoc(words[..n], words[n]);
      XorAssoc(seed, XorAll(words[..n]), words[n]);
    }
  }

  lemma {:induction false} RolKept(boot: int, keys: seq<Word>, words: seq<Word>, seed: Word)
    requires |keys| == 64
    ensures Mixed(boot, keys, words, seed).t5 == (seed + RolSum(words)) % 0x1_0000_0000
    decreases |words|
  {
    if words != [] {
      var n := |words| - 1;
      RolKept(boot, keys, words[..n], seed);
      assert words == words[..n] + [words[n]];
      SumSnoc(words[..n], words[n]);
      var s, r := seed + RolSum(words[..n]), Rol(words[n], words[n] % 0x20);
      AddMore(Mixed(boot, keys, words[..n], seed).t5, s, r);
      assert s + r == seed + RolSum(words);
    }
  }

  /** At every iteration: t4:t6 is the 64-bit sum of the words, t3 their exclusive
      or, t5 the sum of their self-rotations, each on top of the seed. */
  lemma {:induction false} Accumulators(boot: int, keys: seq<Word>, words: seq<Word>, seed: Word)
    requires |keys| == 64
    ensures var a := Mixed(boot, keys, words, seed);
            Holds64(a.t4, a.t6, seed * 0x1_0000_0000 + seed + Sum(words)) &&
            a.t3 == X(seed, XorAll(words)) &&
            a.t5 == (seed + RolSum(words)) % 0x1_0000_0000
  {
    SumKept(boot, keys, words, seed);
    XorKept(boot, keys, words, seed);
    RolKept(boot, keys, words, seed);
  }

  // ----- order does not matter to the first checksum -----

  lemma {:induction false} PullOut(words: seq<Word>, i: nat)
    requires i < |words|
    ensures var rest := words[..i] + words[i + 1..];
            Sum(words) == words[i] + Sum(rest) && XorAll(words) == X(words[i], XorAll(rest))
    decreases i
  {
    var rest := words[..i] + words[i + 1..];
    if i == 0 {
      assert rest == words[1..];
    } else {
      PullOut(words[1..], i - 1);
      var rest' := words[1..][..i - 1] + words[1..][i..];
      assert rest[1..] == rest';
      XorAssoc(words[0], words[i], XorAll(rest'));
      XorComm(words[0], words[i]);
      XorAssoc(words[i], words[0], XorAll(rest'));
    }
  }

  lemma {:induction false} OrderFree(a: seq<Word>, b: seq<Word>)
    requires multiset(a) == multiset(b)
    ensures Sum(a) == Sum(b) && XorAll(a) == XorAll(b)
    decreases |a|
  {
    if a == [] {
      assert |multiset(b)| == |b|;
      assert b == [];
    } else {
      var x := a[0];
      assert x in multiset(a);
      var i :| 0 <= i < |b| && b[i] == x;
      var rest := b[..i] + b[i + 1..];
      assert b == b[..i] + [x] + b[i + 1..];
      assert a == [x] + a[1..];
      assert multiset(rest) == multiset(b) - multiset{x} && multiset(a[1..]) == multiset(a) - multiset{x};
      PullOut(b, i);
      OrderFree(a[1..], rest);
    }
  }

  lemma WordsOfSum(t4: Word, t6: Word, u4: Word, u6: Word, s: nat)
    requires Holds64(t4, t6, s) && Holds64(u4, u6, s)
    ensures t4 == u4 && t6 == u6
  {
  }

  lemma {:induction false} FinishOrderFree(boot: int, keys: seq<Word>, a: seq<Word>, b: seq<Word>)
    requires |keys| == 64 && multiset(a) == multiset(b)
    ensures Finish(boot, Mixed(boot, keys, a, Seed(boot))).0 == Finish(boot, Mixed(boot, keys, b, Seed(boot))).0
  {
    var x, y := Mixed(boot, keys, a, Seed(boot)), Mixed(boot, keys, b, Seed(boot));
    OrderFree(a, b);
    SumKept(boot, keys, a, Seed(boot));
    SumKept(boot, keys, b, Seed(boot));
    XorKept(boot, keys, a, Seed(boot));
    XorKept(boot, keys, b, Seed(boot));
    WordsOfSum(x.t4, x.t6, y.t4, y.t6, Seed(boot) * 0x1_0000_0000 + Seed(boot) + Sum(a));
  }

  // ----- the ROM image -----

  /** `n` words from `start` on. */
  function Words(data: seq<Byte>, start: nat, n: nat): (r: seq<Word>)
    requires start + 4 * n <= |data|
    ensures |r| == n
  {
    if n == 0 then [] else Words(data, start, n - 1) + [WordAt(data, start + 4 * (n - 1))]
  }

  lemma {:induction false} WordsAt(data: seq<Byte>, start: nat, n: nat, k: nat)
    requires start + 4 * n <= |data| && k < n
    ensures Words(data, start, n)[k] == WordAt(data, start + 4 * k)
    decreases n
  {
    if k < n - 1 {
      WordsAt(data, start, n - 1, k);
    }
  }

  lemma {:induction false} WordsPrefix(data: seq<Byte>, start: nat, n: nat, k: nat)
    requires start + 4 * n <= |data| && k <= n
    ensures Words(data, start, n)[..k] == Words(data, start, k)
    decreases n
  {
    if k < n {
      WordsPrefix(data, start, n - 1, k);
      assert Words(data, start, n)[..k] == Words(data, start, n - 1)[..k];
    }
  }

  /** N64GetCIC: the boot chip, by the CRC of the boot block. */
  function Cic(data: seq<Byte>): int
    requires |data| >= BOOT_END
  {
    var crc := Crc(data[HEADER..BOOT_END]);
    if crc == 0x6170_A4A1 then 6101
    else if crc == 0x90BB_6CB5 then 6102
    else if crc == 0x0B05_0EE0 then 6103
    else if crc == 0x98BC_2C86 then 6105
    else if crc == 0xACC8_580A then 6106
    else 6105
  }

  const COUNT: nat := 0x4_0000     // LENGTH / 4

  function Checksums(data: seq<Byte>): (Word, Word)
    requires |data| >= ROM
  {
    var boot := Cic(data);
    Finish(boot, Mixed(boot, Words(data, KEYS, 64), Words(data, START, COUNT), Seed(boot)))
  }

  method GetCic(table: array<Word>, data: array<Byte>) returns (boot: int)
    requires table.Length == 256 && forall i :: 0 <= i < 256 ==> table[i] == Entry(i)
    requires data.Length >= BOOT_END
    ensures boot == Cic(data[..])
  {
    var crc := ComputeCrc(table, data, HEADER, BOOT_END - HEADER);
    assert data[HEADER..BOOT_END] == data[..][HEADER..BOOT_END];
    match crc
    case 0x6170_A4A1 => boot := 6101;
    case 0x90BB_6CB5 => boot := 6102;
    case 0x0B05_0EE0 => boot := 6103;
    case 0x98BC_2C86 => boot := 6105;
    case 0xACC8_580A => boot := 6106;
    case _ => boot := 6105;
  }

  method ReadWord(data: array<Byte>, i: nat) returns (w: Word)
    requires i + 4 <= data.Length
    ensures w == WordAt(data[..], i)
  {
    var a: int, b: int, c: int, d: int := data[i], data[i + 1], data[i + 2], data[i + 3];
    w := a * 0x100_0000 + b * 0x1_0000 + c * 0x100 + d;
  }

  /** One turn of the loop of N64CalcCRC, on the accumulators. */
  method MixWord(boot: int, key: Word, d: Word, a: Acc) returns (b: Acc)
    ensures b == Mix(boot, key, d, a)
  {
    var t1, t2, t3, t4, t5, t6 := a.t1, a.t2, a.t3, a.t4, a.t5, a.t6;
    if Add(t6, d) < t6 {
      t4 := Add(t4, 1);
    }
    t6 := Add(t6, d);
    t3 := X(t3, d);
    var r := Rol(d, d % 0x20);
    t5 := Add(t5, r);
    if t2 > d {
      t2 := X(t2, r);
    } else {
      t2 := X(t2, X(t6, d));
    }
    if boot == 6105 {
      t1 := Add(t1, X(key, d));
    } else {
      t1 := Add(t1, X(t5, d));
    }
    b := Acc(t1, t2, t3, t4, t5, t6);
  }

  lemma {:induction false} MixedNext(boot: int, keys: seq<Word>, words: seq<Word>, n: nat, seed: Word)
    requires |keys| == 64 && n < |words|
    ensures Mixed(boot, keys, words[..n + 1], seed) ==
            Mix(boot, keys[n % 64], words[n], Mixed(boot, keys, words[..n], seed))
  {
    assert words[..n + 1][..n] == words[..n];
  }

  lemma OperandsOf(data: seq<Byte>, n: nat)
    requires |data| >= ROM && n < COUNT
    ensures WordAt(data, START + 4 * n) == Words(data, START, COUNT)[n]
    ensures WordAt(data, KEYS + (START + 4 * n) % 0x100) == Words(data, KEYS, 64)[n % 64]
  {
    WordsAt(data, START, COUNT, n);
    WordsAt(data, KEYS, 64, n % 64);
    KeyOffset(n);
  }

  lemma KeyOffset(n: nat)
    ensures (START + 4 * n) % 0x100 == 4 * (n % 64)
  {
    assert n == n / 64 * 64 + n % 64;
  }

  /** The two words a turn of the loop reads. */
  method Operands(data: array<Byte>, i: nat, ghost n: nat) returns (d: Word, key: Word)
    requires data.Length >= ROM && n < COUNT && i == START + 4 * n
    ensures d == Words(data[..], START, COUNT)[n] && key == Words(data[..], KEYS, 64)[n % 64]
  {
    OperandsOf(data[..], n);
    d := ReadWord(data, i);
    key := ReadWord(data, KEYS + i % 0x100);
  }

  /** The loop of N64CalcCRC. */
  method MixAll(boot: int, data: array<Byte>) returns (a: Acc)
    requires data.Length >= ROM
    ensures a == Mixed(boot, Words(data[..], KEYS, 64), Words(data[..], START, COUNT), Seed(boot))
  {
    var seed := Seed(boot);
    a := Acc(seed, seed, seed, seed, seed, seed);
    ghost var bytes, n := data[..], 0;
    ghost var keys, words := Words(bytes, KEYS, 64), Words(bytes, START, COUNT);
    var i := START;
    while i < START + LENGTH
      invariant 0 <= n <= COUNT && i == START + 4 * n
      invariant a == Mixed(boot, keys, words[..n], seed)
      decreases START + LENGTH - i
    {
      var d, key := Operands(data, i, n);
      MixedNext(boot, keys, words, n, seed);
      a := MixWord(boot, key, d, a);
      i, n := i + 4, n + 1;
    }
    assert words[..n] == words;
  }

  method CalcCrc(table: array<Word>, data: array<Byte>) returns (crc0: Word, crc1: Word)
    requires table.Length == 256 && forall i :: 0 <= i < 256 ==> table[i] == Entry(i)
    requires data.Length >= ROM
    ensures (crc0, crc1) == Checksums(data[..])
  {
    var boot := GetCic(table, data);
    var a := MixAll(boot, data);
    crc0, crc1 := Finish(boot, a).0, Finish(boot, a).1;
  }

  // ----- header repair -----

  function Bytes(w: Word): (r: seq<Byte>)
    ensures |r| == 4 && WordAt(r, 0) == w
  {
    var x := w / 0x100;
    var y := x / 0x100;
    [y / 0x100, y % 0x100, x % 0x100, w % 0x100]
  }

  function Repaired(data: seq<Byte>): (r: seq<Byte>)
    requires |data| >= ROM
    ensures |r| == |data|
  {
    var c := Checksums(data);
    data[..CRC1] + Bytes(c.0) + Bytes(c.1) + data[CRC2 + 4..]
  }

  /** Write32 */
  method WriteWord(data: array<Byte>, i: nat, w: Word)
    requires i + 4 <= data.Length
    modifies data
    ensures data[..] == old(data[..i]) + Bytes(w) + old(data[i + 4..])
  {
    var x := w / 0x100;
    var y := x / 0x100;
    data[i] := y / 0x100;
    data[i + 1] := y % 0x100;
    data[i + 2] := x % 0x100;
    data[i + 3] := w % 0x100;
  }

  lemma Digits(a: Byte, b: Byte, c: Byte, d: Byte, w: int)
    requires w == (a as int) * 0x100_0000 + (b as int) * 0x1_0000 + (c as int) * 0x100 + d
    ensures var x := w / 0x100;
            var y := x / 0x100;
            y / 0x100 == a && y % 0x100 == b && x % 0x100 == c && w % 0x100 == d
  {
    var p: int, q: int, r: int := a, b, c;
    assert w / 0x100 == p * 0x1_0000 + q * 0x100 + r;
    assert w / 0x100 / 0x100 == p * 0x100 + q;
  }

  lemma {:induction false} WordIsBytes(data: seq<Byte>, i: nat, w: Word)
    requires i + 4 <= |data| && WordAt(data, i) == w
    ensures data == data[..i] + Bytes(w) + data[i + 4..]
  {
    Digits(data[i], data[i + 1], data[i + 2], data[i + 3], w);
    assert data[i..i + 4] == Bytes(w);
  }

  /** Leave a field that is right; write it otherwise. */
  method StoreField(data: array<Byte>, i: nat, w: Word) returns (good: bool)
    requires i + 4 <= data.Length
    modifies data
    ensures data[..] == old(data[..i]) + Bytes(w) + old(data[i + 4..])
    ensures good <==> WordAt(old(data[..]), i) == w
  {
    var stored := ReadWord(data, i);
    good := w == stored;
    if good {
      WordIsBytes(data[..], i, w);
      assert data[..][..i] == data[..i] && data[..][i + 4..] == data[i + 4..];
    } else {
      WriteWord(data, i, w);
    }
  }

  lemma TwoFields(before: seq<Byte>, middle: seq<Byte>, after: seq<Byte>, c0: Word, c1: Word)
    requires |before| >= ROM
    requires middle == before[..CRC1] + Bytes(c0) + before[CRC1 + 4..]
    requires after == middle[..CRC2] + Bytes(c1) + middle[CRC2 + 4..]
    ensures after == before[..CRC1] + Bytes(c0) + Bytes(c1) + before[CRC2 + 4..]
    ensures WordAt(middle, CRC2) == WordAt(before, CRC2)
  {
    assert middle[CRC2..CRC2 + 4] == before[CRC2..CRC2 + 4];
    SameWord(middle, before, CRC2);
    assert middle[..CRC2] == before[..CRC1] + Bytes(c0);
    assert middle[CRC2 + 4..] == before[CRC2 + 4..];
  }

  /** The repair part of `main`: good1 and good2 say which fields were right. */
  method Repair(table: array<Word>, data: array<Byte>) returns (good1: bool, good2: bool)
    requires table.Length == 256 && forall i :: 0 <= i < 256 ==> table[i] == Entry(i)
    requires data.Length >= ROM
    modifies data
    ensures data[..] == Repaired(old(data[..]))
    ensures good1 <==> WordAt(old(data[..]), CRC1) == Checksums(old(data[..])).0
    ensures good2 <==> WordAt(old(data[..]), CRC2) == Checksums(old(data[..])).1
  {
    var crc0, crc1 := CalcCrc(table, data);
    ghost var before := data[..];
    good1 := StoreField(data, CRC1, crc0);
    ghost var middle := data[..];
    good2 := StoreField(data, CRC2, crc1);
    assert before[..CRC1] == old(data[..CRC1]) && before[CRC1 + 4..] == old(data[CRC1 + 4..]);
    TwoFields(before, middle, data[..], crc0, crc1);
  }

  lemma SameWord(a: seq<Byte>, b: seq<Byte>, i: nat)
    requires i + 4 <= |a| && i + 4 <= |b| && a[i..i + 4] == b[i..i + 4]
    ensures WordAt(a, i) == WordAt(b, i)
  {
    assert a[i..i + 4][0] == b[i..i + 4][0] && a[i..i + 4][1] == b[i..i + 4][1];
    assert a[i..i + 4][2] == b[i..i + 4][2] && a[i..i + 4][3] == b[i..i + 4][3];
    assert a[i + 0] == b[i + 0] && a[i + 1] == b[i + 1] && a[i + 2] == b[i + 2] && a[i + 3] == b[i + 3];
  }

  lemma SameInside(a: seq<Byte>, b: seq<Byte>, lo: nat, i: nat, j: nat, hi: nat)
    requires lo <= i <= j <= hi <= |a| && hi <= |b| && a[lo..hi] == b[lo..hi]
    ensures a[i..j] == b[i..j]
  {
    forall k | i <= k < j ensures a[k] == b[k] {
      assert a[lo..hi][k - lo] == b[lo..hi][k - lo];
    }
  }

  lemma {:induction false} SameWords(a: seq<Byte>, b: seq<Byte>, start: nat, n: nat)
    requires start + 4 * n <= |a| && start + 4 * n <= |b|
    requires a[start..start + 4 * n] == b[start..start + 4 * n]
    ensures Words(a, start, n) == Words(b, start, n)
    decreases n
  {
    if n > 0 {
      var i := start + 4 * (n - 1);
      SameInside(a, b, start, i, i + 4, start + 4 * n);
      SameInside(a, b, start, start, i, start + 4 * n);
      SameWord(a, b, i);
      SameWords(a, b, start, n - 1);
    }
  }

  /** The checksums read nothing below the boot block and nothing behind the megabyte. */
  lemma {:induction false} ChecksumsFrame(a: seq<Byte>, b: seq<Byte>)
    requires |a| >= ROM && |b| >= ROM && a[HEADER..ROM] == b[HEADER..ROM]
    ensures Checksums(a) == Checksums(b)
  {
    SameInside(a, b, HEADER, HEADER, BOOT_END, ROM);
    SameInside(a, b, HEADER, KEYS, KEYS + 256, ROM);
    SameInside(a, b, HEADER, START, ROM, ROM);
    SameWords(a, b, KEYS, 64);
    SameWords(a, b, START, COUNT);
  }

  /** Two images with the same boot block whose checksummed words are a permutation
      of each other have the same first checksum. */
  lemma {:induction false} FirstChecksumOrderFree(a: seq<Byte>, b: seq<Byte>)
    requires |a| >= ROM && |b| >= ROM && a[HEADER..BOOT_END] == b[HEADER..BOOT_END]
    requires multiset(Words(a, START, COUNT)) == multiset(Words(b, START, COUNT))
    ensures Checksums(a).0 == Checksums(b).0
  {
    SameInside(a, b, HEADER, KEYS, KEYS + 256, BOOT_END);
    SameWords(a, b, KEYS, 64);
    FinishOrderFree(Cic(a), Words(a, KEYS, 64), Words(a, START, COUNT), Words(b, START, COUNT));
  }

  /** A repaired image is good: its own checksums are the ones it stores, so a
      second run finds both fields right and changes nothing. */
  lemma {:induction false} RepairOnce(data: seq<Byte>)
    requires |data| >= ROM
    ensures var r := Repaired(data);
            Checksums(r) == Checksums(data) &&
            WordAt(r, CRC1) == Checksums(r).0 && WordAt(r, CRC2) == Checksums(r).1 &&
            Repaired(r) == r
  {
    var r, c := Repaired(data), Checksums(data);
    assert r[HEADER..ROM] == data[HEADER..ROM];
    ChecksumsFrame(r, data);
    assert r[CRC1..CRC1 + 4] == Bytes(c.0) && r[CRC2..CRC2 + 4] == Bytes(c.1);
    WordInside(r, CRC1, c.0);
    WordInside(r, CRC2, c.1);
    assert r[..CRC1] == data[..CRC1] && r[CRC2 + 4..] == data[CRC2 + 4..];
  }

  lemma WordInside(data: seq<Byte>, i: nat, w: Word)
    requires i + 4 <= |data| && data[i..i + 4] == Bytes(w)
    ensures WordAt(data, i) == w
  {
    assert data[i + 0] == Bytes(w)[0] && data[i + 1] == Bytes(w)[1];
    assert data[i + 2] == Bytes(w)[2] && data[i + 3] == Bytes(w)[3];
  }
}
