/** Two independent relocation engines: tools/rodata_match.py `relocate` (HI16s
    wait for the next LO16) and the .text loop of tools/rodata_check.py (a HI16
    looks ahead for the next LO16 of its own symbol). */
module Relocation {
  import opened Prelude

  const R_32: int := 2
  const R_26: int := 4
  const R_HI16: int := 5
  const R_LO16: int := 6

  /** `off` is the index of the instruction word. */
  datatype Reloc = Reloc(off: nat, typ: int, sym: nat)

  type Symbols = map<nat, int>

  // ----- the fields -----

  /** A word with its low half replaced. */
  function WithLow(w: Word, lo: nat): Word
    requires lo < 0x1_0000
  {
    w / 0x1_0000 * 0x1_0000 + lo
  }

  /** What relocation type `t` against the value `s` makes of `w`; a HI16 takes
      the addend `lo` of its LO16 into account. */
  function Field(t: int, s: int, w: Word, lo: int): Word {
    if t == R_32 then (w + s) % 0x1_0000_0000
    else if t == R_26 then w / 0x400_0000 * 0x400_0000 + (w % 0x400_0000 * 4 + s) / 4 % 0x400_0000
    else if t == R_HI16 then WithLow(w, (w % 0x1_0000 * 0x1_0000 + lo + s + 0x8000) / 0x1_0000 % 0x1_0000)
    else if t == R_LO16 then WithLow(w, (Sext(w) + s) % 0x1_0000)
    else w
  }

  predicate KnownType(t: int) { t == R_32 || t == R_26 || t == R_HI16 || t == R_LO16 }

  predicate Good(r: Reloc, syms: Symbols) { r.sym in syms && KnownType(r.typ) }

  /** The first LO16 from `k` on; of the symbol `sym` only, if one is given. */
  function NextLo(rels: seq<Reloc>, k: nat, sym: Option<nat>): Option<nat>
    decreases |rels| - k
  {
    if k >= |rels| then None
    else if rels[k].typ == R_LO16 && (sym == None || sym == Some(rels[k].sym)) then Some(k)
    else NextLo(rels, k + 1, sym)
  }

  /** The LO16 a HI16 at `k` is paired with, by the one engine or the other. */
  function Partner(rels: seq<Reloc>, k: nat, own: bool): (j: Option<nat>)
    requires k < |rels|
    ensures j.Some? ==> k < j.value < |rels| && rels[j.value].typ == R_LO16 && (own ==> rels[j.value].sym == rels[k].sym)
  {
    NextLoBounds(rels, k + 1, if own then Some(rels[k].sym) else None);
    NextLo(rels, k + 1, if own then Some(rels[k].sym) else None)
  }

  predicate Inside(rels: seq<Reloc>, n: nat) {
    forall k :: 0 <= k < |rels| ==> rels[k].off < n
  }

  predicate Distinct(rels: seq<Reloc>) {
    forall j, k :: 0 <= j < k < |rels| ==> rels[j].off != rels[k].off
  }

  /** The low addend a HI16 at `k` is given. */
  function LoAddend(rels: seq<Reloc>, k: nat, own: bool, data: seq<Word>): int
    requires k < |rels| && Inside(rels, |data|)
  {
    var j := Partner(rels, k, own);
    if j.None? then 0 else Sext(data[rels[j.value].off])
  }

  function RelocAt(rels: seq<Reloc>, i: nat, k: nat): Option<nat>
    decreases |rels| - k
  {
    if k >= |rels| then None else if rels[k].off == i then Some(k) else RelocAt(rels, i, k + 1)
  }

  function LinkedWord(rels: seq<Reloc>, syms: Symbols, data: seq<Word>, own: bool, i: nat): Word
    requires Inside(rels, |data|) && i < |data|
  {
    var k := RelocAt(rels, i, 0);
    RelocAtBounds(rels, i, 0);
    if k.None? || rels[k.value].sym !in syms then data[i]
    else Field(rels[k.value].typ, syms[rels[k.value].sym], data[i], LoAddend(rels, k.value, own, data))
  }

  /** The section after linking: every relocated word with its field filled in
      from the unlinked words, every other word as it was. */
  function Linked(rels: seq<Reloc>, syms: Symbols, data: seq<Word>, own: bool): (r: seq<Word>)
    requires Inside(rels, |data|)
    ensures |r| == |data|
  {
    seq(|data|, i requires 0 <= i < |data| => LinkedWord(rels, syms, data, own, i))
  }

  lemma {:induction false} NextLoBounds(rels: seq<Reloc>, k: nat, sym: Option<nat>)
    ensures var j := NextLo(rels, k, sym);
            if j.Some? then
              k <= j.value < |rels| && rels[j.value].typ == R_LO16 && (sym.Some? ==> rels[j.value].sym == sym.value) &&
              forall q :: k <= q < j.value ==> !(rels[q].typ == R_LO16 && (sym == None || sym == Some(rels[q].sym)))
            else forall q :: k <= q < |rels| ==> !(rels[q].typ == R_LO16 && (sym == None || sym == Some(rels[q].sym)))
    decreases |rels| - k
  {
    if k < |rels| && !(rels[k].typ == R_LO16 && (sym == None || sym == Some(rels[k].sym))) {
      NextLoBounds(rels, k + 1, sym);
    }
  }

  lemma {:induction false} RelocAtBounds(rels: seq<Reloc>, i: nat, k: nat)
    ensures var j := RelocAt(rels, i, k);
            if j.Some? then k <= j.value < |rels| && rels[j.value].off == i
            else forall q :: k <= q < |rels| ==> rels[q].off != i
    decreases |rels| - k
  {
    if k < |rels| && rels[k].off != i {
      RelocAtBounds(rels, i, k + 1);
    }
  }

  lemma RelocAtIs(rels: seq<Reloc>, k: nat)
    requires k < |rels| && Distinct(rels)
    ensures RelocAt(rels, rels[k].off, 0) == Some(k)
  {
    RelocAtBounds(rels, rels[k].off, 0);
  }

  // ----- the word the machine computes -----

  lemma LowOfWith(w: Word, lo: nat)
    requires lo < 0x1_0000
    ensures WithLow(w, lo) % 0x1_0000 == lo && WithLow(w, lo) / 0x1_0000 == w / 0x1_0000
  {
  }

  lemma Rebuild(q: int, l: int)
    ensures (q % 0x1_0000 * 0x1_0000 + l) % 0x1_0000_0000 == (q * 0x1_0000 + l) % 0x1_0000_0000
  {
    assert q % 0x1_0000 * 0x1_0000 + l == q * 0x1_0000 + l - (q / 0x1_0000) * 0x1_0000_0000;
  }

  /** A linked HI16/LO16 pair builds symbol plus addend, mod 2^32. */
  lemma {:induction false} HiLoPair(hw: Word, lw: Word, s: int)
    ensures var hi := Field(R_HI16, s, hw, Sext(lw)) % 0x1_0000;
            var lo := Sext(Field(R_LO16, s, lw, 0));
            var addend := hw % 0x1_0000 * 0x1_0000 + Sext(lw);
            (hi * 0x1_0000 + lo) % 0x1_0000_0000 == (s + addend) % 0x1_0000_0000
  {
    var v := hw % 0x1_0000 * 0x1_0000 + Sext(lw) + s;
    var q := (v + 0x8000) / 0x1_0000;
    var l := v - q * 0x1_0000;
    LowOfWith(hw, q % 0x1_0000);
    LowOfWith(lw, (Sext(lw) + s) % 0x1_0000);
    LowHalf(Sext(lw) + s, v, l);
    Rebuild(q, l);
  }

  lemma LowHalf(x: int, v: int, l: int)
    requires -0x8000 <= l < 0x8000 && (v - x) % 0x1_0000 == 0 && (v - l) % 0x1_0000 == 0
    ensures Sext(x % 0x1_0000) == l
  {
  }

  /** A linked jump keeps its opcode and addresses symbol plus addend within its
      256 MB segment. */
  lemma JumpField(w: Word, s: int)
    ensures Field(R_26, s, w, 0) / 0x400_0000 == w / 0x400_0000
    ensures (s + w % 0x400_0000 * 4) % 4 == 0 ==>
              Field(R_26, s, w, 0) % 0x400_0000 * 4 == (s + w % 0x400_0000 * 4) % 0x1000_0000
  {
    var t := (w % 0x400_0000 * 4 + s) / 4;
    assert Field(R_26, s, w, 0) % 0x400_0000 == t % 0x400_0000;
    if (s + w % 0x400_0000 * 4) % 4 == 0 {
      assert s + w % 0x400_0000 * 4 == 4 * t;
    }
  }

  // ----- rodata_match.py -----

  datatype LinkError = UnknownSymbol(sym: nat) | BadType(typ: int) | Dangling

  datatype Verdict = Ok | Err(e: LinkError)

  function FirstBad(rels: seq<Reloc>, syms: Symbols, i: nat): Verdict
    decreases |rels| - i
  {
    if i >= |rels| then Ok
    else if rels[i].sym !in syms then Err(UnknownSymbol(rels[i].sym))
    else if !KnownType(rels[i].typ) then Err(BadType(rels[i].typ))
    else FirstBad(rels, syms, i + 1)
  }

  /** Some HI16 has no LO16 behind it. */
  ghost predicate Dangles(rels: seq<Reloc>) {
    exists k :: 0 <= k < |rels| && rels[k].typ == R_HI16 && Partner(rels, k, false).None?
  }

  /** No LO16 strictly between `k` and `i`. */
  ghost predicate Open(rels: seq<Reloc>, k: nat, i: nat) {
    forall q :: k < q < i && q < |rels| ==> rels[q].typ != R_LO16
  }

  /** `wait` lists the HI16s before `i` whose LO16 has not come yet. */
  ghost predicate Waiting(rels: seq<Reloc>, i: nat, wait: seq<nat>) {
    (forall p :: 0 <= p < |wait| ==> wait[p] < i && wait[p] < |rels| && rels[wait[p]].typ == R_HI16 && Open(rels, wait[p], i)) &&
    (forall k :: 0 <= k < i && k < |rels| && rels[k].typ == R_HI16 && Open(rels, k, i) ==> k in wait) &&
    (forall p, q :: 0 <= p < q < |wait| ==> wait[p] != wait[q])
  }

  /** Words of the relocations before `i` are linked, except those waiting. */
  ghost predicate Progress(rels: seq<Reloc>, syms: Symbols, was: seq<Word>, now: seq<Word>, own: bool, i: nat, wait: seq<nat>)
    requires Inside(rels, |was|)
  {
    |now| == |was| &&
    forall x :: 0 <= x < |was| ==>
      var k := RelocAt(rels, x, 0);
      now[x] == if k.Some? && k.value < i && k.value !in wait then LinkedWord(rels, syms, was, own, x) else was[x]
  }

  /** A relocation that is no HI16 is linked where it stands. */
  lemma Settle(rels: seq<Reloc>, syms: Symbols, was: seq<Word>, now: seq<Word>, own: bool, i: nat, wait: seq<nat>, w: Word)
    requires Inside(rels, |was|) && Distinct(rels) && i < |rels| && i !in wait
    requires Progress(rels, syms, was, now, own, i, wait)
    requires rels[i].off < |now| && w == LinkedWord(rels, syms, was, own, rels[i].off)
    ensures Progress(rels, syms, was, now[rels[i].off := w], own, i + 1, wait)
  {
    RelocAtIs(rels, i);
    forall x | 0 <= x < |was| ensures RelocAt(rels, x, 0) == Some(i) ==> x == rels[i].off {
      RelocAtBounds(rels, x, 0);
    }
  }

  lemma WordOf(rels: seq<Reloc>, syms: Symbols, was: seq<Word>, own: bool, i: nat)
    requires Inside(rels, |was|) && Distinct(rels) && i < |rels| && rels[i].sym in syms
    ensures LinkedWord(rels, syms, was, own, rels[i].off) ==
            Field(rels[i].typ, syms[rels[i].sym], was[rels[i].off], LoAddend(rels, i, own, was))
  {
    RelocAtIs(rels, i);
  }

  lemma StillThere(rels: seq<Reloc>, syms: Symbols, was: seq<Word>, now: seq<Word>, own: bool, i: nat, wait: seq<nat>, k: nat)
    requires Inside(rels, |was|) && Distinct(rels) && k < |rels| && (k >= i || k in wait)
    requires Progress(rels, syms, was, now, own, i, wait)
    ensures now[rels[k].off] == was[rels[k].off]
  {
    RelocAtIs(rels, k);
  }

  /** A HI16 only joins the queue. */
  lemma Enqueue(rels: seq<Reloc>, syms: Symbols, was: seq<Word>, now: seq<Word>, i: nat, wait: seq<nat>)
    requires Inside(rels, |was|) && i < |rels| && rels[i].typ == R_HI16
    requires Waiting(rels, i, wait) && Progress(rels, syms, was, now, false, i, wait)
    ensures Waiting(rels, i + 1, wait + [i]) && Progress(rels, syms, was, now, false, i + 1, wait + [i])
  {
    forall k | 0 <= k < i && Open(rels, k, i + 1) ensures Open(rels, k, i) {
    }
    forall p | 0 <= p < |wait| ensures Open(rels, wait[p], i + 1) {
    }
  }

  lemma KeepWaiting(rels: seq<Reloc>, i: nat, wait: seq<nat>)
    requires i < |rels| && Waiting(rels, i, wait) && rels[i].typ != R_HI16 && rels[i].typ != R_LO16
    ensures Waiting(rels, i + 1, wait)
  {
    forall k | 0 <= k < i && Open(rels, k, i + 1) ensures Open(rels, k, i) {
    }
    forall p | 0 <= p < |wait| ensures Open(rels, wait[p], i + 1) {
    }
  }

  lemma QueueEmptied(rels: seq<Reloc>, i: nat)
    requires i < |rels| && rels[i].typ == R_LO16
    ensures Waiting(rels, i + 1, [])
  {
    forall k | 0 <= k < i + 1 && rels[k].typ == R_HI16 ensures !Open(rels, k, i + 1) {
      assert k < i < i + 1;
    }
  }

  /** The LO16 a waiting HI16 was waiting for. */
  lemma PartnerArrives(rels: seq<Reloc>, k: nat, i: nat)
    requires k < i < |rels| && Open(rels, k, i) && rels[i].typ == R_LO16
    ensures Partner(rels, k, false) == Some(i)
  {
    NextLoBounds(rels, k + 1, None);
  }

  /** The words of the waiting HI16s, once their LO16 is there. */
  ghost predicate Patched(rels: seq<Reloc>, syms: Symbols, now: seq<Word>, next: seq<Word>, wait: seq<nat>, lo: int) {
    |next| == |now| &&
    (forall p :: 0 <= p < |wait| ==>
       wait[p] < |rels| && rels[wait[p]].sym in syms && rels[wait[p]].off < |now| &&
       next[rels[wait[p]].off] == Field(R_HI16, syms[rels[wait[p]].sym], now[rels[wait[p]].off], lo)) &&
    (forall x :: 0 <= x < |now| && (forall p :: 0 <= p < |wait| && wait[p] < |rels| ==> rels[wait[p]].off != x) ==>
       next[x] == now[x])
  }

  lemma Dequeue(rels: seq<Reloc>, syms: Symbols, was: seq<Word>, now: seq<Word>, next: seq<Word>, i: nat, wait: seq<nat>)
    requires Inside(rels, |was|) && Distinct(rels) && i < |rels| && rels[i].typ == R_LO16
    requires Waiting(rels, i, wait) && Progress(rels, syms, was, now, false, i, wait)
    requires Patched(rels, syms, now, next, wait, Sext(was[rels[i].off]))
    ensures Progress(rels, syms, was, next, false, i, [])
  {
    forall x | 0 <= x < |was|
      ensures var k := RelocAt(rels, x, 0);
              next[x] == if k.Some? && k.value < i then LinkedWord(rels, syms, was, false, x) else was[x]
    {
      var k := RelocAt(rels, x, 0);
      RelocAtBounds(rels, x, 0);
      if k.Some? && k.value in wait {
        PartnerArrives(rels, k.value, i);
        StillThere(rels, syms, was, now, false, i, wait, k.value);
        WordOf(rels, syms, was, false, k.value);
      } else {
        forall p | 0 <= p < |wait| ensures rels[wait[p]].off != x {
          RelocAtIs(rels, wait[p]);
        }
      }
    }
  }

  lemma PatchedNext(rels: seq<Reloc>, syms: Symbols, now: seq<Word>, cur: seq<Word>, wait: seq<nat>, n: nat, lo: int)
    requires n < |wait| && Distinct(rels) && wait[n] < |rels| && rels[wait[n]].sym in syms && rels[wait[n]].off < |now|
    requires forall p :: 0 <= p < n ==> wait[p] != wait[n]
    requires Patched(rels, syms, now, cur, wait[..n], lo)
    ensures var off := rels[wait[n]].off;
            cur[off] == now[off] &&
            Patched(rels, syms, now, cur[off := Field(R_HI16, syms[rels[wait[n]].sym], now[off], lo)], wait[..n + 1], lo)
  {
    assert wait[..n + 1] == wait[..n] + [wait[n]];
    forall p | 0 <= p < n ensures rels[wait[..n][p]].off != rels[wait[n]].off {
    }
  }

  /** The inner loop: every pending HI16 gets its field. */
  method PatchPending(data: array<Word>, ghost rels: seq<Reloc>, ghost syms: Symbols, pending: seq<(nat, int)>,
                      ghost wait: seq<nat>, lo: int)
    requires |wait| == |pending| && Distinct(rels) && Inside(rels, data.Length)
    requires forall p :: 0 <= p < |wait| ==>
               wait[p] < |rels| && rels[wait[p]].sym in syms && pending[p] == (rels[wait[p]].off, syms[rels[wait[p]].sym])
    requires forall p, q :: 0 <= p < q < |wait| ==> wait[p] != wait[q]
    modifies data
    ensures Patched(rels, syms, old(data[..]), data[..], wait, lo)
  {
    ghost var now := data[..];
    var n := 0;
    while n < |pending|
      invariant 0 <= n <= |pending|
      invariant Patched(rels, syms, now, data[..], wait[..n], lo)
    {
      var (hoff, s) := pending[n];
      var hw := data[hoff];
      var val := hw % 0x1_0000 * 0x1_0000 + lo + s;
      PatchedNext(rels, syms, now, data[..], wait, n, lo);
      data[hoff] := WithLow(hw, (val + 0x8000) / 0x1_0000 % 0x1_0000);
      n := n + 1;
    }
    assert wait[..n] == wait;
  }

  lemma {:induction false} FirstBadStep(rels: seq<Reloc>, syms: Symbols, i: nat)
    requires i <= |rels| && forall k :: 0 <= k < i ==> Good(rels[k], syms)
    ensures FirstBad(rels, syms, 0) == FirstBad(rels, syms, i)
    decreases i
  {
    if i > 0 {
      FirstBadStep(rels, syms, i - 1);
    }
  }

  lemma PendingMeansDangling(rels: seq<Reloc>, wait: seq<nat>)
    requires Waiting(rels, |rels|, wait)
    ensures wait != [] <==> Dangles(rels)
  {
    if wait != [] {
      NextLoBounds(rels, wait[0] + 1, None);
      assert Partner(rels, wait[0], false).None?;
    }
    if Dangles(rels) {
      var k :| 0 <= k < |rels| && rels[k].typ == R_HI16 && Partner(rels, k, false).None?;
      NextLoBounds(rels, k + 1, None);
      assert Open(rels, k, |rels|);
    }
  }

  ghost function RelocateVerdict(rels: seq<Reloc>, syms: Symbols): Verdict {
    if FirstBad(rels, syms, 0).Err? then FirstBad(rels, syms, 0)
    else if Dangles(rels) then Err(Dangling)
    else Ok
  }

  /** The queue as the code keeps it: offsets and values of the waiting HI16s. */
  ghost predicate Queue(rels: seq<Reloc>, syms: Symbols, pending: seq<(nat, int)>, wait: seq<nat>) {
    |pending| == |wait| &&
    forall p :: 0 <= p < |wait| ==>
      wait[p] < |rels| && rels[wait[p]].sym in syms && pending[p] == (rels[wait[p]].off, syms[rels[wait[p]].sym])
  }

  /** `relocate`, one entry: the word patched, or the queue longer. */
  method RelocateOne(data: array<Word>, rels: seq<Reloc>, syms: Symbols, i: nat, pending: seq<(nat, int)>,
                     ghost was: seq<Word>, ghost wait: seq<nat>)
    returns (pending': seq<(nat, int)>, ghost wait': seq<nat>)
    requires i < |rels| && Good(rels[i], syms) && Distinct(rels) && |was| == data.Length && Inside(rels, |was|)
    requires Queue(rels, syms, pending, wait) && Waiting(rels, i, wait)
    requires Progress(rels, syms, was, data[..], false, i, wait)
    modifies data
    ensures Queue(rels, syms, pending', wait') && Waiting(rels, i + 1, wait')
    ensures Progress(rels, syms, was, data[..], false, i + 1, wait')
  {
    var off, t, s := rels[i].off, rels[i].typ, syms[rels[i].sym];
    StillThere(rels, syms, was, data[..], false, i, wait, i);
    WordOf(rels, syms, was, false, i);
    var w := data[off];
    if t == R_HI16 {
      Enqueue(rels, syms, was, data[..], i, wait);
      pending', wait' := pending + [(off, s)], wait + [i];
    } else if t == R_LO16 {
      var lo := Sext(w);
      ghost var now := data[..];
      PatchPending(data, rels, syms, pending, wait, lo);
      Dequeue(rels, syms, was, now, data[..], i, wait);
      QueueEmptied(rels, i);
      pending', wait' := [], [];
      Settle(rels, syms, was, data[..], false, i, [], WithLow(w, (lo + s) % 0x1_0000));
      data[off] := WithLow(w, (lo + s) % 0x1_0000);
    } else {
      KeepWaiting(rels, i, wait);
      pending', wait' := pending, wait;
      var v: Word := if t == R_32 then (w + s) % 0x1_0000_0000
                     else w / 0x400_0000 * 0x400_0000 + (w % 0x400_0000 * 4 + s) / 4 % 0x400_0000;
      Settle(rels, syms, was, data[..], false, i, wait, v);
      data[off] := v;
    }
  }

  /** `relocate`: the words linked, each HI16 with the next LO16 of all; or the
      first thing wrong with the list. */
  method Relocate(data: array<Word>, rels: seq<Reloc>, syms: Symbols) returns (r: Verdict)
    requires Distinct(rels) && Inside(rels, data.Length)
    modifies data
    ensures r == RelocateVerdict(rels, syms)
    ensures r.Ok? ==> data[..] == Linked(rels, syms, old(data[..]), false)
  {
    ghost var was, wait := data[..], [];
    var pending := [];
    var i := 0;
    while i < |rels|
      invariant 0 <= i <= |rels|
      invariant forall k :: 0 <= k < i ==> Good(rels[k], syms)
      invariant Queue(rels, syms, pending, wait) && Waiting(rels, i, wait)
      invariant Progress(rels, syms, was, data[..], false, i, wait)
    {
      FirstBadStep(rels, syms, i);
      if rels[i].sym !in syms {
        return Err(UnknownSymbol(rels[i].sym));
      }
      if !KnownType(rels[i].typ) {
        return Err(BadType(rels[i].typ));
      }
      pending, wait := RelocateOne(data, rels, syms, i, pending, was, wait);
      i := i + 1;
    }
    FirstBadStep(rels, syms, |rels|);
    PendingMeansDangling(rels, wait);
    if pending != [] {
      return Err(Dangling);
    }
    LinkedWhenDone(rels, syms, was, data[..], false);
    return Ok;
  }

  lemma LinkedWhenDone(rels: seq<Reloc>, syms: Symbols, was: seq<Word>, now: seq<Word>, own: bool)
    requires Inside(rels, |was|) && Progress(rels, syms, was, now, own, |rels|, [])
    ensures now == Linked(rels, syms, was, own)
  {
    forall x | 0 <= x < |was| ensures now[x] == LinkedWord(rels, syms, was, own, x) {
      RelocAtBounds(rels, x, 0);
    }
  }

  // ----- rodata_check.py -----

  /** The list sorted by offset, entries of one offset in their old order. */
  function ByOffset(rels: seq<Reloc>): seq<Reloc> {
    if rels == [] then [] else Insert(rels[0], ByOffset(rels[1..]))
  }

  function Insert(r: Reloc, s: seq<Reloc>): seq<Reloc> {
    if s == [] || r.off <= s[0].off then [r] + s else [s[0]] + Insert(r, s[1..])
  }

  predicate InOrder(rels: seq<Reloc>) {
    forall j, k :: 0 <= j < k < |rels| ==> rels[j].off <= rels[k].off
  }

  lemma {:induction false} InsertMembers(r: Reloc, s: seq<Reloc>)
    ensures multiset(Insert(r, s)) == multiset(s) + multiset{r}
    ensures forall x :: x in Insert(r, s) <==> x == r || x in s
    decreases |s|
  {
    if s != [] && r.off > s[0].off {
      InsertMembers(r, s[1..]);
      assert s == [s[0]] + s[1..];
    }
  }

  /** A new first entry keeps what holds of the rest. */
  lemma Front(r: Reloc, s: seq<Reloc>)
    ensures InOrder(s) && (forall x <- s :: r.off <= x.off) ==> InOrder([r] + s)
    ensures Distinct(s) && (forall x <- s :: x.off != r.off) ==> Distinct([r] + s)
  {
    assert forall k :: 0 <= k < |s| ==> s[k] in s;
  }

  lemma {:induction false} InsertInOrder(r: Reloc, s: seq<Reloc>)
    requires InOrder(s)
    ensures InOrder(Insert(r, s))
    decreases |s|
  {
    if s == [] || r.off <= s[0].off {
      forall x <- s ensures r.off <= x.off {
      }
      Front(r, s);
    } else {
      InsertInOrder(r, s[1..]);
      InsertMembers(r, s[1..]);
      forall x <- Insert(r, s[1..]) ensures s[0].off <= x.off {
      }
      Front(s[0], Insert(r, s[1..]));
    }
  }

  lemma {:induction false} InsertDistinct(r: Reloc, s: seq<Reloc>)
    requires Distinct(s) && forall x <- s :: x.off != r.off
    ensures Distinct(Insert(r, s))
    decreases |s|
  {
    if s == [] || r.off <= s[0].off {
      Front(r, s);
    } else {
      InsertDistinct(r, s[1..]);
      InsertMembers(r, s[1..]);
      forall x <- Insert(r, s[1..]) ensures x.off != s[0].off {
        if x != r {
          var k: nat :| k < |s[1..]| && s[1..][k] == x;
          assert s[k + 1] == x;
        }
      }
      Front(s[0], Insert(r, s[1..]));
    }
  }

  /** Sorting orders the entries, and neither adds nor loses any. */
  lemma {:induction false} Sorted(rels: seq<Reloc>)
    ensures InOrder(ByOffset(rels)) && multiset(ByOffset(rels)) == multiset(rels)
    ensures forall x :: x in ByOffset(rels) <==> x in rels
    ensures Distinct(rels) ==> Distinct(ByOffset(rels))
  {
    if rels != [] {
      Sorted(rels[1..]);
      InsertMembers(rels[0], ByOffset(rels[1..]));
      InsertInOrder(rels[0], ByOffset(rels[1..]));
      assert rels == [rels[0]] + rels[1..];
      if Distinct(rels) {
        forall x <- rels[1..] ensures x.off != rels[0].off {
          var k: nat :| k < |rels[1..]| && rels[1..][k] == x;
          assert rels[k + 1] == x;
        }
        InsertDistinct(rels[0], ByOffset(rels[1..]));
      }
    }
  }

  lemma {:induction false} SortedAlready(rels: seq<Reloc>)
    requires InOrder(rels)
    ensures ByOffset(rels) == rels
  {
    if rels != [] {
      SortedAlready(rels[1..]);
      assert |rels| > 1 ==> rels[1..][0] == rels[1];
      assert rels == [rels[0]] + rels[1..];
    }
  }

  lemma SortedInside(rels: seq<Reloc>, n: nat)
    requires Inside(rels, n)
    ensures Inside(ByOffset(rels), n)
  {
    Sorted(rels);
    forall k | 0 <= k < |ByOffset(rels)| ensures ByOffset(rels)[k].off < n {
      assert ByOffset(rels)[k] in rels;
    }
  }

  /** The entry for an offset is the same in both lists. */
  lemma SortedAt(rels: seq<Reloc>, k: nat) returns (k': nat)
    requires k < |rels| && Distinct(rels)
    ensures k' < |ByOffset(rels)| && ByOffset(rels)[k'] == rels[k] && RelocAt(ByOffset(rels), rels[k].off, 0) == Some(k')
  {
    Sorted(rels);
    assert rels[k] in ByOffset(rels);
    k' :| k' < |ByOffset(rels)| && ByOffset(rels)[k'] == rels[k];
    RelocAtIs(ByOffset(rels), k');
  }

  /** The entries the check reports: unknown symbols and unknown types. */
  function Reported(rels: seq<Reloc>, syms: Symbols, n: nat): seq<nat>
    requires n <= |rels|
  {
    if n == 0 then [] else Reported(rels, syms, n - 1) + (if Good(rels[n - 1], syms) then [] else [n - 1])
  }

  lemma SameLow(w: Word, s: int)
    ensures (s + w % 0x1_0000) % 0x1_0000 == (Sext(w) + s) % 0x1_0000
  {
  }

  /** An entry reported leaves its word alone. */
  lemma Skip(rels: seq<Reloc>, syms: Symbols, was: seq<Word>, now: seq<Word>, i: nat)
    requires Inside(rels, |was|) && Distinct(rels) && i < |rels| && !Good(rels[i], syms)
    requires Progress(rels, syms, was, now, true, i, [])
    ensures Progress(rels, syms, was, now, true, i + 1, [])
  {
    RelocAtIs(rels, i);
    forall x | 0 <= x < |was| ensures RelocAt(rels, x, 0) == Some(i) ==> x == rels[i].off {
      RelocAtBounds(rels, x, 0);
    }
  }

  /** The low addend a HI16 finds by looking ahead. */
  method LookAhead(buf: array<Word>, rels: seq<Reloc>, syms: Symbols, k: nat, ghost was: seq<Word>) returns (imm: int)
    requires k < |rels| && Distinct(rels) && |was| == buf.Length && Inside(rels, |was|)
    requires Progress(rels, syms, was, buf[..], true, k, [])
    ensures imm == LoAddend(rels, k, true, was)
  {
    var lo := NextLo(rels, k + 1, Some(rels[k].sym));
    NextLoBounds(rels, k + 1, Some(rels[k].sym));
    imm := 0;
    if lo.Some? {
      StillThere(rels, syms, was, buf[..], true, k, [], lo.value);
      imm := Sext(buf[rels[lo.value].off]);
    }
  }

  method CheckOne(buf: array<Word>, rels: seq<Reloc>, syms: Symbols, k: nat, ghost was: seq<Word>) returns (v: Word)
    requires k < |rels| && Good(rels[k], syms) && Distinct(rels) && |was| == buf.Length && Inside(rels, |was|)
    requires Progress(rels, syms, was, buf[..], true, k, [])
    ensures v == LinkedWord(rels, syms, was, true, rels[k].off)
  {
    var t, s := rels[k].typ, syms[rels[k].sym];
    StillThere(rels, syms, was, buf[..], true, k, [], k);
    WordOf(rels, syms, was, true, k);
    var w := buf[rels[k].off];
    if t == R_26 {
      v := w / 0x400_0000 * 0x400_0000 + (w % 0x400_0000 * 4 + s) / 4 % 0x400_0000;
    } else if t == R_LO16 {
      SameLow(w, s);
      v := WithLow(w, (s + w % 0x1_0000) % 0x1_0000);
    } else if t == R_HI16 {
      var imm := LookAhead(buf, rels, syms, k, was);
      var a := w % 0x1_0000 * 0x1_0000 + imm;
      v := WithLow(w, (s + a + 0x8000) / 0x1_0000 % 0x1_0000);
    } else {
      v := (w + s) % 0x1_0000_0000;
    }
  }

  /** The .text loop of `check` on a list already sorted. */
  method CheckSorted(buf: array<Word>, rels: seq<Reloc>, syms: Symbols) returns (bad: seq<nat>)
    requires Distinct(rels) && Inside(rels, buf.Length)
    modifies buf
    ensures bad == Reported(rels, syms, |rels|)
    ensures buf[..] == Linked(rels, syms, old(buf[..]), true)
  {
    ghost var was := buf[..];
    bad := [];
    var k := 0;
    while k < |rels|
      invariant 0 <= k <= |rels|
      invariant bad == Reported(rels, syms, k)
      invariant Progress(rels, syms, was, buf[..], true, k, [])
    {
      if Good(rels[k], syms) {
        var v := CheckOne(buf, rels, syms, k, was);
        Settle(rels, syms, was, buf[..], true, k, [], v);
        buf[rels[k].off] := v;
      } else {
        Skip(rels, syms, was, buf[..], k);
        bad := bad + [k];
      }
      k := k + 1;
    }
    LinkedWhenDone(rels, syms, was, buf[..], true);
  }

  /** The words linked, each HI16 with the next LO16 of its own symbol in the order of
      offsets, and the entries that could not be resolved, as places in that order. */
  method CheckText(buf: array<Word>, rels: seq<Reloc>, syms: Symbols) returns (bad: seq<nat>)
    requires Distinct(rels) && Inside(rels, buf.Length)
    modifies buf
    ensures Inside(ByOffset(rels), buf.Length)
    ensures bad == Reported(ByOffset(rels), syms, |ByOffset(rels)|)
    ensures buf[..] == Linked(ByOffset(rels), syms, old(buf[..]), true)
  {
    var rl := ByOffset(rels);
    Sorted(rels);
    SortedInside(rels, buf.Length);
    bad := CheckSorted(buf, rl, syms);
  }

  // ----- the engines agree -----

  lemma {:induction false} NothingReported(rels: seq<Reloc>, syms: Symbols, n: nat)
    requires n <= |rels|
    ensures Reported(rels, syms, n) == [] <==> forall k :: 0 <= k < n ==> Good(rels[k], syms)
  {
    if n > 0 {
      NothingReported(rels, syms, n - 1);
    }
  }

  lemma {:induction false} NothingBad(rels: seq<Reloc>, syms: Symbols, i: nat)
    ensures FirstBad(rels, syms, i).Ok? <==> forall k :: i <= k < |rels| ==> Good(rels[k], syms)
    decreases |rels| - i
  {
    if i < |rels| && Good(rels[i], syms) {
      NothingBad(rels, syms, i + 1);
    }
  }

  predicate AllGood(rels: seq<Reloc>, syms: Symbols) { forall k :: 0 <= k < |rels| ==> Good(rels[k], syms) }

  /** Sorting changes nothing about what is reported, only where. */
  lemma NothingReportedSorted(rels: seq<Reloc>, syms: Symbols)
    ensures Reported(ByOffset(rels), syms, |ByOffset(rels)|) == [] <==> AllGood(rels, syms)
  {
    var b := ByOffset(rels);
    NothingReported(b, syms, |b|);
    Sorted(rels);
    if AllGood(rels, syms) {
      forall k | 0 <= k < |b| ensures Good(b[k], syms) {
        assert b[k] in rels;
      }
    } else {
      var k :| 0 <= k < |rels| && !Good(rels[k], syms);
      assert rels[k] in b;
    }
  }

  /** The offset of the LO16 a HI16 at `k` is paired with. */
  function LoOff(rels: seq<Reloc>, k: nat, own: bool): Option<nat>
    requires k < |rels|
  {
    var j := Partner(rels, k, own);
    if j.None? then None else Some(rels[j.value].off)
  }

  /** The same of the entry for the offset `x`, by its own symbol in the sorted list. */
  function SortedLoOff(rels: seq<Reloc>, x: nat): Option<nat> {
    var k := RelocAt(ByOffset(rels), x, 0);
    RelocAtBounds(ByOffset(rels), x, 0);
    if k.None? then None else LoOff(ByOffset(rels), k.value, true)
  }

  /** A HI16 for which the engines find different LO16s is harmless only if its symbol
      is 64 KB aligned: then no low addend carries into the upper half. */
  ghost predicate Harmless(rels: seq<Reloc>, syms: Symbols, k: nat)
    requires k < |rels|
  {
    rels[k].typ == R_HI16 && rels[k].sym in syms ==>
      SortedLoOff(rels, rels[k].off) == LoOff(rels, k, false) || syms[rels[k].sym] % 0x1_0000 == 0
  }

  lemma AlignedCarriesNothing(s: int, w: Word, lo: int)
    requires s % 0x1_0000 == 0 && -0x8000 <= lo < 0x8000
    ensures Field(R_HI16, s, w, lo) == Field(R_HI16, s, w, 0)
  {
    var x := w % 0x1_0000 + s / 0x1_0000;
    NoCarry(x, lo + 0x8000);
    NoCarry(x, 0x8000);
  }

  lemma NoCarry(x: int, r: int)
    requires 0 <= r < 0x1_0000
    ensures (x * 0x1_0000 + r) / 0x1_0000 == x
  {
  }

  /** For any other symbol some low addend does carry. */
  lemma SomeAddendCarries(s: int)
    requires s % 0x1_0000 != 0
    ensures Field(R_HI16, s, 0, Sext(Teller(s))) != Field(R_HI16, s, 0, 0)
  {
    var q := s / 0x1_0000;
    if s % 0x1_0000 >= 0x8000 {
      assert (-0x8000 + s + 0x8000) / 0x1_0000 == q && (s + 0x8000) / 0x1_0000 == q + 1;
    } else {
      assert (0x7FFF + s + 0x8000) / 0x1_0000 == q + 1 && (s + 0x8000) / 0x1_0000 == q;
    }
    assert q % 0x1_0000 != (q + 1) % 0x1_0000;
  }

  /** The engines link the same words into every section. */
  ghost predicate AlwaysAlike(rels: seq<Reloc>, syms: Symbols, n: nat)
    requires Inside(rels, n) && Inside(ByOffset(rels), n)
  {
    forall data: seq<Word> :: |data| == n ==>
      Linked(rels, syms, data, false) == Linked(ByOffset(rels), syms, data, true)
  }

  function Teller(s: int): Word {
    if s % 0x1_0000 >= 0x8000 then 0x8000 else 0x7FFF
  }

  function ZerosBut(n: nat, i: nat, w: Word): (r: seq<Word>)
    requires i < n
    ensures |r| == n && r[i] == w && forall k :: 0 <= k < n && k != i ==> r[k] == 0
  {
    seq(n, k => if k == i then w else 0)
  }

  /** What the two engines make of the word of one HI16. */
  lemma HighWords(rels: seq<Reloc>, syms: Symbols, data: seq<Word>, k: nat)
    requires Inside(rels, |data|) && Inside(ByOffset(rels), |data|) && Distinct(rels) && k < |rels|
    requires rels[k].typ == R_HI16 && rels[k].sym in syms
    ensures var x, s, o, o' := rels[k].off, syms[rels[k].sym], LoOff(rels, k, false), SortedLoOff(rels, rels[k].off);
            (o.Some? ==> o.value < |data| && o.value != x) && (o'.Some? ==> o'.value < |data| && o'.value != x) &&
            LinkedWord(rels, syms, data, false, x) ==
              Field(R_HI16, s, data[x], if o.None? then 0 else Sext(data[o.value])) &&
            LinkedWord(ByOffset(rels), syms, data, true, x) ==
              Field(R_HI16, s, data[x], if o'.None? then 0 else Sext(data[o'.value]))
  {
    var k' := SortedAt(rels, k);
    Sorted(rels);
    WordOf(rels, syms, data, false, k);
    WordOf(ByOffset(rels), syms, data, true, k');
  }

  /** The section that tells the engines apart at `k`: zero but for the low half of
      a LO16 that only one of them looks at. */
  lemma ToldApart(rels: seq<Reloc>, syms: Symbols, n: nat, k: nat)
    requires Inside(rels, n) && Inside(ByOffset(rels), n) && Distinct(rels) && k < |rels| && !Harmless(rels, syms, k)
    ensures !AlwaysAlike(rels, syms, n)
  {
    var x, s, o, o' := rels[k].off, syms[rels[k].sym], LoOff(rels, k, false), SortedLoOff(rels, rels[k].off);
    HighWords(rels, syms, ZerosBut(n, x, 0), k);
    var data := ZerosBut(n, if o.Some? then o.value else o'.value, Teller(s));
    HighWords(rels, syms, data, k);
    SomeAddendCarries(s);
    assert Linked(rels, syms, data, false)[x] != Linked(ByOffset(rels), syms, data, true)[x];
  }

  /** Both link the same words into every section exactly when every HI16 is harmless. */
  lemma WordsAgreeExactly(rels: seq<Reloc>, syms: Symbols, n: nat)
    requires Inside(rels, n) && Inside(ByOffset(rels), n) && Distinct(rels)
    ensures AlwaysAlike(rels, syms, n) <==> forall k :: 0 <= k < |rels| ==> Harmless(rels, syms, k)
  {
    if forall k :: 0 <= k < |rels| ==> Harmless(rels, syms, k) {
      forall data: seq<Word> | |data| == n
        ensures Linked(rels, syms, data, false) == Linked(ByOffset(rels), syms, data, true)
      {
        forall x | 0 <= x < n
          ensures LinkedWord(rels, syms, data, false, x) == LinkedWord(ByOffset(rels), syms, data, true, x)
        {
          HarmlessWord(rels, syms, data, x);
        }
      }
    } else {
      var k :| 0 <= k < |rels| && !Harmless(rels, syms, k);
      ToldApart(rels, syms, n, k);
    }
  }

  lemma HarmlessWord(rels: seq<Reloc>, syms: Symbols, data: seq<Word>, x: nat)
    requires Inside(rels, |data|) && Inside(ByOffset(rels), |data|) && Distinct(rels) && x < |data|
    requires forall k :: 0 <= k < |rels| ==> Harmless(rels, syms, k)
    ensures LinkedWord(rels, syms, data, false, x) == LinkedWord(ByOffset(rels), syms, data, true, x)
  {
    var k := RelocAt(rels, x, 0);
    RelocAtBounds(rels, x, 0);
    if k.None? {
      NotSorted(rels, x);
    } else {
      var k' := SortedAt(rels, k.value);
      if rels[k.value].typ == R_HI16 && rels[k.value].sym in syms {
        var s, o, o' := syms[rels[k.value].sym], LoOff(rels, k.value, false), SortedLoOff(rels, x);
        assert Harmless(rels, syms, k.value);
        HighWords(rels, syms, data, k.value);
        if o != o' {
          AlignedCarriesNothing(s, data[x], if o.None? then 0 else Sext(data[o.value]));
          AlignedCarriesNothing(s, data[x], if o'.None? then 0 else Sext(data[o'.value]));
        }
      }
    }
  }

  lemma NotSorted(rels: seq<Reloc>, x: nat)
    requires RelocAt(rels, x, 0).None?
    ensures RelocAt(ByOffset(rels), x, 0).None?
  {
    RelocAtBounds(rels, x, 0);
    RelocAtBounds(ByOffset(rels), x, 0);
    Sorted(rels);
    forall q | 0 <= q < |ByOffset(rels)| ensures ByOffset(rels)[q].off != x {
      assert ByOffset(rels)[q] in rels;
    }
  }

  /** The engines agree: one accepts exactly when the other has nothing to report,
      and a section that is accepted is linked to the same words by both. */
  ghost predicate EnginesAlike(rels: seq<Reloc>, syms: Symbols, n: nat)
    requires Inside(rels, n) && Inside(ByOffset(rels), n)
  {
    (RelocateVerdict(rels, syms).Ok? <==> Reported(ByOffset(rels), syms, |ByOffset(rels)|) == []) &&
    (RelocateVerdict(rels, syms).Ok? ==> AlwaysAlike(rels, syms, n))
  }

  /** They do exactly when a list of known symbols and types leaves no HI16 without a
      LO16 behind it, and every HI16 in it is harmless: its next LO16 in the file is
      the next one of its own symbol by offset, or its symbol is 64 KB aligned. */
  lemma EnginesAgreeExactly(rels: seq<Reloc>, syms: Symbols, n: nat)
    requires Inside(rels, n) && Distinct(rels)
    ensures Inside(ByOffset(rels), n)
    ensures EnginesAlike(rels, syms, n) <==>
              (AllGood(rels, syms) ==> !Dangles(rels) && forall k :: 0 <= k < |rels| ==> Harmless(rels, syms, k))
  {
    SortedInside(rels, n);
    NothingReportedSorted(rels, syms);
    NothingBad(rels, syms, 0);
    WordsAgreeExactly(rels, syms, n);
  }

  /** Each HI16's next LO16 is there and is of its own symbol. */
  ghost predicate Paired(rels: seq<Reloc>) {
    forall k :: 0 <= k < |rels| && rels[k].typ == R_HI16 ==>
      Partner(rels, k, false).Some? && rels[Partner(rels, k, false).value].sym == rels[k].sym
  }

  lemma SamePartner(rels: seq<Reloc>, k: nat)
    requires k < |rels|
    requires Partner(rels, k, false).Some? && rels[Partner(rels, k, false).value].sym == rels[k].sym
    ensures Partner(rels, k, true) == Partner(rels, k, false)
  {
    NextLoBounds(rels, k + 1, None);
    NextLoBounds(rels, k + 1, Some(rels[k].sym));
  }

  /** On a list in the order of offsets with every HI16 paired, they agree. */
  lemma EnginesAgree(rels: seq<Reloc>, syms: Symbols, n: nat)
    requires Inside(rels, n) && Distinct(rels) && InOrder(rels) && Paired(rels)
    ensures ByOffset(rels) == rels && EnginesAlike(rels, syms, n)
  {
    SortedAlready(rels);
    forall k | 0 <= k < |rels| ensures Harmless(rels, syms, k) {
      RelocAtIs(rels, k);
      if rels[k].typ == R_HI16 {
        SamePartner(rels, k);
      }
    }
    EnginesAgreeExactly(rels, syms, n);
  }

  // ----- the lists that tell them apart -----

  /** A lone `%hi(a)`: one engine refuses it, the other links it and has nothing to
      report. */
  lemma DanglingTellsApart(w: Word)
    ensures var rels, syms := [Reloc(0, R_HI16, 0)], map[0 := 0x8000_1234];
            Inside(rels, 1) && Distinct(rels) && ByOffset(rels) == rels && Harmless(rels, syms, 0) &&
            RelocateVerdict(rels, syms) == Err(Dangling) && Reported(rels, syms, 1) == [] &&
            Linked(rels, syms, [w], true) == [Field(R_HI16, 0x8000_1234, w, 0)]
  {
    var rels, syms := [Reloc(0, R_HI16, 0)], map[0 := 0x8000_1234];
    assert Good(rels[0], syms);
    SortedAlready(rels);
    RelocAtIs(rels, 0);
    NothingBad(rels, syms, 0);
    assert Partner(rels, 0, false) == None && Partner(rels, 0, true) == None;
    WordOf(rels, syms, [w], true, 0);
  }

  /** `%hi(a) %hi(b) %lo(a) %lo(b)`. */
  const CROSSED: seq<Reloc> :=
    [Reloc(0, R_HI16, 0), Reloc(1, R_HI16, 1), Reloc(2, R_LO16, 0), Reloc(3, R_LO16, 1)]

  lemma CrossedPartners()
    ensures Partner(CROSSED, 0, false) == Some(2) && Partner(CROSSED, 1, false) == Some(2)
    ensures Partner(CROSSED, 1, true) == Some(3)
  {
    NextLoBounds(CROSSED, 1, None);
    NextLoBounds(CROSSED, 2, None);
    NextLoBounds(CROSSED, 2, Some(1));
  }

  const CROSSED_AT: Symbols := map[0 := 0x8000_0000, 1 := 0x8000_8000]

  lemma CrossedAccepted()
    ensures RelocateVerdict(CROSSED, CROSSED_AT).Ok? && Reported(CROSSED, CROSSED_AT, 4) == []
  {
    assert AllGood(CROSSED, CROSSED_AT);
    NothingReported(CROSSED, CROSSED_AT, 4);
    NothingBad(CROSSED, CROSSED_AT, 0);
    CrossedPartners();
  }

  /** Both accept it, and link the second word apart. */
  lemma CrossedPairsTellApart()
    ensures Inside(CROSSED, 4) && Distinct(CROSSED) && ByOffset(CROSSED) == CROSSED && !Harmless(CROSSED, CROSSED_AT, 1)
    ensures RelocateVerdict(CROSSED, CROSSED_AT).Ok? && Reported(CROSSED, CROSSED_AT, 4) == []
    ensures !AlwaysAlike(CROSSED, CROSSED_AT, 4)
  {
    SortedAlready(CROSSED);
    CrossedAccepted();
    CrossedPartners();
    RelocAtIs(CROSSED, 1);
    ToldApart(CROSSED, CROSSED_AT, 4, 1);
  }

  /** Four entries of one symbol in the order `hi@0 lo@3 hi@1 lo@2`, as gas writes them
      when it moves a HI16 in front of its own LO16. */
  const UNSORTED: seq<Reloc> :=
    [Reloc(0, R_HI16, 0), Reloc(3, R_LO16, 0), Reloc(1, R_HI16, 0), Reloc(2, R_LO16, 0)]

  const IN_ORDER: seq<Reloc> :=
    [Reloc(0, R_HI16, 0), Reloc(1, R_HI16, 0), Reloc(2, R_LO16, 0), Reloc(3, R_LO16, 0)]

  lemma UnsortedInOrder()
    ensures ByOffset(UNSORTED) == IN_ORDER
  {
    var a, b := UNSORTED[2..], UNSORTED[1..];
    assert b[1..] == a && UNSORTED[1..] == b && a[1..] == [UNSORTED[3]];
    SortedAlready(a);
    assert Insert(b[0], a) == [a[0]] + Insert(b[0], a[1..]) && Insert(b[0], a[1..]) == [a[1]] + Insert(b[0], []);
    assert a[1..][1..] == [];
    assert ByOffset(b) == [Reloc(1, R_HI16, 0), Reloc(2, R_LO16, 0), Reloc(3, R_LO16, 0)];
  }

  /** Every HI16 is paired and both accept it, but the first word's LO16 is the one at
      3 in the file's order and the one at 2 by offset. */
  lemma UnsortedTellsApart()
    ensures var syms := map[0 := 0x8000_1234];
            Inside(UNSORTED, 4) && Distinct(UNSORTED) && Paired(UNSORTED) && Inside(ByOffset(UNSORTED), 4) &&
            RelocateVerdict(UNSORTED, syms).Ok? && !Harmless(UNSORTED, syms, 0) && !AlwaysAlike(UNSORTED, syms, 4)
  {
    var syms := map[0 := 0x8000_1234];
    UnsortedInOrder();
    assert AllGood(UNSORTED, syms);
    NothingBad(UNSORTED, syms, 0);
    NextLoBounds(UNSORTED, 1, None);
    NextLoBounds(UNSORTED, 3, None);
    NextLoBounds(IN_ORDER, 1, Some(0));
    assert Partner(UNSORTED, 0, false) == Some(1) && Partner(UNSORTED, 2, false) == Some(3);
    assert Partner(IN_ORDER, 0, true) == Some(2);
    RelocAtIs(IN_ORDER, 0);
    ToldApart(UNSORTED, syms, 4, 0);
  }

  /** In a linked section every HI16 and the LO16 it was paired with address the
      symbol plus the addend the two carried, however many HI16s share the LO16. */
  lemma PairsAddress(rels: seq<Reloc>, syms: Symbols, data: seq<Word>, own: bool, k: nat)
    requires Inside(rels, |data|) && Distinct(rels)
    requires k < |rels| && rels[k].typ == R_HI16 && rels[k].sym in syms
    requires Partner(rels, k, own).Some? && rels[Partner(rels, k, own).value].sym == rels[k].sym
    ensures var j := Partner(rels, k, own).value;
            var out := Linked(rels, syms, data, own);
            var addend := data[rels[k].off] % 0x1_0000 * 0x1_0000 + Sext(data[rels[j].off]);
            (out[rels[k].off] % 0x1_0000 * 0x1_0000 + Sext(out[rels[j].off])) % 0x1_0000_0000 ==
            (syms[rels[k].sym] + addend) % 0x1_0000_0000
  {
    var j := Partner(rels, k, own).value;
    WordOf(rels, syms, data, own, k);
    WordOf(rels, syms, data, own, j);
    HiLoPair(data[rels[k].off], data[rels[j].off], syms[rels[k].sym]);
  }
}
