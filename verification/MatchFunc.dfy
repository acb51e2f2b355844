/** tools/match_func.py: comparing an unlinked function with the ROM, relocated
    fields masked; and what a MATCH says about the linked function. */
module MatchFunc {
  import opened Prelude
  import opened Relocation

  /** A relocation on a word: its type, and the address its symbol's name spells
      (`D_800A5858`), if it spells one. */
  datatype Rel = Rel(typ: int, addr: Option<nat>)

  function Mask(w: Word, rel: Option<Rel>): Word {
    if rel.None? then w
    else if rel.value.typ == R_26 then w / 0x400_0000 * 0x400_0000
    else if rel.value.typ == R_HI16 || rel.value.typ == R_LO16 then w / 0x1_0000 * 0x1_0000
    else w
  }

  predicate TargetOk(got: Word, want: Word, rel: Option<Rel>) {
    if rel.None? || rel.value.addr.None? then true
    else
      var addr := rel.value.addr.value;
      if rel.value.typ == R_LO16 then (addr + Sext(got)) % 0x1_0000 == want % 0x1_0000
      else if rel.value.typ == R_26 then
        (addr + got % 0x400_0000 * 4) % 0x1000_0000 / 4 == want % 0x400_0000
      else true
  }

  function RelOf(relocs: map<nat, Rel>, i: nat): Option<Rel> {
    if i in relocs then Some(relocs[i]) else None
  }

  predicate WordOk(got: seq<Word>, want: seq<Word>, relocs: map<nat, Rel>, i: nat) {
    i < |got| && i < |want| && Mask(got[i], RelOf(relocs, i)) == Mask(want[i], RelOf(relocs, i)) &&
    TargetOk(got[i], want[i], RelOf(relocs, i))
  }

  function BadWords(got: seq<Word>, want: seq<Word>, relocs: map<nat, Rel>, n: nat): seq<nat> {
    if n == 0 then []
    else BadWords(got, want, relocs, n - 1) + (if WordOk(got, want, relocs, n - 1) then [] else [n - 1])
  }

  /** What one accepted word says, in terms of the linker's fields. */
  predicate Agrees(got: Word, want: Word, rel: Option<Rel>) {
    if rel.None? then want == got
    else
      var r := rel.value;
      if r.typ == R_HI16 then want / 0x1_0000 == got / 0x1_0000
      else if r.typ == R_LO16 then
        if r.addr.Some? then want == Field(R_LO16, r.addr.value, got, 0) else want / 0x1_0000 == got / 0x1_0000
      else if r.typ == R_26 then
        if r.addr.Some? then want == Field(R_26, r.addr.value, got, 0) else want / 0x400_0000 == got / 0x400_0000
      else want == got
  }

  lemma Split26(w: int, h: int, l: int)
    requires 0 <= l < 0x400_0000
    ensures w == h * 0x400_0000 + l <==> w / 0x400_0000 == h && w % 0x400_0000 == l
  {
  }

  lemma Split16(w: int, h: int, l: int)
    requires 0 <= l < 0x1_0000
    ensures w == h * 0x1_0000 + l <==> w / 0x1_0000 == h && w % 0x1_0000 == l
  {
  }

  lemma SameTop(x: int, y: int)
    ensures x * 0x400_0000 == y * 0x400_0000 <==> x == y
    ensures x * 0x1_0000 == y * 0x1_0000 <==> x == y
  {
  }

  /** The 28 bits of a jump's target, as the word count in its field. */
  lemma JumpLow(x: nat)
    ensures x % 0x1000_0000 / 4 == x / 4 % 0x400_0000
  {
    var q, r := x / 4, x % 4;
    var h, l := q / 0x400_0000, q % 0x400_0000;
    assert x == h * 0x1000_0000 + (4 * l + r);
    assert x % 0x1000_0000 == 4 * l + r;
  }

  lemma {:induction false} WordOkExactly(got: seq<Word>, want: seq<Word>, relocs: map<nat, Rel>, i: nat)
    ensures WordOk(got, want, relocs, i) <==>
              i < |got| && i < |want| && Agrees(got[i], want[i], RelOf(relocs, i))
  {
    if i < |got| && i < |want| {
      var g, w, rel := got[i], want[i], RelOf(relocs, i);
      SameTop(g / 0x400_0000, w / 0x400_0000);
      SameTop(g / 0x1_0000, w / 0x1_0000);
      if rel.Some? && rel.value.addr.Some? {
        var addr := rel.value.addr.value;
        JumpLow(addr + g % 0x400_0000 * 4);
        Split26(w, g / 0x400_0000, (g % 0x400_0000 * 4 + addr) / 4 % 0x400_0000);
        Split16(w, g / 0x1_0000, (Sext(g) + addr) % 0x1_0000);
      }
    }
  }

  lemma {:induction false} NoneBad(got: seq<Word>, want: seq<Word>, relocs: map<nat, Rel>, n: nat)
    ensures BadWords(got, want, relocs, n) == [] <==> forall i :: 0 <= i < n ==> WordOk(got, want, relocs, i)
  {
    if n > 0 {
      NoneBad(got, want, relocs, n - 1);
    }
  }

  /** `compare`: MATCH means the sizes agree and every word agrees with the ROM as
      far as its relocation lets it be told before linking. */
  method Compare(got: seq<Word>, want: seq<Word>, relocs: map<nat, Rel>) returns (ok: bool, bad: seq<nat>)
    ensures ok <==> |got| == |want| && forall i :: 0 <= i < |got| ==> Agrees(got[i], want[i], RelOf(relocs, i))
    ensures bad == BadWords(got, want, relocs, if |got| > |want| then |got| else |want|)
  {
    var n := if |got| > |want| then |got| else |want|;
    bad := [];
    var i := 0;
    while i < n
      invariant 0 <= i <= n
      invariant bad == BadWords(got, want, relocs, i)
    {
      if !WordOk(got, want, relocs, i) {
        bad := bad + [i];
      }
      i := i + 1;
    }
    ok := bad == [];
    NoneBad(got, want, relocs, n);
    forall k | 0 <= k < n
      ensures WordOk(got, want, relocs, k) <==> k < |got| && k < |want| && Agrees(got[k], want[k], RelOf(relocs, k))
    {
      WordOkExactly(got, want, relocs, k);
    }
    if |got| != |want| {
      assert !WordOk(got, want, relocs, if |got| < |want| then |got| else |want|);
    }
  }

  // ----- MATCH and the linker -----

  /** `relocs` is what compare keeps of the relocation list: one entry a word, the
      symbol resolved to the address its name spells. */
  ghost predicate Describes(relocs: map<nat, Rel>, rels: seq<Reloc>, syms: Symbols) {
    (forall k :: 0 <= k < |rels| ==>
       rels[k].sym in syms && syms[rels[k].sym] >= 0 &&
       (rels[k].typ == R_26 || rels[k].typ == R_HI16 || rels[k].typ == R_LO16) &&
       rels[k].off in relocs && relocs[rels[k].off] == Rel(rels[k].typ, Some(syms[rels[k].sym]))) &&
    (forall i <- relocs :: RelocAt(rels, i, 0).Some?)
  }

  predicate IsHi(relocs: map<nat, Rel>, i: nat) { i in relocs && relocs[i].typ == R_HI16 }

  lemma AgreesIsLinked(got: seq<Word>, want: seq<Word>, relocs: map<nat, Rel>, rels: seq<Reloc>, syms: Symbols,
                       own: bool, i: nat)
    requires Inside(rels, |got|) && Distinct(rels) && Describes(relocs, rels, syms) && i < |got| && i < |want|
    ensures var l := LinkedWord(rels, syms, got, own, i);
            Agrees(got[i], want[i], RelOf(relocs, i)) <==>
              if IsHi(relocs, i) then want[i] / 0x1_0000 == l / 0x1_0000 else want[i] == l
  {
    RelocAtBounds(rels, i, 0);
    if i in relocs {
      var k := RelocAt(rels, i, 0).value;
      WordOf(rels, syms, got, own, k);
    }
  }

  /** For a function whose relocations are jumps and HI16/LO16s against symbols
      named by their address: MATCH holds if and only if the sizes agree and the
      function, linked by either engine, is the ROM's, word for word, but for the
      immediate of its HI16 words. */
  lemma MatchMeansLinked(got: seq<Word>, want: seq<Word>, relocs: map<nat, Rel>, rels: seq<Reloc>, syms: Symbols, own: bool)
    requires Inside(rels, |got|) && Distinct(rels) && Describes(relocs, rels, syms)
    ensures (|got| == |want| && forall i :: 0 <= i < |got| ==> Agrees(got[i], want[i], RelOf(relocs, i))) <==>
              |got| == |want| &&
              forall i :: 0 <= i < |got| ==>
                if IsHi(relocs, i) then want[i] / 0x1_0000 == Linked(rels, syms, got, own)[i] / 0x1_0000
                else want[i] == Linked(rels, syms, got, own)[i]
  {
    if |got| == |want| {
      forall i | 0 <= i < |got|
        ensures Agrees(got[i], want[i], RelOf(relocs, i)) <==>
                  if IsHi(relocs, i) then want[i] / 0x1_0000 == Linked(rels, syms, got, own)[i] / 0x1_0000
                  else want[i] == Linked(rels, syms, got, own)[i]
      {
        AgreesIsLinked(got, want, relocs, rels, syms, own, i);
      }
    }
  }

  /** The gap is real: `lui $4,%hi(D_80000000)` matches a ROM word that loads the
      upper half of another address. */
  lemma HighHalfIsNotCompared()
    ensures var rels, syms := [Reloc(0, R_HI16, 0)], map[0 := 0x8000_0000];
            var relocs, got, want := map[0 := Rel(R_HI16, Some(0x8000_0000))], [0x3C04_0000], [0x3C04_1234];
            Agrees(got[0], want[0], RelOf(relocs, 0)) && Inside(rels, 1) &&
            LinkedWord(rels, syms, got, true, 0) != want[0]
  {
    var rels, syms := [Reloc(0, R_HI16, 0)], map[0 := 0x8000_0000];
    var got: seq<Word> := [0x3C04_0000];
    assert RelocAt(rels, 0, 0) == Some(0);
    assert NextLo(rels, 1, Some(0)).None?;
    assert LinkedWord(rels, syms, got, true, 0) == Field(R_HI16, 0x8000_0000, 0x3C04_0000, 0);
  }
}
