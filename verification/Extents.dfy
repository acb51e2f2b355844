/** tools/second_entry_points.py `main`, the extent-stretching loop, and
    tools/call_target_seeds.py `branch_target`.

    A second entry point has no declared end. Its first guess is stretched until
    no branch inside leaves it forwards, or until the data behind it is reached. */
module Extents {
  import opened Prelude

  // ----- where a word goes -----

  function Op(w: Word): int { w / 0x4000000 }

  function BranchTarget(w: Word, vram: nat): Option<int> {
    var op := Op(w);
    if op == 2 || op == 3 then
      Some(vram / 0x10000000 % 16 * 0x10000000 + w % 0x4000000 * 4)
    else
      var off := Sext(w);
      if 4 <= op <= 7 || 0x14 <= op <= 0x17 then Some(vram + 4 + off * 4)
      else if op == 1 && w / 0x10000 % 32 in {0, 1, 0x10, 0x11} then Some(vram + 4 + off * 4)
      else if op == 0x11 && w / 0x200000 % 32 == 8 then Some(vram + 4 + off * 4)
      else None
  }

  /** Where any jump or branch of MIPS III goes: a jump stays in the 256 MB of its delay
      slot; the branches are those on two registers, on one, and on a coprocessor's
      condition, each with its likely form. */
  function ArchTarget(w: Word, vram: nat): Option<int> {
    var op := Op(w);
    if op == 2 || op == 3 then Some((vram + 4) / 0x10000000 % 16 * 0x10000000 + w % 0x4000000 * 4)
    else if BranchHead(w / 0x10000) then Some(vram + 4 + Sext(w) * 4)
    else None
  }

  /** The upper halves of the conditional branches: opcode, and the fields that
      tell a branch from its neighbours in the same opcode. */
  predicate BranchHead(upper: int) {
    var op := upper / 0x400;
    0 <= upper < 0x10000 &&
    (4 <= op <= 7 || 0x14 <= op <= 0x17 ||
     (op == 1 && (upper % 32 <= 3 || 0x10 <= upper % 32 <= 0x13)) ||
     (0x10 <= op <= 0x12 && upper / 32 % 32 == 8))
  }

  /** The branches the program does not see: the likely forms on one register (bltzl,
      bgezl, bltzall, bgezall), and those on the conditions of coprocessors 0 and 2. */
  predicate Unseen(w: Word) {
    var op, rt := Op(w), w / 0x10000 % 32;
    (op == 1 && rt in {2, 3, 0x12, 0x13}) || ((op == 0x10 || op == 0x12) && w / 0x200000 % 32 == 8)
  }

  lemma HeadParts(w: Word)
    ensures w / 0x10000 / 0x400 == Op(w) && w / 0x10000 / 32 == w / 0x200000 && 0 <= w / 0x10000 < 0x10000
  {
  }

  /** A jump whose slot is the first word of the next 256 MB. */
  predicate AtEdge(w: Word, vram: nat) { (Op(w) == 2 || Op(w) == 3) && vram % 0x10000000 == 0xFFFFFFC }

  lemma Regions(vram: nat)
    requires vram % 4 == 0
    ensures (vram + 4) / 0x10000000 == if vram % 0x10000000 == 0xFFFFFFC then vram / 0x10000000 + 1 else vram / 0x10000000
  {
  }

  /** The program finds the target of every other word, and of these the wrong one or
      none. */
  lemma TargetsExactly(w: Word, vram: nat)
    requires vram % 4 == 0
    ensures BranchTarget(w, vram) == ArchTarget(w, vram) <==> !Unseen(w) && !AtEdge(w, vram)
    ensures Unseen(w) ==> BranchTarget(w, vram).None? && ArchTarget(w, vram).Some?
  {
    HeadParts(w);
    Regions(vram);
  }

  /** An assembler's branch word: displacement in words, counted from the slot. */
  function Assemble(upper: int, vram: int, dest: int): int {
    upper * 0x10000 + (dest - vram - 4) / 4 % 0x10000
  }

  /** Every conditional branch assembled to reach `dest` reaches `dest`, and the program
      says so unless it is one it does not see. */
  lemma BranchRoundTrip(upper: int, vram: nat, dest: int)
    requires BranchHead(upper) && vram % 4 == 0 && dest % 4 == 0
    requires -0x20000 <= dest - vram - 4 < 0x20000
    ensures var w := Assemble(upper, vram, dest);
            0 <= w < 0x1_0000_0000 && ArchTarget(w, vram) == Some(dest) &&
            (BranchTarget(w, vram) == Some(dest) <==> !Unseen(w))
  {
    var w := Assemble(upper, vram, dest);
    var low := (dest - vram - 4) / 4 % 0x10000;
    assert w / 0x10000 == upper && w % 0x10000 == low;
    HeadParts(w);
    assert Sext(w) == (dest - vram - 4) / 4;
    TargetsExactly(w, vram);
  }

  /** A jump assembled to reach `dest` in its slot's 256 MB reaches it, and the program
      says so unless its own address lies in the 256 MB before. */
  lemma JumpRoundTrip(op: int, vram: Word, dest: Word)
    requires (op == 2 || op == 3) && vram % 4 == 0
    requires dest % 4 == 0 && dest / 0x10000000 == (vram + 4) / 0x10000000 % 16
    ensures var w := op * 0x4000000 + dest / 4 % 0x4000000;
            0 <= w < 0x1_0000_0000 && ArchTarget(w, vram) == Some(dest) &&
            (BranchTarget(w, vram) == Some(dest) <==> !AtEdge(w, vram))
  {
    var field := dest / 4 % 0x4000000;
    var w := op * 0x4000000 + field;
    assert Op(w) == op && w % 0x4000000 == field;
    assert dest == dest / 0x10000000 * 0x10000000 + field * 4;
    assert !Unseen(w);
    TargetsExactly(w, vram);
  }

  /** Branches from aligned code go to aligned addresses. */
  lemma TargetAligned(w: Word, vram: nat)
    requires vram % 4 == 0 && BranchTarget(w, vram).Some?
    ensures BranchTarget(w, vram).value % 4 == 0
  {
  }

  // ----- the extent -----

  /** `words` is the ROM from the entry's own offset to the last whole word. */
  datatype Code = Code(words: seq<Word>, target: nat, entries: set<int>)

  /** An offset the `i`-th word, going to `dest`, must not lead behind the function's
      end with; nothing for a `jal`, and for a `j` to a known entry. */
  function EdgeTo(c: Code, i: nat, dest: Option<int>): Option<int>
    requires i < |c.words|
  {
    var w := c.words[i];
    if dest.None? || Op(w) == 3 || (Op(w) == 2 && dest.value in c.entries) then None
    else Some(dest.value - c.target)
  }

  function Edge(c: Code, i: nat): Option<int> {
    if i >= |c.words| then None else EdgeTo(c, i, BranchTarget(c.words[i], c.target + 4 * i))
  }

  predicate Inside(c: Code, i: nat, length: int) {
    Edge(c, i).Some? ==> Edge(c, i).value < length
  }

  /** No branch in the extent leaves it forwards. */
  ghost predicate Closed(c: Code, length: int) {
    forall i: nat :: 4 * i < length ==> Inside(c, i, length)
  }

  predicate Aligned(start: int, length: int) { length == start || (length > start && length % 4 == 0) }

  /** Every closed extent is at least this long. */
  ghost predicate Below(c: Code, start: int, r: int) {
    forall l: int :: Aligned(start, l) && Closed(c, l) ==> r <= l
  }

  ghost predicate Answer(c: Code, start: int, limit: int, r: int) {
    if start >= limit then r == start
    else
      start <= r <= limit && Below(c, start, r) &&
      (r == limit || (Aligned(start, r) && Closed(c, r)))
  }

  /** There is one answer: the least closed extent, or the limit. */
  lemma AnswerUnique(c: Code, start: int, limit: int, r: int, r': int)
    requires Answer(c, start, limit, r) && Answer(c, start, limit, r')
    ensures r == r'
  {
  }

  /** The limit is returned exactly when no closed extent ends before it. */
  lemma LimitExactly(c: Code, start: int, limit: int, r: int)
    requires start < limit && Answer(c, start, limit, r)
    ensures r == limit <==> forall l: int :: Aligned(start, l) && l < limit ==> !Closed(c, l)
  {
  }

  /** What holds of the length throughout. */
  ghost predicate Grown(c: Code, start: int, limit: int, length: int) {
    start <= length <= limit && Below(c, start, length) && (length == limit || Aligned(start, length))
  }

  lemma EdgeAligned(c: Code, i: nat)
    requires c.target % 4 == 0 && Edge(c, i).Some?
    ensures Edge(c, i).value % 4 == 0
  {
    var dest := BranchTarget(c.words[i], c.target + 4 * i).value;
    TargetAligned(c.words[i], c.target + 4 * i);
    assert dest - c.target == 4 * (dest / 4 - c.target / 4);
  }

  lemma PastEdge(c: Code, start: int, length: int, i: nat, dest: int, l: int)
    requires dest % 4 == 0 && Edge(c, i) == Some(dest)
    requires start <= length <= dest && 4 * i < length <= l
    requires Aligned(start, l) && Closed(c, l)
    ensures dest + 4 <= l
  {
    assert Inside(c, i, l);
  }

  /** A branch that leaves the extent moves the lower bound behind its target. */
  lemma BelowGrows(c: Code, start: int, length: int, i: nat, dest: int)
    requires dest % 4 == 0 && start <= length && Below(c, start, length)
    requires 4 * i < length && Edge(c, i) == Some(dest) && dest >= length
    ensures Below(c, start, dest + 4)
  {
    forall l: int | Aligned(start, l) && Closed(c, l) ensures dest + 4 <= l {
      PastEdge(c, start, length, i, dest, l);
    }
  }

  lemma GrowKeeps(c: Code, start: int, limit: int, length: int, i: nat, dest: int)
    requires c.target % 4 == 0 && Grown(c, start, limit, length) && length < limit
    requires 4 * i < length && Edge(c, i) == Some(dest) && dest >= length
    ensures Grown(c, start, limit, if dest + 4 < limit then dest + 4 else limit)
  {
    EdgeAligned(c, i);
    BelowGrows(c, start, length, i, dest);
    BelowLess(c, start, dest + 4, if dest + 4 < limit then dest + 4 else limit);
  }

  lemma BelowLess(c: Code, start: int, r: int, r': int)
    requires Below(c, start, r) && r' <= r
    ensures Below(c, start, r')
  {
  }

  /** One word of a pass, the body of the inner loop. */
  method LookAt(c: Code, i: nat, limit: int, length: int, ghost start: int) returns (length': int, grew: bool)
    requires c.target % 4 == 0 && i < |c.words|
    requires 4 * i < length && Grown(c, start, limit, length)
    ensures Grown(c, start, limit, length')
    ensures grew <==> !Inside(c, i, length)
    ensures length' == if grew && Edge(c, i).value + 4 < limit then Edge(c, i).value + 4 else if grew then limit else length
  {
    length', grew := length, false;
    var w := c.words[i];
    var dest := BranchTarget(w, c.target + 4 * i);
    if dest.None? || Op(w) == 3 {
      return;
    }
    if Op(w) == 2 && dest.value in c.entries {
      return;
    }
    if c.target < dest.value && dest.value - c.target >= length {
      if length < limit {
        GrowKeeps(c, start, limit, length, i, dest.value - c.target);
      }
      length' := if dest.value - c.target + 4 < limit then dest.value - c.target + 4 else limit;
      grew := true;
    }
  }

  /** The words before the `i`-th stay inside. */
  ghost predicate SeenTo(c: Code, i: nat, end: int) {
    forall j: nat :: j < i ==> Inside(c, j, end)
  }

  /** One pass. `range(0, length, 4)` is fixed when it begins; growth inside it is
      seen by the comparison, and by the next pass. */
  method Pass(c: Code, limit: int, end: int, ghost start: int) returns (length: int, grew: bool)
    requires c.target % 4 == 0 && Grown(c, start, limit, end) && end < limit
    ensures Grown(c, start, limit, length)
    ensures if grew then length > end else length == end && Closed(c, end)
  {
    length, grew := end, false;
    var i: nat := 0;
    while 4 * i < end && i < |c.words|
      invariant Grown(c, start, limit, length)
      invariant if grew then length > end else length == end && SeenTo(c, i, end)
      decreases |c.words| - i
    {
      var grown;
      length, grown := LookAt(c, i, limit, length, start);
      grew := grew || grown;
      i := i + 1;
    }
  }

  method Stretch(c: Code, start: int, limit: int) returns (length: int)
    requires c.target % 4 == 0
    ensures Answer(c, start, limit, length)
  {
    length := start;
    var grew := true;
    while grew && length < limit
      invariant if start >= limit then length == start else Grown(c, start, limit, length)
      invariant !grew ==> Closed(c, length)
      decreases limit - length, grew
    {
      length, grew := Pass(c, limit, length, start);
    }
  }

  // ----- every branch -----

  function ArchEdge(c: Code, i: nat): Option<int> {
    if i >= |c.words| then None else EdgeTo(c, i, ArchTarget(c.words[i], c.target + 4 * i))
  }

  predicate Stays(c: Code, i: nat, length: int) {
    ArchEdge(c, i).Some? ==> ArchEdge(c, i).value < length
  }

  /** No branch at all leaves the extent forwards. */
  ghost predicate ArchClosed(c: Code, length: int) {
    forall i: nat :: 4 * i < length ==> Stays(c, i, length)
  }

  ghost predicate ArchAnswer(c: Code, start: int, limit: int, r: int) {
    if start >= limit then r == start
    else
      start <= r <= limit && (forall l: int :: Aligned(start, l) && ArchClosed(c, l) ==> r <= l) &&
      (r == limit || (Aligned(start, r) && ArchClosed(c, r)))
  }

  /** The words the program misreads: branches it does not see, and a jump in the last
      word of a 256 MB region. */
  predicate Misread(c: Code, i: nat) {
    i < |c.words| && (Unseen(c.words[i]) || (Op(c.words[i]) == 2 && AtEdge(c.words[i], c.target + 4 * i)))
  }

  /** A misread word asks for nothing: a jump at the edge seems to go backwards. */
  lemma EdgesExactly(c: Code, i: nat)
    requires c.target % 4 == 0
    ensures if Misread(c, i) then Edge(c, i).None? || Edge(c, i).value <= 4 * i else Edge(c, i) == ArchEdge(c, i)
  {
    if i < |c.words| {
      TargetsExactly(c.words[i], c.target + 4 * i);
      if Misread(c, i) && !Unseen(c.words[i]) {
        EdgeGoesBack(c.words[i], c.target + 4 * i);
      }
    }
  }

  lemma EdgeGoesBack(w: Word, vram: nat)
    requires AtEdge(w, vram)
    ensures BranchTarget(w, vram).Some? && BranchTarget(w, vram).value <= vram
  {
    var q := vram / 0x10000000;
    assert vram == q * 0x10000000 + 0xFFFFFFC;
    assert q % 16 <= q && w % 0x4000000 * 4 <= 0xFFFFFFC;
  }

  /** Closed under all branches is closed under those seen, with those misread inside. */
  lemma ClosedExactly(c: Code, length: int)
    requires c.target % 4 == 0
    ensures ArchClosed(c, length) <==>
              Closed(c, length) && forall i: nat :: 4 * i < length && Misread(c, i) ==> Stays(c, i, length)
  {
    if Closed(c, length) && forall i: nat :: 4 * i < length && Misread(c, i) ==> Stays(c, i, length) {
      forall i: nat | 4 * i < length ensures Stays(c, i, length) {
        EdgesExactly(c, i);
        assert Inside(c, i, length);
      }
    }
    if ArchClosed(c, length) {
      forall i: nat | 4 * i < length ensures Inside(c, i, length) {
        EdgesExactly(c, i);
        assert Stays(c, i, length);
      }
    }
  }

  /** The program's answer is the least extent no branch of any kind leaves, or the
      limit, exactly when no misread one leaves it. */
  lemma StretchRightExactly(c: Code, start: int, limit: int, r: int)
    requires c.target % 4 == 0 && Answer(c, start, limit, r)
    ensures ArchAnswer(c, start, limit, r) <==>
              (start >= limit || r == limit || forall i: nat :: 4 * i < r && Misread(c, i) ==> Stays(c, i, r))
  {
    ClosedExactly(c, r);
    forall l: int | start < limit && Aligned(start, l) && ArchClosed(c, l) ensures r <= l {
      ClosedExactly(c, l);
    }
  }

  /** In particular when none stands below the limit. */
  lemma StretchRight(c: Code, start: int, limit: int, r: int)
    requires c.target % 4 == 0 && Answer(c, start, limit, r) && forall i: nat :: 4 * i < limit ==> !Misread(c, i)
    ensures ArchAnswer(c, start, limit, r)
  {
    StretchRightExactly(c, start, limit, r);
  }

  /** `bgezl $0,+0x44; nop`: two words to the program, and the branch leaves them. */
  const LIKELY: Code := Code([0x0403_0010, 0], 0x8000_0000, {})

  lemma LikelyLeaves()
    ensures Misread(LIKELY, 0) && ArchEdge(LIKELY, 0) == Some(0x44)
    ensures Answer(LIKELY, 8, 0x100, 8) && !ArchAnswer(LIKELY, 8, 0x100, 8)
  {
    assert Unseen(LIKELY.words[0]);
    TargetsExactly(LIKELY.words[0], 0x8000_0000);
    assert BranchTarget(LIKELY.words[1], 0x8000_0004).None?;
    assert Closed(LIKELY, 8);
    assert !Stays(LIKELY, 0, 8);
    StretchRightExactly(LIKELY, 8, 0x100, 8);
  }

  // ----- the first guess -----

  const JR_RA: Word := 0x03E00008

  /** Offset of the last return before `end`, a multiple of four. */
  ghost predicate LastReturn(c: Code, end: nat, k: nat) {
    k < end && k % 4 == 0 && k / 4 < |c.words| && c.words[k / 4] == JR_RA &&
    forall j :: k / 4 < j < |c.words| && 4 * j < end ==> c.words[j] != JR_RA
  }

  ghost predicate NoReturn(c: Code, end: nat) {
    forall j :: 0 <= j < |c.words| && 4 * j < end ==> c.words[j] != JR_RA
  }

  /** Where data was found at `end`, the guess ends behind the last return. */
  method Trim(c: Code, end: nat) returns (length: nat)
    requires end <= 4 * |c.words|
    ensures NoReturn(c, end) ==> length == end
    ensures !NoReturn(c, end) ==> length >= 8 && LastReturn(c, end, length - 8)
  {
    var last: Option<nat> := None;
    var k: nat := 0;
    while k < end
      invariant k % 4 == 0
      invariant last.None? ==> NoReturn(c, k)
      invariant last.Some? ==> last.value < end && LastReturn(c, k, last.value)
    {
      if c.words[k / 4] == JR_RA {
        last := Some(k);
      }
      k := k + 4;
    }
    length := if last.Some? then last.value + 8 else end;
  }

  /** The trimmed guess reaches past the data exactly when the last return is the
      word directly before it, so that its delay slot is the data. */
  lemma TrimPastData(c: Code, end: nat, length: nat)
    requires end % 4 == 0 && 0 < end <= 4 * |c.words|
    requires NoReturn(c, end) ==> length == end
    requires !NoReturn(c, end) ==> length >= 8 && LastReturn(c, end, length - 8)
    ensures length > end <==> c.words[end / 4 - 1] == JR_RA
  {
    var j := end / 4 - 1;
    assert 4 * j < end;
    if !NoReturn(c, end) {
      var last := (length - 8) / 4;
      assert c.words[j] == JR_RA ==> last >= j;
    }
  }

  /** A return with data directly behind it: `jr $ra; .word 0`. */
  lemma TrimExample(length: nat)
    requires var c := Code([JR_RA, 0], 0x8000_0000, {});
             (NoReturn(c, 4) ==> length == 4) && (!NoReturn(c, 4) ==> length >= 8 && LastReturn(c, 4, length - 8))
    ensures length == 8
  {
    var c := Code([JR_RA, 0], 0x8000_0000, {});
    assert c.words[0] == JR_RA;
    TrimPastData(c, 4, length);
  }
}
