/** tools/lnk_decoder.py: the reader, the record loop and the scan for records. */
module LnkDecoder {
  import opened Prelude
  import opened LnkFormat

  // ----- opcodes -----

  const MAGIC: seq<Byte> := [0x4C, 0x4E, 0x4B, 0x02]     // "LNK\x02"

  const U8: Kind := Num(1)
  const U16: Kind := Num(2)
  const U32: Kind := Num(4)

  const FUNCTION_FIELDS: seq<Kind> := [U16, U32, U16, U32, U16, U32, U16, U32, U32]

  /** What each opcode reads, in order; none for an opcode the decoder does not
      know (END, opcode 0, is not read by fields). */
  function Schema(op: Byte): Option<seq<Kind>> {
    if op == 2 then Some([Blob])                              // BYTES
    else if op == 6 then Some([U16])                          // SWITCH
    else if op == 8 then Some([U32])                          // ZEROES
    else if op == 10 then Some([U8, U16, Tree])               // RELOCATION
    else if op == 12 then Some([U16, U16, U32, Str])          // EXPORTED_SYMBOL
    else if op == 14 then Some([U16, Str])                    // IMPORTED_SYMBOL
    else if op == 16 then Some([U16, U16, U8, Str])           // SECTION
    else if op == 18 then Some([U16, U32, Str])               // LOCAL_SYMBOL
    else if op == 28 then Some([U16, Str])                    // FILENAME
    else if op == 46 then Some([U8])                          // PROGRAMTYPE
    else if op == 48 then Some([U16, U16, U32, Str])          // UNINITIALIZED
    else if op == 50 then Some([U16])                         // INC_SLD_LINENUM
    else if op == 52 then Some([U16, U8])                     // INC_SLD_LINENUM_BY_BYTE
    else if op == 54 then Some([U16, U16])                    // INC_SLD_LINENUM_BY_WORD
    else if op == 56 then Some([U16, U32])                    // SET_SLD_LINENUM
    else if op == 58 then Some([U16, U32, U16])               // SET_SLD_LINENUM_FILE
    else if op == 60 then Some([U16])                         // END_SLD
    else if op == 74 then Some(FUNCTION_FIELDS + [Str])       // FUNCTION
    else if op == 76 then Some([U16, U32, U32])               // FUNCTION_END
    else if op == 78 then Some([U16, U32, U32])               // BLOCK_START
    else if op == 80 then Some([U16, U32, U32])               // BLOCK_END
    else if op == 82 then Some([U16, U32, U16, U16, U32, Str])              // SECTION_DEF
    else if op == 84 then Some([U16, U32, U16, U16, U32, Dims, Str, Str])   // SECTION_DEF2
    else if op == 86 then Some(FUNCTION_FIELDS + [U32, U32, Str])           // FUNCTION_START2
    else None
  }

  predicate AllFit(kinds: seq<Kind>, vals: seq<Val>) {
    |kinds| == |vals| && forall i :: 0 <= i < |kinds| ==> Fits(kinds[i], vals[i])
  }

  function TakeFields(kinds: seq<Kind>, buf: seq<Byte>, pos: nat): (r: Option<(seq<Val>, nat)>)
    decreases |kinds|
  {
    if kinds == [] then Some(([], pos))
    else
      var v := TakeField(kinds[0], buf, pos);
      if v.None? then None
      else
        var rest := TakeFields(kinds[1..], buf, v.value.1);
        if rest.None? then None else Some(([v.value.0] + rest.value.0, rest.value.1))
  }

  function PutFields(kinds: seq<Kind>, vals: seq<Val>): seq<Byte>
    requires AllFit(kinds, vals)
    decreases |kinds|
  {
    if kinds == [] then [] else PutField(kinds[0], vals[0]) + PutFields(kinds[1..], vals[1..])
  }

  /** One record of the bytecode, other than END. */
  datatype Op = Op(code: Byte, vals: seq<Val>)

  predicate OpOk(op: Op) {
    op.code != 0 && Schema(op.code).Some? && AllFit(Schema(op.code).value, op.vals)
  }

  /** A well-formed record. */
  type Command = op: Op | OpOk(op) witness Op(6, [N(0)])

  function PutOp(op: Command): seq<Byte>
  {
    [op.code] + PutFields(Schema(op.code).value, op.vals)
  }

  function PutOps(ops: seq<Command>): seq<Byte>
  {
    if ops == [] then [] else PutOp(ops[0]) + PutOps(ops[1..])
  }

  function TakeOp(buf: seq<Byte>, pos: nat): Option<(Op, nat)> {
    if pos >= |buf| || buf[pos] == 0 || Schema(buf[pos]).None? then None
    else
      var v := TakeFields(Schema(buf[pos]).value, buf, pos + 1);
      if v.None? then None else Some((Op(buf[pos], v.value.0), v.value.1))
  }

  lemma {:induction false} FieldsRoundTrip(buf: seq<Byte>, pos: nat, kinds: seq<Kind>, vals: seq<Val>)
    requires AllFit(kinds, vals) && At(buf, pos, PutFields(kinds, vals))
    ensures Gives(TakeFields(kinds, buf, pos), vals, pos + |PutFields(kinds, vals)|)
    decreases |kinds|
  {
    if kinds != [] {
      AtSplit(buf, pos, PutField(kinds[0], vals[0]), PutFields(kinds[1..], vals[1..]));
      var mid := pos + |PutField(kinds[0], vals[0])|;
      FieldRoundTrip(buf, pos, kinds[0], vals[0]);
      FieldsRoundTrip(buf, mid, kinds[1..], vals[1..]);
      FieldsCons(buf, pos, kinds, vals, mid, mid + |PutFields(kinds[1..], vals[1..])|);
    }
  }

  lemma FieldsCons(buf: seq<Byte>, pos: nat, kinds: seq<Kind>, vals: seq<Val>, mid: nat, end: nat)
    requires kinds != [] && vals != [] && Gives(TakeField(kinds[0], buf, pos), vals[0], mid)
    requires Gives(TakeFields(kinds[1..], buf, mid), vals[1..], end)
    ensures Gives(TakeFields(kinds, buf, pos), vals, end)
  {
    assert vals == [vals[0]] + vals[1..];
  }

  lemma {:induction false} OpRoundTrip(buf: seq<Byte>, pos: nat, op: Command)
    requires At(buf, pos, PutOp(op))
    ensures Gives(TakeOp(buf, pos), op, pos + |PutOp(op)|)
  {
    AtSplit(buf, pos, [op.code], PutFields(Schema(op.code).value, op.vals));
    AtByte(buf, pos, op.code);
    FieldsRoundTrip(buf, pos + 1, Schema(op.code).value, op.vals);
  }

  lemma {:induction false} FieldsParsed(kinds: seq<Kind>, buf: seq<Byte>, pos: nat)
    requires pos <= |buf| && TakeFields(kinds, buf, pos).Some?
    ensures var (vals, end) := TakeFields(kinds, buf, pos).value;
            AllFit(kinds, vals) && At(buf, pos, PutFields(kinds, vals)) && end == pos + |PutFields(kinds, vals)|
    decreases |kinds|
  {
    if kinds != [] {
      FieldParsed(kinds[0], buf, pos);
      var (v, mid) := TakeField(kinds[0], buf, pos).value;
      FieldsParsed(kinds[1..], buf, mid);
      var vals := TakeFields(kinds, buf, pos).value.0;
      assert vals[1..] == TakeFields(kinds[1..], buf, mid).value.0;
      AtJoin(buf, pos, PutField(kinds[0], v), PutFields(kinds[1..], vals[1..]));
    }
  }

  /** A decoded record is well formed and encodes to the bytes it came from. */
  lemma OpParsed(buf: seq<Byte>, pos: nat)
    requires TakeOp(buf, pos).Some?
    ensures var (op, end) := TakeOp(buf, pos).value;
            OpOk(op) && At(buf, pos, PutOp(op)) && end == pos + |PutOp(op)| && pos < end <= |buf|
  {
    FieldsParsed(Schema(buf[pos]).value, buf, pos + 1);
    var op := TakeOp(buf, pos).value.0;
    AtJoin(buf, pos, [op.code], PutFields(Schema(op.code).value, op.vals));
  }

  // ----- the decoded record -----

  datatype Section = Section(index: nat, group: nat, alignment: nat, name: seq<Byte>)

  datatype Symbol =
    | Export(index: nat, section: nat, offset: nat, name: seq<Byte>)
    | Import(index: nat, name: seq<Byte>)
    | Local(section: nat, offset: nat, name: seq<Byte>)
    | Uninit(index: nat, section: nat, size: nat, name: seq<Byte>)

  datatype Function = Function(section: nat, offset: nat, file: nat, startLine: nat, endLine: Option<nat>,
                               frameReg: nat, frameSize: nat, name: seq<Byte>)

  datatype LineEntry = LineEntry(offset: nat, line: nat, file: Option<nat>)

  datatype Record = Record(
    sections: seq<Section>, files: map<nat, seq<Byte>>, symbols: seq<Symbol>, functions: seq<Function>,
    lines: seq<LineEntry>, programType: Option<nat>, histogram: map<Byte, nat>, current: seq<Byte>,
    endOffset: Option<nat>, truncatedAt: Option<nat>)

  const EMPTY: Record := Record([], map[], [], [], [], None, map[], [], None, None)

  function Bump(h: map<Byte, nat>, code: Byte): map<Byte, nat> {
    h[code := if code in h then h[code] + 1 else 1]
  }


  function Name(v: Val): seq<Byte> { if v.Bytes? then v.b else [] }

  /** What a well-formed record of the bytecode does to the decoded record. */
  function Apply(op: Command, rec: Record): Record
  {
    var v, r := op.vals, rec.(histogram := Bump(rec.histogram, op.code));
    if op.code == 12 then r.(symbols := r.symbols + [Export(v[0].n, v[1].n, v[2].n, v[3].b)])
    else if op.code == 14 then r.(symbols := r.symbols + [Import(v[0].n, v[1].b)])
    else if op.code == 16 then r.(sections := r.sections + [Section(v[0].n, v[1].n, v[2].n, v[3].b)])
    else if op.code == 18 then r.(symbols := r.symbols + [Local(v[0].n, v[1].n, v[2].b)])
    else if op.code == 28 then r.(files := r.files[v[0].n := v[1].b])
    else if op.code == 46 then r.(programType := Some(v[0].n))
    else if op.code == 48 then r.(symbols := r.symbols + [Uninit(v[0].n, v[1].n, v[2].n, v[3].b)])
    else if op.code == 56 then r.(lines := r.lines + [LineEntry(v[0].n, v[1].n, None)])
    else if op.code == 58 then r.(lines := r.lines + [LineEntry(v[0].n, v[1].n, Some(v[2].n))])
    else if op.code == 74 || op.code == 86 then
      var name := v[|v| - 1].b;
      r.(current := name,
         functions := r.functions + [Function(v[0].n, v[1].n, v[2].n, v[3].n, None, v[4].n, v[5].n, name)])
    else if op.code == 76 && r.functions != [] && r.functions[|r.functions| - 1].name == r.current then
      var k := |r.functions| - 1;
      r.(functions := r.functions[k := r.functions[k].(endLine := Some(v[2].n))])
    else r
  }

  function ApplyAll(ops: seq<Command>, rec: Record): Record
    decreases |ops|
  {
    if ops == [] then rec else ApplyAll(ops[1..], Apply(ops[0], rec))
  }

  /** The record loop, from an opcode boundary. */
  function Decode(buf: seq<Byte>, pos: nat, rec: Record): Record
    decreases |buf| - pos
  {
    if pos >= |buf| then rec
    else if buf[pos] == 0 then rec.(histogram := Bump(rec.histogram, 0), endOffset := Some(pos + 1))
    else
      var t := TakeOp(buf, pos);
      if t.None? then rec.(truncatedAt := Some(pos))
      else
        OpParsed(buf, pos);
        Decode(buf, t.value.1, Apply(t.value.0, rec))
  }

  /** `parse_record`; none where the magic is missing. */
  function ParseRecord(buf: seq<Byte>, start: nat): Option<Record> {
    if At(buf, start, MAGIC) then Some(Decode(buf, start + 4, EMPTY)) else None
  }

  // ----- reading records in a row -----

  /** From `pos` on the decoder reads `ops` and then stands at `at`. */
  predicate Reads(buf: seq<Byte>, pos: nat, ops: seq<Command>, at: nat)
    decreases |ops|
  {
    if ops == [] then at == pos
    else
      var t := TakeOp(buf, pos);
      t.Some? && t.value.0 == ops[0] && Reads(buf, t.value.1, ops[1..], at)
  }

  lemma {:induction false} ReadsEncoded(buf: seq<Byte>, pos: nat, ops: seq<Command>, at: nat)
    requires At(buf, pos, PutOps(ops)) && at == pos + |PutOps(ops)|
    ensures Reads(buf, pos, ops, at)
    decreases |ops|
  {
    if ops != [] {
      var mid := FirstRead(buf, pos, ops);
      ReadsEncoded(buf, mid, ops[1..], at);
      assert TakeOp(buf, pos).value.1 == mid;
    }
  }

  lemma FirstRead(buf: seq<Byte>, pos: nat, ops: seq<Command>) returns (mid: nat)
    requires ops != [] && At(buf, pos, PutOps(ops))
    ensures Gives(TakeOp(buf, pos), ops[0], mid)
    ensures At(buf, mid, PutOps(ops[1..])) && mid + |PutOps(ops[1..])| == pos + |PutOps(ops)|
  {
    mid := pos + |PutOp(ops[0])|;
    AtSplit(buf, pos, PutOp(ops[0]), PutOps(ops[1..]));
    OpRoundTrip(buf, pos, ops[0]);
  }

  lemma {:induction false} EncodedAsRead(buf: seq<Byte>, pos: nat, ops: seq<Command>, at: nat)
    requires pos <= |buf| && Reads(buf, pos, ops, at)
    ensures At(buf, pos, PutOps(ops)) && at == pos + |PutOps(ops)|
    decreases |ops|
  {
    if ops != [] {
      var mid := TakeOp(buf, pos).value.1;
      var x, y := PutOp(ops[0]), PutOps(ops[1..]);
      OpParsed(buf, pos);
      assert At(buf, pos, x) && mid == pos + |x|;
      EncodedAsRead(buf, mid, ops[1..], at);
      AtJoin(buf, pos, x, y);
      assert PutOps(ops) == x + y;
    }
  }

  lemma DecodeOne(buf: seq<Byte>, pos: nat, rec: Record)
    requires TakeOp(buf, pos).Some?
    ensures var (op, mid) := TakeOp(buf, pos).value;
            OpOk(op) && pos < mid <= |buf| && Decode(buf, pos, rec) == Decode(buf, mid, Apply(op, rec))
  {
    OpParsed(buf, pos);
  }

  lemma {:induction false} DecodeReads(buf: seq<Byte>, pos: nat, ops: seq<Command>, at: nat, rec: Record)
    requires Reads(buf, pos, ops, at)
    ensures Decode(buf, pos, rec) == Decode(buf, at, ApplyAll(ops, rec))
    decreases |ops|
  {
    if ops != [] {
      DecodeOne(buf, pos, rec);
      DecodeReads(buf, TakeOp(buf, pos).value.1, ops[1..], at, Apply(ops[0], rec));
    }
  }

  // ----- decoding what was encoded -----

  function Ended(rec: Record, at: nat): Record {
    rec.(histogram := Bump(rec.histogram, 0), endOffset := Some(at))
  }

  /** The record's encoding stands at `start`, its END at `at`. */
  predicate EncodedAt(buf: seq<Byte>, start: nat, ops: seq<Command>, at: nat)
  {
    At(buf, start, MAGIC) && At(buf, start + 4, PutOps(ops)) && at == start + 4 + |PutOps(ops)| && At(buf, at, [0])
  }

  /** The bytes of a record, written out in a row. */
  lemma {:induction false} EncodedWhole(buf: seq<Byte>, start: nat, ops: seq<Command>, bytes: seq<Byte>)
    requires bytes == PutOps(ops) && At(buf, start, MAGIC + (bytes + [0]))
    ensures EncodedAt(buf, start, ops, start + 4 + |bytes|)
  {
    AtSplit(buf, start, MAGIC, bytes + [0]);
    AtSplit(buf, start + 4, bytes, [0]);
  }

  /** Round trip: a record encoded anywhere in a file, END included, decodes to its
      contents, with nothing truncated and the end offset just behind END. */
  lemma {:induction false} RecordRoundTrip(buf: seq<Byte>, start: nat, ops: seq<Command>, at: nat)
    requires EncodedAt(buf, start, ops, at)
    ensures ParseRecord(buf, start) == Some(Ended(ApplyAll(ops, EMPTY), at + 1))
  {
    ReadsEncoded(buf, start + 4, ops, at);
    DecodeUpToEnd(buf, start + 4, ops, at);
  }

  lemma {:induction false} DecodeUpToEnd(buf: seq<Byte>, pos: nat, ops: seq<Command>, at: nat)
    requires Reads(buf, pos, ops, at) && At(buf, at, [0])
    ensures Decode(buf, pos, EMPTY) == Ended(ApplyAll(ops, EMPTY), at + 1)
  {
    DecodeReads(buf, pos, ops, at, EMPTY);
    AtByte(buf, at, 0);
  }

  // ----- decoding anything -----

  /** Every run of the decoder: it reads some records and then meets END, stops at
      something it cannot read, or has used up the bytes. */
  lemma {:induction false} ReadsUpTo(buf: seq<Byte>, pos: nat) returns (ops: seq<Command>, at: nat)
    requires pos <= |buf|
    ensures pos <= at <= |buf| && Reads(buf, pos, ops, at) && TakeOp(buf, at).None?
    decreases |buf| - pos
  {
    ops, at := [], pos;
    if TakeOp(buf, pos).Some? {
      OpParsed(buf, pos);
      var (op, mid) := TakeOp(buf, pos).value;
      var rest;
      rest, at := ReadsUpTo(buf, mid);
      ops := [op] + rest;
      assert ops[1..] == rest;
    }
  }

  /** The outcome at the place where reading stopped. */
  function Outcome(buf: seq<Byte>, at: nat, rec: Record): Record
    requires at <= |buf|
  {
    if at == |buf| then rec
    else if buf[at] == 0 then Ended(rec, at + 1)
    else rec.(truncatedAt := Some(at))
  }

  /** On arbitrary bytes the decoder stays inside the buffer, and its result is the
      effect of records that encode to exactly the bytes up to where it stopped:
      at END, at a reported opcode boundary, or at the end of the buffer. */
  lemma {:induction false} RecordExplained(buf: seq<Byte>, start: nat) returns (ops: seq<Command>, at: nat)
    requires ParseRecord(buf, start).Some?
    ensures At(buf, start, MAGIC + PutOps(ops)) && at == start + 4 + |PutOps(ops)| <= |buf|
    ensures TakeOp(buf, at).None?
    ensures ParseRecord(buf, start) == Some(Outcome(buf, at, ApplyAll(ops, EMPTY)))
  {
    ops, at := ReadsUpTo(buf, start + 4);
    EncodedAsRead(buf, start + 4, ops, at);
    AtJoin(buf, start, MAGIC, PutOps(ops));
    DecodeReads(buf, start + 4, ops, at, EMPTY);
  }

  // ----- what the round trip gives back -----

  function Opt<T>(o: Option<T>): seq<T> { if o.Some? then [o.value] else [] }

  function SectionOf(op: Command): Option<Section>
  {
    var v := op.vals;
    if op.code == 16 then Some(Section(v[0].n, v[1].n, v[2].n, v[3].b)) else None
  }

  function SectionsOf(ops: seq<Command>): seq<Section>
  {
    if ops == [] then [] else Opt(SectionOf(ops[0])) + SectionsOf(ops[1..])
  }

  function SymbolOf(op: Command): Option<Symbol>
  {
    var v := op.vals;
    if op.code == 12 then Some(Export(v[0].n, v[1].n, v[2].n, v[3].b))
    else if op.code == 14 then Some(Import(v[0].n, v[1].b))
    else if op.code == 18 then Some(Local(v[0].n, v[1].n, v[2].b))
    else if op.code == 48 then Some(Uninit(v[0].n, v[1].n, v[2].n, v[3].b))
    else None
  }

  function SymbolsOf(ops: seq<Command>): seq<Symbol>
  {
    if ops == [] then [] else Opt(SymbolOf(ops[0])) + SymbolsOf(ops[1..])
  }

  /** File names by their index, a later one in place of an earlier. */
  function FileIn(op: Command, files: map<nat, seq<Byte>>): map<nat, seq<Byte>>
  {
    if op.code == 28 then files[op.vals[0].n := op.vals[1].b] else files
  }

  function FilesOf(ops: seq<Command>, files: map<nat, seq<Byte>>): map<nat, seq<Byte>>
  {
    if ops == [] then files else FilesOf(ops[1..], FileIn(ops[0], files))
  }

  predicate Opens(op: Op) { op.code == 74 || op.code == 86 }

  function EndIn(op: Command, line: Option<nat>): Option<nat>
  {
    if op.code == 76 then Some(op.vals[2].n) else line
  }

  /** The line of the last FUNCTION_END before the next function opens. */
  function EndLineOf(ops: seq<Command>, line: Option<nat>): Option<nat>
  {
    if ops == [] || Opens(ops[0]) then line else EndLineOf(ops[1..], EndIn(ops[0], line))
  }

  function FunctionOf(op: Command, end: Option<nat>): Function
    requires Opens(op)
  {
    var v := op.vals;
    Function(v[0].n, v[1].n, v[2].n, v[3].n, end, v[4].n, v[5].n, v[|v| - 1].b)
  }

  function FunctionsOf(ops: seq<Command>): seq<Function>
  {
    if ops == [] then []
    else if Opens(ops[0]) then [FunctionOf(ops[0], EndLineOf(ops[1..], None))] + FunctionsOf(ops[1..])
    else FunctionsOf(ops[1..])
  }

  lemma ApplyLists(op: Command, rec: Record)
    ensures Apply(op, rec).sections == rec.sections + Opt(SectionOf(op))
    ensures Apply(op, rec).symbols == rec.symbols + Opt(SymbolOf(op))
    ensures Apply(op, rec).files == FileIn(op, rec.files)
    ensures Apply(op, rec).truncatedAt == rec.truncatedAt
  {
  }

  lemma Assoc<T>(a: seq<T>, b: seq<T>, c: seq<T>)
    ensures (a + b) + c == a + (b + c)
  {
  }

  lemma {:induction false} ListsBack(ops: seq<Command>, rec: Record)
    ensures ApplyAll(ops, rec).sections == rec.sections + SectionsOf(ops)
    ensures ApplyAll(ops, rec).symbols == rec.symbols + SymbolsOf(ops)
    ensures ApplyAll(ops, rec).files == FilesOf(ops, rec.files)
    ensures ApplyAll(ops, rec).truncatedAt == rec.truncatedAt
    decreases |ops|
  {
    if ops != [] {
      ApplyLists(ops[0], rec);
      ListsBack(ops[1..], Apply(ops[0], rec));
      Assoc(rec.sections, Opt(SectionOf(ops[0])), SectionsOf(ops[1..]));
      Assoc(rec.symbols, Opt(SymbolOf(ops[0])), SymbolsOf(ops[1..]));
    }
  }

  /** The name FUNCTION_END compares with is always the last function's. */
  predicate Current(rec: Record) {
    rec.functions != [] ==> rec.functions[|rec.functions| - 1].name == rec.current
  }

  function LastEnding(fs: seq<Function>, end: Option<nat>): seq<Function> {
    if fs == [] then [] else fs[|fs| - 1 := fs[|fs| - 1].(endLine := end)]
  }

  function LastEnd(fs: seq<Function>): Option<nat> {
    if fs == [] then None else fs[|fs| - 1].endLine
  }

  /** The functions so far, the last one with the end line it will get from `ops`. */
  function Closed(fs: seq<Function>, ops: seq<Command>): seq<Function>
  {
    LastEnding(fs, EndLineOf(ops, LastEnd(fs)))
  }

  lemma ApplyOpens(op: Command, rec: Record)
    requires Opens(op)
    ensures Current(Apply(op, rec)) && Apply(op, rec).functions == rec.functions + [FunctionOf(op, None)]
  {
  }

  lemma ApplyOther(op: Command, rec: Record)
    requires !Opens(op) && Current(rec)
    ensures Current(Apply(op, rec))
    ensures Apply(op, rec).functions == LastEnding(rec.functions, EndIn(op, LastEnd(rec.functions)))
  {
  }

  lemma EndingLast(fs: seq<Function>, f: Function, end: Option<nat>)
    ensures LastEnding(fs + [f], end) == fs + [f.(endLine := end)]
    ensures LastEnding(fs, LastEnd(fs)) == fs && LastEnd(fs + [f]) == f.endLine
  {
  }

  lemma EndingTwice(fs: seq<Function>, a: Option<nat>, b: Option<nat>)
    ensures LastEnding(LastEnding(fs, a), b) == LastEnding(fs, b)
    ensures fs != [] ==> LastEnd(LastEnding(fs, a)) == a
  {
  }

  lemma {:induction false} FunctionsBack(ops: seq<Command>, rec: Record)
    requires Current(rec)
    ensures ApplyAll(ops, rec).functions == Closed(rec.functions, ops) + FunctionsOf(ops)
    decreases |ops|
  {
    var fs := rec.functions;
    if ops == [] {
      EndingLast(fs, Function(0, 0, 0, 0, None, 0, 0, []), None);
    } else if Opens(ops[0]) {
      var f, end := FunctionOf(ops[0], None), EndLineOf(ops[1..], None);
      ApplyOpens(ops[0], rec);
      FunctionsBack(ops[1..], Apply(ops[0], rec));
      EndingLast(fs, f, end);
      assert f.(endLine := end) == FunctionOf(ops[0], end);
      Assoc(fs, [FunctionOf(ops[0], EndLineOf(ops[1..], None))], FunctionsOf(ops[1..]));
    } else {
      var end := EndIn(ops[0], LastEnd(fs));
      ApplyOther(ops[0], rec);
      FunctionsBack(ops[1..], Apply(ops[0], rec));
      EndingTwice(fs, end, EndLineOf(ops[1..], end));
    }
  }

  /** Sections, files, symbols and functions of an encoded record come back in
      order, each function with the end line of the last FUNCTION_END before the
      next one. */
  lemma {:induction false} ContentsBack(buf: seq<Byte>, start: nat, ops: seq<Command>, at: nat)
    requires EncodedAt(buf, start, ops, at)
    ensures ParseRecord(buf, start).Some?
    ensures var rec := ParseRecord(buf, start).value;
            rec.sections == SectionsOf(ops) && rec.symbols == SymbolsOf(ops) && rec.files == FilesOf(ops, map[]) &&
            rec.functions == FunctionsOf(ops) &&
            rec.truncatedAt == None && rec.endOffset == Some(at + 1)
  {
    RecordRoundTrip(buf, start, ops, at);
    ContentsOf(ops);
  }

  lemma ContentsOf(ops: seq<Command>)
    ensures var rec := ApplyAll(ops, EMPTY);
            rec.sections == SectionsOf(ops) && rec.symbols == SymbolsOf(ops) && rec.files == FilesOf(ops, map[]) &&
            rec.functions == FunctionsOf(ops) && rec.truncatedAt == None
  {
    ListsBack(ops, EMPTY);
    FunctionsBack(ops, EMPTY);
    assert [] + SectionsOf(ops) == SectionsOf(ops) && [] + SymbolsOf(ops) == SymbolsOf(ops);
    assert [] + FunctionsOf(ops) == FunctionsOf(ops);
  }
}
