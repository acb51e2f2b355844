/** The LNK bytecode that tools/lnk_decoder.py reads: what each opcode carries, a
    parser on positions, and the encoder it inverts. Integers are little-endian;
    strings have a length byte; expressions are in prefix form. */
module LnkFormat {
  import opened Prelude

  // ----- numbers -----

  function Put(size: nat, v: nat): (r: seq<Byte>)
    ensures |r| == size
    decreases size
  {
    if size == 0 then [] else [v % 0x100] + Put(size - 1, v / 0x100)
  }

  function Value(b: seq<Byte>): nat {
    if b == [] then 0 else b[0] + 0x100 * Value(b[1..])
  }

  function Limit(size: nat): nat { if size == 0 then 1 else 0x100 * Limit(size - 1) }

  lemma {:induction false} PutValue(size: nat, v: nat)
    requires v < Limit(size)
    ensures Value(Put(size, v)) == v
    decreases size
  {
    if size > 0 {
      assert Put(size, v)[1..] == Put(size - 1, v / 0x100);
      PutValue(size - 1, v / 0x100);
    }
  }

  lemma {:induction false} ValuePut(b: seq<Byte>)
    ensures Value(b) < Limit(|b|) && Put(|b|, Value(b)) == b
    decreases |b|
  {
    if b != [] {
      ValuePut(b[1..]);
      assert b == [b[0]] + b[1..];
    }
  }

  /** A read of `size` bytes at `pos`, or the end of the file. */
  function Take(buf: seq<Byte>, pos: nat, size: nat): Option<(seq<Byte>, nat)> {
    if pos + size <= |buf| then Some((buf[pos..pos + size], pos + size)) else None
  }

  function TakeNum(buf: seq<Byte>, pos: nat, size: nat): Option<(nat, nat)> {
    var t := Take(buf, pos, size);
    if t.None? then None else Some((Value(t.value.0), t.value.1))
  }

  /** A read gave `v` and stopped at `end`. */
  predicate Gives<T(==)>(r: Option<(T, nat)>, v: T, end: int) {
    r.Some? && r.value.0 == v && r.value.1 == end
  }

  /** The bytes `x` stand at `pos`. */
  predicate At(buf: seq<Byte>, pos: nat, x: seq<Byte>) {
    pos + |x| <= |buf| && buf[pos..pos + |x|] == x
  }

  lemma AtSplit(buf: seq<Byte>, pos: nat, x: seq<Byte>, y: seq<Byte>)
    requires At(buf, pos, x + y)
    ensures At(buf, pos, x) && At(buf, pos + |x|, y)
  {
    var z := buf[pos..pos + |x + y|];
    assert z[..|x|] == x && z[|x|..] == y;
  }

  lemma AtByte(buf: seq<Byte>, pos: nat, b: Byte)
    requires At(buf, pos, [b])
    ensures pos < |buf| && buf[pos] == b
  {
    assert buf[pos..pos + 1][0] == b;
  }

  lemma AtSplit3(buf: seq<Byte>, pos: nat, b: Byte, x: seq<Byte>, y: seq<Byte>)
    requires At(buf, pos, [b] + x + y)
    ensures pos < |buf| && buf[pos] == b && At(buf, pos + 1, x) && At(buf, pos + 1 + |x|, y)
    ensures |[b] + x + y| == 1 + |x| + |y|
  {
    AtSplit(buf, pos, [b] + x, y);
    AtSplit(buf, pos, [b], x);
    AtByte(buf, pos, b);
  }

  lemma AtJoin(buf: seq<Byte>, pos: nat, x: seq<Byte>, y: seq<Byte>)
    requires At(buf, pos, x) && At(buf, pos + |x|, y)
    ensures At(buf, pos, x + y)
  {
  }

  lemma TakeNumAt(buf: seq<Byte>, pos: nat, size: nat, v: nat)
    requires v < Limit(size) && At(buf, pos, Put(size, v))
    ensures Gives(TakeNum(buf, pos, size), v, pos + size)
  {
    PutValue(size, v);
  }

  lemma TookNum(buf: seq<Byte>, pos: nat, size: nat)
    requires TakeNum(buf, pos, size).Some?
    ensures var (v, end) := TakeNum(buf, pos, size).value;
            end == pos + size <= |buf| && v < Limit(size) && At(buf, pos, Put(size, v))
  {
    ValuePut(buf[pos..pos + size]);
  }

  // ----- expressions -----

  datatype Leaf = Number | SymbolRef | SectionBase | SectionStart | SectionEnd
  datatype Join = Sum | Difference | Quotient

  /** The operands are stored right one first. */
  datatype Expr = Atom(leaf: Leaf, n: nat) | Node(join: Join, right: Expr, left: Expr)

  function LeafSize(leaf: Leaf): nat { if leaf.Number? then 4 else 2 }

  function LeafOp(op: Byte): Option<Leaf> {
    if op == 0 then Some(Number) else if op == 2 then Some(SymbolRef) else if op == 4 then Some(SectionBase)
    else if op == 12 then Some(SectionStart) else if op == 22 then Some(SectionEnd) else None
  }

  function JoinOp(op: Byte): Option<Join> {
    if op == 44 then Some(Sum) else if op == 46 then Some(Difference) else if op == 50 then Some(Quotient) else None
  }

  function LeafCode(leaf: Leaf): (op: Byte)
    ensures LeafOp(op) == Some(leaf)
  {
    match leaf
    case Number => 0
    case SymbolRef => 2
    case SectionBase => 4
    case SectionStart => 12
    case SectionEnd => 22
  }

  function JoinCode(join: Join): (op: Byte)
    ensures JoinOp(op) == Some(join) && LeafOp(op) == None
  {
    match join
    case Sum => 44
    case Difference => 46
    case Quotient => 50
  }

  predicate ExprFits(e: Expr) {
    match e
    case Atom(leaf, n) => n < Limit(LeafSize(leaf))
    case Node(_, right, left) => ExprFits(right) && ExprFits(left)
  }

  function PutExpr(e: Expr): seq<Byte> {
    match e
    case Atom(leaf, n) => [LeafCode(leaf)] + Put(LeafSize(leaf), n)
    case Node(join, right, left) => [JoinCode(join)] + PutExpr(right) + PutExpr(left)
  }

  /** `parse_expression`: the expression at `pos` and where it ends. */
  function ParseExpr(buf: seq<Byte>, pos: nat): (r: Option<(Expr, nat)>)
    ensures r.Some? ==> pos < r.value.1 <= |buf|
    decreases |buf| - pos
  {
    if pos >= |buf| then None
    else
      var op := buf[pos];
      if LeafOp(op).Some? then
        var v := TakeNum(buf, pos + 1, LeafSize(LeafOp(op).value));
        if v.None? then None else Some((Atom(LeafOp(op).value, v.value.0), v.value.1))
      else if JoinOp(op).Some? then
        var right := ParseExpr(buf, pos + 1);
        if right.None? then None
        else
          var left := ParseExpr(buf, right.value.1);
          if left.None? then None else Some((Node(JoinOp(op).value, right.value.0, left.value.0), left.value.1))
      else None
  }

  lemma LeafRoundTrip(buf: seq<Byte>, pos: nat, leaf: Leaf, n: nat)
    requires n < Limit(LeafSize(leaf)) && At(buf, pos, [LeafCode(leaf)] + Put(LeafSize(leaf), n))
    ensures Gives(ParseExpr(buf, pos), Atom(leaf, n), pos + 1 + LeafSize(leaf))
  {
    AtSplit(buf, pos, [LeafCode(leaf)], Put(LeafSize(leaf), n));
    AtByte(buf, pos, LeafCode(leaf));
    TakeNumAt(buf, pos + 1, LeafSize(leaf), n);
  }

  /** Decoding an encoded expression, wherever it stands, gives it back. */
  lemma {:induction false} ExprRoundTrip(buf: seq<Byte>, pos: nat, e: Expr)
    requires ExprFits(e) && At(buf, pos, PutExpr(e))
    ensures Gives(ParseExpr(buf, pos), e, pos + |PutExpr(e)|)
    decreases e
  {
    match e
    case Atom(leaf, n) =>
      LeafRoundTrip(buf, pos, leaf, n);
    case Node(join, right, left) =>
      var x, y := PutExpr(right), PutExpr(left);
      assert PutExpr(e) == [JoinCode(join)] + x + y;
      AtSplit3(buf, pos, JoinCode(join), x, y);
      ExprRoundTrip(buf, pos + 1, right);
      ExprRoundTrip(buf, pos + 1 + |x|, left);
  }

  /** The expression decoded at `pos` encodes to the bytes it was read from. */
  ghost predicate Explained(buf: seq<Byte>, pos: nat)
    requires ParseExpr(buf, pos).Some?
  {
    var (e, end) := ParseExpr(buf, pos).value;
    ExprFits(e) && At(buf, pos, PutExpr(e)) && end == pos + |PutExpr(e)|
  }

  lemma LeafParsed(buf: seq<Byte>, pos: nat)
    requires ParseExpr(buf, pos).Some? && LeafOp(buf[pos]).Some?
    ensures Explained(buf, pos)
  {
    var op, size := buf[pos], LeafSize(LeafOp(buf[pos]).value);
    TookNum(buf, pos + 1, size);
    LeafCodeOf(op);
    AtJoin(buf, pos, [op], Put(size, TakeNum(buf, pos + 1, size).value.0));
  }

  lemma NodeParsed(buf: seq<Byte>, pos: nat)
    requires ParseExpr(buf, pos).Some? && LeafOp(buf[pos]).None?
    requires Explained(buf, pos + 1) && Explained(buf, ParseExpr(buf, pos + 1).value.1)
    ensures Explained(buf, pos)
  {
    var op := buf[pos];
    var (right, mid) := ParseExpr(buf, pos + 1).value;
    var left := ParseExpr(buf, mid).value.0;
    JoinCodeOf(op);
    AtJoin(buf, pos, [op], PutExpr(right));
    AtJoin(buf, pos, [op] + PutExpr(right), PutExpr(left));
  }

  /** Whatever was decoded encodes to exactly the bytes it was read from. */
  lemma {:induction false} ExprParsed(buf: seq<Byte>, pos: nat)
    requires ParseExpr(buf, pos).Some?
    ensures var (e, end) := ParseExpr(buf, pos).value;
            ExprFits(e) && At(buf, pos, PutExpr(e)) && end == pos + |PutExpr(e)|
    decreases |buf| - pos
  {
    if LeafOp(buf[pos]).Some? {
      LeafParsed(buf, pos);
    } else {
      ExprParsed(buf, pos + 1);
      ExprParsed(buf, ParseExpr(buf, pos + 1).value.1);
      NodeParsed(buf, pos);
    }
  }

  lemma LeafCodeOf(op: Byte)
    requires LeafOp(op).Some?
    ensures LeafCode(LeafOp(op).value) == op
  {
  }

  lemma JoinCodeOf(op: Byte)
    requires JoinOp(op).Some?
    ensures JoinCode(JoinOp(op).value) == op
  {
  }

  // ----- fields -----

  datatype Kind = Num(size: nat) | Str | Blob | Tree | Dims

  datatype Val = N(n: nat) | Bytes(b: seq<Byte>) | E(e: Expr) | Ns(ns: seq<nat>)

  function TakeDims(buf: seq<Byte>, pos: nat, count: nat): (r: Option<(seq<nat>, nat)>)
    ensures r.Some? ==> pos <= r.value.1 <= |buf| || (count == 0 && r.value.1 == pos)
    decreases count
  {
    if count == 0 then Some(([], pos))
    else
      var v := TakeNum(buf, pos, 2);
      if v.None? then None
      else
        var rest := TakeDims(buf, v.value.1, count - 1);
        if rest.None? then None else Some(([v.value.0] + rest.value.0, rest.value.1))
  }

  function PutDims(ns: seq<nat>): seq<Byte> {
    if ns == [] then [] else Put(2, ns[0]) + PutDims(ns[1..])
  }

  /** Bytes behind a length field of `size` bytes. */
  function TakeCounted(buf: seq<Byte>, pos: nat, size: nat): Option<(seq<Byte>, nat)> {
    var n := TakeNum(buf, pos, size);
    if n.None? then None else Take(buf, n.value.1, n.value.0)
  }

  function TakeField(k: Kind, buf: seq<Byte>, pos: nat): Option<(Val, nat)> {
    match k
    case Num(size) => var v := TakeNum(buf, pos, size); if v.None? then None else Some((N(v.value.0), v.value.1))
    case Str => var v := TakeCounted(buf, pos, 1); if v.None? then None else Some((Bytes(v.value.0), v.value.1))
    case Blob => var v := TakeCounted(buf, pos, 2); if v.None? then None else Some((Bytes(v.value.0), v.value.1))
    case Tree => var v := ParseExpr(buf, pos); if v.None? then None else Some((E(v.value.0), v.value.1))
    case Dims =>
      var n := TakeNum(buf, pos, 2);
      if n.None? then None
      else var v := TakeDims(buf, n.value.1, n.value.0); if v.None? then None else Some((Ns(v.value.0), v.value.1))
  }

  predicate Fits(k: Kind, v: Val) {
    match k
    case Num(size) => v.N? && v.n < Limit(size)
    case Str => v.Bytes? && |v.b| < Limit(1)
    case Blob => v.Bytes? && |v.b| < Limit(2)
    case Tree => v.E? && ExprFits(v.e)
    case Dims => v.Ns? && |v.ns| < Limit(2) && forall i :: 0 <= i < |v.ns| ==> v.ns[i] < Limit(2)
  }

  function PutField(k: Kind, v: Val): seq<Byte>
    requires Fits(k, v)
  {
    match k
    case Num(size) => Put(size, v.n)
    case Str => Put(1, |v.b|) + v.b
    case Blob => Put(2, |v.b|) + v.b
    case Tree => PutExpr(v.e)
    case Dims => Put(2, |v.ns|) + PutDims(v.ns)
  }

  lemma {:induction false} DimsRoundTrip(buf: seq<Byte>, pos: nat, ns: seq<nat>)
    requires (forall i :: 0 <= i < |ns| ==> ns[i] < Limit(2)) && At(buf, pos, PutDims(ns))
    ensures Gives(TakeDims(buf, pos, |ns|), ns, pos + |PutDims(ns)|)
    decreases |ns|
  {
    if ns != [] {
      AtSplit(buf, pos, Put(2, ns[0]), PutDims(ns[1..]));
      TakeNumAt(buf, pos, 2, ns[0]);
      DimsRoundTrip(buf, pos + 2, ns[1..]);
      assert ns == [ns[0]] + ns[1..];
    }
  }

  lemma {:induction false} CountedRoundTrip(buf: seq<Byte>, pos: nat, size: nat, b: seq<Byte>)
    requires |b| < Limit(size) && At(buf, pos, Put(size, |b|) + b)
    ensures Gives(TakeCounted(buf, pos, size), b, pos + size + |b|)
  {
    AtSplit(buf, pos, Put(size, |b|), b);
    TakeNumAt(buf, pos, size, |b|);
    CountedFrom(buf, pos, size, b);
  }

  lemma CountedFrom(buf: seq<Byte>, pos: nat, size: nat, b: seq<Byte>)
    requires Gives(TakeNum(buf, pos, size), |b|, pos + size) && At(buf, pos + size, b)
    ensures Gives(TakeCounted(buf, pos, size), b, pos + size + |b|)
  {
  }

  lemma FieldRoundTrip(buf: seq<Byte>, pos: nat, k: Kind, v: Val)
    requires Fits(k, v) && At(buf, pos, PutField(k, v))
    ensures Gives(TakeField(k, buf, pos), v, pos + |PutField(k, v)|)
  {
    match k
    case Num(size) => TakeNumAt(buf, pos, size, v.n);
    case Str => CountedRoundTrip(buf, pos, 1, v.b);
    case Blob => CountedRoundTrip(buf, pos, 2, v.b);
    case Tree => ExprRoundTrip(buf, pos, v.e);
    case Dims => DimsFieldRoundTrip(buf, pos, v.ns);
  }

  lemma DimsFieldRoundTrip(buf: seq<Byte>, pos: nat, ns: seq<nat>)
    requires Fits(Dims, Ns(ns)) && At(buf, pos, Put(2, |ns|) + PutDims(ns))
    ensures Gives(TakeField(Dims, buf, pos), Ns(ns), pos + 2 + |PutDims(ns)|)
  {
    AtSplit(buf, pos, Put(2, |ns|), PutDims(ns));
    TakeNumAt(buf, pos, 2, |ns|);
    DimsRoundTrip(buf, pos + 2, ns);
  }

  lemma {:induction false} DimsParsed(buf: seq<Byte>, pos: nat, count: nat)
    requires pos <= |buf| && TakeDims(buf, pos, count).Some?
    ensures var (ns, end) := TakeDims(buf, pos, count).value;
            |ns| == count && At(buf, pos, PutDims(ns)) && end == pos + |PutDims(ns)| &&
            forall i :: 0 <= i < |ns| ==> ns[i] < Limit(2)
    decreases count
  {
    if count > 0 {
      TookNum(buf, pos, 2);
      var (v, mid) := TakeNum(buf, pos, 2).value;
      DimsParsed(buf, mid, count - 1);
      var (ns, end) := TakeDims(buf, pos, count).value;
      assert ns[1..] == TakeDims(buf, mid, count - 1).value.0;
      AtJoin(buf, pos, Put(2, v), PutDims(ns[1..]));
    }
  }

  lemma CountedParsed(buf: seq<Byte>, pos: nat, size: nat)
    requires TakeCounted(buf, pos, size).Some?
    ensures var (b, end) := TakeCounted(buf, pos, size).value;
            |b| < Limit(size) && At(buf, pos, Put(size, |b|) + b) && end == pos + size + |b|
  {
    TookNum(buf, pos, size);
    var b := TakeCounted(buf, pos, size).value.0;
    AtJoin(buf, pos, Put(size, |b|), b);
  }

  lemma FieldParsed(k: Kind, buf: seq<Byte>, pos: nat)
    requires pos <= |buf| && TakeField(k, buf, pos).Some?
    ensures var (v, end) := TakeField(k, buf, pos).value;
            Fits(k, v) && At(buf, pos, PutField(k, v)) && end == pos + |PutField(k, v)|
  {
    match k
    case Num(size) => TookNum(buf, pos, size);
    case Str => CountedParsed(buf, pos, 1);
    case Blob => CountedParsed(buf, pos, 2);
    case Tree => ExprParsed(buf, pos);
    case Dims =>
      TookNum(buf, pos, 2);
      var (n, mid) := TakeNum(buf, pos, 2).value;
      DimsParsed(buf, mid, n);
      AtJoin(buf, pos, Put(2, n), PutDims(TakeDims(buf, mid, n).value.0));
  }
}
