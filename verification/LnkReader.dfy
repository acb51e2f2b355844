/** The imperative side of tools/lnk_decoder.py: the reader whose position every
    read advances, the record loop over it, and the scan of a ROM for records. */
module LnkReader {
  import opened Prelude
  import opened LnkFormat
  import opened LnkDecoder

  class Reader {
    const buf: seq<Byte>
    var pos: nat

    predicate Valid()
      reads this
    {
      pos <= |buf|
    }

    constructor (buf: seq<Byte>, start: nat)
      requires start <= |buf|
      ensures Valid() && this.buf == buf && pos == start
    {
      this.buf := buf;
      pos := start;
    }

    /** bytes_n: the next `n` bytes, or the end of the file. */
    method BytesN(n: nat) returns (r: Option<seq<Byte>>)
      requires Valid()
      modifies this
      ensures Valid()
      ensures r.None? <==> Take(buf, old(pos), n).None?
      ensures r.Some? ==> Gives(Take(buf, old(pos), n), r.value, pos)
      ensures r.None? ==> pos == old(pos)
    {
      if |buf| - pos < n {
        return None;
      }
      r := Some(buf[pos..pos + n]);
      pos := pos + n;
    }

    /** u8, u16, u32: a little-endian number of `size` bytes. */
    method Number(size: nat) returns (r: Option<nat>)
      requires Valid()
      modifies this
      ensures Valid()
      ensures r.None? <==> TakeNum(buf, old(pos), size).None?
      ensures r.Some? ==> Gives(TakeNum(buf, old(pos), size), r.value, pos)
      ensures pos >= old(pos)
    {
      var b := BytesN(size);
      r := if b.None? then None else Some(Value(b.value));
    }

    /** pstring, and the counted bytes of BYTES. */
    method Counted(size: nat) returns (r: Option<seq<Byte>>)
      requires Valid()
      modifies this
      ensures Valid()
      ensures r.None? <==> TakeCounted(buf, old(pos), size).None?
      ensures r.Some? ==> Gives(TakeCounted(buf, old(pos), size), r.value, pos)
    {
      var n := Number(size);
      if n.None? {
        return None;
      }
      r := BytesN(n.value);
    }

    method Expression() returns (r: Option<Expr>)
      requires Valid()
      modifies this
      ensures Valid() && pos >= old(pos)
      ensures r.None? <==> ParseExpr(buf, old(pos)).None?
      ensures r.Some? ==> Gives(ParseExpr(buf, old(pos)), r.value, pos) && pos > old(pos)
      decreases |buf| - pos
    {
      if pos >= |buf| {
        return None;
      }
      var op := buf[pos];
      pos := pos + 1;
      if LeafOp(op).Some? {
        var v := Number(LeafSize(LeafOp(op).value));
        return if v.None? then None else Some(Atom(LeafOp(op).value, v.value));
      }
      if JoinOp(op).None? {
        return None;
      }
      var right := Expression();
      if right.None? {
        return None;
      }
      var left := Expression();
      r := if left.None? then None else Some(Node(JoinOp(op).value, right.value, left.value));
    }

    /** The dimension list of SECTION_DEF2. */
    method Dimensions(count: nat) returns (r: Option<seq<nat>>)
      requires Valid()
      modifies this
      ensures Valid()
      ensures r.None? <==> TakeDims(buf, old(pos), count).None?
      ensures r.Some? ==> Gives(TakeDims(buf, old(pos), count), r.value, pos)
      decreases count
    {
      if count == 0 {
        return Some([]);
      }
      var v := Number(2);
      if v.None? {
        return None;
      }
      var rest := Dimensions(count - 1);
      r := if rest.None? then None else Some([v.value] + rest.value);
    }

    method Field(k: Kind) returns (r: Option<Val>)
      requires Valid()
      modifies this
      ensures Valid()
      ensures r.None? <==> TakeField(k, buf, old(pos)).None?
      ensures r.Some? ==> Gives(TakeField(k, buf, old(pos)), r.value, pos)
    {
      match k
      case Num(size) =>
        var v := Number(size);
        r := if v.None? then None else Some(N(v.value));
      case Str =>
        var v := Counted(1);
        r := if v.None? then None else Some(Bytes(v.value));
      case Blob =>
        var v := Counted(2);
        r := if v.None? then None else Some(Bytes(v.value));
      case Tree =>
        var v := Expression();
        r := if v.None? then None else Some(E(v.value));
      case Dims =>
        var n := Number(2);
        if n.None? {
          return None;
        }
        var v := Dimensions(n.value);
        r := if v.None? then None else Some(Ns(v.value));
    }

    method Fields(kinds: seq<Kind>) returns (r: Option<seq<Val>>)
      requires Valid()
      modifies this
      ensures Valid()
      ensures r.None? <==> TakeFields(kinds, buf, old(pos)).None?
      ensures r.Some? ==> Gives(TakeFields(kinds, buf, old(pos)), r.value, pos)
      decreases |kinds|
    {
      if kinds == [] {
        return Some([]);
      }
      var v := Field(kinds[0]);
      if v.None? {
        return None;
      }
      var rest := Fields(kinds[1..]);
      r := if rest.None? then None else Some([v.value] + rest.value);
    }

    /** One turn of the record loop: the operands of the opcode just read. */
    method Operation(op: Byte) returns (r: Option<Op>)
      requires Valid() && 0 < pos && buf[pos - 1] == op && op != 0
      modifies this
      ensures Valid()
      ensures r.None? <==> TakeOp(buf, old(pos) - 1).None?
      ensures r.Some? ==> Gives(TakeOp(buf, old(pos) - 1), r.value, pos)
    {
      var kinds := Schema(op);
      if kinds.None? {
        return None;
      }
      var vals := Fields(kinds.value);
      r := if vals.None? then None else Some(Op(op, vals.value));
    }
  }

  /** `parse_record` from the first opcode on. */
  method DecodeLoop(r: Reader) returns (rec: Record)
    requires r.Valid()
    modifies r
    ensures r.Valid() && rec == Decode(r.buf, old(r.pos), EMPTY)
  {
    rec := EMPTY;
    while r.pos < |r.buf|
      invariant r.Valid()
      invariant Decode(r.buf, old(r.pos), EMPTY) == Decode(r.buf, r.pos, rec)
      decreases |r.buf| - r.pos
    {
      var at := r.pos;
      var code := r.buf[at];
      r.pos := at + 1;
      if code == 0 {
        return rec.(histogram := Bump(rec.histogram, 0), endOffset := Some(r.pos));
      }
      var op := r.Operation(code);
      if op.None? {
        return rec.(truncatedAt := Some(at));
      }
      DecodeOne(r.buf, at, rec);
      rec := Apply(op.value, rec);
    }
  }

  method ReadRecord(buf: seq<Byte>, start: nat) returns (rec: Option<Record>)
    ensures rec == ParseRecord(buf, start)
  {
    if !At(buf, start, MAGIC) {
      return None;
    }
    var r := new Reader(buf, start + 4);
    var d := DecodeLoop(r);
    rec := Some(d);
  }

  // ----- finding records -----

  /** bytes.find: the first occurrence of the magic from `pos` on. */
  method Find(buf: seq<Byte>, pos: nat) returns (i: Option<nat>)
    ensures i.Some? ==> pos <= i.value && At(buf, i.value, MAGIC) && forall k :: pos <= k < i.value ==> !At(buf, k, MAGIC)
    ensures i.None? ==> forall k :: pos <= k ==> !At(buf, k, MAGIC)
  {
    var k := pos;
    while k + 4 <= |buf|
      invariant pos <= k
      invariant forall j :: pos <= j < k ==> !At(buf, j, MAGIC)
      decreases |buf| - k
    {
      if At(buf, k, MAGIC) {
        return Some(k);
      }
      k := k + 1;
    }
    return None;
  }

  /** No two occurrences of the magic overlap: its bytes are all different. */
  lemma NoneBetween(buf: seq<Byte>, i: nat)
    requires At(buf, i, MAGIC)
    ensures forall k :: i < k < i + 4 ==> !At(buf, k, MAGIC)
  {
    forall k | i < k < i + 4 ensures !At(buf, k, MAGIC) {
      assert buf[i..i + 4][k - i] == buf[k];
    }
  }

  /** `find_records`: every place the magic occurs at, in order, although the scan
      jumps over four bytes behind each. */
  method FindRecords(buf: seq<Byte>) returns (offs: seq<nat>)
    ensures forall i: nat :: i in offs <==> At(buf, i, MAGIC)
    ensures forall j, k :: 0 <= j < k < |offs| ==> offs[j] < offs[k]
  {
    offs := [];
    var pos := 0;
    var i := Find(buf, pos);
    while i.Some?
      invariant i.Some? ==> pos <= i.value && At(buf, i.value, MAGIC) && forall k :: pos <= k < i.value ==> !At(buf, k, MAGIC)
      invariant i.None? ==> forall k :: pos <= k ==> !At(buf, k, MAGIC)
      invariant forall k: nat :: k in offs <==> k < pos && At(buf, k, MAGIC)
      invariant forall j :: 0 <= j < |offs| ==> offs[j] < pos
      invariant forall j, k :: 0 <= j < k < |offs| ==> offs[j] < offs[k]
      decreases i.Some?, |buf| - pos
    {
      NoneBetween(buf, i.value);
      offs := offs + [i.value];
      pos := i.value + 4;
      i := Find(buf, pos);
    }
  }
}
