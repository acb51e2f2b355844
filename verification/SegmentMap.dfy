/** The ordered list of subsegments of one ROM segment, and the three programs that
    edit it: tools/rodata_match.py `own_slice`, tools/auto_match.py
    `rodata_subsegment` and tools/c_subsegment.py `main`.

    An entry owns the addresses from its start to the next entry's. */
module SegmentMap {
  import opened Prelude

  datatype Entry = Entry(addr: nat, typ: string, sub: Option<string>)

  /** Who owns an address. */
  datatype Owner = Nobody | By(typ: string, sub: Option<string>)

  function Of(e: Entry): Owner { By(e.typ, e.sub) }

  ghost predicate Increasing(ents: seq<Entry>) {
    forall i, j :: 0 <= i < j < |ents| ==> ents[i].addr < ents[j].addr
  }

  function OwnerAt(ents: seq<Entry>, x: int): Owner {
    if ents == [] then Nobody
    else
      var last := ents[|ents| - 1];
      if last.addr <= x then Of(last) else OwnerAt(ents[..|ents| - 1], x)
  }

  lemma {:induction false} OwnerJoin(a: seq<Entry>, b: seq<Entry>, x: int)
    requires Increasing(b)
    ensures OwnerAt(a + b, x) == if b != [] && b[0].addr <= x then OwnerAt(b, x) else OwnerAt(a, x)
    decreases |b|
  {
    if b == [] {
      assert a + b == a;
    } else {
      var n := |b| - 1;
      assert (a + b)[|a + b| - 1] == b[n];
      assert (a + b)[..|a + b| - 1] == a + b[..n];
      OwnerJoin(a, b[..n], x);
    }
  }

  lemma OwnerBefore(ents: seq<Entry>, x: int)
    requires Increasing(ents) && (ents == [] || x < ents[0].addr)
    ensures OwnerAt(ents, x) == Nobody
  {
    assert [] + ents == ents;
    OwnerJoin([], ents, x);
  }

  /** Inside the k-th span. */
  lemma SpanOwner(ents: seq<Entry>, k: nat, x: int)
    requires Increasing(ents) && k < |ents| && ents[k].addr <= x
    requires k + 1 < |ents| ==> x < ents[k + 1].addr
    ensures OwnerAt(ents, x) == Of(ents[k])
  {
    assert ents == ents[..k + 1] + ents[k + 1..];
    OwnerJoin(ents[..k + 1], ents[k + 1..], x);
  }

  // ----- replacing some entries by others -----

  function Splice(ents: seq<Entry>, p: nat, q: nat, mid: seq<Entry>): seq<Entry>
    requires p <= q <= |ents|
  {
    ents[..p] + mid + ents[q..]
  }

  ghost predicate SpliceFits(ents: seq<Entry>, p: nat, q: nat, mid: seq<Entry>) {
    p <= q <= |ents| && mid != [] && Increasing(ents) && Increasing(mid) &&
    (p > 0 ==> ents[p - 1].addr < mid[0].addr) &&
    (q < |ents| ==> mid[|mid| - 1].addr < ents[q].addr)
  }

  lemma IncreasingJoin(a: seq<Entry>, b: seq<Entry>)
    requires Increasing(a) && Increasing(b)
    requires a != [] && b != [] ==> a[|a| - 1].addr < b[0].addr
    ensures Increasing(a + b)
  {
    forall i, j | 0 <= i < j < |a + b| ensures (a + b)[i].addr < (a + b)[j].addr {
      if i < |a| <= j {
        assert a[i].addr <= a[|a| - 1].addr && b[0].addr <= b[j - |a|].addr;
      }
    }
  }

  lemma SpliceIncreasing(ents: seq<Entry>, p: nat, q: nat, mid: seq<Entry>)
    requires SpliceFits(ents, p, q, mid)
    ensures Increasing(Splice(ents, p, q, mid))
  {
    IncreasingJoin(ents[..p], mid);
    IncreasingJoin(ents[..p] + mid, ents[q..]);
  }

  lemma SpliceOwner(ents: seq<Entry>, p: nat, q: nat, mid: seq<Entry>, x: int)
    requires SpliceFits(ents, p, q, mid)
    ensures OwnerAt(Splice(ents, p, q, mid), x)
         == if q < |ents| && ents[q].addr <= x then OwnerAt(ents, x)
            else if mid[0].addr <= x then OwnerAt(mid, x)
            else OwnerAt(ents[..p], x)
  {
    OwnerJoin(ents[..p] + mid, ents[q..], x);
    OwnerJoin(ents[..p], mid, x);
    assert ents == ents[..q] + ents[q..];
    OwnerJoin(ents[..q], ents[q..], x);
  }

  lemma PrefixOwner(ents: seq<Entry>, p: nat, x: int)
    requires p <= |ents| && Increasing(ents) && (p < |ents| ==> x < ents[p].addr)
    ensures OwnerAt(ents[..p], x) == OwnerAt(ents, x)
  {
    assert ents == ents[..p] + ents[p..];
    OwnerJoin(ents[..p], ents[p..], x);
  }

  // ----- an edit: one new entry over [start, end) -----

  /** The new entry, what is left of the first host before it, and of the last
      host behind it. */
  datatype Edit = Edit(p: nat, q: nat, head: Option<Entry>, mine: Entry, end: nat, tail: Option<Entry>)

  function List<T>(o: Option<T>): seq<T> { if o.Some? then [o.value] else [] }

  function Mid(e: Edit): seq<Entry> { List(e.head) + [e.mine] + List(e.tail) }

  function Apply(ents: seq<Entry>, e: Edit): seq<Entry>
    requires e.p <= e.q <= |ents|
  {
    Splice(ents, e.p, e.q, Mid(e))
  }

  function SpanEnd(ents: seq<Entry>, segEnd: nat, k: nat): nat {
    if k + 1 < |ents| then ents[k + 1].addr else segEnd
  }

  /** The entries replaced are those that meet [start, end), and head and tail
      stand where the hosts are cut. */
  ghost predicate EditFits(ents: seq<Entry>, segEnd: nat, e: Edit) {
    Increasing(ents) && e.p < e.q <= |ents| && e.mine.addr < e.end && ents[e.q - 1].addr < e.end &&
    (e.p > 0 ==> ents[e.p - 1].addr < e.mine.addr && ents[e.p].addr <= e.mine.addr) &&
    (e.p + 1 < e.q ==> e.mine.addr < ents[e.p + 1].addr) &&
    (e.q < |ents| ==> e.end <= ents[e.q].addr) &&
    (if ents[e.p].addr < e.mine.addr then e.head.Some? && e.head.value.addr == ents[e.p].addr else e.head.None?) &&
    (if e.tail.Some? then e.tail.value.addr == e.end && (e.q < |ents| ==> e.end < ents[e.q].addr)
     else SpanEnd(ents, segEnd, e.q - 1) <= e.end)
  }

  lemma EditSplices(ents: seq<Entry>, segEnd: nat, e: Edit)
    requires EditFits(ents, segEnd, e)
    ensures SpliceFits(ents, e.p, e.q, Mid(e))
  {
    assert e.p > 0 ==> ents[e.p - 1].addr < ents[e.p].addr;
  }

  lemma MidOwner(e: Edit, x: int)
    requires e.head.Some? ==> e.head.value.addr < e.mine.addr
    requires e.tail.Some? ==> e.mine.addr < e.tail.value.addr
    ensures OwnerAt(Mid(e), x)
         == if e.tail.Some? && e.tail.value.addr <= x then Of(e.tail.value)
            else if e.mine.addr <= x then Of(e.mine)
            else if e.head.Some? && e.head.value.addr <= x then Of(e.head.value)
            else Nobody
  {
    OwnerJoin(List(e.head) + [e.mine], List(e.tail), x);
    OwnerJoin(List(e.head), [e.mine], x);
    OneOwner(e.head, x);
    OneOwner(Some(e.mine), x);
    OneOwner(e.tail, x);
  }

  lemma OneOwner(o: Option<Entry>, x: int)
    ensures OwnerAt(List(o), x) == if o.Some? && o.value.addr <= x then Of(o.value) else Nobody
  {
    if o.Some? {
      assert [o.value][..0] == [];
    }
  }

  /** Who owns `x` after the edit: the new entry on [start, end), the head and the
      tail on what is left of the hosts, and whoever owned it before elsewhere. */
  function After(ents: seq<Entry>, e: Edit, x: int): Owner
    requires e.p < e.q <= |ents|
  {
    if e.mine.addr <= x < e.end then Of(e.mine)
    else if e.head.Some? && ents[e.p].addr <= x < e.mine.addr then Of(e.head.value)
    else if e.tail.Some? && e.end <= x && (e.q < |ents| ==> x < ents[e.q].addr) then Of(e.tail.value)
    else OwnerAt(ents, x)
  }

  lemma EditOwner(ents: seq<Entry>, segEnd: nat, e: Edit, x: int)
    requires EditFits(ents, segEnd, e) && x < segEnd
    ensures OwnerAt(Apply(ents, e), x) == After(ents, e, x)
  {
    EditSplices(ents, segEnd, e);
    SpliceOwner(ents, e.p, e.q, Mid(e), x);
    MidOwner(e, x);
    if x < e.mine.addr && x < ents[e.p].addr {
      PrefixOwner(ents, e.p, x);
      assert e.head.Some? ==> Mid(e)[0] == e.head.value;
    }
  }

  /** The hosts that are cut, as they were. */
  lemma HeadOwner(ents: seq<Entry>, segEnd: nat, e: Edit, x: int)
    requires EditFits(ents, segEnd, e) && ents[e.p].addr <= x < e.mine.addr
    ensures OwnerAt(ents, x) == Of(ents[e.p])
  {
    SpanOwner(ents, e.p, x);
  }

  lemma TailOwner(ents: seq<Entry>, segEnd: nat, e: Edit, x: int)
    requires EditFits(ents, segEnd, e) && e.end <= x && (e.q < |ents| ==> x < ents[e.q].addr)
    ensures OwnerAt(ents, x) == Of(ents[e.q - 1])
  {
    SpanOwner(ents, e.q - 1, x);
  }

  /** Head and tail own what they stand for as the host did. */
  predicate HostsKept(ents: seq<Entry>, segEnd: nat, e: Edit)
    requires e.p < e.q <= |ents|
  {
    (e.head.Some? ==> Of(e.head.value) == Of(ents[e.p])) &&
    (e.tail.Some? && e.end < segEnd ==> Of(e.tail.value) == Of(ents[e.q - 1]))
  }

  /** The owner map with [start, end) given to `mine`, below the segment's end. */
  ghost predicate Pointwise(before: seq<Entry>, after: seq<Entry>, segEnd: nat, mine: Entry, end: nat) {
    forall x: int :: x < segEnd ==>
      OwnerAt(after, x) == if mine.addr <= x < end then Of(mine) else OwnerAt(before, x)
  }

  /** Nothing outside [start, end) changes hands exactly when the remainders of
      the hosts keep their type and name. */
  lemma PointwiseExactly(ents: seq<Entry>, segEnd: nat, e: Edit)
    requires EditFits(ents, segEnd, e) && e.mine.addr <= segEnd
    ensures Pointwise(ents, Apply(ents, e), segEnd, e.mine, e.end) <==> HostsKept(ents, segEnd, e)
  {
    var out := Apply(ents, e);
    if HostsKept(ents, segEnd, e) {
      forall x: int | x < segEnd
        ensures OwnerAt(out, x) == if e.mine.addr <= x < e.end then Of(e.mine) else OwnerAt(ents, x)
      {
        EditOwner(ents, segEnd, e, x);
        if e.head.Some? && ents[e.p].addr <= x < e.mine.addr {
          HeadOwner(ents, segEnd, e, x);
        } else if e.tail.Some? && e.end <= x && (e.q < |ents| ==> x < ents[e.q].addr) {
          TailOwner(ents, segEnd, e, x);
        }
      }
    } else {
      NotKept(ents, segEnd, e);
    }
  }

  lemma NotKept(ents: seq<Entry>, segEnd: nat, e: Edit)
    requires EditFits(ents, segEnd, e) && e.mine.addr <= segEnd && !HostsKept(ents, segEnd, e)
    ensures !Pointwise(ents, Apply(ents, e), segEnd, e.mine, e.end)
  {
    if e.head.Some? && Of(e.head.value) != Of(ents[e.p]) {
      var x := ents[e.p].addr;
      EditOwner(ents, segEnd, e, x);
      HeadOwner(ents, segEnd, e, x);
      assert OwnerAt(Apply(ents, e), x) != OwnerAt(ents, x);
    } else {
      var x := e.end;
      EditOwner(ents, segEnd, e, x);
      TailOwner(ents, segEnd, e, x);
      assert OwnerAt(Apply(ents, e), x) != OwnerAt(ents, x);
    }
  }
}
