/** The three editors of the segment map, as methods that change its entries in
    place. Each is tied to an `Edit`; what an edit does to the owners is in
    SegmentMap. */
module SegmentEditors {
  import opened Prelude
  import opened SegmentMap

  const RAW := "rodata"
  const LINKED := ".rodata"

  ghost predicate Within(ents: seq<Entry>, segEnd: nat) {
    ents != [] && Increasing(ents) && ents[|ents| - 1].addr <= segEnd
  }

  /** An ordered list whose every entry owns something. */
  ghost predicate Ordered(ents: seq<Entry>, segEnd: nat) {
    Within(ents, segEnd) && ents[|ents| - 1].addr < segEnd
  }

  /** As above, or with the empty raw entry at the end that an insertion leaves. */
  ghost predicate Tidy(ents: seq<Entry>, segEnd: nat) {
    Within(ents, segEnd) &&
    (ents[|ents| - 1].addr == segEnd ==> Of(ents[|ents| - 1]) == By(RAW, None))
  }

  ghost predicate Named(ents: seq<Entry>, me: string, k: nat) { k < |ents| && ents[k].sub == Some(me) }

  /** The file has exactly one entry. */
  ghost predicate OneEntry(ents: seq<Entry>, me: string) {
    exists i :: Named(ents, me, i) && forall j :: Named(ents, me, j) ==> j == i
  }

  lemma EditOneEntry(ents: seq<Entry>, segEnd: nat, e: Edit, me: string)
    requires EditFits(ents, segEnd, e) && e.mine.sub == Some(me)
    requires forall k: nat :: Named(ents, me, k) ==> e.p <= k < e.q
    requires e.head.Some? ==> e.head.value.sub != Some(me)
    requires e.tail.Some? ==> e.tail.value.sub != Some(me)
    ensures OneEntry(Apply(ents, e), me)
  {
    var out, mid := Apply(ents, e), Mid(e);
    var at := e.p + |List(e.head)|;
    assert mid[|List(e.head)|] == e.mine;
    assert Named(out, me, at);
    forall j: nat | Named(out, me, j) ensures j == at {
      if j < e.p {
        assert Named(ents, me, j);
      } else if j < e.p + |mid| {
        assert out[j] == mid[j - e.p];
      } else {
        var k := j - e.p - |mid| + e.q;
        assert out[j] == ents[k];
        assert Named(ents, me, k);
      }
    }
  }

  // ----- own_slice -----

  predicate Hit(ents: seq<Entry>, segEnd: nat, start: nat, end: nat, k: nat) {
    k < |ents| && ents[k].addr < end && start < SpanEnd(ents, segEnd, k)
  }

  /** The spans that meet [start, end) are those from `p` to `q`. */
  ghost predicate Hits(ents: seq<Entry>, segEnd: nat, start: nat, end: nat, p: nat, q: nat) {
    p <= q <= |ents| && forall k: nat :: Hit(ents, segEnd, start, end, k) <==> p <= k < q
  }

  function OwnEdit(ents: seq<Entry>, segEnd: nat, me: string, start: nat, end: nat, p: nat, q: nat): Edit
    requires p < q <= |ents|
  {
    Edit(p, q,
      if ents[p].addr < start then Some(Entry(ents[p].addr, RAW, None)) else None,
      Entry(start, LINKED, Some(me)), end,
      if end < SpanEnd(ents, segEnd, q - 1) then Some(Entry(end, RAW, None)) else None)
  }

  lemma OwnFits(ents: seq<Entry>, segEnd: nat, me: string, start: nat, end: nat, p: nat, q: nat)
    requires Tidy(ents, segEnd) && start < end && Hits(ents, segEnd, start, end, p, q) && p < q
    ensures EditFits(ents, segEnd, OwnEdit(ents, segEnd, me, start, end, p, q))
  {
    assert Hit(ents, segEnd, start, end, p) && Hit(ents, segEnd, start, end, q - 1);
    assert !Hit(ents, segEnd, start, end, q);
    if p > 0 {
      assert !Hit(ents, segEnd, start, end, p - 1);
    }
  }

  /** The file may take what nobody owns, what is raw, and what is its own. */
  ghost predicate FreeAt(ents: seq<Entry>, me: string, x: int) {
    var o := OwnerAt(ents, x);
    o == Nobody || o.typ == RAW || o.sub == Some(me)
  }

  ghost predicate MineAt(ents: seq<Entry>, me: string, x: int) {
    var o := OwnerAt(ents, x);
    o.By? && o.sub == Some(me)
  }

  /** When `own_slice` succeeds, in terms of addresses alone: the range lies in the
      segment somewhere, it is free for the file, and the file owns nothing else. */
  ghost predicate MayOwn(ents: seq<Entry>, segEnd: nat, me: string, start: nat, end: nat) {
    ents != [] && ents[0].addr < end && start < segEnd &&
    (forall x: int :: start <= x < end && x < segEnd ==> FreeAt(ents, me, x)) &&
    (forall x: int :: x < segEnd && MineAt(ents, me, x) ==> start <= x < end)
  }

  predicate HitRefused(ents: seq<Entry>, me: string, k: nat) {
    k < |ents| && ents[k].typ != RAW && ents[k].sub != Some(me)
  }

  predicate OldOutside(ents: seq<Entry>, segEnd: nat, me: string, start: nat, end: nat, k: nat) {
    k < |ents| && ents[k].sub == Some(me) && (ents[k].addr < start || SpanEnd(ents, segEnd, k) > end)
  }

  lemma HitOwner(ents: seq<Entry>, segEnd: nat, start: nat, end: nat, k: nat) returns (x: nat)
    requires Tidy(ents, segEnd) && start < end && Hit(ents, segEnd, start, end, k) && ents[k].addr < segEnd
    ensures start <= x < end && x < segEnd && OwnerAt(ents, x) == Of(ents[k])
  {
    x := if start < ents[k].addr then ents[k].addr else start;
    SpanOwner(ents, k, x);
  }

  lemma {:induction false} OwnerSpan(ents: seq<Entry>, segEnd: nat, x: int) returns (k: nat)
    requires Tidy(ents, segEnd) && ents[0].addr <= x < segEnd
    ensures k < |ents| && ents[k].addr <= x < SpanEnd(ents, segEnd, k) && OwnerAt(ents, x) == Of(ents[k])
  {
    k := 0;
    while SpanEnd(ents, segEnd, k) <= x
      invariant k < |ents| && ents[k].addr <= x
      decreases |ents| - k
    {
      k := k + 1;
    }
    SpanOwner(ents, k, x);
  }

  lemma RefusedIsTaken(ents: seq<Entry>, segEnd: nat, me: string, start: nat, end: nat, k: nat)
    requires Tidy(ents, segEnd) && start < end
    requires Hit(ents, segEnd, start, end, k) && HitRefused(ents, me, k)
    ensures !MayOwn(ents, segEnd, me, start, end)
  {
    var x := HitOwner(ents, segEnd, start, end, k);
    assert !FreeAt(ents, me, x);
  }

  lemma OutsideIsOwned(ents: seq<Entry>, segEnd: nat, me: string, start: nat, end: nat, k: nat)
    requires Tidy(ents, segEnd) && OldOutside(ents, segEnd, me, start, end, k)
    ensures !MayOwn(ents, segEnd, me, start, end)
  {
    var x := if ents[k].addr < start then ents[k].addr else SpanEnd(ents, segEnd, k) - 1;
    SpanOwner(ents, k, x);
    assert MineAt(ents, me, x);
  }

  lemma NoneRefused(ents: seq<Entry>, segEnd: nat, me: string, start: nat, end: nat, p: nat, q: nat)
    requires Tidy(ents, segEnd) && start < end && Hits(ents, segEnd, start, end, p, q) && p < q
    requires forall k: nat :: p <= k < q ==> !HitRefused(ents, me, k)
    requires forall k: nat :: k < |ents| ==> !OldOutside(ents, segEnd, me, start, end, k)
    ensures MayOwn(ents, segEnd, me, start, end)
  {
    assert Hit(ents, segEnd, start, end, p);
    forall x: int | start <= x < end && x < segEnd ensures FreeAt(ents, me, x) {
      if x < ents[0].addr {
        OwnerBefore(ents, x);
      } else {
        var k := OwnerSpan(ents, segEnd, x);
        assert Hit(ents, segEnd, start, end, k);
        assert !HitRefused(ents, me, k);
      }
    }
    forall x: int | x < segEnd && MineAt(ents, me, x) ensures start <= x < end {
      if x < ents[0].addr {
        OwnerBefore(ents, x);
      } else {
        var k := OwnerSpan(ents, segEnd, x);
        assert !OldOutside(ents, segEnd, me, start, end, k);
      }
    }
  }

  lemma NothingHit(ents: seq<Entry>, segEnd: nat, me: string, start: nat, end: nat, p: nat)
    requires Tidy(ents, segEnd) && start < end && Hits(ents, segEnd, start, end, p, p)
    ensures !MayOwn(ents, segEnd, me, start, end)
  {
    if ents[0].addr < end && start < segEnd {
      var x := if start < ents[0].addr then ents[0].addr else start;
      var k := 0;
      if x < segEnd {
        k := OwnerSpan(ents, segEnd, x);
      }
      assert Hit(ents, segEnd, start, end, k);
    }
  }

  ghost predicate OwnEdited(ents: seq<Entry>, segEnd: nat, me: string, start: nat, end: nat, out: seq<Entry>) {
    exists p: nat, q: nat | Hits(ents, segEnd, start, end, p, q) ::
      p < q && out == Apply(ents, OwnEdit(ents, segEnd, me, start, end, p, q))
  }

  lemma OwnTidy(ents: seq<Entry>, segEnd: nat, me: string, start: nat, end: nat, p: nat, q: nat)
    requires Tidy(ents, segEnd) && start < end && Hits(ents, segEnd, start, end, p, q) && p < q
    ensures Tidy(Apply(ents, OwnEdit(ents, segEnd, me, start, end, p, q)), segEnd)
    ensures Ordered(ents, segEnd) ==> Ordered(Apply(ents, OwnEdit(ents, segEnd, me, start, end, p, q)), segEnd)
  {
    var e := OwnEdit(ents, segEnd, me, start, end, p, q);
    OwnFits(ents, segEnd, me, start, end, p, q);
    EditSplices(ents, segEnd, e);
    SpliceIncreasing(ents, p, q, Mid(e));
    assert Hit(ents, segEnd, start, end, q - 1);
    var out := Apply(ents, e);
    if q < |ents| {
      assert out[|out| - 1] == ents[|ents| - 1];
    } else if e.tail.Some? {
      assert out[|out| - 1] == e.tail.value;
    } else {
      assert out[|out| - 1] == e.mine;
    }
  }

  /** Nothing named stays outside, and no remainder of a host is the file's. */
  lemma OwnOneEntry(ents: seq<Entry>, segEnd: nat, me: string, start: nat, end: nat, p: nat, q: nat)
    requires Tidy(ents, segEnd) && start < end && Hits(ents, segEnd, start, end, p, q) && p < q
    requires forall k: nat :: k < |ents| ==> !OldOutside(ents, segEnd, me, start, end, k)
    ensures OneEntry(Apply(ents, OwnEdit(ents, segEnd, me, start, end, p, q)), me)
  {
    OwnFits(ents, segEnd, me, start, end, p, q);
    forall k: nat | Named(ents, me, k) ensures p <= k < q {
      assert !OldOutside(ents, segEnd, me, start, end, k);
      assert Hit(ents, segEnd, start, end, k);
    }
    EditOneEntry(ents, segEnd, OwnEdit(ents, segEnd, me, start, end, p, q), me);
  }

  /** The owners after a successful `own_slice`: types outside [start, end) never
      change, and names change exactly where a named host is cut. */
  lemma OwnSliceMeans(ents: seq<Entry>, segEnd: nat, me: string, start: nat, end: nat, p: nat, q: nat)
    requires Tidy(ents, segEnd) && start < end && Hits(ents, segEnd, start, end, p, q) && p < q
    requires MayOwn(ents, segEnd, me, start, end)
    ensures var e := OwnEdit(ents, segEnd, me, start, end, p, q);
            EditFits(ents, segEnd, e) && Increasing(Apply(ents, e)) &&
            (Pointwise(ents, Apply(ents, e), segEnd, e.mine, end) <==>
              (ents[p].addr < start ==> ents[p].sub.None?) &&
              (end < SpanEnd(ents, segEnd, q - 1) ==> ents[q - 1].sub.None?))
  {
    var e := OwnEdit(ents, segEnd, me, start, end, p, q);
    OwnFits(ents, segEnd, me, start, end, p, q);
    EditSplices(ents, segEnd, e);
    SpliceIncreasing(ents, p, q, Mid(e));
    PointwiseExactly(ents, segEnd, e);
    assert Hit(ents, segEnd, start, end, p) && Hit(ents, segEnd, start, end, q - 1);
    if ents[p].addr < start {
      CutHostIsRaw(ents, segEnd, me, start, end, p);
    }
    if end < SpanEnd(ents, segEnd, q - 1) {
      CutHostIsRaw(ents, segEnd, me, start, end, q - 1);
    }
    assert SpanEnd(ents, segEnd, q - 1) <= segEnd;
  }

  /** A host that is cut is raw, so the refusal for a slice that would end inside
      the file's own old one is never reached. */
  lemma CutHostIsRaw(ents: seq<Entry>, segEnd: nat, me: string, start: nat, end: nat, k: nat)
    requires Tidy(ents, segEnd) && start < end && Hit(ents, segEnd, start, end, k)
    requires MayOwn(ents, segEnd, me, start, end)
    requires ents[k].addr < start || end < SpanEnd(ents, segEnd, k)
    ensures ents[k].typ == RAW
  {
    if HitRefused(ents, me, k) {
      RefusedIsTaken(ents, segEnd, me, start, end, k);
    }
    if OldOutside(ents, segEnd, me, start, end, k) {
      OutsideIsOwned(ents, segEnd, me, start, end, k);
    }
  }

  // ----- rodata_subsegment and c_subsegment -----

  /** The entry with the greatest start not above `x`. */
  ghost predicate Host(ents: seq<Entry>, x: nat, k: nat) {
    k < |ents| && ents[k].addr <= x && (k + 1 < |ents| ==> x < ents[k + 1].addr)
  }

  predicate RoomAt(ents: seq<Entry>, k: nat, end: nat) { k + 1 < |ents| ==> end <= ents[k + 1].addr }

  /** `rest` is the type of the entry put behind the new one. */
  function InsertEdit(ents: seq<Entry>, k: nat, mine: Entry, end: nat, rest: string): Edit
    requires k < |ents|
  {
    Edit(k, k + 1,
      if ents[k].addr == mine.addr then None else Some(ents[k]),
      mine, end,
      if k + 1 < |ents| && ents[k + 1].addr == end then None else Some(Entry(end, rest, None)))
  }

  /** The owners after an insertion: outside [start, end) nothing changes exactly
      when no named or foreign host is left behind the new entry. */
  lemma InsertMeans(ents: seq<Entry>, segEnd: nat, k: nat, mine: Entry, end: nat, rest: string)
    requires Within(ents, segEnd) && mine.addr < end && mine.addr <= segEnd
    requires Host(ents, mine.addr, k) && RoomAt(ents, k, end)
    ensures var e := InsertEdit(ents, k, mine, end, rest);
            EditFits(ents, segEnd, e) && Increasing(Apply(ents, e)) &&
            (Pointwise(ents, Apply(ents, e), segEnd, mine, end) <==>
              end >= SpanEnd(ents, segEnd, k) || Of(ents[k]) == By(rest, None))
  {
    var e := InsertEdit(ents, k, mine, end, rest);
    EditSplices(ents, segEnd, e);
    SpliceIncreasing(ents, k, k + 1, Mid(e));
    PointwiseExactly(ents, segEnd, e);
  }

  /** The file has one entry afterwards exactly when it had none, or only the one
      whose line is taken over. */
  lemma InsertOneEntryExactly(ents: seq<Entry>, segEnd: nat, k: nat, me: string, mine: Entry, end: nat, rest: string)
    requires Within(ents, segEnd) && mine.addr < end && Host(ents, mine.addr, k) && RoomAt(ents, k, end)
    requires mine.sub == Some(me)
    ensures OneEntry(Apply(ents, InsertEdit(ents, k, mine, end, rest)), me)
       <==> forall j: nat :: Named(ents, me, j) ==> j == k && ents[k].addr == mine.addr
  {
    var e := InsertEdit(ents, k, mine, end, rest);
    if j: nat :| Named(ents, me, j) && !(j == k && ents[k].addr == mine.addr) {
      StillNamed(ents, k, me, mine, end, rest, j);
    } else {
      assert Named(ents, me, k) ==> ents[k].addr == mine.addr;
      EditOneEntry(ents, segEnd, e, me);
    }
  }

  /** An entry of the file's that is not taken over stands beside the new one. */
  lemma StillNamed(ents: seq<Entry>, k: nat, me: string, mine: Entry, end: nat, rest: string, j: nat)
    requires k < |ents| && mine.sub == Some(me)
    requires Named(ents, me, j) && !(j == k && ents[k].addr == mine.addr)
    ensures !OneEntry(Apply(ents, InsertEdit(ents, k, mine, end, rest)), me)
  {
    var e := InsertEdit(ents, k, mine, end, rest);
    var out, mid := Apply(ents, e), Mid(e);
    var at := k + |List(e.head)|;
    var there := if j <= k then j else j - 1 + |mid|;
    assert mid[|List(e.head)|] == mine;
    assert out[at] == mine && out[there] == ents[j];
    assert Named(out, me, at) && Named(out, me, there);
  }

  /** A file given a second range behind its first has two entries. */
  lemma SecondEntryLeft(name: string)
    ensures var ents := [Entry(0x1000, LINKED, Some(name)), Entry(0x1100, RAW, None)];
            var mine := Entry(0x1800, LINKED, Some(name));
            Ordered(ents, 0x2000) && Takes(ents, 0x1800, 0x1900, RAW, 1) &&
            !OneEntry(Apply(ents, InsertEdit(ents, 1, mine, 0x1900, RAW)), name)
  {
    var ents := [Entry(0x1000, LINKED, Some(name)), Entry(0x1100, RAW, None)];
    assert Named(ents, name, 0);
    InsertOneEntryExactly(ents, 0x2000, 1, name, Entry(0x1800, LINKED, Some(name)), 0x1900, RAW);
  }

  /** The map stays one whose every entry owns something, except that an insertion
      up to the segment's end behind the last entry leaves an empty one there. */
  lemma InsertOrderedExactly(ents: seq<Entry>, segEnd: nat, k: nat, mine: Entry, end: nat, rest: string)
    requires Ordered(ents, segEnd) && mine.addr < end && mine.addr < segEnd
    requires Host(ents, mine.addr, k) && RoomAt(ents, k, end)
    ensures Ordered(Apply(ents, InsertEdit(ents, k, mine, end, rest)), segEnd)
       <==> (k + 1 < |ents| || end < segEnd)
  {
    var e := InsertEdit(ents, k, mine, end, rest);
    EditSplices(ents, segEnd, e);
    SpliceIncreasing(ents, k, k + 1, Mid(e));
    var out := Apply(ents, e);
    if k + 1 < |ents| {
      assert out[|out| - 1] == ents[|ents| - 1];
    } else {
      assert out[|out| - 1] == e.tail.value;
    }
  }

  /** The whole of a one-entry segment taken from its middle on. */
  lemma EmptyEntryLeft(name: string)
    ensures var ents, mine := [Entry(0x1000, RAW, None)], Entry(0x1800, LINKED, Some(name));
            var after := Apply(ents, InsertEdit(ents, 0, mine, 0x2000, RAW));
            Ordered(ents, 0x2000) && !Ordered(after, 0x2000) && Tidy(after, 0x2000)
  {
    var ents := [Entry(0x1000, RAW, None)];
    var e := InsertEdit(ents, 0, Entry(0x1800, LINKED, Some(name)), 0x2000, RAW);
    assert Apply(ents, e) == Mid(e);
  }

  ghost predicate Takes(ents: seq<Entry>, start: nat, end: nat, want: string, k: nat) {
    Host(ents, start, k) && RoomAt(ents, k, end) && ents[k].typ == want
  }

  lemma InsertedList(was: seq<Entry>, base: seq<Entry>, k: nat, mine: Entry, end: nat, rest: string,
                     texts: seq<Entry>)
    requires k < |was|
    requires base == if was[k].addr == mine.addr then was[k := mine] else was
    requires var e := InsertEdit(was, k, mine, end, rest);
             texts == (if e.head.Some? then [mine] else []) + List(e.tail)
    ensures base[..k + 1] + texts + base[k + 1..] == Apply(was, InsertEdit(was, k, mine, end, rest))
  {
    var e := InsertEdit(was, k, mine, end, rest);
    assert base[k + 1..] == was[k + 1..];
    if e.head.Some? {
      assert base[..k + 1] + texts == was[..k] + Mid(e);
    } else {
      assert base[..k + 1] + texts == was[..k] + Mid(e);
    }
  }

  // ----- the two rodata editors agree -----

  lemma OneHit(ents: seq<Entry>, segEnd: nat, start: nat, end: nat, k: nat)
    requires Tidy(ents, segEnd) && start < end && start < segEnd
    requires Host(ents, start, k) && RoomAt(ents, k, end)
    ensures Hits(ents, segEnd, start, end, k, k + 1)
  {
    forall j: nat ensures Hit(ents, segEnd, start, end, j) <==> k <= j < k + 1 {
      if j < k {
        assert ents[j + 1].addr <= ents[k].addr;
      } else if k < j < |ents| {
        assert ents[k + 1].addr <= ents[j].addr;
      }
    }
  }

  /** On a fresh slice inside one raw host both programs succeed, and write the same
      list exactly when the host's head has no name to lose and something of the
      segment is left behind the slice. */
  lemma EditorsAgreeExactly(ents: seq<Entry>, segEnd: nat, me: string, start: nat, end: nat, k: nat)
    requires Tidy(ents, segEnd) && start < end && start < segEnd
    requires Host(ents, start, k) && RoomAt(ents, k, end) && ents[k].typ == RAW
    requires forall j: nat :: !Named(ents, me, j)
    ensures MayOwn(ents, segEnd, me, start, end) && Hits(ents, segEnd, start, end, k, k + 1)
    ensures Apply(ents, OwnEdit(ents, segEnd, me, start, end, k, k + 1))
         == Apply(ents, InsertEdit(ents, k, Entry(start, LINKED, Some(me)), end, RAW))
       <==> (ents[k].addr == start || ents[k].sub.None?) && (k + 1 < |ents| || end < segEnd)
  {
    OneHit(ents, segEnd, start, end, k);
    forall j: nat ensures !OldOutside(ents, segEnd, me, start, end, j) {
      assert !Named(ents, me, j);
    }
    NoneRefused(ents, segEnd, me, start, end, k, k + 1);
    var own := OwnEdit(ents, segEnd, me, start, end, k, k + 1);
    var ins := InsertEdit(ents, k, Entry(start, LINKED, Some(me)), end, RAW);
    if own.tail != ins.tail {
      assert |Apply(ents, own)| + 1 == |Apply(ents, ins)|;
    } else if own.head != ins.head {
      assert Apply(ents, own)[k] == own.head.value && Apply(ents, ins)[k] == ins.head.value;
    }
  }

  // ----- the editors -----

  datatype Outcome =
    | Done
    | Reaches(sub: Option<string>, at: nat)
    | OldSlice(from: nat, to: nat)
    | NoHost
    | WrongHost(typ: string)
    | Crosses(next: nat)

  class Segment {
    var entries: seq<Entry>
    const segEnd: nat

    constructor (entries: seq<Entry>, segEnd: nat)
      ensures this.entries == entries && this.segEnd == segEnd
    {
      this.entries, this.segEnd := entries, segEnd;
    }

    /** The range of entries that meet [start, end). */
    method FindHits(start: nat, end: nat) returns (p: nat, q: nat)
      requires Tidy(entries, segEnd) && start < end
      ensures Hits(entries, segEnd, start, end, p, q)
    {
      p := 0;
      while p < |entries| && SpanEnd(entries, segEnd, p) <= start
        invariant p <= |entries|
        invariant forall k: nat :: k < p ==> !Hit(entries, segEnd, start, end, k)
      {
        p := p + 1;
      }
      q := p;
      while q < |entries| && entries[q].addr < end
        invariant p <= q <= |entries|
        invariant p < |entries| ==> start < SpanEnd(entries, segEnd, p)
        invariant forall k: nat :: k < p ==> !Hit(entries, segEnd, start, end, k)
        invariant forall k: nat :: p <= k < q ==> Hit(entries, segEnd, start, end, k)
      {
        q := q + 1;
      }
    }

    /** The refusals of `own_slice`, in its order. */
    method WhyNot(me: string, start: nat, end: nat, p: nat, q: nat) returns (r: Outcome)
      requires Tidy(entries, segEnd) && start < end && Hits(entries, segEnd, start, end, p, q)
      ensures r.Done? <==> MayOwn(entries, segEnd, me, start, end)
      ensures r.Done? ==> p < q && forall j: nat :: j < |entries| ==> !OldOutside(entries, segEnd, me, start, end, j)
      ensures !r.WrongHost? && !r.Crosses?
    {
      var k := p;
      while k < q
        invariant p <= k <= q
        invariant forall j: nat :: p <= j < k ==> !HitRefused(entries, me, j)
      {
        if HitRefused(entries, me, k) {
          RefusedIsTaken(entries, segEnd, me, start, end, k);
          return Reaches(entries[k].sub, entries[k].addr);
        }
        k := k + 1;
      }
      k := 0;
      while k < |entries|
        invariant k <= |entries|
        invariant forall j: nat :: j < k ==> !OldOutside(entries, segEnd, me, start, end, j)
      {
        if OldOutside(entries, segEnd, me, start, end, k) {
          OutsideIsOwned(entries, segEnd, me, start, end, k);
          return OldSlice(entries[k].addr, SpanEnd(entries, segEnd, k));
        }
        k := k + 1;
      }
      if p == q {
        NothingHit(entries, segEnd, me, start, end, p);
        return NoHost;
      }
      NoneRefused(entries, segEnd, me, start, end, p, q);
      return Done;
    }

    /** The lines written in place of those hit. */
    method Replacement(me: string, start: nat, end: nat, p: nat, q: nat) returns (mid: seq<Entry>)
      requires Tidy(entries, segEnd) && start < end && Hits(entries, segEnd, start, end, p, q) && p < q
      requires MayOwn(entries, segEnd, me, start, end)
      ensures mid == Mid(OwnEdit(entries, segEnd, me, start, end, p, q))
    {
      mid := [];
      if entries[p].addr < start {
        mid := mid + [Entry(entries[p].addr, RAW, None)];
      }
      mid := mid + [Entry(start, LINKED, Some(me))];
      if end < SpanEnd(entries, segEnd, q - 1) {
        assert Hit(entries, segEnd, start, end, q - 1);
        CutHostIsRaw(entries, segEnd, me, start, end, q - 1);
        if entries[q - 1].typ != RAW {
          assert false;   // the source's last refusal
        }
        mid := mid + [Entry(end, RAW, None)];
      }
    }

    method OwnSlice(name: string, start: nat, end: nat) returns (r: Outcome)
      requires Tidy(entries, segEnd) && start < end
      modifies this
      ensures r.Done? <==> MayOwn(old(entries), segEnd, "code/" + name, start, end)
      ensures !r.WrongHost? && !r.Crosses?
      ensures !r.Done? ==> entries == old(entries)
      ensures r.Done? ==> OwnEdited(old(entries), segEnd, "code/" + name, start, end, entries)
      ensures r.Done? ==> Tidy(entries, segEnd) && (Ordered(old(entries), segEnd) ==> Ordered(entries, segEnd))
      ensures r.Done? ==> OneEntry(entries, "code/" + name)
    {
      var me := "code/" + name;
      var p, q := FindHits(start, end);
      r := WhyNot(me, start, end, p, q);
      if r.Done? {
        OwnOneEntry(entries, segEnd, me, start, end, p, q);
        OwnTidy(entries, segEnd, me, start, end, p, q);
        var mid := Replacement(me, start, end, p, q);
        entries := entries[..p] + mid + entries[q..];
      }
    }

    /** The entry that holds `x`, if the segment begins at or before it. */
    method FindHost(x: nat) returns (k: nat)
      requires entries != [] && Increasing(entries) && entries[0].addr <= x
      ensures Host(entries, x, k)
    {
      k := 0;
      while k + 1 < |entries| && entries[k + 1].addr <= x
        invariant k < |entries| && entries[k].addr <= x
      {
        k := k + 1;
      }
    }

    method InsertTexts(at: nat, texts: seq<Entry>)
      requires at <= |entries|
      modifies this
      ensures entries == old(entries)[..at] + texts + old(entries)[at..]
    {
      var j := 0;
      while j < |texts|
        invariant j <= |texts|
        invariant entries == old(entries)[..at] + texts[..j] + old(entries)[at..]
      {
        assert texts[..j + 1] == texts[..j] + [texts[j]];
        entries := entries[..at + j] + [texts[j]] + entries[at + j..];
        j := j + 1;
      }
    }

    /** Take the host's line over or insert behind it, then insert what is left. */
    method Insert(k: nat, mine: Entry, end: nat, rest: string)
      requires k < |entries|
      modifies this
      ensures entries == Apply(old(entries), InsertEdit(old(entries), k, mine, end, rest))
    {
      ghost var was := entries;
      var texts := [];
      var nextIsEnd := k + 1 < |entries| && entries[k + 1].addr == end;
      if entries[k].addr == mine.addr {
        entries := entries[k := mine];
      } else {
        texts := [mine];
      }
      if !nextIsEnd {
        texts := texts + [Entry(end, rest, None)];
      }
      ghost var base := entries;
      InsertTexts(k + 1, texts);
      InsertedList(was, base, k, mine, end, rest, texts);
    }

    /** What `rodata_subsegment` and `c_subsegment` share: one host of the type
        `want`, with room for the whole range. */
    method InsertInHost(mine: Entry, end: nat, want: string) returns (r: Outcome)
      requires entries != [] && Increasing(entries) && mine.addr < end
      modifies this
      ensures r.NoHost? <==> mine.addr < old(entries)[0].addr
      ensures r.Done? <==> exists k :: Takes(old(entries), mine.addr, end, want, k)
      ensures !r.Done? ==> entries == old(entries)
      ensures forall k :: Takes(old(entries), mine.addr, end, want, k) ==>
        entries == Apply(old(entries), InsertEdit(old(entries), k, mine, end, want))
    {
      if mine.addr < entries[0].addr {
        return NoHost;
      }
      var k := FindHost(mine.addr);
      if entries[k].typ != want {
        return WrongHost(entries[k].typ);
      }
      if k + 1 < |entries| && entries[k + 1].addr < end {
        return Crosses(entries[k + 1].addr);
      }
      assert Takes(entries, mine.addr, end, want, k);
      Insert(k, mine, end, want);
      return Done;
    }

    method RodataSubsegment(name: string, start: nat, end: nat) returns (r: Outcome)
      requires entries != [] && Increasing(entries) && start < end
      modifies this
      ensures r.Done? <==> exists k :: Takes(old(entries), start, end, RAW, k)
      ensures !r.Done? ==> entries == old(entries)
      ensures forall k :: Takes(old(entries), start, end, RAW, k) ==>
        entries == Apply(old(entries),
                         InsertEdit(old(entries), k, Entry(start, LINKED, Some("code/" + name)), end, RAW))
    {
      r := InsertInHost(Entry(start, LINKED, Some("code/" + name)), end, RAW);
    }

    method CSubsegment(name: string, start: nat, end: nat) returns (r: Outcome)
      requires entries != [] && Increasing(entries) && start < end
      modifies this
      ensures r.Done? <==> exists k :: Takes(old(entries), start, end, "asm", k)
      ensures !r.Done? ==> entries == old(entries)
      ensures forall k :: Takes(old(entries), start, end, "asm", k) ==>
        entries == Apply(old(entries), InsertEdit(old(entries), k, Entry(start, "c", Some(name)), end, "asm"))
    {
      r := InsertInHost(Entry(start, "c", Some(name)), end, "asm");
    }
  }
}
