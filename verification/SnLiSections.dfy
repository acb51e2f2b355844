/** The sections of a file that tools/sn_li.py expands. The pool is written out as
    `.section .rodata` in front of cc1's next section directive, and the assembler
    remembers it: directives that look back see .rodata. */
module SnLiSections {
  import opened Prelude
  import opened Mips
  import opened SnLiDivide
  import opened SnLi
  import opened SnLiPool

  /** The assembler's section state. */
  datatype Secs = Secs(cur: string, prev: string, stack: seq<(string, string)>)

  function Enter(d: SecDir, s: Secs): Secs {
    match d
    case Absolute(name) => Secs(name, s.cur, s.stack)
    case Previous => Secs(s.prev, s.cur, s.stack)
    case PushSection(name) => Secs(name, s.cur, s.stack + [(s.cur, s.prev)])
    case PopSection =>
      if s.stack == [] then s
      else Secs(s.stack[|s.stack| - 1].0, s.stack[|s.stack| - 1].1, s.stack[..|s.stack| - 1])
  }

  /** Every line with the section it is assembled into. */
  function Placed(items: seq<Item>, s: Secs): seq<(Item, string)>
    decreases |items|
  {
    if items == [] then []
    else if items[0].Section? then Placed(items[1..], Enter(items[0].d, s))
    else [(items[0], s.cur)] + Placed(items[1..], s)
  }

  function After(items: seq<Item>, s: Secs): Secs
    decreases |items|
  {
    if items == [] then s
    else After(items[1..], if items[0].Section? then Enter(items[0].d, s) else s)
  }

  function NotPool(p: seq<(Item, string)>): seq<(Item, string)> {
    if p == [] then [] else (if p[0].0.Literal? then [] else [p[0]]) + NotPool(p[1..])
  }

  /** The file with every line expanded where it stands, and no pool at all. */
  function Unpooled(items: seq<Item>, st: St): seq<Item>
    decreases |items|
  {
    if items == [] then []
    else
      Own(items[0], st) + Unpooled(items[1..], NextSt(items[0], st))
  }

  lemma {:induction false} PlacedAppend(x: seq<Item>, y: seq<Item>, s: Secs)
    ensures Placed(x + y, s) == Placed(x, s) + Placed(y, After(x, s))
    decreases |x|
  {
    if x == [] {
      assert x + y == y;
    } else {
      assert (x + y)[1..] == x[1..] + y;
      PlacedAppend(x[1..], y, if x[0].Section? then Enter(x[0].d, s) else s);
    }
  }

  lemma {:induction false} NotPoolAppend(p: seq<(Item, string)>, q: seq<(Item, string)>)
    ensures NotPool(p + q) == NotPool(p) + NotPool(q)
    decreases |p|
  {
    if p == [] {
      assert p + q == q;
    } else {
      assert (p + q)[1..] == p[1..] + q;
      NotPoolAppend(p[1..], q);
    }
  }

  lemma {:induction false} NoSections(x: seq<Item>, s: Secs)
    requires forall k :: 0 <= k < |x| ==> !x[k].Section?
    ensures After(x, s) == s && |Placed(x, s)| == |x|
    ensures forall k :: 0 <= k < |x| ==> Placed(x, s)[k] == (x[k], s.cur)
    decreases |x|
  {
    if x != [] {
      NoSections(x[1..], s);
    }
  }

  lemma {:induction false} AllPool(p: seq<(Item, string)>)
    requires forall k :: 0 <= k < |p| ==> p[k].0.Literal?
    ensures NotPool(p) == []
    decreases |p|
  {
    if p != [] {
      AllPool(p[1..]);
    }
  }

  /** A written pool makes .rodata the section in force. */
  function Flushed(pool: seq<Item>, s: Secs): Secs {
    if pool == [] then s else Secs(RODATA, s.cur, s.stack)
  }

  lemma FlushPlaced(pool: seq<Item>, s: Secs)
    requires forall k :: 0 <= k < |pool| ==> pool[k].Literal?
    ensures After(Flush(pool), s) == Flushed(pool, s) && NotPool(Placed(Flush(pool), s)) == []
    ensures forall k :: 0 <= k < |Placed(Flush(pool), s)| ==> Placed(Flush(pool), s)[k].1 == RODATA
  {
    if pool != [] {
      assert Flush(pool)[1..] == pool;
      var s' := Enter(Absolute(RODATA), s);
      NoSections(pool, s');
      AllPool(Placed(pool, s'));
    }
  }

  // ----- what a flush does to the directive behind it -----

  /** The section entered behind a flush, and what is remembered there, beside the
      same directive without one. */
  lemma FlushEffect(pool: seq<Item>, s: Secs, name: string)
    requires pool != [] && forall k :: 0 <= k < |pool| ==> pool[k].Literal?
    ensures var f := After(Flush(pool), s);
            Enter(Absolute(name), f) == Enter(Absolute(name), s).(prev := RODATA) &&
            Enter(Previous, f) == Secs(s.cur, RODATA, s.stack) &&
            Enter(PushSection(name), f) == Secs(name, RODATA, s.stack + [(RODATA, s.cur)]) &&
            Enter(PushSection(name), s) == Secs(name, s.cur, s.stack + [(s.cur, s.prev)]) &&
            Enter(PopSection, f) == if s.stack == [] then f else Enter(PopSection, s)
  {
    FlushPlaced(pool, s);
  }

  /** Does the directive lead to the same section with and without the flush? */
  predicate Harmless(d: SecDir, s: Secs) {
    match d
    case Absolute(_) => true
    case PushSection(_) => true
    case Previous => s.cur == s.prev
    case PopSection => s.stack != [] || s.cur == RODATA
  }

  lemma FlushHarmlessExactly(pool: seq<Item>, d: SecDir, s: Secs)
    requires pool != [] && forall k :: 0 <= k < |pool| ==> pool[k].Literal?
    ensures Enter(d, After(Flush(pool), s)).cur == Enter(d, s).cur <==> Harmless(d, s)
  {
    FlushPlaced(pool, s);
  }

  // ----- which files keep their sections -----

  /** Read the directives twice, with .rodata entered at each flush and without: at
      every line of the file the section is the same. */
  predicate InStep(items: seq<Item>, st: St, s: Secs, s': Secs)
    decreases |items|
  {
    items == [] ||
    var next := NextSt(items[0], st);
    if items[0].Section? then InStep(items[1..], next, Enter(items[0].d, s), Enter(items[0].d, Flushed(st.pool, s')))
    else s.cur == s'.cur && InStep(items[1..], next, s, s')
  }

  lemma SectionTurn(item: Item, pool: seq<Item>, rest: seq<Item>, plain: seq<Item>, s: Secs, s': Secs)
    requires item.Section? && forall k :: 0 <= k < |pool| ==> pool[k].Literal?
    ensures NotPool(Placed(Flush(pool) + [item] + rest, s')) == NotPool(Placed(rest, Enter(item.d, Flushed(pool, s'))))
    ensures Placed([item] + plain, s) == Placed(plain, Enter(item.d, s))
  {
    var flush := Flush(pool);
    FlushPlaced(pool, s');
    assert flush + [item] + rest == flush + ([item] + rest);
    PlacedAppend(flush, [item] + rest, s');
    NotPoolAppend(Placed(flush, s'), Placed([item] + rest, Flushed(pool, s')));
    assert ([item] + rest)[1..] == rest && ([item] + plain)[1..] == plain;
  }

  lemma LineTurn(own: seq<Item>, rest: seq<Item>, plain: seq<Item>, s: Secs, s': Secs)
    requires own != [] && forall k :: 0 <= k < |own| ==> !own[k].Literal? && !own[k].Section?
    ensures NotPool(Placed(own + rest, s')) == Placed(own + plain, s)
       <==> s.cur == s'.cur && NotPool(Placed(rest, s')) == Placed(plain, s)
  {
    NoSections(own, s);
    NoSections(own, s');
    PlacedAppend(own, rest, s');
    PlacedAppend(own, plain, s);
    NotPoolAppend(Placed(own, s'), Placed(rest, s'));
    NothingPooled(Placed(own, s'));
    var x, y := Placed(own, s'), Placed(own, s);
    var p, q := NotPool(Placed(rest, s')), Placed(plain, s);
    assert (x + p)[..|own|] == x && (x + p)[|own|..] == p && (y + q)[..|own|] == y && (y + q)[|own|..] == q;
    assert x[0] == (own[0], s'.cur) && y[0] == (own[0], s.cur);
    if s.cur == s'.cur {
      assert x == y;
    }
  }

  lemma {:induction false} NothingPooled(p: seq<(Item, string)>)
    requires forall k :: 0 <= k < |p| ==> !p[k].0.Literal?
    ensures NotPool(p) == p
    decreases |p|
  {
    if p != [] {
      NothingPooled(p[1..]);
      assert p == [p[0]] + p[1..];
    }
  }

  lemma OwnSome(item: Item, st: St)
    ensures Own(item, st) != []
  {
  }

  lemma {:induction false} InStepExactly(items: seq<Item>, st: St, s: Secs, s': Secs)
    requires Source(items) && PoolOk(st)
    ensures NotPool(Placed(Rewrite(items, st), s')) == Placed(Unpooled(items, st), s) <==> InStep(items, st, s, s')
    decreases |items|
  {
    if items == [] {
      FlushPlaced(st.pool, s');
    } else {
      var item, st' := items[0], NextSt(items[0], st);
      var own, rest, plain := Own(item, st), Rewrite(items[1..], st'), Unpooled(items[1..], st');
      OwnKinds(item, st);
      OwnSome(item, st);
      if item.Section? {
        InStepExactly(items[1..], st', Enter(item.d, s), Enter(item.d, Flushed(st.pool, s')));
        SectionTurn(item, st.pool, rest, plain, s, s');
      } else {
        InStepExactly(items[1..], st', s, s');
        LineTurn(own, rest, plain, s, s');
        assert FlushedBy(item, st.pool) + own == own;
      }
    }
  }

  /** Writing the pool out moves no line of the file to another section exactly when
      the directives, read with and without it, stay in step. */
  lemma SectionsKeptExactly(items: seq<Item>, s: Secs)
    requires Source(items)
    ensures NotPool(Placed(Rewrite(items, START), s)) == Placed(Unpooled(items, START), s) <==> InStep(items, START, s, s)
  {
    InStepExactly(items, START, s, s);
  }

  // ----- by the directives alone -----

  /** How much of a pushed section and its predecessor the flushes so far have left. */
  datatype Hold = Both | CurOnly | Neither

  /** The same of the section before this one, and of the stack. */
  datatype Sync = Sync(prev: bool, stack: seq<Hold>)

  predicate Holds(s: Secs, s': Secs, k: Sync) {
    s.cur == s'.cur && (k.prev ==> s.prev == s'.prev) && |s.stack| == |s'.stack| == |k.stack| &&
    forall i :: 0 <= i < |k.stack| ==>
      (k.stack[i] != Neither ==> s.stack[i].0 == s'.stack[i].0) && (k.stack[i] == Both ==> s.stack[i].1 == s'.stack[i].1)
  }

  function Popped(k: Sync): Option<Sync> {
    if k.stack == [] then Some(k)
    else
      var top, rest := k.stack[|k.stack| - 1], k.stack[..|k.stack| - 1];
      if top == Neither then None else Some(Sync(top == Both, rest))
  }

  /** What is left behind a directive; none if it looks back to what a flush hid. */
  function Behind(d: SecDir, k: Sync, flush: bool): Option<Sync> {
    match d
    case Absolute(_) => Some(Sync(!flush, k.stack))
    case Previous => if flush || !k.prev then None else Some(k)
    case PushSection(_) =>
      Some(Sync(!flush, k.stack + [if flush then Neither else if k.prev then Both else CurOnly]))
    case PopSection => if flush && k.stack == [] then None else Popped(k)
  }

  /** No directive looks back to what a flush hid. */
  predicate Keeps(items: seq<Item>, st: St, k: Sync)
    decreases |items|
  {
    items == [] ||
    if items[0].Section? then
      var next := Behind(items[0].d, k, st.pool != []);
      next.Some? && Keeps(items[1..], NextSt(items[0], st), next.value)
    else Keeps(items[1..], NextSt(items[0], st), k)
  }

  lemma SyncStep(d: SecDir, s: Secs, s': Secs, k: Sync, pool: seq<Item>)
    requires Holds(s, s', k) && Behind(d, k, pool != []).Some?
    ensures Holds(Enter(d, s), Enter(d, Flushed(pool, s')), Behind(d, k, pool != []).value)
  {
  }

  lemma {:induction false} KeepsInStep(items: seq<Item>, st: St, s: Secs, s': Secs, k: Sync)
    requires Holds(s, s', k) && Keeps(items, st, k)
    ensures InStep(items, st, s, s')
    decreases |items|
  {
    if items != [] {
      var next := NextSt(items[0], st);
      if items[0].Section? {
        SyncStep(items[0].d, s, s', k, st.pool);
        KeepsInStep(items[1..], next, Enter(items[0].d, s), Enter(items[0].d, Flushed(st.pool, s')),
                    Behind(items[0].d, k, st.pool != []).value);
      } else {
        KeepsInStep(items[1..], next, s, s', k);
      }
    }
  }

  function Untouched(depth: nat): Sync { Sync(true, seq(depth, _ => Both)) }

  /** Every line stays in its section, and the pool itself is in .rodata, when no
      directive looks back to what a flush hid. */
  lemma SectionsKept(items: seq<Item>, s: Secs)
    requires Source(items) && Keeps(items, START, Untouched(|s.stack|))
    ensures NotPool(Placed(Rewrite(items, START), s)) == Placed(Unpooled(items, START), s)
    ensures PoolPlaced(Placed(Rewrite(items, START), s))
  {
    KeepsInStep(items, START, s, s, Untouched(|s.stack|));
    SectionsKeptExactly(items, s);
    PoolInRodata(items, START, s);
  }

  predicate OnlyAbsolute(items: seq<Item>) {
    forall k :: 0 <= k < |items| ==> items[k].Section? ==> items[k].d.Absolute?
  }

  /** No relative directive stands at or behind the first flush. */
  predicate Settled(items: seq<Item>, st: St)
    decreases |items|
  {
    items == [] ||
    if items[0].Section? && st.pool != [] then OnlyAbsolute(items)
    else Settled(items[1..], NextSt(items[0], st))
  }

  lemma {:induction false} AbsoluteKeeps(items: seq<Item>, st: St, k: Sync)
    requires OnlyAbsolute(items)
    ensures Keeps(items, st, k)
    decreases |items|
  {
    if items != [] {
      AbsoluteKeeps(items[1..], NextSt(items[0], st),
                    if items[0].Section? then Sync(st.pool == [], k.stack) else k);
    }
  }

  /** Such files keep their sections, whatever the directives before. */
  lemma {:induction false} SettledKeeps(items: seq<Item>, st: St, k: Sync)
    requires Settled(items, st) && k.prev && forall i :: 0 <= i < |k.stack| ==> k.stack[i] == Both
    ensures Keeps(items, st, k)
    decreases |items|
  {
    if items != [] {
      if items[0].Section? && st.pool != [] {
        AbsoluteKeeps(items, st, k);
      } else if items[0].Section? {
        SettledKeeps(items[1..], NextSt(items[0], st), Behind(items[0].d, k, false).value);
      } else {
        SettledKeeps(items[1..], NextSt(items[0], st), k);
      }
    }
  }

  // ----- the files that do not -----

  lemma LineInStep(line: Line, st: St, s: Secs, s': Secs)
    ensures InStep([Asm(line)], st, s, s') <==> s.cur == s'.cur
  {
    assert [Asm(line)][1..] == [];
  }

  lemma DirInStep(d: SecDir, rest: seq<Item>, st: St, s: Secs, s': Secs)
    ensures InStep([Section(d)] + rest, st, s, s')
       <==> InStep(rest, NextSt(Section(d), st), Enter(d, s), Enter(d, Flushed(st.pool, s')))
  {
    assert ([Section(d)] + rest)[1..] == rest;
  }

  /** A float, then `rest`. */
  function Floating(rest: seq<Item>): seq<Item> { [LiFloat(false, 0, 1)] + rest }

  lemma FloatInStep(rest: seq<Item>, s: Secs)
    ensures InStep(Floating(rest), START, s, s) <==> InStep(rest, St(1, 1, false, [Literal(1, false, 1)]), s, s)
  {
    assert Floating(rest)[1..] == rest;
    assert NextSt(LiFloat(false, 0, 1), START) == St(1, 1, false, [Literal(1, false, 1)]);
  }

  /** A float, one directive and a line. */
  lemma OneDirective(d: SecDir, line: Line, s: Secs)
    ensures InStep(Floating([Section(d)] + [Asm(line)]), START, s, s) <==> Harmless(d, s)
  {
    var st := St(1, 1, false, [Literal(1, false, 1)]);
    FloatInStep([Section(d)] + [Asm(line)], s);
    DirInStep(d, [Asm(line)], st, s, s);
    LineInStep(line, NextSt(Section(d), st), Enter(d, s), Enter(d, Flushed(st.pool, s)));
  }

  /** A float, two directives and a line. */
  lemma TwoDirectives(d: SecDir, e: SecDir, line: Line, s: Secs)
    ensures InStep(Floating([Section(d)] + ([Section(e)] + [Asm(line)])), START, s, s)
       <==> Enter(e, Enter(d, s)).cur == Enter(e, Enter(d, Secs(RODATA, s.cur, s.stack))).cur
  {
    var st := St(1, 1, false, [Literal(1, false, 1)]);
    var st', s1, s1' := NextSt(Section(d), st), Enter(d, s), Enter(d, Flushed(st.pool, s));
    FloatInStep([Section(d)] + ([Section(e)] + [Asm(line)]), s);
    DirInStep(d, [Section(e)] + [Asm(line)], st, s, s);
    DirInStep(e, [Asm(line)], st', s1, s1');
    LineInStep(line, NextSt(Section(e), st'), Enter(e, s1), Enter(e, s1'));
  }

  /** Four files that lose a section: `.previous` at the flush; a `.popsection` there
      that has nothing to pop; `.previous` behind a flush at `.data`; `.pushsection`
      at the flush and its `.popsection`. */
  lemma SectionsLost(line: Line)
    ensures var s := Secs(".text", ".sdata", []);
            !InStep(Floating([Section(Previous)] + [Asm(line)]), START, s, s) &&
            !InStep(Floating([Section(PopSection)] + [Asm(line)]), START, s, s) &&
            !InStep(Floating([Section(Absolute(".data"))] + ([Section(Previous)] + [Asm(line)])), START, s, s) &&
            !InStep(Floating([Section(PushSection(".data"))] + ([Section(PopSection)] + [Asm(line)])), START, s, s)
  {
    var s := Secs(".text", ".sdata", []);
    OneDirective(Previous, line, s);
    OneDirective(PopSection, line, s);
    TwoDirectives(Absolute(".data"), Previous, line, s);
    TwoDirectives(PushSection(".data"), PopSection, line, s);
  }

  ghost predicate PoolPlaced(p: seq<(Item, string)>) {
    forall k :: 0 <= k < |p| ==> p[k].0.Literal? ==> p[k].1 == RODATA
  }

  lemma {:induction false} PoolInRodata(items: seq<Item>, st: St, s: Secs)
    requires Source(items) && PoolOk(st)
    ensures PoolPlaced(Placed(Rewrite(items, st), s))
    decreases |items|
  {
    if items == [] {
      FlushPlaced(st.pool, s);
    } else {
      var item, st' := items[0], NextSt(items[0], st);
      OwnKinds(item, st);
      var flush, own, rest := FlushedBy(item, st.pool), Own(item, st), Rewrite(items[1..], st');
      PoolInRodata(items[1..], st', After(own, After(flush, s)));
      FlushPlaced(st.pool, s);
      PoolTurn(flush, own, rest, s);
    }
  }

  lemma PoolPlacedAppend(x: seq<Item>, y: seq<Item>, s: Secs)
    requires PoolPlaced(Placed(x, s)) && PoolPlaced(Placed(y, After(x, s)))
    ensures PoolPlaced(Placed(x + y, s))
  {
    PlacedAppend(x, y, s);
  }

  lemma PoolTurn(flush: seq<Item>, own: seq<Item>, rest: seq<Item>, s: Secs)
    requires PoolPlaced(Placed(flush, s)) && PoolPlaced(Placed(rest, After(own, After(flush, s))))
    requires forall k :: 0 <= k < |own| ==> !own[k].Literal?
    ensures PoolPlaced(Placed(flush + own + rest, s))
  {
    OwnPlaced(own, After(flush, s));
    PoolPlacedAppend(own, rest, After(flush, s));
    PoolPlacedAppend(flush, own + rest, s);
    assert flush + own + rest == flush + (own + rest);
  }

  lemma OwnPlaced(own: seq<Item>, s: Secs)
    requires forall k :: 0 <= k < |own| ==> !own[k].Literal?
    ensures forall k :: 0 <= k < |Placed(own, s)| ==> !Placed(own, s)[k].0.Literal?
    decreases |own|
  {
    if own != [] {
      OwnPlaced(own[1..], if own[0].Section? then Enter(own[0].d, s) else s);
    }
  }
}
