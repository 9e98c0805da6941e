/**
  The rule by which `ld --start-group` takes archive members (blink-js/src/link-selection.ts): the
  table of names it keeps, the passes over the archives, and what both keep.
 */
module LinkRule {

  import opened Sets

  datatype Binding = Local | Global | Weak | Unique | OtherBinding

  datatype Kind = SectionSymbol | FileSymbol | OtherKind

  datatype Place = UndefinedPlace | CommonPlace | LargeCommonPlace | AbsolutePlace | InSection(index: nat)

  datatype Symbol = Symbol(name: string, binding: Binding, kind: Kind, place: Place, value: int)

  type Object = seq<Symbol>

  // Where a name stands. A name the table does not hold stands below them all.
  datatype NameState = WeakUndefined | Undefined | Common | Defined

  type Table = map<string, NameState>

  predicate IsCommon(s: Symbol) {
    s.place == CommonPlace || s.place == LargeCommonPlace
  }

  predicate IsVisible(s: Symbol) {
    s.name != "" && s.binding != Local && s.kind != SectionSymbol && s.kind != FileSymbol
  }

  predicate IsIndexed(s: Symbol) {
    && s.place != UndefinedPlace
    && (s.binding == Global || s.binding == Weak || s.binding == Unique || IsCommon(s))
  }

  function Visible(o: Object): (v: seq<Symbol>)
    ensures forall s :: s in v <==> s in o && IsVisible(s)
  {
    if o == [] then [] else (if IsVisible(o[0]) then [o[0]] else []) + Visible(o[1..])
  }

  predicate DefinesReally(symbols: seq<Symbol>, name: string) {
    exists s :: s in symbols && s.name == name && s.place != UndefinedPlace && !IsCommon(s)
  }

  // ---------------------------------------------------------------------------------------------
  // The table of names
  // ---------------------------------------------------------------------------------------------

  function TakeSymbol(t: Table, s: Symbol): Table {
    if s.place == UndefinedPlace then
      if s.name !in t then t[s.name := if s.binding == Weak then WeakUndefined else Undefined]
      else if t[s.name] == WeakUndefined && s.binding != Weak then t[s.name := Undefined]
      else t
    else if IsCommon(s) then
      if s.name !in t || t[s.name] != Defined then t[s.name := Common] else t
    else t[s.name := Defined]
  }

  function TakeAll(t: Table, symbols: seq<Symbol>): Table
    decreases |symbols|
  {
    if symbols == [] then t
    else TakeSymbol(TakeAll(t, symbols[..|symbols| - 1]), symbols[|symbols| - 1])
  }

  predicate WantsName(t: Table, name: string, really: bool) {
    name in t && (t[name] == Undefined || (t[name] == Common && really))
  }

  /** Absent, weakly needed, needed, common, defined: 0 to 4. */
  function Level(t: Table, name: string): (level: nat)
    ensures level <= 4
  {
    if name !in t then 0
    else match t[name] case WeakUndefined => 1 case Undefined => 2 case Common => 3 case Defined => 4
  }

  /** How far up one symbol takes its name. */
  function Rank(s: Symbol): nat {
    if s.place == UndefinedPlace then if s.binding == Weak then 1 else 2
    else if IsCommon(s) then 3 else 4
  }

  function Max(a: nat, b: nat): nat {
    if a < b then b else a
  }

  /** The highest rank any of the symbols gives `name`. */
  function Highest(symbols: seq<Symbol>, name: string): (h: nat)
  {
    if symbols == [] then 0
    else
      var s := symbols[|symbols| - 1];
      var rest := Highest(symbols[..|symbols| - 1], name);
      if s.name == name then Max(rest, Rank(s)) else rest
  }

  /** The highest rank bounds them all, and is one of them unless no symbol has the name. */
  lemma {:induction false} HighestIsGreatest(symbols: seq<Symbol>, name: string)
    ensures forall s :: s in symbols && s.name == name ==> Rank(s) <= Highest(symbols, name)
    ensures Highest(symbols, name) != 0 ==>
      exists s :: s in symbols && s.name == name && Rank(s) == Highest(symbols, name)
  {
    if symbols != [] {
      var front, last := symbols[..|symbols| - 1], symbols[|symbols| - 1];
      HighestIsGreatest(front, name);
      assert forall s :: s in symbols <==> s in front || s == last;
      if last.name == name && Highest(symbols, name) == Rank(last) {
      } else if Highest(symbols, name) != 0 {
        var s :| s in front && s.name == name && Rank(s) == Highest(front, name);
        assert s in symbols;
      }
    }
  }

  lemma TakeSymbolRaises(t: Table, s: Symbol, name: string)
    ensures Level(TakeSymbol(t, s), name)
         == if name == s.name then Max(Level(t, name), Rank(s)) else Level(t, name)
  {
  }

  /** Taking symbols joins what they say of a name with what was known of it. */
  lemma {:induction false} TakeAllIsJoin(t: Table, symbols: seq<Symbol>, name: string)
    ensures Level(TakeAll(t, symbols), name) == Max(Level(t, name), Highest(symbols, name))
  {
    if symbols != [] {
      var front := symbols[..|symbols| - 1];
      TakeAllIsJoin(t, front, name);
      TakeSymbolRaises(TakeAll(t, front), symbols[|symbols| - 1], name);
    }
  }

  lemma SameLevels(t: Table, u: Table)
    requires forall name :: Level(t, name) == Level(u, name)
    ensures t == u
  {
    forall name | name in t || name in u
      ensures name in t && name in u && t[name] == u[name]
    {
      assert Level(t, name) == Level(u, name);
    }
  }

  /** The table depends on which symbols were taken, and on nothing else about the order. */
  lemma TakeAllIgnoresOrder(t: Table, xs: seq<Symbol>, ys: seq<Symbol>)
    requires forall s :: s in xs <==> s in ys
    ensures TakeAll(t, xs) == TakeAll(t, ys)
  {
    forall name ensures Level(TakeAll(t, xs), name) == Level(TakeAll(t, ys), name) {
      TakeAllIsJoin(t, xs, name);
      TakeAllIsJoin(t, ys, name);
      HighestIsGreatest(xs, name);
      HighestIsGreatest(ys, name);
    }
    SameLevels(TakeAll(t, xs), TakeAll(t, ys));
  }

  lemma {:induction false} TakeAllAppends(t: Table, xs: seq<Symbol>, ys: seq<Symbol>)
    ensures TakeAll(t, xs + ys) == TakeAll(TakeAll(t, xs), ys)
  {
    if ys == [] {
      assert xs + ys == xs;
    } else {
      var front := ys[..|ys| - 1];
      assert (xs + ys)[..|xs + ys| - 1] == xs + front;
      TakeAllAppends(t, xs, front);
    }
  }

  /** The table of names as it stands after the objects read so far. */
  class NameStates {
    var states: Table

    constructor (entrySymbol: string)
      ensures states == map[entrySymbol := Undefined]
    {
      states := map[entrySymbol := Undefined];
    }

    method TakeOne(symbol: Symbol)
      modifies this
      ensures states == TakeSymbol(old(states), symbol)
    {
      var known := symbol.name in states;
      if symbol.place == UndefinedPlace {
        if !known {
          states := states[symbol.name := if symbol.binding == Weak then WeakUndefined else Undefined];
        } else if states[symbol.name] == WeakUndefined && symbol.binding != Weak {
          states := states[symbol.name := Undefined];
        }
      } else if IsCommon(symbol) {
        if !known || states[symbol.name] != Defined {
          states := states[symbol.name := Common];
        }
      } else {
        states := states[symbol.name := Defined];
      }
    }

    /** Reads an object the link takes. */
    method Take(o: Object)
      modifies this
      ensures states == TakeAll(old(states), Visible(o))
    {
      var symbols := Visible(o);
      for i := 0 to |symbols|
        invariant states == TakeAll(old(states), symbols[..i])
      {
        assert symbols[..i + 1][..i] == symbols[..i];
        TakeOne(symbols[i]);
      }
      assert symbols[..|symbols|] == symbols;
    }

    /** A name comes to the top, as a definition in an object would take it there. */
    method Define(name: string)
      modifies this
      ensures states == old(states)[name := Defined]
      ensures forall m :: Level(states, m) == if m == name then 4 else Level(old(states), m)
    {
      states := states[name := Defined];
    }

    /** A name rises as an undefined reference in an object would raise it. */
    method Need(name: string)
      modifies this
      ensures states == NeedName(old(states), name)
      ensures forall m :: Level(states, m) == if m == name then Max(Level(old(states), m), 2) else Level(old(states), m)
      ensures states == TakeSymbol(old(states), Symbol(name, Global, OtherKind, UndefinedPlace, 0))
    {
      if name !in states || states[name] == WeakUndefined {
        states := states[name := Undefined];
      }
    }
  }

  function NeedName(t: Table, name: string): Table {
    if name !in t || t[name] == WeakUndefined then t[name := Undefined] else t
  }

  // ---------------------------------------------------------------------------------------------
  // The rule
  // ---------------------------------------------------------------------------------------------

  /** A member as the rule sees it: what it offers, in its index's order, and what taking it adds. */
  datatype Member<U> = Member(key: U, offers: seq<(string, bool)>, symbols: seq<Symbol>)

  datatype Link<U> = Link(linked: set<U>, states: Table)

  /** Whether any name a member offers is wanted. */
  predicate Wanted(t: Table, offers: seq<(string, bool)>) {
    exists o :: o in offers && WantsName(t, o.0, o.1)
  }

  function Taken<U(==)>(m: Member<U>, l: Link<U>): Link<U> {
    Link(l.linked + {m.key}, TakeAll(l.states, m.symbols))
  }

  function Visit<U(==)>(m: Member<U>, l: Link<U>): Link<U> {
    if m.key !in l.linked && Wanted(l.states, m.offers) then Taken(m, l) else l
  }

  function Keys<U(==)>(ms: seq<Member<U>>): set<U> {
    set m | m in ms :: m.key
  }

  /** One pass over an archive, each member considered once. */
  function Sweep<U(==)>(ms: seq<Member<U>>, l: Link<U>): (r: Link<U>)
    ensures l.linked <= r.linked <= l.linked + Keys(ms)
    ensures r.linked == l.linked ==> r == l
  {
    if ms == [] then l
    else
      KeysSplit(ms);
      Sweep(ms[1..], Visit(ms[0], l))
  }

  /** An archive is read again while a pass takes anything. */
  function Drain<U(==)>(ms: seq<Member<U>>, l: Link<U>): (r: Link<U>)
    ensures l.linked <= r.linked <= l.linked + Keys(ms)
    ensures r.linked == l.linked ==> r == l == Sweep(ms, l)
    decreases |Keys(ms) - l.linked|
  {
    var n := Sweep(ms, l);
    if n.linked == l.linked then n
    else
      Smaller(Keys(ms), l.linked, n.linked);
      Drain(ms, n)
  }

  function AllKeys<U(==)>(archives: seq<seq<Member<U>>>): set<U> {
    set ms, m | ms in archives && m in ms :: m.key
  }

  function DrainEach<U(==)>(archives: seq<seq<Member<U>>>, l: Link<U>): (r: Link<U>)
    ensures l.linked <= r.linked <= l.linked + AllKeys(archives)
    ensures r.linked == l.linked ==> r == l
  {
    if archives == [] then l
    else
      AllKeysSplit(archives);
      DrainEach(archives[1..], Drain(archives[0], l))
  }

  /** The group is read again while any archive gave a member. */
  function Group<U(==)>(archives: seq<seq<Member<U>>>, l: Link<U>): (r: Link<U>)
    ensures l.linked <= r.linked <= l.linked + AllKeys(archives)
    decreases |AllKeys(archives) - l.linked|
  {
    var n := DrainEach(archives, l);
    if n.linked == l.linked then n
    else
      Smaller(AllKeys(archives), l.linked, n.linked);
      Group(archives, n)
  }

  lemma KeysSplit<U>(ms: seq<Member<U>>)
    requires ms != []
    ensures Keys(ms) == {ms[0].key} + Keys(ms[1..])
  {
    assert forall m :: m in ms <==> m == ms[0] || m in ms[1..];
  }

  lemma AllKeysSplit<U>(archives: seq<seq<Member<U>>>)
    requires archives != []
    ensures AllKeys(archives) == Keys(archives[0]) + AllKeys(archives[1..])
  {
    assert forall ms :: ms in archives <==> ms == archives[0] || ms in archives[1..];
  }

  lemma Smaller<U>(all: set<U>, a: set<U>, b: set<U>)
    requires a < b <= a + all
    ensures |all - b| < |all - a|
  {
    var x :| x in b && x !in a;
    assert all - b < all - a;
    Cardinality(all - b, all - a);
  }

  // ---------------------------------------------------------------------------------------------
  // What the rule keeps
  // ---------------------------------------------------------------------------------------------

  /** A pass that takes nothing found nothing wanted. */
  lemma {:induction false} SweepQuiet<U>(ms: seq<Member<U>>, l: Link<U>)
    requires Sweep(ms, l).linked == l.linked
    ensures forall m :: m in ms && m.key !in l.linked ==> !Wanted(l.states, m.offers)
  {
    if ms != [] {
      var n := Visit(ms[0], l);
      assert l.linked <= n.linked <= Sweep(ms[1..], n).linked;
      SweepQuiet(ms[1..], l);
      assert forall m :: m in ms <==> m == ms[0] || m in ms[1..];
    }
  }

  lemma {:induction false} DrainEachQuiet<U>(archives: seq<seq<Member<U>>>, l: Link<U>)
    requires DrainEach(archives, l).linked == l.linked
    ensures forall ms, m :: ms in archives && m in ms && m.key !in l.linked ==> !Wanted(l.states, m.offers)
  {
    if archives != [] {
      var n := Drain(archives[0], l);
      assert l.linked <= n.linked <= DrainEach(archives[1..], n).linked;
      SweepQuiet(archives[0], l);
      DrainEachQuiet(archives[1..], l);
      assert forall ms :: ms in archives <==> ms == archives[0] || ms in archives[1..];
    }
  }

  /** The rule ends closed: no member left out offers a wanted name. */
  lemma {:induction false} GroupIsClosed<U>(archives: seq<seq<Member<U>>>, l: Link<U>)
    ensures
      var r := Group(archives, l);
      forall ms, m :: ms in archives && m in ms && m.key !in r.linked ==> !Wanted(r.states, m.offers)
    decreases |AllKeys(archives) - l.linked|
  {
    var n := DrainEach(archives, l);
    if n.linked == l.linked {
      DrainEachQuiet(archives, l);
    } else {
      Smaller(AllKeys(archives), l.linked, n.linked);
      GroupIsClosed(archives, n);
    }
  }

  /** `order` leads from one link to another, each member new and wanted at its turn. */
  ghost predicate Run<U>(order: seq<Member<U>>, from: Link<U>, to: Link<U>) {
    if order == [] then from == to
    else
      && order[0].key !in from.linked
      && Wanted(from.states, order[0].offers)
      && Run(order[1..], Taken(order[0], from), to)
  }

  lemma {:induction false} RunAppends<U>(xs: seq<Member<U>>, ys: seq<Member<U>>, a: Link<U>, b: Link<U>, c: Link<U>)
    requires Run(xs, a, b) && Run(ys, b, c)
    ensures Run(xs + ys, a, c)
  {
    if xs == [] {
      assert xs + ys == ys;
    } else {
      assert (xs + ys)[1..] == xs[1..] + ys;
      RunAppends(xs[1..], ys, Taken(xs[0], a), b, c);
    }
  }

  lemma {:induction false} SweepRuns<U>(ms: seq<Member<U>>, l: Link<U>) returns (order: seq<Member<U>>)
    ensures Run(order, l, Sweep(ms, l))
    ensures forall m :: m in order ==> m in ms
  {
    if ms == [] {
      order := [];
    } else {
      var n := Visit(ms[0], l);
      var rest := SweepRuns(ms[1..], n);
      if n == l {
        order := rest;
      } else {
        order := [ms[0]] + rest;
        assert order[1..] == rest;
      }
    }
  }

  lemma {:induction false} DrainRuns<U>(ms: seq<Member<U>>, l: Link<U>) returns (order: seq<Member<U>>)
    ensures Run(order, l, Drain(ms, l))
    ensures forall m :: m in order ==> m in ms
    decreases |Keys(ms) - l.linked|
  {
    var n := Sweep(ms, l);
    order := SweepRuns(ms, l);
    if n.linked != l.linked {
      Smaller(Keys(ms), l.linked, n.linked);
      var rest := DrainRuns(ms, n);
      RunAppends(order, rest, l, n, Drain(ms, n));
      order := order + rest;
    }
  }

  lemma {:induction false} DrainEachRuns<U>(archives: seq<seq<Member<U>>>, l: Link<U>) returns (order: seq<Member<U>>)
    ensures Run(order, l, DrainEach(archives, l))
    ensures forall m :: m in order ==> exists ms :: ms in archives && m in ms
  {
    if archives == [] {
      order := [];
    } else {
      var n := Drain(archives[0], l);
      order := DrainRuns(archives[0], l);
      var rest := DrainEachRuns(archives[1..], n);
      RunAppends(order, rest, l, n, DrainEach(archives[1..], n));
      assert forall ms :: ms in archives[1..] ==> ms in archives;
      order := order + rest;
    }
  }

  /** Every member the rule takes is one of the archives', new and wanted when it is taken. */
  lemma {:induction false} GroupRuns<U>(archives: seq<seq<Member<U>>>, l: Link<U>) returns (order: seq<Member<U>>)
    ensures Run(order, l, Group(archives, l))
    ensures forall m :: m in order ==> exists ms :: ms in archives && m in ms
    decreases |AllKeys(archives) - l.linked|
  {
    var n := DrainEach(archives, l);
    order := DrainEachRuns(archives, l);
    if n.linked != l.linked {
      Smaller(AllKeys(archives), l.linked, n.linked);
      var rest := GroupRuns(archives, n);
      RunAppends(order, rest, l, n, Group(archives, n));
      order := order + rest;
    }
  }

  /** States never go down, and a run leaves every name at least where what it took put it. */
  lemma {:induction false} RunRaises<U>(order: seq<Member<U>>, a: Link<U>, b: Link<U>)
    requires Run(order, a, b)
    ensures b.linked == a.linked + Keys(order)
    ensures forall name :: Level(a.states, name) <= Level(b.states, name)
    ensures forall m, s :: m in order && s in m.symbols ==> Rank(s) <= Level(b.states, s.name)
  {
    if order != [] {
      var m := order[0];
      var n := Taken(m, a);
      RunRaises(order[1..], n, b);
      KeysSplit(order);
      forall name ensures Level(a.states, name) <= Level(n.states, name) {
        TakeAllIsJoin(a.states, m.symbols, name);
      }
      forall s | s in m.symbols ensures Rank(s) <= Level(n.states, s.name) {
        TakeAllIsJoin(a.states, m.symbols, s.name);
        HighestIsGreatest(m.symbols, s.name);
      }
      assert forall x :: x in order <==> x == m || x in order[1..];
    }
  }
}
