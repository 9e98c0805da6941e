/**
  The loop that follows the rule of LinkRule over assembled objects (`selectLinkedUnits` of
  blink-js/src/link-selection.ts), and what its selection means.
 */
module LinkSelection {
  import opened LinkRule

  /** A unit's object; two units are the same when they are the same reference. */
  class LinkUnit {
    const path: string
    const contents: Object

    constructor (path: string, contents: Object)
      ensures this.path == path && this.contents == contents
    {
      this.path, this.contents := path, contents;
    }
  }

  datatype IndexEntry<U> = IndexEntry(name: string, unit: U)

  function Indexed(symbols: seq<Symbol>): (r: seq<Symbol>)
    ensures forall s :: s in r <==> s in symbols && IsIndexed(s)
  {
    if symbols == [] then []
    else (if IsIndexed(symbols[0]) then [symbols[0]] else []) + Indexed(symbols[1..])
  }

  function IndexOf(u: LinkUnit): seq<IndexEntry<LinkUnit>> {
    var symbols := Indexed(Visible(u.contents));
    seq(|symbols|, i requires 0 <= i < |symbols| => IndexEntry(symbols[i].name, u))
  }

  function ArchiveIndex(members: seq<LinkUnit>): seq<IndexEntry<LinkUnit>> {
    if members == [] then [] else IndexOf(members[0]) + ArchiveIndex(members[1..])
  }

  /** A unit as the rule sees it. */
  function View(u: LinkUnit): Member<LinkUnit> {
    var symbols := Visible(u.contents);
    var index := Indexed(symbols);
    Member(u, seq(|index|, i requires 0 <= i < |index| =>
                    (index[i].name, DefinesReally(symbols, index[i].name))), symbols)
  }

  function Views(members: seq<LinkUnit>): (r: seq<Member<LinkUnit>>)
    ensures |r| == |members|
    ensures forall i :: 0 <= i < |r| ==> r[i] == View(members[i])
  {
    seq(|members|, i requires 0 <= i < |members| => View(members[i]))
  }

  function TakeObjects(t: Table, objects: seq<LinkUnit>): Table {
    if objects == [] then t
    else TakeAll(TakeObjects(t, objects[..|objects| - 1]), Visible(objects[|objects| - 1].contents))
  }

  // ---------------------------------------------------------------------------------------------
  // Entry by entry
  // ---------------------------------------------------------------------------------------------

  /** An index entry as the rule sees it. */
  datatype Entry<U> = Entry(name: string, really: bool, member: Member<U>)

  function VisitEntry<U(==)>(e: Entry<U>, l: Link<U>): Link<U> {
    if e.member.key !in l.linked && WantsName(l.states, e.name, e.really) then Taken(e.member, l) else l
  }

  function Scan<U(==)>(entries: seq<Entry<U>>, l: Link<U>): Link<U>
    decreases |entries|
  {
    if entries == [] then l
    else VisitEntry(entries[|entries| - 1], Scan(entries[..|entries| - 1], l))
  }

  function EntriesOf<U>(m: Member<U>): seq<Entry<U>> {
    seq(|m.offers|, i requires 0 <= i < |m.offers| => Entry(m.offers[i].0, m.offers[i].1, m))
  }

  function Entries<U>(ms: seq<Member<U>>): seq<Entry<U>> {
    if ms == [] then [] else EntriesOf(ms[0]) + Entries(ms[1..])
  }

  lemma {:induction false} ScanAppends<U>(xs: seq<Entry<U>>, ys: seq<Entry<U>>, l: Link<U>)
    ensures Scan(xs + ys, l) == Scan(ys, Scan(xs, l))
  {
    if ys == [] {
      assert xs + ys == xs;
    } else {
      assert (xs + ys)[..|xs + ys| - 1] == xs + ys[..|ys| - 1];
      ScanAppends(xs, ys[..|ys| - 1], l);
    }
  }

  lemma {:induction false} ScanOne<U>(m: Member<U>, n: nat, l: Link<U>)
    requires n <= |m.offers|
    ensures Scan(EntriesOf(m)[..n], l) == Visit(m.(offers := m.offers[..n]), l)
  {
    var part := EntriesOf(m)[..n];
    if n > 0 {
      assert part[..n - 1] == EntriesOf(m)[..n - 1];
      ScanOne(m, n - 1, l);
      var last := m.offers[n - 1];
      assert forall o :: o in m.offers[..n] <==> o in m.offers[..n - 1] || o == last;
    }
  }

  /** Scanning an index entry by entry is a pass over its members: a member's order does not matter. */
  lemma {:induction false} ScanIsSweep<U>(ms: seq<Member<U>>, l: Link<U>)
    ensures Scan(Entries(ms), l) == Sweep(ms, l)
  {
    if ms != [] {
      var m := ms[0];
      ScanOne(m, |m.offers|, l);
      assert EntriesOf(m)[..|m.offers|] == EntriesOf(m) && m.offers[..|m.offers|] == m.offers;
      ScanAppends(EntriesOf(m), Entries(ms[1..]), l);
      ScanIsSweep(ms[1..], Visit(m, l));
    }
  }

  function EntryView(e: IndexEntry<LinkUnit>): Entry<LinkUnit> {
    Entry(e.name, DefinesReally(Visible(e.unit.contents), e.name), View(e.unit))
  }

  function EntryViews(index: seq<IndexEntry<LinkUnit>>): (r: seq<Entry<LinkUnit>>)
    ensures |r| == |index|
    ensures forall i :: 0 <= i < |r| ==> r[i] == EntryView(index[i])
  {
    seq(|index|, i requires 0 <= i < |index| => EntryView(index[i]))
  }

  lemma IndexOfIsEntriesOf(u: LinkUnit)
    ensures EntryViews(IndexOf(u)) == EntriesOf(View(u))
  {
    var a, b := EntryViews(IndexOf(u)), EntriesOf(View(u));
    assert |a| == |b|;
    forall i | 0 <= i < |a| ensures a[i] == b[i] {
      assert a[i] == EntryView(IndexOf(u)[i]);
    }
  }

  lemma EntryViewsAppend(xs: seq<IndexEntry<LinkUnit>>, ys: seq<IndexEntry<LinkUnit>>)
    ensures EntryViews(xs + ys) == EntryViews(xs) + EntryViews(ys)
  {
    var a, b := EntryViews(xs + ys), EntryViews(xs) + EntryViews(ys);
    forall i | 0 <= i < |a| ensures a[i] == b[i] {
      assert a[i] == EntryView((xs + ys)[i]);
    }
  }

  lemma {:induction false} IndexIsEntries(members: seq<LinkUnit>)
    ensures EntryViews(ArchiveIndex(members)) == Entries(Views(members))
  {
    if members != [] {
      IndexIsEntries(members[1..]);
      assert Views(members)[1..] == Views(members[1..]);
      IndexOfIsEntriesOf(members[0]);
      EntryViewsAppend(IndexOf(members[0]), ArchiveIndex(members[1..]));
    }
  }

  // ---------------------------------------------------------------------------------------------
  // Assembled objects
  // ---------------------------------------------------------------------------------------------

  function Start(objects: seq<LinkUnit>, entrySymbol: string): Link<LinkUnit> {
    Link((set u | u in objects), TakeObjects(map[entrySymbol := Undefined], objects))
  }

  function AllViews(archives: seq<seq<LinkUnit>>): (r: seq<seq<Member<LinkUnit>>>)
    ensures |r| == |archives|
    ensures forall i :: 0 <= i < |r| ==> r[i] == Views(archives[i])
  {
    seq(|archives|, i requires 0 <= i < |archives| => Views(archives[i]))
  }

  /** Where the rule ends: every object, and the members it takes. */
  function Selected(objects: seq<LinkUnit>, archives: seq<seq<LinkUnit>>, entrySymbol: string): Link<LinkUnit> {
    Group(AllViews(archives), Start(objects, entrySymbol))
  }

  /** Takes a member for one index entry, if its name is wanted. */
  method ReadEntry(e: IndexEntry<LinkUnit>, states: NameStates, linked0: set<LinkUnit>)
    returns (linked: set<LinkUnit>, took: bool)
    modifies states
    ensures Link(linked, states.states) == VisitEntry(EntryView(e), Link(linked0, old(states.states)))
    ensures linked0 <= linked
    ensures took <==> linked != linked0
  {
    if e.unit in linked0 || !WantsName(states.states, e.name, DefinesReally(Visible(e.unit.contents), e.name)) {
      return linked0, false;
    }
    linked, took := linked0 + {e.unit}, true;
    states.Take(e.unit.contents);
  }

  /** One pass over an archive's index. */
  method ReadIndex(members: seq<LinkUnit>, index: seq<IndexEntry<LinkUnit>>, states: NameStates, linked0: set<LinkUnit>)
    returns (linked: set<LinkUnit>, again: bool)
    requires index == ArchiveIndex(members)
    modifies states
    ensures Link(linked, states.states) == Sweep(Views(members), Link(linked0, old(states.states)))
    ensures again <==> linked != linked0
  {
    ghost var l := Link(linked0, states.states);
    ghost var entries := EntryViews(index);
    linked, again := linked0, false;
    for i := 0 to |index|
      invariant linked0 <= linked
      invariant Link(linked, states.states) == Scan(entries[..i], l)
      invariant again <==> linked != linked0
    {
      assert entries[..i + 1][..i] == entries[..i];
      var took;
      linked, took := ReadEntry(index[i], states, linked);
      again := again || took;
    }
    assert entries[..|index|] == entries;
    IndexIsEntries(members);
    ScanIsSweep(Views(members), l);
  }

  /** Reads an archive until a pass over its index takes nothing. */
  method ReadArchive(members: seq<LinkUnit>, states: NameStates, linked0: set<LinkUnit>)
    returns (linked: set<LinkUnit>, grew: bool)
    modifies states
    ensures Link(linked, states.states) == Drain(Views(members), Link(linked0, old(states.states)))
    ensures grew <==> linked != linked0
  {
    var index := ArchiveIndex(members);
    ghost var views := Views(members);
    ghost var l0 := Link(linked0, states.states);
    linked, grew := linked0, false;
    var again := true;
    while again
      invariant linked0 <= linked
      invariant grew <==> linked != linked0
      invariant Drain(views, l0) ==
        if again then Drain(views, Link(linked, states.states)) else Link(linked, states.states)
      decreases |Keys(views) - linked|, again
    {
      ghost var l := Link(linked, states.states);
      linked, again := ReadIndex(members, index, states, linked);
      grew := grew || again;
      if again {
        Smaller(Keys(views), l.linked, linked);
      }
    }
  }

  /** Reads each archive in turn. */
  method ReadOnce(archives: seq<seq<LinkUnit>>, states: NameStates, linked0: set<LinkUnit>)
    returns (linked: set<LinkUnit>, grouped: bool)
    modifies states
    ensures Link(linked, states.states) == DrainEach(AllViews(archives), Link(linked0, old(states.states)))
    ensures grouped <==> linked != linked0
  {
    ghost var views := AllViews(archives);
    ghost var l := Link(linked0, states.states);
    linked, grouped := linked0, false;
    for a := 0 to |archives|
      invariant linked0 <= linked
      invariant grouped <==> linked != linked0
      invariant DrainEach(views[a..], Link(linked, states.states)) == DrainEach(views, l)
    {
      var grew;
      ghost var was := Link(linked, states.states);
      linked, grew := ReadArchive(archives[a], states, linked);
      assert views[a..][1..] == views[a + 1..];
      assert was.linked <= Drain(views[a], was).linked;
      grouped := grouped || grew;
    }
  }

  method TakeAllObjects(objects: seq<LinkUnit>, states: NameStates)
    modifies states
    ensures states.states == TakeObjects(old(states.states), objects)
  {
    for i := 0 to |objects|
      invariant states.states == TakeObjects(old(states.states), objects[..i])
    {
      assert objects[..i + 1][..i] == objects[..i];
      states.Take(objects[i].contents);
    }
    assert objects[..|objects|] == objects;
  }

  /** The units `ld --start-group <objects> <archives> --end-group` takes. */
  method SelectLinkedUnits(objects: seq<LinkUnit>, archives: seq<seq<LinkUnit>>, entrySymbol: string)
    returns (linked: set<LinkUnit>, ghost names: Table)
    ensures Link(linked, names) == Selected(objects, archives, entrySymbol)
    ensures linked == Selected(objects, archives, entrySymbol).linked
  {
    var states := new NameStates(entrySymbol);
    TakeAllObjects(objects, states);
    linked := set u | u in objects;
    ghost var views := AllViews(archives);
    ghost var l0 := Start(objects, entrySymbol);
    var grouped := true;
    while grouped
      invariant Group(views, l0) ==
        if grouped then Group(views, Link(linked, states.states)) else Link(linked, states.states)
      decreases |AllKeys(views) - linked|, grouped
    {
      ghost var l := Link(linked, states.states);
      linked, grouped := ReadOnce(archives, states, linked);
      if grouped {
        Smaller(AllKeys(views), l.linked, linked);
      }
    }
    names := states.states;
  }

  // ---------------------------------------------------------------------------------------------
  // What a selection means
  // ---------------------------------------------------------------------------------------------

  function Contents(units: seq<LinkUnit>): (all: seq<Symbol>)
    ensures forall s :: s in all <==> exists u :: u in units && s in Visible(u.contents)
  {
    if units == [] then []
    else Contents(units[..|units| - 1]) + Visible(units[|units| - 1].contents)
  }

  lemma {:induction false} TakeObjectsFlattens(t: Table, units: seq<LinkUnit>)
    ensures TakeObjects(t, units) == TakeAll(t, Contents(units))
  {
    if units != [] {
      var front := units[..|units| - 1];
      TakeObjectsFlattens(t, front);
      TakeAllAppends(t, Contents(front), Visible(units[|units| - 1].contents));
    }
  }

  /** The table depends on which objects were taken, not on their order nor on how often. */
  lemma TakeObjectsIgnoresOrder(t: Table, xs: seq<LinkUnit>, ys: seq<LinkUnit>)
    requires forall u :: u in xs <==> u in ys
    ensures TakeObjects(t, xs) == TakeObjects(t, ys)
  {
    TakeObjectsFlattens(t, xs);
    TakeObjectsFlattens(t, ys);
    TakeAllIgnoresOrder(t, Contents(xs), Contents(ys));
  }

  lemma ObjectsRaise(t: Table, units: seq<LinkUnit>, u: LinkUnit, s: Symbol)
    requires u in units && s in Visible(u.contents)
    ensures Rank(s) <= Level(TakeObjects(t, units), s.name)
  {
    TakeObjectsFlattens(t, units);
    assert s in Contents(units);
    TakeAllIsJoin(t, Contents(units), s.name);
    HighestIsGreatest(Contents(units), s.name);
  }

  /** Whether a unit's index lists `name`. */
  predicate Offers(u: LinkUnit, name: string) {
    exists s :: s in Indexed(Visible(u.contents)) && s.name == name
  }

  lemma OffersAreIndexed(u: LinkUnit, name: string)
    requires Offers(u, name)
    ensures (name, DefinesReally(Visible(u.contents), name)) in View(u).offers
  {
    var index := Indexed(Visible(u.contents));
    var s :| s in index && s.name == name;
    var i :| 0 <= i < |index| && index[i] == s;
    assert View(u).offers[i] == (name, DefinesReally(Visible(u.contents), name));
  }

  lemma ViewsHold(archives: seq<seq<LinkUnit>>, u: LinkUnit) returns (ms: seq<Member<LinkUnit>>)
    requires exists units :: units in archives && u in units
    ensures ms in AllViews(archives) && View(u) in ms
  {
    var units :| units in archives && u in units;
    var a :| 0 <= a < |archives| && archives[a] == units;
    var i :| 0 <= i < |units| && units[i] == u;
    ms := AllViews(archives)[a];
    assert ms[i] == View(u);
  }

  /** A run's members are views of units of the archives. */
  lemma LinkedAreViews(archives: seq<seq<LinkUnit>>, m: Member<LinkUnit>)
    requires exists ms :: ms in AllViews(archives) && m in ms
    ensures m == View(m.key)
  {
  }

  /** What the link took is common at least in every name it offers. */
  lemma TakenOffersAreSettled(objects: seq<LinkUnit>, archives: seq<seq<LinkUnit>>, entrySymbol: string,
                              name: string, u: LinkUnit)
    requires u in Selected(objects, archives, entrySymbol).linked
    requires Offers(u, name)
    ensures Level(Selected(objects, archives, entrySymbol).states, name) >= 3
    ensures DefinesReally(Visible(u.contents), name) ==>
      Level(Selected(objects, archives, entrySymbol).states, name) == 4
  {
    var views, l := AllViews(archives), Start(objects, entrySymbol);
    var r := Group(views, l);
    var order := GroupRuns(views, l);
    RunRaises(order, l, r);
    forall s | s in Visible(u.contents) ensures Rank(s) <= Level(r.states, s.name) {
      if u in objects {
        ObjectsRaise(map[entrySymbol := Undefined], objects, u, s);
        assert Level(l.states, s.name) <= Level(r.states, s.name);
      } else {
        var m :| m in order && m.key == u;
        LinkedAreViews(archives, m);
      }
    }
  }

  /** What an archive's member left out offers is not needed, and not common if it really defines it. */
  lemma LeftOutOffersAreUnwanted(objects: seq<LinkUnit>, archives: seq<seq<LinkUnit>>, entrySymbol: string,
                                 name: string, u: LinkUnit)
    requires u !in Selected(objects, archives, entrySymbol).linked
    requires exists ms :: ms in archives && u in ms
    requires Offers(u, name)
    ensures !WantsName(Selected(objects, archives, entrySymbol).states, name,
                       DefinesReally(Visible(u.contents), name))
  {
    var ms := ViewsHold(archives, u);
    GroupIsClosed(AllViews(archives), Start(objects, entrySymbol));
    OffersAreIndexed(u, name);
    assert View(u).key == u;
  }

  /**
    A name still needed at the end is offered by no object and by no archive member, linked or not;
    one only common so far is really defined by none of them.
   */
  lemma NeededNamesAreOfferedNowhere(objects: seq<LinkUnit>, archives: seq<seq<LinkUnit>>, entrySymbol: string,
                                     name: string, u: LinkUnit)
    requires u in objects || exists ms :: ms in archives && u in ms
    ensures
      var level := Level(Selected(objects, archives, entrySymbol).states, name);
      && (level == 2 ==> !Offers(u, name))
      && (level == 3 ==> !(Offers(u, name) && DefinesReally(Visible(u.contents), name)))
  {
    if Offers(u, name) {
      var r := Selected(objects, archives, entrySymbol);
      if u in r.linked {
        TakenOffersAreSettled(objects, archives, entrySymbol, name, u);
      } else {
        LeftOutOffersAreUnwanted(objects, archives, entrySymbol, name, u);
      }
    }
  }
}
