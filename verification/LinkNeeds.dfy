/**
  What calls for a member of an archive: the references of the units already linked
  (blink-js/src/link-selection.ts). Nothing here speaks of what the loops test.
 */
module LinkNeeds {

  import opened Options
  import opened LinkRule
  import opened LinkSelection
  import opened LinkPull

  // ---------------------------------------------------------------------------------------------
  // Symbols
  // ---------------------------------------------------------------------------------------------

  /** A symbol other objects see. */
  predicate IsSeen(s: Symbol) {
    s.name != "" && s.binding != Local && s.kind == OtherKind
  }

  /** A reference that must be met: not a weak one. */
  predicate IsReference(s: Symbol, name: string) {
    IsSeen(s) && s.name == name && s.place == UndefinedPlace && s.binding != Weak
  }

  predicate IsCommonOf(s: Symbol, name: string) {
    IsSeen(s) && s.name == name && (s.place == CommonPlace || s.place == LargeCommonPlace)
  }

  predicate IsDefinitionOf(s: Symbol, name: string) {
    IsSeen(s) && s.name == name && (s.place == AbsolutePlace || s.place.InSection?)
  }

  /** A definition, or a common symbol, that an index lists. */
  predicate IsOffer(s: Symbol, name: string) {
    || (IsDefinitionOf(s, name) && (s.binding == Global || s.binding == Weak || s.binding == Unique))
    || IsCommonOf(s, name)
  }

  predicate References(symbols: seq<Symbol>, name: string) {
    exists s :: s in symbols && IsReference(s, name)
  }

  predicate HasCommon(symbols: seq<Symbol>, name: string) {
    exists s :: s in symbols && IsCommonOf(s, name)
  }

  predicate Defines(symbols: seq<Symbol>, name: string) {
    exists s :: s in symbols && IsDefinitionOf(s, name)
  }

  predicate IsOffered(u: LinkUnit, name: string) {
    exists s :: s in u.contents && IsOffer(s, name)
  }

  lemma ListedIsOffer(u: LinkUnit, s: Symbol, name: string)
    ensures s in Indexed(Visible(u.contents)) && s.name == name <==> s in u.contents && IsOffer(s, name)
  {
  }

  lemma RealIsDefinition(u: LinkUnit, s: Symbol, name: string)
    ensures s in Visible(u.contents) && s.name == name && s.place != UndefinedPlace && !IsCommon(s)
       <==> s in u.contents && IsDefinitionOf(s, name)
  {
  }

  /** The names an index lists for a unit. */
  lemma OffersAre(u: LinkUnit, name: string)
    ensures Offers(u, name) <==> IsOffered(u, name)
  {
    if Offers(u, name) {
      var s :| s in Indexed(Visible(u.contents)) && s.name == name;
      ListedIsOffer(u, s, name);
    }
    if IsOffered(u, name) {
      var s :| s in u.contents && IsOffer(s, name);
      ListedIsOffer(u, s, name);
    }
  }

  /** What counts as a real definition. */
  lemma RealDefinitionsAre(u: LinkUnit, name: string)
    ensures DefinesReally(Visible(u.contents), name) <==> Defines(u.contents, name)
  {
    if DefinesReally(Visible(u.contents), name) {
      var s :| s in Visible(u.contents) && s.name == name && s.place != UndefinedPlace && !IsCommon(s);
      RealIsDefinition(u, s, name);
    }
    if Defines(u.contents, name) {
      var s :| s in u.contents && IsDefinitionOf(s, name);
      RealIsDefinition(u, s, name);
    }
  }

  // ---------------------------------------------------------------------------------------------
  // Where a name's state comes from
  // ---------------------------------------------------------------------------------------------

  /** A symbol among some of the first, or of the members taken. */
  ghost predicate IsFrom<U>(s: Symbol, base: seq<Symbol>, order: seq<Member<U>>) {
    s in base || exists m :: m in order && s in m.symbols
  }

  ghost predicate Explains<U>(s: Symbol, base: seq<Symbol>, order: seq<Member<U>>, name: string, level: nat) {
    IsFrom(s, base, order) && s.name == name && Rank(s) == level
  }

  /** Every state is what some symbol puts its name at. */
  ghost predicate Explained<U>(t: Table, base: seq<Symbol>, order: seq<Member<U>>) {
    forall name :: Level(t, name) > 0 ==> exists s :: Explains(s, base, order, name, Level(t, name))
  }

  lemma BaseExplains<U>(base: seq<Symbol>, order: seq<Member<U>>)
    requires order == []
    ensures Explained(TakeAll(map[], base), base, order)
  {
    forall name | Level(TakeAll(map[], base), name) > 0
      ensures exists s :: Explains(s, base, order, name, Level(TakeAll(map[], base), name))
    {
      TakeAllIsJoin(map[], base, name);
      HighestIsGreatest(base, name);
      var s :| s in base && s.name == name && Rank(s) == Highest(base, name);
      assert Explains(s, base, order, name, Level(TakeAll(map[], base), name));
    }
  }

  lemma TakingExplains<U>(l: Link<U>, base: seq<Symbol>, order: seq<Member<U>>, m: Member<U>)
    requires Explained(l.states, base, order)
    ensures Explained(Taken(m, l).states, base, order + [m])
  {
    var t := Taken(m, l).states;
    forall name | Level(t, name) > 0
      ensures exists s :: Explains(s, base, order + [m], name, Level(t, name))
    {
      TakeAllIsJoin(l.states, m.symbols, name);
      HighestIsGreatest(m.symbols, name);
      if Level(t, name) == Level(l.states, name) {
        var s :| Explains(s, base, order, name, Level(t, name));
        assert Explains(s, base, order + [m], name, Level(t, name));
      } else {
        var s :| s in m.symbols && s.name == name && Rank(s) == Highest(m.symbols, name);
        assert m in order + [m];
        assert Explains(s, base, order + [m], name, Level(t, name));
      }
    }
  }

  // ---------------------------------------------------------------------------------------------
  // What each member was taken for
  // ---------------------------------------------------------------------------------------------

  /** A name the member offers is needed at its turn: at level 2, or at level 3 when it really defines it. */
  ghost predicate IsNeeded(t: Table, offers: seq<(string, bool)>) {
    exists o :: o in offers && (Level(t, o.0) == 2 || (Level(t, o.0) == 3 && o.1))
  }

  lemma WantedIsNeeded(t: Table, offers: seq<(string, bool)>)
    ensures Wanted(t, offers) <==> IsNeeded(t, offers)
  {
    if Wanted(t, offers) {
      var o :| o in offers && WantsName(t, o.0, o.1);
      assert Level(t, o.0) == 2 || (Level(t, o.0) == 3 && o.1);
    }
    if IsNeeded(t, offers) {
      var o :| o in offers && (Level(t, o.0) == 2 || (Level(t, o.0) == 3 && o.1));
      assert WantsName(t, o.0, o.1);
    }
  }

  /** One of the symbols taken before refers to the name, or is common where the member really defines it. */
  ghost predicate Calls<U>(s: Symbol, base: seq<Symbol>, order: seq<Member<U>>, o: (string, bool)) {
    IsFrom(s, base, order) && s.name == o.0 && (Rank(s) == 2 || (Rank(s) == 3 && o.1))
  }

  ghost predicate IsCalledFor<U>(m: Member<U>, base: seq<Symbol>, order: seq<Member<U>>) {
    exists o, s :: o in m.offers && Calls(s, base, order, o)
  }

  lemma NeededIsCalledFor<U>(m: Member<U>, t: Table, base: seq<Symbol>, order: seq<Member<U>>)
    requires Explained(t, base, order) && IsNeeded(t, m.offers)
    ensures IsCalledFor(m, base, order)
  {
    var o :| o in m.offers && (Level(t, o.0) == 2 || (Level(t, o.0) == 3 && o.1));
    var s :| Explains(s, base, order, o.0, Level(t, o.0));
    assert Calls(s, base, order, o);
  }

  /** Every member of a run is called for by what was taken before it, and all that is known at the end comes from the run. */
  lemma {:induction false} RunIsCalledFor<U>(
    base: seq<Symbol>, before: seq<Member<U>>, order: seq<Member<U>>, from: Link<U>, to: Link<U>)
    requires Run(order, from, to) && Explained(from.states, base, before)
    ensures Explained(to.states, base, before + order)
    ensures forall i :: 0 <= i < |order| ==> IsCalledFor(order[i], base, before + order[..i])
    decreases |order|
  {
    if order == [] {
      assert before + order == before;
    } else {
      var m := order[0];
      WantedIsNeeded(from.states, m.offers);
      NeededIsCalledFor(m, from.states, base, before);
      TakingExplains(from, base, before, m);
      RunIsCalledFor(base, before + [m], order[1..], Taken(m, from), to);
      assert before + [m] + order[1..] == before + order;
      forall i | 0 <= i < |order|
        ensures IsCalledFor(order[i], base, before + order[..i])
      {
        if i == 0 {
          assert before + order[..0] == before;
        } else {
          assert order[i] == order[1..][i - 1];
          assert before + [m] + order[1..][..i - 1] == before + order[..i];
        }
      }
    }
  }

  /** No member of a run is taken twice. */
  lemma {:induction false} RunIsDistinct<U>(order: seq<Member<U>>, from: Link<U>, to: Link<U>)
    requires Run(order, from, to)
    ensures forall i :: 0 <= i < |order| ==> order[i].key !in from.linked
    ensures forall i, j :: 0 <= i < j < |order| ==> order[i].key != order[j].key
    decreases |order|
  {
    if order != [] {
      RunIsDistinct(order[1..], Taken(order[0], from), to);
      forall i | 0 < i < |order|
        ensures order[i].key !in from.linked && order[i].key != order[0].key
      {
        assert order[i] == order[1..][i - 1];
      }
    }
  }

  ghost predicate AreCalledFor<U>(order: seq<Member<U>>, base: seq<Symbol>) {
    forall i :: 0 <= i < |order| ==> IsCalledFor(order[i], base, order[..i])
  }

  predicate AreDifferent<U(==)>(order: seq<Member<U>>) {
    forall i, j :: 0 <= i < j < |order| ==> order[i].key != order[j].key
  }

  lemma {:induction false} WholeRun<U>(base: seq<Symbol>, order: seq<Member<U>>, from: Link<U>, to: Link<U>)
    requires Run(order, from, to) && from.states == TakeAll(map[], base)
    ensures Explained(to.states, base, order) && AreCalledFor(order, base) && AreDifferent(order)
  {
    BaseExplains<U>(base, []);
    RunIsCalledFor(base, [], order, from, to);
    RunIsDistinct(order, from, to);
    assert [] + order == order;
    forall i | 0 <= i < |order|
      ensures IsCalledFor(order[i], base, order[..i])
    {
      assert [] + order[..i] == order[..i];
    }
  }

  // ---------------------------------------------------------------------------------------------
  // Assembled objects
  // ---------------------------------------------------------------------------------------------

  /** The entry symbol is needed as if an object referred to it. */
  function EntryReference(entrySymbol: string): Symbol {
    Symbol(entrySymbol, Global, OtherKind, UndefinedPlace, 0)
  }

  function FirstSymbols(objects: seq<LinkUnit>, entrySymbol: string): seq<Symbol> {
    [EntryReference(entrySymbol)] + Contents(objects)
  }

  lemma EntryTable(entrySymbol: string)
    ensures TakeAll(map[], [EntryReference(entrySymbol)]) == map[entrySymbol := Undefined]
  {
    assert [EntryReference(entrySymbol)][..0] == [];
  }

  lemma StartIsTaken(objects: seq<LinkUnit>, entrySymbol: string)
    ensures Start(objects, entrySymbol).states == TakeAll(map[], FirstSymbols(objects, entrySymbol))
  {
    EntryTable(entrySymbol);
    TakeObjectsFlattens(map[entrySymbol := Undefined], objects);
    TakeAllAppends(map[], [EntryReference(entrySymbol)], Contents(objects));
  }

  ghost predicate AreViews(order: seq<Member<LinkUnit>>) {
    forall m :: m in order ==> m == View(m.key)
  }

  /** What comes from the run of a selection comes from a linked unit, or is the entry symbol. */
  lemma FromIsLinked(objects: seq<LinkUnit>, entrySymbol: string, order: seq<Member<LinkUnit>>, s: Symbol)
    returns (w: Option<LinkUnit>)
    requires AreViews(order) && IsFrom(s, FirstSymbols(objects, entrySymbol), order)
    ensures w.None? ==> s == EntryReference(entrySymbol)
    ensures w.Some? ==> s in Visible(w.value.contents) && (w.value in objects || exists m :: m in order && m.key == w.value)
  {
    if m :| m in order && s in m.symbols {
      return Some(m.key);
    }
    if s in Contents(objects) {
      var u :| u in objects && s in Visible(u.contents);
      return Some(u);
    }
    w := None;
  }

  /** A unit that needs a name another one offers. */
  predicate Needs(w: LinkUnit, u: LinkUnit, name: string) {
    References(w.contents, name) || (HasCommon(w.contents, name) && Defines(u.contents, name))
  }

  /** Another of the units needs the name. */
  predicate IsNeededBy(units: set<LinkUnit>, u: LinkUnit, name: string) {
    exists w :: w in units && w != u && Needs(w, u, name)
  }

  /** The order a selection takes members in, and what that says of them. */
  lemma {:induction false} SelectionRuns(objects: seq<LinkUnit>, archives: seq<seq<LinkUnit>>, entrySymbol: string)
    returns (order: seq<Member<LinkUnit>>)
    ensures Selected(objects, archives, entrySymbol).linked == (set u | u in objects) + Keys(order)
    ensures Explained(Selected(objects, archives, entrySymbol).states, FirstSymbols(objects, entrySymbol), order)
    ensures AreCalledFor(order, FirstSymbols(objects, entrySymbol)) && AreDifferent(order)
    ensures AreViews(order)
  {
    var from, to := Start(objects, entrySymbol), Selected(objects, archives, entrySymbol);
    order := GroupRuns(AllViews(archives), from);
    forall m | m in order
      ensures m == View(m.key)
    {
      LinkedAreViews(archives, m);
    }
    StartIsTaken(objects, entrySymbol);
    WholeRun(FirstSymbols(objects, entrySymbol), order, from, to);
    RunRaises(order, from, to);
  }

  /**
    Every member that is linked offers a name some other linked unit needs, or the entry symbol: a
    weak reference takes nothing, and a common symbol only a real definition.
   */
  lemma {:induction false} LinkedIsNeeded(objects: seq<LinkUnit>, archives: seq<seq<LinkUnit>>, entrySymbol: string, u: LinkUnit)
    requires u in Selected(objects, archives, entrySymbol).linked && u !in objects
    ensures exists name :: IsOffered(u, name) && (name == entrySymbol || IsNeededBy(Selected(objects, archives, entrySymbol).linked, u, name))
  {
    var order := SelectionRuns(objects, archives, entrySymbol);
    var m :| m in order && m.key == u;
    var i :| 0 <= i < |order| && order[i] == m;
    MemberIsNeeded(objects, entrySymbol, order, i, Selected(objects, archives, entrySymbol).linked);
  }

  lemma MemberIsNeeded(objects: seq<LinkUnit>, entrySymbol: string, order: seq<Member<LinkUnit>>, i: nat, linked: set<LinkUnit>)
    requires i < |order| && AreCalledFor(order, FirstSymbols(objects, entrySymbol)) && AreDifferent(order) && AreViews(order)
    requires order[i].key !in objects && linked == (set u | u in objects) + Keys(order)
    ensures exists name :: IsOffered(order[i].key, name) && (name == entrySymbol || IsNeededBy(linked, order[i].key, name))
  {
    var base := FirstSymbols(objects, entrySymbol);
    assert order[i] in order && IsCalledFor(order[i], base, order[..i]);
    var o, s :| o in order[i].offers && Calls(s, base, order[..i], o);
    OfferIsOffered(order[i].key, o);
    assert AreViews(order[..i]);
    var w := FromIsLinked(objects, entrySymbol, order[..i], s);
    if w.Some? {
      CallerNeeds(w.value, order[i].key, s, o);
      CallerIsLinked(objects, order, i, linked, w.value);
      assert IsNeededBy(linked, order[i].key, o.0);
    }
  }

  lemma OfferIsOffered(u: LinkUnit, o: (string, bool))
    requires o in View(u).offers
    ensures IsOffered(u, o.0) && (o.1 ==> Defines(u.contents, o.0))
  {
    OfferedIsIndexed(u, o);
    OffersAre(u, o.0);
    RealDefinitionsAre(u, o.0);
  }

  lemma CallerIsLinked(objects: seq<LinkUnit>, order: seq<Member<LinkUnit>>, i: nat, linked: set<LinkUnit>, w: LinkUnit)
    requires i < |order| && AreDifferent(order) && order[i].key !in objects
    requires linked == (set u | u in objects) + Keys(order)
    requires w in objects || exists m :: m in order[..i] && m.key == w
    ensures w in linked && w != order[i].key
  {
    if w !in objects {
      var n :| n in order[..i] && n.key == w;
      var j :| 0 <= j < i && order[j] == n;
      assert n in order;
    }
  }

  lemma CallerNeeds(w: LinkUnit, u: LinkUnit, s: Symbol, o: (string, bool))
    requires s in Visible(w.contents) && s.name == o.0 && (Rank(s) == 2 || (Rank(s) == 3 && o.1))
    requires o.1 ==> Defines(u.contents, o.0)
    ensures Needs(w, u, o.0)
  {
    assert IsReference(s, o.0) || IsCommonOf(s, o.0);
  }

  /** A symbol that puts its name at level 3 or 4 is common or a definition, and is a unit's. */
  lemma {:induction false} SettledByUnit(objects: seq<LinkUnit>, archives: seq<seq<LinkUnit>>, entrySymbol: string, name: string)
    returns (v: LinkUnit)
    requires Level(Selected(objects, archives, entrySymbol).states, name) >= 3
    ensures v in Selected(objects, archives, entrySymbol).linked
    ensures Defines(v.contents, name) || HasCommon(v.contents, name)
    ensures Level(Selected(objects, archives, entrySymbol).states, name) == 4 ==> Defines(v.contents, name)
  {
    var selected, base := Selected(objects, archives, entrySymbol), FirstSymbols(objects, entrySymbol);
    var order := SelectionRuns(objects, archives, entrySymbol);
    var s :| Explains(s, base, order, name, Level(selected.states, name));
    var w := FromIsLinked(objects, entrySymbol, order, s);
    v := w.value;
    assert IsDefinitionOf(s, name) || IsCommonOf(s, name);
  }

  /** The level of a name a linked unit has a symbol of. */
  lemma {:induction false} LinkedRaises(objects: seq<LinkUnit>, archives: seq<seq<LinkUnit>>, entrySymbol: string, w: LinkUnit, s: Symbol)
    requires w in Selected(objects, archives, entrySymbol).linked && s in Visible(w.contents)
    ensures Level(Selected(objects, archives, entrySymbol).states, s.name) >= Rank(s)
  {
    var from := Start(objects, entrySymbol);
    var order := GroupRuns(AllViews(archives), from);
    RunRaises(order, from, Selected(objects, archives, entrySymbol));
    if w in objects {
      ObjectsRaise(map[entrySymbol := Undefined], objects, w, s);
    } else {
      var m :| m in order && m.key == w;
      LinkedAreViews(archives, m);
    }
  }

  /** What a linked unit needs ends common or defined when any unit offers it, and defined when any really defines it. */
  lemma {:induction false} NeededIsSettled(objects: seq<LinkUnit>, archives: seq<seq<LinkUnit>>, entrySymbol: string,
                        w: LinkUnit, s: Symbol, u: LinkUnit)
    requires w in Selected(objects, archives, entrySymbol).linked && s in Visible(w.contents) && Rank(s) >= 2
    requires (u in objects || exists ms :: ms in archives && u in ms) && Offers(u, s.name)
    ensures Level(Selected(objects, archives, entrySymbol).states, s.name) >= 3
    ensures Rank(s) >= 3 && DefinesReally(Visible(u.contents), s.name) ==>
      Level(Selected(objects, archives, entrySymbol).states, s.name) == 4
  {
    LinkedRaises(objects, archives, entrySymbol, w, s);
    NeededNamesAreOfferedNowhere(objects, archives, entrySymbol, s.name, u);
  }

  /** A reference of a linked unit is met by a linked unit, whenever any unit of the link offers the name. */
  lemma {:induction false} ReferencesAreMet(objects: seq<LinkUnit>, archives: seq<seq<LinkUnit>>, entrySymbol: string,
                         w: LinkUnit, name: string, u: LinkUnit)
    requires w in Selected(objects, archives, entrySymbol).linked && References(w.contents, name)
    requires (u in objects || exists ms :: ms in archives && u in ms) && IsOffered(u, name)
    ensures exists v :: v in Selected(objects, archives, entrySymbol).linked
                     && (Defines(v.contents, name) || HasCommon(v.contents, name))
  {
    var s :| s in w.contents && IsReference(s, name);
    OffersAre(u, name);
    NeededIsSettled(objects, archives, entrySymbol, w, s, u);
    var v := SettledByUnit(objects, archives, entrySymbol, name);
  }

  /** So is the entry symbol, whenever any unit offers it. */
  lemma {:induction false} EntryIsMet(objects: seq<LinkUnit>, archives: seq<seq<LinkUnit>>, entrySymbol: string, u: LinkUnit)
    requires (u in objects || exists ms :: ms in archives && u in ms) && IsOffered(u, entrySymbol)
    ensures exists v :: v in Selected(objects, archives, entrySymbol).linked
                     && (Defines(v.contents, entrySymbol) || HasCommon(v.contents, entrySymbol))
  {
    EntryRaises(objects, archives, entrySymbol);
    OffersAre(u, entrySymbol);
    NeededNamesAreOfferedNowhere(objects, archives, entrySymbol, entrySymbol, u);
    var v := SettledByUnit(objects, archives, entrySymbol, entrySymbol);
  }

  lemma EntryRaises(objects: seq<LinkUnit>, archives: seq<seq<LinkUnit>>, entrySymbol: string)
    ensures Level(Selected(objects, archives, entrySymbol).states, entrySymbol) >= 2
  {
    var from, entry := Start(objects, entrySymbol), map[entrySymbol := Undefined];
    var order := GroupRuns(AllViews(archives), from);
    RunRaises(order, from, Selected(objects, archives, entrySymbol));
    TakeObjectsFlattens(entry, objects);
    TakeAllIsJoin(entry, Contents(objects), entrySymbol);
    assert Level(entry, entrySymbol) == 2;
  }

  lemma CommonIsSettled(objects: seq<LinkUnit>, archives: seq<seq<LinkUnit>>, entrySymbol: string,
                        w: LinkUnit, s: Symbol, name: string, u: LinkUnit)
    requires w in Selected(objects, archives, entrySymbol).linked && s in w.contents && IsCommonOf(s, name)
    requires u in objects || exists ms :: ms in archives && u in ms
    requires Offers(u, name) && DefinesReally(Visible(u.contents), name)
    ensures Level(Selected(objects, archives, entrySymbol).states, name) == 4
  {
    NeededIsSettled(objects, archives, entrySymbol, w, s, u);
  }

  /** And a common symbol of a linked unit is defined by one, whenever any unit offers a real definition. */
  lemma {:induction false} CommonsAreDefined(objects: seq<LinkUnit>, archives: seq<seq<LinkUnit>>, entrySymbol: string,
                                             w: LinkUnit, name: string, u: LinkUnit)
    requires w in Selected(objects, archives, entrySymbol).linked && HasCommon(w.contents, name)
    requires u in objects || exists ms :: ms in archives && u in ms
    requires IsOffered(u, name) && Defines(u.contents, name)
    ensures exists v :: v in Selected(objects, archives, entrySymbol).linked && Defines(v.contents, name)
  {
    assert Level(Selected(objects, archives, entrySymbol).states, name) == 4 by {
      var s :| s in w.contents && IsCommonOf(s, name);
      OffersAre(u, name);
      RealDefinitionsAre(u, name);
      CommonIsSettled(objects, archives, entrySymbol, w, s, name, u);
    }
    var v := SettledByUnit(objects, archives, entrySymbol, name);
  }

  // ---------------------------------------------------------------------------------------------
  // Units assembled when they are taken
  // ---------------------------------------------------------------------------------------------

  predicate DeclaresAs(u: DeclaredUnit, name: string, common: bool) {
    exists d :: d in u.defines && d.name == name && d.common == common
  }

  /** A unit was assembled only when one of its names was needed, or common while its declarations really define it. */
  lemma AssembledIsNeeded(p: Progress, c: Call)
    requires p.Valid() && c in p.assembled
    ensures exists d :: d in c.unit.defines && (Level(c.states, d.name) == 2 || (Level(c.states, d.name) == 3 && DeclaresAs(c.unit, d.name, false)))
  {
    WantedIsNeeded(c.states, DeclaredOffers(c.unit));
    var o :| o in DeclaredOffers(c.unit) && (Level(c.states, o.0) == 2 || (Level(c.states, o.0) == 3 && o.1));
    var i :| 0 <= i < |c.unit.defines| && DeclaredOffers(c.unit)[i] == o;
    assert c.unit.defines[i] in c.unit.defines;
  }

  function NameReferences(names: seq<string>): (r: seq<Symbol>)
    ensures |r| == |names|
    ensures forall s :: s in r ==> s.name in names && s == EntryReference(s.name)
  {
    seq(|names|, i requires 0 <= i < |names| => EntryReference(names[i]))
  }

  function NameDefinitions(names: seq<string>): (r: seq<Symbol>)
    ensures |r| == |names|
    ensures forall s :: s in r ==> s.name in names && s == Definition(s.name)
  {
    seq(|names|, i requires 0 <= i < |names| => Definition(names[i]))
  }

  lemma {:induction false} NeedsAreTaken(t: Table, names: seq<string>)
    ensures NeedNames(t, names) == TakeAll(t, NameReferences(names))
    decreases |names|
  {
    if names != [] {
      NeedsAreTaken(t, names[..|names| - 1]);
      assert NameReferences(names)[..|names| - 1] == NameReferences(names[..|names| - 1]);
    }
  }

  lemma {:induction false} DefinesAreTaken(t: Table, names: seq<string>)
    ensures DefineNames(t, names) == TakeAll(t, NameDefinitions(names))
    decreases |names|
  {
    if names != [] {
      DefinesAreTaken(t, names[..|names| - 1]);
      assert NameDefinitions(names)[..|names| - 1] == NameDefinitions(names[..|names| - 1]);
    }
  }

  /** What the lazy loop starts from, as symbols. */
  function KnownSymbols(objects: seq<LinkUnit>, entrySymbol: string, known: Known): seq<Symbol> {
    [EntryReference(entrySymbol)] + NameDefinitions(known.defines) + Contents(objects) + NameReferences(known.needs)
  }

  lemma FirstIsTaken(objects: seq<LinkUnit>, entrySymbol: string, known: Known)
    ensures FirstNames(objects, entrySymbol, known) == TakeAll(map[], KnownSymbols(objects, entrySymbol, known))
  {
    var entry, defines := [EntryReference(entrySymbol)], NameDefinitions(known.defines);
    EntryTable(entrySymbol);
    DefinesAreTaken(map[entrySymbol := Undefined], known.defines);
    TakeAllAppends(map[], entry, defines);
    TakeObjectsFlattens(TakeAll(map[], entry + defines), objects);
    TakeAllAppends(map[], entry + defines, Contents(objects));
    NeedsAreTaken(TakeAll(map[], entry + defines + Contents(objects)), known.needs);
    TakeAllAppends(map[], entry + defines + Contents(objects), NameReferences(known.needs));
  }

  /** The symbols a taken unit brings into the link; one that does not assemble brings no needs. */
  function Brought(k: Key, assemble: Assembler): Object {
    match k
    case Archived(m) => m.contents
    case Declared(u) => match assemble(u) case Some(o) => o case None => []
  }

  predicate NeedsDeclared(symbols: Object, u: DeclaredUnit, name: string) {
    References(symbols, name) || (HasCommon(symbols, name) && DeclaresAs(u, name, false))
  }

  /** The entry symbol, what is known to be needed, the objects, or another unit taken needs the name. */
  ghost predicate IsNeededOf(objects: seq<LinkUnit>, entrySymbol: string, known: Known, taken: set<Key>, assemble: Assembler,
                             u: DeclaredUnit, name: string) {
    || name == entrySymbol || name in known.needs
    || (exists w :: w in objects && NeedsDeclared(w.contents, u, name))
    || (exists k :: k in taken && k != Declared(u) && NeedsDeclared(Brought(k, assemble), u, name))
  }

  ghost predicate AreMembers(order: seq<Member<Key>>, assemble: Assembler) {
    forall m :: m in order ==> m == MemberOf(m.key, assemble)
  }

  /** A symbol that calls for a unit comes from what needs it. */
  lemma CallerNeedsDeclared(objects: seq<LinkUnit>, entrySymbol: string, known: Known, order: seq<Member<Key>>, assemble: Assembler,
                            taken: set<Key>, u: DeclaredUnit, o: (string, bool), s: Symbol)
    requires AreMembers(order, assemble) && Calls(s, KnownSymbols(objects, entrySymbol, known), order, o)
    requires forall m :: m in order ==> m.key in taken && m.key != Declared(u)
    requires o.1 ==> DeclaresAs(u, o.0, false)
    ensures IsNeededOf(objects, entrySymbol, known, taken, assemble, u, o.0)
  {
    if m :| m in order && s in m.symbols {
      BroughtNeeds(m.key, assemble, u, o, s);
      assert m.key in taken;
    } else if s in Contents(objects) {
      var w :| w in objects && s in Visible(w.contents);
      SymbolNeeds(w.contents, u, o, s);
    }
  }

  lemma SymbolNeeds(symbols: Object, u: DeclaredUnit, o: (string, bool), s: Symbol)
    requires s in Visible(symbols) && s.name == o.0 && (Rank(s) == 2 || (Rank(s) == 3 && o.1))
    requires o.1 ==> DeclaresAs(u, o.0, false)
    ensures NeedsDeclared(symbols, u, o.0)
  {
    assert IsReference(s, o.0) || IsCommonOf(s, o.0);
  }

  lemma BroughtNeeds(k: Key, assemble: Assembler, u: DeclaredUnit, o: (string, bool), s: Symbol)
    requires s in MemberOf(k, assemble).symbols && s.name == o.0 && (Rank(s) == 2 || (Rank(s) == 3 && o.1))
    requires o.1 ==> DeclaresAs(u, o.0, false)
    ensures NeedsDeclared(Brought(k, assemble), u, o.0)
  {
    assert s in Visible(Brought(k, assemble));
    SymbolNeeds(Brought(k, assemble), u, o, s);
  }

  /** Every declared unit that is taken, and so assembled, declares a name something else in the link needs. */
  lemma {:induction false} PulledIsNeeded(objects: seq<LinkUnit>, declared: seq<DeclaredUnit>, archive: seq<LinkUnit>, assemble: Assembler,
                       entrySymbol: string, known: Known, u: DeclaredUnit)
    requires Declared(u) in Pulled(objects, declared, archive, assemble, entrySymbol, known).linked
    ensures
      var taken := Pulled(objects, declared, archive, assemble, entrySymbol, known).linked;
      exists d :: d in u.defines && IsNeededOf(objects, entrySymbol, known, taken, assemble, u, d.name)
  {
    var taken := Pulled(objects, declared, archive, assemble, entrySymbol, known).linked;
    var order := PullRuns(objects, declared, archive, assemble, entrySymbol, known);
    var m :| m in order && m.key == Declared(u);
    var i :| 0 <= i < |order| && order[i] == m;
    PulledMemberIsNeeded(objects, entrySymbol, known, order, i, assemble, taken, u);
  }

  lemma RunOfMembers(declared: seq<DeclaredUnit>, archive: seq<LinkUnit>, assemble: Assembler, order: seq<Member<Key>>)
    requires forall m :: m in order ==>
      exists ms :: ms in [DeclaredViews(declared, assemble), ArchivedViews(archive, assemble)] && m in ms
    ensures AreMembers(order, assemble)
  {
    forall m | m in order
      ensures m == MemberOf(m.key, assemble)
    {
      if m in DeclaredViews(declared, assemble) {
        var i :| 0 <= i < |declared| && DeclaredViews(declared, assemble)[i] == m;
      } else {
        assert m in ArchivedViews(archive, assemble);
        var i :| 0 <= i < |archive| && ArchivedViews(archive, assemble)[i] == m;
      }
    }
  }

  lemma {:induction false} PullRuns(objects: seq<LinkUnit>, declared: seq<DeclaredUnit>, archive: seq<LinkUnit>, assemble: Assembler,
                 entrySymbol: string, known: Known) returns (order: seq<Member<Key>>)
    ensures Pulled(objects, declared, archive, assemble, entrySymbol, known).linked == Keys(order)
    ensures AreMembers(order, assemble) && AreDifferent(order)
    ensures AreCalledFor(order, KnownSymbols(objects, entrySymbol, known))
  {
    var from: Link<Key> := Link({}, FirstNames(objects, entrySymbol, known));
    var to := Pulled(objects, declared, archive, assemble, entrySymbol, known);
    order := GroupRuns([DeclaredViews(declared, assemble), ArchivedViews(archive, assemble)], from);
    FirstIsTaken(objects, entrySymbol, known);
    RunOfMembers(declared, archive, assemble, order);
    WholeRun(KnownSymbols(objects, entrySymbol, known), order, from, to);
    RunRaises(order, from, to);
  }

  lemma PulledMemberIsNeeded(objects: seq<LinkUnit>, entrySymbol: string, known: Known, order: seq<Member<Key>>, i: nat,
                             assemble: Assembler, taken: set<Key>, u: DeclaredUnit)
    requires i < |order| && order[i].key == Declared(u) && AreMembers(order, assemble) && AreDifferent(order)
    requires AreCalledFor(order, KnownSymbols(objects, entrySymbol, known)) && taken == Keys(order)
    ensures exists d :: d in u.defines && IsNeededOf(objects, entrySymbol, known, taken, assemble, u, d.name)
  {
    var base := KnownSymbols(objects, entrySymbol, known);
    assert order[i] in order && IsCalledFor(order[i], base, order[..i]);
    var o, s :| o in order[i].offers && Calls(s, base, order[..i], o);
    var j :| 0 <= j < |u.defines| && DeclaredOffers(u)[j] == o;
    assert u.defines[j] in u.defines;
    forall n | n in order[..i]
      ensures n.key in taken && n.key != Declared(u) && n == MemberOf(n.key, assemble)
    {
      var k :| 0 <= k < i && order[k] == n;
      assert n in order;
    }
    CallerNeedsDeclared(objects, entrySymbol, known, order[..i], assemble, taken, u, o, s);
  }

  /** Where the lazy loop starts from: what is known to be defined, what is known to be needed, and the entry symbol. */
  lemma {:induction false} FirstLevels(objects: seq<LinkUnit>, entrySymbol: string, known: Known, name: string)
    ensures name in known.defines ==> Level(FirstNames(objects, entrySymbol, known), name) == 4
    ensures name in known.needs || name == entrySymbol ==> Level(FirstNames(objects, entrySymbol, known), name) >= 2
  {
    var base := KnownSymbols(objects, entrySymbol, known);
    FirstIsTaken(objects, entrySymbol, known);
    TakeAllIsJoin(map[], base, name);
    HighestIsGreatest(base, name);
    if name in known.defines {
      var i :| 0 <= i < |known.defines| && known.defines[i] == name;
      assert NameDefinitions(known.defines)[i] in base;
    }
    if name in known.needs {
      var i :| 0 <= i < |known.needs| && known.needs[i] == name;
      assert NameReferences(known.needs)[i] in base;
    }
    assert EntryReference(entrySymbol) in base;
  }

  /** It stays known. */
  lemma {:induction false} KnownStaysKnown(objects: seq<LinkUnit>, declared: seq<DeclaredUnit>, archive: seq<LinkUnit>, assemble: Assembler,
                                           entrySymbol: string, known: Known, name: string)
    ensures
      var level := Level(Pulled(objects, declared, archive, assemble, entrySymbol, known).states, name);
      && (name in known.defines ==> level == 4)
      && (name in known.needs || name == entrySymbol ==> level >= 2)
  {
    FirstLevels(objects, entrySymbol, known, name);
    PulledRaises(objects, declared, archive, assemble, entrySymbol, known, name);
  }

  lemma PulledRaises(objects: seq<LinkUnit>, declared: seq<DeclaredUnit>, archive: seq<LinkUnit>, assemble: Assembler,
                     entrySymbol: string, known: Known, name: string)
    ensures Level(FirstNames(objects, entrySymbol, known), name)
         <= Level(Pulled(objects, declared, archive, assemble, entrySymbol, known).states, name)
  {
    var from: Link<Key> := Link({}, FirstNames(objects, entrySymbol, known));
    var order := GroupRuns([DeclaredViews(declared, assemble), ArchivedViews(archive, assemble)], from);
    RunRaises(order, from, Pulled(objects, declared, archive, assemble, entrySymbol, known));
  }

  lemma {:induction false} PulledSymbolRaises(objects: seq<LinkUnit>, declared: seq<DeclaredUnit>, archive: seq<LinkUnit>, assemble: Assembler,
                                              entrySymbol: string, known: Known, k: Key, s: Symbol)
    requires k in Pulled(objects, declared, archive, assemble, entrySymbol, known).linked && s in MemberOf(k, assemble).symbols
    ensures Rank(s) <= Level(Pulled(objects, declared, archive, assemble, entrySymbol, known).states, s.name)
  {
    var from: Link<Key> := Link({}, FirstNames(objects, entrySymbol, known));
    var order := GroupRuns([DeclaredViews(declared, assemble), ArchivedViews(archive, assemble)], from);
    RunOfMembers(declared, archive, assemble, order);
    RunRaises(order, from, Pulled(objects, declared, archive, assemble, entrySymbol, known));
    var m :| m in order && m.key == k;
  }

  /** A unit that does not assemble defines what it declares. */
  lemma {:induction false} FailedUnitsDefine(objects: seq<LinkUnit>, declared: seq<DeclaredUnit>, archive: seq<LinkUnit>, assemble: Assembler,
                                             entrySymbol: string, known: Known, u: DeclaredUnit, d: DeclaredName)
    requires Declared(u) in Pulled(objects, declared, archive, assemble, entrySymbol, known).linked
    requires assemble(u) == None && d in u.defines
    ensures Level(Pulled(objects, declared, archive, assemble, entrySymbol, known).states, d.name) == 4
  {
    FailureDefines(u, assemble, d);
    PulledSymbolRaises(objects, declared, archive, assemble, entrySymbol, known, Declared(u), Definition(d.name));
  }

  lemma FailureDefines(u: DeclaredUnit, assemble: Assembler, d: DeclaredName)
    requires assemble(u) == None && d in u.defines
    ensures Definition(d.name) in MemberOf(Declared(u), assemble).symbols
  {
    var i :| 0 <= i < |u.defines| && u.defines[i] == d;
    assert Definitions(u.defines)[i] == Definition(d.name);
    assert Effect(u, assemble) == Definitions(u.defines);
  }

  /** No declared unit left out declares a name that is still needed, nor really defines one only common so far. */
  lemma {:induction false} PulledIsClosed(objects: seq<LinkUnit>, declared: seq<DeclaredUnit>, archive: seq<LinkUnit>, assemble: Assembler,
                                          entrySymbol: string, known: Known, u: DeclaredUnit, d: DeclaredName)
    requires u in declared && Declared(u) !in Pulled(objects, declared, archive, assemble, entrySymbol, known).linked
    requires d in u.defines
    ensures
      var level := Level(Pulled(objects, declared, archive, assemble, entrySymbol, known).states, d.name);
      level != 2 && (DeclaresAs(u, d.name, false) ==> level != 3)
  {
    var from: Link<Key> := Link({}, FirstNames(objects, entrySymbol, known));
    var views := [DeclaredViews(declared, assemble), ArchivedViews(archive, assemble)];
    var r := Pulled(objects, declared, archive, assemble, entrySymbol, known);
    GroupIsClosed(views, from);
    var j :| 0 <= j < |declared| && declared[j] == u;
    assert views[0] in views && views[0][j] in views[0];
    WantedIsNeeded(r.states, DeclaredOffers(u));
    var i :| 0 <= i < |u.defines| && u.defines[i] == d;
    assert DeclaredOffers(u)[i] in DeclaredOffers(u);
  }
}
