/** Names that linked units define more than once (`strongDuplicates` of blink-js/src/link-selection.ts). */
module LinkDuplicates {
  import opened LinkRule
  import opened LinkSelection

  datatype Definition = Definition(unit: LinkUnit, symbol: Symbol)

  predicate IsStrong(s: Symbol) {
    s.binding != Weak && s.place != UndefinedPlace && !IsCommon(s)
  }

  /** A unit's strong definitions of `name`, in its symbol table's order. */
  function DefinitionsIn(u: LinkUnit, symbols: seq<Symbol>, name: string): seq<Definition>
    decreases |symbols|
  {
    if symbols == [] then []
    else
      var s := symbols[|symbols| - 1];
      DefinitionsIn(u, symbols[..|symbols| - 1], name)
      + if IsStrong(s) && s.name == name then [Definition(u, s)] else []
  }

  /** All strong definitions of `name`, unit by unit. */
  function DefinitionsOf(units: seq<LinkUnit>, name: string): seq<Definition>
    decreases |units|
  {
    if units == [] then []
    else
      var u := units[|units| - 1];
      DefinitionsOf(units[..|units| - 1], name) + DefinitionsIn(u, Visible(u.contents), name)
  }

  /** The units of some definitions, each once, in the order they first come. */
  function Defining(found: seq<Definition>): seq<LinkUnit>
    decreases |found|
  {
    if found == [] then []
    else
      var front := Defining(found[..|found| - 1]);
      var u := found[|found| - 1].unit;
      if u in front then front else front + [u]
  }

  /** An absolute symbol given the same value everywhere. */
  predicate SameAbsolute(found: seq<Definition>)
    requires found != []
  {
    forall d :: d in found ==> d.symbol.place == AbsolutePlace && d.symbol.value == found[0].symbol.value
  }

  predicate DefinesStrongly(u: LinkUnit, name: string) {
    exists s :: s in Visible(u.contents) && IsStrong(s) && s.name == name
  }

  lemma {:induction false} DefinitionsInAre(u: LinkUnit, symbols: seq<Symbol>, name: string, d: Definition)
    ensures d in DefinitionsIn(u, symbols, name) <==>
      d.unit == u && d.symbol in symbols && IsStrong(d.symbol) && d.symbol.name == name
  {
    if symbols != [] {
      DefinitionsInAre(u, symbols[..|symbols| - 1], name, d);
      assert d.symbol in symbols <==> d.symbol in symbols[..|symbols| - 1] || d.symbol == symbols[|symbols| - 1];
    }
  }

  lemma {:induction false} DefinitionsAre(units: seq<LinkUnit>, name: string, d: Definition)
    ensures d in DefinitionsOf(units, name) <==>
      && d.unit in units && d.symbol in Visible(d.unit.contents)
      && IsStrong(d.symbol) && d.symbol.name == name
  {
    if units != [] {
      var u := units[|units| - 1];
      DefinitionsAre(units[..|units| - 1], name, d);
      DefinitionsInAre(u, Visible(u.contents), name, d);
      assert d.unit in units <==> d.unit in units[..|units| - 1] || d.unit == u;
    }
  }

  lemma {:induction false} DefiningAre(found: seq<Definition>, u: LinkUnit)
    ensures u in Defining(found) <==> exists d :: d in found && d.unit == u
    ensures forall i, j :: 0 <= i < j < |Defining(found)| ==> Defining(found)[i] != Defining(found)[j]
  {
    if found != [] {
      var front, last := found[..|found| - 1], found[|found| - 1];
      DefiningAre(front, u);
      assert forall d :: d in found <==> d in front || d == last;
      assert last in found;
    }
  }

  /** Whether `name` is defined strongly nowhere but as an absolute symbol of this value. */
  predicate AllAbsolute(units: seq<LinkUnit>, name: string, value: int) {
    forall u, s :: u in units && s in Visible(u.contents) && IsStrong(s) && s.name == name
      ==> s.place == AbsolutePlace && s.value == value
  }

  /** A name is a duplicate when two units define it strongly, unless all agree on an absolute value. */
  ghost predicate IsDuplicate(units: seq<LinkUnit>, name: string) {
    && (exists u, v :: u in units && v in units && Clash(name, u, v))
    && !exists value :: AllAbsolute(units, name, value)
  }

  /** A definition other objects see, neither weak nor common. */
  predicate IsStrongDefinition(s: Symbol, name: string) {
    && s.name == name && name != "" && s.kind == OtherKind
    && s.binding in {Global, Unique, OtherBinding} && (s.place == AbsolutePlace || s.place.InSection?)
  }

  predicate HasStrongDefinition(u: LinkUnit, name: string) {
    exists s :: s in u.contents && IsStrongDefinition(s, name)
  }

  lemma StrongDefinitionsAre(u: LinkUnit, s: Symbol, name: string)
    ensures s in Visible(u.contents) && IsStrong(s) && s.name == name <==> s in u.contents && IsStrongDefinition(s, name)
  {
  }

  lemma DefinersAre(u: LinkUnit, name: string)
    ensures DefinesStrongly(u, name) <==> HasStrongDefinition(u, name)
  {
    if DefinesStrongly(u, name) {
      var s :| s in Visible(u.contents) && IsStrong(s) && s.name == name;
      StrongDefinitionsAre(u, s, name);
    }
    if HasStrongDefinition(u, name) {
      var s :| s in u.contents && IsStrongDefinition(s, name);
      StrongDefinitionsAre(u, s, name);
    }
  }

  predicate AllSameAbsolute(units: seq<LinkUnit>, name: string, value: int) {
    forall u, s :: u in units && s in u.contents && IsStrongDefinition(s, name) ==> s.place == AbsolutePlace && s.value == value
  }

  lemma AbsolutesAre(units: seq<LinkUnit>, name: string, value: int)
    ensures AllAbsolute(units, name, value) <==> AllSameAbsolute(units, name, value)
  {
    forall u: LinkUnit, s: Symbol
      ensures s in Visible(u.contents) && IsStrong(s) && s.name == name <==> s in u.contents && IsStrongDefinition(s, name)
    {
      StrongDefinitionsAre(u, s, name);
    }
  }

  /** Two different units with a strong definition. */
  predicate AreTwo(name: string, u: LinkUnit, v: LinkUnit) {
    u != v && HasStrongDefinition(u, name) && HasStrongDefinition(v, name)
  }

  lemma ClashesAre(name: string, u: LinkUnit, v: LinkUnit)
    ensures Clash(name, u, v) <==> AreTwo(name, u, v)
  {
    DefinersAre(u, name);
    DefinersAre(v, name);
  }

  /** What makes a name a duplicate, in terms of the units' symbols alone. */
  lemma {:induction false} DuplicatesAre(units: seq<LinkUnit>, name: string)
    ensures IsDuplicate(units, name) <==>
      && (exists u, v :: u in units && v in units && AreTwo(name, u, v))
      && !exists value :: AllSameAbsolute(units, name, value)
  {
    assert (exists u, v :: u in units && v in units && Clash(name, u, v))
      <==> (exists u, v :: u in units && v in units && AreTwo(name, u, v)) by {
      forall u, v
        ensures Clash(name, u, v) <==> AreTwo(name, u, v)
      {
        ClashesAre(name, u, v);
      }
    }
    assert (exists value :: AllAbsolute(units, name, value)) <==> exists value :: AllSameAbsolute(units, name, value) by {
      forall value
        ensures AllAbsolute(units, name, value) <==> AllSameAbsolute(units, name, value)
      {
        AbsolutesAre(units, name, value);
      }
    }
  }

  /** The units with a strong definition of the name, each where it first comes. */
  function Definers(units: seq<LinkUnit>, name: string): seq<LinkUnit>
    decreases |units|
  {
    if units == [] then []
    else
      var front, u := Definers(units[..|units| - 1], name), units[|units| - 1];
      if HasStrongDefinition(u, name) && u !in front then front + [u] else front
  }

  lemma {:induction false} DefiningAppends(found: seq<Definition>, u: LinkUnit, symbols: seq<Symbol>, name: string)
    ensures
      var more := DefinitionsIn(u, symbols, name);
      Defining(found + more) == if more == [] || u in Defining(found) then Defining(found) else Defining(found) + [u]
    decreases |symbols|
  {
    var more := DefinitionsIn(u, symbols, name);
    if more == [] {
      assert found + more == found;
    } else {
      var s, front := symbols[|symbols| - 1], symbols[..|symbols| - 1];
      DefiningAppends(found, u, front, name);
      var before := DefinitionsIn(u, front, name);
      if !IsStrong(s) || s.name != name {
        assert more == before;
      } else {
        assert more == before + [Definition(u, s)];
        assert found + more == (found + before) + [Definition(u, s)];
        assert (found + more)[..|found + more| - 1] == found + before;
        assert before == [] ==> found + before == found;
      }
    }
  }

  lemma {:induction false} DefiningInOrder(units: seq<LinkUnit>, name: string)
    ensures Defining(DefinitionsOf(units, name)) == Definers(units, name)
    decreases |units|
  {
    if units != [] {
      var u, front := units[|units| - 1], units[..|units| - 1];
      var symbols := Visible(u.contents);
      DefiningInOrder(front, name);
      DefiningAppends(DefinitionsOf(front, name), u, symbols, name);
      DefinersAre(u, name);
      if DefinitionsIn(u, symbols, name) != [] {
        var d := DefinitionsIn(u, symbols, name)[0];
        DefinitionsInAre(u, symbols, name, d);
      }
      if DefinesStrongly(u, name) {
        var s :| s in symbols && IsStrong(s) && s.name == name;
        DefinitionsInAre(u, symbols, name, Definition(u, s));
      }
    }
  }

  /** What the loop over the names decides. */
  predicate IsReported(found: seq<Definition>) {
    |found| >= 2 && !SameAbsolute(found) && |Defining(found)| > 1
  }

  lemma DefiningUnit(units: seq<LinkUnit>, name: string, u: LinkUnit)
    ensures u in Defining(DefinitionsOf(units, name)) <==> u in units && DefinesStrongly(u, name)
  {
    var found := DefinitionsOf(units, name);
    DefiningAre(found, u);
    if u in Defining(found) {
      var d :| d in found && d.unit == u;
      DefinitionsAre(units, name, d);
    }
    if u in units && DefinesStrongly(u, name) {
      var s :| s in Visible(u.contents) && IsStrong(s) && s.name == name;
      DefinitionsAre(units, name, Definition(u, s));
    }
  }

  /** Two different units that both define `name` strongly. */
  predicate Clash(name: string, u: LinkUnit, v: LinkUnit) {
    u != v && DefinesStrongly(u, name) && DefinesStrongly(v, name)
  }

  lemma TwoUnitsDefine(units: seq<LinkUnit>, name: string)
    ensures |Defining(DefinitionsOf(units, name))| > 1 <==> exists u, v :: u in units && v in units && Clash(name, u, v)
  {
    var found := DefinitionsOf(units, name);
    var defining := Defining(found);
    if |defining| > 1 {
      var u, v := defining[0], defining[1];
      DefiningAre(found, u);
      DefiningUnit(units, name, u);
      DefiningUnit(units, name, v);
      assert Clash(name, u, v);
    }
    if u, v :| u in units && v in units && Clash(name, u, v) {
      DefiningUnit(units, name, u);
      DefiningUnit(units, name, v);
      var i :| 0 <= i < |defining| && defining[i] == u;
      var j :| 0 <= j < |defining| && defining[j] == v;
      assert i != j;
    }
  }

  lemma AbsoluteEverywhere(units: seq<LinkUnit>, name: string)
    requires DefinitionsOf(units, name) != []
    ensures SameAbsolute(DefinitionsOf(units, name)) <==> exists value :: AllAbsolute(units, name, value)
  {
    var found := DefinitionsOf(units, name);
    var first := found[0].symbol.value;
    forall d: Definition
      ensures d in found <==>
        d.unit in units && d.symbol in Visible(d.unit.contents) && IsStrong(d.symbol) && d.symbol.name == name
    {
      DefinitionsAre(units, name, d);
    }
    if SameAbsolute(found) {
      forall u, s | u in units && s in Visible(u.contents) && IsStrong(s) && s.name == name
        ensures s.place == AbsolutePlace && s.value == first
      {
        assert Definition(u, s) in found;
      }
      assert AllAbsolute(units, name, first);
    }
    if value :| AllAbsolute(units, name, value) {
      assert found[0] in found;
    }
  }

  /** A name is reported just when it is a duplicate. */
  lemma ReportsDuplicates(units: seq<LinkUnit>, name: string)
    ensures IsReported(DefinitionsOf(units, name)) <==> IsDuplicate(units, name)
  {
    var found := DefinitionsOf(units, name);
    TwoUnitsDefine(units, name);
    if |Defining(found)| > 1 {
      FewDefinitions(found);
      AbsoluteEverywhere(units, name);
    }
  }

  lemma {:induction false} FewDefinitions(found: seq<Definition>)
    ensures |Defining(found)| <= |found|
  {
    if found != [] {
      FewDefinitions(found[..|found| - 1]);
    }
  }

  // ---------------------------------------------------------------------------------------------
  // The two loops
  // ---------------------------------------------------------------------------------------------

  type Index = map<string, seq<Definition>>

  function Lookup(definitions: Index, name: string): seq<Definition> {
    if name in definitions then definitions[name] else []
  }

  function Added(definitions: Index, u: LinkUnit, s: Symbol): Index {
    if IsStrong(s) then definitions[s.name := Lookup(definitions, s.name) + [Definition(u, s)]] else definitions
  }

  lemma AddedHolds(before: Index, definitions: Index, u: LinkUnit, symbols: seq<Symbol>, name: string)
    requires symbols != []
    requires Lookup(definitions, name) == Lookup(before, name) + DefinitionsIn(u, symbols[..|symbols| - 1], name)
    ensures Lookup(Added(definitions, u, symbols[|symbols| - 1]), name)
         == Lookup(before, name) + DefinitionsIn(u, symbols, name)
  {
  }

  /** The definitions are those before, and after them the strong ones among the symbols. */
  ghost predicate Extends(definitions: Index, before: Index, u: LinkUnit, symbols: seq<Symbol>) {
    forall name :: Lookup(definitions, name) == Lookup(before, name) + DefinitionsIn(u, symbols, name)
  }

  lemma AddedExtends(before: Index, definitions: Index, u: LinkUnit, symbols: seq<Symbol>, i: nat)
    requires i < |symbols| && Extends(definitions, before, u, symbols[..i])
    ensures Extends(Added(definitions, u, symbols[i]), before, u, symbols[..i + 1])
  {
    assert symbols[..i + 1][..i] == symbols[..i];
    forall name ensures Lookup(Added(definitions, u, symbols[i]), name)
                     == Lookup(before, name) + DefinitionsIn(u, symbols[..i + 1], name) {
      AddedHolds(before, definitions, u, symbols[..i + 1], name);
    }
  }

  method AddDefinitions(u: LinkUnit, definitions0: Index) returns (definitions: Index)
    ensures Extends(definitions, definitions0, u, Visible(u.contents))
  {
    var symbols := Visible(u.contents);
    definitions := definitions0;
    for i := 0 to |symbols|
      invariant Extends(definitions, definitions0, u, symbols[..i])
    {
      var symbol := symbols[i];
      AddedExtends(definitions0, definitions, u, symbols, i);
      if !(symbol.binding == Weak || symbol.place == UndefinedPlace || IsCommon(symbol)) {
        definitions := definitions[symbol.name := Lookup(definitions, symbol.name) + [Definition(u, symbol)]];
      }
    }
    assert symbols[..|symbols|] == symbols;
  }

  /** The names more than one unit defines strongly, with the units that do, in order. */
  method StrongDuplicates(units: seq<LinkUnit>) returns (duplicates: map<string, seq<LinkUnit>>)
    ensures forall name :: name in duplicates <==> IsDuplicate(units, name)
    ensures forall name :: name in duplicates ==> duplicates[name] == Definers(units, name)
  {
    var definitions: Index := map[];
    for i := 0 to |units|
      invariant forall name :: Lookup(definitions, name) == DefinitionsOf(units[..i], name)
    {
      assert units[..i + 1][..i] == units[..i];
      definitions := AddDefinitions(units[i], definitions);
    }
    assert units[..|units|] == units;
    duplicates := map[];
    var names := definitions.Keys;
    while names != {}
      invariant names <= definitions.Keys
      invariant forall name :: name in duplicates <==>
        name in definitions.Keys - names && IsReported(definitions[name])
      invariant forall name :: name in duplicates ==> duplicates[name] == Defining(definitions[name])
      decreases |names|
    {
      var name :| name in names;
      names := names - {name};
      var found := definitions[name];
      if |found| < 2 {
        continue;
      }
      var defining := Defining(found);
      if !SameAbsolute(found) && |defining| > 1 {
        duplicates := duplicates[name := defining];
      }
    }
    forall name ensures name in duplicates <==> IsDuplicate(units, name) {
      assert Lookup(definitions, name) == DefinitionsOf(units, name);
      ReportsDuplicates(units, name);
    }
    forall name | name in duplicates
      ensures duplicates[name] == Definers(units, name)
    {
      assert Lookup(definitions, name) == definitions[name];
      DefiningInOrder(units, name);
    }
  }
}
