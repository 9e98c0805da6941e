/**
  Linking units that are assembled only when the link takes them (`pullDeclaredUnits` of
  blink-js/src/link-selection.ts), and why that takes the same units as linking them all assembled.
 */
module LinkPull {
  import opened Options
  import opened LinkRule
  import opened LinkSelection

  datatype DeclaredName = DeclaredName(name: string, common: bool)

  /** A unit known only by its text until the link takes it. */
  class DeclaredUnit {
    const path: string
    const defines: seq<DeclaredName>

    constructor (path: string, defines: seq<DeclaredName>)
      ensures this.path == path && this.defines == defines
    {
      this.path, this.defines := path, defines;
    }
  }

  /** What assembling a unit gives: its object, or nothing. */
  type Assembler = DeclaredUnit -> Option<Object>

  /** The two kinds of units the loop takes, kept in a set each. */
  datatype Key = Declared(unit: DeclaredUnit) | Archived(member: LinkUnit)

  predicate DeclaresReally(defines: seq<DeclaredName>, name: string) {
    exists d :: d in defines && d.name == name && !d.common
  }

  /** A name as a definition of it puts it in the table. */
  function Definition(name: string): Symbol {
    Symbol(name, Global, OtherKind, AbsolutePlace, 0)
  }

  function Definitions(defines: seq<DeclaredName>): (r: seq<Symbol>)
    ensures |r| == |defines|
  {
    seq(|defines|, i requires 0 <= i < |defines| => Definition(defines[i].name))
  }

  /** What taking a unit adds: its object's symbols, or what it declares when it does not assemble. */
  function Effect(u: DeclaredUnit, assemble: Assembler): seq<Symbol> {
    match assemble(u)
    case Some(o) => Visible(o)
    case None => Definitions(u.defines)
  }

  /** What a unit's declarations offer. */
  function DeclaredOffers(u: DeclaredUnit): seq<(string, bool)> {
    seq(|u.defines|, i requires 0 <= i < |u.defines| => (u.defines[i].name, DeclaresReally(u.defines, u.defines[i].name)))
  }

  function DeclaredView(u: DeclaredUnit, assemble: Assembler): Member<Key> {
    Member(Declared(u), DeclaredOffers(u), Effect(u, assemble))
  }

  function ArchivedView(u: LinkUnit): Member<Key> {
    var m := View(u);
    Member(Archived(u), m.offers, m.symbols)
  }

  /** A unit of either kind as the rule sees it. */
  function MemberOf(k: Key, assemble: Assembler): (m: Member<Key>)
    ensures m.key == k
  {
    match k case Declared(u) => DeclaredView(u, assemble) case Archived(m) => ArchivedView(m)
  }

  function Members(keys: seq<Key>, assemble: Assembler): (r: seq<Member<Key>>)
    ensures |r| == |keys|
    ensures forall i :: 0 <= i < |r| ==> r[i] == MemberOf(keys[i], assemble)
  {
    seq(|keys|, i requires 0 <= i < |keys| => MemberOf(keys[i], assemble))
  }

  function DeclaredKeys(units: seq<DeclaredUnit>): (r: seq<Key>)
    ensures |r| == |units|
    ensures forall i :: 0 <= i < |r| ==> r[i] == Declared(units[i])
  {
    seq(|units|, i requires 0 <= i < |units| => Declared(units[i]))
  }

  function ArchivedKeys(members: seq<LinkUnit>): (r: seq<Key>)
    ensures |r| == |members|
    ensures forall i :: 0 <= i < |r| ==> r[i] == Archived(members[i])
  {
    seq(|members|, i requires 0 <= i < |members| => Archived(members[i]))
  }

  function DeclaredViews(units: seq<DeclaredUnit>, assemble: Assembler): (r: seq<Member<Key>>)
    ensures |r| == |units|
    ensures forall i :: 0 <= i < |r| ==> r[i] == DeclaredView(units[i], assemble)
  {
    Members(DeclaredKeys(units), assemble)
  }

  function ArchivedViews(members: seq<LinkUnit>, assemble: Assembler): (r: seq<Member<Key>>)
    ensures |r| == |members|
    ensures forall i :: 0 <= i < |r| ==> r[i] == ArchivedView(members[i])
  {
    Members(ArchivedKeys(members), assemble)
  }

  function DefineNames(t: Table, names: seq<string>): Table {
    if names == [] then t
    else DefineNames(t, names[..|names| - 1])[names[|names| - 1] := Defined]
  }

  function NeedNames(t: Table, names: seq<string>): Table {
    if names == [] then t
    else NeedName(NeedNames(t, names[..|names| - 1]), names[|names| - 1])
  }

  /** What an object that could not be made is known to define and to need. */
  datatype Known = Known(defines: seq<string>, needs: seq<string>)

  function FirstNames(objects: seq<LinkUnit>, entrySymbol: string, known: Known): Table {
    NeedNames(TakeObjects(DefineNames(map[entrySymbol := Undefined], known.defines), objects), known.needs)
  }

  /** Where the lazy loop ends. */
  function Pulled(objects: seq<LinkUnit>, declared: seq<DeclaredUnit>, archive: seq<LinkUnit>,
                  assemble: Assembler, entrySymbol: string, known: Known): Link<Key> {
    Group([DeclaredViews(declared, assemble), ArchivedViews(archive, assemble)],
          Link({}, FirstNames(objects, entrySymbol, known)))
  }

  function KeysOf(taken: set<DeclaredUnit>, archiveTaken: set<LinkUnit>): set<Key> {
    (set u | u in taken :: Declared(u)) + (set m | m in archiveTaken :: Archived(m))
  }

  // ---------------------------------------------------------------------------------------------
  // The loop
  // ---------------------------------------------------------------------------------------------

  function NamesListed(k: Key): seq<string> {
    match k
    case Declared(u) => seq(|u.defines|, i requires 0 <= i < |u.defines| => u.defines[i].name)
    case Archived(m) => var index := IndexOf(m); seq(|index|, i requires 0 <= i < |index| => index[i].name)
  }

  function KeyIndexOf(k: Key): seq<IndexEntry<Key>> {
    var names := NamesListed(k);
    seq(|names|, i requires 0 <= i < |names| => IndexEntry(names[i], k))
  }

  /** The index: of each unit in turn the names it lists. */
  function KeyIndex(keys: seq<Key>): seq<IndexEntry<Key>> {
    if keys == [] then [] else KeyIndexOf(keys[0]) + KeyIndex(keys[1..])
  }

  predicate Really(k: Key, name: string) {
    match k
    case Declared(u) => DeclaresReally(u.defines, name)
    case Archived(m) => DefinesReally(Visible(m.contents), name)
  }

  function KeyEntry(e: IndexEntry<Key>, assemble: Assembler): Entry<Key> {
    Entry(e.name, Really(e.unit, e.name), MemberOf(e.unit, assemble))
  }

  function KeyEntries(index: seq<IndexEntry<Key>>, assemble: Assembler): (r: seq<Entry<Key>>)
    ensures |r| == |index|
    ensures forall i :: 0 <= i < |r| ==> r[i] == KeyEntry(index[i], assemble)
  {
    seq(|index|, i requires 0 <= i < |index| => KeyEntry(index[i], assemble))
  }

  lemma KeyIndexOfIsEntriesOf(k: Key, assemble: Assembler)
    ensures KeyEntries(KeyIndexOf(k), assemble) == EntriesOf(MemberOf(k, assemble))
  {
    var a, b := KeyEntries(KeyIndexOf(k), assemble), EntriesOf(MemberOf(k, assemble));
    assert |a| == |b|;
    forall i | 0 <= i < |a|
      ensures a[i] == b[i]
    {
      assert a[i] == KeyEntry(KeyIndexOf(k)[i], assemble);
    }
  }

  lemma KeyEntriesAppend(xs: seq<IndexEntry<Key>>, ys: seq<IndexEntry<Key>>, assemble: Assembler)
    ensures KeyEntries(xs + ys, assemble) == KeyEntries(xs, assemble) + KeyEntries(ys, assemble)
  {
    var a, b := KeyEntries(xs + ys, assemble), KeyEntries(xs, assemble) + KeyEntries(ys, assemble);
    forall i | 0 <= i < |a|
      ensures a[i] == b[i]
    {
      assert a[i] == KeyEntry((xs + ys)[i], assemble);
    }
  }

  lemma {:induction false} KeyIndexIsEntries(keys: seq<Key>, assemble: Assembler)
    ensures KeyEntries(KeyIndex(keys), assemble) == Entries(Members(keys, assemble))
  {
    if keys != [] {
      KeyIndexIsEntries(keys[1..], assemble);
      assert Members(keys, assemble)[1..] == Members(keys[1..], assemble);
      KeyIndexOfIsEntriesOf(keys[0], assemble);
      KeyEntriesAppend(KeyIndexOf(keys[0]), KeyIndex(keys[1..]), assemble);
    }
  }

  /** An index lists what its units offer. */
  ghost predicate IsListed(e: IndexEntry<Key>, assemble: Assembler) {
    (e.name, Really(e.unit, e.name)) in MemberOf(e.unit, assemble).offers
  }

  lemma {:induction false} IndexLists(keys: seq<Key>, assemble: Assembler)
    ensures forall e :: e in KeyIndex(keys) ==> IsListed(e, assemble)
  {
    if keys != [] {
      IndexLists(keys[1..], assemble);
      var index := KeyIndexOf(keys[0]);
      forall i | 0 <= i < |index|
        ensures IsListed(index[i], assemble)
      {
        assert MemberOf(keys[0], assemble).offers[i] == (index[i].name, Really(keys[0], index[i].name));
      }
    }
  }

  lemma KeysOfGrow(taken: set<DeclaredUnit>, archiveTaken: set<LinkUnit>)
    ensures forall u :: Declared(u) in KeysOf(taken, archiveTaken) <==> u in taken
    ensures forall m :: Archived(m) in KeysOf(taken, archiveTaken) <==> m in archiveTaken
    ensures forall u :: KeysOf(taken + {u}, archiveTaken) == KeysOf(taken, archiveTaken) + {Declared(u)}
    ensures forall m :: KeysOf(taken, archiveTaken + {m}) == KeysOf(taken, archiveTaken) + {Archived(m)}
  {
  }

  /** A call of the assembler, and the table of names as it was then. */
  datatype Call = Call(unit: DeclaredUnit, states: Table)

  /** The calls a run makes: one for each declared unit, at its turn. */
  function Calls(run: seq<Member<Key>>, from: Link<Key>): seq<Call> {
    if run == [] then []
    else (if run[0].key.Declared? then [Call(run[0].key.unit, from.states)] else []) + Calls(run[1..], Taken(run[0], from))
  }

  lemma {:induction false} CallsAppend(xs: seq<Member<Key>>, m: Member<Key>, from: Link<Key>, to: Link<Key>)
    requires Run(xs, from, to)
    ensures Calls(xs + [m], from) == Calls(xs, from) + Calls([m], to)
  {
    if xs == [] {
      assert xs + [m] == [m];
    } else {
      assert (xs + [m])[1..] == xs[1..] + [m];
      CallsAppend(xs[1..], m, Taken(xs[0], from), to);
    }
  }

  /** What has been taken so far, in order, and what was assembled for it. */
  datatype Progress = Progress(taken: set<DeclaredUnit>, archiveTaken: set<LinkUnit>, order: seq<Key>, assembled: seq<Call>) {
    /** Every unit taken was assembled, once, when a name it declares was wanted. */
    ghost predicate Valid() {
      && taken == (set c | c in assembled :: c.unit)
      && AreDistinct(assembled)
      && (forall c :: c in assembled ==> Wanted(c.states, DeclaredOffers(c.unit)))
    }

    /** The units were taken by a run of the rule, and assembled each at its turn. */
    ghost predicate Follows(assemble: Assembler, start: Link<Key>, states: Table) {
      && Run(Members(order, assemble), start, Link(Linked(), states))
      && assembled == Calls(Members(order, assemble), start)
    }

    function Linked(): set<Key> {
      KeysOf(taken, archiveTaken)
    }
  }

  /** Each call is for a unit not taken before, with a table that wants one of its names. */
  ghost predicate IsDue(c: Call, order: seq<Key>, from: Link<Key>) {
    Declared(c.unit) in order && Declared(c.unit) !in from.linked && Wanted(c.states, DeclaredOffers(c.unit))
  }

  predicate AreDistinct(calls: seq<Call>) {
    forall i, j :: 0 <= i < j < |calls| ==> calls[i].unit != calls[j].unit
  }

  lemma CallsUnfold(order: seq<Key>, assemble: Assembler, from: Link<Key>)
    requires order != []
    ensures
      var first: seq<Call> := if order[0].Declared? then [Call(order[0].unit, from.states)] else [];
      Calls(Members(order, assemble), from)
        == first + Calls(Members(order[1..], assemble), Taken(MemberOf(order[0], assemble), from))
  {
    assert Members(order, assemble)[1..] == Members(order[1..], assemble);
  }

  lemma {:induction false} CallsAreDue(order: seq<Key>, assemble: Assembler, from: Link<Key>, to: Link<Key>)
    requires Run(Members(order, assemble), from, to)
    ensures forall c :: c in Calls(Members(order, assemble), from) ==> IsDue(c, order, from)
    ensures AreDistinct(Calls(Members(order, assemble), from))
    decreases |order|
  {
    if order != [] {
      var next := Taken(MemberOf(order[0], assemble), from);
      assert Members(order, assemble)[1..] == Members(order[1..], assemble);
      CallsAreDue(order[1..], assemble, next, to);
      CallsUnfold(order, assemble, from);
      DueBefore(Calls(Members(order[1..], assemble), next), order, MemberOf(order[0], assemble), from);
    }
  }

  lemma DueBefore(rest: seq<Call>, order: seq<Key>, m: Member<Key>, from: Link<Key>)
    requires order != [] && m.key == order[0] && m.key !in from.linked
    requires m.key.Declared? ==> Wanted(from.states, DeclaredOffers(m.key.unit))
    requires (forall c :: c in rest ==> IsDue(c, order[1..], Taken(m, from))) && AreDistinct(rest)
    ensures
      var first: seq<Call> := if order[0].Declared? then [Call(order[0].unit, from.states)] else [];
      (forall c :: c in first + rest ==> IsDue(c, order, from)) && AreDistinct(first + rest)
  {
    forall c | c in rest
      ensures IsDue(c, order, from) && Declared(c.unit) != order[0]
    {
      assert IsDue(c, order[1..], Taken(m, from));
    }
  }

  /** Every declared unit that a run takes is assembled. */
  lemma {:induction false} TakenIsCalled(order: seq<Key>, assemble: Assembler, from: Link<Key>, u: DeclaredUnit)
    requires Declared(u) in order
    ensures exists c :: c in Calls(Members(order, assemble), from) && c.unit == u
    decreases |order|
  {
    var next := Taken(MemberOf(order[0], assemble), from);
    CallsUnfold(order, assemble, from);
    if order[0] == Declared(u) {
      assert Calls(Members(order, assemble), from)[0].unit == u;
    } else {
      TakenIsCalled(order[1..], assemble, next, u);
      var c :| c in Calls(Members(order[1..], assemble), next) && c.unit == u;
      assert c in Calls(Members(order, assemble), from);
    }
  }

  lemma OrderIsTaken(p: Progress, assemble: Assembler, start: Link<Key>, states: Table)
    requires p.Follows(assemble, start, states) && start.linked == {}
    ensures forall u :: u in p.taken <==> Declared(u) in p.order
  {
    var run := Members(p.order, assemble);
    RunRaises(run, start, Link(p.Linked(), states));
    KeysOfGrow(p.taken, p.archiveTaken);
    forall k | k in p.order
      ensures k in Keys(run)
    {
      var i :| 0 <= i < |p.order| && p.order[i] == k;
      assert run[i] in run;
    }
  }

  lemma FollowingIsValid(p: Progress, assemble: Assembler, start: Link<Key>, states: Table)
    requires p.Follows(assemble, start, states) && start.linked == {}
    ensures p.Valid()
  {
    OrderIsTaken(p, assemble, start, states);
    CallsAreDue(p.order, assemble, start, Link(p.Linked(), states));
    forall u | u in p.taken
      ensures exists c :: c in p.assembled && c.unit == u
    {
      TakenIsCalled(p.order, assemble, start, u);
    }
    forall c | c in p.assembled
      ensures c.unit in p.taken && Wanted(c.states, DeclaredOffers(c.unit))
    {
      assert IsDue(c, p.order, start);
    }
  }

  lemma OneMoreFollows(p0: Progress, p: Progress, k: Key, assemble: Assembler, start: Link<Key>, t0: Table, t: Table)
    requires p0.Follows(assemble, start, t0)
    requires k !in p0.Linked() && Wanted(t0, MemberOf(k, assemble).offers)
    requires Link(p.Linked(), t) == Taken(MemberOf(k, assemble), Link(p0.Linked(), t0))
    requires p.order == p0.order + [k]
    requires p.assembled == p0.assembled + if k.Declared? then [Call(k.unit, t0)] else []
    ensures p.Follows(assemble, start, t)
  {
    var run, m := Members(p0.order, assemble), MemberOf(k, assemble);
    var from, to := Link(p0.Linked(), t0), Link(p.Linked(), t);
    assert Members(p.order, assemble) == run + [m];
    assert [m][1..] == [] && Calls([m][1..], to) == [];
    RunAppends(run, [m], start, from, to);
    CallsAppend(run, m, start, from);
  }

  method DefineAll(defines: seq<DeclaredName>, states: NameStates)
    modifies states
    ensures states.states == TakeAll(old(states.states), Definitions(defines))
  {
    ghost var symbols := Definitions(defines);
    for i := 0 to |defines|
      invariant states.states == TakeAll(old(states.states), symbols[..i])
    {
      assert symbols[..i + 1][..i] == symbols[..i];
      states.Define(defines[i].name);
    }
    assert symbols[..|defines|] == symbols;
  }

  /** Takes a declared unit: assembles it, and reads its object or else its declarations. */
  method TakeDeclared(unit: DeclaredUnit, assemble: Assembler, states: NameStates, p0: Progress) returns (p: Progress)
    requires unit !in p0.taken && Wanted(states.states, DeclaredOffers(unit))
    modifies states
    ensures Link(p.Linked(), states.states) == Taken(DeclaredView(unit, assemble), Link(p0.Linked(), old(states.states)))
    ensures p.order == p0.order + [Declared(unit)]
    ensures p.assembled == p0.assembled + [Call(unit, old(states.states))]
  {
    KeysOfGrow(p0.taken, p0.archiveTaken);
    p := Progress(p0.taken + {unit}, p0.archiveTaken, p0.order + [Declared(unit)], p0.assembled + [Call(unit, states.states)]);
    match assemble(unit) {
      case Some(o) => states.Take(o);
      case None => DefineAll(unit.defines, states);
    }
  }

  method TakeMember(member: LinkUnit, assemble: Assembler, states: NameStates, p0: Progress) returns (p: Progress)
    requires member !in p0.archiveTaken
    modifies states
    ensures Link(p.Linked(), states.states) == Taken(ArchivedView(member), Link(p0.Linked(), old(states.states)))
    ensures p.order == p0.order + [Archived(member)] && p.assembled == p0.assembled
  {
    KeysOfGrow(p0.taken, p0.archiveTaken);
    p := p0.(archiveTaken := p0.archiveTaken + {member}, order := p0.order + [Archived(member)]);
    states.Take(member.contents);
  }

  predicate HasTaken(p: Progress, k: Key) {
    match k case Declared(u) => u in p.taken case Archived(m) => m in p.archiveTaken
  }

  /** Takes a unit for one of the names it lists, if that is wanted, and only then assembles it. */
  method PullEntry(e: IndexEntry<Key>, assemble: Assembler, states: NameStates, p0: Progress, ghost start: Link<Key>)
    returns (p: Progress, took: bool)
    requires p0.Follows(assemble, start, states.states) && IsListed(e, assemble)
    modifies states
    ensures p.Follows(assemble, start, states.states)
    ensures Link(p.Linked(), states.states) == VisitEntry(KeyEntry(e, assemble), Link(p0.Linked(), old(states.states)))
    ensures p0.Linked() <= p.Linked()
    ensures took <==> p.Linked() != p0.Linked()
  {
    KeysOfGrow(p0.taken, p0.archiveTaken);
    if HasTaken(p0, e.unit) || !WantsName(states.states, e.name, Really(e.unit, e.name)) {
      return p0, false;
    }
    ghost var t0 := states.states;
    match e.unit {
      case Declared(unit) => p := TakeDeclared(unit, assemble, states, p0);
      case Archived(member) => p := TakeMember(member, assemble, states, p0);
    }
    OneMoreFollows(p0, p, e.unit, assemble, start, t0, states.states);
    took := true;
  }

  lemma ScanNext<U>(entries: seq<Entry<U>>, i: nat, l: Link<U>)
    requires i < |entries|
    ensures Scan(entries[..i + 1], l) == VisitEntry(entries[i], Scan(entries[..i], l))
  {
    assert entries[..i + 1][..i] == entries[..i];
  }

  /** One pass over an index. */
  method PullIndex(keys: seq<Key>, index: seq<IndexEntry<Key>>, assemble: Assembler, states: NameStates, p0: Progress,
                   ghost start: Link<Key>)
    returns (p: Progress, again: bool)
    requires p0.Follows(assemble, start, states.states) && index == KeyIndex(keys)
    modifies states
    ensures p.Follows(assemble, start, states.states)
    ensures Link(p.Linked(), states.states) == Sweep(Members(keys, assemble), Link(p0.Linked(), old(states.states)))
    ensures again <==> p.Linked() != p0.Linked()
  {
    ghost var entries := KeyEntries(index, assemble);
    ghost var l := Link(p0.Linked(), states.states);
    IndexLists(keys, assemble);
    p, again := p0, false;
    for i := 0 to |index|
      invariant p.Follows(assemble, start, states.states)
      invariant p0.Linked() <= p.Linked()
      invariant Link(p.Linked(), states.states) == Scan(entries[..i], l)
      invariant again <==> p.Linked() != p0.Linked()
    {
      ScanNext(entries, i, l);
      var took;
      p, took := PullEntry(index[i], assemble, states, p, start);
      again := again || took;
    }
    assert entries[..|index|] == entries;
    KeyIndexIsEntries(keys, assemble);
    ScanIsSweep(Members(keys, assemble), l);
  }

  /** Reads an index until a pass takes nothing. */
  method PullAll(keys: seq<Key>, assemble: Assembler, states: NameStates, p0: Progress, ghost start: Link<Key>)
    returns (p: Progress, grew: bool)
    requires p0.Follows(assemble, start, states.states)
    modifies states
    ensures p.Follows(assemble, start, states.states)
    ensures Link(p.Linked(), states.states) == Drain(Members(keys, assemble), Link(p0.Linked(), old(states.states)))
    ensures grew <==> p.Linked() != p0.Linked()
  {
    var index := KeyIndex(keys);
    ghost var views := Members(keys, assemble);
    ghost var l0 := Link(p0.Linked(), states.states);
    ghost var l := l0;
    p, grew := p0, false;
    var again := true;
    while again
      invariant p.Follows(assemble, start, states.states)
      invariant l == Link(p.Linked(), states.states)
      invariant l0.linked <= l.linked
      invariant grew <==> l.linked != l0.linked
      invariant Drain(views, l0) == if again then Drain(views, l) else l
      decreases |Keys(views) - l.linked|, again
    {
      ghost var was := l;
      p, again := PullIndex(keys, index, assemble, states, p, start);
      l := Link(p.Linked(), states.states);
      assert l == Sweep(views, was);
      grew := grew || again;
      if again {
        Smaller(Keys(views), was.linked, l.linked);
      }
    }
  }

  /** Reads the declared units, and then the archive. */
  method PullOnce(declared: seq<DeclaredUnit>, archive: seq<LinkUnit>, assemble: Assembler, states: NameStates,
                  p0: Progress, ghost start: Link<Key>)
    returns (p: Progress, grouped: bool)
    requires p0.Follows(assemble, start, states.states)
    modifies states
    ensures p.Follows(assemble, start, states.states)
    ensures Link(p.Linked(), states.states)
         == DrainEach([DeclaredViews(declared, assemble), ArchivedViews(archive, assemble)],
                      Link(p0.Linked(), old(states.states)))
    ensures grouped <==> p.Linked() != p0.Linked()
  {
    TwoArchives(DeclaredViews(declared, assemble), ArchivedViews(archive, assemble), Link(p0.Linked(), states.states));
    var first, second;
    p, first := PullAll(DeclaredKeys(declared), assemble, states, p0, start);
    ghost var mid := p.Linked();
    assert p0.Linked() <= mid;
    p, second := PullAll(ArchivedKeys(archive), assemble, states, p, start);
    assert mid <= p.Linked();
    grouped := first || second;
  }

  function Filter(declared: seq<DeclaredUnit>, taken: set<DeclaredUnit>): seq<DeclaredUnit>
  {
    if declared == [] then []
    else (if declared[0] in taken then [declared[0]] else []) + Filter(declared[1..], taken)
  }

  lemma {:induction false} FilterKeeps(declared: seq<DeclaredUnit>, taken: set<DeclaredUnit>, u: DeclaredUnit)
    ensures u in Filter(declared, taken) <==> u in declared && u in taken
  {
    if declared != [] {
      FilterKeeps(declared[1..], taken, u);
      assert u in declared <==> u == declared[0] || u in declared[1..];
    }
  }

  /** The table the loop starts from. */
  method Prepare(objects: seq<LinkUnit>, entrySymbol: string, known: Known) returns (states: NameStates)
    ensures fresh(states)
    ensures states.states == FirstNames(objects, entrySymbol, known)
  {
    states := new NameStates(entrySymbol);
    for i := 0 to |known.defines|
      invariant states.states == DefineNames(map[entrySymbol := Undefined], known.defines[..i])
    {
      assert known.defines[..i + 1][..i] == known.defines[..i];
      states.Define(known.defines[i]);
    }
    assert known.defines[..|known.defines|] == known.defines;
    TakeAllObjects(objects, states);
    ghost var t := states.states;
    for i := 0 to |known.needs|
      invariant states.states == NeedNames(t, known.needs[..i])
    {
      assert known.needs[..i + 1][..i] == known.needs[..i];
      states.Need(known.needs[i]);
    }
    assert known.needs[..|known.needs|] == known.needs;
  }

  /** Reads both again while either gave anything. */
  method PullGroup(declared: seq<DeclaredUnit>, archive: seq<LinkUnit>, assemble: Assembler, states: NameStates,
                   p0: Progress, ghost start: Link<Key>)
    returns (p: Progress)
    requires p0.Follows(assemble, start, states.states)
    modifies states
    ensures p.Follows(assemble, start, states.states)
    ensures Link(p.Linked(), states.states)
         == Group([DeclaredViews(declared, assemble), ArchivedViews(archive, assemble)],
                  Link(p0.Linked(), old(states.states)))
  {
    ghost var views := [DeclaredViews(declared, assemble), ArchivedViews(archive, assemble)];
    ghost var l0 := Link(p0.Linked(), states.states);
    ghost var l := l0;
    p := p0;
    var grouped := true;
    while grouped
      invariant p.Follows(assemble, start, states.states)
      invariant l == Link(p.Linked(), states.states)
      invariant Group(views, l0) == if grouped then Group(views, l) else l
      decreases |AllKeys(views) - l.linked|, grouped
    {
      ghost var was := l;
      p, grouped := PullOnce(declared, archive, assemble, states, p, start);
      l := Link(p.Linked(), states.states);
      assert l == DrainEach(views, was);
      if grouped {
        Smaller(AllKeys(views), was.linked, l.linked);
      }
    }
  }

  /**
    pullDeclaredUnits: which of the declared units the link takes, listed as `declared` lists them.
    `p` tells besides in which order everything was taken, and when each unit was assembled.
   */
  method PullDeclaredUnits(objects: seq<LinkUnit>, declared: seq<DeclaredUnit>, archive: seq<LinkUnit>,
                           assemble: Assembler, entrySymbol: string, known: Known)
    returns (units: seq<DeclaredUnit>, p: Progress, ghost names: Table)
    ensures Link(p.Linked(), names) == Pulled(objects, declared, archive, assemble, entrySymbol, known)
    ensures p.Valid() && p.Follows(assemble, Link({}, FirstNames(objects, entrySymbol, known)), names)
    ensures units == Filter(declared, p.taken)
    ensures forall u :: u in units <==> u in declared && u in p.taken
  {
    var states := Prepare(objects, entrySymbol, known);
    ghost var start := Link({}, states.states);
    p := Progress({}, {}, [], []);
    assert p.Linked() == {} && Members([], assemble) == [];
    p := PullGroup(declared, archive, assemble, states, p, start);
    names := states.states;
    FollowingIsValid(p, assemble, start, names);
    units := Filter(declared, p.taken);
    forall u: DeclaredUnit
      ensures u in units <==> u in declared && u in p.taken
    {
      FilterKeeps(declared, p.taken, u);
    }
  }

  lemma TwoArchives<U>(a: seq<Member<U>>, b: seq<Member<U>>, l: Link<U>)
    ensures DrainEach([a, b], l) == Drain(b, Drain(a, l))
  {
    assert [a, b][1..] == [b] && [b][1..] == [];
    assert DrainEach([b], Drain(a, l)) == DrainEach([], Drain(b, Drain(a, l)));
  }

  // ---------------------------------------------------------------------------------------------
  // The same units as linking them assembled
  // ---------------------------------------------------------------------------------------------

  /** No name a member offers can be wanted of it any more. */
  ghost predicate Settled(t: Table, offers: seq<(string, bool)>) {
    forall o :: o in offers ==> Level(t, o.0) >= if o.1 then 4 else 3
  }

  /** Two members that offer the same names and add the same symbols. */
  ghost predicate Alike<A, B>(a: Member<A>, b: Member<B>, phi: A -> B) {
    && b.key == phi(a.key)
    && (forall o :: o in a.offers <==> o in b.offers)
    && a.symbols == b.symbols
  }

  ghost predicate AllAlike<A, B>(xs: seq<Member<A>>, ys: seq<Member<B>>, phi: A -> B) {
    |xs| == |ys| && forall i :: 0 <= i < |xs| ==> Alike(xs[i], ys[i], phi)
  }

  /** The second link has taken what the first has, under `phi`, besides `base`. */
  ghost predicate InStep<A, B>(a: Link<A>, b: Link<B>, base: set<B>, phi: A -> B) {
    && a.states == b.states
    && b.linked == base + set k | k in a.linked :: phi(k)
  }

  /** Keys `phi` keeps apart, none of them in `base` unless its member is settled. */
  ghost predicate Apart<A, B>(ms: seq<Member<A>>, all: set<A>, t: Table, base: set<B>, phi: A -> B) {
    && Keys(ms) <= all
    && (forall j, k :: j in all && k in all && phi(j) == phi(k) ==> j == k)
    && (forall m :: m in ms && phi(m.key) in base ==> Settled(t, m.offers))
  }

  lemma SettledIsUnwanted(t: Table, offers: seq<(string, bool)>)
    requires Settled(t, offers)
    ensures !Wanted(t, offers)
  {
  }

  lemma TakingKeepsSettled(t: Table, offers: seq<(string, bool)>, symbols: seq<Symbol>)
    requires Settled(t, offers)
    ensures Settled(TakeAll(t, symbols), offers)
  {
    forall o | o in offers ensures Level(TakeAll(t, symbols), o.0) >= Level(t, o.0) {
      TakeAllIsJoin(t, symbols, o.0);
    }
  }

  lemma VisitInStep<A, B>(m: Member<A>, n: Member<B>, all: set<A>, a: Link<A>, b: Link<B>, base: set<B>, phi: A -> B)
    requires Alike(m, n, phi)
    requires InStep(a, b, base, phi)
    requires a.linked <= all && Apart([m], all, a.states, base, phi)
    ensures InStep(Visit(m, a), Visit(n, b), base, phi)
    ensures Visit(m, a).linked <= all
    ensures Visit(m, a).linked == a.linked <==> Visit(n, b).linked == b.linked
    ensures Visit(m, a).states == a.states || Visit(m, a).states == TakeAll(a.states, m.symbols)
  {
    assert m in [m] && m.key in Keys([m]);
    if n.key in base {
      SettledIsUnwanted(a.states, m.offers);
    }
    assert n.key in b.linked <==> n.key in base || m.key in a.linked;
    assert Wanted(a.states, m.offers) <==> Wanted(b.states, n.offers);
  }

  lemma {:induction false} SweepInStep<A, B>(ms: seq<Member<A>>, ns: seq<Member<B>>, all: set<A>,
                                             a: Link<A>, b: Link<B>, base: set<B>, phi: A -> B)
    requires AllAlike(ms, ns, phi)
    requires InStep(a, b, base, phi)
    requires a.linked <= all && Apart(ms, all, a.states, base, phi)
    ensures InStep(Sweep(ms, a), Sweep(ns, b), base, phi)
    ensures Sweep(ms, a).linked <= all
    ensures Sweep(ms, a).linked == a.linked <==> Sweep(ns, b).linked == b.linked
  {
    if ms != [] {
      KeysSplit(ms);
      var m, n := ms[0], ns[0];
      VisitInStep(m, n, all, a, b, base, phi);
      var a', b' := Visit(m, a), Visit(n, b);
      forall x | x in ms[1..] && phi(x.key) in base ensures Settled(a'.states, x.offers) {
        TakingKeepsSettled(a.states, x.offers, m.symbols);
      }
      SweepInStep(ms[1..], ns[1..], all, a', b', base, phi);
      assert a.linked <= a'.linked <= Sweep(ms, a).linked;
      assert b.linked <= b'.linked <= Sweep(ns, b).linked;
    }
  }

  lemma RunKeepsSettled<A>(order: seq<Member<A>>, a: Link<A>, b: Link<A>, offers: seq<(string, bool)>)
    requires Run(order, a, b)
    requires Settled(a.states, offers)
    ensures Settled(b.states, offers)
  {
    RunRaises(order, a, b);
    forall o | o in offers ensures Level(b.states, o.0) >= if o.1 then 4 else 3 {
      assert Level(a.states, o.0) <= Level(b.states, o.0);
    }
  }

  lemma RunKeepsApart<A, B>(order: seq<Member<A>>, a: Link<A>, b: Link<A>, ms: seq<Member<A>>, all: set<A>,
                            base: set<B>, phi: A -> B)
    requires Run(order, a, b)
    requires Apart(ms, all, a.states, base, phi)
    ensures Apart(ms, all, b.states, base, phi)
  {
    forall m | m in ms && phi(m.key) in base ensures Settled(b.states, m.offers) {
      RunKeepsSettled(order, a, b, m.offers);
    }
  }

  lemma {:induction false} DrainInStep<A, B>(ms: seq<Member<A>>, ns: seq<Member<B>>, all: set<A>,
                                             a: Link<A>, b: Link<B>, base: set<B>, phi: A -> B)
    requires AllAlike(ms, ns, phi)
    requires InStep(a, b, base, phi)
    requires a.linked <= all && Apart(ms, all, a.states, base, phi)
    ensures InStep(Drain(ms, a), Drain(ns, b), base, phi)
    ensures Drain(ms, a).linked <= all
    ensures Drain(ms, a).linked == a.linked <==> Drain(ns, b).linked == b.linked
    decreases |Keys(ms) - a.linked|
  {
    SweepInStep(ms, ns, all, a, b, base, phi);
    var a', b' := Sweep(ms, a), Sweep(ns, b);
    if a'.linked != a.linked {
      Smaller(Keys(ms), a.linked, a'.linked);
      var order := SweepRuns(ms, a);
      RunKeepsApart(order, a, a', ms, all, base, phi);
      DrainInStep(ms, ns, all, a', b', base, phi);
    }
  }

  ghost predicate EachAlike<A, B>(xs: seq<seq<Member<A>>>, ys: seq<seq<Member<B>>>, phi: A -> B) {
    |xs| == |ys| && forall i :: 0 <= i < |xs| ==> AllAlike(xs[i], ys[i], phi)
  }

  ghost predicate EachApart<A, B>(xs: seq<seq<Member<A>>>, all: set<A>, t: Table, base: set<B>, phi: A -> B) {
    forall ms :: ms in xs ==> Apart(ms, all, t, base, phi)
  }

  lemma RunKeepsEachApart<A, B>(order: seq<Member<A>>, a: Link<A>, b: Link<A>, xs: seq<seq<Member<A>>>, all: set<A>,
                                base: set<B>, phi: A -> B)
    requires Run(order, a, b)
    requires EachApart(xs, all, a.states, base, phi)
    ensures EachApart(xs, all, b.states, base, phi)
  {
    forall ms | ms in xs ensures Apart(ms, all, b.states, base, phi) {
      RunKeepsApart(order, a, b, ms, all, base, phi);
    }
  }

  lemma {:induction false} DrainEachInStep<A, B>(xs: seq<seq<Member<A>>>, ys: seq<seq<Member<B>>>, all: set<A>,
                                                 a: Link<A>, b: Link<B>, base: set<B>, phi: A -> B)
    requires EachAlike(xs, ys, phi)
    requires InStep(a, b, base, phi)
    requires a.linked <= all && EachApart(xs, all, a.states, base, phi)
    ensures InStep(DrainEach(xs, a), DrainEach(ys, b), base, phi)
    ensures DrainEach(xs, a).linked <= all
    ensures DrainEach(xs, a).linked == a.linked <==> DrainEach(ys, b).linked == b.linked
  {
    if xs != [] {
      assert xs[0] in xs;
      DrainInStep(xs[0], ys[0], all, a, b, base, phi);
      var a', b' := Drain(xs[0], a), Drain(ys[0], b);
      var order := DrainRuns(xs[0], a);
      assert forall ms :: ms in xs[1..] ==> ms in xs;
      RunKeepsEachApart(order, a, a', xs[1..], all, base, phi);
      DrainEachInStep(xs[1..], ys[1..], all, a', b', base, phi);
      assert a.linked <= a'.linked <= DrainEach(xs, a).linked;
      assert b.linked <= b'.linked <= DrainEach(ys, b).linked;
    }
  }

  lemma {:induction false} GroupInStep<A, B>(xs: seq<seq<Member<A>>>, ys: seq<seq<Member<B>>>, all: set<A>,
                                             a: Link<A>, b: Link<B>, base: set<B>, phi: A -> B)
    requires EachAlike(xs, ys, phi)
    requires InStep(a, b, base, phi)
    requires a.linked <= all && EachApart(xs, all, a.states, base, phi)
    ensures InStep(Group(xs, a), Group(ys, b), base, phi)
    ensures Group(xs, a).linked <= all
    decreases |AllKeys(xs) - a.linked|
  {
    DrainEachInStep(xs, ys, all, a, b, base, phi);
    var a', b' := DrainEach(xs, a), DrainEach(ys, b);
    if a'.linked != a.linked {
      Smaller(AllKeys(xs), a.linked, a'.linked);
      var order := DrainEachRuns(xs, a);
      RunKeepsEachApart(order, a, a', xs, all, base, phi);
      GroupInStep(xs, ys, all, a', b', base, phi);
    }
  }

  // The object a unit assembles to lists the names its text declares, in any order, and really
  // defines those it declares as more than common.
  ghost predicate Faithful(u: DeclaredUnit, o: LinkUnit) {
    && (forall name :: (exists d :: d in u.defines && d.name == name) <==> Offers(o, name))
    && (forall d :: d in u.defines ==>
          (DeclaresReally(u.defines, d.name) <==> DefinesReally(Visible(o.contents), d.name)))
  }

  lemma FaithfulOffers(u: DeclaredUnit, o: LinkUnit, assemble: Assembler, offer: (string, bool))
    requires Faithful(u, o)
    ensures offer in DeclaredView(u, assemble).offers <==> offer in View(o).offers
  {
    var mine := DeclaredView(u, assemble).offers;
    if offer in mine {
      var i :| 0 <= i < |mine| && mine[i] == offer;
      assert u.defines[i] in u.defines;
      OffersAreIndexed(o, offer.0);
    }
    if offer in View(o).offers {
      OfferedIsIndexed(o, offer);
      var d :| d in u.defines && d.name == offer.0;
      var i :| 0 <= i < |u.defines| && u.defines[i] == d;
      assert mine[i] == offer;
    }
  }

  lemma OfferedIsIndexed(u: LinkUnit, offer: (string, bool))
    requires offer in View(u).offers
    ensures Offers(u, offer.0) && offer.1 == DefinesReally(Visible(u.contents), offer.0)
  {
    var index := Indexed(Visible(u.contents));
    var i :| 0 <= i < |index| && View(u).offers[i] == offer;
    assert index[i] in index && index[i].name == offer.0;
  }

  lemma ObjectsAreSettled(t: Table, objects: seq<LinkUnit>, u: LinkUnit)
    requires u in objects
    ensures Settled(TakeObjects(t, objects), View(u).offers)
  {
    forall o | o in View(u).offers ensures Level(TakeObjects(t, objects), o.0) >= if o.1 then 4 else 3 {
      OfferedIsIndexed(u, o);
      forall s | s in Visible(u.contents) ensures Rank(s) <= Level(TakeObjects(t, objects), s.name) {
        ObjectsRaise(t, objects, u, s);
      }
    }
  }

  function Counterpart(k: Key, unitOf: DeclaredUnit -> LinkUnit): LinkUnit {
    match k case Declared(u) => unitOf(u) case Archived(m) => m
  }

  function Assembled(declared: seq<DeclaredUnit>, unitOf: DeclaredUnit -> LinkUnit): (r: seq<LinkUnit>)
    ensures |r| == |declared|
    ensures forall i :: 0 <= i < |r| ==> r[i] == unitOf(declared[i])
  {
    seq(|declared|, i requires 0 <= i < |declared| => unitOf(declared[i]))
  }

  function BothKinds(declared: seq<DeclaredUnit>, archive: seq<LinkUnit>): set<Key> {
    (set u | u in declared :: Declared(u)) + (set m | m in archive :: Archived(m))
  }

  function Counterparts(unitOf: DeclaredUnit -> LinkUnit): Key -> LinkUnit {
    k => Counterpart(k, unitOf)
  }

  lemma DeclaredAreAlike(declared: seq<DeclaredUnit>, assemble: Assembler, unitOf: DeclaredUnit -> LinkUnit)
    requires forall u :: u in declared ==>
      assemble(u) == Some(unitOf(u).contents) && Faithful(u, unitOf(u))
    ensures AllAlike(DeclaredViews(declared, assemble), Views(Assembled(declared, unitOf)), Counterparts(unitOf))
  {
    var xs, ys := DeclaredViews(declared, assemble), Views(Assembled(declared, unitOf));
    forall i | 0 <= i < |declared| ensures Alike(xs[i], ys[i], Counterparts(unitOf)) {
      var u := declared[i];
      assert u in declared;
      forall o ensures o in xs[i].offers <==> o in ys[i].offers {
        FaithfulOffers(u, unitOf(u), assemble, o);
      }
    }
  }

  lemma ArchivedAreAlike(archive: seq<LinkUnit>, assemble: Assembler, unitOf: DeclaredUnit -> LinkUnit)
    ensures AllAlike(ArchivedViews(archive, assemble), Views(archive), Counterparts(unitOf))
  {
  }

  lemma PulledKeys(declared: seq<DeclaredUnit>, archive: seq<LinkUnit>, assemble: Assembler)
    ensures Keys(DeclaredViews(declared, assemble)) == set u | u in declared :: Declared(u)
    ensures Keys(ArchivedViews(archive, assemble)) == set m | m in archive :: Archived(m)
  {
    var xs, ys := DeclaredViews(declared, assemble), ArchivedViews(archive, assemble);
    forall u | u in declared ensures Declared(u) in Keys(xs) {
      var i :| 0 <= i < |declared| && declared[i] == u;
      assert xs[i] in xs;
    }
    forall m | m in archive ensures Archived(m) in Keys(ys) {
      var i :| 0 <= i < |archive| && archive[i] == m;
      assert ys[i] in ys;
    }
  }

  /** The members of both archives, against the objects the link starts with. */
  lemma PulledAreApart(objects: seq<LinkUnit>, declared: seq<DeclaredUnit>, archive: seq<LinkUnit>,
                       assemble: Assembler, unitOf: DeclaredUnit -> LinkUnit, t0: Table, all: set<Key>)
    requires forall u, v :: u in declared && v in declared && unitOf(u) == unitOf(v) ==> u == v
    requires forall u :: u in declared ==> unitOf(u) !in objects && unitOf(u) !in archive
    requires all == BothKinds(declared, archive)
    ensures
      var base := set u | u in objects;
      && Apart(DeclaredViews(declared, assemble), all, TakeObjects(t0, objects), base, Counterparts(unitOf))
      && Apart(ArchivedViews(archive, assemble), all, TakeObjects(t0, objects), base, Counterparts(unitOf))
  {
    var phi := Counterparts(unitOf);
    var base := set u | u in objects;
    PulledKeys(declared, archive, assemble);
    forall j, k | j in all && k in all && phi(j) == phi(k) ensures j == k {
      assert j.Declared? <==> k.Declared?;
    }
    forall m: Member<Key> | m in ArchivedViews(archive, assemble) && phi(m.key) in base
      ensures Settled(TakeObjects(t0, objects), m.offers)
    {
      ObjectsAreSettled(t0, objects, m.key.member);
    }
  }

  lemma PulledInStep(objects: seq<LinkUnit>, declared: seq<DeclaredUnit>, archive: seq<LinkUnit>,
                     assemble: Assembler, unitOf: DeclaredUnit -> LinkUnit, entrySymbol: string)
    requires forall u :: u in declared ==>
      assemble(u) == Some(unitOf(u).contents) && Faithful(u, unitOf(u))
    requires forall u, v :: u in declared && v in declared && unitOf(u) == unitOf(v) ==> u == v
    requires forall u :: u in declared ==> unitOf(u) !in objects && unitOf(u) !in archive
    ensures
      var p := Pulled(objects, declared, archive, assemble, entrySymbol, Known([], []));
      var s := Selected(objects, [Assembled(declared, unitOf), archive], entrySymbol);
      && InStep(p, s, (set u | u in objects), Counterparts(unitOf))
      && p.linked <= BothKinds(declared, archive)
  {
    var t0 := map[entrySymbol := Undefined];
    var t := TakeObjects(t0, objects);
    var all := BothKinds(declared, archive);
    DeclaredAreAlike(declared, assemble, unitOf);
    ArchivedAreAlike(archive, assemble, unitOf);
    PulledAreApart(objects, declared, archive, assemble, unitOf, t0, all);
    var xs := [DeclaredViews(declared, assemble), ArchivedViews(archive, assemble)];
    var ys := [Views(Assembled(declared, unitOf)), Views(archive)];
    assert ys == AllViews([Assembled(declared, unitOf), archive]);
    assert FirstNames(objects, entrySymbol, Known([], [])) == t;
    GroupInStep(xs, ys, all, Link({}, t), Start(objects, entrySymbol), (set u | u in objects), Counterparts(unitOf));
  }

  /**
    The lazy loop takes exactly the units that linking all of them assembled takes, and leaves
    every name in the same state.
   */
  lemma PullTakesWhatSelectTakes(objects: seq<LinkUnit>, declared: seq<DeclaredUnit>, archive: seq<LinkUnit>,
                                 assemble: Assembler, unitOf: DeclaredUnit -> LinkUnit, entrySymbol: string)
    requires forall u :: u in declared ==>
      assemble(u) == Some(unitOf(u).contents) && Faithful(u, unitOf(u))
    requires forall u, v :: u in declared && v in declared && unitOf(u) == unitOf(v) ==> u == v
    requires forall u :: u in declared ==> unitOf(u) !in objects && unitOf(u) !in archive
    ensures
      var p := Pulled(objects, declared, archive, assemble, entrySymbol, Known([], []));
      var s := Selected(objects, [Assembled(declared, unitOf), archive], entrySymbol);
      && p.states == s.states
      && (forall u :: u in declared ==> (Declared(u) in p.linked <==> unitOf(u) in s.linked))
      && (forall m :: m in archive && m !in objects ==> (Archived(m) in p.linked <==> m in s.linked))
  {
    PulledInStep(objects, declared, archive, assemble, unitOf, entrySymbol);
    SameKeys(Pulled(objects, declared, archive, assemble, entrySymbol, Known([], [])).linked,
             Selected(objects, [Assembled(declared, unitOf), archive], entrySymbol).linked,
             (set u | u in objects), BothKinds(declared, archive), declared, archive, unitOf);
  }

  lemma SameKeys(mine: set<Key>, theirs: set<LinkUnit>, base: set<LinkUnit>, all: set<Key>,
                 declared: seq<DeclaredUnit>, archive: seq<LinkUnit>, unitOf: DeclaredUnit -> LinkUnit)
    requires theirs == base + set k | k in mine :: Counterparts(unitOf)(k)
    requires mine <= all == BothKinds(declared, archive)
    requires forall u, v :: u in declared && v in declared && unitOf(u) == unitOf(v) ==> u == v
    requires forall u :: u in declared ==> unitOf(u) !in base && unitOf(u) !in archive
    ensures forall u :: u in declared ==> (Declared(u) in mine <==> unitOf(u) in theirs)
    ensures forall m :: m in archive && m !in base ==> (Archived(m) in mine <==> m in theirs)
  {
    forall u | u in declared ensures Declared(u) in mine <==> unitOf(u) in theirs {
      assert Counterparts(unitOf)(Declared(u)) == unitOf(u);
    }
    forall m | m in archive && m !in base ensures Archived(m) in mine <==> m in theirs {
      assert Counterparts(unitOf)(Archived(m)) == m;
    }
  }
}
