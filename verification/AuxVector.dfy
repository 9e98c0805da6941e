/**
  The auxiliary vector a program finds, read from memory by the numbers Linux gives the types
  (libblink/blink/argv.c; section 3.4.1 of the System V ABI AMD64 supplement).
 */
module AuxVector {

  import opened Options
  import opened StartBlock
  import opened ProcessStart
  import opened StartRoundTrip

  // ---------------------------------------------------------------------------------------------
  // Reading
  // ---------------------------------------------------------------------------------------------

  /** The number eight bytes spell, the lowest first. */
  function Number(s: seq<Byte>): nat
    requires |s| == 8
  {
    Place(s[0], 1) + Place(s[1], 0x100) + Place(s[2], 0x1_0000) + Place(s[3], 0x100_0000)
    + Place(s[4], 0x1_0000_0000) + Place(s[5], 0x100_0000_0000) + Place(s[6], 0x1_0000_0000_0000)
    + Place(s[7], 0x100_0000_0000_0000)
  }

  function Place(b: Byte, unit: nat): nat {
    unit * b
  }

  lemma LowestFirst(s: seq<Byte>)
    requires |s| == 8
    ensures FromBytes(s) == Number(s)
  {
    var s1, s2, s3 := s[1..], s[2..], s[3..];
    var s4, s5, s6, s7 := s[4..], s[5..], s[6..], s[7..];
    assert s1[1..] == s2 && s2[1..] == s3 && s3[1..] == s4 && s4[1..] == s5 && s5[1..] == s6 && s6[1..] == s7 && s7[1..] == [];
    assert FromBytes(s7) == s[7];
    assert FromBytes(s6) == s[6] + 0x100 * FromBytes(s7);
    assert FromBytes(s5) == s[5] + 0x100 * FromBytes(s6);
    assert FromBytes(s4) == s[4] + 0x100 * FromBytes(s5);
    assert FromBytes(s3) == s[3] + 0x100 * FromBytes(s4);
    assert FromBytes(s2) == s[2] + 0x100 * FromBytes(s3);
    assert FromBytes(s1) == s[1] + 0x100 * FromBytes(s2);
  }

  /** The entries from a place on, each a type and a value, up to the one of type zero. */
  function Vector(mem: seq<Byte>, at: nat, room: nat): Option<seq<(nat, nat)>>
    decreases room, at
  {
    if room == 0 || at + 16 > |mem| then None
    else
      var kind, value := Number(mem[at..at + 8]), Number(mem[at + 8..at + 16]);
      if kind == 0 then Some([])
      else
        var rest := Vector(mem, at + 16, room - 1);
        if rest.None? then None else Some([(kind, value)] + rest.value)
  }

  /** All the values of a type. */
  function Values(v: seq<(nat, nat)>, kind: nat): seq<nat> {
    if v == [] then [] else (if v[0].0 == kind then [v[0].1] else []) + Values(v[1..], kind)
  }

  // ---------------------------------------------------------------------------------------------
  // Words in memory as entries
  // ---------------------------------------------------------------------------------------------

  function Pairs(ws: seq<nat>): seq<(nat, nat)> {
    if |ws| < 2 then [] else [(ws[0], ws[1])] + Pairs(ws[2..])
  }

  lemma {:induction false} PairsAppend(a: seq<nat>, b: seq<nat>)
    requires |a| % 2 == 0
    ensures Pairs(a + b) == Pairs(a) + Pairs(b)
    decreases a
  {
    if a == [] {
      assert a + b == b;
    } else {
      assert (a + b)[2..] == a[2..] + b;
      PairsAppend(a[2..], b);
    }
  }

  lemma ThreeParts(a: seq<nat>, b: seq<nat>, c: seq<nat>)
    ensures a + (b + c) == (a + b) + c
  {
  }

  lemma {:induction false} ValuesAppend(v: seq<(nat, nat)>, w: seq<(nat, nat)>, kind: nat)
    ensures Values(v + w, kind) == Values(v, kind) + Values(w, kind)
    decreases |v|
  {
    if v == [] {
      assert v + w == w;
      assert Values(v, kind) == [];
    } else {
      var first := if v[0].0 == kind then [v[0].1] else [];
      assert (v + w)[1..] == v[1..] + w && (v + w)[0] == v[0];
      ValuesAppend(v[1..], w, kind);
      ThreeParts(first, Values(v[1..], kind), Values(w, kind));
    }
  }

  lemma WordNumber(mem: seq<Byte>, at: nat, w: nat)
    requires HasWord(mem, at, w) && IsWord(w)
    ensures Number(mem[at..at + 8]) == w
  {
    BytesRead(w, 8);
    LowestFirst(mem[at..at + 8]);
  }

  /** Types and values by turns, none of the types zero. */
  predicate AreKinds(ws: seq<nat>)
    decreases |ws|
  {
    ws == [] || (|ws| >= 2 && IsWord(ws[0]) && ws[0] != 0 && IsWord(ws[1]) && AreKinds(ws[2..]))
  }

  lemma {:induction false} VectorRead(mem: seq<Byte>, at: nat, ws: seq<nat>, room: nat)
    requires HasWords(mem, at, ws + [0, 0]) && AreKinds(ws) && |ws| < 2 * room
    ensures Vector(mem, at, room) == Some(Pairs(ws))
    decreases |ws|
  {
    var all := ws + [0, 0];
    FirstEntry(mem, at, all);
    WordNumber(mem, at, all[0]);
    if ws != [] {
      WordNumber(mem, at + 8, all[1]);
      assert all[2..] == ws[2..] + [0, 0];
      VectorRead(mem, at + 16, ws[2..], room - 1);
    }
  }

  // ---------------------------------------------------------------------------------------------
  // What the loader writes
  // ---------------------------------------------------------------------------------------------

  /** The values are ones a word holds. */
  predicate FitWords(p: Program) {
    && IsWord(p.elf.entry) && IsWord(p.elf.phdr) && IsWord(p.elf.phent) && IsWord(p.elf.phnum)
    && (p.elf.base.Some? ==> IsWord(p.elf.base.value))
    && IsWord(p.host.uid) && IsWord(p.host.euid) && IsWord(p.host.gid) && IsWord(p.host.egid)
    && IsWord(p.host.secure) && IsWord(p.host.pageSize) && IsWord(p.host.clockTicks)
  }

  lemma OneValue(k: nat, x: nat, kind: nat)
    ensures Values([(k, x)], kind) == if kind == k then [x] else []
  {
    assert [(k, x)][1..] == [];
  }

  lemma NextValue(k: nat, x: nat, rest: seq<(nat, nat)>, kind: nat)
    ensures Values([(k, x)] + rest, kind) == (if kind == k then [x] else []) + Values(rest, kind)
  {
    assert ([(k, x)] + rest)[1..] == rest;
  }

  lemma NextPair(k: nat, x: nat, rest: seq<nat>)
    ensures Pairs([k, x] + rest) == [(k, x)] + Pairs(rest)
  {
    assert ([k, x] + rest)[2..] == rest;
  }

  /** Of three or four entries of different types, the one of a type. */
  lemma ThreeValues(a: nat, x: nat, b: nat, y: nat, c: nat, z: nat, kind: nat)
    requires a != b && a != c && b != c
    ensures Values(Pairs([a, x, b, y, c, z]), kind) == if kind == a then [x] else if kind == b then [y] else if kind == c then [z] else []
  {
    var last, two := [c, z], [b, y] + [c, z];
    assert [a, x, b, y, c, z] == [a, x] + two && last == last + [];
    NextPair(a, x, two);
    NextPair(b, y, last);
    NextPair(c, z, []);
    NextValue(a, x, Pairs(two), kind);
    NextValue(b, y, Pairs(last), kind);
    OneValue(c, z, kind);
  }

  lemma FourValues(a: nat, x: nat, b: nat, y: nat, c: nat, z: nat, d: nat, w: nat, kind: nat)
    requires a != b && a != c && b != c && d != a && d != b && d != c
    ensures Values(Pairs([a, x, b, y, c, z, d, w]), kind)
         == if kind == a then [x] else if kind == b then [y] else if kind == c then [z] else if kind == d then [w] else []
  {
    assert [a, x, b, y, c, z, d, w] == [a, x] + [b, y, c, z, d, w];
    NextPair(a, x, [b, y, c, z, d, w]);
    NextValue(a, x, Pairs([b, y, c, z, d, w]), kind);
    ThreeValues(b, y, c, z, d, w, kind);
  }

  function HostValuesOf(h: Host, kind: nat): seq<nat> {
    if kind == 17 then [h.clockTicks] else if kind == 6 then [h.pageSize] else if kind == 23 then [h.secure]
    else if kind == 14 then [h.egid] else if kind == 13 then [h.gid] else if kind == 12 then [h.euid]
    else if kind == 11 then [h.uid] else []
  }

  function ElfValuesOf(elf: Elf, kind: nat): seq<nat> {
    if elf.entry == 0 then []
    else if kind == 7 then (if elf.base.Some? then [elf.base.value] else [])
    else if kind == 9 then [elf.entry] else if kind == 5 then [elf.phnum]
    else if kind == 4 then [elf.phent] else if kind == 3 then [elf.phdr] else []
  }

  lemma HostValues(h: Host, kind: nat)
    ensures Values(Pairs(SystemWords(h) + UserWords(h)), kind) == HostValuesOf(h, kind)
  {
    PairsAppend(SystemWords(h), UserWords(h));
    ValuesAppend(Pairs(SystemWords(h)), Pairs(UserWords(h)), kind);
    ThreeValues(17, h.clockTicks, 6, h.pageSize, 23, h.secure, kind);
    FourValues(14, h.egid, 13, h.gid, 12, h.euid, 11, h.uid, kind);
  }

  lemma ElfValues(elf: Elf, kind: nat)
    ensures Values(Pairs(ElfWords(elf)), kind) == ElfValuesOf(elf, kind)
  {
    if elf.entry != 0 {
      FourValues(9, elf.entry, 5, elf.phnum, 4, elf.phent, 3, elf.phdr, kind);
      if elf.base.Some? {
        NextPair(7, elf.base.value, HeaderWords(elf));
        NextValue(7, elf.base.value, Pairs(HeaderWords(elf)), kind);
      } else {
        assert [] + HeaderWords(elf) == HeaderWords(elf);
      }
    }
  }

  /** All that comes before the end of the vector. */
  function EntryWords(p: Program, execfnAt: nat, randomAt: nat): seq<nat> {
    ElfWords(p.elf) + ([31, execfnAt] + ([25, randomAt] + (SystemWords(p.host) + UserWords(p.host))))
  }

  lemma EntriesEnd(elf: seq<nat>, a: seq<nat>, b: seq<nat>, system: seq<nat>, user: seq<nat>, end: seq<nat>)
    ensures elf + (a + (b + (system + (user + end)))) == elf + (a + (b + (system + user))) + end
  {
  }

  lemma AuxEnds(p: Program, execfnAt: nat, randomAt: nat)
    ensures AuxWords(p, execfnAt, randomAt) == EntryWords(p, execfnAt, randomAt) + [0, 0]
  {
    EntriesEnd(ElfWords(p.elf), [31, execfnAt], [25, randomAt], SystemWords(p.host), UserWords(p.host), [0, 0]);
  }

  lemma {:induction false} EntryValues(p: Program, execfnAt: nat, randomAt: nat, kind: nat)
    ensures Values(Pairs(EntryWords(p, execfnAt, randomAt)), kind)
         == Values(Pairs(ElfWords(p.elf)), kind) + ((if kind == 31 then [execfnAt] else [])
            + ((if kind == 25 then [randomAt] else []) + Values(Pairs(SystemWords(p.host) + UserWords(p.host)), kind)))
  {
    var host := SystemWords(p.host) + UserWords(p.host);
    var elf, rest := ElfWords(p.elf), [31, execfnAt] + ([25, randomAt] + host);
    assert |elf| % 2 == 0;
    PairsAppend(elf, rest);
    ValuesAppend(Pairs(elf), Pairs(rest), kind);
    NextPair(31, execfnAt, [25, randomAt] + host);
    NextValue(31, execfnAt, Pairs([25, randomAt] + host), kind);
    NextPair(25, randomAt, host);
    NextValue(25, randomAt, Pairs(host), kind);
  }

  lemma {:induction false} EntriesAreKinds(p: Program, execfnAt: nat, randomAt: nat)
    requires FitWords(p) && IsWord(execfnAt) && IsWord(randomAt)
    ensures AreKinds(EntryWords(p, execfnAt, randomAt)) && |EntryWords(p, execfnAt, randomAt)| <= 28
  {
    var host := SystemWords(p.host) + UserWords(p.host);
    HostAreKinds(p.host);
    KindsAppend(SystemWords(p.host), UserWords(p.host));
    SmallKinds(25, randomAt);
    KindsAppend([25, randomAt], host);
    SmallKinds(31, execfnAt);
    KindsAppend([31, execfnAt], [25, randomAt] + host);
    ElfAreKinds(p.elf);
    KindsAppend(ElfWords(p.elf), [31, execfnAt] + ([25, randomAt] + host));
  }

  lemma {:induction false} KindsAppend(a: seq<nat>, b: seq<nat>)
    requires AreKinds(a) && AreKinds(b)
    ensures AreKinds(a + b)
    decreases |a|
  {
    if a == [] {
      assert a + b == b;
    } else {
      assert (a + b)[2..] == a[2..] + b;
      KindsAppend(a[2..], b);
    }
  }

  lemma OneKind(kind: nat, value: nat)
    requires kind != 0 && IsWord(kind) && IsWord(value)
    ensures AreKinds([kind, value])
  {
    assert [kind, value][2..] == [];
  }

  lemma SmallKinds(kind: nat, value: nat)
    requires 0 < kind < 100 && IsWord(value)
    ensures AreKinds([kind, value])
  {
    assert Limit(8) > 100;
    OneKind(kind, value);
  }

  lemma HostAreKinds(h: Host)
    requires IsWord(h.uid) && IsWord(h.euid) && IsWord(h.gid) && IsWord(h.egid)
    requires IsWord(h.secure) && IsWord(h.pageSize) && IsWord(h.clockTicks)
    ensures AreKinds(SystemWords(h)) && AreKinds(UserWords(h))
  {
    SmallKinds(17, h.clockTicks);
    SmallKinds(6, h.pageSize);
    SmallKinds(23, h.secure);
    KindsAppend([6, h.pageSize], [23, h.secure]);
    KindsAppend([17, h.clockTicks], [6, h.pageSize] + [23, h.secure]);
    assert SystemWords(h) == [17, h.clockTicks] + ([6, h.pageSize] + [23, h.secure]);
    FourKinds(14, h.egid, 13, h.gid, 12, h.euid, 11, h.uid);
  }

  lemma FourKinds(a: nat, x: nat, b: nat, y: nat, c: nat, z: nat, d: nat, w: nat)
    requires 0 < a < 100 && 0 < b < 100 && 0 < c < 100 && 0 < d < 100 && IsWord(x) && IsWord(y) && IsWord(z) && IsWord(w)
    ensures AreKinds([a, x, b, y, c, z, d, w])
  {
    SmallKinds(a, x);
    SmallKinds(b, y);
    SmallKinds(c, z);
    SmallKinds(d, w);
    KindsAppend([a, x], [b, y]);
    KindsAppend([c, z], [d, w]);
    KindsAppend([a, x] + [b, y], [c, z] + [d, w]);
    assert [a, x, b, y, c, z, d, w] == ([a, x] + [b, y]) + ([c, z] + [d, w]);
  }

  lemma ElfAreKinds(elf: Elf)
    requires IsWord(elf.entry) && IsWord(elf.phdr) && IsWord(elf.phent) && IsWord(elf.phnum)
    requires elf.base.Some? ==> IsWord(elf.base.value)
    ensures AreKinds(ElfWords(elf))
  {
    FourKinds(9, elf.entry, 5, elf.phnum, 4, elf.phent, 3, elf.phdr);
    if elf.base.Some? {
      SmallKinds(7, elf.base.value);
      KindsAppend([7, elf.base.value], HeaderWords(elf));
    } else {
      assert [] + HeaderWords(elf) == HeaderWords(elf);
    }
  }

  /** The vector, where the reader finds it: behind the count, the two arrays and their NULLs. */
  function VectorOf(mem: seq<Byte>, p: Program, top: nat, room: nat): Option<seq<(nat, nat)>>
    requires HasRoom(p, top)
  {
    Vector(mem, PlacesOf(p, top).Auxv(), room)
  }

  lemma VectorIsBehindArrays(p: Program, top: nat)
    requires HasRoom(p, top)
    ensures PlacesOf(p, top).Auxv() == StartOf(p, top) + 8 * (1 + |p.args| + 1 + |p.vars| + 1)
  {
  }

  lemma StringsFit(p: Program, top: nat)
    requires HasRoom(p, top) && top <= Limit(8)
    ensures IsWord(ExecfnAt(p, top)) && IsWord(RandomAt(p, top))
  {
  }

  lemma {:induction false} VectorIsRead(mem: seq<Byte>, p: Program, top: nat, room: nat)
    requires HasRoom(p, top) && top <= |mem| <= Limit(8) && Holds(mem, p, top) && FitWords(p) && room >= 15
    ensures VectorOf(mem, p, top, room) == Some(Pairs(EntryWords(p, ExecfnAt(p, top), RandomAt(p, top))))
  {
    WordsHeld(mem, p, top);
    VectorInPlace(mem, p, top, PlacesOf(p, top), room);
  }

  lemma {:induction false} VectorInPlace(mem: seq<Byte>, p: Program, top: nat, l: Places, room: nat)
    requires HasRoom(p, top) && top <= Limit(8) && FitWords(p) && room >= 15 && l == PlacesOf(p, top)
    requires HasWords(mem, StartOf(p, top), Words(p, top))
    ensures Vector(mem, l.Auxv(), room) == Some(Pairs(EntryWords(p, l.execfn, l.random)))
  {
    WordsStand(mem, p, top);
    StringsFit(p, top);
    VectorBy(mem, l.Auxv(), p, l.execfn, l.random, room);
  }

  lemma {:induction false} VectorBy(mem: seq<Byte>, at: nat, p: Program, execfnAt: nat, randomAt: nat, room: nat)
    requires HasWords(mem, at, AuxWords(p, execfnAt, randomAt)) && room >= 15
    requires FitWords(p) && IsWord(execfnAt) && IsWord(randomAt)
    ensures Vector(mem, at, room) == Some(Pairs(EntryWords(p, execfnAt, randomAt)))
  {
    AuxEnds(p, execfnAt, randomAt);
    EntriesAreKinds(p, execfnAt, randomAt);
    VectorRead(mem, at, EntryWords(p, execfnAt, randomAt), room);
  }

  /** What a program finds of the types every program has, by their numbers: the value the loader was given, once. */
  lemma {:induction false} VectorSays(mem: seq<Byte>, p: Program, top: nat, room: nat)
    requires HasRoom(p, top) && top <= |mem| <= Limit(8) && Holds(mem, p, top) && FitWords(p) && room >= 15
    ensures VectorOf(mem, p, top, room).Some?
    ensures
      var v := VectorOf(mem, p, top, room).value;
      && Values(v, 6) == [p.host.pageSize] && Values(v, 17) == [p.host.clockTicks] && Values(v, 23) == [p.host.secure]
      && Values(v, 11) == [p.host.uid] && Values(v, 12) == [p.host.euid]
      && Values(v, 13) == [p.host.gid] && Values(v, 14) == [p.host.egid]
      && Values(v, 25) == [top - (|p.prog| + 1) - 16] && Values(v, 31) == [top - (|p.prog| + 1) - 16 - (|p.execfn| + 1)]
  {
    VectorIsRead(mem, p, top, room);
    ValuesAre(p, top, 6);
    ValuesAre(p, top, 17);
    ValuesAre(p, top, 23);
    ValuesAre(p, top, 11);
    ValuesAre(p, top, 12);
    ValuesAre(p, top, 13);
    ValuesAre(p, top, 14);
    ValuesAre(p, top, 25);
    ValuesAre(p, top, 31);
  }

  /** And of the types that tell of its file; a base only when there is one. */
  lemma {:induction false} VectorSaysOfFile(mem: seq<Byte>, p: Program, top: nat, room: nat)
    requires HasRoom(p, top) && top <= |mem| <= Limit(8) && Holds(mem, p, top) && FitWords(p) && room >= 15 && p.elf.entry != 0
    ensures VectorOf(mem, p, top, room).Some?
    ensures
      var v, elf := VectorOf(mem, p, top, room).value, p.elf;
      && Values(v, 9) == [elf.entry] && Values(v, 3) == [elf.phdr] && Values(v, 4) == [elf.phent]
      && Values(v, 5) == [elf.phnum] && Values(v, 7) == if elf.base.Some? then [elf.base.value] else []
  {
    VectorIsRead(mem, p, top, room);
    ValuesAre(p, top, 3);
    ValuesAre(p, top, 4);
    ValuesAre(p, top, 5);
    ValuesAre(p, top, 7);
    ValuesAre(p, top, 9);
  }

  /** There are no other types, and without an entry none of the file's. */
  lemma {:induction false} VectorSaysNoMore(mem: seq<Byte>, p: Program, top: nat, room: nat, kind: nat)
    requires HasRoom(p, top) && top <= |mem| <= Limit(8) && Holds(mem, p, top) && FitWords(p) && room >= 15
    requires kind !in {6, 11, 12, 13, 14, 17, 23, 25, 31} && (p.elf.entry != 0 ==> kind !in {3, 4, 5, 7, 9})
    ensures VectorOf(mem, p, top, room).Some? && Values(VectorOf(mem, p, top, room).value, kind) == []
  {
    VectorIsRead(mem, p, top, room);
    ValuesAre(p, top, kind);
  }

  function ValuesOf(p: Program, top: nat, kind: nat): seq<nat>
    requires HasRoom(p, top)
  {
    if kind == 31 then [top - (|p.prog| + 1) - 16 - (|p.execfn| + 1)]
    else if kind == 25 then [top - (|p.prog| + 1) - 16]
    else HostValuesOf(p.host, kind) + ElfValuesOf(p.elf, kind)
  }

  lemma OnlyOne(a: seq<nat>, b: seq<nat>, c: seq<nat>, d: seq<nat>, all: seq<nat>)
    requires (a == all && b == c == d == []) || (b == all && a == c == d == [])
          || (c == all && a == b == d == []) || (b == c == [] && (a == [] || d == []) && all == d + a)
    ensures a + (b + (c + d)) == all
  {
  }

  lemma {:induction false} ValuesAre(p: Program, top: nat, kind: nat)
    requires HasRoom(p, top)
    ensures Values(Pairs(EntryWords(p, ExecfnAt(p, top), RandomAt(p, top))), kind) == ValuesOf(p, top, kind)
  {
    EntryValues(p, ExecfnAt(p, top), RandomAt(p, top), kind);
    ElfValues(p.elf, kind);
    HostValues(p.host, kind);
    OnlyOne(ElfValuesOf(p.elf, kind), if kind == 31 then [ExecfnAt(p, top)] else [], if kind == 25 then [RandomAt(p, top)] else [],
            HostValuesOf(p.host, kind), ValuesOf(p, top, kind));
  }
}
