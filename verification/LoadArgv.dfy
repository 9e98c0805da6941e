/** The block a program starts with, as it lies in memory (section 3.4.1 of the System V ABI AMD64 supplement). */
module StartBlock {

  import opened Options

  type Byte = b: int | 0 <= b < 256

  function Bytes(v: nat, n: nat): (s: seq<Byte>)
    ensures |s| == n
    decreases n, v
  {
    if n == 0 then [] else [v % 256] + Bytes(v / 256, n - 1)
  }

  function FromBytes(s: seq<Byte>): nat {
    if s == [] then 0 else s[0] + 256 * FromBytes(s[1..])
  }

  function Limit(n: nat): nat {
    if n == 0 then 1 else 256 * Limit(n - 1)
  }

  lemma {:induction false} BytesRead(v: nat, n: nat)
    requires v < Limit(n)
    ensures FromBytes(Bytes(v, n)) == v
    decreases n
  {
    if n > 0 {
      BytesRead(v / 256, n - 1);
      assert Bytes(v, n)[1..] == Bytes(v / 256, n - 1);
    }
  }

  /** Words of eight bytes, the lowest byte first. */
  function WordsBytes(ws: seq<nat>): (s: seq<Byte>)
    ensures |s| == 8 * |ws|
  {
    if ws == [] then [] else Bytes(ws[0], 8) + WordsBytes(ws[1..])
  }

  lemma {:induction false} WordsHold(ws: seq<nat>, i: nat)
    requires i < |ws|
    ensures WordsBytes(ws)[8 * i..8 * i + 8] == Bytes(ws[i], 8)
    decreases ws
  {
    if i > 0 {
      WordsHold(ws[1..], i - 1);
      assert WordsBytes(ws)[8 * i..8 * i + 8] == WordsBytes(ws[1..])[8 * (i - 1)..8 * (i - 1) + 8];
    }
  }

  /** A string in C: its bytes up to the NUL. */
  type CString = s: seq<Byte> | 0 !in s witness []

  /** Strings one after the other, each with its NUL. */
  function Text(ss: seq<CString>): seq<Byte> {
    if ss == [] then [] else ss[0] + [0] + Text(ss[1..])
  }

  /** Where each of the strings starts when the last one ends at a place. */
  function Addresses(ss: seq<CString>, end: nat): (r: seq<nat>)
    requires |Text(ss)| <= end
    ensures |r| == |ss|
  {
    if ss == [] then [] else [end - |Text(ss)|] + Addresses(ss[1..], end)
  }

  const AT_NULL: nat := 0
  const AT_PHDR: nat := 3
  const AT_PHENT: nat := 4
  const AT_PHNUM: nat := 5
  const AT_PAGESZ: nat := 6
  const AT_BASE: nat := 7
  const AT_ENTRY: nat := 9
  const AT_UID: nat := 11
  const AT_EUID: nat := 12
  const AT_GID: nat := 13
  const AT_EGID: nat := 14
  const AT_CLKTCK: nat := 17
  const AT_SECURE: nat := 23
  const AT_RANDOM: nat := 25
  const AT_EXECFN: nat := 31

  datatype Elf = Elf(entry: nat, phdr: nat, phent: nat, phnum: nat, base: Option<nat>)

  /** What the host says of the process. */
  datatype Host = Host(uid: nat, euid: nat, gid: nat, egid: nat, secure: nat, pageSize: nat, clockTicks: nat)

  type Random = s: seq<Byte> | |s| == 16 witness [0, 0, 0, 0, 0, 0, 0, 0, 0, 0, 0, 0, 0, 0, 0, 0]

  datatype Program = Program(prog: CString, execfn: CString, args: seq<CString>, vars: seq<CString>, rng: Random,
                             elf: Elf, host: Host)

  // From the top down: the path, the random bytes, the name the program was run by, the environment, the arguments.

  function ProgAt(p: Program, top: nat): int {
    top - |p.prog| - 1
  }

  function RandomAt(p: Program, top: nat): int {
    ProgAt(p, top) - 16
  }

  function ExecfnAt(p: Program, top: nat): int {
    RandomAt(p, top) - |p.execfn| - 1
  }

  function VarsAt(p: Program, top: nat): int {
    ExecfnAt(p, top) - |Text(p.vars)|
  }

  function ArgsAt(p: Program, top: nat): int {
    VarsAt(p, top) - |Text(p.args)|
  }

  function TopStrings(p: Program): seq<Byte> {
    p.execfn + [0] + (p.rng + (p.prog + [0]))
  }

  function Strings(p: Program): seq<Byte> {
    Text(p.args) + (Text(p.vars) + TopStrings(p))
  }

  function ElfWords(elf: Elf): seq<nat> {
    if elf.entry == 0 then []
    else
      (if elf.base.None? then [] else [AT_BASE, elf.base.value]) + HeaderWords(elf)
  }

  function HeaderWords(elf: Elf): seq<nat> {
    [AT_ENTRY, elf.entry, AT_PHNUM, elf.phnum, AT_PHENT, elf.phent, AT_PHDR, elf.phdr]
  }

  function SystemWords(h: Host): seq<nat> {
    [AT_CLKTCK, h.clockTicks, AT_PAGESZ, h.pageSize, AT_SECURE, h.secure]
  }

  function UserWords(h: Host): seq<nat> {
    [AT_EGID, h.egid, AT_GID, h.gid, AT_EUID, h.euid, AT_UID, h.uid]
  }

  function HostWords(h: Host): seq<nat> {
    SystemWords(h) + (UserWords(h) + [AT_NULL, 0])
  }

  /** The auxiliary vector. */
  function AuxWords(p: Program, execfnAt: nat, randomAt: nat): seq<nat> {
    ElfWords(p.elf) + ([AT_EXECFN, execfnAt] + ([AT_RANDOM, randomAt] + HostWords(p.host)))
  }

  predicate HasRoom(p: Program, top: nat) {
    ArgsAt(p, top) - 8 * WordCount(p) >= 0
  }

  function WordCount(p: Program): nat {
    1 + |p.args| + 1 + |p.vars| + 1 + |ElfWords(p.elf)| + 20
  }

  /** The count of the arguments, the two lists of pointers, and the auxiliary vector. */
  function Words(p: Program, top: nat): (ws: seq<nat>)
    requires HasRoom(p, top)
    ensures |ws| == WordCount(p)
  {
    [|p.args|] + (Addresses(p.args, VarsAt(p, top)) + ([0] + (Addresses(p.vars, ExecfnAt(p, top))
    + ([0] + AuxWords(p, ExecfnAt(p, top), RandomAt(p, top))))))
  }

  /** What is left free below the strings so that the block starts at a multiple of 16. */
  function Gap(p: Program, top: nat): nat
    requires HasRoom(p, top)
  {
    (ArgsAt(p, top) - 8 * WordCount(p)) % 16
  }

  function StartOf(p: Program, top: nat): (sp: nat)
    requires HasRoom(p, top)
  {
    ArgsAt(p, top) - Gap(p, top) - 8 * WordCount(p)
  }

  lemma StartIsAligned(p: Program, top: nat)
    requires HasRoom(p, top)
    ensures StartOf(p, top) % 16 == 0 && Gap(p, top) <= 15
  {
  }

  /** Memory from the start of the block to its top. */
  ghost predicate Holds(mem: seq<Byte>, p: Program, top: nat)
    requires HasRoom(p, top) && top <= |mem|
  {
    && mem[StartOf(p, top)..StartOf(p, top) + 8 * WordCount(p)] == WordsBytes(Words(p, top))
    && mem[ArgsAt(p, top)..top] == Strings(p)
  }
}

/** The loader (libblink/blink/argv.c). */
module LoadArgv {

  import opened Options
  import opened StartBlock

  function Written(mem: seq<Byte>, at: nat, s: seq<Byte>): seq<Byte>
    requires at + |s| <= |mem|
  {
    mem[..at] + s + mem[at + |s|..]
  }

  class Machine {
    const mem: array<Byte>
    const iscosmo: bool
    var sp: nat
    var dx: nat
    var di: nat

    constructor (mem: array<Byte>, iscosmo: bool, sp: nat)
      ensures this.mem == mem && this.iscosmo == iscosmo && this.sp == sp
    {
      this.mem, this.iscosmo, this.sp, this.dx, this.di := mem, iscosmo, sp, 0, 0;
    }

    /** The program's memory must be there: the loader aborts when it is not. */
    method CopyToUser(at: nat, s: seq<Byte>)
      requires at + |s| <= mem.Length
      modifies mem
      ensures mem[..] == Written(old(mem[..]), at, s)
    {
      forall i | 0 <= i < |s| {
        mem[at + i] := s[i];
      }
    }

    method PushBuffer(s: seq<Byte>) returns (at: nat)
      requires |s| <= sp <= mem.Length
      modifies this`sp, mem
      ensures at == sp == old(sp) - |s|
      ensures mem[..] == Written(old(mem[..]), sp, s)
    {
      sp := sp - |s|;
      CopyToUser(sp, s);
      at := sp;
    }

    /** A NULL string pushes nothing. */
    method PushString(s: Option<CString>) returns (at: nat)
      requires s.Some? ==> |s.value| + 1 <= sp <= mem.Length
      modifies this`sp, mem
      ensures s.None? ==> at == 0 && sp == old(sp) && mem[..] == old(mem[..])
      ensures s.Some? ==> at == sp == old(sp) - |s.value| - 1
      ensures s.Some? ==> mem[..] == Written(old(mem[..]), sp, s.value + [0])
    {
      if s.None? {
        return 0;
      }
      at := PushBuffer(s.value + [0]);
    }

    /** Pushes the strings, the last one first, and in front of what the list holds their addresses and a NULL. */
    method PushStrings(ss: seq<CString>, bloc: array<nat>, p0: nat) returns (p: nat)
      requires |ss| < p0 <= bloc.Length && |Text(ss)| <= sp <= mem.Length
      modifies this`sp, mem, bloc
      ensures p == p0 - 1 - |ss| && sp == old(sp) - |Text(ss)|
      ensures bloc[p..] == Addresses(ss, old(sp)) + ([0] + old(bloc[p0..]))
      ensures mem[..] == Written(old(mem[..]), sp, Text(ss))
    {
      ghost var end, was, list := sp, mem[..], [0] + bloc[p0..];
      p := p0 - 1;
      bloc[p] := 0;
      var i := |ss|;
      NothingPushed(was, sp, ss, list);
      while i > 0
        invariant 0 <= i <= |ss| && p == p0 - 1 - (|ss| - i)
        invariant |Text(ss[..i])| <= sp <= mem.Length
        invariant |Text(ss[i..])| <= end && sp == end - |Text(ss[i..])|
        invariant bloc[p..] == Addresses(ss[i..], end) + list
        invariant mem[..] == Written(was, sp, Text(ss[i..]))
      {
        i, p := PushOne(ss, i, bloc, p, end, was, list);
      }
      assert ss[0..] == ss;
    }

    method PushOne(ss: seq<CString>, i0: nat, bloc: array<nat>, p0: nat, ghost end: nat, ghost was: seq<Byte>, ghost list: seq<nat>)
      returns (i: nat, p: nat)
      requires 0 < i0 <= |ss| && 0 < p0 <= bloc.Length
      requires |Text(ss[..i0])| <= sp <= mem.Length == |was|
      requires |Text(ss[i0..])| <= end <= |was| && sp == end - |Text(ss[i0..])|
      requires bloc[p0..] == Addresses(ss[i0..], end) + list
      requires mem[..] == Written(was, sp, Text(ss[i0..]))
      modifies this`sp, mem, bloc
      ensures i == i0 - 1 && p == p0 - 1
      ensures |Text(ss[..i])| <= sp
      ensures |Text(ss[i..])| <= end && sp == end - |Text(ss[i..])|
      ensures bloc[p..] == Addresses(ss[i..], end) + list
      ensures mem[..] == Written(was, sp, Text(ss[i..]))
    {
      i := i0 - 1;
      OneMore(ss, i, end, was, sp);
      var at := PushString(Some(ss[i]));
      p := PushWord(bloc, p0, at);
    }

    method PushWord(bloc: array<nat>, p0: nat, w: nat) returns (p: nat)
      requires 0 < p0 <= bloc.Length
      modifies bloc
      ensures p == p0 - 1 && bloc[p..] == [w] + old(bloc[p0..])
    {
      p := p0 - 1;
      bloc[p] := w;
    }

    method PushAuxv(bloc: array<nat>, p0: nat, k: nat, v: nat) returns (p: nat)
      requires 2 <= p0 <= bloc.Length
      modifies bloc
      ensures p == p0 - 2 && bloc[p..] == [k, v] + old(bloc[p0..])
    {
      p := p0 - 1;
      bloc[p] := v;
      p := p - 1;
      bloc[p] := k;
    }

    method PushHost(bloc: array<nat>, p0: nat, h: Host) returns (p: nat)
      requires 16 <= p0 == bloc.Length
      modifies bloc
      ensures p == p0 - 16 && bloc[p..] == HostWords(h)
    {
      p := PushAuxv(bloc, p0, AT_NULL, 0);
      p := PushUser(bloc, p, h);
      p := PushSystem(bloc, p, h);
    }

    method PushUser(bloc: array<nat>, p0: nat, h: Host) returns (p: nat)
      requires 8 <= p0 <= bloc.Length
      modifies bloc
      ensures p == p0 - 8 && bloc[p..] == UserWords(h) + old(bloc[p0..])
    {
      p := PushAuxv(bloc, p0, AT_UID, h.uid);
      p := PushAuxv(bloc, p, AT_EUID, h.euid);
      p := PushAuxv(bloc, p, AT_GID, h.gid);
      p := PushAuxv(bloc, p, AT_EGID, h.egid);
    }

    method PushSystem(bloc: array<nat>, p0: nat, h: Host) returns (p: nat)
      requires 6 <= p0 <= bloc.Length
      modifies bloc
      ensures p == p0 - 6 && bloc[p..] == SystemWords(h) + old(bloc[p0..])
    {
      p := PushAuxv(bloc, p0, AT_SECURE, h.secure);
      p := PushAuxv(bloc, p, AT_PAGESZ, h.pageSize);
      p := PushAuxv(bloc, p, AT_CLKTCK, h.clockTicks);
    }

    method PushElf(bloc: array<nat>, p0: nat, elf: Elf) returns (p: nat)
      requires |ElfWords(elf)| <= p0 <= bloc.Length
      modifies bloc
      ensures p == p0 - |ElfWords(elf)| && bloc[p..] == ElfWords(elf) + old(bloc[p0..])
    {
      p := p0;
      if elf.entry != 0 {
        p := PushHeaders(bloc, p, elf);
        if elf.base.Some? {
          p := PushAuxv(bloc, p, AT_BASE, elf.base.value);
        }
      }
    }

    method PushHeaders(bloc: array<nat>, p0: nat, elf: Elf) returns (p: nat)
      requires 8 <= p0 <= bloc.Length
      modifies bloc
      ensures p == p0 - 8 && bloc[p..] == HeaderWords(elf) + old(bloc[p0..])
    {
      p := PushAuxv(bloc, p0, AT_PHDR, elf.phdr);
      p := PushAuxv(bloc, p, AT_PHENT, elf.phent);
      p := PushAuxv(bloc, p, AT_PHNUM, elf.phnum);
      p := PushAuxv(bloc, p, AT_ENTRY, elf.entry);
    }

    /** The path, the random bytes and the name the program is run by, with the auxiliary vector that points at them. */
    method PushTop(p: Program, bloc: array<nat>) returns (prog: nat, k: nat)
      requires sp <= mem.Length && ExecfnAt(p, sp) >= 0 && bloc.Length >= |ElfWords(p.elf)| + 20
      modifies this`sp, mem, bloc
      ensures sp == ExecfnAt(p, old(sp)) && prog == ProgAt(p, old(sp))
      ensures mem[..] == Written(old(mem[..]), sp, TopStrings(p))
      ensures k == bloc.Length - |ElfWords(p.elf)| - 20
      ensures bloc[k..] == AuxWords(p, ExecfnAt(p, old(sp)), RandomAt(p, old(sp)))
    {
      ghost var was := mem[..];
      assert Written(was, sp, []) == was;
      prog := PushPiece(p.prog + [0], was, []);
      k := PushHost(bloc, bloc.Length, p.host);
      var at := PushPiece(p.rng, was, p.prog + [0]);
      k := PushAuxv(bloc, k, AT_RANDOM, at);
      at := PushPiece(p.execfn + [0], was, p.rng + (p.prog + [0]));
      k := PushAuxv(bloc, k, AT_EXECFN, at);
      k := PushElf(bloc, k, p.elf);
    }

    /** Pushes bytes below what was pushed before. */
    method PushPiece(s: seq<Byte>, ghost was: seq<Byte>, ghost above: seq<Byte>) returns (at: nat)
      requires |s| <= sp <= mem.Length == |was|
      requires sp + |above| <= |was| && mem[..] == Written(was, sp, above)
      modifies this`sp, mem
      ensures at == sp == old(sp) - |s|
      ensures mem[..] == Written(was, sp, s + above)
    {
      WrittenBelow(was, sp, above, s);
      at := PushBuffer(s);
    }

    /** Pushes the strings, and lists the words that go below them. */
    method PushAll(p: Program, bloc: array<nat>) returns (prog: nat)
      requires sp <= mem.Length && HasRoom(p, sp) && bloc.Length == WordCount(p)
      modifies this`sp, mem, bloc
      ensures sp == ArgsAt(p, old(sp)) && prog == ProgAt(p, old(sp))
      ensures mem[..] == Written(old(mem[..]), sp, Strings(p))
      ensures bloc[..] == Words(p, old(sp))
    {
      ghost var was := mem[..];
      var k;
      prog, k := PushTop(p, bloc);
      k := PushLists(p, bloc, k, was);
      assert bloc[0..] == bloc[..];
    }

    method PushLists(p: Program, bloc: array<nat>, k0: nat, ghost was: seq<Byte>) returns (k: nat)
      requires |p.args| + |p.vars| + 2 < k0 <= bloc.Length && |Text(p.args)| + |Text(p.vars)| <= sp <= mem.Length == |was|
      requires sp + |TopStrings(p)| <= |was| && mem[..] == Written(was, sp, TopStrings(p))
      modifies this`sp, mem, bloc
      ensures k == k0 - |p.args| - |p.vars| - 3 && sp == old(sp) - |Text(p.vars)| - |Text(p.args)|
      ensures bloc[k..] == [|p.args|] + (Addresses(p.args, old(sp) - |Text(p.vars)|)
                           + ([0] + (Addresses(p.vars, old(sp)) + ([0] + old(bloc[k0..])))))
      ensures mem[..] == Written(was, sp, Strings(p))
    {
      k := PushNext(p.vars, bloc, k0, was, TopStrings(p));
      k := PushNext(p.args, bloc, k, was, Text(p.vars) + TopStrings(p));
      k := k - 1;
      bloc[k] := |p.args|;
      assert bloc[k..] == [|p.args|] + bloc[k + 1..];
    }

    /** Pushes strings below what was pushed before. */
    method PushNext(ss: seq<CString>, bloc: array<nat>, k0: nat, ghost was: seq<Byte>, ghost above: seq<Byte>) returns (k: nat)
      requires |ss| < k0 <= bloc.Length && |Text(ss)| <= sp <= mem.Length == |was|
      requires sp + |above| <= |was| && mem[..] == Written(was, sp, above)
      modifies this`sp, mem, bloc
      ensures k == k0 - 1 - |ss| && sp == old(sp) - |Text(ss)|
      ensures bloc[k..] == Addresses(ss, old(sp)) + ([0] + old(bloc[k0..]))
      ensures mem[..] == Written(was, sp, Text(ss) + above)
    {
      WrittenBelow(was, sp, above, Text(ss));
      k := PushStrings(ss, bloc, k0);
    }

    /** Moves the stack pointer down until the block of words below it ends at a multiple of 16. */
    method Align(nall: nat)
      requires 8 * nall <= sp
      modifies this`sp
      ensures sp == old(sp) - (old(sp) - 8 * nall) % 16 >= 8 * nall
    {
      while (sp - 8 * nall) % 16 != 0
        invariant 8 * nall <= sp <= old(sp)
        invariant (old(sp) - 8 * nall) % 16 == (sp - 8 * nall) % 16 + (old(sp) - sp)
        decreases sp
      {
        sp := sp - 1;
      }
    }

    /** LoadArgv. */
    method Load(p: Program)
      requires sp <= mem.Length && HasRoom(p, sp)
      modifies this`sp, this`dx, this`di, mem
      ensures sp == StartOf(p, old(sp))
      ensures dx == (if iscosmo then ProgAt(p, old(sp)) else 0) && di == 0
      ensures Holds(mem[..], p, old(sp))
      ensures mem[..sp] == old(mem[..])[..sp] && mem[old(sp)..] == old(mem[..])[old(sp)..]
    {
      ghost var top, was := sp, mem[..];
      var nall := WordCount(p);
      var bloc := new nat[nall];
      var path := PushAll(p, bloc);
      PlaceBlock(p, bloc, top, was);
      dx := if iscosmo then path else 0;
      di := 0;
    }

    /** Writes the words below the strings. */
    method PlaceBlock(p: Program, bloc: array<nat>, ghost top: nat, ghost was: seq<Byte>)
      requires top <= mem.Length == |was| && HasRoom(p, top) && sp == ArgsAt(p, top)
      requires bloc[..] == Words(p, top) && mem[..] == Written(was, sp, Strings(p))
      modifies this`sp, mem
      ensures sp == StartOf(p, top) && Holds(mem[..], p, top)
      ensures mem[..sp] == was[..sp] && mem[top..] == was[top..]
    {
      var bytes := WriteWords(bloc);
      ghost var strings := Strings(p);
      assert |strings| == top - ArgsAt(p, top);
      PlaceWords(bloc.Length, bytes[..], strings, was);
      PlacedHolds(mem[..], p, top, sp, bytes[..], strings);
    }

    /** Puts the words below the strings. */
    method PlaceWords(nall: nat, words: seq<Byte>, ghost strings: seq<Byte>, ghost was: seq<Byte>)
      requires |words| == 8 * nall <= sp && sp + |strings| <= mem.Length == |was|
      requires mem[..] == Written(was, sp, strings)
      modifies this`sp, mem
      ensures sp == old(sp) - (old(sp) - 8 * nall) % 16 - 8 * nall
      ensures mem[..][sp..sp + 8 * nall] == words && mem[..][old(sp)..old(sp) + |strings|] == strings
      ensures mem[..sp] == was[..sp] && mem[old(sp) + |strings|..] == was[old(sp) + |strings|..]
    {
      ghost var at := sp;
      Align(nall);
      sp := sp - 8 * nall;
      CopyToUser(sp, words);
      BothWritten(was, at, strings, sp, words);
    }
  }

  lemma PlacedHolds(mem: seq<Byte>, p: Program, top: nat, sp: nat, words: seq<Byte>, strings: seq<Byte>)
    requires HasRoom(p, top) && top <= |mem| && words == WordsBytes(Words(p, top)) && strings == Strings(p)
    requires sp == ArgsAt(p, top) - (ArgsAt(p, top) - 8 * WordCount(p)) % 16 - 8 * WordCount(p)
    requires mem[sp..sp + 8 * WordCount(p)] == words && ArgsAt(p, top) + |strings| == top && mem[ArgsAt(p, top)..top] == strings
    ensures sp == StartOf(p, top) && Holds(mem, p, top)
  {
  }

  /** The words, eight bytes each. */
  method WriteWords(bloc: array<nat>) returns (bytes: array<Byte>)
    ensures fresh(bytes) && bytes[..] == WordsBytes(bloc[..])
  {
    bytes := new Byte[8 * bloc.Length](i => 0);
    for i := 0 to bloc.Length
      invariant bytes[..8 * i] == WordsBytes(bloc[..i])
    {
      Write64(bytes, 8 * i, bloc[i]);
      WordsAppend(bloc[..i], bloc[i]);
      assert bloc[..i + 1] == bloc[..i] + [bloc[i]];
    }
    assert bloc[..bloc.Length] == bloc[..] && bytes[..8 * bloc.Length] == bytes[..];
  }

  method Write64(bytes: array<Byte>, at: nat, v: nat)
    requires at + 8 <= bytes.Length
    modifies bytes
    ensures bytes[..at + 8] == old(bytes[..at]) + Bytes(v, 8)
  {
    var word := Bytes(v, 8);
    forall j | 0 <= j < 8 {
      bytes[at + j] := word[j];
    }
  }

  lemma {:induction false} WordsAppend(ws: seq<nat>, w: nat)
    ensures WordsBytes(ws + [w]) == WordsBytes(ws) + Bytes(w, 8)
    decreases ws
  {
    if ws == [] {
      assert [] + [w] == [w] && [w][1..] == [];
      assert Bytes(w, 8) + [] == Bytes(w, 8);
    } else {
      assert (ws + [w])[1..] == ws[1..] + [w];
      WordsAppend(ws[1..], w);
    }
  }

  /** Two pieces, the second below the first. */
  lemma BothWritten(mem: seq<Byte>, at: nat, s: seq<Byte>, below: nat, t: seq<Byte>)
    requires at + |s| <= |mem| && below + |t| <= at
    ensures
      var r := Written(Written(mem, at, s), below, t);
      && r[below..below + |t|] == t && r[at..at + |s|] == s
      && r[..below] == mem[..below] && r[at + |s|..] == mem[at + |s|..]
  {
    var m := Written(mem, at, s);
    var r := Written(m, below, t);
    assert m[at..at + |s|] == s;
    assert r[at..at + |s|] == m[at..at + |s|];
  }

  lemma NothingPushed(mem: seq<Byte>, sp: nat, ss: seq<CString>, list: seq<nat>)
    requires sp <= |mem|
    ensures ss[|ss|..] == [] && Written(mem, sp, []) == mem && Addresses([], sp) + list == list && ss[..|ss|] == ss
  {
  }

  lemma OneMore(ss: seq<CString>, i: nat, end: nat, mem: seq<Byte>, sp: nat)
    requires i < |ss| && |Text(ss[i + 1..])| <= end <= |mem| && sp == end - |Text(ss[i + 1..])|
    requires |Text(ss[..i + 1])| <= sp
    ensures |Text(ss[i..])| == |ss[i]| + 1 + |Text(ss[i + 1..])| && |Text(ss[..i + 1])| == |Text(ss[..i])| + |ss[i]| + 1
    ensures |Text(ss[i..])| <= end
    ensures Addresses(ss[i..], end) == [sp - |ss[i]| - 1] + Addresses(ss[i + 1..], end)
    ensures Written(Written(mem, sp, Text(ss[i + 1..])), sp - |ss[i]| - 1, ss[i] + [0])
         == Written(mem, sp - |ss[i]| - 1, Text(ss[i..]))
  {
    assert ss[i..][1..] == ss[i + 1..];
    TextAppends(ss[..i], ss[i]);
    assert ss[..i + 1] == ss[..i] + [ss[i]];
    WrittenBelow(mem, sp, Text(ss[i + 1..]), ss[i] + [0]);
  }

  lemma {:induction false} TextAppends(ss: seq<CString>, s: CString)
    ensures Text(ss + [s]) == Text(ss) + s + [0]
    decreases ss
  {
    if ss == [] {
      assert [] + [s] == [s] && [s][1..] == [];
      assert Text([s]) == s + [0] + [];
    } else {
      assert (ss + [s])[1..] == ss[1..] + [s];
      TextAppends(ss[1..], s);
      Associates(ss[0] + [0], Text(ss[1..]), s, [0]);
    }
  }

  lemma Associates(a: seq<Byte>, b: seq<Byte>, c: seq<Byte>, d: seq<Byte>)
    ensures a + (b + c + d) == a + b + c + d
  {
  }

  lemma WrittenBelow(mem: seq<Byte>, at: nat, s: seq<Byte>, t: seq<Byte>)
    requires |t| <= at && at + |s| <= |mem|
    ensures Written(Written(mem, at, s), at - |t|, t) == Written(mem, at - |t|, t + s)
  {
  }
}
