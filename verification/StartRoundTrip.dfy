/** What the reader of process-start.ts makes of the block LoadArgv wrote (libblink/blink/argv.c). */
module StartRoundTrip {

  import opened Options
  import opened StartBlock
  import opened ProcessStart

  // ---------------------------------------------------------------------------------------------
  // Words
  // ---------------------------------------------------------------------------------------------

  ghost predicate HasWord(mem: seq<Byte>, at: nat, w: nat) {
    at + 8 <= |mem| && mem[at..at + 8] == Bytes(w, 8)
  }

  ghost predicate IsWordOf(mem: seq<Byte>, at: nat, ws: seq<nat>, i: int) {
    0 <= i < |ws| ==> HasWord(mem, at + 8 * i, ws[i])
  }

  /** Words in memory, from a place on. */
  ghost predicate HasWords(mem: seq<Byte>, at: nat, ws: seq<nat>) {
    forall i :: IsWordOf(mem, at, ws, i)
  }

  lemma {:induction false} SubSlice(mem: seq<Byte>, from: nat, to: nat, i: nat, j: nat)
    requires from <= to <= |mem| && i <= j <= to - from
    ensures mem[from..to][i..j] == mem[from + i..from + j]
  {
    var a, b := mem[from..to][i..j], mem[from + i..from + j];
    forall k | 0 <= k < j - i
      ensures a[k] == b[k]
    {
      assert a[k] == mem[from..to][i + k];
    }
  }

  lemma {:induction false} WordsInMemory(mem: seq<Byte>, at: nat, ws: seq<nat>)
    requires at + 8 * |ws| <= |mem| && mem[at..at + 8 * |ws|] == WordsBytes(ws)
    ensures HasWords(mem, at, ws)
  {
    forall i | 0 <= i < |ws|
      ensures IsWordOf(mem, at, ws, i)
    {
      WordsHold(ws, i);
      WordInMemory(mem, at, WordsBytes(ws), i, ws[i]);
    }
  }

  lemma {:induction false} WordInMemory(mem: seq<Byte>, at: nat, bytes: seq<Byte>, i: nat, w: nat)
    requires at + |bytes| <= |mem| && mem[at..at + |bytes|] == bytes && 8 * i + 8 <= |bytes|
    requires bytes[8 * i..8 * i + 8] == Bytes(w, 8)
    ensures HasWord(mem, at + 8 * i, w)
  {
    SubSlice(mem, at, at + |bytes|, 8 * i, 8 * i + 8);
  }

  predicate IsWord(w: nat) {
    w < Limit(8)
  }

  lemma WordRead(mem: seq<Byte>, rsp: nat, at: nat, w: nat)
    requires rsp <= at && HasWord(mem, at, w)
    ensures WordAt(mem, rsp, at).Some? && (IsWord(w) ==> WordAt(mem, rsp, at) == Some(w))
  {
    if IsWord(w) {
      BytesRead(w, 8);
    }
  }

  lemma {:induction false} WordsSplit(mem: seq<Byte>, at: nat, a: seq<nat>, b: seq<nat>)
    requires HasWords(mem, at, a + b)
    ensures HasWords(mem, at, a) && HasWords(mem, at + 8 * |a|, b)
  {
    forall i
      ensures IsWordOf(mem, at, a, i)
    {
      assert IsWordOf(mem, at, a + b, i);
    }
    var next := at + 8 * |a|;
    forall i
      ensures IsWordOf(mem, next, b, i)
    {
      assert IsWordOf(mem, at, a + b, |a| + i);
    }
  }

  lemma {:induction false} WordsTail(mem: seq<Byte>, at: nat, ws: seq<nat>)
    requires HasWords(mem, at, ws) && ws != []
    ensures HasWord(mem, at, ws[0]) && HasWords(mem, at + 8, ws[1..])
  {
    assert IsWordOf(mem, at, ws, 0);
    assert [ws[0]] + ws[1..] == ws;
    WordsSplit(mem, at, [ws[0]], ws[1..]);
  }

  /** Pointers, none of them NULL. */
  predicate AreWords(ps: seq<nat>) {
    forall i :: 0 <= i < |ps| ==> 0 < ps[i] && IsWord(ps[i])
  }

  /** A list of pointers is read up to its NULL, if there is room for all of it. */
  lemma {:induction false} PointersRead(mem: seq<Byte>, rsp: nat, at: nat, ps: seq<nat>, room: nat)
    requires rsp <= at && HasWords(mem, at, ps) && HasWord(mem, at + 8 * |ps|, 0)
    requires AreWords(ps)
    ensures PointersAt(mem, rsp, at, room) == if |ps| <= room then Some((ps, at + 8 * |ps| + 8)) else None
    decreases ps
  {
    if ps == [] {
      WordRead(mem, rsp, at, 0);
    } else {
      WordsTail(mem, at, ps);
      WordRead(mem, rsp, at, ps[0]);
      assert AreWords(ps[1..]);
      if room > 0 {
        PointersRead(mem, rsp, at + 8, ps[1..], room - 1);
        assert ps == [ps[0]] + ps[1..];
      }
    }
  }

  // ---------------------------------------------------------------------------------------------
  // Auxiliary entries
  // ---------------------------------------------------------------------------------------------

  predicate IsOther(kind: nat) {
    kind != AT_NULL && kind != AT_EXECFN && kind != AT_RANDOM && IsWord(kind)
  }

  lemma TakenRead(mem: seq<Byte>, rsp: nat, at: nat, room: nat, found: Found, kind: nat, value: nat)
    requires rsp <= at && HasWord(mem, at, kind) && HasWord(mem, at + 8, value) && room > 0
    requires IsWord(kind) && IsWord(value) && kind != AT_NULL
    ensures
      var more := TakeEntry(mem, rsp, (kind, value), found);
      AuxAt(mem, rsp, at, room, found) == if more.None? then None else AuxAt(mem, rsp, at + 16, room - 1, more.value)
  {
    WordRead(mem, rsp, at, kind);
    WordRead(mem, rsp, at + 8, value);
  }

  lemma OtherRead(mem: seq<Byte>, rsp: nat, at: nat, room: nat, found: Found, kind: nat, value: nat)
    requires rsp <= at && IsOther(kind) && HasWord(mem, at, kind) && HasWord(mem, at + 8, value) && room > 0
    ensures AuxAt(mem, rsp, at, room, found) == AuxAt(mem, rsp, at + 16, room - 1, found)
  {
    WordRead(mem, rsp, at, kind);
    WordRead(mem, rsp, at + 8, value);
  }

  lemma EndRead(mem: seq<Byte>, rsp: nat, at: nat, room: nat, found: Found)
    requires rsp <= at && HasWord(mem, at, AT_NULL) && HasWord(mem, at + 8, 0) && room > 0
    ensures AuxAt(mem, rsp, at, room, found) == Some(Aux(found, at + 16))
  {
    WordRead(mem, rsp, at, AT_NULL);
    WordRead(mem, rsp, at + 8, 0);
  }

  /** Entries of other types are passed over. */
  lemma {:induction false} OthersRead(mem: seq<Byte>, rsp: nat, at: nat, room: nat, found: Found, others: seq<nat>)
    requires rsp <= at && HasWords(mem, at, others) && |others| % 2 == 0 && |others| / 2 <= room
    requires forall i :: 0 <= i < |others| / 2 ==> IsOther(others[2 * i])
    ensures AuxAt(mem, rsp, at, room, found) == AuxAt(mem, rsp, at + 8 * |others|, room - |others| / 2, found)
    decreases others
  {
    if others != [] {
      var next := others[2..];
      FirstEntry(mem, at, others);
      assert IsOther(others[2 * 0]);
      forall i | 0 <= i < |next| / 2
        ensures IsOther(next[2 * i])
      {
        assert next[2 * i] == others[2 * (i + 1)];
      }
      OtherRead(mem, rsp, at, room, found, others[0], others[1]);
      OthersRead(mem, rsp, at + 16, room - 1, found, next);
    }
  }

  lemma FirstEntry(mem: seq<Byte>, at: nat, entries: seq<nat>)
    requires |entries| >= 2 && HasWords(mem, at, entries)
    ensures HasWord(mem, at, entries[0]) && HasWord(mem, at + 8, entries[1]) && HasWords(mem, at + 16, entries[2..])
  {
    WordsTail(mem, at, entries);
    WordsTail(mem, at + 8, entries[1..]);
    assert entries[1..][1..] == entries[2..];
  }

  // ---------------------------------------------------------------------------------------------
  // Strings
  // ---------------------------------------------------------------------------------------------

  /** A string and its NUL in memory. */
  ghost predicate HasString(mem: seq<Byte>, at: nat, s: CString) {
    at + |s| + 1 <= |mem| && mem[at..at + |s| + 1] == s + [0]
  }

  /** The page with the string's NUL begins less than 256 KiB into it. */
  predicate IsReadable(at: nat, s: CString) {
    var page := at + |s| - (at + |s|) % 4096;
    page < at + 0x4_0000
  }

  predicate AreReadable(at: seq<nat>, ss: seq<CString>)
    requires |at| == |ss|
  {
    forall i :: 0 <= i < |ss| ==> IsReadable(at[i], ss[i])
  }

  lemma StringRead(mem: seq<Byte>, rsp: nat, at: nat, s: CString)
    requires rsp <= at && HasString(mem, at, s)
    ensures StringAt(mem, rsp, at) == if IsReadable(at, s) then Some(Span(at, |s| + 1)) else None
  {
    forall i | at <= i < at + |s|
      ensures mem[i] != 0
    {
      assert mem[i] == mem[at..at + |s| + 1][i - at] == s[i - at];
    }
    assert mem[at + |s|] == mem[at..at + |s| + 1][|s|] == 0;
    NulIsFirst(mem, at, at + |s|);
  }

  function Spans(ss: seq<CString>, at: seq<nat>): (r: seq<Span>)
    requires |at| == |ss|
    ensures |r| == |ss|
  {
    seq(|ss|, i requires 0 <= i < |ss| => Span(at[i], |ss[i]| + 1))
  }

  lemma {:induction false} StringsRead(mem: seq<Byte>, rsp: nat, ss: seq<CString>, at: seq<nat>)
    requires |at| == |ss|
    requires forall i :: 0 <= i < |ss| ==> rsp <= at[i] && HasString(mem, at[i], ss[i])
    ensures StringsAt(mem, rsp, at) == if AreReadable(at, ss) then Some(Spans(ss, at)) else None
    decreases ss
  {
    if ss != [] {
      var n := |ss| - 1;
      StringsRead(mem, rsp, ss[..n], at[..n]);
      StringRead(mem, rsp, at[n], ss[n]);
      LastString(at, ss, n);
    }
  }

  lemma LastString(at: seq<nat>, ss: seq<CString>, n: nat)
    requires |at| == |ss| == n + 1
    ensures AreReadable(at, ss) <==> AreReadable(at[..n], ss[..n]) && IsReadable(at[n], ss[n])
    ensures Spans(ss, at) == Spans(ss[..n], at[..n]) + [Span(at[n], |ss[n]| + 1)]
  {
    if AreReadable(at[..n], ss[..n]) && IsReadable(at[n], ss[n]) {
      forall i | 0 <= i < |ss|
        ensures IsReadable(at[i], ss[i])
      {
        assert i < n ==> IsReadable(at[..n][i], ss[..n][i]);
      }
    }
  }

  /** The strings of a text stand at their addresses. */
  lemma {:induction false} TextStands(mem: seq<Byte>, ss: seq<CString>, end: nat, i: nat)
    requires |Text(ss)| <= end <= |mem| && mem[end - |Text(ss)|..end] == Text(ss) && i < |ss|
    ensures end - |Text(ss)| <= Addresses(ss, end)[i]
    ensures Addresses(ss, end)[i] + |ss[i]| + 1 <= end
    ensures HasString(mem, Addresses(ss, end)[i], ss[i])
    decreases ss
  {
    var at, first, rest := end - |Text(ss)|, ss[0] + [0], Text(ss[1..]);
    TextParts(mem, at, first, rest, end);
    if i > 0 {
      TextStands(mem, ss[1..], end, i - 1);
    }
  }

  lemma TextParts(mem: seq<Byte>, at: nat, first: seq<Byte>, rest: seq<Byte>, end: nat)
    requires at + |first| + |rest| == end <= |mem| && mem[at..end] == first + rest
    ensures mem[at..at + |first|] == first && mem[at + |first|..end] == rest
  {
    assert mem[at..end][..|first|] == first && mem[at..end][|first|..] == rest;
  }

  // ---------------------------------------------------------------------------------------------
  // The whole block
  // ---------------------------------------------------------------------------------------------

  /** The path starts where the named strings end: the reader takes it for none when it is empty or too long. */
  predicate PathIsFound(p: Program, at: nat) {
    p.prog != [] && IsReadable(at, p.prog)
  }

  /** What was written, as the reader should return it. */
  function WrittenStart(p: Program, top: nat): Start
    requires HasRoom(p, top)
  {
    var sp, args, vars := StartOf(p, top), Addresses(p.args, VarsAt(p, top)), Addresses(p.vars, ExecfnAt(p, top));
    var found := PathIsFound(p, ProgAt(p, top));
    Start(sp, if found then top else ProgAt(p, top), |p.args|,
          sp + 8, sp + 16 + 8 * |p.args|, sp + 24 + 8 * |p.args| + 8 * |p.vars|, sp + 8 * WordCount(p),
          Spans(p.args, args), Spans(p.vars, vars),
          Some(Span(ExecfnAt(p, top), |p.execfn| + 1)), Some(Span(RandomAt(p, top), 16)),
          if found then Some(Span(ProgAt(p, top), |p.prog| + 1)) else None)
  }

  /** The strings, where the addresses say. */
  ghost predicate StringsStand(mem: seq<Byte>, p: Program, top: nat)
    requires HasRoom(p, top) && top <= |mem|
  {
    && mem[ArgsAt(p, top)..VarsAt(p, top)] == Text(p.args)
    && mem[VarsAt(p, top)..ExecfnAt(p, top)] == Text(p.vars)
    && HasString(mem, ExecfnAt(p, top), p.execfn)
    && HasString(mem, ProgAt(p, top), p.prog)
  }

  lemma {:induction false} StringsHeld(mem: seq<Byte>, p: Program, top: nat)
    requires HasRoom(p, top) && top <= |mem| && mem[ArgsAt(p, top)..top] == Strings(p)
    ensures StringsStand(mem, p, top)
  {
    TextParts(mem, ArgsAt(p, top), Text(p.args), Text(p.vars) + TopStrings(p), top);
    TextParts(mem, VarsAt(p, top), Text(p.vars), TopStrings(p), top);
    TextParts(mem, ExecfnAt(p, top), p.execfn + [0], p.rng + (p.prog + [0]), top);
    TextParts(mem, RandomAt(p, top), p.rng, p.prog + [0], top);
  }

  lemma OtherKinds(p: Program)
    ensures |ElfWords(p.elf)| % 2 == 0 && forall i :: 0 <= i < |ElfWords(p.elf)| / 2 ==> IsOther(ElfWords(p.elf)[2 * i])
    ensures
      var others := SystemWords(p.host) + UserWords(p.host);
      |others| == 14 && forall i :: 0 <= i < 7 ==> IsOther(others[2 * i])
  {
    assert Limit(8) > 100;
  }

  /** The host's entries, and the end. */
  lemma {:induction false} HostRead(mem: seq<Byte>, rsp: nat, at: nat, room: nat, found: Found, p: Program)
    requires rsp <= at && HasWords(mem, at, HostWords(p.host)) && room > 7
    ensures AuxAt(mem, rsp, at, room, found) == Some(Aux(found, at + 128))
  {
    var others := SystemWords(p.host) + UserWords(p.host);
    OtherKinds(p);
    assert HostWords(p.host) == others + [AT_NULL, 0];
    WordsSplit(mem, at, others, [AT_NULL, 0]);
    FirstEntry(mem, at + 112, [AT_NULL, 0]);
    OthersRead(mem, rsp, at, room, found, others);
    EndRead(mem, rsp, at + 112, room - 7, found);
  }

  /** The two strings, the host's entries, and the end. */
  lemma {:induction false} AuxTailRead(mem: seq<Byte>, rsp: nat, at: nat, room: nat, p: Program, execfnAt: nat, randomAt: nat)
    requires rsp <= at && HasWords(mem, at, [AT_EXECFN, execfnAt]) && HasWords(mem, at + 16, [AT_RANDOM, randomAt])
    requires HasWords(mem, at + 32, HostWords(p.host)) && room > 9
    requires IsWord(execfnAt) && IsWord(randomAt) && execfnAt > 0 && randomAt > 0
    ensures
      var execfn := StringAt(mem, rsp, execfnAt);
      AuxAt(mem, rsp, at, room, Found(None, None))
        == if execfn.None? then None else Some(Aux(Found(execfn, Some(Span(randomAt, 16))), at + 160))
  {
    var none := Found(None, None);
    var one := none.(execfn := StringAt(mem, rsp, execfnAt));
    assert IsWord(AT_EXECFN) && IsWord(AT_RANDOM) by {
      assert Limit(8) > 100;
    }
    FirstEntry(mem, at, [AT_EXECFN, execfnAt]);
    FirstEntry(mem, at + 16, [AT_RANDOM, randomAt]);
    TakenRead(mem, rsp, at, room, none, AT_EXECFN, execfnAt);
    if one.execfn.Some? {
      TakenRead(mem, rsp, at + 16, room - 1, one, AT_RANDOM, randomAt);
      HostRead(mem, rsp, at + 32, room - 2, one.(random := Some(Span(randomAt, 16))), p);
    }
  }

  lemma {:induction false} AuxRead(mem: seq<Byte>, rsp: nat, at: nat, p: Program, execfnAt: nat, randomAt: nat, room: nat)
    requires rsp <= at && HasWords(mem, at, AuxWords(p, execfnAt, randomAt))
    requires room >= 15 && IsWord(execfnAt) && IsWord(randomAt) && execfnAt > 0 && randomAt > 0
    ensures
      var execfn := StringAt(mem, rsp, execfnAt);
      AuxAt(mem, rsp, at, room, Found(None, None))
        == if execfn.None? then None
           else Some(Aux(Found(execfn, Some(Span(randomAt, 16))), at + 8 * |ElfWords(p.elf)| + 160))
  {
    var elf := ElfWords(p.elf);
    AuxSplit(mem, at, elf, [AT_EXECFN, execfnAt], [AT_RANDOM, randomAt], HostWords(p.host));
    OtherKinds(p);
    OthersRead(mem, rsp, at, room, Found(None, None), elf);
    AuxTailRead(mem, rsp, at + 8 * |elf|, room - |elf| / 2, p, execfnAt, randomAt);
  }

  lemma {:induction false} AuxSplit(mem: seq<Byte>, at: nat, elf: seq<nat>, a: seq<nat>, b: seq<nat>, host: seq<nat>)
    requires HasWords(mem, at, elf + (a + (b + host))) && |a| == 2 == |b|
    ensures HasWords(mem, at, elf) && HasWords(mem, at + 8 * |elf|, a)
    ensures HasWords(mem, at + 8 * |elf| + 16, b) && HasWords(mem, at + 8 * |elf| + 32, host)
  {
    WordsSplit(mem, at, elf, a + (b + host));
    WordsSplit(mem, at + 8 * |elf|, a, b + host);
    WordsSplit(mem, at + 8 * |elf| + 16, b, host);
  }

  /** Every named string ends by the random bytes' end, above the vectors. */
  lemma {:induction false} TopRead(spans: seq<Span>, auxvEnd: nat, top: nat)
    requires spans != [] && spans[|spans| - 1].address + spans[|spans| - 1].length == top >= auxvEnd
    requires forall s :: s in spans ==> auxvEnd <= s.address && s.address + s.length <= top
    ensures TopOf(spans, auxvEnd) == Some(top)
  {
    var before := spans[..|spans| - 1];
    assert forall s :: s in before ==> s in spans;
    TopBelow(before, auxvEnd, top);
    assert spans[|spans| - 1] in spans;
  }

  lemma {:induction false} TopBelow(spans: seq<Span>, auxvEnd: nat, top: nat)
    requires top >= auxvEnd && forall s :: s in spans ==> auxvEnd <= s.address && s.address + s.length <= top
    ensures TopOf(spans, auxvEnd).Some? && TopOf(spans, auxvEnd).value <= top
    decreases spans
  {
    if spans != [] {
      var before := spans[..|spans| - 1];
      assert forall s :: s in before ==> s in spans;
      TopBelow(before, auxvEnd, top);
      assert spans[|spans| - 1] in spans;
    }
  }

  lemma ListSplit(mem: seq<Byte>, at: nat, ps: seq<nat>, rest: seq<nat>)
    requires HasWords(mem, at, ps + ([0] + rest))
    ensures HasWords(mem, at, ps) && HasWord(mem, at + 8 * |ps|, 0) && HasWords(mem, at + 8 * |ps| + 8, rest)
  {
    WordsSplit(mem, at, ps, [0] + rest);
    WordsSplit(mem, at + 8 * |ps|, [0], rest);
    WordsTail(mem, at + 8 * |ps|, [0]);
  }

  /** The count, and the two arrays with a NULL each. */
  ghost predicate ArraysStand(mem: seq<Byte>, sp: nat, args: seq<nat>, vars: seq<nat>) {
    && HasWord(mem, sp, |args|)
    && HasWords(mem, sp + 8, args) && HasWord(mem, sp + 8 + 8 * |args|, 0)
    && HasWords(mem, sp + 16 + 8 * |args|, vars) && HasWord(mem, sp + 16 + 8 * |args| + 8 * |vars|, 0)
  }

  lemma ArraysSplit(mem: seq<Byte>, sp: nat, args: seq<nat>, vars: seq<nat>, aux: seq<nat>, rest: seq<nat>)
    requires HasWords(mem, sp, [|args|] + (args + ([0] + rest))) && rest == vars + ([0] + aux)
    ensures ArraysStand(mem, sp, args, vars) && HasWords(mem, sp + 24 + 8 * |args| + 8 * |vars|, aux)
  {
    WordsSplit(mem, sp, [|args|], args + ([0] + rest));
    WordsTail(mem, sp, [|args|]);
    ListSplit(mem, sp + 8, args, rest);
    ListSplit(mem, sp + 16 + 8 * |args|, vars, aux);
  }

  lemma {:induction false} ArraysRead(mem: seq<Byte>, sp: nat, args: seq<nat>, vars: seq<nat>, room: nat)
    requires ArraysStand(mem, sp, args, vars) && IsWord(|args|)
    requires AreWords(args) && AreWords(vars)
    ensures WordAt(mem, sp, sp) == Some(|args|)
    ensures PointersAt(mem, sp, sp + 8, |args|) == Some((args, sp + 16 + 8 * |args|))
    ensures PointersAt(mem, sp, sp + 16 + 8 * |args|, room)
         == if |vars| <= room then Some((vars, sp + 24 + 8 * |args| + 8 * |vars|)) else None
  {
    WordRead(mem, sp, sp, |args|);
    PointersRead(mem, sp, sp + 8, args, |args|);
    PointersRead(mem, sp, sp + 16 + 8 * |args|, vars, room);
  }

  /** Where the parts of the block are. */
  datatype Places = Places(sp: nat, args: seq<nat>, vars: seq<nat>, execfn: nat, random: nat, prog: nat) {
    function Envp(): nat {
      sp + 16 + 8 * |args|
    }

    function Auxv(): nat {
      Envp() + 8 * |vars| + 8
    }

    function End(p: Program): nat {
      Auxv() + 8 * |ElfWords(p.elf)| + 160
    }
  }

  ghost predicate ListStands(mem: seq<Byte>, ss: seq<CString>, at: seq<nat>, low: nat, high: nat) {
    && |at| == |ss|
    && (forall i :: 0 <= i < |ss| ==> low <= at[i] && at[i] + |ss[i]| + 1 <= high && HasString(mem, at[i], ss[i]))
  }

  /** The parts of the block are at these places, in this order. */
  ghost predicate Stands(mem: seq<Byte>, p: Program, l: Places) {
    && |mem| <= Limit(8) && 0 < l.End(p) <= l.execfn
    && ArraysStand(mem, l.sp, l.args, l.vars) && HasWords(mem, l.Auxv(), AuxWords(p, l.execfn, l.random))
    && ListStands(mem, p.args, l.args, l.End(p), l.prog) && ListStands(mem, p.vars, l.vars, l.End(p), l.prog)
    && HasString(mem, l.execfn, p.execfn) && HasString(mem, l.prog, p.prog)
    && l.execfn + |p.execfn| + 1 == l.random && l.random + 16 == l.prog
  }

  function AuxOf(p: Program, l: Places): Aux {
    Aux(Found(Some(Span(l.execfn, |p.execfn| + 1)), Some(Span(l.random, 16))), l.End(p))
  }

  function AuxFound(p: Program, l: Places): Option<Aux> {
    if IsReadable(l.execfn, p.execfn) then Some(AuxOf(p, l)) else None
  }

  function VectorsIn(p: Program, l: Places): Vectors {
    Vectors(l.args, l.Envp(), l.vars, l.Auxv(), AuxOf(p, l))
  }

  function StartIn(p: Program, l: Places): Start
    requires |l.args| == |p.args| && |l.vars| == |p.vars|
  {
    Start(l.sp, if PathIsFound(p, l.prog) then l.prog + |p.prog| + 1 else l.prog, |p.args|,
          l.sp + 8, l.Envp(), l.Auxv(), l.End(p), Spans(p.args, l.args), Spans(p.vars, l.vars),
          AuxOf(p, l).found.execfn, AuxOf(p, l).found.random, PathOf(p, l))
  }

  function PathOf(p: Program, l: Places): Option<Span> {
    if PathIsFound(p, l.prog) then Some(Span(l.prog, |p.prog| + 1)) else None
  }

  predicate VectorsFit(p: Program, l: Places) {
    |p.args| <= 8192 && |p.vars| <= 8192 && IsReadable(l.execfn, p.execfn)
  }

  /** What the reader has room for. */
  predicate IsWithinLimits(p: Program, l: Places)
    requires |l.args| == |p.args| && |l.vars| == |p.vars|
  {
    VectorsFit(p, l) && AreReadable(l.args, p.args) && AreReadable(l.vars, p.vars)
  }

  lemma {:induction false} ListRead(mem: seq<Byte>, rsp: nat, ss: seq<CString>, at: seq<nat>, low: nat, high: nat)
    requires ListStands(mem, ss, at, low, high) && rsp <= low
    ensures StringsAt(mem, rsp, at) == if AreReadable(at, ss) then Some(Spans(ss, at)) else None
    ensures forall s :: s in Spans(ss, at) ==> low <= s.address && s.address + s.length <= high
  {
    StringsRead(mem, rsp, ss, at);
  }

  lemma AddressesAreWords(mem: seq<Byte>, ss: seq<CString>, at: seq<nat>, low: nat, high: nat)
    requires ListStands(mem, ss, at, low, high) && 0 < low && |mem| <= Limit(8)
    ensures AreWords(at)
  {
  }

  lemma {:induction false} VectorsRead(mem: seq<Byte>, p: Program, l: Places)
    requires Stands(mem, p, l)
    ensures VectorsAt(mem, l.sp) == if VectorsFit(p, l) then Some(VectorsIn(p, l)) else None
  {
    ArraysHeld(mem, p, l);
    AuxHeld(mem, p, l, MAX_AUXV);
    VectorsOf(mem, l.sp, l.args, l.Envp(), l.vars, l.Auxv(), AuxFound(p, l));
  }

  lemma {:induction false} VectorsOf(mem: seq<Byte>, sp: nat, args: seq<nat>, envp: nat, vars: seq<nat>, auxv: nat, aux: Option<Aux>)
    requires WordAt(mem, sp, sp) == Some(|args|)
    requires PointersAt(mem, sp, sp + 8, |args|) == Some((args, envp))
    requires PointersAt(mem, sp, envp, MAX_POINTERS) == if |vars| <= MAX_POINTERS then Some((vars, auxv)) else None
    requires AuxAt(mem, sp, auxv, MAX_AUXV, Found(None, None)) == aux
    ensures VectorsAt(mem, sp)
         == if |args| <= MAX_POINTERS && |vars| <= MAX_POINTERS && aux.Some?
            then Some(Vectors(args, envp, vars, auxv, aux.value)) else None
  {
  }

  lemma {:induction false} ArraysHeld(mem: seq<Byte>, p: Program, l: Places)
    requires Stands(mem, p, l)
    ensures WordAt(mem, l.sp, l.sp) == Some(|l.args|)
    ensures PointersAt(mem, l.sp, l.sp + 8, |l.args|) == Some((l.args, l.Envp()))
    ensures PointersAt(mem, l.sp, l.Envp(), MAX_POINTERS)
         == if |l.vars| <= MAX_POINTERS then Some((l.vars, l.Auxv())) else None
  {
    PointersAreWords(mem, p, l);
    ArraysRead(mem, l.sp, l.args, l.vars, MAX_POINTERS);
  }

  lemma PointersAreWords(mem: seq<Byte>, p: Program, l: Places)
    requires Stands(mem, p, l)
    ensures IsWord(|l.args|) && AreWords(l.args) && AreWords(l.vars)
  {
    assert |l.args| <= l.End(p) < |mem|;
    AddressesAreWords(mem, p.args, l.args, l.End(p), l.prog);
    AddressesAreWords(mem, p.vars, l.vars, l.End(p), l.prog);
  }

  lemma PlacesAreWords(mem: seq<Byte>, p: Program, l: Places)
    requires Stands(mem, p, l)
    ensures l.sp <= l.execfn && 0 < l.execfn && IsWord(l.execfn) && 0 < l.random && IsWord(l.random)
  {
  }

  lemma {:induction false} ExecfnRead(mem: seq<Byte>, p: Program, l: Places)
    requires Stands(mem, p, l)
    ensures StringAt(mem, l.sp, l.execfn)
         == if IsReadable(l.execfn, p.execfn) then Some(Span(l.execfn, |p.execfn| + 1)) else None
  {
    StringRead(mem, l.sp, l.execfn, p.execfn);
  }

  lemma {:induction false} AuxHeld(mem: seq<Byte>, p: Program, l: Places, room: nat)
    requires Stands(mem, p, l) && room >= 15
    ensures AuxAt(mem, l.sp, l.Auxv(), room, Found(None, None)) == AuxFound(p, l)
  {
    PlacesAreWords(mem, p, l);
    ExecfnRead(mem, p, l);
    AuxOfParts(mem, p, l, room);
  }

  lemma {:induction false} AuxOfParts(mem: seq<Byte>, p: Program, l: Places, room: nat)
    requires HasWords(mem, l.Auxv(), AuxWords(p, l.execfn, l.random)) && l.sp <= l.Auxv() && room >= 15
    requires 0 < l.execfn && IsWord(l.execfn) && 0 < l.random && IsWord(l.random)
    requires StringAt(mem, l.sp, l.execfn)
          == if IsReadable(l.execfn, p.execfn) then Some(Span(l.execfn, |p.execfn| + 1)) else None
    ensures AuxAt(mem, l.sp, l.Auxv(), room, Found(None, None)) == AuxFound(p, l)
  {
    AuxRead(mem, l.sp, l.Auxv(), p, l.execfn, l.random, room);
  }

  lemma TopHeld(arguments: seq<Span>, environment: seq<Span>, aux: Aux, top: nat)
    requires aux.found.execfn.Some? && aux.found.random.Some?
    requires aux.end <= aux.found.execfn.value.address
    requires aux.found.execfn.value.address + aux.found.execfn.value.length == aux.found.random.value.address
    requires aux.found.random.value.address + aux.found.random.value.length == top
    requires forall s :: s in arguments ==> aux.end <= s.address && s.address + s.length <= top
    requires forall s :: s in environment ==> aux.end <= s.address && s.address + s.length <= top
    ensures TopOf(Named(arguments, environment, aux), aux.end) == Some(top)
  {
    TopRead(Named(arguments, environment, aux), aux.end, top);
  }

  lemma {:induction false} PathHeld(mem: seq<Byte>, p: Program, l: Places)
    requires l.sp <= l.End(p) < l.prog && HasString(mem, l.prog, p.prog)
    ensures PathAt(mem, l.sp, l.prog, l.End(p)) == PathOf(p, l)
  {
    StringRead(mem, l.sp, l.prog, p.prog);
  }

  lemma {:induction false} ListsHeld(mem: seq<Byte>, p: Program, l: Places)
    requires Stands(mem, p, l)
    ensures StringsAt(mem, l.sp, l.args) == if AreReadable(l.args, p.args) then Some(Spans(p.args, l.args)) else None
    ensures StringsAt(mem, l.sp, l.vars) == if AreReadable(l.vars, p.vars) then Some(Spans(p.vars, l.vars)) else None
    ensures TopOf(Named(Spans(p.args, l.args), Spans(p.vars, l.vars), AuxOf(p, l)), l.End(p)) == Some(l.prog)
  {
    ListRead(mem, l.sp, p.args, l.args, l.End(p), l.prog);
    ListRead(mem, l.sp, p.vars, l.vars, l.End(p), l.prog);
    TopHeld(Spans(p.args, l.args), Spans(p.vars, l.vars), AuxOf(p, l), l.prog);
  }

  lemma {:induction false} BlockRead(mem: seq<Byte>, p: Program, l: Places)
    requires Stands(mem, p, l)
    ensures BlockAt(mem, l.sp, VectorsIn(p, l))
         == if AreReadable(l.args, p.args) && AreReadable(l.vars, p.vars) then Some(StartIn(p, l)) else None
  {
    ListsHeld(mem, p, l);
    PathHeld(mem, p, l);
    if AreReadable(l.args, p.args) && AreReadable(l.vars, p.vars) {
      BlockWhenRead(mem, l.sp, VectorsIn(p, l), Spans(p.args, l.args), Spans(p.vars, l.vars), l.prog, PathOf(p, l));
      BlockIsStart(p, l);
    } else {
      BlockUnread(mem, l.sp, VectorsIn(p, l));
    }
  }

  lemma BlockIsStart(p: Program, l: Places)
    requires |l.args| == |p.args| && |l.vars| == |p.vars|
    ensures Block(l.sp, VectorsIn(p, l), Spans(p.args, l.args), Spans(p.vars, l.vars), l.prog, PathOf(p, l)) == StartIn(p, l)
  {
  }

  lemma {:induction false} BlockUnread(mem: seq<Byte>, rsp: nat, v: Vectors)
    requires StringsAt(mem, rsp, v.args) == None || StringsAt(mem, rsp, v.vars) == None
    ensures BlockAt(mem, rsp, v) == None
  {
  }

  lemma {:induction false} BlockWhenRead(mem: seq<Byte>, rsp: nat, v: Vectors, arguments: seq<Span>, environment: seq<Span>,
                                         top: nat, path: Option<Span>)
    requires StringsAt(mem, rsp, v.args) == Some(arguments) && StringsAt(mem, rsp, v.vars) == Some(environment)
    requires TopOf(Named(arguments, environment, v.aux), v.aux.end) == Some(top) && PathAt(mem, rsp, top, v.aux.end) == path
    ensures BlockAt(mem, rsp, v) == Some(Block(rsp, v, arguments, environment, top, path))
  {
  }

  // ---------------------------------------------------------------------------------------------
  // The round trip
  // ---------------------------------------------------------------------------------------------

  function PlacesOf(p: Program, top: nat): Places
    requires HasRoom(p, top)
  {
    Places(StartOf(p, top), Addresses(p.args, VarsAt(p, top)), Addresses(p.vars, ExecfnAt(p, top)),
           ExecfnAt(p, top), RandomAt(p, top), ProgAt(p, top))
  }

  lemma WordsHeld(mem: seq<Byte>, p: Program, top: nat)
    requires HasRoom(p, top) && top <= |mem| && Holds(mem, p, top)
    ensures HasWords(mem, StartOf(p, top), Words(p, top))
  {
    WordsInMemory(mem, StartOf(p, top), Words(p, top));
  }

  lemma WordsStand(mem: seq<Byte>, p: Program, top: nat)
    requires HasRoom(p, top) && HasWords(mem, StartOf(p, top), Words(p, top))
    ensures
      var l := PlacesOf(p, top);
      ArraysStand(mem, l.sp, l.args, l.vars) && HasWords(mem, l.Auxv(), AuxWords(p, l.execfn, l.random))
  {
    var l := PlacesOf(p, top);
    var aux := AuxWords(p, l.execfn, l.random);
    ArraysSplit(mem, l.sp, l.args, l.vars, aux, l.vars + ([0] + aux));
  }

  lemma ListHeld(mem: seq<Byte>, ss: seq<CString>, low: nat, end: nat)
    requires low + |Text(ss)| <= end <= |mem| && mem[end - |Text(ss)|..end] == Text(ss)
    ensures ListStands(mem, ss, Addresses(ss, end), low, end)
  {
    forall i | 0 <= i < |ss|
      ensures low <= Addresses(ss, end)[i] && Addresses(ss, end)[i] + |ss[i]| + 1 <= end
      ensures HasString(mem, Addresses(ss, end)[i], ss[i])
    {
      TextStands(mem, ss, end, i);
    }
  }

  lemma PlacesInOrder(p: Program, top: nat)
    requires HasRoom(p, top)
    ensures
      var l := PlacesOf(p, top);
      && 0 < l.End(p) <= l.execfn && l.End(p) + |Text(p.args)| <= VarsAt(p, top)
      && l.execfn + |p.execfn| + 1 == l.random && l.random + 16 == l.prog
  {
  }

  lemma {:induction false} WrittenStands(mem: seq<Byte>, p: Program, top: nat)
    requires HasRoom(p, top) && top <= |mem| <= Limit(8) && Holds(mem, p, top)
    ensures Stands(mem, p, PlacesOf(p, top))
  {
    WordsHeld(mem, p, top);
    WordsStand(mem, p, top);
    StringsHeld(mem, p, top);
    PlacesInOrder(p, top);
    var end := PlacesOf(p, top).End(p);
    ListHeld(mem, p.args, end, VarsAt(p, top));
    ListHeld(mem, p.vars, end, ExecfnAt(p, top));
  }

  /** Reading back what LoadArgv wrote returns exactly what it wrote, and where, or fails when the limits are passed. */
  lemma ReadsWhatWasWritten(mem: seq<Byte>, p: Program, top: nat)
    requires HasRoom(p, top) && top <= |mem| <= Limit(8) && Holds(mem, p, top)
    ensures StartAt(mem, StartOf(p, top))
         == if IsWithinLimits(p, PlacesOf(p, top)) then Some(WrittenStart(p, top)) else None
  {
    WrittenStands(mem, p, top);
    StartRead(mem, p, PlacesOf(p, top));
    PlacesGiveStart(p, top);
  }

  /** A span holds a string and its NUL. */
  ghost predicate HoldsString(mem: seq<Byte>, span: Span, s: CString) {
    span.address + span.length <= |mem| && mem[span.address..span.address + span.length] == s + [0]
  }

  /** The strings of a program are where the reader says, and so are its random bytes. */
  ghost predicate HoldsStrings(mem: seq<Byte>, start: Start, p: Program) {
    && start.argc == |p.args| == |start.arguments| && |start.environment| == |p.vars|
    && (forall i :: 0 <= i < |p.args| ==> HoldsString(mem, start.arguments[i], p.args[i]))
    && (forall i :: 0 <= i < |p.vars| ==> HoldsString(mem, start.environment[i], p.vars[i]))
    && start.execfn.Some? && HoldsString(mem, start.execfn.value, p.execfn)
    && start.random.Some? && HoldsRandom(mem, start.random.value, p.rng)
    && (start.path.Some? ==> HoldsString(mem, start.path.value, p.prog))
  }

  ghost predicate HoldsRandom(mem: seq<Byte>, span: Span, rng: Random) {
    span.length == 16 && span.address + 16 <= |mem| && mem[span.address..span.address + 16] == rng
  }

  /** What the spans the reader finds hold: the program's own strings and random bytes, each in its place. */
  lemma {:induction false} ReadStringsAreThere(mem: seq<Byte>, p: Program, top: nat)
    requires HasRoom(p, top) && top <= |mem| <= Limit(8) && Holds(mem, p, top)
    ensures StartAt(mem, StartOf(p, top)).Some? ==> HoldsStrings(mem, StartAt(mem, StartOf(p, top)).value, p)
  {
    var l := PlacesOf(p, top);
    WrittenStands(mem, p, top);
    RandomStands(mem, p, top);
    StartRead(mem, p, l);
    StringsInPlace(mem, p, l);
  }

  lemma StringsInPlace(mem: seq<Byte>, p: Program, l: Places)
    requires Stands(mem, p, l) && mem[l.random..l.random + 16] == p.rng
    ensures HoldsStrings(mem, StartIn(p, l), p)
  {
    ListHolds(mem, p.args, l.args, l.End(p), l.prog);
    ListHolds(mem, p.vars, l.vars, l.End(p), l.prog);
  }

  lemma ListHolds(mem: seq<Byte>, ss: seq<CString>, at: seq<nat>, low: nat, high: nat)
    requires ListStands(mem, ss, at, low, high)
    ensures forall i :: 0 <= i < |ss| ==> HoldsString(mem, Spans(ss, at)[i], ss[i])
  {
  }

  lemma RandomStands(mem: seq<Byte>, p: Program, top: nat)
    requires HasRoom(p, top) && top <= |mem| && Holds(mem, p, top)
    ensures mem[RandomAt(p, top)..RandomAt(p, top) + 16] == p.rng
  {
    TextParts(mem, ArgsAt(p, top), Text(p.args), Text(p.vars) + TopStrings(p), top);
    TextParts(mem, VarsAt(p, top), Text(p.vars), TopStrings(p), top);
    TextParts(mem, ExecfnAt(p, top), p.execfn + [0], p.rng + (p.prog + [0]), top);
    TextParts(mem, RandomAt(p, top), p.rng, p.prog + [0], top);
  }

  lemma {:induction false} StartRead(mem: seq<Byte>, p: Program, l: Places)
    requires Stands(mem, p, l)
    ensures StartAt(mem, l.sp) == if IsWithinLimits(p, l) then Some(StartIn(p, l)) else None
  {
    VectorsRead(mem, p, l);
    BlockRead(mem, p, l);
  }

  lemma PlacesGiveStart(p: Program, top: nat)
    requires HasRoom(p, top)
    ensures StartIn(p, PlacesOf(p, top)) == WrittenStart(p, top)
  {
  }

  /** The end the reader finds is the stack pointer the loader started from exactly when it finds the path. */
  lemma EndIsTop(mem: seq<Byte>, p: Program, top: nat)
    requires HasRoom(p, top) && top <= |mem| <= Limit(8) && Holds(mem, p, top)
    ensures
      var start := StartAt(mem, StartOf(p, top));
      start.Some? ==>
        && (start.value.end == top <==> p.prog != [] && IsReadable(ProgAt(p, top), p.prog))
        && (start.value.path.Some? <==> p.prog != [] && IsReadable(ProgAt(p, top), p.prog))
  {
    ReadsWhatWasWritten(mem, p, top);
  }

  /** No string of at most 256 KiB with its NUL is too long, wherever it stands. */
  lemma ShortIsReadable(at: nat, s: CString)
    requires |s| + 1 <= 0x4_0000
    ensures IsReadable(at, s)
  {
  }
}
