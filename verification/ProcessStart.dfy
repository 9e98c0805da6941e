/** Reading the start block back from memory (blink-js/src/process-start.ts). */
module ProcessStart {

  import opened Options
  import opened StartBlock

  const MAX_POINTERS: nat := 8192
  const MAX_AUXV: nat := 64
  const MAX_STRING: nat := 256 * 1024
  const PAGE: nat := 4096

  datatype Span = Span(address: nat, length: nat)

  // ---------------------------------------------------------------------------------------------
  // What there is to read
  // ---------------------------------------------------------------------------------------------

  /** Memory from an address on, as much of it as there is. */
  function Read(mem: seq<Byte>, address: nat, length: nat): seq<Byte> {
    if address >= |mem| then []
    else if address + length > |mem| then mem[address..]
    else mem[address..address + length]
  }

  lemma ReadAt(mem: seq<Byte>, address: nat, length: nat, i: nat)
    requires address <= i < address + |Read(mem, address, length)|
    ensures i < |mem| && mem[i] == Read(mem, address, length)[i - address]
  {
  }

  function ByteAt(mem: seq<Byte>, rsp: nat, address: nat): Option<Byte> {
    if address < rsp || address >= |mem| then None else Some(mem[address])
  }

  function WordAt(mem: seq<Byte>, rsp: nat, address: nat): (r: Option<nat>)
    ensures r.Some? ==> address + 8 <= |mem|
  {
    if address < rsp || address + 8 > |mem| then None else Some(FromBytes(mem[address..address + 8]))
  }

  /** The first zero from a place on, or the end. */
  function FindNul(s: seq<Byte>, at: nat): (n: nat)
    requires at <= |s|
    ensures at <= n <= |s|
    ensures n < |s| ==> s[n] == 0
    ensures forall i :: at <= i < n ==> s[i] != 0
    decreases |s| - at
  {
    if at == |s| || s[at] == 0 then at else FindNul(s, at + 1)
  }

  lemma NulIsFirst(s: seq<Byte>, at: nat, n: nat)
    requires at <= n <= |s| && (forall i :: at <= i < n ==> s[i] != 0) && (n < |s| ==> s[n] == 0)
    ensures FindNul(s, at) == n
  {
  }

  function Base(address: nat): nat {
    address - address % PAGE
  }

  /** How far into a string that starts at an address the page with its NUL begins. */
  function PageInto(address: nat, nul: nat): nat {
    if Base(nul) <= address then 0 else Base(nul) - address
  }

  /** The string at an address with its NUL, unless its last page begins too far into it. */
  function StringAt(mem: seq<Byte>, rsp: nat, address: nat): Option<Span> {
    if address < rsp || address >= |mem| then None
    else
      var nul := FindNul(mem, address);
      if nul == |mem| || PageInto(address, nul) >= 0x4_0000 then None else Some(Span(address, nul - address + 1))
  }

  /** The pointers up to a NULL, and where the array ends, past it. */
  function PointersAt(mem: seq<Byte>, rsp: nat, at: nat, room: nat): Option<(seq<nat>, nat)>
    decreases room, at
  {
    var pointer := WordAt(mem, rsp, at);
    if pointer.None? then None
    else if pointer.value == 0 then Some(([], at + 8))
    else if room == 0 then None
    else
      var rest := PointersAt(mem, rsp, at + 8, room - 1);
      if rest.None? then None else Some(([pointer.value] + rest.value.0, rest.value.1))
  }

  /** An entry of the auxiliary vector: its type and its value. */
  function EntryAt(mem: seq<Byte>, rsp: nat, at: nat): Option<(nat, nat)> {
    var kind, value := WordAt(mem, rsp, at), WordAt(mem, rsp, at + 8);
    if kind.None? || value.None? then None else Some((kind.value, value.value))
  }

  datatype Found = Found(execfn: Option<Span>, random: Option<Span>)

  datatype Aux = Aux(found: Found, end: nat)

  /** Of two entries of a type the later counts. */
  function TakeEntry(mem: seq<Byte>, rsp: nat, entry: (nat, nat), found: Found): Option<Found> {
    if entry.1 == 0 then Some(found)
    else if entry.0 == AT_EXECFN then
      var name := StringAt(mem, rsp, entry.1);
      if name.None? then None else Some(found.(execfn := name))
    else if entry.0 == AT_RANDOM then Some(found.(random := Some(Span(entry.1, 16))))
    else Some(found)
  }

  /** The auxiliary vector from an entry on. */
  function AuxAt(mem: seq<Byte>, rsp: nat, at: nat, room: nat, found: Found): Option<Aux>
    decreases room, at
  {
    if room == 0 then None
    else
      var entry := EntryAt(mem, rsp, at);
      if entry.None? then None
      else if entry.value.0 == AT_NULL then Some(Aux(found, at + 16))
      else
        var more := TakeEntry(mem, rsp, entry.value, found);
        if more.None? then None else AuxAt(mem, rsp, at + 16, room - 1, more.value)
  }

  function StringsAt(mem: seq<Byte>, rsp: nat, addresses: seq<nat>): Option<seq<Span>>
    decreases |addresses|
  {
    if addresses == [] then Some([])
    else
      var rest := StringsAt(mem, rsp, addresses[..|addresses| - 1]);
      var last := StringAt(mem, rsp, addresses[|addresses| - 1]);
      if rest.None? || last.None? then None else Some(rest.value + [last.value])
  }

  /** Where the highest of the spans ends, when all of them lie above the vectors. */
  function TopOf(spans: seq<Span>, auxvEnd: nat): Option<nat>
    decreases |spans|
  {
    if spans == [] then Some(auxvEnd)
    else
      var rest, last := TopOf(spans[..|spans| - 1], auxvEnd), spans[|spans| - 1];
      if rest.None? || last.address < auxvEnd then None
      else Some(if last.address + last.length > rest.value then last.address + last.length else rest.value)
  }

  datatype Start = Start(start: nat, end: nat, argc: nat, argv: nat, envp: nat, auxv: nat, auxvEnd: nat,
                         arguments: seq<Span>, environment: seq<Span>,
                         execfn: Option<Span>, random: Option<Span>, path: Option<Span>)

  function Given(span: Option<Span>): seq<Span> {
    if span.Some? then [span.value] else []
  }

  function Named(arguments: seq<Span>, environment: seq<Span>, aux: Aux): seq<Span> {
    arguments + environment + Given(aux.found.execfn) + Given(aux.found.random)
  }

  /** The string that starts where the highest named one ends, if there is one and it is not empty. */
  function PathAt(mem: seq<Byte>, rsp: nat, top: nat, auxvEnd: nat): Option<Span> {
    if top <= auxvEnd then None
    else
      var path := StringAt(mem, rsp, top);
      if path.Some? && path.value.length > 1 then path else None
  }

  /** The argument count, the two arrays and the auxiliary vector. */
  datatype Vectors = Vectors(args: seq<nat>, envp: nat, vars: seq<nat>, auxv: nat, aux: Aux)

  function VectorsAt(mem: seq<Byte>, rsp: nat): Option<Vectors> {
    var argc := WordAt(mem, rsp, rsp);
    if argc.None? || argc.value > 8192 then None
    else
      var args := PointersAt(mem, rsp, rsp + 8, argc.value);
      if args.None? || |args.value.0| != argc.value then None
      else
        var vars := PointersAt(mem, rsp, args.value.1, 8192);
        if vars.None? then None
        else
          var aux := AuxAt(mem, rsp, vars.value.1, 64, Found(None, None));
          if aux.None? then None
          else Some(Vectors(args.value.0, args.value.1, vars.value.0, vars.value.1, aux.value))
  }

  /** The strings the vectors point at, and the top. */
  function BlockAt(mem: seq<Byte>, rsp: nat, v: Vectors): Option<Start> {
    var arguments, environment := StringsAt(mem, rsp, v.args), StringsAt(mem, rsp, v.vars);
    if arguments.None? || environment.None? then None
    else
      var top := TopOf(Named(arguments.value, environment.value, v.aux), v.aux.end);
      if top.None? then None
      else Some(Block(rsp, v, arguments.value, environment.value, top.value, PathAt(mem, rsp, top.value, v.aux.end)))
  }

  function Block(rsp: nat, v: Vectors, arguments: seq<Span>, environment: seq<Span>, top: nat, path: Option<Span>): Start {
    Start(rsp, if path.Some? then top + path.value.length else top, |v.args|, rsp + 8, v.envp, v.auxv, v.aux.end,
          arguments, environment, v.aux.found.execfn, v.aux.found.random, path)
  }

  function StartAt(mem: seq<Byte>, rsp: nat): Option<Start> {
    var vectors := VectorsAt(mem, rsp);
    if vectors.None? then None else BlockAt(mem, rsp, vectors.value)
  }

  // ---------------------------------------------------------------------------------------------
  // The reader
  // ---------------------------------------------------------------------------------------------

  datatype Page = Page(start: nat, bytes: seq<Byte>)

  /** Reads each page once, from the start of the block at the lowest. */
  class Reader {
    const mem: seq<Byte>
    const rsp: nat
    var pages: map<nat, Page>
    ghost var fetched: seq<nat>

    constructor (mem: seq<Byte>, rsp: nat)
      ensures this.mem == mem && this.rsp == rsp && Valid()
    {
      this.mem, this.rsp, pages, fetched := mem, rsp, map[], [];
    }

    function PageOf(base: nat): Page {
      var start := if base < rsp then rsp else base;
      Page(start, Read(mem, start, if start < base + PAGE then base + PAGE - start else 0))
    }

    ghost predicate Valid()
      reads this
    {
      && (forall base :: base in pages ==> pages[base] == PageOf(base))
      && (forall base :: base in pages <==> base in fetched)
      && (forall i, j :: 0 <= i < j < |fetched| ==> fetched[i] != fetched[j])
    }

    method GetPage(address: nat) returns (page: Page)
      requires Valid() && rsp <= address
      modifies this`pages, this`fetched
      ensures Valid() && page == PageOf(Base(address))
    {
      var base := Base(address);
      if base in pages {
        return pages[base];
      }
      var start := if base < rsp then rsp else base;
      page := Page(start, Read(mem, start, base + PAGE - start));
      pages := pages[base := page];
      fetched := fetched + [base];
    }

    method GetByte(address: nat) returns (byte: Option<Byte>)
      requires Valid()
      modifies this`pages, this`fetched
      ensures Valid() && byte == ByteAt(mem, rsp, address)
    {
      if address < rsp {
        return None;
      }
      var page := GetPage(address);
      if address - page.start >= |page.bytes| {
        return None;
      }
      byte := Some(page.bytes[address - page.start]);
    }

    method GetWord(address: nat) returns (word: Option<nat>)
      requires Valid()
      modifies this`pages, this`fetched
      ensures Valid() && word == WordAt(mem, rsp, address)
    {
      var value: nat, i: nat := 0, 8;
      while i > 0
        invariant 0 <= i <= 8 && Valid()
        invariant i < 8 ==> rsp <= address + i && address + 8 <= |mem|
        invariant i < 8 ==> value == FromBytes(mem[address + i..address + 8])
        invariant i == 8 ==> value == 0
      {
        i := i - 1;
        var byte := GetByte(address + i);
        if byte.None? {
          return None;
        }
        value := value * 256 + byte.value;
        assert mem[address + i..address + 8][1..] == mem[address + i + 1..address + 8];
      }
      word := Some(value);
    }

    /** Looks for a NUL from an address to the end of its page, or of what there is of it. */
    method SearchPage(at: nat) returns (nul: Option<nat>, next: nat)
      requires Valid() && rsp <= at
      modifies this`pages, this`fetched
      ensures Valid()
      ensures next == at <==> at >= |mem|
      ensures at < |mem| ==> at < next <= |mem| && forall i :: at <= i < next ==> Base(i) == Base(at)
      ensures at < |mem| ==> next == |mem| || next % PAGE == 0
      ensures nul.Some? ==> at <= nul.value < next && mem[nul.value] == 0 && forall i :: at <= i < nul.value ==> mem[i] != 0
      ensures nul.None? && at < |mem| ==> forall i :: at <= i < next ==> mem[i] != 0
    {
      var page := GetPage(at);
      var offset := at - page.start;
      if offset >= |page.bytes| {
        return None, at;
      }
      var found := FindNul(page.bytes, offset);
      next := page.start + |page.bytes|;
      PageEnd(at, next);
      nul := if found < |page.bytes| then Some(page.start + found) else None;
      forall i | at <= i < next
        ensures mem[i] == page.bytes[i - page.start]
      {
        ReadAt(mem, page.start, Base(at) + PAGE - page.start, i);
      }
    }

    method GetString(address: nat) returns (r: Option<Span>)
      requires Valid()
      modifies this`pages, this`fetched
      ensures Valid() && r == StringAt(mem, rsp, address)
    {
      if address < rsp {
        return None;
      }
      var length := 0;
      while length < MAX_STRING
        invariant Valid()
        invariant length > 0 ==> address + length <= |mem|
        invariant forall i :: address <= i < address + length ==> mem[i] != 0
        invariant length > 0 ==> (address + length) % PAGE == 0 || address + length == |mem|
        decreases |mem| - address - length
      {
        var at := address + length;
        var nul, next := SearchPage(at);
        if next == at {
          break;
        }
        if nul.Some? {
          NulIsFirst(mem, address, nul.value);
          InPage(address, at, nul.value);
          return Some(Span(address, nul.value - address + 1));
        }
        length := next - address;
      }
      if address < |mem| {
        LateNul(mem, address, length);
      }
      r := None;
    }

    method GetPointers(address: nat, limit: nat) returns (r: Option<(seq<nat>, nat)>)
      requires Valid()
      modifies this`pages, this`fetched
      ensures Valid() && r == PointersAt(mem, rsp, address, limit)
    {
      var found, at := [], address;
      NothingFound(PointersAt(mem, rsp, address, limit));
      while true
        invariant Valid() && |found| <= limit
        invariant PointersAt(mem, rsp, address, limit) == Onward(found, PointersAt(mem, rsp, at, limit - |found|))
        decreases limit - |found|
      {
        var pointer := GetWord(at);
        if pointer.None? {
          return None;
        }
        if pointer.value == 0 {
          assert found + [] == found;
          return Some((found, at + 8));
        }
        if |found| >= limit {
          return None;
        }
        OneMorePointer(mem, rsp, found, at, limit - |found|, pointer.value);
        found := found + [pointer.value];
        at := at + 8;
      }
    }

    method GetEntry(at: nat) returns (entry: Option<(nat, nat)>)
      requires Valid()
      modifies this`pages, this`fetched
      ensures Valid() && entry == EntryAt(mem, rsp, at)
    {
      var kind := GetWord(at);
      if kind.None? {
        return None;
      }
      var value := GetWord(at + 8);
      if value.None? {
        return None;
      }
      entry := Some((kind.value, value.value));
    }

    method Take(entry: (nat, nat), found: Found) returns (more: Option<Found>)
      requires Valid()
      modifies this`pages, this`fetched
      ensures Valid() && more == TakeEntry(mem, rsp, entry, found)
    {
      more := Some(found);
      if entry.0 == AT_EXECFN && entry.1 != 0 {
        var name := GetString(entry.1);
        if name.None? {
          return None;
        }
        more := Some(more.value.(execfn := name));
      }
      if entry.0 == AT_RANDOM && entry.1 != 0 {
        more := Some(more.value.(random := Some(Span(entry.1, 16))));
      }
    }

    method GetAux(auxv: nat) returns (r: Option<Aux>)
      requires Valid()
      modifies this`pages, this`fetched
      ensures Valid() && r == AuxAt(mem, rsp, auxv, 64, Found(None, None))
    {
      var found := Found(None, None);
      var at, entries := auxv, 0;
      while entries < MAX_AUXV
        invariant Valid() && entries <= MAX_AUXV
        invariant AuxAt(mem, rsp, auxv, MAX_AUXV, Found(None, None)) == AuxAt(mem, rsp, at, MAX_AUXV - entries, found)
      {
        var entry := GetEntry(at);
        if entry.None? {
          return None;
        }
        if entry.value.0 == AT_NULL {
          return Some(Aux(found, at + 16));
        }
        var more := Take(entry.value, found);
        if more.None? {
          return None;
        }
        found, at, entries := more.value, at + 16, entries + 1;
      }
      r := None;
    }

    method GetStrings(addresses: seq<nat>) returns (r: Option<seq<Span>>)
      requires Valid()
      modifies this`pages, this`fetched
      ensures Valid() && r == StringsAt(mem, rsp, addresses)
    {
      var spans := [];
      for i := 0 to |addresses|
        invariant Valid() && StringsAt(mem, rsp, addresses[..i]) == Some(spans)
      {
        assert addresses[..i + 1][..i] == addresses[..i];
        var span := GetString(addresses[i]);
        if span.None? {
          StringsFail(mem, rsp, addresses, i + 1);
          return None;
        }
        spans := spans + [span.value];
      }
      assert addresses[..|addresses|] == addresses;
      r := Some(spans);
    }

    method GetVectors() returns (r: Option<Vectors>)
      requires Valid()
      modifies this`pages, this`fetched
      ensures Valid() && r == VectorsAt(mem, rsp)
    {
      var argc := GetWord(rsp);
      if argc.None? || argc.value > MAX_POINTERS {
        return None;
      }
      var args := GetPointers(rsp + 8, argc.value);
      if args.None? || |args.value.0| != argc.value {
        return None;
      }
      var vars := GetPointers(args.value.1, MAX_POINTERS);
      if vars.None? {
        return None;
      }
      var aux := GetAux(vars.value.1);
      if aux.None? {
        return None;
      }
      r := Some(Vectors(args.value.0, args.value.1, vars.value.0, vars.value.1, aux.value));
    }

    method GetPath(top: nat, auxvEnd: nat) returns (path: Option<Span>)
      requires Valid()
      modifies this`pages, this`fetched
      ensures Valid() && path == PathAt(mem, rsp, top, auxvEnd)
    {
      path := None;
      if top > auxvEnd {
        path := GetString(top);
        if path.None? || path.value.length <= 1 {
          path := None;
        }
      }
    }

    /** readProcessStart. */
    method ReadProcessStart() returns (r: Option<Start>)
      requires Valid()
      modifies this`pages, this`fetched
      ensures Valid() && r == StartAt(mem, rsp)
    {
      var vectors := GetVectors();
      if vectors.None? {
        return None;
      }
      var v := vectors.value;
      var arguments := GetStrings(v.args);
      if arguments.None? {
        return None;
      }
      var environment := GetStrings(v.vars);
      if environment.None? {
        return None;
      }
      var top := FindTop(Named(arguments.value, environment.value, v.aux), v.aux.end);
      if top.None? {
        return None;
      }
      var path := GetPath(top.value, v.aux.end);
      r := Some(Start(rsp, if path.Some? then top.value + path.value.length else top.value,
                      |v.args|, rsp + 8, v.envp, v.auxv, v.aux.end,
                      arguments.value, environment.value, v.aux.found.execfn, v.aux.found.random, path));
    }
  }

  method FindTop(named: seq<Span>, auxvEnd: nat) returns (r: Option<nat>)
    ensures r == TopOf(named, auxvEnd)
  {
    var top := auxvEnd;
    for i := 0 to |named|
      invariant TopOf(named[..i], auxvEnd) == Some(top)
    {
      assert named[..i + 1][..i] == named[..i];
      var part := named[i];
      if part.address < auxvEnd {
        TopFails(named, auxvEnd, i + 1);
        return None;
      }
      if part.address + part.length > top {
        top := part.address + part.length;
      }
    }
    assert named[..|named|] == named;
    r := Some(top);
  }

  lemma {:induction false} TopFails(spans: seq<Span>, auxvEnd: nat, n: nat)
    requires n <= |spans| && TopOf(spans[..n], auxvEnd).None?
    ensures TopOf(spans, auxvEnd).None?
    decreases |spans| - n
  {
    if n == |spans| {
      assert spans[..n] == spans;
    } else {
      assert spans[..n + 1][..n] == spans[..n];
      TopFails(spans, auxvEnd, n + 1);
    }
  }

  lemma {:induction false} StringsFail(mem: seq<Byte>, rsp: nat, addresses: seq<nat>, n: nat)
    requires n <= |addresses| && StringsAt(mem, rsp, addresses[..n]).None?
    ensures StringsAt(mem, rsp, addresses).None?
    decreases |addresses| - n
  {
    if n == |addresses| {
      assert addresses[..n] == addresses;
    } else {
      assert addresses[..n + 1][..n] == addresses[..n];
      StringsFail(mem, rsp, addresses, n + 1);
    }
  }

  /** The pointers found before and the ones found from here on. */
  function Onward(found: seq<nat>, rest: Option<(seq<nat>, nat)>): Option<(seq<nat>, nat)> {
    if rest.None? then None else Some((found + rest.value.0, rest.value.1))
  }

  lemma NothingFound(rest: Option<(seq<nat>, nat)>)
    ensures Onward([], rest) == rest
  {
    if rest.Some? {
      assert [] + rest.value.0 == rest.value.0;
    }
  }

  lemma OneMorePointer(mem: seq<Byte>, rsp: nat, found: seq<nat>, at: nat, room: nat, pointer: nat)
    requires room > 0 && pointer != 0 && WordAt(mem, rsp, at) == Some(pointer)
    ensures Onward(found, PointersAt(mem, rsp, at, room))
         == Onward(found + [pointer], PointersAt(mem, rsp, at + 8, room - 1))
  {
    var rest := PointersAt(mem, rsp, at + 8, room - 1);
    if rest.Some? {
      assert found + ([pointer] + rest.value.0) == found + [pointer] + rest.value.0;
    }
  }

  /** A place after a whole number of pages, and the ones in the page before it. */
  lemma PageEnd(at: nat, next: nat)
    requires at < next <= Base(at) + PAGE
    ensures forall i :: at <= i < next ==> Base(i) == Base(at)
    ensures next == Base(at) + PAGE ==> next % PAGE == 0
  {
    var q := at / PAGE;
    forall i | at <= i < next
      ensures Base(i) == Base(at)
    {
      assert i / PAGE == q;
    }
    assert (Base(at) + PAGE) / PAGE == q + 1;
  }

  lemma InPage(address: nat, at: nat, nul: nat)
    requires address <= at <= nul && Base(nul) == Base(at) && (at == address || at % PAGE == 0)
    ensures PageInto(address, nul) == if at == address then 0 else at - address
  {
  }

  lemma LateNul(mem: seq<Byte>, address: nat, length: nat)
    requires address < |mem| && length > 0 && address + length <= |mem|
    requires forall i :: address <= i < address + length ==> mem[i] != 0
    requires length >= MAX_STRING || address + length == |mem|
    requires (address + length) % PAGE == 0 || address + length == |mem|
    ensures var nul := FindNul(mem, address); nul == |mem| || PageInto(address, nul) >= MAX_STRING
  {
    var nul := FindNul(mem, address);
    if nul < |mem| {
      assert nul >= address + length;
      BaseGrows(address + length, nul);
    }
  }

  lemma BaseGrows(a: nat, b: nat)
    requires a <= b && a % PAGE == 0
    ensures a <= Base(b)
  {
  }
}
