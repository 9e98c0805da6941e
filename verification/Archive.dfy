/**
  Archives as `ar rcsD` lays them out, and as a reader of System V archives takes them apart
  (blink-js/src/archive.ts). A byte is the character with its code.
 */
module Archive {

  import opened Options
  import opened Numbers
  import opened LinkRule
  import Selection = LinkSelection

  datatype ArchiveMember = ArchiveMember(name: string, data: string, symbols: Object)

  const MAGIC := "!<arch>\n"
  const HEADER_SIZE: nat := 60
  const NAME_FIELD_SIZE: nat := 16
  const MEMBER_MODE := "644"
  const ZERO_FIELD := "0"
  const INDEX_NAME := "/"

  predicate IsMemberName(name: string) {
    1 <= |name| <= 15 && forall c :: c in name ==> '!' <= c <= '~' && c != '/'
  }

  // ---------------------------------------------------------------------------------------------
  // Numbers in an archive
  // ---------------------------------------------------------------------------------------------

  /** The four bytes setUint32 writes: the number modulo 2^32, the highest byte first. */
  function BigEndian(n: nat): (s: string)
    ensures |s| == 4
  {
    [(n / 0x100_0000 % 0x100) as char, (n / 0x1_0000 % 0x100) as char, (n / 0x100 % 0x100) as char, (n % 0x100) as char]
  }

  function FromBigEndian(s: string): nat
    requires |s| == 4
  {
    ((s[0] as nat * 0x100 + s[1] as nat) * 0x100 + s[2] as nat) * 0x100 + s[3] as nat
  }

  lemma BigEndianRead(n: nat)
    ensures FromBigEndian(BigEndian(n)) == n % 0x1_0000_0000
  {
    var a, b, c := n / 0x100, n / 0x1_0000, n / 0x100_0000;
    Quotients(n);
    assert n == 0x100 * (0x100 * (0x100 * (0x100 * (c / 0x100) + c % 0x100) + b % 0x100) + a % 0x100) + n % 0x100;
  }

  lemma Quotients(n: nat)
    ensures n / 0x1_0000 == n / 0x100 / 0x100 && n / 0x100_0000 == n / 0x1_0000 / 0x100
  {
  }

  function PowerOfTen(k: nat): (p: nat)
    ensures p >= 1
  {
    if k == 0 then 1 else 10 * PowerOfTen(k - 1)
  }

  /** A number takes at most k digits when it is below 10^k. */
  lemma {:induction false} DecimalLength(n: nat, k: nat)
    requires k >= 1
    ensures |Decimal(n)| <= k <==> n < PowerOfTen(k)
    decreases k
  {
    if k == 1 {
      if n >= 10 {
        assert |Decimal(n)| == |Decimal(n / 10)| + 1;
      }
    } else if n >= 10 {
      DecimalLength(n / 10, k - 1);
    } else {
      assert |Decimal(n)| == 1;
    }
  }

  // ---------------------------------------------------------------------------------------------
  // The layout
  // ---------------------------------------------------------------------------------------------

  function Spaces(n: nat): (s: string)
    ensures |s| == n && forall c :: c in s ==> c == ' '
  {
    if n == 0 then [] else Spaces(n - 1) + [' ']
  }

  /** The value, padded to the width. */
  function Field(value: string, width: nat): (s: string)
    requires |value| <= width
    ensures |s| == width
  {
    value + Spaces(width - |value|)
  }

  predicate FitsHeader(name: string, size: nat) {
    |name| <= NAME_FIELD_SIZE && |Decimal(size)| <= 10
  }

  function Header(name: string, size: nat, mode: string): (s: string)
    requires FitsHeader(name, size) && |mode| <= 8
    ensures |s| == HEADER_SIZE
  {
    Field(name, NAME_FIELD_SIZE) + (Field(ZERO_FIELD, 12) + Field(ZERO_FIELD, 6) + Field(ZERO_FIELD, 6) + Field(mode, 8))
    + Field(Decimal(size), 10) + "`\n"
  }

  /** A symbol the archive's index lists: its name, and the member that has it. */
  datatype Listed = Listed(name: string, member: nat)

  predicate IsListed(s: Symbol) {
    s.place != UndefinedPlace && s.kind != SectionSymbol && s.kind != FileSymbol
    && (s.binding == Global || s.binding == Weak || s.binding == Unique || IsCommon(s))
  }

  function ListedNames(o: Object): seq<string> {
    if o == [] then [] else (if IsListed(o[0]) then [o[0].name] else []) + ListedNames(o[1..])
  }

  function ListedIn(names: seq<string>, member: nat): (r: seq<Listed>)
    ensures |r| == |names|
  {
    seq(|names|, i requires 0 <= i < |names| => Listed(names[i], member))
  }

  /** The symbols of the first n members. */
  function Symbols(members: seq<ArchiveMember>, n: nat): seq<Listed>
    requires n <= |members|
  {
    if n == 0 then [] else Symbols(members, n - 1) + ListedIn(ListedNames(members[n - 1].symbols), n - 1)
  }

  function NamesLength(symbols: seq<Listed>): nat {
    if symbols == [] then 0 else NamesLength(symbols[..|symbols| - 1]) + |symbols[|symbols| - 1].name| + 1
  }

  function NamesBlock(symbols: seq<Listed>): (s: string)
    ensures |s| == NamesLength(symbols)
  {
    if symbols == [] then [] else NamesBlock(symbols[..|symbols| - 1]) + symbols[|symbols| - 1].name + ['\0']
  }

  predicate InRange(symbols: seq<Listed>, offsets: seq<nat>) {
    forall s :: s in symbols ==> s.member < |offsets|
  }

  function OffsetsBlock(symbols: seq<Listed>, offsets: seq<nat>): (s: string)
    requires InRange(symbols, offsets)
    ensures |s| == 4 * |symbols|
  {
    if symbols == [] then []
    else OffsetsBlock(symbols[..|symbols| - 1], offsets) + BigEndian(offsets[symbols[|symbols| - 1].member])
  }

  function IndexSize(symbols: seq<Listed>): nat {
    4 + 4 * |symbols| + NamesLength(symbols)
  }

  function Even(size: nat): (n: nat)
    ensures n % 2 == 0
  {
    size + size % 2
  }

  function Padding(size: nat, c: char): (s: string)
    ensures |s| == size % 2
  {
    if size % 2 == 1 then [c] else []
  }

  /** The index's data, its padding included. */
  function Index(symbols: seq<Listed>, offsets: seq<nat>): (s: string)
    requires InRange(symbols, offsets)
    ensures |s| == Even(IndexSize(symbols))
  {
    BigEndian(|symbols|) + OffsetsBlock(symbols, offsets) + NamesBlock(symbols) + Padding(IndexSize(symbols), '\0')
  }

  predicate MemberFits(m: ArchiveMember) {
    FitsHeader(m.name + "/", |m.data|)
  }

  function MemberSize(m: ArchiveMember): (n: nat)
    ensures n % 2 == 0
  {
    HEADER_SIZE + Even(|m.data|)
  }

  function MemberBytes(m: ArchiveMember): (s: string)
    requires MemberFits(m)
    ensures |s| == MemberSize(m)
  {
    Header(m.name + "/", |m.data|, MEMBER_MODE) + m.data + Padding(|m.data|, '\n')
  }

  /** Where the first n members end, from where they start. */
  function MembersEnd(members: seq<ArchiveMember>, n: nat, start: nat): nat
    requires n <= |members|
  {
    if n == 0 then start else MembersEnd(members, n - 1, start) + MemberSize(members[n - 1])
  }

  function Offsets(members: seq<ArchiveMember>, start: nat): (r: seq<nat>)
    ensures |r| == |members|
  {
    seq(|members|, i requires 0 <= i < |members| => MembersEnd(members, i, start))
  }

  predicate AllFit(members: seq<ArchiveMember>, n: nat)
    requires n <= |members|
  {
    forall i :: 0 <= i < n ==> MemberFits(members[i])
  }

  function MembersBytes(members: seq<ArchiveMember>, n: nat): (s: string)
    requires n <= |members| && AllFit(members, n)
    ensures |s| == MembersEnd(members, n, 0)
  {
    if n == 0 then [] else MembersBytes(members, n - 1) + MemberBytes(members[n - 1])
  }

  function IndexLength(members: seq<ArchiveMember>): (n: nat)
    ensures n % 2 == 0
  {
    Even(IndexSize(Symbols(members, |members|)))
  }

  /** Where the first member's header starts. */
  function Start(members: seq<ArchiveMember>): nat {
    |MAGIC| + HEADER_SIZE + IndexLength(members)
  }

  predicate IsValid(members: seq<ArchiveMember>) {
    && (forall m :: m in members ==> IsMemberName(m.name))
    && FitsHeader(INDEX_NAME, IndexLength(members))
    && (forall m :: m in members ==> MemberFits(m))
  }

  /** With good names an archive can be written exactly when no size has more than ten digits. */
  lemma SizesDecide(members: seq<ArchiveMember>, limit: nat)
    requires (forall m :: m in members ==> IsMemberName(m.name)) && limit == PowerOfTen(10)
    ensures IsValid(members) <==> IndexLength(members) < limit && forall m :: m in members ==> |m.data| < limit
  {
    DecimalLength(IndexLength(members), 10);
    forall m | m in members
      ensures MemberFits(m) <==> |m.data| < limit
    {
      DecimalLength(|m.data|, 10);
    }
  }

  lemma {:induction false} SymbolsInRange(members: seq<ArchiveMember>, n: nat)
    requires n <= |members|
    ensures forall s :: s in Symbols(members, n) ==> s.member < n
  {
    if n > 0 {
      SymbolsInRange(members, n - 1);
    }
  }

  function IndexOfArchive(members: seq<ArchiveMember>): (s: string)
    ensures |s| == IndexLength(members)
  {
    SymbolsInRange(members, |members|);
    Index(Symbols(members, |members|), Offsets(members, Start(members)))
  }

  /** The whole archive. */
  function Laid(members: seq<ArchiveMember>): (s: string)
    requires IsValid(members)
    ensures |s| == MembersEnd(members, |members|, Start(members))
  {
    MembersEndShifts(members, |members|, Start(members));
    MAGIC + Header(INDEX_NAME, IndexLength(members), ZERO_FIELD) + IndexOfArchive(members) + MembersBytes(members, |members|)
  }

  lemma {:induction false} MembersEndShifts(members: seq<ArchiveMember>, n: nat, start: nat)
    requires n <= |members|
    ensures MembersEnd(members, n, start) == start + MembersEnd(members, n, 0)
  {
    if n > 0 {
      MembersEndShifts(members, n - 1, start);
    }
  }

  // ---------------------------------------------------------------------------------------------
  // Reading an archive (System V ABI edition 4.1, chapter 7, "Archive File")
  // ---------------------------------------------------------------------------------------------

  datatype Entry = Entry(offset: nat, name: string, data: string)

  datatype IndexEntry = IndexEntry(offset: nat, name: string)

  function Trimmed(field: string): string {
    if field != [] && field[|field| - 1] == ' ' then Trimmed(field[..|field| - 1]) else field
  }

  /** A name field: the name, the slash that ends it, and spaces. */
  function ReadName(field: string): Option<string> {
    var name := Trimmed(field);
    if name != [] && name[|name| - 1] == '/' then Some(name[..|name| - 1]) else None
  }

  function ReadSize(field: string): Option<nat> {
    var digits := Trimmed(field);
    if digits != [] && AreDigits(digits, 10) then Some(DigitsValue(digits, 10)) else None
  }

  /** The member at a place, and where the next one starts: past its padding. */
  function ReadMember(bytes: string, at: nat): Option<(Entry, nat)>
    requires at < |bytes|
  {
    if at + HEADER_SIZE > |bytes| || bytes[at + 58..at + HEADER_SIZE] != "`\n" then None
    else
      var name, size := ReadName(bytes[at..at + NAME_FIELD_SIZE]), ReadSize(bytes[at + 48..at + 58]);
      if name.None? || size.None? || at + HEADER_SIZE + Even(size.value) > |bytes| then None
      else
        var begin := at + HEADER_SIZE;
        Some((Entry(at, name.value, bytes[begin..begin + size.value]), begin + Even(size.value)))
  }

  /** The members from a place to the end, each where the one before it ends. */
  function ReadMembers(bytes: string, at: nat): Option<seq<Entry>>
    requires at <= |bytes|
    decreases |bytes| - at
  {
    if at == |bytes| then Some([])
    else
      var member := ReadMember(bytes, at);
      if member.None? then None
      else
        var rest := ReadMembers(bytes, member.value.1);
        if rest.None? then None else Some([member.value.0] + rest.value)
  }

  /** How far the string that starts here goes. */
  function Terminator(bytes: string, at: nat): (end: nat)
    requires at <= |bytes|
    ensures at <= end <= |bytes|
    decreases |bytes| - at
  {
    if at == |bytes| || bytes[at] == '\0' then at else Terminator(bytes, at + 1)
  }

  /** The entries from number k on, where their names start at a place. */
  function ReadEntries(data: string, count: nat, k: nat, at: nat): Option<seq<IndexEntry>>
    requires k <= count && 4 + 4 * count <= |data| && at <= |data|
    decreases count - k
  {
    if k == count then Some([])
    else
      var end := Terminator(data, at);
      if end == |data| then None
      else
        var rest := ReadEntries(data, count, k + 1, end + 1);
        if rest.None? then None
        else Some([IndexEntry(FromBigEndian(data[4 + 4 * k..8 + 4 * k]), data[at..end])] + rest.value)
  }

  function ReadIndex(data: string): Option<seq<IndexEntry>> {
    if |data| < 4 then None
    else
      var count := FromBigEndian(data[..4]);
      if 4 + 4 * count > |data| then None else ReadEntries(data, count, 0, 4 + 4 * count)
  }

  datatype Contents = Contents(index: seq<IndexEntry>, members: seq<Entry>)

  /** The member with the empty name comes first, and is the index. */
  function ReadArchive(bytes: string): Option<Contents> {
    if |bytes| < |MAGIC| || bytes[..|MAGIC|] != MAGIC then None
    else
      var all := ReadMembers(bytes, |MAGIC|);
      if all.None? || all.value == [] || all.value[0].name != "" then None
      else
        var index := ReadIndex(all.value[0].data);
        if index.None? then None else Some(Contents(index.value, all.value[1..]))
  }

  // ---------------------------------------------------------------------------------------------
  // What is read back
  // ---------------------------------------------------------------------------------------------

  lemma {:induction false} TrimmedField(value: string, n: nat)
    requires value != [] && value[|value| - 1] != ' '
    ensures Trimmed(value + Spaces(n)) == value
    decreases n
  {
    if n == 0 {
      assert value + Spaces(0) == value;
    } else {
      var field := value + Spaces(n);
      assert field[..|field| - 1] == value + Spaces(n - 1);
      TrimmedField(value, n - 1);
    }
  }

  predicate Announces(header: string, name: string, size: nat) {
    && |header| == HEADER_SIZE
    && header[58..60] == "`\n"
    && ReadName(header[..NAME_FIELD_SIZE]) == Some(name)
    && ReadSize(header[48..58]) == Some(size)
  }

  lemma HeaderParts(front: string, middle: string, size: string)
    requires |front| == NAME_FIELD_SIZE && |middle| == 32 && |size| == 10
    ensures
      var header := front + middle + size + "`\n";
      header[..NAME_FIELD_SIZE] == front && header[48..58] == size && header[58..60] == "`\n"
  {
  }

  lemma NameFieldRead(name: string)
    requires |name| < NAME_FIELD_SIZE
    ensures ReadName(Field(name + "/", NAME_FIELD_SIZE)) == Some(name)
  {
    TrimmedField(name + "/", NAME_FIELD_SIZE - |name + "/"|);
    assert (name + "/")[..|name|] == name;
  }

  lemma SizeFieldRead(size: nat)
    requires |Decimal(size)| <= 10
    ensures ReadSize(Field(Decimal(size), 10)) == Some(size)
  {
    var digits := Decimal(size);
    assert digits[|digits| - 1] in digits;
    TrimmedField(digits, 10 - |digits|);
    DecimalRead(size);
  }

  lemma HeaderRead(name: string, size: nat, mode: string)
    requires FitsHeader(name + "/", size) && |mode| <= 8
    ensures Announces(Header(name + "/", size, mode), name, size)
  {
    HeaderParts(Field(name + "/", NAME_FIELD_SIZE), Field(ZERO_FIELD, 12) + Field(ZERO_FIELD, 6) + Field(ZERO_FIELD, 6) + Field(mode, 8),
                Field(Decimal(size), 10));
    NameFieldRead(name);
    SizeFieldRead(size);
  }

  /** Reading one laid-out member, wherever it stands. */
  lemma MemberRead(bytes: string, at: nat, header: string, name: string, data: string, padding: string)
    requires Announces(header, name, |data|) && |padding| == |data| % 2
    requires at <= |bytes| && header + data + padding <= bytes[at..]
    ensures at + HEADER_SIZE + Even(|data|) <= |bytes|
    ensures ReadMember(bytes, at) == Some((Entry(at, name, data), at + HEADER_SIZE + Even(|data|)))
  {
    var whole := header + data + padding;
    Slice(bytes, at, whole, 58, 60);
    Slice(bytes, at, whole, 0, NAME_FIELD_SIZE);
    Slice(bytes, at, whole, 48, 58);
    Slice(bytes, at, whole, HEADER_SIZE, HEADER_SIZE + |data|);
    WholeParts(header, data, padding);
  }

  lemma Slice(bytes: string, at: nat, whole: string, i: nat, j: nat)
    requires at <= |bytes| && whole <= bytes[at..] && i <= j <= |whole|
    ensures bytes[at + i..at + j] == whole[i..j]
  {
    assert bytes[at..][..|whole|] == whole;
    forall k | 0 <= k < j - i
      ensures bytes[at + i..at + j][k] == whole[i..j][k]
    {
      assert bytes[at..][i + k] == whole[i + k];
    }
  }

  lemma WholeParts(header: string, data: string, padding: string)
    requires |header| == HEADER_SIZE
    ensures
      var whole := header + data + padding;
      && whole[58..60] == header[58..60] && whole[0..NAME_FIELD_SIZE] == header[..NAME_FIELD_SIZE]
      && whole[48..58] == header[48..58] && whole[HEADER_SIZE..HEADER_SIZE + |data|] == data
  {
  }

  lemma OneMemberRead(bytes: string, m: ArchiveMember, at: nat)
    requires MemberFits(m) && at <= |bytes| && MemberBytes(m) <= bytes[at..]
    ensures at + MemberSize(m) <= |bytes|
    ensures ReadMember(bytes, at) == Some((Entry(at, m.name, m.data), at + MemberSize(m)))
  {
    HeaderRead(m.name, |m.data|, MEMBER_MODE);
    MemberRead(bytes, at, Header(m.name + "/", |m.data|, MEMBER_MODE), m.name, m.data, Padding(|m.data|, '\n'));
  }

  /** A reader that finds each member where it stands, and goes on behind it, finds them all. */
  lemma {:induction false} AllRead(read: nat -> Option<seq<Entry>>, members: seq<ArchiveMember>, n: nat, start: nat)
    requires n <= |members| && read(MembersEnd(members, |members|, start)) == Some([])
    requires forall i :: 0 <= i < |members| ==> GoesOn(read, members, i, start)
    ensures read(MembersEnd(members, n, start)) == Some(Entries(members, start)[n..])
    decreases |members| - n
  {
    if n < |members| {
      AllRead(read, members, n + 1, start);
      assert GoesOn(read, members, n, start);
      assert Entries(members, start)[n..] == [Entries(members, start)[n]] + Entries(members, start)[n + 1..];
    } else {
      assert Entries(members, start)[n..] == [];
    }
  }

  ghost predicate GoesOn(read: nat -> Option<seq<Entry>>, members: seq<ArchiveMember>, i: nat, start: nat)
    requires i < |members|
  {
    var rest := read(MembersEnd(members, i + 1, start));
    read(MembersEnd(members, i, start)) == if rest.None? then None else Some([Entries(members, start)[i]] + rest.value)
  }

  function MembersFrom(bytes: string): nat -> Option<seq<Entry>> {
    (at: nat) => if at <= |bytes| then ReadMembers(bytes, at) else None
  }

  lemma MemberGoesOn(bytes: string, members: seq<ArchiveMember>, start: nat, i: nat)
    requires i < |members| && MemberFits(members[i]) && StandsAt(bytes, members, start, i)
    ensures GoesOn(MembersFrom(bytes), members, i, start)
  {
    OneMemberRead(bytes, members[i], MembersEnd(members, i, start));
  }

  /** The members laid out from a place on are read from there on, up to the end. */
  lemma MembersRead(bytes: string, members: seq<ArchiveMember>, start: nat)
    requires forall m :: m in members ==> MemberFits(m)
    requires |bytes| == MembersEnd(members, |members|, start)
    requires forall i :: 0 <= i < |members| ==> StandsAt(bytes, members, start, i)
    ensures start <= |bytes| && ReadMembers(bytes, start) == Some(Entries(members, start))
  {
    var read := MembersFrom(bytes);
    forall i | 0 <= i < |members|
      ensures GoesOn(read, members, i, start)
    {
      assert StandsAt(bytes, members, start, i);
      MemberGoesOn(bytes, members, start, i);
    }
    MembersEndShifts(members, |members|, start);
    AllRead(read, members, 0, start);
  }

  /** A member's bytes, where its offset says. */
  predicate StandsAt(bytes: string, members: seq<ArchiveMember>, start: nat, i: nat)
    requires i < |members| && MemberFits(members[i])
  {
    var at := MembersEnd(members, i, start);
    at <= |bytes| && MemberBytes(members[i]) <= bytes[at..]
  }

  /** What a reader should find: every member at its offset. */
  function Entries(members: seq<ArchiveMember>, start: nat): (r: seq<Entry>)
    ensures |r| == |members|
  {
    seq(|members|, i requires 0 <= i < |members| => Entry(MembersEnd(members, i, start), members[i].name, members[i].data))
  }

  lemma {:induction false} StandsWhereLaid(members: seq<ArchiveMember>, n: nat, i: nat)
    requires i < n <= |members| && forall m :: m in members ==> MemberFits(m)
    ensures MembersEnd(members, i, 0) <= |MembersBytes(members, n)|
    ensures MemberBytes(members[i]) <= MembersBytes(members, n)[MembersEnd(members, i, 0)..]
    decreases n
  {
    var bytes, last := MembersBytes(members, n - 1), MemberBytes(members[n - 1]);
    if i == n - 1 {
      PastFront(bytes, last, 0);
    } else {
      StandsWhereLaid(members, n - 1, i);
      StandsStill(bytes, last, MembersEnd(members, i, 0), MemberBytes(members[i]));
    }
  }

  lemma StandsStill(bytes: string, more: string, i: nat, part: string)
    requires i <= |bytes| && part <= bytes[i..]
    ensures part <= (bytes + more)[i..]
  {
    assert (bytes + more)[i..] == bytes[i..] + more;
  }

  /** A name read where it stands, up to its NUL. */
  lemma {:induction false} NameRead(data: string, at: nat, name: string)
    requires at <= |data| && name + ['\0'] <= data[at..] && '\0' !in name
    ensures Terminator(data, at) == at + |name| < |data| && data[at..at + |name|] == name
    decreases name
  {
    assert data[at..][0] == (name + ['\0'])[0];
    if name != [] {
      assert data[at] == name[0];
      assert data[at + 1..] == data[at..][1..];
      assert (name + ['\0'])[1..] == name[1..] + ['\0'];
      NameRead(data, at + 1, name[1..]);
      assert data[at..at + |name|] == [data[at]] + data[at + 1..at + 1 + |name[1..]|];
    }
  }

  lemma {:induction false} OffsetAt(symbols: seq<Listed>, offsets: seq<nat>, k: nat)
    requires InRange(symbols, offsets) && k < |symbols|
    ensures OffsetsBlock(symbols, offsets)[4 * k..4 * k + 4] == BigEndian(offsets[symbols[k].member])
    decreases |symbols|
  {
    var n := |symbols| - 1;
    if k < n {
      OffsetAt(symbols[..n], offsets, k);
      assert OffsetsBlock(symbols, offsets)[4 * k..4 * k + 4] == OffsetsBlock(symbols[..n], offsets)[4 * k..4 * k + 4];
    }
  }

  lemma {:induction false} NameAt(symbols: seq<Listed>, k: nat)
    requires k < |symbols|
    ensures NamesLength(symbols[..k + 1]) == NamesLength(symbols[..k]) + |symbols[k].name| + 1 <= NamesLength(symbols)
    ensures symbols[k].name + ['\0'] <= NamesBlock(symbols)[NamesLength(symbols[..k])..]
    decreases |symbols|
  {
    var n := |symbols| - 1;
    assert symbols[..k + 1][..k] == symbols[..k];
    if k == n {
      assert symbols[..k + 1] == symbols;
      assert NamesBlock(symbols)[NamesLength(symbols[..n])..] == symbols[n].name + ['\0'];
    } else {
      NameAt(symbols[..n], k);
      assert symbols[..n][..k] == symbols[..k] && symbols[..n][..k + 1] == symbols[..k + 1];
      var from := NamesLength(symbols[..k]);
      assert NamesBlock(symbols)[from..] == NamesBlock(symbols[..n])[from..] + (symbols[n].name + ['\0']);
    }
  }

  predicate AreTerminated(symbols: seq<Listed>) {
    forall s :: s in symbols ==> '\0' !in s.name
  }

  /** What the index says of each symbol: the offset of its member, as far as four bytes hold it. */
  function IndexEntries(symbols: seq<Listed>, offsets: seq<nat>): (r: seq<IndexEntry>)
    requires InRange(symbols, offsets)
    ensures |r| == |symbols|
  {
    seq(|symbols|, i requires 0 <= i < |symbols| =>
      IndexEntry(offsets[symbols[i].member] % 0x1_0000_0000, symbols[i].name))
  }

  /** Entry k of the index, where the reader looks for it. */
  predicate HasEntry(data: string, symbols: seq<Listed>, offsets: seq<nat>, k: nat)
    requires InRange(symbols, offsets) && k < |symbols|
  {
    && 4 + 4 * |symbols| + NamesLength(symbols[..k + 1]) <= |data|
    && NamesLength(symbols[..k + 1]) == NamesLength(symbols[..k]) + |symbols[k].name| + 1
    && FromBigEndian(data[4 + 4 * k..8 + 4 * k]) == offsets[symbols[k].member] % 0x1_0000_0000
    && symbols[k].name + ['\0'] <= data[4 + 4 * |symbols| + NamesLength(symbols[..k])..]
  }

  lemma EntryAt(symbols: seq<Listed>, offsets: seq<nat>, k: nat)
    requires InRange(symbols, offsets) && k < |symbols|
    ensures HasEntry(Index(symbols, offsets), symbols, offsets, k)
  {
    var count, block, names := BigEndian(|symbols|), OffsetsBlock(symbols, offsets), NamesBlock(symbols);
    var padding := Padding(IndexSize(symbols), '\0');
    assert block[4 * k..4 * k + 4] == BigEndian(offsets[symbols[k].member]) by {
      OffsetAt(symbols, offsets, k);
    }
    NameAt(symbols, k);
    IndexParts(count, block, names, padding, 4 * k, NamesLength(symbols[..k]));
    BigEndianRead(offsets[symbols[k].member]);
  }

  lemma IndexParts(count: string, block: string, names: string, padding: string, i: nat, j: nat)
    requires |count| == 4 && i + 4 <= |block| && j <= |names|
    ensures
      var data := count + block + names + padding;
      && data[4 + i..8 + i] == block[i..i + 4]
      && names[j..] <= data[4 + |block| + j..]
  {
    var data := count + block + names + padding;
    assert data[4 + |block| + j..] == names[j..] + padding;
  }

  function Reader(data: string, count: nat): (nat, nat) -> Option<seq<IndexEntry>> {
    (k: nat, at: nat) => if k <= count && 4 + 4 * count <= |data| && at <= |data| then ReadEntries(data, count, k, at) else None
  }

  lemma OneEntryRead(data: string, count: nat, k: nat, at: nat, name: string, offset: nat)
    requires k < count && 4 + 4 * count <= |data| && at <= |data|
    requires FromBigEndian(data[4 + 4 * k..8 + 4 * k]) == offset
    requires name + ['\0'] <= data[at..] && '\0' !in name
    ensures
      var rest := Reader(data, count)(k + 1, at + |name| + 1);
      Reader(data, count)(k, at) == if rest.None? then None else Some([IndexEntry(offset, name)] + rest.value)
  {
    NameRead(data, at, name);
  }

  /** Where the name of entry k starts. */
  function NamePlace(symbols: seq<Listed>, k: nat): nat
    requires k <= |symbols|
  {
    4 + 4 * |symbols| + NamesLength(symbols[..k])
  }

  /** The reader takes entry k and goes on to the next. */
  ghost predicate TakesEntry(read: (nat, nat) -> Option<seq<IndexEntry>>, symbols: seq<Listed>, want: seq<IndexEntry>, k: nat)
    requires k < |symbols| == |want|
  {
    var rest := read(k + 1, NamePlace(symbols, k + 1));
    read(k, NamePlace(symbols, k)) == if rest.None? then None else Some([want[k]] + rest.value)
  }

  lemma {:induction false} EntriesRead(
    read: (nat, nat) -> Option<seq<IndexEntry>>, symbols: seq<Listed>, want: seq<IndexEntry>, k: nat)
    requires k <= |symbols| == |want| && read(|symbols|, NamePlace(symbols, |symbols|)) == Some([])
    requires forall i :: 0 <= i < |symbols| ==> TakesEntry(read, symbols, want, i)
    ensures read(k, NamePlace(symbols, k)) == Some(want[k..])
    decreases |symbols| - k
  {
    if k < |symbols| {
      EntriesRead(read, symbols, want, k + 1);
      assert TakesEntry(read, symbols, want, k);
      assert want[k..] == [want[k]] + want[k + 1..];
    }
  }

  lemma EntryRead(data: string, symbols: seq<Listed>, offsets: seq<nat>, k: nat)
    requires InRange(symbols, offsets) && AreTerminated(symbols) && k < |symbols|
    requires HasEntry(data, symbols, offsets, k)
    ensures TakesEntry(Reader(data, |symbols|), symbols, IndexEntries(symbols, offsets), k)
  {
    OneEntryRead(data, |symbols|, k, NamePlace(symbols, k), symbols[k].name,
                 offsets[symbols[k].member] % 0x1_0000_0000);
  }

  lemma IndexRead(symbols: seq<Listed>, offsets: seq<nat>)
    requires InRange(symbols, offsets) && AreTerminated(symbols) && |symbols| < 0x1_0000_0000
    ensures ReadIndex(Index(symbols, offsets)) == Some(IndexEntries(symbols, offsets))
  {
    forall i | 0 <= i < |symbols|
      ensures HasEntry(Index(symbols, offsets), symbols, offsets, i)
    {
      EntryAt(symbols, offsets, i);
    }
    IndexCount(symbols, offsets);
    IndexReadFrom(Index(symbols, offsets), symbols, offsets);
  }

  lemma IndexReadFrom(data: string, symbols: seq<Listed>, offsets: seq<nat>)
    requires InRange(symbols, offsets) && AreTerminated(symbols)
    requires 4 + 4 * |symbols| <= |data| && FromBigEndian(data[..4]) == |symbols|
    requires forall i :: 0 <= i < |symbols| ==> HasEntry(data, symbols, offsets, i)
    ensures ReadIndex(data) == Some(IndexEntries(symbols, offsets))
  {
    forall k | 0 <= k < |symbols|
      ensures TakesEntry(Reader(data, |symbols|), symbols, IndexEntries(symbols, offsets), k)
    {
      assert HasEntry(data, symbols, offsets, k);
      EntryRead(data, symbols, offsets, k);
    }
    assert NamePlace(symbols, |symbols|) <= |data| by {
      NamesEnd(data, symbols, offsets);
    }
    EntriesRead(Reader(data, |symbols|), symbols, IndexEntries(symbols, offsets), 0);
    assert symbols[..0] == [];
  }

  lemma NamesEnd(data: string, symbols: seq<Listed>, offsets: seq<nat>)
    requires InRange(symbols, offsets) && 4 + 4 * |symbols| <= |data|
    requires forall i :: 0 <= i < |symbols| ==> HasEntry(data, symbols, offsets, i)
    ensures NamePlace(symbols, |symbols|) <= |data|
  {
    assert symbols[..|symbols|] == symbols;
    if symbols != [] {
      assert HasEntry(data, symbols, offsets, |symbols| - 1);
    }
  }

  lemma IndexCount(symbols: seq<Listed>, offsets: seq<nat>)
    requires InRange(symbols, offsets)
    ensures 4 + 4 * |symbols| <= |Index(symbols, offsets)|
    ensures FromBigEndian(Index(symbols, offsets)[..4]) == |symbols| % 0x1_0000_0000
  {
    assert Index(symbols, offsets)[..4] == BigEndian(|symbols|);
    BigEndianRead(|symbols|);
  }

  // ---------------------------------------------------------------------------------------------
  // The archive read back
  // ---------------------------------------------------------------------------------------------

  function ListedSymbols(members: seq<ArchiveMember>): seq<Listed> {
    Symbols(members, |members|)
  }

  function ContentsOf(members: seq<ArchiveMember>): Contents {
    SymbolsInRange(members, |members|);
    Contents(IndexEntries(ListedSymbols(members), Offsets(members, Start(members))), Entries(members, Start(members)))
  }

  lemma EveryMemberStands(members: seq<ArchiveMember>, i: nat)
    requires IsValid(members) && i < |members|
    ensures StandsAt(Laid(members), members, Start(members), i)
  {
    var start, bytes := Start(members), MembersBytes(members, |members|);
    StandsWhereLaid(members, |members|, i);
    MembersEndShifts(members, i, start);
    PastFront(MAGIC + Header(INDEX_NAME, IndexLength(members), ZERO_FIELD) + IndexOfArchive(members), bytes,
              MembersEnd(members, i, 0));
  }

  lemma PastFront(front: string, bytes: string, i: nat)
    requires i <= |bytes|
    ensures (front + bytes)[|front| + i..] == bytes[i..]
  {
  }

  /** Reading an archive back gives its members in order, at their offsets, and the index of its symbols. */
  lemma ReadsBack(members: seq<ArchiveMember>)
    requires IsValid(members) && AreTerminated(ListedSymbols(members)) && |ListedSymbols(members)| < 0x1_0000_0000
    ensures ReadArchive(Laid(members)) == Some(ContentsOf(members))
  {
    var bytes, start := Laid(members), Start(members);
    forall i | 0 <= i < |members|
      ensures StandsAt(bytes, members, start, i)
    {
      EveryMemberStands(members, i);
    }
    MembersRead(bytes, members, start);
    IndexMemberRead(members);
    SymbolsInRange(members, |members|);
    IndexRead(ListedSymbols(members), Offsets(members, start));
  }

  lemma IndexMemberRead(members: seq<ArchiveMember>)
    requires IsValid(members)
    ensures |MAGIC| <= Start(members) <= |Laid(members)| && Laid(members)[..|MAGIC|] == MAGIC
    ensures
      var rest := ReadMembers(Laid(members), Start(members));
      ReadMembers(Laid(members), |MAGIC|)
        == if rest.None? then None else Some([Entry(|MAGIC|, "", IndexOfArchive(members))] + rest.value)
  {
    var size := IndexLength(members);
    IndexHeaderRead(size, "");
    IndexMemberReadFrom(Laid(members), Header(INDEX_NAME, size, ZERO_FIELD), IndexOfArchive(members),
                        MembersBytes(members, |members|), Start(members));
  }

  lemma IndexHeaderRead(size: nat, empty: string)
    requires FitsHeader(INDEX_NAME, size) && empty == ""
    ensures Announces(Header(INDEX_NAME, size, ZERO_FIELD), empty, size)
  {
    assert empty + "/" == INDEX_NAME;
    HeaderRead(empty, size, ZERO_FIELD);
  }

  lemma IndexMemberReadFrom(bytes: string, header: string, index: string, rest: string, start: nat)
    requires bytes == MAGIC + header + index + rest
    requires Announces(header, "", |index|) && |index| % 2 == 0 && start == |MAGIC| + HEADER_SIZE + |index|
    ensures |MAGIC| <= start <= |bytes| && bytes[..|MAGIC|] == MAGIC
    ensures
      var rest := ReadMembers(bytes, start);
      ReadMembers(bytes, |MAGIC|) == if rest.None? then None else Some([Entry(|MAGIC|, "", index)] + rest.value)
  {
    PastMagic(header, index, rest);
    MemberRead(bytes, |MAGIC|, header, "", index, []);
  }

  lemma PastMagic(header: string, index: string, rest: string)
    ensures
      var bytes := MAGIC + header + index + rest;
      && bytes[..|MAGIC|] == MAGIC
      && header + index + [] <= bytes[|MAGIC|..]
  {
    assert (MAGIC + header + index + rest)[|MAGIC|..] == header + index + [] + rest;
  }

  // ---------------------------------------------------------------------------------------------
  // The index
  // ---------------------------------------------------------------------------------------------

  /** The index lists the members' symbols in order, and every one of them. */
  lemma {:induction false} SymbolsAreListed(members: seq<ArchiveMember>, n: nat, k: nat)
    requires n <= |members| && k < |Symbols(members, n)|
    ensures Symbols(members, n)[k].member < n
    ensures Symbols(members, n)[k].name in ListedNames(members[Symbols(members, n)[k].member].symbols)
    decreases n
  {
    var before := Symbols(members, n - 1);
    if k < |before| {
      SymbolsAreListed(members, n - 1, k);
    } else {
      assert Symbols(members, n)[k] == Listed(ListedNames(members[n - 1].symbols)[k - |before|], n - 1);
    }
  }

  lemma {:induction false} SymbolsInOrder(members: seq<ArchiveMember>, n: nat, k: nat, l: nat)
    requires n <= |members| && k < l < |Symbols(members, n)|
    ensures Symbols(members, n)[k].member <= Symbols(members, n)[l].member
    decreases n
  {
    var before := Symbols(members, n - 1);
    if l < |before| {
      SymbolsInOrder(members, n - 1, k, l);
    } else if k < |before| {
      SymbolsAreListed(members, n - 1, k);
    }
  }

  lemma {:induction false} ListedSymbolIsFound(members: seq<ArchiveMember>, n: nat, i: nat, name: string)
    requires i < n <= |members| && name in ListedNames(members[i].symbols)
    ensures Listed(name, i) in Symbols(members, n)
    decreases n
  {
    if i < n - 1 {
      ListedSymbolIsFound(members, n - 1, i, name);
    } else {
      var names := ListedNames(members[i].symbols);
      var j :| 0 <= j < |names| && names[j] == name;
      assert ListedIn(names, i)[j] == Listed(name, i);
    }
  }

  lemma {:induction false} EndsAreEven(members: seq<ArchiveMember>, n: nat, start: nat)
    requires n <= |members| && start % 2 == 0
    ensures MembersEnd(members, n, start) % 2 == 0
    decreases n
  {
    if n > 0 {
      EndsAreEven(members, n - 1, start);
    }
  }

  /**
    Entry k of the index names a symbol that its member lists, and holds the even offset of that
    member's header, as long as four bytes can hold it; beyond 4 GiB they never do.
   */
  lemma IndexPointsAtMembers(members: seq<ArchiveMember>, k: nat)
    requires k < |ListedSymbols(members)|
    ensures
      var c, s := ContentsOf(members), ListedSymbols(members)[k];
      && c.index[k].name == s.name
      && s.member < |members| && s.name in ListedNames(members[s.member].symbols)
      && c.members[s.member].offset % 2 == 0
      && (c.index[k].offset == c.members[s.member].offset <==> c.members[s.member].offset < 0x1_0000_0000)
  {
    SymbolsAreListed(members, |members|, k);
    EndsAreEven(members, ListedSymbols(members)[k].member, Start(members));
  }

  /** Four bytes cannot hold the offset of a member behind one of 4 GiB: its entry points elsewhere. */
  lemma FarMemberIsMissed(data: string, s: Symbol)
    requires |data| == 0x1_0000_0000 && s == Symbol("main", Global, OtherKind, InSection(1), 0)
    ensures
      var members := [ArchiveMember("data.o", data, []), ArchiveMember("main.o", "", [s])];
      var c := ContentsOf(members);
      IsValid(members) && |c.index| == 1 == |c.members| - 1 && c.index[0].offset != c.members[1].offset
  {
    var members := [ArchiveMember("data.o", data, []), ArchiveMember("main.o", "", [s])];
    assert members[0].symbols == [] && members[1].symbols == [s];
    OneListed(members, s);
    OneListedIsValid(members, s);
    SecondIsMissed(members, s.name);
  }

  lemma SecondIsMissed(members: seq<ArchiveMember>, name: string)
    requires |members| == 2 && |members[0].data| >= 0x1_0000_0000 && ListedSymbols(members) == [Listed(name, 1)]
    ensures
      var c := ContentsOf(members);
      |c.index| == 1 == |c.members| - 1 && c.index[0].offset != c.members[1].offset
  {
    assert MembersEnd(members, 1, Start(members)) == MembersEnd(members, 0, Start(members)) + MemberSize(members[0]);
    IndexPointsAtMembers(members, 0);
  }

  lemma OneListed(members: seq<ArchiveMember>, s: Symbol)
    requires |members| == 2 && members[0].symbols == [] && members[1].symbols == [s] && IsListed(s)
    ensures ListedSymbols(members) == [Listed(s.name, 1)]
  {
    assert [s][1..] == [] && ListedNames([s]) == [s.name] + ListedNames([]);
    assert Symbols(members, 2) == Symbols(members, 1) + ListedIn([s.name], 1);
  }

  lemma OneListedIsValid(members: seq<ArchiveMember>, s: Symbol)
    requires (forall m :: m in members ==> IsMemberName(m.name) && |m.data| <= 0x1_0000_0000)
    requires ListedSymbols(members) == [Listed(s.name, 1)] && |s.name| <= 100
    ensures IsValid(members)
  {
    var symbols := ListedSymbols(members);
    assert symbols[..0] == [] && NamesLength(symbols) == |s.name| + 1;
    TenDigits();
    SizesDecide(members, PowerOfTen(10));
  }

  lemma TenDigits()
    ensures PowerOfTen(10) == 10_000_000_000
  {
    assert PowerOfTen(5) == 10 * PowerOfTen(4) == 100_000;
  }

  // ---------------------------------------------------------------------------------------------
  // The index as the selection of link-selection.ts reads it
  // ---------------------------------------------------------------------------------------------

  function NamesOf(symbols: seq<Symbol>): seq<string> {
    if symbols == [] then [] else [symbols[0].name] + NamesOf(symbols[1..])
  }

  function SelectionNames(o: Object): seq<string> {
    NamesOf(Selection.Indexed(Visible(o)))
  }

  lemma SelectionNamesUnfold(o: Object)
    requires o != []
    ensures SelectionNames(o)
         == (if IsVisible(o[0]) && IsIndexed(o[0]) then [o[0].name] else []) + SelectionNames(o[1..])
  {
    var first, rest := o[0], Visible(o[1..]);
    if IsVisible(first) {
      assert Visible(o) == [first] + rest && Visible(o)[1..] == rest;
      if IsIndexed(first) {
        var indexed := Selection.Indexed(rest);
        assert Selection.Indexed(Visible(o)) == [first] + indexed;
        assert ([first] + indexed)[1..] == indexed;
      } else {
        assert Selection.Indexed(Visible(o)) == Selection.Indexed(rest);
      }
    } else {
      assert Visible(o) == rest;
    }
  }

  lemma {:induction false} SelectionNamesAreFewer(o: Object)
    ensures |SelectionNames(o)| <= |ListedNames(o)|
    decreases o
  {
    if o != [] {
      SelectionNamesUnfold(o);
      SelectionNamesAreFewer(o[1..]);
    }
  }

  predicate IsOutside(s: Symbol) {
    s.name != "" && s.binding != Local
  }

  /**
    The selection sees the index the archive has, unless a listed symbol has no name or is a local
    common one: those the archive lists and the selection does not.
   */
  lemma {:induction false} IndexesAgree(o: Object)
    ensures SelectionNames(o) == ListedNames(o) <==> forall s :: s in o && IsListed(s) ==> IsOutside(s)
    decreases o
  {
    if o != [] {
      var first, rest := o[0], o[1..];
      assert forall s :: s in o <==> s == first || s in rest;
      SelectionNamesUnfold(o);
      SelectionNamesAreFewer(rest);
      IndexesAgree(rest);
      if IsListed(first) && IsOutside(first) {
        assert SelectionNames(o)[1..] == SelectionNames(rest) && ListedNames(o)[1..] == ListedNames(rest);
      } else if IsListed(first) {
        assert |SelectionNames(o)| < |ListedNames(o)|;
      } else {
        assert SelectionNames(o) == SelectionNames(rest) && ListedNames(o) == ListedNames(rest);
      }
    }
  }

  /** The archive lists a local common symbol, and the selection does not. */
  lemma LocalCommonIsNotOffered()
    ensures
      var o := [Symbol("buffer", Local, OtherKind, CommonPlace, 8)];
      ListedNames(o) == ["buffer"] && SelectionNames(o) == []
  {
    var o := [Symbol("buffer", Local, OtherKind, CommonPlace, 8)];
    assert ListedNames(o[1..]) == [] && Visible(o[1..]) == [];
  }

  // ---------------------------------------------------------------------------------------------
  // Writing an archive
  // ---------------------------------------------------------------------------------------------

  function Repeated(c: char, n: nat): (s: string)
    ensures |s| == n && forall i :: 0 <= i < n ==> s[i] == c
  {
    seq(n, i => c)
  }

  lemma RepeatedSplits(c: char, m: nat, n: nat)
    ensures Repeated(c, m + n) == Repeated(c, m) + Repeated(c, n)
  {
  }

  function Patched(t: string, at: nat, s: string): string
    requires at + |s| <= |t|
  {
    t[..at] + s + t[at + |s|..]
  }

  lemma PatchedMiddle(front: string, middle: string, back: string, s: string)
    requires |middle| == |s|
    ensures Patched(front + middle + back, |front|, s) == front + s + back
  {
  }

  method Set(a: array<char>, s: string, at: nat)
    requires at + |s| <= a.Length
    modifies a
    ensures a[..] == Patched(old(a[..]), at, s)
  {
    forall i | 0 <= i < |s| {
      a[at + i] := s[i];
    }
  }

  /** An index being filled: offsets after the count, names after the room for the offsets, and NULs elsewhere. */
  function Filling(count: string, block: string, gap: nat, names: string, back: nat): string {
    count + block + Repeated('\0', gap) + names + Repeated('\0', back)
  }

  lemma EnterOffset(count: string, block: string, gap: nat, names: string, back: nat, offset: string)
    requires gap >= 4 && |offset| == 4
    ensures |count| + |block| + 4 <= |Filling(count, block, gap, names, back)|
    ensures Patched(Filling(count, block, gap, names, back), |count| + |block|, offset)
         == Filling(count, block + offset, gap - 4, names, back)
  {
    RepeatedSplits('\0', 4, gap - 4);
    var front, rest := count + block, Repeated('\0', gap - 4) + names + Repeated('\0', back);
    assert Filling(count, block, gap, names, back) == front + Repeated('\0', 4) + rest;
    PatchedMiddle(front, Repeated('\0', 4), rest, offset);
    assert front + offset + rest == Filling(count, block + offset, gap - 4, names, back);
  }

  lemma EnterName(count: string, block: string, gap: nat, names: string, back: nat, name: string)
    requires back >= |name| + 1
    ensures |count| + |block| + gap + |names| + |name| <= |Filling(count, block, gap, names, back)|
    ensures Patched(Filling(count, block, gap, names, back), |count| + |block| + gap + |names|, name)
         == Filling(count, block, gap, names + name + ['\0'], back - |name| - 1)
  {
    var front, rest := count + block + Repeated('\0', gap) + names, Repeated('\0', back - |name|);
    RepeatedSplits('\0', |name|, back - |name|);
    assert Filling(count, block, gap, names, back) == front + Repeated('\0', |name|) + rest;
    PatchedMiddle(front, Repeated('\0', |name|), rest, name);
    RepeatedSplits('\0', 1, back - |name| - 1);
    assert Repeated('\0', 1) == ['\0'];
    assert front + name + rest == Filling(count, block, gap, names + name + ['\0'], back - |name| - 1);
  }

  lemma NextSymbol(symbols: seq<Listed>, offsets: seq<nat>, p: nat)
    requires InRange(symbols, offsets) && p < |symbols|
    ensures NamesLength(symbols[..p + 1]) == NamesLength(symbols[..p]) + |symbols[p].name| + 1 <= NamesLength(symbols)
    ensures OffsetsBlock(symbols[..p + 1], offsets)
         == OffsetsBlock(symbols[..p], offsets) + BigEndian(offsets[symbols[p].member])
    ensures NamesBlock(symbols[..p + 1]) == NamesBlock(symbols[..p]) + symbols[p].name + ['\0']
  {
    NameAt(symbols, p);
    assert symbols[..p + 1][..p] == symbols[..p];
  }

  method BuildIndex(symbols: seq<Listed>, offsets: seq<nat>) returns (index: array<char>)
    requires InRange(symbols, offsets)
    ensures fresh(index) && index[..] == Index(symbols, offsets)
  {
    var size := Even(IndexSize(symbols));
    index := new char[size](i => '\0');
    assert index[..] == Repeated('\0', size);
    Set(index, BigEndian(|symbols|), 0);
    StartIndex(BigEndian(|symbols|), size, 4 * |symbols|);
    EnterSymbols(index, symbols, offsets);
    EndIndex(BigEndian(|symbols|), OffsetsBlock(symbols, offsets), NamesBlock(symbols), IndexSize(symbols) % 2,
             Padding(IndexSize(symbols), '\0'));
  }

  method EnterSymbols(index: array<char>, symbols: seq<Listed>, offsets: seq<nat>)
    requires InRange(symbols, offsets) && index.Length == Even(IndexSize(symbols))
    requires index[..] == Filling(BigEndian(|symbols|), "", 4 * |symbols|, "", index.Length - 4 - 4 * |symbols|)
    modifies index
    ensures index[..] == Filling(BigEndian(|symbols|), OffsetsBlock(symbols, offsets), 0, NamesBlock(symbols), IndexSize(symbols) % 2)
  {
    var nameOffset := 4 + 4 * |symbols|;
    ghost var block, names := "", "";
    assert symbols[..0] == [];
    var position := 0;
    while position < |symbols|
      invariant position <= |symbols|
      invariant block == OffsetsBlock(symbols[..position], offsets) && names == NamesBlock(symbols[..position])
      invariant |names| <= NamesLength(symbols)
      invariant nameOffset == 4 + 4 * |symbols| + |names|
      invariant index[..] == Filling(BigEndian(|symbols|), block, 4 * (|symbols| - position), names, index.Length - nameOffset)
    {
      block, names, nameOffset := EnterSymbol(index, symbols, offsets, position, nameOffset, block, names);
      position := position + 1;
    }
    assert symbols[..|symbols|] == symbols;
  }

  /** Enters the offset and the name of the symbol at a position. */
  method EnterSymbol(index: array<char>, symbols: seq<Listed>, offsets: seq<nat>, position: nat, at: nat,
                     ghost block: string, ghost names: string)
    returns (ghost block': string, ghost names': string, next: nat)
    requires InRange(symbols, offsets) && position < |symbols|
    requires block == OffsetsBlock(symbols[..position], offsets) && names == NamesBlock(symbols[..position])
    requires at == 4 + 4 * |symbols| + |names| <= index.Length == Even(IndexSize(symbols))
    requires index[..] == Filling(BigEndian(|symbols|), block, 4 * (|symbols| - position), names, index.Length - at)
    modifies index
    ensures block' == OffsetsBlock(symbols[..position + 1], offsets) && names' == NamesBlock(symbols[..position + 1])
    ensures |names'| <= NamesLength(symbols) && next == 4 + 4 * |symbols| + |names'|
    ensures index[..] == Filling(BigEndian(|symbols|), block', 4 * (|symbols| - position - 1), names', index.Length - next)
  {
    var offset, name := BigEndian(offsets[symbols[position].member]), symbols[position].name;
    ghost var gap, back := 4 * (|symbols| - position), index.Length - at;
    NextSymbol(symbols, offsets, position);
    PutEntry(index, offset, 4 + 4 * position, name, at, BigEndian(|symbols|), block, gap, names, back);
    block', names', next := block + offset, names + name + ['\0'], at + |name| + 1;
  }

  method PutEntry(index: array<char>, offset: string, offsetAt: nat, name: string, nameAt: nat,
                  ghost count: string, ghost block: string, ghost gap: nat, ghost names: string, ghost back: nat)
    requires index[..] == Filling(count, block, gap, names, back)
    requires |offset| == 4 <= gap && |name| < back
    requires offsetAt == |count| + |block| && nameAt == |count| + |block| + gap + |names|
    modifies index
    ensures index[..] == Filling(count, block + offset, gap - 4, names + name + ['\0'], back - |name| - 1)
  {
    EnterOffset(count, block, gap, names, back, offset);
    EnterName(count, block + offset, gap - 4, names, back, name);
    Set(index, offset, offsetAt);
    Set(index, name, nameAt);
  }

  lemma StartIndex(count: string, size: nat, gap: nat)
    requires |count| == 4 && size >= 4 + gap
    ensures Patched(Repeated('\0', size), 0, count) == Filling(count, "", gap, "", size - 4 - gap)
  {
    RepeatedSplits('\0', 4, size - 4);
    RepeatedSplits('\0', gap, size - 4 - gap);
    PatchedMiddle([], Repeated('\0', 4), Repeated('\0', size - 4), count);
    assert Repeated('\0', size) == [] + Repeated('\0', 4) + Repeated('\0', size - 4);
    assert [] + count + Repeated('\0', size - 4) == Filling(count, "", gap, "", size - 4 - gap);
  }

  lemma EndIndex(count: string, block: string, names: string, back: nat, padding: string)
    requires |padding| == back && forall i :: 0 <= i < |padding| ==> padding[i] == '\0'
    ensures Filling(count, block, 0, names, back) == count + block + names + padding
  {
    assert Repeated('\0', back) == padding;
    assert count + block + Repeated('\0', 0) == count + block;
  }

  datatype Outcome = Written(bytes: string) | InvalidName(name: string) | FieldTooLong

  predicate AreNamed(members: seq<ArchiveMember>) {
    forall m :: m in members ==> IsMemberName(m.name)
  }

  /** The archive, or the error it throws instead: for the first bad name, or for a size with too many digits. */
  method WriteArchive(members: seq<ArchiveMember>) returns (r: Outcome)
    ensures
      if !AreNamed(members) then
        exists i :: 0 <= i < |members| && r == InvalidName(members[i].name) && !IsMemberName(members[i].name) && AreNamed(members[..i])
      else if !IsValid(members) then r == FieldTooLong
      else r == Written(Laid(members))
  {
    for i := 0 to |members|
      invariant AreNamed(members[..i])
    {
      if !IsMemberName(members[i].name) {
        return InvalidName(members[i].name);
      }
    }
    assert members[..|members|] == members;
    var symbols := Symbols(members, |members|);
    var size, offsets := PlaceMembers(members);
    SymbolsInRange(members, |members|);
    var index := BuildIndex(symbols, offsets);
    var written := Assemble(members, index, size, offsets);
    r := if written.None? then FieldTooLong else Written(written.value);
  }

  method PlaceMembers(members: seq<ArchiveMember>) returns (size: nat, offsets: seq<nat>)
    ensures size == MembersEnd(members, |members|, Start(members)) && offsets == Offsets(members, Start(members))
  {
    size := Start(members);
    offsets := [];
    for i := 0 to |members|
      invariant size == MembersEnd(members, i, Start(members))
      invariant offsets == Offsets(members, Start(members))[..i]
    {
      offsets := offsets + [size];
      size := size + HEADER_SIZE + |members[i].data| + |members[i].data| % 2;
    }
  }

  /** A header, where its fields hold what they should. */
  method MemberHeader(name: string, size: nat, mode: string) returns (header: Option<string>)
    requires |name| <= NAME_FIELD_SIZE && |mode| <= 8
    ensures header == if FitsHeader(name, size) then Some(Header(name, size, mode)) else None
  {
    var digits := Decimal(size);
    if |digits| > 10 {
      return None;
    }
    header := Some(Field(name, NAME_FIELD_SIZE) + (Field(ZERO_FIELD, 12) + Field(ZERO_FIELD, 6) + Field(ZERO_FIELD, 6) + Field(mode, 8))
                   + Field(digits, 10) + "`\n");
  }

  method Assemble(members: seq<ArchiveMember>, index: array<char>, size: nat, offsets: seq<nat>)
    returns (bytes: Option<string>)
    requires AreNamed(members) && index[..] == IndexOfArchive(members)
    requires size == MembersEnd(members, |members|, Start(members)) && offsets == Offsets(members, Start(members))
    ensures bytes == if IsValid(members) then Some(Laid(members)) else None
  {
    MembersEndShifts(members, |members|, Start(members));
    var archive := new char[size](i => '\n');
    var header := MemberHeader(INDEX_NAME, index.Length, ZERO_FIELD);
    if header.None? {
      return None;
    }
    ghost var front := MAGIC + header.value + index[..];
    assert |front| == Start(members);
    PutFront(archive, header.value, index[..]);
    var fit := PutMembers(archive, members, offsets, front);
    bytes := if fit then Some(archive[..]) else None;
  }

  method PutMembers(archive: array<char>, members: seq<ArchiveMember>, offsets: seq<nat>, ghost front: string)
    returns (fit: bool)
    requires AreNamed(members) && offsets == Offsets(members, |front|)
    requires archive.Length == MembersEnd(members, |members|, |front|)
    requires |front| <= archive.Length && archive[..] == front + Repeated('\n', archive.Length - |front|)
    modifies archive
    ensures fit <==> forall m :: m in members ==> MemberFits(m)
    ensures fit ==> archive[..] == front + MembersBytes(members, |members|)
  {
    ghost var done := front;
    for i := 0 to |members|
      invariant AllFit(members, i)
      invariant |done| == MembersEnd(members, i, |front|) <= archive.Length
      invariant done == front + MembersBytes(members, i)
      invariant archive[..] == done + Repeated('\n', archive.Length - |done|)
    {
      var fits;
      fits, done := PutMemberAt(archive, members, i, offsets[i], front, done);
      if !fits {
        assert members[i] in members;
        return false;
      }
    }
    NothingMore(done);
    fit := true;
  }

  method PutMemberAt(archive: array<char>, members: seq<ArchiveMember>, i: nat, at: nat,
                     ghost front: string, ghost done: string)
    returns (fits: bool, ghost more: string)
    requires AreNamed(members) && i < |members| && AllFit(members, i)
    requires at == |done| == MembersEnd(members, i, |front|)
    requires archive.Length == MembersEnd(members, |members|, |front|)
    requires |done| <= archive.Length && archive[..] == done + Repeated('\n', archive.Length - |done|)
    requires done == front + MembersBytes(members, i)
    modifies archive
    ensures fits <==> AllFit(members, i + 1)
    ensures fits <==> MemberFits(members[i])
    ensures fits ==>
      && |more| == MembersEnd(members, i + 1, |front|) <= archive.Length
      && more == front + MembersBytes(members, i + 1)
      && archive[..] == more + Repeated('\n', archive.Length - |more|)
  {
    EndsInOrder(members, i + 1, |front|);
    more := done;
    fits := PutMember(archive, members[i], at, done);
    if fits {
      more := done + MemberBytes(members[i]);
      OneMemberMore(members, front, i);
    }
  }

  lemma OneMemberMore(members: seq<ArchiveMember>, front: string, i: nat)
    requires i < |members| && AllFit(members, i) && MemberFits(members[i])
    ensures AllFit(members, i + 1)
    ensures front + MembersBytes(members, i) + MemberBytes(members[i]) == front + MembersBytes(members, i + 1)
  {
    OneMore(front, MembersBytes(members, i), MemberBytes(members[i]));
  }

  lemma OneMore(front: string, bytes: string, more: string)
    ensures front + bytes + more == front + (bytes + more)
  {
  }

  lemma NothingMore(s: string)
    ensures s + Repeated('\n', 0) == s
  {
  }

  lemma {:induction false} EndsInOrder(members: seq<ArchiveMember>, n: nat, start: nat)
    requires n <= |members|
    ensures MembersEnd(members, n, start) <= MembersEnd(members, |members|, start)
    decreases |members| - n
  {
    if n < |members| {
      EndsInOrder(members, n + 1, start);
    }
  }

  method PutMember(archive: array<char>, m: ArchiveMember, at: nat, ghost front: string) returns (fits: bool)
    requires IsMemberName(m.name) && at == |front| && at + MemberSize(m) <= archive.Length
    requires archive[..] == front + Repeated('\n', archive.Length - at)
    modifies archive
    ensures fits <==> MemberFits(m)
    ensures fits ==> archive[..] == front + MemberBytes(m) + Repeated('\n', archive.Length - at - MemberSize(m))
  {
    var header := MemberHeader(m.name + "/", |m.data|, MEMBER_MODE);
    if header.None? {
      return false;
    }
    PutTwo(archive, header.value, m.data, at, front);
    ghost var room := archive.Length - at - MemberSize(m);
    RepeatedSplits('\n', |m.data| % 2, room);
    assert Repeated('\n', |m.data| % 2) == Padding(|m.data|, '\n');
    fits := true;
  }

  method PutTwo(archive: array<char>, s: string, t: string, at: nat, ghost front: string)
    requires at == |front| && at + |s| + |t| <= archive.Length
    requires archive[..] == front + Repeated('\n', archive.Length - at)
    modifies archive
    ensures archive[..] == front + s + t + Repeated('\n', archive.Length - at - |s| - |t|)
  {
    PutNext(archive, s, at, front);
    PutNext(archive, t, at + |s|, front + s);
  }

  method PutNext(archive: array<char>, s: string, at: nat, ghost front: string)
    requires at == |front| && at + |s| <= archive.Length
    requires archive[..] == front + Repeated('\n', archive.Length - at)
    modifies archive
    ensures archive[..] == front + s + Repeated('\n', archive.Length - at - |s|)
  {
    ghost var room := archive.Length - at - |s|;
    RepeatedSplits('\n', |s|, room);
    PatchedMiddle(front, Repeated('\n', |s|), Repeated('\n', room), s);
    assert front + Repeated('\n', |s|) + Repeated('\n', room) == front + Repeated('\n', |s| + room);
    Set(archive, s, at);
  }

  method PutFront(archive: array<char>, header: string, index: string)
    requires |header| == HEADER_SIZE && archive.Length >= |MAGIC| + HEADER_SIZE + |index|
    requires archive[..] == Repeated('\n', archive.Length)
    modifies archive
    ensures archive[..] == MAGIC + header + index + Repeated('\n', archive.Length - |MAGIC| - HEADER_SIZE - |index|)
  {
    PutNext(archive, MAGIC, 0, []);
    PutTwo(archive, header, index, |MAGIC|, MAGIC);
  }
}
