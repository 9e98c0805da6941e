/** The bytes of an archive, written out (blink-js/src/archive.ts; System V ABI edition 4.1, chapter 7). */
module ArchiveBytes {

  import opened Numbers
  import opened Archive

  function Blanks(n: nat): string {
    seq(n, i => ' ')
  }

  lemma {:induction false} SpacesAreBlanks(n: nat)
    ensures Spaces(n) == Blanks(n)
  {
    if n > 0 {
      SpacesAreBlanks(n - 1);
      assert Blanks(n) == Blanks(n - 1) + [' '];
    }
  }

  /** A header: 16 characters for the name, 12 for the date, 6 each for owner and group, 8 for the mode, 10 for the size. */
  function HeaderText(name: string, mode: string, size: string): string
    requires |name| <= 16 && |mode| <= 8 && |size| <= 10
  {
    name + Blanks(16 - |name|) + "0" + Blanks(11) + "0" + Blanks(5) + "0" + Blanks(5) + mode + Blanks(8 - |mode|)
    + size + Blanks(10 - |size|) + "`\n"
  }

  lemma FieldsInOrder(a: string, a': string, b: string, b': string, c: string, c': string, d: string, d': string,
                      e: string, e': string, f: string, f': string, g: string)
    ensures (a + a') + ((b + b') + (c + c') + (d + d') + (e + e')) + (f + f') + g
         == a + a' + b + b' + c + c' + d + d' + e + e' + f + f' + g
  {
  }

  lemma FieldIsText(value: string, width: nat)
    requires |value| <= width
    ensures Field(value, width) == value + Blanks(width - |value|)
  {
    SpacesAreBlanks(width - |value|);
  }

  lemma {:induction false} HeaderIsText(name: string, size: nat, mode: string)
    requires FitsHeader(name, size) && |mode| <= 8
    ensures Header(name, size, mode) == HeaderText(name, mode, Decimal(size))
  {
    var digits := Decimal(size);
    FieldIsText(name, 16);
    FieldIsText("0", 12);
    FieldIsText("0", 6);
    FieldIsText(mode, 8);
    FieldIsText(digits, 10);
    FieldsInOrder(name, Blanks(16 - |name|), "0", Blanks(11), "0", Blanks(5), "0", Blanks(5), mode, Blanks(8 - |mode|),
                  digits, Blanks(10 - |digits|), "`\n");
  }

  /** A member: its name with a slash behind it, mode 644, its size, and its data to an even end. */
  function MemberText(m: ArchiveMember): string
    requires |m.name| <= 15 && |Decimal(|m.data|)| <= 10
  {
    HeaderText(m.name + "/", "644", Decimal(|m.data|)) + m.data + if |m.data| % 2 == 1 then "\n" else ""
  }

  lemma MemberIsText(m: ArchiveMember)
    requires MemberFits(m)
    ensures MemberBytes(m) == MemberText(m)
  {
    HeaderIsText(m.name + "/", |m.data|, "644");
  }

  predicate HaveRoom(members: seq<ArchiveMember>) {
    forall m :: m in members ==> |m.name| <= 15 && |Decimal(|m.data|)| <= 10
  }

  function MembersText(members: seq<ArchiveMember>, n: nat): string
    requires n <= |members| && HaveRoom(members)
  {
    if n == 0 then "" else MembersText(members, n - 1) + MemberText(members[n - 1])
  }

  lemma {:induction false} MembersAreText(members: seq<ArchiveMember>, n: nat)
    requires n <= |members| && AllFit(members, n) && HaveRoom(members)
    ensures MembersBytes(members, n) == MembersText(members, n)
  {
    if n > 0 {
      MembersAreText(members, n - 1);
      MemberIsText(members[n - 1]);
    }
  }

  /** The whole archive: the magic string, the index as a member named with a slash and mode zero, and the members. */
  lemma {:induction false} ArchiveIsText(members: seq<ArchiveMember>)
    requires IsValid(members)
    ensures HaveRoom(members) && |Decimal(|IndexOfArchive(members)|)| <= 10
    ensures Laid(members) == "!<arch>\n" + HeaderText("/", "0", Decimal(|IndexOfArchive(members)|)) + IndexOfArchive(members)
                             + MembersText(members, |members|)
  {
    HeaderIsText("/", |IndexOfArchive(members)|, "0");
    MembersAreText(members, |members|);
  }

  /** The number four bytes spell, the highest first. */
  lemma HighestFirst(s: string)
    requires |s| == 4
    ensures FromBigEndian(s) == 0x100_0000 * (s[0] as nat) + 0x1_0000 * (s[1] as nat) + 0x100 * (s[2] as nat) + s[3] as nat
  {
  }

  /** An index of one symbol: the count, an offset, the name with its NUL, and a NUL to an even end. */
  lemma IndexKnown(symbols: seq<Listed>, offsets: seq<nat>)
    requires symbols == [Listed("main", 0)] && offsets == [82]
    ensures InRange(symbols, offsets)
    ensures Index(symbols, offsets) == ("\0\0\0" + [1 as char]) + "\0\0\0R" + "main\0" + "\0"
  {
    var none: seq<Listed> := [];
    assert symbols[..0] == none && symbols[0] == Listed("main", 0);
    assert NamesBlock(symbols) == NamesBlock(none) + "main" + ['\0'] && NamesLength(symbols) == 5;
    assert BigEndian(1) == "\0\0\0" + [1 as char] && BigEndian(82) == "\0\0\0R";
    assert OffsetsBlock(symbols, offsets) == OffsetsBlock(none, offsets) + BigEndian(82);
  }

  /** The names a member can have: one to fifteen printable characters, neither a space nor a slash. */
  lemma NamesAre(name: string)
    ensures IsMemberName(name) <==>
      1 <= |name| <= 15 && forall c :: c in name ==> 0x21 <= c as nat <= 0x2e || 0x30 <= c as nat <= 0x7e
  {
    forall c | c in name
      ensures '!' <= c <= '~' && c != '/' <==> 0x21 <= c as nat <= 0x2e || 0x30 <= c as nat <= 0x7e
    {
      assert '/' as nat == 0x2f;
    }
  }
}
