# Verified core of the emulator and its tools

Dafny models of six parts of the repository, with proofs of what they promise. `dafny verify
dfyconfig.toml` checks all of it. Code that works by updating state is a class or a method with
loops, proved against a function of its inputs or of the state before; code made of expressions is
functions. The main results are lemmas about those functions. What fixes those functions from outside,
such as the rows of a table, the bytes of a format, the numbers of a standard and its known answers, is
written out in literals in modules of its own.

- **AVX on legacy handlers** (`Vex.dfy`, `VexRows.dfy`). A 256-bit three-operand instruction is run by a
  two-operand 128-bit handler, once per lane, on a register file whose halves are swapped in place. The
  handler is any function that may fault. The contracts give every register after the instruction, for
  every aliasing, and undo every fault.
- **Linking** (`LinkRule.dfy`, `LinkSelection.dfy`, `LinkPull.dfy`, `LinkDuplicates.dfy`,
  `LinkNeeds.dfy`). The rule of `ld --start-group`, the loop over assembled objects and the lazy loop
  that assembles a unit only once it is taken, and a simulation between the two.
- **Arithmetic** (`Bits.dfy`, `Alu.dfy`, `CarryChain.dfy`, `Shifts.dfy`, `DoubleShift.dfy`, `Bmi.dfy`,
  `Gather.dfy`, `Fma.dfy`, `Powers.dfy`, `Gf256.dfy`, `Aes.dfy`, `AesColumns.dfy`, `Ciphers.dfy`,
  `AesRounds.dfy`, `AesVectors.dfy`). Words have any width k; `Scale(m, t)` is m times 2^t, `Shr` a
  right shift and `Low(x, n)` the n low bits.
- **Process start** (`LoadArgv.dfy`, `ProcessStart.dfy`, `StartRoundTrip.dfy`, `AuxVector.dfy`). What
  the loader in C writes, what the reader in TypeScript makes of any memory, and that the one reads back
  the other.
- **Archives and expressions** (`Archive.dfy`, `ArchiveBytes.dfy`, `Evaluate.dfy`, `Meanings.dfy`).
  Writing a System V archive and reading it back; parsing and evaluating constant expressions, and
  NASM's notations for numbers.
- **File system reset** (`FileSystem.dfy`, `FileReset.dfy`). Capturing, pruning and rebuilding a tree.

Where the code does less than its documentation says, the contracts follow the code, and say when the
two agree:

- `blink-js/src/file-system.ts:57-66` says that what an earlier run changed comes back as it was. The
  permissions of links are never compared, and nodes other than directories, devices, links and files
  are not made again: `FileReset.ResetRestores` says exactly when every node comes back, and
  `FileReset.SomeNodesAreLost` shows two that do not. A program cannot bring this about with the nodes
  that are captured: `symlink` makes links with all permissions, and the calls that change permissions
  follow links (`libblink/blink/syscall.c:3653-3655`). For such trees `FileReset.CapturedComesBack`
  gives back all that was captured.
- The index of an archive holds 32-bit offsets and wraps at 4 GiB: `Archive.IndexPointsAtMembers` says
  an entry is right exactly below that, and `Archive.FarMemberIsMissed` shows one that is not.
- The index `archive.ts` writes and the one `link-selection.ts:81` calls the same differ in symbols
  without a name and in local common ones: `Archive.IndexesAgree` says exactly when they agree, and
  `Archive.LocalCommonIsNotOffered` shows an object for which they do not.

## Model

| member | source | states |
|---|---|---|
| Vex.Machine.SwapLanes | libblink/blink/avx.c:136-141 | exchanges the halves of one register and touches no other |
| Vex.Machine.KeepVex | libblink/blink/avx.c:153-162 | a register is logged with the value it has now, unless it is in the log already, which then stays as it is |
| Vex.Machine.BeginVex | libblink/blink/avx.c:294-301 | starts a log that holds exactly the named registers as they are |
| Vex.Machine.UndoVex | libblink/blink/avx.c:164-172 | when every register that differs was logged with its old value, all 32 halves are restored and the log is closed |
| Vex.Machine.CallLegacy | libblink/blink/avx.c:289-292 | the handler sees the two lanes it is bound to, and writes its result, or its partial result on a fault, to its destination only |
| Vex.Machine.Scratch | libblink/blink/avx.c:233-239 | a register that is none of the operands |
| Vex.Machine.LowPass | libblink/blink/avx.c:251-270 | the low lane's outcome is the handler's on the named sources, and the scratch register is put back; on a fault every register but the destination and the scratch one is as it was |
| Vex.Machine.HighPass | libblink/blink/avx.c:251-286 | the same for the high lane, run on swapped halves; on a fault every register not swapped is as it was |
| Vex.Machine.RunPasses | libblink/blink/avx.c:238-286 | both passes one after the other, where the touched registers are logged: the destination's lanes are the handler's, and a fault in either pass leaves all registers as they were before the first |
| Vex.Machine.OpVexAs | libblink/blink/avx.c:197-287 | for every aliasing of the operands: succeeds exactly when the encoding is defined, memory is aligned and reserved where that is needed and no lane faults; then the destination's lanes are the handler's on the sources' lanes, a 128-bit form clears the upper half and every other register is unchanged; in all other cases all registers are unchanged |
| VexRows.Arithmetic | libblink/blink/avx.c:76-114 | the packed rows of the table with vvvv: never undefined, each lane of the destination from vvvv and r/m |
| VexRows.ArithmeticOfOne | libblink/blink/avx.c:86-114 | scalar arithmetic, the rows with a general register and those without a wide form: one lane from vvvv and r/m, undefined exactly for a wide form where there is none |
| VexRows.ShiftByCount | libblink/blink/avx.c:104-107 | shifts by a count in r/m: its low lane counts for both lanes |
| VexRows.ScalarForm | libblink/blink/avx.c:77-96 | with F3 or F2, rows 51 to 53, and 10 between registers: never undefined, one lane whatever VEX.L says, from vvvv and r/m |
| VexRows.ScalarLoad | libblink/blink/avx.c:77 | 10 with F3 or F2 from memory: undefined if and only if vvvv is not zero, and merged with the destination itself |
| VexRows.TwoOperands | libblink/blink/avx.c:77-125 | the rows without vvvv, and the packed forms of 10 and 51 to 53: undefined exactly if vvvv is not zero or the form does not exist; each lane from the destination and r/m |
| VexRows.MoveHalf | libblink/blink/avx.c:79-82 | 12 and 16 of no prefix or 66: merged with vvvv, undefined exactly in the wide form and, with 66, between registers |
| VexRows.ScalarMoveBack | libblink/blink/avx.c:78 | 11 with F3 or F2 between registers: r/m gets reg merged with vvvv |
| VexRows.StoreToRegister | libblink/blink/avx.c:78-116 | the stores between registers: r/m is the destination and reg the source |
| VexRows.StoreToMemory | libblink/blink/avx.c:78-116 | the stores to memory: reg goes out lane by lane, and no register changes |
| VexRows.OnlyMemory | libblink/blink/avx.c:80-125 | the rows that must have a memory operand are undefined with a register one |
| VexRows.ToGeneral | libblink/blink/avx.c:88-118 | comparisons and moves to general registers: reg and r/m are read, and no register changes |
| Vex.Machine.OpVexShiftImm | libblink/blink/avx.c:303-331 | each lane of vvvv is the shifted lane of r/m, also when they are the same register; a fault in either lane changes nothing |
| Vex.Machine.OpVexWiden | libblink/blink/avx.c:354-394 | the lanes of the destination come from the two halves of the source's low lane, also when they are the same register; a fault leaves all registers alone, in the 128-bit form if and only if the handler wrote nothing before it, as no conversion of `libblink/blink/cvt.c:261-398` does |
| Vex.Machine.OpVexNarrow | libblink/blink/avx.c:396-430 | the halves of the destination's low lane come from the two lanes of the source, the upper lane is zero; a fault leaves all registers alone, in the 128-bit form if and only if the handler wrote nothing before it |
| LinkRule.TakeAllIsJoin | blink-js/src/link-selection.ts:51-62 | taking symbols moves every name to the maximum of where it was and the highest the symbols put it, on the chain absent, weak-undefined, undefined, common, defined |
| LinkRule.TakeAllIgnoresOrder | blink-js/src/link-selection.ts:51-62 | the table depends only on which symbols were taken, not on their order or repetition |
| LinkRule.NameStates.Take | blink-js/src/link-selection.ts:51-62 | the method computes the table the join describes |
| LinkRule.NameStates.Need | blink-js/src/link-selection.ts:66-71 | a needed name moves to the maximum of its level and that of undefined, as an undefined reference of an object would move it, and no other name moves |
| LinkRule.NameStates.Define | blink-js/src/link-selection.ts:63-65 | a defined name moves to the highest level, and no other name moves |
| LinkRule.GroupIsClosed | blink-js/src/link-selection.ts:131-144 | at the end no member left out offers a wanted name |
| LinkRule.GroupRuns | blink-js/src/link-selection.ts:131-144 | the members taken form a sequence in which each is new and wanted at its turn, and all come from the archives |
| LinkRule.RunRaises | blink-js/src/link-selection.ts:51-62 | over a whole run no name's state goes down, and each ends at least where every taken member puts it |
| LinkSelection.ScanIsSweep | blink-js/src/link-selection.ts:136-142 | reading an index entry by entry takes the members a pass member by member takes |
| LinkSelection.ReadArchive | blink-js/src/link-selection.ts:132-143 | repeats passes over one archive until one takes nothing; terminates |
| LinkSelection.SelectLinkedUnits | blink-js/src/link-selection.ts:116-146 | the nested loops terminate with exactly the units, and the table, of the group rule, which GroupIsClosed and GroupRuns describe |
| LinkSelection.TakeObjectsIgnoresOrder | blink-js/src/link-selection.ts:51-62 | the table after a list of objects depends only on which objects are in it |
| LinkSelection.TakenOffersAreSettled | blink-js/src/link-selection.ts:116-146 | every name a linked unit offers is at least common at the end, and defined if the unit really defines it |
| LinkSelection.LeftOutOffersAreUnwanted | blink-js/src/link-selection.ts:116-146 | no name an unlinked member offers is wanted at the end |
| LinkSelection.NeededNamesAreOfferedNowhere | blink-js/src/link-selection.ts:116-146 | a name still undefined at the end is offered by no object and no member of any archive |
| LinkNeeds.WantedIsNeeded | blink-js/src/link-selection.ts:72-79 | what the loops test is that a name stands at level 2, or at level 3 where the member really defines it |
| LinkNeeds.OffersAre | blink-js/src/link-selection.ts:81-93 | the names an index lists for a unit, from its symbols |
| LinkNeeds.RealDefinitionsAre | blink-js/src/link-selection.ts:95-100 | what is a real definition, from the unit's symbols |
| LinkNeeds.RunIsCalledFor | blink-js/src/link-selection.ts:102-146 | every member a run takes offers a name that a symbol taken before it refers to, not weakly, or has common where the member really defines it |
| LinkNeeds.LinkedIsNeeded | blink-js/src/link-selection.ts:102-146 | a member is linked only if it offers a name another linked unit refers to, not weakly, or has common where it really defines it, or the entry symbol: a weak reference takes nothing |
| LinkNeeds.ReferencesAreMet | blink-js/src/link-selection.ts:102-146 | a reference of a linked unit is met by a linked unit, if any unit offers the name |
| LinkNeeds.CommonsAreDefined | blink-js/src/link-selection.ts:102-146 | a common symbol of a linked unit is defined by a linked unit, if any unit offers a real definition |
| LinkNeeds.EntryIsMet | blink-js/src/link-selection.ts:47-50 | the entry symbol is met by a linked unit, if any unit offers it |
| LinkPull.PullDeclaredUnits | blink-js/src/link-selection.ts:167-211 | the lazy loop computes the group rule on declarations; its takes are a run of the rule, the assembler is called once for each declared unit of that run, at its turn and with a table that wants one of its names, and for no other; the result keeps the order of the declarations |
| LinkPull.CallsAreDue | blink-js/src/link-selection.ts:186-196 | each call a run makes is for a unit not taken before, one of whose names is wanted then, and no unit is assembled twice |
| LinkNeeds.AssembledIsNeeded | blink-js/src/link-selection.ts:186-196 | a unit is assembled only when a name it declares stands at level 2, or at level 3 where it declares it as more than common |
| LinkNeeds.PulledIsNeeded | blink-js/src/link-selection.ts:150-211 | a declared unit is taken only if it declares a name that the objects, another unit taken or what is known refers to, not weakly, or has common where it really defines it, or the entry symbol |
| LinkNeeds.PulledIsClosed | blink-js/src/link-selection.ts:150-211 | no declared unit left out declares a name still needed, nor really defines one only common |
| LinkNeeds.KnownStaysKnown | blink-js/src/link-selection.ts:161-179 | names known to be defined end defined, and those known to be needed, and the entry symbol, end needed at least |
| LinkNeeds.FailedUnitsDefine | blink-js/src/link-selection.ts:157-160 | a unit that does not assemble counts as defining all it declares |
| LinkPull.PullTakesWhatSelectTakes | blink-js/src/link-selection.ts:152-211 | when declarations list what the assembled objects index and assembly succeeds, the lazy loop takes exactly the units and members the eager loop takes and leaves every name in the same state |
| LinkDuplicates.ReportsDuplicates | blink-js/src/link-selection.ts:213-244 | a name is reported if and only if two different units define it strongly and not all definitions are absolute with one value |
| LinkDuplicates.DuplicatesAre | blink-js/src/link-selection.ts:213-219 | a name is a duplicate if and only if two different units have a strong definition of it among their symbols, and not all of them are absolute with one value |
| LinkDuplicates.StrongDuplicates | blink-js/src/link-selection.ts:218-244 | the map has exactly the duplicate names, each with the units that define it strongly, in order and once |
| Alu.Machine.Add | libblink/blink/alu.c:87-97 | the sum modulo 2^k and, for any width, CF the unsigned and OF the signed overflow, AF the carry out of bit 3, ZF, SF and the parity byte |
| Alu.Machine.Adc | libblink/blink/alu.c:175-210 | the same for a sum with the carry in, although the code adds in two steps that may each wrap |
| Alu.Machine.Sub | libblink/blink/alu.c:75-85 | the difference modulo 2^k, with CF the borrow and OF the signed overflow |
| Alu.Machine.Sbb | libblink/blink/alu.c:212-247 | the same with the borrow in |
| Alu.Machine.Inc | libblink/blink/alu.c:296-335 | the flags of adding one, but for CF, which is kept |
| Alu.Machine.Dec | libblink/blink/alu.c:286-346 | the flags of subtracting one, but for CF, which is kept |
| Alu.AddIsRight | libblink/blink/alu.c:175-210 | the code's carry, overflow and nibble formulas are the overflow of the exact sum with carry |
| Alu.SubIsRight | libblink/blink/alu.c:212-247 | the code's formulas are the overflow of the exact difference with borrow |
| CarryChain.AdditionChain | libblink/blink/alu.c:155-247 | Adc over any number of limbs, with Inc and Dec anywhere between them, computes the big sum modulo 2^(kn), and CF is its carry out |
| CarryChain.AdditionModulo | libblink/blink/alu.c:175-210 | the limbs hold the sum modulo 2^(kn), and CF is set if and only if the sum is at least that |
| CarryChain.AdditionOverflow | libblink/blink/alu.c:175-210 | OF after the top limb is the signed overflow of the whole sum |
| CarryChain.SubtractionChain | libblink/blink/alu.c:212-247 | Sbb over any number of limbs computes the big difference, and CF is its borrow |
| CarryChain.SubtractionModulo | libblink/blink/alu.c:212-247 | the limbs hold the difference modulo 2^(kn), and CF is set if and only if it is below zero |
| CarryChain.SubtractionOverflow | libblink/blink/alu.c:212-247 | OF after the top limb is the signed overflow of the whole difference |
| CarryChain.SubtractionUndoesAddition | libblink/blink/alu.c:175-247 | subtracting what was added restores every limb, and the borrow equals the carry |
| CarryChain.PlainStarts | libblink/blink/alu.c:155-173 | starting a chain with Add or Sub is starting one without a carry |
| CarryChain.Dispatch | libblink/blink/alu.c:26-39 | one operation on the machine gives the result and the flags the chain results speak of |
| CarryChain.Run | libblink/blink/alu.c:26-39 | a whole chain run on the machine has exactly the results and leaves exactly the flags that the chain results speak of |
| CarryChain.ValueIsInjective | libblink/blink/alu.c:155-247 | limbs are determined by the number they stand for |
| CarryChain.SignBit | libblink/blink/alu.c:155-247 | the sign bit of the top limb is set from half the range of the whole number up |
| Shifts.RclFormula | libblink/blink/alu.c:548-564 | the three or'ed terms, cut to the width, are the low part, the carry and the high part of the word, disjoint |
| Shifts.RclFormulaByOne | libblink/blink/alu.c:548-564 | the special case for one place gives the same |
| Shifts.RclIsRotation | libblink/blink/alu.c:548-564 | and that is CF:x rotated left by y places in k + 1 bits, with the bit that leaves in CF |
| Shifts.RcrFormula | libblink/blink/alu.c:514-530 | the same for the three terms of the right rotation |
| Shifts.RcrFormulaByOne | libblink/blink/alu.c:514-530 | and for its special case |
| Shifts.RcrIsRotation | libblink/blink/alu.c:514-530 | CF:x rotated right by y places |
| Shifts.RclBy | libblink/blink/alu.c:566-580 | the reduced count rotates like the whole masked count, for all four widths; only CF and OF change, OF to CF against the top bit |
| Shifts.RcrBy | libblink/blink/alu.c:532-546 | the same to the right, OF to the difference of the top two bits |
| Shifts.RcrUndoesRcl | libblink/blink/alu.c:514-580 | rotating back by the same count restores the word CF:x |
| Shifts.RclThenRcr | libblink/blink/alu.c:514-580 | run one after the other with the same count, the two operations leave x and every flag but OF as they were |
| Shifts.RclCountsAdd | libblink/blink/alu.c:566-580 | two rotations are one by the sum of their counts modulo k + 1 |
| Shifts.RotateRightIsLeft | libblink/blink/alu.c:514-580 | a right rotation is the left one by what is missing to a whole turn |
| DoubleShift.BsuDoubleShift | libblink/blink/alu.c:582-608 | the result is the slice of the two words' concatenation, CF the last bit shifted out of it, OF a change of sign for a shift by one; a masked count of zero changes nothing |
| DoubleShift.WidthIsPower | libblink/blink/alu.c:582-608 | the widths are 8, 16, 32 and 64 bits |
| DoubleShift.Shl | libblink/blink/alu.c:382-414 | the word times 2^b modulo 2^k with its flags, also for counts beyond the width, where CF is clear |
| DoubleShift.ShlIsShld | libblink/blink/alu.c:382-414 | a plain shift is a double one that fills with zeros |
| DoubleShift.ShiftRight | libblink/blink/alu.c:348-380 | the word shifted right with its flags, also for counts beyond the width; OF is the top bit before a shift by one, and clear otherwise |
| DoubleShift.ShrIsShrd | libblink/blink/alu.c:348-380 | a plain shift to the right is a double one that fills with zeros |
| DoubleShift.LeftShiftExact | libblink/blink/alu.c:582-608 | shifting any number of limbs left, each filled from the one below, with one more limb for what leaves, multiplies the whole number by 2^b |
| DoubleShift.LeftShift | libblink/blink/alu.c:582-608 | so the limbs hold that product modulo their width |
| DoubleShift.RightShift | libblink/blink/alu.c:582-608 | shifting any number of limbs right, the top one plainly, divides the whole number by 2^b |
| DoubleShift.ShiftLeftAll | libblink/blink/alu.c:582-608 | run on the machine from the top limb down, ended by a plain shift, a left shift by 0 < b < k leaves the number times 2^b modulo its width |
| DoubleShift.ShiftRightAll | libblink/blink/alu.c:582-608 | from the lowest limb up, ended by a plain shift, a right shift leaves the number divided by 2^b |
| Bmi.Pdep | libblink/blink/avx2.c:1394-1403 | the loop computes the recursive scatter |
| Bmi.Pext | libblink/blink/avx2.c:1405-1414 | the loop computes the recursive gather |
| Bmi.ExtractDeposited | libblink/blink/avx2.c:1394-1414 | extracting what was deposited gives x modulo 2 to the number of ones of the mask |
| Bmi.DepositExtracted | libblink/blink/avx2.c:1394-1414 | depositing what was extracted gives x and the mask |
| Bmi.DepositPlaces | libblink/blink/avx2.c:1394-1403 | place i of the result is the bit of x whose number is how many ones the mask has below i, or 0 |
| Bmi.ExtractPlaces | libblink/blink/avx2.c:1405-1414 | a selected place comes out at its rank |
| Bmi.ExtractedIsBounded | libblink/blink/avx2.c:1405-1414 | and nothing comes out above the ranks |
| Gather.OpGather | libblink/blink/avx2.c:1307-1330 | destination and mask after an attempt that stops at the first selected element it cannot read |
| Gather.FourByteElements | libblink/blink/avx2.c:1307-1329 | byte by byte, for elements of four bytes: what an attempt leaves in the destination and the mask, which the top bit of byte 3 of each element selects |
| Gather.EightByteElements | libblink/blink/avx2.c:1307-1329 | the same for elements of eight bytes and the top bit of byte 7 |
| Gather.NormalizingIsIdempotent | libblink/blink/avx2.c:1308-1315 | normalizing a normalized mask changes nothing |
| Gather.AttemptsCompose | libblink/blink/avx2.c:1307-1330 | an attempt on top of an attempt is one attempt: no element is loaded twice, none is lost |
| Gather.StopsLater | libblink/blink/avx2.c:1316-1330 | no attempt can stop before where an earlier one did |
| Gather.InterruptedGathersComplete | libblink/blink/avx2.c:1286-1330 | interrupted any number of times at any elements and restarted, it ends in the state of one uninterrupted run |
| Gather.CompletedIsFinal | libblink/blink/avx2.c:1286-1330 | a finished gather has an empty mask and running it again changes nothing |
| Fma.NearestIsNearest | libblink/blink/avx2.c:1181 | rounding is to nearest with ties to even (section 4.3.1 of IEEE 754-2019) |
| Fma.RoundsOnce | libblink/blink/avx2.c:1173-1176 | rounding to odd and then to any format at least four times coarser, denormal values included, is rounding once |
| Fma.SumToOdd | libblink/blink/avx2.c:1181-1189 | the one step on the bits, toward the residual, rounds to odd for either sign |
| Fma.ProductIsExact | libblink/blink/avx2.c:1180 | the product of two floats is a double |
| Fma.FmaF32 | libblink/blink/avx2.c:1177-1191 | the float returned is a times b plus c rounded once |
| Fma.Units | libblink/blink/avx2.c:1173-1191 | the encodings of one and two are the same values in both formats, 2^1074 and 2^1075 units |
| Fma.LeastValues | libblink/blink/avx2.c:1173-1191 | the least and the least normal number of both formats are 2^-149, 2^-1074, 2^-126 and 2^-1022 |
| Fma.ProductIsProduct | libblink/blink/avx2.c:1180 | the product that is rounded is a times b, for all a and b |
| Fma.FmaOfOne | libblink/blink/avx2.c:1177-1191 | one times x plus zero is x, bit for bit, but for the sign of a zero |
| Gf256.GfMul | libblink/blink/avx2.c:922-930 | the loop computes the field's product |
| Gf256.PartialAssociates | libblink/blink/avx2.c:922-930 | with n = 8 the product is associative |
| Gf256.MulCommutes | libblink/blink/avx2.c:922-930 | and commutative |
| Gf256.PartialAddsLeft | libblink/blink/avx2.c:922-930 | and distributes over exclusive or |
| Gf256.EightSquares | libblink/blink/avx2.c:922-930 | every element is its own 256th power |
| Gf256.HasInverse | libblink/blink/avx2.c:940-945 | a byte other than zero that k squarings lead back to, as eight do for every byte, has an inverse |
| Gf256.CommonInverse | libblink/blink/avx2.c:940-945 | and only one: the search finds it |
| Aes.InverseByTrial | libblink/blink/avx2.c:937-946 | the search ends with the inverse, and zero for zero |
| Aes.Tables.InitAes | libblink/blink/avx2.c:933-954 | the tables hold the substitution of FIPS 197 (section 5.1.1) and its inverse |
| Aes.SubstitutionsUndone | libblink/blink/avx2.c:947-951 | the two substitutions undo each other on every byte |
| AesColumns.TimesAdds | libblink/blink/avx2.c:956-972 | mixing is linear, in either direction |
| AesColumns.LinearUndone | libblink/blink/avx2.c:956-972 | linear maps of columns that undo each other on a single byte do so on every column |
| AesColumns.MixingIsUndone | libblink/blink/avx2.c:956-972 | mixing and its inverse form are linear and undo each other, in either order |
| AesRounds.MixColumns | libblink/blink/avx2.c:956-972 | the loop multiplies every column by its polynomial |
| AesVectors.MixRows | libblink/blink/avx2.c:956-972 | the bytes of each mixed column, row by row: 2, 3, 1 and 1 times, or 14, 11, 13 and 9 times, in terms of doubling |
| AesRounds.AesRound | libblink/blink/avx2.c:974-994 | substitution, row shift, mixing unless last, and the key, in either direction, also when the output is one of the inputs |
| AesRounds.SubstitutionUndone | libblink/blink/avx2.c:979-987 | the two substitutions with row shifts cancel, in either order |
| AesRounds.Aesenc | libblink/blink/avx2.c:996-999 | a step of the encrypting chain |
| AesRounds.Aesenclast | libblink/blink/avx2.c:1001-1004 | its last step |
| AesRounds.Aesdec | libblink/blink/avx2.c:1006-1009 | with a mixed key, a step of the decrypting chain |
| AesRounds.Aesdeclast | libblink/blink/avx2.c:1011-1014 | its last step |
| AesRounds.Aesimc | libblink/blink/avx2.c:1016-1019 | mixes a round key for the decrypting chain |
| Ciphers.DecryptEncrypt | libblink/blink/avx2.c:974-1019 | for every cipher whose steps can be undone, every block, any number of rounds and all keys, the chain of inverse rounds with mixed middle keys undoes the chain of rounds (section 5.3.5 of FIPS 197) |
| Ciphers.EncryptDecrypt | libblink/blink/avx2.c:974-1019 | and the other way round |
| AesRounds.RoundsAreCipher | libblink/blink/avx2.c:956-994 | rounds around any substitution and its inverse make such a cipher |
| AesRounds.AesIsCipher | libblink/blink/avx2.c:933-1019 | AES is such a cipher |
| AesRounds.AesDecrypts | libblink/blink/avx2.c:974-1019 | for every block, any number of rounds and all keys, the two chains of AES undo each other (section 5.3.5 of FIPS 197) |
| AesVectors.RoundKnown | libblink/blink/avx2.c:974-999 | the first round of the example in appendix B of FIPS 197 |
| AesVectors.KeyKnown | libblink/blink/avx2.c:956-972 | the last middle round key of appendix C.1 of FIPS 197, and its equivalent inverse |
| AesVectors.KnownAesenc | libblink/blink/avx2.c:996-999 | aesenc on buffers gives that round's result |
| AesVectors.KnownAesimc | libblink/blink/avx2.c:1016-1019 | aesimc on buffers gives that key |
| AesRounds.EncryptInPlace | libblink/blink/avx2.c:996-999 | aesenc run with each key in turn on one buffer is the chain of rounds that result speaks of |
| AesRounds.DecryptInPlace | libblink/blink/avx2.c:1006-1019 | aesdec run on one buffer with the mixed keys, from the last to the first, is the chain of inverse rounds |
| LoadArgv.Machine.PushBuffer | libblink/blink/argv.c:46-51 | bytes go right below the stack pointer, which ends at them |
| LoadArgv.Machine.PushString | libblink/blink/argv.c:53-59 | a string goes with its NUL; for a NULL nothing is pushed |
| LoadArgv.Machine.PushStrings | libblink/blink/argv.c:109-110 | the strings end up in order, and their addresses with a NULL behind them in front of the list |
| LoadArgv.Machine.Align | libblink/blink/argv.c:112-114 | lowers the stack pointer by less than 16 until the block below it is aligned |
| LoadArgv.Machine.Load | libblink/blink/argv.c:69-126 | memory from the new stack pointer to the old one holds the count, both arrays and the auxiliary vector, a gap and all strings; no other byte changed |
| AuxVector.VectorSays | libblink/blink/argv.c:88-99 | read back by Linux's numbers, types 6, 11 to 14, 17, 23, 25 and 31 each have the loader's value, once |
| AuxVector.VectorSaysOfFile | libblink/blink/argv.c:100-107 | with an entry, types 3, 4, 5 and 9 each have the file's value, once, and 7 if and only if there is a base |
| AuxVector.VectorSaysNoMore | libblink/blink/argv.c:88-107 | there is no other type, and without an entry none of the file's |
| StartBlock.StartIsAligned | libblink/blink/argv.c:112-115 | the new stack pointer is a multiple of 16 and the gap at most 15 bytes |
| ProcessStart.Reader.GetPage | blink-js/src/process-start.ts:29-38 | the cache holds what memory holds, and no page is read twice |
| ProcessStart.Reader.GetWord | blink-js/src/process-start.ts:46-50 | eight bytes, the lowest first, across pages, or an error |
| ProcessStart.Reader.GetString | blink-js/src/process-start.ts:52-64 | the search page by page finds the first NUL, and fails exactly when there is none or its page starts beyond the limit |
| ProcessStart.Reader.GetPointers | blink-js/src/process-start.ts:65-75 | the pointers before the NULL, within the limit |
| ProcessStart.Reader.ReadProcessStart | blink-js/src/process-start.ts:23-138 | what the reader returns of any memory at all, its errors included |
| StartRoundTrip.ReadsWhatWasWritten | blink-js/src/process-start.ts:23-138 | read back, a block LoadArgv wrote gives exactly its count, array addresses, strings with their lengths, AT_RANDOM, AT_EXECFN, path and end, if both arrays and every string are within the reader's limits, and an error if one is not |
| StartRoundTrip.ReadStringsAreThere | blink-js/src/process-start.ts:23-138 | memory at what the reader returns holds the program's own arguments, environment, names and random bytes, in order |
| StartRoundTrip.EndIsTop | blink-js/src/process-start.ts:124-136 | the end found is the stack pointer the loader started from, and the path is found, if and only if the path is neither empty, which the loader never writes (`libblink/blink/loader.c:731-741`), nor past the limit for a string |
| StartRoundTrip.ShortIsReadable | blink-js/src/process-start.ts:49-61 | no string of at most 256 KiB with its NUL is past the limit, wherever its pages begin |
| Archive.BigEndianRead | blink-js/src/archive.ts:64-67 | an offset is kept modulo 2^32 |
| Archive.SizesDecide | blink-js/src/archive.ts:116-119 | with valid names the only error left is a size of more than ten digits |
| Archive.WriteArchive | blink-js/src/archive.ts:40-78 | the bytes of the layout, or the error: the first invalid name, then a size that does not fit |
| Archive.ReadsBack | blink-js/src/archive.ts:40-78 | a reader of System V archives finds the same members in order, each where the one before it ends, up to the end of the file, and the index |
| ArchiveBytes.ArchiveIsText | blink-js/src/archive.ts:40-78 | every byte but the index's: the magic string, each header's fields with their widths, zeros and modes, the data and its padding |
| ArchiveBytes.IndexKnown | blink-js/src/archive.ts:56-70 | the bytes of the index of one symbol: big-endian numbers, the name with its NUL, and the padding |
| ArchiveBytes.HighestFirst | blink-js/src/archive.ts:63-66 | four bytes are read the highest first |
| ArchiveBytes.NamesAre | blink-js/src/archive.ts:20-23 | which names are valid, by their characters' codes |
| Archive.IndexPointsAtMembers | blink-js/src/archive.ts:63-70 | an index entry names a symbol of its member, whose header is at an even offset; the offset kept is that one if and only if it is below 2^32 |
| Archive.FarMemberIsMissed | blink-js/src/archive.ts:63-70 | behind a member of 4 GiB an entry does not hold its member's offset |
| Archive.SymbolsInOrder | blink-js/src/archive.ts:45-47 | the index lists symbols in the order of the members |
| Archive.ListedSymbolIsFound | blink-js/src/archive.ts:45-47 | and every one of them |
| Archive.IndexesAgree | blink-js/src/link-selection.ts:81-93 | the names the selection reads and the names the archive lists are the same if and only if every listed symbol has a name and is not local |
| Archive.LocalCommonIsNotOffered | blink-js/src/link-selection.ts:81-93 | a local common symbol is in the archive's index and not in the selection's |
| Numbers.ReadsWhatItDenotes | blink-js/src/wasm-assembler.ts:731-739 | a token reads as v if and only if one of the notations gives it that value: the notations never disagree |
| Expressions.Cursor.TakeSum | blink-js/src/wasm-assembler.ts:798-806 | from any place, the value of the sum parsed there and the place behind it, or nothing where it does not parse or has no value; terminates |
| Expressions.Cursor.TakeProduct | blink-js/src/wasm-assembler.ts:788-797 | the same for products |
| Expressions.Cursor.TakeOperand | blink-js/src/wasm-assembler.ts:776-787 | the same for operands |
| Expressions.ParseIsInverse | blink-js/src/wasm-assembler.ts:776-806 | tokens parse to a tree of the grammar if and only if they are that tree's tokens |
| Expressions.Unambiguous | blink-js/src/wasm-assembler.ts:776-806 | no two trees have the same tokens |
| Expressions.MeaningIsUnique | blink-js/src/wasm-assembler.ts:776-806 | so tokens mean at most one value |
| Expressions.Evaluate | blink-js/src/wasm-assembler.ts:749-810 | the value of the only tree the tokens spell, or the first reason that applies why there is none: unreadable, a name without a value, no tree with a value, a number past 64 bits |
| Expressions.WrittenMeansValue | blink-js/src/wasm-assembler.ts:750-810 | the tokens of any expression tree, with parentheses only where grouping needs them, mean its value, and nothing where it has none |
| Meanings.SumsGroup | blink-js/src/wasm-assembler.ts:797-805 | sums and differences group to the left |
| Meanings.ProductsMean | blink-js/src/wasm-assembler.ts:787-796 | products bind closer than sums |
| Meanings.ParenthesesMean | blink-js/src/wasm-assembler.ts:776-779 | parentheses bind closest |
| Meanings.QuotientsMean | blink-js/src/wasm-assembler.ts:787-796 | a quotient is of the low 64 bits, unsigned, and means nothing if and only if those of the divisor are zero |
| Meanings.QuotientsGroup | blink-js/src/wasm-assembler.ts:787-796 | quotients and products group to the left |
| Meanings.SignsMean | blink-js/src/wasm-assembler.ts:781-784 | minus, plus and complement |
| Meanings.EvaluateDistance | blink-js/src/wasm-assembler.ts:750-810 | the dollar sign is the place given and a name its value, or that it has none |
| Numbers.DecimalIsRead | blink-js/src/wasm-assembler.ts:731-739 | a number in decimal digits reads as itself |
| Meanings.BinaryIsRead | blink-js/src/wasm-assembler.ts:725-739 | digits behind 0b or 0y, or before b or y, are binary |
| Meanings.OctalIsRead | blink-js/src/wasm-assembler.ts:725-739 | o and q are octal |
| Meanings.DecimalLetterIsRead | blink-js/src/wasm-assembler.ts:725-739 | d and t are decimal |
| Meanings.HexadecimalIsRead | blink-js/src/wasm-assembler.ts:725-739 | h and x are hexadecimal |
| Meanings.DigitsAre | blink-js/src/wasm-assembler.ts:731-739 | the values of all digits |
| Meanings.UnderscoresAreDropped | blink-js/src/wasm-assembler.ts:731-739 | underscores do not count, and nothing else is dropped |
| Expressions.EvaluateWritten | blink-js/src/wasm-assembler.ts:750-810 | any expression tree, printed with its numbers in decimal and evaluated, gives its value; it is invalid if and only if it has none, for a division by zero, and otherwise too large if and only if a literal is past the largest address |
| FileTree.FileSystem.Create | blink-js/src/file-system.ts:95-104 | a creation is legal only for a free name in an unmounted directory |
| FileReset.CaptureSkeleton | blink-js/src/file-system.ts:41-55 | the entries are exactly the nodes under the three roots, parents before children, and nothing is changed |
| FileReset.ReadContent | blink-js/src/file-system.ts:136-145 | reading an unreadable file leaves its permissions as they were |
| FileReset.RemoveTree | blink-js/src/file-system.ts:155-168 | removes a node and all below it and nothing else; a mount point stays |
| FileReset.Prune | blink-js/src/file-system.ts:72-93 | below a directory, exactly the nodes all of whose ancestors and themselves match the skeleton stay, with its permissions |
| FileReset.Rebuild | blink-js/src/file-system.ts:95-104 | makes what is missing; every creation finds its directory |
| FileReset.ResetFileSystem | blink-js/src/file-system.ts:67-107 | from any tree, the tree the goal function gives at every path, a mounted working directory kept, and the working directory current |
| FileReset.ResetIsSkeleton | blink-js/src/file-system.ts:57-66 | that goal is exactly the skeleton, root and working directory, where a link keeps the survivor's permissions or gets 0777, and a special node is there only if it survived |
| FileReset.ComesBackExactly | blink-js/src/file-system.ts:57-107 | a path ends as it was captured if and only if, when that is a special node, it survived, and, when it is a link, its permissions are those of the survivor, or 0777 where none survived |
| FileReset.ResetRestores | blink-js/src/file-system.ts:57-107 | the whole tree outside root and working directory is the skeleton if and only if that holds of every captured path |
| FileReset.SkeletonOutlivesMount | blink-js/src/blink-runtime.ts:1804-1824 | a captured skeleton stays one when something is mounted at the working directory afterwards, or taken away from there |
| FileReset.CapturedComesBack | blink-js/src/file-system.ts:41-107 | after a capture, any change of the tree, a mount at the working directory or none, and a reset, every path is as it was captured or empty, and the working directory fresh, or the mounted one untouched, when links have permissions 0777 and nothing special was captured |
| FileReset.ResetForProgram | blink-js/src/blink-runtime.ts:1733 | each program start resets with the skeleton captured when the module was made, and finds that tree |
| FileReset.SomeNodesAreLost | blink-js/src/file-system.ts:94-104 | a removed link with other permissions comes back with 0777, and a removed pipe not at all |
| FileReset.ResetTwice | blink-js/src/file-system.ts:67-107 | a second reset changes nothing |

## Left out

- The legacy SSE handlers, instruction decoding, address computation and memory reservation: a handler is any function, and a memory operand either was reserved or faults.
- Vex.Machine.OpVexAs: the opcode tables `kVexLegacy`, `VexW0` and `NativeOp` are lookup data; the attributes are parameters, with the two combinations the tables never have excluded (`WellFormed`).
- `OpVexMask`, `OpVzero` and the other small VEX forms: they would only add easy members.
- ELF parsing: an object is its list of symbols. Host calls, the asynchronous side of assembling, and messages.
- LinkPull.PullTakesWhatSelectTakes: stated for no known names and for assembly that succeeds, as the two loops are only meant to agree then; `PullDeclaredUnits` covers both.
- The logical operations, Neg, Sar, Rol and Ror of alu.c: like the ones modelled, but easier.
- DoubleShift.BsuDoubleShift: needs a masked count within the width and a second operand of that width; beyond, C leaves the shifts undefined.
- Fma.FmaF32: finite values without an upper bound on the exponent, the sign of an exact zero not distinguished, and the residual taken as exact instead of computed by TwoSum.
- Gather.OpGather: the three registers differ, as the code demands, and the index register is inside the job; address arithmetic is not part of this model.
- Aeskeygenassist, the string compares and the other kernels of avx2.c.
- LoadArgv.Machine.Load: where memory is missing the loader aborts, so its presence is a precondition.
- ProcessStart.Reader.ReadProcessStart: every error is the same None; which message is thrown is not part of this model.
- Archive.ReadsBack: for names without a NUL, as in every ELF string table, and fewer than 2^32 symbols, the most the count can say.
- Text encoding: a byte of a name or of data is the character with its code.
- Expressions.Evaluate: starts from the scanner's lexemes; the scanner's regular expression is not part of this model.
- FileTree.FileSystem.Create: what the host's creation calls drop from the mode they are given, or add to it, is not part of this model.
- FileReset.ResetFileSystem: mounts only at the working directory and at directories of the skeleton; no permission checks, hard links, open descriptors or process mask.
