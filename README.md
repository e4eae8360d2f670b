# RISC-V teaching interpreter, modelled in Dafny

`RiscVInterpreter` takes the text of a small RISC-V assembly program. Its
constructor does the whole job:

- It splits the program into trimmed lines and strips the `#` comments and
  empty lines.
- It records the `.equiv NAME, VALUE` definitions and substitutes them
  textually.
- It lays out the data segment. `.word` stores a number or a label's
  address, and `.string` stores ASCII packed little-endian. Data starts at
  `0x10000000`, and code labels take 4-byte slots from address 0.
- It collects the instruction list.
- It runs the program from `pc` 0 with a 300000-cycle watchdog.

Registers are a map from names to Java `Integer`s, and memory is a sparse
map from word addresses to words. `ecall` appends its output to a
`StringBuilder`. The object's final state, including `worked`, is the
observable result.

The model follows the source's own structure.

- `Word32` holds Java `int` arithmetic written out: wrap-around, truncated
  `/` and `%`, shifts, and byte lanes.
- `Text` holds the Java string operations the interpreter relies on
  (`indexOf`, `split`, `trim`, `Integer.parseInt`, the decimal-literal
  pattern, and Ant's `StringUtils.replace`).
- `Faults` holds the runtime exceptions that end a run, as a `Result`.
- `Preprocessor` covers `removeComments` and `makeEquivs`.
- `Loader` covers `data`, `makeData`, `setMainGlobals` and
  `makeInstructionList`.
- `Decoder` covers `processInstruction`.
- `Engine` covers `runProgram`, `ecall` and `getUnsignedInt`.

Each of these is a set of pure specification functions with the lemmas
proved about them. `Interpreter.RiscVInterpreter` is the object itself. Its
fields are updated in place by methods that mirror the Java methods loop for
loop, and each method is proved to compute exactly what its specification
function says.

Java's `null` is kept. A register or memory cell may hold `None`, and only
unboxing it raises a fault. A Java exception becomes a `Fault` value,
recorded in the object's `fault` field.

## Model

| member | source | states |
|---|---|---|
| Word32.Wrap | RiscVInterpreter.java:328-330 | Java `int` arithmetic keeps the exact result modulo 2^32, and leaves a result that fits an `int` unchanged |
| Word32.Unsigned | RiscVInterpreter.java:265-267 | `getUnsignedInt` lies in [0, 2^32) and wraps back to its argument; it is `x` for a non-negative `x` and `x + 2^32` for a negative one |
| Word32.Rem | RiscVInterpreter.java:499-500 | Java's `%`: dividend = quotient × divisor + remainder, the remainder is smaller than the divisor in magnitude, and a nonzero remainder has the dividend's sign |
| Word32.AlignDown | RiscVInterpreter.java:463 | `(a >> 2) << 2` is `a` minus its remainder by 4 |
| Word32.QuarterShift | RiscVInterpreter.java:463 | `a >> 2` is `a / 4` rounded down |
| Word32.FourTimes | RiscVInterpreter.java:463 | shifting a quarter-int left by 2 multiplies it by 4 without wrapping |
| Word32.LaneIndex | RiscVInterpreter.java:469 | `a & 0x3` is between 0 and 3, and added to the aligned word address gives `a` back |
| Word32.LaneDigits | RiscVInterpreter.java:464-468 | the little-endian `ByteBuffer` bytes of a word are its base-256 digits, least significant first |
| Word32.PackLanes | RiscVInterpreter.java:486-488 | `getInt` of four bytes, split back into bytes, gives those four bytes |
| Word32.LanesPack | RiscVInterpreter.java:481-488 | a word split into bytes and packed again is the same word |
| Word32.SetLaneLanes | RiscVInterpreter.java:485 | replacing byte `k` of a word sets that byte and keeps the other three |
| Word32.SetLaneSame | RiscVInterpreter.java:485 | writing a word's own byte back leaves the word unchanged |
| Word32.SignExtend | RiscVInterpreter.java:469 | `(int)` of a `byte` lies in [-128, 128) |
| Word32.SignExtendLowByte | RiscVInterpreter.java:469-473 | `(byte)` then `(int)` keeps the low byte, and is the identity on values in [-128, 128) |
| Word32.ShiftByteLanes | RiscVInterpreter.java:292 | `value >> 8` moves each byte of the word down one place and fills the top byte with the sign |
| Word32.ShiftedLane | RiscVInterpreter.java:287-292 | after `k` shifts by 8, the low byte is byte `k` of the original word |
| Word32.CounterStep | RiscVInterpreter.java:283-290 | the `int` counter of `ecall` 4 is the exact count wrapped, and it is divisible by 4 exactly when the exact count is |
| Text.IndexOf | RiscVInterpreter.java:233 | `indexOf` is -1 exactly when the element is absent, and otherwise a position holding it |
| Text.IndexOfFirst | RiscVInterpreter.java:233 | no position before `indexOf`'s result holds the element |
| Text.LastIndexOf | RiscVInterpreter.java:187-188 | `lastIndexOf` is -1 exactly when the element is absent, and otherwise a position holding it with no later position holding it |
| Text.Find | RiscVInterpreter.java:536-537 | the search behind `contains` and `StringUtils.replace`: the first occurrence of `t` at or after `from`, or -1 when there is none |
| Text.TrimStartSuffix | RiscVInterpreter.java:60 | trimming the front removes exactly the leading characters up to U+0020 |
| Text.TrimEndPrefix | RiscVInterpreter.java:60 | trimming the back removes exactly the trailing characters up to U+0020 |
| Text.TrimPiece | RiscVInterpreter.java:58-62 | `trim` keeps a contiguous piece that starts and ends with a non-blank character |
| Text.Pieces | RiscVInterpreter.java:58 | splitting always gives at least one piece, and a string without the separator is its own single piece |
| Text.DropTrailingEmpty | RiscVInterpreter.java:58 | `split` drops exactly the trailing empty pieces, and the last piece it keeps is non-empty |
| Text.Split | RiscVInterpreter.java:531 | a string without the separator splits into itself |
| Text.SplitTwo | RiscVInterpreter.java:151 | two separator-free pieces around one separator split into exactly those two |
| Text.SplitThree | RiscVInterpreter.java:105 | three separator-free pieces around two separators split into exactly those three |
| Text.PiecesFront | RiscVInterpreter.java:58 | a separator-free prefix followed by the separator comes off as the first piece |
| Text.ReplaceAll | RiscVInterpreter.java:123 | `StringUtils.replace` leaves a string that does not contain the key unchanged |
| Text.ReplaceBySelf | RiscVInterpreter.java:123 | replacing a name by itself changes nothing |
| Text.RemoveCommasDrops | RiscVInterpreter.java:536-542 | removing commas deletes every comma and keeps every other character in order |
| Text.ParseInt | RiscVInterpreter.java:152-153 | `Integer.parseInt` succeeds only on non-empty text, and on a decimal literal gives the signed value of its digits |
| Text.ParseUnsigned | RiscVInterpreter.java:152-153 | digits whose value fits an `int` parse to that value |
| Text.ParseNegative | RiscVInterpreter.java:560 | a minus sign before digits worth at most 2^31 parses to the negated value |
| Text.DecimalRoundTrip | RiscVInterpreter.java:152-153 | `Integer.parseInt` reads back what `Integer.toString` writes |
| Text.DecimalIsLiteral | RiscVInterpreter.java:152 | what `Integer.toString` writes matches `-?(0\|[1-9]\d*)` |
| Text.NatDigitsValue | RiscVInterpreter.java:273 | the decimal digits of `n` are worth `n` |
| Text.NonDigitNotLiteral | RiscVInterpreter.java:556 | a non-digit after the first character rules out the decimal-literal pattern |
| Faults.ErrorOf | RiscVInterpreter.java:36-76 | a phase leaves no exception exactly when it finishes normally |
| Preprocessor.StripComment | RiscVInterpreter.java:232-236 | a cleaned line holds no `#`, and a line without `#` is left as it is |
| Preprocessor.StripEachAt | RiscVInterpreter.java:231-240 | line `k` after the first loop of `removeComments` is line `k` cleaned |
| Preprocessor.StripCommentsClean | RiscVInterpreter.java:229-246 | no line `removeComments` keeps is empty or holds a `#` |
| Preprocessor.Where | RiscVInterpreter.java:237-239 | the collected indices are ascending and in range, and include exactly the positions whose line satisfies the test |
| Preprocessor.OmitOneMore | RiscVInterpreter.java:242-245 | removing one more index below all the others deletes exactly that element of the previous result |
| Preprocessor.OmitWhere | RiscVInterpreter.java:241-245 | removing the collected indices from the highest down leaves exactly the lines that fail the test, in their original order |
| Preprocessor.WithoutAt | RiscVInterpreter.java:229-246 | every kept line fails the test and comes from the input |
| Preprocessor.Put | RiscVInterpreter.java:107 | `HashMap.put` maps the name to the value and changes no other name |
| Preprocessor.EquivTable | RiscVInterpreter.java:102-110 | the collected table has each name at most once |
| Preprocessor.EquivEntryFields | RiscVInterpreter.java:105-107 | a definition is recorded exactly when it has at least three fields and a non-empty second field; the name is that field minus its last character, and the value is the third field |
| Preprocessor.EquivTableFails | RiscVInterpreter.java:102-110 | collecting fails exactly when some `.equiv` line is malformed |
| Preprocessor.LastDefinitionWins | RiscVInterpreter.java:102-110 | each name ends bound to the value of its last definition |
| Preprocessor.Expand | RiscVInterpreter.java:119-121 | `.string` lines are left untouched by substitution |
| Preprocessor.ExpandAll | RiscVInterpreter.java:117-126 | substitution keeps the line count, and each line is expanded independently |
| Preprocessor.SubstituteUnmentioned | RiscVInterpreter.java:122-124 | a line mentioning no name comes out of substitution unchanged |
| Preprocessor.ApplyEquivsShape | RiscVInterpreter.java:98-127 | `makeEquivs` records the collected table, drops the definition lines, keeps the count of the others, and keeps `.string` lines unchanged |
| Preprocessor.ApplyEquivsNoDefinitionLeft | RiscVInterpreter.java:98-127 | when no value starts with a character of `.equiv`, no remaining line starts with `.equiv` |
| Preprocessor.DefinitionSurvives | RiscVInterpreter.java:111-126 | substitution can create a line starting with `.equiv`: after `.equiv K, .equiv`, a line `K` becomes `.equiv` and stays in the list |
| Loader.Store | RiscVInterpreter.java:154-159 | a stored word moves `address` on by one word and binds no label |
| Loader.Ascii | RiscVInterpreter.java:167 | `getBytes(US_ASCII)` gives one byte per character, the character's code when it is ASCII |
| Loader.Padded | RiscVInterpreter.java:168-172 | a literal of `n` bytes is followed by 1 to 4 zero bytes, to a whole number of words |
| Loader.PackStringLayout | RiscVInterpreter.java:163-181 | a literal of `n` characters takes `n / 4 + 1` words; byte `k` sits in lane `k % 4` of word `k / 4`, and every byte after the literal is 0 |
| Loader.WordsLanes | RiscVInterpreter.java:174-180 | byte `k` of the padded bytes is lane `k % 4` of word `k / 4` |
| Loader.StoreWords | RiscVInterpreter.java:176-180 | storing `n` words keeps the labels and moves `address` on by `n` words |
| Loader.StoreWordsPlaces | RiscVInterpreter.java:176-180 | in a run of at most 2^30 words, word `k` ends up at `address + 4k` |
| Loader.StoreWordsFrame | RiscVInterpreter.java:176-180 | storing words leaves every address it does not write unchanged |
| Loader.Literal | RiscVInterpreter.java:164-166 | a literal exists exactly when the first double quote comes before the last |
| Loader.WordLineLayout | RiscVInterpreter.java:150-160 | a `.word` line always moves `address` on by one word and binds no label |
| Loader.StringLineLayout | RiscVInterpreter.java:163-181 | a `.string` line moves `address` on by `n / 4 + 1` words for an `n`-character literal and binds no label |
| Loader.DataLineLayout | RiscVInterpreter.java:140-182 | a data line moves `address` on by its word count, and a label line binds its label to the current address |
| Loader.WordLiteral | RiscVInterpreter.java:150-159 | `.word n` stores `n` at the current address and moves on one word |
| Loader.WordLabel | RiscVInterpreter.java:155-159 | `.word x` with a known label `x` stores the label's address |
| Loader.PassLayout | RiscVInterpreter.java:189-199 | a pass ends at the address its lines' word counts give, and adds exactly one binding per label line, at the address reached before it |
| Loader.PassStops | RiscVInterpreter.java:207-209 | an exception ends the pass with that exception |
| Loader.CodePassLayout | RiscVInterpreter.java:185-200 | `setMainGlobals` binds each code label to 4 × the number of advancing lines before it, and ends 4 bytes past the last of them |
| Loader.CodeEndCounts | RiscVInterpreter.java:194-198 | the code pass reaches one word per advancing line |
| Loader.InstructionList | RiscVInterpreter.java:249-262 | `subList` succeeds exactly when `.globl main` is found no later than the last `.data` |
| Loader.ListedIn | RiscVInterpreter.java:253-260 | every listed line is neither a directive nor a label line |
| Loader.LayoutMatchesList | RiscVInterpreter.java:253-260 | when every code line has at least 4 characters and none starts with `#`, the label layout counts exactly the listed instructions |
| Loader.ShortLineDesyncs | RiscVInterpreter.java:194-197 | a short instruction such as `j x` is listed but takes no slot, so the label after it points at the wrong instruction |
| Loader.DesyncListed | RiscVInterpreter.java:249-262 | both instructions of that example are listed |
| Loader.DataRegionLayout | RiscVInterpreter.java:203-213 | with the data segment last, a data pass is the loop from the last `.data` to the end, and lays that region out from its start address |
| Loader.FirstRegionLayout | RiscVInterpreter.java:204-209 | the first data loop of `makeData`, from the first `.data` up to the first `.text`, lays that region out and adds its labels; an empty region changes nothing |
| Loader.DataPassesLayout | RiscVInterpreter.java:203-213 | for any order of segments, a data pass lays out the lines from the first `.data` to the first `.text`, then those from the last `.data` to the end on from where the first region stopped, and adds the labels of both regions |
| Loader.SecondPassKeepsLabels | RiscVInterpreter.java:217-225 | when the data segment comes last and no label is bound in both regions, the second data pass of `makeData` binds no label the first two passes had not already bound to the same address |
| Loader.SecondPassAt | RiscVInterpreter.java:217-225 | when the data segment comes last, the second data pass reaches every data line at its laid-out address, knowing every label of the earlier passes |
| Loader.LoadDataWordLiteral | RiscVInterpreter.java:217-225 | when the data segment comes last, `.word n` stores `n` at that line's slot in the final pass |
| Loader.LoadDataForward | RiscVInterpreter.java:203-226 | when the data segment comes last, a `.word x` naming a label defined later in the data region stores that label's address, and the final table binds `x` to it |
| Loader.LoadDataForwardKept | RiscVInterpreter.java:203-226 | when the data segment comes last, that forward reference is still in memory when `makeData` returns |
| Loader.LoadDataWordLiteralKept | RiscVInterpreter.java:203-226 | when the data segment comes last, a `.word n` of the data region is still `n` in memory when `makeData` returns |
| Loader.KeptToEnd | RiscVInterpreter.java:217-225 | when the data segment comes last, a one-word line's store survives the rest of the final pass |
| Loader.LoadDataSettles | RiscVInterpreter.java:203-226 | when the data segment comes last and no label is bound in both regions, another data pass from `0x10000000` over what `makeData` built changes neither the labels nor the memory |
| Loader.DataPassAgain | RiscVInterpreter.java:217-225 | when the data segment comes last, a data pass that binds no new label gives the same result when run again over its own output |
| Loader.PassFrame | RiscVInterpreter.java:207-209 | a pass writes only the slots its lines take |
| Loader.DataPassUnder | RiscVInterpreter.java:140-182 | a data pass never reads memory, so it behaves the same over any memory underneath |
| Decoder.Number | RiscVInterpreter.java:556-561 | `Integer.parseInt` succeeds exactly when the text parses, and otherwise raises `NumberFormatException` for that text |
| Decoder.OffsetAdds | RiscVInterpreter.java:555-566 | `a+b` with unsigned `a` and `b` is their sum, wrapped |
| Decoder.OffsetSubtracts | RiscVInterpreter.java:555-566 | `a-b` is their difference, wrapped |
| Decoder.OffsetSignSubtracts | RiscVInterpreter.java:559-563 | `-a+b` is split at the `+`, but the `-` it holds makes it `-a - b` |
| Decoder.SumAtNumbers | RiscVInterpreter.java:559-566 | two numbers around the split are subtracted when the token holds a `-` anywhere, and added otherwise |
| Decoder.PlainSum | RiscVInterpreter.java:559-566 | a token with one sign between two unsigned numbers is their sum or difference |
| Decoder.OffsetTwoMinusFails | RiscVInterpreter.java:559-560 | with two minus signs the split is at the leading one, and parsing the empty text before it raises an exception |
| Decoder.ImmediateLiteral | RiscVInterpreter.java:543-545 | a literal token sets `imm` exactly when it fits an `int` |
| Decoder.PlainOperand2 | RiscVInterpreter.java:539-550 | a token without a parenthesis sets `reg1` if it names a register and `label` otherwise, never both, and never touches `regTo` or `reg2` |
| Decoder.AddressingOperand2 | RiscVInterpreter.java:551-570 | an `off(reg)` token sets `reg1` to the text between the parentheses and `imm` to the offset |
| Decoder.Operand2Frame | RiscVInterpreter.java:539-571 | the second operand never touches `regTo` or `reg2` |
| Decoder.EcallKeepsFields | RiscVInterpreter.java:533-535 | `ecall` returns before touching any field |
| Decoder.StaleFields | RiscVInterpreter.java:536-595 | `regTo` is the first operand; fields that no operand reaches keep their earlier values |
| Decoder.JalLabel | RiscVInterpreter.java:585-591 | `jal` jumps to its first operand, or to its second when the first names a register |
| Engine.Reg | RiscVInterpreter.java:329 | unboxing `regs.get` succeeds exactly when it is not `null`, and gives the stored value |
| Engine.JumpTarget | RiscVInterpreter.java:333 | `labels.get(label) - 4` succeeds exactly when the label is known |
| Engine.TargetThenAdvance | RiscVInterpreter.java:333 | `labels.get(label) - 4` followed by `pc += 4` is the label's address |
| Engine.JumpLandsOnLabel | RiscVInterpreter.java:331-334 | `j` and `jal` continue exactly at their label's address |
| Engine.BranchLandsOnLabel | RiscVInterpreter.java:363-422 | a taken branch continues at its label, an untaken one at the next instruction, and a branch changes nothing else |
| Engine.LinkRegister | RiscVInterpreter.java:331-332 | `jal` and `jalr` leave the old `pc + 4` in `ra` and leave memory alone |
| Engine.RegisterJump | RiscVInterpreter.java:423-447 | `jr` and `jalr` go to the address in their register, which `jalr ra` has just overwritten |
| Engine.StraightLine | RiscVInterpreter.java:324-503 | arithmetic instructions fall through and write only `regTo` |
| Engine.AccessFallsThrough | RiscVInterpreter.java:341-490 | memory instructions fall through; `lw` writes only `regTo`, with the word stored at its key, `lb` only `regTo`, with the sign-extended byte at its address; `sw` writes only that key of memory, with `regTo`'s value, and `sb` only the memory, with `regTo`'s low byte at its address |
| Engine.AccessStepEffects | RiscVInterpreter.java:341-490 | what each memory instruction changes before `pc` moves on: the register `regTo` of a load, with the word at its key or the byte at its address, and the memory of a store, with `regTo`'s value at that key or its low byte at that address, and nothing else |
| Engine.RemNeverTraps | RiscVInterpreter.java:491-503 | `rem` never traps: divisor 0 gives 0, `MIN_VALUE % -1` gives 0, and any other divisor gives the truncated remainder |
| Engine.UnsignedOrder | RiscVInterpreter.java:383-392 | the unsigned comparison of `bltu`/`bgeu` agrees with the signed order when the signs agree, and otherwise puts the non-negative value first |
| Engine.StoreThenLoadByte | RiscVInterpreter.java:460-490 | `lb` after `sb` at the same address reads the stored low byte, sign-extended |
| Engine.StoreByteLane | RiscVInterpreter.java:472-490 | `sb` fails only on a word holding `null`; otherwise it changes only lane `addr & 3` of the aligned word, and an absent word counts as 0 |
| Engine.LoadThenStoreByte | RiscVInterpreter.java:460-490 | `sb` of the byte `lb` just read leaves memory unchanged |
| Engine.StoreByteKeepsNeighbours | RiscVInterpreter.java:460-490 | `lb` at another byte of the same word after `sb` reads what was there before, or 0 |
| Engine.StoreByteInto | RiscVInterpreter.java:476-490 | `sb` into a written word rewrites that word's lane and nothing else |
| Engine.StoreByteFresh | RiscVInterpreter.java:478-490 | `sb` into an unwritten word rewrites a lane of 0 |
| Engine.Then | RiscVInterpreter.java:288 | appended text comes before the rest, and a fault passes through |
| Engine.PrintFromEnd | RiscVInterpreter.java:284-286 | at a zero byte, `ecall` 4 stops |
| Engine.PrintFromStep | RiscVInterpreter.java:287-293 | at a nonzero byte, `ecall` 4 prints it and goes on with the next byte |
| Engine.PrintFromHolds | RiscVInterpreter.java:278-295 | from byte `n`, the loop prints `s[n..]` exactly when those bytes are nonzero and stored and a zero byte follows them |
| Engine.PrintStringHolds | RiscVInterpreter.java:278-295 | `ecall` 4 prints `s` exactly when `s` is stored byte by byte from `a1` and followed by a zero byte |
| Engine.PrintPackedString | RiscVInterpreter.java:278-295 | a `.string` literal of nonzero ASCII characters is printed back by `ecall` 4 when `a1` holds its address |
| Engine.EcallEffects | RiscVInterpreter.java:270-311 | `ecall` writes no memory, writes only `a0 = 0x10008000` (for code 9), and clears `active` exactly for codes 10 and 17 |
| Engine.EcallOutput | RiscVInterpreter.java:270-311 | `ecall` appends `a1` for code 1, a newline for 11, the string at `a1` for 4, the exit message for 17, and nothing otherwise |
| Engine.EcallFails | RiscVInterpreter.java:270-306 | `ecall` fails exactly on a `null` code, a string it cannot print, or a `null` exit code |
| Engine.UnknownMnemonicHalts | RiscVInterpreter.java:504-509 | an unknown mnemonic sets `badbadbad`, clears `active`, and ends the run |
| Engine.Fetch | RiscVInterpreter.java:320 | `instructions.get(pc / 4)` succeeds exactly when `pc / 4` is in range |
| Engine.Step | RiscVInterpreter.java:319-516 | each iteration adds exactly one cycle |
| Engine.ExecuteMonotone | RiscVInterpreter.java:324-510 | the `switch` never sets `active` again, and sets `badbadbad` only while clearing `active` |
| Engine.StepMonotone | RiscVInterpreter.java:319-516 | no iteration sets `active` again or clears `badbadbad` |
| Engine.RunUnfold | RiscVInterpreter.java:319-516 | a run that may go on is one iteration followed by the run from there |
| Engine.RunStops | RiscVInterpreter.java:314-518 | a run stops with `active` clear or at the 300000-cycle watchdog, never exceeds it, never sets `active` again, and keeps `badbadbad` with `active` clear |
| Interpreter.PutAllKeys | RiscVInterpreter.java:79-95 | the registers after the `put`s are those before plus the names put |
| Interpreter.InitialRegsValues | RiscVInterpreter.java:79-95 | after `initRegs`, every register holds 0 except `sp = 0x7ffffff0` and `gp = 0x10000000`; `a0`, `a1` and `ra` exist, and `s0` does not |
| Interpreter.TrimEachAt | RiscVInterpreter.java:58-62 | line `k` is line `k` of the split program, trimmed |
| Interpreter.PreparedFails | RiscVInterpreter.java:64-66 | an exception while cleaning is the constructor's exception |
| Interpreter.PreparedFinishes | RiscVInterpreter.java:64-75 | once cleaning succeeds, the constructor's outcome is that of the cleaned lines |
| Interpreter.RiscVInterpreter.constructor | RiscVInterpreter.java:36-76 | a program containing `jal $input` is left alone; any other is cleaned, loaded and run, its exception is recorded, and `worked` is set exactly when `badbadbad` is not |
| Interpreter.RiscVInterpreter.Prepare | RiscVInterpreter.java:58-66 | the split, trimmed and cleaned lines, or the cleaning exception |
| Interpreter.RiscVInterpreter.SplitLines | RiscVInterpreter.java:58-62 | `lines` is the program split on newlines with every line trimmed |
| Interpreter.RiscVInterpreter.InitRegs | RiscVInterpreter.java:79-95 | the register map after `initRegs`' `put`s, in order |
| Interpreter.RiscVInterpreter.PutNumbered | RiscVInterpreter.java:80-88 | one numbered family of registers put to 0 |
| Interpreter.RiscVInterpreter.RemoveComments | RiscVInterpreter.java:229-246 | `lines` becomes the cleaned, non-empty lines in their original order |
| Interpreter.RiscVInterpreter.CleanLines | RiscVInterpreter.java:231-240 | every line cleaned in place, and `removes` holds exactly the positions of the empty ones |
| Interpreter.RiscVInterpreter.RemoveAt | RiscVInterpreter.java:241-245 | removing at the listed positions from the highest down leaves the other lines in order |
| Interpreter.RiscVInterpreter.MakeEquivs | RiscVInterpreter.java:98-127 | `lines` and `equivs` after `makeEquivs`, or its fault |
| Interpreter.RiscVInterpreter.CollectEquivs | RiscVInterpreter.java:102-110 | the table of definitions and the positions of the `.equiv` lines |
| Interpreter.RiscVInterpreter.ReplaceNames | RiscVInterpreter.java:117-126 | every name replaced on every line but `.string` lines; an empty name never finishes |
| Interpreter.RiscVInterpreter.Data | RiscVInterpreter.java:140-182 | the labels, memory and `address` after `data(i)`, or its exception |
| Interpreter.RiscVInterpreter.WordData | RiscVInterpreter.java:150-160 | the `.word` branch of `data` |
| Interpreter.RiscVInterpreter.StringData | RiscVInterpreter.java:163-181 | the `.string` branch of `data` |
| Interpreter.RiscVInterpreter.StoreString | RiscVInterpreter.java:168-180 | the packed words stored at consecutive words from `address` |
| Interpreter.RiscVInterpreter.StoreWord | RiscVInterpreter.java:154-159 | `memory.put(address, w)` then `address += 4` |
| Interpreter.RiscVInterpreter.DataRange | RiscVInterpreter.java:207-209 | one data loop, stopped by the first exception |
| Interpreter.RiscVInterpreter.SetMainGlobals | RiscVInterpreter.java:185-200 | the code labels laid out from address 0 |
| Interpreter.RiscVInterpreter.CodeRange | RiscVInterpreter.java:189-199 | `setMainGlobals`' loop over the code lines |
| Interpreter.RiscVInterpreter.MakeData | RiscVInterpreter.java:203-226 | labels, memory and `address` after both data passes around the code-label pass |
| Interpreter.RiscVInterpreter.MakeInstructionList | RiscVInterpreter.java:249-262 | the listed lines of the code region appended to `instructions`, or the `subList` exception |
| Interpreter.RiscVInterpreter.Load | RiscVInterpreter.java:67-68 | `makeData` then `makeInstructionList` |
| Interpreter.RiscVInterpreter.Launch | RiscVInterpreter.java:55-71 | `initRegs` then `runProgram` on the loaded memory |
| Interpreter.RiscVInterpreter.ProcessInstruction | RiscVInterpreter.java:530-597 | the mnemonic and the five fields as decoding leaves them, or its exception |
| Interpreter.RiscVInterpreter.SecondOperand | RiscVInterpreter.java:539-571 | the fields after the second operand |
| Interpreter.RiscVInterpreter.ThirdOperand | RiscVInterpreter.java:572-584 | the fields after the third operand |
| Interpreter.RiscVInterpreter.Arithmetic | RiscVInterpreter.java:324-503 | the register map after an arithmetic case |
| Interpreter.RiscVInterpreter.BranchTo | RiscVInterpreter.java:363-422 | the `pc` after a branch case |
| Interpreter.RiscVInterpreter.JumpFrom | RiscVInterpreter.java:331-447 | the `pc` and `ra` after a jump case |
| Interpreter.RiscVInterpreter.Transfer | RiscVInterpreter.java:341-490 | the registers and memory after a memory case |
| Interpreter.RiscVInterpreter.SystemCall | RiscVInterpreter.java:270-311 | the registers, output and `active` after `ecall` |
| Interpreter.RiscVInterpreter.AppendString | RiscVInterpreter.java:278-295 | `printer` extended by the string `ecall` 4 prints |
| Interpreter.RiscVInterpreter.Perform | RiscVInterpreter.java:324-510 | one pass through the `switch` |
| Interpreter.RiscVInterpreter.Cycle | RiscVInterpreter.java:319-516 | one iteration of the loop: fetch, decode, `switch`, `pc += 4` |
| Interpreter.RiscVInterpreter.RunProgram | RiscVInterpreter.java:314-518 | the machine state at the end of the run from `pc` 0, or its exception |

## Left out

- Interpreter.RiscVInterpreter.constructor: debug printing is dropped, because it is console output with no effect on the object. This covers `print`, `printMemory`, the `debug` branches, and the diagnostics printed on an unknown mnemonic or a bad offset.
- Interpreter.RiscVInterpreter.constructor: a Java exception escapes the constructor, so no object results. The model instead records the exception in the field `fault`. The methods state the fields only after a normal end; after a fault, the partly updated fields are left unstated.
- Interpreter.RiscVInterpreter.Launch: `initRegs` runs after loading rather than before splitting. No phase before `runProgram` reads or writes a register, so the outcome is the same.
- Interpreter.RiscVInterpreter.RemoveAt: `Collections.reverse` of the ascending index list is not a separate step. The removal loop visits the positions from the highest down directly.
- Preprocessor.ApplyEquivs: names are substituted in the order they were first put. Java iterates the `HashMap` in hash order, which is unspecified, so the results differ when one name occurs inside another name or value.
- Interpreter.RiscVInterpreter.ReplaceNames: with an empty name, `StringUtils.replace` may never return, depending on the Ant version. The model reports this as the fault `NoProgress`.
- Text.ParseInt: only ASCII digits are accepted. Java's `Integer.parseInt` also accepts other Unicode decimal digits.
- Text.Split: strings are sequences of Unicode characters, not UTF-16 code units. Lengths, indices and `getBytes` therefore differ from Java for characters outside the Basic Multilingual Plane.
- Engine.StringFrom: the `ecall` 4 loop ends with the fault `UnterminatedString` once its `int` counter has gone through all 2^32 values. A Java run would loop forever from that point, or run out of memory in the `StringBuilder` before it.
- Engine.AccessStep: `lw` of a word never written stores `null` in the register rather than raising an exception, as `HashMap.get` does. The exception comes only when the register is next unboxed.
- Loader.LoadDataForward: it assumes the data segment comes last (no `.text` after the first `.data`) and that `x` is bound by exactly one label line, in the data region. A program with a `.data` block before `.text` and another after it is laid out by `DataPassesLayout`, but what its final pass stores is not characterised.
- Loader.LoadDataSettles: it assumes the data segment comes last and that no label is bound in both regions.
- Loader.SecondPassKeepsLabels: it assumes the data segment comes last and that no label is bound in both regions.
- Loader.SecondPassAt: it assumes the data segment comes last, so the two data regions of `makeData` are one; the two-region layout is covered only by `DataPassesLayout`.
- Loader.LoadDataWordLiteral: it assumes the data segment comes last; the two-region layout is covered only by `DataPassesLayout`.
- Loader.LoadDataWordLiteralKept: it assumes the data segment comes last, and a data region of fewer than 2^30 − 1 words after the line, so that the 32-bit address does not come round.
- Loader.KeptToEnd: it assumes the data segment comes last, and fewer than 2^30 − 1 words after the line.
- Loader.DataPassAgain: it assumes the data segment comes last; the two-region layout is covered only by `DataPassesLayout`.
- Loader.DataRegionLayout: it assumes the data segment comes last; `DataPassesLayout` states the general layout.
- Loader.LoadDataForwardKept: it assumes the data segment comes last, and a data region of fewer than 2^30 − 1 words after the line, so that the 32-bit address does not come round.
- Loader.StoreWordsPlaces: proved for runs of at most 2^30 words, for the same reason. `FirstStoreKept` carries the same bound.
- Engine.PrintStringHolds: stated for strings shorter than 2^32 characters. Java strings are shorter than 2^31. `PrintPackedString` is stated for literals shorter than 2^31.
- Engine.PrintPackedString: stated for literals of nonzero ASCII characters. A NUL ends the printed string early, and `getBytes(US_ASCII)` turns any other character into `?`.
- Interpreter.RiscVInterpreter.constructor: the `jal $input` guard is a plain substring test on the raw text, and the object it leaves has no state beyond `worked` being false.
