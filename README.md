# SAP assembler, modelled in Dafny

This project models the assembler of SAP, an 8-bit educational CPU with a
sixteen-cell memory. There are two parts.

- **The instruction table.** It is a closed dictionary from 39 upper-case
  mnemonics, such as `MOV A, B` and `JNZ`, to one-byte opcodes.
  - `Opcodes.Row` holds the entries in the source's order.
  - `Opcodes.Opcode` is the lookup.
  - `Opcodes.MnemonicOf` is the reverse lookup. It is a reference partner
    that proves the table injective.
- **`assemble(prog)`.** It is a single pass over the program text.
  1. The text is split at line breaks and raw lines of length zero are
     dropped.
  2. Each remaining line loses everything from its first `;`, is trimmed and
     is upper-cased.
  3. A sixteen-cell image of zeros and a cursor at address 0 are set up.
  4. Each line is then one of three things:
     - a *label*: any line with a `:`. The cursor moves to the hex value of
       the text before the colon.
     - a *mnemonic*: its opcode is written at the cursor and the cursor moves
       on by one.
     - a *hex literal*: its value is written at the cursor and the cursor
       moves on by one.
  5. Every cell is rendered as `bin(v)` zero-filled to eight digits, plus a
     line break. The cells are joined in address order.

Modules:

- `Options` and `Numerals` (`numerals.dfy`) model the Python built-ins the
  source relies on:
  - `int(s, 16)`;
  - `hex`;
  - `bin`;
  - `str.zfill`.
- `Text` (`text.dfy`) models `str.split`, `str.strip` and `str.upper`, and
  the splitting at the first `;` or `:`.
- `Opcodes` (`opcodes.dfy`) models the table.
- `Assembler` (`assembler.dfy`) holds the pure specification and the
  imperative assembler:
  - normalisation (`Normalise`, `NormaliseAll`, `SourceLines`);
  - one line (`Classify`, `Emit`, `Step`);
  - the pass (`Run`, `Image`);
  - rendering (`Cells`, `Render`, `Assembled`, `DumpLine`, `Dump`);
  - the methods `AssembleLine` and `Assemble`. They work on a sixteen-element
    `array<string>` buffer and a cursor, as the source does, and are proved
    to return `Assembled(prog)`.
- `AssemblerFacts` (`properties.dfy`) holds the properties of the model and
  worked examples.

The source crashes in three places. The model turns each crash into an
explicit `Failure`:

- `BadLabel(line)`: the text before `:` is not hex, so `int` raises.
- `BadToken(line)`: a line is neither a mnemonic nor hex, so `int` raises.
- `Overflow(line, address)`: a write at or past address 16, so the list
  index raises.

The model follows the code in four details that are easy to misread:

- A label may name any hex number. For example, `10:` moves the cursor to 16
  without an error. The failure comes only when a later line writes there.
- A literal wider than a byte is stored whole. Its cell is then longer than
  nine characters; nothing truncates it.
- A raw line of only blanks or only a comment is not dropped, because the
  length test comes before normalisation. It becomes the empty line, and
  that line is a bad token.
- A bad literal past the end of the image is reported as `BadToken`, not
  `Overflow`. The source evaluates the right-hand side
  `bin(int(line, 16))...` before it indexes `obj`.

## Model

| member | source | states |
|---|---|---|
| Numerals.ParseHex | SAP/SAP_assembler.py:56 | `int(s, 16)` succeeds exactly when `s` is a non-empty string of hex digits in either case |
| Numerals.HexValue | SAP/SAP_assembler.py:56 | the value `int(s, 16)` returns for a digit string, most significant digit first; HexValueBound, HexByte, HexValueTwoDigits and HexRoundTrip state what it promises |
| Numerals.HexValueBound | SAP/SAP_assembler.py:56 | a literal of `n` hex digits has a value below 16 to the `n` |
| Numerals.HexByte | SAP/SAP_assembler.py:3-43 | a literal of at most two hex digits is a byte, as every opcode string in the table is |
| Numerals.HexValueTwoDigits | SAP/SAP_assembler.py:3-43 | a two-digit opcode string denotes 16 times its first digit plus its second |
| Numerals.HexChar | SAP/SAP_assembler.py:60 | the digit `hex` writes for a value below 16 reads back as that value and is not a capital letter |
| Numerals.ToHex | SAP/SAP_assembler.py:60 | `hex(i)` without `0x` is a non-empty hex string, one digit below 16 |
| Numerals.HexRoundTrip | SAP/SAP_assembler.py:60 | reading back what `hex` writes gives the number |
| Numerals.Binary | SAP/SAP_assembler.py:54 | `bin(v)` without `0b` is a non-empty string of binary digits |
| Numerals.BinaryFacts | SAP/SAP_assembler.py:54 | `bin(v)` reads back as `v`, has no leading zero and is exactly as long as the bit length of `v` |
| Numerals.BinaryReadsBack | SAP/SAP_assembler.py:54 | `bin(v)` reads back as `v` |
| Numerals.BinaryLeadingOne | SAP/SAP_assembler.py:54 | `bin(v)` of a positive `v` starts with `1` |
| Numerals.BinaryBitLength | SAP/SAP_assembler.py:54 | `v` lies between 2 to the power length-1 and 2 to the power length of `bin(v)` |
| Numerals.BinaryLength | SAP/SAP_assembler.py:54 | `bin(v)` has at most eight digits exactly when `v` is a byte |
| Numerals.ZFill | SAP/SAP_assembler.py:54 | `zfill(8)` left-pads with zeros up to width 8, keeps the string as its suffix and never truncates |
| Numerals.BitsValueLeadingZeros | SAP/SAP_assembler.py:54 | the zeros that `zfill` adds do not change the value of the digits |
| Numerals.Cell | SAP/SAP_assembler.py:54-56 | `bin(v)` zero-filled to eight digits, then a line break; CellOfByte, CellOfWideValue, NineBitCell and CellInjective state what it promises |
| Numerals.CellOfByte | SAP/SAP_assembler.py:54 | a byte renders as exactly eight binary digits whose value is the byte, then a line break |
| Numerals.CellOfWideValue | SAP/SAP_assembler.py:56 | a value of 256 or more renders as more than nine characters, because nothing truncates it |
| Numerals.NineBitCell | SAP/SAP_assembler.py:56 | a nine-bit value renders as nine digits and a line break |
| Numerals.CellInjective | SAP/SAP_assembler.py:54 | different bytes render as different cells |
| Text.UpperChar | SAP/SAP_assembler.py:46 | upper-casing maps `a`-`z` to capitals and leaves every other character alone |
| Text.Upper | SAP/SAP_assembler.py:46 | `upper()` upper-cases each character in place and keeps the length, which holds for the ASCII letters modelled (see Left out) |
| Text.IndexOf | SAP/SAP_assembler.py:46 | gives the first position of the character |
| Text.BeforeFirst | SAP/SAP_assembler.py:46 | `split(c)[0]` is a prefix free of `c`; it is either everything or stops just before the first `c` |
| Text.Split | SAP/SAP_assembler.py:46 | `split('\n')` gives at least one piece, and no piece holds the separator |
| Text.JoinSplit | SAP/SAP_assembler.py:46 | joining the pieces of a split gives the text back |
| Text.SplitJoin | SAP/SAP_assembler.py:46 | splitting a join of separator-free pieces gives the pieces back |
| Text.SplitAt | SAP/SAP_assembler.py:46 | a split at the first separator gives the head, then the split of the rest |
| Text.TrimStart | SAP/SAP_assembler.py:46 | left trimming drops exactly the leading whitespace and keeps a suffix |
| Text.TrimEnd | SAP/SAP_assembler.py:46 | right trimming drops exactly the trailing whitespace and keeps a prefix |
| Text.TrimStartSpaces | SAP/SAP_assembler.py:46 | an indent of whitespace before text that starts with no blank is exactly what left trimming removes |
| Text.TrimEndSpaces | SAP/SAP_assembler.py:46 | padding of whitespace after text that ends with no blank is exactly what right trimming removes |
| Text.Strip | SAP/SAP_assembler.py:46 | `strip()` leaves no whitespace at either end and adds no character |
| Text.StripIdempotent | SAP/SAP_assembler.py:46 | stripping twice is stripping once |
| Text.UpperCharSpace | SAP/SAP_assembler.py:46 | upper-casing a character neither creates nor removes whitespace |
| Text.UpperTrimStart | SAP/SAP_assembler.py:46 | upper-casing commutes with left trimming |
| Text.UpperTrimEnd | SAP/SAP_assembler.py:46 | upper-casing commutes with right trimming |
| Text.UpperStrip | SAP/SAP_assembler.py:46 | upper-casing commutes with `strip()` |
| Text.UpperBeforeFirst | SAP/SAP_assembler.py:46 | upper-casing commutes with cutting at a non-letter such as `;` |
| Text.UpperContains | SAP/SAP_assembler.py:46 | upper-casing neither adds nor removes a non-letter |
| Text.UpperIdempotent | SAP/SAP_assembler.py:46 | upper-casing twice is upper-casing once |
| Opcodes.Row | SAP/SAP_assembler.py:3-43 | the dictionary's 39 entries in order, each with the source's two hex digits and their value; CodesReadFromText proves the value is what the digits read as |
| Opcodes.CodesReadFromText | SAP/SAP_assembler.py:3-43 | every entry's two-character opcode text is hex, and the number stored with it is its value |
| Opcodes.CodeReadFromText | SAP/SAP_assembler.py:3-43 | the same for one entry |
| Opcodes.OpcodeReadsText | SAP/SAP_assembler.py:54 | `int(opcodes[line], 16)` for an entry's mnemonic is the value of the entry's opcode text, and a byte |
| Opcodes.Table | SAP/SAP_assembler.py:3-43 | the table has the 39 entries of the dictionary, in its order |
| Opcodes.Opcode | SAP/SAP_assembler.py:3-43 | `opcodes[line]`, when present, is a byte |
| Opcodes.CodesAreBytes | SAP/SAP_assembler.py:3-43 | every opcode in the table is in [0, 255] |
| Opcodes.MnemonicsDistinct | SAP/SAP_assembler.py:3-43 | no two entries have the same mnemonic, so the table is a dictionary |
| Opcodes.CodesDistinct | SAP/SAP_assembler.py:3-43 | no two entries have the same opcode |
| Opcodes.EntriesSpelled | SAP/SAP_assembler.py:3-43 | every mnemonic is capitals, spaces and commas, with capitals at both ends and a non-hex character among its first four |
| Opcodes.OpcodeOfEntry | SAP/SAP_assembler.py:3-43 | looking up an entry's mnemonic gives that entry's opcode |
| Opcodes.OpcodeFound | SAP/SAP_assembler.py:53 | a mnemonic that is found is some entry's mnemonic, with that entry's opcode |
| Opcodes.OpcodeAbsent | SAP/SAP_assembler.py:53 | `line in opcodes` is false exactly when no entry has that mnemonic |
| Opcodes.MnemonicOfEntry | SAP/SAP_assembler.py:3-43 | the reverse lookup of an entry's opcode gives that entry's mnemonic |
| Opcodes.MnemonicSpelled | SAP/SAP_assembler.py:3-43 | every string the table knows is spelled as `Spelled` says |
| Opcodes.OpcodeThenMnemonic | SAP/SAP_assembler.py:3-43 | reverse lookup after lookup gives the mnemonic back |
| Opcodes.MnemonicThenOpcode | SAP/SAP_assembler.py:3-43 | lookup after reverse lookup gives the opcode back |
| Opcodes.OpcodeInjective | SAP/SAP_assembler.py:3-43 | two mnemonics with the same opcode are the same mnemonic |
| Assembler.Normalise | SAP/SAP_assembler.py:46 | `i.split(';')[0].strip().upper()`; NormaliseShape, NormaliseDropsComment, NormaliseIgnoresCase, NormaliseIdempotent and NormaliseIndentedLine state what it promises |
| Assembler.NormaliseAll | SAP/SAP_assembler.py:46 | the comprehension keeps at most as many lines as there are raw lines; NormaliseOne and NormaliseAllAppend pin it down |
| Assembler.SourceLines | SAP/SAP_assembler.py:46 | the lines the loop walks, the comprehension over `prog.split('\n')`; SourceLinesNormalised and SourceLinesOfNormalProgram state what it promises |
| Assembler.Initial | SAP/SAP_assembler.py:47-48 | the image starts as sixteen zero cells with the cursor at 0 |
| Assembler.Classify | SAP/SAP_assembler.py:50-56 | a line with `:` is a label on the text before the first colon; otherwise a known mnemonic is an instruction with its opcode; anything else is a literal |
| Assembler.Emit | SAP/SAP_assembler.py:54-57 | a write succeeds exactly when the cursor is inside the image; it sets that cell alone and moves the cursor on by one; otherwise it is an overflow at the cursor |
| Assembler.Step | SAP/SAP_assembler.py:50-57 | one line keeps the image size; a label changes no cell; a write needs the cursor inside the image, moves it on by one and changes no other cell |
| Assembler.Run | SAP/SAP_assembler.py:49-57 | the loop over the lines keeps the image size; RunStops, RunAppend, SequentialPlacement and OverflowPastEnd prove that it stops at the first failure and where it writes |
| Assembler.Image | SAP/SAP_assembler.py:45-57 | a program that assembles has an image of sixteen cells |
| Assembler.Concat | SAP/SAP_assembler.py:61 | `''.join(parts)`; ConcatAt states where each part lands |
| Assembler.Render | SAP/SAP_assembler.py:61 | the object code of an image; RenderRoundTrip and RenderCellAt state what it promises |
| Assembler.Assembled | SAP/SAP_assembler.py:45-61 | what `assemble` returns; Assemble is proved equal to it and AssembledReadsBack reads it back |
| Assembler.DumpLine | SAP/SAP_assembler.py:60 | one line of the annotated dump; DumpLineShape states its form |
| Assembler.Dump | SAP/SAP_assembler.py:60 | the annotated dump; DumpAt states its lines |
| Assembler.Cells | SAP/SAP_assembler.py:54-56 | the buffer after the pass holds the rendered cell of each address, in order |
| Assembler.RunAt | SAP/SAP_assembler.py:49 | the pass from line `k` is line `k`'s step, then the pass from line `k + 1` |
| Assembler.RunStops | SAP/SAP_assembler.py:49-56 | a line that fails ends the pass with its failure |
| Assembler.RunGoesOn | SAP/SAP_assembler.py:49-57 | a line that succeeds hands its new state to the rest of the pass |
| Assembler.ZeroCell | SAP/SAP_assembler.py:48 | the initial text of a cell, `00000000` and a line break, is the rendering of 0 |
| Assembler.AssembleLine | SAP/SAP_assembler.py:50-57 | one loop iteration over the buffer returns the new cursor, or the failure, that `Step` gives; afterwards the buffer renders the new image |
| Assembler.Assemble | SAP/SAP_assembler.py:45-61 | the loop over an `array<string>` buffer returns the joined cells of the program's image, or the failure of its first bad line |
| AssemblerFacts.NormaliseShape | SAP/SAP_assembler.py:46 | a normalised line has no `;`, no lower-case letter and no whitespace at either end |
| AssemblerFacts.NormaliseUpperFirst | SAP/SAP_assembler.py:46 | normalising equals upper-casing first and then cutting and stripping |
| AssemblerFacts.NormaliseIgnoresCase | SAP/SAP_assembler.py:46 | raw lines that differ only in letter case normalise alike, so lookups ignore case |
| AssemblerFacts.NormaliseDropsComment | SAP/SAP_assembler.py:46 | text after the first `;` does not affect the line |
| AssemblerFacts.NormaliseIndentedLine | SAP/SAP_assembler.py:46 | an indented, padded line, with or without a trailing comment, normalises to its word in upper case |
| AssemblerFacts.PaddedHasNoComment | SAP/SAP_assembler.py:46 | indent and padding bring in no `;` |
| AssemblerFacts.StripPadded | SAP/SAP_assembler.py:46 | stripping an indented, padded word gives the word |
| AssemblerFacts.NormaliseIdempotent | SAP/SAP_assembler.py:46 | normalising twice is normalising once |
| AssemblerFacts.BlankLineSurvives | SAP/SAP_assembler.py:46 | a raw line of blanks, or of blanks and a comment, is not dropped by the length test and comes through as the empty line |
| AssemblerFacts.BlankLineIsEmpty | SAP/SAP_assembler.py:46 | blanks, with or without a comment after them, normalise to the empty string |
| AssemblerFacts.NormaliseAllAppend | SAP/SAP_assembler.py:46 | the comprehension works line by line and keeps the order: over a concatenation it gives the concatenation of the results |
| AssemblerFacts.NormaliseOne | SAP/SAP_assembler.py:46 | a single raw line is kept, and normalised, exactly when it is not empty |
| AssemblerFacts.EmptyLineIsBadToken | SAP/SAP_assembler.py:53-56 | the empty line is neither a label nor a mnemonic nor a hex number, so it stops assembly as a bad token |
| AssemblerFacts.SourceLinesNormalised | SAP/SAP_assembler.py:46 | every line the loop sees is already in normal form |
| AssemblerFacts.MnemonicIsNotLabelOrLiteral | SAP/SAP_assembler.py:3-43 | no mnemonic holds `:` or `;`, and none reads as hex |
| AssemblerFacts.HexIsNotMnemonic | SAP/SAP_assembler.py:53-56 | a hex literal is never in the table, so the mnemonic and literal branches never compete |
| AssemblerFacts.MnemonicIsUpperCase | SAP/SAP_assembler.py:3-43 | every mnemonic is upper-case, so a normalised line can match it |
| AssemblerFacts.MnemonicIsInstruction | SAP/SAP_assembler.py:53-54 | a mnemonic line is classified as its instruction |
| AssemblerFacts.LabelMovesCursor | SAP/SAP_assembler.py:50-52 | a label sets the cursor to the hex value before the first colon and changes no cell and no other state; non-hex text there is a bad label |
| AssemblerFacts.EmitAtCursor | SAP/SAP_assembler.py:53-57 | a mnemonic or literal line writes exactly its opcode or value at the cursor and moves on by one; at or past address 16 it is an overflow at that address |
| AssemblerFacts.StepFailure | SAP/SAP_assembler.py:51-56 | one line fails exactly for a non-hex label, a token that is neither a mnemonic nor hex, or a write at or past the end; the second is `BadToken` |
| AssemblerFacts.LiteralExamples | SAP/SAP_assembler.py:55-57 | `FF` writes 255 and `0` writes 0 |
| AssemblerFacts.LiteralStep | SAP/SAP_assembler.py:55-57 | each of the literals `FF`, `0` and `100` writes its value at the cursor |
| AssemblerFacts.UnknownWord | SAP/SAP_assembler.py:53-56 | `FOO` is a bad token, not a zero cell |
| AssemblerFacts.WideLiteral | SAP/SAP_assembler.py:56 | `100` writes 256 whole, and its cell is ten characters long |
| AssemblerFacts.RunAppend | SAP/SAP_assembler.py:49 | the pass over two stretches of lines is the pass over the first, then the second |
| AssemblerFacts.SequentialPlacement | SAP/SAP_assembler.py:53-57 | with no labels, the k-th writing line lands at the cursor plus k, the cursor ends just past the last, and no other cell changes |
| AssemblerFacts.NoLabelProgram | SAP/SAP_assembler.py:47-57 | from the start, up to sixteen writing lines without labels put the k-th at address k and leave the rest zero |
| AssemblerFacts.OverflowPastEnd | SAP/SAP_assembler.py:54-57 | writing lines that run past the end fail at the first line that reaches the end, naming address 16 |
| AssemblerFacts.SeventeenthEmissionOverflows | SAP/SAP_assembler.py:54-57 | seventeen writes without a label overflow at the seventeenth, with no wrap-around |
| AssemblerFacts.LabelPastEnd | SAP/SAP_assembler.py:51-57 | the label `10:` is accepted, and the next write then overflows at 16 |
| AssemblerFacts.ChangedCellWasWritten | SAP/SAP_assembler.py:54-56 | a cell that differs after the pass was reached by a writing line with the cursor on it |
| AssemblerFacts.RunPrefixAfterFirst | SAP/SAP_assembler.py:49 | the state after the first k+1 lines is the state after k lines of the rest, started where the first line left |
| AssemblerFacts.UnwrittenCellIsZero | SAP/SAP_assembler.py:48-56 | a cell that no line writes stays zero in the image |
| AssemblerFacts.LaterWriteWins | SAP/SAP_assembler.py:54-56 | a later write to an address overwrites whatever was there |
| AssemblerFacts.BytesStayBytes | SAP/SAP_assembler.py:53-56 | when every literal has at most two digits, every cell stays a byte |
| AssemblerFacts.RenderRoundTrip | SAP/SAP_assembler.py:54-61 | an image of bytes renders as nine characters per cell, in address order, and reads back as the image |
| AssemblerFacts.ConcatAt | SAP/SAP_assembler.py:61 | joining parts of `w` characters each gives `w` times as many characters and puts the k-th at offset `w * k` |
| AssemblerFacts.RenderCellAt | SAP/SAP_assembler.py:54-61 | the cell at address `a` is characters 9a to 9a+8 of the output, and its eight digits read as the byte stored there |
| AssemblerFacts.AssembledReadsBack | SAP/SAP_assembler.py:45-61 | a program whose literals are bytes yields 144 characters that read back as its image |
| AssemblerFacts.DumpAt | SAP/SAP_assembler.py:60 | the annotated dump of a sixteen-byte image is twelve characters per address, and the characters from `12a` are the dump line of cell `a` |
| AssemblerFacts.DumpLineShape | SAP/SAP_assembler.py:60 | a dump line for an address of the image is one hex digit, `: `, then the cell |
| AssemblerFacts.NormalLineUnchanged | SAP/SAP_assembler.py:46 | a line already in normal form is unchanged |
| AssemblerFacts.NormalLinesUnchanged | SAP/SAP_assembler.py:46 | non-empty lines already in normal form all pass through the comprehension |
| AssemblerFacts.SourceLinesOfNormalProgram | SAP/SAP_assembler.py:46 | a program of non-empty normal lines is walked line by line as written |
| AssemblerFacts.MnemonicIsNormal | SAP/SAP_assembler.py:3-46 | a mnemonic is non-empty, has no line break and is its own normal form |
| AssemblerFacts.IncIncAddScenario | SAP/SAP_assembler.py:45-57 | `INR A`, `INR B`, `ADD B` assemble to 3C, 04, 80 at addresses 0 to 2, with zeros after |
| AssemblerFacts.CellOf3C | SAP/SAP_assembler.py:54 | the cell of 3C is `00111100` |
| AssemblerFacts.CellOf04 | SAP/SAP_assembler.py:54 | the cell of 04 is `00000100` |
| AssemblerFacts.CellOf80 | SAP/SAP_assembler.py:54-60 | the cell of 80 is `10000000`, and its dump line at address 2 is `2: 10000000` |
| AssemblerFacts.JumpScenario | SAP/SAP_assembler.py:45-57 | `JMP`, `5`, `5:`, `HLT` put C3 and 5 at addresses 0 and 1 and 76 at address 5, with zeros between and after |

## Left out

- The `print` of the annotated dump (line 60) is console output. Only the
  text of one line and of the whole dump is modelled, as `DumpLine` and
  `Dump`.
- Writing the object code to a file (lines 254-259) is file I/O.
- The example programs assigned to `prog` (lines 65-252) are not modelled
  one by one. Two small programs are worked through end to end instead
  (`IncIncAddScenario`, `JumpScenario`). `NormaliseIndentedLine` covers
  the indented, commented lines the example programs are written in.
- `ParseHex` accepts ASCII hex digits only. It does not model the rest of
  what Python's `int(s, 16)` accepts: a `0x` prefix, underscores, a sign,
  surrounding whitespace, and non-ASCII decimal digits (Unicode category
  Nd, such as Arabic-Indic digits).
- A negative label such as `-1:` is not modelled. Python parses it, and a
  later write then goes to `obj[-1]`, counting from the end. Here the label
  is `BadLabel`, because any cursor outside the image is treated as an
  error.
- `Text.IsSpace`, `Text.UpperChar`, `Text.Upper`, `Text.TrimStart`,
  `Text.TrimEnd`, `Text.Strip`: whitespace and upper-casing are modelled for
  ASCII only. Python's Unicode whitespace and case mapping are left out,
  including upper-casings that change the length (`'ß'.upper()` is `'SS'`).
- `Opcodes.Row`: each entry keeps both the source's two hex digits and
  the number they denote, and the lookup returns the number.
  `CodesReadFromText` proves that each number is what its digits read as,
  so `int(opcodes[line], 16)` is not recomputed at every use.
- `Assembler.Assemble` keeps the image values in a ghost sequence beside the
  buffer of rendered strings, so that `Step` and `Run` can describe it.
  `AssembleLine` is the body of the source's loop, taken out as a method of
  its own.
