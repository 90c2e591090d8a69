# sprawl, modelled in Dafny

This project models the parts of the sprawl repository whose behaviour is hardest to see from
one function at a time, and proves what they promise. `dafny verify dfyconfig.toml` checks it.

- **Brainfuck interpreter.** `Brainfuck.dfy` gives the flat machine that scans the program text for
  brackets, a structured semantics in which loops are tree nodes, and the proof that each halts
  exactly when the other does, with the same state. `BrainfuckMachine.dfy` is the class itself:
  300000 byte cells, two `std::size_t` positions that wrap, and the two jump loops.
  `BrainfuckPrograms.dfy` says what programs of each command do, from every state.
- **LC-3 assembler.** `Tvm.dfy` is the tokenizer, the classifier, the row parser, the symbol table
  and the encoder as functions that keep every error path; `TvmCode.dfy` has their loops and
  mutable rows and image; `TvmRoundTrip.dfy` prints, assembles and decodes whole programs;
  `TvmTables.dfy` and `TvmLayout.dfy` are about rows and the layout of storage,
  `TvmStatements.dfy` about which token streams the parser accepts, stays at or refuses,
  `TvmOperands.dfy` about what the encoder makes of any operands, and `TvmValues.dfy` about
  classes of tokens and the words of known texts.
- **MD5.** `Md5.dfy` states sections 3.1 to 3.5 of RFC 1321 with tables and a fold, and proves
  the unrolled code equal to it; `Md5Values.dfy` computes a digest of its section A.5.
- **Calendar server.** `PsycalFiles.dfy` is the record format on the wire and on disk;
  `PsycalServer.dfy` has the protocol of receive, tick, snapshot and restart steps, and the class
  whose methods are those steps.
- **Markdown lexer and writer.** `Markdown.dfy` has the lexer over a seekable stream, the writer,
  idempotence of formatting, and the exact condition under which text is conserved.
  `MarkdownWords.dfy` and `MarkdownColumns.dfy` say which characters make words and which column
  a token has.
- **Arithmetic and partitioning.** `Parallel.dfy` (granulator and parallel sum), `Hashes.dfy`,
  `BigInt.dfy` and `Uuid.dfy`, over `Basics.dfy`, `Arithmetic.dfy`, `Hexadecimal.dfy` and
  `Codec.dfy`.

Fixed-width integers of the sources are subset types of `int` with explicit wrap-around; the words
of MD5 are 32-bit vectors. Exceptions, `abort`, null dereferences and endless loops of the
assembler are error values. Files are byte sequences; time, input characters and the number of
hardware threads are parameters. Choices that the sources leave open (which of several equal
timestamps a priority queue has on top, the order in which threads finish) are nondeterministic.

Properties that the code does not have on every input are stated with the exact condition under
which it has them: conservation of text by the lexer (`LexerConservesText`), the flags of
`MarkNewlineTokens` (`FlagsAreLineStarts`; the comment at mdm/parser.cc:42-47 promises every token
that starts a line, but the one behind a newline that opens the document is missed), reading back
saved events (`ReadBack`, `RestartKeeps`, and over whole runs `RunsConserveEvents`), the partition
of the granulator (`StepsPartition`), the end of the block loop of MD5 (`DigestLoopEnds`), success
and progress of the parser (`ParsesExactlyPrograms`, `StreamParses`), and identifiers that print
back as they were read (`ReadIsString`). `Validate` of the interpreter compares only counts;
`NestedByCounts` says what nesting needs besides.

## Model

| member | source | states |
|---|---|---|
| BrainfuckSpec.Command | brainfuck/brainfuck.cc:18-54 | after every command the tape has its length and the cell pointer is on it; what each command does is stated by PlusesAdd, MovesLead, DotPrints and CommaEchoes |
| BrainfuckSpec.FlatRun | brainfuck/brainfuck.cc:56-75 | in every reachable state the cell pointer is on the tape and the code position within the code, or one past its end when stopped |
| BrainfuckTree.ExecMonotone | brainfuck/brainfuck.cc:56-109 | a structured run that ends has the same result under every larger bound |
| BrainfuckTree.NestedIffTree | brainfuck/brainfuck.cc:77-109 | counting brackets never below zero and to zero is the same as being the text of a tree of loops |
| BrainfuckRefinement.ScansMeet | brainfuck/brainfuck.cc:77-109 | over any nested body both scans pass all inner brackets and end at each other's bracket |
| BrainfuckRefinement.StepAtOpen | brainfuck/brainfuck.cc:65-92 | one turn of Run at `[` leads behind the partner on a zero cell, into the body otherwise |
| BrainfuckRefinement.StepAtClose | brainfuck/brainfuck.cc:66-109 | one turn at `]` leads to the partner, also when it is at index 0 and the position wraps around |
| BrainfuckRefinement.TreeToFlat | brainfuck/brainfuck.cc:56-109 | what the structured semantics computes for a part of the program the machine reaches, behind that part |
| BrainfuckRefinement.FlatToTree | brainfuck/brainfuck.cc:56-109 | a machine run that stops has passed the end of every part it entered, with the structured result |
| BrainfuckRefinement.RunRefinesTree | brainfuck/brainfuck.cc:56-109 | machine and structured semantics halt on the same programs and states, with the same cells, pointer, input and output |
| BrainfuckTheorems.ForwardJumpFindsPartner | brainfuck/brainfuck.cc:77-92 | in nested code JumpLBrack stops at the partner, from which JumpRBrack leads back |
| BrainfuckTheorems.BackwardJumpFindsPartner | brainfuck/brainfuck.cc:94-109 | in nested code JumpRBrack stops in front of the partner, from which JumpLBrack leads back |
| BrainfuckTheorems.CommentsDoNotMatter | brainfuck/brainfuck.cc:60-73 | deleting all other characters keeps nesting, halting and the result |
| BrainfuckTheorems.StripKeepsCommands | brainfuck/brainfuck.cc:60-73 | what is left are the eight commands, in order |
| BrainfuckTheorems.NestedByCounts | brainfuck/brainfuck.cc:111-122 | nesting is equal counts and no prefix that closes more than it opens |
| BrainfuckTheorems.EqualCountsAreNotNesting | brainfuck/brainfuck.cc:111-122 | `][` has equal counts and is not nested |
| BrainfuckPrograms.HaltsOnce | brainfuck/brainfuck.cc:56-75 | the result of a program is determined |
| BrainfuckPrograms.PlusesAdd | brainfuck/brainfuck.cc:33-34 | from every state n plus signs add n to the current byte modulo 256 and n minus signs take n away; all else stays |
| BrainfuckPrograms.MinusesUndoPluses | brainfuck/brainfuck.cc:33-34 | n of the one and then n of the other restore the state |
| BrainfuckPrograms.MovesLead | brainfuck/brainfuck.cc:18-31 | k moves lead from p to p + k or p - k modulo 300000, and change nothing else |
| BrainfuckPrograms.LeftsUndoRights | brainfuck/brainfuck.cc:18-31 | k moves right and k moves left restore the state |
| BrainfuckPrograms.FreshCellsAreZero | brainfuck/brainfuck.h:17-25 | all 300000 cells of a fresh machine are zero, and k moves right lead to cell k |
| BrainfuckPrograms.DotPrints | brainfuck/brainfuck.cc:43-54 | a dot appends the byte as a character, or its lower-case hexadecimal number without leading zeros in text mode |
| BrainfuckPrograms.EveryByteIsPrinted | brainfuck/bftest.cc:21-24 | for every byte v, v plus signs and a dot print it from a fresh machine |
| BrainfuckPrograms.CommaEchoes | brainfuck/brainfuck.cc:36-41 | a comma echoes the first character behind white space and consumes the input through it; at the end of the input it prints NUL |
| BrainfuckPrograms.CountDownClears | brainfuck/brainfuck.cc:56-109 | `[-]` halts from every state and clears the current cell only |
| BrainfuckMachine.Brainfuck.constructor | brainfuck/brainfuck.h:17-25 | 300000 zero cells, both positions 0, text mode, no code |
| BrainfuckMachine.Brainfuck.FromString | brainfuck/brainfuck.cc:14-16 | sets the code and nothing else |
| BrainfuckMachine.Brainfuck.IncrCell | brainfuck/brainfuck.cc:33 | the current byte goes up modulo 256, nothing else changes |
| BrainfuckMachine.Brainfuck.DecrCell | brainfuck/brainfuck.cc:34 | the current byte goes down modulo 256, nothing else changes |
| BrainfuckMachine.Brainfuck.MoveRight | brainfuck/brainfuck.cc:18-31 | the pointer moves right, from the last cell to the first |
| BrainfuckMachine.Brainfuck.MoveLeft | brainfuck/brainfuck.cc:18-31 | the pointer moves left, from the first cell to the last |
| BrainfuckMachine.Brainfuck.OutputChar | brainfuck/brainfuck.cc:43-54 | appends the byte, or its hexadecimal text in text mode |
| BrainfuckMachine.Brainfuck.InputChar | brainfuck/brainfuck.cc:36-41 | echoes the next character that is not white space; the cells stay as they are |
| BrainfuckMachine.Brainfuck.JumpLBrack | brainfuck/brainfuck.cc:77-92 | the loop ends on nested code, inside the text, where the scan of the specification does |
| BrainfuckMachine.Brainfuck.JumpRBrack | brainfuck/brainfuck.cc:94-109 | the loop ends on nested code where the scan of the specification does, wrapping below index 0 |
| BrainfuckMachine.Brainfuck.Step | brainfuck/brainfuck.cc:60-73 | one turn of Run is one step of the flat machine, and sets the status at the end of the code |
| BrainfuckMachine.Brainfuck.Run | brainfuck/brainfuck.cc:56-75 | on halting nested code ends with success in the state that the structured semantics gives |
| BrainfuckMachine.Brainfuck.Validate | brainfuck/brainfuck.cc:111-122 | success exactly when the counts agree, in spite of the wrapping cursor; so for all nested code |
| TvmAssembler.ParseRowAdvances | tvm/tvm.cc:250-319 | every turn of Parse that makes progress leaves fewer tokens |
| TvmRoundTrip.DecodeInverse | tvm/tvm.h:18-57 | field by field decoding with sign extension gives every supported instruction back from its word |
| TvmRoundTrip.ScanLine | tvm/tvm.cc:123-170 | a line of plain words separated by space and commas becomes exactly those words as tokens of that line |
| TvmRoundTrip.TokenizeLines | tvm/tvm.cc:114-175 | a printed program becomes the words of its instructions with their line numbers |
| TvmRoundTrip.NumTextReads | tvm/tvm.cc:94-104 | `#n` is classified as a number and read as n in two's complement, for all nine-bit n |
| TvmRoundTrip.RegTextReads | tvm/tvm.cc:53-69 | R0 to R7 are read as their numbers as operands, though only R0 to R3 are classified as registers |
| TvmRoundTrip.OriginReads | tvm/tvm.cc:86-92 | `x` and four hexadecimal digits are read as their value, for every 16-bit value |
| TvmRoundTrip.DecimalExtracted | tvm/tvm.cc:94-112 | a decimal number of any size behind an optional sign is read up to the first character that is no digit: too large a value gives 65535, a minus the two's complement |
| TvmRoundTrip.LiteralReads | tvm/tvm.cc:94-104 | `#`, perhaps a minus, and a number of any size is a literal of that value |
| TvmOperands.DigitValues | tvm/tvm.cc:86-112 | the digits of both bases, in both cases |
| TvmOperands.HexExtracted | tvm/tvm.cc:86-92 | hexadecimal digits of any number, perhaps behind a sign and 0x, are read in the same way |
| TvmOperands.NothingExtracted | tvm/tvm.cc:86-112 | where no number stands 0 is read |
| TvmRoundTrip.InstructionLine | tvm/tvm.cc:276-306 | the tokens of one instruction make one row, whatever follows |
| Arithmetic.OrAdds | tvm/tvm.cc:338-362 | bitwise or of fields that do not overlap is their sum |
| TvmRoundTrip.InstructionEncodes | tvm/tvm.cc:329-531 | the encoder gives every supported instruction its word, field by field |
| TvmRoundTrip.ParseLines | tvm/tvm.cc:241-324 | the tokens of a printed program make one row per instruction |
| TvmRoundTrip.ProgramParses | tvm/tvm.cc:114-324 | tokenizing and parsing a printed program succeeds with its rows, and its symbol table can be built |
| TvmRoundTrip.EncodeWords | tvm/tvm.cc:326-535 | the image of a program is its origin and one word per instruction |
| TvmRoundTrip.AssembleInverse | tvm/tvm.cc:114-535 | printing, assembling and decoding any supported program gives the program back |
| TvmValues.ArithmeticImage | tvm/test/image.cc:26-53 | the image of the program of arithmetic.asm, written without indentation |
| TvmValues.AndWords | tvm/test/image.cc:55-82 | the words of ands.asm |
| TvmValues.OtherWords | tvm/tvm.h:18-57 | a word of each other instruction |
| TvmValues.RemainingWords | tvm/tvm.cc:392-529 | GETC, OUT, IN, PUTSP and RET have their words, which the parser never asks for |
| TvmValues.IndirectWords | tvm/tvm.cc:448-526 | LDI has the form of LD, and ST takes both its fields from its first operand |
| TvmOperands.LiteralsAreCut | tvm/tvm.cc:356-381 | the third operand of AND and ADD keeps the low five bits of a literal of any size |
| TvmOperands.RowEncodes | tvm/tvm.cc:329-531 | a row is encoded exactly when the operands its operation looks at are there, and those taken as registers have two characters |
| TvmOperands.FirstFaultDecides | tvm/tvm.cc:329-531 | the first operand that fails decides between a null pointer and abort |
| TvmOperands.WordlessRows | tvm/tvm.cc:329-531 | exactly the rows without an operation, or with one that is not listed, make no word |
| TvmOperands.ImageHoldsAll | tvm/tvm.cc:326-535 | the image is the words of all rows in order when there are at most 0xffff, and is refused otherwise |
| TvmOperands.FaultEndsImage | tvm/tvm.cc:326-535 | the first row that fails decides the result |
| TvmTables.RowKeepsTokens | tvm/tvm.cc:250-319 | the cells of a row and the tokens behind it are the tokens in front of which the turn began |
| TvmTables.TokensAreClassified | tvm/tvm.cc:58-69 | every token that Tokenize makes has the type of its value |
| TvmValues.SegmentClass | tvm/tvm.cc:7 | exactly a dot, a capital, and then one or more capitals and digits are a segment |
| TvmValues.InstructionClass | tvm/tvm.cc:8-17 | exactly the listed mnemonics are instructions |
| TvmValues.RegisterClass | tvm/tvm.cc:18 | exactly R0 to R3 are registers |
| TvmValues.LabelClass | tvm/tvm.cc:19 | exactly a capital but R, or an underscore, and then one or more capitals, digits and underscores are a label, unless they are a mnemonic |
| TvmValues.NumberClass | tvm/tvm.cc:20 | exactly the decimal numbers without leading zeros, behind a hash, a minus, both or neither, are numbers |
| TvmValues.HexClass | tvm/tvm.cc:21 | exactly `x` and hexadecimal digits of either case are hexadecimal numbers |
| TvmValues.PunctClass | tvm/tvm.cc:22 | exactly a comma, dot, colon or semicolon is punctuation |
| TvmValues.StringClass | tvm/tvm.cc:23 | exactly visible characters, spaces and tabs in quotes are strings |
| TvmValues.CommentIsSkipped | tvm/tvm.cc:125-128 | a comment with its newline is skipped, counts a line, and does not end the pending token |
| TvmValues.CommentEndsText | tvm/tvm.cc:125-128 | a comment at the end of the text leaves the pending token |
| TvmValues.StringIsOneToken | tvm/tvm.cc:129-143 | a string in quotes is one token, with its quotes, whatever it holds but quotes and newlines |
| TvmValues.NewlineInString | tvm/tvm.cc:129-139 | a newline in it is an error |
| TvmValues.StringIsCutOff | tvm/tvm.cc:129-143 | a string cut off by the end of the text is a token as far as it goes, and a last quote is taken twice |
| TvmValues.ColonIsToken | tvm/tvm.cc:144-150 | a colon is a token of its own |
| TvmTables.StallsAtJmpOrLdi | tvm/tvm.cc:276-307 | the loop of Parse stays in place for ever exactly at JMP and LDI; behind a label the source first takes the label as a row, and the model fails at once |
| TvmTables.TableBuilds | tvm/tvm.cc:219-222 | the symbol table can be built of exactly the rows that have an operation, and for .ORIG an operand |
| TvmStatements.StatementParses | tvm/tvm.cc:250-319 | an optional label, a supported operation and its operands make one row, whatever follows; with JMP or LDI there is no progress |
| TvmStatements.SlotsAreArity | tvm/tvm.cc:250-307 | the operations of a statement and their operand counts, listed, are those that Parse handles |
| TvmStatements.RowsOfStream | tvm/tvm.cc:250-319 | a stream of statements makes one row for each, or stalls exactly when a head is JMP or LDI |
| TvmStatements.StreamParses | tvm/tvm.cc:241-324 | on every stream of statements Parse ends and succeeds exactly when no head is JMP or LDI, and flattening the rows gives back the stream |
| TvmStatements.ProgramOf | tvm/tvm.cc:250-319 | whatever makes complete rows is a stream of statements, with those rows |
| TvmStatements.ParseKeepsTokens | tvm/tvm.cc:241-324 | every successful parse is of statements and at most a lone label behind them, and the rows and that label are the token stream |
| TvmStatements.ParsesExactlyPrograms | tvm/tvm.cc:241-324 | Parse succeeds on exactly the streams of statements without JMP and LDI |
| TvmStatements.ParseEndsWithoutJmpAndLdi | tvm/tvm.cc:114-324 | on the tokens of any text in which none is JMP or LDI, Parse ends |
| TvmStatements.JmpNeverEnds | tvm/tvm.cc:276-307 | the text `JMP R1` makes two tokens, on which Parse never ends |
| TvmTables.StorageIsDisjoint | tvm/tvm.cc:205-239 | with one leading .ORIG what two labelled rows reserve does not overlap |
| TvmTables.TableRecordsAddress | tvm/tvm.cc:229-230 | the symbol table holds for a label the address of the last row that carries it, cut to 16 bits |
| TvmTables.RecordedStorageIsDisjoint | tvm/tvm.cc:205-239 | without 16-bit overflow the recorded addresses of two unique labels are the starts of disjoint storage |
| TvmLayout.AddressIsSum | tvm/tvm.cc:218-238 | with one leading .ORIG, or none and the origin 0, and without 16-bit overflow the table puts a label behind the first row at the origin plus the sizes before it: 2 for a row without label or operand, else the characters of a .STRINGZ text, the number of a .BLKW, or 0 |
| TvmLayout.LabelsAreApart | tvm/tvm.cc:218-238 | two labels are apart by the sizes between them, so the later one is behind the string or block of the earlier |
| TvmLayout.ManyVariablesAddresses | tvm/test/data/many-variables.asm:1-9 | its five variables are at 0x3008, 0x3015, 0x3024, 0x3037 and 0x3038 |
| TvmCode.SkipComment | tvm/tvm.cc:125-128 | stops behind the next newline, or at the end with the last character read |
| TvmCode.ReadQuoted | tvm/tvm.cc:129-139 | takes everything up to the next quote or newline, and at the end of the input leaves the last character in place |
| TvmCode.Turn | tvm/tvm.cc:123-170 | one turn of Tokenize: the pushed tokens and the new state continue the specified token list |
| TvmCode.Tokenize | tvm/tvm.cc:114-175 | the loop makes the specified tokens, or fails at a newline inside quotes |
| TvmCode.InstructionRow.AssignLabel | tvm/tvm.cc:177-183 | takes the next token as label, or changes nothing at the end |
| TvmCode.InstructionRow.AssignOp | tvm/tvm.cc:185-191 | takes the next token as operation, or changes nothing at the end |
| TvmCode.InstructionRow.AssignOperand | tvm/tvm.cc:193-203 | takes the next token as the given operand; at the end or for a fourth operand changes nothing |
| TvmCode.InstructionRow.ParseSegment | tvm/tvm.cc:254-269 | fills the row and moves the iterator as specified for segments |
| TvmCode.InstructionRow.ParseInstruction | tvm/tvm.cc:276-307 | fills the row and moves the iterator as specified; stays exactly when the mnemonic is not handled |
| TvmCode.ParseTurn | tvm/tvm.cc:250-319 | one turn of Parse with its gotos is the specified row, and moves on unless it fails |
| TvmCode.ParseTokens | tvm/tvm.cc:241-319 | the loop makes the specified rows, and ends because tokens left go down |
| TvmCode.BuildTable | tvm/tvm.cc:205-239 | the loop builds the specified table, or meets the specified null pointer |
| TvmCode.ParseAll | tvm/tvm.cc:241-324 | Parse with its symbol table |
| TvmCode.EncodedWordFits | tvm/tvm.cc:326-535 | every word of the encoder fits 16 bits, whatever the row |
| TvmCode.EncodeRows | tvm/tvm.cc:326-535 | the first `len` words of the image are the specified words; stops at an error or a full image |
| Md5Spec.PaddedSizeIsLeast | ds/md5.cc:228-232 | the padded size is the least multiple of 64 with room for nine more bytes |
| Md5Code.FF | ds/md5.cc:77-81 | the update of `a` is the step formula of section 3.4 with the first function |
| Md5Code.GG | ds/md5.cc:83-87 | the same with the second function |
| Md5Code.HH | ds/md5.cc:89-93 | the same with the third function |
| Md5Code.II | ds/md5.cc:95-99 | the same with the fourth function |
| Md5Functions.FChooses | ds/md5.cc:72 | F takes the bits of its second argument where the first is set, and of the third elsewhere |
| Md5Functions.GChooses | ds/md5.cc:73 | G takes the bits of its first argument where the third is set, and of the second elsewhere |
| Md5Functions.HFlips | ds/md5.cc:74 | H flips with each argument, and is 0 of zeros |
| Md5Functions.IComplements | ds/md5.cc:75 | I complements its second argument where the first is set or the third is not, and keeps it elsewhere |
| Md5Functions.WordsInOrder | ds/md5.cc:119-185 | each round goes through the sixteen words from its first one in strides of 1, 5, 3 or 7 |
| Md5Code.SixteenIsSteps | ds/md5.cc:119-134 | sixteen steps in groups of four, after which the registers have their own names again, are a run of steps |
| Md5Code.Round1 | ds/md5.cc:119-134 | the unrolled first round is table-driven steps 0 to 15 |
| Md5Code.Round2 | ds/md5.cc:136-151 | the unrolled second round is steps 16 to 31 |
| Md5Code.Round3 | ds/md5.cc:153-168 | the unrolled third round is steps 32 to 47 |
| Md5Code.Round4 | ds/md5.cc:170-185 | the unrolled fourth round is steps 48 to 63 |
| Md5Code.WordIsOr | ds/md5.cc:263-267 | four bytes shifted and joined by bitwise or are the word with the low-order byte first |
| Md5Code.ExtractChunk | ds/md5.cc:256-269 | the array holds the sixteen words of the block |
| Md5Code.PadMessage | ds/md5.cc:228-254 | the two loops and eight pushes give the padding of sections 3.1 and 3.2 |
| Md5Code.Digest | ds/md5.cc:101-194 | for a padded size below 2^32 the digest is the algorithm of RFC 1321 |
| Md5Theorems.PadCarriesMessageAndLength | ds/md5.cc:228-254 | the padded message starts with the message and ends with its bit length modulo 2^64 |
| Md5Theorems.PadFillsWithZeros | ds/md5.cc:234-240 | between the message and the length are the byte 0x80 and zeros |
| Md5Theorems.PadIsInjective | ds/md5.cc:228-254 | different messages have different paddings, whatever their length |
| Md5Theorems.DigestLoopEnds | ds/md5.cc:103-110 | the 32-bit block counter, which is that of the loop of Digest, reaches the padded size exactly when that is below 2^32, which is for messages up to 2^32 - 73 bytes |
| Md5Theorems.LongMessageNeverEnds | ds/md5.cc:103-110 | on a message of one more byte it never does |
| Md5Theorems.BlockAdds | ds/md5.cc:187-190 | a block adds what its steps make of the registers to them |
| Md5Theorems.BlocksJoin | ds/md5.cc:110-191 | further blocks go on from the registers that those before them leave |
| Md5Theorems.RotateInverse | ds/md5.cc:51-53 | for every rotation of the table, rotating right undoes rotating left and the reverse |
| Md5Theorems.UnstepInverse | ds/md5.cc:77-99 | each step has a two-sided inverse |
| Md5Theorems.StepsAreBijective | ds/md5.cc:111-185 | for a fixed block every run of steps is a bijection on the four registers |
| Md5Theorems.CompressionIsInjective | ds/md5.cc:111-185 | before the feed-forward different registers stay different under the same block |
| Md5Text.TextBeginsWithLowByte | ds/md5.cc:196-226 | the text of a word gives its bytes from the low-order one on |
| Md5Text.DigestTextsDiffer | ds/md5.cc:196-226 | different digests have different texts |
| Md5Text.WordsHoldBytes | ds/md5.cc:256-269 | every byte of a block is in its word, and in its place there |
| Md5Values.DigestOfEmpty | ds/md5.cc:101-194 | the digest of the empty message of section A.5 of RFC 1321 |
| Md5Values.TextOfEmpty | ds/md5.cc:196-226 | its text is d41d8cd98f00b204e9800998ecf8427e |
| Codec.DecodeEncode | common/codec.cc:18-42 | decoding the low-order-first bytes of a number that fits gives the number |
| Codec.EncodeDecode | common/codec.cc:18-42 | encoding the number of some bytes gives the bytes |
| Codec.LittleEndianAt | common/codec.cc:18-29 | byte i is the number divided by 256 to the i, modulo 256 |
| Codec.PrefixValue | common/codec.cc:18-42 | the first k bytes are the number modulo 256 to the k |
| Codec.KnownBytes | common/codec.cc:18-42 | the bytes of a number with eight different ones |
| PsycalFiles.EncodeU64LE | common/codec.cc:18-29 | appends the eight bytes, low-order byte first |
| PsycalFiles.DecodeU64LE | common/codec.cc:31-42 | reads eight bytes, low-order byte first |
| PsycalFiles.RecordParses | psycal/message.cc:38-58 | a record is read back from in front of any bytes |
| PsycalFiles.RecordLayout | psycal/dump.cc:57-66 | byte by byte a record is the timestamp and the message size, low-order bytes first, and the message |
| PsycalFiles.ParsedRecord | psycal/message.cc:38-58 | what is read spells exactly the bytes that were taken |
| PsycalFiles.RecordsParse | psycal/dump.cc:24-97 | the records of any list of events parse to the list |
| PsycalFiles.ParsedRecords | psycal/dump.cc:24-97 | a whole file is the records of the events it parses to |
| PsycalFiles.AppendParses | psycal/dump.cc:51-68 | appending records to a whole file appends their events |
| PsycalFiles.GetEncodedMessage | psycal/event.cc:37-48 | the length and the bytes of the message |
| PsycalFiles.IntoBuffer | psycal/message.cc:26-36 | the records of all events in order |
| PsycalFiles.FromBuffer | psycal/message.cc:38-58 | the one event at the front of the buffer; nothing when the announced message leaves the buffer |
| PsycalFiles.FirstEventArrives | psycal/message.cc:26-58 | the first of the packed events arrives, whatever pads the packet |
| PsycalFiles.ReadEventsFrom | psycal/dump.cc:24-49 | the events of any file read with short reads at its end, each message cut at its first NUL |
| PsycalFiles.ReadOneIsRecord | psycal/dump.cc:27-46 | one turn of the loop reads a whole record as it is, up to a NUL, and consumes everything when there is none |
| PsycalFiles.WholeRecordsAreRead | psycal/dump.cc:24-49 | all whole records in front are read, and a rest that is none makes exactly one more event |
| PsycalFiles.CutOffRecord | psycal/dump.cc:27-36 | a record cut off anywhere is not whole, and keeps its timestamp when that is there |
| PsycalFiles.CutOffTimestamp | psycal/dump.cc:27-33 | of a timestamp that is cut off the low-order bytes are kept, and no message is read |
| PsycalFiles.CutOffMessage | psycal/dump.cc:30-44 | a message that is cut off begins with what is there of it and has no more than its announced size |
| PsycalFiles.ReadBack | psycal/dump.cc:24-97 | reading what was written gives the same events exactly when no message holds a NUL |
| PsycalFiles.NulCutsMessage | psycal/dump.cc:42-44 | a message with a NUL that comes back cut |
| PsycalProtocol.TickKeeps | psycal/server.cc:45-79 | a tick keeps the invariant and loses and duplicates nothing |
| PsycalProtocol.SnapshotKeeps | psycal/server.cc:81-92 | a snapshot keeps the invariant and moves the expired events to the history |
| PsycalProtocol.RestartKeeps | psycal/server.cc:37-40 | a restart with no snapshot pending gives the same state exactly when no waiting message holds a NUL |
| PsycalProtocol.StartIsInvariant | psycal/server.cc:25-43 | a start on saved files establishes the invariant |
| PsycalProtocol.StepKeeps | psycal/server.cc:25-92 | every step keeps the invariant and adds exactly the received event to the ledger |
| PsycalProtocol.RunsKeep | psycal/server.cc:25-92 | in every run whose restarts find no NUL waiting, initial and received events are, as a multiset, the queue, the expired list and the history; with no snapshot pending the file holds the queue |
| PsycalProtocol.RunsNeverGain | psycal/server.cc:25-92 | no run makes more of an event with a NUL than it received, and a restart that finds it waiting loses it for good |
| PsycalProtocol.RunsConserveEvents | psycal/server.cc:25-92 | a run conserves its events exactly when none of its restarts finds a message with a NUL waiting |
| PsycalProtocol.NulIsLostOverRestart | psycal/server.cc:25-92 | a run of one event with a NUL, a snapshot and a restart that loses it |
| PsycalProtocol.DiskHoldsLastSnapshot | psycal/dump.cc:51-97 | in every run the two files together hold exactly what the server knew at the last snapshot |
| PsycalProtocol.CrashLosesOnlyLater | psycal/server.cc:81-92 | breaking off between two steps loses exactly what was received after the last snapshot |
| PsycalProtocol.TickLeavesNothingDue | psycal/server.cc:54-72 | at any nanosecond a tick moves exactly the events whose second is past, in order of time, and leaves exactly those it is not past |
| PsycalProtocol.LogGrows | psycal/server.cc:45-92 | in every run the list of all that has expired, saved or not, only grows at its end, and only by events that some tick found waiting past their second |
| PsycalServer.PopTop | psycal/event.h:24-26 | popping tops gives nondecreasing timestamps, all before what is left |
| PsycalServer.WriteRecord | psycal/dump.cc:58-65 | appends one record |
| PsycalServer.SaveOld | psycal/dump.cc:51-68 | appends the records of the expired events |
| PsycalServer.SaveCurrentEvents | psycal/dump.cc:70-97 | writes a file that holds all events of the queue, and no more, in order of timestamp |
| PsycalServer.MovedIsAllDue | psycal/server.cc:56-72 | looking at tops only still moves exactly the due events |
| PsycalServer.DueIsPast | psycal/server.cc:54-59 | due is a clock in nanoseconds past the second of the event |
| PsycalServer.Server.constructor | psycal/server.h:33-41 | the state loaded from any events file; of a whole file, the start of the protocol |
| PsycalServer.Server.OnPacket | psycal/server.cc:27-35 | is a receive step of the protocol, for every packet that holds the message it announces |
| PsycalServer.Server.ExpireDue | psycal/server.cc:54-72 | moves the due events in order of timestamp and leaves none due |
| PsycalServer.Server.OnTick | psycal/server.cc:51-77 | is a tick step of the protocol |
| PsycalServer.Server.OnSnapshot | psycal/server.cc:83-90 | is a snapshot step of the protocol |
| MarkdownIdempotence.LexWellFormed | mdm/lexer.cc:38-197 | every token has a text of its kind, and its line is the number of newline tokens up to it |
| MarkdownLines.TokensLocated | mdm/lexer.cc:45-196 | every token is found in the input at its place - but for a delimiter or header that the end of the input completed - and its line is the number of newline characters in the text consumed with it |
| MarkdownLines.EndsAscend | mdm/lexer.cc:45-196 | the places of the tokens lie strictly one behind the other |
| MarkdownLines.NewlinesCounted | mdm/lexer.cc:69-77 | there are as many newline tokens as newline characters |
| MarkdownLines.LinesCountNewlines | mdm/lexer.cc:38-197 | for every input the tokens lie in it in order, as far as the end of the input did not complete the last one, each line counts the newlines of the consumed prefix, and no newline is lost |
| MarkdownWords.FreeIsWord | mdm/lexer.cc:25-31 | exactly the characters outside of the listed punctuation, symbols and white space belong to words |
| MarkdownWords.PunctuationEndsWord | mdm/lexer.cc:50-65 | a punctuation character behind a word ends it and becomes a token of its own, whatever follows, for every such character but the backtick |
| MarkdownWords.SymbolEndsWord | mdm/lexer.cc:50-65 | so does a symbol, for every symbol but the hash and the backslash, which is punctuation |
| MarkdownWords.BlankEndsWord | mdm/lexer.cc:67-77 | a blank ends a word and makes no token |
| MarkdownWords.HeadersByHashes | mdm/lexer.cc:133-170 | one, two or three hashes in front of a blank make a header of that level, and three backticks a code delimiter |
| MarkdownWords.WordsAreFree | mdm/lexer.cc:45-181 | no word of any text holds punctuation, a symbol or white space |
| MarkdownWords.StretchIsOneWord | mdm/lexer.cc:38-197 | every maximal stretch of other characters of any text is exactly one token, a word, at its place |
| MarkdownColumns.ColumnsCountTurns | mdm/lexer.cc:45-48 | for every text the column of a token counts the characters up to its place, but of a run of backticks or hashes only the first of each three; a word that does not end the text has one more |
| MarkdownColumns.PlainTurns | mdm/lexer.cc:45-48 | so without backticks and hashes columns are places |
| MarkdownIdempotence.RelexTokens | mdm/parser.cc:80-89 | every well-formed token list survives being written and lexed |
| MarkdownIdempotence.FormatIsIdempotent | mdm/lexer.cc:38-197 | for every input formatting twice is formatting once, token for token and character for character |
| MarkdownConservation.LexEmits | mdm/lexer.cc:45-196 | the texts of the tokens are the characters emitted turn by turn; no pending word is lost |
| MarkdownConservation.RunEmits | mdm/lexer.cc:79-170 | a run of backticks or hashes is taken by threes; inside the text a pair of backticks left over loses one, at the end the run is filled up |
| MarkdownConservation.LexerConservesText | mdm/lexer.cc:38-197 | the token texts are the input without spaces, tabs and carriage returns exactly when the run lengths balance |
| MarkdownConservation.RunsSuffice | mdm/lexer.cc:79-170 | they do when no inner run of backticks has length 2 modulo 3 and the last run has a length divisible by 3 |
| MarkdownConservation.LossIsMadeUpFor | mdm/lexer.cc:95-121 | but that is not needed: a loss can be made up for at the end |
| MarkdownConservation.PairOfBackticksLosesOne | mdm/lexer.cc:107-112 | an input that loses a character |
| MarkdownConservation.LastBacktickIsTripled | mdm/lexer.cc:98-120 | an input whose last backtick becomes three |
| MarkdownConservation.LastHashIsTripled | mdm/lexer.cc:146-169 | an input whose last hash becomes three |
| MarkdownCode.Lexer.Get | mdm/lexer.cc:45 | takes a character, or fails at the end and leaves the old one |
| MarkdownCode.Lexer.PunctToken | mdm/lexer.cc:79-131 | the token and the stream position of the punctuation branch, with its seeks |
| MarkdownCode.Lexer.SymbolToken | mdm/lexer.cc:133-179 | the token and the stream position of the symbol branch, with its seeks |
| MarkdownCode.Lexer.Turn | mdm/lexer.cc:46-181 | one turn of Process: pushed tokens and new state continue the specified token list |
| MarkdownCode.Lexer.Process | mdm/lexer.cc:38-197 | the loop over the stream makes the specified tokens |
| MarkdownCode.Write | mdm/parser.cc:80-89 | every text in order, with a space behind each but newlines |
| MarkdownWords.WrittenInPlace | mdm/parser.cc:80-89 | each token is written between those before and behind it, followed by one space unless it is a newline |
| MarkdownCode.MarkNewlineTokens | mdm/parser.cc:48-69 | flags the first token and those behind a newline, unless that newline comes first; all else stays |
| MarkdownCode.FlagsAreLineStarts | mdm/parser.cc:42-69 | the flags are the starts of lines exactly unless a newline opens the document and a token other than a newline follows it |
| MarkdownCode.OpeningNewlineHidesLine | mdm/parser.cc:48-69 | the word in a text of a newline and a word starts a line and is not flagged |
| Granulation.Granulator.constructor | common/granulator.h:32-46 | the number of threads and the grain |
| Granulation.Granulator.Step | common/granulator.cc:20-32 | the next range, modulo 2^64, and the step counted |
| Granulation.RangeOf | common/granulator.cc:20-32 | for every size and thread, with the wrap-around of the sum with the threshold: each thread gets one grain, the last also a remainder that it reaches over |
| Granulation.CoversPrefix | common/granulator.cc:20-32 | the ranges so far cover a prefix in order, without gap or overlap |
| Granulation.StepsPartition | common/granulator.h:32-46 | for every std::size_t of elements, all ranges partition them exactly when there are some and one thread works, or nothing remains, or the remainder is below the threshold and the sum does not wrap; so for up to 2^64 - 128 elements on up to 128 threads |
| Granulation.LargeRemainderIsLost | common/granulator.cc:24-25 | 51330 elements on 256 threads are not covered |
| Granulation.WrappedThresholdLosesRemainder | common/granulator.cc:24-25 | 2^64 - 2 elements on 4 threads are not covered, because the sum with the threshold wraps around |
| Granulation.EveryShareIsWorthwhile | common/granulator.h:39-45 | when several threads share, each gets at least 128 elements |
| Granulation.OneThreadTakesSmallWork | common/granulator.h:32-46 | one thread takes up to 128 elements for each hardware thread, and more are shared by all |
| MultiVector.TotalPermuted | misc/multi-vector.cc:118-123 | a sum does not depend on the order of the summands |
| MultiVector.PartialsOfCover | misc/multi-vector.cc:99-114 | partial sums of a cover add up to the sum of what is covered, modulo 2^64 |
| MultiVector.AnyOrderGivesTheSum | misc/multi-vector.cc:99-123 | whatever the order in which workers append, the total is the sum of the vector modulo 2^64 |
| MultiVector.MTVector.Add | misc/multi-vector.cc:46-49 | appends one item |
| MultiVector.Work | misc/multi-vector.cc:99-105 | one worker appends the sum of its range |
| MultiVector.HandOut | misc/multi-vector.cc:107-114 | one call of Step per thread |
| MultiVector.RunThreads | misc/multi-vector.cc:107-116 | in any order of the threads the vector holds all partial sums |
| MultiVector.FinalSum | misc/multi-vector.cc:118-123 | the sum of the items modulo 2^64 |
| MultiVector.ParallelSum | misc/multi-vector.cc:91-123 | whenever the ranges partition, the printed sum is the sum of the vector modulo 2^64 |
| MultiVector.CountingTotal | misc/multi-vector.cc:82-89 | the generated numbers add up to n(n+1)/2 |
| MultiVector.SumOfCounting | misc/multi-vector.cc:82-123 | the printed sum of the generated numbers is n(n+1)/2 modulo 2^64 whenever the ranges partition |
| Hashes.HashConcat | ds/hashes.cc:20-32 | hashing a concatenation is hashing on from the hash of the first part |
| Hashes.KnownPolynomials | ds/hashes_test.cc:47-68 | the hashes of the bytes 1 to 5 |
| Hashes.Djb2 | ds/hashes.cc:20-25 | the shift-and-add loop is the polynomial in 33 modulo 2^64 |
| Hashes.Sdbm | ds/hashes.cc:27-32 | the loop of shifts is the polynomial in 65599 modulo 2^64 |
| Hashes.OddCancels | ds/hashes.cc:20-32 | an odd factor cancels modulo any power of two |
| Hashes.ByteChangeDetected | ds/hashes.cc:20-32 | with an odd multiplier every change of one byte changes the hash |
| Hashes.LoseLose | ds/hashes.cc:34-38 | the sum of the bytes modulo 2^64, which FletcherDetectsSwap shows not to see a swap |
| Hashes.Fletcher16 | ds/hashes.cc:40-50 | both accumulators modulo 2^8, the second in the high half |
| Hashes.Fletcher32 | ds/hashes.cc:52-62 | both accumulators modulo 2^16, the second in the high half |
| Hashes.KnownFletcher | ds/hashes_test.cc:77-105 | two known checksums |
| Hashes.SumsAppend | ds/hashes.cc:40-62 | one more byte adds to the sum, and the new sum to the sum of sums |
| Hashes.SumsUpdate | ds/hashes.cc:40-62 | what changing one byte does to the sum and to the sum of sums |
| Hashes.FletcherDetectsChange | ds/hashes.cc:40-62 | both checksums detect every change of one byte |
| Hashes.FletcherDetectsSwap | ds/hashes.cc:34-62 | both detect every swap of different neighbours, which the plain sum does not |
| BigInts.DigitsOf | ds/bigint.cc:23-33 | the digits of a numeric text in order; anything else is refused |
| BigInts.TextRoundTrip | ds/bigint.cc:99-104 | ToString undoes the constructor on every numeric text |
| BigInts.DigitsRoundTrip | ds/bigint.cc:99-104 | and the constructor undoes ToString on every list of digits |
| BigInts.TextValue | ds/bigint.cc:23-33 | the digits of a text have the value of its decimal number |
| BigInts.BigInt.Print | ds/bigint.cc:99-104 | one character for each digit |
| BigInts.AddDigits | ds/bigint.cc:51-69 | the column sums have the value of the sum, and fit an int8 |
| BigInts.ApplyCarry | ds/bigint.cc:71-81 | one pass makes all digits 0 to 9 and keeps the value, with the last carry in front |
| BigInts.BigInt.Plus | ds/bigint.cc:42-86 | the result has the value of the sum, digits 0 to 9, and the length of the longer operand or one more |
| BigInts.DigitsUnique | ds/bigint.cc:42-86 | digits of one length are determined by their value |
| BigInts.SumCommutes | ds/bigint.cc:42-86 | a + b and b + a have the same digits |
| Hexadecimal.NumberOfText | uuid/uuid.cc:70-80 | padded hexadecimal text is read back as its number |
| Hexadecimal.TextOfNumber | uuid/uuid.cc:70-80 | and a digit string is the padded text of its number |
| Uuids.HyphenatedGroups | uuid/uuid.cc:82-86 | four insertions into the growing text give groups of 8, 4, 4, 4 and 12 digits |
| Uuids.PairsOfGroup | uuid/uuid.cc:47-66 | reading a group of digits appends them to the two words, the first sixteen to the first |
| Uuids.Parse | uuid/uuid.cc:31-68 | the loop over iterator, counter and two words is the specified reading, with its errors and its read past the end |
| Uuids.StringIsRead | uuid/uuid.cc:31-89 | every 128-bit value survives printing and reading, and prints as a well-formed text |
| Uuids.ReadIsString | uuid/uuid.cc:31-89 | the texts that are accepted and print back unchanged are exactly the well-formed ones |
| Uuids.HyphensAreZero | uuid/uuid.cc:37-51 | a text of 36 hyphens is accepted, as zero |
| Uuids.KnownUuid | uuid/uuid.cc:31-68 | a text with all sixteen digits and its two words |
| Uuids.KnownText | uuid/uuid.cc:70-89 | and the text of these words |
| Uuids.Refusals | uuid/uuid.cc:32-41 | texts with other characters, of another size, or without the four hyphens are refused, each with its error |

## Left out

- Sockets, UDP, file opening, directories, getopt, console prints, X11 and SDL: no model of I/O.
- `mktime`, `localtime_r` and the range of `time_point` in psycal: timestamps are opaque 64-bit values, the time of a tick is an input.
- Server threads: each critical section is one step; the start order in the constructor and the unlocked load of Start are taken as done before the first step, and no step is cut short by a crash.
- Server.Tick: the read of `top()` that follows the last pop is guarded; the source reads an empty queue there.
- PsycalFiles.ReadEventsFrom: the byte behind the buffer of a message is taken to be NUL, the uninitialised rest of the buffer of a cut-off record is a parameter, and a buffer of the announced size can be allocated.
- PsycalFiles.FromBuffer: the source copies past the packet when the announced message leaves it; the model stops there.
- BrainfuckMachine.Brainfuck.Run: requires code that is nested and halts; scans that leave the text have no defined result, and `FlatHalts` covers when it does not halt.
- TvmRoundTrip.AssembleInverse: covers the instructions that the encoder supports with literal operands; JMP and LDI stall the parser, LDR has no word, ST takes both its fields from its first operand, and bare BR has no condition bits.
- Label operands in tvm: the encoder reads a label operand as a number instead of looking it up, so no property of resolved labels holds.
- tvm operands are evaluated left to right; number extraction follows libstdc++ (too large gives the maximum, a minus negates modulo 2^16); the unused `opcode_` field, the prints of BuildSymtab and offsets above 2^64 are not modelled.
- MultiVector.HandOut: each worker gets its range by value; the source passes a reference to a variable of the loop body.
- Granulation.Granulator.constructor: requires at least one hardware thread, since the source divides by the number.
- `ResetSteps` of the granulator, the markdown symbol table and state machine.
- BigInt subtraction and the sign field: unfinished in the source.
- UUID generation, and the componentwise comparisons, which are no order.
- The interactive tvmi, tinydb, misc/lbos, fttl, packetdraw, pshy, gamejam and uuid/mac: unfinished, or easier repeats of shapes covered here.
