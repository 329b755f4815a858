# Geometry OS: a verified model of its hard core

Geometry OS is a small virtual machine with a pixel screen, a stack language that compiles to it, two file systems, a
memory of past program runs, and a terminal drawn on a text grid. This Dafny project models six parts of it and proves
what they are for.

- **GlyphLang** (`Words`, `GlyphVm`, `Assembler`, `GlyphCompiler`, `GlyphLabels`, `GlyphSource`, `LineMachine`,
  `GlyphSim`, `GlyphRuns`, `GlyphContain`, `GlyphFall`, `GlyphTexts`, `GlyphBytecode`, `GlyphEffects`, `Numerals`,
  `GlyphLexer`, `GlyphLexLaws`, `GlyphPipeline`): the lexer, the compiler from tokens to labelled assembly, the two-pass
  label resolution, and the machine cycle on a RAM that code and stack share.
  The compiled program simulates a direct stack interpreter in both directions, for runs of any length.
- **Pixel file system** (`PixelFs`, `PixelHash`, `PixelOps`, `PixelCells`, `PixelRefine`, `PixelLimits`, `PixelRuns`):
  a directory and byte store in a 256 x 256 array of words, rewritten in place. It refines an ordered list of (16-bit hash, bytes).
- **Inode file system** (`InodeFs`, `InodeDir`, `InodeOps`, `InodeTree`, `InodeFrames`, `InodePaths`): a class whose
  methods update a map of inodes. The tree invariant holds over every run with proper last components; for a single successful
  operation, exactly for those.
- **Episode log** (`EpisodeText`, `EpisodeLog`, `EpisodeParse`, `EpisodeSearch`, `EpisodeRows`, `EpisodeTrip`,
  `EpisodeFormat`): a JSON line printed by hand and read back by substring search, with the exact condition for the
  round trip.
- **Canvas** (`Canvas`, `CanvasRead`, `CanvasCells`): the wrapping writer, the loader and the selection reader over a
  flat cell array.
- **Scrollback** (`Scrollback`): the ring buffer, as the tail of everything ever pushed.

Loops and in-place updates of the program are methods with loops over arrays, fields and sequences; each is proved equal
to a function, and the properties are proved about those functions. The modules whose lemmas fix such a function from
outside, by laws or by a listing, are `GlyphLexLaws`, `GlyphBytecode`, `GlyphTexts`, `PixelHash`, `PixelCells`,
`InodePaths`, `EpisodeFormat` and `CanvasCells`. `dafny verify dfyconfig.toml` checks everything.

## How to read the main results

- The source interpreter of GlyphLang has a stack, the variables a to z, a drawing log, and the value left in the second
  scratch register, which `.` draws as its y coordinate. Its depth limit is the room between the code and address
  0x8000. It is stuck (no next state) on stack underflow or overflow and at the five tokens outside the model.
- `Runnable` asks what a caller can check: known operators, no user name of the forms `_gl<n>` and `_str<n>`, an
  assembly that succeeds, and code that ends below the stack.
- In the pixel file system, `Rep` says that valid files lie in pairwise disjoint row ranges inside rows 1 to 255, that
  at most 254 are listed, and that every entry points at a valid header. The library checks neither the length nor the
  room of a new or grown file; `Fits` states that part of the caller. `CreateExact` and `AppendExact` say, on the surface
  and by length, when a call can damage a file: some data of a length that does not fit does, and no data of one that
  fits.
- In the inode file system, `Tree` says that the root and the cwd are directories, that every non-dot entry names an
  existing inode that knows its parent and has a larger number, that every inode but the root has exactly one such
  entry, and that size equals data length and is at most 4096.
- In the episode log, `Tail` is the text after a value's last double quote. A search for a key stops inside a value
  exactly when the value's tail is the key's name.

## Where code and comments disagree

The model follows the code.

- The token comment writes a jump as `>name` (`src/glyph_backend.rs:68`); the lexer uses `~name`.
- The register mapping (`src/glyph_backend.rs:6-10`) gives r1 to r26 to the variables and calls r27 to r29 the scratch
  registers, but loops, rectangles and texts also overwrite r25 and r26, that is y and z.
- The variables L, M and S can be stored (as l, m, s) but not loaded: those capitals are other tokens.
- "Ensure program always ends with HALT" (`src/glyph_backend.rs:539`) is a substring test, so a label whose name
  contains HALT suppresses the trailing instruction; `TextReached` says exactly when string data is then executed.
- The loop token draws once for an empty range, and wraps the long way round from the largest positive number.
- The comment of the canvas loader speaks of column 32; the limit is the 128 of `src/render.rs:138`.
- The compact histogram is announced as `[opcode, count, pct]` (`src/episode_log.rs:253`) and printed with the mnemonic.

## Model

| member | source | states |
|---|---|---|
| Words.DecInjective | src/glyph_backend.rs:290-294 | decimal rendering, which numbers the generated labels, gives different texts for different counters |
| Words.WrapSigned | src/vm/mod.rs:648-685 | wrapping keeps the residue modulo 2^32, and the signed reading of a word is its representative from -2^31 to 2^31 - 1 |
| Numerals.DecMeans | src/glyph_backend.rs:290-294 | the decimal rendering of a counter is its base-10 numeral, without leading zeros |
| Numerals.ImmExact | src/assembler/mod.rs:349-368 | a numeric operand means its digits' value in base 16 after 0x, base 2 after 0b and base 10 otherwise, in both letter cases; a prefix with no digits, a foreign digit or a value of 2^32 and more is no number |
| GlyphVm.DecodeEncode | src/vm/io.rs:46-60 | fetching at an address where an encoded instruction lies gives back that instruction, for every instruction the compiler emits and any other RAM contents |
| Assembler.FetchAt | src/assembler/mod.rs:270-325 | after the two label passes, the machine decodes at the offset of every instruction line that instruction with its label operand replaced by the label's offset |
| GlyphCompiler.EmitTokens | src/glyph_backend.rs:304-537 | the token loop, with its growing text, string table and label counter, fails exactly on an unknown operator and otherwise accumulates the blocks of all tokens in order |
| GlyphCompiler.CompileTokens | src/glyph_backend.rs:284-554 | compilation is total on valid operators; the text is prologue, blocks, a trailing HALT unless the text already mentions HALT, then the string section |
| GlyphCompiler.EmitStrings | src/glyph_backend.rs:544-551 | the string section lists every literal in order under its numbered name |
| GlyphLabels.GlDistinct | src/glyph_backend.rs:290-294 | two generated labels coincide only when their counters do, and none coincides with a string name |
| GlyphLabels.GeneratedOnce | src/glyph_backend.rs:332-366 | in the whole output a generated label is defined at one line only, and that line is inside the block of the token it was made for |
| GlyphLabels.GeneratedTarget | src/glyph_backend.rs:387-395 | a jump to a generated label resolves to an address inside the block of the token that emitted the jump |
| GlyphLabels.UserTarget | src/glyph_backend.rs:513-535 | a user name resolves, ignoring case, to the block of its last definition in the token list, or to nothing when there is none |
| GlyphLabels.CaseBlind | src/assembler/mod.rs:277-281 | two names are the same label if and only if they differ in the case of ASCII letters at most |
| GlyphLabels.StringTarget | src/glyph_backend.rs:465-470 | the i-th string name resolves to the address of the line that holds the i-th literal; TextLoaded says which words lie there |
| GlyphLabels.Locate | src/glyph_backend.rs:296-551 | every line of the output is a prologue line, a line of exactly one token's block, the trailer or part of one string entry |
| GlyphLabels.AssemblesIff | src/assembler/mod.rs:270-325 | label resolution is total: with no reserved user names, assembly succeeds if and only if every jump names a defined label or a number, every register exists and every string survives line splitting |
| GlyphTexts.TextLoaded | src/assembler/mod.rs:192-208 | wherever the assembled program is in memory, the address the i-th string name resolves to holds the characters of the i-th literal in order, and then a zero word |
| GlyphTexts.TextThroughout | src/glyph_backend.rs:465-470 | so it does in every cycle of a run until the source program is stuck or falls into its strings |
| GlyphTexts.StringPushed | src/glyph_backend.rs:465-470 | after a string token the machine's stack is one deeper and its top is the address of exactly that token's characters |
| GlyphBytecode.TokenBytecode | src/glyph_backend.rs:304-537 | in memory each token is a fixed list of words, given number by number for every kind of token, its own branch targets included |
| GlyphBytecode.ProgramBytecode | src/glyph_backend.rs:284-554 | the two passes of the assembler over the compiled text give word for word the one-pass listing: nine words of setup, the tokens' words at their addresses, a HALT where no token or name mentions one, and the strings |
| LineMachine.StepRefines | src/vm/mod.rs:547-911 | one machine cycle on the assembled words is one step at the level of assembly lines, with the memory stack seen as a sequence |
| LineMachine.TrailRuns | src/vm/mod.rs:547-911 | a run of any length at the level of lines is a run of as many machine cycles |
| GlyphSim.CompareTwice | src/glyph_backend.rs:333-365 | comparing CMP's answer in r0 with 1 (or -1) and branching on zero yields exactly the signed comparison asked for, for all operand pairs |
| GlyphSource.ArithMeans | src/vm/mod.rs:648-685 | the source's sums, differences and products are the integer ones modulo 2^32, quotients are rounded down, and division by zero leaves the dividend |
| GlyphSource.TruthMeans | src/vm/ops_graphics.rs:126-142 | its comparisons are two's-complement ones |
| GlyphSim.OpCode | src/glyph_backend.rs:309-325 | the block of an arithmetic token pops two, pushes the wrapped result (the left operand on division by zero) and leaves everything else |
| GlyphSim.EqualCode | src/glyph_backend.rs:358-368 | the block of `=` pushes 1 or 0, whichever way its branch goes |
| GlyphSim.OrderCode | src/glyph_backend.rs:332-357 | the blocks of `>` and `<` push 1 or 0 according to the signed order |
| GlyphSim.ConditionalCode | src/glyph_backend.rs:377-396 | the block of `?` replaces condition and two values by the chosen value on both paths |
| GlyphSim.LoopRun | src/glyph_backend.rs:398-419 | from the loop head, the do-while draws one pixel for each value of the range in order, at the end value's row, and leaves the loop after exactly that many turns, 32-bit overflow of the counter included |
| GlyphSim.LoopCode | src/glyph_backend.rs:398-419 | the whole block of `L` leaves the stack two shorter with the draws of its range; for s < e that is e - s draws, otherwise one, except from the largest positive number |
| GlyphSim.TokenCode | src/glyph_backend.rs:302-537 | every token the model covers is simulated by its block, whose states stay inside the block and keep the variables meanwhile |
| GlyphEffects.EffectReached | src/glyph_backend.rs:421-439 | whenever the source program is at `M`, `S`, `^`, `$` or `&` with its operands on the stack, the machine comes to execute that token's store or system instruction with the top operand in r27, for `M` the one below it in r28, and everything else as the source has it |
| GlyphEffects.Answered | src/glyph_backend.rs:421-512 | once a system instruction has put its answer into r27, for `$` into r0, the next cycle pushes the answer and the machine is at the next token |
| GlyphEffects.Stored | src/glyph_backend.rs:431-439 | once `M` has put the lower operand at the address given by the upper one, above the stack, the machine is at the next token with both operands gone |
| GlyphRuns.CompilerCorrect | src/glyph_backend.rs:284-554 | whatever state the direct stack interpreter reaches after n tokens, loops and jumps included, the machine on the assembled words reaches with the same stack above r30, variables in r1 to r26, drawing log and next token |
| GlyphRuns.EveryCycle | src/glyph_backend.rs:284-554 | conversely, every machine cycle of every run lies in the block of the token the source program is executing, until the source program is stuck |
| GlyphRuns.HaltsIff | src/glyph_backend.rs:284-554 | the machine halts, other than after the source program was stuck or fell into its strings, if and only if the source program halts; and whenever both halt, stack, variables and drawing log agree |
| GlyphRuns.EmptyIsRunnable | src/glyph_backend.rs:284-302 | the conditions of the run theorems can be met: the empty program compiles, assembles and leaves room for the stack |
| GlyphRuns.VariablesThroughout | src/glyph_backend.rs:6-10 | in every cycle until the source program is stuck, in the middle of a block too, r1 to r24 are a to x; r25 and r26 are y and z unless the token is a loop, rectangle or text (against the mapping comment) |
| GlyphRuns.OnlyStoreWrites | src/glyph_backend.rs:455-463 | a token other than the store to variable i never changes it, but for the y and z overwritten by the three drawing tokens, whose values are given |
| GlyphRuns.Unwritten | src/glyph_backend.rs:6-10 | a variable no token writes is zero in every cycle, from the first one on, until the source program is stuck or falls into its strings |
| GlyphRuns.TextReached | src/glyph_backend.rs:539-551 | with strings present, some cycle before the source program is stuck at a token executes string data if and only if the source program runs off its last token while no trailing HALT was added; when it never gets stuck that covers every cycle |
| GlyphRuns.NoFall | src/glyph_backend.rs:539-551 | a final halt token, or no mention of HALT in the text, rules that out for every run |
| GlyphContain.StepInside | src/vm/mod.rs:547-911 | when the code ends in a HALT and jumps name labels, one cycle from an instruction before the strings leads to another such one or stops, whatever the registers and the stack hold |
| GlyphContain.Contained | src/glyph_backend.rs:539-551 | so no cycle executes string data, source underflow or not, as long as the stack pointer has stayed above the code |
| GlyphRuns.MentionedUpTo | src/glyph_backend.rs:539-542 | the substring test finds HALT exactly when there is a halt token or a label or jump name containing those letters |
| GlyphFall.FallingRunnable | src/glyph_backend.rs:539-551 | a program with a string, a label named HALT and a jump to it meets every condition of the run theorems |
| GlyphFall.FallingFalls | src/glyph_backend.rs:539-551 | that program runs off its last token with no trailing HALT behind it |
| GlyphFall.StringExecuted | src/glyph_backend.rs:539-551 | so its compiled code executes the characters of its own string |
| GlyphLexer.Lex | src/glyph_backend.rs:100-257 | the scanning loop with its inner loops yields the token list of the reference scanner, which the laws below fix for every piece of text |
| GlyphLexer.LexRender | src/glyph_backend.rs:100-257 | lexing the tokens' spellings, each followed by a space, gives the tokens back |
| GlyphLexLaws.TokenPiece | src/glyph_backend.rs:100-257 | every token's spelling becomes that token and the rest of the text is scanned from there, whatever follows that does not continue a number or a name |
| GlyphLexLaws.HexRead | src/glyph_backend.rs:121-136 | every 32-bit word written in hexadecimal, with 0x or 0X and letters in either case, is scanned as that number |
| GlyphLexLaws.HexLiteral | src/glyph_backend.rs:121-136 | a hexadecimal literal, letter cases mixed and leading zeros allowed, is the value of its digits in base 16, or 0 from 2^32 on |
| GlyphLexLaws.DecimalLiteral | src/glyph_backend.rs:121-136 | a decimal literal is the value of its digits in base 10, or 0 from 2^32 on |
| GlyphLexLaws.Malformed | src/glyph_backend.rs:121-136 | a scanned literal that is neither, such as 0x alone or with a second x, is the number 0 |
| GlyphLexLaws.Comment | src/glyph_backend.rs:110-118 | a comment up to the end of its line, or of the text, gives no token |
| GlyphLexLaws.Skipped | src/glyph_backend.rs:106-252 | spaces, tabs, carriage returns, newlines and every character the language does not use give no token |
| GlyphLexLaws.StringPiece | src/glyph_backend.rs:173-182 | a string literal runs to the next quote, whatever its characters, and without one to the end of the text |
| GlyphLexer.LexImage | src/glyph_backend.rs:100-257 | the token lists some text lexes to are exactly those made of spellable tokens: L, M and S cannot be loaded, names and strings use only scanner characters |
| GlyphLexer.LexJoin | src/glyph_backend.rs:100-257 | joining two sources with a newline joins their tokens if and only if the first leaves no string literal open |
| GlyphPipeline.CompileGlyph | src/glyph_backend.rs:276-281 | source text always compiles: the scanner yields no operator the compiler rejects |
| GlyphPipeline.CompileGlyphToBytecode | src/glyph_backend.rs:560-570 | text without reserved names becomes bytecode if and only if each jump resolves and each string survives line splitting |
| PixelFs.ComputeFnv1a | include/vfs_pixel.h:43-47 | the loop with its running 32-bit word computes the fold of the name that HashLaws fixes byte by byte |
| PixelHash.HashLaws | include/vfs_pixel.h:43-47 | the empty name hashes to 2166136261, and each further byte is xored into the hash so far and the result multiplied by 16777619 in 32 bits |
| PixelHash.HashOfAb | include/vfs_pixel.h:43-47 | the name ab hashes to 0x4d2505ca |
| PixelHash.OneByteApart | include/vfs_pixel.h:43-47 | two names that differ in exactly one byte, wherever it is, have different 32-bit hashes: the prime has an inverse, so no step loses anything |
| PixelFs.PackBytes | include/vfs_pixel.h:98-106 | each of the four bytes packed in a cell is read back from its own eight bits |
| PixelFs.HeaderFields | include/vfs_pixel.h:94-96 | count, hash byte and flags are read back from the header word they were packed in |
| PixelOps.Find | include/vfs_pixel.h:55-69 | the search loop finds the row of the first entry with the name's hash whose file is valid, or 0 |
| PixelOps.RepFind | include/vfs_pixel.h:55-69 | on a well-formed surface the lookup yields the row of the first listed file with the hash, or none when no file has it |
| PixelOps.RepFree | include/vfs_pixel.h:77-88 | on a well-formed surface the scan over headers yields the first row behind every listed file, each counted as if its data began in the guest column |
| PixelOps.WriteFile | include/vfs_pixel.h:89-112 | the name, header, packed data and directory writes, in place on the pixel array, together give the surface with the new file and every other cell as it was |
| PixelOps.Create | include/vfs_pixel.h:72-114 | returns the row the list of files determines, or 0 with nothing written |
| PixelOps.Read | include/vfs_pixel.h:117-137 | stores in the buffer exactly the bytes of the first file with the name's hash, as far as the buffer goes, and leaves the rest of the buffer alone; -1 when there is none |
| PixelOps.Append | include/vfs_pixel.h:140-171 | rewrites the cells of the grown file, merging the partial last one, for guest and host files alike; -1 when there is none |
| PixelOps.Unlink | include/vfs_pixel.h:174-193 | invalidates the header, closes the gap in the directory and clears the last entry; -1 when there is none |
| PixelCells.RowForNew | include/vfs_pixel.h:72-88 | a create takes the lowest row not reached by any listed file, rows counted as if data began in column 64, exactly when the name has 1 to 63 bytes, fewer than 254 files are listed and that row is below 255 |
| PixelCells.CreatedCells | include/vfs_pixel.h:7-17 | after a create count, directory entry, header, name bytes and little-endian data cells stand where the layout comment puts them, and every other cell is unchanged |
| PixelCells.AppendedCells | include/vfs_pixel.h:140-171 | an append changes the header in its length only and touches nothing but header and data cells |
| PixelCells.UnlinkedCells | include/vfs_pixel.h:174-193 | an unlink clears the valid bit of the removed header and no other bit, moves the later entries down by one, clears the last one, and touches nothing else |
| PixelRefine.NewFileStored | include/vfs_pixel.h:89-112 | after a create the surface holds the file: byte k of the data is byte k mod 4 of data cell k / 4 |
| PixelRefine.GrownFileStored | include/vfs_pixel.h:140-171 | after an append the surface holds the old bytes followed by the new ones, in the merged cell too |
| PixelRefine.CreateRefines | include/vfs_pixel.h:72-114 | a create whose length fits 16 bits and whose rows end by row 256 keeps the surface a well-formed file system with the file added to the list; otherwise the new list is no legal layout |
| PixelRefine.AppendRefines | include/vfs_pixel.h:140-171 | an append that fits 16 bits, the surface and the gap before every other file makes the file's bytes old followed by new and keeps every other file and entry; otherwise the new list is no legal layout |
| PixelRefine.UnlinkRefines | include/vfs_pixel.h:174-193 | unlinking takes exactly the first file with the hash out of the list, and all others stay stored and listed in order |
| PixelLimits.ReadStored | include/vfs_pixel.h:117-137 | the header keeps 16 bits of the length: a stored file reads back up to its length modulo 65536, and no further |
| PixelLimits.CreatedReads | include/vfs_pixel.h:72-137 | a read after a create of any length that ends on the surface gives the data up to its length modulo 65536 |
| PixelLimits.CreateExact | include/vfs_pixel.h:72-137 | for each length that ends on the surface: a create leaves the new file and all older ones valid and readable whole, whatever the data, if and only if the length is below 65536 |
| PixelLimits.AppendedReads | include/vfs_pixel.h:117-171 | a read after an append of any length that ends on the surface gives old bytes followed by new ones, up to their length modulo 65536 |
| PixelLimits.HeaderLost | include/vfs_pixel.h:140-171 | zero bytes appended into another file's first row leave a zero word where its header was |
| PixelLimits.AppendExact | include/vfs_pixel.h:117-171 | for each number of bytes that ends on the surface: an append leaves the grown file and every other one valid and readable whole, whatever the bytes, if and only if the new length is below 65536 and the new last row is clear of every other file's rows |
| PixelRuns.StepRefines | include/vfs_pixel.h:55-193 | each call on the surface gives the reply, and a surface for the state, that the same call gives on the ordered list of (hash, bytes) |
| PixelRuns.RunRefines | include/vfs_pixel.h:55-193 | any sequence of calls that fit gives on the surface the replies and files it gives on the list; before every call and at the end the surface is well formed, with disjoint row ranges and valid headers, and holds the list's files |
| PixelRuns.EmptySurface | include/vfs_pixel.h:50-52 | a surface is an empty file system exactly when its count is zero |
| PixelRuns.CreateThenRead | include/vfs_pixel.h:72-137 | reading just after creating returns exactly the bytes written, unless an older file has the same 16 hash bits, whose bytes are returned then |
| PixelRuns.AppendThenRead | include/vfs_pixel.h:117-171 | on the surface, an append that fits shows up in the next read of that name, behind the old bytes, and changes no read of a name with another hash |
| PixelRuns.TwoCreates | include/vfs_pixel.h:72-114 | creating the empty files a and b on an empty surface puts them in rows 1 and 2 |
| PixelRuns.NeighbourLost | include/vfs_pixel.h:140-171 | appending 769 zero bytes to that a succeeds and loses b: it reads before and is not found after |
| PixelRuns.LengthLost | include/vfs_pixel.h:72-137 | on an empty surface a create of 65536 bytes succeeds and the next read returns none of them |
| InodeOps.FileSystem.constructor | src/inode_fs.rs:104-114 | a new file system is a lone root directory without dot entries |
| InodeOps.FileSystem.AllocIno | src/inode_fs.rs:117-121 | numbers are handed out one after the other |
| InodeOps.FileSystem.ResolvePath | src/inode_fs.rs:126-157 | the component loop computes the walk along the non-empty components; PathLaws and RelativePath say what that is, relative paths included |
| InodeOps.FileSystem.MakeDir | src/inode_fs.rs:161-210 | the in-place steps, dot entries included, give the state of the reference operation, or 0 and no change; DirectoryCreated says what is in it |
| InodeOps.FileSystem.MakeFile | src/inode_fs.rs:220-261 | the in-place steps give the state of the reference operation, or 0 and no change; FileCreated says what is in it |
| InodeOps.FileSystem.Remove | src/inode_fs.rs:265-319 | the in-place removal from the parent of the textual path, then from the map, with the cwd reset when it was removed |
| InodeOps.FileSystem.ChangeDir | src/inode_fs.rs:416-432 | the cwd changes exactly when the path resolves to a directory |
| InodeOps.FileSystem.Read | src/inode_fs.rs:323-345 | the loop copies what is left of the data from the offset on into the front of the buffer, and no more |
| InodeOps.FileSystem.Write | src/inode_fs.rs:349-375 | the word loop, with its padding loop, stops at the limit of 4096 words and gives the state of the reference write |
| InodeOps.FileSystem.Cut | src/inode_fs.rs:481-494 | shortens data and size, never lengthens them |
| InodeOps.FileSystem.ListDir | src/inode_fs.rs:437-477 | the buffer receives a prefix of the encoded sorted listing, its rest is unchanged, and the count is of all entries even when the buffer is short |
| InodeDir.SortedIsSorted | src/inode_fs.rs:444-452 | the listing order is strictly increasing, hence without duplicates |
| InodeDir.LessMeans | src/inode_fs.rs:451-451 | that order is bytewise: the first differing byte decides, and a proper prefix comes first |
| InodeDir.DecodeEncode | src/inode_fs.rs:437-477 | decoding an encoded listing, length, characters and zero word for each name, gives back exactly the names' characters in order, whatever words follow |
| InodeDir.BytesInjective | src/inode_fs.rs:459-470 | different names are encoded differently |
| InodeTree.NewIsTree | src/inode_fs.rs:104-114 | a new file system satisfies the tree invariant |
| InodeTree.ParentIsBelow | src/inode_fs.rs:192-210 | in a tree every parent is a directory with a smaller number, so parent chains end at the root |
| InodeTree.CreationTree | src/inode_fs.rs:161-261 | a successful mkdir or create_file keeps the tree if and only if the last component is not a dot name; a failed one changes nothing |
| InodeTree.DotDirectory | src/inode_fs.rs:161-210 | in a new file system mkdir of `/.` succeeds and leaves no tree |
| InodeTree.UnlinkTree | src/inode_fs.rs:265-319 | a successful unlink keeps the tree if and only if the last component is non-empty and not `.`; a failed one changes nothing |
| InodeTree.UnlinkShape | src/inode_fs.rs:265-319 | what a successful unlink removed is a leaf, from the directory it is entered in, except after a trailing slash or `.`, where the entry stays behind |
| InodeTree.DanglingDirectory | src/inode_fs.rs:265-319 | made as `/a` and removed as `/a/`, a directory leaves its name behind: unlink succeeds and the tree is broken |
| InodeTree.ChdirTree | src/inode_fs.rs:416-432 | chdir keeps the tree for every path |
| InodeTree.DataTree | src/inode_fs.rs:349-375 | write and truncate keep the tree, with size equal to the data length and at most 4096 |
| InodeTree.RunKeepsTree | src/inode_fs.rs:104-494 | after every sequence of operations with proper last components from a new file system the tree invariant holds |
| InodeFrames.RootPath | src/inode_fs.rs:126-157 | in a tree every inode is reached by an absolute path of proper names |
| InodePaths.PathLaws | src/inode_fs.rs:126-157 | resolution is fixed for all paths: the empty path leads nowhere, `/` to the root, a doubled or trailing slash changes nothing, and one more name is looked up in the current directory, in the root or in what the path before it leads to |
| InodePaths.RelativePath | src/inode_fs.rs:131-135 | a relative path leads where it leads after any path of the current directory |
| InodePaths.ChdirMoves | src/inode_fs.rs:416-432 | chdir succeeds exactly for a path to a directory; then every relative path leads where it led after that path before, absolute paths and all inodes stay as they were |
| InodeFrames.CreationFrame | src/inode_fs.rs:161-261 | a successful creation makes its path resolve to the new inode, keeps the result of every path that resolved, and changes another only if its walk passes the new inode |
| InodePaths.FileCreated | src/inode_fs.rs:220-261 | create_file succeeds exactly for a name of 1 to 64 bytes without NUL in an existing directory that does not have it; then the new inode has the asked type, no data, size 0 and no children, its directory has one more name, and nothing else has changed |
| InodePaths.DirectoryCreated | src/inode_fs.rs:161-210 | mkdir succeeds in the same cases, and its new directory's `.` leads to itself and `..` to the directory it is in |
| InodePaths.SlashNeeded | src/inode_fs.rs:167-170 | a path without a slash is never created nor removed |
| InodePaths.CreateThenWrite | src/inode_fs.rs:213-375 | what is written to a regular file or pipe just created is stored, up to 4096 words, and reads back; a directory or device takes nothing |
| InodePaths.Removed | src/inode_fs.rs:265-319 | unlink succeeds exactly for a path with a slash that leads, not to the root, but to a file, empty or not, or a directory without user entries; all other inodes keep everything but the one entry, and a removed current directory gives way to the root |
| InodeFrames.UnlinkFrame | src/inode_fs.rs:265-319 | a successful unlink of any path keeps the result of every path, relative and dotted ones included, whose walk does not pass the removed inode; and it makes its own path unresolvable if and only if that does not end in a slash or its walk passed the inode before its last step as well |
| InodeFrames.DanglingPath | src/inode_fs.rs:292-311 | the failing input: the directory made as `/a` and removed as `/a/` still resolves under `/a/`, to a number that is gone |
| InodeFrames.MkdirThenUnlink | src/inode_fs.rs:161-319 | unlinking a directory just made restores inodes and cwd exactly, one number having been used up |
| InodeFrames.WriteThenRead | src/inode_fs.rs:323-375 | a write stores min(n, room to 4096) words, zero-fills the gap, keeps all other words and inodes, and a read of those positions gives the words back |
| InodePaths.ReadWords | src/inode_fs.rs:323-345 | a read gives the words from the offset on, as many as there are and as fit |
| InodeFrames.WriteJoin | src/inode_fs.rs:349-375 | two adjacent writes equal one write of the joined buffer, limit included |
| InodeFrames.DataRun | src/inode_fs.rs:349-494 | any sequence of writes and truncations of a file acts on its data as word-by-word updates of a plain zero-padded sequence, and on nothing else |
| InodeFrames.Listing | src/inode_fs.rs:437-477 | in a tree the listing names exactly the non-dot entries, each once and in order, and decodes to them character by character |
| EpisodeLog.EscapeJson | src/episode_log.rs:362-375 | the character loop computes the escaping of the whole text |
| EpisodeLog.EpisodeToJson | src/episode_log.rs:240-267 | the sequence of pushes, with the loop over the histogram and the optional fix, builds the whole line |
| EpisodeFormat.LineShape | src/episode_log.rs:240-267 | the printed line in full: braces, keys, their order, quoting, commas and the optional fix, for every episode |
| EpisodeFormat.TenthsPrinted | src/episode_log.rs:248-258 | a percentage of q and r tenths is printed as q, a point and the digit r, and read back from that |
| EpisodeFormat.EscapeLaws | src/episode_log.rs:362-375 | quote, backslash, newline, carriage return and tab are written with a backslash, every other character as it is |
| EpisodeFormat.UnescapeLaws | src/episode_log.rs:388-412 | reading stops at an unescaped quote or the end, turns n, r and t behind a backslash into control characters, and keeps any other escaped character |
| EpisodeFormat.OutcomeWords | src/episode_log.rs:56-76 | each outcome has its word, and every other word is the unknown outcome |
| EpisodeText.UnescapeEscape | src/episode_log.rs:362-415 | reading an escaped text back stops at its own closing quote, whatever follows, and gives the text |
| EpisodeText.SkipValue | src/episode_log.rs:377-379 | a key search passes over an escaped value except exactly when the text after the value's last quote is the key's name |
| EpisodeParse.ExtractJsonStringVal | src/episode_log.rs:377-415 | the loop over bytes and escapes computes the string member the key search leads to |
| EpisodeFormat.FindExact | src/episode_log.rs:377-379 | a search yields the first place where the pattern stands and fails only if it stands nowhere |
| EpisodeFormat.FieldReads | src/episode_log.rs:377-383 | in any text a field is what follows the first colon behind the key's first occurrence, white space skipped |
| EpisodeFormat.ValuesRead | src/episode_log.rs:377-453 | a string field needs its opening quote, a number is its leading decimal digits below 2^64, a flag is set by the word true |
| EpisodeParse.MatchingBracket | src/episode_log.rs:281-297 | the depth loop finds the bracket that closes the array |
| EpisodeParse.ParseTopOpsArray | src/episode_log.rs:271-324 | the histogram reader skips unreadable rows and collects the others in order |
| EpisodeFormat.RowReads | src/episode_log.rs:299-322 | a row of four parts is read exactly when opcode and count are numbers below 256 and 2^64, an unreadable share counting as zero |
| EpisodeFormat.UnsignedExact | src/episode_log.rs:308-320 | such a number is a decimal numeral below the bound with at most one plus sign before it |
| EpisodeFormat.RowsSkip | src/episode_log.rs:299-322 | a row that cannot be read is left out and the others stay in order |
| EpisodeParse.JsonToEpisode | src/episode_log.rs:326-360 | the reader fails exactly when one of the mandatory members cannot be read |
| EpisodeSearch.SearchHead | src/episode_log.rs:377-379 | in a printed line, a search for a later key stops at the end of the timestamp or of the program's name only if that ends like the key |
| EpisodeSearch.ReadNumber | src/episode_log.rs:417-427 | a numeric member reads as printed; a timestamp ending like its name makes it unreadable, a program name ending like it makes it read the operation count |
| EpisodeRows.CloseRows | src/episode_log.rs:281-297 | the bracket that closes the histogram is the one after its last row |
| EpisodeRows.ReadTopOps | src/episode_log.rs:271-324 | the histogram always reads back whole, whatever the strings before it hold, if its mnemonics hold no double quote, comma or bracket |
| EpisodeSearch.ReachRow | src/episode_log.rs:377-379 | a mnemonic equal to the key stops its search, and no colon follows among the rows |
| EpisodeTrip.ReadProgram | src/episode_log.rs:377-415 | the program's name always reads back |
| EpisodeTrip.ReadFix | src/episode_log.rs:377-415 | which text is read as the fix in every case, a mnemonic called fix included |
| EpisodeTrip.ReadOutcome | src/episode_log.rs:377-415 | which text is read as the outcome in every case, a mnemonic called outcome included; a fix that ends like the outcome's key does no harm |
| EpisodeTrip.RoundTripIff | src/episode_log.rs:240-360 | printing and reading gives the episode back if and only if timestamp, program name and mnemonics are safe: none of them stops the search for a later key unless the value read there instead happens to agree |
| EpisodeTrip.TailIs | src/episode_log.rs:377-379 | a value ends like a key exactly when it is the key or ends in a double quote and the key |
| EpisodeTrip.RoundTrip | src/episode_log.rs:240-360 | strings that do not end like any key name round-trip |
| EpisodeTrip.UnreadableLine | src/episode_log.rs:326-334 | a program called `outcome` makes its own line unreadable |
| Canvas.WriteLineToCanvas | src/canvas.rs:13-49 | the byte loop writes the text's rows from the given row on as far as the canvas goes, padded with zeros, leaves every other cell, and returns the row after the last or the canvas end |
| Canvas.LayoutWraps | src/canvas.rs:13-49 | for every text the rows of the byte loop are its lines, each wrapped at the column limit; a line that fills its last row adds no empty row |
| Canvas.PlainLayout | src/canvas.rs:13-49 | a text without newlines takes max(1, ceil(n / columns)) rows that together are the text |
| CanvasRead.ReadCanvasLine | src/canvas.rs:52-63 | the loop returns the low bytes of the row up to the first zero or newline |
| CanvasCells.RowText | src/canvas.rs:52-63 | character k of a row's text is the low byte of its cell k, and the text ends at the first zero, the first newline or column 128 |
| CanvasRead.ExtractSelection | src/canvas.rs:68-128 | the column and row loops return the selected text between the two ends in reading order |
| CanvasCells.RowSelection | src/canvas.rs:68-128 | within one row a selection is the low bytes of its columns, both ends taken but not past column 127, up to the first zero |
| CanvasCells.RowByRow | src/canvas.rs:68-128 | over several rows it is the first row's part, a newline, and the selection from the next row's start |
| CanvasRead.SelectionSymmetric | src/canvas.rs:68-80 | dragging from either end selects the same text |
| CanvasRead.LoadSourceToCanvas | src/canvas.rs:164-194 | the loader leaves on the whole canvas exactly the source's lines, cut off at the right and at the bottom, and the cursor at the origin |
| CanvasRead.LinesHold | src/canvas.rs:164-194 | cutting a text into lines loses nothing: joined with newlines they are the text |
| CanvasRead.LoadThenSelect | src/canvas.rs:68-194 | a source of at most 128 lines, loaded and selected whole, comes back if and only if every line fits the columns and every character is a non-zero byte |
| CanvasRead.SelectPart | src/canvas.rs:68-194 | for a loaded source that fits, selecting between any two of its characters, across rows too, gives exactly the part of the source between them |
| CanvasRead.WriteThenRead | src/canvas.rs:13-63 | a text written with room to spare changes no cell outside its rows, and these read back as laid out if and only if the text has no zero byte; without newlines it takes max(1, ceil(n / columns)) rows, whose readings together are the text if and only if it has none |
| Scrollback.ScrollbackBuffer.constructor | src/scrollback.rs:25-36 | a new ring stands for an empty history |
| Scrollback.ScrollbackBuffer.PushLine | src/scrollback.rs:40-50 | the slot written and the moved start make the ring the tail of the longer history |
| Scrollback.ScrollbackBuffer.PushCanvasRows | src/scrollback.rs:54-75 | appends to the history exactly the non-zero rows of the range clipped to the buffer, in order |
| Scrollback.RowTaken | src/scrollback.rs:54-75 | one row of the canvas is appended, whole, exactly when one of its 32 cells is not zero |
| Scrollback.RowsTaken | src/scrollback.rs:54-75 | rows are taken one after the other: those of two adjacent ranges are those of the joined range |
| Scrollback.ScrollbackBuffer.GetLine | src/scrollback.rs:89-95 | line i is line i of the newest 1024 lines ever pushed, and nothing beyond them |
| Scrollback.ScrollbackBuffer.GetPage | src/scrollback.rs:100-110 | a page is the matching slice of at most 32 of those lines |
| Scrollback.ScrollbackBuffer.MaxScroll | src/scrollback.rs:113-119 | the smallest offset whose page reaches the newest line |
| Scrollback.Overwritten | src/scrollback.rs:40-50 | writing behind the newest line, over the oldest when full, turns a ring of the kept lines into a ring of the kept lines of the longer history |
| Scrollback.LastPage | src/scrollback.rs:100-119 | scrolled to the end, the page is the newest 32 lines ever pushed, or all if there are fewer |
| Scrollback.LineSurvives | src/scrollback.rs:40-95 | a pushed line stays readable, at the matching index, exactly as long as fewer than 1024 lines follow it |

## Left out

- The tokens Spawn, Mutate, Exec, Ls and Ikey: their code is compiled, resolved and run up to their store or system instruction (EffectReached) and from its answer on (Answered, Stored); what that instruction does happens in memory the code itself may occupy, the scheduler, the host and the keyboard, so the source interpreter has no step for them.
- The label counter is unbounded here; in the program it wraps, in a debug build panics, after 2^32 labels.
- The screen: drawing instructions are recorded in a log, not rendered.
- Paging, access traces, kernel mode and breakpoints of the machine; a fetch outside RAM halts.
- GlyphLabels.AssemblesIff: a string text with a semicolon or newline counts as not assembling. The program strips a line at its first semicolon before looking at the quotes, so a token text such as `a"; b` (which no source text lexes to) assembles to its first part, and one that is blank before its first semicolon or newline makes the assembler panic on the lone quote (`src/assembler/mod.rs:203`). Names in hand-built token lists are taken to consist of the lexer's name characters: one with a space, comma, colon, quote or semicolon would not parse as the line modelled for it. The same holds for Runnable and the run theorems; names in source text are always of this kind (LexImage).
- GlyphPipeline.CompileGlyphToBytecode: gives an error value for such a blank text, where the program panics.
- Assembler input other than what the compiler emits: directives, defines, macros, includes, and numbers written with a leading plus sign. Text lines are modelled as parsed lines; comments and blank lines are not kept.
- Non-ASCII names, strings and texts: a character is taken as one byte.
- The flush register on the host side of the pixel file system (`include/vfs_pixel.h:196-199`).
- Names stored in pixel rows are written (CreatedCells) but not read back by any call, and stale name cells of a reused row are kept. Distinct names may share 16 hash bits, and every result is stated with the hash.
- PixelOps.Create: the method requires that the cells written lie on the surface, since the program writes through an unchecked pointer.
- PixelOps.Append: the method requires that the grown file's cells lie on the surface, for the same reason; growing into another file is allowed, and PixelLimits.AppendExact and PixelLimits.HeaderLost say what that breaks.
- Inode numbers and offsets are unbounded here; the program's are 32 bits wide.
- InodeOps.FileSystem.ListDir: requires names shorter than 2^32 characters, which every tree guarantees.
- fstat, inode_count and the accessors of the inode file system add nothing hard.
- Percentages of the episode log are numbers of tenths, so rounding in the printer is not modelled; decimals with exponents, signs or more than one fractional digit, which the printer never writes, count as unreadable.
- EpisodeRows.ReadTopOps: asks that mnemonics hold no double quote, comma or bracket; they are printed unescaped and every mnemonic of the machine is of this kind.
- EpisodeTrip.RoundTripIff: the same condition on mnemonics and, if one of them is called `fix` or `outcome`, that none holds a colon.
- Timestamps, log files, queries and prompts of the episode log.
- CanvasRead.ExtractSelection: requires both rows to lie in the buffer; outside it the program panics.
- Pasting, assembling, scrolling and the terminal commands of the canvas.
- The total number of lines pushed to the scrollback is unbounded here; lines are values, so nothing is said about sharing of the returned references.
- The window, command line, save files, audio, fonts, keys, network and subprocess parts.
