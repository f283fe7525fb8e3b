# Verified models of Mule 1.1

Mule 1.1 is GNU Emacs 18 with multilingual text. This project models eight of its algorithms in Dafny and
proves what they are relied on for. `dafny verify dfyconfig.toml` checks everything.

- **The garbage collector** (`src/alloc.c`): `gc_*.dfy`. A heap of cells (conses, symbols, vectors), root
  slots, small strings in blocks and large strings. Marking threads every slot that refers to a small string
  through the size word of the string; compaction slides the strings down in place and unthreads the slots;
  the sweeps rebuild the free lists. `gc_heap` and `gc_marking` hold the data model and the invariant of
  marking, `gc_mark_object` and `gc_roots` the marking itself, `gc_placement` and `gc_compaction` the
  arithmetic and the frame of compaction, `gc_compact_strings` its methods, `gc_sweep` to `gc_collect` the
  sweeps, `gc_garbage_collect` the whole, `gc_alloc` and `gc_strings` the allocators, `gc_variables` the
  variables a program stores into and protects, `gc_runs` programs that use all of it. The theorem is
  `GarbageCollection.GarbageCollect`: afterwards the heap is the old one, restricted to what is reachable, with
  small strings renamed (`Collect.Collected`).
- **The code converters** (`src/codeconv.c`, `src/codeconv.h`): `conv_*.dfy`. Every converter is a byte-stream
  transducer; `conv_base` runs a step function over the input, and each method is proved to compute that run.
  Chunk independence is one lemma for all of them. What the steps amount to is said without them: `conv_texts` has
  files and the texts they hold, and end-of-line conversion (`conv_eol`), Shift-JIS and Big5 (both over
  `conv_two_byte`) are proved to take one to the other, in both directions.
  ISO 2022 (`conv_iso_in`, `conv_iso_out`) has more files. `conv_iso_grammar` gives every stream of designations, shifts,
  directions, composite characters and characters its meaning (designations and shifts are those of section 14.3 of
  ECMA-35) and proves that the decoder reads it so; `conv_iso_malformed` says what becomes of broken sequences and
  characters. `conv_iso_roundtrip` proves that the decoder reads the encoder's output as the text, for any charset tables
  and coding system that meet `Iso2022RoundTrip.Supported` (`ExampleSupported` gives four). `conv_iso_lines_in`, `conv_iso_lines_out` and `conv_iso_lines` reduce every kind of line
  end to LF. `conv_iso_place` says where the encoder puts a set, `conv_iso_files` that files and lines begin as they end,
  `conv_iso_lost` what the decoder loses, `conv_iso_room` how much room the encoder needs.
- **Calendar arithmetic** (`nt/ctime.c`): `calendar.dfy`, `ctime.dfy`, `ctime_fields.dfy` (what `time2` finds, in terms
  of the fields it is given), `tz_rules.dfy` (TZ rules of section 8.1.1 of IEEE Std 1003.1).
- **Quicksort** (`etc/qsort.c`): `qsort.dfy`.
- **Macro substitution** (`cpp/cccp.c`): `cccp.dfy`, and `cccp_words.dfy`, which says what a call means word by word.
- **CCL** (`src/ccl.c`, `lisp/ccl.el`): `ccl_machine.dfy` (the stack machine), `ccl_arith.dfy` (what its instructions
  compute), `ccl_pieces.dfy` (resuming), `ccl.dfy` (the interpreter and its driver); `ccl_source.dfy` (what a source
  program means), `ccl_compile.dfy` (the compiler), `ccl_simulation.dfy` and `ccl_correct.dfy` (compiled programs do what
  the source means), `ccl_expressions.dfy` (expressions in postfix order).
- **The glyph cache** (`etc/m2ps.c`, `etc/bdf.h`): `m2ps.dfy`.
- **The XAssoc hash table** (`oldXMenu/`): `xassoc.dfy`.

`arithmetic.dfy` and `bytes.dfy` hold what several of them use.

Where the source changes things in place, the model does: the Lisp heap, the converters' `coding_type`, the
stack and registers of CCL, the glyph cache and the hash table are classes, buffers are arrays.

## What the proofs found

- `normalize` (`nt/ctime.c:1194-1198`) leaves the units equal to the base for -2 * base, -3 * base and so on.
  For months this makes `time2` index a month table with 12 (`CTime.BadMonth`).
- The loop of `time2` that goes back whole years (`nt/ctime.c:1240-1244`) adds the length of the earlier year
  whichever month it starts from. The day is kept if and only if the month is January or February or the two years are
  both leap years or both common (`CTime.SettledKeepsDay`); `CTime.SettledAddsDays` gives the difference otherwise, and
  `CTime.BackwardLosesADay` an input.
- `compare_defs` (`cpp/cccp.c:1251-1255`) compares the common part of two pattern lists only, and strncmp stops at a
  NUL in the text. `MacroExpansion.SameDefinition` says exactly what is missed; the bodies `x+` and `x+x` pass for the
  same (`MacroExpansion.CompareDefsFails`).
- In `find_encoding` a count of 2^31 or more reads as negative, and in `set_glyph2` a count of 2^32 - 1 wraps
  to 0; the cache stays in agreement exactly when neither happens.
- The last loop of `compact_strings`, which frees empty blocks, never finds one (`BlockChain.NothingEmpty`
  with `Placement.OffsAtRanks`).
- `mark_object` does not follow a cdr that is nil, so nil would be lost if no root held it. `staticpro (&Qnil)`
  in `src/data.c:1405` is what makes marking exact; the model has it as `MarkRoots.NilIsRoot`.
- The ETEN layout of Big5 leaves a gap, 0xC6A1 to 0xC8FE, where `B2G` wraps around (`Big5Conversion.EtenGap`).
- `a2g` never puts out a CR it holds back at the end of the input, so the end-of-line round trip fails exactly
  for texts that end in CR. Nor does `i2g`, and an escape sequence or a single shift that is pending is lost as well;
  nothing else is (`Iso2022Lost.FlushIsAll`). `i2g` forms the last byte of an LCPRV3 character as `c | 0xFF`, whatever
  c is (`Iso2022Lost.LastOfPrivateLost`).
- `CONV_BUF_SIZE` is large enough for `g2i` on left-to-right text if and only if no designation of G0 is needed at the
  end of every line (`Iso2022Room.RoomSufficesWhen`): with CODE_ASCII_EOL and an initial G0 that is designated by
  another sequence than ASCII, an empty line takes six bytes or more. Right-to-left text can take sixteen bytes for three
  (`Iso2022Room.TurnsOverflow`).
- A seven-bit ISO 2022 code announces G3 by ESC N, the announcement of G2 (`src/codeconv.c:1010-1011`).
- `char_boundary` of `g2i` is not initialized; its first value is a parameter of the model.
- `g2i` and `i2g` treat line ends exactly as `g2a` and `a2g` do, whatever else the text holds
  (`Iso2022LinesOut.Encoded`, `Iso2022LinesIn.Decoded`), on condition that no final byte is a CR or LF.
- Compiled CCL programs do what their source means (`CclCorrect.ConvertsAll`), but a call with no input at all puts nothing
  out (`src/ccl.c:117-118`), not even what the commands for the end of input would.
- A CCL program whose code for the end of input begins with RESTART or READ runs for ever (`CclPieces.EofLoopsFrom`);
  one with no RESTART or READ from there on always ends (`CclPieces.EndsAtEof`).

## Model

| member | source | states |
|---|---|---|
| LispHeap.FullSize | src/alloc.c:510-514 | a string with its header word and NUL is rounded up to a word boundary, by less than a word |
| LispStore.Heap.constructor | src/alloc.c:195-204 | the heap after initialization: one empty cons block, one empty string block, nil held by the first static variable |
| MarkState.VisitSmall | src/alloc.c:1022-1040 | threading a slot puts it in front of its string's chain and leaves every other chain, mark and value as it was |
| MarkState.VisitPlain | src/alloc.c:1019-1021 | a large string is flagged only; slots that refer to no string are left alone |
| MarkState.MarkCell | src/alloc.c:1053-1055 | setting the mark bit of a cell keeps the marking invariant |
| MarkObjects.ThreadSlot | src/alloc.c:1024-1040 | threading in place keeps the invariant and visits exactly this slot, which was not threaded before |
| MarkObjects.FlagLarge | src/alloc.c:1019-1021 | flagging in place keeps the invariant |
| MarkObjects.MarkSlots | src/alloc.c:1056-1057 | mark_object on a run of slots finishes them and visits no other slot of the cell |
| MarkObjects.MarkConsButOne | src/alloc.c:1102-1134 | whichever shortcut is taken (nil cdr, one-integer cdr, car first), one slot is left for the loop and the other is finished or a skipped nil |
| MarkObjects.MarkInside | src/alloc.c:1044-1134 | what each kind of cell leaves to the loop of mark_object; everything else of the cell is finished |
| MarkObjects.MarkObject | src/alloc.c:994-1158 | terminates; what it marks is reachable from its argument, every newly marked cell is finished, no slot is visited twice |
| MarkRoots.MarkStatics | src/alloc.c:840-841 | marks from every static variable, each of them once |
| MarkRoots.MarkGcpros | src/alloc.c:842-848 | marks from every GCPRO slot although a slot may be listed repeatedly: the mark bit of the slot prevents a second visit |
| MarkRoots.MarkAllRoots | src/alloc.c:834-848 | after both loops all roots, and no others, are done |
| MarkRoots.MarkedIsReachable | src/alloc.c:994-1158 | marked is the same as reachable from a root, although a nil cdr is never followed: some root holds nil |
| Placement.PlacedInside | src/alloc.c:1401-1418 | every relocated string fits its block, header and NUL included |
| Placement.InOrder | src/alloc.c:1415-1418 | relocated strings keep their order and never overlap |
| Placement.WriteBehindRead | src/alloc.c:1401-1418 | the write position (block, offset) never passes the scan position |
| Placement.OffsAtRanks | src/alloc.c:1463-1479 | every block up to the write position receives a string, every later one none |
| Placement.OffsAtDest | src/alloc.c:1401-1418 | the strings of a block are exactly those placed there |
| Compaction.UnscannedStep | src/alloc.c:1420-1422 | moving a string disturbs nothing at or after the scan position |
| Compaction.MovedStays | src/alloc.c:1420-1422 | a string that has been moved is not overwritten by a later move |
| Compaction.RelocatedStep | src/alloc.c:1424-1442 | following one chain changes the slots of that chain only |
| CompactStrings.ChainEnd | src/alloc.c:1391-1397 | the end of a reference chain yields the real size |
| CompactStrings.Relink | src/alloc.c:1424-1442 | every slot of the chain comes to refer to the new address, nothing else changes, and the size comes back |
| CompactStrings.FindRoom | src/alloc.c:1401-1414 | closes blocks that are too full and stops at the block the placement says |
| CompactStrings.MoveString | src/alloc.c:1389-1445 | one live string moves with its bytes, its chain and its size word, in place |
| CompactStrings.ScanBlock | src/alloc.c:1377-1447 | a whole block is dealt with; dead strings are skipped |
| CompactStrings.CompactStrings | src/alloc.c:1360-1479 | what is left of the chain is tiled by the live strings, sizes restored; every slot that referred to a string refers to its new place; the last block left is the current one; exactly the blocks after it are freed |
| BlockChain.FreeFollowing | src/alloc.c:1450-1461 | cuts the chain after the write position and frees exactly what follows |
| BlockChain.UnlinkEmpty | src/alloc.c:1463-1479 | takes exactly the empty blocks but the first out of a chain |
| BlockChain.NothingEmpty | src/alloc.c:1463-1479 | with the blocks compaction leaves, that last loop frees nothing |
| AfterCompaction.RelocDomain | src/alloc.c:1387-1389 | exactly the strings some visited slot refers to are kept |
| AfterCompaction.RelocInjective | src/alloc.c:1415-1418 | two strings never move to the same place |
| AfterCompaction.RelocSame | src/alloc.c:1420-1444 | a moved string has the same length and bytes and its size word is a size again |
| AfterCompaction.TiledAgain | src/alloc.c:1450-1479 | the string blocks are in order for the allocator again |
| Sweep.SweepCell | src/alloc.c:1198-1208 | an unmarked cell joins the free list once, a marked one is unmarked |
| Sweep.AllocDistinct | src/alloc.c:1194-1210 | the loops over the blocks meet every allocated cell once |
| Sweep.SweepConses | src/alloc.c:1186-1213 | the free list holds exactly the unmarked allocated cells, each once; used plus free is allocated |
| Sweep.SweepSymbols | src/alloc.c:1215-1243 | the same for symbols |
| SweepAll.MarkedInMemory | src/alloc.c:1198-1207 | compaction in between leaves the mark bits as marking set them, even in threaded slots |
| SweepAll.SweepCells | src/alloc.c:1186-1243 | after both sweeps the free lists are well formed and no mark bit of a cell is left |
| FreeBlocks.TagLarge | src/alloc.c:825-832 | tags exactly the large strings in use |
| FreeBlocks.SweepVectors | src/alloc.c:1308-1330 | keeps exactly the marked vectors, in order, unmarked |
| FreeBlocks.SweepLarge | src/alloc.c:1332-1353 | keeps exactly the flagged large strings, clears flag and tag, and adds up their sizes |
| FreeBlocks.UnmarkRoots | src/alloc.c:885-889 | clears the mark bits of GCPRO slots and nothing else |
| Collect.LiveStrings | src/alloc.c:1387-1389 | a string's chain is non-empty exactly when a surviving slot refers to it |
| Collect.LiveLarge | src/alloc.c:1336-1337 | a large string is flagged exactly when a surviving slot refers to it |
| Collect.GcSweep | src/alloc.c:1180-1355 | compaction and the four sweeps together, with the totals they report |
| Collect.CollectionIs | src/alloc.c:1180-1355 | put together, the parts make a collection (Collected) |
| GarbageCollection.MarkPhase | src/alloc.c:825-881 | tagging and marking from all roots |
| GarbageCollection.SweepPhase | src/alloc.c:883-889 | after sweep and unmarking the allocator's invariant holds again |
| GarbageCollection.GarbageCollect | src/alloc.c:792-889 | a collection keeps exactly the reachable cells; every root and slot of theirs holds what it held, with small strings renamed by an injective map that keeps length and bytes; exactly the strings still referred to stay; the heap is valid again |
| GcRuns.SharingKept | src/alloc.c:1424-1442 | two slots share a string after a collection exactly when they did before |
| GcRuns.StringKept | src/alloc.c:1420-1444 | the string in a slot has the length and bytes it had |
| GcRuns.ReachableKept | src/alloc.c:792-889 | what is reachable is the same before and after |
| Alloc.ReachableIsLive | src/alloc.c:213-242 | in a valid heap nothing reachable is on a free list or beyond the allocated cells |
| Alloc.NewConsBlock | src/alloc.c:226-234 | a new block changes nothing a program can see |
| Alloc.ConsFromFreeList | src/alloc.c:219-223 | taking the head of the free list keeps the heap valid and changes nothing else |
| Alloc.ConsFromBlock | src/alloc.c:236-239 | so does taking the next unused cell |
| Alloc.Fcons | src/alloc.c:213-242 | the new cell was not reachable, holds car and cdr, and nothing else changes |
| StringAlloc.InCurrentBlock | src/alloc.c:574-580 | a string appended to the current block |
| StringAlloc.InOwnBlock | src/alloc.c:581-594 | a string with a block of its own |
| StringAlloc.InNewBlock | src/alloc.c:595-611 | a string that starts a new current block |
| StringAlloc.MakeUninitString | src/alloc.c:566-616 | a string of the length asked for, NUL included, is added; all others keep their bytes; a negative length aborts |
| GcRuns.Start | src/alloc.c:1504-1518 | the initial heap is valid |
| GcVariables.Assign | src/alloc.c:205-211 | storing a valid reference into a live slot changes that slot only and keeps the heap valid |
| GcVariables.Gcpro | src/alloc.c:842-848 | a variable put on gcprolist becomes a further root with the value it is given; the rest of the heap is as it was |
| GcVariables.GcproAgain | src/alloc.c:842-848 | a variable may be listed more than once |
| GcVariables.Ungcpro | src/alloc.c:842-848 | a variable taken off gcprolist is a root no more unless it is listed again; nothing else changes and the heap stays valid |
| GcRuns.HandedOut | src/alloc.c:213-242 | an operation that hands out a cell is a cons, and the cell could not be reached before it |
| GcRuns.Run | src/alloc.c:213-242 | over any run of consing, storing, making strings, protecting and releasing variables and collecting: the listed configurations begin with the heap before and end with the heap after, each follows from the one before by its operation, all are sound, and no cell Fcons hands out could be reached just before |
| Conversion.ChunksAgree | src/codeconv.c:466-933 | for every converter that is a byte-stream transducer: two pieces with the state carried over give what one piece gives, the flush only at the end |
| Conversion.PiecesAgree | src/codeconv.c:466-933 | the same for any number of pieces |
| EolConversion.A2G | src/codeconv.c:465-500 | writes the specified output in at most 2n bytes and carries the held-back CR |
| EolConversion.G2A | src/codeconv.c:822-854 | writes the specified line ends |
| EolConversion.ReadBack | src/codeconv.c:465-500 | reading back what g2a wrote under CR LF, from any text |
| EolConversion.RoundTrip | src/codeconv.c:465-500 | a2g undoes g2a under CR LF exactly for the texts that do not end in CR, whose last CR a2g never puts out |
| EolConversion.Lines | src/codeconv.c:465-500 | a2g reads a file that ends its lines in LF, CR LF or CR as those lines, each ending in LF, and g2a writes the lines as that file; a CR that ends no line stays, but at the very end of a CR LF file it is held back |
| EolConversion.SelectiveOut | src/codeconv.c:822-854 | with CC_SELECTIVE a CR is written as an LF would be |
| SjisConversion.PairsAgree | src/codeconv.h:225-250 | S2E and E2S are inverse on all Shift-JIS pairs and yield bytes that are no ASCII and no leading bytes |
| SjisConversion.S2G | src/codeconv.c:502-546 | writes the run of InStep, at most 3n + 1 bytes, and carries CR and first byte; which characters these are, Characters says |
| SjisConversion.G2S | src/codeconv.c:856-894 | writes the specified output, at most 2n bytes, and carries the first byte |
| SjisConversion.ReadBack | src/codeconv.c:856-894 | g2s undoes s2g on valid text from any state between characters |
| SjisConversion.RoundTrip | src/codeconv.c:856-894 | g2s undoes s2g on every valid Shift-JIS text of any length |
| SjisConversion.PairIs | src/codeconv.h:225-250 | a pair of bytes is the character in row r and cell k of JIS X 0208 if and only if 94 * r + k is 188 for each first byte before it and one for each second byte |
| SjisConversion.Characters | src/codeconv.c:502-546 | s2g reads a Shift-JIS file with any line ends as its characters: half-width kana as LCKANA, every pair as LCJP with its row and cell, ASCII as itself; g2s writes these characters as that file |
| SjisConversion.HalfKept | src/codeconv.c:539-544 | a first byte that ends the input is put out as it is, behind a CR held back |
| SjisConversion.OldKanjiOut | src/codeconv.c:877-887 | a kanji of JIS C 6226-1978 is written like one of JIS X 0208 |
| SjisConversion.SelectiveOut | src/codeconv.c:869-870 | with CC_SELECTIVE a CR is written as an LF would be |
| SjisConversion.OthersLeftOut | src/codeconv.c:877-878 | characters of other sets are left out |
| Big5Conversion.PairsAgree | src/codeconv.h:252-279 | B2G and G2B are inverse on Big5 pairs (ETEN: level 2 from 0xC9) |
| Big5Conversion.PairsAgreeWhen | src/codeconv.h:252-279 | and on no others: for all pairs of Big5 bytes the two agree if and only if the pair lies outside the gap 0xC6A1 .. 0xC8FE of ETEN |
| Big5Conversion.EtenGap | src/codeconv.h:273-275 | in that gap the offset wraps around and a different lead byte comes back |
| Big5Conversion.B2GAll | src/codeconv.c:548-590 | writes the specified output, at most 3n + 1 bytes |
| Big5Conversion.G2BAll | src/codeconv.c:896-933 | writes the specified output, at most 2n bytes |
| Big5Conversion.ReadBack | src/codeconv.c:896-933 | g2b undoes b2g on valid text from any state between characters |
| Big5Conversion.RoundTrip | src/codeconv.c:896-933 | g2b undoes b2g on every valid Big5 text of any length |
| Big5Conversion.Characters | src/codeconv.c:548-590 | b2g reads a Big5 file with any line ends as its characters, numbered through both levels, 157 to a first byte and 94 to a row of LCBIG5_1 or LCBIG5_2; g2b writes these characters as that file |
| Big5Conversion.HalfKept | src/codeconv.c:583-588 | a first byte that ends the input is put out as it is, behind a CR held back |
| Big5Conversion.SelectiveOut | src/codeconv.c:896-933 | with CC_SELECTIVE a CR is written as an LF would be |
| Big5Conversion.OthersLeftOut | src/codeconv.c:916-917 | characters of other sets are left out |
| Iso2022In.LookupOk | src/codeconv.c:171-223 | lookup changes at most the designations, and an invalid sequence changes nothing |
| Iso2022In.EscapePays | src/codeconv.c:608-649 | output in an escape sequence is paid for by pending bytes, and the byte that ends an invalid one is taken again outside the sequence |
| Iso2022In.ControlPays | src/codeconv.c:650-690 | control characters put out at most the pending bytes and three more |
| Iso2022In.GraphicPays | src/codeconv.c:691-747 | so do graphic characters |
| Iso2022In.MicroPays | src/codeconv.c:606-749 | every round keeps the state invariant and the potential; a byte pushed back leaves the escape state, so it is pushed back once |
| Iso2022In.RunPays | src/codeconv.c:606-749 | from any reachable state n bytes give at most 3n bytes plus what was pending |
| Iso2022In.OutputFits | src/codeconv.h:283-285 | the output with the final flush fits CONV_BUF_SIZE: at most 3n + 4 |
| Iso2022In.Convert | src/codeconv.c:606-749 | the loop terminates although it pushes bytes back, and computes the specified run |
| Iso2022In.I2G | src/codeconv.c:593-756 | the whole call is the run of Step: output, final flush, and the state stored in the coding_type; what the output is, Iso2022Grammar.StreamRead, the laws of Iso2022Malformed and Iso2022LinesIn.Decoded say |
| Iso2022Grammar.DesignationRead | src/codeconv.c:171-223 | ESC I F and ESC $ I F put the set with this type and final byte into the place that the intermediate byte I names, of ( ) * + for sets of 94 characters and of , - . / for sets of 96 |
| Iso2022Grammar.ShortRead | src/codeconv.c:189-193 | ESC $ with @, A or B puts a multi-byte set into G0 |
| Iso2022Grammar.DirectionRead | src/codeconv.c:194-209 | ESC [ ] and ESC [ 0 ] and ESC [ 1 ] set the direction left to right, ESC [ 2 ] right to left; so do their forms with 0x9B |
| Iso2022Grammar.SingleShiftRead | src/codeconv.c:661-668 | SS2 and ESC N announce one character of G2, SS3 and ESC O one of G3 |
| Iso2022Grammar.ControlRead | src/codeconv.c:641-682 | other control characters come through, shift functions too if their set is not designated |
| Iso2022Grammar.CharacterRead | src/codeconv.c:683-748 | a complete character of one or two bytes becomes the leading bytes of its set, 0x20 higher within a composite character, and its bytes with the high bit on |
| Iso2022Grammar.TokenRead | src/codeconv.c:606-749 | every token of ISO 2022 is read as what it means |
| Iso2022Grammar.StreamRead | src/codeconv.c:606-749 | so is every stream of them: the run of i2g on the bytes is the meaning of the tokens, state and output |
| Iso2022Grammar.SequenceSpelled | src/codeconv.c:936-969 | what designate writes is the token for the type and final byte of the set, the short form for three sets in G0 only |
| Iso2022Grammar.SignsSpelled | src/codeconv.c:1042-1073 | so are the marks for directions, composite characters and shifting in |
| Iso2022Malformed.BrokenRead | src/codeconv.c:623-635 | an escape sequence that is broken off comes out as it is (0x9B as ESC [), and the byte that breaks it is read as if it stood alone |
| Iso2022Malformed.CutShort | src/codeconv.c:641-642 | a first byte with a control character behind it comes out with its high bit off, and the control character is read as ever |
| Iso2022Malformed.CutByCharacter | src/codeconv.c:702-703 | so does a first byte with a one-byte character behind it |
| Iso2022Malformed.AnnouncedNothing | src/codeconv.c:643-648 | a single shift with a control character behind it comes out as SO or SI |
| Iso2022Malformed.AsciiInstead | src/codeconv.c:693-697 | a space or DEL where a set of 94 characters is in use, and every byte where no set is, is ASCII |
| Iso2022Malformed.OtherDirection | src/codeconv.c:698-700 | where text and set differ in direction the characters belong to the set that rev_lc_table names |
| Iso2022LinesIn.Decoded | src/codeconv.c:593-756 | under any line ends i2g puts out what it would put out under LF for the text a2g makes of its input, from every reachable state and for every input; a CR held back at the end is lost |
| Iso2022LinesIn.LinesRead | src/codeconv.c:593-756 | a file of ASCII lines that end in LF, CR LF or CR is read as those lines, each ending in LF; a CR that ends no line stays unless it is the last byte of a CR LF file |
| Iso2022LinesIn.PiecesRead | src/codeconv.c:593-756 | the same for the file cut into any number of pieces |
| Iso2022Lost.FlushIsAll | src/codeconv.c:750-754 | the final flush puts out everything that a further byte (NUL) would bring out before itself if and only if no CR, escape sequence or single shift is held back |
| Iso2022Lost.LastCrLost | src/codeconv.c:675-676 | under CR LF a CR that ends the input is lost after any input that leaves nothing held back |
| Iso2022Lost.LastEscLost | src/codeconv.c:651-652 | so is an ESC, under any line ends |
| Iso2022Lost.LastOfPrivateLost | src/codeconv.c:728-734 | the last byte of an LCPRV3 character makes no difference to the output; the first two are kept, the first with 0x40 added |
| Iso2022Out.RunOk | src/codeconv.c:1030-1191 | every step keeps the designations byte-sized |
| Iso2022Out.Convert | src/codeconv.c:1030-1191 | the loop of g2i computes the specified run |
| Iso2022Out.Finish | src/codeconv.c:1192-1211 | the reset at the end, only after a complete character; it also clears CC_END and CC_SELECTIVE |
| Iso2022Out.G2I | src/codeconv.c:1019-1215 | the whole call, in a buffer that holds its output, is the run of OutStep and the final reset: output, coding_type and the ilcg flags; what the output is, Iso2022LinesOut.Encoded, Iso2022Lines and the round trip say |
| Iso2022Place.PlaceIs | src/codeconv.c:1119-1151 | a set goes to the first of G0 to G3 that holds it now or held it at first, else to G0 or, if it is one for the right half, to the first place in use (G1 in seven bits only with locking shift); no other place changes, and a set that is there already is not designated again |
| Iso2022LinesOut.Encoded | src/codeconv.c:1019-1215 | under any line ends, and with CC_SELECTIVE, g2i writes what g2a makes of what g2i writes under LF, for every text and coding system whose final bytes are not LF |
| Iso2022Lines.LinesWritten | src/codeconv.c:1086-1090 | where ASCII is in G0 and there is no set to restore, lines of ASCII are written as the file that holds them: each LF as CR LF, CR or LF, every other byte as itself |
| Iso2022Files.FinalAtStart | src/codeconv.c:1192-1211 | the final reset leaves designations, shift state, direction and composition as they were at first |
| Iso2022Files.LineAtStart | src/codeconv.c:1064-1084 | so does the end of a line with CODE_ASCII_EOL |
| Iso2022Files.FilesJoin | src/codeconv.c:1192-1213 | files that were written one by one and then joined are read as their texts, one after the other |
| Iso2022Files.LinesAlone | src/codeconv.c:1064-1084 | with CODE_ASCII_EOL what was written behind a line end is read alone, without what comes before |
| Iso2022Room.TextPays | src/codeconv.c:1030-1191 | n bytes of text give at most 5n bytes, what is owed for ends of lines, and eight for each stretch of right-to-left text |
| Iso2022Room.OutputFits | src/codeconv.h:283-285 | with the final reset at most 5n + 16 bytes and eight for each stretch of right-to-left text, when going back to the initial G0 at the end of a line costs nothing |
| Iso2022Room.RoomSufficesWhen | src/codeconv.h:283-285 | where no set runs from right to left, every text of ASCII and one- and two-byte sets fits CONV_BUF_SIZE if and only if it costs nothing |
| Iso2022Room.TurnsOverflow | src/codeconv.h:283-285 | right-to-left and ASCII characters by turns overrun it in a seven-bit code that uses G0 only: three bytes become sixteen |
| Iso2022RoundTrip.SequenceRead | src/codeconv.c:946-968 | the decoder reads every designating sequence of the encoder, short forms included, as the set it names, folded |
| Iso2022RoundTrip.ChangeRead | src/codeconv.c:936-969 | designate never leaves out a sequence that is needed |
| Iso2022RoundTrip.Designation0Read | src/codeconv.c:971-976 | after Designation_0 the decoder is ready for a set in G0 |
| Iso2022RoundTrip.Designation1Read | src/codeconv.c:978-983 | the same for G1 in an eight-bit code |
| Iso2022RoundTrip.LockingShiftRead | src/codeconv.c:985-994 | the same for G1 shifted in |
| Iso2022RoundTrip.SingleShift2Read | src/codeconv.c:996-1004 | the same for G2 |
| Iso2022RoundTrip.SingleShift3Read | src/codeconv.c:1006-1014 | the same for G3 in an eight-bit code |
| Iso2022RoundTrip.PlaceRead | src/codeconv.c:1119-1151 | wherever the encoder puts the set of a leading byte, the decoder follows, also when an ilcg flag forces a designation |
| Iso2022RoundTrip.LeadRead | src/codeconv.c:1098-1155 | the leading bytes of a character, one or two, put nothing out on the decoding side, turn both sides to the direction of the set and leave both ready for it |
| Iso2022RoundTrip.PayloadAimed | src/codeconv.c:683-701 | a masked payload byte is graphic, is found in the right set, and its high bit can be restored |
| Iso2022RoundTrip.OneByteRead | src/codeconv.c:1156-1190 | a one-byte character comes back, also of a private set and within a composite character, and the two sides agree again |
| Iso2022RoundTrip.TwoBytesRead | src/codeconv.c:1156-1190 | so does a two-byte character |
| Iso2022RoundTrip.RestoreRead | src/codeconv.c:1074-1081 | after the encoder has gone back to the initial designations the decoder has them too |
| Iso2022RoundTrip.AsciiRead | src/codeconv.c:1048-1092 | an ASCII byte comes back, also at the end of a line with CODE_ASCII_EOL, and without CODE_ASCII_CNTL |
| Iso2022RoundTrip.TextRead | src/codeconv.c:1030-1191 | at every boundary between characters, and between the parts of a composite one, the decoder has the text so far, and its designations, shift state, direction and composition track the encoder's |
| Iso2022RoundTrip.FinalReset | src/codeconv.c:1192-1211 | the final reset puts nothing out on the decoding side |
| Iso2022RoundTrip.RoundTrip | src/codeconv.c:1019-1215 | decoding the encoded text, both from the same coding system, gives the text back: ASCII, official and private sets of one and two bytes in both directions, and composite characters |
| Iso2022Lines.RoundTrip | src/codeconv.c:1019-1215 | the same under LF, CR LF and CR and with CC_SELECTIVE, where every line comes back ending in LF; a file that ends in CR under CR LF comes back without that CR |
| Iso2022G3.SevenBitG3Lost | src/codeconv.c:1006-1014 | for a set a seven-bit code puts in G3 (announced by ESC N) no single character ever comes back, so that condition of the round trip is needed |
| Calendar.CompareIsOrder | nt/ctime.c:1201-1215 | tmcomp orders broken-down times as the seconds they stand for: breaking down is strictly monotone |
| Calendar.YearsInOrder | nt/ctime.c:1112-1125 | no year starts before the year before it has ended |
| CTime.YearOf | nt/ctime.c:1112-1125 | the year that contains a day, before and after 1970 |
| CTime.MonthOf | nt/ctime.c:1128-1131 | the month and day of a day of the year |
| CTime.TimeSub | nt/ctime.c:1044-1134 | the fields are the valid calendar date, weekday and clock of the moment |
| CTime.OnlyOne | nt/ctime.c:1044-1134 | a moment has one breakdown |
| CTime.NormalizeMeans | nt/ctime.c:1182-1199 | normalize keeps the total, and leaves the units equal to the base exactly when they were a multiple of the base, -2 * base or less; otherwise they are in range |
| CTime.NormalizeFails | nt/ctime.c:1194-1198 | 0 hours and -120 minutes become -3 hours and 60 minutes |
| CTime.Search | nt/ctime.c:1255-1273 | the halving search finds the moment if and only if the date is valid and the moment is a 32-bit one |
| CTime.BackwardIs | nt/ctime.c:1240-1244 | the loop that goes back whole years adds the length of every year gone back over, counted from its January 1 |
| CTime.SettledAddsDays | nt/ctime.c:1239-1253 | carrying days into months and years changes the day by exactly DaysOff, the difference of the day numbers of the month in the two years |
| CTime.SettledKeepsDay | nt/ctime.c:1239-1253 | it keeps the day if and only if the month is January or February, or the year reached and the year started from are both leap years or both common |
| CTime.SettledKeepsRecentDay | nt/ctime.c:1239-1253 | for a day of the month between -364 and 0: if and only if the month is January or February or neither the year nor the one before is a leap year |
| CTime.FoundMoment | nt/ctime.c:1217-1324 | a time that time2 finds is the moment of the normalized fields, off by exactly those days (CTimeFields.FoundWhen says it in the fields given) |
| CTime.BackwardLosesADay | nt/ctime.c:1240-1244 | an input for which a day is lost: March 0, 2000 becomes February 28 |
| CTime.BadMonth | nt/ctime.c:1239-1247 | the month table is indexed out of range exactly for tm_mon -24, -36, ... |
| CTimeFields.CarriedKeeps | nt/ctime.c:1231-1238 | normalizing keeps the moment the fields mean (86400 seconds a day, 3600 an hour, 60 a minute, 12 months a year) unless it leaves the month at 12 |
| CTimeFields.FoundWhen | nt/ctime.c:1217-1324 | time2 finds a time if and only if minutes and hours can be carried, tm_isdst is not positive, and the moment the fields as given mean, less the offset and its seconds, is a 32-bit one; the answer is that moment, off by the days of the loop that goes back whole years |
| CTimeFields.HasMeaning | nt/ctime.c:1217-1324 | all fields have such a meaning |
| CTime.Time2 | nt/ctime.c:1217-1324 | when time2 (for gmtsub) finds a time, and which: the answer of CTimeFields.FoundWhen |
| CTime.RoundTrip | nt/ctime.c:1217-1324 | time2 undoes timesub for a 32-bit t if and only if the minute of t starts in range; otherwise it fails |
| TzRules.OnlyOneDay | nt/ctime.c:603-643 | an Mm.n.d rule means at most one day |
| TzRules.JulianMeans | nt/ctime.c:581-592 | Jn names the same month and day in every year |
| TzRules.YearStartIs | nt/ctime.c:759-760 | the day number of January 1 in closed form |
| TzRules.ZellerIsWeekday | nt/ctime.c:611-622 | Zeller's congruence gives the weekday, counted from the Epoch, of the first of every month from 1970 on |
| TzRules.FirstWeekday | nt/ctime.c:611-622 | the code's remainder handling yields that weekday |
| TzRules.DayInMonth | nt/ctime.c:624-638 | the day is in the month, has the weekday, and is the n-th such day or the last |
| TzRules.TransTime | nt/ctime.c:566-653 | the moment of a rule of each of the three kinds |
| TzRules.FillRules | nt/ctime.c:742-761 | every year from 1970 to 2037 gets its two transitions, in order, each with its type |
| QuickSort.MoveMedian | etc/qsort.c:131-152 | from MTHRESH records on the middle position receives a median of three |
| QuickSort.Exchange | etc/qsort.c:156-199 | each of the three exchanges keeps the partition |
| QuickSort.Partition | etc/qsort.c:156-199 | a permutation with nothing larger before the discriminator and nothing smaller after it |
| QuickSort.RightRemains | etc/qsort.c:208-214 | when the left part is done, the right part is all that remains of the segment |
| QuickSort.LeftRemains | etc/qsort.c:215-220 | and the other way round |
| QuickSort.Qst | etc/qsort.c:111-223 | a permutation in which no record is three or more places out of order; 2 to the depth of recursion is at most the number of records |
| QuickSort.ShallowMeans | etc/qsort.c:200-222 | recursing on the smaller part bounds the depth by the binary logarithm |
| QuickSort.FirstOfNearly | etc/qsort.c:53-58 | the smallest of the first THRESH records is the smallest of all |
| QuickSort.PlaceSentinel | etc/qsort.c:53-72 | the smallest record goes to the front |
| QuickSort.Rotate | etc/qsort.c:83-92 | the shifting loop is a rotation |
| QuickSort.Insert | etc/qsort.c:80-93 | the unguarded scan stops at the sentinel, never below base, and inserts in order |
| QuickSort.Qsort | etc/qsort.c:28-94 | a sorted permutation for every total preorder, and nothing outside is touched |
| MacroExpansion.FormalNo | cpp/cccp.c:1313-1334 | the formal a name stands for; of two with one name the later counts |
| MacroExpansion.FindFormal | cpp/cccp.c:1313-1334 | the search through the reversed list of formals finds that one |
| MacroExpansion.WordLength | cpp/cccp.c:1311-1312 | the length of an identifier; the character after the body stops the scan |
| MacroExpansion.FormalAt | cpp/cccp.c:1309-1334 | a formal is noticed exactly at the start of a whole identifier |
| MacroExpansion.CollectStep | cpp/cccp.c:1306-1341 | every round keeps: for any actuals, compiled part and rest make up the replaced text |
| MacroExpansion.CollectExpansion | cpp/cccp.c:1264-1349 | for any actuals, instantiating the compiled pattern gives the body with each whole-identifier formal replaced |
| MacroExpansion.FilledLength | cpp/cccp.c:1955-1987 | the length of what has been built, part of the buffer at every point |
| MacroExpansion.Instantiate | cpp/cccp.c:1955-1987 | the buffer is never overrun, so the "impossible" branch is unreachable, and it holds the instance |
| MacroExpansion.Expand | cpp/cccp.c:1955-1987 | compiling and instantiating is replacing |
| MacroWords.WordsReplaced | cpp/cccp.c:1264-1349 | for a body made of words (letters, digits and underscores) and other characters: every word that names a formal and does not begin with a digit becomes the actual of the last formal of that name, and nothing else changes |
| MacroExpansion.SameStringIs | cpp/cccp.c:1246-1254 | strncmp takes two texts of one length to be the same exactly when they agree up to and including the first NUL |
| MacroExpansion.CompareDefs | cpp/cccp.c:1241-1256 | compare_defs answers 0 if and only if the numbers of arguments and the texts pass and the common part of the pattern lists agrees |
| MacroExpansion.SameDefinition | cpp/cccp.c:1241-1256 | two definitions are equal if and only if they pass, have equally many pattern elements, and agree behind a NUL in the text |
| MacroExpansion.CompareDefsFails | cpp/cccp.c:1241-1349 | the bodies x+ and x+x of a macro of x compile to definitions that replace differently and pass for the same |
| CclMachine.Wrap | src/ccl.c:227-230 | 32-bit wrap-around |
| CclArithmetic.BinaryIs | src/ccl.c:227-276 | each of the fifteen two-operand instructions computes what its name says: the equation modulo 2^32, division towards zero, the single bits, the quotient by a power of two, the truth value |
| CclArithmetic.UnaryIs | src/ccl.c:215-258 | so do the five one-operand instructions |
| CclArithmetic.SumLaws | src/ccl.c:215-232 | addition is commutative and associative with 0 neutral, adding 1 is inc, subtraction undoes it |
| CclArithmetic.ProductLaws | src/ccl.c:233-235 | multiplication is commutative, has 1 and distributes over addition |
| CclArithmetic.DivisionLaws | src/ccl.c:236-241 | quotient and remainder are defined together and fit: a is q * b + r, r smaller than b in absolute value and with the sign of a |
| CclArithmetic.ShiftLaws | src/ccl.c:248-255 | the shifts multiply and divide the unsigned word by powers of two |
| CclArithmetic.BitLaws | src/ccl.c:242-247 | and and or, bit by bit |
| CclArithmetic.OrderLaws | src/ccl.c:259-276 | exactly one of lt, eq and gt holds; le, ge and ne are their negations |
| CclMachine.Steady | src/ccl.c:122-349 | once a call has ended, more steps change nothing |
| CclMachine.NotFull | src/ccl.c:123-131 | a call that does not fill its buffer does what it would do with any buffer |
| CclMachine.StepResumed | src/ccl.c:132-141 | a step that waits, taken again with input, does what it would have done at once |
| CclMachine.Resume | src/ccl.c:104-355 | stopping for input and resuming from ip, stack and registers gives the run on the concatenation, and ends when that ends |
| CclPieces.EndsWithoutEof | src/ccl.c:104-355 | as long as input may still come every call ends, within a bound: all jumps go forward |
| CclPieces.EofLoops | src/ccl.c:138-141 | end-of-input code that begins with RESTART or READ runs for ever once it is reached |
| CclPieces.EofLoopsFrom | src/ccl.c:138-141 | a last call that reads all its input runs for ever if that code begins so, from whatever place and with whatever input it starts |
| CclPieces.EndsAtEof | src/ccl.c:138-141 | a last call ends, from any place, with any input and any buffer, if no byte at or after the end-of-input code is RESTART or READ |
| CclPieces.WaitsAt | src/ccl.c:135-137 | a waiting program waits at offset 24 or at a READ, never at 0 |
| CclPieces.TwoPieces | src/ccl.c:104-355 | two calls against one, in both directions |
| CclPieces.PiecesAgree | src/ccl.c:104-355 | any number of non-empty pieces, each with its own buffer, give what one call gives with any buffer that does not fill up, if only the last call ends the program and offset 24 holds RESTART |
| Ccl.Interpreter.Jump | src/ccl.c:158-181 | the five jumps, on the stack in place |
| Ccl.Interpreter.Operate | src/ccl.c:153-346 | every instruction that neither reads nor writes, on stack and registers in place |
| Ccl.Interpreter.Flush | src/ccl.c:123-131 | the stack goes out as bytes, unless that would touch the extra bytes of the buffer |
| Ccl.Interpreter.Write | src/ccl.c:193-215 | the same for strings, which need one byte more |
| Ccl.Interpreter.Round | src/ccl.c:121-349 | one round of the loop is one step of the machine |
| Ccl.CallEnds | src/ccl.c:103-355 | a call that is not the last, or whose end-of-input code neither reads nor starts over, ends: it meets what Interpret and Drive rely on unless it faults |
| Ccl.Interpreter.Interpret | src/ccl.c:103-355 | a call that stops is a run of the machine, with its output, its registers and stack, and whether the buffer filled up; an empty piece is not looked at at all. What a run computes, CclArithmetic and CclCorrect say |
| Ccl.Interpreter.Drive | src/ccl.c:359-412 | a call starts from the saved place, or with the registers of the program header; the message follows the output when the buffer is full |
| Ccl.SavedPlace | src/ccl.c:373-388 | for programs of at most 65536 bytes the next call goes on where this one waits |
| Ccl.DriveAll | src/ccl.c:359-412 | driver calls on a list of non-empty pieces, each with its own buffer, put out together what one call puts out for all of the input, if the calls but the last wait and no buffer fills up |
| CclSimulation.Runs | lisp/ccl.el:111-213 | the code of a command takes the machine from any place to behind it, or to the end the command makes of the body, with the stack, registers, input and output the command means |
| CclSimulation.RunsAll | lisp/ccl.el:103-110 | so does the code of a list of commands |
| CclExpressions.LeavesValue | lisp/ccl.el:111-135 | an expression in postfix order leaves its value on the stack and changes nothing else |
| CclExpressions.ExprRuns | lisp/ccl.el:111-135 | so does its code |
| CclCorrect.ProgramLayout | lisp/ccl.el:61-102 | where ccl-compile puts addresses, registers, the code for a byte and the code for the end of input |
| CclCorrect.WholeCall | lisp/ccl.el:61-213 | the machine, given a compiled program and all of the input, ends and puts out what the source program means |
| CclCorrect.ConvertsAll | lisp/ccl.el:61-213 | no other outcome is possible, with any buffer that does not fill up |
| CclCorrect.ConvertsPieces | lisp/ccl.el:61-213 | nor when the input comes in any number of non-empty pieces, only the last of which ends the program |
| GlyphCache.OffIdx2Range | etc/bdf.h:70-70 | two-byte codes are numbered one to one |
| GlyphCache.OneBit | etc/bdf.h:71-76 | DEFINE2 and UNDEFINE2 change one bit |
| GlyphCache.Replaced | etc/m2ps.c:216-222 | giving a slot away keeps bits, slots and the prefix of used slots in agreement |
| GlyphCache.LostBit | etc/m2ps.c:205-217 | a count of 2^31 or more in slot 0 breaks the agreement |
| GlyphCache.OneMore | etc/m2ps.c:241-247 | counting a hit keeps the agreement exactly as long as the count does not wrap to 0 |
| GlyphCache.FontExtra.FindEncoding | etc/m2ps.c:201-223 | the slot given away is the first unused one, else the least used unpinned one with count up to 0x7FFF, else slot 0; agreement is kept if and only if count[0] is below 2^31 |
| GlyphCache.FontExtra.FindSlot | etc/m2ps.c:242-244 | the hit search finds the slot that holds the character |
| GlyphCache.FontExtra.SetGlyph2 | etc/m2ps.c:228-249 | hits, misses and missing glyphs, with the exact conditions under which agreement is kept |
| GlyphCache.FontExtra.RenewFont | etc/m2ps.c:175-179 | clears the pins and nothing else |
| GlyphCache.Run | etc/m2ps.c:175-249 | over any run of fewer than 2^31 - 1 calls the listed contents begin with the empty cache, end with the font and follow from one another; each answer is the slot that holds the character asked for, each miss gives away only a slot find_encoding may give, and bits, slots, counts and pins agree throughout |
| AssocTables.MaskIsRemainder | oldXMenu/XMakeAssoc.c:51-53 | for a power of two the hash is the remainder |
| AssocTables.BitAndBound | oldXMenu/XMakeAssoc.c:51-53 | for any size the hash stays inside the table |
| AssocTables.Insque | oldXMenu/insque.c:12-23 | the four links insque sets |
| AssocTables.Remque | oldXMenu/insque.c:26-37 | the two links remque sets |
| AssocTables.LinkBefore | oldXMenu/XMakeAssoc.c:91-105 | insque with the previous entry puts a node into the ring before a given one |
| AssocTables.Unlink | oldXMenu/XDelAssoc.c:48-58 | remque takes a node out of the ring |
| AssocTables.AssocTable.LookUp | oldXMenu/XLookAssoc.c:30-66 | the early exit on sorted order loses nothing: the answer is the map's |
| AssocTables.AssocTable.Make | oldXMenu/XMakeAssoc.c:40-106 | insert or overwrite: the map with this key set; rings stay well formed, sorted and without duplicate keys |
| AssocTables.AssocTable.Delete | oldXMenu/XDelAssoc.c:31-71 | the map without this key |
| AssocTables.Create | oldXMenu/XCrAssoc.c:33-67 | an empty table |
| AssocTables.Run | oldXMenu/XMakeAssoc.c:40-106 | any sequence of calls answers as a map would |

## Left out

- Collector: pointer tagging beyond the mark bits (values are a datatype, addresses are slot numbers), so the
  parity trick of `mark_object` and `compact_strings` for odd addresses is not modelled.
- Collector: markers, buffers, pure storage, buffer-local values, and the roots in specpdl, catch and handler
  lists and the backtrace; their slots would be further roots like the static ones.
- Collector: `free_cons`, the creation of symbols and vectors, `total_vector_size`, the symbol totals, the
  `prev` links of string blocks, and running out of memory. A stop at `abort` is a result value.
- Collector: a GCPRO variable is a slot of the heap; when its function has returned, the slot belongs to a cell that is
  never live (`GcVariables.Abandoned`), since stack memory is not used again in the model.
- Collector: the messages, the trimming of command history and undo lists before marking, and the list
  `Fgarbage_collect` returns.
- Converters: `code_detect` and automatic selection, which depend on the first piece. AUTOCONV and NOCONV
  beyond `a2g`.
- Converters: one `coding_type` serves one direction, and the bits of `cntl` are fields of a record; bytes are
  natural numbers below 256.
- Converters: `lc_table` is the flat array it is in memory; a final byte above 0x7F reads on into the next row,
  and past the last row the table is continued by unspecified bytes.
- Iso2022Out.G2I: the buffer must be large enough for the output it specifies; how large that is, `Iso2022Room` says.
- Iso2022Room.OutputFits: composite characters, private sets, sets of more than two bytes, and forms without
  CODE_ASCII_CNTL. The bound counts stretches of right-to-left text; it is not claimed to be the smallest one.
- Iso2022Out.G2I: nothing is claimed about cutting its input into pieces beyond `Conversion.RunAppend`, because
  `char_boundary` is not carried from call to call.
- Iso2022RoundTrip.RoundTrip: LCROMAN and LCJPOLD in the text (they are folded into other sets), sets that differ from
  another one in direction only, LCPRV3, and G3 in seven-bit codes (`Iso2022G3.SevenBitG3Lost` shows why). Without
  CODE_ASCII_CNTL a set of 96 characters must not be put where a space is read (`Iso2022RoundTrip.LeftOk`).
- Iso2022Lines.RoundTrip: where a CR ends the line, texts that hold another CR.
- Iso2022Files.FilesJoin: coding systems without an initial G0, and texts that end with the beginning of a composite
  character.
- Iso2022Grammar.StreamRead: characters of LCPRV3; `Iso2022Lost.LastOfPrivateLost` has them.
- Calendar: `tzload`, leap seconds, `time1`, and the hunt for another time type in `time2`, which `gmtsub`
  never needs. tzfile.h is not part of this model; its constants are the usual ones.
- TzRules.FillRules: no claim is made about 32-bit overflow of the transition times.
- Quicksort: a record is one element; the byte-wise exchange of records is an exchange of elements.
- Macro substitution: reading the actuals, comments, quotes, `#include`, `#pragma`, and the rescan.
- CclSource.Meaning: source programs with more than ten registers, with the operators for jumps and for writing used as
  commands of their own, or with nil as a command; programs whose commands for the end of input read or start over have no
  meaning, and none is claimed where an operation is undefined.
- CCL: the interpreter written in Lisp that `lisp/ccl.el` has for testing.
- CCL: what C leaves undefined (addresses outside program or stack, division by zero, shifts by 32 or more) is a
  fault about which nothing is claimed. Of the error messages only the one for a full buffer is modelled; the
  others cannot arise in the interpreter.
- Ccl.Interpreter.Interpret: for calls that fault or run for ever nothing is stated. `Ccl.CallEnds` covers running for
  ever; which programs fault is not modelled, and whether a last call ends is decided for the two kinds of
  end-of-input code named above only.
- Glyph cache: loading glyphs and writing PostScript; whether a glyph can be loaded is a parameter.
- XAssoc: running out of memory; the NULL pointer that means "not there" is 0.
