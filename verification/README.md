# Neptools in Dafny

A model of the parts of Neptools that take game containers apart and put them
together again, with proofs of what they keep and what they give back.

**STSC scripts.** A `Context` owns a list of items that tile the file; it
starts as one raw item and the end mark. `Contexts`, `Slices`, `SliceFacts`,
`SplitFacts` and `Registry` model the list, the labels and the position index
as objects and prove that cutting, replacing, labelling and relinking keep them
right. `Parsing` reads the header and the four instruction forms, `Stsc` is the
recursive disassembler, `Closure` says what it reaches and `Images` what it
gives back, and `StscFiles` puts the whole together. The table of opcodes is a
parameter, so the results hold for every flavour: an opcode is simple with a
list of operand kinds, or one of the jump forms. `Opcodes` says what
instruction the table and the bytes of a file make, and what they lead to;
`Scripts` says of the table and the bytes alone what a disassembled script is.
`Names` has the names given to labels.

**STCM scripts.** Items hold other items here. `StcmParams` and
`StcmInstructions` are the codec of parameters and instructions. `Trees` has
the items, their sizes, their relinking and their dump; `TreeEdits`,
`TreeHeaps` and `TreeSplits` say what list edits in the heap do to the tree
they hold, `StcmContexts` cuts items and moves bytes under them, `StcmCuts`
cuts out whole instructions and data items and puts strings and tables in the
place of data, `Stcm` with `StcmClosure` and `StcmPieces` is the recursive
disassembler, and `StcmFiles` proves when the dump of a disassembled file is the file, and that
after any edit every item and every label is where the relinked dump says.
`StcmStrings` has the guesses that take data items for strings or tables. The
order in which the two are registered, and what a table is read from and
written as, are parameters; `StcmFiles.TableOf` is the latter for GBNL.
`StcmFormat` says what the words of a file make and how items are written, in
numbers and offsets, and `StcmScripts` what a disassembled file is in those terms.

**GBNL tables.** `Descriptors` is the record type and its reversible heuristic,
`Pools` the two-pass string pool, `GbnlCodec` and `GbnlFiles` the format,
`GbnlReparse` the round trip through bytes, `GbnlText` the round trip through
text, `GbnlClash` the same where fixed strings share an id, and `Gbnl` the
object whose loops are proved against these. `GbnlFormat` says in offsets, code
numbers and widths which table the bytes of a file are, `GbnlIds` which ids and
which text a table has, and what a text does to it.

**CL3 archives.** `Cl3Files` is the format, `Cl3Reparse` the round trip,
`Cl3Links` that of big-endian archives with links and `Cl3` the object with its
entries and weak links. `Cl3Format` says in letters and offsets which archive
the bytes of a file are.

The numbers in these statements about bytes are those of `Numbers`, put
together byte by byte. They share no layout, name or code number with the
readers and writers that they are about; only the size of a table is that of the
writer, and `GbnlFormat.SizeMeans` spells it out.

**Input and output.** `Sources` is the chunk cache and the reads that go
through it, `Recency` the reference for what the cache keeps, `Sinks` the two
buffered writers. `Patterns` is the masked search.

The ghost forests of `Trees` are written first child, next sibling: one
datatype for a list of items with all they hold. The STSC list keeps labels as
objects in the label lists of their items; the STCM tree keeps them in the
registry only, where they point to items.

A failing assertion, validation or cast of the original is failure in the
model. Where the code does not do what one would expect, the model does what
the code does, a lemma or a method gives an input, and another says exactly
when all is well:

- a switch of an STSC script loses bits 11 to 14 of its size word when the
  default flag is set (`StscFiles.RewriteLoses`, a whole file;
  `Parsing.SwitchLossy`, `Images.FaithfulExact`);
- a GBIN whose records begin with the letters GST is taken for a GSTR
  (`GbnlReparse.NumberSpellsGst`, `GbnlReparse.Reparsed`), and a GSTR without
  strings is not read back;
- fixed strings of one message share an id in the text export, so that the text
  of the last comes back in the first (`GbnlClash.FixedLost`,
  `GbnlClash.FixedBack`);
- the link section of a big-endian CL3 archive is written in little-endian
  order (`Cl3Reparse.EmptyBig`, `Cl3Reparse.BigWithoutLinks`; with links,
  `Cl3Reparse.Reparsed`, `Cl3Links.BigLinksLost`, `Cl3Links.SameBothWays`);
- a pad of a buffered sink loses a chunk (`Sinks.TwoChunksLost`,
  `Sinks.RunExact`), and that of a mapped sink can leave its position behind,
  after which even empty writes are refused (`Sinks.PaddedWhole`,
  `Sinks.StaleExactly`, `Sinks.RefusedAfter`);
- a pattern without a full mask byte is never tried at the last position
  (`Patterns.LastMissed`, `Patterns.ExactlyWhen`);
- the size checks of STCM links and expansions wrap (`StcmParams.OutsideAccepted`,
  `StcmParams.TargetsInside`);
- a string with four bytes of padding behind its end comes back four bytes
  shorter (`StcmFiles.TextLost`, a whole file; `StcmFiles.Disassemble`,
  `TreeHeaps.FileExact`, `StcmStrings.StringDumpsSame`).

Where the documents differ from the code the code is followed: `doc/formats/gbin.md`
does not list the 64-bit type and has a one-byte field recognised by the
alignment of the next one, while the code allows a gap of up to three bytes;
`doc/formats/cl3.md` says that all integers are little-endian, while the code
accepts big-endian archives.

`dafny verify dfyconfig.toml` checks the whole project.

## Model

| member | source | states |
|---|---|---|
| StscFiles.Rewrite | src/format/stsc/file.cpp:18-24 | Reading any STSC file and writing it back gives as many bytes as were read, and the same bytes if and only if every switch that was disassembled has a canonical size word; what was disassembled is exactly what the opcode table and the words of the file lead to from the entry point on |
| StscFiles.RewriteLoses | src/format/stsc/file.cpp:18-24 | A whole file, a header and a switch with the default flag and bit 11 of its size word set, that is read and written back different though as long, for every table with such a switch |
| Images.DumpIdentity | src/format/item.cpp:147-151 | The dump of a faithful item list is as long as the file, and is the file if and only if every item is canonical |
| Images.FaithfulExact | src/format/stsc/instruction.cpp:562-576 | An item dumps the bytes of the file it replaced if and only if it is not a switch with the default flag and one of bits 11 to 14 of its size word set |
| Parsing.SwitchLossy | src/format/stsc/instruction.cpp:535-553 | A readable switch, default flag and bit 11 set, that is not written back as it was |
| Closure.ClosureMeans | src/format/stsc/instruction.cpp:206-214 | In a settled list every non-null code operand leads to something that is not raw, every non-null string operand to the start of a C string, every switch target to an instruction, and unless it does not return an instruction is followed by something that is not raw |
| Closure.ReachedTyped | src/format/stsc/instruction.cpp:59-70 | Whatever can be reached from the entry point through targets and fall-through, in any number of steps, has been disassembled |
| Items.NotRawStays | src/format/stsc/instruction.cpp:59-70 | A position that has been disassembled stays so as disassembly goes on |
| Closure.SplitSettled | src/format/stsc/instruction.cpp:59-70 | Cutting an instruction in keeps every other instruction closed, every item faithful and every item reached; the new one becomes pending |
| Closure.Finished | src/format/stsc/instruction.cpp:316-320 | Once all it asks for is there, an instruction is no longer pending |
| Stsc.CreateAndInsert | src/format/stsc/instruction.cpp:59-70 | The recursive disassembler: on success the list is settled as before and an instruction stands where it was asked for; on failure some reached position holds nothing readable or some instruction asks for something that is something else. The raw bytes left decrease with every instruction, so it ends on every input, cyclic jumps included |
| Stsc.PostInsert | src/format/stsc/instruction.cpp:316-320 | Follows every operand of a new instruction and what is behind it, after which the instruction is closed |
| Stsc.VisitAll | src/format/stsc/instruction.cpp:369-374 | Everything asked for is there afterwards, and what was there before stays there |
| Stsc.MaybeCreate | src/format/raw_item.hpp:84-99 | What a label points to is created if it is raw and checked if it is not; plain code is taken unchecked |
| Stsc.VisitNext | src/format/stsc/instruction.cpp:494-498 | What is behind an instruction is not raw afterwards |
| Stsc.CreateString | src/format/cstring_item.cpp:10-18 | A string item is made exactly if a zero byte ends it within the raw item |
| Stsc.CutIn | src/format/raw_item.hpp:39-45 | Cutting in an item that was read: the list is settled, every label and every other item stays, and the raw bytes decrease |
| StscFiles.Parse | src/format/stsc/file.cpp:18-24 | On success the file is tiled by a settled list that begins with the header and has an instruction at the entry point; every instruction has the operands its opcode has in the table, each the number or label the bytes of the file say; code pointers in the file lead to something that is not raw, string pointers to strings, switch targets to instructions, and what the table says returns is followed by something that is not raw; every instruction and string is led to from the entry point. On failure the header is unreadable or disassembly was refused |
| StscFiles.Start | src/format/stsc/file.cpp:20-22 | The file as one raw item and the end mark |
| StscFiles.CreateHeader | src/format/stsc/header.cpp:61-68 | Cuts the header off and disassembles from the entry point; fails exactly for an unreadable header or a refusal |
| StscFiles.DumpItem | src/format/stsc/instruction.cpp:295-304 | Writes the image of an item with the current positions of its labels |
| StscFiles.Dump | src/format/item.cpp:147-151 | Writes the images of all items in order |
| Parsing.ParseHeader | src/format/stsc/header.cpp:70-92 | Succeeds exactly on a valid header whose announced parts fit; the item dumps the bytes it was read from, and the label of its entry point is named entry_point |
| Parsing.ParseInstruction | src/format/stsc/instruction.cpp:59-70 | Succeeds exactly on readable instructions of the table; the body is the form the table has for the opcode, with its flag and operand kinds, and every number and label target is the one in the bytes; it dumps the bytes it was read from up to the masked bits of a switch |
| Parsing.ParseSimple | src/format/stsc/instruction.cpp:281-293 | Succeeds exactly if the operands fit and every pointer is valid and every string can be named; the operands are those of the table, one behind the other, pointers leading to exactly the word read |
| Parsing.ParseRndJump | src/format/stsc/instruction.cpp:331-346 | Succeeds exactly if the targets are all there and inside the file |
| Parsing.ParseJumpIf | src/format/stsc/instruction.cpp:445-461 | Succeeds exactly if the expression tree is all there and its node links are inside it |
| Parsing.ParseJumpSwitch | src/format/stsc/instruction.cpp:535-560 | Succeeds exactly as the size check demands, which counts the default flag in, and reads only the expressions under the mask |
| Parsing.StringLabel | src/format/stsc/instruction.cpp:191-204 | Names a new string label after the letters of the string if it is still raw, else after its position, made unique by the first free number, and fails exactly if no zero ends the string |
| Scripts.ScriptMeans | src/format/stsc/instruction.cpp:306-374 | Said of the table and the bytes alone, for every disassembled instruction: where it ends; that every code pointer, target and string pointer in the file leads to something disassembled of the right kind; and that an instruction is followed by something that is not raw if it is simple and returns, a random jump, a conditional jump, or a switch whose bit 15 is clear |
| Scripts.HeaderMeans | src/format/stsc/header.cpp:12-25 | Byte by byte, which headers are accepted: letters, entry point, flags and the room for the extra parts |
| Scripts.ExtrasMean | src/format/stsc/header.cpp:70-92 | The extra parts of 32, 14 and 2 bytes are where the flags say, each behind the ones before it |
| Names.LocNameIs | src/format/context.cpp:122-132 | A label is named loc_ and its position in hexadecimal, zero-filled to eight digits |
| Names.StringNameIs | src/format/cstring_item.cpp:30-48 | A string label is named str_ and up to sixteen characters: the letters and digits of the string in order, never two underscores in a row |
| Names.LabelName | src/format/cstring_item.cpp:30-48 | The loop gives that name |
| Names.VariantIs | src/format/context.cpp:76-87 | The names tried for a label are its own, then with an underscore and the number 1, 2 and so on in decimal |
| Contexts.Context.Slice | src/format/item.cpp:74-123 | Puts pieces in place of an item: the pieces follow each other from its position on, each label goes to the first piece that holds its offset, and the index gets an entry for every piece whose position has none |
| Contexts.Context.Split2 | src/format/raw_item.cpp:28-58 | A new item cut out of a raw one leaves raw items with the untouched bytes around it, and the list tiles the file, the index, the label lists and the registry stay right |
| Contexts.Context.Replace | src/format/item.cpp:44-63 | An item takes the place, the labels and the index entry of another |
| SliceFacts.SlicedSound | src/format/item.cpp:81-107 | Cutting an item into pieces that fit keeps the list tiling, every label at its file position in exactly the list of the item it points to, and the index right |
| Slices.HomeHolds | src/format/item.cpp:96-107 | The piece a label goes to holds its offset; a zero-size piece takes the labels at its place |
| Slices.PlacePieces | src/format/item.cpp:92-121 | The loop of a cut: positions, label lists and index entries of all pieces |
| Registry.FloorCovers | src/format/context.cpp:145-152 | The item found by the greatest index position not above a position is the one a linear search finds |
| Contexts.Context.GetPointer | src/format/context.cpp:145-152 | The item that holds a position, and the offset in it |
| Contexts.Context.SetupParseFrom | src/format/context.cpp:23-27 | Starts with one item that holds the whole file |
| Contexts.Context.Fixup | src/format/context.cpp:29-40 | Every item stands where those before it end, and the index is empty |
| Contexts.Context.GetSize | src/format/item.cpp:167-173 | The sizes of all items add up to that of the file |
| Contexts.Context.CreateLabel | src/format/context.cpp:52-67 | A label is registered and listed by its item exactly if its name is free |
| Contexts.Context.CreateLabelFallback | src/format/context.cpp:69-88 | A label is registered under the first variant of its name that is free |
| Contexts.FreeName | src/format/context.cpp:76-87 | The renaming loop ends with a fresh name |
| Names.UsedVariants | src/format/context.cpp:76-87 | The variants of a name are all different, so that a free one exists |
| Contexts.Context.CreateOrSetLabel | src/format/context.cpp:90-109 | Moves a label to another item or registers it; it is listed by exactly the item it points to |
| Contexts.Context.GetOrCreateDummyLabel | src/format/context.cpp:111-120 | Finds a label by name or registers one that points nowhere |
| Contexts.Context.GetLabelTo | src/format/context.cpp:134-143 | The first label at a place, or a new one under the first free variant of the name if there is none |
| Contexts.FirstAtOnce | src/format/context.cpp:122-132 | Asking again for a label at a place gives the same one |
| StcmFiles.Disassemble | src/format/stcm/exports.cpp:46-65 | From any file, export table and guesses at data items: on success the tree is closed; every export points to an instruction, or a data item or a string made of one; an instruction or data item stands at a place if and only if the words of the file lead there from the exports on, and every instruction is what those words say; no data item is left that a guess would take; the dump is four bytes shorter than the file for every string that had four zeros to spare, and it is the file if and only if every string and every table is written as it was; on failure some instruction, export or payload has something wrong with it. With one data export it succeeds exactly if a header can be read there and no guess fails, and the item is what the guess says |
| StcmFiles.TextLost | src/format/stcm/string_data.cpp:26-27 | A whole file of 24 bytes, a data item with three letters in eight bytes, that is disassembled and dumped as 20 bytes, whatever the order of the guesses |
| StcmFiles.DumpsFile | src/format/item.cpp:147-151 | The same of any sound tree, nested items included: length and bytes of its dump against the file it was made from |
| TreeHeaps.FileExact | src/format/item.cpp:147-151 | A tree that stands for a file, nested or not, is dumped as that file if and only if no string leaves four zeros out or counts its size beyond 32 bits, and every table is written as its bytes |
| StcmFiles.PlainExact | src/format/stcm/data.cpp:28-44 | A tree without strings and tables is dumped as the file |
| StcmFiles.TableStays | src/format/stcm/gbnl.cpp:21-45 | A well-formed GBIN that does not begin with GST is written as its bytes when it is taken out of a data item |
| StcmFiles.TargetsStand | src/format/stcm/instruction.cpp:344-362 | In a closed tree every call and instruction pointer is the file position of an instruction, and every memory offset that of a data item or of a string made of one |
| StcmScripts.InstructionLeads | src/format/stcm/instruction.cpp:344-362 | Of every instruction of a disassembled tree: its call target and instruction pointers are labels of instructions, every memory parameter that of a data item or a string made of one, and another instruction follows in the same list if it is a call or its opcode is neither 0 nor 6 |
| StcmScripts.WordsLead | src/format/stcm/instruction.cpp:324-365 | The same of the words in the file: the instruction at a place is what the words there say, and wherever they lead, by call, fall-through or parameter, an instruction or data item stands |
| StcmScripts.ExactlySought | src/format/stcm/instruction.cpp:324-365 | An instruction or data item stands at a place if and only if words of the file lead there, in any number of steps from the exports |
| Stcm.CreateInstruction | src/format/stcm/instruction.cpp:324-365 | The recursive disassembler: on success the tree is sound and closed as before, labels to that place point to an instruction, no label has changed its file position; on failure the state says why. The raw bytes left decrease by at least 16 with every item |
| Stcm.TakeInstruction | src/format/stcm/instruction.cpp:324-342 | Reads the instruction at a place of a raw item and cuts it out: labels to that place point to it, all other instructions stay closed; fails without a change to the tree, and only if no instruction can be read there |
| StcmCuts.Insert | src/format/stcm/instruction.cpp:332-340 | Cuts out an instruction with the bytes behind it as its raw child: it takes exactly its own 16 + 12 * params bytes from the raw ones, every other item that is not raw and its labels stay, and the tree dumps the file but for strings and tables |
| Stcm.CreateData | src/format/stcm/data.cpp:28-44 | Makes a data item with its payload as child, and then what the first guess that takes it makes of it; labels to that place point to exactly that; the tree stays sound and stands for the file. It fails only if the header cannot be read, a guess fails, or the item would become a string while another label points into the same raw item |
| StcmCuts.Retype | src/format/stcm/data.cpp:73-77 | Tries the guesses at a new data item in the order they are registered: the item stays, or a table is cut out of its payload, or a string takes its place and that of its payload, just as the bytes of the payload say; the rest of the tree is as it was |
| StcmCuts.MakeString | src/format/stcm/string_data.cpp:34-36 | A string takes the place of the data item with its payload: labels to the item go over to it, no label moves in the file |
| StcmCuts.MakeTable | src/format/stcm/gbnl.cpp:21-25 | A table takes the place of the first bytes of the payload, what is behind it stays raw under the data item |
| StcmContexts.Context.TakeString | src/format/item.cpp:44-63 | Replacing an item that holds a raw child by a childless one: the child leaves the index with it, all positions stay |
| StcmClosure.SwapGuessed | src/format/stcm/data.cpp:73-77 | Cutting raw bytes anywhere in the tree leaves no data item that a guess would take |
| Stcm.PostInsert | src/format/stcm/instruction.cpp:344-362 | Visits the called instruction, the one behind unless opcode 0 or 6, and what the parameters name; the instruction is closed then |
| Stcm.VisitParams | src/format/stcm/instruction.cpp:348-362 | Everything the parameters ask for is there, which for every memory and instruction pointer InstructionLeads spells out |
| Stcm.MaybeCreate | src/format/raw_item.hpp:84-92 | What a label points to is created if raw, and must otherwise be the start of an item of the right kind |
| Stcm.VisitNext | src/format/stcm/instruction.cpp:346-347 | An instruction is behind in the same list afterwards |
| Stcm.Open | src/format/stcm/file.cpp:16-20 | The file as one raw item and the end mark |
| StcmClosure.ClosedButStays | src/format/stcm/instruction.cpp:324-365 | An edit that brings in one instruction leaves all others closed |
| StcmClosure.SwapOnward | src/format/item.cpp:74-123 | Cutting a raw item changes nothing of any other item, of the labels to it or of what follows it |
| StcmPieces.Composed | src/format/item.cpp:185-193 | Cutting an item out, cutting its payload off and moving that under it is one edit of the tree |
| StcmPieces.InsertedFaithful | src/format/stcm/instruction.cpp:332-342 | If the new item dumps the bytes it was read from, the tree still dumps the file |
| StcmContexts.Context.ParseInstruction | src/format/stcm/instruction.cpp:112-128 | Succeeds exactly on readable instructions; the labels made for its targets stand at the positions read |
| StcmContexts.Context.LabelParam | src/format/stcm/instruction.cpp:130-170 | Succeeds exactly on valid words; with labels at the file positions they name |
| StcmContexts.Context.Split2 | src/format/raw_item.cpp:28-58 | Cuts an item out of a raw one anywhere in a tree: all labels keep their file positions, those at the new bytes point into the new item, all items stay in place, the index stays right |
| StcmContexts.Context.Slice | src/format/item.cpp:74-123 | The heap effect of a cut: list, positions, label targets and index |
| StcmContexts.Context.Replace | src/format/item.cpp:44-63 | The heap effect of a replacement |
| StcmContexts.Context.MoveNextToChild | src/format/item.cpp:185-193 | The bytes behind an item become its raw child: no item and no label changes its file position |
| TreeHeaps.AdoptRaw | src/format/item.cpp:185-193 | Taking the next item in leaves the raw bytes as many as they were |
| TreeEdits.AdoptPlaced | src/format/item.cpp:185-193 | Taking the next item in leaves every item in place |
| StcmContexts.Context.GetPointer | src/format/context.cpp:145-152 | The item with the greatest indexed position; a raw one holds the position |
| StcmContexts.Context.GetLabelTo | src/format/context.cpp:134-143 | A label at a file position: one that is there, or a new one named after the position |
| StcmContexts.Context.CreateLabelFallback | src/format/context.cpp:69-88 | A new label under the first free variant of a name |
| StcmContexts.Context.SetupParseFrom | src/format/context.cpp:23-27 | Starts with one item that holds the whole file |
| StcmInstructions.ReadDumpsSame | src/format/stcm/instruction.cpp:404-421 | Any instruction that can be read dumps the bytes it was read from |
| StcmInstructions.DumpReadsSame | src/format/stcm/instruction.cpp:90-128 | An instruction survives dumping and reading if and only if its count, size, target and parameters are in range |
| StcmFormat.ReadableMeans | src/format/stcm/instruction.cpp:90-128 | Exactly which words are an instruction: call flag, target or opcode, count, size, and every parameter, in numbers |
| StcmFormat.ValidAccepts | src/format/stcm/instruction.cpp:19-88 | Exactly which three words are a parameter, in numbers |
| StcmFormat.HeldSays | src/format/stcm/instruction.cpp:404-421 | The words of a dumped instruction say that instruction, with the positions of its labels |
| StcmParams.DecodedDumpsSame | src/format/stcm/instruction.cpp:130-235 | Exactly the valid triples of words decode, and they are dumped as the same three words |
| StcmParams.DumpedDecodesSame | src/format/stcm/instruction.cpp:172-235 | A parameter survives dumping and decoding if and only if its numbers and targets are in range |
| StcmParams.Survives48 | src/format/stcm/instruction.cpp:374-391 | The same for the second and third word |
| StcmParams.TargetsInside | src/format/stcm/instruction.cpp:41-88 | A valid parameter names positions inside the file unless the 32-bit sum of its size check wrapped |
| StcmParams.OutsideAccepted | src/format/stcm/instruction.cpp:72-76 | A link outside a file of 100 bytes that passes the check |
| Trees.DumpParam | src/format/stcm/instruction.cpp:172-235 | The three words of a parameter with the current positions of its labels |
| Trees.DumpInstruction | src/format/stcm/instruction.cpp:404-418 | The header and parameters of an instruction with the current positions of its labels |
| Trees.Item.GetSize | src/format/item.cpp:167-173 | The size of an item with all it holds |
| Trees.Item.UpdatePosition | src/format/item.cpp:175-183 | Places an item and, behind its own bytes, all it holds |
| Trees.Item.Dump | src/format/item.cpp:147-151 | Writes an item and all it holds with the current positions of the labels |
| StcmContexts.Context.Fixup | src/format/context.cpp:29-40 | After any edit of the tree every item is placed where those before it end |
| StcmContexts.Context.Dump | src/format/item.cpp:147-151 | Writes the whole tree |
| StcmFiles.Save | src/format/context.cpp:29-40 | Relinks and dumps any edited tree: the bytes of every item are found at its position, and are, word by word, those of its kind: the words of an instruction in range with the positions its labels have now, the header of a data item with its present length, a string with its zeros, an expansion with the position of its name |
| StcmFiles.ItemRelinked | src/format/item.cpp:167-183 | After relinking every item dumps exactly as many bytes as its size, at the index its position says, through all nesting |
| StcmFormat.HeldWritten | src/format/stcm/instruction.cpp:404-421 | Whatever holds the bytes an item is dumped as holds its words at their offsets, with the positions of its labels |
| StcmFiles.LabelRelinked | src/format/item.hpp:124-125 | The file position of every label is the index in the dump where its item starts, plus its offset |
| StcmFiles.InstructionRelinked | src/format/stcm/instruction.cpp:404-421 | Reading an instruction at its place in the relinked dump gives it back with its targets where they are now, if and only if everything in it is in range |
| StcmFiles.DataRelinked | src/format/stcm/data.cpp:46-56 | The same for a data item |
| StcmFiles.StringRelinked | src/format/stcm/string_data.cpp:43-49 | Reading a string item at its place in the relinked dump gives a data item that is taken for that string again, under the same condition |
| StcmStrings.StringDumpsSame | src/format/stcm/string_data.cpp:14-49 | A data item taken for a string is dumped as it was if and only if less than four bytes of padding follow the end of the string and its size has not wrapped |
| StcmStrings.FourBytesLost | src/format/stcm/string_data.cpp:26-27 | Eight bytes that are taken for a string and dumped as four |
| StcmStrings.StringComesBack | src/format/stcm/string_data.cpp:14-49 | What is written for a string is taken for that string again if and only if it holds no zero, has at least four letters and its size fits 32 bits |
| StcmStrings.StringTaken | src/format/stcm/string_data.cpp:14-36 | Exactly which data is taken for which string, and exactly when the guess fails |
| StcmScripts.DataReadable | src/format/stcm/data.cpp:46-56 | Exactly which words are a data header, and what they say |
| StcmScripts.DataWorded | src/format/stcm/data.cpp:28-44 | A data item of a disassembled tree stands where its header words are in the file |
| GbnlReparse.Reparsed | src/format/gbnl.cpp:105-230 | A well-formed table whose strings are placed is read back from its dump as it was, if and only if a GSTR has strings, and a GBIN dump does not begin with the letters GST |
| GbnlReparse.NumberSpellsGst | src/format/gbnl.cpp:111-117 | A well-formed GBIN that is not read back |
| GbnlReparse.Replaced | src/format/gbnl.cpp:521-537 | Placing the strings of what was read back gives the table again |
| GbnlReparse.RecordSizeFits | src/format/gbnl.cpp:250-265 | The last gap of a canonical record is short enough for its 16 bits |
| Gbnl.Gbnl.Parse | src/format/gbnl.cpp:105-230 | Succeeds exactly if the bytes of the file say a table whose strings are where they would be written, and then holds that table: header words at their offsets, fields as the codes and offsets of the descriptors lay them out, values as the bytes of the records say |
| GbnlFormat.ParsedExactly | src/format/gbnl.cpp:105-230 | A file is read as a table if and only if its bytes say that table, in literal offsets, code numbers and widths, and its strings are where the pool has them |
| GbnlFormat.ValueInFile | src/format/gbnl.cpp:170-230 | For every message and every descriptor: the value is the number in one, two, four, four or eight bytes at the offset of the descriptor under the codes 1, 2, 0, 3 and 6, the bytes of a fixed string under 1, and under 5 the string the word there leads to |
| GbnlFormat.SizeMeans | src/format/gbnl.cpp:540-547 | The size of a file in numbers: header, records, descriptors and the distinct strings with their ends, on multiples of 16 in a GBIN |
| GbnlFormat.BuiltLaid | src/format/gbnl.cpp:126-168 | The fields built from descriptors lie as these say, with the kind and width of each code, fixed strings and padding filling the gaps |
| GbnlFormat.DumpSays | src/format/gbnl.cpp:312-404 | The bytes of a dump say the dumped table and no other whose strings are in place |
| Gbnl.Gbnl.Dump | src/format/gbnl.cpp:312-404 | Writes the table, its size being the announced one |
| Gbnl.Gbnl.RecalcSize | src/format/gbnl.cpp:501-538 | Gives every string its place in the pool and brings all sizes up to date |
| Gbnl.Gbnl.Size | src/format/gbnl.cpp:540-547 | The announced size is that of the dump |
| Gbnl.Gbnl.DumpStrings | src/format/gbnl.cpp:381-396 | The second pass writes the bytes of the pool |
| GbnlFiles.SamePool | src/format/gbnl.cpp:521-537 | Placing strings leaves every string where the pool has it |
| Pools.EmittedIsPool | src/format/gbnl.cpp:381-396 | Writing a string only where its offset is the running offset writes each distinct string once, in the order of first use, and ends where the first pass ended |
| Pools.CollectStrings | src/format/gbnl.cpp:521-537 | The strings of the pool are all different and are exactly those in use |
| Pools.FoundInPool | src/format/gbnl.cpp:192-214 | The C string at every stored offset is the string of that field |
| GbnlFiles.DumpLayout | src/format/gbnl.cpp:549-553 | Every section of a dump is where the header says, aligned, and the whole has the announced size |
| Descriptors.BuiltDescribes | src/format/gbnl.cpp:126-168 | Every ordered descriptor list is given back by the fields built from it; they fill the record if and only if the last gap fits 16 bits |
| Descriptors.CanonicalRebuilt | src/format/gbnl.cpp:334-376 | A canonical record type is rebuilt from its own descriptors |
| GbnlText.TextBack | src/format/gbnl.cpp:670-724 | Importing an export leaves the table as it was, whatever message the search for ids starts from, if ids are distinct and no line starts with a separator; line breaks inside strings come back |
| Gbnl.TextRoundTrip | src/format/gbnl.cpp:604-640 | The same for a table whose strings are placed |
| GbnlText.FindSole | src/format/gbnl.cpp:642-668 | The cyclic search finds the only field with an id, wherever it starts |
| GbnlText.SimpleIdsDistinct | src/format/gbnl.cpp:573-585 | Simple ids are distinct while a record has at most a thousand fields |
| GbnlText.CountedIdsDistinct | src/format/gbnl.cpp:586-602 | Counted ids are distinct while there are fewer than ten thousand messages, no fixed strings and no special record |
| GbnlClash.FixedBack | src/format/gbnl.cpp:642-724 | With counted ids, from any search start: reading its own text gives back the table with the text of the last fixed string of every message in its first one, which is the table itself if and only if that text, cut to the room there, is what the first one held |
| GbnlClash.FixedLost | src/format/gbnl.cpp:586-602 | A table of one message with two fixed strings that is not read back from its own text |
| GbnlText.FixedIdsClash | src/format/gbnl.cpp:586-602 | Two fixed strings of one message share an id, so that neither is the only one with it |
| GbnlText.IdBack | src/format/gbnl.cpp:703-706 | Every 32-bit id is read back from its digits |
| Gbnl.Gbnl.WriteTxt | src/format/gbnl.cpp:604-640 | Writes an entry for every exported string in order, under its id and with its text, and the end mark |
| Gbnl.Gbnl.ReadTxt | src/format/gbnl.cpp:670-724 | Reads text line by line and refuses exactly the text that names no field or ends early; a text of entries is accepted exactly if all their ids lead to strings, and stores them there one after the other |
| Gbnl.Gbnl.Find | src/format/gbnl.cpp:642-668 | The field with an id, searched round the end of the table |
| GbnlIds.IdMeans | src/format/gbnl.cpp:573-602 | Exactly which fields have an id, and which, as a number |
| GbnlIds.IdsOfThree | src/format/gbnl.cpp:594-599 | In a GSTR of three fields of which the second is a number, the first is exported under that number and a hundred thousand, the third under the number |
| GbnlIds.IdOfRecord | src/format/gbnl.cpp:589-593 | In a GBIN whose first field is a number, field 8 of 9 and field 105 of 107 are exported under that number |
| GbnlIds.TextMeans | src/format/gbnl.cpp:604-640 | The text has an entry for exactly the exported strings, each under its id, in order, and then the end mark |
| GbnlIds.TextOfThreeIs | src/format/gbnl.cpp:604-640 | The text of a GSTR of three such fields: two entries for every message, the first under a hundred thousand more |
| GbnlIds.EntryIs | src/format/gbnl.cpp:630-638 | The bytes of an entry and of the end mark: forty dashes and a blank in either encoding, a mark for simple ids, the id, line ends and the text |
| GbnlIds.SeparatorIs | src/format/gbnl.cpp:549-570 | The separator byte by byte |
| GbnlIds.IntIs | src/format/gbnl.cpp:631-634 | Ids are written in decimal, without leading zeros, behind a minus sign if negative |
| GbnlIds.ExportedIs | src/format/gbnl.cpp:620-624 | A text is written byte by byte, a line break as two bytes |
| GbnlIds.FoundFirst | src/format/gbnl.cpp:642-668 | The search finds the first field with an id, messages counted round the end, and fails exactly if none has it |
| GbnlIds.EntriesRead | src/format/gbnl.cpp:670-724 | Any list of entries is accepted if and only if every id leads to a string, and then each text is stored in the field its id leads to from the message of the one before |
| GbnlIds.OneEntryRead | src/format/gbnl.cpp:670-724 | A text of one entry changes the first field with its id and nothing else |
| GbnlIds.ThreeRead | src/format/gbnl.cpp:670-724 | In a GSTR of three such fields, the entry under the number changes the third, that under a hundred thousand more the first |
| GbnlIds.CopyMeans | src/format/gbnl.cpp:690-693 | What a fixed string holds after a text has been copied into it, byte by byte; its last byte stays |
| Cl3Reparse.Reparsed | src/format/cl3.cpp:193-261 | An archive with distinct fitting names and in-range links is read back from its dump if and only if its link section is valid and links match as they are seen in its byte order |
| Cl3Reparse.LittleReparsed | src/format/cl3.cpp:193-261 | Every little-endian archive is read back: names, fields, contents and links |
| Cl3Reparse.BigWithoutLinks | src/format/cl3.cpp:405-406 | A big-endian archive without links is read back if and only if the byte-reversed position of its second section is inside the file |
| Cl3Links.BigLinksLost | src/format/cl3.cpp:401-406 | A big-endian archive of less than 512 MiB is not read back unless the number of its links is a multiple of 256 |
| Cl3Links.BigLinksBack | src/format/cl3.cpp:401-406 | A big-endian archive whose link position, link count and link size are the same in both byte orders is read back |
| Cl3Links.SameBothWays | src/format/cl3.cpp:401-406 | A big-endian archive of about two megabytes with links that is read back |
| Cl3Reparse.EmptyBig | src/format/cl3.cpp:405-406 | The empty big-endian archive is not read back |
| Cl3Reparse.RegionsApart | src/format/cl3.cpp:408-432 | Files start on multiples of 64 and do not overlap |
| Cl3Reparse.DumpLayout | src/format/cl3.cpp:374-454 | The parts of a dump are where the sections say |
| Cl3.Cl3.Parse | src/format/cl3.cpp:193-261 | Succeeds exactly if the bytes of the file say an archive, and then holds that archive with its links |
| Cl3Format.ParsedExactly | src/format/cl3.cpp:193-261 | A file is read as an archive if and only if its bytes say that archive, in letters, numbers and offsets: the header, every section, the last ones named FILE_COLLECTION and FILE_LINK, and for every file its name, its word, the window of its data and its links |
| Cl3Format.SectionRead | src/format/cl3.cpp:41-53 | Exactly which sections are accepted, and what one named FILE_COLLECTION or FILE_LINK names |
| Cl3Format.RecordRead | src/format/cl3.cpp:74-85 | Exactly which records are accepted, and where name, word, data and links of the file are |
| Cl3Format.LinkRead | src/format/cl3.cpp:102-112 | Exactly which link records are accepted, and the file they lead to |
| Cl3Format.ExampleRead | src/format/cl3.cpp:193-261 | A literal archive of two files that link to each other, and what is read of it |
| Cl3Reparse.DumpSays | src/format/cl3.cpp:374-454 | The bytes of the dump of a little-endian archive say that archive and no other |
| Cl3.Cl3.Dump | src/format/cl3.cpp:374-454 | Writes the archive; fails exactly if a link leads nowhere |
| Cl3.Cl3.Fixup | src/format/cl3.cpp:263-277 | Brings section sizes and the link count up to date |
| Cl3.Cl3.Size | src/format/cl3.cpp:279-286 | The announced size |
| Cl3.Cl3.IndexOf | src/format/cl3.cpp:325-332 | The place of a linked file, if it is still in the archive |
| Sources.Source.Pread | src/source.hpp:114-123 | Reads exactly the bytes of the window, or refuses what is not inside it |
| Sources.Source.PreadCached | src/source.cpp:149-167 | Whichever path is taken, the bytes are those of the file |
| Sources.Source.PreadCString | src/source.cpp:169-182 | The bytes up to the first zero, across any number of chunks; refused if there is none |
| Sources.Source.GetChunk | src/source.cpp:193-200 | A non-empty run of the bytes of the window from a place on |
| Sources.Source.Dump | src/source.cpp:326-336 | Writes exactly the window |
| Sources.Provider.Pread | src/source.cpp:237-253 | Reads exactly the bytes of the file, directly or through the cache |
| Sources.Provider.EnsureChunk | src/source.cpp:256-266 | The first entry covers the position; of a cache in whole chunks the places held are moved as the reference does it, the new one in front, the others in their order, the fifth dropped and released |
| Recency.KeepsLatest | src/source.cpp:203-226 | After any run of requests the cache holds the last four different places asked for, the latest first: what is dropped is what has not been asked for longest |
| Sources.Provider.LruGet | src/source.cpp:212-226 | Finds an entry that covers a position and puts it in front, the others keeping their order; finds none exactly if no entry covers it |
| Sources.Provider.LruPush | src/source.cpp:203-210 | A new entry in front, the last one out |
| Sources.Provider.Destroy | src/source.cpp:229-234 | Every chunk that was ever obtained has been released exactly once |
| Sinks.RunExact | src/sink.cpp:139-177 | Over any run of writes, pads and flushes the stream is the concatenation of what was meant if and only if no pad loses something |
| Sinks.TwoChunksLost | src/sink.cpp:158-177 | A pad that loses a chunk |
| Sinks.SimpleSink.Run | src/sink.hpp:38-62 | The buffered writer does what the specification of the stream says, operation by operation, up to the first that has no room, which leaves everything as it was |
| Sinks.SimpleSink.Write | src/sink.cpp:139-156 | Stored and buffered bytes grow by the data |
| Sinks.SimpleSink.Pad | src/sink.cpp:158-177 | Stored and buffered bytes grow by the zeros the specification says, one chunk short for a positive multiple of the chunk size left over |
| Sinks.SimpleSink.Flush | src/sink.cpp:129-137 | Moves the buffered bytes to the file |
| Sinks.MmapSink.Write | src/sink.cpp:65-85 | The content grows by the data and nothing else |
| Sinks.MmapSink.Pad | src/sink.cpp:87-95 | The content grows by the zeros; the kept position becomes stale if and only if the pad ends with the file whole chunks beyond the window |
| Sinks.MmapSink.Tell | src/sink.hpp:32-32 | The position is that of the content if and only if it is not stale |
| Sinks.MmapSink.Run | src/sink.cpp:50-105 | Over any run of writes and pads the content is what the operations that were taken mean, one after the other, and the position told at the end is that of the content if and only if no pad of the run ended with the file whole chunks beyond the window |
| Sinks.StaleExactly | src/sink.cpp:87-95 | The position is wrong after a run if and only if some pad of it ended with the file a positive number of whole chunks beyond the window |
| Sinks.RefusedAfter | src/sink.hpp:38-62 | From then on every write and pad is refused, the empty ones too, and the content stays |
| Sinks.AllFits | src/sink.cpp:50-105 | Without such a pad before its last operation a run that fits is taken whole |
| Sinks.PaddedWhole | src/sink.cpp:87-105 | A sink of two chunks padded at once: all is written, the position told is three chunks, and an empty write is refused |
| Patterns.MaybeFind | src/pattern.cpp:22-76 | The search by the longest full run gives the answer of the brute-force search over the positions tried |
| Patterns.ScanMeans | src/pattern.cpp:47-75 | The brute-force search tells none, the only match, or several |
| Patterns.ExactlyWhen | src/pattern.cpp:42-59 | The answer is that over all positions if and only if the mask has a full byte, the last position does not match, or earlier ones match more than once |
| Patterns.LastMissed | src/pattern.cpp:42-59 | A pattern without a full mask byte that is not found |
| Patterns.LongestRun | src/pattern.cpp:24-36 | The longest stretch of full mask bytes |
| Bytes.LeDe | src/sink.hpp:64-80 | Writing back a little-endian word gives the bytes it was read from |

## Left out

- The opcode tables of `src/format/stsc/instruction.hpp` are a parameter; the results hold for every table.
- Lua bindings, `Inspect_` output, option parsing, the editor program, the launcher, the server and the hooks: user interface and foreign calls.
- Reference counting and disposal: objects live as long as they are used; the chunks of the source cache and their release are modelled.
- File and mapping calls are byte sequences; Boyer-Moore is the search for the first occurrence; intrusive sets and lists are sequences and maps.
- Floats are four opaque bytes; strings are bytes, without regard to their encoding.
- The text export of STSC scripts and the string tools mode of GBNL (`STRTOOL_COMPAT`).
- The remaining STCM items (header, collection links, the items of the export table and of expansions): disassembly starts from the list of exports, and the results hold for any such list. Their dumps are modelled where they are items of an edited tree only as far as `Trees.Body` names them.
- StcmFiles.Disassemble: the table guess is a function from the bytes of the payload to the bytes the table is written as, or to failure; a table that would be longer than its payload, or empty, is a failure here.
- StcmCuts.Retype: replacing a data item by a string while a label points into its payload, which fails the assertion of `Item::Dispose` that no label is left, is a failure here.
- `MoveNextToChild` for an item without bytes of its own, as expansions use it.
- Items of size zero in the middle of a list.
- Stcm.CreateInstruction: the end of a nested list, which the original would read as an item, is a failure here.
- StcmContexts.Context.Slice: the label sets of the items of a tree are not objects of their own; the registry says where each label points, which leaves their order at one offset open. The STSC list models them as objects.
- StcmContexts.Context.GetLabelTo: which of several labels at one place is found is left open, as in the multiset of the original.
- Gbnl.Gbnl.Parse: files of 2^32 - 1 bytes and more are excluded, because sizes of the original are assumed to fit 32 bits.
- GbnlReparse.Reparsed: requires strings without zero bytes, zero-filled fixed strings and sizes within 32 bits, as the format itself cannot hold others.
- Gbnl.Gbnl.ReadTxt: a simple id outside the table, which is undefined in the original, is a failure here.
- Cl3.Cl3.Parse: a link offset that the original leaves uninitialised, because there is no link section, is a failure here.
- `Cl3::GetOrCreateFile`, `ExtractTo`, `UpdateFromDir` and `GetStcm`: look-ups and file copying on top of what is modelled.
- Providers that hold their whole file in memory (`StringProvider`, `UniquePtrProvider`) and `MemorySink`: one chunk, which is never replaced.
