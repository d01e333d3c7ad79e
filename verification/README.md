# Object-file writers: model and proofs

This project models the four back ends that turn one abstract input, a list of sections with
symbols and relocations, into ELF, COFF, Mach-O and raw binary files, and proves that what they
write means what it should.

## How it is organised

- `Arith`, `Bytes`, `Bits`, `Names`, `Objects`: little-endian fields, fixed-shape records, placed and padded
  output, bit tricks, sorted name lists, and the abstract input.
- `StringTable`, `Output`, `Patch`, `Layout`: the string-table builder, the growing buffer, addend
  patching and the offset-prediction loop, each as a class or method with the theory behind it.
- For each structured format: `...Format` (record shapes, constants, packed fields), `...Spec` (what a
  file contains, as functions of the input), `...Writer` (the phases as methods with loops, each proved
  to compute its part of the specification, and the `File` class), `...Reader` (a reader written from
  the format's own definition, which shares only record shapes and bit-fields with the writer),
  `...RoundTrip` and the modules behind it (each step of the reader meets the writer), `...Theorems`
  (the round trip of whole files), and `...Tables`, `...Meaning`, `...Addends`, `...Symbols`,
  `...Targets`, `...Headers`, `...Errors`, `ElfRecovered`, `ElfOthers`, `ElfFileHeader`, `ElfGroups`,
  `ElfClasses`, `CoffBranches`, `CoffDirectives` (what the recovered object means, decoded by the numbers
  of the format's definition and compared with the input alone).
- `Link`, `Overlap` and `EndToEnd`: reference link steps for AMD64 and when ELF and COFF agree.
- `Sample`, the `...Sample` modules, `SampleLinks` and `SampleGroups`: a small input that meets every
  assumption, and on which the properties that the code does not have fail.
- `Flat`: raw images.

The chain of results is the same for each structured format. The writer's `Build` returns exactly the
bytes the specification names, or the error the specification finds first. Emission is proved to meet
the offsets predicted by the layout loop. The reader, started on those bytes, is proved to recover the
sections, symbols and relocations. The remaining theorems say what the recovered object means.

The readers follow System V gABI chapter 4; the Microsoft PE/COFF specification, version 8, sections 4,
5.2, 5.4, 5.5.5, 5.6 and 6.2; and the record layouts of Mach-O's `loader.h`, `nlist.h` and `reloc.h`. The link
steps follow section 4.4.1 of the x86-64 psABI and section 5.2.1 of the PE/COFF specification.

## Bounds

The code truncates silently outside the fields of its formats. Integers in the model are unbounded and
every field is written modulo its width, as the code does; offsets are not wrapped. The writer methods and
success conditions hold for every input. The round trips assume, as explicit `InBounds` predicates:

- names are NUL-free; COFF names are also non-empty, and its section names do not start with `/` and, if
  long, sit below string-table offset 10^7; Mach-O segment and section names have at most 16 bytes;
- ELF has fewer than 0xFF00 section headers, and symbol counts within `r_info`; ELF32 addends fit in 32
  bits and native types in 8;
- COFF has at most 32767 sections, and link-once sections at most 65535 relocations; Mach-O has at most
  255 sections and 2^24 symbols;
- file sizes fit the offset fields (32 bits; 64 bits for ELF64), and virtual sizes fit theirs.

## Notes on the code

- `elf/write.go` and `macho/write.go` skip the empty name when they list externals, so that an empty target
  is reported as missing (in ELF, unless a symbol with that name is defined); `coff/write.go` lists it and
  writes a symbol no reader can name.
- The comment in `coff/write.go` that malformed offsets are caught earlier does not hold: an out-of-range
  addend is skipped and its relocation still written (`CoffSample.OutOfRangeWritten`); success does not
  depend on offsets at all (`CoffTables.SucceedsIff`). Which addends survive is `CoffAddends.AddendRecovered`.
- A name that is defined more than once can mean different definitions in the ELF and the COFF file of one
  input (`SampleLinks.DuplicateNameDiffers`). The exact condition is part of `EndToEnd.FilesLinkAlike`.
- An ARM64 branch in a COFF file is written as its addend alone, opcode included
  (`CoffSample.CallOverwritten`). The exact condition is `CoffBranches.OpcodeKeptIff`.
- ELF groups come behind their members, which lack SHF_GROUP, against chapter 4 of the gABI
  (`SampleGroups.GroupMisplaced`). The exact condition is `ElfGroups.ConformIff`.
- An exported name with a space is not what a linker reads from .drectve. The exact condition is
  `CoffDirectives.ReadBackIff`.
- COFF and Mach-O relocations on sections without file bytes are dropped. The exact condition is a lemma.
- `coff/coff.go` says relocation entries record zero; they have no addend field at all.

## Model

| member | source | states |
|---|---|---|
| StringTable.StrTab.Intern | elf/strtab.go:21-31 | One intern call takes the table value to its specified successor and returns the offset recorded for the string |
| StringTable.InternAllWellFormed | macho/strtab.go:22-31 | After any history of intern calls every recorded offset still holds its string and a terminator, and different strings own disjoint ranges |
| StringTable.OffsetsNeverStale | elf/strtab.go:21-31 | The offset returned by the k-th call is the one the final table records, whatever is interned later |
| StringTable.InternedReads | elf/strtab.go:21-34 | Every NUL-free string ever interned reads back, up to its NUL, at its final offset |
| StringTable.InternAllLength | macho/strtab.go:22-34 | The table's length is the base length plus length + 1 for each distinct string added |
| StringTable.InternAllHits | coff/strtab.go:32-36 | Interning strings that are all present changes nothing |
| StringTable.InternAllKeys | elf/strtab.go:21-31 | After any history the table records exactly the strings it started with and those interned |
| Output.Buffer.PadTo | elf/write.go:249-253 | Padding only adds zero bytes, up to the target, and never truncates |
| Output.PatchLE | coff/write.go:421-437 | In-place patching of an array: the addend lands at its site if it is in range, otherwise nothing changes |
| Bytes.EmitPlaces | elf/write.go:674-681 | If offsets were predicted in order, the emitted file has the predicted length, keeps its header, holds every chunk at its offset and is zero everywhere else |
| Bytes.OrderedDisjoint | elf/write.go:630-650 | Predicted ranges that follow each other pairwise do not overlap |
| Patch.LastWriterWins | coff/write.go:413-440 | A patched byte is the one written by the last in-range relocation that covers it; any other byte is unchanged |
| Patch.LastCoveringIsLast | coff/write.go:419-437 | The writer named by that rule is in range, covers the byte and has no later covering writer; there is none exactly if no write covers it |
| Layout.ChunksLaid | coff/write.go:731-752 | The layout loop predicts ordered, non-overlapping ranges that end where the loop's position ends, for every alignment |
| Layout.Aligned | macho/write.go:665-679 | A section starts less than its alignment after its predecessor, and at a multiple of it for powers of two |
| Layout.Disjoint | macho/write.go:665-681 | Any two sections with file bytes are disjoint and lie between the headers and the symbol table |
| Bits.AlignUpBounds | coff/write.go:382-387 | alignUp(v, a) lies in [v, v + a - 1] for every a >= 1 |
| Bits.AlignUpLeast | elf/write.go:242-247 | For a power of two, alignUp gives the least multiple of a at or above v |
| Bits.AlignUpMultipleIff | macho/write.go:211-216 | alignUp always gives multiples of a if and only if a is a power of two |
| Bits.Log2 | coff/write.go:254-257 | The shift loop counts the floor of the base-two logarithm, exact for powers of two |
| Names.SortedKeys | macho/write.go:326-331 | Whatever order a map is walked in, the sorted listing is a function of its key set |
| Names.AscendingUnique | elf/write.go:1058-1063 | A set of names has only one strictly ascending listing |
| Names.LessIff | elf/write.go:1058-1063 | Names are ordered by the first byte in which they differ, a proper prefix first |
| Names.FieldKeepsIff | macho/write.go:818-823 | A name comes back from its zero-padded field if and only if it fits and has no NUL |
| Objects.CollectDefined | coff/write.go:446-454 | The loop collects exactly the names defined by any section |
| Objects.InOrder | elf/write.go:376-416 | Definitions and relocations are met section by section, each in its own order, and none twice |
| Objects.ExternalSymbols | elf/write.go:1044-1064 | The loop yields the specified list of externals |
| Objects.ExternalsFacts | coff/write.go:456-473 | That list is strictly ascending and lists exactly the names referenced and not defined (ELF and Mach-O without the empty name) |
| ElfFormat.StInfoFields | elf/write.go:176 | Binding and type come back from st_info |
| ElfFormat.RInfoFields | elf/write.go:257-258 | Symbol index and type come back from r_info in both classes, within the field limits |
| ElfSpec.RelocatedIndex | elf/write.go:500-504 | The relocation section of a content section is found at the count of relocated sections before it |
| ElfSpec.RelocatedOnly | elf/write.go:500-504 | and no other position belongs to it |
| ElfWriter.LocalSymbols | elf/write.go:376-392 | Appends exactly the named local rows; records, string offsets and index agree with the rows so far |
| ElfWriter.GlobalSymbols | elf/write.go:396-416 | The same for global and weak rows |
| ElfWriter.BuildSymbols | elf/write.go:359-427 | The symbol phase yields the specified table, index, string table and first-global position; offsets captured early are those of the final table |
| ElfWriter.EncodeSymbols | elf/write.go:429-434 | The encoded table is the records in order |
| ElfWriter.EncodeRelocs | elf/write.go:444-467 | One section's records, or the first error in the order the code meets it |
| ElfWriter.BuildRelas | elf/write.go:444-468 | One entry per relocated section, in order, or the phase's first error |
| ElfWriter.IndexRelas | elf/write.go:500-504 | The reverse map has exactly the relocated sections, each with its position |
| ElfWriter.BuildGroupData | elf/write.go:341-352 | The group words, written in place: the COMDAT flag, then the members |
| ElfWriter.FindComdatSig | elf/write.go:328-337 | The first global or weak symbol that is in the index, or the error |
| ElfWriter.DescribeContent | elf/write.go:513-547 | The per-kind descriptor of a content section |
| ElfWriter.AppendRelas | elf/write.go:550-564 | Appends the specified relocation descriptors, keeping the name table that of the list |
| ElfWriter.AppendGroups | elf/write.go:567-586 | Appends one group per link-once section, or fails like the specification |
| ElfWriter.CountGroups | elf/write.go:485-490 | Counts the link-once sections |
| ElfWriter.AppendTail | elf/write.go:589-626 | Appends stack note, symbol table and string tables; the name table ends as that of the whole list |
| ElfWriter.BuildDescs | elf/write.go:470-626 | The descriptor phase yields the specified list and name table, or the first group error |
| ElfWriter.AssignOffsets | elf/write.go:630-650 | File offsets filled into the list, and the header table's offset, are the predicted ones |
| ElfWriter.WriteContents | elf/write.go:674-681 | Writing pads to and writes each section with bytes |
| ElfWriter.WriteHeaders | elf/write.go:684-704 | Writes all headers, the null one as zeros |
| ElfWriter.Build | elf/write.go:356-707 | build64 and build32: the result is exactly the specified bytes or the specified first error |
| ElfWriter.File.constructor | elf/elf.go:78-97 | Machine, class and defaults per architecture |
| ElfWriter.File.AddSection | elf/elf.go:112 | Appends one section |
| ElfWriter.File.Serialize | elf/elf.go:116-140 | The outcome is a function of the file's state, which it leaves unchanged, so serialising again gives the same bytes |
| ElfRoundTrip.LayoutOrdered | elf/write.go:630-650 | The layout loop predicts non-overlapping ranges behind the file header |
| ElfRoundTrip.EmissionPlaces | elf/write.go:654-706 | The emitted file holds header, contents and header table where predicted, has the predicted length, and is zero wherever no chunk lies |
| ElfTheorems.ImageLaid | elf/write.go:654-706 | The same for every whole file that is built, whose length is where the header table ends |
| ElfTables.IndexFormulas | elf/write.go:496-498 | Section indices computed before the descriptor list exists are where the descriptors end up, for every mix of relocated, link-once and stack-note sections |
| ElfTables.RowsPartitioned | elf/write.go:361-427 | Rows below the first-global position are STB_LOCAL and all others global or weak, and all fit their records |
| ElfTheorems.RoundTrip | elf/write.go:356-707 | A gABI reader that starts at the ELF header recovers every section, symbol and relocation of every file that is built, each relocation with the index and the contents of the symbol entry it refers to |
| ElfRecovered.SectionsRecovered | elf/write.go:513-564 | In the object read from a built file, headers 1 to N are the input sections in order: the name, type and flags of the kind by their gABI numbers, the size reserved or the bytes, the alignment asked for or the default, and through the relocation sections their full relocation lists |
| ElfTargets.TableRecovered | elf/write.go:361-427 | The recovered symbol table is the null entry, one entry for each section, each local definition but for section labels, each global or weak one, and each external, in this order and no other, every field decoded by its gABI number; sh_info is where the locals end |
| ElfTargets.DefinitionRecovered | elf/write.go:376-416 | Every definition that is no local section label has an entry with its name, section, offset, size, binding and type |
| ElfTargets.KindRecovered | elf/elf.go:144-190 | On every machine the native type numbers and the kinds a linker takes them for are inverse: no two kinds share a type |
| ElfOthers.RelaRecovered | elf/write.go:549-564 | Every section with relocations has its RELA header in the predicted place, named after it, flagged SHF_INFO_LINK, linked to the symbol table and pointing at it |
| ElfOthers.ComdatRecovered | elf/write.go:326-337 | Every link-once section has its COMDAT header, signed by its first global or weak symbol |
| ElfOthers.FixedRecovered | elf/write.go:588-626 | The null header comes first, the stack note (if asked for, and not executable), the symbol and the string tables last, with their gABI fields, and there is no other header without a section behind it |
| ElfFileHeader.FileHeaderRecovered | elf/write.go:656-672 | The file header reads back with identification, class, type, machine, sizes and counts, and nothing for entry point, program headers and flags; the section headers are word-aligned and end the file |
| ElfFileHeader.AddressesZero | elf/write.go:684-704 | No section header has an address |
| ElfFileHeader.NullHeaderZero | elf/write.go:684-688 | The header at index 0 is all zeros |
| ElfFileHeader.ContentsPacked | elf/write.go:630-650 | Nothing but alignment, and less of it than the alignment, separates the bytes of successive sections |
| ElfErrors.ErrorReported | elf/write.go:449-458 | A failure names the first relocation in the order of the input whose target or kind cannot be written, an unknown target before an unknown kind, else the first link-once section without a global or weak symbol |
| ElfTargets.RelocsRecovered | elf/write.go:437-468 | Each relocation comes back with its own offset, kind and addend, and an index that leads to the symbol table entry of the definition its target resolves to: name, section, offset, size, binding and type |
| ElfRecovered.SymbolsRecovered | elf/write.go:598-617 | In the object read from a built file the symbol table is found by type, its strings by its link, and its info splits locals from globals |
| ElfRecovered.GroupsRecovered | elf/write.go:341-352 | In the object read from a built file each group is the COMDAT flag, its content section and that section's own relocation section if any, in this order, signed by an exported symbol |
| ElfGroups.ConformIff | elf/write.go:567-586 | The object read from a built file has every group header before its members' headers, if and only if no section is link-once; and the same for every member carrying SHF_GROUP |
| SampleGroups.GroupMisplaced | elf/write.go:341-352 | One link-once section: header 4 is its group, behind members 1 and 3, of which header 1 is not flagged; nothing is reported |
| ElfRecovered.DataAligned | elf/write.go:630-646 | Contents, and sections that only reserve space, start in the file at a multiple of every power-of-two sh_addralign |
| ElfMeaning.RowOrigin | elf/write.go:376-427 | Every named row comes from a local definition, a global or weak one, or an external, in this order of position |
| ElfMeaning.IndexHas | elf/write.go:361-427 | A name is a possible target if and only if a definition of it has a row, or it is non-empty, referenced and undefined |
| ElfMeaning.UniqueResolution | elf/write.go:449-454 | A name with one definition that has a row resolves to that section and offset |
| ElfMeaning.Resolution | elf/write.go:376-427 | A target is resolvable if and only if it has an exported definition, a local one other than a section label, or is external; it resolves to the last exported one, else the last such local one, else the undefined entry |
| ElfMeaning.ExportedWins | elf/write.go:396-416 | The last global or weak definition of a name hides every other one |
| ElfMeaning.SucceedsIff | elf/write.go:449-458 | Building succeeds if and only if every kind exists on the machine, every target has a row or is non-empty and undefined, and every link-once section exports a symbol |
| ElfClasses.ClassesAgree | elf/write.go:711-1037 | The same sections written as ELF32 and ELF64 read back with the same headers by name, type, flags, link and info, the same symbols and the same relocations down to their symbol indices; contents, groups, string tables and note are equal, and only default alignments of content sections and the entry layout of relocation and symbol tables differ |
| ElfSample.Fits | elf/write.go:356-707 | The bounds of the round trip are met by an input with a relocation and a name defined twice |
| CoffFormat.ParsePrinted | coff/write.go:320-321 | Decimal printing and parsing are inverse |
| CoffFormat.PrintedLength | coff/write.go:320-321 | A number below 10^k prints in at most k digits |
| CoffFormat.ComputeAlignFlag | coff/write.go:247-259 | The clamped shift loop computes the alignment flag |
| CoffFormat.OrNibble | coff/write.go:290 | The alignment nibble leaves every other characteristic bit alone |
| CoffWriter.BuildDrectve | coff/write.go:483-506 | The directives of all exported symbols in order, or no section |
| CoffDirectives.ReadBackIff | coff/write.go:495-499 | Read as options separated by spaces, the directive text gives exactly the exported names back, in order, if and only if none contains a space |
| CoffDirectives.SameText | coff/write.go:495-499 | A name with a space in it can give the same text as two names, so that no reader could do better |
| CoffDirectives.ExportsRecovered | coff/write.go:481-506 | The object read from a file has one section more than the input exactly if a symbol is marked for export, called .drectve and for the linker alone, from which the names of the marked symbols are read back, in order, under that same condition |
| CoffWriter.CheckCustomNames | coff/write.go:525-530 | Reports the first custom section without a name |
| CoffWriter.BuildMetas | coff/write.go:543-572 | Names, characteristics, alignment and sizes as specified |
| CoffWriter.InternSection | coff/write.go:582-591 | Interns exactly the long names of one section and its symbols, in order |
| CoffWriter.BuildStrings | coff/write.go:578-596 | Pre-interning yields the specified string table |
| CoffWriter.EncodeSymName | coff/write.go:328-338 | The inline or the zero-prefixed form, interning long names |
| CoffWriter.SetSectionName | coff/write.go:315-323 | The inline or the "/" decimal form, interning long names |
| CoffWriter.SectionSymbols | coff/write.go:618-640 | One slot per section and one definition record per link-once section, without changing the string table |
| CoffWriter.DefinedSymbols | coff/write.go:642-665 | One slot per definition, each name pointing at its last one, without changing the string table |
| CoffWriter.ExternalSymbolSlots | coff/write.go:667-682 | One slot per external; the test for an existing slot never skips one |
| CoffWriter.BuildRelocs | coff/write.go:692-716 | All records and native types, or the first error in the order the code meets it |
| CoffWriter.BuildLayout | coff/write.go:729-752 | The predicted offsets, or the first section with too many relocations |
| CoffWriter.ApplyImplicitAddends | coff/write.go:413-440 | Patches a fresh copy: the result is the specified list of writes applied to the code |
| CoffWriter.WriteHeaders | coff/write.go:772-791 | Writes all section headers without changing the string table |
| CoffWriter.WriteSections | coff/write.go:794-810 | Writes baked code and records of each section where the layout puts them |
| CoffWriter.StringBytes | coff/strtab.go:45-49 | The size, itself included, then the strings |
| CoffWriter.Build | coff/write.go:510-821 | The result is exactly the specified bytes or the specified first error |
| CoffWriter.File.constructor | coff/coff.go:93-101 | ARM64 if asked for, otherwise AMD64 |
| CoffWriter.File.AddSection | coff/coff.go:112 | Appends one section |
| CoffWriter.File.Serialize | coff/coff.go:118-135 | The outcome is a function of the file's state, which it leaves unchanged |
| CoffTables.TableFrozen | coff/write.go:575-596 | Whatever long names of sections, definitions or externals are interned after pre-interning are hits, so the payload written last is the one captured then |
| CoffTables.StrtabExact | coff/write.go:583-597 | The string table holds exactly the names of sections, symbols and externals that are longer than eight bytes |
| CoffTables.MissingSymbolUnreachable | coff/write.go:699-703 | No input makes the writer report a target without symbol table entry |
| CoffTables.SucceedsIff | coff/write.go:519-744 | Writing succeeds if and only if there are at most 65535 sections, no nameless custom section, only supported kinds and at most 65535 relocations per section with file bytes |
| CoffRoundTrip.SymbolNameReads | coff/write.go:328-338 | A symbol name decodes to itself if and only if it is non-empty and NUL-free |
| CoffRoundTrip.LongSectionNameReads | coff/write.go:315-323 | A long section name below offset 10^7 survives printing, cutting, parsing and lookup |
| CoffRoundTrip.ShortSectionNameIff | coff/write.go:316-319 | An inline section name decodes against every string table if and only if it is NUL-free and does not start with "/" |
| CoffRoundTrip.FileLaid | coff/write.go:754-821 | Emission meets the layout: every part lies where the headers say, zeros in between, total length in closed form |
| CoffWalk.WalkReads | coff/write.go:615-682 | Stepping by one plus the auxiliary count visits each primary slot once and ends at NumberOfSymbols |
| CoffWalk.AuxNotFound | coff/write.go:634-639 | No walked symbol sits in an auxiliary slot |
| CoffWalk.RelocReads | coff/write.go:698-713 | SymbolTableIndex lands on the primary record that the relocation's target is indexed at, which is read back whole |
| CoffSections.CharsBits | coff/write.go:262-292 | The alignment field of the characteristics is one plus the floor of the logarithm of the clamped alignment, and disturbs no other bit |
| CoffSections.AlignmentRecovered | coff/write.go:247-259 | The header's alignment is the section's own if and only if that is a power of two of at most 8192 |
| CoffTheorems.RoundTrip | coff/write.go:510-821 | A PE/COFF reader recovers every section with its baked bytes and relocations, each with the symbol record it refers to, and every symbol in order |
| CoffMeaning.WalkOrder | coff/write.go:600-613 | The walk yields one symbol per section, then one per definition, then one per external, and nothing else |
| CoffMeaning.Resolution | coff/write.go:643-681 | A defined target resolves to its last definition in section order whatever its binding, an undefined one to its external |
| CoffTargets.RelocsRecovered | coff/write.go:697-713 | Each relocation of a section with file bytes comes back with its own offset and a type of its kind, and a slot at which the walked symbol table has the last definition of its target, or an undefined external |
| CoffTargets.TableRecovered | coff/write.go:619-690 | The recovered symbol table is one static symbol for each section, with a definition record exactly if it is link-once, one symbol for each definition and one for each undefined name, in this order and no other, every field decoded by its PE/COFF number |
| CoffTargets.KindRecovered | coff/write.go:124-158 | A kind is written as a type exactly if a linker takes the type for that kind |
| CoffHeaders.SectionsRecovered | coff/write.go:228-306 | Every section header reads back with the name and the characteristics of its section, each bit decoded, the size reserved or the bytes, and the alignment asked for if it is a power of two up to 8192; the COMDAT bit is set exactly if the section is link-once, that is, if its symbol has a definition record |
| CoffHeaders.FieldsUnused | coff/write.go:758-792 | Time stamp, optional header, virtual sizes and addresses and line numbers are zero, and so are the pointers to bytes and relocations that there are not |
| CoffErrors.ErrorReported | coff/write.go:520-531 | A failure names too many sections first, then the first nameless custom section, then the first relocation of an unknown kind in the order of the input, then the first section with too many relocations |
| CoffMeaning.UniqueResolution | coff/write.go:698-703 | A target with one definition resolves to that section and offset |
| CoffMeaning.DefinitionAgrees | coff/write.go:634-639 | The section-definition record repeats the header's size and relocation count if and only if the section has file bytes or has neither reservation nor relocations |
| CoffMeaning.RelocationsKept | coff/write.go:732-735 | Relocations reach the file if and only if the section has file bytes or has none |
| CoffMeaning.SectionNumberIff | coff/write.go:628 | The signed section number is right if and only if the section is among the first 32767 |
| CoffMeaning.AddendWidthIff | coff/write.go:162-167 | The addend has the field's own width except for the 32-bit absolute kind on ARM64 |
| CoffMeaning.RecoveredByte | coff/write.go:413-440 | A recovered byte is the one baked by the last in-range relocation over it, else the original |
| CoffMeaning.DataAligned | coff/write.go:732-738 | Raw data is aligned in the file to every power-of-two alignment, with padding shorter than the alignment |
| CoffMeaning.ChunksDisjoint | coff/write.go:731-752 | Data and relocations of different sections never overlap and lie before the symbol table |
| CoffAddends.AddendRecovered | coff/write.go:413-440 | A relocation's addend can be read back from the recovered bytes, whatever its value, if and only if it is written inside the section and no later in-range relocation writes over it |
| CoffBranches.OpcodeKeptIff | coff/write.go:432-437 | For an ARM64 branch inside the section that no later relocation touches, the recovered instruction word is the addend, so its opcode bits are the original's if and only if the addend modulo 2^32 has the same top six bits |
| CoffSample.Fits | coff/write.go:510-821 | The bounds of the round trip are met by an input with a relocation and a name defined twice |
| CoffSample.OutOfRangeWritten | coff/write.go:419-437 | An eight-byte addend on a three-byte section: writing succeeds, the bytes are unchanged, and the relocation is read back |
| CoffSample.CallOverwritten | coff/write.go:432-437 | An ARM64 `bl` with addend zero comes back as four zero bytes; nothing is reported |
| Link.OneAgrees | coff/write.go:405-412 | For one site: adding to the baked field writes what ELF's explicit addend writes, so the 4 added for REL32 is exactly what its definition subtracts |
| Link.LinkAgrees | coff/write.go:401-440 | For in-range, pairwise disjoint Abs64, Abs32, PCRel32 and PLT32 sites, linking COFF's baked bytes gives the same section as linking ELF's untouched code, for every load address and every address of every relocation's symbol |
| Link.AloneAgrees | coff/write.go:401-440 | A site that overlaps no other ends with the same bytes in both links, whatever happens elsewhere |
| Link.SiteAgreesIff | coff/write.go:413-440 | At a site shared by several relocations the two links agree if and only if all they add together equals what the last one adds, up to the field's width |
| Overlap.AgreeIffDisjoint | coff/write.go:413-440 | For in-range sites of any overlap, the two links agree for all load and symbol addresses if and only if no two sites overlap |
| Link.OverlapDiffers | coff/write.go:419-437 | Two relocations over one field link to 1 in ELF and to 2 in COFF |
| Link.AgreeIffSamePlaces | coff/write.go:698-713 | With disjoint sites, the two files' sections link to the same bytes in every load if and only if each relocation's ELF entry and COFF record denote the same section and offset, or the same outside name |
| EndToEnd.SameChoiceIff | coff/write.go:642-665 | An ELF and a COFF relocation against n refer to the same definition if and only if n has none, or its last one is exported, or none is exported and the last one is not a section label |
| EndToEnd.SingleUnambiguous | coff/write.go:642-665 | A name with at most one definition, which is not a local section label, is resolved to the same place by both formats |
| EndToEnd.FilesLinkAlike | coff/write.go:401-412 | What the two readers recover of section i from the two files of one input links to the same bytes in every load if and only if both formats resolve each relocation's target to the same place, each through its own symbol table |
| SampleLinks.DuplicateNameDiffers | elf/write.go:396-416 | A global "f" in the first section and a local "f" in the second: the ELF entry is the first, the COFF record the second, and the two links differ |
| MachoFormat.PackedFields | macho/write.go:160-172 | Decoding r_info gives back symbol number, pcrel, length, extern and type |
| MachoWriter.BuildDescs | macho/write.go:484-497 | All relocation descriptors, or the first unsupported kind |
| MachoWriter.SectionMeta | macho/write.go:347-468 | Names, flags, alignment and sizes per kind; a custom name without a comma is an error |
| MachoWriter.LocalSymbols | macho/write.go:540-555 | Appends exactly the named local rows; records, strings and symDefs agree with the rows so far |
| MachoWriter.GlobalSymbols | macho/write.go:560-583 | The same for global and weak rows, marking weak definitions |
| MachoWriter.UndefinedSymbols | macho/write.go:587-597 | The same for undefined externals |
| MachoWriter.BuildSymbols | macho/write.go:519-597 | The symbol phase yields the specified rows, string table and symDefs |
| MachoWriter.EncodeReloc | macho/write.go:606-640 | Local targets go by section number, all others and ARM64 page relocations by symbol |
| MachoWriter.BuildRelocs | macho/write.go:601-643 | All records, or the first target without an entry |
| MachoWriter.BuildLayout | macho/write.go:663-683 | The predicted offsets of data, relocations and symbols |
| MachoWriter.SegmentSizes | macho/write.go:687-695 | Memory and file size of the segment |
| MachoWriter.Log2Field | macho/write.go:827-835 | The shift loop computes the floor of the logarithm |
| MachoWriter.ApplyImplicitAddends | macho/write.go:279-303 | Patches a fresh copy with the non-zero addends |
| MachoWriter.WriteSections | macho/write.go:787-798 | Writes patched code and records of each section where the layout puts them |
| MachoWriter.Build | macho/write.go:472-812 | The result is exactly the specified bytes or the specified first error |
| MachoWriter.File.constructor | macho/macho.go:114-123 | ARM64 if asked for, otherwise x86-64, without build version |
| MachoWriter.File.SetMinOS | macho/macho.go:128-133 | Requests a build version with the packed version for both OS and SDK |
| MachoWriter.File.AddSection | macho/macho.go:140 | Appends one section |
| MachoWriter.File.Serialize | macho/macho.go:144-159 | The outcome is a function of the file's state, which it leaves unchanged |
| MachoTables.RowOrigin | macho/write.go:540-597 | Every named row comes from a local definition, an exported one, or an external, in this order of position |
| MachoTables.Resolution | macho/write.go:540-597 | A target resolves to its last exported definition, else to its last local one, else to the undefined row |
| MachoTables.TargetIndexed | macho/write.go:609-613 | A referenced name has an entry if and only if it is not empty |
| MachoTables.SucceedsIff | macho/write.go:476-508 | Writing succeeds if and only if every kind exists on the CPU, no target is empty and every custom name has a comma |
| MachoRoundTrip.FileLaid | macho/write.go:697-812 | Emission meets the layout: headers, data, relocations, symbols and strings lie where the commands say, zeros in between, total length in closed form |
| MachoTheorems.CommandsWalk | macho/write.go:645-654 | Walking the load commands meets segment, optional build version and symbol table, and ends where the header says |
| MachoTheorems.RoundTrip | macho/write.go:472-812 | A reader that walks the load commands recovers every section with patched bytes and relocations, every symbol, and the segment's sizes |
| MachoTheorems.TargetMeaning | macho/write.go:615-640 | r_extern is 0 if and only if the target has a local and no exported definition and the type is not ARM64 PAGE21 or PAGEOFF12; the number then is that of the section of the last local definition, and otherwise the symbol is the resolved one, "_" and the target |
| MachoTargets.TableRecovered | macho/write.go:516-591 | The recovered symbol table is the null entry, one entry for each section, each named local definition, each named other one, and each external, in this order and no other, every field decoded by its nlist.h number: N_EXT unless local, N_WEAK_DEF if weak or link-once |
| MachoTargets.DefinitionRecovered | macho/write.go:534-585 | Every definition that has a name has an entry with its section, offset, visibility and weak mark |
| MachoTargets.RelocsRecovered | macho/write.go:604-652 | Each relocation of a section with file bytes comes back with its own address and kind, and refers to the section of a target that resolves to a local definition, or else, and always for ARM64 page relocations, to the entry of what its target resolves to |
| MachoTargets.KindRecovered | macho/write.go:232-263 | On both CPUs the native descriptors (type, width and reference point) and the kinds a linker takes them for are inverse |
| MachoHeaders.SectionsRecovered | macho/write.go:347-466 | Every section header reads back with segment and section name, flags, size, bytes and alignment of its section; a custom name is split at its first comma |
| MachoHeaders.SegmentRecovered | macho/write.go:684-741 | The CPU and build version come back, and the segment's sizes are the sums of its sections' sizes in memory and in the file |
| MachoHeaders.FieldsRecovered | macho/write.go:704-765 | The fields that are the same for all objects: subtype, flags, unnamed segment at address 0 with its contents behind the load commands, protections, section addresses; and the offsets of bytes and relocations that there are not are zero |
| MachoErrors.ErrorReported | macho/write.go:486-511 | A failure names the first relocation of an unknown kind in the order of the input, then the first custom section without a comma, then the first relocation against the empty name |
| MachoTheorems.BakingOnly | macho/write.go:287-290 | The writes are those of exactly the relocations with a non-zero addend, in order |
| MachoTheorems.RecoveredByte | macho/write.go:279-303 | A recovered byte is the one baked by the last in-range write over it, else the original |
| MachoTheorems.RelocationsKept | macho/write.go:666-669 | Relocations reach the file if and only if the section is not zero-fill or has none |
| MachoTheorems.AlignmentRecovered | macho/write.go:743 | The header's log2 gives the alignment back if and only if it is a power of two |
| MachoAddends.AddendRecovered | macho/write.go:279-303 | A relocation's addend can be read back from the recovered bytes, whatever its non-zero value, if and only if it is written inside the section and no later baking relocation writes over it |
| MachoAddends.ZeroRecovered | macho/write.go:287-290 | A zero addend whose field no relocation writes over is read back if and only if the field lies inside the section and its original bytes are zero |
| MachoSample.Fits | macho/write.go:472-812 | The bounds of the round trip are met by an input with a relocation and a name defined twice |
| Flat.SectionChunk | flat/flat.go:100-126 | Contents, BSS as zeros, padded with zeros to the section's alignment |
| Flat.File.WriteTo | flat/flat.go:69-92 | On success the image is appended and its length returned; on failure nothing is written |
| Flat.File.Serialize | flat/flat.go:59-65 | The image, or the error |
| Flat.FailsIff | flat/flat.go:71-77 | Failure if and only if some section has a relocation |
| Flat.ImageHolds | flat/flat.go:79-91 | Every section's contents lie at its predicted offset, followed only by zeros up to the next |
| Flat.ImageLength | flat/flat.go:79-92 | The image holds nothing else |
| Flat.PaddedLeast | flat/flat.go:114-126 | The padded size is the least multiple of the alignment that holds the contents |
| Flat.ImagePadding | flat/flat.go:114-126 | In the image fewer zeros than the alignment follow a section's contents, none if its size is a multiple, and no shorter multiple would do |
| Flat.ErrorReported | flat/flat.go:72-79 | A failure names the first section with relocations and how many it has |
| Flat.AlignedForAllSizesIff | flat/flat.go:113-126 | Tail padding keeps every section aligned for all section sizes if and only if each alignment divides the one before it |
| Flat.SectionsAligned | flat/flat.go:113-126 | In such a chain every section of an image starts at a multiple of its alignment |

## Left out

- `io.Writer` errors, buffer growth and reflection-based encoding: replaced by pure little-endian records and a buffer that only grows.
- Wrap-around of 32-bit file offsets in COFF and Mach-O and of 64-bit ones in ELF: outside the bounds above.
- Options without effect on the output: DWARF, code-signing reserve, COFF subsystem, flat base address.
- Error message texts: errors are values that carry the section index and the offending name, kind or count.
- Section, symbol and relocation kinds outside their enumerations: the input types do not contain them.
- Aliasing of the caller's `Code` slices: code is a value here, so that "not modified" is the absence of a `modifies` clause; patching works on a fresh array.
- `build32` and `build64` are two functions in the source with the same phases; they are one method here, parameterised by the class that fixes record widths and default alignments.
- COFF linking on ARM64 and for Addr32NB, IAT and TLSIE kinds: branches lose their opcodes before they are linked, and the others have no ELF counterpart here.
- Quotation marks, `=` and `,` inside /EXPORT options: the writer puts names in as they are.
- Absolute and common symbols, dynamic symbol values and relaxation in the link steps: no writer here produces the first, and the others are choices of a linker that the addresses in `Env` stand for.
- Mach-O linking: no symbol offset is baked in for targets by section number, and all section addresses are 0.
