# DeadStrip in Dafny

DeadStrip sits in front of the linker and removes dead code from the object
files it is given. It reads the command line, runs `objdump -rh` over the
object files, and builds a dependency graph of their sections from the
section tables and the relocation tables. It then colours everything
reachable from `main`, from the `--save` seeds and from the sections that
unknown sections reference. Sections left uncoloured are stripped, and the
original linker command runs afterwards. A small converter, `tographviz.py`,
turns the `--dmap` dump into a Graphviz graph.

The model has these parts:

- `wrappers.dfy`: the `Option` type.
- `cursor_list.dfy` (module `CursorLists`): the singly linked list with a sentinel head and a cursor from `list.c`. It is a class over heap nodes, and each method is proved against the ghost sequence `Contents` and the ghost `cursor` position.
- `graph.dfy` (module `Graphs`): the graph node from `src/graph.c`, a class holding a colour, a name and a cursor list of edges. `Connect` keeps its duplicate-checking loop.
- `colour.dfy` (module `Colouring`): the recursive `colorizeGraph`. It works on snapshots of the graph: each node's edge list, and each node's colour.
- `section_names.dfy` (module `SectionNames`): the string handling of `src/objectFile.c`:
  - `trim` and `upper`;
  - the prefix table and the `while (i--)` search over it;
  - `strtok` as a tokenizer;
  - the normalisation of relocation symbols (leading `_`, FASTCALL `@`, section prefixes, trailing space, STDCALL `@n`).
- `object_file.dfy` (module `ObjectFiles`): `objectFileCreate` and the three-state reader `objectFileCollect` of the `objdump -h` listing. The reader starts at the line the dump stream stands at and reports where it leaves the stream. main's loop that collects every object from the one stream is included too.
- `sections.dfy` (module `Sections`): `objectFileCompute` and its readers, as a class `Analysis` holding the section map and the unknown-section list. It covers:
  - registration of the section keys;
  - the relocation parser;
  - colouring from the unknown sections;
  - `objectFileColorize`, `objectFileGetUsed` and `objectFileGetUnused`.
- `command_line.dfy` (module `CommandLine`): the `argv` loop of `src/main.c`. It covers:
  - the option bits;
  - seeds, linker and forwarded arguments;
  - object collection and the counters `llen` and `olen`;
  - the step that drops the executable from the object list;
  - building the objdump and linker commands.
- `graphviz.dfy` (module `Graphviz`): `tographviz.py`. The parsed XML is given as its FILE/SECTION elements, and the output is given as a sequence of lines.

Some conventions hold throughout:

- Colours and the `flags` word are sets of bit positions. OR is union, 0 is the empty set, 1 is `{0}` and `0x80000000` is `{31}`.
- Files are the sequences of their lines. Each line keeps the `"\n"` that `fgets` leaves in place.

## Model

| member | source | states |
|---|---|---|
| CursorLists.CursorList.constructor | list.c:27-32 | a new list is empty, its cursor on the sentinel head |
| CursorLists.CursorList.Add | list.c:48-57 | the datum is inserted right after the cursor and the cursor moves onto it; the rest of the list keeps its order |
| CursorLists.CursorList.Remove | list.c:59-74 | with the cursor on the head or the first element, the first element is unlinked; the cursor moves to what followed it |
| CursorLists.CursorList.Set | list.c:76-82 | the element under the cursor gets the new datum; nothing else changes |
| CursorLists.CursorList.Get | list.c:84-88 | returns the datum under the cursor |
| CursorLists.CursorList.Next | list.c:90-99 | advances and answers true exactly when an element follows the cursor; otherwise stays put |
| CursorLists.CursorList.Start | list.c:101-105 | puts the cursor back on the head |
| CursorLists.CursorList.Count | list.c:107-120 | returns the number of elements, counted by walking the chain |
| CursorLists.CursorList.IsEmpty | list.c:122-128 | true exactly when the list holds no element |
| Graphs.GraphNode.constructor | src/graph.c:23-32 | a new node has colour 0, the given name and an empty edge list |
| Graphs.GraphNode.Connect | src/graph.c:43-57 | the edge list becomes `Connected(old edges, dest)`: unchanged if dest is already there, else dest added |
| Graphs.GraphNode.ColorNode | src/graph.c:59-63 | the node's colour becomes the given one |
| Graphs.GraphNode.GetColor | src/graph.c:65-69 | returns the node's colour |
| Graphs.GraphNode.GetName | src/graph.c:71-75 | returns the node's name |
| Graphs.GraphNode.GetConnections | src/graph.c:77-80 | returns the node's own edge list |
| Graphs.Connected | src/graph.c:48-56 | the old edges stay a prefix; dest is in the result; the length grows by one exactly when dest was absent |
| Graphs.ConnectIdempotent | src/graph.c:48-56 | connecting the same node twice is connecting it once |
| Graphs.ConnectKeepsNoDuplicates | src/graph.c:48-56 | the duplicate check keeps an edge list free of repeats |
| Graphs.ConnectAllSpec | src/graph.c:43-57 | after successive connections: old edges are a prefix, every target is present, nothing else was added, and no repeats arise |
| Colouring.ColorizeGraph | src/objectFile.c:156-168 | colours only grow by `color`; the seed ends up carrying it; every node whose colour changed has a path from the seed; every changed node's successors are full |
| Colouring.MarkedCloses | src/objectFile.c:156-168 | if no edge left the fully coloured nodes before, none does after, and everything reachable from the seed is fully coloured |
| Colouring.MarkedExactly | src/objectFile.c:156-168 | under that closure, the fully coloured nodes afterwards are exactly those full before plus those reachable from the seed |
| Colouring.PartialStart | src/objectFile.c:158-163 | colouring a seed that lacks some bit starts the walk over its edge list |
| Colouring.PartialStep | src/objectFile.c:164-166 | the recursion into the next successor extends the partial colouring by one edge |
| Colouring.MarkedFull | src/objectFile.c:158-159 | a seed that already carries every bit is left unchanged, and so is everything else |
| Colouring.PendingShrinks | src/objectFile.c:159-166 | once the seed is coloured, fewer nodes lack the colour, so the recursion ends |
| SectionNames.ToUpperChar | src/objectFile.c:59 | lower-case ASCII letters map to upper case; every other character is unchanged |
| SectionNames.Trim | src/objectFile.c:45-50 | drops exactly the leading whitespace: the result starts with a non-space character or is empty |
| SectionNames.TrimIsSuffix | src/objectFile.c:45-50 | the trimmed string is a suffix of the input |
| SectionNames.Upper | src/objectFile.c:55-62 | same length; each character is upper-cased |
| SectionNames.UpperInPlace | src/objectFile.c:55-62 | the loop over the buffer leaves it equal to `Upper` of its old contents |
| SectionNames.MatchPrefixBelow | src/objectFile.c:109-116 | the found index is below the start and the name has that prefix; on no match, no entry below the start is a prefix |
| SectionNames.AtMostOnePrefix | src/objectFile.c:23-24 | no name starts with two different table prefixes, so the search order is irrelevant |
| SectionNames.StripPrefixSpec | src/objectFile.c:270-281 | a prefixed name loses exactly its prefix; any other name is its own key |
| SectionNames.StripPrefixOf | src/objectFile.c:270-281 | the prefix followed by `u` is filed under `u` |
| SectionNames.RunLength | src/objectFile.c:84-90 | the leading run holds no delimiter and ends at a delimiter or at the end of the string |
| SectionNames.Tokens | src/objectFile.c:84-90 | the tokens strtok returns are non-empty and contain no delimiter |
| SectionNames.TokensKeepText | src/objectFile.c:84-90 | the tokens, concatenated, are the input without its delimiters |
| SectionNames.TrimRight | src/objectFile.c:119-124 | drops exactly the trailing whitespace: the result is a prefix that ends in a non-space character or is empty |
| SectionNames.DigitScanBack | src/objectFile.c:128 | the backward scan stops at the last non-digit at or before the start; everything it passed is a digit |
| SectionNames.StripStdcall | src/objectFile.c:127-131 | the name is kept, or it is cut at an '@' followed by one or more digits and nothing else |
| SectionNames.StripStdcallRemovesDecoration | src/objectFile.c:127-131 | `n@digits` loses its `@digits` suffix |
| SectionNames.StripStdcallKeepsPlain | src/objectFile.c:127-131 | a name with no '@' is left as it is |
| SectionNames.StripStdcallAgreement | src/objectFile.c:127-131 | on a name ending in a digit the scan as written and the corrected scan cut at the same place; on any other name the corrected scan keeps the name, so the two differ only where the scan as written cuts a name ending in a non-digit |
| SectionNames.StripStdcallAsWrittenRemovesDecoration | src/objectFile.c:127-131 | the scan as written also strips `n@digits` to `n` |
| SectionNames.StripStdcallAsWrittenCutsNonDigit | src/objectFile.c:127-131 | the scan as written cuts "foo@x" to "foo", while the corrected scan keeps it |
| SectionNames.NormaliseUndoesDecoration | src/objectFile.c:97-132 | every decoration of a plain name is undone, whatever whitespace trails it: cdecl `_n`, stdcall `_n@d`, fastcall `@n@d`, or section prefix; the normalisation as written and the corrected one both give `n` |
| SectionNames.NormaliseCdecl | src/objectFile.c:98-99 | `_n` plus trailing space normalises to `n`, both as written and corrected |
| SectionNames.NormaliseStdcall | src/objectFile.c:98-131 | `_n@digits` plus trailing space normalises to `n`, both as written and corrected |
| SectionNames.NormaliseFastcall | src/objectFile.c:101-105 | `@n@digits` plus trailing space normalises to `n`, both as written and corrected |
| SectionNames.NormaliseInSection | src/objectFile.c:107-117 | a prefixed name plus trailing space normalises to the name without its prefix, both as written and corrected |
| SectionNames.FirstTokenOfPlain | src/objectFile.c:104 | strtok with "@" on `n@...` yields `n` |
| ObjectFiles.Create | src/objectFile.c:172-180 | the object carries the given name and no sections |
| ObjectFiles.Entry | src/objectFile.c:218-234 | a row contributes its second field only if that field starts with a known prefix |
| ObjectFiles.Read | src/objectFile.c:189-213 | a line is blank exactly when nothing but space remains after trimming; its caption is "SECTIONS" exactly when it is that word in some casing |
| ObjectFiles.First | src/objectFile.c:187-241 | the first line at or after `i` that is the landmark; no earlier line is |
| ObjectFiles.ScanTable | src/objectFile.c:217-241 | inside the section table, the loop gathers the table entries up to the next blank line and returns just past it, or at the end of the listing |
| ObjectFiles.ScanFoundName | src/objectFile.c:203-214 | after the name line, the loop finds the "sections" caption, skips the header row and reads the table |
| ObjectFiles.ScanSearching | src/objectFile.c:196-200 | before the name line, the loop only looks for the caption equal to the object's name |
| ObjectFiles.ScanCollectsFrom | src/objectFile.c:182-243 | the three-state read loop, started at any line, gathers and stops exactly as `CollectedFrom` describes: the names of the object's table, and the line after the blank line closing it; nothing, and the end of the listing, when the name or the "sections" caption is missing |
| ObjectFiles.ScanCollects | src/objectFile.c:182-243 | the same on the listing's lines |
| ObjectFiles.ReadLine | src/objectFile.c:187-241 | one round of the loop moves the reader exactly as one step of `Scan`, and returns after a blank line in the section table |
| ObjectFiles.ReadListing | src/objectFile.c:182-243 | the read loop from the stream's position runs exactly as `Scan` |
| ObjectFiles.Collect | src/objectFile.c:182-243 | reading from the line the stream stands at, the object's section list gains the prefixed section names of that object's table, in order, and the stream is left where `Collected` says |
| ObjectFiles.CollectAll | src/main.c:225-230 | the objects are read in turn from one stream that is not rewound, each read starting where the previous one stopped |
| ObjectFiles.CollectedAllKeeps | src/main.c:225-230 | every object keeps its name and its earlier sections |
| ObjectFiles.CollectedAllAtEnd | src/objectFile.c:187-242 | once the stream is at the end of the listing, no object gains a section |
| ObjectFiles.NameMissingStarvesRest | src/objectFile.c:187-242 | an object whose name never appears as a caption (an archive, announced as "In archive NAME:") consumes the rest of the listing, and every later object gains nothing |
| Sections.Filed | src/objectFile.c:271-285 | one (key, name) entry per section name, keyed by the name without prefix |
| Sections.RegisteredKeys | src/objectFile.c:284-285 | after registration, the keys are the old keys plus the keys of the entries |
| Sections.RegisteredKeeps | src/objectFile.c:284-285 | a key that was already present keeps its node |
| Sections.RegisteredFirst | src/objectFile.c:284-285 | a new key gets the node of the first entry filed under it; later ones are ignored |
| Sections.RegisteredAppend | src/objectFile.c:260-288 | registering two runs of entries is registering the first run, then the second |
| Sections.RegisteredNames | src/objectFile.c:260-288 | from an empty map, the keys are exactly the stripped names, and each key's node is named after the first full name filed under it |
| Sections.KeyedRegistered | src/objectFile.c:260-288 | every rewritten section of every file is a key of the map |
| Sections.Keys | src/objectFile.c:275-281 | the rewritten section list has the same length as the original |
| Sections.AddedNode | src/objectFile.c:285 | adding a node with colour 0 and no edges keeps the graph well formed |
| Sections.RelocSectionOfPrefixed | src/objectFile.c:306-343 | the caption of a prefixed section's table names the section's key |
| Sections.RelocSectionOfPlain | src/objectFile.c:306-343 | the caption of an unprefixed section's table names the section itself |
| Sections.RelocSectionOfKey | src/objectFile.c:311-332 | a caption whose bracketed part is filed under `n` names `n` |
| Sections.ReadReloc | src/objectFile.c:297-306 | a line is blank exactly when it is empty once trimmed; its header is read as the parser reads it, and its target is normalised with the corrected STDCALL scan |
| Sections.TableLinks | src/objectFile.c:73-81 | a table starting before the end consumes at least one line and never runs past the listing |
| Sections.RelocationsTable | src/objectFile.c:343-357 | a caption of a known section, or of an unknown section that is not weak, contributes its table's links and then the rest of the listing |
| Sections.ApplyEdges | src/objectFile.c:134-140 | after the links are connected, each node's edges are its old edges followed by its link targets, each connected once |
| Sections.ApplyKeys | src/objectFile.c:134-140 | connecting adds no node |
| Sections.ApplyGraph | src/objectFile.c:134-140 | connecting links between known nodes keeps every edge leading to a node |
| Sections.TableKnown | src/objectFile.c:134-147 | a table's links lead to known keys: edges from the table's own section, or unknown references when that section is unknown |
| Sections.RelocationsKnown | src/objectFile.c:290-362 | every link of the whole listing leads to a known key |
| Sections.UnknownsKnown | src/objectFile.c:145-146 | every entry of the unknown list is a known key |
| Sections.TableScanLinks | src/objectFile.c:73-149 | the read loop of one table connects the table's links and appends its unknown targets |
| Sections.DeadFromNone | src/objectFile.c:371 | with every colour 0, nothing is dead before the first seed |
| Sections.ReachedFromNext | src/objectFile.c:372-373 | one more seed reaches what the earlier seeds reached plus what it reaches itself |
| Sections.DeadStep | src/objectFile.c:372-373 | colouring from the next unknown section with bit 31 marks exactly what it adds to the reach |
| Sections.NamesOf | src/objectFile.c:391-395 | one node name per section, in order |
| Sections.Select | src/objectFile.c:384-416 | the selection is no longer than the section list |
| Sections.SelectPartition | src/objectFile.c:384-416 | each section's name lands in exactly one of the used and unused lists (as multisets) |
| Sections.SelectMembers | src/objectFile.c:384-416 | a name is in the used (unused) list exactly when some section with that name has a nonzero (zero) colour |
| Sections.Analysis.constructor | src/objectFile.c:255-256 | starts with an empty section map and an empty unknown list |
| Sections.Analysis.Register | src/objectFile.c:259-288 | the map becomes the old map with every file's sections registered; new nodes have colour 0 and no edges; files come back with keys for sections |
| Sections.Analysis.RegisterFile | src/objectFile.c:263-287 | one file: its sections are registered, unless the list is empty, and the file comes back with keys for sections |
| Sections.Analysis.RegisterSects | src/objectFile.c:266-286 | the same registration for one file's sections, and the rewritten list is their keys |
| Sections.Analysis.ParseRelocSection | src/objectFile.c:68-150 | the table's links become edges of its section, or unknown-list entries; returns the line after the blank line that ends the table |
| Sections.Analysis.ParseRelocations | src/objectFile.c:290-362 | all tables of the listing are parsed; `ok` is false exactly when a caption was malformed |
| Sections.Analysis.Colorize | src/objectFile.c:376-382 | an unknown seed changes nothing; otherwise colours only grow; the seed is coloured; every changed node is reachable from it; under closure, exactly the reachable nodes join the full set |
| Sections.Analysis.ColourUnknown | src/objectFile.c:371-373 | from all colours 0, exactly the nodes reachable from an unknown section end with bit 31; all others stay 0 |
| Sections.Analysis.Compute | src/objectFile.c:245-374 | nodes are keyed by stripped section names and named by the first full name; each node's edges are its relocation targets, once each, in order; if the parse was clean, exactly the nodes reachable from unknown sections carry bit 31 |
| Sections.Analysis.GetUsed | src/objectFile.c:384-399 | the node names of the file's sections with nonzero colour, in order |
| Sections.Analysis.GetUnused | src/objectFile.c:401-416 | the node names of the file's sections with colour 0, in order |
| Sections.Analysis.Selection | src/objectFile.c:388-396 | the shared lookup loop returns `Select` of the sections |
| CommandLine.KindOf | src/main.c:86-137 | only arguments beginning with "--" can be long options; a flag option sets one of the six flag bits |
| CommandLine.Next | src/main.c:80-96 | each step consumes one argument, or two for `--save` and `--linker` |
| CommandLine.TokensCover | src/main.c:80-96 | every argument is either read as an argument or is the value of a preceding `--save`/`--linker` |
| CommandLine.FileNames | src/main.c:206 | one file name per object, in order |
| CommandLine.ForwardedFrom | src/main.c:138-166 | at most one forwarded linker argument per argument |
| CommandLine.FlagsFrom | src/main.c:85-140 | the collection bit is never among the reported option bits |
| CommandLine.ForwardedMembers | src/main.c:138-166 | an argument is forwarded to the linker exactly when it is read as an argument and is not a known long option |
| CommandLine.SavedMembers | src/main.c:88-96 | a seed is saved exactly when it follows a `--save` that is read as an option |
| CommandLine.FlagsMembers | src/main.c:97-140 | a bit is set exactly when some argument read as an option sets it |
| CommandLine.LinkerDefault | src/main.c:122-131 | without `--linker` the linker stays "ld" |
| CommandLine.LinkerLastWins | src/main.c:122-131 | the value of the last `--linker` wins |
| CommandLine.ObjectsForwarded | src/main.c:138-166 | every collected object is also forwarded; it has no sections and is not "-o" itself; objects exist only after a "-o" |
| CommandLine.RunFlags | src/main.c:80-167 | the loop's bits, other than the collection bit, are the old bits plus `FlagsFrom` |
| CommandLine.RunLinker | src/main.c:122-131 | the loop's linker is `LinkerFrom` |
| CommandLine.RunForwarded | src/main.c:148-166 | the loop's linker arguments are the old ones followed by `ForwardedFrom` |
| CommandLine.RunSeeds | src/main.c:88-96 | the loop's seeds are the old ones followed by `SavedFrom` |
| CommandLine.RunObjects | src/main.c:154-162 | the loop's objects are the old ones followed by `ObjectsFrom` |
| CommandLine.StepCounted | src/main.c:122-166 | every argument keeps `llen` and `olen` equal to the lengths they size |
| CommandLine.PlainCounted | src/main.c:154-165 | a forwarded argument adds its length plus one to `llen`, and also to `olen` when it is collected |
| CommandLine.ForwardCounted | src/main.c:138-166 | the common path and "-o" keep both counters exact: "-o" adds 3 to `llen`; another argument adds its length plus one to `llen`, and to `olen` when collected |
| CommandLine.RunCounted | src/main.c:80-167 | the whole loop keeps the counters exact |
| CommandLine.RunFromStart | src/main.c:67-170 | from the start state, the loop yields the specified flags, seeds ("main" first), linker, objects and linker arguments; `llen` and `olen` are one more than the lengths of the two commands |
| CommandLine.JoinedLength | src/main.c:296-304 | a joined word list is as long as its words plus one space each |
| CommandLine.LinkerCommandLength | src/main.c:292-305 | `llen` as computed is the linker command's length plus its terminator |
| CommandLine.DumpCommandLength | src/main.c:197-211 | `olen` as computed is the objdump command's length plus its terminator |
| CommandLine.Wrapped | src/main.c:148-170 | the argument array holds the forwarded arguments, in order |
| CommandLine.TakeArgument | src/main.c:80-166 | one round of the loop moves main's locals exactly as `Step` does, with `largs` holding the forwarded arguments |
| CommandLine.ForwardArgument | src/main.c:138-166 | the common path: main's locals move as `Forward` says, and the argument lands in `largs[li]` |
| CommandLine.ScanArguments | src/main.c:67-170 | the loop yields the flags, seeds, linker, objects and the NULL-terminated argument array described by the specification functions, with exact `llen` and `olen` |
| CommandLine.Drop | src/main.c:177-192 | never crashes; reports no objects exactly when at most the executable was collected; otherwise the executable is removed |
| CommandLine.DropAgrees | src/main.c:177-192 | the code as written crashes exactly on an empty list, and agrees with `Drop` everywhere else |
| CommandLine.OutputWithoutObjectsCrashes | src/main.c:177-183 | `-o -lc` sets the objects bit but collects nothing, so the code as written crashes |
| CommandLine.DropKeepsCount | src/main.c:182 | after the executable is dropped, `olen` still sizes the objdump command exactly |
| CommandLine.DropExecutable | src/main.c:177-192 | on the cursor list: reports no objects (leaving the list empty) or drops the first object and adjusts `olen`, as `Drop` says |
| CommandLine.BuildDumpCommand | src/main.c:197-211 | the command is "objdump -rh " followed by each object name and a space, then ">.-" |
| CommandLine.BuildLinkerCommand | src/main.c:292-305 | the command is the linker, a space, then each forwarded argument followed by a space |
| Graphviz.OccursAt | tographviz.py:13 | `pat in s` holds exactly when `pat` occurs at some position of `s` |
| Graphviz.RemoveAllChanges | tographviz.py:11 | `replace(pat, '')` changes the string exactly when `pat` occurs, and then shortens it by at least `len(pat)` |
| Graphviz.SymbolOfUntagged | tographviz.py:11 | a section name without tags is its own symbol |
| Graphviz.EdgeLines | tographviz.py:20 | one `  src -> dst;` line per edge, in order |
| Graphviz.SectionPairs | tographviz.py:11-12 | one (symbol, child text) pair per child element, in order |
| Graphviz.VisitTarget | tographviz.py:13-20 | one child: the target is the data name, else the text name, else the previous target; with no target at all the script fails; each tag found adds its symbol to its list |
| Graphviz.WalkedCount | tographviz.py:10-20 | the walk succeeds exactly when the first child carries a tag; it then prints one edge per child and the last target carries over |
| Graphviz.WalkedSources | tographviz.py:11-20 | each edge starts at its section's symbol |
| Graphviz.WalkedTargets | tographviz.py:13-20 | each edge ends at the target its child determines, given the previous edge's target |
| Graphviz.WalkedSymbols | tographviz.py:13-18 | a symbol is in `textsym` (`datasym`) exactly when some child contains the text (data) tag and yields it |
| Graphviz.WalkedStops | tographviz.py:10-20 | once the walk has failed, later children change nothing |
| Graphviz.ErrorIsFinal | tographviz.py:10-20 | a failure in an early section is the result of the whole walk |
| Graphviz.ShapeLineInjective | tographviz.py:22-26 | different symbols give different shape lines |
| Graphviz.Rendered | tographviz.py:22-26 | one shape line per symbol of the order |
| Graphviz.RenderedOnce | tographviz.py:22-26 | the shape lines are distinct, and a symbol gets a line exactly when it is in the set |
| Graphviz.ShapeLines | tographviz.py:22-26 | iterates over the set in some order, one shape line per distinct symbol |
| Graphviz.VisitChildren | tographviz.py:12-20 | the inner loop continues the walk over one section's children and prints its edges |
| Graphviz.ToGraphviz | tographviz.py:8-28 | "digraph {", one edge line per child, one box line per distinct text symbol, one circle line per distinct data symbol, "}"; a failed walk prints only the edges before the failure |

## Left out

- deleteList, deleteGraph and every free: memory release is not modelled.
- CursorLists.CursorList.Remove: modelled only with the cursor on the head or the first element, which is how main.c calls it. With the cursor further on, the C code frees an element that stays linked.
- The section graph inside `Sections.Analysis` is three maps over the section keys (name, edge list, colour) rather than `graph` objects in a hashmap. Node identity and in-place updates through shared pointers are captured only by `Graphs.GraphNode`, which is proved on its own. The hashmap itself is not part of this model.
- Colours are sets of bit positions rather than `unsigned long`; only bits 0 and 31 are ever used.
- `objectFile` is a value (name, section list). The section list is a sequence rather than a cursor list, and `objectFileGetName` (src/objectFile.c:418-421) is the field `name`.
- File reading: the listing is the sequence of its lines. Not modelled:
  - the 256-byte `fgets` truncation;
  - the stale re-read of the last line when `feof` is reached;
  - running `objdump` and opening, rewinding, closing and removing the dump file;
  - `system()`;
  - the help text, the error messages, and the dump printers objectFileDumpMap, objectFileDumpUsed and objectFileDumpUnused.
- Sections.ReadReloc: the relocation target is normalised with the corrected STDCALL scan (`SectionNames.NormaliseSymbol`), not the scan as written at src/objectFile.c:127-131. `SectionNames.StripStdcallAgreement` and `SectionNames.NormaliseUndoesDecoration` show that the two agree on every well-formed decorated symbol. They differ only on a name that ends in a non-digit preceded by '@' and digits: `_foo@x` is filed under `foo@x` here, where the program looks up `foo`.
- Sections.Analysis.Compute: because of that reading, a relocation to a symbol like `_foo@x` adds no edge in the model, where the program adds an edge to `foo` if that section exists. The same holds for `Sections.TableLinks`, `Sections.Analysis.ParseRelocSection` and `Sections.Analysis.ParseRelocations`.
- Sections.RelocSection: the C code skips `sizeof("RELOCATION")` characters after the keyword without checking that the caption is that long. A caption that is exactly "RELOCATION" reads past the string. The model treats that caption as malformed.
- SectionNames.StripFront: a FASTCALL token that is just "@" makes strtok return NULL, which the C code passes on. The model reports no reference there.
- SectionNames.TrimRight: the C scan runs back over the byte before the token when the token is all space. The model stops at the token's start.
- CommandLine.ScanArguments: `llen` and `olen` are unbounded integers. The `int` overflow and the `size_t` arithmetic of `--linker` (main.c:127) are not modelled.
- CommandLine.ScanArguments: the seed and object lists are built as sequences. The cursor-list forms of lObject and lSeed are used only by DropExecutable and BuildDumpCommand.
- The second half of main.c is not modelled:
  - computing and colouring the seeds (main.c:217-247), apart from the collection loop, which is `ObjectFiles.CollectAll` over a sequence of objects;
  - the section-removal commands (main.c:249-288);
  - the command-line dump (main.c:315-322).
  The operations these steps call are modelled one by one.
- Graphviz: the XML parsing (`ET.parse`) is left out. The model starts from the FILE/SECTION elements and assumes every `name` and child text is present.
- Graphviz: the script iterates over `set(...)` in an order Python does not fix. The model allows any order (`Enumeration`).
- Graphviz: the script's failure on a first child without a tag (an unbound `depsym`) is the `ok == false` outcome, after the lines printed so far.

## Findings

| source | as written | input that shows it | evidently intended | confidence | as-written member | corrected member |
|---|---|---|---|---|---|---|
| src/objectFile.c:127-131 | `while (isdigit(*--i))` moves before testing, so the last character is never checked to be a digit, and "@x" counts as a STDCALL suffix | the relocation symbol `foo@x` becomes `foo` | remove `@` only when digits, and only digits, follow it | not executed | SectionNames.StripStdcallAsWrittenCutsNonDigit | SectionNames.StripStdcall |
| src/main.c:177-192 | the executable is dropped without checking that any object was collected; on an empty list `listGet` returns the sentinel's NULL datum, and `objectFileGetName` dereferences it | `deadstrip -o -lc` | report "You can't link an executable without providing object files." as for a list holding only the executable | not executed | CommandLine.OutputWithoutObjectsCrashes | CommandLine.DropExecutable |
