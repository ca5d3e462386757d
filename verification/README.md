# Rainman: a verified model

Rainman is the library under Corsix's Mod Studio, an editor for mods of real-time strategy games.
This project models its data structures and formats in Dafny 4.11 and proves what they are for.
`dafny verify dfyconfig.toml` checks everything.

**Lua overlay inheritance.** `Inherit` and `Reference` give a script a table that holds only what
differs from another script, behind an `__index` event that inserts proxy tables on read; saving
writes only the difference, as a Lua program. `LuaHeap` has the mutable tables, addressed by
reference, and the event; `LuaStores` what a store changes, and what storing nil uncovers;
`LuaRuns` shows that any interleaving of reads and stores through any number of overlays of shared
scripts is what it would be on copies of their own, and on full copies exactly when nothing is
deleted over an inherited value; `LuaText` prints and reads the programs, and says exactly which
names and strings come back; `LuaSave` and `LuaScript` show exactly when the saved program, down
to its characters, rebuilds every key path, in whatever order the keys of each table are written.
`LuaWritten` says which statements are written at all: after any session the saved file is its own
script, less what was stored over, and reading adds nothing. `LuaListing` is the listing of a
table for the editor, `LuaLoader` the two loaders and their ways of noticing a cycle.

**The overlay file system.** `CFileMap` merges any number of sources into one tree without regard
to case. `SortNumber` is the packed 32-bit priority, `FileNames` the comparisons and the binary
searches, `FileTree` the merging and erasing of sub-trees, `FileMap` the history of a map and what
follows from it, `FileMapObject` the object: its tree always shows exactly what its history says.
`FileView` is the older `CDoWFileView` and the agreement of the two.

**Relic Chunky files.** `ChunkyBytes` is the format, in its newer and its older layout, as values
and bytes, in 32-bit arithmetic; `ChunkyFile` the objects, which own the chunks below them and are
filled and updated in place.

**Copy on write.** `CopyOnWrite` models the protectors that let copies of a cached table share
everything until a table is touched.

**The inheritance forest.** `ParentForest` has chains of parents, child lists and walks;
`InheritTable` the hashed dictionary whose nodes form the forest.

**UCS to DAT.** `UcsMerge` is the merge of sorted text maps and the blocks it writes.

Where the code and its documentation disagree the model follows the code. Storing nil in an
overlay, which a generated script means as a deletion, only takes away the overlay's own entry:
what the base has shows again (`LuaRuns.DoRefinesEager` says when). A plain `{}` is saved without
a line of its own (`LuaSave.SaveReloadsExactly` says when it comes back). `_nextEntry` reads like
a search for the least code but stops at the first smaller one (`UcsMerge.RisesExactly` says when
the order is right all the same). `Save` always writes the layout of version 3, so older chunky
files do not survive it. `RewriteToC` may lead a path to a ToC of another length, and
`VOpenOutputStream` then cuts the name of a new file wrongly (`FileMapObject.NewFileNameExactly`).
The room `_saveTable` makes for a prefix is too small for short keys
(`LuaText.PrefixFitsExactly`). A file name is written between `[[` and `]]` as it is, which not
every name stands (`LuaText.CallRoundTrip`, `LuaText.BracketNameLost`).

## Model

| member | source | states |
|---|---|---|
| LuaHeap.IndexTransparent | CDMSSrc_055/Rainman_src/CLuaFile2.cpp:207-260 | A read through `__index` gives the value the `$PARENT` chain holds, stores a proxy in the table read and in every table passed on the way, and changes the resolved tree of no table in the heap |
| LuaHeap.MaterialiseWf | CDMSSrc_055/Rainman_src/CLuaFile2.cpp:221-258 | Storing a proxy keeps parents older and in another tree, and nested tables in one place only |
| LuaHeap.MaterialiseLookup | CDMSSrc_055/Rainman_src/CLuaFile2.cpp:221-258 | After a proxy is stored every lookup in every table gives what it gave, or the proxy in place of the very table it stands for |
| LuaHeap.MaterialiseView | CDMSSrc_055/Rainman_src/CLuaFile2.cpp:221-258 | After a proxy is stored every key path from every table resolves as before, and the proxy resolves like the table it stands for |
| LuaStores.WalkTransparent | CDMSSrc_055/Rainman_src/CLuaFile2.cpp:207-260 | Reading a whole key path, with all proxies it leaves behind, changes nothing that can be observed, sees what the path resolves to, and ends at a table of the reader's own tree |
| LuaStores.OverlayView | CDMSSrc_055/Rainman_src/CLuaFile2.cpp:307-331 | The overlay made by `Inherit` or `Reference` shows exactly the tree of its base, at every path |
| LuaRuns.AttachReady | CDMSSrc_055/Rainman_src/CLuaFile2.cpp:262-341 | A call gives an overlay for a known script or the empty name and fails for any other, and no open tree changes |
| LuaStores.RawPathUnique | CDMSSrc_055/Rainman_src/CLuaFile2.cpp:207-260 | Without aliasing a table sits at one raw path only |
| LuaStores.ViewAway | CDMSSrc_055/Rainman_src/CLuaFile2.cpp:207-260 | A raw store, of nil too, is not seen from any table that the stored-to table is not below |
| LuaStores.ViewStored | CDMSSrc_055/Rainman_src/CLuaFile2.cpp:207-260 | A raw store at the end of a path changes the tree at that key and below, to the value stored or, for nil, to what the base of the table has there, and at no other path |
| LuaStores.UnderStored | CDMSSrc_055/Rainman_src/CLuaFile2.cpp:207-260 | It changes what lies beneath the entries below that key to what now stands there, and beneath no other entry |
| LuaRuns.StoreEffect | CDMSSrc_055/Rainman_src/CLuaFile2.cpp:207-260 | A store through a child path replaces that subtree of that tree alone, storing nil uncovers the base there; every table of another tree shows what it showed |
| LuaRuns.MaterialiseUnder | CDMSSrc_055/Rainman_src/CLuaFile2.cpp:221-258 | A proxy stored on read changes nothing of what lies beneath any entry |
| LuaRuns.DoRefinesCopy | CDMSSrc_055/Rainman_src/CLuaFile2.cpp:207-341 | One read, store, deletion or attachment on a lazily inherited tree has the outcome and leaves the tree that it would on a copy that keeps what lies beneath each entry; neither a parent nor a sibling of the same parent changes |
| LuaRuns.GuardExact | CDMSSrc_055/Rainman_src/CLuaFile2.cpp:855-873 | Such a copy and a full copy, where storing nil deletes, stay the same if and only if no entry is erased over something; the outcomes always agree |
| LuaRuns.GuardIsNil | CDMSSrc_055/Rainman_src/CLuaFile2.cpp:855-873 | Nothing lies beneath an entry if and only if `$PARENT[K]` is nil, the guard of `VDeleteChild` |
| LuaRuns.DoRefinesEager | CDMSSrc_055/Rainman_src/CLuaFile2.cpp:207-341 | One operation leaves the tree it leaves on a full copy if and only if it does not store nil where `$PARENT[K]` of the table reached is something |
| LuaRuns.StepExact | CDMSSrc_055/Rainman_src/CLuaFile2.cpp:207-341 | Where all trees are those of full copies, one step keeps all of them so if and only if it is not such an erasure; its outcome is the same in any case |
| LuaRuns.EraseUncovers | CDMSSrc_055/Rainman_src/CLuaFile2.cpp:207-260 | After `x = 2` and `x = nil` in an overlay of a script with `x = 1` the overlay shows 1 |
| LuaRuns.EraseOnFullCopy | CDMSSrc_055/Rainman_src/CLuaFile2.cpp:207-260 | A full copy would show nothing there |
| LuaRuns.DoKeepsSession | CDMSSrc_055/Rainman_src/CLuaFile2.cpp:207-341 | Every operation keeps the shared heap well formed and the scripts inherited from separate from the open trees |
| LuaRuns.RunRefinesCopies | CDMSSrc_055/Rainman_src/CLuaFile2.cpp:207-341 | For any interleaving of reads, stores, deletions and attachments through any number of overlays of shared scripts, every outcome and every final tree is that of independent copies, and no table outside the open trees changes |
| LuaRuns.RunRefinesEager | CDMSSrc_055/Rainman_src/CLuaFile2.cpp:207-341 | Over any run the trees are at every step those of independent full copies if and only if no step stores nil where `$PARENT[K]`, in the heap of that step, is something; then so are the outcomes and the trees at the end |
| LuaRuns.NoEraseGuarded | CDMSSrc_055/Rainman_src/CLuaFile2.cpp:207-341 | A run that stores no nil meets that condition |
| LuaText.AppendEscapedString | CDMSSrc_055/Rainman_src/CLuaFile2.cpp:1150-1183 | The loop appends the escaped form of the source up to its first NUL |
| LuaText.ReadEscapedChar | CDMSSrc_055/Rainman_src/CLuaFile2.cpp:1150-1183 | Reading one escaped character by the rules of section 2.1 of the Lua 5.0 Reference Manual gives back the character, whatever follows |
| LuaText.EscapeRoundTrip | CDMSSrc_055/Rainman_src/CLuaFile2.cpp:1150-1183 | Reading an escaped string gives back the string and stops at the quote written behind it |
| LuaText.StoredStringComesBack | CDMSSrc_055/Rainman_src/CLuaFile2.cpp:1325-1344 | A stored string comes back whole if and only if it holds no NUL |
| LuaText.EscapeBounded | CDMSSrc_055/Rainman_src/CLuaFile2.cpp:1335-1341 | Escaped text is at most twice as long and holds no raw newline |
| LuaText.PrefixFitsExactly | CDMSSrc_055/Rainman_src/CLuaFile2.cpp:1279-1287 | The prefix of an entry fits the room made for it if and only if the escaped key and four more characters are no longer than twice the key; for a key without special characters, if and only if it has four characters |
| LuaText.NumberRoundTrip | CDMSSrc_055/Rainman_src/CLuaFile2.cpp:1308-1315 | A number with five decimals, as `%.5f` prints it, reads back as itself with any text behind it |
| LuaText.LongRoundTrip | CDMSSrc_055/Rainman_src/CLuaFile2.cpp:1198-1215 | A name written between `[[` and `]]` is read back by the rules of section 2.1 of the Lua 5.0 Reference Manual, where pairs of brackets nest, if and only if its brackets nest and it ends in no single `]` |
| LuaText.CallRoundTrip | CDMSSrc_055/Rainman_src/CLuaFile2.cpp:1203-1213 | The call of `Inherit` or `Reference` on a file name reads back if and only if the name holds no NUL, its brackets nest so, and it does not begin with a newline |
| LuaText.SingleBracketsFit | CDMSSrc_055/Rainman_src/CLuaFile2.cpp:1203-1213 | Single brackets, as in `a[1].lua`, do no harm, but for a `]` at the end |
| LuaText.BracketNamesFit | CDMSSrc_055/Rainman_src/CLuaFile2.cpp:1203-1213 | `a[1].lua` and `[[a]]` are names that fit |
| LuaText.BracketNameLost | CDMSSrc_055/Rainman_src/CLuaFile2.cpp:1203-1213 | `x]` does not fit: the line written for it does not read |
| LuaText.RhsRoundTrip | CDMSSrc_055/Rainman_src/CLuaFile2.cpp:1306-1344 | What stands behind the equals sign reads back if and only if it is such a call or a value other than a table, without NUL |
| LuaText.PathRoundTrip | CDMSSrc_055/Rainman_src/CLuaFile2.cpp:1279-1287 | The bracketed keys of a path read back as the path if and only if no key holds a NUL |
| LuaText.StmtRoundTrip | CDMSSrc_055/Rainman_src/CLuaFile2.cpp:1198-1215 | One written line, call or assignment, reads back as the statement it was written for if and only if its keys and its value hold no NUL and the file name it calls fits between the brackets |
| LuaText.ProgramRoundTrip | CDMSSrc_055/Rainman_src/CLuaFile2.cpp:1186-1367 | The text of a list of statements reads back as that list if and only if every line is one that comes back |
| LuaSave.HeaderRuns | CDMSSrc_055/Rainman_src/CLuaFile2.cpp:1198-1215 | The inherit line of a nested table brings its path to what its parent shows, and is left out exactly for a proxy, whose parent is there already |
| LuaSave.LineExact | CDMSSrc_055/Rainman_src/CLuaFile2.cpp:1268-1367 | The statements for one key succeed and bring it back if and only if its table, when it is a plain one, finds a table there with no key it lacks; they change nothing beside the key |
| LuaSave.LinesExact | CDMSSrc_055/Rainman_src/CLuaFile2.cpp:1266-1367 | So for any list of distinct keys in any order |
| LuaSave.BodyExact | CDMSSrc_055/Rainman_src/CLuaFile2.cpp:1226-1367 | Where a tree shows some table, the statements written for another succeed and make it show that one if and only if it can be rebuilt there |
| LuaSave.NoPlainRebuilds | CDMSSrc_055/Rainman_src/CLuaFile2.cpp:1198-1215 | A tree in which every table came from a call or a read can always be rebuilt |
| LuaSave.MakeOpens | CDMSSrc_055/Rainman_src/CLuaFile2.cpp:262-341 | The inherit line of a script opens a new tree that shows its base and can itself be saved |
| LuaSave.ExecRefines | CDMSSrc_055/Rainman_src/CLuaFile2.cpp:1226-1367 | Running statements on the shared heap succeeds exactly when they do on a copy, and leaves the tree they leave there |
| LuaSave.SaveReloadsExactly | CDMSSrc_055/Rainman_src/CLuaFile2.cpp:1128-1141 | Differential save, exactly: for any tree that calls, reads, stores, deletions and plain `{}` leave and any order of keys, running the lines written succeeds and rebuilds the same value at every key path if and only if every plain table stands where the base shows a table without keys it lacks; nothing that was there changes |
| LuaSave.SaveReloads | CDMSSrc_055/Rainman_src/CLuaFile2.cpp:1128-1141 | Without plain tables it always does: differential save preserves meaning |
| LuaSave.RunCoherent | CDMSSrc_055/Rainman_src/CLuaFile2.cpp:207-341 | Every state reached by reads, stores, deletions, attachments and plain `{}` from trees of this shape has trees of this shape, and without a `{}` stored none with a plain table |
| LuaSave.CoherentIndex | CDMSSrc_055/Rainman_src/CLuaFile2.cpp:207-260 | The proxies a read leaves are such that the saved program still rebuilds the tree |
| LuaSave.PlainTableLost | CDMSSrc_055/Rainman_src/CLuaFile2.cpp:1198-1215 | A plain `{}` over nothing is not re-created: a concrete heap where the saved script rebuilds a tree without it |
| LuaSave.PlainTableHides | CDMSSrc_055/Rainman_src/CLuaFile2.cpp:1198-1215 | A plain `{}` over a table with a key does not come back either: a concrete heap that shows no value there, where the base has one |
| LuaWritten.QuietIndex | CDMSSrc_055/Rainman_src/CLuaFile2.cpp:207-260 | A read gives the tables it passes nothing but proxies: every entry an old table gained holds a new table, and new tables hold no other; a simple value of the base is never copied down |
| LuaWritten.IndexProxy | CDMSSrc_055/Rainman_src/CLuaFile2.cpp:221-258 | The proxy left at the key read stands for the table the parent has there, and carries the file name of the table read and an empty `$FUNC` |
| LuaWritten.BodyIsWritten | CDMSSrc_055/Rainman_src/CLuaFile2.cpp:1226-1367 | Whatever the order of the keys, what is written for a tree is exactly: each simple value at the path of its entry, and for each table that came from a call that call |
| LuaWritten.BodyInOrder | CDMSSrc_055/Rainman_src/CLuaFile2.cpp:1226-1367 | No statement written stores at the place of an earlier one or above it |
| LuaWritten.WrittenOnce | CDMSSrc_055/Rainman_src/CLuaFile2.cpp:1226-1367 | No statement is written twice |
| LuaWritten.WalkWrites | CDMSSrc_055/Rainman_src/CLuaFile2.cpp:207-260 | Reading a path changes no statement written for any tree: differential save stays differential |
| LuaWritten.StoreWrites | CDMSSrc_055/Rainman_src/CLuaFile2.cpp:207-260 | A raw store takes away the statements at its place and below, and puts in the one the value stored is written as, if any |
| LuaWritten.DoWrites | CDMSSrc_055/Rainman_src/CLuaFile2.cpp:207-341 | An operation that is done takes away the statements at its place and below and is written itself, unless it stores nil or a plain `{}`; a read and a failure change nothing |
| LuaWritten.DoElsewhere | CDMSSrc_055/Rainman_src/CLuaFile2.cpp:207-341 | Every other tree is written as it was |
| LuaWritten.AttachSaved | CDMSSrc_055/Rainman_src/CLuaFile2.cpp:307-331 | After a call of `Inherit` or `Reference` that was done, the inherit line of the table at its place is that very call, function and file name |
| LuaWritten.RunWrites | CDMSSrc_055/Rainman_src/CLuaFile2.cpp:207-341 | After any session what is written for a tree is exactly the assignments and calls done on it that nothing done later stored over, and of what was written before just what nothing stored over |
| LuaWritten.SavesAgain | CDMSSrc_055/Rainman_src/CLuaFile2.cpp:1128-1141 | When the statements written for a tree succeed, the tree they build came from the same call and is written as the same statements |
| LuaScript.SavedTextReads | CDMSSrc_055/Rainman_src/CLuaFile2.cpp:1186-1367 | The text written for `GameData` parses back to the inherit call and exactly the assignments that were to be written, if and only if each of them is one that comes back |
| LuaScript.PrintableHolds | CDMSSrc_055/Rainman_src/CLuaFile2.cpp:1186-1367 | That is so for every tree whose keys and strings hold no NUL and whose file names fit |
| LuaScript.SavedTextReloadsExactly | CDMSSrc_055/Rainman_src/CLuaFile2.cpp:1128-1141 | The same end to end, whenever the text holds the statements: the characters `saveFile` writes, read as Lua and run, rebuild every key path of the tree, whatever order the keys were written in, if and only if its plain tables can be rebuilt |
| LuaScript.SavedTextReloads | CDMSSrc_055/Rainman_src/CLuaFile2.cpp:1128-1141 | Without plain tables such a text always rebuilds the tree |
| LuaScript.SavedTextAgain | CDMSSrc_055/Rainman_src/CLuaFile2.cpp:1128-1141 | Save, load, save: a tree rebuilt by its own saved text is saved as the same inherit line and the same statements, whatever order its keys are taken in |
| LuaScript.RunPrintable | CDMSSrc_055/Rainman_src/CLuaFile2.cpp:207-341 | Runs that bring in only keys and strings without NUL and file names that fit keep every tree one that the text can hold |
| LuaScript.LuaState.GetTable | CDMSSrc_055/Rainman_src/CLuaFile2.cpp:207-260 | `lua_gettable` on the mutable heap: the state and the value of the specified read |
| LuaScript.LuaState.IndexEvent | CDMSSrc_055/Rainman_src/CLuaFile2.cpp:207-260 | The event handler computes the specified read of a missing key |
| LuaScript.LuaState.LuaParent | CDMSSrc_055/Rainman_src/CLuaFile2.cpp:307-331 | The overlay table with its three entries over the script's table, or over a new empty table for the empty name; nothing for an unknown name |
| LuaScript.LuaState.Perform | CDMSSrc_055/Rainman_src/CLuaFile2.cpp:207-341 | One statement or path read on the mutable heap is the specified operation, storing nil included |
| LuaScript.LuaState.DeleteChild | CDMSSrc_055/Rainman_src/CLuaFile2.cpp:855-873 | `VDeleteChild` deletes if and only if the base has nil under the key, and changes nothing that shows otherwise |
| LuaScript.LuaState.SaveTable | CDMSSrc_055/Rainman_src/CLuaFile2.cpp:1186-1218 | `_saveTable` in modes 0, 1 and 2 appends exactly the specified text |
| LuaScript.LuaState.SaveEntries | CDMSSrc_055/Rainman_src/CLuaFile2.cpp:1226-1367 | The key loop appends the specified text for every entry that is not one of the three, in the given order |
| LuaScript.LuaState.SaveHeader | CDMSSrc_055/Rainman_src/CLuaFile2.cpp:1198-1215 | The inherit line, only for a table with a non-empty `$FUNC` |
| LuaScript.LuaState.SaveEntry | CDMSSrc_055/Rainman_src/CLuaFile2.cpp:1279-1363 | One entry: an assignment, or the nested table's own text |
| LuaScript.LuaState.ValueText | CDMSSrc_055/Rainman_src/CLuaFile2.cpp:1306-1344 | A leaf value as it is printed |
| LuaScript.LuaState.EntryPrefix | CDMSSrc_055/Rainman_src/CLuaFile2.cpp:1279-1287 | The prefix of a nested entry is the text of the longer path |
| LuaScript.LuaState.SaveGameData | CDMSSrc_055/Rainman_src/CLuaFile2.cpp:1128-1141 | The `GameData` part of a saved file: inherit line, then entries |
| LuaListing.CTable.DoLoad | CDMSSrc_055/Rainman_src/CLuaFile2.cpp:652-726 | The level loop lists only visible keys, each with the type of its resolved value and at most one per name hash, covers every visible hash, and reports the nearest level with a non-empty `$FUNC` |
| LuaListing.CTable.LoadLevel | CDMSSrc_055/Rainman_src/CLuaFile2.cpp:660-714 | One level adds its keys that no nearer level has listed, and sets the reference only if none was set |
| LuaListing.NearestIs | CDMSSrc_055/Rainman_src/CLuaFile2.cpp:652-726 | The reference reported is that of a level that came from a call with no such level before it, and there is none if and only if no level came from one |
| LuaListing.ListingComplete | CDMSSrc_055/Rainman_src/CLuaFile2.cpp:652-726 | The names listed are exactly the visible keys if and only if no two visible keys share a hash; each is listed once |
| LuaLoader.CounterLoader.LoadFile | CDMSSrc_055/Rainman_src/CLuaFile2.cpp:94-165 | With the reference counter a call ends with the file served, with a chain of references that repeats a file, or with one that runs into a missing file; no file is ever counted more than twice |
| LuaLoader.CounterLoader.RunCalls | CDMSSrc_055/Rainman_src/CLuaFile2.cpp:117-165 | The calls of a script are made in order until one fails |
| LuaLoader.CounterLoader.LuaParent | CDMSSrc_055/Rainman_src/CLuaFile2.cpp:271-303 | A reference is taken from the cache or loaded and cached, with the same three outcomes |
| LuaLoader.CounterLoader.LoadRoot | CDMSSrc_055/Rainman_src/CLuaFile2.cpp:94-165 | Loading succeeds exactly when neither a cycle nor a missing file is reachable, reports a circular reference only for a cycle, executes each file at most twice, and once when it succeeds |
| LuaLoader.QueueLoader.Load | CDMSSrc_055/Rainman_src/CLuaFile.cpp:963-986 | The queue is as it was on every exit; a file on the queue is refused as circular |
| LuaLoader.QueueLoader.Inherit | CDMSSrc_055/Rainman_src/CLuaFile.cpp:262-409 | A reference is taken from the cache or loaded and cached, and leaves the queue as it was |
| LuaLoader.QueueLoader.LoadRoot | CDMSSrc_055/Rainman_src/CLuaFile.cpp:878-986 | The queue-based loader accepts exactly the reference graphs the counter-based one accepts |
| LuaLoader.ServedIsClean | CDMSSrc_055/Rainman_src/CLuaFile2.cpp:271-303 | A file all of whose references are served reaches neither a cycle nor a missing file |
| LuaLoader.ServedNotRunning | CDMSSrc_055/Rainman_src/CLuaFile2.cpp:102-111 | A file that is still being executed can not have all its references served |
| SortNumber.DataSource.SetMod | CDMSSrc_055/Rainman_src/CFileMap.h:138 | Changes the mod field to the low 15 bits given and leaves the other fields |
| SortNumber.DataSource.SetSourceType | CDMSSrc_055/Rainman_src/CFileMap.h:139 | Changes the one type bit and leaves the other fields |
| SortNumber.DataSource.SetSourceNumber | CDMSSrc_055/Rainman_src/CFileMap.h:140 | Changes the low 16 bits and leaves the other fields |
| SortNumber.OnlyModChanges | CDMSSrc_055/Rainman_src/CFileMap.h:134-138 | `GetMod` gives back what `SetMod` stored; type and number are untouched |
| SortNumber.OnlyTypeChanges | CDMSSrc_055/Rainman_src/CFileMap.h:134-139 | The same for the source type |
| SortNumber.OnlyNumberChanges | CDMSSrc_055/Rainman_src/CFileMap.h:134-140 | The same for the source number |
| SortNumber.ModFirst | CDMSSrc_055/Rainman_src/CFileMap.h:152-155 | The comparator orders by mod before anything else |
| SortNumber.FolderFirst | CDMSSrc_055/Rainman_src/CFileMap.h:152-155 | Within a mod a folder comes before an archive, whatever their numbers |
| SortNumber.NumberLast | CDMSSrc_055/Rainman_src/CFileMap.h:152-155 | Within a mod and a type, folder or archive, the lower source number comes first |
| SortNumber.OwnFolders | CDMSSrc_055/Rainman_src/CFileMap.cpp:98-163 | A sort number is at most 0xffff if and only if the mod is 0 and the source is a folder |
| SortNumber.ModFits | CDMSSrc_055/Rainman_src/CFileMap.cpp:687-706 | A mod number survives packing if and only if it fits 15 bits; type and number always do |
| FileNames.PrefixDecides | CDMSSrc_055/Rainman_src/CFileMap.cpp:590-620 | Comparing as many characters as the wanted name has and then the lengths decides as the full comparison does |
| FileNames.PrefixSearch | CDMSSrc_055/Rainman_src/CFileMap.cpp:590-620 | Binary search with the prefix comparison ends, and on a sorted list finds what a linear scan finds |
| FileNames.NameSearch | CDMSSrc_055/Rainman_src/CFileMap.cpp:651-671 | So does the search for a file |
| FileNames.LinearSearch | CDMSSrc_055/Rainman_src/CDoWFileView.cpp:550-567 | The linear scan finds the first entry of that name, case ignored, or none |
| FileNames.SortKeeps | CDMSSrc_055/Rainman_src/CFileMap.cpp:677-685 | Sorting children with distinct names keeps every lookup and leaves them strictly ordered |
| FileNames.SortStrict | CDMSSrc_055/Rainman_src/CFileMap.cpp:677-685 | Sorted children are strictly ordered if and only if no two have the same name, case ignored |
| FileTree.RawMap | CDMSSrc_055/Rainman_src/CFileMap.cpp:994-1068 | Merging a directory gives the source every file and folder of the directory, with the directory's times and names, and changes nothing for any other source or path |
| FileTree.MapFile | CDMSSrc_055/Rainman_src/CFileMap.cpp:994-1068 | A file entry is found or added, and the source recorded unless it is only written to |
| FileTree.MapDir | CDMSSrc_055/Rainman_src/CFileMap.cpp:994-1068 | A sub-directory entry is found or added and merged into |
| FileTree.EraseSourceFromFolder | CDMSSrc_055/Rainman_src/CFileMap.cpp:972-992 | The source is gone from the folder, every sub-folder and every file; all other sources keep theirs |
| FileMap.TimesAreCurrent | CDMSSrc_055/Rainman_src/CFileMap.cpp:911-992 | After any history a source has a file if and only if some event gave it the file and the source was not erased since, whatever the order and the other sources |
| FileMap.TimesAreLatest | CDMSSrc_055/Rainman_src/CFileMap.cpp:911-992 | The write time held for a source is the one it was given last |
| FileMap.DirsAreNamed | CDMSSrc_055/Rainman_src/CFileMap.cpp:994-1068 | The name a source has for a folder is one given since it was last erased: that of the folder made last, or, if none was made, that of the first mapping |
| FileMap.EraseUndoes | CDMSSrc_055/Rainman_src/CFileMap.cpp:951-992 | After erasing a source every path has the sources, and every folder the names, it would have had the source never been mapped or written to |
| FileMap.LeastExists | CDMSSrc_055/Rainman_src/CFileMap.cpp:44-74 | A file some source has always has a source of least sort number |
| FileMap.ReadYourWrites | CDMSSrc_055/Rainman_src/CFileMap.cpp:165-277 | After a write through a source nothing shadows, that source is the one a read of the path opens, unless it is only written to; no other path changes |
| FileMapObject.CFileMap.RegisterSource | CDMSSrc_055/Rainman_src/CFileMap.cpp:687-706 | Registering a source changes no file |
| FileMapObject.CFileMap.MapIterator | CDMSSrc_055/Rainman_src/CFileMap.cpp:911-935 | Mapping as a ToC's root adds exactly that mapping to the history the tree shows, and keeps it sorted and without doubles |
| FileMapObject.CFileMap.MapIteratorDeep | CDMSSrc_055/Rainman_src/CFileMap.cpp:849-909 | The same at any virtual path, with the folders on the way made |
| FileMapObject.CFileMap.EraseSource | CDMSSrc_055/Rainman_src/CFileMap.cpp:951-970 | Erasing adds exactly the erasure to the history and unregisters the source |
| FileMapObject.CFileMap.WalkFolders | CDMSSrc_055/Rainman_src/CFileMap.cpp:575-640 | The folder loop reaches or makes every folder of the path without changing what any path resolves to |
| FileMapObject.CFileMap.FindFile | CDMSSrc_055/Rainman_src/CFileMap.cpp:553-675 | Finds the folder and the file of a path; making missing folders changes no resolution; fails exactly when there is no such ToC |
| FileMapObject.CFileMap.RewriteToC | CDMSSrc_055/Rainman_src/CFileMap.cpp:492-551 | Paths of the rewritten ToC lead to the same place below the other, in one step whatever that is rewritten to; given none they lead to themselves again; no other path and no file changes |
| FileMapObject.OpenFile | CDMSSrc_055/Rainman_src/CFileMap.cpp:44-74 | Opens a file from its source of least sort number, under that source's name for the folder, a backslash unless it ends in one, and the name of the file; fails exactly when no source has it |
| FileMapObject.CFileMap.OpenFound | CDMSSrc_055/Rainman_src/CFileMap.cpp:279-293 | For what was found at a path: opens the least of the sources that have it now, or fails exactly when none has |
| FileMapObject.CFileMap.VOpenStream | CDMSSrc_055/Rainman_src/CFileMap.cpp:279-293 | Opens the file from the source of least sort number among those that have it now, under that source's name for the folder and the name of the file, and fails exactly when none has it |
| FileMapObject.CFileMap.PickHere | CDMSSrc_055/Rainman_src/CFileMap.cpp:98-130 | Picks the file's own source if it may be written, or else a default output of the folder that nothing shadows; fails exactly when there is neither |
| FileMapObject.CFileMap.MakeFolderWritable | CDMSSrc_055/Rainman_src/CFileMap.cpp:98-163 | Picks the file's own source or a default output of the nearest folder up the parent chain that has one, always a folder of the mod itself that no source of the file shadows; every folder below that one is made for that source, in order, in its parent, and entered under the name the source has for the parent then with a separator, the name of the folder, and a closing separator where the parent has one; with no failing store it fails only when there is none to pick |
| FileMapObject.CFileMap.MakeInParent | CDMSSrc_055/Rainman_src/CFileMap.cpp:132-162 | Where the folder itself has no source to pick the parent is made writable, and then the folder in it |
| FileMapObject.CFileMap.MakeHere | CDMSSrc_055/Rainman_src/CFileMap.cpp:139-159 | Asks the store to make the folder in the parent, under the name the source has for the parent, and enters it; if the store refuses nothing is entered |
| FileMapObject.SubDirName | CDMSSrc_055/Rainman_src/CFileMap.cpp:147-157 | The name of a new folder is that of its parent, one separator, its own name, and the closing separator if the parent ends in one |
| FileMapObject.CFileMap.FindForWriting | CDMSSrc_055/Rainman_src/CFileMap.cpp:165-193 | Finds the name, the sources and the folder of a file to be written, rewriting its ToC; if there is no such ToC the path can not be written |
| FileMapObject.CFileMap.OpenForWriting | CDMSSrc_055/Rainman_src/CFileMap.cpp:195-277 | For a file so found: one write recorded through the source picked, under that source's name for the folder then, or no file changed; only the folders on the way are made; with no failing store it succeeds exactly when a source can be picked and the file may be replaced; a write time that can not be read once the file is open is an error, unless the source is only written to |
| FileMapObject.CFileMap.VOpenOutputStream | CDMSSrc_055/Rainman_src/CFileMap.cpp:165-277 | A successful open records one write of that path, through its own source or the nearest default output, under the path the store opens; a failed one changes no file; the folders made on the way are exactly those below where that source was found; with no failing store it succeeds exactly when a source can be picked and the file, if it is there and not to be erased, has its own |
| FileMapObject.NewFileNameExactly | CDMSSrc_055/Rainman_src/CFileMap.cpp:187-193 | A new file's name is cut from the given path by the length of the full name of the folder it leads to: it is the last part of the path, and the file is found there again, if and only if the ToC was not rewritten to one of another length |
| FileMapObject.WrongNameEntered | CDMSSrc_055/Rainman_src/CFileMap.cpp:187-193 | When the lengths differ the entry added is one of the wrongly cut name, the file is still not found, every other name is as it was, and the list stays strictly sorted if and only if the folder had no file of that wrong name |
| FileMapObject.AttribLosesALetter | CDMSSrc_055/Rainman_src/CFileMap.cpp:187-193 | With `attrib` rewritten to `generic`, as `CLuaFile` asks, the new file `ai.rgd` is entered as `i.rgd` |
| FileMapObject.ReadsWhereWritten | CDMSSrc_055/Rainman_src/CFileMap.cpp:235-245 | Reading and writing open the same name in the store if and only if the name of the folder is neither empty nor ends in a forward slash |
| FileMapObject.StorePath | CDMSSrc_055/Rainman_src/CFileMap.cpp:55-57 | A read asks for the name of the folder, a backslash unless it is empty or ends in one, and the name of the file |
| FileMapObject.WritePath | CDMSSrc_055/Rainman_src/CFileMap.cpp:235-245 | A write asks for the same, but takes a forward slash at the end for a separator too |
| FileMapObject.LegalIsOwnFolder | CDMSSrc_055/Rainman_src/CFileMap.cpp:98-130 | A source that a file is written through has `GetMod()` 0 and `GetSourceType()` 0; a default output of that kind may take a file if and only if no source of the file comes before it |
| FileMapObject.FoldersChangeNoFile | CDMSSrc_055/Rainman_src/CFileMap.cpp:98-163 | Folders made on the way to a write change no file |
| FileMapObject.WriteThenRead | CDMSSrc_055/Rainman_src/CFileMap.cpp:165-277 | After a successful open for writing a read of the path opens what was written unless the source is only written to, and every other file opens as before |
| FileMapObject.CanWriteSplit | CDMSSrc_055/Rainman_src/CFileMap.cpp:98-163 | A path can be written if and only if its folder has its own legal source or a default output, or the parent folder can be written to |
| FileView.RawMapFolder | CDMSSrc_055/Rainman_src/CDoWFileView.cpp:675-762 | Merging a directory claims every file not yet claimed and leaves the owner of every claimed one |
| FileView.CDoWFileView.AddFileSource | CDMSSrc_055/Rainman_src/CDoWFileView.cpp:588-610 | Adding a source adds it behind those mapped before |
| FileView.CDoWFileView.VOpenStream | CDMSSrc_055/Rainman_src/CDoWFileView.cpp:280-309 | Opens the file from the first mapped source that has it, or fails when none has |
| FileView.OverlaysAgree | CDMSSrc_055/Rainman_src/CDoWFileView.cpp:588-610 | Mapping the same trees in increasing order of sort number, this overlay and `CFileMap` open every path from the same source, or neither finds it |
| ChunkyBytes.DecEnc | CDMSSrc_055/Rainman_src/CChunkyFile.cpp:158-168 | A 32-bit field reads back as the word that was written |
| ChunkyBytes.UpdatedTwice | CDMSSrc_055/Rainman_src/CChunkyFile.cpp:288-309 | Repeated calls of `_FoldUpdateSize` change nothing |
| ChunkyBytes.UpdatedEmit | CDMSSrc_055/Rainman_src/CChunkyFile.cpp:311-357 | The bytes written do not depend on the lengths found in the folders before |
| ChunkyBytes.LengthsExact | CDMSSrc_055/Rainman_src/CChunkyFile.cpp:288-357 | `_FoldUpdateSize` returns exactly the number of bytes `_Save` emits, and the length it stores at every level is that of the body alone |
| ChunkyBytes.ChunkReads | CDMSSrc_055/Rainman_src/CChunkyFile.cpp:180-286 | Reading the bytes of one chunk anywhere in a stream, in the layout of version 3 or in the older one without the last two words, gives the chunk, in the older one with both words 0, its lengths those of the bodies, and stops exactly behind it |
| ChunkyBytes.ChildrenRead | CDMSSrc_055/Rainman_src/CChunkyFile.cpp:231-269 | In either layout the end-of-folder test stops exactly behind the last child, and the children come back in order |
| ChunkyBytes.LaidLoads | CDMSSrc_055/Rainman_src/CChunkyFile.cpp:114-156 | A file of any version, older than 3 or not, laid out as its version has it and below 2 GB, loads as that file; an older one with the words 0 that it lacks |
| ChunkyBytes.EmitIsLaid | CDMSSrc_055/Rainman_src/CChunkyFile.cpp:288-357 | What `_Save` writes is the layout of version 3, and the lengths `_FoldUpdateSize` leaves are those read back |
| ChunkyBytes.LoadsBehind | CDMSSrc_055/Rainman_src/CChunkyFile.cpp:114-156 | Loading into an object that holds chunks accepts the same streams and puts what is read behind them; an older file leaves the last three words of the object as they were |
| ChunkyBytes.MagicSpells | CDMSSrc_055/Rainman_src/CChunkyFile.cpp:118-123 | The header is the text `Relic Chunky` with CR, LF, 0x1A and NUL |
| ChunkyBytes.SaveLoads | CDMSSrc_055/Rainman_src/CChunkyFile.cpp:114-178 | For every file of version 3 or later below 2 GB, loading what was saved gives the file again, lengths up to date |
| ChunkyBytes.OldSaveFails | CDMSSrc_055/Rainman_src/CChunkyFile.cpp:114-178 | What is saved for a file of an older version, loaded into a new object, is refused whenever it is shorter than 1 GB, whatever the third word of the file; for the type of its first chunk, unless that word spells one |
| ChunkyBytes.LoadSaveLoad | CDMSSrc_055/Rainman_src/CChunkyFile.cpp:114-178 | Any stream a new object accepts, saved again, can be loaded again if and only if its version is 3 or later; then the same file comes back and saving it writes the same bytes |
| ChunkyBytes.ReadSound | CDMSSrc_055/Rainman_src/CChunkyFile.cpp:180-286 | Every chunk read has a name of four bytes, a C string as descriptor, data of its length, and children in folders only |
| ChunkyFile.InStream.VRead | CDMSSrc_055/Rainman_src/CMemoryStore.cpp:96-114 | Reads the bytes asked for, or refuses to read beyond the end |
| ChunkyFile.OutStream.VWrite | CDMSSrc_055/Rainman_src/CMemoryStore.cpp:128-165 | Appends the bytes |
| ChunkyFile.CChunk.FoldUpdateSize | CDMSSrc_055/Rainman_src/CChunkyFile.cpp:288-309 | Overwrites the lengths of the chunk and of everything below it with the specified ones, changes nothing else, returns the specified total |
| ChunkyFile.UpdateAll | CDMSSrc_055/Rainman_src/CChunkyFile.cpp:295-298 | The loop over owned children leaves each updated and shared with no other |
| ChunkyFile.CChunk.Save | CDMSSrc_055/Rainman_src/CChunkyFile.cpp:311-357 | Appends the specified bytes of the tree and leaves it with its lengths up to date |
| ChunkyFile.SaveAll | CDMSSrc_055/Rainman_src/CChunkyFile.cpp:346-351 | The loop over chunks appends their bytes in order |
| ChunkyFile.CChunk.LoadFields | CDMSSrc_055/Rainman_src/CChunkyFile.cpp:199-229 | The field reads and the descriptor: two more words from version 3 on, an error exactly when the stream is too short |
| ChunkyFile.CChunk.LoadBody | CDMSSrc_055/Rainman_src/CChunkyFile.cpp:231-283 | The body: owned children until the end of the folder, or the data |
| ChunkyFile.LoadChildren | CDMSSrc_055/Rainman_src/CChunkyFile.cpp:242-268 | The loop over the children builds distinct objects for exactly the specified children |
| ChunkyFile.CChunk.Load | CDMSSrc_055/Rainman_src/CChunkyFile.cpp:180-286 | On a new chunk: the specified tree of new objects, false exactly when no type can be read, else the specified error |
| ChunkyFile.CChunk.LoadRest | CDMSSrc_055/Rainman_src/CChunkyFile.cpp:196-286 | Behind a known type the fields and the body decide what is read |
| ChunkyFile.CChunk.InsertBefore | CDMSSrc_055/Rainman_src/CChunkyFile.cpp:57-74 | A new chunk stands at that place; the others keep theirs |
| ChunkyFile.CChunk.AppendNew | CDMSSrc_055/Rainman_src/CChunkyFile.cpp:76-93 | A new chunk stands at the end |
| ChunkyFile.NewTreeIs | CDMSSrc_055/Rainman_src/CChunkyFile.cpp:57-93 | A new chunk is empty, of the kind asked for, its name reads as the one given cut to four characters, and it is saved as its 28 bytes of fields |
| ChunkyFile.CChunk.RemoveChild | CDMSSrc_055/Rainman_src/CChunkyFile.cpp:416-419 | That child is gone; the others keep their order |
| ChunkyFile.EditChild | CDMSSrc_055/Rainman_src/CChunkyFile.cpp:57-93 | An edit at the end of a path of chunks changes the tree there and nothing else, and all chunks stay owned by the one above |
| ChunkyFile.CChunk.EditAt | CDMSSrc_055/Rainman_src/CChunkyFile.cpp:57-93 | Inserting or removing below a chunk: the chunk stands for its tree with the list at the end of the path changed |
| ChunkyFile.CChunkyFile.AppendNew | CDMSSrc_055/Rainman_src/CChunkyFile.cpp:95-112 | A new chunk stands at the end of the file |
| ChunkyFile.CChunkyFile.RemoveChild | CDMSSrc_055/Rainman_src/CChunkyFile.cpp:431-434 | That chunk is gone; the others keep their order |
| ChunkyFile.CChunkyFile.EditAt | CDMSSrc_055/Rainman_src/CChunkyFile.cpp:57-93 | Inserting or removing at any depth: the file stands for the edited tree, which `Save` writes and `Load` reads back |
| ChunkyFile.CChunkyFile.Save | CDMSSrc_055/Rainman_src/CChunkyFile.cpp:158-178 | Appends the specified bytes of the file; nothing in it changes but the lengths |
| ChunkyFile.CChunkyFile.LoadPreamble | CDMSSrc_055/Rainman_src/CChunkyFile.cpp:116-137 | The header must match; three more words are read from version 3 on and else stay as they were |
| ChunkyFile.LoadTop | CDMSSrc_055/Rainman_src/CChunkyFile.cpp:139-156 | Chunks are read until no further type can be read |
| ChunkyFile.CChunkyFile.Load | CDMSSrc_055/Rainman_src/CChunkyFile.cpp:114-156 | The object holds the specified file behind the chunks it had, or the specified error is raised |
| ChunkyFile.CChunkyFile.LoadChunks | CDMSSrc_055/Rainman_src/CChunkyFile.cpp:139-156 | The chunks of the stream join those the object had |
| CopyOnWrite.LuaCopies.SimpleTableDuplicate | CDMSSrc_055/Rainman_src/CLuaFile.cpp:92-137 | One level is copied; every table or protector below comes under a new protector that does not own it |
| CopyOnWrite.DupLook | CDMSSrc_055/Rainman_src/CLuaFile.cpp:92-137 | A duplicate shows what the table shows, all the way down, and nothing else looks different |
| CopyOnWrite.OwnedLook | CDMSSrc_055/Rainman_src/CLuaFile.cpp:64-88 | When a protector takes its duplicate, every table shows what it showed |
| CopyOnWrite.LuaCopies.Open | CDMSSrc_055/Rainman_src/CLuaFile.cpp:64-88 | The first half of both events: the table of a protector, duplicated first unless it owns it; every table shows what it showed |
| CopyOnWrite.LuaCopies.Follow | CDMSSrc_055/Rainman_src/CLuaFile.cpp:64-88 | Following one key from a table of a copy ends at the table of that place, made the copy's own, or fails where there is none; nothing looks different |
| CopyOnWrite.Elsewhere | CDMSSrc_055/Rainman_src/CLuaFile.cpp:140-164 | A write is not seen from the cache, from another copy, or from beside the written place |
| CopyOnWrite.WriteAlong | CDMSSrc_055/Rainman_src/CLuaFile.cpp:140-164 | Seen from above, a write is the write at that path of an independent tree |
| CopyOnWrite.StoreEffect | CDMSSrc_055/Rainman_src/CLuaFile.cpp:140-164 | A write changes the view of one copy, as on an independent tree, and no table or protector of the cache |
| CopyOnWrite.PutSeen | CDMSSrc_055/Rainman_src/CLuaFile.cpp:64-164 | On independent copies a write is read back at its place, what it stored is found below, and every other entry gives what it gave |
| CopyOnWrite.SetThenGet | CDMSSrc_055/Rainman_src/CLuaFile.cpp:64-164 | After an assignment a read of that entry gives the value, one below it fails, and any other, through any copy, gives what it gave |
| CopyOnWrite.CacheLook | CDMSSrc_055/Rainman_src/CLuaFile.cpp:92-137 | While the cache is not written, what its tables show does not change |
| CopyOnWrite.LuaCopies.Reach | CDMSSrc_055/Rainman_src/CLuaFile.cpp:64-88 | Following keys from a copy ends at the table of that place, made the copy's own, or fails where there is none; nothing looks different |
| CopyOnWrite.LuaCopies.Read | CDMSSrc_055/Rainman_src/CLuaFile.cpp:64-88 | A read gives what an independent deep copy would give, or an error where that has no table |
| CopyOnWrite.LuaCopies.Write | CDMSSrc_055/Rainman_src/CLuaFile.cpp:140-164 | A write, or storing nil, has the effect it has on an independent deep copy, on that copy alone |
| CopyOnWrite.LuaCopies.Attach | CDMSSrc_055/Rainman_src/CLuaFile.cpp:568-713 | Storing a further copy of a cached table has that effect too |
| CopyOnWrite.LuaCopies.Copy | CDMSSrc_055/Rainman_src/CLuaFile.cpp:289-294 | A new copy shows the cached table; all others are as before |
| CopyOnWrite.LuaCopies.Run | CDMSSrc_055/Rainman_src/CLuaFile.cpp:64-164 | Any interleaving of reads and writes through any number of copies has the outcomes and the final views of independent deep copies, and the cache is never written |
| InheritTable.CInheritTable.SetParent | CDMSSrc_055/Rainman_src/CInheritTable.cpp:32-52 | The node leaves its old parent's list and stands at the end of the new one's; every node stands exactly once in its parent's list and in no other |
| ParentForest.Moved | CDMSSrc_055/Rainman_src/CInheritTable.cpp:32-52 | Changing any one parent keeps every node exactly once in its parent's list and in no other |
| ParentForest.MovedLast | CDMSSrc_055/Rainman_src/CInheritTable.cpp:32-52 | The node that moved comes last in its new list, and all others keep their order |
| InheritTable.CInheritTable.Search | CDMSSrc_055/Rainman_src/CInheritTable.cpp:138-143 | Finds a node of that name, case ignored, in its chain, or shows there is none |
| InheritTable.CInheritTable.Make | CDMSSrc_055/Rainman_src/CInheritTable.cpp:145-151 | A new node at the head of its chain; no other node moves |
| InheritTable.CInheritTable.FindOrMake | CDMSSrc_055/Rainman_src/CInheritTable.cpp:132-152 | The node of that name, case ignored, under any collisions; made, without parent or children, exactly when there was none; every chain keeps all its nodes |
| InheritTable.SameNodeIff | CDMSSrc_055/Rainman_src/CInheritTable.cpp:132-152 | Over any sequence of calls two paths get the same node if and only if they are equal ignoring case, and no node is lost |
| InheritTable.CInheritTable.AssignChain | CDMSSrc_055/Rainman_src/CInheritTable.cpp:161-166 | Along one chain exactly the nodes without a parent get the new one |
| InheritTable.CInheritTable.AssignOrphansTo | CDMSSrc_055/Rainman_src/CInheritTable.cpp:154-168 | Exactly the nodes without a parent outside bucket 0 get the new one, in whatever order the buckets come |
| ParentForest.ChainEnds | CDMSSrc_055/Rainman_src/CInheritTable.cpp:154-168 | Without a cycle every chain of parents ends within as many steps as there are nodes |
| ParentForest.OneTree | CDMSSrc_055/Rainman_src/CInheritTable.cpp:154-168 | After the orphans were given to the root every node reaches the root if and only if no links closed a cycle and the root was the only orphan kept back |
| InheritTable.AssignedToRoot | CDMSSrc_055/Rainman_src/CInheritTable.cpp:154-168 | The same for every reachable table: one tree if and only if there was no cycle and the root was the only orphan in bucket 0 |
| InheritTable.CInheritTable.Print | CDMSSrc_055/Rainman_src/CInheritTable.cpp:54-62 | The recursive walk writes the node and then what is below each child, in order |
| ParentForest.WalkCount | CDMSSrc_055/Rainman_src/CInheritTable.cpp:54-62 | A walk from a node writes another once for every time the node is met going up from it |
| ParentForest.WalkParents | CDMSSrc_055/Rainman_src/CInheritTable.cpp:54-62 | A walk writes its own node first and every other behind its parent |
| ParentForest.ChildrenInOrder | CDMSSrc_055/Rainman_src/CInheritTable.cpp:54-62 | Below a node its children come in the order of its list |
| InheritTable.PrintsOnce | CDMSSrc_055/Rainman_src/CInheritTable.cpp:54-62 | In one tree the walk from the root ends and writes each node exactly once |
| UcsMerge.UCSToDATConvertor.SetRange | CDMSSrc_055/CDMS_src/Tool_AESetup.cpp:151-157 | A range that ends before it starts is refused and changes nothing |
| UcsMerge.UCSToDATConvertor.Select | CDMSSrc_055/CDMS_src/Tool_AESetup.cpp:182-204 | The two loops pick the first map with an entry left, or the first behind it with a smaller code |
| UcsMerge.UCSToDATConvertor.NextEntry | CDMSSrc_055/CDMS_src/Tool_AESetup.cpp:180-207 | Delivers the entry of the picked map and moves that map's iterator alone; false exactly when all are used up |
| UcsMerge.Conserved | CDMSSrc_055/CDMS_src/Tool_AESetup.cpp:180-207 | For any number of maps every entry of every map is delivered exactly once, in its map's order |
| UcsMerge.LeastPicked | CDMSSrc_055/CDMS_src/Tool_AESetup.cpp:193-202 | The entry delivered has the least code if and only if no map behind the picked one waits with a smaller one |
| UcsMerge.TwoMapsRise | CDMSSrc_055/CDMS_src/Tool_AESetup.cpp:180-207 | For at most two maps there are none, and the codes delivered never fall |
| UcsMerge.RisesExactly | CDMSSrc_055/CDMS_src/Tool_AESetup.cpp:180-207 | For any number of maps the codes delivered never fall if and only if there are no maps a < j < k where a is the first with a code above some code z of k, and j has a code between z and the least such code of a |
| UcsMerge.ThreeMapsFail | CDMSSrc_055/CDMS_src/Tool_AESetup.cpp:193-202 | With three maps they can: of three entries with falling codes the second comes first, then the third, which is less |
| UcsMerge.PrintedIsWithin | CDMSSrc_055/CDMS_src/Tool_AESetup.cpp:248-275 | Of entries in rising order exactly those with start <= code < end are written; only if there is none, one with the code of the end itself |
| UcsMerge.WritesTheRange | CDMSSrc_055/CDMS_src/Tool_AESetup.cpp:248-275 | Under that condition, for any number of maps, exactly the entries of every map inside the range are written, each once and in order |
| UcsMerge.BlocksRight | CDMSSrc_055/CDMS_src/Tool_AESetup.cpp:253-273 | The blocks hold the entries in order, at most one block for a bucket of fifty; the bounds of a block lie in the range and hold, of all codes in it, exactly those of its bucket |
| UcsMerge.WritesRightBlocks | CDMSSrc_055/CDMS_src/Tool_AESetup.cpp:218-284 | Under the same condition the output is a flat run of such blocks |
| UcsMerge.BlocksRead | CDMSSrc_055/CDMS_src/Tool_AESetup.cpp:164-178 | The lines of a run of blocks, read back one by one, give the bounds and the entries of the blocks again |
| UcsMerge.LinesRight | CDMSSrc_055/CDMS_src/Tool_AESetup.cpp:218-284 | Under the same condition the lines read back as ranges that rise without touching, hold the entries in order, and hold of all codes in the range exactly the fifty of their entries |
| UcsMerge.UCSToDATConvertor.StartRange | CDMSSrc_055/CDMS_src/Tool_AESetup.cpp:164-173 | The bounds written are those of the bucket cut to the range (UcsMerge.BlocksRight says what they hold) |
| UcsMerge.UCSToDATConvertor.WriteEntry | CDMSSrc_055/CDMS_src/Tool_AESetup.cpp:257-272 | One more entry continues the open block or closes it and opens the next |
| UcsMerge.UCSToDATConvertor.WriteBlocks | CDMSSrc_055/CDMS_src/Tool_AESetup.cpp:255-277 | The loop writes the entries up to the end of the range as blocks, the last one closed |
| UcsMerge.UCSToDATConvertor.SkipBefore | CDMSSrc_055/CDMS_src/Tool_AESetup.cpp:252 | Everything before the first entry in the range is passed over |
| UcsMerge.UCSToDATConvertor.DoConvertion | CDMSSrc_055/CDMS_src/Tool_AESetup.cpp:218-284 | The file holds the range line and the blocks of the entries delivered that lie in the range |

## Left out

- LuaHeap.IndexTransparent: functions and userdata as values, and keys that are not strings, are not modelled.
- LuaText.NumberRoundTrip: numbers are counted in hundred-thousandths, those `%.5f` prints exactly; floating point is not modelled.
- LuaScript.LuaState.EntryPrefix: the text of the prefix is stated, whatever room there is for it (see LuaText.PrefixFitsExactly); number and boolean keys are not modelled.
- LuaScript.LuaState.DeleteChild: the list of nodes the editor shows is not kept in step here; on a plain table, where the code looks into a missing `$PARENT`, the method is not called.
- LuaScript.LuaState.GetTable: tables are places in a heap the state object holds, not objects of their own.
- LuaScript.SavedTextReloads: of a saved file only the `GameData` statements are read back; the comment header, the `MetaData` lines and blank lines between them are not. A file name that ends in `]`, opens or closes brackets that do not nest, or begins with a newline does not come back from `[[ ]]` (LuaText.CallRoundTrip), and a tree with one is saved as a text that does not read as the statements written (LuaScript.SavedTextReads).
- LuaSave.SaveReloadsExactly: scripts do not store one table in two places, and functions and userdata, for which the writer leaves a comment, are not modelled.
- LuaRuns.AttachReady: every script a run names is loaded already; loading is in LuaLoader, and a call of an unknown script fails.
- LuaListing.ListingComplete: the name hash is any function.
- LuaLoader.CounterLoader.LoadRoot: file names are taken as equal when their case-blind checksums are, and the cache returns what was put into it; the scripts' own statements are only the calls they make.
- MetaData save modes 3 and 4, and editing a table through its nodes.
- The comparators `_SortNodes`, `_Sort` and `_SortCMetaTableChildren` are not orders; only that they permute is used.
- FileMapObject.CFileMap.VOpenStream: folders are values inside the object, not objects of their own, so a folder kept by a caller is not modelled.
- FileMapObject.CFileMap.VOpenOutputStream: whether a store creates a folder, opens a file and tells its write time is a parameter, and the time is taken to be read before room is made for it in the file's list of sources; the auxiliary output supply, paths with forward slashes, doubled backslashes, and a backslash at the end of a path to be written are not modelled; a file that is not in the tree yet is written only through a ToC of the same length as the one it is rewritten to, since otherwise the code enters it under a wrong name (FileMapObject.NewFileNameExactly; FileMapObject.WrongNameEntered says what the folder then holds and when its list is out of order).
- FileTree.MapFile: names are the same when they are equal without regard to case; which spelling an entry keeps is not stated.
- FileTree.RawMap: a directory is a finite tree read from an iterator, with no two sub-directories of the same name in one directory.
- FileMapObject.WritePath: a source's name for a folder that is written to is not empty; the code then looks in front of it for a separator.
- FileView.CDoWFileView.VOpenStream: writing through the older view is not modelled.
- `MapSingleFile`, `VIterate` and the iterators over the merged tree.
- Sort numbers are 32-bit naturals in the tree; their packing is in `SortNumber`, where they are bit vectors, and `FileMapObject.LegalIsOwnFolder` joins the two.
- ChunkyFile.CChunk.InsertBefore: called alone the edit is stated for the edited chunk; what the folders and the file above stand for is stated by ChunkyFile.CChunkyFile.EditAt, which goes down to the chunk itself.
- ChunkyFile.CChunkyFile.Load: the stream stands at its start and positions do not reach 2 GB; what an object holds after a failed load is only said to be well formed.
- ChunkyBytes.SaveLoads: sizes below 2 GB, where the signed position arithmetic of the reader can not overflow.
- The names `GetChildByName` looks for, and the setters of single chunk fields.
- CopyOnWrite.LuaCopies.Run: scripts reach tables by paths from their copies and store plain values or further copies; a protector stored in a second place, as by `c.b = c.a`, or kept in a Lua variable after its entry was overwritten is not modelled, nor is the `$dow_mod_studio` bookkeeping.
- InheritTable.CInheritTable.FindOrMake: nodes are places in lists that hold their fields, not objects; the short name and the nil flag of a node are not modelled, and the checksum is any function that ignores case and gives 0 for the empty name.
- InheritTable.CInheritTable.AssignOrphansTo: buckets come in any order, where the program goes by increasing checksum.
- UcsMerge.UCSToDATConvertor.DoConvertion: the maps are given; comment lines and the conversion of texts to ASCII are not modelled.
- Fixed-size character buffers, memory management, destructors, the chaining of exceptions, and the stack discipline of the Lua interface.
- The user interface, the operating system's file store, archives, and the formats that only convert text line by line.
