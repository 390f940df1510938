# Virtual file system of a browser IDE

This project models the in-memory workspace of a browser-based code editor. It also proves properties of that model.

The workspace is a flat list of file and folder items, linked to their parent folder by `parentId`. A reserved `'root'` folder heads the list, and an active-file id selects one item. Three parts of the application are modelled:

- **The node store** (`useFileSystem`). It creates files and folders, with a case-insensitive duplicate check among siblings. It renames items, with the root protected, and deletes recursively. It toggles folders, edits content, commits and resets. It also merges batches of generated files: missing folders are created, and existing files are updated in place.
- **The terminal.** `resolvePathToId` walks a `/`-separated path from the root and can create the folders that are missing. `handleCommand` runs `help`, `clear`, `ls`, `mkdir` and `touch`. `handleKeyDown` ignores blank lines and treats `clear` specially.
- **The application shell.** It chooses the parent folder of a new item. It derives the source-control badge. It assembles the preview page from the HTML, CSS and JavaScript items.

The modules follow the program's structure:

- `JsStrings` holds the JavaScript string operations the code relies on: `split`, `join`, `trim`, `toLowerCase`, `indexOf` and `String.prototype.replace`, including its `$` patterns.
- `FsTypes` holds the records, the searches (`find`, `findIndex`) and the well-formedness of an item list.
- `Templates` holds the new-file templates.
- `Merge` holds the merge engine, as loops over local arrays.
- `NodeStore` holds the store as a class `FileSystem`. Each method is proved equal to a pure operation on a `Store` value, and the lemmas are stated about those operations.
- `Terminal` holds the resolver and the command interpreter, as methods on that store object. They too are proved equal to pure functions.
- `App` holds the shell's derivations, as functions.

Some choices shape the whole model:

- **Ids.** They come from a fresh-id oracle: the store's `nextSerial` counter, which hands out `Minted(0)`, `Minted(1)` and so on. Ids are therefore distinct and never `'root'`. `Date.now()` and `Math.random()` are not modelled.
- **Well-formedness.** Every reachable store keeps `Inv`. Ids are distinct, and exactly one item is the root. The root is the only item without a parent, and it is a folder. Every id has been issued, and every parent was issued before its child, so parent links cannot form a cycle.
- **Other structure.** The active id naming a file, sibling names being unique and every parent link resolving are three further predicates. Every operation is proved to keep each of them, with three exceptions. The merge is shown to break sibling-name uniqueness (`MergeBreaksSiblingNames`). Selection may point the active id at a folder. `addFile` and `addFolder` keep every parent link resolving only when the parent they are given is in the list: neither checks that it exists, and creating under a missing id leaves a dangling link (`CreateUnderMissingParentOrphans`). The terminal and the merge only ever pass a folder they found or created.
- **Store updates.** Every store operation is atomic and sequential: a call sees the results of the calls before it. The one exception is the resolver's re-lookup, which is modelled both ways. The as-written version reads the list of the last render (see Findings).

## Model

| member | source | states |
|---|---|---|
| NodeStore.InitialFiles | hooks/useFileSystem.ts:49-58 | The initial list always contains the root. It keeps every configured item, and it is the configured list itself when that list already has a root. |
| NodeStore.InitialStoreValid | hooks/useFileSystem.ts:49-60 | The initial workspace is the root folder alone, with nothing active. It is well-formed and has no orphan. |
| NodeStore.FileSystem.constructor | hooks/useFileSystem.ts:49-60 | The new store object holds the initial workspace and is well-formed. |
| NodeStore.ActiveFile | hooks/useFileSystem.ts:62-65 | `activeFile` is defined exactly when the active id is set and names an item of the list. It is then an item of the list with that id. |
| NodeStore.FileSystem.SetActiveFileId | hooks/useFileSystem.ts:60 | Selecting replaces only the active id and keeps the store well-formed. |
| NodeStore.ToggleOp | hooks/useFileSystem.ts:67-71 | `toggleFolder(id)`: flips the open flag of every item with the id. Its properties are the ensures of `ToggleTwice`, `FlagOpsKeepInv` and `FlagOpsKeepShape`. |
| NodeStore.ToggleTwice | hooks/useFileSystem.ts:67-71 | Toggling flips the open flag of exactly the items with that id and changes nothing else. Toggling twice restores the list. |
| NodeStore.FileSystem.ToggleFolder | hooks/useFileSystem.ts:67-71 | The object's list becomes the toggled list, and the store stays well-formed. |
| NodeStore.UpdateContentOp | hooks/useFileSystem.ts:73-78 | `updateFileContent(content)`: sets the content of the active item and marks it modified. Its properties are the ensures of `UpdateContentOutcome`. |
| NodeStore.UpdateContentOutcome | hooks/useFileSystem.ts:73-78 | With no active id, or with undefined content, nothing changes. Otherwise only the active item changes: its content becomes the new content and it is marked modified. |
| NodeStore.FileSystem.UpdateFileContent | hooks/useFileSystem.ts:73-78 | The object's state becomes the edited store, and the store stays well-formed. |
| NodeStore.FlagOpsKeepInv | hooks/useFileSystem.ts:67-78 | Toggle, edit and commit keep the store well-formed. |
| NodeStore.FlagOpsKeepShape | hooks/useFileSystem.ts:67-78 | Toggle, edit and commit keep the active id naming a file, sibling names unique and every parent link resolving. |
| NodeStore.Duplicate | hooks/useFileSystem.ts:80-87 | `checkDuplicate(parentId, name)`: some item whose parent, read as the root when null, is `parentId` has the name, ignoring case. Used by `AddFileOutcome`, `AddFolderOutcome` and `RenameOutcome`. |
| NodeStore.AddFileOp | hooks/useFileSystem.ts:89-116 | `addFile(parentId, name)` on a store value. Its properties are the ensures of `AddFileOutcome`, `AddFileKeepsInv` and `AddFileKeepsShape`. |
| NodeStore.AddFileOutcome | hooks/useFileSystem.ts:80-116 | `addFile` succeeds exactly when the name is non-empty and no item under the parent (a null parent read as the root) has it, ignoring case. On refusal nothing changes. On success it returns the name and appends exactly one FILE at the end, with the next fresh id and `parentId \|\| 'root'` as parent. The file has the template of its lower-cased extension as content, the extension or `text` as language, the modified flag and an empty history. It becomes the active file. Every earlier item is unchanged, except that the parent is opened. |
| NodeStore.AddFolderOp | hooks/useFileSystem.ts:118-141 | `addFolder(parentId, name)` on a store value. Its properties are the ensures of `AddFolderOutcome`, `AddFolderKeepsInv` and `AddFolderKeepsShape`. |
| NodeStore.AddFolderOutcome | hooks/useFileSystem.ts:118-141 | `addFolder` succeeds exactly when the name is non-empty, holds no dot and is free under the parent, ignoring case. On refusal nothing changes. On success it appends exactly one open folder with the next fresh id, opens the parent and leaves the active id unchanged. |
| NodeStore.DottedNameIsDot | hooks/useFileSystem.ts:122-124 | The folder guard `includes('.') && split('.').length > 1` holds exactly when the name contains a dot. |
| NodeStore.OpenItemShape | hooks/useFileSystem.ts:110 | Opening the parent changes no id, name, kind or parent of any item. |
| NodeStore.AddFileKeepsInv | hooks/useFileSystem.ts:89-116 | Creating a file under an issued parent keeps the store well-formed. A successful creation makes the active id name a file. |
| NodeStore.AddFileKeepsShape | hooks/useFileSystem.ts:89-116 | Creating a file keeps sibling names unique. It creates no orphan when the parent exists. |
| NodeStore.AddFolderKeepsInv | hooks/useFileSystem.ts:118-141 | Creating a folder keeps the store well-formed, and keeps the active id naming a file. |
| NodeStore.AddFolderKeepsShape | hooks/useFileSystem.ts:118-141 | Creating a folder keeps sibling names unique. It creates no orphan when the parent exists. |
| NodeStore.CreateUnderMissingParentOrphans | hooks/useFileSystem.ts:89-141 | Neither `addFile` nor `addFolder` checks that the parent exists. A successful creation under an id not in the list leaves the new item's parent link dangling. |
| NodeStore.FileSystem.AddFile | hooks/useFileSystem.ts:89-116 | The method's new state and result are exactly those of the `addFile` operation, and the store stays well-formed. |
| NodeStore.FileSystem.AddFolder | hooks/useFileSystem.ts:118-141 | The method's new state and result are exactly those of the `addFolder` operation, and the store stays well-formed. |
| NodeStore.RenameOp | hooks/useFileSystem.ts:143-156 | `renameItem(id, newName)` on a store value. Its properties are the ensures of `RenameOutcome`, `RenameCaseOnlyRefused` and the rename-keeps lemmas. |
| NodeStore.RenameOutcome | hooks/useFileSystem.ts:143-156 | Rename returns true exactly when the id is not the root, names an item, and the new name is either that item's current name or free under its parent. On false nothing changes. On true the item gets the new name and no other item or field changes. |
| NodeStore.RenameCaseOnlyRefused | hooks/useFileSystem.ts:80-87 | Renaming an item to a variant of its name that differs only in case is refused and changes nothing, because the item's own name counts as a duplicate. |
| NodeStore.RenameKeepsInv | hooks/useFileSystem.ts:143-156 | Rename keeps the store well-formed and the active id naming a file. |
| NodeStore.RenameKeepsSiblingNames | hooks/useFileSystem.ts:147-154 | Rename keeps sibling names unique. |
| NodeStore.RenameKeepsNoOrphans | hooks/useFileSystem.ts:154 | Rename creates no orphan. |
| NodeStore.FileSystem.RenameItem | hooks/useFileSystem.ts:143-156 | The method's new state and result are those of the rename operation, and the store stays well-formed. |
| NodeStore.GetDescendants | hooks/useFileSystem.ts:161-168 | The recursive loop that collects descendants returns the descendant list in the order the source builds it: the children's ids, then each child's descendants. |
| NodeStore.DescendantsMeansBelow | hooks/useFileSystem.ts:161-168 | An id is in `getDescendants(p)` exactly when following parent links from its item reaches `p`. The root is never among them. |
| NodeStore.DeleteOp | hooks/useFileSystem.ts:158-176 | `deleteItem(id)` on a store value: the root is kept, and the item and its descendants are removed. Its properties are the ensures of `DeleteRemovesSubtree` and the delete-keeps lemmas. |
| NodeStore.DeleteRemovesSubtree | hooks/useFileSystem.ts:158-176 | After `deleteItem(id)` on a non-root id, an item remains exactly when it was there before and is neither the item nor below it. The active id is cleared exactly when it was among the removed ids. |
| NodeStore.DeleteKeepsInv | hooks/useFileSystem.ts:158-176 | Delete keeps the store well-formed. The root stays, since it is below nothing. |
| NodeStore.DeleteKeepsActive | hooks/useFileSystem.ts:173-175 | Delete keeps the active id naming a file. |
| NodeStore.DeleteKeepsNoOrphans | hooks/useFileSystem.ts:170-171 | Delete creates no orphan: whatever pointed into the removed subtree was removed with it. |
| NodeStore.DeleteKeepsSiblingNames | hooks/useFileSystem.ts:171 | Delete keeps sibling names unique. |
| NodeStore.FileSystem.DeleteItem | hooks/useFileSystem.ts:158-176 | The method's new state is the delete operation's result, so deleting the root is a no-op. The store stays well-formed. |
| NodeStore.ResetOp | hooks/useFileSystem.ts:178-181 | `resetFileSystem()`: the root folder alone, nothing active. Its properties are the ensures of `ResetValid`. |
| NodeStore.ResetValid | hooks/useFileSystem.ts:178-181 | A reset leaves the root folder alone with nothing active. The result is well-formed, has no orphan and has unique sibling names. |
| NodeStore.FileSystem.ResetWorkspace | hooks/useFileSystem.ts:178-181 | The method's new state is the reset workspace, and it is well-formed. |
| NodeStore.MergeOp | hooks/useFileSystem.ts:183-241 | `mergeGeneratedFiles(batch)` on a store value: the merge engine over the store's list and counter. Its properties are the ensures of `MergeKeepsInv`, `MergeKeepsNoOrphans`, `MergeBreaksSiblingNames` and the `Merge` lemmas. |
| NodeStore.MergeKeepsInv | hooks/useFileSystem.ts:183-241 | The merge keeps a well-formed store well-formed, and keeps the active id naming a file. |
| NodeStore.MergeKeepsNoOrphans | hooks/useFileSystem.ts:183-241 | The merge creates no orphan. Every folder and file it adds sits under the root, or under a folder it found or created. |
| NodeStore.EnsureDirsNoOrphans | hooks/useFileSystem.ts:194-211 | The directory walk from a list that holds the root creates no orphan, and it ends on an item of the list. |
| NodeStore.MergeEntryNoOrphans | hooks/useFileSystem.ts:190-238 | Merging one entry creates no orphan and keeps the root. |
| NodeStore.MergeBreaksSiblingNames | hooks/useFileSystem.ts:197-211 | Suppose a top-level FILE is named `n` and no top-level folder is. Then merging an entry `n/f` leaves two top-level items with the same name: the folder walk matches folders by kind and applies no duplicate check. |
| NodeStore.EntryPartsOneDir | hooks/useFileSystem.ts:191-193 | A path `n/f` with no further slash is one directory segment `n` and the file name `f`. |
| NodeStore.WalkCreatesFolder | hooks/useFileSystem.ts:205-208 | A segment without a matching folder appends exactly one open folder with the next fresh id under the current folder. |
| NodeStore.FileSystem.MergeGeneratedFiles | hooks/useFileSystem.ts:183-241 | The method's new state is the merge operation's result, and the store stays well-formed. |
| NodeStore.SetAllUnmodifiedOp | hooks/useFileSystem.ts:243-245 | `setAllFilesUnmodified()`: clears every modified flag. Its properties are the ensures of `CommitClearsAll`. |
| NodeStore.CommitClearsAll | hooks/useFileSystem.ts:243-245 | After a commit no item is modified. Nothing but the modified flags changed, and committing again changes nothing. |
| NodeStore.FileSystem.SetAllFilesUnmodified | hooks/useFileSystem.ts:243-245 | The object's list becomes the committed list, and the store stays well-formed. |
| Merge.EnsureDirs | hooks/useFileSystem.ts:194-211 | The directory walk of one entry. Descends into the first FOLDER of each name, or appends one. Its properties are the ensures of `EnsureDirsGrows`, `EnsureDirsStable`, `EnsureDirsWellFormed` and `EnsureDirsNoOrphans`. |
| Merge.EntryLanguage | hooks/useFileSystem.ts:218 | The language of a merged file is never empty. An explicit non-empty language wins. |
| Merge.MergeEntry | hooks/useFileSystem.ts:190-238 | Merges one entry: update the first FILE of that name in the folder reached, or append one. Its properties are the ensures of `MergeEntryPlacesFile`, `RemergeUpdatesInPlace` and `MergeEntryIdempotent`. |
| Merge.MergeAll | hooks/useFileSystem.ts:183-241 | The whole merge: the root guarantee, then the entries in order. Its properties are the ensures of `MergeAllKeepsItems` and `MergeAllIdempotent`. |
| Merge.EnsureDirectories | hooks/useFileSystem.ts:194-211 | The segment loop ends in the state, and on the folder, given by the directory walk over all segments. |
| Merge.MergeOneFile | hooks/useFileSystem.ts:190-238 | The body of the outer loop merges one entry exactly as the entry merge defines. |
| Merge.MergeGeneratedFiles | hooks/useFileSystem.ts:183-241 | The updater adds the root first when it is missing, then merges the entries in order, each entry seeing the folders earlier ones created. |
| Merge.EnsureDirsGrows | hooks/useFileSystem.ts:197-211 | The walk only appends. Every earlier item keeps its index, id, name, kind and parent. Each appended item is an open FOLDER named after a segment, even an empty or dotted one. |
| Merge.EnsureDirsStable | hooks/useFileSystem.ts:197-211 | Walking the same segments again, over any extension of the walk's result, creates nothing and reaches the same folder. |
| Merge.MergeEntryPlacesFile | hooks/useFileSystem.ts:213-237 | After an entry is merged, its file is a FILE in the folder its directories lead to, with the entry's content and language and marked modified. No earlier item moves, disappears, or changes id, name, kind or parent. |
| Merge.MergeEntryExtendsWalk | hooks/useFileSystem.ts:220-237 | The file step only updates in place or appends, over the list the directory walk left. |
| Merge.RemergeUpdatesInPlace | hooks/useFileSystem.ts:220-227 | Merging a second entry with the same path changes only the content, language and modified flag of the file the first merge left, at the same index and with the same id. |
| Merge.MergeEntryIdempotent | hooks/useFileSystem.ts:190-238 | Merging the same entry twice equals merging it once: one file node, the same id, nothing duplicated. |
| Merge.MergeAllIdempotent | hooks/useFileSystem.ts:183-241 | Merging the same one-entry batch twice gives the same workspace as merging it once. |
| Merge.WithRootHasRoot | hooks/useFileSystem.ts:186-188 | After the first step some item has id `'root'`, whatever the previous list was, and the earlier items are kept. |
| Merge.MergeEntriesGrows | hooks/useFileSystem.ts:190-238 | Merging entries only appends and updates in place. |
| Merge.MergeAllKeepsItems | hooks/useFileSystem.ts:183-241 | After any merge a root exists, and every earlier item keeps its index, id, name, kind and parent. |
| Merge.EnsureDirsWellFormed | hooks/useFileSystem.ts:197-211 | The walk keeps a list well-formed and reaches an issued folder id. |
| Merge.MergeEntryWellFormed | hooks/useFileSystem.ts:213-237 | Merging one entry keeps a list well-formed. |
| Merge.MergeEntriesWellFormed | hooks/useFileSystem.ts:190-238 | Merging a batch keeps a list well-formed. |
| Templates.Extension | hooks/useFileSystem.ts:95 | `name.split('.').pop()?.toLowerCase() \|\| ''`. Its properties are the ensures of `ExtensionAfterLastDot`. |
| Templates.TemplateContent | hooks/useFileSystem.ts:7-45 | The `TEMPLATES` table, with empty content for an extension that has none (`TemplateLookup`). |
| Templates.LanguageOf | hooks/useFileSystem.ts:104 | The language of a new file is never empty. It is the extension when there is one, and `text` otherwise. |
| Templates.ExtensionAfterLastDot | hooks/useFileSystem.ts:95 | The extension is the lower-cased text after the last dot, or the whole lower-cased name when there is no dot. |
| Templates.TemplateLookup | hooks/useFileSystem.ts:7-45 | An extension without a template gets empty content. |
| Terminal.ResolveStep | components/Terminal.tsx:39-62 | One segment of the walk. Its properties are the ensures of `ResolveStepFacts` and `ResolveStepFails`. |
| Terminal.ResolveSegs | components/Terminal.tsx:36-64 | The walk over the segments from the root, stopping at the first failure. Its properties are the ensures of the `ResolveSegs` lemmas below. |
| Terminal.ResolvePath | components/Terminal.tsx:31-65 | `resolvePathToId(path, create)` over an up-to-date store. Its properties are the ensures of `ResolvePathToId` and `ResolvePathIdempotent`. |
| Terminal.EnterOrCreate | components/Terminal.tsx:39-62 | One loop pass enters the existing FOLDER child with exactly that name. A missing child is an error unless creating. When creating, the folder is added through `addFolder`, then found again by parent and name. The new state and result are those of one resolver step. |
| Terminal.WalkSegments | components/Terminal.tsx:36-64 | The loop over the segments gives the state and result of the walk, stopping at the first failure. It keeps the store well-formed and ends on an issued id. |
| Terminal.ResolvePathToId | components/Terminal.tsx:31-65 | `''`, `.` and `./` are the root. Any other path has one leading `./` stripped and empty segments dropped, then is walked from the root. The store stays well-formed. |
| Terminal.ResolveStepFacts | components/Terminal.tsx:38-63 | A step adds at most the folder it creates and opens its parent, and changes nothing else. Without `create` it changes nothing. |
| Terminal.ResolveSegsKeepsInv | components/Terminal.tsx:38-63 | The walk keeps a well-formed store well-formed and ends on an issued id. |
| Terminal.ResolveSegsGrows | components/Terminal.tsx:38-63 | The walk only appends folders and opens items, and keeps the active id. Without `create` it changes nothing at all. |
| Terminal.ResolveSegsShape | components/Terminal.tsx:38-63 | The walk keeps the active id naming a file, sibling names unique and every parent link resolving. It ends on an item of the list. |
| Terminal.ResolveSegsStable | components/Terminal.tsx:38-63 | A resolved path stays resolved. On any later store that keeps the walk's items in place, walking it again creates nothing and reaches the same folder. |
| Terminal.ResolveSegsEndsOnFolder | components/Terminal.tsx:40-55 | A successful walk over at least one segment ends on a FOLDER. |
| Terminal.ResolvePathIdempotent | components/Terminal.tsx:31-65 | Resolving a resolved path again changes nothing and gives the same id. |
| Terminal.ResolveFailureSticks | components/Terminal.tsx:52-60 | After the first failed segment the later segments are not looked at. |
| Terminal.ResolveStepFails | components/Terminal.tsx:40-61 | A step fails exactly when there is no FOLDER child with that exact name and either nothing may be created or `addFolder` refuses the name: empty, holding a dot, or taken ignoring case by any item, a file included. A failed step changes nothing. |
| Terminal.WalkStopsAtRefusal | components/Terminal.tsx:38-63 | When the step at some segment is refused, the whole walk fails there, with the store the earlier steps left. |
| Terminal.StaleStep | components/Terminal.tsx:39-62 | One segment of the walk as written: lookups read the list of the last render, while `addFolder` updates the live store. Used by `StaleResolveReportsFailure`. |
| Terminal.StaleSegs | components/Terminal.tsx:36-64 | The walk as written, over the stale list. Used by `StaleResolveReportsFailure`. |
| Terminal.ResolvePathAsWritten | components/Terminal.tsx:31-65 | `resolvePathToId` as written. Used by `StaleResolveReportsFailure`. |
| Terminal.StaleResolveReportsFailure | components/Terminal.tsx:49-58 | For a single missing folder, the intended walk creates it and returns its fresh id. The walk as written creates the same folder and then reports failure. |
| Terminal.Target | components/Terminal.tsx:91-96 | The folder a command works in: the root for an empty prefix, otherwise the resolved prefix (`TargetIsWalk`). |
| Terminal.Create | components/Terminal.tsx:84-132 | The `mkdir` and `touch` cases before their replies are put into words. Their properties are the ensures of `CreateRefusals`, `CreateNoTarget`, `TouchOutcome`, `MkdirOutcome` and `CreateKeepsInv`. |
| Terminal.MkdirText | components/Terminal.tsx:84-107 | The replies of `mkdir`. |
| Terminal.TouchText | components/Terminal.tsx:109-132 | The replies of `touch`. |
| Terminal.Command | components/Terminal.tsx:67-136 | `handleCommand(cmd)` on a store value. Its properties are the ensures of `CommandClears`, `UnknownCommandReported`, `OnlyMkdirAndTouchWrite`, `TouchMissingPath` and `CommandKeepsInv`. |
| Terminal.KeyDown | components/Terminal.tsx:138-153 | `handleKeyDown` on a store value. Its properties are the ensures of `BlankLineIgnored`, `KeyDownRuns`, `EnterOnClear` and `ClearOnlyByClear`. |
| Terminal.CreateAt | components/Terminal.tsx:84-132 | The `mkdir` and `touch` cases: the new state and reply are those of the create function, and the store stays well-formed. |
| Terminal.HandleCommand | components/Terminal.tsx:67-136 | The text returned and whether the log was cleared are exactly as the command function defines. The store stays well-formed. |
| Terminal.HandleKeyDown | components/Terminal.tsx:138-153 | The new input line, the logged line, the clearing and the new store are exactly as the key function defines. The store stays well-formed. |
| Terminal.BlankLineIgnored | components/Terminal.tsx:139-141 | Enter on a line changes nothing exactly when the line is white space only. |
| Terminal.WordsOfTrimmed | components/Terminal.tsx:68-70 | The words of a trimmed line are those of the line, so trimming twice changes nothing. |
| Terminal.CommandClears | components/Terminal.tsx:76 | A command clears the log exactly when its name, lower-cased, is `clear`. It then returns nothing and changes nothing. |
| Terminal.ClearIsClear | components/Terminal.tsx:68-69 | The line `clear` names the command `clear`. |
| Terminal.WordNamesItself | components/Terminal.tsx:68-69 | A single word of lower-case letters is its own command name. |
| Terminal.UnknownCommandReported | components/Terminal.tsx:134 | A lower-case word that is no known command gets the reply `command not found: <word>` and changes nothing. |
| Terminal.KeyDownRuns | components/Terminal.tsx:143-151 | Enter on a non-blank line other than `clear` runs the trimmed line as a command and empties the input. |
| Terminal.EnterOnClear | components/Terminal.tsx:139-152 | Enter on `clear` clears the log, empties the input, and changes nothing else. |
| Terminal.ClearOnlyByClear | components/Terminal.tsx:138-153 | Enter clears the log exactly when the line is non-blank and its command name is `clear` in any letter case. Nothing else then happens. |
| Terminal.OnlyMkdirAndTouchWrite | components/Terminal.tsx:74-135 | Only `mkdir` and `touch` change the store. |
| Terminal.CreateRefusals | components/Terminal.tsx:84-132 | Without a parameter: the usage reply, nothing changed. A parameter ending in `/`: refused as an invalid name, unless its prefix does not resolve. On every error reply the final item is not created: the store is what resolving the prefix left. |
| Terminal.CreateNoTarget | components/Terminal.tsx:91-122 | When the prefix does not resolve, `mkdir` and `touch` reply that it does not, with the store the walk left. For `touch` that store is the one before the command. |
| Terminal.TouchMissingPath | components/Terminal.tsx:116-120 | `touch` under a prefix that does not resolve answers `Error: Path '<prefix>' does not exist.` and changes nothing. |
| Terminal.CreateFileFacts | components/Terminal.tsx:129-131 | On refusal `addFile` in the target changes nothing. On success it appends one file with the given name in the target, makes it active, and otherwise only opens an item. |
| Terminal.TouchOutcome | components/Terminal.tsx:109-132 | `touch` never creates a folder and never changes the earlier items beyond opening the target. It changes the store exactly when it reports success. The new file is then active, named by the last segment and placed in the folder the prefix names. |
| Terminal.TargetIsWalk | components/Terminal.tsx:91-96 | The target folder of a command is the walk along its prefix's segments. |
| Terminal.SegmentsOfChild | components/Terminal.tsx:87-93 | A parameter whose last segment is a non-empty, dot-free name is no root path. Its segments are its prefix's segments followed by that name. |
| Terminal.MkdirOutcome | components/Terminal.tsx:84-107 | `mkdir` only appends folders and opens items, and keeps the active id. |
| Terminal.MkdirThenResolves | components/Terminal.tsx:84-107 | After `mkdir` reports success, walking the same path again without creating resolves to the folder just named, and changes nothing. |
| Terminal.RootEntries | components/Terminal.tsx:80-82 | The entries `ls` shows, folders with a trailing slash. Their properties are the ensures of `RootEntriesListed` and `RootEntriesSnoc`. |
| Terminal.Listing | components/Terminal.tsx:78-82 | The output of `ls`. Its properties are the ensures of `ListingAfterAppend` and `TouchThenListed`. |
| Terminal.RootEntriesListed | components/Terminal.tsx:80-82 | `ls` lists an entry for every item whose `parentId` is exactly the root, and for nothing else. |
| Terminal.RootEntriesSnoc | components/Terminal.tsx:80-82 | `ls` keeps list order: an appended top-level item is listed last. |
| Terminal.ListingAfterAppend | components/Terminal.tsx:80-82 | After a top-level item is appended, `ls` shows the old listing, two spaces, then the new entry. When the root had no entries, it shows the new entry alone. |
| Terminal.TouchThenListed | components/Terminal.tsx:78-82 | After a top-level `touch name` succeeds, `ls` shows the old entries followed by `name`. |
| Terminal.CreateKeepsInv | components/Terminal.tsx:84-132 | `mkdir` and `touch` keep the store well-formed, the active id naming a file, sibling names unique and every parent link resolving. |
| Terminal.CommandKeepsInv | components/Terminal.tsx:67-136 | Every command keeps those four properties. |
| App.ResolveParentId | App.tsx:75-83 | The parent of a new item: the explicit one, else the active folder, else the active file's parent or the root, else the root. Its properties are the ensures of `ResolvedParentExists` and `ActiveFileTarget`. |
| App.ResolvedParentExists | App.tsx:75-83 | With no explicit parent, the chosen parent is the root or an item of the list, and an issued id. An active file gives its parent, or the root. Nothing active gives the root. |
| App.ActiveFileTarget | App.tsx:77-81 | When the active item is a file, the chosen parent is that file's `parentId`, or the root. |
| App.GitStatus | App.tsx:61-62 | The badge: `modified` when some item is modified, otherwise `clean`. Its properties are the ensures of the badge lemmas below. |
| App.CommitMakesClean | App.tsx:61-62 | After a commit the badge reads `clean`. |
| App.NewFileMakesModified | App.tsx:61-62 | After a successful `addFile` the badge reads `modified`. |
| App.NewFolderKeepsBadge | App.tsx:61-62 | `addFolder` leaves the badge as it was. |
| App.EditMakesModified | App.tsx:61-62 | An edit of the active item makes the badge read `modified`. |
| App.MergeMakesModified | App.tsx:61-62 | A non-empty merge makes the badge read `modified`. |
| App.BaseDocument | App.tsx:128-131 | The content of the first `.html` item, or the default page when there is none or its content is empty. |
| App.StyleTags | App.tsx:129-132 | One `<style>` element per `.css` item, in list order. |
| App.ScriptTags | App.tsx:130-133 | One `<script>` element per `.js` or `.ts` item, in list order. |
| App.Styles | App.tsx:132 | The style elements joined by newlines. |
| App.Scripts | App.tsx:133 | The script elements joined by newlines. |
| App.PreviewAsWritten | App.tsx:134 | The page as written, through `String.prototype.replace`. Its properties are the ensures of `PreviewAsWrittenLosesDollar` and `PreviewAgreesWithoutDollars`. |
| App.WithStyles | App.tsx:134 | The base page with the styles inserted before the first `</head>`. |
| App.Preview | App.tsx:134 | The intended page. Its properties are the ensures of `PreviewAddsBlocks`. |
| App.FirstEndingWith | App.tsx:128 | Returns the first index whose name ends with the suffix, and no index when there is none. |
| App.InsertBeforeLength | App.tsx:134 | Inserting before an occurring tag adds exactly the inserted text; a missing tag adds nothing. |
| App.PreviewAddsBlocks | App.tsx:128-134 | The styles go in just before the first `</head>` of the base page, and the scripts just before the first `</body>` of the result. A missing tag leaves its step's input as it is, and a page with neither tag is left as it is. Each block counts in the length only when its tag is present. |
| App.PreviewAgreesWithoutDollars | App.tsx:132-134 | When no content holds a `$`, the page as written equals the intended page. |
| App.EmptyInsertion | App.tsx:134 | Inserting an empty block leaves the page unchanged, both literally and through `replace`. |
| App.DollarPairShortens | App.tsx:134 | A block holding `$$` comes out of `replace` one character shorter than inserted literally. |
| App.PreviewAsWrittenLosesDollar | App.tsx:128-134 | For one `.html` page and one script `$$`, the page as written is one character shorter than the intended one. |
| JsStrings.SplitRejoins | hooks/useFileSystem.ts:192 | Joining the pieces of `split` with the separator gives the string back. |
| JsStrings.SplitJoin | components/Terminal.tsx:87-89 | Splitting a join of separator-free pieces gives the pieces back. |
| JsStrings.SplitLastRebuilds | components/Terminal.tsx:87-89 | `pop` gives text without the separator. With a separator present, prefix, separator and last piece rebuild the parameter; without one the prefix is empty. |
| JsStrings.TrimBlank | components/Terminal.tsx:140-141 | `trim` is empty exactly when the line is all white space. |
| JsStrings.TrimIdempotent | components/Terminal.tsx:140 | Trimming twice is trimming once. |
| JsStrings.LowerIdempotent | components/Terminal.tsx:69 | Lower-casing twice is lower-casing once and keeps the length. |
| JsStrings.InsertBeforeFirst | App.tsx:134 | The text goes in at the first occurrence of the tag. |
| JsStrings.ReplaceIsInsert | App.tsx:134 | `replace(tag, text + tag)` is literal insertion before the first tag when neither holds a `$`. |
| JsStrings.DollarsCollapse | App.tsx:134 | In a replacement string, a `$$` between any two `$`-free texts becomes one `$`; the rest is copied literally. |

## Left out

- I/O: the terminal's `addLog` and `console.log` calls are the `logged` result of the key handler. The log list itself (`useTerminal`) is UI state and is not part of this model.
- React: `setState` batching and the render snapshot are not modelled; every operation sees the live store. The one exception is the as-written resolver, which is listed under Findings. The duplicate checks in `checkDuplicate` and in `mkdir`/`touch` also read the last render's list, but they agree with the live store here: a folder the resolver has just created has no children yet.
- Ids: `Date.now()` and `Math.random()` in ids are replaced by the serial counter. Callers can pass only ids the counter has issued, since nobody can name a future random id. This is the `Rank(...) <= nextSerial` requirement on `AddFile`, `AddFolder` and `EnterOrCreate`.
- NodeStore.DeleteOp requires parent links ordered by issue (`RankOrdered`). Every reachable store has them, and they make `getDescendants` terminate. On a list with a parent cycle the source recurses without end, and that case is not modelled.
- Lower-casing: `toLowerCase` folds ASCII letters only, and `trim` removes the ECMAScript white space characters listed in `IsJsSpace`. There is no Unicode case mapping.
- `TEMPLATES[ext]`: inherited object keys such as `constructor` are not modelled. Only the sixteen listed extensions have a template.
- Templates.TemplateLookup: states only that an unknown extension gets empty content. The template texts are the `TemplateContent` constants themselves.
- Guards: the `!fileSystem` and `Array.isArray` guards are not modelled; the store object always exists and holds a list.
- Selection: `setActiveFileId` accepts any id, as the source does. `ActiveIsFile` is therefore not part of `Inv`. It is proved kept by every other operation.
- `toggleFolder` flips the open flag of any item with the id, files included, as the source does.
- Parameters: a missing second word (`args[1]` undefined) is modelled as the empty parameter; every test the source makes treats the two alike.
- Terminal: the component's `onClear` callback is modelled as the `cleared` flag.
- Rendering, the editor, the AI chat, the network client and the other panes are not part of this model.

## Findings

| source | as written | input that shows it | evidently intended | confidence | as-written member | corrected member |
|---|---|---|---|---|---|---|
| components/Terminal.tsx:53 | After `addFolder`, the new folder is looked up in `fileSystem.files`, the list of the last render, which does not contain it yet. | `mkdir a/b` in a workspace without `a`: folder `a` is created, yet the command answers `Error: Could not resolve path 'a'`. | The re-lookup finds the folder just created, and the walk continues into it (the comment's "Should not happen"). | not executed | Terminal.StaleResolveReportsFailure | Terminal.ResolvePathToId |
| App.tsx:134 | The style and script blocks are passed as the replacement string of `String.prototype.replace`, which expands `$$`, `$&`, `` $` `` and `$'`. | An `.html` item `<head></head><body></body>` and a script `app.js` with content `$$`: the page as written is one character shorter than the intended page, because `$$` comes out as `$`. | The blocks are inserted literally before `</head>` and `</body>`. | not executed | App.PreviewAsWrittenLosesDollar | App.PreviewAddsBlocks |
