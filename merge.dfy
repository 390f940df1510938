/** The merge engine (`mergeGeneratedFiles`): applies a generated batch to the item list, creating missing folders
    and updating existing files in place. */
module Merge {
  import opened Common
  import opened JsStrings
  import opened FsTypes

  /** The list being built and the fresh-id oracle's next serial. */
  datatype MergeState = MergeState(files: seq<Item>, next: nat)

  /** The merge's folder lookup: exact-case name, FOLDER, parent compared with null read as `'root'`. */
  function FolderQuery(parent: NodeId, name: string): Query {
    Query(parent, name, Some(Folder), NullIsRoot)
  }

  /** The merge's file lookup: exact-case name, FILE, parent compared with null read as `'root'`. */
  function FileQuery(parent: NodeId, name: string): Query {
    Query(parent, name, Some(File), NullIsRoot)
  }

  /** A folder the merge creates: open, under `parent`, with none of the create-time name checks. */
  function NewFolder(id: NodeId, name: string, parent: NodeId): Item {
    Item(id, name, Folder, None, None, Some(parent), true, false, None)
  }

  /** A file the merge creates. */
  function NewFile(id: NodeId, name: string, parent: NodeId, content: string, language: string): Item {
    Item(id, name, File, Some(content), Some(language), Some(parent), false, true, Some([]))
  }

  /** The merge's first step: a root folder is pushed when no item has id `'root'`. */
  function WithRoot(st: MergeState): MergeState {
    if FindById(st.files, Root).Some? then st else st.(files := st.files + [RootItem])
  }

  /** The directory segments and the file name of an entry: one leading "./" stripped, split on '/', with empty
      segments kept. */
  function EntryParts(path: string): (seq<string>, string) {
    var parts := Split(StripDotSlash(path), '/');
    (Init(parts), Last(parts))
  }

  /** `file.language || fileName.split('.').pop() || 'text'`. */
  function EntryLanguage(g: GeneratedFile, fileName: string): (r: string)
    ensures r != ""
    ensures g.language.Some? && g.language.value != "" ==> r == g.language.value
  {
    if g.language.Some? && g.language.value != "" then g.language.value
    else if Last(Split(fileName, '.')) != "" then Last(Split(fileName, '.'))
    else "text"
  }

  /** Walks `dirs` from the root, descending into the first matching folder or creating it: the state after the walk
      and the folder reached. */
  function EnsureDirs(st: MergeState, dirs: seq<string>): (MergeState, NodeId)
    decreases |dirs|
  {
    if dirs == [] then (st, Root)
    else
      var (st1, cur) := EnsureDirs(st, Init(dirs));
      var part := Last(dirs);
      match FirstHit(st1.files, FolderQuery(cur, part))
      case Some(k) => (st1, st1.files[k].id)
      case None => (MergeState(st1.files + [NewFolder(Minted(st1.next), part, cur)], st1.next + 1), Minted(st1.next))
  }

  /** Merges one entry: update the first FILE of that name under the folder reached, or append a new one. */
  function MergeEntry(st: MergeState, g: GeneratedFile): MergeState {
    var (dirs, fileName) := EntryParts(g.path);
    var (st1, cur) := EnsureDirs(st, dirs);
    var language := EntryLanguage(g, fileName);
    match FirstHit(st1.files, FileQuery(cur, fileName))
    case Some(k) =>
      st1.(files := st1.files[k := st1.files[k].(content := Some(g.content), language := Some(language), isModified := true)])
    case None => MergeState(st1.files + [NewFile(Minted(st1.next), fileName, cur, g.content, language)], st1.next + 1)
  }

  /** Merges the entries in order, each one seeing the folders the earlier ones created. */
  function MergeEntries(st: MergeState, batch: seq<GeneratedFile>): MergeState
    decreases |batch|
  {
    if batch == [] then st else MergeEntry(MergeEntries(st, Init(batch)), Last(batch))
  }

  /** The whole merge: the root guarantee, then the entries. */
  function MergeAll(st: MergeState, batch: seq<GeneratedFile>): MergeState {
    MergeEntries(WithRoot(st), batch)
  }

  /** The inner `parts.forEach` of the merge: ensures the directory structure exists and returns the folder reached. */
  method EnsureDirectories(files0: seq<Item>, next0: nat, dirs: seq<string>)
    returns (files: seq<Item>, next: nat, currentParentId: NodeId)
    ensures (MergeState(files, next), currentParentId) == EnsureDirs(MergeState(files0, next0), dirs)
  {
    files, next, currentParentId := files0, next0, Root;
    var j := 0;
    while j < |dirs|
      invariant 0 <= j <= |dirs|
      invariant (MergeState(files, next), currentParentId) == EnsureDirs(MergeState(files0, next0), dirs[..j])
    {
      var part := dirs[j];
      assert Init(dirs[..j + 1]) == dirs[..j];
      var existingFolder := FirstHit(files, FolderQuery(currentParentId, part));
      if existingFolder.Some? {
        currentParentId := files[existingFolder.value].id;
      } else {
        var newFolderId := Minted(next);
        files := files + [NewFolder(newFolderId, part, currentParentId)];
        next := next + 1;
        currentParentId := newFolderId;
      }
      j := j + 1;
    }
    assert dirs[..j] == dirs;
  }

  /** The body of the outer `forEach`: merges one generated file. */
  method MergeOneFile(files0: seq<Item>, next0: nat, file: GeneratedFile) returns (files: seq<Item>, next: nat)
    ensures MergeState(files, next) == MergeEntry(MergeState(files0, next0), file)
  {
    var parts := Split(StripDotSlash(file.path), '/');
    var fileName := parts[|parts| - 1];
    var currentParentId;
    files, next, currentParentId := EnsureDirectories(files0, next0, parts[..|parts| - 1]);
    var existingFileIndex := FirstHit(files, FileQuery(currentParentId, fileName));
    var language := EntryLanguage(file, fileName);
    if existingFileIndex.Some? {
      var k := existingFileIndex.value;
      files := files[k := files[k].(content := Some(file.content), language := Some(language), isModified := true)];
    } else {
      files := files + [NewFile(Minted(next), fileName, currentParentId, file.content, language)];
      next := next + 1;
    }
  }

  /** `mergeGeneratedFiles`' updater, run on the previous list `prev` with the oracle at `next0`. */
  method MergeGeneratedFiles(prev: seq<Item>, next0: nat, generatedFiles: seq<GeneratedFile>)
    returns (files: seq<Item>, next: nat)
    ensures MergeState(files, next) == MergeAll(MergeState(prev, next0), generatedFiles)
  {
    files, next := prev, next0;
    if FindById(files, Root).None? {
      files := files + [RootItem];
    }
    var i := 0;
    while i < |generatedFiles|
      invariant 0 <= i <= |generatedFiles|
      invariant MergeState(files, next) == MergeEntries(WithRoot(MergeState(prev, next0)), generatedFiles[..i])
    {
      files, next := MergeOneFile(files, next, generatedFiles[i]);
      assert Init(generatedFiles[..i + 1]) == generatedFiles[..i];
      i := i + 1;
    }
    assert generatedFiles[..i] == generatedFiles;
  }

  // ----- Properties of the merge -----

  /** The directory walk only appends: every earlier item keeps its index, id, name, kind and parent, the oracle never
      goes back, and each appended item is an open FOLDER named after one of the segments, whatever that segment is
      (empty and dotted names included: the create-time checks are not applied). */
  lemma {:induction false} EnsureDirsGrows(st: MergeState, dirs: seq<string>)
    ensures Extends(st.files, EnsureDirs(st, dirs).0.files)
    ensures st.next <= EnsureDirs(st, dirs).0.next
    ensures forall k :: |st.files| <= k < |EnsureDirs(st, dirs).0.files| ==>
      var x := EnsureDirs(st, dirs).0.files[k]; x.kind == Folder && x.isOpen && x.name in dirs
    decreases |dirs|
  {
    if dirs != [] {
      EnsureDirsGrows(st, Init(dirs));
      var (st1, cur) := EnsureDirs(st, Init(dirs));
      var part := Last(dirs);
      assert forall d :: d in Init(dirs) ==> d in dirs;
      match FirstHit(st1.files, FolderQuery(cur, part))
      case Some(k) =>
      case None =>
        var files' := st1.files + [NewFolder(Minted(st1.next), part, cur)];
        assert Extends(st1.files, files');
        ExtendsTrans(st.files, st1.files, files');
    }
  }

  /** Walking the same segments again over any extension of the walk's result creates nothing and reaches the same
      folder. */
  lemma {:induction false} EnsureDirsStable(st: MergeState, dirs: seq<string>, later: MergeState)
    requires Extends(EnsureDirs(st, dirs).0.files, later.files)
    ensures EnsureDirs(later, dirs) == (later, EnsureDirs(st, dirs).1)
    decreases |dirs|
  {
    if dirs != [] {
      var (stA, c) := EnsureDirs(st, Init(dirs));
      var st1 := EnsureDirs(st, dirs).0;
      var q := FolderQuery(c, Last(dirs));
      match FirstHit(stA.files, q)
      case Some(k) =>
        EnsureDirsStable(st, Init(dirs), later);
        FirstHitExtends(stA.files, later.files, q);
      case None =>
        var nf := NewFolder(Minted(stA.next), Last(dirs), c);
        assert st1.files == stA.files + [nf];
        assert Extends(stA.files, st1.files);
        ExtendsTrans(stA.files, st1.files, later.files);
        EnsureDirsStable(st, Init(dirs), later);
        FirstHitAppend(stA.files, nf, q);
        FirstHitExtends(st1.files, later.files, q);
    }
  }

  /** The index at which the merge leaves the entry's file. */
  function MergedIndex(st: MergeState, g: GeneratedFile): nat {
    var (dirs, fileName) := EntryParts(g.path);
    var (st1, cur) := EnsureDirs(st, dirs);
    match FirstHit(st1.files, FileQuery(cur, fileName))
    case Some(k) => k
    case None => |st1.files|
  }

  /** After merging an entry, its file is a FILE under the folder its directories lead to, holding the entry's content
      and language and marked modified; nothing that was there before moves, disappears, or changes id, name, kind or
      parent. */
  lemma MergeEntryPlacesFile(st: MergeState, g: GeneratedFile)
    ensures var r := MergeEntry(st, g);
      var k := MergedIndex(st, g);
      var (dirs, fileName) := EntryParts(g.path);
      && k < |r.files|
      && r.files[k].kind == File
      && r.files[k].name == fileName
      && ParentKey(r.files[k].parentId) == EnsureDirs(st, dirs).1
      && r.files[k].content == Some(g.content)
      && r.files[k].language == Some(EntryLanguage(g, fileName))
      && r.files[k].isModified
      && Extends(st.files, r.files)
  {
    var (dirs, fileName) := EntryParts(g.path);
    EnsureDirsGrows(st, dirs);
    MergeEntryExtendsWalk(st, g);
    ExtendsTrans(st.files, EnsureDirs(st, dirs).0.files, MergeEntry(st, g).files);
  }

  /** The file step only appends or updates in place over the folders the walk left. */
  lemma MergeEntryExtendsWalk(st: MergeState, g: GeneratedFile)
    ensures Extends(EnsureDirs(st, EntryParts(g.path).0).0.files, MergeEntry(st, g).files)
  {
  }

  /** Update in place: merging a second entry with the same path rewrites exactly the content, language and modified
      flag of the file the first merge left, at the same index and with the same id, and changes nothing else. */
  lemma RemergeUpdatesInPlace(st: MergeState, g: GeneratedFile, g2: GeneratedFile)
    requires g2.path == g.path
    ensures var r := MergeEntry(st, g);
      var k := MergedIndex(st, g);
      && k < |r.files|
      && MergedIndex(r, g2) == k
      && MergeEntry(r, g2) == r.(files := r.files[k := r.files[k].(content := Some(g2.content),
                                  language := Some(EntryLanguage(g2, EntryParts(g.path).1)), isModified := true)])
  {
    MergeEntryPlacesFile(st, g);
    var (dirs, fileName) := EntryParts(g.path);
    var (st1, cur) := EnsureDirs(st, dirs);
    var r := MergeEntry(st, g);
    assert Extends(st1.files, r.files);
    EnsureDirsStable(st, dirs, r);
    var q := FileQuery(cur, fileName);
    match FirstHit(st1.files, q)
    case Some(k) =>
      FirstHitExtends(st1.files, r.files, q);
    case None =>
      FirstHitAppend(st1.files, NewFile(Minted(st1.next), fileName, cur, g.content, EntryLanguage(g, fileName)), q);
  }

  /** Merging the same entry twice is merging it once: one file node, same id, nothing duplicated. */
  lemma MergeEntryIdempotent(st: MergeState, g: GeneratedFile)
    ensures MergeEntry(MergeEntry(st, g), g) == MergeEntry(st, g)
  {
    MergeEntryPlacesFile(st, g);
    RemergeUpdatesInPlace(st, g, g);
    var r := MergeEntry(st, g);
    var k := MergedIndex(st, g);
    assert r.files[k].(content := Some(g.content), language := Some(EntryLanguage(g, EntryParts(g.path).1)),
      isModified := true) == r.files[k];
    assert r.files[k := r.files[k]] == r.files;
  }

  /** After the root step some item has id `'root'`, whatever the input list was. */
  lemma WithRootHasRoot(st: MergeState)
    ensures FindById(WithRoot(st).files, Root).Some?
    ensures Extends(st.files, WithRoot(st).files)
  {
    if FindById(st.files, Root).None? {
      var files := st.files + [RootItem];
      assert files[|st.files|].id == Root;
    }
  }

  /** Merging entries only appends and updates in place. */
  lemma {:induction false} MergeEntriesGrows(st: MergeState, batch: seq<GeneratedFile>)
    ensures Extends(st.files, MergeEntries(st, batch).files)
    decreases |batch|
  {
    if batch != [] {
      MergeEntriesGrows(st, Init(batch));
      var mid := MergeEntries(st, Init(batch));
      MergeEntryPlacesFile(mid, Last(batch));
      ExtendsTrans(st.files, mid.files, MergeEntries(st, batch).files);
    }
  }

  /** A root is there after any merge, and every item that was there keeps its index, id, name, kind and parent. */
  lemma MergeAllKeepsItems(st: MergeState, batch: seq<GeneratedFile>)
    ensures Extends(st.files, MergeAll(st, batch).files)
    ensures FindById(MergeAll(st, batch).files, Root).Some?
  {
    WithRootHasRoot(st);
    MergeEntriesGrows(WithRoot(st), batch);
    var w := WithRoot(st).files;
    var r := MergeAll(st, batch).files;
    ExtendsTrans(st.files, w, r);
    var k := FindById(w, Root).value;
    assert SameShape(w[k], r[k]);
  }

  /** Merging the same single-entry batch twice gives the same workspace as merging it once. */
  lemma MergeAllIdempotent(st: MergeState, g: GeneratedFile)
    ensures MergeAll(MergeAll(st, [g]), [g]) == MergeAll(st, [g])
  {
    var once := MergeAll(st, [g]);
    assert Init([g]) == [] && Last([g]) == g;
    assert MergeEntries(WithRoot(st), []) == WithRoot(st);
    assert once == MergeEntry(WithRoot(st), g);
    MergeAllKeepsItems(st, [g]);
    assert WithRoot(once) == once;
    assert MergeEntries(once, []) == once;
    MergeEntryIdempotent(WithRoot(st), g);
  }

  /** The walk keeps a list well-formed and reaches an issued folder id. */
  lemma {:induction false} EnsureDirsWellFormed(st: MergeState, dirs: seq<string>)
    requires WellFormed(st.files, st.next)
    ensures WellFormed(EnsureDirs(st, dirs).0.files, EnsureDirs(st, dirs).0.next)
    ensures Rank(EnsureDirs(st, dirs).1) <= EnsureDirs(st, dirs).0.next
    decreases |dirs|
  {
    if dirs != [] {
      EnsureDirsWellFormed(st, Init(dirs));
      var (st1, cur) := EnsureDirs(st, Init(dirs));
      match FirstHit(st1.files, FolderQuery(cur, Last(dirs)))
      case Some(k) =>
      case None =>
        WellFormedAppend(st1.files, st1.next, NewFolder(Minted(st1.next), Last(dirs), cur));
    }
  }

  /** Merging one entry keeps a list well-formed: ids stay distinct, issued and ordered along parent links. */
  lemma MergeEntryWellFormed(st: MergeState, g: GeneratedFile)
    requires WellFormed(st.files, st.next)
    ensures WellFormed(MergeEntry(st, g).files, MergeEntry(st, g).next)
  {
    var (dirs, fileName) := EntryParts(g.path);
    EnsureDirsWellFormed(st, dirs);
    var (st1, cur) := EnsureDirs(st, dirs);
    var language := EntryLanguage(g, fileName);
    match FirstHit(st1.files, FileQuery(cur, fileName))
    case Some(k) =>
      WellFormedFrame(st1.files, MergeEntry(st, g).files, st1.next);
    case None =>
      WellFormedAppend(st1.files, st1.next, NewFile(Minted(st1.next), fileName, cur, g.content, language));
  }

  /** The whole merge keeps a well-formed list well-formed. */
  lemma {:induction false} MergeEntriesWellFormed(st: MergeState, batch: seq<GeneratedFile>)
    requires WellFormed(st.files, st.next)
    ensures WellFormed(MergeEntries(st, batch).files, MergeEntries(st, batch).next)
    decreases |batch|
  {
    if batch != [] {
      MergeEntriesWellFormed(st, Init(batch));
      MergeEntryWellFormed(MergeEntries(st, Init(batch)), Last(batch));
    }
  }
}
