/** The node store of the workspace: the flat item list, the active file id and the operations that create, rename,
    delete, toggle, edit and commit items. Each operation is a function from the old store to the new one; the class
    `FileSystem` at the end holds the state and applies them. */
module NodeStore {
  import opened Common
  import opened JsStrings
  import opened FsTypes
  import opened Templates
  import opened Merge

  /** The store: the item list, the active file id, and the next serial of the fresh-id oracle. */
  datatype Store = Store(files: seq<Item>, active: Option<NodeId>, next: nat)

  /** What every reachable store satisfies. */
  predicate Inv(s: Store) {
    WellFormed(s.files, s.next)
  }

  /** The active id, when set, names an existing FILE. */
  predicate ActiveIsFile(s: Store) {
    s.active.Some? ==> exists k :: 0 <= k < |s.files| && s.files[k].id == s.active.value && s.files[k].kind == File
  }

  /** No two items under the same parent (a missing parent read as the root) have names equal up to ASCII case: the
      property `checkDuplicate` guards on creation and rename. */
  predicate SiblingNamesUnique(files: seq<Item>) {
    forall i, j :: 0 <= i < j < |files| && ParentKey(files[i].parentId) == ParentKey(files[j].parentId) ==>
      Lower(files[i].name) != Lower(files[j].name)
  }

  /** Every parent link names an item of the list. */
  predicate NoOrphans(files: seq<Item>) {
    forall k :: 0 <= k < |files| && files[k].parentId.Some? ==>
      exists j :: 0 <= j < |files| && files[j].id == files[k].parentId.value
  }

  predicate InList(files: seq<Item>, id: NodeId) {
    exists j :: 0 <= j < |files| && files[j].id == id
  }

  // ----- Initial state -----

  /** The configured initial items: an empty workspace. */
  const InitialItems: seq<Item> := []

  /** The initial list: the configured items, behind a root folder when none of them is the root. */
  function InitialFiles(initial: seq<Item>): (r: seq<Item>)
    ensures HasRoot(r)
    ensures forall x :: x in initial ==> x in r
    ensures FindById(initial, Root).Some? ==> r == initial
  {
    if FindById(initial, Root).Some? then initial
    else
      var r := [RootItem] + initial;
      assert r[0].id == Root;
      r
  }

  const InitialStore := Store(InitialFiles(InitialItems), None, 0)

  lemma InitialStoreValid()
    ensures Inv(InitialStore) && ActiveIsFile(InitialStore) && NoOrphans(InitialStore.files)
    ensures InitialStore.files == [RootItem]
  {
    assert InitialStore.files == [RootItem];
  }

  // ----- Lookups -----

  /** `checkDuplicate(parentId, name)`: some item under the parent has the name, ignoring ASCII case. */
  predicate Duplicate(files: seq<Item>, parent: NodeId, name: string) {
    exists k :: 0 <= k < |files| && ParentKey(files[k].parentId) == parent && Lower(files[k].name) == Lower(name)
  }

  /** `activeFile`: the first item whose id is the active id. */
  function ActiveFile(s: Store): (r: Option<Item>)
    ensures r.Some? <==> s.active.Some? && InList(s.files, s.active.value)
    ensures r.Some? ==> r.value in s.files && r.value.id == s.active.value
  {
    if s.active.None? then None
    else
      match FindById(s.files, s.active.value)
      case None => None
      case Some(k) => Some(s.files[k])
  }

  // ----- Creation -----

  /** The list with the item of the given id opened (any kind, and nothing when no item has that id). */
  function OpenItem(files: seq<Item>, id: NodeId): seq<Item> {
    seq(|files|, k requires 0 <= k < |files| => if files[k].id == id then files[k].(isOpen := true) else files[k])
  }

  /** A new file: the template for its extension as content, the extension (or "text") as language, modified, with an
      empty history. */
  function NewFileItem(id: NodeId, name: string, parent: NodeId): Item {
    var ext := Extension(name);
    Item(id, name, File, Some(TemplateContent(ext)), Some(LanguageOf(ext)), Some(parent), false, true, Some([]))
  }

  /** A new, open folder. */
  function NewFolderItem(id: NodeId, name: string, parent: NodeId): Item {
    Item(id, name, Folder, None, None, Some(parent), true, false, None)
  }

  /** `addFile(parentId, name)`: refused for an empty name or a case-insensitive duplicate under the parent; otherwise
      the parent is opened, the file appended with the next fresh id and made active. */
  function AddFileOp(s: Store, parentId: Option<NodeId>, name: string): (Store, Option<string>) {
    var target := ParentKey(parentId);
    if name == "" || Duplicate(s.files, target, name) then (s, None)
    else
      var item := NewFileItem(Minted(s.next), name, target);
      (Store(OpenItem(s.files, target) + [item], Some(item.id), s.next + 1), Some(name))
  }

  /** The folder-name guard `name.includes('.') && name.split('.').length > 1`. */
  predicate DottedName(name: string) {
    '.' in name && |Split(name, '.')| > 1
  }

  /** `addFolder(parentId, name)`: refused for an empty name, a name with a dot or a case-insensitive duplicate under
      the parent; otherwise the parent is opened and the open folder appended with the next fresh id. */
  function AddFolderOp(s: Store, parentId: Option<NodeId>, name: string): (Store, Option<string>) {
    var target := ParentKey(parentId);
    if name == "" || DottedName(name) || Duplicate(s.files, target, name) then (s, None)
    else (s.(files := OpenItem(s.files, target) + [NewFolderItem(Minted(s.next), name, target)], next := s.next + 1),
          Some(name))
  }

  /** The second half of the dot guard adds nothing: a name containing a dot always splits into two or more pieces. */
  lemma DottedNameIsDot(name: string)
    ensures DottedName(name) <==> '.' in name
  {
    if '.' in name {
      SplitPiecesSepFree(name, '.');
      SplitRejoins(name, '.');
    }
  }

  /** Either creation succeeds exactly when its guards pass; on refusal nothing changes; on success the new item sits at
      the end under the resolved parent, the name is taken there, and every other item is unchanged except that the
      parent is now open. */
  lemma AddFileOutcome(s: Store, parentId: Option<NodeId>, name: string)
    ensures var (r, res) := AddFileOp(s, parentId, name);
      var target := ParentKey(parentId);
      && (res.Some? <==> name != "" && !Duplicate(s.files, target, name))
      && (res.None? ==> r == s)
      && (res.Some? ==>
            && res.value == name
            && |r.files| == |s.files| + 1
            && r.next == s.next + 1
            && (var x := r.files[|s.files|];
               && x.id == Minted(s.next) && x.name == name && x.kind == File && x.parentId == Some(target)
               && x.content == Some(TemplateContent(Extension(name)))
               && x.language == Some(if Extension(name) == "" then "text" else Extension(name))
               && x.isModified && x.history == Some([])
               && r.active == Some(x.id))
            && Duplicate(r.files, target, name)
            && (forall k :: 0 <= k < |s.files| ==>
                 r.files[k] == (if s.files[k].id == target then s.files[k].(isOpen := true) else s.files[k])))
  {
    var (r, res) := AddFileOp(s, parentId, name);
    if res.Some? {
      assert r.files[|s.files|].name == name;
    }
  }

  lemma AddFolderOutcome(s: Store, parentId: Option<NodeId>, name: string)
    ensures var (r, res) := AddFolderOp(s, parentId, name);
      var target := ParentKey(parentId);
      && (res.Some? <==> name != "" && '.' !in name && !Duplicate(s.files, target, name))
      && (res.None? ==> r == s)
      && (res.Some? ==>
            && res.value == name
            && |r.files| == |s.files| + 1
            && r.next == s.next + 1
            && r.active == s.active
            && r.files[|s.files|] == NewFolderItem(Minted(s.next), name, target)
            && Duplicate(r.files, target, name)
            && (forall k :: 0 <= k < |s.files| ==>
                 r.files[k] == (if s.files[k].id == target then s.files[k].(isOpen := true) else s.files[k])))
  {
    DottedNameIsDot(name);
    var (r, res) := AddFolderOp(s, parentId, name);
    if res.Some? {
      assert r.files[|s.files|].name == name;
    }
  }

  /** Appending a new item whose name is not a duplicate under its parent keeps sibling names unique. */
  lemma AppendKeepsSiblingNames(a: seq<Item>, x: Item)
    requires SiblingNamesUnique(a) && x.parentId.Some? && !Duplicate(a, x.parentId.value, x.name)
    ensures SiblingNamesUnique(a + [x])
  {
    var b := a + [x];
    forall i, j | 0 <= i < j < |b| && ParentKey(b[i].parentId) == ParentKey(b[j].parentId)
      ensures Lower(b[i].name) != Lower(b[j].name)
    {
      if j == |a| {
        assert b[i] == a[i];
      }
    }
  }

  /** Opening an item changes no id, name, kind or parent. */
  lemma OpenItemShape(files: seq<Item>, id: NodeId)
    ensures Extends(files, OpenItem(files, id)) && |OpenItem(files, id)| == |files|
    ensures forall k :: 0 <= k < |files| ==> OpenItem(files, id)[k].kind == files[k].kind
    ensures forall p, name :: Duplicate(OpenItem(files, id), p, name) <==> Duplicate(files, p, name)
    ensures SiblingNamesUnique(files) ==> SiblingNamesUnique(OpenItem(files, id))
    ensures NoOrphans(files) ==> NoOrphans(OpenItem(files, id))
    ensures forall q :: InList(OpenItem(files, id), q) <==> InList(files, q)
  {
    var o := OpenItem(files, id);
    forall p, name ensures Duplicate(o, p, name) <==> Duplicate(files, p, name) {
      if Duplicate(o, p, name) {
        var k :| 0 <= k < |o| && ParentKey(o[k].parentId) == p && Lower(o[k].name) == Lower(name);
        assert ParentKey(files[k].parentId) == p && Lower(files[k].name) == Lower(name);
      }
      if Duplicate(files, p, name) {
        var k :| 0 <= k < |files| && ParentKey(files[k].parentId) == p && Lower(files[k].name) == Lower(name);
        assert ParentKey(o[k].parentId) == p && Lower(o[k].name) == Lower(name);
      }
    }
    forall q ensures InList(o, q) <==> InList(files, q) {
      if InList(files, q) {
        var j :| 0 <= j < |files| && files[j].id == q;
        assert o[j].id == q;
      }
    }
  }

  /** Opening the parent and appending an item with the next fresh id under an issued parent keeps a list
      well-formed. */
  lemma OpenAppendWellFormed(files: seq<Item>, next: nat, target: NodeId, x: Item)
    requires WellFormed(files, next) && x.id == Minted(next) && x.parentId == Some(target) && Rank(target) <= next
    ensures WellFormed(OpenItem(files, target) + [x], next + 1)
  {
    var o := OpenItem(files, target);
    OpenItemShape(files, target);
    WellFormedFrame(files, o, next);
    WellFormedAppend(o, next, x);
  }

  /** ... keeps sibling names unique when the name is free under the parent. */
  lemma OpenAppendSiblingNames(files: seq<Item>, target: NodeId, x: Item)
    requires SiblingNamesUnique(files) && x.parentId == Some(target) && !Duplicate(files, target, x.name)
    ensures SiblingNamesUnique(OpenItem(files, target) + [x])
  {
    OpenItemShape(files, target);
    AppendKeepsSiblingNames(OpenItem(files, target), x);
  }

  /** ... creates no orphan when the parent exists. */
  lemma OpenAppendNoOrphans(files: seq<Item>, target: NodeId, x: Item)
    requires NoOrphans(files) && InList(files, target) && x.parentId == Some(target)
    ensures NoOrphans(OpenItem(files, target) + [x])
  {
    var o := OpenItem(files, target);
    var r := o + [x];
    OpenItemShape(files, target);
    var j :| 0 <= j < |o| && o[j].id == target;
    assert r[j].id == target;
    forall k | 0 <= k < |r| && r[k].parentId.Some?
      ensures exists i :: 0 <= i < |r| && r[i].id == r[k].parentId.value
    {
      if k < |o| {
        assert o[k].parentId == files[k].parentId;
        var i :| 0 <= i < |files| && files[i].id == files[k].parentId.value;
        assert r[i].id == o[i].id;
      }
    }
  }

  /** ... keeps every FILE id a FILE id. */
  lemma OpenAppendKeepsFile(files: seq<Item>, target: NodeId, x: Item, a: nat)
    requires a < |files| && files[a].kind == File
    ensures var r := OpenItem(files, target) + [x]; a < |r| && r[a].id == files[a].id && r[a].kind == File
  {
  }

  /** Creating a file under an issued parent keeps the store well-formed and makes the new file the active one. */
  lemma AddFileKeepsInv(s: Store, parentId: Option<NodeId>, name: string)
    requires Inv(s) && Rank(ParentKey(parentId)) <= s.next
    ensures Inv(AddFileOp(s, parentId, name).0)
    ensures AddFileOp(s, parentId, name).1.Some? ==> ActiveIsFile(AddFileOp(s, parentId, name).0)
  {
    var target := ParentKey(parentId);
    var (r, res) := AddFileOp(s, parentId, name);
    if res.Some? {
      var x := NewFileItem(Minted(s.next), name, target);
      OpenAppendWellFormed(s.files, s.next, target, x);
      assert r.files[|s.files|] == x;
    }
  }

  /** Creating a file keeps sibling names unique, and creates no orphan when the parent exists. */
  lemma AddFileKeepsShape(s: Store, parentId: Option<NodeId>, name: string)
    ensures SiblingNamesUnique(s.files) ==> SiblingNamesUnique(AddFileOp(s, parentId, name).0.files)
    ensures NoOrphans(s.files) && InList(s.files, ParentKey(parentId)) ==> NoOrphans(AddFileOp(s, parentId, name).0.files)
  {
    var target := ParentKey(parentId);
    var (r, res) := AddFileOp(s, parentId, name);
    if res.Some? {
      var x := NewFileItem(Minted(s.next), name, target);
      if SiblingNamesUnique(s.files) {
        OpenAppendSiblingNames(s.files, target, x);
      }
      if NoOrphans(s.files) && InList(s.files, target) {
        OpenAppendNoOrphans(s.files, target, x);
      }
    }
  }

  /** Creating a folder under an issued parent keeps the store well-formed and the active id naming a file. */
  lemma AddFolderKeepsInv(s: Store, parentId: Option<NodeId>, name: string)
    requires Inv(s) && Rank(ParentKey(parentId)) <= s.next
    ensures Inv(AddFolderOp(s, parentId, name).0)
    ensures ActiveIsFile(s) ==> ActiveIsFile(AddFolderOp(s, parentId, name).0)
  {
    var target := ParentKey(parentId);
    var (r, res) := AddFolderOp(s, parentId, name);
    if res.Some? {
      var x := NewFolderItem(Minted(s.next), name, target);
      OpenAppendWellFormed(s.files, s.next, target, x);
      if ActiveIsFile(s) && s.active.Some? {
        var a :| 0 <= a < |s.files| && s.files[a].id == s.active.value && s.files[a].kind == File;
        OpenAppendKeepsFile(s.files, target, x, a);
      }
    }
  }

  /** Creating a folder keeps sibling names unique, and creates no orphan when the parent exists. */
  lemma AddFolderKeepsShape(s: Store, parentId: Option<NodeId>, name: string)
    ensures SiblingNamesUnique(s.files) ==> SiblingNamesUnique(AddFolderOp(s, parentId, name).0.files)
    ensures NoOrphans(s.files) && InList(s.files, ParentKey(parentId)) ==> NoOrphans(AddFolderOp(s, parentId, name).0.files)
  {
    var target := ParentKey(parentId);
    var (r, res) := AddFolderOp(s, parentId, name);
    if res.Some? {
      var x := NewFolderItem(Minted(s.next), name, target);
      if SiblingNamesUnique(s.files) {
        OpenAppendSiblingNames(s.files, target, x);
      }
      if NoOrphans(s.files) && InList(s.files, target) {
        OpenAppendNoOrphans(s.files, target, x);
      }
    }
  }

  /** Neither `addFile` nor `addFolder` checks that the parent exists: creating under an id that is not in the list
      (a deleted folder, say) succeeds and leaves the new item's parent link dangling. */
  lemma CreateUnderMissingParentOrphans(s: Store, parentId: Option<NodeId>, name: string, folder: bool)
    requires !InList(s.files, ParentKey(parentId)) && Rank(ParentKey(parentId)) <= s.next
    requires (if folder then AddFolderOp(s, parentId, name) else AddFileOp(s, parentId, name)).1.Some?
    ensures !NoOrphans((if folder then AddFolderOp(s, parentId, name) else AddFileOp(s, parentId, name)).0.files)
  {
    var target := ParentKey(parentId);
    var r := (if folder then AddFolderOp(s, parentId, name) else AddFileOp(s, parentId, name)).0;
    AddFileOutcome(s, parentId, name);
    AddFolderOutcome(s, parentId, name);
    OpenItemShape(s.files, target);
    assert r.files == OpenItem(s.files, target) + [r.files[|s.files|]];
    assert r.files[|s.files|].parentId == Some(target);
    forall j | 0 <= j < |r.files|
      ensures r.files[j].id != target
    {
      if j < |s.files| {
        assert r.files[j].id == OpenItem(s.files, target)[j].id == s.files[j].id;
      }
    }
  }

  // ----- Rename -----

  /** The list with the item of the given id renamed. */
  function RenameItems(files: seq<Item>, id: NodeId, newName: string): seq<Item> {
    seq(|files|, k requires 0 <= k < |files| => if files[k].id == id then files[k].(name := newName) else files[k])
  }

  /** `renameItem(id, newName)`: refused for the root and for an unknown id; renaming to the current name succeeds and
      changes nothing; a case-insensitive duplicate under the item's parent is refused; otherwise the item is renamed.
      No other check is made on the new name. */
  function RenameOp(s: Store, id: NodeId, newName: string): (Store, bool) {
    if id == Root then (s, false)
    else
      match FindById(s.files, id)
      case None => (s, false)
      case Some(k) =>
        var item := s.files[k];
        if newName == item.name then (s, true)
        else if Duplicate(s.files, ParentKey(item.parentId), newName) then (s, false)
        else (s.(files := RenameItems(s.files, id, newName)), true)
  }

  /** Rename reports success exactly when the item exists, is not the root, and the new name is its current one or free
      under its parent; a success with a new name renames that item alone. */
  lemma RenameOutcome(s: Store, id: NodeId, newName: string)
    requires DistinctIds(s.files)
    ensures var (r, ok) := RenameOp(s, id, newName);
      && (ok <==> id != Root && (exists k :: (0 <= k < |s.files| && s.files[k].id == id &&
                   (newName == s.files[k].name || !Duplicate(s.files, ParentKey(s.files[k].parentId), newName)))))
      && (forall k :: 0 <= k < |s.files| && s.files[k].id != id ==> r.files[k] == s.files[k])
      && |r.files| == |s.files| && r.active == s.active && r.next == s.next
      && (ok ==> forall k :: 0 <= k < |s.files| && s.files[k].id == id ==> r.files[k] == s.files[k].(name := newName))
      && (!ok ==> r == s)
  {
    var (r, ok) := RenameOp(s, id, newName);
    if id != Root && FindById(s.files, id).Some? {
      var k := FindById(s.files, id).value;
      forall j | 0 <= j < |s.files| && s.files[j].id == id ensures j == k {
      }
    }
  }

  /** Changing only the case of a name is always refused: the item's own name counts as a duplicate. */
  lemma RenameCaseOnlyRefused(s: Store, k: nat, newName: string)
    requires DistinctIds(s.files) && k < |s.files| && s.files[k].id != Root
    requires newName != s.files[k].name && Lower(newName) == Lower(s.files[k].name)
    ensures RenameOp(s, s.files[k].id, newName) == (s, false)
  {
    var i := FindById(s.files, s.files[k].id).value;
    assert i == k;
  }

  /** Rename keeps the store well-formed and the active id naming a file. */
  lemma RenameKeepsInv(s: Store, id: NodeId, newName: string)
    requires Inv(s)
    ensures Inv(RenameOp(s, id, newName).0)
    ensures ActiveIsFile(s) ==> ActiveIsFile(RenameOp(s, id, newName).0)
  {
    var (r, ok) := RenameOp(s, id, newName);
    if r != s {
      WellFormedFrame(s.files, r.files, s.next);
      if ActiveIsFile(s) && s.active.Some? {
        var a :| 0 <= a < |s.files| && s.files[a].id == s.active.value && s.files[a].kind == File;
        assert r.files[a].id == s.active.value && r.files[a].kind == File;
      }
    }
  }

  /** Rename keeps sibling names unique: the renamed item is the only one with its id, and its new name was free. */
  lemma RenameKeepsSiblingNames(s: Store, id: NodeId, newName: string)
    requires DistinctIds(s.files) && SiblingNamesUnique(s.files)
    ensures SiblingNamesUnique(RenameOp(s, id, newName).0.files)
  {
    var (r, ok) := RenameOp(s, id, newName);
    if r != s {
      var k := FindById(s.files, id).value;
      var f := r.files;
      forall i, j | 0 <= i < j < |f| && ParentKey(f[i].parentId) == ParentKey(f[j].parentId)
        ensures Lower(f[i].name) != Lower(f[j].name)
      {
        if i == k {
          assert s.files[j].id != id;
          assert ParentKey(s.files[j].parentId) == ParentKey(s.files[k].parentId);
        } else if j == k {
          assert s.files[i].id != id;
          assert ParentKey(s.files[i].parentId) == ParentKey(s.files[k].parentId);
        } else {
          assert s.files[i].id != id && s.files[j].id != id;
        }
      }
    }
  }

  /** Rename creates no orphan. */
  lemma RenameKeepsNoOrphans(s: Store, id: NodeId, newName: string)
    requires NoOrphans(s.files)
    ensures NoOrphans(RenameOp(s, id, newName).0.files)
  {
    var (r, ok) := RenameOp(s, id, newName);
    var f := r.files;
    if r != s {
      forall m | 0 <= m < |f| && f[m].parentId.Some?
        ensures exists i :: 0 <= i < |f| && f[i].id == f[m].parentId.value
      {
        var i :| 0 <= i < |s.files| && s.files[i].id == s.files[m].parentId.value;
        assert f[i].id == s.files[i].id;
      }
    }
  }

  // ----- Delete -----

  /** The largest rank in the list. */
  function MaxRank(files: seq<Item>): (m: nat)
    ensures forall k :: 0 <= k < |files| ==> Rank(files[k].id) <= m
  {
    if files == [] then 0
    else
      var t := MaxRank(files[1..]);
      assert forall k :: 1 <= k < |files| ==> files[k] == files[1..][k - 1];
      if Rank(files[0].id) > t then Rank(files[0].id) else t
  }

  /** How far the ranks of the list reach above `p`: the measure of the descendant walk. */
  function Gap(files: seq<Item>, p: NodeId): nat {
    if Rank(p) < MaxRank(files) then MaxRank(files) - Rank(p) else 0
  }

  /** `files.filter(f => f.parentId === p)`. */
  function Children(files: seq<Item>, p: NodeId): seq<Item> {
    if files == [] then []
    else (if files[0].parentId == Some(p) then [files[0]] else []) + Children(files[1..], p)
  }

  lemma ChildrenMembers(files: seq<Item>, p: NodeId)
    ensures forall x :: x in Children(files, p) <==> x in files && x.parentId == Some(p)
  {
  }

  /** Every item of `ch` ranks above `p` and within the list's ranks. */
  predicate RanksAbove(files: seq<Item>, p: NodeId, ch: seq<Item>) {
    forall k :: 0 <= k < |ch| ==> Rank(p) < Rank(ch[k].id) <= MaxRank(files)
  }

  lemma ChildrenRanksAbove(files: seq<Item>, p: NodeId)
    requires RankOrdered(files)
    ensures RanksAbove(files, p, Children(files, p))
  {
    var ch := Children(files, p);
    ChildrenMembers(files, p);
    forall k | 0 <= k < |ch| ensures Rank(p) < Rank(ch[k].id) <= MaxRank(files) {
      assert ch[k] in ch;
      var m :| 0 <= m < |files| && files[m] == ch[k];
    }
  }

  /** `items.map(c => c.id)`. */
  function Ids(items: seq<Item>): seq<NodeId> {
    seq(|items|, k requires 0 <= k < |items| => items[k].id)
  }

  /** `getDescendants(p)`: the ids of `p`'s children, then the descendants of each child in list order. */
  function Descendants(files: seq<Item>, p: NodeId): seq<NodeId>
    requires RankOrdered(files)
    decreases Gap(files, p), 1, 0
  {
    var ch := Children(files, p);
    ChildrenRanksAbove(files, p);
    Ids(ch) + DescendantsOf(files, p, ch)
  }

  /** The concatenated descendants of the given children of `p`. */
  function DescendantsOf(files: seq<Item>, p: NodeId, ch: seq<Item>): seq<NodeId>
    requires RankOrdered(files) && RanksAbove(files, p, ch)
    decreases Gap(files, p), 0, |ch|
  {
    if ch == [] then []
    else DescendantsOf(files, p, Init(ch)) + Descendants(files, Last(ch).id)
  }

  /** `x`'s chain of parents, followed through the first item with each id, reaches `p`. */
  predicate IsAncestor(files: seq<Item>, p: NodeId, x: NodeId)
    requires RankOrdered(files)
    decreases Rank(x)
  {
    match FindById(files, x)
    case None => false
    case Some(k) =>
      files[k].parentId.Some? && (files[k].parentId.value == p || IsAncestor(files, p, files[k].parentId.value))
  }

  lemma {:induction false} DescendantsOfMembership(files: seq<Item>, p: NodeId, ch: seq<Item>, x: NodeId)
    requires RankOrdered(files) && RanksAbove(files, p, ch)
    ensures x in DescendantsOf(files, p, ch) <==> exists i :: 0 <= i < |ch| && x in Descendants(files, ch[i].id)
    decreases |ch|
  {
    if ch != [] {
      DescendantsOfMembership(files, p, Init(ch), x);
      assert forall i :: 0 <= i < |ch| - 1 ==> Init(ch)[i] == ch[i];
    }
  }

  /** An item whose parent is `p` lies below `p`. */
  lemma ChildIsBelow(files: seq<Item>, m: nat, p: NodeId)
    requires DistinctIds(files) && RankOrdered(files) && m < |files| && files[m].parentId == Some(p)
    ensures IsAncestor(files, p, files[m].id)
  {
    var k := FindById(files, files[m].id).value;
    assert k == m;
  }

  /** Ancestry is transitive. */
  lemma {:induction false} AncestorTrans(files: seq<Item>, p: NodeId, c: NodeId, x: NodeId)
    requires RankOrdered(files) && IsAncestor(files, c, x) && IsAncestor(files, p, c)
    ensures IsAncestor(files, p, x)
    decreases Rank(x)
  {
    var k := FindById(files, x).value;
    var q := files[k].parentId.value;
    if q != c {
      AncestorTrans(files, p, c, q);
    }
  }

  /** The `i`-th child of `p` is an item of the list whose parent is `p`. */
  lemma ChildAt(files: seq<Item>, p: NodeId, i: nat) returns (m: nat)
    requires i < |Children(files, p)|
    ensures m < |files| && files[m] == Children(files, p)[i] && files[m].parentId == Some(p)
  {
    ChildrenMembers(files, p);
    assert Children(files, p)[i] in Children(files, p);
    m :| 0 <= m < |files| && files[m] == Children(files, p)[i];
  }

  /** An item whose parent is `p` is among `p`'s children, so its id is among `p`'s descendants. */
  lemma ChildInDescendants(files: seq<Item>, p: NodeId, m: nat)
    requires RankOrdered(files) && m < |files| && files[m].parentId == Some(p)
    ensures files[m].id in Descendants(files, p)
  {
    var ch := Children(files, p);
    ChildrenMembers(files, p);
    assert files[m] in ch;
    var i :| 0 <= i < |ch| && ch[i] == files[m];
    assert Ids(ch)[i] == files[m].id;
  }

  /** One step into the descendant list: an id found there is a child of `p` or a descendant of one. */
  lemma DescendantsStep(files: seq<Item>, p: NodeId, x: NodeId) returns (i: nat, direct: bool)
    requires RankOrdered(files) && x in Descendants(files, p)
    ensures i < |Children(files, p)|
    ensures direct ==> Children(files, p)[i].id == x
    ensures !direct ==> x in Descendants(files, Children(files, p)[i].id)
  {
    var ch := Children(files, p);
    ChildrenRanksAbove(files, p);
    if x in Ids(ch) {
      i :| 0 <= i < |ch| && Ids(ch)[i] == x;
      direct := true;
    } else {
      DescendantsOfMembership(files, p, ch, x);
      i :| 0 <= i < |ch| && x in Descendants(files, ch[i].id);
      direct := false;
    }
  }

  /** The descendants of a child of `p` are descendants of `p`. */
  lemma InChildDescendants(files: seq<Item>, p: NodeId, i: nat, x: NodeId)
    requires RankOrdered(files) && i < |Children(files, p)| && x in Descendants(files, Children(files, p)[i].id)
    ensures x in Descendants(files, p)
  {
    ChildrenRanksAbove(files, p);
    DescendantsOfMembership(files, p, Children(files, p), x);
  }

  lemma {:induction false} DescendantsAreBelow(files: seq<Item>, p: NodeId, x: NodeId)
    requires DistinctIds(files) && RankOrdered(files) && x in Descendants(files, p)
    ensures IsAncestor(files, p, x)
    decreases Gap(files, p)
  {
    var i, direct := DescendantsStep(files, p, x);
    var c := Children(files, p)[i];
    var m := ChildAt(files, p, i);
    ChildIsBelow(files, m, p);
    if !direct {
      ChildrenRanksAbove(files, p);
      DescendantsAreBelow(files, c.id, x);
      AncestorTrans(files, p, c.id, x);
    }
  }

  /** A child of a descendant of `p` is a descendant of `p`. */
  lemma {:induction false} ChildOfDescendant(files: seq<Item>, p: NodeId, m: nat)
    requires RankOrdered(files) && m < |files| && files[m].parentId.Some?
    requires files[m].parentId.value in Descendants(files, p)
    ensures files[m].id in Descendants(files, p)
    decreases Gap(files, p)
  {
    var q := files[m].parentId.value;
    var i, direct := DescendantsStep(files, p, q);
    var c := Children(files, p)[i];
    ChildInDescendants(files, q, m);
    if !direct {
      ChildrenRanksAbove(files, p);
      ChildOfDescendant(files, c.id, m);
    }
    InChildDescendants(files, p, i, files[m].id);
  }

  lemma {:induction false} BelowAreDescendants(files: seq<Item>, p: NodeId, x: NodeId)
    requires RankOrdered(files) && IsAncestor(files, p, x)
    ensures x in Descendants(files, p)
    decreases Rank(x)
  {
    var k := FindById(files, x).value;
    var q := files[k].parentId.value;
    if q == p {
      ChildInDescendants(files, p, k);
    } else {
      BelowAreDescendants(files, p, q);
      ChildOfDescendant(files, p, k);
    }
  }

  /** The descendant walk finds exactly the ids below `p`, and never the root. */
  lemma DescendantsMeansBelow(files: seq<Item>, p: NodeId, x: NodeId)
    requires DistinctIds(files) && RankOrdered(files)
    ensures x in Descendants(files, p) <==> IsAncestor(files, p, x)
    ensures Root !in Descendants(files, p)
  {
    if x in Descendants(files, p) {
      DescendantsAreBelow(files, p, x);
    }
    if IsAncestor(files, p, x) {
      BelowAreDescendants(files, p, x);
    }
    if Root in Descendants(files, p) {
      DescendantsAreBelow(files, p, Root);
    }
  }

  /** `files.filter(f => !doomed.includes(f.id))`. */
  function Remove(files: seq<Item>, doomed: seq<NodeId>): seq<Item> {
    if files == [] then []
    else (if files[0].id in doomed then [] else [files[0]]) + Remove(files[1..], doomed)
  }

  lemma RemoveMembers(files: seq<Item>, doomed: seq<NodeId>)
    ensures forall x :: x in Remove(files, doomed) <==> x in files && x.id !in doomed
  {
  }

  /** A property of every ordered pair of items. */
  predicate Pairwise(xs: seq<Item>, ok: (Item, Item) -> bool) {
    forall i, j :: 0 <= i < j < |xs| ==> ok(xs[i], xs[j])
  }

  lemma {:induction false} RemoveKeepsPairwise(xs: seq<Item>, doomed: seq<NodeId>, ok: (Item, Item) -> bool)
    requires Pairwise(xs, ok)
    ensures Pairwise(Remove(xs, doomed), ok)
    decreases |xs|
  {
    if xs != [] {
      var rest := Remove(xs[1..], doomed);
      assert Pairwise(xs[1..], ok) by {
        forall i, j | 0 <= i < j < |xs[1..]| ensures ok(xs[1..][i], xs[1..][j]) {
          assert xs[1..][i] == xs[i + 1] && xs[1..][j] == xs[j + 1];
        }
      }
      RemoveKeepsPairwise(xs[1..], doomed, ok);
      if xs[0].id !in doomed {
        var r := [xs[0]] + rest;
        RemoveMembers(xs[1..], doomed);
        forall i, j | 0 <= i < j < |r| ensures ok(r[i], r[j]) {
          if i == 0 {
            assert r[j] in rest;
            var m :| 0 <= m < |xs[1..]| && xs[1..][m] == r[j];
            assert xs[m + 1] == r[j];
          } else {
            assert r[i] == rest[i - 1] && r[j] == rest[j - 1];
          }
        }
      }
    }
  }

  /** `deleteItem(id)`: nothing for the root; otherwise the item and everything below it are removed, and the active id
      is cleared when it was among them. */
  function DeleteOp(s: Store, id: NodeId): Store
    requires RankOrdered(s.files)
  {
    if id == Root then s
    else
      var doomed := [id] + Descendants(s.files, id);
      Store(Remove(s.files, doomed), if s.active.Some? && s.active.value in doomed then None else s.active, s.next)
  }

  /** Delete removes exactly the item and its subtree, and clears the active id exactly when it was removed. */
  lemma DeleteRemovesSubtree(s: Store, id: NodeId)
    requires DistinctIds(s.files) && RankOrdered(s.files) && id != Root
    ensures forall x :: x in DeleteOp(s, id).files <==> x in s.files && x.id != id && !IsAncestor(s.files, id, x.id)
    ensures DeleteOp(s, id).active ==
      (if s.active.Some? && (s.active.value == id || IsAncestor(s.files, id, s.active.value)) then None else s.active)
    ensures DeleteOp(s, id).next == s.next
  {
    RemoveMembers(s.files, [id] + Descendants(s.files, id));
    forall x: NodeId ensures x in Descendants(s.files, id) <==> IsAncestor(s.files, id, x) {
      DescendantsMeansBelow(s.files, id, x);
    }
  }

  /** Every item left by a delete was in the list before. */
  lemma RemoveSubset(files: seq<Item>, doomed: seq<NodeId>)
    ensures forall k :: 0 <= k < |Remove(files, doomed)| ==> Remove(files, doomed)[k] in files
  {
    RemoveMembers(files, doomed);
    var r := Remove(files, doomed);
    forall k | 0 <= k < |r| ensures r[k] in files {
      assert r[k] in r;
    }
  }

  /** Delete keeps the store well-formed: the root is never below anything, so it stays. */
  lemma DeleteKeepsInv(s: Store, id: NodeId)
    requires Inv(s)
    ensures Inv(DeleteOp(s, id))
  {
    if id != Root {
      var files := s.files;
      var doomed := [id] + Descendants(files, id);
      var r := Remove(files, doomed);
      assert DistinctIds(r) by {
        assert Pairwise(files, (a: Item, b: Item) => a.id != b.id);
        RemoveKeepsPairwise(files, doomed, (a: Item, b: Item) => a.id != b.id);
      }
      assert HasRoot(r) by {
        DescendantsMeansBelow(files, id, Root);
        RemoveMembers(files, doomed);
        var root :| 0 <= root < |files| && files[root].id == Root;
        assert files[root] in r;
      }
      RemoveSubset(files, doomed);
      SublistWellFormed(files, r, s.next);
    }
  }

  /** Delete leaves the active id naming a file when it did before. */
  lemma DeleteKeepsActive(s: Store, id: NodeId)
    requires RankOrdered(s.files) && ActiveIsFile(s)
    ensures ActiveIsFile(DeleteOp(s, id))
  {
    var r := DeleteOp(s, id);
    if id != Root && r.active.Some? {
      RemoveMembers(s.files, [id] + Descendants(s.files, id));
      var a :| 0 <= a < |s.files| && s.files[a].id == s.active.value && s.files[a].kind == File;
      assert s.files[a] in r.files;
    }
  }

  /** Delete creates no orphan: whatever pointed into the removed subtree was removed with it. */
  lemma DeleteKeepsNoOrphans(s: Store, id: NodeId)
    requires DistinctIds(s.files) && RankOrdered(s.files) && NoOrphans(s.files)
    ensures NoOrphans(DeleteOp(s, id).files)
  {
    if id != Root {
      var files := s.files;
      var doomed := [id] + Descendants(files, id);
      var r := Remove(files, doomed);
      RemoveMembers(files, doomed);
      forall k | 0 <= k < |r| && r[k].parentId.Some?
        ensures exists i :: 0 <= i < |r| && r[i].id == r[k].parentId.value
      {
        var y := r[k];
        assert y in r;
        var q := y.parentId.value;
        var m :| 0 <= m < |files| && files[m] == y;
        var i :| 0 <= i < |files| && files[i].id == q;
        if q in doomed {
          ChildIsBelow(files, m, q);
          if q != id {
            DescendantsMeansBelow(files, id, q);
            AncestorTrans(files, id, q, y.id);
          }
          DescendantsMeansBelow(files, id, y.id);
          assert false;
        }
        assert files[i] in r;
      }
    }
  }

  /** Delete keeps sibling names unique. */
  lemma DeleteKeepsSiblingNames(s: Store, id: NodeId)
    requires RankOrdered(s.files) && SiblingNamesUnique(s.files)
    ensures SiblingNamesUnique(DeleteOp(s, id).files)
  {
    if id != Root {
      var ok := (a: Item, b: Item) => ParentKey(a.parentId) == ParentKey(b.parentId) ==> Lower(a.name) != Lower(b.name);
      assert Pairwise(s.files, ok);
      RemoveKeepsPairwise(s.files, [id] + Descendants(s.files, id), ok);
    }
  }

  // ----- Toggle, edit, commit, reset, select -----

  /** `toggleFolder(id)`: flips the open flag of the item with that id (of any kind). */
  function ToggleOp(files: seq<Item>, id: NodeId): seq<Item> {
    seq(|files|, k requires 0 <= k < |files| => if files[k].id == id then files[k].(isOpen := !files[k].isOpen) else files[k])
  }

  /** Toggling twice restores the list; toggling changes only the open flag of the items with that id. */
  lemma ToggleTwice(files: seq<Item>, id: NodeId)
    ensures ToggleOp(ToggleOp(files, id), id) == files
    ensures |ToggleOp(files, id)| == |files|
    ensures forall k :: 0 <= k < |files| ==> ToggleOp(files, id)[k].isOpen == (files[k].isOpen != (files[k].id == id))
    ensures forall k :: 0 <= k < |files| ==> ToggleOp(files, id)[k].(isOpen := files[k].isOpen) == files[k]
  {
    var t := ToggleOp(ToggleOp(files, id), id);
    assert forall k :: 0 <= k < |files| ==> t[k] == files[k];
  }

  /** `updateFileContent(newContent)`: with an active id and defined content, the active item gets the content and is
      marked modified; otherwise nothing changes. */
  function UpdateContentOp(s: Store, newContent: Option<string>): Store {
    if s.active.None? || newContent.None? then s
    else
      s.(files := seq(|s.files|, k requires 0 <= k < |s.files| =>
        if s.files[k].id == s.active.value then s.files[k].(content := newContent, isModified := true) else s.files[k]))
  }

  /** `setAllFilesUnmodified()`: every item's modified flag cleared. */
  function SetAllUnmodifiedOp(files: seq<Item>): seq<Item> {
    seq(|files|, k requires 0 <= k < |files| => files[k].(isModified := false))
  }

  /** `resetWorkspace()`: the root alone, nothing active. The oracle is not reset. */
  function ResetOp(s: Store): Store {
    Store([RootItem], None, s.next)
  }

  /** `setActiveFileId(id)`. */
  function SetActiveOp(s: Store, id: Option<NodeId>): Store {
    s.(active := id)
  }

  /** `mergeGeneratedFiles(batch)` on the store. */
  function MergeOp(s: Store, batch: seq<GeneratedFile>): Store {
    var m := MergeAll(MergeState(s.files, s.next), batch);
    Store(m.files, s.active, m.next)
  }

  /** An edit with an active id and defined content stores the content in the active item alone and marks it
      modified. */
  lemma UpdateContentOutcome(s: Store, newContent: Option<string>)
    ensures var r := UpdateContentOp(s, newContent);
      && |r.files| == |s.files| && r.active == s.active && r.next == s.next
      && (s.active.None? || newContent.None? ==> r == s)
      && forall k :: 0 <= k < |s.files| ==>
           if s.active.Some? && newContent.Some? && s.files[k].id == s.active.value
           then r.files[k].content == newContent && r.files[k].isModified &&
                r.files[k].(content := s.files[k].content, isModified := s.files[k].isModified) == s.files[k]
           else r.files[k] == s.files[k]
  {
  }

  /** Toggle, edit and commit change no id, kind or parent, so they keep the store well-formed. */
  lemma FlagOpsKeepInv(s: Store, id: NodeId, content: Option<string>)
    requires Inv(s)
    ensures Inv(s.(files := ToggleOp(s.files, id)))
    ensures Inv(UpdateContentOp(s, content))
    ensures Inv(s.(files := SetAllUnmodifiedOp(s.files)))
  {
    WellFormedFrame(s.files, ToggleOp(s.files, id), s.next);
    WellFormedFrame(s.files, UpdateContentOp(s, content).files, s.next);
    WellFormedFrame(s.files, SetAllUnmodifiedOp(s.files), s.next);
  }

  /** A list of the same length and shape as the store's keeps the active id naming a file, sibling names unique and
      every parent link resolving. */
  lemma SameShapeKeepsStructure(s: Store, files: seq<Item>)
    requires Extends(s.files, files) && |files| == |s.files|
    ensures ActiveIsFile(s) ==> ActiveIsFile(s.(files := files))
    ensures SiblingNamesUnique(s.files) ==> SiblingNamesUnique(files)
    ensures NoOrphans(s.files) ==> NoOrphans(files)
  {
    if ActiveIsFile(s) && s.active.Some? {
      var a :| 0 <= a < |s.files| && s.files[a].id == s.active.value && s.files[a].kind == File;
      assert SameShape(s.files[a], files[a]);
    }
    if NoOrphans(s.files) {
      forall k | 0 <= k < |files| && files[k].parentId.Some?
        ensures exists j :: 0 <= j < |files| && files[j].id == files[k].parentId.value
      {
        assert SameShape(s.files[k], files[k]);
        var j :| 0 <= j < |s.files| && s.files[j].id == s.files[k].parentId.value;
        assert SameShape(s.files[j], files[j]);
      }
    }
  }

  /** Toggle, edit and commit keep the active id naming a file, sibling names unique and every parent link
      resolving. */
  lemma FlagOpsKeepShape(s: Store, id: NodeId, content: Option<string>)
    ensures ActiveIsFile(s) ==> ActiveIsFile(s.(files := ToggleOp(s.files, id)))
    ensures ActiveIsFile(s) ==> ActiveIsFile(UpdateContentOp(s, content))
    ensures ActiveIsFile(s) ==> ActiveIsFile(s.(files := SetAllUnmodifiedOp(s.files)))
    ensures SiblingNamesUnique(s.files) ==> SiblingNamesUnique(ToggleOp(s.files, id))
    ensures SiblingNamesUnique(s.files) ==> SiblingNamesUnique(UpdateContentOp(s, content).files)
    ensures SiblingNamesUnique(s.files) ==> SiblingNamesUnique(SetAllUnmodifiedOp(s.files))
    ensures NoOrphans(s.files) ==> NoOrphans(ToggleOp(s.files, id))
    ensures NoOrphans(s.files) ==> NoOrphans(UpdateContentOp(s, content).files)
    ensures NoOrphans(s.files) ==> NoOrphans(SetAllUnmodifiedOp(s.files))
  {
    SameShapeKeepsStructure(s, ToggleOp(s.files, id));
    SameShapeKeepsStructure(s, UpdateContentOp(s, content).files);
    assert UpdateContentOp(s, content) == s.(files := UpdateContentOp(s, content).files);
    SameShapeKeepsStructure(s, SetAllUnmodifiedOp(s.files));
  }

  /** A reset workspace is well-formed, has nothing active and no orphan. */
  lemma ResetValid(s: Store)
    ensures Inv(ResetOp(s)) && ActiveIsFile(ResetOp(s)) && NoOrphans(ResetOp(s).files)
    ensures SiblingNamesUnique(ResetOp(s).files) && ResetOp(s).files == [RootItem] && ResetOp(s).active.None?
  {
    assert ResetOp(s).files[0].id == Root;
  }

  /** The merge keeps the store well-formed and the active id naming a file. */
  lemma MergeKeepsInv(s: Store, batch: seq<GeneratedFile>)
    requires Inv(s)
    ensures Inv(MergeOp(s, batch))
    ensures ActiveIsFile(s) ==> ActiveIsFile(MergeOp(s, batch))
  {
    var st := MergeState(s.files, s.next);
    var k :| 0 <= k < |s.files| && s.files[k].id == Root;
    assert WithRoot(st) == st;
    MergeEntriesWellFormed(st, batch);
    MergeAllKeepsItems(st, batch);
    var m := MergeOp(s, batch);
    if ActiveIsFile(s) && s.active.Some? {
      var a :| 0 <= a < |s.files| && s.files[a].id == s.active.value && s.files[a].kind == File;
      assert SameShape(s.files[a], m.files[a]);
    }
  }

  /** Appending an item whose parent, if any, is in the list creates no orphan and keeps every id in the list. */
  lemma AppendNoOrphans(files: seq<Item>, x: Item)
    requires NoOrphans(files) && (x.parentId.Some? ==> InList(files, x.parentId.value))
    ensures NoOrphans(files + [x]) && InList(files + [x], x.id)
    ensures forall id :: InList(files, id) ==> InList(files + [x], id)
  {
    var r := files + [x];
    assert r[|files|] == x;
    forall id | InList(files, id) ensures InList(r, id) {
      var j :| 0 <= j < |files| && files[j].id == id;
      assert r[j] == files[j];
    }
    forall k | 0 <= k < |r| && r[k].parentId.Some?
      ensures exists i :: 0 <= i < |r| && r[i].id == r[k].parentId.value
    {
      if k < |files| {
        assert r[k] == files[k];
        var i :| 0 <= i < |files| && files[i].id == files[k].parentId.value;
        assert r[i] == files[i];
      }
    }
  }

  /** The merge's directory walk from a list holding the root creates no orphan and reaches an item of the list. */
  lemma {:induction false} EnsureDirsNoOrphans(st: MergeState, dirs: seq<string>)
    requires NoOrphans(st.files) && InList(st.files, Root)
    ensures NoOrphans(EnsureDirs(st, dirs).0.files)
    ensures InList(EnsureDirs(st, dirs).0.files, EnsureDirs(st, dirs).1)
    ensures InList(EnsureDirs(st, dirs).0.files, Root)
    decreases |dirs|
  {
    if dirs != [] {
      EnsureDirsNoOrphans(st, Init(dirs));
      var (st1, cur) := EnsureDirs(st, Init(dirs));
      match FirstHit(st1.files, FolderQuery(cur, Last(dirs)))
      case Some(k) =>
      case None =>
        AppendNoOrphans(st1.files, NewFolder(Minted(st1.next), Last(dirs), cur));
    }
  }

  /** Merging one entry into a list holding the root creates no orphan. */
  lemma MergeEntryNoOrphans(st: MergeState, g: GeneratedFile)
    requires NoOrphans(st.files) && InList(st.files, Root)
    ensures NoOrphans(MergeEntry(st, g).files) && InList(MergeEntry(st, g).files, Root)
  {
    var (dirs, fileName) := EntryParts(g.path);
    EnsureDirsNoOrphans(st, dirs);
    var (st1, cur) := EnsureDirs(st, dirs);
    var language := EntryLanguage(g, fileName);
    var r := MergeEntry(st, g).files;
    match FirstHit(st1.files, FileQuery(cur, fileName))
    case Some(k) =>
      var j :| 0 <= j < |st1.files| && st1.files[j].id == Root;
      assert r[j].id == Root;
      SameShapeKeepsStructure(Store(st1.files, None, 0), r);
    case None =>
      AppendNoOrphans(st1.files, NewFile(Minted(st1.next), fileName, cur, g.content, language));
  }

  lemma {:induction false} MergeEntriesNoOrphans(st: MergeState, batch: seq<GeneratedFile>)
    requires NoOrphans(st.files) && InList(st.files, Root)
    ensures NoOrphans(MergeEntries(st, batch).files) && InList(MergeEntries(st, batch).files, Root)
    decreases |batch|
  {
    if batch != [] {
      MergeEntriesNoOrphans(st, Init(batch));
      MergeEntryNoOrphans(MergeEntries(st, Init(batch)), Last(batch));
    }
  }

  /** The merge creates no orphan: every folder and file it adds sits under the root or an item it found or made. */
  lemma MergeKeepsNoOrphans(s: Store, batch: seq<GeneratedFile>)
    requires NoOrphans(s.files)
    ensures NoOrphans(MergeOp(s, batch).files)
  {
    var st := MergeState(s.files, s.next);
    if FindById(s.files, Root).None? {
      AppendNoOrphans(s.files, RootItem);
    } else {
      var j := FindById(s.files, Root).value;
    }
    MergeEntriesNoOrphans(WithRoot(st), batch);
  }

  /** After a commit nothing is modified, and nothing but the modified flags changed. */
  lemma CommitClearsAll(files: seq<Item>)
    ensures |SetAllUnmodifiedOp(files)| == |files|
    ensures forall k :: 0 <= k < |files| ==> !SetAllUnmodifiedOp(files)[k].isModified
    ensures forall k :: 0 <= k < |files| ==> SetAllUnmodifiedOp(files)[k].(isModified := files[k].isModified) == files[k]
    ensures SetAllUnmodifiedOp(SetAllUnmodifiedOp(files)) == SetAllUnmodifiedOp(files)
  {
  }

  /** A path `n/f` with no further slash names the file `f` in the top-level directory `n`. */
  lemma EntryPartsOneDir(n: string, f: string)
    requires n != "." && '/' !in n && '/' !in f
    ensures EntryParts(n + "/" + f) == ([n], f)
  {
    var path := n + "/" + f;
    assert path == n + ['/'] + f;
    SplitConcat(n, '/', f);
    SplitNoSep(n, '/');
    SplitNoSep(f, '/');
  }

  /** The merge alone can break sibling-name uniqueness: it looks folders up by exact name and kind, so a top-level
      FILE named `n` does not stop an entry `n/f` from creating a top-level FOLDER named `n` beside it. */
  lemma MergeBreaksSiblingNames(s: Store, k: nat, n: string, f: string, content: string)
    requires FindById(s.files, Root).Some? && k < |s.files| && s.files[k].kind == File && s.files[k].name == n
    requires ParentKey(s.files[k].parentId) == Root
    requires FirstHit(s.files, FolderQuery(Root, n)).None?
    requires n != "." && '/' !in n && '/' !in f
    ensures !SiblingNamesUnique(MergeOp(s, [GeneratedFile(n + "/" + f, content, None)]).files)
  {
    var g := GeneratedFile(n + "/" + f, content, None);
    EntryPartsOneDir(n, f);
    var st := MergeState(s.files, s.next);
    assert WithRoot(st) == st;
    assert MergeEntries(st, [g]) == MergeEntry(st, g) by {
      assert Init([g]) == [] && Last([g]) == g;
      assert MergeEntries(st, []) == st;
    }
    WalkCreatesFolder(st, n);
    MergeEntryExtendsWalk(st, g);
    var m := MergeOp(s, [g]).files;
    var d := EnsureDirs(st, [n]).0.files;
    assert SameShape(d[k], m[k]) && SameShape(d[|s.files|], m[|s.files|]);
  }

  /** A one-segment walk that finds no top-level folder of that name appends one. */
  lemma WalkCreatesFolder(st: MergeState, n: string)
    requires FirstHit(st.files, FolderQuery(Root, n)).None?
    ensures EnsureDirs(st, [n]).0.files == st.files + [NewFolder(Minted(st.next), n, Root)]
  {
    assert Init([n]) == [] && Last([n]) == n;
    assert EnsureDirs(st, []) == (st, Root);
  }

  // ----- The store object -----

  lemma DescendantsOfSnoc(files: seq<Item>, p: NodeId, ch: seq<Item>, i: nat)
    requires RankOrdered(files) && RanksAbove(files, p, ch) && i < |ch|
    ensures RanksAbove(files, p, ch[..i]) && RanksAbove(files, p, ch[..i + 1])
    ensures forall pre: seq<NodeId> :: (pre + DescendantsOf(files, p, ch[..i + 1]) ==
      (pre + DescendantsOf(files, p, ch[..i])) + Descendants(files, ch[i].id))
  {
    assert Init(ch[..i + 1]) == ch[..i] && Last(ch[..i + 1]) == ch[i];
  }

  /** `getDescendants(p)` as written: the children's ids, then a loop appending each child's descendants. */
  method GetDescendants(files: seq<Item>, parentId: NodeId) returns (ids: seq<NodeId>)
    requires RankOrdered(files)
    ensures ids == Descendants(files, parentId)
    decreases Gap(files, parentId)
  {
    var children := Children(files, parentId);
    ChildrenRanksAbove(files, parentId);
    ids := Ids(children);
    var i := 0;
    while i < |children|
      invariant 0 <= i <= |children|
      invariant RanksAbove(files, parentId, children[..i])
      invariant ids == Ids(children) + DescendantsOf(files, parentId, children[..i])
    {
      var more := GetDescendants(files, children[i].id);
      DescendantsOfSnoc(files, parentId, children, i);
      ids := ids + more;
      i := i + 1;
    }
    assert children[..i] == children;
  }

  /** The state of the `useFileSystem` hook. */
  class FileSystem {
    var files: seq<Item>
    var activeFileId: Option<NodeId>
    var nextSerial: nat

    function State(): Store
      reads this
    {
      Store(files, activeFileId, nextSerial)
    }

    predicate Valid()
      reads this
    {
      Inv(State())
    }

    /** The initial state: the configured items behind a root folder, nothing active. */
    constructor ()
      ensures State() == InitialStore && Valid()
    {
      files := InitialFiles(InitialItems);
      activeFileId := None;
      nextSerial := 0;
      InitialStoreValid();
    }

    function ActiveFileItem(): Option<Item>
      reads this
    {
      ActiveFile(State())
    }

    method SetActiveFileId(id: Option<NodeId>)
      requires Valid()
      modifies this
      ensures State() == SetActiveOp(old(State()), id) && Valid()
    {
      activeFileId := id;
    }

    method ToggleFolder(folderId: NodeId)
      requires Valid()
      modifies this
      ensures State() == old(State()).(files := ToggleOp(old(files), folderId)) && Valid()
    {
      FlagOpsKeepInv(State(), folderId, None);
      files := ToggleOp(files, folderId);
    }

    method UpdateFileContent(newContent: Option<string>)
      requires Valid()
      modifies this
      ensures State() == UpdateContentOp(old(State()), newContent) && Valid()
    {
      FlagOpsKeepInv(State(), Root, newContent);
      if activeFileId.None? || newContent.None? {
        return;
      }
      files := UpdateContentOp(State(), newContent).files;
    }

    method AddFile(parentId: Option<NodeId>, name: string) returns (result: Option<string>)
      requires Valid() && Rank(ParentKey(parentId)) <= nextSerial
      modifies this
      ensures (State(), result) == AddFileOp(old(State()), parentId, name) && Valid()
    {
      AddFileKeepsInv(State(), parentId, name);
      var (s, r) := AddFileOp(State(), parentId, name);
      result := r;
      files, activeFileId, nextSerial := s.files, s.active, s.next;
    }

    method AddFolder(parentId: Option<NodeId>, name: string) returns (result: Option<string>)
      requires Valid() && Rank(ParentKey(parentId)) <= nextSerial
      modifies this
      ensures (State(), result) == AddFolderOp(old(State()), parentId, name) && Valid()
    {
      AddFolderKeepsInv(State(), parentId, name);
      var (s, r) := AddFolderOp(State(), parentId, name);
      result := r;
      files, nextSerial := s.files, s.next;
    }

    method RenameItem(id: NodeId, newName: string) returns (ok: bool)
      requires Valid()
      modifies this
      ensures (State(), ok) == RenameOp(old(State()), id, newName) && Valid()
    {
      RenameKeepsInv(State(), id, newName);
      var (s, r) := RenameOp(State(), id, newName);
      ok := r;
      files := s.files;
    }

    method DeleteItem(id: NodeId)
      requires Valid()
      modifies this
      ensures State() == DeleteOp(old(State()), id) && Valid()
    {
      DeleteKeepsInv(State(), id);
      if id == Root {
        return;
      }
      var below := GetDescendants(files, id);
      var idsToDelete := [id] + below;
      files := Remove(files, idsToDelete);
      if activeFileId.Some? && activeFileId.value in idsToDelete {
        activeFileId := None;
      }
    }

    method ResetWorkspace()
      requires Valid()
      modifies this
      ensures State() == ResetOp(old(State())) && Valid()
    {
      ResetValid(State());
      files, activeFileId := [RootItem], None;
    }

    method MergeGeneratedFiles(generatedFiles: seq<GeneratedFile>)
      requires Valid()
      modifies this
      ensures State() == MergeOp(old(State()), generatedFiles) && Valid()
    {
      MergeKeepsInv(State(), generatedFiles);
      var f, n := Merge.MergeGeneratedFiles(files, nextSerial, generatedFiles);
      files, nextSerial := f, n;
    }

    method SetAllFilesUnmodified()
      requires Valid()
      modifies this
      ensures State() == old(State()).(files := SetAllUnmodifiedOp(old(files))) && Valid()
    {
      FlagOpsKeepInv(State(), Root, None);
      files := SetAllUnmodifiedOp(files);
    }
  }
}
