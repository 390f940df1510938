/** The records of the virtual file system: items linked to their parent folder by id, and the generated-file batch. */
module FsTypes {
  import opened Common

  datatype FileType = File | Folder

  /** Item ids. `Root` is the reserved id `'root'`; every other id comes from the fresh-id oracle, which hands out
      `Minted(0)`, `Minted(1)`, ... and so never repeats an id and never yields `'root'`. */
  datatype NodeId = Root | Minted(serial: nat)

  /** One file or folder. Optional TypeScript fields are `Option`s; the optional flags `isOpen` and `isModified` are
      `bool`s, an absent flag reading as `false` as it does in every test the code makes. */
  datatype Item = Item(
    id: NodeId,
    name: string,
    kind: FileType,
    content: Option<string>,
    language: Option<string>,
    parentId: Option<NodeId>,
    isOpen: bool,
    isModified: bool,
    history: Option<seq<string>>)

  /** One entry of a generated batch: `{path, content, language?}`. */
  datatype GeneratedFile = GeneratedFile(path: string, content: string, language: Option<string>)

  const RootName := "TERMINAL HOME"

  /** The root folder every workspace starts from. */
  const RootItem := Item(Root, RootName, Folder, None, None, None, true, false, None)

  /** `f.parentId || 'root'`: a missing parent counts as the root. */
  function ParentKey(p: Option<NodeId>): NodeId {
    if p.None? then Root else p.value
  }

  /** The order in which ids are issued: the root first, then the minted ids by serial. */
  function Rank(id: NodeId): nat {
    match id
    case Root => 0
    case Minted(n) => n + 1
  }

  // ----- Searching a list the way `find` / `findIndex` do -----

  /** How a search compares parents: `===` on `parentId`, or with a null parent read as `'root'`. */
  datatype ParentMatch = Strict | NullIsRoot

  /** A search for an item by parent and exact name, optionally of one kind. */
  datatype Query = Query(parent: NodeId, name: string, kind: Option<FileType>, how: ParentMatch)

  predicate Hit(x: Item, q: Query) {
    && x.name == q.name
    && (q.kind.None? || x.kind == q.kind.value)
    && (match q.how
        case Strict => x.parentId == Some(q.parent)
        case NullIsRoot => ParentKey(x.parentId) == q.parent)
  }

  /** `files.findIndex(q)`: the first index whose item matches. */
  function FirstHit(files: seq<Item>, q: Query): (r: Option<nat>)
    ensures r.Some? ==> r.value < |files| && Hit(files[r.value], q)
    ensures r.Some? ==> forall k :: 0 <= k < r.value ==> !Hit(files[k], q)
    ensures r.None? ==> forall k :: 0 <= k < |files| ==> !Hit(files[k], q)
  {
    if files == [] then None
    else if Hit(files[0], q) then Some(0)
    else
      match FirstHit(files[1..], q)
      case None => None
      case Some(i) => Some(i + 1)
  }

  /** The id of the first match (`files.find(q)?.id`). */
  function FindId(files: seq<Item>, q: Query): Option<NodeId> {
    match FirstHit(files, q)
    case None => None
    case Some(k) => Some(files[k].id)
  }

  /** `files.findIndex(f => f.id === id)`. */
  function FindById(files: seq<Item>, id: NodeId): (r: Option<nat>)
    ensures r.Some? ==> r.value < |files| && files[r.value].id == id
    ensures r.None? ==> forall k :: 0 <= k < |files| ==> files[k].id != id
  {
    if files == [] then None
    else if files[0].id == id then Some(0)
    else
      match FindById(files[1..], id)
      case None => None
      case Some(i) => Some(i + 1)
  }

  // ----- Shape: the fields searches depend on -----

  /** Two versions of an item that agree on everything a search inspects. */
  predicate SameShape(a: Item, b: Item) {
    a.id == b.id && a.name == b.name && a.kind == b.kind && a.parentId == b.parentId
  }

  /** `b` holds `a`'s items, in place and with the same ids, names, kinds and parents, possibly followed by more. */
  predicate Extends(a: seq<Item>, b: seq<Item>) {
    |a| <= |b| && forall k :: 0 <= k < |a| ==> SameShape(a[k], b[k])
  }

  lemma ExtendsTrans(a: seq<Item>, b: seq<Item>, c: seq<Item>)
    requires Extends(a, b) && Extends(b, c)
    ensures Extends(a, c)
  {
  }

  /** The search ends at the first index that matches. */
  lemma FirstHitAt(files: seq<Item>, q: Query, i: nat)
    requires i < |files| && Hit(files[i], q) && forall k :: 0 <= k < i ==> !Hit(files[k], q)
    ensures FirstHit(files, q) == Some(i)
  {
  }

  /** A search that succeeds on a list succeeds at the same index on every extension of it: appending items and changing
      fields a search does not inspect cannot move the first match. */
  lemma FirstHitExtends(a: seq<Item>, b: seq<Item>, q: Query)
    requires Extends(a, b) && FirstHit(a, q).Some?
    ensures FirstHit(b, q) == FirstHit(a, q)
  {
    var i := FirstHit(a, q).value;
    assert SameShape(a[i], b[i]);
    assert Hit(b[i], q);
    forall k | 0 <= k < i ensures !Hit(b[k], q) {
      assert SameShape(a[k], b[k]);
      assert !Hit(a[k], q);
    }
    FirstHitAt(b, q, i);
  }

  /** Two lists of the same length that agree pointwise on shape answer every search alike. */
  lemma FirstHitSameShape(a: seq<Item>, b: seq<Item>, q: Query)
    requires Extends(a, b) && |a| == |b|
    ensures FirstHit(b, q) == FirstHit(a, q)
  {
    if FirstHit(a, q).Some? {
      FirstHitExtends(a, b, q);
    } else {
      forall i | 0 <= i < |b| ensures !Hit(b[i], q) {
        assert SameShape(a[i], b[i]);
      }
    }
  }

  /** A search that finds nothing on a list finds an item appended to it, when that item matches. */
  lemma FirstHitAppend(a: seq<Item>, x: Item, q: Query)
    requires FirstHit(a, q).None? && Hit(x, q)
    ensures FirstHit(a + [x], q) == Some(|a|)
  {
    var b := a + [x];
    assert b[|a|] == x;
    forall k | 0 <= k < |a| ensures !Hit(b[k], q) {
      assert b[k] == a[k];
    }
  }

  // ----- Structural invariants of an item list -----

  predicate DistinctIds(files: seq<Item>) {
    forall i, j :: 0 <= i < j < |files| ==> files[i].id != files[j].id
  }

  predicate HasRoot(files: seq<Item>) {
    exists k :: 0 <= k < |files| && files[k].id == Root
  }

  /** Only the root has no parent, and the root is a folder. */
  predicate RootShaped(files: seq<Item>) {
    forall k :: 0 <= k < |files| ==>
      (files[k].parentId.None? <==> files[k].id == Root) && (files[k].id == Root ==> files[k].kind == Folder)
  }

  /** Every id in the list has been issued by an oracle whose next serial is `next`. */
  predicate IdsIssued(files: seq<Item>, next: nat) {
    forall k :: 0 <= k < |files| ==> Rank(files[k].id) <= next
  }

  /** Every parent link points to an id issued before the child's: parent links cannot form a cycle. */
  predicate RankOrdered(files: seq<Item>) {
    forall k :: 0 <= k < |files| && files[k].parentId.Some? ==> Rank(files[k].parentId.value) < Rank(files[k].id)
  }

  /** The structure every workspace keeps, whatever the operation. */
  predicate WellFormed(files: seq<Item>, next: nat) {
    DistinctIds(files) && HasRoot(files) && RootShaped(files) && IdsIssued(files, next) && RankOrdered(files)
  }

  /** Items drawn from a well-formed list, with distinct ids and the root among them, form a well-formed list. */
  lemma SublistWellFormed(a: seq<Item>, b: seq<Item>, next: nat)
    requires WellFormed(a, next) && DistinctIds(b) && HasRoot(b)
    requires forall k :: 0 <= k < |b| ==> b[k] in a
    ensures WellFormed(b, next)
  {
  }

  /** Changing fields other than id, kind and parent keeps a list well-formed. */
  lemma WellFormedFrame(a: seq<Item>, b: seq<Item>, next: nat)
    requires WellFormed(a, next)
    requires |a| == |b| && forall k :: 0 <= k < |a| ==> a[k].id == b[k].id && a[k].kind == b[k].kind && a[k].parentId == b[k].parentId
    ensures WellFormed(b, next)
  {
    var r :| 0 <= r < |a| && a[r].id == Root;
    assert b[r].id == Root;
  }

  /** Appending an item with the next fresh id under an issued parent keeps a list well-formed. */
  lemma WellFormedAppend(a: seq<Item>, next: nat, x: Item)
    requires WellFormed(a, next)
    requires x.id == Minted(next) && x.parentId.Some? && Rank(x.parentId.value) <= next
    ensures WellFormed(a + [x], next + 1)
  {
    var b := a + [x];
    var r :| 0 <= r < |a| && a[r].id == Root;
    assert b[r].id == Root;
    forall i, j | 0 <= i < j < |b| ensures b[i].id != b[j].id {
      if j == |a| {
        assert Rank(b[i].id) <= next;
      }
    }
  }
}
