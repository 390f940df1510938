/** The terminal: path resolution over the store, the `ls` / `mkdir` / `touch` / `help` / `clear` commands, and the
    Enter-key handler that feeds them. */
module Terminal {
  import opened Common
  import opened JsStrings
  import opened FsTypes
  import opened NodeStore

  // ----- Paths -----

  /** The paths that name the root without a walk: empty, `.` and `./`. */
  predicate IsRootPath(path: string) {
    path == "" || path == "." || path == "./"
  }

  /** The segments of a path: one leading "./" stripped, split on '/', empty segments dropped. */
  function Segments(path: string): seq<string> {
    NonEmpty(Split(StripDotSlash(path), '/'))
  }

  /** A FOLDER named `name` whose `parentId` is exactly `parent`. */
  function FolderChildQuery(parent: NodeId, name: string): Query {
    Query(parent, name, Some(Folder), Strict)
  }

  /** Any item named `name` whose `parentId` is exactly `parent`. */
  function AnyChildQuery(parent: NodeId, name: string): Query {
    Query(parent, name, None, Strict)
  }

  /** One segment of the walk from `cur`: an existing child folder is entered; a missing one is an error, or, when
      creating, is added through `addFolder` and then looked up again by parent and name. */
  function ResolveStep(s: Store, cur: NodeId, part: string, create: bool): (Store, Option<NodeId>) {
    match FindId(s.files, FolderChildQuery(cur, part))
    case Some(id) => (s, Some(id))
    case None =>
      if !create then (s, None)
      else
        var (s1, res) := AddFolderOp(s, Some(cur), part);
        if res.None? then (s1, None) else (s1, FindId(s1.files, AnyChildQuery(cur, part)))
  }

  /** The walk over the segments, from the root; the first failure ends it. */
  function ResolveSegs(s: Store, segs: seq<string>, create: bool): (Store, Option<NodeId>)
    decreases |segs|
  {
    if segs == [] then (s, Some(Root))
    else
      var (s1, r) := ResolveSegs(s, Init(segs), create);
      if r.None? then (s1, None) else ResolveStep(s1, r.value, Last(segs), create)
  }

  /** `resolvePathToId(path, create)` over a store that every call sees up to date. */
  function ResolvePath(s: Store, path: string, create: bool): (Store, Option<NodeId>) {
    if IsRootPath(path) then (s, Some(Root)) else ResolveSegs(s, Segments(path), create)
  }

  // ----- Properties of the resolver -----

  /** A FOLDER-child hit is also an any-kind hit, and an any-kind hit is a case-insensitive duplicate. */
  lemma QueriesNest(files: seq<Item>, cur: NodeId, part: string)
    ensures FirstHit(files, AnyChildQuery(cur, part)).None? ==> FirstHit(files, FolderChildQuery(cur, part)).None?
    ensures !Duplicate(files, cur, part) ==> FirstHit(files, AnyChildQuery(cur, part)).None?
  {
    var fq := FolderChildQuery(cur, part);
    var aq := AnyChildQuery(cur, part);
    if FirstHit(files, fq).Some? {
      assert Hit(files[FirstHit(files, fq).value], aq);
    }
    if FirstHit(files, aq).Some? {
      var k := FirstHit(files, aq).value;
      assert ParentKey(files[k].parentId) == cur && Lower(files[k].name) == Lower(part);
    }
  }

  /** When the walk creates a folder, the new folder is the first match of both lookups. */
  lemma CreatedFolderFound(s: Store, cur: NodeId, part: string)
    requires FindId(s.files, FolderChildQuery(cur, part)).None?
    requires AddFolderOp(s, Some(cur), part).1.Some?
    ensures var s1 := AddFolderOp(s, Some(cur), part).0;
      && FirstHit(s1.files, FolderChildQuery(cur, part)) == Some(|s.files|)
      && FirstHit(s1.files, AnyChildQuery(cur, part)) == Some(|s.files|)
      && s1.files[|s.files|].id == Minted(s.next)
  {
    AddFolderOutcome(s, Some(cur), part);
    QueriesNest(s.files, cur, part);
    var o := OpenItem(s.files, cur);
    var x := NewFolderItem(Minted(s.next), part, cur);
    OpenItemShape(s.files, cur);
    FirstHitSameShape(s.files, o, FolderChildQuery(cur, part));
    FirstHitSameShape(s.files, o, AnyChildQuery(cur, part));
    FirstHitAppend(o, x, FolderChildQuery(cur, part));
    FirstHitAppend(o, x, AnyChildQuery(cur, part));
    assert AddFolderOp(s, Some(cur), part).0.files == o + [x];
  }

  /** A step only adds folders and opens items: what was there keeps its shape, nothing else changes, and without
      `create` nothing changes at all. A step that succeeds ends on a FOLDER child of `cur` that the folder lookup finds
      at its index. */
  lemma ResolveStepFacts(s: Store, cur: NodeId, part: string, create: bool)
    ensures var (s1, r) := ResolveStep(s, cur, part, create);
      && Extends(s.files, s1.files) && s1.active == s.active && s.next <= s1.next
      && (!create ==> s1 == s)
      && (forall k :: |s.files| <= k < |s1.files| ==> s1.files[k].kind == Folder)
      && (r.Some? ==> FirstHit(s1.files, FolderChildQuery(cur, part)).Some? &&
                      s1.files[FirstHit(s1.files, FolderChildQuery(cur, part)).value].id == r.value)
  {
    if FindId(s.files, FolderChildQuery(cur, part)).None? && create {
      AddFolderOutcome(s, Some(cur), part);
      OpenItemShape(s.files, cur);
      var (s1, res) := AddFolderOp(s, Some(cur), part);
      if res.Some? {
        CreatedFolderFound(s, cur, part);
        assert Extends(OpenItem(s.files, cur), s1.files);
        ExtendsTrans(s.files, OpenItem(s.files, cur), s1.files);
      }
    }
  }

  /** A walk one segment further is one more step from where the shorter walk ended. */
  lemma ResolveSegsSnoc(s: Store, segs: seq<string>, i: nat, create: bool)
    requires i < |segs| && ResolveSegs(s, segs[..i], create).1.Some?
    ensures var (s1, r) := ResolveSegs(s, segs[..i], create);
      ResolveSegs(s, segs[..i + 1], create) == ResolveStep(s1, r.value, segs[i], create)
  {
    assert Init(segs[..i + 1]) == segs[..i] && Last(segs[..i + 1]) == segs[i];
  }

  /** A step from an issued id keeps a store well-formed and ends on an issued id. */
  lemma ResolveStepKeepsInv(s: Store, cur: NodeId, part: string, create: bool)
    requires Inv(s) && Rank(cur) <= s.next
    ensures Inv(ResolveStep(s, cur, part, create).0)
    ensures ResolveStep(s, cur, part, create).1.Some? ==> Rank(ResolveStep(s, cur, part, create).1.value) <= ResolveStep(s, cur, part, create).0.next
  {
    if FindId(s.files, FolderChildQuery(cur, part)).None? && create {
      AddFolderKeepsInv(s, Some(cur), part);
    }
  }

  /** The walk keeps a store well-formed and ends on an issued id. */
  lemma {:induction false} ResolveSegsKeepsInv(s: Store, segs: seq<string>, create: bool)
    requires Inv(s)
    ensures Inv(ResolveSegs(s, segs, create).0)
    ensures ResolveSegs(s, segs, create).1.Some? ==> Rank(ResolveSegs(s, segs, create).1.value) <= ResolveSegs(s, segs, create).0.next
    decreases |segs|
  {
    if segs != [] {
      ResolveSegsKeepsInv(s, Init(segs), create);
      var (s1, r) := ResolveSegs(s, Init(segs), create);
      if r.Some? {
        ResolveStepKeepsInv(s1, r.value, Last(segs), create);
      }
    }
  }

  /** The walk only adds folders and opens items, keeps the active id, and without `create` changes nothing. */
  lemma {:induction false} ResolveSegsGrows(s: Store, segs: seq<string>, create: bool)
    ensures Extends(s.files, ResolveSegs(s, segs, create).0.files)
    ensures ResolveSegs(s, segs, create).0.active == s.active
    ensures !create ==> ResolveSegs(s, segs, create).0 == s
    ensures s.next <= ResolveSegs(s, segs, create).0.next
    ensures forall k :: |s.files| <= k < |ResolveSegs(s, segs, create).0.files| ==>
      ResolveSegs(s, segs, create).0.files[k].kind == Folder
    decreases |segs|
  {
    if segs != [] {
      ResolveSegsGrows(s, Init(segs), create);
      var (s1, r) := ResolveSegs(s, Init(segs), create);
      if r.Some? {
        ResolveStepFacts(s1, r.value, Last(segs), create);
        var s2 := ResolveStep(s1, r.value, Last(segs), create).0;
        ExtendsTrans(s.files, s1.files, s2.files);
        forall k | |s.files| <= k < |s2.files| ensures s2.files[k].kind == Folder {
          if k < |s1.files| {
            assert SameShape(s1.files[k], s2.files[k]);
          }
        }
      }
    }
  }

  /** The walk keeps the active id naming a file, sibling names unique and every parent link resolving, and ends on an
      item of the list. */
  lemma {:induction false} ResolveSegsShape(s: Store, segs: seq<string>, create: bool)
    requires Inv(s)
    ensures var (s1, r) := ResolveSegs(s, segs, create);
      && (ActiveIsFile(s) ==> ActiveIsFile(s1))
      && (SiblingNamesUnique(s.files) ==> SiblingNamesUnique(s1.files))
      && (NoOrphans(s.files) ==> NoOrphans(s1.files))
      && (r.Some? ==> InList(s1.files, r.value))
    decreases |segs|
  {
    if segs == [] {
      var k :| 0 <= k < |s.files| && s.files[k].id == Root;
    } else {
      ResolveSegsShape(s, Init(segs), create);
      ResolveSegsKeepsInv(s, Init(segs), create);
      var (s1, r) := ResolveSegs(s, Init(segs), create);
      if r.Some? {
        var cur := r.value;
        var part := Last(segs);
        ResolveStepFacts(s1, cur, part, create);
        if FindId(s1.files, FolderChildQuery(cur, part)).None? && create {
          AddFolderKeepsInv(s1, Some(cur), part);
          AddFolderKeepsShape(s1, Some(cur), part);
        }
        var (s2, r2) := ResolveStep(s1, cur, part, create);
        if r2.Some? {
          var k := FirstHit(s2.files, FolderChildQuery(cur, part)).value;
          assert s2.files[k].id == r2.value;
        }
      }
    }
  }

  /** A resolved path stays resolved: on any later store that keeps the walk's items in place, walking the same
      segments again, with or without `create`, changes nothing and reaches the same folder. */
  lemma {:induction false} ResolveSegsStable(s: Store, segs: seq<string>, create: bool, later: Store, create2: bool)
    requires ResolveSegs(s, segs, create).1.Some?
    requires Extends(ResolveSegs(s, segs, create).0.files, later.files)
    ensures ResolveSegs(later, segs, create2) == (later, ResolveSegs(s, segs, create).1)
    decreases |segs|
  {
    if segs != [] {
      var (sm, rm) := ResolveSegs(s, Init(segs), create);
      var (s1, r) := ResolveStep(sm, rm.value, Last(segs), create);
      ResolveStepFacts(sm, rm.value, Last(segs), create);
      ExtendsTrans(sm.files, s1.files, later.files);
      ResolveSegsStable(s, Init(segs), create, later, create2);
      var q := FolderChildQuery(rm.value, Last(segs));
      FirstHitExtends(s1.files, later.files, q);
      var k := FirstHit(s1.files, q).value;
      assert SameShape(s1.files[k], later.files[k]);
    }
  }

  /** A successful walk over at least one segment ends on a FOLDER of the resulting store. */
  lemma ResolveSegsEndsOnFolder(s: Store, segs: seq<string>, create: bool)
    requires segs != [] && ResolveSegs(s, segs, create).1.Some?
    ensures var (s1, r) := ResolveSegs(s, segs, create);
      exists k :: 0 <= k < |s1.files| && s1.files[k].id == r.value && s1.files[k].kind == Folder
  {
    var (sm, rm) := ResolveSegs(s, Init(segs), create);
    ResolveStepFacts(sm, rm.value, Last(segs), create);
    var s1 := ResolveStep(sm, rm.value, Last(segs), create).0;
    var k := FirstHit(s1.files, FolderChildQuery(rm.value, Last(segs))).value;
    assert s1.files[k].kind == Folder;
  }

  /** Resolving a path twice is resolving it once. */
  lemma ResolvePathIdempotent(s: Store, path: string, create: bool)
    requires ResolvePath(s, path, create).1.Some?
    ensures ResolvePath(ResolvePath(s, path, create).0, path, create) == ResolvePath(s, path, create)
  {
    if !IsRootPath(path) {
      ResolveSegsStable(s, Segments(path), create, ResolvePath(s, path, create).0, create);
    }
  }

  /** A failed walk stays failed: the later segments are not looked at. */
  lemma {:induction false} ResolveFailureSticks(s: Store, segs: seq<string>, j: nat, create: bool)
    requires j <= |segs| && ResolveSegs(s, segs[..j], create).1.None?
    ensures ResolveSegs(s, segs, create) == ResolveSegs(s, segs[..j], create)
    decreases |segs| - j
  {
    if j < |segs| {
      assert Init(segs[..j + 1]) == segs[..j];
      ResolveFailureSticks(s, segs, j + 1, create);
    } else {
      assert segs[..j] == segs;
    }
  }

  /** A step fails exactly when no FOLDER child of `cur` has the segment's exact name and either nothing may be
      created or `addFolder` refuses the name (empty, containing a dot, or taken ignoring case by an item of any kind,
      a file included); a failed step changes nothing. */
  lemma ResolveStepFails(s: Store, cur: NodeId, part: string, create: bool)
    ensures ResolveStep(s, cur, part, create).1.None? <==>
      FindId(s.files, FolderChildQuery(cur, part)).None? &&
      (!create || part == "" || DottedName(part) || Duplicate(s.files, cur, part))
    ensures ResolveStep(s, cur, part, create).1.None? ==> ResolveStep(s, cur, part, create).0 == s
  {
    if FindId(s.files, FolderChildQuery(cur, part)).None? && create && AddFolderOp(s, Some(cur), part).1.Some? {
      CreatedFolderFound(s, cur, part);
    }
  }

  /** A walk whose step at segment `i` is refused fails there: the store is what the first `i` steps left, and the
      later segments are not looked at. */
  lemma WalkStopsAtRefusal(s: Store, segs: seq<string>, i: nat, create: bool)
    requires i < |segs| && ResolveSegs(s, segs[..i], create).1.Some?
    requires var (s1, r) := ResolveSegs(s, segs[..i], create);
      FindId(s1.files, FolderChildQuery(r.value, segs[i])).None? &&
      (!create || segs[i] == "" || DottedName(segs[i]) || Duplicate(s1.files, r.value, segs[i]))
    ensures ResolveSegs(s, segs, create) == (ResolveSegs(s, segs[..i], create).0, None)
  {
    var (s1, r) := ResolveSegs(s, segs[..i], create);
    ResolveSegsSnoc(s, segs, i, create);
    ResolveStepFails(s1, r.value, segs[i], create);
    ResolveFailureSticks(s, segs, i + 1, create);
  }

  // ----- The resolver as written: every lookup reads the snapshot taken before the command -----

  /** One step of the walk when lookups read the item list of the last render (`snapshot`) while `addFolder` updates
      the live store. */
  function StaleStep(snapshot: seq<Item>, s: Store, cur: NodeId, part: string, create: bool): (Store, Option<NodeId>) {
    match FindId(snapshot, FolderChildQuery(cur, part))
    case Some(id) => (s, Some(id))
    case None =>
      if !create then (s, None)
      else
        var (s1, res) := AddFolderOp(s, Some(cur), part);
        if res.None? then (s1, None) else (s1, FindId(snapshot, AnyChildQuery(cur, part)))
  }

  function StaleSegs(snapshot: seq<Item>, s: Store, segs: seq<string>, create: bool): (Store, Option<NodeId>)
    decreases |segs|
  {
    if segs == [] then (s, Some(Root))
    else
      var (s1, r) := StaleSegs(snapshot, s, Init(segs), create);
      if r.None? then (s1, None) else StaleStep(snapshot, s1, r.value, Last(segs), create)
  }

  /** `resolvePathToId(path, create)` as the component runs it: `fileSystem.files` is the list of the last render. */
  function ResolvePathAsWritten(s: Store, path: string, create: bool): (Store, Option<NodeId>) {
    if IsRootPath(path) then (s, Some(Root)) else StaleSegs(s.files, s, Segments(path), create)
  }

  /** A single missing folder: the corrected walk creates it and returns its id; the walk as written creates the same
      folder and then reports failure, because the re-lookup reads the list from before the creation. */
  lemma StaleResolveReportsFailure(s: Store, part: string)
    requires part != "" && '/' !in part && '.' !in part && !Duplicate(s.files, Root, part)
    ensures ResolvePath(s, part, true).1 == Some(Minted(s.next))
    ensures ResolvePathAsWritten(s, part, true) == (ResolvePath(s, part, true).0, None)
    ensures ResolvePath(s, part, true).0 != s
  {
    SegmentsOfName(part);
    assert Init([part]) == [] && Last([part]) == part;
    QueriesNest(s.files, Root, part);
    DottedNameIsDot(part);
    CreatedFolderFound(s, Root, part);
    AddFolderOutcome(s, Some(Root), part);
    assert StaleSegs(s.files, s, [], true) == (s, Some(Root));
    assert ResolveSegs(s, [], true) == (s, Some(Root));
  }

  // ----- The resolver on the store object -----

  /** One pass of the loop in `resolvePathToId`: enter the child folder `part` of `cur`, or, when creating, add it
      and look it up again. */
  method EnterOrCreate(fs: FileSystem, cur: NodeId, part: string, create: bool) returns (next: Option<NodeId>)
    requires fs.Valid() && Rank(cur) <= fs.nextSerial
    modifies fs
    ensures (fs.State(), next) == ResolveStep(old(fs.State()), cur, part, create)
  {
    var existing := FindId(fs.files, FolderChildQuery(cur, part));
    if existing.Some? {
      return existing;
    }
    if !create {
      return None;
    }
    var newName := fs.AddFolder(Some(cur), part);
    if newName.None? {
      return None;
    }
    next := FindId(fs.files, AnyChildQuery(cur, part));
  }

  /** The loop of `resolvePathToId` over the segments, from the root. */
  method WalkSegments(fs: FileSystem, parts: seq<string>, create: bool) returns (r: Option<NodeId>)
    requires fs.Valid()
    modifies fs
    ensures fs.Valid()
    ensures (fs.State(), r) == ResolveSegs(old(fs.State()), parts, create)
    ensures r.Some? ==> Rank(r.value) <= fs.nextSerial
  {
    ghost var s0 := fs.State();
    var currentParentId := Root;
    var i := 0;
    while i < |parts|
      invariant 0 <= i <= |parts|
      invariant fs.State() == ResolveSegs(s0, parts[..i], create).0
      invariant ResolveSegs(s0, parts[..i], create).1 == Some(currentParentId)
    {
      ResolveSegsKeepsInv(s0, parts[..i], create);
      ResolveSegsSnoc(s0, parts, i, create);
      var next := EnterOrCreate(fs, currentParentId, parts[i], create);
      if next.None? {
        ResolveFailureSticks(s0, parts, i + 1, create);
        ResolveSegsKeepsInv(s0, parts, create);
        return None;
      }
      currentParentId := next.value;
      i := i + 1;
    }
    assert parts[..i] == parts;
    ResolveSegsKeepsInv(s0, parts, create);
    return Some(currentParentId);
  }

  /** `resolvePathToId(path, create)`: a root path is the root; any other path is walked segment by segment, calling
      `addFolder` on the store. */
  method ResolvePathToId(fs: FileSystem, path: string, create: bool) returns (r: Option<NodeId>)
    requires fs.Valid()
    modifies fs
    ensures fs.Valid()
    ensures (fs.State(), r) == ResolvePath(old(fs.State()), path, create)
    ensures r.Some? ==> Rank(r.value) <= fs.nextSerial
  {
    if IsRootPath(path) {
      return Some(Root);
    }
    r := WalkSegments(fs, Segments(path), create);
  }

  // ----- Commands -----

  const HelpText := "Available commands: ls, mkdir <path>, touch <path>, clear, help"

  /** What one command does: the new store, the text it returns (none for `clear`), and whether it cleared the log. */
  datatype Outcome = Outcome(store: Store, output: Option<string>, cleared: bool)

  /** The words of a command line: trimmed, then split on single spaces. */
  function Words(cmd: string): seq<string> {
    Split(Trim(cmd), ' ')
  }

  /** The command name, lower-cased. */
  function CommandWord(cmd: string): string {
    Lower(Words(cmd)[0])
  }

  /** The second word; "" when there is none, which every test of the parameter treats as a missing one. */
  function Param(cmd: string): string {
    var w := Words(cmd);
    if |w| >= 2 then w[1] else ""
  }

  /** A folder is listed with a trailing slash. */
  function ShowName(x: Item): string {
    if x.kind == Folder then x.name + "/" else x.name
  }

  /** The entries of the items whose `parentId` is exactly the root id, in list order. */
  function RootEntries(files: seq<Item>): seq<string> {
    if files == [] then []
    else (if files[0].parentId == Some(Root) then [ShowName(files[0])] else []) + RootEntries(files[1..])
  }

  /** The output of `ls`: the top-level entries separated by two spaces. */
  function Listing(files: seq<Item>): string {
    var names := RootEntries(files);
    if names == [] then "(empty directory)" else Join(names, "  ")
  }

  /** The folder a command works in: the root when the prefix is empty, otherwise the resolved prefix. */
  function Target(s: Store, prefix: string, create: bool): (Store, Option<NodeId>) {
    if prefix == "" then (s, Some(Root)) else ResolvePath(s, prefix, create)
  }

  /** What `mkdir` or `touch` found, before it is put into words. */
  datatype Reply = Usage | NoTarget(prefix: string) | InvalidName | Taken(name: string) | Created | Refused

  /** The creation step: `addFolder` or `addFile` in the target folder. */
  function CreateIn(s: Store, target: NodeId, name: string, folder: bool): (Store, Reply) {
    var (r, res) := if folder then AddFolderOp(s, Some(target), name) else AddFileOp(s, Some(target), name);
    (r, if res.Some? then Created else Refused)
  }

  /** `mkdir <param>` (`folder`) or `touch <param>`: the prefix before the last '/' is resolved (creating missing
      folders for `mkdir` only); the last segment must be non-empty and not taken, exactly and by any kind, in the
      target folder before the store is asked to create it. */
  function Create(s: Store, param: string, folder: bool): (Store, Reply) {
    if param == "" then (s, Usage)
    else
      var (prefix, name) := SplitLast(param, '/');
      var (s1, target) := Target(s, prefix, folder);
      if target.None? then (s1, NoTarget(prefix))
      else if name == "" then (s1, InvalidName)
      else if FindId(s1.files, AnyChildQuery(target.value, name)).Some? then (s1, Taken(name))
      else CreateIn(s1, target.value, name, folder)
  }

  /** The words of `mkdir`. */
  function MkdirText(param: string, reply: Reply): string {
    match reply
    case Usage => "usage: mkdir <path/folder_name>"
    case NoTarget(prefix) => "Error: Could not resolve path '" + prefix + "'"
    case InvalidName => "Error: Invalid folder name"
    case Taken(name) => "Error: '" + name + "' already exists at this path."
    case Created => "Created directory: " + param
    case Refused => "Failed to create directory: " + param
  }

  /** The words of `touch`. */
  function TouchText(param: string, reply: Reply): string {
    match reply
    case Usage => "usage: touch <path/file_name>"
    case NoTarget(prefix) => "Error: Path '" + prefix + "' does not exist."
    case InvalidName => "Error: Invalid file name"
    case Taken(name) => "Error: File '" + name + "' already exists."
    case Created => "Created file: " + param
    case Refused => "Failed to create file: " + param
  }

  /** `handleCommand(cmd)`. */
  function Command(s: Store, cmd: string): Outcome {
    var command := CommandWord(cmd);
    var param := Param(cmd);
    if command == "help" then Outcome(s, Some(HelpText), false)
    else if command == "clear" then Outcome(s, None, true)
    else if command == "ls" then Outcome(s, Some(Listing(s.files)), false)
    else if command == "mkdir" then var (s1, reply) := Create(s, param, true); Outcome(s1, Some(MkdirText(param, reply)), false)
    else if command == "touch" then var (s1, reply) := Create(s, param, false); Outcome(s1, Some(TouchText(param, reply)), false)
    else Outcome(s, Some("command not found: " + command), false)
  }

  /** What a key press does: the new store, the new input line, the line written to the log, and whether the log was
      cleared. */
  datatype KeyResult = KeyResult(store: Store, input: string, logged: Option<string>, cleared: bool)

  /** `handleKeyDown`: Enter on a non-blank line runs it (`clear` before anything else), logs a non-empty output and
      empties the input; any other key, or Enter on a blank line, changes nothing. */
  function KeyDown(s: Store, key: string, input: string): KeyResult {
    var cmd := Trim(input);
    if key != "Enter" || cmd == "" then KeyResult(s, input, None, false)
    else if cmd == "clear" then KeyResult(s, "", None, true)
    else
      var o := Command(s, cmd);
      KeyResult(o.store, "", if o.output.Some? && o.output.value != "" then o.output else None, o.cleared)
  }

  // ----- Properties of the commands -----

  /** Enter on a line changes nothing exactly when the line is white space only. */
  lemma BlankLineIgnored(s: Store, input: string)
    ensures (forall k :: 0 <= k < |input| ==> IsJsSpace(input[k])) <==> KeyDown(s, "Enter", input) == KeyResult(s, input, None, false)
  {
    TrimBlank(input);
    if Trim(input) == "clear" {
      EnterOnClear(s, input);
    } else if Trim(input) != "" {
      KeyDownRuns(s, input);
    }
  }

  /** The words of a trimmed line are the words of the line. */
  lemma WordsOfTrimmed(cmd: string)
    ensures Words(Trim(cmd)) == Words(cmd)
  {
    TrimIdempotent(cmd);
  }

  /** A command clears the log exactly when its name is `clear`, and then does nothing else. */
  lemma CommandClears(s: Store, cmd: string)
    ensures Command(s, cmd).cleared <==> CommandWord(cmd) == "clear"
    ensures Command(s, cmd).cleared ==> Command(s, cmd) == Outcome(s, None, true)
  {
  }

  /** A single word of lower-case letters, with no white space in it, names itself. */
  lemma WordNamesItself(w: string)
    requires w != "" && forall k :: 0 <= k < |w| ==> 'a' <= w[k] <= 'z'
    ensures CommandWord(w) == w
  {
    TrimUntouched(w);
    SplitNoSep(w, ' ');
    LowerUnchanged(w);
  }

  /** The line `clear` names the command `clear`. */
  lemma ClearIsClear()
    ensures CommandWord("clear") == "clear"
  {
    WordNamesItself("clear");
  }

  /** Enter on a non-blank line other than `clear` runs that line as a command. */
  lemma KeyDownRuns(s: Store, input: string)
    requires Trim(input) != "" && Trim(input) != "clear"
    ensures KeyDown(s, "Enter", input).cleared == Command(s, Trim(input)).cleared
    ensures KeyDown(s, "Enter", input).store == Command(s, Trim(input)).store
    ensures KeyDown(s, "Enter", input).input == ""
  {
  }

  /** Enter on the line `clear` (white space around it aside) clears the log and does nothing else. */
  lemma EnterOnClear(s: Store, input: string)
    requires Trim(input) == "clear"
    ensures KeyDown(s, "Enter", input) == KeyResult(s, "", None, true)
  {
  }

  /** `clear` in any letter case clears the log and does nothing else; nothing else clears it. */
  lemma ClearOnlyByClear(s: Store, input: string)
    ensures KeyDown(s, "Enter", input).cleared <==> Trim(input) != "" && CommandWord(input) == "clear"
    ensures KeyDown(s, "Enter", input).cleared ==> KeyDown(s, "Enter", input) == KeyResult(s, "", None, true)
  {
    WordsOfTrimmed(input);
    var cmd := Trim(input);
    if cmd == "" {
      TrimBlank(input);
      BlankLineIgnored(s, input);
    } else if cmd == "clear" {
      ClearIsClear();
      EnterOnClear(s, input);
    } else {
      KeyDownRuns(s, input);
      CommandClears(s, cmd);
    }
  }

  /** Only `mkdir` and `touch` change the store. */
  lemma OnlyMkdirAndTouchWrite(s: Store, cmd: string)
    requires Command(s, cmd).store != s
    ensures CommandWord(cmd) == "mkdir" || CommandWord(cmd) == "touch"
  {
  }

  /** An unknown command, written in lower case, is reported by name and changes nothing. */
  lemma UnknownCommandReported(s: Store, w: string)
    requires w != "" && forall k :: 0 <= k < |w| ==> 'a' <= w[k] <= 'z'
    requires w != "help" && w != "clear" && w != "ls" && w != "mkdir" && w != "touch"
    ensures Command(s, w) == Outcome(s, Some("command not found: " + w), false)
  {
    WordNamesItself(w);
  }

  /** `mkdir` and `touch` without a parameter answer with their usage and change nothing; a parameter ending in '/'
      names no item and is refused as an invalid name once its prefix resolves; on every error reply the final item
      is not created: the store is what resolving the prefix left. */
  lemma CreateRefusals(s: Store, param: string, folder: bool)
    ensures param == "" ==> Create(s, param, folder) == (s, Usage)
    ensures param != "" && param[|param| - 1] == '/' ==>
      Create(s, param, folder).1 == InvalidName || Create(s, param, folder).1.NoTarget?
    ensures var reply := Create(s, param, folder).1;
      reply != Created && reply != Refused && param != "" ==>
        Create(s, param, folder).0 == Target(s, SplitLast(param, '/').0, folder).0
  {
    if param != "" && param[|param| - 1] == '/' {
      SplitLastRebuilds(param, '/');
    }
  }

  /** When the prefix does not resolve, `touch` reports it and changes nothing; `mkdir` reports it too, keeping the
      folders its walk created before the refused segment. */
  lemma CreateNoTarget(s: Store, param: string, folder: bool)
    requires param != "" && SplitLast(param, '/').0 != ""
    requires ResolvePath(s, SplitLast(param, '/').0, folder).1.None?
    ensures Create(s, param, folder) ==
      (ResolvePath(s, SplitLast(param, '/').0, folder).0, NoTarget(SplitLast(param, '/').0))
    ensures !folder ==> Create(s, param, folder).0 == s
  {
    var prefix := SplitLast(param, '/').0;
    TargetIsWalk(s, prefix, folder);
    ResolveSegsGrows(s, PrefixSegs(prefix), folder);
  }

  /** `touch` under a path that does not resolve answers that the path does not exist and changes nothing. */
  lemma TouchMissingPath(s: Store, cmd: string)
    requires CommandWord(cmd) == "touch" && Param(cmd) != "" && SplitLast(Param(cmd), '/').0 != ""
    requires ResolvePath(s, SplitLast(Param(cmd), '/').0, false).1.None?
    ensures Command(s, cmd) ==
      Outcome(s, Some("Error: Path '" + SplitLast(Param(cmd), '/').0 + "' does not exist."), false)
  {
    var param := Param(cmd);
    var prefix := SplitLast(param, '/').0;
    CreateNoTarget(s, param, false);
    assert TouchText(param, Create(s, param, false).1) == "Error: Path '" + prefix + "' does not exist.";
  }

  /** Creating a file changes nothing on refusal; on success it appends one file, named and placed as asked, makes it
      the active file and only opens an item besides. */
  lemma CreateFileFacts(s: Store, target: NodeId, name: string)
    ensures var (r, reply) := CreateIn(s, target, name, false);
      && Extends(s.files, r.files)
      && (reply == Refused ==> r == s)
      && (reply == Created ==>
            && |r.files| == |s.files| + 1 && r.files[|s.files|].kind == File
            && r.files[|s.files|].name == name && r.files[|s.files|].parentId == Some(target)
            && r.active == Some(r.files[|s.files|].id))
  {
    AddFileOutcome(s, Some(target), name);
    OpenItemShape(s.files, target);
    var (r, res) := AddFileOp(s, Some(target), name);
    if res.Some? {
      assert Extends(OpenItem(s.files, target), r.files);
      ExtendsTrans(s.files, OpenItem(s.files, target), r.files);
    }
  }

  /** `touch` never creates a folder and never touches the items already there beyond opening the target; it changes
      the store exactly when it reports success, and then the new file is the active file, named by the last segment
      and placed in the folder the prefix names. */
  lemma TouchOutcome(s: Store, param: string)
    ensures var (r, reply) := Create(s, param, false);
      && Extends(s.files, r.files)
      && (r != s <==> reply == Created)
      && (reply == Created ==>
            && |r.files| == |s.files| + 1 && r.files[|s.files|].kind == File
            && r.files[|s.files|].name == SplitLast(param, '/').1
            && r.files[|s.files|].parentId == Target(s, SplitLast(param, '/').0, false).1
            && r.active == Some(r.files[|s.files|].id))
  {
    if param != "" {
      var (prefix, name) := SplitLast(param, '/');
      TargetIsWalk(s, prefix, false);
      ResolveSegsGrows(s, PrefixSegs(prefix), false);
      var (s1, target) := Target(s, prefix, false);
      if target.Some? && name != "" {
        CreateFileFacts(s, target.value, name);
      }
    }
  }

  /** The segments a prefix is walked along: none for a root path. */
  function PrefixSegs(prefix: string): seq<string> {
    if IsRootPath(prefix) then [] else Segments(prefix)
  }

  /** The target of a command is the walk along the prefix's segments. */
  lemma TargetIsWalk(s: Store, prefix: string, create: bool)
    ensures Target(s, prefix, create) == ResolveSegs(s, PrefixSegs(prefix), create)
  {
  }

  /** Removing a leading "./" commutes with appending "/name", except for the prefix "." itself. */
  lemma StripDotSlashAppend(prefix: string, name: string)
    requires prefix != "."
    ensures StripDotSlash(prefix + "/" + name) == StripDotSlash(prefix) + "/" + name
  {
    var p := prefix + "/" + name;
    if |prefix| >= 2 {
      assert p[0] == prefix[0] && p[1] == prefix[1];
      if prefix[0] == '.' && prefix[1] == '/' {
        assert p[2..] == prefix[2..] + "/" + name;
      }
    } else if |prefix| == 1 {
      assert p[0] == prefix[0] != '.';
    } else {
      assert p[0] == '/';
    }
  }

  /** A path of two or more characters not ending in '/' is no root path. */
  lemma NotRootPath(p: string)
    requires |p| >= 2 && p[|p| - 1] != '/'
    ensures !IsRootPath(p)
  {
  }

  /** A single dot-free name is no root path and is one segment. */
  lemma SegmentsOfName(name: string)
    requires name != "" && '/' !in name && '.' !in name
    ensures !IsRootPath(name)
    ensures Segments(name) == [name]
  {
    assert name[0] in name;
    SplitNoSep(name, '/');
    assert StripDotSlash(name) == name;
    assert NonEmpty([name]) == [name] + NonEmpty([]);
  }

  /** `./name` is no root path and is the one segment `name`. */
  lemma SegmentsOfDotChild(name: string)
    requires name != "" && '/' !in name && '.' !in name
    ensures !IsRootPath("./" + name)
    ensures Segments("./" + name) == [name]
  {
    assert name[|name| - 1] in name;
    NotRootPath("./" + name);
    assert StripDotSlash("./" + name) == name;
    SegmentsOfName(name);
  }

  /** The segments of `prefix/name` are those the prefix is walked along, then the name. */
  lemma SegmentsAppend(prefix: string, name: string)
    requires prefix != "." && name != "" && '/' !in name
    ensures !IsRootPath(prefix + "/" + name)
    ensures Segments(prefix + "/" + name) == PrefixSegs(prefix) + [name]
  {
    assert name[|name| - 1] in name;
    NotRootPath(prefix + "/" + name);
    var p2 := StripDotSlash(prefix);
    StripDotSlashAppend(prefix, name);
    SplitNoSep(name, '/');
    SplitConcat(p2, '/', name);
    NonEmptyConcat(Split(p2, '/'), [name]);
    assert NonEmpty([name]) == [name] + NonEmpty([]);
    if IsRootPath(prefix) {
      assert p2 == "";
      assert NonEmpty([""]) == [] + NonEmpty([]);
    }
  }

  /** A parameter whose last segment is a dot-free, non-empty name is no root path, and its segments are those of its
      prefix followed by the name. */
  lemma SegmentsOfChild(param: string)
    requires SplitLast(param, '/').1 != "" && '.' !in SplitLast(param, '/').1
    ensures !IsRootPath(param)
    ensures Segments(param) == PrefixSegs(SplitLast(param, '/').0) + [SplitLast(param, '/').1]
  {
    SplitLastRebuilds(param, '/');
    var (prefix, name) := SplitLast(param, '/');
    if '/' !in param {
      SegmentsOfName(param);
    } else if prefix == "." {
      SegmentsOfDotChild(name);
    } else {
      SegmentsAppend(prefix, name);
    }
  }

  /** Creating a folder only opens an item and appends folders; the active id stays. */
  lemma CreateFolderFacts(s: Store, target: NodeId, name: string)
    ensures var r := CreateIn(s, target, name, true).0;
      && Extends(s.files, r.files) && r.active == s.active && s.next <= r.next
      && (forall k :: |s.files| <= k < |r.files| ==> r.files[k].kind == Folder)
  {
    AddFolderOutcome(s, Some(target), name);
    OpenItemShape(s.files, target);
    var r := AddFolderOp(s, Some(target), name).0;
    if r != s {
      assert Extends(OpenItem(s.files, target), r.files);
      ExtendsTrans(s.files, OpenItem(s.files, target), r.files);
    }
  }

  /** Items beyond the first list that are folders in the middle one stay folders in the last. */
  lemma FoldersChain(a: seq<Item>, b: seq<Item>, c: seq<Item>)
    requires Extends(a, b) && Extends(b, c)
    requires forall k :: |a| <= k < |b| ==> b[k].kind == Folder
    requires forall k :: |b| <= k < |c| ==> c[k].kind == Folder
    ensures Extends(a, c) && forall k :: |a| <= k < |c| ==> c[k].kind == Folder
  {
    ExtendsTrans(a, b, c);
    forall k | |a| <= k < |c| ensures c[k].kind == Folder {
      if k < |b| {
        assert SameShape(b[k], c[k]);
      }
    }
  }

  /** `mkdir` only adds folders and opens items, and keeps the active id. */
  lemma MkdirOutcome(s: Store, param: string)
    ensures var r := Create(s, param, true).0;
      && Extends(s.files, r.files) && r.active == s.active && s.next <= r.next
      && (forall k :: |s.files| <= k < |r.files| ==> r.files[k].kind == Folder)
  {
    if param != "" {
      var (prefix, name) := SplitLast(param, '/');
      TargetIsWalk(s, prefix, true);
      ResolveSegsGrows(s, PrefixSegs(prefix), true);
      var (s1, target) := Target(s, prefix, true);
      if target.Some? && name != "" && FindId(s1.files, AnyChildQuery(target.value, name)).None? {
        CreateFolderFacts(s1, target.value, name);
        FoldersChain(s.files, s1.files, CreateIn(s1, target.value, name, true).0.files);
      }
    }
  }

  /** A `mkdir` that reports success leaves a folder named by the last segment that the path, walked again without
      creating anything, resolves to. */
  lemma MkdirThenResolves(s: Store, param: string)
    requires Create(s, param, true).1 == Created
    ensures var r := Create(s, param, true).0;
      var found := ResolvePath(r, param, false);
      && found.0 == r && found.1.Some?
      && exists k :: 0 <= k < |r.files| && r.files[k].id == found.1.value && r.files[k].kind == Folder
                     && r.files[k].name == SplitLast(param, '/').1
  {
    var (prefix, name) := SplitLast(param, '/');
    var (s1, target) := Target(s, prefix, true);
    var s2 := AddFolderOp(s1, Some(target.value), name).0;
    AddFolderOutcome(s1, Some(target.value), name);
    SegmentsOfChild(param);
    QueriesNest(s1.files, target.value, name);
    CreatedFolderFound(s1, target.value, name);
    CreateFolderFacts(s1, target.value, name);
    var segs := PrefixSegs(prefix);
    TargetIsWalk(s, prefix, true);
    ResolveSegsStable(s, segs, true, s2, false);
    assert Init(segs + [name]) == segs && Last(segs + [name]) == name;
    assert s2.files[|s1.files|].kind == Folder && s2.files[|s1.files|].name == name;
  }

  /** `ls` lists every item whose parent is the root, and nothing else. */
  lemma {:induction false} RootEntriesListed(files: seq<Item>)
    ensures forall k :: 0 <= k < |files| && files[k].parentId == Some(Root) ==> ShowName(files[k]) in RootEntries(files)
    ensures forall n :: n in RootEntries(files) ==>
      exists k :: 0 <= k < |files| && files[k].parentId == Some(Root) && ShowName(files[k]) == n
  {
    if files != [] {
      RootEntriesListed(files[1..]);
      forall n | n in RootEntries(files)
        ensures exists k :: 0 <= k < |files| && files[k].parentId == Some(Root) && ShowName(files[k]) == n
      {
        if n !in RootEntries(files[1..]) {
          assert files[0].parentId == Some(Root) && ShowName(files[0]) == n;
        } else {
          var k :| 0 <= k < |files[1..]| && files[1..][k].parentId == Some(Root) && ShowName(files[1..][k]) == n;
          assert files[k + 1] == files[1..][k];
        }
      }
      forall k | 0 <= k < |files| && files[k].parentId == Some(Root) ensures ShowName(files[k]) in RootEntries(files) {
        if k > 0 {
          assert files[1..][k - 1] == files[k];
        }
      }
    }
  }

  /** The entries of a list extended by one item. */
  lemma {:induction false} RootEntriesSnoc(files: seq<Item>, x: Item)
    ensures RootEntries(files + [x]) == RootEntries(files) + (if x.parentId == Some(Root) then [ShowName(x)] else [])
  {
    if files == [] {
      assert [x][1..] == [];
    } else {
      assert (files + [x])[1..] == files[1..] + [x];
      RootEntriesSnoc(files[1..], x);
    }
  }

  /** Lists of the same shape have the same entries. */
  lemma {:induction false} RootEntriesSameShape(a: seq<Item>, b: seq<Item>)
    requires Extends(a, b) && |a| == |b|
    ensures RootEntries(a) == RootEntries(b)
  {
    if a != [] {
      assert SameShape(a[0], b[0]);
      assert Extends(a[1..], b[1..]) by {
        forall k | 0 <= k < |a[1..]| ensures SameShape(a[1..][k], b[1..][k]) {
          assert SameShape(a[k + 1], b[k + 1]);
        }
      }
      RootEntriesSameShape(a[1..], b[1..]);
    }
  }

  /** `ls` after a top-level item is appended (its parent opened first): the old listing followed by the new entry. */
  lemma ListingAfterAppend(files: seq<Item>, id: NodeId, x: Item)
    requires x.parentId == Some(Root)
    ensures Listing(OpenItem(files, id) + [x]) ==
      if RootEntries(files) == [] then ShowName(x) else Listing(files) + "  " + ShowName(x)
  {
    var o := OpenItem(files, id);
    OpenItemShape(files, id);
    RootEntriesSameShape(files, o);
    RootEntriesSnoc(o, x);
    if RootEntries(o) != [] {
      JoinSnoc(RootEntries(o), ShowName(x), "  ");
    } else {
      assert RootEntries(o + [x]) == [ShowName(x)];
    }
  }

  /** After `touch name` at the top level succeeds, `ls` shows the new file after the old entries. */
  lemma TouchThenListed(s: Store, name: string)
    requires '/' !in name && Create(s, name, false).1 == Created
    ensures var r := Create(s, name, false).0;
      Listing(r.files) == if RootEntries(s.files) == [] then name else Listing(s.files) + "  " + name
  {
    SplitLastRebuilds(name, '/');
    AddFileOutcome(s, Some(Root), name);
    var r := Create(s, name, false).0;
    var x := r.files[|s.files|];
    assert r.files == OpenItem(s.files, Root) + [x];
    ListingAfterAppend(s.files, Root, x);
  }

  /** `r` is well-formed and keeps every structural property `s` has: the active id naming a file, sibling names
      unique and every parent link resolving. */
  predicate Keeps(s: Store, r: Store) {
    && Inv(r)
    && (ActiveIsFile(s) ==> ActiveIsFile(r))
    && (SiblingNamesUnique(s.files) ==> SiblingNamesUnique(r.files))
    && (NoOrphans(s.files) ==> NoOrphans(r.files))
  }

  /** The creation step under an issued folder of the list keeps the store's structure. */
  lemma CreateInKeepsInv(s: Store, target: NodeId, name: string, folder: bool)
    requires Inv(s) && Rank(target) <= s.next && InList(s.files, target)
    ensures Keeps(s, CreateIn(s, target, name, folder).0)
  {
    if folder {
      AddFolderKeepsInv(s, Some(target), name);
      AddFolderKeepsShape(s, Some(target), name);
    } else {
      AddFileKeepsInv(s, Some(target), name);
      AddFileKeepsShape(s, Some(target), name);
    }
  }

  /** Resolving the target keeps the store's structure and yields an issued folder of the list. */
  lemma TargetKeepsInv(s: Store, prefix: string, create: bool)
    requires Inv(s)
    ensures var (r, target) := Target(s, prefix, create);
      && Keeps(s, r)
      && (target.Some? ==> Rank(target.value) <= r.next && InList(r.files, target.value))
  {
    TargetIsWalk(s, prefix, create);
    ResolveSegsKeepsInv(s, PrefixSegs(prefix), create);
    ResolveSegsShape(s, PrefixSegs(prefix), create);
  }

  /** Keeping the structure is transitive. */
  lemma KeepsTrans(a: Store, b: Store, c: Store)
    requires Keeps(a, b) && Keeps(b, c)
    ensures Keeps(a, c)
  {
  }

  /** `mkdir` and `touch` keep a well-formed store well-formed, the active id naming a file, sibling names unique and
      every parent link resolving. */
  lemma CreateKeepsInv(s: Store, param: string, folder: bool)
    requires Inv(s)
    ensures Keeps(s, Create(s, param, folder).0)
  {
    if param != "" {
      var (prefix, name) := SplitLast(param, '/');
      TargetKeepsInv(s, prefix, folder);
      var (s1, target) := Target(s, prefix, folder);
      if target.Some? && name != "" && FindId(s1.files, AnyChildQuery(target.value, name)).None? {
        CreateInKeepsInv(s1, target.value, name, folder);
        KeepsTrans(s, s1, CreateIn(s1, target.value, name, folder).0);
      }
    }
  }

  /** Every command keeps a well-formed store well-formed, the active id naming a file, sibling names unique and every
      parent link resolving. */
  lemma CommandKeepsInv(s: Store, cmd: string)
    requires Inv(s)
    ensures Keeps(s, Command(s, cmd).store)
  {
    var command := CommandWord(cmd);
    if command == "mkdir" {
      CreateKeepsInv(s, Param(cmd), true);
    } else if command == "touch" {
      CreateKeepsInv(s, Param(cmd), false);
    }
  }

  // ----- The commands on the store object -----

  /** The `mkdir` (`folder`) or `touch` case of `handleCommand`, working on the store object. */
  method CreateAt(fs: FileSystem, param: string, folder: bool) returns (reply: Reply)
    requires fs.Valid()
    modifies fs
    ensures fs.Valid()
    ensures (fs.State(), reply) == Create(old(fs.State()), param, folder)
  {
    if param == "" {
      return Usage;
    }
    var (prefix, name) := SplitLast(param, '/');
    var targetParentId := Root;
    if prefix != "" {
      var resolvedId := ResolvePathToId(fs, prefix, folder);
      if resolvedId.None? {
        return NoTarget(prefix);
      }
      targetParentId := resolvedId.value;
    }
    if name == "" {
      return InvalidName;
    }
    var duplicate := FindId(fs.files, AnyChildQuery(targetParentId, name));
    if duplicate.Some? {
      return Taken(name);
    }
    var result;
    if folder {
      result := fs.AddFolder(Some(targetParentId), name);
    } else {
      result := fs.AddFile(Some(targetParentId), name);
    }
    reply := if result.Some? then Created else Refused;
  }

  /** `handleCommand(cmd)` on the store object: the text it returns and whether it called `onClear`. */
  method HandleCommand(fs: FileSystem, cmd: string) returns (output: Option<string>, cleared: bool)
    requires fs.Valid()
    modifies fs
    ensures fs.Valid()
    ensures Outcome(fs.State(), output, cleared) == Command(old(fs.State()), cmd)
  {
    var command := CommandWord(cmd);
    var param := Param(cmd);
    cleared := false;
    if command == "help" {
      output := Some(HelpText);
    } else if command == "clear" {
      output, cleared := None, true;
    } else if command == "ls" {
      output := Some(Listing(fs.files));
    } else if command == "mkdir" {
      var reply := CreateAt(fs, param, true);
      output := Some(MkdirText(param, reply));
    } else if command == "touch" {
      var reply := CreateAt(fs, param, false);
      output := Some(TouchText(param, reply));
    } else {
      output := Some("command not found: " + command);
    }
  }

  /** `handleKeyDown` on the store object: the new input line, the line written to the log, and whether the log was
      cleared. */
  method HandleKeyDown(fs: FileSystem, key: string, input: string) returns (newInput: string, logged: Option<string>, cleared: bool)
    requires fs.Valid()
    modifies fs
    ensures fs.Valid()
    ensures KeyResult(fs.State(), newInput, logged, cleared) == KeyDown(old(fs.State()), key, input)
  {
    newInput, logged, cleared := input, None, false;
    if key != "Enter" {
      return;
    }
    var cmd := Trim(input);
    if cmd == "" {
      return;
    }
    if cmd == "clear" {
      cleared := true;
    } else {
      var output;
      output, cleared := HandleCommand(fs, cmd);
      if output.Some? && output.value != "" {
        logged := output;
      }
    }
    newInput := "";
  }
}
