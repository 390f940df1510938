/** The application shell around the store: where a create dialog puts its item, the source-control badge, and the
    assembly of the preview page. */
module App {
  import opened Common
  import opened JsStrings
  import opened FsTypes
  import opened Templates
  import opened NodeStore
  import opened Merge

  // ----- Where new items go -----

  /** `resolveParentId(parentId)`: an explicit parent wins; otherwise the active item decides (a folder is its own
      target, a file its parent's), and with nothing active the root. */
  function ResolveParentId(s: Store, parentId: Option<NodeId>): NodeId {
    if parentId.Some? then parentId.value
    else
      match ActiveFile(s)
      case Some(f) => if f.kind == Folder then f.id else ParentKey(f.parentId)
      case None => Root
  }

  /** The active item's target is an item already in the list, and its id was issued. */
  lemma ActiveTargetExists(s: Store, f: Item)
    requires Inv(s) && NoOrphans(s.files) && ActiveFile(s) == Some(f)
    ensures InList(s.files, ResolveParentId(s, None)) && Rank(ResolveParentId(s, None)) <= s.next
  {
    var a :| 0 <= a < |s.files| && s.files[a] == f;
    if f.kind != Folder {
      var j :| 0 <= j < |s.files| && s.files[j].id == f.parentId.value;
    }
  }

  /** An active id naming a file resolves to that file's parent. */
  lemma ActiveFileTarget(s: Store, f: Item)
    requires Inv(s) && ActiveIsFile(s) && ActiveFile(s) == Some(f)
    ensures ResolveParentId(s, None) == ParentKey(f.parentId)
  {
    var a :| 0 <= a < |s.files| && s.files[a] == f;
    var b :| 0 <= b < |s.files| && s.files[b].id == s.active.value && s.files[b].kind == File;
    assert s.files[a].id == s.files[b].id;
  }

  /** Without an explicit parent the target is the root or an item already in the list, never a dangling id, and its
      id was issued; with the active id naming a file, that file's parent folder. */
  lemma ResolvedParentExists(s: Store)
    requires Inv(s) && NoOrphans(s.files)
    ensures InList(s.files, ResolveParentId(s, None))
    ensures Rank(ResolveParentId(s, None)) <= s.next
    ensures ActiveIsFile(s) && ActiveFile(s).Some? ==> ResolveParentId(s, None) == ParentKey(ActiveFile(s).value.parentId)
    ensures ActiveFile(s).None? ==> ResolveParentId(s, None) == Root
  {
    if ActiveFile(s).Some? {
      var f := ActiveFile(s).value;
      ActiveTargetExists(s, f);
      if ActiveIsFile(s) {
        ActiveFileTarget(s, f);
      }
    } else {
      assert HasRoot(s.files);
    }
  }

  // ----- The source-control badge -----

  /** Some item carries the modified flag. */
  predicate HasUncommittedChanges(files: seq<Item>) {
    exists k :: 0 <= k < |files| && files[k].isModified
  }

  /** The badge shown next to the branch name. */
  function GitStatus(files: seq<Item>): string {
    if HasUncommittedChanges(files) then "modified" else "clean"
  }

  /** After a commit the badge reads clean. */
  lemma CommitMakesClean(files: seq<Item>)
    ensures GitStatus(SetAllUnmodifiedOp(files)) == "clean"
  {
    CommitClearsAll(files);
  }

  /** A created file is modified, so the badge reads modified after every successful `addFile`. */
  lemma NewFileMakesModified(s: Store, parentId: Option<NodeId>, name: string)
    requires AddFileOp(s, parentId, name).1.Some?
    ensures GitStatus(AddFileOp(s, parentId, name).0.files) == "modified"
  {
    AddFileOutcome(s, parentId, name);
    assert AddFileOp(s, parentId, name).0.files[|s.files|].isModified;
  }

  /** A created folder is not modified and opening its parent changes no flag: the badge is what it was. */
  lemma NewFolderKeepsBadge(s: Store, parentId: Option<NodeId>, name: string)
    ensures GitStatus(AddFolderOp(s, parentId, name).0.files) == GitStatus(s.files)
  {
    AddFolderOutcome(s, parentId, name);
    var (r, res) := AddFolderOp(s, parentId, name);
    if res.Some? {
      if HasUncommittedChanges(s.files) {
        var k :| 0 <= k < |s.files| && s.files[k].isModified;
        assert r.files[k].isModified;
      }
      if HasUncommittedChanges(r.files) {
        var k :| 0 <= k < |r.files| && r.files[k].isModified;
        assert k < |s.files| && s.files[k].isModified;
      }
    }
  }

  /** An edit of an item in the list makes the badge read modified. */
  lemma EditMakesModified(s: Store, newContent: string)
    requires s.active.Some? && InList(s.files, s.active.value)
    ensures GitStatus(UpdateContentOp(s, Some(newContent)).files) == "modified"
  {
    UpdateContentOutcome(s, Some(newContent));
    var j :| 0 <= j < |s.files| && s.files[j].id == s.active.value;
    assert UpdateContentOp(s, Some(newContent)).files[j].isModified;
  }

  /** Every generated file is marked modified, so a non-empty batch makes the badge read modified. */
  lemma MergeMakesModified(s: Store, batch: seq<GeneratedFile>)
    requires batch != []
    ensures GitStatus(MergeOp(s, batch).files) == "modified"
  {
    var st := MergeEntries(WithRoot(MergeState(s.files, s.next)), Init(batch));
    MergeEntryPlacesFile(st, Last(batch));
    assert MergeOp(s, batch).files[MergedIndex(st, Last(batch))].isModified;
  }

  // ----- The preview page -----

  const DefaultDocument :=
    "<!DOCTYPE html><html><head><title>Preview</title></head><body><div id=\"root\"></div></body></html>"

  /** Template-literal interpolation of a possibly missing content. */
  function ContentText(c: Option<string>): string {
    if c.None? then "undefined" else c.value
  }

  /** The index of the first item whose name ends with `suffix`. */
  function FirstEndingWith(files: seq<Item>, suffix: string): (r: Option<nat>)
    ensures r.Some? ==> r.value < |files| && EndsWith(files[r.value].name, suffix)
    ensures r.Some? ==> forall k :: 0 <= k < r.value ==> !EndsWith(files[k].name, suffix)
    ensures r.None? ==> forall k :: 0 <= k < |files| ==> !EndsWith(files[k].name, suffix)
  {
    if files == [] then None
    else if EndsWith(files[0].name, suffix) then Some(0)
    else
      match FirstEndingWith(files[1..], suffix)
      case None => None
      case Some(i) => Some(i + 1)
  }

  /** The page to start from: the content of the first `.html` item, or the default page when there is none or its
      content is missing or empty. */
  function BaseDocument(files: seq<Item>): string {
    match FirstEndingWith(files, ".html")
    case None => DefaultDocument
    case Some(k) => if files[k].content.None? || files[k].content.value == "" then DefaultDocument else files[k].content.value
  }

  /** One `<style>` element per item ending with `.css`, in list order. */
  function StyleTags(files: seq<Item>): seq<string> {
    if files == [] then []
    else (if EndsWith(files[0].name, ".css") then ["<style>" + ContentText(files[0].content) + "</style>"] else [])
         + StyleTags(files[1..])
  }

  /** One `<script>` element per item ending with `.js` or `.ts`, in list order. */
  function ScriptTags(files: seq<Item>): seq<string> {
    if files == [] then []
    else (if EndsWith(files[0].name, ".js") || EndsWith(files[0].name, ".ts")
          then ["<script>" + ContentText(files[0].content) + "</script>"] else [])
         + ScriptTags(files[1..])
  }

  function Styles(files: seq<Item>): string {
    Join(StyleTags(files), "\n")
  }

  function Scripts(files: seq<Item>): string {
    Join(ScriptTags(files), "\n")
  }

  /** `runCode` as written: `String.prototype.replace` with the blocks in the replacement string, which expands the `$`
      patterns of the user's code. */
  function PreviewAsWritten(files: seq<Item>): string {
    var base := BaseDocument(files);
    JsReplace(JsReplace(base, "</head>", Styles(files) + "</head>"), "</body>", Scripts(files) + "</body>")
  }

  /** The page with the styles inserted literally before the first `</head>`. */
  function WithStyles(files: seq<Item>): string {
    InsertBefore(BaseDocument(files), "</head>", Styles(files))
  }

  /** The intended preview: the styles inserted literally before the first `</head>`, then the scripts before the first
      `</body>` of the result. */
  function Preview(files: seq<Item>): string {
    InsertBefore(WithStyles(files), "</body>", Scripts(files))
  }

  /** Inserting before an occurring tag adds exactly the inserted text; without the tag nothing is added. */
  lemma InsertBeforeLength(doc: string, tag: string, text: string)
    ensures |InsertBefore(doc, tag, text)| == |doc| + (if IndexOf(doc, tag).Some? then |text| else 0)
  {
  }

  /** The preview is the base page with the two blocks added and nothing else: the styles go in just before the first
      `</head>` and the scripts just before the first `</body>` after that; a missing tag leaves its step's input as it
      is, and each block counts in the length only when its tag is present. */
  lemma PreviewAddsBlocks(files: seq<Item>)
    ensures forall i :: FirstOccurrence(BaseDocument(files), "</head>", i) ==>
      WithStyles(files) == BaseDocument(files)[..i] + Styles(files) + BaseDocument(files)[i..]
    ensures Absent(BaseDocument(files), "</head>") ==> WithStyles(files) == BaseDocument(files)
    ensures forall i :: FirstOccurrence(WithStyles(files), "</body>", i) ==>
      Preview(files) == WithStyles(files)[..i] + Scripts(files) + WithStyles(files)[i..]
    ensures Absent(WithStyles(files), "</body>") ==> Preview(files) == WithStyles(files)
    ensures |Preview(files)| == |BaseDocument(files)|
                                + (if IndexOf(BaseDocument(files), "</head>").Some? then |Styles(files)| else 0)
                                + (if IndexOf(WithStyles(files), "</body>").Some? then |Scripts(files)| else 0)
    ensures Absent(BaseDocument(files), "</head>") && Absent(BaseDocument(files), "</body>") ==>
      Preview(files) == BaseDocument(files)
  {
    var base := BaseDocument(files);
    forall i | FirstOccurrence(base, "</head>", i)
      ensures WithStyles(files) == base[..i] + Styles(files) + base[i..]
    {
      InsertBeforeFirst(base, "</head>", Styles(files), i);
    }
    if Absent(base, "</head>") {
      InsertBeforeAbsent(base, "</head>", Styles(files));
    }
    forall i | FirstOccurrence(WithStyles(files), "</body>", i)
      ensures Preview(files) == WithStyles(files)[..i] + Scripts(files) + WithStyles(files)[i..]
    {
      InsertBeforeFirst(WithStyles(files), "</body>", Scripts(files), i);
    }
    if Absent(WithStyles(files), "</body>") {
      InsertBeforeAbsent(WithStyles(files), "</body>", Scripts(files));
    }
    InsertBeforeLength(base, "</head>", Styles(files));
    InsertBeforeLength(WithStyles(files), "</body>", Scripts(files));
  }

  /** No `$` in the pieces, none in the joined text. */
  lemma {:induction false} JoinDollarFree(pieces: seq<string>, sep: string)
    requires '$' !in sep && forall k :: 0 <= k < |pieces| ==> '$' !in pieces[k]
    ensures '$' !in Join(pieces, sep)
  {
    if |pieces| > 1 {
      JoinDollarFree(pieces[1..], sep);
    }
  }

  /** No content holds a `$`: no style or script element does. */
  lemma {:induction false} TagsDollarFree(files: seq<Item>)
    requires forall k :: 0 <= k < |files| ==> '$' !in ContentText(files[k].content)
    ensures forall k :: 0 <= k < |StyleTags(files)| ==> '$' !in StyleTags(files)[k]
    ensures forall k :: 0 <= k < |ScriptTags(files)| ==> '$' !in ScriptTags(files)[k]
  {
    if files != [] {
      TagsDollarFree(files[1..]);
    }
  }

  /** As long as no content holds a `$`, the preview as written is the intended one. */
  lemma PreviewAgreesWithoutDollars(files: seq<Item>)
    requires forall k :: 0 <= k < |files| ==> '$' !in ContentText(files[k].content)
    ensures PreviewAsWritten(files) == Preview(files)
  {
    TagsDollarFree(files);
    JoinDollarFree(StyleTags(files), "\n");
    JoinDollarFree(ScriptTags(files), "\n");
    var base := BaseDocument(files);
    ReplaceIsInsert(base, "</head>", Styles(files));
    ReplaceIsInsert(InsertBefore(base, "</head>", Styles(files)), "</body>", Scripts(files));
  }

  /** Inserting nothing changes nothing, either way it is done. */
  lemma EmptyInsertion(doc: string, tag: string)
    requires '$' !in tag
    ensures InsertBefore(doc, tag, "") == doc
    ensures JsReplace(doc, tag, "" + tag) == doc
  {
    ReplaceIsInsert(doc, tag, "");
    if IndexOf(doc, tag).Some? {
      var i := IndexOf(doc, tag).value;
      assert doc[..i] + "" + doc[i..] == doc;
    }
  }

  /** Replacing an occurring tag by a text holding one `$$` and the tag yields one character less than inserting the text
      literally. */
  lemma DollarPairShortens(doc: string, tag: string, a: string, b: string)
    requires '$' !in a && '$' !in b && '$' !in tag && IndexOf(doc, tag).Some?
    ensures |JsReplace(doc, tag, a + "$$" + b + tag)| + 1 == |InsertBefore(doc, tag, a + "$$" + b)|
  {
    var i := IndexOf(doc, tag).value;
    assert '$' !in b + tag;
    assert a + "$$" + b + tag == a + "$$" + (b + tag);
    DollarsCollapse(a, b + tag, tag, doc[..i], doc[i + |tag|..]);
  }

  /** The two items of the counterexample below and what the preview takes from them. */
  lemma DollarPageParts(html: Item, js: Item)
    requires html == Item(Minted(0), "index.html", File, Some("<head></head><body></body>"), None, Some(Root),
                          false, false, None)
    requires js == Item(Minted(1), "app.js", File, Some("$$"), None, Some(Root), false, false, None)
    ensures BaseDocument([html, js]) == "<head></head><body></body>"
    ensures Styles([html, js]) == ""
    ensures Scripts([html, js]) == "<script>" + "$$" + "</script>"
  {
    var files := [html, js];
    assert EndsWith(html.name, ".html");
    assert files[1..] == [js] && [js][1..] == [];
    assert !EndsWith(js.name, ".css") && !EndsWith(html.name, ".css");
    assert EndsWith(js.name, ".js") && !EndsWith(html.name, ".js") && !EndsWith(html.name, ".ts");
    assert StyleTags([js]) == [] + StyleTags([]);
    assert StyleTags(files) == [] + StyleTags([js]);
    assert ContentText(js.content) == "$$";
    assert ScriptTags([js]) == ["<script>" + "$$" + "</script>"] + ScriptTags([]);
    assert ScriptTags(files) == [] + ScriptTags([js]);
  }

  /** With no styles and a single script `$$`, the page as written is one character shorter than the intended one. */
  lemma DollarScriptShortens(files: seq<Item>)
    requires Styles(files) == "" && Scripts(files) == "<script>" + "$$" + "</script>"
    requires IndexOf(BaseDocument(files), "</body>").Some?
    ensures |PreviewAsWritten(files)| + 1 == |Preview(files)|
  {
    var doc := BaseDocument(files);
    EmptyInsertion(doc, "</head>");
    DollarPairShortens(doc, "</body>", "<script>", "</script>");
  }

  /** A search for an occurring pattern finds something. */
  lemma OccurrenceFound(s: string, pat: string, i: nat)
    requires OccursAt(s, pat, i)
    ensures IndexOf(s, pat).Some?
  {
  }

  /** A page with one `.html` item and one script whose content is `$$`: the page as written is one character shorter
      than the intended one, because the script's `$$` comes out as `$`. */
  lemma PreviewAsWrittenLosesDollar(html: Item, js: Item)
    requires html == Item(Minted(0), "index.html", File, Some("<head></head><body></body>"), None, Some(Root),
                          false, false, None)
    requires js == Item(Minted(1), "app.js", File, Some("$$"), None, Some(Root), false, false, None)
    ensures |PreviewAsWritten([html, js])| + 1 == |Preview([html, js])|
  {
    DollarPageParts(html, js);
    var doc := "<head></head><body></body>";
    assert doc[19..26] == "</body>";
    OccurrenceFound(doc, "</body>", 19);
    DollarScriptShortens([html, js]);
  }
}
