/** The JavaScript string operations the workspace code relies on, with JavaScript's semantics. */
module JsStrings {
  import opened Common

  /** `toLowerCase` on one character; only the ASCII letters A-Z are folded. */
  function LowerChar(c: char): char {
    if 'A' <= c <= 'Z' then (c as int + 32) as char else c
  }

  /** `s.toLowerCase()`, ASCII letters only. */
  function Lower(s: string): string {
    seq(|s|, i requires 0 <= i < |s| => LowerChar(s[i]))
  }

  /** Lower-casing twice is lower-casing once, and it never changes the length. */
  lemma LowerIdempotent(s: string)
    ensures |Lower(s)| == |s|
    ensures Lower(Lower(s)) == Lower(s)
  {
    assert forall i :: 0 <= i < |s| ==> LowerChar(LowerChar(s[i])) == LowerChar(s[i]);
  }

  /** A string without upper-case ASCII letters is its own lower case. */
  lemma LowerUnchanged(s: string)
    requires forall k :: 0 <= k < |s| ==> !('A' <= s[k] <= 'Z')
    ensures Lower(s) == s
  {
  }

  /** `pieces.join(sep)`. */
  function Join(pieces: seq<string>, sep: string): string {
    if |pieces| == 0 then ""
    else if |pieces| == 1 then pieces[0]
    else pieces[0] + sep + Join(pieces[1..], sep)
  }

  /** `s.split(sep)` for a one-character separator: the pieces between separators, never an empty list. */
  function Split(s: string, sep: char): (r: seq<string>)
    ensures |r| >= 1
  {
    if s == [] then [""]
    else
      var rest := Split(s[1..], sep);
      if s[0] == sep then [""] + rest else [[s[0]] + rest[0]] + rest[1..]
  }

  /** Joining the pieces of a split with the separator gives the string back. */
  lemma {:induction false} SplitRejoins(s: string, sep: char)
    ensures Join(Split(s, sep), [sep]) == s
    decreases |s|
  {
    if s != [] {
      SplitRejoins(s[1..], sep);
      var rest := Split(s[1..], sep);
      if s[0] == sep {
        assert ([""] + rest)[1..] == rest;
      } else {
        var r := [[s[0]] + rest[0]] + rest[1..];
        assert r[1..] == rest[1..];
        assert s == [s[0]] + s[1..];
      }
    }
  }

  /** No piece of a split holds the separator. */
  lemma {:induction false} SplitPiecesSepFree(s: string, sep: char)
    ensures forall k :: 0 <= k < |Split(s, sep)| ==> sep !in Split(s, sep)[k]
    decreases |s|
  {
    if s != [] {
      SplitPiecesSepFree(s[1..], sep);
      var rest := Split(s[1..], sep);
      if s[0] != sep {
        assert sep !in [s[0]] + rest[0];
      }
    }
  }

  /** Splitting a joined list of separator-free pieces gives the pieces back. */
  lemma {:induction false} SplitJoin(pieces: seq<string>, sep: char)
    requires |pieces| >= 1
    requires forall k :: 0 <= k < |pieces| ==> sep !in pieces[k]
    ensures Split(Join(pieces, [sep]), sep) == pieces
  {
    if |pieces| == 1 {
      SplitNoSep(pieces[0], sep);
    } else {
      SplitJoin(pieces[1..], sep);
      SplitConcat(pieces[0], sep, Join(pieces[1..], [sep]));
      SplitNoSep(pieces[0], sep);
      assert pieces == [pieces[0]] + pieces[1..];
    }
  }

  /** A string without the separator splits into itself. */
  lemma {:induction false} SplitNoSep(s: string, sep: char)
    requires sep !in s
    ensures Split(s, sep) == [s]
  {
    if s != [] {
      assert sep !in s[1..];
      SplitNoSep(s[1..], sep);
      assert s == [s[0]] + s[1..];
    }
  }

  /** Splitting at one separator splits both halves independently. */
  lemma {:induction false} SplitConcat(a: string, sep: char, b: string)
    ensures Split(a + [sep] + b, sep) == Split(a, sep) + Split(b, sep)
  {
    if a == [] {
      assert a + [sep] + b == [sep] + b;
      SplitCons(sep, b, sep);
    } else {
      SplitConcat(a[1..], sep, b);
      SplitConcatStep(a[0], a[1..], sep, b);
      assert a == [a[0]] + a[1..];
      assert a + [sep] + b == [a[0]] + (a[1..] + [sep] + b);
    }
  }

  /** The inductive step of `SplitConcat`: one more character in front. */
  lemma SplitConcatStep(c: char, a: string, sep: char, b: string)
    requires Split(a + [sep] + b, sep) == Split(a, sep) + Split(b, sep)
    ensures Split([c] + (a + [sep] + b), sep) == Split([c] + a, sep) + Split(b, sep)
  {
    SplitCons(c, a + [sep] + b, sep);
    SplitCons(c, a, sep);
    if c != sep {
      HeadPieceAppend([c], Split(a, sep), Split(b, sep));
    }
  }

  /** Extending the first piece of a list of pieces commutes with appending further pieces. */
  lemma HeadPieceAppend(x: string, ra: seq<string>, rb: seq<string>)
    requires |ra| >= 1
    ensures [x + (ra + rb)[0]] + (ra + rb)[1..] == [x + ra[0]] + ra[1..] + rb
  {
    assert (ra + rb)[1..] == ra[1..] + rb;
  }

  /** The split of a string one character longer. */
  lemma SplitCons(c: char, t: string, sep: char)
    ensures Split([c] + t, sep) ==
      if c == sep then [""] + Split(t, sep) else [[c] + Split(t, sep)[0]] + Split(t, sep)[1..]
  {
    assert ([c] + t)[1..] == t;
  }

  /** The last element of a non-empty list (`parts.pop()`). */
  function Last<T>(s: seq<T>): T
    requires |s| >= 1
  {
    s[|s| - 1]
  }

  /** All but the last element (what `parts` holds after `parts.pop()`). */
  function Init<T>(s: seq<T>): seq<T>
    requires |s| >= 1
  {
    s[..|s| - 1]
  }

  /** `s.split(sep)` followed by `pop()` and `join(sep)`: the text before the last separator and the text after it. */
  function SplitLast(s: string, sep: char): (string, string) {
    var parts := Split(s, sep);
    (Join(Init(parts), [sep]), Last(parts))
  }

  /** The last piece holds no separator; with a separator in `s` the two halves rebuild `s`, without one the prefix is empty. */
  lemma {:induction false} SplitLastRebuilds(s: string, sep: char)
    ensures sep !in SplitLast(s, sep).1
    ensures sep !in s ==> SplitLast(s, sep) == ("", s)
    ensures sep in s ==> s == SplitLast(s, sep).0 + [sep] + SplitLast(s, sep).1
  {
    var parts := Split(s, sep);
    SplitPiecesSepFree(s, sep);
    SplitRejoins(s, sep);
    if sep !in s {
      SplitNoSep(s, sep);
    } else {
      assert |parts| >= 2;
      JoinSnoc(Init(parts), Last(parts), [sep]);
      assert Init(parts) + [Last(parts)] == parts;
    }
  }

  /** Joining a list extended by one piece appends the separator and that piece. */
  lemma {:induction false} JoinSnoc(pieces: seq<string>, x: string, sep: string)
    requires |pieces| >= 1
    ensures Join(pieces + [x], sep) == Join(pieces, sep) + sep + x
  {
    if |pieces| == 1 {
      assert (pieces + [x])[1..] == [x];
    } else {
      assert (pieces + [x])[1..] == pieces[1..] + [x];
      JoinSnoc(pieces[1..], x, sep);
    }
  }

  /** The pieces that are not empty (`filter(p => p.length > 0)`), in order. */
  function NonEmpty(pieces: seq<string>): (r: seq<string>)
    ensures forall k :: 0 <= k < |r| ==> r[k] != "" && r[k] in pieces
    ensures forall p :: p in pieces && p != "" ==> p in r
  {
    if pieces == [] then []
    else (if pieces[0] == "" then [] else [pieces[0]]) + NonEmpty(pieces[1..])
  }

  /** Filtering distributes over concatenation. */
  lemma {:induction false} NonEmptyConcat(a: seq<string>, b: seq<string>)
    ensures NonEmpty(a + b) == NonEmpty(a) + NonEmpty(b)
  {
    if a != [] {
      assert (a + b)[1..] == a[1..] + b;
      NonEmptyConcat(a[1..], b);
    } else {
      assert a + b == b;
    }
  }

  /** The white space `String.prototype.trim` removes: WhiteSpace and LineTerminator of ECMAScript. */
  predicate IsJsSpace(c: char) {
    var n := c as int;
    n == 0x09 || n == 0x0A || n == 0x0B || n == 0x0C || n == 0x0D || n == 0x20 || n == 0xA0
    || n == 0x1680 || (0x2000 <= n <= 0x200A) || n == 0x2028 || n == 0x2029 || n == 0x202F
    || n == 0x205F || n == 0x3000 || n == 0xFEFF
  }

  /** Drops the leading white space. */
  function TrimStart(s: string): (r: string)
    ensures |r| <= |s| && r == s[|s| - |r|..]
    ensures forall i :: 0 <= i < |s| - |r| ==> IsJsSpace(s[i])
    ensures r != "" ==> !IsJsSpace(r[0])
  {
    if s != [] && IsJsSpace(s[0]) then TrimStart(s[1..]) else s
  }

  /** Drops the trailing white space. */
  function TrimEnd(s: string): (r: string)
    ensures |r| <= |s| && r == s[..|r|]
    ensures forall i :: |r| <= i < |s| ==> IsJsSpace(s[i])
    ensures r != "" ==> !IsJsSpace(r[|r| - 1])
  {
    if s != [] && IsJsSpace(s[|s| - 1]) then TrimEnd(s[..|s| - 1]) else s
  }

  /** `s.trim()`: the result neither starts nor ends with white space. */
  function Trim(s: string): (r: string)
    ensures |r| <= |s|
    ensures r != "" ==> !IsJsSpace(r[0]) && !IsJsSpace(r[|r| - 1])
  {
    var t := TrimStart(s);
    var u := TrimEnd(t);
    assert u != "" ==> u[0] == t[0];
    u
  }

  /** `trim` yields the empty string exactly when `s` is all white space. */
  lemma TrimBlank(s: string)
    ensures Trim(s) == "" <==> forall k :: 0 <= k < |s| ==> IsJsSpace(s[k])
  {
    var t := TrimStart(s);
    var i := |s| - |t|;
    assert t == s[i..];
    if Trim(s) == "" {
      forall k | i <= k < |s| ensures IsJsSpace(s[k]) {
        assert s[k] == t[k - i];
      }
    }
  }

  /** A string without white space at either end is its own trim. */
  lemma TrimUntouched(s: string)
    requires s != "" ==> !IsJsSpace(s[0]) && !IsJsSpace(s[|s| - 1])
    ensures Trim(s) == s
  {
    assert TrimStart(s) == s;
    assert TrimEnd(s) == s;
  }

  /** Trimming twice is trimming once. */
  lemma TrimIdempotent(s: string)
    ensures Trim(Trim(s)) == Trim(s)
  {
    TrimUntouched(Trim(s));
  }

  /** `s.endsWith(suffix)`. */
  predicate EndsWith(s: string, suffix: string) {
    |suffix| <= |s| && s[|s| - |suffix|..] == suffix
  }

  /** `s.replace(/^\.\//, '')`: removes one leading "./". */
  function StripDotSlash(s: string): string {
    if |s| >= 2 && s[0] == '.' && s[1] == '/' then s[2..] else s
  }

  /** `pat` occurs in `s` at index `i`. */
  predicate OccursAt(s: string, pat: string, i: int) {
    0 <= i && i + |pat| <= |s| && s[i..i + |pat|] == pat
  }

  /** `i` is the first index at which `pat` occurs in `s`. */
  predicate FirstOccurrence(s: string, pat: string, i: int) {
    OccursAt(s, pat, i) && forall j :: 0 <= j < i ==> !OccursAt(s, pat, j)
  }

  /** `pat` occurs nowhere in `s`. */
  predicate Absent(s: string, pat: string) {
    forall j :: 0 <= j <= |s| ==> !OccursAt(s, pat, j)
  }

  /** `s.indexOf(pat, from)`: the first occurrence at or after `from`. */
  function IndexOfFrom(s: string, pat: string, from: nat): (r: Option<nat>)
    requires from <= |s|
    decreases |s| - from
    ensures r.Some? ==> from <= r.value && OccursAt(s, pat, r.value)
    ensures r.Some? ==> forall j :: from <= j < r.value ==> !OccursAt(s, pat, j)
    ensures r.None? ==> forall j :: from <= j <= |s| ==> !OccursAt(s, pat, j)
  {
    if from + |pat| > |s| then None
    else if s[from..from + |pat|] == pat then Some(from)
    else IndexOfFrom(s, pat, from + 1)
  }

  /** `s.indexOf(pat)`. */
  function IndexOf(s: string, pat: string): Option<nat> {
    IndexOfFrom(s, pat, 0)
  }

  /** `indexOf` finds the first occurrence, wherever it is. */
  lemma IndexOfFindsFirst(s: string, pat: string, i: int)
    requires FirstOccurrence(s, pat, i)
    ensures IndexOf(s, pat) == Some(i)
  {
  }

  /** Puts `text` in front of the first occurrence of `tag`; a document without `tag` is left as it is. */
  function InsertBefore(doc: string, tag: string, text: string): string {
    match IndexOf(doc, tag)
    case None => doc
    case Some(i) => doc[..i] + text + doc[i..]
  }

  /** The text goes in at the first occurrence of the tag, wherever that is; without one the document stays. */
  lemma InsertBeforeFirst(doc: string, tag: string, text: string, i: int)
    requires FirstOccurrence(doc, tag, i)
    ensures InsertBefore(doc, tag, text) == doc[..i] + text + doc[i..]
  {
    IndexOfFindsFirst(doc, tag, i);
  }

  /** A document without the tag is left as it is. */
  lemma InsertBeforeAbsent(doc: string, tag: string, text: string)
    requires Absent(doc, tag)
    ensures InsertBefore(doc, tag, text) == doc
  {
  }

  /** The expansion of a replacement string by `String.prototype.replace` with a string pattern (GetSubstitution with no
      capture groups): `$$` is one `$`, `$&` the matched text, `` $` `` the text before it, `$'` the text after it; every
      other `$` stands for itself. */
  function Substitute(t: string, matched: string, before: string, after: string): string
    decreases |t|
  {
    if t == [] then ""
    else if t[0] == '$' && |t| >= 2 && t[1] == '$' then "$" + Substitute(t[2..], matched, before, after)
    else if t[0] == '$' && |t| >= 2 && t[1] == '&' then matched + Substitute(t[2..], matched, before, after)
    else if t[0] == '$' && |t| >= 2 && t[1] == '`' then before + Substitute(t[2..], matched, before, after)
    else if t[0] == '$' && |t| >= 2 && t[1] == '\'' then after + Substitute(t[2..], matched, before, after)
    else [t[0]] + Substitute(t[1..], matched, before, after)
  }

  /** A replacement string without `$` is inserted literally. */
  lemma {:induction false} SubstituteLiteral(t: string, matched: string, before: string, after: string)
    requires '$' !in t
    ensures Substitute(t, matched, before, after) == t
  {
    if t != [] {
      assert '$' !in t[1..];
      SubstituteLiteral(t[1..], matched, before, after);
      assert t == [t[0]] + t[1..];
    }
  }

  /** `doc.replace(pat, replacement)` with a string pattern: only the first occurrence, and the replacement is expanded. */
  function JsReplace(doc: string, pat: string, replacement: string): string {
    match IndexOf(doc, pat)
    case None => doc
    case Some(i) => doc[..i] + Substitute(replacement, pat, doc[..i], doc[i + |pat|..]) + doc[i + |pat|..]
  }

  /** Replacing the first `tag` by `text + tag` is inserting `text` before it, as long as `text` and `tag` hold no `$`. */
  lemma ReplaceIsInsert(doc: string, tag: string, text: string)
    requires '$' !in text && '$' !in tag
    ensures JsReplace(doc, tag, text + tag) == InsertBefore(doc, tag, text)
  {
    if IndexOf(doc, tag).Some? {
      var i := IndexOf(doc, tag).value;
      ReplaceAtIsInsert(doc, tag, text, i);
    }
  }

  /** The step of `ReplaceIsInsert` at the occurrence `i`. */
  lemma ReplaceAtIsInsert(doc: string, tag: string, text: string, i: nat)
    requires '$' !in text && '$' !in tag && OccursAt(doc, tag, i)
    ensures doc[..i] + Substitute(text + tag, tag, doc[..i], doc[i + |tag|..]) + doc[i + |tag|..] == doc[..i] + text + doc[i..]
  {
    assert '$' !in text + tag;
    SubstituteLiteral(text + tag, tag, doc[..i], doc[i + |tag|..]);
    assert doc[i..] == tag + doc[i + |tag|..];
  }

  /** In a replacement, a `$$` between two `$`-free texts collapses to one `$`. */
  lemma {:induction false} DollarsCollapse(a: string, b: string, matched: string, before: string, after: string)
    requires '$' !in a && '$' !in b
    ensures Substitute(a + "$$" + b, matched, before, after) == a + "$" + b
  {
    if a == [] {
      assert "$$" + b == ['$', '$'] + b;
      assert (['$', '$'] + b)[2..] == b;
      SubstituteLiteral(b, matched, before, after);
    } else {
      assert (a + "$$" + b)[1..] == a[1..] + "$$" + b;
      assert '$' !in a[1..];
      DollarsCollapse(a[1..], b, matched, before, after);
      assert a + "$" + b == [a[0]] + (a[1..] + "$" + b);
    }
  }
}
