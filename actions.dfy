/**
 * The key-action resolver: what Enter and Tab / Shift+Tab do to an editor
 * state. Every handler builds a new state from draft-js primitives and never
 * changes its input.
 */
module Actions {
  import opened Document

  const TAB_CHARACTER: char := '\t'

  /** String.prototype.repeat for a one-character string. */
  function Repeat(c: char, n: nat): (r: string)
    ensures |r| == n && forall i :: 0 <= i < n ==> r[i] == c
  {
    seq(n, _ => c)
  }

  /** getTabInfo: the length of the run of tabs the line starts with (the match of /^\t+/, or 0). */
  function TabCount(line: string): (n: nat)
    ensures n <= |line|
    ensures forall i :: 0 <= i < n ==> line[i] == TAB_CHARACTER
    ensures n == |line| || line[n] != TAB_CHARACTER
  {
    if |line| > 0 && line[0] == TAB_CHARACTER then 1 + TabCount(line[1..]) else 0
  }

  /** Only the leading run counts: n tabs followed by anything add exactly n to the count of the rest. */
  lemma {:induction false} TabCountAfterTabs(n: nat, rest: string)
    ensures TabCount(Repeat(TAB_CHARACTER, n) + rest) == n + TabCount(rest)
  {
    var s := Repeat(TAB_CHARACTER, n) + rest;
    if n > 0 {
      assert s[1..] == Repeat(TAB_CHARACTER, n - 1) + rest;
      TabCountAfterTabs(n - 1, rest);
    } else {
      assert s == rest;
    }
  }

  /** A line that does not start with a tab has count 0, whatever follows (tabs and spaces included). */
  lemma {:induction false} TabCountOfUnindented(n: nat, rest: string)
    requires rest == [] || rest[0] != TAB_CHARACTER
    ensures TabCount(Repeat(TAB_CHARACTER, n) + rest) == n
  {
    TabCountAfterTabs(n, rest);
  }

  /** getInfo: the block holding the selection's start. */
  function StartBlock(es: EditorState): (block: Line)
    requires ValidState(es)
    ensures block in es.doc && block.key == es.sel.anchorKey
    ensures block.text == TextOf(es.doc, es.sel.anchorKey)
  {
    es.doc[FindIndex(es.doc, es.sel.anchorKey)]
  }

  /** What getSelectionInfo returns. */
  datatype SelectionInfo = SelectionInfo(key: Key, currText: string, before: string, after: string)

  /** getSelectionInfo: the anchor line's text, split around the selected range. */
  function GetSelectionInfo(es: EditorState): (info: SelectionInfo)
    requires ValidState(es)
    ensures info.key == es.sel.anchorKey && info.currText == TextOf(es.doc, info.key)
    ensures |info.before| == es.sel.StartOffset()
    ensures info.currText == info.before + info.currText[es.sel.StartOffset()..es.sel.EndOffset()] + info.after
  {
    var text := TextOf(es.doc, es.sel.anchorKey);
    SelectionInfo(es.sel.anchorKey, text, text[..es.sel.StartOffset()], text[es.sel.EndOffset()..])
  }

  /**
   * onEnter: split the start line at the selection and give the new line the
   * leading tabs of the line as it was before the split.
   */
  function OnEnter(es: EditorState, newKey: Key): (r: EditorState)
    requires ValidState(es) && newKey !in Keys(es.doc)
    ensures ValidState(r) && Keys(r.doc) == Keys(es.doc) + {newKey}
    ensures
      var key := es.sel.anchorKey;
      var i := FindIndex(es.doc, key);
      var t := es.doc[i].text;
      var tabCount := TabCount(t);
      && r.doc == ReplaceByTwo(es.doc, i, Line(key, t[..es.sel.StartOffset()]),
                               Line(newKey, Repeat(TAB_CHARACTER, tabCount) + t[es.sel.EndOffset()..]))
      && r.sel == Caret(newKey, tabCount)
    ensures TabCount(TextOf(es.doc, es.sel.anchorKey)) == 0 ==> r == SplitBlock(es.doc, es.sel, newKey)
  {
    var block := StartBlock(es);
    var split := SplitBlock(es.doc, es.sel, newKey);
    var tabCount := TabCount(block.text);
    if tabCount > 0 then
      SplitThenIndent(es, newKey, Repeat(TAB_CHARACTER, tabCount));
      InsertText(split.doc, split.sel, Repeat(TAB_CHARACTER, tabCount))
    else
      assert Repeat(TAB_CHARACTER, 0) + block.text[es.sel.EndOffset()..] == block.text[es.sel.EndOffset()..];
      split
  }

  /** Inserting text at the caret that splitting leaves puts it at the start of the new line. */
  lemma SplitThenIndent(es: EditorState, newKey: Key, tabs: string)
    requires ValidState(es) && newKey !in Keys(es.doc)
    ensures
      var split := SplitBlock(es.doc, es.sel, newKey);
      var i := FindIndex(es.doc, es.sel.anchorKey);
      var t := es.doc[i].text;
      var r := InsertText(split.doc, split.sel, tabs);
      && r.doc == ReplaceByTwo(es.doc, i, Line(es.sel.anchorKey, t[..es.sel.StartOffset()]), Line(newKey, tabs + t[es.sel.EndOffset()..]))
      && r.sel == Caret(newKey, |tabs|)
  {
    var split := SplitBlock(es.doc, es.sel, newKey);
    var i := FindIndex(es.doc, es.sel.anchorKey);
    var t := es.doc[i].text;
    var after := t[es.sel.EndOffset()..];
    var first := Line(es.sel.anchorKey, t[..es.sel.StartOffset()]);
    assert split.doc == ReplaceByTwo(es.doc, i, first, Line(newKey, after));
    IndexOfKey(split.doc, i + 1);
    assert after[..0] + tabs + after[0..] == tabs + after;
    assert split.doc[i + 1 := Line(newKey, tabs + after)] == ReplaceByTwo(es.doc, i, first, Line(newKey, tabs + after));
  }

  /**
   * onTab: without Shift, put a tab at the caret; with Shift, remove the
   * line's first character when the line starts with a tab, and put both ends
   * of the selection one before the selection's start.
   */
  function OnTab(es: EditorState, shift: bool): (r: EditorState)
    requires ValidState(es)
    requires !shift ==> es.sel.IsCollapsed()
    ensures Keys(r.doc) == Keys(es.doc) && r.sel.anchorKey == r.sel.focusKey == es.sel.anchorKey
    ensures
      var key := es.sel.anchorKey;
      var i := FindIndex(es.doc, key);
      var t := es.doc[i].text;
      var k := es.sel.StartOffset();
      && (!shift ==> r.doc == es.doc[i := Line(key, t[..k] + [TAB_CHARACTER] + t[k..])] && r.sel == Caret(key, k + 1))
      && (shift && TabCount(t) == 0 ==> r == es)
      && (shift && TabCount(t) > 0 ==>
            r.doc == es.doc[i := Line(key, t[1..])] &&
            r.sel == Selection(key, k - 1, key, k - 1))
  {
    var block := StartBlock(es);
    if !shift then
      InsertText(es.doc, es.sel, [TAB_CHARACTER])
    else if TabCount(block.text) == 0 then
      es
    else
      var info := GetSelectionInfo(es);
      var targetSel := Selection(es.sel.anchorKey, 0, es.sel.anchorKey, 1);
      var removed := RemoveRange(es.doc, targetSel);
      var targetOffset := |info.before| - 1;
      assert block.text[..0] + block.text[1..] == block.text[1..];
      ForceSelection(removed, es.sel.(anchorOffset := targetOffset, focusOffset := targetOffset))
  }

  /** Shift+Tab on an indented line lowers the line's tab count by exactly one. */
  lemma OutdentRemovesOneTab(es: EditorState)
    requires ValidState(es) && TabCount(TextOf(es.doc, es.sel.anchorKey)) > 0
    ensures var r := OnTab(es, true);
      TabCount(TextOf(r.doc, es.sel.anchorKey)) == TabCount(TextOf(es.doc, es.sel.anchorKey)) - 1
  {
    var i := FindIndex(es.doc, es.sel.anchorKey);
    UpdateKeepsKeys(es.doc, i, Line(es.sel.anchorKey, es.doc[i].text[1..]));
  }

  /**
   * After Shift+Tab on an indented line the selection is valid exactly when
   * it started at offset 1 or later; from offset 0 both offsets become -1.
   */
  lemma OutdentSelectionInRange(es: EditorState)
    requires ValidState(es) && TabCount(TextOf(es.doc, es.sel.anchorKey)) > 0
    ensures ValidState(OnTab(es, true)) <==> es.sel.StartOffset() >= 1
    ensures es.sel.StartOffset() == 0 ==> OnTab(es, true).sel.anchorOffset == -1
  {
    var i := FindIndex(es.doc, es.sel.anchorKey);
    var l := Line(es.sel.anchorKey, es.doc[i].text[1..]);
    UpdateKeepsKeys(es.doc, i, l);
  }

  /** Tab at the start of a line followed by Shift+Tab gives back the state exactly. */
  lemma TabThenOutdentAtLineStart(es: EditorState)
    requires ValidState(es) && es.sel.IsCollapsed() && es.sel.anchorOffset == 0
    ensures ValidState(OnTab(es, false))
    ensures OnTab(OnTab(es, false), true) == es
  {
    var key := es.sel.anchorKey;
    var i := FindIndex(es.doc, key);
    var t := es.doc[i].text;
    var l := Line(key, t[..0] + [TAB_CHARACTER] + t[0..]);
    UpdateKeepsKeys(es.doc, i, l);
    var mid := OnTab(es, false);
    assert mid.doc == es.doc[i := l];
    assert TabCount(l.text) > 0;
    assert l.text[1..] == t;
    assert mid.doc[i := Line(key, l.text[1..])] == es.doc;
  }

  /** Cutting pre + t + post around a range of t. */
  lemma Splice(pre: string, t: string, post: string, s: nat, e: nat)
    requires s <= e <= |t|
    ensures (pre + t + post)[..|pre| + s] == pre + t[..s]
    ensures (pre + t + post)[|pre| + e..] == t[e..] + post
  {
  }

  /** Dropping the first character of t from pre + t + post. */
  lemma DropFirst(pre: string, t: string, post: string)
    requires |t| > 0
    ensures (pre + t + post)[|pre|] == t[0]
    ensures (pre + t + post)[..|pre|] + (pre + t + post)[|pre| + 1..] == pre + t[1..] + post
  {
    var flat := pre + t + post;
    assert flat[..|pre|] == pre;
    assert flat[|pre| + 1..] == t[1..] + post;
  }

  /** Replacing t[s..e] in pre + t + post by a newline and the tabs. */
  lemma SpliceNewline(pre: string, t: string, post: string, s: nat, e: nat, tabs: string)
    requires s <= e <= |t|
    ensures var flat := pre + t + post;
      pre + t[..s] + "\n" + (tabs + t[e..]) + post == flat[..|pre| + s] + "\n" + tabs + flat[|pre| + e..]
  {
    Splice(pre, t, post, s, e);
    var a, b := t[..s], t[e..];
    assert pre + a + "\n" + (tabs + b) + post == (pre + a) + "\n" + tabs + (b + post);
  }

  /** Splitting line i at s..e and indenting the second half, seen in the plain text. */
  lemma PlainTextOfSplitLine(doc: seq<Line>, i: int, s: nat, e: nat, newKey: Key, tabs: string)
    requires 0 <= i < |doc| && s <= e <= |doc[i].text|
    ensures var p, t := LineStart(doc, i), doc[i].text;
      var flat := PlainText(doc);
      && p + e <= |flat|
      && PlainText(ReplaceByTwo(doc, i, Line(doc[i].key, t[..s]), Line(newKey, tabs + t[e..])))
         == flat[..p + s] + "\n" + tabs + flat[p + e..]
  {
    var t := doc[i].text;
    var pre, post := Before(doc[..i]), After(doc[i + 1..]);
    PlainTextAt(doc, i);
    PlainTextSplit(doc, i, Line(doc[i].key, t[..s]), Line(newKey, tabs + t[e..]));
    SpliceNewline(pre, t, post, s, e, tabs);
  }

  /**
   * In the document's plain text, Enter replaces the selected range by a
   * newline followed by the start line's leading tabs.
   */
  lemma OnEnterPlainText(es: EditorState, newKey: Key)
    requires ValidState(es) && newKey !in Keys(es.doc)
    ensures
      var i := FindIndex(es.doc, es.sel.anchorKey);
      var p := LineStart(es.doc, i);
      var flat := PlainText(es.doc);
      var tabs := Repeat(TAB_CHARACTER, TabCount(es.doc[i].text));
      p + es.sel.EndOffset() <= |flat| &&
      PlainText(OnEnter(es, newKey).doc) == flat[..p + es.sel.StartOffset()] + "\n" + tabs + flat[p + es.sel.EndOffset()..]
  {
    var i := FindIndex(es.doc, es.sel.anchorKey);
    var tabs := Repeat(TAB_CHARACTER, TabCount(es.doc[i].text));
    PlainTextOfSplitLine(es.doc, i, es.sel.StartOffset(), es.sel.EndOffset(), newKey, tabs);
  }

  /** Inserting the character c at offset k of t in pre + t + post. */
  lemma SpliceChar(pre: string, t: string, post: string, k: nat, c: char)
    requires k <= |t|
    ensures var flat := pre + t + post;
      pre + (t[..k] + [c] + t[k..]) + post == flat[..|pre| + k] + [c] + flat[|pre| + k..]
  {
    Splice(pre, t, post, k, k);
    assert pre + (t[..k] + [c] + t[k..]) + post == (pre + t[..k]) + [c] + (t[k..] + post);
  }

  /** Inserting one character into line i at k, seen in the plain text. */
  lemma PlainTextOfInsertion(doc: seq<Line>, i: int, k: nat, c: char)
    requires 0 <= i < |doc| && k <= |doc[i].text|
    ensures var p, t := LineStart(doc, i), doc[i].text;
      var flat := PlainText(doc);
      && p + k <= |flat|
      && PlainText(doc[i := Line(doc[i].key, t[..k] + [c] + t[k..])]) == flat[..p + k] + [c] + flat[p + k..]
  {
    var t := doc[i].text;
    var pre, post := Before(doc[..i]), After(doc[i + 1..]);
    PlainTextAt(doc, i);
    PlainTextUpdate(doc, i, Line(doc[i].key, t[..k] + [c] + t[k..]));
    SpliceChar(pre, t, post, k, c);
  }

  /** In the plain text, Tab without Shift inserts one tab at the caret. */
  lemma OnTabPlainText(es: EditorState)
    requires ValidState(es) && es.sel.IsCollapsed()
    ensures
      var i := FindIndex(es.doc, es.sel.anchorKey);
      var c := LineStart(es.doc, i) + es.sel.anchorOffset;
      var flat := PlainText(es.doc);
      c <= |flat| && PlainText(OnTab(es, false).doc) == flat[..c] + [TAB_CHARACTER] + flat[c..]
  {
    var i := FindIndex(es.doc, es.sel.anchorKey);
    PlainTextOfInsertion(es.doc, i, es.sel.anchorOffset, TAB_CHARACTER);
  }

  /** In the plain text, Shift+Tab on an indented line deletes the character that starts the line. */
  lemma OutdentPlainText(es: EditorState)
    requires ValidState(es) && TabCount(TextOf(es.doc, es.sel.anchorKey)) > 0
    ensures
      var p := LineStart(es.doc, FindIndex(es.doc, es.sel.anchorKey));
      var flat := PlainText(es.doc);
      p < |flat| && flat[p] == TAB_CHARACTER &&
      PlainText(OnTab(es, true).doc) == flat[..p] + flat[p + 1..]
  {
    var r := OnTab(es, true);
    var key := es.sel.anchorKey;
    var i := FindIndex(es.doc, key);
    var t := es.doc[i].text;
    var pre, post := Before(es.doc[..i]), After(es.doc[i + 1..]);
    PlainTextAt(es.doc, i);
    PlainTextUpdate(es.doc, i, Line(key, t[1..]));
    assert r.doc == es.doc[i := Line(key, t[1..])];
    DropFirst(pre, t, post);
  }
}
