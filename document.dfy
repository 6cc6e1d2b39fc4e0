/**
 * The rich-text document model the editor runs on, reduced to what the key
 * handlers and the diagnostics use: an ordered sequence of keyed lines
 * (draft-js content blocks), a selection, and the four draft-js primitives
 * that the handlers call (Modifier.splitBlock, Modifier.insertText,
 * Modifier.removeRange and EditorState.forceSelection). SplitBlock,
 * InsertText and RemoveRange each yield the state that EditorState.push
 * produces: the new content together with the content's "selection after".
 * ForceSelection keeps the content and sets the given selection unchecked.
 */
module Document {

  type Key = string

  /** One content block: its stable key and its plain text. */
  datatype Line = Line(key: Key, text: string)

  /** A draft-js SelectionState: an anchor and a focus point. */
  datatype Selection = Selection(anchorKey: Key, anchorOffset: int, focusKey: Key, focusOffset: int)
  {
    /** isCollapsed: anchor and focus are the same point, so the range is empty. */
    function IsCollapsed(): (c: bool)
      ensures c <==> anchorKey == focusKey && StartOffset() == EndOffset()
    {
      anchorKey == focusKey && anchorOffset == focusOffset
    }

    /** getStartOffset on one line: the smaller of the two offsets. */
    function StartOffset(): int {
      if focusOffset < anchorOffset then focusOffset else anchorOffset
    }

    /** getEndOffset on one line: the larger of the two offsets. */
    function EndOffset(): int {
      if focusOffset < anchorOffset then anchorOffset else focusOffset
    }
  }

  /** The start and end of a one-line selection are its smaller and its larger offset. */
  lemma SelectionOffsets(sel: Selection)
    ensures sel.StartOffset() <= sel.anchorOffset && sel.StartOffset() <= sel.focusOffset
    ensures sel.StartOffset() == sel.anchorOffset || sel.StartOffset() == sel.focusOffset
    ensures sel.EndOffset() >= sel.anchorOffset && sel.EndOffset() >= sel.focusOffset
    ensures sel.EndOffset() == sel.anchorOffset || sel.EndOffset() == sel.focusOffset
  {
  }

  /** A collapsed selection (a caret) at the given line and offset. */
  function Caret(key: Key, offset: int): Selection {
    Selection(key, offset, key, offset)
  }

  /** An editor snapshot: the current content and the selection. */
  datatype EditorState = EditorState(doc: seq<Line>, sel: Selection)

  function Keys(doc: seq<Line>): set<Key> {
    set i | 0 <= i < |doc| :: doc[i].key
  }

  /** A block map never holds one key twice. */
  predicate DistinctKeys(doc: seq<Line>) {
    forall i, j :: 0 <= i < j < |doc| ==> doc[i].key != doc[j].key
  }

  /** Array.prototype.findIndex over the blocks: the first position holding key, or -1. */
  function FindIndex(doc: seq<Line>, key: Key): (r: int)
    ensures -1 <= r < |doc|
    ensures r == -1 <==> key !in Keys(doc)
    ensures 0 <= r ==> doc[r].key == key && forall j :: 0 <= j < r ==> doc[j].key != key
  {
    if |doc| == 0 then -1
    else if doc[0].key == key then 0
    else
      var r := FindIndex(doc[1..], key);
      assert forall j :: 1 <= j < |doc| ==> doc[j] == doc[1..][j - 1];
      assert key in Keys(doc) ==> key in Keys(doc[1..]) by {
        if key in Keys(doc) {
          var j :| 0 <= j < |doc| && doc[j].key == key;
          assert doc[1..][j - 1].key == key;
        }
      }
      if r == -1 then -1 else r + 1
  }

  lemma IndexOfKey(doc: seq<Line>, j: int)
    requires DistinctKeys(doc) && 0 <= j < |doc|
    ensures FindIndex(doc, doc[j].key) == j
  {
  }

  /** ContentState.getBlockForKey(key).getText() for a key that is present. */
  function TextOf(doc: seq<Line>, key: Key): string
    requires key in Keys(doc)
  {
    doc[FindIndex(doc, key)].text
  }

  /** Both offsets of sel lie within the line sel's anchor names. */
  predicate InBounds(doc: seq<Line>, sel: Selection)
    requires sel.anchorKey in Keys(doc)
  {
    0 <= sel.anchorOffset <= |TextOf(doc, sel.anchorKey)| &&
    0 <= sel.focusOffset <= |TextOf(doc, sel.anchorKey)|
  }

  /**
   * The states draft-js's own edits keep, with the selection kept on one
   * line (the key handlers can leave this set): keys are distinct, anchor
   * and focus name the same present line, and both offsets lie within that
   * line's text.
   */
  predicate ValidState(es: EditorState) {
    DistinctKeys(es.doc) &&
    es.sel.anchorKey == es.sel.focusKey &&
    es.sel.anchorKey in Keys(es.doc) &&
    InBounds(es.doc, es.sel)
  }

  /** Replacing one line by another with the same key keeps the keys and their positions. */
  lemma UpdateKeepsKeys(doc: seq<Line>, i: int, l: Line)
    requires DistinctKeys(doc) && 0 <= i < |doc| && l.key == doc[i].key
    ensures DistinctKeys(doc[i := l]) && Keys(doc[i := l]) == Keys(doc)
    ensures FindIndex(doc[i := l], l.key) == i
  {
    var d := doc[i := l];
    assert forall j :: 0 <= j < |d| ==> d[j].key == doc[j].key;
    assert Keys(d) == Keys(doc) by {
      forall k | k in Keys(doc) ensures k in Keys(d) {
        var j :| 0 <= j < |doc| && doc[j].key == k;
        assert d[j].key == k;
      }
    }
    IndexOfKey(d, i);
  }

  /** The document where line i is replaced by the two lines a and b. */
  function ReplaceByTwo(doc: seq<Line>, i: int, a: Line, b: Line): (d: seq<Line>)
    requires 0 <= i < |doc|
    ensures |d| == |doc| + 1 && d[i] == a && d[i + 1] == b
  {
    doc[..i] + [a, b] + doc[i + 1..]
  }

  /** The lines before i keep their positions and the lines after it move down by one. */
  lemma ReplaceByTwoElements(doc: seq<Line>, i: int, a: Line, b: Line)
    requires 0 <= i < |doc|
    ensures var d := ReplaceByTwo(doc, i, a, b);
      && (forall j :: 0 <= j < i ==> d[j] == doc[j])
      && (forall j :: i + 1 < j < |d| ==> d[j] == doc[j - 1])
  {
  }

  /** Splitting line i into a line with the old key and a line with a fresh key keeps keys distinct. */
  lemma SplitKeepsDistinct(doc: seq<Line>, i: int, a: Line, b: Line)
    requires DistinctKeys(doc) && 0 <= i < |doc|
    requires a.key == doc[i].key && b.key !in Keys(doc)
    ensures DistinctKeys(ReplaceByTwo(doc, i, a, b))
    ensures Keys(ReplaceByTwo(doc, i, a, b)) == Keys(doc) + {b.key}
  {
    var d := ReplaceByTwo(doc, i, a, b);
    ReplaceByTwoElements(doc, i, a, b);
    // Position p of d holds the key of position Old(p) of doc, except the new line.
    forall p, q | 0 <= p < q < |d| ensures d[p].key != d[q].key {
      var op := if p <= i then p else p - 1;
      var oq := if q <= i then q else q - 1;
      if q == i + 1 {
        assert doc[op].key in Keys(doc);
      } else if p == i + 1 {
        assert doc[oq].key in Keys(doc);
      } else {
        assert d[p].key == doc[op].key && d[q].key == doc[oq].key && op < oq;
      }
    }
    forall k | k in Keys(d) ensures k in Keys(doc) + {b.key} {
      var p :| 0 <= p < |d| && d[p].key == k;
      if p <= i {
        assert doc[p].key == k;
      } else if p > i + 1 {
        assert doc[p - 1].key == k;
      }
    }
    forall k | k in Keys(doc) + {b.key} ensures k in Keys(d) {
      if k == b.key {
        assert d[i + 1].key == k;
      } else {
        var p :| 0 <= p < |doc| && doc[p].key == k;
        if p <= i {
          assert d[p].key == k;
        } else {
          assert d[p + 1].key == k;
        }
      }
    }
  }

  /**
   * Modifier.splitBlock on a one-line selection: the selected range is
   * removed, the line keeps the text before it and a new line with a fresh
   * key, holding the text after it, follows directly. The caret goes to the
   * start of the new line.
   */
  function SplitBlock(doc: seq<Line>, sel: Selection, newKey: Key): (r: EditorState)
    requires ValidState(EditorState(doc, sel)) && newKey !in Keys(doc)
    ensures ValidState(r) && r.sel == Caret(newKey, 0)
    ensures Keys(r.doc) == Keys(doc) + {newKey}
    ensures var i := FindIndex(doc, sel.anchorKey); var t := doc[i].text;
      r.doc == ReplaceByTwo(doc, i, Line(sel.anchorKey, t[..sel.StartOffset()]), Line(newKey, t[sel.EndOffset()..]))
  {
    var i := FindIndex(doc, sel.anchorKey);
    var t := doc[i].text;
    var d := ReplaceByTwo(doc, i, Line(sel.anchorKey, t[..sel.StartOffset()]), Line(newKey, t[sel.EndOffset()..]));
    SplitKeepsDistinct(doc, i, d[i], d[i + 1]);
    IndexOfKey(d, i + 1);
    EditorState(d, Caret(newKey, 0))
  }

  /** Modifier.insertText at a caret: text goes in at the caret, which moves past it. */
  function InsertText(doc: seq<Line>, sel: Selection, text: string): (r: EditorState)
    requires ValidState(EditorState(doc, sel)) && sel.IsCollapsed()
    ensures ValidState(r) && Keys(r.doc) == Keys(doc)
    ensures var i, k := FindIndex(doc, sel.anchorKey), sel.anchorOffset; var t := doc[i].text;
      && |r.doc| == |doc|
      && r.doc[i] == Line(sel.anchorKey, t[..k] + text + t[k..])
      && (forall j :: 0 <= j < |doc| && j != i ==> r.doc[j] == doc[j])
      && r.sel == Caret(sel.anchorKey, k + |text|)
  {
    var i := FindIndex(doc, sel.anchorKey);
    var t := doc[i].text;
    var k := sel.anchorOffset;
    var l := Line(sel.anchorKey, t[..k] + text + t[k..]);
    UpdateKeepsKeys(doc, i, l);
    EditorState(doc[i := l], Caret(sel.anchorKey, k + |text|))
  }

  /** Modifier.removeRange on a one-line range: the range's text goes, the caret sits at its start. */
  function RemoveRange(doc: seq<Line>, sel: Selection): (r: EditorState)
    requires ValidState(EditorState(doc, sel))
    ensures ValidState(r) && Keys(r.doc) == Keys(doc)
    ensures var i, s, e := FindIndex(doc, sel.anchorKey), sel.StartOffset(), sel.EndOffset(); var t := doc[i].text;
      && |r.doc| == |doc|
      && r.doc[i] == Line(sel.anchorKey, t[..s] + t[e..])
      && (forall j :: 0 <= j < |doc| && j != i ==> r.doc[j] == doc[j])
      && r.sel == Caret(sel.anchorKey, s)
  {
    var i := FindIndex(doc, sel.anchorKey);
    var t := doc[i].text;
    var l := Line(sel.anchorKey, t[..sel.StartOffset()] + t[sel.EndOffset()..]);
    UpdateKeepsKeys(doc, i, l);
    EditorState(doc[i := l], Caret(sel.anchorKey, sel.StartOffset()))
  }

  /** EditorState.forceSelection: the same content under the given selection, whatever its offsets. */
  function ForceSelection(es: EditorState, sel: Selection): (r: EditorState)
    ensures r.doc == es.doc && r.sel == sel
  {
    es.(sel := sel)
  }

  /**
   * Forcing a selection on the current line keeps a valid state valid exactly
   * when both new offsets lie within that line: unlike the other primitives,
   * forceSelection does not clamp.
   */
  lemma ForceSelectionValidity(es: EditorState, sel: Selection)
    requires ValidState(es) && sel.anchorKey == es.sel.anchorKey && sel.focusKey == es.sel.focusKey
    ensures var n := |TextOf(es.doc, sel.anchorKey)|;
      ValidState(ForceSelection(es, sel)) <==> 0 <= sel.anchorOffset <= n && 0 <= sel.focusOffset <= n
  {
  }

  // ---- Plain-text view: the document as one string, lines separated by '\n' ----

  /** ContentState.getPlainText: the lines' texts joined by '\n'. */
  function PlainText(doc: seq<Line>): string {
    if |doc| == 0 then ""
    else if |doc| == 1 then doc[0].text
    else doc[0].text + "\n" + PlainText(doc[1..])
  }

  /** What the lines a contribute to the plain text in front of a line that follows them. */
  function Before(a: seq<Line>): string {
    if a == [] then "" else PlainText(a) + "\n"
  }

  /** What the lines b contribute to the plain text behind a line that precedes them. */
  function After(b: seq<Line>): string {
    if b == [] then "" else "\n" + PlainText(b)
  }

  /** The offset in the plain text at which line i starts. */
  function LineStart(doc: seq<Line>, i: int): nat
    requires 0 <= i <= |doc|
  {
    |Before(doc[..i])|
  }

  lemma {:induction false} PlainTextAppend(a: seq<Line>, b: seq<Line>)
    requires a != [] && b != []
    ensures PlainText(a + b) == PlainText(a) + "\n" + PlainText(b)
  {
    var ab := a + b;
    assert ab[0] == a[0];
    if |a| == 1 {
      assert ab[1..] == b;
    } else {
      assert ab[1..] == a[1..] + b;
      PlainTextAppend(a[1..], b);
    }
  }

  lemma PlainTextCons(x: Line, b: seq<Line>)
    requires b != []
    ensures PlainText([x] + b) == x.text + "\n" + PlainText(b)
  {
    assert ([x] + b)[1..] == b;
  }

  /** A line sits in the plain text between what the lines before and after it contribute. */
  lemma PlainTextAround(a: seq<Line>, x: Line, b: seq<Line>)
    ensures PlainText(a + [x] + b) == Before(a) + x.text + After(b)
  {
    var xb := [x] + b;
    assert a + [x] + b == a + xb;
    if b == [] {
      assert xb == [x];
    } else {
      PlainTextCons(x, b);
    }
    if a == [] {
      assert a + xb == xb;
    } else {
      PlainTextAppend(a, xb);
    }
  }

  /** A sequence is what comes before position i, the element at i, and what comes after. */
  lemma Reassemble<T>(s: seq<T>, i: int)
    requires 0 <= i < |s|
    ensures s[..i] + [s[i]] + s[i + 1..] == s
  {
  }

  /** The plain text of a document, around line i. */
  lemma PlainTextAt(doc: seq<Line>, i: int)
    requires 0 <= i < |doc|
    ensures PlainText(doc) == Before(doc[..i]) + doc[i].text + After(doc[i + 1..])
  {
    Reassemble(doc, i);
    PlainTextAround(doc[..i], doc[i], doc[i + 1..]);
  }

  /** The plain text after line i is replaced by l. */
  lemma PlainTextUpdate(doc: seq<Line>, i: int, l: Line)
    requires 0 <= i < |doc|
    ensures PlainText(doc[i := l]) == Before(doc[..i]) + l.text + After(doc[i + 1..])
  {
    assert doc[i := l] == doc[..i] + [l] + doc[i + 1..];
    PlainTextAround(doc[..i], l, doc[i + 1..]);
  }

  /** The plain text after line i is replaced by the two lines a and b. */
  lemma PlainTextSplit(doc: seq<Line>, i: int, a: Line, b: Line)
    requires 0 <= i < |doc|
    ensures PlainText(ReplaceByTwo(doc, i, a, b)) == Before(doc[..i]) + a.text + "\n" + b.text + After(doc[i + 1..])
  {
    var pre, post := doc[..i], doc[i + 1..];
    var bPost := [b] + post;
    assert ReplaceByTwo(doc, i, a, b) == pre + [a] + bPost;
    PlainTextAround(pre, a, bPost);
    assert [] + [b] + post == bPost;
    PlainTextAround([], b, post);
    var u, v := Before(pre) + a.text, After(post);
    assert u + ("\n" + (b.text + v)) == u + "\n" + b.text + v;
  }
}
