/**
 * The editor component: per-line brace diagnostics, the block-meta map
 * rebuilt after every change of the editor state, the word before the caret,
 * the gate for the completion dropdown, and the key-down handler that drives
 * the key-action resolver.
 */
module Editor {
  import opened Document
  import Actions

  // ---- Line diagnostics ----

  /** String.prototype.includes. */
  function Contains(text: string, pattern: string): (r: bool)
    ensures pattern <= text ==> r
    ensures r ==> |pattern| <= |text|
  {
    pattern <= text || (|text| > 0 && Contains(text[1..], pattern))
  }

  /** includes holds exactly when the pattern occurs at some offset. */
  lemma {:induction false} ContainsAt(text: string, pattern: string)
    ensures Contains(text, pattern) <==> exists i :: 0 <= i <= |text| && pattern <= text[i..]
  {
    if pattern <= text {
      assert text[0..] == text;
    } else if |text| > 0 {
      ContainsAt(text[1..], pattern);
      assert forall i :: 1 <= i <= |text| ==> text[i..] == text[1..][i - 1..];
      if exists i :: 0 <= i <= |text| && pattern <= text[i..] {
        var i :| 0 <= i <= |text| && pattern <= text[i..];
        assert i != 0;
        assert pattern <= text[1..][i - 1..];
      }
    } else {
      assert forall i :: 0 <= i <= |text| ==> text[i..] == text;
    }
  }

  const OPEN_BRACES := "{{"
  const CLOSE_BRACES := "}}"
  const UNMATCHED_OPEN := "Unmatched open brace"
  const UNMATCHED_CLOSE := "Unmatched close brace"

  /** lineError: the cheap brace check; only whether "{{" and "}}" occur is looked at. */
  function LineError(text: string): (r: string)
    ensures r == UNMATCHED_OPEN <==> Contains(text, OPEN_BRACES) && !Contains(text, CLOSE_BRACES)
    ensures r == UNMATCHED_CLOSE <==> !Contains(text, OPEN_BRACES) && Contains(text, CLOSE_BRACES)
    ensures r == "" <==> (Contains(text, OPEN_BRACES) <==> Contains(text, CLOSE_BRACES))
  {
    if text == "" then ""
    else if !Contains(text, OPEN_BRACES) && !Contains(text, CLOSE_BRACES) then ""
    else if Contains(text, OPEN_BRACES) && !Contains(text, CLOSE_BRACES) then UNMATCHED_OPEN
    else if !Contains(text, OPEN_BRACES) && Contains(text, CLOSE_BRACES) then UNMATCHED_CLOSE
    else ""
  }

  /** A text without the character c contains no pattern that starts with c. */
  lemma {:induction false} NoBraceChar(text: string, c: char)
    requires forall i :: 0 <= i < |text| ==> text[i] != c
    ensures !Contains(text, [c, c])
  {
    if |text| > 0 {
      assert forall i :: 0 <= i < |text[1..]| ==> text[1..][i] == text[i + 1];
      NoBraceChar(text[1..], c);
      assert !([c, c] <= text) by {
        assert text[0] != c;
      }
    }
  }

  /** An empty line is fine. */
  lemma LineErrorOfEmpty()
    ensures LineError("") == ""
  {
  }

  /** "{{" without "}}" is an unmatched open brace. */
  lemma LineErrorOfOpen()
    ensures LineError("abc{{def") == UNMATCHED_OPEN
  {
    var t := "abc{{def";
    ContainsAt(t, OPEN_BRACES);
    assert OPEN_BRACES <= t[3..];
    NoBraceChar(t, '}');
  }

  /** "}}" without "{{" is an unmatched close brace. */
  lemma LineErrorOfClose()
    ensures LineError("abc}}def") == UNMATCHED_CLOSE
  {
    var t := "abc}}def";
    ContainsAt(t, CLOSE_BRACES);
    assert CLOSE_BRACES <= t[3..];
    NoBraceChar(t, '{');
  }

  /** A line without any brace character is fine. */
  lemma LineErrorWithoutBraces(text: string)
    requires forall i :: 0 <= i < |text| ==> text[i] != '{' && text[i] != '}'
    ensures LineError(text) == ""
  {
    NoBraceChar(text, '{');
    NoBraceChar(text, '}');
  }

  /** Both pairs present is fine, in either order: neither count nor order is checked. */
  lemma LineErrorOfBoth()
    ensures LineError("{{x}}") == ""
    ensures LineError("}}{{") == ""
  {
    assert OPEN_BRACES <= "{{x}}";
    ContainsAt("{{x}}", CLOSE_BRACES);
    assert CLOSE_BRACES <= "{{x}}"[3..];
    assert CLOSE_BRACES <= "}}{{";
    ContainsAt("}}{{", OPEN_BRACES);
    assert OPEN_BRACES <= "}}{{"[2..];
  }

  // ---- Block meta data ----

  datatype Status = None | Warning | Error

  /** The status string a block's meta entry carries. */
  function StatusName(s: Status): string {
    match s
    case None => "none"
    case Warning => "warning"
    case Error => "error"
  }

  datatype BlockMeta = BlockMeta(status: Status, info: string, isActive: bool)

  const DEFAULT_BLOCK_META_DATA := BlockMeta(None, "", false)

  type BlockMetaMap = map<Key, BlockMeta>

  /** The entry for one block: the previous entry (or the default) with all three fields overwritten. */
  function BlockEntry(prev: BlockMetaMap, es: EditorState, key: Key): (e: BlockMeta)
    requires key in Keys(es.doc)
    ensures e.info == LineError(TextOf(es.doc, key))
    ensures (e.status == Error <==> e.info != "") && e.status != Warning
    ensures e.isActive <==> key == es.sel.anchorKey && key == es.sel.focusKey
  {
    var base := if key in prev then prev[key] else DEFAULT_BLOCK_META_DATA;
    var error := LineError(TextOf(es.doc, key));
    base.(status := if error != "" then Error else None,
          info := error,
          isActive := key == es.sel.anchorKey && es.sel.anchorKey == es.sel.focusKey)
  }

  /**
   * The map the useEffect builds on every editor-state change: one entry per
   * block of the current content, none for any other key.
   */
  function BuildBlockStates(prev: BlockMetaMap, es: EditorState): (m: BlockMetaMap)
    ensures m.Keys == Keys(es.doc)
    ensures forall k :: k in m ==> m[k].info == LineError(TextOf(es.doc, k))
    ensures forall k :: k in m ==> (m[k].status == Error <==> m[k].info != "") && m[k].status != Warning
    ensures forall k :: k in m ==> (m[k].isActive <==> k == es.sel.anchorKey && k == es.sel.focusKey)
  {
    map k | k in Keys(es.doc) :: BlockEntry(prev, es, k)
  }

  /** The previous map never shows through: every field of every entry is overwritten. */
  lemma BlockStatesIgnorePrevious(prev1: BlockMetaMap, prev2: BlockMetaMap, es: EditorState)
    ensures BuildBlockStates(prev1, es) == BuildBlockStates(prev2, es)
  {
    var m1, m2 := BuildBlockStates(prev1, es), BuildBlockStates(prev2, es);
    forall k | k in m1 ensures m1[k] == m2[k] {
      assert m1[k] == BlockEntry(prev1, es, k) && m2[k] == BlockEntry(prev2, es, k);
    }
  }

  /** Rebuilding from a rebuilt map on the same state changes nothing. */
  lemma BlockStatesIdempotent(prev: BlockMetaMap, es: EditorState)
    ensures BuildBlockStates(BuildBlockStates(prev, es), es) == BuildBlockStates(prev, es)
  {
    BlockStatesIgnorePrevious(BuildBlockStates(prev, es), prev, es);
  }

  /** On a valid state exactly one line, the caret's, is active. */
  lemma ExactlyOneActiveLine(prev: BlockMetaMap, es: EditorState)
    requires ValidState(es)
    ensures var m := BuildBlockStates(prev, es);
      es.sel.anchorKey in m && m[es.sel.anchorKey].isActive &&
      forall k :: k in m && m[k].isActive ==> k == es.sel.anchorKey
  {
  }

  /** A selection across two lines makes no line active. */
  lemma NoActiveLineAcrossLines(prev: BlockMetaMap, es: EditorState)
    requires es.sel.anchorKey != es.sel.focusKey
    ensures var m := BuildBlockStates(prev, es); forall k :: k in m ==> !m[k].isActive
  {
  }

  // ---- The word before the caret ----

  /** The characters String.prototype.trim removes: WhiteSpace and LineTerminator. */
  predicate IsJsWhitespace(c: char) {
    c == '\t' || c == '\n' || c == '\U{000B}' || c == '\U{000C}' || c == '\r' || c == ' ' ||
    c == '\U{00A0}' || c == '\U{1680}' || ('\U{2000}' <= c <= '\U{200A}') ||
    c == '\U{2028}' || c == '\U{2029}' || c == '\U{202F}' || c == '\U{205F}' ||
    c == '\U{3000}' || c == '\U{FEFF}'
  }

  /** The end String.prototype.slice(0, end) uses: negative counts from the back, then clamped to 0..len. */
  function SliceEnd(len: nat, end: int): (n: nat)
    ensures n <= len
    ensures 0 <= end <= len ==> n == end
    ensures end < 0 ==> n == if len + end < 0 then 0 else len + end
    ensures end > len ==> n == len
  {
    if end < 0 then (if len + end < 0 then 0 else len + end)
    else if end > len then len
    else end
  }

  /** The offset of the last space among the first n characters of s, or -1. */
  function LastSpaceBefore(s: string, n: nat): (i: int)
    requires n <= |s|
    ensures -1 <= i < n
    ensures i >= 0 ==> s[i] == ' '
    ensures forall j :: i < j < n ==> s[j] != ' '
  {
    if n == 0 then -1
    else if s[n - 1] == ' ' then n - 1
    else LastSpaceBefore(s, n - 1)
  }

  /** split(" ").pop(): the part of s after its last space (all of s if it has none). */
  function LastSegment(s: string): (r: string)
    ensures |r| <= |s|
    ensures forall i :: 0 <= i < |r| ==> r[i] != ' '
    ensures |r| == |s| || s[|s| - |r| - 1] == ' '
  {
    s[LastSpaceBefore(s, |s|) + 1..]
  }

  /** The last segment is the suffix of s of its own length. */
  lemma LastSegmentIsSuffix(s: string)
    ensures LastSegment(s) == s[|s| - |LastSegment(s)|..]
  {
  }

  /** The segment after the last space is what follows it, wherever the other spaces are. */
  lemma LastSegmentAfterSpace(u: string, v: string)
    requires forall i :: 0 <= i < |v| ==> v[i] != ' '
    ensures LastSegment(u + " " + v) == v
  {
    var s := u + " " + v;
    assert s[|u|] == ' ';
    assert forall j :: |u| < j < |s| ==> s[j] == v[j - |u| - 1];
    assert LastSpaceBefore(s, |s|) == |u|;
    assert s[|u| + 1..] == v;
  }

  /** A text without spaces is its own last segment. */
  lemma LastSegmentWithoutSpace(v: string)
    requires forall i :: 0 <= i < |v| ==> v[i] != ' '
    ensures LastSegment(v) == v
  {
    assert v[0..] == v;
  }

  /** The offset of the first character at or after i that is not whitespace, or |s|. */
  function LeadingWhitespaceEnd(s: string, i: nat): (k: nat)
    requires i <= |s|
    ensures i <= k <= |s|
    ensures forall j :: i <= j < k ==> IsJsWhitespace(s[j])
    ensures k == |s| || !IsJsWhitespace(s[k])
    decreases |s| - i
  {
    if i < |s| && IsJsWhitespace(s[i]) then LeadingWhitespaceEnd(s, i + 1) else i
  }

  /** The offset, not below lo, at which the whitespace that ends the first n characters of s begins. */
  function TrailingWhitespaceFrom(s: string, lo: nat, n: nat): (k: nat)
    requires lo <= n <= |s|
    ensures lo <= k <= n
    ensures forall j :: k <= j < n ==> IsJsWhitespace(s[j])
    ensures k == lo || !IsJsWhitespace(s[k - 1])
  {
    if n > lo && IsJsWhitespace(s[n - 1]) then TrailingWhitespaceFrom(s, lo, n - 1) else n
  }

  /** trimStart: s without its leading whitespace (a suffix of s, by TrimStartIsSuffix). */
  function TrimStart(s: string): (r: string)
    ensures |r| <= |s|
    ensures forall i :: 0 <= i < |s| - |r| ==> IsJsWhitespace(s[i])
    ensures r == [] || !IsJsWhitespace(r[0])
  {
    s[LeadingWhitespaceEnd(s, 0)..]
  }

  /** What trimStart keeps is the suffix of s of its own length. */
  lemma TrimStartIsSuffix(s: string)
    ensures TrimStart(s) == s[|s| - |TrimStart(s)|..]
  {
  }

  /** trimEnd: s without its trailing whitespace (a prefix of s, by TrimEndIsPrefix). */
  function TrimEnd(s: string): (r: string)
    ensures |r| <= |s|
    ensures forall i :: |r| <= i < |s| ==> IsJsWhitespace(s[i])
    ensures r == [] || !IsJsWhitespace(r[|r| - 1])
  {
    s[..TrailingWhitespaceFrom(s, 0, |s|)]
  }

  /** What trimEnd keeps is the prefix of s of its own length. */
  lemma TrimEndIsPrefix(s: string)
    ensures TrimEnd(s) == s[..|TrimEnd(s)|]
  {
  }

  /** String.prototype.trim: TrimEnd after TrimStart, whose lemmas pin which characters stay. */
  function Trim(s: string): (r: string)
    ensures |r| <= |s|
    ensures r == [] || (!IsJsWhitespace(r[0]) && !IsJsWhitespace(r[|r| - 1]))
    ensures s == [] || (!IsJsWhitespace(s[0]) && !IsJsWhitespace(s[|s| - 1])) ==> r == s
  {
    var t := TrimStart(s);
    TrimEndIsPrefix(t);
    TrimStartIsSuffix(s);
    TrimEnd(t)
  }

  /** The anchor line's text before the anchor offset, as slice(0, anchorOffset) cuts it. */
  function CaretPrefix(es: EditorState): (p: string)
    requires es.sel.anchorKey in Keys(es.doc)
    ensures var text, k := TextOf(es.doc, es.sel.anchorKey), es.sel.anchorOffset;
      && p <= text
      && (0 <= k <= |text| ==> |p| == k)
      && (k > |text| ==> p == text)
      && (k < 0 ==> |p| == if |text| + k < 0 then 0 else |text| + k)
  {
    var text := TextOf(es.doc, es.sel.anchorKey);
    text[..SliceEnd(|text|, es.sel.anchorOffset)]
  }

  /**
   * currentWord: the text before the caret from just after its last space,
   * without the whitespace at either end. The ensures give only its shape;
   * CurrentWordIsTrimmedSegment pins its value as Trim(LastSegment(prefix)).
   */
  function CurrentWord(es: EditorState): (w: string)
    requires es.sel.anchorKey in Keys(es.doc)
    ensures forall i :: 0 <= i < |w| ==> w[i] != ' '
    ensures w == [] || (!IsJsWhitespace(w[0]) && !IsJsWhitespace(w[|w| - 1]))
    ensures var p := CaretPrefix(es); |p| > 0 && p[|p| - 1] == ' ' ==> w == []
  {
    var p := CaretPrefix(es);
    var lo := LeadingWhitespaceEnd(p, LastSpaceBefore(p, |p|) + 1);
    p[lo..TrailingWhitespaceFrom(p, lo, |p|)]
  }

  lemma SliceOfSlice<T>(s: seq<T>, a: nat, b: nat, c: nat)
    requires a <= b <= c <= |s|
    ensures s[a..][b - a..] == s[b..]
    ensures s[b..][..c - b] == s[b..c]
  {
  }

  /** Skipping whitespace in a suffix of p is skipping it in p, shifted by where the suffix starts. */
  lemma {:induction false} LeadingWhitespaceShift(p: string, b: nat, j: nat)
    requires b <= j <= |p|
    ensures LeadingWhitespaceEnd(p[b..], j - b) == LeadingWhitespaceEnd(p, j) - b
    decreases |p| - j
  {
    if j < |p| {
      assert p[b..][j - b] == p[j];
      if IsJsWhitespace(p[j]) {
        LeadingWhitespaceShift(p, b, j + 1);
      }
    }
  }

  /** Finding the trailing whitespace in a suffix of p is finding it in p, shifted likewise. */
  lemma {:induction false} TrailingWhitespaceShift(p: string, lo: nat, n: nat)
    requires lo <= n <= |p|
    ensures TrailingWhitespaceFrom(p[lo..], 0, n - lo) == TrailingWhitespaceFrom(p, lo, n) - lo
  {
    if n > lo {
      assert p[lo..][n - 1 - lo] == p[n - 1];
      if IsJsWhitespace(p[n - 1]) {
        TrailingWhitespaceShift(p, lo, n - 1);
      }
    }
  }

  /** Trimming the start of the suffix of p from b keeps p from the first non-whitespace at or after b. */
  lemma TrimStartOfSuffix(p: string, b: nat)
    requires b <= |p|
    ensures TrimStart(p[b..]) == p[LeadingWhitespaceEnd(p, b)..]
  {
    LeadingWhitespaceShift(p, b, b);
    SliceOfSlice(p, b, LeadingWhitespaceEnd(p, b), |p|);
  }

  /** Trimming the end of the suffix of p from lo keeps p up to its trailing whitespace. */
  lemma TrimEndOfSuffix(p: string, lo: nat)
    requires lo <= |p|
    ensures TrimEnd(p[lo..]) == p[lo..TrailingWhitespaceFrom(p, lo, |p|)]
  {
    TrailingWhitespaceShift(p, lo, |p|);
    SliceOfSlice(p, lo, lo, TrailingWhitespaceFrom(p, lo, |p|));
  }

  /** The word computed by offsets is the text before the caret put through split(" ").pop() and trim(). */
  lemma CurrentWordIsTrimmedSegment(es: EditorState)
    requires es.sel.anchorKey in Keys(es.doc)
    ensures CurrentWord(es) == Trim(LastSegment(CaretPrefix(es)))
  {
    var p := CaretPrefix(es);
    var b := LastSpaceBefore(p, |p|) + 1;
    TrimStartOfSuffix(p, b);
    TrimEndOfSuffix(p, LeadingWhitespaceEnd(p, b));
  }

  /** The word is the trimmed text after the last space before the caret. */
  lemma CurrentWordAfterLastSpace(es: EditorState, u: string, v: string)
    requires es.sel.anchorKey in Keys(es.doc)
    requires CaretPrefix(es) == u + " " + v
    requires forall i :: 0 <= i < |v| ==> v[i] != ' '
    ensures CurrentWord(es) == Trim(v)
  {
    CurrentWordIsTrimmedSegment(es);
    LastSegmentAfterSpace(u, v);
  }

  /** With no space before the caret, the word is the whole trimmed prefix. */
  lemma CurrentWordWithoutSpace(es: EditorState)
    requires es.sel.anchorKey in Keys(es.doc)
    requires forall i :: 0 <= i < |CaretPrefix(es)| ==> CaretPrefix(es)[i] != ' '
    ensures CurrentWord(es) == Trim(CaretPrefix(es))
  {
    CurrentWordIsTrimmedSegment(es);
    LastSegmentWithoutSpace(CaretPrefix(es));
  }

  /** On a valid state the slice is the plain prefix up to the anchor offset. */
  lemma CaretPrefixOfValidState(es: EditorState)
    requires ValidState(es)
    ensures CaretPrefix(es) == TextOf(es.doc, es.sel.anchorKey)[..es.sel.anchorOffset]
  {
  }

  /**
   * After Shift+Tab from column 0 the anchor offset is -1, and slice(0, -1)
   * drops the line's last character.
   */
  lemma CaretPrefixAtMinusOne(es: EditorState)
    requires es.sel.anchorKey in Keys(es.doc) && es.sel.anchorOffset == -1
    requires |TextOf(es.doc, es.sel.anchorKey)| > 0
    ensures var t := TextOf(es.doc, es.sel.anchorKey); CaretPrefix(es) == t[..|t| - 1]
  {
  }

  // ---- The completion dropdown ----

  /** showDropdown: the caret has screen coordinates, the editor has the focus, there is a word, no Escape, a caret. */
  function ShowDropdown(x: int, y: int, focused: bool, currentWord: string, hitEscape: bool, sel: Selection): (show: bool)
    ensures show <==> x != -1 && y != -1 && focused && currentWord != "" && !hitEscape && sel.IsCollapsed()
  {
    if x == -1 || y == -1 || !focused || currentWord == "" || hitEscape || !sel.IsCollapsed() then false
    else true
  }

  /** Right after a space there is no word, so no dropdown. */
  lemma NoDropdownAfterSpace(x: int, y: int, focused: bool, hitEscape: bool, es: EditorState)
    requires es.sel.anchorKey in Keys(es.doc)
    requires var p := CaretPrefix(es); |p| > 0 && p[|p| - 1] == ' '
    ensures !ShowDropdown(x, y, focused, CurrentWord(es), hitEscape, es.sel)
  {
  }

  // ---- The component's state and its key-down handler ----

  class EditorComponent {
    var editorState: EditorState
    var blockStates: BlockMetaMap
    var hitEscape: bool

    /** The initial state: EditorState.createEmpty() (one empty block, the caret in it), no meta, no Escape. */
    constructor (initialKey: Key)
      ensures editorState == EditorState([Line(initialKey, "")], Caret(initialKey, 0))
      ensures ValidState(editorState)
      ensures blockStates == map[] && !hitEscape
    {
      editorState := EditorState([Line(initialKey, "")], Caret(initialKey, 0));
      blockStates := map[];
      hitEscape := false;
      assert Line(initialKey, "") == [Line(initialKey, "")][0];
    }

    /**
     * onKeyDown. hitEscape is reset first; Enter and Tab replace the editor
     * state by the resolver's result; ArrowDown and ArrowUp fall through to
     * the Escape case and so set hitEscape too. The result says whether the
     * key's default action was prevented: always for Enter and Tab, for the
     * arrows when the dropdown (as last computed) was shown.
     */
    method KeyDown(key: string, shift: bool, newKey: Key, x: int, y: int, focused: bool) returns (preventDefault: bool)
      requires editorState.sel.anchorKey in Keys(editorState.doc)
      requires key == "Enter" || key == "Tab" ==> ValidState(editorState)
      requires key == "Enter" ==> newKey !in Keys(editorState.doc)
      requires key == "Tab" && !shift ==> editorState.sel.IsCollapsed()
      modifies this`editorState, this`hitEscape
      ensures editorState.sel.anchorKey in Keys(editorState.doc)
      ensures
        if key == "Enter" then
          editorState == Actions.OnEnter(old(editorState), newKey) && preventDefault && !hitEscape
        else if key == "Tab" then
          editorState == Actions.OnTab(old(editorState), shift) && preventDefault && !hitEscape
        else if key == "ArrowDown" || key == "ArrowUp" then
          editorState == old(editorState) && hitEscape &&
          preventDefault == ShowDropdown(x, y, focused, CurrentWord(old(editorState)), old(hitEscape), old(editorState).sel)
        else if key == "Escape" then
          editorState == old(editorState) && hitEscape && !preventDefault
        else
          editorState == old(editorState) && !hitEscape && !preventDefault
    {
      // The handler sees the state and the dropdown flag of the render it was created in.
      var es := editorState;
      var showDropdown := ShowDropdown(x, y, focused, CurrentWord(es), hitEscape, es.sel);
      hitEscape := false;
      preventDefault := false;
      if key == "Enter" {
        editorState := Actions.OnEnter(es, newKey);
        preventDefault := true;
      } else if key == "Tab" {
        editorState := Actions.OnTab(es, shift);
        preventDefault := true;
      } else {
        // "ArrowDown" and "ArrowUp" fall through into the "Escape" case.
        var arrow := key == "ArrowDown" || key == "ArrowUp";
        preventDefault := arrow && showDropdown;
        hitEscape := arrow || key == "Escape";
      }
    }

    /** The useEffect on editorState: the block-meta map is rebuilt from the current state. */
    method SyncBlockStates()
      modifies this`blockStates
      ensures blockStates == BuildBlockStates(old(blockStates), editorState)
      ensures editorState == old(editorState) && hitEscape == old(hitEscape)
    {
      blockStates := BuildBlockStates(blockStates, editorState);
    }
  }
}
