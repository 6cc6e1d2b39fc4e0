/**
 * The line component's gutter: the line number shown beside each block, the
 * width reserved for it, and the lookups of the block's diagnostics with
 * their defaults.
 */
module Gutter {
  import opened Document
  import Editor

  /** DEBUGGING.LINE: when set, the gutter would show block keys instead of numbers. */
  const DEBUGGING_LINE := false

  /** lineNumber: findIndex of the block's key, plus one. */
  function LineNumber(doc: seq<Line>, key: Key): (n: int)
    ensures key in Keys(doc) ==> 1 <= n <= |doc| && doc[n - 1].key == key
    ensures key !in Keys(doc) ==> n == 0
  {
    FindIndex(doc, key) + 1
  }

  /** With distinct keys the line at position i is numbered i + 1. */
  lemma LineNumberOfPosition(doc: seq<Line>, i: int)
    requires DistinctKeys(doc) && 0 <= i < |doc|
    ensures LineNumber(doc, doc[i].key) == i + 1
  {
    IndexOfKey(doc, i);
  }

  function Pow10(k: nat): (p: nat)
    ensures p >= 1
  {
    if k == 0 then 1 else 10 * Pow10(k - 1)
  }

  lemma {:induction false} Pow10Monotone(j: nat, k: nat)
    requires j <= k
    ensures Pow10(j) <= Pow10(k)
  {
    if j < k {
      Pow10Monotone(j, k - 1);
    }
  }

  function DigitChar(d: nat): char
    requires d < 10
  {
    "0123456789"[d]
  }

  /** The decimal form of a number, as a template literal renders it. */
  function DecimalString(n: nat): (s: string)
    ensures 1 <= |s|
    ensures forall i :: 0 <= i < |s| ==> '0' <= s[i] <= '9'
    ensures n < Pow10(|s|)
    ensures |s| == 1 || Pow10(|s| - 1) <= n
  {
    if n < 10 then [DigitChar(n)]
    else
      var s := DecimalString(n / 10) + [DigitChar(n % 10)];
      assert n == 10 * (n / 10) + n % 10;
      s
  }

  /** A larger number never has fewer digits. */
  lemma {:induction false} DigitsMonotone(a: nat, b: nat)
    requires a <= b
    ensures |DecimalString(a)| <= |DecimalString(b)|
    decreases b
  {
    if a >= 10 {
      DigitsMonotone(a / 10, b / 10);
    }
  }

  /** size: the number of decimal digits of the block count. */
  function Size(blockCount: nat): (size: nat)
    ensures size >= 1 && blockCount < Pow10(size)
    ensures size == 1 || Pow10(size - 1) <= blockCount
  {
    |DecimalString(blockCount)|
  }

  /** What the gutter prints. */
  datatype LineLabel = KeyLabel(key: Key) | NumberLabel(number: int)

  /** lineValue: the block key while debugging, the line number otherwise. */
  function LineValue(doc: seq<Line>, key: Key): (v: LineLabel)
    ensures v == NumberLabel(LineNumber(doc, key))
  {
    if DEBUGGING_LINE then KeyLabel(key) else NumberLabel(LineNumber(doc, key))
  }

  /** A CSS width. */
  datatype CssWidth = Rem(rem: int) | Ch(ch: int)

  /** The gutter's width: 4rem while debugging, otherwise Math.max(size + 1, 3) characters. */
  function GutterWidth(blockCount: nat): (w: CssWidth)
    ensures w.Ch? && w.ch >= 3 && w.ch > Size(blockCount)
    ensures w.ch == 3 || w.ch == Size(blockCount) + 1
  {
    if DEBUGGING_LINE then Rem(4)
    else
      var size := Size(blockCount);
      Ch(if size + 1 > 3 then size + 1 else 3)
  }

  /** The gutter stays three characters wide up to 99 lines and grows with the digit count after. */
  lemma GutterWidthByLineCount(blockCount: nat)
    ensures GutterWidth(blockCount).ch == 3 <==> blockCount < 100
    ensures blockCount >= 100 ==> GutterWidth(blockCount).ch == Size(blockCount) + 1
  {
    var size := Size(blockCount);
    assert Pow10(2) == 100;
    if size >= 3 {
      Pow10Monotone(2, size - 1);
    }
  }

  /** Every line number of the document fits in the gutter with a character to spare. */
  lemma LineNumberFitsGutter(doc: seq<Line>, key: Key)
    requires key in Keys(doc)
    ensures |DecimalString(LineNumber(doc, key))| <= Size(|doc|) < GutterWidth(|doc|).ch
  {
    DigitsMonotone(LineNumber(doc, key), |doc|);
  }

  /** getLineStatus: the stored status's name, or "" for a block without an entry. */
  function GetLineStatus(blockStates: Editor.BlockMetaMap, blockKey: Key): (status: string)
    ensures blockKey in blockStates ==> status == Editor.StatusName(blockStates[blockKey].status)
    ensures blockKey !in blockStates ==> status == ""
  {
    if blockKey in blockStates then Editor.StatusName(blockStates[blockKey].status) else ""
  }

  /** getActiveStatus: the stored isActive, or false for a block without an entry. */
  function GetActiveStatus(blockStates: Editor.BlockMetaMap, blockKey: Key): (active: bool)
    ensures active <==> blockKey in blockStates && blockStates[blockKey].isActive
  {
    if blockKey in blockStates then blockStates[blockKey].isActive else false
  }

  /** getLineInfo: the stored info, or "" for a block without an entry. */
  function GetLineInfo(blockStates: Editor.BlockMetaMap, blockKey: Key): (info: string)
    ensures blockKey in blockStates ==> info == blockStates[blockKey].info
    ensures blockKey !in blockStates ==> info == ""
  {
    if blockKey in blockStates then blockStates[blockKey].info else ""
  }

  /**
   * What a line shows after the editor rebuilt its block states: error
   * styling and the message exactly for a line the brace check flags, the
   * active border exactly on the caret's line, and the defaults for a key
   * the content does not hold.
   */
  lemma GutterShowsDiagnostics(prev: Editor.BlockMetaMap, es: EditorState, key: Key)
    ensures var m := Editor.BuildBlockStates(prev, es);
      if key in Keys(es.doc) then
        var error := Editor.LineError(TextOf(es.doc, key));
        && GetLineStatus(m, key) == (if error != "" then "error" else "none")
        && GetLineInfo(m, key) == error
        && (GetActiveStatus(m, key) <==> key == es.sel.anchorKey && key == es.sel.focusKey)
      else
        GetLineStatus(m, key) == "" && GetLineInfo(m, key) == "" && !GetActiveStatus(m, key)
  {
    var m := Editor.BuildBlockStates(prev, es);
    if key in Keys(es.doc) {
      assert m[key].status == Editor.Error || m[key].status == Editor.None;
    }
  }
}
