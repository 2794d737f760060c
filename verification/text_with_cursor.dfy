/** The line-editing engine: pure operations over a (text, cursor) pair and
    the stateful buffer that wraps them (`useTextWithCursor`).
    The cursor is an unbounded integer because callers may hand the pure
    operations negative or past-the-end positions; every slice is the
    JavaScript `slice`, so such positions behave as they do in the source. */
module TextOperations {
  import opened JsString

  datatype TextState = TextState(text: string, cursor: int)

  /** The buffer invariant: the cursor is a position within the text. */
  predicate InRange(s: TextState)
  {
    0 <= s.cursor <= |s.text|
  }

  /** `insertText`: splice `input` in at the cursor and move past it. The
      splice point is where `slice` puts the cursor, so it is the cursor
      itself when that is in range. */
  function InsertText(text: string, cursor: int, input: string): (r: TextState)
    ensures r.cursor == cursor + |input|
    ensures var k := Resolve(cursor, |text|); r.text == text[..k] + input + text[k..]
    ensures 0 <= cursor <= |text| ==> r.text == text[..cursor] + input + text[cursor..]
    ensures cursor >= |text| ==> r.text == text + input
  {
    SplitAt(text, cursor);
    TextState(Slice(text, 0, cursor) + input + SliceFrom(text, cursor), cursor + |input|)
  }

  /** `backspace`: the identity when the cursor is at or before the start;
      otherwise the unit before the cursor goes and the cursor steps back. */
  function Backspace(text: string, cursor: int): (r: TextState)
    ensures cursor <= 0 ==> r == TextState(text, cursor)
    ensures 0 < cursor <= |text| ==> r == TextState(text[..cursor - 1] + text[cursor..], cursor - 1)
    ensures cursor > |text| ==> r == TextState(text, cursor - 1)
  {
    if cursor > 0 then
      TextState(Slice(text, 0, cursor - 1) + SliceFrom(text, cursor), cursor - 1)
    else
      TextState(text, cursor)
  }

  /** `deleteChar` exactly as the source writes it: guarded only by
      `cursor < text.length`, so a negative cursor reaches the slices. */
  function DeleteCharAsWritten(text: string, cursor: int): (r: TextState)
    ensures r.cursor == cursor
    ensures cursor >= |text| ==> r.text == text
    ensures 0 <= cursor < |text| ==> r.text == text[..cursor] + text[cursor + 1..]
  {
    if cursor < |text| then
      TextState(Slice(text, 0, cursor) + SliceFrom(text, cursor + 1), cursor)
    else
      TextState(text, cursor)
  }

  /** `deleteChar` as intended: removes the unit under the cursor when there
      is one and otherwise changes nothing. */
  function DeleteChar(text: string, cursor: int): (r: TextState)
    ensures r.cursor == cursor
    ensures 0 <= cursor < |text| ==> r.text == text[..cursor] + text[cursor + 1..]
    ensures !(0 <= cursor < |text|) ==> r.text == text
    ensures |r.text| >= |text| - 1 && |r.text| <= |text|
  {
    if 0 <= cursor < |text| then
      TextState(text[..cursor] + text[cursor + 1..], cursor)
    else
      TextState(text, cursor)
  }

  /** The two definitions agree on every cursor that is not negative. */
  lemma DeleteCharAgrees(text: string, cursor: int)
    requires cursor >= 0
    ensures DeleteCharAsWritten(text, cursor) == DeleteChar(text, cursor)
  {
  }

  /** What the source does with a negative cursor: the text grows. */
  lemma DeleteCharNegativeCursor()
    ensures DeleteCharAsWritten("abc", -1) == TextState("ababc", -1)
    ensures DeleteChar("abc", -1) == TextState("abc", -1)
  {
    var t := "abc";
    assert Resolve(-1, |t|) == 2 && Resolve(0, |t|) == 0;
    assert Slice(t, 0, -1) == t[..2];
    assert SliceFrom(t, 0) == t;
    assert t[..2] + t == "ababc";
  }

  /** `moveCursorLeft`: one step back, only from a positive cursor; any other
      cursor is returned as it is, not clamped. */
  function MoveCursorLeft(cursor: int): (r: int)
    ensures cursor > 0 ==> r == cursor - 1 && r >= 0
    ensures cursor <= 0 ==> r == cursor
  {
    if cursor > 0 then cursor - 1 else cursor
  }

  /** `moveCursorRight`: one step forward, only from before the end. */
  function MoveCursorRight(text: string, cursor: int): (r: int)
    ensures cursor < |text| ==> r == cursor + 1 && r <= |text|
    ensures cursor >= |text| ==> r == cursor
  {
    if cursor < |text| then cursor + 1 else cursor
  }

  /** `deleteToLineEnd`: keeps what precedes the cursor and drops the whole
      rest of the text, later lines included. */
  function DeleteToLineEnd(text: string, cursor: int): (r: string)
    ensures cursor >= |text| ==> r == text
    ensures 0 <= cursor < |text| ==> r == text[..cursor] && |r| == cursor
    ensures r <= text
  {
    if cursor < |text| then Slice(text, 0, cursor) else text
  }

  /** `deleteToLineStart`: drops everything before the cursor and moves the
      cursor to 0; from a cursor at or before the start it changes nothing. */
  function DeleteToLineStart(text: string, cursor: int): (r: TextState)
    ensures cursor <= 0 ==> r == TextState(text, cursor)
    ensures cursor > 0 ==> r.cursor == 0
    ensures 0 < cursor <= |text| ==> text[..cursor] + r.text == text
    ensures cursor >= |text| ==> r.text == ""
  {
    if cursor > 0 then TextState(SliceFrom(text, cursor), 0) else TextState(text, cursor)
  }

  /** Inserting one unit and then deleting backwards restores the state. */
  lemma InsertThenBackspace(text: string, cursor: int, c: char)
    requires 0 <= cursor <= |text|
    ensures var s := InsertText(text, cursor, [c]); Backspace(s.text, s.cursor) == TextState(text, cursor)
  {
    var s := InsertText(text, cursor, [c]);
    assert s.text[..cursor] == text[..cursor];
    assert s.text[cursor + 1..] == text[cursor..];
    assert text[..cursor] + text[cursor..] == text;
  }

  /** Backspacing as many times as units were inserted restores the state,
      for inserted runs of any length. */
  lemma {:induction false} InsertThenBackspaces(text: string, cursor: int, input: string)
    requires 0 <= cursor <= |text|
    ensures var s := InsertText(text, cursor, input); BackspaceTimes(s, |input|) == TextState(text, cursor)
  {
    if input != [] {
      var last := input[|input| - 1];
      var init := input[..|input| - 1];
      var s := InsertText(text, cursor, input);
      var s' := InsertText(text, cursor, init);
      assert s.text == s'.text[..s'.cursor] + [last] + s'.text[s'.cursor..];
      assert s == InsertText(s'.text, s'.cursor, [last]);
      InsertThenBackspace(s'.text, s'.cursor, last);
      InsertThenBackspaces(text, cursor, init);
    }
  }

  /** `n` backspaces in a row. */
  function BackspaceTimes(s: TextState, n: nat): (r: TextState)
    ensures n == 0 ==> r == s
    decreases n
  {
    if n == 0 then s else BackspaceTimes(Backspace(s.text, s.cursor), n - 1)
  }

  /** Killing to the line start and re-inserting the killed prefix at
      position 0 restores the text and the cursor. */
  lemma KillToStartThenReinsert(text: string, cursor: int)
    requires 0 <= cursor <= |text|
    ensures var k := DeleteToLineStart(text, cursor);
            InsertText(k.text, k.cursor, text[..cursor]) == TextState(text, cursor)
  {
    var k := DeleteToLineStart(text, cursor);
    if cursor == 0 {
      assert text[..0] == "";
    } else {
      assert k.text == text[cursor..];
      assert text[..cursor] + text[cursor..] == text;
    }
  }

  /** Left then right from an interior cursor comes back to it. */
  lemma LeftThenRight(text: string, cursor: int)
    requires 0 < cursor <= |text|
    ensures MoveCursorRight(text, MoveCursorLeft(cursor)) == cursor
  {
  }

}

/** `useTextWithCursor`: the text and cursor state of the input line. */
module TextWithCursor {
  import opened TextOperations

  /** Each method replaces the state by the result of the matching pure
      operation. */
  class TextBuffer {
    var text: string
    var cursor: int

    function State(): TextState
      reads this
    {
      TextState(text, cursor)
    }

    ghost predicate Valid()
      reads this
    {
      InRange(State())
    }

    /** A new buffer holds the initial text with the cursor at its end. */
    constructor (initialText: string)
      ensures text == initialText && cursor == |initialText|
      ensures Valid()
    {
      text := initialText;
      cursor := |initialText|;
    }

    /** `setText`: the raw state setter the hook exposes. */
    method SetText(newText: string)
      modifies this
      ensures text == newText && cursor == old(cursor)
    {
      text := newText;
    }

    /** `setCursorPos`: the raw state setter the hook exposes. */
    method SetCursorPos(newCursor: int)
      modifies this
      ensures cursor == newCursor && text == old(text)
    {
      cursor := newCursor;
    }

    method Insert(input: string)
      modifies this
      ensures State() == InsertText(old(text), old(cursor), input)
      ensures old(Valid()) ==> Valid() && cursor == old(cursor) + |input|
    {
      var r := InsertText(text, cursor, input);
      text, cursor := r.text, r.cursor;
    }

    method Backspace()
      modifies this
      ensures State() == TextOperations.Backspace(old(text), old(cursor))
      ensures old(Valid()) ==> Valid()
    {
      var r := TextOperations.Backspace(text, cursor);
      text, cursor := r.text, r.cursor;
    }

    /** The hook calls `deleteChar` as written, so a negative cursor set
        through `SetCursorPos` reaches the faulty slices; from a valid state
        the result is the intended forward delete. */
    method DeleteChar()
      modifies this
      ensures State() == DeleteCharAsWritten(old(text), old(cursor))
      ensures old(Valid()) ==> Valid() && State() == TextOperations.DeleteChar(old(text), old(cursor))
    {
      if Valid() {
        DeleteCharAgrees(text, cursor);
      }
      var r := DeleteCharAsWritten(text, cursor);
      text, cursor := r.text, r.cursor;
    }

    method MoveCursorLeft()
      modifies this
      ensures text == old(text) && cursor == TextOperations.MoveCursorLeft(old(cursor))
      ensures old(Valid()) ==> Valid()
    {
      cursor := TextOperations.MoveCursorLeft(cursor);
    }

    method MoveCursorRight()
      modifies this
      ensures text == old(text) && cursor == TextOperations.MoveCursorRight(old(text), old(cursor))
      ensures old(Valid()) ==> Valid()
    {
      cursor := TextOperations.MoveCursorRight(text, cursor);
    }

    method MoveCursorToStart()
      modifies this
      ensures text == old(text) && cursor == 0
      ensures Valid()
    {
      cursor := 0;
    }

    method MoveCursorToEnd()
      modifies this
      ensures text == old(text) && cursor == |text|
      ensures Valid()
    {
      cursor := |text|;
    }

    method Clear()
      modifies this
      ensures text == "" && cursor == 0
      ensures Valid()
    {
      text, cursor := "", 0;
    }

    /** Only the text is replaced; from a valid state the cursor ends up at
        the end of what is left. */
    method DeleteToLineEnd()
      modifies this
      ensures text == TextOperations.DeleteToLineEnd(old(text), old(cursor)) && cursor == old(cursor)
      ensures old(Valid()) ==> Valid() && cursor == |text|
    {
      text := TextOperations.DeleteToLineEnd(text, cursor);
    }

    method DeleteToLineStart()
      modifies this
      ensures State() == TextOperations.DeleteToLineStart(old(text), old(cursor))
      ensures old(Valid()) ==> Valid()
    {
      var r := TextOperations.DeleteToLineStart(text, cursor);
      text, cursor := r.text, r.cursor;
    }
  }
}
