/** The key interpreter (`createKeyHandler`): each raw input chunk is
    classified into exactly one branch, in priority order, and the branch
    decides which buffer callbacks run. */
module KeyHandlers {
  import opened JsString
  import KeyCodes
  import opened TextOperations
  import opened TextWithCursor

  /** The callbacks the key table maps codes to. */
  datatype KeyAction =
    | ExitProcess(code: int)
    | Backspace
    | DeleteChar
    | DeleteToLineStart
    | DeleteToLineEnd
    | MoveCursorLeft
    | MoveCursorRight
    | MoveCursorToStart
    | MoveCursorToEnd

  /** The branch an input takes. */
  datatype Decision =
    | Table(action: KeyAction)
    | ForwardDelete
    | Submit
    | Insert(input: string)
    | Ignore

  /** One callback call, in the order the handler makes them. */
  datatype Call =
    | Run(action: KeyAction)
    | InsertText(input: string)
    | OnSubmit(text: string)
    | LogSubmission(text: string)
    | Clear

  /** The key table, in the order the handler builds it. */
  const KeyTable: seq<(string, KeyAction)> := [
    (KeyCodes.CtrlC, ExitProcess(0)),
    (KeyCodes.Backspace, Backspace),
    (KeyCodes.CtrlH, Backspace),
    (KeyCodes.Delete, DeleteChar),
    (KeyCodes.CtrlU, DeleteToLineStart),
    (KeyCodes.CtrlK, DeleteToLineEnd),
    (KeyCodes.ArrowLeft, MoveCursorLeft),
    (KeyCodes.ArrowRight, MoveCursorRight),
    (KeyCodes.Home, MoveCursorToStart),
    (KeyCodes.End, MoveCursorToEnd),
    (KeyCodes.CtrlA, MoveCursorToStart),
    (KeyCodes.CtrlE, MoveCursorToEnd)
  ]

  function Keys(table: seq<(string, KeyAction)>): (r: seq<string>)
    ensures |r| == |table| && forall i :: 0 <= i < |table| ==> r[i] == table[i].0
  {
    if table == [] then [] else [table[0].0] + Keys(table[1..])
  }

  /** `keyActions.get(key)`: the action of the entry with this key. */
  function Lookup(table: seq<(string, KeyAction)>, key: string): (r: Option<KeyAction>)
    ensures r.None? <==> key !in Keys(table)
    ensures r.Some? ==> (key, r.value) in table
  {
    if table == [] then None
    else if table[0].0 == key then Some(table[0].1)
    else Lookup(table[1..], key)
  }

  /** The table's keys are exactly the key codes, so building it as a Map
      loses no entry. */
  lemma TableKeysAreCodes()
    ensures Keys(KeyTable) == [KeyCodes.CtrlC, KeyCodes.Backspace, KeyCodes.CtrlH, KeyCodes.Delete,
                               KeyCodes.CtrlU, KeyCodes.CtrlK, KeyCodes.ArrowLeft, KeyCodes.ArrowRight,
                               KeyCodes.Home, KeyCodes.End, KeyCodes.CtrlA, KeyCodes.CtrlE]
    ensures forall k :: k in Keys(KeyTable) <==> k in KeyCodes.AllCodes
  {
  }

  /** The priority chain of the handler. */
  function Classify(data: string): (r: Decision)
    ensures data in KeyCodes.AllCodes <==> r.Table?
    ensures r.Table? ==> (data, r.action) in KeyTable
    ensures r == ForwardDelete <==> data !in KeyCodes.AllCodes && Includes(data, KeyCodes.DeleteMarker)
    ensures r == Submit ==> data == "\r" || data == "\n"
    ensures r.Insert? ==> r.input == data && !StartsWith(data, [KeyCodes.Esc])
    ensures r == Ignore ==> StartsWith(data, [KeyCodes.Esc])
  {
    TableKeysAreCodes();
    match Lookup(KeyTable, data)
    case Some(action) => Table(action)
    case None =>
      if Includes(data, KeyCodes.DeleteMarker) then ForwardDelete
      else if data == "\r" || data == "\n" then Submit
      else if !StartsWith(data, [KeyCodes.Esc]) then Insert(data)
      else Ignore
  }

  /** A table without repeated keys finds each entry by its key. */
  lemma {:induction false} LookupFindsEntry(table: seq<(string, KeyAction)>, i: nat)
    requires i < |table|
    requires forall j, k :: 0 <= j < k < |table| ==> table[j].0 != table[k].0
    ensures Lookup(table, table[i].0) == Some(table[i].1)
  {
    if i > 0 {
      assert table[0].0 != table[i].0;
      LookupFindsEntry(table[1..], i - 1);
    }
  }

  lemma TableKeysDistinct()
    ensures forall j, k :: 0 <= j < k < |KeyTable| ==> KeyTable[j].0 != KeyTable[k].0
  {
  }

  /** An exact match runs the action the table maps it to and nothing else. */
  lemma ClassifyTable()
    ensures forall i :: 0 <= i < |KeyTable| ==> Classify(KeyTable[i].0) == Table(KeyTable[i].1)
  {
    TableKeysDistinct();
    forall i | 0 <= i < |KeyTable|
      ensures Classify(KeyTable[i].0) == Table(KeyTable[i].1)
    {
      LookupFindsEntry(KeyTable, i);
    }
  }

  /** Carriage return and line feed submit. */
  lemma ClassifySubmitKeys()
    ensures Classify("\r") == Submit && Classify("\n") == Submit
  {
    KeyCodes.SubmitKeysNotCodes();
    IncludesNeedsLength("\r", KeyCodes.DeleteMarker);
    IncludesNeedsLength("\n", KeyCodes.DeleteMarker);
  }

  /** Input outside the table that is neither a submit key nor holds the
      delete marker is inserted verbatim when it does not start with ESC,
      and dropped when it does. */
  lemma ClassifyRest(data: string)
    requires data !in KeyCodes.AllCodes && !Includes(data, KeyCodes.DeleteMarker)
    requires data != "\r" && data != "\n"
    ensures !StartsWith(data, [KeyCodes.Esc]) ==> Classify(data) == Insert(data)
    ensures StartsWith(data, [KeyCodes.Esc]) ==> Classify(data) == Ignore
  {
  }

  /** The callbacks one branch makes; `text` is the buffer text the handler
      was created with. */
  function Calls(d: Decision, text: string, hasOnSubmit: bool): (r: seq<Call>)
    ensures |r| <= 2
    ensures Clear in r <==> d == Submit
    ensures d == Submit ==> r[|r| - 1] == Clear && Clear !in r[..|r| - 1]
    ensures d == Submit ==> r[0] == (if hasOnSubmit then OnSubmit(text) else LogSubmission(text))
    ensures d == Ignore <==> r == []
  {
    match d
    case Table(action) => [Run(action)]
    case ForwardDelete => [Run(DeleteChar)]
    case Submit => [if hasOnSubmit then OnSubmit(text) else LogSubmission(text), Clear]
    case Insert(input) => [InsertText(input)]
    case Ignore => []
  }

  /** What one callback does to the buffer state. Exiting ends the process,
      so the state it leaves is the state before. */
  function ApplyCall(c: Call, s: TextState): (r: TextState)
    ensures InRange(s) ==> InRange(r)
    ensures c == Clear ==> r == TextState("", 0)
    ensures c.OnSubmit? || c.LogSubmission? || c == Run(ExitProcess(0)) ==> r == s
    ensures c.InsertText? ==> |r.text| == |s.text| + |c.input|
  {
    match c
    case Run(action) => (
      match action
      case ExitProcess(_) => s
      case Backspace => TextOperations.Backspace(s.text, s.cursor)
      case DeleteChar => DeleteCharAsWritten(s.text, s.cursor)
      case DeleteToLineStart => TextOperations.DeleteToLineStart(s.text, s.cursor)
      case DeleteToLineEnd => TextState(TextOperations.DeleteToLineEnd(s.text, s.cursor), s.cursor)
      case MoveCursorLeft => TextState(s.text, TextOperations.MoveCursorLeft(s.cursor))
      case MoveCursorRight => TextState(s.text, TextOperations.MoveCursorRight(s.text, s.cursor))
      case MoveCursorToStart => TextState(s.text, 0)
      case MoveCursorToEnd => TextState(s.text, |s.text|))
    case InsertText(input) => TextOperations.InsertText(s.text, s.cursor, input)
    case OnSubmit(_) => s
    case LogSubmission(_) => s
    case Clear => TextState("", 0)
  }

  /** The callbacks in order; any sequence of them keeps an in-range cursor
      in range. */
  function ApplyCalls(calls: seq<Call>, s: TextState): (r: TextState)
    ensures InRange(s) ==> InRange(r)
  {
    if calls == [] then s else ApplyCalls(calls[1..], ApplyCall(calls[0], s))
  }

  /** Submitting always leaves an empty buffer. */
  lemma SubmitClears(s: TextState, hasOnSubmit: bool)
    ensures ApplyCalls(Calls(Submit, s.text, hasOnSubmit), s) == TextState("", 0)
  {
    var first := if hasOnSubmit then OnSubmit(s.text) else LogSubmission(s.text);
    var calls := Calls(Submit, s.text, hasOnSubmit);
    assert calls == [first, Clear];
    assert calls[1..] == [Clear] && calls[1..][1..] == [];
    assert ApplyCall(first, s) == s;
    assert ApplyCalls([Clear], s) == ApplyCalls([], TextState("", 0));
    assert ApplyCalls(calls, s) == ApplyCalls([Clear], s);
  }

  /** Run one callback on the buffer. */
  method Perform(buffer: TextBuffer, c: Call)
    modifies buffer
    ensures buffer.State() == ApplyCall(c, old(buffer.State()))
  {
    match c
    case Run(action) =>
      match action {
        case ExitProcess(_) =>
        case Backspace => buffer.Backspace();
        case DeleteChar => buffer.DeleteChar();
        case DeleteToLineStart => buffer.DeleteToLineStart();
        case DeleteToLineEnd => buffer.DeleteToLineEnd();
        case MoveCursorLeft => buffer.MoveCursorLeft();
        case MoveCursorRight => buffer.MoveCursorRight();
        case MoveCursorToStart => buffer.MoveCursorToStart();
        case MoveCursorToEnd => buffer.MoveCursorToEnd();
      }
    case InsertText(input) => buffer.Insert(input);
    case OnSubmit(_) =>
    case LogSubmission(_) =>
    case Clear => buffer.Clear();
  }

  /** The handler callback: classify the chunk, then make that branch's
      callbacks, in order, against the buffer. */
  method HandleKey(buffer: TextBuffer, data: string, hasOnSubmit: bool) returns (calls: seq<Call>)
    modifies buffer
    ensures calls == Calls(Classify(data), old(buffer.text), hasOnSubmit)
    ensures buffer.State() == ApplyCalls(calls, old(buffer.State()))
    ensures old(buffer.Valid()) ==> buffer.Valid()
  {
    calls := Calls(Classify(data), buffer.text, hasOnSubmit);
    ghost var start := buffer.State();
    var i := 0;
    while i < |calls|
      invariant 0 <= i <= |calls|
      invariant ApplyCalls(calls, start) == ApplyCalls(calls[i..], buffer.State())
    {
      assert calls[i..][1..] == calls[i + 1..];
      Perform(buffer, calls[i]);
      i := i + 1;
    }
  }
}
