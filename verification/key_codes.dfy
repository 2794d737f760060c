/** The raw key codes a terminal in raw mode sends, as the key interpreter
    compares them: single control characters and ESC-introduced sequences. */
module KeyCodes {
  import opened JsString

  const Esc: char := '\U{1B}'

  const Backspace: string := "\U{7F}"
  const Delete: string := "\U{1B}[3~"
  const CtrlC: string := "\U{03}"
  const CtrlU: string := "\U{15}"
  const CtrlK: string := "\U{0B}"
  const CtrlH: string := "\U{08}"
  const ArrowLeft: string := "\U{1B}[D"
  const ArrowRight: string := "\U{1B}[C"
  const Home: string := "\U{1B}[H"
  const End: string := "\U{1B}[F"
  const CtrlA: string := "\U{01}"
  const CtrlE: string := "\U{05}"

  /** The forward-delete marker accepted anywhere in the input. */
  const DeleteMarker: string := "[3~"

  /** Every code, in declaration order. */
  const AllCodes: seq<string> :=
    [Backspace, Delete, CtrlC, CtrlU, CtrlK, CtrlH, ArrowLeft, ArrowRight, Home, End, CtrlA, CtrlE]

  const ControlCodes: seq<string> := [Backspace, CtrlC, CtrlU, CtrlK, CtrlH, CtrlA, CtrlE]

  const EscapeCodes: seq<string> := [Delete, ArrowLeft, ArrowRight, Home, End]

  predicate IsControlChar(c: char)
  {
    c == '\U{7F}' || c < '\U{20}'
  }

  /** The two groups split the codes between them. */
  lemma CodeGroups()
    ensures |AllCodes| == 12
    ensures forall c :: c in AllCodes <==> c in ControlCodes || c in EscapeCodes
  {
  }

  /** No two codes are equal, so a table keyed by them has no collisions. */
  lemma CodesDistinct()
    ensures forall i, j :: 0 <= i < j < |AllCodes| ==> AllCodes[i] != AllCodes[j]
  {
  }

  /** The control codes are each one control character. */
  lemma ControlCodesAreSingleControlChars()
    ensures forall c :: c in ControlCodes ==> |c| == 1 && IsControlChar(c[0])
  {
  }

  /** The other codes are CSI sequences: ESC followed by '['. */
  lemma EscapeCodesStartWithCsi()
    ensures forall c :: c in EscapeCodes ==> StartsWith(c, [Esc, '['])
  {
  }

  /** Only `Delete` holds the forward-delete marker. */
  lemma OnlyDeleteHasMarker()
    ensures forall c :: c in AllCodes ==> (Includes(c, DeleteMarker) <==> c == Delete)
  {
    assert StartsWith(Delete[1..], DeleteMarker);
    forall c | c in AllCodes && c != Delete
      ensures !Includes(c, DeleteMarker)
    {
      if |c| == 1 {
        IncludesNeedsLength(c, DeleteMarker);
      } else {
        assert |c| == 3 && c[0] == Esc;
        IncludesNeedsLength(c[1..], DeleteMarker);
      }
    }
  }

  /** Neither carriage return nor line feed is a code, so the table never
      shadows submission. */
  lemma SubmitKeysNotCodes()
    ensures "\r" !in AllCodes && "\n" !in AllCodes
  {
  }
}
