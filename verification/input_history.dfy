/** Input history (`historyOperations` and the `useInputHistory` hook): a log
    of submitted lines, newest last, with adjacent duplicates collapsed, and
    an index for recalling older and newer entries. Index -1 means "not
    navigating"; index k >= 0 recalls the entry k places back from the newest. */
module HistoryOperations {
  import opened JsString

  /** A line is blank when `entry.trim()` is empty. */
  predicate IsBlank(entry: string)
  {
    Trim(entry) == ""
  }

  predicate NoAdjacentDuplicates(h: seq<string>)
  {
    forall i :: 0 < i < |h| ==> h[i - 1] != h[i]
  }

  /** What the history invariant promises: no blank entry and no two equal
      neighbours. */
  predicate WellFormed(h: seq<string>)
  {
    NoAdjacentDuplicates(h) && forall i :: 0 <= i < |h| ==> !IsBlank(h[i])
  }

  /** The history with every entry that equals its predecessor dropped,
      read left to right as the copying loop does. */
  function Collapse(h: seq<string>): (r: seq<string>)
    ensures |r| <= |h|
    ensures NoAdjacentDuplicates(r)
    ensures h != [] ==> r != [] && r[0] == h[0] && r[|r| - 1] == h[|h| - 1]
    ensures forall x :: x in r ==> x in h
  {
    if |h| <= 1 then h
    else
      var init := h[..|h| - 1];
      var r := Collapse(init);
      if h[|h| - 1] == h[|h| - 2] then r else r + [h[|h| - 1]]
  }

  /** Collapsing keeps every value that occurs in the history. */
  lemma {:induction false} CollapseKeepsValues(h: seq<string>)
    ensures forall x :: x in h ==> x in Collapse(h)
  {
    if |h| > 1 {
      var init := h[..|h| - 1];
      CollapseKeepsValues(init);
      assert h == init + [h[|h| - 1]];
    }
  }

  /** A history without adjacent duplicates is left exactly as it is, so
      equal entries that are not neighbours survive. */
  lemma {:induction false} CollapseIdentity(h: seq<string>)
    requires NoAdjacentDuplicates(h)
    ensures Collapse(h) == h
  {
    if |h| > 1 {
      var init := h[..|h| - 1];
      CollapseIdentity(init);
      assert h == init + [h[|h| - 1]];
    }
  }

  /** `addToHistory` as a value: a blank entry or a repeat of the newest
      entry leaves the history as it was; any other entry is appended to the
      collapsed history. */
  function Added(history: seq<string>, entry: string): (r: seq<string>)
    ensures IsBlank(entry) ==> r == history
    ensures !IsBlank(entry) ==> r != [] && r[|r| - 1] == entry
    ensures |r| <= |history| + 1
    ensures forall x :: x in r ==> x in history || x == entry
    ensures !IsBlank(entry) && |history| > 0 && history[|history| - 1] == entry ==> r == history
    ensures !IsBlank(entry) && (history == [] || history[|history| - 1] != entry) ==> r == Collapse(history) + [entry]
  {
    if IsBlank(entry) then history
    else if |history| > 0 && history[|history| - 1] == entry then history
    else Collapse(history) + [entry]
  }

  /** Appending a fresh entry leaves no adjacent duplicates, ends with the
      entry and keeps every earlier value. */
  lemma AddedFresh(history: seq<string>, entry: string)
    requires !IsBlank(entry)
    requires history == [] || history[|history| - 1] != entry
    ensures var r := Added(history, entry);
            NoAdjacentDuplicates(r) && r[|r| - 1] == entry
            && (forall x :: x in history ==> x in r)
  {
    CollapseKeepsValues(history);
  }

  /** Adding keeps a well-formed history well-formed. */
  lemma AddedPreservesWellFormed(history: seq<string>, entry: string)
    requires WellFormed(history)
    ensures WellFormed(Added(history, entry))
  {
    if !IsBlank(entry) && !(|history| > 0 && history[|history| - 1] == entry) {
      CollapseIdentity(history);
      AppendWellFormed(history, entry);
    }
  }

  /** A non-blank entry that differs from the newest one can be appended to
      a well-formed history. */
  lemma AppendWellFormed(history: seq<string>, entry: string)
    requires WellFormed(history) && !IsBlank(entry)
    requires history == [] || history[|history| - 1] != entry
    ensures WellFormed(history + [entry])
  {
    var r := history + [entry];
    assert r[..|history|] == history;
    assert r[|history|] == entry;
    NoAdjacentAppend(history, entry);
  }

  /** Appending an entry unlike the newest keeps neighbours distinct. */
  lemma NoAdjacentAppend(history: seq<string>, entry: string)
    requires NoAdjacentDuplicates(history)
    requires history == [] || history[|history| - 1] != entry
    ensures NoAdjacentDuplicates(history + [entry])
  {
    var r := history + [entry];
    forall i | 0 < i < |r|
      ensures r[i - 1] != r[i]
    {
      if i < |history| {
        assert r[i - 1] == history[i - 1] && r[i] == history[i];
      }
    }
  }

  /** `addToHistory`: the copying loop. The input is never modified. */
  method AddToHistory(history: seq<string>, entry: string) returns (result: seq<string>)
    ensures result == Added(history, entry)
    ensures IsBlank(entry) ==> result == history
    ensures !IsBlank(entry) ==> result != [] && result[|result| - 1] == entry
  {
    if IsBlank(entry) {
      return history;
    }
    if |history| > 0 && history[|history| - 1] == entry {
      return history;
    }
    result := [];
    var i := 0;
    while i < |history|
      invariant 0 <= i <= |history|
      invariant result == Collapse(history[..i])
    {
      assert history[..i + 1][..i] == history[..i];
      if !(i > 0 && history[i] == history[i - 1]) {
        result := result + [history[i]];
      }
      i := i + 1;
    }
    assert history[..i] == history;
    result := result + [entry];
  }

  /** Whitespace-only entries are ignored. */
  lemma AddedBlankExample()
    ensures Added(["entry"], "   ") == ["entry"]
  {
    BlankIffAllWhitespace("   ");
  }

  /** A fresh entry collapses the run of equal entries before it. */
  lemma AddedCollapseExample()
    ensures Added(["first", "second", "second"], "third") == ["first", "second", "third"]
  {
    var h := ["first", "second", "second"];
    BlankIffAllWhitespace("third");
    assert !IsWhitespace("third"[0]);
    assert h[..2][..1] == ["first"];
    assert Collapse(h[..2]) == ["first", "second"];
    assert Collapse(h) == ["first", "second"];
  }

  /** A repeat of the newest entry leaves the history as it is, earlier
      runs of equal entries included. */
  lemma AddedRepeatExample()
    ensures Added(["first", "second", "second"], "second") == ["first", "second", "second"]
  {
    BlankIffAllWhitespace("second");
    assert !IsWhitespace("second"[0]);
  }

  /** Equal entries that are not neighbours are both kept. */
  lemma AddedNonAdjacentExample()
    ensures Added(["hello", "hi", "hello", "hey"], "world") == ["hello", "hi", "hello", "hey", "world"]
  {
    BlankIffAllWhitespace("world");
    assert !IsWhitespace("world"[0]);
    CollapseIdentity(["hello", "hi", "hello", "hey"]);
  }

  datatype Recall = Recall(entry: string, newIndex: int)

  /** `getPreviousEntry`: one step older. An empty history gives ("", -1);
      otherwise the index moves to `currentIndex + 1`, clamped into the
      history, and the entry is read that many places back from the newest. */
  function PreviousEntry(history: seq<string>, currentIndex: int): (r: Recall)
    ensures history == [] ==> r == Recall("", -1)
    ensures history != [] ==> 0 <= r.newIndex < |history|
                              && r.entry == history[|history| - 1 - r.newIndex]
    ensures history != [] ==> r.newIndex == Clamp(currentIndex + 1, 0, |history| - 1)
  {
    var n := |history|;
    if n == 0 then Recall("", -1)
    else
      var normalized := if currentIndex < -1 then -1 else currentIndex;
      var normalized := if normalized >= n then n - 1 else normalized;
      var newIndex := if normalized < n - 1 then normalized + 1 else n - 1;
      Recall(history[n - 1 - newIndex], newIndex)
  }

  function Clamp(x: int, lo: int, hi: int): int
    requires lo <= hi
  {
    if x < lo then lo else if x > hi then hi else x
  }

  /** `history[k] ?? ''`: an index outside the array reads as the empty string. */
  function EntryAt(history: seq<string>, k: int): string
  {
    if 0 <= k < |history| then history[k] else ""
  }

  /** `getNextEntry`: one step newer. From an index at or below 0 it returns
      to the live line ("", -1); otherwise the index, first capped at the
      oldest position, goes down by one, and the entry there is read, or ""
      past the newest entry. */
  function NextEntry(history: seq<string>, currentIndex: int): (r: Recall)
    ensures currentIndex <= 0 ==> r == Recall("", -1)
    ensures currentIndex > 0 ==> r.newIndex == Min(currentIndex, |history| - 1) - 1
    ensures currentIndex > 0 && r.newIndex >= 0 ==>
              r.newIndex < |history| - 1 && r.entry == history[|history| - 1 - r.newIndex]
    ensures r.newIndex < 0 ==> r.entry == ""
  {
    if currentIndex <= 0 || currentIndex < -1 then Recall("", -1)
    else
      var n := |history|;
      var normalized := if currentIndex >= n then n - 1 else currentIndex;
      var newIndex := normalized - 1;
      Recall(EntryAt(history, n - 1 - newIndex), newIndex)
  }

  function Min(a: int, b: int): int
  {
    if a <= b then a else b
  }

  /** Walking up past the oldest entry stays on it; walking back down ends
      on the live line. */
  lemma RecallWalkExample()
    ensures var h := ["first", "second", "third"];
            PreviousEntry(h, -1) == Recall("third", 0) && PreviousEntry(h, 0) == Recall("second", 1)
            && PreviousEntry(h, 1) == Recall("first", 2) && PreviousEntry(h, 2) == Recall("first", 2)
            && NextEntry(h, 2) == Recall("second", 1) && NextEntry(h, 1) == Recall("third", 0)
            && NextEntry(h, 0) == Recall("", -1)
  {
  }

  /** Stepping back and then forward again from a navigating index that is
      not the oldest returns to the same index and entry. */
  lemma PreviousThenNext(history: seq<string>, index: int)
    requires 0 <= index < |history| - 1
    ensures var p := PreviousEntry(history, index);
            NextEntry(history, p.newIndex) == Recall(history[|history| - 1 - index], index)
  {
  }

}

/** `useInputHistory`: the history and the navigation index as state. */
module InputHistory {
  import opened HistoryOperations

  class HistoryNavigator {
    var history: seq<string>
    var index: int

    /** The index is "not navigating" (-1) or a position in the history. */
    ghost predicate Valid()
      reads this
    {
      -1 <= index < |history|
    }

    constructor (initialHistory: seq<string>)
      ensures history == initialHistory && index == -1
      ensures Valid()
    {
      history := initialHistory;
      index := -1;
    }

    /** A blank entry changes nothing; any other entry goes through
        `addToHistory` and ends navigation. */
    method AddToHistory(entry: string)
      modifies this
      ensures IsBlank(entry) ==> history == old(history) && index == old(index)
      ensures !IsBlank(entry) ==> history == Added(old(history), entry) && index == -1
      ensures old(Valid()) ==> Valid()
      ensures old(WellFormed(history)) ==> WellFormed(history)
    {
      if WellFormed(history) {
        AddedPreservesWellFormed(history, entry);
      }
      if !IsBlank(entry) {
        history := HistoryOperations.AddToHistory(history, entry);
        index := -1;
      }
    }

    method GetPreviousEntry() returns (entry: string)
      modifies this
      ensures history == old(history)
      ensures Recall(entry, index) == PreviousEntry(old(history), old(index))
      ensures old(Valid()) ==> Valid()
    {
      var r := PreviousEntry(history, index);
      entry, index := r.entry, r.newIndex;
    }

    method GetNextEntry() returns (entry: string)
      modifies this
      ensures history == old(history)
      ensures Recall(entry, index) == NextEntry(old(history), old(index))
      ensures old(Valid()) ==> Valid()
    {
      var r := NextEntry(history, index);
      entry, index := r.entry, r.newIndex;
    }

    method ResetNavigation()
      modifies this
      ensures history == old(history) && index == -1
      ensures Valid()
    {
      index := -1;
    }
  }
}
