/** The few JavaScript string and array built-ins the client relies on,
    with their exact semantics: `slice` with negative and past-the-end
    indices, `trim`, `startsWith`, `indexOf` and `includes`.
    A string is a sequence of `char`s, each read as one UTF-16 code unit of
    the Basic Multilingual Plane; characters outside it are not represented
    as the two code units JavaScript counts. */
module JsString {

  datatype Option<T> = None | Some(value: T)

  /** How `slice` turns an index argument into a position: a negative index
      counts back from the end, and the result is clamped to [0, len]. */
  function Resolve(i: int, len: nat): (k: nat)
    ensures k <= len
    ensures 0 <= i <= len ==> k == i
    ensures i > len ==> k == len
    ensures i < 0 ==> k == if len + i < 0 then 0 else len + i
  {
    if i < 0 then (if len + i < 0 then 0 else len + i)
    else if i > len then len
    else i
  }

  /** `s.slice(start, end)` */
  function Slice(s: string, start: int, end: int): (r: string)
    ensures 0 <= start <= end <= |s| ==> r == s[start..end]
    ensures -|s| <= start < 0 && end >= |s| ==> r == s[|s| + start..]
    ensures end <= start && (start < 0 <==> end < 0) ==> r == ""
    ensures |r| <= |s|
  {
    var a := Resolve(start, |s|);
    var b := Resolve(end, |s|);
    if a < b then s[a..b] else ""
  }

  /** `s.slice(start)` */
  function SliceFrom(s: string, start: int): (r: string)
    ensures 0 <= start <= |s| ==> r == s[start..]
    ensures start >= |s| ==> r == ""
    ensures -|s| <= start < 0 ==> r == s[|s| + start..]
    ensures start < -|s| ==> r == s
    ensures r == Slice(s, start, |s|)
  {
    s[Resolve(start, |s|)..]
  }

  /** `s.slice(0, i) + s.slice(i)` is `s` for every index `i`, in range or not. */
  lemma SplitAt(s: string, i: int)
    ensures Slice(s, 0, i) == s[..Resolve(i, |s|)]
    ensures Slice(s, 0, i) + SliceFrom(s, i) == s
  {
    var k := Resolve(i, |s|);
    assert Slice(s, 0, i) == s[..k];
    assert s[..k] + s[k..] == s;
  }

  /** The characters `trim` removes: ECMAScript WhiteSpace and LineTerminator. */
  predicate IsWhitespace(c: char)
  {
    c == '\t' || c == '\n' || c == '\U{0B}' || c == '\U{0C}' || c == '\r' || c == ' '
    || c == '\U{A0}' || c == '\U{1680}' || ('\U{2000}' <= c <= '\U{200A}')
    || c == '\U{2028}' || c == '\U{2029}' || c == '\U{202F}' || c == '\U{205F}'
    || c == '\U{3000}' || c == '\U{FEFF}'
  }

  predicate AllWhitespace(s: string)
  {
    forall i :: 0 <= i < |s| ==> IsWhitespace(s[i])
  }

  /** Number of leading whitespace characters. */
  function LeadingWhitespace(s: string): (k: nat)
    ensures k <= |s|
    ensures AllWhitespace(s[..k])
    ensures k < |s| ==> !IsWhitespace(s[k])
  {
    if s != [] && IsWhitespace(s[0]) then
      var k := 1 + LeadingWhitespace(s[1..]);
      assert s[..k] == [s[0]] + s[1..][..k - 1];
      k
    else 0
  }

  /** Number of trailing whitespace characters. */
  function TrailingWhitespace(s: string): (k: nat)
    ensures k <= |s|
    ensures AllWhitespace(s[|s| - k..])
    ensures k < |s| ==> !IsWhitespace(s[|s| - 1 - k])
  {
    if s != [] && IsWhitespace(s[|s| - 1]) then
      var init := s[..|s| - 1];
      var j := TrailingWhitespace(init);
      TailSplit(s, j);
      AllWhitespaceAppend(init[|init| - j..], s[|s| - 1]);
      assert j + 1 < |s| ==> s[|s| - 1 - (j + 1)] == init[|init| - 1 - j];
      j + 1
    else 0
  }

  /** The last `j + 1` elements are the last `j` of all but the last, then the last. */
  lemma TailSplit(s: string, j: nat)
    requires j < |s|
    ensures s[|s| - (j + 1)..] == s[..|s| - 1][|s| - 1 - j..] + [s[|s| - 1]]
  {
  }

  lemma AllWhitespaceAppend(a: string, c: char)
    requires AllWhitespace(a) && IsWhitespace(c)
    ensures AllWhitespace(a + [c])
  {
    assert forall i :: 0 <= i < |a| ==> (a + [c])[i] == a[i];
  }

  /** `s.trim()` */
  function Trim(s: string): (r: string)
    ensures |r| <= |s|
    ensures r != [] ==> !IsWhitespace(r[0]) && !IsWhitespace(r[|r| - 1])
  {
    var front := s[LeadingWhitespace(s)..];
    front[..|front| - TrailingWhitespace(front)]
  }

  /** `trim` cuts whitespace off both ends and nothing else: the input is
      whitespace, then the result, then whitespace, and the result neither
      starts nor ends with whitespace. */
  lemma TrimShape(s: string) returns (lead: nat, trail: nat)
    ensures lead + |Trim(s)| + trail == |s|
    ensures s == s[..lead] + Trim(s) + s[lead + |Trim(s)|..]
    ensures AllWhitespace(s[..lead]) && AllWhitespace(s[lead + |Trim(s)|..])
  {
    lead := LeadingWhitespace(s);
    var front := s[lead..];
    trail := TrailingWhitespace(front);
    var t := front[..|front| - trail];
    assert Trim(s) == t;
    var back := lead + |t|;
    assert s[back..] == front[|front| - trail..];
    SplitThree(s, lead, back);
    assert s[lead..back] == t;
  }

  /** Cutting a string at two points and joining the pieces gives it back. */
  lemma SplitThree(s: string, a: nat, b: nat)
    requires a <= b <= |s|
    ensures s == s[..a] + s[a..b] + s[b..]
  {
    assert s[..a] + s[a..b] == s[..b];
  }

  /** A string is blank (`!s.trim()` in the source) exactly when every
      character of it is whitespace. */
  lemma BlankIffAllWhitespace(s: string)
    ensures Trim(s) == "" <==> AllWhitespace(s)
  {
    var lead, trail := TrimShape(s);
    if Trim(s) == "" {
      assert s == s[..lead] + s[lead..];
      forall i | 0 <= i < |s| ensures IsWhitespace(s[i]) {
        if i < lead { assert s[i] == s[..lead][i]; } else { assert s[i] == s[lead..][i - lead]; }
      }
    } else {
      var t := Trim(s);
      assert s[lead] == t[0];
    }
  }

  /** A string with no whitespace at either end is its own trim. */
  lemma TrimOfTrimmed(s: string)
    requires s != [] ==> !IsWhitespace(s[0]) && !IsWhitespace(s[|s| - 1])
    ensures Trim(s) == s
  {
    assert LeadingWhitespace(s) == 0;
    assert s[0..] == s;
    assert TrailingWhitespace(s) == 0;
  }

  /** `s.startsWith(p)` */
  function StartsWith(s: string, p: string): (b: bool)
    ensures b <==> |p| <= |s| && forall i :: 0 <= i < |p| ==> s[i] == p[i]
  {
    |p| <= |s| && s[..|p|] == p
  }

  /** `s.indexOf(c)` for a one-character needle: the first position of `c`, or -1. */
  function IndexOf(s: string, c: char): (r: int)
    ensures -1 <= r < |s|
    ensures r == -1 <==> c !in s
    ensures r >= 0 ==> s[r] == c && c !in s[..r]
  {
    if s == [] then -1
    else if s[0] == c then 0
    else
      var r := IndexOf(s[1..], c);
      if r == -1 then -1
      else
        assert s[..r + 1] == [s[0]] + s[1..][..r];
        r + 1
  }

  /** The first occurrence is the one `indexOf` reports. */
  lemma {:induction false} IndexOfAt(s: string, c: char, k: nat)
    requires k < |s| && s[k] == c && c !in s[..k]
    ensures IndexOf(s, c) == k
  {
    if k > 0 {
      assert s[0] == s[..k][0];
      assert s[1..][..k - 1] == s[1..k];
      assert forall x :: x in s[1..k] ==> x in s[..k];
      IndexOfAt(s[1..], c, k - 1);
    }
  }

  /** `s.includes(sub)` */
  predicate Includes(s: string, sub: string)
  {
    StartsWith(s, sub) || (s != [] && Includes(s[1..], sub))
  }

  /** `includes` finds `sub` wherever it occurs. */
  lemma {:induction false} IncludesAt(s: string, sub: string, i: nat)
    requires i + |sub| <= |s| && s[i..i + |sub|] == sub
    ensures Includes(s, sub)
  {
    if i > 0 {
      assert s[1..][i - 1..i - 1 + |sub|] == s[i..i + |sub|];
      IncludesAt(s[1..], sub, i - 1);
    }
  }

  /** `sub` occurs in `s` starting at position `i`. */
  predicate OccursAt(s: string, sub: string, i: nat)
  {
    i + |sub| <= |s| && s[i..i + |sub|] == sub
  }

  /** `includes` holds exactly when `sub` occurs at some position. */
  lemma {:induction false} IncludesIff(s: string, sub: string)
    ensures Includes(s, sub) <==> exists i: nat :: OccursAt(s, sub, i)
  {
    if Includes(s, sub) {
      if StartsWith(s, sub) {
        assert OccursAt(s, sub, 0);
      } else {
        IncludesIff(s[1..], sub);
        var i: nat :| OccursAt(s[1..], sub, i);
        assert s[1..][i..i + |sub|] == s[i + 1..i + 1 + |sub|];
        assert OccursAt(s, sub, i + 1);
      }
    }
    if exists i: nat :: OccursAt(s, sub, i) {
      var i: nat :| OccursAt(s, sub, i);
      IncludesAt(s, sub, i);
    }
  }

  /** A string shorter than `sub` cannot include it. */
  lemma {:induction false} IncludesNeedsLength(s: string, sub: string)
    requires |s| < |sub|
    ensures !Includes(s, sub)
  {
    if s != [] {
      IncludesNeedsLength(s[1..], sub);
    }
  }
}
