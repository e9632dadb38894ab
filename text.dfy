/**
 * The pieces of Python's string handling that the grid text formats rely on:
 * `str.split()` on whitespace, `str.splitlines()`, `" ".join`, `str(int)` and
 * `int(str)`.
 */
module Text {
  import opened Wrappers

  /** Whitespace as `str.split()` and `str.strip()` see it. */
  predicate IsSpace(c: char) {
    c == ' ' || ('\t' <= c <= '\r') || ('\U{1C}' <= c <= '\U{1F}')
    || c == '\U{85}' || c == '\U{A0}' || c == '\U{1680}'
    || ('\U{2000}' <= c <= '\U{200A}') || c == '\U{2028}' || c == '\U{2029}'
    || c == '\U{202F}' || c == '\U{205F}' || c == '\U{3000}'
  }

  /** Line boundaries as `str.splitlines()` sees them; every one is also whitespace. */
  predicate IsLineBreak(c: char) {
    ('\n' <= c <= '\r') || ('\U{1C}' <= c <= '\U{1E}') || c == '\U{85}'
    || c == '\U{2028}' || c == '\U{2029}'
  }

  lemma LineBreakIsSpace(c: char)
    requires IsLineBreak(c)
    ensures IsSpace(c)
  {
  }

  predicate NoSep(s: string, sep: char -> bool) {
    forall k :: 0 <= k < |s| ==> !sep(s[k])
  }

  /** The longest prefix of `s` that holds no separator. */
  function Word(s: string, sep: char -> bool): (w: string)
    ensures |w| <= |s| && w == s[..|w|]
    ensures NoSep(w, sep)
    ensures |w| == |s| || sep(s[|w|])
  {
    if s == [] || sep(s[0]) then [] else [s[0]] + Word(s[1..], sep)
  }

  /**
   * The maximal runs of non-separator characters, in order. With `IsSpace`
   * this is `s.split()`; with `IsLineBreak` it is `s.splitlines()` without
   * its empty lines.
   */
  function Words(s: string, sep: char -> bool): (r: seq<string>)
    ensures forall k :: 0 <= k < |r| ==> r[k] != [] && NoSep(r[k], sep)
    decreases |s|
  {
    if s == [] then []
    else if sep(s[0]) then Words(s[1..], sep)
    else
      var w := Word(s, sep);
      [w] + Words(s[|w|..], sep)
  }

  /** `sep.join(parts)`. */
  function Join(parts: seq<string>, sep: string): string {
    if |parts| == 0 then ""
    else if |parts| == 1 then parts[0]
    else parts[0] + sep + Join(parts[1..], sep)
  }

  lemma {:induction false} WordOfPrefix(w: string, rest: string, sep: char -> bool)
    requires NoSep(w, sep)
    requires rest == [] || sep(rest[0])
    ensures Word(w + rest, sep) == w
    decreases |w|
  {
    if w == [] {
    } else {
      assert (w + rest)[1..] == w[1..] + rest;
      WordOfPrefix(w[1..], rest, sep);
    }
  }

  lemma {:induction false} WordsOfWord(w: string, rest: string, sep: char -> bool)
    requires w != [] && NoSep(w, sep)
    requires rest == [] || sep(rest[0])
    ensures Words(w + rest, sep) == [w] + Words(rest, sep)
  {
    WordOfPrefix(w, rest, sep);
    assert (w + rest)[|w|..] == rest;
  }

  /** Splitting a separator-joined list of separator-free words gives the words back. */
  lemma {:induction false} WordsOfJoin(ws: seq<string>, c: char, sep: char -> bool)
    requires sep(c)
    requires forall k :: 0 <= k < |ws| ==> ws[k] != [] && NoSep(ws[k], sep)
    ensures Words(Join(ws, [c]), sep) == ws
  {
    if |ws| == 0 {
    } else if |ws| == 1 {
      WordsOfWord(ws[0], [], sep);
      assert ws[0] + [] == ws[0];
    } else {
      var tail := Join(ws[1..], [c]);
      assert Join(ws, [c]) == ws[0] + ([c] + tail);
      WordsOfWord(ws[0], [c] + tail, sep);
      assert ([c] + tail)[1..] == tail;
      WordsOfJoin(ws[1..], c, sep);
      assert ws == [ws[0]] + ws[1..];
    }
  }

  /** A joined list holds no character outside its parts and separator. */
  lemma {:induction false} JoinNoSep(ws: seq<string>, c: char, sep: char -> bool)
    requires !sep(c)
    requires forall k :: 0 <= k < |ws| ==> NoSep(ws[k], sep)
    ensures NoSep(Join(ws, [c]), sep)
  {
    if |ws| >= 2 {
      JoinNoSep(ws[1..], c, sep);
    }
  }

  lemma {:induction false} JoinNonEmpty(ws: seq<string>, sep: string)
    requires |ws| > 0 && ws[0] != []
    ensures Join(ws, sep) != []
  {
  }

  // ---- integers ----

  function DigitChar(d: int): (c: char)
    requires 0 <= d <= 9
    ensures '0' <= c <= '9'
  {
    (48 + d) as char
  }

  predicate IsDigit(c: char) {
    '0' <= c <= '9'
  }

  predicate AllDigits(s: string) {
    forall k :: 0 <= k < |s| ==> IsDigit(s[k])
  }

  /** The value of a string of decimal digits; leading zeros are allowed, as in `int("007")`. */
  function DigitsValue(s: string): nat
    requires AllDigits(s)
  {
    if s == [] then 0 else 10 * DigitsValue(s[..|s| - 1]) + (s[|s| - 1] as int - 48)
  }

  /** `str(n)` for a natural number: decimal digits without leading zeros. */
  function NatToString(n: nat): (s: string)
    ensures |s| > 0 && AllDigits(s)
  {
    if n < 10 then [DigitChar(n)] else NatToString(n / 10) + [DigitChar(n % 10)]
  }

  /** `str(i)`. */
  function IntToString(i: int): string {
    if i < 0 then "-" + NatToString(-i) else NatToString(i)
  }

  /** `int(s)`: an optional sign followed by at least one decimal digit; anything else raises. */
  function ParseInt(s: string): Option<int> {
    if |s| > 1 && (s[0] == '-' || s[0] == '+') && AllDigits(s[1..]) then
      var magnitude: int := DigitsValue(s[1..]);
      Some(if s[0] == '-' then -magnitude else magnitude)
    else if |s| > 0 && AllDigits(s) then
      Some(DigitsValue(s))
    else
      None
  }

  lemma {:induction false} NatToStringValue(n: nat)
    ensures DigitsValue(NatToString(n)) == n
  {
    if n >= 10 {
      var s := NatToString(n);
      NatToStringValue(n / 10);
      assert s[..|s| - 1] == NatToString(n / 10);
    }
  }

  /** `int(str(i)) == i`. */
  lemma IntRoundTrip(i: int)
    ensures ParseInt(IntToString(i)) == Some(i)
  {
    var s := IntToString(i);
    if i < 0 {
      NatToStringValue(-i);
      assert s[1..] == NatToString(-i);
    } else {
      NatToStringValue(i);
    }
  }

  /** The text of an integer holds no whitespace. */
  lemma IntToStringNoSpace(i: int)
    ensures IntToString(i) != [] && NoSep(IntToString(i), IsSpace)
  {
  }
}
