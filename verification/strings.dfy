/**
 The few Python `str` operations the strain parser relies on: `strip()`,
 `lower()`, `replace(old, new)` with a one-character `old`, the `in` test and
 `split(sep, 1)`. Strings are sequences of Unicode scalar values.
 */
module Strings {
  import opened Wrappers

  /** Python's `str.isspace()` for one character: the complete list of
      characters CPython classifies as whitespace. */
  predicate IsSpace(c: char) {
    || c == ' '
    || '\t' <= c <= '\r'                 // \t \n \v \f \r
    || '\U{1C}' <= c <= '\U{1F}'         // file, group, record and unit separators
    || c == '\U{85}' || c == '\U{A0}'
    || c == '\U{1680}'
    || '\U{2000}' <= c <= '\U{200A}'
    || c == '\U{2028}' || c == '\U{2029}'
    || c == '\U{202F}' || c == '\U{205F}' || c == '\U{3000}'
  }

  /** How many whitespace characters `str.lstrip()` removes from the front. */
  function LeadingSpaces(s: string): (n: nat)
    ensures n <= |s|
    ensures forall k :: 0 <= k < n ==> IsSpace(s[k])
    ensures n < |s| ==> !IsSpace(s[n])
  {
    if |s| > 0 && IsSpace(s[0]) then 1 + LeadingSpaces(s[1..]) else 0
  }

  /** How many whitespace characters `str.rstrip()` removes from the back. */
  function TrailingSpaces(s: string): (n: nat)
    ensures n <= |s|
    ensures forall k :: |s| - n <= k < |s| ==> IsSpace(s[k])
    ensures n < |s| ==> !IsSpace(s[|s| - n - 1])
  {
    if |s| > 0 && IsSpace(s[|s| - 1]) then 1 + TrailingSpaces(s[..|s| - 1]) else 0
  }

  /** A string with no whitespace at either end. */
  predicate IsStripped(s: string) {
    |s| > 0 ==> !IsSpace(s[0]) && !IsSpace(s[|s| - 1])
  }

  /** Python's `str.strip()` with no argument: the longest infix of `s` with
      no whitespace at either end, obtained by removing only whitespace. */
  function Strip(s: string): (r: string)
    ensures IsStripped(r)
    ensures var i := LeadingSpaces(s);
            && i + |r| <= |s| && r == s[i..i + |r|]
            && (forall k :: i + |r| <= k < |s| ==> IsSpace(s[k]))
  {
    var t := s[LeadingSpaces(s)..];
    t[..|t| - TrailingSpaces(t)]
  }

  /** Stripping keeps exactly the strings that have no whitespace at either end. */
  lemma StripFixedPoint(s: string)
    ensures Strip(s) == s <==> IsStripped(s)
  {
  }

  /** Stripping twice is stripping once. */
  lemma StripIdempotent(s: string)
    ensures Strip(Strip(s)) == Strip(s)
  {
    StripFixedPoint(Strip(s));
  }

  /** Position of the first occurrence of `c` in `s`, if any: the first-occurrence search
      inside `split(sep, 1)`. */
  function FindFirst(s: string, c: char): (r: Option<nat>)
    ensures r.None? <==> c !in s
    ensures r.Some? ==> r.value < |s| && s[r.value] == c && c !in s[..r.value]
  {
    if |s| == 0 then None
    else if s[0] == c then Some(0)
    else match FindFirst(s[1..], c)
      case None => None
      case Some(i) =>
        assert s[..i + 1] == [s[0]] + s[1..][..i];
        Some(i + 1)
  }

  /** Python's `s.split(sep, 1)`: the whole string when `sep` does not occur,
      otherwise the text before and the text after its first occurrence. */
  function SplitOnce(s: string, sep: char): (parts: seq<string>)
    ensures |parts| == 1 <==> sep !in s
    ensures |parts| == 1 ==> parts[0] == s
    ensures |parts| == 2 ==> sep !in parts[0] && parts[0] + [sep] + parts[1] == s
    ensures 1 <= |parts| <= 2
  {
    match FindFirst(s, sep)
    case None => [s]
    case Some(i) =>
      assert s[..i] + [sep] + s[i + 1..] == s;
      [s[..i], s[i + 1..]]
  }

  /** Python's `s.replace(from, to)` for a one-character `from`. */
  function Replace(s: string, from: char, to: string): (r: string)
    ensures from !in to ==> from !in r
    ensures forall c :: c in r ==> (c in s && c != from) || c in to
    ensures from !in s ==> r == s
  {
    if |s| == 0 then []
    else (if s[0] == from then to else [s[0]]) + Replace(s[1..], from, to)
  }

  /** `replace` works piece by piece: it distributes over concatenation. */
  lemma {:induction false} ReplaceConcat(a: string, b: string, from: char, to: string)
    ensures Replace(a + b, from, to) == Replace(a, from, to) + Replace(b, from, to)
  {
    if |a| == 0 {
      assert a + b == b;
    } else {
      assert (a + b)[0] == a[0];
      assert (a + b)[1..] == a[1..] + b;
      ReplaceConcat(a[1..], b, from, to);
    }
  }

  /** On one character `replace` substitutes `to` for `from` and keeps any
      other character; with `ReplaceConcat` this fixes `Replace` on every
      string: each character is kept in place or replaced where it stands. */
  lemma ReplaceSingle(c: char, from: char, to: string)
    ensures Replace([c], from, to) == if c == from then to else [c]
  {
    assert [c][1..] == [];
  }

  /** Python's `str.lower()` on one character, exact for ASCII and Latin-1:
      A-Z and the Latin-1 capitals U+00C0..U+00DE (except the multiplication
      sign U+00D7) move up by 32 (code point + 32). */
  function LowerChar(c: char): char {
    if 'A' <= c <= 'Z' || ('\U{C0}' <= c <= '\U{DE}' && c != '\U{D7}')
    then (c as int + 32) as char
    else c
  }

  /** A character that `lower()` leaves alone. */
  predicate IsLower(c: char) {
    LowerChar(c) == c
  }

  /** Lower-casing lands on characters that lower-casing leaves alone. */
  lemma LowerCharIsLower(c: char)
    ensures IsLower(LowerChar(c))
  {
  }

  /** Python's `str.lower()`, character by character. */
  function Lower(s: string): (r: string)
    ensures |r| == |s|
    ensures forall i :: 0 <= i < |s| ==> r[i] == LowerChar(s[i])
    ensures forall c :: c in r ==> IsLower(c)
    ensures (forall c :: c in s ==> IsLower(c)) ==> r == s
  {
    var r := seq(|s|, i requires 0 <= i < |s| => LowerChar(s[i]));
    LowerSeqFacts(s, r);
    r
  }

  /** `lower` works character by character: it distributes over concatenation. */
  lemma LowerConcat(a: string, b: string)
    ensures Lower(a + b) == Lower(a) + Lower(b)
  {
  }

  lemma LowerSeqFacts(s: string, r: string)
    requires |r| == |s| && forall i :: 0 <= i < |s| ==> r[i] == LowerChar(s[i])
    ensures forall c :: c in r ==> IsLower(c)
    ensures (forall c :: c in s ==> IsLower(c)) ==> r == s
  {
    forall c | c in r ensures IsLower(c) {
      var i :| 0 <= i < |r| && r[i] == c;
      LowerCharIsLower(s[i]);
    }
    if forall c :: c in s ==> IsLower(c) {
      forall i | 0 <= i < |s| ensures r[i] == s[i] {
        assert s[i] in s;
      }
    }
  }
}
