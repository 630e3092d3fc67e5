/**
 * ASCII character classes and the small string operations the order-number
 * extractor relies on: `str.split('\n')`, `' '.join`, `str.strip`,
 * `str.lower`, `str.isalpha` and `str(int)`.  Only ASCII behaviour is
 * modelled; the Unicode tables Python consults are not.
 */
module Chars {

  datatype Option<T> = None | Some(value: T)

  predicate IsDigit(c: char) { '0' <= c <= '9' }
  predicate IsUpper(c: char) { 'A' <= c <= 'Z' }
  predicate IsLower(c: char) { 'a' <= c <= 'z' }
  predicate IsLetter(c: char) { IsUpper(c) || IsLower(c) }
  predicate IsAlnum(c: char) { IsLetter(c) || IsDigit(c) }

  /** A character of `\w` in a regular expression: letter, digit or underscore. */
  predicate IsWordChar(c: char) { IsAlnum(c) || c == '_' }

  /** Whitespace as `\s` and `str.strip()` see it, restricted to ASCII. */
  predicate IsSpace(c: char) { c == ' ' || '\t' <= c <= '\r' || '\U{1C}' <= c <= '\U{1F}' }

  function Min(a: int, b: int): int { if a < b then a else b }

  /** The character classes that the scanners and the score count. */
  datatype CharClass = Digits | Letters | Alnums | Spaces | Hyphens | Newlines | LabelChars

  predicate InClass(c: char, k: CharClass) {
    match k
    case Digits => IsDigit(c)
    case Letters => IsLetter(c)
    case Alnums => IsAlnum(c)
    case Spaces => IsSpace(c)
    case Hyphens => c == '-'
    case Newlines => c == '\n'
    // `[A-Z0-9\.\-]` under IGNORECASE
    case LabelChars => IsAlnum(c) || c == '.' || c == '-'
  }

  /** Number of characters of `s` in class `k` (`sum(c.isdigit() for c in s)`, `s.count('-')`, ...). */
  function Count(s: string, k: CharClass): (n: nat)
    ensures n <= |s|
    ensures n == 0 <==> forall i :: 0 <= i < |s| ==> !InClass(s[i], k)
    ensures n == |s| <==> forall i :: 0 <= i < |s| ==> InClass(s[i], k)
  {
    if s == [] then 0
    else Count(s[..|s| - 1], k) + (if InClass(s[|s| - 1], k) then 1 else 0)
  }

  function Lower(c: char): (d: char)
    ensures IsLetter(c) <==> IsLetter(d)
    ensures IsDigit(c) <==> IsDigit(d)
    ensures !IsUpper(d)
  {
    if IsUpper(c) then (c as int + 32) as char else c
  }

  /** `s.lower()` on ASCII text. */
  function LowerString(s: string): (r: string)
    ensures |r| == |s|
  {
    if s == [] then [] else LowerString(s[..|s| - 1]) + [Lower(s[|s| - 1])]
  }

  /** `s.lower()` lowers each character in place. */
  lemma {:induction false} LowerStringAt(s: string)
    ensures forall i :: 0 <= i < |s| ==> LowerString(s)[i] == Lower(s[i])
  {
    if s != [] {
      LowerStringAt(s[..|s| - 1]);
    }
  }

  /** `s.isalpha()`: non-empty and made of letters only. */
  predicate IsAlpha(s: string) {
    |s| > 0 && forall i :: 0 <= i < |s| ==> IsLetter(s[i])
  }

  predicate StartsWith(s: string, prefix: string) {
    |prefix| <= |s| && s[..|prefix|] == prefix
  }

  /** `s.strip()`: drops leading and trailing whitespace. */
  function Strip(s: string): (r: string)
    ensures |r| <= |s|
    ensures r != [] ==> !IsSpace(r[0]) && !IsSpace(r[|r| - 1])
    ensures (forall i :: 0 <= i < |s| ==> !IsSpace(s[i])) ==> r == s
    decreases |s|
  {
    if s != [] && IsSpace(s[0]) then Strip(s[1..])
    else if s != [] && IsSpace(s[|s| - 1]) then Strip(s[..|s| - 1])
    else s
  }

  /** `s[a..b]` is `s` without a block of leading and a block of trailing whitespace. */
  predicate TrimmedTo(s: string, a: nat, b: nat) {
    a <= b <= |s| && (forall i :: 0 <= i < a ==> IsSpace(s[i])) && (forall i :: b <= i < |s| ==> IsSpace(s[i]))
  }

  /** `strip()` removes whitespace only at the two ends: the result is a slice with nothing but whitespace around it. */
  lemma {:induction false} StripTrimsEnds(s: string)
    ensures exists a: nat, b: nat :: TrimmedTo(s, a, b) && Strip(s) == s[a..b]
  {
    if s != [] && IsSpace(s[0]) {
      StripTrimsEnds(s[1..]);
      var a: nat, b: nat :| TrimmedTo(s[1..], a, b) && Strip(s[1..]) == s[1..][a..b];
      TrimmedAfterLeadingSpace(s, a, b);
      assert TrimmedTo(s, a + 1, b + 1) && Strip(s) == s[a + 1..b + 1];
    } else if s != [] && IsSpace(s[|s| - 1]) {
      StripTrimsEnds(s[..|s| - 1]);
      var a: nat, b: nat :| TrimmedTo(s[..|s| - 1], a, b) && Strip(s[..|s| - 1]) == s[..|s| - 1][a..b];
      TrimmedBeforeTrailingSpace(s, a, b);
      assert TrimmedTo(s, a, b) && Strip(s) == s[a..b];
    } else {
      assert TrimmedTo(s, 0, |s|) && Strip(s) == s[0..|s|];
    }
  }

  lemma TrimmedAfterLeadingSpace(s: string, a: nat, b: nat)
    requires s != [] && IsSpace(s[0]) && TrimmedTo(s[1..], a, b)
    ensures TrimmedTo(s, a + 1, b + 1) && s[1..][a..b] == s[a + 1..b + 1]
  {
    forall i | 0 < i < a + 1 ensures IsSpace(s[i]) { assert s[i] == s[1..][i - 1]; }
    forall i | b + 1 <= i < |s| ensures IsSpace(s[i]) { assert s[i] == s[1..][i - 1]; }
  }

  lemma TrimmedBeforeTrailingSpace(s: string, a: nat, b: nat)
    requires s != [] && IsSpace(s[|s| - 1]) && TrimmedTo(s[..|s| - 1], a, b)
    ensures TrimmedTo(s, a, b) && s[..|s| - 1][a..b] == s[a..b]
  {
    forall i | 0 <= i < a ensures IsSpace(s[i]) { assert s[i] == s[..|s| - 1][i]; }
    forall i | b <= i < |s| - 1 ensures IsSpace(s[i]) { assert s[i] == s[..|s| - 1][i]; }
  }

  /** `sep.join(parts)` for a one-character separator. */
  function Join(parts: seq<string>, sep: char): string
  {
    if |parts| == 0 then ""
    else if |parts| == 1 then parts[0]
    else parts[0] + [sep] + Join(parts[1..], sep)
  }

  /** `text.split('\n')`: the pieces between newlines, always at least one. */
  function SplitLines(text: string): (lines: seq<string>)
    ensures |lines| == Count(text, Newlines) + 1
    ensures forall k :: 0 <= k < |lines| ==> '\n' !in lines[k]
  {
    if text == [] then [""]
    else
      var rest := SplitLines(text[1..]);
      assert text == [text[0]] + text[1..];
      CountFront(text, Newlines);
      if text[0] == '\n' then [""] + rest
      else [[text[0]] + rest[0]] + rest[1..]
  }

  /** Decimal digit for 0..9. */
  function DigitChar(d: nat): (c: char)
    requires d < 10
    ensures IsDigit(c) && DigitValue(c) == d
  {
    ('0' as int + d) as char
  }

  function DigitValue(c: char): nat
    requires IsDigit(c)
  {
    c as int - '0' as int
  }

  /** `str(n)` for a natural number: canonical decimal, no leading zero. */
  function DecimalString(n: nat): (s: string)
    ensures |s| >= 1
    ensures forall i :: 0 <= i < |s| ==> IsDigit(s[i])
    ensures s[0] == '0' ==> n == 0 && s == "0"
  {
    if n < 10 then [DigitChar(n)] else DecimalString(n / 10) + [DigitChar(n % 10)]
  }

  /** `str(i)` for any integer. */
  function IntString(i: int): string
  {
    if i < 0 then "-" + DecimalString(-i) else DecimalString(i)
  }

  /** The number a string of decimal digits denotes (the inverse of `DecimalString`). */
  function DecimalValue(s: string): nat
    requires forall i :: 0 <= i < |s| ==> IsDigit(s[i])
  {
    if s == [] then 0 else DecimalValue(s[..|s| - 1]) * 10 + DigitValue(s[|s| - 1])
  }

  lemma CountFront(s: string, k: CharClass)
    requires s != []
    ensures Count(s, k) == (if InClass(s[0], k) then 1 else 0) + Count(s[1..], k)
  {
    if |s| > 1 {
      assert s[1..][..|s[1..]| - 1] == s[..|s| - 1][1..];
      CountFront(s[..|s| - 1], k);
    }
  }

  /** Splitting on newlines and joining back with newlines gives the text back. */
  lemma {:induction false} SplitJoin(text: string)
    ensures Join(SplitLines(text), '\n') == text
  {
    if text != [] {
      var c, rest := text[0], SplitLines(text[1..]);
      SplitJoin(text[1..]);
      SplitLinesCons(text);
      if c == '\n' {
        JoinCons("", rest, '\n');
      } else if |rest| > 1 {
        assert rest == [rest[0]] + rest[1..];
        JoinCons(rest[0], rest[1..], '\n');
        JoinCons([c] + rest[0], rest[1..], '\n');
      }
      assert text == [c] + text[1..];
    }
  }

  /** One step of `str.split('\n')`: the first character either ends the first line or starts it. */
  lemma SplitLinesCons(text: string)
    requires text != []
    ensures SplitLines(text[1..]) != []
    ensures text[0] == '\n' ==> SplitLines(text) == [""] + SplitLines(text[1..])
    ensures text[0] != '\n' ==>
              SplitLines(text) == [[text[0]] + SplitLines(text[1..])[0]] + SplitLines(text[1..])[1..]
  {
  }

  lemma JoinCons(a: string, rest: seq<string>, sep: char)
    requires rest != []
    ensures Join([a] + rest, sep) == a + [sep] + Join(rest, sep)
  {
    assert ([a] + rest)[1..] == rest;
  }


  /** `str(n)` is read back as `n`. */
  lemma {:induction false} DecimalRoundTrip(n: nat)
    ensures DecimalValue(DecimalString(n)) == n
  {
    if n >= 10 {
      var s := DecimalString(n);
      DecimalRoundTrip(n / 10);
      assert s[..|s| - 1] == DecimalString(n / 10);
    }
  }
}
