/** Reading the portal's text: digits in two scripts, white space, and the pieces its stamps are made of.
    Each reader consumes a prefix of the text and returns what is left, as the matching piece of a regular
    expression does; none of the expressions modelled ever has to give a matched character back. */
module PortalText {
  import opened Prelude

  predicate IsDigit(c: char) { '0' <= c <= '9' }

  predicate IsBengaliDigit(c: char) { '\U{09E6}' <= c <= '\U{09EF}' }

  predicate IsLetter(c: char) { 'A' <= c <= 'Z' || 'a' <= c <= 'z' }

  /** JavaScript's `\s`. */
  predicate IsSpace(c: char) {
    c == ' ' || '\U{0009}' <= c <= '\U{000D}' || c == '\U{00A0}' || c == '\U{1680}' || '\U{2000}' <= c <= '\U{200A}'
    || c == '\U{2028}' || c == '\U{2029}' || c == '\U{202F}' || c == '\U{205F}' || c == '\U{3000}' || c == '\U{FEFF}'
  }

  function Digit(d: int): (c: char)
    requires 0 <= d < 10
    ensures IsDigit(c)
  {
    ('0' as int + d) as char
  }

  function DigitValue(c: char): (d: int)
    requires IsDigit(c)
    ensures 0 <= d < 10 && Digit(d) == c
  {
    c as int - '0' as int
  }

  function ToAsciiDigit(c: char): char {
    if IsBengaliDigit(c) then (c as int - 0x09E6 + '0' as int) as char else c
  }

  function ToAsciiDigits(s: string): (r: string)
    ensures |r| == |s|
    ensures forall i :: 0 <= i < |s| ==> r[i] == ToAsciiDigit(s[i])
  {
    seq(|s|, i requires 0 <= i < |s| => ToAsciiDigit(s[i]))
  }

  function ToUpper(c: char): char {
    if 'a' <= c <= 'z' then (c as int - 32) as char else c
  }

  function ToUpperCase(s: string): (r: string)
    ensures |r| == |s|
    ensures forall i :: 0 <= i < |s| ==> r[i] == ToUpper(s[i])
  {
    seq(|s|, i requires 0 <= i < |s| => ToUpper(s[i]))
  }

  function SkipSpaces(s: string): string {
    if s != [] && IsSpace(s[0]) then SkipSpaces(s[1..]) else s
  }

  function TrimEnd(s: string): string {
    if s != [] && IsSpace(s[|s| - 1]) then TrimEnd(s[..|s| - 1]) else s
  }

  function Trim(s: string): string {
    TrimEnd(SkipSpaces(s))
  }

  lemma {:induction false} TrimEndDropsSpaces(s: string, spaces: string)
    requires s != [] && !IsSpace(s[|s| - 1]) && forall c :: c in spaces ==> IsSpace(c)
    ensures TrimEnd(s + spaces) == s
  {
    if spaces == [] {
      assert s + spaces == s;
    } else {
      assert (s + spaces)[..|s + spaces| - 1] == s + spaces[..|spaces| - 1];
      TrimEndDropsSpaces(s, spaces[..|spaces| - 1]);
    }
  }

  // ---------------------------------------------------------------- numbers

  datatype Read<T> = Read(value: T, rest: string)

  /** The digits at the front, at most `most` of them, onto a value read so far. */
  function TakeDigits(s: string, most: nat, value: nat, count: nat): (nat, nat, string)
    decreases most
  {
    if most == 0 || s == [] || !IsDigit(s[0]) then (value, count, s)
    else TakeDigits(s[1..], most - 1, value * 10 + DigitValue(s[0]), count + 1)
  }

  /** `\d{least,most}`. */
  function ReadNumber(s: string, least: nat, most: nat): Option<Read<nat>> {
    var (value, count, rest) := TakeDigits(s, most, 0, 0);
    if count < least then None else Some(Read(value, rest))
  }

  /** One given character. */
  function ReadChar(s: string, c: char): Option<string> {
    if s != [] && s[0] == c then Some(s[1..]) else None
  }

  /** `\s+`. */
  function ReadSpaces(s: string): Option<string> {
    if s != [] && IsSpace(s[0]) then Some(SkipSpaces(s)) else None
  }

  /** `[A-Za-z]+`, or nothing. */
  function Letters(s: string): (r: string)
    ensures r <= s
  {
    if s != [] && IsLetter(s[0]) then [s[0]] + Letters(s[1..]) else []
  }

  /** `(AM|PM)$` in any case: whether it is before noon. */
  function ReadMeridiem(s: string): Option<bool> {
    var upper := ToUpperCase(s);
    if upper == "AM" then Some(true) else if upper == "PM" then Some(false) else None
  }

  // ---------------------------------------------------------------- writing numbers

  function Pad2(n: int): (s: string)
    requires 0 <= n < 100
    ensures |s| == 2
  {
    [Digit(n / 10), Digit(n % 10)]
  }

  function Pad4(n: int): (s: string)
    requires 0 <= n < 10_000
    ensures |s| == 4
  {
    Pad2(n / 100) + Pad2(n % 100)
  }

  /** One or two digits, padded or not. */
  function Short(n: int, padded: bool): (s: string)
    requires 0 <= n < 100
    ensures 1 <= |s| <= 2 && IsDigit(s[0])
  {
    if padded || n >= 10 then Pad2(n) else [Digit(n)]
  }

  lemma TakeOne(d: int, s: string, most: nat, value: nat, count: nat)
    requires 0 <= d < 10 && most > 0
    ensures TakeDigits([Digit(d)] + s, most, value, count) == TakeDigits(s, most - 1, value * 10 + d, count + 1)
  {
  }

  lemma TakePair(n: int, s: string, most: nat, value: nat, count: nat)
    requires 0 <= n < 100 && most >= 2
    ensures TakeDigits(Pad2(n) + s, most, value, count) == TakeDigits(s, most - 2, value * 100 + n, count + 2)
  {
  }

  lemma ReadPad2(n: int, s: string, least: nat)
    requires 0 <= n < 100 && least <= 2
    ensures ReadNumber(Pad2(n) + s, least, 2) == Some(Read<nat>.Read(n, s))
  {
  }

  lemma ReadPad4(n: int, s: string)
    requires 0 <= n < 10_000
    ensures ReadNumber(Pad4(n) + s, 4, 4) == Some(Read<nat>.Read(n, s))
  {
    TakePair(n / 100, Pad2(n % 100) + s, 4, 0, 0);
    TakePair(n % 100, s, 2, n / 100, 2);
    assert Pad4(n) + s == Pad2(n / 100) + (Pad2(n % 100) + s);
  }

  lemma ReadShort(n: int, padded: bool, s: string)
    requires 0 <= n < 100 && (s == [] || !IsDigit(s[0]))
    ensures ReadNumber(Short(n, padded) + s, 1, 2) == Some(Read<nat>.Read(n, s))
  {
  }

  lemma ReadCharHead(c: char, s: string)
    ensures ReadChar([c] + s, c) == Some(s)
  {
  }

  lemma ReadOneSpace(s: string)
    requires s != [] && !IsSpace(s[0])
    ensures ReadSpaces(" " + s) == Some(s) && SkipSpaces(" " + s) == s && SkipSpaces(s) == s
  {
    assert (" " + s)[0] == ' ' && (" " + s)[1..] == s;
    assert SkipSpaces(" " + s) == SkipSpaces(s) == s;
  }

  lemma {:induction false} LettersOf(word: string, s: string)
    requires forall c :: c in word ==> IsLetter(c)
    requires s == [] || !IsLetter(s[0])
    ensures Letters(word + s) == word
  {
    if word == [] {
      assert word + s == s;
    } else {
      assert word[0] in word && forall c :: c in word[1..] ==> c in word;
      LettersOf(word[1..], s);
      assert (word + s)[1..] == word[1..] + s && word == [word[0]] + word[1..];
    }
  }
}
