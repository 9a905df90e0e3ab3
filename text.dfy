/** Text helpers shared by the literal renderer and the binder: the quote
    escaping rule, decimal rendering of integers, ASCII lower-casing,
    joining and character counting. A Go string is modelled as a sequence
    of characters, one per byte. */
module Text {

  predicate IsDigit(c: char) { '0' <= c <= '9' }

  /** The character class `[a-z0-9_]` of the named-placeholder pattern. */
  predicate IsIdentChar(c: char) { 'a' <= c <= 'z' || IsDigit(c) || c == '_' }

  predicate AllDigits(s: string) { forall i :: 0 <= i < |s| ==> IsDigit(s[i]) }

  // ---------------------------------------------------------------------
  // Quote escaping: every `'` is replaced by `\'` (a backslash is inserted
  // before it), and the whole is wrapped in single quotes.
  // ---------------------------------------------------------------------

  function Escape(s: string): (r: string)
    ensures |r| >= |s|
  {
    if s == [] then []
    else (if s[0] == '\'' then "\\'" else [s[0]]) + Escape(s[1..])
  }

  /** Reads an escaped text left to right, turning each `\'` back into `'`. */
  function Unescape(s: string): (r: string)
    ensures |r| <= |s|
  {
    if s == [] then []
    else if |s| >= 2 && s[0] == '\\' && s[1] == '\'' then "'" + Unescape(s[2..])
    else [s[0]] + Unescape(s[1..])
  }

  function Quote(s: string): string
  {
    "'" + Escape(s) + "'"
  }

  /** Strips the outer quotes of a literal and undoes the escaping. */
  function Unquote(t: string): string
    requires |t| >= 2
  {
    Unescape(t[1..|t| - 1])
  }

  lemma {:induction false} EscapeNeverStartsWithQuote(s: string)
    ensures Escape(s) == [] || Escape(s)[0] != '\''
  {
  }

  /** The escaping is injective: undoing it recovers the input. */
  lemma {:induction false} UnescapeEscape(s: string)
    ensures Unescape(Escape(s)) == s
  {
    if s != [] {
      UnescapeEscape(s[1..]);
      EscapeNeverStartsWithQuote(s[1..]);
      if s[0] == '\'' {
        assert Escape(s) == "\\'" + Escape(s[1..]);
        assert Escape(s)[2..] == Escape(s[1..]);
      } else {
        assert Escape(s) == [s[0]] + Escape(s[1..]);
        assert Escape(s)[1..] == Escape(s[1..]);
      }
    }
  }

  /** A quoted literal round-trips: stripping the quotes and unescaping
      gives back the original text. */
  lemma QuoteRoundTrip(s: string)
    ensures |Quote(s)| >= 2 && Quote(s)[0] == '\'' && Quote(s)[|Quote(s)| - 1] == '\''
    ensures Unquote(Quote(s)) == s
  {
    var q := Quote(s);
    assert q[1..|q| - 1] == Escape(s);
    UnescapeEscape(s);
  }

  /** Inside the escaped text every `'` is preceded by a backslash, so the
      only bare quotes of a quoted literal are its two delimiters. */
  lemma {:induction false} EscapedQuotesArePrefixed(s: string, i: nat)
    requires i < |Escape(s)| && Escape(s)[i] == '\''
    ensures i > 0 && Escape(s)[i - 1] == '\\'
  {
    if s[0] == '\'' {
      if i >= 2 {
        assert Escape(s)[2..] == Escape(s[1..]);
        EscapedQuotesArePrefixed(s[1..], i - 2);
      }
    } else {
      assert Escape(s)[1..] == Escape(s[1..]);
      EscapeNeverStartsWithQuote(s[1..]);
      EscapedQuotesArePrefixed(s[1..], i - 1);
    }
  }

  // ---------------------------------------------------------------------
  // Decimal rendering (strconv.FormatInt / FormatUint / Itoa)
  // ---------------------------------------------------------------------

  function DigitChar(d: nat): char
    requires d < 10
  {
    ['0', '1', '2', '3', '4', '5', '6', '7', '8', '9'][d]
  }

  function DigitValue(c: char): nat
    requires IsDigit(c)
  {
    (c as int - '0' as int) as nat
  }

  /** Decimal digits of n, most significant first, without leading zeros. */
  function NatToString(n: nat): (r: string)
    ensures |r| >= 1 && AllDigits(r)
    ensures r[0] == '0' ==> n == 0 && r == "0"
  {
    if n < 10 then [DigitChar(n)] else NatToString(n / 10) + [DigitChar(n % 10)]
  }

  /** The number a run of decimal digits denotes. */
  function DigitsValue(d: string): nat
    requires AllDigits(d)
  {
    if d == [] then 0 else DigitsValue(d[..|d| - 1]) * 10 + DigitValue(d[|d| - 1])
  }

  lemma {:induction false} NatToStringRoundTrip(n: nat)
    ensures DigitsValue(NatToString(n)) == n
  {
    var r := NatToString(n);
    if n >= 10 {
      NatToStringRoundTrip(n / 10);
      assert r[..|r| - 1] == NatToString(n / 10);
    }
  }

  lemma NatToStringInjective(m: nat, n: nat)
    requires NatToString(m) == NatToString(n)
    ensures m == n
  {
    NatToStringRoundTrip(m);
    NatToStringRoundTrip(n);
  }

  function IntToString(i: int): (r: string)
    ensures |r| >= 1
    ensures i >= 0 ==> r == NatToString(i)
    ensures i < 0 ==> r[0] == '-' && r[1..] == NatToString(-i)
  {
    if i < 0 then "-" + NatToString(-i) else NatToString(i)
  }

  /** Text of the form FormatInt produces: digits, or `-` and digits. */
  predicate IsIntText(s: string)
  {
    (s != [] && AllDigits(s)) || (|s| >= 2 && s[0] == '-' && AllDigits(s[1..]))
  }

  /** The integer such a text denotes. */
  function IntValue(s: string): int
    requires IsIntText(s)
  {
    if s[0] == '-' then -(DigitsValue(s[1..]) as int) else DigitsValue(s)
  }

  /** The decimal text of an integer reads back to it, sign included. */
  lemma IntToStringRoundTrip(i: int)
    ensures IsIntText(IntToString(i)) && IntValue(IntToString(i)) == i
  {
    NatToStringRoundTrip(if i < 0 then -i else i);
  }

  // ---------------------------------------------------------------------
  // strings.ToLower restricted to ASCII letters
  // ---------------------------------------------------------------------

  function LowerChar(c: char): char
  {
    if 'A' <= c <= 'Z' then (c as int + 32) as char else c
  }

  function ToLower(s: string): (r: string)
    ensures |r| == |s|
    ensures forall i :: 0 <= i < |s| ==> r[i] == LowerChar(s[i])
  {
    if s == [] then [] else [LowerChar(s[0])] + ToLower(s[1..])
  }

  // ---------------------------------------------------------------------
  // strings.Join, strings.Repeat, counting
  // ---------------------------------------------------------------------

  function Join(parts: seq<string>, sep: string): string
  {
    if parts == [] then ""
    else if |parts| == 1 then parts[0]
    else parts[0] + sep + Join(parts[1..], sep)
  }

  function Repeat(s: string, n: nat): (r: string)
    ensures |r| == n * |s|
  {
    if n == 0 then "" else s + Repeat(s, n - 1)
  }

  function Count(s: string, c: char): (n: nat)
    ensures n <= |s|
    ensures n == 0 <==> c !in s
  {
    if s == [] then 0 else (if s[0] == c then 1 else 0) + Count(s[1..], c)
  }

  lemma {:induction false} CountAppend(a: string, b: string, c: char)
    ensures Count(a + b, c) == Count(a, c) + Count(b, c)
  {
    if a != [] {
      assert (a + b)[1..] == a[1..] + b;
      CountAppend(a[1..], b, c);
    } else {
      assert a + b == b;
    }
  }

  /** Whether the two-character text `\'` occurs in `s`. */
  predicate ContainsEscapedQuote(s: string)
  {
    exists i :: 0 <= i < |s| - 1 && s[i] == '\\' && s[i + 1] == '\''
  }
}
