/**
 * Diagnostic text: the location string chosen for a token and the
 * `[line N] Error<where>: <message>` line assembled from it. The text is
 * returned rather than written to standard error.
 */
module Error {
  import opened Token

  // ------------------------------------------------------------ line numbers

  predicate IsDigit(c: char)
  {
    '0' <= c <= '9'
  }

  predicate AllDigits(s: string)
  {
    forall i :: 0 <= i < |s| ==> IsDigit(s[i])
  }

  function DigitChar(d: nat): (c: char)
    requires d < 10
    ensures IsDigit(c)
  {
    ('0' as int + d) as char
  }

  function DigitValue(c: char): (d: nat)
    requires IsDigit(c)
    ensures d < 10 && DigitChar(d) == c
  {
    c as int - '0' as int
  }

  /** The decimal text of `n` as `{}` formats an unsigned integer: one or more
      digits, with a leading zero only for zero itself. */
  function Decimal(n: nat): (s: string)
    ensures |s| >= 1 && AllDigits(s)
    ensures s[0] == '0' <==> n == 0
  {
    if n < 10 then [DigitChar(n)] else Decimal(n / 10) + [DigitChar(n % 10)]
  }

  /** The value of a string of decimal digits. */
  function ParseDecimal(s: string): nat
    requires AllDigits(s)
  {
    if s == [] then 0 else 10 * ParseDecimal(s[..|s| - 1]) + DigitValue(s[|s| - 1])
  }

  /** Reading back the decimal text of `n` gives `n`. */
  lemma {:induction false} ParseDecimalOfDecimal(n: nat)
    ensures ParseDecimal(Decimal(n)) == n
  {
    var s := Decimal(n);
    if n >= 10 {
      assert s[..|s| - 1] == Decimal(n / 10);
      ParseDecimalOfDecimal(n / 10);
      assert DigitValue(DigitChar(n % 10)) == n % 10;
    } else {
      assert DigitValue(DigitChar(n)) == n;
    }
  }

  /** The longest run of digits at the front of `s`. */
  function TakeDigits(s: string): (d: string)
    ensures AllDigits(d) && |d| <= |s| && d == s[..|d|]
    ensures |d| < |s| ==> !IsDigit(s[|d|])
  {
    if s == [] || !IsDigit(s[0]) then [] else [s[0]] + TakeDigits(s[1..])
  }

  /** A digit string followed by a non-digit is exactly the leading digit run. */
  lemma {:induction false} TakeDigitsOfDigits(d: string, rest: string)
    requires AllDigits(d)
    requires rest == [] || !IsDigit(rest[0])
    ensures TakeDigits(d + rest) == d
  {
    if d != [] {
      assert (d + rest)[1..] == d[1..] + rest;
      TakeDigitsOfDigits(d[1..], rest);
      assert [d[0]] + d[1..] == d;
    } else {
      assert d + rest == rest;
    }
  }

  // --------------------------------------------------------------- location

  /** The lexeme inside a `" at '<lexeme>'"` location, if `w` has that shape. */
  function QuotedLexeme(w: string): Option<string>
  {
    if |w| >= 6 && w[..5] == " at '" && w[|w| - 1] == '\'' then Some(w[5..|w| - 1]) else None
  }

  /** The location text for a token other than the end-of-input one: the
      lexeme in quotes, which reads back and is never `" at end"`. */
  function AtLexeme(lexeme: string): (w: string)
    ensures w != " at end"
    ensures QuotedLexeme(w) == Some(lexeme)
  {
    var w := " at '" + lexeme + "'";
    assert w[4] != " at end"[4];
    assert w[..5] == " at '" && w[5..|w| - 1] == lexeme;
    w
  }

  /** The location text for a token: `" at end"` for the end-of-input token,
      whatever its lexeme, and the quoted lexeme for every other token; the two
      shapes never collide, and the quoted lexeme can be read back. */
  function Where(token: Token): (w: string)
    ensures w == " at end" <==> token.tokenType == EOF
    ensures token.tokenType == EOF ==> QuotedLexeme(w) == None
    ensures token.tokenType != EOF ==> QuotedLexeme(w) == Some(token.lexeme)
  {
    if token.tokenType == EOF then
      assert " at end"[..5] != " at '" by { assert " at end"[..5][4] == 'e'; }
      " at end"
    else AtLexeme(token.lexeme)
  }

  // ---------------------------------------------------------------- report

  /** The line number a diagnostic line starts with, if it has that shape. */
  function ReportedLine(s: string): Option<nat>
  {
    if |s| >= 6 && s[..6] == "[line " then
      var d := TakeDigits(s[6..]);
      if d != [] && 6 + |d| < |s| && s[6 + |d|] == ']' then Some(ParseDecimal(d)) else None
    else None
  }

  /** A `[line ` head, a run of digits and a `]` read back as those digits' value. */
  lemma ReadLineNumber(d: string, rest: string)
    requires |d| >= 1 && AllDigits(d) && |rest| >= 1 && rest[0] == ']'
    ensures ReportedLine("[line " + (d + rest)) == Some(ParseDecimal(d))
  {
    TakeDigitsOfDigits(d, rest);
    assert (d + rest)[|d|] == rest[0];
  }

  /** The diagnostic line `[line N] Error<where>: <message>`: it opens with
      `[line ` and the decimal line number, which can be read back; then come
      `] Error` and the location; it ends with `": "` and the message. */
  function Report(line: nat, where_: string, message: string): (r: string)
    ensures ReportedLine(r) == Some(line)
    ensures |r| == 15 + |Decimal(line)| + |where_| + |message|
    ensures r[..6 + |Decimal(line)|] == "[line " + Decimal(line)
    ensures r[6 + |Decimal(line)|..|r| - |message| - 2] == "] Error" + where_
    ensures r[|r| - |message| - 2..] == ": " + message
  {
    var d := Decimal(line);
    ReportLayout(d, where_, message);
    ReadLineNumber(d, "] Error" + where_ + ": " + message);
    ParseDecimalOfDecimal(line);
    "[line " + d + "] Error" + where_ + ": " + message
  }

  /** The diagnostic line split after the line number, and before the message. */
  lemma ReportLayout(d: string, where_: string, message: string)
    ensures "[line " + d + "] Error" + where_ + ": " + message == "[line " + (d + ("] Error" + where_ + ": " + message))
    ensures "[line " + d + "] Error" + where_ + ": " + message == ("[line " + d + "] Error" + where_) + (": " + message)
    ensures "[line " + d + "] Error" + where_ + ": " + message == ("[line " + d) + ("] Error" + where_ + ": " + message)
    ensures "[line " + d + "] Error" + where_ == ("[line " + d) + ("] Error" + where_)
  {
  }

  /** For one location, distinct (line, message) pairs give distinct lines of text. */
  lemma ReportInjective(line1: nat, line2: nat, where_: string, message1: string, message2: string)
    requires Report(line1, where_, message1) == Report(line2, where_, message2)
    ensures line1 == line2 && message1 == message2
  {
    var r := Report(line1, where_, message1);
    assert message1 == r[|r| - |message1|..];
    assert message2 == r[|r| - |message2|..];
  }

  /** The diagnostic for an error at `token`: the location is chosen from the
      token, and the token's line and the message reach `Report` unchanged. */
  function Error(token: Token, message: string): (r: string)
    ensures r == Report(token.line, Where(token), message)
  {
    if token.tokenType == EOF then Report(token.line, " at end", message)
    else Report(token.line, " at '" + token.lexeme + "'", message)
  }

  /** The location in any text equal to a report, as `Report` states it. */
  lemma ReportSegment(r: string, line: nat, where_: string, message: string)
    requires r == Report(line, where_, message)
    ensures |r| == 15 + |Decimal(line)| + |where_| + |message|
    ensures r[6 + |Decimal(line)|..|r| - |message| - 2] == "] Error" + where_
  {
  }

  /** The location the diagnostic for `token` carries, between the line
      number and the message, is `Where(token)`. */
  lemma ErrorLocation(token: Token, message: string)
    ensures var r, d := Error(token, message), Decimal(token.line);
            r[6 + |d|..|r| - |message| - 2] == "] Error" + Where(token)
  {
    ReportSegment(Error(token, message), token.line, Where(token), message);
  }

  /** The diagnostic for the end-of-input token does not depend on its lexeme. */
  lemma ErrorAtEndIgnoresLexeme(token: Token, lexeme: string, message: string)
    requires token.tokenType == EOF
    ensures Error(token, message) == Error(token.(lexeme := lexeme), message)
  {
  }

  /** The diagnostic carries the token's line, read back from its text. */
  lemma ErrorLine(token: Token, message: string)
    ensures ReportedLine(Error(token, message)) == Some(token.line)
  {
  }
}
