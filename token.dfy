/**
 * The token model shared by the scanner, the parser and the interpreter:
 * the lexical categories, the runtime literal values and the token record.
 * Pure data definitions; the only behaviour here is the table of the ten
 * single-character punctuation marks the scanner currently recognises.
 */
module Token {

  /** Stock optional value, standing for Rust's `Option<T>`. */
  datatype Option<T> = None | Some(value: T)

  /** The payload of a number literal (an IEEE 754 `f64`), kept opaque:
      the model does no floating-point reasoning. */
  type F64(==, !new)

  /** Lexical categories, in declaration order. */
  datatype TokenType =
      // Single-character tokens.
    | LeftParen | RightParen | LeftBrace | RightBrace
    | Comma | Dot | Minus | Plus | Semicolon | Slash | Star
      // One or two character tokens.
    | Bang | BangEqual | Equal | EqualEqual
    | Greater | GreaterEqual | Less | LessEqual
      // Literals.
    | IDENTIFIER | STRING | NUMBER
      // Keywords.
    | AND | CLASS | ELSE | FALSE | FUN | FOR | IF | NIL | OR
    | PRINT | RETURN | SUPER | THIS | TRUE | VAR | WHILE
    | EOF

  /** The dynamic runtime value. */
  datatype Literal = Nil | Boolean(b: bool) | Number(n: F64) | String(s: string)

  /** A classified, positioned unit of source text. */
  datatype Token = Token(tokenType: TokenType, lexeme: string, literal: Option<Literal>, line: nat)

  /** The ten characters the scanner turns into tokens. */
  predicate IsPunct(c: char)
  {
    c in "(){},.-+;*"
  }

  /** Every character of `s` is one the scanner accepts. */
  predicate AllPunct(s: string)
  {
    forall i :: 0 <= i < |s| ==> IsPunct(s[i])
  }

  /** The token type the scanner emits for an accepted character. */
  function PunctType(c: char): (t: TokenType)
    requires IsPunct(c)
    ensures PunctChar(t) == Some(c)
    ensures t != EOF
  {
    match c
    case '(' => LeftParen
    case ')' => RightParen
    case '{' => LeftBrace
    case '}' => RightBrace
    case ',' => Comma
    case '.' => Dot
    case '-' => Minus
    case '+' => Plus
    case ';' => Semicolon
    case '*' => Star
  }

  /** The reverse table: the one character a punctuation token type is
      scanned from, and `None` for every type the scanner does not emit. */
  function PunctChar(t: TokenType): Option<char>
  {
    match t
    case LeftParen => Some('(')
    case RightParen => Some(')')
    case LeftBrace => Some('{')
    case RightBrace => Some('}')
    case Comma => Some(',')
    case Dot => Some('.')
    case Minus => Some('-')
    case Plus => Some('+')
    case Semicolon => Some(';')
    case Star => Some('*')
    case _ => None
  }

  /** Distinct accepted characters give distinct token types. */
  lemma PunctTypeInjective(c: char, d: char)
    requires IsPunct(c) && IsPunct(d)
    ensures PunctType(c) == PunctType(d) <==> c == d
  {
  }

  /** A token type is emitted for some accepted character exactly when the
      reverse table has a character for it. */
  lemma PunctCharCoversPunctTypes(t: TokenType)
    ensures PunctChar(t).Some? <==> exists c :: IsPunct(c) && PunctType(c) == t
  {
    if PunctChar(t).Some? {
      var c := PunctChar(t).value;
      assert IsPunct(c) && PunctType(c) == t;
    }
  }

  /** The token that ends every scan. */
  function EofToken(line: nat): Token
  {
    Token(EOF, "", None, line)
  }
}
