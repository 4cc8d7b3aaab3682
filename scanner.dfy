/**
 * The scanner: a cursor over the source text that appends one token per
 * consumed character and a final end-of-input token.
 *
 * The system as written recognises only the ten single-character punctuation
 * marks `( ) { } , . - + ; *`; every other character reaches an unimplemented
 * branch and aborts. The model states that as a precondition: the unscanned
 * part of the source holds only those ten characters.
 */
module Scanner {
  import opened Token

  /** The token the scanner emits for the accepted character `c`. */
  function PunctToken(c: char, line: nat): Token
    requires IsPunct(c)
  {
    Token(PunctType(c), [c], None, line)
  }

  /** The tokens for the accepted characters of `s`: one per character, in
      source order, each with the character as its lexeme and no literal. */
  function PunctTokens(s: string, line: nat): (ts: seq<Token>)
    requires AllPunct(s)
    ensures |ts| == |s|
    ensures forall i {:trigger ts[i]} :: 0 <= i < |s| ==>
              ts[i].tokenType == PunctType(s[i]) && ts[i].lexeme == [s[i]] &&
              ts[i].literal == None && ts[i].line == line
  {
    if s == [] then [] else [PunctToken(s[0], line)] + PunctTokens(s[1..], line)
  }

  /** One loop step of the scanner: the tokens already emitted after `initial`
      grow by the token of the character under the cursor. */
  lemma ScanStep(s: string, first: nat, current: nat, line: nat, initial: seq<Token>)
    requires first <= current < |s|
    requires AllPunct(s[first..current]) && AllPunct(s[first..])
    ensures IsPunct(s[current]) && s[current..current + 1] == [s[current]]
    ensures AllPunct(s[first..current + 1])
    ensures initial + PunctTokens(s[first..current], line) + [PunctToken(s[current], line)]
         == initial + PunctTokens(s[first..current + 1], line)
  {
    var done, c := s[first..current], s[current];
    assert c == s[first..][current - first];
    assert s[first..current + 1] == done + [c];
    PunctTokensSnoc(done, c, line);
  }

  /** When the cursor has reached the end, the tokens of the text consumed
      since `first`, with `EOF` appended, are those of the whole rest of the text. */
  lemma ScanDone(s: string, first: nat, line: nat, initial: seq<Token>, tokens: seq<Token>)
    requires first <= |s| && AllPunct(s[first..])
    requires tokens == initial + PunctTokens(s[first..|s|], line)
    ensures tokens + [EofToken(line)] == initial + PunctTokens(s[first..], line) + [EofToken(line)]
  {
    assert s[first..|s|] == s[first..];
  }

  /** The tokens of a text with one more accepted character: one more token. */
  lemma PunctTokensSnoc(s: string, c: char, line: nat)
    requires AllPunct(s) && IsPunct(c)
    ensures AllPunct(s + [c])
    ensures PunctTokens(s + [c], line) == PunctTokens(s, line) + [PunctToken(c, line)]
  {
    assert forall i :: 0 <= i < |s| ==> (s + [c])[i] == s[i];
    assert (s + [c])[|s|] == c;
  }

  /** What a scanner freshly made over the accepted source `s` returns. */
  function Lex(s: string): (ts: seq<Token>)
    requires AllPunct(s)
    ensures |ts| == |s| + 1
    ensures ts[|s|] == EofToken(1)
    ensures forall i :: 0 <= i < |ts| ==> (ts[i].tokenType == EOF <==> i == |s|)
    ensures forall i :: 0 <= i < |ts| ==> ts[i].literal == None && ts[i].line == 1
  {
    PunctTokens(s, 1) + [EofToken(1)]
  }

  /** The source text a token sequence was scanned from: its lexemes, joined. */
  function Unlex(ts: seq<Token>): string
  {
    if ts == [] then "" else ts[0].lexeme + Unlex(ts[1..])
  }

  lemma {:induction false} UnlexAppend(ts: seq<Token>, us: seq<Token>)
    ensures Unlex(ts + us) == Unlex(ts) + Unlex(us)
  {
    if ts == [] {
      assert ts + us == us;
    } else {
      assert (ts + us)[1..] == ts[1..] + us;
      UnlexAppend(ts[1..], us);
    }
  }

  lemma {:induction false} UnlexPunctTokens(s: string, line: nat)
    requires AllPunct(s)
    ensures Unlex(PunctTokens(s, line)) == s
  {
    if s != [] {
      UnlexPunctTokens(s[1..], line);
      assert [s[0]] + s[1..] == s;
    }
  }

  /** Round trip: the lexemes of the scanned tokens spell out the source. */
  lemma LexUnlex(s: string)
    requires AllPunct(s)
    ensures Unlex(Lex(s)) == s
  {
    UnlexAppend(PunctTokens(s, 1), [EofToken(1)]);
    UnlexPunctTokens(s, 1);
    assert Unlex([EofToken(1)]) == "";
  }

  /** The number of bytes `c` takes in UTF-8, the encoding of a Rust `String`. */
  function Utf8Width(c: char): nat
  {
    if c as int < 0x80 then 1
    else if c as int < 0x800 then 2
    else if c as int < 0x10000 then 3
    else 4
  }

  /** The byte length of `s` in UTF-8: the byte offset just past its last character. */
  function ByteLength(s: string): nat
  {
    if s == [] then 0 else Utf8Width(s[0]) + ByteLength(s[1..])
  }

  /** Character counts and byte offsets agree exactly on ASCII text, and only there. */
  lemma {:induction false} ByteLengthAscii(s: string)
    ensures ByteLength(s) >= |s|
    ensures ByteLength(s) == |s| <==> forall i :: 0 <= i < |s| ==> s[i] as int < 0x80
  {
    if s != [] {
      ByteLengthAscii(s[1..]);
      assert forall i :: 1 <= i < |s| ==> s[i] == s[1..][i - 1];
    }
  }

  /** Each character moves the byte offset on by its UTF-8 width. */
  lemma {:induction false} ByteLengthStep(s: string, n: nat)
    requires n < |s|
    ensures ByteLength(s[..n + 1]) == ByteLength(s[..n]) + Utf8Width(s[n])
  {
    if n == 0 {
      assert s[..1] == [s[0]] && s[..0] == [];
    } else {
      assert s[..n + 1][1..] == s[1..][..n];
      assert s[..n][1..] == s[1..][..n - 1];
      ByteLengthStep(s[1..], n - 1);
    }
  }

  /** On accepted source, the character index `i` (which the cursor counts, as
      `chars().nth` and `chars().count()` do) is also the byte index of that
      character (which the lexeme slice uses). */
  lemma CharIndexIsByteIndex(s: string, i: nat)
    requires AllPunct(s) && i <= |s|
    ensures ByteLength(s[..i]) == i
  {
    ByteLengthAscii(s[..i]);
  }

  /** The character index at byte offset `b` of `s`, if `b` falls on a
      character boundary (the end of the text included), and `None` otherwise. */
  function CharIndexAt(s: string, b: nat): (r: Option<nat>)
    ensures r.Some? ==> r.value <= |s| && ByteLength(s[..r.value]) == b
  {
    if b == 0 then
      assert s[..0] == [];
      Some(0)
    else if s == [] || Utf8Width(s[0]) > b then None
    else
      match CharIndexAt(s[1..], b - Utf8Width(s[0]))
      case None => None
      case Some(i) =>
        assert s[..i + 1][1..] == s[1..][..i];
        Some(i + 1)
  }

  /** Every prefix takes at least one byte per character. */
  lemma {:induction false} ByteLengthGrowth(s: string, i: nat, j: nat)
    requires i <= j <= |s|
    ensures ByteLength(s[..i]) + (j - i) <= ByteLength(s[..j])
  {
    if i < j {
      ByteLengthGrowth(s, i, j - 1);
      ByteLengthStep(s, j - 1);
    }
  }

  /** Every character boundary is found: the byte length of the first `i`
      characters is mapped back to character index `i`. */
  lemma {:induction false} CharIndexAtComplete(s: string, i: nat)
    requires i <= |s|
    ensures CharIndexAt(s, ByteLength(s[..i])) == Some(i)
  {
    if i == 0 {
      assert s[..0] == [];
    } else {
      assert s[..i][1..] == s[1..][..i - 1];
      CharIndexAtComplete(s[1..], i - 1);
    }
  }

  /** Byte offset `b` lies on a character boundary of `s` (the end included). */
  ghost predicate IsBoundary(s: string, b: nat)
  {
    exists i :: 0 <= i <= |s| && ByteLength(s[..i]) == b
  }

  /** Rust's `&s[lo..hi]` on a `String`: the text between byte offsets `lo` and
      `hi`, or `None` where Rust panics (an offset inside a character, past the
      end, or `lo > hi`); `ByteSliceExact` gives the converse. */
  function ByteSlice(s: string, lo: nat, hi: nat): (r: Option<string>)
    ensures r.Some? ==> lo <= hi && IsBoundary(s, lo) && IsBoundary(s, hi)
  {
    match (CharIndexAt(s, lo), CharIndexAt(s, hi))
    case (Some(i), Some(j)) =>
      if i <= j then
        ByteLengthGrowth(s, i, j);
        Some(s[i..j])
      else None
    case _ => None
  }

  /** The byte slice succeeds exactly when `lo <= hi` and both offsets are
      character boundaries, and then it is the text between those boundaries. */
  lemma ByteSliceExact(s: string, lo: nat, hi: nat)
    ensures ByteSlice(s, lo, hi).Some? <==> lo <= hi && IsBoundary(s, lo) && IsBoundary(s, hi)
    ensures forall i, j :: 0 <= i <= j <= |s| && ByteLength(s[..i]) == lo && ByteLength(s[..j]) == hi ==>
              ByteSlice(s, lo, hi) == Some(s[i..j])
  {
    forall i, j | 0 <= i <= j <= |s| && ByteLength(s[..i]) == lo && ByteLength(s[..j]) == hi
      ensures ByteSlice(s, lo, hi) == Some(s[i..j])
    {
      CharIndexAtComplete(s, i);
      CharIndexAtComplete(s, j);
    }
    if lo <= hi && IsBoundary(s, lo) && IsBoundary(s, hi) {
      var i :| 0 <= i <= |s| && ByteLength(s[..i]) == lo;
      var j :| 0 <= j <= |s| && ByteLength(s[..j]) == hi;
      if j < i {
        ByteLengthGrowth(s, j, i);
      }
      assert ByteSlice(s, lo, hi) == Some(s[i..j]);
    }
  }

  /** Within an ASCII prefix, byte offset `b` is character index `b`. */
  lemma {:induction false} CharIndexAtAscii(s: string, b: nat)
    requires b <= |s|
    requires forall k :: 0 <= k < b ==> s[k] as int < 0x80
    ensures CharIndexAt(s, b) == Some(b)
  {
    if b > 0 {
      assert forall k :: 0 <= k < b - 1 ==> s[1..][k] == s[k + 1];
      CharIndexAtAscii(s[1..], b - 1);
    }
  }

  /** Where the first `hi` characters take `hi` bytes (an ASCII prefix, by
      `ByteLengthAscii`), the byte slice `lo..hi` is the character slice. */
  lemma ByteSliceAscii(s: string, lo: nat, hi: nat)
    requires lo <= hi <= |s|
    requires ByteLength(s[..hi]) == hi
    ensures ByteSlice(s, lo, hi) == Some(s[lo..hi])
  {
    ByteLengthAscii(s[..hi]);
    assert forall k :: 0 <= k < hi ==> s[k] == s[..hi][k];
    CharIndexAtAscii(s, lo);
    CharIndexAtAscii(s, hi);
  }

  /** Why the cursor invariant needs ASCII: after a two-byte character, the
      character cursor and the byte slice part ways. In `"éa("`, bytes 2 to 3
      hold `"a"`, not the third character; in `"é("`, byte 1 lies inside `é`. */
  lemma NonAsciiPrefixMisplacesSlice()
    ensures ByteSlice("éa(", 2, 3) == Some("a")
    ensures ByteSlice("é(", 1, 2) == None
  {
    assert "éa("[1..][1..] == "(";
    assert CharIndexAt("éa(", 2) == Some(1);
    assert CharIndexAt("éa(", 3) == Some(2);
    assert "éa("[1..2] == "a";
    assert CharIndexAt("é(", 1) == None;
  }

  class Scanner {
    var source: string
    var tokens: seq<Token>
    var start: nat
    var current: nat
    var line: nat

    /** The cursor lies inside the source and the token start is not after it. */
    ghost predicate Valid()
      reads this
    {
      start <= current <= |source|
    }

    /** The cursor, which counts characters, is also the byte offset of its
        position: by `ByteLengthAscii`, exactly when every character before it
        is ASCII. */
    ghost predicate ConsumedAscii()
      reads this
    {
      current <= |source| && ByteLength(source[..current]) == current
    }

    /** The default scanner: empty source, no tokens, cursor at 0, line 1. */
    constructor Default()
      ensures Valid() && ConsumedAscii()
      ensures source == "" && tokens == [] && start == 0 && current == 0 && line == 1
    {
      source := "";
      tokens := [];
      start := 0;
      current := 0;
      line := 1;
    }

    /** Scans the rest of the source and returns the tokens, ended by `EOF`. */
    method ScanTokens() returns (result: seq<Token>)
      requires Valid() && ConsumedAscii() && AllPunct(source[current..])
      modifies this`start, this`current, this`tokens
      ensures Valid() && ConsumedAscii() && source == old(source) && line == old(line)
      ensures current == |source|
      ensures old(current) < |source| ==> start == |source| - 1
      ensures old(current) == |source| ==> start == old(start)
      ensures result == old(tokens) + PunctTokens(old(source[current..]), line) + [EofToken(line)]
      ensures tokens == result
    {
      ghost var first, initial := current, tokens;
      while !IsAtEnd()
        invariant Valid() && ConsumedAscii()
        invariant first <= current
        invariant start == if first == current then old(start) else current - 1
        invariant AllPunct(source[first..current])
        invariant tokens == initial + PunctTokens(source[first..current], line)
        decreases |source| - current
      {
        start := current;
        ghost var before, here := tokens, current;
        ScanStep(source, first, here, line, initial);
        ScanToken();
        assert source[start..current] == [source[here]];
        assert tokens == before + [PunctToken(source[here], line)];
      }
      ScanDone(source, first, line, initial, tokens);
      tokens := tokens + [EofToken(line)];
      result := tokens;
    }

    /** True exactly when every character of the source has been consumed:
        with the cursor inside the source, when it stands at the character count. */
    predicate IsAtEnd()
      reads this
      ensures Valid() ==> (IsAtEnd() <==> current == |source|)
    {
      current >= |source|
    }

    /** Consumes one accepted character and appends its token. */
    method ScanToken()
      requires Valid() && ConsumedAscii() && current < |source| && IsPunct(source[current])
      modifies this`current, this`tokens
      ensures Valid() && ConsumedAscii()
      ensures current == old(current) + 1
      ensures tokens == old(tokens) + [Token(PunctType(source[old(current)]), source[start..current], None, line)]
    {
      ByteLengthStep(source, current);
      var c := Advance();
      ByteSliceAscii(source, start, current);
      match c
      case '(' => AddToken(LeftParen, None);
      case ')' => AddToken(RightParen, None);
      case '{' => AddToken(LeftBrace, None);
      case '}' => AddToken(RightBrace, None);
      case ',' => AddToken(Comma, None);
      case '.' => AddToken(Dot, None);
      case '-' => AddToken(Minus, None);
      case '+' => AddToken(Plus, None);
      case ';' => AddToken(Semicolon, None);
      case '*' => AddToken(Star, None);
      case _ => assert false;
    }

    /** Consumes and returns the character under the cursor. */
    method Advance() returns (c: char)
      requires Valid() && current < |source|
      modifies this`current
      ensures Valid()
      ensures current == old(current) + 1 && c == source[old(current)]
    {
      current := current + 1;
      c := source[current - 1];
    }

    /** Appends a token whose lexeme is the source text between byte offsets
        `start` and the cursor; with only ASCII before the cursor, that is the
        text of the characters from `start` to the cursor. */
    method AddToken(tokenType: TokenType, literal: Option<Literal>)
      requires Valid()
      requires ByteSlice(source, start, current).Some?
      modifies this`tokens
      ensures tokens == old(tokens) + [Token(tokenType, ByteSlice(source, start, current).value, literal, line)]
      ensures ConsumedAscii() ==> tokens == old(tokens) + [Token(tokenType, source[start..current], literal, line)]
    {
      var text := ByteSlice(source, start, current).value;
      if ConsumedAscii() {
        ByteSliceAscii(source, start, current);
      }
      tokens := tokens + [Token(tokenType, text, literal, line)];
    }
  }

  /** A default scanner, run as it is, yields just the end-of-input token on
      line 1: the scan of the empty source. */
  method ScanDefault() returns (tokens: seq<Token>)
    ensures tokens == [EofToken(1)]
    ensures tokens == Lex("")
  {
    var scanner := new Scanner.Default();
    tokens := scanner.ScanTokens();
  }

  /** A default scanner given the source `source`, then run: exactly `Lex(source)`. */
  method Scan(source: string) returns (tokens: seq<Token>)
    requires AllPunct(source)
    ensures tokens == Lex(source)
  {
    var scanner := new Scanner.Default();
    scanner.source := source;
    tokens := scanner.ScanTokens();
    assert source[0..] == source;
  }
}
