/** The condition tokenizer (rust-old/src/condition.rs). Text is a sequence of characters: the
    source scans bytes, but acts only on ASCII ones, and no byte of a non-ASCII character is ASCII. */
module Lexer {
  import opened Wrappers

  datatype CmpOp = Eq | NotEq | Gt | Gte | Lt | Lte

  datatype Token =
    | Path(name: string)
    | StringLit(text: string)
    | NumberLit(lexeme: string)
    | BoolLit(b: bool)
    | Compare(op: CmpOp)
    | Not
    | And
    | Or
    | LParen
    | RParen

  datatype LexError = Unterminated | Unexpected(c: char)

  predicate IsSpace(c: char) { c == ' ' || c == '\t' || c == '\n' || c == '\r' || c == '\U{000C}' }

  predicate IsDigit(c: char) { '0' <= c <= '9' }

  predicate StartsWord(c: char) { 'a' <= c <= 'z' || 'A' <= c <= 'Z' || c == '_' }

  predicate IsWordChar(c: char) { StartsWord(c) || IsDigit(c) || c == '-' || c == '.' }

  predicate NotQuote(c: char) { c != '\'' }

  /** The end of the longest stretch from `i` on whose characters satisfy `p`. */
  function Span(s: string, i: nat, p: char -> bool): (j: nat)
    requires i <= |s|
    ensures i <= j <= |s|
    ensures forall k :: i <= k < j ==> p(s[k])
    ensures j < |s| ==> !p(s[j])
    decreases |s| - i
  {
    if i < |s| && p(s[i]) then Span(s, i + 1, p) else i
  }

  lemma {:induction false} SpanIs(s: string, i: nat, p: char -> bool, j: nat)
    requires i <= j <= |s| && (forall k :: i <= k < j ==> p(s[k])) && (j < |s| ==> !p(s[j]))
    ensures Span(s, i, p) == j
    decreases j - i
  {
    if i < j {
      SpanIs(s, i + 1, p, j);
    }
  }

  /** Where a number that starts the text ends: digits, then a dot and digits if a digit follows the dot. */
  function NumberEnd(s: string): (j: nat)
    ensures j <= |s|
  {
    var i := Span(s, 0, IsDigit);
    if i + 1 < |s| && s[i] == '.' && IsDigit(s[i + 1]) then Span(s, i + 1, IsDigit) else i
  }

  function WordToken(word: string): Token {
    if word == "true" then BoolLit(true) else if word == "false" then BoolLit(false) else Path(word)
  }

  function TwoCharOperator(a: char, b: char): Option<Token> {
    if a == '=' && b == '=' then Some(Compare(Eq))
    else if a == '!' && b == '=' then Some(Compare(NotEq))
    else if a == '>' && b == '=' then Some(Compare(Gte))
    else if a == '<' && b == '=' then Some(Compare(Lte))
    else if a == '&' && b == '&' then Some(And)
    else if a == '|' && b == '|' then Some(Or)
    else None
  }

  function OneCharToken(c: char): Option<Token> {
    if c == '>' then Some(Compare(Gt))
    else if c == '<' then Some(Compare(Lt))
    else if c == '!' then Some(Not)
    else if c == '(' then Some(LParen)
    else if c == ')' then Some(RParen)
    else None
  }

  datatype Scan = Blank | Found(token: Token, next: nat) | Bad(error: LexError)

  /** What the start of a non-empty text holds. */
  function ScanOne(s: string): (r: Scan)
    requires s != ""
    ensures r.Found? ==> 0 < r.next <= |s|
  {
    var c := s[0];
    if IsSpace(c) then Blank
    else if |s| > 1 && TwoCharOperator(c, s[1]).Some? then Found(TwoCharOperator(c, s[1]).value, 2)
    else if OneCharToken(c).Some? then Found(OneCharToken(c).value, 1)
    else if c == '\'' then
      var j := Span(s, 1, NotQuote);
      if j >= |s| then Bad(Unterminated) else Found(StringLit(s[1..j]), j + 1)
    else if IsDigit(c) then Found(NumberLit(s[..NumberEnd(s)]), NumberEnd(s))
    else if StartsWord(c) then Found(WordToken(s[..Span(s, 0, IsWordChar)]), Span(s, 0, IsWordChar))
    else Bad(Unexpected(c))
  }

  type Lexed = Result<seq<Token>, LexError>

  function Prepend(ts: seq<Token>, r: Lexed): Lexed {
    match r
    case Ok(us) => Ok(ts + us)
    case Err(e) => Err(e)
  }

  function Lex(s: string): Lexed {
    if s == "" then Ok([])
    else
      match ScanOne(s)
      case Blank => Lex(s[1..])
      case Found(t, n) => Prepend([t], Lex(s[n..]))
      case Bad(e) => Err(e)
  }

  /** Pushing the token that the scan finds at `i` keeps the whole text's tokens accounted for. */
  lemma PushToken(input: string, i: nat, tokens: seq<Token>, t: Token, j: nat)
    requires i < j <= |input| && Lex(input) == Prepend(tokens, Lex(input[i..]))
    requires ScanOne(input[i..]) == Found(t, j - i)
    ensures Lex(input) == Prepend(tokens + [t], Lex(input[j..]))
  {
    hide ScanOne;
    assert input[i..][j - i..] == input[j..];
    if Lex(input[j..]).Ok? {
      assert tokens + ([t] + Lex(input[j..]).value) == tokens + [t] + Lex(input[j..]).value;
    }
  }

  /** One turn of the tokenizer's loop: what is found at index `start`, and where it ends. */
  method ScanAt(input: string, start: nat) returns (r: Scan)
    requires start < |input|
    ensures r == ScanOne(input[start..])
  {
    hide WordToken, TwoCharOperator, OneCharToken, IsSpace, StartsWord, IsWordChar, IsDigit, NotQuote;
    var b := input[start];
    ghost var s := input[start..];
    if IsSpace(b) {
      return Blank;
    }
    if start + 1 < |input| && TwoCharOperator(b, input[start + 1]).Some? {
      return Found(TwoCharOperator(b, input[start + 1]).value, 2);
    }
    if OneCharToken(b).Some? {
      return Found(OneCharToken(b).value, 1);
    }
    var i: nat;
    if b == '\'' {
      i := Advance(input, start + 1, NotQuote, start);
      if i >= |input| {
        return Bad(Unterminated);
      }
      assert s[1..i - start] == input[start + 1..i];
      return Found(StringLit(input[start + 1..i]), i - start + 1);
    }
    if IsDigit(b) {
      i := Advance(input, start, IsDigit, start);
      if i < |input| && input[i] == '.' && i + 1 < |input| && IsDigit(input[i + 1]) {
        i := Advance(input, i + 1, IsDigit, start);
      }
      assert i - start == NumberEnd(s);
      assert s[..i - start] == input[start..i];
      return Found(NumberLit(input[start..i]), i - start);
    }
    if StartsWord(b) {
      i := Advance(input, start, IsWordChar, start);
      assert s[..i - start] == input[start..i];
      return Found(WordToken(input[start..i]), i - start);
    }
    r := Bad(Unexpected(b));
  }

  /** The tokenizer: one index moving over the input, tokens pushed as they are found. */
  method Tokenize(input: string) returns (r: Lexed)
    ensures r == Lex(input)
  {
    hide Lex, Prepend;
    var tokens: seq<Token> := [];
    var i := 0;
    NothingPushed(input);
    while i < |input|
      invariant 0 <= i <= |input|
      invariant Lex(input) == Prepend(tokens, Lex(input[i..]))
    {
      var scan := ScanAt(input, i);
      match scan {
        case Blank =>
          SkipSpace(input, i);
          i := i + 1;
        case Found(token, n) =>
          PushToken(input, i, tokens, token, i + n);
          tokens := tokens + [token];
          i := i + n;
        case Bad(e) =>
          StopsAt(input, i, tokens, e);
          return Err(e);
      }
    }
    AllPushed(input, tokens);
    r := Ok(tokens);
  }

  lemma NothingPushed(input: string)
    ensures Lex(input) == Prepend([], Lex(input[0..]))
  {
    assert input[0..] == input;
    if Lex(input).Ok? {
      assert [] + Lex(input).value == Lex(input).value;
    }
  }

  lemma AllPushed(input: string, tokens: seq<Token>)
    requires Lex(input) == Prepend(tokens, Lex(input[|input|..]))
    ensures Lex(input) == Ok(tokens)
  {
    assert input[|input|..] == "" && tokens + [] == tokens;
  }

  lemma SkipSpace(input: string, i: nat)
    requires i < |input| && ScanOne(input[i..]) == Blank
    ensures Lex(input[i..]) == Lex(input[i + 1..])
  {
    assert input[i..][1..] == input[i + 1..];
  }

  lemma StopsAt(input: string, i: nat, tokens: seq<Token>, e: LexError)
    requires i < |input| && Lex(input) == Prepend(tokens, Lex(input[i..])) && ScanOne(input[i..]) == Bad(e)
    ensures Lex(input) == Err(e)
  {
  }

  /** The scanning loop shared by strings, numbers and words. */
  method Advance(input: string, from: nat, p: char -> bool, ghost start: nat) returns (i: nat)
    requires start <= from <= |input|
    ensures from <= i <= |input|
    ensures i - start == Span(input[start..], from - start, p)
  {
    i := from;
    while i < |input| && p(input[i])
      invariant from <= i <= |input|
      invariant forall k :: from <= k < i ==> p(input[k])
    {
      i := i + 1;
    }
    SpanIs(input[start..], from - start, p, i - start);
  }
}
