/** Compiling a condition: trim, tokenize, parse, refuse leftovers (rust-old/src/condition.rs). */
module Compiler {
  import opened Wrappers
  import opened Lexer
  import opened LexerFacts
  import opened Parser
  import opened Grammar

  datatype CompileError = BadText(lex: LexError) | BadSyntax(parse: ParseError)

  // The White_Space property of Unicode, which trimming goes by.
  predicate IsUnicodeSpace(c: char) {
    || '\t' <= c <= '\r' || c == ' ' || c == '\U{0085}' || c == '\U{00A0}' || c == '\U{1680}'
    || '\U{2000}' <= c <= '\U{200A}' || c == '\U{2028}' || c == '\U{2029}' || c == '\U{202F}'
    || c == '\U{205F}' || c == '\U{3000}'
  }

  function TrimStart(s: string): string {
    if s != "" && IsUnicodeSpace(s[0]) then TrimStart(s[1..]) else s
  }

  function TrimEnd(s: string): string {
    if s != "" && IsUnicodeSpace(s[|s| - 1]) then TrimEnd(s[..|s| - 1]) else s
  }

  function Trim(s: string): string {
    TrimEnd(TrimStart(s))
  }

  type Compiled = Result<Expr, CompileError>

  /** The text without trimming. */
  function CompileText(s: string): Compiled {
    match Lex(s)
    case Err(e) => Err(BadText(e))
    case Ok(ts) =>
      match ParseAll(ts)
      case Err(e) => Err(BadSyntax(e))
      case Ok(e) => Ok(e)
  }

  /** A blank text is the condition that always holds. */
  function Compile(s: string): Compiled {
    if Trim(s) == "" then Ok(Lit(Truth(true))) else CompileText(Trim(s))
  }

  method CompileCondition(text: string) returns (r: Compiled)
    ensures r == Compile(text)
  {
    var trimmed := Trim(text);
    if trimmed == "" {
      return Ok(Lit(Truth(true)));
    }
    var tokens := Tokenize(trimmed);
    if tokens.Err? {
      return Err(BadText(tokens.error));
    }
    var parser := new TokenParser(tokens.value);
    var ast := parser.ParseOrExpr();
    if ast.Err? {
      return Err(BadSyntax(ast.error));
    }
    if parser.pos < |parser.tokens| {
      return Err(BadSyntax(Trailing(parser.tokens[parser.pos])));
    }
    r := Ok(ast.value);
  }

  // ---------- Trimming and tokenizing ----------

  predicate AsciiStart(s: string) {
    s != "" && IsUnicodeSpace(s[0]) ==> IsSpace(s[0]) && AsciiStart(s[1..])
  }

  predicate AsciiEnd(s: string) {
    s != "" && IsUnicodeSpace(s[|s| - 1]) ==> IsSpace(s[|s| - 1]) && AsciiEnd(s[..|s| - 1])
  }

  /** The blanks that trimming removes are all ones the tokenizer would skip too. */
  predicate AsciiFringe(s: string) {
    AsciiStart(s) && AsciiEnd(TrimStart(s))
  }

  lemma BlankScan(s: string)
    requires s != "" && IsUnicodeSpace(s[0])
    ensures IsSpace(s[0]) ==> ScanOne(s) == Blank
    ensures !IsSpace(s[0]) ==> ScanOne(s).Bad?
  {
  }

  lemma {:induction false} TrimStartLex(s: string)
    ensures Lex(s).Ok? <==> AsciiStart(s) && Lex(TrimStart(s)).Ok?
    ensures Lex(s).Ok? ==> Lex(TrimStart(s)) == Lex(s)
    decreases |s|
  {
    hide ScanOne, IsUnicodeSpace, IsSpace;
    if s != "" && IsUnicodeSpace(s[0]) {
      BlankScan(s);
      TrimStartLex(s[1..]);
    }
  }

  lemma {:induction false} TrimEndLex(s: string)
    ensures Lex(s).Ok? <==> AsciiEnd(s) && Lex(TrimEnd(s)).Ok?
    ensures Lex(s).Ok? ==> Lex(TrimEnd(s)) == Lex(s)
    decreases |s|
  {
    if s != "" && IsUnicodeSpace(s[|s| - 1]) {
      var a, w := s[..|s| - 1], s[|s| - 1];
      assert s == a + [w] && Separates(w) && w != '\'';
      hide ScanOne, IsUnicodeSpace, IsSpace, Separates;
      TrimEndLex(a);
      BlankScan([w]);
      assert [w][1..] == "";
      if Lex(a).Ok? {
        LexAppend(a, [w]) by {
          assert StartsFresh([w]);
        }
        assert Lex(a).value + [] == Lex(a).value;
      } else {
        LexErrorStays(a, w);
      }
    }
  }

  lemma TrimLex(s: string)
    ensures Lex(s).Ok? <==> AsciiFringe(s) && Lex(Trim(s)).Ok?
    ensures Lex(s).Ok? ==> Lex(Trim(s)) == Lex(s)
  {
    hide Lex;
    TrimStartLex(s);
    TrimEndLex(TrimStart(s));
  }

  /** Text between parentheses needs no trimming. */
  lemma TrimKeeps(s: string)
    requires s != "" && !IsUnicodeSpace(s[0]) && !IsUnicodeSpace(s[|s| - 1])
    ensures Trim(s) == s
  {
  }

  lemma ParensLex(a: string)
    ensures Lex(a).Ok? ==> Lex("(" + a + ")") == Ok([LParen] + Lex(a).value + [RParen])
    ensures Lex(a).Err? ==> Lex("(" + a + ")").Err?
  {
    var s := "(" + a + ")";
    assert s[0] == '(' && s[1..] == a + ")";
    assert ScanOne(s) == Found(LParen, 1);
    assert ")"[1..] == "" && ScanOne(")") == Found(RParen, 1);
    assert Lex(")") == Ok([RParen]) by {
      assert [RParen] + [] == [RParen];
    }
    hide ScanOne;
    if Lex(a).Ok? {
      LexAppend(a, ")");
      assert [LParen] + (Lex(a).value + [RParen]) == [LParen] + Lex(a).value + [RParen];
    } else {
      LexErrorStays(a, ')');
    }
  }

  lemma ParensParse(ts: seq<Token>, e: Expr)
    requires ParseAll(ts) == Ok(e)
    ensures DerivesValue([LParen] + ts + [RParen], e)
    ensures ParseAll([LParen] + ts + [RParen]) == Ok(e)
  {
    hide ParseOr, DerivesOr, DerivesValue;
    ParsesExactlyTheGrammar(ts, e);
    if ts == [] {
      EmptyDoesNotParse();
    }
    JoinParens(ts, e);
    ValueIsOr([LParen] + ts + [RParen], e);
    ParsesExactlyTheGrammar([LParen] + ts + [RParen], e);
  }

  lemma EmptyDoesNotParse()
    ensures ParseAll([]).Err?
  {
    assert ParseValue([]).Failed?;
  }

  lemma ValueIsOr(ts: seq<Token>, e: Expr)
    requires DerivesValue(ts, e)
    ensures DerivesCmp(ts, e) && DerivesAnd(ts, e) && DerivesOr(ts, e)
  {
  }

  lemma EmptyParensDoNotParse()
    ensures ParseAll([LParen, RParen]).Err?
  {
    var ts := [LParen, RParen];
    assert ts[1..] == [RParen];
    assert ParseValue([RParen]).Failed? && ParseCmp([RParen]).Failed? && ParseAnd([RParen]).Failed?;
    assert ParseOr([RParen]).Failed?;
    assert ParseValue(ts).Failed? && ParseCmp(ts).Failed? && ParseAnd(ts).Failed?;
  }

  lemma ParensCompile(a: string)
    ensures Compile("(" + a + ")") == CompileText("(" + a + ")")
  {
    var s := "(" + a + ")";
    assert s[0] == '(' && s[|s| - 1] == ')';
    TrimKeeps(s);
  }

  /** Parenthesising a condition changes nothing exactly when the text is not blank and its outer
      blanks are ones the tokenizer skips. */
  lemma ParensAreTransparent(a: string)
    requires Compile(a).Ok?
    ensures Compile("(" + a + ")") == Compile(a) <==> Trim(a) != "" && AsciiFringe(a)
  {
    hide Trim, AsciiFringe, ParseAll;
    TrimLex(a);
    ParensLex(a);
    ParensCompile(a);
    if Lex(a).Ok? {
      if Trim(a) == "" {
        EmptyParensDoNotParse();
        assert [LParen] + [] + [RParen] == [LParen, RParen];
      } else {
        ParensParse(Lex(a).value, Compile(a).value);
      }
    }
  }

  predicate AllBlank(s: string) {
    forall i :: 0 <= i < |s| ==> IsUnicodeSpace(s[i])
  }

  lemma {:induction false} BlanksBefore(blanks: string, s: string)
    requires AllBlank(blanks)
    ensures TrimStart(blanks + s) == TrimStart(s)
  {
    if blanks == "" {
      assert blanks + s == s;
    } else {
      assert (blanks + s)[1..] == blanks[1..] + s;
      BlanksBefore(blanks[1..], s);
    }
  }

  lemma {:induction false} BlanksAfter(s: string, blanks: string)
    requires AllBlank(blanks)
    ensures TrimEnd(s + blanks) == TrimEnd(s)
  {
    if blanks == "" {
      assert s + blanks == s;
    } else {
      var n := |blanks| - 1;
      assert (s + blanks)[..|s| + n] == s + blanks[..n];
      BlanksAfter(s, blanks[..n]);
    }
  }

  /** Trimming the start either leaves the blanks at the end in place or finds nothing else. */
  lemma {:induction false} TrimStartKeepsEnd(s: string, blanks: string)
    requires AllBlank(blanks)
    ensures TrimStart(s) != "" ==> TrimStart(s + blanks) == TrimStart(s) + blanks
    ensures TrimStart(s) == "" ==> TrimStart(s + blanks) == ""
  {
    if s == "" {
      assert s + blanks == blanks + "";
      BlanksBefore(blanks, "");
    } else {
      assert (s + blanks)[1..] == s[1..] + blanks;
      TrimStartKeepsEnd(s[1..], blanks);
    }
  }

  /** Blanks around a condition change nothing. */
  lemma BlanksAround(before: string, s: string, after: string)
    requires AllBlank(before) && AllBlank(after)
    ensures Compile(before + s + after) == Compile(s)
  {
    hide CompileText, TrimStart, TrimEnd, IsUnicodeSpace;
    assert before + s + after == before + (s + after);
    BlanksBefore(before, s + after);
    TrimStartKeepsEnd(s, after);
    if TrimStart(s) != "" {
      BlanksAfter(TrimStart(s), after);
    }
  }

  /** A blank condition is one that parenthesising breaks. */
  lemma ParensBreakBlank()
    ensures Compile("") == Ok(Lit(Truth(true))) && Compile("()").Err?
  {
    assert Trim("") == "";
    ParensAreTransparent("");
    assert "(" + "" + ")" == "()";
    ParensCompile("");
    ParensLex("");
    assert Lex("").value == [] && [LParen] + [] + [RParen] == [LParen, RParen];
    EmptyParensDoNotParse();
  }
}
