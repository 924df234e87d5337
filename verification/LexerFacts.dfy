/** How tokenizing composes: what two texts placed side by side tokenize to, and what
    trimming removes (rust-old/src/condition.rs). */
module LexerFacts {
  import opened Wrappers
  import opened Lexer

  /** A character that neither continues a word or number nor completes a two-character operator. */
  predicate Separates(c: char) {
    !IsWordChar(c) && c != '=' && c != '&' && c != '|'
  }

  ghost predicate StartsFresh(b: string) {
    b == "" || Separates(b[0])
  }

  lemma SpanAppend(a: string, b: string, i: nat, p: char -> bool)
    requires i <= |a|
    ensures Span(a, i, p) < |a| || b == "" || !p(b[0]) ==> Span(a + b, i, p) == Span(a, i, p)
  {
    if Span(a, i, p) < |a| || b == "" || !p(b[0]) {
      SpanIs(a + b, i, p, Span(a, i, p));
    }
  }

  lemma NumberAppend(a: string, b: string)
    requires a != "" && StartsFresh(b)
    ensures NumberEnd(a + b) == NumberEnd(a)
  {
    SpanAppend(a, b, 0, IsDigit);
    var i := Span(a, 0, IsDigit);
    if i < |a| {
      SpanAppend(a, b, i + 1, IsDigit);
    }
  }

  lemma FreshFacts(b: string)
    requires StartsFresh(b)
    ensures b == "" || (!IsDigit(b[0]) && !IsWordChar(b[0]) && forall c :: TwoCharOperator(c, b[0]) == None)
  {
  }

  /** Text that starts fresh does not change what the scan of a non-empty text finds. */
  lemma ScanAppend(a: string, b: string)
    requires a != "" && StartsFresh(b)
    ensures !ScanOne(a).Bad? ==> ScanOne(a + b) == ScanOne(a)
  {
    FreshFacts(b);
    hide WordToken, TwoCharOperator, OneCharToken, IsSpace, IsDigit, StartsWord, IsWordChar, NotQuote, StartsFresh;
    assert (a + b)[0] == a[0] && (|a| > 1 ==> (a + b)[1] == a[1]);
    if a[0] == '\'' {
      SpanAppend(a, b, 1, NotQuote);
      var j := Span(a, 1, NotQuote);
      if j < |a| {
        assert (a + b)[1..j] == a[1..j];
      }
    } else if IsDigit(a[0]) {
      NumberAppend(a, b);
      assert (a + b)[..NumberEnd(a)] == a[..NumberEnd(a)];
    } else {
      SpanAppend(a, b, 0, IsWordChar);
      assert (a + b)[..Span(a, 0, IsWordChar)] == a[..Span(a, 0, IsWordChar)];
    }
  }

  lemma BadStays(a: string, w: char)
    requires a != "" && Separates(w) && w != '\'' && ScanOne(a).Bad?
    ensures ScanOne(a + [w]).Bad?
  {
    FreshFacts([w]);
    hide WordToken, TwoCharOperator, OneCharToken, IsSpace, IsDigit, StartsWord, IsWordChar;
    assert (a + [w])[0] == a[0] && (|a| > 1 ==> (a + [w])[1] == a[1]);
    if a[0] == '\'' {
      SpanIs(a + [w], 1, NotQuote, |a| + 1);
    }
  }

  /** Tokenizing distributes over juxtaposition with text that starts fresh. */
  lemma {:induction false} LexAppend(a: string, b: string)
    requires Lex(a).Ok? && StartsFresh(b)
    ensures Lex(a + b) == Prepend(Lex(a).value, Lex(b))
    decreases |a|
  {
    hide ScanOne, StartsFresh;
    if a == "" {
      assert a + b == b;
      PrependNothing(Lex(b));
    } else {
      ScanAppend(a, b);
      var n := if ScanOne(a).Blank? then 1 else ScanOne(a).next;
      assert (a + b)[n..] == a[n..] + b;
      LexAppend(a[n..], b);
      if ScanOne(a).Found? {
        PrependTwice([ScanOne(a).token], Lex(a[n..]).value, Lex(b));
      }
    }
  }

  lemma PrependNothing(r: Lexed)
    ensures Prepend([], r) == r
  {
    if r.Ok? {
      assert [] + r.value == r.value;
    }
  }

  lemma PrependTwice(ts: seq<Token>, us: seq<Token>, r: Lexed)
    ensures Prepend(ts, Prepend(us, r)) == Prepend(ts + us, r)
  {
    if r.Ok? {
      assert ts + (us + r.value) == ts + us + r.value;
    }
  }

  /** A text that does not tokenize is not mended by one more character, unless it closes a string. */
  lemma {:induction false} LexErrorStays(a: string, w: char)
    requires Lex(a).Err? && Separates(w) && w != '\''
    ensures Lex(a + [w]).Err?
    decreases |a|
  {
    hide ScanOne;
    if ScanOne(a).Bad? {
      BadStays(a, w);
    } else {
      ScanAppend(a, [w]);
      var n := if ScanOne(a).Blank? then 1 else ScanOne(a).next;
      assert (a + [w])[n..] == a[n..] + [w];
      LexErrorStays(a[n..], w);
    }
  }
}
