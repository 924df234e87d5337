/** A printer for conditions, with parentheses only where precedence asks for them, and the
    round trip through compilation (grammar and compiler in rust-old/src/condition.rs). */
module Printer {
  import opened Wrappers
  import opened Lexer
  import opened LexerFacts
  import opened Parser
  import opened Grammar
  import opened Compiler

  // How tightly a context binds: a whole expression, an operand of && , of a comparison, of a prefix.
  datatype Level = OrLevel | AndLevel | CmpLevel | ValueLevel {
    function Rank(): nat {
      match this
      case OrLevel => 3
      case AndLevel => 2
      case CmpLevel => 1
      case ValueLevel => 0
    }
  }

  function OpText(op: CmpOp): string {
    match op
    case Eq => "=="
    case NotEq => "!="
    case Gt => ">"
    case Gte => ">="
    case Lt => "<"
    case Lte => "<="
  }

  function LiteralText(l: Literal): string {
    match l
    case Text(s) => "'" + s + "'"
    case Number(n) => n
    case Truth(b) => if b then "true" else "false"
  }

  /** Two operands with the operator between blanks. */
  function Infix(a: string, op: string, b: string): string {
    a + (" " + (op + (" " + b)))
  }

  function Show(level: Level, e: Expr): string
    decreases e, level.Rank() + 1
  {
    match level
    case OrLevel =>
      if e.Disj? then Infix(Show(OrLevel, e.left), "||", Show(AndLevel, e.right)) else Show(AndLevel, e)
    case AndLevel =>
      if e.Conj? then Infix(Show(AndLevel, e.left), "&&", Show(CmpLevel, e.right)) else Show(CmpLevel, e)
    case CmpLevel =>
      if e.Cmp? then Infix(Show(ValueLevel, e.left), OpText(e.op), Show(ValueLevel, e.right))
      else Show(ValueLevel, e)
    case ValueLevel =>
      if e.Neg? then "!" + Show(ValueLevel, e.inner)
      else if e.Lit? then LiteralText(e.value)
      else if e.Ref? then e.path
      else "(" + ShowInside(e) + ")"
  }

  /** A binary expression between parentheses. */
  function ShowInside(e: Expr): string
    requires e.Disj? || e.Conj? || e.Cmp?
    decreases e, 0
  {
    match e
    case Disj(l, r) => Infix(Show(OrLevel, l), "||", Show(AndLevel, r))
    case Conj(l, r) => Infix(Show(AndLevel, l), "&&", Show(CmpLevel, r))
    case Cmp(op, l, r) => Infix(Show(ValueLevel, l), OpText(op), Show(ValueLevel, r))
  }

  function Print(e: Expr): string {
    Show(OrLevel, e)
  }

  /** A number as the grammar writes it: digits, optionally a dot and more digits. */
  predicate IsNumber(s: string) {
    s != "" && IsDigit(s[0]) && NumberEnd(s) == |s|
  }

  /** A word the tokenizer reads as one path: it is not a Boolean literal. */
  predicate IsPathWord(s: string) {
    && s != "" && StartsWord(s[0]) && (forall i :: 0 <= i < |s| ==> IsWordChar(s[i]))
    && s != "true" && s != "false"
  }

  /** Expressions the grammar can express: quote-free strings, numbers and paths as written. */
  predicate Printable(e: Expr) {
    match e
    case Lit(Text(s)) => forall i :: 0 <= i < |s| ==> s[i] != '\''
    case Lit(Number(n)) => IsNumber(n)
    case Lit(Truth(_)) => true
    case Ref(p) => IsPathWord(p)
    case Cmp(_, l, r) => Printable(l) && Printable(r)
    case Neg(x) => Printable(x)
    case Conj(l, r) => Printable(l) && Printable(r)
    case Disj(l, r) => Printable(l) && Printable(r)
  }

  // ---------- What a printed text tokenizes to ----------

  /** `s` tokenizes to a derivation of `e` at `level`, and its ends are not blank. */
  ghost predicate Reads(s: string, level: Level, e: Expr) {
    && s != "" && !IsUnicodeSpace(s[0]) && s[0] != '=' && !IsUnicodeSpace(s[|s| - 1])
    && Lex(s).Ok? && Lex(s).value != [] && Derives(level, Lex(s).value, e)
  }

  ghost predicate Derives(level: Level, ts: seq<Token>, e: Expr) {
    match level
    case OrLevel => DerivesOr(ts, e)
    case AndLevel => DerivesAnd(ts, e)
    case CmpLevel => DerivesCmp(ts, e)
    case ValueLevel => DerivesValue(ts, e)
  }

  lemma SingleToken(s: string, t: Token)
    requires s != "" && ScanOne(s) == Found(t, |s|)
    ensures Lex(s) == Ok([t])
  {
    assert s[|s|..] == "";
    assert [t] + [] == [t];
  }

  lemma WordReads(s: string, t: Token)
    requires s != "" && StartsWord(s[0]) && (forall i :: 0 <= i < |s| ==> IsWordChar(s[i])) && t == WordToken(s)
    ensures Lex(s) == Ok([t])
  {
    hide WordToken;
    SpanIs(s, 0, IsWordChar, |s|);
    assert s[..|s|] == s;
    SingleToken(s, t);
  }

  lemma AtomDerives(t: Token, e: Expr)
    requires AtomOf(t) == Some(e)
    ensures DerivesValue([t], e)
  {
  }

  lemma TextReads(s: string)
    requires Printable(Lit(Text(s)))
    ensures Reads("'" + s + "'", ValueLevel, Lit(Text(s)))
  {
    hide Lex;
    var q := "'" + s + "'";
    SpanIs(q, 1, NotQuote, |s| + 1);
    assert q[1..|s| + 1] == s;
    SingleToken(q, StringLit(s));
    AtomDerives(StringLit(s), Lit(Text(s)));
  }

  lemma NumberReads(n: string)
    requires IsNumber(n)
    ensures Reads(n, ValueLevel, Lit(Number(n)))
  {
    hide Lex;
    assert n[..|n|] == n;
    SingleToken(n, NumberLit(n));
    AtomDerives(NumberLit(n), Lit(Number(n)));
    assert IsDigit(n[|n| - 1]);
  }

  lemma TruthReads(b: bool)
    ensures Reads(LiteralText(Truth(b)), ValueLevel, Lit(Truth(b)))
  {
    var s := if b then "true" else "false";
    assert WordToken(s) == BoolLit(b);
    WordReads(s, BoolLit(b));
    hide Lex;
    AtomDerives(BoolLit(b), Lit(Truth(b)));
  }

  lemma PathReads(p: string)
    requires IsPathWord(p)
    ensures Reads(p, ValueLevel, Ref(p))
  {
    assert WordToken(p) == Path(p);
    hide Lex, WordToken;
    WordReads(p, Path(p));
    AtomDerives(Path(p), Ref(p));
    assert IsWordChar(p[|p| - 1]);
  }

  lemma BlankLex(s: string)
    ensures Lex(" " + s) == Lex(s)
  {
    assert (" " + s)[1..] == s && ScanOne(" " + s) == Blank;
  }

  lemma FoundLex(s: string, t: Token, rest: string)
    requires s != "" && ScanOne(s + rest) == Found(t, |s|)
    ensures Lex(s + rest) == Prepend([t], Lex(rest))
  {
    hide ScanOne;
    assert (s + rest)[|s|..] == rest;
  }

  lemma OperatorLex(op: string, t: Token, b: string)
    requires op != "" && ScanOne(op + (" " + b)) == Found(t, |op|) && Lex(b).Ok?
    ensures Lex(" " + (op + (" " + b))) == Ok([t] + Lex(b).value)
  {
    hide ScanOne, Lex;
    BlankLex(b);
    FoundLex(op, t, " " + b);
    BlankLex(op + (" " + b));
  }

  lemma FreshLex(a: string, tail: string, ts: seq<Token>)
    requires Lex(a).Ok? && StartsFresh(tail) && Lex(tail) == Ok(ts)
    ensures Lex(a + tail) == Ok(Lex(a).value + ts)
  {
    hide ScanOne, Lex, StartsFresh;
    LexAppend(a, tail);
  }

  /** An operator between blanks separates what is left of it from what is right of it. */
  lemma BinaryLex(a: string, op: string, t: Token, b: string)
    requires op != "" && ScanOne(op + (" " + b)) == Found(t, |op|)
    requires Lex(a).Ok? && Lex(b).Ok?
    ensures Lex(Infix(a, op, b)) == Ok(Lex(a).value + [t] + Lex(b).value)
  {
    hide ScanOne, Lex, StartsFresh;
    OperatorLex(op, t, b);
    BlankStartsFresh(op + (" " + b));
    var us := Lex(b).value;
    FreshLex(a, " " + (op + (" " + b)), [t] + us);
    assert Lex(a).value + ([t] + us) == Lex(a).value + [t] + us;
  }

  lemma BlankStartsFresh(s: string)
    ensures StartsFresh(" " + s)
  {
  }

  lemma OperatorScans(op: CmpOp, b: string)
    ensures ScanOne(OpText(op) + (" " + b)) == Found(Compare(op), |OpText(op)|)
    ensures ScanOne("&&" + (" " + b)) == Found(And, 2)
    ensures ScanOne("||" + (" " + b)) == Found(Or, 2)
  {
    assert forall s: string, u: string :: s != "" ==> (s + u)[0] == s[0];
    assert |OpText(op)| > 1 ==> (OpText(op) + (" " + b))[1] == OpText(op)[1];
    assert |OpText(op)| == 1 ==> (OpText(op) + (" " + b))[1] == ' ';
  }

  lemma CmpReads(a: string, op: CmpOp, b: string, ea: Expr, eb: Expr)
    requires Reads(a, ValueLevel, ea) && Reads(b, ValueLevel, eb)
    ensures Reads(Infix(a, OpText(op), b), CmpLevel, Cmp(op, ea, eb))
  {
    hide Lex, OpText, DerivesValue;
    OperatorScans(op, b);
    assert OpText(op) != "" by {
      OpTextNonEmpty(op);
    }
    hide ScanOne;
    BinaryLex(a, OpText(op), Compare(op), b);
    JoinCmp(Lex(a).value, Lex(b).value, op, ea, eb);
  }

  lemma OpTextNonEmpty(op: CmpOp)
    ensures OpText(op) != ""
  {
  }

  lemma AndReads(a: string, b: string, ea: Expr, eb: Expr)
    requires Reads(a, AndLevel, ea) && Reads(b, CmpLevel, eb)
    ensures Reads(Infix(a, "&&", b), AndLevel, Conj(ea, eb))
  {
    hide Lex, DerivesAnd, DerivesCmp;
    OperatorScans(Eq, b);
    hide ScanOne;
    BinaryLex(a, "&&", And, b);
    JoinAnd(Lex(a).value, Lex(b).value, ea, eb);
  }

  lemma OrReads(a: string, b: string, ea: Expr, eb: Expr)
    requires Reads(a, OrLevel, ea) && Reads(b, AndLevel, eb)
    ensures Reads(Infix(a, "||", b), OrLevel, Disj(ea, eb))
  {
    hide Lex, DerivesOr, DerivesAnd;
    OperatorScans(Eq, b);
    hide ScanOne;
    BinaryLex(a, "||", Or, b);
    JoinOr(Lex(a).value, Lex(b).value, ea, eb);
  }

  lemma NotReads(a: string, e: Expr)
    requires Reads(a, ValueLevel, e)
    ensures Reads("!" + a, ValueLevel, Neg(e))
  {
    hide DerivesValue;
    assert ("!" + a)[1..] == a;
    assert ScanOne("!" + a) == Found(Not, 1);
    hide ScanOne;
    assert Lex("!" + a) == Ok([Not] + Lex(a).value);
    JoinNot(Lex(a).value, e);
  }

  lemma ParensReads(a: string, e: Expr)
    requires Reads(a, OrLevel, e)
    ensures Reads("(" + a + ")", ValueLevel, e)
  {
    hide Lex, DerivesValue, DerivesOr;
    ParensLex(a);
    JoinParens(Lex(a).value, e);
  }

  lemma Loosen(s: string, level: Level, e: Expr)
    requires Reads(s, level, e)
    ensures level == ValueLevel ==> Reads(s, CmpLevel, e)
    ensures level == CmpLevel ==> Reads(s, AndLevel, e)
    ensures level == AndLevel ==> Reads(s, OrLevel, e)
  {
    hide Lex;
  }

  lemma {:induction false} ShowReads(level: Level, e: Expr)
    requires Printable(e)
    ensures Reads(Show(level, e), level, e)
    decreases e, level.Rank() + 1
  {
    hide Reads;
    match level {
      case OrLevel =>
        if e.Disj? {
          ShowReads(OrLevel, e.left);
          ShowReads(AndLevel, e.right);
          OrReads(Show(OrLevel, e.left), Show(AndLevel, e.right), e.left, e.right);
        } else {
          ShowReads(AndLevel, e);
          Loosen(Show(AndLevel, e), AndLevel, e);
        }
      case AndLevel =>
        if e.Conj? {
          ShowReads(AndLevel, e.left);
          ShowReads(CmpLevel, e.right);
          AndReads(Show(AndLevel, e.left), Show(CmpLevel, e.right), e.left, e.right);
        } else {
          ShowReads(CmpLevel, e);
          Loosen(Show(CmpLevel, e), CmpLevel, e);
        }
      case CmpLevel =>
        if e.Cmp? {
          ShowReads(ValueLevel, e.left);
          ShowReads(ValueLevel, e.right);
          CmpReads(Show(ValueLevel, e.left), e.op, Show(ValueLevel, e.right), e.left, e.right);
        } else {
          ShowReads(ValueLevel, e);
          Loosen(Show(ValueLevel, e), ValueLevel, e);
        }
      case ValueLevel =>
        match e {
          case Neg(x) =>
            ShowReads(ValueLevel, x);
            NotReads(Show(ValueLevel, x), x);
          case Lit(Text(s)) => TextReads(s);
          case Lit(Number(n)) => NumberReads(n);
          case Lit(Truth(b)) => TruthReads(b);
          case Ref(p) => PathReads(p);
          case _ =>
            InsideReads(e);
            ParensReads(ShowInside(e), e);
        }
    }
  }

  lemma {:induction false} InsideReads(e: Expr)
    requires Printable(e) && (e.Disj? || e.Conj? || e.Cmp?)
    ensures Reads(ShowInside(e), OrLevel, e)
    decreases e, 0
  {
    hide Reads;
    match e {
      case Disj(l, r) =>
        ShowReads(OrLevel, l);
        ShowReads(AndLevel, r);
        OrReads(Show(OrLevel, l), Show(AndLevel, r), l, r);
      case Conj(l, r) =>
        ShowReads(AndLevel, l);
        ShowReads(CmpLevel, r);
        AndReads(Show(AndLevel, l), Show(CmpLevel, r), l, r);
        Loosen(ShowInside(e), AndLevel, e);
      case Cmp(op, l, r) =>
        ShowReads(ValueLevel, l);
        ShowReads(ValueLevel, r);
        CmpReads(Show(ValueLevel, l), op, Show(ValueLevel, r), l, r);
        Loosen(ShowInside(e), CmpLevel, e);
        Loosen(ShowInside(e), AndLevel, e);
    }
  }

  lemma ReadsCompiles(s: string, e: Expr)
    requires Reads(s, OrLevel, e)
    ensures CompileText(s) == Ok(e) && Compile(s) == Ok(e)
  {
    hide Lex, DerivesOr, ParseAll;
    ParsesExactlyTheGrammar(Lex(s).value, e);
    TrimKeeps(s);
  }

  /** Printing any condition and compiling the text gives the condition back. */
  lemma PrintThenCompile(e: Expr)
    requires Printable(e)
    ensures Compile(Print(e)) == Ok(e)
  {
    hide Reads;
    ShowReads(OrLevel, e);
    ReadsCompiles(Print(e), e);
  }

  /** Different conditions print differently. */
  lemma PrintIsInjective(a: Expr, b: Expr)
    requires Printable(a) && Printable(b) && Print(a) == Print(b)
    ensures a == b
  {
    PrintThenCompile(a);
    PrintThenCompile(b);
  }

  // ---------- Everything that compiles can be printed ----------

  predicate AtomPrintable(t: Token) {
    AtomOf(t).Some? ==> Printable(AtomOf(t).value)
  }

  lemma NumberTokenPrintable(s: string)
    requires s != "" && IsDigit(s[0])
    ensures IsNumber(s[..NumberEnd(s)])
  {
    var j := NumberEnd(s);
    var i := Span(s, 0, IsDigit);
    SpanIs(s[..j], 0, IsDigit, i);
    if j > i {
      SpanIs(s[..j], i + 1, IsDigit, j);
    }
  }

  lemma ScannedPrintable(s: string)
    requires s != "" && ScanOne(s).Found?
    ensures AtomPrintable(ScanOne(s).token)
  {
    if IsDigit(s[0]) {
      NumberTokenPrintable(s);
    }
    hide NumberEnd, IsNumber;
  }

  lemma {:induction false} LexedPrintable(s: string)
    requires Lex(s).Ok?
    ensures forall t :: t in Lex(s).value ==> AtomPrintable(t)
  {
    hide AtomPrintable, ScanOne;
    if s != "" {
      match ScanOne(s)
      case Blank => LexedPrintable(s[1..]);
      case Found(t, n) =>
        ScannedPrintable(s);
        LexedPrintable(s[n..]);
      case Bad(_) =>
    }
  }

  /** A derivation from printable atoms is of a printable expression. */
  lemma {:induction false} DerivedPrintable(ts: seq<Token>, e: Expr)
    requires forall t :: t in ts ==> AtomPrintable(t)
    ensures DerivesOr(ts, e) || DerivesAnd(ts, e) || DerivesCmp(ts, e) || DerivesValue(ts, e) ==> Printable(e)
    decreases |ts|, 1
  {
    if DerivesValue(ts, e) {
      if ts[0] == Not && e.Neg? && DerivesValue(ts[1..], e.inner) {
        DerivedPrintable(ts[1..], e.inner);
      } else if |ts| == 1 && AtomOf(ts[0]) == Some(e) {
        assert AtomPrintable(ts[0]);
      } else {
        DerivedPrintable(ts[1..|ts| - 1], e);
      }
    } else if DerivesCmp(ts, e) {
      var k :| SplitsAt(ts, k, Compare(e.op)) && DerivesValue(ts[..k], e.left) && DerivesValue(ts[k + 1..], e.right);
      PartsPrintable(ts, k, e.left, e.right);
    } else if DerivesAnd(ts, e) {
      var k :| SplitsAt(ts, k, And) && DerivesAnd(ts[..k], e.left) && DerivesCmp(ts[k + 1..], e.right);
      PartsPrintable(ts, k, e.left, e.right);
    } else if DerivesOr(ts, e) {
      var k :| SplitsAt(ts, k, Or) && DerivesOr(ts[..k], e.left) && DerivesAnd(ts[k + 1..], e.right);
      PartsPrintable(ts, k, e.left, e.right);
    }
  }

  lemma {:induction false} PartsPrintable(ts: seq<Token>, k: nat, left: Expr, right: Expr)
    requires k < |ts| && forall t :: t in ts ==> AtomPrintable(t)
    requires DerivesOr(ts[..k], left) || DerivesAnd(ts[..k], left) || DerivesCmp(ts[..k], left) || DerivesValue(ts[..k], left)
    requires var r := ts[k + 1..]; DerivesOr(r, right) || DerivesAnd(r, right) || DerivesCmp(r, right) || DerivesValue(r, right)
    ensures Printable(left) && Printable(right)
    decreases |ts|, 0
  {
    hide DerivesOr, DerivesAnd, DerivesCmp, DerivesValue, AtomPrintable;
    DerivedPrintable(ts[..k], left);
    DerivedPrintable(ts[k + 1..], right);
  }

  /** Every text that compiles gives a printable condition, whose text compiles to the same again. */
  lemma CompiledPrintsBack(s: string)
    requires Compile(s).Ok?
    ensures Printable(Compile(s).value) && Compile(Print(Compile(s).value)) == Compile(s)
  {
    var t := Trim(s);
    if t != "" {
      LexedPrintable(t);
      ParsesExactlyTheGrammar(Lex(t).value, Compile(s).value);
      DerivedPrintable(Lex(t).value, Compile(s).value);
    }
    hide Printable, Compile, Print;
    PrintThenCompile(Compile(s).value);
  }
}
