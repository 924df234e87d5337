/** Boolean algebra at the level of condition texts: whatever texts are combined with `!`, `&&`,
    `||` and parentheses, the combined text evaluates as the connectives say
    (rust-old/src/condition.rs; the laws sampled in fuzz/condition_expr.fcyr). */
module BooleanLaws {
  import opened Wrappers
  import opened Lexer
  import opened Parser
  import opened Grammar
  import opened Compiler
  import opened Printer
  import opened Evaluation

  /** `evaluate`: compile, then the truth of the value. */
  function Evaluate(text: string, context: Json): Result<bool, CompileError> {
    match Compile(text)
    case Err(e) => Err(e)
    case Ok(e) => Ok(Holds(e, context))
  }

  // A Boolean combination of condition texts.
  datatype Formula =
    | Atom(text: string)
    | Constant(value: bool)
    | Inverse(inner: Formula)
    | Both(left: Formula, right: Formula)
    | Either(left: Formula, right: Formula)

  function Parens(text: string): string {
    "(" + text + ")"
  }

  /** The text of a combination: atoms and binary operands parenthesised, constants bare. */
  function Source(f: Formula): string
    decreases f, 0
  {
    match f
    case Atom(text) => Parens(text)
    case Constant(b) => LiteralText(Truth(b))
    case Inverse(g) => "!" + Operand(g)
    case Both(l, r) => Infix(Operand(l), "&&", Operand(r))
    case Either(l, r) => Infix(Operand(l), "||", Operand(r))
  }

  function Operand(f: Formula): string
    decreases f, 1
  {
    if f.Atom? || f.Constant? || f.Inverse? then Source(f) else Parens(Source(f))
  }

  /** Every combined text tokenizes and parses on its own. */
  predicate AtomsOk(f: Formula) {
    match f
    case Atom(text) => CompileText(text).Ok?
    case Constant(_) => true
    case Inverse(g) => AtomsOk(g)
    case Both(l, r) => AtomsOk(l) && AtomsOk(r)
    case Either(l, r) => AtomsOk(l) && AtomsOk(r)
  }

  function AstOf(f: Formula): Expr
    requires AtomsOk(f)
  {
    match f
    case Atom(text) => CompileText(text).value
    case Constant(b) => Lit(Truth(b))
    case Inverse(g) => Neg(AstOf(g))
    case Both(l, r) => Conj(AstOf(l), AstOf(r))
    case Either(l, r) => Disj(AstOf(l), AstOf(r))
  }

  /** What the connectives make of a truth value for each text. */
  function Meaning(f: Formula, v: string -> bool): bool {
    match f
    case Atom(text) => v(text)
    case Constant(b) => b
    case Inverse(g) => !Meaning(g, v)
    case Both(l, r) => Meaning(l, v) && Meaning(r, v)
    case Either(l, r) => Meaning(l, v) || Meaning(r, v)
  }

  /** The truth value of each text in a context. */
  function Truths(context: Json): string -> bool {
    text => Evaluate(text, context) == Ok(true)
  }

  // ---------- Texts read as their combination ----------

  lemma AtomReads(text: string)
    requires CompileText(text).Ok?
    ensures Reads(Parens(text), ValueLevel, CompileText(text).value)
  {
    hide Lex, DerivesValue, ParseAll;
    ParensLex(text);
    ParensParse(Lex(text).value, CompileText(text).value);
  }

  lemma ValueLoosens(s: string, e: Expr)
    requires Reads(s, ValueLevel, e)
    ensures Reads(s, CmpLevel, e) && Reads(s, AndLevel, e) && Reads(s, OrLevel, e)
  {
    hide Reads;
    Loosen(s, ValueLevel, e);
    Loosen(s, CmpLevel, e);
    Loosen(s, AndLevel, e);
  }

  lemma {:induction false} OperandReads(f: Formula)
    requires AtomsOk(f)
    ensures Reads(Operand(f), ValueLevel, AstOf(f))
    decreases f, 1
  {
    hide Reads, CompileText, Infix;
    match f {
      case Atom(text) => AtomReads(text);
      case Constant(b) => TruthReads(b);
      case Inverse(g) =>
        OperandReads(g);
        NotReads(Operand(g), AstOf(g));
      case _ =>
        SourceReads(f);
        ParensReads(Source(f), AstOf(f));
    }
  }

  lemma {:induction false} SourceReads(f: Formula)
    requires AtomsOk(f)
    ensures Reads(Source(f), OrLevel, AstOf(f))
    decreases f, 0
  {
    hide Reads, CompileText;
    match f {
      case Atom(text) =>
        AtomReads(text);
        ValueLoosens(Source(f), AstOf(f));
      case Constant(b) =>
        TruthReads(b);
        ValueLoosens(Source(f), AstOf(f));
      case Inverse(g) =>
        OperandReads(g);
        NotReads(Operand(g), AstOf(g));
        ValueLoosens(Source(f), AstOf(f));
      case Both(l, r) =>
        OperandReads(l);
        OperandReads(r);
        ValueLoosens(Operand(l), AstOf(l));
        ValueLoosens(Operand(r), AstOf(r));
        AndReads(Operand(l), Operand(r), AstOf(l), AstOf(r));
        Loosen(Source(f), AndLevel, AstOf(f));
      case Either(l, r) =>
        OperandReads(l);
        OperandReads(r);
        ValueLoosens(Operand(l), AstOf(l));
        ValueLoosens(Operand(r), AstOf(r));
        OrReads(Operand(l), Operand(r), AstOf(l), AstOf(r));
    }
  }

  lemma TextCompiles(text: string)
    requires CompileText(text).Ok?
    ensures Compile(text) == CompileText(text)
  {
    hide Lex, Trim, AsciiFringe, ParseAll;
    TrimLex(text);
    if Trim(text) == "" {
      EmptyDoesNotParse();
      EmptyLex();
    }
  }

  lemma EmptyLex()
    ensures Lex("") == Ok([])
  {
  }

  lemma {:induction false} AstMeans(f: Formula, context: Json)
    requires AtomsOk(f)
    ensures Holds(AstOf(f), context) == Meaning(f, Truths(context))
  {
    hide CompileText, Compile, DecimalValue, FloatOverflow, ResolvePath;
    match f {
      case Atom(text) => TextCompiles(text);
      case Constant(_) =>
      case Inverse(g) => AstMeans(g, context);
      case Both(l, r) =>
        AstMeans(l, context);
        AstMeans(r, context);
      case Either(l, r) =>
        AstMeans(l, context);
        AstMeans(r, context);
    }
  }

  // ---------- The theorems ----------

  /** A combined text evaluates to what the connectives make of the values of its parts. */
  lemma TextsMeanTheirConnectives(f: Formula, context: Json)
    requires AtomsOk(f)
    ensures Evaluate(Source(f), context) == Ok(Meaning(f, Truths(context)))
  {
    hide Reads, Compile, AtomsOk;
    SourceReads(f);
    ReadsCompiles(Source(f), AstOf(f));
    AstMeans(f, context);
  }

  ghost predicate Equivalent(f: Formula, g: Formula) {
    forall v: string -> bool :: Meaning(f, v) == Meaning(g, v)
  }

  /** Propositionally equivalent combinations evaluate alike in every context. */
  lemma EquivalentTextsAgree(f: Formula, g: Formula, context: Json)
    requires AtomsOk(f) && AtomsOk(g) && Equivalent(f, g)
    ensures Evaluate(Source(f), context) == Evaluate(Source(g), context)
  {
    hide Truths, Source, AtomsOk, Meaning, Evaluate;
    TextsMeanTheirConnectives(f, context);
    TextsMeanTheirConnectives(g, context);
    assert Meaning(f, Truths(context)) == Meaning(g, Truths(context));
  }

  /** De Morgan, commutativity, associativity, idempotence and double negation of texts. */
  lemma ClassicalLaws(a: string, b: string, c: string, context: Json)
    requires CompileText(a).Ok? && CompileText(b).Ok? && CompileText(c).Ok?
    ensures var p, q, r := Atom(a), Atom(b), Atom(c);
      && Evaluate(Source(Inverse(Both(p, q))), context) == Evaluate(Source(Either(Inverse(p), Inverse(q))), context)
      && Evaluate(Source(Inverse(Either(p, q))), context) == Evaluate(Source(Both(Inverse(p), Inverse(q))), context)
      && Evaluate(Source(Both(p, q)), context) == Evaluate(Source(Both(q, p)), context)
      && Evaluate(Source(Either(p, q)), context) == Evaluate(Source(Either(q, p)), context)
      && Evaluate(Source(Both(Both(p, q), r)), context) == Evaluate(Source(Both(p, Both(q, r))), context)
      && Evaluate(Source(Either(Either(p, q), r)), context) == Evaluate(Source(Either(p, Either(q, r))), context)
      && Evaluate(Source(Both(p, p)), context) == Evaluate(a, context) == Evaluate(Source(Either(p, p)), context)
      && Evaluate(Source(Inverse(Inverse(p))), context) == Evaluate(a, context)
  {
    hide Evaluate, Source, CompileText, Equivalent;
    var p, q, r := Atom(a), Atom(b), Atom(c);
    assert AtomsOk(p) && AtomsOk(q) && AtomsOk(r);
    assert AtomsOk(Both(p, q)) && AtomsOk(Either(p, q)) && AtomsOk(Both(q, r)) && AtomsOk(Either(q, r));
    assert AtomsOk(Inverse(p)) && AtomsOk(Inverse(q));
    EquivalentTextsAgree(Inverse(Both(p, q)), Either(Inverse(p), Inverse(q)), context) by {
      EquivalentByMeaning(Inverse(Both(p, q)), Either(Inverse(p), Inverse(q)));
    }
    EquivalentTextsAgree(Inverse(Either(p, q)), Both(Inverse(p), Inverse(q)), context) by {
      EquivalentByMeaning(Inverse(Either(p, q)), Both(Inverse(p), Inverse(q)));
    }
    EquivalentTextsAgree(Both(p, q), Both(q, p), context) by {
      EquivalentByMeaning(Both(p, q), Both(q, p));
    }
    EquivalentTextsAgree(Either(p, q), Either(q, p), context) by {
      EquivalentByMeaning(Either(p, q), Either(q, p));
    }
    EquivalentTextsAgree(Both(Both(p, q), r), Both(p, Both(q, r)), context) by {
      EquivalentByMeaning(Both(Both(p, q), r), Both(p, Both(q, r)));
    }
    EquivalentTextsAgree(Either(Either(p, q), r), Either(p, Either(q, r)), context) by {
      EquivalentByMeaning(Either(Either(p, q), r), Either(p, Either(q, r)));
    }
    OwnText(a, context);
    TextsMeanTheirConnectives(Both(p, p), context);
    TextsMeanTheirConnectives(Either(p, p), context);
    TextsMeanTheirConnectives(Inverse(Inverse(p)), context);
  }

  /** Blanks around a text do not matter. */
  lemma PaddingIsIrrelevant(before: string, a: string, after: string, context: Json)
    requires AllBlank(before) && AllBlank(after)
    ensures Evaluate(before + a + after, context) == Evaluate(a, context)
  {
    hide Compile, AllBlank;
    BlanksAround(before, a, after);
  }

  /** Identities and annihilators, with the constants written bare; negation flips the value. */
  lemma ConstantLaws(a: string, context: Json)
    requires CompileText(a).Ok?
    ensures var p, yes, no := Atom(a), Constant(true), Constant(false);
      && Evaluate(Source(Both(p, yes)), context) == Evaluate(a, context) == Evaluate(Source(Either(p, no)), context)
      && Evaluate(Source(Both(p, no)), context) == Ok(false) && Evaluate(Source(Either(p, yes)), context) == Ok(true)
      && Evaluate(a, context).Ok? && Evaluate(Source(Inverse(p)), context) == Ok(!Evaluate(a, context).value)
  {
    hide Source, CompileText, Compile, Evaluate;
    var p, yes, no := Atom(a), Constant(true), Constant(false);
    OwnText(a, context);
    TextsMeanTheirConnectives(Both(p, yes), context);
    TextsMeanTheirConnectives(Either(p, no), context);
    TextsMeanTheirConnectives(Both(p, no), context);
    TextsMeanTheirConnectives(Either(p, yes), context);
    TextsMeanTheirConnectives(Inverse(p), context);
  }

  lemma EquivalentByMeaning(f: Formula, g: Formula)
    requires forall v: string -> bool :: Meaning(f, v) == Meaning(g, v)
    ensures Equivalent(f, g)
  {
  }

  lemma OwnText(a: string, context: Json)
    requires CompileText(a).Ok?
    ensures Evaluate(a, context) == Ok(Evaluate(a, context) == Ok(true))
  {
    hide CompileText;
    TextCompiles(a);
  }

  /** `&&` binds tighter than `||` on either side: the text without the inner parentheses
      compiles to the very expression of the text with them. */
  lemma PrecedenceOfTexts(a: string, b: string, c: string)
    requires CompileText(a).Ok? && CompileText(b).Ok? && CompileText(c).Ok?
    ensures var p, q, r := Parens(a), Parens(b), Parens(c);
      && Compile(Infix(p, "||", Infix(q, "&&", r))) == Compile(Infix(p, "||", Parens(Infix(q, "&&", r))))
      && Compile(Infix(Infix(p, "&&", q), "||", r)) == Compile(Infix(Parens(Infix(p, "&&", q)), "||", r))
      && Compile(Infix(p, "||", Infix(q, "&&", r))).Ok?
  {
    hide CompileText, Infix, Reads, Compile;
    var p, q, r := Parens(a), Parens(b), Parens(c);
    var x, y, z := CompileText(a).value, CompileText(b).value, CompileText(c).value;
    AtomReads(a);
    AtomReads(b);
    AtomReads(c);
    ValueLoosens(p, x);
    ValueLoosens(q, y);
    ValueLoosens(r, z);
    AndReads(q, r, y, z);
    AndReads(p, q, x, y);
    Loosen(Infix(q, "&&", r), AndLevel, Conj(y, z));
    Loosen(Infix(p, "&&", q), AndLevel, Conj(x, y));
    ParensReads(Infix(q, "&&", r), Conj(y, z));
    ParensReads(Infix(p, "&&", q), Conj(x, y));
    ValueLoosens(Parens(Infix(q, "&&", r)), Conj(y, z));
    ValueLoosens(Parens(Infix(p, "&&", q)), Conj(x, y));
    OrReads(p, Infix(q, "&&", r), x, Conj(y, z));
    OrReads(p, Parens(Infix(q, "&&", r)), x, Conj(y, z));
    OrReads(Infix(p, "&&", q), r, Conj(x, y), z);
    OrReads(Parens(Infix(p, "&&", q)), r, Conj(x, y), z);
    ReadsCompiles(Infix(p, "||", Infix(q, "&&", r)), Disj(x, Conj(y, z)));
    ReadsCompiles(Infix(p, "||", Parens(Infix(q, "&&", r))), Disj(x, Conj(y, z)));
    ReadsCompiles(Infix(Infix(p, "&&", q), "||", r), Disj(Conj(x, y), z));
    ReadsCompiles(Infix(Parens(Infix(p, "&&", q)), "||", r), Disj(Conj(x, y), z));
  }

  /** The memo of compiled conditions, keyed by the text as given; failures are kept as well. */
  class ConditionCache {
    var entries: map<string, Compiled>

    ghost predicate Valid()
      reads this
    {
      forall text :: text in entries ==> entries[text] == Compile(text)
    }

    constructor ()
      ensures Valid() && entries == map[]
    {
      entries := map[];
    }

    method GetCompiled(text: string) returns (r: Compiled)
      requires Valid()
      modifies this
      ensures Valid() && r == Compile(text)
      ensures entries == old(entries)[text := Compile(text)]
    {
      hide Compile;
      if text in entries {
        r := entries[text];
        assert entries == entries[text := r];
        return;
      }
      r := CompileCondition(text);
      entries := entries[text := r];
    }

    /** A cached evaluation answers as an uncached one does. */
    method EvaluateCached(text: string, context: Json) returns (r: Result<bool, CompileError>)
      requires Valid()
      modifies this
      ensures Valid() && r == Evaluate(text, context)
      ensures entries == old(entries)[text := Compile(text)]
    {
      var compiled := GetCompiled(text);
      r := match compiled case Ok(e) => Ok(Holds(e, context)) case Err(e) => Err(e);
    }
  }
}
