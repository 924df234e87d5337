/** What condition texts mean, said of the texts themselves: which value of the context a dotted path
    reaches, and what each comparison, literal and connective makes of it (rust-old/src/condition.rs). */
module ConditionMeaning {
  import opened Wrappers
  import opened Lexer
  import opened Parser
  import opened Compiler
  import opened Printer
  import opened PathGrammar
  import opened Floats
  import opened Evaluation
  import opened BooleanLaws

  // ---------- Paths ----------

  /** An identifier as the grammar has it. */
  predicate IsKey(s: string) {
    && s != "" && ('a' <= s[0] <= 'z' || 'A' <= s[0] <= 'Z' || s[0] == '_')
    && forall c :: c in s ==> 'a' <= c <= 'z' || 'A' <= c <= 'Z' || '0' <= c <= '9' || c == '_' || c == '-'
  }

  /** Keys joined by dots. */
  function Dotted(keys: seq<string>): string
    requires keys != []
  {
    if |keys| == 1 then keys[0] else keys[0] + "." + Dotted(keys[1..])
  }

  /** The values on the way when the keys are followed one after another. */
  ghost predicate Trail(keys: seq<string>, context: Json, values: seq<Json>) {
    && |values| == |keys| + 1 && values[0] == context
    && forall i :: 0 <= i < |keys| ==>
         values[i].Object? && keys[i] in values[i].fields && values[i + 1] == values[i].fields[keys[i]]
  }

  /** Following the keys one after another ends at the value. */
  ghost predicate Reached(keys: seq<string>, context: Json, v: Json) {
    exists values :: Trail(keys, context, values) && values[|keys|] == v
  }

  /** The value at a path: of its head, if there are no dots, or at the rest of the path in that value. */
  lemma PathHead(head: string, rest: string, context: Json)
    requires '.' !in head
    ensures ResolvePath(head, context) ==
      if context.Object? && head in context.fields then context.fields[head] else Null
    ensures ResolvePath(head + "." + rest, context) ==
      if context.Object? && head in context.fields then ResolvePath(rest, context.fields[head]) else Null
  {
    SplitConcat(head, rest);
    hide Split;
    assert [head][1..] == [] && forall v :: Resolve([], v) == v;
    assert ([head] + Split(rest, '.'))[1..] == Split(rest, '.');
    assert Resolve([head], context) == if context.Object? && head in context.fields then context.fields[head] else Null;
  }

  lemma ReachedNext(keys: seq<string>, context: Json, v: Json)
    requires keys != []
    ensures Reached(keys, context, v) <==>
      context.Object? && keys[0] in context.fields && Reached(keys[1..], context.fields[keys[0]], v)
  {
    if values: seq<Json> :| Trail(keys, context, values) && values[|keys|] == v {
      assert values[0 + 1] == values[0].fields[keys[0]];
      assert Trail(keys[1..], context.fields[keys[0]], values[1..]);
    }
    if context.Object? && keys[0] in context.fields {
      if values: seq<Json> :| Trail(keys[1..], context.fields[keys[0]], values) && values[|keys[1..]|] == v {
        var all := [context] + values;
        forall i | 0 <= i < |keys|
          ensures all[i].Object? && keys[i] in all[i].fields && all[i + 1] == all[i].fields[keys[i]]
        {
          if i > 0 {
            assert keys[i] == keys[1..][i - 1] && all[i] == values[i - 1] && all[i + 1] == values[i - 1 + 1];
          }
        }
        assert Trail(keys, context, all);
      }
    }
  }

  lemma ReachedHere(context: Json, v: Json)
    ensures Reached([], context, v) <==> v == context
  {
    assert Trail([], context, [context]);
  }

  /** A path denotes the value its keys reach, or null if they reach none. */
  lemma {:induction false} PathDenotes(keys: seq<string>, context: Json)
    requires keys != [] && forall k :: k in keys ==> '.' !in k
    ensures forall v :: Reached(keys, context, v) ==> ResolvePath(Dotted(keys), context) == v
    ensures (forall v :: !Reached(keys, context, v)) ==> ResolvePath(Dotted(keys), context) == Null
    ensures Reached(keys, context, ResolvePath(Dotted(keys), context)) || ResolvePath(Dotted(keys), context) == Null
    decreases |keys|
  {
    hide Reached, ResolvePath;
    forall v
      ensures Reached(keys, context, v) <==>
        context.Object? && keys[0] in context.fields && Reached(keys[1..], context.fields[keys[0]], v)
    {
      ReachedNext(keys, context, v);
    }
    assert keys[0] in keys;
    if |keys| == 1 {
      PathHead(keys[0], "", context);
      assert keys[1..] == [];
      if context.Object? && keys[0] in context.fields {
        forall v
          ensures Reached([], context.fields[keys[0]], v) <==> v == context.fields[keys[0]]
        {
          ReachedHere(context.fields[keys[0]], v);
        }
        assert Reached(keys, context, context.fields[keys[0]]);
      }
    } else {
      PathHead(keys[0], Dotted(keys[1..]), context);
      if context.Object? && keys[0] in context.fields {
        PathDenotes(keys[1..], context.fields[keys[0]]);
      }
    }
  }

  lemma {:induction false} KeysAreWord(keys: seq<string>)
    requires keys != [] && forall k :: k in keys ==> IsKey(k)
    ensures Dotted(keys) != "" && StartsWord(Dotted(keys)[0])
    ensures forall i :: 0 <= i < |Dotted(keys)| ==> IsWordChar(Dotted(keys)[i])
    decreases |keys|
  {
    assert keys[0] in keys;
    assert forall i :: 0 <= i < |keys[0]| ==> keys[0][i] in keys[0];
    if |keys| > 1 {
      KeysAreWord(keys[1..]);
    }
  }

  lemma KeysHaveNoDots(keys: seq<string>)
    requires forall k :: k in keys ==> IsKey(k)
    ensures forall k :: k in keys ==> '.' !in k
  {
  }

  /** Keys that may be written as a path: one key alone may not be a Boolean literal. */
  predicate ArePath(keys: seq<string>) {
    keys != [] && (forall k :: k in keys ==> IsKey(k)) && Dotted(keys) != "true" && Dotted(keys) != "false"
  }

  // ---------- Comparisons with a string ----------

  /** The texts agree up to position k, where `a` ends or has the smaller character. */
  predicate SmallerAt(a: string, b: string, k: nat) {
    k <= |a| && k < |b| && (forall i :: 0 <= i < k ==> a[i] == b[i]) && (k < |a| ==> a[k] < b[k])
  }

  /** `a` comes first in the order of character codes. */
  ghost predicate Before(a: string, b: string) {
    exists k: nat :: SmallerAt(a, b, k)
  }

  lemma {:induction false} TextOrder(a: string, b: string)
    ensures CompareText(a, b) == Less <==> Before(a, b)
    ensures CompareText(a, b) == Greater <==> Before(b, a)
    ensures CompareText(a, b) == Equal <==> a == b
    decreases |a|
  {
    CompareTextMirror(a, b);
    LessIsBefore(a, b);
    LessIsBefore(b, a);
  }

  lemma {:induction false} LessIsBefore(a: string, b: string)
    ensures CompareText(a, b) == Less <==> Before(a, b)
    decreases |a|
  {
    if a != "" && b != "" && a[0] == b[0] {
      hide Before;
      LessIsBefore(a[1..], b[1..]);
      BeforeTail(a, b);
    } else {
      BeforeHead(a, b);
    }
  }

  lemma BeforeHead(a: string, b: string)
    requires a == "" || b == "" || a[0] != b[0]
    ensures Before(a, b) <==> b != "" && (a == "" || a[0] < b[0])
  {
    if b != "" && (a == "" || a[0] < b[0]) {
      assert SmallerAt(a, b, 0);
    }
  }

  lemma BeforeTail(a: string, b: string)
    requires a != "" && b != "" && a[0] == b[0]
    ensures Before(a, b) <==> Before(a[1..], b[1..])
  {
    if k: nat :| SmallerAt(a, b, k) {
      assert k > 0;
      assert SmallerAt(a[1..], b[1..], k - 1);
    }
    if k: nat :| SmallerAt(a[1..], b[1..], k) {
      SmallerLater(a, b, k);
    }
  }

  lemma SmallerLater(a: string, b: string, k: nat)
    requires a != "" && b != "" && a[0] == b[0] && SmallerAt(a[1..], b[1..], k)
    ensures SmallerAt(a, b, k + 1)
  {
    forall i | 0 <= i < k + 1
      ensures a[i] == b[i]
    {
      if i > 0 {
        assert a[1..][i - 1] == b[1..][i - 1];
      }
    }
    assert k < |a[1..]| ==> a[k + 1] == a[1..][k];
    assert b[k + 1] == b[1..][k];
  }

  lemma ComparisonCompiles(p: string, op: CmpOp, literal: string, l: Literal)
    requires IsPathWord(p) && Reads(literal, ValueLevel, Lit(l))
    ensures Compile(Infix(p, OpText(op), literal)) == Ok(Cmp(op, Ref(p), Lit(l)))
  {
    hide Reads, Compile, OpText, Infix;
    PathReads(p);
    CmpReads(p, op, literal, Ref(p), Lit(l));
    Loosen(Infix(p, OpText(op), literal), CmpLevel, Cmp(op, Ref(p), Lit(l)));
    Loosen(Infix(p, OpText(op), literal), AndLevel, Cmp(op, Ref(p), Lit(l)));
    ReadsCompiles(Infix(p, OpText(op), literal), Cmp(op, Ref(p), Lit(l)));
  }

  /** The six comparisons as written. */
  lemma ComparisonTexts(p: string, literal: string)
    ensures Infix(p, OpText(Eq), literal) == p + " == " + literal
    ensures Infix(p, OpText(NotEq), literal) == p + " != " + literal
    ensures Infix(p, OpText(Lt), literal) == p + " < " + literal
    ensures Infix(p, OpText(Lte), literal) == p + " <= " + literal
    ensures Infix(p, OpText(Gt), literal) == p + " > " + literal
    ensures Infix(p, OpText(Gte), literal) == p + " >= " + literal
  {
    forall op
      ensures Infix(p, OpText(op), literal) == p + (" " + OpText(op) + " ") + literal
    {
      assert p + (" " + (OpText(op) + (" " + literal))) == p + (" " + OpText(op) + " ") + literal;
    }
  }

  lemma PathIsWord(keys: seq<string>)
    requires ArePath(keys)
    ensures IsPathWord(Dotted(keys))
  {
    KeysAreWord(keys);
  }

  lemma ComparisonEvaluates(keys: seq<string>, op: CmpOp, literal: string, l: Literal, context: Json)
    requires ArePath(keys) && Reads(literal, ValueLevel, Lit(l))
    ensures Evaluate(Infix(Dotted(keys), OpText(op), literal), context) ==
      Ok(CompareHolds(op, ResolvePath(Dotted(keys), context), LiteralValue(l)))
  {
    hide Reads, Compile, OpText, Infix, CompareHolds, LiteralValue, ResolvePath;
    PathIsWord(keys);
    ComparisonCompiles(Dotted(keys), op, literal, l);
    var e := Cmp(op, Ref(Dotted(keys)), Lit(l));
    assert Eval(e.left, context) == ResolvePath(Dotted(keys), context) && Eval(e.right, context) == LiteralValue(l);
    assert Eval(e, context) == Bool(CompareHolds(op, ResolvePath(Dotted(keys), context), LiteralValue(l)));
  }

  /** A path against a string literal: what the value reached by following the keys one after another must be
      for each comparison to hold. */
  lemma StringComparisonsMean(keys: seq<string>, text: string, context: Json)
    requires ArePath(keys) && '\'' !in text
    ensures var p, q := Dotted(keys), "'" + text + "'";
      && Evaluate(p + " == " + q, context) == Ok(Reached(keys, context, Str(text)))
      && Evaluate(p + " != " + q, context) == Ok(!Reached(keys, context, Str(text)))
      && Evaluate(p + " < " + q, context) == Ok(exists s :: Reached(keys, context, Str(s)) && Before(s, text))
      && Evaluate(p + " <= " + q, context) == Ok(exists s :: Reached(keys, context, Str(s)) && !Before(text, s))
      && Evaluate(p + " > " + q, context) == Ok(exists s :: Reached(keys, context, Str(s)) && Before(text, s))
      && Evaluate(p + " >= " + q, context) == Ok(exists s :: Reached(keys, context, Str(s)) && !Before(s, text))
  {
    var p, q := Dotted(keys), "'" + text + "'";
    TextReads(text);
    KeysHaveNoDots(keys);
    hide Reads, Evaluate, Infix, OpText, CompareHolds, ResolvePath, Reached, Before, Dotted;
    ComparisonTexts(p, q);
    forall op
      ensures Evaluate(Infix(p, OpText(op), q), context) == Ok(CompareHolds(op, ResolvePath(p, context), Str(text)))
    {
      ComparisonEvaluates(keys, op, q, Text(text), context);
    }
    PathDenotes(keys, context);
    StringHolds(ResolvePath(p, context), text);
  }

  /** What a comparison with a string says of the value on the left. */
  lemma StringHolds(v: Json, text: string)
    ensures CompareHolds(Eq, v, Str(text)) <==> v == Str(text)
    ensures CompareHolds(NotEq, v, Str(text)) <==> v != Str(text)
    ensures CompareHolds(Lt, v, Str(text)) <==> v.Str? && Before(v.s, text)
    ensures CompareHolds(Lte, v, Str(text)) <==> v.Str? && !Before(text, v.s)
    ensures CompareHolds(Gt, v, Str(text)) <==> v.Str? && Before(text, v.s)
    ensures CompareHolds(Gte, v, Str(text)) <==> v.Str? && !Before(v.s, text)
  {
    hide Before;
    if v.Str? {
      TextOrder(v.s, text);
    }
  }

  // ---------- Comparisons with a number ----------

  predicate AreDigits(s: string) {
    s != "" && forall i :: 0 <= i < |s| ==> '0' <= s[i] <= '9'
  }

  /** Digits by their place: the first of n counts ten to the n - 1. */
  function PlaceValue(s: string): real
    requires forall i :: 0 <= i < |s| ==> '0' <= s[i] <= '9'
  {
    if s == "" then 0.0 else (s[0] as int - '0' as int) as real * Tens(|s| - 1) + PlaceValue(s[1..])
  }

  function Tens(e: nat): (r: real)
    ensures r > 0.0
  {
    if e == 0 then 1.0 else Tens(e - 1) * 10.0
  }

  lemma {:induction false} TensArePow10(e: nat)
    ensures Pow10(e) == Tens(e)
  {
    if e > 0 {
      TensArePow10(e - 1);
    }
  }

  lemma Shift(d: real, t: real, x: real, y: real)
    ensures 10.0 * (d * t + x) + y == d * (t * 10.0) + (10.0 * x + y)
  {
  }

  /** Appending a digit counts everything before it ten times. */
  lemma {:induction false} PlaceSnoc(s: string, c: char)
    requires (forall i :: 0 <= i < |s| ==> '0' <= s[i] <= '9') && '0' <= c <= '9'
    ensures PlaceValue(s + [c]) == 10.0 * PlaceValue(s) + (c as int - '0' as int) as real
  {
    if s == "" {
      assert [c][1..] == "" && s + [c] == [c];
    } else {
      assert (s + [c])[1..] == s[1..] + [c];
      PlaceSnoc(s[1..], c);
      Shift((s[0] as int - '0' as int) as real, Tens(|s| - 1), PlaceValue(s[1..]), (c as int - '0' as int) as real);
    }
  }

  lemma {:induction false} WholeIs(s: string)
    requires forall i :: 0 <= i < |s| ==> '0' <= s[i] <= '9'
    ensures DecimalValue(s) == PlaceValue(s)
    decreases |s|
  {
    if s != "" {
      var n := |s| - 1;
      WholeIs(s[..n]);
      PlaceSnoc(s[..n], s[n]);
      assert s[..n] + [s[n]] == s && '.' !in s;
    }
  }

  lemma {:induction false} FractionLengthIs(whole: string, fraction: string)
    requires forall i :: 0 <= i < |fraction| ==> '0' <= fraction[i] <= '9'
    ensures FractionLength(whole + "." + fraction) == |fraction|
    decreases |fraction|
  {
    var s := whole + "." + fraction;
    if fraction != "" {
      assert s[..|s| - 1] == whole + "." + fraction[..|fraction| - 1];
      FractionLengthIs(whole, fraction[..|fraction| - 1]);
    }
  }

  lemma OneMorePlace(w: real, x: real, d: real, t: real)
    requires t > 0.0
    ensures w + x / t + d / (t * 10.0) == w + (10.0 * x + d) / (t * 10.0)
  {
    assert x / t == 10.0 * x / (t * 10.0) by {
      assert x / t * (t * 10.0) == 10.0 * x;
    }
    assert (10.0 * x + d) / (t * 10.0) == 10.0 * x / (t * 10.0) + d / (t * 10.0);
  }

  lemma OneMoreDigit(s: string)
    requires s != "" && '0' <= s[|s| - 1] <= '9' && '.' in s
    ensures DecimalValue(s) ==
      DecimalValue(s[..|s| - 1]) + (s[|s| - 1] as int - '0' as int) as real / Pow10(FractionLength(s))
  {
  }

  /** A decimal counts its whole part and the digits after the dot by their places. */
  lemma {:induction false} DecimalIs(whole: string, fraction: string)
    requires (forall i :: 0 <= i < |whole| ==> '0' <= whole[i] <= '9')
    requires (forall i :: 0 <= i < |fraction| ==> '0' <= fraction[i] <= '9')
    ensures DecimalValue(whole + "." + fraction) == PlaceValue(whole) + PlaceValue(fraction) / Tens(|fraction|)
    decreases |fraction|
  {
    var s := whole + "." + fraction;
    var n := |fraction| - 1;
    if fraction == "" {
      assert s[..|s| - 1] == whole && s[|s| - 1] == '.';
      WholeIs(whole);
    } else {
      hide DecimalValue, FractionLength, PlaceValue;
      assert s[..|s| - 1] == whole + "." + fraction[..n] && s[|whole|] == '.' && s[|s| - 1] == fraction[n];
      OneMoreDigit(s);
      DecimalIs(whole, fraction[..n]);
      PlaceSnoc(fraction[..n], fraction[n]);
      assert fraction[..n] + [fraction[n]] == fraction;
      FractionLengthIs(whole, fraction);
      TensArePow10(|fraction|);
      LastPlace(PlaceValue(whole), PlaceValue(fraction[..n]), (fraction[n] as int - '0' as int) as real, n, PlaceValue(fraction));
    }
  }

  lemma LastPlace(w: real, x: real, d: real, n: nat, y: real)
    requires y == 10.0 * x + d
    ensures w + x / Tens(n) + d / Tens(n + 1) == w + y / Tens(n + 1)
  {
    assert Tens(n + 1) == Tens(n) * 10.0;
    hide Tens;
    OneMorePlace(w, x, d, Tens(n));
  }

  lemma NumberIsNumber(whole: string, fraction: string)
    requires AreDigits(whole) && AreDigits(fraction)
    ensures IsNumber(whole) && IsNumber(whole + "." + fraction)
  {
    SpanIs(whole, 0, IsDigit, |whole|);
    var s := whole + "." + fraction;
    SpanIs(s, 0, IsDigit, |whole|);
    assert s[|whole|] == '.' && s[|whole| + 1] == fraction[0];
    assert forall k :: |whole| + 1 <= k < |s| ==> s[k] == fraction[k - |whole| - 1];
    SpanIs(s, |whole| + 1, IsDigit, |s|);
  }

  /** What the six comparisons of a path with the number written `q`, which is `x`, say of the value reached. */
  ghost predicate NumbersCompare(keys: seq<string>, q: string, x: real, context: Json)
    requires keys != []
  {
    var p := Dotted(keys);
    && Evaluate(p + " == " + q, context) == Ok(Reached(keys, context, Num(Float(x))))
    && Evaluate(p + " != " + q, context) == Ok(!Reached(keys, context, Num(Float(x))))
    && Evaluate(p + " < " + q, context) == Ok(exists n :: Reached(keys, context, Num(n)) && n.Value() < x)
    && Evaluate(p + " <= " + q, context) == Ok(exists n :: Reached(keys, context, Num(n)) && n.Value() <= x)
    && Evaluate(p + " > " + q, context) == Ok(exists n :: Reached(keys, context, Num(n)) && n.Value() > x)
    && Evaluate(p + " >= " + q, context) == Ok(exists n :: Reached(keys, context, Num(n)) && n.Value() >= x)
  }

  /** A path against a number as written: what the value reached must be for each comparison to hold. Numbers
      are ordered as 64-bit floats, equal only as a float of that value. */
  lemma NumberComparisonsMean(keys: seq<string>, whole: string, fraction: string, context: Json)
    requires ArePath(keys) && AreDigits(whole) && AreDigits(fraction)
    requires ToFloat(PlaceValue(whole) + PlaceValue(fraction) / Tens(|fraction|)) < Scale(1024)
    ensures NumbersCompare(keys, whole + "." + fraction,
                           ToFloat(PlaceValue(whole) + PlaceValue(fraction) / Tens(|fraction|)), context)
  {
    hide ToFloat, Scale, NumbersCompare;
    NumberIsNumber(whole, fraction);
    DecimalIs(whole, fraction);
    LexemeComparisonsMean(keys, whole + "." + fraction, context);
  }

  /** The same for a number without a dot. */
  lemma WholeComparisonsMean(keys: seq<string>, whole: string, context: Json)
    requires ArePath(keys) && AreDigits(whole) && ToFloat(PlaceValue(whole)) < Scale(1024)
    ensures NumbersCompare(keys, whole, ToFloat(PlaceValue(whole)), context)
  {
    hide ToFloat, Scale, NumbersCompare;
    NumberIsNumber(whole, "0");
    WholeIs(whole);
    LexemeComparisonsMean(keys, whole, context);
  }

  lemma {:induction false} DecimalsAreNotNegative(s: string)
    ensures DecimalValue(s) >= 0.0
    decreases |s|
  {
    if s != "" {
      DecimalsAreNotNegative(s[..|s| - 1]);
      if IsDigit(s[|s| - 1]) && '.' in s {
        NotNegative(DigitValue(s[|s| - 1]) as real, Pow10(FractionLength(s)));
      }
    }
  }

  lemma NotNegative(x: real, y: real)
    requires x >= 0.0 && y > 0.0
    ensures x / y >= 0.0
  {
  }

  /** A number literal is the float nearest to it, or null if it is too large for one. */
  lemma LiteralsConvert(q: string)
    ensures LiteralValue(Number(q)) ==
      if ToFloat(DecimalValue(q)) < Scale(1024) then Num(Float(ToFloat(DecimalValue(q)))) else Null
  {
    DecimalsAreNotNegative(q);
    hide ToFloat, Scale, DecimalValue;
    OverflowIsExact(DecimalValue(q));
  }

  lemma LexemeComparisonsMean(keys: seq<string>, q: string, context: Json)
    requires ArePath(keys) && IsNumber(q) && ToFloat(DecimalValue(q)) < Scale(1024)
    ensures NumbersCompare(keys, q, ToFloat(DecimalValue(q)), context)
  {
    var p, x := Dotted(keys), ToFloat(DecimalValue(q));
    NumberReads(q);
    LiteralsConvert(q);
    hide *;
    ComparisonTexts(p, q);
    forall op
      ensures Evaluate(Infix(p, OpText(op), q), context) == Ok(CompareHolds(op, ResolvePath(p, context), Num(Float(x))))
    {
      ComparisonEvaluates(keys, op, q, Number(q), context);
    }
    NumbersFollow(keys, q, x, context);
  }

  /** What a comparison of a path with a float says of the value its keys reach. */
  lemma NumberReached(keys: seq<string>, context: Json, x: real)
    requires ArePath(keys)
    ensures var v, l := ResolvePath(Dotted(keys), context), Num(Float(x));
      && (CompareHolds(Eq, v, l) <==> Reached(keys, context, l))
      && (CompareHolds(NotEq, v, l) <==> !Reached(keys, context, l))
      && (CompareHolds(Lt, v, l) <==> exists n :: Reached(keys, context, Num(n)) && n.Value() < x)
      && (CompareHolds(Lte, v, l) <==> exists n :: Reached(keys, context, Num(n)) && n.Value() <= x)
      && (CompareHolds(Gt, v, l) <==> exists n :: Reached(keys, context, Num(n)) && n.Value() > x)
      && (CompareHolds(Gte, v, l) <==> exists n :: Reached(keys, context, Num(n)) && n.Value() >= x)
  {
    KeysHaveNoDots(keys);
    hide Reached, ResolvePath, Dotted, CompareHolds, ToFloat;
    PathDenotes(keys, context);
    NumberHolds(ResolvePath(Dotted(keys), context), x);
  }

  lemma NumbersFollow(keys: seq<string>, q: string, x: real, context: Json)
    requires ArePath(keys)
    requires var p, v, l := Dotted(keys), ResolvePath(Dotted(keys), context), Num(Float(x));
      && Evaluate(p + " == " + q, context) == Ok(CompareHolds(Eq, v, l))
      && Evaluate(p + " != " + q, context) == Ok(CompareHolds(NotEq, v, l))
      && Evaluate(p + " < " + q, context) == Ok(CompareHolds(Lt, v, l))
      && Evaluate(p + " <= " + q, context) == Ok(CompareHolds(Lte, v, l))
      && Evaluate(p + " > " + q, context) == Ok(CompareHolds(Gt, v, l))
      && Evaluate(p + " >= " + q, context) == Ok(CompareHolds(Gte, v, l))
    ensures NumbersCompare(keys, q, x, context)
  {
    hide Reached, ResolvePath, Dotted, CompareHolds, Evaluate, IsKey;
    NumberReached(keys, context, x);
  }

  lemma NumberHolds(v: Json, x: real)
    ensures CompareHolds(Eq, v, Num(Float(x))) <==> v == Num(Float(x))
    ensures CompareHolds(NotEq, v, Num(Float(x))) <==> v != Num(Float(x))
    ensures CompareHolds(Lt, v, Num(Float(x))) <==> v.Num? && v.n.Value() < x
    ensures CompareHolds(Lte, v, Num(Float(x))) <==> v.Num? && v.n.Value() <= x
    ensures CompareHolds(Gt, v, Num(Float(x))) <==> v.Num? && v.n.Value() > x
    ensures CompareHolds(Gte, v, Num(Float(x))) <==> v.Num? && v.n.Value() >= x
  {
    hide ToFloat;
  }

  // ---------- Truth ----------

  /** A path alone holds when it reaches true, a non-empty string, array or object, or a number other than
      zero. */
  lemma PathsAloneMean(keys: seq<string>, context: Json)
    requires ArePath(keys)
    ensures Evaluate(Dotted(keys), context) == Ok(
      || Reached(keys, context, Bool(true))
      || (exists s :: Reached(keys, context, Str(s)) && |s| > 0)
      || (exists n :: Reached(keys, context, Num(n)) && n.Value() != 0.0)
      || (exists a :: Reached(keys, context, Array(a)) && |a| > 0)
      || (exists o :: Reached(keys, context, Object(o)) && o.Keys != {}))
  {
    var p := Dotted(keys);
    PathIsWord(keys);
    WordsAreTakenAsPaths(p);
    KeysHaveNoDots(keys);
    hide Compile, ResolvePath, Reached, Dotted, IsTruthy;
    PathDenotes(keys, context);
    TruthOf(ResolvePath(p, context));
    assert Evaluate(p, context) == Ok(IsTruthy(ResolvePath(p, context)));
  }

  lemma TruthOf(v: Json)
    ensures IsTruthy(v) <==>
      || v == Bool(true)
      || (v.Str? && |v.s| > 0)
      || (v.Num? && v.n.Value() != 0.0)
      || (v.Array? && |v.items| > 0)
      || (v.Object? && v.fields.Keys != {})
  {
    hide ToFloat;
    if v.Object? {
      assert v.fields.Keys == {} ==> v.fields == map[];
    }
  }

  /** The literals, and the text that is blank. */
  lemma ConstantsMean(context: Json)
    ensures Evaluate("true", context) == Ok(true) && Evaluate("false", context) == Ok(false)
    ensures Evaluate("", context) == Ok(true)
  {
    TruthReads(true);
    TruthReads(false);
    hide Reads, Compile;
    ValueLoosens("true", Lit(Truth(true)));
    ValueLoosens("false", Lit(Truth(false)));
    ReadsCompiles("true", Lit(Truth(true)));
    ReadsCompiles("false", Lit(Truth(false)));
    ParensBreakBlank();
  }

  /** The connectives, with the operands between parentheses. */
  lemma ConnectivesMean(a: string, b: string, context: Json)
    requires CompileText(a).Ok? && CompileText(b).Ok?
    ensures var x, y := Evaluate(a, context) == Ok(true), Evaluate(b, context) == Ok(true);
      && Evaluate("(" + a + ") && (" + b + ")", context) == Ok(x && y)
      && Evaluate("(" + a + ") || (" + b + ")", context) == Ok(x || y)
      && Evaluate("!(" + a + ")", context) == Ok(!x)
  {
    hide CompileText, Evaluate;
    var p, q := Atom(a), Atom(b);
    TextsMeanTheirConnectives(Both(p, q), context);
    TextsMeanTheirConnectives(Either(p, q), context);
    TextsMeanTheirConnectives(Inverse(p), context);
    SourceTexts(a, b);
  }

  lemma SourceTexts(a: string, b: string)
    ensures Source(Both(Atom(a), Atom(b))) == "(" + a + ") && (" + b + ")"
    ensures Source(Either(Atom(a), Atom(b))) == "(" + a + ") || (" + b + ")"
    ensures Source(Inverse(Atom(a))) == "!(" + a + ")"
  {
    var p, q := Atom(a), Atom(b);
    assert Operand(p) == "(" + a + ")" && Operand(q) == "(" + b + ")";
    assert "(" + a + ")" + (" " + ("&&" + (" " + ("(" + b + ")")))) == "(" + a + ") && (" + b + ")";
    assert "(" + a + ")" + (" " + ("||" + (" " + ("(" + b + ")")))) == "(" + a + ") || (" + b + ")";
    assert "!" + ("(" + a + ")") == "!(" + a + ")";
  }

  // ---------- The example of the documentation ----------

  /** A status two levels down, compared as the module's documentation does. */
  lemma DocumentedExample(context: Json, build: Json, status: Json)
    requires context.Object? && "steps" in context.fields && context.fields["steps"] == build
    requires build.Object? && "build" in build.fields && build.fields["build"] == status
    requires status.Object? && "status" in status.fields && status.fields["status"] == Str("completed")
    ensures Evaluate("steps.build.status == 'completed'", context) == Ok(true)
    ensures Evaluate("steps.build.status == 'failed'", context) == Ok(false)
  {
    hide *;
    var keys := ["steps", "build", "status"];
    ExampleKeys(keys);
    ExampleReached(keys, context, build, status);
    ExampleTexts();
    StatusIs(keys, context, "completed", "completed");
    StatusIs(keys, context, "completed", "failed");
  }

  lemma ExampleTexts()
    ensures "steps.build.status" + " == " + ("'" + "completed" + "'") == "steps.build.status == 'completed'"
    ensures "steps.build.status" + " == " + ("'" + "failed" + "'") == "steps.build.status == 'failed'"
    ensures "completed" != "failed" && '\'' !in "completed" && '\'' !in "failed"
  {
    assert "completed"[0] != "failed"[0];
  }

  lemma StatusIs(keys: seq<string>, context: Json, status: string, text: string)
    requires ArePath(keys) && Reached(keys, context, Str(status)) && '\'' !in text
    ensures Evaluate(Dotted(keys) + " == " + ("'" + text + "'"), context) == Ok(text == status)
  {
    KeysHaveNoDots(keys);
    hide Evaluate, Reached, Dotted, IsKey, ResolvePath;
    PathDenotes(keys, context);
    StringComparisonsMean(keys, text, context);
  }

  lemma ExampleKeys(keys: seq<string>)
    requires keys == ["steps", "build", "status"]
    ensures ArePath(keys) && Dotted(keys) == "steps.build.status"
  {
    assert keys[1..] == ["build", "status"] && keys[1..][1..] == ["status"];
    assert Dotted(keys[1..][1..]) == "status";
    assert Dotted(keys[1..]) == "build" + "." + "status";
    assert Dotted(keys) == "steps" + "." + ("build" + "." + "status");
    assert |Dotted(keys)| == 18;
  }

  lemma ExampleReached(keys: seq<string>, context: Json, build: Json, status: Json)
    requires keys == ["steps", "build", "status"]
    requires context.Object? && "steps" in context.fields && context.fields["steps"] == build
    requires build.Object? && "build" in build.fields && build.fields["build"] == status
    requires status.Object? && "status" in status.fields && status.fields["status"] == Str("completed")
    ensures Reached(keys, context, Str("completed"))
  {
    var values := [context, build, status, Str("completed")];
    forall i | 0 <= i < |keys|
      ensures values[i].Object? && keys[i] in values[i].fields && values[i + 1] == values[i].fields[keys[i]]
    {
      assert i == 0 || i == 1 || i == 2;
    }
    assert Trail(keys, context, values);
  }

  // ---------- Single characters ----------

  /** What each character alone is to the tokenizer. */
  lemma CharactersAre(c: char)
    ensures Lex([c]) ==
      if c == ' ' || c == '\t' || c == '\n' || c == '\r' || c == '\U{000C}' then Ok([])
      else if c == '(' then Ok([LParen])
      else if c == ')' then Ok([RParen])
      else if c == '!' then Ok([Not])
      else if c == '<' then Ok([Compare(Lt)])
      else if c == '>' then Ok([Compare(Gt)])
      else if '0' <= c <= '9' then Ok([NumberLit([c])])
      else if 'a' <= c <= 'z' || 'A' <= c <= 'Z' || c == '_' then Ok([Path([c])])
      else if c == '\'' then Err(Unterminated)
      else Err(Unexpected(c))
  {
    var s := [c];
    assert s[1..] == "" && s[..1] == s;
    SpanIs(s, 0, IsDigit, if IsDigit(c) then 1 else 0);
    SpanIs(s, 0, IsWordChar, if IsWordChar(c) then 1 else 0);
    SpanIs(s, 1, NotQuote, 1);
    assert forall t: Token :: [t] + [] == [t];
    assert Lex("") == Ok([]);
    match ScanOne(s) {
      case Found(t, n) => assert [t] + [] == [t] && s[n..] == "";
      case _ =>
    }
  }

  /** A dot belongs to a number only if a digit follows it; otherwise it belongs to nothing. */
  lemma DotsNeedDigits(whole: string, rest: string)
    requires AreDigits(whole) && (rest == "" || !('0' <= rest[0] <= '9'))
    ensures Lex(whole + "." + rest) == Err(Unexpected('.'))
  {
    hide ScanOne, NumberEnd, AreDigits;
    var s := whole + "." + rest;
    NumberStarts(whole, rest);
    DotScans(rest);
    assert s[|whole|..] == "." + rest;
    ErrorFollows(s, NumberLit(whole), |whole|, Unexpected('.'));
  }

  lemma DotScans(rest: string)
    ensures ScanOne("." + rest) == Bad(Unexpected('.'))
  {
    hide Span, NumberEnd, WordToken;
    assert ("." + rest)[0] == '.';
  }

  lemma ErrorFollows(s: string, t: Token, n: nat, e: LexError)
    requires s != "" && ScanOne(s) == Found(t, n) && n < |s| && ScanOne(s[n..]) == Bad(e)
    ensures Lex(s) == Err(e)
  {
    hide ScanOne;
  }

  lemma NumberStarts(whole: string, rest: string)
    requires AreDigits(whole) && (rest == "" || !('0' <= rest[0] <= '9'))
    ensures ScanOne(whole + "." + rest) == Found(NumberLit(whole), |whole|)
  {
    var s := whole + "." + rest;
    SpanIs(s, 0, IsDigit, |whole|);
    assert s[|whole|] == '.' && s[..|whole|] == whole;
    assert rest != "" ==> s[|whole| + 1] == rest[0];
    hide Span;
    assert NumberEnd(s) == |whole|;
  }

  /** The blanks that trimming removes: each alone is the blank condition, and no other character is. */
  lemma BlanksAre(c: char)
    ensures Compile([c]) == Ok(Lit(Truth(true))) <==>
      || c == '\t' || c == '\n' || c == '\U{000B}' || c == '\U{000C}' || c == '\r' || c == ' ' || c == '\U{0085}'
      || c == '\U{00A0}' || c == '\U{1680}' || '\U{2000}' <= c <= '\U{200A}' || c == '\U{2028}' || c == '\U{2029}'
      || c == '\U{202F}' || c == '\U{205F}' || c == '\U{3000}'
  {
    var s := [c];
    assert s[1..] == "" && s[..0] == "";
    if IsUnicodeSpace(c) {
      assert TrimStart(s) == "" && TrimEnd("") == "";
    } else {
      assert TrimStart(s) == s && TrimEnd(s) == s;
      CharactersAre(c);
      hide Lex, Trim, ParseAll;
      if Lex(s).Ok? {
        SingleTokenParses(s, Lex(s).value);
      }
    }
  }

  lemma SingleTokenParses(s: string, ts: seq<Token>)
    requires |ts| == 1 && !ts[0].BoolLit?
    ensures ParseAll(ts) != Ok(Lit(Truth(true)))
  {
    assert ts[1..] == [];
    ValueAlone([]);
    ValueAlone(ts);
    assert ParseValue([]).Failed? && ParseOr([]).Failed?;
    assert ParseValue(ts).Parsed? ==> AtomOf(ts[0]).Some? && ParseValue(ts) == Parsed(AtomOf(ts[0]).value, []);
  }

  /** What the errors of the parser say: of the end of the text, a parenthesis that is not closed, a token
      where a value should be, and a token too many. */
  lemma ErrorsAre()
    ensures ParseAll([]) == Err(UnexpectedEnd)
    ensures ParseAll([LParen, Path("a")]) == Err(ExpectedClose)
    ensures ParseAll([And]) == Err(UnexpectedToken(And))
    ensures ParseAll([Path("a"), Path("b")]) == Err(Trailing(Path("b")))
  {
    ValueAlone([]);
    var open := [LParen, Path("a")];
    assert open[1..] == [Path("a")];
    ValueAlone([Path("a")]);
    assert [Path("a")][1..] == [];
    assert ParseValue(open) == Failed(ExpectedClose);
    ValueAlone(open);
    ValueAlone([And]);
    var two := [Path("a"), Path("b")];
    assert two[1..] == [Path("b")];
    ValueAlone(two);
  }

  /** A value that no operator follows is the whole expression. */
  lemma ValueAlone(ts: seq<Token>)
    ensures ParseValue(ts).Failed? ==> ParseOr(ts) == ParseValue(ts)
    ensures ParseValue(ts).Parsed? && NoOperator(ParseValue(ts).rest) ==> ParseOr(ts) == ParseValue(ts)
  {
    hide ParseValue;
    var v := ParseValue(ts);
    if v.Parsed? && NoOperator(v.rest) {
      assert ParseCmp(ts) == v;
      assert AndTail(v.e, v.rest) == v;
      assert ParseAnd(ts) == v;
      assert OrTail(v.e, v.rest) == v;
    } else if v.Failed? {
      assert ParseCmp(ts) == v;
      assert ParseAnd(ts) == v;
    }
  }

  predicate NoOperator(ts: seq<Token>) {
    ts != [] ==> !ts[0].Compare? && ts[0] != And && ts[0] != Or
  }
}
