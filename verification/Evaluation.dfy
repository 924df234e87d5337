/** Evaluating a compiled condition against a JSON context (rust-old/src/condition.rs). */
module Evaluation {
  import opened Wrappers
  import opened Lexer
  import opened Parser
  import opened Floats

  // A JSON number keeps whether it is an integer or a float: the source's library compares
  // representations for equality, and for order the 64-bit floats they convert to.
  datatype JsonNumber = Int(i: int) | Float(r: real) {
    function Value(): real {
      match this
      case Int(i) => ToFloat(i as real)
      case Float(r) => r
    }
  }

  datatype Json =
    | Null
    | Bool(b: bool)
    | Num(n: JsonNumber)
    | Str(s: string)
    | Array(items: seq<Json>)
    | Object(fields: map<string, Json>)

  datatype Ordering = Less | Equal | Greater

  // From here on a decimal literal rounds to infinity as a 64-bit float, which JSON cannot hold.
  function FloatOverflow(): real {
    Scale(1024) - Scale(970)
  }

  function DigitValue(c: char): nat
    requires IsDigit(c)
  {
    c as nat - '0' as nat
  }

  /** The value of a lexeme read from the left: digits, then a fraction once the dot is passed. */
  function DecimalValue(s: string): real {
    if s == "" then 0.0
    else
      var last := s[|s| - 1];
      if !IsDigit(last) then DecimalValue(s[..|s| - 1])
      else if '.' in s then DecimalValue(s[..|s| - 1]) + DigitValue(last) as real / Pow10(FractionLength(s))
      else 10.0 * DecimalValue(s[..|s| - 1]) + DigitValue(last) as real
  }

  function FractionLength(s: string): nat {
    if s == "" || s[|s| - 1] == '.' then 0 else 1 + FractionLength(s[..|s| - 1])
  }

  function Pow10(e: nat): (r: real)
    ensures r > 0.0
  {
    if e == 0 then 1.0 else 10.0 * Pow10(e - 1)
  }

  function LiteralValue(l: Literal): Json {
    match l
    case Text(s) => Str(s)
    case Truth(b) => Bool(b)
    case Number(n) =>
      if DecimalValue(n) >= FloatOverflow() then Null else Num(Float(ToFloat(DecimalValue(n))))
  }

  // ---------- Paths ----------

  function Split(path: string, separator: char): (r: seq<string>)
    ensures r != []
  {
    if path == "" then [""]
    else
      var rest := Split(path[1..], separator);
      if path[0] == separator then [""] + rest else [[path[0]] + rest[0]] + rest[1..]
  }

  function Resolve(segments: seq<string>, context: Json): Json {
    if segments == [] then context
    else if context.Object? && segments[0] in context.fields then
      Resolve(segments[1..], context.fields[segments[0]])
    else Null
  }

  function ResolvePath(path: string, context: Json): Json {
    Resolve(Split(path, '.'), context)
  }

  // ---------- Values ----------

  predicate ValuesEqual(a: Json, b: Json) {
    match (a, b)
    case (Str(x), Str(y)) => x == y
    case (Num(x), Num(y)) => x == y
    case (Bool(x), Bool(y)) => x == y
    case (Null, Null) => true
    case _ => false
  }

  function CompareText(a: string, b: string): Ordering {
    if a == "" && b == "" then Equal
    else if a == "" then Less
    else if b == "" then Greater
    else if a[0] < b[0] then Less
    else if b[0] < a[0] then Greater
    else CompareText(a[1..], b[1..])
  }

  function CompareReal(a: real, b: real): Ordering {
    if a < b then Less else if b < a then Greater else Equal
  }

  function ValuesCompare(a: Json, b: Json): Option<Ordering> {
    match (a, b)
    case (Num(x), Num(y)) => Some(CompareReal(x.Value(), y.Value()))
    case (Str(x), Str(y)) => Some(CompareText(x, y))
    case _ => None
  }

  predicate IsTruthy(v: Json) {
    match v
    case Bool(b) => b
    case Null => false
    case Str(s) => s != ""
    case Num(n) => n.Value() != 0.0
    case Array(items) => items != []
    case Object(fields) => fields != map[]
  }

  predicate CompareHolds(op: CmpOp, l: Json, r: Json) {
    match op
    case Eq => ValuesEqual(l, r)
    case NotEq => !ValuesEqual(l, r)
    case Gt => ValuesCompare(l, r) == Some(Greater)
    case Gte => ValuesCompare(l, r) == Some(Greater) || ValuesCompare(l, r) == Some(Equal)
    case Lt => ValuesCompare(l, r) == Some(Less)
    case Lte => ValuesCompare(l, r) == Some(Less) || ValuesCompare(l, r) == Some(Equal)
  }

  // ---------- Evaluation ----------

  /** Short-circuit evaluation; as in the source nothing in it can fail. */
  function Eval(e: Expr, context: Json): Json {
    match e
    case Lit(l) => LiteralValue(l)
    case Ref(p) => ResolvePath(p, context)
    case Cmp(op, l, r) => Bool(CompareHolds(op, Eval(l, context), Eval(r, context)))
    case Neg(x) => Bool(!IsTruthy(Eval(x, context)))
    case Conj(l, r) => if !IsTruthy(Eval(l, context)) then Bool(false) else Bool(IsTruthy(Eval(r, context)))
    case Disj(l, r) => if IsTruthy(Eval(l, context)) then Bool(true) else Bool(IsTruthy(Eval(r, context)))
  }

  function Holds(e: Expr, context: Json): bool {
    IsTruthy(Eval(e, context))
  }

  // ---------- Laws of comparison ----------

  function Mirror(op: CmpOp): CmpOp {
    match op
    case Eq => Eq
    case NotEq => NotEq
    case Gt => Lt
    case Gte => Lte
    case Lt => Gt
    case Lte => Gte
  }

  function Opposite(o: Ordering): Ordering {
    match o
    case Less => Greater
    case Equal => Equal
    case Greater => Less
  }

  lemma {:induction false} CompareTextMirror(a: string, b: string)
    ensures CompareText(b, a) == Opposite(CompareText(a, b))
    ensures CompareText(a, b) == Equal <==> a == b
    decreases |a| + |b|
  {
    if a != "" && b != "" && a[0] == b[0] {
      CompareTextMirror(a[1..], b[1..]);
      assert a == [a[0]] + a[1..] && b == [b[0]] + b[1..];
    }
  }

  /** Exchanging the operands mirrors the operator, whatever the operands' types. */
  lemma ComparisonMirrors(op: CmpOp, l: Json, r: Json)
    ensures CompareHolds(op, l, r) <==> CompareHolds(Mirror(op), r, l)
  {
    if l.Str? && r.Str? {
      CompareTextMirror(l.s, r.s);
    }
  }

  /** Of two strings exactly one of <, ==, > holds; of values of different types none of the orderings
      does. Numbers are ordered as floats: equal numbers are neither less nor greater, but not only they. */
  lemma Trichotomy(l: Json, r: Json)
    ensures l.Str? && r.Str? ==>
      (CompareHolds(Eq, l, r) <==> !CompareHolds(Lt, l, r) && !CompareHolds(Gt, l, r))
    ensures l.Num? && r.Num? ==>
      && (CompareHolds(Lte, l, r) <==> !CompareHolds(Gt, l, r)) && (CompareHolds(Gte, l, r) <==> !CompareHolds(Lt, l, r))
      && !(CompareHolds(Lt, l, r) && CompareHolds(Gt, l, r))
      && (CompareHolds(Eq, l, r) ==> CompareHolds(Lte, l, r) && CompareHolds(Gte, l, r))
    ensures !(l.Str? && r.Str?) && !(l.Num? && r.Num?) ==>
      !CompareHolds(Lt, l, r) && !CompareHolds(Gt, l, r) && !CompareHolds(Lte, l, r) && !CompareHolds(Gte, l, r)
  {
    hide ToFloat;
    if l.Str? && r.Str? {
      CompareTextMirror(l.s, r.s);
    }
  }

  /** Integers are never ordered against their values. Neither being less, they are equal exactly if they
      are one integer, and up to two to the 53 only equal ones are neither less nor greater. */
  lemma IntegersCompare(i: int, j: int)
    ensures i <= j ==> CompareHolds(Lte, Num(Int(i)), Num(Int(j)))
    ensures CompareHolds(Eq, Num(Int(i)), Num(Int(j))) <==> i == j
    ensures -9007199254740992 <= i <= 9007199254740992 && -9007199254740992 <= j <= 9007199254740992 ==>
      (CompareHolds(Lte, Num(Int(i)), Num(Int(j))) <==> i <= j)
  {
    hide ToFloat;
    if i <= j {
      ToFloatMonotone(i as real, j as real);
    }
    if -9007199254740992 <= i <= 9007199254740992 && -9007199254740992 <= j <= 9007199254740992 {
      SmallIntegersAreExact(i);
      SmallIntegersAreExact(j);
    }
  }

  /** Beyond that, different integers can be neither less nor greater than each other; and an integer is
      never equal to a literal, though it may be neither less nor greater. */
  lemma OrderIsNotEquality()
    ensures var l, r := Num(Int(9007199254740992)), Num(Int(9007199254740993));
      CompareHolds(Lte, l, r) && CompareHolds(Gte, l, r) && !CompareHolds(Eq, l, r)
    ensures forall i :: !CompareHolds(Eq, Num(Int(i)), Num(Float(ToFloat(i as real))))
    ensures forall i :: CompareHolds(Lte, Num(Int(i)), Num(Float(ToFloat(i as real))))
  {
    FirstInexactInteger();
    hide ToFloat;
  }

  /** All integers of at most this size are ordered as they should be. */
  ghost predicate ExactUpTo(n: int) {
    forall i, j :: -n <= i <= n && -n <= j <= n ==> (CompareHolds(Lte, Num(Int(i)), Num(Int(j))) <==> i <= j)
  }

  /** Two to the 53 is the exact limit. */
  lemma IntegersAreExactUpTo(n: int)
    ensures ExactUpTo(n) <==> n <= 9007199254740992
  {
    hide ToFloat, CompareHolds;
    forall i, j | n <= 9007199254740992 && -n <= i <= n && -n <= j <= n
      ensures CompareHolds(Lte, Num(Int(i)), Num(Int(j))) <==> i <= j
    {
      IntegersCompare(i, j);
    }
    OrderIsNotEquality();
    ComparisonMirrors(Gte, Num(Int(9007199254740992)), Num(Int(9007199254740993)));
    assert CompareHolds(Lte, Num(Int(9007199254740993)), Num(Int(9007199254740992)));
  }
}
