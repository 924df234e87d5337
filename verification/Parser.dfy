/** The condition AST and its recursive-descent parser (rust-old/src/condition.rs). */
module Parser {
  import opened Wrappers
  import opened Lexer

  // Literals keep the number as written; its value is a matter of evaluation.
  datatype Literal = Text(s: string) | Number(lexeme: string) | Truth(b: bool)

  datatype Expr =
    | Lit(value: Literal)
    | Ref(path: string)
    | Cmp(op: CmpOp, left: Expr, right: Expr)
    | Neg(inner: Expr)
    | Conj(left: Expr, right: Expr)
    | Disj(left: Expr, right: Expr)

  datatype ParseError = ExpectedClose | UnexpectedToken(t: Token) | UnexpectedEnd | Trailing(t: Token)

  // A parse of the front of a token sequence: the expression and the tokens after it.
  datatype Parse = Parsed(e: Expr, rest: seq<Token>) | Failed(error: ParseError)

  function AtomOf(t: Token): Option<Expr> {
    match t
    case StringLit(s) => Some(Lit(Text(s)))
    case NumberLit(n) => Some(Lit(Number(n)))
    case BoolLit(b) => Some(Lit(Truth(b)))
    case Path(p) => Some(Ref(p))
    case _ => None
  }

  function ParseOr(ts: seq<Token>): (r: Parse)
    ensures r.Parsed? ==> |r.rest| < |ts|
    decreases |ts|, 5
  {
    match ParseAnd(ts)
    case Parsed(left, rest) => OrTail(left, rest)
    case Failed(e) => Failed(e)
  }

  function OrTail(left: Expr, ts: seq<Token>): (r: Parse)
    ensures r.Parsed? ==> |r.rest| <= |ts|
    decreases |ts|, 4
  {
    if ts != [] && ts[0] == Or then
      match ParseAnd(ts[1..])
      case Parsed(right, rest) => OrTail(Disj(left, right), rest)
      case Failed(e) => Failed(e)
    else Parsed(left, ts)
  }

  function ParseAnd(ts: seq<Token>): (r: Parse)
    ensures r.Parsed? ==> |r.rest| < |ts|
    decreases |ts|, 3
  {
    match ParseCmp(ts)
    case Parsed(left, rest) => AndTail(left, rest)
    case Failed(e) => Failed(e)
  }

  function AndTail(left: Expr, ts: seq<Token>): (r: Parse)
    ensures r.Parsed? ==> |r.rest| <= |ts|
    decreases |ts|, 2
  {
    if ts != [] && ts[0] == And then
      match ParseCmp(ts[1..])
      case Parsed(right, rest) => AndTail(Conj(left, right), rest)
      case Failed(e) => Failed(e)
    else Parsed(left, ts)
  }

  function ParseCmp(ts: seq<Token>): (r: Parse)
    ensures r.Parsed? ==> |r.rest| < |ts|
    decreases |ts|, 1
  {
    match ParseValue(ts)
    case Failed(e) => Failed(e)
    case Parsed(left, rest) =>
      if rest != [] && rest[0].Compare? then
        match ParseValue(rest[1..])
        case Parsed(right, rest') => Parsed(Cmp(rest[0].op, left, right), rest')
        case Failed(e) => Failed(e)
      else Parsed(left, rest)
  }

  function ParseValue(ts: seq<Token>): (r: Parse)
    ensures r.Parsed? ==> |r.rest| < |ts|
    decreases |ts|, 0
  {
    if ts == [] then Failed(UnexpectedEnd)
    else if ts[0] == Not then
      match ParseValue(ts[1..])
      case Parsed(inner, rest) => Parsed(Neg(inner), rest)
      case Failed(e) => Failed(e)
    else if AtomOf(ts[0]).Some? then Parsed(AtomOf(ts[0]).value, ts[1..])
    else if ts[0] == LParen then
      match ParseOr(ts[1..])
      case Parsed(e, rest) => if rest != [] && rest[0] == RParen then Parsed(e, rest[1..]) else Failed(ExpectedClose)
      case Failed(e) => Failed(e)
    else Failed(UnexpectedToken(ts[0]))
  }

  /** A whole token sequence, nothing left over. */
  function ParseAll(ts: seq<Token>): Result<Expr, ParseError> {
    match ParseOr(ts)
    case Failed(e) => Err(e)
    case Parsed(e, rest) => if rest == [] then Ok(e) else Err(Trailing(rest[0]))
  }

  /** The parser as written: a token vector and a position that only moves forward. */
  class TokenParser {
    const tokens: seq<Token>
    var pos: nat

    ghost predicate Valid()
      reads this
    {
      pos <= |tokens|
    }

    function Rest(): seq<Token>
      requires Valid()
      reads this
    {
      tokens[pos..]
    }

    constructor (tokens: seq<Token>)
      ensures Valid() && this.tokens == tokens && Rest() == tokens
    {
      this.tokens := tokens;
      pos := 0;
    }

    method Peek() returns (t: Option<Token>)
      requires Valid()
      ensures t == if Rest() == [] then None else Some(Rest()[0])
    {
      t := if pos < |tokens| then Some(tokens[pos]) else None;
    }

    method Advance() returns (t: Option<Token>)
      requires Valid()
      modifies this
      ensures Valid() && old(pos) <= pos
      ensures t == if old(Rest()) == [] then None else Some(old(Rest())[0])
      ensures Rest() == if old(Rest()) == [] then [] else old(Rest())[1..]
    {
      if pos < |tokens| {
        t := Some(tokens[pos]);
        pos := pos + 1;
      } else {
        t := None;
      }
    }

    /** The outcome `r`, with the position reached, is the parse `p`. */
    ghost predicate Matches(r: Result<Expr, ParseError>, p: Parse)
      reads this
    {
      Valid() && match r
                 case Ok(e) => p == Parsed(e, Rest())
                 case Err(e) => p == Failed(e)
    }

    method ParseOrExpr() returns (r: Result<Expr, ParseError>)
      requires Valid()
      modifies this
      ensures Matches(r, ParseOr(old(Rest())))
      decreases |Rest()|, 5
    {
      r := ParseAndExpr();
      if r.Err? {
        return;
      }
      var left := r.value;
      var next := Peek();
      while next == Some(Or)
        invariant Valid() && |Rest()| < |old(Rest())|
        invariant ParseOr(old(Rest())) == OrTail(left, Rest())
        invariant next == if Rest() == [] then None else Some(Rest()[0])
        decreases |Rest()|
      {
        var _ := Advance();
        r := ParseAndExpr();
        if r.Err? {
          return;
        }
        left := Disj(left, r.value);
        next := Peek();
      }
      r := Ok(left);
    }

    method ParseAndExpr() returns (r: Result<Expr, ParseError>)
      requires Valid()
      modifies this
      ensures Matches(r, ParseAnd(old(Rest())))
      decreases |Rest()|, 3
    {
      r := ParseCmpExpr();
      if r.Err? {
        return;
      }
      var left := r.value;
      var next := Peek();
      while next == Some(And)
        invariant Valid() && |Rest()| < |old(Rest())|
        invariant ParseAnd(old(Rest())) == AndTail(left, Rest())
        invariant next == if Rest() == [] then None else Some(Rest()[0])
        decreases |Rest()|
      {
        var _ := Advance();
        r := ParseCmpExpr();
        if r.Err? {
          return;
        }
        left := Conj(left, r.value);
        next := Peek();
      }
      r := Ok(left);
    }

    method ParseCmpExpr() returns (r: Result<Expr, ParseError>)
      requires Valid()
      modifies this
      ensures Matches(r, ParseCmp(old(Rest())))
      decreases |Rest()|, 1
    {
      r := ParseValueExpr();
      if r.Err? {
        return;
      }
      var left := r.value;
      var next := Peek();
      if next.Some? && next.value.Compare? {
        var _ := Advance();
        r := ParseValueExpr();
        if r.Ok? {
          r := Ok(Cmp(next.value.op, left, r.value));
        }
      }
    }

    method ParseValueExpr() returns (r: Result<Expr, ParseError>)
      requires Valid()
      modifies this
      ensures Matches(r, ParseValue(old(Rest())))
      decreases |Rest()|, 0
    {
      var next := Peek();
      if next == None {
        return Err(UnexpectedEnd);
      }
      var t := next.value;
      if t == Not {
        var _ := Advance();
        r := ParseValueExpr();
        if r.Ok? {
          r := Ok(Neg(r.value));
        }
      } else if AtomOf(t).Some? {
        var _ := Advance();
        r := Ok(AtomOf(t).value);
      } else if t == LParen {
        var _ := Advance();
        r := ParseOrExpr();
        if r.Err? {
          return;
        }
        var close := Advance();
        if close != Some(RParen) {
          r := Err(ExpectedClose);
        }
      } else {
        r := Err(UnexpectedToken(t));
      }
    }
  }
}
