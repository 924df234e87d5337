/** The documented grammar as derivations over token sequences, and its equivalence with the
    parser (rust-old/src/condition.rs). */
module Grammar {
  import opened Wrappers
  import opened Lexer
  import opened Parser

  // or_expr = and_expr ("||" and_expr)*, grouping to the left
  ghost predicate DerivesOr(ts: seq<Token>, e: Expr)
    decreases |ts|, 3
  {
    || DerivesAnd(ts, e)
    || (e.Disj? && exists k | SplitsAt(ts, k, Or) ::
          DerivesOr(ts[..k], e.left) && DerivesAnd(ts[k + 1..], e.right))
  }

  // and_expr = cmp_expr ("&&" cmp_expr)*, grouping to the left
  ghost predicate DerivesAnd(ts: seq<Token>, e: Expr)
    decreases |ts|, 2
  {
    || DerivesCmp(ts, e)
    || (e.Conj? && exists k | SplitsAt(ts, k, And) ::
          DerivesAnd(ts[..k], e.left) && DerivesCmp(ts[k + 1..], e.right))
  }

  // cmp_expr = value (op value)?
  ghost predicate DerivesCmp(ts: seq<Token>, e: Expr)
    decreases |ts|, 1
  {
    || DerivesValue(ts, e)
    || (e.Cmp? && exists k | SplitsAt(ts, k, Compare(e.op)) ::
          DerivesValue(ts[..k], e.left) && DerivesValue(ts[k + 1..], e.right))
  }

  // value = "!" value | path | literal | "(" expr ")"
  ghost predicate DerivesValue(ts: seq<Token>, e: Expr)
    decreases |ts|, 0
  {
    && ts != []
    && (|| (ts[0] == Not && e.Neg? && DerivesValue(ts[1..], e.inner))
        || (|ts| == 1 && AtomOf(ts[0]) == Some(e))
        || (|ts| > 2 && ts[0] == LParen && ts[|ts| - 1] == RParen && DerivesOr(ts[1..|ts| - 1], e)))
  }

  predicate SplitsAt(ts: seq<Token>, k: int, t: Token) {
    0 < k < |ts| && ts[k] == t
  }

  /** A derivation of a binary node from its parts. */
  lemma JoinOr(l: seq<Token>, r: seq<Token>, el: Expr, er: Expr)
    requires DerivesOr(l, el) && DerivesAnd(r, er) && l != []
    ensures DerivesOr(l + [Or] + r, Disj(el, er))
  {
    var ts := l + [Or] + r;
    assert SplitsAt(ts, |l|, Or) && ts[..|l|] == l && ts[|l| + 1..] == r;
  }

  lemma JoinAnd(l: seq<Token>, r: seq<Token>, el: Expr, er: Expr)
    requires DerivesAnd(l, el) && DerivesCmp(r, er) && l != []
    ensures DerivesAnd(l + [And] + r, Conj(el, er))
  {
    var ts := l + [And] + r;
    assert SplitsAt(ts, |l|, And) && ts[..|l|] == l && ts[|l| + 1..] == r;
  }

  lemma JoinCmp(l: seq<Token>, r: seq<Token>, op: CmpOp, el: Expr, er: Expr)
    requires DerivesValue(l, el) && DerivesValue(r, er)
    ensures DerivesCmp(l + [Compare(op)] + r, Cmp(op, el, er))
  {
    var ts := l + [Compare(op)] + r;
    assert SplitsAt(ts, |l|, Compare(op)) && ts[..|l|] == l && ts[|l| + 1..] == r;
  }

  lemma JoinNot(r: seq<Token>, e: Expr)
    requires DerivesValue(r, e)
    ensures DerivesValue([Not] + r, Neg(e))
  {
    assert ([Not] + r)[1..] == r;
  }

  lemma JoinParens(ts: seq<Token>, e: Expr)
    requires DerivesOr(ts, e) && ts != []
    ensures DerivesValue([LParen] + ts + [RParen], e)
  {
    var us := [LParen] + ts + [RParen];
    assert us[1..|us| - 1] == ts;
  }

  // ---------- Completeness: the parser follows every derivation ----------

  predicate NoCompareNext(rest: seq<Token>) {
    rest == [] || !rest[0].Compare?
  }

  predicate NoAndNext(rest: seq<Token>) {
    NoCompareNext(rest) && (rest == [] || rest[0] != And)
  }

  predicate NoOrNext(rest: seq<Token>) {
    NoAndNext(rest) && (rest == [] || rest[0] != Or)
  }

  lemma {:induction false} ValueComplete(ts: seq<Token>, e: Expr, rest: seq<Token>)
    requires DerivesValue(ts, e)
    ensures ParseValue(ts + rest) == Parsed(e, rest)
    decreases |ts|, 0
  {
    assert (ts + rest)[0] == ts[0];
    if ts[0] == Not && e.Neg? && DerivesValue(ts[1..], e.inner) {
      ValueComplete(ts[1..], e.inner, rest);
      assert (ts + rest)[1..] == ts[1..] + rest;
    } else if |ts| == 1 {
      assert (ts + rest)[1..] == rest;
    } else {
      var inner := ts[1..|ts| - 1];
      OrComplete(inner, e, [RParen] + rest);
      assert (ts + rest)[1..] == inner + ([RParen] + rest);
      assert ([RParen] + rest)[1..] == rest;
    }
  }

  lemma {:induction false} CmpComplete(ts: seq<Token>, e: Expr, rest: seq<Token>)
    requires DerivesCmp(ts, e) && NoCompareNext(rest)
    ensures ParseCmp(ts + rest) == Parsed(e, rest)
    decreases |ts|, 1
  {
    hide ParseValue, DerivesValue;
    if DerivesValue(ts, e) {
      ValueComplete(ts, e, rest);
    } else {
      var k :| SplitsAt(ts, k, Compare(e.op))
        && DerivesValue(ts[..k], e.left) && DerivesValue(ts[k + 1..], e.right);
      var more := [ts[k]] + (ts[k + 1..] + rest);
      assert ts + rest == ts[..k] + more && more[1..] == ts[k + 1..] + rest;
      ValueComplete(ts[..k], e.left, more);
      ValueComplete(ts[k + 1..], e.right, rest);
    }
  }

  /** After the tokens of an and-expression the parser's loop has built it and goes on with the rest. */
  lemma {:induction false} AndComplete(ts: seq<Token>, e: Expr, rest: seq<Token>)
    requires DerivesAnd(ts, e) && NoCompareNext(rest)
    ensures ParseAnd(ts + rest) == AndTail(e, rest)
    decreases |ts|, 2
  {
    if DerivesCmp(ts, e) {
      CmpComplete(ts, e, rest);
    } else {
      var k :| SplitsAt(ts, k, And) && DerivesAnd(ts[..k], e.left) && DerivesCmp(ts[k + 1..], e.right);
      var more := [ts[k]] + (ts[k + 1..] + rest);
      assert ts + rest == ts[..k] + more && more[1..] == ts[k + 1..] + rest;
      AndComplete(ts[..k], e.left, more);
      CmpComplete(ts[k + 1..], e.right, rest);
    }
  }

  lemma {:induction false} OrPrefix(ts: seq<Token>, e: Expr, rest: seq<Token>)
    requires DerivesOr(ts, e) && NoAndNext(rest)
    ensures ParseOr(ts + rest) == OrTail(e, rest)
    decreases |ts|, 3
  {
    if DerivesAnd(ts, e) {
      AndComplete(ts, e, rest);
    } else {
      var k :| SplitsAt(ts, k, Or) && DerivesOr(ts[..k], e.left) && DerivesAnd(ts[k + 1..], e.right);
      var more := [ts[k]] + (ts[k + 1..] + rest);
      assert ts + rest == ts[..k] + more && more[1..] == ts[k + 1..] + rest;
      OrPrefix(ts[..k], e.left, more);
      AndComplete(ts[k + 1..], e.right, rest);
    }
  }

  lemma {:induction false} OrComplete(ts: seq<Token>, e: Expr, rest: seq<Token>)
    requires DerivesOr(ts, e) && NoOrNext(rest)
    ensures ParseOr(ts + rest) == Parsed(e, rest)
    decreases |ts|, 4
  {
    OrPrefix(ts, e, rest);
  }

  // ---------- Soundness: the parser only builds derivations ----------

  /** `us` is what remains of `ts` after a front `ts[..n]`. */
  ghost predicate Consumed(ts: seq<Token>, us: seq<Token>, n: nat) {
    0 < n <= |ts| && us == ts[n..]
  }

  lemma {:induction false} ValueSound(ts: seq<Token>) returns (n: nat)
    requires ParseValue(ts).Parsed?
    ensures Consumed(ts, ParseValue(ts).rest, n) && DerivesValue(ts[..n], ParseValue(ts).e)
    decreases |ts|, 0
  {
    if ts[0] == Not {
      var m := ValueSound(ts[1..]);
      n := m + 1;
      assert ts[..n] == [Not] + ts[1..][..m];
      JoinNot(ts[1..][..m], ParseValue(ts[1..]).e);
    } else if AtomOf(ts[0]).Some? {
      n := 1;
      assert ts[..1][0] == ts[0];
    } else {
      var m := OrSound(ts[1..]);
      n := m + 2;
      assert ts[..n] == [LParen] + ts[1..][..m] + [RParen];
      JoinParens(ts[1..][..m], ParseOr(ts[1..]).e);
    }
  }

  lemma {:induction false} CmpSound(ts: seq<Token>) returns (n: nat)
    requires ParseCmp(ts).Parsed?
    ensures Consumed(ts, ParseCmp(ts).rest, n) && DerivesCmp(ts[..n], ParseCmp(ts).e)
    decreases |ts|, 1
  {
    hide ParseValue, DerivesValue;
    n := ValueSound(ts);
    var left := ParseValue(ts);
    if left.rest != [] && left.rest[0].Compare? {
      assert left.rest[1..] == ts[n + 1..];
      var m := ValueSound(ts[n + 1..]);
      JoinCmp(ts[..n], ts[n + 1..][..m], ts[n].op, left.e, ParseValue(ts[n + 1..]).e);
      assert ts[..n + 1 + m] == ts[..n] + [ts[n]] + ts[n + 1..][..m];
      assert ts[n + 1..][m..] == ts[n + 1 + m..];
      n := n + 1 + m;
    }
  }

  lemma {:induction false} AndTailSound(ts: seq<Token>, n: nat, left: Expr) returns (n': nat)
    requires 0 < n <= |ts| && DerivesAnd(ts[..n], left) && AndTail(left, ts[n..]).Parsed?
    ensures Consumed(ts, AndTail(left, ts[n..]).rest, n') && DerivesAnd(ts[..n'], AndTail(left, ts[n..]).e)
    decreases |ts| - n, 2
  {
    n' := n;
    if n < |ts| && ts[n] == And {
      assert ts[n..][1..] == ts[n + 1..];
      var m := CmpSound(ts[n + 1..]);
      var right := ParseCmp(ts[n + 1..]);
      JoinAnd(ts[..n], ts[n + 1..][..m], left, right.e);
      assert ts[..n + 1 + m] == ts[..n] + [And] + ts[n + 1..][..m];
      assert right.rest == ts[n + 1 + m..];
      n' := AndTailSound(ts, n + 1 + m, Conj(left, right.e));
    }
  }

  lemma {:induction false} AndSound(ts: seq<Token>) returns (n: nat)
    requires ParseAnd(ts).Parsed?
    ensures Consumed(ts, ParseAnd(ts).rest, n) && DerivesAnd(ts[..n], ParseAnd(ts).e)
    decreases |ts|, 3
  {
    n := CmpSound(ts);
    n := AndTailSound(ts, n, ParseCmp(ts).e);
  }

  lemma {:induction false} OrTailSound(ts: seq<Token>, n: nat, left: Expr) returns (n': nat)
    requires 0 < n <= |ts| && DerivesOr(ts[..n], left) && OrTail(left, ts[n..]).Parsed?
    ensures Consumed(ts, OrTail(left, ts[n..]).rest, n') && DerivesOr(ts[..n'], OrTail(left, ts[n..]).e)
    decreases |ts| - n, 4
  {
    n' := n;
    if n < |ts| && ts[n] == Or {
      assert ts[n..][1..] == ts[n + 1..];
      var m := AndSound(ts[n + 1..]);
      var right := ParseAnd(ts[n + 1..]);
      JoinOr(ts[..n], ts[n + 1..][..m], left, right.e);
      assert ts[..n + 1 + m] == ts[..n] + [Or] + ts[n + 1..][..m];
      assert right.rest == ts[n + 1 + m..];
      n' := OrTailSound(ts, n + 1 + m, Disj(left, right.e));
    }
  }

  lemma {:induction false} OrSound(ts: seq<Token>) returns (n: nat)
    requires ParseOr(ts).Parsed?
    ensures Consumed(ts, ParseOr(ts).rest, n) && DerivesOr(ts[..n], ParseOr(ts).e)
    decreases |ts|, 5
  {
    n := AndSound(ts);
    n := OrTailSound(ts, n, ParseAnd(ts).e);
  }

  // ---------- The theorems ----------

  /** The parser with its trailing-token check accepts exactly the derivable token sequences and
      builds the derived expression. */
  lemma ParsesExactlyTheGrammar(ts: seq<Token>, e: Expr)
    ensures ParseAll(ts) == Ok(e) <==> DerivesOr(ts, e)
  {
    if DerivesOr(ts, e) {
      OrComplete(ts, e, []);
      assert ts + [] == ts;
    }
    if ParseAll(ts) == Ok(e) {
      var n := OrSound(ts);
      assert ts[..n] == ts;
    }
  }

  /** The grammar is unambiguous. */
  lemma DerivationIsUnique(ts: seq<Token>, e1: Expr, e2: Expr)
    requires DerivesOr(ts, e1) && DerivesOr(ts, e2)
    ensures e1 == e2
  {
    ParsesExactlyTheGrammar(ts, e1);
    ParsesExactlyTheGrammar(ts, e2);
  }
}
