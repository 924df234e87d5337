/** Paths as the grammar documents them and as the tokenizer takes them
    (rust-old/src/condition.rs). */
module PathGrammar {
  import opened Wrappers
  import opened Lexer
  import opened Parser
  import opened Compiler
  import opened Printer
  import opened Evaluation

  predicate IsIdent(s: string) {
    s != "" && StartsWord(s[0]) && forall i :: 0 <= i < |s| ==> IsWordChar(s[i]) && s[i] != '.'
  }

  /** Identifiers joined by dots. */
  predicate IsDocumentedPath(p: string) {
    forall k :: 0 <= k < |Split(p, '.')| ==> IsIdent(Split(p, '.')[k])
  }

  /** What the tokenizer reads as one word, Boolean literals included. */
  predicate IsWord(p: string) {
    p != "" && StartsWord(p[0]) && forall i :: 0 <= i < |p| ==> IsWordChar(p[i])
  }

  /** Every dot is followed by the start of an identifier. */
  predicate DotsJoin(p: string) {
    forall i :: 0 <= i < |p| && p[i] == '.' ==> i + 1 < |p| && StartsWord(p[i + 1])
  }

  lemma {:induction false} SplitConcat(head: string, rest: string)
    requires '.' !in head
    ensures Split(head, '.') == [head]
    ensures Split(head + "." + rest, '.') == [head] + Split(rest, '.')
  {
    if head == "" {
      assert (head + "." + rest)[1..] == rest;
    } else {
      SplitConcat(head[1..], rest);
      assert (head + "." + rest)[1..] == head[1..] + "." + rest;
      assert head == [head[0]] + head[1..];
    }
  }

  /** The documented paths are exactly the words whose dots each start a new identifier. */
  lemma {:induction false} DocumentedPathsAre(p: string)
    ensures IsDocumentedPath(p) <==> IsWord(p) && DotsJoin(p)
    decreases |p|
  {
    var i := Span(p, 0, (c: char) => c != '.');
    var head := p[..i];
    if i == |p| {
      assert head == p;
      SplitConcat(p, "");
      assert IsDocumentedPath(p) <==> IsIdent(Split(p, '.')[0]);
    } else {
      var rest := p[i + 1..];
      assert p == head + "." + rest;
      SplitConcat(head, rest);
      DocumentedPathsAre(rest);
      HeadAndRest(p, head, rest);
    }
  }

  lemma HeadAndRest(p: string, head: string, rest: string)
    requires p == head + "." + rest && '.' !in head && Split(p, '.') == [head] + Split(rest, '.')
    ensures IsDocumentedPath(p) <==> IsIdent(head) && IsDocumentedPath(rest)
    ensures IsWord(p) && DotsJoin(p) <==> IsIdent(head) && IsWord(rest) && DotsJoin(rest)
  {
    hide Split;
    assert forall k :: 0 <= k < |rest| ==> p[|head| + 1 + k] == rest[k];
    assert p[|head|] == '.' && forall k :: 0 <= k < |head| ==> p[k] == head[k];
    assert Split(p, '.')[0] == head;
    assert forall k :: 0 <= k < |Split(rest, '.')| ==> Split(p, '.')[k + 1] == Split(rest, '.')[k];
  }

  /** The compiler takes every word as a path, those the grammar does not derive as well: such a word
      is one in which some dot does not start a new identifier. */
  lemma WordsAreTakenAsPaths(p: string)
    requires IsWord(p) && p != "true" && p != "false"
    ensures Compile(p) == Ok(Ref(p))
    ensures !IsDocumentedPath(p) <==> exists i :: 0 <= i < |p| && p[i] == '.' && !(i + 1 < |p| && StartsWord(p[i + 1]))
  {
    DocumentedPathsAre(p);
    PathReads(p);
    Loosen(p, ValueLevel, Ref(p));
    Loosen(p, CmpLevel, Ref(p));
    Loosen(p, AndLevel, Ref(p));
    ReadsCompiles(p, Ref(p));
  }

  /** Such a word. */
  lemma DoubledDotIsTaken()
    ensures Compile("a..b") == Ok(Ref("a..b")) && !IsDocumentedPath("a..b")
  {
    var p := "a..b";
    assert p[1] == '.' && p[2] == '.';
    WordsAreTakenAsPaths(p);
  }
}
