/**
 The matching of template brackets `<` and `>` on lines on which nothing has to be guessed: no shift, no arrow, no
 comparison and no operator's name. Both searches then find the other end of a balanced template.
 */
module BracketTemplates {
  import opened LineText
  import opened BracketScan
  import opened BracketMatching

  function Closer(open: char): char {
    if open == '<' then '>' else Partner(open)
  }

  function Written(w: Word): string {
    match w
    case Empty => ""
    case Plain(c, rest) => [c] + Written(rest)
    case Enclosed(open, body, rest) => [open] + Written(body) + [Closer(open)] + Written(rest)
  }

  /** Balanced, templates too. A semicolon may only stand where the innermost bracket is none of a template. */
  predicate Tidy(w: Word, inTemplate: bool) {
    match w
    case Empty => true
    case Plain(c, rest) => IsPlain(c) && c != '<' && c != '>' && (c == ';' ==> !inTemplate) && Tidy(rest, inTemplate)
    case Enclosed(open, body, rest) =>
      (IsOpening(open) || open == '<') && Tidy(body, open == '<') && Tidy(rest, inTemplate)
  }

  /** Nothing on the line makes a search take a template bracket for anything else. */
  ghost predicate Tame(line: string) {
    forall i | 0 <= i < |line| :: IsTame(line, i)
  }

  predicate IsTame(line: string, i: nat)
    requires i < |line|
  {
    && (line[i] == '<' && i > 0 ==> line[i - 1] != '<' && !EndsInOperator(line[..i]))
    && (line[i] == '>' && i > 0 ==> line[i - 1] != '-' && !EndsInOperator(line[..i - 1]) && !IgnoresGreater(line, i))
  }

  lemma Part(line: string, i: nat, j: nat, a: string, c: char, b: string)
    requires i <= j <= |line| && line[i..j] == a + [c] + b
    ensures i + |a| < j && line[i..i + |a|] == a && line[i + |a|] == c && line[i + |a| + 1..j] == b
  {
    var s := line[i..j];
    assert |s| == |a| + 1 + |b|;
    assert s[..|a|] == a && s[|a|] == c && s[|a| + 1..] == b;
  }

  /** What a word of brackets is made of, and where. */
  lemma EnclosedParts(w: Word, line: string, i: nat, j: nat) returns (k: nat)
    requires w.Enclosed? && i <= j <= |line| && line[i..j] == Written(w)
    ensures i < k < j && line[i] == w.open && line[i + 1..k] == Written(w.body)
    ensures line[k] == Closer(w.open) && line[k + 1..j] == Written(w.rest)
  {
    var body, rest := Written(w.body), Written(w.rest);
    assert line[i..j] == ([w.open] + body) + [Closer(w.open)] + rest;
    Part(line, i, j, [w.open] + body, Closer(w.open), rest);
    k := i + 1 + |body|;
    assert line[i..k] == [] + [w.open] + body;
    Part(line, i, k, [], w.open, body);
  }

  lemma TopStays(stack: seq<char>, template: char)
    requires stack != [] && !TopIs(stack, template)
    ensures Dropped(stack, template) == stack
  {
  }

  /** Forward over one bracket of a word, and over its partner. */
  lemma OpenStep(line: string, i: nat, stack: seq<char>)
    requires i < |line| && IsTame(line, i) && (IsOpening(line[i]) || line[i] == '<')
    ensures EndStep(line, i, stack) == StillOpen(stack + [line[i]])
  {
  }

  lemma CloseStep(line: string, k: nat, open: char, stack: seq<char>)
    requires k < |line| && IsTame(line, k) && (IsOpening(open) || open == '<') && line[k] == Closer(open)
    ensures EndStep(line, k, stack + [open]) == if stack == [] then Found(k + 1) else StillOpen(stack)
  {
    assert Pop(stack + [open]) == stack;
    if open != '<' {
      TopStays(stack + [open], '<');
    }
  }

  /** The forward search passes a balanced word. */
  lemma {:induction false} ForwardOver(w: Word, line: string, i: nat, j: nat, stack: seq<char>)
    requires Tame(line) && i <= j <= |line| && line[i..j] == Written(w) && stack != [] && Tidy(w, TopIs(stack, '<'))
    ensures EndFrom(line, i, stack) == EndFrom(line, j, stack)
    decreases w
  {
    match w
    case Empty =>
    case Plain(c, rest) =>
      assert line[i..j] == [] + [c] + Written(rest);
      Part(line, i, j, [], c, Written(rest));
      OverPlain(line, i, stack);
      ForwardOver(rest, line, i + 1, j, stack);
    case Enclosed(open, body, rest) =>
      var k := EnclosedParts(w, line, i, j);
      ForwardOver(body, line, i + 1, k, stack + [open]);
      OverBrackets(line, i, k, open, stack);
      ForwardOver(rest, line, k + 1, j, stack);
  }

  lemma OverPlain(line: string, i: nat, stack: seq<char>)
    requires i < |line| && IsPlain(line[i]) && line[i] != '<' && line[i] != '>' && stack != []
    requires line[i] == ';' ==> !TopIs(stack, '<')
    ensures EndFrom(line, i, stack) == EndFrom(line, i + 1, stack)
  {
    if line[i] == ';' {
      TopStays(stack, '<');
    }
    assert EndStep(line, i, stack) == StillOpen(stack);
  }

  /** Forward over a bracket and its partner, when what is between them is passed. */
  lemma OverBrackets(line: string, i: nat, k: nat, open: char, stack: seq<char>)
    requires Tame(line) && i < k < |line| && (IsOpening(open) || open == '<') && stack != []
    requires line[i] == open && line[k] == Closer(open)
    requires EndFrom(line, i + 1, stack + [open]) == EndFrom(line, k, stack + [open])
    ensures EndFrom(line, i, stack) == EndFrom(line, k + 1, stack)
  {
    assert IsTame(line, i) && IsTame(line, k);
    OpenStep(line, i, stack);
    CloseStep(line, k, open, stack);
  }

  /** Backward over the partner of a bracket, and over the bracket. */
  lemma CloseStepBack(line: string, k: nat, open: char, stack: seq<char>)
    requires k < |line| && IsTame(line, k) && (IsOpening(open) || open == '<') && line[k] == Closer(open)
    ensures StartStep(line, k, stack) == StillOpen(stack + [line[k]]) && !PassesTwo(line, k)
  {
  }

  lemma OpenStepBack(line: string, i: nat, open: char, stack: seq<char>)
    requires i < |line| && IsTame(line, i) && (IsOpening(open) || open == '<') && line[i] == open
    ensures StartStep(line, i, stack + [Closer(open)]) == if stack == [] then Found(i) else StillOpen(stack)
    ensures !PassesTwo(line, i)
  {
    assert Pop(stack + [Closer(open)]) == stack;
    if open != '<' {
      TopStays(stack + [Closer(open)], '>');
    }
  }

  lemma PlainStepBack(line: string, i: nat, stack: seq<char>)
    requires i < |line| && IsPlain(line[i]) && line[i] != '<' && line[i] != '>' && stack != []
    requires line[i] == ';' ==> !TopIs(stack, '>')
    ensures StartStep(line, i, stack) == StillOpen(stack) && !PassesTwo(line, i)
  {
    if line[i] == ';' {
      TopStays(stack, '>');
    }
  }

  lemma OneBack(line: string, i: nat, stack: seq<char>, next: seq<char>)
    requires i < |line| && !PassesTwo(line, i) && StartStep(line, i, stack) == StillOpen(next)
    ensures StartFrom(line, i + 1, stack) == StartFrom(line, i, next)
  {
  }

  lemma OverPlainBack(line: string, i: nat, stack: seq<char>)
    requires i < |line| && IsPlain(line[i]) && line[i] != '<' && line[i] != '>' && stack != []
    requires line[i] == ';' ==> !TopIs(stack, '>')
    ensures StartFrom(line, i + 1, stack) == StartFrom(line, i, stack)
  {
    PlainStepBack(line, i, stack);
    OneBack(line, i, stack, stack);
  }

  lemma {:induction false} BackwardOver(w: Word, line: string, i: nat, j: nat, stack: seq<char>)
    requires Tame(line) && i <= j <= |line| && line[i..j] == Written(w) && stack != [] && Tidy(w, TopIs(stack, '>'))
    ensures StartFrom(line, j, stack) == StartFrom(line, i, stack)
    decreases w
  {
    match w
    case Empty =>
    case Plain(c, rest) =>
      assert line[i..j] == [] + [c] + Written(rest);
      Part(line, i, j, [], c, Written(rest));
      BackwardOver(rest, line, i + 1, j, stack);
      OverPlainBack(line, i, stack);
    case Enclosed(open, body, rest) =>
      var k := EnclosedParts(w, line, i, j);
      BackwardOver(rest, line, k + 1, j, stack);
      BackwardOver(body, line, i + 1, k, stack + [Closer(open)]);
      OverBracketsBack(line, i, k, open, stack);
  }

  /** Backward over a bracket and its partner, when what is between them is passed. */
  lemma OverBracketsBack(line: string, i: nat, k: nat, open: char, stack: seq<char>)
    requires Tame(line) && i < k < |line| && (IsOpening(open) || open == '<') && stack != []
    requires line[i] == open && line[k] == Closer(open)
    requires StartFrom(line, k, stack + [Closer(open)]) == StartFrom(line, i + 1, stack + [Closer(open)])
    ensures StartFrom(line, k + 1, stack) == StartFrom(line, i, stack)
  {
    var inside := stack + [Closer(open)];
    assert IsTame(line, i) && IsTame(line, k);
    CloseStepBack(line, k, open, stack);
    OneBack(line, k, stack, inside);
    OpenStepBack(line, i, open, stack);
    OneBack(line, i, inside, stack);
  }

  /** A template bracket is closed at the end of the balanced word after it, and back from there is where it started. */
  lemma TemplateMatches(lines: seq<string>, l: nat, p: nat, q: nat, w: Word)
    requires l < |lines| && p < q < |lines[l]| && lines[l][p] == '<' && lines[l][q] == '>'
    requires Tame(lines[l]) && lines[l][p + 1..q] == Written(w) && Tidy(w, true)
    requires lines[l][p + 1] != '='
    ensures Closing(lines, l, p) == Place(l, q + 1) && Opening(lines, l, q) == Place(l, p)
  {
    var line := lines[l];
    assert IsTame(line, p) && IsTame(line, q) && IsTame(line, p + 1);
    OpenStep(line, p, []);
    assert [] + ['<'] == ['<'] && [] + ['>'] == ['>'];
    ForwardOver(w, line, p + 1, q, ['<']);
    CloseStep(line, q, '<', []);
    CloseStepBack(line, q, '<', []);
    BackwardOver(w, line, p + 1, q, ['>']);
    OpenStepBack(line, p, '<', []);
  }
}
