/**
 What the bracket searches take for a template bracket and what not, on lines on which they have to guess.
 */
module BracketGuesses {
  import opened LineText
  import opened BracketScan
  import opened BracketTemplates

  // Names of operators.

  lemma NotAnR(s: string)
    requires s != "" && s[|s| - 1] != 'r' && !IsSpace(s[|s| - 1])
    ensures !EndsInOperator(s)
  {
    assert TrimRight(s) == s;
    if |s| >= 8 {
      assert s[|s| - 8..][7] == s[|s| - 1] && "operator"[7] == 'r';
    }
  }

  lemma OperatorName()
    ensures EndsInOperator("<operator")
  {
    assert TrimRight("<operator") == "<operator";
    assert "<operator"[1..] == "operator";
  }

  lemma NameIsLetters()
    ensures forall k | 1 <= k < 9 :: 'a' <= "<operator"[k] <= 'z'
  {
  }

  lemma NameAt(line: string)
    requires |line| >= 9 && line[..9] == "<operator"
    ensures line[0] == '<' && line[7] == 'o' && line[8] == 'r' && forall k | 1 <= k < 9 :: 'a' <= line[k] <= 'z'
  {
    NameIsLetters();
    forall k | 0 <= k < 9 ensures line[k] == "<operator"[k] {
      assert line[k] == line[..9][k];
    }
  }

  // One character, forward.

  lemma OneOn(line: string, i: nat, stack: seq<char>, next: seq<char>)
    requires i < |line| && EndStep(line, i, stack) == StillOpen(next)
    ensures EndFrom(line, i, stack) == EndFrom(line, i + 1, next)
  {
  }

  predicate IsLetter(c: char) {
    'a' <= c <= 'z'
  }

  lemma {:induction false} PassesLetters(line: string, i: nat, j: nat, stack: seq<char>)
    requires i <= j <= |line| && forall k | i <= k < j :: IsLetter(line[k])
    ensures EndFrom(line, i, stack) == EndFrom(line, j, stack)
    decreases j - i
  {
    if i < j {
      assert EndStep(line, i, stack) == StillOpen(stack);
      PassesLetters(line, i + 1, j, stack);
    }
  }

  lemma OnlyTemplate(template: char)
    ensures Dropped([template], template) == []
  {
    assert Pop([template]) == [] && TopIs([template], template);
    assert Dropped([], template) == [];
  }

  /** From a `<` at the start of a line, up to the `>` that closes it. */
  lemma FromBracket(line: string)
    requires |line| > 1 && line[0] == '<' && line[1] != '<' && line[1] != '='
    ensures var r := EndFrom(line, 1, ['<']);
      Closing([line], 0, 0) == if r.Found? then Place(0, r.pos) else Nowhere
  {
    assert [] + ['<'] == ['<'];
    OneOn(line, 0, [], ['<']);
  }

  lemma EndsHere(line: string, i: nat)
    requires 0 < i < |line| && line[i] == '>' && line[i - 1] != '-' && !EndsInOperator(line[..i - 1])
    ensures EndFrom(line, i, ['<']) == Found(i + 1)
  {
  }

  /** Forward, the `>` of an arrow closes nothing, as in "<a->b>". */
  lemma ArrowIsNoBracket(line: string)
    requires |line| == 6 && line[0] == '<' && line[1] == 'a' && line[2] == '-' && line[3] == '>' && line[4] == 'b'
    requires line[5] == '>'
    ensures Closing([line], 0, 0) == Place(0, 6)
  {
    PassesLetters(line, 1, 2, ['<']);
    OneOn(line, 2, ['<'], ['<']);
    OneOn(line, 3, ['<'], ['<']);
    PassesLetters(line, 4, 5, ['<']);
    NotAnR(line[..4]);
    EndsHere(line, 5);
    FromBracket(line);
  }

  /** A shift and a comparison open nothing. */
  lemma ShiftIsNoBracket(lines: seq<string>, l: nat, p: nat)
    requires l < |lines| && p + 1 < |lines[l]| && lines[l][p] == '<'
    requires lines[l][p + 1] == '<' || lines[l][p + 1] == '='
    ensures Closing(lines, l, p) == Nowhere
  {
  }

  /** A semicolon shows that an open `<` was an operator, as in "<a;b>". */
  lemma SemicolonGivesUp(line: string)
    requires |line| > 2 && line[0] == '<' && line[1] == 'a' && line[2] == ';'
    ensures Closing([line], 0, 0) == Nowhere
  {
    PassesLetters(line, 1, 2, ['<']);
    OnlyTemplate('<');
    assert EndStep(line, 2, ['<']) == GivenUp;
    FromBracket(line);
  }

  lemma NameOpens(line: string)
    requires |line| > 9 && line[..9] == "<operator" && line[9] == '<'
    ensures EndFrom(line, 1, ['<']) == EndFrom(line, 10, ['<']) && line[0] == '<' && line[1] != '<' && line[1] != '='
  {
    NameAt(line);
    PassesLetters(line, 1, 9, ['<']);
    OperatorName();
    OneOn(line, 9, ['<'], ['<']);
  }

  /** The bracket of an operator's name opens nothing: the template in the line "<operator<x>" ends it. */
  lemma OperatorIsNoBracket(line: string)
    requires |line| == 12 && line[..9] == "<operator"
    requires line[9] == '<' && line[10] == 'x' && line[11] == '>'
    ensures Closing([line], 0, 0) == Place(0, 12)
  {
    NameOpens(line);
    PassesLetters(line, 10, 11, ['<']);
    NotAnR(line[..10]);
    EndsHere(line, 11);
    FromBracket(line);
  }

  /** The second `<` after an operator's name is taken for a shift, which ends the search for the end of a template. */
  lemma OperatorShift(line: string)
    requires |line| >= 11 && line[..9] == "<operator" && line[9] == '<' && line[10] == '<'
    ensures Closing([line], 0, 0) == Nowhere
  {
    NameOpens(line);
    assert EndStep(line, 10, ['<']) == GivenUp;
    FromBracket(line);
  }

  /** A shift inside a template, as in "<a<<b>": its first `<` is taken back with the second. */
  lemma ShiftInTemplate(line: string)
    requires |line| == 6 && line[0] == '<' && line[1] == 'a' && line[2] == '<' && line[3] == '<' && line[4] == 'b'
    requires line[5] == '>'
    ensures Closing([line], 0, 0) == Place(0, 6)
  {
    var one, two := ['<'], ['<', '<'];
    assert one + ['<'] == two && Pop(two) == one;
    NotAnR(line[..2]);
    NotAnR(line[..4]);
    PassesLetters(line, 1, 2, one);
    OneOn(line, 2, one, two);
    OneOn(line, 3, two, one);
    PassesLetters(line, 4, 5, one);
    EndsHere(line, 5);
    FromBracket(line);
  }

  /** The `>` of "operator>" is taken for the end of a template: the text examined stops one character too early. */
  lemma OperatorGreater(line: string)
    requires |line| >= 10 && line[..9] == "<operator" && line[9] == '>'
    ensures Closing([line], 0, 0) == Place(0, 10)
  {
    NameAt(line);
    GreaterAfterLetters(line, 9);
  }

  lemma GreaterAfterLetters(line: string, i: nat)
    requires 2 < i < |line| && line[0] == '<' && line[i] == '>' && line[i - 2] != 'r'
    requires forall k | 1 <= k < i :: IsLetter(line[k])
    ensures Closing([line], 0, 0) == Place(0, i + 1)
  {
    PassesLetters(line, 1, i, ['<']);
    NotAnR(line[..i - 1]);
    EndsHere(line, i);
    FromBracket(line);
  }

  /** So is that of a comparison, as in "<a >= b>". */
  lemma ComparisonForward(line: string)
    requires |line| >= 4 && line[0] == '<' && line[1] == 'a' && line[2] == ' ' && line[3] == '>'
    ensures Closing([line], 0, 0) == Place(0, 4)
  {
    PassesLetters(line, 1, 2, ['<']);
    OneOn(line, 2, ['<'], ['<']);
    NotAnR(line[..2]);
    EndsHere(line, 3);
    FromBracket(line);
  }

  // One character, backward.

  /** Back over two characters. */
  lemma TwoBack(line: string, i: nat, stack: seq<char>)
    requires 0 < i < |line| && PassesTwo(line, i) && stack != []
    ensures StartFrom(line, i + 1, stack) == StartFrom(line, i - 1, stack)
  {
    assert StartStep(line, i, stack) == StillOpen(stack);
  }

  lemma {:induction false} PassesLettersBack(line: string, i: nat, j: nat, stack: seq<char>)
    requires i <= j <= |line| && stack != [] && forall k | i <= k < j :: IsLetter(line[k])
    ensures StartFrom(line, j, stack) == StartFrom(line, i, stack)
    decreases j - i
  {
    if i < j {
      OverPlainBack(line, j - 1, stack);
      PassesLettersBack(line, i, j - 1, stack);
    }
  }

  /** From a `>` after a letter, back to the `<` that it closes. */
  lemma ToBracket(line: string, i: nat)
    requires 0 < i < |line| && line[i] == '>' && IsLetter(line[i - 1]) && line[i - 1] != 'r'
    ensures var r := StartFrom(line, i, ['>']);
      Opening([line], 0, i) == if r.Found? then Place(0, r.pos) else Nowhere
  {
    NotAnR(line[..i]);
    assert [] + ['>'] == ['>'];
    assert StartStep(line, i, []) == StillOpen(['>']) && !PassesTwo(line, i);
    OneBack(line, i, [], ['>']);
  }

  lemma StartsHere(line: string)
    requires line != "" && line[0] == '<'
    ensures StartFrom(line, 1, ['>']) == Found(0)
  {
    assert StartStep(line, 0, ['>']) == Found(0);
  }

  /** Backward, the `>` of an arrow opens nothing, ... */
  lemma ArrowBackward(line: string)
    requires |line| == 6 && line[0] == '<' && line[1] == 'a' && line[2] == '-' && line[3] == '>' && line[4] == 'b'
    requires line[5] == '>'
    ensures Opening([line], 0, 5) == Place(0, 0)
  {
    ToBracket(line, 5);
    PassesLettersBack(line, 4, 5, ['>']);
    TwoBack(line, 3, ['>']);
    PassesLettersBack(line, 1, 2, ['>']);
    StartsHere(line);
  }

  /** ... nor does that of a comparison with spaces around it, ... */
  lemma ComparisonBackward(line: string)
    requires |line| == 8 && line[0] == '<' && line[1] == 'a' && line[2] == ' ' && line[3] == '>' && line[4] == '='
    requires line[5] == ' ' && line[6] == 'b' && line[7] == '>'
    ensures Opening([line], 0, 7) == Place(0, 0)
  {
    ToBracket(line, 7);
    PassesLettersBack(line, 6, 7, ['>']);
    OverPlainBack(line, 5, ['>']);
    OverPlainBack(line, 4, ['>']);
    ComparisonPassed(line, 3);
    PassesLettersBack(line, 1, 2, ['>']);
    StartsHere(line);
  }

  lemma ComparisonPassed(line: string, i: nat)
    requires 0 < i && i + 2 < |line| && line[i - 1] == ' ' && line[i] == '>' && line[i + 1] == '=' && line[i + 2] == ' '
    ensures StartFrom(line, i + 1, ['>']) == StartFrom(line, i - 1, ['>'])
  {
    assert PassesTwo(line, i);
    TwoBack(line, i, ['>']);
  }

  /** ... nor that of an operator's name. */
  lemma OperatorGreaterBackward(line: string)
    requires |line| == 12 && line[..9] == "<operator" && line[9] == '>' && line[10] == 'x' && line[11] == '>'
    ensures Opening([line], 0, 11) == Place(0, 0)
  {
    NameAt(line);
    OperatorName();
    ToBracket(line, 11);
    PassesLettersBack(line, 10, 11, ['>']);
    TwoBack(line, 9, ['>']);
    PassesLettersBack(line, 1, 8, ['>']);
    StartsHere(line);
  }

  /** A shift is passed over, as in "<a<<b>". */
  lemma ShiftBackward(line: string)
    requires |line| == 6 && line[0] == '<' && line[1] == 'a' && line[2] == '<' && line[3] == '<' && line[4] == 'b'
    requires line[5] == '>'
    ensures Opening([line], 0, 5) == Place(0, 0)
  {
    ToBracket(line, 5);
    PassesLettersBack(line, 4, 5, ['>']);
    TwoBack(line, 3, ['>']);
    PassesLettersBack(line, 1, 2, ['>']);
    StartsHere(line);
  }

  /** A semicolon shows that what looked like an end was an operator, as in "<a;b>". */
  lemma SemicolonBackward(line: string)
    requires |line| == 5 && line[2] == ';' && line[3] == 'b' && line[4] == '>'
    ensures Opening([line], 0, 4) == Nowhere
  {
    ToBracket(line, 4);
    PassesLettersBack(line, 3, 4, ['>']);
    OnlyTemplate('>');
    assert StartStep(line, 2, ['>']) == GivenUp;
  }
}
