/**
 The matching of brackets inside one line: forward from an opening bracket and back from a closing one,
 with the guesses about `<` and `>`.
 */
module BracketScan {
  import opened LineText

  /** Found: the index just past the closing bracket, or that of the opening one. GivenUp: no match. StillOpen: the
      stack at the end of the line. */
  datatype LineScan = Found(pos: nat) | GivenUp | StillOpen(stack: seq<char>)

  predicate IsOpening(c: char) {
    c == '(' || c == '[' || c == '{'
  }

  predicate IsClosing(c: char) {
    c == ')' || c == ']' || c == '}'
  }

  function Partner(c: char): char {
    match c
    case '(' => ')'
    case ')' => '('
    case '[' => ']'
    case ']' => '['
    case '{' => '}'
    case '}' => '{'
    case _ => c
  }

  predicate TopIs(stack: seq<char>, c: char) {
    stack != [] && stack[|stack| - 1] == c
  }

  function Pop(stack: seq<char>): seq<char>
    requires stack != []
  {
    stack[..|stack| - 1]
  }

  /** The stack without the template brackets on top, which must have been operators. */
  function Dropped(stack: seq<char>, template: char): seq<char> {
    if TopIs(stack, template) then Dropped(Pop(stack), template) else stack
  }

  method DropTemplates(stack: seq<char>, template: char) returns (r: seq<char>)
    ensures r == Dropped(stack, template)
  {
    r := stack;
    while r != [] && r[|r| - 1] == template
      invariant Dropped(stack, template) == Dropped(r, template)
    {
      r := r[..|r| - 1];
    }
  }

  /** A bracket meets the top of the stack, which must be its partner; the last one is found at `pos`. */
  function Matched(partner: char, stack: seq<char>, pos: nat): LineScan {
    if !TopIs(stack, partner) then GivenUp else if |stack| == 1 then Found(pos) else StillOpen(Pop(stack))
  }

  /** Reading one more character of a line forward. */
  function EndStep(line: string, i: nat, stack: seq<char>): LineScan
    requires i < |line|
  {
    var c := line[i];
    if IsOpening(c) then StillOpen(stack + [c])
    else if c == '<' then
      if i > 0 && line[i - 1] == '<' then
        if !TopIs(stack, '<') then StillOpen(stack) else if |stack| == 1 then GivenUp else StillOpen(Pop(stack))
      else if i > 0 && EndsInOperator(line[..i]) then StillOpen(stack)
      else StillOpen(stack + ['<'])
    else if IsClosing(c) then
      Matched(Partner(c), Dropped(stack, '<'), i + 1)
    else if c == '>' then
      if i > 0 && (line[i - 1] == '-' || EndsInOperator(line[..i - 1])) then StillOpen(stack)
      else if !TopIs(stack, '<') then StillOpen(stack)
      else if |stack| == 1 then Found(i + 1) else StillOpen(Pop(stack))
    else if c == ';' then
      var rest := Dropped(stack, '<');
      if rest == [] then GivenUp else StillOpen(rest)
    else StillOpen(stack)
  }

  function EndFrom(line: string, i: nat, stack: seq<char>): LineScan
    requires i <= |line|
    decreases |line| - i
  {
    if i == |line| then StillOpen(stack) else
    var r := EndStep(line, i, stack);
    if r.StillOpen? then EndFrom(line, i + 1, r.stack) else r
  }

  method FindEndOfExpressionInLine(line: string, startpos: nat, stack0: seq<char>) returns (r: LineScan)
    requires startpos <= |line|
    ensures r == EndFrom(line, startpos, stack0)
  {
    var stack := stack0;
    for i := startpos to |line|
      invariant EndFrom(line, startpos, stack0) == EndFrom(line, i, stack)
    {
      var c := line[i];
      if IsOpening(c) {
        stack := stack + [c];
      } else if c == '<' {
        if i > 0 && line[i - 1] == '<' {
          if stack != [] && stack[|stack| - 1] == '<' {
            stack := stack[..|stack| - 1];
            if stack == [] {
              return GivenUp;
            }
          }
        } else if i > 0 && EndsInOperator(line[..i]) {
          continue;
        } else {
          stack := stack + ['<'];
        }
      } else if IsClosing(c) {
        stack := DropTemplates(stack, '<');
        if stack == [] {
          return GivenUp;
        }
        if stack[|stack| - 1] == Partner(c) {
          stack := stack[..|stack| - 1];
          if stack == [] {
            return Found(i + 1);
          }
        } else {
          return GivenUp;
        }
      } else if c == '>' {
        if i > 0 && (line[i - 1] == '-' || EndsInOperator(line[..i - 1])) {
          continue;
        }
        if stack != [] && stack[|stack| - 1] == '<' {
          stack := stack[..|stack| - 1];
          if stack == [] {
            return Found(i + 1);
          }
        }
      } else if c == ';' {
        stack := DropTemplates(stack, '<');
        if stack == [] {
          return GivenUp;
        }
      }
    }
    r := StillOpen(stack);
  }

  /** A `>` that is no bracket: of an arrow, a comparison or an operator's name. */
  predicate IgnoresGreater(line: string, i: nat)
    requires i < |line|
  {
    i > 0 && (line[i - 1] == '-'
              || (IsSpace(line[i - 1]) && i + 2 < |line| && line[i + 1] == '=' && IsSpace(line[i + 2]))
              || EndsInOperator(line[..i]))
  }

  /** Reading one more character of a line backward. */
  function StartStep(line: string, i: nat, stack: seq<char>): LineScan
    requires i < |line|
  {
    var c := line[i];
    if IsClosing(c) then StillOpen(stack + [c])
    else if c == '>' then
      if IgnoresGreater(line, i) then StillOpen(stack) else StillOpen(stack + ['>'])
    else if c == '<' then
      if i > 0 && line[i - 1] == '<' then StillOpen(stack)
      else if !TopIs(stack, '>') then StillOpen(stack)
      else if |stack| == 1 then Found(i) else StillOpen(Pop(stack))
    else if IsOpening(c) then
      Matched(Partner(c), Dropped(stack, '>'), i)
    else if c == ';' then
      var rest := Dropped(stack, '>');
      if rest == [] then GivenUp else StillOpen(rest)
    else StillOpen(stack)
  }

  /** The character before an ignored `>` or a shift is passed over, too. */
  predicate PassesTwo(line: string, i: nat)
    requires i < |line|
  {
    (line[i] == '>' && IgnoresGreater(line, i)) || (line[i] == '<' && i > 0 && line[i - 1] == '<')
  }

  /** The first `n` characters, from the last of them. */
  function StartFrom(line: string, n: nat, stack: seq<char>): LineScan
    requires n <= |line|
  {
    if n == 0 then StillOpen(stack) else
    var r := StartStep(line, n - 1, stack);
    if !r.StillOpen? then r
    else StartFrom(line, if PassesTwo(line, n - 1) then n - 2 else n - 1, r.stack)
  }

  method FindStartOfExpressionInLine(line: string, endpos: int, stack0: seq<char>) returns (r: LineScan)
    requires -1 <= endpos < |line|
    ensures r == StartFrom(line, endpos + 1, stack0)
  {
    var stack, i := stack0, endpos;
    while i >= 0
      invariant -1 <= i < |line|
      invariant StartFrom(line, endpos + 1, stack0) == StartFrom(line, i + 1, stack)
      decreases i
    {
      var c := line[i];
      if IsClosing(c) {
        stack := stack + [c];
      } else if c == '>' {
        if IgnoresGreater(line, i) {
          i := i - 1;
        } else {
          stack := stack + ['>'];
        }
      } else if c == '<' {
        if i > 0 && line[i - 1] == '<' {
          i := i - 1;
        } else if stack != [] && stack[|stack| - 1] == '>' {
          stack := stack[..|stack| - 1];
          if stack == [] {
            return Found(i);
          }
        }
      } else if IsOpening(c) {
        stack := DropTemplates(stack, '>');
        if stack == [] {
          return GivenUp;
        }
        if stack[|stack| - 1] == Partner(c) {
          stack := stack[..|stack| - 1];
          if stack == [] {
            return Found(i);
          }
        } else {
          return GivenUp;
        }
      } else if c == ';' {
        stack := DropTemplates(stack, '>');
        if stack == [] {
          return GivenUp;
        }
      }
      i := i - 1;
    }
    r := StillOpen(stack);
  }

  // Over the lines of a file.

  datatype Place = Place(linenum: nat, pos: nat) | Nowhere

  /** The lines from `linenum` on, the first from `pos`. */
  function CloseFrom(lines: seq<string>, linenum: nat, pos: nat, stack: seq<char>): Place
    requires linenum < |lines| && pos <= |lines[linenum]|
    decreases |lines| - linenum
  {
    match EndFrom(lines[linenum], pos, stack)
    case Found(end) => Place(linenum, end)
    case GivenUp => Nowhere
    case StillOpen(next) =>
      if next != [] && linenum + 1 < |lines| then CloseFrom(lines, linenum + 1, 0, next) else Nowhere
  }

  /** No bracket, or one that starts a shift or a comparison. */
  predicate Hopeless(line: string, pos: nat)
    requires pos < |line|
  {
    || !(IsOpening(line[pos]) || line[pos] == '<')
    || (line[pos] == '<' && pos + 1 < |line| && (line[pos + 1] == '<' || line[pos + 1] == '='))
  }

  function Closing(lines: seq<string>, linenum: nat, pos: nat): Place
    requires linenum < |lines| && pos < |lines[linenum]|
  {
    if Hopeless(lines[linenum], pos) then Nowhere else CloseFrom(lines, linenum, pos, [])
  }

  /** The line, its number, and the place past the closing bracket; the number of lines and -1 if there is none. */
  method CloseExpression(lines: seq<string>, linenum0: nat, pos: nat)
    returns (line: string, linenum: nat, endPos: int)
    requires linenum0 < |lines| && pos < |lines[linenum0]|
    ensures match Closing(lines, linenum0, pos)
      case Place(l, p) => linenum == l < |lines| && endPos == p && line == lines[l]
      case Nowhere => linenum == |lines| && endPos == -1
  {
    linenum := linenum0;
    line := lines[linenum];
    if Hopeless(line, pos) {
      return line, |lines|, -1;
    }
    var r := FindEndOfExpressionInLine(line, pos, []);
    if r.Found? {
      return line, linenum, r.pos;
    }
    while r.StillOpen? && r.stack != [] && linenum + 1 < |lines|
      invariant linenum < |lines|
      invariant !r.Found?
      invariant Closing(lines, linenum0, pos)
             == if r.StillOpen? && r.stack != [] && linenum + 1 < |lines| then CloseFrom(lines, linenum + 1, 0, r.stack)
                else Nowhere
      decreases |lines| - linenum
    {
      linenum := linenum + 1;
      line := lines[linenum];
      r := FindEndOfExpressionInLine(line, 0, r.stack);
      if r.Found? {
        return line, linenum, r.pos;
      }
    }
    return line, |lines|, -1;
  }

  /** The lines up to `linenum`, of the last one the first `n` characters. */
  function OpenFrom(lines: seq<string>, linenum: nat, n: nat, stack: seq<char>): Place
    requires linenum < |lines| && n <= |lines[linenum]|
    decreases linenum
  {
    match StartFrom(lines[linenum], n, stack)
    case Found(start) => Place(linenum, start)
    case GivenUp => Nowhere
    case StillOpen(next) =>
      if next != [] && linenum > 0 then OpenFrom(lines, linenum - 1, |lines[linenum - 1]|, next) else Nowhere
  }

  function Opening(lines: seq<string>, linenum: nat, pos: nat): Place
    requires linenum < |lines| && pos < |lines[linenum]|
  {
    var c := lines[linenum][pos];
    if IsClosing(c) || c == '>' then OpenFrom(lines, linenum, pos + 1, []) else Nowhere
  }

  /** The line, its number, and the place of the opening bracket; 0 and -1 if there is none. */
  method ReverseCloseExpression(lines: seq<string>, linenum0: nat, pos: nat)
    returns (line: string, linenum: nat, startPos: int)
    requires linenum0 < |lines| && pos < |lines[linenum0]|
    ensures match Opening(lines, linenum0, pos)
      case Place(l, p) => linenum == l < |lines| && startPos == p && line == lines[l]
      case Nowhere => linenum == 0 && startPos == -1
  {
    linenum := linenum0;
    line := lines[linenum];
    if !(IsClosing(line[pos]) || line[pos] == '>') {
      return line, 0, -1;
    }
    var r := FindStartOfExpressionInLine(line, pos, []);
    if r.Found? {
      return line, linenum, r.pos;
    }
    while r.StillOpen? && r.stack != [] && linenum > 0
      invariant linenum < |lines|
      invariant !r.Found?
      invariant Opening(lines, linenum0, pos)
             == if r.StillOpen? && r.stack != [] && linenum > 0
                then OpenFrom(lines, linenum - 1, |lines[linenum - 1]|, r.stack) else Nowhere
      decreases linenum
    {
      linenum := linenum - 1;
      line := lines[linenum];
      r := FindStartOfExpressionInLine(line, |line| - 1, r.stack);
      if r.Found? {
        return line, linenum, r.pos;
      }
    }
    return line, 0, -1;
  }
}
