/**
 The nesting stack of a file with conditional compilation: an if saves the stack, an else goes back to
 the saved one, and an endif restores what there was before the else.
 */
module NestingStack {
  import opened LineText

  datatype Directive = DirIf | DirElse | DirEndif | Ordinary

  /** What a line is to the preprocessor: the first word after a `#`. */
  function DirectiveOf(line: string): Directive {
    var s := TrimLeft(line);
    if s == "" || s[0] != '#' then Ordinary else
    DirectiveWord(Word(TrimLeft(s[1..])))
  }

  /** A line that starts, after spaces, with `#`, spaces and a whole word. */
  ghost predicate IsDirective(line: string, before: string, between: string, word: string, rest: string) {
    && line == before + "#" + between + word + rest
    && AllSpace(before) && AllSpace(between)
    && word != "" && (forall c | c in word :: IsWordChar(c)) && (rest == "" || !IsWordChar(rest[0]))
  }

  function DirectiveWord(word: string): Directive {
    if word == "if" || word == "ifdef" || word == "ifndef" then DirIf
    else if word == "else" || word == "elif" then DirElse
    else if word == "endif" then DirEndif
    else Ordinary
  }

  lemma {:induction false} TrimSplits(s: string) returns (before: string)
    ensures s == before + TrimLeft(s) && AllSpace(before)
    ensures TrimLeft(s) == "" || !IsSpace(TrimLeft(s)[0])
  {
    before := "";
    if s != "" && IsSpace(s[0]) {
      before := TrimSplits(s[1..]);
      assert s == [s[0]] + s[1..];
      before := [s[0]] + before;
    }
  }

  lemma {:induction false} WordIs(word: string, rest: string)
    requires (forall c | c in word :: IsWordChar(c)) && (rest == "" || !IsWordChar(rest[0]))
    ensures Word(word + rest) == word
  {
    if word == "" {
      assert word + rest == rest;
    } else {
      assert word[0] in word && (word + rest)[0] == word[0] && (word + rest)[1..] == word[1..] + rest;
      WordIs(word[1..], rest);
    }
  }

  lemma {:induction false} WordSplits(s: string) returns (rest: string)
    ensures s == Word(s) + rest && (forall c | c in Word(s) :: IsWordChar(c)) && (rest == "" || !IsWordChar(rest[0]))
  {
    rest := s;
    if s != "" && IsWordChar(s[0]) {
      rest := WordSplits(s[1..]);
      assert s == [s[0]] + s[1..];
    }
  }

  /** A line of the form of a directive is the directive of its word, ... */
  lemma DirectiveIsWord(line: string, before: string, between: string, word: string, rest: string)
    requires IsDirective(line, before, between, word, rest)
    ensures DirectiveOf(line) == DirectiveWord(word)
  {
    assert word[0] in word;
    var after := between + word + rest;
    assert line == before + (['#'] + after) && (['#'] + after)[1..] == after;
    TrimSpace(before, ['#'] + after);
    assert after == between + (word + rest);
    TrimSpace(between, word + rest);
    WordIs(word, rest);
  }

  /** ... of which there are six, ... */
  lemma DirectiveWords(line: string, before: string, between: string, word: string, rest: string)
    requires IsDirective(line, before, between, word, rest)
    ensures DirectiveOf(line) == (if word in ["if", "ifdef", "ifndef"] then DirIf
                                  else if word in ["else", "elif"] then DirElse
                                  else if word == "endif" then DirEndif
                                  else Ordinary)
  {
    DirectiveIsWord(line, before, between, word, rest);
  }

  lemma IfdefLine()
    ensures DirectiveOf("#ifdef SWIG") == DirIf
  {
    DirectiveWords("#ifdef SWIG", "", "", "ifdef", " SWIG");
  }

  lemma ElseLine()
    ensures DirectiveOf("#else") == DirElse
  {
    DirectiveWords("#else", "", "", "else", "");
  }

  lemma EndifLine()
    ensures DirectiveOf("  # endif") == DirEndif
  {
    DirectiveWords("  # endif", "  ", " ", "endif", "");
  }

  /** ... and only lines of that form are directives. */
  lemma DirectiveHasForm(line: string) returns (before: string, between: string, rest: string)
    requires !DirectiveOf(line).Ordinary?
    ensures IsDirective(line, before, between, Word(TrimLeft(TrimLeft(line)[1..])), rest)
  {
    before := TrimSplits(line);
    var s := TrimLeft(line);
    between := TrimSplits(s[1..]);
    var t := TrimLeft(s[1..]);
    rest := WordSplits(t);
    JoinPieces(line, before, s, between, t, Word(t), rest);
  }

  lemma JoinPieces(line: string, before: string, s: string, between: string, t: string, word: string, rest: string)
    requires s != "" && line == before + s && s[1..] == between + t && t == word + rest
    ensures line == before + [s[0]] + between + word + rest
  {
    assert s == [s[0]] + s[1..];
  }

  /** Checkpoints of the stack, one for every open if. */
  datatype PreprocessorInfo<T> = PreprocessorInfo(stackBeforeIf: seq<T>, stackBeforeElse: seq<T>, seenElse: bool)

  datatype State<T> = State(stack: seq<T>, ppStack: seq<PreprocessorInfo<T>>)

  /** A line: what it is, and what it does to the stack when it is ordinary. */
  datatype Line<!T> = Line(directive: Directive, update: seq<T> -> seq<T>)

  function Last<T>(s: seq<T>): T
    requires s != []
  {
    s[|s| - 1]
  }

  function Front<T>(s: seq<T>): seq<T>
    requires s != []
  {
    s[..|s| - 1]
  }

  function Directed<T>(s: State<T>, d: Directive): State<T> {
    match d
    case DirIf => State(s.stack, s.ppStack + [PreprocessorInfo(s.stack, [], false)])
    case DirElse =>
      if s.ppStack == [] then s else
      var top := Last(s.ppStack);
      State(top.stackBeforeIf,
            Front(s.ppStack) + [if top.seenElse then top else PreprocessorInfo(top.stackBeforeIf, s.stack, true)])
    case DirEndif =>
      if s.ppStack == [] then s else
      var top := Last(s.ppStack);
      State(if top.seenElse then top.stackBeforeElse else s.stack, Front(s.ppStack))
    case Ordinary => s
  }

  function Step<T>(s: State<T>, line: Line<T>): State<T> {
    if line.directive.Ordinary? then State(line.update(s.stack), s.ppStack) else Directed(s, line.directive)
  }

  function Run<T>(s: State<T>, lines: seq<Line<T>>): State<T> {
    if lines == [] then s else Step(Run(s, Front(lines)), Last(lines))
  }

  class NestingState<T> {
    var stack: seq<T>
    var ppStack: seq<PreprocessorInfo<T>>

    constructor ()
      ensures Abstract() == State([], [])
    {
      stack, ppStack := [], [];
    }

    function Abstract(): State<T>
      reads this
    {
      State(stack, ppStack)
    }

    method UpdatePreprocessor(line: string)
      modifies this
      ensures Abstract() == Directed(old(Abstract()), DirectiveOf(line))
    {
      match DirectiveOf(line) {
        case DirIf =>
          ppStack := ppStack + [PreprocessorInfo(stack, [], false)];
        case DirElse =>
          if ppStack != [] {
            if !Last(ppStack).seenElse {
              var top := Last(ppStack).(seenElse := true);
              top := top.(stackBeforeElse := stack);
              ppStack := Front(ppStack) + [top];
            }
            stack := Last(ppStack).stackBeforeIf;
          }
        case DirEndif =>
          if ppStack != [] {
            if Last(ppStack).seenElse {
              stack := Last(ppStack).stackBeforeElse;
            }
            ppStack := Front(ppStack);
          }
        case Ordinary =>
      }
    }

    /** One line: its directive, or the rest of the update. */
    method Update(line: string, rest: string -> seq<T> -> seq<T>)
      modifies this
      ensures Abstract() == Step(old(Abstract()), AsLine(line, rest))
    {
      UpdatePreprocessor(line);
      if DirectiveOf(line).Ordinary? {
        stack := rest(line)(stack);
      }
    }

    method ProcessLines(lines: seq<string>, rest: string -> seq<T> -> seq<T>)
      modifies this
      ensures Abstract() == Run(old(Abstract()), AsLines(lines, rest))
    {
      for k := 0 to |lines|
        invariant Abstract() == Run(old(Abstract()), AsLines(lines[..k], rest))
      {
        assert Front(AsLines(lines[..k + 1], rest)) == AsLines(lines[..k], rest);
        Update(lines[k], rest);
      }
      assert lines[..|lines|] == lines;
    }
  }

  function AsLine<T>(line: string, rest: string -> seq<T> -> seq<T>): Line<T> {
    Line(DirectiveOf(line), rest(line))
  }

  function AsLines<T>(lines: seq<string>, rest: string -> seq<T> -> seq<T>): (r: seq<Line<T>>)
    ensures |r| == |lines| && forall k | 0 <= k < |lines| :: r[k] == AsLine(lines[k], rest)
  {
    seq(|lines|, k requires 0 <= k < |lines| => AsLine(lines[k], rest))
  }

  // The simple machine: no stack is ever saved.

  /** For every open if, whether an else has been seen; lines count while none has. */
  datatype Simple<T> = Simple(stack: seq<T>, open: seq<bool>)

  predicate Skipping(open: seq<bool>) {
    true in open
  }

  function NextOpen(open: seq<bool>, d: Directive): seq<bool> {
    match d
    case DirIf => open + [false]
    case DirElse => if open == [] then open else Front(open) + [true]
    case DirEndif => if open == [] then open else Front(open)
    case Ordinary => open
  }

  function SimpleStep<T>(s: Simple<T>, line: Line<T>): Simple<T> {
    Simple(if line.directive.Ordinary? && !Skipping(s.open) then line.update(s.stack) else s.stack,
           NextOpen(s.open, line.directive))
  }

  function SimpleRun<T>(s: Simple<T>, lines: seq<Line<T>>): Simple<T> {
    if lines == [] then s else SimpleStep(SimpleRun(s, Front(lines)), Last(lines))
  }

  /** The stack that will be there again when all branches that are not taken have ended: the one saved at the
      first else among the open ifs. */
  function Live<T>(stack: seq<T>, pp: seq<PreprocessorInfo<T>>): seq<T> {
    if pp == [] then stack
    else if pp[0].seenElse then pp[0].stackBeforeElse
    else Live(stack, pp[1..])
  }

  function Seen<T>(pp: seq<PreprocessorInfo<T>>): (r: seq<bool>)
    ensures |r| == |pp| && forall k | 0 <= k < |pp| :: r[k] == pp[k].seenElse
  {
    seq(|pp|, k requires 0 <= k < |pp| => pp[k].seenElse)
  }

  function Simplified<T>(s: State<T>): Simple<T> {
    Simple(Live(s.stack, s.ppStack), Seen(s.ppStack))
  }

  lemma {:induction false} LiveOf<T>(stack: seq<T>, pp: seq<PreprocessorInfo<T>>)
    ensures !Skipping(Seen(pp)) ==> Live(stack, pp) == stack
    ensures Skipping(Seen(pp)) ==> forall other: seq<T> :: Live(other, pp) == Live(stack, pp)
  {
    if pp != [] {
      LiveOf(stack, pp[1..]);
      assert Seen(pp) == [pp[0].seenElse] + Seen(pp[1..]);
    }
  }

  lemma {:induction false} LiveSnoc<T>(stack: seq<T>, front: seq<PreprocessorInfo<T>>, top: PreprocessorInfo<T>)
    ensures Live(stack, front + [top]) == Live(if top.seenElse then top.stackBeforeElse else stack, front)
  {
    if front == [] {
      assert Live(stack, [top][1..]) == stack;
    } else {
      assert (front + [top])[1..] == front[1..] + [top];
      LiveSnoc(stack, front[1..], top);
    }
  }

  /** One line: saving and restoring stacks is skipping the lines of branches that are not taken. */
  lemma StepIsSimple<T>(s: State<T>, line: Line<T>)
    ensures Simplified(Step(s, line)) == SimpleStep(Simplified(s), line)
  {
    var pp := s.ppStack;
    LiveOf(s.stack, pp);
    if line.directive.Ordinary? {
      LiveOf(line.update(s.stack), pp);
    } else {
      if pp != [] {
        assert pp == Front(pp) + [Last(pp)];
        LiveSnoc(s.stack, Front(pp), Last(pp));
        LiveOf(s.stack, Front(pp));
      }
      DirectedIsSimple(s, line.directive);
    }
  }

  lemma DirectedIsSimple<T>(s: State<T>, d: Directive)
    ensures Live(Directed(s, d).stack, Directed(s, d).ppStack) == Live(s.stack, s.ppStack)
    ensures Seen(Directed(s, d).ppStack) == NextOpen(Seen(s.ppStack), d)
  {
    var pp, next := s.ppStack, Directed(s, d);
    if d.DirIf? {
      LiveSnoc(s.stack, pp, Last(next.ppStack));
    } else if pp != [] {
      assert pp == Front(pp) + [Last(pp)];
      LiveSnoc(s.stack, Front(pp), Last(pp));
      if d.DirElse? {
        LiveSnoc(next.stack, Front(pp), Last(next.ppStack));
      }
    }
  }

  /** On every text, the stack machine agrees with the simple one. */
  lemma {:induction false} RunIsSimple<T>(s: State<T>, lines: seq<Line<T>>)
    ensures Simplified(Run(s, lines)) == SimpleRun(Simplified(s), lines)
  {
    if lines != [] {
      RunIsSimple(s, Front(lines));
      StepIsSimple(Run(s, Front(lines)), Last(lines));
    }
  }

  // The text without the branches that are not taken.

  function OpenAfter<T>(open: seq<bool>, lines: seq<Line<T>>): seq<bool> {
    if lines == [] then open else NextOpen(OpenAfter(open, Front(lines)), Last(lines).directive)
  }

  /** A line is kept unless it is an else that belongs to an if, or lies between such an else and its endif. */
  predicate IsKept(open: seq<bool>, d: Directive) {
    match d
    case DirElse => open == []
    case DirEndif => open == [] || !Skipping(Front(open))
    case _ => !Skipping(open)
  }

  function Kept<T>(open: seq<bool>, lines: seq<Line<T>>): seq<Line<T>> {
    if lines == [] then [] else
    Kept(open, Front(lines)) + if IsKept(OpenAfter(open, Front(lines)), Last(lines).directive) then [Last(lines)] else []
  }

  /** How many ifs are open around a line in the text that is kept. */
  function Depth(open: seq<bool>): nat {
    if open == [] then 0 else if open[0] then 1 else 1 + Depth(open[1..])
  }

  lemma {:induction false} DepthSnoc(front: seq<bool>, b: bool)
    ensures Depth(front + [b]) == if Skipping(front) then Depth(front) else |front| + 1
    ensures !Skipping(front) ==> Depth(front) == |front|
    ensures Skipping(front + [b]) == (Skipping(front) || b)
  {
    var all := front + [b];
    assert b in all && forall x | x in front :: x in all;
    if front != [] {
      assert all[1..] == front[1..] + [b];
      assert front == [front[0]] + front[1..];
      DepthSnoc(front[1..], b);
    }
  }

  function Falses(n: nat): (r: seq<bool>)
    ensures |r| == n && !Skipping(r)
  {
    seq(n, k => false)
  }

  /** One line: kept, it keeps the two texts together; left out, it does not count. */
  lemma KeptStep<T>(s: Simple<T>, line: Line<T>)
    ensures var small := Simple(s.stack, Falses(Depth(s.open)));
      var next := SimpleStep(s, line);
      (if IsKept(s.open, line.directive) then SimpleStep(small, line) else small)
        == Simple(next.stack, Falses(Depth(next.open)))
  {
    KeptOpen(s.open, line.directive);
    assert !Skipping(Falses(Depth(s.open)));
  }

  /** What it does to the open ifs. */
  lemma KeptOpen(open: seq<bool>, d: Directive)
    ensures (if IsKept(open, d) then NextOpen(Falses(Depth(open)), d) else Falses(Depth(open)))
         == Falses(Depth(NextOpen(open, d)))
  {
    DepthSnoc(open, false);
    OneMoreFalse(Depth(open));
    if open != [] && (d.DirElse? || d.DirEndif?) {
      LastOpen(Front(open), Last(open), d);
      assert open == Front(open) + [Last(open)];
    }
  }

  lemma LastOpen(front: seq<bool>, last: bool, d: Directive)
    requires d.DirElse? || d.DirEndif?
    ensures var open := front + [last];
      (if IsKept(open, d) then NextOpen(Falses(Depth(open)), d) else Falses(Depth(open)))
        == Falses(Depth(NextOpen(open, d)))
  {
    var open := front + [last];
    assert Front(open) == front;
    DepthSnoc(front, last);
    DepthSnoc(front, true);
    OneMoreFalse(|front|);
  }

  lemma OneMoreFalse(n: nat)
    ensures Falses(n) + [false] == Falses(n + 1) && Front(Falses(n + 1)) == Falses(n)
  {
  }

  lemma {:induction false} KeptIsSame<T>(stack: seq<T>, lines: seq<Line<T>>)
    ensures var s := SimpleRun(Simple(stack, []), lines);
      && s.open == OpenAfter([], lines)
      && SimpleRun(Simple(stack, []), Kept([], lines)) == Simple(s.stack, Falses(Depth(s.open)))
  {
    if lines == [] {
      assert Falses(0) == [];
    } else {
      KeptIsSame(stack, Front(lines));
      var s, kept := SimpleRun(Simple(stack, []), Front(lines)), Kept([], Front(lines));
      KeptStep(s, Last(lines));
      assert Front(kept + [Last(lines)]) == kept && kept + [] == kept;
    }
  }

  /** On every text: leaving out the branches that are not taken leaves the stack that is live, ... */
  lemma KeptTextIsLive<T>(stack: seq<T>, lines: seq<Line<T>>)
    ensures var whole := Run(State(stack, []), lines);
      && Run(State(stack, []), Kept([], lines)).stack == Live(whole.stack, whole.ppStack)
      && (!Skipping(OpenAfter([], lines)) ==> Run(State(stack, []), Kept([], lines)).stack == whole.stack)
  {
    var start: State<T> := State(stack, []);
    var whole, part := Run(start, lines), Run(start, Kept([], lines));
    assert Seen<T>([]) == [];
    RunIsSimple(start, lines);
    RunIsSimple(start, Kept([], lines));
    KeptIsSame(stack, lines);
    LiveOf(part.stack, part.ppStack);
    LiveOf(whole.stack, whole.ppStack);
  }

  // Well-nested text.

  /** A text in which every else and endif has its if. */
  datatype Text<!T> =
    | Nothing
    | Plain(update: seq<T> -> seq<T>, rest: Text<T>)
    | Conditional(body: Text<T>, elses: Elses<T>, rest: Text<T>)

  datatype Elses<!T> = NoElse | Else(body: Text<T>, more: Elses<T>)

  function Unchanged<T>(): seq<T> -> seq<T> {
    s => s
  }

  function DirectiveLine<T>(d: Directive): Line<T> {
    Line(d, Unchanged())
  }

  function Lines<T>(t: Text<T>): seq<Line<T>> {
    match t
    case Nothing => []
    case Plain(update, rest) => [Line(Ordinary, update)] + Lines(rest)
    case Conditional(body, elses, rest) =>
      [DirectiveLine(DirIf)] + Lines(body) + ElseLines(elses) + [DirectiveLine(DirEndif)] + Lines(rest)
  }

  function ElseLines<T>(e: Elses<T>): seq<Line<T>> {
    match e
    case NoElse => []
    case Else(body, more) => [DirectiveLine(DirElse)] + Lines(body) + ElseLines(more)
  }

  /** The text with every else branch deleted. */
  function WithoutElse<T>(t: Text<T>): Text<T> {
    match t
    case Nothing => Nothing
    case Plain(update, rest) => Plain(update, WithoutElse(rest))
    case Conditional(body, _, rest) => Conditional(WithoutElse(body), NoElse, WithoutElse(rest))
  }

  /** What a text does to the stack: its first branches only. */
  function Effect<T>(t: Text<T>, stack: seq<T>): seq<T> {
    match t
    case Nothing => stack
    case Plain(update, rest) => Effect(rest, update(stack))
    case Conditional(body, _, rest) => Effect(rest, Effect(body, stack))
  }

  lemma {:induction false} RunConcat<T>(s: State<T>, a: seq<Line<T>>, b: seq<Line<T>>)
    ensures Run(s, a + b) == Run(Run(s, a), b)
  {
    if b == [] {
      assert a + b == a;
    } else {
      assert Front(a + b) == a + Front(b) && Last(a + b) == Last(b);
      RunConcat(s, a, Front(b));
    }
  }

  lemma RunOne<T>(s: State<T>, line: Line<T>)
    ensures Run(s, [line]) == Step(s, line)
  {
  }

  /** A well-nested text has the effect of its first branches, wherever it stands, and leaves the checkpoints as they
      were. */
  lemma {:induction false} WellNestedRun<T>(t: Text<T>, stack: seq<T>, pp: seq<PreprocessorInfo<T>>)
    ensures Run(State(stack, pp), Lines(t)) == State(Effect(t, stack), pp)
    decreases t
  {
    match t
    case Nothing =>
    case Plain(update, rest) =>
      RunConcat(State(stack, pp), [Line(Ordinary, update)], Lines(rest));
      RunOne(State(stack, pp), Line(Ordinary, update));
      WellNestedRun(rest, update(stack), pp);
    case Conditional(body, elses, rest) =>
      var inIf := pp + [PreprocessorInfo(stack, [], false)];
      var first := Effect(body, stack);
      RunPieces(State(stack, pp), Lines(body), ElseLines(elses), Lines(rest));
      WellNestedRun(body, stack, inIf);
      ElsesRun(elses, first, pp, PreprocessorInfo(stack, [], false));
      WellNestedRun(rest, first, pp);
  }

  lemma RunPieces<T>(s: State<T>, body: seq<Line<T>>, elses: seq<Line<T>>, rest: seq<Line<T>>)
    ensures Run(s, [DirectiveLine(DirIf)] + body + elses + [DirectiveLine(DirEndif)] + rest)
         == Run(Directed(Run(Run(Directed(s, DirIf), body), elses), DirEndif), rest)
  {
    var i, e := DirectiveLine<T>(DirIf), DirectiveLine<T>(DirEndif);
    RunConcat(s, [i] + body + elses + [e], rest);
    RunConcat(s, [i] + body + elses, [e]);
    RunConcat(s, [i] + body, elses);
    RunConcat(s, [i], body);
    RunOne(s, i);
    RunOne(Run(s, [i] + body + elses), e);
  }

  /** The else branches of an if, up to its endif: they bring back the stack before the first of them. */
  lemma {:induction false} ElsesRun<T>(e: Elses<T>, stack: seq<T>, pp: seq<PreprocessorInfo<T>>, top: PreprocessorInfo<T>)
    ensures Directed(Run(State(stack, pp + [top]), ElseLines(e)), DirEndif)
         == State(if top.seenElse then top.stackBeforeElse else stack, pp)
    decreases e
  {
    var s := State(stack, pp + [top]);
    assert Front(pp + [top]) == pp;
    if e.Else? {
      var line := DirectiveLine<T>(DirElse);
      var next := if top.seenElse then top else PreprocessorInfo(top.stackBeforeIf, stack, true);
      RunConcat(s, [line] + Lines(e.body), ElseLines(e.more));
      RunConcat(s, [line], Lines(e.body));
      RunOne(s, line);
      WellNestedRun(e.body, top.stackBeforeIf, pp + [next]);
      ElsesRun(e.more, Effect(e.body, top.stackBeforeIf), pp, next);
    }
  }

  /** The else branches of an if keep the stack that it saved. */
  lemma {:induction false} ElsesKeepSaved<T>(e: Elses<T>, stack: seq<T>, pp: seq<PreprocessorInfo<T>>,
                                             top: PreprocessorInfo<T>)
    returns (end: State<T>)
    ensures end == Run(State(stack, pp + [top]), ElseLines(e))
    ensures |end.ppStack| == |pp| + 1 && end.ppStack[..|pp|] == pp && Last(end.ppStack).stackBeforeIf == top.stackBeforeIf
  {
    var s := State(stack, pp + [top]);
    end := s;
    if e.Else? {
      var line := DirectiveLine<T>(DirElse);
      var next := if top.seenElse then top else PreprocessorInfo(top.stackBeforeIf, stack, true);
      RunConcat(s, [line] + Lines(e.body), ElseLines(e.more));
      RunConcat(s, [line], Lines(e.body));
      RunOne(s, line);
      WellNestedRun(e.body, top.stackBeforeIf, pp + [next]);
      end := ElsesKeepSaved(e.more, Effect(e.body, top.stackBeforeIf), pp, next);
    }
  }

  /** Every else branch is read with the stack that there was before the if. */
  lemma ElseStartsBeforeIf<T>(body: Text<T>, elses: Elses<T>, branch: Text<T>, stack: seq<T>, pp: seq<PreprocessorInfo<T>>)
    ensures Run(State(stack, pp), [DirectiveLine(DirIf)] + Lines(body) + ElseLines(elses) + [DirectiveLine(DirElse)]
                                  + Lines(branch)).stack == Effect(branch, stack)
  {
    var s := State(stack, pp);
    var start, line := [DirectiveLine<T>(DirIf)], [DirectiveLine<T>(DirElse)];
    var top: PreprocessorInfo<T> := PreprocessorInfo(stack, [], false);
    RunConcat(s, start + Lines(body) + ElseLines(elses) + line, Lines(branch));
    RunConcat(s, start + Lines(body) + ElseLines(elses), line);
    RunConcat(s, start + Lines(body), ElseLines(elses));
    RunConcat(s, start, Lines(body));
    RunOne(s, start[0]);
    WellNestedRun(body, stack, pp + [top]);
    var end := ElsesKeepSaved(elses, Effect(body, stack), pp, top);
    RunOne(end, line[0]);
    var after := Directed(end, DirElse);
    WellNestedRun(branch, after.stack, after.ppStack);
  }

  /** In a file: after `#ifdef SWIG`, any ordinary line and `#else`, the stack is what it was. */
  lemma ElseInFile<T>(s: State<T>, line: string, rest: string -> seq<T> -> seq<T>)
    requires DirectiveOf(line).Ordinary?
    ensures Run(s, AsLines(["#ifdef SWIG", line, "#else"], rest)).stack == s.stack
  {
    IfdefLine();
    ElseLine();
    var lines := AsLines(["#ifdef SWIG", line, "#else"], rest);
    var a := Step(s, lines[0]);
    var b := Step(a, lines[1]);
    assert Front(lines) == lines[..2] && Front(Front(lines)) == lines[..1] && Front(lines[..1]) == [];
    assert Run(s, lines[..1]) == a && Run(s, lines[..2]) == b;
    assert Last(b.ppStack).stackBeforeIf == s.stack;
  }

  lemma {:induction false} EffectWithoutElse<T>(t: Text<T>, stack: seq<T>)
    ensures Effect(WithoutElse(t), stack) == Effect(t, stack)
    decreases t
  {
    match t
    case Nothing =>
    case Plain(update, rest) => EffectWithoutElse(rest, update(stack));
    case Conditional(body, _, rest) =>
      EffectWithoutElse(body, stack);
      EffectWithoutElse(rest, Effect(body, stack));
  }

  /** ... and on well-nested text, from any state, deleting the else branches leaves the same state, with the
      checkpoints as they were. */
  lemma ElsesDoNotCount<T>(t: Text<T>, s: State<T>)
    ensures Run(s, Lines(t)) == Run(s, Lines(WithoutElse(t)))
    ensures Run(s, Lines(t)).ppStack == s.ppStack
  {
    WellNestedRun(t, s.stack, s.ppStack);
    WellNestedRun(WithoutElse(t), s.stack, s.ppStack);
    EffectWithoutElse(t, s.stack);
  }
}
