/**
 The matching of brackets over the lines of a file: from one of `(`, `[` and `{` it is the matching of these on the text
 of all lines, whatever is guessed about `<` and `>`, and the two directions undo each other.
 */
module BracketLines {
  import opened LineText
  import opened BracketScan
  import opened BracketMatching

  // The text of the lines.

  function Before(lines: seq<string>, k: nat): string
    requires k <= |lines|
  {
    if k == 0 then "" else Before(lines, k - 1) + lines[k - 1]
  }

  function From(lines: seq<string>, k: nat): string
    requires k <= |lines|
    decreases |lines| - k
  {
    if k == |lines| then "" else lines[k] + From(lines, k + 1)
  }

  function Text(lines: seq<string>): string {
    From(lines, 0)
  }

  lemma {:induction false} TextSplits(lines: seq<string>, k: nat)
    requires k <= |lines|
    ensures Text(lines) == Before(lines, k) + From(lines, k)
  {
    if k > 0 {
      TextSplits(lines, k - 1);
      assert Before(lines, k - 1) + (lines[k - 1] + From(lines, k)) == Before(lines, k) + From(lines, k);
    }
  }

  function Head(lines: seq<string>, linenum: nat, pos: nat): string
    requires linenum < |lines| && pos <= |lines[linenum]|
  {
    Before(lines, linenum) + lines[linenum][..pos]
  }

  function Tail(lines: seq<string>, linenum: nat, pos: nat): string
    requires linenum < |lines| && pos <= |lines[linenum]|
  {
    lines[linenum][pos..] + From(lines, linenum + 1)
  }

  lemma HeadAndTailAreText(lines: seq<string>, linenum: nat, pos: nat)
    requires linenum < |lines| && pos <= |lines[linenum]|
    ensures Text(lines) == Head(lines, linenum, pos) + Tail(lines, linenum, pos)
  {
    TextSplits(lines, linenum);
    var line := lines[linenum];
    assert line == line[..pos] + line[pos..];
    assert Before(lines, linenum) + (line[..pos] + line[pos..] + From(lines, linenum + 1))
        == Head(lines, linenum, pos) + Tail(lines, linenum, pos);
  }

  /** Where a place of a line is in the text. */
  function Index(lines: seq<string>, linenum: nat, pos: nat): nat
    requires linenum < |lines|
  {
    |Before(lines, linenum)| + pos
  }

  lemma {:induction false} LaterLine(lines: seq<string>, k: nat, m: nat)
    requires k < m <= |lines|
    ensures |Before(lines, m)| >= |Before(lines, k)| + |lines[k]|
  {
    if k + 1 < m {
      LaterLine(lines, k, m - 1);
    }
  }

  /** Every character of the text is at one place. */
  lemma IndexIsUnique(lines: seq<string>, l: nat, p: nat, m: nat, q: nat)
    requires l < |lines| && p < |lines[l]| && m < |lines| && q < |lines[m]|
    requires Index(lines, l, p) == Index(lines, m, q)
    ensures l == m && p == q
  {
    if l < m {
      LaterLine(lines, l, m);
    } else if m < l {
      LaterLine(lines, m, l);
    }
  }

  // Forward.

  /** The stack without the template brackets on it. */
  function Bare(stack: seq<char>, template: char): (r: seq<char>)
    ensures forall c :: c in r <==> c in stack && c != template
  {
    if stack == [] then []
    else Bare(Pop(stack), template) + if TopIs(stack, template) then [] else [stack[|stack| - 1]]
  }

  /** Brackets, and templates above the first of them. */
  predicate Mixed(stack: seq<char>) {
    stack != [] && IsOpening(stack[0]) && forall c | c in stack :: IsOpening(c) || c == '<'
  }

  lemma BarePush(stack: seq<char>, c: char, template: char)
    ensures Bare(stack + [c], template) == Bare(stack, template) + if c == template then [] else [c]
  {
    assert Pop(stack + [c]) == stack;
  }

  lemma {:induction false} BareFirst(stack: seq<char>, template: char)
    requires stack != [] && stack[0] != template
    ensures Bare(stack, template) != [] && Bare(stack, template)[0] == stack[0]
  {
    if |stack| > 1 {
      BareFirst(Pop(stack), template);
    }
  }

  lemma BareTop(stack: seq<char>, template: char)
    requires stack != [] && stack[0] != template && stack[|stack| - 1] != template
    ensures var bare := Bare(stack, template);
      && bare != [] && bare[|bare| - 1] == stack[|stack| - 1] && (|bare| == 1 <==> |stack| == 1)
      && Pop(bare) == Bare(Pop(stack), template)
  {
    if |stack| > 1 {
      BareFirst(Pop(stack), template);
    }
  }

  lemma {:induction false} DroppedIsBare(stack: seq<char>, template: char)
    requires stack != [] && stack[0] != template
    ensures var rest := Dropped(stack, template);
      && rest != [] && rest[0] == stack[0] && rest[|rest| - 1] != template && rest <= stack
      && Bare(rest, template) == Bare(stack, template)
  {
    if TopIs(stack, template) {
      DroppedIsBare(Pop(stack), template);
    }
  }

  /** One character: what it does to the stack without templates. */
  ghost predicate StepsBare(c: char, i: nat, bare: seq<char>, r: LineScan) {
    match r
    case StillOpen(next) =>
      && (IsClosing(c) ==> TopIs(bare, Partner(c)) && |bare| > 1)
      && Mixed(next) && Bare(next, '<') == (if IsOpening(c) then bare + [c] else if IsClosing(c) then Pop(bare) else bare)
    case Found(end) => end == i + 1 && IsClosing(c) && TopIs(bare, Partner(c)) && |bare| == 1
    case GivenUp => IsClosing(c) && !TopIs(bare, Partner(c))
  }

  lemma TopTemplate(stack: seq<char>)
    requires Mixed(stack) && TopIs(stack, '<')
    ensures |stack| > 1 && Mixed(Pop(stack)) && Bare(Pop(stack), '<') == Bare(stack, '<')
  {
  }

  lemma EndStepIsBare(line: string, i: nat, stack: seq<char>)
    requires i < |line| && Mixed(stack)
    ensures Bare(stack, '<') != [] && StepsBare(line[i], i, Bare(stack, '<'), EndStep(line, i, stack))
  {
    var c := line[i];
    BareFirst(stack, '<');
    if IsOpening(c) {
      BarePush(stack, c, '<');
    } else if IsClosing(c) {
      EndStepCloses(line, i, stack);
    } else if c == ';' {
      DroppedTop(stack);
    } else if c == '<' || c == '>' {
      EndStepOfTemplate(line, i, stack);
    }
  }

  lemma EndStepCloses(line: string, i: nat, stack: seq<char>)
    requires i < |line| && Mixed(stack) && IsClosing(line[i])
    ensures StepsBare(line[i], i, Bare(stack, '<'), EndStep(line, i, stack))
  {
    MatchedForward(line[i], i, stack);
    assert EndStep(line, i, stack) == Matched(Partner(line[i]), Dropped(stack, '<'), i + 1);
  }

  lemma MatchedForward(c: char, i: nat, stack: seq<char>)
    requires Mixed(stack) && IsClosing(c)
    ensures StepsBare(c, i, Bare(stack, '<'), Matched(Partner(c), Dropped(stack, '<'), i + 1))
  {
    DroppedTop(stack);
  }

  lemma EndStepOfTemplate(line: string, i: nat, stack: seq<char>)
    requires i < |line| && Mixed(stack) && (line[i] == '<' || line[i] == '>')
    ensures StepsBare(line[i], i, Bare(stack, '<'), EndStep(line, i, stack))
  {
    var r := EndStep(line, i, stack);
    BarePush(stack, '<', '<');
    if TopIs(stack, '<') {
      TopTemplate(stack);
      assert r == StillOpen(stack) || r == StillOpen(stack + ['<']) || r == StillOpen(Pop(stack));
    } else {
      assert r == StillOpen(stack) || r == StillOpen(stack + ['<']);
    }
  }

  /** Below the templates on top lies the top of the stack without templates. */
  lemma DroppedTop(stack: seq<char>)
    requires Mixed(stack)
    ensures var rest, bare := Dropped(stack, '<'), Bare(stack, '<');
      && Mixed(rest) && bare != [] && Bare(rest, '<') == bare
      && rest[|rest| - 1] == bare[|bare| - 1] && (|rest| == 1 <==> |bare| == 1)
      && Bare(Pop(rest), '<') == Pop(bare) && (|rest| > 1 ==> Mixed(Pop(rest)))
  {
    DroppedIsBare(stack, '<');
    BareTop(Dropped(stack, '<'), '<');
  }

  lemma ScanFollows(text: string, i: nat, bare: seq<char>, r: LineScan)
    requires text != "" && bare != [] && StepsBare(text[0], i, bare, r)
    ensures r.StillOpen? ==>
              Bare(r.stack, '<') != [] && Scan(text, bare) == Later(Scan(text[1..], Bare(r.stack, '<')), 1)
    ensures r.Found? ==> r == Found(i + 1) && Scan(text, bare) == Found(1)
    ensures r.GivenUp? ==> Scan(text, bare) == GivenUp
  {
    if r.StillOpen? {
      BareFirst(r.stack, '<');
    }
  }

  /** A scan of a line, and that of its brackets only. */
  ghost predicate IsBareScan(r: LineScan, bare: LineScan) {
    match r
    case StillOpen(stack) => Mixed(stack) && bare == StillOpen(Bare(stack, '<'))
    case _ => r == bare
  }

  /** The templates make no difference to the scan of a line. */
  lemma {:induction false} EndFromIsScan(line: string, i: nat, stack: seq<char>)
    requires i <= |line| && Mixed(stack)
    ensures Bare(stack, '<') != [] && IsBareScan(EndFrom(line, i, stack), Later(Scan(line[i..], Bare(stack, '<')), i))
    decreases |line| - i
  {
    BareFirst(stack, '<');
    if i < |line| {
      EndStepIsBare(line, i, stack);
      assert line[i..][1..] == line[i + 1..];
      var r := EndStep(line, i, stack);
      ScanFollows(line[i..], i, Bare(stack, '<'), r);
      if r.StillOpen? {
        EndFromIsScan(line, i + 1, r.stack);
      }
    }
  }

  /** The place that a scan of the text finds, from index `start` on. */
  ghost predicate IsEnd(lines: seq<string>, start: nat, r: LineScan, place: Place) {
    match place
    case Place(l, e) => l < |lines| && 0 < e <= |lines[l]| && start < Index(lines, l, e)
                        && r == Found(Index(lines, l, e) - start)
    case Nowhere => !r.Found?
  }

  /** Line by line is one scan of the text. */
  lemma {:induction false} CloseFromIsScan(lines: seq<string>, l: nat, i: nat, stack: seq<char>)
    requires l < |lines| && i <= |lines[l]| && Mixed(stack)
    ensures Bare(stack, '<') != []
    ensures IsEnd(lines, Index(lines, l, i), Scan(Tail(lines, l, i), Bare(stack, '<')), CloseFrom(lines, l, i, stack))
    decreases |lines| - l
  {
    var part, rest := lines[l][i..], From(lines, l + 1);
    EndFromIsScan(lines[l], i, stack);
    ScanConcat(part, rest, Bare(stack, '<'));
    ScanStaysInside(part, Bare(stack, '<'));
    var r := EndFrom(lines[l], i, stack);
    if r.StillOpen? {
      if l + 1 < |lines| {
        CloseFromIsScan(lines, l + 1, 0, r.stack);
        assert Tail(lines, l + 1, 0) == rest;
      } else {
        assert rest == "";
      }
    }
  }

  lemma ClosingIsScan(lines: seq<string>, l: nat, p: nat, m: nat, e: nat)
    requires l < |lines| && p < |lines[l]| && IsOpening(lines[l][p])
    ensures Closing(lines, l, p) == Place(m, e) <==>
              && m < |lines| && 0 < e <= |lines[m]| && Index(lines, l, p + 1) < Index(lines, m, e)
              && Scan(Tail(lines, l, p + 1), [lines[l][p]]) == Found(Index(lines, m, e) - Index(lines, l, p + 1))
  {
    FirstBracket(lines, l, p);
    assert Bare([lines[l][p]], '<') == [lines[l][p]];
    CloseFromIsScan(lines, l, p + 1, [lines[l][p]]);
    var found := Closing(lines, l, p);
    if found.Place? && m < |lines| && 0 < e <= |lines[m]| && Index(lines, m, e) == Index(lines, found.linenum, found.pos) {
      IndexIsUnique(lines, m, e - 1, found.linenum, found.pos - 1);
    }
  }

  /** From an opening bracket, the search finds exactly the place where the balanced word after it is closed. */
  lemma ClosesBalancedWord(lines: seq<string>, l: nat, p: nat, m: nat, e: nat)
    requires l < |lines| && p < |lines[l]| && IsOpening(lines[l][p])
    ensures Closing(lines, l, p) == Place(m, e) <==>
              && m < |lines| && 0 < e <= |lines[m]| && Index(lines, l, p + 1) < Index(lines, m, e)
              && ClosesAt(lines[l][p], Tail(lines, l, p + 1), Index(lines, m, e) - Index(lines, l, p + 1))
  {
    ClosingIsScan(lines, l, p, m, e);
    if m < |lines| && 0 < e <= |lines[m]| && Index(lines, l, p + 1) < Index(lines, m, e) {
      ScanFinds(lines[l][p], Tail(lines, l, p + 1), Index(lines, m, e) - Index(lines, l, p + 1));
    }
  }

  lemma FirstBracket(lines: seq<string>, l: nat, p: nat)
    requires l < |lines| && p < |lines[l]| && IsOpening(lines[l][p])
    ensures Closing(lines, l, p) == CloseFrom(lines, l, p + 1, [lines[l][p]])
  {
    assert [] + [lines[l][p]] == [lines[l][p]];
  }

  // Backward.

  /** Closing brackets, and templates above the first of them. */
  predicate MixedClosing(stack: seq<char>) {
    stack != [] && IsClosing(stack[0]) && forall c | c in stack :: IsClosing(c) || c == '>'
  }

  lemma {:induction false} BackConcat(a: string, b: string, stack: seq<char>)
    requires stack != []
    ensures Back(b, stack).StillOpen? ==> Back(b, stack).stack != []
    ensures Back(b, stack).Found? ==> Back(b, stack).pos < |b|
    ensures Back(b, stack).StillOpen? ==> Back(a + b, stack) == Back(a, Back(b, stack).stack)
    ensures !Back(b, stack).StillOpen? ==> Back(a + b, stack) == Later(Back(b, stack), |a|)
    decreases |b|
  {
    if b == "" {
      assert a + b == a;
    } else {
      var front, c := b[..|b| - 1], b[|b| - 1];
      assert (a + b)[|a + b| - 1] == c && (a + b)[..|a + b| - 1] == a + front;
      if IsClosing(c) {
        BackConcat(a, front, stack + [c]);
      } else if IsOpening(c) {
        if |stack| > 1 {
          BackConcat(a, front, Pop(stack));
        }
      } else {
        BackConcat(a, front, stack);
      }
    }
  }

  ghost predicate StepsBareBack(c: char, i: nat, bare: seq<char>, r: LineScan) {
    match r
    case StillOpen(next) =>
      && (IsOpening(c) ==> TopIs(bare, Partner(c)) && |bare| > 1)
      && MixedClosing(next)
      && Bare(next, '>') == (if IsClosing(c) then bare + [c] else if IsOpening(c) then Pop(bare) else bare)
    case Found(start) => start == i && IsOpening(c) && TopIs(bare, Partner(c)) && |bare| == 1
    case GivenUp => IsOpening(c) && !TopIs(bare, Partner(c))
  }

  lemma TopTemplateBack(stack: seq<char>)
    requires MixedClosing(stack) && TopIs(stack, '>')
    ensures |stack| > 1 && MixedClosing(Pop(stack)) && Bare(Pop(stack), '>') == Bare(stack, '>')
  {
  }

  lemma StartStepIsBare(line: string, i: nat, stack: seq<char>)
    requires i < |line| && MixedClosing(stack)
    ensures Bare(stack, '>') != [] && StepsBareBack(line[i], i, Bare(stack, '>'), StartStep(line, i, stack))
  {
    var c := line[i];
    BareFirst(stack, '>');
    if IsClosing(c) {
      BarePush(stack, c, '>');
    } else if IsOpening(c) {
      StartStepOpens(line, i, stack);
    } else if c == ';' {
      DroppedTopBack(stack);
    } else if c == '<' || c == '>' {
      StartStepOfTemplate(line, i, stack);
    }
  }

  lemma StartStepOpens(line: string, i: nat, stack: seq<char>)
    requires i < |line| && MixedClosing(stack) && IsOpening(line[i])
    ensures StepsBareBack(line[i], i, Bare(stack, '>'), StartStep(line, i, stack))
  {
    MatchedBack(line[i], i, stack);
    assert StartStep(line, i, stack) == Matched(Partner(line[i]), Dropped(stack, '>'), i);
  }

  lemma MatchedBack(c: char, i: nat, stack: seq<char>)
    requires MixedClosing(stack) && IsOpening(c)
    ensures StepsBareBack(c, i, Bare(stack, '>'), Matched(Partner(c), Dropped(stack, '>'), i))
  {
    DroppedTopBack(stack);
  }

  lemma StartStepOfTemplate(line: string, i: nat, stack: seq<char>)
    requires i < |line| && MixedClosing(stack) && (line[i] == '<' || line[i] == '>')
    ensures StepsBareBack(line[i], i, Bare(stack, '>'), StartStep(line, i, stack))
  {
    var r := StartStep(line, i, stack);
    BarePush(stack, '>', '>');
    if TopIs(stack, '>') {
      TopTemplateBack(stack);
      assert r == StillOpen(stack) || r == StillOpen(stack + ['>']) || r == StillOpen(Pop(stack));
    } else {
      assert r == StillOpen(stack) || r == StillOpen(stack + ['>']);
    }
  }

  lemma DroppedTopBack(stack: seq<char>)
    requires MixedClosing(stack)
    ensures var rest, bare := Dropped(stack, '>'), Bare(stack, '>');
      && MixedClosing(rest) && bare != [] && Bare(rest, '>') == bare
      && rest[|rest| - 1] == bare[|bare| - 1] && (|rest| == 1 <==> |bare| == 1)
      && Bare(Pop(rest), '>') == Pop(bare) && (|rest| > 1 ==> MixedClosing(Pop(rest)))
  {
    DroppedIsBare(stack, '>');
    BareTop(Dropped(stack, '>'), '>');
  }

  /** The character that is passed over besides is no bracket. */
  lemma PassedIsPlain(line: string, i: nat)
    requires i < |line| && PassesTwo(line, i)
    ensures i > 0 && IsPlain(line[i - 1])
  {
    if line[i] == '>' && EndsInOperator(line[..i]) {
      OperatorEnd(line[..i]);
    }
  }

  lemma OperatorEnd(s: string)
    requires s != "" && EndsInOperator(s)
    ensures IsSpace(s[|s| - 1]) || s[|s| - 1] == 'r'
  {
    if !IsSpace(s[|s| - 1]) {
      assert TrimRight(s) == s;
      assert s[|s| - 8..][7] == 'r';
    }
  }

  ghost predicate IsBareBack(r: LineScan, bare: LineScan) {
    match r
    case StillOpen(stack) => MixedClosing(stack) && bare == StillOpen(Bare(stack, '>'))
    case _ => r == bare
  }

  lemma BackPasses(line: string, i: nat, stack: seq<char>)
    requires i < |line| && PassesTwo(line, i) && stack != []
    ensures i > 0 && Back(line[..i], stack) == Back(line[..i - 1], stack)
  {
    PassedIsPlain(line, i);
    assert line[..i][..i - 1] == line[..i - 1];
  }

  /** Where the search goes on. */
  lemma NextBack(line: string, n: nat, bare: seq<char>) returns (m: nat)
    requires 0 < n <= |line| && bare != []
    ensures m < n && m == (if PassesTwo(line, n - 1) then n - 2 else n - 1)
    ensures Back(line[..n - 1], bare) == Back(line[..m], bare)
  {
    m := n - 1;
    if PassesTwo(line, n - 1) {
      BackPasses(line, n - 1, bare);
      m := n - 2;
    }
  }

  lemma BackFollows(text: string, bare: seq<char>, r: LineScan)
    requires text != "" && bare != [] && StepsBareBack(text[|text| - 1], |text| - 1, bare, r)
    ensures r.StillOpen? ==>
              Bare(r.stack, '>') != [] && Back(text, bare) == Back(text[..|text| - 1], Bare(r.stack, '>'))
    ensures !r.StillOpen? ==> Back(text, bare) == r
  {
    if r.StillOpen? {
      BareFirst(r.stack, '>');
    }
  }

  lemma {:induction false} StartFromIsBack(line: string, n: nat, stack: seq<char>)
    requires n <= |line| && MixedClosing(stack)
    ensures Bare(stack, '>') != [] && IsBareBack(StartFrom(line, n, stack), Back(line[..n], Bare(stack, '>')))
  {
    BareFirst(stack, '>');
    if n > 0 {
      StartStepIsBare(line, n - 1, stack);
      assert line[..n][..n - 1] == line[..n - 1];
      var r := StartStep(line, n - 1, stack);
      BackFollows(line[..n], Bare(stack, '>'), r);
      if r.StillOpen? {
        var m := NextBack(line, n, Bare(r.stack, '>'));
        StartFromIsBack(line, m, r.stack);
      }
    }
  }

  ghost predicate IsStart(lines: seq<string>, end: nat, r: LineScan, place: Place) {
    match place
    case Place(l, p) => l < |lines| && p < |lines[l]| && r == Found(Index(lines, l, p)) && Index(lines, l, p) < end
    case Nowhere => !r.Found?
  }

  /** The scan of a line, and then of what is before it. */
  lemma BackThroughLine(rest: string, part: string, bare: seq<char>, r: LineScan)
    requires bare != [] && IsBareBack(r, Back(part, bare))
    ensures r.StillOpen? ==> Bare(r.stack, '>') != [] && Back(rest + part, bare) == Back(rest, Bare(r.stack, '>'))
    ensures r.Found? ==> Back(rest + part, bare) == Found(|rest| + r.pos) && r.pos < |part|
    ensures r.GivenUp? ==> Back(rest + part, bare) == GivenUp
  {
    BackConcat(rest, part, bare);
  }

  lemma {:induction false} OpenFromIsBack(lines: seq<string>, l: nat, n: nat, stack: seq<char>)
    requires l < |lines| && n <= |lines[l]| && MixedClosing(stack)
    ensures Bare(stack, '>') != []
    ensures IsStart(lines, Index(lines, l, n), Back(Head(lines, l, n), Bare(stack, '>')), OpenFrom(lines, l, n, stack))
    decreases l
  {
    var part, rest := lines[l][..n], Before(lines, l);
    StartFromIsBack(lines[l], n, stack);
    var r := StartFrom(lines[l], n, stack);
    BackThroughLine(rest, part, Bare(stack, '>'), r);
    if r.StillOpen? {
      if l > 0 {
        OpenFromIsBack(lines, l - 1, |lines[l - 1]|, r.stack);
        assert lines[l - 1][..|lines[l - 1]|] == lines[l - 1];
        assert Head(lines, l - 1, |lines[l - 1]|) == rest;
      } else {
        assert rest == "";
      }
    }
  }

  lemma LastBracket(lines: seq<string>, m: nat, q: nat)
    requires m < |lines| && q < |lines[m]| && IsClosing(lines[m][q])
    ensures Opening(lines, m, q) == OpenFrom(lines, m, q, [lines[m][q]])
  {
    assert [] + [lines[m][q]] == [lines[m][q]];
  }

  lemma OpeningIsBack(lines: seq<string>, m: nat, q: nat, l: nat, p: nat)
    requires m < |lines| && q < |lines[m]| && IsClosing(lines[m][q])
    requires l < |lines| && p < |lines[l]|
    ensures Opening(lines, m, q) == Place(l, p) <==>
              Back(Head(lines, m, q), [lines[m][q]]) == Found(Index(lines, l, p))
    ensures Opening(lines, m, q) == Place(l, p) ==> Index(lines, l, p) < Index(lines, m, q)
  {
    LastBracket(lines, m, q);
    assert Bare([lines[m][q]], '>') == [lines[m][q]];
    OpenFromIsBack(lines, m, q, [lines[m][q]]);
    var found := Opening(lines, m, q);
    if found.Place? && Index(lines, l, p) == Index(lines, found.linenum, found.pos) {
      IndexIsUnique(lines, l, p, found.linenum, found.pos);
    }
  }

  /** A place of a line in the text: what is before it, the character, and what comes after it. */
  lemma TextAt(lines: seq<string>, l: nat, p: nat)
    requires l < |lines| && p < |lines[l]|
    ensures var text, k := Text(lines), Index(lines, l, p);
      && k < |text| && text[k] == lines[l][p]
      && Head(lines, l, p) == text[..k] && Tail(lines, l, p + 1) == text[k + 1..]
  {
    HeadAndTailAreText(lines, l, p);
    HeadAndTailAreText(lines, l, p + 1);
  }

  /** The two scans on one text. */
  lemma ScansAgree(text: string, start: nat, end: nat)
    requires start < end < |text| && IsOpening(text[start]) && IsClosing(text[end])
    ensures Scan(text[start + 1..], [text[start]]) == Found(end - start)
        <==> Back(text[..end], [text[end]]) == Found(start)
  {
    var before, open, rest, n := text[..start], text[start], text[start + 1..], end - start;
    assert before + [open] + rest == text;
    assert before + [open] + rest[..n - 1] == text[..end];
    BackFromEnd(before, open, rest, n);
  }

  /** Back from a closing bracket, the search returns to exactly the bracket that it closes, over any number of
      lines. */
  lemma BackAndForth(lines: seq<string>, l: nat, p: nat, m: nat, q: nat)
    requires l < |lines| && p < |lines[l]| && m < |lines| && q < |lines[m]|
    requires IsOpening(lines[l][p]) && IsClosing(lines[m][q])
    ensures Closing(lines, l, p) == Place(m, q + 1) <==> Opening(lines, m, q) == Place(l, p)
  {
    ClosingIsScan(lines, l, p, m, q + 1);
    OpeningIsBack(lines, m, q, l, p);
    TextAt(lines, l, p);
    TextAt(lines, m, q);
    if Index(lines, l, p) < Index(lines, m, q) {
      ScansAgree(Text(lines), Index(lines, l, p), Index(lines, m, q));
    }
  }

  /** Whatever the forward search finds, the backward search from there returns to the start. */
  lemma ReturnsToStart(lines: seq<string>, l: nat, p: nat, m: nat, e: nat)
    requires l < |lines| && p < |lines[l]| && IsOpening(lines[l][p])
    requires Closing(lines, l, p) == Place(m, e)
    ensures m < |lines| && 0 < e <= |lines[m]| && Opening(lines, m, e - 1) == Place(l, p)
  {
    ClosesBalancedWord(lines, l, p, m, e);
    TextAt(lines, l, p);
    TextAt(lines, m, e - 1);
    BackAndForth(lines, l, p, m, e - 1);
  }
}
