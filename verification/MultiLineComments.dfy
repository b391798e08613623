/**
 The removal of comments that go over several lines: a search for starts and ends that blanks lines in
 place, against a reading of the same text line by line.
 */
module MultiLineComments {
  import opened Facts
  import opened LineText

  const REMOVED := "/**/"

  /** A comment starts on this line and goes beyond it. */
  predicate Starts(line: string) {
    StartsWith(Strip(line), "/*") && !Contains(Strip(line), "*/", 2)
  }

  predicate Ends(line: string) {
    EndsWith(Strip(line), "*/")
  }

  /** On a line of `text`, a comment starts and goes on when it starts with the mark of a start and has none of an end
      after that; a comment ends when it ends with the mark of an end. */
  lemma StartsAndEnds(line: string, before: string, text: string, after: string)
    requires IsStripped(line, before, text, after)
    ensures Starts(line) <==> |text| >= 2 && text[0] == '/' && text[1] == '*'
                              && !exists k :: 2 <= k < |text| - 1 && text[k] == '*' && text[k + 1] == '/'
    ensures Ends(line) <==> |text| >= 2 && text[|text| - 2] == '*' && text[|text| - 1] == '/'
  {
    StripIs(line, before, text, after);
    EndInside(text);
    assert (exists k :: EndAt(text, k)) <==> exists k :: 2 <= k < |text| - 1 && text[k] == '*' && text[k + 1] == '/' by {
      if k :| 2 <= k < |text| - 1 && text[k] == '*' && text[k + 1] == '/' {
        assert EndAt(text, k);
      }
    }
    if |text| >= 2 {
      assert text[..2] == [text[0], text[1]] && text[|text| - 2..] == [text[|text| - 2], text[|text| - 1]];
    }
  }

  predicate EndAt(text: string, k: int) {
    2 <= k < |text| - 1 && text[k] == '*' && text[k + 1] == '/'
  }

  lemma EndInside(text: string)
    ensures Contains(text, "*/", 2) <==> exists k :: EndAt(text, k)
  {
    forall k | 2 <= k <= |text| ensures StartsWith(text[k..], "*/") <==> EndAt(text, k) {
      if k < |text| - 1 {
        assert text[k..][..2] == [text[k], text[k + 1]];
      }
    }
    if k :| EndAt(text, k) {
      assert StartsWith(text[k..], "*/");
    }
  }

  /** A line that starts a comment, one that ends it, and one that does both. */
  lemma StartLine()
    ensures Starts(" /* a") && !Ends(" /* a")
  {
    StartsAndEnds(" /* a", " ", "/* a", "");
  }

  lemma EndLine()
    ensures !Starts("a */ ") && Ends("a */ ")
  {
    StartsAndEnds("a */ ", "", "a */", " ");
  }

  lemma BothOnOneLine()
    ensures Starts("/*/") && Ends("/*/")
  {
    StartsAndEnds("/*/", "", "/*/", "");
  }

  /** What a line of a comment becomes starts none. */
  lemma RemovedIsBlank()
    ensures COMMENTS.blank == "/**/" && !Starts("/**/")
  {
    StartsAndEnds("/**/", "", "/**/", "");
    assert EndAt("/**/", 2);
  }

  /** Which lines start and end comments, and what stands for a line of a comment. Lines of any kind will do. */
  datatype Marks<!L> = Marks(starts: L -> bool, ends: L -> bool, blank: L)

  const COMMENTS := Marks(Starts, Ends, REMOVED)

  // Line by line.

  /** Whether a comment is open after a line. */
  function Next<L>(m: Marks<L>, line: L, inside: bool): bool {
    (inside || m.starts(line)) && !m.ends(line)
  }

  /** One reading of the lines: a line inside a comment is blank, and so is the one that starts it. */
  function Read<L>(m: Marks<L>, lines: seq<L>, inside: bool): (r: seq<L>)
    ensures |r| == |lines|
  {
    if lines == [] then [] else
    [if inside || m.starts(lines[0]) then m.blank else lines[0]] + Read(m, lines[1..], Next(m, lines[0], inside))
  }

  /** Whether a comment is still open after the lines. */
  function OpenAfter<L>(m: Marks<L>, lines: seq<L>, inside: bool): bool {
    if lines == [] then inside else OpenAfter(m, lines[1..], Next(m, lines[0], inside))
  }

  lemma {:induction false} ReadConcat<L>(m: Marks<L>, a: seq<L>, b: seq<L>, inside: bool)
    ensures Read(m, a + b, inside) == Read(m, a, inside) + Read(m, b, OpenAfter(m, a, inside))
    ensures OpenAfter(m, a + b, inside) == OpenAfter(m, b, OpenAfter(m, a, inside))
  {
    if a == [] {
      assert a + b == b;
    } else {
      assert (a + b)[0] == a[0] && (a + b)[1..] == a[1..] + b;
      ReadConcat(m, a[1..], b, Next(m, a[0], inside));
    }
  }

  /** What lines become, and where a comment that never ends starts. */
  datatype Outcome<L> = Outcome(lines: seq<L>, unclosed: nat)

  /** An outcome is that of the line by line reading: when the last comment ends, all lines are read; otherwise the
      lines before its start are read, and the others are left. */
  ghost predicate IsReading<L>(m: Marks<L>, lines: seq<L>, r: Outcome<L>) {
    && r.unclosed <= |lines|
    && r.lines == Read(m, lines[..r.unclosed], false) + lines[r.unclosed..]
    && !OpenAfter(m, lines[..r.unclosed], false)
    && (r.unclosed < |lines| ==> m.starts(lines[r.unclosed]) && NoMark(m.ends, lines[r.unclosed..]))
  }

  ghost predicate NoMark<L>(mark: L -> bool, lines: seq<L>) {
    forall k | 0 <= k < |lines| :: !mark(lines[k])
  }

  // The search.

  /** The search for the next start, or the next end. */
  method FindNext<L>(mark: L -> bool, lines: array<L>, lineix: nat) returns (found: nat)
    requires lineix <= lines.Length
    ensures lineix <= found <= lines.Length
    ensures NoMark(mark, lines[..][lineix..found])
    ensures found < lines.Length ==> mark(lines[..][found])
  {
    found := lineix;
    while found < lines.Length
      invariant lineix <= found <= lines.Length
      invariant NoMark(mark, lines[..][lineix..found])
    {
      if mark(lines[found]) {
        return;
      }
      assert lines[..][lineix..found + 1] == lines[..][lineix..found] + [lines[found]];
      found := found + 1;
    }
  }

  function Blanks<L>(blank: L, n: nat): (r: seq<L>)
    ensures |r| == n && forall k | 0 <= k < n :: r[k] == blank
  {
    seq(n, k => blank)
  }

  method RemoveMultiLineCommentsFromRange<L>(lines: array<L>, blank: L, begin: nat, end: nat)
    requires begin <= end <= lines.Length
    modifies lines
    ensures lines[..] == old(lines[..])[..begin] + Blanks(blank, end - begin) + old(lines[..])[end..]
  {
    for i := begin to end
      invariant lines[..] == old(lines[..])[..begin] + Blanks(blank, i - begin) + old(lines[..])[i..]
    {
      lines[i] := blank;
    }
  }

  /** Clears, in place, every line of every comment that goes over several lines. Reports the line of a start that
      has no end. */
  method RemoveMultiLineComments(lines: array<string>) returns (unclosed: nat)
    modifies lines
    ensures IsReading(COMMENTS, old(lines[..]), Outcome(lines[..], unclosed))
  {
    unclosed := RemoveMarked(COMMENTS, lines);
  }

  method RemoveMarked<L>(m: Marks<L>, lines: array<L>) returns (unclosed: nat)
    modifies lines
    ensures IsReading(m, old(lines[..]), Outcome(lines[..], unclosed))
  {
    var lineix := 0;
    ghost var was := lines[..];
    while lineix < lines.Length
      invariant lineix <= lines.Length && ReadTo(m, was, lines[..], lineix)
    {
      ghost var now := lines[..];
      var begin := FindNext(m.starts, lines, lineix);
      ReadOutside(m, was, now, lineix, begin);
      if begin >= lines.Length {
        NothingLeft(m, was, now);
        return lines.Length;
      }
      var end := FindNext(m.ends, lines, begin);
      if end >= lines.Length {
        NeverEnds(m, was, now, begin);
        return begin;
      }
      RemoveMultiLineCommentsFromRange(lines, m.blank, begin, end + 1);
      ReadComment(m, was, now, lines[..], begin, end);
      lineix := end + 1;
    }
    NothingLeft(m, was, lines[..]);
    unclosed := lines.Length;
  }

  /** The lines before `i` are read, no comment is open after them, and the others are as they were. These facts are
      only there for a proof that uses them. */
  ghost predicate ReadTo<L>(m: Marks<L>, was: seq<L>, now: seq<L>, i: nat) {
    && i <= |was| == |now|
    && forall b {:trigger Use(b)} | Use(b) ::
         now == Read(m, was[..i], false) + was[i..] && !OpenAfter(m, was[..i], false)
  }

  lemma NothingLeft<L>(m: Marks<L>, was: seq<L>, now: seq<L>)
    requires ReadTo(m, was, now, |was|)
    ensures IsReading(m, was, Outcome(now, |was|))
  {
    assert Use(true);
  }

  lemma NeverEnds<L>(m: Marks<L>, was: seq<L>, now: seq<L>, begin: nat)
    requires begin < |was| && ReadTo(m, was, now, begin) && m.starts(now[begin]) && NoMark(m.ends, now[begin..|now|])
    ensures IsReading(m, was, Outcome(now, begin))
  {
    assert Use(true);
    assert now[begin..|now|] == was[begin..];
  }

  lemma {:induction false} ReadUnmarked<L>(m: Marks<L>, lines: seq<L>)
    requires NoMark(m.starts, lines)
    ensures Read(m, lines, false) == lines && !OpenAfter(m, lines, false)
  {
    if lines != [] {
      ReadUnmarked(m, lines[1..]);
    }
  }

  lemma TailSame<L>(head: seq<L>, was: seq<L>, now: seq<L>, i: nat, j: nat)
    requires |head| == i <= j <= |was| && now == head + was[i..]
    ensures |now| == |was| && now[..i] == head && now[i..j] == was[i..j] && now[j..] == was[j..]
    ensures now == head + was[i..j] + was[j..]
  {
  }

  lemma ReadOutside<L>(m: Marks<L>, was: seq<L>, now: seq<L>, i: nat, begin: nat)
    requires ReadTo(m, was, now, i) && i <= begin <= |was| && NoMark(m.starts, now[i..begin])
    ensures ReadTo(m, was, now, begin)
  {
    assert Use(true);
    TailSame(Read(m, was[..i], false), was, now, i, begin);
    ReadUnmarked(m, was[i..begin]);
    ReadConcat(m, was[..i], was[i..begin], false);
    assert was[..begin] == was[..i] + was[i..begin];
  }

  lemma {:induction false} ReadInside<L>(m: Marks<L>, lines: seq<L>)
    requires NoMark(m.ends, lines)
    ensures Read(m, lines, true) == Blanks(m.blank, |lines|) && OpenAfter(m, lines, true)
  {
    if lines != [] {
      ReadInside(m, lines[1..]);
    }
  }

  /** The lines of a comment, up to the first end. */
  lemma ReadBody<L>(m: Marks<L>, lines: seq<L>, last: L)
    requires (lines + [last])[0] == (if lines == [] then last else lines[0]) && m.starts((lines + [last])[0])
    requires NoMark(m.ends, lines) && m.ends(last)
    ensures Read(m, lines + [last], false) == Blanks(m.blank, |lines| + 1) && !OpenAfter(m, lines + [last], false)
  {
    ReadInside(m, lines);
    ReadConcat(m, lines, [last], true);
    var all := lines + [last];
    assert OpenAfter(m, all, false) == OpenAfter(m, all, true);
    assert Read(m, all, false) == Read(m, all, true);
    assert Read(m, [last], true) == [m.blank];
  }

  lemma ReadComment<L>(m: Marks<L>, was: seq<L>, now: seq<L>, next: seq<L>, begin: nat, end: nat)
    requires begin <= end < |was| && ReadTo(m, was, now, begin)
    requires m.starts(now[begin]) && NoMark(m.ends, now[begin..end]) && m.ends(now[end])
    requires next == now[..begin] + Blanks(m.blank, end + 1 - begin) + now[end + 1..]
    ensures ReadTo(m, was, next, end + 1)
  {
    assert Use(true);
    TailSame(Read(m, was[..begin], false), was, now, begin, end);
    TailSame(Read(m, was[..begin], false), was, now, begin, end + 1);
    assert now[begin] == now[begin..end + 1][0] && now[end] == now[begin..end + 1][end - begin];
    var comment := was[begin..end] + [was[end]];
    ReadBody(m, was[begin..end], was[end]);
    ReadConcat(m, was[..begin], comment, false);
    assert was[..end + 1] == was[..begin] + comment;
  }

  // What the outcome means.

  /** The outcome leaves a comment open exactly when the reading does. */
  lemma UnclosedIsOpen<L>(m: Marks<L>, lines: seq<L>, r: Outcome<L>)
    requires IsReading(m, lines, r)
    ensures r.unclosed < |lines| <==> OpenAfter(m, lines, false)
  {
    var u := r.unclosed;
    if u < |lines| {
      OpenFrom(m, lines, u, |lines|);
    }
    assert lines[..|lines|] == lines;
  }

  lemma OpenFrom<L>(m: Marks<L>, lines: seq<L>, u: nat, v: nat)
    requires u < v <= |lines| && m.starts(lines[u]) && NoMark(m.ends, lines[u..])
    ensures OpenAfter(m, lines[..v], false)
  {
    var rest := lines[u..v];
    assert forall k | 0 <= k < |rest| :: rest[k] == lines[u..][k];
    ReadInside(m, rest);
    ReadConcat(m, lines[..u], rest, false);
    assert lines[..v] == lines[..u] + rest;
    assert OpenAfter(m, rest, false) == OpenAfter(m, rest, true);
  }

  /** There is just one such outcome. */
  lemma ReadingIsUnique<L>(m: Marks<L>, lines: seq<L>, r: Outcome<L>, s: Outcome<L>)
    requires IsReading(m, lines, r) && IsReading(m, lines, s)
    ensures r == s
  {
    if r.unclosed < s.unclosed {
      OpenFrom(m, lines, r.unclosed, s.unclosed);
    } else if s.unclosed < r.unclosed {
      OpenFrom(m, lines, s.unclosed, r.unclosed);
    }
  }

  lemma {:induction false} ReadHasNoStart<L>(m: Marks<L>, lines: seq<L>, inside: bool)
    requires !m.starts(m.blank)
    ensures NoMark(m.starts, Read(m, lines, inside))
  {
    if lines != [] {
      ReadHasNoStart(m, lines[1..], Next(m, lines[0], inside));
    }
  }

  lemma ReadTwice<L>(m: Marks<L>, lines: seq<L>, r: Outcome<L>)
    requires !m.starts(m.blank) && IsReading(m, lines, r) && r.unclosed == |lines|
    ensures NoMark(m.starts, r.lines) && IsReading(m, r.lines, r)
  {
    assert r.lines == Read(m, lines[..|lines|], false);
    ReadHasNoStart(m, lines[..|lines|], false);
    ReadUnmarked(m, r.lines);
    assert r.lines[..|r.lines|] == r.lines;
  }

  /** When no comment is left open, no comment start is left, and a second removal changes nothing. */
  lemma RemovedTwice(lines: seq<string>, r: Outcome<string>, again: Outcome<string>)
    requires IsReading(COMMENTS, lines, r) && r.unclosed == |lines|
    requires IsReading(COMMENTS, r.lines, again)
    ensures NoMark(COMMENTS.starts, r.lines) && again == r
  {
    RemovedIsBlank();
    ReadTwice(COMMENTS, lines, r);
    ReadingIsUnique(COMMENTS, r.lines, again, r);
  }

  /** Line `k` is inside a comment, or starts one. */
  ghost predicate InComment<L>(m: Marks<L>, lines: seq<L>, k: nat)
    requires k < |lines|
  {
    OpenAfter(m, lines[..k], false) || m.starts(lines[k])
  }

  lemma ReadAt<L>(m: Marks<L>, lines: seq<L>, k: nat)
    requires k < |lines|
    ensures Read(m, lines, false)[k] == if InComment(m, lines, k) then m.blank else lines[k]
  {
    assert lines == lines[..k] + lines[k..];
    ReadConcat(m, lines[..k], lines[k..], false);
  }

  /** Exactly the lines of comments that end are changed. */
  lemma ChangesOnlyComments<L>(m: Marks<L>, lines: seq<L>, r: Outcome<L>, k: nat)
    requires IsReading(m, lines, r) && k < |lines|
    ensures |r.lines| == |lines|
    ensures r.lines[k] == if k < r.unclosed && InComment(m, lines, k) then m.blank else lines[k]
  {
    var end := r.unclosed;
    if k < end {
      ReadAt(m, lines[..end], k);
      assert lines[..end][..k] == lines[..k];
    }
  }
}
