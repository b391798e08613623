/**
 What the matching of brackets `(`, `[` and `{` means: a bracket is closed by the end of the balanced word that follows
 it, and matching back from there returns to it.
 */
module BracketMatching {
  import opened BracketScan

  // Balanced words.

  datatype Word =
    | Empty
    | Plain(c: char, rest: Word)
    | Enclosed(open: char, body: Word, rest: Word)

  predicate IsPlain(c: char) {
    !IsOpening(c) && !IsClosing(c)
  }

  predicate Balanced(w: Word) {
    match w
    case Empty => true
    case Plain(c, rest) => IsPlain(c) && Balanced(rest)
    case Enclosed(open, body, rest) => IsOpening(open) && Balanced(body) && Balanced(rest)
  }

  function Print(w: Word): string {
    match w
    case Empty => ""
    case Plain(c, rest) => [c] + Print(rest)
    case Enclosed(open, body, rest) => [open] + Print(body) + [Partner(open)] + Print(rest)
  }

  // Forward, on one text.

  predicate Brackets(stack: seq<char>) {
    stack != [] && forall c | c in stack :: IsOpening(c)
  }

  /** The forward scan of these brackets only: the index just past the bracket that empties the stack. */
  function Scan(text: string, stack: seq<char>): LineScan
    requires stack != []
  {
    if text == "" then StillOpen(stack) else
    var c, rest := text[0], text[1..];
    if IsOpening(c) then Later(Scan(rest, stack + [c]), 1)
    else if IsClosing(c) then
      if !TopIs(stack, Partner(c)) then GivenUp
      else if |stack| == 1 then Found(1)
      else Later(Scan(rest, Pop(stack)), 1)
    else Later(Scan(rest, stack), 1)
  }

  function Later(r: LineScan, n: nat): LineScan {
    if r.Found? then Found(r.pos + n) else r
  }

  lemma {:induction false} ScanConcat(a: string, b: string, stack: seq<char>)
    requires stack != []
    ensures Scan(a, stack).StillOpen? ==> Scan(a, stack).stack != []
    ensures Scan(a, stack).StillOpen? ==> Scan(a + b, stack) == Later(Scan(b, Scan(a, stack).stack), |a|)
    ensures !Scan(a, stack).StillOpen? ==> Scan(a + b, stack) == Scan(a, stack)
  {
    if a == "" {
      assert a + b == b;
    } else {
      assert (a + b)[0] == a[0] && (a + b)[1..] == a[1..] + b;
      var c := a[0];
      if IsOpening(c) {
        ScanConcat(a[1..], b, stack + [c]);
      } else if IsClosing(c) {
        if TopIs(stack, Partner(c)) && |stack| > 1 {
          ScanConcat(a[1..], b, Pop(stack));
        }
      } else {
        ScanConcat(a[1..], b, stack);
      }
    }
  }

  /** A balanced word leaves the stack as it was. */
  lemma {:induction false} ScanWord(w: Word, stack: seq<char>)
    requires Balanced(w) && stack != []
    ensures Scan(Print(w), stack) == StillOpen(stack)
    decreases w
  {
    match w
    case Empty =>
    case Plain(c, rest) =>
      ScanWord(rest, stack);
      ScanConcat([c], Print(rest), stack);
      ScanOne(c, stack);
    case Enclosed(open, body, rest) =>
      var inside := stack + [open];
      ScanWord(body, inside);
      ScanWord(rest, stack);
      ScanOne(open, stack);
      ScanOne(Partner(open), inside);
      assert Pop(inside) == stack;
      ScanConcat([open], Print(body), stack);
      ScanConcat([open] + Print(body), [Partner(open)], stack);
      ScanConcat([open] + Print(body) + [Partner(open)], Print(rest), stack);
  }

  lemma ScanOne(c: char, stack: seq<char>)
    requires stack != []
    ensures IsPlain(c) ==> Scan([c], stack) == StillOpen(stack)
    ensures IsOpening(c) ==> Scan([c], stack) == StillOpen(stack + [c])
    ensures IsClosing(c) && TopIs(stack, Partner(c)) ==>
              Scan([c], stack) == if |stack| == 1 then Found(1) else StillOpen(Pop(stack))
  {
  }

  /** The text that closes the brackets of a stack: the words between, each with its closing bracket. */
  function Closings(stack: seq<char>, words: seq<Word>): string
    requires |words| == |stack|
  {
    if stack == [] then "" else
    Print(words[|words| - 1]) + [Partner(stack[|stack| - 1])] + Closings(Pop(stack), words[..|words| - 1])
  }

  ghost predicate AllBalanced(words: seq<Word>) {
    forall w | w in words :: Balanced(w)
  }

  /** A scan that ends has read a balanced word for every bracket on the stack. */
  lemma {:induction false} FoundMeansBalanced(text: string, stack: seq<char>) returns (words: seq<Word>)
    requires Brackets(stack) && Scan(text, stack).Found?
    ensures |words| == |stack| && AllBalanced(words)
    ensures Scan(text, stack).pos <= |text|
    ensures text[..Scan(text, stack).pos] == Closings(stack, words)
    decreases |text|
  {
    var c, rest := text[0], text[1..];
    if IsOpening(c) {
      words := FoundMeansBalanced(rest, stack + [c]);
      words := Enclose(stack, c, words);
      HeadAndTail(text, Scan(rest, stack + [c]).pos);
    } else if IsClosing(c) {
      words := [];
      if |stack| == 1 {
        assert Pop(stack) == [] && Closings(Pop(stack), []) == "";
        HeadAndTail(text, 0);
      } else {
        words := FoundMeansBalanced(rest, Pop(stack));
        HeadAndTail(text, Scan(rest, Pop(stack)).pos);
      }
      words := CloseFirst(stack, c, words);
    } else {
      words := FoundMeansBalanced(rest, stack);
      words := PlainFirst(stack, c, words);
      HeadAndTail(text, Scan(rest, stack).pos);
    }
  }

  lemma HeadAndTail(text: string, k: nat)
    requires k < |text|
    ensures text[..k + 1] == [text[0]] + text[1..][..k]
  {
  }

  lemma PlainFirst(stack: seq<char>, c: char, more: seq<Word>) returns (words: seq<Word>)
    requires stack != [] && |more| == |stack| && AllBalanced(more) && IsPlain(c)
    ensures |words| == |stack| && AllBalanced(words)
    ensures Closings(stack, words) == [c] + Closings(stack, more)
  {
    var front, last := more[..|more| - 1], more[|more| - 1];
    assert last in more;
    words := front + [Plain(c, last)];
    assert words[..|words| - 1] == front;
  }

  lemma CloseFirst(stack: seq<char>, c: char, more: seq<Word>) returns (words: seq<Word>)
    requires TopIs(stack, Partner(c)) && |more| == |stack| - 1 && AllBalanced(more) && IsClosing(c)
    ensures |words| == |stack| && AllBalanced(words)
    ensures Closings(stack, words) == [c] + Closings(Pop(stack), more)
  {
    words := more + [Empty];
    assert words[..|words| - 1] == more;
  }

  /** An opening bracket, the word after it and its closing bracket go before the next word of the stack. */
  lemma Enclose(stack: seq<char>, c: char, more: seq<Word>) returns (words: seq<Word>)
    requires stack != [] && |more| == |stack| + 1 && AllBalanced(more) && IsOpening(c)
    ensures |words| == |stack| && AllBalanced(words)
    ensures Closings(stack, words) == [c] + Closings(stack + [c], more)
  {
    var n := |stack|;
    var inner, outer := more[n], more[n - 1];
    assert inner in more && outer in more;
    words := more[..n - 1] + [Enclosed(c, inner, outer)];
    assert words[..n - 1] == more[..n - 1];
    assert Pop(stack + [c]) == stack;
    assert more[..n][..n - 1] == more[..n - 1];
  }

  predicate Writes(w: Word, text: string) {
    Balanced(w) && text == Print(w)
  }

  ghost predicate IsWord(text: string) {
    exists w :: Writes(w, text)
  }

  /** The first `n` characters close the bracket `open`: a balanced word and the partner. */
  ghost predicate ClosesAt(open: char, text: string, n: nat) {
    0 < n <= |text| && text[n - 1] == Partner(open) && IsWord(text[..n - 1])
  }

  /** The scan finds exactly the end of the balanced word. */
  lemma ScanFinds(open: char, text: string, n: nat)
    requires IsOpening(open)
    ensures Scan(text, [open]) == Found(n) <==> ClosesAt(open, text, n)
  {
    if Scan(text, [open]) == Found(n) {
      var words := FoundMeansBalanced(text, [open]);
      assert words[0] in words && Closings(Pop([open]), words[..0]) == "";
      EndsInWord(text, n, words[0], Partner(open));
    }
    if ClosesAt(open, text, n) {
      var w :| Writes(w, text[..n - 1]);
      ScanClosed(open, w, text[n..]);
      assert text == text[..n - 1] + [text[n - 1]] + text[n..];
    }
  }

  lemma EndsInWord(text: string, n: nat, w: Word, last: char)
    requires n <= |text| && Balanced(w) && text[..n] == Print(w) + [last]
    ensures n > 0 && text[n - 1] == last && text[..n - 1] == Print(w) && IsWord(text[..n - 1])
  {
    SnocParts(Print(w), last);
    assert n == |Print(w)| + 1;
    assert text[n - 1] == text[..n][n - 1] && text[..n - 1] == text[..n][..n - 1];
    assert Writes(w, text[..n - 1]);
  }

  lemma SnocParts(s: string, c: char)
    ensures |s + [c]| == |s| + 1 && (s + [c])[|s|] == c && (s + [c])[..|s|] == s
  {
  }

  lemma ScanClosed(open: char, w: Word, rest: string)
    requires IsOpening(open) && Balanced(w)
    ensures Scan(Print(w) + [Partner(open)] + rest, [open]) == Found(|Print(w)| + 1)
  {
    ScanWord(w, [open]);
    ScanOne(Partner(open), [open]);
    ScanConcat(Print(w), [Partner(open)], [open]);
    ScanConcat(Print(w) + [Partner(open)], rest, [open]);
  }

  // Backward: the forward scan of the mirror image.

  function Mirrored(text: string): (r: string)
    ensures |r| == |text|
  {
    if text == "" then "" else Mirrored(text[1..]) + [Partner(text[0])]
  }

  function Joined(a: Word, b: Word): Word {
    match a
    case Empty => b
    case Plain(c, rest) => Plain(c, Joined(rest, b))
    case Enclosed(open, body, rest) => Enclosed(open, body, Joined(rest, b))
  }

  function MirrorWord(w: Word): Word {
    match w
    case Empty => Empty
    case Plain(c, rest) => Joined(MirrorWord(rest), Plain(c, Empty))
    case Enclosed(open, body, rest) => Joined(MirrorWord(rest), Enclosed(open, MirrorWord(body), Empty))
  }

  lemma {:induction false} PrintJoined(a: Word, b: Word)
    requires Balanced(a) && Balanced(b)
    ensures Balanced(Joined(a, b)) && Print(Joined(a, b)) == Print(a) + Print(b)
  {
    match a
    case Empty =>
    case Plain(c, rest) => PrintJoined(rest, b);
    case Enclosed(open, body, rest) =>
      PrintJoined(rest, b);
      assert Print(Joined(a, b)) == [open] + Print(body) + [Partner(open)] + (Print(rest) + Print(b));
  }

  lemma {:induction false} MirroredConcat(a: string, b: string)
    ensures Mirrored(a + b) == Mirrored(b) + Mirrored(a)
  {
    if a == "" {
      assert a + b == b;
    } else {
      assert (a + b)[0] == a[0] && (a + b)[1..] == a[1..] + b;
      MirroredConcat(a[1..], b);
    }
  }

  lemma MirroredOne(c: char)
    ensures Mirrored([c]) == [Partner(c)]
  {
  }

  lemma {:induction false} MirroredTwice(text: string)
    ensures Mirrored(Mirrored(text)) == text
  {
    if text != "" {
      MirroredTwice(text[1..]);
      MirroredConcat(Mirrored(text[1..]), [Partner(text[0])]);
      MirroredOne(Partner(text[0]));
      assert text == [text[0]] + text[1..];
    }
  }

  lemma {:induction false} PrintMirrored(w: Word)
    requires Balanced(w)
    ensures Balanced(MirrorWord(w)) && Print(MirrorWord(w)) == Mirrored(Print(w))
  {
    match w
    case Empty =>
    case Plain(c, rest) =>
      PrintMirrored(rest);
      PrintJoined(MirrorWord(rest), Plain(c, Empty));
      MirroredConcat([c], Print(rest));
      MirroredOne(c);
    case Enclosed(open, body, rest) =>
      PrintMirrored(rest);
      PrintMirrored(body);
      var inner := Enclosed(open, MirrorWord(body), Empty);
      PrintJoined(MirrorWord(rest), inner);
      MirrorEnclosed(open, Print(body), Print(rest));
      assert Print(inner) == [open] + Mirrored(Print(body)) + [Partner(open)];
  }

  lemma MirrorEnclosed(open: char, body: string, rest: string)
    requires IsOpening(open)
    ensures Mirrored([open] + body + [Partner(open)] + rest)
         == Mirrored(rest) + ([open] + Mirrored(body) + [Partner(open)])
  {
    MirroredConcat([open] + body + [Partner(open)], rest);
    MirroredConcat([open] + body, [Partner(open)]);
    MirroredConcat([open], body);
    MirroredOne(open);
    MirroredOne(Partner(open));
  }

  /** The backward scan of these brackets only: the index of the bracket that empties the stack of closing ones. */
  function Back(text: string, stack: seq<char>): LineScan
    requires stack != []
  {
    if text == "" then StillOpen(stack) else
    var c, rest := text[|text| - 1], text[..|text| - 1];
    if IsClosing(c) then Back(rest, stack + [c])
    else if IsOpening(c) then
      if !TopIs(stack, Partner(c)) then GivenUp
      else if |stack| == 1 then Found(|text| - 1)
      else Back(rest, Pop(stack))
    else Back(rest, stack)
  }

  function Partners(stack: seq<char>): (r: seq<char>)
    ensures |r| == |stack| && forall k | 0 <= k < |stack| :: r[k] == Partner(stack[k])
  {
    seq(|stack|, k requires 0 <= k < |stack| => Partner(stack[k]))
  }

  function Reflected(r: LineScan, n: nat): LineScan {
    match r
    case Found(pos) => if pos <= n then Found(n - pos) else GivenUp
    case GivenUp => GivenUp
    case StillOpen(stack) => StillOpen(Partners(stack))
  }

  lemma {:induction false} ScanStaysInside(text: string, stack: seq<char>)
    requires stack != []
    ensures Scan(text, stack).Found? ==> 0 < Scan(text, stack).pos <= |text|
  {
    if text != "" {
      var c := text[0];
      if IsOpening(c) {
        ScanStaysInside(text[1..], stack + [c]);
      } else if IsClosing(c) {
        if |stack| > 1 {
          ScanStaysInside(text[1..], Pop(stack));
        }
      } else {
        ScanStaysInside(text[1..], stack);
      }
    }
  }

  lemma {:induction false} BackIsMirror(text: string, stack: seq<char>)
    requires stack != []
    ensures Back(text, stack) == Reflected(Scan(Mirrored(text), Partners(stack)), |text|)
    decreases |text|
  {
    if text == "" {
      assert Partners(Partners(stack)) == stack;
    } else {
      var c, rest := text[|text| - 1], text[..|text| - 1];
      MirroredSnoc(text);
      var m := Mirrored(rest);
      if IsClosing(c) {
        BackIsMirror(rest, stack + [c]);
        assert Partners(stack + [c]) == Partners(stack) + [Partner(c)];
        ScanStaysInside(m, Partners(stack + [c]));
        ReflectLater(Scan(m, Partners(stack + [c])), |rest|);
      } else if IsOpening(c) {
        if |stack| > 1 {
          BackIsMirror(rest, Pop(stack));
          assert Partners(Pop(stack)) == Pop(Partners(stack));
          ScanStaysInside(m, Partners(Pop(stack)));
          ReflectLater(Scan(m, Partners(Pop(stack))), |rest|);
        }
      } else {
        BackIsMirror(rest, stack);
        ScanStaysInside(m, Partners(stack));
        ReflectLater(Scan(m, Partners(stack)), |rest|);
      }
    }
  }

  lemma MirroredSnoc(text: string)
    requires text != ""
    ensures var m := Mirrored(text);
      m[0] == Partner(text[|text| - 1]) && m[1..] == Mirrored(text[..|text| - 1])
  {
    var front, last := text[..|text| - 1], text[|text| - 1];
    assert text == front + [last];
    MirroredEnd(front, last);
    HeadOf(Partner(last), Mirrored(front));
  }

  lemma MirroredEnd(front: string, last: char)
    ensures Mirrored(front + [last]) == [Partner(last)] + Mirrored(front)
  {
    MirroredConcat(front, [last]);
    MirroredOne(last);
  }

  lemma HeadOf(c: char, rest: string)
    ensures ([c] + rest)[0] == c && ([c] + rest)[1..] == rest
  {
  }

  lemma ReflectLater(r: LineScan, n: nat)
    requires r.Found? ==> r.pos <= n
    ensures Reflected(Later(r, 1), n + 1) == Reflected(r, n)
  {
  }

  /** The text from index `n` on opens the bracket `close`: the partner and a balanced word. */
  ghost predicate OpensAt(close: char, text: string, n: nat) {
    n < |text| && text[n] == Partner(close) && IsWord(text[n + 1..])
  }

  lemma MirrorIsWord(text: string)
    ensures IsWord(text) ==> IsWord(Mirrored(text))
  {
    if w :| Writes(w, text) {
      PrintMirrored(w);
      assert Writes(MirrorWord(w), Mirrored(text));
    }
  }

  /** The mirror image of an opening is a closing. */
  lemma OpensIsCloses(close: char, text: string, n: nat)
    requires IsClosing(close) && n < |text|
    ensures OpensAt(close, text, n) == ClosesAt(Partner(close), Mirrored(text), |text| - n)
  {
    var c, rest := text[n], text[n + 1..];
    MirrorAt(text, n);
    ClosesParts(Partner(close), Mirrored(rest), Partner(c), Mirrored(text[..n]));
    MirrorIsWordToo(rest);
    SamePartner(c, close);
  }

  lemma MirrorAt(text: string, n: nat)
    requires n < |text|
    ensures Mirrored(text) == Mirrored(text[n + 1..]) + [Partner(text[n])] + Mirrored(text[..n])
    ensures |Mirrored(text[n + 1..])| + 1 == |text| - n
  {
    assert text == text[..n] + [text[n]] + text[n + 1..];
    MirrorSplit(text[..n], text[n], text[n + 1..]);
  }

  lemma SamePartner(c: char, d: char)
    ensures c == Partner(d) <==> Partner(c) == Partner(Partner(d))
  {
    PartnerTwice(c);
    PartnerTwice(d);
  }

  lemma PartnerTwice(c: char)
    ensures Partner(Partner(c)) == c
  {
  }

  lemma ClosesParts(open: char, word: string, c: char, rest: string)
    ensures ClosesAt(open, word + [c] + rest, |word| + 1) == (c == Partner(open) && IsWord(word))
  {
    assert (word + [c] + rest)[..|word|] == word;
  }

  lemma MirrorIsWordToo(text: string)
    ensures IsWord(text) == IsWord(Mirrored(text))
  {
    MirrorIsWord(text);
    MirrorIsWord(Mirrored(text));
    MirroredTwice(text);
  }

  /** Back finds exactly the start of the balanced word. */
  lemma BackFinds(close: char, text: string, n: nat)
    requires IsClosing(close)
    ensures Back(text, [close]) == Found(n) <==> OpensAt(close, text, n)
  {
    var open, m := Partner(close), Mirrored(text);
    BackIsMirror(text, [close]);
    assert Partners([close]) == [open];
    MirroredTwice(text);
    ScanStaysInside(m, [open]);
    if n < |text| {
      ScanFinds(open, m, |text| - n);
      OpensIsCloses(close, text, n);
    }
  }

  lemma MirrorSplit(a: string, c: char, b: string)
    ensures Mirrored(a + [c] + b) == Mirrored(b) + [Partner(c)] + Mirrored(a)
  {
    MirroredConcat(a + [c], b);
    MirroredConcat(a, [c]);
    MirroredOne(c);
    assert Mirrored(b) + ([Partner(c)] + Mirrored(a)) == Mirrored(b) + [Partner(c)] + Mirrored(a);
  }

  /** On one text: forward from `open` ends at `n` exactly when back from that end starts at `open`. */
  lemma BackFromEnd(before: string, open: char, text: string, n: nat)
    requires IsOpening(open) && 0 < n <= |text|
    ensures Scan(text, [open]) == Found(n) <==>
              IsClosing(text[n - 1]) && Back(before + [open] + text[..n - 1], [text[n - 1]]) == Found(|before|)
  {
    var inner, close := text[..n - 1], text[n - 1];
    var whole := before + [open] + inner;
    ScanFinds(open, text, n);
    assert whole[|before|] == open && whole[|before| + 1..] == inner;
    PartnerTwice(close);
    if IsClosing(close) {
      BackFinds(close, whole, |before|);
    }
  }
}
