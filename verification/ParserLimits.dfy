/**
 Texts on which the parser does not do what they suggest, with the exact conditions: when it reads beyond
 the end, when the name of a result parses back to its program, and what its check lets through.
 */
module ParserLimits {
  import opened Facts
  import opened ExpressSyntax
  import opened ExpressParser
  import opened PostfixMachine

  // Reading beyond the end.

  /** The text starts with a sign and has no other operator. */
  ghost predicate IsLoneSign(expr: string) {
    expr != "" && expr[0] == '-' && forall k | 1 <= k < |expr| :: !IsOperator(expr[k])
  }

  /** A sign after an opening bracket at `p` has no closing bracket after it. */
  ghost predicate IsUnclosedSign(expr: string, p: nat) {
    0 < p < |expr| && expr[p - 1] == '(' && expr[p] == '-' && forall k | p <= k < |expr| :: expr[k] != ')'
  }

  lemma {:induction false} PastEndFrom(expr: string, i: nat, s: Reading)
    requires 0 < i <= |expr|
    ensures ParseFrom(expr, i, s) == ReadPastEnd <==> exists p: nat | i <= p :: IsUnclosedSign(expr, p)
    decreases |expr| - i
  {
    if i < |expr| {
      if expr[i] == '-' && expr[i - 1] == '(' {
        var k := NextClose(expr, i);
        if k < |expr| {
          PastEndFrom(expr, k, s.(temp := s.temp + expr[i..k]));
        } else {
          assert IsUnclosedSign(expr, i);
        }
      } else {
        PastEndFrom(expr, i + 1, Step(expr[i], s));
      }
    }
  }

  /** The parser reads beyond the end exactly of a text that is only a signed name, or in which a sign after an
      opening bracket has no closing bracket. */
  lemma ReadsPastEnd(expr: string, stack: seq<string>)
    ensures Parse(expr, stack) == ReadPastEnd <==> IsLoneSign(expr) || exists p: nat :: IsUnclosedSign(expr, p)
  {
    var s := Reading("", stack, []);
    if expr != "" {
      if expr[0] == '-' {
        var k := NextOperator(expr, 1);
        if k < |expr| {
          PastEndFrom(expr, k, s.(temp := s.temp + expr[..k]));
        }
      } else {
        PastEndFrom(expr, 1, Step(expr[0], s));
      }
    }
  }

  /** A number with a sign, on its own, is one of these. */
  lemma LoneSignReadsPastEnd(body: string)
    requires IsName(body)
    ensures Parse("-" + body, []) == ReadPastEnd
  {
    var expr := "-" + body;
    assert forall k | 1 <= k < |expr| :: expr[k] == body[k - 1];
    assert IsLoneSign(expr);
    ReadsPastEnd(expr, []);
  }

  /** Two of these: a bracket that is never closed, and a number on its own. */
  lemma OpenSignReadsPastEnd()
    ensures Parse("X*(-A", []) == ReadPastEnd && Parse("-A", []) == ReadPastEnd
  {
    assert IsUnclosedSign("X*(-A", 3) && IsLoneSign("-A");
    ReadsPastEnd("X*(-A", []);
    ReadsPastEnd("-A", []);
  }

  // The name of a result that has a negative number in it: the sign swallows what comes after it, or is read as an
  // operator.

  /** What is emitted stays emitted. */
  lemma {:induction false} OutGrows(expr: string, i: nat, s: Reading)
    requires 0 < i <= |expr|
    ensures ParseFrom(expr, i, s).Parsed? ==> s.out <= ParseFrom(expr, i, s).stack
    decreases |expr| - i
  {
    if i < |expr| {
      if expr[i] == '-' && expr[i - 1] == '(' {
        var k := NextClose(expr, i);
        if k < |expr| {
          OutGrows(expr, k, s.(temp := s.temp + expr[i..k]));
        }
      } else {
        OutGrows(expr, i + 1, Step(expr[i], s));
      }
    }
  }

  lemma StepKeepsToken(c: char, s: Reading)
    requires s.temp != ""
    ensures Step(c, s).temp == "" ==> s.out + [s.temp] <= Step(c, s).out
    ensures Step(c, s).temp != "" ==> Step(c, s).out == s.out && s.temp <= Step(c, s).temp
  {
  }

  /** A token is only ever made longer before it is emitted. */
  lemma {:induction false} TokenGrows(expr: string, i: nat, s: Reading)
    requires 0 < i <= |expr| && s.temp != ""
    ensures var r := ParseFrom(expr, i, s);
      r.Parsed? ==> |r.stack| > |s.out| && r.stack[..|s.out|] == s.out && s.temp <= r.stack[|s.out|]
    decreases |expr| - i
  {
    if i < |expr| {
      if expr[i] == '-' && expr[i - 1] == '(' {
        var k := NextClose(expr, i);
        if k < |expr| {
          TokenGrows(expr, k, s.(temp := s.temp + expr[i..k]));
        }
      } else {
        var t := Step(expr[i], s);
        StepKeepsToken(expr[i], s);
        if t.temp == "" {
          OutGrows(expr, i + 1, t);
        } else {
          TokenGrows(expr, i + 1, t);
        }
      }
    }
  }

  /** The tree is a negative number, in any brackets. */
  predicate IsSigned(e: Expr) {
    match e
    case Negative(_) => true
    case Leading(_) => true
    case Paren(inner) => IsSigned(inner)
    case _ => false
  }

  lemma {:induction false} SignedName(e: Expr, atStart: bool)
    requires e.WellFormed(atStart) && IsSigned(e)
    ensures e.Postfix() == [NameOf(e)] && |NameOf(e)| > 1 && NameOf(e)[0] == '-' && ')' !in NameOf(e)
  {
    if e.Paren? {
      SignedName(e.inner, false);
    }
  }

  /** The parser's result does not begin with `tokens`. */
  ghost predicate Misses(expr: string, i: nat, s: Reading, tokens: seq<string>)
    requires i <= |expr|
  {
    forall b {:trigger Use(b)} | Use(b) ::
      ParseFrom(expr, i, s).Parsed? ==> !(tokens <= ParseFrom(expr, i, s).stack)
  }

  lemma LeadsMisses(expr: string, i: nat, s: Reading, j: nat, t: Reading, tokens: seq<string>)
    requires i <= |expr| && j <= |expr| && Leads(expr, i, s, j, t)
    ensures Misses(expr, j, t, tokens) ==> Misses(expr, i, s, tokens)
  {
    assert Use(true);
  }

  lemma MissesMore(expr: string, i: nat, s: Reading, tokens: seq<string>, more: seq<string>)
    requires i <= |expr| && Misses(expr, i, s, tokens) && tokens <= more
    ensures Misses(expr, i, s, more)
  {
    assert Use(true);
  }

  /** A negative number on the left: its token takes in the operator after it. */
  lemma SignOnTheLeft(name: string, op: char, expr: string, i: nat, m: nat, ops: seq<string>, out: seq<string>,
                      program: seq<string>)
    requires 0 < i < m < |expr| && expr[i - 1] == '(' && expr[i..m] == name && expr[m] == op && IsOperator(op)
    requires name[0] == '-' && ')' !in name && program != [] && program[0] == name
    ensures Misses(expr, i, Reading("", ops, out), out + program)
  {
    var k := NextClose(expr, i);
    assert expr[i] == name[0];
    forall x | i <= x < m ensures expr[x] != ')' {
      assert expr[x] == name[x - i] && name[x - i] in name;
    }
    if k < |expr| {
      assert k > m;
      var temp := "" + expr[i..k];
      TokenGrows(expr, k, Reading(temp, ops, out));
      assert (out + program)[|out|] == name && |temp| > |name|;
    }
  }

  /** A negative number on the right: its sign is an operator, and makes the one before it leave. */
  lemma SignOnTheRight(name: string, op: char, expr: string, i: nat, ops: seq<string>, out: seq<string>,
                       program: seq<string>)
    requires 0 < i < |expr| && expr[i - 1] == op && expr[i] == '-' && IsOperator(op)
    requires |name| > 1 && program != [] && program[0] == name
    ensures Misses(expr, i, Reading("", [[op]] + ops, out), out + program)
  {
    var s := Reading("", [[op]] + ops, out);
    var t := Step('-', s);
    assert Outranked('-', s.ops) > 0;
    assert t.out[|out|] == [op] && out <= t.out;
    OutGrows(expr, i + 1, t);
    assert (out + program)[|out|] == name;
  }

  /** Anywhere in a longer text, the name of an operation with a negative number is not read as its program. */
  lemma {:induction false} NameMisses(e: Expr, atStart: bool, expr: string, i: nat, j: nat, ops: seq<string>,
                                      out: seq<string>)
    requires e.WellFormed(atStart) && !Unsigned(e) && !IsSigned(e)
    requires i <= j <= |expr| && expr[i..j] == NameOf(e)
    ensures Misses(expr, i, Reading("", ops, out), out + e.Postfix())
    decreases e, 1
  {
    match e
    case Paren(inner) => NameMisses(inner, false, expr, i, j, ops, out);
    case Binary(op, left, right) =>
      var m := NamePlaces(op, NameOf(left), NameOf(right), expr, i, j);
      var inside := ["("] + ops;
      OneStep(expr, i, Reading("", ops, out));
      assert out + left.Postfix() <= out + e.Postfix();
      if IsSigned(left) {
        SignedName(left, atStart);
        SignOnTheLeft(NameOf(left), op, expr, i + 1, m, inside, out, e.Postfix());
      } else if !Unsigned(left) {
        NameMisses(left, atStart, expr, i + 1, m, inside, out);
        MissesMore(expr, i + 1, Reading("", inside, out), out + left.Postfix(), out + e.Postfix());
      } else {
        RightMisses(op, left, right, atStart, expr, i + 1, m, j - 1, ops, out);
      }
  }

  lemma {:induction false} RightMisses(op: char, left: Expr, right: Expr, atStart: bool, expr: string, i: nat, m: nat,
                                       j: nat, ops: seq<string>, out: seq<string>)
    requires left.WellFormed(atStart) && right.WellFormed(false) && Unsigned(left) && !Unsigned(right) && IsOperator(op)
    requires 0 < i <= m < j <= |expr| && expr[i..m] == NameOf(left) && expr[m] == op && expr[m + 1..j] == NameOf(right)
    ensures Misses(expr, i, Reading("", ["("] + ops, out), out + (left.Postfix() + right.Postfix() + [[op]]))
    decreases right, 3
  {
    var inside, done := ["("] + ops, out + left.Postfix();
    var program := out + (left.Postfix() + right.Postfix() + [[op]]);
    LeftIsRead(left, atStart, op, expr, i, m, inside, out);
    LeadsMisses(expr, i, Reading("", inside, out), m + 1, Reading("", [[op]] + inside, done), program);
    ProgramInParts(out, left.Postfix(), right.Postfix(), [[op]]);
    ReadRight(op, right, expr, m + 1, j, inside, done);
  }

  lemma ProgramInParts<T>(out: seq<T>, l: seq<T>, r: seq<T>, op: seq<T>)
    ensures out + (l + r + op) == (out + l) + (r + op)
  {
  }

  lemma {:induction false} ReadRight(op: char, right: Expr, expr: string, i: nat, j: nat, ops: seq<string>, out: seq<string>)
    requires right.WellFormed(false) && !Unsigned(right) && IsOperator(op)
    requires 0 < i <= j <= |expr| && expr[i..j] == NameOf(right) && expr[i - 1] == op
    ensures Misses(expr, i, Reading("", [[op]] + ops, out), out + (right.Postfix() + [[op]]))
    decreases right, 2
  {
    if IsSigned(right) {
      SignedName(right, false);
      assert expr[i] == NameOf(right)[0];
      SignOnTheRight(NameOf(right), op, expr, i, ops, out, right.Postfix() + [[op]]);
    } else {
      NameMisses(right, false, expr, i, j, [[op]] + ops, out);
      MissesMore(expr, i, Reading("", [[op]] + ops, out), out + right.Postfix(), out + (right.Postfix() + [[op]]));
    }
  }

  /** A left operand without negative numbers is read as its program, and the operator after it waits. */
  lemma {:induction false} LeftIsRead(left: Expr, atStart: bool, op: char, expr: string, i: nat, m: nat,
                                      ops: seq<string>, out: seq<string>)
    requires left.WellFormed(atStart) && Unsigned(left) && IsOperator(op)
    requires 0 < i <= m < |expr| && expr[i..m] == NameOf(left) && expr[m] == op && Fits(ops, Priority(op)) && Fits(ops, 3)
    ensures Leads(expr, i, Reading("", ops, out), m + 1, Reading("", [[op]] + ops, out + left.Postfix()))
  {
    BracketedIsNamed(left, atStart);
    BracketedIsRead(Bracketed(left), op, expr, i, m, ops, out);
  }

  lemma BracketedIsRead(b: Expr, op: char, expr: string, i: nat, m: nat, ops: seq<string>, out: seq<string>)
    requires b.WellFormed(false) && !b.Binary? && !b.Leading? && IsOperator(op)
    requires 0 < i <= m < |expr| && expr[i..m] == b.Print() && expr[m] == op && Fits(ops, Priority(op)) && Fits(ops, 3)
    ensures Leads(expr, i, Reading("", ops, out), m + 1, Reading("", [[op]] + ops, out + b.Postfix()))
  {
    PrintEnds(b, false);
    ScanTree(b, expr, i, m, ops, out);
    assert expr[m - 1] == expr[i..m][m - 1 - i];
    ScanOperator(b, op, expr, m, ops, out, false);
    PartsMakePostfix(b, false);
    LeadsOn(expr, i, Reading("", ops, out), m, Reading(Held(b), Pending(b) + ops, out + Emitted(b)),
            m + 1, Reading("", [[op]] + ops, out + b.Postfix()));
  }

  lemma NamePlaces(op: char, l: string, r: string, expr: string, i: nat, j: nat) returns (m: nat)
    requires i <= j <= |expr| && expr[i..j] == "(" + l + [op] + r + ")"
    ensures i < m && m + 1 < j && expr[i] == '(' && expr[i + 1..m] == l && expr[m] == op && expr[m + 1..j - 1] == r
  {
    m := i + 1 + |l|;
    Slices(expr, i, j, "(" + l + [op] + r, ")");
    Slices(expr, i, j - 1, "(" + l + [op], r);
    Slices(expr, i, m + 1, "(" + l, [op]);
    Slices(expr, i, m, "(", l);
    assert expr[i] == expr[i..i + 1][0] && expr[m] == expr[m..m + 1][0];
  }

  lemma OtherToken(a: string, b: string)
    requires |a| != |b|
    ensures !([a] <= [b])
  {
    assert [a][0] != [b][0];
  }

  /** A negative number on its own is cut at its first operator, or read beyond its end. */
  lemma SignedNameMisses(name: string)
    requires |name| > 1 && name[0] == '-' && ')' !in name
    ensures Parse(name, []) != Parsed([name])
  {
    var k := NextOperator(name, 1);
    if k < |name| {
      var s := Reading("" + name[..k], [], []);
      if name[k] == '-' && name[k - 1] == '(' {
        assert forall x | k <= x < |name| :: name[x] in name;
        assert IsUnclosedSign(name, k);
        ReadsPastEnd(name, []);
      } else {
        var t := Step(name[k], s);
        assert s.temp == name[..k] && t.out == [] + [name[..k]] + [] == [name[..k]];
        OneStep(name, k, s);
        OutGrows(name, k + 1, t);
        OtherToken(name[..k], name);
      }
    }
  }

  /** The stored name of a result parses back to its program exactly when it has no negative number. */
  lemma {:induction false} RoundTripExactly(e: Expr, atStart: bool)
    requires e.WellFormed(atStart)
    ensures Parse(NameOf(e), []) == Parsed(e.Postfix()) <==> Unsigned(e)
  {
    var name := NameOf(e);
    if Unsigned(e) {
      RoundTrip(e, atStart);
    } else if IsSigned(e) {
      SignedIsNotUnsigned(e);
      SignedName(e, atStart);
      SignedNameMisses(name);
    } else {
      assert name[0..|name|] == name && [] + e.Postfix() == e.Postfix();
      NameMisses(e, atStart, name, 0, |name|, [], []);
      assert Use(true);
    }
  }

  lemma {:induction false} SignedIsNotUnsigned(e: Expr)
    requires IsSigned(e)
    ensures !Unsigned(e)
  {
    if e.Paren? {
      SignedIsNotUnsigned(e.inner);
    }
  }

  /** "(-A+B)" becomes the single token "-A+B", under which its value is stored, and which parses back to another
      program. */
  lemma SignSwallowsSum()
    ensures Parse("(-A+B)", []) == Parsed(["-A+B"])
    ensures NameOf(Negative("A+B")) == "-A+B" && Parse("-A+B", []) != Parsed(["-A+B"])
  {
    assert "(-" + "A+B" + ")" == "(-A+B)" && "-" + "A+B" == "-A+B";
    ParsesTree(Negative("A+B"));
    RoundTripExactly(Negative("A+B"), false);
  }

  // What the check lets through.

  lemma {:induction false} CountIsBounded(p: seq<string>)
    ensures OperatorCount(p) <= |p|
  {
    if p != [] {
      CountIsBounded(p[1..]);
    }
  }

  lemma {:induction false} CountByToken(p: seq<string>)
    ensures OperatorCount(p) == multiset(p)["+"] + multiset(p)["-"] + multiset(p)["*"] + multiset(p)["/"]
  {
    if p != [] {
      CountByToken(p[1..]);
      assert p == [p[0]] + p[1..];
      assert multiset(p) == multiset([p[0]]) + multiset(p[1..]);
    }
  }

  /** A program is accepted exactly when it has no bracket and one more operand than operators, of which there are
      fewer than 65536; or when it is 131071 operators, which a 16-bit count takes for 65535. */
  lemma AcceptsExactly(p: seq<string>)
    ensures var n := multiset(p)["+"] + multiset(p)["-"] + multiset(p)["*"] + multiset(p)["/"];
      && n == OperatorCount(p)
      && (Accepts(p) <==>
            && (forall token | token in p :: '(' !in token && ')' !in token)
            && ((|p| == 2 * n + 1 && n < 0x1_0000) || |p| == n == 131071))
  {
    CountByToken(p);
    CountIsBounded(p);
    CountWraps(|p|, OperatorCount(p));
    if forall token | token in p :: '(' !in token && ')' !in token {
      assert forall k | 0 <= k < |p| :: p[k] in p;
    }
  }

  lemma CountWraps(n: nat, c: nat)
    requires c <= n
    ensures n - c % 0x1_0000 == c % 0x1_0000 + 1 <==> (n == 2 * c + 1 && c < 0x1_0000) || n == c == 131071
  {
  }

  lemma {:induction false} AllOperators(n: nat)
    ensures OperatorCount(seq(n, i => "+")) == n && Unbracketed(seq(n, i => "+"))
  {
    if n > 0 {
      AllOperators(n - 1);
      assert seq(n, i => "+")[1..] == seq(n - 1, i => "+");
    }
  }

  /** The program of 131071 operators is accepted, and lacks an operand at once. */
  lemma BareOperatorsAreAccepted()
    ensures Accepts(seq(131071, i => "+")) && !Executable(seq(131071, i => "+"), 0)
  {
    AllOperators(131071);
  }

  /** With `h` operands on the stack, the operands never run out: every nonempty prefix, with them, has more operands
      than operators. */
  ghost predicate IsFed(p: seq<string>, h: nat) {
    forall k | 0 < k <= |p| :: OperatorCount(p[..k]) < h + k - OperatorCount(p[..k])
  }

  lemma PrefixCount(p: seq<string>, k: nat)
    requires p != [] && k < |p|
    ensures OperatorCount(p[..k + 1]) == (if IsOperatorToken(p[0]) then 1 else 0) + OperatorCount(p[1..][..k])
  {
    assert p[..k + 1] == [p[0]] + p[1..][..k];
    assert ([p[0]] + p[1..][..k])[1..] == p[1..][..k];
  }

  /** A program is executable exactly when the operands never run out; its height is then the difference. */
  lemma {:induction false} ExecutableIsFed(p: seq<string>, h: nat)
    ensures Executable(p, h) <==> IsFed(p, h)
    ensures Executable(p, h) ==> Height(p, h) == h + |p| - 2 * OperatorCount(p)
  {
    if p != [] {
      var rest := p[1..];
      var isOp := IsOperatorToken(p[0]);
      forall k | 0 <= k < |p|
        ensures OperatorCount(p[..k + 1]) == (if isOp then 1 else 0) + OperatorCount(rest[..k])
      {
        PrefixCount(p, k);
      }
      if !isOp {
        ExecutableIsFed(rest, h + 1);
        FedAfter(p, h, h + 1);
      } else if h >= 2 {
        ExecutableIsFed(rest, h - 1);
        FedAfter(p, h, h - 1);
      } else {
        assert OperatorCount(rest[..0]) == 0;
        assert OperatorCount(p[..1]) == 1;
      }
    }
  }

  lemma FedAfter(p: seq<string>, h: nat, next: nat)
    requires p != [] && next > 0 && next == if IsOperatorToken(p[0]) then h - 1 else h + 1
    ensures IsFed(p, h) <==> IsFed(p[1..], next)
  {
    var rest := p[1..];
    forall k | 0 <= k < |p|
      ensures OperatorCount(p[..k + 1]) == (if IsOperatorToken(p[0]) then 1 else 0) + OperatorCount(rest[..k])
    {
      PrefixCount(p, k);
    }
    if IsFed(p, h) {
      forall k | 0 < k <= |rest| ensures OperatorCount(rest[..k]) < next + k - OperatorCount(rest[..k]) {
        assert OperatorCount(p[..k + 1]) < h + (k + 1) - OperatorCount(p[..k + 1]);
      }
    }
    if IsFed(rest, next) {
      forall k | 0 < k <= |p| ensures OperatorCount(p[..k]) < h + k - OperatorCount(p[..k]) {
        assert OperatorCount(p[..(k - 1) + 1]) == (if IsOperatorToken(p[0]) then 1 else 0) + OperatorCount(rest[..k - 1]);
        if k == 1 {
          assert rest[..0] == [];
        }
      }
    }
  }

  /** An accepted program can be run, whatever its operands are worth, exactly when its operands never run out; and
      then one value is left. If nothing faults, an operator lacks an operand exactly otherwise. */
  lemma AcceptedRuns<V>(p: seq<string>, leaf: string -> Option<V>, apply: (nat, char, V, V) -> Option<V>)
    requires Accepts(p)
    ensures Executable(p, 0) <==> IsFed(p, 0)
    ensures Executable(p, 0) ==> Height(p, 0) == 1
    ensures var run := Evaluate(p, [], [], map[], leaf, apply);
      !run.Faulted? ==> (run.Underflow? <==> !IsFed(p, 0))
  {
    ExecutableIsFed(p, 0);
    AcceptsExactly(p);
    SafeRun(p, [], [], map[], leaf, apply);
    if |p| == OperatorCount(p) == 131071 {
      assert p[..|p|] == p;
    }
  }

  lemma ParsesIllFormed()
    ensures Parse("(A+)B", []) == Parsed(["A", "+", "B"])
  {
    var x := "(A+)B";
    var s1 := Reading("", ["("], []);
    var s2 := Reading("A", ["("], []);
    var s3 := Reading("", ["+", "("], ["A"]);
    var s4 := Reading("", [], ["A", "+"]);
    assert Step('(', Reading("", [], [])) == s1 && Step('A', s1) == s2;
    assert Step('+', s2) == s3;
    assert AboveBracket(s3.ops) == 1 by { assert s3.ops[1..] == ["("]; }
    assert Step(')', s3) == s4;
    assert ParseFrom(x, 2, s2) == ParseFrom(x, 3, s3) == ParseFrom(x, 4, s4);
    assert Step('B', s4) == Reading("B", [], ["A", "+"]);
    OneStep(x, 4, s4);
    assert ParseFrom(x, 5, Reading("B", [], ["A", "+"])) == Parsed(["A", "+", "B"]);
  }

  /** "(A+)B" is accepted, and its program underflows at its operator, whatever its first operand is worth. */
  lemma AcceptedButIllFormed<V>(leaf: string -> Option<V>, apply: (nat, char, V, V) -> Option<V>)
    ensures Parse("(A+)B", []) == Parsed(["A", "+", "B"]) && Accepts(["A", "+", "B"])
    ensures !Executable(["A", "+", "B"], 0)
    ensures Evaluate(["A", "+", "B"], [], [], map[], leaf, apply) == if leaf("A").Some? then Underflow else Faulted
  {
    ParsesIllFormed();
    IllFormedCounts();
    IllFormedUnderflows(leaf, apply);
  }

  lemma IllFormedCounts()
    ensures Accepts(["A", "+", "B"]) && !Executable(["A", "+", "B"], 0)
  {
    assert ["A", "+", "B"][1..] == ["+", "B"] && ["+", "B"][1..] == ["B"] && ["B"][1..] == [];
    assert OperatorCount(["+", "B"]) == 1;
  }

  lemma IllFormedUnderflows<V>(leaf: string -> Option<V>, apply: (nat, char, V, V) -> Option<V>)
    ensures Evaluate(["A", "+", "B"], [], [], map[], leaf, apply) == if leaf("A").Some? then Underflow else Faulted
  {
    assert ["A", "+", "B"][1..] == ["+", "B"] && [] + ["A"] == ["A"];
  }

  /** The text up to its last character, which is plain, an operator or a bracket, from there. */
  lemma ReadsSum(text: string, i: nat, ops: seq<string>)
    requires i + 3 <= |text| && text[i] == 'A' && text[i + 1] == '+' && text[i + 2] == 'B'
    requires ops == [] || ops == ["("]
    ensures ParseFrom(text, i, Reading("", ops, [])) == ParseFrom(text, i + 3, Reading("B", ["+"] + ops, ["A"]))
  {
    var s1, s2, s3 := Reading("A", ops, []), Reading("", ["+"] + ops, ["A"]), Reading("B", ["+"] + ops, ["A"]);
    assert Step('A', Reading("", ops, [])) == s1 && Step('+', s1) == s2 && Step('B', s2) == s3;
    OneStep(text, i, Reading("", ops, []));
    OneStep(text, i + 1, s1);
    OneStep(text, i + 2, s2);
  }

  /** A closing bracket too many goes unnoticed: "A+B)" is parsed like "A+B", and accepted. */
  lemma ExtraBracketIsAccepted(text: string)
    requires |text| == 4 && text[0] == 'A' && text[1] == '+' && text[2] == 'B' && text[3] == ')'
    ensures Parse(text, []) == Parsed(["A", "B", "+"]) && Accepts(["A", "B", "+"])
  {
    ReadsSum(text, 0, []);
    assert ["+"] + [] == ["+"];
    ExtraClose(text, 3);
    SumIsAccepted();
  }

  lemma SumIsParsed(text: string)
    requires |text| == 3 && text[0] == 'A' && text[1] == '+' && text[2] == 'B'
    ensures Parse(text, []) == Parsed(["A", "B", "+"])
  {
    ReadsSum(text, 0, []);
    assert ["+"] + [] == ["+"] && Flush("B") == ["B"];
    assert ["A"] + ["B"] + ["+"] == ["A", "B", "+"];
  }

  lemma ExtraClose(text: string, i: nat)
    requires i + 1 == |text| && text[i] == ')'
    ensures ParseFrom(text, i, Reading("B", ["+"], ["A"])) == Parsed(["A", "B", "+"])
  {
    var s := Reading("B", ["+"], ["A"]);
    assert ["+"][1..] == [] && AboveBracket(["+"]) == 1;
    assert Step(')', s) == Reading("", [], ["A", "B", "+"]);
    OneStep(text, i, s);
  }

  lemma SumIsAccepted()
    ensures Accepts(["A", "B", "+"])
  {
    assert ["A", "B", "+"][1..] == ["B", "+"] && ["B", "+"][1..] == ["+"] && ["+"][1..] == [];
    assert OperatorCount(["B", "+"]) == 1;
  }

  /** An opening bracket too many stays on the stack: "(A+B" is refused. */
  lemma UnclosedBracketIsRefused(text: string)
    requires |text| == 4 && text[0] == '(' && text[1] == 'A' && text[2] == '+' && text[3] == 'B'
    ensures Parse(text, []) == Parsed(["A", "B", "+", "("]) && !Accepts(["A", "B", "+", "("])
  {
    var s := Reading("", [], []);
    assert ["("] + [] == ["("];
    OneStep(text, 0, s);
    ReadsSum(text, 1, ["("]);
    assert ["A"] + ["B"] + (["+"] + ["("]) == ["A", "B", "+", "("];
    BracketIsRefused(["A", "B", "+", "("], 3);
  }

  lemma BracketIsRefused(p: seq<string>, k: nat)
    requires k < |p| && p[k] == "("
    ensures !Accepts(p)
  {
    assert p[k][0] == '(' && HasBracket(p[k]);
  }

  /** "(-(A)" is the negative number "-(A", well-formed, and refused. */
  lemma SwallowedBracketIsRefused()
    ensures Parse("(-(A)", []) == Parsed(["-(A"]) && !Accepts(["-(A"])
  {
    assert "(-" + "(A" + ")" == "(-(A)" && "-" + "(A" == "-(A";
    ParsesTree(Negative("(A"));
    AcceptsTree(Negative("(A"), true);
    assert '(' == "(A"[0];
  }
}
