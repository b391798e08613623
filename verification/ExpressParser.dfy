/**
 The shunting-yard parser of the expression executor, as a function of the text and as
 the loop that runs it, with the proof that it emits the postfix program of the tree.

 The operator stack is listed from its top; the output stack is listed from its bottom.
 The two are joined at the end, so the joined stack, read from the top, is the program.
 */
module ExpressParser {
  import opened Facts
  import opened ExpressSyntax

  datatype Reading = Reading(temp: string, ops: seq<string>, out: seq<string>)

  /** `ReadPastEnd`: the text made the parser read beyond its end, so nothing is promised. */
  datatype ParseResult = Parsed(stack: seq<string>) | ReadPastEnd

  function First(token: string): char {
    if token == "" then '\0' else token[0]
  }

  function Flush(temp: string): seq<string> {
    if temp == "" then [] else [temp]
  }

  /** How many pending operators leave before operator `c` is pushed. */
  function Outranked(c: char, ops: seq<string>): (n: nat)
    ensures n <= |ops|
  {
    if ops == [] || First(ops[0]) == '(' || Priority(c) > Priority(First(ops[0])) then 0
    else 1 + Outranked(c, ops[1..])
  }

  /** How many pending operators lie above the innermost open bracket. */
  function AboveBracket(ops: seq<string>): (n: nat)
    ensures n <= |ops|
  {
    if ops == [] || First(ops[0]) == '(' then 0 else 1 + AboveBracket(ops[1..])
  }

  /** First operator at or after `i`; the length of the text when there is none. */
  function NextOperator(expr: string, i: nat): (k: nat)
    requires i <= |expr|
    ensures i <= k <= |expr|
    ensures forall m | i <= m < k :: !IsOperator(expr[m])
    ensures k < |expr| ==> IsOperator(expr[k])
    decreases |expr| - i
  {
    if i == |expr| || IsOperator(expr[i]) then i else NextOperator(expr, i + 1)
  }

  function NextClose(expr: string, i: nat): (k: nat)
    requires i <= |expr|
    ensures i <= k <= |expr|
    ensures forall m | i <= m < k :: expr[m] != ')'
    ensures k < |expr| ==> expr[k] == ')'
    decreases |expr| - i
  {
    if i == |expr| || expr[i] == ')' then i else NextClose(expr, i + 1)
  }

  function Step(c: char, s: Reading): Reading {
    if IsOperator(c) then
      var n := Outranked(c, s.ops);
      Reading("", [[c]] + s.ops[n..], s.out + Flush(s.temp) + s.ops[..n])
    else if c == '(' then
      s.(ops := ["("] + s.ops)
    else if c == ')' then
      var n := AboveBracket(s.ops);
      var rest := if n < |s.ops| then s.ops[n + 1..] else [];
      if n == 0 then s.(ops := rest)
      else Reading("", rest, s.out + Flush(s.temp) + s.ops[..n])
    else
      s.(temp := s.temp + [c])
  }

  /** The parser from position `i` on. */
  function ParseFrom(expr: string, i: nat, s: Reading): ParseResult
    requires i <= |expr|
    decreases |expr| - i
  {
    if i == |expr| then
      Parsed(s.out + Flush(s.temp) + s.ops)
    else if expr[i] == '-' && i == 0 then
      var k := NextOperator(expr, 1);
      if k == |expr| then ReadPastEnd else ParseFrom(expr, k, s.(temp := s.temp + expr[..k]))
    else if expr[i] == '-' && expr[i - 1] == '(' then
      var k := NextClose(expr, i);
      if k == |expr| then ReadPastEnd else ParseFrom(expr, k, s.(temp := s.temp + expr[i..k]))
    else
      ParseFrom(expr, i + 1, Step(expr[i], s))
  }

  function Parse(expr: string, stack: seq<string>): ParseResult {
    ParseFrom(expr, 0, Reading("", stack, []))
  }

  // What is held back, kept pending and already emitted once a tree has been read.

  function Held(e: Expr): string {
    match e
    case Atom(name) => name
    case Negative(body) => "-" + body
    case Leading(body) => "-" + body
    case Paren(inner) => if Pending(inner) == [] then Held(inner) else ""
    case Binary(op, left, right) => Held(right)
  }

  function Pending(e: Expr): seq<string> {
    match e
    case Binary(op, left, right) => Pending(right) + [[op]]
    case _ => []
  }

  function Emitted(e: Expr): seq<string> {
    match e
    case Paren(inner) =>
      if Pending(inner) == [] then Emitted(inner)
      else Emitted(inner) + Flush(Held(inner)) + Pending(inner)
    case Binary(op, left, right) =>
      Emitted(left) + Flush(Held(left)) + Pending(left) + Emitted(right)
    case _ => []
  }

  lemma Regroup<T>(a: seq<T>, b: seq<T>, c: seq<T>, d: seq<T>, e: seq<T>)
    ensures a + b + c + (d + e) == a + (b + c + d) + e
  {
  }

  lemma {:induction false} PartsMakePostfix(e: Expr, atStart: bool)
    requires e.WellFormed(atStart)
    ensures Emitted(e) + Flush(Held(e)) + Pending(e) == e.Postfix()
  {
    match e
    case Paren(inner) => PartsMakePostfix(inner, false);
    case Binary(op, left, right) =>
      PartsMakePostfix(left, atStart);
      PartsMakePostfix(right, false);
      Regroup(left.Postfix(), Emitted(right), Flush(Held(right)), Pending(right), [[op]]);
    case _ =>
  }

  /** The pending operators bind at least as tightly as the tree, and none is a bracket. */
  lemma {:induction false} PendingRank(e: Expr, atStart: bool)
    requires e.WellFormed(atStart)
    ensures forall k | 0 <= k < |Pending(e)| ::
              IsOperatorToken(Pending(e)[k]) && Priority(First(Pending(e)[k])) >= e.Level()
  {
    if e.Binary? {
      PendingRank(e.right, false);
    }
  }

  lemma {:induction false} OutrankedPrefix(c: char, p: seq<string>, ops: seq<string>)
    requires forall k | 0 <= k < |p| :: First(p[k]) != '(' && Priority(First(p[k])) >= Priority(c)
    requires Fits(ops, Priority(c))
    ensures Outranked(c, p + ops) == |p|
  {
    if p == [] {
      assert p + ops == ops;
    } else {
      assert (p + ops)[1..] == p[1..] + ops;
      OutrankedPrefix(c, p[1..], ops);
    }
  }

  lemma {:induction false} AboveBracketPrefix(p: seq<string>, ops: seq<string>)
    requires forall k | 0 <= k < |p| :: First(p[k]) != '('
    ensures AboveBracket(p + ["("] + ops) == |p|
  {
    if p == [] {
      assert p + ["("] + ops == ["("] + ops;
    } else {
      assert (p + ["("] + ops)[1..] == p[1..] + ["("] + ops;
      AboveBracketPrefix(p[1..], ops);
    }
  }

  /** The operators already waiting bind less tightly than what is read next. */
  predicate Fits(ops: seq<string>, level: nat) {
    ops == [] || First(ops[0]) == '(' || Priority(First(ops[0])) < level
  }

  /** The parse from one point comes to the same as from another. */
  ghost predicate Leads(expr: string, i: nat, s: Reading, j: nat, t: Reading)
    requires i <= |expr| && j <= |expr|
  {
    forall b {:trigger Use(b)} | Use(b) :: ParseFrom(expr, i, s) == ParseFrom(expr, j, t)
  }

  lemma LeadsOn(expr: string, i: nat, s: Reading, j: nat, t: Reading, k: nat, u: Reading)
    requires i <= |expr| && j <= |expr| && k <= |expr| && Leads(expr, i, s, j, t) && Leads(expr, j, t, k, u)
    ensures Leads(expr, i, s, k, u)
  {
  }

  lemma {:induction false} ScanName(expr: string, i: nat, j: nat, s: Reading)
    requires i <= j <= |expr|
    requires forall k | i <= k < j :: IsPlain(expr[k])
    ensures ParseFrom(expr, i, s) == ParseFrom(expr, j, s.(temp := s.temp + expr[i..j]))
    decreases j - i
  {
    if i == j {
      assert s.temp + expr[i..j] == s.temp;
    } else {
      ScanName(expr, i + 1, j, Step(expr[i], s));
      assert s.temp + [expr[i]] + expr[i + 1..j] == s.temp + expr[i..j];
    }
  }

  lemma NextCloseAt(expr: string, i: nat, j: nat)
    requires i <= j < |expr| && expr[j] == ')'
    requires forall m | i <= m < j :: expr[m] != ')'
    ensures NextClose(expr, i) == j
  {
  }

  lemma NextOperatorAt(expr: string, i: nat, j: nat)
    requires i <= j < |expr| && IsOperator(expr[j])
    requires forall m | i <= m < j :: !IsOperator(expr[m])
    ensures NextOperator(expr, i) == j
  {
  }

  lemma Slices(expr: string, i: nat, j: nat, a: string, b: string)
    requires i <= j <= |expr| && expr[i..j] == a + b
    ensures i + |a| <= j && expr[i..i + |a|] == a && expr[i + |a|..j] == b
  {
    assert |expr[i..j]| == |a| + |b|;
    assert expr[i..i + |a|] == expr[i..j][..|a|];
    assert expr[i + |a|..j] == expr[i..j][|a|..];
  }

  /** Reading the text of a tree leaves exactly its three parts. */
  lemma {:induction false} ScanTree(e: Expr, expr: string, i: nat, j: nat, ops: seq<string>, out: seq<string>)
    requires i <= j <= |expr| && expr[i..j] == e.Print()
    requires e.WellFormed(i == 0)
    requires e.Leading? ==> j < |expr| && IsOperator(expr[j])
    requires Fits(ops, e.Level())
    ensures Leads(expr, i, Reading("", ops, out), j, Reading(Held(e), Pending(e) + ops, out + Emitted(e)))
    decreases e
  {
    assert out + [] == out && [] + ops == ops;
    match e
    case Atom(name) =>
      forall k | i <= k < j ensures IsPlain(expr[k]) {
        assert expr[k] == expr[i..j][k - i];
      }
      ScanName(expr, i, j, Reading("", ops, out));
      assert "" + expr[i..j] == name;
    case Leading(body) =>
      forall k | 1 <= k < j ensures !IsOperator(expr[k]) {
        assert expr[k] == expr[i..j][k];
      }
      NextOperatorAt(expr, 1, j);
      assert expr[0] == expr[i..j][0] && expr[..j] == "" + expr[..j] == expr[i..j];
    case Negative(body) => ScanNegative(body, expr, i, j, ops, out);
    case Paren(inner) => ScanParen(e, expr, i, j, ops, out);
    case Binary(op, left, right) => ScanBinary(e, expr, i, j, ops, out);
  }

  lemma {:induction false} ScanNegative(body: string, expr: string, i: nat, j: nat, ops: seq<string>, out: seq<string>)
    requires i <= j <= |expr| && expr[i..j] == "(-" + body + ")"
    requires IsSwallowed(body)
    ensures ParseFrom(expr, i, Reading("", ops, out)) == ParseFrom(expr, j, Reading("-" + body, ops, out))
  {
    var text := "(-" + body + ")";
    forall k | i <= k < j ensures expr[k] == text[k - i] {
      assert expr[k] == expr[i..j][k - i];
    }
    var s := Reading("", ["("] + ops, out);
    NextCloseAt(expr, i + 1, j - 1);
    assert expr[i + 1..j - 1] == "-" + body;
    assert ParseFrom(expr, i, Reading("", ops, out)) == ParseFrom(expr, i + 1, s);
    var t := s.(temp := "-" + body);
    assert "" + expr[i + 1..j - 1] == "-" + body;
    assert ParseFrom(expr, i + 1, s) == ParseFrom(expr, j - 1, t);
    assert AboveBracket(t.ops) == 0 && t.ops[1..] == ops;
  }

  lemma OneStep(expr: string, i: nat, s: Reading)
    requires i < |expr|
    requires expr[i] == '-' ==> i > 0 && expr[i - 1] != '('
    ensures ParseFrom(expr, i, s) == ParseFrom(expr, i + 1, Step(expr[i], s))
  {
  }

  lemma StepTo(expr: string, i: nat, s: Reading)
    requires i < |expr|
    requires expr[i] == '-' ==> i > 0 && expr[i - 1] != '('
    ensures Leads(expr, i, s, i + 1, Step(expr[i], s))
  {
  }

  /** Reading ')' flushes what is inside the brackets, unless nothing is pending there. */
  lemma {:induction false} StepClose(inner: Expr, ops: seq<string>, out: seq<string>)
    requires inner.WellFormed(false)
    ensures Step(')', Reading(Held(inner), Pending(inner) + (["("] + ops), out + Emitted(inner)))
         == Reading(Held(Paren(inner)), ops, out + Emitted(Paren(inner)))
  {
    PendingRank(inner, false);
    CloseStep(Pending(inner), Held(inner), Emitted(inner), ops, out);
  }

  lemma CloseStep(p: seq<string>, held: string, emitted: seq<string>, ops: seq<string>, out: seq<string>)
    requires forall k | 0 <= k < |p| :: First(p[k]) != '('
    ensures Step(')', Reading(held, p + (["("] + ops), out + emitted))
         == if p == [] then Reading(held, ops, out + emitted) else Reading("", ops, out + (emitted + Flush(held) + p))
  {
    var all := p + (["("] + ops);
    assert all == p + ["("] + ops;
    AboveBracketPrefix(p, ops);
    assert all[..|p|] == p && all[|p| + 1..] == ops;
    assert out + emitted + Flush(held) + p == out + (emitted + Flush(held) + p);
  }

  lemma BracketsAt(inner: string, expr: string, i: nat, j: nat)
    requires i <= j <= |expr| && expr[i..j] == "(" + inner + ")"
    ensures i + 1 < j && expr[i] == '(' && expr[j - 1] == ')' && expr[i + 1..j - 1] == inner
  {
    Slices(expr, i, j, "(" + inner, ")");
    Slices(expr, i, j - 1, "(", inner);
    assert expr[i] == expr[i..i + 1][0] && expr[j - 1] == expr[j - 1..j][0];
  }

  lemma {:induction false} ScanParen(e: Expr, expr: string, i: nat, j: nat, ops: seq<string>, out: seq<string>)
    requires e.Paren? && i <= j <= |expr| && expr[i..j] == e.Print()
    requires e.inner.WellFormed(false)
    ensures Leads(expr, i, Reading("", ops, out), j, Reading(Held(e), ops, out + Emitted(e)))
    decreases e, 0
  {
    var inner := e.inner;
    BracketsAt(inner.Print(), expr, i, j);
    var s := Reading(Held(inner), Pending(inner) + (["("] + ops), out + Emitted(inner));
    StepTo(expr, i, Reading("", ops, out));
    ScanTree(inner, expr, i + 1, j - 1, ["("] + ops, out);
    StepClose(inner, ops, out);
    StepTo(expr, j - 1, s);
    LeadsOn(expr, i, Reading("", ops, out), i + 1, Reading("", ["("] + ops, out), j - 1, s);
    LeadsOn(expr, i, Reading("", ops, out), j - 1, s, j, Reading(Held(e), ops, out + Emitted(e)));
  }

  /** Reading the operator of a tree flushes all of its left side. */
  lemma {:induction false} StepOperator(left: Expr, atStart: bool, op: char, ops: seq<string>, out: seq<string>)
    requires left.WellFormed(atStart) && IsOperator(op) && left.Level() >= Priority(op) && Fits(ops, Priority(op))
    ensures Step(op, Reading(Held(left), Pending(left) + ops, out + Emitted(left)))
         == Reading("", [[op]] + ops, out + (Emitted(left) + Flush(Held(left)) + Pending(left)))
  {
    var p := Pending(left);
    PendingRank(left, atStart);
    OutrankedPrefix(op, p, ops);
    assert (p + ops)[..|p|] == p && (p + ops)[|p|..] == ops;
    assert out + Emitted(left) + Flush(Held(left)) + p == out + (Emitted(left) + Flush(Held(left)) + p);
  }

  /** Where the operator of a tree stands in its text. */
  lemma {:induction false} OperatorAt(e: Expr, expr: string, i: nat, j: nat)
    requires e.Binary? && i <= j <= |expr| && expr[i..j] == e.Print()
    requires e.WellFormed(i == 0)
    ensures var m := i + |e.left.Print()|;
      && i < m < j && expr[i..m] == e.left.Print() && expr[m] == e.op && expr[m + 1..j] == e.right.Print()
      && expr[m - 1] != '('
  {
    var left, right := e.left.Print(), e.right.Print();
    var m := i + |left|;
    Slices(expr, i, j, left + [e.op], right);
    Slices(expr, i, m + 1, left, [e.op]);
    PrintEnds(e.left, i == 0);
    assert expr[m] == expr[m..m + 1][0] && expr[m - 1] == expr[i..m][m - 1 - i];
  }

  lemma {:induction false} ScanOperator(left: Expr, op: char, expr: string, m: nat, ops: seq<string>, out: seq<string>,
                                        atStart: bool)
    requires left.WellFormed(atStart) && IsOperator(op) && left.Level() >= Priority(op) && Fits(ops, Priority(op))
    requires 0 < m < |expr| && expr[m] == op && expr[m - 1] != '('
    ensures Leads(expr, m, Reading(Held(left), Pending(left) + ops, out + Emitted(left)),
                  m + 1, Reading("", [[op]] + ops, out + (Emitted(left) + Flush(Held(left)) + Pending(left))))
  {
    StepOperator(left, atStart, op, ops, out);
    StepTo(expr, m, Reading(Held(left), Pending(left) + ops, out + Emitted(left)));
  }

  /** The state after the right side of a tree is the state after the tree. */
  lemma PartsOfBinary(op: char, left: Expr, right: Expr, ops: seq<string>, out: seq<string>)
    ensures var e := Binary(op, left, right);
      Reading(Held(right), Pending(right) + ([[op]] + ops),
           out + (Emitted(left) + Flush(Held(left)) + Pending(left)) + Emitted(right))
      == Reading(Held(e), Pending(e) + ops, out + Emitted(e))
  {
    assert Pending(right) + ([[op]] + ops) == Pending(right) + [[op]] + ops;
    var l, r := Emitted(left) + Flush(Held(left)) + Pending(left), Emitted(right);
    assert out + l + r == out + (l + r);
  }

  lemma {:induction false} ScanBinary(e: Expr, expr: string, i: nat, j: nat, ops: seq<string>, out: seq<string>)
    requires e.Binary? && i <= j <= |expr| && expr[i..j] == e.Print()
    requires e.WellFormed(i == 0) && Fits(ops, e.Level())
    ensures Leads(expr, i, Reading("", ops, out), j, Reading(Held(e), Pending(e) + ops, out + Emitted(e)))
    decreases e, 0
  {
    var Binary(op, left, right) := e;
    var m := i + |left.Print()|;
    OperatorAt(e, expr, i, j);
    ScanTree(left, expr, i, m, ops, out);
    ScanOperator(left, op, expr, m, ops, out, i == 0);
    ScanTree(right, expr, m + 1, j, [[op]] + ops, out + (Emitted(left) + Flush(Held(left)) + Pending(left)));
    PartsOfBinary(op, left, right, ops, out);
    var start, end := Reading("", ops, out), Reading(Held(e), Pending(e) + ops, out + Emitted(e));
    var s := Reading(Held(left), Pending(left) + ops, out + Emitted(left));
    var t := Reading("", [[op]] + ops, out + (Emitted(left) + Flush(Held(left)) + Pending(left)));
    LeadsOn(expr, i, start, m, s, m + 1, t);
    LeadsOn(expr, i, start, m + 1, t, j, end);
  }

  /** The parser gives every well-formed expression the postfix program of its tree. */
  lemma {:induction false} ParsesTree(e: Expr)
    requires e.WellFormed(true) && !e.Leading?
    ensures Parse(e.Print(), []) == Parsed(e.Postfix())
  {
    var expr := e.Print();
    assert expr[0..|expr|] == expr;
    ScanTree(e, expr, 0, |expr|, [], []);
    assert Use(true);
    PartsMakePostfix(e, true);
    assert Pending(e) + [] == Pending(e) && [] + Emitted(e) == Emitted(e);
  }

  /** The same for expressions as typed, whatever order their operators come in. */
  lemma {:induction false} ParsesInfix(x: Infix)
    requires IsInfix(x, true)
    ensures Parse(Text(x), []) == Parsed(Tree(x).Postfix())
  {
    TreeWellFormed(x, true);
    if x.One? {
      OperandWellFormed(x.first, false);
    }
    ParsesTree(Tree(x));
  }

  // What the check of an imported expression looks at.

  function OperatorCount(tokens: seq<string>): nat {
    if tokens == [] then 0 else (if IsOperatorToken(tokens[0]) then 1 else 0) + OperatorCount(tokens[1..])
  }

  predicate HasBracket(token: string) {
    '(' in token || ')' in token
  }

  /** The operators are counted in 16 bits. */
  predicate Accepts(tokens: seq<string>) {
    var n := OperatorCount(tokens) % 0x1_0000;
    |tokens| - n == n + 1 && Unbracketed(tokens)
  }

  predicate Unbracketed(tokens: seq<string>) {
    forall k | 0 <= k < |tokens| :: !HasBracket(tokens[k])
  }

  lemma UnbracketedConcat(a: seq<string>, b: seq<string>)
    ensures Unbracketed(a + b) <==> Unbracketed(a) && Unbracketed(b)
  {
    if Unbracketed(a + b) {
      assert forall k | 0 <= k < |a| :: a[k] == (a + b)[k];
      assert forall k | 0 <= k < |b| :: b[k] == (a + b)[|a| + k];
    }
  }

  lemma {:induction false} OperatorCountConcat(a: seq<string>, b: seq<string>)
    ensures OperatorCount(a + b) == OperatorCount(a) + OperatorCount(b)
  {
    if a == [] {
      assert a + b == b;
    } else {
      assert (a + b)[1..] == a[1..] + b;
      OperatorCountConcat(a[1..], b);
    }
  }

  lemma {:induction false} PostfixCounts(e: Expr, atStart: bool)
    requires e.WellFormed(atStart)
    ensures OperatorCount(e.Postfix()) == e.Operators() && |e.Postfix()| == 2 * e.Operators() + 1
  {
    match e
    case Paren(inner) => PostfixCounts(inner, false);
    case Binary(op, left, right) =>
      PostfixCounts(left, atStart);
      PostfixCounts(right, false);
      OperatorCountConcat(left.Postfix() + right.Postfix(), [[op]]);
      OperatorCountConcat(left.Postfix(), right.Postfix());
    case Atom(name) => assert IsPlain(name[0]) && e.Postfix()[1..] == [];
    case Negative(body) => assert ("-" + body)[0] == '-' && |"-" + body| > 1 && e.Postfix()[1..] == [];
    case Leading(body) => assert |"-" + body| > 1 && e.Postfix()[1..] == [];
  }

  /** No bracketed negative has swallowed an opening bracket. */
  predicate BodiesAreClosed(e: Expr) {
    match e
    case Negative(body) => '(' !in body
    case Paren(inner) => BodiesAreClosed(inner)
    case Binary(op, left, right) => BodiesAreClosed(left) && BodiesAreClosed(right)
    case _ => true
  }

  lemma {:induction false} PostfixBrackets(e: Expr, atStart: bool)
    requires e.WellFormed(atStart)
    ensures BodiesAreClosed(e) <==> Unbracketed(e.Postfix())
  {
    match e
    case Paren(inner) => PostfixBrackets(inner, false);
    case Binary(op, left, right) =>
      PostfixBrackets(left, atStart);
      PostfixBrackets(right, false);
      UnbracketedConcat(left.Postfix() + right.Postfix(), [[op]]);
      UnbracketedConcat(left.Postfix(), right.Postfix());
      assert [[op]][0] == [op] && !HasBracket([op]);
    case Atom(name) => assert e.Postfix()[0] == name;
    case Negative(body) => assert HasBracket(e.Postfix()[0]) <==> '(' in body;
    case Leading(body) => assert !HasBracket(e.Postfix()[0]);
  }

  /** The check takes a well-formed expression exactly when it has at most 65535 operators
      and no negative number has swallowed a bracket. */
  lemma {:induction false} AcceptsTree(e: Expr, atStart: bool)
    requires e.WellFormed(atStart)
    ensures Accepts(e.Postfix()) <==> e.Operators() < 0x1_0000 && BodiesAreClosed(e)
  {
    PostfixCounts(e, atStart);
    PostfixBrackets(e, atStart);
  }

  // Round trip: the name an evaluator gives to a result, parsed again.

  /** The name under which a result is stored: every operation in its own brackets. */
  function NameOf(e: Expr): string {
    match e
    case Atom(name) => name
    case Negative(body) => "-" + body
    case Leading(body) => "-" + body
    case Paren(inner) => NameOf(inner)
    case Binary(op, left, right) => "(" + NameOf(left) + [op] + NameOf(right) + ")"
  }

  predicate Unsigned(e: Expr) {
    match e
    case Atom(name) => true
    case Paren(inner) => Unsigned(inner)
    case Binary(op, left, right) => Unsigned(left) && Unsigned(right)
    case _ => false
  }

  function Bracketed(e: Expr): Expr {
    match e
    case Paren(inner) => Bracketed(inner)
    case Binary(op, left, right) => Paren(Binary(op, Bracketed(left), Bracketed(right)))
    case _ => e
  }

  lemma {:induction false} BracketedIsNamed(e: Expr, atStart: bool)
    requires e.WellFormed(atStart) && Unsigned(e)
    ensures Bracketed(e).WellFormed(false) && !Bracketed(e).Binary? && !Bracketed(e).Leading?
    ensures Bracketed(e).Print() == NameOf(e) && Bracketed(e).Postfix() == e.Postfix()
  {
    match e
    case Paren(inner) => BracketedIsNamed(inner, false);
    case Binary(op, left, right) =>
      BracketedIsNamed(left, atStart);
      BracketedIsNamed(right, false);
      var l, r := NameOf(left), NameOf(right);
      assert "(" + (l + [op] + r) + ")" == "(" + l + [op] + r + ")";
    case _ =>
  }

  /** The stored name of a result, parsed again, gives back the program that computed it. */
  lemma {:induction false} RoundTrip(e: Expr, atStart: bool)
    requires e.WellFormed(atStart) && Unsigned(e)
    ensures Parse(NameOf(e), []) == Parsed(e.Postfix())
  {
    BracketedIsNamed(e, atStart);
    ParsesTree(Bracketed(e));
  }
}
