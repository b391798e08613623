/**
 Expressions by a grammar that does not mention precedence: a sum of terms, a term of factors, each from left to
 right. The parser gives each its program.
 */
module ExpressGrammar {
  import opened ExpressSyntax
  import opened ExpressParser

  datatype Sum =
    | OneTerm(first: Term)
    | Plus(init: Sum, last: Term)
    | Minus(init: Sum, last: Term)
  datatype Term =
    | OneFactor(factor: Factor)
    | Times(initial: Term, next: Factor)
    | Over(initial: Term, next: Factor)
  datatype Factor =
    | Token(name: string)
    | Negated(body: string)
    | Start(body: string)
    | Brackets(sum: Sum)

  function SumText(s: Sum): string {
    match s
    case OneTerm(first) => TermText(first)
    case Plus(init, last) => SumText(init) + "+" + TermText(last)
    case Minus(init, last) => SumText(init) + "-" + TermText(last)
  }

  function TermText(t: Term): string {
    match t
    case OneFactor(factor) => FactorText(factor)
    case Times(initial, next) => TermText(initial) + "*" + FactorText(next)
    case Over(initial, next) => TermText(initial) + "/" + FactorText(next)
  }

  function FactorText(f: Factor): string {
    match f
    case Token(name) => name
    case Negated(body) => "(-" + body + ")"
    case Start(body) => "-" + body
    case Brackets(sum) => "(" + SumText(sum) + ")"
  }

  /** The program: both operands, and then the operator. */
  function SumProgram(s: Sum): seq<string> {
    match s
    case OneTerm(first) => TermProgram(first)
    case Plus(init, last) => SumProgram(init) + TermProgram(last) + ["+"]
    case Minus(init, last) => SumProgram(init) + TermProgram(last) + ["-"]
  }

  function TermProgram(t: Term): seq<string> {
    match t
    case OneFactor(factor) => FactorProgram(factor)
    case Times(initial, next) => TermProgram(initial) + FactorProgram(next) + ["*"]
    case Over(initial, next) => TermProgram(initial) + FactorProgram(next) + ["/"]
  }

  function FactorProgram(f: Factor): seq<string> {
    match f
    case Token(name) => [name]
    case Negated(body) => ["-" + body]
    case Start(body) => ["-" + body]
    case Brackets(sum) => SumProgram(sum)
  }

  /** Names have no operators and brackets; a sign without brackets is only at the very start. */
  predicate IsSum(s: Sum, atStart: bool) {
    match s
    case OneTerm(first) => IsTerm(first, atStart)
    case Plus(init, last) => IsSum(init, atStart) && IsTerm(last, false)
    case Minus(init, last) => IsSum(init, atStart) && IsTerm(last, false)
  }

  predicate IsTerm(t: Term, atStart: bool) {
    match t
    case OneFactor(factor) => IsFactor(factor, atStart)
    case Times(initial, next) => IsTerm(initial, atStart) && IsFactor(next, false)
    case Over(initial, next) => IsTerm(initial, atStart) && IsFactor(next, false)
  }

  predicate IsFactor(f: Factor, atStart: bool) {
    match f
    case Token(name) => IsName(name)
    case Negated(body) => IsSwallowed(body)
    case Start(body) => atStart && IsName(body)
    case Brackets(sum) => IsSum(sum, false)
  }

  function SumTree(s: Sum): Expr {
    match s
    case OneTerm(first) => TermTree(first)
    case Plus(init, last) => Binary('+', SumTree(init), TermTree(last))
    case Minus(init, last) => Binary('-', SumTree(init), TermTree(last))
  }

  function TermTree(t: Term): Expr {
    match t
    case OneFactor(factor) => FactorTree(factor)
    case Times(initial, next) => Binary('*', TermTree(initial), FactorTree(next))
    case Over(initial, next) => Binary('/', TermTree(initial), FactorTree(next))
  }

  function FactorTree(f: Factor): Expr {
    match f
    case Token(name) => Atom(name)
    case Negated(body) => Negative(body)
    case Start(body) => Leading(body)
    case Brackets(sum) => Paren(SumTree(sum))
  }

  lemma {:induction false} SumIsTree(s: Sum, atStart: bool)
    requires IsSum(s, atStart)
    ensures SumTree(s).WellFormed(atStart) && SumTree(s).Level() >= Priority('+')
    ensures SumTree(s).Print() == SumText(s) && SumTree(s).Postfix() == SumProgram(s)
  {
    match s
    case OneTerm(first) => TermIsTree(first, atStart);
    case Plus(init, last) =>
      SumIsTree(init, atStart);
      TermIsTree(last, false);
    case Minus(init, last) =>
      SumIsTree(init, atStart);
      TermIsTree(last, false);
  }

  lemma {:induction false} TermIsTree(t: Term, atStart: bool)
    requires IsTerm(t, atStart)
    ensures TermTree(t).WellFormed(atStart) && TermTree(t).Level() >= Priority('*')
    ensures TermTree(t).Print() == TermText(t) && TermTree(t).Postfix() == TermProgram(t)
  {
    match t
    case OneFactor(factor) => FactorIsTree(factor, atStart);
    case Times(initial, next) =>
      TermIsTree(initial, atStart);
      FactorIsTree(next, false);
    case Over(initial, next) =>
      TermIsTree(initial, atStart);
      FactorIsTree(next, false);
  }

  lemma {:induction false} FactorIsTree(f: Factor, atStart: bool)
    requires IsFactor(f, atStart)
    ensures FactorTree(f).WellFormed(atStart) && FactorTree(f).Level() == 3
    ensures FactorTree(f).Print() == FactorText(f) && FactorTree(f).Postfix() == FactorProgram(f)
  {
    if f.Brackets? {
      SumIsTree(f.sum, false);
    }
  }

  /** Every expression of the grammar, but for a lone signed name, is parsed to its program. */
  lemma ParsesSum(s: Sum)
    requires IsSum(s, true) && !SumTree(s).Leading?
    ensures Parse(SumText(s), []) == Parsed(SumProgram(s))
  {
    SumIsTree(s, true);
    ParsesTree(SumTree(s));
  }

  /** And every expression as typed is one of the grammar. */
  function Extended(s: Sum, op: char, f: Factor): Sum {
    if op == '+' then Plus(s, OneFactor(f))
    else if op == '-' then Minus(s, OneFactor(f))
    else
      match s
      case OneTerm(t) => OneTerm(if op == '*' then Times(t, f) else Over(t, f))
      case Plus(init, t) => Plus(init, if op == '*' then Times(t, f) else Over(t, f))
      case Minus(init, t) => Minus(init, if op == '*' then Times(t, f) else Over(t, f))
  }

  function SumOf(x: Infix): Sum {
    match x
    case One(first) => OneTerm(OneFactor(FactorOf(first)))
    case More(init, op, last) => Extended(SumOf(init), op, FactorOf(last))
  }

  function FactorOf(o: Operand): Factor {
    match o
    case Name(name) => Token(name)
    case Inverse(body) => Negated(body)
    case Signed(body) => Start(body)
    case Group(inner) => Brackets(SumOf(inner))
  }

  lemma ExtendedIs(s: Sum, op: char, f: Factor, atStart: bool)
    requires IsSum(s, atStart) && IsOperator(op) && IsFactor(f, false)
    ensures IsSum(Extended(s, op, f), atStart)
    ensures SumText(Extended(s, op, f)) == SumText(s) + [op] + FactorText(f)
  {
    var t := FactorText(f);
    assert [op] == (if op == '+' then "+" else if op == '-' then "-" else if op == '*' then "*" else "/");
    if (op == '*' || op == '/') && !s.OneTerm? {
      var sign := if s.Plus? then "+" else "-";
      var a, b := SumText(s.init), TermText(s.last);
      assert a + sign + (b + [op] + t) == a + sign + b + [op] + t;
    }
  }

  lemma {:induction false} InfixIsSum(x: Infix, atStart: bool)
    requires IsInfix(x, atStart) || (x.One? && IsOperand(x.first, atStart))
    ensures IsSum(SumOf(x), atStart) && SumText(SumOf(x)) == Text(x)
    decreases x
  {
    match x
    case One(first) => OperandIsFactor(first, atStart);
    case More(init, op, last) =>
      InfixIsSum(init, atStart);
      OperandIsFactor(last, false);
      ExtendedIs(SumOf(init), op, FactorOf(last), atStart);
  }

  lemma {:induction false} OperandIsFactor(o: Operand, atStart: bool)
    requires IsOperand(o, atStart) || IsOperand(o, false)
    ensures IsFactor(FactorOf(o), atStart) && FactorText(FactorOf(o)) == OperandText(o)
    ensures IsOperand(o, false) ==> IsFactor(FactorOf(o), false)
    decreases o
  {
    if o.Group? {
      InfixIsSum(o.inner, false);
    }
  }

  /** Three operands, with the operators and brackets written out. */
  lemma ThreeOperands(a: string, p: char, b: string, q: char, c: string)
    requires a != "" && b != "" && c != "" && forall ch | ch in a + b + c :: ch !in "+-*/()"
    requires p in "+-*/" && q in "+-*/"
    ensures p in "+-" && q in "*/" ==> Parse(a + [p] + b + [q] + c, []) == Parsed([a, b, c, [q], [p]])
    ensures p in "*/" || q in "+-" ==> Parse(a + [p] + b + [q] + c, []) == Parsed([a, b, [p], c, [q]])
    ensures Parse(a + [p] + "(" + b + [q] + c + ")", []) == Parsed([a, b, c, [q], [p]])
  {
    AreNames(a, b, c);
    var x := More(More(One(Name(a)), p, Name(b)), q, Name(c));
    var y := More(One(Name(a)), p, Group(More(One(Name(b)), q, Name(c))));
    ThreeText(a, p, b, q, c);
    InfixIsSum(x, true);
    InfixIsSum(y, true);
    ParsesSum(SumOf(x));
    ParsesSum(SumOf(y));
    ThreeProgram(a, p, b, q, c);
  }

  lemma AreNames(a: string, b: string, c: string)
    requires a != "" && b != "" && c != "" && forall ch | ch in a + b + c :: ch !in "+-*/()"
    ensures IsName(a) && IsName(b) && IsName(c)
  {
    forall ch | ch in a + b + c ensures IsPlain(ch) {
      var s := "+-*/()";
      assert s[0] == '+' && s[1] == '-' && s[2] == '*' && s[3] == '/' && s[4] == '(' && s[5] == ')';
    }
    assert forall k | 0 <= k < |a| :: a[k] in a + b + c;
    assert forall k | 0 <= k < |b| :: b[k] in a + b + c;
    assert forall k | 0 <= k < |c| :: c[k] in a + b + c;
  }

  /** `*` and `/` take the last operand with them. */
  lemma ThreeProgram(a: string, p: char, b: string, q: char, c: string)
    requires p in "+-*/" && q in "+-*/"
    ensures var x := SumOf(More(More(One(Name(a)), p, Name(b)), q, Name(c)));
      && !SumTree(x).Leading?
      && SumProgram(x) == if p in "+-" && q in "*/" then [a, b, c, [q], [p]] else [a, b, [p], c, [q]]
    ensures var y := SumOf(More(One(Name(a)), p, Group(More(One(Name(b)), q, Name(c)))));
      !SumTree(y).Leading? && SumProgram(y) == [a, b, c, [q], [p]]
  {
    OneOfFour(p);
    OneOfFour(q);
    var s, t := SumOf(More(One(Name(a)), p, Name(b))), SumOf(More(One(Name(b)), q, Name(c)));
    OneName(a);
    TwoProgram(a, p, b);
    TwoProgram(b, q, c);
    assert FactorProgram(Brackets(t)) == [b, c, [q]];
    ExtendedProgram(OneTerm(OneFactor(Token(a))), p, Brackets(t));
    ExtendedProgram(s, q, Token(c));
    if s.Plus? || s.Minus? {
      assert s.last == OneFactor(Token(b)) && s.init == OneTerm(OneFactor(Token(a)));
    }
  }

  /** The program of an extended sum, by what the sum ends in. */
  lemma ExtendedProgram(s: Sum, op: char, f: Factor)
    requires IsOperator(op)
    ensures var program := SumProgram(Extended(s, op, f));
      if op == '+' || op == '-' || s.OneTerm? then program == SumProgram(s) + FactorProgram(f) + [[op]]
      else program == SumProgram(s.init) + (TermProgram(s.last) + FactorProgram(f) + [[op]])
                      + [if s.Plus? then "+" else "-"]
  {
    assert [op] == (if op == '+' then "+" else if op == '-' then "-" else if op == '*' then "*" else "/");
  }

  lemma TwoProgram(a: string, p: char, b: string)
    requires IsOperator(p)
    ensures SumProgram(SumOf(More(One(Name(a)), p, Name(b)))) == [a, b, [p]]
  {
    OneName(a);
    ExtendedProgram(OneTerm(OneFactor(Token(a))), p, Token(b));
  }

  lemma OneName(a: string)
    ensures var s := OneTerm(OneFactor(Token(a)));
      SumOf(One(Name(a))) == s && SumProgram(s) == [a] && FactorProgram(Token(a)) == [a]
  {
    assert FactorOf(Name(a)) == Token(a);
    assert TermProgram(OneFactor(Token(a))) == [a];
  }

  lemma OneOfFour(c: char)
    requires c in "+-*/"
    ensures c == '+' || c == '-' || c == '*' || c == '/'
    ensures (c in "+-" <==> c == '+' || c == '-') && (c in "*/" <==> c == '*' || c == '/')
  {
    var s, t, u := "+-*/", "+-", "*/";
    assert s[0] == '+' && s[1] == '-' && s[2] == '*' && s[3] == '/';
    assert t[0] == '+' && t[1] == '-' && u[0] == '*' && u[1] == '/';
  }

  lemma TwoText(a: string, p: char, b: string)
    requires IsName(a) && IsName(b) && IsOperator(p)
    ensures var x := More(One(Name(a)), p, Name(b));
      IsInfix(x, true) && IsInfix(x, false) && Text(x) == a + [p] + b
  {
    assert Text(One(Name(a))) == a;
  }

  lemma ThreeText(a: string, p: char, b: string, q: char, c: string)
    requires IsName(a) && IsName(b) && IsName(c) && p in "+-*/" && q in "+-*/"
    ensures var x := More(More(One(Name(a)), p, Name(b)), q, Name(c));
      IsInfix(x, true) && Text(x) == a + [p] + b + [q] + c
    ensures var y := More(One(Name(a)), p, Group(More(One(Name(b)), q, Name(c))));
      IsInfix(y, true) && Text(y) == a + [p] + "(" + b + [q] + c + ")"
  {
    OneOfFour(p);
    OneOfFour(q);
    TwoText(a, p, b);
    TwoText(b, q, c);
    assert Text(One(Name(a))) == a;
    assert OperandText(Group(More(One(Name(b)), q, Name(c)))) == "(" + (b + [q] + c) + ")";
    assert a + [p] + ("(" + (b + [q] + c) + ")") == a + [p] + "(" + b + [q] + c + ")";
  }

  /** The names under which the results are stored. */
  lemma ThreeNames(a: string, p: char, b: string, q: char, c: string)
    requires p in "+-*/" && q in "+-*/"
    ensures NameOf(Tree(More(More(One(Name(a)), p, Name(b)), q, Name(c))))
         == if p in "+-" && q in "*/" then "(" + a + [p] + "(" + b + [q] + c + "))"
            else "((" + a + [p] + b + ")" + [q] + c + ")"
  {
    OneOfFour(p);
    OneOfFour(q);
    ThreeTree(a, p, b, q, c);
    if p in "+-" && q in "*/" {
      NameToRight(a, p, b, q, c);
    } else {
      NameToLeft(a, p, b, q, c);
    }
  }

  lemma ThreeTree(a: string, p: char, b: string, q: char, c: string)
    requires IsOperator(p) && IsOperator(q)
    ensures Tree(More(More(One(Name(a)), p, Name(b)), q, Name(c)))
         == if (p == '+' || p == '-') && (q == '*' || q == '/') then Binary(p, Atom(a), Binary(q, Atom(b), Atom(c)))
            else Binary(q, Binary(p, Atom(a), Atom(b)), Atom(c))
  {
    assert Tree(One(Name(a))) == Atom(a);
    assert Tree(More(One(Name(a)), p, Name(b))) == Binary(p, Atom(a), Atom(b));
    assert Attach(Atom(b), q, Atom(c)) == Binary(q, Atom(b), Atom(c));
  }

  lemma NameToRight(a: string, p: char, b: string, q: char, c: string)
    ensures NameOf(Binary(p, Atom(a), Binary(q, Atom(b), Atom(c)))) == "(" + a + [p] + "(" + b + [q] + c + "))"
  {
    assert NameOf(Binary(q, Atom(b), Atom(c))) == "(" + b + [q] + c + ")";
    assert "(" + a + [p] + ("(" + b + [q] + c + ")") + ")" == "(" + a + [p] + "(" + b + [q] + c + "))";
  }

  lemma NameToLeft(a: string, p: char, b: string, q: char, c: string)
    ensures NameOf(Binary(q, Binary(p, Atom(a), Atom(b)), Atom(c))) == "((" + a + [p] + b + ")" + [q] + c + ")"
  {
    assert NameOf(Binary(p, Atom(a), Atom(b))) == "(" + a + [p] + b + ")";
    assert "(" + ("(" + a + [p] + b + ")") + [q] + c + ")" == "((" + a + [p] + b + ")" + [q] + c + ")";
  }
}
