/**
 What the evaluators compute, in plain arithmetic: in an integer run the exact value of the expression, wrapped once at
 the end; in a floating-point run its value over the reals.
 */
module ExpressArithmetic {
  import opened ExpressSyntax
  import opened ExpressParser
  import opened PostfixMachine
  import opened MachineIntegers
  import opened Numbers
  import opened SecretShares
  import opened ExpressExecutor
  import opened ExpressRun
  import G = ExpressGrammar

  // The tree of an expression is that of the grammar.

  lemma ExtendedIsAttached(s: G.Sum, op: char, f: G.Factor, atStart: bool)
    requires G.IsSum(s, atStart) && IsOperator(op)
    ensures G.SumTree(G.Extended(s, op, f)) == Attach(G.SumTree(s), op, G.FactorTree(f))
  {
    var x := G.FactorTree(f);
    if s.OneTerm? {
      TermIsTight(s.first, op, x);
    } else {
      TermIsTight(s.last, op, x);
    }
  }

  lemma TermIsTight(t: G.Term, op: char, x: Expr)
    requires IsOperator(op)
    ensures Attach(G.TermTree(t), op, x) == Binary(op, G.TermTree(t), x)
  {
  }

  lemma {:induction false} TreeIsSumTree(x: Infix, atStart: bool)
    requires IsInfix(x, atStart) || (x.One? && IsOperand(x.first, atStart))
    ensures Tree(x) == G.SumTree(G.SumOf(x))
    decreases x
  {
    match x
    case One(first) => OperandTreeIs(first, atStart);
    case More(init, op, last) =>
      TreeIsSumTree(init, atStart);
      OperandTreeIs(last, false);
      G.InfixIsSum(init, atStart);
      ExtendedIsAttached(G.SumOf(init), op, G.FactorOf(last), atStart);
  }

  lemma {:induction false} OperandTreeIs(o: Operand, atStart: bool)
    requires IsOperand(o, atStart) || IsOperand(o, false)
    ensures OperandTree(o) == G.FactorTree(G.FactorOf(o))
    decreases o
  {
    if o.Group? {
      TreeIsSumTree(o.inner, false);
    }
  }

  // Integer runs.

  function SumInt(s: G.Sum, cell: string -> int): int {
    match s
    case OneTerm(first) => TermInt(first, cell)
    case Plus(init, last) => SumInt(init, cell) + TermInt(last, cell)
    case Minus(init, last) => SumInt(init, cell) - TermInt(last, cell)
  }

  /** There are no quotients in an integer run. */
  function TermInt(t: G.Term, cell: string -> int): int {
    match t
    case OneFactor(factor) => FactorInt(factor, cell)
    case Times(initial, next) => TermInt(initial, cell) * FactorInt(next, cell)
    case Over(_, _) => 0
  }

  function FactorInt(f: G.Factor, cell: string -> int): int {
    match f
    case Token(name) => cell(name)
    case Negated(body) => cell("-" + body)
    case Start(body) => cell("-" + body)
    case Brackets(sum) => SumInt(sum, cell)
  }

  /** The integers that the tokens are worth in a row. */
  ghost predicate IntCells(env: Env, row: nat, cell: string -> int) {
    forall token ::
      if token in env.cols then row < |env.cols[token]| && env.cols[token][row] == Int(cell(token))
      else env.number(token) == Some(Int(cell(token)))
  }

  /** Wrapping every product and sum on the way comes to the same as wrapping the exact value at the end. */
  lemma {:induction false} SumWraps(env: Env, s: G.Sum, atStart: bool, row: nat, cell: string -> int)
    requires ValidEnv(env) && row < env.rows && !env.fp64 && env.wrap == Wrap64() && IntCells(env, row, cell)
    requires G.IsSum(s, atStart) && !Divides(G.SumTree(s))
    ensures Eval(env, G.SumTree(s), row) == Int(TwosComplement(SumInt(s, cell)))
  {
    match s
    case OneTerm(first) => TermWraps(env, first, atStart, row, cell);
    case Plus(init, last) =>
      SumWraps(env, init, atStart, row, cell);
      TermWraps(env, last, false, row, cell);
      WrapOnce(SumInt(init, cell), TermInt(last, cell));
    case Minus(init, last) =>
      SumWraps(env, init, atStart, row, cell);
      TermWraps(env, last, false, row, cell);
      WrapOnce(SumInt(init, cell), TermInt(last, cell));
  }

  lemma {:induction false} TermWraps(env: Env, t: G.Term, atStart: bool, row: nat, cell: string -> int)
    requires ValidEnv(env) && row < env.rows && !env.fp64 && env.wrap == Wrap64() && IntCells(env, row, cell)
    requires G.IsTerm(t, atStart) && !Divides(G.TermTree(t))
    ensures Eval(env, G.TermTree(t), row) == Int(TwosComplement(TermInt(t, cell)))
  {
    match t
    case OneFactor(factor) => FactorWraps(env, factor, atStart, row, cell);
    case Times(initial, next) =>
      TermWraps(env, initial, atStart, row, cell);
      FactorWraps(env, next, false, row, cell);
      WrapOnce(TermInt(initial, cell), FactorInt(next, cell));
  }

  lemma {:induction false} FactorWraps(env: Env, f: G.Factor, atStart: bool, row: nat, cell: string -> int)
    requires ValidEnv(env) && row < env.rows && !env.fp64 && env.wrap == Wrap64() && IntCells(env, row, cell)
    requires G.IsFactor(f, atStart) && !Divides(G.FactorTree(f))
    ensures Eval(env, G.FactorTree(f), row) == Int(TwosComplement(FactorInt(f, cell)))
  {
    if f.Brackets? {
      SumWraps(env, f.sum, false, row, cell);
    } else {
      var token := G.FactorTree(f).Postfix()[0];
      assert token in env.cols ==> IsKind(env.wrap, env.fp64, env.cols[token][row]);
    }
  }

  // Floating-point runs.

  /** None for a quotient by zero. */
  function SumReal(s: G.Sum, cell: string -> real): Option<real> {
    match s
    case OneTerm(first) => TermReal(first, cell)
    case Plus(init, last) =>
      var x, y := SumReal(init, cell), TermReal(last, cell);
      if x.None? || y.None? then None else Some(x.value + y.value)
    case Minus(init, last) =>
      var x, y := SumReal(init, cell), TermReal(last, cell);
      if x.None? || y.None? then None else Some(x.value - y.value)
  }

  function TermReal(t: G.Term, cell: string -> real): Option<real> {
    match t
    case OneFactor(factor) => FactorReal(factor, cell)
    case Times(initial, next) =>
      var x, y := TermReal(initial, cell), FactorReal(next, cell);
      if x.None? || y.None? then None else Some(x.value * y.value)
    case Over(initial, next) =>
      var x, y := TermReal(initial, cell), FactorReal(next, cell);
      if x.None? || y.None? || y.value == 0.0 then None else Some(x.value / y.value)
  }

  function FactorReal(f: G.Factor, cell: string -> real): Option<real> {
    match f
    case Token(name) => Some(cell(name))
    case Negated(body) => Some(cell("-" + body))
    case Start(body) => Some(cell("-" + body))
    case Brackets(sum) => SumReal(sum, cell)
  }

  /** The reals that the tokens of a program are worth in a row. */
  ghost predicate RealCells(env: Env, program: seq<string>, row: nat, cell: string -> real) {
    forall token | token in program && !IsOperatorToken(token) ::
      if token in env.cols then row < |env.cols[token]| && env.cols[token][row] == Real(cell(token))
      else env.number(token) == Some(Real(cell(token)))
  }

  function AsNum(x: Option<real>): Num {
    match x
    case None => Bad
    case Some(r) => Real(r)
  }

  lemma {:induction false} SumIsReal(env: Env, s: G.Sum, atStart: bool, row: nat, cell: string -> real)
    requires G.IsSum(s, atStart) && RealCells(env, G.SumProgram(s), row, cell)
    ensures Eval(env, G.SumTree(s), row) == AsNum(SumReal(s, cell))
  {
    match s
    case OneTerm(first) => TermIsReal(env, first, atStart, row, cell);
    case Plus(init, last) =>
      SumIsReal(env, init, atStart, row, cell);
      TermIsReal(env, last, false, row, cell);
    case Minus(init, last) =>
      SumIsReal(env, init, atStart, row, cell);
      TermIsReal(env, last, false, row, cell);
  }

  lemma {:induction false} TermIsReal(env: Env, t: G.Term, atStart: bool, row: nat, cell: string -> real)
    requires G.IsTerm(t, atStart) && RealCells(env, G.TermProgram(t), row, cell)
    ensures Eval(env, G.TermTree(t), row) == AsNum(TermReal(t, cell))
  {
    match t
    case OneFactor(factor) => FactorIsReal(env, factor, atStart, row, cell);
    case Times(initial, next) =>
      TermIsReal(env, initial, atStart, row, cell);
      FactorIsReal(env, next, false, row, cell);
    case Over(initial, next) =>
      TermIsReal(env, initial, atStart, row, cell);
      FactorIsReal(env, next, false, row, cell);
  }

  lemma {:induction false} FactorIsReal(env: Env, f: G.Factor, atStart: bool, row: nat, cell: string -> real)
    requires G.IsFactor(f, atStart) && RealCells(env, G.FactorProgram(f), row, cell)
    ensures Eval(env, G.FactorTree(f), row) == AsNum(FactorReal(f, cell))
  {
    match f
    case Brackets(sum) => SumIsReal(env, sum, false, row, cell);
    case Token(name) => assert IsPlain(name[0]) && name in G.FactorProgram(f);
    case Negated(body) => assert "-" + body in G.FactorProgram(f) && |"-" + body| > 1;
    case Start(body) => assert "-" + body in G.FactorProgram(f) && |"-" + body| > 1;
  }

  /** In an integer run, the rows of a typed expression are its exact values, wrapped at 64 bits. */
  lemma IntegerRows(env: Env, x: Infix, row: nat, cell: string -> int)
    requires ValidEnv(env) && row < env.rows && !env.fp64 && env.wrap == Wrap64() && IntCells(env, row, cell)
    requires IsInfix(x, true) && !Divides(Tree(x))
    ensures Eval(env, Tree(x), row) == Int(TwosComplement(SumInt(G.SumOf(x), cell)))
  {
    G.InfixIsSum(x, true);
    TreeIsSumTree(x, true);
    SumWraps(env, G.SumOf(x), true, row, cell);
  }

  /** In a floating-point run they are its values over the reals; a quotient by zero has none. */
  lemma FloatingRows(env: Env, x: Infix, row: nat, cell: string -> real)
    requires IsInfix(x, true) && RealCells(env, Tree(x).Postfix(), row, cell)
    ensures Eval(env, Tree(x), row) == AsNum(SumReal(G.SumOf(x), cell))
  {
    G.InfixIsSum(x, true);
    TreeIsSumTree(x, true);
    G.SumIsTree(G.SumOf(x), true);
    SumIsReal(env, G.SumOf(x), true, row, cell);
  }

  // One operation, with nothing but the arithmetic of numbers.

  /** What an operand is worth in a row. */
  ghost predicate IsAt(env: Env, token: string, row: nat, x: Num) {
    if token in env.cols then row < |env.cols[token]| && env.cols[token][row] == x else env.number(token) == Some(x)
  }

  /** Both evaluations of a text of two operands. */
  method EvaluateTwo(env: Env, mask: Mask, a: string, op: char, b: string, floatCols: set<string>, party: nat)
    returns (joint: Column, plain: Column)
    requires ValidEnv(env) && MaskFits(env.wrap, mask, env.fp64) && party < 3
    requires a != "" && b != "" && (forall ch | ch in a + b :: ch !in "+-*/()") && op in "+-*/"
    requires a in env.cols || b in env.cols
    requires (a in env.cols || env.number(a).Some?) && (b in env.cols || env.number(b).Some?)
    requires env.fp64 == IsFloatingRun([a, b, [op]], floatCols, env.cols.Keys)
    ensures joint == plain && |joint| == env.rows
    ensures forall row | 0 <= row < env.rows :: joint[row] == Eval(env, Binary(op, Atom(a), Atom(b)), row)
  {
    ghost var x := More(One(Name(a)), op, Name(b));
    G.OneOfFour(op);
    G.AreNames(a, b, a);
    G.TwoText(a, op, b);
    assert Tree(x) == Binary(op, Atom(a), Atom(b)) by {
      assert Tree(One(Name(a))) == Atom(a);
    }
    assert Tree(x).Postfix() == [a, b, [op]];
    joint, plain := EvaluateBothWays(env, mask, x, a + [op] + b, floatCols, party);
  }

  lemma OperandIs(env: Env, token: string, row: nat, x: Num)
    requires IsAt(env, token, row, x)
    ensures Eval(env, Atom(token), row) == x
  {
  }

  /** A floating-point run of one operation: what comes out in each row, over exact numbers. */
  method EvaluateReals(env: Env, mask: Mask, a: string, op: char, b: string, floatCols: set<string>, party: nat)
    returns (joint: Column, plain: Column)
    requires ValidEnv(env) && MaskFits(env.wrap, mask, env.fp64) && party < 3 && env.fp64
    requires a != "" && b != "" && (forall ch | ch in a + b :: ch !in "+-*/()") && op in "+-*/"
    requires a in env.cols || b in env.cols
    requires (a in env.cols || env.number(a).Some?) && (b in env.cols || env.number(b).Some?)
    requires IsFloatingRun([a, b, [op]], floatCols, env.cols.Keys)
    ensures joint == plain && |joint| == env.rows
    ensures forall row, x, y | 0 <= row < env.rows && IsAt(env, a, row, Real(x)) && IsAt(env, b, row, Real(y)) ::
              && (op == '+' ==> joint[row] == Real(x + y))
              && (op == '-' ==> joint[row] == Real(x - y))
              && (op == '*' ==> joint[row] == Real(x * y))
              && (op == '/' && y != 0.0 ==> joint[row].Real? && joint[row].r * y == x)
              && (op == '/' && y == 0.0 ==> joint[row].Bad?)
  {
    joint, plain := EvaluateTwo(env, mask, a, op, b, floatCols, party);
    forall row, x, y | 0 <= row < env.rows && IsAt(env, a, row, Real(x)) && IsAt(env, b, row, Real(y))
      ensures IsRealResult(op, x, y, joint[row])
    {
      RealResult(env, a, op, b, row, x, y);
    }
  }

  ghost predicate IsRealResult(op: char, x: real, y: real, z: Num) {
    && (op == '+' ==> z == Real(x + y))
    && (op == '-' ==> z == Real(x - y))
    && (op == '*' ==> z == Real(x * y))
    && (op == '/' && y != 0.0 ==> z.Real? && z.r * y == x)
    && (op == '/' && y == 0.0 ==> z.Bad?)
  }

  lemma RealResult(env: Env, a: string, op: char, b: string, row: nat, x: real, y: real)
    requires op in "+-*/" && IsAt(env, a, row, Real(x)) && IsAt(env, b, row, Real(y))
    ensures IsRealResult(op, x, y, Eval(env, Binary(op, Atom(a), Atom(b)), row))
  {
    G.OneOfFour(op);
    OperandIs(env, a, row, Real(x));
    OperandIs(env, b, row, Real(y));
  }

  /** An integer run of one operation, with 64-bit integers: in each row the exact result, or the number in range that
      differs from it by a multiple of 2^64. There is no division. */
  method EvaluateIntegers(env: Env, mask: Mask, a: string, op: char, b: string, floatCols: set<string>, party: nat)
    returns (joint: Column, plain: Column)
    requires ValidEnv(env) && MaskFits(env.wrap, mask, env.fp64) && party < 3 && !env.fp64 && env.wrap == Wrap64()
    requires a != "" && b != "" && (forall ch | ch in a + b :: ch !in "+-*/()") && op in "+-*/"
    requires a in env.cols || b in env.cols
    requires (a in env.cols || env.number(a).Some?) && (b in env.cols || env.number(b).Some?)
    requires !IsFloatingRun([a, b, [op]], floatCols, env.cols.Keys)
    ensures joint == plain && |joint| == env.rows && op != '/'
    ensures forall row, x, y | 0 <= row < env.rows && IsAt(env, a, row, Int(x)) && IsAt(env, b, row, Int(y)) ::
              var z := if op == '+' then x + y else if op == '-' then x - y else x * y;
              && joint[row].Int? && -0x8000_0000_0000_0000 <= joint[row].i < 0x8000_0000_0000_0000
              && (joint[row].i - z) % 0x1_0000_0000_0000_0000 == 0
              && (-0x8000_0000_0000_0000 <= z < 0x8000_0000_0000_0000 ==> joint[row].i == z)
  {
    joint, plain := EvaluateTwo(env, mask, a, op, b, floatCols, party);
    assert [a, b, [op]][2] == [op];
    forall row, x, y | 0 <= row < env.rows && IsAt(env, a, row, Int(x)) && IsAt(env, b, row, Int(y))
      ensures IsWrapped(if op == '+' then x + y else if op == '-' then x - y else x * y, joint[row])
    {
      IntResult(env, a, op, b, row, x, y);
    }
  }

  ghost predicate IsWrapped(x: int, z: Num) {
    && z.Int? && -0x8000_0000_0000_0000 <= z.i < 0x8000_0000_0000_0000
    && (z.i - x) % 0x1_0000_0000_0000_0000 == 0
    && (-0x8000_0000_0000_0000 <= x < 0x8000_0000_0000_0000 ==> z.i == x)
  }

  lemma IntResult(env: Env, a: string, op: char, b: string, row: nat, x: int, y: int)
    requires op in "+-*/" && op != '/' && env.wrap == Wrap64()
    requires IsAt(env, a, row, Int(x)) && IsAt(env, b, row, Int(y))
    ensures IsWrapped(if op == '+' then x + y else if op == '-' then x - y else x * y,
                      Eval(env, Binary(op, Atom(a), Atom(b)), row))
  {
    G.OneOfFour(op);
    OperandIs(env, a, row, Int(x));
    OperandIs(env, b, row, Int(y));
    Wrap64IsLawful();
  }
}
