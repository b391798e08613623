/**
 The two evaluators of an expression: three parties over secret shares, run in lock step, and
 one machine over plain columns. Both give every row the value of the expression tree.
 */
module ExpressExecutor {
  import opened ExpressSyntax
  import opened PostfixMachine
  import opened MachineIntegers
  import opened Numbers
  import opened SecretShares

  /** What the parties know of the columns. A token that is no column is converted to a number, which fails on a text
      that is no numeral in a floating-point run; an integer conversion always gives a number. */
  datatype Env = Env(wrap: Wrapping, fp64: bool, cols: map<string, Column>, owner: map<string, nat>,
                     number: string -> Option<Num>, rows: nat)

  ghost predicate ValidEnv(env: Env) {
    && Lawful(env.wrap)
    && env.cols.Keys == env.owner.Keys
    && (forall c | c in env.cols :: env.owner[c] < 3 && |env.cols[c]| == env.rows)
    && (forall c, i | c in env.cols && 0 <= i < env.rows :: IsKind(env.wrap, env.fp64, env.cols[c][i]))
    && (forall s :: match env.number(s)
                   case None => env.fp64
                   case Some(x) => IsKind(env.wrap, env.fp64, x))
  }

  // The meaning of a tree, row by row.

  function Operate(wrap: Wrapping, op: char, x: Num, y: Num): Num {
    if op == '+' then Plus(wrap, x, y)
    else if op == '-' then Minus(wrap, x, y)
    else if op == '*' then Times(wrap, x, y)
    else Divide(x, y)
  }

  function Eval(env: Env, e: Expr, row: nat): Num {
    match e
    case Paren(inner) => Eval(env, inner, row)
    case Binary(op, left, right) => Operate(env.wrap, op, Eval(env, left, row), Eval(env, right, row))
    case _ =>
      var token := e.Postfix()[0];
      if token !in env.cols then (if env.number(token).Some? then env.number(token).value else Bad)
      else if row < |env.cols[token]| then env.cols[token][row] else Bad
  }

  function EvalColumn(env: Env, e: Expr): (z: Column)
    ensures |z| == env.rows && forall i | 0 <= i < env.rows :: z[i] == Eval(env, e, i)
  {
    seq(env.rows, i requires 0 <= i < env.rows => Eval(env, e, i))
  }

  predicate IsConst(env: Env, e: Expr) {
    match e
    case Paren(inner) => IsConst(env, inner)
    case Binary(op, left, right) => false
    case _ => e.Postfix()[0] !in env.cols
  }

  /** No operator of the tree is applied to two numbers. */
  predicate NoConstPair(env: Env, e: Expr) {
    match e
    case Paren(inner) => NoConstPair(env, inner)
    case Binary(op, left, right) =>
      NoConstPair(env, left) && NoConstPair(env, right) && !(IsConst(env, left) && IsConst(env, right))
    case _ => true
  }

  /** Every operand of the tree is a column or a text that converts to a number. */
  predicate Converts(env: Env, e: Expr) {
    match e
    case Paren(inner) => Converts(env, inner)
    case Binary(op, left, right) => Converts(env, left) && Converts(env, right)
    case _ => e.Postfix()[0] in env.cols || env.number(e.Postfix()[0]).Some?
  }

  lemma {:induction false} EvalKind(env: Env, e: Expr, atStart: bool, row: nat)
    requires ValidEnv(env) && row < env.rows && e.WellFormed(atStart)
    ensures IsKind(env.wrap, env.fp64, Eval(env, e, row)) || Eval(env, e, row).Bad?
  {
    match e
    case Paren(inner) => EvalKind(env, inner, false, row);
    case Binary(op, left, right) =>
      EvalKind(env, left, atStart, row);
      EvalKind(env, right, false, row);
      OperateKind(env.wrap, env.fp64, op, Eval(env, left, row), Eval(env, right, row));
    case _ =>
  }

  lemma OperateKind(wrap: Wrapping, fp64: bool, op: char, x: Num, y: Num)
    requires Lawful(wrap)
    requires IsKind(wrap, fp64, x) || x.Bad?
    requires IsKind(wrap, fp64, y) || y.Bad?
    ensures IsKind(wrap, fp64, Operate(wrap, op, x, y)) || Operate(wrap, op, x, y).Bad?
  {
    if x.Int? && y.Int? {
      Absorb(wrap, x.i + y.i, 0);
      Absorb(wrap, x.i - y.i, 0);
      Absorb(wrap, x.i * y.i, 0);
      assert wrap(x.i + y.i) + 0 == wrap(x.i + y.i);
      assert wrap(x.i - y.i) + 0 == wrap(x.i - y.i);
      assert wrap(x.i * y.i) + 0 == wrap(x.i * y.i);
    }
  }

  // Choosing the run mode.

  /** Floating point is used when there is a division, a floating-point column, or a number with a point. */
  predicate IsFloatingRun(program: seq<string>, floatCols: set<string>, cols: set<string>) {
    || floatCols != {}
    || exists k | 0 <= k < |program| ::
         program[k] == "/" || (!IsOperatorToken(program[k]) && program[k] !in cols && '.' in program[k])
  }

  predicate Divides(e: Expr) {
    match e
    case Paren(inner) => Divides(inner)
    case Binary(op, left, right) => op == '/' || Divides(left) || Divides(right)
    case _ => false
  }

  lemma {:induction false} DivisionIsSeen(e: Expr)
    requires Divides(e)
    ensures "/" in e.Postfix()
  {
    match e
    case Paren(inner) => DivisionIsSeen(inner);
    case Binary(op, left, right) =>
      if op == '/' {
        assert e.Postfix()[|e.Postfix()| - 1] == "/";
      } else if Divides(left) {
        DivisionIsSeen(left);
      } else {
        DivisionIsSeen(right);
      }
  }

  /** In integer mode every row has a value. */
  lemma {:induction false} IntegerRunsAreDefined(env: Env, e: Expr, atStart: bool, floatCols: set<string>, row: nat)
    requires ValidEnv(env) && e.WellFormed(atStart) && row < env.rows
    requires !env.fp64 && !IsFloatingRun(e.Postfix(), floatCols, env.cols.Keys)
    ensures Eval(env, e, row).Int?
  {
    if Divides(e) {
      DivisionIsSeen(e);
      assert false;
    }
    IntegerEval(env, e, atStart, row);
  }

  lemma {:induction false} IntegerEval(env: Env, e: Expr, atStart: bool, row: nat)
    requires ValidEnv(env) && e.WellFormed(atStart) && row < env.rows && !env.fp64 && !Divides(e)
    ensures Eval(env, e, row).Int?
  {
    match e
    case Paren(inner) => IntegerEval(env, inner, false, row);
    case Binary(op, left, right) =>
      IntegerEval(env, left, atStart, row);
      IntegerEval(env, right, false, row);
    case _ =>
  }

  /** Some division of the tree has a divisor that is zero in this row. */
  predicate ZeroDivisor(env: Env, e: Expr, row: nat) {
    match e
    case Paren(inner) => ZeroDivisor(env, inner, row)
    case Binary(op, left, right) =>
      || ZeroDivisor(env, left, row) || ZeroDivisor(env, right, row)
      || (op == '/' && Eval(env, right, row) == Real(0.0))
    case _ => false
  }

  /** In floating-point mode a row has a value exactly when every operand does and no divisor is zero in it. */
  lemma {:induction false} FloatingRunsAreDefined(env: Env, e: Expr, atStart: bool, row: nat)
    requires ValidEnv(env) && e.WellFormed(atStart) && row < env.rows && env.fp64
    ensures Eval(env, e, row).Real? <==> Converts(env, e) && !ZeroDivisor(env, e, row)
    ensures Eval(env, e, row).Bad? <==> !Converts(env, e) || ZeroDivisor(env, e, row)
  {
    match e
    case Paren(inner) => FloatingRunsAreDefined(env, inner, false, row);
    case Binary(op, left, right) =>
      FloatingRunsAreDefined(env, left, atStart, row);
      FloatingRunsAreDefined(env, right, false, row);
    case _ =>
  }

  // One step of the three parties.

  /** A token's value as one party has it. */
  datatype PartyVal = LocalColumn(vals: Column) | RemoteColumn | Number(v: Num) | Held(view: View)

  datatype Joint = Joint(p0: PartyVal, p1: PartyVal, p2: PartyVal)

  /** None when the conversion fails. */
  function PartyLeaf(env: Env, party: nat, token: string): Option<PartyVal> {
    if token !in env.cols then
      match env.number(token)
      case None => None
      case Some(x) => Some(Number(x))
    else if token in env.owner && env.owner[token] == party then Some(LocalColumn(env.cols[token]))
    else Some(RemoteColumn)
  }

  function MpcLeaf(env: Env): string -> Option<Joint> {
    token =>
      match (PartyLeaf(env, 0, token), PartyLeaf(env, 1, token), PartyLeaf(env, 2, token))
      case (Some(x), Some(y), Some(z)) => Some(Joint(x, y, z))
      case _ => None
  }

  predicate AreNumbers(j: Joint) {
    j.p0.Number? && j.p1.Number? && j.p2.Number?
  }

  /** The share of an operand: it is there already, or exactly one party deals it. A number has none. */
  function ShareOf(env: Env, mask: Mask, k: nat, w: nat, j: Joint): Option<Shares> {
    match (j.p0, j.p1, j.p2)
    case (Held(v0), Held(v1), Held(v2)) => Some(Shares(v0, v1, v2))
    case (LocalColumn(vals), RemoteColumn, RemoteColumn) => Some(Share(env.wrap, vals, mask, k, w))
    case (RemoteColumn, LocalColumn(vals), RemoteColumn) => Some(Share(env.wrap, vals, mask, k, w))
    case (RemoteColumn, RemoteColumn, LocalColumn(vals)) => Some(Share(env.wrap, vals, mask, k, w))
    case _ => None
  }

  function Hold(s: Shares): Joint {
    Joint(Held(s.v0), Held(s.v1), Held(s.v2))
  }

  /** Adds two shares, each party on its own; None when the shapes differ. */
  function MpcAdd(env: Env, x: Shares, y: Shares): Option<Shares> {
    if SameRows(x.v0, y.v0) && SameRows(x.v1, y.v1) && SameRows(x.v2, y.v2) then Some(Add(env.wrap, x, y)) else None
  }

  function MpcSub(env: Env, x: Shares, y: Shares): Option<Shares> {
    if SameRows(x.v0, y.v0) && SameRows(x.v1, y.v1) && SameRows(x.v2, y.v2) then Some(Sub(env.wrap, x, y)) else None
  }

  /** The library's products and quotients: some consistent sharing of the right column. */
  function MpcByRow(env: Env, mask: Mask, k: nat, op: char, x: Shares, y: Shares): Option<Shares> {
    if !Consistent(x, env.rows) || !Consistent(y, env.rows) then None else
    var a, b := Secrets(env.wrap, x, env.rows), Secrets(env.wrap, y, env.rows);
    Some(Share(env.wrap, seq(env.rows, i requires 0 <= i < env.rows => Operate(env.wrap, op, a[i], b[i])), mask, k, 2))
  }

  function MpcMulConst(env: Env, mask: Mask, k: nat, c: Num, x: Shares): Option<Shares> {
    if !Consistent(x, env.rows) then None else
    var a := Secrets(env.wrap, x, env.rows);
    Some(Share(env.wrap, seq(env.rows, i requires 0 <= i < env.rows => Times(env.wrap, c, a[i])), mask, k, 2))
  }

  function RunMpcAdd(env: Env, mask: Mask, k: nat, x: Joint, y: Joint): Option<Shares> {
    var sx, sy := ShareOf(env, mask, k, 0, x), ShareOf(env, mask, k, 1, y);
    if !AreNumbers(x) && !AreNumbers(y) then
      if sx.None? || sy.None? then None else MpcAdd(env, sx.value, sy.value)
    else if AreNumbers(x) then
      if sy.None? then None else Some(AddConst(env.wrap, x.p0.v, sy.value))
    else
      if sx.None? then None else Some(AddConst(env.wrap, y.p0.v, sx.value))
  }

  function RunMpcSub(env: Env, mask: Mask, k: nat, x: Joint, y: Joint): Option<Shares> {
    var sx, sy := ShareOf(env, mask, k, 0, x), ShareOf(env, mask, k, 1, y);
    if !AreNumbers(x) && !AreNumbers(y) then
      if sx.None? || sy.None? then None else MpcSub(env, sx.value, sy.value)
    else if AreNumbers(x) then
      if sy.None? then None else Some(SubConst(env.wrap, x.p0.v, sy.value, true))
    else
      if sx.None? then None else Some(SubConst(env.wrap, y.p0.v, sx.value, false))
  }

  function RunMpcMul(env: Env, mask: Mask, k: nat, x: Joint, y: Joint): Option<Shares> {
    var sx, sy := ShareOf(env, mask, k, 0, x), ShareOf(env, mask, k, 1, y);
    if !AreNumbers(x) && !AreNumbers(y) then
      if sx.None? || sy.None? then None else MpcByRow(env, mask, k, '*', sx.value, sy.value)
    else if AreNumbers(x) then
      if sy.None? then None else MpcMulConst(env, mask, k, x.p0.v, sy.value)
    else
      if sx.None? then None else MpcMulConst(env, mask, k, y.p0.v, sx.value)
  }

  /** A number divided is first dealt as a column by party 0; a number that divides becomes its reciprocal. */
  function RunMpcDiv(env: Env, mask: Mask, k: nat, x: Joint, y: Joint): Option<Shares> {
    var sx :=
      if AreNumbers(x) then Some(Share(env.wrap, seq(env.rows, i => x.p0.v), mask, k, 0))
      else ShareOf(env, mask, k, 0, x);
    var sy := ShareOf(env, mask, k, 1, y);
    if AreNumbers(x) || !AreNumbers(y) then
      if sx.None? || sy.None? then None else MpcByRow(env, mask, k, '/', sx.value, sy.value)
    else
      if sx.None? then None else MpcMulConst(env, mask, k, Divide(Real(1.0), y.p0.v), sx.value)
  }

  function MpcApply(env: Env, mask: Mask): (nat, char, Joint, Joint) -> Option<Joint> {
    (k: nat, op: char, x: Joint, y: Joint) =>
      var s :=
        if op == '+' then RunMpcAdd(env, mask, k, x, y)
        else if op == '-' then RunMpcSub(env, mask, k, x, y)
        else if op == '*' then RunMpcMul(env, mask, k, x, y)
        else RunMpcDiv(env, mask, k, x, y);
      if s.None? then None else Some(Hold(s.value))
  }

  // One step of the local machine.

  datatype LocalVal = Vector(vals: Column) | Scalar(v: Num)

  function LocalLeaf(env: Env): string -> Option<LocalVal> {
    token =>
      if token in env.cols then Some(Vector(env.cols[token]))
      else
        match env.number(token)
        case None => None
        case Some(x) => Some(Scalar(x))
  }

  /** One row of an operation. With a number on the right, sums and products put it first. */
  function LocalRow(wrap: Wrapping, op: char, x: LocalVal, y: LocalVal, i: nat): Num
    requires x.Vector? ==> i < |x.vals|
    requires y.Vector? ==> i < |y.vals|
  {
    match (x, y)
    case (Vector(a), Vector(b)) => Operate(wrap, op, a[i], b[i])
    case (Scalar(c), Vector(b)) => Operate(wrap, op, c, b[i])
    case (Vector(a), Scalar(c)) => if op == '+' then Plus(wrap, c, a[i]) else Operate(wrap, op, a[i], c)
    case (Scalar(c), Scalar(d)) => Operate(wrap, op, c, d)
  }

  /** Two numbers have no column between them, and a shorter right column is read past its end. */
  function LocalApply(env: Env): (nat, char, LocalVal, LocalVal) -> Option<LocalVal> {
    (k: nat, op: char, x: LocalVal, y: LocalVal) => LocalOp(env.wrap, op, x, y)
  }

  function LocalOp(wrap: Wrapping, op: char, x: LocalVal, y: LocalVal): Option<LocalVal> {
    if x.Scalar? && y.Scalar? then None
    else if x.Vector? && y.Vector? && |y.vals| < |x.vals| then None
    else
      var n := if x.Vector? then |x.vals| else |y.vals|;
      Some(Vector(seq(n, i requires 0 <= i < n => LocalRow(wrap, op, x, y, i))))
  }

  // Both give the meaning of the tree.

  ghost predicate Carries(env: Env, s: Shares, e: Expr) {
    Consistent(s, env.rows) && Secrets(env.wrap, s, env.rows) == EvalColumn(env, e)
  }

  ghost predicate Denotes(env: Env, mask: Mask, j: Joint, e: Expr) {
    if IsConst(env, e) then
      AreNumbers(j) && j.p0.v == j.p1.v == j.p2.v && IsKind(env.wrap, env.fp64, j.p0.v)
      && forall i: nat :: Eval(env, e, i) == j.p0.v
    else
      !AreNumbers(j)
      && forall k, w :: ShareOf(env, mask, k, w, j).Some? && Carries(env, ShareOf(env, mask, k, w, j).value, e)
  }

  lemma LeafDenotes(env: Env, mask: Mask, e: Expr)
    requires ValidEnv(env) && MaskFits(env.wrap, mask, env.fp64) && !e.Paren? && !e.Binary?
    ensures var v := MpcLeaf(env)(e.Postfix()[0]);
      && (v.Some? <==> Converts(env, e))
      && (v.Some? ==> Denotes(env, mask, v.value, e))
  {
    var token := e.Postfix()[0];
    if token in env.cols {
      var j := MpcLeaf(env)(token).value;
      var vals := env.cols[token];
      assert vals == EvalColumn(env, e);
      forall k, w ensures ShareOf(env, mask, k, w, j).Some? && Carries(env, ShareOf(env, mask, k, w, j).value, e) {
        ShareCarries(env.wrap, vals, mask, k, w, env.fp64);
      }
    }
  }

  lemma HoldDenotes(env: Env, mask: Mask, s: Shares, e: Expr)
    requires !IsConst(env, e) && Carries(env, s, e)
    ensures Denotes(env, mask, Hold(s), e)
  {
  }

  /** A library sharing of a column that is the tree's column carries the tree. */
  lemma SharedColumn(env: Env, mask: Mask, k: nat, w: nat, vals: Column, e: Expr, atStart: bool)
    requires ValidEnv(env) && MaskFits(env.wrap, mask, env.fp64) && e.WellFormed(atStart)
    requires vals == EvalColumn(env, e)
    ensures Carries(env, Share(env.wrap, vals, mask, k, w), e)
  {
    forall i | 0 <= i < env.rows ensures IsKind(env.wrap, env.fp64, vals[i]) || vals[i].Bad? {
      EvalKind(env, e, atStart, i);
    }
    ShareCarries(env.wrap, vals, mask, k, w, env.fp64);
  }

  lemma RowsAgree(env: Env, s: Shares, e: Expr)
    requires Consistent(s, env.rows)
    requires forall i | 0 <= i < env.rows :: Secret(env.wrap, s, i) == Eval(env, e, i)
    ensures Carries(env, s, e)
  {
  }

  lemma CarriedRows(env: Env, s: Shares, e: Expr)
    requires Carries(env, s, e)
    ensures forall i | 0 <= i < env.rows :: Secret(env.wrap, s, i) == Eval(env, e, i)
  {
  }

  lemma AddStep(env: Env, mask: Mask, k: nat, left: Expr, right: Expr, x: Joint, y: Joint)
    requires ValidEnv(env) && Denotes(env, mask, x, left) && Denotes(env, mask, y, right)
    ensures RunMpcAdd(env, mask, k, x, y).None? <==> IsConst(env, left) && IsConst(env, right)
    ensures RunMpcAdd(env, mask, k, x, y).Some? ==>
              Carries(env, RunMpcAdd(env, mask, k, x, y).value, Binary('+', left, right))
  {
    var sx, sy := ShareOf(env, mask, k, 0, x), ShareOf(env, mask, k, 1, y);
    var e := Binary('+', left, right);
    if !IsConst(env, left) {
      CarriedRows(env, sx.value, left);
    }
    if !IsConst(env, right) {
      CarriedRows(env, sy.value, right);
    }
    if !IsConst(env, left) && !IsConst(env, right) {
      AddIsPlus(env.wrap, sx.value, sy.value, env.rows);
      RowsAgree(env, Add(env.wrap, sx.value, sy.value), e);
    } else if !IsConst(env, right) {
      AddConstIsPlus(env.wrap, x.p0.v, sy.value, env.rows);
      RowsAgree(env, AddConst(env.wrap, x.p0.v, sy.value), e);
    } else if !IsConst(env, left) {
      AddConstIsPlus(env.wrap, y.p0.v, sx.value, env.rows);
      RowsAgree(env, AddConst(env.wrap, y.p0.v, sx.value), e);
    }
  }

  lemma SubStep(env: Env, mask: Mask, k: nat, left: Expr, right: Expr, x: Joint, y: Joint)
    requires ValidEnv(env) && Denotes(env, mask, x, left) && Denotes(env, mask, y, right)
    ensures RunMpcSub(env, mask, k, x, y).None? <==> IsConst(env, left) && IsConst(env, right)
    ensures RunMpcSub(env, mask, k, x, y).Some? ==>
              Carries(env, RunMpcSub(env, mask, k, x, y).value, Binary('-', left, right))
  {
    var sx, sy := ShareOf(env, mask, k, 0, x), ShareOf(env, mask, k, 1, y);
    var e := Binary('-', left, right);
    if !IsConst(env, left) {
      CarriedRows(env, sx.value, left);
    }
    if !IsConst(env, right) {
      CarriedRows(env, sy.value, right);
    }
    if !IsConst(env, left) && !IsConst(env, right) {
      SubIsMinus(env.wrap, sx.value, sy.value, env.rows);
      RowsAgree(env, Sub(env.wrap, sx.value, sy.value), e);
    } else if !IsConst(env, right) {
      SubConstIsMinus(env.wrap, x.p0.v, sy.value, true, env.rows);
      RowsAgree(env, SubConst(env.wrap, x.p0.v, sy.value, true), e);
    } else if !IsConst(env, left) {
      SubConstIsMinus(env.wrap, y.p0.v, sx.value, false, env.rows);
      RowsAgree(env, SubConst(env.wrap, y.p0.v, sx.value, false), e);
    }
  }

  /** What the library deals for a column of rows that are the tree's rows. */
  lemma LibraryShare(env: Env, mask: Mask, k: nat, vals: Column, e: Expr, atStart: bool)
    requires ValidEnv(env) && MaskFits(env.wrap, mask, env.fp64) && e.WellFormed(atStart)
    requires |vals| == env.rows && forall i | 0 <= i < env.rows :: vals[i] == Eval(env, e, i)
    ensures Carries(env, Share(env.wrap, vals, mask, k, 2), e)
  {
    assert vals == EvalColumn(env, e);
    SharedColumn(env, mask, k, 2, vals, e, atStart);
  }

  lemma ByRowCarries(env: Env, mask: Mask, k: nat, e: Expr, atStart: bool, sx: Shares, sy: Shares)
    requires ValidEnv(env) && MaskFits(env.wrap, mask, env.fp64) && e.Binary? && e.WellFormed(atStart)
    requires Carries(env, sx, e.left) && Carries(env, sy, e.right)
    ensures MpcByRow(env, mask, k, e.op, sx, sy).Some?
    ensures Carries(env, MpcByRow(env, mask, k, e.op, sx, sy).value, e)
  {
    var a, b := EvalColumn(env, e.left), EvalColumn(env, e.right);
    var vals := seq(env.rows, i requires 0 <= i < env.rows => Operate(env.wrap, e.op, a[i], b[i]));
    LibraryShare(env, mask, k, vals, e, atStart);
  }

  lemma MulConstCarries(env: Env, mask: Mask, k: nat, c: Num, x: Expr, e: Expr, atStart: bool, sx: Shares)
    requires ValidEnv(env) && MaskFits(env.wrap, mask, env.fp64) && e.WellFormed(atStart) && Carries(env, sx, x)
    requires forall i | 0 <= i < env.rows :: Eval(env, e, i) == Times(env.wrap, c, Eval(env, x, i))
    ensures MpcMulConst(env, mask, k, c, sx).Some?
    ensures Carries(env, MpcMulConst(env, mask, k, c, sx).value, e)
  {
    var a := EvalColumn(env, x);
    var vals := seq(env.rows, i requires 0 <= i < env.rows => Times(env.wrap, c, a[i]));
    LibraryShare(env, mask, k, vals, e, atStart);
  }

  lemma MulStep(env: Env, mask: Mask, k: nat, left: Expr, right: Expr, atStart: bool, x: Joint, y: Joint)
    requires ValidEnv(env) && MaskFits(env.wrap, mask, env.fp64) && Binary('*', left, right).WellFormed(atStart)
    requires Denotes(env, mask, x, left) && Denotes(env, mask, y, right)
    ensures RunMpcMul(env, mask, k, x, y).None? <==> IsConst(env, left) && IsConst(env, right)
    ensures RunMpcMul(env, mask, k, x, y).Some? ==>
              Carries(env, RunMpcMul(env, mask, k, x, y).value, Binary('*', left, right))
  {
    var sx, sy := ShareOf(env, mask, k, 0, x), ShareOf(env, mask, k, 1, y);
    var e := Binary('*', left, right);
    if !IsConst(env, left) && !IsConst(env, right) {
      ByRowCarries(env, mask, k, e, atStart, sx.value, sy.value);
    } else if !IsConst(env, right) {
      MulConstCarries(env, mask, k, x.p0.v, right, e, atStart, sy.value);
    } else if !IsConst(env, left) {
      forall i | 0 <= i < env.rows ensures Eval(env, e, i) == Times(env.wrap, y.p0.v, Eval(env, left, i)) {
        TimesCommutes(env.wrap, Eval(env, left, i), y.p0.v);
      }
      MulConstCarries(env, mask, k, y.p0.v, left, e, atStart, sx.value);
    }
  }

  lemma DivStep(env: Env, mask: Mask, k: nat, left: Expr, right: Expr, atStart: bool, x: Joint, y: Joint)
    requires ValidEnv(env) && MaskFits(env.wrap, mask, env.fp64) && Binary('/', left, right).WellFormed(atStart)
    requires Denotes(env, mask, x, left) && Denotes(env, mask, y, right)
    ensures RunMpcDiv(env, mask, k, x, y).None? <==> IsConst(env, left) && IsConst(env, right)
    ensures RunMpcDiv(env, mask, k, x, y).Some? ==>
              Carries(env, RunMpcDiv(env, mask, k, x, y).value, Binary('/', left, right))
  {
    var sx, sy := ShareOf(env, mask, k, 0, x), ShareOf(env, mask, k, 1, y);
    var e := Binary('/', left, right);
    if !IsConst(env, left) && !IsConst(env, right) {
      ByRowCarries(env, mask, k, e, atStart, sx.value, sy.value);
    } else if !IsConst(env, right) {
      var vals := seq(env.rows, i => x.p0.v);
      assert vals == EvalColumn(env, left);
      SharedColumn(env, mask, k, 0, vals, left, atStart);
      ByRowCarries(env, mask, k, e, atStart, Share(env.wrap, vals, mask, k, 0), sy.value);
    } else if !IsConst(env, left) {
      var c := Divide(Real(1.0), y.p0.v);
      forall i | 0 <= i < env.rows ensures Eval(env, e, i) == Times(env.wrap, c, Eval(env, left, i)) {
        DivideByConst(env.wrap, Eval(env, left, i), y.p0.v);
      }
      MulConstCarries(env, mask, k, c, left, e, atStart, sx.value);
    }
  }

  lemma DivideByConst(wrap: Wrapping, x: Num, c: Num)
    ensures Divide(x, c) == Times(wrap, Divide(Real(1.0), c), x)
  {
    if c.Real? {
      ReciprocalDivides(wrap, x, c);
      TimesCommutes(wrap, x, Divide(Real(1.0), c));
    }
  }

  /** The three parties get through a program exactly when every operand has a value and no operator has two numbers;
      what they then hold shares the column of the tree. */
  lemma {:induction false} MpcDenotes(env: Env, mask: Mask, e: Expr, atStart: bool, after: nat)
    requires ValidEnv(env) && MaskFits(env.wrap, mask, env.fp64) && e.WellFormed(atStart)
    ensures var v := Value(e, after, MpcLeaf(env), MpcApply(env, mask));
      && (v.Some? <==> NoConstPair(env, e) && Converts(env, e))
      && (v.Some? ==> Denotes(env, mask, v.value, e))
  {
    var leaf, apply := MpcLeaf(env), MpcApply(env, mask);
    match e
    case Paren(inner) => MpcDenotes(env, mask, inner, false, after);
    case Binary(op, left, right) =>
      MpcDenotes(env, mask, left, atStart, after + 1 + |right.Postfix()|);
      MpcDenotes(env, mask, right, false, after + 1);
      var l := Value(left, after + 1 + |right.Postfix()|, leaf, apply);
      var r := Value(right, after + 1, leaf, apply);
      assert Value(e, after, leaf, apply) == if l.None? || r.None? then None else apply(after + 1, op, l.value, r.value);
      MpcOperator(env, mask, e, atStart, after, l, r);
    case _ => LeafDenotes(env, mask, e);
  }

  lemma MpcOperator(env: Env, mask: Mask, e: Expr, atStart: bool, after: nat, l: Option<Joint>, r: Option<Joint>)
    requires ValidEnv(env) && MaskFits(env.wrap, mask, env.fp64) && e.Binary? && e.WellFormed(atStart)
    requires l.Some? <==> NoConstPair(env, e.left) && Converts(env, e.left)
    requires r.Some? <==> NoConstPair(env, e.right) && Converts(env, e.right)
    requires (l.Some? ==> Denotes(env, mask, l.value, e.left)) && (r.Some? ==> Denotes(env, mask, r.value, e.right))
    ensures var v := if l.None? || r.None? then None else MpcApply(env, mask)(after + 1, e.op, l.value, r.value);
      (v.Some? <==> NoConstPair(env, e) && Converts(env, e)) && (v.Some? ==> Denotes(env, mask, v.value, e))
  {
    if l.Some? && r.Some? {
      MpcStep(env, mask, after + 1, e, atStart, l.value, r.value);
    }
  }

  lemma MpcStep(env: Env, mask: Mask, k: nat, e: Expr, atStart: bool, x: Joint, y: Joint)
    requires ValidEnv(env) && MaskFits(env.wrap, mask, env.fp64) && e.Binary? && e.WellFormed(atStart)
    requires Denotes(env, mask, x, e.left) && Denotes(env, mask, y, e.right)
    ensures var v := MpcApply(env, mask)(k, e.op, x, y);
      && (v.None? <==> IsConst(env, e.left) && IsConst(env, e.right))
      && (v.Some? ==> Denotes(env, mask, v.value, e))
  {
    assert e == Binary(e.op, e.left, e.right);
    var s: Option<Shares>;
    if e.op == '+' {
      AddStep(env, mask, k, e.left, e.right, x, y);
      s := RunMpcAdd(env, mask, k, x, y);
    } else if e.op == '-' {
      SubStep(env, mask, k, e.left, e.right, x, y);
      s := RunMpcSub(env, mask, k, x, y);
    } else if e.op == '*' {
      MulStep(env, mask, k, e.left, e.right, atStart, x, y);
      s := RunMpcMul(env, mask, k, x, y);
    } else {
      DivStep(env, mask, k, e.left, e.right, atStart, x, y);
      s := RunMpcDiv(env, mask, k, x, y);
    }
    if s.Some? {
      HoldDenotes(env, mask, s.value, e);
    }
  }

  ghost predicate LocalDenotes(env: Env, v: LocalVal, e: Expr) {
    if IsConst(env, e) then v.Scalar? && forall i: nat :: Eval(env, e, i) == v.v
    else v.Vector? && v.vals == EvalColumn(env, e)
  }

  lemma LocalStep(env: Env, e: Expr, x: LocalVal, y: LocalVal)
    requires e.Binary? && LocalDenotes(env, x, e.left) && LocalDenotes(env, y, e.right) && IsOperator(e.op)
    ensures var v := LocalOp(env.wrap, e.op, x, y);
      && (v.None? <==> IsConst(env, e.left) && IsConst(env, e.right))
      && (v.Some? ==> LocalDenotes(env, v.value, e))
  {
    var v := LocalOp(env.wrap, e.op, x, y);
    if v.Some? {
      forall i | 0 <= i < env.rows ensures v.value.vals[i] == Eval(env, e, i) {
        if y.Scalar? && e.op == '+' {
          assert Plus(env.wrap, y.v, x.vals[i]) == Plus(env.wrap, x.vals[i], y.v) by {
            PlusCommutes(env.wrap, y.v, x.vals[i]);
          }
        }
      }
      assert v.value.vals == EvalColumn(env, e);
    }
  }

  lemma PlusCommutes(wrap: Wrapping, x: Num, y: Num)
    ensures Plus(wrap, x, y) == Plus(wrap, y, x)
  {
  }

  lemma {:induction false} LocalIsMeaning(env: Env, e: Expr, atStart: bool, after: nat)
    requires ValidEnv(env) && e.WellFormed(atStart)
    ensures var v := Value(e, after, LocalLeaf(env), LocalApply(env));
      && (v.Some? <==> NoConstPair(env, e) && Converts(env, e))
      && (v.Some? ==> LocalDenotes(env, v.value, e))
  {
    var leaf, apply := LocalLeaf(env), LocalApply(env);
    match e
    case Paren(inner) => LocalIsMeaning(env, inner, false, after);
    case Binary(op, left, right) =>
      LocalIsMeaning(env, left, atStart, after + 1 + |right.Postfix()|);
      LocalIsMeaning(env, right, false, after + 1);
      var l := Value(left, after + 1 + |right.Postfix()|, leaf, apply);
      var r := Value(right, after + 1, leaf, apply);
      if l.Some? && r.Some? {
        LocalStep(env, e, l.value, r.value);
      }
    case _ => LocalLeafIs(env, e);
  }

  lemma LocalLeafIs(env: Env, e: Expr)
    requires ValidEnv(env) && !e.Paren? && !e.Binary?
    ensures var v := LocalLeaf(env)(e.Postfix()[0]);
      (v.Some? <==> Converts(env, e)) && (v.Some? ==> LocalDenotes(env, v.value, e))
  {
    var token := e.Postfix()[0];
    if token in env.cols {
      assert env.cols[token] == EvalColumn(env, e);
    }
  }
}
