/**
 The infix expressions of the expression executor: how they are written, which tree
 precedence and left associativity give to them, and the postfix program of a tree.
 */
module ExpressSyntax {

  predicate IsOperator(c: char) {
    c == '+' || c == '-' || c == '*' || c == '/'
  }

  predicate IsOperatorToken(token: string) {
    token == "+" || token == "-" || token == "*" || token == "/"
  }

  function Priority(c: char): nat {
    if c == '+' || c == '-' then 1 else if c == '*' || c == '/' then 2 else 0
  }

  /** A character that may stand in a column name or a number. */
  predicate IsPlain(c: char) {
    !IsOperator(c) && c != '(' && c != ')'
  }

  predicate IsName(s: string) {
    s != "" && forall k | 0 <= k < |s| :: IsPlain(s[k])
  }

  /** What may follow the sign of a bracketed negative: the parser reads up to the next ')'. */
  predicate IsSwallowed(s: string) {
    s != "" && ')' !in s
  }

  /** Expression trees. `Negative` is written "(-c)", `Leading` is "-c" at the very start. */
  datatype Expr =
    | Atom(name: string)
    | Negative(body: string)
    | Leading(body: string)
    | Paren(inner: Expr)
    | Binary(op: char, left: Expr, right: Expr)
  {
    function Level(): nat {
      if Binary? then Priority(op) else 3
    }

    /** The text of the tree. */
    function Print(): string {
      match this
      case Atom(name) => name
      case Negative(body) => "(-" + body + ")"
      case Leading(body) => "-" + body
      case Paren(inner) => "(" + inner.Print() + ")"
      case Binary(op, left, right) => left.Print() + [op] + right.Print()
    }

    /** The tree groups its text by precedence, then to the left. */
    predicate WellFormed(atStart: bool) {
      match this
      case Atom(name) => IsName(name)
      case Negative(body) => IsSwallowed(body)
      case Leading(body) => atStart && IsName(body)
      case Paren(inner) => inner.WellFormed(false)
      case Binary(op, left, right) =>
        && IsOperator(op)
        && left.Level() >= Priority(op)
        && right.Level() > Priority(op)
        && left.WellFormed(atStart)
        && right.WellFormed(false)
    }

    /** The program a stack machine runs for the tree, first token first. */
    function Postfix(): (p: seq<string>)
      ensures p != []
    {
      match this
      case Atom(name) => [name]
      case Negative(body) => ["-" + body]
      case Leading(body) => ["-" + body]
      case Paren(inner) => inner.Postfix()
      case Binary(op, left, right) => left.Postfix() + right.Postfix() + [[op]]
    }

    function Operators(): nat {
      match this
      case Paren(inner) => inner.Operators()
      case Binary(op, left, right) => left.Operators() + right.Operators() + 1
      case _ => 0
    }
  }

  /** Infix expressions as they are typed: operands joined by operators, in any order of precedence. */
  datatype Infix =
    | One(first: Operand)
    | More(init: Infix, op: char, last: Operand)
  datatype Operand =
    | Name(name: string)
    | Inverse(body: string)
    | Signed(body: string)
    | Group(inner: Infix)

  function Text(x: Infix): string {
    match x
    case One(first) => OperandText(first)
    case More(init, op, last) => Text(init) + [op] + OperandText(last)
  }

  function OperandText(o: Operand): string {
    match o
    case Name(name) => name
    case Inverse(body) => "(-" + body + ")"
    case Signed(body) => "-" + body
    case Group(inner) => "(" + Text(inner) + ")"
  }

  /** A leading sign is allowed at the very start, and needs an operator after its number. */
  predicate IsInfix(x: Infix, atStart: bool) {
    match x
    case One(first) => IsOperand(first, false)
    case More(init, op, last) =>
      && IsOperator(op)
      && IsOperand(last, false)
      && if init.One? then IsOperand(init.first, atStart) else IsInfix(init, atStart)
  }

  predicate IsOperand(o: Operand, atStart: bool) {
    match o
    case Name(name) => IsName(name)
    case Inverse(body) => IsSwallowed(body)
    case Signed(body) => atStart && IsName(body)
    case Group(inner) => IsInfix(inner, false)
  }

  /** Adds an operator and an operand at the right end of a tree. */
  function Attach(t: Expr, op: char, x: Expr): Expr {
    if t.Binary? && Priority(t.op) < Priority(op)
    then Binary(t.op, t.left, Attach(t.right, op, x))
    else Binary(op, t, x)
  }

  function Tree(x: Infix): Expr {
    match x
    case One(first) => OperandTree(first)
    case More(init, op, last) => Attach(Tree(init), op, OperandTree(last))
  }

  function OperandTree(o: Operand): Expr {
    match o
    case Name(name) => Atom(name)
    case Inverse(body) => Negative(body)
    case Signed(body) => Leading(body)
    case Group(inner) => Paren(Tree(inner))
  }

  lemma {:induction false} AttachWellFormed(t: Expr, op: char, x: Expr, atStart: bool)
    requires t.WellFormed(atStart) && IsOperator(op) && !x.Binary? && x.WellFormed(false)
    ensures Attach(t, op, x).WellFormed(atStart)
    ensures Attach(t, op, x).Print() == t.Print() + [op] + x.Print()
    ensures t.Binary? && Priority(t.op) < Priority(op) ==> Attach(t, op, x).Level() == t.Level()
    ensures !(t.Binary? && Priority(t.op) < Priority(op)) ==> Attach(t, op, x).Level() == Priority(op)
  {
    if t.Binary? && Priority(t.op) < Priority(op) {
      AttachWellFormed(t.right, op, x, false);
      var l, o, r := t.left.Print(), [t.op], t.right.Print();
      assert l + o + (r + [op] + x.Print()) == (l + o + r) + [op] + x.Print();
    }
  }

  /** Every infix expression has a tree: same text, grouped by precedence and to the left. */
  lemma {:induction false} TreeWellFormed(x: Infix, atStart: bool)
    requires IsInfix(x, atStart) || (x.One? && IsOperand(x.first, atStart))
    ensures Tree(x).WellFormed(atStart)
    ensures Tree(x).Print() == Text(x)
    decreases x
  {
    match x
    case One(first) =>
      OperandWellFormed(first, atStart);
    case More(init, op, last) =>
      TreeWellFormed(init, atStart);
      OperandWellFormed(last, false);
      AttachWellFormed(Tree(init), op, OperandTree(last), atStart);
  }

  lemma {:induction false} OperandWellFormed(o: Operand, atStart: bool)
    requires IsOperand(o, atStart) || IsOperand(o, false)
    ensures OperandTree(o).WellFormed(atStart) && !OperandTree(o).Binary?
    ensures OperandTree(o).Print() == OperandText(o)
    ensures IsOperand(o, false) ==> OperandTree(o).WellFormed(false)
    decreases o
  {
    if o.Group? {
      TreeWellFormed(o.inner, false);
    }
  }

  /** The text of a tree does not end in an opening bracket, and starts with a sign only at the very start. */
  lemma {:induction false} PrintEnds(e: Expr, atStart: bool)
    requires e.WellFormed(atStart)
    ensures e.Print() != "" && e.Print()[|e.Print()| - 1] != '('
    ensures !atStart ==> e.Print()[0] != '-'
  {
    match e
    case Paren(inner) => PrintEnds(inner, false);
    case Binary(op, left, right) =>
      PrintEnds(left, atStart);
      PrintEnds(right, false);
    case _ =>
  }
}
