/**
 The stack machine both evaluators of an expression share: it reads a postfix program,
 keeps a stack of names beside a stack of values, and stores every value under its name.
 What an operand is worth and how an operator is applied are parameters.
 */
module PostfixMachine {
  import opened ExpressSyntax
  import opened ExpressParser

  datatype Option<+T> = None | Some(value: T)

  /** `Underflow`: an operator found fewer than two operands. `Faulted`: it could not be applied, or an operand has no
      value. */
  datatype Run<V> =
    | Halted(names: seq<string>, vals: seq<V>, table: map<string, V>)
    | Underflow
    | Faulted

  /** `apply` is also told how much of the program is left, which numbers the steps of a run. */
  function Evaluate<V>(program: seq<string>, names: seq<string>, vals: seq<V>, table: map<string, V>,
                       leaf: string -> Option<V>, apply: (nat, char, V, V) -> Option<V>): Run<V>
    requires |names| == |vals|
  {
    if program == [] then
      Halted(names, vals, table)
    else if IsOperatorToken(program[0]) then
      if |names| < 2 then Underflow else
      var h := |names| - 2;
      match apply(|program|, program[0][0], vals[h], vals[h + 1])
      case None => Faulted
      case Some(v) =>
        var name := "(" + names[h] + program[0] + names[h + 1] + ")";
        Evaluate(program[1..], names[..h] + [name], vals[..h] + [v], table[name := v], leaf, apply)
    else
      match leaf(program[0])
      case None => Faulted
      case Some(v) =>
        Evaluate(program[1..], names + [program[0]], vals + [v], table[program[0] := v], leaf, apply)
  }

  /** The value of a tree when `after` tokens follow its program. */
  function Value<V>(e: Expr, after: nat, leaf: string -> Option<V>, apply: (nat, char, V, V) -> Option<V>): Option<V> {
    match e
    case Paren(inner) => Value(inner, after, leaf, apply)
    case Binary(op, left, right) =>
      var l := Value(left, after + 1 + |right.Postfix()|, leaf, apply);
      var r := Value(right, after + 1, leaf, apply);
      if l.None? || r.None? then None else apply(after + 1, op, l.value, r.value)
    case _ => leaf(e.Postfix()[0])
  }

  /** The program of the tree pushes its name and its value, and touches nothing below them. */
  ghost predicate Pushes<V>(e: Expr, rest: seq<string>, names: seq<string>, vals: seq<V>, table: map<string, V>,
                            leaf: string -> Option<V>, apply: (nat, char, V, V) -> Option<V>, table': map<string, V>)
    requires |names| == |vals|
  {
    match Value(e, |rest|, leaf, apply)
    case None => Evaluate(e.Postfix() + rest, names, vals, table, leaf, apply) == Faulted
    case Some(v) =>
      && Evaluate(e.Postfix() + rest, names, vals, table, leaf, apply)
         == Evaluate(rest, names + [NameOf(e)], vals + [v], table', leaf, apply)
      && NameOf(e) in table' && table'[NameOf(e)] == v
  }

  /** Running the program of a tree does that, or faults when the tree has no value. */
  lemma {:induction false} RunsTree<V>(e: Expr, atStart: bool, rest: seq<string>, names: seq<string>, vals: seq<V>,
                                       table: map<string, V>, leaf: string -> Option<V>,
                                       apply: (nat, char, V, V) -> Option<V>)
    returns (table': map<string, V>)
    requires e.WellFormed(atStart) && |names| == |vals|
    ensures Pushes(e, rest, names, vals, table, leaf, apply, table')
    decreases e, 1
  {
    match e
    case Paren(inner) =>
      table' := RunsTree(inner, false, rest, names, vals, table, leaf, apply);
    case Binary(op, left, right) =>
      table' := RunsBinary(e, atStart, rest, names, vals, table, leaf, apply);
    case Atom(name) =>
      assert !IsOperatorToken(name) by { assert IsPlain(name[0]); }
      table' := RunsLeaf(name, rest, names, vals, table, leaf, apply);
    case Negative(body) =>
      table' := RunsLeaf("-" + body, rest, names, vals, table, leaf, apply);
    case Leading(body) =>
      table' := RunsLeaf("-" + body, rest, names, vals, table, leaf, apply);
  }

  lemma {:induction false} RunsBinary<V>(e: Expr, atStart: bool, rest: seq<string>, names: seq<string>, vals: seq<V>,
                                         table: map<string, V>, leaf: string -> Option<V>,
                                         apply: (nat, char, V, V) -> Option<V>)
    returns (table': map<string, V>)
    requires e.Binary? && e.WellFormed(atStart) && |names| == |vals|
    ensures Pushes(e, rest, names, vals, table, leaf, apply, table')
    decreases e, 0
  {
    var op, left, right := e.op, e.left, e.right;
    var l, r := left.Postfix(), right.Postfix();
    assert e.Postfix() + rest == l + (r + ([[op]] + rest));
    var t1 := RunsTree(left, atStart, r + ([[op]] + rest), names, vals, table, leaf, apply);
    var vl := Value(left, |rest| + 1 + |r|, leaf, apply);
    table' := t1;
    if vl.Some? {
      var names1, vals1 := names + [NameOf(left)], vals + [vl.value];
      var t2 := RunsTree(right, false, [[op]] + rest, names1, vals1, t1, leaf, apply);
      var vr := Value(right, |rest| + 1, leaf, apply);
      if vr.Some? {
        table' := RunsOperator(op, rest, names, vals, NameOf(left), NameOf(right), vl.value, vr.value, t2, leaf, apply);
      }
    }
  }

  lemma RunsLeaf<V>(token: string, rest: seq<string>, names: seq<string>, vals: seq<V>, table: map<string, V>,
                    leaf: string -> Option<V>, apply: (nat, char, V, V) -> Option<V>)
    returns (table': map<string, V>)
    requires |names| == |vals| && !IsOperatorToken(token)
    ensures var start := Evaluate([token] + rest, names, vals, table, leaf, apply);
      if leaf(token).None? then start == Faulted else
      && start == Evaluate(rest, names + [token], vals + [leaf(token).value], table', leaf, apply)
      && token in table' && table'[token] == leaf(token).value
  {
    assert ([token] + rest)[1..] == rest;
    match leaf(token)
    case None => table' := table;
    case Some(v) => table' := table[token := v];
  }

  lemma RunsOperator<V>(op: char, rest: seq<string>, names: seq<string>, vals: seq<V>, a: string, b: string, x: V, y: V,
                        table: map<string, V>, leaf: string -> Option<V>, apply: (nat, char, V, V) -> Option<V>)
    returns (table': map<string, V>)
    requires |names| == |vals| && IsOperator(op)
    ensures var name := "(" + a + [op] + b + ")";
            var start := Evaluate([[op]] + rest, names + [a] + [b], vals + [x] + [y], table, leaf, apply);
            var v := apply(|rest| + 1, op, x, y);
            if v.None? then start == Faulted else
            && start == Evaluate(rest, names + [name], vals + [v.value], table', leaf, apply)
            && name in table' && table'[name] == v.value
  {
    var h := |names|;
    var ns, vs := names + [a] + [b], vals + [x] + [y];
    assert ([[op]] + rest)[1..] == rest;
    assert ns[..h] == names && vs[..h] == vals;
    var name := "(" + a + [op] + b + ")";
    assert [op][0] == op && IsOperatorToken([op]);
    match apply(|rest| + 1, op, x, y)
    case None => table' := table;
    case Some(v) => table' := table[name := v];
  }

  // Stack safety, for any program.

  /** With `h` operands on the stack, no operator of the program will lack one. */
  predicate Executable(program: seq<string>, h: nat) {
    program == [] ||
    if IsOperatorToken(program[0]) then h >= 2 && Executable(program[1..], h - 1)
    else Executable(program[1..], h + 1)
  }

  function Height(program: seq<string>, h: nat): nat
    requires Executable(program, h)
  {
    if program == [] then h
    else if IsOperatorToken(program[0]) then Height(program[1..], h - 1)
    else Height(program[1..], h + 1)
  }

  /** A run underflows exactly when it gets that far and an operator lacks an operand; otherwise the
      two stacks end at the same, predicted height. */
  lemma {:induction false} SafeRun<V>(program: seq<string>, names: seq<string>, vals: seq<V>, table: map<string, V>,
                                      leaf: string -> Option<V>, apply: (nat, char, V, V) -> Option<V>)
    requires |names| == |vals|
    ensures var run := Evaluate(program, names, vals, table, leaf, apply);
      && (run.Underflow? ==> !Executable(program, |names|))
      && (run.Halted? ==> Executable(program, |names|) && |run.names| == |run.vals| == Height(program, |names|))
    decreases program
  {
    if program == [] {
    } else if IsOperatorToken(program[0]) {
      if |names| >= 2 {
        var h := |names| - 2;
        match apply(|program|, program[0][0], vals[h], vals[h + 1])
        case None =>
        case Some(v) =>
          var name := "(" + names[h] + program[0] + names[h + 1] + ")";
          SafeRun(program[1..], names[..h] + [name], vals[..h] + [v], table[name := v], leaf, apply);
      }
    } else {
      match leaf(program[0])
      case None =>
      case Some(v) => SafeRun(program[1..], names + [program[0]], vals + [v], table[program[0] := v], leaf, apply);
    }
  }

  lemma {:induction false} PostfixExecutable(e: Expr, atStart: bool, rest: seq<string>, h: nat)
    requires e.WellFormed(atStart)
    ensures Executable(e.Postfix() + rest, h) <==> Executable(rest, h + 1)
    ensures Executable(rest, h + 1) ==> Height(e.Postfix() + rest, h) == Height(rest, h + 1)
  {
    match e
    case Paren(inner) => PostfixExecutable(inner, false, rest, h);
    case Binary(op, left, right) =>
      var l, r := left.Postfix(), right.Postfix();
      assert e.Postfix() + rest == l + (r + ([[op]] + rest));
      PostfixExecutable(left, atStart, r + ([[op]] + rest), h);
      PostfixExecutable(right, false, [[op]] + rest, h + 1);
      assert ([[op]] + rest)[1..] == rest;
    case Atom(name) =>
      assert IsPlain(name[0]) && !IsOperatorToken(name) && ([name] + rest)[1..] == rest;
    case Negative(body) => assert (["-" + body] + rest)[1..] == rest && |"-" + body| > 1;
    case Leading(body) => assert (["-" + body] + rest)[1..] == rest && |"-" + body| > 1;
  }

  /** The program of an expression, at every point of its run: the suffix still to run is executable
      from the height reached, and one operand is left at the end. */
  lemma {:induction false} ProgramIsSafe(e: Expr, atStart: bool, k: nat)
    requires e.WellFormed(atStart) && k <= |e.Postfix()|
    ensures Executable(e.Postfix(), 0) && Height(e.Postfix(), 0) == 1
    ensures Executable(e.Postfix()[..k], 0)
    ensures Executable(e.Postfix()[k..], Height(e.Postfix()[..k], 0))
    ensures Height(e.Postfix()[k..], Height(e.Postfix()[..k], 0)) == 1
  {
    PostfixExecutable(e, atStart, [], 0);
    assert e.Postfix() + [] == e.Postfix();
    SplitExecutable(e.Postfix(), k, 0);
  }

  lemma {:induction false} SplitExecutable(program: seq<string>, k: nat, h: nat)
    requires k <= |program| && Executable(program, h)
    ensures Executable(program[..k], h) && Executable(program[k..], Height(program[..k], h))
    ensures Height(program[k..], Height(program[..k], h)) == Height(program, h)
    decreases k
  {
    if k > 0 {
      assert program[..k][1..] == program[1..][..k - 1] && program[k..] == program[1..][k - 1..];
      SplitExecutable(program[1..], k - 1, if IsOperatorToken(program[0]) then h - 1 else h + 1);
    }
  }
}
