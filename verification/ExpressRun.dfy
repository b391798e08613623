/**
 The executor objects and their methods, proved against the functions of the other modules,
 and what the documented order of calls computes.
 */
module ExpressRun {
  import opened ExpressSyntax
  import opened ExpressParser
  import opened PostfixMachine
  import opened Numbers
  import opened SecretShares
  import opened ExpressExecutor

  datatype Status = Done | StackUnderflow | Fault | ParseFault

  /** The share a party can open is the one stored under the token on top of the stack. */
  function StoredResult(env: Env, stack: seq<string>, table: map<string, Joint>, party: nat): Option<Column> {
    if stack == [] || stack[0] !in table then None else OpenTo(env, table[stack[0]], party)
  }

  /** What a party gets when the others send it the addend it lacks. */
  function OpenTo(env: Env, j: Joint, party: nat): Option<Column> {
    match (j.p0, j.p1, j.p2)
    case (Held(v0), Held(v1), Held(v2)) =>
      var mine := if party == 0 then v0 else if party == 1 then v1 else v2;
      var sent := if party == 0 then v1.own else if party == 1 then v2.own else v0.own;
      if |mine.own| == |mine.prev| == |sent| then Some(Opened(env.wrap, mine, sent)) else None
    case _ => None
  }

  /** The three parties' executors, which run the same program in lock step. */
  class MpcExpressExecutor {
    const env: Env
    const mask: Mask
    var suffixStk: seq<string>
    var expr: string
    var tokenVals: map<string, Joint>

    constructor (env: Env, mask: Mask)
      ensures this.env == env && this.mask == mask && suffixStk == [] && tokenVals == map[]
    {
      this.env, this.mask := env, mask;
      suffixStk, expr, tokenVals := [], "", map[];
    }

    method ParseExpress(text: string) returns (defined: bool)
      modifies this`suffixStk
      ensures match Parse(text, old(suffixStk))
              case Parsed(stack) => defined && suffixStk == stack
              case ReadPastEnd => !defined
    {
      var temp, stk2: seq<string>, i := "", [], 0;
      while i < |text|
        invariant i <= |text|
        invariant ParseFrom(text, i, Reading(temp, suffixStk, stk2)) == Parse(text, old(suffixStk))
      {
        var c := text[i];
        if c == '-' && i == 0 {
          var k := 1;
          while k < |text| && !IsOperator(text[k])
            invariant 1 <= k <= |text| && NextOperator(text, k) == NextOperator(text, 1)
          {
            k := k + 1;
          }
          if k == |text| {
            return false;
          }
          temp, i := temp + text[..k], k;
        } else if c == '-' && text[i - 1] == '(' {
          var k := i;
          while k < |text| && text[k] != ')'
            invariant i <= k <= |text| && NextClose(text, k) == NextClose(text, i)
          {
            k := k + 1;
          }
          if k == |text| {
            return false;
          }
          temp, i := temp + text[i..k], k;
        } else {
          if IsOperator(c) {
            stk2 := stk2 + Flush(temp);
            temp := "";
            stk2 := PushOperator(c, stk2);
          } else if c == '(' {
            suffixStk := ["("] + suffixStk;
          } else if c == ')' {
            temp, stk2 := CloseBracket(temp, stk2);
          } else {
            temp := temp + [c];
          }
          i := i + 1;
        }
      }
      if temp != "" {
        stk2 := stk2 + [temp];
      }
      ghost var final := stk2 + suffixStk;
      while stk2 != []
        invariant stk2 + suffixStk == final
        decreases |stk2|
      {
        suffixStk := [stk2[|stk2| - 1]] + suffixStk;
        stk2 := stk2[..|stk2| - 1];
      }
      assert suffixStk == [] + suffixStk == final;
      defined := true;
    }

    /** The loop that makes room for an operator and pushes it. */
    method PushOperator(c: char, stk2: seq<string>) returns (out: seq<string>)
      modifies this`suffixStk
      ensures var n := Outranked(c, old(suffixStk));
        suffixStk == [[c]] + old(suffixStk)[n..] && out == stk2 + old(suffixStk)[..n]
    {
      ghost var ops, n := suffixStk, 0;
      out := stk2;
      while suffixStk != [] && First(suffixStk[0]) != '(' && Priority(c) <= Priority(First(suffixStk[0]))
        invariant n <= |ops| && suffixStk == ops[n..] && out == stk2 + ops[..n]
        invariant Outranked(c, ops) == n + Outranked(c, suffixStk)
        decreases |suffixStk|
      {
        out := out + [suffixStk[0]];
        suffixStk := suffixStk[1..];
        n := n + 1;
      }
      suffixStk := [[c]] + suffixStk;
    }

    /** The loop that empties a bracket; what was being read is flushed only if an operator leaves. */
    method CloseBracket(temp: string, stk2: seq<string>) returns (rest: string, out: seq<string>)
      modifies this`suffixStk
      ensures Reading(rest, suffixStk, out) == Step(')', Reading(temp, old(suffixStk), stk2))
    {
      ghost var ops, n := suffixStk, 0;
      rest, out := temp, stk2;
      while suffixStk != [] && First(suffixStk[0]) != '('
        invariant n <= |ops| && suffixStk == ops[n..]
        invariant AboveBracket(ops) == n + AboveBracket(suffixStk)
        invariant if n == 0 then rest == temp && out == stk2 else rest == "" && out == stk2 + Flush(temp) + ops[..n]
        decreases |suffixStk|
      {
        if rest != "" {
          out := out + [rest];
          rest := "";
        }
        out := out + [suffixStk[0]];
        suffixStk := suffixStk[1..];
        n := n + 1;
      }
      if suffixStk != [] {
        suffixStk := suffixStk[1..];
      }
    }

    method CheckExpress() returns (ok: bool)
      ensures ok == Accepts(suffixStk)
    {
      var n, numOp := |suffixStk|, 0;
      var plain := true;
      for k := 0 to n
        invariant numOp == OperatorCount(suffixStk[..k]) % 0x1_0000
        invariant plain == forall m | 0 <= m < k :: !HasBracket(suffixStk[m])
      {
        assert suffixStk[..k + 1] == suffixStk[..k] + [suffixStk[k]];
        OperatorCountConcat(suffixStk[..k], [suffixStk[k]]);
        assert [suffixStk[k]][1..] == [];
        if IsOperatorToken(suffixStk[k]) {
          numOp := (numOp + 1) % 0x1_0000;
        }
        plain := plain && !HasBracket(suffixStk[k]);
      }
      assert suffixStk[..n] == suffixStk;
      ok := n - numOp == numOp + 1 && plain;
    }

    method ImportExpress(text: string) returns (ok: bool)
      modifies this`suffixStk, this`expr
      ensures match Parse(text, old(suffixStk))
              case Parsed(stack) => suffixStk == stack && ok == Accepts(stack)
              case ReadPastEnd => !ok
      ensures expr == if ok then text else old(expr)
    {
      ok := ParseExpress(text);
      if ok {
        ok := CheckExpress();
      }
      if ok {
        expr := text;
      }
    }

    /** Decides the run mode, and which tokens are columns. `unknown` tells that a token is no column: it is taken for a
        number, though the lookup of its type raises an exception. */
    method ResolveRunMode(floatCols: set<string>) returns (fp64: bool, columns: set<string>, unknown: bool)
      ensures fp64 == IsFloatingRun(suffixStk, floatCols, env.cols.Keys)
      ensures fp64 <==> || floatCols != {} || "/" in suffixStk
                        || exists token | token in suffixStk ::
                             token !in ["+", "-", "*", "/"] && token !in env.cols && '.' in token
      ensures columns == set token | token in suffixStk && !IsOperatorToken(token) && token in env.cols
      ensures unknown <==> exists token | token in suffixStk :: !IsOperatorToken(token) && token !in env.cols
    {
      var seen := false;
      columns, unknown := {}, false;
      for k := 0 to |suffixStk|
        invariant columns == set token | token in suffixStk[..k] && !IsOperatorToken(token) && token in env.cols
        invariant unknown <==> exists token | token in suffixStk[..k] :: !IsOperatorToken(token) && token !in env.cols
        invariant seen == exists m | 0 <= m < k ::
            suffixStk[m] == "/" || (!IsOperatorToken(suffixStk[m]) && suffixStk[m] !in env.cols && '.' in suffixStk[m])
      {
        var token := suffixStk[k];
        if IsOperatorToken(token) {
          seen := seen || token == "/";
        } else if token in env.cols {
          columns := columns + {token};
        } else {
          seen, unknown := seen || '.' in token, true;
        }
      }
      assert suffixStk[..|suffixStk|] == suffixStk;
      fp64 := seen || floatCols != {};
    }

    /** Runs the program on the stack; the name of the result is left in its place. */
    method RunMpcEvaluate() returns (status: Status)
      modifies this`suffixStk, this`tokenVals
      ensures match Evaluate(old(suffixStk), [], [], old(tokenVals), MpcLeaf(env), MpcApply(env, mask))
              case Halted(names, vals, table) => status == Done && suffixStk == names && tokenVals == table
              case Underflow => status == StackUnderflow
              case Faulted => status == Fault
    {
      var stk1: seq<string>, valStk: seq<Joint> := [], [];
      while suffixStk != []
        invariant |stk1| == |valStk|
        invariant Evaluate(suffixStk, stk1, valStk, tokenVals, MpcLeaf(env), MpcApply(env, mask))
               == Evaluate(old(suffixStk), [], [], old(tokenVals), MpcLeaf(env), MpcApply(env, mask))
        decreases |suffixStk|
      {
        var token := suffixStk[0];
        if IsOperatorToken(token) {
          if |stk1| < 2 {
            return StackUnderflow;
          }
          var h := |stk1| - 2;
          var res := MpcApply(env, mask)(|suffixStk|, token[0], valStk[h], valStk[h + 1]);
          if res.None? {
            return Fault;
          }
          var name := "(" + stk1[h] + token + stk1[h + 1] + ")";
          suffixStk := suffixStk[1..];
          stk1, valStk, tokenVals := stk1[..h] + [name], valStk[..h] + [res.value], tokenVals[name := res.value];
        } else {
          var val := MpcLeaf(env)(token);
          if val.None? {
            return Fault;
          }
          suffixStk := suffixStk[1..];
          stk1, valStk, tokenVals := stk1 + [token], valStk + [val.value], tokenVals[token := val.value];
        }
      }
      ghost var names, table := stk1, tokenVals;
      while stk1 != []
        invariant stk1 + suffixStk == names && tokenVals == table
        decreases |stk1|
      {
        suffixStk := [stk1[|stk1| - 1]] + suffixStk;
        stk1 := stk1[..|stk1| - 1];
      }
      assert suffixStk == [] + suffixStk == names;
      status := Done;
    }

    /** Opens the result to one party, and takes its name off the stack. */
    method RevealMpcResult(party: nat) returns (vals: Option<Column>)
      modifies this`suffixStk
      ensures vals == StoredResult(env, old(suffixStk), tokenVals, party)
      ensures suffixStk == if old(suffixStk) == [] then [] else old(suffixStk)[1..]
    {
      if suffixStk == [] {
        return None;
      }
      var token := suffixStk[0];
      suffixStk := suffixStk[1..];
      if token in tokenVals {
        vals := OpenTo(env, tokenVals[token], party);
      } else {
        vals := None;
      }
    }
  }

  /** The executor that computes on plain columns, with the parser of the other. */
  class LocalExpressExecutor {
    const mpc: MpcExpressExecutor
    var tokenVals: map<string, LocalVal>
    var finalVals: Column

    constructor (mpc: MpcExpressExecutor)
      ensures this.mpc == mpc && tokenVals == map[] && finalVals == []
    {
      this.mpc := mpc;
      tokenVals, finalVals := map[], [];
    }

    /** One operation, row after row. */
    method Calculate(op: char, x: LocalVal, y: LocalVal) returns (res: Option<LocalVal>)
      ensures res == LocalOp(mpc.env.wrap, op, x, y)
    {
      if x.Scalar? && y.Scalar? {
        return None;
      }
      var n := if x.Vector? then |x.vals| else |y.vals|;
      var vals: Column := [];
      for i := 0 to n
        invariant |vals| == i && (y.Vector? ==> i <= |y.vals|)
        invariant forall m | 0 <= m < i :: vals[m] == LocalRow(mpc.env.wrap, op, x, y, m)
      {
        if y.Vector? && i >= |y.vals| {
          return None;
        }
        vals := vals + [LocalRow(mpc.env.wrap, op, x, y, i)];
      }
      res := Some(Vector(vals));
      assert vals == seq(n, i requires 0 <= i < n => LocalRow(mpc.env.wrap, op, x, y, i));
    }

    /** Parses the expression once more and runs it; the rows are appended to those of earlier runs. */
    method RunLocalEvaluate() returns (status: Status)
      modifies this, mpc`suffixStk
      ensures match Parse(mpc.expr, old(mpc.suffixStk))
              case ReadPastEnd => status == ParseFault
              case Parsed(stack) =>
                match Evaluate(stack, [], [], old(tokenVals), LocalLeaf(mpc.env), LocalApply(mpc.env))
                case Underflow => status == StackUnderflow
                case Faulted => status == Fault
                case Halted(names, vals, table) =>
                  if names != [] && names[0] in table && table[names[0]].Vector?
                  then status == Done && finalVals == old(finalVals) + table[names[0]].vals && mpc.suffixStk == names[1..]
                  else status == Fault
    {
      var parsed := mpc.ParseExpress(mpc.expr);
      if !parsed {
        return ParseFault;
      }
      ghost var program := mpc.suffixStk;
      var stk1: seq<string>, valStk: seq<LocalVal> := [], [];
      while mpc.suffixStk != []
        invariant |stk1| == |valStk| && finalVals == old(finalVals) && mpc.expr == old(mpc.expr)
        invariant Evaluate(mpc.suffixStk, stk1, valStk, tokenVals, LocalLeaf(mpc.env), LocalApply(mpc.env))
               == Evaluate(program, [], [], old(tokenVals), LocalLeaf(mpc.env), LocalApply(mpc.env))
        decreases |mpc.suffixStk|
      {
        var token := mpc.suffixStk[0];
        if IsOperatorToken(token) {
          if |stk1| < 2 {
            return StackUnderflow;
          }
          var h := |stk1| - 2;
          var res := Calculate(token[0], valStk[h], valStk[h + 1]);
          if res.None? {
            return Fault;
          }
          var name := "(" + stk1[h] + token + stk1[h + 1] + ")";
          mpc.suffixStk := mpc.suffixStk[1..];
          stk1, valStk, tokenVals := stk1[..h] + [name], valStk[..h] + [res.value], tokenVals[name := res.value];
        } else {
          var val := LocalLeaf(mpc.env)(token);
          if val.None? {
            return Fault;
          }
          mpc.suffixStk := mpc.suffixStk[1..];
          stk1, valStk, tokenVals := stk1 + [token], valStk + [val.value], tokenVals[token := val.value];
        }
      }
      if stk1 == [] || stk1[0] !in tokenVals || tokenVals[stk1[0]].Scalar? {
        return Fault;
      }
      mpc.suffixStk := stk1[1..];
      finalVals := finalVals + tokenVals[stk1[0]].vals;
      status := Done;
    }
  }

  // What the documented order of calls computes.

  /** The program of an expression, run by the parties: the result is stored under the name of the tree,
      and whoever opens it gets the tree's column. */
  lemma {:induction false} MpcRun(env: Env, mask: Mask, e: Expr, table: map<string, Joint>)
    returns (table': map<string, Joint>, j: Joint)
    requires ValidEnv(env) && MaskFits(env.wrap, mask, env.fp64)
    requires e.WellFormed(true) && NoConstPair(env, e) && Converts(env, e) && e.Operators() > 0
    ensures Evaluate(e.Postfix(), [], [], table, MpcLeaf(env), MpcApply(env, mask)) == Halted([NameOf(e)], [j], table')
    ensures forall party | 0 <= party < 3 :: StoredResult(env, [NameOf(e)], table', party) == Some(EvalColumn(env, e))
  {
    MpcDenotes(env, mask, e, true, 0);
    table' := RunsTree(e, true, [], [], [], table, MpcLeaf(env), MpcApply(env, mask));
    assert e.Postfix() + [] == e.Postfix() && [] + [NameOf(e)] == [NameOf(e)];
    j := Value(e, 0, MpcLeaf(env), MpcApply(env, mask)).value;
    assert [] + [j] == [j];
    ResultIsHeld(env, mask, e, 0);
    assert ShareOf(env, mask, 0, 0, j) == Some(Shares(j.p0.view, j.p1.view, j.p2.view));
    OpensSecret(env.wrap, Shares(j.p0.view, j.p1.view, j.p2.view), env.rows);
  }

  lemma ResultOfStep(env: Env, mask: Mask, k: nat, op: char, x: Joint, y: Joint)
    ensures var v := MpcApply(env, mask)(k, op, x, y);
      v.Some? ==> v.value.p0.Held? && v.value.p1.Held? && v.value.p2.Held?
  {
    var s :=
      if op == '+' then RunMpcAdd(env, mask, k, x, y)
      else if op == '-' then RunMpcSub(env, mask, k, x, y)
      else if op == '*' then RunMpcMul(env, mask, k, x, y)
      else RunMpcDiv(env, mask, k, x, y);
    assert MpcApply(env, mask)(k, op, x, y) == if s.None? then None else Some(Hold(s.value));
  }

  /** The value of an expression with an operator is a share. */
  lemma {:induction false} ResultIsHeld(env: Env, mask: Mask, e: Expr, after: nat)
    requires e.Operators() > 0 && Value(e, after, MpcLeaf(env), MpcApply(env, mask)).Some?
    ensures var j := Value(e, after, MpcLeaf(env), MpcApply(env, mask)).value;
      j.p0.Held? && j.p1.Held? && j.p2.Held? && !IsConst(env, e)
  {
    if e.Paren? {
      ResultIsHeld(env, mask, e.inner, after);
    } else {
      var leaf, apply := MpcLeaf(env), MpcApply(env, mask);
      var l := Value(e.left, after + 1 + |e.right.Postfix()|, leaf, apply);
      var r := Value(e.right, after + 1, leaf, apply);
      ResultOfStep(env, mask, after + 1, e.op, l.value, r.value);
    }
  }

  lemma {:induction false} LocalRun(env: Env, e: Expr, table: map<string, LocalVal>)
    returns (table': map<string, LocalVal>)
    requires ValidEnv(env) && e.WellFormed(true) && NoConstPair(env, e) && Converts(env, e) && !IsConst(env, e)
    ensures Evaluate(e.Postfix(), [], [], table, LocalLeaf(env), LocalApply(env))
         == Halted([NameOf(e)], [Vector(EvalColumn(env, e))], table')
    ensures NameOf(e) in table' && table'[NameOf(e)] == Vector(EvalColumn(env, e))
  {
    LocalIsMeaning(env, e, true, 0);
    table' := RunsTree(e, true, [], [], [], table, LocalLeaf(env), LocalApply(env));
    assert e.Postfix() + [] == e.Postfix() && [] + [NameOf(e)] == [NameOf(e)];
    assert [] + [Vector(EvalColumn(env, e))] == [Vector(EvalColumn(env, e))];
  }

  /** Both evaluators stop at an operator with two numbers and at an operand without a value, and only there. */
  lemma {:induction false} FaultsTogether(env: Env, mask: Mask, e: Expr)
    requires ValidEnv(env) && MaskFits(env.wrap, mask, env.fp64) && e.WellFormed(true)
    ensures Evaluate(e.Postfix(), [], [], map[], MpcLeaf(env), MpcApply(env, mask)).Faulted?
            <==> !(NoConstPair(env, e) && Converts(env, e))
    ensures Evaluate(e.Postfix(), [], [], map[], LocalLeaf(env), LocalApply(env)).Faulted?
            <==> !(NoConstPair(env, e) && Converts(env, e))
  {
    assert e.Postfix() + [] == e.Postfix();
    MpcDenotes(env, mask, e, true, 0);
    LocalIsMeaning(env, e, true, 0);
    var t := RunsTree(e, true, [], [], [], map[], MpcLeaf(env), MpcApply(env, mask));
    var u := RunsTree(e, true, [], [], [], map[], LocalLeaf(env), LocalApply(env));
  }

  /** "1+2" and the like are well-formed and accepted, and both evaluators stop at them. */
  lemma ConstantsFault(env: Env, mask: Mask, op: char)
    requires ValidEnv(env) && MaskFits(env.wrap, mask, env.fp64) && "1" !in env.cols && "2" !in env.cols
    requires op == '+' || op == '-' || op == '*' || op == '/'
    ensures Parse("1" + [op] + "2", []) == Parsed(["1", "2", [op]]) && Accepts(["1", "2", [op]])
    ensures Evaluate(["1", "2", [op]], [], [], map[], MpcLeaf(env), MpcApply(env, mask)).Faulted?
    ensures Evaluate(["1", "2", [op]], [], [], map[], LocalLeaf(env), LocalApply(env)).Faulted?
  {
    var e := Binary(op, Atom("1"), Atom("2"));
    assert IsName("1") && IsName("2") && e.WellFormed(true);
    assert e.Print() == "1" + [op] + "2" && e.Postfix() == ["1", "2", [op]];
    ParsesTree(e);
    AcceptsTree(e, true);
    FaultsTogether(env, mask, e);
  }

  /** One operation whose right operand has no value is accepted, and both evaluators stop at the operand. */
  lemma UnknownFaults(env: Env, mask: Mask, e: Expr)
    requires ValidEnv(env) && MaskFits(env.wrap, mask, env.fp64) && e.Binary? && e.WellFormed(true)
    requires e.Operators() == 1 && BodiesAreClosed(e) && !Converts(env, e.right)
    ensures Parse(e.Print(), []) == Parsed(e.Postfix()) && Accepts(e.Postfix())
    ensures Evaluate(e.Postfix(), [], [], map[], MpcLeaf(env), MpcApply(env, mask)).Faulted?
    ensures Evaluate(e.Postfix(), [], [], map[], LocalLeaf(env), LocalApply(env)).Faulted?
  {
    ParsesTree(e);
    AcceptsTree(e, true);
    FaultsTogether(env, mask, e);
  }

  /** "X+Y" has no two numbers, but Y is neither a column nor a numeral. */
  lemma UnknownNameFaults(env: Env, mask: Mask)
    requires ValidEnv(env) && MaskFits(env.wrap, mask, env.fp64) && "X" in env.cols
    requires "Y" !in env.cols && env.number("Y").None?
    ensures Parse("X+Y", []) == Parsed(["X", "Y", "+"]) && Accepts(["X", "Y", "+"])
    ensures NoConstPair(env, Binary('+', Atom("X"), Atom("Y")))
    ensures Evaluate(["X", "Y", "+"], [], [], map[], MpcLeaf(env), MpcApply(env, mask)).Faulted?
    ensures Evaluate(["X", "Y", "+"], [], [], map[], LocalLeaf(env), LocalApply(env)).Faulted?
  {
    assert IsName("X") && IsName("Y");
    var e := Binary('+', Atom("X"), Atom("Y"));
    assert e.Print() == "X+Y" && e.Postfix() == ["X", "Y", "+"];
    UnknownFaults(env, mask, e);
  }

  /** So it is in "X*(-A+B)" with the swallowed "-A+B". */
  lemma SwallowedSumFaults(env: Env, mask: Mask)
    requires ValidEnv(env) && MaskFits(env.wrap, mask, env.fp64) && "X" in env.cols
    requires "-A+B" !in env.cols && env.number("-A+B").None?
    ensures Parse("X*(-A+B)", []) == Parsed(["X", "-A+B", "*"]) && Accepts(["X", "-A+B", "*"])
    ensures NoConstPair(env, Binary('*', Atom("X"), Negative("A+B")))
    ensures Evaluate(["X", "-A+B", "*"], [], [], map[], MpcLeaf(env), MpcApply(env, mask)).Faulted?
    ensures Evaluate(["X", "-A+B", "*"], [], [], map[], LocalLeaf(env), LocalApply(env)).Faulted?
  {
    assert IsName("X") && "-" + "A+B" == "-A+B";
    var e := Binary('*', Atom("X"), Negative("A+B"));
    assert e.Print() == "X*(-A+B)" && e.Postfix() == ["X", "-A+B", "*"];
    UnknownFaults(env, mask, e);
  }

  lemma {:induction false} OperatorIsNoConst(env: Env, e: Expr)
    requires e.Operators() > 0
    ensures !IsConst(env, e)
  {
    if e.Paren? {
      OperatorIsNoConst(env, e.inner);
    }
  }

  /** Import and choice of the run mode. */
  method Imported(env: Env, mask: Mask, ghost x: Infix, text: string, floatCols: set<string>)
    returns (mpc: MpcExpressExecutor)
    requires IsInfix(x, true) && text == Text(x)
    requires env.fp64 == IsFloatingRun(Tree(x).Postfix(), floatCols, env.cols.Keys)
    requires Tree(x).Operators() < 0x1_0000 && BodiesAreClosed(Tree(x))
    ensures fresh(mpc) && mpc.env == env && mpc.mask == mask && mpc.expr == text
    ensures mpc.suffixStk == Tree(x).Postfix() && mpc.tokenVals == map[]
  {
    TreeWellFormed(x, true);
    ParsesInfix(x);
    AcceptsTree(Tree(x), true);
    mpc := new MpcExpressExecutor(env, mask);
    var ok := mpc.ImportExpress(text);
    var fp64, columns, unknown := mpc.ResolveRunMode(floatCols);
    assert ok && fp64 == env.fp64;
  }

  /** Import, choose the run mode, evaluate over shares and open to a party. */
  method EvaluateJointly(env: Env, mask: Mask, ghost x: Infix, text: string, floatCols: set<string>, party: nat)
    returns (mpc: MpcExpressExecutor, joint: Column)
    requires ValidEnv(env) && MaskFits(env.wrap, mask, env.fp64) && party < 3
    requires IsInfix(x, true) && text == Text(x)
    requires env.fp64 == IsFloatingRun(Tree(x).Postfix(), floatCols, env.cols.Keys)
    requires 0 < Tree(x).Operators() < 0x1_0000 && BodiesAreClosed(Tree(x))
    requires NoConstPair(env, Tree(x)) && Converts(env, Tree(x))
    ensures joint == EvalColumn(env, Tree(x))
    ensures fresh(mpc) && mpc.env == env && mpc.expr == text && mpc.suffixStk == []
  {
    ghost var e := Tree(x);
    TreeWellFormed(x, true);
    mpc := Imported(env, mask, x, text, floatCols);
    ghost var table, j := MpcRun(env, mask, e, map[]);
    var status := mpc.RunMpcEvaluate();
    var result := mpc.RevealMpcResult(party);
    joint := result.value;
  }

  /** The joint evaluation, and then that on plain columns: both columns are the rows of the tree that precedence and left
      associativity give to the text. A row has no value exactly when a divisor is zero in it, which can only be in a
      floating-point run. */
  method EvaluateBothWays(env: Env, mask: Mask, ghost x: Infix, text: string, floatCols: set<string>, party: nat)
    returns (joint: Column, plain: Column)
    requires ValidEnv(env) && MaskFits(env.wrap, mask, env.fp64) && party < 3
    requires IsInfix(x, true) && text == Text(x)
    requires env.fp64 == IsFloatingRun(Tree(x).Postfix(), floatCols, env.cols.Keys)
    requires 0 < Tree(x).Operators() < 0x1_0000 && BodiesAreClosed(Tree(x))
    requires NoConstPair(env, Tree(x)) && Converts(env, Tree(x))
    ensures joint == plain == EvalColumn(env, Tree(x))
    ensures forall row | 0 <= row < env.rows :: joint[row].Bad? <==> env.fp64 && ZeroDivisor(env, Tree(x), row)
  {
    ghost var e := Tree(x);
    TreeWellFormed(x, true);
    ParsesInfix(x);
    var mpc: MpcExpressExecutor;
    mpc, joint := EvaluateJointly(env, mask, x, text, floatCols, party);
    OperatorIsNoConst(env, e);
    ghost var table := LocalRun(env, e, map[]);
    var exec := new LocalExpressExecutor(mpc);
    var status := exec.RunLocalEvaluate();
    plain := exec.finalVals;
    RowsWithValue(env, e, floatCols);
  }

  /** The run mode decides which rows have a value. */
  lemma RowsWithValue(env: Env, e: Expr, floatCols: set<string>)
    requires ValidEnv(env) && e.WellFormed(true)
    requires env.fp64 == IsFloatingRun(e.Postfix(), floatCols, env.cols.Keys)
    ensures forall row | 0 <= row < env.rows ::
              EvalColumn(env, e)[row].Bad? <==> env.fp64 && (!Converts(env, e) || ZeroDivisor(env, e, row))
  {
    forall row | 0 <= row < env.rows
      ensures EvalColumn(env, e)[row].Bad? <==> env.fp64 && (!Converts(env, e) || ZeroDivisor(env, e, row))
    {
      if env.fp64 {
        FloatingRunsAreDefined(env, e, true, row);
      } else {
        IntegerRunsAreDefined(env, e, true, floatCols, row);
      }
    }
  }
}
