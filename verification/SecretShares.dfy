/**
 Replicated three-party shares of columns of numbers.

 Party p holds two of three addends: its own and the one of the party before it. The linear
 operations are the per-party code of the operator class; multiplication, division and the
 creation of shares come from a library and are taken as "some consistent sharing of the
 right values", the addends being drawn by an arbitrary `Mask`.
 */
module SecretShares {
  import opened MachineIntegers
  import opened Numbers

  // What one party holds, and what it does to it.

  datatype View = View(own: Column, prev: Column)

  predicate SameRows(x: View, y: View) {
    |x.own| == |x.prev| == |y.own| == |y.prev|
  }

  function AddViews(wrap: Wrapping, x: View, y: View): View
    requires SameRows(x, y)
  {
    View(PlusColumns(wrap, x.own, y.own), PlusColumns(wrap, x.prev, y.prev))
  }

  function SubViews(wrap: Wrapping, x: View, y: View): View
    requires SameRows(x, y)
  {
    View(MinusColumns(wrap, x.own, y.own), MinusColumns(wrap, x.prev, y.prev))
  }

  /** The constant goes into the addend that parties 0 and 1 both hold. */
  function AddConstView(wrap: Wrapping, party: nat, c: Num, x: View): View {
    if party == 0 then x.(own := PlusConst(wrap, c, x.own))
    else if party == 1 then x.(prev := PlusConst(wrap, c, x.prev))
    else x
  }

  /** Share minus constant; with `constFirst`, constant minus share. */
  function SubConstView(wrap: Wrapping, party: nat, c: Num, x: View, constFirst: bool): View {
    var d :=
      if party == 0 then x.(own := MinusConst(wrap, c, x.own))
      else if party == 1 then x.(prev := MinusConst(wrap, c, x.prev))
      else x;
    if constFirst then View(NegateColumn(wrap, d.own), NegateColumn(wrap, d.prev)) else d
  }

  /** The views of the three parties. */
  datatype Shares = Shares(v0: View, v1: View, v2: View)

  predicate Consistent(s: Shares, rows: nat) {
    && |s.v0.own| == rows && |s.v1.own| == rows && |s.v2.own| == rows
    && s.v1.prev == s.v0.own && s.v2.prev == s.v1.own && s.v0.prev == s.v2.own
  }

  function Sum(wrap: Wrapping, a: Num, b: Num, c: Num): Num {
    Plus(wrap, Plus(wrap, a, b), c)
  }

  function Secret(wrap: Wrapping, s: Shares, row: nat): Num
    requires row < |s.v0.own| && row < |s.v1.own| && row < |s.v2.own|
  {
    Sum(wrap, s.v0.own[row], s.v1.own[row], s.v2.own[row])
  }

  function Secrets(wrap: Wrapping, s: Shares, rows: nat): (z: Column)
    requires Consistent(s, rows)
    ensures |z| == rows && forall k | 0 <= k < rows :: z[k] == Secret(wrap, s, k)
  {
    seq(rows, k requires 0 <= k < rows => Secret(wrap, s, k))
  }

  /** What a party computes when a result is opened to it: its two addends and the one it is sent. */
  function Opened(wrap: Wrapping, mine: View, sent: Column): (z: Column)
    requires |mine.own| == |mine.prev| == |sent|
    ensures |z| == |sent|
  {
    seq(|sent|, k requires 0 <= k < |sent| => Sum(wrap, mine.own[k], mine.prev[k], sent[k]))
  }

  lemma SumRotates(wrap: Wrapping, a: Num, b: Num, c: Num)
    requires Lawful(wrap)
    ensures Sum(wrap, a, b, c) == Sum(wrap, b, a, c) == Sum(wrap, a, c, b)
  {
    if a.Int? && b.Int? && c.Int? {
      Absorb(wrap, a.i + b.i, c.i);
      Absorb(wrap, a.i + c.i, b.i);
      assert a.i + b.i == b.i + a.i && a.i + c.i + b.i == a.i + b.i + c.i;
    }
  }

  /** Each party opens the secret, whichever two addends it started from. */
  lemma OpensSecret(wrap: Wrapping, s: Shares, rows: nat)
    requires Lawful(wrap) && Consistent(s, rows)
    ensures Opened(wrap, s.v0, s.v1.own) == Secrets(wrap, s, rows)
    ensures Opened(wrap, s.v1, s.v2.own) == Secrets(wrap, s, rows)
    ensures Opened(wrap, s.v2, s.v0.own) == Secrets(wrap, s, rows)
  {
    forall k | 0 <= k < rows
      ensures Opened(wrap, s.v0, s.v1.own)[k] == Secret(wrap, s, k)
      ensures Opened(wrap, s.v1, s.v2.own)[k] == Secret(wrap, s, k)
      ensures Opened(wrap, s.v2, s.v0.own)[k] == Secret(wrap, s, k)
    {
      var a, b, c := s.v0.own[k], s.v1.own[k], s.v2.own[k];
      SumRotates(wrap, a, b, c);
      SumRotates(wrap, b, a, c);
      SumRotates(wrap, a, c, b);
      SumRotates(wrap, c, a, b);
      SumRotates(wrap, c, b, a);
    }
  }

  /** Source of the random addends: step of the run, which sharing of the step, row. */
  type Mask = (nat, nat, nat) -> (Num, Num)

  ghost predicate MaskFits(wrap: Wrapping, mask: Mask, fp64: bool) {
    forall k, w, i :: IsKind(wrap, fp64, mask(k, w, i).0) && IsKind(wrap, fp64, mask(k, w, i).1)
  }

  /** Two random addends, and the third that makes up the value. */
  function Share(wrap: Wrapping, vals: Column, mask: Mask, k: nat, w: nat): Shares {
    var x0 := seq(|vals|, i requires 0 <= i < |vals| => mask(k, w, i).0);
    var x1 := seq(|vals|, i requires 0 <= i < |vals| => mask(k, w, i).1);
    var x2 := seq(|vals|, i requires 0 <= i < |vals| => Minus(wrap, vals[i], Plus(wrap, x0[i], x1[i])));
    Shares(View(x0, x2), View(x1, x0), View(x2, x1))
  }

  predicate IsColumn(wrap: Wrapping, fp64: bool, vals: Column) {
    forall i | 0 <= i < |vals| :: IsKind(wrap, fp64, vals[i]) || vals[i].Bad?
  }

  lemma Unmask(wrap: Wrapping, v: Num, a: Num, b: Num, fp64: bool)
    requires Lawful(wrap)
    requires IsKind(wrap, fp64, a) && IsKind(wrap, fp64, b) && (IsKind(wrap, fp64, v) || v.Bad?)
    ensures Plus(wrap, Plus(wrap, a, b), Minus(wrap, v, Plus(wrap, a, b))) == v
  {
    if v.Int? {
      var m := wrap(a.i + b.i);
      Absorb(wrap, v.i - m, m);
    }
  }

  lemma ShareCarries(wrap: Wrapping, vals: Column, mask: Mask, k: nat, w: nat, fp64: bool)
    requires Lawful(wrap) && MaskFits(wrap, mask, fp64) && IsColumn(wrap, fp64, vals)
    ensures Consistent(Share(wrap, vals, mask, k, w), |vals|)
    ensures Secrets(wrap, Share(wrap, vals, mask, k, w), |vals|) == vals
  {
    forall i | 0 <= i < |vals| ensures Secret(wrap, Share(wrap, vals, mask, k, w), i) == vals[i] {
      var m := mask(k, w, i);
      assert IsKind(wrap, fp64, m.0) && IsKind(wrap, fp64, m.1);
      Unmask(wrap, vals[i], m.0, m.1, fp64);
    }
  }

  // The per-party operations, done by the three of them.

  function Add(wrap: Wrapping, x: Shares, y: Shares): Shares
    requires SameRows(x.v0, y.v0) && SameRows(x.v1, y.v1) && SameRows(x.v2, y.v2)
  {
    Shares(AddViews(wrap, x.v0, y.v0), AddViews(wrap, x.v1, y.v1), AddViews(wrap, x.v2, y.v2))
  }

  function Sub(wrap: Wrapping, x: Shares, y: Shares): Shares
    requires SameRows(x.v0, y.v0) && SameRows(x.v1, y.v1) && SameRows(x.v2, y.v2)
  {
    Shares(SubViews(wrap, x.v0, y.v0), SubViews(wrap, x.v1, y.v1), SubViews(wrap, x.v2, y.v2))
  }

  function AddConst(wrap: Wrapping, c: Num, x: Shares): Shares {
    Shares(AddConstView(wrap, 0, c, x.v0), AddConstView(wrap, 1, c, x.v1), AddConstView(wrap, 2, c, x.v2))
  }

  function SubConst(wrap: Wrapping, c: Num, x: Shares, constFirst: bool): Shares {
    Shares(SubConstView(wrap, 0, c, x.v0, constFirst), SubConstView(wrap, 1, c, x.v1, constFirst),
           SubConstView(wrap, 2, c, x.v2, constFirst))
  }

  /** Three addends, each wrapped, add up to the wrapped sum. */
  lemma WrapSum(wrap: Wrapping, a: int, b: int, c: int)
    requires Lawful(wrap)
    ensures Sum(wrap, Int(wrap(a)), Int(wrap(b)), Int(wrap(c))) == Int(wrap(a + b + c))
  {
    Absorb(wrap, a, wrap(b));
    Absorb(wrap, b, a);
    Absorb(wrap, a + b, wrap(c));
    Absorb(wrap, c, a + b);
  }

  lemma SumOfInts(wrap: Wrapping, a: int, b: int, c: int)
    requires Lawful(wrap)
    ensures Sum(wrap, Int(a), Int(b), Int(c)) == Int(wrap(a + b + c))
  {
    Absorb(wrap, a + b, c);
  }

  lemma PlusInterchange(wrap: Wrapping, a: Num, b: Num, c: Num, x: Num, y: Num, z: Num)
    requires Lawful(wrap)
    ensures Sum(wrap, Plus(wrap, a, x), Plus(wrap, b, y), Plus(wrap, c, z))
         == Plus(wrap, Sum(wrap, a, b, c), Sum(wrap, x, y, z))
  {
    if a.Int? && b.Int? && c.Int? && x.Int? && y.Int? && z.Int? {
      WrapSum(wrap, a.i + x.i, b.i + y.i, c.i + z.i);
      SumOfInts(wrap, a.i, b.i, c.i);
      SumOfInts(wrap, x.i, y.i, z.i);
      var p, q := a.i + b.i + c.i, x.i + y.i + z.i;
      Absorb(wrap, p, wrap(q));
      Absorb(wrap, q, p);
      assert p + q == (a.i + x.i) + (b.i + y.i) + (c.i + z.i);
    }
  }

  lemma MinusInterchange(wrap: Wrapping, a: Num, b: Num, c: Num, x: Num, y: Num, z: Num)
    requires Lawful(wrap)
    ensures Sum(wrap, Minus(wrap, a, x), Minus(wrap, b, y), Minus(wrap, c, z))
         == Minus(wrap, Sum(wrap, a, b, c), Sum(wrap, x, y, z))
  {
    if a.Int? && b.Int? && c.Int? && x.Int? && y.Int? && z.Int? {
      WrapSum(wrap, a.i - x.i, b.i - y.i, c.i - z.i);
      SumOfInts(wrap, a.i, b.i, c.i);
      SumOfInts(wrap, x.i, y.i, z.i);
      var p, q := a.i + b.i + c.i, x.i + y.i + z.i;
      Absorb(wrap, wrap(p), q);
      Absorb(wrap, p, -q);
      assert wrap(p) + -q == wrap(p) - q;
      assert p + -q == (a.i - x.i) + (b.i - y.i) + (c.i - z.i);
    }
  }

  /** Adding shares locally adds the secrets and keeps the three views consistent. */
  lemma AddIsPlus(wrap: Wrapping, x: Shares, y: Shares, rows: nat)
    requires Lawful(wrap) && Consistent(x, rows) && Consistent(y, rows)
    ensures Consistent(Add(wrap, x, y), rows)
    ensures forall i | 0 <= i < rows ::
              Secret(wrap, Add(wrap, x, y), i) == Plus(wrap, Secret(wrap, x, i), Secret(wrap, y, i))
  {
    forall i | 0 <= i < rows
      ensures Secret(wrap, Add(wrap, x, y), i) == Plus(wrap, Secret(wrap, x, i), Secret(wrap, y, i))
    {
      PlusInterchange(wrap, x.v0.own[i], x.v1.own[i], x.v2.own[i], y.v0.own[i], y.v1.own[i], y.v2.own[i]);
    }
  }

  lemma SubIsMinus(wrap: Wrapping, x: Shares, y: Shares, rows: nat)
    requires Lawful(wrap) && Consistent(x, rows) && Consistent(y, rows)
    ensures Consistent(Sub(wrap, x, y), rows)
    ensures forall i | 0 <= i < rows ::
              Secret(wrap, Sub(wrap, x, y), i) == Minus(wrap, Secret(wrap, x, i), Secret(wrap, y, i))
  {
    forall i | 0 <= i < rows
      ensures Secret(wrap, Sub(wrap, x, y), i) == Minus(wrap, Secret(wrap, x, i), Secret(wrap, y, i))
    {
      MinusInterchange(wrap, x.v0.own[i], x.v1.own[i], x.v2.own[i], y.v0.own[i], y.v1.own[i], y.v2.own[i]);
    }
  }

  lemma PlusConstInterchange(wrap: Wrapping, c: Num, x: Num, y: Num, z: Num)
    requires Lawful(wrap)
    ensures Sum(wrap, Plus(wrap, x, c), y, z) == Plus(wrap, c, Sum(wrap, x, y, z))
  {
    if c.Int? && x.Int? && y.Int? && z.Int? {
      SumOfInts(wrap, wrap(x.i + c.i), y.i, z.i);
      SumOfInts(wrap, x.i, y.i, z.i);
      var p := x.i + y.i + z.i;
      Absorb(wrap, x.i + c.i, y.i + z.i);
      assert wrap(x.i + c.i) + (y.i + z.i) == wrap(x.i + c.i) + y.i + z.i;
      Absorb(wrap, p, c.i);
      assert c.i + p == x.i + c.i + (y.i + z.i);
    }
  }

  lemma MinusConstInterchange(wrap: Wrapping, c: Num, x: Num, y: Num, z: Num)
    requires Lawful(wrap)
    ensures Sum(wrap, Minus(wrap, x, c), y, z) == Minus(wrap, Sum(wrap, x, y, z), c)
  {
    if c.Int? && x.Int? && y.Int? && z.Int? {
      SumOfInts(wrap, wrap(x.i - c.i), y.i, z.i);
      SumOfInts(wrap, x.i, y.i, z.i);
      var p := x.i + y.i + z.i;
      Absorb(wrap, x.i - c.i, y.i + z.i);
      assert wrap(x.i - c.i) + (y.i + z.i) == wrap(x.i - c.i) + y.i + z.i;
      Absorb(wrap, p, -c.i);
      assert wrap(p) + -c.i == wrap(p) - c.i;
      assert p + -c.i == x.i - c.i + (y.i + z.i);
    }
  }

  lemma NegateInterchange(wrap: Wrapping, c: Num, x: Num, y: Num, z: Num)
    requires Lawful(wrap)
    ensures Sum(wrap, Negate(wrap, Minus(wrap, x, c)), Negate(wrap, y), Negate(wrap, z))
         == Minus(wrap, c, Sum(wrap, x, y, z))
  {
    if c.Int? && x.Int? && y.Int? && z.Int? {
      var d := x.i - c.i;
      Absorb(wrap, 0, d);
      assert 0 - wrap(d) == -wrap(d) && 0 - d == -d;
      WrapSum(wrap, -d, -y.i, -z.i);
      SumOfInts(wrap, x.i, y.i, z.i);
      var p := x.i + y.i + z.i;
      Absorb(wrap, c.i, p);
      assert c.i - p == -d + -y.i + -z.i;
    }
  }

  /** Two parties change the addend they share; the third does nothing; the secret moves by the constant. */
  lemma AddConstIsPlus(wrap: Wrapping, c: Num, x: Shares, rows: nat)
    requires Lawful(wrap) && Consistent(x, rows)
    ensures Consistent(AddConst(wrap, c, x), rows)
    ensures forall i | 0 <= i < rows :: Secret(wrap, AddConst(wrap, c, x), i) == Plus(wrap, c, Secret(wrap, x, i))
  {
    forall i | 0 <= i < rows ensures Secret(wrap, AddConst(wrap, c, x), i) == Plus(wrap, c, Secret(wrap, x, i)) {
      PlusConstInterchange(wrap, c, x.v0.own[i], x.v1.own[i], x.v2.own[i]);
    }
  }

  lemma SubConstIsMinus(wrap: Wrapping, c: Num, x: Shares, constFirst: bool, rows: nat)
    requires Lawful(wrap) && Consistent(x, rows)
    ensures Consistent(SubConst(wrap, c, x, constFirst), rows)
    ensures forall i | 0 <= i < rows ::
              Secret(wrap, SubConst(wrap, c, x, constFirst), i)
              == if constFirst then Minus(wrap, c, Secret(wrap, x, i)) else Minus(wrap, Secret(wrap, x, i), c)
  {
    var s := SubConst(wrap, c, x, constFirst);
    forall i | 0 <= i < rows
      ensures Secret(wrap, s, i)
           == if constFirst then Minus(wrap, c, Secret(wrap, x, i)) else Minus(wrap, Secret(wrap, x, i), c)
    {
      MinusConstInterchange(wrap, c, x.v0.own[i], x.v1.own[i], x.v2.own[i]);
      NegateInterchange(wrap, c, x.v0.own[i], x.v1.own[i], x.v2.own[i]);
    }
  }
}
