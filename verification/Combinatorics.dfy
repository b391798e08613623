/**
 Finite sums, subsets and orderings of a list of clients, and how often each subset is the set
 of predecessors of a client.
 */
module Combinatorics {

  type Id = int

  function Sum<T>(s: seq<T>, f: T -> real): real {
    if s == [] then 0.0 else Sum(s[..|s| - 1], f) + f(s[|s| - 1])
  }

  lemma {:induction false} SumConcat<T>(a: seq<T>, b: seq<T>, f: T -> real)
    ensures Sum(a + b, f) == Sum(a, f) + Sum(b, f)
  {
    if b == [] {
      assert a + b == a;
    } else {
      assert (a + b)[..|a + b| - 1] == a + b[..|b| - 1];
      SumConcat(a, b[..|b| - 1], f);
    }
  }

  lemma {:induction false} SumSame<T>(s: seq<T>, f: T -> real, g: T -> real)
    requires forall x | x in s :: f(x) == g(x)
    ensures Sum(s, f) == Sum(s, g)
  {
    if s != [] {
      SumSame(s[..|s| - 1], f, g);
    }
  }

  /** `n` times `c`, by repeated addition. */
  function Repeat(n: nat, c: real): real {
    if n == 0 then 0.0 else Repeat(n - 1, c) + c
  }

  lemma {:induction false} RepeatIsProduct(n: nat, c: real)
    ensures Repeat(n, c) == n as real * c
  {
    if n > 0 {
      RepeatIsProduct(n - 1, c);
      assert n as real * c == (n - 1) as real * c + c;
    }
  }

  lemma {:induction false} SumAtLeast<T>(s: seq<T>, f: T -> real, c: real)
    requires forall x | x in s :: f(x) >= c
    ensures Sum(s, f) >= Repeat(|s|, c)
  {
    if s != [] {
      SumAtLeast(s[..|s| - 1], f, c);
    }
  }

  lemma {:induction false} SumOfConst<T>(s: seq<T>, f: T -> real, c: real)
    requires forall x | x in s :: f(x) == c
    ensures Sum(s, f) == Repeat(|s|, c)
  {
    if s != [] {
      SumOfConst(s[..|s| - 1], f, c);
    }
  }

  lemma {:induction false} SumAdds<T>(s: seq<T>, f: T -> real, g: T -> real, h: T -> real)
    requires forall x | x in s :: h(x) == f(x) + g(x)
    ensures Sum(s, h) == Sum(s, f) + Sum(s, g)
  {
    if s != [] {
      SumAdds(s[..|s| - 1], f, g, h);
    }
  }

  lemma {:induction false} RepeatOfSum(n: nat, a: real, b: real)
    ensures Repeat(n, a + b) == Repeat(n, a) + Repeat(n, b)
  {
    if n > 0 {
      RepeatOfSum(n - 1, a, b);
    }
  }

  lemma {:induction false} RepeatZero(n: nat)
    ensures Repeat(n, 0.0) == 0.0
  {
    if n > 0 {
      RepeatZero(n - 1);
    }
  }

  lemma {:induction false} SumRepeats<T>(s: seq<T>, f: T -> real, g: T -> real, n: nat)
    requires forall x | x in s :: g(x) == Repeat(n, f(x))
    ensures Sum(s, g) == Repeat(n, Sum(s, f))
  {
    if s == [] {
      RepeatZero(n);
    } else {
      SumRepeats(s[..|s| - 1], f, g, n);
      RepeatOfSum(n, Sum(s[..|s| - 1], f), f(s[|s| - 1]));
    }
  }

  function Row<S, T>(f: (S, T) -> real, x: S): T -> real {
    y => f(x, y)
  }

  function Column<S, T>(f: (S, T) -> real, y: T): S -> real {
    x => f(x, y)
  }

  function RowSums<S, T>(b: seq<T>, f: (S, T) -> real): S -> real {
    x => Sum(b, Row(f, x))
  }

  function ColumnSums<S, T>(a: seq<S>, f: (S, T) -> real): T -> real {
    y => Sum(a, Column(f, y))
  }

  /** Summing rows then columns is summing columns then rows. */
  lemma {:induction false} SumSwaps<S, T>(a: seq<S>, b: seq<T>, f: (S, T) -> real)
    ensures Sum(a, RowSums(b, f)) == Sum(b, ColumnSums(a, f))
  {
    if a == [] {
      SumOfConst(b, ColumnSums(a, f), 0.0);
      RepeatZero(|b|);
    } else {
      var init, last := a[..|a| - 1], a[|a| - 1];
      SumSwaps(init, b, f);
      SumAdds(b, ColumnSums(init, f), Row(f, last), ColumnSums(a, f));
    }
  }

  function Map<S, T>(s: seq<S>, g: S -> T): (r: seq<T>)
    ensures |r| == |s| && forall k | 0 <= k < |s| :: r[k] == g(s[k])
  {
    seq(|s|, k requires 0 <= k < |s| => g(s[k]))
  }

  function Compose<S, T>(f: T -> real, g: S -> T): S -> real {
    x => f(g(x))
  }

  lemma {:induction false} SumMapped<S, T>(s: seq<S>, g: S -> T, f: T -> real)
    ensures Sum(Map(s, g), f) == Sum(s, Compose(f, g))
  {
    if s != [] {
      assert Map(s, g)[..|s| - 1] == Map(s[..|s| - 1], g);
      SumMapped(s[..|s| - 1], g, f);
    }
  }

  predicate Distinct<T(==)>(s: seq<T>) {
    forall i, j | 0 <= i < j < |s| :: s[i] != s[j]
  }

  function UpTo(n: nat): seq<Id> {
    seq(n, i => i)
  }

  function Elems<T>(s: seq<T>): set<T> {
    set x | x in s
  }

  lemma {:induction false} RemoveAt<T>(s: seq<T>, k: nat, f: T -> real)
    requires k < |s|
    ensures Sum(s, f) == Sum(s[..k] + s[k + 1..], f) + f(s[k])
  {
    SumConcat(s[..k], s[k..], f);
    SumConcat([s[k]], s[k + 1..], f);
    assert [s[k]] + s[k + 1..] == s[k..] && s[..k] + s[k..] == s;
    SumConcat(s[..k], s[k + 1..], f);
    assert [s[k]][..0] == [];
  }

  lemma HasMember<T>(s: seq<T>)
    requires s != []
    ensures exists x :: x in s
  {
    assert s[0] in s;
  }

  /** Two lists without repetition and with the same members have the same sum. */
  lemma {:induction false} SumOverMembers<T>(a: seq<T>, b: seq<T>, f: T -> real)
    requires Distinct(a) && Distinct(b) && forall x :: x in a <==> x in b
    ensures Sum(a, f) == Sum(b, f)
    decreases |a|
  {
    if a == [] {
      if b != [] {
        HasMember(b);
      }
    } else {
      var init, last := a[..|a| - 1], a[|a| - 1];
      assert last in b;
      var k :| 0 <= k < |b| && b[k] == last;
      var rest := b[..k] + b[k + 1..];
      RemoveAt(b, k, f);
      assert forall x :: x in init <==> x in rest by {
        forall x ensures x in init <==> x in rest {
          assert x in a <==> x in init || x == last;
          assert x in b <==> x in rest || x == last;
          assert last !in init;
          assert last !in rest;
        }
      }
      SumOverMembers(init, rest, f);
    }
  }

  // Leaving a client out.

  function Without(s: seq<Id>, id: Id): (r: seq<Id>)
    ensures |r| <= |s| && (id in s ==> |r| < |s|) && (id !in s ==> r == s)
    ensures forall x :: x in r <==> x in s && x != id
  {
    if s == [] then [] else
    var r := Without(s[..|s| - 1], id);
    if s[|s| - 1] == id then r else r + [s[|s| - 1]]
  }

  lemma {:induction false} WithoutKeeps(s: seq<Id>, id: Id)
    requires Distinct(s)
    ensures Distinct(Without(s, id))
    ensures id in s ==> |Without(s, id)| == |s| - 1
  {
    if s != [] {
      var init, last := s[..|s| - 1], s[|s| - 1];
      assert last !in init;
      WithoutKeeps(init, id);
      var r := Without(init, id);
      assert last != id ==> last !in r;
    }
  }

  lemma {:induction false} WithoutCommutes(s: seq<Id>, x: Id, y: Id)
    ensures Without(Without(s, x), y) == Without(Without(s, y), x)
  {
    if s != [] {
      var init, last := s[..|s| - 1], s[|s| - 1];
      WithoutCommutes(init, x, y);
      assert (Without(init, x) + [last])[..|Without(init, x)|] == Without(init, x);
      assert (Without(init, y) + [last])[..|Without(init, y)|] == Without(init, y);
    }
  }

  lemma {:induction false} SumWithout(s: seq<Id>, id: Id, f: Id -> real)
    requires Distinct(s) && id in s
    ensures Sum(s, f) == Sum(Without(s, id), f) + f(id)
  {
    var init, last := s[..|s| - 1], s[|s| - 1];
    if last != id {
      SumWithout(init, id, f);
      var r := Without(init, id);
      assert (r + [last])[..|r|] == r;
    }
  }

  // Factorials and binomials.

  function Times(n: nat, c: nat): nat {
    if n == 0 then 0 else Times(n - 1, c) + c
  }

  lemma {:induction false} TimesIsProduct(n: nat, c: nat)
    ensures Times(n, c) == n * c
  {
    if n > 0 {
      TimesIsProduct(n - 1, c);
      assert n * c == (n - 1) * c + c;
    }
  }

  lemma {:induction false} TimesAdds(n: nat, a: nat, b: nat)
    ensures Times(n, a + b) == Times(n, a) + Times(n, b)
  {
    if n > 0 {
      TimesAdds(n - 1, a, b);
    }
  }

  lemma TimesCommutes(a: nat, b: nat)
    ensures Times(a, b) == Times(b, a)
  {
    TimesIsProduct(a, b);
    TimesIsProduct(b, a);
  }

  lemma {:induction false} TimesSplits(a: nat, b: nat, c: nat)
    ensures Times(a + b, c) == Times(a, c) + Times(b, c)
  {
    if b > 0 {
      TimesSplits(a, b - 1, c);
    }
  }

  lemma {:induction false} TimesAssociates(a: nat, b: nat, c: nat)
    ensures Times(Times(a, b), c) == Times(a, Times(b, c))
  {
    if a > 0 {
      TimesAssociates(a - 1, b, c);
      TimesSplits(Times(a - 1, b), b, c);
    }
  }

  lemma {:induction false} RepeatAdds(a: nat, b: nat, x: real)
    ensures Repeat(a + b, x) == Repeat(a, x) + Repeat(b, x)
  {
    if b > 0 {
      RepeatAdds(a, b - 1, x);
    }
  }

  lemma {:induction false} RepeatOfTimes(n: nat, c: nat, x: real)
    ensures Repeat(Times(n, c), x) == Repeat(n, Repeat(c, x))
  {
    if n > 0 {
      RepeatOfTimes(n - 1, c, x);
      RepeatAdds(Times(n - 1, c), c, x);
    }
  }

  function Factorial(n: nat): nat {
    if n == 0 then 1 else Times(n, Factorial(n - 1))
  }

  lemma {:induction false} FactorialIsPositive(n: nat)
    ensures Factorial(n) > 0
  {
    if n > 0 {
      FactorialIsPositive(n - 1);
      TimesIsProduct(n, Factorial(n - 1));
    }
  }

  /** Pascal's rule. */
  function Binomial(n: nat, k: int): (b: nat)
    ensures 0 <= k <= n ==> b > 0
  {
    if k < 0 || k > n then 0 else if k == 0 || k == n then 1 else Binomial(n - 1, k - 1) + Binomial(n - 1, k)
  }

  lemma AbsorptionStep(n: nat, k: nat, a: nat, b: nat, c: nat, d: nat)
    requires n > 0 && k > 0 && Times(k, b) == Times(n - 1, c) && Times(k - 1, a) == Times(n - 1, d) && a == c + d
    ensures Times(k, a + b) == Times(n, a)
  {
    TimesAdds(k, a, b);
    TimesAdds(n - 1, c, d);
  }

  /** k C(n, k) = n C(n-1, k-1). */
  lemma {:induction false} Absorption(n: nat, k: nat)
    requires 0 < k <= n
    ensures Times(k, Binomial(n, k)) == Times(n, Binomial(n - 1, k - 1))
  {
    if k < n {
      Absorption(n - 1, k);
      var d := if k == 1 then 0 else Binomial(n - 2, k - 2);
      if k > 1 {
        Absorption(n - 1, k - 1);
      } else {
        TimesIsProduct(n - 1, 0);
      }
      AbsorptionStep(n, k, Binomial(n - 1, k - 1), Binomial(n - 1, k), Binomial(n - 2, k - 1), d);
    }
  }

  function Product(x: real, y: real): real {
    x * y
  }

  /** The weight of a coalition that a client joins as the member number `m + 1` of `n + 1` clients. */
  function Weight(n: nat, m: nat): real
    requires m <= n
  {
    Share(Binomial(n, m), n + 1)
  }

  function Share(coalitions: nat, clients: nat): real
    requires coalitions > 0 && clients > 0
  {
    1.0 / (coalitions as real * clients as real)
  }

  // Sums over the subsets of a list.

  /** Sum of `f(base + A, k + |A|)` over the sub-lists A of `xs`. */
  function SubSum(xs: seq<Id>, base: set<Id>, k: nat, f: (set<Id>, nat) -> real): real {
    if xs == [] then f(base, k)
    else
      var init, last := xs[..|xs| - 1], xs[|xs| - 1];
      SubSum(init, base, k, f) + SubSum(init, base + {last}, k + 1, f)
  }

  lemma {:induction false} SubSumSame(xs: seq<Id>, base: set<Id>, k: nat, f: (set<Id>, nat) -> real,
                                      g: (set<Id>, nat) -> real)
    requires forall b, m: nat | k <= m <= k + |xs| && base <= b <= base + Elems(xs) :: f(b, m) == g(b, m)
    ensures SubSum(xs, base, k, f) == SubSum(xs, base, k, g)
  {
    if xs != [] {
      var init, last := xs[..|xs| - 1], xs[|xs| - 1];
      assert Elems(xs) == Elems(init) + {last};
      SubSumSame(init, base, k, f, g);
      SubSumSame(init, base + {last}, k + 1, f, g);
    }
  }

  lemma {:induction false} SubSumAdds(xs: seq<Id>, base: set<Id>, k: nat, f: (set<Id>, nat) -> real,
                                      g: (set<Id>, nat) -> real, h: (set<Id>, nat) -> real)
    requires forall b, m: nat | m >= k :: h(b, m) == f(b, m) + g(b, m)
    ensures SubSum(xs, base, k, h) == SubSum(xs, base, k, f) + SubSum(xs, base, k, g)
  {
    if xs != [] {
      var init, last := xs[..|xs| - 1], xs[|xs| - 1];
      SubSumAdds(init, base, k, f, g, h);
      SubSumAdds(init, base + {last}, k + 1, f, g, h);
    }
  }

  lemma {:induction false} SubSumRepeats(xs: seq<Id>, base: set<Id>, k: nat, f: (set<Id>, nat) -> real,
                                         g: (set<Id>, nat) -> real, n: nat)
    requires forall b, m: nat | k <= m <= k + |xs| && base <= b <= base + Elems(xs) :: g(b, m) == Repeat(n, f(b, m))
    ensures SubSum(xs, base, k, g) == Repeat(n, SubSum(xs, base, k, f))
  {
    if xs != [] {
      var init, last := xs[..|xs| - 1], xs[|xs| - 1];
      assert Elems(xs) == Elems(init) + {last};
      SubSumRepeats(init, base, k, f, g, n);
      SubSumRepeats(init, base + {last}, k + 1, f, g, n);
      RepeatOfSum(n, SubSum(init, base, k, f), SubSum(init, base + {last}, k + 1, f));
    }
  }

  /** Splitting off any one member: the subsets without it, and those with it. */
  lemma {:induction false} SubSumSplits(xs: seq<Id>, id: Id, base: set<Id>, k: nat, f: (set<Id>, nat) -> real)
    requires Distinct(xs) && id in xs
    ensures SubSum(xs, base, k, f)
         == SubSum(Without(xs, id), base, k, f) + SubSum(Without(xs, id), base + {id}, k + 1, f)
  {
    var init, last := xs[..|xs| - 1], xs[|xs| - 1];
    if last != id {
      var r := Without(init, id);
      assert (r + [last])[..|r|] == r;
      SubSumSplits(init, id, base, k, f);
      SubSumSplits(init, id, base + {last}, k + 1, f);
      assert base + {last} + {id} == base + {id} + {last};
    }
  }

  /** Starting with one more member is shifting the function. */
  lemma {:induction false} SubSumShifts(xs: seq<Id>, id: Id, base: set<Id>, k: nat, f: (set<Id>, nat) -> real,
                                        g: (set<Id>, nat) -> real)
    requires forall b, m: nat :: g(b, m) == f(b + {id}, m + 1)
    ensures SubSum(xs, base + {id}, k + 1, f) == SubSum(xs, base, k, g)
  {
    if xs != [] {
      var init, last := xs[..|xs| - 1], xs[|xs| - 1];
      SubSumShifts(init, id, base, k, f, g);
      SubSumShifts(init, id, base + {last}, k + 1, f, g);
      assert base + {last} + {id} == base + {id} + {last};
    }
  }

  lemma {:induction false} SubSumZero(xs: seq<Id>, base: set<Id>, k: nat, f: (set<Id>, nat) -> real)
    requires forall b, m: nat | k <= m && base <= b <= base + Elems(xs) :: f(b, m) == 0.0
    ensures SubSum(xs, base, k, f) == 0.0
  {
    if xs != [] {
      var init, last := xs[..|xs| - 1], xs[|xs| - 1];
      assert Elems(xs) == Elems(init) + {last};
      SubSumZero(init, base, k, f);
      SubSumZero(init, base + {last}, k + 1, f);
    }
  }

  /** Only the empty choice counts. */
  lemma {:induction false} SubSumAtEmpty(xs: seq<Id>, base: set<Id>, f: (set<Id>, nat) -> real)
    requires forall b, m: nat | m > 0 :: f(b, m) == 0.0
    ensures SubSum(xs, base, 0, f) == f(base, 0)
  {
    if xs != [] {
      var init, last := xs[..|xs| - 1], xs[|xs| - 1];
      SubSumAtEmpty(init, base, f);
      SubSumZero(init, base + {last}, 1, f);
    }
  }

  function FirstThenRest(xs: seq<Id>, base: set<Id>, k: nat, f: (set<Id>, nat) -> real): Id -> real {
    x => SubSum(Without(xs, x), base + {x}, k + 1, f)
  }

  function TimesSize(k: nat, f: (set<Id>, nat) -> real): (set<Id>, nat) -> real {
    (b: set<Id>, m: nat) => if m >= k then Repeat(m - k, f(b, m)) else 0.0
  }

  lemma {:induction false} FirstSplits(init: seq<Id>, last: Id, base: set<Id>, k: nat, f: (set<Id>, nat) -> real)
    requires last !in init
    ensures Sum(init, FirstThenRest(init + [last], base, k, f))
         == Sum(init, FirstThenRest(init, base, k, f)) + Sum(init, FirstThenRest(init, base + {last}, k + 1, f))
  {
    var xs := init + [last];
    var g, g1, g2 :=
      FirstThenRest(xs, base, k, f), FirstThenRest(init, base, k, f), FirstThenRest(init, base + {last}, k + 1, f);
    forall x | x in init ensures g(x) == g1(x) + g2(x) {
      var r := Without(init, x);
      assert xs[..|xs| - 1] == init;
      assert Without(xs, x) == r + [last];
      assert (r + [last])[..|r|] == r;
      assert base + {x} + {last} == base + {last} + {x};
    }
    SumAdds(init, g1, g2, g);
  }

  /** Choosing a first member and then the rest reaches each subset once for each of its members. */
  lemma {:induction false} ChooseFirst(xs: seq<Id>, base: set<Id>, k: nat, f: (set<Id>, nat) -> real)
    requires Distinct(xs)
    ensures Sum(xs, FirstThenRest(xs, base, k, f)) == SubSum(xs, base, k, TimesSize(k, f))
    decreases |xs|
  {
    if xs != [] {
      var init, last := xs[..|xs| - 1], xs[|xs| - 1];
      assert xs == init + [last] && last !in init;
      ChooseFirst(init, base, k, f);
      ChooseFirst(init, base + {last}, k + 1, f);
      FirstSplits(init, last, base, k, f);
      SizeSteps(init, base + {last}, k, f);
      ChooseFirstStep(init, last, base, k, f);
    } else {
      assert TimesSize(k, f)(base, k) == Repeat(0, f(base, k));
    }
  }

  lemma ChooseFirstStep(init: seq<Id>, last: Id, base: set<Id>, k: nat, f: (set<Id>, nat) -> real)
    requires last !in init
    ensures Sum(init + [last], FirstThenRest(init + [last], base, k, f))
         == Sum(init, FirstThenRest(init + [last], base, k, f)) + SubSum(init, base + {last}, k + 1, f)
    ensures SubSum(init + [last], base, k, TimesSize(k, f))
         == SubSum(init, base, k, TimesSize(k, f)) + SubSum(init, base + {last}, k + 1, TimesSize(k, f))
  {
  }

  lemma {:induction false} SizeSteps(xs: seq<Id>, base: set<Id>, k: nat, f: (set<Id>, nat) -> real)
    ensures SubSum(xs, base, k + 1, TimesSize(k, f))
         == SubSum(xs, base, k + 1, TimesSize(k + 1, f)) + SubSum(xs, base, k + 1, f)
  {
    SubSumAdds(xs, base, k + 1, TimesSize(k + 1, f), f, TimesSize(k, f));
  }

  // Orderings.

  function Prepend(x: Id): seq<Id> -> seq<Id> {
    p => [x] + p
  }

  /** Every way of lining up the members of a list. */
  function Orderings(s: seq<Id>): seq<seq<Id>>
    decreases |s|, |s| + 1
  {
    if s == [] then [[]] else OrderingsFrom(s, s)
  }

  /** The orderings that start with one of `firsts`. */
  function OrderingsFrom(firsts: seq<Id>, s: seq<Id>): seq<seq<Id>>
    requires forall x | x in firsts :: x in s
    decreases |s|, |firsts|
  {
    if firsts == [] then []
    else
      var init, last := firsts[..|firsts| - 1], firsts[|firsts| - 1];
      OrderingsFrom(init, s) + Map(Orderings(Without(s, last)), Prepend(last))
  }

  /** A list `p` lines up the members of `s`. */
  predicate IsOrdering(p: seq<Id>, s: seq<Id>) {
    |p| == |s| && Distinct(p) && Elems(p) == Elems(s)
  }

  lemma InPrepended(x: Id, rest: seq<seq<Id>>, p: seq<Id>)
    ensures p in Map(rest, Prepend(x)) <==> p != [] && p[0] == x && p[1..] in rest
  {
    var mapped := Map(rest, Prepend(x));
    if p in mapped {
      var k :| 0 <= k < |mapped| && mapped[k] == p;
      assert p == [x] + rest[k] && p[1..] == rest[k];
    }
    if p != [] && p[0] == x && p[1..] in rest {
      var k :| 0 <= k < |rest| && rest[k] == p[1..];
      assert p == [x] + rest[k] == mapped[k];
    }
  }

  lemma {:induction false} InOrderingsFrom(firsts: seq<Id>, s: seq<Id>, p: seq<Id>)
    requires forall x | x in firsts :: x in s
    ensures p in OrderingsFrom(firsts, s) <==> p != [] && p[0] in firsts && p[1..] in Orderings(Without(s, p[0]))
  {
    if firsts != [] {
      var init, last := firsts[..|firsts| - 1], firsts[|firsts| - 1];
      InOrderingsFrom(init, s, p);
      InPrepended(last, Orderings(Without(s, last)), p);
      assert p != [] ==> (p[0] in firsts <==> p[0] in init || p[0] == last);
    }
  }

  /** The orderings are all the ways to line up the members, ... */
  lemma {:induction false} OrderingsAreAll(s: seq<Id>, p: seq<Id>)
    requires Distinct(s)
    ensures p in Orderings(s) <==> IsOrdering(p, s)
    decreases |s|
  {
    if s != [] {
      InOrderingsFrom(s, s, p);
      if p != [] && p[0] in s {
        WithoutKeeps(s, p[0]);
        OrderingsAreAll(Without(s, p[0]), p[1..]);
        TailIsOrdering(p, s);
      } else if p != [] {
        assert p[0] in Elems(p);
      }
    }
  }

  lemma TailIsOrdering(p: seq<Id>, s: seq<Id>)
    requires Distinct(s) && p != [] && p[0] in s
    ensures IsOrdering(p[1..], Without(s, p[0])) <==> IsOrdering(p, s)
  {
    WithoutKeeps(s, p[0]);
    var x, t, r := p[0], p[1..], Without(s, p[0]);
    assert p == [x] + t;
    assert Elems(p) == {x} + Elems(t);
    assert Elems(r) == Elems(s) - {x};
    if Distinct(p) {
      assert x !in t by {
        assert forall k | 0 <= k < |t| :: t[k] == p[k + 1] != p[0];
      }
    }
    if IsOrdering(t, r) {
      assert x !in Elems(t);
    }
  }

  lemma {:induction false} OrderingsFromCount(firsts: seq<Id>, s: seq<Id>)
    requires s != [] && Distinct(s) && forall x | x in firsts :: x in s
    ensures |OrderingsFrom(firsts, s)| == Times(|firsts|, Factorial(|s| - 1))
    decreases |s|, |firsts|
  {
    if firsts != [] {
      var init, last := firsts[..|firsts| - 1], firsts[|firsts| - 1];
      OrderingsFromCount(init, s);
      OrderingsWithoutCount(s, last);
      assert |OrderingsFrom(firsts, s)| == |OrderingsFrom(init, s)| + |Orderings(Without(s, last))|;
    }
  }

  lemma {:induction false} OrderingsWithoutCount(s: seq<Id>, x: Id)
    requires Distinct(s) && x in s
    ensures |Orderings(Without(s, x))| == Factorial(|s| - 1)
    decreases |s|, 0
  {
    WithoutKeeps(s, x);
    OrderingsCount(Without(s, x));
  }

  /** ... and there are as many as the factorial of the size, ... */
  lemma {:induction false} OrderingsCount(s: seq<Id>)
    requires Distinct(s)
    ensures |Orderings(s)| == Factorial(|s|)
    decreases |s|, |s| + 1
  {
    if s != [] {
      OrderingsFromCount(s, s);
    }
  }

  /** ... so none is listed twice. */
  lemma {:induction false} OrderingsDistinct(s: seq<Id>)
    requires Distinct(s)
    ensures Distinct(Orderings(s))
    decreases |s|, |s| + 1
  {
    if s != [] {
      OrderingsFromDistinct(s, s);
    }
  }

  lemma {:induction false} OrderingsFromDistinct(firsts: seq<Id>, s: seq<Id>)
    requires Distinct(firsts) && Distinct(s) && forall x | x in firsts :: x in s
    ensures Distinct(OrderingsFrom(firsts, s))
    decreases |s|, |firsts|
  {
    if firsts != [] {
      var init, last := firsts[..|firsts| - 1], firsts[|firsts| - 1];
      var rest := Orderings(Without(s, last));
      WithoutKeeps(s, last);
      OrderingsDistinct(Without(s, last));
      OrderingsFromDistinct(init, s);
      var a, b := OrderingsFrom(init, s), Map(rest, Prepend(last));
      forall i, j | 0 <= i < j < |b| ensures b[i] != b[j] {
        assert b[i][1..] == rest[i] && b[j][1..] == rest[j];
      }
      forall i, j | 0 <= i < |a| && 0 <= j < |b| ensures a[i] != b[j] {
        InOrderingsFrom(init, s, a[i]);
        assert a[i] in a && b[j][0] == last && last !in init;
      }
    }
  }

  // Sums over orderings.

  function After(x: Id, f: seq<Id> -> real): seq<Id> -> real {
    p => f([x] + p)
  }

  function Starting(s: seq<Id>, f: seq<Id> -> real): Id -> real {
    x => Sum(Orderings(Without(s, x)), After(x, f))
  }

  lemma {:induction false} SumOrderingsFrom(firsts: seq<Id>, s: seq<Id>, f: seq<Id> -> real)
    requires forall x | x in firsts :: x in s
    ensures Sum(OrderingsFrom(firsts, s), f) == Sum(firsts, Starting(s, f))
  {
    if firsts != [] {
      var init, last := firsts[..|firsts| - 1], firsts[|firsts| - 1];
      SumOrderingsFrom(init, s, f);
      var rest := Orderings(Without(s, last));
      SumConcat(OrderingsFrom(init, s), Map(rest, Prepend(last)), f);
      SumMapped(rest, Prepend(last), f);
      SumSame(rest, Compose(f, Prepend(last)), After(last, f));
    }
  }

  /** What client `i` adds to those before it in the ordering `p`, who join those already in `joined`. */
  function Marginal(i: Id, joined: set<Id>, p: seq<Id>, h: set<Id> -> real): real
    decreases |p|
  {
    if p == [] then 0.0
    else if p[0] == i then h(joined)
    else Marginal(i, joined + {p[0]}, p[1..], h)
  }

  function MarginalIn(i: Id, joined: set<Id>, h: set<Id> -> real): seq<Id> -> real {
    p => Marginal(i, joined, p, h)
  }

  /** In how many orderings of `n + 1` clients a given client has exactly `m` given ones before it. */
  function Ways(n: nat, m: nat): nat
    requires m <= n
  {
    if m == 0 then Factorial(n) else Times(m, Ways(n - 1, m - 1))
  }

  function Counted(n: nat, h: set<Id> -> real): (set<Id>, nat) -> real {
    (b: set<Id>, m: nat) => if m <= n then Repeat(Ways(n, m), h(b)) else 0.0
  }

  function CountedLater(n: nat, h: set<Id> -> real): (set<Id>, nat) -> real {
    (b: set<Id>, m: nat) => if 1 <= m <= n then Repeat(Ways(n - 1, m - 1), h(b)) else 0.0
  }

  function AtEmpty(n: nat, h: set<Id> -> real): (set<Id>, nat) -> real {
    (b: set<Id>, m: nat) => if m == 0 then Repeat(Factorial(n), h(b)) else 0.0
  }

  lemma {:induction false} SubSumCountsFrom(xs: seq<Id>, base: set<Id>, k: nat, f: (set<Id>, nat) -> real,
                                            g: (set<Id>, nat) -> real)
    requires forall b, m: nat :: f(b, m) == g(b, m + 1)
    ensures SubSum(xs, base, k, f) == SubSum(xs, base, k + 1, g)
  {
    if xs != [] {
      var init, last := xs[..|xs| - 1], xs[|xs| - 1];
      SubSumCountsFrom(init, base, k, f, g);
      SubSumCountsFrom(init, base + {last}, k + 1, f, g);
    }
  }

  /** Joining right after `base`, or after one of the others and then some: the counts add up. */
  lemma {:induction false} CountsAddUp(xs: seq<Id>, base: set<Id>, h: set<Id> -> real)
    requires Distinct(xs)
    ensures SubSum(xs, base, 0, Counted(|xs|, h))
         == Repeat(Factorial(|xs|), h(base)) + Sum(xs, FirstThenRest(xs, base, 0, CountedLater(|xs|, h)))
  {
    var n := |xs|;
    ChooseFirst(xs, base, 0, CountedLater(n, h));
    SubSumAtEmpty(xs, base, AtEmpty(n, h));
    var later := TimesSize(0, CountedLater(n, h));
    forall b, m: nat | m >= 0 ensures Counted(n, h)(b, m) == AtEmpty(n, h)(b, m) + later(b, m) {
      CountsStep(n, m, h, b);
    }
    SubSumAdds(xs, base, 0, AtEmpty(n, h), later, Counted(n, h));
  }

  lemma CountsStep(n: nat, m: nat, h: set<Id> -> real, b: set<Id>)
    ensures Counted(n, h)(b, m) == AtEmpty(n, h)(b, m) + TimesSize(0, CountedLater(n, h))(b, m)
  {
    if m > n {
      RepeatZero(m);
    } else if m > 0 {
      RepeatOfTimes(m, Ways(n - 1, m - 1), h(b));
      assert CountedLater(n, h)(b, m) == Repeat(Ways(n - 1, m - 1), h(b));
      assert TimesSize(0, CountedLater(n, h))(b, m) == Repeat(m, CountedLater(n, h)(b, m));
    } else {
      assert TimesSize(0, CountedLater(n, h))(b, 0) == Repeat(0, CountedLater(n, h)(b, 0));
      assert Ways(n, 0) == Factorial(n);
      assert m == 0 && AtEmpty(n, h)(b, m) == Repeat(Factorial(n), h(b)) == Counted(n, h)(b, m);
    }
  }

  /** Over all orderings, what a client adds to its predecessors: each coalition of the others is counted
      as often as it is the set of predecessors. */
  lemma {:induction false} OrderingsToSubsets(s: seq<Id>, i: Id, base: set<Id>, h: set<Id> -> real)
    requires Distinct(s) && i in s
    ensures Sum(Orderings(s), MarginalIn(i, base, h)) == SubSum(Without(s, i), base, 0, Counted(|s| - 1, h))
    decreases |s|, 0
  {
    var xs := Without(s, i);
    WithoutKeeps(s, i);
    var f := Starting(s, MarginalIn(i, base, h));
    assert Sum(Orderings(s), MarginalIn(i, base, h)) == Sum(xs, f) + f(i) by {
      SumOrderingsFrom(s, s, MarginalIn(i, base, h));
      SumWithout(s, i, f);
    }
    ComesFirst(s, xs, i, base, h);
    OthersFirst(s, xs, i, base, h);
    CountsAddUp(xs, base, h);
  }

  lemma ComesFirst(s: seq<Id>, xs: seq<Id>, i: Id, base: set<Id>, h: set<Id> -> real)
    requires Distinct(xs) && xs == Without(s, i)
    ensures Starting(s, MarginalIn(i, base, h))(i) == Repeat(Factorial(|xs|), h(base))
  {
    OrderingsCount(xs);
    var f := After(i, MarginalIn(i, base, h));
    forall p | p in Orderings(xs) ensures f(p) == h(base) {
      assert ([i] + p)[0] == i;
    }
    SumOfConst(Orderings(xs), f, h(base));
  }

  lemma {:induction false} OthersFirst(s: seq<Id>, xs: seq<Id>, i: Id, base: set<Id>, h: set<Id> -> real)
    requires Distinct(s) && i in s && xs == Without(s, i)
    ensures Sum(xs, Starting(s, MarginalIn(i, base, h))) == Sum(xs, FirstThenRest(xs, base, 0, CountedLater(|s| - 1, h)))
    decreases |s| - 1, 3
  {
    forall x | x in xs
      ensures Starting(s, MarginalIn(i, base, h))(x) == FirstThenRest(xs, base, 0, CountedLater(|s| - 1, h))(x)
    {
      OtherFirst(s, i, x, base, h);
    }
    SumSame(xs, Starting(s, MarginalIn(i, base, h)), FirstThenRest(xs, base, 0, CountedLater(|s| - 1, h)));
  }

  lemma {:induction false} OtherFirst(s: seq<Id>, i: Id, x: Id, base: set<Id>, h: set<Id> -> real)
    requires Distinct(s) && i in s && x in s && x != i
    ensures Starting(s, MarginalIn(i, base, h))(x)
         == FirstThenRest(Without(s, i), base, 0, CountedLater(|s| - 1, h))(x)
    decreases |s| - 1, 2
  {
    var r, xs := Without(s, x), Without(s, i);
    WithoutKeeps(s, x);
    WithoutCommutes(s, x, i);
    OtherStarts(s, i, x, base, h);
    OtherRest(r, Without(r, i), i, base + {x}, h);
    assert FirstThenRest(xs, base, 0, CountedLater(|r|, h))(x)
        == SubSum(Without(xs, x), base + {x}, 1, CountedLater(|r|, h));
  }

  lemma OtherStarts(s: seq<Id>, i: Id, x: Id, base: set<Id>, h: set<Id> -> real)
    requires x != i
    ensures Starting(s, MarginalIn(i, base, h))(x) == Sum(Orderings(Without(s, x)), MarginalIn(i, base + {x}, h))
  {
    AfterOther(Without(s, x), i, x, base, h);
  }

  lemma {:induction false} OtherRest(r: seq<Id>, xs: seq<Id>, i: Id, base: set<Id>, h: set<Id> -> real)
    requires Distinct(r) && i in r && xs == Without(r, i)
    ensures Sum(Orderings(r), MarginalIn(i, base, h)) == SubSum(xs, base, 1, CountedLater(|r|, h))
    decreases |r|, 1
  {
    OrderingsToSubsets(r, i, base, h);
    LaterCounts(xs, base, |r|, h);
  }

  lemma AfterOther(r: seq<Id>, i: Id, x: Id, base: set<Id>, h: set<Id> -> real)
    requires x != i
    ensures Sum(Orderings(r), After(x, MarginalIn(i, base, h))) == Sum(Orderings(r), MarginalIn(i, base + {x}, h))
  {
    forall p | p in Orderings(r) ensures After(x, MarginalIn(i, base, h))(p) == MarginalIn(i, base + {x}, h)(p) {
      assert ([x] + p)[1..] == p;
    }
    SumSame(Orderings(r), After(x, MarginalIn(i, base, h)), MarginalIn(i, base + {x}, h));
  }

  lemma LaterCounts(xs: seq<Id>, base: set<Id>, n: nat, h: set<Id> -> real)
    requires n > 0
    ensures SubSum(xs, base, 0, Counted(n - 1, h)) == SubSum(xs, base, 1, CountedLater(n, h))
  {
    SubSumCountsFrom(xs, base, 0, Counted(n - 1, h), CountedLater(n, h));
  }

  /** Of all the coalitions of `m`, each is the set of predecessors equally often. */
  lemma {:induction false} WaysTimesBinomial(n: nat, m: nat)
    requires m <= n
    ensures Times(Ways(n, m), Binomial(n, m)) == Factorial(n)
  {
    if m == 0 {
      TimesIsProduct(Factorial(n), 1);
    } else {
      WaysTimesBinomial(n - 1, m - 1);
      Absorption(n, m);
      Regroup(Ways(n - 1, m - 1), Binomial(n, m), Binomial(n - 1, m - 1), m, n);
    }
  }

  lemma Regroup(v: nat, a: nat, b: nat, m: nat, n: nat)
    requires Times(m, a) == Times(n, b)
    ensures Times(Times(m, v), a) == Times(n, Times(v, b))
  {
    TimesCommutes(m, v);
    TimesAssociates(v, m, a);
    TimesAssociates(v, n, b);
    TimesCommutes(v, n);
    TimesAssociates(n, v, b);
  }

  /** The number of such orderings is the weight of the subset formula times the number of all orderings. */
  lemma WaysAreWeights(n: nat, m: nat, ways: nat, weight: real, all: nat)
    requires m <= n && ways == Ways(n, m) && weight == Weight(n, m) && all == Factorial(n + 1)
    ensures ways as real == weight * all as real
  {
    WaysTimesBinomial(n, m);
    WeightTimesAll(ways, Binomial(n, m), n + 1, Factorial(n), all, weight);
  }

  lemma RepeatExchanges(ways: nat, weight: real, all: nat, x: real)
    requires ways as real == weight * all as real
    ensures Repeat(ways, x) == Repeat(all, Product(x, weight))
  {
    RepeatIsProduct(ways, x);
    RepeatIsProduct(all, Product(x, weight));
    Regrouped(weight, all as real, x);
  }

  lemma Regrouped(a: real, b: real, c: real)
    ensures (a * b) * c == b * (c * a)
  {
  }

  lemma WeightTimesAll(w: nat, b: nat, n: nat, f: nat, g: nat, x: real)
    requires b > 0 && n > 0 && Times(w, b) == f && g == Times(n, f) && x == Share(b, n)
    ensures w as real == x * g as real
  {
    TimesIsProduct(w, b);
    TimesIsProduct(n, f);
    ShareTimesAll(w, b, n, f, g, x);
  }

  lemma ShareTimesAll(w: nat, b: nat, n: nat, f: nat, g: nat, x: real)
    requires b > 0 && n > 0 && w * b == f && g == n * f && x == Share(b, n)
    ensures w as real == x * g as real
  {
  }
}
