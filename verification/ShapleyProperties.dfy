/**
 What the subset formula means: the average, over all orderings of the clients, of what a client
 adds to its predecessors; and what the values of all clients add up to.
 */
module ShapleyProperties {
  import opened Combinatorics
  import opened ShapleyValue

  /** The utility of a set of clients. */
  function Worth(u: Utility, clients: seq<Id>, members: set<Id>): real {
    var key := Restrict(clients, members);
    if key in u then u[key] else 0.0
  }

  /** What client `id` adds to a set of clients, never less than zero. */
  function Gain(u: Utility, clients: seq<Id>, id: Id): set<Id> -> real {
    members => AtLeastZero(Worth(u, clients, members + {id}) - Worth(u, clients, members))
  }

  lemma GainIs(u: Utility, clients: seq<Id>, id: Id, members: set<Id>, with: set<Id>)
    requires with == members + {id}
    ensures Gain(u, clients, id)(members) == AtLeastZero(Worth(u, clients, with) - Worth(u, clients, members))
  {
  }

  lemma NoneAdded(s: set<Id>)
    ensures {} + s == s
  {
  }

  function CoalitionTerm(u: Utility, clients: seq<Id>, id: Id): (set<Id>, nat) -> real {
    (b: set<Id>, m: nat) => if id in b && 1 <= m <= |clients|
                            then Weighed(Gain(u, clients, id)(b - {id}), |clients|, m) else 0.0
  }

  function JoinTerm(u: Utility, clients: seq<Id>, id: Id): (set<Id>, nat) -> real {
    (b: set<Id>, m: nat) => CoalitionTerm(u, clients, id)(b + {id}, m + 1)
  }

  lemma WorthOfKey(u: Utility, clients: seq<Id>, members: set<Id>)
    requires IsUtility(u, clients)
    ensures Restrict(clients, members) in u && Worth(u, clients, members) == u[Restrict(clients, members)]
  {
    RestrictKeeps(clients, members);
  }

  /** The worths of a key that holds the client, and of the key without it. */
  lemma KeyWorths(u: Utility, clients: seq<Id>, id: Id, key: Key)
    requires IsUtility(u, clients) && IsKey(clients, key)
    ensures key in u && Without(key, id) in u
    ensures Worth(u, clients, Elems(key)) == u[key]
    ensures Worth(u, clients, Elems(key) - {id}) == u[Without(key, id)]
  {
    SmallerKey(clients, key, id);
  }

  lemma PutBack(members: set<Id>, id: Id)
    requires id in members
    ensures members - {id} + {id} == members
  {
  }

  lemma TermFromWorths(u: Utility, clients: seq<Id>, id: Id, key: Key, members: set<Id>)
    requires id in key && id in members && |key| <= |clients|
    requires key in u && Without(key, id) in u
    requires Worth(u, clients, members) == u[key] && Worth(u, clients, members - {id}) == u[Without(key, id)]
    ensures Term(u, |clients|, key, id) == CoalitionTerm(u, clients, id)(members, |key|)
  {
    PutBack(members, id);
    GainIs(u, clients, id, members - {id}, members);
    CoalitionIs(u, clients, id, members, |key|);
  }

  lemma TermOfKey(u: Utility, clients: seq<Id>, id: Id, key: Key)
    requires IsUtility(u, clients) && IsKey(clients, key)
    ensures Term(u, |clients|, key, id) == CoalitionTerm(u, clients, id)(Elems(key), |key|)
  {
    if id in key {
      KeyWorths(u, clients, id, key);
      TermFromWorths(u, clients, id, key, Elems(key));
    }
  }

  lemma CoalitionIs(u: Utility, clients: seq<Id>, id: Id, members: set<Id>, m: nat)
    requires id in members && 1 <= m <= |clients|
    ensures CoalitionTerm(u, clients, id)(members, m) == Weighed(Gain(u, clients, id)(members - {id}), |clients|, m)
  {
  }

  lemma ValueAsSubSum(u: Utility, clients: seq<Id>, id: Id)
    requires IsUtility(u, clients)
    ensures Value(u, clients, id) == SubSum(clients, {}, 0, CoalitionTerm(u, clients, id))
  {
    forall key ensures key in PowerSet(clients) <==> key in Subsets(clients) {
      PowerSetIsAll(clients, key);
      InSubsets(clients, key);
    }
    PowerSetIsAll(clients, []);
    SubsetsDistinct(clients);
    SumOverMembers(PowerSet(clients), Subsets(clients), Earned(u, |clients|, id));
    forall key | key in Subsets(clients)
      ensures Earned(u, |clients|, id)(key) == OfSubset({}, 0, CoalitionTerm(u, clients, id))(key)
    {
      InSubsets(clients, key);
      TermOfKey(u, clients, id, key);
      assert {} + Elems(key) == Elems(key);
    }
    SumSame(Subsets(clients), Earned(u, |clients|, id), OfSubset({}, 0, CoalitionTerm(u, clients, id)));
    SumOfSubsets(clients, {}, 0, CoalitionTerm(u, clients, id));
  }

  lemma NoTermWithout(u: Utility, clients: seq<Id>, id: Id, others: seq<Id>)
    requires id !in others
    ensures SubSum(others, {}, 0, CoalitionTerm(u, clients, id)) == 0.0
  {
    SubSumZero(others, {}, 0, CoalitionTerm(u, clients, id));
  }

  lemma TermsWith(u: Utility, clients: seq<Id>, id: Id, others: seq<Id>)
    ensures SubSum(others, {} + {id}, 1, CoalitionTerm(u, clients, id)) == SubSum(others, {}, 0, JoinTerm(u, clients, id))
  {
    SubSumShifts(others, id, {}, 0, CoalitionTerm(u, clients, id), JoinTerm(u, clients, id));
  }

  /** Only the subsets with the client count: sum over the coalitions of the others. */
  lemma ValueOverOthers(u: Utility, clients: seq<Id>, id: Id, others: seq<Id>)
    requires IsUtility(u, clients) && id in clients && others == Without(clients, id)
    ensures Value(u, clients, id) == SubSum(others, {}, 0, JoinTerm(u, clients, id))
  {
    ValueAsSubSum(u, clients, id);
    SubSumSplits(clients, id, {}, 0, CoalitionTerm(u, clients, id));
    NoTermWithout(u, clients, id, others);
    TermsWith(u, clients, id, others);
  }

  /** A coalition's share of the value, times the number of orderings, is its gain counted once for each
      ordering in which it comes before the client. */
  lemma JoinTermCounts(u: Utility, clients: seq<Id>, id: Id, b: set<Id>, m: nat, all: nat)
    requires id !in b && m < |clients| && all == Factorial(|clients|)
    ensures Counted(|clients| - 1, Gain(u, clients, id))(b, m) == Repeat(all, JoinTerm(u, clients, id)(b, m))
  {
    var n := |clients| - 1;
    var gain := Gain(u, clients, id)(b);
    assert b + {id} - {id} == b;
    assert JoinTerm(u, clients, id)(b, m) == CoalitionTerm(u, clients, id)(b + {id}, m + 1) == Weighed(gain, n + 1, m + 1);
    WeighedRepeats(n, m, gain, all);
  }

  lemma WeighedRepeats(n: nat, m: nat, gain: real, all: nat)
    requires m <= n && all == Factorial(n + 1)
    ensures Repeat(Ways(n, m), gain) == Repeat(all, Weighed(gain, n + 1, m + 1))
  {
    var ways, weight := Ways(n, m), Weight(n, m);
    WaysAreWeights(n, m, ways, weight, all);
    RepeatExchanges(ways, weight, all, gain);
  }

  /** The sum, over all orderings, of what a client adds to those before it. */
  function OverOrderings(u: Utility, clients: seq<Id>, id: Id): real {
    Sum(Orderings(clients), MarginalIn(id, {}, Gain(u, clients, id)))
  }

  /** The sum over the orderings is the formula, once for every ordering. */
  lemma OrderingsTimesValue(u: Utility, clients: seq<Id>, id: Id)
    requires IsUtility(u, clients) && id in clients
    ensures OverOrderings(u, clients, id) == Repeat(Factorial(|clients|), Value(u, clients, id))
  {
    var others := Without(clients, id);
    WithoutKeeps(clients, id);
    OrderingsToSubsets(clients, id, {}, Gain(u, clients, id));
    ValueOverOthers(u, clients, id, others);
    CountedRepeats(u, clients, id, others, Factorial(|clients|));
  }

  lemma CountedRepeats(u: Utility, clients: seq<Id>, id: Id, others: seq<Id>, all: nat)
    requires id !in others && |others| < |clients| && all == Factorial(|clients|)
    ensures SubSum(others, {}, 0, Counted(|clients| - 1, Gain(u, clients, id)))
         == Repeat(all, SubSum(others, {}, 0, JoinTerm(u, clients, id)))
  {
    var f, g := JoinTerm(u, clients, id), Counted(|clients| - 1, Gain(u, clients, id));
    forall b, m: nat | 0 <= m <= 0 + |others| && {} <= b <= {} + Elems(others) ensures g(b, m) == Repeat(all, f(b, m)) {
      JoinTermCounts(u, clients, id, b, m, all);
    }
    SubSumRepeats(others, {}, 0, f, g, all);
  }

  lemma {:induction false} MarginalSame(i: Id, joined: set<Id>, p: seq<Id>, f: set<Id> -> real, h: set<Id> -> real)
    requires forall members :: f(members) == h(members)
    ensures Marginal(i, joined, p, f) == Marginal(i, joined, p, h)
    decreases |p|
  {
    if p != [] && p[0] != i {
      MarginalSame(i, joined + {p[0]}, p[1..], f, h);
    }
  }

  /** The value of a client is the average, over all orderings of the clients, of what it adds to those
      before it, when that is more than nothing. */
  lemma ValueIsAverage(u: Utility, clients: seq<Id>, id: Id, gain: set<Id> -> real)
    requires IsUtility(u, clients) && id in clients
    requires forall members :: gain(members) == (var before, after := Worth(u, clients, members), Worth(u, clients, members + {id});
                                                 if after > before then after - before else 0.0)
    ensures |Orderings(clients)| == Factorial(|clients|) > 0
    ensures Value(u, clients, id) == Sum(Orderings(clients), MarginalIn(id, {}, gain)) / |Orderings(clients)| as real
  {
    AverageOfGains(u, clients, id);
    SameGains(u, clients, id, gain);
    MarginalsSame(Orderings(clients), id, gain, Gain(u, clients, id));
  }

  lemma SameGains(u: Utility, clients: seq<Id>, id: Id, gain: set<Id> -> real)
    requires forall members :: gain(members) == (var before, after := Worth(u, clients, members), Worth(u, clients, members + {id});
                                                 if after > before then after - before else 0.0)
    ensures forall members :: gain(members) == Gain(u, clients, id)(members)
  {
    forall members ensures gain(members) == Gain(u, clients, id)(members) {
      GainIs(u, clients, id, members, members + {id});
    }
  }

  lemma MarginalsSame(ps: seq<seq<Id>>, id: Id, f: set<Id> -> real, h: set<Id> -> real)
    requires forall members :: f(members) == h(members)
    ensures Sum(ps, MarginalIn(id, {}, f)) == Sum(ps, MarginalIn(id, {}, h))
  {
    forall p | p in ps ensures MarginalIn(id, {}, f)(p) == MarginalIn(id, {}, h)(p) {
      MarginalSame(id, {}, p, f, h);
    }
    SumSame(ps, MarginalIn(id, {}, f), MarginalIn(id, {}, h));
  }

  lemma AverageOfGains(u: Utility, clients: seq<Id>, id: Id)
    requires IsUtility(u, clients) && id in clients
    ensures |Orderings(clients)| == Factorial(|clients|) > 0
    ensures Value(u, clients, id) == OverOrderings(u, clients, id) / |Orderings(clients)| as real
  {
    OrderingsCount(clients);
    FactorialIsPositive(|clients|);
    OrderingsTimesValue(u, clients, id);
    RepeatDivides(|Orderings(clients)|, Value(u, clients, id), OverOrderings(u, clients, id));
  }

  lemma RepeatDivides(n: nat, x: real, total: real)
    requires n > 0 && total == Repeat(n, x)
    ensures x == total / n as real
  {
    RepeatIsProduct(n, x);
  }

  // Efficiency.

  function InOrdering(u: Utility, clients: seq<Id>, p: seq<Id>, joined: set<Id>): Id -> real {
    id => Marginal(id, joined, p, Gain(u, clients, id))
  }

  /** No client makes a set of clients worth less. */
  ghost predicate Monotone(u: Utility, clients: seq<Id>) {
    forall id, members | id in clients :: Helps(u, clients, id, members)
  }

  ghost predicate Helps(u: Utility, clients: seq<Id>, id: Id, members: set<Id>) {
    Worth(u, clients, members) <= Worth(u, clients, members + {id})
  }

  /** Along one ordering the gains telescope, up to the losses that were clamped to zero. */
  lemma {:induction false} GainsTelescope(u: Utility, clients: seq<Id>, s: seq<Id>, p: seq<Id>, joined: set<Id>)
    requires Distinct(s) && IsOrdering(p, s) && forall x | x in s :: x in clients
    ensures Sum(s, InOrdering(u, clients, p, joined)) >= Worth(u, clients, joined + Elems(s)) - Worth(u, clients, joined)
    ensures Monotone(u, clients) ==>
              Sum(s, InOrdering(u, clients, p, joined)) == Worth(u, clients, joined + Elems(s)) - Worth(u, clients, joined)
    decreases |s|
  {
    if s == [] {
      assert joined + Elems(s) == joined;
    } else {
      var x := p[0];
      assert x in Elems(p);
      var rest := Without(s, x);
      WithoutKeeps(s, x);
      TailIsOrdering(p, s);
      GainsTelescope(u, clients, rest, p[1..], joined + {x});
      JoinAll(joined, x, rest, s);
      FirstGain(u, clients, s, p, joined);
      GainCovers(u, clients, x, joined);
    }
  }

  lemma JoinAll(joined: set<Id>, x: Id, rest: seq<Id>, s: seq<Id>)
    requires x in s && rest == Without(s, x)
    ensures joined + {x} + Elems(rest) == joined + Elems(s)
  {
  }

  lemma GainCovers(u: Utility, clients: seq<Id>, id: Id, joined: set<Id>)
    requires id in clients
    ensures Gain(u, clients, id)(joined) >= Worth(u, clients, joined + {id}) - Worth(u, clients, joined)
    ensures Monotone(u, clients) ==>
              Gain(u, clients, id)(joined) == Worth(u, clients, joined + {id}) - Worth(u, clients, joined)
  {
    GainIs(u, clients, id, joined, joined + {id});
    assert Monotone(u, clients) ==> Helps(u, clients, id, joined);
  }

  lemma FirstGain(u: Utility, clients: seq<Id>, s: seq<Id>, p: seq<Id>, joined: set<Id>)
    requires Distinct(s) && p != [] && p[0] in s
    ensures Sum(s, InOrdering(u, clients, p, joined))
         == Sum(Without(s, p[0]), InOrdering(u, clients, p[1..], joined + {p[0]})) + Gain(u, clients, p[0])(joined)
  {
    var x := p[0];
    var rest := Without(s, x);
    SumWithout(s, x, InOrdering(u, clients, p, joined));
    SumSame(rest, InOrdering(u, clients, p, joined), InOrdering(u, clients, p[1..], joined + {x}));
  }

  function ValueOf(u: Utility, clients: seq<Id>): Id -> real {
    id => Value(u, clients, id)
  }

  function OverOrderingsOf(u: Utility, clients: seq<Id>): Id -> real {
    id => OverOrderings(u, clients, id)
  }

  function TotalIn(u: Utility, clients: seq<Id>): seq<Id> -> real {
    p => Sum(clients, InOrdering(u, clients, p, {}))
  }

  function MarginalOf(u: Utility, clients: seq<Id>): (Id, seq<Id>) -> real {
    (id: Id, p: seq<Id>) => Marginal(id, {}, p, Gain(u, clients, id))
  }

  /** Summing over clients then orderings is summing over orderings then clients. */
  lemma TotalsSwap(u: Utility, clients: seq<Id>)
    ensures Sum(clients, OverOrderingsOf(u, clients)) == Sum(Orderings(clients), TotalIn(u, clients))
  {
    var f, ps := MarginalOf(u, clients), Orderings(clients);
    SumSwaps(clients, ps, f);
    forall id | id in clients ensures RowSums(ps, f)(id) == OverOrderingsOf(u, clients)(id) {
      SumSame(ps, Row(f, id), MarginalIn(id, {}, Gain(u, clients, id)));
    }
    SumSame(clients, RowSums(ps, f), OverOrderingsOf(u, clients));
    forall p | p in ps ensures ColumnSums(clients, f)(p) == TotalIn(u, clients)(p) {
      SumSame(clients, Column(f, p), InOrdering(u, clients, p, {}));
    }
    SumSame(ps, ColumnSums(clients, f), TotalIn(u, clients));
  }

  lemma OrderingsTimesTotal(u: Utility, clients: seq<Id>)
    requires IsUtility(u, clients)
    ensures Sum(Orderings(clients), TotalIn(u, clients)) == Repeat(Factorial(|clients|), Sum(clients, ValueOf(u, clients)))
  {
    TotalsSwap(u, clients);
    forall id | id in clients
      ensures OverOrderingsOf(u, clients)(id) == Repeat(Factorial(|clients|), ValueOf(u, clients)(id))
    {
      OrderingsTimesValue(u, clients, id);
    }
    SumRepeats(clients, ValueOf(u, clients), OverOrderingsOf(u, clients), Factorial(|clients|));
  }

  lemma TotalOfOrdering(u: Utility, clients: seq<Id>, p: seq<Id>)
    requires IsUtility(u, clients) && p in Orderings(clients)
    ensures TotalIn(u, clients)(p) >= Worth(u, clients, Elems(clients)) - Worth(u, clients, {})
    ensures Monotone(u, clients) ==>
              TotalIn(u, clients)(p) == Worth(u, clients, Elems(clients)) - Worth(u, clients, {})
  {
    OrderingsAreAll(clients, p);
    GainsTelescope(u, clients, clients, p, {});
    NoneAdded(Elems(clients));
  }

  /** Efficiency: the values of all clients add up to at least what the whole set adds to the empty one,
      and to exactly that when no client makes a set worth less. */
  lemma Efficiency(u: Utility, clients: seq<Id>)
    requires IsUtility(u, clients)
    ensures [] in u && clients in u
    ensures Sum(clients, ValueOf(u, clients)) >= u[clients] - u[[]]
    ensures Monotone(u, clients) ==> Sum(clients, ValueOf(u, clients)) == u[clients] - u[[]]
  {
    EndWorths(u, clients);
    var worth := u[clients] - u[[]];
    var ps, total := Orderings(clients), Sum(clients, ValueOf(u, clients));
    OrderingsTimesTotal(u, clients);
    OrderingsCount(clients);
    FactorialIsPositive(|clients|);
    forall p | p in ps
      ensures TotalIn(u, clients)(p) >= worth && (Monotone(u, clients) ==> TotalIn(u, clients)(p) == worth)
    {
      TotalOfOrdering(u, clients, p);
    }
    SumAtLeast(ps, TotalIn(u, clients), worth);
    if Monotone(u, clients) {
      SumOfConst(ps, TotalIn(u, clients), worth);
    }
    Cancel(|ps|, total, worth);
  }

  lemma EndWorths(u: Utility, clients: seq<Id>)
    requires IsUtility(u, clients)
    ensures [] in u && clients in u
    ensures Worth(u, clients, Elems(clients)) == u[clients] && Worth(u, clients, {}) == u[[]]
  {
    RestrictAll(clients, Elems(clients));
    RestrictNone(clients);
    assert Elems<Id>([]) == {};
    WorthOfKey(u, clients, Elems(clients));
    WorthOfKey(u, clients, {});
  }

  lemma Cancel(n: nat, total: real, worth: real)
    requires n > 0
    ensures Repeat(n, total) >= Repeat(n, worth) ==> total >= worth
    ensures Repeat(n, total) == Repeat(n, worth) ==> total == worth
  {
    RepeatIsProduct(n, total);
    RepeatIsProduct(n, worth);
    CancelProduct(n as real, total, worth);
  }

  lemma CancelProduct(n: real, total: real, worth: real)
    requires n > 0.0
    ensures n * total >= n * worth ==> total >= worth
    ensures n * total == n * worth ==> total == worth
  {
  }
}
