/**
 The assessor over many rounds: each round's values are stored under its index, and the final
 assignment divides the sums over the rounds among all clients.
 */
module ShapleyRounds {
  import opened Combinatorics
  import opened ShapleyValue
  import opened ShapleyProperties

  datatype Round = Round(idx: int, values: map<Id, real>)

  /** Storing into a dictionary: an index already there keeps its place. */
  function Store(rounds: seq<Round>, idx: int, values: map<Id, real>): seq<Round> {
    if rounds == [] then [Round(idx, values)]
    else if rounds[0].idx == idx then [Round(idx, values)] + rounds[1..]
    else [rounds[0]] + Store(rounds[1..], idx, values)
  }

  /** The values stored under an index. */
  function StoredUnder(rounds: seq<Round>, idx: int): seq<map<Id, real>> {
    if rounds == [] then []
    else if rounds[0].idx == idx then [rounds[0].values]
    else StoredUnder(rounds[1..], idx)
  }

  /** A round is stored under its own index, in place of what was there, and all others are kept. */
  lemma {:induction false} StoreReplaces(rounds: seq<Round>, idx: int, values: map<Id, real>, other: int)
    ensures StoredUnder(Store(rounds, idx, values), other) == if other == idx then [values] else StoredUnder(rounds, other)
  {
    if rounds != [] && rounds[0].idx != idx {
      StoreReplaces(rounds[1..], idx, values, other);
    }
  }

  predicate NonNegative(rounds: seq<Round>) {
    forall k, id | 0 <= k < |rounds| && id in rounds[k].values :: rounds[k].values[id] >= 0.0
  }

  lemma {:induction false} StoreKeepsSign(rounds: seq<Round>, idx: int, values: map<Id, real>)
    requires NonNegative(rounds) && forall id | id in values :: values[id] >= 0.0
    ensures NonNegative(Store(rounds, idx, values))
  {
    if rounds != [] && rounds[0].idx != idx {
      StoreKeepsSign(rounds[1..], idx, values);
    }
  }

  /** The utilities of a round: two accuracies are given, the others are measured. */
  function RoundUtility(clients: seq<Id>, last: real, aggregated: real, validate: Key -> real): Utility {
    map key | key in PowerSet(clients) :: Measured(clients, last, aggregated, validate)(key)
  }

  function Measured(clients: seq<Id>, last: real, aggregated: real, validate: Key -> real): Key -> real {
    key => if key == clients then aggregated else if key == [] then last else validate(key)
  }

  lemma RoundUtilityIsUtility(clients: seq<Id>, last: real, aggregated: real, validate: Key -> real)
    requires Distinct(clients)
    ensures IsUtility(RoundUtility(clients, last, aggregated, validate), clients)
  {
    forall key ensures key in PowerSet(clients) <==> IsKey(clients, key) {
      PowerSetIsAll(clients, key);
    }
  }

  /** What they are: the old accuracy for nobody, that of the aggregated model for all, and the measured one for others. */
  lemma RoundUtilityIs(clients: seq<Id>, last: real, aggregated: real, validate: Key -> real)
    requires Distinct(clients)
    ensures var u := RoundUtility(clients, last, aggregated, validate);
      && clients in u && u[clients] == aggregated
      && [] in u && (clients != [] ==> u[[]] == last)
      && forall key | key in u && key != clients && key != [] :: u[key] == validate(key)
  {
    PowerSetEnds(clients);
  }

  lemma PowerSetEnds(clients: seq<Id>)
    requires Distinct(clients)
    ensures PowerSet(clients) != [] && PowerSet(clients)[|PowerSet(clients)| - 1] == clients
    ensures [] in PowerSet(clients) && clients in PowerSet(clients)
  {
    RestrictNone(clients);
    PowerSetIsAll(clients, []);
    RestrictAll(clients, Elems(clients));
    PowerSetIsAll(clients, clients);
  }

  function RoundValue(id: Id): Round -> real {
    (r: Round) => if id in r.values then r.values[id] else 0.0
  }

  function TotalOf(rounds: seq<Round>): Id -> real {
    id => Sum(rounds, RoundValue(id))
  }

  function Total(rounds: seq<Round>, n: nat): real {
    Sum(UpTo(n), TotalOf(rounds))
  }

  function Assigned(rounds: seq<Round>, n: nat): Id -> real {
    id => if Total(rounds, n) == 0.0 then (if n == 0 then 0.0 else 1.0 / n as real)
          else Portion(TotalOf(rounds)(id), Total(rounds, n))
  }

  function Portion(part: real, whole: real): real
    requires whole != 0.0
  {
    part / whole
  }

  /** The loop that fills the utilities, skipping the two that are known, and the order of their keys. */
  method MeasureSubsets(powerset: seq<Key>, all: Key, last: real, aggregated: real, validate: Key -> real)
    returns (util: Utility, keys: seq<Key>)
    requires [] in powerset && all in powerset
    ensures util == map key | key in powerset :: Measured(all, last, aggregated, validate)(key)
    ensures Distinct(keys) && Elems(keys) == util.Keys
  {
    util, keys := map[[] := last], [[]];
    if all != [] {
      keys := keys + [all];
    }
    util := util[all := aggregated];
    ghost var measured := Measured(all, last, aggregated, validate);
    for k := 0 to |powerset|
      invariant Distinct(keys) && Elems(keys) == util.Keys
      invariant util.Keys == {[], all} + Elems(powerset[..k])
      invariant forall key | key in util :: util[key] == measured(key)
    {
      var key := powerset[k];
      assert Elems(powerset[..k + 1]) == Elems(powerset[..k]) + {key};
      if key !in util {
        AddKey(keys, key);
        keys := keys + [key];
        util := util[key := validate(key)];
      }
    }
    assert powerset[..|powerset|] == powerset;
    assert util.Keys == Elems(powerset);
  }

  lemma AddKey(keys: seq<Key>, key: Key)
    requires Distinct(keys) && key !in Elems(keys)
    ensures Distinct(keys + [key]) && Elems(keys + [key]) == Elems(keys) + {key}
  {
  }

  method MeasureRound(clients: seq<Id>, last: real, aggregated: real, validate: Key -> real)
    returns (util: Utility, keys: seq<Key>)
    requires Distinct(clients)
    ensures util == RoundUtility(clients, last, aggregated, validate)
    ensures Distinct(keys) && Elems(keys) == util.Keys
  {
    var powerset := PowerSet(clients);
    PowerSetEnds(clients);
    util, keys := MeasureSubsets(powerset, powerset[|powerset| - 1], last, aggregated, validate);
  }

  method RoundValues(clients: seq<Id>, last: real, aggregated: real, validate: Key -> real) returns (values: map<Id, real>)
    requires Distinct(clients)
    ensures values == Values(RoundUtility(clients, last, aggregated, validate), clients)
  {
    RoundUtilityIsUtility(clients, last, aggregated, validate);
    var util, keys := MeasureRound(clients, last, aggregated, validate);
    values := ShapleyValues(util, keys, clients);
  }

  lemma ValuesAreNonNegative(u: Utility, clients: seq<Id>)
    ensures forall id | id in Values(u, clients) :: Values(u, clients)[id] >= 0.0
  {
    forall id | id in Values(u, clients) ensures Values(u, clients)[id] >= 0.0 {
      ValueIsNonNegative(u, clients, id);
    }
  }

  class MRShapleyValue {
    const clientNumInTotal: nat
    var shapleyValuesByRound: seq<Round>

    ghost predicate Valid()
      reads this
    {
      NonNegative(shapleyValuesByRound)
    }

    constructor (clientNumInTotal: nat)
      ensures Valid() && this.clientNumInTotal == clientNumInTotal && shapleyValuesByRound == []
    {
      this.clientNumInTotal := clientNumInTotal;
      shapleyValuesByRound := [];
    }

    method Run(clients: seq<Id>, last: real, aggregated: real, validate: Key -> real, roundIdx: int)
      requires Valid() && Distinct(clients)
      modifies this
      ensures Valid()
      ensures shapleyValuesByRound
           == Store(old(shapleyValuesByRound), roundIdx, Values(RoundUtility(clients, last, aggregated, validate), clients))
    {
      var values := RoundValues(clients, last, aggregated, validate);
      ValuesAreNonNegative(RoundUtility(clients, last, aggregated, validate), clients);
      StoreKeepsSign(shapleyValuesByRound, roundIdx, values);
      shapleyValuesByRound := Store(shapleyValuesByRound, roundIdx, values);
    }

    /** The sums over the rounds, and their total. */
    method SumRounds() returns (summed: map<Id, real>, total: real)
      ensures summed == map id | id in UpTo(clientNumInTotal) :: TotalOf(shapleyValuesByRound)(id)
      ensures total == Total(shapleyValuesByRound, clientNumInTotal)
    {
      var n := clientNumInTotal;
      summed, total := map[], 0.0;
      for id := 0 to n
        invariant summed.Keys == Elems(UpTo(n)[..id])
        invariant forall i | i in summed :: summed[i] == TotalOf(shapleyValuesByRound)(i)
        invariant total == Sum(UpTo(n)[..id], TotalOf(shapleyValuesByRound))
      {
        var sum := 0.0;
        for k := 0 to |shapleyValuesByRound|
          invariant sum == Sum(shapleyValuesByRound[..k], RoundValue(id))
        {
          var r := shapleyValuesByRound[k];
          if id in r.values {
            sum := sum + r.values[id];
          }
          assert shapleyValuesByRound[..k + 1][..k] == shapleyValuesByRound[..k];
        }
        assert shapleyValuesByRound[..|shapleyValuesByRound|] == shapleyValuesByRound;
        summed := summed[id := sum];
        total := total + sum;
        assert UpTo(n)[..id + 1] == UpTo(n)[..id] + [id];
      }
      assert UpTo(n)[..n] == UpTo(n);
    }

    /** Every client gets its part of the total, or all get the same if the total is zero. */
    method GetFinalContributionAssignment() returns (assignment: map<Id, real>)
      ensures assignment == map id | id in UpTo(clientNumInTotal) :: Assigned(shapleyValuesByRound, clientNumInTotal)(id)
      ensures var total := Total(shapleyValuesByRound, clientNumInTotal);
        forall i | i in assignment ::
          if total != 0.0 then assignment[i] * total == TotalOf(shapleyValuesByRound)(i)
          else assignment[i] * clientNumInTotal as real == 1.0
    {
      assignment := DividedTotals();
      Proportional(shapleyValuesByRound, clientNumInTotal, assignment);
    }

    method DividedTotals() returns (assignment: map<Id, real>)
      ensures assignment == map id | id in UpTo(clientNumInTotal) :: Assigned(shapleyValuesByRound, clientNumInTotal)(id)
    {
      var n := clientNumInTotal;
      var summed, total := SumRounds();
      if total == 0.0 {
        assignment := map id | id in summed :: 1.0 / n as real;
      } else {
        assignment := map id | id in summed :: Portion(summed[id], total);
      }
    }
  }

  lemma Proportional(rounds: seq<Round>, n: nat, assignment: map<Id, real>)
    requires assignment == map id | id in UpTo(n) :: Assigned(rounds, n)(id)
    ensures forall i | i in assignment ::
              if Total(rounds, n) != 0.0 then assignment[i] * Total(rounds, n) == TotalOf(rounds)(i)
              else assignment[i] * n as real == 1.0
  {
    forall i | i in assignment
      ensures if Total(rounds, n) != 0.0 then assignment[i] * Total(rounds, n) == TotalOf(rounds)(i)
              else assignment[i] * n as real == 1.0
    {
      if Total(rounds, n) != 0.0 {
        PartOfWhole(TotalOf(rounds)(i), Total(rounds, n));
      } else {
        EqualParts(n);
      }
    }
  }

  lemma EqualParts(n: nat)
    ensures n > 0 ==> 1.0 / n as real * n as real == 1.0
  {
  }

  lemma PartOfWhole(part: real, whole: real)
    requires whole != 0.0
    ensures Portion(part, whole) * whole == part
  {
  }

  /** The totals: a round adds the value it has for a client, and nothing for one that it does not name. */
  lemma TotalGrows(rounds: seq<Round>, r: Round, n: nat)
    ensures TotalOf([])(n) == 0.0 && Total(rounds, 0) == 0.0
    ensures TotalOf(rounds + [r])(n) == TotalOf(rounds)(n) + if n in r.values then r.values[n] else 0.0
    ensures Total(rounds, n + 1) == Total(rounds, n) + TotalOf(rounds)(n)
  {
    assert (rounds + [r])[..|rounds|] == rounds;
    assert UpTo(n + 1)[..n] == UpTo(n);
  }

  lemma TotalIsNonNegative(rounds: seq<Round>, id: Id)
    requires NonNegative(rounds)
    ensures TotalOf(rounds)(id) >= 0.0
  {
    forall r | r in rounds ensures RoundValue(id)(r) >= 0.0 {
      var k :| 0 <= k < |rounds| && rounds[k] == r;
    }
    SumAtLeast(rounds, RoundValue(id), 0.0);
    RepeatZero(|rounds|);
  }

  lemma {:induction false} SumDivides<T>(s: seq<T>, f: T -> real, g: T -> real, c: real)
    requires c != 0.0 && forall x | x in s :: g(x) == f(x) / c
    ensures Sum(s, g) == Sum(s, f) / c
  {
    if s != [] {
      SumDivides(s[..|s| - 1], f, g, c);
      QuotientAdds(Sum(s[..|s| - 1], f), f(s[|s| - 1]), c);
    }
  }

  lemma QuotientAdds(a: real, b: real, c: real)
    requires c != 0.0
    ensures a / c + b / c == (a + b) / c
  {
  }

  lemma TotalsAreNonNegative(rounds: seq<Round>, n: nat)
    requires NonNegative(rounds)
    ensures forall id :: TotalOf(rounds)(id) >= 0.0
    ensures Total(rounds, n) >= 0.0
  {
    forall id ensures TotalOf(rounds)(id) >= 0.0 {
      TotalIsNonNegative(rounds, id);
    }
    SumAtLeast(UpTo(n), TotalOf(rounds), 0.0);
    RepeatZero(n);
  }

  /** After any rounds, no client is assigned less than nothing, ... */
  lemma AssignmentIsNonNegative(rounds: seq<Round>, n: nat, id: Id)
    requires NonNegative(rounds)
    ensures Assigned(rounds, n)(id) >= 0.0
  {
    TotalsAreNonNegative(rounds, n);
    if Total(rounds, n) != 0.0 {
      QuotientSign(TotalOf(rounds)(id), Total(rounds, n));
    } else if n > 0 {
      QuotientSign(1.0, n as real);
    }
  }

  lemma QuotientSign(a: real, b: real)
    requires a >= 0.0 && b > 0.0
    ensures a / b >= 0.0
  {
  }

  /** ... the assignment adds up to one, ... */
  lemma AssignmentAddsUp(rounds: seq<Round>, n: nat)
    requires n > 0
    ensures Sum(UpTo(n), Assigned(rounds, n)) == 1.0
  {
    if Total(rounds, n) == 0.0 {
      SumOfConst(UpTo(n), Assigned(rounds, n), 1.0 / n as real);
      RepeatIsProduct(n, 1.0 / n as real);
    } else {
      SumDivides(UpTo(n), TotalOf(rounds), Assigned(rounds, n), Total(rounds, n));
    }
  }

  /** ... and clients with the same value in every round are assigned the same. */
  lemma AssignmentIsSymmetric(rounds: seq<Round>, n: nat, i: Id, j: Id)
    requires forall r | r in rounds :: RoundValue(i)(r) == RoundValue(j)(r)
    ensures Assigned(rounds, n)(i) == Assigned(rounds, n)(j)
  {
    SumSame(rounds, RoundValue(i), RoundValue(j));
    assert TotalOf(rounds)(i) == TotalOf(rounds)(j);
  }

  /** The values stored for a round add up to at least the accuracy gained in it, and to exactly that
      when no client makes a subset worse. */
  lemma RoundIsEfficient(clients: seq<Id>, last: real, aggregated: real, validate: Key -> real)
    requires Distinct(clients) && clients != []
    ensures var u := RoundUtility(clients, last, aggregated, validate);
      && Sum(clients, ValueOf(u, clients)) >= aggregated - last
      && (Monotone(u, clients) ==> Sum(clients, ValueOf(u, clients)) == aggregated - last)
  {
    RoundUtilityIsUtility(clients, last, aggregated, validate);
    Efficiency(RoundUtility(clients, last, aggregated, validate), clients);
  }
}
