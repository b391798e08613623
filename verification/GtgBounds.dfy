/**
 How far truncation and the cache can take a client's estimate from its exact value, when no client makes a
 set of clients worth less.
 */
module GtgBounds {
  import opened Facts
  import opened Combinatorics
  import opened ShapleyValue
  import opened ShapleyProperties
  import opened ShapleyRounds
  import opened GtgShapley
  import opened GtgAverages

  /** The setting of the lemmas below; its facts are only there for a proof that uses them. */
  ghost predicate MonotoneSetting(g: Game, u: Utility) {
    forall b {:trigger Use(b)} | Use(b) :: Increasing(g.all) && IsUtility(u, g.all) && Monotone(u, g.all)
  }

  /** Every cached utility is within `d` of the exact one, and the others would be measured right. */
  ghost predicate IsClose(g: Game, u: Utility, util: Utility, d: real) {
    && Known(g, util)
    && (forall key | key in util :: key in u && Gap(util[key], u[key]) <= d)
    && (forall key | key in u && key !in util :: u[key] == g.validate(key))
  }

  /** Longer prefixes are worth no less. */
  lemma {:induction false} PrefixesGrow(u: Utility, clients: seq<Id>, order: seq<Id>, i: nat, j: nat)
    requires Monotone(u, clients) && IsOrdering(order, clients) && i <= j <= |order|
    ensures PrefixWorth(u, clients, order, i) <= PrefixWorth(u, clients, order, j)
    decreases j
  {
    if i < j {
      PrefixesGrow(u, clients, order, i, j - 1);
      NextElems(order, j - 1);
      assert order[j - 1] in Elems(order);
      assert Helps(u, clients, order[j - 1], Elems(order[..j - 1]));
    }
  }

  /** What a step needs to know of the utilities: the prefix is a key, and its worth is between those of the prefix
      before it and of all clients. */
  lemma PrefixFacts(g: Game, u: Utility, order: seq<Id>, j: nat)
    requires MonotoneSetting(g, u) && IsOrdering(order, g.all) && 0 < j <= |order|
    ensures PrefixKey(order, j) in u && u[PrefixKey(order, j)] == PrefixWorth(u, g.all, order, j)
    ensures g.all in u
    ensures PrefixWorth(u, g.all, order, j - 1) <= u[PrefixKey(order, j)] <= u[g.all]
  {
    assert Use(true);
    PrefixKeyIs(g.all, order, j);
    WorthOfKey(u, g.all, Elems(order[..j]));
    PrefixesGrow(u, g.all, order, j - 1, j);
    PrefixesGrow(u, g.all, order, j, |order|);
    assert order[..|order|] == order;
    EndWorths(u, g.all);
  }

  /** One step: a measured utility is exact, a cached one is close, and a truncated one is close to that of all
      clients, between which and the one before lies the exact one. */
  lemma TakenIsClose(g: Game, u: Utility, util: Utility, key: Key, before: real, worthBefore: real, d: real)
    requires d >= 0.0 && IsClose(g, u, util, d + AtLeastZero(g.eps)) && key in u && g.all in u
    requires Gap(util[g.all], u[g.all]) <= d && Gap(before, worthBefore) <= d + AtLeastZero(g.eps)
    requires worthBefore <= u[key] <= u[g.all]
    ensures Gap(Taken(g, util, key, before), u[key]) <= d + AtLeastZero(g.eps)
  {
  }

  lemma StepIsClose(g: Game, u: Utility, util: Utility, order: seq<Id>, j: nat, before: real, d: real)
    requires MonotoneSetting(g, u) && IsOrdering(order, g.all) && 0 < j <= |order|
    requires d >= 0.0 && IsClose(g, u, util, d + AtLeastZero(g.eps)) && g.all in u && Gap(util[g.all], u[g.all]) <= d
    requires Gap(before, PrefixWorth(u, g.all, order, j - 1)) <= d + AtLeastZero(g.eps)
    ensures var key := PrefixKey(order, j);
      var x := Taken(g, util, key, before);
      && IsClose(g, u, util[key := x], d + AtLeastZero(g.eps))
      && Gap(x, PrefixWorth(u, g.all, order, j)) <= d + AtLeastZero(g.eps)
  {
    PrefixFacts(g, u, order, j);
    TakenIsClose(g, u, util, PrefixKey(order, j), before, PrefixWorth(u, g.all, order, j - 1), d);
  }

  /** The utilities taken of all prefixes are within `d` of the exact ones. */
  ghost predicate AreClose(u: Utility, clients: seq<Id>, order: seq<Id>, v: seq<real>, d: real) {
    |v| <= |order| + 1 && forall i | 0 <= i < |v| :: Gap(v[i], PrefixWorth(u, clients, order, i)) <= d
  }

  /** The scan of one ordering: utilities taken and cached are off by at most one more threshold. */
  lemma {:induction false} ScanIsClose(g: Game, u: Utility, util: Utility, order: seq<Id>, j: nat, d: real)
    requires MonotoneSetting(g, u) && IsOrdering(order, g.all) && g.all != []
    requires d >= 0.0 && IsClose(g, u, util, d) && j <= |order|
    ensures IsClose(g, u, ScanTo(g, util, order, j).util, d + AtLeastZero(g.eps))
    ensures AreClose(u, g.all, order, ScanTo(g, util, order, j).v, d + AtLeastZero(g.eps))
  {
    if j == 0 {
      NothingTaken(g, u, util, order, d);
    } else {
      ScanIsClose(g, u, util, order, j - 1, d);
      NextIsClose(g, u, util, order, j, d);
    }
  }

  lemma NothingTaken(g: Game, u: Utility, util: Utility, order: seq<Id>, d: real)
    requires MonotoneSetting(g, u) && IsClose(g, u, util, d)
    ensures IsClose(g, u, ScanTo(g, util, order, 0).util, d + AtLeastZero(g.eps))
    ensures AreClose(u, g.all, order, ScanTo(g, util, order, 0).v, d + AtLeastZero(g.eps))
  {
    assert Use(true);
    EndWorths(u, g.all);
    assert Elems(order[..0]) == {};
  }

  lemma NextIsClose(g: Game, u: Utility, util: Utility, order: seq<Id>, j: nat, d: real)
    requires MonotoneSetting(g, u) && IsOrdering(order, g.all) && 0 < j <= |order|
    requires d >= 0.0 && IsClose(g, u, util, d)
    requires IsClose(g, u, ScanTo(g, util, order, j - 1).util, d + AtLeastZero(g.eps))
    requires AreClose(u, g.all, order, ScanTo(g, util, order, j - 1).v, d + AtLeastZero(g.eps))
    ensures IsClose(g, u, ScanTo(g, util, order, j).util, d + AtLeastZero(g.eps))
    ensures AreClose(u, g.all, order, ScanTo(g, util, order, j).v, d + AtLeastZero(g.eps))
  {
    FullEntryKept(g, util, order, j - 1);
    var s := ScanTo(g, util, order, j - 1);
    var x := Taken(g, s.util, PrefixKey(order, j), s.v[j - 1]);
    NextScan(g, util, order, j);
    StepIsClose(g, u, s.util, order, j, s.v[j - 1], d);
    OneMoreIsClose(u, g.all, order, s.v, x, d + AtLeastZero(g.eps));
  }

  lemma OneMoreIsClose(u: Utility, clients: seq<Id>, order: seq<Id>, v: seq<real>, x: real, d: real)
    requires AreClose(u, clients, order, v, d) && |v| <= |order| && Gap(x, PrefixWorth(u, clients, order, |v|)) <= d
    ensures AreClose(u, clients, order, v + [x], d)
  {
  }

  /** After `k` orderings, every cached utility is within `k` thresholds of the exact one. */
  lemma {:induction false} CacheIsClose(g: Game, u: Utility, util: Utility, orders: seq<seq<Id>>, k: nat)
    requires MonotoneSetting(g, u) && g.all != [] && IsClose(g, u, util, 0.0)
    requires k <= |orders| && forall p | p in orders :: IsOrdering(p, g.all)
    ensures IsClose(g, u, UtilAfter(g, util, orders, k), Repeat(k, AtLeastZero(g.eps)))
    ensures Repeat(k, AtLeastZero(g.eps)) >= 0.0
  {
    if k > 0 {
      CacheIsClose(g, u, util, orders, k - 1);
      assert orders[k - 1] in orders;
      ScanIsClose(g, u, UtilAfter(g, util, orders, k - 1), orders[k - 1], |orders[k - 1]|,
                  Repeat(k - 1, AtLeastZero(g.eps)));
    }
  }

  /** What a record holds of a client is off by at most twice the error of the utilities taken. */
  lemma EntryIsClose(g: Game, u: Utility, util: Utility, order: seq<Id>, n: nat, offset: Id, at: nat, d: real)
    requires MonotoneSetting(g, u) && IsOrdering(order, g.all) && g.all != []
    requires d >= 0.0 && IsClose(g, u, util, d) && Fits(order, n, offset) && at < |order|
    ensures Gap(Recorded(g, util, order, n, offset)[order[at] - offset],
                Marginal(order[at], {}, order, Gain(u, g.all, order[at]))) <= 2.0 * (d + AtLeastZero(g.eps))
  {
    ScanIsClose(g, u, util, order, |order|, d);
    RecordedIs(g, util, order, n, offset);
    var v := ScanTo(g, util, order, |order|).v;
    RecordEntries(order, v, n, offset, |order|);
    MarginalIs(u, g.all, order, at);
    assert Gap(v[at], PrefixWorth(u, g.all, order, at)) <= d + AtLeastZero(g.eps);
    assert Gap(v[at + 1], PrefixWorth(u, g.all, order, at + 1)) <= d + AtLeastZero(g.eps);
  }

  lemma {:induction false} SumsAreClose<S, T>(a: seq<S>, b: seq<T>, f: S -> real, g: T -> real, e: real)
    requires |a| == |b| && forall k | 0 <= k < |a| :: Gap(f(a[k]), g(b[k])) <= 2.0 * (Repeat(k, e) + e)
    ensures Gap(Sum(a, f), Sum(b, g)) <= 2.0 * Slack(|a|, e)
  {
    if a != [] {
      var n := |a| - 1;
      SumsAreClose(a[..n], b[..n], f, g, e);
      assert Gap(f(a[n]), g(b[n])) <= 2.0 * (Repeat(n, e) + e);
    }
  }

  /** The entry of one client, over all records. */
  lemma EntriesAreClose(g: Game, u: Utility, start: Utility, orders: seq<seq<Id>>, n: nat, offset: Id, i: nat)
    requires MonotoneSetting(g, u) && g.all != [] && IsClose(g, u, start, 0.0) && i < |g.all| && g.all[i] - offset == i
    requires AllFit(orders, n, offset) && forall p | p in orders :: IsOrdering(p, g.all)
    ensures Gap(Sum(Records(g, start, orders, n, offset), Entry(i)),
                Sum(orders, MarginalIn(g.all[i], {}, Gain(u, g.all, g.all[i])))) <= 2.0 * Slack(|orders|, AtLeastZero(g.eps))
  {
    var records, marginal := Records(g, start, orders, n, offset), MarginalIn(g.all[i], {}, Gain(u, g.all, g.all[i]));
    forall k | 0 <= k < |orders|
      ensures Gap(Entry(i)(records[k]), marginal(orders[k]))
           <= 2.0 * (Repeat(k, AtLeastZero(g.eps)) + AtLeastZero(g.eps))
    {
      assert orders[k] in orders;
      CacheIsClose(g, u, start, orders, k);
      NthRecord(g, start, orders, k, n, offset);
      NthIsClose(g, u, UtilAfter(g, start, orders, k), orders[k], n, offset, i, Repeat(k, AtLeastZero(g.eps)));
    }
    SumsAreClose(records, orders, Entry(i), marginal, AtLeastZero(g.eps));
  }

  lemma NthIsClose(g: Game, u: Utility, util: Utility, order: seq<Id>, n: nat, offset: Id, i: nat, d: real)
    requires MonotoneSetting(g, u) && IsOrdering(order, g.all) && g.all != []
    requires d >= 0.0 && IsClose(g, u, util, d) && Fits(order, n, offset) && i < |g.all| && g.all[i] - offset == i
    ensures Gap(Entry(i)(Recorded(g, util, order, n, offset)), MarginalIn(g.all[i], {}, Gain(u, g.all, g.all[i]))(order))
         <= 2.0 * (d + AtLeastZero(g.eps))
  {
    var at := PositionIn(order, g.all, i);
    EntryIsClose(g, u, util, order, n, offset, at, d);
    EntryIs(Recorded(g, util, order, n, offset), i);
    MarginalInIs(g.all[i], order, Gain(u, g.all, g.all[i]));
  }

  lemma QuotientsAreClose(k: nat, a: real, b: real, slack: real, twice: real)
    requires k > 0 && Gap(a, b) <= 2.0 * slack && 2.0 * slack == Repeat(k, twice)
    ensures Gap(a / k as real, b / k as real) <= twice
  {
    RepeatIsProduct(k, twice);
    QuotientAtMost(k as real, a, b, twice);
    QuotientAtMost(k as real, b, a, twice);
  }

  lemma QuotientAtMost(k: real, a: real, b: real, x: real)
    requires k > 0.0 && a - b <= k * x
    ensures a / k - b / k <= x
  {
    var p, q := a / k, b / k;
    assert a == k * p && b == k * q;
    assert k * (p - q) <= k * x;
    CancelProduct(k, x, p - q);
  }

  lemma StartIsClose(clients: seq<Id>, last: real, aggregated: real, eps: real, validate: Key -> real)
    requires Increasing(clients) && clients != []
    requires Monotone(RoundUtility(clients, last, aggregated, validate), clients)
    ensures MonotoneSetting(Game(clients, eps, validate), RoundUtility(clients, last, aggregated, validate))
    ensures IsClose(Game(clients, eps, validate), RoundUtility(clients, last, aggregated, validate),
                    StartUtil(clients, last, aggregated), 0.0)
  {
    PowerSetEnds(clients);
    RoundUtilityIsUtility(clients, last, aggregated, validate);
  }

  /** For a sorted list and a monotone utility: after `k` orderings every cached utility is within `k` thresholds of the
      exact one. */
  lemma CachedUtilities(clients: seq<Id>, last: real, aggregated: real, eps: real, validate: Key -> real,
                        orders: seq<seq<Id>>, k: nat, key: Key)
    requires Increasing(clients) && clients != [] && Monotone(RoundUtility(clients, last, aggregated, validate), clients)
    requires k <= |orders| && forall p | p in orders :: IsOrdering(p, clients)
    requires key in UtilAfter(Game(clients, eps, validate), StartUtil(clients, last, aggregated), orders, k)
    ensures key in RoundUtility(clients, last, aggregated, validate)
    ensures var cached := UtilAfter(Game(clients, eps, validate), StartUtil(clients, last, aggregated), orders, k)[key];
      var exact := RoundUtility(clients, last, aggregated, validate)[key];
      cached - exact <= Thresholds(k, eps) && exact - cached <= Thresholds(k, eps)
  {
    StartIsClose(clients, last, aggregated, eps, validate);
    CacheIsClose(Game(clients, eps, validate), RoundUtility(clients, last, aggregated, validate),
                 StartUtil(clients, last, aggregated), orders, k);
    ThresholdsRepeat(k, eps);
  }

  /** For a sorted list without gaps and a monotone utility, with truncation: a client's value is within one threshold
      for every ordering, and one more, of the average of what it adds to those before it. */
  lemma AverageIsClose(clients: seq<Id>, last: real, aggregated: real, eps: real, validate: Key -> real,
                       orders: seq<seq<Id>>, i: nat)
    requires ClientList(clients) && Increasing(clients) && Contiguous(clients) && i < |clients|
    requires Monotone(RoundUtility(clients, last, aggregated, validate), clients)
    requires orders != [] && forall p | p in orders :: IsOrdering(p, clients)
    ensures AllFit(orders, |clients|, Offset(clients))
    ensures var value := Average(RoundRecords(clients, last, aggregated, eps, validate, orders))(i);
      var exact := Sum(orders, MarginalIn(clients[i], {}, RoundGain(clients, last, aggregated, validate, clients[i])))
                   / |orders| as real;
      value - exact <= Thresholds(|orders| + 1, eps) && exact - value <= Thresholds(|orders| + 1, eps)
  {
    OrdersFit(clients, orders);
    StartIsClose(clients, last, aggregated, eps, validate);
    StoredAtOwnIndex(clients);
    var g, u := Game(clients, eps, validate), RoundUtility(clients, last, aggregated, validate);
    var start := StartUtil(clients, last, aggregated);
    EntriesAreClose(g, u, start, orders, |clients|, Offset(clients), i);
    SlackIs(|orders|, AtLeastZero(eps));
    ThresholdsRepeat(|orders| + 1, eps);
    var records := RoundRecords(clients, last, aggregated, eps, validate, orders);
    var exact := Sum(orders, MarginalIn(clients[i], {}, RoundGain(clients, last, aggregated, validate, clients[i])));
    QuotientsAreClose(|orders|, Sum(records, Entry(i)), exact, Slack(|orders|, AtLeastZero(eps)),
                      Thresholds(|orders| + 1, eps));
  }

  /** When every ordering is taken once, a client's value is that close to its exact Shapley value. */
  lemma AllOrderingsAreClose(clients: seq<Id>, last: real, aggregated: real, eps: real, validate: Key -> real,
                             orders: seq<seq<Id>>, i: nat)
    requires ClientList(clients) && Increasing(clients) && Contiguous(clients) && i < |clients|
    requires Monotone(RoundUtility(clients, last, aggregated, validate), clients)
    requires Distinct(orders) && forall p :: p in orders <==> IsOrdering(p, clients)
    ensures AllFit(orders, |clients|, Offset(clients))
    ensures var value := Average(RoundRecords(clients, last, aggregated, eps, validate, orders))(i);
      var exact := Value(RoundUtility(clients, last, aggregated, validate), clients, clients[i]);
      value - exact <= Thresholds(|orders| + 1, eps) && exact - value <= Thresholds(|orders| + 1, eps)
  {
    assert IsOrdering(clients, clients);
    assert clients in orders;
    AverageIsClose(clients, last, aggregated, eps, validate, orders, i);
    RoundValueIsAverage(clients, last, aggregated, validate, i);
    AllOrderingsSum(clients, orders, MarginalIn(clients[i], {}, RoundGain(clients, last, aggregated, validate, clients[i])));
  }

  // Without monotonicity.

  /** How far one ordering takes any utility from a cache that is right: within `d` exactly when no longer prefix is
      worth more than `d` more or less than the one at the stop. */
  lemma ScanErrorIs(g: Game, u: Utility, util: Utility, order: seq<Id>, k: nat, d: real)
    requires Setting(g, u) && IsOrdering(order, g.all) && Faithful(g, u, util) && StopsAt(u, g.all, g.eps, order, k)
    ensures AreClose(u, g.all, order, Scanned(g, util, order).v, d)
            <==> forall i | k <= i <= |order| :: Gap(PrefixWorth(u, g.all, order, i), PrefixWorth(u, g.all, order, k)) <= d
  {
    ScanUntilStop(g, u, util, order, k, |order|);
    var v := Scanned(g, util, order).v;
    if AreClose(u, g.all, order, v, d) {
      forall i | k <= i <= |order|
        ensures Gap(PrefixWorth(u, g.all, order, i), PrefixWorth(u, g.all, order, k)) <= d
      {
        assert Gap(v[i], PrefixWorth(u, g.all, order, i)) <= d;
      }
    } else {
      var i :| 0 <= i < |v| && !(Gap(v[i], PrefixWorth(u, g.all, order, i)) <= d);
      assert v[k] == PrefixWorth(u, g.all, order, k);
      assert Gap(PrefixWorth(u, g.all, order, if i <= k then k else i), PrefixWorth(u, g.all, order, k)) > d;
    }
  }

  /** The values of a round with one ordering: a client before the stop gets exactly what it adds, and one after it
      nothing. */
  lemma TruncatedValue(clients: seq<Id>, last: real, aggregated: real, eps: real, validate: Key -> real, order: seq<Id>,
                       k: nat, at: nat, i: nat)
    requires ClientList(clients) && Increasing(clients) && Contiguous(clients) && IsOrdering(order, clients)
    requires StopsAt(RoundUtility(clients, last, aggregated, validate), clients, eps, order, k)
    requires at < |order| && i < |clients| && order[at] == clients[i]
    ensures AllFit([order], |clients|, Offset(clients))
    ensures Average(RoundRecords(clients, last, aggregated, eps, validate, [order]))(i)
         == if at < k then Marginal(clients[i], {}, order, RoundGain(clients, last, aggregated, validate, clients[i]))
            else 0.0
  {
    OrdersFit(clients, [order]);
    StartIsExact(clients, last, aggregated, eps, validate);
    StoredAtOwnIndex(clients);
    TruncatedAverage(Game(clients, eps, validate), RoundUtility(clients, last, aggregated, validate),
                     StartUtil(clients, last, aggregated), order, |clients|, Offset(clients), k, at, i);
  }

  lemma TruncatedAverage(g: Game, u: Utility, util: Utility, order: seq<Id>, n: nat, offset: Id, k: nat, at: nat, i: nat)
    requires Setting(g, u) && IsOrdering(order, g.all) && Faithful(g, u, util) && StopsAt(u, g.all, g.eps, order, k)
    requires AllFit([order], n, offset) && at < |order| && order[at] - offset == i < n
    ensures Average(Records(g, util, [order], n, offset))(i)
         == if at < k then Marginal(order[at], {}, order, Gain(u, g.all, order[at])) else 0.0
  {
    assert [order][0] == order;
    TruncatedRecord(g, u, util, order, n, offset, k, at);
    OneRecord(g, util, order, n, offset, i);
  }

  lemma TruncatedRecord(g: Game, u: Utility, util: Utility, order: seq<Id>, n: nat, offset: Id, k: nat, at: nat)
    requires Setting(g, u) && IsOrdering(order, g.all) && Faithful(g, u, util) && StopsAt(u, g.all, g.eps, order, k)
    requires Fits(order, n, offset) && at < |order|
    ensures Recorded(g, util, order, n, offset)[order[at] - offset]
         == if at < k then Marginal(order[at], {}, order, Gain(u, g.all, order[at])) else 0.0
  {
    RecordUntilStop(g, u, util, order, n, offset, k, at);
    MarginalIs(u, g.all, order, at);
  }

  lemma OneRecord(g: Game, util: Utility, order: seq<Id>, n: nat, offset: Id, i: nat)
    requires Known(g, util) && AllFit([order], n, offset) && Fits(order, n, offset) && i < n
    ensures Average(Records(g, util, [order], n, offset))(i) == Recorded(g, util, order, n, offset)[i]
  {
    var records := Records(g, util, [order], n, offset);
    NthRecord(g, util, [order], 0, n, offset);
    assert UtilAfter(g, util, [order], 0) == util;
    SumOfOne(records, Entry(i));
  }

  lemma SumOfOne<T>(s: seq<T>, f: T -> real)
    requires |s| == 1
    ensures Sum(s, f) == f(s[0])
  {
    assert s[..0] == [];
  }

  lemma ThreeKeys()
    ensures PrefixKey([0, 1, 2], 1) == [0] && PrefixKey([0, 1, 2], 2) == [0, 1] && PrefixKey([0, 1, 2], 3) == [0, 1, 2]
  {
    assert [0, 1, 2][..1] == [0] && [0, 1, 2][..2] == [0, 1] && [0, 1, 2][..3] == [0, 1, 2];
    assert [0, 1, 2][..2][..1] == [0] && [0][..0] == [];
    assert SortKey([0]) == [0];
    assert SortKey([0, 1]) == [0, 1] by { assert [0, 1][..1] == [0]; }
    assert Insert(2, [1]) == [1, 2] && Insert(2, [0, 1]) == [0, 1, 2] by {
      assert [0, 1][1..] == [1] && [1][1..] == [];
    }
  }

  /** When the first client of the list alone is about as good as all, the second gets nothing, whatever it adds. */
  lemma SecondGetsNothing(clients: seq<Id>, last: real, aggregated: real, eps: real, validate: Key -> real,
                          a: Key, b: Key)
    requires ClientList(clients) && Increasing(clients) && Contiguous(clients) && |clients| > 2
    requires PrefixKey(clients, 1) == a && PrefixKey(clients, 2) == b
    requires Gap(aggregated, last) >= eps && Gap(aggregated, validate(a)) < eps
    ensures AllFit([clients], |clients|, Offset(clients))
    ensures Average(RoundRecords(clients, last, aggregated, eps, validate, [clients]))(1) == 0.0
    ensures Marginal(clients[1], {}, clients, RoundGain(clients, last, aggregated, validate, clients[1]))
         == if validate(b) > validate(a) then validate(b) - validate(a) else 0.0
  {
    StopsAtFirst(clients, last, aggregated, eps, validate, a);
    assert IsOrdering(clients, clients);
    TruncatedValue(clients, last, aggregated, eps, validate, clients, 1, 1, 1);
    MeasuredGain(clients, last, aggregated, validate, 1, a, b);
  }

  lemma StopsAtFirst(clients: seq<Id>, last: real, aggregated: real, eps: real, validate: Key -> real, a: Key)
    requires Increasing(clients) && |clients| > 1 && PrefixKey(clients, 1) == a
    requires Gap(aggregated, last) >= eps && Gap(aggregated, validate(a)) < eps
    ensures StopsAt(RoundUtility(clients, last, aggregated, validate), clients, eps, clients, 1)
  {
    var u := RoundUtility(clients, last, aggregated, validate);
    PowerSetEnds(clients);
    StartIsExact(clients, last, aggregated, eps, validate);
    assert IsOrdering(clients, clients);
    KeyWorth(Game(clients, eps, validate), u, clients, 0);
    PrefixWorthIs(clients, last, aggregated, validate, 1, a);
  }

  /** So it is for clients 0, 1 and 2 with the source's threshold: client 0 alone is as good as all. */
  lemma TruncationHidesGain(validate: Key -> real)
    requires validate([0]) == 1.0
    ensures AllFit([[0, 1, 2]], 3, Offset([0, 1, 2]))
    ensures Average(RoundRecords([0, 1, 2], 0.0, 1.0, 0.001, validate, [[0, 1, 2]]))(1) == 0.0
    ensures Marginal(1, {}, [0, 1, 2], RoundGain([0, 1, 2], 0.0, 1.0, validate, 1))
         == if validate([0, 1]) > 1.0 then validate([0, 1]) - 1.0 else 0.0
  {
    ThreeKeys();
    SecondGetsNothing([0, 1, 2], 0.0, 1.0, 0.001, validate, [0], [0, 1]);
  }

  lemma PrefixWorthIs(clients: seq<Id>, last: real, aggregated: real, validate: Key -> real, j: nat, key: Key)
    requires Increasing(clients) && 0 < j < |clients| && PrefixKey(clients, j) == key
    ensures PrefixWorth(RoundUtility(clients, last, aggregated, validate), clients, clients, j) == validate(key)
  {
    RoundUtilityIsUtility(clients, last, aggregated, validate);
    assert IsOrdering(clients, clients);
    PrefixKeyIs(clients, clients, j);
    SortKeyKeeps(clients[..j]);
    WorthOfKey(RoundUtility(clients, last, aggregated, validate), clients, Elems(clients[..j]));
  }

  /** Along the list itself, a client measured after another adds the difference of the two prefixes. */
  lemma MeasuredGain(clients: seq<Id>, last: real, aggregated: real, validate: Key -> real, j: nat, a: Key, b: Key)
    requires Increasing(clients) && 0 < j && j + 1 < |clients|
    requires PrefixKey(clients, j) == a && PrefixKey(clients, j + 1) == b
    ensures Marginal(clients[j], {}, clients, RoundGain(clients, last, aggregated, validate, clients[j]))
         == if validate(b) > validate(a) then validate(b) - validate(a) else 0.0
  {
    PrefixWorthIs(clients, last, aggregated, validate, j, a);
    PrefixWorthIs(clients, last, aggregated, validate, j + 1, b);
    MarginalIs(RoundUtility(clients, last, aggregated, validate), clients, clients, j);
  }
}
