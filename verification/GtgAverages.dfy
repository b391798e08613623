/**
 What the averaged records of the truncated estimate mean: their sum keeps the gain in accuracy up to
 the drift, and exactly when truncation leaves out nothing of worth are all utilities taken exact.
 */
module GtgAverages {
  import opened Facts
  import opened Combinatorics
  import opened ShapleyValue
  import opened ShapleyProperties
  import opened ShapleyRounds
  import opened GtgShapley

  // The sum of the averages.

  function RecordTotal(): seq<real> -> real {
    (r: seq<real>) => Sum(r, Itself())
  }

  function EntryOf(): (Id, seq<real>) -> real {
    (i: Id, r: seq<real>) => if 0 <= i < |r| then r[i] else 0.0
  }

  function EntryTotals(records: seq<seq<real>>): Id -> real {
    RowSums(records, EntryOf())
  }

  function Mean(records: seq<seq<real>>): Id -> real {
    (i: Id) => if records == [] then 0.0 else Portion(EntryTotals(records)(i), |records| as real)
  }

  lemma EntryTotalsIs(records: seq<seq<real>>, i: nat)
    ensures EntryTotals(records)(i) == Sum(records, Entry(i))
  {
  }

  /** A record's entries by index. */
  lemma {:induction false} RecordByIndex(r: seq<real>)
    ensures Sum(UpTo(|r|), Column(EntryOf(), r)) == Sum(r, Itself())
  {
    if r != [] {
      var front := r[..|r| - 1];
      RecordByIndex(front);
      assert UpTo(|r|)[..|r| - 1] == UpTo(|front|);
      SumSame(UpTo(|front|), Column(EntryOf(), r), Column(EntryOf(), front));
    }
  }

  lemma {:induction false} AveragesByIndex(records: seq<seq<real>>, n: nat)
    ensures Sum(Averages(records, n), Itself()) == Sum(UpTo(n), Mean(records))
  {
    if n > 0 {
      AveragesByIndex(records, n - 1);
      assert Averages(records, n)[..n - 1] == Averages(records, n - 1);
      assert UpTo(n)[..n - 1] == UpTo(n - 1);
      EntryTotalsIs(records, n - 1);
    }
  }

  /** The averages add up to the average of the records' sums. */
  lemma AveragesTotal(records: seq<seq<real>>, n: nat)
    requires records != [] && forall r | r in records :: |r| == n
    ensures Sum(Averages(records, n), Itself()) == Sum(records, RecordTotal()) / |records| as real
  {
    AveragesByIndex(records, n);
    SumDivides(UpTo(n), EntryTotals(records), Mean(records), |records| as real);
    SumSwaps(UpTo(n), records, EntryOf());
    forall r | r in records ensures ColumnSums(UpTo(n), EntryOf())(r) == RecordTotal()(r) {
      RecordByIndex(r);
    }
    SumSame(records, ColumnSums(UpTo(n), EntryOf()), RecordTotal());
  }

  /** One threshold for the first record, two for the second, and so on. */
  function Slack(k: nat, e: real): real {
    if k == 0 then 0.0 else Slack(k - 1, e) + Repeat(k, e)
  }

  lemma {:induction false} SlackIs(k: nat, e: real)
    ensures 2.0 * Slack(k, e) == Repeat(k, Repeat(k + 1, e))
  {
    if k > 0 {
      SlackIs(k - 1, e);
      RepeatOfSum(k - 1, Repeat(k, e), e);
    }
  }

  lemma {:induction false} TotalsAtLeast(records: seq<seq<real>>, gain: real, e: real)
    requires KeepsGain(records, gain, e)
    ensures Sum(records, RecordTotal()) >= Repeat(|records|, gain) - Slack(|records|, e)
  {
    if records != [] {
      var front := records[..|records| - 1];
      assert forall k | 0 <= k < |front| :: front[k] == records[k];
      TotalsAtLeast(front, gain, e);
    }
  }

  lemma MeanAtLeast(k: nat, total: real, gain: real, slack: real, twice: real)
    requires k > 0 && total >= Repeat(k, gain) - slack && 2.0 * slack == Repeat(k, twice)
    ensures total / k as real >= gain - twice / 2.0
  {
    RepeatIsProduct(k, gain);
    RepeatIsProduct(k, twice);
    assert slack == k as real * (twice / 2.0);
    assert total >= k as real * (gain - twice / 2.0);
    QuotientAtLeast(k as real, total, gain - twice / 2.0);
  }

  lemma QuotientAtLeast(k: real, total: real, x: real)
    requires k > 0.0 && total >= k * x
    ensures total / k >= x
  {
  }

  lemma AveragesAtLeast(records: seq<seq<real>>, n: nat, gain: real, e: real)
    requires records != [] && forall r | r in records :: |r| == n
    requires KeepsGain(records, gain, e)
    ensures Sum(Averages(records, n), Itself()) >= gain - Repeat(|records| + 1, e) / 2.0
  {
    TotalsAtLeast(records, gain, e);
    AveragesTotal(records, n);
    SlackIs(|records|, e);
    MeanAtLeast(|records|, Sum(records, RecordTotal()), gain, Slack(|records|, e), Repeat(|records| + 1, e));
  }

  /** The records of a round. */
  function RoundRecords(clients: seq<Id>, last: real, aggregated: real, eps: real, validate: Key -> real,
                        orders: seq<seq<Id>>): seq<seq<real>>
    requires AllFit(orders, |clients|, Offset(clients))
  {
    Records(Game(clients, eps, validate), StartUtil(clients, last, aggregated), orders, |clients|, Offset(clients))
  }

  /** Each record adds up to at least the gain, less one more threshold than the one before it. */
  ghost predicate KeepsGain(records: seq<seq<real>>, gain: real, e: real) {
    forall k | 0 <= k < |records| :: Sum(records[k], Itself()) >= gain - (Repeat(k, e) + e)
  }

  lemma RecordsKeepGain(g: Game, start: Utility, orders: seq<seq<Id>>, n: nat, offset: Id)
    requires Known(g, start) && Increasing(g.all) && g.all != [] && AllFit(orders, n, offset)
    requires forall p | p in orders :: IsOrdering(p, g.all)
    ensures KeepsGain(Records(g, start, orders, n, offset), start[g.all] - start[[]], AtLeastZero(g.eps))
  {
    forall k | 0 <= k < |orders|
      ensures Sum(Records(g, start, orders, n, offset)[k], Itself())
           >= start[g.all] - start[[]] - (Repeat(k, AtLeastZero(g.eps)) + AtLeastZero(g.eps))
    {
      RecordAtLeast(g, start, orders, k, n, offset);
    }
  }

  /** For a sorted list without gaps, the values of a round add up to at least the gain in accuracy, less half a
      threshold for every ordering and one more: the estimate is efficient up to truncation. */
  lemma AveragesKeepGain(clients: seq<Id>, last: real, aggregated: real, eps: real, validate: Key -> real,
                         orders: seq<seq<Id>>)
    requires ClientList(clients) && Increasing(clients) && Contiguous(clients) && clients != []
    requires orders != [] && forall p | p in orders :: IsOrdering(p, clients)
    ensures AllFit(orders, |clients|, Offset(clients))
    ensures Sum(Averages(RoundRecords(clients, last, aggregated, eps, validate, orders), |clients|), Itself())
         >= aggregated - last - Thresholds(|orders| + 1, eps) / 2.0
  {
    ThresholdsRepeat(|orders| + 1, eps);
    OrdersFit(clients, orders);
    RecordsKeepGain(Game(clients, eps, validate), StartUtil(clients, last, aggregated), orders, |clients|, Offset(clients));
    AveragesAtLeast(RoundRecords(clients, last, aggregated, eps, validate, orders), |clients|, aggregated - last,
                    AtLeastZero(eps));
  }

  // What is taken of one ordering.

  function PrefixWorth(u: Utility, clients: seq<Id>, order: seq<Id>, i: nat): real
    requires i <= |order|
  {
    Worth(u, clients, Elems(order[..i]))
  }

  /** The first prefix that is about as good as all clients, or the whole ordering if none is. */
  ghost predicate StopsAt(u: Utility, clients: seq<Id>, eps: real, order: seq<Id>, k: nat) {
    && k <= |order| && clients in u
    && (forall i | 0 <= i < k ::
          u[clients] - PrefixWorth(u, clients, order, i) >= eps || PrefixWorth(u, clients, order, i) - u[clients] >= eps)
    && (k < |order| ==>
          u[clients] - PrefixWorth(u, clients, order, k) < eps && PrefixWorth(u, clients, order, k) - u[clients] < eps)
  }

  lemma StopExists(u: Utility, clients: seq<Id>, eps: real, order: seq<Id>) returns (k: nat)
    requires clients in u
    ensures StopsAt(u, clients, eps, order, k)
  {
    k := 0;
    while k < |order| && Gap(u[clients], PrefixWorth(u, clients, order, k)) >= eps
      invariant k <= |order|
      invariant forall i | 0 <= i < k ::
          u[clients] - PrefixWorth(u, clients, order, i) >= eps || PrefixWorth(u, clients, order, i) - u[clients] >= eps
    {
      k := k + 1;
    }
  }

  /** The prefix whose worth is taken for the one of length `i`, with a stop at `k`. */
  function Until(i: nat, k: nat): nat {
    if i <= k then i else k
  }

  /** What truncation leaves out of the ordering is worth nothing: from the stop on, all prefixes are worth the same. */
  ghost predicate Harmless(u: Utility, clients: seq<Id>, eps: real, order: seq<Id>) {
    forall k: nat, i: nat | StopsAt(u, clients, eps, order, k) && k <= i <= |order| ::
      PrefixWorth(u, clients, order, i) == PrefixWorth(u, clients, order, k)
  }

  /** The setting of the lemmas below; its facts are only there for a proof that uses them. */
  ghost predicate Setting(g: Game, u: Utility) {
    forall b {:trigger Use(b)} | Use(b) :: Increasing(g.all) && IsUtility(u, g.all)
  }

  /** Everything in the cache is right, and the rest would be measured right. */
  ghost predicate Faithful(g: Game, u: Utility, util: Utility) {
    && Known(g, util)
    && (forall key | key in util :: key in u && util[key] == u[key])
    && (forall key | key in u && key !in util :: u[key] == g.validate(key))
  }

  lemma KeyWorth(g: Game, u: Utility, order: seq<Id>, j: nat)
    requires Setting(g, u) && IsOrdering(order, g.all) && j <= |order|
    ensures PrefixKey(order, j) in u && u[PrefixKey(order, j)] == PrefixWorth(u, g.all, order, j)
    ensures |PrefixKey(order, j)| == j && g.all in u && [] in u && PrefixWorth(u, g.all, order, 0) == u[[]]
  {
    assert Use(true);
    PrefixKeyIs(g.all, order, j);
    WorthOfKey(u, g.all, Elems(order[..j]));
    SortKeyKeeps(order[..j]);
    EndWorths(u, g.all);
    assert Elems(order[..0]) == {};
  }

  /** The scan writes the utilities it takes under the keys of their prefixes, and nothing else. */
  lemma {:induction false} CacheOfScan(g: Game, util: Utility, order: seq<Id>, j: nat, key: Key)
    requires Known(g, util) && j <= |order| && key in ScanTo(g, util, order, j).util
    ensures || (key in util && ScanTo(g, util, order, j).util[key] == util[key])
            || exists i :: 0 < i <= j && key == PrefixKey(order, i)
                           && ScanTo(g, util, order, j).util[key] == ScanTo(g, util, order, j).v[i]
  {
    if j > 0 {
      var s, t := ScanTo(g, util, order, j - 1), ScanTo(g, util, order, j);
      NextScan(g, util, order, j);
      if key == PrefixKey(order, j) {
        assert t.util[key] == t.v[j];
      } else {
        CacheOfScan(g, util, order, j - 1, key);
        if !(key in util && s.util[key] == util[key]) {
          var i :| 0 < i <= j - 1 && key == PrefixKey(order, i) && s.util[key] == s.v[i];
          assert t.v[i] == s.v[i];
        }
      }
    }
  }

  /** And all of them are there. */
  lemma {:induction false} CacheHolds(g: Game, util: Utility, order: seq<Id>, j: nat, i: nat)
    requires Known(g, util) && 0 < i <= j <= |order|
    ensures var s := ScanTo(g, util, order, j);
      PrefixKey(order, i) in s.util && s.util[PrefixKey(order, i)] == s.v[i]
  {
    NextScan(g, util, order, j);
    if i < j {
      CacheHolds(g, util, order, j - 1, i);
      SortKeyKeeps(order[..i]);
      SortKeyKeeps(order[..j]);
      assert |PrefixKey(order, i)| == i && |PrefixKey(order, j)| == j;
    }
  }

  lemma {:induction false} LongerKept(g: Game, util: Utility, order: seq<Id>, j: nat, key: Key)
    requires Known(g, util) && j <= |order| && j < |key|
    ensures key in ScanTo(g, util, order, j).util <==> key in util
    ensures key in util ==> ScanTo(g, util, order, j).util[key] == util[key]
  {
    if j > 0 {
      LongerKept(g, util, order, j - 1, key);
      SortKeyKeeps(order[..j]);
    }
  }

  /** The utilities taken of an ordering, from a cache that is right: exact up to the stop, and then that of the stop. */
  lemma {:induction false} ScanUntilStop(g: Game, u: Utility, util: Utility, order: seq<Id>, k: nat, j: nat)
    requires Setting(g, u) && IsOrdering(order, g.all) && Faithful(g, u, util)
    requires StopsAt(u, g.all, g.eps, order, k) && j <= |order|
    ensures forall i | 0 <= i <= j ::
              ScanTo(g, util, order, j).v[i] == PrefixWorth(u, g.all, order, Until(i, k))
  {
    if j == 0 {
      KeyWorth(g, u, order, 0);
    } else {
      ScanUntilStop(g, u, util, order, k, j - 1);
      NextScan(g, util, order, j);
      StepUntilStop(g, u, util, order, k, j);
    }
  }

  lemma StepUntilStop(g: Game, u: Utility, util: Utility, order: seq<Id>, k: nat, j: nat)
    requires Setting(g, u) && IsOrdering(order, g.all) && Faithful(g, u, util)
    requires StopsAt(u, g.all, g.eps, order, k) && 0 < j <= |order|
    ensures var before := PrefixWorth(u, g.all, order, Until(j - 1, k));
      Taken(g, ScanTo(g, util, order, j - 1).util, PrefixKey(order, j), before)
      == PrefixWorth(u, g.all, order, Until(j, k))
  {
    KeyWorth(g, u, order, j);
    LongerIsRight(g, u, util, order, j - 1, PrefixKey(order, j));
    StepFromCache(g, u, util, order, k, j);
  }

  lemma StepFromCache(g: Game, u: Utility, util: Utility, order: seq<Id>, k: nat, j: nat)
    requires Faithful(g, u, util) && |order| == |g.all| && StopsAt(u, g.all, g.eps, order, k) && 0 < j <= |order|
    requires IsRight(g, u, ScanTo(g, util, order, j - 1).util, PrefixKey(order, j))
    requires u[PrefixKey(order, j)] == PrefixWorth(u, g.all, order, j)
    ensures var before := PrefixWorth(u, g.all, order, Until(j - 1, k));
      Taken(g, ScanTo(g, util, order, j - 1).util, PrefixKey(order, j), before)
      == PrefixWorth(u, g.all, order, Until(j, k))
  {
    FullEntryKept(g, util, order, j - 1);
    TakenUntilStop(g, u, ScanTo(g, util, order, j - 1).util, order, k, j);
  }

  /** The utility that is cached or would be measured is the exact one. */
  predicate IsRight(g: Game, u: Utility, util: Utility, key: Key) {
    key in u && u[key] == if key in util then util[key] else g.validate(key)
  }

  /** What a step reads of the cache has not been written by the scan. */
  lemma LongerIsRight(g: Game, u: Utility, util: Utility, order: seq<Id>, j: nat, key: Key)
    requires Faithful(g, u, util) && j <= |order| && j < |key| && key in u
    ensures IsRight(g, u, ScanTo(g, util, order, j).util, key)
  {
    LongerKept(g, util, order, j, key);
  }

  lemma TakenUntilStop(g: Game, u: Utility, util: Utility, order: seq<Id>, k: nat, j: nat)
    requires Known(g, util) && StopsAt(u, g.all, g.eps, order, k) && 0 < j <= |order|
    requires util[g.all] == u[g.all] && IsRight(g, u, util, PrefixKey(order, j))
    requires u[PrefixKey(order, j)] == PrefixWorth(u, g.all, order, j)
    ensures var before := PrefixWorth(u, g.all, order, Until(j - 1, k));
      Taken(g, util, PrefixKey(order, j), before) == PrefixWorth(u, g.all, order, Until(j, k))
  {
  }

  /** All utilities taken of the ordering are exact. */
  ghost predicate TakesExact(g: Game, u: Utility, util: Utility, order: seq<Id>)
    requires Known(g, util)
  {
    forall i | 0 <= i <= |order| :: Scanned(g, util, order).v[i] == PrefixWorth(u, g.all, order, i)
  }

  /** They are exactly when the truncation is harmless. */
  lemma ScanIsExact(g: Game, u: Utility, util: Utility, order: seq<Id>)
    requires Setting(g, u) && IsOrdering(order, g.all) && Faithful(g, u, util)
    ensures TakesExact(g, u, util, order) <==> Harmless(u, g.all, g.eps, order)
    ensures Harmless(u, g.all, g.eps, order) ==> Faithful(g, u, Scanned(g, util, order).util)
  {
    KeyWorth(g, u, order, 0);
    var stop := StopExists(u, g.all, g.eps, order);
    forall k | StopsAt(u, g.all, g.eps, order, k)
      ensures forall i | 0 <= i <= |order| ::
                Scanned(g, util, order).v[i] == PrefixWorth(u, g.all, order, Until(i, k))
    {
      ScanUntilStop(g, u, util, order, k, |order|);
    }
    if Harmless(u, g.all, g.eps, order) {
      CacheStaysRight(g, u, util, order);
    }
  }

  lemma CacheStaysRight(g: Game, u: Utility, util: Utility, order: seq<Id>)
    requires Setting(g, u) && IsOrdering(order, g.all) && Faithful(g, u, util)
    requires TakesExact(g, u, util, order)
    ensures Faithful(g, u, Scanned(g, util, order).util)
  {
    var s := Scanned(g, util, order);
    forall key | key in s.util ensures key in u && s.util[key] == u[key] {
      CacheOfScan(g, util, order, |order|, key);
      if !(key in util && s.util[key] == util[key]) {
        var i :| 0 < i <= |order| && key == PrefixKey(order, i) && s.util[key] == s.v[i];
        KeyWorth(g, u, order, i);
      }
    }
    forall key | key in util ensures key in s.util {
      ScanKeeps(g, util, order, |order|, key);
    }
  }

  lemma {:induction false} ScanKeeps(g: Game, util: Utility, order: seq<Id>, j: nat, key: Key)
    requires Known(g, util) && j <= |order| && key in util
    ensures key in ScanTo(g, util, order, j).util
  {
    if j > 0 {
      ScanKeeps(g, util, order, j - 1, key);
    }
  }

  ghost predicate ExactAt(g: Game, u: Utility, util: Utility, orders: seq<seq<Id>>, m: nat)
    requires Known(g, util) && m < |orders|
  {
    TakesExact(g, u, UtilAfter(g, util, orders, m), orders[m])
  }

  /** All utilities taken of the first `k` orderings are exact. */
  ghost predicate AllExact(g: Game, u: Utility, util: Utility, orders: seq<seq<Id>>, k: nat)
    requires Known(g, util) && k <= |orders|
  {
    forall m | 0 <= m < k :: ExactAt(g, u, util, orders, m)
  }

  ghost predicate AllHarmless(u: Utility, clients: seq<Id>, eps: real, orders: seq<seq<Id>>, k: nat)
    requires k <= |orders|
  {
    forall m | 0 <= m < k :: Harmless(u, clients, eps, orders[m])
  }

  lemma OneMoreOrder(g: Game, u: Utility, util: Utility, orders: seq<seq<Id>>, k: nat)
    requires Known(g, util) && k < |orders|
    ensures AllExact(g, u, util, orders, k + 1)
            <==> AllExact(g, u, util, orders, k) && ExactAt(g, u, util, orders, k)
    ensures AllHarmless(u, g.all, g.eps, orders, k + 1)
            <==> AllHarmless(u, g.all, g.eps, orders, k) && Harmless(u, g.all, g.eps, orders[k])
  {
  }

  lemma {:induction false} UtilStaysFaithful(g: Game, u: Utility, util: Utility, orders: seq<seq<Id>>, k: nat)
    requires Setting(g, u) && Faithful(g, u, util) && k <= |orders|
    requires forall m | 0 <= m < k :: IsOrdering(orders[m], g.all)
    requires AllHarmless(u, g.all, g.eps, orders, k)
    ensures Faithful(g, u, UtilAfter(g, util, orders, k))
  {
    if k > 0 {
      UtilStaysFaithful(g, u, util, orders, k - 1);
      ScanIsExact(g, u, UtilAfter(g, util, orders, k - 1), orders[k - 1]);
    }
  }

  lemma LastIsExact(g: Game, u: Utility, util: Utility, orders: seq<seq<Id>>, k: nat)
    requires Setting(g, u) && Faithful(g, u, util) && k < |orders|
    requires forall m | 0 <= m <= k :: IsOrdering(orders[m], g.all)
    requires AllHarmless(u, g.all, g.eps, orders, k)
    ensures ExactAt(g, u, util, orders, k) <==> Harmless(u, g.all, g.eps, orders[k])
  {
    UtilStaysFaithful(g, u, util, orders, k);
    ScanIsExact(g, u, UtilAfter(g, util, orders, k), orders[k]);
  }

  /** Over any number of orderings, they are exactly when truncation is harmless in each. */
  lemma {:induction false} OrdersAreExact(g: Game, u: Utility, util: Utility, orders: seq<seq<Id>>, k: nat)
    requires Setting(g, u) && Faithful(g, u, util) && k <= |orders|
    requires forall m | 0 <= m < k :: IsOrdering(orders[m], g.all)
    ensures AllExact(g, u, util, orders, k) <==> AllHarmless(u, g.all, g.eps, orders, k)
  {
    if k > 0 {
      OrdersAreExact(g, u, util, orders, k - 1);
      OneMoreOrder(g, u, util, orders, k - 1);
      if AllHarmless(u, g.all, g.eps, orders, k - 1) {
        LastIsExact(g, u, util, orders, k - 1);
      }
    }
  }

  lemma {:induction false} MarginalAt(p: seq<Id>, k: nat, joined: set<Id>, h: set<Id> -> real)
    requires Distinct(p) && k < |p|
    ensures Marginal(p[k], joined, p, h) == h(joined + Elems(p[..k]))
  {
    if k == 0 {
      assert joined + Elems(p[..0]) == joined;
    } else {
      MarginalAt(p[1..], k - 1, joined + {p[0]}, h);
      assert p[..k] == [p[0]] + p[1..][..k - 1];
      assert joined + Elems(p[..k]) == joined + {p[0]} + Elems(p[1..][..k - 1]);
    }
  }

  lemma MarginalIs(u: Utility, clients: seq<Id>, order: seq<Id>, k: nat)
    requires Distinct(order) && k < |order|
    ensures Marginal(order[k], {}, order, Gain(u, clients, order[k]))
         == var before, after := PrefixWorth(u, clients, order, k), PrefixWorth(u, clients, order, k + 1);
            if after > before then after - before else 0.0
  {
    var before, after := Elems(order[..k]), Elems(order[..k + 1]);
    NextElems(order, k);
    MarginalAt(order, k, {}, Gain(u, clients, order[k]));
    NoneAdded(before);
    GainIs(u, clients, order[k], before, after);
  }

  lemma NextElems(order: seq<Id>, k: nat)
    requires k < |order|
    ensures Elems(order[..k + 1]) == Elems(order[..k]) + {order[k]}
  {
  }

  lemma RecordedIs(g: Game, util: Utility, order: seq<Id>, n: nat, offset: Id)
    requires Known(g, util) && Fits(order, n, offset)
    ensures Recorded(g, util, order, n, offset)
         == RecordOf(order, ScanTo(g, util, order, |order|).v, n, offset, |order|)
  {
  }

  /** A record, from a cache that is right: a client before the stop gets what it adds to those before it, and a client
      after it nothing. */
  lemma RecordUntilStop(g: Game, u: Utility, util: Utility, order: seq<Id>, n: nat, offset: Id, k: nat, at: nat)
    requires Setting(g, u) && IsOrdering(order, g.all) && Faithful(g, u, util)
    requires StopsAt(u, g.all, g.eps, order, k) && Fits(order, n, offset) && at < |order|
    ensures Recorded(g, util, order, n, offset)[order[at] - offset]
         == var before, after := PrefixWorth(u, g.all, order, at), PrefixWorth(u, g.all, order, at + 1);
            if at < k && after > before then after - before else 0.0
  {
    ScanUntilStop(g, u, util, order, k, |order|);
    RecordedIs(g, util, order, n, offset);
    EntryUntilStop(u, g.all, order, ScanTo(g, util, order, |order|).v, n, offset, k, at);
  }

  lemma EntryUntilStop(u: Utility, clients: seq<Id>, order: seq<Id>, v: seq<real>, n: nat, offset: Id, k: nat, at: nat)
    requires Distinct(order) && Fits(order, n, offset) && |v| == |order| + 1 && at < |order| && k <= |order|
    requires v[at] == PrefixWorth(u, clients, order, Until(at, k))
    requires v[at + 1] == PrefixWorth(u, clients, order, Until(at + 1, k))
    ensures RecordOf(order, v, n, offset, |order|)[order[at] - offset]
         == var before, after := PrefixWorth(u, clients, order, at), PrefixWorth(u, clients, order, at + 1);
            if at < k && after > before then after - before else 0.0
  {
    RecordEntries(order, v, n, offset, |order|);
  }

  /** When the truncation is harmless, every client gets what it adds. */
  lemma RecordIsMarginals(g: Game, u: Utility, util: Utility, order: seq<Id>, n: nat, offset: Id, at: nat)
    requires Setting(g, u) && IsOrdering(order, g.all) && Faithful(g, u, util)
    requires Harmless(u, g.all, g.eps, order) && Fits(order, n, offset) && at < |order|
    ensures Recorded(g, util, order, n, offset)[order[at] - offset]
         == Marginal(order[at], {}, order, Gain(u, g.all, order[at]))
  {
    KeyWorth(g, u, order, 0);
    var k := StopExists(u, g.all, g.eps, order);
    RecordUntilStop(g, u, util, order, n, offset, k, at);
    MarginalIs(u, g.all, order, at);
    if k <= at {
      assert PrefixWorth(u, g.all, order, at) == PrefixWorth(u, g.all, order, at + 1);
    }
  }

  lemma StartIsExact(clients: seq<Id>, last: real, aggregated: real, eps: real, validate: Key -> real)
    requires Increasing(clients) && clients != []
    ensures Setting(Game(clients, eps, validate), RoundUtility(clients, last, aggregated, validate))
    ensures Faithful(Game(clients, eps, validate), RoundUtility(clients, last, aggregated, validate),
                     StartUtil(clients, last, aggregated))
  {
    PowerSetEnds(clients);
    RoundUtilityIsUtility(clients, last, aggregated, validate);
  }

  /** In a round, for a sorted list: all utilities taken are exact exactly when truncation is harmless in each ordering. */
  lemma RoundIsExact(clients: seq<Id>, last: real, aggregated: real, eps: real, validate: Key -> real,
                     orders: seq<seq<Id>>)
    requires Increasing(clients) && clients != [] && forall p | p in orders :: IsOrdering(p, clients)
    ensures AllExact(Game(clients, eps, validate), RoundUtility(clients, last, aggregated, validate),
                     StartUtil(clients, last, aggregated), orders, |orders|)
            <==> forall p | p in orders :: Harmless(RoundUtility(clients, last, aggregated, validate), clients, eps, p)
  {
    StartIsExact(clients, last, aggregated, eps, validate);
    OrdersAreExact(Game(clients, eps, validate), RoundUtility(clients, last, aggregated, validate),
                   StartUtil(clients, last, aggregated), orders, |orders|);
  }

  /** No proper subset is as good as all clients, up to the threshold. */
  ghost predicate Separated(u: Utility, clients: seq<Id>, eps: real) {
    clients in u && forall key | key in u && key != clients :: Gap(u[clients], u[key]) >= eps
  }

  /** Then nothing is truncated. */
  lemma SeparatedIsHarmless(g: Game, u: Utility, order: seq<Id>)
    requires Setting(g, u) && IsOrdering(order, g.all) && Separated(u, g.all, g.eps)
    ensures Harmless(u, g.all, g.eps, order)
  {
    forall k: nat | StopsAt(u, g.all, g.eps, order, k) ensures k == |order| {
      KeyWorth(g, u, order, k);
    }
  }

  lemma {:induction false} SumAligned<S, T>(a: seq<S>, b: seq<T>, f: S -> real, g: T -> real)
    requires |a| == |b| && forall k | 0 <= k < |a| :: f(a[k]) == g(b[k])
    ensures Sum(a, f) == Sum(b, g)
  {
    if a != [] {
      SumAligned(a[..|a| - 1], b[..|b| - 1], f, g);
    }
  }

  lemma EntryIsMarginal(g: Game, u: Utility, util: Utility, order: seq<Id>, n: nat, offset: Id, i: nat)
    requires Setting(g, u) && IsOrdering(order, g.all) && Harmless(u, g.all, g.eps, order)
    requires Faithful(g, u, util) && Fits(order, n, offset) && i < |g.all| && g.all[i] - offset == i
    ensures Entry(i)(Recorded(g, util, order, n, offset)) == MarginalIn(g.all[i], {}, Gain(u, g.all, g.all[i]))(order)
  {
    var at := PositionIn(order, g.all, i);
    RecordIsMarginals(g, u, util, order, n, offset, at);
    EntryIs(Recorded(g, util, order, n, offset), i);
    MarginalInIs(g.all[i], order, Gain(u, g.all, g.all[i]));
  }

  lemma EntryIs(record: seq<real>, i: nat)
    requires i < |record|
    ensures Entry(i)(record) == record[i]
  {
  }

  lemma MarginalInIs(id: Id, order: seq<Id>, h: set<Id> -> real)
    ensures MarginalIn(id, {}, h)(order) == Marginal(id, {}, order, h)
  {
  }

  lemma PositionIn(order: seq<Id>, clients: seq<Id>, i: nat) returns (at: nat)
    requires IsOrdering(order, clients) && i < |clients|
    ensures at < |order| && order[at] == clients[i]
  {
    assert clients[i] in Elems(clients) && clients[i] in order;
    at :| at < |order| && order[at] == clients[i];
  }

  lemma RecordsAreMarginals(g: Game, u: Utility, start: Utility, orders: seq<seq<Id>>, n: nat, offset: Id, i: nat)
    requires Setting(g, u) && Faithful(g, u, start) && i < |g.all| && g.all[i] - offset == i
    requires AllFit(orders, n, offset)
    requires forall p | p in orders :: IsOrdering(p, g.all) && Harmless(u, g.all, g.eps, p)
    ensures Sum(Records(g, start, orders, n, offset), Entry(i))
         == Sum(orders, MarginalIn(g.all[i], {}, Gain(u, g.all, g.all[i])))
  {
    var records, marginal := Records(g, start, orders, n, offset), MarginalIn(g.all[i], {}, Gain(u, g.all, g.all[i]));
    forall k | 0 <= k < |orders| ensures Entry(i)(records[k]) == marginal(orders[k]) {
      UtilStaysFaithful(g, u, start, orders, k);
      NthRecord(g, start, orders, k, n, offset);
      EntryIsMarginal(g, u, UtilAfter(g, start, orders, k), orders[k], n, offset, i);
    }
    SumAligned(records, orders, Entry(i), marginal);
  }

  function RoundGain(clients: seq<Id>, last: real, aggregated: real, validate: Key -> real, id: Id): set<Id> -> real {
    Gain(RoundUtility(clients, last, aggregated, validate), clients, id)
  }

  /** For a sorted list without gaps, when truncation is harmless: the value of a client is the average, over the orderings
      that were taken, of what it adds to those before it. */
  lemma AverageIsExact(clients: seq<Id>, last: real, aggregated: real, eps: real, validate: Key -> real,
                       orders: seq<seq<Id>>, i: nat)
    requires ClientList(clients) && Increasing(clients) && Contiguous(clients) && i < |clients|
    requires orders != [] && forall p | p in orders :: IsOrdering(p, clients)
    requires forall p | p in orders :: Harmless(RoundUtility(clients, last, aggregated, validate), clients, eps, p)
    ensures AllFit(orders, |clients|, Offset(clients))
    ensures Average(RoundRecords(clients, last, aggregated, eps, validate, orders))(i)
         == Sum(orders, MarginalIn(clients[i], {}, RoundGain(clients, last, aggregated, validate, clients[i])))
            / |orders| as real
  {
    OrdersFit(clients, orders);
    StartIsExact(clients, last, aggregated, eps, validate);
    StoredAtOwnIndex(clients);
    RecordsAreMarginals(Game(clients, eps, validate), RoundUtility(clients, last, aggregated, validate),
                        StartUtil(clients, last, aggregated), orders, |clients|, Offset(clients), i);
  }

  lemma AllOrderingsSum(clients: seq<Id>, orders: seq<seq<Id>>, f: seq<Id> -> real)
    requires Distinct(clients) && Distinct(orders) && forall p :: p in orders <==> IsOrdering(p, clients)
    ensures Sum(orders, f) == Sum(Orderings(clients), f) && |orders| == |Orderings(clients)|
  {
    OrderingsDistinct(clients);
    forall p ensures p in orders <==> p in Orderings(clients) {
      OrderingsAreAll(clients, p);
    }
    SumOverMembers(orders, Orderings(clients), f);
    CountElems(orders);
    CountElems(Orderings(clients));
    assert Elems(orders) == Elems(Orderings(clients));
  }

  lemma RoundValueIsAverage(clients: seq<Id>, last: real, aggregated: real, validate: Key -> real, i: nat)
    requires Distinct(clients) && i < |clients|
    ensures |Orderings(clients)| > 0
    ensures Value(RoundUtility(clients, last, aggregated, validate), clients, clients[i])
         == Sum(Orderings(clients), MarginalIn(clients[i], {}, RoundGain(clients, last, aggregated, validate, clients[i])))
            / |Orderings(clients)| as real
  {
    RoundUtilityIsUtility(clients, last, aggregated, validate);
    AverageOfGains(RoundUtility(clients, last, aggregated, validate), clients, clients[i]);
  }

  /** When every ordering is taken once, the estimate is the exact Shapley value. */
  lemma AllOrderingsAreExact(clients: seq<Id>, last: real, aggregated: real, eps: real, validate: Key -> real,
                             orders: seq<seq<Id>>, i: nat)
    requires ClientList(clients) && Increasing(clients) && Contiguous(clients) && i < |clients|
    requires Distinct(orders) && forall p :: p in orders <==> IsOrdering(p, clients)
    requires forall p | p in orders :: Harmless(RoundUtility(clients, last, aggregated, validate), clients, eps, p)
    ensures AllFit(orders, |clients|, Offset(clients))
    ensures Average(RoundRecords(clients, last, aggregated, eps, validate, orders))(i)
         == Value(RoundUtility(clients, last, aggregated, validate), clients, clients[i])
  {
    assert IsOrdering(clients, clients);
    assert clients in orders;
    AverageIsExact(clients, last, aggregated, eps, validate, orders, i);
    RoundValueIsAverage(clients, last, aggregated, validate, i);
    AllOrderingsSum(clients, orders, MarginalIn(clients[i], {}, RoundGain(clients, last, aggregated, validate, clients[i])));
  }
}
