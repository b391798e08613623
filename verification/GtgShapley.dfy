/**
 Shapley values estimated from given orderings of the clients, with a cache of utilities and with
 truncation: once a prefix is about as good as all clients together, the others add nothing. The
 entry of all clients can be overwritten by such a prefix, and drifts.
 */
module GtgShapley {
  import opened Combinatorics
  import opened ShapleyValue
  import opened ShapleyRounds

  // Sorted tuples as keys.

  function Insert(x: Id, s: seq<Id>): seq<Id> {
    if s == [] || x <= s[0] then [x] + s else [s[0]] + Insert(x, s[1..])
  }

  function SortKey(s: seq<Id>): Key {
    if s == [] then [] else Insert(s[|s| - 1], SortKey(s[..|s| - 1]))
  }

  predicate Increasing(s: seq<Id>) {
    forall i, j | 0 <= i < j < |s| :: s[i] < s[j]
  }

  lemma IncreasingCons(x: Id, s: seq<Id>)
    requires Increasing(s) && forall y | y in s :: x < y
    ensures Increasing([x] + s)
  {
    var t := [x] + s;
    forall i, j | 0 <= i < j < |t| ensures t[i] < t[j] {
      assert t[j] == s[j - 1] && t[j] in s && (i > 0 ==> t[i] == s[i - 1]);
    }
  }

  lemma IncreasingSnoc(s: seq<Id>, x: Id)
    requires Increasing(s) && forall y | y in s :: y < x
    ensures Increasing(s + [x])
  {
    var t := s + [x];
    forall i, j | 0 <= i < j < |t| ensures t[i] < t[j] {
      assert t[i] == s[i] && t[i] in s;
    }
  }

  lemma ElemsCons(x: Id, s: seq<Id>)
    ensures Elems([x] + s) == {x} + Elems(s)
  {
  }

  lemma TailIncreases(s: seq<Id>)
    requires Increasing(s) && s != []
    ensures Increasing(s[1..]) && forall y | y in s[1..] :: s[0] < y
  {
  }

  lemma {:induction false} InsertKeeps(x: Id, s: seq<Id>)
    ensures |Insert(x, s)| == |s| + 1 && Elems(Insert(x, s)) == Elems(s) + {x}
    ensures Increasing(s) && x !in s ==> Increasing(Insert(x, s))
  {
    if s != [] && x > s[0] {
      InsertKeeps(x, s[1..]);
      var rest := Insert(x, s[1..]);
      ElemsCons(s[0], s[1..]);
      ElemsCons(s[0], rest);
      assert s == [s[0]] + s[1..];
      if Increasing(s) && x !in s {
        TailIncreases(s);
        forall y | y in rest ensures s[0] < y {
          assert y in Elems(rest);
        }
        IncreasingCons(s[0], rest);
      }
    } else {
      ElemsCons(x, s);
      if Increasing(s) && x !in s {
        assert s != [] ==> s[0] in s;
        IncreasingCons(x, s);
      }
    }
  }

  lemma {:induction false} SortKeyKeeps(s: seq<Id>)
    ensures |SortKey(s)| == |s| && Elems(SortKey(s)) == Elems(s)
    ensures Distinct(s) ==> Increasing(SortKey(s))
  {
    if s != [] {
      var front, last := s[..|s| - 1], s[|s| - 1];
      SortKeyKeeps(front);
      InsertKeeps(last, SortKey(front));
      assert s == front + [last];
      if Distinct(s) {
        assert last !in Elems(front);
      }
    }
  }

  lemma {:induction false} IncreasingIsUnique(a: seq<Id>, b: seq<Id>)
    requires Increasing(a) && Increasing(b) && forall x :: x in a <==> x in b
    ensures a == b
  {
    assert a != [] ==> a[0] in a && a[0] in b;
    assert b != [] ==> b[0] in b && b[0] in a;
    if a != [] && b != [] {
      assert a[0] == b[0];
      forall x ensures x in a[1..] <==> x in b[1..] {
        TailMembers(a, x);
        TailMembers(b, x);
      }
      IncreasingIsUnique(a[1..], b[1..]);
      assert a == [a[0]] + a[1..] && b == [b[0]] + b[1..];
    }
  }

  lemma TailMembers(s: seq<Id>, x: Id)
    requires Increasing(s) && s != []
    ensures x in s[1..] <==> x in s && x != s[0]
  {
  }

  lemma {:induction false} RestrictIncreases(s: seq<Id>, members: set<Id>)
    requires Increasing(s)
    ensures Increasing(Restrict(s, members))
  {
    if s != [] {
      var front, last := s[..|s| - 1], s[|s| - 1];
      RestrictIncreases(front, members);
      var r := Restrict(front, members);
      forall x | x in r ensures x < last {
        assert x in front;
      }
      IncreasingSnoc(r, last);
    }
  }

  function PrefixKey(order: seq<Id>, j: nat): Key
    requires j <= |order|
  {
    SortKey(order[..j])
  }

  /** For a sorted client list, the key of a prefix is the tuple of its clients in list order. */
  lemma PrefixKeyIs(clients: seq<Id>, order: seq<Id>, j: nat)
    requires Increasing(clients) && IsOrdering(order, clients) && j <= |order|
    ensures PrefixKey(order, j) == Restrict(clients, Elems(order[..j]))
    ensures j == |order| ==> PrefixKey(order, j) == clients
  {
    var prefix := order[..j];
    SortKeyKeeps(prefix);
    RestrictIncreases(clients, Elems(prefix));
    var a, b := SortKey(prefix), Restrict(clients, Elems(prefix));
    forall x ensures x in a <==> x in b {
      assert x in a <==> x in Elems(a);
      assert x in prefix ==> x in order && x in Elems(order);
      assert x in Elems(clients) <==> x in clients;
    }
    IncreasingIsUnique(a, b);
    if j == |order| {
      assert prefix == order;
      forall x | x in clients ensures x in Elems(prefix) {
        assert x in Elems(clients);
      }
      RestrictAll(clients, Elems(prefix));
    }
  }

  // One ordering.

  datatype Game = Game(all: Key, eps: real, validate: Key -> real)

  predicate Known(g: Game, util: Utility) {
    [] in util && g.all in util
  }

  /** The distance of two numbers. */
  function Gap(a: real, b: real): (r: real)
    ensures r >= a - b && r >= b - a && (r == a - b || r == b - a)
  {
    if a < b then b - a else a - b
  }

  /** The utility taken for a prefix, when the prefix before it has utility `before`. */
  function Taken(g: Game, util: Utility, key: Key, before: real): real
    requires Known(g, util)
  {
    if Gap(util[g.all], before) >= g.eps then (if key in util then util[key] else g.validate(key)) else before
  }

  datatype Prefixes = Prefixes(util: Utility, v: seq<real>)

  /** The cache and the utilities of the prefixes after the first `j` clients of an ordering. */
  function ScanTo(g: Game, util: Utility, order: seq<Id>, j: nat): (s: Prefixes)
    requires Known(g, util) && j <= |order|
    ensures Known(g, s.util) && |s.v| == j + 1
  {
    if j == 0 then Prefixes(util, [util[[]]]) else
    var s := ScanTo(g, util, order, j - 1);
    var key := PrefixKey(order, j);
    var x := Taken(g, s.util, key, s.v[j - 1]);
    Prefixes(s.util[key := x], s.v + [x])
  }

  function Zeros(n: nat): seq<real> {
    seq(n, i => 0.0)
  }

  predicate Fits(order: seq<Id>, n: nat, offset: Id) {
    forall k | 0 <= k < |order| :: 0 <= order[k] - offset < n
  }

  /** The record of an ordering after its first `j` clients: what each added, at its index. */
  function RecordOf(order: seq<Id>, v: seq<real>, n: nat, offset: Id, j: nat): (r: seq<real>)
    requires j <= |order| && j < |v| && Fits(order, n, offset)
    ensures |r| == n
  {
    if j == 0 then Zeros(n) else
    RecordOf(order, v, n, offset, j - 1)[order[j - 1] - offset := AtLeastZero(v[j] - v[j - 1])]
  }

  lemma {:induction false} RecordOfPrefix(order: seq<Id>, v: seq<real>, w: seq<real>, n: nat, offset: Id, j: nat)
    requires j <= |order| && j < |v| <= |w| && v == w[..|v|] && Fits(order, n, offset)
    ensures RecordOf(order, v, n, offset, j) == RecordOf(order, w, n, offset, j)
  {
    if j > 0 {
      RecordOfPrefix(order, v, w, n, offset, j - 1);
    }
  }

  function Scanned(g: Game, util: Utility, order: seq<Id>): Prefixes
    requires Known(g, util)
  {
    ScanTo(g, util, order, |order|)
  }

  function Recorded(g: Game, util: Utility, order: seq<Id>, n: nat, offset: Id): seq<real>
    requires Known(g, util) && Fits(order, n, offset)
  {
    RecordOf(order, Scanned(g, util, order).v, n, offset, |order|)
  }

  /** The utility of a prefix, if it is not truncated, from the cache or measured. */
  method TakeUtility(g: Game, util: Utility, key: Key, before: real) returns (x: real)
    requires Known(g, util)
    ensures x == Taken(g, util, key, before)
  {
    if Gap(util[g.all], before) >= g.eps {
      if key in util {
        x := util[key];
      } else {
        x := g.validate(key);
      }
    } else {
      x := before;
    }
  }

  /** The loop over one ordering; fails at a client whose index lies outside the record. */
  method ScanOrder(g: Game, known: Utility, order: seq<Id>, n: nat, offset: Id)
    returns (ok: bool, util: Utility, record: seq<real>)
    requires Known(g, known) && forall k | 0 <= k < |order| :: order[k] >= offset
    ensures ok <==> Fits(order, n, offset)
    ensures ok ==> util == Scanned(g, known, order).util && record == Recorded(g, known, order, n, offset)
  {
    util, record := known, Zeros(n);
    var v := [util[[]]];
    for j := 1 to |order| + 1
      invariant Prefixes(util, v) == ScanTo(g, known, order, j - 1)
      invariant Fits(order[..j - 1], n, offset) && |record| == n
      invariant Fits(order, n, offset) ==> record == RecordOf(order, v, n, offset, j - 1)
    {
      ghost var taken, before := util, v;
      var key := SortKey(order[..j]);
      var x := TakeUtility(g, util, key, v[j - 1]);
      v := v + [x];
      util := util[key := x];
      assert Prefixes(util, v) == ScanTo(g, known, order, j) by {
        NextScan(g, known, order, j);
        assert ScanTo(g, known, order, j - 1) == Prefixes(taken, before);
      }
      var index := order[j - 1] - offset;
      if index >= n {
        return false, util, record;
      }
      record := record[index := AtLeastZero(v[j] - v[j - 1])];
      if Fits(order, n, offset) {
        RecordOfPrefix(order, before, v, n, offset, j - 1);
      }
      FitsNext(order, j, n, offset);
    }
    assert order[..|order|] == order;
    ok := true;
  }

  /** One step of the scan: its key and the utility taken. */
  lemma NextScan(g: Game, util: Utility, order: seq<Id>, j: nat)
    requires Known(g, util) && 0 < j <= |order|
    ensures var s := ScanTo(g, util, order, j - 1);
      var x := Taken(g, s.util, PrefixKey(order, j), s.v[j - 1]);
      ScanTo(g, util, order, j) == Prefixes(s.util[PrefixKey(order, j) := x], s.v + [x])
  {
  }

  lemma FitsNext(order: seq<Id>, j: nat, n: nat, offset: Id)
    requires 0 < j <= |order| && Fits(order[..j - 1], n, offset) && 0 <= order[j - 1] - offset < n
    ensures Fits(order[..j], n, offset)
  {
    assert order[..j] == order[..j - 1] + [order[j - 1]];
  }

  // All orderings.

  function UtilAfter(g: Game, util: Utility, orders: seq<seq<Id>>, k: nat): (r: Utility)
    requires Known(g, util) && k <= |orders|
    ensures Known(g, r)
  {
    if k == 0 then util else Scanned(g, UtilAfter(g, util, orders, k - 1), orders[k - 1]).util
  }

  predicate AllFit(orders: seq<seq<Id>>, n: nat, offset: Id) {
    forall k | 0 <= k < |orders| :: Fits(orders[k], n, offset)
  }

  function Records(g: Game, util: Utility, orders: seq<seq<Id>>, n: nat, offset: Id): (r: seq<seq<real>>)
    requires Known(g, util) && AllFit(orders, n, offset)
    ensures |r| == |orders|
  {
    seq(|orders|, k requires 0 <= k < |orders| => Recorded(g, UtilAfter(g, util, orders, k), orders[k], n, offset))
  }

  function Entry(i: nat): seq<real> -> real {
    (r: seq<real>) => if i < |r| then r[i] else 0.0
  }

  function Average(records: seq<seq<real>>): nat -> real {
    (i: nat) => if records == [] then 0.0 else Portion(Sum(records, Entry(i)), |records| as real)
  }

  function Averages(records: seq<seq<real>>, n: nat): (r: seq<real>)
    ensures |r| == n && forall i | 0 <= i < n :: r[i] == Average(records)(i)
  {
    seq(n, i requires 0 <= i < n => Average(records)(i))
  }

  type History = map<Id, seq<real>>

  function Extended(h: History, id: Id, value: real): History {
    h[id := (if id in h then h[id] else []) + [value]]
  }

  function ExtendedAll(h: History, clients: seq<Id>, values: seq<real>): History
    requires |values| == |clients|
  {
    if clients == [] then h
    else Extended(ExtendedAll(h, clients[..|clients| - 1], values[..|clients| - 1]),
                  clients[|clients| - 1], values[|clients| - 1])
  }

  function StoreRound(rounds: map<int, History>, idx: int, clients: seq<Id>, values: seq<real>): map<int, History>
    requires |values| == |clients|
  {
    rounds[idx := ExtendedAll(if idx in rounds then rounds[idx] else map[], clients, values)]
  }

  function HistoryOf(rounds: map<int, History>, idx: int, id: Id): seq<real> {
    if idx in rounds && id in rounds[idx] then rounds[idx][id] else []
  }

  lemma {:induction false} ExtendedAllAt(h: History, clients: seq<Id>, values: seq<real>, id: Id)
    requires |values| == |clients| && Distinct(clients)
    ensures id !in clients ==> (id in ExtendedAll(h, clients, values) <==> id in h)
                               && (id in h ==> ExtendedAll(h, clients, values)[id] == h[id])
    ensures forall k | 0 <= k < |clients| && clients[k] == id ::
              id in ExtendedAll(h, clients, values)
              && ExtendedAll(h, clients, values)[id] == (if id in h then h[id] else []) + [values[k]]
  {
    if clients != [] {
      ExtendedAllAt(h, clients[..|clients| - 1], values[..|values| - 1], id);
    }
  }

  /** Storing a round appends exactly one value to the history of each of its clients, by position, and keeps all
      other histories. */
  lemma StoreAppends(rounds: map<int, History>, idx: int, clients: seq<Id>, values: seq<real>, round: int, id: Id)
    requires |values| == |clients| && Distinct(clients)
    ensures var after := HistoryOf(StoreRound(rounds, idx, clients, values), round, id);
      && (round != idx || id !in clients ==> after == HistoryOf(rounds, round, id))
      && (forall k | 0 <= k < |clients| && clients[k] == id ::
            round == idx ==> after == HistoryOf(rounds, round, id) + [values[k]])
  {
    ExtendedAllAt(if idx in rounds then rounds[idx] else map[], clients, values, id);
  }

  predicate ClientList(clients: seq<Id>) {
    Distinct(clients) && forall id | id in clients :: id >= 0
  }

  /** The index of a client in a record is its id when the smallest id is 0, and one less otherwise. */
  function Offset(clients: seq<Id>): Id {
    if 0 in clients then 0 else 1
  }

  /** The ids leave no gap. */
  ghost predicate Contiguous(clients: seq<Id>) {
    forall x :: x in clients <==> Offset(clients) <= x < Offset(clients) + |clients|
  }

  function StartUtil(clients: seq<Id>, last: real, aggregated: real): Utility {
    map[[] := last][clients := aggregated]
  }

  class GTGShapleyValue {
    const eps: real
    const roundTruncThreshold: real
    var contributionRecords: seq<seq<real>>
    var shapleyValuesByRound: map<int, History>

    constructor ()
      ensures contributionRecords == [] && shapleyValuesByRound == map[]
      ensures eps == 0.001 && roundTruncThreshold == 0.01
    {
      eps, roundTruncThreshold := 0.001, 0.01;
      contributionRecords, shapleyValuesByRound := [], map[];
    }

    /** One round with given orderings. A round that changes the accuracy too little gives everybody zero. */
    method Run(clients: seq<Id>, last: real, aggregated: real, validate: Key -> real, roundIdx: int, orders: seq<seq<Id>>)
      returns (ok: bool)
      requires ClientList(clients) && orders != []
      requires forall p | p in orders :: IsOrdering(p, clients)
      modifies this
      ensures var before := if clients == [] then aggregated else last;
        var small := aggregated - before <= roundTruncThreshold && before - aggregated <= roundTruncThreshold;
        && (small ==> ok && contributionRecords == []
                      && shapleyValuesByRound
                         == StoreRound(old(shapleyValuesByRound), roundIdx, clients, seq(|clients|, i => 0.0)))
        && (!small ==> (ok <==> Contiguous(clients)))
        && (!small && ok ==>
              && AllFit(orders, |clients|, Offset(clients))
              && contributionRecords == Records(Game(clients, eps, validate), StartUtil(clients, last, aggregated), orders,
                                                |clients|, Offset(clients))
              && shapleyValuesByRound == StoreRound(old(shapleyValuesByRound), roundIdx, clients,
                                                    Averages(contributionRecords, |clients|)))
        && (!ok ==> shapleyValuesByRound == old(shapleyValuesByRound))
    {
      contributionRecords := [];
      var n, offset := |clients|, Offset(clients);
      var util := map[[] := last];
      util := util[clients := aggregated];
      if Gap(util[clients], util[[]]) <= roundTruncThreshold {
        shapleyValuesByRound := StoreRound(shapleyValuesByRound, roundIdx, clients, Zeros(n));
        return true;
      }
      var g := Game(clients, eps, validate);
      ghost var start := util;
      for k := 0 to |orders|
        modifies this`contributionRecords
        invariant AllFit(orders[..k], n, offset)
        invariant util == UtilAfter(g, start, orders, k)
        invariant contributionRecords == Records(g, start, orders[..k], n, offset)
        invariant k > 0 ==> Contiguous(clients)
      {
        assert orders[k] in orders;
        OrderingFits(clients, orders[k]);
        OffsetIsLeast(clients, orders[k]);
        var fits, after, record := ScanOrder(g, util, orders[k], n, offset);
        if !fits {
          return false;
        }
        RecordsGrow(g, start, orders, k, n, offset);
        util := after;
        contributionRecords := contributionRecords + [record];
      }
      assert orders[..|orders|] == orders;
      shapleyValuesByRound := StoreRound(shapleyValuesByRound, roundIdx, clients, Averages(contributionRecords, n));
      ok := true;
    }
  }

  lemma {:induction false} UtilAfterPrefix(g: Game, util: Utility, orders: seq<seq<Id>>, m: nat, k: nat)
    requires Known(g, util) && k <= m <= |orders|
    ensures UtilAfter(g, util, orders[..m], k) == UtilAfter(g, util, orders, k)
  {
    if k > 0 {
      UtilAfterPrefix(g, util, orders, m, k - 1);
    }
  }

  lemma RecordsGrow(g: Game, util: Utility, orders: seq<seq<Id>>, k: nat, n: nat, offset: Id)
    requires Known(g, util) && k < |orders| && AllFit(orders[..k], n, offset) && Fits(orders[k], n, offset)
    ensures AllFit(orders[..k + 1], n, offset)
    ensures Records(g, util, orders[..k + 1], n, offset)
         == Records(g, util, orders[..k], n, offset) + [Recorded(g, UtilAfter(g, util, orders, k), orders[k], n, offset)]
  {
    AllFitGrows(orders, k, n, offset);
    var grown := Records(g, util, orders[..k + 1], n, offset);
    var records := Records(g, util, orders[..k], n, offset);
    forall i | 0 <= i < k ensures grown[i] == records[i] {
      assert orders[..k][i] == orders[i];
      NthOfPrefix(g, util, orders, k + 1, i, n, offset);
      NthOfPrefix(g, util, orders, k, i, n, offset);
    }
    NthOfPrefix(g, util, orders, k + 1, k, n, offset);
    OneLonger(grown, records);
  }

  lemma OneLonger(a: seq<seq<real>>, b: seq<seq<real>>)
    requires |a| == |b| + 1 && forall i | 0 <= i < |b| :: a[i] == b[i]
    ensures a == b + [a[|b|]]
  {
  }

  lemma AllFitGrows(orders: seq<seq<Id>>, k: nat, n: nat, offset: Id)
    requires k < |orders| && AllFit(orders[..k], n, offset) && Fits(orders[k], n, offset)
    ensures AllFit(orders[..k + 1], n, offset)
  {
    var grown := orders[..k + 1];
    forall i | 0 <= i < |grown| ensures Fits(grown[i], n, offset) {
      assert i < k ==> grown[i] == orders[..k][i];
    }
  }

  lemma NthOfPrefix(g: Game, util: Utility, orders: seq<seq<Id>>, m: nat, i: nat, n: nat, offset: Id)
    requires Known(g, util) && i < m <= |orders| && AllFit(orders[..m], n, offset) && Fits(orders[i], n, offset)
    ensures Records(g, util, orders[..m], n, offset)[i] == Recorded(g, UtilAfter(g, util, orders, i), orders[i], n, offset)
  {
    UtilAfterPrefix(g, util, orders, m, i);
    NthRecord(g, util, orders[..m], i, n, offset);
  }

  lemma OffsetIsLeast(clients: seq<Id>, order: seq<Id>)
    requires ClientList(clients) && IsOrdering(order, clients)
    ensures forall k | 0 <= k < |order| :: order[k] >= Offset(clients)
  {
    forall k | 0 <= k < |order| ensures order[k] >= Offset(clients) {
      assert order[k] in Elems(order);
    }
  }

  /** As many different ids as an interval has places leave none of its places free. */
  lemma Pigeonhole(clients: seq<Id>, offset: Id)
    requires Distinct(clients) && forall x | x in clients :: offset <= x < offset + |clients|
    ensures forall x | offset <= x < offset + |clients| :: x in clients
  {
    var places := seq(|clients|, k => offset + k);
    forall x | offset <= x < offset + |clients| ensures x in places {
      assert places[x - offset] == x;
    }
    CountElems(places);
    CountElems(clients);
    assert Elems(clients) <= Elems(places);
    SameSize(Elems(clients), Elems(places));
    forall x | offset <= x < offset + |clients| ensures x in clients {
      assert x in Elems(places);
    }
  }

  lemma SameSize<T>(a: set<T>, b: set<T>)
    requires a <= b && |a| == |b|
    ensures a == b
  {
    assert |b - a| == |b| - |a|;
    assert b == a + (b - a);
  }

  lemma {:induction false} CountElems<T>(s: seq<T>)
    requires Distinct(s)
    ensures |Elems(s)| == |s|
  {
    if s != [] {
      var front, last := s[..|s| - 1], s[|s| - 1];
      CountElems(front);
      assert last !in front;
      assert s == front + [last];
      assert Elems(s) == Elems(front) + {last};
    }
  }

  /** The indices of all orderings are inside the record exactly when the ids leave no gap from 0 or 1. */
  lemma OrderingFits(clients: seq<Id>, order: seq<Id>)
    requires ClientList(clients) && IsOrdering(order, clients)
    ensures Fits(order, |clients|, Offset(clients)) <==> Contiguous(clients)
  {
    var offset := Offset(clients);
    OffsetIsLeast(clients, order);
    if Fits(order, |clients|, offset) {
      forall x | x in clients ensures offset <= x < offset + |clients| {
        assert x in Elems(order);
      }
      Pigeonhole(clients, offset);
    }
    if Contiguous(clients) {
      forall k | 0 <= k < |order| ensures order[k] - offset < |clients| {
        assert order[k] in Elems(order);
      }
    }
  }

  /** The ids of the source's own example leave gaps. */
  lemma ExampleIdsFail()
    ensures ClientList([1, 3, 4, 7]) && !Contiguous([1, 3, 4, 7])
  {
    assert Offset([1, 3, 4, 7]) == 1 && 2 !in [1, 3, 4, 7];
  }

  /** The values are stored by position in the client list, and computed by index: these agree for every
      client exactly when the list is sorted. */
  lemma StoredAtOwnIndex(clients: seq<Id>)
    requires ClientList(clients) && Contiguous(clients)
    ensures (forall k | 0 <= k < |clients| :: clients[k] - Offset(clients) == k) <==> Increasing(clients)
  {
    if Increasing(clients) {
      var ids := seq(|clients|, k => k + Offset(clients));
      forall x ensures x in clients <==> x in ids {
        if x in clients {
          assert ids[x - Offset(clients)] == x;
        }
      }
      IncreasingIsUnique(clients, ids);
    }
  }

  /** The list 2, 1 is contiguous and not sorted: client 2 is at position 0, and has index 1. */
  lemma ReversedListIsMisread()
    ensures ClientList([2, 1]) && Contiguous([2, 1]) && !Increasing([2, 1])
    ensures [2, 1][0] - Offset([2, 1]) == 1
  {
    assert Offset([2, 1]) == 1;
    assert [2, 1][0] > [2, 1][1];
    forall x ensures x in [2, 1] <==> 1 <= x < 3 {}
  }

  // The drift of the entry of all clients.

  /** Only the last prefix can have the key of all clients. */
  lemma {:induction false} FullEntryKept(g: Game, util: Utility, order: seq<Id>, j: nat)
    requires Known(g, util) && j <= |order| && j < |g.all|
    ensures ScanTo(g, util, order, j).util[g.all] == util[g.all]
  {
    if j > 0 {
      FullEntryKept(g, util, order, j - 1);
      SortKeyKeeps(order[..j]);
    }
  }

  lemma {:induction false} EmptyEntryKept(g: Game, util: Utility, order: seq<Id>, j: nat)
    requires Known(g, util) && j <= |order|
    ensures ScanTo(g, util, order, j).util[[]] == util[[]] == ScanTo(g, util, order, j).v[0]
  {
    if j > 0 {
      EmptyEntryKept(g, util, order, j - 1);
      SortKeyKeeps(order[..j]);
    }
  }

  /** One ordering moves the entry by no more than the truncation threshold. */
  lemma OrderingDrift(g: Game, util: Utility, order: seq<Id>)
    requires Known(g, util) && |order| == |g.all|
    ensures Gap(Scanned(g, util, order).util[g.all], util[g.all]) <= AtLeastZero(g.eps)
    ensures order != [] && SortKey(order) == g.all ==>
              Scanned(g, util, order).v[|order|] == Scanned(g, util, order).util[g.all]
  {
    if order != [] {
      FullEntryKept(g, util, order, |order| - 1);
      assert order[..|order|] == order;
    }
  }

  lemma {:induction false} EntriesDrift(g: Game, util: Utility, orders: seq<seq<Id>>, k: nat)
    requires Known(g, util) && k <= |orders| && forall p | p in orders :: |p| == |g.all|
    ensures Gap(UtilAfter(g, util, orders, k)[g.all], util[g.all]) <= Repeat(k, AtLeastZero(g.eps))
    ensures g.all != [] ==> UtilAfter(g, util, orders, k)[[]] == util[[]]
  {
    if k > 0 {
      EntriesDrift(g, util, orders, k - 1);
      var before := UtilAfter(g, util, orders, k - 1);
      OrderingDrift(g, before, orders[k - 1]);
      EmptyEntryKept(g, before, orders[k - 1], |orders[k - 1]|);
    }
  }

  /** `k` thresholds; a negative one never truncates. */
  function Thresholds(k: nat, eps: real): real {
    k as real * (if eps > 0.0 then eps else 0.0)
  }

  lemma ThresholdsRepeat(k: nat, eps: real)
    ensures Thresholds(k, eps) == Repeat(k, AtLeastZero(eps))
  {
    RepeatIsProduct(k, AtLeastZero(eps));
  }

  /** After `k` orderings, the cached utility of all clients is within `k` thresholds of the accuracy of the
      aggregated model. */
  lemma DriftIsBounded(clients: seq<Id>, last: real, aggregated: real, eps: real, validate: Key -> real,
                       orders: seq<seq<Id>>, k: nat)
    requires k <= |orders| && forall p | p in orders :: IsOrdering(p, clients)
    ensures var util := UtilAfter(Game(clients, eps, validate), StartUtil(clients, last, aggregated), orders, k);
      && util[clients] - aggregated <= k as real * (if eps > 0.0 then eps else 0.0)
      && aggregated - util[clients] <= k as real * (if eps > 0.0 then eps else 0.0)
  {
    ThresholdsRepeat(k, eps);
    EntriesDrift(Game(clients, eps, validate), StartUtil(clients, last, aggregated), orders, k);
  }

  // What the entries of a record add up to.

  function Itself(): real -> real {
    x => x
  }

  lemma SumReplaced(s: seq<real>, i: nat, x: real)
    requires i < |s|
    ensures Sum(s[i := x], Itself()) == Sum(s, Itself()) - s[i] + x
  {
    var t := s[i := x];
    RemoveAt(s, i, Itself());
    RemoveAt(t, i, Itself());
    assert s[..i] + s[i + 1..] == t[..i] + t[i + 1..];
  }

  lemma {:induction false} RecordEntries(order: seq<Id>, v: seq<real>, n: nat, offset: Id, j: nat)
    requires j <= |order| && j < |v| && Fits(order, n, offset) && Distinct(order)
    ensures forall i | 0 <= i < n && offset + i !in order[..j] :: RecordOf(order, v, n, offset, j)[i] == 0.0
    ensures forall k | 0 <= k < j ::
      RecordOf(order, v, n, offset, j)[order[k] - offset] == if v[k + 1] > v[k] then v[k + 1] - v[k] else 0.0
  {
    if j > 0 {
      RecordEntries(order, v, n, offset, j - 1);
      assert order[..j] == order[..j - 1] + [order[j - 1]];
    }
  }

  /** The entries telescope, up to the losses that were clamped to zero. */
  lemma {:induction false} RecordTelescopes(order: seq<Id>, v: seq<real>, n: nat, offset: Id, j: nat)
    requires j <= |order| && j < |v| && Fits(order, n, offset) && Distinct(order)
    ensures Sum(RecordOf(order, v, n, offset, j), Itself()) >= v[j] - v[0]
  {
    if j == 0 {
      SumOfConst(Zeros(n), Itself(), 0.0);
      RepeatZero(n);
    } else {
      RecordTelescopes(order, v, n, offset, j - 1);
      RecordEntries(order, v, n, offset, j - 1);
      assert order[j - 1] !in order[..j - 1];
      SumReplaced(RecordOf(order, v, n, offset, j - 1), order[j - 1] - offset, AtLeastZero(v[j] - v[j - 1]));
    }
  }

  /** For a sorted list, a record adds up to at least the difference of the two cached ends, less the drift. */
  lemma RecordCovers(g: Game, util: Utility, order: seq<Id>, n: nat, offset: Id)
    requires Known(g, util) && Increasing(g.all) && g.all != [] && IsOrdering(order, g.all) && Fits(order, n, offset)
    ensures Sum(Recorded(g, util, order, n, offset), Itself()) >= util[g.all] - util[[]] - AtLeastZero(g.eps)
  {
    OrderingDrift(g, util, order);
    EmptyEntryKept(g, util, order, |order|);
    PrefixKeyIs(g.all, order, |order|);
    assert order[..|order|] == order;
    RecordTelescopes(order, Scanned(g, util, order).v, n, offset, |order|);
  }

  lemma NthRecord(g: Game, util: Utility, orders: seq<seq<Id>>, k: nat, n: nat, offset: Id)
    requires Known(g, util) && AllFit(orders, n, offset) && k < |orders|
    ensures Records(g, util, orders, n, offset)[k] == Recorded(g, UtilAfter(g, util, orders, k), orders[k], n, offset)
  {
  }

  lemma RecordAtLeast(g: Game, start: Utility, orders: seq<seq<Id>>, k: nat, n: nat, offset: Id)
    requires Known(g, start) && Increasing(g.all) && g.all != [] && AllFit(orders, n, offset)
    requires k < |orders| && forall p | p in orders :: IsOrdering(p, g.all)
    ensures Sum(Records(g, start, orders, n, offset)[k], Itself())
         >= start[g.all] - start[[]] - (Repeat(k, AtLeastZero(g.eps)) + AtLeastZero(g.eps))
  {
    var order, util := orders[k], UtilAfter(g, start, orders, k);
    assert order in orders;
    NthRecord(g, start, orders, k, n, offset);
    ghost var record := Records(g, start, orders, n, offset)[k];
    ghost var total := Sum(record, Itself());
    EntriesDrift(g, start, orders, k);
    ghost var full := util[g.all];
    ghost var drift := Repeat(k, AtLeastZero(g.eps));
    assert start[g.all] - full <= drift;
    RecordCovers(g, util, order, n, offset);
    assert total >= full - start[[]] - AtLeastZero(g.eps);
  }

  /** For a sorted list, record number `k` (from 0) adds up to at least the gain in accuracy, less `k + 1`
      thresholds. */
  lemma RecordKeepsGain(clients: seq<Id>, last: real, aggregated: real, eps: real, validate: Key -> real,
                        orders: seq<seq<Id>>, k: nat)
    requires ClientList(clients) && Increasing(clients) && Contiguous(clients) && clients != []
    requires k < |orders| && forall p | p in orders :: IsOrdering(p, clients)
    ensures AllFit(orders, |clients|, Offset(clients))
    ensures Sum(Records(Game(clients, eps, validate), StartUtil(clients, last, aggregated), orders,
                        |clients|, Offset(clients))[k], Itself())
         >= aggregated - last - Thresholds(k + 1, eps)
  {
    OrdersFit(clients, orders);
    ThresholdsNext(k, eps);
    StartHas(clients, last, aggregated);
    RecordAtLeast(Game(clients, eps, validate), StartUtil(clients, last, aggregated), orders, k, |clients|, Offset(clients));
  }

  lemma ThresholdsNext(k: nat, eps: real)
    ensures Thresholds(k + 1, eps) == Repeat(k, AtLeastZero(eps)) + AtLeastZero(eps)
  {
    ThresholdsRepeat(k + 1, eps);
  }

  lemma StartHas(clients: seq<Id>, last: real, aggregated: real)
    requires clients != []
    ensures clients in StartUtil(clients, last, aggregated) && [] in StartUtil(clients, last, aggregated)
    ensures StartUtil(clients, last, aggregated)[clients] == aggregated && StartUtil(clients, last, aggregated)[[]] == last
  {
  }

  lemma OrdersFit(clients: seq<Id>, orders: seq<seq<Id>>)
    requires ClientList(clients) && Contiguous(clients) && forall p | p in orders :: IsOrdering(p, clients)
    ensures AllFit(orders, |clients|, Offset(clients))
  {
    forall k | 0 <= k < |orders| ensures Fits(orders[k], |clients|, Offset(clients)) {
      assert orders[k] in orders;
      OrderingFits(clients, orders[k]);
    }
  }
}
