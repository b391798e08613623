/**
 Exact Shapley values of the clients of a round, from the utility of every subset of them.

 A dictionary is a map together with the list of its keys in insertion order; a key is the tuple of
 the members of a subset, in the order of the client list.
 */
module ShapleyValue {
  import opened Facts
  import opened Combinatorics

  type Key = seq<Id>
  type Utility = map<Key, real>

  /** The tuple of those clients that are in `members`. */
  function Restrict(clients: seq<Id>, members: set<Id>): (r: Key)
    ensures forall x :: x in r <==> x in clients && x in members
    ensures |r| <= |clients|
  {
    if clients == [] then [] else
    var r := Restrict(clients[..|clients| - 1], members);
    if clients[|clients| - 1] in members then r + [clients[|clients| - 1]] else r
  }

  predicate IsKey(clients: seq<Id>, key: Key) {
    key == Restrict(clients, Elems(key))
  }

  // The power set, in the order of itertools: by size, then by position.

  function Combinations(s: seq<Id>, r: nat): seq<Key> {
    if r == 0 then [[]]
    else if s == [] then []
    else Map(Combinations(s[1..], r - 1), Prepend(s[0])) + Combinations(s[1..], r)
  }

  function CombinationsUpTo(s: seq<Id>, r: nat): seq<Key> {
    if r == 0 then Combinations(s, 0) else CombinationsUpTo(s, r - 1) + Combinations(s, r)
  }

  function PowerSet(s: seq<Id>): seq<Key> {
    CombinationsUpTo(s, |s|)
  }

  lemma {:induction false} RestrictSame(s: seq<Id>, a: set<Id>, b: set<Id>)
    requires forall x | x in s :: x in a <==> x in b
    ensures Restrict(s, a) == Restrict(s, b)
  {
    if s != [] {
      var init, last := s[..|s| - 1], s[|s| - 1];
      assert last in s && forall x | x in init :: x in s;
      RestrictSame(init, a, b);
    }
  }

  lemma {:induction false} RestrictHead(s: seq<Id>, members: set<Id>)
    requires s != []
    ensures Restrict(s, members) == (if s[0] in members then [s[0]] else []) + Restrict(s[1..], members)
  {
    var init := s[..|s| - 1];
    if |s| > 1 {
      RestrictHead(init, members);
      assert init[1..] == s[1..][..|s| - 2];
    }
  }

  lemma {:induction false} RestrictKeeps(s: seq<Id>, members: set<Id>)
    requires Distinct(s)
    ensures Distinct(Restrict(s, members))
    ensures IsKey(s, Restrict(s, members))
  {
    var r := Restrict(s, members);
    RestrictSame(s, members, Elems(r));
    if s != [] {
      RestrictKeeps(s[..|s| - 1], members);
    }
  }

  lemma {:induction false} RestrictAll(s: seq<Id>, members: set<Id>)
    requires forall x | x in s :: x in members
    ensures Restrict(s, members) == s
  {
    if s != [] {
      var init, last := s[..|s| - 1], s[|s| - 1];
      assert last in s && forall x | x in init :: x in s;
      RestrictAll(init, members);
    }
  }

  lemma {:induction false} RestrictWithout(s: seq<Id>, members: set<Id>, id: Id)
    ensures Without(Restrict(s, members), id) == Restrict(s, members - {id})
  {
    if s != [] {
      var init, last := s[..|s| - 1], s[|s| - 1];
      RestrictWithout(init, members, id);
      var r := Restrict(init, members);
      if last in members {
        assert (r + [last])[..|r|] == r;
      }
    }
  }

  lemma CombinationsStep(s: seq<Id>, r: nat, key: Key)
    requires s != [] && r > 0
    ensures key in Combinations(s, r) <==>
              || (key != [] && key[0] == s[0] && key[1..] in Combinations(s[1..], r - 1))
              || key in Combinations(s[1..], r)
  {
    InPrepended(s[0], Combinations(s[1..], r - 1), key);
  }

  /** A key of a list either starts with the head of the list, or is a key of the rest. */
  lemma KeyOfCons(s: seq<Id>, key: Key)
    requires Distinct(s) && s != []
    ensures IsKey(s, key) <==>
              if key != [] && key[0] == s[0] then IsKey(s[1..], key[1..]) else IsKey(s[1..], key)
  {
    var x, t := s[0], s[1..];
    assert x !in t by {
      assert forall k | 0 <= k < |t| :: t[k] == s[k + 1] != s[0];
    }
    RestrictHead(s, Elems(key));
    if key != [] && key[0] == x {
      assert key == [x] + key[1..];
      RestrictSame(t, Elems(key), Elems(key[1..]));
    } else if x in key {
      assert Restrict(s, Elems(key))[0] == x;
      assert x !in Restrict(t, Elems(key));
    }
  }

  lemma {:induction false} InCombinations(s: seq<Id>, r: nat, key: Key)
    requires Distinct(s)
    ensures key in Combinations(s, r) <==> |key| == r && IsKey(s, key)
  {
    if r == 0 {
      if key == [] {
        RestrictNone(s);
      }
    } else if s != [] {
      InCombinations(s[1..], r, key);
      if key != [] && key[0] == s[0] {
        InCombinations(s[1..], r - 1, key[1..]);
      }
      InLonger(s, r, key);
    }
  }

  lemma InLonger(s: seq<Id>, r: nat, key: Key)
    requires Distinct(s) && s != [] && r > 0
    requires key in Combinations(s[1..], r) <==> |key| == r && IsKey(s[1..], key)
    requires key != [] && key[0] == s[0] ==>
               (key[1..] in Combinations(s[1..], r - 1) <==> |key[1..]| == r - 1 && IsKey(s[1..], key[1..]))
    ensures key in Combinations(s, r) <==> |key| == r && IsKey(s, key)
  {
    CombinationsStep(s, r, key);
    KeyOfCons(s, key);
    if key != [] && key[0] == s[0] {
      HeadIsNoKey(s, key);
    }
  }

  lemma HeadIsNoKey(s: seq<Id>, key: Key)
    requires Distinct(s) && s != [] && key != [] && key[0] == s[0]
    ensures !IsKey(s[1..], key)
  {
    assert s[0] !in s[1..] by {
      assert forall k | 0 <= k < |s[1..]| :: s[1..][k] == s[k + 1] != s[0];
    }
  }

  lemma {:induction false} RestrictNone(s: seq<Id>)
    ensures Restrict(s, Elems<Id>([])) == []
  {
    if s != [] {
      RestrictNone(s[..|s| - 1]);
    }
  }

  lemma DistinctConcat<T>(a: seq<T>, b: seq<T>)
    requires Distinct(a) && Distinct(b) && forall x | x in a :: x !in b
    ensures Distinct(a + b)
  {
    var c := a + b;
    forall i, j | 0 <= i < j < |c| ensures c[i] != c[j] {
      if i < |a| && j >= |a| {
        assert c[i] == a[i] && a[i] in a && c[j] == b[j - |a|] && b[j - |a|] in b;
      }
    }
  }

  lemma {:induction false} CombinationsDistinct(s: seq<Id>, r: nat)
    requires Distinct(s)
    ensures Distinct(Combinations(s, r))
  {
    if s != [] && r > 0 {
      var x, t := s[0], s[1..];
      CombinationsDistinct(t, r - 1);
      CombinationsDistinct(t, r);
      var rest := Combinations(t, r - 1);
      var a, b := Map(rest, Prepend(x)), Combinations(t, r);
      forall i, j | 0 <= i < j < |a| ensures a[i] != a[j] {
        assert a[i][1..] == rest[i] && a[j][1..] == rest[j];
      }
      forall i, j | 0 <= i < |a| && 0 <= j < |b| ensures a[i] != b[j] {
        InCombinations(t, r, b[j]);
        assert b[j] in b && a[i][0] == x && x in a[i];
        assert x !in t by {
          assert forall k | 0 <= k < |t| :: t[k] == s[k + 1] != s[0];
        }
      }
    }
  }

  lemma {:induction false} InCombinationsUpTo(s: seq<Id>, r: nat, key: Key)
    requires Distinct(s)
    ensures key in CombinationsUpTo(s, r) <==> |key| <= r && IsKey(s, key)
  {
    InCombinations(s, r, key);
    if r > 0 {
      InCombinationsUpTo(s, r - 1, key);
    }
  }

  /** All of the keys have `n` members, or at most that many. These facts are only there for a proof that uses them. */
  ghost predicate AllOfSize(keys: seq<Key>, n: nat) {
    forall b {:trigger Use(b)} | Use(b) :: forall key | key in keys :: |key| == n
  }

  ghost predicate AllUpToSize(keys: seq<Key>, n: nat) {
    forall b {:trigger Use(b)} | Use(b) :: forall key | key in keys :: |key| <= n
  }

  lemma CombinationsSize(s: seq<Id>, r: nat)
    requires Distinct(s)
    ensures AllOfSize(Combinations(s, r), r)
  {
    forall key | key in Combinations(s, r) ensures |key| == r {
      InCombinations(s, r, key);
    }
  }

  lemma UpToSize(s: seq<Id>, r: nat)
    requires Distinct(s)
    ensures AllUpToSize(CombinationsUpTo(s, r), r)
  {
    forall key | key in CombinationsUpTo(s, r) ensures |key| <= r {
      InCombinationsUpTo(s, r, key);
    }
  }

  ghost predicate AllDistinct(keys: seq<Key>) {
    forall b {:trigger Use(b)} | Use(b) :: Distinct(keys)
  }

  lemma {:induction false} UpToDistinct(s: seq<Id>, r: nat)
    requires Distinct(s)
    ensures AllDistinct(CombinationsUpTo(s, r))
  {
    if r == 0 {
      EachDistinct(s, 0);
    } else {
      assert AllDistinct(CombinationsUpTo(s, r - 1) + Combinations(s, r)) by {
        EachDistinct(s, r);
        UpToDistinct(s, r - 1);
        CombinationsSize(s, r);
        UpToSize(s, r - 1);
        DistinctBySize(CombinationsUpTo(s, r - 1), Combinations(s, r), r);
      }
    }
  }

  lemma EachDistinct(s: seq<Id>, r: nat)
    requires Distinct(s)
    ensures AllDistinct(Combinations(s, r))
  {
    CombinationsDistinct(s, r);
  }

  lemma DistinctBySize(a: seq<Key>, b: seq<Key>, r: nat)
    requires AllDistinct(a) && AllDistinct(b) && r > 0 && AllUpToSize(a, r - 1) && AllOfSize(b, r)
    ensures AllDistinct(a + b)
  {
    assert Use(true);
    DistinctConcat(a, b);
  }

  /** The power set lists every subset once, and ends with the whole list. */
  lemma {:induction false} PowerSetIsAll(s: seq<Id>, key: Key)
    requires Distinct(s)
    ensures Distinct(PowerSet(s))
    ensures key in PowerSet(s) <==> IsKey(s, key)
    ensures PowerSet(s) != [] && PowerSet(s)[|PowerSet(s)| - 1] == s
  {
    UpToDistinct(s, |s|);
    assert Use(true);
    InCombinationsUpTo(s, |s|, key);
    AllOfThem(s);
  }

  lemma {:induction false} AllOfThem(s: seq<Id>)
    ensures Combinations(s, |s|) == [s]
    ensures forall r | r > |s| :: Combinations(s, r) == []
  {
    if s != [] {
      AllOfThem(s[1..]);
      assert [s[0]] + s[1..] == s;
      assert Combinations(s[1..], |s|) == [];
    }
  }

  // The value of a client.

  /** The least number that is at least zero and at least `x`. */
  function AtLeastZero(x: real): (r: real)
    ensures r >= 0.0 && r >= x && (r == 0.0 || r == x)
  {
    if x > 0.0 then x else 0.0
  }

  /** What client `id` earns from the subset `key` of `n` clients. */
  function Term(u: Utility, n: nat, key: Key, id: Id): real {
    if id in key && |key| <= n && key in u && Without(key, id) in u
    then Weighed(AtLeastZero(u[key] - u[Without(key, id)]), n, |key|)
    else 0.0
  }

  function Weighed(marginal: real, n: nat, size: nat): real
    requires 0 < size <= n
  {
    Product(marginal, Weight(n - 1, size - 1))
  }

  function Earned(u: Utility, n: nat, id: Id): Key -> real {
    key => Term(u, n, key, id)
  }

  function Value(u: Utility, clients: seq<Id>, id: Id): real {
    Sum(PowerSet(clients), Earned(u, |clients|, id))
  }

  function Values(u: Utility, clients: seq<Id>): map<Id, real> {
    map id | id in clients :: Value(u, clients, id)
  }

  /** A utility is given for every subset of the clients. */
  ghost predicate IsUtility(u: Utility, clients: seq<Id>) {
    Distinct(clients) && forall key :: key in u <==> IsKey(clients, key)
  }

  /** The loops over the subsets and over their members, in any order of the subsets. */
  method ShapleyValues(u: Utility, keys: seq<Key>, clients: seq<Id>) returns (sv: map<Id, real>)
    requires IsUtility(u, clients)
    requires Distinct(keys) && Elems(keys) == u.Keys
    ensures sv == Values(u, clients)
  {
    sv := map id | id in clients :: 0.0;
    for k := 0 to |keys|
      invariant sv.Keys == Elems(clients)
      invariant forall id | id in clients :: sv[id] == Sum(keys[..k], Earned(u, |clients|, id))
    {
      assert keys[..k + 1][..k] == keys[..k];
      assert keys[k] in Elems(keys);
      sv := AddSubset(u, keys[k], clients, sv);
    }
    assert keys[..|keys|] == keys;
    forall id | id in clients ensures sv[id] == Value(u, clients, id) {
      AnyOrder(u, keys, clients, id);
    }
  }

  /** The inner loop: every member of the subset earns its share. */
  method AddSubset(u: Utility, key: Key, clients: seq<Id>, before: map<Id, real>) returns (sv: map<Id, real>)
    requires IsUtility(u, clients) && key in u && before.Keys == Elems(clients)
    ensures sv.Keys == Elems(clients)
    ensures forall id | id in clients :: sv[id] == before[id] + Term(u, |clients|, key, id)
  {
    RestrictKeeps(clients, Elems(key));
    sv := before;
    for m := 0 to |key|
      invariant sv.Keys == Elems(clients)
      invariant forall id | id in clients ::
          sv[id] == before[id] + if id in key[..m] then Term(u, |clients|, key, id) else 0.0
    {
      var id := key[m];
      assert id !in key[..m] && key[..m + 1] == key[..m] + [id];
      var contribution := Contribution(u, key, clients, id);
      sv := sv[id := sv[id] + contribution];
    }
    assert key[..|key|] == key;
  }

  method Contribution(u: Utility, key: Key, clients: seq<Id>, id: Id) returns (contribution: real)
    requires IsUtility(u, clients) && key in u && id in key
    ensures contribution == Term(u, |clients|, key, id)
  {
    SmallerKey(clients, key, id);
    var marginal := AtLeastZero(u[key] - u[Without(key, id)]);
    contribution := Weighed(marginal, |clients|, |key|);
  }

  lemma SmallerKey(clients: seq<Id>, key: Key, id: Id)
    requires Distinct(clients) && IsKey(clients, key)
    ensures IsKey(clients, Without(key, id)) && Without(key, id) == Restrict(clients, Elems(key) - {id})
  {
    RestrictWithout(clients, Elems(key), id);
    RestrictKeeps(clients, Elems(key) - {id});
  }

  lemma AnyOrder(u: Utility, keys: seq<Key>, clients: seq<Id>, id: Id)
    requires IsUtility(u, clients)
    requires Distinct(keys) && Elems(keys) == u.Keys
    ensures Sum(keys, Earned(u, |clients|, id)) == Value(u, clients, id)
  {
    forall key ensures key in keys <==> key in PowerSet(clients) {
      assert key in keys <==> key in u.Keys;
      PowerSetIsAll(clients, key);
    }
    PowerSetIsAll(clients, []);
    SumOverMembers(keys, PowerSet(clients), Earned(u, |clients|, id));
  }

  lemma ValueIsNonNegative(u: Utility, clients: seq<Id>, id: Id)
    ensures Value(u, clients, id) >= 0.0
  {
    forall key | key in PowerSet(clients) ensures Earned(u, |clients|, id)(key) >= 0.0 {
      TermIsNonNegative(u, |clients|, key, id);
    }
    SumAtLeast(PowerSet(clients), Earned(u, |clients|, id), 0.0);
    RepeatZero(|PowerSet(clients)|);
  }

  lemma TermIsNonNegative(u: Utility, n: nat, key: Key, id: Id)
    ensures Term(u, n, key, id) >= 0.0
  {
  }

  /** A client that makes no set of clients better is worth nothing. */
  lemma UselessClient(u: Utility, clients: seq<Id>, id: Id)
    requires IsUtility(u, clients)
    requires forall key | key in u && id in key && Without(key, id) in u :: u[key] <= u[Without(key, id)]
    ensures Value(u, clients, id) == 0.0
  {
    var keys := PowerSet(clients);
    forall key | key in keys ensures Earned(u, |clients|, id)(key) == 0.0 {
      if id in key && |key| <= |clients| && key in u && Without(key, id) in u {
        assert u[key] <= u[Without(key, id)];
        assert Weighed(0.0, |clients|, |key|) == 0.0;
      }
    }
    SumOfConst(keys, Earned(u, |clients|, id), 0.0);
    RepeatZero(|keys|);
  }

  /** Two clients: each gets half of what it adds to nobody, and half of what it adds to the other. */
  lemma TwoClients(u: Utility, i: Id, j: Id)
    requires i != j && [] in u && [i] in u && [j] in u && [i, j] in u
    ensures Value(u, [i, j], i) == ((if u[[i]] > u[[]] then u[[i]] - u[[]] else 0.0)
                                    + (if u[[i, j]] > u[[j]] then u[[i, j]] - u[[j]] else 0.0)) / 2.0
    ensures Value(u, [i, j], j) == ((if u[[j]] > u[[]] then u[[j]] - u[[]] else 0.0)
                                    + (if u[[i, j]] > u[[i]] then u[[i, j]] - u[[i]] else 0.0)) / 2.0
  {
    TwoSubsets(i, j);
    TwoWithout(i, j);
    forall id | id == i || id == j
      ensures Value(u, [i, j], id)
           == Term(u, 2, [], id) + Term(u, 2, [i], id) + Term(u, 2, [j], id) + Term(u, 2, [i, j], id)
    {
      SumOfFour([], [i], [j], [i, j], Earned(u, 2, id));
    }
    assert Binomial(1, 0) == 1 && Binomial(1, 1) == 1;
    assert Weight(1, 0) == 0.5 && Weight(1, 1) == 0.5;
  }

  lemma TwoSubsets(i: Id, j: Id)
    ensures PowerSet([i, j]) == [[], [i], [j], [i, j]]
  {
    var s := [i, j];
    assert s[1..] == [j] && [j][1..] == [];
    assert Prepend(j)([]) == [j] && Prepend(i)([]) == [i] && Prepend(i)([j]) == [i, j];
    assert Map([[]], Prepend(j)) == [[j]] && Map([[]], Prepend(i)) == [[i]] && Map([[j]], Prepend(i)) == [[i, j]];
    assert Combinations([], 0) == [[]] && Combinations([], 1) == [] && Combinations([], 2) == [];
    assert Combinations([j], 0) == [[]] && Combinations([j], 1) == [[j]] && Combinations([j], 2) == [];
    assert Combinations(s, 1) == [[i], [j]];
    assert Combinations(s, 2) == [[i, j]];
    assert CombinationsUpTo(s, 0) == [[]] && CombinationsUpTo(s, 1) == [[], [i], [j]];
  }

  lemma TwoWithout(i: Id, j: Id)
    requires i != j
    ensures Without([i], i) == [] && Without([j], j) == [] && Without([i, j], i) == [j] && Without([i, j], j) == [i]
  {
    assert [i, j][..1] == [i];
  }

  lemma SumOfFour<T>(a: T, b: T, c: T, d: T, f: T -> real)
    ensures Sum([a, b, c, d], f) == f(a) + f(b) + f(c) + f(d)
  {
    SumSnoc([], a, f);
    SumSnoc([a], b, f);
    SumSnoc([a, b], c, f);
    SumSnoc([a, b, c], d, f);
    assert [] + [a] == [a] && [a] + [b] == [a, b] && [a, b] + [c] == [a, b, c] && [a, b, c] + [d] == [a, b, c, d];
  }

  lemma SumSnoc<T>(s: seq<T>, x: T, f: T -> real)
    ensures Sum(s + [x], f) == Sum(s, f) + f(x)
  {
  }

  // The subsets as a tree of choices.

  function Append(x: Id): Key -> Key {
    key => key + [x]
  }

  function Subsets(s: seq<Id>): seq<Key> {
    if s == [] then [[]]
    else Subsets(s[..|s| - 1]) + Map(Subsets(s[..|s| - 1]), Append(s[|s| - 1]))
  }

  lemma InAppended(x: Id, rest: seq<Key>, key: Key)
    ensures key in Map(rest, Append(x)) <==> key != [] && key[|key| - 1] == x && key[..|key| - 1] in rest
  {
    var mapped := Map(rest, Append(x));
    if key in mapped {
      var k :| 0 <= k < |mapped| && mapped[k] == key;
      assert key == rest[k] + [x] && key[..|key| - 1] == rest[k];
    }
    if key != [] && key[|key| - 1] == x && key[..|key| - 1] in rest {
      var k :| 0 <= k < |rest| && rest[k] == key[..|key| - 1];
      assert key == rest[k] + [x] == mapped[k];
    }
  }

  lemma {:induction false} InSubsets(s: seq<Id>, key: Key)
    requires Distinct(s)
    ensures key in Subsets(s) <==> IsKey(s, key)
  {
    if s != [] {
      var init, last := s[..|s| - 1], s[|s| - 1];
      InSubsets(init, key);
      InAppended(last, Subsets(init), key);
      assert last !in init;
      if key != [] && key[|key| - 1] == last {
        var front := key[..|key| - 1];
        InSubsets(init, front);
        assert key == front + [last];
        RestrictSame(init, Elems(key), Elems(front));
      }
      if last !in key {
        assert Restrict(s, Elems(key)) == Restrict(init, Elems(key));
      } else {
        assert Restrict(s, Elems(key)) == Restrict(init, Elems(key)) + [last];
      }
    }
  }

  lemma {:induction false} SubsetsDistinct(s: seq<Id>)
    requires Distinct(s)
    ensures Distinct(Subsets(s))
  {
    if s != [] {
      var init, last := s[..|s| - 1], s[|s| - 1];
      SubsetsDistinct(init);
      var a := Subsets(init);
      var b := Map(a, Append(last));
      forall i, j | 0 <= i < j < |b| ensures b[i] != b[j] {
        assert b[i][..|b[i]| - 1] == a[i] && b[j][..|b[j]| - 1] == a[j];
      }
      forall i, j | 0 <= i < |a| && 0 <= j < |b| ensures a[i] != b[j] {
        InSubsets(init, a[i]);
        assert a[i] in a && last in b[j] && last !in init;
      }
    }
  }

  function OfSubset(base: set<Id>, k: nat, f: (set<Id>, nat) -> real): Key -> real {
    (key: Key) => f(base + Elems(key), k + |key|)
  }

  lemma {:induction false} SumOfSubsets(s: seq<Id>, base: set<Id>, k: nat, f: (set<Id>, nat) -> real)
    ensures Sum(Subsets(s), OfSubset(base, k, f)) == SubSum(s, base, k, f)
  {
    if s == [] {
      assert base + Elems<Id>([]) == base;
      assert Subsets(s)[..0] == [];
    } else {
      var init, last := s[..|s| - 1], s[|s| - 1];
      SumOfSubsets(init, base, k, f);
      SumOfSubsets(init, base + {last}, k + 1, f);
      var a := Subsets(init);
      SumConcat(a, Map(a, Append(last)), OfSubset(base, k, f));
      SumMapped(a, Append(last), OfSubset(base, k, f));
      AppendedSubset(a, last, base, k, f);
    }
  }

  lemma SubsetGrows(base: set<Id>, last: Id, key: Key)
    ensures base + Elems(key + [last]) == base + {last} + Elems(key)
  {
  }

  lemma AppendedSubset(a: seq<Key>, last: Id, base: set<Id>, k: nat, f: (set<Id>, nat) -> real)
    ensures Sum(a, Compose(OfSubset(base, k, f), Append(last))) == Sum(a, OfSubset(base + {last}, k + 1, f))
  {
    forall key | key in a
      ensures Compose(OfSubset(base, k, f), Append(last))(key) == OfSubset(base + {last}, k + 1, f)(key)
    {
      SubsetGrows(base, last, key);
    }
    SumSame(a, Compose(OfSubset(base, k, f), Append(last)), OfSubset(base + {last}, k + 1, f));
  }
}
