/**
 Writing the rows of a dataset in the order of an intersection list, from one pass over the
 dataset in its own order. Rows that come too early wait in a map.
 */
module DataAlign {
  import Combinatorics

  type Key = string
  datatype Row = Row(key: Key, fields: seq<string>)

  /** What is left of the list, the rows waiting, and the rows written. */
  datatype Join = Join(list: seq<Key>, waiting: map<Key, Row>, written: seq<Row>)

  /** `IndexError`: the head of an empty list was read. */
  datatype Outcome = Running(join: Join) | IndexError

  /** Writes waiting rows while the head of the list has one. */
  function Drain(j: Join): Join
    decreases |j.list|
  {
    if j.list != [] && j.list[0] in j.waiting
    then Drain(Join(j.list[1..], j.waiting, j.written + [j.waiting[j.list[0]]]))
    else j
  }

  function Step(wanted: set<Key>, j: Join, row: Row): Outcome {
    if row.key !in wanted then Running(j)
    else if j.list == [] then IndexError
    else if row.key != j.list[0] then Running(Drain(j.(waiting := j.waiting[row.key := row])))
    else Running(Drain(j.(list := j.list[1..], written := j.written + [row])))
  }

  function Keys(rows: seq<Row>): set<Key> {
    set r | r in rows :: r.key
  }

  function Members(list: seq<Key>): set<Key> {
    set k | k in list
  }

  function Run(list: seq<Key>, rows: seq<Row>): Outcome {
    if rows == [] then Running(Join(list, map[], []))
    else
      match Run(list, rows[..|rows| - 1])
      case IndexError => IndexError
      case Running(j) => Step(Members(list), j, rows[|rows| - 1])
  }

  /** The loop over the rows of the dataset. */
  method AlignRows(list: seq<Key>, rows: seq<Row>) returns (outcome: Outcome)
    ensures outcome == Run(list, rows)
  {
    var intersectionList, intersectionMap: map<Key, Row>, written := list, map[], [];
    var intersectionSet := Members(list);
    for t := 0 to |rows|
      invariant Run(list, rows[..t]) == Running(Join(intersectionList, intersectionMap, written))
    {
      var row := rows[t];
      assert rows[..t + 1][..t] == rows[..t];
      if row.key in intersectionSet {
        if intersectionList == [] {
          IndexErrorStays(list, rows, t + 1);
          return IndexError;
        }
        if row.key != intersectionList[0] {
          intersectionMap := intersectionMap[row.key := row];
        } else {
          written := written + [row];
          intersectionList := intersectionList[1..];
        }
        ghost var start := Join(intersectionList, intersectionMap, written);
        while intersectionList != [] && intersectionList[0] in intersectionMap
          invariant Drain(start) == Drain(Join(intersectionList, intersectionMap, written))
          decreases |intersectionList|
        {
          written := written + [intersectionMap[intersectionList[0]]];
          intersectionList := intersectionList[1..];
        }
      }
    }
    assert rows[..|rows|] == rows;
    outcome := Running(Join(intersectionList, intersectionMap, written));
  }

  lemma {:induction false} IndexErrorStays(list: seq<Key>, rows: seq<Row>, t: nat)
    requires t <= |rows| && Run(list, rows[..t]) == IndexError
    ensures Run(list, rows) == IndexError
    decreases |rows| - t
  {
    if t < |rows| {
      assert rows[..t + 1][..t] == rows[..t];
      IndexErrorStays(list, rows, t + 1);
    } else {
      assert rows[..t] == rows;
    }
  }

  /** How many keys at the head of the list have been seen. */
  function SeenPrefix(list: seq<Key>, seen: set<Key>): (m: nat)
    ensures m <= |list|
    ensures forall k | 0 <= k < m :: list[k] in seen
    ensures m < |list| ==> list[m] !in seen
  {
    if list == [] || list[0] !in seen then 0 else 1 + SeenPrefix(list[1..], seen)
  }

  /** The first `m` keys of the list are written, in order, each with a row of the dataset; of the others,
      exactly those seen are waiting. */
  ghost predicate Aligned(list: seq<Key>, rows: seq<Row>, j: Join, m: nat) {
    && m <= |list| && j.list == list[m..] && |j.written| == m
    && (forall k | 0 <= k < m :: j.written[k] in rows && j.written[k].key == list[k])
    && (forall key | key in j.waiting :: key in list && j.waiting[key] in rows && j.waiting[key].key == key)
    && (forall k | m <= k < |list| :: list[k] in j.waiting <==> list[k] in Keys(rows))
    && (forall k | 0 <= k < m :: list[k] in Keys(rows))
  }

  lemma {:induction false} DrainAligns(list: seq<Key>, rows: seq<Row>, j: Join, m: nat) returns (n: nat)
    requires Aligned(list, rows, j, m)
    ensures m <= n && Aligned(list, rows, Drain(j), n)
    ensures n < |list| ==> list[n] !in Drain(j).waiting
    decreases |list| - m
  {
    if m < |list| && list[m] in j.waiting {
      assert j.list[1..] == list[m + 1..];
      n := DrainAligns(list, rows, Join(j.list[1..], j.waiting, j.written + [j.waiting[j.list[0]]]), m + 1);
    } else {
      n := m;
    }
  }

  lemma KeysGrow(rows: seq<Row>, row: Row)
    ensures Keys(rows + [row]) == Keys(rows) + {row.key}
  {
  }

  lemma SeenPrefixIs(list: seq<Key>, seen: set<Key>, n: nat)
    requires n <= |list| && (forall k | 0 <= k < n :: list[k] in seen) && (n < |list| ==> list[n] !in seen)
    ensures SeenPrefix(list, seen) == n
  {
  }

  /** What is written is aligned with the longest prefix of the list that has been seen. */
  ghost predicate InStep(list: seq<Key>, rows: seq<Row>, j: Join) {
    Aligned(list, rows, j, SeenPrefix(list, Keys(rows)))
  }

  /** One row keeps the written rows aligned with the longest prefix seen. */
  lemma {:induction false} StepAligns(list: seq<Key>, rows: seq<Row>, row: Row, j: Join, m: nat)
    requires Combinatorics.Distinct(list) && Aligned(list, rows, j, m) && m == SeenPrefix(list, Keys(rows))
    ensures Step(Members(list), j, row) == IndexError <==> row.key in list && m == |list|
    ensures Step(Members(list), j, row).Running? ==> InStep(list, rows + [row], Step(Members(list), j, row).join)
  {
    KeysGrow(rows, row);
    var rows' := rows + [row];
    assert forall r | r in rows :: r in rows';
    assert row in rows';
    if row.key !in list {
      SeenPrefixIs(list, Keys(rows'), m);
    } else if m < |list| {
      var j', m' := j.(waiting := j.waiting[row.key := row]), m;
      if row.key == list[m] {
        j', m' := j.(list := j.list[1..], written := j.written + [row]), m + 1;
        assert j.list[1..] == list[m + 1..];
      }
      assert Aligned(list, rows', j', m');
      var n := DrainAligns(list, rows', j', m');
      SeenPrefixIs(list, Keys(rows'), n);
    }
  }

  lemma RunSnoc(list: seq<Key>, rows: seq<Row>, row: Row)
    ensures Run(list, rows + [row])
         == if Run(list, rows).Running? then Step(Members(list), Run(list, rows).join, row) else IndexError
  {
  }

  /** At every point of the row stream: the rows written are those of the longest prefix of the list whose
      keys have all been seen, in list order. */
  lemma {:induction false} AlwaysAligned(list: seq<Key>, rows: seq<Row>)
    requires Combinatorics.Distinct(list) && Run(list, rows).Running?
    ensures InStep(list, rows, Run(list, rows).join)
  {
    if rows == [] {
      SeenPrefixIs(list, Keys(rows), 0);
    } else {
      var init, last := rows[..|rows| - 1], rows[|rows| - 1];
      RunSnoc(list, init, last);
      assert init + [last] == rows;
      AlwaysAligned(list, init);
      StepAligns(list, init, last, Run(list, init).join, SeenPrefix(list, Keys(init)));
    }
  }

  /** Some row has a key of the list although every key of the list came before it. */
  ghost predicate ComesTooLate(list: seq<Key>, rows: seq<Row>, t: nat)
    requires t < |rows|
  {
    rows[t].key in list && forall k | k in list :: k in Keys(rows[..t])
  }

  /** The head of the empty list is read exactly when a row of the list comes after all of the list. */
  lemma {:induction false} FailsExactly(list: seq<Key>, rows: seq<Row>)
    requires Combinatorics.Distinct(list)
    ensures Run(list, rows) == IndexError <==> exists t: nat | t < |rows| :: ComesTooLate(list, rows, t)
  {
    if rows != [] {
      var init, last := rows[..|rows| - 1], rows[|rows| - 1];
      FailsExactly(list, init);
      assert init + [last] == rows;
      forall t: nat | t < |init| ensures ComesTooLate(list, init, t) <==> ComesTooLate(list, rows, t) {
        assert init[..t] == rows[..t];
      }
      assert rows[..|rows| - 1] == init;
      if Run(list, init).Running? {
        AlwaysAligned(list, init);
        var m := SeenPrefix(list, Keys(init));
        StepAligns(list, init, last, Run(list, init).join, m);
        assert m == |list| <==> forall k | k in list :: k in Keys(init) by {
          assert m < |list| ==> list[m] in list;
        }
        assert Run(list, rows) == IndexError <==> ComesTooLate(list, rows, |init|);
      }
    }
  }

  predicate DistinctRows(rows: seq<Row>) {
    forall i, j | 0 <= i < j < |rows| :: rows[i].key != rows[j].key
  }

  lemma NotBefore(rows: seq<Row>, t: nat)
    requires DistinctRows(rows) && t < |rows|
    ensures rows[t].key !in Keys(rows[..t])
  {
  }

  /** On a dataset without repeated keys it never fails; what is written is, for every key of the longest
      prefix seen, the one row with that key; and if every key occurs, that is the whole list, in order. */
  lemma DistinctDataset(list: seq<Key>, rows: seq<Row>)
    requires Combinatorics.Distinct(list) && DistinctRows(rows)
    ensures Run(list, rows).Running?
    ensures var written, m := Run(list, rows).join.written, SeenPrefix(list, Keys(rows));
      && |written| == m
      && (forall k, t | 0 <= k < m && 0 <= t < |rows| && rows[t].key == list[k] :: written[k] == rows[t])
      && ((forall k | k in list :: k in Keys(rows)) ==> m == |list|)
  {
    FailsExactly(list, rows);
    forall t: nat | t < |rows| ensures !ComesTooLate(list, rows, t) {
      NotBefore(rows, t);
    }
    AlwaysAligned(list, rows);
    var written, m := Run(list, rows).join.written, SeenPrefix(list, Keys(rows));
    forall k, t | 0 <= k < m && 0 <= t < |rows| && rows[t].key == list[k] ensures written[k] == rows[t] {
      var i :| 0 <= i < |rows| && rows[i] == written[k];
      assert i == t;
    }
    assert m < |list| ==> list[m] in list;
  }

  /** On any list, with repeated keys too: what is written is a beginning of the list, key by key. */
  lemma {:induction false} AlwaysInOrder(list: seq<Key>, rows: seq<Row>)
    requires Run(list, rows).Running?
    ensures WritesPrefix(list, rows, Run(list, rows).join)
  {
    if rows != [] {
      var init, last := rows[..|rows| - 1], rows[|rows| - 1];
      AlwaysInOrder(list, init);
      var j := Run(list, init).join;
      assert forall r | r in init :: r in rows;
      assert last in rows;
      if last.key in list && j.list != [] {
        if last.key != j.list[0] {
          DrainInOrder(list, rows, j.(waiting := j.waiting[last.key := last]));
        } else {
          DrainInOrder(list, rows, j.(list := j.list[1..], written := j.written + [last]));
        }
      }
    }
  }

  ghost predicate WritesPrefix(list: seq<Key>, rows: seq<Row>, j: Join) {
    && |j.written| <= |list| && j.list == list[|j.written|..]
    && (forall k | 0 <= k < |j.written| :: j.written[k] in rows && j.written[k].key == list[k])
    && (forall key | key in j.waiting :: j.waiting[key] in rows && j.waiting[key].key == key)
  }

  lemma {:induction false} DrainInOrder(list: seq<Key>, rows: seq<Row>, j: Join)
    requires WritesPrefix(list, rows, j)
    ensures WritesPrefix(list, rows, Drain(j))
    decreases |j.list|
  {
    if j.list != [] && j.list[0] in j.waiting {
      DrainInOrder(list, rows, Join(j.list[1..], j.waiting, j.written + [j.waiting[j.list[0]]]));
    }
  }

  // Which of several rows of a key is written.

  /** `row` is the last of the rows with the key. */
  ghost predicate IsLatest(rows: seq<Row>, key: Key, row: Row) {
    exists t | 0 <= t < |rows| :: rows[t] == row && row.key == key && forall u | t < u < |rows| :: rows[u].key != key
  }

  /** The row that waits for a place of the list is the latest of its key. */
  ghost predicate LatestWait(list: seq<Key>, rows: seq<Row>, j: Join) {
    && |j.written| <= |list| && j.list == list[|j.written|..]
    && forall k | |j.written| <= k < |list| && list[k] in j.waiting :: IsLatest(rows, list[k], j.waiting[list[k]])
  }

  /** From `j` on, the rows written are the latest of their keys. */
  ghost predicate WritesLatest(list: seq<Key>, rows: seq<Row>, j: Join, next: Join) {
    && |j.written| <= |next.written| <= |list| && next.written[..|j.written|] == j.written
    && forall k | |j.written| <= k < |next.written| :: IsLatest(rows, list[k], next.written[k])
  }

  lemma {:induction false} DrainWritesLatest(list: seq<Key>, rows: seq<Row>, j: Join)
    requires LatestWait(list, rows, j)
    ensures LatestWait(list, rows, Drain(j)) && WritesLatest(list, rows, j, Drain(j))
    decreases |j.list|
  {
    if j.list != [] && j.list[0] in j.waiting {
      var next := Join(j.list[1..], j.waiting, j.written + [j.waiting[j.list[0]]]);
      assert j.list[0] == list[|j.written|];
      DrainWritesLatest(list, rows, next);
      assert Drain(j).written[..|j.written|] == next.written[..|j.written|] == j.written;
    }
  }

  lemma LaterRow(rows: seq<Row>, row: Row, key: Key)
    ensures row.key == key ==> IsLatest(rows + [row], key, row)
    ensures row.key != key ==> forall r :: IsLatest(rows, key, r) ==> IsLatest(rows + [row], key, r)
  {
    var rows' := rows + [row];
    if row.key == key {
      assert rows'[|rows|] == row;
    } else {
      forall r | IsLatest(rows, key, r) ensures IsLatest(rows', key, r) {
        var t :| 0 <= t < |rows| && rows[t] == r && r.key == key && forall u | t < u < |rows| :: rows[u].key != key;
        assert rows'[t] == r;
      }
    }
  }

  lemma StepWritesLatest(list: seq<Key>, rows: seq<Row>, row: Row, j: Join)
    requires Combinatorics.Distinct(list) && LatestWait(list, rows, j) && Step(Members(list), j, row).Running?
    ensures var next := Step(Members(list), j, row).join;
      LatestWait(list, rows + [row], next) && WritesLatest(list, rows + [row], j, next)
  {
    forall k | 0 <= k < |list|
      ensures list[k] == row.key ==> IsLatest(rows + [row], list[k], row)
      ensures list[k] != row.key ==> forall r :: IsLatest(rows, list[k], r) ==> IsLatest(rows + [row], list[k], r)
    {
      LaterRow(rows, row, list[k]);
    }
    if row.key in list {
      var m := |j.written|;
      if row.key != j.list[0] {
        DrainWritesLatest(list, rows + [row], j.(waiting := j.waiting[row.key := row]));
      } else {
        var next := j.(list := j.list[1..], written := j.written + [row]);
        assert j.list[0] == list[m];
        DrainWritesLatest(list, rows + [row], next);
        assert Drain(next).written[..m] == next.written[..m] == j.written;
      }
    }
  }

  lemma {:induction false} LatestWaitAlways(list: seq<Key>, rows: seq<Row>)
    requires Combinatorics.Distinct(list) && Run(list, rows).Running?
    ensures LatestWait(list, rows, Run(list, rows).join)
  {
    if rows != [] {
      var init, last := rows[..|rows| - 1], rows[|rows| - 1];
      LatestWaitAlways(list, init);
      RunSnoc(list, init, last);
      assert init + [last] == rows;
      StepWritesLatest(list, init, last, Run(list, init).join);
    }
  }

  /** What has been written stays. */
  lemma {:induction false} WrittenStays(list: seq<Key>, rows: seq<Row>, t: nat)
    requires Combinatorics.Distinct(list) && t <= |rows| && Run(list, rows).Running?
    ensures Run(list, rows[..t]).Running?
    ensures var before, after := Run(list, rows[..t]).join.written, Run(list, rows).join.written;
      |before| <= |after| && after[..|before|] == before
    decreases |rows| - t
  {
    if t == |rows| {
      assert rows[..t] == rows;
    } else {
      if Run(list, rows[..t]).IndexError? {
        IndexErrorStays(list, rows, t);
      }
      WrittenStays(list, rows, t + 1);
      var init, row := rows[..t], rows[t];
      assert rows[..t + 1] == init + [row];
      RunSnoc(list, init, row);
      LatestWaitAlways(list, init);
      StepWritesLatest(list, init, row, Run(list, init).join);
    }
  }

  /** When row `t` makes the longest seen prefix reach beyond place `k`, the latest row so far of the key there is
      written. So the rows determine what is written, repeated keys or not. */
  lemma WritesLatestRow(list: seq<Key>, rows: seq<Row>, t: nat, k: nat)
    requires Combinatorics.Distinct(list) && Run(list, rows).Running? && t < |rows|
    requires SeenPrefix(list, Keys(rows[..t])) <= k < SeenPrefix(list, Keys(rows[..t + 1]))
    ensures var written := Run(list, rows).join.written;
      k < |written| && k < |list| && IsLatest(rows[..t + 1], list[k], written[k])
  {
    WrittenStays(list, rows, t);
    WrittenStays(list, rows, t + 1);
    AlwaysAligned(list, rows[..t]);
    AlwaysAligned(list, rows[..t + 1]);
    LatestAtOnce(list, rows, t, k);
    var before, after := Run(list, rows[..t + 1]).join.written, Run(list, rows).join.written;
    assert after[k] == after[..|before|][k] == before[k];
  }

  lemma LatestAtOnce(list: seq<Key>, rows: seq<Row>, t: nat, k: nat)
    requires Combinatorics.Distinct(list) && t < |rows| && Run(list, rows[..t]).Running? && Run(list, rows[..t + 1]).Running?
    requires |Run(list, rows[..t]).join.written| <= k < |Run(list, rows[..t + 1]).join.written|
    ensures k < |list| && IsLatest(rows[..t + 1], list[k], Run(list, rows[..t + 1]).join.written[k])
  {
    var init, row := rows[..t], rows[t];
    assert rows[..t + 1] == init + [row];
    RunSnoc(list, init, row);
    LatestWaitAlways(list, init);
    StepWritesLatest(list, init, row, Run(list, init).join);
  }

  /** One key, two rows of it: the second row makes the loop read the head of the empty list. */
  lemma RepeatedRowFails()
    ensures Run(["a"], [Row("a", ["1"]), Row("a", ["2"])]) == IndexError
  {
    var rows := [Row("a", ["1"]), Row("a", ["2"])];
    assert rows[0].key in ["a"] && rows[..1] == [rows[0]];
    assert rows[0] in rows[..1] && rows[0].key in Keys(rows[..1]);
    assert ComesTooLate(["a"], rows, 1);
    FailsExactly(["a"], rows);
  }
}
