/**
 The local minimum or maximum of a column that comes in chunks, and the statistic of all three
 parties that is built on it. Values are exact numbers.
 */
module ColumnExtremes {
  import opened MinMaxProtocol

  function Pow2(n: nat): (p: real)
    ensures p > 0.0
  {
    if n == 0 then 1.0 else 2.0 * Pow2(n - 1)
  }

  /** The largest double, and the smallest positive normal one. */
  ghost const LARGEST_DOUBLE: real := (2.0 - 1.0 / Pow2(52)) * Pow2(1023)
  ghost const SMALLEST_DOUBLE: real := 1.0 / Pow2(1022)

  /** The type of a column; `Missing` when the table has no column of the name. */
  datatype Kind = Int32 | Int64 | Double | Unsupported | Missing

  datatype ColumnData = ColumnData(kind: Kind, chunks: seq<seq<real>>)

  /** The two double limits, which a run is given as numbers. */
  datatype Limits = Limits(largest: real, smallest: real)

  ghost predicate DoubleLimits(l: Limits) {
    l.largest == LARGEST_DOUBLE && l.smallest == SMALLEST_DOUBLE
  }

  /** What an accumulator of a kind starts from. */
  function InitValue(l: Limits, kind: Kind, isMax: bool): real {
    match kind
    case Int32 => if isMax then -2147483648.0 else 2147483647.0
    case Int64 => if isMax then -9223372036854775808.0 else 9223372036854775807.0
    case _ => if isMax then l.smallest else l.largest
  }

  function All(chunks: seq<seq<real>>): seq<real> {
    if chunks == [] then [] else All(chunks[..|chunks| - 1]) + chunks[|chunks| - 1]
  }

  predicate InRange(l: Limits, kind: Kind, x: real) {
    match kind
    case Int32 => -2147483648.0 <= x <= 2147483647.0
    case Int64 => -9223372036854775808.0 <= x <= 9223372036854775807.0
    case _ => x <= l.largest
  }

  ghost predicate ValidData(l: Limits, c: ColumnData) {
    && (forall k | 0 <= k < |All(c.chunks)| :: InRange(l, c.kind, All(c.chunks)[k]) && All(c.chunks)[k] <= l.largest)
    && !c.kind.Unsupported? && !c.kind.Missing?
  }

  /** The best of some values and a starting one. */
  function Fold(isMax: bool, init: real, values: seq<real>): real {
    if values == [] then init else Best(isMax, Fold(isMax, init, values[..|values| - 1]), values[|values| - 1])
  }

  function ChunkFold(l: Limits, isMax: bool, kind: Kind, chunks: seq<seq<real>>): real {
    if chunks == [] then InitValue(l, Double, isMax)
    else Best(isMax, ChunkFold(l, isMax, kind, chunks[..|chunks| - 1]),
              Fold(isMax, InitValue(l, kind, isMax), chunks[|chunks| - 1]))
  }

  /** The loop over the values of one chunk. */
  method MinOrMax(isMax: bool, values: seq<real>, init: real) returns (val: real)
    ensures val == Fold(isMax, init, values)
  {
    val := init;
    for i := 0 to |values|
      invariant val == Fold(isMax, init, values[..i])
    {
      assert values[..i + 1][..i] == values[..i];
      if isMax {
        if val <= values[i] {
          val := values[i];
        }
      } else {
        if val >= values[i] {
          val := values[i];
        }
      }
    }
    assert values[..|values|] == values;
  }

  predicate IsSupported(c: ColumnData) {
    !c.kind.Missing? && (c.kind.Unsupported? ==> c.chunks == [])
  }

  /** The loop over the chunks of one column; fails without the column, and at the first chunk of an unsupported one. */
  method ColumnResult(l: Limits, isMax: bool, c: ColumnData) returns (ok: bool, result: real)
    ensures ok <==> IsSupported(c)
    ensures ok ==> result == ChunkFold(l, isMax, c.kind, c.chunks)
  {
    result := InitValue(l, Double, isMax);
    if c.kind.Missing? {
      return false, result;
    }
    for i := 0 to |c.chunks|
      invariant c.kind.Unsupported? ==> i == 0
      invariant result == ChunkFold(l, isMax, c.kind, c.chunks[..i])
    {
      if c.kind.Unsupported? {
        return false, result;
      }
      assert c.chunks[..i + 1][..i] == c.chunks[..i];
      var val := MinOrMax(isMax, c.chunks[i], InitValue(l, c.kind, isMax));
      if isMax {
        if result < val {
          result := val;
        }
      } else {
        if result > val {
          result := val;
        }
      }
    }
    assert c.chunks[..|c.chunks|] == c.chunks;
    ok := true;
  }

  /** All columns of one party. */
  method PlainTextDataCompute(l: Limits, isMax: bool, table: seq<ColumnData>) returns (ok: bool, results: seq<real>)
    ensures ok <==> Supported(table)
    ensures ok ==> results == LocalResults(l, isMax, table)
  {
    results := [];
    for i := 0 to |table|
      invariant |results| == i
      invariant forall k | 0 <= k < i :: IsSupported(table[k])
      invariant forall k | 0 <= k < i :: results[k] == ChunkFold(l, isMax, table[k].kind, table[k].chunks)
    {
      var fine, result := ColumnResult(l, isMax, table[i]);
      if !fine {
        return false, [];
      }
      results := results + [result];
    }
    ok := true;
  }

  function LocalResults(l: Limits, isMax: bool, table: seq<ColumnData>): (r: seq<real>)
    ensures |r| == |table|
    ensures forall k | 0 <= k < |table| :: r[k] == ChunkFold(l, isMax, table[k].kind, table[k].chunks)
  {
    seq(|table|, k requires 0 <= k < |table| => ChunkFold(l, isMax, table[k].kind, table[k].chunks))
  }

  // What the folds mean.

  lemma {:induction false} FoldIsBound(isMax: bool, init: real, values: seq<real>)
    ensures Fold(isMax, init, values) == init || Fold(isMax, init, values) in values
    ensures forall x | x in values :: if isMax then x <= Fold(isMax, init, values) else Fold(isMax, init, values) <= x
    ensures if isMax then init <= Fold(isMax, init, values) else Fold(isMax, init, values) <= init
  {
    if values != [] {
      var front, last := values[..|values| - 1], values[|values| - 1];
      FoldIsBound(isMax, init, front);
      assert values == front + [last];
    }
  }

  /** The numbers that accumulators of a column start from: one for the column, one for each of its chunks. */
  function Starts(l: Limits, isMax: bool, c: ColumnData): seq<real> {
    [InitValue(l, Double, isMax)] + if c.chunks == [] then [] else [InitValue(l, c.kind, isMax)]
  }

  predicate IsExtreme(isMax: bool, m: real, values: seq<real>) {
    if isMax then IsMaximum(m, values) else IsMinimum(m, values)
  }

  predicate NoWorse(isMax: bool, x: real, y: real) {
    if isMax then y <= x else x <= y
  }

  /** No value is better than a column's result, which is a value or the start of an accumulator: however the column
      is cut into chunks, the result is the best of these. */
  lemma {:induction false} LocalIsExtreme(l: Limits, isMax: bool, c: ColumnData)
    ensures IsExtreme(isMax, ChunkFold(l, isMax, c.kind, c.chunks), All(c.chunks) + Starts(l, isMax, c))
    decreases |c.chunks|
  {
    if c.chunks != [] {
      var front, last := c.(chunks := c.chunks[..|c.chunks| - 1]), c.chunks[|c.chunks| - 1];
      LocalIsExtreme(l, isMax, front);
      FoldIsBound(isMax, InitValue(l, c.kind, isMax), last);
      JoinExtremes(isMax, ChunkFold(l, isMax, c.kind, front.chunks), Fold(isMax, InitValue(l, c.kind, isMax), last),
                   All(front.chunks) + Starts(l, isMax, front), last + [InitValue(l, c.kind, isMax)],
                   All(c.chunks) + Starts(l, isMax, c));
    }
  }

  /** The local minimum of a column with a value is its minimum. */
  lemma LocalMinimum(l: Limits, c: ColumnData)
    requires ValidData(l, c) && All(c.chunks) != []
    ensures IsMinimum(ChunkFold(l, false, c.kind, c.chunks), All(c.chunks))
  {
    LocalIsExtreme(l, false, c);
    var x := All(c.chunks)[0];
    assert InRange(l, c.kind, x) && x in All(c.chunks);
    BelowStarts(l, c, x);
    BestOfBoth(false, ChunkFold(l, false, c.kind, c.chunks), All(c.chunks), Starts(l, false, c));
  }

  /** The local maximum is the maximum of the values and the smallest positive double. */
  lemma LocalMaximum(l: Limits, c: ColumnData)
    requires l.smallest > 0.0
    ensures IsMaximum(ChunkFold(l, true, c.kind, c.chunks), All(c.chunks) + [l.smallest])
  {
    LocalIsExtreme(l, true, c);
    var values, starts := All(c.chunks), Starts(l, true, c);
    assert starts[0] == l.smallest && forall start | start in starts :: start <= l.smallest;
    var m := ChunkFold(l, true, c.kind, c.chunks);
    assert l.smallest in starts && l.smallest in values + starts && l.smallest <= m;
    assert m in values || m in starts;
    assert (values + [l.smallest])[|values|] == l.smallest;
    forall x | x in values + [l.smallest] ensures x in values + starts {
      assert x in values || x == l.smallest;
    }
    assert m in values ==> m in values + [l.smallest];
  }

  /** The better of two extremes is the extreme of all values. */
  lemma JoinExtremes(isMax: bool, m: real, n: real, a: seq<real>, b: seq<real>, all: seq<real>)
    requires IsExtreme(isMax, m, a) && IsExtreme(isMax, n, b) && forall x :: x in all <==> x in a || x in b
    ensures IsExtreme(isMax, Best(isMax, m, n), all)
  {
  }

  // The statistic over all parties.

  predicate Supported(table: seq<ColumnData>) {
    forall k | 0 <= k < |table| :: IsSupported(table[k])
  }

  /** The three local computations and the protocol, which runs when every party's computation succeeds. */
  method RunStatistic(l: Limits, isMax: bool, t0: seq<ColumnData>, t1: seq<ColumnData>, t2: seq<ColumnData>)
    returns (ok: bool, results: seq<real>)
    requires |t0| == |t1| == |t2|
    ensures ok <==> forall c | c in t0 + t1 + t2 ::
                      c.kind in {Int32, Int64, Double} || (c.kind == Unsupported && c.chunks == [])
    ensures ok ==> |results| == |t0|
                   && forall k | 0 <= k < |t0| :: results[k] == GlobalResult(l, isMax, t0[k], t1[k], t2[k])
  {
    var ok0, x := PlainTextDataCompute(l, isMax, t0);
    var ok1, y := PlainTextDataCompute(l, isMax, t1);
    var ok2, z := PlainTextDataCompute(l, isMax, t2);
    SupportedKinds(t0, t1, t2);
    if !(ok0 && ok1 && ok2) {
      return false, [];
    }
    var inStep, rx, ry, rz := RunProtocol(isMax, x, y, z);
    return inStep, rx;
  }

  lemma SupportedKinds(t0: seq<ColumnData>, t1: seq<ColumnData>, t2: seq<ColumnData>)
    ensures Supported(t0) && Supported(t1) && Supported(t2)
       <==> forall c | c in t0 + t1 + t2 ::
              c.kind in {Int32, Int64, Double} || (c.kind == Unsupported && c.chunks == [])
  {
    var all := t0 + t1 + t2;
    forall c | c in all ensures IsSupported(c) <==> c.kind in {Int32, Int64, Double} || (c.kind == Unsupported && c.chunks == []) {
    }
    assert forall k | 0 <= k < |t0| :: t0[k] in all;
    assert forall k | 0 <= k < |t1| :: t1[k] in all;
    assert forall k | 0 <= k < |t2| :: t2[k] in all;
    assert forall c | c in all :: c in t0 || c in t1 || c in t2;
  }

  function GlobalResult(l: Limits, isMax: bool, c0: ColumnData, c1: ColumnData, c2: ColumnData): real {
    Best3(isMax, ChunkFold(l, isMax, c0.kind, c0.chunks), ChunkFold(l, isMax, c1.kind, c1.chunks),
          ChunkFold(l, isMax, c2.kind, c2.chunks))
  }

  function Everything(c0: ColumnData, c1: ColumnData, c2: ColumnData): seq<real> {
    All(c0.chunks) + All(c1.chunks) + All(c2.chunks)
  }

  function EveryStart(l: Limits, isMax: bool, c0: ColumnData, c1: ColumnData, c2: ColumnData): seq<real> {
    Starts(l, isMax, c0) + Starts(l, isMax, c1) + Starts(l, isMax, c2)
  }

  /** The result is the best of all rows of all parties and all starts. */
  lemma GlobalIsExtreme(l: Limits, isMax: bool, c0: ColumnData, c1: ColumnData, c2: ColumnData)
    ensures IsExtreme(isMax, GlobalResult(l, isMax, c0, c1, c2), Everything(c0, c1, c2) + EveryStart(l, isMax, c0, c1, c2))
  {
    LocalIsExtreme(l, isMax, c0);
    LocalIsExtreme(l, isMax, c1);
    LocalIsExtreme(l, isMax, c2);
    var r0, r1, r2 := ChunkFold(l, isMax, c0.kind, c0.chunks), ChunkFold(l, isMax, c1.kind, c1.chunks),
                      ChunkFold(l, isMax, c2.kind, c2.chunks);
    var a, b, c := All(c0.chunks) + Starts(l, isMax, c0), All(c1.chunks) + Starts(l, isMax, c1),
                   All(c2.chunks) + Starts(l, isMax, c2);
    JoinExtremes(isMax, r0, r1, a, b, a + b);
    JoinExtremes(isMax, Best(isMax, r0, r1), r2, a + b, c, Everything(c0, c1, c2) + EveryStart(l, isMax, c0, c1, c2));
  }

  /** For any columns, empty ones too, the result is the extreme of all rows exactly when some row is no worse than
      every start. */
  lemma ExtremeExactly(l: Limits, isMax: bool, c0: ColumnData, c1: ColumnData, c2: ColumnData)
    ensures IsExtreme(isMax, GlobalResult(l, isMax, c0, c1, c2), Everything(c0, c1, c2))
        <==> exists x | x in Everything(c0, c1, c2) ::
               forall start | start in EveryStart(l, isMax, c0, c1, c2) :: NoWorse(isMax, x, start)
  {
    GlobalIsExtreme(l, isMax, c0, c1, c2);
    BestOfBoth(isMax, GlobalResult(l, isMax, c0, c1, c2), Everything(c0, c1, c2), EveryStart(l, isMax, c0, c1, c2));
  }

  lemma BestOfBoth(isMax: bool, m: real, values: seq<real>, starts: seq<real>)
    requires IsExtreme(isMax, m, values + starts)
    ensures IsExtreme(isMax, m, values)
        <==> exists x | x in values :: forall start | start in starts :: NoWorse(isMax, x, start)
  {
    forall x | x in values + starts ensures NoWorse(isMax, m, x) {}
    if x :| x in values && forall start | start in starts :: NoWorse(isMax, x, start) {
      assert x in values + starts;
      assert m in values || m == x;
    }
    if m in values {
      assert forall start | start in starts :: start in values + starts && NoWorse(isMax, m, start);
    }
    assert forall x | x in values :: x in values + starts;
  }

  /** A value no more than the largest one of its column's kind is no more than any start of the column. */
  lemma BelowStarts(l: Limits, c: ColumnData, x: real)
    requires x <= InitValue(l, c.kind, false) && x <= l.largest
    ensures forall start | start in Starts(l, false, c) :: x <= start
  {
  }

  lemma AllStarts(l: Limits, isMax: bool, c0: ColumnData, c1: ColumnData, c2: ColumnData, x: real)
    requires forall start | start in Starts(l, isMax, c0) :: NoWorse(isMax, x, start)
    requires forall start | start in Starts(l, isMax, c1) :: NoWorse(isMax, x, start)
    requires forall start | start in Starts(l, isMax, c2) :: NoWorse(isMax, x, start)
    ensures forall start | start in EveryStart(l, isMax, c0, c1, c2) :: NoWorse(isMax, x, start)
  {
  }

  /** MIN: when every party has a value, the result is the minimum over all rows of all chunks of all parties. */
  lemma GlobalMinimum(l: Limits, c0: ColumnData, c1: ColumnData, c2: ColumnData)
    requires ValidData(l, c0) && ValidData(l, c1) && ValidData(l, c2)
    requires All(c0.chunks) != [] && All(c1.chunks) != [] && All(c2.chunks) != []
    ensures IsMinimum(GlobalResult(l, false, c0, c1, c2), Everything(c0, c1, c2))
  {
    ExtremeExactly(l, false, c0, c1, c2);
    var x0, x1, x2 := All(c0.chunks)[0], All(c1.chunks)[0], All(c2.chunks)[0];
    assert InRange(l, c0.kind, x0) && InRange(l, c1.kind, x1) && InRange(l, c2.kind, x2);
    var x := Best3(false, x0, x1, x2);
    assert x <= x0 && x <= x1 && x <= x2 && (x == x0 || x == x1 || x == x2);
    assert x0 in All(c0.chunks) && x1 in All(c1.chunks) && x2 in All(c2.chunks);
    assert x in Everything(c0, c1, c2);
    BelowStarts(l, c0, x);
    BelowStarts(l, c1, x);
    BelowStarts(l, c2, x);
    AllStarts(l, false, c0, c1, c2, x);
  }

  /** MIN of columns of one kind: it is the minimum as soon as one party has a value. */
  lemma MinimumOfOneKind(l: Limits, c0: ColumnData, c1: ColumnData, c2: ColumnData)
    requires ValidData(l, c0) && ValidData(l, c1) && ValidData(l, c2) && c0.kind == c1.kind == c2.kind
    requires Everything(c0, c1, c2) != []
    ensures IsMinimum(GlobalResult(l, false, c0, c1, c2), Everything(c0, c1, c2))
  {
    ExtremeExactly(l, false, c0, c1, c2);
    var x := Everything(c0, c1, c2)[0];
    assert x in Everything(c0, c1, c2);
    InSomeColumn(l, c0, c1, c2, x);
    BelowStarts(l, c0, x);
    BelowStarts(l, c1, x);
    BelowStarts(l, c2, x);
    AllStarts(l, false, c0, c1, c2, x);
  }

  lemma InSomeColumn(l: Limits, c0: ColumnData, c1: ColumnData, c2: ColumnData, x: real)
    requires ValidData(l, c0) && ValidData(l, c1) && ValidData(l, c2) && x in Everything(c0, c1, c2)
    ensures x <= l.largest && (InRange(l, c0.kind, x) || InRange(l, c1.kind, x) || InRange(l, c2.kind, x))
  {
    assert x in All(c0.chunks) || x in All(c1.chunks) || x in All(c2.chunks);
  }

  /** An empty chunk of 32-bit integers counts as 2147483647, which is less than the one value of the other parties. */
  lemma EmptyChunkCounts(l: Limits)
    requires l.largest >= 2147483648.0
    ensures var c0, c1, c2 := ColumnData(Int32, [[]]), ColumnData(Int64, [[2147483648.0]]), ColumnData(Int64, []);
      && ValidData(l, c0) && ValidData(l, c1) && ValidData(l, c2)
      && GlobalResult(l, false, c0, c1, c2) == 2147483647.0
      && !IsMinimum(GlobalResult(l, false, c0, c1, c2), Everything(c0, c1, c2))
  {
    var c0, c1, c2 := ColumnData(Int32, [[]]), ColumnData(Int64, [[2147483648.0]]), ColumnData(Int64, []);
    OneChunk(l, false, Int32, []);
    OneChunk(l, false, Int64, [2147483648.0]);
    assert Fold(false, InitValue(l, Int64, false), [2147483648.0]) == 2147483648.0;
    assert Everything(c0, c1, c2) == [2147483648.0];
  }

  /** What one empty chunk of each kind counts as, and no chunk at all. */
  lemma EmptyChunks(l: Limits)
    requires l.largest >= 9223372036854775807.0 && 0.0 < l.smallest
    ensures ChunkFold(l, false, Int32, [[]]) == 2147483647.0 && ChunkFold(l, false, Int64, [[]]) == 9223372036854775807.0
    ensures ChunkFold(l, false, Double, [[]]) == l.largest && forall kind :: ChunkFold(l, false, kind, []) == l.largest
    ensures forall kind :: ChunkFold(l, true, kind, [[]]) == ChunkFold(l, true, kind, []) == l.smallest
  {
    forall isMax, kind
      ensures ChunkFold(l, isMax, kind, [[]]) == Best(isMax, InitValue(l, Double, isMax), InitValue(l, kind, isMax))
    {
      OneChunk(l, isMax, kind, []);
    }
  }

  lemma OneChunk(l: Limits, isMax: bool, kind: Kind, values: seq<real>)
    ensures ChunkFold(l, isMax, kind, [values])
         == Best(isMax, InitValue(l, Double, isMax), Fold(isMax, InitValue(l, kind, isMax), values))
    ensures All([values]) == values
  {
    assert [values][..0] == [];
  }

  /** MAX: the result is the maximum over all rows exactly when some row reaches the smallest positive double;
      otherwise it is that double, which is in no row. */
  lemma GlobalMaximum(l: Limits, c0: ColumnData, c1: ColumnData, c2: ColumnData)
    requires ValidData(l, c0) && ValidData(l, c1) && ValidData(l, c2) && DoubleLimits(l)
    ensures IsMaximum(GlobalResult(l, true, c0, c1, c2), Everything(c0, c1, c2))
        <==> exists x | x in Everything(c0, c1, c2) :: x >= l.smallest
    ensures (forall x | x in Everything(c0, c1, c2) :: x < l.smallest) ==> GlobalResult(l, true, c0, c1, c2) == l.smallest
  {
    SmallestIsPositive();
    GlobalIsExtreme(l, true, c0, c1, c2);
    ExtremeExactly(l, true, c0, c1, c2);
    MaximumStarts(l, c0, c1, c2);
    assert l.smallest in Everything(c0, c1, c2) + EveryStart(l, true, c0, c1, c2);
  }

  /** Of all the starts of a maximum, the smallest positive double is the largest. */
  lemma MaximumStarts(l: Limits, c0: ColumnData, c1: ColumnData, c2: ColumnData)
    requires l.smallest > 0.0
    ensures l.smallest in EveryStart(l, true, c0, c1, c2)
    ensures forall start | start in EveryStart(l, true, c0, c1, c2) :: start <= l.smallest
  {
    assert EveryStart(l, true, c0, c1, c2)[0] == l.smallest;
    AllStarts(l, true, c0, c1, c2, l.smallest);
  }

  lemma SmallestIsPositive()
    ensures SMALLEST_DOUBLE > 0.0
  {
  }

  /** One row of -1 at every party: the result is the smallest positive double, which is no row. */
  lemma NegativeMaximum(l: Limits)
    requires DoubleLimits(l)
    ensures var c := ColumnData(Double, [[-1.0]]);
      GlobalResult(l, true, c, c, c) == l.smallest && !IsMaximum(l.smallest, Everything(c, c, c))
  {
    SmallestIsPositive();
    OneChunk(l, true, Double, [-1.0]);
    assert [-1.0][..0] == [];
    var c := ColumnData(Double, [[-1.0]]);
    assert Everything(c, c, c) == [-1.0, -1.0, -1.0];
  }
}
