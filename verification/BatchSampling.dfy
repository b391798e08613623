/**
 Mini-batches drawn without replacement: a cursor runs over a pool of row numbers, which is
 reshuffled whenever the cursor reaches its end.
 */
module BatchSampling {
  import opened Combinatorics

  function Flatten(rounds: seq<seq<int>>): seq<int> {
    if rounds == [] then [] else Flatten(rounds[..|rounds| - 1]) + rounds[|rounds| - 1]
  }

  /** Whole permutations of the pool, and then the beginning of one more. */
  ghost predicate IsFair(drawn: seq<int>, pool: seq<int>, rounds: seq<seq<int>>, tail: seq<int>) {
    && (forall k | 0 <= k < |rounds| :: multiset(rounds[k]) == multiset(pool))
    && (exists rest: seq<int> :: multiset(tail + rest) == multiset(pool))
    && drawn == Flatten(rounds) + tail
  }

  class Sampler {
    const pool: array<int>
    var cursor: nat
    ghost const rows: seq<int>
    ghost var drawn: seq<int>
    ghost var rounds: seq<seq<int>>

    /** The cursor stands at the end only before the first draw, and in an empty pool. */
    ghost predicate Valid()
      reads this, pool
    {
      && cursor <= pool.Length
      && multiset(pool[..]) == multiset(rows)
      && (forall k | 0 <= k < |rounds| :: multiset(rounds[k]) == multiset(rows))
      && if cursor == pool.Length then rounds == [] && drawn == [] else drawn == Flatten(rounds) + pool[..cursor]
    }

    constructor (n: nat)
      ensures Valid() && cursor == pool.Length == n && rows == UpTo(n) && drawn == [] && fresh(pool)
    {
      pool := new int[n](i => i);
      cursor := n;
      rows := UpTo(n);
      drawn, rounds := [], [];
      new;
      assert pool[..] == UpTo(n);
    }

    /** Any rearrangement of the pool may come out. */
    method Shuffle()
      modifies pool
      ensures multiset(pool[..]) == old(multiset(pool[..]))
    {
      var p := Rearrangement(pool[..]);
      assert |multiset(p)| == |p| && |multiset(pool[..])| == pool.Length;
      for i := 0 to pool.Length
        invariant pool[..i] == p[..i]
      {
        pool[i] := p[i];
      }
      assert pool[..] == pool[..pool.Length] && p == p[..|p|];
    }

    /** Fills `dest`, however much longer than the pool it is. A round that only reshuffles fills nothing,
        but cannot come twice in a row, unless the pool is empty. */
    method GetSubset(dest: array<int>)
      requires Valid() && dest != pool && (pool.Length == 0 ==> dest.Length == 0)
      modifies this`cursor, this`drawn, this`rounds, pool, dest
      ensures Valid()
      ensures drawn == old(drawn) + dest[..]
    {
      var i := 0;
      while i < dest.Length
        invariant Valid() && i <= dest.Length
        invariant drawn == old(drawn) + dest[..i]
        decreases dest.Length - i, if cursor == pool.Length then 1 else 0
      {
        ghost var before := dest[..i];
        var step := Advance(dest, i);
        assert dest[..i + step] == before + dest[i..i + step];
        i := i + step;
      }
      assert dest[..dest.Length] == dest[..];
    }

    /** One round of the loop: draws to the end of the batch or of the pool, and reshuffles there. On an empty pool it
        changes nothing, so that the loop would go on for ever. */
    method Advance(dest: array<int>, i: nat) returns (step: nat)
      requires Valid() && dest != pool && i < dest.Length
      modifies this`cursor, this`drawn, this`rounds, pool, dest
      ensures Valid() && i + step <= dest.Length
      ensures if pool.Length == 0 then step == 0 && cursor == old(cursor) else cursor < pool.Length
      ensures dest[..i] == old(dest[..i]) && dest[i + step..] == old(dest[i + step..])
      ensures drawn == old(drawn) + dest[i..i + step]
      ensures step > 0 || old(cursor) == pool.Length
    {
      step := if pool.Length - cursor <= dest.Length - i then pool.Length - cursor else dest.Length - i;
      Copy(dest, i, step);
      Draw(step);
      if cursor == pool.Length {
        Restart(step > 0);
      }
    }

    /** Moves the cursor past what was copied. */
    method Draw(step: nat)
      requires Valid() && cursor + step <= pool.Length
      modifies this`cursor, this`drawn
      ensures cursor == old(cursor) + step && drawn == old(drawn) + pool[old(cursor)..cursor]
      ensures if step > 0 || cursor < pool.Length then drawn == Flatten(rounds) + pool[..cursor]
              else rounds == [] && drawn == []
    {
      assert pool[..cursor + step] == pool[..cursor] + pool[cursor..cursor + step];
      drawn := drawn + pool[cursor..cursor + step];
      cursor := cursor + step;
    }

    /** At the end of the pool: a round is complete, if any of it was drawn, and the next is shuffled. */
    method Restart(ghost complete: bool)
      requires cursor == pool.Length && multiset(pool[..]) == multiset(rows)
      requires forall k | 0 <= k < |rounds| :: multiset(rounds[k]) == multiset(rows)
      requires pool.Length == 0 ==> !complete
      requires if complete then drawn == Flatten(rounds) + pool[..cursor] else rounds == [] && drawn == []
      modifies this`cursor, this`rounds, pool
      ensures Valid() && cursor == 0
    {
      if complete {
        assert pool[..cursor] == pool[..];
        FlattenSnoc(rounds, pool[..]);
        rounds := rounds + [pool[..]];
      }
      Shuffle();
      cursor := 0;
      assert drawn == Flatten(rounds) + pool[..0];
    }

    method Copy(dest: array<int>, i: nat, step: nat)
      requires dest != pool && i + step <= dest.Length && cursor + step <= pool.Length
      modifies dest
      ensures dest[..i] == old(dest[..i]) && dest[i..i + step] == pool[cursor..cursor + step]
      ensures dest[i + step..] == old(dest[i + step..])
    {
      for k := 0 to step
        invariant dest[..i] == old(dest[..i]) && dest[i..i + k] == pool[cursor..cursor + k]
        invariant dest[i + k..] == old(dest[i + k..])
      {
        dest[i + k] := pool[cursor + k];
      }
    }
  }

  method Rearrangement(s: seq<int>) returns (p: seq<int>)
    ensures multiset(p) == multiset(s)
  {
    p :| multiset(p) == multiset(s);
  }

  lemma FlattenSnoc(rounds: seq<seq<int>>, round: seq<int>)
    ensures Flatten(rounds + [round]) == Flatten(rounds) + round
  {
  }

  // How often each row has been drawn.

  lemma {:induction false} DistinctCounts(s: seq<int>, x: int)
    requires Distinct(s)
    ensures multiset(s)[x] == if x in s then 1 else 0
  {
    if s != [] {
      var init, last := s[..|s| - 1], s[|s| - 1];
      assert s == init + [last] && last !in init;
      DistinctCounts(init, x);
    }
  }

  lemma {:induction false} FlattenCounts(rounds: seq<seq<int>>, pool: seq<int>, x: int)
    requires Distinct(pool) && x in pool
    requires forall k | 0 <= k < |rounds| :: multiset(rounds[k]) == multiset(pool)
    ensures multiset(Flatten(rounds))[x] == |rounds|
  {
    if rounds != [] {
      FlattenCounts(rounds[..|rounds| - 1], pool, x);
      DistinctCounts(pool, x);
    }
  }

  lemma {:induction false} FlattenLength(rounds: seq<seq<int>>, n: nat)
    requires forall k | 0 <= k < |rounds| :: |rounds[k]| == n
    ensures |Flatten(rounds)| == |rounds| * n
  {
    if rounds != [] {
      FlattenLength(rounds[..|rounds| - 1], n);
      assert |rounds| * n == (|rounds| - 1) * n + n;
    }
  }

  /** Every row is drawn as often as any other, or once more: as many times as the pool fits into the
      number of draws, rounded down or up. */
  lemma FairCounts(drawn: seq<int>, pool: seq<int>, rounds: seq<seq<int>>, tail: seq<int>, x: int)
    requires Distinct(pool) && x in pool && |tail| < |pool| && IsFair(drawn, pool, rounds, tail)
    ensures multiset(drawn)[x] == |drawn| / |pool| || multiset(drawn)[x] == |drawn| / |pool| + 1
  {
    FlattenCounts(rounds, pool, x);
    TailCounts(pool, tail, x);
    forall k | 0 <= k < |rounds| ensures |rounds[k]| == |pool| {
      SameLength(rounds[k], pool);
    }
    FlattenLength(rounds, |pool|);
    QuotientIs(|drawn|, |pool|, |rounds|, |tail|);
  }

  lemma SameLength(a: seq<int>, b: seq<int>)
    requires multiset(a) == multiset(b)
    ensures |a| == |b|
  {
    assert |multiset(a)| == |a| && |multiset(b)| == |b|;
  }

  lemma QuotientIs(d: nat, n: nat, q: nat, r: nat)
    requires d == q * n + r && r < n
    ensures d / n == q
  {
    ProductGrows(d / n + 1, q, n);
    ProductGrows(q + 1, d / n, n);
  }

  lemma ProductGrows(a: nat, b: nat, n: nat)
    ensures a <= b ==> a * n <= b * n
  {
  }

  lemma TailCounts(pool: seq<int>, tail: seq<int>, x: int)
    requires Distinct(pool) && exists rest: seq<int> :: multiset(tail + rest) == multiset(pool)
    ensures multiset(tail)[x] <= 1
  {
    var rest: seq<int> :| multiset(tail + rest) == multiset(pool);
    assert multiset(tail + rest) == multiset(tail) + multiset(rest);
    DistinctCounts(pool, x);
  }

  lemma {:induction false} InFlatten(rounds: seq<seq<int>>, pool: seq<int>, y: int)
    requires forall k | 0 <= k < |rounds| :: multiset(rounds[k]) == multiset(pool)
    requires y in Flatten(rounds)
    ensures y in pool
  {
    var init, last := rounds[..|rounds| - 1], rounds[|rounds| - 1];
    if y in last {
      assert y in multiset(last);
    } else {
      InFlatten(init, pool, y);
    }
  }

  lemma DrawnFromPool(drawn: seq<int>, pool: seq<int>, rounds: seq<seq<int>>, tail: seq<int>, y: int)
    requires IsFair(drawn, pool, rounds, tail) && y in drawn
    ensures y in pool
  {
    if y in Flatten(rounds) {
      InFlatten(rounds, pool, y);
    } else {
      var rest: seq<int> :| multiset(tail + rest) == multiset(pool);
      assert y in multiset(tail + rest);
    }
  }

  /** The model after all batches: `update` is what one mini-batch does to it. */
  function Trained<W>(w: W, update: (W, seq<int>) -> W, batches: seq<seq<int>>): W {
    if batches == [] then w
    else update(Trained(w, update, batches[..|batches| - 1]), batches[|batches| - 1])
  }

  /** Every batch is used once and in order: a model that records its batches ends with all of them. */
  lemma {:induction false} UsesEachInOrder(batches: seq<seq<int>>)
    ensures Trained([], (seen: seq<seq<int>>, batch: seq<int>) => seen + [batch], batches) == batches
  {
    if batches != [] {
      UsesEachInOrder(batches[..|batches| - 1]);
    }
  }

  /** The training loop: each iteration draws a mini-batch and updates the model with it. The batches continue each
      other as whole permutations of the rows and a part of one more, so that over the whole run every row is used
      equally often, up to one. Without rows there is nothing to fill a batch with. */
  method TrainOnBatches<W>(w0: W, update: (W, seq<int>) -> W, n: nat, batchSize: nat, iterations: nat)
    returns (w: W, batches: seq<seq<int>>)
    requires n == 0 ==> batchSize == 0
    ensures |batches| == iterations && forall k | 0 <= k < iterations :: |batches[k]| == batchSize
    ensures w == Trained(w0, update, batches)
    ensures exists rounds, tail :: (n > 0 ==> |tail| < n) && IsFair(Flatten(batches), UpTo(n), rounds, tail)
    ensures forall y | y in Flatten(batches) :: 0 <= y < n
    ensures forall x | 0 <= x < n ::
              var count := multiset(Flatten(batches))[x];
              count == |Flatten(batches)| / n || count == |Flatten(batches)| / n + 1
  {
    var sampler := new Sampler(n);
    var batch := new int[batchSize];
    w, batches := w0, [];
    for i := 0 to iterations
      invariant sampler.Valid() && fresh(sampler) && fresh(sampler.pool) && sampler.pool != batch
      invariant sampler.rows == UpTo(n) && sampler.pool.Length == n
      invariant |batches| == i && forall k | 0 <= k < i :: |batches[k]| == batchSize
      invariant w == Trained(w0, update, batches) && sampler.drawn == Flatten(batches)
    {
      sampler.GetSubset(batch);
      FlattenSnoc(batches, batch[..]);
      assert (batches + [batch[..]])[..i] == batches;
      w, batches := update(w, batch[..]), batches + [batch[..]];
    }
    SamplerIsFair(sampler, n);
  }

  lemma RowsAreDistinct(n: nat)
    ensures Distinct(UpTo(n)) && forall x :: x in UpTo(n) <==> 0 <= x < n
  {
    forall x | 0 <= x < n ensures x in UpTo(n) {
      assert UpTo(n)[x] == x;
    }
  }

  lemma SamplerIsFair(sampler: Sampler, n: nat)
    requires sampler.Valid() && sampler.rows == UpTo(n) && sampler.pool.Length == n
    ensures exists rounds, tail :: (n > 0 ==> |tail| < n) && IsFair(sampler.drawn, UpTo(n), rounds, tail)
    ensures forall y | y in sampler.drawn :: 0 <= y < n
    ensures forall x | 0 <= x < n ::
              var count := multiset(sampler.drawn)[x];
              count == |sampler.drawn| / n || count == |sampler.drawn| / n + 1
  {
    var tail := if sampler.cursor == n then [] else sampler.pool[..sampler.cursor];
    var rest := if sampler.cursor == n then sampler.pool[..] else sampler.pool[sampler.cursor..];
    assert tail + rest == sampler.pool[..];
    DrawnIsFair(sampler.drawn, n, sampler.rounds, tail, rest);
    FairRun(sampler.drawn, n, sampler.rounds, tail);
  }

  lemma DrawnIsFair(drawn: seq<int>, n: nat, rounds: seq<seq<int>>, tail: seq<int>, rest: seq<int>)
    requires forall k | 0 <= k < |rounds| :: multiset(rounds[k]) == multiset(UpTo(n))
    requires multiset(tail + rest) == multiset(UpTo(n)) && drawn == Flatten(rounds) + tail
    ensures IsFair(drawn, UpTo(n), rounds, tail)
  {
  }

  lemma FairRun(drawn: seq<int>, n: nat, rounds: seq<seq<int>>, tail: seq<int>)
    requires (n > 0 ==> |tail| < n) && IsFair(drawn, UpTo(n), rounds, tail)
    ensures forall y | y in drawn :: 0 <= y < n
    ensures forall x | 0 <= x < n ::
              var count := multiset(drawn)[x]; count == |drawn| / n || count == |drawn| / n + 1
  {
    RowsAreDistinct(n);
    forall x | 0 <= x < n
      ensures var count := multiset(drawn)[x]; count == |drawn| / n || count == |drawn| / n + 1
    {
      FairCounts(drawn, UpTo(n), rounds, tail, x);
    }
    forall y | y in drawn ensures 0 <= y < n {
      DrawnFromPool(drawn, UpTo(n), rounds, tail, y);
    }
  }
}
