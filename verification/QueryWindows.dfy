/**
 The index windows of the batched database query: batches are dealt to threads, what is left
 over is queried afterwards, and each window is cut into pieces of a thousand.
 */
module QueryWindows {

  /** Positions `a` up to, not including, `b`. */
  function Range(a: nat, b: nat): seq<int> {
    if a < b then seq(b - a, i requires 0 <= i < b - a => a + i) else []
  }

  lemma RangeJoins(a: nat, b: nat, c: nat)
    requires a <= b <= c
    ensures Range(a, b) + Range(b, c) == Range(a, c)
  {
  }

  function BatchSize(n: nat): nat {
    if n < 10000 then 1000 else if n < 100000 then 10000 else 100000
  }

  /** One thread's query, in pieces of a thousand ids and one smaller piece. */
  method ThreadQuery(start: nat, end: nat) returns (positions: seq<int>)
    requires start <= end
    ensures positions == Range(start, end)
  {
    var pieces, reminder := (end - start) / 1000, (end - start) % 1000;
    positions := [];
    for i := 0 to pieces
      invariant positions == Range(start, start + i * 1000)
    {
      RangeJoins(start, start + i * 1000, start + i * 1000 + 1000);
      positions := positions + Range(start + i * 1000, start + i * 1000 + 1000);
    }
    if reminder != 0 {
      RangeJoins(start, start + pieces * 1000, start + pieces * 1000 + reminder);
      positions := positions + Range(start + pieces * 1000, start + pieces * 1000 + reminder);
    }
  }

  /** Where the windows of an iteration start. The width is the number of threads of this iteration. */
  function IndexBase(iter: nat, batchSize: nat, threads: nat): nat {
    iter * batchSize * threads
  }

  /** One iteration: a window for each thread. */
  method MultithreadQuery(iter: nat, batchSize: nat, threads: nat) returns (positions: seq<int>)
    ensures var base := IndexBase(iter, batchSize, threads);
      positions == Range(base, base + batchSize * threads)
  {
    var base := IndexBase(iter, batchSize, threads);
    positions := [];
    for j := 0 to threads
      invariant positions == Range(base, base + batchSize * j)
    {
      var start := base + batchSize * j;
      assert batchSize * (j + 1) == batchSize * j + batchSize;
      var part := ThreadQuery(start, start + batchSize);
      RangeJoins(base, start, start + batchSize);
      positions := positions + part;
    }
  }

  function Extent(iters: nat, size: nat, threads: nat): nat {
    iters * size * threads
  }

  /** The positions of `full` ids, of the `tail` ids from `base` on, and of the ids after `whole`. */
  function Positions(full: nat, base: nat, tail: nat, whole: nat, n: nat): seq<int> {
    Range(0, full) + Range(base, base + tail) + Range(whole, n)
  }

  /** All positions queried. In the last iteration, which has only the remaining threads, the windows start
      at `IndexBase` of `tailWidth` threads. */
  function Queried(n: nat, threads: nat, tailWidth: nat): seq<int>
    requires threads > 0
  {
    var size := BatchSize(n);
    var batches := n / size;
    var iters, remain := batches / threads, batches % threads;
    Positions(Extent(iters, size, threads), IndexBase(iters, size, tailWidth), Extent(1, size, remain),
              Extent(1, size, batches), n)
  }

  /** The iterations over the full number of threads. */
  method FullIterations(iters: nat, size: nat, threads: nat) returns (positions: seq<int>)
    ensures positions == Range(0, Extent(iters, size, threads))
  {
    positions := [];
    for i := 0 to iters
      invariant positions == Range(0, Extent(i, size, threads))
    {
      var part := MultithreadQuery(i, size, threads);
      NextIteration(i, size, threads);
      RangeJoins(0, Extent(i, size, threads), Extent(i + 1, size, threads));
      positions := positions + part;
    }
  }

  /** The whole query, as it is: the last iteration's base uses the number of remaining threads. */
  method QueryAll(n: nat, threads: nat) returns (positions: seq<int>)
    requires threads > 0
    ensures positions == Queried(n, threads, (n / BatchSize(n)) % threads)
  {
    var size := BatchSize(n);
    var batches, reminder := n / size, n % size;
    var iters, remain := batches / threads, batches % threads;
    positions := FullIterations(iters, size, threads);
    if remain != 0 {
      var part := MultithreadQuery(iters, size, remain);
      positions := positions + part;
    }
    WholeBatches(n, size, batches);
    if reminder != 0 {
      var start := Extent(1, size, batches);
      var part := ThreadQuery(start, start + reminder);
      positions := positions + part;
    }
  }

  lemma NextIteration(i: nat, size: nat, threads: nat)
    ensures Extent(i + 1, size, threads) == IndexBase(i, size, threads) + size * threads
    ensures Extent(i, size, threads) == IndexBase(i, size, threads)
  {
  }

  lemma WholeBatches(n: nat, size: nat, batches: nat)
    requires size > 0 && batches == n / size
    ensures Extent(1, size, batches) <= n && n == Extent(1, size, batches) + n % size
  {
  }

  /** The iterations and the remaining threads cover the whole batches. */
  lemma BatchesAddUp(size: nat, batches: nat, threads: nat)
    requires threads > 0
    ensures Extent(batches / threads, size, threads) + Extent(1, size, batches % threads) == Extent(1, size, batches)
  {
  }

  lemma PositionsLength(full: nat, base: nat, tail: nat, whole: nat, n: nat)
    requires full + tail == whole <= n
    ensures |Positions(full, base, tail, whole, n)| == n
  {
  }

  lemma PositionsInOrder(full: nat, base: nat, tail: nat, whole: nat, n: nat)
    requires full + tail == whole <= n && (base == full || tail == 0)
    ensures Positions(full, base, tail, whole, n) == Range(0, n)
  {
  }

  lemma PositionsTwice(full: nat, base: nat, tail: nat, whole: nat, n: nat)
    requires base < full && tail > 0
    ensures multiset(Positions(full, base, tail, whole, n)) != multiset(Range(0, n))
  {
    InRange(0, full, base);
    InRange(base, base + tail, base);
    var positions := Positions(full, base, tail, whole, n);
    assert multiset(positions)
        == multiset(Range(0, full)) + multiset(Range(base, base + tail)) + multiset(Range(whole, n));
    OnceInRange(n, base);
  }

  lemma InRange(a: nat, b: nat, x: nat)
    requires a <= x < b
    ensures x in Range(a, b)
  {
    assert Range(a, b)[x - a] == x;
  }

  lemma {:induction false} OnceInRange(n: nat, x: nat)
    ensures multiset(Range(0, n))[x] <= 1
  {
    if n > 0 {
      OnceInRange(n - 1, x);
      RangeJoins(0, n - 1, n);
      assert Range(n - 1, n) == [n - 1];
      assert multiset(Range(0, n)) == multiset(Range(0, n - 1)) + multiset([n - 1]);
    }
  }

  /** As many positions are queried as there are ids, so a count of the rows does not show that some came twice. */
  lemma QueriedLength(n: nat, threads: nat, tailWidth: nat)
    requires threads > 0
    ensures |Queried(n, threads, tailWidth)| == n
  {
    var size := BatchSize(n);
    var batches := n / size;
    BatchesAddUp(size, batches, threads);
    WholeBatches(n, size, batches);
    PositionsLength(Extent(batches / threads, size, threads), IndexBase(batches / threads, size, tailWidth),
                    Extent(1, size, batches % threads), Extent(1, size, batches), n);
  }

  /** Based on the full number of threads, the windows are all positions in order. */
  lemma FullWidthPartitions(n: nat, threads: nat)
    requires threads > 0
    ensures Queried(n, threads, threads) == Range(0, n)
  {
    var size := BatchSize(n);
    var batches := n / size;
    BatchesAddUp(size, batches, threads);
    WholeBatches(n, size, batches);
    PositionsInOrder(Extent(batches / threads, size, threads), IndexBase(batches / threads, size, threads),
                     Extent(1, size, batches % threads), Extent(1, size, batches), n);
  }

  /** The windows are each position once exactly when there is no full iteration, or no thread remains:
      otherwise the last iteration starts inside what was queried already. */
  lemma PartitionsExactly(n: nat, threads: nat)
    requires threads > 0
    ensures var batches := n / BatchSize(n);
      multiset(Queried(n, threads, batches % threads)) == multiset(Range(0, n))
      <==> batches / threads == 0 || batches % threads == 0
  {
    var size := BatchSize(n);
    var batches := n / size;
    var iters, remain := batches / threads, batches % threads;
    var full, base, tail := Extent(iters, size, threads), IndexBase(iters, size, remain), Extent(1, size, remain);
    BatchesAddUp(size, batches, threads);
    WholeBatches(n, size, batches);
    Overlap(iters, size, threads, remain);
    if iters == 0 || remain == 0 {
      PositionsInOrder(full, base, tail, Extent(1, size, batches), n);
    } else {
      PositionsTwice(full, base, tail, Extent(1, size, batches), n);
    }
  }

  lemma Overlap(iters: nat, size: nat, threads: nat, remain: nat)
    requires size > 0 && remain < threads
    ensures iters == 0 ==> IndexBase(iters, size, remain) == Extent(iters, size, threads)
    ensures remain == 0 ==> Extent(1, size, remain) == 0
    ensures iters > 0 && remain > 0 ==>
              IndexBase(iters, size, remain) < Extent(iters, size, threads) && Extent(1, size, remain) > 0
  {
  }

  /** The three sizes of a batch: below ten thousand ids, below a hundred thousand, and from there on. */
  lemma SizesOfBatches(n: nat)
    ensures n < 10000 ==> BatchSize(n) == 1000
    ensures 10000 <= n < 100000 ==> BatchSize(n) == 10000
    ensures 100000 <= n ==> BatchSize(n) == 100000
  {
  }

  /** What is queried, by how the batches of `size` ids are dealt to the threads. */
  lemma QueriedIs(n: nat, threads: nat, tailWidth: nat, size: nat, iters: nat, remain: nat)
    requires threads > 0 && size == BatchSize(n) && n / size == iters * threads + remain && remain < threads
    ensures Queried(n, threads, tailWidth)
         == Range(0, iters * size * threads)
            + Range(iters * size * tailWidth, iters * size * tailWidth + size * remain)
            + Range(size * (n / size), n)
  {
    var batches := n / size;
    DivMod(batches, threads, iters, remain);
    assert Extent(1, size, remain) == size * remain && Extent(1, size, batches) == size * batches;
  }

  lemma DivMod(a: nat, b: nat, q: nat, r: nat)
    requires a == q * b + r && r < b
    ensures a / b == q && a % b == r
  {
    Multiples(a / b + 1, q, b);
    Multiples(q + 1, a / b, b);
  }

  lemma Multiples(x: nat, y: nat, b: nat)
    ensures x <= y ==> x * b <= y * b
  {
  }

  lemma FortyThousand()
    ensures Queried(40000, 3, (40000 / BatchSize(40000)) % 3) == Range(0, 30000) + Range(10000, 20000)
  {
    QueriedIs(40000, 3, 1, 10000, 1, 1);
  }

  lemma FourHundredThousand()
    ensures Queried(400000, 3, (400000 / BatchSize(400000)) % 3) == Range(0, 300000) + Range(100000, 200000)
  {
    QueriedIs(400000, 3, 1, 100000, 1, 1);
  }

  /** The smallest kind of failure: two threads and three batches of a thousand ids. */
  lemma TwoThreadsThreeBatches()
    ensures Queried(3000, 2, (3000 / BatchSize(3000)) % 2) == Range(0, 2000) + Range(1000, 2000)
  {
    QueriedIs(3000, 2, 1, 1000, 1, 1);
  }
}
