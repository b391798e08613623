/**
 The minimum or maximum of each column over three parties. Every party runs its own program and
 branches on what is opened to it; the operations are joint, so the three programs must agree on
 the operation of every round, and on who gives an input to it.
 */
module MinMaxProtocol {
  import opened Facts

  /** What a party calls next. `Watch` and `TakeShare` take part without an input. */
  datatype Call =
    | Compare(value: real)
    | Watch
    | OpenBit
    | Deal(value: real)
    | TakeShare
    | OpenValue
    | Finished

  /** What a joint operation gives back to every party. */
  datatype Reply = Nothing | Bit(bit: bool) | Opened(value: real)

  datatype Stage = FirstCompare | FirstOpen | SecondCompare | SecondOpen | Sharing | ValueOpen

  const NOBODY := 255

  /** A party's program: its column results so far, where it stands in the current column, and the winners
      it has worked out from the opened bits. For the maximum the values compared are negated. */
  class Party {
    const id: nat
    const isMax: bool
    const column: seq<real>
    var results: seq<real>
    var stage: Stage
    var first: nat
    var winner: nat

    constructor (id: nat, isMax: bool, column: seq<real>)
      requires id < 3
      ensures State() == PartyState(id, isMax, column, [], FirstCompare, NOBODY, NOBODY)
    {
      this.id, this.isMax, this.column := id, isMax, column;
      results, stage, first, winner := [], FirstCompare, NOBODY, NOBODY;
    }

    function State(): PartyState
      reads this
    {
      PartyState(id, isMax, column, results, stage, first, winner)
    }

    method Next() returns (call: Call)
      ensures call == NextCall(State())
    {
      if |results| >= |column| {
        return Finished;
      }
      var local := column[|results|];
      var compared := if isMax then -1.0 * local else local;
      match stage {
        case FirstCompare =>
          if id == 0 {
            call := Compare(compared);
          } else if id == 1 {
            call := Compare(compared);
          } else {
            call := Watch;
          }
        case FirstOpen => call := OpenBit;
        case SecondCompare =>
          if first == 0 {
            if id == 0 {
              call := Compare(compared);
            } else if id == 2 {
              call := Compare(compared);
            } else {
              call := Watch;
            }
          } else {
            if id == 1 {
              call := Compare(compared);
            } else if id == 2 {
              call := Compare(compared);
            } else {
              call := Watch;
            }
          }
        case SecondOpen => call := OpenBit;
        case Sharing =>
          if id == winner {
            call := Deal(local);
          } else {
            call := TakeShare;
          }
        case ValueOpen => call := OpenValue;
      }
    }

    method Receive(reply: Reply)
      modifies this`results, this`stage, this`first, this`winner
      ensures State() == AfterReply(old(State()), reply)
    {
      match stage {
        case FirstCompare => stage := FirstOpen;
        case FirstOpen =>
          if reply.Bit? && reply.bit {
            first := 0;
          } else {
            first := 1;
          }
          stage := SecondCompare;
        case SecondCompare => stage := SecondOpen;
        case SecondOpen =>
          if first == 0 {
            if reply.Bit? && reply.bit {
              winner := 0;
            } else {
              winner := 2;
            }
          } else {
            if reply.Bit? && reply.bit {
              winner := 1;
            } else {
              winner := 2;
            }
          }
          stage := Sharing;
        case Sharing => stage := ValueOpen;
        case ValueOpen =>
          results := results + [if reply.Opened? then reply.value else 0.0];
          stage := FirstCompare;
      }
    }
  }

  datatype PartyState = PartyState(id: nat, isMax: bool, column: seq<real>, results: seq<real>, stage: Stage,
                                   first: nat, winner: nat)

  function NextCall(p: PartyState): Call {
    if |p.results| >= |p.column| then Finished else
    var local := p.column[|p.results|];
    var compared := if p.isMax then -1.0 * local else local;
    match p.stage
    case FirstCompare => if p.id == 0 || p.id == 1 then Compare(compared) else Watch
    case FirstOpen => OpenBit
    case SecondCompare =>
      if p.id == 2 || p.id == (if p.first == 0 then 0 else 1) then Compare(compared) else Watch
    case SecondOpen => OpenBit
    case Sharing => if p.id == p.winner then Deal(local) else TakeShare
    case ValueOpen => OpenValue
  }

  function AfterReply(p: PartyState, reply: Reply): PartyState {
    var yes := reply.Bit? && reply.bit;
    match p.stage
    case FirstCompare => p.(stage := FirstOpen)
    case FirstOpen => p.(stage := SecondCompare, first := if yes then 0 else 1)
    case SecondCompare => p.(stage := SecondOpen)
    case SecondOpen =>
      p.(stage := Sharing, winner := if !yes then 2 else if p.first == 0 then 0 else 1)
    case Sharing => p.(stage := ValueOpen)
    case ValueOpen =>
      p.(stage := FirstCompare, results := p.results + [if reply.Opened? then reply.value else 0.0])
  }

  /** What the parties hold shares of between two operations. */
  datatype Shared = Empty | SharedBit(bit: bool) | SharedValue(value: real)

  /** `OutOfStep`: the calls of a round do not fit together. */
  datatype Round = Answer(reply: Reply, shared: Shared) | AllFinished | OutOfStep

  /** The joint operations. A comparison needs inputs of exactly two parties and answers whether the input
      of the lower-numbered one is smaller; a sharing needs the input of exactly one. */
  function JointCall(c0: Call, c1: Call, c2: Call, shared: Shared): Round {
    match (c0, c1, c2)
    case (Compare(a), Compare(b), Watch) => Answer(Nothing, SharedBit(a < b))
    case (Compare(a), Watch, Compare(b)) => Answer(Nothing, SharedBit(a < b))
    case (Watch, Compare(a), Compare(b)) => Answer(Nothing, SharedBit(a < b))
    case (OpenBit, OpenBit, OpenBit) => if shared.SharedBit? then Answer(Bit(shared.bit), Empty) else OutOfStep
    case (Deal(v), TakeShare, TakeShare) => Answer(Nothing, SharedValue(v))
    case (TakeShare, Deal(v), TakeShare) => Answer(Nothing, SharedValue(v))
    case (TakeShare, TakeShare, Deal(v)) => Answer(Nothing, SharedValue(v))
    case (OpenValue, OpenValue, OpenValue) =>
      if shared.SharedValue? then Answer(Opened(shared.value), Empty) else OutOfStep
    case (Finished, Finished, Finished) => AllFinished
    case _ => OutOfStep
  }

  function Best(isMax: bool, a: real, b: real): real {
    if isMax then (if a < b then b else a) else if b < a then b else a
  }

  function Best3(isMax: bool, a: real, b: real, c: real): real {
    Best(isMax, Best(isMax, a, b), c)
  }

  /** The columns of the three parties, and their best values, column by column. */
  function BestColumns(isMax: bool, x: seq<real>, y: seq<real>, z: seq<real>): (r: seq<real>)
    requires |x| == |y| == |z|
    ensures |r| == |x| && forall k | 0 <= k < |r| :: r[k] == Best3(isMax, x[k], y[k], z[k])
  {
    seq(|x|, k requires 0 <= k < |x| => Best3(isMax, x[k], y[k], z[k]))
  }

  /** The smallest of the values is `m`. */
  predicate IsMinimum(m: real, values: seq<real>) {
    m in values && forall x | x in values :: m <= x
  }

  predicate IsMaximum(m: real, values: seq<real>) {
    m in values && forall x | x in values :: x <= m
  }

  lemma BestIsExtreme(isMax: bool, a: real, b: real, c: real)
    ensures isMax ==> IsMaximum(Best3(isMax, a, b, c), [a, b, c])
    ensures !isMax ==> IsMinimum(Best3(isMax, a, b, c), [a, b, c])
  {
  }

  function ComparedAt(isMax: bool, x: real): real {
    if isMax then -1.0 * x else x
  }

  /** In every round: the parties stand at the same place, have opened the same bits and hold the results of
      the same columns; what is shared is what the stage says. */
  ghost predicate InStep(isMax: bool, x: seq<real>, y: seq<real>, z: seq<real>,
                         p: PartyState, q: PartyState, r: PartyState, shared: Shared)
  {
    && |x| == |y| == |z| && |p.results| <= |x|
    && forall b {:trigger Use(b)} | Use(b) ::
         && p == PartyState(0, isMax, x, p.results, p.stage, p.first, p.winner)
         && q == p.(id := 1, column := y) && r == p.(id := 2, column := z)
         && p.results == BestColumns(isMax, x, y, z)[..|p.results|]
         && (|p.results| == |x| ==> p.stage == FirstCompare)
         && (|p.results| < |x| ==> Progress(isMax, x[|p.results|], y[|p.results|], z[|p.results|], p, shared))
  }

  /** What has been worked out at each stage of a column whose values are `a`, `b` and `c`. */
  ghost predicate Progress(isMax: bool, a: real, b: real, c: real, p: PartyState, shared: Shared) {
    var ca, cb, cc := ComparedAt(isMax, a), ComparedAt(isMax, b), ComparedAt(isMax, c);
    var cf := if p.first == 0 then ca else cb;
    var winning := if p.winner == 0 then a else if p.winner == 1 then b else c;
    match p.stage
    case FirstCompare => true
    case FirstOpen => shared == SharedBit(ca < cb)
    case SecondCompare => p.first == if ca < cb then 0 else 1
    case SecondOpen => p.first == (if ca < cb then 0 else 1) && shared == SharedBit(cf < cc)
    case Sharing => p.winner < 3 && winning == Best3(isMax, a, b, c)
    case ValueOpen => shared == SharedValue(Best3(isMax, a, b, c))
  }

  function StageRank(s: Stage): nat {
    match s
    case FirstCompare => 6
    case FirstOpen => 5
    case SecondCompare => 4
    case SecondOpen => 3
    case Sharing => 2
    case ValueOpen => 1
  }

  /** The round at one stage of a column whose values are `a`, `b` and `c`: the calls fit together, and what has
      been worked out is right for the next stage, or the best value is opened. */
  lemma ColumnRound(isMax: bool, a: real, b: real, c: real, p: PartyState, q: PartyState, r: PartyState, shared: Shared)
    requires |p.results| < |p.column| && |p.results| < |q.column| && |p.results| < |r.column|
    requires p.id == 0 && p.isMax == isMax && p.column[|p.results|] == a
    requires q == p.(id := 1, column := q.column) && q.column[|p.results|] == b
    requires r == p.(id := 2, column := r.column) && r.column[|p.results|] == c
    requires Progress(isMax, a, b, c, p, shared)
    ensures var round := JointCall(NextCall(p), NextCall(q), NextCall(r), shared);
      && round.Answer?
      && (p.stage != ValueOpen ==> Progress(isMax, a, b, c, AfterReply(p, round.reply), round.shared))
      && (p.stage == ValueOpen ==> round.reply == Opened(Best3(isMax, a, b, c)))
  {
  }

  /** At the end, all parties have finished and hold the best values. */
  lemma FinishedTogether(isMax: bool, x: seq<real>, y: seq<real>, z: seq<real>,
                         p: PartyState, q: PartyState, r: PartyState, shared: Shared)
    requires InStep(isMax, x, y, z, p, q, r, shared) && |p.results| == |x|
    ensures JointCall(NextCall(p), NextCall(q), NextCall(r), shared) == AllFinished
    ensures p.results == q.results == r.results == BestColumns(isMax, x, y, z)
  {
    assert Use(true);
    assert BestColumns(isMax, x, y, z)[..|x|] == BestColumns(isMax, x, y, z);
  }

  /** One round from parties in step: the calls fit together, and the parties are in step again. */
  lemma RoundKeepsStep(isMax: bool, x: seq<real>, y: seq<real>, z: seq<real>,
                       p: PartyState, q: PartyState, r: PartyState, shared: Shared)
    requires InStep(isMax, x, y, z, p, q, r, shared) && |p.results| < |x|
    ensures var round := JointCall(NextCall(p), NextCall(q), NextCall(r), shared);
      && round.Answer?
      && InStep(isMax, x, y, z, AfterReply(p, round.reply), AfterReply(q, round.reply), AfterReply(r, round.reply),
                round.shared)
  {
    assert Use(true);
    var k := |p.results|;
    ColumnRound(isMax, x[k], y[k], z[k], p, q, r, shared);
    var round := JointCall(NextCall(p), NextCall(q), NextCall(r), shared);
    RepliesAlike(p, 1, y, round.reply);
    RepliesAlike(p, 2, z, round.reply);
    var best := BestColumns(isMax, x, y, z);
    assert best[..k + 1] == best[..k] + [Best3(isMax, x[k], y[k], z[k])];
    var next := AfterReply(p, round.reply);
    if p.stage != ValueOpen {
      assert next.results == p.results && next.stage != FirstCompare;
    } else {
      assert next.results == best[..k + 1] && next.stage == FirstCompare;
    }
  }

  /** A reply does the same to every party. */
  lemma RepliesAlike(p: PartyState, id: nat, column: seq<real>, reply: Reply)
    ensures AfterReply(p.(id := id, column := column), reply) == AfterReply(p, reply).(id := id, column := column)
  {
  }

  /** Every round comes closer to the end. */
  lemma RoundAdvances(p: PartyState, reply: Reply)
    ensures var next := AfterReply(p, reply);
      if p.stage == ValueOpen then |next.results| == |p.results| + 1
      else next.results == p.results && StageRank(next.stage) < StageRank(p.stage)
  {
  }

  /** A whole run: the parties' programs and the joint operations, round after round. */
  method RunProtocol(isMax: bool, x: seq<real>, y: seq<real>, z: seq<real>)
    returns (inStep: bool, rx: seq<real>, ry: seq<real>, rz: seq<real>)
    requires |x| == |y| == |z|
    ensures inStep
    ensures rx == ry == rz == BestColumns(isMax, x, y, z)
    ensures forall k | 0 <= k < |x| ::
              && (rx[k] == x[k] || rx[k] == y[k] || rx[k] == z[k])
              && (if isMax then rx[k] >= x[k] && rx[k] >= y[k] && rx[k] >= z[k]
                  else rx[k] <= x[k] && rx[k] <= y[k] && rx[k] <= z[k])
  {
    var p := new Party(0, isMax, x);
    var q := new Party(1, isMax, y);
    var r := new Party(2, isMax, z);
    var shared := Empty;
    while true
      invariant InStep(isMax, x, y, z, p.State(), q.State(), r.State(), shared)
      decreases |x| - |p.results|, StageRank(p.stage)
    {
      var cp := p.Next();
      var cq := q.Next();
      var cr := r.Next();
      if |p.results| == |x| {
        FinishedTogether(isMax, x, y, z, p.State(), q.State(), r.State(), shared);
      } else {
        RoundKeepsStep(isMax, x, y, z, p.State(), q.State(), r.State(), shared);
      }
      match JointCall(cp, cq, cr, shared) {
        case OutOfStep => return false, [], [], [];
        case AllFinished => return true, p.results, q.results, r.results;
        case Answer(reply, next) =>
          RoundAdvances(p.State(), reply);
          p.Receive(reply);
          q.Receive(reply);
          r.Receive(reply);
          shared := next;
      }
    }
  }
}
