/** How far the queue of encrypted extrinsics gets: what a block is sure to handle, when it handles nothing, and
    how long an extrinsic can wait. */
module ShieldQueueProgress {
  import opened Wrappers
  import opened RuntimeCalls
  import opened DepthScan
  import opened QubitumPrivacy
  import opened ShieldQueueFilter
  import opened MachineIntegers
  import opened Weights
  import opened ShieldQueue

  // ----- one block -----------------------------------------------------------------------------

  /** A block over a queue with something to handle handles nothing exactly if it postpones the first extrinsic,
      and then it leaves everything as it was. */
  lemma HandlesNothingIff(b: Block, l: Log, done: u32)
    requires Window(l, done) && done < l.queue.next
    ensures BlockWork(b, l).handled == [] <==> FateOf(b, done, l.stored[done], StartWeight(b, l, done)) == None
    ensures BlockWork(b, l).handled == [] ==> BlockWork(b, l).log == l
  {
    BlockFromWindow(b, l, done);
    WorkUnfolds(b, l, done, l.queue.next, StartWeight(b, l, done));
  }

  ghost predicate PostponesFresh(b: Block, stored: seq<Pending>, index: u32, end: u32, w: Work) {
    w.postponed.Some? ==>
      index <= w.postponed.value < end <= |stored| && !ClearedAway(b, w.postponed.value, stored[w.postponed.value])
  }

  lemma PostponesFreshMore(b: Block, l: Log, l': Log, index: u32, end: u32, first: Handled, w: Work)
    requires index < end <= |l.stored| && l.stored <= l'.stored
    requires PostponesFresh(b, l'.stored, index + 1, end, w)
    ensures PostponesFresh(b, l.stored, index, end, More(first, w))
  {
  }

  /** A block postpones only what could be dispatched: nothing too old, undecryptable, refused or too heavy. */
  lemma {:induction false} WorkPostponesFresh(b: Block, l: Log, index: u32, end: u32, spent: Weight)
    requires Window(l, index) && index <= end <= l.queue.next
    ensures PostponesFresh(b, l.stored, index, end, WorkFrom(b, l, index, end, spent))
    decreases end - index
  {
    if index < end {
      WorkUnfolds(b, l, index, end, spent);
      var x := l.stored[index];
      var fate := FateOf(b, index, x, spent);
      if fate.Some? {
        var l', after := LogAfter(b, l, index, fate.value), SpentAfter(b, spent, fate.value);
        WorkPostponesFresh(b, l', index + 1, end, after);
        PostponesFreshMore(b, l, l', index, end, Handled(index, x, fate.value), WorkFrom(b, l', index + 1, end, after));
      }
    }
  }

  /** The work ends at the end of the queue, or at an extrinsic that is not to be cleared away. */
  ghost predicate Stops(b: Block, stored: seq<Pending>, index: u32, end: u32, w: Work) {
    var stop := index + |w.handled|;
    stop <= end <= |stored| && (stop < end ==> !ClearedAway(b, stop, stored[stop]))
  }

  lemma FrontStops(b: Block, l: Log, index: u32, end: u32, w: Work)
    requires end <= |l.stored| && FrontTaken(l, index, end, w) && PostponesFresh(b, l.stored, index, end, w)
    ensures Stops(b, l.stored, index, end, w)
  {
  }

  lemma WorkStops(b: Block, l: Log, index: u32, end: u32, spent: Weight)
    requires Window(l, index) && index <= end <= l.queue.next
    ensures Stops(b, l.stored, index, end, WorkFrom(b, l, index, end, spent))
  {
    WorkTakesFront(b, l, index, end, spent);
    WorkPostponesFresh(b, l, index, end, spent);
    FrontStops(b, l, index, end, WorkFrom(b, l, index, end, spent));
  }

  lemma BlockStops(b: Block, l: Log, done: u32)
    requires Window(l, done)
    ensures Stops(b, l.stored, done, l.queue.next, BlockWork(b, l))
  {
    BlockFromWindow(b, l, done);
    WorkStops(b, l, done, l.queue.next, StartWeight(b, l, done));
  }

  /** So a block handles every extrinsic before the first one that is not to be cleared away, whatever the limit. */
  lemma HandlesCleared(b: Block, l: Log, done: u32, k: u32)
    requires Window(l, done) && done <= k <= l.queue.next && AllClearedAway(b, l, done, k)
    ensures done + |BlockWork(b, l).handled| >= k
  {
    BlockStops(b, l, done);
  }

  // ----- time ----------------------------------------------------------------------------------

  /** What is stored later is submitted no earlier. */
  ghost predicate Chronological(stored: seq<Pending>) {
    forall i, j :: 0 <= i < j < |stored| ==> stored[i].submittedAt <= stored[j].submittedAt
  }

  ghost predicate AllBy(stored: seq<Pending>, time: u32) {
    forall i :: 0 <= i < |stored| ==> stored[i].submittedAt <= time
  }

  function TimeOf(op: Op): u32 {
    match op
    case StoreOp(x, _) => x.submittedAt
    case BlockOp(b) => b.now
  }

  /** Operations happen in the order of block numbers, and a dispatch stores under the number of its block. */
  ghost predicate Clocked(ops: seq<Op>) {
    && (forall i, j :: 0 <= i < j < |ops| ==> TimeOf(ops[i]) <= TimeOf(ops[j]))
    && (forall i :: 0 <= i < |ops| && ops[i].BlockOp? ==> StoresNow(ops[i].b))
  }

  ghost predicate StoresNow(b: Block) {
    forall i: u32, k: nat :: k < |b.chain(i).stores| ==> b.chain(i).stores[k].submittedAt == b.now
  }

  /** `stored'` is `stored` with extrinsics submitted at `time` after it. */
  ghost predicate AddedAt(stored: seq<Pending>, stored': seq<Pending>, time: u32) {
    stored <= stored' && forall i :: |stored| <= i < |stored'| ==> stored'[i].submittedAt == time
  }

  lemma {:induction false} StoreAllAdds(l: Log, xs: seq<Pending>, maxPending: u32, time: u32)
    requires forall k :: 0 <= k < |xs| ==> xs[k].submittedAt == time
    ensures AddedAt(l.stored, StoreAll(l, xs, maxPending).stored, time)
    decreases |xs|
  {
    if xs != [] {
      StoreAllAdds(Store(l, xs[0], maxPending), xs[1..], maxPending, time);
    }
  }

  lemma LogAfterAdds(b: Block, l: Log, index: u32, fate: Fate)
    requires StoresNow(b)
    ensures AddedAt(l.stored, LogAfter(b, l, index, fate).stored, b.now)
  {
    if fate.Dispatched? {
      StoreAllAdds(Removed(l, index), b.chain(index).stores, b.chain(index).maxPending, b.now);
    }
  }

  lemma AddedAtBoth(a: seq<Pending>, b: seq<Pending>, c: seq<Pending>, time: u32)
    requires AddedAt(a, b, time) && AddedAt(b, c, time)
    ensures AddedAt(a, c, time)
  {
  }

  lemma {:induction false} WorkAdds(b: Block, l: Log, index: u32, end: u32, spent: Weight)
    requires StoresNow(b) && index <= end
    ensures AddedAt(l.stored, WorkFrom(b, l, index, end, spent).log.stored, b.now)
    decreases end - index
  {
    if index < end {
      if index !in l.queue.pending {
        WorkAdds(b, l, index + 1, end, spent.Add(b.db.Reads(1)));
      } else {
        var fate := FateOf(b, index, l.queue.pending[index], spent);
        if fate.Some? {
          var l', after := LogAfter(b, l, index, fate.value), SpentAfter(b, spent, fate.value);
          LogAfterAdds(b, l, index, fate.value);
          WorkAdds(b, l', index + 1, end, after);
          AddedAtBoth(l.stored, l'.stored, WorkFrom(b, l', index + 1, end, after).log.stored, b.now);
        }
      }
    }
  }

  lemma StepAdds(r: Run, op: Op, position: nat)
    requires op.BlockOp? ==> StoresNow(op.b)
    ensures AddedAt(r.log.stored, Step(r, op, position).log.stored, TimeOf(op))
  {
    if op.BlockOp? {
      WorkAdds(op.b, r.log, StartIndex(r.log.queue), r.log.queue.next, op.b.db.Reads(2));
    }
  }

  lemma AddedKeepsTime(stored: seq<Pending>, stored': seq<Pending>, before: u32, time: u32)
    requires Chronological(stored) && AllBy(stored, before) && before <= time && AddedAt(stored, stored', time)
    ensures Chronological(stored') && AllBy(stored', time)
  {
  }

  ghost predicate StoredBy(ops: seq<Op>, stored: seq<Pending>) {
    Chronological(stored) && if ops == [] then stored == [] else AllBy(stored, TimeOf(ops[|ops| - 1]))
  }

  /** A run under the clock of the chain stores in chronological order. */
  lemma {:induction false} ClockedRuns(ops: seq<Op>)
    requires Clocked(ops)
    ensures StoredBy(ops, RunOf(ops).log.stored)
  {
    if ops != [] {
      var front, op := ops[..|ops| - 1], ops[|ops| - 1];
      ClockedRuns(front);
      StepAdds(RunOf(front), op, |front|);
      AddedKeepsTime(RunOf(front).log.stored, RunOf(ops).log.stored,
                     if front == [] then TimeOf(op) else TimeOf(front[|front| - 1]), TimeOf(op));
    }
  }

  // ----- no extrinsic outlives its lifetime ----------------------------------------------------

  /** Too old for the block, by whatever lifetime is in force when its index comes up. */
  ghost predicate Overdue(b: Block, x: Pending) {
    b.now > x.submittedAt && forall i: u32 :: b.now - x.submittedAt > b.chain(i).lifetime
  }

  lemma OverdueBefore(b: Block, stored: seq<Pending>, i: u32, k: nat)
    requires Chronological(stored) && i <= k < |stored| && Overdue(b, stored[k])
    ensures IsExpired(b, i, stored[i])
  {
    assert stored[i].submittedAt <= stored[k].submittedAt;
  }

  lemma OverdueTaken(b: Block, l: Log, done: u32, k: nat)
    requires Window(l, done) && Chronological(l.stored)
    requires k < l.queue.next && Overdue(b, l.stored[k])
    ensures k < done + |BlockWork(b, l).handled|
  {
    BlockStops(b, l, done);
    var stop := done + |BlockWork(b, l).handled|;
    if stop <= k {
      OverdueBefore(b, l.stored, stop, k);
    }
  }

  /** Over every run under the clock of the chain, no extrinsic below the last index is still pending after a
      block for which it is overdue. */
  lemma OverdueHandled(ops: seq<Op>, b: Block, k: nat)
    requires Clocked(ops + [BlockOp(b)])
    requires k < RunOf(ops).log.queue.next && k < |RunOf(ops).log.stored| && Overdue(b, RunOf(ops).log.stored[k])
    ensures k < |RunOf(ops + [BlockOp(b)]).handled| && k !in RunOf(ops + [BlockOp(b)]).log.queue.pending
  {
    var r := RunOf(ops);
    assert (ops + [BlockOp(b)])[..|ops|] == ops;
    ClockedFront(ops, BlockOp(b));
    ClockedRuns(ops);
    RunTracks(ops);
    OverdueTaken(b, r.log, |r.handled|, k);
    RunOfMore(ops, BlockOp(b));
    RunTracks(ops + [BlockOp(b)]);
  }

  lemma ClockedFront(ops: seq<Op>, op: Op)
    requires Clocked(ops + [op])
    ensures Clocked(ops)
  {
    forall i | 0 <= i < |ops| ensures (ops + [op])[i] == ops[i] {
    }
  }

  // ----- head of line --------------------------------------------------------------------------

  /** Even the heaviest call the per-extrinsic cap lets pass fits in a block that has spent `start`. */
  predicate Fits(db: DbWeight, c: Chain, start: Weight) {
    start.Add(db.Writes(2).Add(Weight(c.maxExtrinsicWeight, 0))).Leq(Weight(c.onInitializeWeight, 0))
  }

  /** Then no extrinsic is postponed at that point. */
  lemma FitsNeverPostpones(b: Block, index: u32, x: Pending, start: Weight)
    requires Fits(b.db, b.chain(index), start)
    ensures FateOf(b, index, x, start).Some?
  {
  }

  /** A block under settings `c` to which every extrinsic is a call of the greatest weight the cap lets pass. */
  function HeaviestBlock(now: u32, db: DbWeight, c: Chain, dec: Decoder): Block {
    Block(now, db, dec, _ => Some(OtherCall([])), _ => Weight(c.maxExtrinsicWeight, 0), _ => c)
  }

  /** And otherwise one is, under the same settings, for as long as it is not too old. */
  lemma TooTightPostpones(now: u32, db: DbWeight, c: Chain, dec: Decoder, start: Weight, index: u32, x: Pending)
    requires !Fits(db, c, start) && now <= x.submittedAt + c.lifetime
    ensures
      var b := HeaviestBlock(now, db, c, dec);
      b.db == db && b.chain(index) == c && FateOf(b, index, x, start) == None
  {
  }

  /** A block whose settings fit handles at least the first extrinsic. */
  lemma FitsProgresses(b: Block, l: Log, done: u32)
    requires Window(l, done) && done < l.queue.next && Fits(b.db, b.chain(done), StartWeight(b, l, done))
    ensures |BlockWork(b, l).handled| >= 1
  {
    FitsNeverPostpones(b, done, l.stored[done], StartWeight(b, l, done));
    HandlesNothingIff(b, l, done);
  }

  /** The settings fit at every index, also where the loop starts one index early. */
  ghost predicate AlwaysFits(b: Block) {
    forall i: u32 :: Fits(b.db, b.chain(i), b.db.Reads(2).Add(b.db.Reads(1)))
  }

  lemma AlwaysFitsAtStart(b: Block, l: Log, done: u32)
    requires AlwaysFits(b)
    ensures Fits(b.db, b.chain(done), StartWeight(b, l, done))
  {
    assert Fits(b.db, b.chain(done), b.db.Reads(2).Add(b.db.Reads(1)));
  }

  /** `r'` continues `r` and has handled `n` extrinsics more, or all there were. */
  ghost predicate Drained(r: Run, n: nat, r': Run) {
    && Tracks(r')
    && r.log.queue.next <= r'.log.queue.next
    && (|r'.handled| >= |r.handled| + n || |r'.handled| >= r.log.queue.next)
  }

  lemma DrainedStep(r: Run, n: nat, r': Run, b: Block, position: nat)
    requires Drained(r, n, r') && AlwaysFits(b)
    ensures Drained(r, n + 1, Step(r', BlockOp(b), position))
  {
    StepTracks(r', BlockOp(b), position);
    StepExtends(r', BlockOp(b), position);
    if |r'.handled| < r'.log.queue.next {
      AlwaysFitsAtStart(b, r'.log, |r'.handled|);
      FitsProgresses(b, r'.log, |r'.handled|);
    }
  }

  function BlockOps(bs: seq<Block>): seq<Op> {
    seq(|bs|, k requires 0 <= k < |bs| => BlockOp(bs[k]))
  }

  /** Under such settings every block handles at least one more extrinsic until none of those there were is left. */
  lemma {:induction false} BlocksDrain(ops: seq<Op>, bs: seq<Block>)
    requires forall k :: 0 <= k < |bs| ==> AlwaysFits(bs[k])
    ensures Drained(RunOf(ops), |bs|, RunOf(ops + BlockOps(bs)))
    decreases |bs|
  {
    if bs == [] {
      RunTracks(ops);
      assert ops + BlockOps(bs) == ops;
    } else {
      var front, b := bs[..|bs| - 1], bs[|bs| - 1];
      BlocksDrain(ops, front);
      assert ops + BlockOps(bs) == (ops + BlockOps(front)) + [BlockOp(b)];
      RunOfMore(ops + BlockOps(front), BlockOp(b));
      DrainedStep(RunOf(ops), |front|, RunOf(ops + BlockOps(front)), b, |ops + BlockOps(front)|);
    }
  }

  lemma PostponedWhenMoreSpent(b: Block, index: u32, x: Pending, spent: Weight, more: Weight)
    requires FateOf(b, index, x, spent) == None
    ensures FateOf(b, index, x, spent.Add(more)) == None
  {
  }

  /** The block postpones the extrinsic right at its start. */
  ghost predicate Stuck(b: Block, k: u32, x: Pending) {
    FateOf(b, k, x, b.db.Reads(2)) == None
  }

  lemma StuckBlock(r: Run, b: Block, position: nat)
    requires Tracks(r) && |r.handled| < r.log.queue.next && Stuck(b, |r.handled|, r.log.stored[|r.handled|])
    ensures Step(r, BlockOp(b), position) == r
  {
    var done := |r.handled|;
    PostponedWhenMoreSpent(b, done, r.log.stored[done], b.db.Reads(2), b.db.Reads(1));
    HandlesNothingIff(b, r.log, done);
  }

  /** `r'` continues `r` without having handled anything more. */
  ghost predicate Stalled(r: Run, r': Run) {
    Tracks(r') && r'.handled == r.handled && r.log.stored <= r'.log.stored && r.log.queue.next <= r'.log.queue.next
  }

  lemma StalledStep(r: Run, r': Run, op: Op, position: nat)
    requires Stalled(r, r') && |r.handled| < r.log.queue.next <= |r.log.stored|
    requires op.BlockOp? ==> Stuck(op.b, |r.handled|, r.log.stored[|r.handled|])
    ensures Stalled(r, Step(r', op, position))
  {
    if op.BlockOp? {
      StuckBlock(r', op.b, position);
    } else {
      StepTracks(r', op, position);
    }
  }

  /** Every block among the operations postpones the extrinsic right at its start. */
  ghost predicate AllStuck(ops: seq<Op>, k: u32, x: Pending) {
    forall i :: 0 <= i < |ops| && ops[i].BlockOp? ==> Stuck(ops[i].b, k, x)
  }

  lemma StuckFront(ops: seq<Op>, op: Op, k: u32, x: Pending)
    requires AllStuck(ops + [op], k, x)
    ensures AllStuck(ops, k, x) && (op.BlockOp? ==> Stuck(op.b, k, x))
  {
    assert (ops + [op])[|ops|] == op;
    forall i | 0 <= i < |ops| && ops[i].BlockOp? ensures Stuck(ops[i].b, k, x) {
      assert (ops + [op])[i] == ops[i];
    }
  }

  /** As long as every block finds the first extrinsic too heavy beside the reads it starts with, nothing at all
      is handled, whatever else is stored behind it. */
  lemma {:induction false} HeadOfLine(ops: seq<Op>, r: Run, more: seq<Op>)
    requires r == RunOf(ops) && |r.handled| < r.log.queue.next <= |r.log.stored|
    requires AllStuck(more, |r.handled|, r.log.stored[|r.handled|])
    ensures Stalled(r, RunOf(ops + more))
    decreases |more|
  {
    if more == [] {
      RunTracks(ops);
      assert ops + more == ops;
    } else {
      var front, op := more[..|more| - 1], more[|more| - 1];
      assert more == front + [op];
      StuckFront(front, op, |r.handled|, r.log.stored[|r.handled|]);
      HeadOfLine(ops, r, front);
      assert ops + more == (ops + front) + [op];
      RunOfMore(ops + front, op);
      StalledStep(r, RunOf(ops + front), op, |ops + front|);
    }
  }

  /** And that happens: under settings that do not fit there is an extrinsic that no block of its lifetime
      handles, whatever is stored behind it. */
  lemma StallHappens(db: DbWeight, c: Chain, dec: Decoder, x: Pending, more: seq<Op>)
    requires !Fits(db, c, db.Reads(2))
    requires forall i :: 0 <= i < |more| && more[i].BlockOp? ==>
               more[i].b == HeaviestBlock(more[i].b.now, db, c, dec) && more[i].b.now <= x.submittedAt + c.lifetime
    ensures RunOf([StoreOp(x, 1)] + more).handled == []
  {
    var r := RunOf([StoreOp(x, 1)]);
    OneStored(x);
    forall i | 0 <= i < |more| && more[i].BlockOp? ensures Stuck(more[i].b, 0, x) {
      TooTightPostpones(more[i].b.now, db, c, dec, db.Reads(2), 0, x);
    }
    HeadOfLine([StoreOp(x, 1)], r, more);
  }

  lemma OneStored(x: Pending)
    ensures RunOf([StoreOp(x, 1)]) == Run(Log(Queue(map[0 := x], 1), [x]), [], [])
  {
    assert [StoreOp(x, 1)][..0] == [];
  }
}
