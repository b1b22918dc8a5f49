/** The queue of encrypted extrinsics of `pallets/shield/src/lib.rs`: `store_encrypted` appends to it,
    `process_pending_extrinsics` works it off at the start of each block. */
module ShieldQueue {
  import opened Wrappers
  import opened RuntimeCalls
  import opened DepthScan
  import opened QubitumPrivacy
  import opened ShieldQueueFilter
  import opened MachineIntegers
  import opened Weights

  datatype Pending = Pending(who: AccountId, encryptedCall: seq<byte>, submittedAt: u32)

  /** `PendingExtrinsics` and `NextPendingExtrinsicIndex`. */
  datatype Queue = Queue(pending: map<u32, Pending>, next: u32)

  datatype Outcome = DispatchOk(actual: Option<Weight>) | DispatchErr

  /** What the loop reads from the chain while it handles one index, and what the dispatch of that index
      answers. A dispatch may change any of it before the next index is handled, and it may itself get
      extrinsics stored: `stores` are the attempts it makes, against the capacity `maxPending`. */
  datatype Chain = Chain(
    lifetime: u32,
    maxExtrinsicWeight: u64,
    onInitializeWeight: u64,
    envelopes: Envelopes,
    outcome: Outcome,
    stores: seq<Pending>,
    maxPending: u32
  )

  datatype Block = Block(
    now: u32,
    db: DbWeight,
    dec: Decoder,
    decrypt: seq<byte> -> Option<RuntimeCall>,
    callWeight: RuntimeCall -> Weight,
    chain: u32 -> Chain
  )

  datatype Fate =
    | Expired
    | DecodeFailed
    | Refused
    | WeightExceeded
    | Dispatched(origin: Origin, call: RuntimeCall, outcome: Outcome)

  // ----- one index -----------------------------------------------------------------------------

  predicate IsExpired(b: Block, index: u32, x: Pending) {
    b.now > x.submittedAt && b.now - x.submittedAt > b.chain(index).lifetime
  }

  predicate Admits(b: Block, index: u32, call: RuntimeCall) {
    !IsShieldEntry(call) && QueueFilterContains(b.dec, b.chain(index).envelopes, call)
  }

  /** The weight that must still fit in the block before `call` is dispatched. */
  function DispatchWeight(b: Block, call: RuntimeCall): Weight {
    b.db.Writes(2).Add(b.callWeight(call))
  }

  /** What becomes of one pending extrinsic; `None` postpones it and ends the block's work. */
  function FateOf(b: Block, index: u32, x: Pending, spent: Weight): Option<Fate> {
    if IsExpired(b, index, x) then Some(Expired)
    else
      match b.decrypt(x.encryptedCall)
      case None => Some(DecodeFailed)
      case Some(call) =>
        if !Admits(b, index, call) then Some(Refused)
        else if b.callWeight(call).AnyGt(Weight(b.chain(index).maxExtrinsicWeight, 0)) then Some(WeightExceeded)
        else if spent.Add(DispatchWeight(b, call)).AnyGt(Weight(b.chain(index).onInitializeWeight, 0)) then None
        else Some(Dispatched(OriginFor(b.dec, b.chain(index).envelopes, x.who, call), call, b.chain(index).outcome))
  }

  /** The weight spent once the extrinsic has met its fate. */
  function SpentAfter(b: Block, spent: Weight, fate: Fate): Weight {
    var removed := spent.Add(b.db.ReadsWrites(1, 2));
    match fate
    case Dispatched(_, call, DispatchOk(Some(actual))) => removed.Add(actual)
    case Dispatched(_, call, _) => removed.Add(b.callWeight(call))
    case _ => removed
  }

  // ----- storing -------------------------------------------------------------------------------

  /** The queue together with everything ever stored in it. */
  datatype Log = Log(queue: Queue, stored: seq<Pending>)

  /** `PendingExtrinsics::insert` at the next index, which then advances and sticks at its maximum. */
  function Appended(q: Queue, x: Pending): Queue {
    Queue(q.pending[q.next := x], if q.next < U32_MAX then q.next + 1 else U32_MAX)
  }

  function Store(l: Log, x: Pending, maxPending: u32): Log {
    if |l.queue.pending| >= maxPending then l else Log(Appended(l.queue, x), l.stored + [x])
  }

  function StoreAll(l: Log, xs: seq<Pending>, maxPending: u32): Log
    decreases |xs|
  {
    if xs == [] then l else StoreAll(Store(l, xs[0], maxPending), xs[1..], maxPending)
  }

  // ----- one block -----------------------------------------------------------------------------

  function Removed(l: Log, index: u32): Log {
    l.(queue := l.queue.(pending := l.queue.pending - {index}))
  }

  /** An extrinsic that meets a fate leaves the queue, before a dispatch can add to it. */
  function LogAfter(b: Block, l: Log, index: u32, fate: Fate): Log {
    if fate.Dispatched? then StoreAll(Removed(l, index), b.chain(index).stores, b.chain(index).maxPending)
    else Removed(l, index)
  }

  datatype Handled = Handled(index: u32, x: Pending, fate: Fate)

  /** What a block's work leaves behind: the queue, the extrinsics handled in order with their fates,
      the one postponed, if any, and the weight spent. */
  datatype Work = Work(log: Log, handled: seq<Handled>, postponed: Option<u32>, spent: Weight)

  /** `end` is the next index as it was read before the loop. */
  function WorkFrom(b: Block, l: Log, index: u32, end: u32, spent: Weight): Work
    requires index <= end
    decreases end - index
  {
    if index == end then Work(l, [], None, spent)
    else if index !in l.queue.pending then WorkFrom(b, l, index + 1, end, spent.Add(b.db.Reads(1)))
    else
      var x := l.queue.pending[index];
      match FateOf(b, index, x, spent)
      case None => Work(l, [], Some(index), spent)
      case Some(fate) =>
        var rest := WorkFrom(b, LogAfter(b, l, index, fate), index + 1, end, SpentAfter(b, spent, fate));
        More(Handled(index, x, fate), rest)
  }

  function More(first: Handled, rest: Work): Work {
    rest.(handled := [first] + rest.handled)
  }

  function StartIndex(q: Queue): u32 {
    if |q.pending| <= q.next then q.next - |q.pending| else 0
  }

  function BlockWork(b: Block, l: Log): Work {
    WorkFrom(b, l, StartIndex(l.queue), l.queue.next, b.db.Reads(2))
  }

  /** `work` is what was `done` followed by `rest`. */
  ghost predicate Continues(work: Work, done: seq<Handled>, rest: Work) {
    work == rest.(handled := done + rest.handled)
  }

  lemma ContinuesStep(work: Work, done: seq<Handled>, b: Block, l: Log, index: u32, end: u32, spent: Weight, fate: Fate)
    requires index < end && index in l.queue.pending && FateOf(b, index, l.queue.pending[index], spent) == Some(fate)
    requires Continues(work, done, WorkFrom(b, l, index, end, spent))
    ensures Continues(work, done + [Handled(index, l.queue.pending[index], fate)],
                      WorkFrom(b, LogAfter(b, l, index, fate), index + 1, end, SpentAfter(b, spent, fate)))
  {
  }

  datatype QueueError = BadOrigin | TooManyPendingExtrinsics

  /** The storage of the pallet; `stored` and `handled` stand for the events of what was stored and handled. */
  class ShieldPallet {
    var pending: map<u32, Pending>
    var next: u32
    var stored: seq<Pending>
    var handled: seq<Handled>

    function State(): Log
      reads this
    {
      Log(Queue(pending, next), stored)
    }

    /** `origin` is the signer, if there is one. */
    method StoreEncrypted(origin: Option<AccountId>, encryptedCall: seq<byte>, now: u32, maxPending: u32)
        returns (r: Result<u32, QueueError>)
      modifies this`pending, this`next, this`stored
      ensures r == if origin.None? then Err(BadOrigin)
                   else if |old(pending)| < maxPending then Ok(old(next)) else Err(TooManyPendingExtrinsics)
      ensures State() == if origin.None? then old(State())
                         else Store(old(State()), Pending(origin.value, encryptedCall, now), maxPending)
      ensures r.Err? ==> State() == old(State())
      ensures r.Ok? ==>
                && |old(pending)| < maxPending
                && pending == old(pending)[old(next) := Pending(origin.value, encryptedCall, now)]
                && next == (if old(next) < 0xFFFF_FFFF then old(next) + 1 else 0xFFFF_FFFF)
                && stored == old(stored) + [Pending(origin.value, encryptedCall, now)]
    {
      if origin.None? {
        return Err(BadOrigin);
      }
      if |pending| >= maxPending {
        return Err(TooManyPendingExtrinsics);
      }
      var index := next;
      var x := Pending(origin.value, encryptedCall, now);
      pending := pending[index := x];
      next := if index < U32_MAX then index + 1 else U32_MAX;
      stored := stored + [x];
      return Ok(index);
    }

    /** A dispatch, as far as the queue sees it: it may store extrinsics, and it answers. */
    method Dispatch(b: Block, index: u32) returns (outcome: Outcome)
      modifies this`pending, this`next, this`stored
      ensures State() == StoreAll(old(State()), b.chain(index).stores, b.chain(index).maxPending)
      ensures outcome == b.chain(index).outcome
    {
      var xs, maxPending := b.chain(index).stores, b.chain(index).maxPending;
      for i := 0 to |xs|
        invariant StoreAll(old(State()), xs, maxPending) == StoreAll(State(), xs[i..], maxPending)
      {
        assert xs[i..][0] == xs[i] && xs[i..][1..] == xs[i + 1..];
        var r := StoreEncrypted(Some(xs[i].who), xs[i].encryptedCall, xs[i].submittedAt, maxPending);
      }
      return b.chain(index).outcome;
    }

    /** One turn of the loop at an index that holds an extrinsic; no fate means that it is postponed. */
    method HandleIndex(b: Block, index: u32, spent: Weight) returns (fate: Option<Fate>, weight: Weight)
      requires index in pending
      modifies this
      ensures fate == FateOf(b, index, old(pending)[index], spent)
      ensures fate.None? ==> unchanged(this) && weight == spent
      ensures fate.Some? ==>
                && State() == LogAfter(b, old(State()), index, fate.value)
                && handled == old(handled) + [Handled(index, old(pending)[index], fate.value)]
                && weight == SpentAfter(b, spent, fate.value)
    {
      var x, chain := pending[index], b.chain(index);
      weight := spent;
      var removeWeight := b.db.ReadsWrites(1, 2);

      var age := if b.now >= x.submittedAt then b.now - x.submittedAt else 0;
      if age > chain.lifetime {
        pending := pending - {index};
        weight := weight.Add(removeWeight);
        handled := handled + [Handled(index, x, Expired)];
        return Some(Expired), weight;
      }

      var decrypted := b.decrypt(x.encryptedCall);
      if decrypted.None? {
        pending := pending - {index};
        weight := weight.Add(removeWeight);
        handled := handled + [Handled(index, x, DecodeFailed)];
        return Some(DecodeFailed), weight;
      }
      var call := decrypted.value;

      if IsShieldEntry(call) || !QueueFilterContains(b.dec, chain.envelopes, call) {
        pending := pending - {index};
        weight := weight.Add(removeWeight);
        handled := handled + [Handled(index, x, Refused)];
        return Some(Refused), weight;
      }

      var declared := b.callWeight(call);
      var dispatchWeight := b.db.Writes(2).Add(declared);
      if declared.AnyGt(Weight(chain.maxExtrinsicWeight, 0)) {
        pending := pending - {index};
        weight := weight.Add(removeWeight);
        handled := handled + [Handled(index, x, WeightExceeded)];
        return Some(WeightExceeded), weight;
      }

      if weight.Add(dispatchWeight).AnyGt(Weight(chain.onInitializeWeight, 0)) {
        return None, weight;
      }

      pending := pending - {index};
      weight := weight.Add(removeWeight);
      var origin := OriginFor(b.dec, chain.envelopes, x.who, call);
      var outcome := Dispatch(b, index);
      match outcome {
        case DispatchOk(actual) =>
          weight := weight.Add(if actual.Some? then actual.value else declared);
        case DispatchErr =>
          weight := weight.Add(declared);
      }
      var dispatched := Dispatched(origin, call, outcome);
      handled := handled + [Handled(index, x, dispatched)];
      return Some(dispatched), weight;
    }

    method ProcessPendingExtrinsics(b: Block) returns (weight: Weight, postponed: Option<u32>)
      modifies this
      ensures old(handled) <= handled
      ensures Work(State(), handled[|old(handled)|..], postponed, weight) == BlockWork(b, old(State()))
    {
      var end := next;
      weight := b.db.Reads(2);
      postponed := None;
      if |pending| == 0 {
        return;
      }
      ghost var work := BlockWork(b, State());
      ghost var done: seq<Handled> := [];
      var index := if |pending| <= end then end - |pending| else 0;
      while index < end
        invariant index <= end && postponed.None?
        invariant handled == old(handled) + done
        invariant Continues(work, done, WorkFrom(b, State(), index, end, weight))
        decreases end - index
      {
        if index !in pending {
          weight := weight.Add(b.db.Reads(1));
        } else {
          ghost var l, spent := State(), weight;
          var fate;
          fate, weight := HandleIndex(b, index, weight);
          if fate.None? {
            postponed := Some(index);
            break;
          }
          ContinuesStep(work, done, b, l, index, end, spent, fate.value);
          done := done + [Handled(index, l.queue.pending[index], fate.value)];
        }
        index := index + 1;
      }
      assert handled[|old(handled)|..] == done;
    }
  }

  // ----- the queue is a window -----------------------------------------------------------------

  /** The pending indices are those of a range, without a gap. */
  ghost predicate KeysFrom(pending: map<u32, Pending>, lo: nat, hi: nat) {
    forall i: u32 :: i in pending <==> lo <= i < hi
  }

  lemma {:induction false} KeysCount(pending: map<u32, Pending>, lo: nat, hi: nat)
    requires lo <= hi <= U32_MAX + 1 && KeysFrom(pending, lo, hi)
    ensures |pending| == hi - lo
    decreases hi
  {
    if lo < hi {
      KeysCount(pending - {hi - 1}, lo, hi - 1);
      assert pending.Keys == (pending - {hi - 1}).Keys + {hi - 1};
    } else {
      assert pending == map[];
    }
  }

  /** The pending indices are the last ones given out. */
  ghost predicate Contiguous(q: Queue) {
    |q.pending| <= q.next && KeysFrom(q.pending, q.next - |q.pending|, q.next)
  }

  /** Storing keeps the queue contiguous exactly as long as the index counter has not reached its
      maximum; there the counter sticks and the loop's range leaves the new entry out. */
  lemma StoreKeepsContiguousIff(q: Queue, x: Pending)
    requires Contiguous(q)
    ensures Contiguous(Appended(q, x)) <==> q.next < U32_MAX
  {
    var q', from := Appended(q, x), q.next - |q.pending|;
    if q.next < U32_MAX {
      assert KeysFrom(q'.pending, from, q'.next);
      KeysCount(q'.pending, from, q'.next);
    } else {
      assert q.next in q'.pending;
    }
  }

  /** What the 2^32 indices can hold of everything stored: the last index always holds the newest entry. */
  function Kept(stored: seq<Pending>): seq<Pending> {
    if |stored| <= U32_MAX + 1 then stored else stored[..U32_MAX] + [stored[|stored| - 1]]
  }

  /** The first `done` extrinsics stored have left the queue, and the rest of what can be kept is in it. */
  ghost predicate Window(l: Log, done: nat) {
    && l.queue.next == (if |l.stored| <= U32_MAX then |l.stored| else U32_MAX)
    && done <= l.queue.next
    && KeysFrom(l.queue.pending, done, |Kept(l.stored)|)
    && forall i :: i in l.queue.pending ==> l.queue.pending[i] == Kept(l.stored)[i]
  }

  /** A new extrinsic takes a place of its own, or that of the one at the last index. */
  lemma KeptMore(stored: seq<Pending>, x: Pending)
    ensures Kept(stored + [x]) == if |stored| <= U32_MAX then Kept(stored) + [x] else Kept(stored)[U32_MAX := x]
  {
  }

  lemma StoreWindow(l: Log, done: nat, x: Pending, maxPending: u32)
    requires Window(l, done)
    ensures Window(Store(l, x, maxPending), done) && l.stored <= Store(l, x, maxPending).stored
  {
    KeptMore(l.stored, x);
  }

  lemma {:induction false} StoreAllWindow(l: Log, done: nat, xs: seq<Pending>, maxPending: u32)
    requires Window(l, done)
    ensures Window(StoreAll(l, xs, maxPending), done) && l.stored <= StoreAll(l, xs, maxPending).stored
    decreases |xs|
  {
    if xs != [] {
      StoreWindow(l, done, xs[0], maxPending);
      StoreAllWindow(Store(l, xs[0], maxPending), done, xs[1..], maxPending);
    }
  }

  lemma HandleWindow(b: Block, l: Log, index: u32, fate: Fate)
    requires Window(l, index) && index < l.queue.next
    ensures Window(LogAfter(b, l, index, fate), index + 1) && l.stored <= LogAfter(b, l, index, fate).stored
  {
    assert Window(Removed(l, index), index + 1);
    if fate.Dispatched? {
      StoreAllWindow(Removed(l, index), index + 1, b.chain(index).stores, b.chain(index).maxPending);
    }
  }

  /** What was handled is, in the order stored, what was stored from `index` on. */
  ghost predicate AreStored(stored: seq<Pending>, index: nat, handled: seq<Handled>) {
    && index + |handled| <= |stored|
    && forall k :: 0 <= k < |handled| ==> handled[k].index == index + k && handled[k].x == stored[index + k]
  }

  /** `w` handled the front of the queue, each extrinsic once, as it was stored and in the order stored; it
      stopped early only at the index it postponed, and the rest is in the queue. */
  ghost predicate FrontTaken(l: Log, index: u32, end: u32, w: Work) {
    && l.stored <= w.log.stored
    && index + |w.handled| <= end
    && Window(w.log, index + |w.handled|)
    && AreStored(l.stored, index, w.handled)
    && w.postponed == (if index + |w.handled| == end then None else Some(index + |w.handled|))
  }

  lemma AreStoredMore(stored: seq<Pending>, stored': seq<Pending>, index: nat, first: Handled, handled: seq<Handled>)
    requires index < |stored| && first.index == index && first.x == stored[index] && stored <= stored'
    requires AreStored(stored', index + 1, handled) && index + 1 + |handled| <= |stored|
    ensures AreStored(stored, index, [first] + handled)
  {
    var handled' := [first] + handled;
    forall k | 0 <= k < |handled'| ensures handled'[k].index == index + k && handled'[k].x == stored[index + k] {
      assert k > 0 ==> handled'[k] == handled[k - 1];
    }
  }

  lemma FrontTakenMore(l: Log, l': Log, index: u32, end: u32, first: Handled, w: Work)
    requires index < end <= |l.stored| && first.index == index && first.x == l.stored[index] && l.stored <= l'.stored
    requires FrontTaken(l', index + 1, end, w)
    ensures FrontTaken(l, index, end, More(first, w))
  {
    AreStoredMore(l.stored, l'.stored, index, first, w.handled);
  }

  lemma FrontTakenStop(l: Log, index: u32, end: u32, postponed: Option<u32>, spent: Weight)
    requires Window(l, index) && index <= end && postponed == if index == end then None else Some(index)
    ensures FrontTaken(l, index, end, Work(l, [], postponed, spent))
  {
  }

  /** The loop finds the next extrinsic stored at its index, and goes on behind it unless it postpones it. */
  lemma WorkUnfolds(b: Block, l: Log, index: u32, end: u32, spent: Weight)
    requires Window(l, index) && index < end <= l.queue.next
    ensures index in l.queue.pending && l.queue.pending[index] == l.stored[index]
    ensures
      match FateOf(b, index, l.stored[index], spent)
      case None => WorkFrom(b, l, index, end, spent) == Work(l, [], Some(index), spent)
      case Some(fate) =>
        var l' := LogAfter(b, l, index, fate);
        && Window(l', index + 1) && l.stored <= l'.stored && end <= l'.queue.next
        && WorkFrom(b, l, index, end, spent) ==
             More(Handled(index, l.stored[index], fate), WorkFrom(b, l', index + 1, end, SpentAfter(b, spent, fate)))
  {
    var fate := FateOf(b, index, l.queue.pending[index], spent);
    if fate.Some? {
      HandleWindow(b, l, index, fate.value);
    }
  }

  /** That is what the loop does, whatever its dispatches store meanwhile. */
  lemma {:induction false} WorkTakesFront(b: Block, l: Log, index: u32, end: u32, spent: Weight)
    requires Window(l, index) && index <= end <= l.queue.next
    ensures FrontTaken(l, index, end, WorkFrom(b, l, index, end, spent))
    decreases end - index
  {
    if index == end {
      FrontTakenStop(l, index, end, None, spent);
    } else {
      WorkUnfolds(b, l, index, end, spent);
      var x := l.stored[index];
      var fate := FateOf(b, index, x, spent);
      if fate.None? {
        FrontTakenStop(l, index, end, Some(index), spent);
      } else {
        var l', after := LogAfter(b, l, index, fate.value), SpentAfter(b, spent, fate.value);
        WorkTakesFront(b, l', index + 1, end, after);
        FrontTakenMore(l, l', index, end, Handled(index, x, fate.value), WorkFrom(b, l', index + 1, end, after));
      }
    }
  }

  /** The weight spent before the first extrinsic: once the last index is taken, the loop starts one index early. */
  function StartWeight(b: Block, l: Log, done: nat): Weight {
    if |l.stored| <= U32_MAX || done == 0 then b.db.Reads(2) else b.db.Reads(2).Add(b.db.Reads(1))
  }

  lemma BlockFromWindow(b: Block, l: Log, done: u32)
    requires Window(l, done)
    ensures BlockWork(b, l) == WorkFrom(b, l, done, l.queue.next, StartWeight(b, l, done))
  {
    KeysCount(l.queue.pending, done, |Kept(l.stored)|);
  }

  // ----- what is dispatched --------------------------------------------------------------------

  /** What the queue filter admits, said along paths. */
  ghost predicate Admissible(dec: Decoder, call: RuntimeCall) {
    && WithinBudget(dec, call, 0)
    && !ReachesOpenly(dec, IsShieldEntry, call)
    && forall p :: OpenPathTo(dec, IsQubitum, call, p) ==> AllThrough(Routable, p)
  }

  ghost predicate Light(b: Block, index: u32, call: RuntimeCall) {
    b.callWeight(call).Leq(Weight(b.chain(index).maxExtrinsicWeight, 0))
  }

  /** An extrinsic dispatched from the queue is fresh, light, admissible and what its submitter encrypted; its
      origin is the submitter's shielded one if it openly reaches a Qubitum call, and the plain one otherwise. */
  ghost predicate SafeDispatch(b: Block, index: u32, x: Pending, origin: Origin, call: RuntimeCall) {
    && !IsExpired(b, index, x)
    && b.decrypt(x.encryptedCall) == Some(call)
    && Admissible(b.dec, call)
    && Light(b, index, call)
    && origin == if ReachesOpenly(b.dec, IsQubitum, call) then Shielded(x.who) else Signed(x.who)
  }

  /** Each fate has its reason in the block that decided it. */
  ghost predicate SafeFate(b: Block, index: u32, x: Pending, fate: Fate) {
    var decrypted := b.decrypt(x.encryptedCall);
    match fate
    case Expired => IsExpired(b, index, x)
    case DecodeFailed => !IsExpired(b, index, x) && decrypted.None?
    case Refused => !IsExpired(b, index, x) && decrypted.Some? && !Admissible(b.dec, decrypted.value)
    case WeightExceeded =>
      && !IsExpired(b, index, x) && decrypted.Some?
      && Admissible(b.dec, decrypted.value) && !Light(b, index, decrypted.value)
    case Dispatched(origin, call, outcome) => SafeDispatch(b, index, x, origin, call) && outcome == b.chain(index).outcome
  }

  lemma AdmitsIff(b: Block, index: u32, call: RuntimeCall)
    requires LimitStable(b.dec)
    ensures Admits(b, index, call) <==> Admissible(b.dec, call)
  {
    QueueFilterExact(b.dec, b.chain(index).envelopes, call);
    if IsShieldEntry(call) {
      ReachesSelf(b.dec, IsShieldEntry, call);
    }
  }

  lemma FateSafe(b: Block, index: u32, x: Pending, spent: Weight)
    requires LimitStable(b.dec) && FateOf(b, index, x, spent).Some?
    ensures SafeFate(b, index, x, FateOf(b, index, x, spent).value)
  {
    var fate, decrypted := FateOf(b, index, x, spent).value, b.decrypt(x.encryptedCall);
    if decrypted.Some? {
      AdmitsIff(b, index, decrypted.value);
    }
    if fate.Dispatched? {
      OriginRouting(b.dec, b.chain(index).envelopes, x.who, fate.call);
    }
  }

  /** And nothing that may be dispatched is lost: it is dispatched if it still fits in the block, and postponed
      otherwise. */
  lemma SafeIsDispatched(b: Block, index: u32, x: Pending, spent: Weight, origin: Origin, call: RuntimeCall)
    requires LimitStable(b.dec) && SafeDispatch(b, index, x, origin, call)
    ensures FateOf(b, index, x, spent) ==
            if spent.Add(DispatchWeight(b, call)).Leq(Weight(b.chain(index).onInitializeWeight, 0))
            then Some(Dispatched(origin, call, b.chain(index).outcome)) else None
  {
    AdmitsIff(b, index, call);
    OriginRouting(b.dec, b.chain(index).envelopes, x.who, call);
  }

  ghost predicate AllSafe(b: Block, handled: seq<Handled>) {
    forall k :: 0 <= k < |handled| ==> SafeFate(b, handled[k].index, handled[k].x, handled[k].fate)
  }

  lemma {:induction false} WorkSafe(b: Block, l: Log, index: u32, end: u32, spent: Weight)
    requires LimitStable(b.dec) && index <= end
    ensures AllSafe(b, WorkFrom(b, l, index, end, spent).handled)
    decreases end - index
  {
    if index < end {
      if index !in l.queue.pending {
        WorkSafe(b, l, index + 1, end, spent.Add(b.db.Reads(1)));
      } else {
        var x := l.queue.pending[index];
        var fate := FateOf(b, index, x, spent);
        if fate.Some? {
          FateSafe(b, index, x, spent);
          WorkSafe(b, LogAfter(b, l, index, fate.value), index + 1, end, SpentAfter(b, spent, fate.value));
        }
      }
    }
  }

  // ----- proof size ----------------------------------------------------------------------------

  /** Both weight limits allow no proof size at all. A call that declares some is discarded, and it is so for
      good; one that declares none is postponed once the block has spent some. */
  lemma ProofSizeDecides(b: Block, index: u32, x: Pending, spent: Weight, call: RuntimeCall)
    requires LimitStable(b.dec)
    requires !IsExpired(b, index, x) && b.decrypt(x.encryptedCall) == Some(call) && Admissible(b.dec, call)
    ensures b.callWeight(call).proofSize > 0 ==> FateOf(b, index, x, spent) == Some(WeightExceeded)
    ensures Light(b, index, call) && spent.proofSize > 0 ==> FateOf(b, index, x, spent) == None
  {
    AdmitsIff(b, index, call);
  }

  ghost predicate NoneDispatched(handled: seq<Handled>) {
    forall k :: 0 <= k < |handled| ==> !handled[k].fate.Dispatched?
  }

  /** So after a dispatch that reports some proof size a block dispatches nothing more. */
  lemma {:induction false} ProofSizeEndsDispatches(b: Block, l: Log, index: u32, end: u32, spent: Weight)
    requires index <= end && spent.proofSize > 0
    ensures NoneDispatched(WorkFrom(b, l, index, end, spent).handled)
    decreases end - index
  {
    if index < end {
      if index !in l.queue.pending {
        ProofSizeEndsDispatches(b, l, index + 1, end, spent.Add(b.db.Reads(1)));
      } else {
        var fate := FateOf(b, index, l.queue.pending[index], spent);
        if fate.Some? {
          ProofSizeEndsDispatches(b, LogAfter(b, l, index, fate.value), index + 1, end, SpentAfter(b, spent, fate.value));
        }
      }
    }
  }

  // ----- weight --------------------------------------------------------------------------------

  /** Removing an extrinsic costs one read and two writes; a dispatch costs what it reports, or else what its
      call declares, on top. */
  function Cost(b: Block, fate: Fate): (nat, nat) {
    var removal := b.db.ReadsWrites(1, 2);
    if !fate.Dispatched? then (removal.refTime, removal.proofSize)
    else
      var w := if fate.outcome.DispatchOk? && fate.outcome.actual.Some? then fate.outcome.actual.value else b.callWeight(fate.call);
      (removal.refTime + w.refTime, removal.proofSize + w.proofSize)
  }

  function Costs(b: Block, handled: seq<Handled>): (nat, nat) {
    if handled == [] then (0, 0)
    else
      var (time, size) := Costs(b, handled[1..]);
      (Cost(b, handled[0].fate).0 + time, Cost(b, handled[0].fate).1 + size)
  }

  ghost predicate Weighs(b: Block, w: Work, spent: Weight) {
    w.spent == Weight(ToU64(spent.refTime + Costs(b, w.handled).0), ToU64(spent.proofSize + Costs(b, w.handled).1))
  }

  lemma CostStep(b: Block, spent: Weight, fate: Fate)
    ensures SpentAfter(b, spent, fate) ==
            Weight(ToU64(spent.refTime + Cost(b, fate).0), ToU64(spent.proofSize + Cost(b, fate).1))
  {
  }

  /** What a dispatch adds to the removal: what it reports, or what its call declares if it reports nothing or
      fails. */
  lemma DispatchCharged(b: Block, spent: Weight, origin: Origin, call: RuntimeCall)
    ensures
      var removed := spent.Add(b.db.Reads(1).Add(b.db.Writes(2)));
      && (forall w :: SpentAfter(b, spent, Dispatched(origin, call, DispatchOk(Some(w)))) == removed.Add(w))
      && SpentAfter(b, spent, Dispatched(origin, call, DispatchOk(None))) == removed.Add(b.callWeight(call))
      && SpentAfter(b, spent, Dispatched(origin, call, DispatchErr)) == removed.Add(b.callWeight(call))
      && SpentAfter(b, spent, Expired) == SpentAfter(b, spent, DecodeFailed) == removed
      && SpentAfter(b, spent, Refused) == SpentAfter(b, spent, WeightExceeded) == removed
  {
  }

  lemma WeighsMore(b: Block, first: Handled, rest: Work, spent: Weight)
    requires Weighs(b, rest, SpentAfter(b, spent, first.fate))
    ensures Weighs(b, More(first, rest), spent)
  {
    CostStep(b, spent, first.fate);
    assert More(first, rest).handled[1..] == rest.handled;
  }

  lemma WeighsStop(b: Block, l: Log, postponed: Option<u32>, spent: Weight)
    ensures Weighs(b, Work(l, [], postponed, spent), spent)
  {
  }

  /** The weight a block reports is the saturated sum of the costs of what it handled. */
  lemma {:induction false} WorkWeighs(b: Block, l: Log, index: u32, end: u32, spent: Weight)
    requires Window(l, index) && index <= end <= l.queue.next
    ensures Weighs(b, WorkFrom(b, l, index, end, spent), spent)
    decreases end - index
  {
    if index == end {
      WeighsStop(b, l, None, spent);
    } else {
      WorkUnfolds(b, l, index, end, spent);
      var x := l.stored[index];
      var fate := FateOf(b, index, x, spent);
      if fate.None? {
        WeighsStop(b, l, Some(index), spent);
      } else {
        var l', after := LogAfter(b, l, index, fate.value), SpentAfter(b, spent, fate.value);
        WorkWeighs(b, l', index + 1, end, after);
        WeighsMore(b, Handled(index, x, fate.value), WorkFrom(b, l', index + 1, end, after), spent);
      }
    }
  }

  // ----- the limit, when extrinsics are only cleared away --------------------------------------

  /** The time it takes to remove `n` extrinsics, before it saturates. */
  function Removals(b: Block, n: nat): nat {
    if n == 0 then 0 else Removals(b, n - 1) + b.db.ReadsWrites(1, 2).refTime
  }

  lemma {:induction false} RemovalsTotal(b: Block, n: nat)
    ensures Removals(b, n) == n * b.db.ReadsWrites(1, 2).refTime
  {
    if n > 0 {
      RemovalsTotal(b, n - 1);
      var removal := b.db.ReadsWrites(1, 2).refTime;
      assert n * removal == (n - 1) * removal + removal;
    }
  }

  /** An extrinsic that is not dispatched whatever has been spent: too old, undecryptable, refused or too heavy. */
  predicate ClearedAway(b: Block, index: u32, x: Pending) {
    || IsExpired(b, index, x)
    || match b.decrypt(x.encryptedCall)
       case None => true
       case Some(call) =>
         !Admits(b, index, call) || b.callWeight(call).AnyGt(Weight(b.chain(index).maxExtrinsicWeight, 0))
  }

  ghost predicate AllClearedAway(b: Block, l: Log, index: u32, end: u32) {
    end <= |l.stored| && forall i: u32 :: index <= i < end ==> ClearedAway(b, i, l.stored[i])
  }

  /** `w` cleared `n` extrinsics away, dispatching and storing none. */
  ghost predicate OnlyCleared(stored: seq<Pending>, n: nat, w: Work) {
    |w.handled| == n && NoneDispatched(w.handled) && w.log.stored == stored && w.postponed.None?
  }

  ghost predicate SpentOnRemovals(b: Block, n: nat, w: Work, spent: Weight) {
    w.spent.refTime == ToU64(spent.refTime + Removals(b, n))
  }

  lemma ClearedFate(b: Block, index: u32, x: Pending, spent: Weight) returns (fate: Fate)
    requires ClearedAway(b, index, x)
    ensures FateOf(b, index, x, spent) == Some(fate) && !fate.Dispatched?
  {
    fate := FateOf(b, index, x, spent).value;
  }

  lemma OnlyClearedMore(stored: seq<Pending>, n: nat, first: Handled, w: Work)
    requires !first.fate.Dispatched? && OnlyCleared(stored, n, w)
    ensures OnlyCleared(stored, n + 1, More(first, w))
  {
  }

  lemma {:induction false} ClearedCosts(b: Block, handled: seq<Handled>)
    requires NoneDispatched(handled)
    ensures Costs(b, handled).0 == Removals(b, |handled|)
    decreases |handled|
  {
    if handled != [] {
      ClearedCosts(b, handled[1..]);
    }
  }

  lemma {:induction false} ClearingWork(b: Block, l: Log, index: u32, end: u32, spent: Weight)
    requires Window(l, index) && index <= end <= l.queue.next && AllClearedAway(b, l, index, end)
    ensures OnlyCleared(l.stored, end - index, WorkFrom(b, l, index, end, spent))
    decreases end - index
  {
    if index < end {
      WorkUnfolds(b, l, index, end, spent);
      var x := l.stored[index];
      var fate := ClearedFate(b, index, x, spent);
      var l', after := LogAfter(b, l, index, fate), SpentAfter(b, spent, fate);
      ClearedRest(b, l, index, end, fate);
      ClearingWork(b, l', index + 1, end, after);
      OnlyClearedMore(l.stored, end - index - 1, Handled(index, x, fate), WorkFrom(b, l', index + 1, end, after));
    }
  }

  lemma ClearedRest(b: Block, l: Log, index: u32, end: u32, fate: Fate)
    requires index < end && AllClearedAway(b, l, index, end) && !fate.Dispatched?
    ensures LogAfter(b, l, index, fate).stored == l.stored
    ensures AllClearedAway(b, LogAfter(b, l, index, fate), index + 1, end)
  {
  }

  /** The limit set to this work does not bind the clearing away: such a block stays within `limit` exactly if
      the reads it starts with and one removal for each extrinsic do. */
  lemma ClearingLimitIff(b: Block, l: Log, done: u32, limit: u64)
    requires Window(l, done) && AllClearedAway(b, l, done, l.queue.next)
    ensures BlockWork(b, l).spent.refTime <= limit <==>
            || limit == U64_MAX
            || StartWeight(b, l, done).refTime + (l.queue.next - done) * b.db.ReadsWrites(1, 2).refTime <= limit
  {
    ClearingWeight(b, l, done);
    RemovalsTotal(b, l.queue.next - done);
  }

  lemma ClearingWeight(b: Block, l: Log, done: u32)
    requires Window(l, done) && AllClearedAway(b, l, done, l.queue.next)
    ensures SpentOnRemovals(b, l.queue.next - done, BlockWork(b, l), StartWeight(b, l, done))
  {
    BlockFromWindow(b, l, done);
    ClearingWorkWeighs(b, l, done, l.queue.next, StartWeight(b, l, done));
  }

  lemma ClearingWorkWeighs(b: Block, l: Log, index: u32, end: u32, spent: Weight)
    requires Window(l, index) && index <= end <= l.queue.next && AllClearedAway(b, l, index, end)
    ensures SpentOnRemovals(b, end - index, WorkFrom(b, l, index, end, spent), spent)
  {
    ClearingWork(b, l, index, end, spent);
    WorkWeighs(b, l, index, end, spent);
    WeighsCleared(b, l.stored, end - index, WorkFrom(b, l, index, end, spent), spent);
  }

  lemma WeighsCleared(b: Block, stored: seq<Pending>, n: nat, w: Work, spent: Weight)
    requires Weighs(b, w, spent) && OnlyCleared(stored, n, w)
    ensures SpentOnRemovals(b, n, w, spent)
  {
    ClearedCosts(b, w.handled);
  }

  /** A block under the decryptor the runtime is configured with, which decrypts nothing. */
  function DecryptorlessBlock(db: DbWeight, dec: Decoder, chain: u32 -> Chain): Block {
    Block(0, db, dec, _ => None, _ => Weight(0, 0), chain)
  }

  /** A queue of one extrinsic takes a block beyond its limit. */
  lemma LimitExceeded(dec: Decoder, env: Envelopes, x: Pending)
    ensures
      var b := DecryptorlessBlock(DbWeight(1, 1), dec, _ => Chain(0, 0, 4, env, DispatchErr, [], 0));
      BlockWork(b, Log(Queue(map[0 := x], 1), [x])).spent.refTime == 5 > b.chain(0).onInitializeWeight
  {
    var b := DecryptorlessBlock(DbWeight(1, 1), dec, _ => Chain(0, 0, 4, env, DispatchErr, [], 0));
    var l := Log(Queue(map[0 := x], 1), [x]);
    ClearingWeight(b, l, 0);
  }

  // ----- the limit, with dispatches ------------------------------------------------------------

  /** The limit in force at each index of the range is at most `limit`. */
  ghost predicate Limited(b: Block, index: u32, end: u32, limit: u64) {
    forall i: u32 :: index <= i < end ==> b.chain(i).onInitializeWeight <= limit
  }

  /** The time by which the report of a dispatch exceeds what its call declares. */
  function Excess(b: Block, fate: Fate): nat {
    if fate.Dispatched? && fate.outcome.DispatchOk? && fate.outcome.actual.Some? &&
       fate.outcome.actual.value.refTime > b.callWeight(fate.call).refTime
    then fate.outcome.actual.value.refTime - b.callWeight(fate.call).refTime
    else 0
  }

  function Excesses(b: Block, handled: seq<Handled>): nat {
    if handled == [] then 0 else Excess(b, handled[0].fate) + Excesses(b, handled[1..])
  }

  /** There is none exactly if no dispatch reports more time than its call declares. */
  lemma {:induction false} ExcessesNoneIff(b: Block, handled: seq<Handled>)
    ensures Excesses(b, handled) == 0 <==> forall k :: 0 <= k < |handled| ==> Excess(b, handled[k].fate) == 0
    decreases |handled|
  {
    if handled != [] {
      ExcessesNoneIff(b, handled[1..]);
      assert forall k :: 0 <= k < |handled[1..]| ==> handled[1..][k] == handled[k + 1];
      assert forall k :: 0 < k < |handled| ==> handled[k] == handled[1..][k - 1];
    }
  }

  /** At most the limit and one read, or what was spent before, plus one removal for each extrinsic handled, plus
      what the dispatches report beyond what they declare. */
  ghost predicate WithinBound(b: Block, w: Work, spent: Weight, limit: u64) {
    w.spent.refTime <=
      Max(spent.refTime, limit + b.db.Reads(1).refTime) + Removals(b, |w.handled|) + Excesses(b, w.handled)
  }

  lemma BoundStep(b: Block, first: Handled, rest: Work, after: Weight, spent: Weight, limit: u64)
    requires WithinBound(b, rest, after, limit)
    requires after.refTime <=
             Max(spent.refTime + b.db.ReadsWrites(1, 2).refTime, limit + b.db.Reads(1).refTime) + Excess(b, first.fate)
    ensures WithinBound(b, More(first, rest), spent, limit)
  {
    assert |More(first, rest).handled| == |rest.handled| + 1;
    assert More(first, rest).handled[1..] == rest.handled;
  }

  lemma BoundStop(b: Block, l: Log, postponed: Option<u32>, spent: Weight, limit: u64)
    ensures WithinBound(b, Work(l, [], postponed, spent), spent, limit)
  {
  }

  lemma StepBound(b: Block, index: u32, x: Pending, spent: Weight, limit: u64)
    requires b.chain(index).onInitializeWeight <= limit && FateOf(b, index, x, spent).Some?
    ensures
      var fate := FateOf(b, index, x, spent).value;
      SpentAfter(b, spent, fate).refTime <=
        Max(spent.refTime + b.db.ReadsWrites(1, 2).refTime, limit + b.db.Reads(1).refTime) + Excess(b, fate)
  {
    var fate := FateOf(b, index, x, spent).value;
    if fate.Dispatched? {
      var call := fate.call;
      assert b.db.ReadsWrites(1, 2).refTime <= b.db.Reads(1).refTime + b.db.Writes(2).refTime;
      assert spent.Add(DispatchWeight(b, call)).refTime <= b.chain(index).onInitializeWeight;
    }
  }

  /** The limit binds the dispatches of a block by what they declare, not by what they report. */
  lemma {:induction false} WorkBound(b: Block, l: Log, index: u32, end: u32, spent: Weight, limit: u64)
    requires Window(l, index) && index <= end <= l.queue.next && Limited(b, index, end, limit)
    ensures WithinBound(b, WorkFrom(b, l, index, end, spent), spent, limit)
    decreases end - index
  {
    if index == end {
      BoundStop(b, l, None, spent, limit);
    } else {
      WorkUnfolds(b, l, index, end, spent);
      var x := l.stored[index];
      var fate := FateOf(b, index, x, spent);
      if fate.None? {
        BoundStop(b, l, Some(index), spent, limit);
      } else {
        var l', after := LogAfter(b, l, index, fate.value), SpentAfter(b, spent, fate.value);
        WorkBound(b, l', index + 1, end, after, limit);
        StepBound(b, index, x, spent, limit);
        BoundStep(b, Handled(index, x, fate.value), WorkFrom(b, l', index + 1, end, after), after, spent, limit);
      }
    }
  }

  /** So every block stays within its limit and one read, or the reads it starts with, plus one removal for each
      pending extrinsic, plus what its dispatches report beyond what they declare. */
  lemma LimitWithRoom(b: Block, l: Log, done: u32, limit: u64)
    requires Window(l, done) && Limited(b, done, l.queue.next, limit)
    ensures BlockWork(b, l).spent.refTime <=
            Max(StartWeight(b, l, done).refTime, limit + b.db.Reads(1).refTime)
            + (l.queue.next - done) * b.db.ReadsWrites(1, 2).refTime
            + Excesses(b, BlockWork(b, l).handled)
  {
    BlockBound(b, l, done, limit);
    BoundWithRoom(b, BlockWork(b, l), StartWeight(b, l, done), limit, l.queue.next - done);
  }

  lemma BlockBound(b: Block, l: Log, done: u32, limit: u64)
    requires Window(l, done) && Limited(b, done, l.queue.next, limit)
    ensures WithinBound(b, BlockWork(b, l), StartWeight(b, l, done), limit)
    ensures done + |BlockWork(b, l).handled| <= l.queue.next
  {
    var start := StartWeight(b, l, done);
    BlockFromWindow(b, l, done);
    WorkBound(b, l, done, l.queue.next, start, limit);
    WorkTakesFront(b, l, done, l.queue.next, start);
  }

  lemma BoundWithRoom(b: Block, w: Work, spent: Weight, limit: u64, n: nat)
    requires WithinBound(b, w, spent, limit) && |w.handled| <= n
    ensures w.spent.refTime <=
            Max(spent.refTime, limit + b.db.Reads(1).refTime) + n * b.db.ReadsWrites(1, 2).refTime + Excesses(b, w.handled)
  {
    RemovalsMonotone(b, |w.handled|, n);
    RemovalsTotal(b, n);
  }

  lemma {:induction false} RemovalsMonotone(b: Block, m: nat, n: nat)
    requires m <= n
    ensures Removals(b, m) <= Removals(b, n)
    decreases n
  {
    if m < n {
      RemovalsMonotone(b, m, n - 1);
    }
  }

  /** A call that declares no time, within a limit of 10 and with nothing else to pay for, takes a block to
      whatever it reports. */
  lemma ReportExceedsLimit(dec: Decoder, env: Envelopes, x: Pending, reported: u64)
    ensures
      var chain := Chain(U32_MAX, 0, 10, env, DispatchOk(Some(Weight(reported, 0))), [], 0);
      var b := Block(0, DbWeight(0, 0), dec, _ => Some(OtherCall([])), _ => Weight(0, 0), _ => chain);
      var l := Log(Queue(map[0 := x], 1), [x]);
      Window(l, 0) && Limited(b, 0, 1, 10) && BlockWork(b, l).spent.refTime == reported
  {
    var chain := Chain(U32_MAX, 0, 10, env, DispatchOk(Some(Weight(reported, 0))), [], 0);
    var b := Block(0, DbWeight(0, 0), dec, _ => Some(OtherCall([])), _ => Weight(0, 0), _ => chain);
    var l := Log(Queue(map[0 := x], 1), [x]);
    BlockFromWindow(b, l, 0);
    WorkUnfolds(b, l, 0, 1, StartWeight(b, l, 0));
  }

  /** The same block, with every dispatch reporting `w`. */
  function Reporting(b: Block, w: Weight): Block {
    b.(chain := (i: u32) => b.chain(i).(outcome := DispatchOk(Some(w))))
  }

  /** As long as nothing is dispatched, reports play no part; one dispatch that reports all the time there is
      takes all of it. */
  ghost predicate ReportDecides(w: Work, reported: Weight, w': Work) {
    if NoneDispatched(w.handled) then w' == w
    else reported.refTime == U64_MAX ==> Saturated(w')
  }

  lemma ReportDecidesMore(w: Work, reported: Weight, w': Work, first: Handled)
    requires ReportDecides(w, reported, w') && !first.fate.Dispatched?
    ensures ReportDecides(More(first, w), reported, More(first, w'))
  {
    if NoneDispatched(More(first, w).handled) {
      forall k | 0 <= k < |w.handled| ensures !w.handled[k].fate.Dispatched? {
        assert w.handled[k] == More(first, w).handled[k + 1];
      }
    }
  }

  ghost predicate Saturated(w: Work) {
    w.spent.refTime == U64_MAX
  }

  /** Once all the time there is has been spent it stays spent. */
  lemma SaturatedStays(b: Block, l: Log, index: u32, end: u32, spent: Weight)
    requires Window(l, index) && index <= end <= l.queue.next && spent.refTime == U64_MAX
    ensures Saturated(WorkFrom(b, l, index, end, spent))
  {
    WorkWeighs(b, l, index, end, spent);
  }

  lemma FateReporting(b: Block, index: u32, x: Pending, spent: Weight, w: Weight)
    ensures
      match FateOf(b, index, x, spent)
      case None => FateOf(Reporting(b, w), index, x, spent) == None
      case Some(Dispatched(origin, call, _)) =>
        FateOf(Reporting(b, w), index, x, spent) == Some(Dispatched(origin, call, DispatchOk(Some(w))))
      case Some(fate) => FateOf(Reporting(b, w), index, x, spent) == Some(fate)
  {
  }

  lemma {:induction false} WorkReporting(b: Block, l: Log, index: u32, end: u32, spent: Weight, w: Weight)
    requires Window(l, index) && index <= end <= l.queue.next
    ensures ReportDecides(WorkFrom(b, l, index, end, spent), w, WorkFrom(Reporting(b, w), l, index, end, spent))
    decreases end - index
  {
    if index < end {
      var b', x := Reporting(b, w), l.stored[index];
      WorkUnfolds(b, l, index, end, spent);
      WorkUnfolds(b', l, index, end, spent);
      FateReporting(b, index, x, spent, w);
      var fate := FateOf(b, index, x, spent);
      if fate.Some? && !fate.value.Dispatched? {
        var l', after := Removed(l, index), SpentAfter(b, spent, fate.value);
        WorkReporting(b, l', index + 1, end, after, w);
        ReportDecidesMore(WorkFrom(b, l', index + 1, end, after), w, WorkFrom(b', l', index + 1, end, after),
                          Handled(index, x, fate.value));
      } else if fate.Some? {
        DispatchReporting(b, l, index, end, spent, w);
      }
    }
  }

  lemma DispatchReporting(b: Block, l: Log, index: u32, end: u32, spent: Weight, w: Weight)
    requires Window(l, index) && index < end <= l.queue.next
    requires FateOf(b, index, l.stored[index], spent).Some? && FateOf(b, index, l.stored[index], spent).value.Dispatched?
    ensures ReportDecides(WorkFrom(b, l, index, end, spent), w, WorkFrom(Reporting(b, w), l, index, end, spent))
  {
    FateReporting(b, index, l.stored[index], spent, w);
    StartsWithDispatch(b, l, index, end, spent);
    if w.refTime == U64_MAX {
      SaturatesAtDispatch(Reporting(b, w), l, index, end, spent, w);
    }
  }

  lemma StartsWithDispatch(b: Block, l: Log, index: u32, end: u32, spent: Weight)
    requires Window(l, index) && index < end <= l.queue.next
    requires FateOf(b, index, l.stored[index], spent).Some? && FateOf(b, index, l.stored[index], spent).value.Dispatched?
    ensures !NoneDispatched(WorkFrom(b, l, index, end, spent).handled)
  {
    WorkUnfolds(b, l, index, end, spent);
    assert WorkFrom(b, l, index, end, spent).handled[0].fate.Dispatched?;
  }

  lemma SaturatesAtDispatch(b: Block, l: Log, index: u32, end: u32, spent: Weight, w: Weight)
    requires Window(l, index) && index < end <= l.queue.next && w.refTime == U64_MAX
    requires FateOf(b, index, l.stored[index], spent).Some? && FateOf(b, index, l.stored[index], spent).value.Dispatched?
    requires b.chain(index).outcome == DispatchOk(Some(w))
    ensures Saturated(WorkFrom(b, l, index, end, spent))
  {
    WorkUnfolds(b, l, index, end, spent);
    var x := l.stored[index];
    var fate := FateOf(b, index, x, spent).value;
    var l', after := LogAfter(b, l, index, fate), SpentAfter(b, spent, fate);
    SpentOnReport(b, index, x, spent, fate, w);
    SaturatedStays(b, l', index + 1, end, after);
    assert Saturated(More(Handled(index, x, fate), WorkFrom(b, l', index + 1, end, after)));
  }

  lemma SpentOnReport(b: Block, index: u32, x: Pending, spent: Weight, fate: Fate, w: Weight)
    requires FateOf(b, index, x, spent) == Some(fate) && fate.Dispatched?
    requires b.chain(index).outcome == DispatchOk(Some(w)) && w.refTime == U64_MAX
    ensures SpentAfter(b, spent, fate).refTime == U64_MAX
  {
  }

  /** A block stays within a total whatever its dispatches report exactly if it dispatches nothing and stays
      within it. */
  lemma KeptWhateverReportedIff(b: Block, l: Log, done: u32, total: nat)
    requires Window(l, done) && total < U64_MAX
    ensures (forall w: Weight :: BlockWork(Reporting(b, w), l).spent.refTime <= total) <==>
            NoneDispatched(BlockWork(b, l).handled) && BlockWork(b, l).spent.refTime <= total
  {
    forall w: Weight ensures ReportDecides(BlockWork(b, l), w, BlockWork(Reporting(b, w), l)) {
      BlockReporting(b, l, done, w);
    }
    var w := Weight(U64_MAX, 0);
    assert BlockWork(Reporting(b, w), l).spent.refTime <= total ==> NoneDispatched(BlockWork(b, l).handled);
  }

  lemma BlockReporting(b: Block, l: Log, done: u32, w: Weight)
    requires Window(l, done)
    ensures ReportDecides(BlockWork(b, l), w, BlockWork(Reporting(b, w), l))
  {
    BlockFromWindow(b, l, done);
    BlockFromWindow(Reporting(b, w), l, done);
    WorkReporting(b, l, done, l.queue.next, StartWeight(b, l, done), w);
  }

  // ----- whole runs ----------------------------------------------------------------------------

  datatype Op = StoreOp(x: Pending, maxPending: u32) | BlockOp(b: Block)

  /** The queue and everything ever stored, everything ever handled, and by the operation at which position. */
  datatype Run = Run(log: Log, handled: seq<Handled>, at: seq<nat>)

  function Step(r: Run, op: Op, position: nat): Run {
    match op
    case StoreOp(x, maxPending) => r.(log := Store(r.log, x, maxPending))
    case BlockOp(b) =>
      var w := BlockWork(b, r.log);
      Run(w.log, r.handled + w.handled, r.at + seq(|w.handled|, _ => position))
  }

  function RunOf(ops: seq<Op>): Run {
    if ops == [] then Run(Log(Queue(map[], 0), []), [], [])
    else Step(RunOf(ops[..|ops| - 1]), ops[|ops| - 1], |ops| - 1)
  }

  /** What was handled is the front of what was stored, and the rest is in the queue. */
  ghost predicate Tracks(r: Run) {
    Window(r.log, |r.handled|) && AreStored(r.log.stored, 0, r.handled)
  }

  lemma BlockTaken(r: Run, b: Block)
    requires Tracks(r)
    ensures FrontTaken(r.log, |r.handled|, r.log.queue.next, BlockWork(b, r.log))
  {
    BlockFromWindow(b, r.log, |r.handled|);
    WorkTakesFront(b, r.log, |r.handled|, r.log.queue.next, StartWeight(b, r.log, |r.handled|));
  }

  lemma AreStoredJoin(stored: seq<Pending>, stored': seq<Pending>, first: seq<Handled>, second: seq<Handled>)
    requires AreStored(stored, 0, first) && AreStored(stored, |first|, second) && stored <= stored'
    ensures AreStored(stored', 0, first + second)
  {
    var all := first + second;
    forall k | 0 <= k < |all| ensures all[k].index == k && all[k].x == stored'[k] {
      assert all[k] == if k < |first| then first[k] else second[k - |first|];
    }
  }

  lemma StepTracks(r: Run, op: Op, position: nat)
    requires Tracks(r)
    ensures Tracks(Step(r, op, position))
  {
    match op
    case StoreOp(x, maxPending) =>
      StoreWindow(r.log, |r.handled|, x, maxPending);
    case BlockOp(b) =>
      BlockTaken(r, b);
      AreStoredJoin(r.log.stored, BlockWork(b, r.log).log.stored, r.handled, BlockWork(b, r.log).handled);
  }

  lemma {:induction false} RunTracks(ops: seq<Op>)
    ensures Tracks(RunOf(ops))
  {
    if ops != [] {
      RunTracks(ops[..|ops| - 1]);
      StepTracks(RunOf(ops[..|ops| - 1]), ops[|ops| - 1], |ops| - 1);
    }
  }

  function Records(handled: seq<Handled>): seq<Pending> {
    seq(|handled|, k requires 0 <= k < |handled| => handled[k].x)
  }

  /** The pending extrinsics from an index on, in the order of their indices. */
  function Listing(pending: map<u32, Pending>, lo: nat): seq<Pending>
    decreases U32_MAX + 1 - lo, |pending|
  {
    if lo > U32_MAX then []
    else (if lo in pending then [pending[lo]] else []) + Listing(pending, lo + 1)
  }

  lemma {:induction false} ListingSkips(pending: map<u32, Pending>, lo: nat, hi: nat)
    requires lo <= hi <= U32_MAX + 1 && forall i: u32 :: lo <= i < hi ==> i !in pending
    ensures Listing(pending, lo) == Listing(pending, hi)
    decreases hi - lo
  {
    if lo < hi {
      ListingSkips(pending, lo + 1, hi);
    }
  }

  lemma {:induction false} ListingOfRange(pending: map<u32, Pending>, s: seq<Pending>, lo: nat)
    requires lo <= |s| <= U32_MAX + 1
    requires forall i: u32 :: lo <= i ==> (i in pending <==> i < |s|)
    requires forall i: u32 :: lo <= i && i in pending ==> pending[i] == s[i]
    ensures Listing(pending, lo) == s[lo..]
    decreases |s| - lo
  {
    if lo < |s| {
      ListingOfRange(pending, s, lo + 1);
    } else {
      ListingSkips(pending, lo, U32_MAX + 1);
    }
  }

  lemma WindowListing(l: Log, done: nat)
    requires Window(l, done)
    ensures Listing(l.queue.pending, 0) == Kept(l.stored)[done..]
  {
    ListingSkips(l.queue.pending, 0, done);
    ListingOfRange(l.queue.pending, Kept(l.stored), done);
  }

  function Contents(r: Run): seq<Pending> {
    Records(r.handled) + Listing(r.log.queue.pending, 0)
  }

  lemma TracksKeeps(r: Run)
    requires Tracks(r)
    ensures Contents(r) == Kept(r.log.stored)
  {
    WindowListing(r.log, |r.handled|);
    RecordsAreFront(r);
    Rejoined(Kept(r.log.stored), |r.handled|);
  }

  lemma Rejoined(s: seq<Pending>, n: nat)
    requires n <= |s|
    ensures s[..n] + s[n..] == s
  {
  }

  lemma RecordsAreFront(r: Run)
    requires Tracks(r)
    ensures Records(r.handled) == Kept(r.log.stored)[..|r.handled|]
  {
  }

  /** Over every run, what was handled, in the order handled, followed by what is pending, in the order of the
      indices, is what was stored, in the order stored, except that of all extrinsics stored at the last index
      only the newest is there. */
  lemma RunsKeep(ops: seq<Op>)
    ensures Contents(RunOf(ops)) == Kept(RunOf(ops).log.stored)
  {
    RunTracks(ops);
    TracksKeeps(RunOf(ops));
  }

  // ----- capacity ------------------------------------------------------------------------------

  lemma StoreCapacity(l: Log, x: Pending, maxPending: u32, m: nat)
    requires |l.queue.pending| <= m && maxPending <= m
    ensures |Store(l, x, maxPending).queue.pending| <= m
  {
    var pending, next := l.queue.pending, l.queue.next;
    assert pending[next := x].Keys == pending.Keys + {next};
  }

  lemma {:induction false} StoreAllCapacity(l: Log, xs: seq<Pending>, maxPending: u32, m: nat)
    requires |l.queue.pending| <= m && maxPending <= m
    ensures |StoreAll(l, xs, maxPending).queue.pending| <= m
    decreases |xs|
  {
    if xs != [] {
      StoreCapacity(l, xs[0], maxPending, m);
      StoreAllCapacity(Store(l, xs[0], maxPending), xs[1..], maxPending, m);
    }
  }

  lemma LogAfterCapacity(b: Block, l: Log, index: u32, fate: Fate, m: nat)
    requires |l.queue.pending| <= m && b.chain(index).maxPending <= m
    ensures |LogAfter(b, l, index, fate).queue.pending| <= m
  {
    var pending := l.queue.pending;
    if index in pending {
      assert pending.Keys == (pending - {index}).Keys + {index};
    } else {
      assert pending - {index} == pending;
    }
    StoreAllCapacity(Removed(l, index), b.chain(index).stores, b.chain(index).maxPending, m);
  }

  /** A dispatched extrinsic has left before its dispatch stores: even out of a full queue it makes room for one. */
  lemma RoomForOne(b: Block, l: Log, index: u32, fate: Fate, y: Pending)
    requires index in l.queue.pending && |l.queue.pending| <= b.chain(index).maxPending
    requires fate.Dispatched? && b.chain(index).stores == [y]
    ensures LogAfter(b, l, index, fate).stored == l.stored + [y]
    ensures LogAfter(b, l, index, fate).queue.pending == (l.queue.pending - {index})[l.queue.next := y]
  {
    var pending, l', maxPending := l.queue.pending, Removed(l, index), b.chain(index).maxPending;
    assert pending.Keys == (pending - {index}).Keys + {index};
    assert |l'.queue.pending| == |pending| - 1;
    assert [y][1..] == [];
    assert StoreAll(l', [y], maxPending) == Store(l', y, maxPending);
  }

  lemma {:induction false} WorkCapacity(b: Block, l: Log, index: u32, end: u32, spent: Weight, m: nat)
    requires index <= end && |l.queue.pending| <= m && forall i: u32 :: b.chain(i).maxPending <= m
    ensures |WorkFrom(b, l, index, end, spent).log.queue.pending| <= m
    decreases end - index
  {
    if index < end {
      if index !in l.queue.pending {
        WorkCapacity(b, l, index + 1, end, spent.Add(b.db.Reads(1)), m);
      } else {
        var fate := FateOf(b, index, l.queue.pending[index], spent);
        if fate.Some? {
          LogAfterCapacity(b, l, index, fate.value, m);
          WorkCapacity(b, LogAfter(b, l, index, fate.value), index + 1, end, SpentAfter(b, spent, fate.value), m);
        }
      }
    }
  }

  /** No capacity that a store is checked against exceeds `m`. */
  ghost predicate CapacityWithin(op: Op, m: nat) {
    match op
    case StoreOp(_, maxPending) => maxPending <= m
    case BlockOp(b) => forall i: u32 :: b.chain(i).maxPending <= m
  }

  /** Over every run no more extrinsics are ever pending than the largest capacity in force, also while
      dispatches store. */
  lemma {:induction false} RunsWithinCapacity(ops: seq<Op>, m: nat)
    requires forall i :: 0 <= i < |ops| ==> CapacityWithin(ops[i], m)
    ensures |RunOf(ops).log.queue.pending| <= m
  {
    if ops != [] {
      var front, op := ops[..|ops| - 1], ops[|ops| - 1];
      RunsWithinCapacity(front, m);
      StepCapacity(RunOf(front), op, |front|, m);
    }
  }

  lemma StepCapacity(r: Run, op: Op, position: nat, m: nat)
    requires |r.log.queue.pending| <= m && CapacityWithin(op, m)
    ensures |Step(r, op, position).log.queue.pending| <= m
  {
    match op
    case StoreOp(x, maxPending) =>
      StoreCapacity(r.log, x, maxPending, m);
    case BlockOp(b) =>
      WorkCapacity(b, r.log, StartIndex(r.log.queue), r.log.queue.next, b.db.Reads(2), m);
  }

  // ----- order ---------------------------------------------------------------------------------

  /** First in, first out, and nothing lost. */
  ghost predicate InOrder(r: Run) {
    Contents(r) == r.log.stored
  }

  /** The queue is first-in first-out and loses nothing over a run exactly if the run stored at most 2^32
      extrinsics. */
  lemma RunsInOrder(ops: seq<Op>)
    ensures InOrder(RunOf(ops)) <==> |RunOf(ops).log.stored| <= 0x1_0000_0000
  {
    RunsKeep(ops);
  }

  /** The extrinsic at the last index is never handled: once there is one it stays pending. */
  lemma LastIndexNeverHandled(ops: seq<Op>)
    ensures forall k :: 0 <= k < |RunOf(ops).handled| ==> RunOf(ops).handled[k].index < 0xFFFF_FFFF
    ensures 0xFFFF_FFFF in RunOf(ops).log.queue.pending <==> |RunOf(ops).log.stored| > 0xFFFF_FFFF
  {
    RunTracks(ops);
  }

  ghost predicate HasStored(r: Run, xs: seq<Pending>) {
    Tracks(r) && r.log.stored == xs && |r.log.queue.pending| <= 1
  }

  /** Any sequence of extrinsics can be what a run stored: a block that decrypts nothing makes room again. */
  lemma {:induction false} AnyHistory(xs: seq<Pending>, b: Block) returns (ops: seq<Op>)
    requires forall bytes :: b.decrypt(bytes).None?
    ensures HasStored(RunOf(ops), xs)
    decreases |xs|
  {
    if xs == [] {
      ops := NoHistory();
    } else {
      var front, x := xs[..|xs| - 1], xs[|xs| - 1];
      assert xs == front + [x];
      var before := AnyHistory(front, b);
      ops := HistoryStep(before, front, x, b);
    }
  }

  lemma NoHistory() returns (ops: seq<Op>)
    ensures HasStored(RunOf(ops), [])
  {
    ops := [];
  }

  lemma HistoryStep(before: seq<Op>, xs: seq<Pending>, x: Pending, b: Block) returns (ops: seq<Op>)
    requires HasStored(RunOf(before), xs) && forall bytes :: b.decrypt(bytes).None?
    ensures HasStored(RunOf(ops), xs + [x])
  {
    ops := before + [StoreOp(x, 2)];
    RunOfMore(before, StoreOp(x, 2));
    RunOfMore(ops, BlockOp(b));
    RoundStores(RunOf(before), xs, x, b, |before|);
    ops := ops + [BlockOp(b)];
  }

  lemma RoundStores(r: Run, xs: seq<Pending>, x: Pending, b: Block, position: nat)
    requires HasStored(r, xs) && forall bytes :: b.decrypt(bytes).None?
    ensures HasStored(Step(Step(r, StoreOp(x, 2), position), BlockOp(b), position + 1), xs + [x])
  {
    var r' := Step(r, StoreOp(x, 2), position);
    StepTracks(r, StoreOp(x, 2), position);
    StepTracks(r', BlockOp(b), position + 1);
    RoundClears(r', b, position + 1);
  }

  lemma RunOfMore(ops: seq<Op>, op: Op)
    ensures RunOf(ops + [op]) == Step(RunOf(ops), op, |ops|)
  {
    assert (ops + [op])[..|ops|] == ops;
  }

  lemma RoundClears(r: Run, b: Block, position: nat)
    requires Tracks(r) && forall bytes :: b.decrypt(bytes).None?
    ensures
      var log := Step(r, BlockOp(b), position).log;
      log.stored == r.log.stored && |log.queue.pending| <= 1
  {
    var done, end := |r.handled|, r.log.queue.next;
    BlockTaken(r, b);
    BlockFromWindow(b, r.log, done);
    ClearingWork(b, r.log, done, end, StartWeight(b, r.log, done));
    var log := BlockWork(b, r.log).log;
    KeysCount(log.queue.pending, end, |Kept(log.stored)|);
  }

  /** `r` stored `xs` and has only the newest of those from the last index on. */
  ghost predicate HasLost(r: Run, xs: seq<Pending>)
    requires |xs| > U32_MAX + 1
  {
    r.log.stored == xs && !InOrder(r) && Contents(r) == xs[..U32_MAX] + [xs[|xs| - 1]]
  }

  lemma LostFrom(r: Run, xs: seq<Pending>)
    requires |xs| > U32_MAX + 1 && HasStored(r, xs)
    ensures HasLost(r, xs)
  {
    TracksKeeps(r);
  }

  /** So the loss happens: for every history of more than 2^32 extrinsics there is a run with that loss. */
  lemma HistoryLost(xs: seq<Pending>, b: Block) returns (ops: seq<Op>)
    requires |xs| > U32_MAX + 1 && forall bytes :: b.decrypt(bytes).None?
    ensures HasLost(RunOf(ops), xs)
  {
    ops := AnyHistory(xs, b);
    LostFrom(RunOf(ops), xs);
  }

  /** The extrinsic stored as the `k`-th met `fate` for a reason. */
  ghost predicate SafeEntry(b: Block, stored: seq<Pending>, k: nat, fate: Fate) {
    k < |stored| && k <= U32_MAX && SafeFate(b, k, stored[k], fate)
  }

  lemma SafeEntryMore(b: Block, stored: seq<Pending>, stored': seq<Pending>, k: nat, fate: Fate)
    requires SafeEntry(b, stored, k, fate) && stored <= stored'
    ensures SafeEntry(b, stored', k, fate)
  {
  }

  /** The `k`-th extrinsic handled is the `k`-th stored, and its fate has its reason in the very block that
      handled it. */
  ghost predicate SafeIn(ops: seq<Op>, r: Run, k: nat)
    requires k < |r.handled| == |r.at|
  {
    r.at[k] < |ops| && ops[r.at[k]].BlockOp? && SafeEntry(ops[r.at[k]].b, r.log.stored, k, r.handled[k].fate)
  }

  ghost predicate AllSafeIn(ops: seq<Op>, r: Run) {
    && |r.at| == |r.handled|
    && (forall k :: 0 <= k < |r.handled| ==> SafeIn(ops, r, k))
    && (forall j, k :: 0 <= j < k < |r.at| ==> r.at[j] <= r.at[k])
  }

  lemma FrontSafe(b: Block, stored: seq<Pending>, start: nat, handled: seq<Handled>, k: nat)
    requires AreStored(stored, start, handled) && AllSafe(b, handled) && k < |handled|
    ensures SafeEntry(b, stored, start + k, handled[k].fate)
  {
    assert handled[k].index == start + k;
  }

  /** What a block added to the run is stored next and safe. */
  ghost predicate SafeWork(b: Block, r: Run, w: Work) {
    && r.log.stored <= w.log.stored
    && AreStored(r.log.stored, |r.handled|, w.handled)
    && AllSafe(b, w.handled)
  }

  lemma BlockSafe(r: Run, b: Block)
    requires Tracks(r) && LimitStable(b.dec)
    ensures SafeWork(b, r, BlockWork(b, r.log))
  {
    BlockTaken(r, b);
    WorkSafe(b, r.log, StartIndex(r.log.queue), r.log.queue.next, b.db.Reads(2));
  }

  lemma KeptSafe(ops: seq<Op>, r: Run, op: Op, r': Run, k: nat)
    requires AllSafeIn(ops, r) && k < |r.handled| <= |r'.handled| == |r'.at|
    requires r.log.stored <= r'.log.stored && r.handled <= r'.handled && r.at <= r'.at
    ensures SafeIn(ops + [op], r', k)
  {
    assert SafeIn(ops, r, k);
    SafeEntryMore(ops[r.at[k]].b, r.log.stored, r'.log.stored, k, r.handled[k].fate);
  }

  lemma NewSafe(ops: seq<Op>, r: Run, b: Block, w: Work, r': Run, k: nat)
    requires SafeWork(b, r, w) && |r.at| == |r.handled| <= k < |r'.handled|
    requires r' == Run(w.log, r.handled + w.handled, r.at + seq(|w.handled|, _ => |ops|))
    ensures SafeIn(ops + [BlockOp(b)], r', k)
  {
    var fate := w.handled[k - |r.handled|].fate;
    FrontSafe(b, r.log.stored, |r.handled|, w.handled, k - |r.handled|);
    SafeEntryMore(b, r.log.stored, w.log.stored, k, fate);
    assert r'.at[k] == |ops| && r'.handled[k].fate == fate;
    assert (ops + [BlockOp(b)])[|ops|].b == b;
  }

  lemma InOrderAt(ops: seq<Op>, r: Run, at: seq<nat>)
    requires AllSafeIn(ops, r) && r.at <= at && forall k :: |r.at| <= k < |at| ==> at[k] == |ops|
    ensures forall j, k :: 0 <= j < k < |at| ==> at[j] <= at[k]
  {
    forall j | 0 <= j < |r.at| ensures r.at[j] < |ops| {
      assert SafeIn(ops, r, j);
    }
  }

  lemma StepSafe(ops: seq<Op>, r: Run, op: Op, r': Run)
    requires Tracks(r) && AllSafeIn(ops, r) && r' == Step(r, op, |ops|)
    requires op.BlockOp? ==> LimitStable(op.b.dec)
    ensures AllSafeIn(ops + [op], r')
  {
    StepExtends(r, op, |ops|);
    if op.BlockOp? {
      BlockSafe(r, op.b);
    }
    forall k | 0 <= k < |r'.handled| ensures SafeIn(ops + [op], r', k) {
      if k < |r.handled| {
        KeptSafe(ops, r, op, r', k);
      } else {
        NewSafe(ops, r, op.b, BlockWork(op.b, r.log), r', k);
      }
    }
    InOrderAt(ops, r, r'.at);
  }

  lemma StepExtends(r: Run, op: Op, position: nat)
    requires Tracks(r)
    ensures r.log.stored <= Step(r, op, position).log.stored && r.handled <= Step(r, op, position).handled
    ensures r.at <= Step(r, op, position).at
  {
    if op.BlockOp? {
      BlockTaken(r, op.b);
    }
  }

  /** Over every run, whatever was handled was handled rightly, for the account that stored it, and the blocks
      that did so come in order. */
  lemma {:induction false} RunsSafe(ops: seq<Op>)
    requires forall i :: 0 <= i < |ops| && ops[i].BlockOp? ==> LimitStable(ops[i].b.dec)
    ensures AllSafeIn(ops, RunOf(ops))
  {
    if ops != [] {
      var front, op := ops[..|ops| - 1], ops[|ops| - 1];
      RunsSafe(front);
      RunTracks(front);
      StepSafe(front, RunOf(front), op, RunOf(ops));
      assert ops == front + [op];
    }
  }
}
