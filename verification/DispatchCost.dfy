/** `precompiles/src/extensions.rs`: how a precompile dispatches a runtime call and what the call is
    charged for. */
module DispatchCost {
  import opened Wrappers
  import opened MachineIntegers
  import opened Weights
  import opened RuntimeCalls
  import opened DepthScan
  import opened QubitumPrivacy
  import opened ShieldQueueFilter

  datatype Failure = PrivateCall | OutOfGas | ExtensionRejected | DispatchFailed | BadNetuid | AllowanceExceeded

  /** `DispatchInfo`. */
  datatype Info = Info(callWeight: Weight, extensionWeight: Weight, paysFee: bool) {
    function Total(): Weight {
      callWeight.Add(extensionWeight)
    }
  }

  /** `PostDispatchInfo`. */
  datatype PostInfo = PostInfo(actual: Option<Weight>, paysFee: bool)

  /** A call about to be dispatched, with the answers the rest of the runtime gives about it: how it decodes
      calls and what it says of ciphertexts, which the privacy guard asks for, the declared weights, the weight
      the transaction extension adds, whether the extension lets it pass, how it fares, and what the extension
      finds unspent afterwards (nothing if it objects). */
  datatype Request = Request(
    call: RuntimeCall,
    dec: Decoder,
    envelopes: Envelopes,
    declared: Info,
    extension: Weight,
    validates: bool,
    prepares: bool,
    succeeds: bool,
    post: PostInfo,
    unspent: Option<Weight>
  ) {
    predicate IsPrivate() {
      ContainsPrivateRuntimeCall(dec, envelopes, call)
    }

    function GetInfo(): Info {
      declared.(extensionWeight := declared.extensionWeight.Add(extension))
    }
  }

  /** `FixedGasWeightMapping`: gas and weight measure the same thing in different units. */
  datatype GasMapping = GasMapping(gasToRefTime: u64 -> u64, weightToGas: Weight -> u64)

  /** `set_extension_weight`. */
  function WithExtensionWeight(post: PostInfo, info: Info): PostInfo {
    var own := if post.actual.Some? then post.actual.value else info.callWeight;
    post.(actual := Some(own.Add(info.extensionWeight)))
  }

  /** `refund`, which the extension's `post_dispatch` applies to what it found unspent. */
  function Refunded(post: PostInfo, unspent: Weight): PostInfo {
    match post.actual
    case None => post
    case Some(w) =>
      post.(actual := Some(Weight(SatSub64(w.refTime, unspent.refTime), SatSub64(w.proofSize, unspent.proofSize))))
  }

  /** `calc_actual_weight`: never more than what was declared. */
  function ActualWeight(post: PostInfo, info: Info): Weight {
    if post.actual.Some? then post.actual.value.Min(info.Total()) else info.Total()
  }

  predicate PaysFee(post: PostInfo, info: Info) {
    info.paysFee && post.paysFee
  }

  // ----- what a dispatch costs -----------------------------------------------------------------

  /** Gas and external weight recorded so far, and how much can be. */
  datatype Meter = Meter(gas: nat, gasCap: nat, refTime: nat, refCap: nat, proofSize: nat, proofCap: nat) {
    predicate Valid() {
      gas <= gasCap && refTime <= refCap && proofSize <= proofCap
    }

    predicate FitsGas(cost: nat) {
      gas + cost <= gasCap
    }

    predicate Fits(w: Weight) {
      refTime + w.refTime <= refCap && proofSize + w.proofSize <= proofCap
    }

    function Charged(cost: nat, w: Weight): Meter {
      this.(gas := gas + cost, refTime := refTime + w.refTime, proofSize := proofSize + w.proofSize)
    }
  }

  const ZERO: Weight := Weight(0, 0)

  /** How far a dispatch gets. */
  datatype Stage =
    | RefusedPrivate
    | RefusedGas
    | StoppedByExtension
    | Unpaid
    | GasRanOut
    | Settled

  function StageOf(m: Meter, gasLimit: Option<u64>, mapping: GasMapping, q: Request): Stage {
    if q.IsPrivate() then RefusedPrivate else StageBehindGuard(m, gasLimit, mapping, q)
  }

  /** How far it gets once the guard has let it pass. */
  function StageBehindGuard(m: Meter, gasLimit: Option<u64>, mapping: GasMapping, q: Request): Stage {
    var info := q.GetInfo();
    if gasLimit.Some? && info.Total().refTime > mapping.gasToRefTime(gasLimit.value) then RefusedGas
    else if !m.Fits(info.Total()) then RefusedGas
    else if !q.validates || !q.prepares || q.unspent.None? then StoppedByExtension
    else if !PaysFee(q.post, info) then Unpaid
    else if !m.FitsGas(mapping.weightToGas(FinalWeight(q))) then GasRanOut
    else Settled
  }

  /** The weight the call really took, as the extension leaves it, clamped to what was declared. */
  function FinalWeight(q: Request): Weight {
    var info := q.GetInfo();
    match q.unspent
    case None => info.Total()
    case Some(unspent) => ActualWeight(Refunded(WithExtensionWeight(q.post, info), unspent), info)
  }

  /** The external weight a dispatch leaves charged. */
  function LeftCharged(stage: Stage, q: Request): Weight {
    match stage
    case RefusedPrivate => ZERO
    case RefusedGas => ZERO
    case Settled => FinalWeight(q)
    case _ => q.GetInfo().Total()
  }

  function GasCharged(stage: Stage, mapping: GasMapping, q: Request): nat {
    if stage.Settled? then mapping.weightToGas(FinalWeight(q)) else 0
  }

  function Verdict(stage: Stage, q: Request): Result<(), Failure> {
    match stage
    case RefusedPrivate => Err(PrivateCall)
    case RefusedGas => Err(OutOfGas)
    case StoppedByExtension => Err(ExtensionRejected)
    case GasRanOut => Err(OutOfGas)
    case _ => if q.succeeds then Ok(()) else Err(DispatchFailed)
  }

  function MeterAt(m: Meter, stage: Stage, mapping: GasMapping, q: Request): Meter {
    m.Charged(GasCharged(stage, mapping, q), LeftCharged(stage, q))
  }

  function MeterAfter(m: Meter, gasLimit: Option<u64>, mapping: GasMapping, q: Request): Meter {
    MeterAt(m, StageOf(m, gasLimit, mapping, q), mapping, q)
  }

  // ----- the same, by the fields of a request --------------------------------------------------

  /** The weight of the call and of both extensions. */
  ghost function DeclaredInAll(q: Request): Weight {
    Weight(ToU64(q.declared.callWeight.refTime + q.declared.extensionWeight.refTime + q.extension.refTime),
           ToU64(q.declared.callWeight.proofSize + q.declared.extensionWeight.proofSize + q.extension.proofSize))
  }

  /** `declared` or what is left of `used` without `unspent`, whichever is less. */
  ghost function LeftOf(declared: u64, used: nat, unspent: u64): u64 {
    var left := if unspent <= ToU64(used) then ToU64(used) - unspent else 0;
    if left <= declared then left else declared
  }

  /** What a call that was dispatched is settled at: the weight it reports, or else declares, and that of both
      extensions, without what was found unspent, and no more than was declared. */
  ghost function SettledAt(q: Request): Weight
    requires q.unspent.Some?
  {
    var own := if q.post.actual.Some? then q.post.actual.value else q.declared.callWeight;
    var (all, unspent) := (DeclaredInAll(q), q.unspent.value);
    Weight(LeftOf(all.refTime, own.refTime + q.declared.extensionWeight.refTime + q.extension.refTime, unspent.refTime),
           LeftOf(all.proofSize, own.proofSize + q.declared.extensionWeight.proofSize + q.extension.proofSize, unspent.proofSize))
  }

  /** The call is charged for up front: it is not private, and its weight is within the gas limit and the caps. */
  ghost predicate ChargedUpFront(m: Meter, gasLimit: Option<u64>, mapping: GasMapping, q: Request) {
    var all := DeclaredInAll(q);
    && !ContainsPrivateRuntimeCall(q.dec, q.envelopes, q.call)
    && (gasLimit.Some? ==> all.refTime <= mapping.gasToRefTime(gasLimit.value))
    && m.refTime + all.refTime <= m.refCap
    && m.proofSize + all.proofSize <= m.proofCap
  }

  ghost predicate PassesExtension(q: Request) {
    q.validates && q.prepares && q.unspent.Some?
  }

  ghost predicate PaysInFull(m: Meter, mapping: GasMapping, q: Request)
    requires q.unspent.Some?
  {
    m.gas + mapping.weightToGas(SettledAt(q)) <= m.gasCap
  }

  /** The answer to a request, and each way to fail. */
  ghost predicate RightAnswer(m: Meter, gasLimit: Option<u64>, mapping: GasMapping, q: Request, r: Result<(), Failure>) {
    var isPrivate := ContainsPrivateRuntimeCall(q.dec, q.envelopes, q.call);
    var charged, passes := ChargedUpFront(m, gasLimit, mapping, q), PassesExtension(q);
    var pays := q.declared.paysFee && q.post.paysFee;
    && (r == Ok(()) <==> charged && passes && (pays ==> PaysInFull(m, mapping, q)) && q.succeeds)
    && (r == Err(PrivateCall) <==> isPrivate)
    && (r == Err(ExtensionRejected) <==> charged && !passes)
    && (r == Err(DispatchFailed) <==> charged && passes && (pays ==> PaysInFull(m, mapping, q)) && !q.succeeds)
    && (r == Err(OutOfGas) <==> (!isPrivate && !charged) || (charged && passes && pays && !PaysInFull(m, mapping, q)))
  }

  /** The charges left: nothing if not charged up front; the settled weight and its gas if the call was dispatched
      and paid in full; all that was declared, and no gas, otherwise. */
  ghost predicate RightCharge(m: Meter, gasLimit: Option<u64>, mapping: GasMapping, q: Request, m': Meter) {
    if !ChargedUpFront(m, gasLimit, mapping, q) then m' == m
    else if PassesExtension(q) && q.declared.paysFee && q.post.paysFee && PaysInFull(m, mapping, q) then
      m' == m.(gas := m.gas + mapping.weightToGas(SettledAt(q)),
               refTime := m.refTime + SettledAt(q).refTime,
               proofSize := m.proofSize + SettledAt(q).proofSize)
    else
      m' == m.(refTime := m.refTime + DeclaredInAll(q).refTime, proofSize := m.proofSize + DeclaredInAll(q).proofSize)
  }

  lemma SettledByFields(q: Request)
    ensures q.GetInfo().Total() == DeclaredInAll(q)
    ensures q.unspent.Some? ==> FinalWeight(q) == SettledAt(q)
  {
  }

  /** The stages give the answer and the charges that the fields of the request and the meter ask for. */
  lemma StagesByFields(m: Meter, gasLimit: Option<u64>, mapping: GasMapping, q: Request)
    ensures RightAnswer(m, gasLimit, mapping, q, Verdict(StageOf(m, gasLimit, mapping, q), q))
    ensures RightCharge(m, gasLimit, mapping, q, MeterAfter(m, gasLimit, mapping, q))
  {
    SettledByFields(q);
  }

  // ----- the handle ----------------------------------------------------------------------------

  class Handle {
    var meter: Meter
    const gasLimit: Option<u64>
    const mapping: GasMapping

    constructor (meter: Meter, gasLimit: Option<u64>, mapping: GasMapping)
      ensures this.meter == meter && this.gasLimit == gasLimit && this.mapping == mapping
    {
      this.meter, this.gasLimit, this.mapping := meter, gasLimit, mapping;
    }

    method RecordCost(cost: nat) returns (r: Result<(), Failure>)
      modifies this
      ensures r == if old(meter).FitsGas(cost) then Ok(()) else Err(OutOfGas)
      ensures meter == if r.Ok? then old(meter).Charged(cost, ZERO) else old(meter)
    {
      if !meter.FitsGas(cost) {
        return Err(OutOfGas);
      }
      meter := meter.(gas := meter.gas + cost);
      return Ok(());
    }

    method RecordExternalCost(w: Weight) returns (r: Result<(), Failure>)
      modifies this
      ensures r == if old(meter).Fits(w) then Ok(()) else Err(OutOfGas)
      ensures meter == if r.Ok? then old(meter).Charged(0, w) else old(meter)
    {
      if !meter.Fits(w) {
        return Err(OutOfGas);
      }
      meter := meter.(refTime := meter.refTime + w.refTime, proofSize := meter.proofSize + w.proofSize);
      return Ok(());
    }

    method RefundExternalCost(refTime: u64, proofSize: u64)
      requires refTime <= meter.refTime && proofSize <= meter.proofSize
      modifies this
      ensures meter == old(meter).(refTime := old(meter).refTime - refTime, proofSize := old(meter).proofSize - proofSize)
    {
      meter := meter.(refTime := meter.refTime - refTime, proofSize := meter.proofSize - proofSize);
    }

    /** No refund exceeds what was charged up front: `RefundExternalCost` demands it. */
    method ChargeAndRefundAfterDispatch(info: Info, post: PostInfo) returns (r: Result<(), Failure>)
      requires info.Total().refTime <= meter.refTime && info.Total().proofSize <= meter.proofSize
      modifies this
      ensures r == if PaysFee(post, info) && !old(meter).FitsGas(mapping.weightToGas(ActualWeight(post, info)))
                   then Err(OutOfGas) else Ok(())
      ensures meter ==
              if r.Err? || !PaysFee(post, info) then old(meter)
              else
                old(meter).(gas := old(meter).gas + mapping.weightToGas(ActualWeight(post, info)),
                            refTime := old(meter).refTime - info.Total().refTime + ActualWeight(post, info).refTime,
                            proofSize := old(meter).proofSize - info.Total().proofSize + ActualWeight(post, info).proofSize)
    {
      if PaysFee(post, info) {
        var actual := ActualWeight(post, info);
        var cost := mapping.weightToGas(actual);
        r := RecordCost(cost);
        if r.Err? {
          return;
        }
        RefundExternalCost(SatSub64(info.Total().refTime, actual.refTime),
                           SatSub64(info.Total().proofSize, actual.proofSize));
      }
      return Ok(());
    }

    /** Each dispatch ends at one of six stages, and the stage settles the answer and both charges. */
    method TryDispatchRuntimeCall(q: Request) returns (r: Result<(), Failure>)
      modifies this
      ensures r == Verdict(StageOf(old(meter), gasLimit, mapping, q), q)
      ensures meter == MeterAfter(old(meter), gasLimit, mapping, q)
      ensures RightAnswer(old(meter), gasLimit, mapping, q, r)
      ensures RightCharge(old(meter), gasLimit, mapping, q, meter)
    {
      StagesByFields(meter, gasLimit, mapping, q);
      if q.IsPrivate() {
        return Err(PrivateCall);
      }
      r := DispatchBehindGuard(q);
    }

    method DispatchBehindGuard(q: Request) returns (r: Result<(), Failure>)
      modifies this
      ensures r == Verdict(StageBehindGuard(old(meter), gasLimit, mapping, q), q)
      ensures meter == MeterAt(old(meter), StageBehindGuard(old(meter), gasLimit, mapping, q), mapping, q)
    {
      var info := q.declared;
      info := info.(extensionWeight := info.extensionWeight.Add(q.extension));
      if gasLimit.Some? {
        var valid := mapping.gasToRefTime(gasLimit.value);
        if info.Total().refTime > valid {
          return Err(OutOfGas);
        }
      }
      r := RecordExternalCost(info.Total());
      if r.Err? {
        return;
      }
      if !q.validates {
        return Err(ExtensionRejected);
      }
      if !q.prepares {
        return Err(ExtensionRejected);
      }
      var post := WithExtensionWeight(q.post, info);
      if q.unspent.None? {
        return Err(ExtensionRejected);
      }
      post := Refunded(post, q.unspent.value);
      r := ChargeAndRefundAfterDispatch(info, post);
      if r.Err? {
        return;
      }
      if q.succeeds {
        return Ok(());
      } else {
        return Err(DispatchFailed);
      }
    }
  }

  /** A precompile refuses a call before it charges for it, as private, exactly if the call exceeds the scan
      budget or openly reaches a Qubitum call or a queue entry. */
  lemma RefusedPrivateIff(m: Meter, gasLimit: Option<u64>, mapping: GasMapping, q: Request)
    requires LimitStable(q.dec)
    ensures StageOf(m, gasLimit, mapping, q) == RefusedPrivate <==>
            || !WithinBudget(q.dec, q.call, 0)
            || ReachesOpenly(q.dec, IsQubitum, q.call)
            || ReachesOpenly(q.dec, IsShieldEntry, q.call)
  {
    PrecompileGuardExact(q.dec, q.envelopes, q.call);
  }

  // ----- conservation --------------------------------------------------------------------------

  /** A refund is never more than the charge, and a call that reports no more than its declared weight is
      left charged for exactly what it reports plus the extension's weight, less what the extension found
      unspent: the clamp does not bite. */
  lemma SettledWeight(q: Request)
    ensures FinalWeight(q).Leq(q.GetInfo().Total())
    ensures
      var own := if q.post.actual.Some? then q.post.actual.value else q.declared.callWeight;
      var used := own.Add(q.GetInfo().extensionWeight);
      q.unspent.Some? && own.Leq(q.declared.callWeight) ==>
        FinalWeight(q) == Weight(SatSub64(used.refTime, q.unspent.value.refTime), SatSub64(used.proofSize, q.unspent.value.proofSize))
  {
  }

  /** Recorded amounts never pass their caps. */
  lemma MeterStaysValid(m: Meter, gasLimit: Option<u64>, mapping: GasMapping, q: Request)
    requires m.Valid()
    ensures MeterAfter(m, gasLimit, mapping, q).Valid()
  {
    SettledWeight(q);
  }

  /** The stages of a sequence of dispatches on one handle. */
  function Stages(m: Meter, gasLimit: Option<u64>, mapping: GasMapping, qs: seq<Request>): (r: seq<Stage>)
    ensures |r| == |qs|
    decreases |qs|
  {
    if qs == [] then []
    else [StageOf(m, gasLimit, mapping, qs[0])] + Stages(MeterAfter(m, gasLimit, mapping, qs[0]), gasLimit, mapping, qs[1..])
  }

  function MeterAfterAll(m: Meter, gasLimit: Option<u64>, mapping: GasMapping, qs: seq<Request>): Meter
    decreases |qs|
  {
    if qs == [] then m
    else MeterAfterAll(MeterAfter(m, gasLimit, mapping, qs[0]), gasLimit, mapping, qs[1..])
  }

  function SumRefTime(ws: seq<Weight>): nat {
    if ws == [] then 0 else ws[0].refTime + SumRefTime(ws[1..])
  }

  function SumProofSize(ws: seq<Weight>): nat {
    if ws == [] then 0 else ws[0].proofSize + SumProofSize(ws[1..])
  }

  /** The external weight and the gas each dispatch is left charged for. */
  function Owed(stages: seq<Stage>, qs: seq<Request>): seq<Weight>
    requires |stages| == |qs|
  {
    seq(|qs|, i requires 0 <= i < |qs| => LeftCharged(stages[i], qs[i]))
  }

  function GasOwed(stages: seq<Stage>, mapping: GasMapping, qs: seq<Request>): seq<nat>
    requires |stages| == |qs|
  {
    seq(|qs|, i requires 0 <= i < |qs| => GasCharged(stages[i], mapping, qs[i]))
  }

  function Sum(ns: seq<nat>): nat {
    if ns == [] then 0 else ns[0] + Sum(ns[1..])
  }

  lemma OwedCons(stage: Stage, stages: seq<Stage>, mapping: GasMapping, qs: seq<Request>)
    requires qs != [] && |stages| == |qs[1..]|
    ensures Owed([stage] + stages, qs) == [LeftCharged(stage, qs[0])] + Owed(stages, qs[1..])
    ensures GasOwed([stage] + stages, mapping, qs) == [GasCharged(stage, mapping, qs[0])] + GasOwed(stages, mapping, qs[1..])
  {
  }

  /** `m'` is `m` with the external weight and the gas that all the dispatches owe, within every cap. */
  ghost predicate ChargedFor(m: Meter, m': Meter, mapping: GasMapping, stages: seq<Stage>, qs: seq<Request>)
    requires |stages| == |qs|
  {
    && m'.Valid()
    && m'.gas == m.gas + Sum(GasOwed(stages, mapping, qs))
    && m'.refTime == m.refTime + SumRefTime(Owed(stages, qs))
    && m'.proofSize == m.proofSize + SumProofSize(Owed(stages, qs))
  }

  lemma ChargedForMore(m: Meter, m': Meter, mapping: GasMapping, stage: Stage, stages: seq<Stage>, qs: seq<Request>)
    requires qs != [] && |stages| == |qs[1..]|
    requires ChargedFor(m.Charged(GasCharged(stage, mapping, qs[0]), LeftCharged(stage, qs[0])), m', mapping, stages, qs[1..])
    ensures ChargedFor(m, m', mapping, [stage] + stages, qs)
  {
    OwedCons(stage, stages, mapping, qs);
  }

  /** Over every sequence of dispatches the external weight and the gas recorded are the sums of what each owes. */
  lemma {:induction false} ChargesConserved(m: Meter, gasLimit: Option<u64>, mapping: GasMapping, qs: seq<Request>)
    requires m.Valid()
    ensures ChargedFor(m, MeterAfterAll(m, gasLimit, mapping, qs), mapping, Stages(m, gasLimit, mapping, qs), qs)
    decreases |qs|
  {
    if qs != [] {
      var next := MeterAfter(m, gasLimit, mapping, qs[0]);
      MeterStaysValid(m, gasLimit, mapping, qs[0]);
      ChargesConserved(next, gasLimit, mapping, qs[1..]);
      ChargedForMore(m, MeterAfterAll(next, gasLimit, mapping, qs[1..]), mapping, StageOf(m, gasLimit, mapping, qs[0]),
                     Stages(next, gasLimit, mapping, qs[1..]), qs);
    }
  }

  function Verdicts(stages: seq<Stage>, qs: seq<Request>): seq<Result<(), Failure>>
    requires |stages| == |qs|
  {
    seq(|qs|, i requires 0 <= i < |qs| => Verdict(stages[i], qs[i]))
  }

  /** A sequence of dispatches on one handle, as precompiles called from one EVM call make them. */
  method DispatchAll(handle: Handle, qs: seq<Request>) returns (rs: seq<Result<(), Failure>>)
    requires handle.meter.Valid()
    modifies handle
    ensures
      var stages := Stages(old(handle.meter), handle.gasLimit, handle.mapping, qs);
      rs == Verdicts(stages, qs) && ChargedFor(old(handle.meter), handle.meter, handle.mapping, stages, qs)
  {
    ghost var m, gasLimit, mapping := handle.meter, handle.gasLimit, handle.mapping;
    ghost var stages := Stages(m, gasLimit, mapping, qs);
    ChargesConserved(m, gasLimit, mapping, qs);
    rs := [];
    for i := 0 to |qs|
      invariant |rs| == i
      invariant MeterAfterAll(m, gasLimit, mapping, qs) == MeterAfterAll(handle.meter, gasLimit, mapping, qs[i..])
      invariant stages[i..] == Stages(handle.meter, gasLimit, mapping, qs[i..])
      invariant forall k :: 0 <= k < i ==> rs[k] == Verdict(stages[k], qs[k])
    {
      assert qs[i..][0] == qs[i] && qs[i..][1..] == qs[i + 1..];
      assert stages[i] == stages[i..][0] && stages[i + 1..] == stages[i..][1..];
      var r := handle.TryDispatchRuntimeCall(qs[i]);
      rs := rs + [r];
    }
  }
}
