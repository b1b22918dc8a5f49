/** The stake allowances of `precompiles/src/staking.rs`: what an EVM account lets another spend of its
    stake on a subnet, for as long as that subnet keeps its registration. */
module StakeAllowances {
  import opened Wrappers
  import opened MachineIntegers
  import opened DispatchCost

  type H160 = n: nat | n <= 0xFFFF_FFFF_FFFF_FFFF_FFFF_FFFF_FFFF_FFFF_FFFF_FFFF

  /** The keys of `AllowancesStorage`. */
  datatype Key = Key(approver: H160, spender: H160, netuid: u16, counter: u64)

  /** `AllowancesStorage` and `RegisteredSubnetCounter`. */
  datatype Ledger = Ledger(allowances: map<Key, u256>, counters: map<u16, u64>) {
    function Read(k: Key): u256 {
      if k in allowances then allowances[k] else 0
    }

    function Counter(netuid: u16): u64 {
      if netuid in counters then counters[netuid] else 0
    }

    function CurrentKey(approver: H160, spender: H160, netuid: u16): Key {
      Key(approver, spender, netuid, Counter(netuid))
    }

    /** What the view `allowance` answers. */
    function Allowance(approver: H160, spender: H160, netuid: u16): u256 {
      Read(CurrentKey(approver, spender, netuid))
    }

    /** Zero is stored by storing nothing. */
    function Write(k: Key, amount: u256): Ledger {
      this.(allowances := if amount == 0 then allowances - {k} else allowances[k := amount])
    }
  }

  function ToU16(a: u256): Result<u16, Failure> {
    if a <= U16_MAX then Ok(a) else Err(BadNetuid)
  }

  // ----- the ledger's operations ---------------------------------------------------------------

  datatype Op =
    | Approve(approver: H160, spender: H160, netuid: u16, amount: u256)
    | Increase(approver: H160, spender: H160, netuid: u16, amount: u256)
    | Decrease(approver: H160, spender: H160, netuid: u16, amount: u256)
    | Spend(approver: H160, spender: H160, netuid: u16, amount: u256)
    | Register(netuid: u16)

  function KeyOf(l: Ledger, op: Op): Option<Key> {
    if op.Register? then None else Some(l.CurrentKey(op.approver, op.spender, op.netuid))
  }

  /** The ledger after an operation. Increasing, decreasing or spending nothing leaves it alone, and a
      spend beyond the allowance reverts. */
  function Step(l: Ledger, op: Op): Ledger {
    match op
    case Register(netuid) =>
      l.(counters := l.counters[netuid := SatAdd64(l.Counter(netuid), 1)])
    case Approve(approver, spender, netuid, amount) =>
      l.Write(l.CurrentKey(approver, spender, netuid), amount)
    case Increase(approver, spender, netuid, amount) =>
      var current := l.Allowance(approver, spender, netuid);
      if amount == 0 then l else l.Write(l.CurrentKey(approver, spender, netuid), SatAdd256(current, amount))
    case Decrease(approver, spender, netuid, amount) =>
      var current := l.Allowance(approver, spender, netuid);
      if amount == 0 then l else l.Write(l.CurrentKey(approver, spender, netuid), SatSub256(current, amount))
    case Spend(approver, spender, netuid, amount) =>
      var current := l.Allowance(approver, spender, netuid);
      if amount == 0 || amount > current then l
      else l.Write(l.CurrentKey(approver, spender, netuid), current - amount)
  }

  function RunOf(l: Ledger, ops: seq<Op>): Ledger
    decreases |ops|
  {
    if ops == [] then l else RunOf(Step(l, ops[0]), ops[1..])
  }

  // ----- the precompile ------------------------------------------------------------------------

  /** Costs are recorded one after the other until one no longer fits. */
  function Recorded(m: Meter, costs: seq<nat>): Meter
    decreases |costs|
  {
    if costs == [] || !m.FitsGas(costs[0]) then m else Recorded(m.Charged(costs[0], ZERO), costs[1..])
  }

  function ConsumeVerdict(m: Meter, cost: nat, allowance: u256, amount: u256): Result<(), Failure> {
    if amount == 0 then Ok(())
    else if !m.FitsGas(cost) then Err(OutOfGas)
    else if amount > allowance then Err(AllowanceExceeded)
    else Ok(())
  }

  /** The `transfer_stake` call that a spend dispatches in the name of the approver. */
  datatype StakeTransfer =
    StakeTransfer(source: H160, destination: H160, hotkey: u256, originNetuid: u16, destinationNetuid: u16, alpha: u64)

  class StakingPrecompile {
    var allowances: map<Key, u256>
    var counters: map<u16, u64>
    const readGas: nat
    const writeGas: nat

    constructor (readGas: nat, writeGas: nat)
      ensures State() == Ledger(map[], map[]) && this.readGas == readGas && this.writeGas == writeGas
    {
      this.allowances, this.counters, this.readGas, this.writeGas := map[], map[], readGas, writeGas;
    }

    function State(): Ledger
      reads this
    {
      Ledger(allowances, counters)
    }

    method CurrentSubnetCounter(netuid: u16) returns (c: u64)
      ensures c == State().Counter(netuid)
    {
      c := if netuid in counters then counters[netuid] else 0;
    }

    method Get(k: Key) returns (amount: u256)
      ensures amount == State().Read(k)
    {
      amount := if k in allowances then allowances[k] else 0;
    }

    method Approve(handle: Handle, caller: H160, spender: H160, originNetuid: u256, amount: u256) returns (r: Result<(), Failure>)
      modifies this`allowances, handle
      ensures r == if !old(handle.meter).FitsGas(readGas + writeGas) then Err(OutOfGas)
                   else if originNetuid > U16_MAX then Err(BadNetuid) else Ok(())
      ensures State() == if r.Err? then old(State()) else Step(old(State()), Op.Approve(caller, spender, originNetuid, amount))
      ensures handle.meter == Recorded(old(handle.meter), [readGas, writeGas])
    {
      r := handle.RecordCost(readGas);
      if r.Err? { return; }
      assert Recorded(old(handle.meter), [readGas, writeGas]) == Recorded(handle.meter, [writeGas]);
      r := handle.RecordCost(writeGas);
      if r.Err? { return; }
      var netuid := ToU16(originNetuid);
      if netuid.Err? { return Err(netuid.error); }
      var counter := CurrentSubnetCounter(netuid.value);
      var key := Key(caller, spender, netuid.value, counter);
      if amount == 0 {
        allowances := allowances - {key};
      } else {
        allowances := allowances[key := amount];
      }
      return Ok(());
    }

    method Allowance(handle: Handle, source: H160, spender: H160, originNetuid: u256) returns (r: Result<u256, Failure>)
      modifies handle
      ensures r == if !old(handle.meter).FitsGas(readGas + readGas) then Err(OutOfGas)
                   else if originNetuid > U16_MAX then Err(BadNetuid)
                   else Ok(State().Allowance(source, spender, originNetuid))
      ensures handle.meter == Recorded(old(handle.meter), [readGas, readGas])
    {
      var charged := handle.RecordCost(readGas);
      if charged.Err? { return Err(charged.error); }
      assert Recorded(old(handle.meter), [readGas, readGas]) == Recorded(handle.meter, [readGas]);
      charged := handle.RecordCost(readGas);
      if charged.Err? { return Err(charged.error); }
      var netuid := ToU16(originNetuid);
      if netuid.Err? { return Err(netuid.error); }
      var counter := CurrentSubnetCounter(netuid.value);
      var amount := Get(Key(source, spender, netuid.value, counter));
      return Ok(amount);
    }

    /** What registering a network does to its counter. */
    method RegisterNetwork(netuid: u16)
      modifies this`counters
      ensures State() == Step(old(State()), Register(netuid))
    {
      var c := CurrentSubnetCounter(netuid);
      counters := counters[netuid := SatAdd64(c, 1)];
    }

    /** The cost of reading the counter and reading and writing an allowance. */
    method RecordReadReadWrite(handle: Handle) returns (r: Result<(), Failure>)
      modifies handle
      ensures r == if old(handle.meter).FitsGas(readGas + readGas + writeGas) then Ok(()) else Err(OutOfGas)
      ensures handle.meter == Recorded(old(handle.meter), [readGas, readGas, writeGas])
      ensures r.Ok? ==> handle.meter == old(handle.meter).Charged(readGas + readGas + writeGas, ZERO)
    {
      r := handle.RecordCost(readGas);
      if r.Err? { return; }
      var first := handle.meter;
      r := handle.RecordCost(readGas);
      assert Recorded(old(handle.meter), [readGas, readGas, writeGas]) == Recorded(first, [readGas, writeGas]);
      if r.Err? { return; }
      assert Recorded(first, [readGas, writeGas]) == Recorded(handle.meter, [writeGas]);
      r := handle.RecordCost(writeGas);
    }

    method IncreaseAllowance(handle: Handle, caller: H160, spender: H160, originNetuid: u256, increase: u256) returns (r: Result<(), Failure>)
      modifies this`allowances, handle
      ensures r == if increase == 0 then Ok(())
                   else if !old(handle.meter).FitsGas(readGas + readGas + writeGas) then Err(OutOfGas)
                   else if originNetuid > U16_MAX then Err(BadNetuid) else Ok(())
      ensures State() == if increase == 0 || r.Err? then old(State())
                         else Step(old(State()), Op.Increase(caller, spender, originNetuid, increase))
      ensures handle.meter == Recorded(old(handle.meter), if increase == 0 then [] else [readGas, readGas, writeGas])
    {
      if increase == 0 { return Ok(()); }
      r := RecordReadReadWrite(handle);
      if r.Err? { return; }
      var netuid := ToU16(originNetuid);
      if netuid.Err? { return Err(netuid.error); }
      var counter := CurrentSubnetCounter(netuid.value);
      var key := Key(caller, spender, netuid.value, counter);
      var current := Get(key);
      var amount := SatAdd256(current, increase);
      allowances := allowances[key := amount];
      return Ok(());
    }

    method DecreaseAllowance(handle: Handle, caller: H160, spender: H160, originNetuid: u256, decrease: u256) returns (r: Result<(), Failure>)
      modifies this`allowances, handle
      ensures r == if decrease == 0 then Ok(())
                   else if !old(handle.meter).FitsGas(readGas + readGas + writeGas) then Err(OutOfGas)
                   else if originNetuid > U16_MAX then Err(BadNetuid) else Ok(())
      ensures State() == if decrease == 0 || r.Err? then old(State())
                         else Step(old(State()), Op.Decrease(caller, spender, originNetuid, decrease))
      ensures handle.meter == Recorded(old(handle.meter), if decrease == 0 then [] else [readGas, readGas, writeGas])
    {
      if decrease == 0 { return Ok(()); }
      r := RecordReadReadWrite(handle);
      if r.Err? { return; }
      var netuid := ToU16(originNetuid);
      if netuid.Err? { return Err(netuid.error); }
      var counter := CurrentSubnetCounter(netuid.value);
      var key := Key(caller, spender, netuid.value, counter);
      var current := Get(key);
      var amount := SatSub256(current, decrease);
      if amount == 0 {
        allowances := allowances - {key};
      } else {
        allowances := allowances[key := amount];
      }
      return Ok(());
    }

    method TryConsumeAllowance(handle: Handle, approver: H160, spender: H160, netuid: u16, amount: u256) returns (r: Result<(), Failure>)
      modifies this`allowances, handle
      ensures r == ConsumeVerdict(old(handle.meter), readGas + readGas + writeGas, old(State()).Allowance(approver, spender, netuid), amount)
      ensures handle.meter == Recorded(old(handle.meter), if amount == 0 then [] else [readGas, readGas, writeGas])
      ensures State() == if r.Err? then old(State()) else Step(old(State()), Spend(approver, spender, netuid, amount))
      ensures r.Ok? <==>
              amount == 0 || (old(handle.meter).FitsGas(readGas + readGas + writeGas) &&
                              amount <= old(State()).Allowance(approver, spender, netuid))
      ensures r.Ok? ==> amount <= old(State()).Allowance(approver, spender, netuid)
      ensures State().Allowance(approver, spender, netuid) ==
              old(State()).Allowance(approver, spender, netuid) - (if r.Ok? then amount else 0)
      ensures forall k :: k != old(State()).CurrentKey(approver, spender, netuid) ==> State().Read(k) == old(State()).Read(k)
    {
      if amount == 0 { return Ok(()); }
      r := RecordReadReadWrite(handle);
      if r.Err? { return; }
      var counter := CurrentSubnetCounter(netuid);
      var key := Key(approver, spender, netuid, counter);
      var current := Get(key);
      if amount > current {
        return Err(AllowanceExceeded);
      }
      if current - amount == 0 {
        allowances := allowances - {key};
      } else {
        allowances := allowances[key := current - amount];
      }
      return Ok(());
    }

    /** `transferStakeFrom`, run as an EVM call: a failure restores the storage it started from. `q` holds
        the answers the runtime gives about the dispatched transfer. */
    method TransferStakeFrom(handle: Handle, spender: H160, source: H160, destination: H160, hotkey: u256,
                             originNetuid: u256, destinationNetuid: u256, amount: u256, q: Request)
      returns (r: Result<StakeTransfer, Failure>)
      modifies this`allowances, handle
      ensures
        r == if originNetuid > U16_MAX || destinationNetuid > U16_MAX then Err(BadNetuid)
             else
               var m := old(handle.meter);
               var m' := Recorded(m, if amount == 0 then [] else [readGas, readGas, writeGas]);
               match ConsumeVerdict(m, readGas + readGas + writeGas, old(State()).Allowance(source, spender, originNetuid), amount)
               case Err(e) => Err(e)
               case Ok(_) =>
                 match Verdict(StageOf(m', handle.gasLimit, handle.mapping, q), q)
                 case Err(e) => Err(e)
                 case Ok(_) => Ok(StakeTransfer(source, destination, hotkey, originNetuid, destinationNetuid, ToU64(amount)))
      ensures State() == if r.Err? then old(State()) else Step(old(State()), Spend(source, spender, originNetuid, amount))
      ensures r.Ok? ==> originNetuid <= U16_MAX && destinationNetuid <= U16_MAX
      ensures r.Ok? ==>
                && amount <= old(State()).Allowance(source, spender, originNetuid)
                && State().Allowance(source, spender, originNetuid) == old(State()).Allowance(source, spender, originNetuid) - amount
                && r.value == StakeTransfer(source, destination, hotkey, originNetuid, destinationNetuid, r.value.alpha)
                && r.value.alpha <= amount && (amount <= U64_MAX ==> r.value.alpha == amount)
      ensures
        handle.meter ==
          var m := old(handle.meter);
          var m' := Recorded(m, if amount == 0 then [] else [readGas, readGas, writeGas]);
          if originNetuid > U16_MAX || destinationNetuid > U16_MAX then m
          else if ConsumeVerdict(m, readGas + readGas + writeGas, old(State()).Allowance(source, spender, originNetuid), amount).Err?
          then m'
          else MeterAfter(m', handle.gasLimit, handle.mapping, q)
    {
      var before := allowances;
      var origin := ToU16(originNetuid);
      if origin.Err? { return Err(origin.error); }
      var target := ToU16(destinationNetuid);
      if target.Err? { return Err(target.error); }
      var alpha := ToU64(amount);
      var consumed := TryConsumeAllowance(handle, source, spender, origin.value, amount);
      if consumed.Err? { return Err(consumed.error); }
      var dispatched := handle.TryDispatchRuntimeCall(q);
      if dispatched.Err? {
        allowances := before;
        return Err(dispatched.error);
      }
      return Ok(StakeTransfer(source, destination, hotkey, origin.value, target.value, alpha));
    }
  }

  // ----- conservation --------------------------------------------------------------------------

  /** Whether `op`, applied to `l`, addresses the allowance stored under `k`. */
  predicate Addresses(l: Ledger, op: Op, k: Key) {
    KeyOf(l, op) == Some(k)
  }

  /** What the approver adds to the allowance. */
  function Granted(l: Ledger, op: Op, k: Key): nat {
    if Addresses(l, op, k) && (op.Approve? || op.Increase?) then op.amount else 0
  }

  /** What a successful spend takes from it. */
  function Consumed(l: Ledger, op: Op, k: Key): nat {
    if Addresses(l, op, k) && op.Spend? && op.amount <= l.Read(k) then op.amount else 0
  }

  /** The stake such a spend moves, in the 64 bits the runtime call carries. */
  function Moved(l: Ledger, op: Op, k: Key): nat {
    if Addresses(l, op, k) && op.Spend? && op.amount <= l.Read(k) then ToU64(op.amount) else 0
  }

  /** What lapses: an allowance approved over, a decrease as far as there is something to decrease, and the
      part of an increase that 256 bits cannot hold. */
  function Lapsed(l: Ledger, op: Op, k: Key): nat {
    if !Addresses(l, op, k) then 0
    else
      var current := l.Read(k);
      match op
      case Approve(_, _, _, _) => current
      case Decrease(_, _, _, amount) => if amount < current then amount else current
      case Increase(_, _, _, amount) => if current + amount > U256_MAX then current + amount - U256_MAX else 0
      case _ => 0
  }

  function Sum(l: Ledger, ops: seq<Op>, k: Key, f: (Ledger, Op, Key) -> nat): nat
    decreases |ops|
  {
    if ops == [] then 0 else f(l, ops[0], k) + Sum(Step(l, ops[0]), ops[1..], k, f)
  }

  lemma StepConserves(l: Ledger, op: Op, k: Key)
    ensures Step(l, op).Read(k) + Consumed(l, op, k) + Lapsed(l, op, k) == l.Read(k) + Granted(l, op, k)
    ensures Moved(l, op, k) <= Consumed(l, op, k)
  {
  }

  /** Over every run and for every allowance: what remains, was consumed and lapsed is what was there and was
      granted, and the stake moved is at most what was consumed. */
  lemma {:induction false} RunConserves(l: Ledger, ops: seq<Op>, k: Key)
    ensures RunOf(l, ops).Read(k) + Sum(l, ops, k, Consumed) + Sum(l, ops, k, Lapsed) == l.Read(k) + Sum(l, ops, k, Granted)
    ensures Sum(l, ops, k, Moved) <= Sum(l, ops, k, Consumed)
    decreases |ops|
  {
    if ops != [] {
      StepConserves(l, ops[0], k);
      RunConserves(Step(l, ops[0]), ops[1..], k);
    }
  }

  // ----- sequences of calls --------------------------------------------------------------------

  /** A call of the precompile, or the registration of a network in between. */
  datatype PrecompileCall =
    | ApproveCall(caller: H160, spender: H160, originNetuid: u256, amount: u256)
    | IncreaseCall(caller: H160, spender: H160, originNetuid: u256, amount: u256)
    | DecreaseCall(caller: H160, spender: H160, originNetuid: u256, amount: u256)
    | TransferCall(caller: H160, source: H160, destination: H160, hotkey: u256,
                   originNetuid: u256, destinationNetuid: u256, amount: u256, q: Request)
    | RegisterCall(netuid: u16)

  /** A stake transfer that was dispatched, and the allowance it was paid from. */
  datatype Spent = Spent(key: Key, transfer: StakeTransfer)

  /** The stake moved from one allowance. */
  function MovedUnder(spent: seq<Spent>, k: Key): nat {
    if spent == [] then 0
    else MovedUnder(spent[..|spent| - 1], k) + (if spent[|spent| - 1].key == k then spent[|spent| - 1].transfer.alpha else 0)
  }

  /** What the calls of the approver could add to the allowance at most. */
  function GrantedIn(calls: seq<PrecompileCall>, k: Key): nat {
    if calls == [] then 0
    else
      var c := calls[|calls| - 1];
      GrantedIn(calls[..|calls| - 1], k) +
      (if (c.ApproveCall? || c.IncreaseCall?) && c.caller == k.approver && c.spender == k.spender && c.originNetuid == k.netuid
       then c.amount else 0)
  }

  lemma {:induction false} SumMore(l: Ledger, ops: seq<Op>, op: Op, k: Key, f: (Ledger, Op, Key) -> nat)
    ensures Sum(l, ops + [op], k, f) == Sum(l, ops, k, f) + f(RunOf(l, ops), op, k)
    decreases |ops|
  {
    if ops == [] {
      assert [op][1..] == [];
    } else {
      assert (ops + [op])[1..] == ops[1..] + [op];
      SumMore(Step(l, ops[0]), ops[1..], op, k, f);
    }
  }

  /** `spent` and `calls` are accounted for by the operations `ops` on `l`. */
  ghost predicate Accounts(l: Ledger, ops: seq<Op>, spent: seq<Spent>, calls: seq<PrecompileCall>) {
    forall k :: MovedUnder(spent, k) <= Sum(l, ops, k, Consumed) && Sum(l, ops, k, Granted) <= GrantedIn(calls, k)
  }

  /** What one call adds: at most one operation, at most one transfer, and that one within what is consumed. */
  ghost predicate Adds(l: Ledger, call: PrecompileCall, op: Option<Op>, sent: Option<Spent>) {
    && (sent.Some? ==> op.Some? && sent.value.transfer.alpha <= Consumed(l, op.value, sent.value.key))
    && (op.Some? ==> forall k :: Granted(l, op.value, k) <= GrantedIn([call], k))
  }

  function Appended<T>(s: seq<T>, x: Option<T>): seq<T> {
    if x.Some? then s + [x.value] else s
  }

  lemma MovedMore(spent: seq<Spent>, sent: Option<Spent>, k: Key)
    ensures MovedUnder(Appended(spent, sent), k) ==
            MovedUnder(spent, k) + (if sent.Some? && sent.value.key == k then sent.value.transfer.alpha else 0)
  {
    if sent.Some? {
      assert (spent + [sent.value])[..|spent|] == spent;
    }
  }

  lemma GrantedMore(calls: seq<PrecompileCall>, call: PrecompileCall, k: Key)
    ensures GrantedIn(calls + [call], k) == GrantedIn(calls, k) + GrantedIn([call], k)
  {
    assert (calls + [call])[..|calls|] == calls;
    assert [call][..0] == [];
  }

  lemma AccountsMore(l: Ledger, ops: seq<Op>, spent: seq<Spent>, calls: seq<PrecompileCall>,
                     op: Option<Op>, sent: Option<Spent>, call: PrecompileCall)
    requires Accounts(l, ops, spent, calls) && Adds(RunOf(l, ops), call, op, sent)
    ensures Accounts(l, Appended(ops, op), Appended(spent, sent), calls + [call])
    ensures op.Some? ==> RunOf(l, Appended(ops, op)) == Step(RunOf(l, ops), op.value)
  {
    forall k
      ensures MovedUnder(Appended(spent, sent), k) <= Sum(l, Appended(ops, op), k, Consumed)
      ensures Sum(l, Appended(ops, op), k, Granted) <= GrantedIn(calls + [call], k)
    {
      MovedMore(spent, sent, k);
      GrantedMore(calls, call, k);
      if op.Some? {
        SumMore(l, ops, op.value, k, Consumed);
        SumMore(l, ops, op.value, k, Granted);
      }
    }
    if op.Some? {
      RunOfMore(l, ops, op.value);
    }
  }

  /** One call, with the operation it came to and the transfer it dispatched, if any. */
  method Perform(p: StakingPrecompile, handle: Handle, call: PrecompileCall) returns (sent: Option<Spent>, ghost op: Option<Op>)
    modifies p`allowances, p`counters, handle
    ensures p.State() == if op.Some? then Step(old(p.State()), op.value) else old(p.State())
    ensures Adds(old(p.State()), call, op, sent)
    ensures sent.Some? ==>
              && call.TransferCall?
              && sent.value.key.approver == call.source && sent.value.key.spender == call.caller
              && sent.value.transfer.alpha <= call.amount
  {
    sent, op := None, None;
    assert [call][..0] == [];
    match call
    case ApproveCall(caller, spender, netuid, amount) =>
      var r := p.Approve(handle, caller, spender, netuid, amount);
      if r.Ok? { op := Some(Op.Approve(caller, spender, netuid, amount)); }
    case IncreaseCall(caller, spender, netuid, amount) =>
      var r := p.IncreaseAllowance(handle, caller, spender, netuid, amount);
      if r.Ok? && amount != 0 { op := Some(Op.Increase(caller, spender, netuid, amount)); }
    case DecreaseCall(caller, spender, netuid, amount) =>
      var r := p.DecreaseAllowance(handle, caller, spender, netuid, amount);
      if r.Ok? && amount != 0 { op := Some(Op.Decrease(caller, spender, netuid, amount)); }
    case TransferCall(caller, source, destination, hotkey, origin, target, amount, q) =>
      var counter := if origin <= U16_MAX && origin in p.counters then p.counters[origin] else 0;
      var r := p.TransferStakeFrom(handle, caller, source, destination, hotkey, origin, target, amount, q);
      if r.Ok? {
        op := Some(Spend(source, caller, origin, amount));
        sent := Some(Spent(Key(source, caller, origin, counter), r.value));
      }
    case RegisterCall(netuid) =>
      p.RegisterNetwork(netuid);
      op := Some(Register(netuid));
  }

  /** Any sequence of calls of the precompile: under each key the stake dispatched is at most what was consumed,
      and together with what is left at most what was there and what the approver granted. */
  method PerformAll(p: StakingPrecompile, handle: Handle, calls: seq<PrecompileCall>) returns (spent: seq<Spent>, ghost ops: seq<Op>)
    modifies p`allowances, p`counters, handle
    ensures p.State() == RunOf(old(p.State()), ops)
    ensures forall k :: MovedUnder(spent, k) <= Sum(old(p.State()), ops, k, Consumed)
    ensures forall k :: MovedUnder(spent, k) + p.State().Read(k) <= old(p.State()).Read(k) + GrantedIn(calls, k)
  {
    spent, ops := [], [];
    ghost var l := p.State();
    for i := 0 to |calls|
      invariant p.State() == RunOf(l, ops)
      invariant Accounts(l, ops, spent, calls[..i])
    {
      assert calls[..i + 1] == calls[..i] + [calls[i]];
      ghost var op;
      var sent;
      sent, op := Perform(p, handle, calls[i]);
      AccountsMore(l, ops, spent, calls[..i], op, sent, calls[i]);
      spent, ops := Appended(spent, sent), Appended(ops, op);
    }
    assert calls[..|calls|] == calls;
    forall k ensures MovedUnder(spent, k) + p.State().Read(k) <= l.Read(k) + GrantedIn(calls, k) {
      RunConserves(l, ops, k);
    }
  }

  // ----- normal form and framing ---------------------------------------------------------------

  /** No zero is stored, and no key is ahead of its subnet's registration counter. */
  ghost predicate Valid(l: Ledger) {
    forall k :: k in l.allowances ==> l.allowances[k] > 0 && k.counter <= l.Counter(k.netuid)
  }

  lemma StepValid(l: Ledger, op: Op)
    requires Valid(l)
    ensures Valid(Step(l, op))
  {
  }

  lemma {:induction false} RunValid(l: Ledger, ops: seq<Op>)
    requires Valid(l)
    ensures Valid(RunOf(l, ops))
    decreases |ops|
  {
    if ops != [] {
      StepValid(l, ops[0]);
      RunValid(Step(l, ops[0]), ops[1..]);
    }
  }

  /** An operation touches the one allowance it names under the current registration, and raises it only if
      it is an approval or an increase by the approver. */
  lemma StepFrame(l: Ledger, op: Op, k: Key)
    ensures !Addresses(l, op, k) ==> Step(l, op).Read(k) == l.Read(k)
    ensures Step(l, op).Read(k) > l.Read(k) ==> (op.Approve? || op.Increase?) && op.approver == k.approver
    ensures !op.Register? ==> Step(l, op).counters == l.counters
    ensures op.Register? ==> Step(l, op).allowances == l.allowances
  {
  }

  /** Over every run in which an approver neither approves nor increases, no allowance of theirs grows. */
  lemma {:induction false} OnlyApproverRaises(l: Ledger, ops: seq<Op>, k: Key)
    requires forall i :: 0 <= i < |ops| && (ops[i].Approve? || ops[i].Increase?) ==> ops[i].approver != k.approver
    ensures RunOf(l, ops).Read(k) <= l.Read(k)
    decreases |ops|
  {
    if ops != [] {
      StepFrame(l, ops[0], k);
      OnlyApproverRaises(Step(l, ops[0]), ops[1..], k);
    }
  }

  /** Nothing is allowed in an empty ledger, and a first approval is kept under the counter zero. */
  lemma FirstApproval(approver: H160, spender: H160, netuid: u16, amount: u256)
    requires amount > 0
    ensures
      var l := Ledger(map[], map[]);
      && l.Allowance(approver, spender, netuid) == 0
      && Step(l, Approve(approver, spender, netuid, amount)).allowances == map[Key(approver, spender, netuid, 0) := amount]
  {
  }

  // ----- registrations -------------------------------------------------------------------------

  /** Registering a subnet anew makes every allowance on it read zero, exactly unless its counter is already
      at its maximum, where it sticks and every allowance on it lives on. */
  lemma RegistrationInvalidates(l: Ledger, netuid: u16, approver: H160, spender: H160)
    requires Valid(l)
    ensures Step(l, Register(netuid)).Allowance(approver, spender, netuid) ==
            if l.Counter(netuid) < U64_MAX then 0 else l.Allowance(approver, spender, netuid)
  {
    var l' := Step(l, Register(netuid));
    var k := l'.CurrentKey(approver, spender, netuid);
    if l.Counter(netuid) < U64_MAX {
      assert k.counter > l.Counter(netuid);
    }
  }

  function Registers(netuid: u16, n: nat): seq<Op> {
    seq(n, _ => Register(netuid))
  }

  lemma {:induction false} CounterAfter(l: Ledger, netuid: u16, n: nat)
    ensures RunOf(l, Registers(netuid, n)).Counter(netuid) == ToU64(l.Counter(netuid) + n)
    decreases n
  {
    if n > 0 {
      assert Registers(netuid, n)[1..] == Registers(netuid, n - 1);
      CounterAfter(Step(l, Register(netuid)), netuid, n - 1);
    }
  }

  lemma {:induction false} RunOfMore(l: Ledger, ops: seq<Op>, op: Op)
    ensures RunOf(l, ops + [op]) == Step(RunOf(l, ops), op)
    decreases |ops|
  {
    if ops != [] {
      assert (ops + [op])[1..] == ops[1..] + [op];
      RunOfMore(Step(l, ops[0]), ops[1..], op);
    }
  }

  /** From the empty ledger there is a run after which an allowance survives a registration: one that registers
      the subnet as often as its counter can count. */
  lemma AllowanceSurvives(netuid: u16, approver: H160, spender: H160, amount: u256)
    ensures
      var ops := Registers(netuid, U64_MAX) + [Approve(approver, spender, netuid, amount)];
      RunOf(Ledger(map[], map[]), ops + [Register(netuid)]).Allowance(approver, spender, netuid) == amount
  {
    var l, ops := Ledger(map[], map[]), Registers(netuid, U64_MAX);
    var approve := Approve(approver, spender, netuid, amount);
    CounterAfter(l, netuid, U64_MAX);
    RunOfMore(l, ops, approve);
    RunOfMore(l, ops + [approve], Register(netuid));
  }

  lemma {:induction false} CountersGrow(l: Ledger, ops: seq<Op>, netuid: u16)
    ensures l.Counter(netuid) <= RunOf(l, ops).Counter(netuid)
    decreases |ops|
  {
    if ops != [] {
      CountersGrow(Step(l, ops[0]), ops[1..], netuid);
    }
  }

  /** An allowance of an earlier registration is dead for good: over every later run nothing is granted under
      its key, nothing consumed from it, and it is never the one a view or a spend would read. */
  lemma {:induction false} StaleStaysDead(l: Ledger, ops: seq<Op>, k: Key)
    requires k.counter < l.Counter(k.netuid)
    ensures Sum(l, ops, k, Granted) == 0 && Sum(l, ops, k, Consumed) == 0 && Sum(l, ops, k, Moved) == 0
    ensures RunOf(l, ops).Read(k) == l.Read(k)
    ensures RunOf(l, ops).CurrentKey(k.approver, k.spender, k.netuid) != k
    decreases |ops|
  {
    if ops != [] {
      CountersGrow(l, [ops[0]], k.netuid);
      assert RunOf(l, [ops[0]]) == Step(l, ops[0]);
      StepFrame(l, ops[0], k);
      StaleStaysDead(Step(l, ops[0]), ops[1..], k);
    }
  }

  /** What can be spent on a subnet after it is registered anew is at most what is granted after. */
  lemma FreshAfterRegistration(l: Ledger, netuid: u16, approver: H160, spender: H160, ops: seq<Op>)
    requires Valid(l) && l.Counter(netuid) < U64_MAX
    ensures
      var l' := Step(l, Register(netuid));
      var k := l'.CurrentKey(approver, spender, netuid);
      RunOf(l', ops).Read(k) + Sum(l', ops, k, Consumed) <= Sum(l', ops, k, Granted)
  {
    var l' := Step(l, Register(netuid));
    RegistrationInvalidates(l, netuid, approver, spender);
    RunConserves(l', ops, l'.CurrentKey(approver, spender, netuid));
  }
}
