/** The runtime's call type, as far as the scanners and the fee extension look into it.

    A pallet that the code matches on, or that can carry another call, gets a constructor of `RuntimeCall`;
    inside it, each dispatchable that carries another call (or the bytes of one) gets a constructor of its
    own, and all other dispatchables of that pallet share one `Other...` constructor. Arguments that no
    modelled function reads (indices, weights, periods, priorities) are not represented. */
module RuntimeCalls {
  import opened Wrappers

  newtype byte = x: int | 0 <= x < 256

  type AccountId = s: seq<byte> | |s| == 32 witness seq(32, _ => 0)

  /** `MultiAddress`; only the `Id` form resolves to an account under `AccountIdLookup`. */
  datatype MultiAddress = Id(account: AccountId) | OtherAddress(raw: seq<byte>)

  datatype RuntimeCall =
    | OtherCall(data: seq<byte>)
    | Qubitum(data: seq<byte>)
    | MevShield(shield: ShieldCall)
    | Utility(utility: UtilityCall)
    | Proxy(proxy: ProxyCall)
    | Sudo(sudo: SudoCall)
    | Multisig(multisig: MultisigCall)
    | Scheduler(scheduler: SchedulerCall)
    | Preimage(preimage: PreimageCall)
    | Crowdloan(crowdloan: CrowdloanCall)

  datatype ShieldCall =
    | SubmitEncrypted(ciphertext: seq<byte>)
    | StoreEncrypted(encryptedCall: seq<byte>)
    | OtherShield(data: seq<byte>)

  datatype UtilityCall =
    | Batch(calls: seq<RuntimeCall>)
    | BatchAll(calls: seq<RuntimeCall>)
    | ForceBatch(calls: seq<RuntimeCall>)
    | AsDerivative(call: RuntimeCall)
    | DispatchAs(call: RuntimeCall)
    | WithWeight(call: RuntimeCall)
    | DispatchAsFallible(call: RuntimeCall)
    | IfElse(main: RuntimeCall, fallback: RuntimeCall)

  datatype ProxyCall =
    | Proxied(realSource: MultiAddress, call: RuntimeCall)
    | ProxyAnnounced(call: RuntimeCall)
    | OtherProxy(data: seq<byte>)

  datatype SudoCall =
    | Sudoed(call: RuntimeCall)
    | SudoUncheckedWeight(call: RuntimeCall)
    | SudoAs(call: RuntimeCall)
    | OtherSudo(data: seq<byte>)

  datatype MultisigCall =
    | AsMultiThreshold1(call: RuntimeCall)
    | AsMulti(call: RuntimeCall)
    | OtherMultisig(data: seq<byte>)

  datatype SchedulerCall =
    | Schedule(call: RuntimeCall)
    | ScheduleNamed(call: RuntimeCall)
    | ScheduleAfter(call: RuntimeCall)
    | ScheduleNamedAfter(call: RuntimeCall)
    | OtherScheduler(data: seq<byte>)

  datatype PreimageCall =
    | NotePreimage(bytes: seq<byte>)
    | OtherPreimage(data: seq<byte>)

  /** A crowdloan may be created with a call to dispatch when it is finalized. */
  datatype CrowdloanCall =
    | Create(call: Option<RuntimeCall>)
    | OtherCrowdloan(data: seq<byte>)

  /** The calls carried directly by `c` that the scanners descend into, in the order the runtime lists them. */
  function Children(c: RuntimeCall): seq<RuntimeCall> {
    match c
    case Utility(Batch(calls)) => calls
    case Utility(BatchAll(calls)) => calls
    case Utility(ForceBatch(calls)) => calls
    case Utility(IfElse(main, fallback)) => [main, fallback]
    case Utility(u) => [u.call]
    case Proxy(OtherProxy(_)) => []
    case Proxy(p) => [p.call]
    case Sudo(OtherSudo(_)) => []
    case Sudo(s) => [s.call]
    case Multisig(OtherMultisig(_)) => []
    case Multisig(m) => [m.call]
    case Scheduler(OtherScheduler(_)) => []
    case Scheduler(s) => [s.call]
    case _ => []
  }

  /** Carries a call that no scanner looks into. */
  predicate StoresUnseen(c: RuntimeCall) {
    c.Crowdloan? && c.crowdloan.Create? && c.crowdloan.call.Some?
  }

  /** All calls carried directly by `c`. */
  function Carried(c: RuntimeCall): seq<RuntimeCall> {
    if StoresUnseen(c) then [c.crowdloan.call.value] else Children(c)
  }

  /** The bytes `c` notes as a preimage, if it is a `note_preimage` call. */
  function NotedBytes(c: RuntimeCall): Option<seq<byte>> {
    if c.Preimage? && c.preimage.NotePreimage? then Some(c.preimage.bytes) else None
  }

  /** The wrappers that dispatch what they carry under their own origin. */
  predicate Routable(c: RuntimeCall) {
    c.Utility? && (c.utility.Batch? || c.utility.BatchAll? || c.utility.ForceBatch? || c.utility.IfElse?)
  }

  predicate IsQubitum(c: RuntimeCall) {
    c.Qubitum?
  }

  predicate IsShieldSubmit(c: RuntimeCall) {
    c.MevShield? && c.shield.SubmitEncrypted?
  }

  /** The two dispatchables that put something into the shield queue or claim an encrypted slot. */
  predicate IsShieldEntry(c: RuntimeCall) {
    c.MevShield? && (c.shield.SubmitEncrypted? || c.shield.StoreEncrypted?)
  }

  /** `c` inside `n` wrappers. */
  function Wrapped(c: RuntimeCall, n: nat): RuntimeCall
    decreases n, c
  {
    if n == 0 then c else Sudo(Sudoed(Wrapped(c, n - 1)))
  }

  /** The dispatchables that carry calls, one by one, and no others. */
  lemma CarriedByDispatchable(c: RuntimeCall, k: RuntimeCall)
    ensures k in Carried(c) <==>
            || (c.Utility? && c.utility.Batch? && k in c.utility.calls)
            || (c.Utility? && c.utility.BatchAll? && k in c.utility.calls)
            || (c.Utility? && c.utility.ForceBatch? && k in c.utility.calls)
            || (c.Utility? && c.utility.IfElse? && (k == c.utility.main || k == c.utility.fallback))
            || c == Utility(AsDerivative(k))
            || c == Utility(DispatchAs(k))
            || c == Utility(WithWeight(k))
            || c == Utility(DispatchAsFallible(k))
            || (c.Proxy? && c.proxy.Proxied? && c.proxy.call == k)
            || c == Proxy(ProxyAnnounced(k))
            || c == Sudo(Sudoed(k))
            || c == Sudo(SudoUncheckedWeight(k))
            || c == Sudo(SudoAs(k))
            || c == Multisig(AsMultiThreshold1(k))
            || c == Multisig(AsMulti(k))
            || c == Scheduler(Schedule(k))
            || c == Scheduler(ScheduleNamed(k))
            || c == Scheduler(ScheduleAfter(k))
            || c == Scheduler(ScheduleNamedAfter(k))
            || c == Crowdloan(Create(Some(k)))
  {
  }
}
