/** `runtime/src/check_mortality.rs`: transactions that may submit an encrypted call need a short era. */
module CheckMortality {
  import opened Wrappers
  import opened RuntimeCalls
  import opened DepthScan

  const MAX_SHIELD_ERA_PERIOD: nat := 8

  datatype Era = Immortal | Mortal(period: nat, phase: nat)

  datatype Invalid = Stale

  predicate EncodedContainsShieldSubmit(dec: Decoder, bytes: seq<byte>, depth: nat)
    decreases SCAN_DEPTH - depth, 1, bytes
  {
    if depth >= SCAN_DEPTH then true
    else
      var remaining := SCAN_DEPTH - depth;
      match DecodeAll(dec, remaining, bytes)
      case Some(call) => ShieldSubmitAtDepth(dec, call, depth)
      case None =>
        match dec(remaining, bytes)
        case Some((call, _)) => ShieldSubmitAtDepth(dec, call, depth)
        case None => DecodeAll(dec, PROBE_DEPTH, bytes).Some? || dec(PROBE_DEPTH, bytes).Some?
  }

  predicate ShieldSubmitAtDepth(dec: Decoder, c: RuntimeCall, depth: nat)
    decreases SCAN_DEPTH - depth, 0, c
  {
    if depth >= SCAN_DEPTH then true
    else
      match c
      case MevShield(SubmitEncrypted(_)) => true
      case Utility(inner) => (
        match inner
        case Batch(calls) => exists i | 0 <= i < |calls| :: ShieldSubmitAtDepth(dec, calls[i], depth + 1)
        case BatchAll(calls) => exists i | 0 <= i < |calls| :: ShieldSubmitAtDepth(dec, calls[i], depth + 1)
        case ForceBatch(calls) => exists i | 0 <= i < |calls| :: ShieldSubmitAtDepth(dec, calls[i], depth + 1)
        case IfElse(main, fallback) =>
          ShieldSubmitAtDepth(dec, main, depth + 1) || ShieldSubmitAtDepth(dec, fallback, depth + 1)
        case _ => ShieldSubmitAtDepth(dec, inner.call, depth + 1))
      case Proxy(inner) => !inner.OtherProxy? && ShieldSubmitAtDepth(dec, inner.call, depth + 1)
      case Sudo(inner) => !inner.OtherSudo? && ShieldSubmitAtDepth(dec, inner.call, depth + 1)
      case Multisig(inner) => !inner.OtherMultisig? && ShieldSubmitAtDepth(dec, inner.call, depth + 1)
      case Scheduler(inner) => !inner.OtherScheduler? && ShieldSubmitAtDepth(dec, inner.call, depth + 1)
      case Preimage(NotePreimage(bytes)) => EncodedContainsShieldSubmit(dec, bytes, depth + 1)
      case _ => false
  }

  function EnsureShieldSubmitMortalEra(dec: Decoder, era: Era, c: RuntimeCall): Result<(), Invalid> {
    if ShieldSubmitAtDepth(dec, c, 0) then
      var tooLong :=
        match era
        case Immortal => true
        case Mortal(period, _) => period > MAX_SHIELD_ERA_PERIOD;
      if tooLong then Err(Stale) else Ok(())
    else Ok(())
  }

  /** The four decode attempts amount to one prefix decode and one probe, and the branches of the
      match to one descent into the carried calls. */
  lemma {:induction false} SubmitScan(dec: Decoder, c: RuntimeCall, depth: nat)
    ensures ShieldSubmitAtDepth(dec, c, depth) == Scan(dec, IsShieldSubmit, c, depth)
    decreases SCAN_DEPTH - depth, 0
  {
    if depth < SCAN_DEPTH {
      forall i | 0 <= i < |Children(c)|
        ensures ShieldSubmitAtDepth(dec, Children(c)[i], depth + 1) == Scan(dec, IsShieldSubmit, Children(c)[i], depth + 1)
      {
        SubmitScan(dec, Children(c)[i], depth + 1);
      }
      ScanStep(dec, IsShieldSubmit, c, depth);
      if NotedBytes(c).Some? {
        SubmitScanBytes(dec, NotedBytes(c).value, depth + 1);
      }
    }
  }

  lemma {:induction false} SubmitScanBytes(dec: Decoder, bytes: seq<byte>, depth: nat)
    ensures EncodedContainsShieldSubmit(dec, bytes, depth) == ScanBytes(dec, IsShieldSubmit, bytes, depth)
    decreases SCAN_DEPTH - depth, 1
  {
    if depth < SCAN_DEPTH && dec(SCAN_DEPTH - depth, bytes).Some? {
      SubmitScan(dec, dec(SCAN_DEPTH - depth, bytes).value.0, depth);
    }
  }

  /** Scanning from deeper down never turns a yes into a no. */
  lemma SubmitMonotone(dec: Decoder, c: RuntimeCall, shallow: nat, deep: nat)
    requires LimitStable(dec)
    requires shallow <= deep && ShieldSubmitAtDepth(dec, c, shallow)
    ensures ShieldSubmitAtDepth(dec, c, deep)
  {
    SubmitScan(dec, c, shallow);
    SubmitScan(dec, c, deep);
    ScanMonotone(dec, IsShieldSubmit, c, shallow, deep);
  }

  /** Bytes appended to a preimage that holds a call never change the verdict on it. */
  lemma SubmitIgnoresTrailingBytes(dec: Decoder, bytes: seq<byte>, more: seq<byte>, depth: nat)
    requires LimitStable(dec) && ReadsPrefix(dec)
    requires dec(PROBE_DEPTH, bytes).Some?
    ensures EncodedContainsShieldSubmit(dec, bytes + more, depth) == EncodedContainsShieldSubmit(dec, bytes, depth)
  {
    SubmitScanBytes(dec, bytes, depth);
    SubmitScanBytes(dec, bytes + more, depth);
    TrailingBytesIgnored(dec, IsShieldSubmit, bytes, more, depth);
  }

  /** A transaction is turned away exactly when its era is longer than eight blocks and its call either
      reaches a `submit_encrypted` along some open path of any length or exceeds the scan budget. */
  lemma EraCheckExact(dec: Decoder, era: Era, c: RuntimeCall)
    requires LimitStable(dec)
    ensures EnsureShieldSubmitMortalEra(dec, era, c) == Err(Stale) <==>
            && (era.Immortal? || era.period > 8)
            && (ReachesOpenly(dec, IsShieldSubmit, c) || !WithinBudget(dec, c, 0))
  {
    SubmitScan(dec, c, 0);
    ScanDecomposes(dec, IsShieldSubmit, c, 0);
  }

  /** A submission that can be reached passes under a long era exactly when, within the budget, every path to
      one is hidden somewhere. */
  lemma EraCheckMissesIff(dec: Decoder, era: Era, c: RuntimeCall)
    requires LimitStable(dec) && (era.Immortal? || era.period > 8)
    ensures Reaches(dec, IsShieldSubmit, c) && EnsureShieldSubmitMortalEra(dec, era, c) == Ok(()) <==>
            && WithinBudget(dec, c, 0)
            && Reaches(dec, IsShieldSubmit, c)
            && (forall p :: PathTo(dec, IsShieldSubmit, c, p) ==> !Open(dec, p))
  {
    SubmitScan(dec, c, 0);
    UnreportedIff(dec, IsShieldSubmit, c, 0);
  }
}
