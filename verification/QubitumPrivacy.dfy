/** `runtime/src/qubitum_privacy.rs`: which calls may not appear in the open, and why. */
module QubitumPrivacy {
  import opened Wrappers
  import opened RuntimeCalls
  import opened DepthScan

  datatype Violation =
    | QubitumCallMustBeShielded
    | FailedShieldedTxParsing
    | InvalidShieldedTxPubKeyHash
    | ShieldStoreEncryptedDisabled

  /** What the shield pallet says about a ciphertext: it parses or not, and its key is the pending one
      or not. The answer depends on chain state, so it is a parameter of the scan. */
  datatype Envelope = Unparsable | StaleKey | CurrentKey

  type Envelopes = seq<byte> -> Envelope

  function EncodedPrivacyViolation(dec: Decoder, env: Envelopes, bytes: seq<byte>, depth: nat): Option<Violation>
    decreases SCAN_DEPTH - depth, 1, bytes
  {
    if depth >= SCAN_DEPTH then Some(QubitumCallMustBeShielded)
    else
      var remaining := SCAN_DEPTH - depth;
      match DecodeAll(dec, remaining, bytes)
      case Some(call) => PrivacyViolationAtDepth(dec, env, call, depth)
      case None =>
        match dec(remaining, bytes)
        case Some((call, _)) => PrivacyViolationAtDepth(dec, env, call, depth)
        case None =>
          if DecodeAll(dec, PROBE_DEPTH, bytes).Some? || dec(PROBE_DEPTH, bytes).Some?
          then Some(QubitumCallMustBeShielded)
          else None
  }

  function PrivacyViolationAtDepth(dec: Decoder, env: Envelopes, c: RuntimeCall, depth: nat): Option<Violation>
    decreases SCAN_DEPTH - depth, 0, c
  {
    if depth >= SCAN_DEPTH then Some(QubitumCallMustBeShielded)
    else
      match c
      case Qubitum(_) => Some(QubitumCallMustBeShielded)
      case Utility(inner) => (
        match inner
        case Batch(calls) => FindViolation(dec, env, calls, depth + 1)
        case BatchAll(calls) => FindViolation(dec, env, calls, depth + 1)
        case ForceBatch(calls) => FindViolation(dec, env, calls, depth + 1)
        case IfElse(main, fallback) =>
          var first := PrivacyViolationAtDepth(dec, env, main, depth + 1);
          if first.Some? then first else PrivacyViolationAtDepth(dec, env, fallback, depth + 1)
        case _ => PrivacyViolationAtDepth(dec, env, inner.call, depth + 1))
      case Proxy(inner) =>
        if inner.OtherProxy? then None else PrivacyViolationAtDepth(dec, env, inner.call, depth + 1)
      case Sudo(inner) =>
        if inner.OtherSudo? then None else PrivacyViolationAtDepth(dec, env, inner.call, depth + 1)
      case Multisig(inner) =>
        if inner.OtherMultisig? then None else PrivacyViolationAtDepth(dec, env, inner.call, depth + 1)
      case Scheduler(inner) =>
        if inner.OtherScheduler? then None else PrivacyViolationAtDepth(dec, env, inner.call, depth + 1)
      case Preimage(NotePreimage(bytes)) => EncodedPrivacyViolation(dec, env, bytes, depth + 1)
      case MevShield(SubmitEncrypted(ciphertext)) => (
        match env(ciphertext)
        case Unparsable => Some(FailedShieldedTxParsing)
        case CurrentKey => None
        case StaleKey => Some(InvalidShieldedTxPubKeyHash))
      case MevShield(StoreEncrypted(_)) => Some(ShieldStoreEncryptedDisabled)
      case _ => None
  }

  /** `calls.iter().find_map(..)`. */
  function FindViolation(dec: Decoder, env: Envelopes, calls: seq<RuntimeCall>, depth: nat): Option<Violation>
    decreases SCAN_DEPTH - depth, 1, |calls|
  {
    if calls == [] then None
    else
      var first := PrivacyViolationAtDepth(dec, env, calls[0], depth);
      if first.Some? then first else FindViolation(dec, env, calls[1..], depth)
  }

  function PrivateRuntimeCallViolation(dec: Decoder, env: Envelopes, c: RuntimeCall): Option<Violation> {
    PrivacyViolationAtDepth(dec, env, c, 0)
  }

  // ----- which violation is reported -----------------------------------------------------------

  /** The violation a call is by itself, apart from anything it carries. */
  function OwnViolation(env: Envelopes, c: RuntimeCall): Option<Violation> {
    match c
    case Qubitum(_) => Some(QubitumCallMustBeShielded)
    case MevShield(SubmitEncrypted(ciphertext)) =>
      if env(ciphertext).Unparsable? then Some(FailedShieldedTxParsing)
      else if env(ciphertext).StaleKey? then Some(InvalidShieldedTxPubKeyHash)
      else None
    case MevShield(StoreEncrypted(_)) => Some(ShieldStoreEncryptedDisabled)
    case _ => None
  }

  function Breaches(env: Envelopes): RuntimeCall -> bool {
    c => OwnViolation(env, c).Some?
  }

  /** Which calls are violations by themselves, and of what kind. A submission under the current key is none. */
  lemma OwnViolationExact(env: Envelopes, c: RuntimeCall)
    ensures OwnViolation(env, c) == Some(QubitumCallMustBeShielded) <==> c.Qubitum?
    ensures OwnViolation(env, c) == Some(ShieldStoreEncryptedDisabled) <==> c.MevShield? && c.shield.StoreEncrypted?
    ensures OwnViolation(env, c) == Some(FailedShieldedTxParsing) <==>
            c.MevShield? && c.shield.SubmitEncrypted? && env(c.shield.ciphertext) == Unparsable
    ensures OwnViolation(env, c) == Some(InvalidShieldedTxPubKeyHash) <==>
            c.MevShield? && c.shield.SubmitEncrypted? && env(c.shield.ciphertext) == StaleKey
    ensures c.MevShield? && c.shield.SubmitEncrypted? && env(c.shield.ciphertext) == CurrentKey ==> !Breaches(env)(c)
  {
  }

  /** All violations in and below `c`, in pre-order, with a cut-off counted as one. */
  function Violations(dec: Decoder, env: Envelopes, c: RuntimeCall, depth: nat): seq<Violation>
    decreases SCAN_DEPTH - depth, 0, c
  {
    if depth >= SCAN_DEPTH then [QubitumCallMustBeShielded]
    else
      var own := OwnViolation(env, c);
      (if own.Some? then [own.value] else [])
      + ViolationsOfAll(dec, env, Children(c), depth + 1)
      + (if NotedBytes(c).None? then [] else ViolationsOfBytes(dec, env, NotedBytes(c).value, depth + 1))
  }

  function ViolationsOfAll(dec: Decoder, env: Envelopes, calls: seq<RuntimeCall>, depth: nat): seq<Violation>
    decreases SCAN_DEPTH - depth, 1, |calls|
  {
    if calls == [] then []
    else Violations(dec, env, calls[0], depth) + ViolationsOfAll(dec, env, calls[1..], depth)
  }

  function ViolationsOfBytes(dec: Decoder, env: Envelopes, bytes: seq<byte>, depth: nat): seq<Violation>
    decreases SCAN_DEPTH - depth, 1, 0, bytes
  {
    if depth >= SCAN_DEPTH then [QubitumCallMustBeShielded]
    else
      match dec(SCAN_DEPTH - depth, bytes)
      case Some((call, _)) => Violations(dec, env, call, depth)
      case None => if dec(PROBE_DEPTH, bytes).Some? then [QubitumCallMustBeShielded] else []
  }

  function First(s: seq<Violation>): Option<Violation> {
    if s == [] then None else Some(s[0])
  }

  ghost predicate FirstReported(dec: Decoder, env: Envelopes, c: RuntimeCall, depth: nat) {
    PrivacyViolationAtDepth(dec, env, c, depth) == First(Violations(dec, env, c, depth))
  }

  /** The scan reports the first violation in pre-order. */
  lemma {:induction false} ReportsFirst(dec: Decoder, env: Envelopes, c: RuntimeCall, depth: nat)
    ensures FirstReported(dec, env, c, depth)
    decreases SCAN_DEPTH - depth, 0
  {
    if depth < SCAN_DEPTH && Children(c) != [] {
      ReportsFirstOfAll(dec, env, Children(c), depth + 1);
      FromChildren(dec, env, c, depth);
    } else if depth < SCAN_DEPTH && NotedBytes(c).Some? {
      ReportsFirstOfBytes(dec, env, NotedBytes(c).value, depth + 1);
      FromBytes(dec, env, c, depth);
    } else {
      LeafViolation(dec, env, c, depth);
    }
  }

  lemma FromChildren(dec: Decoder, env: Envelopes, c: RuntimeCall, depth: nat)
    requires depth < SCAN_DEPTH && Children(c) != []
    requires FindViolation(dec, env, Children(c), depth + 1) == First(ViolationsOfAll(dec, env, Children(c), depth + 1))
    ensures FirstReported(dec, env, c, depth)
  {
    FindInChildren(dec, env, c, depth);
    ViolationsBelow(dec, env, c, depth);
  }

  lemma FromBytes(dec: Decoder, env: Envelopes, c: RuntimeCall, depth: nat)
    requires depth < SCAN_DEPTH && NotedBytes(c).Some?
    requires EncodedPrivacyViolation(dec, env, NotedBytes(c).value, depth + 1) ==
             First(ViolationsOfBytes(dec, env, NotedBytes(c).value, depth + 1))
    ensures FirstReported(dec, env, c, depth)
  {
    ViolationsBelow(dec, env, c, depth);
  }

  /** A call that carries something is no violation by itself. */
  lemma ViolationsBelow(dec: Decoder, env: Envelopes, c: RuntimeCall, depth: nat)
    requires depth < SCAN_DEPTH && (Children(c) != [] || NotedBytes(c).Some?)
    ensures Violations(dec, env, c, depth) ==
            if NotedBytes(c).Some? then ViolationsOfBytes(dec, env, NotedBytes(c).value, depth + 1)
            else ViolationsOfAll(dec, env, Children(c), depth + 1)
    ensures NotedBytes(c).Some? ==> Children(c) == []
  {
    assert OwnViolation(env, c) == None;
  }

  lemma LeafViolation(dec: Decoder, env: Envelopes, c: RuntimeCall, depth: nat)
    requires depth >= SCAN_DEPTH || (Children(c) == [] && NotedBytes(c).None?)
    ensures FirstReported(dec, env, c, depth)
  {
  }

  /** Whatever the wrapper, its carried calls are searched in order. */
  lemma FindInChildren(dec: Decoder, env: Envelopes, c: RuntimeCall, depth: nat)
    requires depth < SCAN_DEPTH && Children(c) != []
    ensures PrivacyViolationAtDepth(dec, env, c, depth) == FindViolation(dec, env, Children(c), depth + 1)
  {
    var calls := Children(c);
    if |calls| == 1 {
      assert calls[1..] == [];
    } else if |calls| == 2 {
      assert calls[1..] == [calls[1]] && calls[1..][1..] == [];
      assert FindViolation(dec, env, calls[1..], depth + 1) == PrivacyViolationAtDepth(dec, env, calls[1], depth + 1);
    }
  }

  lemma {:induction false} ReportsFirstOfAll(dec: Decoder, env: Envelopes, calls: seq<RuntimeCall>, depth: nat)
    ensures FindViolation(dec, env, calls, depth) == First(ViolationsOfAll(dec, env, calls, depth))
    decreases SCAN_DEPTH - depth, 1, |calls|
  {
    if calls != [] {
      ReportsFirst(dec, env, calls[0], depth);
      ReportsFirstOfAll(dec, env, calls[1..], depth);
    }
  }

  lemma {:induction false} ReportsFirstOfBytes(dec: Decoder, env: Envelopes, bytes: seq<byte>, depth: nat)
    ensures EncodedPrivacyViolation(dec, env, bytes, depth) == First(ViolationsOfBytes(dec, env, bytes, depth))
    decreases SCAN_DEPTH - depth, 1, 0
  {
    if depth < SCAN_DEPTH && dec(SCAN_DEPTH - depth, bytes).Some? {
      ReportsFirst(dec, env, dec(SCAN_DEPTH - depth, bytes).value.0, depth);
    }
  }

  /** The main call of `if_else` is looked at before its fallback, and a batch from its first call on. */
  lemma ReportsMainFirst(dec: Decoder, env: Envelopes, encrypted: seq<byte>, data: seq<byte>)
    ensures
      var x, y := MevShield(StoreEncrypted(encrypted)), Qubitum(data);
      && PrivateRuntimeCallViolation(dec, env, Utility(IfElse(x, y))) == Some(ShieldStoreEncryptedDisabled)
      && PrivateRuntimeCallViolation(dec, env, Utility(IfElse(y, x))) == Some(QubitumCallMustBeShielded)
      && PrivateRuntimeCallViolation(dec, env, Utility(Batch([x, y]))) == Some(ShieldStoreEncryptedDisabled)
      && PrivateRuntimeCallViolation(dec, env, Utility(Batch([y, x]))) == Some(QubitumCallMustBeShielded)
  {
    var x, y := MevShield(StoreEncrypted(encrypted)), Qubitum(data);
    FindInChildren(dec, env, Utility(Batch([x, y])), 0);
    FindInChildren(dec, env, Utility(Batch([y, x])), 0);
  }

  // ----- when one is reported ------------------------------------------------------------------

  lemma {:induction false} PrivacyScan(dec: Decoder, env: Envelopes, c: RuntimeCall, depth: nat)
    ensures PrivacyViolationAtDepth(dec, env, c, depth).Some? == Scan(dec, Breaches(env), c, depth)
    decreases SCAN_DEPTH - depth, 0
  {
    if depth < SCAN_DEPTH {
      PrivacyScanAll(dec, env, Children(c), depth + 1);
      if Children(c) != [] {
        FindInChildren(dec, env, c, depth);
      }
      if NotedBytes(c).Some? {
        PrivacyScanBytes(dec, env, NotedBytes(c).value, depth + 1);
      }
    }
  }

  lemma {:induction false} PrivacyScanAll(dec: Decoder, env: Envelopes, calls: seq<RuntimeCall>, depth: nat)
    ensures FindViolation(dec, env, calls, depth).Some? <==>
            exists i | 0 <= i < |calls| :: Scan(dec, Breaches(env), calls[i], depth)
    decreases SCAN_DEPTH - depth, 1, |calls|
  {
    if calls != [] {
      PrivacyScan(dec, env, calls[0], depth);
      PrivacyScanAll(dec, env, calls[1..], depth);
      if i :| 0 < i < |calls| && Scan(dec, Breaches(env), calls[i], depth) {
        assert calls[1..][i - 1] == calls[i];
      }
      if i :| 0 <= i < |calls[1..]| && Scan(dec, Breaches(env), calls[1..][i], depth) {
        assert calls[i + 1] == calls[1..][i];
      }
    }
  }

  lemma {:induction false} PrivacyScanBytes(dec: Decoder, env: Envelopes, bytes: seq<byte>, depth: nat)
    ensures EncodedPrivacyViolation(dec, env, bytes, depth).Some? == ScanBytes(dec, Breaches(env), bytes, depth)
    decreases SCAN_DEPTH - depth, 1, 0
  {
    if depth < SCAN_DEPTH && dec(SCAN_DEPTH - depth, bytes).Some? {
      PrivacyScan(dec, env, dec(SCAN_DEPTH - depth, bytes).value.0, depth);
    }
  }

  /** A violation is reported exactly when a call that is one by itself can be reached along an open path of
      any length, or the scan runs out of budget. */
  lemma ViolationExact(dec: Decoder, env: Envelopes, c: RuntimeCall)
    requires LimitStable(dec)
    ensures PrivateRuntimeCallViolation(dec, env, c).Some? <==>
            ReachesOpenly(dec, Breaches(env), c) || !WithinBudget(dec, c, 0)
  {
    PrivacyScan(dec, env, c, 0);
    ScanDecomposes(dec, Breaches(env), c, 0);
  }

  // ----- which violation is reported, without the budget ---------------------------------------

  /** What a scanner finds one step below `c`, in its order. */
  function Below(dec: Decoder, c: RuntimeCall): seq<RuntimeCall> {
    Children(c) +
    (if NotedBytes(c).Some? && dec(PROBE_DEPTH, NotedBytes(c).value).Some?
     then [dec(PROBE_DEPTH, NotedBytes(c).value).value.0] else [])
  }

  /** A place in the tree of calls is the sequence of the positions on the way to it. */
  function At(dec: Decoder, c: RuntimeCall, place: seq<nat>): Option<RuntimeCall>
    decreases |place|
  {
    if place == [] then Some(c) else AtAmong(dec, Below(dec, c), place)
  }

  function AtAmong(dec: Decoder, calls: seq<RuntimeCall>, place: seq<nat>): Option<RuntimeCall>
    requires place != []
    decreases |place|, 0
  {
    if place[0] < |calls| then At(dec, calls[place[0]], place[1..]) else None
  }

  /** Places are ordered as a reader meets them. */
  predicate Before(p: seq<nat>, q: seq<nat>) {
    q != [] && (p == [] || p[0] < q[0] || (p[0] == q[0] && Before(p[1..], q[1..])))
  }

  predicate Breached(env: Envelopes, x: Option<RuntimeCall>) {
    x.Some? && OwnViolation(env, x.value).Some?
  }

  /** `place` is the first place with a violation, which is `v`. */
  ghost predicate FirstAt(dec: Decoder, env: Envelopes, c: RuntimeCall, place: seq<nat>, v: Violation) {
    && Breached(env, At(dec, c, place))
    && OwnViolation(env, At(dec, c, place).value) == Some(v)
    && forall q :: Before(q, place) ==> !Breached(env, At(dec, c, q))
  }

  ghost predicate IsFirst(dec: Decoder, env: Envelopes, c: RuntimeCall, v: Option<Violation>) {
    if v.None? then forall place :: !Breached(env, At(dec, c, place))
    else exists place :: FirstAt(dec, env, c, place, v.value)
  }

  ghost predicate FirstAmongAt(dec: Decoder, env: Envelopes, calls: seq<RuntimeCall>, place: seq<nat>, v: Violation) {
    && place != []
    && Breached(env, AtAmong(dec, calls, place))
    && OwnViolation(env, AtAmong(dec, calls, place).value) == Some(v)
    && forall q :: q != [] && Before(q, place) ==> !Breached(env, AtAmong(dec, calls, q))
  }

  ghost predicate IsFirstAmong(dec: Decoder, env: Envelopes, calls: seq<RuntimeCall>, v: Option<Violation>) {
    if v.None? then forall place :: place != [] ==> !Breached(env, AtAmong(dec, calls, place))
    else exists place :: FirstAmongAt(dec, env, calls, place, v.value)
  }

  lemma FirstInHead(dec: Decoder, env: Envelopes, calls: seq<RuntimeCall>, v: Violation)
    requires calls != [] && IsFirst(dec, env, calls[0], Some(v))
    ensures IsFirstAmong(dec, env, calls, Some(v))
  {
    var p :| FirstAt(dec, env, calls[0], p, v);
    assert ([0] + p)[1..] == p;
    assert FirstAmongAt(dec, env, calls, [0] + p, v);
  }

  lemma SkipHead(dec: Decoder, env: Envelopes, calls: seq<RuntimeCall>, place: seq<nat>)
    requires calls != [] && place != [] && place[0] > 0
    ensures AtAmong(dec, calls, place) == AtAmong(dec, calls[1..], [place[0] - 1] + place[1..])
  {
    assert ([place[0] - 1] + place[1..])[1..] == place[1..];
  }

  lemma FirstInTail(dec: Decoder, env: Envelopes, calls: seq<RuntimeCall>, v: Option<Violation>)
    requires calls != [] && IsFirst(dec, env, calls[0], None) && IsFirstAmong(dec, env, calls[1..], v)
    ensures IsFirstAmong(dec, env, calls, v)
  {
    if v.None? {
      forall place: seq<nat> | place != [] ensures !Breached(env, AtAmong(dec, calls, place)) {
        if place[0] > 0 {
          SkipHead(dec, env, calls, place);
        }
      }
    } else {
      var p :| FirstAmongAt(dec, env, calls[1..], p, v.value);
      var place := [p[0] + 1] + p[1..];
      assert [place[0] - 1] + place[1..] == p;
      SkipHead(dec, env, calls, place);
      forall q: seq<nat> | q != [] && Before(q, place) ensures !Breached(env, AtAmong(dec, calls, q)) {
        if q[0] > 0 {
          SkipHead(dec, env, calls, q);
          assert Before([q[0] - 1] + q[1..], p);
        }
      }
      assert FirstAmongAt(dec, env, calls, place, v.value);
    }
  }

  /** Below a call that is no violation by itself, the first violation is the first below it. */
  lemma FirstBelow(dec: Decoder, env: Envelopes, c: RuntimeCall, v: Option<Violation>)
    requires OwnViolation(env, c).None? && IsFirstAmong(dec, env, Below(dec, c), v)
    ensures IsFirst(dec, env, c, v)
  {
    if v.Some? {
      var p :| FirstAmongAt(dec, env, Below(dec, c), p, v.value);
      assert FirstAt(dec, env, c, p, v.value);
    }
  }

  /** Within the budget the scan reports the first violation there is, at whatever depth. */
  lemma {:induction false} FirstBreach(dec: Decoder, env: Envelopes, c: RuntimeCall, depth: nat)
    requires LimitStable(dec) && !Scan(dec, Never, c, depth)
    ensures IsFirst(dec, env, c, PrivacyViolationAtDepth(dec, env, c, depth))
    decreases SCAN_DEPTH - depth, 0
  {
    if Children(c) != [] {
      ViolationsBelow(dec, env, c, depth);
      FindInChildren(dec, env, c, depth);
      FirstBreachAmong(dec, env, Children(c), depth + 1);
      assert Below(dec, c) == Children(c);
      FirstBelow(dec, env, c, PrivacyViolationAtDepth(dec, env, c, depth));
    } else if NotedBytes(c).Some? {
      FirstBreachNoted(dec, env, c, depth);
    } else {
      LeafBreach(dec, env, c, depth);
    }
  }

  lemma LeafOwn(dec: Decoder, env: Envelopes, c: RuntimeCall, depth: nat)
    requires depth < SCAN_DEPTH && Children(c) == [] && NotedBytes(c).None?
    ensures PrivacyViolationAtDepth(dec, env, c, depth) == OwnViolation(env, c)
  {
  }

  lemma LeafBreach(dec: Decoder, env: Envelopes, c: RuntimeCall, depth: nat)
    requires depth < SCAN_DEPTH && Children(c) == [] && NotedBytes(c).None?
    ensures IsFirst(dec, env, c, PrivacyViolationAtDepth(dec, env, c, depth))
  {
    LeafOwn(dec, env, c, depth);
    if OwnViolation(env, c).Some? {
      assert FirstAt(dec, env, c, [], OwnViolation(env, c).value);
    } else {
      assert IsFirstAmong(dec, env, Below(dec, c), None);
      FirstBelow(dec, env, c, None);
    }
  }

  /** Within the budget, noted bytes are a call only if they decode within what is left of it. */
  lemma NotedBelow(dec: Decoder, env: Envelopes, c: RuntimeCall, depth: nat)
    requires LimitStable(dec) && !Scan(dec, Never, c, depth) && NotedBytes(c).Some?
    ensures depth + 1 < SCAN_DEPTH && Children(c) == [] && OwnViolation(env, c).None?
    ensures
      match dec(SCAN_DEPTH - (depth + 1), NotedBytes(c).value)
      case None => Below(dec, c) == [] && PrivacyViolationAtDepth(dec, env, c, depth) == None
      case Some((k, _)) =>
        && Below(dec, c) == [k] && !Scan(dec, Never, k, depth + 1)
        && PrivacyViolationAtDepth(dec, env, c, depth) == PrivacyViolationAtDepth(dec, env, k, depth + 1)
  {
    ViolationsBelow(dec, env, c, depth);
    var near := dec(SCAN_DEPTH - (depth + 1), NotedBytes(c).value);
    assert near.Some? ==> near == dec(PROBE_DEPTH, NotedBytes(c).value);
  }

  lemma FirstInOnly(dec: Decoder, env: Envelopes, k: RuntimeCall, v: Option<Violation>)
    requires IsFirst(dec, env, k, v)
    ensures IsFirstAmong(dec, env, [k], v)
  {
    if v.Some? {
      FirstInHead(dec, env, [k], v.value);
    } else {
      FirstInTail(dec, env, [k], None);
    }
  }

  lemma {:induction false} FirstBreachNoted(dec: Decoder, env: Envelopes, c: RuntimeCall, depth: nat)
    requires LimitStable(dec) && !Scan(dec, Never, c, depth) && NotedBytes(c).Some?
    ensures IsFirst(dec, env, c, PrivacyViolationAtDepth(dec, env, c, depth))
    decreases SCAN_DEPTH - depth, 0, 0
  {
    NotedBelow(dec, env, c, depth);
    if k, used :| dec(SCAN_DEPTH - (depth + 1), NotedBytes(c).value) == Some((k, used)) {
      FirstBreach(dec, env, k, depth + 1);
      FirstInOnly(dec, env, k, PrivacyViolationAtDepth(dec, env, k, depth + 1));
    }
    FirstBelow(dec, env, c, PrivacyViolationAtDepth(dec, env, c, depth));
  }

  lemma {:induction false} FirstBreachAmong(dec: Decoder, env: Envelopes, calls: seq<RuntimeCall>, depth: nat)
    requires LimitStable(dec) && forall i :: 0 <= i < |calls| ==> !Scan(dec, Never, calls[i], depth)
    ensures IsFirstAmong(dec, env, calls, FindViolation(dec, env, calls, depth))
    decreases SCAN_DEPTH - depth, 1, |calls|
  {
    if calls != [] {
      var first := PrivacyViolationAtDepth(dec, env, calls[0], depth);
      FirstBreach(dec, env, calls[0], depth);
      if first.Some? {
        FirstInHead(dec, env, calls, first.value);
      } else {
        FirstBreachAmong(dec, env, calls[1..], depth);
        FirstInTail(dec, env, calls, FindViolation(dec, env, calls[1..], depth));
      }
    }
  }

  /** Within the budget the violation reported is the first in reading order, along paths of any length. */
  lemma ReportsFirstInOrder(dec: Decoder, env: Envelopes, c: RuntimeCall)
    requires LimitStable(dec) && WithinBudget(dec, c, 0)
    ensures IsFirst(dec, env, c, PrivateRuntimeCallViolation(dec, env, c))
  {
    BudgetScan(dec, c, 0);
    FirstBreach(dec, env, c, 0);
  }
}
