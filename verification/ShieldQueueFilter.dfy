/** The filters of `runtime/src/lib.rs` that decide what a decrypted queue payload, a contract and a
    precompile may dispatch, and the origin a queue payload gets. */
module ShieldQueueFilter {
  import opened Wrappers
  import opened RuntimeCalls
  import opened DepthScan
  import opened QubitumPrivacy
  import opened CheckMortality

  // ----- the three scanners of the queue filter ------------------------------------------------

  predicate EncodedContainsRecursive(dec: Decoder, bytes: seq<byte>, depth: nat)
    decreases SCAN_DEPTH - depth, 1, bytes
  {
    if depth >= SCAN_DEPTH then true
    else
      var remaining := SCAN_DEPTH - depth;
      match DecodeAll(dec, remaining, bytes)
      case Some(call) => ContainsRecursive(dec, call, depth)
      case None =>
        match dec(remaining, bytes)
        case Some((call, _)) => ContainsRecursive(dec, call, depth)
        case None => DecodeAll(dec, PROBE_DEPTH, bytes).Some? || dec(PROBE_DEPTH, bytes).Some?
  }

  /** `contains_recursive_shield_queue_call`. */
  predicate ContainsRecursive(dec: Decoder, c: RuntimeCall, depth: nat)
    decreases SCAN_DEPTH - depth, 0, c
  {
    if depth >= SCAN_DEPTH then true
    else
      match c
      case MevShield(SubmitEncrypted(_)) => true
      case MevShield(StoreEncrypted(_)) => true
      case Utility(inner) => (
        match inner
        case Batch(calls) => exists i | 0 <= i < |calls| :: ContainsRecursive(dec, calls[i], depth + 1)
        case BatchAll(calls) => exists i | 0 <= i < |calls| :: ContainsRecursive(dec, calls[i], depth + 1)
        case ForceBatch(calls) => exists i | 0 <= i < |calls| :: ContainsRecursive(dec, calls[i], depth + 1)
        case IfElse(main, fallback) =>
          ContainsRecursive(dec, main, depth + 1) || ContainsRecursive(dec, fallback, depth + 1)
        case _ => ContainsRecursive(dec, inner.call, depth + 1))
      case Proxy(inner) => !inner.OtherProxy? && ContainsRecursive(dec, inner.call, depth + 1)
      case Sudo(inner) => !inner.OtherSudo? && ContainsRecursive(dec, inner.call, depth + 1)
      case Multisig(inner) => !inner.OtherMultisig? && ContainsRecursive(dec, inner.call, depth + 1)
      case Scheduler(inner) => !inner.OtherScheduler? && ContainsRecursive(dec, inner.call, depth + 1)
      case Preimage(NotePreimage(bytes)) => EncodedContainsRecursive(dec, bytes, depth + 1)
      case _ => false
  }

  predicate IsPrivate(dec: Decoder, env: Envelopes, c: RuntimeCall) {
    PrivateRuntimeCallViolation(dec, env, c).Some?
  }

  /** `encoded_runtime_call_contains_private_queue_call`. */
  predicate EncodedContainsPrivate(dec: Decoder, env: Envelopes, bytes: seq<byte>, depth: nat) {
    if depth >= SCAN_DEPTH then true
    else
      var remaining := SCAN_DEPTH - depth;
      match DecodeAll(dec, remaining, bytes)
      case Some(call) => IsPrivate(dec, env, call)
      case None =>
        match dec(remaining, bytes)
        case Some((call, _)) => IsPrivate(dec, env, call)
        case None => DecodeAll(dec, PROBE_DEPTH, bytes).Some? || dec(PROBE_DEPTH, bytes).Some?
  }

  /** `contains_persistent_private_queue_call`. */
  predicate ContainsPersistentPrivate(dec: Decoder, env: Envelopes, c: RuntimeCall, depth: nat)
    decreases SCAN_DEPTH - depth, c
  {
    if depth >= SCAN_DEPTH then true
    else
      match c
      case Utility(inner) => (
        match inner
        case Batch(calls) => exists i | 0 <= i < |calls| :: ContainsPersistentPrivate(dec, env, calls[i], depth + 1)
        case BatchAll(calls) => exists i | 0 <= i < |calls| :: ContainsPersistentPrivate(dec, env, calls[i], depth + 1)
        case ForceBatch(calls) => exists i | 0 <= i < |calls| :: ContainsPersistentPrivate(dec, env, calls[i], depth + 1)
        case IfElse(main, fallback) =>
          || ContainsPersistentPrivate(dec, env, main, depth + 1)
          || ContainsPersistentPrivate(dec, env, fallback, depth + 1)
        case _ => ContainsPersistentPrivate(dec, env, inner.call, depth + 1))
      case Proxy(inner) => !inner.OtherProxy? && ContainsPersistentPrivate(dec, env, inner.call, depth + 1)
      case Sudo(inner) => !inner.OtherSudo? && ContainsPersistentPrivate(dec, env, inner.call, depth + 1)
      case Multisig(inner) => !inner.OtherMultisig? && ContainsPersistentPrivate(dec, env, inner.call, depth + 1)
      case Scheduler(inner) => !inner.OtherScheduler? && IsPrivate(dec, env, inner.call)
      case Preimage(NotePreimage(bytes)) => EncodedContainsPrivate(dec, env, bytes, depth + 1)
      case _ => false
  }

  /** `contains_unroutable_private_queue_call`. */
  predicate ContainsUnroutablePrivate(dec: Decoder, env: Envelopes, c: RuntimeCall, depth: nat)
    decreases SCAN_DEPTH - depth, c
  {
    if depth >= SCAN_DEPTH then true
    else
      match c
      case Qubitum(_) => false
      case Utility(inner) => (
        match inner
        case Batch(calls) => exists i | 0 <= i < |calls| :: ContainsUnroutablePrivate(dec, env, calls[i], depth + 1)
        case BatchAll(calls) => exists i | 0 <= i < |calls| :: ContainsUnroutablePrivate(dec, env, calls[i], depth + 1)
        case ForceBatch(calls) => exists i | 0 <= i < |calls| :: ContainsUnroutablePrivate(dec, env, calls[i], depth + 1)
        case IfElse(main, fallback) =>
          || ContainsUnroutablePrivate(dec, env, main, depth + 1)
          || ContainsUnroutablePrivate(dec, env, fallback, depth + 1)
        case _ => IsPrivate(dec, env, inner.call))
      case Proxy(inner) => !inner.OtherProxy? && IsPrivate(dec, env, inner.call)
      case Sudo(inner) => !inner.OtherSudo? && IsPrivate(dec, env, inner.call)
      case Multisig(inner) => !inner.OtherMultisig? && IsPrivate(dec, env, inner.call)
      case Scheduler(inner) => !inner.OtherScheduler? && IsPrivate(dec, env, inner.call)
      case Preimage(NotePreimage(bytes)) => EncodedContainsPrivate(dec, env, bytes, depth + 1)
      case _ => false
  }

  /** `ShieldQueueCallFilter::contains`. */
  predicate QueueFilterContains(dec: Decoder, env: Envelopes, c: RuntimeCall) {
    && !ContainsRecursive(dec, c, 0)
    && !ContainsPersistentPrivate(dec, env, c, 0)
    && !ContainsUnroutablePrivate(dec, env, c, 0)
  }

  datatype Origin = Signed(who: AccountId) | Shielded(who: AccountId)

  /** `ShieldRuntimeQueueOrigin::origin_for`. */
  function OriginFor(dec: Decoder, env: Envelopes, who: AccountId, c: RuntimeCall): Origin {
    if IsPrivate(dec, env, c) then Shielded(who) else Signed(who)
  }

  /** `ContractCallFilter::contains`. */
  predicate ContractFilterContains(dec: Decoder, env: Envelopes, c: RuntimeCall) {
    && c.Proxy? && c.proxy.Proxied?
    && PrivateRuntimeCallViolation(dec, env, c).None?
    && !ShieldSubmitAtDepth(dec, c, 0)
  }

  /** `ProxyRuntimeCallFilter::contains_private_runtime_call`, the guard of every precompile dispatch. */
  predicate ContainsPrivateRuntimeCall(dec: Decoder, env: Envelopes, c: RuntimeCall) {
    IsPrivate(dec, env, c) || ShieldSubmitAtDepth(dec, c, 0)
  }

  // ----- the recursive scanner -----------------------------------------------------------------

  lemma {:induction false} RecursiveScan(dec: Decoder, c: RuntimeCall, depth: nat)
    ensures ContainsRecursive(dec, c, depth) == Scan(dec, IsShieldEntry, c, depth)
    decreases SCAN_DEPTH - depth, 0
  {
    if depth < SCAN_DEPTH {
      forall i | 0 <= i < |Children(c)|
        ensures ContainsRecursive(dec, Children(c)[i], depth + 1) == Scan(dec, IsShieldEntry, Children(c)[i], depth + 1)
      {
        RecursiveScan(dec, Children(c)[i], depth + 1);
      }
      ScanStep(dec, IsShieldEntry, c, depth);
      if NotedBytes(c).Some? {
        RecursiveScanBytes(dec, NotedBytes(c).value, depth + 1);
      }
    }
  }

  lemma {:induction false} RecursiveScanBytes(dec: Decoder, bytes: seq<byte>, depth: nat)
    ensures EncodedContainsRecursive(dec, bytes, depth) == ScanBytes(dec, IsShieldEntry, bytes, depth)
    decreases SCAN_DEPTH - depth, 1
  {
    if depth < SCAN_DEPTH && dec(SCAN_DEPTH - depth, bytes).Some? {
      RecursiveScan(dec, dec(SCAN_DEPTH - depth, bytes).value.0, depth);
    }
  }

  /** The scanner answers yes exactly when the budget is exceeded or a `submit_encrypted` or
      `store_encrypted` can be reached, along an open path of any length. */
  lemma RecursiveExact(dec: Decoder, c: RuntimeCall, depth: nat)
    requires LimitStable(dec)
    ensures ContainsRecursive(dec, c, depth) <==> !WithinBudget(dec, c, depth) || ReachesOpenly(dec, IsShieldEntry, c)
  {
    RecursiveScan(dec, c, depth);
    ScanDecomposes(dec, IsShieldEntry, c, depth);
  }

  /** The same in terms of the budget: the scanner answers yes from `depth` exactly when some path that
      decodes within the remaining budget ends in a queue entry, at depth eight, or at a noted preimage
      that is a call only between the remaining budget and the probe depth. */
  lemma RecursiveAlarm(dec: Decoder, c: RuntimeCall, depth: nat)
    ensures ContainsRecursive(dec, c, depth) <==> exists p :: AlarmPath(dec, IsShieldEntry, c, depth, p)
  {
    RecursiveScan(dec, c, depth);
    ScanExact(dec, IsShieldEntry, c, depth);
  }

  /** What one scanner calls a submission the other calls an entry into the queue. */
  lemma SubmitImpliesRecursive(dec: Decoder, c: RuntimeCall, depth: nat)
    requires ShieldSubmitAtDepth(dec, c, depth)
    ensures ContainsRecursive(dec, c, depth)
  {
    SubmitScan(dec, c, depth);
    ScanWeaken(dec, IsShieldSubmit, IsShieldEntry, c, depth);
    RecursiveScan(dec, c, depth);
  }

  // ----- clean calls ---------------------------------------------------------------------------

  /** What the recursive scanner lets through at `depth`. */
  ghost predicate Clean(dec: Decoder, c: RuntimeCall, depth: nat) {
    !Scan(dec, IsShieldEntry, c, depth)
  }

  lemma CleanChild(dec: Decoder, c: RuntimeCall, k: RuntimeCall, depth: nat)
    requires LimitStable(dec) && Clean(dec, c, depth) && ScannedEdge(dec, c, k)
    ensures depth < SCAN_DEPTH && Clean(dec, k, depth + 1)
    ensures k !in Children(c) ==>
              depth + 1 < SCAN_DEPTH && dec(SCAN_DEPTH - (depth + 1), NotedBytes(c).value) == dec(PROBE_DEPTH, NotedBytes(c).value)
  {
    if k !in Children(c) {
      assert !ScanBytes(dec, IsShieldEntry, NotedBytes(c).value, depth + 1);
      assert dec(SCAN_DEPTH - (depth + 1), NotedBytes(c).value).Some?;
    }
  }

  /** For a clean call, being private is nothing else than openly reaching a Qubitum call. In particular the
      chain's current shield key plays no part. */
  lemma PrivateIffQubitum(dec: Decoder, env: Envelopes, c: RuntimeCall, depth: nat)
    requires LimitStable(dec) && Clean(dec, c, depth)
    ensures IsPrivate(dec, env, c) <==> ReachesOpenly(dec, IsQubitum, c)
  {
    if Scan(dec, IsShieldEntry, c, 0) {
      ScanMonotone(dec, IsShieldEntry, c, 0, depth);
    }
    ScanDecomposes(dec, IsShieldEntry, c, 0);
    ViolationExact(dec, env, c);
    if p :| OpenPathTo(dec, Breaches(env), c, p) {
      if IsQubitum(Last(p)) {
        assert OpenPathTo(dec, IsQubitum, c, p);
      } else {
        assert OpenPathTo(dec, IsShieldEntry, c, p);
      }
    }
    if p :| OpenPathTo(dec, IsQubitum, c, p) {
      assert OpenPathTo(dec, Breaches(env), c, p);
    }
  }

  /** Privacy passes upwards through every wrapper and every noted preimage, from the calls inside. */
  lemma PrivateUpwards(dec: Decoder, env: Envelopes, c: RuntimeCall, k: RuntimeCall)
    requires LimitStable(dec)
    requires ScannedEdge(dec, c, k) && IsPrivate(dec, env, k)
    ensures IsPrivate(dec, env, c)
  {
    ViolationUpwards(dec, env, c, k, 0);
  }

  lemma ViolationUpwards(dec: Decoder, env: Envelopes, c: RuntimeCall, k: RuntimeCall, depth: nat)
    requires LimitStable(dec)
    requires ScannedEdge(dec, c, k) && PrivacyViolationAtDepth(dec, env, k, depth).Some?
    ensures PrivacyViolationAtDepth(dec, env, c, depth).Some?
  {
    PrivacyScan(dec, env, k, depth);
    ScanMonotone(dec, Breaches(env), k, depth, depth + 1);
    ScanThroughEdge(dec, Breaches(env), c, k, depth);
    PrivacyScan(dec, env, c, depth);
  }

  // ----- routing -------------------------------------------------------------------------------

  /** Every step of the path is taken by a call that satisfies `keep`. */
  ghost predicate AllThrough(keep: RuntimeCall -> bool, p: seq<RuntimeCall>) {
    forall i :: 0 <= i < |p| - 1 ==> keep(p[i])
  }

  /** A path from `c` to a Qubitum call on which some step is taken by another call. */
  ghost predicate StrayPath(dec: Decoder, keep: RuntimeCall -> bool, c: RuntimeCall, p: seq<RuntimeCall>) {
    OpenPathTo(dec, IsQubitum, c, p) && !AllThrough(keep, p)
  }

  ghost predicate Strays(dec: Decoder, keep: RuntimeCall -> bool, c: RuntimeCall) {
    exists p :: StrayPath(dec, keep, c, p)
  }

  lemma StraysBack(dec: Decoder, keep: RuntimeCall -> bool, c: RuntimeCall, k: RuntimeCall)
    requires ScannedEdge(dec, c, k)
    requires Strays(dec, keep, k) || (!keep(c) && ReachesOpenly(dec, IsQubitum, k))
    ensures Strays(dec, keep, c)
  {
    var p :| OpenPathTo(dec, IsQubitum, k, p) && (Strays(dec, keep, k) ==> StrayPath(dec, keep, k, p));
    PrependPath(dec, IsQubitum, c, k, p);
    var q := [c] + p;
    if keep(c) {
      var i :| 0 <= i < |p| - 1 && !keep(p[i]);
      assert q[i + 1] == p[i];
    } else {
      assert !keep(q[0]) && |q| > 1;
    }
    assert StrayPath(dec, keep, c, q);
  }

  lemma StraysForward(dec: Decoder, keep: RuntimeCall -> bool, c: RuntimeCall) returns (k: RuntimeCall)
    requires LimitStable(dec) && Strays(dec, keep, c)
    ensures ScannedEdge(dec, c, k) && ReachesOpenly(dec, IsQubitum, k) && (keep(c) ==> Strays(dec, keep, k))
  {
    var p :| StrayPath(dec, keep, c, p);
    k := p[1];
    OpenTail(dec, IsQubitum, c, p);
    if keep(c) {
      var i :| 0 <= i < |p| - 1 && !keep(p[i]);
      assert p[1..][i - 1] == p[i];
      assert StrayPath(dec, keep, k, p[1..]);
    }
  }

  /** One unfolding of the scanner, with its branches grouped by what they do. */
  lemma UnroutableStep(dec: Decoder, env: Envelopes, c: RuntimeCall, depth: nat)
    requires depth < SCAN_DEPTH
    ensures Routable(c) ==>
              (ContainsUnroutablePrivate(dec, env, c, depth) <==>
               exists k :: k in Children(c) && ContainsUnroutablePrivate(dec, env, k, depth + 1))
    ensures !Routable(c) && NotedBytes(c).None? ==>
              (ContainsUnroutablePrivate(dec, env, c, depth) <==>
               exists k :: k in Children(c) && IsPrivate(dec, env, k))
    ensures NotedBytes(c).Some? ==>
              (ContainsUnroutablePrivate(dec, env, c, depth) <==>
               EncodedContainsPrivate(dec, env, NotedBytes(c).value, depth + 1))
  {
    var calls := Children(c);
    if Routable(c) && ContainsUnroutablePrivate(dec, env, c, depth) {
      assert c.utility.IfElse? ==> calls[0] == c.utility.main && calls[1] == c.utility.fallback;
      var i :| 0 <= i < |calls| && ContainsUnroutablePrivate(dec, env, calls[i], depth + 1);
      assert calls[i] in calls;
    }
    assert !Routable(c) && calls != [] ==> calls[0] in calls;
  }

  /** In a clean call, bytes that are judged private are so because of the call they decode to. */
  lemma PrivatePreimage(dec: Decoder, env: Envelopes, c: RuntimeCall, depth: nat) returns (k: RuntimeCall)
    requires LimitStable(dec) && Clean(dec, c, depth)
    requires NotedBytes(c).Some? && EncodedContainsPrivate(dec, env, NotedBytes(c).value, depth + 1)
    ensures ScannedEdge(dec, c, k) && IsPrivate(dec, env, k)
  {
    var bytes := NotedBytes(c).value;
    assert !ScanBytes(dec, IsShieldEntry, bytes, depth + 1);
    var near := dec(SCAN_DEPTH - (depth + 1), bytes);
    assert near.Some? && dec(PROBE_DEPTH, bytes) == near;
    k := near.value.0;
  }

  /** The scanner reports exactly the clean calls from which some path to a Qubitum call leaves the
      origin-keeping wrappers: its cut-offs and probes never decide. */
  lemma {:induction false} UnroutableExact(dec: Decoder, env: Envelopes, c: RuntimeCall, depth: nat)
    requires LimitStable(dec) && Clean(dec, c, depth)
    ensures ContainsUnroutablePrivate(dec, env, c, depth) <==> Strays(dec, Routable, c)
    decreases SCAN_DEPTH - depth
  {
    UnroutableStep(dec, env, c, depth);
    forall k | ScannedEdge(dec, c, k)
      ensures IsPrivate(dec, env, k) <==> ReachesOpenly(dec, IsQubitum, k)
      ensures ContainsUnroutablePrivate(dec, env, k, depth + 1) <==> Strays(dec, Routable, k)
    {
      CleanChild(dec, c, k, depth);
      PrivateIffQubitum(dec, env, k, depth + 1);
      UnroutableExact(dec, env, k, depth + 1);
    }
    if Strays(dec, Routable, c) {
      var k := StraysForward(dec, Routable, c);
      CleanChild(dec, c, k, depth);
    }
    if ContainsUnroutablePrivate(dec, env, c, depth) {
      var k;
      if NotedBytes(c).Some? {
        k := PrivatePreimage(dec, env, c, depth);
      } else if Routable(c) {
        k :| k in Children(c) && ContainsUnroutablePrivate(dec, env, k, depth + 1);
      } else {
        k :| k in Children(c) && IsPrivate(dec, env, k);
      }
      assert ScannedEdge(dec, c, k);
      StraysBack(dec, Routable, c, k);
    }
  }

  // ----- persistence ---------------------------------------------------------------------------

  /** The calls that leave nothing behind: everything but scheduling a call and noting a preimage. */
  predicate Transient(c: RuntimeCall) {
    !c.Scheduler? && NotedBytes(c).None?
  }

  lemma PersistentStep(dec: Decoder, env: Envelopes, c: RuntimeCall, depth: nat)
    requires depth < SCAN_DEPTH
    ensures Transient(c) ==>
              (ContainsPersistentPrivate(dec, env, c, depth) <==>
               exists k :: k in Children(c) && ContainsPersistentPrivate(dec, env, k, depth + 1))
    ensures c.Scheduler? ==>
              (ContainsPersistentPrivate(dec, env, c, depth) <==>
               exists k :: k in Children(c) && IsPrivate(dec, env, k))
    ensures NotedBytes(c).Some? ==>
              (ContainsPersistentPrivate(dec, env, c, depth) <==>
               EncodedContainsPrivate(dec, env, NotedBytes(c).value, depth + 1))
  {
    var calls := Children(c);
    if Transient(c) && ContainsPersistentPrivate(dec, env, c, depth) {
      assert c.Utility? && c.utility.IfElse? ==> calls[0] == c.utility.main && calls[1] == c.utility.fallback;
      assert !Routable(c) ==> |calls| == 1 && ContainsPersistentPrivate(dec, env, calls[0], depth + 1);
      var i :| 0 <= i < |calls| && ContainsPersistentPrivate(dec, env, calls[i], depth + 1);
      assert calls[i] in calls;
    }
    assert calls != [] ==> calls[0] in calls;
  }

  /** The persistence scanner reports exactly the clean calls from which some path to a Qubitum call goes
      through a scheduled call or a noted preimage. */
  lemma {:induction false} PersistentExact(dec: Decoder, env: Envelopes, c: RuntimeCall, depth: nat)
    requires LimitStable(dec) && Clean(dec, c, depth)
    ensures ContainsPersistentPrivate(dec, env, c, depth) <==> Strays(dec, Transient, c)
    decreases SCAN_DEPTH - depth
  {
    PersistentStep(dec, env, c, depth);
    forall k | ScannedEdge(dec, c, k)
      ensures IsPrivate(dec, env, k) <==> ReachesOpenly(dec, IsQubitum, k)
      ensures ContainsPersistentPrivate(dec, env, k, depth + 1) <==> Strays(dec, Transient, k)
    {
      CleanChild(dec, c, k, depth);
      PrivateIffQubitum(dec, env, k, depth + 1);
      PersistentExact(dec, env, k, depth + 1);
    }
    if Strays(dec, Transient, c) {
      var k := StraysForward(dec, Transient, c);
      CleanChild(dec, c, k, depth);
    }
    if ContainsPersistentPrivate(dec, env, c, depth) {
      var k;
      if NotedBytes(c).Some? {
        k := PrivatePreimage(dec, env, c, depth);
      } else if Transient(c) {
        k :| k in Children(c) && ContainsPersistentPrivate(dec, env, k, depth + 1);
      } else {
        k :| k in Children(c) && IsPrivate(dec, env, k);
      }
      assert ScannedEdge(dec, c, k);
      StraysBack(dec, Transient, c, k);
    }
  }

  /** Whatever the persistence scanner reports of a clean call the routing scanner reports as well. */
  lemma PersistentIsUnroutable(dec: Decoder, env: Envelopes, c: RuntimeCall)
    requires LimitStable(dec) && Clean(dec, c, 0)
    requires ContainsPersistentPrivate(dec, env, c, 0)
    ensures ContainsUnroutablePrivate(dec, env, c, 0)
  {
    PersistentExact(dec, env, c, 0);
    UnroutableExact(dec, env, c, 0);
    var p :| StrayPath(dec, Transient, c, p);
    assert StrayPath(dec, Routable, c, p);
  }

  // ----- both fail closed ----------------------------------------------------------------------

  /** The decoding policy amounts to one prefix decode and one probe, and fails closed as the depth grows. */
  lemma EncodedPrivateMonotone(dec: Decoder, env: Envelopes, bytes: seq<byte>, shallow: nat, deep: nat)
    requires LimitStable(dec)
    requires shallow <= deep && EncodedContainsPrivate(dec, env, bytes, shallow)
    ensures EncodedContainsPrivate(dec, env, bytes, deep)
  {
    if deep < SCAN_DEPTH {
      var near, far := dec(SCAN_DEPTH - deep, bytes), dec(SCAN_DEPTH - shallow, bytes);
      assert near.Some? ==> far == near;
      assert far.Some? ==> dec(PROBE_DEPTH, bytes) == far;
    }
  }

  /** Starting deeper never turns a yes of the routing scanner into a no. */
  lemma {:induction false} UnroutableMonotone(dec: Decoder, env: Envelopes, c: RuntimeCall, shallow: nat, deep: nat)
    requires LimitStable(dec)
    requires shallow <= deep && ContainsUnroutablePrivate(dec, env, c, shallow)
    ensures ContainsUnroutablePrivate(dec, env, c, deep)
    decreases SCAN_DEPTH - deep
  {
    if deep < SCAN_DEPTH && Routable(c) {
      var k := UnroutableChild(dec, env, c, shallow);
      UnroutableMonotone(dec, env, k, shallow + 1, deep + 1);
      UnroutableParent(dec, env, c, k, deep);
    } else if deep < SCAN_DEPTH {
      UnroutableFlat(dec, env, c, shallow, deep);
    }
  }

  lemma UnroutableChild(dec: Decoder, env: Envelopes, c: RuntimeCall, depth: nat) returns (k: RuntimeCall)
    requires depth < SCAN_DEPTH && Routable(c) && ContainsUnroutablePrivate(dec, env, c, depth)
    ensures k in Children(c) && ContainsUnroutablePrivate(dec, env, k, depth + 1)
  {
    UnroutableStep(dec, env, c, depth);
    k :| k in Children(c) && ContainsUnroutablePrivate(dec, env, k, depth + 1);
  }

  lemma UnroutableParent(dec: Decoder, env: Envelopes, c: RuntimeCall, k: RuntimeCall, depth: nat)
    requires depth < SCAN_DEPTH && Routable(c) && k in Children(c) && ContainsUnroutablePrivate(dec, env, k, depth + 1)
    ensures ContainsUnroutablePrivate(dec, env, c, depth)
  {
    UnroutableStep(dec, env, c, depth);
  }

  lemma UnroutableFlat(dec: Decoder, env: Envelopes, c: RuntimeCall, shallow: nat, deep: nat)
    requires LimitStable(dec) && !Routable(c)
    requires shallow <= deep < SCAN_DEPTH && ContainsUnroutablePrivate(dec, env, c, shallow)
    ensures ContainsUnroutablePrivate(dec, env, c, deep)
  {
    if NotedBytes(c).Some? {
      EncodedPrivateMonotone(dec, env, NotedBytes(c).value, shallow + 1, deep + 1);
    }
  }

  /** Nor one of the persistence scanner. */
  lemma {:induction false} PersistentMonotone(dec: Decoder, env: Envelopes, c: RuntimeCall, shallow: nat, deep: nat)
    requires LimitStable(dec)
    requires shallow <= deep && ContainsPersistentPrivate(dec, env, c, shallow)
    ensures ContainsPersistentPrivate(dec, env, c, deep)
    decreases SCAN_DEPTH - deep
  {
    if deep < SCAN_DEPTH && Transient(c) {
      var k := PersistentChild(dec, env, c, shallow);
      PersistentMonotone(dec, env, k, shallow + 1, deep + 1);
      PersistentParent(dec, env, c, k, deep);
    } else if deep < SCAN_DEPTH {
      PersistentFlat(dec, env, c, shallow, deep);
    }
  }

  lemma PersistentChild(dec: Decoder, env: Envelopes, c: RuntimeCall, depth: nat) returns (k: RuntimeCall)
    requires depth < SCAN_DEPTH && Transient(c) && ContainsPersistentPrivate(dec, env, c, depth)
    ensures k in Children(c) && ContainsPersistentPrivate(dec, env, k, depth + 1)
  {
    PersistentStep(dec, env, c, depth);
    k :| k in Children(c) && ContainsPersistentPrivate(dec, env, k, depth + 1);
  }

  lemma PersistentParent(dec: Decoder, env: Envelopes, c: RuntimeCall, k: RuntimeCall, depth: nat)
    requires depth < SCAN_DEPTH && Transient(c) && k in Children(c) && ContainsPersistentPrivate(dec, env, k, depth + 1)
    ensures ContainsPersistentPrivate(dec, env, c, depth)
  {
    PersistentStep(dec, env, c, depth);
  }

  lemma PersistentFlat(dec: Decoder, env: Envelopes, c: RuntimeCall, shallow: nat, deep: nat)
    requires LimitStable(dec) && !Transient(c)
    requires shallow <= deep < SCAN_DEPTH && ContainsPersistentPrivate(dec, env, c, shallow)
    ensures ContainsPersistentPrivate(dec, env, c, deep)
  {
    if NotedBytes(c).Some? {
      EncodedPrivateMonotone(dec, env, NotedBytes(c).value, shallow + 1, deep + 1);
    }
  }

  // ----- the queue filter ----------------------------------------------------------------------

  /** The queue filter admits a call exactly when its nesting is within the scan budget, no open path leads
      from it to a queue entry, and every open path of any length from it to a Qubitum call goes through
      origin-keeping wrappers only. */
  lemma QueueFilterExact(dec: Decoder, env: Envelopes, c: RuntimeCall)
    requires LimitStable(dec)
    ensures QueueFilterContains(dec, env, c) <==>
            && WithinBudget(dec, c, 0)
            && !ReachesOpenly(dec, IsShieldEntry, c)
            && (forall p :: OpenPathTo(dec, IsQubitum, c, p) ==> AllThrough(Routable, p))
  {
    RecursiveExact(dec, c, 0);
    RecursiveScan(dec, c, 0);
    PersistenceScannerRedundant(dec, env, c);
    if Clean(dec, c, 0) {
      UnroutableExact(dec, env, c, 0);
    }
    if p :| OpenPathTo(dec, IsQubitum, c, p) && !AllThrough(Routable, p) {
      assert StrayPath(dec, Routable, c, p);
    }
  }

  /** Of the three scanners two decide: the persistence scanner never changes the verdict. */
  lemma PersistenceScannerRedundant(dec: Decoder, env: Envelopes, c: RuntimeCall)
    requires LimitStable(dec)
    ensures QueueFilterContains(dec, env, c) <==>
            !ContainsRecursive(dec, c, 0) && !ContainsUnroutablePrivate(dec, env, c, 0)
  {
    RecursiveScan(dec, c, 0);
    if Clean(dec, c, 0) && ContainsPersistentPrivate(dec, env, c, 0) {
      PersistentIsUnroutable(dec, env, c);
    }
  }

  /** The verdict does not depend on the state of the shield keys, although the privacy scan does. */
  lemma QueueFilterKeyIndependent(dec: Decoder, env: Envelopes, env': Envelopes, c: RuntimeCall)
    requires LimitStable(dec)
    ensures QueueFilterContains(dec, env, c) == QueueFilterContains(dec, env', c)
  {
    QueueFilterExact(dec, env, c);
    QueueFilterExact(dec, env', c);
  }

  /** Every Qubitum call an admitted payload openly reaches is dispatched under the payload's own origin,
      and that origin is the shielded one of the submitter. Without such a call it is the plain one. */
  lemma OriginRouting(dec: Decoder, env: Envelopes, who: AccountId, c: RuntimeCall)
    requires LimitStable(dec) && QueueFilterContains(dec, env, c)
    ensures OriginFor(dec, env, who, c) == if ReachesOpenly(dec, IsQubitum, c) then Shielded(who) else Signed(who)
    ensures forall p :: OpenPathTo(dec, IsQubitum, c, p) ==> AllThrough(Routable, p)
  {
    RecursiveScan(dec, c, 0);
    PrivateIffQubitum(dec, env, c, 0);
    QueueFilterExact(dec, env, c);
  }

  /** An admitted payload passes the era check under every era. */
  lemma AdmittedPassesEraCheck(dec: Decoder, env: Envelopes, era: Era, c: RuntimeCall)
    requires QueueFilterContains(dec, env, c)
    ensures EnsureShieldSubmitMortalEra(dec, era, c) == Ok(())
  {
    if ShieldSubmitAtDepth(dec, c, 0) {
      SubmitImpliesRecursive(dec, c, 0);
    }
  }

  // ----- one wrapper, and many -----------------------------------------------------------------

  lemma WrapsQubitum(dec: Decoder, env: Envelopes, data: seq<byte>, c: RuntimeCall)
    requires LimitStable(dec)
    requires Children(c) != [] && forall k :: k in Children(c) ==> k == Qubitum(data)
    ensures QueueFilterContains(dec, env, c) <==> Routable(c)
  {
    PersistenceScannerRedundant(dec, env, c);
    QubitumIsLeaf(dec, env, data, 1);
    RecursiveScan(dec, c, 0);
    forall i | 0 <= i < |Children(c)| ensures !Scan(dec, IsShieldEntry, Children(c)[i], 1) {
      assert Children(c)[i] in Children(c);
    }
    UnroutableStep(dec, env, c, 0);
    assert Children(c)[0] in Children(c);
  }

  lemma QubitumIsLeaf(dec: Decoder, env: Envelopes, data: seq<byte>, depth: nat)
    requires depth < SCAN_DEPTH
    ensures !Scan(dec, IsShieldEntry, Qubitum(data), depth)
    ensures !ContainsUnroutablePrivate(dec, env, Qubitum(data), depth)
    ensures IsPrivate(dec, env, Qubitum(data))
  {
  }

  /** A Qubitum call is admitted inside any of the four wrappers that keep the origin. */
  lemma QubitumAdmittedInside(dec: Decoder, env: Envelopes, data: seq<byte>)
    requires LimitStable(dec)
    ensures
      var q := Qubitum(data);
      && QueueFilterContains(dec, env, Utility(Batch([q])))
      && QueueFilterContains(dec, env, Utility(BatchAll([q])))
      && QueueFilterContains(dec, env, Utility(ForceBatch([q])))
      && QueueFilterContains(dec, env, Utility(IfElse(q, q)))
  {
    var q := Qubitum(data);
    WrapsQubitum(dec, env, data, Utility(Batch([q])));
    WrapsQubitum(dec, env, data, Utility(BatchAll([q])));
    WrapsQubitum(dec, env, data, Utility(ForceBatch([q])));
    WrapsQubitum(dec, env, data, Utility(IfElse(q, q)));
  }

  /** And inside no other. */
  lemma QubitumRefusedInside(dec: Decoder, env: Envelopes, data: seq<byte>, c: RuntimeCall)
    requires LimitStable(dec)
    requires
      var q := Qubitum(data);
      || c == Utility(AsDerivative(q)) || c == Utility(DispatchAs(q))
      || c == Utility(WithWeight(q)) || c == Utility(DispatchAsFallible(q))
      || (c.Proxy? && c.proxy.Proxied? && c.proxy.call == q) || c == Proxy(ProxyAnnounced(q))
      || c == Sudo(Sudoed(q)) || c == Sudo(SudoUncheckedWeight(q)) || c == Sudo(SudoAs(q))
      || c == Multisig(AsMultiThreshold1(q)) || c == Multisig(AsMulti(q))
      || c == Scheduler(Schedule(q)) || c == Scheduler(ScheduleNamed(q))
      || c == Scheduler(ScheduleAfter(q)) || c == Scheduler(ScheduleNamedAfter(q))
    ensures !QueueFilterContains(dec, env, c)
  {
    assert Children(c) == [Qubitum(data)];
    WrapsQubitum(dec, env, data, c);
  }

  /** Wrappers around a call of no concern are admitted, pass the era check and the guard exactly up to seven. */
  lemma WrappedJudged(dec: Decoder, env: Envelopes, data: seq<byte>, n: nat)
    requires LimitStable(dec)
    ensures QueueFilterContains(dec, env, Wrapped(OtherCall(data), n)) <==> n < 8
    ensures EnsureShieldSubmitMortalEra(dec, Immortal, Wrapped(OtherCall(data), n)) == Ok(()) <==> n < 8
    ensures ContainsPrivateRuntimeCall(dec, env, Wrapped(OtherCall(data), n)) <==> n >= 8
  {
    var c := Wrapped(OtherCall(data), n);
    WrappedBudget(dec, data, n, 0);
    NothingInWrapped(dec, IsShieldEntry, data, n);
    NothingInWrapped(dec, IsShieldSubmit, data, n);
    NothingInWrapped(dec, IsQubitum, data, n);
    QueueFilterExact(dec, env, c);
    EraCheckExact(dec, Immortal, c);
    PrecompileGuardExact(dec, env, c);
    if n < 8 {
      forall p ensures !OpenPathTo(dec, IsQubitum, c, p) {
        assert !ReachesOpenly(dec, IsQubitum, c);
      }
    }
  }

  lemma NothingInWrapped(dec: Decoder, hit: RuntimeCall -> bool, data: seq<byte>, n: nat)
    requires LimitStable(dec) && forall c: RuntimeCall :: c.Sudo? || c.OtherCall? ==> !hit(c)
    ensures n < 8 ==> !ReachesOpenly(dec, hit, Wrapped(OtherCall(data), n))
  {
    WrappedScan(dec, hit, data, n, 0);
    ScanDecomposes(dec, hit, Wrapped(OtherCall(data), n), 0);
  }

  // ----- what is out of sight ------------------------------------------------------------------

  /** No scanner looks at the call a crowdloan is created with: whatever it is, the creation is admitted to
      the queue under the plain origin, passes the era check under every era, and is private to no one. */
  lemma StoredCallUnseen(dec: Decoder, env: Envelopes, era: Era, who: AccountId, x: RuntimeCall)
    ensures
      var c := Crowdloan(Create(Some(x)));
      && QueueFilterContains(dec, env, c)
      && OriginFor(dec, env, who, c) == Signed(who)
      && EnsureShieldSubmitMortalEra(dec, era, c) == Ok(())
      && !ContainsPrivateRuntimeCall(dec, env, c)
  {
  }

  /** Noting bytes that are no call up to the probe depth is admitted. */
  lemma NoCallUnseen(dec: Decoder, env: Envelopes, bytes: seq<byte>)
    requires dec(SCAN_DEPTH - 1, bytes).None? && dec(PROBE_DEPTH, bytes).None?
    ensures QueueFilterContains(dec, env, Preimage(NotePreimage(bytes)))
  {
  }

  lemma StoredReached(dec: Decoder, hit: RuntimeCall -> bool, x: RuntimeCall)
    requires hit(x)
    ensures Reaches(dec, hit, Crowdloan(Create(Some(x))))
  {
    ReachesHere(dec, hit, x);
    ReachesBack(dec, hit, Crowdloan(Create(Some(x))), x);
  }

  /** A queue entry that can be reached, and yet is admitted. */
  lemma StoredEntryAdmitted(dec: Decoder, env: Envelopes, encrypted: seq<byte>)
    ensures
      var c := Crowdloan(Create(Some(MevShield(StoreEncrypted(encrypted)))));
      QueueFilterContains(dec, env, c) && Reaches(dec, IsShieldEntry, c)
  {
    StoredReached(dec, IsShieldEntry, MevShield(StoreEncrypted(encrypted)));
  }

  /** A submission that can be reached, and yet passes under every era. */
  lemma StoredSubmissionPasses(dec: Decoder, era: Era, ciphertext: seq<byte>)
    ensures
      var c := Crowdloan(Create(Some(MevShield(SubmitEncrypted(ciphertext)))));
      EnsureShieldSubmitMortalEra(dec, era, c) == Ok(()) && Reaches(dec, IsShieldSubmit, c)
  {
    StoredReached(dec, IsShieldSubmit, MevShield(SubmitEncrypted(ciphertext)));
  }

  /** A Qubitum call that can be reached, and yet is let through by the guard and admitted under the plain origin. */
  lemma StoredQubitumPasses(dec: Decoder, env: Envelopes, who: AccountId, data: seq<byte>)
    ensures
      var c := Crowdloan(Create(Some(Qubitum(data))));
      && !ContainsPrivateRuntimeCall(dec, env, c)
      && QueueFilterContains(dec, env, c) && OriginFor(dec, env, who, c) == Signed(who)
      && Reaches(dec, IsQubitum, c)
  {
    StoredReached(dec, IsQubitum, Qubitum(data));
  }

  /** The recursive scanner misses an entry that can be reached exactly when, within the budget, every path to
      an entry is hidden somewhere: by the creation of a crowdloan, or by a preimage that is a call only beyond
      the probe depth. */
  lemma RecursiveUnreportedIff(dec: Decoder, c: RuntimeCall, depth: nat)
    requires LimitStable(dec)
    ensures Reaches(dec, IsShieldEntry, c) && !ContainsRecursive(dec, c, depth) <==>
            && WithinBudget(dec, c, depth)
            && Reaches(dec, IsShieldEntry, c)
            && (forall p :: PathTo(dec, IsShieldEntry, c, p) ==> !Open(dec, p))
  {
    RecursiveScan(dec, c, depth);
    UnreportedIff(dec, IsShieldEntry, c, depth);
  }

  /** What the filter is for, along all paths: no entry can be reached, and each way to a Qubitum call keeps
      the origin. */
  ghost predicate FullyKept(dec: Decoder, c: RuntimeCall) {
    !Reaches(dec, IsShieldEntry, c) && forall p :: PathTo(dec, IsQubitum, c, p) ==> AllThrough(Routable, p)
  }

  /** An admitted payload keeps that in full exactly when it openly reaches no call that hides a way to an entry
      or to a Qubitum call. */
  lemma AdmittedFullyKeptIff(dec: Decoder, env: Envelopes, c: RuntimeCall)
    requires LimitStable(dec) && QueueFilterContains(dec, env, c)
    ensures FullyKept(dec, c) <==>
            && !ReachesOpenly(dec, HidesWayTo(dec, IsShieldEntry), c)
            && !ReachesOpenly(dec, HidesWayTo(dec, IsQubitum), c)
  {
    QueueFilterExact(dec, env, c);
    EntriesHidden(dec, c);
    QubitumHidden(dec, c);
  }

  lemma EntriesHidden(dec: Decoder, c: RuntimeCall)
    requires LimitStable(dec) && !ReachesOpenly(dec, IsShieldEntry, c)
    ensures Reaches(dec, IsShieldEntry, c) <==> ReachesOpenly(dec, HidesWayTo(dec, IsShieldEntry), c)
  {
    HiddenPathIff(dec, IsShieldEntry, c);
    if p :| PathTo(dec, IsShieldEntry, c, p) && Open(dec, p) {
      assert OpenPathTo(dec, IsShieldEntry, c, p);
    }
  }

  lemma QubitumHidden(dec: Decoder, c: RuntimeCall)
    requires LimitStable(dec) && forall p :: OpenPathTo(dec, IsQubitum, c, p) ==> AllThrough(Routable, p)
    ensures (forall p :: PathTo(dec, IsQubitum, c, p) ==> AllThrough(Routable, p)) <==>
            !ReachesOpenly(dec, HidesWayTo(dec, IsQubitum), c)
  {
    HiddenPathIff(dec, IsQubitum, c);
    forall p | PathTo(dec, IsQubitum, c, p) ensures Open(dec, p) <==> AllThrough(Routable, p) {
      if Open(dec, p) {
        assert OpenPathTo(dec, IsQubitum, c, p);
      } else {
        RoutableIsOpen(dec, p);
      }
    }
  }

  lemma RoutableIsOpen(dec: Decoder, p: seq<RuntimeCall>)
    ensures AllThrough(Routable, p) ==> Open(dec, p)
  {
  }

  // ----- contracts and precompiles -------------------------------------------------------------

  /** A precompile refuses exactly the calls that exceed the scan budget or openly reach a Qubitum call, a
      `submit_encrypted` or a `store_encrypted`; here too the shield keys play no part. */
  lemma PrecompileGuardExact(dec: Decoder, env: Envelopes, c: RuntimeCall)
    requires LimitStable(dec)
    ensures ContainsPrivateRuntimeCall(dec, env, c) <==>
            || !WithinBudget(dec, c, 0)
            || ReachesOpenly(dec, IsQubitum, c)
            || ReachesOpenly(dec, IsShieldEntry, c)
  {
    ViolationExact(dec, env, c);
    SubmitScan(dec, c, 0);
    ScanDecomposes(dec, IsShieldSubmit, c, 0);
    if p :| OpenPathTo(dec, Breaches(env), c, p) {
      assert OpenPathTo(dec, IsQubitum, c, p) || OpenPathTo(dec, IsShieldEntry, c, p);
    }
    if p :| OpenPathTo(dec, IsShieldSubmit, c, p) {
      assert OpenPathTo(dec, IsShieldEntry, c, p);
    }
    if p :| OpenPathTo(dec, IsQubitum, c, p) {
      assert OpenPathTo(dec, Breaches(env), c, p);
    }
    if p :| OpenPathTo(dec, IsShieldEntry, c, p) {
      assert OpenPathTo(dec, Breaches(env), c, p) || OpenPathTo(dec, IsShieldSubmit, c, p);
    }
  }

  /** A contract may dispatch exactly the `proxy` calls a precompile would not refuse. */
  lemma ContractFilterExact(dec: Decoder, env: Envelopes, c: RuntimeCall)
    requires LimitStable(dec)
    ensures ContractFilterContains(dec, env, c) <==>
            && c.Proxy? && c.proxy.Proxied?
            && WithinBudget(dec, c, 0)
            && !ReachesOpenly(dec, IsQubitum, c)
            && !ReachesOpenly(dec, IsShieldEntry, c)
  {
    PrecompileGuardExact(dec, env, c);
  }

  predicate Guarded(c: RuntimeCall) {
    IsQubitum(c) || IsShieldEntry(c)
  }

  lemma GuardedReach(dec: Decoder, c: RuntimeCall)
    ensures ReachesOpenly(dec, Guarded, c) <==> ReachesOpenly(dec, IsQubitum, c) || ReachesOpenly(dec, IsShieldEntry, c)
  {
    if p :| OpenPathTo(dec, Guarded, c, p) {
      assert OpenPathTo(dec, IsQubitum, c, p) || OpenPathTo(dec, IsShieldEntry, c, p);
    }
    if p :| OpenPathTo(dec, IsQubitum, c, p) {
      assert OpenPathTo(dec, Guarded, c, p);
    }
    if p :| OpenPathTo(dec, IsShieldEntry, c, p) {
      assert OpenPathTo(dec, Guarded, c, p);
    }
  }

  /** The guard misses a call it is there for exactly when, within the budget, every path to one is hidden
      somewhere. */
  lemma PrecompileGuardMissesIff(dec: Decoder, env: Envelopes, c: RuntimeCall)
    requires LimitStable(dec)
    ensures Reaches(dec, Guarded, c) && !ContainsPrivateRuntimeCall(dec, env, c) <==>
            && WithinBudget(dec, c, 0)
            && Reaches(dec, Guarded, c)
            && (forall p :: PathTo(dec, Guarded, c, p) ==> !Open(dec, p))
  {
    PrecompileGuardExact(dec, env, c);
    GuardedReach(dec, c);
    if p :| PathTo(dec, Guarded, c, p) && Open(dec, p) {
      assert OpenPathTo(dec, Guarded, c, p);
    }
  }
}
