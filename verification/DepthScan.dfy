/** What a depth-limited scan of a call tree decides.

    Every scanner of the runtime has the same skeleton: give up (answer yes) at depth 8, answer yes
    on a leaf it is looking for, descend into carried calls, and descend into the bytes of a noted
    preimage when they decode back into a call. `Scan` is that skeleton with the leaf test left open.
    The theorems here relate it to reachability along paths of any length, which mentions neither a
    budget nor a recursion. */
module DepthScan {
  import opened Wrappers
  import opened RuntimeCalls

  const SCAN_DEPTH: nat := 8
  const PROBE_DEPTH: nat := 32

  // ----- decoding ------------------------------------------------------------------------------

  /** `RuntimeCall::decode_with_depth_limit`: the call at the front of the bytes and the number of
      bytes it took, or nothing. */
  type Decoder = (nat, seq<byte>) -> Option<(RuntimeCall, nat)>

  /** A larger depth limit never changes a successful decode. */
  ghost predicate LimitStable(dec: Decoder) {
    forall small: nat, large: nat, bytes: seq<byte> {:trigger dec(small, bytes), dec(large, bytes)} ::
      small <= large && dec(small, bytes).Some? ==> dec(large, bytes) == dec(small, bytes)
  }

  /** A decode reads the bytes it consumes and no others: bytes that agree on them decode alike,
      whatever follows. */
  ghost predicate ReadsPrefix(dec: Decoder) {
    && (forall limit: nat, bytes: seq<byte> :: dec(limit, bytes).Some? ==> dec(limit, bytes).value.1 <= |bytes|)
    && (forall limit: nat, bytes: seq<byte>, other: seq<byte> {:trigger dec(limit, bytes), dec(limit, other)} ::
          dec(limit, bytes).Some? && dec(limit, bytes).value.1 <= |other| &&
          other[..dec(limit, bytes).value.1] == bytes[..dec(limit, bytes).value.1]
          ==> dec(limit, other) == dec(limit, bytes))
  }

  /** `RuntimeCall::decode_all_with_depth_limit`: a decode that must consume everything. */
  function DecodeAll(dec: Decoder, limit: nat, bytes: seq<byte>): Option<RuntimeCall> {
    match dec(limit, bytes)
    case Some((call, used)) => if used == |bytes| then Some(call) else None
    case None => None
  }

  // ----- the skeleton --------------------------------------------------------------------------

  predicate Scan(dec: Decoder, hit: RuntimeCall -> bool, c: RuntimeCall, depth: nat)
    decreases SCAN_DEPTH - depth, 0, c
  {
    || depth >= SCAN_DEPTH
    || hit(c)
    || (exists i | 0 <= i < |Children(c)| :: Scan(dec, hit, Children(c)[i], depth + 1))
    || (NotedBytes(c).Some? && ScanBytes(dec, hit, NotedBytes(c).value, depth + 1))
  }

  predicate ScanBytes(dec: Decoder, hit: RuntimeCall -> bool, bytes: seq<byte>, depth: nat)
    decreases SCAN_DEPTH - depth, 1, bytes
  {
    || depth >= SCAN_DEPTH
    || match dec(SCAN_DEPTH - depth, bytes)
       case Some((call, _)) => Scan(dec, hit, call, depth)
       case None => dec(PROBE_DEPTH, bytes).Some?
  }

  /** One unfolding of `Scan`, with the search through the carried calls spelled out for wrappers that
      carry one or two. */
  lemma ScanStep(dec: Decoder, hit: RuntimeCall -> bool, c: RuntimeCall, depth: nat)
    requires depth < SCAN_DEPTH
    ensures |Children(c)| == 1 ==>
              ((exists i | 0 <= i < |Children(c)| :: Scan(dec, hit, Children(c)[i], depth + 1)) <==>
               Scan(dec, hit, Children(c)[0], depth + 1))
    ensures |Children(c)| == 2 ==>
              ((exists i | 0 <= i < |Children(c)| :: Scan(dec, hit, Children(c)[i], depth + 1)) <==>
               Scan(dec, hit, Children(c)[0], depth + 1) || Scan(dec, hit, Children(c)[1], depth + 1))
  {
  }

  /** The leaf test that finds nothing: what is left of a scan is its cut-offs. */
  predicate Never(c: RuntimeCall) {
    false
  }

  // ----- paths ---------------------------------------------------------------------------------

  /** The bytes noted by `a` decode to `b`, under whatever depth limit. */
  ghost predicate Notes(dec: Decoder, a: RuntimeCall, b: RuntimeCall) {
    && NotedBytes(a).Some?
    && exists limit: nat :: dec(limit, NotedBytes(a).value).Some? && dec(limit, NotedBytes(a).value).value.0 == b
  }

  /** One step from a call to a call it carries, in whatever way, or to one its noted bytes decode to. */
  ghost predicate Edge(dec: Decoder, a: RuntimeCall, b: RuntimeCall) {
    b in Carried(a) || Notes(dec, a, b)
  }

  ghost predicate IsPath(dec: Decoder, p: seq<RuntimeCall>) {
    |p| > 0 && (|p| > 1 ==> Edge(dec, p[0], p[1]) && IsPath(dec, p[1..]))
  }

  function Last(p: seq<RuntimeCall>): RuntimeCall
    requires |p| > 0
  {
    p[|p| - 1]
  }

  ghost predicate PathTo(dec: Decoder, hit: RuntimeCall -> bool, c: RuntimeCall, p: seq<RuntimeCall>) {
    IsPath(dec, p) && p[0] == c && hit(Last(p))
  }

  /** A call satisfying `hit` can be reached from `c` by some finite path, however long. */
  ghost predicate Reaches(dec: Decoder, hit: RuntimeCall -> bool, c: RuntimeCall) {
    exists p :: PathTo(dec, hit, c, p)
  }

  lemma ReachesHere(dec: Decoder, hit: RuntimeCall -> bool, c: RuntimeCall)
    requires hit(c)
    ensures Reaches(dec, hit, c)
  {
    assert PathTo(dec, hit, c, [c]);
  }

  lemma ReachesBack(dec: Decoder, hit: RuntimeCall -> bool, c: RuntimeCall, k: RuntimeCall)
    requires Edge(dec, c, k) && Reaches(dec, hit, k)
    ensures Reaches(dec, hit, c)
  {
    var p :| PathTo(dec, hit, k, p);
    var q := [c] + p;
    assert q[1..] == p && Last(q) == Last(p);
    assert PathTo(dec, hit, c, q);
  }

  /** What `c` leads to is out of the sight of every scanner: it is stored for later by a crowdloan, or its
      noted bytes are a call only beyond the probe depth. */
  ghost predicate Hides(dec: Decoder, c: RuntimeCall) {
    || StoresUnseen(c)
    || (&& NotedBytes(c).Some?
        && dec(PROBE_DEPTH, NotedBytes(c).value).None?
        && exists limit: nat :: dec(limit, NotedBytes(c).value).Some?)
  }

  /** No step of the path is taken by a call that hides what it leads to. */
  ghost predicate Open(dec: Decoder, p: seq<RuntimeCall>) {
    forall i :: 0 <= i < |p| - 1 ==> !Hides(dec, p[i])
  }

  ghost predicate OpenPathTo(dec: Decoder, hit: RuntimeCall -> bool, c: RuntimeCall, p: seq<RuntimeCall>) {
    PathTo(dec, hit, c, p) && Open(dec, p)
  }

  ghost predicate ReachesOpenly(dec: Decoder, hit: RuntimeCall -> bool, c: RuntimeCall) {
    exists p :: OpenPathTo(dec, hit, c, p)
  }

  /** A step the scanners can take: to a call they descend into or one the probe finds. */
  ghost predicate ScannedEdge(dec: Decoder, a: RuntimeCall, b: RuntimeCall) {
    || b in Children(a)
    || (&& NotedBytes(a).Some?
        && dec(PROBE_DEPTH, NotedBytes(a).value).Some?
        && dec(PROBE_DEPTH, NotedBytes(a).value).value.0 == b)
  }

  lemma ScannedIsOpen(dec: Decoder, a: RuntimeCall, b: RuntimeCall)
    requires ScannedEdge(dec, a, b)
    ensures Edge(dec, a, b) && !Hides(dec, a)
  {
  }

  /** The steps of open paths are exactly those the scanners can take. */
  lemma ScannedEdgeIff(dec: Decoder, a: RuntimeCall, b: RuntimeCall)
    requires LimitStable(dec)
    ensures ScannedEdge(dec, a, b) <==> Edge(dec, a, b) && !Hides(dec, a)
  {
    if Notes(dec, a, b) && !Hides(dec, a) {
      var bytes := NotedBytes(a).value;
      var limit: nat :| dec(limit, bytes).Some? && dec(limit, bytes).value.0 == b;
      assert dec(PROBE_DEPTH, bytes).Some?;
    }
  }

  lemma PrependPath(dec: Decoder, hit: RuntimeCall -> bool, c: RuntimeCall, k: RuntimeCall, p: seq<RuntimeCall>)
    requires ScannedEdge(dec, c, k) && OpenPathTo(dec, hit, k, p)
    ensures OpenPathTo(dec, hit, c, [c] + p)
  {
    ScannedIsOpen(dec, c, k);
    var q := [c] + p;
    assert q[1..] == p;
    forall i | 0 <= i < |q| - 1 ensures !Hides(dec, q[i]) {
      assert i > 0 ==> q[i] == p[i - 1];
    }
  }

  lemma OpenTail(dec: Decoder, hit: RuntimeCall -> bool, c: RuntimeCall, p: seq<RuntimeCall>)
    requires LimitStable(dec)
    requires OpenPathTo(dec, hit, c, p) && |p| > 1
    ensures ScannedEdge(dec, c, p[1]) && OpenPathTo(dec, hit, p[1], p[1..])
  {
    assert !Hides(dec, p[0]);
    ScannedEdgeIff(dec, c, p[1]);
    forall i | 0 <= i < |p[1..]| - 1 ensures !Hides(dec, p[1..][i]) {
      assert p[1..][i] == p[i + 1];
    }
  }

  lemma ReachesStep(dec: Decoder, hit: RuntimeCall -> bool, c: RuntimeCall, k: RuntimeCall)
    requires ScannedEdge(dec, c, k) && ReachesOpenly(dec, hit, k)
    ensures ReachesOpenly(dec, hit, c)
  {
    var p :| OpenPathTo(dec, hit, k, p);
    PrependPath(dec, hit, c, k, p);
  }

  lemma ReachesSelf(dec: Decoder, hit: RuntimeCall -> bool, c: RuntimeCall)
    requires hit(c)
    ensures ReachesOpenly(dec, hit, c)
  {
    assert OpenPathTo(dec, hit, c, [c]);
  }

  /** Hides what it leads to, and something satisfying `hit` can be reached through it. */
  ghost function HidesWayTo(dec: Decoder, hit: RuntimeCall -> bool): RuntimeCall -> bool {
    c => Hides(dec, c) && Reaches(dec, hit, c)
  }

  lemma {:induction false} JoinPaths(dec: Decoder, p: seq<RuntimeCall>, q: seq<RuntimeCall>)
    requires IsPath(dec, p) && IsPath(dec, q) && Last(p) == q[0]
    ensures IsPath(dec, p + q[1..])
    decreases |p|
  {
    if |p| == 1 {
      assert p + q[1..] == q;
    } else {
      JoinPaths(dec, p[1..], q);
      assert (p + q[1..])[1..] == p[1..] + q[1..];
    }
  }

  lemma {:induction false} HiddenWay(dec: Decoder, hit: RuntimeCall -> bool, p: seq<RuntimeCall>)
    requires LimitStable(dec)
    requires IsPath(dec, p) && hit(Last(p)) && !Open(dec, p)
    ensures ReachesOpenly(dec, HidesWayTo(dec, hit), p[0])
  {
    if Hides(dec, p[0]) {
      assert PathTo(dec, hit, p[0], p);
      ReachesSelf(dec, HidesWayTo(dec, hit), p[0]);
    } else {
      var i :| 0 <= i < |p| - 1 && Hides(dec, p[i]);
      assert p[1..][i - 1] == p[i];
      HiddenWay(dec, hit, p[1..]);
      ScannedEdgeIff(dec, p[0], p[1]);
      ReachesStep(dec, HidesWayTo(dec, hit), p[0], p[1]);
    }
  }

  /** Some path to a call looked for is hidden exactly when a call that hides a way to one is openly reached. */
  lemma HiddenPathIff(dec: Decoder, hit: RuntimeCall -> bool, c: RuntimeCall)
    requires LimitStable(dec) && forall x :: Hides(dec, x) ==> !hit(x)
    ensures (exists p :: PathTo(dec, hit, c, p) && !Open(dec, p)) <==> ReachesOpenly(dec, HidesWayTo(dec, hit), c)
  {
    if p :| PathTo(dec, hit, c, p) && !Open(dec, p) {
      HiddenWay(dec, hit, p);
    }
    if p :| OpenPathTo(dec, HidesWayTo(dec, hit), c, p) {
      var q :| PathTo(dec, hit, Last(p), q);
      var r := JoinHidden(dec, hit, p, q);
      assert PathTo(dec, hit, c, r);
    }
  }

  lemma JoinHidden(dec: Decoder, hit: RuntimeCall -> bool, p: seq<RuntimeCall>, q: seq<RuntimeCall>) returns (r: seq<RuntimeCall>)
    requires IsPath(dec, p) && PathTo(dec, hit, Last(p), q) && Hides(dec, Last(p)) && !hit(Last(p))
    ensures PathTo(dec, hit, p[0], r) && !Open(dec, r)
  {
    JoinPaths(dec, p, q);
    r := p + q[1..];
    assert r[|p| - 1] == Last(p) && |q| > 1;
    assert Last(r) == Last(q);
  }

  // ----- cut-offs along paths ------------------------------------------------------------------

  /** One step taken at `depth`: noted bytes must decode within what is left after the step. */
  ghost predicate BudgetEdge(dec: Decoder, a: RuntimeCall, b: RuntimeCall, depth: nat) {
    || b in Children(a)
    || (NotedBytes(a).Some? && depth + 1 < SCAN_DEPTH &&
        dec(SCAN_DEPTH - (depth + 1), NotedBytes(a).value).Some? &&
        dec(SCAN_DEPTH - (depth + 1), NotedBytes(a).value).value.0 == b)
  }

  ghost predicate BudgetPath(dec: Decoder, p: seq<RuntimeCall>, depth: nat) {
    |p| > 0 && (|p| > 1 ==> BudgetEdge(dec, p[0], p[1], depth) && BudgetPath(dec, p[1..], depth + 1))
  }

  /** The budget ends at `c` itself, at the bytes it notes, or its bytes are a call only beyond it. */
  ghost predicate CutOff(dec: Decoder, c: RuntimeCall, depth: nat) {
    || depth >= SCAN_DEPTH
    || (NotedBytes(c).Some? &&
        (|| depth + 1 >= SCAN_DEPTH
         || (dec(SCAN_DEPTH - (depth + 1), NotedBytes(c).value).None? &&
             dec(PROBE_DEPTH, NotedBytes(c).value).Some?)))
  }

  /** No path out of `c`, scanned from `depth`, runs out of budget, and no preimage noted on one is a
      call only beyond the remaining budget. */
  ghost predicate WithinBudget(dec: Decoder, c: RuntimeCall, depth: nat) {
    forall p :: BudgetPath(dec, p, depth) && p[0] == c ==> !CutOff(dec, Last(p), depth + |p| - 1)
  }

  ghost predicate AlarmPath(dec: Decoder, hit: RuntimeCall -> bool, c: RuntimeCall, depth: nat, p: seq<RuntimeCall>) {
    && BudgetPath(dec, p, depth)
    && p[0] == c
    && (hit(Last(p)) || CutOff(dec, Last(p), depth + |p| - 1))
  }

  /** The scan says yes exactly when some path that decodes within the remaining budget ends in a
      call looked for or in a cut-off. No law of the decoder is needed. */
  lemma ScanExact(dec: Decoder, hit: RuntimeCall -> bool, c: RuntimeCall, depth: nat)
    ensures Scan(dec, hit, c, depth) <==> exists p :: AlarmPath(dec, hit, c, depth, p)
  {
    if Scan(dec, hit, c, depth) {
      var p := AlarmWitness(dec, hit, c, depth);
    }
    if p :| AlarmPath(dec, hit, c, depth, p) {
      AlarmIsScanned(dec, hit, p, depth);
    }
  }

  lemma PrependAlarm(dec: Decoder, hit: RuntimeCall -> bool, c: RuntimeCall, k: RuntimeCall, depth: nat, p: seq<RuntimeCall>)
    requires BudgetEdge(dec, c, k, depth) && AlarmPath(dec, hit, k, depth + 1, p)
    ensures AlarmPath(dec, hit, c, depth, [c] + p)
  {
    assert ([c] + p)[1..] == p;
  }

  lemma {:induction false} AlarmWitness(dec: Decoder, hit: RuntimeCall -> bool, c: RuntimeCall, depth: nat) returns (p: seq<RuntimeCall>)
    requires Scan(dec, hit, c, depth)
    ensures AlarmPath(dec, hit, c, depth, p)
    decreases SCAN_DEPTH - depth
  {
    if hit(c) || CutOff(dec, c, depth) {
      p := [c];
    } else {
      var k := AlarmStep(dec, hit, c, depth);
      p := AlarmWitness(dec, hit, k, depth + 1);
      PrependAlarm(dec, hit, c, k, depth, p);
      p := [c] + p;
    }
  }

  lemma AlarmStep(dec: Decoder, hit: RuntimeCall -> bool, c: RuntimeCall, depth: nat) returns (k: RuntimeCall)
    requires Scan(dec, hit, c, depth) && !hit(c) && !CutOff(dec, c, depth)
    ensures depth < SCAN_DEPTH && BudgetEdge(dec, c, k, depth) && Scan(dec, hit, k, depth + 1)
  {
    if i :| 0 <= i < |Children(c)| && Scan(dec, hit, Children(c)[i], depth + 1) {
      k := Children(c)[i];
    } else {
      k := dec(SCAN_DEPTH - (depth + 1), NotedBytes(c).value).value.0;
    }
  }

  lemma {:induction false} AlarmIsScanned(dec: Decoder, hit: RuntimeCall -> bool, p: seq<RuntimeCall>, depth: nat)
    requires BudgetPath(dec, p, depth)
    requires hit(Last(p)) || CutOff(dec, Last(p), depth + |p| - 1)
    ensures Scan(dec, hit, p[0], depth)
    decreases |p|
  {
    if |p| > 1 {
      AlarmIsScanned(dec, hit, p[1..], depth + 1);
      ScanBack(dec, hit, p[0], p[1], depth);
    }
  }

  lemma ScanBack(dec: Decoder, hit: RuntimeCall -> bool, c: RuntimeCall, k: RuntimeCall, depth: nat)
    requires BudgetEdge(dec, c, k, depth) && Scan(dec, hit, k, depth + 1)
    ensures Scan(dec, hit, c, depth)
  {
    if k in Children(c) {
      var i :| 0 <= i < |Children(c)| && Children(c)[i] == k;
      assert Scan(dec, hit, Children(c)[i], depth + 1);
    }
  }

  /** A scan that looks for nothing answers yes exactly when the budget is exceeded. */
  lemma BudgetScan(dec: Decoder, c: RuntimeCall, depth: nat)
    ensures WithinBudget(dec, c, depth) <==> !Scan(dec, Never, c, depth)
  {
    ScanExact(dec, Never, c, depth);
    if !WithinBudget(dec, c, depth) {
      var p :| BudgetPath(dec, p, depth) && p[0] == c && CutOff(dec, Last(p), depth + |p| - 1);
      assert AlarmPath(dec, Never, c, depth, p);
    }
  }

  // ----- soundness, monotonicity, exactness ----------------------------------------------------

  /** Scanning fails closed: whatever an open path of any length leads to, through any mix of wrappers and
      noted preimages, is reported from every starting depth. */
  lemma {:induction false} FailsClosed(dec: Decoder, hit: RuntimeCall -> bool, p: seq<RuntimeCall>, depth: nat)
    requires LimitStable(dec)
    requires IsPath(dec, p) && Open(dec, p) && hit(Last(p))
    ensures Scan(dec, hit, p[0], depth)
    decreases |p|
  {
    if |p| > 1 {
      OpenTail(dec, hit, p[0], p);
      FailsClosed(dec, hit, p[1..], depth + 1);
      ScanThroughEdge(dec, hit, p[0], p[1], depth);
    }
  }

  /** What is reported of a call is reported of everything one step above it. */
  lemma ScanThroughEdge(dec: Decoder, hit: RuntimeCall -> bool, c: RuntimeCall, k: RuntimeCall, depth: nat)
    requires LimitStable(dec)
    requires ScannedEdge(dec, c, k) && Scan(dec, hit, k, depth + 1)
    ensures Scan(dec, hit, c, depth)
  {
    if k in Children(c) {
      ScanBack(dec, hit, c, k, depth);
    } else if depth + 1 < SCAN_DEPTH {
      var near := dec(SCAN_DEPTH - (depth + 1), NotedBytes(c).value);
      assert near.Some? ==> near == dec(PROBE_DEPTH, NotedBytes(c).value);
    }
  }

  /** Starting deeper never turns a yes into a no, although the decode limit of a noted preimage
      shrinks as the depth grows. */
  lemma {:induction false} ScanMonotone(dec: Decoder, hit: RuntimeCall -> bool, c: RuntimeCall, shallow: nat, deep: nat)
    requires LimitStable(dec)
    requires shallow <= deep && Scan(dec, hit, c, shallow)
    ensures Scan(dec, hit, c, deep)
    decreases SCAN_DEPTH - deep, 0
  {
    if deep < SCAN_DEPTH && !hit(c) {
      if i :| 0 <= i < |Children(c)| && Scan(dec, hit, Children(c)[i], shallow + 1) {
        ScanMonotone(dec, hit, Children(c)[i], shallow + 1, deep + 1);
      } else {
        ScanBytesMonotone(dec, hit, NotedBytes(c).value, shallow + 1, deep + 1);
      }
    }
  }

  lemma {:induction false} ScanBytesMonotone(dec: Decoder, hit: RuntimeCall -> bool, bytes: seq<byte>, shallow: nat, deep: nat)
    requires LimitStable(dec)
    requires shallow <= deep && ScanBytes(dec, hit, bytes, shallow)
    ensures ScanBytes(dec, hit, bytes, deep)
    decreases SCAN_DEPTH - deep, 1
  {
    if deep < SCAN_DEPTH {
      var near, far := dec(SCAN_DEPTH - deep, bytes), dec(SCAN_DEPTH - shallow, bytes);
      if near.Some? {
        assert far == near;
        ScanMonotone(dec, hit, near.value.0, shallow, deep);
      } else if far.Some? {
        assert dec(PROBE_DEPTH, bytes) == far;
      }
    }
  }

  /** Looking for more finds more. */
  lemma {:induction false} ScanWeaken(dec: Decoder, narrow: RuntimeCall -> bool, wide: RuntimeCall -> bool, c: RuntimeCall, depth: nat)
    requires forall x :: narrow(x) ==> wide(x)
    requires Scan(dec, narrow, c, depth)
    ensures Scan(dec, wide, c, depth)
    decreases SCAN_DEPTH - depth, 0
  {
    if depth < SCAN_DEPTH && !narrow(c) {
      if i :| 0 <= i < |Children(c)| && Scan(dec, narrow, Children(c)[i], depth + 1) {
        ScanWeaken(dec, narrow, wide, Children(c)[i], depth + 1);
      } else {
        var bytes := NotedBytes(c).value;
        if depth + 1 < SCAN_DEPTH && dec(SCAN_DEPTH - (depth + 1), bytes).Some? {
          ScanWeaken(dec, narrow, wide, dec(SCAN_DEPTH - (depth + 1), bytes).value.0, depth + 1);
        }
      }
    }
  }

  /** A scan answers yes for exactly two reasons: a cut-off, or something to find. */
  lemma {:induction false} ScanDecomposes(dec: Decoder, hit: RuntimeCall -> bool, c: RuntimeCall, depth: nat)
    requires LimitStable(dec)
    ensures Scan(dec, hit, c, depth) <==> !WithinBudget(dec, c, depth) || ReachesOpenly(dec, hit, c)
  {
    BudgetScan(dec, c, depth);
    if !WithinBudget(dec, c, depth) {
      ScanWeaken(dec, Never, hit, c, depth);
    }
    if p :| OpenPathTo(dec, hit, c, p) {
      FailsClosed(dec, hit, p, depth);
    }
    if Scan(dec, hit, c, depth) && WithinBudget(dec, c, depth) {
      FindsSomething(dec, hit, c, depth);
    }
  }

  /** What a scan does not report although it can be reached: exactly what lies, within the budget, behind
      calls that hide it on every path. */
  lemma UnreportedIff(dec: Decoder, hit: RuntimeCall -> bool, c: RuntimeCall, depth: nat)
    requires LimitStable(dec)
    ensures Reaches(dec, hit, c) && !Scan(dec, hit, c, depth) <==>
            && WithinBudget(dec, c, depth)
            && Reaches(dec, hit, c)
            && (forall p :: PathTo(dec, hit, c, p) ==> !Open(dec, p))
  {
    ScanDecomposes(dec, hit, c, depth);
    if p :| PathTo(dec, hit, c, p) && Open(dec, p) {
      assert OpenPathTo(dec, hit, c, p);
    }
  }

  lemma {:induction false} FindsSomething(dec: Decoder, hit: RuntimeCall -> bool, c: RuntimeCall, depth: nat)
    requires LimitStable(dec)
    requires Scan(dec, hit, c, depth) && !Scan(dec, Never, c, depth)
    ensures ReachesOpenly(dec, hit, c)
    decreases SCAN_DEPTH - depth
  {
    if hit(c) {
      ReachesSelf(dec, hit, c);
    } else if i :| 0 <= i < |Children(c)| && Scan(dec, hit, Children(c)[i], depth + 1) {
      FindsSomething(dec, hit, Children(c)[i], depth + 1);
      ReachesStep(dec, hit, c, Children(c)[i]);
    } else {
      assert ScanBytes(dec, hit, NotedBytes(c).value, depth + 1);
      assert !ScanBytes(dec, Never, NotedBytes(c).value, depth + 1);
      var near := dec(SCAN_DEPTH - (depth + 1), NotedBytes(c).value);
      assert near == dec(PROBE_DEPTH, NotedBytes(c).value);
      FindsSomething(dec, hit, near.value.0, depth + 1);
      ReachesStep(dec, hit, c, near.value.0);
    }
  }

  // ----- noted bytes ---------------------------------------------------------------------------

  /** Bytes appended to a preimage that decodes at the probe depth never change the verdict on it. */
  lemma TrailingBytesIgnored(dec: Decoder, hit: RuntimeCall -> bool, bytes: seq<byte>, more: seq<byte>, depth: nat)
    requires LimitStable(dec) && ReadsPrefix(dec)
    requires dec(PROBE_DEPTH, bytes).Some?
    ensures ScanBytes(dec, hit, bytes + more, depth) == ScanBytes(dec, hit, bytes, depth)
  {
    var whole, longer := dec(PROBE_DEPTH, bytes), dec(PROBE_DEPTH, bytes + more);
    assert (bytes + more)[..whole.value.1] == bytes[..whole.value.1];
    if depth < SCAN_DEPTH {
      var near, nearLonger := dec(SCAN_DEPTH - depth, bytes), dec(SCAN_DEPTH - depth, bytes + more);
      assert near.Some? ==> near == whole;
      assert nearLonger.Some? ==> nearLonger == longer;
    }
  }

  // ----- the depths in numbers -----------------------------------------------------------------

  /** Wrappers around a call with nothing to find in it are reported exactly from a total depth of eight on. */
  lemma {:induction false} WrappedScan(dec: Decoder, hit: RuntimeCall -> bool, data: seq<byte>, n: nat, depth: nat)
    requires forall c: RuntimeCall :: c.Sudo? || c.OtherCall? ==> !hit(c)
    ensures Scan(dec, hit, Wrapped(OtherCall(data), n), depth) <==> n + depth >= 8
    decreases n
  {
    if n > 0 && depth < 8 {
      WrappedScan(dec, hit, data, n - 1, depth + 1);
      ScanStep(dec, hit, Wrapped(OtherCall(data), n), depth);
    }
  }

  lemma WrappedBudget(dec: Decoder, data: seq<byte>, n: nat, depth: nat)
    ensures WithinBudget(dec, Wrapped(OtherCall(data), n), depth) <==> n + depth < 8
  {
    WrappedScan(dec, Never, data, n, depth);
    BudgetScan(dec, Wrapped(OtherCall(data), n), depth);
  }

  /** Bytes noted at a depth are decoded with what is left of seven levels, and probed with thirty-two. */
  lemma NotedScan(dec: Decoder, hit: RuntimeCall -> bool, bytes: seq<byte>, depth: nat)
    requires !hit(Preimage(NotePreimage(bytes)))
    ensures Scan(dec, hit, Preimage(NotePreimage(bytes)), depth) ==
            if depth >= 7 then true
            else if dec(7 - depth, bytes).Some? then Scan(dec, hit, dec(7 - depth, bytes).value.0, depth + 1)
            else dec(32, bytes).Some?
  {
  }
}
