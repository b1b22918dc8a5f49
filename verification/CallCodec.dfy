/** A concrete byte codec for runtime calls, with the depth accounting of SCALE: decoding a boxed call
    or a vector of calls goes one level deeper, and a level beyond the limit fails the decode. It is
    not the runtime's byte format; it shows that the decoder laws the scanners rely on are those of a
    codec that round-trips, and lets calls be noted as preimages concretely. */
module CallCodec {
  import opened Wrappers
  import opened RuntimeCalls
  import opened DepthScan
  import opened QubitumPrivacy
  import opened ShieldQueueFilter
  import opened MachineIntegers

  // ----- nesting -------------------------------------------------------------------------------

  /** How many levels of boxes and call vectors a decode of `c` goes down. */
  function Nesting(c: RuntimeCall): nat {
    match c
    case Utility(Batch(calls)) => 1 + MaxNesting(calls)
    case Utility(BatchAll(calls)) => 1 + MaxNesting(calls)
    case Utility(ForceBatch(calls)) => 1 + MaxNesting(calls)
    case Utility(IfElse(main, fallback)) => 1 + Max(Nesting(main), Nesting(fallback))
    case Utility(u) => 1 + Nesting(u.call)
    case Proxy(OtherProxy(_)) => 0
    case Proxy(p) => 1 + Nesting(p.call)
    case Sudo(OtherSudo(_)) => 0
    case Sudo(s) => 1 + Nesting(s.call)
    case Multisig(OtherMultisig(_)) => 0
    case Multisig(m) => 1 + Nesting(m.call)
    case Scheduler(OtherScheduler(_)) => 0
    case Scheduler(s) => 1 + Nesting(s.call)
    case Crowdloan(Create(Some(x))) => 1 + Nesting(x)
    case _ => 0
  }

  function MaxNesting(calls: seq<RuntimeCall>): nat {
    if calls == [] then 0 else Max(Nesting(calls[0]), MaxNesting(calls[1..]))
  }

  // ----- calls as a tag and a payload ----------------------------------------------------------

  datatype Payload =
    | Data(data: seq<byte>)
    | Many(calls: seq<RuntimeCall>)
    | Two(first: RuntimeCall, second: RuntimeCall)
    | One(call: RuntimeCall)
    | Aimed(address: MultiAddress, call: RuntimeCall)

  function PayloadNesting(p: Payload): nat {
    match p
    case Data(_) => 0
    case Many(calls) => 1 + MaxNesting(calls)
    case Two(a, b) => 1 + Max(Nesting(a), Nesting(b))
    case One(x) => 1 + Nesting(x)
    case Aimed(_, x) => 1 + Nesting(x)
  }

  function View(c: RuntimeCall): (v: (byte, Payload))
    ensures PayloadNesting(v.1) == Nesting(c)
  {
    match c
    case OtherCall(d) => (0, Data(d))
    case Qubitum(d) => (1, Data(d))
    case MevShield(SubmitEncrypted(d)) => (2, Data(d))
    case MevShield(StoreEncrypted(d)) => (3, Data(d))
    case MevShield(OtherShield(d)) => (4, Data(d))
    case Proxy(OtherProxy(d)) => (5, Data(d))
    case Sudo(OtherSudo(d)) => (6, Data(d))
    case Multisig(OtherMultisig(d)) => (7, Data(d))
    case Scheduler(OtherScheduler(d)) => (8, Data(d))
    case Preimage(NotePreimage(d)) => (9, Data(d))
    case Preimage(OtherPreimage(d)) => (10, Data(d))
    case Utility(Batch(cs)) => (11, Many(cs))
    case Utility(BatchAll(cs)) => (12, Many(cs))
    case Utility(ForceBatch(cs)) => (13, Many(cs))
    case Utility(IfElse(a, b)) => (14, Two(a, b))
    case Utility(AsDerivative(x)) => (15, One(x))
    case Utility(DispatchAs(x)) => (16, One(x))
    case Utility(WithWeight(x)) => (17, One(x))
    case Utility(DispatchAsFallible(x)) => (18, One(x))
    case Sudo(Sudoed(x)) => (19, One(x))
    case Sudo(SudoUncheckedWeight(x)) => (20, One(x))
    case Multisig(AsMultiThreshold1(x)) => (21, One(x))
    case Multisig(AsMulti(x)) => (22, One(x))
    case Scheduler(Schedule(x)) => (23, One(x))
    case Scheduler(ScheduleNamed(x)) => (24, One(x))
    case Scheduler(ScheduleAfter(x)) => (25, One(x))
    case Scheduler(ScheduleNamedAfter(x)) => (26, One(x))
    case Sudo(SudoAs(x)) => (27, One(x))
    case Proxy(ProxyAnnounced(x)) => (28, One(x))
    case Proxy(Proxied(a, x)) => (29, Aimed(a, x))
    case Crowdloan(OtherCrowdloan(d)) => (30, Data(d))
    case Crowdloan(Create(None)) => (31, Data([]))
    case Crowdloan(Create(Some(x))) => (32, One(x))
  }

  function Build(tag: byte, p: Payload): Option<RuntimeCall> {
    match p
    case Data(d) => (
      match tag
      case 0 => Some(OtherCall(d))
      case 1 => Some(Qubitum(d))
      case 2 => Some(MevShield(SubmitEncrypted(d)))
      case 3 => Some(MevShield(StoreEncrypted(d)))
      case 4 => Some(MevShield(OtherShield(d)))
      case 5 => Some(Proxy(OtherProxy(d)))
      case 6 => Some(Sudo(OtherSudo(d)))
      case 7 => Some(Multisig(OtherMultisig(d)))
      case 8 => Some(Scheduler(OtherScheduler(d)))
      case 9 => Some(Preimage(NotePreimage(d)))
      case 10 => Some(Preimage(OtherPreimage(d)))
      case 30 => Some(Crowdloan(OtherCrowdloan(d)))
      case 31 => if d == [] then Some(Crowdloan(Create(None))) else None
      case _ => None)
    case Many(cs) => (
      match tag
      case 11 => Some(Utility(Batch(cs)))
      case 12 => Some(Utility(BatchAll(cs)))
      case 13 => Some(Utility(ForceBatch(cs)))
      case _ => None)
    case Two(a, b) =>
      if tag == 14 then Some(Utility(IfElse(a, b))) else None
    case One(x) => (
      match tag
      case 15 => Some(Utility(AsDerivative(x)))
      case 16 => Some(Utility(DispatchAs(x)))
      case 17 => Some(Utility(WithWeight(x)))
      case 18 => Some(Utility(DispatchAsFallible(x)))
      case 19 => Some(Sudo(Sudoed(x)))
      case 20 => Some(Sudo(SudoUncheckedWeight(x)))
      case 21 => Some(Multisig(AsMultiThreshold1(x)))
      case 22 => Some(Multisig(AsMulti(x)))
      case 23 => Some(Scheduler(Schedule(x)))
      case 24 => Some(Scheduler(ScheduleNamed(x)))
      case 25 => Some(Scheduler(ScheduleAfter(x)))
      case 26 => Some(Scheduler(ScheduleNamedAfter(x)))
      case 27 => Some(Sudo(SudoAs(x)))
      case 28 => Some(Proxy(ProxyAnnounced(x)))
      case 32 => Some(Crowdloan(Create(Some(x))))
      case _ => None)
    case Aimed(a, x) =>
      if tag == 29 then Some(Proxy(Proxied(a, x))) else None
  }

  lemma BuildsView(c: RuntimeCall)
    ensures Build(View(c).0, View(c).1) == Some(c)
  {
  }

  lemma ViewsBuilt(tag: byte, p: Payload)
    requires Build(tag, p).Some?
    ensures View(Build(tag, p).value) == (tag, p)
  {
  }

  /** What a tag announces about the bytes that follow it. */
  datatype Layout = DataLayout | ManyLayout | TwoLayout | OneLayout | AimedLayout

  function LayoutOf(tag: byte): Layout {
    if tag <= 10 then DataLayout
    else if tag <= 13 then ManyLayout
    else if tag == 14 then TwoLayout
    else if tag <= 28 || tag == 32 then OneLayout
    else if tag == 29 then AimedLayout
    else DataLayout
  }

  function PayloadLayout(p: Payload): Layout {
    match p
    case Data(_) => DataLayout
    case Many(_) => ManyLayout
    case Two(_, _) => TwoLayout
    case One(_) => OneLayout
    case Aimed(_, _) => AimedLayout
  }

  lemma ViewLayout(c: RuntimeCall)
    ensures LayoutOf(View(c).0) == PayloadLayout(View(c).1)
  {
  }

  // ----- encoding ------------------------------------------------------------------------------

  /** Seven bits a byte, low bits first; the high bit says that more follows. */
  function EncodeNat(n: nat): seq<byte> {
    if n < 128 then [n as byte] else [(128 + n % 128) as byte] + EncodeNat(n / 128)
  }

  function EncodeData(d: seq<byte>): seq<byte> {
    EncodeNat(|d|) + d
  }

  function FlattenAddress(a: MultiAddress): seq<byte> {
    match a
    case Id(account) => [0] + account
    case OtherAddress(raw) => [1] + raw
  }

  function EncodeAddress(a: MultiAddress): seq<byte> {
    EncodeData(FlattenAddress(a))
  }

  function Encode(c: RuntimeCall): seq<byte>
    decreases Nesting(c), 0, 1
  {
    [View(c).0] + EncodePayload(View(c).1)
  }

  function EncodePayload(p: Payload): seq<byte>
    decreases PayloadNesting(p), 0, 0
  {
    match p
    case Data(d) => EncodeData(d)
    case Many(calls) => EncodeNat(|calls|) + EncodeCalls(calls)
    case Two(a, b) => Encode(a) + Encode(b)
    case One(x) => Encode(x)
    case Aimed(a, x) => EncodeAddress(a) + Encode(x)
  }

  function EncodeCalls(calls: seq<RuntimeCall>): seq<byte>
    decreases MaxNesting(calls), |calls|
  {
    if calls == [] then [] else Encode(calls[0]) + EncodeCalls(calls[1..])
  }

  // ----- parsing: a value and the bytes after it -----------------------------------------------

  function ParseNat(bytes: seq<byte>): (r: Option<(nat, seq<byte>)>)
    ensures r.Some? ==> |r.value.1| <= |bytes|
  {
    if bytes == [] then None
    else if bytes[0] < 128 then Some((bytes[0] as nat, bytes[1..]))
    else
      match ParseNat(bytes[1..])
      case None => None
      case Some((high, rest)) => if high == 0 then None else Some((bytes[0] as nat - 128 + 128 * high, rest))
  }

  function ParseData(bytes: seq<byte>): (r: Option<(seq<byte>, seq<byte>)>)
    ensures r.Some? ==> |r.value.1| <= |bytes|
  {
    match ParseNat(bytes)
    case None => None
    case Some((n, rest)) => if n > |rest| then None else Some((rest[..n], rest[n..]))
  }

  function UnflattenAddress(bytes: seq<byte>): Option<MultiAddress> {
    if bytes == [] then None
    else if bytes[0] == 0 && |bytes| == 33 then Some(Id(bytes[1..]))
    else if bytes[0] == 1 then Some(OtherAddress(bytes[1..]))
    else None
  }

  function ParseAddress(bytes: seq<byte>): (r: Option<(MultiAddress, seq<byte>)>)
    ensures r.Some? ==> |r.value.1| <= |bytes|
  {
    match ParseData(bytes)
    case None => None
    case Some((flat, rest)) =>
      match UnflattenAddress(flat)
      case None => None
      case Some(a) => Some((a, rest))
  }

  function Parse(limit: nat, bytes: seq<byte>): (r: Option<(RuntimeCall, seq<byte>)>)
    ensures r.Some? ==> |r.value.1| <= |bytes|
    decreases limit, 1, bytes
  {
    if bytes == [] then None
    else
      match ParsePayload(limit, LayoutOf(bytes[0]), bytes[1..])
      case None => None
      case Some((p, rest)) =>
        match Build(bytes[0], p)
        case None => None
        case Some(c) => Some((c, rest))
  }

  function ParsePayload(limit: nat, layout: Layout, bytes: seq<byte>): (r: Option<(Payload, seq<byte>)>)
    ensures r.Some? ==> |r.value.1| <= |bytes|
    decreases limit, 0, bytes
  {
    match layout
    case DataLayout => (
      match ParseData(bytes)
      case None => None
      case Some((d, rest)) => Some((Data(d), rest)))
    case ManyLayout => if limit == 0 then None else ParseMany(limit - 1, bytes)
    case TwoLayout => if limit == 0 then None else ParseTwo(limit - 1, bytes)
    case OneLayout => if limit == 0 then None else ParseOne(limit - 1, bytes)
    case AimedLayout => if limit == 0 then None else ParseAimed(limit - 1, bytes)
  }

  function ParseMany(limit: nat, bytes: seq<byte>): (r: Option<(Payload, seq<byte>)>)
    ensures r.Some? ==> |r.value.1| <= |bytes|
    decreases limit, 3, bytes
  {
    match ParseNat(bytes)
    case None => None
    case Some((n, rest)) =>
      match ParseCalls(limit, n, rest)
      case None => None
      case Some((calls, rest')) => Some((Many(calls), rest'))
  }

  function ParseTwo(limit: nat, bytes: seq<byte>): (r: Option<(Payload, seq<byte>)>)
    ensures r.Some? ==> |r.value.1| <= |bytes|
    decreases limit, 2, bytes
  {
    match Parse(limit, bytes)
    case None => None
    case Some((a, rest)) =>
      match Parse(limit, rest)
      case None => None
      case Some((b, rest')) => Some((Two(a, b), rest'))
  }

  function ParseOne(limit: nat, bytes: seq<byte>): (r: Option<(Payload, seq<byte>)>)
    ensures r.Some? ==> |r.value.1| <= |bytes|
    decreases limit, 2, bytes
  {
    match Parse(limit, bytes)
    case None => None
    case Some((x, rest)) => Some((One(x), rest))
  }

  function ParseAimed(limit: nat, bytes: seq<byte>): (r: Option<(Payload, seq<byte>)>)
    ensures r.Some? ==> |r.value.1| <= |bytes|
    decreases limit, 2, bytes
  {
    match ParseAddress(bytes)
    case None => None
    case Some((a, rest)) =>
      match Parse(limit, rest)
      case None => None
      case Some((x, rest')) => Some((Aimed(a, x), rest'))
  }

  function ParseCalls(limit: nat, n: nat, bytes: seq<byte>): (r: Option<(seq<RuntimeCall>, seq<byte>)>)
    ensures r.Some? ==> |r.value.1| <= |bytes|
    decreases limit, 2, n, bytes
  {
    if n == 0 then Some(([], bytes))
    else
      match Parse(limit, bytes)
      case None => None
      case Some((c, rest)) =>
        match ParseCalls(limit, n - 1, rest)
        case None => None
        case Some((calls, rest')) => Some(([c] + calls, rest'))
  }

  /** The decoder: the call at the front and the number of bytes it took. */
  function Decode(limit: nat, bytes: seq<byte>): Option<(RuntimeCall, nat)> {
    match Parse(limit, bytes)
    case None => None
    case Some((c, rest)) => Some((c, |bytes| - |rest|))
  }

  // ----- what is parsed is what was encoded ----------------------------------------------------

  lemma Reassociate(a: seq<byte>, b: seq<byte>, rest: seq<byte>)
    ensures (a + b) + rest == a + (b + rest)
  {
  }

  lemma Chain(bytes: seq<byte>, a: seq<byte>, rest: seq<byte>, b: seq<byte>, rest': seq<byte>)
    requires bytes == a + rest && rest == b + rest'
    ensures bytes == (a + b) + rest'
  {
  }

  lemma {:induction false} NatSound(bytes: seq<byte>)
    requires ParseNat(bytes).Some?
    ensures bytes == EncodeNat(ParseNat(bytes).value.0) + ParseNat(bytes).value.1
  {
    if bytes[0] >= 128 {
      NatSound(bytes[1..]);
    }
  }

  lemma DataSound(bytes: seq<byte>)
    requires ParseData(bytes).Some?
    ensures bytes == EncodeData(ParseData(bytes).value.0) + ParseData(bytes).value.1
  {
    NatSound(bytes);
  }

  lemma FlatSound(bytes: seq<byte>)
    requires UnflattenAddress(bytes).Some?
    ensures FlattenAddress(UnflattenAddress(bytes).value) == bytes
  {
  }

  lemma FlatRoundTrip(a: MultiAddress)
    ensures UnflattenAddress(FlattenAddress(a)) == Some(a)
  {
    assert FlattenAddress(a)[1..] == if a.Id? then a.account else a.raw;
  }

  lemma AddressSound(bytes: seq<byte>)
    requires ParseAddress(bytes).Some?
    ensures bytes == EncodeAddress(ParseAddress(bytes).value.0) + ParseAddress(bytes).value.1
  {
    DataSound(bytes);
    FlatSound(ParseData(bytes).value.0);
  }

  lemma {:induction false} Sound(limit: nat, bytes: seq<byte>)
    requires Parse(limit, bytes).Some?
    ensures bytes == Encode(Parse(limit, bytes).value.0) + Parse(limit, bytes).value.1
    ensures Nesting(Parse(limit, bytes).value.0) <= limit
    decreases limit, 1
  {
    var (p, rest) := ParsePayload(limit, LayoutOf(bytes[0]), bytes[1..]).value;
    PayloadSound(limit, LayoutOf(bytes[0]), bytes[1..]);
    ViewsBuilt(bytes[0], p);
    Reassociate([bytes[0]], EncodePayload(p), rest);
  }

  lemma {:induction false} PayloadSound(limit: nat, layout: Layout, bytes: seq<byte>)
    requires ParsePayload(limit, layout, bytes).Some?
    ensures bytes == EncodePayload(ParsePayload(limit, layout, bytes).value.0) + ParsePayload(limit, layout, bytes).value.1
    ensures PayloadNesting(ParsePayload(limit, layout, bytes).value.0) <= limit
    decreases limit, 0
  {
    match layout
    case DataLayout => DataSound(bytes);
    case ManyLayout => ManySound(limit - 1, bytes);
    case TwoLayout => TwoSound(limit - 1, bytes);
    case OneLayout => Sound(limit - 1, bytes);
    case AimedLayout => AimedSound(limit - 1, bytes);
  }

  lemma {:induction false} ManySound(limit: nat, bytes: seq<byte>)
    requires ParseMany(limit, bytes).Some?
    ensures bytes == EncodePayload(ParseMany(limit, bytes).value.0) + ParseMany(limit, bytes).value.1
    ensures PayloadNesting(ParseMany(limit, bytes).value.0) <= limit + 1
    decreases limit, 3
  {
    var (n, rest) := ParseNat(bytes).value;
    var (calls, rest') := ParseCalls(limit, n, rest).value;
    NatSound(bytes);
    CallsSound(limit, n, rest);
    Chain(bytes, EncodeNat(n), rest, EncodeCalls(calls), rest');
  }

  lemma {:induction false} TwoSound(limit: nat, bytes: seq<byte>)
    requires ParseTwo(limit, bytes).Some?
    ensures bytes == EncodePayload(ParseTwo(limit, bytes).value.0) + ParseTwo(limit, bytes).value.1
    ensures PayloadNesting(ParseTwo(limit, bytes).value.0) <= limit + 1
    decreases limit, 2
  {
    var (a, rest) := Parse(limit, bytes).value;
    var (b, rest') := Parse(limit, rest).value;
    Sound(limit, bytes);
    Sound(limit, rest);
    Chain(bytes, Encode(a), rest, Encode(b), rest');
  }

  lemma {:induction false} AimedSound(limit: nat, bytes: seq<byte>)
    requires ParseAimed(limit, bytes).Some?
    ensures bytes == EncodePayload(ParseAimed(limit, bytes).value.0) + ParseAimed(limit, bytes).value.1
    ensures PayloadNesting(ParseAimed(limit, bytes).value.0) <= limit + 1
    decreases limit, 2
  {
    var (a, rest) := ParseAddress(bytes).value;
    var (x, rest') := Parse(limit, rest).value;
    AddressSound(bytes);
    Sound(limit, rest);
    Chain(bytes, EncodeAddress(a), rest, Encode(x), rest');
  }

  lemma EncodeCallsCons(c: RuntimeCall, calls: seq<RuntimeCall>)
    ensures EncodeCalls([c] + calls) == Encode(c) + EncodeCalls(calls)
    ensures MaxNesting([c] + calls) == Max(Nesting(c), MaxNesting(calls))
  {
    assert ([c] + calls)[1..] == calls;
  }

  lemma {:induction false} CallsSound(limit: nat, n: nat, bytes: seq<byte>)
    requires ParseCalls(limit, n, bytes).Some?
    ensures bytes == EncodeCalls(ParseCalls(limit, n, bytes).value.0) + ParseCalls(limit, n, bytes).value.1
    ensures |ParseCalls(limit, n, bytes).value.0| == n && MaxNesting(ParseCalls(limit, n, bytes).value.0) <= limit
    decreases limit, 2, n
  {
    if n > 0 {
      var (c, rest) := Parse(limit, bytes).value;
      var (calls, rest') := ParseCalls(limit, n - 1, rest).value;
      Sound(limit, bytes);
      CallsSound(limit, n - 1, rest);
      EncodeCallsCons(c, calls);
      Chain(bytes, Encode(c), rest, EncodeCalls(calls), rest');
    }
  }

  // ----- what was encoded is parsed ------------------------------------------------------------

  lemma {:induction false} NatRoundTrip(n: nat, rest: seq<byte>)
    ensures ParseNat(EncodeNat(n) + rest) == Some((n, rest))
  {
    if n >= 128 {
      NatRoundTrip(n / 128, rest);
      assert (EncodeNat(n) + rest)[1..] == EncodeNat(n / 128) + rest;
    } else {
      assert (EncodeNat(n) + rest)[1..] == rest;
    }
  }

  lemma DataRoundTrip(d: seq<byte>, rest: seq<byte>)
    ensures ParseData(EncodeData(d) + rest) == Some((d, rest))
  {
    NatRoundTrip(|d|, d + rest);
    Reassociate(EncodeNat(|d|), d, rest);
    assert (d + rest)[..|d|] == d && (d + rest)[|d|..] == rest;
  }

  lemma AddressRoundTrip(a: MultiAddress, rest: seq<byte>)
    ensures ParseAddress(EncodeAddress(a) + rest) == Some((a, rest))
  {
    DataRoundTrip(FlattenAddress(a), rest);
    FlatRoundTrip(a);
  }

  /** An encoded call parses back to itself and leaves the bytes that follow, if its nesting is within the
      limit. */
  lemma {:induction false} RoundTrip(limit: nat, c: RuntimeCall, rest: seq<byte>)
    requires Nesting(c) <= limit
    ensures Parse(limit, Encode(c) + rest) == Some((c, rest))
    decreases Nesting(c), 0, 1
  {
    var (tag, p) := View(c);
    assert (Encode(c) + rest)[1..] == EncodePayload(p) + rest;
    ViewLayout(c);
    PayloadRoundTrip(limit, p, rest);
    BuildsView(c);
  }

  ghost predicate PayloadReturns(limit: nat, p: Payload, rest: seq<byte>) {
    ParsePayload(limit, PayloadLayout(p), EncodePayload(p) + rest) == Some((p, rest))
  }

  lemma {:induction false} PayloadRoundTrip(limit: nat, p: Payload, rest: seq<byte>)
    requires PayloadNesting(p) <= limit
    ensures PayloadReturns(limit, p, rest)
    decreases PayloadNesting(p), 0, 0
  {
    if p.Data? {
      DataRoundTrip(p.data, rest);
    } else if p.Many? {
      ManyRoundTrip(limit - 1, p, rest);
    } else if p.Two? {
      TwoRoundTrip(limit - 1, p, rest);
    } else if p.One? {
      OneRoundTrip(limit - 1, p, rest);
    } else {
      AimedRoundTrip(limit - 1, p, rest);
    }
  }

  lemma {:induction false} ManyRoundTrip(limit: nat, p: Payload, rest: seq<byte>)
    requires p.Many? && MaxNesting(p.calls) <= limit
    ensures PayloadReturns(limit + 1, p, rest)
    decreases MaxNesting(p.calls), |p.calls| + 1
  {
    Reassociate(EncodeNat(|p.calls|), EncodeCalls(p.calls), rest);
    NatRoundTrip(|p.calls|, EncodeCalls(p.calls) + rest);
    CallsRoundTrip(limit, p.calls, rest);
  }

  lemma {:induction false} TwoRoundTrip(limit: nat, p: Payload, rest: seq<byte>)
    requires p.Two? && Nesting(p.first) <= limit && Nesting(p.second) <= limit
    ensures PayloadReturns(limit + 1, p, rest)
    decreases Max(Nesting(p.first), Nesting(p.second)), 1
  {
    Reassociate(Encode(p.first), Encode(p.second), rest);
    RoundTrip(limit, p.first, Encode(p.second) + rest);
    RoundTrip(limit, p.second, rest);
  }

  lemma {:induction false} OneRoundTrip(limit: nat, p: Payload, rest: seq<byte>)
    requires p.One? && Nesting(p.call) <= limit
    ensures PayloadReturns(limit + 1, p, rest)
    decreases Nesting(p.call), 1
  {
    RoundTrip(limit, p.call, rest);
  }

  lemma {:induction false} AimedRoundTrip(limit: nat, p: Payload, rest: seq<byte>)
    requires p.Aimed? && Nesting(p.call) <= limit
    ensures PayloadReturns(limit + 1, p, rest)
    decreases Nesting(p.call), 1
  {
    Reassociate(EncodeAddress(p.address), Encode(p.call), rest);
    AddressRoundTrip(p.address, Encode(p.call) + rest);
    RoundTrip(limit, p.call, rest);
  }

  lemma {:induction false} CallsRoundTrip(limit: nat, calls: seq<RuntimeCall>, rest: seq<byte>)
    requires MaxNesting(calls) <= limit
    ensures ParseCalls(limit, |calls|, EncodeCalls(calls) + rest) == Some((calls, rest))
    decreases MaxNesting(calls), |calls|
  {
    if calls != [] {
      Reassociate(Encode(calls[0]), EncodeCalls(calls[1..]), rest);
      RoundTrip(limit, calls[0], EncodeCalls(calls[1..]) + rest);
      CallsRoundTrip(limit, calls[1..], rest);
      assert calls == [calls[0]] + calls[1..];
    } else {
      assert EncodeCalls(calls) + rest == rest;
    }
  }

  // ----- the decoder laws ----------------------------------------------------------------------

  /** What a decode means, without its recursion: the one call, of nesting within the limit, whose encoding
      starts the bytes. */
  lemma DecodeExact(limit: nat, bytes: seq<byte>, c: RuntimeCall, used: nat)
    ensures Decode(limit, bytes) == Some((c, used)) <==>
            Nesting(c) <= limit && used == |Encode(c)| && Encode(c) <= bytes
  {
    if Decode(limit, bytes) == Some((c, used)) {
      Sound(limit, bytes);
    }
    if Nesting(c) <= limit && used == |Encode(c)| && Encode(c) <= bytes {
      RoundTrip(limit, c, bytes[used..]);
      assert bytes == Encode(c) + bytes[used..];
    }
  }

  lemma DecodesUnderLarger(small: nat, large: nat, bytes: seq<byte>)
    requires small <= large && Decode(small, bytes).Some?
    ensures Decode(large, bytes) == Decode(small, bytes)
  {
    var (c, used) := Decode(small, bytes).value;
    DecodeExact(small, bytes, c, used);
    DecodeExact(large, bytes, c, used);
  }

  lemma DecodesAlike(limit: nat, bytes: seq<byte>, other: seq<byte>)
    requires Decode(limit, bytes).Some? && Decode(limit, bytes).value.1 <= |bytes|
    requires Decode(limit, bytes).value.1 <= |other|
    requires other[..Decode(limit, bytes).value.1] == bytes[..Decode(limit, bytes).value.1]
    ensures Decode(limit, other) == Decode(limit, bytes)
  {
    var (c, used) := Decode(limit, bytes).value;
    DecodeExact(limit, bytes, c, used);
    DecodeExact(limit, other, c, used);
  }

  lemma CodecLimitStable()
    ensures LimitStable(Decode)
  {
    forall small: nat, large: nat, bytes: seq<byte> | small <= large && Decode(small, bytes).Some?
      ensures Decode(large, bytes) == Decode(small, bytes)
    {
      DecodesUnderLarger(small, large, bytes);
    }
  }

  lemma CodecReadsPrefix()
    ensures ReadsPrefix(Decode)
  {
    forall limit: nat, bytes: seq<byte>, other: seq<byte>
      | Decode(limit, bytes).Some? && Decode(limit, bytes).value.1 <= |other| &&
        other[..Decode(limit, bytes).value.1] == bytes[..Decode(limit, bytes).value.1]
      ensures Decode(limit, other) == Decode(limit, bytes)
    {
      DecodesAlike(limit, bytes, other);
    }
  }

  /** The codec obeys both laws the scanners rely on. */
  lemma CodecLawful()
    ensures LimitStable(Decode) && ReadsPrefix(Decode)
  {
    CodecLimitStable();
    CodecReadsPrefix();
  }

  /** An encoded call decodes to itself, whatever bytes follow, exactly when its nesting is within the limit;
      nested deeper it does not decode as anything else. */
  lemma EncodedDecodes(limit: nat, c: RuntimeCall, rest: seq<byte>)
    ensures Decode(limit, Encode(c) + rest) == if Nesting(c) <= limit then Some((c, |Encode(c)|)) else None
  {
    var bytes := Encode(c) + rest;
    DecodeExact(limit, bytes, c, |Encode(c)|);
    if Decode(limit, bytes).Some? {
      var (d, used) := Decode(limit, bytes).value;
      var high := Max(limit, Nesting(c));
      DecodeExact(limit, bytes, d, used);
      DecodeExact(high, bytes, d, used);
      DecodeExact(high, bytes, c, |Encode(c)|);
    }
  }

  // ----- calls noted as preimages --------------------------------------------------------------

  /** Noting the encoding of a call, with or without bytes after it, is judged like the call itself one
      level down when it decodes there; up to the probe depth it is reported unseen; a deeper one does
      not decode and is not a call to the scan. */
  lemma NotedCallScanned(hit: RuntimeCall -> bool, c: RuntimeCall, rest: seq<byte>, depth: nat)
    requires depth < SCAN_DEPTH
    ensures ScanBytes(Decode, hit, Encode(c) + rest, depth) ==
            if Nesting(c) <= SCAN_DEPTH - depth then Scan(Decode, hit, c, depth) else Nesting(c) <= PROBE_DEPTH
  {
    EncodedDecodes(SCAN_DEPTH - depth, c, rest);
    EncodedDecodes(PROBE_DEPTH, c, rest);
  }

  lemma {:induction false} WrappedReaches(hit: RuntimeCall -> bool, c: RuntimeCall, n: nat)
    requires Reaches(Decode, hit, c)
    ensures Nesting(Wrapped(c, n)) == n + Nesting(c) && Reaches(Decode, hit, Wrapped(c, n))
  {
    if n > 0 {
      WrappedReaches(hit, c, n - 1);
      ReachesBack(Decode, hit, Wrapped(c, n), Wrapped(c, n - 1));
    }
  }

  /** Noting a call nested deeper than the probe looks is admitted, whatever that call reaches. */
  lemma DeepPreimageUnseen(env: Envelopes, c: RuntimeCall, n: nat)
    requires Reaches(Decode, IsShieldEntry, c) && n + Nesting(c) > PROBE_DEPTH
    ensures
      var note := Preimage(NotePreimage(Encode(Wrapped(c, n))));
      QueueFilterContains(Decode, env, note) && Reaches(Decode, IsShieldEntry, note)
  {
    var k := Wrapped(c, n);
    var note := Preimage(NotePreimage(Encode(k)));
    WrappedReaches(IsShieldEntry, c, n);
    TooDeep(k, SCAN_DEPTH - 1);
    TooDeep(k, PROBE_DEPTH);
    NoCallUnseen(Decode, env, Encode(k));
    NotesEncoded(k);
    ReachesBack(Decode, IsShieldEntry, note, k);
  }

  lemma TooDeep(k: RuntimeCall, limit: nat)
    requires limit < Nesting(k)
    ensures Decode(limit, Encode(k)).None?
  {
    EncodedDecodes(limit, k, []);
    assert Encode(k) + [] == Encode(k);
  }

  lemma NotesEncoded(k: RuntimeCall)
    ensures Edge(Decode, Preimage(NotePreimage(Encode(k))), k)
  {
    EncodedDecodes(Nesting(k), k, []);
    assert Encode(k) + [] == Encode(k);
    assert Decode(Nesting(k), Encode(k)) == Some((k, |Encode(k)|));
    assert Notes(Decode, Preimage(NotePreimage(Encode(k))), k);
  }

  /** The characterisation of the queue filter for this codec, free of any assumption about decoding. */
  lemma QueueFilterForCodec(env: Envelopes, c: RuntimeCall)
    ensures QueueFilterContains(Decode, env, c) <==>
            && WithinBudget(Decode, c, 0)
            && !ReachesOpenly(Decode, IsShieldEntry, c)
            && (forall p :: OpenPathTo(Decode, IsQubitum, c, p) ==> AllThrough(Routable, p))
  {
    CodecLawful();
    QueueFilterExact(Decode, env, c);
  }
}
