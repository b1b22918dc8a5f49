/** `runtime/src/transaction_payment_wrapper.rs`: who pays the fee of a proxied call. */
module FeePayer {
  import opened Wrappers
  import opened RuntimeCalls

  /** `RealPaysFee`: the pairs of a real account and a delegate it pays fees for. */
  type OptIns = set<(AccountId, AccountId)>

  /** The storage reads that the extension's weight accounts for. */
  const READS_CHARGED: nat := 3

  /** `AccountIdLookup::lookup`. */
  function Lookup(a: MultiAddress): Option<AccountId> {
    match a
    case Id(account) => Some(account)
    case OtherAddress(_) => None
  }

  datatype ProxyParts = ProxyParts(realAccount: AccountId, delegate: AccountId, call: RuntimeCall)

  /** `extract_proxy_parts`; announced proxies are left aside on purpose. */
  function ExtractProxyParts(c: RuntimeCall, signer: AccountId): Option<ProxyParts> {
    match c
    case Proxy(Proxied(source, call)) => (
      match Lookup(source)
      case None => None
      case Some(account) => Some(ProxyParts(account, signer, call)))
    case _ => None
  }

  /** The calls of any of the three batches. */
  function BatchItems(c: RuntimeCall): Option<seq<RuntimeCall>> {
    match c
    case Utility(Batch(calls)) => Some(calls)
    case Utility(BatchAll(calls)) => Some(calls)
    case Utility(ForceBatch(calls)) => Some(calls)
    case _ => None
  }

  // ----- what the payer should be --------------------------------------------------------------

  /** `c` is a proxy call on behalf of `account`. */
  predicate ProxiesFor(c: RuntimeCall, account: AccountId) {
    c.Proxy? && c.proxy.Proxied? && c.proxy.realSource == Id(account)
  }

  /** The batch is not empty, all of it is proxied for `payer`, and `payer` pays for `outer`. */
  predicate BatchPaidBy(optIns: OptIns, items: seq<RuntimeCall>, outer: AccountId, payer: AccountId) {
    && items != []
    && (forall i :: 0 <= i < |items| ==> ProxiesFor(items[i], payer))
    && (payer, outer) in optIns
  }

  /** One of the three batches. */
  predicate IsBatch(c: RuntimeCall) {
    c.Utility? && (c.utility.Batch? || c.utility.BatchAll? || c.utility.ForceBatch?)
  }

  /** The fee passes on from `outer` to `payer` through the call that `outer` is the proxied origin of. */
  predicate PassesOn(optIns: OptIns, c: RuntimeCall, outer: AccountId, payer: AccountId) {
    || (ProxiesFor(c, payer) && (payer, outer) in optIns)
    || (IsBatch(c) && BatchPaidBy(optIns, c.utility.calls, outer, payer))
  }

  /** `payer` pays instead of the signer: the account the call is proxied for pays for the signer, and `payer`
      is whom the fee passes on to from there, or that account itself if it passes on to no one. */
  ghost predicate PaysFor(optIns: OptIns, c: RuntimeCall, signer: Option<AccountId>, payer: AccountId) {
    && signer.Some?
    && c.Proxy? && c.proxy.Proxied? && c.proxy.realSource.Id?
    && var outer := c.proxy.realSource.account;
       && (outer, signer.value) in optIns
       && (|| PassesOn(optIns, c.proxy.call, outer, payer)
           || (payer == outer && forall p :: !PassesOn(optIns, c.proxy.call, outer, p)))
  }

  // ----- what the code does --------------------------------------------------------------------

  /** `extract_inner_proxy_payer`, with the number of opt-in reads. */
  method ExtractInnerProxyPayer(optIns: OptIns, c: RuntimeCall, outer: AccountId) returns (r: Option<AccountId>, lookups: nat)
    ensures forall p :: r == Some(p) <==> ProxiesFor(c, p) && (p, outer) in optIns
    ensures lookups == if c.Proxy? && c.proxy.Proxied? && c.proxy.realSource.Id? then 1 else 0
  {
    var parts := ExtractProxyParts(c, outer);
    if parts.None? {
      return None, 0;
    }
    if (parts.value.realAccount, parts.value.delegate) in optIns {
      return Some(parts.value.realAccount), 1;
    }
    return None, 1;
  }

  /** `extract_batch_proxy_payer`: one opt-in read, made for the first item, answers for the whole batch. */
  method ExtractBatchProxyPayer(optIns: OptIns, c: RuntimeCall, outer: AccountId) returns (r: Option<AccountId>, lookups: nat)
    ensures forall p :: r == Some(p) <==>
              && c.Utility? && (c.utility.Batch? || c.utility.BatchAll? || c.utility.ForceBatch?)
              && BatchPaidBy(optIns, c.utility.calls, outer, p)
    ensures lookups <= 1 && (!IsBatch(c) ==> lookups == 0)
  {
    lookups := 0;
    var items := BatchItems(c);
    if items.None? {
      return None, 0;
    }
    var calls := items.value;
    if calls == [] {
      return None, 0;
    }
    var common: Option<AccountId> := None;
    for k := 0 to |calls|
      invariant common.None? <==> k == 0
      invariant common.Some? ==> (common.value, outer) in optIns
      invariant forall i :: 0 <= i < k ==> ProxiesFor(calls[i], common.value)
      invariant lookups == if k == 0 then 0 else 1
    {
      var parts := ExtractProxyParts(calls[k], outer);
      if parts.None? {
        assert forall p :: !ProxiesFor(calls[k], p);
        return None, lookups;
      }
      var inner := parts.value.realAccount;
      assert forall p :: ProxiesFor(calls[k], p) ==> p == inner;
      if common.None? {
        lookups := lookups + 1;
        if (inner, parts.value.delegate) !in optIns {
          return None, lookups;
        }
        common := Some(inner);
      } else if common.value != inner {
        assert ProxiesFor(calls[0], common.value);
        return None, lookups;
      }
    }
    assert ProxiesFor(calls[0], common.value);
    return common, lookups;
  }

  /** `extract_real_fee_payer`: the payer is the account the fee passes on to, or else the outer real account
      if it pays for the signer; at most two opt-ins are read, within the three charged for. */
  method ExtractRealFeePayer(optIns: OptIns, c: RuntimeCall, signer: Option<AccountId>) returns (r: Option<AccountId>, lookups: nat)
    ensures forall p :: r == Some(p) <==> PaysFor(optIns, c, signer, p)
    ensures lookups <= 2 && lookups < READS_CHARGED
  {
    if signer.None? {
      return None, 0;
    }
    var parts := ExtractProxyParts(c, signer.value);
    if parts.None? {
      return None, 0;
    }
    var outer := parts.value.realAccount;
    lookups := 1;
    if (outer, parts.value.delegate) !in optIns {
      return None, lookups;
    }
    var inner := parts.value.call;
    var payer, innerReads := ExtractInnerProxyPayer(optIns, inner, outer);
    lookups := lookups + innerReads;
    if payer.Some? {
      assert ProxiesFor(inner, payer.value);
      PassesOnToOne(optIns, inner, outer, payer.value);
      assert PaysFor(optIns, c, signer, payer.value);
      return payer, lookups;
    }
    var batchReads;
    payer, batchReads := ExtractBatchProxyPayer(optIns, inner, outer);
    lookups := lookups + batchReads;
    if payer.Some? {
      assert BatchPaidBy(optIns, inner.utility.calls, outer, payer.value);
      PassesOnToOne(optIns, inner, outer, payer.value);
      assert PaysFor(optIns, c, signer, payer.value);
      return payer, lookups;
    }
    return Some(outer), lookups;
  }

  // ----- what the answer means -----------------------------------------------------------------

  lemma PassesOnToOne(optIns: OptIns, c: RuntimeCall, outer: AccountId, p: AccountId)
    requires PassesOn(optIns, c, outer, p)
    ensures forall q :: PassesOn(optIns, c, outer, q) ==> q == p
  {
    if IsBatch(c) {
      var items := c.utility.calls;
      assert ProxiesFor(items[0], p);
      forall q | PassesOn(optIns, c, outer, q) ensures q == p {
        assert ProxiesFor(items[0], q);
      }
    }
  }

  /** The two ways of passing the fee on exclude each other, so the order they are tried in is immaterial. */
  lemma CasesDisjoint(c: RuntimeCall, signer: AccountId)
    ensures ExtractProxyParts(c, signer).None? || BatchItems(c).None?
    ensures ExtractProxyParts(c, signer).Some? <==> exists a :: ProxiesFor(c, a)
    ensures BatchItems(c).Some? <==> IsBatch(c)
  {
    if ExtractProxyParts(c, signer).Some? {
      assert ProxiesFor(c, c.proxy.realSource.account);
    }
  }

  /** Whoever pays instead of the signer is joined to the signer by one opt-in, or by two that follow the
      nesting of the proxy calls, and is named in the call as a real account. */
  lemma PayerChain(optIns: OptIns, c: RuntimeCall, signer: AccountId, payer: AccountId)
    requires PaysFor(optIns, c, Some(signer), payer)
    ensures exists outer ::
              && ProxiesFor(c, outer) && (outer, signer) in optIns
              && (payer == outer ||
                  ((payer, outer) in optIns &&
                   (ProxiesFor(c.proxy.call, payer) ||
                    (IsBatch(c.proxy.call) && exists k :: k in c.proxy.call.utility.calls && ProxiesFor(k, payer)))))
  {
    var outer := c.proxy.realSource.account;
    assert ProxiesFor(c, outer);
    if IsBatch(c.proxy.call) && PassesOn(optIns, c.proxy.call, outer, payer) {
      var items := c.proxy.call.utility.calls;
      assert items[0] in items && ProxiesFor(items[0], payer);
    }
  }

  /** The payer of a batch depends only on which calls occur in it, not on their order or number, although
      the code looks the opt-in up for the first item only. */
  lemma BatchOrderIrrelevant(optIns: OptIns, a: seq<RuntimeCall>, b: seq<RuntimeCall>, outer: AccountId, payer: AccountId)
    requires forall c :: c in a <==> c in b
    ensures BatchPaidBy(optIns, a, outer, payer) <==> BatchPaidBy(optIns, b, outer, payer)
  {
    BatchByMembers(optIns, a, outer, payer);
    BatchByMembers(optIns, b, outer, payer);
    assert a == [] || a[0] in a;
    assert b == [] || b[0] in b;
  }

  lemma BatchByMembers(optIns: OptIns, items: seq<RuntimeCall>, outer: AccountId, payer: AccountId)
    ensures BatchPaidBy(optIns, items, outer, payer) <==>
            items != [] && (forall c :: c in items ==> ProxiesFor(c, payer)) && (payer, outer) in optIns
  {
    if forall c :: c in items ==> ProxiesFor(c, payer) {
      forall i | 0 <= i < |items| ensures ProxiesFor(items[i], payer) {
        assert items[i] in items;
      }
    }
  }
}
