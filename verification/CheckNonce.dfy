/** `runtime/src/check_nonce.rs`: replay protection, and the tags by which the transaction pool orders
    transactions. */
module CheckNonce {
  import opened Wrappers
  import opened RuntimeCalls

  const NONCE_SPAN: nat := 0x1_0000_0000

  type Nonce = n: nat | n < NONCE_SPAN

  datatype Account = Account(nonce: Nonce, providers: nat, sufficients: nat)

  type Accounts = map<AccountId, Account>

  function Get(s: Accounts, who: AccountId): Account {
    if who in s then s[who] else Account(0, 0, 0)
  }

  datatype Tx = Tx(signer: Option<AccountId>, nonce: Nonce, paysFee: bool)

  /** The encoding of an account and a nonce. */
  datatype Tag = Tag(who: AccountId, nonce: Nonce)

  datatype ValidTransaction = ValidTransaction(requireTags: seq<Tag>, provideTags: seq<Tag>)

  datatype Val = CheckVal(who: AccountId, nonce: Nonce) | RefundVal

  datatype Pre = NonceChecked | RefundPre

  datatype Invalid = Payment | Stale | Future

  function Validate(s: Accounts, tx: Tx): Result<(ValidTransaction, Val), Invalid> {
    match tx.signer
    case None => Ok((ValidTransaction([], []), RefundVal))
    case Some(who) =>
      var account := Get(s, who);
      if tx.paysFee && account.providers == 0 && account.sufficients == 0 then Err(Payment)
      else if tx.nonce < account.nonce then Err(Stale)
      else
        var provideTags := [Tag(who, tx.nonce)];
        var requireTags := if account.nonce < tx.nonce then [Tag(who, tx.nonce - 1)] else [];
        Ok((ValidTransaction(requireTags, provideTags), CheckVal(who, account.nonce)))
  }

  /** `nonce += 1` on 32 bits, in a build without overflow checks. */
  function Next(n: Nonce): Nonce {
    if n + 1 < NONCE_SPAN then n + 1 else 0
  }

  function PrepareVerdict(tx: Tx, val: Val): Result<Pre, Invalid> {
    match val
    case RefundVal => Ok(RefundPre)
    case CheckVal(_, nonce) => if tx.nonce > nonce then Err(Future) else Ok(NonceChecked)
  }

  function Prepared(s: Accounts, tx: Tx, val: Val): Accounts {
    if val.CheckVal? && tx.nonce <= val.nonce then s[val.who := Get(s, val.who).(nonce := Next(val.nonce))] else s
  }

  /** The accounts of the system pallet, which `prepare` updates in place. */
  class System {
    var accounts: Accounts

    method Prepare(tx: Tx, val: Val) returns (r: Result<Pre, Invalid>)
      modifies this
      ensures r == PrepareVerdict(tx, val)
      ensures accounts == Prepared(old(accounts), tx, val)
      ensures r == Err(Future) <==> val.CheckVal? && tx.nonce > val.nonce
      ensures r == Ok(RefundPre) <==> val.RefundVal?
      ensures r != Ok(NonceChecked) ==> accounts == old(accounts)
      ensures r == Ok(NonceChecked) ==>
                Get(accounts, val.who) == Get(old(accounts), val.who).(nonce := (val.nonce + 1) % 0x1_0000_0000)
      ensures r == Ok(NonceChecked) ==> forall a :: a != val.who ==> Get(accounts, a) == Get(old(accounts), a)
    {
      if val.RefundVal? {
        return Ok(RefundPre);
      }
      var who, nonce := val.who, val.nonce;
      if tx.nonce > nonce {
        return Err(Future);
      }
      nonce := Next(nonce);
      var account := Get(accounts, who);
      accounts := accounts[who := account.(nonce := nonce)];
      return Ok(NonceChecked);
    }

    /** Validation and preparation with nothing in between. */
    method Apply(tx: Tx) returns (accepted: bool)
      modifies this
      ensures accepted == Accepts(old(accounts), tx)
      ensures accounts == if accepted then After(old(accounts), tx) else old(accounts)
    {
      var v := Validate(accounts, tx);
      if v.Err? {
        return false;
      }
      var r := Prepare(tx, v.value.1);
      return r.Ok?;
    }
  }

  predicate Accepts(s: Accounts, tx: Tx) {
    Validate(s, tx).Ok? && PrepareVerdict(tx, Validate(s, tx).value.1).Ok?
  }

  function After(s: Accounts, tx: Tx): Accounts
    requires Accepts(s, tx)
  {
    Prepared(s, tx, Validate(s, tx).value.1)
  }

  /** A signed transaction is accepted exactly at its account's nonce, if the account may hold one; it moves
      that nonce on by one and changes no other account. */
  lemma AcceptsExact(s: Accounts, tx: Tx, who: AccountId)
    requires tx.signer == Some(who)
    ensures Accepts(s, tx) <==>
            tx.nonce == Get(s, who).nonce && (tx.paysFee ==> Get(s, who).providers > 0 || Get(s, who).sufficients > 0)
    ensures Accepts(s, tx) ==>
              forall a :: Get(After(s, tx), a) == if a == who then Get(s, who).(nonce := Next(tx.nonce)) else Get(s, a)
  {
  }

  /** Validation lets a transaction into the pool exactly if it is unsigned, or not behind its account, however
      far ahead, and its account may hold a nonce if it pays a fee. */
  lemma ValidateExact(s: Accounts, tx: Tx)
    ensures tx.signer.None? ==> Validate(s, tx) == Ok((ValidTransaction([], []), RefundVal))
    ensures tx.signer.Some? ==>
              var account := Get(s, tx.signer.value);
              var unpaid := tx.paysFee && account.providers == 0 && account.sufficients == 0;
              && (Validate(s, tx).Ok? <==> !unpaid && tx.nonce >= account.nonce)
              && (Validate(s, tx) == Err(Payment) <==> unpaid)
              && (Validate(s, tx) == Err(Stale) <==> !unpaid && tx.nonce < account.nonce)
  {
  }

  /** The tags of a transaction let into the pool: it provides its own nonce, and requires the one before exactly
      if it is ahead of its account. Preparation gets the account and its nonce. */
  lemma TagsExact(s: Accounts, tx: Tx, who: AccountId)
    requires tx.signer == Some(who) && Validate(s, tx).Ok?
    ensures Validate(s, tx).value.0.provideTags == [Tag(who, tx.nonce)]
    ensures tx.nonce == Get(s, who).nonce ==> Validate(s, tx).value.0.requireTags == []
    ensures tx.nonce > Get(s, who).nonce ==> Validate(s, tx).value.0.requireTags == [Tag(who, tx.nonce - 1)]
    ensures Validate(s, tx).value.1 == CheckVal(who, Get(s, who).nonce)
  {
  }

  /** An account that does not exist is at nonce zero and may not hold one: only free transactions are accepted. */
  lemma MissingAccount(s: Accounts, who: AccountId, nonce: Nonce, paysFee: bool)
    requires who !in s
    ensures Accepts(s, Tx(Some(who), nonce, paysFee)) <==> nonce == 0 && !paysFee
  {
  }

  // ----- runs ----------------------------------------------------------------------------------

  /** Transactions applied one after the other, the rejected ones dropped. */
  datatype Outcome = Outcome(accounts: Accounts, accepted: seq<Tx>)

  function Run(s: Accounts, txs: seq<Tx>): Outcome
    decreases |txs|
  {
    if txs == [] then Outcome(s, [])
    else
      var before := Run(s, txs[..|txs| - 1]);
      var tx := txs[|txs| - 1];
      if Accepts(before.accounts, tx) then Outcome(After(before.accounts, tx), before.accepted + [tx]) else before
  }

  /** The nonces a sequence of transactions uses of one account, in order. */
  function NoncesOf(txs: seq<Tx>, who: AccountId): seq<Nonce> {
    if txs == [] then []
    else
      var front := NoncesOf(txs[..|txs| - 1], who);
      var tx := txs[|txs| - 1];
      if tx.signer == Some(who) then front + [tx.nonce] else front
  }

  lemma NoncesOfMore(txs: seq<Tx>, tx: Tx, who: AccountId)
    ensures NoncesOf(txs + [tx], who) == NoncesOf(txs, who) + (if tx.signer == Some(who) then [tx.nonce] else [])
  {
    assert (txs + [tx])[..|txs|] == txs;
  }

  /** The `i`-th nonce after `base` on a counter of 32 bits. */
  function Ahead(base: Nonce, i: nat): Nonce
    decreases i, base
  {
    if i == 0 then base else Next(Ahead(base, i - 1))
  }

  lemma {:induction false} AheadWraps(base: Nonce, i: nat)
    ensures Ahead(base, i) == (base + i) % NONCE_SPAN
  {
    if i > 0 {
      AheadWraps(base, i - 1);
      NextWraps(base + i - 1);
    }
  }

  lemma NextWraps(x: nat)
    ensures (x + 1) % NONCE_SPAN == Next(x % NONCE_SPAN)
  {
  }

  ghost predicate CountsUp(used: seq<Nonce>, base: Nonce) {
    forall i :: 0 <= i < |used| ==> used[i] == Ahead(base, i)
  }

  /** Over every run the nonces accepted from an account count up from its first one, without a gap, modulo
      the width of the counter, which ends up at the next one. */
  lemma {:induction false} NoncesCountUp(s: Accounts, txs: seq<Tx>, who: AccountId)
    ensures CountsUp(NoncesOf(Run(s, txs).accepted, who), Get(s, who).nonce)
    ensures Get(Run(s, txs).accounts, who) ==
            Get(s, who).(nonce := Ahead(Get(s, who).nonce, |NoncesOf(Run(s, txs).accepted, who)|))
    decreases |txs|
  {
    if txs != [] {
      var before, tx := Run(s, txs[..|txs| - 1]), txs[|txs| - 1];
      NoncesCountUp(s, txs[..|txs| - 1], who);
      if Accepts(before.accounts, tx) {
        NoncesOfMore(before.accepted, tx, who);
        if tx.signer.Some? {
          AcceptsExact(before.accounts, tx, tx.signer.value);
        }
      }
    }
  }

  /** Two accepted transactions of an account carry the same nonce exactly when a whole turn of the counter
      lies between them, so within one turn nothing is replayed. */
  lemma ReplayedIff(s: Accounts, txs: seq<Tx>, who: AccountId, i: nat, j: nat)
    requires i < j < |NoncesOf(Run(s, txs).accepted, who)|
    ensures NoncesOf(Run(s, txs).accepted, who)[i] == NoncesOf(Run(s, txs).accepted, who)[j] <==>
            (j - i) % 0x1_0000_0000 == 0
  {
    NoncesCountUp(s, txs, who);
    AheadSame(Get(s, who).nonce, i, j);
  }

  lemma AheadSame(base: Nonce, i: nat, j: nat)
    requires i <= j
    ensures Ahead(base, i) == Ahead(base, j) <==> (j - i) % NONCE_SPAN == 0
  {
    AheadWraps(base, i);
    AheadWraps(base, j);
    SameResidue(base + i, base + j);
  }

  lemma SameResidue(x: nat, y: nat)
    requires x <= y
    ensures x % NONCE_SPAN == y % NONCE_SPAN <==> (y - x) % NONCE_SPAN == 0
  {
    var turns, rest := y / NONCE_SPAN - x / NONCE_SPAN, y % NONCE_SPAN - x % NONCE_SPAN;
    assert y - x == turns * NONCE_SPAN + rest;
  }

  /** The next `n` transactions of an account. */
  function Consecutive(who: AccountId, base: Nonce, paysFee: bool, n: nat): (txs: seq<Tx>)
    ensures |txs| == n
    decreases n, base
  {
    if n == 0 then [] else Consecutive(who, base, paysFee, n - 1) + [Tx(Some(who), Ahead(base, n - 1), paysFee)]
  }

  lemma {:induction false} ConsecutiveAt(who: AccountId, base: Nonce, paysFee: bool, n: nat, i: nat)
    requires i < n
    ensures Consecutive(who, base, paysFee, n)[i] == Tx(Some(who), Ahead(base, i), paysFee)
  {
    if i < n - 1 {
      ConsecutiveAt(who, base, paysFee, n - 1, i);
    }
  }

  /** As many transactions as one likes can be accepted from an account that may hold a nonce. */
  lemma {:induction false} AnyNumberAccepted(s: Accounts, who: AccountId, paysFee: bool, n: nat)
    requires paysFee ==> Get(s, who).providers > 0 || Get(s, who).sufficients > 0
    ensures
      var txs := Consecutive(who, Get(s, who).nonce, paysFee, n);
      Run(s, txs).accepted == txs && |NoncesOf(txs, who)| == n
    decreases n
  {
    if n > 0 {
      var base := Get(s, who).nonce;
      var front, tx := Consecutive(who, base, paysFee, n - 1), Tx(Some(who), Ahead(base, n - 1), paysFee);
      AnyNumberAccepted(s, who, paysFee, n - 1);
      NextAccepted(s, front, tx, who);
    }
  }

  lemma NextAccepted(s: Accounts, front: seq<Tx>, tx: Tx, who: AccountId)
    requires tx.paysFee ==> Get(s, who).providers > 0 || Get(s, who).sufficients > 0
    requires Run(s, front).accepted == front && |NoncesOf(front, who)| == |front|
    requires tx.signer == Some(who) && tx.nonce == Ahead(Get(s, who).nonce, |front|)
    ensures Run(s, front + [tx]).accepted == front + [tx] && |NoncesOf(front + [tx], who)| == |front + [tx]|
  {
    NoncesCountUp(s, front, who);
    NoncesOfMore(front, tx, who);
    AcceptsExact(Run(s, front).accounts, tx, who);
    assert (front + [tx])[..|front|] == front;
  }

  /** So a replay happens: the transaction after a whole turn of the counter is the first one again, and it is
      accepted again. */
  lemma ReplayHappens(s: Accounts, who: AccountId, paysFee: bool)
    requires paysFee ==> Get(s, who).providers > 0 || Get(s, who).sufficients > 0
    ensures
      var txs := Consecutive(who, Get(s, who).nonce, paysFee, NONCE_SPAN + 1);
      Run(s, txs).accepted == txs && txs[0] == txs[NONCE_SPAN]
  {
    var base := Get(s, who).nonce;
    AnyNumberAccepted(s, who, paysFee, NONCE_SPAN + 1);
    ConsecutiveAt(who, base, paysFee, NONCE_SPAN + 1, 0);
    ConsecutiveAt(who, base, paysFee, NONCE_SPAN + 1, NONCE_SPAN);
    AheadSame(base, 0, NONCE_SPAN);
  }

  // ----- pool tags -----------------------------------------------------------------------------

  function Provides(s: Accounts, tx: Tx): seq<Tag> {
    if Validate(s, tx).Ok? then Validate(s, tx).value.0.provideTags else []
  }

  function Requires(s: Accounts, tx: Tx): seq<Tag> {
    if Validate(s, tx).Ok? then Validate(s, tx).value.0.requireTags else []
  }

  ghost predicate ProvidedBy(s: Accounts, txs: seq<Tx>, tag: Tag) {
    exists i :: 0 <= i < |txs| && tag in Provides(s, txs[i])
  }

  /** Transactions the pool holds together: each validated against `s`, no two providing the same tag. */
  ghost predicate Pooled(s: Accounts, txs: seq<Tx>) {
    && (forall i :: 0 <= i < |txs| ==> Validate(s, txs[i]).Ok?)
    && (forall i, j, tag :: 0 <= i < j < |txs| && tag in Provides(s, txs[i]) ==> tag !in Provides(s, txs[j]))
  }

  /** Not behind its account, and paid for. */
  ghost predicate Poolable(s: Accounts, tx: Tx) {
    tx.signer.Some? ==>
      && tx.nonce >= Get(s, tx.signer.value).nonce
      && (tx.paysFee ==> Get(s, tx.signer.value).providers > 0 || Get(s, tx.signer.value).sufficients > 0)
  }

  /** Of one account and with one nonce. */
  ghost predicate Rivals(tx: Tx, tx': Tx) {
    tx.signer.Some? && tx.signer == tx'.signer && tx.nonce == tx'.nonce
  }

  lemma PoolableIff(s: Accounts, tx: Tx)
    ensures Poolable(s, tx) <==> Validate(s, tx).Ok?
  {
    ValidateExact(s, tx);
  }

  lemma RivalsIff(s: Accounts, tx: Tx, tx': Tx)
    requires Validate(s, tx).Ok? && Validate(s, tx').Ok?
    ensures Rivals(tx, tx') <==> exists tag :: tag in Provides(s, tx) && tag in Provides(s, tx')
  {
    if tx.signer.Some? {
      TagsExact(s, tx, tx.signer.value);
      assert Tag(tx.signer.value, tx.nonce) in Provides(s, tx);
    }
    if tx'.signer.Some? {
      TagsExact(s, tx', tx'.signer.value);
    }
  }

  /** Transactions can be pooled together exactly if none is behind its account or unpaid for, and no two are of
      one account and with one nonce; their order plays no part. */
  lemma PooledIff(s: Accounts, txs: seq<Tx>)
    ensures Pooled(s, txs) <==>
            && (forall i :: 0 <= i < |txs| ==> Poolable(s, txs[i]))
            && (forall i, j :: 0 <= i < j < |txs| ==> !Rivals(txs[i], txs[j]))
  {
    forall i | 0 <= i < |txs| ensures Poolable(s, txs[i]) <==> Validate(s, txs[i]).Ok? {
      PoolableIff(s, txs[i]);
    }
    if forall i :: 0 <= i < |txs| ==> Validate(s, txs[i]).Ok? {
      forall i, j | 0 <= i < j < |txs|
        ensures Rivals(txs[i], txs[j]) <==> exists tag :: tag in Provides(s, txs[i]) && tag in Provides(s, txs[j])
      {
        RivalsIff(s, txs[i], txs[j]);
      }
    }
  }

  ghost predicate Distinct(ahead: seq<nat>) {
    forall i, j :: 0 <= i < j < |ahead| ==> ahead[i] != ahead[j]
  }

  /** The next transactions of an account, up to its last nonce, are pooled in whatever order they come. */
  lemma NextPooled(s: Accounts, who: AccountId, paysFee: bool, ahead: seq<nat>)
    requires paysFee ==> Get(s, who).providers > 0 || Get(s, who).sufficients > 0
    requires InRange(Get(s, who).nonce, ahead)
    requires Distinct(ahead)
    ensures Pooled(s, TxsAhead(s, who, paysFee, ahead))
  {
    PooledIff(s, TxsAhead(s, who, paysFee, ahead));
  }

  /** No nonce so far ahead of `base` is beyond the last one. */
  ghost predicate InRange(base: Nonce, ahead: seq<nat>) {
    forall i :: 0 <= i < |ahead| ==> base + ahead[i] < NONCE_SPAN
  }

  /** Transactions of one account, each so many nonces ahead of it. */
  ghost function TxsAhead(s: Accounts, who: AccountId, paysFee: bool, ahead: seq<nat>): seq<Tx>
    requires InRange(Get(s, who).nonce, ahead)
  {
    seq(|ahead|, i requires 0 <= i < |ahead| => Tx(Some(who), Get(s, who).nonce + ahead[i], paysFee))
  }

  /** Every tag a transaction requires is provided by one before it. */
  ghost predicate TagOrdered(s: Accounts, txs: seq<Tx>) {
    forall j, tag :: 0 <= j < |txs| && tag in Requires(s, txs[j]) ==> ProvidedBy(s, txs[..j], tag)
  }

  /** What holds of an account once a prefix of the pool has been accepted entirely: it has moved on by the
      number of its transactions, and the tags provided are those of the nonces it has moved past. */
  ghost predicate MovedPast(s: Accounts, txs: seq<Tx>, now: Accounts, who: AccountId) {
    var base, count := Get(s, who).nonce, |NoncesOf(txs, who)|;
    && base + count <= NONCE_SPAN
    && Get(now, who) == Get(s, who).(nonce := if base + count < NONCE_SPAN then base + count else 0)
    && forall n: Nonce :: ProvidedBy(s, txs, Tag(who, n)) <==> base <= n < base + count
  }

  lemma ProvidedByMore(s: Accounts, txs: seq<Tx>, tx: Tx, tag: Tag)
    ensures ProvidedBy(s, txs + [tx], tag) <==> ProvidedBy(s, txs, tag) || tag in Provides(s, tx)
  {
    if i :| 0 <= i < |txs| && tag in Provides(s, txs[i]) {
      assert (txs + [tx])[i] == txs[i];
    }
    assert (txs + [tx])[|txs|] == tx;
  }

  ghost predicate RequiresMet(s: Accounts, txs: seq<Tx>, tx: Tx) {
    forall tag :: tag in Requires(s, tx) ==> ProvidedBy(s, txs, tag)
  }

  ghost predicate ProvidesNew(s: Accounts, txs: seq<Tx>, tx: Tx) {
    forall tag :: tag in Provides(s, tx) ==> !ProvidedBy(s, txs, tag)
  }

  /** After a prefix accepted entirely, the next transaction is accepted exactly when the prefix provides what
      it requires. */
  lemma NextInPool(s: Accounts, txs: seq<Tx>, now: Accounts, tx: Tx)
    requires Validate(s, tx).Ok? && ProvidesNew(s, txs, tx)
    requires tx.signer.Some? ==> MovedPast(s, txs, now, tx.signer.value)
    ensures Accepts(now, tx) <==> RequiresMet(s, txs, tx)
  {
    if tx.signer.Some? {
      var who := tx.signer.value;
      var base, count := Get(s, who).nonce, |NoncesOf(txs, who)|;
      AcceptsExact(now, tx, who);
      assert Tag(who, tx.nonce) in Provides(s, tx);
      assert tx.nonce >= base + count;
      if base < tx.nonce {
        assert Requires(s, tx) == [Tag(who, tx.nonce - 1)];
        assert RequiresMet(s, txs, tx) <==> ProvidedBy(s, txs, Tag(who, tx.nonce - 1));
      }
    }
  }

  lemma ProvidedNext(s: Accounts, txs: seq<Tx>, tx: Tx, who: AccountId, n: Nonce)
    requires Validate(s, tx).Ok?
    ensures ProvidedBy(s, txs + [tx], Tag(who, n)) <==>
            ProvidedBy(s, txs, Tag(who, n)) || (tx.signer == Some(who) && n == tx.nonce)
  {
    ProvidedByMore(s, txs, tx, Tag(who, n));
  }

  /** An account's next transaction in the pool carries the nonce the account has moved to. */
  lemma NextNonce(s: Accounts, txs: seq<Tx>, now: Accounts, tx: Tx, who: AccountId)
    requires tx.signer == Some(who) && Validate(s, tx).Ok? && ProvidesNew(s, txs, tx) && Accepts(now, tx)
    requires MovedPast(s, txs, now, who)
    ensures tx.nonce == Get(s, who).nonce + |NoncesOf(txs, who)|
    ensures Get(After(now, tx), who) == Get(s, who).(nonce := Next(tx.nonce))
  {
    AcceptsExact(now, tx, who);
    assert Tag(who, tx.nonce) in Provides(s, tx);
    assert !ProvidedBy(s, txs, Tag(who, tx.nonce));
  }

  lemma NonceStays(now: Accounts, tx: Tx, who: AccountId)
    requires tx.signer != Some(who) && Accepts(now, tx)
    ensures Get(After(now, tx), who) == Get(now, who)
  {
    if tx.signer.Some? {
      AcceptsExact(now, tx, tx.signer.value);
    }
  }

  lemma MovedPastNext(s: Accounts, txs: seq<Tx>, now: Accounts, tx: Tx, who: AccountId)
    requires Validate(s, tx).Ok? && ProvidesNew(s, txs, tx) && Accepts(now, tx)
    requires MovedPast(s, txs, now, who)
    ensures MovedPast(s, txs + [tx], After(now, tx), who)
  {
    NoncesOfMore(txs, tx, who);
    if tx.signer == Some(who) {
      NextNonce(s, txs, now, tx, who);
    } else {
      NonceStays(now, tx, who);
    }
    forall n: Nonce
      ensures ProvidedBy(s, txs + [tx], Tag(who, n)) <==>
              ProvidedBy(s, txs, Tag(who, n)) || (tx.signer == Some(who) && n == tx.nonce)
    {
      ProvidedNext(s, txs, tx, who, n);
    }
  }

  /** Whether every transaction is accepted, and the accounts after the last one. */
  function AllAccepted(s: Accounts, txs: seq<Tx>): Option<Accounts>
    decreases |txs|
  {
    if txs == [] then Some(s)
    else
      match AllAccepted(s, txs[..|txs| - 1])
      case None => None
      case Some(now) =>
        var tx := txs[|txs| - 1];
        if Accepts(now, tx) then Some(After(now, tx)) else None
  }

  lemma TagOrderedMore(s: Accounts, txs: seq<Tx>, tx: Tx)
    ensures TagOrdered(s, txs + [tx]) <==> TagOrdered(s, txs) && RequiresMet(s, txs, tx)
  {
    var all := txs + [tx];
    forall j | 0 <= j < |txs| ensures all[j] == txs[j] && all[..j] == txs[..j] {
    }
    assert all[|txs|] == tx && all[..|txs|] == txs;
  }

  lemma PooledMore(s: Accounts, txs: seq<Tx>, tx: Tx)
    requires Pooled(s, txs + [tx])
    ensures Pooled(s, txs) && Validate(s, tx).Ok? && ProvidesNew(s, txs, tx)
  {
    var all := txs + [tx];
    forall j | 0 <= j < |txs| ensures all[j] == txs[j] {
    }
    assert all[|txs|] == tx;
  }

  /** The tags are exactly right: pooled transactions, of any accounts and in any order, are all accepted one
      after the other if and only if each comes after those whose tags it requires. */
  lemma {:induction false} PoolTagsExact(s: Accounts, txs: seq<Tx>)
    requires Pooled(s, txs)
    ensures AllAccepted(s, txs).Some? <==> TagOrdered(s, txs)
    ensures AllAccepted(s, txs).Some? ==> forall who :: MovedPast(s, txs, AllAccepted(s, txs).value, who)
    decreases |txs|
  {
    if txs == [] {
      assert forall who, n: Nonce :: !ProvidedBy(s, txs, Tag(who, n));
    } else {
      var front, tx := txs[..|txs| - 1], txs[|txs| - 1];
      assert txs == front + [tx];
      PooledMore(s, front, tx);
      TagOrderedMore(s, front, tx);
      PoolTagsExact(s, front);
      if AllAccepted(s, front).Some? {
        var now := AllAccepted(s, front).value;
        NextInPool(s, front, now, tx);
        if Accepts(now, tx) {
          forall who ensures MovedPast(s, txs, After(now, tx), who) {
            MovedPastNext(s, front, now, tx, who);
          }
        }
      }
    }
  }

  ghost predicate Counting(ahead: seq<nat>) {
    forall i :: 0 <= i < |ahead| ==> ahead[i] == i
  }

  /** `now` is where applying such transactions leads, if all are accepted. */
  ghost predicate Leads(s: Accounts, who: AccountId, ahead: seq<nat>, now: Option<Accounts>) {
    && (now.Some? <==> Counting(ahead))
    && (now.Some? ==> Get(now.value, who) == Get(s, who).(nonce := Ahead(Get(s, who).nonce, |ahead|)))
  }

  /** And applied one after the other, such transactions are all accepted exactly if they come in the order of
      their nonces, from the account's own on. */
  lemma {:induction false} AcceptedInOrderIff(s: Accounts, who: AccountId, paysFee: bool, ahead: seq<nat>)
    requires paysFee ==> Get(s, who).providers > 0 || Get(s, who).sufficients > 0
    requires InRange(Get(s, who).nonce, ahead)
    requires Distinct(ahead)
    ensures Leads(s, who, ahead, AllAccepted(s, TxsAhead(s, who, paysFee, ahead)))
    decreases |ahead|
  {
    if ahead != [] {
      var front, last := ahead[..|ahead| - 1], ahead[|ahead| - 1];
      assert ahead == front + [last];
      TxsAheadMore(s, who, paysFee, front, last);
      DistinctFront(front, last);
      AcceptedInOrderIff(s, who, paysFee, front);
      var txs, tx := TxsAhead(s, who, paysFee, front), Tx(Some(who), Get(s, who).nonce + last, paysFee);
      AllAcceptedMore(s, txs, tx);
      LeadsOn(s, who, front, last, ahead, AllAccepted(s, txs), tx);
    }
  }

  lemma TxsAheadMore(s: Accounts, who: AccountId, paysFee: bool, front: seq<nat>, last: nat)
    requires InRange(Get(s, who).nonce, front + [last])
    ensures InRange(Get(s, who).nonce, front) && Get(s, who).nonce + last < NONCE_SPAN
    ensures TxsAhead(s, who, paysFee, front + [last]) ==
            TxsAhead(s, who, paysFee, front) + [Tx(Some(who), Get(s, who).nonce + last, paysFee)]
  {
    assert (front + [last])[|front|] == last;
    assert forall i :: 0 <= i < |front| ==> (front + [last])[i] == front[i];
  }

  lemma AllAcceptedMore(s: Accounts, txs: seq<Tx>, tx: Tx)
    ensures AllAccepted(s, txs + [tx]) ==
            match AllAccepted(s, txs)
            case None => None
            case Some(now) => if Accepts(now, tx) then Some(After(now, tx)) else None
  {
    assert (txs + [tx])[..|txs|] == txs;
  }

  lemma LeadsOn(s: Accounts, who: AccountId, front: seq<nat>, last: nat, ahead: seq<nat>, before: Option<Accounts>, tx: Tx)
    requires ahead == front + [last] && Distinct(ahead) && Leads(s, who, front, before)
    requires InRange(Get(s, who).nonce, ahead)
    requires tx.signer == Some(who) && tx.nonce == Get(s, who).nonce + last
    requires tx.paysFee ==> Get(s, who).providers > 0 || Get(s, who).sufficients > 0
    ensures Leads(s, who, ahead,
                  if before.Some? && Accepts(before.value, tx) then Some(After(before.value, tx)) else None)
  {
    assert Counting(ahead) ==> Counting(front) by {
      assert forall i :: 0 <= i < |front| ==> front[i] == ahead[i];
    }
    if before.Some? {
      AcceptsExact(before.value, tx, who);
      LastCounts(Get(s, who).nonce, front, last, ahead);
    }
  }

  lemma {:induction false} AheadToLast(base: Nonce, n: nat)
    requires base + n <= NONCE_SPAN
    ensures Ahead(base, n) == if base + n < NONCE_SPAN then base + n else 0
  {
    if n > 0 {
      AheadToLast(base, n - 1);
    }
  }

  lemma LastCounts(base: Nonce, front: seq<nat>, last: nat, ahead: seq<nat>)
    requires ahead == front + [last] && Distinct(ahead) && Counting(front) && InRange(base, ahead)
    ensures base + last == Ahead(base, |front|) <==> Counting(ahead)
  {
    var n := |front|;
    assert ahead[n] == last;
    if front != [] {
      assert ahead[n - 1] == front[n - 1] == n - 1;
      assert ahead[0] == front[0] == 0;
      assert last != 0;
    }
    AheadToLast(base, n);
    assert base + last == Ahead(base, n) <==> last == n;
    assert Counting(ahead) <==> last == n;
  }

  lemma DistinctFront(front: seq<nat>, last: nat)
    requires Distinct(front + [last])
    ensures Distinct(front)
  {
    assert forall i :: 0 <= i < |front| ==> (front + [last])[i] == front[i];
  }
}
