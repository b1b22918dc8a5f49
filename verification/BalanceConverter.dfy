/** `SubtensorEvmBalanceConverter` of `runtime/src/lib.rs`, and the deprecated payable `addStake` of
    `precompiles/src/staking.rs` that converts the value sent along. */
module BalanceConverter {
  import opened Wrappers
  import opened MachineIntegers

  /** EVM balances have eighteen decimals, substrate balances nine. */
  const DECIMALS: nat := 1_000_000_000

  function IntoEvmBalance(value: u256): Option<u256> {
    if value * DECIMALS <= U256_MAX then Some(value * DECIMALS) else None
  }

  function IntoSubstrateBalance(value: u256): Option<u256> {
    if value / DECIMALS <= U64_MAX then Some(value / DECIMALS) else None
  }

  /** The trip of a substrate balance to the EVM and back. */
  function ThereAndBack(value: u256): Option<u256> {
    match IntoEvmBalance(value)
    case None => None
    case Some(evm) => IntoSubstrateBalance(evm)
  }

  /** A substrate balance survives the trip to the EVM and back exactly if it fits in 64 bits; a larger one is
      refused, on the way there if it overflows 256 bits and on the way back otherwise. */
  lemma SubstrateRoundTrip(value: u256)
    ensures ThereAndBack(value) == if value <= 0xFFFF_FFFF_FFFF_FFFF then Some(value) else None
    ensures IntoEvmBalance(value).None? <==> value > U256_MAX / 1_000_000_000
    ensures IntoEvmBalance(value).Some? ==> IntoEvmBalance(value).value == value * 1_000_000_000
  {
    assert (value * DECIMALS) / DECIMALS == value;
  }

  /** An EVM balance comes back without its last nine decimals, and nothing else is lost. */
  lemma EvmRoundTrip(value: u256)
    requires IntoSubstrateBalance(value).Some?
    ensures IntoEvmBalance(IntoSubstrateBalance(value).value) == Some(value - value % 1_000_000_000)
  {
  }

  // ----- the deprecated payable addStake -------------------------------------------------------

  datatype AddStakeError = OutOfFund | TransferBackFailed | ConversionFailed | NetuidOutOfRange

  /** The transfer back to the caller, if one is made, and the stake call that follows. */
  datatype AddStake = AddStake(sentBack: Option<u64>, staked: u64, netuid: u16)

  /** Up to the dispatch of the stake call; `transfers` is the answer of the transfer back. */
  function PrepareAddStake(value: u256, netuid: u256, transfers: bool): Result<AddStake, AddStakeError> {
    if value != 0 && IntoSubstrateBalance(value).None? then Err(OutOfFund)
    else if value != 0 && !transfers then Err(TransferBackFailed)
    else
      var sentBack := if value == 0 then None else Some(ToU64(IntoSubstrateBalance(value).value));
      match IntoSubstrateBalance(value)
      case None => Err(ConversionFailed)
      case Some(amount) => if netuid > U16_MAX then Err(NetuidOutOfRange) else Ok(AddStake(sentBack, ToU64(amount), netuid))
  }

  /** Each outcome of the call up to its dispatch; the conversion never fails after the transfer back. */
  lemma AddStakeOutcomes(value: u256, netuid: u256, transfers: bool)
    ensures
      var r := PrepareAddStake(value, netuid, transfers);
      var whole := value / 1_000_000_000;
      && (r == Err(OutOfFund) <==> whole > 0xFFFF_FFFF_FFFF_FFFF)
      && (r == Err(TransferBackFailed) <==> whole <= 0xFFFF_FFFF_FFFF_FFFF && value > 0 && !transfers)
      && r != Err(ConversionFailed)
      && (r == Err(NetuidOutOfRange) <==> whole <= 0xFFFF_FFFF_FFFF_FFFF && (value == 0 || transfers) && netuid > 0xFFFF)
      && (r.Ok? ==> r.value == AddStake(if value == 0 then None else Some(whole), whole, netuid))
  {
  }

  /** What is staked is what was sent back, and together with less than one unit of dust it is the value
      the caller sent: no 64-bit narrowing ever takes anything away. */
  lemma AddStakeConserves(value: u256, netuid: u256, transfers: bool)
    requires PrepareAddStake(value, netuid, transfers).Ok?
    ensures
      var a := PrepareAddStake(value, netuid, transfers).value;
      && (if a.sentBack.Some? then a.sentBack.value else 0) == a.staked
      && a.staked * DECIMALS <= value < (a.staked + 1) * DECIMALS
  {
  }
}
