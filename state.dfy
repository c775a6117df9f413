/** The persistent record of src/state.rs and the host types it uses. */
module State {

  const U32_MAX: nat := 0xFFFF_FFFF
  const U64_MAX: nat := 0xFFFF_FFFF_FFFF_FFFF
  const U128_MAX: nat := 0xFFFF_FFFF_FFFF_FFFF_FFFF_FFFF_FFFF_FFFF

  type u32 = x: nat | x <= U32_MAX
  type u64 = x: nat | x <= U64_MAX
  /** `cosmwasm_std::Uint128`: every counter stays within 128 bits. */
  type Uint128 = x: nat | x <= U128_MAX

  /** The block the current call runs in: its height and its time in
      nanoseconds. */
  datatype BlockInfo = BlockInfo(height: u64, time: u64)

  /** `cw_utils::Scheduled`: a deadline given as a block height or a time. */
  datatype Scheduled = AtHeight(height: u64) | AtTime(time: u64)

  /** `Scheduled::is_triggered`: the deadline has been reached once the
      block's height (or time) is at least the scheduled value. */
  predicate IsTriggered(deadline: Scheduled, block: BlockInfo)
  {
    match deadline
    case AtHeight(h) => block.height >= h
    case AtTime(t) => block.time >= t
  }

  /** A deadline that has been reached stays reached for every later block. */
  lemma TriggerIsMonotone(deadline: Scheduled, earlier: BlockInfo, later: BlockInfo)
    requires earlier.height <= later.height && earlier.time <= later.time
    requires IsTriggered(deadline, earlier)
    ensures IsTriggered(deadline, later)
  {
  }

  /** One vote box.  The four counters are the tally categories; the escrow
      fields of the persisted record are not part of this model. */
  datatype Vote = Vote(
    id: u64,
    owner: string,
    topic: string,
    deadline: Scheduled,
    yesCount: Uint128,
    noCount: Uint128,
    abstainCount: Uint128,
    noWithVetoCount: Uint128)
}
