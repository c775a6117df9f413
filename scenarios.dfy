/** Call sequences on a freshly instantiated contract, after the scenarios
    in the test module of src/contract.rs, and what the registry answers. */
module Scenarios {
  import opened Wrappers
  import opened State
  import opened Errors
  import opened Contract

  /** The block of the host's mock environment. */
  const MockBlock := BlockInfo(12345, 1571797419879305533)

  /** An address check that accepts every owner. */
  function AcceptAll(s: string): bool
  {
    true
  }

  /** Two vote boxes are created and the second one is removed by its
      owner: id 1 is found before and after the removal, and the count is
      back to 1. */
  method CreateTwoRemoveOne() returns (firstId: u64, afterRemoval: Result<VoteResponse, StdError>, count: u64)
    ensures firstId == 1 && count == 1
    ensures afterRemoval.Ok? && afterRemoval.value.id == 1
  {
    var store := new VoteBoxStore.Instantiate();
    var r1 := store.CreateVoteBox(AcceptAll, AtHeight(1000000000000), "test", "test");
    var r2 := store.CreateVoteBox(AcceptAll, AtHeight(1000000000000), "test", "test");
    var query := store.QueryVote(1);
    firstId := query.value.id;
    var removed := store.RemoveVotebox(MockBlock, "test", 2);
    afterRemoval := store.QueryVote(1);
    count := store.QueryVoteboxCount();
  }

  /** Because removal hands an id back to the sequence, the next creation
      can be given an id whose record is still stored: that record is
      overwritten, and the count then exceeds the number of stored boxes. */
  method IdReissuedAfterRemove() returns (reissued: u64, topic: string, count: u64, stored: nat)
    ensures reissued == 2 && topic == "third"
    ensures count == 2 && stored == 1
  {
    var store := new VoteBoxStore.Instantiate();
    var r1 := store.CreateVoteBox(AcceptAll, AtHeight(1000000000000), "alice", "first");
    var r2 := store.CreateVoteBox(AcceptAll, AtHeight(1000000000000), "alice", "second");
    assert store.sequence == 2 && store.boxes.Keys == {1, 2};
    assert store.boxes[1].owner == "alice" && !IsTriggered(store.boxes[1].deadline, MockBlock);
    var removed := store.RemoveVotebox(MockBlock, "alice", 1);
    assert store.sequence == 1 && store.boxes.Keys == {2};
    var r3 := store.CreateVoteBox(AcceptAll, AtHeight(1000000000000), "bob", "third");
    assert store.boxes.Keys == {2};
    reissued := r3.value;
    var query := store.QueryVote(2);
    topic := query.value.topic;
    count := store.QueryVoteboxCount();
    stored := |store.boxes|;
  }

  /** Nothing records who voted: every call counts. */
  method RepeatedVotesAllCount() returns (yes: nat, no: nat)
    ensures yes == 2 && no == 1
  {
    var store := new VoteBoxStore.Instantiate();
    var created := store.CreateVoteBox(AcceptAll, AtHeight(1000000), "simon", "trial");
    assert 1 in store.boxes && !IsTriggered(store.boxes[1].deadline, MockBlock);
    assert store.boxes[1].yesCount == 0 && store.boxes[1].noCount == 0;
    var v1 := store.ExecuteVote(MockBlock, 1, true);
    assert store.boxes[1].yesCount == 1 && store.boxes[1].noCount == 0;
    var v2 := store.ExecuteVote(MockBlock, 1, true);
    assert store.boxes[1].yesCount == 2 && store.boxes[1].noCount == 0;
    var v3 := store.ExecuteVote(MockBlock, 1, false);
    var query := store.QueryVote(1);
    yes, no := query.value.yesCount, query.value.noCount;
  }

  /** A yes vote, a no vote and the owner's reset before the deadline
      report the counters (1, 0), (1, 1) and (0, 0). */
  method VoteThenReset() returns (
    afterYes: Result<Counts, ContractError>,
    afterNo: Result<Counts, ContractError>,
    afterReset: Result<Counts, ContractError>)
    ensures afterYes == Ok(Counts(1, 0))
    ensures afterNo == Ok(Counts(1, 1))
    ensures afterReset == Ok(Counts(0, 0))
  {
    var store := new VoteBoxStore.Instantiate();
    var created := store.CreateVoteBox(AcceptAll, AtHeight(1000000), "simon", "trial");
    assert 1 in store.boxes && !IsTriggered(store.boxes[1].deadline, MockBlock);
    assert store.boxes[1].yesCount == 0 && store.boxes[1].noCount == 0;
    afterYes := store.ExecuteVote(MockBlock, 1, true);
    afterNo := store.ExecuteVote(MockBlock, 1, false);
    assert store.boxes[1].owner == "simon";
    afterReset := store.Reset(MockBlock, "simon", 1);
  }

  /** After the deadline, a reset by someone other than the owner is
      refused as unauthorized (ownership is checked first), the owner's
      reset as expired, and a vote as expired. */
  method GuardsAfterDeadline() returns (
    byStranger: Result<Counts, ContractError>,
    byOwner: Result<Counts, ContractError>,
    ballot: Result<Counts, ContractError>)
    ensures byStranger == Err(Unauthorized)
    ensures byOwner == Err(Expired)
    ensures ballot == Err(Expired)
  {
    var store := new VoteBoxStore.Instantiate();
    var created := store.CreateVoteBox(AcceptAll, AtHeight(100), "simon", "trial");
    assert AcceptAll("simon");
    assert 1 in store.boxes && store.boxes[1].owner == "simon";
    assert IsTriggered(store.boxes[1].deadline, MockBlock);
    byStranger := store.Reset(MockBlock, "admin", 1);
    byOwner := store.Reset(MockBlock, "simon", 1);
    ballot := store.ExecuteVote(MockBlock, 1, true);
  }
}
