/** The vote-box registry of src/contract.rs: a table from 64-bit ids to
    vote-box records and one sequence counter, changed by four
    load-modify-save operations and read by three queries.

    The caller's address, the current block and the host's address check
    are parameters of the operations that use them. */
module Contract {
  import opened Wrappers
  import opened State
  import opened Errors
  import opened Listing

  /** The yes and no counters an execute or reset call reports. */
  datatype Counts = Counts(yesCount: Uint128, noCount: Uint128)

  /** `VoteResponse`: what `query_vote` reports about one vote box. */
  datatype VoteResponse = VoteResponse(
    id: u64,
    yesCount: Uint128,
    noCount: Uint128,
    deadline: Scheduled,
    owner: string,
    topic: string)

  /** The number of ballots a vote box holds over all four categories. */
  function Ballots(v: Vote): nat
  {
    v.yesCount + v.noCount + v.abstainCount + v.noWithVetoCount
  }

  /** The record `create_vote_box` stores under a fresh id: no ballots yet. */
  function NewVoteBox(id: u64, owner: string, topic: string, deadline: Scheduled): Vote
  {
    Vote(id, owner, topic, deadline, 0, 0, 0, 0)
  }

  /** The records stored under `keys`, in the order of `keys`. */
  function RecordsOf(stored: map<u64, Vote>, keys: seq<u64>): (records: seq<Vote>)
    requires forall i | 0 <= i < |keys| :: keys[i] in stored
    ensures |records| == |keys|
    ensures forall i | 0 <= i < |keys| :: records[i] == stored[keys[i]]
  {
    if keys == [] then [] else [stored[keys[0]]] + RecordsOf(stored, keys[1..])
  }

  /** Records looked up under strictly ascending keys, each stored under
      its own id, carry those keys as strictly ascending ids. */
  lemma RecordsOfPage(stored: map<u64, Vote>, keys: seq<u64>)
    requires forall k | k in stored :: stored[k].id == k
    requires forall i | 0 <= i < |keys| :: keys[i] in stored
    requires StrictlyAscending(keys)
    ensures var records := RecordsOf(stored, keys);
      && (forall i | 0 <= i < |records| :: records[i].id == keys[i])
      && (forall i, j | 0 <= i < j < |records| :: records[i].id < records[j].id)
  {
  }

  class VoteBoxStore {
    /** `VOTE_BOX_LIST`. */
    var boxes: map<u64, Vote>
    /** `VOTE_BOX_SEQ`. */
    var sequence: u64

    /** Every record is stored under its own id, and the sequence is never
        below the number of stored records (so the decrement in
        `remove_votebox` cannot underflow while a record exists). */
    ghost predicate Valid()
      reads this
    {
      && (forall k | k in boxes :: boxes[k].id == k)
      && |boxes| <= sequence
    }

    /** `instantiate`, on the empty storage of a new contract: the sequence
        starts at 0 and no vote box exists. */
    constructor Instantiate()
      ensures Valid()
      ensures sequence == 0 && boxes == map[]
    {
      boxes := map[];
      sequence := 0;
    }

    /** `create_vote_box`: validates the owner, takes the next id from the
        sequence and stores a record without ballots under it.  The id
        addition is unchecked `Uint64` arithmetic, which panics (and so
        reverts the call) when the sequence is at its maximum.  A record
        still stored under the new id is overwritten. */
    method CreateVoteBox(addrValidate: string -> bool, deadline: Scheduled, owner: string, topic: string)
      returns (r: Result<u64, ContractError>)
      requires Valid()
      modifies this
      ensures Valid()
      ensures !addrValidate(owner) ==> r == Err(Std(InvalidAddress)) && unchanged(this)
      ensures addrValidate(owner) && old(sequence) == U64_MAX ==> r == Err(Aborted) && unchanged(this)
      ensures addrValidate(owner) && old(sequence) < U64_MAX ==>
        && r == Ok(old(sequence) + 1)
        && sequence == old(sequence) + 1
        && boxes == old(boxes)[sequence := NewVoteBox(sequence, owner, topic, deadline)]
    {
      if !addrValidate(owner) {
        return Err(Std(InvalidAddress));
      }
      if sequence == U64_MAX {
        return Err(Aborted);
      }
      var id: u64 := sequence + 1;
      sequence := id;
      var newVoteBox := NewVoteBox(id, owner, topic, deadline);
      assert boxes[id := newVoteBox].Keys == boxes.Keys + {id};
      boxes := boxes[id := newVoteBox];
      r := Ok(id);
    }

    /** `execute_vote`: adds one ballot to the yes counter (`vote`) or to the
        no counter (otherwise) with a checked addition.  Anyone may vote, any
        number of times, until the deadline is reached. */
    method ExecuteVote(block: BlockInfo, id: u64, vote: bool) returns (r: Result<Counts, ContractError>)
      requires Valid()
      modifies this
      ensures Valid() && sequence == old(sequence)
      ensures id !in old(boxes) ==> r == Err(Std(NotFound)) && unchanged(this)
      ensures id in old(boxes) && IsTriggered(old(boxes)[id].deadline, block) ==>
        r == Err(Expired) && unchanged(this)
      ensures id in old(boxes) && !IsTriggered(old(boxes)[id].deadline, block) && vote ==>
        if old(boxes)[id].yesCount == U128_MAX then
          r == Err(Overflow) && unchanged(this)
        else
          && boxes == old(boxes)[id := old(boxes)[id].(yesCount := old(boxes)[id].yesCount + 1)]
          && r == Ok(Counts(boxes[id].yesCount, boxes[id].noCount))
      ensures id in old(boxes) && !IsTriggered(old(boxes)[id].deadline, block) && !vote ==>
        if old(boxes)[id].noCount == U128_MAX then
          r == Err(Overflow) && unchanged(this)
        else
          && boxes == old(boxes)[id := old(boxes)[id].(noCount := old(boxes)[id].noCount + 1)]
          && r == Ok(Counts(boxes[id].yesCount, boxes[id].noCount))
      ensures r.Ok? ==> Ballots(boxes[id]) == Ballots(old(boxes)[id]) + 1
    {
      if id !in boxes {
        return Err(Std(NotFound));
      }
      var voteBox := boxes[id];
      if IsTriggered(voteBox.deadline, block) {
        return Err(Expired);
      }
      if vote {
        if voteBox.yesCount == U128_MAX {
          return Err(Overflow);
        }
        voteBox := voteBox.(yesCount := voteBox.yesCount + 1);
      } else {
        if voteBox.noCount == U128_MAX {
          return Err(Overflow);
        }
        voteBox := voteBox.(noCount := voteBox.noCount + 1);
      }
      assert boxes[id := voteBox].Keys == boxes.Keys;
      boxes := boxes[id := voteBox];
      r := Ok(Counts(voteBox.yesCount, voteBox.noCount));
    }

    /** `reset`: the owner zeroes the yes and no counters before the
        deadline.  Ownership is checked before the deadline. */
    method Reset(block: BlockInfo, sender: string, id: u64) returns (r: Result<Counts, ContractError>)
      requires Valid()
      modifies this
      ensures Valid() && sequence == old(sequence)
      ensures id !in old(boxes) ==> r == Err(Std(NotFound)) && unchanged(this)
      ensures id in old(boxes) && sender != old(boxes)[id].owner ==>
        r == Err(Unauthorized) && unchanged(this)
      ensures id in old(boxes) && sender == old(boxes)[id].owner && IsTriggered(old(boxes)[id].deadline, block) ==>
        r == Err(Expired) && unchanged(this)
      ensures id in old(boxes) && sender == old(boxes)[id].owner && !IsTriggered(old(boxes)[id].deadline, block) ==>
        && r == Ok(Counts(0, 0))
        && boxes == old(boxes)[id := old(boxes)[id].(yesCount := 0, noCount := 0)]
    {
      if id !in boxes {
        return Err(Std(NotFound));
      }
      var voteBox := boxes[id];
      if sender != voteBox.owner {
        return Err(Unauthorized);
      }
      if IsTriggered(voteBox.deadline, block) {
        return Err(Expired);
      }
      voteBox := voteBox.(yesCount := 0, noCount := 0);
      assert boxes[id := voteBox].Keys == boxes.Keys;
      boxes := boxes[id := voteBox];
      r := Ok(Counts(voteBox.yesCount, voteBox.noCount));
    }

    /** `remove_votebox`: the owner deletes a vote box before its deadline
        and the sequence goes down by one.  The result of that checked
        subtraction is dropped, so an underflow would leave the sequence as
        it is; `Valid` rules that case out. */
    method RemoveVotebox(block: BlockInfo, sender: string, id: u64) returns (r: Result<u64, ContractError>)
      requires Valid()
      modifies this
      ensures Valid()
      ensures id !in old(boxes) ==> r == Err(Std(NotFound)) && unchanged(this)
      ensures id in old(boxes) && sender != old(boxes)[id].owner ==>
        r == Err(Unauthorized) && unchanged(this)
      ensures id in old(boxes) && sender == old(boxes)[id].owner && IsTriggered(old(boxes)[id].deadline, block) ==>
        r == Err(Expired) && unchanged(this)
      ensures id in old(boxes) && sender == old(boxes)[id].owner && !IsTriggered(old(boxes)[id].deadline, block) ==>
        && r == Ok(id)
        && boxes == old(boxes) - {id}
        && sequence == old(sequence) - 1
    {
      if id !in boxes {
        return Err(Std(NotFound));
      }
      var voteBox := boxes[id];
      if sender != voteBox.owner {
        return Err(Unauthorized);
      }
      if IsTriggered(voteBox.deadline, block) {
        return Err(Expired);
      }
      assert |boxes.Keys - {id}| == |boxes| - 1;
      if sequence >= 1 {
        sequence := sequence - 1;
      }
      boxes := boxes - {voteBox.id};
      r := Ok(id);
    }

    /** `query_vote`: the stored record's fields, or NotFound. */
    function QueryVote(id: u64): (r: Result<VoteResponse, StdError>)
      reads this
      ensures r.Err? <==> id !in boxes
      ensures r.Err? ==> r.error == NotFound
      ensures r.Ok? ==>
        var v := boxes[id];
        && r.value.id == v.id && r.value.owner == v.owner && r.value.topic == v.topic
        && r.value.deadline == v.deadline
        && r.value.yesCount == v.yesCount && r.value.noCount == v.noCount
    {
      if id !in boxes then
        Err(NotFound)
      else
        var v := boxes[id];
        Ok(VoteResponse(v.id, v.yesCount, v.noCount, v.deadline, v.owner, v.topic))
    }

    /** `query_votelist`: the records of the page of keys above the cursor,
        at most `min(limit or 10, 30)` of them, in ascending id order. */
    function QueryVoteList(startAfter: Option<u64>, limit: Option<u32>): (page: seq<Vote>)
      reads this
      requires Valid()
      ensures |page| <= MAX_LIMIT
      ensures |page| == Min(EffectiveLimit(limit), |Above(boxes.Keys, startAfter)|)
      ensures forall i | 0 <= i < |page| :: page[i].id in boxes && boxes[page[i].id] == page[i]
      ensures forall i, j | 0 <= i < j < |page| :: page[i].id < page[j].id
      ensures forall i | 0 <= i < |page| :: startAfter.None? || page[i].id > startAfter.value
      ensures forall i | 0 <= i < |page| :: page[i].id == PageKeys(boxes.Keys, startAfter, EffectiveLimit(limit))[i]
    {
      var keys := PageKeys(boxes.Keys, startAfter, EffectiveLimit(limit));
      PageKeysCorrect(boxes.Keys, startAfter, EffectiveLimit(limit));
      RecordsOfPage(boxes, keys);
      RecordsOf(boxes, keys)
    }

    /** `query_votebox_count`: the sequence value, which is at least the
        number of stored vote boxes (and more once an id was reissued). */
    function QueryVoteboxCount(): (count: u64)
      reads this
      requires Valid()
      ensures count >= |boxes|
    {
      sequence
    }
  }
}
