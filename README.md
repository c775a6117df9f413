# Vote-box registry

A model of a CosmWasm smart contract that keeps a registry of vote boxes.
A vote box holds an owner, a topic, a deadline (a block height or a block
time) and four tally counters: yes, no, abstain and no-with-veto. The
contract's persistent state is a map from 64-bit ids to vote-box records
and a single `Uint64` sequence counter.

- `instantiate` sets the sequence to zero.
- `create_vote_box` validates the owner address, increments the sequence
  and stores a fresh record under the new value.
- `execute_vote` adds one ballot to the yes or the no counter before the
  deadline. The addition is checked, so an overflow is an error.
- `reset` lets the owner zero the yes and no counters before the deadline.
- `remove_votebox` lets the owner delete a vote box before the deadline,
  and decrements the sequence.
- `query_vote` reads one record.
- `query_votelist` pages through the records in ascending id order. The
  page size is `min(limit or 10, 30)` and the cursor is an exclusive
  lower bound.
- `query_votebox_count` returns the sequence.

`get_winner` turns a record's four counters into a category code: No 0,
Abstain 1, Yes 2, NoWithVeto 3, or 4 for a tie.

The module layout follows the source files:

- `State` (`state.dfy`): the record, `Uint64`/`Uint128` as bounded
  naturals, the block and `Scheduled` deadline types.
- `Errors` (`error.dfy`): the contract's error type.
- `Contract` (`contract.dfy`): the store as a class whose two fields the
  operations update in place.
- `Listing` (`listing.dfy`): the pagination arithmetic of `query_votelist`.
- `Helpers` (`helpers.dfy`): `get_winner` and its characterisation.
- `Scenarios` (`scenarios.dfy`): call sequences on a fresh store, after
  the test module of `src/contract.rs`.

The store's invariant `Valid` says that every record is stored under its
own id and that the sequence is never below the number of stored records.
Every operation keeps it.

Because `remove_votebox` gives an id back to the sequence, the next
`create_vote_box` can receive an id that is still stored. That record is
then overwritten. `Scenarios.IdReissuedAfterRemove` shows this on a
concrete call sequence.

`get_winner` sorts the counters in ascending order and looks at the two
smallest. It therefore reports the category with the fewest ballots, not
the most, and it reports a tie only when the two smallest counters are
equal. The model keeps that behaviour and proves it as an
if-and-only-if characterisation.

## Model

| member | source | states |
|---|---|---|
| Contract.VoteBoxStore.Instantiate | src/contract.rs:26-39 | the store starts with sequence 0 and no vote boxes, and satisfies the invariant |
| Contract.VoteBoxStore.CreateVoteBox | src/contract.rs:84-111 | an owner the address check rejects gives InvalidAddress and changes nothing; a sequence at the `Uint64` maximum aborts the call and changes nothing; otherwise the id is the old sequence plus one, the sequence becomes that id, and a record with that id, owner, topic and deadline and all counters zero is stored under it, every other record unchanged; the invariant is kept |
| Contract.VoteBoxStore.ExecuteVote | src/contract.rs:60-82 | a missing id gives NotFound and a reached deadline gives Expired, both leaving the store unchanged; a counter at the `Uint128` maximum gives Overflow and changes nothing; otherwise exactly the chosen counter of that record goes up by one, the reply carries the new yes and no counts, the record's total ballots grow by exactly one, and the sequence and every other record are unchanged |
| Contract.VoteBoxStore.Reset | src/contract.rs:113-143 | NotFound, then Unauthorized for anyone but the owner, then Expired, each leaving the store unchanged; otherwise the yes and no counters become zero, every other field and record is unchanged, and the reply is (0, 0) |
| Contract.VoteBoxStore.RemoveVotebox | src/contract.rs:145-165 | the same three guards in the same order, each leaving the store unchanged; otherwise exactly that id is deleted, the sequence goes down by one and the reply names the id; the invariant is kept |
| Contract.VoteBoxStore.QueryVote | src/contract.rs:178-189 | an error exactly when the id is not stored, and then NotFound; otherwise the reply carries that record's id, owner, topic, deadline and yes and no counts |
| Contract.VoteBoxStore.QueryVoteList | src/contract.rs:191-210 | at most 30 records; exactly min(effective limit, number of ids above the cursor) of them; each is the stored record under its id; ids strictly ascending and above the cursor; the ids are the page `Listing.PageKeys` selects, whose properties `Listing.PageKeysCorrect` proves |
| Contract.VoteBoxStore.QueryVoteboxCount | src/contract.rs:212-217 | the reported count is never below the number of stored vote boxes |
| Listing.EffectiveLimit | src/contract.rs:191-199 | no limit gives 10; a limit of at most 30 is used as given; a larger one is cut to 30; the result never exceeds 30 |
| Listing.Above | src/contract.rs:200 | an exclusive lower bound: exactly the keys greater than the cursor, or all keys without one |
| Listing.AscendingKeys | src/contract.rs:201-202 | the ascending range over the map's keys: strictly ascending, the same members as the key set, one entry per key |
| Listing.PageKeysCorrect | src/contract.rs:200-204 | a page is strictly ascending, holds min(limit, number of keys above the cursor) stored keys, all above the cursor, and skips none: every key above the cursor that is left out is larger than every key on the page |
| Listing.PagesConcatenate | src/contract.rs:200-204 | paging on from the last id of a page of n1 entries with a page of n2 entries gives the same ids as one page of n1 + n2 entries |
| State.TriggerIsMonotone | src/contract.rs:67 | a deadline that is reached at one block stays reached at every block that is no lower and no earlier |
| Helpers.SortAsc | src/helpers.rs:15-16 | the result is sorted ascending, has the same length and is a permutation of its input |
| Helpers.GetWinner | src/helpers.rs:10-32 | the code is always between 0 and 4 |
| Helpers.GetWinnerIsTieIff | src/helpers.rs:15-18 | the result is 4 exactly when at least two categories share the smallest count |
| Helpers.GetWinnerIsUniqueMinimum | src/helpers.rs:17-31 | for each category code c in 0..3, the result is c exactly when category c holds a count strictly smaller than every other category's |
| Helpers.GetWinnerReadsOnlyTally | src/helpers.rs:10-15 | two records with the same four counters get the same answer, whatever their other fields |
| Helpers.GetWinnerWorkedExample | src/helpers.rs:15-30 | yes 3, no 3, abstain 1, no-with-veto 0 gives 3 (NoWithVeto), not a tie, although the two largest counts are equal |
| Helpers.GetWinnerAllEqual | src/helpers.rs:17-18 | four equal counters give 4 |
| Scenarios.CreateTwoRemoveOne | src/contract.rs:304-336 | after two creations, a query of id 1 returns id 1; after the owner's removal of id 2, a second query of id 1 still returns id 1 and the count is 1 |
| Scenarios.VoteThenReset | src/contract.rs:240-290 | on a box owned by "simon", a yes vote reports (1, 0), a no vote then reports (1, 1), and the owner's reset reports (0, 0) |
| Scenarios.RepeatedVotesAllCount | src/contract.rs:60-76 | nothing records who voted: two yes votes and one no vote on the same box leave counts 2 and 1 |
| Scenarios.IdReissuedAfterRemove | src/contract.rs:94-160 | create ids 1 and 2, remove id 1, then create again: the new box gets id 2 and overwrites the stored box 2, so the count is 2 while one box is stored |
| Scenarios.GuardsAfterDeadline | src/contract.rs:113-130 | after the deadline, a reset by a stranger is Unauthorized, the owner's reset is Expired, and a vote is Expired |

## Left out

- Response attributes, `set_contract_version` and the contract name and version: they are bookkeeping and are not part of the registry's state.
- The entry-point dispatch (`execute`, `query`), message types and JSON serialisation: each message maps directly onto one operation.
- `deps.api.addr_validate` is host code. It is modelled as the `addrValidate` parameter of `CreateVoteBox`, and only its accept or reject outcome is kept.
- The current block is a parameter: `BlockInfo` holds its height and time. Other environment and sender data is not modelled.
- Storage is a map and a number. A failed storage read or write other than a missing key is not modelled, and neither is the discarded result of the saves in `execute_vote` and `reset`.
- The record's escrow fields (`total_amount`, `native_denom`, `voters`, `voter_count`): no modelled operation reads or writes them.
- The abstain and no-with-veto counters: no operation ever changes them. They are zero at creation and are read only by `get_winner`.
- The source files are not consistent with each other. `create_vote_box` builds a record with six fields, one import line is mangled, and `get_winner` reads a no-with-veto counter that the record declaration lacks. The model uses one record type holding every field the modelled operations read.
- Contract.VoteBoxStore.CreateVoteBox: the panic of unchecked `Uint64` addition at the maximum sequence becomes the error `Aborted`. Both revert the call, so the store is unchanged in either case.
- Contract.VoteBoxStore.RemoveVotebox: the checked subtraction of the sequence would underflow only at zero, and its error is dropped, leaving the sequence unchanged. The body models this. The invariant rules the case out whenever a box is stored, so the ensures states only the decrement.
- Contract.VoteBoxStore.QueryVoteboxCount: the ensures gives only a lower bound, because the exact value is the sequence field itself. `Scenarios.IdReissuedAfterRemove` shows that the count can exceed the number of stored boxes.
- The model follows the code: removal decrements the sequence, so a live id can be issued again, and `get_winner` picks the smallest count.
