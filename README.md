# Kitties pallet, modelled in Dafny

A model of the `kitties` pallet of a Substrate node. The pallet keeps a
collection of kitties, each a 16-byte genome identified by a `KittyIndex`.
It has three dispatchable calls:

- `create` mints a kitty with a random genome for the caller.
- `breed` mints a kitty whose genome mixes two existing kitties bit by bit
  under a random selector.
- `transfer` hands a kitty to another account.

Each kitty costs its owner one `KittyStake`, held as a reservation in the
runtime's currency. Each owner lists its kitties in a bounded list of at
most 256 ids. An id comes from a monotone allocator (`NextKittyId`) that
stops with `KittiesOverflow` at the maximum of the index type.

The model has eight modules:

- `Types` holds the entities: `KittyIndex` (a `nat` up to `u32::MAX`),
  `Dna` (16 bytes), `Kitty`, the pallet's `Error` enum and `DispatchResult`.
- `Genome` holds the byte combinator of `breed`, both as a function and
  as the loop the source runs over a 16-byte buffer.
- `Currency` is the part of `ReservableCurrency` the pallet uses, over a
  ledger of free and reserved balances.
- `OwnerList` holds the three `BoundedVec` operations the pallet applies
  to an owner's list: `try_push`, `iter().position(..)` and `swap_remove`.
- `Kitties` is the storage as one value, the storage invariant, and each
  call as a function from a state to a result and a next state. These
  functions are the specification.
- `KittiesProperties` holds the lemmas: the ordered error checks of each
  call, what a successful call writes, the genome law, list capacity, the
  invariant the calls keep, and that ids are never reused.
- `KittiesPallet` is a class `Pallet` whose fields are the storage items.
  Its methods `Create`, `Breed` and `Transfer` update those fields in
  place. Each method is proved equal to the matching `Kitties` function
  and to keep the invariant.
- `KittiesScenario` replays the runs of the pallet's unit tests on the
  model.

Dispatch is transactional: a call that returns an error leaves storage and
balances exactly as they were. The methods compute new values in locals
and write the fields only when every step has succeeded. Every function
states "error ⇒ state unchanged".

The storage invariant (`Kitties.Valid`) has six parts:

- a kitty exists exactly when it has an owner;
- every id lies below the allocator;
- every listed id is owned by the account whose list holds it;
- every owned id is in its owner's list;
- each list holds each id once and has at most 256 entries;
- each account has exactly one stake reserved per listed kitty.

## Model

| member | source | states |
|---|---|---|
| KittiesPallet.Pallet.constructor | pallets/kitties/src/lib.rs:38-52 | Empty storage items (no allocator value, no kitties, empty owner lists) over the given balances satisfy the storage invariant |
| KittiesPallet.Pallet.Create | pallets/kitties/src/lib.rs:75-101 | Updating the storage fields in place yields exactly the result and state of `Kitties.Create`, and keeps the storage invariant |
| KittiesPallet.Pallet.Breed | pallets/kitties/src/lib.rs:104-139 | Updating the fields in place, with the genome built by the byte loop, yields exactly `Kitties.Breed`, and keeps the invariant |
| KittiesPallet.Pallet.Mint | pallets/kitties/src/lib.rs:90-97 | Given a valid pallet, the allocator's id and the caller's fresh reservation, the writes shared by create and breed (kitty, owner, allocator + 1, reservation, try_push on the caller's list) equal `Kitties.Mint`, a full list fails with ExceedMaxOwnerKitties, and the storage invariant is kept |
| KittiesPallet.Pallet.Transfer | pallets/kitties/src/lib.rs:142-168 | The in-place transfer (position search, swap_remove, reserve, unreserve, try_push) yields exactly `Kitties.Transfer`, and keeps the invariant |
| Genome.MixDna | pallets/kitties/src/lib.rs:122-127 | The loop over the 16-byte buffer produces `Mix(p1, p2, sel)`: each bit of the child comes from parent 1 where the selector bit is set and from parent 2 where it is clear |
| Genome.MixByteIsMultiplexer | pallets/kitties/src/lib.rs:125 | `(a & sel) \| (b & !sel)` is a per-bit multiplexer: bit k of the result is bit k of `a` if bit k of `sel` is set, else bit k of `b` |
| Genome.MixByteBit | pallets/kitties/src/lib.rs:125 | The same multiplexer law for one bit position k < 8 |
| Genome.MixAt | pallets/kitties/src/lib.rs:123-126 | Where the parents agree the child agrees; selector 0xFF copies parent 1 and 0x00 copies parent 2; every child bit is set in some parent; every bit set in both parents is set in the child |
| Genome.MixSelf | pallets/kitties/src/lib.rs:123-126 | Breeding a genome with itself reproduces it for any selector |
| Genome.Complement | pallets/kitties/src/lib.rs:125 | The complemented selector `!sel` is disjoint from `sel` and covers every bit with it |
| Genome.MixSwap | pallets/kitties/src/lib.rs:123-126 | Swapping the two parents is the same as complementing the selector |
| Currency.Reserve | pallets/kitties/src/lib.rs:85 | Reserving succeeds iff the free balance covers the amount; it then moves the amount from free to reserved and touches no other account |
| Currency.Unreserve | pallets/kitties/src/lib.rs:160 | Unreserving never fails: it moves the amount, or the whole reservation if that is smaller, back to free; no other account changes |
| Currency.BalancesConserved | pallets/kitties/src/lib.rs:156-160 | Reserve and unreserve keep each account's total of free plus reserved |
| Currency.UnreserveUndoesReserve | pallets/kitties/src/lib.rs:156-160 | Unreserving what was just reserved restores every balance, which is what a transfer to oneself does to the ledger |
| OwnerList.TryPush | pallets/kitties/src/lib.rs:95-97 | The push succeeds iff the list has fewer than 256 entries; the result is then the list with the id appended, still within 256 |
| OwnerList.FirstIndex | pallets/kitties/src/lib.rs:149 | No index iff the id is absent; otherwise the index holds the id and no earlier index does |
| OwnerList.Position | pallets/kitties/src/lib.rs:149 | The search loop returns exactly `FirstIndex` |
| OwnerList.SwapRemove | pallets/kitties/src/lib.rs:150 | The list shrinks by one, the last element takes the removed slot, and every other slot is unchanged |
| OwnerList.SwapRemovePermutes | pallets/kitties/src/lib.rs:150 | `swap_remove(i)` removes exactly one occurrence of `l[i]` from the multiset of the list |
| OwnerList.SwapRemoveMembers | pallets/kitties/src/lib.rs:150 | On a list without duplicates, swap_remove keeps it free of duplicates, and its members are exactly the old members other than `l[i]` |
| OwnerList.NoDuplicatesCountsOnce | pallets/kitties/src/lib.rs:52 | In a list without duplicates each element occurs once |
| OwnerList.PushKeepsNoDuplicates | pallets/kitties/src/lib.rs:95-97 | Appending an id not yet listed keeps the list free of duplicates |
| Kitties.AllocateId | pallets/kitties/src/lib.rs:77-83 | An id is available iff the allocator is not at `u32::MAX`; it is then the allocator's value (0 when unset), below the maximum |
| Kitties.GetKitty | pallets/kitties/src/lib.rs:184-189 | A kitty is found iff its id is stored, and it is the stored kitty |
| Kitties.Mint | pallets/kitties/src/lib.rs:90-97 | A failed push on the caller's list returns ExceedMaxOwnerKitties with the state unchanged; success adds the id to the kitties and gives it to the caller |
| Kitties.Create | pallets/kitties/src/lib.rs:75-101 | A failed create leaves the state unchanged |
| Kitties.Breed | pallets/kitties/src/lib.rs:104-139 | A failed breed leaves the state unchanged |
| Kitties.Transfer | pallets/kitties/src/lib.rs:142-168 | A failed transfer leaves the state unchanged; no transfer changes the kitties or the allocator |
| KittiesProperties.CreateOutcome | pallets/kitties/src/lib.rs:77-97 | create fails with KittiesOverflow, then StakeNotEnough, then ExceedMaxOwnerKitties, in that order; it succeeds iff none applies; a failed create changes nothing |
| KittiesProperties.CreateSuccess | pallets/kitties/src/lib.rs:85-97 | A successful create stores the kitty under the allocator's old value, advances the allocator by one, gives the kitty to the caller, appends the id to the caller's list only, and reserves one stake from the caller only |
| KittiesProperties.BreedOutcome | pallets/kitties/src/lib.rs:107-135 | breed fails with SameId, then StakeNotEnough, then InvalidId for a missing parent, then KittiesOverflow, then ExceedMaxOwnerKitties; it succeeds iff none applies; a failed breed changes nothing |
| KittiesProperties.BreedSuccess | pallets/kitties/src/lib.rs:111-135 | A successful breed equals a create with the mixed genome of the two parents, and that genome obeys the per-bit multiplexer law |
| KittiesProperties.TransferOutcome | pallets/kitties/src/lib.rs:145-164 | transfer fails with InvalidId, then NotOwner (not the recorded owner, or not listed), then StakeNotEnough, then ExceedMaxOwnerKitties when a different new owner's list is full; it succeeds iff none applies; a failed transfer changes nothing |
| KittiesProperties.OwnedFacts | pallets/kitties/src/lib.rs:146-150 | In a valid state the owner of a kitty lists it, its list has no duplicates, and it holds at least one stake in reserve |
| KittiesProperties.TransferListCheckRedundant | pallets/kitties/src/lib.rs:148-154 | In a valid state the recorded owner always lists the kitty, so the second NotOwner check never fires |
| KittiesProperties.TransferSuccess | pallets/kitties/src/lib.rs:148-164 | After a successful transfer the new owner owns the kitty and lists it last; the caller's list has lost exactly that id; every other list is unchanged; a transfer to oneself keeps the same multiset of ids |
| KittiesProperties.TransferStakeMoves | pallets/kitties/src/lib.rs:156-160 | A successful transfer moves one stake from the caller's reservation to the new owner's, leaves other accounts alone, and leaves every balance as it was on a transfer to oneself |
| KittiesProperties.FullListRejects | pallets/kitties/src/lib.rs:52 | An account with 256 kitties cannot receive another through create, breed or a transfer from someone else, and the failed call changes nothing |
| KittiesProperties.GenesisValid | pallets/kitties/src/lib.rs:38-52 | Empty storage satisfies the storage invariant |
| KittiesProperties.MintValid | pallets/kitties/src/lib.rs:90-97 | Minting a fresh id after a successful reservation keeps the invariant, and the new id is one the allocator had not handed out |
| KittiesProperties.AddValid | pallets/kitties/src/lib.rs:90-97 | Storing a kitty under the allocator's id, giving it to the caller, appending it to the caller's list below capacity and reserving one more stake keeps the invariant, and no existing kitty changes |
| KittiesProperties.FreshId | pallets/kitties/src/lib.rs:77-83 | In a valid state the allocator's id is held by no kitty, no owner entry and no list, and the caller's list has no duplicates |
| KittiesProperties.AddKeepsBounded | pallets/kitties/src/lib.rs:95-97 | Appending a fresh id to a list below capacity keeps every list without duplicates and within 256 |
| KittiesProperties.AddKeepsOwnership | pallets/kitties/src/lib.rs:91-97 | Recording the caller as owner of a fresh id and listing it keeps lists and owners in agreement |
| KittiesProperties.AddKeepsStakes | pallets/kitties/src/lib.rs:85-97 | One more reserved stake with one more list entry keeps the one-stake-per-kitty reservation |
| KittiesProperties.CreateValid | pallets/kitties/src/lib.rs:75-101 | create keeps the invariant; it never changes or removes a kitty, never lowers the allocator, and never reuses an id |
| KittiesProperties.BreedValid | pallets/kitties/src/lib.rs:104-139 | breed keeps the invariant and never reuses an id |
| KittiesProperties.TransferLists | pallets/kitties/src/lib.rs:148-164 | After a successful transfer only the id has changed lists; every list stays without duplicates and within 256; list lengths change by -1 and +1 |
| KittiesProperties.MoveBetweenLists | pallets/kitties/src/lib.rs:150-164 | swap_remove from one list and push onto another moves exactly one id and keeps every list without duplicates and within capacity |
| KittiesProperties.TransferValid | pallets/kitties/src/lib.rs:142-168 | transfer keeps the invariant and never changes the kitties or the allocator |
| KittiesProperties.TransferKeepsKitties | pallets/kitties/src/lib.rs:142-168 | After a transfer every kitty still has an owner, ids stay below the allocator, and lists stay bounded |
| KittiesProperties.TransferKeepsOwnership | pallets/kitties/src/lib.rs:158-164 | After a transfer lists and recorded owners still agree in both directions |
| KittiesProperties.TransferKeepsStakes | pallets/kitties/src/lib.rs:156-164 | After a transfer each account still has one stake reserved per listed kitty |
| KittiesProperties.MoveKeepsOwnership | pallets/kitties/src/lib.rs:158-164 | Moving one id between lists together with its owner entry keeps lists and owners in agreement |
| KittiesProperties.MoveKeepsStakes | pallets/kitties/src/lib.rs:156-164 | Moving one stake together with one list entry keeps the one-stake-per-kitty reservation |
| KittiesScenario.FirstCreate | pallets/kitties/src/tests.rs:5-27 | The first create gives id 0 and sets the allocator to 1; with the allocator at `u32::MAX` create fails with KittiesOverflow; an account without funds fails with StakeNotEnough; failures change nothing |
| KittiesScenario.FirstTransfer | pallets/kitties/src/tests.rs:29-35 | Account 1 transfers kitty 0 to account 2: the lists, the owner and one stake move |
| KittiesScenario.SecondCreate | pallets/kitties/src/tests.rs:37-70 | A non-owner's transfer fails with NotOwner, breeding a kitty with itself fails with SameId, breeding with a missing kitty fails with InvalidId, and a second create gives id 1 |
| KittiesScenario.BreedStep | pallets/kitties/src/tests.rs:45-82 | Breeding kitties 0 and 1 gives kitty 2 and sets the allocator to 3; with the allocator at `u32::MAX` breed fails with KittiesOverflow and changes nothing |
| KittiesScenario.TransferStep | pallets/kitties/src/lib.rs:148-164 | Transferring kitty 0 out of the list [0, 1, 2] leaves [2, 1] (swap_remove) and gives the new owner [0] |

## Left out

- `random_value` is left out: it hashes the randomness seed, the caller and the extrinsic index with BLAKE2b-128. The 16 bytes it returns are a parameter of `Create` (`dna`) and of `Breed` (`sel`).
- `ensure_signed` is left out: a call's origin is the already authenticated `who`. Unsigned origins, and the `BadOrigin` error they raise, are not modelled.
- Events (`KittyCreated`, `KittyBred`, `KittyTransferred`) and call weights are left out, because they do not affect storage.
- The currency is a ledger of free and reserved balances per account. Existential deposits, total issuance, locks and the currency's own errors are not modelled: `reserve` fails exactly when the free balance is below the amount.
- The runtime's transactional machinery is not modelled. It is assumed as "an error leaves the old state", so the model writes its fields only on success.
- Storage hashing (`Blake2_128Concat`) and SCALE encoding are left out: storage maps are Dafny maps.
- `KittyIndex` is fixed to `u32`, as in the tests. The generic `AtLeast32BitUnsigned` index type is not modelled. `kitty_id + 1` cannot overflow, because the allocator check excludes the maximum first.
- `AccountId` is a natural number, since the pallet only compares accounts for equality.
- The mock runtime of the tests is not part of this model. The scenario balances are chosen here: account 1 can stake three kitties, account 2 one, and account 666 none.
- `KittiesScenario.FirstTransfer` and `KittiesScenario.SecondCreate` do not replay the tests' discarded results (`let _ = ...`): each step starts from the state that the successful earlier calls produce.
- The genome loop runs over `0..kitty_1.0.len()`, which is always 16 because `Kitty` wraps a `[u8; 16]`. The model uses the fixed length 16.

## Notes on the code

- Error names follow the code: `KittiesOverflow`, `ExceedMaxOwnerKitties`, `StakeNotEnough`.
- A kitty missing from its owner's list is reported as `NotOwner` (lib.rs:154). `KittiesProperties.TransferListCheckRedundant` shows that in a valid state this branch is never taken.
- `create` checks the allocator before it reserves the stake. `breed` reserves the stake first and checks the parents and the allocator after. Because failed calls are rolled back, the order only decides which error is reported.
- In `transfer`, the caller's stake is released before the new owner's list is checked for capacity. On `ExceedMaxOwnerKitties` the rollback restores the reservation.
- The new owner's list is read after `swap_remove` on the caller's list. A transfer to oneself therefore moves the id to the end of the same list. It still needs one free stake, because the reservation comes before the release.
