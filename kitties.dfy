/**
  The pallet's storage as one value and its three dispatchable calls as
  functions from a state to a result and a next state. Every call either
  commits all of its writes (result `Ok`) or none of them (result `Err`):
  the runtime discards the writes of a call that returns an error.
 */
module Kitties {
  import opened Types
  import opened Currency
  import opened OwnerList
  import Genome

  /** `NextKittyId`, `Kitties`, `KittyOwner`, `OwnerKitties`, and the
      external currency's balances. */
  datatype State = State(
    nextKittyId: Option<KittyIndex>,
    kitties: map<KittyIndex, Kitty>,
    kittyOwner: map<KittyIndex, AccountId>,
    ownerKitties: map<AccountId, seq<KittyIndex>>,
    ledger: Ledger)

  /** The empty storage of a new chain, over the given free balances. */
  function Genesis(balances: map<AccountId, Balance>): (s: State) {
    State(None, map[], map[], map[], Ledger(balances, map[]))
  }

  /** `OwnerKitties` is a `ValueQuery` map: an absent owner has the empty list. */
  function OwnedBy(ownerKitties: map<AccountId, seq<KittyIndex>>, who: AccountId): (l: seq<KittyIndex>) {
    if who in ownerKitties then ownerKitties[who] else []
  }

  /** Every id below this bound has been handed out; `None` means none has. */
  function NextBound(next: Option<KittyIndex>): (bound: nat) {
    if next.None? then 0 else next.value
  }

  /** The id the next `create` or `breed` takes, or nothing (`KittiesOverflow`)
      when the allocator sits at the maximum of the index type. */
  function AllocateId(next: Option<KittyIndex>): (r: Option<KittyIndex>)
    ensures r.Some? <==> next != Some(MAX)
    ensures r.Some? ==> r.value == NextBound(next) && r.value < MAX
  {
    match next
    case Some(id) => if id == MAX then None else Some(id)
    case None => Some(0)
  }

  /** `get_kitty`: the stored kitty, or nothing for an unknown id. */
  function GetKitty(s: State, id: KittyIndex): (r: Option<Kitty>)
    ensures r.Some? <==> id in s.kitties
    ensures r.Some? ==> r.value == s.kitties[id]
  {
    if id in s.kitties then Some(s.kitties[id]) else None
  }

  /** A kitty exists exactly when it has an owner. */
  ghost predicate KittiesOwned(s: State) {
    s.kittyOwner.Keys == s.kitties.Keys
  }

  /** Every allocated id lies below the allocator. */
  ghost predicate IdsBelowAllocator(s: State) {
    forall id | id in s.kitties :: id < NextBound(s.nextKittyId)
  }

  /** Every listed id is owned by the owner whose list holds it. */
  ghost predicate ListsAgreeWithOwners(s: State) {
    forall who, i | who in s.ownerKitties && 0 <= i < |s.ownerKitties[who]| ::
      s.ownerKitties[who][i] in s.kittyOwner && s.kittyOwner[s.ownerKitties[who][i]] == who
  }

  /** Every owned id is in its owner's list. */
  ghost predicate OwnersListKitties(s: State) {
    forall id | id in s.kittyOwner :: id in OwnedBy(s.ownerKitties, s.kittyOwner[id])
  }

  /** Lists hold each id once and stay within their capacity. */
  ghost predicate ListsBounded(s: State) {
    forall who | who in s.ownerKitties ::
      NoDuplicates(s.ownerKitties[who]) && |s.ownerKitties[who]| <= MAX_OWNER_KITTIES
  }

  /** Each account has one stake reserved per kitty it owns. */
  ghost predicate StakesReserved(s: State, stake: Balance) {
    forall who :: ReservedOf(s.ledger, who) == |OwnedBy(s.ownerKitties, who)| * stake
  }

  /** The storage invariant that the three calls keep. */
  ghost predicate Valid(s: State, stake: Balance) {
    && KittiesOwned(s)
    && IdsBelowAllocator(s)
    && ListsAgreeWithOwners(s)
    && OwnersListKitties(s)
    && ListsBounded(s)
    && StakesReserved(s, stake)
  }

  /** The step `create` and `breed` share once the new kitty is known: store
      it under `id`, give it to `who`, advance the allocator and append `id`
      to `who`'s list; `ledger` already holds the new reservation. */
  function Mint(s: State, ledger: Ledger, who: AccountId, id: KittyIndex, kitty: Kitty): (r: (DispatchResult, State))
    requires id < MAX
    ensures r.0.Err? ==> r == (Err(ExceedMaxOwnerKitties), s)
    ensures r.0 == Ok ==> r.1.kitties.Keys == s.kitties.Keys + {id} && id in r.1.kittyOwner && r.1.kittyOwner[id] == who
  {
    match TryPush(OwnedBy(s.ownerKitties, who), id)
    case None => (Err(ExceedMaxOwnerKitties), s)
    case Some(list) =>
      (Ok, State(Some(id + 1), s.kitties[id := kitty], s.kittyOwner[id := who],
                 s.ownerKitties[who := list], ledger))
  }

  /** `create`: a new kitty with genome `dna` for `who`, who stakes `stake`. */
  function Create(s: State, stake: Balance, who: AccountId, dna: Dna): (r: (DispatchResult, State))
    ensures r.0.Err? ==> r.1 == s
  {
    match AllocateId(s.nextKittyId)
    case None => (Err(KittiesOverflow), s)
    case Some(id) =>
      match Reserve(s.ledger, who, stake)
      case None => (Err(StakeNotEnough), s)
      case Some(ledger) => Mint(s, ledger, who, id, Kitty(dna))
  }

  /** `breed`: a new kitty for `who` whose genome mixes those of kitties `id1`
      and `id2` under the selector `sel`. */
  function Breed(s: State, stake: Balance, who: AccountId, id1: KittyIndex, id2: KittyIndex, sel: Dna)
    : (r: (DispatchResult, State))
    ensures r.0.Err? ==> r.1 == s
  {
    if id1 == id2 then (Err(SameId), s)
    else
      match Reserve(s.ledger, who, stake)
      case None => (Err(StakeNotEnough), s)
      case Some(ledger) =>
        match GetKitty(s, id1)
        case None => (Err(InvalidId), s)
        case Some(kitty1) =>
          match GetKitty(s, id2)
          case None => (Err(InvalidId), s)
          case Some(kitty2) =>
            match AllocateId(s.nextKittyId)
            case None => (Err(KittiesOverflow), s)
            case Some(id) => Mint(s, ledger, who, id, Kitty(Genome.Mix(kitty1.dna, kitty2.dna, sel)))
  }

  /** `transfer`: `who` hands kitty `id` to `newOwner`. The caller's list
      loses `id` by `swap_remove` before the new owner's list is read, so a
      transfer to oneself moves `id` to the end of the same list. */
  function Transfer(s: State, stake: Balance, who: AccountId, id: KittyIndex, newOwner: AccountId)
    : (r: (DispatchResult, State))
    ensures r.0.Err? ==> r.1 == s
    ensures r.1.kitties == s.kitties && r.1.nextKittyId == s.nextKittyId
  {
    if GetKitty(s, id).None? then (Err(InvalidId), s)
    else if id !in s.kittyOwner || s.kittyOwner[id] != who then (Err(NotOwner), s)
    else
      match FirstIndex(OwnedBy(s.ownerKitties, who), id)
      case None => (Err(NotOwner), s)
      case Some(i) =>
        var owners := s.ownerKitties[who := SwapRemove(OwnedBy(s.ownerKitties, who), i)];
        match Reserve(s.ledger, newOwner, stake)
        case None => (Err(StakeNotEnough), s)
        case Some(ledger) =>
          var ledger' := Unreserve(ledger, who, stake);
          match TryPush(OwnedBy(owners, newOwner), id)
          case None => (Err(ExceedMaxOwnerKitties), s)
          case Some(list) =>
            (Ok, State(s.nextKittyId, s.kitties, s.kittyOwner[id := newOwner], owners[newOwner := list], ledger'))
  }
}
