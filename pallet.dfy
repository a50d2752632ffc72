/**
  The pallet as the runtime holds it: storage items that the three calls
  update in place. Each call works on local copies of the items it changes
  and writes them back only when every step has succeeded, which is what
  the runtime's transactional dispatch guarantees for the source's
  step-by-step writes.
 */
module KittiesPallet {
  import opened Types
  import opened Currency
  import opened OwnerList
  import Kitties
  import KittiesProperties
  import Genome

  class Pallet {
    /** `T::KittyStake`: the amount reserved per owned kitty. */
    const stake: Balance

    /** `NextKittyId`, `None` until the first kitty is created. */
    var nextKittyId: Option<KittyIndex>
    /** `Kitties`: id to genome. */
    var kitties: map<KittyIndex, Kitty>
    /** `KittyOwner`: id to owner. */
    var kittyOwner: map<KittyIndex, AccountId>
    /** `OwnerKitties`: owner to the ids it owns, at most 256 of them. */
    var ownerKitties: map<AccountId, seq<KittyIndex>>
    /** The free and reserved balances kept by `T::Currency`. */
    var ledger: Ledger

    /** The storage items as one value. */
    function Storage(): (s: Kitties.State)
      reads this
    {
      Kitties.State(nextKittyId, kitties, kittyOwner, ownerKitties, ledger)
    }

    ghost predicate Valid()
      reads this
    {
      Kitties.Valid(Storage(), stake)
    }

    /** A chain at genesis: no kitties, and the given free balances. */
    constructor (stake: Balance, balances: map<AccountId, Balance>)
      ensures Valid()
      ensures this.stake == stake && Storage() == Kitties.Genesis(balances)
    {
      this.stake := stake;
      nextKittyId := None;
      kitties := map[];
      kittyOwner := map[];
      ownerKitties := map[];
      ledger := Ledger(balances, map[]);
      KittiesProperties.GenesisValid(balances, stake);
    }

    /** `create`, with the genome `dna` that `random_value` would produce. */
    method Create(who: AccountId, dna: Dna) returns (r: DispatchResult)
      requires Valid()
      modifies this
      ensures Valid()
      ensures (r, Storage()) == Kitties.Create(old(Storage()), stake, who, dna)
    {
      var kittyId := Kitties.AllocateId(nextKittyId);
      if kittyId.None? {
        return Err(KittiesOverflow);
      }
      var reserved := Reserve(ledger, who, stake);
      if reserved.None? {
        return Err(StakeNotEnough);
      }
      r := Mint(who, kittyId.value, Kitty(dna), reserved.value);
    }

    /** `breed`, with the selector that `random_value` would produce. */
    method Breed(who: AccountId, id1: KittyIndex, id2: KittyIndex, sel: Dna) returns (r: DispatchResult)
      requires Valid()
      modifies this
      ensures Valid()
      ensures (r, Storage()) == Kitties.Breed(old(Storage()), stake, who, id1, id2, sel)
    {
      if id1 == id2 {
        return Err(SameId);
      }
      var reserved := Reserve(ledger, who, stake);
      if reserved.None? {
        return Err(StakeNotEnough);
      }
      var kitty1 := Kitties.GetKitty(Storage(), id1);
      if kitty1.None? {
        return Err(InvalidId);
      }
      var kitty2 := Kitties.GetKitty(Storage(), id2);
      if kitty2.None? {
        return Err(InvalidId);
      }
      var kittyId := Kitties.AllocateId(nextKittyId);
      if kittyId.None? {
        return Err(KittiesOverflow);
      }
      var data := Genome.MixDna(kitty1.value.dna, kitty2.value.dna, sel);
      r := Mint(who, kittyId.value, Kitty(data), reserved.value);
    }

    /** The writes `create` and `breed` share: the kitty, its owner, the
        allocator, the new reservation, and the caller's list, where a full
        list fails the whole call. */
    method Mint(who: AccountId, kittyId: KittyIndex, kitty: Kitty, reserved: Ledger) returns (r: DispatchResult)
      requires Valid()
      requires kittyId == Kitties.NextBound(nextKittyId) && kittyId < MAX
      requires Reserve(ledger, who, stake) == Some(reserved)
      modifies this
      ensures Valid()
      ensures (r, Storage()) == Kitties.Mint(old(Storage()), reserved, who, kittyId, kitty)
    {
      KittiesProperties.MintValid(Storage(), stake, who, kittyId, kitty);
      var kitties' := kitties[kittyId := kitty];
      var kittyOwner' := kittyOwner[kittyId := who];
      var next := Some(kittyId + 1);
      var pushed := TryPush(Kitties.OwnedBy(ownerKitties, who), kittyId);
      if pushed.None? {
        return Err(ExceedMaxOwnerKitties);
      }
      kitties, kittyOwner, nextKittyId := kitties', kittyOwner', next;
      ownerKitties := ownerKitties[who := pushed.value];
      ledger := reserved;
      r := Ok;
    }

    /** `transfer` of kitty `id` from `who` to `newOwner`. */
    method Transfer(who: AccountId, id: KittyIndex, newOwner: AccountId) returns (r: DispatchResult)
      requires Valid()
      modifies this
      ensures Valid()
      ensures (r, Storage()) == Kitties.Transfer(old(Storage()), stake, who, id, newOwner)
    {
      ghost var s := Storage();
      if Kitties.GetKitty(Storage(), id).None? {
        return Err(InvalidId);
      }
      if id !in kittyOwner || kittyOwner[id] != who {
        return Err(NotOwner);
      }
      var list := Kitties.OwnedBy(ownerKitties, who);
      var index := Position(list, id);
      if index.None? {
        return Err(NotOwner);
      }
      var ownerKitties' := ownerKitties[who := SwapRemove(list, index.value)];
      var reserved := Reserve(ledger, newOwner, stake);
      if reserved.None? {
        return Err(StakeNotEnough);
      }
      var kittyOwner' := kittyOwner[id := newOwner];
      var ledger' := Unreserve(reserved.value, who, stake);
      var pushed := TryPush(Kitties.OwnedBy(ownerKitties', newOwner), id);
      if pushed.None? {
        return Err(ExceedMaxOwnerKitties);
      }
      ghost var s' := Kitties.State(nextKittyId, kitties, kittyOwner', ownerKitties'[newOwner := pushed.value], ledger');
      assert Kitties.Transfer(s, stake, who, id, newOwner) == (Ok, s');
      KittiesProperties.TransferValid(s, stake, who, id, newOwner);
      kittyOwner := kittyOwner';
      ownerKitties := ownerKitties'[newOwner := pushed.value];
      ledger := ledger';
      r := Ok;
    }
  }
}
