/**
  The part of the runtime's reservable currency (`T::Currency`) that the
  pallet relies on: every account has a free and a reserved balance;
  `reserve` moves an amount from free to reserved and fails when the free
  balance is too small; `unreserve` moves back as much as is reserved, up to
  the amount asked, and never fails.
 */
module Currency {
  import opened Types

  /** Absent accounts hold nothing. */
  datatype Ledger = Ledger(free: map<AccountId, Balance>, reserved: map<AccountId, Balance>)

  function FreeOf(l: Ledger, who: AccountId): (r: Balance) {
    if who in l.free then l.free[who] else 0
  }

  function ReservedOf(l: Ledger, who: AccountId): (r: Balance) {
    if who in l.reserved then l.reserved[who] else 0
  }

  /** Both ledgers show every account the same free and reserved balance. */
  ghost predicate SameBalances(l: Ledger, l': Ledger) {
    forall a :: FreeOf(l', a) == FreeOf(l, a) && ReservedOf(l', a) == ReservedOf(l, a)
  }

  /** Only `who`'s balances may differ between the two ledgers. */
  ghost predicate OthersUnchanged(l: Ledger, l': Ledger, who: AccountId) {
    forall a | a != who :: FreeOf(l', a) == FreeOf(l, a) && ReservedOf(l', a) == ReservedOf(l, a)
  }

  /** `ReservableCurrency::reserve`. */
  function Reserve(l: Ledger, who: AccountId, amount: Balance): (r: Option<Ledger>)
    ensures r.Some? <==> amount <= FreeOf(l, who)
    ensures r.Some? ==>
      && FreeOf(r.value, who) == FreeOf(l, who) - amount
      && ReservedOf(r.value, who) == ReservedOf(l, who) + amount
      && OthersUnchanged(l, r.value, who)
  {
    if FreeOf(l, who) < amount then None
    else Some(Ledger(l.free[who := FreeOf(l, who) - amount], l.reserved[who := ReservedOf(l, who) + amount]))
  }

  /** `ReservableCurrency::unreserve`: the part of `amount` that is not
      reserved is simply not moved. */
  function Unreserve(l: Ledger, who: AccountId, amount: Balance): (r: Ledger)
    ensures amount <= ReservedOf(l, who) ==>
      && FreeOf(r, who) == FreeOf(l, who) + amount
      && ReservedOf(r, who) == ReservedOf(l, who) - amount
    ensures ReservedOf(l, who) < amount ==>
      && FreeOf(r, who) == FreeOf(l, who) + ReservedOf(l, who)
      && ReservedOf(r, who) == 0
    ensures OthersUnchanged(l, r, who)
  {
    var moved := if amount <= ReservedOf(l, who) then amount else ReservedOf(l, who);
    Ledger(l.free[who := FreeOf(l, who) + moved], l.reserved[who := ReservedOf(l, who) - moved])
  }

  /** Neither operation creates or destroys funds: every account's total
      (free plus reserved) is the same afterwards. */
  lemma BalancesConserved(l: Ledger, who: AccountId, amount: Balance, a: AccountId)
    ensures Reserve(l, who, amount).Some? ==>
      FreeOf(Reserve(l, who, amount).value, a) + ReservedOf(Reserve(l, who, amount).value, a)
        == FreeOf(l, a) + ReservedOf(l, a)
    ensures FreeOf(Unreserve(l, who, amount), a) + ReservedOf(Unreserve(l, who, amount), a)
        == FreeOf(l, a) + ReservedOf(l, a)
  {
  }

  /** Unreserving what was just reserved gives every account back its balances. */
  lemma UnreserveUndoesReserve(l: Ledger, who: AccountId, amount: Balance)
    requires Reserve(l, who, amount).Some?
    ensures SameBalances(l, Unreserve(Reserve(l, who, amount).value, who, amount))
  {
    var l1 := Reserve(l, who, amount).value;
    var l2 := Unreserve(l1, who, amount);
    forall a ensures FreeOf(l2, a) == FreeOf(l, a) && ReservedOf(l2, a) == ReservedOf(l, a) {
      if a != who {
        assert FreeOf(l1, a) == FreeOf(l, a) && ReservedOf(l1, a) == ReservedOf(l, a);
      }
    }
  }
}
