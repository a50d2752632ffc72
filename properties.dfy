/**
  What the three calls guarantee: their ordered error checks, what a
  successful call writes, that a failed call writes nothing, the genome law
  of `breed`, the owner-list capacity, and the storage invariant they keep.
 */
module KittiesProperties {
  import opened Types
  import opened Currency
  import opened OwnerList
  import opened Kitties
  import Genome

  /** Kitties are never changed or removed, the allocator never goes back,
      and every new kitty takes an id the allocator had not handed out. */
  ghost predicate Grows(s: State, s': State) {
    && NextBound(s.nextKittyId) <= NextBound(s'.nextKittyId)
    && (forall id | id in s.kitties :: id in s'.kitties && s'.kitties[id] == s.kitties[id])
    && (forall id | id in s'.kitties && id !in s.kitties :: NextBound(s.nextKittyId) <= id)
  }

  // ---------------------------------------------------------------- create

  /** `create` fails on a full allocator, then on a failed reservation, then
      on a full list, and a failed call changes nothing; otherwise the new
      kitty takes the allocator's old value (0 when unset). */
  lemma CreateOutcome(s: State, stake: Balance, who: AccountId, dna: Dna)
    ensures s.nextKittyId == Some(MAX) ==> Create(s, stake, who, dna) == (Err(KittiesOverflow), s)
    ensures s.nextKittyId != Some(MAX) && FreeOf(s.ledger, who) < stake ==>
      Create(s, stake, who, dna) == (Err(StakeNotEnough), s)
    ensures (s.nextKittyId != Some(MAX) && stake <= FreeOf(s.ledger, who)
             && |OwnedBy(s.ownerKitties, who)| >= MAX_OWNER_KITTIES) ==>
      Create(s, stake, who, dna) == (Err(ExceedMaxOwnerKitties), s)
    ensures Create(s, stake, who, dna).0 == Ok <==>
      s.nextKittyId != Some(MAX) && stake <= FreeOf(s.ledger, who) && |OwnedBy(s.ownerKitties, who)| < MAX_OWNER_KITTIES
    ensures Create(s, stake, who, dna).0.Err? ==> Create(s, stake, who, dna).1 == s
  {
  }

  lemma CreateSuccess(s: State, stake: Balance, who: AccountId, dna: Dna)
    requires Create(s, stake, who, dna).0 == Ok
    ensures var s', id := Create(s, stake, who, dna).1, NextBound(s.nextKittyId);
      && id < MAX
      && s'.nextKittyId == Some(id + 1)
      && s'.kitties == s.kitties[id := Kitty(dna)]
      && s'.kittyOwner == s.kittyOwner[id := who]
      && OwnedBy(s'.ownerKitties, who) == OwnedBy(s.ownerKitties, who) + [id]
      && (forall o | o != who :: OwnedBy(s'.ownerKitties, o) == OwnedBy(s.ownerKitties, o))
      && ReservedOf(s'.ledger, who) == ReservedOf(s.ledger, who) + stake
      && FreeOf(s'.ledger, who) == FreeOf(s.ledger, who) - stake
      && OthersUnchanged(s.ledger, s'.ledger, who)
  {
  }

  // ----------------------------------------------------------------- breed

  /** `breed` checks, in this order: distinct parents, the reservation, that
      both parents exist, the allocator, the caller's list; a failed call
      changes nothing. */
  lemma BreedOutcome(s: State, stake: Balance, who: AccountId, id1: KittyIndex, id2: KittyIndex, sel: Dna)
    ensures id1 == id2 ==> Breed(s, stake, who, id1, id2, sel) == (Err(SameId), s)
    ensures id1 != id2 && FreeOf(s.ledger, who) < stake ==>
      Breed(s, stake, who, id1, id2, sel) == (Err(StakeNotEnough), s)
    ensures id1 != id2 && stake <= FreeOf(s.ledger, who) && (id1 !in s.kitties || id2 !in s.kitties) ==>
      Breed(s, stake, who, id1, id2, sel) == (Err(InvalidId), s)
    ensures (id1 != id2 && stake <= FreeOf(s.ledger, who) && id1 in s.kitties && id2 in s.kitties
             && s.nextKittyId == Some(MAX)) ==>
      Breed(s, stake, who, id1, id2, sel) == (Err(KittiesOverflow), s)
    ensures (id1 != id2 && stake <= FreeOf(s.ledger, who) && id1 in s.kitties && id2 in s.kitties
             && s.nextKittyId != Some(MAX) && |OwnedBy(s.ownerKitties, who)| >= MAX_OWNER_KITTIES) ==>
      Breed(s, stake, who, id1, id2, sel) == (Err(ExceedMaxOwnerKitties), s)
    ensures Breed(s, stake, who, id1, id2, sel).0 == Ok <==>
      && id1 != id2 && stake <= FreeOf(s.ledger, who) && id1 in s.kitties && id2 in s.kitties
      && s.nextKittyId != Some(MAX) && |OwnedBy(s.ownerKitties, who)| < MAX_OWNER_KITTIES
    ensures Breed(s, stake, who, id1, id2, sel).0.Err? ==> Breed(s, stake, who, id1, id2, sel).1 == s
  {
  }

  /** A successful `breed` writes the same storage as a `create` whose genome
      is the per-bit mix of the parents': each offspring bit is the first
      parent's where the selector bit is set and the second's elsewhere. */
  lemma BreedSuccess(s: State, stake: Balance, who: AccountId, id1: KittyIndex, id2: KittyIndex, sel: Dna)
    requires Breed(s, stake, who, id1, id2, sel).0 == Ok
    ensures id1 in s.kitties && id2 in s.kitties
    ensures var child := Genome.Mix(s.kitties[id1].dna, s.kitties[id2].dna, sel);
      && Breed(s, stake, who, id1, id2, sel) == Create(s, stake, who, child)
      && Breed(s, stake, who, id1, id2, sel).1.kitties[NextBound(s.nextKittyId)] == Kitty(child)
    ensures var p1, p2, child := s.kitties[id1].dna, s.kitties[id2].dna,
                                  Breed(s, stake, who, id1, id2, sel).1.kitties[NextBound(s.nextKittyId)].dna;
      forall i, k: nat | 0 <= i < 16 && k < 8 ::
        Genome.Bit(child[i], k) == if Genome.Bit(sel[i], k) then Genome.Bit(p1[i], k) else Genome.Bit(p2[i], k)
  {
    var p1, p2 := s.kitties[id1].dna, s.kitties[id2].dna;
    var child := Genome.Mix(p1, p2, sel);
    assert Create(s, stake, who, child).0 == Ok by { CreateOutcome(s, stake, who, child); }
    forall i, k: nat | 0 <= i < 16 && k < 8
      ensures Genome.Bit(child[i], k) == if Genome.Bit(sel[i], k) then Genome.Bit(p1[i], k) else Genome.Bit(p2[i], k)
    {
      Genome.MixByteBit(p1[i], p2[i], sel[i], k);
    }
  }

  // -------------------------------------------------------------- transfer

  /** `transfer` fails on an unknown kitty, then when the caller is not its
      recorded owner or does not list it, then on a failed reservation for the
      new owner, then on the new owner's full list; a failed call changes
      nothing. */
  lemma TransferOutcome(s: State, stake: Balance, who: AccountId, id: KittyIndex, newOwner: AccountId)
    ensures id !in s.kitties ==> Transfer(s, stake, who, id, newOwner) == (Err(InvalidId), s)
    ensures id in s.kitties && (id !in s.kittyOwner || s.kittyOwner[id] != who) ==>
      Transfer(s, stake, who, id, newOwner) == (Err(NotOwner), s)
    ensures id in s.kitties && id !in OwnedBy(s.ownerKitties, who) ==>
      Transfer(s, stake, who, id, newOwner) == (Err(NotOwner), s)
    ensures (id in s.kitties && id in s.kittyOwner && s.kittyOwner[id] == who && id in OwnedBy(s.ownerKitties, who)
             && FreeOf(s.ledger, newOwner) < stake) ==>
      Transfer(s, stake, who, id, newOwner) == (Err(StakeNotEnough), s)
    ensures (id in s.kitties && id in s.kittyOwner && s.kittyOwner[id] == who && id in OwnedBy(s.ownerKitties, who)
             && stake <= FreeOf(s.ledger, newOwner)
             && newOwner != who && |OwnedBy(s.ownerKitties, newOwner)| >= MAX_OWNER_KITTIES) ==>
      Transfer(s, stake, who, id, newOwner) == (Err(ExceedMaxOwnerKitties), s)
    ensures newOwner != who && |OwnedBy(s.ownerKitties, newOwner)| >= MAX_OWNER_KITTIES ==>
      Transfer(s, stake, who, id, newOwner).0.Err? && Transfer(s, stake, who, id, newOwner).1 == s
    ensures Transfer(s, stake, who, id, newOwner).0 == Ok <==>
      && id in s.kitties && id in s.kittyOwner && s.kittyOwner[id] == who && id in OwnedBy(s.ownerKitties, who)
      && stake <= FreeOf(s.ledger, newOwner)
      && if newOwner == who then |OwnedBy(s.ownerKitties, who)| <= MAX_OWNER_KITTIES
         else |OwnedBy(s.ownerKitties, newOwner)| < MAX_OWNER_KITTIES
    ensures Transfer(s, stake, who, id, newOwner).0.Err? ==> Transfer(s, stake, who, id, newOwner).1 == s
  {
    var l := OwnedBy(s.ownerKitties, who);
    var f := FirstIndex(l, id);
    if id in s.kitties && id in s.kittyOwner && s.kittyOwner[id] == who && f.Some? && newOwner == who {
      var owners := s.ownerKitties[who := SwapRemove(l, f.value)];
      assert |OwnedBy(owners, newOwner)| == |l| - 1;
    }
  }

  /** What a valid state tells about the kitty `id` owned by `who`: its
      owner lists it once, and holds at least one stake in reserve. */
  lemma OwnedFacts(s: State, stake: Balance, who: AccountId, id: KittyIndex)
    requires Valid(s, stake) && id in s.kittyOwner && s.kittyOwner[id] == who
    ensures who in s.ownerKitties && id in s.ownerKitties[who]
    ensures NoDuplicates(s.ownerKitties[who])
    ensures ReservedOf(s.ledger, who) == |s.ownerKitties[who]| * stake
    ensures ReservedOf(s.ledger, who) >= stake
  {
    assert id in OwnedBy(s.ownerKitties, who);
    var n := |s.ownerKitties[who]|;
    assert ReservedOf(s.ledger, who) == |OwnedBy(s.ownerKitties, who)| * stake;
    AtLeastOne(n, stake);
  }

  lemma AtLeastOne(n: nat, stake: Balance)
    requires n >= 1
    ensures n * stake >= stake
  {
    MulStep(n - 1, stake);
  }

  lemma MulStep(n: nat, stake: Balance)
    ensures (n + 1) * stake == n * stake + stake
  {
  }

  /** On a valid state the second `NotOwner` check of `transfer` (the
      caller's list does not hold the id) never fires. */
  lemma TransferListCheckRedundant(s: State, stake: Balance, who: AccountId, id: KittyIndex)
    requires Valid(s, stake)
    requires id in s.kittyOwner && s.kittyOwner[id] == who
    ensures FirstIndex(OwnedBy(s.ownerKitties, who), id).Some?
  {
    OwnedFacts(s, stake, who, id);
  }

  /** The state a successful transfer leaves: the id moved in `KittyOwner`,
      the caller's list after `swap_remove`, the new owner's list (read
      after that removal) with the id appended, and the two balance moves. */
  lemma TransferShape(s: State, stake: Balance, who: AccountId, id: KittyIndex, newOwner: AccountId)
    requires Transfer(s, stake, who, id, newOwner).0 == Ok
    ensures FirstIndex(OwnedBy(s.ownerKitties, who), id).Some?
    ensures Reserve(s.ledger, newOwner, stake).Some?
    ensures var l := OwnedBy(s.ownerKitties, who);
      var owners := s.ownerKitties[who := SwapRemove(l, FirstIndex(l, id).value)];
      Transfer(s, stake, who, id, newOwner).1 ==
        State(s.nextKittyId, s.kitties, s.kittyOwner[id := newOwner],
              owners[newOwner := OwnedBy(owners, newOwner) + [id]],
              Unreserve(Reserve(s.ledger, newOwner, stake).value, who, stake))
  {
  }

  /** After a successful transfer the new owner owns the kitty and lists it
      last, and the caller's list has lost exactly that one id by
      `swap_remove`; every other list is as it was. */
  lemma TransferSuccess(s: State, stake: Balance, who: AccountId, id: KittyIndex, newOwner: AccountId)
    requires Valid(s, stake)
    requires Transfer(s, stake, who, id, newOwner).0 == Ok
    ensures var s' := Transfer(s, stake, who, id, newOwner).1;
      && s'.kittyOwner == s.kittyOwner[id := newOwner]
      && s'.kitties == s.kitties && s'.nextKittyId == s.nextKittyId
      && |OwnedBy(s'.ownerKitties, newOwner)| > 0
      && OwnedBy(s'.ownerKitties, newOwner)[|OwnedBy(s'.ownerKitties, newOwner)| - 1] == id
      && (forall o | o != who && o != newOwner :: OwnedBy(s'.ownerKitties, o) == OwnedBy(s.ownerKitties, o))
    ensures var s' := Transfer(s, stake, who, id, newOwner).1;
      newOwner != who ==>
        && id !in OwnedBy(s'.ownerKitties, who)
        && multiset(OwnedBy(s'.ownerKitties, who)) == multiset(OwnedBy(s.ownerKitties, who)) - multiset{id}
        && OwnedBy(s'.ownerKitties, newOwner) == OwnedBy(s.ownerKitties, newOwner) + [id]
    ensures var s' := Transfer(s, stake, who, id, newOwner).1;
      newOwner == who ==> multiset(OwnedBy(s'.ownerKitties, who)) == multiset(OwnedBy(s.ownerKitties, who))
  {
    TransferShape(s, stake, who, id, newOwner);
    OwnedFacts(s, stake, who, id);
    var l := OwnedBy(s.ownerKitties, who);
    var i := FirstIndex(l, id).value;
    SwapRemovePermutes(l, i);
    var l1 := SwapRemove(l, i);
    if newOwner == who {
      calc {
        multiset(l1 + [id]);
        multiset(l) - multiset{id} + multiset{id};
        multiset(l);
      }
    } else {
      SwapRemoveMembers(l, i);
    }
  }

  /** A successful transfer moves one stake from the caller's reservation
      to the new owner's and leaves every other balance as it was; a
      transfer to oneself reserves and releases the same stake. */
  lemma TransferStakeMoves(s: State, stake: Balance, who: AccountId, id: KittyIndex, newOwner: AccountId)
    requires Valid(s, stake)
    requires Transfer(s, stake, who, id, newOwner).0 == Ok
    ensures var s' := Transfer(s, stake, who, id, newOwner).1;
      forall o | o != who && o != newOwner ::
        FreeOf(s'.ledger, o) == FreeOf(s.ledger, o) && ReservedOf(s'.ledger, o) == ReservedOf(s.ledger, o)
    ensures var s' := Transfer(s, stake, who, id, newOwner).1;
      newOwner != who ==>
        && ReservedOf(s'.ledger, who) == ReservedOf(s.ledger, who) - stake
        && FreeOf(s'.ledger, who) == FreeOf(s.ledger, who) + stake
        && ReservedOf(s'.ledger, newOwner) == ReservedOf(s.ledger, newOwner) + stake
        && FreeOf(s'.ledger, newOwner) == FreeOf(s.ledger, newOwner) - stake
    ensures var s' := Transfer(s, stake, who, id, newOwner).1;
      newOwner == who ==> SameBalances(s.ledger, s'.ledger)
  {
    TransferShape(s, stake, who, id, newOwner);
    OwnedFacts(s, stake, who, id);
    if newOwner == who {
      UnreserveUndoesReserve(s.ledger, who, stake);
    }
  }

  // ---------------------------------------------------------------- capacity

  /** An owner whose list is full cannot receive a kitty through any of the
      three calls, and the call leaves the full list as it was. */
  lemma FullListRejects(s: State, stake: Balance, who: AccountId, from: AccountId, id: KittyIndex,
                        id1: KittyIndex, id2: KittyIndex, dna: Dna, sel: Dna)
    requires |OwnedBy(s.ownerKitties, who)| == MAX_OWNER_KITTIES
    ensures Create(s, stake, who, dna).0.Err? && Create(s, stake, who, dna).1 == s
    ensures Breed(s, stake, who, id1, id2, sel).0.Err? && Breed(s, stake, who, id1, id2, sel).1 == s
    ensures from != who ==> Transfer(s, stake, from, id, who).0.Err? && Transfer(s, stake, from, id, who).1 == s
  {
    CreateOutcome(s, stake, who, dna);
    BreedOutcome(s, stake, who, id1, id2, sel);
    TransferOutcome(s, stake, from, id, who);
  }

  // -------------------------------------------------------------- invariant

  lemma GenesisValid(balances: map<AccountId, Balance>, stake: Balance)
    ensures Valid(Genesis(balances), stake)
  {
  }

  /** The common tail of `create` and `breed` keeps the invariant, given the
      allocator's id and the caller's fresh reservation. */
  lemma MintValid(s: State, stake: Balance, who: AccountId, id: KittyIndex, kitty: Kitty)
    requires Valid(s, stake)
    requires id == NextBound(s.nextKittyId) && id < MAX
    requires Reserve(s.ledger, who, stake).Some?
    ensures Valid(Mint(s, Reserve(s.ledger, who, stake).value, who, id, kitty).1, stake)
    ensures Grows(s, Mint(s, Reserve(s.ledger, who, stake).value, who, id, kitty).1)
  {
    var ledger := Reserve(s.ledger, who, stake).value;
    var l := OwnedBy(s.ownerKitties, who);
    if TryPush(l, id).Some? {
      var s' := State(Some(id + 1), s.kitties[id := kitty], s.kittyOwner[id := who],
                      s.ownerKitties[who := l + [id]], ledger);
      assert Mint(s, ledger, who, id, kitty).1 == s';
      AddValid(s, s', stake, who, id, kitty);
    }
  }

  /** Storing a kitty under the allocator's id, giving it to `who`, listing
      it and reserving one more stake for `who` keeps the invariant. */
  lemma AddValid(s: State, s': State, stake: Balance, who: AccountId, id: KittyIndex, kitty: Kitty)
    requires Valid(s, stake)
    requires id == NextBound(s.nextKittyId) && id < MAX
    requires |OwnedBy(s.ownerKitties, who)| < MAX_OWNER_KITTIES
    requires s'.nextKittyId == Some(id + 1) && s'.kitties == s.kitties[id := kitty]
    requires s'.kittyOwner == s.kittyOwner[id := who]
    requires s'.ownerKitties == s.ownerKitties[who := OwnedBy(s.ownerKitties, who) + [id]]
    requires ReservedOf(s'.ledger, who) == ReservedOf(s.ledger, who) + stake
    requires forall o | o != who :: ReservedOf(s'.ledger, o) == ReservedOf(s.ledger, o)
    ensures Valid(s', stake) && Grows(s, s')
  {
    FreshId(s, stake, who, id);
    PushKeepsNoDuplicates(OwnedBy(s.ownerKitties, who), id);
    AddKeepsBounded(s, s', who, id);
    AddKeepsOwnership(s, s', who, id);
    AddKeepsStakes(s, s', stake, who);
  }

  /** Appending a fresh id to a list below capacity keeps every list free
      of duplicates and within capacity. */
  lemma AddKeepsBounded(s: State, s': State, who: AccountId, id: KittyIndex)
    requires ListsBounded(s)
    requires NoDuplicates(OwnedBy(s.ownerKitties, who) + [id])
    requires |OwnedBy(s.ownerKitties, who)| < MAX_OWNER_KITTIES
    requires s'.ownerKitties == s.ownerKitties[who := OwnedBy(s.ownerKitties, who) + [id]]
    ensures ListsBounded(s')
  {
  }

  /** The allocator's id is held by no kitty, and so by no list. */
  lemma FreshId(s: State, stake: Balance, who: AccountId, id: KittyIndex)
    requires Valid(s, stake)
    requires id == NextBound(s.nextKittyId)
    ensures id !in s.kitties && id !in s.kittyOwner
    ensures NoDuplicates(OwnedBy(s.ownerKitties, who)) && id !in OwnedBy(s.ownerKitties, who)
  {
    var l := OwnedBy(s.ownerKitties, who);
    forall j | 0 <= j < |l| ensures l[j] != id {
      assert who in s.ownerKitties;
      assert l[j] in s.kittyOwner;
    }
  }

  /** Giving a fresh id to `who` and appending it to `who`'s list keeps
      lists and owner entries in agreement. */
  lemma AddKeepsOwnership(s: State, s': State, who: AccountId, id: KittyIndex)
    requires ListsAgreeWithOwners(s) && OwnersListKitties(s)
    requires id !in s.kittyOwner
    requires s'.kittyOwner == s.kittyOwner[id := who]
    requires s'.ownerKitties == s.ownerKitties[who := OwnedBy(s.ownerKitties, who) + [id]]
    ensures ListsAgreeWithOwners(s') && OwnersListKitties(s')
  {
    var l := OwnedBy(s.ownerKitties, who);
    forall o, j | o in s'.ownerKitties && 0 <= j < |s'.ownerKitties[o]|
      ensures s'.ownerKitties[o][j] in s'.kittyOwner && s'.kittyOwner[s'.ownerKitties[o][j]] == o
    {
      if o == who && j == |l| {
      } else {
        assert s'.ownerKitties[o][j] == s.ownerKitties[o][j];
      }
    }
  }

  /** One more stake reserved for `who` along with one more list entry keeps
      the one-stake-per-kitty reservation. */
  lemma AddKeepsStakes(s: State, s': State, stake: Balance, who: AccountId)
    requires StakesReserved(s, stake)
    requires |OwnedBy(s'.ownerKitties, who)| == |OwnedBy(s.ownerKitties, who)| + 1
    requires forall o | o != who :: OwnedBy(s'.ownerKitties, o) == OwnedBy(s.ownerKitties, o)
    requires ReservedOf(s'.ledger, who) == ReservedOf(s.ledger, who) + stake
    requires forall o | o != who :: ReservedOf(s'.ledger, o) == ReservedOf(s.ledger, o)
    ensures StakesReserved(s', stake)
  {
    forall o ensures ReservedOf(s'.ledger, o) == |OwnedBy(s'.ownerKitties, o)| * stake {
      if o == who {
        MulStep(|OwnedBy(s.ownerKitties, who)|, stake);
      } else {
        assert ReservedOf(s.ledger, o) == |OwnedBy(s.ownerKitties, o)| * stake;
      }
    }
  }

  lemma CreateValid(s: State, stake: Balance, who: AccountId, dna: Dna)
    requires Valid(s, stake)
    ensures Valid(Create(s, stake, who, dna).1, stake)
    ensures Grows(s, Create(s, stake, who, dna).1)
  {
    if s.nextKittyId != Some(MAX) && Reserve(s.ledger, who, stake).Some? {
      MintValid(s, stake, who, NextBound(s.nextKittyId), Kitty(dna));
    }
  }

  lemma BreedValid(s: State, stake: Balance, who: AccountId, id1: KittyIndex, id2: KittyIndex, sel: Dna)
    requires Valid(s, stake)
    ensures Valid(Breed(s, stake, who, id1, id2, sel).1, stake)
    ensures Grows(s, Breed(s, stake, who, id1, id2, sel).1)
  {
    if Breed(s, stake, who, id1, id2, sel).0 == Ok {
      BreedSuccess(s, stake, who, id1, id2, sel);
      CreateValid(s, stake, who, Genome.Mix(s.kitties[id1].dna, s.kitties[id2].dna, sel));
    }
  }

  /** The lists after a successful transfer: the caller's list minus `id`,
      the new owner's list plus `id`, every other list as it was. */
  lemma TransferLists(s: State, stake: Balance, who: AccountId, id: KittyIndex, newOwner: AccountId)
    requires Valid(s, stake)
    requires Transfer(s, stake, who, id, newOwner).0 == Ok
    ensures var s' := Transfer(s, stake, who, id, newOwner).1;
      forall o, x :: x in OwnedBy(s'.ownerKitties, o) <==>
        if x == id then o == newOwner else x in OwnedBy(s.ownerKitties, o)
    ensures var s' := Transfer(s, stake, who, id, newOwner).1;
      forall o | o in s'.ownerKitties ::
        NoDuplicates(s'.ownerKitties[o]) && |s'.ownerKitties[o]| <= MAX_OWNER_KITTIES
    ensures var s' := Transfer(s, stake, who, id, newOwner).1;
      forall o ::
        |OwnedBy(s'.ownerKitties, o)| ==
          (if o == who && o != newOwner then |OwnedBy(s.ownerKitties, o)| - 1
           else if o == newOwner && o != who then |OwnedBy(s.ownerKitties, o)| + 1
           else |OwnedBy(s.ownerKitties, o)|)
  {
    OwnedFacts(s, stake, who, id);
    var l := OwnedBy(s.ownerKitties, who);
    var i := FirstIndex(l, id).value;
    var owners := s.ownerKitties[who := SwapRemove(l, i)];
    assert Transfer(s, stake, who, id, newOwner).1.ownerKitties
        == owners[newOwner := OwnedBy(owners, newOwner) + [id]];
    forall o | o != who ensures id !in OwnedBy(s.ownerKitties, o) {
      forall j | 0 <= j < |OwnedBy(s.ownerKitties, o)| ensures OwnedBy(s.ownerKitties, o)[j] != id {
        assert s.ownerKitties[o][j] in s.kittyOwner;
      }
    }
    MoveBetweenLists(s.ownerKitties, who, newOwner, id, i);
  }

  /** Removing `id` from `who`'s list by `swap_remove` and appending it to
      `newOwner`'s moves exactly that id and keeps every list free of
      duplicates and within capacity. */
  lemma MoveBetweenLists(m: map<AccountId, seq<KittyIndex>>, who: AccountId, newOwner: AccountId,
                         id: KittyIndex, i: nat)
    requires i < |OwnedBy(m, who)| && OwnedBy(m, who)[i] == id
    requires forall o | o != who :: id !in OwnedBy(m, o)
    requires forall o | o in m :: NoDuplicates(m[o]) && |m[o]| <= MAX_OWNER_KITTIES
    requires newOwner != who ==> |OwnedBy(m, newOwner)| < MAX_OWNER_KITTIES
    ensures var owners := m[who := SwapRemove(OwnedBy(m, who), i)];
      var m' := owners[newOwner := OwnedBy(owners, newOwner) + [id]];
      && (forall o, x :: x in OwnedBy(m', o) <==> if x == id then o == newOwner else x in OwnedBy(m, o))
      && (forall o | o in m' :: NoDuplicates(m'[o]) && |m'[o]| <= MAX_OWNER_KITTIES)
      && (forall o ::
            |OwnedBy(m', o)| ==
              (if o == who && o != newOwner then |OwnedBy(m, o)| - 1
               else if o == newOwner && o != who then |OwnedBy(m, o)| + 1
               else |OwnedBy(m, o)|))
  {
    var l := OwnedBy(m, who);
    assert who in m;
    SwapRemoveMembers(l, i);
    var owners := m[who := SwapRemove(l, i)];
    var target := OwnedBy(owners, newOwner);
    assert id !in target;
    PushKeepsNoDuplicates(target, id);
  }

  lemma TransferValid(s: State, stake: Balance, who: AccountId, id: KittyIndex, newOwner: AccountId)
    requires Valid(s, stake)
    ensures Valid(Transfer(s, stake, who, id, newOwner).1, stake)
    ensures Grows(s, Transfer(s, stake, who, id, newOwner).1)
  {
    if Transfer(s, stake, who, id, newOwner).0 == Ok {
      TransferKeepsKitties(s, stake, who, id, newOwner);
      TransferKeepsOwnership(s, stake, who, id, newOwner);
      TransferKeepsStakes(s, stake, who, id, newOwner);
    }
  }

  lemma TransferKeepsKitties(s: State, stake: Balance, who: AccountId, id: KittyIndex, newOwner: AccountId)
    requires Valid(s, stake)
    requires Transfer(s, stake, who, id, newOwner).0 == Ok
    ensures var s' := Transfer(s, stake, who, id, newOwner).1;
      KittiesOwned(s') && IdsBelowAllocator(s') && ListsBounded(s') && Grows(s, s')
  {
    TransferSuccess(s, stake, who, id, newOwner);
    TransferLists(s, stake, who, id, newOwner);
  }

  lemma TransferKeepsOwnership(s: State, stake: Balance, who: AccountId, id: KittyIndex, newOwner: AccountId)
    requires Valid(s, stake)
    requires Transfer(s, stake, who, id, newOwner).0 == Ok
    ensures var s' := Transfer(s, stake, who, id, newOwner).1;
      ListsAgreeWithOwners(s') && OwnersListKitties(s')
  {
    TransferSuccess(s, stake, who, id, newOwner);
    TransferLists(s, stake, who, id, newOwner);
    MoveKeepsOwnership(s, Transfer(s, stake, who, id, newOwner).1, who, id, newOwner);
  }

  lemma TransferKeepsStakes(s: State, stake: Balance, who: AccountId, id: KittyIndex, newOwner: AccountId)
    requires Valid(s, stake)
    requires Transfer(s, stake, who, id, newOwner).0 == Ok
    ensures StakesReserved(Transfer(s, stake, who, id, newOwner).1, stake)
  {
    TransferStakeMoves(s, stake, who, id, newOwner);
    TransferLists(s, stake, who, id, newOwner);
    MoveKeepsStakes(s, Transfer(s, stake, who, id, newOwner).1, stake, who, newOwner);
  }

  /** Moving `id` from `who`'s list to `newOwner`'s, together with its owner
      entry, keeps lists and owner entries in agreement. */
  lemma MoveKeepsOwnership(s: State, s': State, who: AccountId, id: KittyIndex, newOwner: AccountId)
    requires ListsAgreeWithOwners(s) && OwnersListKitties(s)
    requires id in s.kittyOwner && s.kittyOwner[id] == who
    requires s'.kittyOwner == s.kittyOwner[id := newOwner]
    requires forall o, x :: x in OwnedBy(s'.ownerKitties, o) <==>
      if x == id then o == newOwner else x in OwnedBy(s.ownerKitties, o)
    ensures ListsAgreeWithOwners(s') && OwnersListKitties(s')
  {
    forall o, j | o in s'.ownerKitties && 0 <= j < |s'.ownerKitties[o]|
      ensures s'.ownerKitties[o][j] in s'.kittyOwner && s'.kittyOwner[s'.ownerKitties[o][j]] == o
    {
      var x := s'.ownerKitties[o][j];
      assert x in OwnedBy(s'.ownerKitties, o);
      if x != id {
        assert x in OwnedBy(s.ownerKitties, o);
        var m :| 0 <= m < |s.ownerKitties[o]| && s.ownerKitties[o][m] == x;
      }
    }
    forall x | x in s'.kittyOwner ensures x in OwnedBy(s'.ownerKitties, s'.kittyOwner[x]) {
      if x != id {
        assert x in OwnedBy(s.ownerKitties, s.kittyOwner[x]);
      }
    }
  }

  /** One stake moving from `who`'s reservation to `newOwner`'s along with
      one list entry keeps every reservation at one stake per listed kitty. */
  lemma MoveKeepsStakes(s: State, s': State, stake: Balance, who: AccountId, newOwner: AccountId)
    requires StakesReserved(s, stake)
    requires forall o ::
      |OwnedBy(s'.ownerKitties, o)| ==
        (if o == who && o != newOwner then |OwnedBy(s.ownerKitties, o)| - 1
         else if o == newOwner && o != who then |OwnedBy(s.ownerKitties, o)| + 1
         else |OwnedBy(s.ownerKitties, o)|)
    requires newOwner != who ==>
      && ReservedOf(s'.ledger, who) == ReservedOf(s.ledger, who) - stake
      && ReservedOf(s'.ledger, newOwner) == ReservedOf(s.ledger, newOwner) + stake
    requires newOwner == who ==> ReservedOf(s'.ledger, who) == ReservedOf(s.ledger, who)
    requires forall o | o != who && o != newOwner :: ReservedOf(s'.ledger, o) == ReservedOf(s.ledger, o)
    ensures StakesReserved(s', stake)
  {
    forall o ensures ReservedOf(s'.ledger, o) == |OwnedBy(s'.ownerKitties, o)| * stake {
      var n := |OwnedBy(s.ownerKitties, o)|;
      assert ReservedOf(s.ledger, o) == n * stake;
      if newOwner != who && o == who {
        MulStep(n - 1, stake);
      } else if newOwner != who && o == newOwner {
        MulStep(n, stake);
      }
    }
  }
}
