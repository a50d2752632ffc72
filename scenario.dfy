/**
  The runs of the pallet's unit tests, replayed on the model: a chain on
  which account 1 can stake three kitties, account 2 one kitty, and
  account 666 nothing.
 */
module KittiesScenario {
  import opened Types
  import opened Currency
  import opened OwnerList
  import opened Kitties
  import Genome

  function Start(stake: Balance): (s: State) {
    Genesis(map[1 := 3 * stake, 2 := stake])
  }

  /** Account 1 creates kitty 0; the allocator moves to 1. Account 666
      cannot pay the stake. */
  lemma FirstCreate(stake: Balance, dna0: Dna)
    requires stake > 0
    ensures Create(Start(stake), stake, 666, dna0) == (Err(StakeNotEnough), Start(stake))
    ensures var full := Start(stake).(nextKittyId := Some(MAX));
      Create(full, stake, 1, dna0) == (Err(KittiesOverflow), full)
    ensures Create(Start(stake), stake, 1, dna0) ==
      (Ok, State(Some(1), map[0 := Kitty(dna0)], map[0 := 1], map[1 := [0]],
                 Ledger(map[1 := 2 * stake, 2 := stake], map[1 := stake])))
  {
    var l := Start(stake).ledger;
    assert l == Ledger(map[1 := 3 * stake, 2 := stake], map[]);
    assert FreeOf(l, 666) == 0;
    assert FreeOf(l, 1) == 3 * stake;
    assert ReservedOf(l, 1) == 0;
    assert l.free[1 := 3 * stake - stake] == map[1 := 2 * stake, 2 := stake];
    assert l.reserved[1 := 0 + stake] == map[1 := stake];
    var l' := Ledger(map[1 := 2 * stake, 2 := stake], map[1 := stake]);
    assert Reserve(l, 1, stake) == Some(l');
    assert AllocateId(None) == Some(0);
    assert Create(Start(stake), stake, 1, dna0) == Mint(Start(stake), l', 1, 0, Kitty(dna0));
    assert OwnedBy(map[], 1) == [];
    assert |OwnedBy(map[], 1)| < MAX_OWNER_KITTIES;
    assert TryPush([], 0).Some?;
    assert TryPush([], 0).value == [0];
  }

  function AfterFirst(stake: Balance, dna0: Dna): (s: State) {
    State(Some(1), map[0 := Kitty(dna0)], map[0 := 1], map[1 := [0]],
          Ledger(map[1 := 2 * stake, 2 := stake], map[1 := stake]))
  }

  /** With only kitty 0: account 2 may not transfer it, kitty 0 cannot breed
      with itself, nor with the missing kitty 1. A second create gives id 1. */
  lemma SecondCreate(stake: Balance, dna0: Dna, dna1: Dna, sel: Dna)
    requires stake > 0
    ensures var s1 := AfterFirst(stake, dna0);
      && Transfer(s1, stake, 2, 0, 1) == (Err(NotOwner), s1)
      && Breed(s1, stake, 1, 0, 0, sel) == (Err(SameId), s1)
      && Breed(s1, stake, 1, 0, 1, sel) == (Err(InvalidId), s1)
      && Create(s1, stake, 1, dna1) ==
        (Ok, State(Some(2), map[0 := Kitty(dna0), 1 := Kitty(dna1)], map[0 := 1, 1 := 1], map[1 := [0, 1]],
                   Ledger(map[1 := stake, 2 := stake], map[1 := 2 * stake])))
  {
    var s1 := AfterFirst(stake, dna0);
    assert FreeOf(s1.ledger, 1) == 2 * stake && ReservedOf(s1.ledger, 1) == stake;
    var l' := Ledger(map[1 := stake, 2 := stake], map[1 := 2 * stake]);
    assert s1.ledger.free[1 := 2 * stake - stake] == l'.free;
    assert s1.ledger.reserved[1 := stake + stake] == l'.reserved;
    assert Reserve(s1.ledger, 1, stake) == Some(l');
    assert GetKitty(s1, 1) == None;
    assert AllocateId(Some(1)) == Some(1);
    assert Create(s1, stake, 1, dna1) == Mint(s1, l', 1, 1, Kitty(dna1));
    assert OwnedBy(s1.ownerKitties, 1) == [0];
    assert TryPush([0], 1).value == [0, 1];
    assert s1.kitties[1 := Kitty(dna1)] == map[0 := Kitty(dna0), 1 := Kitty(dna1)];
    assert s1.kittyOwner[1 := 1] == map[0 := 1, 1 := 1];
    assert s1.ownerKitties[1 := [0, 1]] == map[1 := [0, 1]];
  }

  /** Account 1 hands its only kitty to account 2: both lists and both
      reservations change by one kitty. */
  lemma FirstTransfer(stake: Balance, dna0: Dna)
    requires stake > 0
    ensures var s1 := AfterFirst(stake, dna0);
      Transfer(s1, stake, 1, 0, 2) ==
        (Ok, s1.(kittyOwner := map[0 := 2], ownerKitties := map[1 := [], 2 := [0]],
                 ledger := Ledger(map[1 := 3 * stake, 2 := 0], map[1 := 0, 2 := stake])))
  {
    var s1 := AfterFirst(stake, dna0);
    assert GetKitty(s1, 0).Some?;
    assert OwnedBy(s1.ownerKitties, 1) == [0];
    assert FirstIndex([0], 0) == Some(0);
    assert SwapRemove([0], 0) == [];
    var owners := s1.ownerKitties[1 := []];
    assert FreeOf(s1.ledger, 2) == stake && ReservedOf(s1.ledger, 2) == 0;
    var l1 := Ledger(map[1 := 2 * stake, 2 := 0], map[1 := stake, 2 := stake]);
    assert s1.ledger.free[2 := stake - stake] == l1.free;
    assert s1.ledger.reserved[2 := 0 + stake] == l1.reserved;
    assert Reserve(s1.ledger, 2, stake) == Some(l1);
    var l2 := Ledger(map[1 := 3 * stake, 2 := 0], map[1 := 0, 2 := stake]);
    assert FreeOf(l1, 1) == 2 * stake && ReservedOf(l1, 1) == stake;
    assert l1.free[1 := 2 * stake + stake] == l2.free;
    assert l1.reserved[1 := stake - stake] == l2.reserved;
    assert Unreserve(l1, 1, stake) == l2;
    assert OwnedBy(owners, 2) == [];
    assert TryPush([], 0).value == [0];
    assert owners[2 := [0]] == map[1 := [], 2 := [0]];
    assert s1.kittyOwner[0 := 2] == map[0 := 2];
  }

  function AfterSecond(stake: Balance, dna0: Dna, dna1: Dna): (s: State) {
    State(Some(2), map[0 := Kitty(dna0), 1 := Kitty(dna1)], map[0 := 1, 1 := 1], map[1 := [0, 1]],
          Ledger(map[1 := stake, 2 := stake], map[1 := 2 * stake]))
  }

  /** Breeding kitties 0 and 1 gives kitty 2 with the mixed genome; with the
      allocator forced to the maximum it fails with `KittiesOverflow`. */
  lemma BreedStep(stake: Balance, dna0: Dna, dna1: Dna, sel: Dna)
    requires stake > 0
    ensures var s2 := AfterSecond(stake, dna0, dna1);
      && Breed(s2.(nextKittyId := Some(MAX)), stake, 1, 0, 1, sel) ==
         (Err(KittiesOverflow), s2.(nextKittyId := Some(MAX)))
      && Breed(s2, stake, 1, 0, 1, sel) ==
        (Ok, State(Some(3), map[0 := Kitty(dna0), 1 := Kitty(dna1), 2 := Kitty(Genome.Mix(dna0, dna1, sel))],
                   map[0 := 1, 1 := 1, 2 := 1], map[1 := [0, 1, 2]],
                   Ledger(map[1 := 0, 2 := stake], map[1 := 3 * stake])))
  {
    var s2 := AfterSecond(stake, dna0, dna1);
    assert FreeOf(s2.ledger, 1) == stake && ReservedOf(s2.ledger, 1) == 2 * stake;
    var l' := Ledger(map[1 := 0, 2 := stake], map[1 := 3 * stake]);
    assert s2.ledger.free[1 := stake - stake] == l'.free;
    assert s2.ledger.reserved[1 := 2 * stake + stake] == l'.reserved;
    assert Reserve(s2.ledger, 1, stake) == Some(l');
    assert GetKitty(s2, 0) == Some(Kitty(dna0)) && GetKitty(s2, 1) == Some(Kitty(dna1));
    assert AllocateId(Some(2)) == Some(2) && AllocateId(Some(MAX)) == None;
    assert Breed(s2, stake, 1, 0, 1, sel) == Mint(s2, l', 1, 2, Kitty(Genome.Mix(dna0, dna1, sel)));
    assert OwnedBy(s2.ownerKitties, 1) == [0, 1];
    assert TryPush([0, 1], 2).value == [0, 1, 2];
    assert s2.kitties[2 := Kitty(Genome.Mix(dna0, dna1, sel))]
        == map[0 := Kitty(dna0), 1 := Kitty(dna1), 2 := Kitty(Genome.Mix(dna0, dna1, sel))];
    assert s2.kittyOwner[2 := 1] == map[0 := 1, 1 := 1, 2 := 1];
    assert s2.ownerKitties[1 := [0, 1, 2]] == map[1 := [0, 1, 2]];
  }

  function AfterBreed(stake: Balance, dna0: Dna, dna1: Dna, sel: Dna): (s: State) {
    State(Some(3), map[0 := Kitty(dna0), 1 := Kitty(dna1), 2 := Kitty(Genome.Mix(dna0, dna1, sel))],
          map[0 := 1, 1 := 1, 2 := 1], map[1 := [0, 1, 2]],
          Ledger(map[1 := 0, 2 := stake], map[1 := 3 * stake]))
  }

  /** Account 1 transfers kitty 0 to account 2: kitty 2 takes its place in
      account 1's list, and one stake moves from account 1 to account 2. */
  lemma TransferStep(stake: Balance, dna0: Dna, dna1: Dna, sel: Dna)
    requires stake > 0
    ensures var s3 := AfterBreed(stake, dna0, dna1, sel);
      Transfer(s3, stake, 1, 0, 2) ==
        (Ok, s3.(kittyOwner := map[0 := 2, 1 := 1, 2 := 1], ownerKitties := map[1 := [2, 1], 2 := [0]],
                 ledger := Ledger(map[1 := stake, 2 := 0], map[1 := 2 * stake, 2 := stake])))
  {
    var s3 := AfterBreed(stake, dna0, dna1, sel);
    assert GetKitty(s3, 0).Some?;
    assert OwnedBy(s3.ownerKitties, 1) == [0, 1, 2];
    assert FirstIndex([0, 1, 2], 0) == Some(0);
    assert SwapRemove([0, 1, 2], 0) == [2, 1];
    var owners := s3.ownerKitties[1 := [2, 1]];
    assert FreeOf(s3.ledger, 2) == stake && ReservedOf(s3.ledger, 2) == 0;
    var l1 := Ledger(map[1 := 0, 2 := 0], map[1 := 3 * stake, 2 := stake]);
    assert s3.ledger.free[2 := stake - stake] == l1.free;
    assert s3.ledger.reserved[2 := 0 + stake] == l1.reserved;
    assert Reserve(s3.ledger, 2, stake) == Some(l1);
    var l2 := Ledger(map[1 := stake, 2 := 0], map[1 := 2 * stake, 2 := stake]);
    assert FreeOf(l1, 1) == 0 && ReservedOf(l1, 1) == 3 * stake;
    assert l1.free[1 := 0 + stake] == l2.free;
    assert l1.reserved[1 := 3 * stake - stake] == l2.reserved;
    assert Unreserve(l1, 1, stake) == l2;
    assert OwnedBy(owners, 2) == [];
    assert TryPush([], 0).value == [0];
    assert owners[2 := [0]] == map[1 := [2, 1], 2 := [0]];
    assert s3.kittyOwner[0 := 2] == map[0 := 2, 1 := 1, 2 := 1];
  }
}
