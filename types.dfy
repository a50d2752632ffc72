/**
  Types shared by the kitties pallet model: the kitty index, the 16-byte
  genome, account and balance types, and the pallet's error enum.
 */
module Types {

  /** `T::KittyIndex` is an unsigned integer type; the runtime instantiates it
      with `u32`, whose `max_value()` is the sentinel that stops allocation. */
  const MAX: nat := 0xFFFF_FFFF

  type KittyIndex = i: nat | i <= MAX

  /** `OwnerKitties` values are `BoundedVec<KittyIndex, ConstU32<256>>`. */
  const MAX_OWNER_KITTIES: nat := 256

  /** The runtime's account identifier; the pallet only compares accounts. */
  type AccountId = nat

  /** A balance of the external currency. */
  type Balance = nat

  type byte = bv8

  /** The genome `[u8; 16]`. */
  type Dna = s: seq<byte> | |s| == 16 witness seq(16, _ => 0)

  /** `struct Kitty(pub [u8; 16])`. */
  datatype Kitty = Kitty(dna: Dna)

  datatype Option<T> = None | Some(value: T)

  /** The pallet's `Error<T>` enum. */
  datatype Error =
    | InvalidId
    | NotOwner
    | SameId
    | KittiesOverflow
    | ExceedMaxOwnerKitties
    | StakeNotEnough

  /** `DispatchResult` restricted to the pallet's own errors. */
  datatype DispatchResult = Ok | Err(error: Error)
}
