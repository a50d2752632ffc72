/**
  The genome combination used by `breed`: every bit of the offspring comes
  from the first parent where the selector bit is 1 and from the second
  parent where it is 0.
 */
module Genome {
  import opened Types

  /** One byte of the offspring: `(a & sel) | (b & !sel)`. */
  function MixByte(a: byte, b: byte, sel: byte): (r: byte) {
    (a & sel) | (b & !sel)
  }

  /** The byte whose only set bit is bit `k`, counting from the least significant. */
  function Mask(k: nat): (m: byte)
    requires k < 8
  {
    [1, 2, 4, 8, 16, 32, 64, 128][k]
  }

  /** Bit `k` of `x`. */
  predicate Bit(x: byte, k: nat)
    requires k < 8
  {
    x & Mask(k) != 0
  }

  /** The whole offspring genome, position by position. */
  function Mix(p1: Dna, p2: Dna, sel: Dna): (child: Dna) {
    seq(16, i requires 0 <= i < 16 => MixByte(p1[i], p2[i], sel[i]))
  }

  /** The byte combinator is a per-bit multiplexer. */
  lemma MixByteIsMultiplexer(a: byte, b: byte, sel: byte)
    ensures forall k: nat | k < 8 ::
      Bit(MixByte(a, b, sel), k) == if Bit(sel, k) then Bit(a, k) else Bit(b, k)
  {
    forall k: nat | k < 8
      ensures Bit(MixByte(a, b, sel), k) == if Bit(sel, k) then Bit(a, k) else Bit(b, k)
    {
      MixByteBit(a, b, sel, k);
    }
  }

  lemma MixByteBit(a: byte, b: byte, sel: byte, k: nat)
    requires k < 8
    ensures Bit(MixByte(a, b, sel), k) == if Bit(sel, k) then Bit(a, k) else Bit(b, k)
  {
    var m := Mask(k);
    assert m == 1 || m == 2 || m == 4 || m == 8 || m == 16 || m == 32 || m == 64 || m == 128;
  }

  /** Where the parents agree, the offspring agrees with them; a full selector
      byte copies the first parent and an empty one the second. */
  lemma MixAt(p1: Dna, p2: Dna, sel: Dna, i: nat)
    requires i < 16
    ensures p1[i] == p2[i] ==> Mix(p1, p2, sel)[i] == p1[i]
    ensures sel[i] == 0xFF ==> Mix(p1, p2, sel)[i] == p1[i]
    ensures sel[i] == 0x00 ==> Mix(p1, p2, sel)[i] == p2[i]
    ensures Mix(p1, p2, sel)[i] & !(p1[i] | p2[i]) == 0
    ensures (p1[i] & p2[i]) & !Mix(p1, p2, sel)[i] == 0
  {
  }

  /** Breeding a genome with itself reproduces it, whatever the selector. */
  lemma MixSelf(p: Dna, sel: Dna)
    ensures Mix(p, p, sel) == p
  {
    forall i | 0 <= i < 16 ensures Mix(p, p, sel)[i] == p[i] {
      MixAt(p, p, sel, i);
    }
  }

  function Complement(sel: Dna): (r: Dna)
    ensures forall i | 0 <= i < 16 :: r[i] & sel[i] == 0 && r[i] | sel[i] == 0xFF
  {
    seq(16, i requires 0 <= i < 16 => !sel[i])
  }

  /** Swapping the parents is the same as complementing the selector. */
  lemma MixSwap(p1: Dna, p2: Dna, sel: Dna)
    ensures Mix(p2, p1, Complement(sel)) == Mix(p1, p2, sel)
  {
    forall i | 0 <= i < 16
      ensures Mix(p2, p1, Complement(sel))[i] == Mix(p1, p2, sel)[i]
    {
      assert Complement(sel)[i] == !sel[i];
    }
  }

  /** The loop of `breed` that fills `data` byte by byte. */
  method MixDna(p1: Dna, p2: Dna, sel: Dna) returns (data: Dna)
    ensures data == Mix(p1, p2, sel)
    ensures forall i | 0 <= i < 16 ::
      forall k: nat | k < 8 :: Bit(data[i], k) == if Bit(sel[i], k) then Bit(p1[i], k) else Bit(p2[i], k)
  {
    var buf := new byte[16](_ => 0);
    for i := 0 to |p1|
      invariant forall j | 0 <= j < i :: buf[j] == MixByte(p1[j], p2[j], sel[j])
    {
      buf[i] := (p1[i] & sel[i]) | (p2[i] & !sel[i]);
    }
    data := buf[..];
    forall i | 0 <= i < 16
      ensures forall k: nat | k < 8 :: Bit(data[i], k) == if Bit(sel[i], k) then Bit(p1[i], k) else Bit(p2[i], k)
    {
      MixByteIsMultiplexer(p1[i], p2[i], sel[i]);
    }
  }
}
