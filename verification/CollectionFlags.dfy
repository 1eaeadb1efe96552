/** Garbage-collection flags packed eight to a byte. */
module CollectionFlags {
  /** 1 << k, for a bit position within a byte. */
  function Mask(k: nat): bv8
    requires k < 8
  {
    match k
    case 0 => 1
    case 1 => 2
    case 2 => 4
    case 3 => 8
    case 4 => 16
    case 5 => 32
    case 6 => 64
    case _ => 128
  }

  predicate Meets(x: bv8, m: bv8) {
    x & m != 0
  }

  function With(m: bv8, x: bv8): bv8 {
    m | x
  }

  function Without(m: bv8, x: bv8): bv8 {
    m & !x
  }

  predicate Bit(m: bv8, k: nat)
    requires k < 8
  {
    Meets(Mask(k), m)
  }

  lemma MaskBits(m: bv8, j: nat, k: nat)
    requires j < 8 && k < 8
    ensures Bit(With(m, Mask(j)), k) == (j == k || Bit(m, k))
    ensures Bit(Without(m, Mask(j)), k) == (j != k && Bit(m, k))
    ensures Bit(0xFF, k)
  {
    hide Mask, Meets, With, Without;
    MaskDistinct(j, k);
    MaskPair(m, Mask(j), Mask(k));
  }

  lemma MaskDistinct(j: nat, k: nat)
    requires j < 8 && k < 8
    ensures Mask(j) != 0 && Mask(k) != 0
    ensures if j == k then Mask(j) == Mask(k) else Mask(j) != Mask(k) && Mask(j) & Mask(k) == 0
  {
  }

  lemma MaskPair(m: bv8, x: bv8, y: bv8)
    requires x != 0 && y != 0 && (x == y || x & y == 0)
    ensures Meets(y, With(m, x)) == (x == y || Meets(y, m))
    ensures Meets(y, Without(m, x)) == (x != y && Meets(y, m))
    ensures Meets(y, 0xFF)
  {
  }

  ghost function Flag(mem: seq<bv8>, i: nat): bool {
    i / 8 < |mem| && Bit(mem[i / 8], i % 8)
  }

  class PackedFlags {
    var mem: seq<bv8>

    /** Room for at least size flags, all of them set. */
    constructor (size: nat)
      ensures 8 * |mem| >= size && forall i: nat | i < 8 * |mem| :: Flag(mem, i)
    {
      mem := seq((size + 7) / 8, i => 0xFF);
      new;
      forall i: nat | i < 8 * |mem|
        ensures Flag(mem, i)
      {
        MaskBits(0, 0, i % 8);
      }
    }

    method BitSet(s: nat)
      requires s < 8 * |mem|
      modifies this
      ensures |mem| == old(|mem|) && forall i: nat :: Flag(mem, i) == (i == s || Flag(old(mem), i))
    {
      ghost var was := mem;
      mem := mem[s / 8 := With(mem[s / 8], Mask(s % 8))];
      forall i: nat
        ensures Flag(mem, i) == (i == s || Flag(was, i))
      {
        Raised(was, s, i);
      }
    }

    method BitUnset(s: nat)
      requires s < 8 * |mem|
      modifies this
      ensures |mem| == old(|mem|) && forall i: nat :: Flag(mem, i) == (i != s && Flag(old(mem), i))
    {
      ghost var was := mem;
      mem := mem[s / 8 := Without(mem[s / 8], Mask(s % 8))];
      forall i: nat
        ensures Flag(mem, i) == (i != s && Flag(was, i))
      {
        Lowered(was, s, i);
      }
    }

    method BitIsSet(s: nat) returns (b: bool)
      requires s < 8 * |mem|
      ensures b == Flag(mem, s)
    {
      b := Bit(mem[s / 8], s % 8);
    }
  }

  lemma Raised(mem: seq<bv8>, s: nat, i: nat)
    requires s < 8 * |mem|
    ensures Flag(mem[s / 8 := With(mem[s / 8], Mask(s % 8))], i) == (i == s || Flag(mem, i))
  {
    hide Bit, Mask, With, Without;
    MaskBits(mem[s / 8], s % 8, i % 8);
  }

  lemma Lowered(mem: seq<bv8>, s: nat, i: nat)
    requires s < 8 * |mem|
    ensures Flag(mem[s / 8 := Without(mem[s / 8], Mask(s % 8))], i) == (i != s && Flag(mem, i))
  {
    hide Bit, Mask, With, Without;
    MaskBits(mem[s / 8], s % 8, i % 8);
  }
}
