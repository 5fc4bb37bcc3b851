/** The 64-bit account identifier: four fields packed into a bit vector. */
module SteamIds {
  import opened BitVectors

  const ID_OFFSET: nat := 0
  const ID_LEN: nat := 32
  const INSTANCE_OFFSET: nat := 32
  const INSTANCE_LEN: nat := 20
  const TYPE_OFFSET: nat := 52
  const TYPE_LEN: nat := 4
  const UNIVERSE_OFFSET: nat := 56
  const UNIVERSE_LEN: nat := 8
  const VALUE_LEN: nat := 64

  datatype Fields = Fields(id: nat, instance: nat, kind: nat, universe: nat)

  /** The four fields of 64 bits. */
  ghost function FieldsOf(bits: seq<bool>): Fields
    requires |bits| == VALUE_LEN
  {
    Fields(Number(bits[0..32]), Number(bits[32..52]), Number(bits[52..56]), Number(bits[56..64]))
  }

  function WeightedSum(f: Fields): nat {
    f.id + 0x1_0000_0000 * f.instance + 0x10_0000_0000_0000 * f.kind + 0x100_0000_0000_0000 * f.universe
  }

  lemma SmallWeights()
    ensures Pow2(4) == 16 && Pow2(8) == 256 && Pow2(12) == 0x1000
  {
    PowSplit(4, 4);
    PowSplit(8, 4);
  }

  lemma FieldWeights()
    ensures Pow2(4) == 16 && Pow2(8) == 256 && Pow2(20) == 0x10_0000 && Pow2(32) == 0x1_0000_0000
    ensures Pow2(52) == 0x10_0000_0000_0000 && Pow2(56) == 0x100_0000_0000_0000
    ensures Pow2(64) == 0x1_0000_0000_0000_0000
  {
    SmallWeights();
    PowSplit(8, 12);
    PowSplit(20, 12);
    PowSplit(32, 20);
    PowSplit(52, 4);
    PowSplit(56, 8);
  }

  lemma {:induction false} PowSplit(a: nat, b: nat)
    ensures Pow2(a + b) == Pow2(a) * Pow2(b)
  {
    if a > 0 {
      PowSplit(a - 1, b);
      assert 2 * (Pow2(a - 1) * Pow2(b)) == Pow2(a) * Pow2(b);
    }
  }

  /** The whole value is the weighted sum of the fields. */
  lemma ValueIsWeightedSum(bits: seq<bool>)
    requires |bits| == VALUE_LEN
    ensures Number(bits) == WeightedSum(FieldsOf(bits))
  {
    var a, b, c, d := bits[0..32], bits[32..52], bits[52..56], bits[56..64];
    FourFields(bits);
    NumberOfFour(a, b, c, d);
    FieldWeights();
    Weights(Number(bits), Number(a), Number(b), Number(c), Number(d), Pow2(32), Pow2(20), Pow2(4));
  }

  lemma FourFields(bits: seq<bool>)
    requires |bits| == VALUE_LEN
    ensures bits == bits[0..32] + (bits[32..52] + (bits[52..56] + bits[56..64]))
  {}

  lemma NumberOfFour(a: seq<bool>, b: seq<bool>, c: seq<bool>, d: seq<bool>)
    ensures Number(a + (b + (c + d))) ==
            Number(a) + Pow2(|a|) * (Number(b) + Pow2(|b|) * (Number(c) + Pow2(|c|) * Number(d)))
  {
    NumberConcat(a, b + (c + d));
    NumberConcat(b, c + d);
    NumberConcat(c, d);
  }

  lemma Weights(x: nat, a: nat, b: nat, c: nat, d: nat, p: nat, q: nat, r: nat)
    requires x == a + p * (b + q * (c + r * d)) && p == 0x1_0000_0000 && q == 0x10_0000 && r == 16
    ensures x == WeightedSum(Fields(a, b, c, d))
  {}

  /** Writing one field leaves the number in every disjoint range alone. */
  lemma DisjointField(bits: seq<bool>, offset: nat, field: seq<bool>, lo: nat, hi: nat)
    requires offset + |field| <= |bits| && lo <= hi <= |bits| && (hi <= offset || offset + |field| <= lo)
    ensures Spliced(bits, offset, field)[lo..hi] == bits[lo..hi]
  {}

  class SteamId {
    const value: BitVector

    ghost predicate Valid()
      reads value, value.data
    {
      value.Valid() && value.size == VALUE_LEN
    }

    ghost function Parts(): Fields
      requires Valid()
      reads value, value.data
    {
      FieldsOf(value.Bits())
    }

    constructor (v: nat)
      requires v < 0x1_0000_0000_0000_0000
      ensures Valid() && fresh(value) && fresh(value.data)
      ensures WeightedSum(Parts()) == v
    {
      value := new BitVector(VALUE_LEN);
      new;
      SetValue(v);
    }

    method GetAccountID() returns (r: nat)
      requires Valid()
      ensures r == Parts().id < 0x1_0000_0000
    {
      FieldWeights();
      r := value.GetBits(ID_OFFSET, ID_LEN);
    }

    method SetAccountID(v: nat)
      requires Valid()
      modifies value.data
      ensures Valid() && Parts() == old(Parts()).(id := v % 0x1_0000_0000)
    {
      SetField(v, ID_OFFSET, ID_LEN);
    }

    method GetAccountInstance() returns (r: nat)
      requires Valid()
      ensures r == Parts().instance < 0x10_0000
    {
      FieldWeights();
      r := value.GetBits(INSTANCE_OFFSET, INSTANCE_LEN);
    }

    method SetAccountInstance(v: nat)
      requires Valid()
      modifies value.data
      ensures Valid() && Parts() == old(Parts()).(instance := v % 0x10_0000)
    {
      SetField(v, INSTANCE_OFFSET, INSTANCE_LEN);
    }

    method GetAccountType() returns (r: nat)
      requires Valid()
      ensures r == Parts().kind < 16
    {
      FieldWeights();
      r := value.GetBits(TYPE_OFFSET, TYPE_LEN);
    }

    method SetAccountType(v: nat)
      requires Valid()
      modifies value.data
      ensures Valid() && Parts() == old(Parts()).(kind := v % 16)
    {
      SetField(v, TYPE_OFFSET, TYPE_LEN);
    }

    method GetAccountUniverse() returns (r: nat)
      requires Valid()
      ensures r == Parts().universe < 256
    {
      FieldWeights();
      r := value.GetBits(UNIVERSE_OFFSET, UNIVERSE_LEN);
    }

    method SetAccountUniverse(v: nat)
      requires Valid()
      modifies value.data
      ensures Valid() && Parts() == old(Parts()).(universe := v % 256)
    {
      SetField(v, UNIVERSE_OFFSET, UNIVERSE_LEN);
    }

    /** One of the four fields is replaced; the other three keep their numbers. */
    method SetField(v: nat, offset: nat, n: nat)
      requires Valid() && (offset, n) in [(0, 32), (32, 20), (52, 4), (56, 8)]
      modifies value.data
      ensures Valid()
      ensures Parts() == match offset
                         case 0 => old(Parts()).(id := v % 0x1_0000_0000)
                         case 32 => old(Parts()).(instance := v % 0x10_0000)
                         case 52 => old(Parts()).(kind := v % 16)
                         case _ => old(Parts()).(universe := v % 256)
    {
      ghost var bits, field := value.Bits(), ToBits(v, n);
      FieldWeights();
      NumberOfToBits(v, n);
      value.SetBits(v, offset, n);
      assert value.Bits()[offset..offset + n] == field;
      if offset != 0 { DisjointField(bits, offset, field, 0, 32); }
      if offset != 32 { DisjointField(bits, offset, field, 32, 52); }
      if offset != 52 { DisjointField(bits, offset, field, 52, 56); }
      if offset != 56 { DisjointField(bits, offset, field, 56, 64); }
    }

    method GetValue() returns (r: nat)
      requires Valid()
      ensures r == WeightedSum(Parts())
    {
      r := value.GetBits(0, VALUE_LEN);
      assert value.Bits()[0..VALUE_LEN] == value.Bits();
      ValueIsWeightedSum(value.Bits());
    }

    method SetValue(v: nat)
      requires Valid() && v < 0x1_0000_0000_0000_0000
      modifies value.data
      ensures Valid() && WeightedSum(Parts()) == v
    {
      ghost var was := value.Bits();
      value.SetBits(v, 0, VALUE_LEN);
      WholeWritten(was, v);
    }
  }

  /** A value written over all the bits is the weighted sum of the fields. */
  lemma WholeWritten(was: seq<bool>, v: nat)
    requires |was| == VALUE_LEN && v < 0x1_0000_0000_0000_0000
    ensures WeightedSum(FieldsOf(Spliced(was, 0, ToBits(v, VALUE_LEN)))) == v
  {
    var bits := ToBits(v, VALUE_LEN);
    assert Spliced(was, 0, bits) == bits;
    FieldWeights();
    WholeNumber(v, VALUE_LEN);
    ValueIsWeightedSum(bits);
  }

  lemma WholeNumber(v: nat, n: nat)
    requires v < Pow2(n)
    ensures Number(ToBits(v, n)) == v
  {
    NumberOfToBits(v, n);
  }

  /** A value determines its fields, so writing a value and reading it back loses nothing. */
  lemma ValueDeterminesFields(a: seq<bool>, b: seq<bool>)
    requires |a| == |b| == VALUE_LEN && WeightedSum(FieldsOf(a)) == WeightedSum(FieldsOf(b))
    ensures a == b
  {
    ValueIsWeightedSum(a);
    ValueIsWeightedSum(b);
    NumberDetermines(a, b);
  }
}
