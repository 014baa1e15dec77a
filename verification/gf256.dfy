/** The field with 256 elements (src/gf256.rs): bytes, XOR as addition,
    carry-less multiplication reduced modulo x^8 + x^4 + x^3 + x^2 + 1,
    a 256 × 256 multiplication table and an inverse table built by an
    addition chain to the 254th power.

    The two loops of `mul` run a counter over 0..8; the model counts with a
    16-bit vector, which holds every value the counter takes. */
module GF256 {
  import opened Fields

  /** The reducing polynomial x^8 + x^4 + x^3 + x^2 + 1. */
  const REDUCING: bv16 := 0x11D

  /** XOR `addend` into the product when `bits` has a bit in `mask`. */
  function XorIfSet(bits: bv8, mask: bv8, product: bv16, addend: bv16): bv16
  {
    if bits & mask != 0 then product ^ addend else product
  }

  /** XOR `shifted` into the product when the product has the bit `bit`. */
  function ReduceIfSet(product: bv16, bit: bv16, shifted: bv16): bv16
  {
    if product & bit != 0 then product ^ shifted else product
  }

  /** The body of the first loop of `mul` at counter i: bit i of `left`
      selects `right << i`. */
  function XorStep(left: bv8, right: bv8, product: bv16, i: bv16): bv16
    requires i < 8
  {
    XorIfSet(left, 1 << i, product, (right as bv16) << i)
  }

  /** The body of the second loop of `mul` at counter i: bit i + 8 of the
      product selects `REDUCING << i`. */
  function ReduceStep(product: bv16, i: bv16): bv16
    requires i < 8
  {
    ReduceIfSet(product, 1 << (i + 8), REDUCING << i)
  }

  /** The product after the first loop has run for counters 0 .. i - 1. */
  function Carryless(left: bv8, right: bv8, i: bv16): bv16
    requires i <= 8
  {
    if i == 0 then 0 else XorStep(left, right, Carryless(left, right, i - 1), i - 1)
  }

  /** The product after the second loop, started on `full`, has counted
      down from 8 to i (counters 7 .. i done). */
  function Reducing(full: bv16, i: bv16): bv16
    requires i <= 8
    decreases 8 - i
  {
    if i == 8 then full else ReduceStep(Reducing(full, i + 1), i)
  }

  /** `product as u8`: keeps the low eight bits. */
  function Truncate(p: bv16): bv8
  {
    (p & 0xFF) as bv8
  }

  /** `mul`, with both loops unrolled: the eight shifted copies of `right`
      selected by the bits of `left`, then bits 15 down to 8 cleared by
      shifted copies of REDUCING, then the cast. */
  function Mul(left: bv8, right: bv8): bv8
  {
    var w := right as bv16;
    var p := XorIfSet(left, 0x01, 0, w);
    var p := XorIfSet(left, 0x02, p, w << 1);
    var p := XorIfSet(left, 0x04, p, w << 2);
    var p := XorIfSet(left, 0x08, p, w << 3);
    var p := XorIfSet(left, 0x10, p, w << 4);
    var p := XorIfSet(left, 0x20, p, w << 5);
    var p := XorIfSet(left, 0x40, p, w << 6);
    var p := XorIfSet(left, 0x80, p, w << 7);
    var p := ReduceIfSet(p, 0x8000, 0x8E80);
    var p := ReduceIfSet(p, 0x4000, 0x4740);
    var p := ReduceIfSet(p, 0x2000, 0x23A0);
    var p := ReduceIfSet(p, 0x1000, 0x11D0);
    var p := ReduceIfSet(p, 0x0800, 0x08E8);
    var p := ReduceIfSet(p, 0x0400, 0x0474);
    var p := ReduceIfSet(p, 0x0200, 0x023A);
    var p := ReduceIfSet(p, 0x0100, 0x011D);
    Truncate(p)
  }

  /** The first loop, unrolled. */
  function CarrylessUnrolled(left: bv8, right: bv8): bv16
  {
    var w := right as bv16;
    var p := XorIfSet(left, 0x01, 0, w);
    var p := XorIfSet(left, 0x02, p, w << 1);
    var p := XorIfSet(left, 0x04, p, w << 2);
    var p := XorIfSet(left, 0x08, p, w << 3);
    var p := XorIfSet(left, 0x10, p, w << 4);
    var p := XorIfSet(left, 0x20, p, w << 5);
    var p := XorIfSet(left, 0x40, p, w << 6);
    XorIfSet(left, 0x80, p, w << 7)
  }

  /** The second loop, unrolled. */
  function ReducingUnrolled(p: bv16): bv16
  {
    var p := ReduceIfSet(p, 0x8000, 0x8E80);
    var p := ReduceIfSet(p, 0x4000, 0x4740);
    var p := ReduceIfSet(p, 0x2000, 0x23A0);
    var p := ReduceIfSet(p, 0x1000, 0x11D0);
    var p := ReduceIfSet(p, 0x0800, 0x08E8);
    var p := ReduceIfSet(p, 0x0400, 0x0474);
    var p := ReduceIfSet(p, 0x0200, 0x023A);
    ReduceIfSet(p, 0x0100, 0x011D)
  }

  lemma CarrylessNext(left: bv8, right: bv8, i: bv16)
    requires i < 8
    ensures Carryless(left, right, i + 1) == XorStep(left, right, Carryless(left, right, i), i)
  {
  }

  /** The mask `1 << i` of the first loop, for each counter value. */
  lemma XorStepMask(left: bv8, right: bv8, p: bv16, i: bv16)
    requires i < 8
    ensures XorStep(left, right, p, i)
         == XorIfSet(left, match i
                           case 0 => 0x01 case 1 => 0x02 case 2 => 0x04 case 3 => 0x08
                           case 4 => 0x10 case 5 => 0x20 case 6 => 0x40 case _ => 0x80,
                     p, (right as bv16) << i)
  {
  }

  /** Eight passes of the first loop give the unrolled carry-less product. */
  lemma CarrylessMatches(left: bv8, right: bv8)
    ensures Carryless(left, right, 8) == CarrylessUnrolled(left, right)
  {
    var p0 := Carryless(left, right, 0);
    CarrylessNext(left, right, 0);
    XorStepMask(left, right, p0, 0);
    var p1 := Carryless(left, right, 1);
    CarrylessNext(left, right, 1);
    XorStepMask(left, right, p1, 1);
    var p2 := Carryless(left, right, 2);
    CarrylessNext(left, right, 2);
    XorStepMask(left, right, p2, 2);
    var p3 := Carryless(left, right, 3);
    CarrylessNext(left, right, 3);
    XorStepMask(left, right, p3, 3);
    var p4 := Carryless(left, right, 4);
    CarrylessNext(left, right, 4);
    XorStepMask(left, right, p4, 4);
    var p5 := Carryless(left, right, 5);
    CarrylessNext(left, right, 5);
    XorStepMask(left, right, p5, 5);
    var p6 := Carryless(left, right, 6);
    CarrylessNext(left, right, 6);
    XorStepMask(left, right, p6, 6);
    var p7 := Carryless(left, right, 7);
    CarrylessNext(left, right, 7);
    XorStepMask(left, right, p7, 7);
  }

  /** Eight passes of the second loop give the unrolled reduction. */
  lemma ReducingMatches(full: bv16)
    ensures Reducing(full, 0) == ReducingUnrolled(full)
  {
    var q8 := Reducing(full, 8);
    var q7 := Reducing(full, 7);
    assert q7 == ReduceIfSet(q8, 0x8000, 0x8E80) by { assert q7 == ReduceStep(q8, 7); }
    var q6 := Reducing(full, 6);
    assert q6 == ReduceIfSet(q7, 0x4000, 0x4740) by { assert q6 == ReduceStep(q7, 6); }
    var q5 := Reducing(full, 5);
    assert q5 == ReduceIfSet(q6, 0x2000, 0x23A0) by { assert q5 == ReduceStep(q6, 5); }
    var q4 := Reducing(full, 4);
    assert q4 == ReduceIfSet(q5, 0x1000, 0x11D0) by { assert q4 == ReduceStep(q5, 4); }
    var q3 := Reducing(full, 3);
    assert q3 == ReduceIfSet(q4, 0x0800, 0x08E8) by { assert q3 == ReduceStep(q4, 3); }
    var q2 := Reducing(full, 2);
    assert q2 == ReduceIfSet(q3, 0x0400, 0x0474) by { assert q2 == ReduceStep(q3, 2); }
    var q1 := Reducing(full, 1);
    assert q1 == ReduceIfSet(q2, 0x0200, 0x023A) by { assert q1 == ReduceStep(q2, 1); }
    var q0 := Reducing(full, 0);
    assert q0 == ReduceIfSet(q1, 0x0100, 0x011D) by { assert q0 == ReduceStep(q1, 0); }
  }

  /** The unrolled `Mul` is what the two loops compute, followed by the cast. */
  lemma MulMatchesLoops(left: bv8, right: bv8)
    ensures Mul(left, right) == Truncate(Reducing(Carryless(left, right, 8), 0))
  {
    CarrylessMatches(left, right);
    ReducingMatches(Carryless(left, right, 8));
    assert Mul(left, right) == Truncate(ReducingUnrolled(CarrylessUnrolled(left, right)));
  }

  /** A reduction step at counter i clears bit i + 8 and sets no higher bit. */
  lemma ReduceStepClears(p: bv16, i: bv16)
    requires i < 8
    requires p >> (i + 9) == 0
    ensures ReduceStep(p, i) >> (i + 8) == 0
  {
  }

  /** When the second loop reaches counter i, bits i + 8 and up are clear. */
  lemma {:induction false} ReducingFits(full: bv16, i: bv16)
    requires i <= 8
    ensures Reducing(full, i) >> (i + 8) == 0
    decreases 8 - i
  {
    if i < 8 {
      ReducingFits(full, i + 1);
      assert Reducing(full, i + 1) >> (i + 9) == 0;
      ReduceStepClears(Reducing(full, i + 1), i);
    }
  }

  /** A 16-bit value with no bit at or above 8 survives the cast to a byte. */
  lemma TruncateKeeps(p: bv16)
    requires p >> 8 == 0
    ensures Truncate(p) as bv16 == p
  {
  }

  /** The cast at the end of `mul` loses nothing: the reduced product
      already fits in a byte. */
  lemma MulLosesNothing(left: bv8, right: bv8)
    ensures Mul(left, right) as bv16 == Reducing(Carryless(left, right, 8), 0)
  {
    MulMatchesLoops(left, right);
    ReducingFits(Carryless(left, right, 8), 0);
    TruncateKeeps(Reducing(Carryless(left, right, 8), 0));
  }

  /** ONE is neutral and ZERO absorbs, on either side. */
  lemma MulUnits(b: bv8)
    ensures Mul(1, b) == b && Mul(b, 1) == b
    ensures Mul(0, b) == 0 && Mul(b, 0) == 0
  {
  }

  /** `const fn mul`: shift-and-XOR over the bits of `left`, then reduction
      from bit 15 down to bit 8, then the cast to a byte. */
  method MulBits(left: bv8, right: bv8) returns (r: bv8)
    ensures r == Mul(left, right)
  {
    var product: bv16 := 0;
    var i: bv16 := 0;
    while i < 8
      invariant i <= 8
      invariant product == Carryless(left, right, i)
    {
      CarrylessNext(left, right, i);
      if left & (1 << i) != 0 {
        product := product ^ ((right as bv16) << i);
      }
      i := i + 1;
    }
    ghost var full := product;
    i := 8;
    while i != 0
      invariant i <= 8
      invariant product == Reducing(full, i)
    {
      i := i - 1;
      assert Reducing(full, i) == ReduceStep(product, i);
      if product & (1 << (i + 8)) != 0 {
        product := product ^ (REDUCING << i);
      }
    }
    MulMatchesLoops(left, right);
    r := Truncate(product);
  }

  /** `mul_table`: entry [a][b] is the product of a and b. */
  method MulTable() returns (table: array2<bv8>)
    ensures fresh(table)
    ensures table.Length0 == 256 && table.Length1 == 256
    ensures forall a, b :: 0 <= a < 256 && 0 <= b < 256 ==> table[a, b] == Mul(a as bv8, b as bv8)
  {
    table := new bv8[256, 256]((_, _) => 0);
    var a := 0;
    while a < 256
      invariant 0 <= a <= 256
      invariant forall x, y :: 0 <= x < a && 0 <= y < 256 ==> table[x, y] == Mul(x as bv8, y as bv8)
    {
      var b := 0;
      while b < 256
        invariant 0 <= b <= 256
        invariant forall x, y :: 0 <= x < a && 0 <= y < 256 ==> table[x, y] == Mul(x as bv8, y as bv8)
        invariant forall y :: 0 <= y < b ==> table[a, y] == Mul(a as bv8, y as bv8)
      {
        var m := MulBits(a as bv8, b as bv8);
        table[a, b] := m;
        b := b + 1;
      }
      a := a + 1;
    }
  }

  /** n^254 by the addition chain of `inv_table`: squarings up to n^128,
      then n^192, n^224, n^240, n^248, n^252 and n^254. */
  function InvChain(n: bv8): bv8
  {
    var n2 := Mul(n, n);
    var n4 := Mul(n2, n2);
    var n8 := Mul(n4, n4);
    var n16 := Mul(n8, n8);
    var n32 := Mul(n16, n16);
    var n64 := Mul(n32, n32);
    var n128 := Mul(n64, n64);
    var n192 := Mul(n128, n64);
    var n224 := Mul(n192, n32);
    var n240 := Mul(n224, n16);
    var n248 := Mul(n240, n8);
    var n252 := Mul(n248, n4);
    Mul(n252, n2)
  }

  /** The addition chain in the body of `inv_table`'s loop, run with `mul`. */
  method InvBits(n: bv8) returns (r: bv8)
    ensures r == InvChain(n)
  {
    var n2 := MulBits(n, n);
    var n4 := MulBits(n2, n2);
    var n8 := MulBits(n4, n4);
    var n16 := MulBits(n8, n8);
    var n32 := MulBits(n16, n16);
    var n64 := MulBits(n32, n32);
    var n128 := MulBits(n64, n64);
    var n192 := MulBits(n128, n64);
    var n224 := MulBits(n192, n32);
    var n240 := MulBits(n224, n16);
    var n248 := MulBits(n240, n8);
    var n252 := MulBits(n248, n4);
    r := MulBits(n252, n2);
  }

  /** Entry n of s is the addition chain's result on n. */
  ghost predicate ChainAt(s: seq<bv8>, n: int)
    requires 0 <= n < |s| && n < 256
  {
    s[n] == InvChain(n as bv8)
  }

  /** `inv_table`: entry n is the result of the addition chain on n. */
  method InvTable() returns (table: array<bv8>)
    ensures fresh(table)
    ensures table.Length == 256
    ensures forall n :: 0 <= n < 256 ==> table[n] == InvChain(n as bv8)
  {
    table := new bv8[256](_ => 0);
    ghost var inverses: seq<bv8> := [];
    var i := 0;
    while i < 256
      invariant 0 <= i <= 256
      invariant |inverses| == i
      invariant forall n :: 0 <= n < i ==> ChainAt(inverses, n)
      invariant table[..i] == inverses
    {
      var n254 := NextInverse(inverses, i);
      table[i] := n254;
      inverses := inverses + [n254];
      assert table[..i + 1] == table[..i] + [n254];
      i := i + 1;
    }
    assert table[..] == inverses;
    forall n | 0 <= n < 256
      ensures table[n] == InvChain(n as bv8)
    {
      assert ChainAt(inverses, n);
    }
  }

  /** The loop body of `inv_table` at i: the chain run on i as a byte. */
  method NextInverse(ghost inverses: seq<bv8>, i: int) returns (n254: bv8)
    requires 0 <= i < 256 && |inverses| == i
    requires forall n :: 0 <= n < i ==> ChainAt(inverses, n)
    ensures forall n :: 0 <= n < i + 1 ==> ChainAt(inverses + [n254], n)
  {
    n254 := InvBits(i as bv8);
    InversesAppended(inverses, i, n254);
  }

  /** The next inverse appended keeps every entry the chain's result. */
  lemma InversesAppended(inverses: seq<bv8>, i: nat, v: bv8)
    requires i < 256 && |inverses| == i
    requires forall n :: 0 <= n < i ==> ChainAt(inverses, n)
    requires v == InvChain(i as bv8)
    ensures forall n :: 0 <= n < i + 1 ==> ChainAt(inverses + [v], n)
  {
    forall n | 0 <= n < i + 1
      ensures ChainAt(inverses + [v], n)
    {
      if n < i {
        assert ChainAt(inverses, n);
      }
    }
  }

  /** `impl Field for GF256`.  `mul` and `inv` read MUL_TABLE and INV_TABLE,
      whose entries are `Mul` and `InvChain` (MulTable, InvTable); inverting
      zero is refused, as the assertion in `inv` refuses it. */
  const GF: Field<bv8> := Field(
    256, 255, 0, 1, 2,
    (a: bv8, b: bv8) => a ^ b,
    (a: bv8, b: bv8) => Mul(a, b),
    (e: bv8) => e,
    (e: bv8) requires e != 0 => InvChain(e))

  /** Every element is its own negation: e + neg(e) == ZERO. */
  lemma AddNeg(e: bv8)
    ensures GF.add(e, GF.neg(e)) == GF.zero
    ensures GF.neg(e) == e
  {
  }
}
