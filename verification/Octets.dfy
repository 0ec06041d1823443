/** Octets, big-endian integers and the clamped slices of the wire-test codec. */
module Octets {

  type byte = x: int | 0 <= x < 256
  type Bytes = seq<byte>
  type uint16 = x: int | 0 <= x < 0x1_0000
  type uint32 = x: int | 0 <= x < 0x1_0000_0000
  type sint32 = x: int | -0x8000_0000 <= x < 0x8000_0000

  datatype Option<+T> = None | Some(value: T)

  /** `Short`: IndexError or struct.error, which the parsers catch.
      `Invalid`: ValueError and the other exceptions nobody catches. */
  datatype Fault = Short | Invalid

  datatype Result<+T> = Ok(value: T) | Err(fault: Fault) {
    predicate IsFailure() { Err? }

    function PropagateFailure<U>(): Result<U>
      requires Err?
    {
      Err(fault)
    }

    function Extract(): T
      requires Ok?
    {
      value
    }
  }

  /** The slice from lo to hi, clamped to the octets that exist. */
  function Slice(s: Bytes, lo: nat, hi: nat): (r: Bytes)
    requires lo <= hi
    ensures hi <= |s| ==> r == s[lo..hi]
  {
    if |s| <= lo then [] else if |s| <= hi then s[lo..] else s[lo..hi]
  }

  /** `e` stands in `data` at `position`, whatever is around it. */
  ghost predicate At(data: Bytes, position: nat, e: Bytes) {
    position + |e| <= |data| && data[position..position + |e|] == e
  }

  lemma AtTail(head: Bytes, e: Bytes)
    ensures At(head + e, |head|, e)
  {
  }

  /** A part of what stands there. */
  lemma AtPart(data: Bytes, position: nat, e: Bytes, i: nat, j: nat)
    requires At(data, position, e) && i <= j <= |e|
    ensures data[position + i..position + j] == e[i..j]
  {
    forall k | i <= k < j
      ensures data[position + i..position + j][k - i] == e[k]
    {
      assert data[position..position + |e|][k] == e[k];
    }
  }

  lemma AtSplit(data: Bytes, position: nat, x: Bytes, y: Bytes)
    ensures At(data, position, x + y) <==> At(data, position, x) && At(data, position + |x|, y)
  {
    if position + |x| + |y| <= |data| {
      var w := data[position..position + |x| + |y|];
      assert w[..|x|] == data[position..position + |x|];
      assert w[|x|..] == data[position + |x|..position + |x| + |y|];
      assert w == w[..|x|] + w[|x|..];
    }
  }

  // ----- integers

  function Pow256(n: nat): (r: nat)
    ensures r > 0
  {
    if n == 0 then 1 else 256 * Pow256(n - 1)
  }

  lemma Pow256Values()
    ensures Pow256(1) == 0x100 && Pow256(2) == 0x1_0000 && Pow256(3) == 0x100_0000 && Pow256(4) == 0x1_0000_0000
  {
    assert Pow256(1) == 0x100;
    assert Pow256(2) == 256 * Pow256(1);
    assert Pow256(3) == 256 * Pow256(2);
    assert Pow256(4) == 256 * Pow256(3);
  }

  lemma {:induction false} Pow256Monotone(m: nat, n: nat)
    requires m <= n
    ensures Pow256(m) <= Pow256(n)
    decreases n - m
  {
    if m < n {
      Pow256Monotone(m + 1, n);
    }
  }

  /** The number an octet string stands for, the most significant octet first. */
  function FromBytes(s: Bytes): (r: nat)
    ensures r < Pow256(|s|)
  {
    if s == [] then 0 else FromBytes(s[..|s| - 1]) * 256 + s[|s| - 1]
  }

  /** A number in n octets, the most significant first. */
  function ToBytes(v: nat, n: nat): (r: Bytes)
    requires v < Pow256(n)
    ensures |r| == n
  {
    if n == 0 then [] else ToBytes(v / 256, n - 1) + [v % 256]
  }

  lemma {:induction false} FromToBytes(v: nat, n: nat)
    requires v < Pow256(n)
    ensures FromBytes(ToBytes(v, n)) == v
  {
    if n != 0 {
      FromToBytes(v / 256, n - 1);
      var s := ToBytes(v, n);
      assert s[..|s| - 1] == ToBytes(v / 256, n - 1);
    }
  }

  lemma {:induction false} ToFromBytes(s: Bytes)
    ensures ToBytes(FromBytes(s), |s|) == s
  {
    if s != [] {
      ToFromBytes(s[..|s| - 1]);
    }
  }

  /** A number packed in two octets, and in four. */
  function Pack16(v: uint16): (r: Bytes)
    ensures |r| == 2 && FromBytes(r) == v
  {
    Pow256Values();
    FromToBytes(v, 2);
    ToBytes(v, 2)
  }

  function Pack32(v: uint32): (r: Bytes)
    ensures |r| == 4 && FromBytes(r) == v
  {
    Pow256Values();
    FromToBytes(v, 4);
    ToBytes(v, 4)
  }

  /** The octets an Unsigned takes; one to four. */
  function UnsignedLength(v: uint32): (n: nat)
    ensures 1 <= n <= 4 && v < Pow256(n)
    ensures n == 1 || Pow256(n - 1) <= v
  {
    Pow256Values();
    if v < 0x100 then 1 else if v < 0x1_0000 then 2 else if v < 0x100_0000 then 3 else 4
  }

  function UnsignedOctets(v: uint32): (r: Bytes)
    ensures 1 <= |r| <= 4 && FromBytes(r) == v
  {
    FromToBytes(v, UnsignedLength(v));
    ToBytes(v, UnsignedLength(v))
  }

  /** No non-empty octet string of the same value is shorter, and none as short differs. */
  lemma UnsignedOctetsShortest(v: uint32, s: Bytes)
    requires s != [] && FromBytes(s) == v
    ensures |UnsignedOctets(v)| <= |s|
    ensures |s| == |UnsignedOctets(v)| ==> s == UnsignedOctets(v)
  {
    var n := UnsignedLength(v);
    if |s| < n {
      Pow256Monotone(|s|, n - 1);
    }
    ToFromBytes(s);
    ToFromBytes(UnsignedOctets(v));
  }

  /** The same octets read as two's complement. */
  function SignedFromBytes(s: Bytes): int {
    if s != [] && s[0] >= 0x80 then FromBytes(s) - Pow256(|s|) else FromBytes(s)
  }

  predicate FitsSigned(v: int, n: nat) { 0 <= 2 * v + Pow256(n) < 2 * Pow256(n) }

  function SignedToBytes(v: int, n: nat): (r: Bytes)
    requires FitsSigned(v, n)
    ensures |r| == n
  {
    ToBytes(if v < 0 then v + Pow256(n) else v, n)
  }

  function SignedOctets(v: sint32): (r: Bytes)
    ensures 1 <= |r| <= 4
  {
    Pow256Values();
    if FitsSigned(v, 1) then SignedToBytes(v, 1)
    else if FitsSigned(v, 2) then SignedToBytes(v, 2)
    else if FitsSigned(v, 3) then SignedToBytes(v, 3)
    else SignedToBytes(v, 4)
  }

  /** The leading octet decides which half of the range a number is in. */
  lemma {:induction false} LeadingOctet(s: Bytes)
    requires s != []
    ensures s[0] >= 0x80 <==> 2 * FromBytes(s) >= Pow256(|s|)
  {
    if |s| == 1 {
      assert s[..0] == [];
    } else {
      var front := s[..|s| - 1];
      LeadingOctet(front);
      HalfIsWhole(|s| - 1);
      LowerOctet(FromBytes(front), Pow256(|s| - 1), s[|s| - 1]);
      assert Pow256(|s|) == 256 * Pow256(|s| - 1);
      assert FromBytes(s) == 256 * FromBytes(front) + s[|s| - 1];
      hide FromBytes, Pow256;
    }
  }

  lemma LowerOctet(upper: nat, power: nat, octet: byte)
    requires power % 2 == 0
    ensures 2 * (256 * upper + octet) >= 256 * power <==> 2 * upper >= power
  {
    assert power == 2 * (power / 2);
  }

  lemma {:induction false} HalfIsWhole(n: nat)
    requires n > 0
    ensures Pow256(n) % 2 == 0
  {
    assert Pow256(n) == 2 * (128 * Pow256(n - 1));
  }

  lemma SignedFromTo(v: int, n: nat)
    requires n > 0 && FitsSigned(v, n)
    ensures SignedFromBytes(SignedToBytes(v, n)) == v
  {
    FromToBytes(if v < 0 then v + Pow256(n) else v, n);
    LeadingOctet(SignedToBytes(v, n));
  }

  lemma SignedRange(s: Bytes)
    requires s != []
    ensures FitsSigned(SignedFromBytes(s), |s|)
  {
    LeadingOctet(s);
  }

  /** Shortest two's-complement form: it decodes to `v`, and every other form of `v` is longer. */
  lemma SignedOctetsShortest(v: sint32, s: Bytes)
    requires s != [] && SignedFromBytes(s) == v
    ensures SignedFromBytes(SignedOctets(v)) == v
    ensures |SignedOctets(v)| <= |s|
  {
    Pow256Values();
    SignedFromTo(v, |SignedOctets(v)|);
    SignedRange(s);
  }
}
