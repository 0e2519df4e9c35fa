/** Node identifiers and the XOR metric.

  A 32-byte identifier is written as its 256 bits, most significant first. Comparing
  the bytes of two XOR-ed identifiers from the left is then the comparison of the bits
  from the left, and the leading zero bits are the leading `false` elements. */
module Distance {

  const ID_BITS: nat := 256

  type Id = bits: seq<bool> | |bits| == ID_BITS witness seq(ID_BITS, _ => false)

  function Xor(a: Id, b: Id): (x: Id)
    ensures forall i :: 0 <= i < ID_BITS ==> x[i] == (a[i] != b[i])
  {
    seq(ID_BITS, i requires 0 <= i < ID_BITS => a[i] != b[i])
  }

  function Pow2(n: nat): (p: nat)
    ensures 0 < p
  {
    if n == 0 then 1 else 2 * Pow2(n - 1)
  }

  /** The number a bit string denotes, most significant bit first. */
  function Number(bits: seq<bool>): nat {
    if bits == [] then 0
    else (if bits[0] then Pow2(|bits| - 1) else 0) + Number(bits[1..])
  }

  /** The distance of two identifiers as a number: the reference meaning of the metric. */
  function Dist(target: Id, id: Id): nat {
    Number(Xor(target, id))
  }

  function LexCmp(x: seq<bool>, y: seq<bool>): int
    requires |x| == |y|
  {
    if x == [] then 0
    else if x[0] != y[0] then (if x[0] then 1 else -1)
    else LexCmp(x[1..], y[1..])
  }

  /** Which of `a` and `b` is closer to the target: -1, 0 or 1. */
  function DistCmp(target: Id, a: Id, b: Id): int {
    LexCmp(Xor(target, a), Xor(target, b))
  }

  function LeadingZeros(bits: seq<bool>): (z: nat)
    ensures z <= |bits|
  {
    if bits == [] || bits[0] then 0 else 1 + LeadingZeros(bits[1..])
  }

  /** The logarithmic distance, 0 for equal identifiers and at most 256. */
  function LogDist(a: Id, b: Id): (d: nat)
    ensures d <= ID_BITS
  {
    ID_BITS - LeadingZeros(Xor(a, b))
  }

  lemma {:induction false} NumberBound(bits: seq<bool>)
    ensures Number(bits) < Pow2(|bits|)
  {
    if bits != [] {
      NumberBound(bits[1..]);
    }
  }

  lemma {:induction false} LexIsNumeric(x: seq<bool>, y: seq<bool>)
    requires |x| == |y|
    ensures LexCmp(x, y) == (if Number(x) < Number(y) then -1 else if Number(x) == Number(y) then 0 else 1)
    ensures Number(x) == Number(y) ==> x == y
  {
    if x != [] {
      LexIsNumeric(x[1..], y[1..]);
      NumberBound(x[1..]);
      NumberBound(y[1..]);
    }
  }

  lemma {:induction false} LeadingZerosIsLength(bits: seq<bool>)
    ensures Number(bits) < Pow2(|bits| - LeadingZeros(bits))
    ensures LeadingZeros(bits) < |bits| ==> Pow2(|bits| - LeadingZeros(bits) - 1) <= Number(bits)
    ensures LeadingZeros(bits) == |bits| ==> Number(bits) == 0
  {
    if bits != [] {
      LeadingZerosIsLength(bits[1..]);
      NumberBound(bits[1..]);
    }
  }

  lemma XorInjective(t: Id, a: Id, b: Id)
    requires Xor(t, a) == Xor(t, b)
    ensures a == b
  {
    forall i | 0 <= i < ID_BITS
      ensures a[i] == b[i]
    {
      assert Xor(t, a)[i] == Xor(t, b)[i];
    }
  }

  /** The left-to-right comparison orders identifiers by their numeric distance, and only
      equal identifiers are equally far. */
  lemma DistCmpIsNumeric(t: Id, a: Id, b: Id)
    ensures DistCmp(t, a, b) > 0 <==> Dist(t, a) > Dist(t, b)
    ensures DistCmp(t, a, b) < 0 <==> Dist(t, a) < Dist(t, b)
    ensures DistCmp(t, a, b) == 0 <==> a == b
    ensures Dist(t, a) == Dist(t, b) <==> a == b
  {
    LexIsNumeric(Xor(t, a), Xor(t, b));
    if Dist(t, a) == Dist(t, b) {
      XorInjective(t, a, b);
    }
  }

  /** The logarithmic distance is the bit length of the distance. */
  lemma LogDistIsBitLength(a: Id, b: Id)
    ensures Dist(a, b) < Pow2(LogDist(a, b))
    ensures LogDist(a, b) > 0 ==> Pow2(LogDist(a, b) - 1) <= Dist(a, b)
    ensures LogDist(a, b) == 0 <==> a == b
  {
    LeadingZerosIsLength(Xor(a, b));
    DistCmpIsNumeric(a, a, b);
    LexIsNumeric(Xor(a, a), Xor(a, b));
    assert forall i :: 0 <= i < ID_BITS ==> !Xor(a, a)[i];
    ZeroNumber(Xor(a, a));
  }

  lemma {:induction false} ZeroNumber(bits: seq<bool>)
    requires forall i :: 0 <= i < |bits| ==> !bits[i]
    ensures Number(bits) == 0
    ensures LeadingZeros(bits) == |bits|
  {
    if bits != [] {
      ZeroNumber(bits[1..]);
    }
  }

  lemma {:induction false} Pow2Monotone(m: nat, n: nat)
    requires m <= n
    ensures Pow2(m) <= Pow2(n)
  {
    if m < n {
      Pow2Monotone(m, n - 1);
    }
  }

  /** A smaller logarithmic distance is a smaller distance: buckets with a smaller index
      hold the nodes closer to the local node. */
  lemma LogDistAgreesWithDistCmp(t: Id, a: Id, b: Id)
    requires LogDist(t, a) < LogDist(t, b)
    ensures DistCmp(t, a, b) < 0
  {
    LogDistIsBitLength(t, a);
    LogDistIsBitLength(t, b);
    Pow2Monotone(LogDist(t, a), LogDist(t, b) - 1);
    DistCmpIsNumeric(t, a, b);
  }
}
