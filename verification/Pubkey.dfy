/** The 64-byte encoding of public keys: two 32-byte big-endian halves. */
module Pubkey {
  type Byte = n: nat | n < 256

  const HALF: nat := 32

  /** A point with the coordinates of a public key. */
  datatype Point = Point(x: nat, y: nat)

  function Power256(n: nat): (p: nat)
    ensures p > 0
  {
    if n == 0 then 1 else 256 * Power256(n - 1)
  }

  /** The number big-endian bytes denote. */
  function FromBytes(b: seq<Byte>): nat {
    if b == [] then 0 else 256 * FromBytes(b[..|b| - 1]) + b[|b| - 1]
  }

  /** The lowest `n` bytes of a number, big-endian; higher ones are cut off. */
  function ToBytes(x: nat, n: nat): (b: seq<Byte>)
    ensures |b| == n
  {
    if n == 0 then [] else ToBytes(x / 256, n - 1) + [x % 256]
  }

  function EncodePubkey(p: Point): (e: seq<Byte>)
    ensures |e| == 2 * HALF
  {
    ToBytes(p.x, HALF) + ToBytes(p.y, HALF)
  }

  datatype DecodeError = WrongSize | InvalidPoint

  datatype Decoded = Ok(point: Point) | Err(error: DecodeError)

  /** `onCurve` is the membership test of the curve. */
  function DecodePubkey(e: seq<Byte>, onCurve: Point -> bool): Decoded {
    if |e| != 2 * HALF then Err(WrongSize)
    else
      var p := Point(FromBytes(e[..HALF]), FromBytes(e[HALF..]));
      if onCurve(p) then Ok(p) else Err(InvalidPoint)
  }

  lemma {:induction false} FromBytesBound(b: seq<Byte>)
    ensures FromBytes(b) < Power256(|b|)
  {
    if b != [] {
      FromBytesBound(b[..|b| - 1]);
    }
  }

  lemma {:induction false} BytesOfNumber(b: seq<Byte>)
    ensures ToBytes(FromBytes(b), |b|) == b
  {
    if b != [] {
      var front, last := b[..|b| - 1], b[|b| - 1];
      BytesOfNumber(front);
      assert FromBytes(b) / 256 == FromBytes(front) && FromBytes(b) % 256 == last;
      assert b == front + [last];
    }
  }

  lemma {:induction false} NumberOfBytes(x: nat, n: nat)
    ensures FromBytes(ToBytes(x, n)) == x <==> x < Power256(n)
    ensures FromBytes(ToBytes(x, n)) <= x
  {
    if n > 0 {
      NumberOfBytes(x / 256, n - 1);
      var b := ToBytes(x, n);
      assert b[..n - 1] == ToBytes(x / 256, n - 1);
      assert x == 256 * (x / 256) + x % 256;
      assert x < 256 * Power256(n - 1) <==> x / 256 < Power256(n - 1);
    }
  }

  /** Decoding the encoding of a point on the curve gives the point back if and only if both
      coordinates fit into their 32 bytes. */
  lemma DecodeEncode(p: Point, onCurve: Point -> bool)
    requires onCurve(p)
    ensures DecodePubkey(EncodePubkey(p), onCurve) == Ok(p) <==> p.x < Power256(HALF) && p.y < Power256(HALF)
  {
    var e := EncodePubkey(p);
    assert e[..HALF] == ToBytes(p.x, HALF) && e[HALF..] == ToBytes(p.y, HALF);
    NumberOfBytes(p.x, HALF);
    NumberOfBytes(p.y, HALF);
  }

  /** Encoding what was decoded from some bytes gives the same bytes. */
  lemma EncodeDecode(e: seq<Byte>, onCurve: Point -> bool)
    requires DecodePubkey(e, onCurve).Ok?
    ensures EncodePubkey(DecodePubkey(e, onCurve).point) == e
  {
    BytesOfNumber(e[..HALF]);
    BytesOfNumber(e[HALF..]);
    assert e == e[..HALF] + e[HALF..];
  }

  /** Decoding fails exactly on a wrong size or a point off the curve, and the two halves
      together determine the point: different bytes never decode to the same one. */
  lemma DecodeInjective(a: seq<Byte>, b: seq<Byte>, onCurve: Point -> bool)
    requires DecodePubkey(a, onCurve).Ok? && DecodePubkey(a, onCurve) == DecodePubkey(b, onCurve)
    ensures a == b
  {
    EncodeDecode(a, onCurve);
    EncodeDecode(b, onCurve);
  }

  /** 64 bytes are the encoding of one point with coordinates that fit. */
  lemma TheOnePoint(e: seq<Byte>, p: Point)
    requires |e| == 2 * HALF
    ensures p == Point(FromBytes(e[..HALF]), FromBytes(e[HALF..])) <==>
      p.x < Power256(HALF) && p.y < Power256(HALF) && e == EncodePubkey(p)
  {
    FromBytesBound(e[..HALF]);
    FromBytesBound(e[HALF..]);
    EncodeDecode(e, o => true);
    hide FromBytes, ToBytes, Power256;
    if p.x < Power256(HALF) && p.y < Power256(HALF) && e == EncodePubkey(p) {
      DecodeEncode(p, o => true);
    }
  }

  /** Decoding gives the point of the two halves exactly if there are 64 bytes and that point is
      on the curve; each of the two failures has its own error. */
  lemma DecodeIff(e: seq<Byte>, p: Point, onCurve: Point -> bool)
    ensures DecodePubkey(e, onCurve) == Ok(p) <==>
      && |e| == 2 * HALF && onCurve(p)
      && p.x < Power256(HALF) && p.y < Power256(HALF) && e == EncodePubkey(p)
    ensures |e| != 2 * HALF <==> DecodePubkey(e, onCurve) == Err(WrongSize)
    ensures DecodePubkey(e, onCurve) == Err(InvalidPoint) <==>
      |e| == 2 * HALF && forall q: Point :: onCurve(q) && q.x < Power256(HALF) && q.y < Power256(HALF) ==> e != EncodePubkey(q)
  {
    hide FromBytes, Power256, EncodePubkey;
    if |e| == 2 * HALF {
      var only := Point(FromBytes(e[..HALF]), FromBytes(e[HALF..]));
      TheOnePoint(e, only);
      TheOnePoint(e, p);
      assert DecodePubkey(e, onCurve) == if onCurve(only) then Ok(only) else Err(InvalidPoint);
      hide DecodePubkey;
      forall o: Point | o.x < Power256(HALF) && o.y < Power256(HALF) && e == EncodePubkey(o)
        ensures o == only
      {
        TheOnePoint(e, o);
      }
    }
  }
}
