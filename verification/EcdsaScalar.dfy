/**
  From a message digest to the scalar that is signed. The reference is bits2int of
  RFC 6979 (section 2.3.2): the leftmost bits of the digest, as many as the group order
  has, read as a number; section 2.3.4 reduces it modulo the order.
 */
module EcdsaScalar {
  import opened Basics
  import opened Options

  // ---------------------------------------------------------------------------
  // The reference: bit strings

  type Bit = b: nat | b < 2

  /** The `k` low bits of a number, most significant first. */
  function LowBits(v: nat, k: nat): (bits: seq<Bit>)
    ensures |bits| == k
    decreases k, v
  {
    if k == 0 then [] else LowBits(v / 2, k - 1) + [v % 2]
  }

  function Bits(bytes: seq<Byte>): (bits: seq<Bit>)
    ensures |bits| == 8 * |bytes|
  {
    if bytes == [] then [] else Bits(bytes[..|bytes| - 1]) + LowBits(bytes[|bytes| - 1], 8)
  }

  function BitsValue(bits: seq<Bit>): (v: nat) {
    if bits == [] then 0 else 2 * BitsValue(bits[..|bits| - 1]) + bits[|bits| - 1]
  }

  /** The leftmost `qlen` bits as a number; a shorter string is taken whole. */
  function Bits2Int(digest: seq<Byte>, qlen: nat): (v: nat) {
    var bits := Bits(digest);
    BitsValue(if qlen < |bits| then bits[..qlen] else bits)
  }

  /** The number of bits of a group order. */
  function BitLength(n: nat): (k: nat)
    ensures k == 0 <==> n == 0
  {
    if n == 0 then 0 else 1 + BitLength(n / 2)
  }

  // ---------------------------------------------------------------------------
  // The computation

  function OctetsValue(bytes: seq<Byte>): (v: nat) {
    if bytes == [] then 0 else 256 * OctetsValue(bytes[..|bytes| - 1]) + bytes[|bytes| - 1]
  }

  function Pow2(n: nat): (p: nat)
    ensures p >= 1
  {
    if n == 0 then 1 else 2 * Pow2(n - 1)
  }

  /** The bit length is the position of the leading one. */
  lemma {:induction false} BitLengthIs(n: nat)
    requires n > 0
    ensures Pow2(BitLength(n) - 1) <= n < Pow2(BitLength(n))
  {
    if n == 1 {
      assert BitLength(1) == 1 + BitLength(0);
    } else {
      BitLengthIs(n / 2);
    }
  }

  /** A right shift by `n` bits, one bit at a time. */
  function ShiftRight(v: nat, n: nat): (r: nat)
    decreases n
  {
    if n == 0 then v else ShiftRight(v / 2, n - 1)
  }

  /** A shift by `n` is the floor of the division by two to the `n`. */
  lemma {:induction false} ShiftIsFloor(v: nat, n: nat)
    ensures Pow2(n) * ShiftRight(v, n) <= v < Pow2(n) * (ShiftRight(v, n) + 1)
    decreases n
  {
    if n > 0 {
      ShiftIsFloor(v / 2, n - 1);
      Doubled(Pow2(n - 1), ShiftRight(v, n));
      Doubled(Pow2(n - 1), ShiftRight(v, n) + 1);
    }
  }

  /** The remainder, by repeated subtraction. */
  function Mod(v: nat, n: nat): (r: nat)
    requires n > 0
    ensures r < n
    decreases v
  {
    if v < n then v else Mod(v - n, n)
  }

  lemma {:induction false} ModIs(v: nat, n: nat) returns (q: nat)
    requires n > 0
    ensures v == q * n + Mod(v, n)
    decreases v
  {
    if v < n {
      q := 0;
    } else {
      var less := ModIs(v - n, n);
      q := less + 1;
    }
  }

  function DivCeil8(n: nat): (k: nat) { (n + 7) / 8 }

  /** Whole bytes are cut first, then the excess bits of the last byte are shifted out. */
  function CutAndShift(digest: seq<Byte>, orderBits: nat): (m: nat) {
    var len := if 8 * |digest| > orderBits then DivCeil8(orderBits) else |digest|;
    var m := OctetsValue(digest[..len]);
    if 8 * len > orderBits then ShiftRight(m, 8 - orderBits % 8) else m
  }

  function DigestReducedModOrder(digest: seq<Byte>, order: nat): (r: Option<nat>) {
    var orderBits := BitLength(order);
    if orderBits == 0 then None else Some(Mod(CutAndShift(digest, orderBits), order))
  }

  lemma {:induction false} LowBitsValue(bits: seq<Bit>, v: nat, k: nat)
    requires v < Pow2(k)
    ensures BitsValue(bits + LowBits(v, k)) == Pow2(k) * BitsValue(bits) + v
    decreases k
  {
    if k == 0 {
      assert bits + [] == bits;
    } else {
      LowBitsValue(bits, v / 2, k - 1);
      var t := bits + LowBits(v, k);
      assert t[..|t| - 1] == bits + LowBits(v / 2, k - 1);
      Doubled(Pow2(k - 1), BitsValue(bits));
    }
  }

  lemma Doubled(p: nat, x: nat)
    ensures 2 * (p * x) == (2 * p) * x
  {
  }

  /** Bytes and bits spell the same number. */
  lemma {:induction false} BitsOfOctets(bytes: seq<Byte>)
    ensures BitsValue(Bits(bytes)) == OctetsValue(bytes)
  {
    if bytes != [] {
      var n := |bytes| - 1;
      BitsOfOctets(bytes[..n]);
      assert Pow2(8) == 256 by { assert Pow2(4) == 16; }
      LowBitsValue(Bits(bytes[..n]), bytes[n], 8);
    }
  }

  /** The bits of the leading bytes are the leading bits. */
  lemma {:induction false} BitsPrefix(bytes: seq<Byte>, k: nat)
    requires k <= |bytes|
    ensures Bits(bytes)[..8 * k] == Bits(bytes[..k])
    decreases |bytes|
  {
    if k == |bytes| {
      assert bytes[..k] == bytes;
    } else {
      var n := |bytes| - 1;
      BitsPrefix(bytes[..n], k);
      assert bytes[..n][..k] == bytes[..k];
      assert Bits(bytes)[..8 * n] == Bits(bytes[..n]);
      assert Bits(bytes)[..8 * k] == Bits(bytes)[..8 * n][..8 * k];
    }
  }

  /** Dropping trailing bits is a right shift. */
  lemma {:induction false} PrefixIsShift(bits: seq<Bit>, k: nat)
    requires k <= |bits|
    ensures BitsValue(bits[..k]) == ShiftRight(BitsValue(bits), |bits| - k)
    decreases |bits|
  {
    if k == |bits| {
      assert bits[..k] == bits;
    } else {
      var n := |bits| - 1;
      PrefixIsShift(bits[..n], k);
      assert bits[..n][..k] == bits[..k];
      assert BitsValue(bits) / 2 == BitsValue(bits[..n]);
    }
  }

  lemma Ceil(q: nat)
    ensures 8 * DivCeil8(q) == if q % 8 == 0 then q else q + (8 - q % 8)
  {
  }

  lemma {:induction false} WholeDigest(digest: seq<Byte>, q: nat)
    requires 8 * |digest| <= q
    ensures Bits2Int(digest, q) == OctetsValue(digest)
  {
    BitsOfOctets(digest);
  }

  lemma {:induction false} CutLong(digest: seq<Byte>, q: nat, c: nat)
    requires 8 * |digest| > q && c == DivCeil8(q) <= |digest|
    ensures 8 * c >= q
    ensures CutAndShift(digest, q) == ShiftRight(OctetsValue(digest[..c]), 8 * c - q)
  {
    Ceil(q);
    var m := OctetsValue(digest[..c]);
    if q % 8 == 0 {
      assert CutAndShift(digest, q) == m;
    } else {
      assert CutAndShift(digest, q) == ShiftRight(m, 8 - q % 8);
    }
  }

  lemma {:induction false} CutAndShiftIsBits2Int(digest: seq<Byte>, q: nat)
    ensures CutAndShift(digest, q) == Bits2Int(digest, q)
  {
    if 8 * |digest| > q {
      var c := DivCeil8(q);
      Ceil(q);
      LeftmostBits(digest, q, c);
      CutLong(digest, q, c);
    } else {
      assert digest[..|digest|] == digest;
      WholeDigest(digest, q);
    }
  }

  /** Twelve bits of two bytes: the three leading hexadecimal digits. */
  lemma TwelveBits()
    ensures Bits2Int([0xAB, 0xCD], 12) == 0xABC
  {
    var digest := [0xAB, 0xCD];
    LeftmostBits(digest, 12, 2);
    assert digest[..2] == digest && digest[..1] == [0xAB] && [0xAB][..0] == [];
    assert OctetsValue(digest) == 0xABCD by { assert OctetsValue([0xAB]) == 0xAB; }
    assert ShiftRight(0xABCD, 4) == 0xABC by { assert ShiftRight(0x2AF3, 2) == 0xABC; }
  }

  /**
    Cutting bytes and then shifting out the excess bits yields the leftmost bits, for every
    digest and every order: the scalar is bits2int reduced modulo the order.
   */
  lemma {:induction false} DigestReductionIsBits2Int(digest: seq<Byte>, order: nat)
    ensures DigestReducedModOrder(digest, order)
            == if order == 0 then None else Some(Mod(Bits2Int(digest, BitLength(order)), order))
  {
    CutAndShiftIsBits2Int(digest, BitLength(order));
  }

  lemma {:induction false} LeftmostOfHead(digest: seq<Byte>, q: nat, c: nat)
    requires q <= 8 * c && c <= |digest|
    ensures Bits(digest)[..q] == Bits(digest[..c])[..q]
  {
    TakeTwice(Bits(digest), q, 8 * c);
    BitsPrefix(digest, c);
  }

  /** The leftmost bits, read from any number of leading bytes that holds them. */
  lemma {:induction false} LeftmostBits(digest: seq<Byte>, q: nat, c: nat)
    requires q <= 8 * c && c <= |digest| && q < 8 * |digest|
    ensures Bits2Int(digest, q) == ShiftRight(OctetsValue(digest[..c]), 8 * c - q)
  {
    LeftmostOfHead(digest, q, c);
    HeadValue(digest[..c], q);
  }

  lemma {:induction false} HeadValue(head: seq<Byte>, q: nat)
    requires q <= 8 * |head|
    ensures BitsValue(Bits(head)[..q]) == ShiftRight(OctetsValue(head), 8 * |head| - q)
  {
    PrefixIsShift(Bits(head), q);
    BitsOfOctets(head);
  }

  lemma TakeTwice(bits: seq<Bit>, q: nat, n: nat)
    requires q <= n <= |bits|
    ensures bits[..n][..q] == bits[..q]
  {
  }

  // ---------------------------------------------------------------------------
  // The fixed-size message of the multi-buffer signer

  function Octets(v: nat, n: nat): (bytes: seq<Byte>)
    ensures |bytes| == n
    decreases n
  {
    if n == 0 then [] else Octets(v / 256, n - 1) + [v % 256]
  }

  lemma {:induction false} OctetsInverse(v: nat, n: nat)
    requires v < Pow256(n)
    ensures OctetsValue(Octets(v, n)) == v
    decreases n
  {
    if n > 0 {
      OctetsInverse(v / 256, n - 1);
      assert Octets(v, n)[..n - 1] == Octets(v / 256, n - 1);
    }
  }

  /** The slot's message: refused when the field length differs, or the scalar is zero or does not fit. */
  function PrepareMessage(digest: seq<Byte>, order: nat, fieldLen: nat, n: nat): (msg: Option<seq<Byte>>) {
    var scalar := DigestReducedModOrder(digest, order);
    if fieldLen != n || scalar.None? || scalar.value == 0 || scalar.value >= Pow256(n) then None
    else Some(Octets(scalar.value, n))
  }

  /** What is handed to the signer is the reduced digest, and meets its demand 0 < msg < order. */
  lemma {:induction false} PreparedMessageInRange(digest: seq<Byte>, order: nat, fieldLen: nat, n: nat)
    ensures var msg := PrepareMessage(digest, order, fieldLen, n);
            && (msg.Some? ==>
                  && order > 0
                  && |msg.value| == n == fieldLen
                  && 0 < OctetsValue(msg.value) < order
                  && OctetsValue(msg.value) == Mod(Bits2Int(digest, BitLength(order)), order))
            && (msg.None? && order > 0 && fieldLen == n && order <= Pow256(n) ==>
                  Mod(Bits2Int(digest, BitLength(order)), order) == 0)
  {
    DigestReductionIsBits2Int(digest, order);
    var scalar := DigestReducedModOrder(digest, order);
    if scalar.Some? && scalar.value < Pow256(n) {
      OctetsInverse(scalar.value, n);
    }
  }

  // ---------------------------------------------------------------------------
  // The message of the QAT path

  function Zeros(n: nat): (bytes: seq<Byte>)
    ensures |bytes| == n
  {
    seq(n, _ => 0)
  }

  /** The leading field-length bytes, or the digest with zeros in front. Nothing is shifted. */
  function QatMessage(digest: seq<Byte>, fieldLen: nat): (msg: seq<Byte>)
    ensures |msg| == fieldLen
  {
    if |digest| >= fieldLen then digest[..fieldLen] else Zeros(fieldLen - |digest|) + digest
  }

  method FillMessage(digest: seq<Byte>, fieldLen: nat) returns (msg: array<Byte>)
    ensures fresh(msg) && msg[..] == QatMessage(digest, fieldLen)
  {
    msg := new Byte[fieldLen](_ => 0);
    if |digest| >= fieldLen {
      forall i | 0 <= i < fieldLen {
        msg[i] := digest[i];
      }
      assert msg[..] == digest[..fieldLen];
    } else {
      var pad := fieldLen - |digest|;
      forall i | pad <= i < fieldLen {
        msg[i] := digest[i - pad];
      }
      assert msg[..] == Zeros(pad) + digest;
    }
  }

  lemma {:induction false} LeadingZeros(k: nat, bytes: seq<Byte>)
    ensures OctetsValue(Zeros(k) + bytes) == OctetsValue(bytes)
    decreases k, |bytes|
  {
    if bytes != [] {
      var n := |bytes| - 1;
      LeadingZeros(k, bytes[..n]);
      var t := Zeros(k) + bytes;
      assert t[..|t| - 1] == Zeros(k) + bytes[..n];
    } else if k > 0 {
      LeadingZeros(k - 1, []);
      assert (Zeros(k) + [])[..k - 1] == Zeros(k - 1) + [];
    } else {
      assert Zeros(0) + [] == [];
    }
  }

  /** The number that is handed over is congruent to the reference. */
  ghost predicate QatAgrees(digest: seq<Byte>, fieldLen: nat, order: nat)
    requires order > 0
  {
    Mod(OctetsValue(QatMessage(digest, fieldLen)), order) == Mod(Bits2Int(digest, BitLength(order)), order)
  }

  /** The message spells the leading bytes that fit, zeros in front or not. */
  lemma {:induction false} QatMessageIs(digest: seq<Byte>, fieldLen: nat)
    ensures var c := if |digest| < fieldLen then |digest| else fieldLen;
            OctetsValue(QatMessage(digest, fieldLen)) == OctetsValue(digest[..c])
  {
    if |digest| < fieldLen {
      LeadingZeros(fieldLen - |digest|, digest);
      assert digest[..|digest|] == digest;
    }
  }

  /** Nothing is cut that the reference keeps, and nothing kept that it cuts. */
  predicate SameBits(len: nat, fieldLen: nat, q: nat) {
    8 * fieldLen == q || (len <= fieldLen && 8 * len <= q)
  }

  lemma {:induction false} QatAgreesWhen(digest: seq<Byte>, fieldLen: nat, q: nat)
    requires SameBits(|digest|, fieldLen, q)
    ensures OctetsValue(QatMessage(digest, fieldLen)) == Bits2Int(digest, q)
  {
    QatMessageIs(digest, fieldLen);
    if |digest| <= fieldLen {
      assert digest[..|digest|] == digest;
      WholeDigest(digest, q);
    } else {
      LeftmostBits(digest, q, fieldLen);
    }
  }

  /** A digest of zeros but for one byte. */
  function Witness(len: nat, c: nat, b: Byte): (digest: seq<Byte>)
    requires 1 <= c <= len
    ensures |digest| == len
  {
    Zeros(c - 1) + [b] + Zeros(len - c)
  }

  lemma {:induction false} WitnessValue(len: nat, c: nat, b: Byte)
    requires 1 <= c <= len
    ensures OctetsValue(Witness(len, c, b)[..c]) == b
  {
    assert Witness(len, c, b)[..c] == Zeros(c - 1) + [b];
    LeadingZeros(c - 1, [b]);
    assert [b][..0] == [];
  }

  lemma {:induction false} WitnessFront(len: nat, c: nat, b: Byte, f: nat)
    requires 1 <= c <= len && f < c
    ensures OctetsValue(Witness(len, c, b)[..f]) == 0
  {
    assert Witness(len, c, b)[..f] == Zeros(f) + [];
    LeadingZeros(f, []);
  }

  lemma {:induction false} ShiftZero(n: nat)
    ensures ShiftRight(0, n) == 0
  {
    if n > 0 {
      ShiftZero(n - 1);
    }
  }

  lemma ShiftOne(n: nat)
    requires n >= 1
    ensures ShiftRight(1, n) == 0
  {
    if n > 1 {
      ShiftZero(n - 1);
    }
  }

  lemma {:induction false} ShiftPower(n: nat)
    ensures ShiftRight(Pow2(n), n) == 1
  {
    if n > 0 {
      ShiftPower(n - 1);
    }
  }

  /** The message keeps a bit that the reference cuts off: a one there, and they differ. */
  lemma {:induction false} KeepsTooMuch(len: nat, fieldLen: nat, q: nat) returns (digest: seq<Byte>)
    requires var c := if len < fieldLen then len else fieldLen; 8 * c > q
    ensures |digest| == len
    ensures OctetsValue(QatMessage(digest, fieldLen)) == 1 && Bits2Int(digest, q) == 0
  {
    var c := if len < fieldLen then len else fieldLen;
    digest := Witness(len, c, 1);
    QatMessageIs(digest, fieldLen);
    WitnessValue(len, c, 1);
    LeftmostBits(digest, q, c);
    ShiftOne(8 * c - q);
  }

  lemma SmallPower(k: nat)
    requires k < 8
    ensures Pow2(k) < 256
  {
    assert Pow2(7) == 128 by { assert Pow2(4) == 16; }
    PowerGrows(k, 7);
  }

  lemma {:induction false} PowerGrows(k: nat, n: nat)
    requires k <= n
    ensures Pow2(k) <= Pow2(n)
    decreases n
  {
    if k < n {
      PowerGrows(k, n - 1);
    }
  }

  /** The message cuts off a bit that the reference keeps: a one there, and they differ. */
  lemma {:induction false} KeepsTooLittle(len: nat, fieldLen: nat, q: nat) returns (digest: seq<Byte>)
    requires len > fieldLen && 8 * fieldLen < q
    ensures |digest| == len
    ensures OctetsValue(QatMessage(digest, fieldLen)) == 0 && Bits2Int(digest, q) == 1
  {
    if q < 8 * len {
      var c := DivCeil8(q);
      var k := 8 * c - q;
      SmallPower(k);
      digest := Witness(len, c, Pow2(k));
      WitnessValue(len, c, Pow2(k));
      LeftmostBits(digest, q, c);
      ShiftPower(k);
      WitnessFront(len, c, Pow2(k), fieldLen);
    } else {
      digest := Witness(len, len, 1);
      WitnessValue(len, len, 1);
      assert digest[..len] == digest;
      WholeDigest(digest, q);
      WitnessFront(len, len, 1, fieldLen);
    }
    QatMessageIs(digest, fieldLen);
  }

  lemma {:induction false} QatDisagrees(len: nat, fieldLen: nat, order: nat) returns (digest: seq<Byte>)
    requires order > 1 && !SameBits(len, fieldLen, BitLength(order))
    ensures |digest| == len && !QatAgrees(digest, fieldLen, order)
  {
    var c, q := if len < fieldLen then len else fieldLen, BitLength(order);
    if 8 * c > q {
      digest := KeepsTooMuch(len, fieldLen, q);
    } else {
      digest := KeepsTooLittle(len, fieldLen, q);
    }
  }

  /**
    The QAT path signs a number congruent to the reference for every digest of a given
    length exactly when the field is as long as the order, or the whole digest fits into
    both (or the group is trivial).
   */
  lemma {:induction false} QatAgreesIff(len: nat, fieldLen: nat, order: nat)
    requires order > 0
    ensures (forall digest: seq<Byte> :: |digest| == len ==> QatAgrees(digest, fieldLen, order))
            <==> (order == 1 || SameBits(len, fieldLen, BitLength(order)))
  {
    if SameBits(len, fieldLen, BitLength(order)) {
      forall digest: seq<Byte> | |digest| == len ensures QatAgrees(digest, fieldLen, order) {
        QatAgreesWhen(digest, fieldLen, BitLength(order));
      }
    } else if order > 1 {
      var digest := QatDisagrees(len, fieldLen, order);
    }
  }

  /** Where the field has the bytes of the order: whole bytes, or a digest shorter than the field. */
  lemma SameBitsOfCurve(len: nat, q: nat)
    ensures SameBits(len, DivCeil8(q), q) <==> (q % 8 == 0 || len < DivCeil8(q))
  {
    Ceil(q);
  }
}
