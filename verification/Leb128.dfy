/**
  Unsigned LEB128 for 32-bit values (section 7.6 of DWARF Version 5): seven payload
  bits per byte, least significant group first, the top bit set on every byte but the
  last. Bytes are numbers below 256, so `b < 128` says that the byte ends the value;
  or-ing groups together is addition, as they never overlap.
 */
module Leb128 {
  import opened Basics

  datatype Result =
    | Ok(value: U32, encodedLen: nat)
    | NeedMoreData
    | NoEndFound
    | Overflow

  // ---------------------------------------------------------------------------
  // The meaning of a byte string, independent of any decoder

  /** The seven low bits. */
  function Payload(b: Byte): (p: nat)
    ensures p < 128
  {
    if b < 128 then b else b - 128
  }

  /** The number a group of bytes stands for, whatever its size. */
  function Value(data: seq<Byte>): (v: nat) {
    if data == [] then 0 else Payload(data[0]) + 128 * Value(data[1..])
  }

  ghost predicate AllContinue(data: seq<Byte>, n: nat)
    requires n <= |data|
  {
    forall i :: 0 <= i < n ==> data[i] >= 128
  }

  /** The first `n` bytes are one encoded value. */
  ghost predicate Ends(data: seq<Byte>, n: nat) {
    1 <= n <= |data| && AllContinue(data, n - 1) && data[n - 1] < 128
  }

  /** What a decoder must answer, for each possible answer. */
  ghost predicate Decodes(data: seq<Byte>, r: Result) {
    match r
    case Ok(v, n) => n <= 5 && Ends(data, n) && v == Value(data[..n])
    case Overflow => Ends(data, 5) && Value(data[..5]) > U32_MAX
    case NoEndFound => |data| >= 5 && AllContinue(data, 5)
    case NeedMoreData => |data| < 5 && AllContinue(data, |data|)
  }

  /** The answer is determined by the data. */
  lemma DecodesUnique(data: seq<Byte>, r: Result, r': Result)
    requires Decodes(data, r) && Decodes(data, r')
    ensures r == r'
  {
  }

  /** Any answer but "need more data" is final: bytes that follow do not change it. */
  lemma DecodesIsFinal(data: seq<Byte>, suffix: seq<Byte>, r: Result)
    requires Decodes(data, r) && !r.NeedMoreData?
    ensures Decodes(data + suffix, r)
  {
    var n := if r.Ok? then r.encodedLen else 5;
    assert (data + suffix)[..n] == data[..n];
  }

  // ---------------------------------------------------------------------------
  // Decoding

  function Shift(i: nat): (p: nat)
    requires i <= 4
  {
    match i case 0 => 1 case 1 => 128 case 2 => 16384 case 3 => 2097152 case _ => 268435456
  }

  /** One more group on top. */
  lemma {:induction false} ValueSnoc(data: seq<Byte>, b: Byte)
    requires |data| <= 4
    ensures Value(data + [b]) == Value(data) + Payload(b) * Shift(|data|)
    ensures Value(data) < Shift(|data|)
    decreases |data|
  {
    if data == [] {
      assert data + [b] == [b];
      assert [b][1..] == [];
    } else {
      ValueSnoc(data[1..], b);
      assert (data + [b])[1..] == data[1..] + [b];
    }
  }

  method Decode(data: seq<Byte>) returns (r: Result)
    ensures Decodes(data, r)
  {
    if data == [] {
      return NeedMoreData;
    }
    if data[0] < 128 {
      assert data[..1] == [data[0]] && data[..1][1..] == [];
      return Ok(data[0], 1);
    }
    var value, i := Payload(data[0]), 1;
    assert data[..1] == [data[0]] && data[..1][1..] == [];
    while i < |data|
      invariant 1 <= i <= |data| && i <= 4
      invariant AllContinue(data, i)
      invariant value == Value(data[..i])
    {
      var group := Payload(data[i]);
      ValueSnoc(data[..i], data[i]);
      assert data[..i] + [data[i]] == data[..i + 1];
      if data[i] < 128 {
        // Only 4 bits of the fifth group fit into 32 bits.
        if i == 4 && group >= 16 {
          return Overflow;
        }
        return Ok(value + group * Shift(i), i + 1);
      }
      if i == 4 {
        return NoEndFound;
      }
      value := value + group * Shift(i);
      i := i + 1;
    }
    return NeedMoreData;
  }

  // ---------------------------------------------------------------------------
  // Encoding

  function Encode(v: nat): (bs: seq<Byte>)
    ensures |bs| >= 1
  {
    if v < 128 then [v] else [128 + v % 128] + Encode(v / 128)
  }

  /** One group in front. */
  lemma {:induction false} EndsCons(b: Byte, rest: seq<Byte>)
    requires b >= 128 && Ends(rest, |rest|)
    ensures Ends([b] + rest, |rest| + 1) && Value([b] + rest) == b - 128 + 128 * Value(rest)
  {
    assert ([b] + rest)[1..] == rest;
  }

  lemma {:induction false} EncodeEnds(v: nat)
    ensures Ends(Encode(v), |Encode(v)|) && Value(Encode(v)) == v
  {
    if v < 128 {
      assert Encode(v)[1..] == [];
    } else {
      EncodeEnds(v / 128);
      EndsCons(128 + v % 128, Encode(v / 128));
    }
  }

  /** An example of the standard: 12857 takes two bytes. */
  lemma StandardExample()
    ensures Encode(12857) == [0xB9, 0x64] && Encode(2) == [2] && Encode(127) == [127] && Encode(128) == [0x80, 1]
  {
    assert Encode(100) == [0x64];
  }

  function Pow128(n: nat): (p: nat)
    ensures p >= 1
  {
    if n == 0 then 1 else 128 * Pow128(n - 1)
  }

  /** The encoding uses as many bytes as the value needs: `n` suffice exactly when it is below 128^n. */
  lemma {:induction false} EncodeLength(v: nat, n: nat)
    requires n >= 1
    ensures |Encode(v)| <= n <==> v < Pow128(n)
    decreases n
  {
    if n == 1 {
      assert Pow128(1) == 128 * Pow128(0);
    } else if v >= 128 {
      EncodeLength(v / 128, n - 1);
    } else {
      assert Pow128(n) >= 128;
    }
  }

  lemma {:induction false} ValueBound(data: seq<Byte>)
    ensures Value(data) < Pow128(|data|)
  {
    if data != [] {
      ValueBound(data[1..]);
    }
  }

  /** Decoding undoes encoding, whatever follows, and tells how long the encoding was. */
  lemma RoundTrip(v: U32, suffix: seq<Byte>)
    ensures |Encode(v)| <= 5
    ensures Decodes(Encode(v) + suffix, Ok(v, |Encode(v)|))
  {
    EncodeLength(v, 5);
    assert Pow128(5) == 34359738368 by {
      assert Pow128(2) == 16384;
      assert Pow128(4) == 128 * 128 * Pow128(2);
    }
    EncodeEnds(v);
    assert Encode(v)[..|Encode(v)|] == Encode(v);
    DecodesIsFinal(Encode(v), suffix, Ok(v, |Encode(v)|));
  }

  /** No accepted encoding of a value is shorter than the encoder's. */
  lemma EncodeIsShortest(data: seq<Byte>, v: U32, n: nat)
    requires Decodes(data, Ok(v, n))
    ensures |Encode(v)| <= n
  {
    ValueBound(data[..n]);
    EncodeLength(v, n);
  }

  /** The largest value that can remain after `i` groups of a 32-bit value are written. */
  function Left(i: nat): (n: nat)
    requires i <= 4
  {
    match i case 0 => U32_MAX case 1 => 0x1FF_FFFF case 2 => 0x3_FFFF case 3 => 0x7FF case _ => 0xF
  }

  class Encoder {
    const data: array<Byte>

    constructor ()
      ensures data.Length == 10 && fresh(data)
    {
      data := new Byte[10](_ => 0);
    }

    /** Writes the encoding to the start of the buffer; five bytes are enough. */
    method EncodeU32(v: U32) returns (len: nat)
      requires data.Length == 10
      modifies data
      ensures len <= 5 && data[..len] == Encode(v)
    {
      var rest: nat, offset: nat := v, 0;
      while rest >= 128
        invariant 0 <= offset <= 4
        invariant rest <= Left(offset)
        invariant data[..offset] + Encode(rest) == Encode(v)
        decreases rest
      {
        ghost var before := data[..offset];
        data[offset] := 128 + rest % 128;
        assert data[..offset + 1] == before + [128 + rest % 128];
        rest := rest / 128;
        offset := offset + 1;
      }
      ghost var before := data[..offset];
      data[offset] := rest;
      len := offset + 1;
      assert data[..len] == before + [rest];
    }
  }
}
