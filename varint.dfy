/**
  The `BlockData` byte encoding of exporter.py: `encode_as_varint`, the unsigned
  base-128 variable-length integer of the Sponge Schematic Specification version 2
  (unsigned LEB128, DWARF version 4 section 7.6), and `to_signed_byte_list`, which
  reinterprets each byte as a signed NBT byte.
*/
module VarInt {
  import opened Wrappers

  /** Whether every entry is a byte value 0..255. */
  predicate AreBytes(bs: seq<int>)
  {
    forall i :: 0 <= i < |bs| ==> 0 <= bs[i] < 256
  }

  /**
    The bytes of one value: the low seven bits first, the high bit set on every byte
    except the last. (On a non-negative integer `& 0x7F` is `% 128` and `>> 7` is `/ 128`.)
  */
  function Encode(n: nat): (bs: seq<int>)
    ensures |bs| >= 1 && AreBytes(bs)
    ensures bs[|bs| - 1] < 128
    ensures forall i :: 0 <= i < |bs| - 1 ==> bs[i] >= 128
    decreases n
  {
    if n < 128 then [n] else [n % 128 + 128] + Encode(n / 128)
  }

  /** The concatenated encodings of a list of values. */
  function EncodeAll(ns: seq<nat>): (bs: seq<int>)
    ensures AreBytes(bs)
    ensures |bs| >= |ns|
  {
    if |ns| == 0 then [] else EncodeAll(ns[..|ns| - 1]) + Encode(ns[|ns| - 1])
  }

  /**
    The inner `while True` loop of `encode_as_varint`: emit the low seven bits and
    shift, setting the continuation bit while something is left.
  */
  method AppendVarint(encoded: seq<int>, n: nat) returns (encoded': seq<int>)
    ensures encoded' == encoded + Encode(n)
  {
    encoded' := encoded;
    var num: nat := n;
    while true
      invariant encoded' + Encode(num) == encoded + Encode(n)
      decreases num
    {
      var bytePart := num % 128;
      var rest := num / 128;
      if rest != 0 {
        bytePart := bytePart + 128;
      }
      EncodeStep(num);
      assert encoded' + Encode(num) == encoded' + [bytePart] + if rest == 0 then [] else Encode(rest);
      encoded' := encoded' + [bytePart];
      num := rest;
      if num == 0 {
        break;
      }
    }
  }

  /** The first byte of an encoding, and what follows it. */
  lemma EncodeStep(n: nat)
    ensures Encode(n) == [n % 128 + if n / 128 != 0 then 128 else 0] + if n / 128 == 0 then [] else Encode(n / 128)
  {
  }

  /**
    `encode_as_varint`: the encodings of the values, one after another. A negative
    value would never shift down to zero, so the values are non-negative.
  */
  method EncodeAsVarint(ids: seq<nat>) returns (encoded: seq<int>)
    ensures encoded == EncodeAll(ids)
  {
    encoded := [];
    var i := 0;
    while i < |ids|
      invariant 0 <= i <= |ids|
      invariant encoded == EncodeAll(ids[..i])
    {
      encoded := AppendVarint(encoded, ids[i]);
      assert ids[..i + 1][..i] == ids[..i];
      i := i + 1;
    }
    assert ids[..i] == ids;
  }

  /** Read one value from the front of `bs`: its value and how many bytes it took. */
  function DecodeOne(bs: seq<int>): (r: Option<(nat, nat)>)
    ensures r.Some? ==> 1 <= r.value.1 <= |bs|
    decreases |bs|
  {
    if |bs| == 0 || bs[0] < 0 || bs[0] > 255 then None
    else if bs[0] < 128 then Some((bs[0], 1))
    else match DecodeOne(bs[1..])
      case None => None
      case Some((v, used)) => Some((bs[0] - 128 + 128 * v, used + 1))
  }

  /** Read values until the bytes run out; None when the bytes end inside a value. */
  function DecodeAll(bs: seq<int>): Option<seq<nat>>
    decreases |bs|
  {
    if |bs| == 0 then Some([])
    else match DecodeOne(bs)
      case None => None
      case Some((v, used)) =>
        match DecodeAll(bs[used..])
        case None => None
        case Some(rest) => Some([v] + rest)
  }

  /** Decoding an encoded value gives it back and consumes exactly its bytes, whatever follows. */
  lemma {:induction false} DecodeEncode(n: nat, tail: seq<int>)
    ensures DecodeOne(Encode(n) + tail) == Some((n, |Encode(n)|))
    decreases n
  {
    if n >= 128 {
      DecodeEncode(n / 128, tail);
      assert (Encode(n) + tail)[1..] == Encode(n / 128) + tail;
    }
  }

  /** Encoding a list of values and decoding the bytes gives the list back. */
  lemma {:induction false} EncodeAllRoundTrip(ns: seq<nat>)
    ensures DecodeAll(EncodeAll(ns)) == Some(ns)
    decreases |ns|
  {
    if |ns| > 0 {
      var head, rest := Encode(ns[0]), EncodeAll(ns[1..]);
      EncodeAllFront(ns);
      DecodeEncode(ns[0], rest);
      EncodeAllRoundTrip(ns[1..]);
      assert (head + rest)[|head|..] == rest;
      assert DecodeAll(head + rest) == Some([ns[0]] + ns[1..]);
      assert [ns[0]] + ns[1..] == ns;
    }
  }

  /** The encoding of a list is the first value's bytes followed by the rest's. */
  lemma {:induction false} EncodeAllFront(ns: seq<nat>)
    requires |ns| > 0
    ensures EncodeAll(ns) == Encode(ns[0]) + EncodeAll(ns[1..])
    decreases |ns|
  {
    if |ns| > 1 {
      var init := ns[..|ns| - 1];
      EncodeAllFront(init);
      assert init[1..] == ns[1..][..|ns[1..]| - 1];
      assert ns[1..][|ns[1..]| - 1] == ns[|ns| - 1];
    } else {
      assert ns[1..] == [];
    }
  }

  /** A value below 128 is its own single byte. */
  lemma SmallIsOneByte(n: nat)
    requires n < 128
    ensures Encode(n) == [n]
  {
  }

  /** The worked example of the format: 300 is 0xAC 0x02. */
  lemma ThreeHundred()
    ensures Encode(300) == [0xAC, 0x02]
  {
    assert Encode(2) == [2];
  }

  /** `to_signed_byte_list`: a byte of 128 or more becomes that value minus 256. */
  function ToSignedByteList(bs: seq<int>): (signed: seq<int>)
    ensures |signed| == |bs|
    ensures AreBytes(bs) ==> forall i :: 0 <= i < |signed| ==> -128 <= signed[i] < 128
    ensures forall i :: 0 <= i < |bs| && bs[i] < 128 ==> signed[i] == bs[i]
  {
    seq(|bs|, i requires 0 <= i < |bs| => if bs[i] < 128 then bs[i] else bs[i] - 256)
  }

  /** Reading a signed byte back as unsigned: add 256 to a negative one. */
  function ToUnsignedByteList(signed: seq<int>): (bs: seq<int>)
    ensures |bs| == |signed|
  {
    seq(|signed|, i requires 0 <= i < |signed| => if signed[i] < 0 then signed[i] + 256 else signed[i])
  }

  /** On bytes, the signed reinterpretation is undone by adding 256 to the negative entries. */
  lemma SignedRoundTrip(bs: seq<int>)
    requires AreBytes(bs)
    ensures ToUnsignedByteList(ToSignedByteList(bs)) == bs
  {
    assert forall i :: 0 <= i < |bs| ==> ToUnsignedByteList(ToSignedByteList(bs))[i] == bs[i];
  }
}
