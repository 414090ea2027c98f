/** The HMAC trailer (dt2/authcode.py). SHA-256 and HMAC are parameters: any
    functions with 32-byte results. */
module Authcode {
  import opened Bytes

  type Digest = s: seq<byte> | |s| == 32 witness seq(32, _ => 0)

  datatype Crypto = Crypto(sha: seq<byte> -> Digest, hmac: (seq<byte>, seq<byte>) -> Digest)

  datatype Device = DigitaktII | DigitoneII

  datatype AuthFault = NoLength | ShorterThanItsLength

  function DeviceById(id: byte): Option<Device> {
    if id == 0x14 then Some(DigitaktII) else if id == 0x15 then Some(DigitoneII) else None
  }

  /** "Master Overdrive" or "Multiplier", in ASCII. */
  function DeviceString(d: Device): seq<byte> {
    match d
    case DigitaktII =>
      [0x4D, 0x61, 0x73, 0x74, 0x65, 0x72, 0x20, 0x4F, 0x76, 0x65, 0x72, 0x64, 0x72, 0x69, 0x76, 0x65]
    case DigitoneII =>
      [0x4D, 0x75, 0x6C, 0x74, 0x69, 0x70, 0x6C, 0x69, 0x65, 0x72]
  }

  function DeviceConst(d: Device): Digest {
    match d
    case DigitaktII =>
      [0x69, 0x5D, 0x82, 0xBC, 0xA2, 0xF0, 0x3F, 0x2C] + [0x44, 0x57, 0x04, 0x20, 0xEF, 0xF1, 0x11, 0x78] +
      [0x31, 0xEA, 0x1A, 0xA0, 0x38, 0x29, 0xC5, 0x5E] + [0x09, 0x06, 0x5D, 0x1B, 0x79, 0x0D, 0x63, 0xFF]
    case DigitoneII =>
      [0xFC, 0x83, 0x03, 0x2C, 0x7B, 0x27, 0x81, 0xC9] + [0x70, 0xDD, 0x30, 0x62, 0x63, 0x15, 0x6E, 0x8E] +
      [0x07, 0xFF, 0x6F, 0xA0, 0xF3, 0x12, 0xD2, 0x39] + [0x3C, 0xB2, 0xF5, 0x84, 0x9F, 0x96, 0x70, 0xE5]
  }

  function XorByte(a: byte, b: byte): byte {
    XorBound(a, b, 8);
    Powers();
    Xor(a, b)
  }

  function Reversed(s: seq<byte>): (r: seq<byte>)
    ensures |r| == |s|
    ensures forall i :: 0 <= i < |s| ==> r[i] == s[|s| - 1 - i]
  {
    if s == [] then [] else Reversed(s[1..]) + [s[0]]
  }

  /** `derive_key` */
  function DeriveKey(crypto: Crypto, d: Device): Digest {
    var c, h1, h2 := DeviceConst(d), crypto.sha(DeviceString(d)), crypto.sha(Reversed(DeviceString(d)));
    seq(32, i requires 0 <= i < 32 => XorByte(XorByte(c[i], h1[i]), h2[i]))
  }

  /** `seal`: the trailer slot filled with the code of everything before it. */
  function Sealed(crypto: Crypto, container: seq<byte>, d: Device): seq<byte> {
    var data := if |container| < 32 then [] else container[..|container| - 32];
    data + crypto.hmac(DeriveKey(crypto, d), data)
  }

  /** Where the trailer of a container of `n` bytes is cut off, Python's
      negative slice bound included. */
  function TrailerCut(n: nat): (k: nat)
    ensures k <= n
  {
    if n >= 32 then n - 32 else if 2 * n >= 32 then 2 * n - 32 else 0
  }

  /** `split_container`: the covered data, the trailer and the declared length. */
  function Split(decoded: seq<byte>): Result<(seq<byte>, seq<byte>, nat), AuthFault> {
    if |decoded| < 4 then Err(NoLength)
    else
      var n: int := Word(decoded, 0);
      if |decoded| < 8 + n && n != 0 then Err(ShorterThanItsLength)
      else
        var c := if n == 0 then [] else decoded[8..8 + n];
        Ok((c[..TrailerCut(n)], c[TrailerCut(n)..], n))
  }

  /** `verify`, on the decoded stream: the declared length, the trailer found
      and the trailer computed. */
  function Verified(crypto: Crypto, decoded: seq<byte>, d: Device): Result<(nat, seq<byte>, seq<byte>), AuthFault> {
    var (data, trailer, n) :- Split(decoded);
    Ok((n, trailer, crypto.hmac(DeriveKey(crypto, d), data)))
  }

  /** A stream that carries a sealed container behind its length verifies:
      the trailer found is the trailer computed. */
  lemma SealVerifies(crypto: Crypto, container: seq<byte>, d: Device, decoded: seq<byte>, checksum: u32)
    requires |container| >= 32
    requires var s := Sealed(crypto, container, d);
             |s| < WORD && Pack32(|s|) + Pack32(checksum) + s <= decoded
    ensures var s := Sealed(crypto, container, d);
            |s| == |container| && s[..|s| - 32] == container[..|container| - 32] &&
            Verified(crypto, decoded, d) == Ok((|s|, s[|s| - 32..], s[|s| - 32..]))
  {
    hide Pack32, Word, DeriveKey;
    var s := Sealed(crypto, container, d);
    var all := Pack32(|s|) + Pack32(checksum) + s;
    assert decoded[..|all|] == all;
    assert decoded[0..4] == all[0..4] == Pack32(|s|);
    PackUnpack(|s|, decoded, 0);
    assert decoded[8..8 + |s|] == all[8..8 + |s|] == s;
    assert s[..|s| - 32] == container[..|container| - 32];
  }

  /** From 32 bytes on, the code covers everything between the preamble and the
      last 32 bytes of the declared length, and those 32 are the trailer. */
  lemma CoveredBytes(decoded: seq<byte>)
    requires |decoded| >= 4 && Word(decoded, 0) >= 32
    ensures var n := Word(decoded, 0);
            Split(decoded) ==
              if |decoded| < 8 + n then Err(ShorterThanItsLength)
              else Ok((decoded[8..8 + n - 32], decoded[8 + n - 32..8 + n], n))
  {
    hide Word;
    var n: nat := Word(decoded, 0);
    if |decoded| >= 8 + n {
      SliceOfSlice(decoded, 8, 8 + n, 0, n - 32);
      SliceOfSlice(decoded, 8, 8 + n, n - 32, n);
    }
  }

  /** The trailer found is the trailer computed. */
  predicate Genuine(crypto: Crypto, decoded: seq<byte>, d: Device) {
    var v := Verified(crypto, decoded, d);
    v.Ok? && v.value.1 == v.value.2
  }

  /** The bytes a declared length of 32 or more spans are all there. */
  predicate Framed(decoded: seq<byte>) {
    |decoded| >= 4 && Word(decoded, 0) >= 32 && |decoded| >= 8 + Word(decoded, 0)
  }

  /** All of them but the last 32, and the last 32. */
  function CoveredOf(decoded: seq<byte>): seq<byte>
    requires Framed(decoded)
  {
    decoded[8..8 + Word(decoded, 0) - 32]
  }

  function TrailerOf(decoded: seq<byte>): seq<byte>
    requires Framed(decoded)
  {
    decoded[8 + Word(decoded, 0) - 32..8 + Word(decoded, 0)]
  }

  /** Detection: a stream verifies exactly when the code of its covered bytes under
      the device's key is its trailer, so of two streams with one trailer, the
      first genuine, the second is genuine exactly when the codes of their covered
      bytes collide. */
  lemma TamperingDetected(crypto: Crypto, a: seq<byte>, b: seq<byte>, d: Device)
    ensures Framed(a) ==> (Genuine(crypto, a, d) <==> crypto.hmac(DeriveKey(crypto, d), CoveredOf(a)) == TrailerOf(a))
    ensures Framed(a) && Framed(b) && TrailerOf(a) == TrailerOf(b) && Genuine(crypto, a, d) ==>
              (Genuine(crypto, b, d) <==>
               crypto.hmac(DeriveKey(crypto, d), CoveredOf(b)) == crypto.hmac(DeriveKey(crypto, d), CoveredOf(a)))
  {
    hide Word, DeriveKey, Split;
    if Framed(a) {
      CoveredBytes(a);
    }
    if Framed(b) {
      CoveredBytes(b);
    }
  }

  /** Sealing makes the container its own covered bytes and the code of them. */
  lemma SealCovers(crypto: Crypto, container: seq<byte>, d: Device)
    requires |container| >= 32
    ensures var s, data := Sealed(crypto, container, d), container[..|container| - 32];
            s[..|s| - 32] == data && s[|s| - 32..] == crypto.hmac(DeriveKey(crypto, d), data)
  {
    hide DeriveKey;
  }

  /** The key is a one-time pad of the device constant: taking both digests off it
      again, that of the string and that of the string backwards, leaves it. */
  lemma KeyHidesConstant(crypto: Crypto, d: Device, backwards: seq<byte>, i: nat)
    requires i < 32 && |backwards| == |DeviceString(d)|
    requires forall j :: 0 <= j < |backwards| ==> backwards[j] == DeviceString(d)[|backwards| - 1 - j]
    ensures Xor(crypto.sha(DeviceString(d))[i], Xor(crypto.sha(backwards)[i], DeriveKey(crypto, d)[i])) == DeviceConst(d)[i]
  {
    hide DeviceString, DeviceConst, Xor;
    var s := DeviceString(d);
    assert backwards == Reversed(s);
    var c, h1, h2 := DeviceConst(d)[i], crypto.sha(s)[i], crypto.sha(Reversed(s))[i];
    XorCommutes(Xor(c, h1), h2);
    XorCommutes(c, h1);
    XorUndo(h2, Xor(h1, c));
    XorUndo(h1, c);
  }
}
