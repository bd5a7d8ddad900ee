/**
 * The customer id as the indexing service expects it in call metadata: eight
 * bytes, big-endian, two's complement (Python's `struct.pack(">q", id)`).
 */
module CustomerId {
  import opened Common

  const Two63: int := 0x8000_0000_0000_0000
  const Two64: int := 0x1_0000_0000_0000_0000

  /** The range `struct` accepts for a signed 64-bit field. */
  predicate InInt64(x: int) {
    -Two63 <= x < Two63
  }

  function Pow256(n: nat): (r: nat)
    ensures r > 0
  {
    if n == 0 then 1 else 256 * Pow256(n - 1)
  }

  lemma Pow256Eight()
    ensures Pow256(8) == Two64
  {
    assert Pow256(2) == 65536;
    assert Pow256(4) == 65536 * 65536 by { assert Pow256(4) == 256 * 256 * Pow256(2); }
    assert Pow256(8) == Pow256(4) * Pow256(4) by {
      assert Pow256(8) == 256 * 256 * 256 * 256 * Pow256(4);
    }
  }

  /** The `n`-byte big-endian form of a natural number below `256^n`. */
  function EncodeBE(u: nat, n: nat): (r: seq<byte>)
    requires u < Pow256(n)
    ensures |r| == n
  {
    if n == 0 then [] else EncodeBE(u / 256, n - 1) + [u % 256]
  }

  /** The natural number a big-endian byte string denotes. */
  function DecodeBE(s: seq<byte>): (r: nat)
    ensures r < Pow256(|s|)
  {
    if |s| == 0 then 0 else DecodeBE(s[..|s| - 1]) * 256 + s[|s| - 1]
  }

  lemma {:induction false} DecodeEncodeBE(u: nat, n: nat)
    requires u < Pow256(n)
    ensures DecodeBE(EncodeBE(u, n)) == u
  {
    if n > 0 {
      var r := EncodeBE(u, n);
      assert r[..n - 1] == EncodeBE(u / 256, n - 1);
      DecodeEncodeBE(u / 256, n - 1);
    }
  }

  lemma {:induction false} EncodeDecodeBE(s: seq<byte>)
    ensures EncodeBE(DecodeBE(s), |s|) == s
  {
    if |s| > 0 {
      var init := s[..|s| - 1];
      EncodeDecodeBE(init);
      var u := DecodeBE(s);
      assert u / 256 == DecodeBE(init);
      assert u % 256 == s[|s| - 1];
      assert s == init + [s[|s| - 1]];
    }
  }

  /** The two's-complement reading of a signed value as an unsigned 64-bit one. */
  function ToUnsigned(x: int): (u: nat)
    requires InInt64(x)
    ensures u < Two64
  {
    if x < 0 then x + Two64 else x
  }

  function ToSigned(u: nat): (x: int)
    requires u < Two64
    ensures InInt64(x)
  {
    if u >= Two63 then u - Two64 else u
  }

  /** `struct.pack(">q", id)`: eight bytes, or nothing when the id does not fit (`struct.error`). */
  function Pack(id: int): (r: Option<seq<byte>>)
    ensures r.Some? <==> InInt64(id)
    ensures r.Some? ==> |r.value| == 8
  {
    if InInt64(id) then
      Pow256Eight();
      Some(EncodeBE(ToUnsigned(id), 8))
    else None
  }

  /** `struct.unpack(">q", b)[0]`. */
  function Unpack(b: seq<byte>): (x: int)
    requires |b| == 8
    ensures InInt64(x)
  {
    Pow256Eight();
    ToSigned(DecodeBE(b))
  }

  /** Decoding the packed id gives the id back, for every id in the signed 64-bit range. */
  lemma PackUnpack(id: int)
    requires InInt64(id)
    ensures Pack(id).Some? && Unpack(Pack(id).value) == id
  {
    Pow256Eight();
    DecodeEncodeBE(ToUnsigned(id), 8);
  }

  /** Every eight-byte string is the packing of exactly the id it decodes to. */
  lemma UnpackPack(b: seq<byte>)
    requires |b| == 8
    ensures Pack(Unpack(b)) == Some(b)
  {
    Pow256Eight();
    EncodeDecodeBE(b);
  }

  /** The first byte carries the sign: its top bit is set exactly for negative ids. */
  lemma SignInFirstByte(id: int)
    requires InInt64(id)
    ensures Pack(id).Some? && (id < 0 <==> Pack(id).value[0] >= 128)
  {
    Pow256Eight();
    var u := ToUnsigned(id);
    var b := Pack(id).value;
    EncodeDecodeBE(b);
    DecodeEncodeBE(u, 8);
    LeadingByte(b);
  }

  /** The leading byte of an eight-byte string is its value divided by 2^56. */
  lemma LeadingByte(b: seq<byte>)
    requires |b| == 8
    ensures DecodeBE(b) >= Two63 <==> b[0] >= 128
  {
    var t := b[1..];
    assert DecodeBE(b) == b[0] * Pow256(7) + DecodeBE(t) by {
      DecodeFront(b);
    }
    assert Pow256(7) * 128 == Two63 by {
      Pow256Eight();
    }
  }

  lemma ShiftByte(a: int, p: int, mid: int, last: int)
    ensures (a * p + mid) * 256 + last == a * (256 * p) + (mid * 256 + last)
  {
  }

  /** Big-endian decoding read from the front. */
  lemma {:induction false} DecodeFront(s: seq<byte>)
    requires |s| > 0
    ensures DecodeBE(s) == s[0] * Pow256(|s| - 1) + DecodeBE(s[1..])
  {
    if |s| > 1 {
      var init := s[..|s| - 1];
      var last := s[|s| - 1];
      var p := Pow256(|s| - 2);
      DecodeFront(init);
      assert init[1..] == s[1..][..|s| - 2];
      assert init[0] == s[0];
      var mid := DecodeBE(init[1..]);
      assert DecodeBE(init) == s[0] * p + mid;
      assert DecodeBE(s[1..]) == mid * 256 + last;
      ShiftByte(s[0], p, mid, last);
    } else {
      assert s[..0] == [] && s[1..] == [];
    }
  }
}
