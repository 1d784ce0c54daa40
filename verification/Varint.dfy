/**
  QUIC variable-length integers (ngtcp2/src/varint.rs, section 16 of RFC 9000).

  Bit operations of the source are written arithmetically: the two top bits of the first byte are
  `first / 64`, and `v & 0x3fff` is `v % 0x4000`.
 */
module Varint {
  import opened Octets

  const MAX: nat := 0x3fff_ffff_ffff_ffff

  // ---------------------------------------------------------------- big-endian integers

  function Pow256(k: nat): (p: nat)
    ensures p > 0
  {
    if k == 0 then 1 else 256 * Pow256(k - 1)
  }

  function FromBigEndian(s: seq<byte>): nat {
    if s == [] then 0 else 256 * FromBigEndian(s[..|s| - 1]) + s[|s| - 1]
  }

  function ToBigEndian(n: nat, k: nat): (s: seq<byte>)
    ensures |s| == k
  {
    if k == 0 then [] else ToBigEndian(n / 256, k - 1) + [n % 256]
  }

  lemma {:induction false} BigEndianRoundTrip(n: nat, k: nat)
    requires n < Pow256(k)
    ensures FromBigEndian(ToBigEndian(n, k)) == n
  {
    if k > 0 {
      BigEndianRoundTrip(n / 256, k - 1);
      assert ToBigEndian(n, k)[..k - 1] == ToBigEndian(n / 256, k - 1);
    }
  }

  lemma Regroup(a: nat, p: nat)
    ensures a * (256 * p) == 256 * (a * p)
  {
  }

  /** The first byte is the most significant one. */
  lemma {:induction false} LeadingByte(n: nat, k: nat, lo: nat, hi: nat)
    requires 0 < k && lo < hi <= 256
    requires lo * Pow256(k - 1) <= n < hi * Pow256(k - 1)
    ensures lo <= ToBigEndian(n, k)[0] < hi
  {
    if k > 1 {
      Regroup(lo, Pow256(k - 2));
      Regroup(hi, Pow256(k - 2));
      LeadingByte(n / 256, k - 1, lo, hi);
    } else {
      assert ToBigEndian(n, 1)[0] == n % 256;
    }
  }

  // ---------------------------------------------------------------- the codec

  /** The four lengths a varint can have. */
  predicate IsLength(k: nat) {
    k == 1 || k == 2 || k == 4 || k == 8
  }

  function EncodedLen(n: nat): (k: nat)
    ensures IsLength(k)
  {
    if n < 64 then 1 else if n < 16384 then 2 else if n < 1073741824 then 4 else 8
  }

  /** How many values a varint of length `k` can hold: 2^(8k - 2). */
  function Limit(k: nat): (l: nat)
    requires IsLength(k)
    ensures l > 0
  {
    if k == 1 then 0x40 else if k == 2 then 0x4000 else if k == 4 then 0x4000_0000 else 0x4000_0000_0000_0000
  }

  /** The two-bit tag of a length. */
  function Tag(k: nat): (t: nat)
    requires IsLength(k)
    ensures t < 4
  {
    if k == 1 then 0 else if k == 2 then 1 else if k == 4 then 2 else 3
  }

  /** The encoding of `n` in a given length; the source always picks the shortest. */
  function EncodeAs(n: nat, k: nat): (s: seq<byte>)
    requires IsLength(k) && n < Limit(k)
    ensures |s| == k
  {
    ToBigEndian(n + Tag(k) * Limit(k), k)
  }

  function Encode(n: nat): (s: seq<byte>)
    requires n <= MAX
    ensures |s| == EncodedLen(n)
  {
    EncodeAs(n, EncodedLen(n))
  }

  /** The value and the number of bytes consumed, if the bytes begin with a varint. */
  function Decode(buf: seq<byte>): (r: Option<(nat, nat)>)
    ensures r.Some? ==> IsLength(r.value.1) && r.value.1 <= |buf| && r.value.0 <= MAX
  {
    if buf == [] then None
    else
      var len := if buf[0] / 64 == 0 then 1 else if buf[0] / 64 == 1 then 2 else if buf[0] / 64 == 2 then 4 else 8;
      if |buf| < len then None
      else Some((FromBigEndian(buf[..len]) % Limit(len), len))
  }

  lemma Powers()
    ensures Pow256(0) == 1 && Pow256(1) == 0x100 && Pow256(2) == 0x1_0000
    ensures Pow256(3) == 0x100_0000 && Pow256(4) == 0x1_0000_0000
    ensures Pow256(7) == 0x100_0000_0000_0000 && Pow256(8) == 0x1_0000_0000_0000_0000
  {
    assert Pow256(5) == 0x100_0000_0000;
    assert Pow256(6) == 0x1_0000_0000_0000;
  }

  lemma EncodeAsTag(n: nat, k: nat)
    requires IsLength(k) && n < Limit(k)
    ensures EncodeAs(n, k)[0] / 64 == Tag(k)
    ensures n + Tag(k) * Limit(k) < Pow256(k)
  {
    Powers();
    LeadingByte(n + Tag(k) * Limit(k), k, 64 * Tag(k), 64 * Tag(k) + 64);
  }

  lemma TagDropped(n: nat, k: nat)
    requires IsLength(k) && n < Limit(k)
    ensures (n + Tag(k) * Limit(k)) % Limit(k) == n
  {
    if k == 1 {
    } else if k == 2 {
      assert (n + 0x4000) % 0x4000 == n;
    } else if k == 4 {
      assert (n + 2 * 0x4000_0000) % 0x4000_0000 == n;
    } else {
      assert (n + 3 * 0x4000_0000_0000_0000) % 0x4000_0000_0000_0000 == n;
    }
  }

  /** Decoding any encoding, whatever follows it, gives back the value and the length. */
  lemma DecodeEncodeAs(n: nat, k: nat, rest: seq<byte>)
    requires IsLength(k) && n < Limit(k)
    ensures Decode(EncodeAs(n, k) + rest) == Some((n, k))
  {
    EncodeAsTag(n, k);
    var m := n + Tag(k) * Limit(k);
    BigEndianRoundTrip(m, k);
    var s := EncodeAs(n, k) + rest;
    assert s[..k] == EncodeAs(n, k);
    assert s[0] == EncodeAs(n, k)[0];
    assert m % Limit(k) == n by {
      TagDropped(n, k);
    }
  }

  /** Round trip of the source's own encoder, for every encodable value and any trailing bytes. */
  lemma DecodeEncode(n: nat, rest: seq<byte>)
    requires n <= MAX
    ensures Decode(Encode(n) + rest) == Some((n, EncodedLen(n)))
  {
    DecodeEncodeAs(n, EncodedLen(n), rest);
  }

  /** No encoding is a proper prefix of another. */
  lemma PrefixFree(a: nat, b: nat)
    requires a <= MAX && b <= MAX
    requires Encode(a) <= Encode(b)
    ensures a == b
  {
    DecodeEncode(b, []);
    DecodeEncode(a, Encode(b)[|Encode(a)|..]);
    assert Encode(a) + Encode(b)[|Encode(a)|..] == Encode(b) + [];
  }

  /** Re-encoding a decoded value never takes more bytes than were consumed. */
  lemma ReencodeNotLonger(buf: seq<byte>)
    requires Decode(buf).Some?
    ensures EncodedLen(Decode(buf).value.0) <= Decode(buf).value.1
  {
  }

  /** Only the consumed bytes matter. */
  lemma DecodePrefix(buf: seq<byte>, end: nat)
    requires Decode(buf).Some? && Decode(buf).value.1 <= end <= |buf|
    ensures Decode(buf[..end]) == Decode(buf)
  {
    assert buf[..end][..Decode(buf).value.1] == buf[..Decode(buf).value.1];
  }

  // ---------------------------------------------------------------- the code of section 16 of RFC 9000

  /** Two and four bytes in network byte order. */
  function Pair(a: nat, b: nat): nat {
    0x100 * a + b
  }

  function Word(a: nat, b: nat, c: nat, d: nat): nat {
    0x1_0000 * Pair(a, b) + Pair(c, d)
  }

  lemma TwoBytes(s: seq<byte>)
    requires |s| == 2
    ensures FromBigEndian(s) == Pair(s[0], s[1])
  {
    assert s[..1] == [s[0]] && FromBigEndian([s[0]]) == s[0] as int;
  }

  lemma FourBytes(s: seq<byte>)
    requires |s| == 4
    ensures FromBigEndian(s) == Word(s[0], s[1], s[2], s[3])
  {
    assert s[..3][..2] == s[..2];
    assert FromBigEndian(s[..3]) == Pair(FromBigEndian(s[..2]), s[2]);
    TwoBytes(s[..2]);
  }

  lemma EightBytes(s: seq<byte>)
    requires |s| == 8
    ensures FromBigEndian(s) == 0x1_0000_0000 * Word(s[0], s[1], s[2], s[3]) + Word(s[4], s[5], s[6], s[7])
  {
    assert s[..7][..6] == s[..6] && s[..6][..5] == s[..5] && s[..5][..4] == s[..4];
    assert FromBigEndian(s[..5]) == Pair(FromBigEndian(s[..4]), s[4]);
    assert FromBigEndian(s[..6]) == Pair(FromBigEndian(s[..5]), s[5]);
    assert FromBigEndian(s[..7]) == Pair(FromBigEndian(s[..6]), s[6]);
    FourBytes(s[..4]);
  }

  lemma DecodedAs(buf: seq<byte>, n: nat, k: nat)
    requires IsLength(k) && |buf| >= k && n < Limit(k) && buf[0] / 64 == Tag(k)
    requires FromBigEndian(buf[..k]) == n + Tag(k) * Limit(k)
    ensures Decode(buf) == Some((n, k))
  {
    TagDropped(n, k);
  }

  /** The value of every encoding, byte by byte: two bits of length, the rest in network byte order. */
  lemma DecodedValue(buf: seq<byte>)
    requires Decode(buf).Some?
    ensures buf[0] < 0x40 ==> Decode(buf) == Some((buf[0] as nat, 1))
    ensures 0x40 <= buf[0] < 0x80 ==> |buf| >= 2 && Decode(buf) == Some((Pair(buf[0] - 0x40, buf[1]), 2))
    ensures 0x80 <= buf[0] < 0xc0 ==>
      |buf| >= 4 && Decode(buf) == Some((Word(buf[0] - 0x80, buf[1], buf[2], buf[3]), 4))
    ensures 0xc0 <= buf[0] ==>
      |buf| >= 8 && Decode(buf) == Some((0x1_0000_0000 * Word(buf[0] - 0xc0, buf[1], buf[2], buf[3])
                                         + Word(buf[4], buf[5], buf[6], buf[7]), 8))
  {
    if buf[0] < 0x40 {
      assert buf[..1] == [buf[0]] && FromBigEndian([buf[0]]) == buf[0] as int;
      DecodedAs(buf, buf[0], 1);
    } else if buf[0] < 0x80 {
      TwoBytes(buf[..2]);
      DecodedAs(buf, Pair(buf[0] - 0x40, buf[1]), 2);
    } else if buf[0] < 0xc0 {
      FourBytes(buf[..4]);
      DecodedAs(buf, Word(buf[0] - 0x80, buf[1], buf[2], buf[3]), 4);
    } else {
      EightBytes(buf[..8]);
      DecodedAs(buf, 0x1_0000_0000 * Word(buf[0] - 0xc0, buf[1], buf[2], buf[3]) + Word(buf[4], buf[5], buf[6], buf[7]), 8);
    }
  }

  /** The length bits and the shortest length that holds the value. */
  lemma EncodeTags(n: nat)
    requires n <= MAX
    ensures n < 0x40 ==> |Encode(n)| == 1 && Encode(n)[0] / 64 == 0
    ensures 0x40 <= n < 0x4000 ==> |Encode(n)| == 2 && Encode(n)[0] / 64 == 1
    ensures 0x4000 <= n < 0x4000_0000 ==> |Encode(n)| == 4 && Encode(n)[0] / 64 == 2
    ensures 0x4000_0000 <= n ==> |Encode(n)| == 8 && Encode(n)[0] / 64 == 3
  {
    EncodeAsTag(n, EncodedLen(n));
  }

  function PowerOfTwo(e: nat): nat {
    if e == 0 then 1 else 2 * PowerOfTwo(e - 1)
  }

  /** Bytes decode if and only if there are as many as the two top bits of the first one say, and those are consumed. */
  lemma DecodesExactly(buf: seq<byte>)
    ensures Decode(buf).Some? <==> buf != [] && |buf| >= PowerOfTwo(buf[0] / 64)
    ensures Decode(buf).Some? ==> Decode(buf).value.1 == PowerOfTwo(buf[0] / 64)
  {
    assert PowerOfTwo(1) == 2 && PowerOfTwo(2) == 4 && PowerOfTwo(3) == 8;
  }

  lemma {:induction false} BigEndianInverse(s: seq<byte>)
    ensures ToBigEndian(FromBigEndian(s), |s|) == s
  {
    if s != [] {
      var n := |s| - 1;
      BigEndianInverse(s[..n]);
      assert FromBigEndian(s) / 256 == FromBigEndian(s[..n]) && FromBigEndian(s) % 256 == s[n];
    }
  }

  lemma {:induction false} LeadingPart(s: seq<byte>)
    requires s != []
    ensures s[0] * Pow256(|s| - 1) <= FromBigEndian(s) < s[0] * Pow256(|s| - 1) + Pow256(|s| - 1)
  {
    var n := |s| - 1;
    if n > 0 {
      var front := s[..n];
      LeadingPart(front);
      Regroup(front[0], Pow256(n - 1));
      var first: nat := front[0];
      Regroup(first + 1, Pow256(n - 1));
      assert FromBigEndian(s) == 256 * FromBigEndian(front) + s[n];
    }
  }

  lemma TagOfValue(v: nat, k: nat, first: nat)
    requires IsLength(k) && first < 256 && first / 64 == Tag(k)
    requires first * Pow256(k - 1) <= v < (first + 1) * Pow256(k - 1)
    ensures v == v % Limit(k) + Tag(k) * Limit(k)
  {
    Powers();
    if k == 1 {
    } else if k == 2 {
      assert v / 0x4000 == 1;
    } else if k == 4 {
      assert v / 0x4000_0000 == 2;
    } else {
      assert v / 0x4000_0000_0000_0000 == 3;
    }
  }

  /** Decoding loses nothing: the bytes consumed are the encoding of the value in that many bytes. */
  lemma EncodeDecode(buf: seq<byte>)
    requires Decode(buf).Some?
    ensures var (n, k) := Decode(buf).value;
            n < Limit(k) && EncodeAs(n, k) == buf[..k]
  {
    var (n, k) := Decode(buf).value;
    var s := buf[..k];
    LeadingPart(s);
    TagOfValue(FromBigEndian(s), k, s[0]);
    BigEndianInverse(s);
  }

  // ---------------------------------------------------------------- the in-place encoders

  /** `encode`: the two `assert!`s of the source are its preconditions. */
  method EncodeInto(buf: array<byte>, n: nat) returns (len: nat)
    requires n <= MAX && buf.Length >= EncodedLen(n)
    modifies buf
    ensures len == EncodedLen(n)
    ensures buf[..len] == Encode(n)
    ensures buf[len..] == old(buf[len..])
  {
    len := EncodedLen(n);
    var v: nat := n + (if len == 1 then 0 else if len == 2 then 0x4000
                  else if len == 4 then 0x8000_0000 else 0xc000_0000_0000_0000);
    // `to_be_bytes`, least significant byte last
    var i := len;
    while i > 0
      invariant 0 <= i <= len
      invariant ToBigEndian(v, i) + buf[i..len] == Encode(n)
      invariant buf[len..] == old(buf[len..])
    {
      i := i - 1;
      ghost var done := buf[i + 1..len];
      buf[i] := v % 256;
      assert buf[i..len] == [buf[i]] + done;
      v := v / 256;
    }
  }

  /** `encode_to_vec` */
  method EncodeToVec(n: nat, vec: seq<byte>) returns (out: seq<byte>)
    requires n <= MAX
    ensures out == vec + Encode(n)
  {
    var tail := new byte[EncodedLen(n)];
    var len := EncodeInto(tail, n);
    out := vec + tail[..len];
  }
}
