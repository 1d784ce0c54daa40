/** Splitting a datagram into its coalesced QUIC packets (ngtcp2/src/packet.rs). */
module Packet {
  import opened Octets
  import opened Varint

  /** The position after the source connection ID of a long header. */
  function HeaderEnd(buf: seq<byte>): (r: Option<nat>)
    ensures r.Some? ==> r.value >= 7
  {
    if |buf| <= 5 then None
    else
      var dcidLen: int := buf[5];
      var pos := 6 + dcidLen;
      if |buf| <= pos then None else Some(pos + 1 + buf[pos])
  }

  /** The position after the varint at `pos` and as many bytes as it says. */
  function SkipCounted(buf: seq<byte>, pos: nat): (r: Option<nat>)
    ensures r.Some? ==> r.value > pos
  {
    if pos > |buf| then None
    else match Decode(buf[pos..])
      case None => None
      case Some((n, len)) => Some(pos + len + n)
  }

  function LongType(first: byte): nat {
    first / 16 % 4
  }

  /** `packet_len`: the type bits have their version 1 meaning whatever the version field says. */
  function PacketLen(buf: seq<byte>): (r: Option<nat>)
    ensures r.Some? ==> 0 < r.value <= |buf|
  {
    if buf == [] then None
    else if buf[0] < 128 then Some(|buf|)
    else if |buf| < 5 then None
    else if FromBigEndian(buf[1..5]) == 0 then Some(|buf|)
    else match HeaderEnd(buf)
      case None => None
      case Some(pos) =>
        if LongType(buf[0]) == 3 then Some(|buf|)
        else match (if LongType(buf[0]) == 0 then SkipCounted(buf, pos) else Some(pos))
          case None => None
          case Some(pos) =>
            match SkipCounted(buf, pos)
            case None => None
            case Some(end) => if end <= |buf| then Some(end) else None
  }

  function Split(buf: seq<byte>): seq<seq<byte>>
    decreases |buf|
  {
    if buf == [] then []
    else match PacketLen(buf)
      case None => [buf]
      case Some(len) => [buf[..len]] + Split(buf[len..])
  }

  /** `split_packets` */
  method SplitPackets(buf: seq<byte>) returns (packets: seq<seq<byte>>)
    ensures packets == Split(buf)
  {
    packets := [];
    var rest := buf;
    while rest != []
      invariant packets + Split(rest) == Split(buf)
      decreases |rest|
    {
      match PacketLen(rest) {
        case None =>
          packets := packets + [rest];
          return;
        case Some(len) =>
          packets := packets + [rest[..len]];
          rest := rest[len..];
      }
    }
  }

  // ---------------------------------------------------------------- arbitrary bytes

  function Concat(pieces: seq<seq<byte>>): seq<byte> {
    if pieces == [] then [] else pieces[0] + Concat(pieces[1..])
  }

  lemma ConcatCons(piece: seq<byte>, pieces: seq<seq<byte>>)
    ensures Concat([piece] + pieces) == piece + Concat(pieces)
  {
    assert ([piece] + pieces)[1..] == pieces;
  }

  /** For any bytes the pieces concatenate to the input. */
  lemma {:induction false} SplitCovers(buf: seq<byte>)
    ensures Concat(Split(buf)) == buf
    decreases |buf|
  {
    if PacketLen(buf).Some? {
      SplitCovers(buf[PacketLen(buf).value..]);
      FirstPieceCovers(buf, PacketLen(buf).value);
    } else if buf != [] {
      ConcatCons(buf, []);
    }
  }

  lemma FirstPieceCovers(buf: seq<byte>, len: nat)
    requires PacketLen(buf) == Some(len)
    requires Concat(Split(buf[len..])) == buf[len..]
    ensures Concat(Split(buf)) == buf
  {
    var rest := Split(buf[len..]);
    assert Split(buf) == [buf[..len]] + rest;
    ConcatCons(buf[..len], rest);
  }

  /** No piece is empty. */
  lemma {:induction false} SplitNonEmpty(buf: seq<byte>, i: nat)
    requires i < |Split(buf)|
    ensures Split(buf)[i] != []
    decreases |buf|
  {
    if i > 0 {
      SplitNonEmpty(buf[PacketLen(buf).value..], i - 1);
    }
  }

  lemma SkipCountedPrefix(buf: seq<byte>, pos: nat, end: nat)
    requires SkipCounted(buf, pos).Some? && SkipCounted(buf, pos).value <= end <= |buf|
    ensures SkipCounted(buf[..end], pos) == SkipCounted(buf, pos)
  {
    DecodePrefix(buf[pos..], end - pos);
    assert buf[..end][pos..] == buf[pos..][..end - pos];
  }

  /** The length found depends only on the packet itself. */
  lemma PacketLenOfPacket(buf: seq<byte>)
    requires PacketLen(buf).Some?
    ensures PacketLen(buf[..PacketLen(buf).value]) == PacketLen(buf)
  {
    var len := PacketLen(buf).value;
    if len == |buf| {
      assert buf[..len] == buf;
    } else {
      var pos := HeaderEnd(buf).value;
      var body := if LongType(buf[0]) == 0 then SkipCounted(buf, pos).value else pos;
      assert buf[..len][1..5] == buf[1..5];
      if LongType(buf[0]) == 0 {
        SkipCountedPrefix(buf, pos, len);
      }
      SkipCountedPrefix(buf, body, len);
    }
  }

  /** Splitting is idempotent: a returned piece is one packet. */
  lemma {:induction false} SplitPieces(buf: seq<byte>, i: nat)
    requires i < |Split(buf)|
    ensures Split(Split(buf)[i]) == [Split(buf)[i]]
    decreases |buf|
  {
    if PacketLen(buf).Some? {
      var len := PacketLen(buf).value;
      if i > 0 {
        SplitPieces(buf[len..], i - 1);
      } else {
        PacketLenOfPacket(buf);
        assert buf[..len][..len] == buf[..len] && buf[..len][len..] == [];
      }
    }
  }

  // ---------------------------------------------------------------- well-formed packets

  datatype Kind = Initial | ZeroRtt | Handshake

  /**
    A packet with a Length field in the version 1 layout. `fixed` and `low` are the fixed bit and the
    four low bits of the first byte; the varints may have any length that fits, not only the shortest.
   */
  datatype LongPacket = LongPacket(
    kind: Kind, fixed: bool, low: nat, version: seq<byte>, dcid: seq<byte>, scid: seq<byte>,
    token: seq<byte>, tokenVarint: nat, lengthVarint: nat, payload: seq<byte>)

  predicate WellFormed(p: LongPacket) {
    && p.low < 16
    && |p.version| == 4 && FromBigEndian(p.version) != 0
    && |p.dcid| < 256 && |p.scid| < 256
    && IsLength(p.tokenVarint) && |p.token| < Limit(p.tokenVarint)
    && IsLength(p.lengthVarint) && |p.payload| < Limit(p.lengthVarint)
    && (p.kind != Initial ==> p.token == [])
  }

  function TypeBits(k: Kind): (t: nat)
    ensures t < 3
  {
    match k case Initial => 0 case ZeroRtt => 1 case Handshake => 2
  }

  function FirstByte(fixed: bool, low: nat, longType: nat): (b: byte)
    requires low < 16 && longType < 4
    ensures b >= 128 && LongType(b) == longType
  {
    if fixed then 192 + 16 * longType + low else 128 + 16 * longType + low
  }

  function Header(first: byte, version: seq<byte>, dcid: seq<byte>, scid: seq<byte>): seq<byte>
    requires |dcid| < 256 && |scid| < 256
  {
    [first] + version + [|dcid|] + dcid + [|scid|] + scid
  }

  /** A count followed by the bytes it counts. */
  function Counted(bytes: seq<byte>, k: nat): seq<byte>
    requires IsLength(k) && |bytes| < Limit(k)
  {
    EncodeAs(|bytes|, k) + bytes
  }

  function Serialize(p: LongPacket): seq<byte>
    requires WellFormed(p)
  {
    Header(FirstByte(p.fixed, p.low, TypeBits(p.kind)), p.version, p.dcid, p.scid)
    + (if p.kind == Initial then Counted(p.token, p.tokenVarint) else [])
    + Counted(p.payload, p.lengthVarint)
  }

  lemma HeaderEndOfHeader(first: byte, version: seq<byte>, dcid: seq<byte>, scid: seq<byte>, rest: seq<byte>)
    requires |version| == 4 && |dcid| < 256 && |scid| < 256
    ensures var buf := Header(first, version, dcid, scid) + rest;
            && buf[0] == first && buf[1..5] == version
            && HeaderEnd(buf) == Some(|Header(first, version, dcid, scid)|)
  {
    var buf := Header(first, version, dcid, scid) + rest;
    assert buf[5] == |dcid|;
    assert buf[6 + |dcid|] == |scid|;
  }

  lemma SkipCountedOfCounted(before: seq<byte>, bytes: seq<byte>, k: nat, rest: seq<byte>)
    requires IsLength(k) && |bytes| < Limit(k)
    ensures SkipCounted(before + Counted(bytes, k) + rest, |before|) == Some(|before + Counted(bytes, k)|)
  {
    DecodeEncodeAs(|bytes|, k, bytes + rest);
    assert (before + Counted(bytes, k) + rest)[|before|..] == EncodeAs(|bytes|, k) + (bytes + rest);
  }

  lemma LongPacketLen(buf: seq<byte>, pos: nat, body: nat, end: nat)
    requires |buf| >= 5 && buf[0] >= 128 && FromBigEndian(buf[1..5]) != 0
    requires HeaderEnd(buf) == Some(pos) && LongType(buf[0]) != 3
    requires if LongType(buf[0]) == 0 then SkipCounted(buf, pos) == Some(body) else body == pos
    requires SkipCounted(buf, body) == Some(end) && end <= |buf|
    ensures PacketLen(buf) == Some(end)
  {
  }

  lemma PacketLenOfSerialized(p: LongPacket, rest: seq<byte>)
    requires WellFormed(p)
    ensures PacketLen(Serialize(p) + rest) == Some(|Serialize(p)|)
  {
    var first := FirstByte(p.fixed, p.low, TypeBits(p.kind));
    var header := Header(first, p.version, p.dcid, p.scid);
    var token := if p.kind == Initial then Counted(p.token, p.tokenVarint) else [];
    var payload := Counted(p.payload, p.lengthVarint);
    HeaderEndOfHeader(first, p.version, p.dcid, p.scid, token + payload + rest);
    if p.kind == Initial {
      SkipCountedOfCounted(header, p.token, p.tokenVarint, payload + rest);
    }
    SkipCountedOfCounted(header + token, p.payload, p.lengthVarint, rest);
    PacketLenOfParts(header, token, payload, rest);
  }

  lemma PacketLenOfParts(header: seq<byte>, token: seq<byte>, payload: seq<byte>, rest: seq<byte>)
    requires |header| >= 5 && header[0] >= 128 && LongType(header[0]) != 3
    requires FromBigEndian((header + (token + payload + rest))[1..5]) != 0
    requires HeaderEnd(header + (token + payload + rest)) == Some(|header|)
    requires if LongType(header[0]) == 0
             then SkipCounted(header + token + (payload + rest), |header|) == Some(|header + token|)
             else token == []
    requires SkipCounted(header + token + payload + rest, |header + token|) == Some(|header + token + payload|)
    ensures PacketLen(header + token + payload + rest) == Some(|header + token + payload|)
  {
    var buf := header + token + payload + rest;
    assert buf == header + (token + payload + rest);
    assert buf == header + token + (payload + rest);
    LongPacketLen(buf, |header|, |header + token|, |header + token + payload|);
  }

  function SerializeAll(ps: seq<LongPacket>): seq<byte>
    requires forall i :: 0 <= i < |ps| ==> WellFormed(ps[i])
  {
    if ps == [] then [] else Serialize(ps[0]) + SerializeAll(ps[1..])
  }

  function Pieces(ps: seq<LongPacket>): (r: seq<seq<byte>>)
    requires forall i :: 0 <= i < |ps| ==> WellFormed(ps[i])
  {
    if ps == [] then [] else [Serialize(ps[0])] + Pieces(ps[1..])
  }

  /** A packet without a Length field extends to the end of the datagram. */
  datatype LastPacket =
    | NoLast
    | Short(first: byte, body: seq<byte>)
    | Retry(fixed: bool, low: nat, version: seq<byte>, dcid: seq<byte>, scid: seq<byte>, body: seq<byte>)
    | VersionNegotiation(first: byte, body: seq<byte>)

  predicate WellFormedLast(l: LastPacket) {
    match l
    case NoLast => true
    case Short(first, _) => first < 128
    case Retry(_, low, version, dcid, scid, _) =>
      low < 16 && |version| == 4 && FromBigEndian(version) != 0 && |dcid| < 256 && |scid| < 256
    case VersionNegotiation(first, _) => first >= 128
  }

  function SerializeLast(l: LastPacket): seq<byte>
    requires WellFormedLast(l)
  {
    match l
    case NoLast => []
    case Short(first, body) => [first] + body
    case Retry(fixed, low, version, dcid, scid, body) => Header(FirstByte(fixed, low, 3), version, dcid, scid) + body
    case VersionNegotiation(first, body) => [first, 0, 0, 0, 0] + body
  }

  lemma {:induction false} ZeroVersion(s: seq<byte>)
    requires forall i :: 0 <= i < |s| ==> s[i] == 0
    ensures FromBigEndian(s) == 0
  {
    if s != [] {
      ZeroVersion(s[..|s| - 1]);
    }
  }

  lemma SplitLast(l: LastPacket)
    requires WellFormedLast(l)
    ensures Split(SerializeLast(l)) == if l.NoLast? then [] else [SerializeLast(l)]
  {
    var buf := SerializeLast(l);
    match l
    case NoLast =>
    case Short(_, _) => assert buf[..|buf|] == buf && buf[|buf|..] == [];
    case Retry(fixed, low, version, dcid, scid, body) =>
      HeaderEndOfHeader(FirstByte(fixed, low, 3), version, dcid, scid, body);
      assert buf[..|buf|] == buf && buf[|buf|..] == [];
    case VersionNegotiation(first, body) =>
      ZeroVersion(buf[1..5]);
      assert buf[..|buf|] == buf && buf[|buf|..] == [];
  }

  lemma SplitFirst(p: seq<byte>, rest: seq<byte>)
    requires PacketLen(p + rest) == Some(|p|)
    ensures Split(p + rest) == [p] + Split(rest)
  {
    assert (p + rest)[..|p|] == p && (p + rest)[|p|..] == rest;
  }

  lemma SplitSerialized(p: LongPacket, rest: seq<byte>)
    requires WellFormed(p)
    ensures Split(Serialize(p) + rest) == [Serialize(p)] + Split(rest)
  {
    PacketLenOfSerialized(p, rest);
    SplitFirst(Serialize(p), rest);
  }

  lemma Regroup<T>(a: seq<T>, b: seq<T>, c: seq<T>)
    ensures a + b + c == a + (b + c)
  {
  }

  /**
    Unique decomposition: coalesced packets come back exactly, in order, whatever they hold and
    whatever packet without a Length field ends the datagram.
   */
  lemma {:induction false} SplitDecomposes(ps: seq<LongPacket>, l: LastPacket)
    requires forall i :: 0 <= i < |ps| ==> WellFormed(ps[i])
    requires WellFormedLast(l)
    ensures Split(SerializeAll(ps) + SerializeLast(l))
            == Pieces(ps) + if l.NoLast? then [] else [SerializeLast(l)]
  {
    var last, lastPieces := SerializeLast(l), if l.NoLast? then [] else [SerializeLast(l)];
    if ps == [] {
      SplitLast(l);
      assert [] + last == last && [] + lastPieces == lastPieces;
    } else {
      var p, more := Serialize(ps[0]), SerializeAll(ps[1..]);
      Regroup(p, more, last);
      Regroup([p], Pieces(ps[1..]), lastPieces);
      SplitSerialized(ps[0], more + last);
      SplitDecomposes(ps[1..], l);
    }
  }

  // ---------------------------------------------------------------- what is cut off, for arbitrary bytes

  /** A packet is found at the start that is shorter than the datagram. */
  predicate Cut(buf: seq<byte>) {
    PacketLen(buf).Some? && PacketLen(buf).value < |buf|
  }

  /** A datagram is one piece exactly if no shorter packet is found at its start. */
  lemma SplitWhole(buf: seq<byte>)
    requires buf != []
    ensures Split(buf) == [buf] <==> !Cut(buf)
  {
    if PacketLen(buf).Some? {
      var len := PacketLen(buf).value;
      assert Split(buf)[0] == buf[..len];
      if len == |buf| {
        assert buf[..len] == buf && buf[len..] == [];
      }
    }
  }

  /** What is skipped is a count, in some number of bytes, and what it counts. */
  lemma SkippedIsCounted(buf: seq<byte>, pos: nat) returns (bytes: seq<byte>, k: nat)
    requires SkipCounted(buf, pos).Some? && SkipCounted(buf, pos).value <= |buf|
    ensures IsLength(k) && |bytes| < Limit(k) && buf[pos..SkipCounted(buf, pos).value] == Counted(bytes, k)
  {
    EncodeDecode(buf[pos..]);
    var n := Decode(buf[pos..]).value.0;
    k := Decode(buf[pos..]).value.1;
    bytes := buf[pos + k..pos + k + n];
    assert buf[pos..pos + k + n] == buf[pos..][..k] + bytes;
  }

  lemma HeaderIsHeader(buf: seq<byte>, pos: nat) returns (dcid: seq<byte>, scid: seq<byte>)
    requires HeaderEnd(buf) == Some(pos) && pos <= |buf|
    ensures |dcid| < 256 && |scid| < 256 && buf[..pos] == Header(buf[0], buf[1..5], dcid, scid)
  {
    var m: nat := buf[5];
    var l: nat := buf[6 + m];
    dcid, scid := buf[6..6 + m], buf[7 + m..7 + m + l];
    assert buf[..pos] == [buf[0]] + buf[1..5] + [buf[5]] + dcid + [buf[6 + m]] + scid;
  }

  lemma FirstByteParts(first: byte) returns (fixed: bool, low: nat)
    requires first >= 128
    ensures low < 16 && first == FirstByte(fixed, low, LongType(first))
  {
    fixed, low := first / 64 == 3, first % 16;
  }

  /** The three positions a packet with a Length field is read at. */
  lemma CutPositions(buf: seq<byte>) returns (pos: nat, body: nat, end: nat)
    requires Cut(buf)
    ensures |buf| >= 5 && buf[0] >= 128 && FromBigEndian(buf[1..5]) != 0 && LongType(buf[0]) != 3
    ensures HeaderEnd(buf) == Some(pos) && 7 <= pos <= body < end == PacketLen(buf).value <= |buf|
    ensures if LongType(buf[0]) == 0 then SkipCounted(buf, pos) == Some(body) else body == pos
    ensures SkipCounted(buf, body) == Some(end)
  {
    pos := HeaderEnd(buf).value;
    body := if LongType(buf[0]) == 0 then SkipCounted(buf, pos).value else pos;
    end := SkipCounted(buf, body).value;
  }

  lemma SerializeOfParts(p: LongPacket, header: seq<byte>, token: seq<byte>, payload: seq<byte>)
    requires WellFormed(p)
    requires header == Header(FirstByte(p.fixed, p.low, TypeBits(p.kind)), p.version, p.dcid, p.scid)
    requires token == if p.kind == Initial then Counted(p.token, p.tokenVarint) else []
    requires payload == Counted(p.payload, p.lengthVarint)
    ensures Serialize(p) == header + token + payload
  {
  }

  lemma Sliced(buf: seq<byte>, pos: nat, body: nat, end: nat)
    requires pos <= body <= end <= |buf|
    ensures buf[..end] == buf[..pos] + buf[pos..body] + buf[body..end]
  {
  }

  /** A packet that ends where a Length field says is a well-formed packet of the version 1 layout. */
  lemma CutIsPacket(buf: seq<byte>) returns (p: LongPacket)
    requires Cut(buf)
    ensures WellFormed(p) && Serialize(p) == buf[..PacketLen(buf).value]
  {
    var pos, body, end := CutPositions(buf);
    p := PacketAt(buf, pos, body, end);
  }

  lemma PacketAt(buf: seq<byte>, pos: nat, body: nat, end: nat) returns (p: LongPacket)
    requires |buf| >= 5 && buf[0] >= 128 && FromBigEndian(buf[1..5]) != 0 && LongType(buf[0]) < 3
    requires HeaderEnd(buf) == Some(pos) && pos <= body <= end <= |buf|
    requires if LongType(buf[0]) == 0 then SkipCounted(buf, pos) == Some(body) else body == pos
    requires SkipCounted(buf, body) == Some(end)
    ensures WellFormed(p) && Serialize(p) == buf[..end]
  {
    var dcid, scid := HeaderIsHeader(buf, pos);
    var fixed, low := FirstByteParts(buf[0]);
    var token, tokenVarint := [], 1;
    if LongType(buf[0]) == 0 {
      token, tokenVarint := SkippedIsCounted(buf, pos);
    }
    var payload, lengthVarint := SkippedIsCounted(buf, body);
    var kind := if LongType(buf[0]) == 0 then Initial else if LongType(buf[0]) == 1 then ZeroRtt else Handshake;
    p := LongPacket(kind, fixed, low, buf[1..5], dcid, scid, token, tokenVarint, lengthVarint, payload);
    SerializeOfParts(p, buf[..pos], buf[pos..body], buf[body..end]);
    Sliced(buf, pos, body, end);
  }

  /** A well-formed packet with a Length field, and something after it. */
  ghost predicate Coalesced(buf: seq<byte>, p: LongPacket) {
    WellFormed(p) && |Serialize(p)| < |buf| && Serialize(p) <= buf
  }

  lemma CoalescedIsCut(buf: seq<byte>, p: LongPacket)
    requires Coalesced(buf, p)
    ensures PacketLen(buf) == Some(|Serialize(p)|)
  {
    PacketLenOfSerialized(p, buf[|Serialize(p)|..]);
    assert Serialize(p) + buf[|Serialize(p)|..] == buf;
  }

  /**
    For arbitrary bytes: a datagram is cut if and only if it begins with a well-formed Initial, 0-RTT
    or Handshake packet and goes on after it; any other, malformed or cut short, stays one piece.
   */
  lemma SplitsExactly(buf: seq<byte>)
    requires buf != []
    ensures Split(buf) != [buf] <==> exists p :: Coalesced(buf, p)
  {
    SplitWhole(buf);
    if Cut(buf) {
      var p := CutIsPacket(buf);
      assert Coalesced(buf, p);
    }
    if p :| Coalesced(buf, p) {
      CoalescedIsCut(buf, p);
    }
  }

  /** A packet whose header, token or payload is cut short comes back as it is. */
  lemma TruncatedIsOnePiece(p: LongPacket, n: nat)
    requires WellFormed(p) && 0 < n <= |Serialize(p)|
    ensures Split(Serialize(p)[..n]) == [Serialize(p)[..n]]
  {
    var whole, buf := Serialize(p), Serialize(p)[..n];
    SplitWhole(buf);
    if Cut(buf) {
      assert whole + [] == whole;
      PacketLenOfSerialized(p, []);
      var q := CutIsPacket(buf);
      CoalescedIsCut(whole, q);
      assert false;
    }
  }

  // ---------------------------------------------------------------- version 2

  const VERSION_1: nat := 1
  const VERSION_2: nat := 0x6b33_43cf

  datatype LongHeaderKind = Data(kind: Kind) | RetryKind

  /** `long_header_type` of ngtcp2/src/version.rs, which does look at the version. */
  function LongHeaderType(version: nat, first: byte): Option<LongHeaderKind> {
    var bits := LongType(first);
    if version == VERSION_1 then
      Some(if bits == 0 then Data(Initial) else if bits == 1 then Data(ZeroRtt)
           else if bits == 2 then Data(Handshake) else RetryKind)
    else if version == VERSION_2 then
      Some(if bits == 1 then Data(Initial) else if bits == 2 then Data(ZeroRtt)
           else if bits == 3 then Data(Handshake) else RetryKind)
    else None
  }

  /** The same packet with the type bits of section 3.2 of RFC 9369. */
  function SerializeV2(p: LongPacket): seq<byte>
    requires WellFormed(p)
  {
    Header(FirstByte(p.fixed, p.low, TypeBits(p.kind) + 1), p.version, p.dcid, p.scid)
    + (if p.kind == Initial then Counted(p.token, p.tokenVarint) else [])
    + Counted(p.payload, p.lengthVarint)
  }

  /** The bits written are the ones `long_header_type` reads, for either version. */
  lemma SerializedKinds(p: LongPacket)
    requires WellFormed(p)
    ensures LongHeaderType(VERSION_1, Serialize(p)[0]) == Some(Data(p.kind))
    ensures LongHeaderType(VERSION_2, SerializeV2(p)[0]) == Some(Data(p.kind))
  {
  }

  lemma PacketLenNoToken(header: seq<byte>, body: seq<byte>, rest: seq<byte>)
    requires |header| >= 5 && header[0] >= 128 && LongType(header[0]) != 3 && LongType(header[0]) != 0
    requires FromBigEndian((header + (body + rest))[1..5]) != 0
    requires HeaderEnd(header + (body + rest)) == Some(|header|)
    requires SkipCounted(header + body + rest, |header|) == Some(|header + body|)
    ensures PacketLen(header + body + rest) == Some(|header + body|)
  {
    var buf := header + body + rest;
    assert buf == header + (body + rest);
    LongPacketLen(buf, |header|, |header|, |header + body|);
  }

  /** A header of type 1 or 2 followed by a count and what it counts. */
  lemma PacketLenOfCounted(fixed: bool, low: nat, longType: nat, version: seq<byte>, dcid: seq<byte>, scid: seq<byte>,
                           bytes: seq<byte>, k: nat, rest: seq<byte>)
    requires low < 16 && 0 < longType < 3
    requires |version| == 4 && FromBigEndian(version) != 0 && |dcid| < 256 && |scid| < 256
    requires IsLength(k) && |bytes| < Limit(k)
    ensures var header := Header(FirstByte(fixed, low, longType), version, dcid, scid);
            PacketLen(header + Counted(bytes, k) + rest) == Some(|header + Counted(bytes, k)|)
  {
    var first := FirstByte(fixed, low, longType);
    var header := Header(first, version, dcid, scid);
    HeaderEndOfHeader(first, version, dcid, scid, Counted(bytes, k) + rest);
    SkipCountedOfCounted(header, bytes, k, rest);
    PacketLenNoToken(header, Counted(bytes, k), rest);
  }

  lemma V2InitialLayout(p: LongPacket, rest: seq<byte>)
    requires WellFormed(p) && p.kind == Initial
    ensures var front := Header(FirstByte(p.fixed, p.low, 1), p.version, p.dcid, p.scid) + Counted(p.token, p.tokenVarint);
            var payload := Counted(p.payload, p.lengthVarint);
            SerializeV2(p) + rest == front + (payload + rest) && |front| == |SerializeV2(p)| - |payload|
  {
    var front := Header(FirstByte(p.fixed, p.low, 1), p.version, p.dcid, p.scid) + Counted(p.token, p.tokenVarint);
    Regroup(front, Counted(p.payload, p.lengthVarint), rest);
  }

  lemma PacketLenOfV2Initial(p: LongPacket, rest: seq<byte>)
    requires WellFormed(p) && p.kind == Initial
    ensures PacketLen(SerializeV2(p) + rest) == Some(|SerializeV2(p)| - |Counted(p.payload, p.lengthVarint)|)
  {
    PacketLenOfCounted(p.fixed, p.low, 1, p.version, p.dcid, p.scid, p.token, p.tokenVarint,
                       Counted(p.payload, p.lengthVarint) + rest);
    V2InitialLayout(p, rest);
  }

  lemma PacketLenOfV2ZeroRtt(p: LongPacket, rest: seq<byte>)
    requires WellFormed(p) && p.kind == ZeroRtt
    ensures PacketLen(SerializeV2(p) + rest) == Some(|SerializeV2(p)|)
  {
    var header := Header(FirstByte(p.fixed, p.low, 2), p.version, p.dcid, p.scid);
    PacketLenOfCounted(p.fixed, p.low, 2, p.version, p.dcid, p.scid, p.payload, p.lengthVarint, rest);
    assert header + [] == header;
  }

  lemma PacketLenOfType3(buf: seq<byte>)
    requires |buf| >= 5 && buf[0] >= 128 && LongType(buf[0]) == 3
    requires FromBigEndian(buf[1..5]) != 0 && HeaderEnd(buf).Some?
    ensures PacketLen(buf) == Some(|buf|)
  {
  }

  lemma PacketLenOfV2Handshake(p: LongPacket, rest: seq<byte>)
    requires WellFormed(p) && p.kind == Handshake
    ensures PacketLen(SerializeV2(p) + rest) == Some(|SerializeV2(p) + rest|)
  {
    var first := FirstByte(p.fixed, p.low, 3);
    var header := Header(first, p.version, p.dcid, p.scid);
    var after := Counted(p.payload, p.lengthVarint) + rest;
    assert SerializeV2(p) + rest == header + after;
    HeaderEndOfHeader(first, p.version, p.dcid, p.scid, after);
    PacketLenOfType3(header + after);
  }

  /**
    `packet_len` finds the end of a version 2 packet exactly when it is a 0-RTT packet, or a
    Handshake packet with nothing after it; a version 2 Initial is always cut before its Length.
   */
  lemma PacketLenOfV2(p: LongPacket, rest: seq<byte>)
    requires WellFormed(p)
    ensures PacketLen(SerializeV2(p) + rest) == Some(|SerializeV2(p)|)
            <==> p.kind == ZeroRtt || (p.kind == Handshake && rest == [])
  {
    match p.kind
    case Initial => PacketLenOfV2Initial(p, rest);
    case ZeroRtt => PacketLenOfV2ZeroRtt(p, rest);
    case Handshake => PacketLenOfV2Handshake(p, rest);
  }

  // ---------------------------------------------------------------- whole version 2 datagrams

  function SerializeAllV2(ps: seq<LongPacket>): seq<byte>
    requires forall i :: 0 <= i < |ps| ==> WellFormed(ps[i])
  {
    if ps == [] then [] else SerializeV2(ps[0]) + SerializeAllV2(ps[1..])
  }

  function PiecesV2(ps: seq<LongPacket>): (r: seq<seq<byte>>)
    requires forall i :: 0 <= i < |ps| ==> WellFormed(ps[i])
    ensures |r| == |ps|
  {
    if ps == [] then [] else [SerializeV2(ps[0])] + PiecesV2(ps[1..])
  }

  /** A version 2 Retry has the type bits 0, those of a version 1 Initial. */
  function SerializeLastV2(l: LastPacket): (s: seq<byte>)
    requires WellFormedLast(l)
    ensures s == [] <==> l.NoLast?
  {
    match l
    case Retry(fixed, low, version, dcid, scid, body) => Header(FirstByte(fixed, low, 0), version, dcid, scid) + body
    case _ => SerializeLast(l)
  }

  function LastPiecesV2(l: LastPacket): seq<seq<byte>>
    requires WellFormedLast(l)
  {
    if l.NoLast? then [] else [SerializeLastV2(l)]
  }

  lemma SkipCountedAfter(before: seq<byte>, body: seq<byte>, pos: nat)
    ensures SkipCounted(before + body, |before| + pos)
            == if SkipCounted(body, pos).None? then None else Some(|before| + SkipCounted(body, pos).value)
  {
    if pos <= |body| {
      assert (before + body)[|before| + pos..] == body[pos..];
    }
  }

  /** Where the payload of a body that follows the header of an Initial would end. */
  function CountedEnd(buf: seq<byte>, pos: nat): Option<nat> {
    if SkipCounted(buf, pos).None? then None else SkipCounted(buf, SkipCounted(buf, pos).value)
  }

  /** The body of a Retry starts with what reads as a token and a payload, and goes on after them. */
  predicate LooksCounted(body: seq<byte>) {
    CountedEnd(body, 0).Some? && CountedEnd(body, 0).value < |body|
  }

  lemma CountedEndAfter(before: seq<byte>, body: seq<byte>)
    ensures CountedEnd(before + body, |before|)
            == if CountedEnd(body, 0).None? then None else Some(|before| + CountedEnd(body, 0).value)
  {
    SkipCountedAfter(before, body, 0);
    if SkipCounted(body, 0).Some? {
      SkipCountedAfter(before, body, SkipCounted(body, 0).value);
    }
  }

  lemma PacketLenOfType0(buf: seq<byte>, pos: nat)
    requires |buf| >= 5 && buf[0] >= 128 && LongType(buf[0]) == 0
    requires FromBigEndian(buf[1..5]) != 0 && HeaderEnd(buf) == Some(pos)
    ensures PacketLen(buf) == if CountedEnd(buf, pos).None? || CountedEnd(buf, pos).value > |buf| then None else CountedEnd(buf, pos)
  {
  }

  /** A version 2 Retry is cut exactly if its body can be read as an Initial's with bytes left over. */
  lemma PacketLenOfV2Retry(l: LastPacket)
    requires WellFormedLast(l) && l.Retry?
    ensures Cut(SerializeLastV2(l)) <==> LooksCounted(l.body)
  {
    var first := FirstByte(l.fixed, l.low, 0);
    var header := Header(first, l.version, l.dcid, l.scid);
    HeaderEndOfHeader(first, l.version, l.dcid, l.scid, l.body);
    PacketLenOfType0(header + l.body, |header|);
    CountedEndAfter(header, l.body);
  }

  lemma SplitLastV2(l: LastPacket)
    requires WellFormedLast(l)
    ensures Split(SerializeLastV2(l)) == LastPiecesV2(l) <==> !(l.Retry? && LooksCounted(l.body))
  {
    if l.Retry? {
      PacketLenOfV2Retry(l);
      SplitWhole(SerializeLastV2(l));
    } else {
      SplitLast(l);
    }
  }

  lemma SplitStartsV2(p: LongPacket, rest: seq<byte>, pieces: seq<seq<byte>>)
    requires WellFormed(p) && PacketLen(SerializeV2(p) + rest) != Some(|SerializeV2(p)|)
    requires PacketLen(SerializeV2(p) + rest).Some?
    ensures Split(SerializeV2(p) + rest) != [SerializeV2(p)] + pieces
  {
    var buf, len := SerializeV2(p) + rest, PacketLen(SerializeV2(p) + rest).value;
    assert Split(buf)[0] == buf[..len] && |buf[..len]| == len;
    assert ([SerializeV2(p)] + pieces)[0] == SerializeV2(p);
  }

  /** The first packet of a version 2 datagram comes out right exactly if `packet_len` is right about it. */
  lemma SplitFirstV2(p: LongPacket, rest: seq<byte>, pieces: seq<seq<byte>>)
    requires WellFormed(p)
    ensures Split(SerializeV2(p) + rest) == [SerializeV2(p)] + pieces
            <==> (p.kind == ZeroRtt || (p.kind == Handshake && rest == [])) && Split(rest) == pieces
  {
    PacketLenOfV2(p, rest);
    if p.kind == ZeroRtt || (p.kind == Handshake && rest == []) {
      SplitFirst(SerializeV2(p), rest);
      assert ([SerializeV2(p)] + pieces)[1..] == pieces && ([SerializeV2(p)] + Split(rest))[1..] == Split(rest);
    } else {
      if p.kind == Initial {
        PacketLenOfV2Initial(p, rest);
      } else {
        PacketLenOfV2Handshake(p, rest);
      }
      SplitStartsV2(p, rest, pieces);
    }
  }

  /** Every packet is 0-RTT, or Handshake with nothing after it, and a Retry at the end is not cut. */
  ghost predicate Splittable(ps: seq<LongPacket>, l: LastPacket) {
    && (forall i :: 0 <= i < |ps| ==> ps[i].kind == ZeroRtt || (ps[i].kind == Handshake && i == |ps| - 1 && l.NoLast?))
    && !(l.Retry? && LooksCounted(l.body))
  }

  lemma SplittableFirst(ps: seq<LongPacket>, l: LastPacket)
    requires ps != []
    ensures Splittable(ps, l)
            <==> (ps[0].kind == ZeroRtt || (ps[0].kind == Handshake && |ps| == 1 && l.NoLast?)) && Splittable(ps[1..], l)
  {
    if Splittable(ps[1..], l) {
      assert forall i :: 0 < i < |ps| ==> ps[i] == ps[1..][i - 1];
    }
  }

  lemma SerializeAllV2Empty(ps: seq<LongPacket>)
    requires forall i :: 0 <= i < |ps| ==> WellFormed(ps[i])
    ensures SerializeAllV2(ps) == [] <==> ps == []
  {
  }

  /**
    `split_packets` on version 2 datagrams: coalesced packets come back exactly if and only if all
    are 0-RTT, except that a Handshake packet may be the very last, and a Retry at the end does not
    read as a shorter Initial.
   */
  lemma {:induction false} SplitOfV2(ps: seq<LongPacket>, l: LastPacket)
    requires forall i :: 0 <= i < |ps| ==> WellFormed(ps[i])
    requires WellFormedLast(l)
    ensures Split(SerializeAllV2(ps) + SerializeLastV2(l)) == PiecesV2(ps) + LastPiecesV2(l) <==> Splittable(ps, l)
  {
    var last, lastPieces := SerializeLastV2(l), LastPiecesV2(l);
    if ps == [] {
      SplitLastV2(l);
      assert [] + last == last && [] + lastPieces == lastPieces;
    } else {
      var p, more := SerializeV2(ps[0]), SerializeAllV2(ps[1..]);
      Regroup(p, more, last);
      Regroup([p], PiecesV2(ps[1..]), lastPieces);
      SplitFirstV2(ps[0], more + last, PiecesV2(ps[1..]) + lastPieces);
      SplitOfV2(ps[1..], l);
      SplittableFirst(ps, l);
      SerializeAllV2Empty(ps[1..]);
    }
  }

  /** A version 2 Initial with an empty token and two bytes of payload, the first packet of a client. */
  const V2_INITIAL: LongPacket := LongPacket(
    Initial, true, 0, [0x6b, 0x33, 0x43, 0xcf], [1, 2, 3, 4, 5, 6, 7, 8], [], [], 1, 1, [10, 11])

  lemma V2Version()
    ensures FromBigEndian([0x6b, 0x33, 0x43, 0xcf]) == VERSION_2
  {
    var v: seq<byte> := [0x6b, 0x33, 0x43, 0xcf];
    assert v[..3] == [0x6b, 0x33, 0x43] && v[..3][..2] == [0x6b, 0x33] && v[..3][..2][..1] == [0x6b];
    assert FromBigEndian([0x6b]) == 0x6b;
    assert FromBigEndian([0x6b, 0x33]) == 0x6b33;
    assert FromBigEndian([0x6b, 0x33, 0x43]) == 0x6b_3343;
  }

  const V2_FRONT: seq<byte> := [0xd0, 0x6b, 0x33, 0x43, 0xcf, 8, 1, 2, 3, 4, 5, 6, 7, 8, 0, 0]
  const V2_BACK: seq<byte> := [2, 10, 11]

  lemma V2InitialBytes()
    ensures WellFormed(V2_INITIAL)
    ensures SerializeV2(V2_INITIAL) == V2_FRONT + V2_BACK
    ensures Counted(V2_INITIAL.payload, V2_INITIAL.lengthVarint) == V2_BACK
  {
    V2Version();
    assert Counted([], 1) == [0];
    assert Counted([10, 11], 1) == [2, 10, 11];
    assert FirstByte(true, 0, 1) == 0xd0;
  }

  lemma SplitTwo(front: seq<byte>, back: seq<byte>)
    requires PacketLen(front + back) == Some(|front|) && PacketLen(back) == Some(|back|)
    ensures Split(front + back) == [front, back]
  {
    SplitFirst(front, back);
    SplitWhole(back);
  }

  lemma V2InitialLen()
    ensures PacketLen(V2_FRONT + V2_BACK) == Some(|V2_FRONT|)
  {
    V2InitialBytes();
    PacketLenOfV2Initial(V2_INITIAL, []);
    assert SerializeV2(V2_INITIAL) + [] == V2_FRONT + V2_BACK;
  }

  /** It comes back in two pieces, cut after its token. */
  lemma V2InitialIsCut()
    ensures WellFormed(V2_INITIAL) && FromBigEndian(V2_INITIAL.version) == VERSION_2
    ensures SerializeV2(V2_INITIAL) == V2_FRONT + V2_BACK
    ensures Split(SerializeV2(V2_INITIAL)) == [V2_FRONT, V2_BACK]
  {
    V2Version();
    V2InitialBytes();
    V2InitialLen();
    SplitTwo(V2_FRONT, V2_BACK);
  }
}
