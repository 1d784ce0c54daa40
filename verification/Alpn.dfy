/** ALPN wire lists and the server's selection (ngtcp2/src/crypto.rs, section 3.1 of RFC 7301). */
module Alpn {
  import opened Octets

  type Protocol = seq<byte>

  /** A protocol read from a wire list, with the position of its first byte. */
  datatype Entry = Entry(offset: nat, protocol: Protocol)

  function LengthAt(wire: seq<byte>, pos: nat): (n: nat)
    requires pos < |wire|
    ensures n < 256
  {
    wire[pos]
  }

  /** The entries from `pos` on, up to the end or the first length that runs past it. */
  function Entries(wire: seq<byte>, pos: nat): seq<Entry>
    decreases |wire| - pos
  {
    if pos >= |wire| then []
    else
      var n := LengthAt(wire, pos);
      if pos + 1 + n > |wire| then []
      else [Entry(pos + 1, wire[pos + 1..pos + 1 + n])] + Entries(wire, pos + 1 + n)
  }

  /** Every entry is a range of the wire bytes. */
  lemma {:induction false} EntryInBounds(wire: seq<byte>, pos: nat, i: nat)
    requires i < |Entries(wire, pos)|
    ensures var Entry(offset, p) := Entries(wire, pos)[i];
            |p| < 256 && offset + |p| <= |wire| && wire[offset..offset + |p|] == p
    decreases i
  {
    if i > 0 {
      EntryInBounds(wire, pos + 1 + LengthAt(wire, pos), i - 1);
    }
  }

  ghost predicate Offers(es: seq<Entry>, p: Protocol) {
    exists j :: 0 <= j < |es| && es[j].protocol == p
  }

  /** `j` is the first entry of `es` that is `p`. */
  ghost predicate FirstAt(es: seq<Entry>, p: Protocol, j: nat) {
    j < |es| && es[j].protocol == p && forall k :: 0 <= k < j ==> es[k].protocol != p
  }

  /** Entry `i` of the server is its first that the client offers, first at entry `j` of the client. */
  ghost predicate Picks(server: seq<Entry>, client: seq<Entry>, i: nat, j: nat) {
    && i < |server|
    && FirstAt(client, server[i].protocol, j)
    && forall k :: 0 <= k < i ==> !Offers(client, server[k].protocol)
  }

  /** `encode_alpn`; the length byte is `len as u8`, which drops the high bits. */
  function Encode(protocols: seq<Protocol>): seq<byte> {
    if protocols == [] then [] else EncodeOne(protocols[0]) + Encode(protocols[1..])
  }

  function EncodeOne(p: Protocol): seq<byte> {
    var length: byte := |p| % 256;
    [length] + p
  }

  lemma {:induction false} EncodeOneMore(protocols: seq<Protocol>, i: nat)
    requires i < |protocols|
    ensures Encode(protocols[..i + 1]) == Encode(protocols[..i]) + EncodeOne(protocols[i])
  {
    if i > 0 {
      EncodeOneMore(protocols[1..], i - 1);
      assert protocols[..i + 1][1..] == protocols[1..][..i];
      assert protocols[..i][1..] == protocols[1..][..i - 1];
    }
  }

  method EncodeAlpn(protocols: seq<Protocol>) returns (wire: seq<byte>)
    ensures wire == Encode(protocols)
  {
    wire := [];
    for i := 0 to |protocols|
      invariant wire == Encode(protocols[..i])
    {
      EncodeOneMore(protocols, i);
      wire := wire + [|protocols[i]| % 256];
      wire := wire + protocols[i];
    }
    assert protocols[..|protocols|] == protocols;
  }

  /**
    The inner loop of `alpn_select_callback`: the client's first entry equal to the protocol.
   */
  method FindInClient(client: seq<byte>, p: Protocol) returns (found: Option<nat>, ghost j: nat)
    ensures found.Some? ==> FirstAt(Entries(client, 0), p, j) && found.value == Entries(client, 0)[j].offset
    ensures found.None? ==> !Offers(Entries(client, 0), p)
  {
    var pos := 0;
    ghost var all := Entries(client, 0);
    j := 0;
    while pos < |client|
      invariant j <= |all| && all[j..] == Entries(client, pos)
      invariant forall k :: 0 <= k < j ==> all[k].protocol != p
      decreases |client| - pos
    {
      var n := LengthAt(client, pos);
      if pos + 1 + n > |client| {
        return None, j;
      }
      NextEntry(client, all, pos, j);
      if client[pos + 1..pos + 1 + n] == p {
        return Some(pos + 1), j;
      }
      pos := pos + 1 + n;
      j := j + 1;
    }
    found := None;
  }

  /** One turn of a loop over a list. */
  lemma NextEntry(wire: seq<byte>, all: seq<Entry>, pos: nat, i: nat)
    requires pos < |wire| && pos + 1 + LengthAt(wire, pos) <= |wire| && i <= |all| && all[i..] == Entries(wire, pos)
    ensures var next := pos + 1 + LengthAt(wire, pos);
            i < |all| && all[i] == Entry(pos + 1, wire[pos + 1..next]) && all[i + 1..] == Entries(wire, next)
  {
    assert all[i] == all[i..][0] && all[i + 1..] == all[i..][1..];
  }

  /** `alpn_select_callback`: offset and length in the client list, or `None` for NOACK. */
  method SelectAlpn(server: seq<byte>, client: seq<byte>)
      returns (selected: Option<(nat, nat)>, ghost i: nat, ghost j: nat)
    ensures selected.Some? ==>
      && Picks(Entries(server, 0), Entries(client, 0), i, j)
      && selected.value == (Entries(client, 0)[j].offset, |Entries(client, 0)[j].protocol|)
    ensures selected.None? ==>
      forall k :: 0 <= k < |Entries(server, 0)| ==> !Offers(Entries(client, 0), Entries(server, 0)[k].protocol)
    // for arbitrary client bytes: in bounds, and equal to a protocol of the server
    ensures selected.Some? ==>
      var (offset, len) := selected.value;
      offset + len <= |client| && i < |Entries(server, 0)| && len < 256
      && client[offset..offset + len] == Entries(server, 0)[i].protocol
  {
    var pos := 0;
    ghost var all := Entries(server, 0);
    i, j := 0, 0;
    while pos < |server|
      invariant i <= |all| && all[i..] == Entries(server, pos)
      invariant forall k :: 0 <= k < i ==> !Offers(Entries(client, 0), all[k].protocol)
      decreases |server| - pos
    {
      var n := LengthAt(server, pos);
      if pos + 1 + n > |server| {
        return None, i, j;
      }
      var p := server[pos + 1..pos + 1 + n];
      NextEntry(server, all, pos, i);
      pos := pos + 1 + n;
      var found;
      found, j := FindInClient(client, p);
      if found.Some? {
        EntryInBounds(client, 0, j);
        return Some((found.value, n)), i, j;
      }
      i := i + 1;
    }
    selected := None;
  }

  // ---------------------------------------------------------------- encoded lists

  predicate Encodable(protocols: seq<Protocol>) {
    forall i :: 0 <= i < |protocols| ==> |protocols[i]| < 256
  }

  /** The entries a list encodes to, `base` bytes into the wire. */
  function Placed(protocols: seq<Protocol>, base: nat): seq<Entry> {
    if protocols == [] then []
    else [Entry(base + 1, protocols[0])] + Placed(protocols[1..], base + 1 + |protocols[0]|)
  }

  /** The wire bytes from `pos` on are the protocols, each after its length byte. */
  ghost predicate LaidOut(wire: seq<byte>, pos: nat, protocols: seq<Protocol>)
    decreases |protocols|
  {
    if protocols == [] then pos == |wire|
    else
      var p := protocols[0];
      pos + 1 + |p| <= |wire| && wire[pos] == |p| && wire[pos + 1..pos + 1 + |p|] == p
      && LaidOut(wire, pos + 1 + |p|, protocols[1..])
  }

  lemma {:induction false} LaidOutParses(wire: seq<byte>, pos: nat, protocols: seq<Protocol>)
    requires LaidOut(wire, pos, protocols)
    ensures Entries(wire, pos) == Placed(protocols, pos)
    decreases |protocols|
  {
    if protocols != [] {
      LaidOutParses(wire, pos + 1 + |protocols[0]|, protocols[1..]);
    }
  }

  lemma HeadOf(wire: seq<byte>, pos: nat, p: Protocol, rest: seq<byte>)
    requires |p| < 256 && pos <= |wire| && wire[pos..] == EncodeOne(p) + rest
    ensures pos + 1 + |p| <= |wire| && wire[pos] == |p|
    ensures wire[pos + 1..pos + 1 + |p|] == p && wire[pos + 1 + |p|..] == rest
  {
    var tail := wire[pos..];
    assert tail[0] == |p| && tail[1..1 + |p|] == p && tail[1 + |p|..] == rest;
    assert wire[pos] == tail[0];
    assert wire[pos + 1..pos + 1 + |p|] == tail[1..1 + |p|];
    assert wire[pos + 1 + |p|..] == tail[1 + |p|..];
  }

  lemma {:induction false} EncodeLaysOut(wire: seq<byte>, pos: nat, protocols: seq<Protocol>)
    requires Encodable(protocols) && pos <= |wire| && wire[pos..] == Encode(protocols)
    ensures LaidOut(wire, pos, protocols)
    decreases |protocols|
  {
    if protocols != [] {
      HeadOf(wire, pos, protocols[0], Encode(protocols[1..]));
      EncodeLaysOut(wire, pos + 1 + |protocols[0]|, protocols[1..]);
    }
  }

  /** Parsing encoded protocols gives them back at their places. */
  lemma EntriesOfEncode(protocols: seq<Protocol>)
    requires Encodable(protocols)
    ensures Entries(Encode(protocols), 0) == Placed(protocols, 0)
  {
    var wire := Encode(protocols);
    assert wire[0..] == wire;
    EncodeLaysOut(wire, 0, protocols);
    LaidOutParses(wire, 0, protocols);
  }

  lemma {:induction false} PlacedProtocols(protocols: seq<Protocol>, base: nat)
    ensures |Placed(protocols, base)| == |protocols|
    ensures forall k :: 0 <= k < |protocols| ==> Placed(protocols, base)[k].protocol == protocols[k]
  {
    if protocols != [] {
      PlacedProtocols(protocols[1..], base + 1 + |protocols[0]|);
    }
  }

  lemma {:induction false} PlacedOffset(protocols: seq<Protocol>, base: nat, k: nat)
    requires k < |protocols|
    ensures k < |Placed(protocols, base)|
    ensures Placed(protocols, base)[k].offset == base + |Encode(protocols[..k])| + 1
  {
    if k > 0 {
      PlacedOffset(protocols[1..], base + 1 + |protocols[0]|, k - 1);
      assert protocols[..k][1..] == protocols[1..][..k - 1];
    }
  }

  ghost predicate ParsesBack(protocols: seq<Protocol>) {
    var es := Entries(Encode(protocols), 0);
    |es| == |protocols| && forall k :: 0 <= k < |es| ==> es[k].protocol == protocols[k]
  }

  /** Parsing an encoded list gives the list back exactly when every name fits its length byte. */
  lemma RoundTrip(protocols: seq<Protocol>)
    ensures ParsesBack(protocols) <==> Encodable(protocols)
  {
    if Encodable(protocols) {
      EntriesOfEncode(protocols);
      PlacedProtocols(protocols, 0);
    } else if ParsesBack(protocols) {
      forall k | 0 <= k < |protocols| ensures |protocols[k]| < 256 {
        EntryInBounds(Encode(protocols), 0, k);
      }
    }
  }

  /**
    Selection on encoded lists: the first server protocol the client offers, at the place of its
    first occurrence in the client's wire bytes.
   */
  lemma SelectionOnEncodedLists(server: seq<Protocol>, client: seq<Protocol>, i: nat, j: nat)
    requires Encodable(server) && Encodable(client)
    requires Picks(Entries(Encode(server), 0), Entries(Encode(client), 0), i, j)
    ensures i < |server| && j < |client| && server[i] == client[j]
    ensures forall k :: 0 <= k < i ==> server[k] !in client
    ensures server[i] !in client[..j]
    ensures Entries(Encode(client), 0)[j].offset == |Encode(client[..j])| + 1
  {
    RoundTrip(server);
    RoundTrip(client);
    var es, cs := Entries(Encode(server), 0), Entries(Encode(client), 0);
    forall k | 0 <= k < i ensures server[k] !in client {
      assert !Offers(cs, es[k].protocol);
      assert forall m :: 0 <= m < |client| ==> client[m] == cs[m].protocol;
    }
    EntriesOfEncode(client);
    PlacedOffset(client, 0, j);
  }

  // ---------------------------------------------------------------- arbitrary bytes

  function Protocols(es: seq<Entry>): (ps: seq<Protocol>)
    ensures |ps| == |es| && forall i :: 0 <= i < |es| ==> ps[i] == es[i].protocol
  {
    seq(|es|, i requires 0 <= i < |es| => es[i].protocol)
  }

  /** Bytes that do not hold even one entry: none, or a length that runs past the end. */
  predicate Incomplete(wire: seq<byte>) {
    wire == [] || |wire| < 1 + LengthAt(wire, 0)
  }

  lemma EncodeFirst(e: Entry, es: seq<Entry>)
    ensures Encode(Protocols([e] + es)) == EncodeOne(e.protocol) + Encode(Protocols(es))
    ensures |e.protocol| < 256 && Encodable(Protocols(es)) ==> Encodable(Protocols([e] + es))
  {
    assert Protocols([e] + es)[1..] == Protocols(es);
  }

  lemma FirstEntry(wire: seq<byte>, pos: nat)
    requires pos < |wire| && pos + 1 + LengthAt(wire, pos) <= |wire|
    ensures var n := LengthAt(wire, pos);
            var p := wire[pos + 1..pos + 1 + n];
            && wire[pos..] == EncodeOne(p) + wire[pos + 1 + n..]
            && Entries(wire, pos) == [Entry(pos + 1, p)] + Entries(wire, pos + 1 + n)
  {
  }

  lemma NoEntry(wire: seq<byte>, pos: nat)
    requires pos <= |wire| && (pos == |wire| || pos + 1 + LengthAt(wire, pos) > |wire|)
    ensures Protocols(Entries(wire, pos)) == [] && Encode([]) + wire[pos..] == wire[pos..] && Incomplete(wire[pos..])
  {
  }

  lemma Regroup(a: seq<byte>, b: seq<byte>, c: seq<byte>)
    ensures a + b + c == a + (b + c)
  {
  }

  /** Arbitrary bytes are the encoding of the entries read from them, up to an incomplete one that is left out. */
  lemma {:induction false} EntriesExactly(wire: seq<byte>, pos: nat) returns (rest: seq<byte>)
    requires pos <= |wire|
    ensures wire[pos..] == Encode(Protocols(Entries(wire, pos))) + rest
    ensures Incomplete(rest) && Encodable(Protocols(Entries(wire, pos)))
    decreases |wire| - pos
  {
    if pos == |wire| || pos + 1 + LengthAt(wire, pos) > |wire| {
      rest := wire[pos..];
      NoEntry(wire, pos);
    } else {
      var n := LengthAt(wire, pos);
      var p, next := wire[pos + 1..pos + 1 + n], pos + 1 + n;
      rest := EntriesExactly(wire, next);
      FirstEntry(wire, pos);
      EncodeFirst(Entry(pos + 1, p), Entries(wire, next));
      Regroup(EncodeOne(p), Encode(Protocols(Entries(wire, next))), rest);
    }
  }
}
