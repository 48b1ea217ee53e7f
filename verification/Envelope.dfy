/** Network envelopes: one message on the wire. */
module Envelope {
  import opened Wrappers
  import opened Bytes
  import opened Types

  const MAGIC: bytes := [0x43, 0x42, 0x4E, 0x31]
  const NET_PROTOCOL_VERSION := 1
  const PAYLOAD_HASH_SIZE := 32
  const MAX_NETWORK_ID_LENGTH := 64
  const MAX_PAYLOAD_BYTES := 2_000_000
  /** magic, version, id length, the 25-byte network id, type, flags, payload length, payload hash */
  const ENVELOPE_HEADER_SIZE := 70
  const MAX_MESSAGE_SIZE := ENVELOPE_HEADER_SIZE + MAX_PAYLOAD_BYTES
  const HELLO := 0x01
  const HELLO_ACK := 0x02
  const REJECT := 0x0D

  datatype NetworkEnvelope = NetworkEnvelope(messageType: byte, flags: byte, payload: bytes)

  datatype EnvelopeError =
    | TooShort | TooLarge | BadMagic | BadVersion | BadIdLength | TooShortForId | WrongNetwork
    | UnknownType | ReservedFlags | OversizedPayload | SizeMismatch | HashMismatch

  /** The message types are the numbers from HELLO to REJECT. */
  predicate KnownType(t: byte) {
    HELLO <= t <= REJECT
  }

  /** flags & 0xFC: bits 2 to 7 are reserved. */
  predicate HasReservedFlags(flags: byte) {
    flags >= 4
  }

  function Serialize(e: NetworkEnvelope, sha: Digest32): Result<bytes, EnvelopeError> {
    if !KnownType(e.messageType) then Err(UnknownType)
    else if HasReservedFlags(e.flags) then Err(ReservedFlags)
    else if |e.payload| > MAX_PAYLOAD_BYTES then Err(OversizedPayload)
    else Ok(Frame(e, sha))
  }

  function Frame(e: NetworkEnvelope, sha: Digest32): bytes {
    FrameHead(e) + sha(e.payload) + e.payload
  }

  function FrameHead(e: NetworkEnvelope): (h: bytes)
    ensures |h| == 38
  {
    MAGIC + BE(NET_PROTOCOL_VERSION, 2) + [|NETWORK_ID|] + NETWORK_ID + [e.messageType, e.flags] + BE(|e.payload|, 4)
  }

  function Parse(data: bytes, sha: Digest32): Result<NetworkEnvelope, EnvelopeError> {
    if |data| < ENVELOPE_HEADER_SIZE then Err(TooShort)
    else if |data| > MAX_MESSAGE_SIZE then Err(TooLarge)
    else if data[..4] != MAGIC then Err(BadMagic)
    else if FromBE(data[4..6]) != NET_PROTOCOL_VERSION then Err(BadVersion)
    else
      var n := data[6];
      var overhead := HeaderOverhead(n);
      if n == 0 || n > MAX_NETWORK_ID_LENGTH then Err(BadIdLength)
      else if |data| < overhead then Err(TooShortForId)
      else if data[7..7 + n] != NETWORK_ID then Err(WrongNetwork)
      else if !KnownType(data[7 + n]) then Err(UnknownType)
      else if HasReservedFlags(data[8 + n]) then Err(ReservedFlags)
      else
        var length := FromBE(data[9 + n..13 + n]);
        if length > MAX_PAYLOAD_BYTES then Err(OversizedPayload)
        else if |data| != overhead + length then Err(SizeMismatch)
        else if data[13 + n..overhead] != sha(data[overhead..]) then Err(HashMismatch)
        else Ok(NetworkEnvelope(data[7 + n], data[8 + n], data[overhead..]))
  }

  function HeaderOverhead(idLength: nat): nat {
    4 + 2 + 1 + idLength + 1 + 1 + 4 + PAYLOAD_HASH_SIZE
  }

  // ---------- parsing is the inverse of serializing ----------

  /** The fields of a frame, byte for byte. */
  lemma {:induction false} FrameFields(e: NetworkEnvelope, sha: Digest32)
    requires |e.payload| <= MAX_PAYLOAD_BYTES
    ensures var d := Frame(e, sha);
            && |d| == ENVELOPE_HEADER_SIZE + |e.payload|
            && d[..4] == MAGIC && FromBE(d[4..6]) == NET_PROTOCOL_VERSION && d[6] == 25
            && d[7..32] == NETWORK_ID && d[32] == e.messageType && d[33] == e.flags
            && FromBE(d[34..38]) == |e.payload|
            && d[38..70] == sha(e.payload) && d[70..] == e.payload
  {
    var d, h := Frame(e, sha), FrameHead(e);
    assert d == h + (sha(e.payload) + e.payload);
    assert d[..4] == h[..4] && d[4..6] == h[4..6] && d[7..32] == h[7..32] && d[34..38] == h[34..38];
    HeadFields(e);
  }

  lemma {:induction false} HeadFields(e: NetworkEnvelope)
    requires |e.payload| <= MAX_PAYLOAD_BYTES
    ensures var h := FrameHead(e);
            && h[..4] == MAGIC && FromBE(h[4..6]) == NET_PROTOCOL_VERSION && h[6] == 25
            && h[7..32] == NETWORK_ID && h[32] == e.messageType && h[33] == e.flags
            && FromBE(h[34..38]) == |e.payload|
  {
    assert Pow256(4) == 256 * 256 * Pow256(2) && Pow256(2) == 65536;
    var version, length := BE(NET_PROTOCOL_VERSION, 2), BE(|e.payload|, 4);
    BigEndianRoundTrip(NET_PROTOCOL_VERSION, 2);
    BigEndianRoundTrip(|e.payload|, 4);
    HeadSlices(version, [|NETWORK_ID|], NETWORK_ID, [e.messageType, e.flags], length);
  }

  lemma {:induction false} HeadSlices(version: bytes, idLength: bytes, id: bytes, kind: bytes, length: bytes)
    requires |version| == 2 && |idLength| == 1 && |id| == 25 && |kind| == 2 && |length| == 4
    ensures var h := MAGIC + version + idLength + id + kind + length;
            && h[..4] == MAGIC && h[4..6] == version && h[6] == idLength[0] && h[7..32] == id
            && h[32] == kind[0] && h[33] == kind[1] && h[34..38] == length
  {
  }

  /** Parsing accepts exactly the frames serializing can produce, and gives the envelope back. */
  lemma {:induction false} ParseInvertsSerialize(data: bytes, e: NetworkEnvelope, sha: Digest32)
    ensures Parse(data, sha) == Ok(e) <==> Serialize(e, sha) == Ok(data)
  {
    if Serialize(e, sha) == Ok(data) {
      FrameFields(e, sha);
    }
    if Parse(data, sha) == Ok(e) {
      assert data[6] == |NETWORK_ID| == 25;
      FieldsDetermineFrame(data, e, sha);
    }
  }

  lemma {:induction false} FieldsDetermineFrame(d: bytes, e: NetworkEnvelope, sha: Digest32)
    requires |d| == ENVELOPE_HEADER_SIZE + |e.payload|
    requires d[..4] == MAGIC && FromBE(d[4..6]) == NET_PROTOCOL_VERSION && d[6] == 25
    requires d[7..32] == NETWORK_ID && d[32] == e.messageType && d[33] == e.flags && FromBE(d[34..38]) == |e.payload|
    requires d[38..70] == sha(e.payload) && d[70..] == e.payload
    ensures d == Frame(e, sha)
  {
    BigEndianReencode(d[4..6]);
    BigEndianReencode(d[34..38]);
    assert d[..38] == FrameHead(e) by {
      assert d[..38] == d[..4] + d[4..6] + [d[6]] + d[7..32] + [d[32], d[33]] + d[34..38];
    }
    assert d == d[..38] + d[38..70] + d[70..];
  }
}
