/** Messages and their bytes on the wire (network/post.cc, machine/network.cc). */
module Mails {
  import opened Bytes

  const MAX_WIRE_SIZE := 64
  const HEADER_SIZE := 12
  const MAX_PACKET_SIZE := MAX_WIRE_SIZE - HEADER_SIZE
  const MAX_MAIL_SIZE := MAX_PACKET_SIZE - HEADER_SIZE

  /** PacketHeader and MailHeader have the same layout: two ints and an unsigned length. */
  datatype Header = Header(to: int, from: int, length: nat)

  datatype Mail = Mail(packet: Header, mail: Header, data: seq<byte>)

  function EncodeHeader(h: Header): (b: seq<byte>)
    ensures |b| == HEADER_SIZE
  {
    IntBytes(h.to) + IntBytes(h.from) + IntBytes(h.length)
  }

  function DecodeHeader(b: seq<byte>): Header
    requires |b| >= HEADER_SIZE
  {
    Header(BytesInt(b[..4]), BytesInt(b[4..8]), BytesNat(b[8..12]))
  }

  lemma HeaderRoundTrip(h: Header, rest: seq<byte>)
    requires IsInt32(h.to) && IsInt32(h.from) && h.length <= MAX_PACKET_SIZE
    ensures DecodeHeader(EncodeHeader(h) + rest) == h
  {
    var b := EncodeHeader(h) + rest;
    assert b[..4] == IntBytes(h.to) && b[4..8] == IntBytes(h.from) && b[8..12] == IntBytes(h.length);
    IntRoundTrip(h.to);
    IntRoundTrip(h.from);
    IntBytesModulo(h.length);
    assert h.length % 0x1_0000_0000 == h.length;
  }

  /** What PostOfficeOutput::Send asserts and fills in before it hands the message to the network. */
  ghost predicate Sendable(m: Mail)
  {
    && IsInt32(m.packet.to) && IsInt32(m.packet.from) && 0 <= m.mail.to && IsInt32(m.mail.to) && IsInt32(m.mail.from)
    && m.mail.length == |m.data| <= MAX_MAIL_SIZE && m.packet.length == m.mail.length + HEADER_SIZE
  }

  /** The payload of the packet: the mail header and the data. */
  function Payload(m: Mail): seq<byte>
  {
    EncodeHeader(m.mail) + m.data
  }

  /** The packet on the wire, padded to full size with whatever the buffer held. */
  function Wire(m: Mail, padding: seq<byte>): seq<byte>
  {
    EncodeHeader(m.packet) + Payload(m) + padding
  }

  /** The network device gets the packet header and the payload back from the wire. */
  lemma WireRoundTrip(m: Mail, padding: seq<byte>)
    requires Sendable(m)
    ensures |Wire(m, padding)| == HEADER_SIZE + m.packet.length + |padding|
    ensures DecodeHeader(Wire(m, padding)) == m.packet
    ensures Wire(m, padding)[HEADER_SIZE..HEADER_SIZE + m.packet.length] == Payload(m)
  {
    hide DecodeHeader;
    var b := Wire(m, padding);
    assert b == EncodeHeader(m.packet) + (Payload(m) + padding);
    HeaderRoundTrip(m.packet, Payload(m) + padding);
  }

  /** The postal worker gets the mail header and the data back from the payload. */
  lemma PayloadRoundTrip(m: Mail)
    requires Sendable(m)
    ensures |Payload(m)| == m.packet.length
    ensures DecodeHeader(Payload(m)) == m.mail
    ensures Payload(m)[HEADER_SIZE..HEADER_SIZE + m.mail.length] == m.data
  {
    HeaderRoundTrip(m.mail, m.data);
  }
}
