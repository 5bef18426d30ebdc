/** DTLS handshake fragments on the wire (section 4.2.2 of RFC 6347): the twelve-byte header
    written by seal_next_message and read back by dtls1_parse_fragment. */
module HandshakeWire {
  import opened Common

  const HM_HEADER_LENGTH := 12

  datatype Header = Header(typ: byte, msgLen: nat, seqNum: nat, fragOff: nat, fragLen: nat)

  datatype Parsed = Parsed(header: Header, body: seq<byte>, rest: seq<byte>)

  predicate Fits(h: Header) {
    && h.msgLen < 0x100_0000 && h.seqNum < 0x1_0000
    && h.fragOff < 0x100_0000 && h.fragLen < 0x100_0000
  }

  function U16(n: nat): seq<byte>
    requires n < 0x1_0000
  {
    [n / 0x100, n % 0x100]
  }

  function U24(n: nat): seq<byte>
    requires n < 0x100_0000
  {
    [n / 0x1_0000, n / 0x100 % 0x100, n % 0x100]
  }

  function Read16(b: seq<byte>, at: nat): nat
    requires at + 2 <= |b|
  {
    b[at] as int * 0x100 + b[at + 1] as int
  }

  function Read24(b: seq<byte>, at: nat): nat
    requires at + 3 <= |b|
  {
    b[at] as int * 0x1_0000 + b[at + 1] as int * 0x100 + b[at + 2] as int
  }

  function SerializeHeader(h: Header): (b: seq<byte>)
    requires Fits(h)
    ensures |b| == HM_HEADER_LENGTH
  {
    [h.typ] + U24(h.msgLen) + U16(h.seqNum) + U24(h.fragOff) + U24(h.fragLen)
  }

  /** dtls1_parse_fragment: fails when the header or the body it announces is cut short. */
  function ParseFragment(b: seq<byte>): (p: Option<Parsed>)
    ensures p.Some? ==> |p.value.rest| < |b| && |p.value.body| == p.value.header.fragLen
  {
    if |b| < HM_HEADER_LENGTH then None
    else
      var h := Header(b[0], Read24(b, 1), Read16(b, 4), Read24(b, 6), Read24(b, 9));
      if |b| - HM_HEADER_LENGTH < h.fragLen then None
      else Some(Parsed(h, b[HM_HEADER_LENGTH..HM_HEADER_LENGTH + h.fragLen], b[HM_HEADER_LENGTH + h.fragLen..]))
  }

  /** What was written is read back, whatever follows it in the record. */
  lemma ParseSerialized(h: Header, body: seq<byte>, rest: seq<byte>)
    requires Fits(h) && |body| == h.fragLen
    ensures ParseFragment(SerializeHeader(h) + body + rest) == Some(Parsed(h, body, rest))
  {
    hide SerializeHeader, Read16, Read24;
    var hdr := SerializeHeader(h);
    var b := hdr + body + rest;
    HeaderReads(h);
    SameReads(hdr, body + rest);
    assert b == hdr + (body + rest);
    assert b[HM_HEADER_LENGTH..HM_HEADER_LENGTH + h.fragLen] == body;
    assert b[HM_HEADER_LENGTH + h.fragLen..] == rest;
  }

  lemma HeaderReads(h: Header)
    requires Fits(h)
    ensures var hdr := SerializeHeader(h);
      && hdr[0] == h.typ && Read24(hdr, 1) == h.msgLen && Read16(hdr, 4) == h.seqNum
      && Read24(hdr, 6) == h.fragOff && Read24(hdr, 9) == h.fragLen
  {
    var hdr := SerializeHeader(h);
    assert hdr[1..4] == U24(h.msgLen) && hdr[4..6] == U16(h.seqNum) && hdr[6..9] == U24(h.fragOff) && hdr[9..12] == U24(h.fragLen);
  }

  /** The twelve bytes of section 4.2.2 of RFC 6347: type, length, sequence number, fragment offset and
      fragment length, most significant bytes first. */
  lemma HeaderBytes(h: Header)
    requires Fits(h)
    ensures var b := SerializeHeader(h);
      && |b| == 12 && b[0] == h.typ
      && b[1] as int * 65536 + b[2] as int * 256 + b[3] as int == h.msgLen
      && b[4] as int * 256 + b[5] as int == h.seqNum
      && b[6] as int * 65536 + b[7] as int * 256 + b[8] as int == h.fragOff
      && b[9] as int * 65536 + b[10] as int * 256 + b[11] as int == h.fragLen
  {
    hide SerializeHeader;
    HeaderReads(h);
  }

  lemma SameReads(hdr: seq<byte>, tail: seq<byte>)
    requires |hdr| == HM_HEADER_LENGTH
    ensures var b := hdr + tail;
      && b[0] == hdr[0] && Read24(b, 1) == Read24(hdr, 1) && Read16(b, 4) == Read16(hdr, 4)
      && Read24(b, 6) == Read24(hdr, 6) && Read24(b, 9) == Read24(hdr, 9)
  {
  }

  lemma U16Read(b: seq<byte>, at: nat)
    requires at + 2 <= |b|
    ensures Read16(b, at) < 0x1_0000 && U16(Read16(b, at)) == b[at..at + 2]
  {
  }

  lemma U24Read(b: seq<byte>, at: nat)
    requires at + 3 <= |b|
    ensures Read24(b, at) < 0x100_0000 && U24(Read24(b, at)) == b[at..at + 3]
  {
  }

  /** And every fragment that parses is the serialization of what it parsed to. */
  lemma SerializeParsed(b: seq<byte>)
    requires ParseFragment(b).Some?
    ensures var p := ParseFragment(b).value;
      Fits(p.header) && SerializeHeader(p.header) + p.body + p.rest == b
  {
    var p := ParseFragment(b).value;
    var h := p.header;
    hide Read16, Read24, U16, U24;
    U24Read(b, 1);
    U16Read(b, 4);
    U24Read(b, 6);
    U24Read(b, 9);
    assert [b[0]] + b[1..4] + b[4..6] + b[6..9] + b[9..12] == b[..HM_HEADER_LENGTH];
    assert SerializeHeader(h) == b[..HM_HEADER_LENGTH];
  }
}
