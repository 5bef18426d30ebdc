/** What the DTLS receiver does, stated on values: record filtering, reassembly in a ring of
    SSL_MAX_HANDSHAKE_FLIGHT slots, and delivery of whole messages in order. DtlsReader implements
    these functions over arrays; the lemmas here are about every run of them. */
module DtlsReceive {
  import opened Common
  import opened HandshakeWire
  import ReplayWindow

  /** SSL_MAX_HANDSHAKE_FLIGHT. */
  const FLIGHT := 7

  const MAX_PLAIN_LENGTH := 16384

  datatype ContentType = ChangeCipherSpecRecord | AlertRecord | HandshakeRecord | ApplicationDataRecord | OtherRecord

  /** A record after decryption. `num` is the 48-bit sequence number. */
  datatype Record = Record(typ: ContentType, epoch: nat, num: nat, payload: seq<byte>)

  datatype Alert = DecodeError | IllegalParameter | UnexpectedMessage | InternalError | RecordOverflow

  datatype Outcome = Success | Discard | Alerted | Error(alert: Alert)

  /** An incoming message under reassembly: the bytes received so far, by offset. */
  datatype Slot = Slot(typ: byte, seqNum: nat, msgLen: nat, got: map<nat, byte>) {
    ghost predicate Complete() {
      got.Keys == Range(0, msgLen)
    }
  }

  datatype Ring = Ring(readSeq: nat, slots: seq<Option<Slot>>) {
    predicate WellFormed() {
      |slots| == FLIGHT
    }

    function At(seqNum: nat): Option<Slot>
      requires WellFormed()
    {
      slots[seqNum % FLIGHT]
    }

    function With(seqNum: nat, s: Slot): (r: Ring)
      requires WellFormed()
      ensures r.WellFormed()
    {
      this.(slots := slots[seqNum % FLIGHT := Some(s)])
    }
  }

  /** `got` after copying `body` to offset `off`. */
  ghost function PutBytes(got: map<nat, byte>, off: nat, body: seq<byte>): (m: map<nat, byte>)
    ensures m.Keys == got.Keys + Range(off, off + |body|)
  {
    var ks := got.Keys + Range(off, off + |body|);
    map k | k in ks :: if off <= k < off + |body| then body[k - off] else got[k]
  }

  /** dtls1_get_incoming_message: the slot a fragment belongs to, created on first use. */
  ghost function IncomingMessage(ring: Ring, h: Header): (Outcome, Slot)
    requires ring.WellFormed()
  {
    var blank := Slot(h.typ, h.seqNum, h.msgLen, map[]);
    if h.seqNum < ring.readSeq || h.seqNum - ring.readSeq >= FLIGHT then (Error(InternalError), blank)
    else match ring.At(h.seqNum)
      case None => (Success, blank)
      case Some(s) =>
        if s.typ != h.typ || s.msgLen != h.msgLen then (Error(IllegalParameter), s) else (Success, s)
  }

  /** One turn of the loop in dtls1_open_handshake. */
  ghost function AcceptFragment(ring: Ring, h: Header, body: seq<byte>, maxLen: nat, epoch: nat): (r: (Outcome, Ring))
    requires ring.WellFormed()
    ensures r.1.WellFormed() && r.1.readSeq == ring.readSeq
  {
    if h.fragOff > h.msgLen || h.fragOff + h.fragLen > h.msgLen || h.msgLen > maxLen then
      (Error(IllegalParameter), ring)
    else if epoch == 1 && h.seqNum != ring.readSeq then
      (Error(UnexpectedMessage), ring)
    else if h.seqNum < ring.readSeq || h.seqNum > ring.readSeq + FLIGHT then
      (Success, ring)
    else
      var (o, s) := IncomingMessage(ring, h);
      if o.Error? then (o, ring)
      else if s.Complete() then (Success, ring.With(h.seqNum, s))
      else (Success, ring.With(h.seqNum, s.(got := PutBytes(s.got, h.fragOff, body))))
  }

  ghost function OpenFragments(ring: Ring, b: seq<byte>, maxLen: nat, epoch: nat): (r: (Outcome, Ring))
    requires ring.WellFormed()
    ensures r.1.WellFormed() && r.1.readSeq == ring.readSeq
    decreases |b|
  {
    if b == [] then (Success, ring)
    else match ParseFragment(b)
      case None => (Error(DecodeError), ring)
      case Some(p) =>
        var (o, next) := AcceptFragment(ring, p.header, p.body, maxLen, epoch);
        if o.Error? then (o, next) else OpenFragments(next, p.rest, maxLen, epoch)
  }

  // ---- The connection's read side ----

  datatype Reader = Reader(ring: Ring, hasMessage: bool, rEpoch: nat, hasCcs: bool, ghost seen: set<int>, max: nat)

  /** The number the replay window sees: epoch and sequence number as one 64-bit value. */
  function WindowNumber(r: Record): nat {
    r.epoch * 0x1_0000_0000_0000 + r.num
  }

  ghost predicate Fresh(c: Reader, r: Record) {
    r.epoch == c.rEpoch && !(WindowNumber(r) in c.seen || WindowNumber(r) + ReplayWindow.WINDOW <= c.max)
  }

  ghost function RecordNumber(c: Reader, r: Record): Reader {
    var n := WindowNumber(r);
    c.(seen := c.seen + {n}, max := if n > c.max then n else c.max)
  }

  /** dtls1_open_handshake, on a record whose number has been recorded. */
  ghost function OpenRecorded(c: Reader, r: Record, maxLen: nat): (res: (Outcome, Reader))
    requires c.ring.WellFormed()
    ensures res.1.ring.WellFormed() && res.1.ring.readSeq == c.ring.readSeq
  {
    match r.typ
    case AlertRecord => (Alerted, c)
    case ApplicationDataRecord => (if c.rEpoch == 0 then Error(UnexpectedMessage) else Discard, c)
    case ChangeCipherSpecRecord =>
      if c.rEpoch != 0 then (Error(UnexpectedMessage), c)
      else if r.payload != [1] then (Error(IllegalParameter), c)
      else (Success, c.(hasCcs := true))
    case OtherRecord => (Error(UnexpectedMessage), c)
    case HandshakeRecord =>
      var (o, ring) := OpenFragments(c.ring, r.payload, maxLen, c.rEpoch);
      (o, c.(ring := ring))
  }

  /** dtls_open_record followed by dtls1_open_handshake. The null cipher is in use exactly in
      epoch 0. */
  ghost function OpenHandshake(c: Reader, r: Record, maxLen: nat): (res: (Outcome, Reader))
    requires c.ring.WellFormed()
    ensures res.1.ring.WellFormed() && res.1.ring.readSeq == c.ring.readSeq
  {
    if !Fresh(c, r) then (Discard, c)
    else if |r.payload| > MAX_PLAIN_LENGTH then (Error(RecordOverflow), c)
    else OpenRecorded(RecordNumber(c, r), r, maxLen)
  }

  ghost predicate CurrentComplete(ring: Ring)
    requires ring.WellFormed()
  {
    ring.At(ring.readSeq).Some? && ring.At(ring.readSeq).value.Complete()
  }

  /** A handshake message as the caller of dtls1_get_message sees it. */
  datatype Message = Message(typ: byte, body: seq<byte>)

  ghost function CurrentMessage(ring: Ring): Message
    requires ring.WellFormed() && CurrentComplete(ring)
  {
    var s := ring.At(ring.readSeq).value;
    Message(s.typ, seq(s.msgLen, k requires 0 <= k < s.msgLen => s.got[k]))
  }

  /** dtls1_next_message. */
  function NextMessage(ring: Ring): (r: Ring)
    requires ring.WellFormed()
    ensures r.WellFormed()
  {
    Ring(ring.readSeq + 1, ring.slots[ring.readSeq % FLIGHT := None])
  }

  /** dtls_has_unprocessed_handshake_data. */
  predicate HasUnprocessed(c: Reader)
    requires c.ring.WellFormed()
  {
    c.hasCcs ||
    exists i: nat :: i < FLIGHT && !(c.hasMessage && i == c.ring.readSeq % FLIGHT) && c.ring.slots[i].Some?
  }

  /** dtls1_set_read_state, on success. */
  function NextEpoch(c: Reader): Reader {
    c.(rEpoch := c.rEpoch + 1, seen := {}, max := 0)
  }
}
