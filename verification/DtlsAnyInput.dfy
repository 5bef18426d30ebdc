/** What the receiver guarantees whatever arrives, and not only if the peer is honest: which fragments it
    refuses, and what a message that it hands out is made of. */
module DtlsAnyInput {
  import opened Common
  import opened HandshakeWire
  import opened DtlsReceive
  import opened DtlsDelivery

  // ---- One fragment ----

  /** Exactly which fragments are refused, and with which alert; a refused fragment changes nothing. */
  lemma RefusedExactly(ring: Ring, h: Header, body: seq<byte>, maxLen: nat, epoch: nat)
    requires ring.WellFormed()
    ensures var (o, next) := AcceptFragment(ring, h, body, maxLen, epoch);
      var held := ring.slots[h.seqNum % 7];
      && (o == Success || o.Error?) && (o.Error? ==> next == ring)
      && (o.Error? && o.alert == UnexpectedMessage <==>
            h.fragOff + h.fragLen <= h.msgLen <= maxLen && epoch == 1 && h.seqNum != ring.readSeq)
      && (o.Error? && o.alert == InternalError <==>
            h.fragOff + h.fragLen <= h.msgLen <= maxLen && epoch != 1 && h.seqNum == ring.readSeq + 7)
      && (o.Error? && o.alert == IllegalParameter <==>
            || h.fragOff + h.fragLen > h.msgLen || h.msgLen > maxLen
            || (&& (if epoch == 1 then h.seqNum == ring.readSeq else ring.readSeq <= h.seqNum < ring.readSeq + 7)
                && held.Some? && (held.value.typ != h.typ || held.value.msgLen != h.msgLen)))
      && (o.Error? ==> o.alert in {UnexpectedMessage, InternalError, IllegalParameter})
  {
  }

  /** What a fragment does that is not refused: nothing outside the seven messages to come or to a complete
      message, and otherwise exactly its bytes at exactly their offsets in exactly its message. */
  lemma TakenExactly(ring: Ring, h: Header, body: seq<byte>, maxLen: nat, epoch: nat)
    requires ring.WellFormed() && |body| == h.fragLen && AcceptFragment(ring, h, body, maxLen, epoch).0 == Success
    ensures var next := AcceptFragment(ring, h, body, maxLen, epoch).1;
      if !(ring.readSeq <= h.seqNum < ring.readSeq + 7) then next == ring
      else
        var was := if ring.At(h.seqNum).Some? then ring.At(h.seqNum).value else Slot(h.typ, h.seqNum, h.msgLen, map[]);
        && next.readSeq == ring.readSeq
        && (forall i | 0 <= i < 7 && i != h.seqNum % 7 :: next.slots[i] == ring.slots[i])
        && next.At(h.seqNum).Some? && var s := next.At(h.seqNum).value;
        && s.(got := was.got) == was
        && (was.Complete() ==> s.got == was.got)
        && (!was.Complete() ==>
              && s.got.Keys == was.got.Keys + Range(h.fragOff, h.fragOff + |body|)
              && forall k <- s.got ::
                   s.got[k] == if h.fragOff <= k < h.fragOff + |body| then body[k - h.fragOff] else was.got[k])
  {
  }

  // ---- Whole runs ----

  /** A fragment in a record of this epoch. */
  datatype Piece = Piece(epoch: nat, header: Header, body: seq<byte>)

  ghost function PiecesOf(epoch: nat, payload: seq<byte>): set<Piece>
    decreases |payload|
  {
    if payload == [] then {}
    else match ParseFragment(payload)
      case None => {}
      case Some(p) => {Piece(epoch, p.header, p.body)} + PiecesOf(epoch, p.rest)
  }

  /** The fragments in the handshake records that were not turned away during the run. */
  ghost function Heard(c: Reader, events: seq<Event>, maxLen: nat): set<Piece>
    requires c.ring.WellFormed()
    decreases |events|
  {
    if events == [] then {}
    else
      var (ok, next, _) := Step(c, events[0], maxLen);
      HeardNow(c, events[0], maxLen) + if ok then Heard(next, events[1..], maxLen) else {}
  }

  ghost function HeardNow(c: Reader, e: Event, maxLen: nat): set<Piece>
    requires c.ring.WellFormed()
  {
    if e.Deliver? && e.record.typ.HandshakeRecord? && OpenHandshake(c, e.record, maxLen).0 != Discard
    then PiecesOf(e.record.epoch, e.record.payload)
    else {}
  }

  /** The fragment is one of message `n` of this type and length, sent in this epoch, and lies within it. */
  predicate Names(p: Piece, epoch: nat, n: nat, typ: byte, len: nat) {
    && p.epoch == epoch && p.header.seqNum == n && p.header.typ == typ && p.header.msgLen == len
    && p.header.fragOff + |p.body| <= len
  }

  predicate Supplies(p: Piece, k: nat, b: byte) {
    p.header.fragOff <= k < p.header.fragOff + |p.body| && p.body[k - p.header.fragOff] == b
  }

  /** The message is pieced together from fragments of one epoch that all name it, its type and its length, and
      each of its bytes is where such a fragment has it. */
  ghost predicate MadeOf(m: Message, n: nat, epoch: nat, heard: set<Piece>, maxLen: nat) {
    && |m.body| <= maxLen
    && (exists p <- heard :: Names(p, epoch, n, m.typ, |m.body|))
    && forall k: nat | k < |m.body| ::
         exists p <- heard :: Names(p, epoch, n, m.typ, |m.body|) && Supplies(p, k, m.body[k])
  }

  ghost predicate FromOneEpoch(m: Message, n: nat, heard: set<Piece>, maxLen: nat) {
    exists epoch: nat :: MadeOf(m, n, epoch, heard, maxLen)
  }

  ghost predicate Backed(s: Slot, epoch: nat, heard: set<Piece>, maxLen: nat) {
    && s.msgLen <= maxLen && s.got.Keys <= Range(0, s.msgLen)
    && (exists p <- heard :: Names(p, epoch, s.seqNum, s.typ, s.msgLen))
    && forall k <- s.got :: exists p <- heard :: Names(p, epoch, s.seqNum, s.typ, s.msgLen) && Supplies(p, k, s.got[k])
  }

  ghost predicate AllBacked(ring: Ring, epoch: nat, heard: set<Piece>, maxLen: nat) {
    && ring.WellFormed()
    && forall i: nat | i < FLIGHT && ring.slots[i].Some? ::
         && ring.slots[i].value.seqNum % FLIGHT == i
         && ring.readSeq <= ring.slots[i].value.seqNum < ring.readSeq + FLIGHT
         && Backed(ring.slots[i].value, epoch, heard, maxLen)
  }

  lemma MoreHeard(ring: Ring, epoch: nat, heard: set<Piece>, more: set<Piece>, maxLen: nat)
    requires AllBacked(ring, epoch, heard, maxLen) && heard <= more
    ensures AllBacked(ring, epoch, more, maxLen)
  {
    forall i: nat | i < FLIGHT && ring.slots[i].Some?
      ensures Backed(ring.slots[i].value, epoch, more, maxLen)
    {
      assert Backed(ring.slots[i].value, epoch, heard, maxLen);
    }
  }

  lemma PutBacked(s: Slot, h: Header, body: seq<byte>, epoch: nat, heard: set<Piece>, maxLen: nat)
    requires Piece(epoch, h, body) in heard && Names(Piece(epoch, h, body), epoch, s.seqNum, s.typ, s.msgLen)
    requires s.msgLen <= maxLen && (s.got == map[] || Backed(s, epoch, heard, maxLen))
    ensures Backed(s, epoch, heard, maxLen) && Backed(s.(got := PutBytes(s.got, h.fragOff, body)), epoch, heard, maxLen)
  {
    var p := Piece(epoch, h, body);
    var got := PutBytes(s.got, h.fragOff, body);
    forall k | k in got
      ensures exists q <- heard :: Names(q, epoch, s.seqNum, s.typ, s.msgLen) && Supplies(q, k, got[k])
    {
      if h.fragOff <= k < h.fragOff + |body| {
        assert Supplies(p, k, got[k]);
      }
    }
  }

  lemma AcceptBacked(ring: Ring, h: Header, body: seq<byte>, maxLen: nat, epoch: nat, heard: set<Piece>)
    requires AllBacked(ring, epoch, heard, maxLen) && |body| == h.fragLen && Piece(epoch, h, body) in heard
    ensures AllBacked(AcceptFragment(ring, h, body, maxLen, epoch).1, epoch, heard, maxLen)
  {
    hide Backed, PutBytes;
    var (o, next) := AcceptFragment(ring, h, body, maxLen, epoch);
    if next != ring {
      var s := IncomingMessage(ring, h).1;
      var i := h.seqNum % FLIGHT;
      if ring.slots[i].Some? {
        assert ring.slots[i].value.seqNum % FLIGHT == i;
      }
      PutBacked(s, h, body, epoch, heard, maxLen);
    }
  }

  lemma {:induction false} OpenBacked(ring: Ring, b: seq<byte>, maxLen: nat, epoch: nat, heard: set<Piece>)
    requires AllBacked(ring, epoch, heard, maxLen) && PiecesOf(epoch, b) <= heard
    ensures AllBacked(OpenFragments(ring, b, maxLen, epoch).1, epoch, heard, maxLen)
    decreases |b|
  {
    hide AllBacked, AcceptFragment;
    if b != [] && ParseFragment(b).Some? {
      var p := ParseFragment(b).value;
      Well(ring, epoch, heard, maxLen);
      assert Piece(epoch, p.header, p.body) in PiecesOf(epoch, b);
      AcceptBacked(ring, p.header, p.body, maxLen, epoch, heard);
      var (o, next) := AcceptFragment(ring, p.header, p.body, maxLen, epoch);
      if !o.Error? {
        OpenBacked(next, p.rest, maxLen, epoch, heard);
      }
    }
  }

  lemma Well(ring: Ring, epoch: nat, heard: set<Piece>, maxLen: nat)
    requires AllBacked(ring, epoch, heard, maxLen)
    ensures ring.WellFormed()
  {
  }

  /** The reader before and after each event. */
  ghost predicate Sound(c: Reader, heard: set<Piece>, maxLen: nat) {
    AllBacked(c.ring, c.rEpoch, heard, maxLen) && !c.hasMessage
  }

  lemma {:induction false} NeverDropped(ring: Ring, b: seq<byte>, maxLen: nat, epoch: nat)
    requires ring.WellFormed()
    ensures OpenFragments(ring, b, maxLen, epoch).0 != Discard
    decreases |b|
  {
    hide AcceptFragment;
    if b != [] && ParseFragment(b).Some? {
      var p := ParseFragment(b).value;
      RefusedExactly(ring, p.header, p.body, maxLen, epoch);
      NeverDropped(AcceptFragment(ring, p.header, p.body, maxLen, epoch).1, p.rest, maxLen, epoch);
    }
  }

  lemma StepSound(c: Reader, e: Event, heard: set<Piece>, maxLen: nat)
    requires Sound(c, heard, maxLen)
    ensures var (_, next, out) := Step(c, e, maxLen);
      var now := heard + HeardNow(c, e, maxLen);
      && Sound(next, now, maxLen)
      && next.ring.readSeq == c.ring.readSeq + |out|
      && forall i | 0 <= i < |out| :: MadeOf(out[i], c.ring.readSeq + i, c.rEpoch, now, maxLen)
  {
    hide OpenFragments, Backed, MadeOf, PiecesOf;
    var now := heard + HeardNow(c, e, maxLen);
    MoreHeard(c.ring, c.rEpoch, heard, now, maxLen);
    match e
    case Deliver(r) =>
      NeverDropped(c.ring, r.payload, maxLen, c.rEpoch);
      if r.typ.HandshakeRecord? && r.epoch == c.rEpoch && PiecesOf(r.epoch, r.payload) <= now {
        OpenBacked(c.ring, r.payload, maxLen, r.epoch, now);
      }
    case Take =>
      if CurrentComplete(c.ring) {
        TakenBacked(c.ring, c.rEpoch, now, maxLen);
      }
    case ChangeReadState =>
      if !HasUnprocessed(c) {
        assert forall i: nat | i < FLIGHT :: c.ring.slots[i].None?;
      }
    case _ =>
  }

  lemma TakenBacked(ring: Ring, epoch: nat, heard: set<Piece>, maxLen: nat)
    requires AllBacked(ring, epoch, heard, maxLen) && CurrentComplete(ring)
    ensures MadeOf(CurrentMessage(ring), ring.readSeq, epoch, heard, maxLen)
    ensures AllBacked(NextMessage(ring), epoch, heard, maxLen)
  {
    hide Names, Supplies;
    var i := ring.readSeq % FLIGHT;
    var s := ring.slots[i].value;
    assert s.seqNum % FLIGHT == i && s.seqNum == ring.readSeq;
    assert Backed(s, epoch, heard, maxLen);
    var m := CurrentMessage(ring);
    forall k: nat | k < |m.body|
      ensures exists p <- heard :: Names(p, epoch, ring.readSeq, m.typ, |m.body|) && Supplies(p, k, m.body[k])
    {
      assert k in Range(0, s.msgLen) && k in s.got;
    }
    var next := NextMessage(ring);
    forall j: nat | j < FLIGHT && next.slots[j].Some?
      ensures next.readSeq <= next.slots[j].value.seqNum < next.readSeq + FLIGHT
    {
      assert next.slots[j] == ring.slots[j] && ring.slots[j].value.seqNum % FLIGHT == j;
    }
  }

  ghost predicate AllMadeOf(out: seq<Message>, first: nat, heard: set<Piece>, maxLen: nat) {
    forall i | 0 <= i < |out| :: FromOneEpoch(out[i], first + i, heard, maxLen)
  }

  lemma MadeOfMore(out: seq<Message>, first: nat, heard: set<Piece>, more: set<Piece>, maxLen: nat)
    requires AllMadeOf(out, first, heard, maxLen) && heard <= more
    ensures AllMadeOf(out, first, more, maxLen)
  {
    hide Names, Supplies;
    forall i | 0 <= i < |out|
      ensures FromOneEpoch(out[i], first + i, more, maxLen)
    {
      var epoch: nat :| MadeOf(out[i], first + i, epoch, heard, maxLen);
      assert MadeOf(out[i], first + i, epoch, more, maxLen);
    }
  }

  lemma {:induction false} RunSound(c: Reader, events: seq<Event>, heard: set<Piece>, maxLen: nat)
    requires Sound(c, heard, maxLen)
    ensures var (_, end, out) := Run(c, events, maxLen);
      && end.ring.readSeq == c.ring.readSeq + |out|
      && AllMadeOf(out, c.ring.readSeq, heard + Heard(c, events, maxLen), maxLen)
    decreases |events|
  {
    hide Step, AllBacked, MadeOf, HeardNow;
    Well(c.ring, c.rEpoch, heard, maxLen);
    if events != [] {
      StepSound(c, events[0], heard, maxLen);
      var (ok, next, out) := Step(c, events[0], maxLen);
      var now := heard + HeardNow(c, events[0], maxLen);
      var all := heard + Heard(c, events, maxLen);
      assert AllMadeOf(out, c.ring.readSeq, now, maxLen);
      MadeOfMore(out, c.ring.readSeq, now, all, maxLen);
      if ok {
        RunSound(next, events[1..], now, maxLen);
        assert now + Heard(next, events[1..], maxLen) == all;
      }
    }
  }

  /** Over any run on any input, the messages handed out are numbered from zero without a gap, none is longer
      than allowed, and each is pieced together from fragments that were not turned away, that name its number,
      its type and its length, and that were all sent in one epoch: nothing that came before a change of keys
      is ever joined to what came after. */
  lemma AnyInput(events: seq<Event>, maxLen: nat)
    ensures var c := Reader(Ring(0, seq(FLIGHT, _ => None)), false, 0, false, {}, 0);
      var (_, end, out) := Run(c, events, maxLen);
      && end.ring.readSeq == |out|
      && forall i | 0 <= i < |out| :: FromOneEpoch(out[i], i, Heard(c, events, maxLen), maxLen)
  {
    hide MadeOf, Run, Heard;
    var c := Reader(Ring(0, seq(FLIGHT, _ => None)), false, 0, false, {}, 0);
    RunSound(c, events, {}, maxLen);
    assert {} + Heard(c, events, maxLen) == Heard(c, events, maxLen);
  }

  // ---- Records ----

  /** Exactly which records of the epoch are refused among those that are not dropped as replays: those that are
      too long, those of a type or content that has no place in the epoch, and those with a fragment that is. */
  lemma RecordRefusedExactly(c: Reader, r: Record, maxLen: nat)
    requires c.ring.WellFormed() && r.epoch == c.rEpoch
    requires WindowNumber(r) !in c.seen && c.max < WindowNumber(r) + 64
    ensures OpenHandshake(c, r, maxLen).0.Error? <==>
      || |r.payload| > 16384
      || r.typ == OtherRecord
      || (r.typ == ApplicationDataRecord && r.epoch == 0)
      || (r.typ == ChangeCipherSpecRecord && !(r.epoch == 0 && r.payload == [1]))
      || (r.typ == HandshakeRecord && OpenFragments(c.ring, r.payload, maxLen, r.epoch).0.Error?)
  {
    hide OpenFragments;
  }

  /** The receiver waits for new keys only after a ChangeCipherSpec of epoch 0. */
  lemma {:induction false} ChangeWasSent(c: Reader, events: seq<Event>, maxLen: nat)
    requires c.ring.WellFormed() && Run(c, events, maxLen).1.hasCcs && !c.hasCcs
    ensures exists e <- events :: e.Deliver? && e.record.typ == ChangeCipherSpecRecord && e.record.epoch == 0 && e.record.payload == [1]
    decreases |events|
  {
    hide OpenFragments, HasUnprocessed, CurrentComplete, CurrentMessage, NextMessage;
    var (ok, next, _) := Step(c, events[0], maxLen);
    if next.hasCcs {
      assert events[0] in events;
    } else {
      ChangeWasSent(next, events[1..], maxLen);
    }
  }
}
