/** The DTLS sender over whole runs: every record that `WriteState` puts on the wire belongs to a
    transmission of the kind DtlsEndToEnd reasons about, whatever the order of messages added, flights
    flushed and retransmitted, and epochs changed. */
module DtlsSender {
  import opened Common
  import opened HandshakeWire
  import opened DtlsReceive
  import opened DtlsFlight
  import opened DtlsDelivery
  import opened DtlsEndToEnd
  import RecordNumbers
  import W = DtlsWriter

  predicate Holds(flight: seq<Outgoing>, j: nat) {
    exists i: nat :: i < |flight| && !flight[i].isCcs && flight[i].seqNum == j
  }

  /** The flight holds the messages from number `first` on, in order, and no epoch comes before a lower one. */
  ghost predicate InOrder(flight: seq<Outgoing>, first: nat, count: nat, epoch: nat) {
    && (forall i, j | 0 <= i < j < |flight| :: flight[i].epoch <= flight[j].epoch)
    && (forall i | 0 <= i < |flight| :: flight[i].epoch <= epoch)
    && (forall i, j | 0 <= i < j < |flight| && !flight[i].isCcs && !flight[j].isCcs :: flight[i].seqNum < flight[j].seqNum)
    && (forall i | 0 <= i < |flight| && !flight[i].isCcs :: first <= flight[i].seqNum < count)
    && first <= count && forall j: nat | first <= j < count :: Holds(flight, j)
  }

  /** All that the transmissions put on the wire. */
  function Wire(ts: seq<Transmission>): seq<Record> {
    if ts == [] then [] else Wire(ts[..|ts| - 1]) + ts[|ts| - 1].records
  }

  lemma WireGrows(ts: seq<Transmission>, t: Transmission)
    ensures Wire(ts + [t]) == Wire(ts) + t.records
  {
    assert (ts + [t])[..|ts + [t]| - 1] == ts;
  }

  /** The counters have not fallen behind the end of `t`. */
  predicate Behind(t: Transmission, epoch: nat, next: (nat, nat)) {
    || (t.epoch == epoch && t.stop.0 <= next.0 && t.stop.1 <= next.1)
    || (t.epoch + 1 == epoch && t.stop.0 <= next.1)
    || t.epoch + 1 < epoch
  }

  ghost predicate AllBehind(ts: seq<Transmission>, epoch: nat, next: (nat, nat)) {
    InTurn(ts) && forall t <- ts :: Behind(t, epoch, next)
  }

  lemma HistoryGrows(flight: seq<Outgoing>, history: seq<Sent>, more: seq<Sent>)
    requires FlightOf(flight, history)
    ensures FlightOf(flight, history + more)
  {
  }

  lemma TransmissionsStay(ts: seq<Transmission>, history: seq<Sent>, more: seq<Sent>)
    requires forall t <- ts :: t.Valid(history)
    ensures forall t <- ts :: t.Valid(history + more)
  {
    hide FlightOf, Tiles, Numbered;
    forall t <- ts
      ensures t.Valid(history + more)
    {
      HistoryGrows(t.flight, history, more);
    }
  }

  lemma OneMoreBehind(ts: seq<Transmission>, t: Transmission, next: (nat, nat))
    requires AllBehind(ts, t.epoch, t.start) && t.start.0 <= t.stop.0 <= next.0 && t.start.1 <= t.stop.1 <= next.1
    ensures AllBehind(ts + [t], t.epoch, next)
  {
    forall i, j | 0 <= i < j < |ts + [t]|
      ensures GoesOn((ts + [t])[i], (ts + [t])[j])
    {
      assert (ts + [t])[i] == ts[i] && Behind(ts[i], t.epoch, t.start);
      if j < |ts| {
        assert GoesOn(ts[i], ts[j]);
      } else {
        assert (ts + [t])[j] == t;
      }
    }
  }

  lemma MessageAdded(flight: seq<Outgoing>, first: nat, history: seq<Sent>, epoch: nat, m: Outgoing)
    requires FlightOf(flight, history) && InOrder(flight, first, |history|, epoch)
    requires m.WellFormed() && m.epoch == epoch && m.seqNum == |history| && (m.isCcs ==> epoch == 0)
    ensures var history' := if m.isCcs then history else history + [Sent(m.typ, m.body, epoch)];
      FlightOf(flight + [m], history') && InOrder(flight + [m], first, |history'|, epoch)
  {
    var more := flight + [m];
    var count := if m.isCcs then |history| else |history| + 1;
    forall j: nat | first <= j < count
      ensures Holds(more, j)
    {
      if j == |history| {
        assert more[|flight|] == m;
      } else {
        assert Holds(flight, j);
        var i: nat :| i < |flight| && !flight[i].isCcs && flight[i].seqNum == j;
        assert more[i] == flight[i];
      }
    }
  }

  lemma EpochRises(flight: seq<Outgoing>, first: nat, count: nat, ts: seq<Transmission>, epoch: nat, next: (nat, nat))
    ensures InOrder(flight, first, count, epoch) ==> InOrder(flight, first, count, epoch + 1)
    ensures AllBehind(ts, epoch, next) ==> AllBehind(ts, epoch + 1, (0, next.0))
  {
    hide Holds, InTurn;
  }

  lemma NothingInOrder(count: nat, epoch: nat)
    ensures InOrder([], count, count, epoch)
  {
  }

  class Sender {
    const w: W.WriteState
    /** All messages added so far, and where the flight in `w` starts. */
    ghost var history: seq<Sent>
    ghost var first: nat
    /** One transmission for each call that sends. */
    ghost var ts: seq<Transmission>
    /** A counter has gone back to zero. */
    ghost var overflowed: bool

    ghost predicate Valid()
      reads this, w
    {
      && w.Valid() && |history| == w.handshakeWriteSeq
      && FlightOf(w.outgoing, history) && InOrder(w.outgoing, first, |history|, w.wEpoch)
      && w.onWire == Wire(ts) && (forall t <- ts :: t.Valid(history))
      && (!overflowed ==> AllBehind(ts, w.wEpoch, w.Next()))
    }

    constructor ()
      ensures Valid() && fresh(w) && history == [] && ts == [] && !overflowed
    {
      w := new W.WriteState();
      history, first, ts, overflowed := [], 0, [], false;
      new;
      NothingInOrder(0, 0);
    }

    /** add_outgoing. The ChangeCipherSpec of a handshake ends the unencrypted epoch. */
    method Add(isCcs: bool, typ: byte, body: seq<byte>) returns (ok: bool)
      requires Valid() && |history| < 0x1_0000 && |body| < 0x100_0000 && (isCcs ==> body == [] && w.wEpoch == 0)
      requires w.outgoingComplete || w.At() == Cursor(0, 0)
      modifies this`history, this`first, w
      ensures Valid() && ts == old(ts) && overflowed == old(overflowed)
      ensures ok == (old(w.outgoingComplete) || |old(w.outgoing)| < FLIGHT)
      ensures history == old(history) + if ok && !isCcs then [Sent(typ, body, w.wEpoch)] else []
      ensures first == if old(w.outgoingComplete) then |old(history)| else old(first)
    {
      hide FlightOf, InOrder, AllBehind, Wire, Transmission.Valid, InFlight;
      ghost var base := if w.outgoingComplete then [] else w.outgoing;
      if w.outgoingComplete {
        first := |history|;
        NothingInOrder(|history|, w.wEpoch);
        NothingOf(history);
      }
      ok := w.AddOutgoing(isCcs, typ, body);
      if ok {
        MessageAdded(base, first, history, w.wEpoch, w.outgoing[|base|]);
        if !isCcs {
          TransmissionsStay(ts, history, [Sent(typ, body, w.wEpoch)]);
          history := history + [Sent(typ, body, w.wEpoch)];
        }
      }
    }

    lemma NothingOf(history: seq<Sent>)
      ensures FlightOf([], history)
    {
    }

    /** What a call that sends adds: the records it put on the wire, as one transmission. With numbers and
        room left it cannot fail, and over a willing transport it goes to the end of the flight. */
    twostate predicate Sends(from: Cursor, mtu: nat, answers: seq<bool>, flushed: bool, res: W.SendResult)
      reads this, w
    {
      && |ts| == |old(ts)| + 1 && ts[..|old(ts)|] == old(ts)
      && var t := ts[|old(ts)|];
      && t.flight == w.outgoing == old(w.outgoing) && t.from == from && w.onWire == old(w.onWire) + t.records
      && (!res.SealFailed? ==> t.to == w.At() && overflowed == old(overflowed))
      && (res.Sent? ==> t.to == Cursor(|t.flight|, 0))
      && (overflowed ==> old(overflowed) || w.writeSequence == 0 || w.lastWriteSequence == 0)
      && (old(InFlight(w.outgoing, from) && w.CanSealFrom(from, mtu) && w.HasRoom(mtu)) ==>
            !res.SealFailed? && (old(w.Willing(from, answers, flushed)) ==> res.Sent?))
    }

    /** The books are kept up. */
    ghost method Note(from: Cursor, records: seq<Record>, lost: seq<Record>, start: (nat, nat), stop: (nat, nat), mtu: nat)
      requires w.Valid() && |history| == w.handshakeWriteSeq
      requires FlightOf(w.outgoing, history) && InOrder(w.outgoing, first, |history|, w.wEpoch)
      requires InFlight(w.outgoing, from) && Tiles(w.outgoing, from, records + lost, w.At())
      requires Numbered(records, w.wEpoch, start, stop, mtu) && mtu <= RT_HEADER_LENGTH + MAX_PLAIN_LENGTH
      requires stop.0 < RecordNumbers.LIMIT && stop.1 < RecordNumbers.LIMIT
      requires w.onWire == Wire(ts) + records && forall t <- ts :: t.Valid(history)
      requires !overflowed ==> AllBehind(ts, w.wEpoch, start)
      modifies this`ts, this`overflowed
      ensures Valid() && |ts| == |old(ts)| + 1 && ts[..|old(ts)|] == old(ts)
      ensures var t := ts[|old(ts)|];
        t.flight == w.outgoing && t.from == from && t.records == records && (lost == [] ==> t.to == w.At())
      ensures overflowed == (old(overflowed) || stop.0 > w.Next().0 || stop.1 > w.Next().1)
    {
      hide FlightOf, InOrder, AllBehind, InFlight, Tiles, Numbered, Wire;
      var to := TilesSplit(w.outgoing, from, records, lost, w.At());
      if lost == [] {
        ToTheEnd(w.outgoing, to, w.At());
      }
      var t := Transmission(w.outgoing, from, records, to, w.wEpoch, start, stop, mtu);
      if stop.0 <= w.Next().0 && stop.1 <= w.Next().1 {
        if !overflowed {
          NumberedRises(t);
          OneMoreBehind(ts, t, w.Next());
        }
      } else {
        overflowed := true;
      }
      WireGrows(ts, t);
      ts := ts + [t];
    }

    lemma NumberedRises(t: Transmission)
      requires Numbered(t.records, t.epoch, t.start, t.stop, t.mtu)
      ensures t.start.0 <= t.stop.0 && t.start.1 <= t.stop.1
    {
    }

    lemma ToTheEnd(flight: seq<Outgoing>, c: Cursor, end: Cursor)
      requires InFlight(flight, c) && Tiles(flight, c, [], end)
      ensures c == end
    {
    }

    /** dtls1_flush_flight. */
    method Flush(mtu: nat, answers: seq<bool>, flushed: bool) returns (res: W.SendResult)
      requires Valid() && mtu <= RT_HEADER_LENGTH + MAX_PLAIN_LENGTH
      modifies this`ts, this`overflowed, w
      ensures Valid() && history == old(history) && first == old(first) && Sends(old(w.At()), mtu, answers, flushed, res)
    {
      hide FlightOf, InOrder, AllBehind, Wire, Transmission.Valid, InFlight, Tiles, Numbered;
      ghost var from, start := w.At(), w.Next();
      ghost var lost, stop, packets;
      res, lost, stop, packets := w.FlushFlight(mtu, answers, flushed);
      Note(from, w.onWire[|old(w.onWire)|..], lost, start, stop, mtu);
    }

    /** dtls1_retransmit_outgoing_messages. */
    method Resend(mtu: nat, answers: seq<bool>, flushed: bool) returns (res: W.SendResult)
      requires Valid() && mtu <= RT_HEADER_LENGTH + MAX_PLAIN_LENGTH
      modifies this`ts, this`overflowed, w
      ensures Valid() && history == old(history) && first == old(first) && Sends(Cursor(0, 0), mtu, answers, flushed, res)
    {
      hide FlightOf, InOrder, AllBehind, Wire, Transmission.Valid, Tiles, Numbered;
      ghost var start := w.Next();
      ghost var lost, stop, packets;
      res, lost, stop, packets := w.Retransmit(mtu, answers, flushed);
      Note(Cursor(0, 0), w.onWire[|old(w.onWire)|..], lost, start, stop, mtu);
    }

    /** dtls1_set_write_state. */
    method ChangeWriteState(cipher: W.Aead)
      requires Valid() && cipher.WellFormed()
      modifies w
      ensures Valid() && w.wEpoch == old(w.wEpoch) + 1
    {
      hide FlightOf, InOrder, AllBehind, Wire, Transmission.Valid, InFlight;
      EpochRises(w.outgoing, first, |history|, ts, w.wEpoch, w.Next());
      ghost var before := w.Counters(false, false);
      w.SetWriteState(cipher);
      assert RecordNumbers.Step(before, RecordNumbers.ChangeWriteState).1 == w.Counters(false, false);
    }
  }

  // ---- End to end ----

  /** EndToEnd, for all that any sender has put on the wire in any run. */
  lemma SenderToReader(s: Sender, c: Reader, events: seq<Event>, maxLen: nat)
    requires s.Valid() && OnlySent(events, s.ts)
    requires c.ring.WellFormed() && forall i: nat | i < FLIGHT :: c.ring.slots[i].None?
    requires c.ring.readSeq <= |s.history| <= c.ring.readSeq + FLIGHT && forall m <- s.history :: |m.body| <= maxLen
    ensures var (_, c', out) := Run(c, events, maxLen);
      && c'.ring.readSeq == c.ring.readSeq + |out| <= |s.history|
      && forall i | 0 <= i < |out| :: out[i] == Content(s.history[c.ring.readSeq + i])
    ensures OneEncrypted(s.history) && InPhase(c, s.history) && Disciplined(c, events, maxLen, s.history, false) ==>
      var (ok, c', _) := Run(c, events, maxLen);
      var n := c'.ring.readSeq;
      && ok
      && (n < |s.history| ==>
            (CurrentComplete(c'.ring) <==>
               Touched(c, events, maxLen, n) && Arrived(c, events, maxLen, n) == Range(0, |s.history[n].body|)))
  {
    hide Disciplined, Transmission.Valid;
    EndToEnd(c, events, s.ts, maxLen, s.history);
  }

  /** Transmission `i` is the sender's present flight as a whole. */
  ghost predicate Whole(s: Sender, i: nat)
    reads s, s.w
  {
    && i < |s.ts| && s.ts[i].flight == s.w.outgoing
    && s.ts[i].from == Cursor(0, 0) && s.ts[i].to == Cursor(|s.w.outgoing|, 0)
  }

  /** The reader has handed out the messages before the present flight, and all it has seen came from
      the transmissions before `i`. */
  ghost predicate Follows(s: Sender, i: nat, c0: Reader, events: seq<Event>, maxLen: nat)
    requires c0.ring.WellFormed() && i <= |s.ts|
    reads s, s.w
  {
    && Started(c0, s.history) && Known(c0, s.ts[..i]) && OnlySent(events, s.ts[..i])
    && OneEncrypted(s.history) && (forall m <- s.history :: |m.body| <= maxLen)
    && Disciplined(c0, events, maxLen, s.history, false)
    && s.first <= Run(c0, events, maxLen).1.ring.readSeq && Run(c0, events, maxLen).1.rEpoch == 0
  }

  /** Whatever became of its earlier transmissions: one whole transmission of an unencrypted flight that
      gets through is enough. */
  lemma FlightCompletes(s: Sender, i: nat, c0: Reader, events: seq<Event>, maxLen: nat) returns (k: nat)
    requires s.Valid() && !s.overflowed && Whole(s, i) && c0.ring.WellFormed() && Follows(s, i, c0, events, maxLen)
    requires forall j | Run(c0, events, maxLen).1.ring.readSeq <= j < |s.history| :: s.history[j].epoch == 0
    ensures var (ok, c', out) := Run(c0, events + (Deliveries(s.ts[i].records) + Takes(k)), maxLen);
      ok && c'.ring.readSeq == |s.history| && |out| == |s.history| - c0.ring.readSeq
      && forall j | 0 <= j < |out| :: out[j] == Content(s.history[c0.ring.readSeq + j])
  {
    hide Disciplined, Transmission.Valid, GoesOn, OneEncrypted, Known, Started;
    var t, c := s.ts[i], Run(c0, events, maxLen).1;
    EarlierAndNow(s, i, c0, events, maxLen);
    k := |s.history| - c.ring.readSeq;
    forall j | c.ring.readSeq <= j < |s.history|
      ensures Covers(t.flight, t.from, t.to, j, 0)
    {
      var at := IndexOf(s, j);
    }
    WholeFlightCompletes(c0, events, s.ts[..i], t, k, maxLen, s.history);
  }

  /** And one of the flight that ends in ChangeCipherSpec and the encrypted Finished. */
  lemma FlightCompletesHandshake(s: Sender, i: nat, q: nat, c0: Reader, events: seq<Event>, maxLen: nat) returns (n: nat, k: nat)
    requires s.Valid() && !s.overflowed && Whole(s, i) && c0.ring.WellFormed() && Follows(s, i, c0, events, maxLen)
    requires q < |s.w.outgoing| && s.w.outgoing[q].isCcs
    requires Run(c0, events, maxLen).1.ring.readSeq < |s.history| && s.history[|s.history| - 1].epoch == 1
    ensures n <= |s.ts[i].records|
    ensures var (ok, c', out) := Run(c0, events + Exchange(s.ts[i].records, n, k), maxLen);
      ok && c'.rEpoch == 1 && c'.ring.readSeq == |s.history| && |out| == |s.history| - c0.ring.readSeq
      && forall j | 0 <= j < |out| :: out[j] == Content(s.history[c0.ring.readSeq + j])
  {
    hide Disciplined, Transmission.Valid, GoesOn, Known, Started;
    var t, c := s.ts[i], Run(c0, events, maxLen).1;
    EarlierAndNow(s, i, c0, events, maxLen);
    var f := IndexOf(s, |s.history| - 1);
    forall j | c.ring.readSeq <= j < |s.history| - 1
      ensures Covers(t.flight, t.from, Cursor(f, 0), j, 0)
    {
      var at := IndexOf(s, j);
    }
    n, k := WholeFlightCompletesHandshake(c0, events, s.ts[..i], t, q, f, maxLen, s.history);
  }

  lemma EarlierAndNow(s: Sender, i: nat, c0: Reader, events: seq<Event>, maxLen: nat)
    requires s.Valid() && !s.overflowed && i < |s.ts| && c0.ring.WellFormed() && Follows(s, i, c0, events, maxLen)
    ensures Before(c0, events, s.ts[..i], s.ts[i], maxLen, s.history)
    ensures Run(c0, events, maxLen).1.ring.readSeq <= |s.history|
  {
    hide Disciplined, Transmission.Valid, GoesOn, Known, Started, OneEncrypted, OnlySent, FlightOf, InOrder;
    assert s.ts[..i] + [s.ts[i]] == s.ts[..i + 1];
    BeforeMeans(c0, events, s.ts[..i], s.ts[i], maxLen, s.history);
    SoundMeans(Run(c0, events, maxLen).1, s.history);
  }

  /** The place of a message of the present flight in it. */
  lemma IndexOf(s: Sender, j: nat) returns (i: nat)
    requires s.Valid() && s.first <= j < |s.history|
    ensures i < |s.w.outgoing| && !s.w.outgoing[i].isCcs && s.w.outgoing[i].seqNum == j
    ensures s.w.outgoing[i].epoch == s.history[j].epoch
  {
    assert Holds(s.w.outgoing, j);
    i :| i < |s.w.outgoing| && !s.w.outgoing[i].isCcs && s.w.outgoing[i].seqNum == j;
  }
}
