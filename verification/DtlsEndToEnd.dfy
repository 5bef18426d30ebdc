/** Sender and receiver together: records cut from the peer's flights by the sender, carried by a
    network that may lose, repeat, reorder and delay them, and reassembled by the receiver. */
module DtlsEndToEnd {
  import opened Common
  import opened HandshakeWire
  import opened DtlsReceive
  import opened DtlsFlight
  import opened DtlsDelivery
  import RecordNumbers
  import ReplayWindow

  /** The messages of a flight are messages of the history; its ChangeCipherSpec goes out in epoch 0. */
  predicate FlightOf(flight: seq<Outgoing>, history: seq<Sent>) {
    forall i | 0 <= i < |flight| ::
      && flight[i].WellFormed()
      && if flight[i].isCcs then flight[i].epoch == 0
         else flight[i].seqNum < |history| && history[flight[i].seqNum] == Sent(flight[i].typ, flight[i].body, flight[i].epoch)
  }

  /** What one call of SendFlight put on the wire: from one position in the flight to another, under an
      MTU, while the counters of the sender's epoch and of the one before went from `start` to `stop`. */
  datatype Transmission = Transmission(flight: seq<Outgoing>, from: Cursor, records: seq<Record>, to: Cursor,
                                       epoch: nat, start: (nat, nat), stop: (nat, nat), mtu: nat) {
    ghost predicate Valid(history: seq<Sent>) {
      && FlightOf(flight, history) && InFlight(flight, from) && Tiles(flight, from, records, to)
      && Numbered(records, epoch, start, stop, mtu) && mtu <= RT_HEADER_LENGTH + MAX_PLAIN_LENGTH
      && stop.0 <= RecordNumbers.LIMIT && stop.1 <= RecordNumbers.LIMIT
    }
  }

  /** The sender's counters go on from one transmission to a later one, and dtls1_set_write_state keeps
      the counter of the epoch it leaves. */
  predicate GoesOn(a: Transmission, b: Transmission) {
    || (a.epoch == b.epoch && a.stop.0 <= b.start.0 && a.stop.1 <= b.start.1)
    || (a.epoch + 1 == b.epoch && a.stop.0 <= b.start.1)
    || a.epoch + 1 < b.epoch
  }

  predicate InTurn(ts: seq<Transmission>) {
    forall i, j | 0 <= i < j < |ts| :: GoesOn(ts[i], ts[j])
  }

  lemma NumbersRise(a: Transmission, b: Transmission, r: Record, r': Record, history: seq<Sent>)
    requires a.Valid(history) && b.Valid(history) && GoesOn(a, b) && r in a.records && r' in b.records && r.epoch == r'.epoch
    ensures r.num < r'.num
  {
    hide FlightOf, Tiles;
    var i :| 0 <= i < |a.records| && a.records[i] == r;
    var j :| 0 <= j < |b.records| && b.records[j] == r';
  }

  lemma ContinuesIsGenuine(flight: seq<Outgoing>, c: Cursor, r: Record, history: seq<Sent>)
    requires FlightOf(flight, history) && InFlight(flight, c) && Continues(flight, c, r)
    requires |r.payload| <= MAX_PLAIN_LENGTH
    ensures GenuineRecord(r, history)
    ensures !flight[c.written].isCcs ==>
      Fragment(r) == Some(Header(flight[c.written].typ, |flight[c.written].body|, flight[c.written].seqNum, c.offset, |r.payload| - HM_HEADER_LENGTH))
  {
    var m := flight[c.written];
    if !m.isCcs {
      var len := |r.payload| - HM_HEADER_LENGTH;
      var h := Header(m.typ, |m.body|, m.seqNum, c.offset, len);
      ParseSerialized(h, m.body[c.offset..c.offset + len], []);
      assert r.payload == SerializeHeader(h) + m.body[c.offset..c.offset + len] + [];
    }
  }

  /** Records the receiver does not find too long. */
  predicate Short(rs: seq<Record>) {
    forall r <- rs :: |r.payload| <= MAX_PLAIN_LENGTH
  }

  lemma ShortEnough(t: Transmission, history: seq<Sent>)
    requires t.Valid(history)
    ensures Short(t.records)
  {
  }

  lemma {:induction false} TransmissionIsGenuine(flight: seq<Outgoing>, c: Cursor, rs: seq<Record>, end: Cursor, history: seq<Sent>)
    requires FlightOf(flight, history) && InFlight(flight, c) && Tiles(flight, c, rs, end) && Short(rs)
    ensures forall r <- rs :: GenuineRecord(r, history)
    decreases |rs|
  {
    if rs != [] {
      ContinuesIsGenuine(flight, c, rs[0], history);
      TransmissionIsGenuine(flight, After(flight, c, rs[0]), rs[1..], end, history);
    }
  }

  predicate Carried(ts: seq<Transmission>, r: Record) {
    exists t <- ts :: r in t.records
  }

  /** The network delivers only what was sent; how often and in which order is up to it. */
  predicate OnlySent(events: seq<Event>, ts: seq<Transmission>) {
    forall e <- events :: e.Deliver? ==> Carried(ts, e.record)
  }

  lemma OnlySentIsGenuine(events: seq<Event>, ts: seq<Transmission>, history: seq<Sent>)
    requires OnlySent(events, ts) && forall t <- ts :: t.Valid(history)
    ensures AllGenuine(events, history)
  {
    forall e <- events | e.Deliver?
      ensures GenuineRecord(e.record, history)
    {
      var t :| t in ts && e.record in t.records;
      ShortEnough(t, history);
      TransmissionIsGenuine(t.flight, t.from, t.records, t.to, history);
    }
  }

  /** Delivery end to end. The receiver starts at message `base` with nothing buffered, and the
      peer's flight ends within SSL_MAX_HANDSHAKE_FLIGHT of it. Whatever was sent and resent under
      whatever packet sizes, and whatever became of it on the way, the messages handed out are the
      original ones from `base` on, whole, in order and once each; and the next one is handed out
      exactly when all its bytes have arrived. */
  lemma EndToEnd(c: Reader, events: seq<Event>, ts: seq<Transmission>, maxLen: nat, history: seq<Sent>)
    requires c.ring.WellFormed() && forall i: nat | i < FLIGHT :: c.ring.slots[i].None?
    requires c.ring.readSeq <= |history| <= c.ring.readSeq + FLIGHT
    requires forall m <- history :: |m.body| <= maxLen
    requires OnlySent(events, ts) && forall t <- ts :: t.Valid(history)
    ensures var (_, c', out) := Run(c, events, maxLen);
      && c'.ring.readSeq == c.ring.readSeq + |out| <= |history|
      && forall i | 0 <= i < |out| :: out[i] == Content(history[c.ring.readSeq + i])
    ensures OneEncrypted(history) && InPhase(c, history) && Disciplined(c, events, maxLen, history, false) ==>
      var (ok, c', _) := Run(c, events, maxLen);
      var n := c'.ring.readSeq;
      && ok
      && (n < |history| ==>
            (CurrentComplete(c'.ring) <==>
               Touched(c, events, maxLen, n) && Arrived(c, events, maxLen, n) == Range(0, |history[n].body|)))
  {
    OnlySentIsGenuine(events, ts, history);
    RunIsSafe(c, events, maxLen, history);
    if OneEncrypted(history) && InPhase(c, history) && Disciplined(c, events, maxLen, history, false) {
      HandedOutWhenComplete(c, events, maxLen, history);
    }
  }

  // ---- What a later transmission finds ----

  function Deliveries(rs: seq<Record>): (events: seq<Event>)
    ensures |events| == |rs| && forall i | 0 <= i < |rs| :: events[i] == Deliver(rs[i])
  {
    seq(|rs|, i requires 0 <= i < |rs| => Deliver(rs[i]))
  }

  /** The records of the current epoch carry numbers above everything seen, and rising. */
  ghost predicate Newer(c: Reader, rs: seq<Record>) {
    && (forall n <- c.seen :: n <= c.max)
    && (forall r <- rs :: r.epoch == c.rEpoch ==> WindowNumber(r) > c.max || (WindowNumber(r) == c.max && c.seen == {}))
    && (forall i, j | 0 <= i < j < |rs| && rs[i].epoch == rs[j].epoch :: rs[i].num < rs[j].num)
  }

  lemma WindowAfter(c: Reader, r: Record, maxLen: nat)
    requires c.ring.WellFormed() && |r.payload| <= MAX_PLAIN_LENGTH
    ensures var c' := Step(c, Deliver(r), maxLen).1;
      && c'.rEpoch == c.rEpoch && c'.ring.readSeq == c.ring.readSeq
      && c'.seen == (if Fresh(c, r) then c.seen + {WindowNumber(r)} else c.seen)
      && c'.max == (if Fresh(c, r) && WindowNumber(r) > c.max then WindowNumber(r) else c.max)
  {
  }

  lemma NewerStep(c: Reader, rs: seq<Record>, maxLen: nat)
    requires c.ring.WellFormed() && rs != [] && Newer(c, rs) && |rs[0].payload| <= MAX_PLAIN_LENGTH
    ensures rs[0].epoch == c.rEpoch ==> Fresh(c, rs[0])
    ensures Newer(Step(c, Deliver(rs[0]), maxLen).1, rs[1..])
    ensures Step(c, Deliver(rs[0]), maxLen).1.rEpoch == c.rEpoch
    ensures Step(c, Deliver(rs[0]), maxLen).1.ring.readSeq == c.ring.readSeq
  {
    hide Step;
    WindowAfter(c, rs[0], maxLen);
    var c' := Step(c, Deliver(rs[0]), maxLen).1;
    forall r <- rs[1..] | r.epoch == c.rEpoch
      ensures WindowNumber(r) > c'.max || (WindowNumber(r) == c'.max && c'.seen == {})
    {
      var j :| 0 <= j < |rs[1..]| && rs[1..][j] == r;
      assert rs[j + 1] == r;
      if rs[0].epoch == c.rEpoch {
        assert rs[0].num < rs[j + 1].num;
      }
    }
  }

  /** Every byte of a message of the current epoch that the transmission passes over arrives. */
  lemma {:induction false} TransmissionArrives(c: Reader, flight: seq<Outgoing>, from: Cursor, rs: seq<Record>, end: Cursor,
                                               i: nat, maxLen: nat, history: seq<Sent>)
    requires c.ring.WellFormed() && FlightOf(flight, history) && InFlight(flight, from) && Tiles(flight, from, rs, end)
    requires Newer(c, rs) && forall r <- rs :: |r.payload| <= MAX_PLAIN_LENGTH
    requires from.written <= i < end.written && i < |flight| && !flight[i].isCcs && flight[i].epoch == c.rEpoch
    ensures var j, start := flight[i].seqNum, if i == from.written then from.offset else 0;
      && Touched(c, Deliveries(rs), maxLen, j)
      && Range(start, |flight[i].body|) <= Arrived(c, Deliveries(rs), maxLen, j)
    decreases |rs|
  {
    if rs != [] {
      var next, j := After(flight, from, rs[0]), flight[i].seqNum;
      var events := Deliveries(rs);
      assert events[1..] == Deliveries(rs[1..]);
      var c' := Step(c, events[0], maxLen).1;
      NewerStep(c, rs, maxLen);
      ContinuesIsGenuine(flight, from, rs[0], history);
      if i == from.written {
        assert Touches(c, rs[0], j);
        assert Contributes(c, rs[0], j) == Range(from.offset, from.offset + |rs[0].payload| - HM_HEADER_LENGTH);
      }
      if next.written <= i {
        TransmissionArrives(c', flight, next, rs[1..], end, i, maxLen, history);
      }
    }
  }

  /** Without an epoch change a run of deliveries and takes needs no more discipline than a message
      to wait for. */
  lemma {:induction false} DeliveriesDisciplined(c: Reader, rs: seq<Record>, maxLen: nat, history: seq<Sent>, taken: bool)
    requires c.ring.WellFormed() && (c.rEpoch == 0 || c.ring.readSeq < |history|)
    ensures Disciplined(c, Deliveries(rs), maxLen, history, taken)
    ensures Run(c, Deliveries(rs), maxLen).1.ring.readSeq == c.ring.readSeq && Run(c, Deliveries(rs), maxLen).2 == []
    ensures Run(c, Deliveries(rs), maxLen).0 ==> Run(c, Deliveries(rs), maxLen).1.rEpoch == c.rEpoch
    decreases |rs|
  {
    if rs != [] {
      assert Deliveries(rs)[1..] == Deliveries(rs[1..]);
      DeliveriesDisciplined(Step(c, Deliver(rs[0]), maxLen).1, rs[1..], maxLen, history, false);
    }
  }

  // ---- The replay window in step with the sender ----

  /** All the receiver has recorded in this epoch are records of these transmissions. */
  ghost predicate Known(c: Reader, ts: seq<Transmission>) {
    && (forall n <- c.seen :: n <= c.max && IsNumber(n, c.rEpoch, ts))
    && (if c.seen == {} then c.max == 0 else c.max in c.seen)
  }

  ghost predicate IsNumber(n: int, epoch: nat, ts: seq<Transmission>) {
    exists r :: Carried(ts, r) && r.epoch == epoch && WindowNumber(r) == n
  }

  /** A new receiver has recorded nothing. */
  lemma KnownNothing(c: Reader, ts: seq<Transmission>)
    requires c.seen == {} && c.max == 0
    ensures Known(c, ts)
  {
  }

  lemma KnownStep(c: Reader, e: Event, maxLen: nat, ts: seq<Transmission>)
    requires c.ring.WellFormed() && Known(c, ts) && (e.Deliver? ==> Carried(ts, e.record))
    ensures Known(Step(c, e, maxLen).1, ts)
  {
    hide Carried, OpenFragments, HasUnprocessed, CurrentComplete;
    if e.Deliver? && Fresh(c, e.record) {
      assert IsNumber(WindowNumber(e.record), c.rEpoch, ts);
    }
  }

  lemma {:induction false} KnownRun(c: Reader, events: seq<Event>, maxLen: nat, ts: seq<Transmission>)
    requires c.ring.WellFormed() && Known(c, ts) && OnlySent(events, ts)
    ensures Known(Run(c, events, maxLen).1, ts)
    decreases |events|
  {
    hide Step, Known, Carried;
    if events != [] {
      KnownStep(c, events[0], maxLen, ts);
      if Step(c, events[0], maxLen).0 {
        KnownRun(Step(c, events[0], maxLen).1, events[1..], maxLen, ts);
      }
    }
  }

  /** So the records of a later transmission are new to the receiver, in whatever epoch it is. */
  lemma LaterIsNewer(c: Reader, ts: seq<Transmission>, t: Transmission, n: nat, m: nat, history: seq<Sent>)
    requires Known(c, ts) && (forall t <- ts :: t.Valid(history)) && t.Valid(history) && InTurn(ts + [t]) && n <= m <= |t.records|
    ensures Newer(c, t.records[n..m])
  {
    var rs := t.records[n..m];
    forall r <- rs | r.epoch == c.rEpoch
      ensures WindowNumber(r) > c.max || (WindowNumber(r) == c.max && c.seen == {})
    {
      if c.seen != {} {
        NumberRises(c, ts, t, r, history);
      }
    }
  }

  lemma NumberRises(c: Reader, ts: seq<Transmission>, t: Transmission, r: Record, history: seq<Sent>)
    requires Known(c, ts) && (forall t <- ts :: t.Valid(history)) && t.Valid(history) && InTurn(ts + [t])
    requires r in t.records && r.epoch == c.rEpoch && c.seen != {}
    ensures WindowNumber(r) > c.max
  {
    hide Transmission.Valid, GoesOn;
    var old_ :| Carried(ts, old_) && old_.epoch == c.rEpoch && WindowNumber(old_) == c.max;
    var t' :| t' in ts && old_ in t'.records;
    var i :| 0 <= i < |ts| && ts[i] == t';
    assert (ts + [t])[i] == t' && (ts + [t])[|ts|] == t;
    NumbersRise(t', t, old_, r, history);
  }

  // ---- Runs put together ----

  lemma {:induction false} RunConcat(c: Reader, a: seq<Event>, b: seq<Event>, maxLen: nat)
    requires c.ring.WellFormed() && Run(c, a, maxLen).0
    ensures var (_, mid, out) := Run(c, a, maxLen);
      var (ok, end, more) := Run(mid, b, maxLen);
      Run(c, a + b, maxLen) == (ok, end, out + more)
    decreases |a|
  {
    hide Step;
    if a == [] {
      assert a + b == b;
      assert [] + Run(c, b, maxLen).2 == Run(c, b, maxLen).2;
    } else {
      RunConcat(Step(c, a[0], maxLen).1, a[1..], b, maxLen);
      assert (a + b)[1..] == a[1..] + b;
      Assoc(Step(c, a[0], maxLen).2, Run(Step(c, a[0], maxLen).1, a[1..], maxLen).2,
        Run(Run(c, a, maxLen).1, b, maxLen).2);
    }
  }

  lemma Assoc(a: seq<Message>, b: seq<Message>, c: seq<Message>)
    ensures a + (b + c) == a + b + c
  {
  }

  function Takes(k: nat): (events: seq<Event>)
    ensures |events| == k && forall i | 0 <= i < k :: events[i] == Take
  {
    seq(k, _ => Take)
  }

  /** Complete messages in a row are handed out in a row. */
  lemma {:induction false} TakesAll(c: Reader, k: nat, maxLen: nat, history: seq<Sent>)
    requires Agrees(c.ring, history) && c.ring.readSeq + k <= |history|
    requires forall j | c.ring.readSeq <= j < c.ring.readSeq + k :: c.ring.At(j).Some? && c.ring.At(j).value.Complete()
    ensures var (ok, c', out) := Run(c, Takes(k), maxLen);
      ok && c'.ring.readSeq == c.ring.readSeq + k && |out| == k && c'.rEpoch == c.rEpoch && c'.hasCcs == c.hasCcs
      && c'.seen == c.seen && c'.max == c.max
    decreases k
  {
    if k > 0 {
      TakeAgrees(c.ring, history);
      var c' := Step(c, Take, maxLen).1;
      assert Takes(k)[1..] == Takes(k - 1);
      TakesAll(c', k - 1, maxLen, history);
    }
  }

  // ---- One transmission of the whole flight is enough ----

  /** Message `j` is in the flight, at or after the position `from`, whole. */
  predicate Covers(flight: seq<Outgoing>, from: Cursor, end: Cursor, j: nat, epoch: nat) {
    exists i: nat :: i < |flight| && from.written <= i < end.written && (i == from.written ==> from.offset == 0)
      && !flight[i].isCcs && flight[i].seqNum == j && flight[i].epoch == epoch
  }

  ghost predicate Sound(c: Reader, history: seq<Sent>) {
    Agrees(c.ring, history) && c.ring.readSeq <= |history| && InPhase(c, history) && Clear(c, history)
  }

  /** The part of a transmission that belongs to the receiver's epoch: `k` messages are waited for, it
      covers them, and it arrives. Then they are all handed out. */
  lemma EpochCompletes(c: Reader, flight: seq<Outgoing>, from: Cursor, rs: seq<Record>, end: Cursor, k: nat, maxLen: nat, history: seq<Sent>)
    requires Sound(c, history) && OneEncrypted(history) && forall m <- history :: |m.body| <= maxLen
    requires FlightOf(flight, history) && InFlight(flight, from) && Tiles(flight, from, rs, end) && Short(rs) && Newer(c, rs)
    requires c.ring.readSeq + k <= |history| && (c.rEpoch == 0 || k > 0)
    requires forall j | c.ring.readSeq <= j < c.ring.readSeq + k :: Covers(flight, from, end, j, c.rEpoch)
    ensures var (ok, c', out) := Run(c, Deliveries(rs) + Takes(k), maxLen);
      && ok && c'.ring.readSeq == c.ring.readSeq + k && |out| == k && c'.rEpoch == c.rEpoch && Sound(c', history)
      && c'.hasCcs == Run(c, Deliveries(rs), maxLen).1.hasCcs
  {
    hide Disciplined, Newer, OneEncrypted, InPhase, Clear, Tiles, FlightOf, GenuineRecord;
    TransmissionIsGenuine(flight, from, rs, end, history);
    DeliveriesDisciplined(c, rs, maxLen, history, false);
    OnlyDeliveries(rs, history);
    var mid := Run(c, Deliveries(rs), maxLen).1;
    RunDelivers(c, Deliveries(rs), maxLen, history, c.ring.readSeq, false);
    forall j | c.ring.readSeq <= j < c.ring.readSeq + k
      ensures mid.ring.At(j).Some? && mid.ring.At(j).value.Complete()
    {
      MessageArrives(c, flight, from, rs, end, j, maxLen, history);
    }
    TakesAll(mid, k, maxLen, history);
    RunConcat(c, Deliveries(rs), Takes(k), maxLen);
    TakesAreSound(mid, k, maxLen, history);
  }

  lemma OnlyDeliveries(rs: seq<Record>, history: seq<Sent>)
    requires forall r <- rs :: GenuineRecord(r, history)
    ensures AllGenuine(Deliveries(rs), history)
  {
    hide GenuineRecord;
  }

  lemma MessageArrives(c: Reader, flight: seq<Outgoing>, from: Cursor, rs: seq<Record>, end: Cursor, j: nat, maxLen: nat, history: seq<Sent>)
    requires Sound(c, history) && OneEncrypted(history) && forall m <- history :: |m.body| <= maxLen
    requires FlightOf(flight, history) && InFlight(flight, from) && Tiles(flight, from, rs, end) && Short(rs) && Newer(c, rs)
    requires c.ring.readSeq <= j < |history| && Covers(flight, from, end, j, c.rEpoch)
    ensures var mid := Run(c, Deliveries(rs), maxLen).1;
      mid.ring.At(j).Some? && mid.ring.At(j).value.Complete()
  {
    hide Disciplined, Newer, OneEncrypted, InPhase, Clear, Tiles, GenuineRecord;
    var i: nat :| i < |flight| && from.written <= i < end.written && (i == from.written ==> from.offset == 0)
      && !flight[i].isCcs && flight[i].seqNum == j && flight[i].epoch == c.rEpoch;
    TransmissionIsGenuine(flight, from, rs, end, history);
    OnlyDeliveries(rs, history);
    TransmissionArrives(c, flight, from, rs, end, i, maxLen, history);
    DeliveriesDisciplined(c, rs, maxLen, history, false);
    RunDelivers(c, Deliveries(rs), maxLen, history, j, false);
    var mid := Run(c, Deliveries(rs), maxLen).1;
    SlotIsMessage(mid.ring, history, j);
    assert SlotAgrees(mid.ring.slots[j % FLIGHT].value, mid.ring, history);
  }

  lemma {:induction false} TakesAreSound(c: Reader, k: nat, maxLen: nat, history: seq<Sent>)
    requires Sound(c, history) && OneEncrypted(history) && forall m <- history :: |m.body| <= maxLen
    ensures Sound(Run(c, Takes(k), maxLen).1, history)
  {
    hide GenuineRecord, OneEncrypted, InPhase, Clear;
    RunIsSafe(c, Takes(k), maxLen, history);
    TakesDisciplined(c, k, maxLen, history);
    RunDelivers(c, Takes(k), maxLen, history, 0, false);
  }

  lemma {:induction false} TakesDisciplined(c: Reader, k: nat, maxLen: nat, history: seq<Sent>)
    requires c.ring.WellFormed()
    ensures Disciplined(c, Takes(k), maxLen, history, false)
    decreases k
  {
    if k > 0 {
      assert Takes(k)[1..] == Takes(k - 1);
      TakesDisciplined(Step(c, Take, maxLen).1, k - 1, maxLen, history);
    }
  }

  // ---- Across the epoch change ----

  /** A transmission that passes over message `f` passes its beginning. */
  lemma {:induction false} PassesBeginning(flight: seq<Outgoing>, c: Cursor, rs: seq<Record>, end: Cursor, f: nat) returns (n: nat)
    requires InFlight(flight, c) && Tiles(flight, c, rs, end) && c.written <= f < end.written && (c.written == f ==> c.offset == 0)
    ensures n <= |rs| && InFlight(flight, Cursor(f, 0))
    ensures Tiles(flight, c, rs[..n], Cursor(f, 0)) && Tiles(flight, Cursor(f, 0), rs[n..], end)
    decreases |rs|
  {
    if c.written == f {
      n := 0;
      assert rs[0..] == rs;
    } else {
      var next := After(flight, c, rs[0]);
      var m := PassesBeginning(flight, next, rs[1..], end, f);
      n := m + 1;
      assert rs[..n][1..] == rs[1..][..m] && rs[n..] == rs[1..][m..];
    }
  }

  /** The ChangeCipherSpec of a flight arrives as well. */
  lemma {:induction false} ChangeReaches(c: Reader, flight: seq<Outgoing>, from: Cursor, rs: seq<Record>, end: Cursor, q: nat, maxLen: nat, history: seq<Sent>)
    requires Sound(c, history) && OneEncrypted(history) && forall m <- history :: |m.body| <= maxLen
    requires FlightOf(flight, history) && InFlight(flight, from) && Tiles(flight, from, rs, end) && Short(rs) && Newer(c, rs)
    requires c.rEpoch == 0 && (c.hasCcs || (from.written <= q < end.written && q < |flight| && flight[q].isCcs))
    ensures Run(c, Deliveries(rs), maxLen).1.hasCcs
    decreases |rs|
  {
    hide InPhase, Clear, OneEncrypted, SlotAgrees, GenuineRecord, OpenHandshake, FragmentPayload;
    if rs != [] {
      var next, events := After(flight, from, rs[0]), Deliveries(rs);
      assert events[1..] == Deliveries(rs[1..]);
      NewerStep(c, rs, maxLen);
      ContinuesIsGenuine(flight, from, rs[0], history);
      SoundStep(c, rs[0], maxLen, history);
      ChangeStays(c, rs[0], maxLen, history);
      var c' := Step(c, events[0], maxLen).1;
      ChangeReaches(c', flight, next, rs[1..], end, q, maxLen, history);
    }
  }

  lemma SoundStep(c: Reader, r: Record, maxLen: nat, history: seq<Sent>)
    requires Sound(c, history) && OneEncrypted(history) && forall m <- history :: |m.body| <= maxLen
    requires GenuineRecord(r, history) && c.rEpoch == 0
    ensures Sound(Step(c, Deliver(r), maxLen).1, history) && Step(c, Deliver(r), maxLen).0
  {
    hide GenuineRecord, OneEncrypted;
    StepDelivers(c, Deliver(r), maxLen, history, 0, false);
    StepIsSafe(c, Deliver(r), maxLen, history);
  }

  lemma ChangeStays(c: Reader, r: Record, maxLen: nat, history: seq<Sent>)
    requires c.ring.WellFormed() && GenuineRecord(r, history)
    ensures c.hasCcs ==> Step(c, Deliver(r), maxLen).1.hasCcs
    ensures c.rEpoch == 0 && Fresh(c, r) && r.typ == ChangeCipherSpecRecord ==> Step(c, Deliver(r), maxLen).1.hasCcs
  {
    hide OpenFragments;
  }

  /** A receiver with nothing buffered that waits for message `readSeq` of the unencrypted epoch. */
  ghost predicate Started(c: Reader, history: seq<Sent>) {
    && c.ring.WellFormed() && (forall i: nat | i < FLIGHT :: c.ring.slots[i].None?)
    && c.rEpoch == 0 && !c.hasCcs
    && c.ring.readSeq <= |history| <= c.ring.readSeq + FLIGHT
  }

  /** What has happened before: any disciplined run, over records of these transmissions. What the
      receiver had recorded already came from them as well. */
  ghost predicate Before(c: Reader, events: seq<Event>, ts: seq<Transmission>, t: Transmission, maxLen: nat, history: seq<Sent>)
    requires c.ring.WellFormed()
  {
    && OneEncrypted(history) && (forall m <- history :: |m.body| <= maxLen)
    && Known(c, ts) && OnlySent(events, ts) && (forall t <- ts :: t.Valid(history)) && t.Valid(history) && InTurn(ts + [t])
    && Disciplined(c, events, maxLen, history, false)
  }

  lemma BeforeMeans(c0: Reader, events: seq<Event>, ts: seq<Transmission>, t: Transmission, maxLen: nat, history: seq<Sent>)
    requires Started(c0, history) && Before(c0, events, ts, t, maxLen, history)
    ensures var (ok, c, out) := Run(c0, events, maxLen);
      ok && c0.ring.WellFormed() && Sound(c, history) && Known(c, ts) && |out| == c.ring.readSeq - c0.ring.readSeq && Short(t.records)
  {
    hide Disciplined, Transmission.Valid, GoesOn, Carried, Known, GenuineRecord;
    OnlySentIsGenuine(events, ts, history);
    RunDelivers(c0, events, maxLen, history, 0, false);
    RunIsSafe(c0, events, maxLen, history);
    KnownRun(c0, events, maxLen, ts);
    ShortEnough(t, history);
  }

  /** Whatever was lost before: one transmission of the flight that gets through completes everything
      the receiver still waits for in its epoch, and it is handed out. */
  lemma WholeFlightCompletes(c0: Reader, events: seq<Event>, ts: seq<Transmission>, t: Transmission, k: nat, maxLen: nat, history: seq<Sent>)
    requires Started(c0, history) && Before(c0, events, ts, t, maxLen, history)
    requires var c := Run(c0, events, maxLen).1;
      && c.ring.readSeq + k == |history| && (c.rEpoch == 0 || k > 0)
      && forall j | c.ring.readSeq <= j < |history| :: Covers(t.flight, t.from, t.to, j, c.rEpoch)
    ensures var (ok, c', out) := Run(c0, events + (Deliveries(t.records) + Takes(k)), maxLen);
      ok && c'.ring.readSeq == |history| && |out| == |history| - c0.ring.readSeq
      && forall i | 0 <= i < |out| :: out[i] == Content(history[c0.ring.readSeq + i])
  {
    hide Started, Before, Known, Newer, Covers, Sound, Tiles;
    BeforeMeans(c0, events, ts, t, maxLen, history);
    var c := Run(c0, events, maxLen).1;
    Unfold(c0, events, ts, t, maxLen, history);
    LaterIsNewer(c, ts, t, 0, |t.records|, history);
    assert t.records[0..|t.records|] == t.records;
    EpochCompletes(c, t.flight, t.from, t.records, t.to, k, maxLen, history);
    RunConcat(c0, events, Deliveries(t.records) + Takes(k), maxLen);
    AllIsSafe(c0, events + (Deliveries(t.records) + Takes(k)), ts + [t], maxLen, history);
  }

  lemma Unfold(c0: Reader, events: seq<Event>, ts: seq<Transmission>, t: Transmission, maxLen: nat, history: seq<Sent>)
    requires Started(c0, history) && Before(c0, events, ts, t, maxLen, history)
    ensures OneEncrypted(history) && (forall m <- history :: |m.body| <= maxLen)
    ensures (forall u <- ts + [t] :: u.Valid(history)) && (forall u <- ts :: u.Valid(history)) && InTurn(ts + [t]) && OnlySent(events, ts + [t])
    ensures FlightOf(t.flight, history) && InFlight(t.flight, t.from) && Tiles(t.flight, t.from, t.records, t.to)
    ensures OnlySent(Deliveries(t.records), ts + [t]) && Agrees(c0.ring, history)
    ensures forall n, m | 0 <= n <= m <= |t.records| :: OnlySent(Deliveries(t.records[n..m]), ts + [t])
  {
    hide FlightOf, Tiles, Numbered, Disciplined;
    assert (ts + [t])[|ts|] == t;
    CarriedByMore(events, ts, t);
    forall n, m | 0 <= n <= m <= |t.records|
      ensures OnlySent(Deliveries(t.records[n..m]), ts + [t])
    {
      CarriedByLast(t.records[n..m], ts, t);
    }
    assert t.records[0..|t.records|] == t.records;
  }

  lemma CarriedByMore(events: seq<Event>, ts: seq<Transmission>, t: Transmission)
    requires OnlySent(events, ts)
    ensures OnlySent(events, ts + [t])
  {
    forall e <- events | e.Deliver?
      ensures Carried(ts + [t], e.record)
    {
      var t' :| t' in ts && e.record in t'.records;
      assert t' in ts + [t];
    }
  }

  lemma CarriedByLast(rs: seq<Record>, ts: seq<Transmission>, t: Transmission)
    requires forall r <- rs :: r in t.records
    ensures OnlySent(Deliveries(rs), ts + [t])
  {
    forall e <- Deliveries(rs) | e.Deliver?
      ensures Carried(ts + [t], e.record)
    {
      assert e.record in t.records && t in ts + [t];
    }
  }

  lemma AllIsSafe(c0: Reader, events: seq<Event>, ts: seq<Transmission>, maxLen: nat, history: seq<Sent>)
    requires c0.ring.readSeq <= |history| && Agrees(c0.ring, history) && forall m <- history :: |m.body| <= maxLen
    requires OnlySent(events, ts) && forall t <- ts :: t.Valid(history)
    ensures var (_, _, out) := Run(c0, events, maxLen);
      c0.ring.readSeq + |out| <= |history| && forall i | 0 <= i < |out| :: out[i] == Content(history[c0.ring.readSeq + i])
  {
    hide GenuineRecord, Transmission.Valid;
    OnlySentIsGenuine(events, ts, history);
    RunIsSafe(c0, events, maxLen, history);
  }

  /** What a handshake does while the flight that ends in the encrypted message arrives: the messages
      before it, the ChangeCipherSpec, the new keys, and the encrypted message. */
  function Exchange(rs: seq<Record>, n: nat, k: nat): seq<Event>
    requires n <= |rs|
  {
    Deliveries(rs[..n]) + Takes(k) + ([TakeChangeCipherSpec, ChangeReadState] + (Deliveries(rs[n..]) + Takes(1)))
  }

  /** The same across the epoch change: a flight with the ChangeCipherSpec and the encrypted Finished at
      its end, sent once as a whole and received, completes the peer's side of the handshake. */
  lemma WholeFlightCompletesHandshake(c0: Reader, events: seq<Event>, ts: seq<Transmission>, t: Transmission, q: nat, f: nat,
                                      maxLen: nat, history: seq<Sent>) returns (n: nat, k: nat)
    requires Started(c0, history) && Before(c0, events, ts, t, maxLen, history)
    requires t.from.written <= q < f < |t.flight| && t.flight[q].isCcs && f < t.to.written
    requires history != [] && history[|history| - 1].epoch == 1
    requires !t.flight[f].isCcs && t.flight[f].seqNum == |history| - 1
    requires var c := Run(c0, events, maxLen).1;
      c.rEpoch == 0 && c.ring.readSeq < |history| && forall j | c.ring.readSeq <= j < |history| - 1 :: Covers(t.flight, t.from, Cursor(f, 0), j, 0)
    ensures n <= |t.records|
    ensures var (ok, c', out) := Run(c0, events + Exchange(t.records, n, k), maxLen);
      ok && c'.rEpoch == 1 && c'.ring.readSeq == |history| && |out| == |history| - c0.ring.readSeq
      && forall i | 0 <= i < |out| :: out[i] == Content(history[c0.ring.readSeq + i])
    ensures Run(c0, events + (Deliveries(t.records[..n]) + Takes(k)), maxLen).1.hasCcs
  {
    hide Started, Before, Known, Newer, Covers, Sound, Tiles, FlightOf, OneEncrypted;
    BeforeMeans(c0, events, ts, t, maxLen, history);
    var c := Run(c0, events, maxLen).1;
    Unfold(c0, events, ts, t, maxLen, history);
    n, k := ExchangeCompletes(c, ts, t, q, f, maxLen, history);
    RunConcat(c0, events, Exchange(t.records, n, k), maxLen);
    RunConcat(c0, events, Deliveries(t.records[..n]) + Takes(k), maxLen);
    ExchangeIsSent(events, ts, t, n, k);
    AllIsSafe(c0, events + Exchange(t.records, n, k), ts + [t], maxLen, history);
  }

  lemma ExchangeCompletes(c: Reader, ts: seq<Transmission>, t: Transmission, q: nat, f: nat, maxLen: nat, history: seq<Sent>)
    returns (n: nat, k: nat)
    requires Sound(c, history) && Known(c, ts) && OneEncrypted(history) && Short(t.records) && forall m <- history :: |m.body| <= maxLen
    requires (forall u <- ts :: u.Valid(history)) && t.Valid(history) && InTurn(ts + [t])
    requires t.from.written <= q < f < |t.flight| && t.flight[q].isCcs && f < t.to.written
    requires history != [] && history[|history| - 1].epoch == 1 && !t.flight[f].isCcs && t.flight[f].seqNum == |history| - 1
    requires c.rEpoch == 0 && c.ring.readSeq < |history|
    requires forall j | c.ring.readSeq <= j < |history| - 1 :: Covers(t.flight, t.from, Cursor(f, 0), j, 0)
    ensures n <= |t.records|
    ensures var (ok, c', out) := Run(c, Exchange(t.records, n, k), maxLen);
      ok && c'.rEpoch == 1 && c'.ring.readSeq == |history| && |out| == |history| - c.ring.readSeq
    ensures var (ok, mid, _) := Run(c, Deliveries(t.records[..n]) + Takes(k), maxLen); ok && mid.hasCcs
  {
    hide Known, Newer, Covers, Sound, Tiles, FlightOf, OneEncrypted, Numbered;
    n := PassesBeginning(t.flight, t.from, t.records, t.to, f);
    k := |history| - 1 - c.ring.readSeq;
    SoundMeans(c, history);
    ShortParts(t.records, n);
    assert t.records[0..n] == t.records[..n];
    LaterIsNewer(c, ts, t, 0, n, history);
    EpochCompletes(c, t.flight, t.from, t.records[..n], Cursor(f, 0), k, maxLen, history);
    ChangeReaches(c, t.flight, t.from, t.records[..n], Cursor(f, 0), q, maxLen, history);
    var mid := Run(c, Deliveries(t.records[..n]) + Takes(k), maxLen).1;
    SecondHalf(mid, t, n, f, maxLen, history);
    RunConcat(c, Deliveries(t.records[..n]) + Takes(k),
      [TakeChangeCipherSpec, ChangeReadState] + (Deliveries(t.records[n..]) + Takes(1)), maxLen);
  }

  lemma SoundMeans(c: Reader, history: seq<Sent>)
    requires Sound(c, history)
    ensures c.ring.WellFormed() && c.ring.readSeq <= |history|
  {
  }

  /** From the ChangeCipherSpec on. */
  lemma SecondHalf(mid: Reader, t: Transmission, n: nat, f: nat, maxLen: nat, history: seq<Sent>)
    requires Sound(mid, history) && OneEncrypted(history) && forall m <- history :: |m.body| <= maxLen
    requires mid.rEpoch == 0 && mid.ring.readSeq + 1 == |history| && history[mid.ring.readSeq].epoch == 1
    requires t.Valid(history) && n <= |t.records| && Short(t.records[n..])
    requires f < |t.flight| && f < t.to.written && !t.flight[f].isCcs && t.flight[f].seqNum == |history| - 1
    requires InFlight(t.flight, Cursor(f, 0)) && Tiles(t.flight, Cursor(f, 0), t.records[n..], t.to)
    ensures var (ok, c', out) := Run(mid, [TakeChangeCipherSpec, ChangeReadState] + (Deliveries(t.records[n..]) + Takes(1)), maxLen);
      ok && c'.rEpoch == 1 && c'.ring.readSeq == |history| && |out| == 1
  {
    hide Known, Newer, Covers, Sound, Tiles, FlightOf, OneEncrypted, Numbered;
    var changed := ChangesEpoch(mid, maxLen, history);
    KnownNothing(changed, []);
    assert [] + [t] == [t] && t.records[n..|t.records|] == t.records[n..];
    LaterIsNewer(changed, [], t, n, |t.records|, history);
    LastIsCovered(t, f, history);
    SoundMeans(mid, history);
    EpochCompletes(changed, t.flight, Cursor(f, 0), t.records[n..], t.to, 1, maxLen, history);
    RunConcat(mid, [TakeChangeCipherSpec, ChangeReadState], Deliveries(t.records[n..]) + Takes(1), maxLen);
  }

  lemma ExchangeIsSent(events: seq<Event>, ts: seq<Transmission>, t: Transmission, n: nat, k: nat)
    requires OnlySent(events, ts + [t]) && n <= |t.records|
    requires forall n, m | 0 <= n <= m <= |t.records| :: OnlySent(Deliveries(t.records[n..m]), ts + [t])
    ensures OnlySent(events + Exchange(t.records, n, k), ts + [t])
  {
    hide Carried;
    assert t.records[0..n] == t.records[..n] && t.records[n..|t.records|] == t.records[n..];
  }

  lemma ShortParts(rs: seq<Record>, n: nat)
    requires Short(rs) && n <= |rs|
    ensures Short(rs[..n]) && Short(rs[n..])
  {
  }

  /** Only the encrypted message is missing, and the handshake changes epoch for it. */
  lemma ChangesEpoch(c: Reader, maxLen: nat, history: seq<Sent>) returns (c': Reader)
    requires Sound(c, history) && OneEncrypted(history) && c.rEpoch == 0 && c.ring.readSeq < |history| && history[c.ring.readSeq].epoch == 1
    ensures Run(c, [TakeChangeCipherSpec, ChangeReadState], maxLen) == (true, c', [])
    ensures Sound(c', history) && c'.rEpoch == 1 && c'.seen == {} && c'.max == 0 && c'.ring == c.ring
  {
    var taken := Step(c, TakeChangeCipherSpec, maxLen).1;
    NothingUnprocessed(taken, history);
    c' := NextEpoch(taken);
    var both: seq<Event>, last: seq<Event> := [TakeChangeCipherSpec, ChangeReadState], [ChangeReadState];
    assert both[1..] == last && last[1..] == [];
    assert Step(taken, ChangeReadState, maxLen) == (true, c', []) && Run(c', [], maxLen) == (true, c', []);
    assert Run(taken, last, maxLen) == (true, c', [] + []);
    assert Step(c, both[0], maxLen) == (true, taken, []);
    assert Run(taken, last, maxLen).2 == [];
    assert Run(c, both, maxLen) == (true, c', [] + Run(taken, last, maxLen).2);
    assert Run(c, both, maxLen).2 == [];
  }

  lemma LastIsCovered(t: Transmission, f: nat, history: seq<Sent>)
    requires t.Valid(history) && f < |t.flight| && f < t.to.written && !t.flight[f].isCcs && t.flight[f].seqNum == |history| - 1
    requires history != [] && history[|history| - 1].epoch == 1
    ensures Covers(t.flight, Cursor(f, 0), t.to, |history| - 1, 1)
  {
    assert t.flight[f].seqNum < |history| && history[t.flight[f].seqNum].epoch == t.flight[f].epoch;
  }
}
