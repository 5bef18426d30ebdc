/** Delivery: whatever the network does to the records of a flight, the receiver hands out the
    peer's messages, whole, in order and once each. */
module DtlsDelivery {
  import opened Common
  import opened HandshakeWire
  import opened DtlsReceive

  /** A message the peer sent, at index `seqNum` of its history, with the epoch it goes out in. */
  datatype Sent = Sent(typ: byte, body: seq<byte>, epoch: nat)

  function Content(m: Sent): Message {
    Message(m.typ, m.body)
  }

  /** A fragment cut from the peer's history. */
  predicate GenuineFragment(h: Header, body: seq<byte>, history: seq<Sent>) {
    && h.seqNum < |history|
    && var m := history[h.seqNum];
    && h.typ == m.typ && h.msgLen == |m.body|
    && h.fragOff + h.fragLen <= |m.body|
    && body == m.body[h.fragOff..h.fragOff + h.fragLen]
  }

  /** A record the peer's sender may have produced: one fragment of a message of its epoch, or
      the ChangeCipherSpec of epoch 0. */
  predicate GenuineRecord(r: Record, history: seq<Sent>) {
    && |r.payload| <= MAX_PLAIN_LENGTH
    && match r.typ
       case HandshakeRecord =>
         && ParseFragment(r.payload).Some?
         && var p := ParseFragment(r.payload).value;
         && p.rest == []
         && GenuineFragment(p.header, p.body, history)
         && history[p.header.seqNum].epoch == r.epoch
       case ChangeCipherSpecRecord => r.epoch == 0 && r.payload == [1]
       case _ => false
  }

  ghost predicate SlotAgrees(s: Slot, ring: Ring, history: seq<Sent>) {
    && ring.readSeq <= s.seqNum < |history|
    && s.typ == history[s.seqNum].typ
    && s.msgLen == |history[s.seqNum].body|
    && s.got.Keys <= Range(0, s.msgLen)
    && forall k :: k in s.got ==> s.got[k] == history[s.seqNum].body[k]
  }

  /** The receiver's invariant: every slot holds true bytes of the message it is for. The peer's
      history reaches at most one flight past the message being read. */
  ghost predicate Agrees(ring: Ring, history: seq<Sent>) {
    && ring.WellFormed()
    && |history| <= ring.readSeq + FLIGHT
    && forall i: nat | i < FLIGHT && ring.slots[i].Some? ::
         ring.slots[i].value.seqNum % FLIGHT == i && SlotAgrees(ring.slots[i].value, ring, history)
  }

  ghost function Have(ring: Ring, j: nat): set<nat>
    requires ring.WellFormed()
  {
    if ring.At(j).Some? then ring.At(j).value.got.Keys else {}
  }

  lemma SlotIsMessage(ring: Ring, history: seq<Sent>, j: nat)
    requires Agrees(ring, history) && ring.readSeq <= j < ring.readSeq + FLIGHT && ring.At(j).Some?
    ensures ring.At(j).value.seqNum == j
  {
    assert ring.slots[j % FLIGHT].value.seqNum % FLIGHT == j % FLIGHT;
  }

  /** Slots of distinct messages in the window are distinct. */
  lemma WithAt(ring: Ring, n: nat, s: Slot, j: nat)
    requires ring.WellFormed()
    requires ring.readSeq <= n < ring.readSeq + FLIGHT && ring.readSeq <= j < ring.readSeq + FLIGHT
    ensures ring.With(n, s).At(j) == if j == n then Some(s) else ring.At(j)
  {
  }

  lemma WithAgrees(ring: Ring, s: Slot, history: seq<Sent>)
    requires Agrees(ring, history) && SlotAgrees(s, ring, history)
    ensures Agrees(ring.With(s.seqNum, s), history)
  {
    var next := ring.With(s.seqNum, s);
    forall i: nat | i < FLIGHT && next.slots[i].Some?
      ensures next.slots[i].value.seqNum % FLIGHT == i && SlotAgrees(next.slots[i].value, next, history)
    {
      if i != s.seqNum % FLIGHT {
        assert next.slots[i] == ring.slots[i];
      }
    }
  }

  lemma IncomingGenuine(ring: Ring, h: Header, body: seq<byte>, history: seq<Sent>)
    requires Agrees(ring, history) && GenuineFragment(h, body, history) && ring.readSeq <= h.seqNum
    ensures var (o, s) := IncomingMessage(ring, h);
      && o == Success && s.seqNum == h.seqNum && SlotAgrees(s, ring, history)
      && s.got.Keys == Have(ring, h.seqNum)
  {
    if ring.At(h.seqNum).Some? {
      SlotIsMessage(ring, history, h.seqNum);
      assert SlotAgrees(ring.slots[h.seqNum % FLIGHT].value, ring, history);
    }
  }

  /** A genuine fragment is refused only in epoch 1 and only when it is not part of the message
      being read; otherwise it adds exactly its own bytes to exactly its own message. */
  lemma AcceptGenuine(ring: Ring, h: Header, body: seq<byte>, maxLen: nat, epoch: nat, history: seq<Sent>)
    requires Agrees(ring, history) && GenuineFragment(h, body, history)
    requires |history[h.seqNum].body| <= maxLen
    ensures var (o, next) := AcceptFragment(ring, h, body, maxLen, epoch);
      if epoch == 1 && h.seqNum != ring.readSeq then o == Error(UnexpectedMessage) && next == ring
      else
        && o == Success && Agrees(next, history)
        && forall j: nat | ring.readSeq <= j < ring.readSeq + FLIGHT ::
             && Have(next, j) == Have(ring, j) + (if j == h.seqNum then Range(h.fragOff, h.fragOff + h.fragLen) else {})
             && (next.At(j).Some? <==> ring.At(j).Some? || j == h.seqNum)
  {
    if ring.readSeq <= h.seqNum && !(epoch == 1 && h.seqNum != ring.readSeq) {
      IncomingGenuine(ring, h, body, history);
      var (_, s) := IncomingMessage(ring, h);
      var s' := if s.Complete() then s else s.(got := PutBytes(s.got, h.fragOff, body));
      assert Range(h.fragOff, h.fragOff + h.fragLen) <= Range(0, s.msgLen);
      assert SlotAgrees(s', ring, history);
      WithAgrees(ring, s', history);
      forall j: nat | ring.readSeq <= j < ring.readSeq + FLIGHT
        ensures ring.With(h.seqNum, s').At(j) == if j == h.seqNum then Some(s') else ring.At(j)
      {
        WithAt(ring, h.seqNum, s', j);
      }
    }
  }

  /** A genuine record is never refused in epoch 0, and in epoch 1 only if its fragment is not of
      the current message. Fresh records count, all others change nothing. */
  lemma DeliverGenuine(c: Reader, r: Record, maxLen: nat, history: seq<Sent>)
    requires Agrees(c.ring, history) && GenuineRecord(r, history)
    requires forall m <- history :: |m.body| <= maxLen
    ensures var (o, c') := OpenHandshake(c, r, maxLen);
      && c'.rEpoch == c.rEpoch && Agrees(c'.ring, history)
      && (o.Error? <==> Fresh(c, r) && c.rEpoch == 1 && Fragment(r).Some? && Fragment(r).value.seqNum != c.ring.readSeq)
      && (!o.Error? ==> forall j: nat | c.ring.readSeq <= j < c.ring.readSeq + FLIGHT ::
            && Have(c'.ring, j) == Have(c.ring, j) + Contributes(c, r, j)
            && (c'.ring.At(j).Some? <==> c.ring.At(j).Some? || Touches(c, r, j)))
  {
    if Fresh(c, r) && r.typ.HandshakeRecord? {
      var p := ParseFragment(r.payload).value;
      AcceptGenuine(c.ring, p.header, p.body, maxLen, c.rEpoch, history);
      var (o, next) := AcceptFragment(c.ring, p.header, p.body, maxLen, c.rEpoch);
      assert OpenFragments(c.ring, r.payload, maxLen, c.rEpoch) ==
             if o.Error? then (o, next) else OpenFragments(next, p.rest, maxLen, c.rEpoch);
    }
  }

  function Fragment(r: Record): Option<Header> {
    if r.typ.HandshakeRecord? && ParseFragment(r.payload).Some? then Some(ParseFragment(r.payload).value.header)
    else None
  }

  ghost predicate Touches(c: Reader, r: Record, j: nat) {
    Fresh(c, r) && Fragment(r).Some? && Fragment(r).value.seqNum == j
  }

  /** The offsets of message `j` that a record adds when it is delivered now. */
  ghost function Contributes(c: Reader, r: Record, j: nat): set<nat> {
    if Touches(c, r, j) then
      Range(Fragment(r).value.fragOff, Fragment(r).value.fragOff + Fragment(r).value.fragLen)
    else {}
  }

  // ---- Runs ----

  /** What can happen on the read side: a record arrives, the handshake asks for its next message
      or ChangeCipherSpec, or it installs the next epoch's keys. */
  datatype Event = Deliver(record: Record) | Take | TakeChangeCipherSpec | ChangeReadState

  /** One event: whether it went without error, the new state, and the messages handed out. */
  ghost function Step(c: Reader, e: Event, maxLen: nat): (r: (bool, Reader, seq<Message>))
    requires c.ring.WellFormed()
    ensures r.1.ring.WellFormed()
  {
    match e
    case Deliver(rec) =>
      var (o, c') := OpenHandshake(c, rec, maxLen);
      (!o.Error?, c', [])
    case Take =>
      if CurrentComplete(c.ring) then
        (true, c.(ring := NextMessage(c.ring), hasMessage := false), [CurrentMessage(c.ring)])
      else (true, c, [])
    case TakeChangeCipherSpec => (true, c.(hasCcs := false), [])
    case ChangeReadState => if HasUnprocessed(c) then (false, c, []) else (true, NextEpoch(c), [])
  }

  /** A run ends at its first error. */
  ghost function Run(c: Reader, events: seq<Event>, maxLen: nat): (r: (bool, Reader, seq<Message>))
    requires c.ring.WellFormed()
    ensures r.1.ring.WellFormed()
    decreases |events|
  {
    if events == [] then (true, c, [])
    else
      var (ok, c', out) := Step(c, events[0], maxLen);
      if !ok then (false, c', out)
      else
        var (ok', c'', out') := Run(c', events[1..], maxLen);
        (ok', c'', out + out')
  }

  /** Every offset of message `j` that arrived in the run. */
  ghost function Arrived(c: Reader, events: seq<Event>, maxLen: nat, j: nat): set<nat>
    requires c.ring.WellFormed()
    decreases |events|
  {
    if events == [] then {}
    else
      (if events[0].Deliver? then Contributes(c, events[0].record, j) else {}) +
      Arrived(Step(c, events[0], maxLen).1, events[1..], maxLen, j)
  }

  ghost predicate Touched(c: Reader, events: seq<Event>, maxLen: nat, j: nat)
    requires c.ring.WellFormed()
    decreases |events|
  {
    events != [] &&
    (|| (events[0].Deliver? && Touches(c, events[0].record, j))
     || Touched(Step(c, events[0], maxLen).1, events[1..], maxLen, j))
  }

  ghost predicate AllGenuine(events: seq<Event>, history: seq<Sent>) {
    forall e <- events :: e.Deliver? ==> GenuineRecord(e.record, history)
  }

  /** In DTLS 1.0 and 1.2 only the last message, Finished, is sent in epoch 1. */
  predicate OneEncrypted(history: seq<Sent>) {
    forall i | 0 <= i < |history| :: history[i].epoch <= 1 && (history[i].epoch == 1 ==> i == |history| - 1)
  }

  ghost predicate InPhase(c: Reader, history: seq<Sent>) {
    c.rEpoch == 0 || (c.rEpoch == 1 && |history| <= c.ring.readSeq + 1)
  }

  /** The handshake's side of the bargain: it changes epoch right after it took a ChangeCipherSpec
      (`taken`), when the message it waits for is the encrypted one, and it stops reading handshake
      records after that. */
  ghost predicate Disciplined(c: Reader, events: seq<Event>, maxLen: nat, history: seq<Sent>, taken: bool)
    requires c.ring.WellFormed()
    decreases |events|
  {
    events == [] ||
    (&& (events[0].ChangeReadState? ==> taken && c.rEpoch == 0 && c.ring.readSeq < |history| && history[c.ring.readSeq].epoch == 1)
     && (events[0].Deliver? ==> c.rEpoch == 0 || c.ring.readSeq < |history|)
     && Disciplined(Step(c, events[0], maxLen).1, events[1..], maxLen, history, TakesChange(c, events[0])))
  }

  predicate TakesChange(c: Reader, e: Event) {
    e.TakeChangeCipherSpec? && c.hasCcs
  }

  /** Before the epoch changes no slot holds a message of the next epoch. */
  ghost predicate Clear(c: Reader, history: seq<Sent>)
    requires c.ring.WellFormed()
  {
    c.rEpoch == 0 ==>
      forall i: nat | i < FLIGHT && c.ring.slots[i].Some? ::
        c.ring.slots[i].value.seqNum < |history| && history[c.ring.slots[i].value.seqNum].epoch == 0
  }

  /** So when only the encrypted message is missing, nothing is left unprocessed. */
  lemma NothingUnprocessed(c: Reader, history: seq<Sent>)
    requires Agrees(c.ring, history) && Clear(c, history) && OneEncrypted(history) && !c.hasCcs
    requires c.rEpoch == 0 && c.ring.readSeq < |history| && history[c.ring.readSeq].epoch == 1
    ensures !HasUnprocessed(c)
  {
    assert c.ring.readSeq + 1 == |history|;
  }

  /** A genuine record of epoch 0 carries messages of epoch 0 only. */
  lemma DeliverClear(c: Reader, r: Record, maxLen: nat, history: seq<Sent>)
    requires Agrees(c.ring, history) && GenuineRecord(r, history) && Clear(c, history)
    requires forall m <- history :: |m.body| <= maxLen
    ensures Clear(OpenHandshake(c, r, maxLen).1, history)
  {
    if Fresh(c, r) && r.typ.HandshakeRecord? {
      var p := ParseFragment(r.payload).value;
      AcceptGenuine(c.ring, p.header, p.body, maxLen, c.rEpoch, history);
      var (o, next) := AcceptFragment(c.ring, p.header, p.body, maxLen, c.rEpoch);
      AcceptClear(c.ring, p.header, p.body, maxLen, c.rEpoch);
      assert OpenFragments(c.ring, r.payload, maxLen, c.rEpoch) ==
             if o.Error? then (o, next) else OpenFragments(next, p.rest, maxLen, c.rEpoch);
    }
  }

  lemma AcceptClear(ring: Ring, h: Header, body: seq<byte>, maxLen: nat, epoch: nat)
    requires ring.WellFormed()
    ensures var (_, next) := AcceptFragment(ring, h, body, maxLen, epoch);
      forall i: nat | i < FLIGHT && next.slots[i].Some? ::
        next.slots[i].value.seqNum == h.seqNum || (ring.slots[i].Some? && next.slots[i].value.seqNum == ring.slots[i].value.seqNum)
  {
  }

  lemma TakeAgrees(ring: Ring, history: seq<Sent>)
    requires Agrees(ring, history) && CurrentComplete(ring)
    ensures ring.readSeq < |history| && CurrentMessage(ring) == Content(history[ring.readSeq])
    ensures Agrees(NextMessage(ring), history)
    ensures forall j: nat | ring.readSeq < j < ring.readSeq + FLIGHT :: NextMessage(ring).At(j) == ring.At(j)
    ensures NextMessage(ring).At(ring.readSeq + FLIGHT).None?
  {
    SlotIsMessage(ring, history, ring.readSeq);
    var s := ring.At(ring.readSeq).value;
    assert SlotAgrees(ring.slots[ring.readSeq % FLIGHT].value, ring, history);
    assert forall k: nat | k < s.msgLen :: k in s.got;
    assert CurrentMessage(ring).body == history[ring.readSeq].body;
    var next := NextMessage(ring);
    forall i: nat | i < FLIGHT && next.slots[i].Some?
      ensures next.slots[i].value.seqNum % FLIGHT == i && SlotAgrees(next.slots[i].value, next, history)
    {
      assert next.slots[i] == ring.slots[i] && SlotAgrees(ring.slots[i].value, ring, history);
      assert ring.slots[i].value.seqNum != ring.readSeq;
    }
  }

  /** Safety over every run, however records are lost, repeated, reordered or delayed: what is
      handed out is the peer's messages, whole, in order and once each. */
  lemma {:induction false} RunIsSafe(c: Reader, events: seq<Event>, maxLen: nat, history: seq<Sent>)
    requires Agrees(c.ring, history) && AllGenuine(events, history)
    requires c.ring.readSeq <= |history| && forall m <- history :: |m.body| <= maxLen
    ensures var (_, c', out) := Run(c, events, maxLen);
      && c'.ring.readSeq == c.ring.readSeq + |out| <= |history| && Agrees(c'.ring, history)
      && forall i | 0 <= i < |out| :: out[i] == Content(history[c.ring.readSeq + i])
    decreases |events|
  {
    if events != [] {
      StepIsSafe(c, events[0], maxLen, history);
      var (ok, c', out) := Step(c, events[0], maxLen);
      if ok {
        RunIsSafe(c', events[1..], maxLen, history);
      }
    }
  }

  lemma StepIsSafe(c: Reader, e: Event, maxLen: nat, history: seq<Sent>)
    requires Agrees(c.ring, history) && (e.Deliver? ==> GenuineRecord(e.record, history))
    requires c.ring.readSeq <= |history| && forall m <- history :: |m.body| <= maxLen
    ensures var (_, c', out) := Step(c, e, maxLen);
      && Agrees(c'.ring, history) && c'.ring.readSeq == c.ring.readSeq + |out| <= |history| && |out| <= 1
      && (|out| == 1 ==> out[0] == Content(history[c.ring.readSeq]))
  {
    if e.Deliver? {
      DeliverGenuine(c, e.record, maxLen, history);
    } else if e.Take? && CurrentComplete(c.ring) {
      TakeAgrees(c.ring, history);
    }
  }

  lemma StepDelivers(c: Reader, e: Event, maxLen: nat, history: seq<Sent>, j: nat, taken: bool)
    requires Agrees(c.ring, history) && (e.Deliver? ==> GenuineRecord(e.record, history))
    requires c.ring.readSeq <= |history| && forall m <- history :: |m.body| <= maxLen
    requires OneEncrypted(history) && InPhase(c, history) && Clear(c, history) && (taken ==> !c.hasCcs)
    requires Disciplined(c, [e], maxLen, history, taken)
    ensures var (ok, c', _) := Step(c, e, maxLen);
      && ok && InPhase(c', history) && Clear(c', history) && (TakesChange(c, e) ==> !c'.hasCcs)
      && (c'.ring.readSeq <= j < |history| ==>
            && Have(c'.ring, j) == Have(c.ring, j) + (if e.Deliver? then Contributes(c, e.record, j) else {})
            && (c'.ring.At(j).Some? <==> c.ring.At(j).Some? || (e.Deliver? && Touches(c, e.record, j))))
  {
    match e
    case Deliver(r) =>
      DeliverGenuine(c, r, maxLen, history);
      DeliverClear(c, r, maxLen, history);
    case ChangeReadState => NothingUnprocessed(c, history);
    case Take =>
      if CurrentComplete(c.ring) {
        TakeAgrees(c.ring, history);
      }
    case _ =>
  }

  /** Liveness of reassembly: a disciplined handshake is never refused anything, and for every
      message not yet handed out the receiver holds exactly the offsets that have arrived. */
  lemma {:induction false} RunDelivers(c: Reader, events: seq<Event>, maxLen: nat, history: seq<Sent>, j: nat, taken: bool)
    requires Agrees(c.ring, history) && AllGenuine(events, history)
    requires c.ring.readSeq <= |history| && forall m <- history :: |m.body| <= maxLen
    requires OneEncrypted(history) && InPhase(c, history) && Clear(c, history) && (taken ==> !c.hasCcs)
    requires Disciplined(c, events, maxLen, history, taken)
    ensures var (ok, c', _) := Run(c, events, maxLen);
      && ok && InPhase(c', history) && Agrees(c'.ring, history) && Clear(c', history)
      && (c'.ring.readSeq <= j < |history| ==>
            && Have(c'.ring, j) == Have(c.ring, j) + Arrived(c, events, maxLen, j)
            && (c'.ring.At(j).Some? <==> c.ring.At(j).Some? || Touched(c, events, maxLen, j)))
    decreases |events|
  {
    if events != [] {
      StepIsSafe(c, events[0], maxLen, history);
      StepDelivers(c, events[0], maxLen, history, j, taken);
      var (_, c', _) := Step(c, events[0], maxLen);
      RunDelivers(c', events[1..], maxLen, history, j, TakesChange(c, events[0]));
      RunIsSafe(c', events[1..], maxLen, history);
    }
  }

  /** A message is handed out as soon as, and not before, all its bytes have arrived; an empty
      message still needs one fragment. */
  lemma HandedOutWhenComplete(c: Reader, events: seq<Event>, maxLen: nat, history: seq<Sent>)
    requires Agrees(c.ring, history) && AllGenuine(events, history)
    requires c.ring.readSeq <= |history| && forall m <- history :: |m.body| <= maxLen
    requires OneEncrypted(history) && InPhase(c, history) && Disciplined(c, events, maxLen, history, false)
    requires forall i: nat | i < FLIGHT :: c.ring.slots[i].None?
    ensures var (ok, c', _) := Run(c, events, maxLen);
      var n := c'.ring.readSeq;
      && ok && n <= |history|
      && (n < |history| ==>
            (CurrentComplete(c'.ring) <==>
               Touched(c, events, maxLen, n) && Arrived(c, events, maxLen, n) == Range(0, |history[n].body|)))
  {
    RunIsSafe(c, events, maxLen, history);
    var (_, c', _) := Run(c, events, maxLen);
    var n := c'.ring.readSeq;
    RunDelivers(c, events, maxLen, history, n, false);
    if n < |history| && c'.ring.At(n).Some? {
      SlotIsMessage(c'.ring, history, n);
      assert SlotAgrees(c'.ring.slots[n % FLIGHT].value, c'.ring, history);
    }
  }
}
