/** The read half of a DTLS connection (d1_both.cc, dtls_record.cc, dtls_method.cc) over its own
    arrays: the ring of partly received messages, the replay window and the epoch. Every method
    is proved to do what the functions of DtlsReceive say. */
module DtlsReader {
  import opened Common
  import opened HandshakeWire
  import opened DtlsReceive
  import opened FragmentBitmap
  import ReplayWindow

  class ReadState {
    var rEpoch: nat
    var hasChangeCipherSpec: bool
    var hasMessage: bool
    var handshakeReadSeq: nat
    const incoming: array<HmFragment?>
    const bitmap: ReplayWindow.Bitmap
    /** The ring the slots stand for, and the objects they are made of. */
    ghost var ring: Ring
    ghost var Repr: set<object>
    /** The numbers of all records that have arrived for this epoch, taken or not, but for those too long. */
    ghost var arrived: set<int>

    ghost predicate SlotValid(i: nat)
      requires i < incoming.Length && |ring.slots| == incoming.Length
      reads this, incoming, Repr
    {
      var f := incoming[i];
      if f == null then ring.slots[i].None?
      else
        && f in Repr && f.data in Repr && (f.reassembly != null ==> f.reassembly in Repr)
        && incoming as object != f.data && incoming as object? != f.reassembly
        && f.Valid()
        && ring.slots[i] == Some(f.AsSlot())
        && f.seqNum % FLIGHT == i && handshakeReadSeq <= f.seqNum < handshakeReadSeq + FLIGHT
    }

    ghost predicate Valid()
      reads this, incoming, bitmap, Repr
    {
      && this in Repr && incoming in Repr && bitmap in Repr
      && incoming.Length == FLIGHT && ring.WellFormed() && ring.readSeq == handshakeReadSeq
      && bitmap.Valid() && ReplayWindow.Remembers(bitmap.seen, bitmap.maxSeqNum, arrived)
      && (forall i: nat | i < FLIGHT :: SlotValid(i))
      && (forall i: nat, j: nat | i < j < FLIGHT && SlotValid(i) && SlotValid(j) ::
            incoming[i] != null && incoming[j] != null ==> incoming[i].Apart(incoming[j]))
    }

    ghost function Abs(): Reader
      reads this, bitmap
    {
      Reader(ring, hasMessage, rEpoch, hasChangeCipherSpec, bitmap.seen, bitmap.maxSeqNum)
    }

    constructor ()
      ensures Valid() && fresh(Repr)
      ensures Abs() == Reader(Ring(0, seq(FLIGHT, _ => None)), false, 0, false, {}, 0) && arrived == {}
    {
      rEpoch, hasChangeCipherSpec, hasMessage, handshakeReadSeq := 0, false, false, 0;
      incoming := new HmFragment?[FLIGHT](_ => null);
      bitmap := new ReplayWindow.Bitmap();
      ring, arrived := Ring(0, seq(FLIGHT, _ => None)), {};
      new;
      Repr := {this, incoming, bitmap};
    }

    /** dtls1_get_incoming_message. */
    method GetIncomingMessage(h: Header) returns (o: Outcome, f: HmFragment?)
      requires Valid() && Fits(h)
      modifies this`ring, this`Repr, incoming
      ensures Valid() && fresh(Repr - old(Repr))
      ensures var (o', s) := IncomingMessage(old(ring), h);
        && o == o' && (o.Error? <==> f == null)
        && ring == (if o.Error? then old(ring) else old(ring).With(h.seqNum, s))
        && (f != null ==> f == incoming[h.seqNum % FLIGHT])
    {
      if h.seqNum < handshakeReadSeq || h.seqNum - handshakeReadSeq >= FLIGHT {
        return Error(InternalError), null;
      }
      var idx := h.seqNum % FLIGHT;
      assert SlotValid(idx);
      f := incoming[idx];
      if f != null {
        if f.typ != h.typ || f.msgLen != h.msgLen {
          return Error(IllegalParameter), null;
        }
        assert ring.slots[idx := Some(f.AsSlot())] == ring.slots;
        return Success, f;
      }
      f := new HmFragment(h);
      Install(f, idx);
      return Success, f;
    }

    /** A new message takes an empty slot. */
    method Install(f: HmFragment, idx: nat)
      requires Valid() && idx < FLIGHT && incoming[idx] == null
      requires f.Valid() && f.seqNum % FLIGHT == idx && handshakeReadSeq <= f.seqNum < handshakeReadSeq + FLIGHT
      requires f.Footprint() !! Repr
      modifies this`ring, this`Repr, incoming
      ensures Valid() && Repr == old(Repr) + f.Footprint() && incoming[idx] == f
      ensures ring == old(ring).With(f.seqNum, old(f.AsSlot()))
    {
      hide HmFragment.Valid;
      incoming[idx] := f;
      ring := ring.With(f.seqNum, f.AsSlot());
      Repr := Repr + f.Footprint();
      forall i: nat | i < FLIGHT
        ensures SlotValid(i)
        ensures i != idx && incoming[i] != null ==> incoming[i].Apart(f) && f.Apart(incoming[i])
      {
        assert old(SlotValid(i));
      }
    }

    /** A fragment received into one slot leaves every other slot alone. */
    method ReceiveInto(f: HmFragment, idx: nat, off: nat, body: seq<byte>)
      requires Valid() && idx < FLIGHT && incoming[idx] == f
      requires f.reassembly != null && off + |body| <= f.msgLen
      modifies this`ring, f`reassembly, f`marked, f`got, f.data, f.reassembly
      ensures Valid()
      ensures ring == old(ring).(slots := old(ring.slots)[idx := Some(old(f.AsSlot()).(got := PutBytes(old(f.got), off, body)))])
    {
      hide HmFragment.Valid;
      assert SlotValid(idx);
      f.Receive(off, body);
      ring := ring.(slots := ring.slots[idx := Some(f.AsSlot())]);
      forall i: nat | i < FLIGHT
        ensures SlotValid(i)
      {
        assert old(SlotValid(i));
      }
    }

    /** One turn of the loop in dtls1_open_handshake. */
    method AcceptFragment(h: Header, body: seq<byte>, maxLen: nat) returns (o: Outcome)
      requires Valid() && Fits(h) && |body| == h.fragLen
      modifies Repr
      ensures Valid() && fresh(Repr - old(Repr))
      ensures (o, ring) == DtlsReceive.AcceptFragment(old(ring), h, body, maxLen, rEpoch)
      ensures unchanged(this`rEpoch, this`hasChangeCipherSpec, this`hasMessage, this`handshakeReadSeq, this`arrived, bitmap)
    {
      if h.fragOff > h.msgLen || h.fragOff + h.fragLen > h.msgLen || h.msgLen > maxLen {
        return Error(IllegalParameter);
      }
      if rEpoch == 1 && h.seqNum != handshakeReadSeq {
        return Error(UnexpectedMessage);
      }
      if h.seqNum < handshakeReadSeq || h.seqNum > handshakeReadSeq + FLIGHT {
        return Success;
      }
      var f: HmFragment?;
      o, f := GetIncomingMessage(h);
      if f == null {
        return;
      }
      assert SlotValid(h.seqNum % FLIGHT);
      if f.reassembly == null {
        return Success;
      }
      ReceiveInto(f, h.seqNum % FLIGHT, h.fragOff, body);
      assert ring.slots == DtlsReceive.AcceptFragment(old(ring), h, body, maxLen, rEpoch).1.slots;
    }

    /** The fragment loop of dtls1_open_handshake. */
    method OpenFragments(payload: seq<byte>, maxLen: nat) returns (o: Outcome)
      requires Valid()
      modifies Repr
      ensures Valid() && fresh(Repr - old(Repr))
      ensures (o, ring) == DtlsReceive.OpenFragments(old(ring), payload, maxLen, rEpoch)
      ensures unchanged(this`rEpoch, this`hasChangeCipherSpec, this`hasMessage, this`handshakeReadSeq, this`arrived, bitmap)
    {
      var cbs := payload;
      while |cbs| > 0
        invariant Valid() && fresh(Repr - old(Repr))
        invariant DtlsReceive.OpenFragments(ring, cbs, maxLen, rEpoch) == DtlsReceive.OpenFragments(old(ring), payload, maxLen, rEpoch)
        invariant unchanged(this`rEpoch, this`hasChangeCipherSpec, this`hasMessage, this`handshakeReadSeq, this`arrived, bitmap)
        decreases |cbs|
      {
        var parsed := ParseFragment(cbs);
        if parsed.None? {
          return Error(DecodeError);
        }
        SerializeParsed(cbs);
        o := AcceptFragment(parsed.value.header, parsed.value.body, maxLen);
        if o.Error? {
          return;
        }
        cbs := parsed.value.rest;
      }
      o := Success;
    }

    /** dtls_open_record followed by dtls1_open_handshake. A record of the epoch is dropped, and nothing
        changes, exactly when its number has arrived before or is 64 or more below one that has. */
    method OpenHandshake(r: Record, maxLen: nat) returns (o: Outcome)
      requires Valid()
      modifies Repr
      ensures Valid() && fresh(Repr - old(Repr))
      ensures (o, Abs()) == DtlsReceive.OpenHandshake(old(Abs()), r, maxLen)
      ensures var n := WindowNumber(r);
        && (o == Discard && Abs() == old(Abs()) <==>
             r.epoch != rEpoch || n in old(arrived) || exists m <- old(arrived) :: n + 64 <= m)
        && arrived == old(arrived) + if r.epoch == rEpoch && |r.payload| <= 16384 then {n} else {}
    {
      var n := WindowNumber(r);
      ReplayWindow.TurnedAway(bitmap.seen, bitmap.maxSeqNum, arrived, n);
      if r.epoch != rEpoch {
        return Discard;
      }
      if bitmap.ShouldDiscard(n) {
        NoteArrival(r);
        return Discard;
      }
      if |r.payload| > MAX_PLAIN_LENGTH {
        return Error(RecordOverflow);
      }
      Recorded(n);
      o := OpenRecorded(r, maxLen);
    }

    /** A record that is dropped has arrived all the same. */
    ghost method NoteArrival(r: Record)
      requires Valid() && r.epoch == rEpoch && bitmap.ShouldDiscard(WindowNumber(r))
      modifies this`arrived
      ensures Valid() && Abs() == old(Abs())
      ensures arrived == old(arrived) + if |r.payload| <= 16384 then {WindowNumber(r)} else {}
    {
      if |r.payload| <= 16384 {
        ReplayWindow.OneMoreArrived(bitmap.seen, bitmap.maxSeqNum, arrived, WindowNumber(r));
        arrived := arrived + {WindowNumber(r)};
        assert forall i: nat | i < FLIGHT :: old(SlotValid(i)) ==> SlotValid(i);
      }
    }

    /** dtls1_open_handshake, on a record whose number has been recorded. */
    method OpenRecorded(r: Record, maxLen: nat) returns (o: Outcome)
      requires Valid()
      modifies Repr
      ensures Valid() && fresh(Repr - old(Repr))
      ensures (o, Abs()) == DtlsReceive.OpenRecorded(old(Abs()), r, maxLen)
      ensures unchanged(this`rEpoch, this`arrived, bitmap)
    {
      match r.typ {
        case AlertRecord => return Alerted;
        case ApplicationDataRecord =>
          return if rEpoch == 0 then Error(UnexpectedMessage) else Discard;
        case ChangeCipherSpecRecord =>
          if rEpoch != 0 {
            return Error(UnexpectedMessage);
          }
          if r.payload != [1] {
            return Error(IllegalParameter);
          }
          FlagChangeCipherSpec(true);
          return Success;
        case OtherRecord => return Error(UnexpectedMessage);
        case HandshakeRecord =>
          o := OpenFragments(r.payload, maxLen);
      }
    }

    method Recorded(n: nat)
      requires Valid() && !bitmap.ShouldDiscard(n)
      modifies bitmap, this`arrived
      ensures Valid() && arrived == old(arrived) + {n}
      ensures Abs() == old(Abs()).(seen := old(bitmap.seen) + {n}, max := if n > old(bitmap.maxSeqNum) then n else old(bitmap.maxSeqNum))
    {
      ReplayWindow.OneMoreArrived(bitmap.seen, bitmap.maxSeqNum, arrived, n);
      bitmap.Record(n);
      arrived := arrived + {n};
      assert forall i: nat | i < FLIGHT :: old(SlotValid(i)) ==> SlotValid(i);
    }

    method FlagChangeCipherSpec(flag: bool)
      requires Valid()
      modifies this`hasChangeCipherSpec
      ensures Valid() && Abs() == old(Abs()).(hasCcs := flag)
    {
      hasChangeCipherSpec := flag;
      assert forall i: nat | i < FLIGHT :: old(SlotValid(i)) ==> SlotValid(i);
    }

    /** dtls1_open_change_cipher_spec: reads a record unless the flag is already up, and takes
        the flag down when it is. */
    method OpenChangeCipherSpec(r: Record, maxLen: nat) returns (o: Outcome)
      requires Valid()
      modifies Repr
      ensures Valid() && fresh(Repr - old(Repr))
      ensures var (o', c) := if old(hasChangeCipherSpec) then (Success, old(Abs())) else DtlsReceive.OpenHandshake(old(Abs()), r, maxLen);
        if o' != Success then o == o' && Abs() == c
        else o == (if c.hasCcs then Success else Discard) && Abs() == c.(hasCcs := false)
    {
      if !hasChangeCipherSpec {
        o := OpenHandshake(r, maxLen);
        if o != Success {
          return;
        }
      }
      if hasChangeCipherSpec {
        FlagChangeCipherSpec(false);
        return Success;
      }
      return Discard;
    }

    /** dtls1_get_message: the body is copied out of the slot for the caller. */
    method GetMessage() returns (m: Option<Message>)
      requires Valid()
      modifies this`hasMessage
      ensures Valid()
      ensures m.Some? <==> CurrentComplete(ring)
      ensures m.Some? ==> m.value == CurrentMessage(ring)
      ensures hasMessage == (m.Some? || old(hasMessage))
    {
      var idx := handshakeReadSeq % FLIGHT;
      assert SlotValid(idx);
      var f := incoming[idx];
      if f == null || f.reassembly != null {
        return None;
      }
      IsCurrent(f);
      assert f.data[HM_HEADER_LENGTH..] == CurrentMessage(ring).body;
      m := Some(Message(f.typ, f.data[HM_HEADER_LENGTH..]));
      hasMessage := true;
      assert forall i: nat | i < FLIGHT :: old(SlotValid(i)) ==> SlotValid(i);
    }

    lemma IsCurrent(f: HmFragment)
      requires Valid() && incoming[handshakeReadSeq % FLIGHT] == f && f.reassembly == null
      ensures CurrentComplete(ring) && |CurrentMessage(ring).body| == f.msgLen == f.data.Length - HM_HEADER_LENGTH
      ensures CurrentMessage(ring).typ == f.typ
      ensures forall k: nat | k < f.msgLen :: k in f.got && CurrentMessage(ring).body[k] == f.data[HM_HEADER_LENGTH + k]
    {
      assert SlotValid(handshakeReadSeq % FLIGHT);
      assert forall k: nat | k < f.msgLen :: k in Range(0, f.msgLen);
    }

    /** dtls1_next_message. */
    method NextMessage()
      requires Valid() && CurrentComplete(ring)
      modifies this`ring, this`handshakeReadSeq, this`hasMessage, incoming
      ensures Valid() && Repr == old(Repr)
      ensures ring == DtlsReceive.NextMessage(old(ring)) && !hasMessage
    {
      var idx := handshakeReadSeq % FLIGHT;
      ring := DtlsReceive.NextMessage(ring);
      incoming[idx] := null;
      handshakeReadSeq := handshakeReadSeq + 1;
      hasMessage := false;
      forall i: nat | i < FLIGHT
        ensures SlotValid(i)
      {
        assert old(SlotValid(i));
      }
    }

    /** dtls_has_unprocessed_handshake_data. */
    method HasUnprocessed() returns (b: bool)
      requires Valid()
      ensures b <==> DtlsReceive.HasUnprocessed(Abs())
    {
      if hasChangeCipherSpec {
        return true;
      }
      var current := handshakeReadSeq % FLIGHT;
      for i := 0 to FLIGHT
        invariant forall k: nat | k < i :: (hasMessage && k == current) || ring.slots[k].None?
      {
        assert SlotValid(i);
        if hasMessage && i == current {
          continue;
        }
        if incoming[i] != null {
          return true;
        }
      }
      return false;
    }

    lemma SlotsInUse()
      requires Valid()
      ensures forall i: nat | i < FLIGHT ::
        && (incoming[i] != null <==> ring.slots[i].Some?)
        && (incoming[i] != null ==> (incoming[i].seqNum == handshakeReadSeq <==> i == handshakeReadSeq % FLIGHT))
    {
      forall i: nat | i < FLIGHT
        ensures incoming[i] != null <==> ring.slots[i].Some?
        ensures incoming[i] != null ==> (incoming[i].seqNum == handshakeReadSeq <==> i == handshakeReadSeq % FLIGHT)
      {
        assert SlotValid(i);
      }
    }

    /** dtls1_set_read_state: refused while the epoch has leftover data, that is a ChangeCipherSpec or
        any fragment buffer but that of the message in hand. In the new epoch no number has arrived. */
    method SetReadState() returns (ok: bool)
      requires Valid()
      modifies this`rEpoch, this`arrived, bitmap
      ensures Valid() && ok == !DtlsReceive.HasUnprocessed(old(Abs()))
      ensures ok == (!hasChangeCipherSpec &&
        forall i: nat | i < 7 && incoming[i] != null :: hasMessage && incoming[i].seqNum == handshakeReadSeq)
      ensures Abs() == (if ok then NextEpoch(old(Abs())) else old(Abs())) && arrived == if ok then {} else old(arrived)
    {
      SlotsInUse();
      var unprocessed := HasUnprocessed();
      if unprocessed {
        return false;
      }
      rEpoch := rEpoch + 1;
      bitmap.Reset();
      arrived := {};
      assert forall i: nat | i < FLIGHT :: old(SlotValid(i)) ==> SlotValid(i);
      return true;
    }
  }
}
