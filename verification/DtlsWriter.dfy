/** The write half of a DTLS connection (d1_both.cc, dtls_record.cc, dtls_method.cc): packing the
    outgoing flight into records and packets, and resuming or rewinding it. Encryption is
    abstract: a cipher is the room it needs around a plaintext. */
module DtlsWriter {
  import opened Common
  import opened HandshakeWire
  import opened DtlsReceive
  import opened DtlsFlight
  import opened RecordNumbers

  /** SSLAEADContext: explicit nonce length, and the tag (with any padding) for each length. */
  datatype Aead = Aead(nonceLen: nat, maxTag: nat, tag: nat -> nat) {
    ghost predicate WellFormed() {
      forall n: nat :: tag(n) <= maxTag
    }

    function MaxOverhead(): nat {
      nonceLen + maxTag
    }
  }

  const NULL_CIPHER := Aead(0, 0, _ => 0)

  datatype SealResult = SealError | NoProgress | Partial | Complete

  datatype SendResult = Sent | SealFailed | WriteBlocked | FlushFailed

  ghost function Flat(packets: seq<seq<Record>>): seq<Record> {
    if packets == [] then [] else Flat(packets[..|packets| - 1]) + packets[|packets| - 1]
  }

  lemma FlatOneMore(packets: seq<seq<Record>>, p: seq<Record>)
    ensures Flat(packets + [p]) == Flat(packets) + p
  {
    assert (packets + [p])[..|packets|] == packets;
  }

  ghost predicate Taken(answers: seq<bool>, packets: nat) {
    packets <= |answers| && forall i | 0 <= i < packets :: answers[i]
  }

  /** One write for each packet sent and no more; a send stops early only where the transport stops it or
      sealing fails. */
  ghost predicate Answered(packets: nat, answers: seq<bool>, flushed: bool, res: SendResult) {
    && Taken(answers, packets)
    && match res
       case Sent => flushed
       case SealFailed => true
       case WriteBlocked => packets == |answers| || !answers[packets]
       case FlushFailed => !flushed
  }

  class WriteState {
    var wEpoch: nat
    var writeSequence: nat
    var lastWriteSequence: nat
    var aead: Aead
    var lastAead: Aead
    var handshakeWriteSeq: nat
    var outgoing: seq<Outgoing>
    var outgoingComplete: bool
    var outgoingWritten: nat
    var outgoingOffset: nat
    /** The records handed to the transport in packets it accepted. */
    ghost var onWire: seq<Record>

    ghost predicate Valid()
      reads this
    {
      && writeSequence < LIMIT && lastWriteSequence < LIMIT
      && aead.WellFormed() && lastAead.WellFormed()
      && |outgoing| <= FLIGHT
      && InFlight(outgoing, At())
    }

    function At(): Cursor
      reads this
    {
      Cursor(outgoingWritten, outgoingOffset)
    }

    ghost function Next(): (nat, nat)
      reads this
    {
      (writeSequence, lastWriteSequence)
    }

    ghost function Counters(curWrapped: bool, lastWrapped: bool): Numbers
      reads this
    {
      Numbers(wEpoch, writeSequence, lastWriteSequence, curWrapped, lastWrapped)
    }

    constructor ()
      ensures Valid() && forall cw, lw :: Counters(cw, lw) == START.(curWrapped := cw, lastWrapped := lw)
      ensures outgoing == [] && onWire == [] && handshakeWriteSeq == 0
    {
      wEpoch, writeSequence, lastWriteSequence := 0, 0, 0;
      aead, lastAead := NULL_CIPHER, NULL_CIPHER;
      handshakeWriteSeq := 0;
      outgoing, outgoingComplete, outgoingWritten, outgoingOffset := [], false, 0, 0;
      onWire := [];
    }

    function CipherFor(previous: bool): Aead
      reads this
    {
      if previous then lastAead else aead
    }

    function SealedLength(n: nat, previous: bool): nat
      reads this
    {
      CipherFor(previous).nonceLen + n + CipherFor(previous).tag(n)
    }

    /** dtls_seal_record. A number is used up even when the record is then found too long. */
    method SealRecord(typ: ContentType, payload: seq<byte>, previous: bool, maxOut: nat) returns (ok: bool, r: Record, len: nat)
      requires Valid() && (previous ==> wEpoch >= 1)
      modifies this`writeSequence, this`lastWriteSequence
      ensures Valid()
      ensures ok <==>
        && RT_HEADER_LENGTH + SealedLength(|payload|, previous) <= maxOut
        && (if previous then old(lastWriteSequence) else old(writeSequence)) + 1 != LIMIT
        && SealedLength(|payload|, previous) < 0x1_0000
      ensures ok ==>
        && len == RT_HEADER_LENGTH + SealedLength(|payload|, previous)
        && r == Record(typ, if previous then wEpoch - 1 else wEpoch,
                       if previous then old(lastWriteSequence) else old(writeSequence), payload)
        && writeSequence == old(writeSequence) + (if previous then 0 else 1)
        && lastWriteSequence == old(lastWriteSequence) + (if previous then 1 else 0)
        && Numbered([r], wEpoch, old(Next()), Next(), len)
        && forall cw, lw :: RecordNumbers.Step(old(Counters(cw, lw)), Seal(previous)) == (Some((r.epoch, r.num)), Counters(cw, lw))
      ensures !ok ==> if previous
        then writeSequence == old(writeSequence) && lastWriteSequence in {old(lastWriteSequence), Bump(old(lastWriteSequence)).1}
        else lastWriteSequence == old(lastWriteSequence) && writeSequence in {old(writeSequence), Bump(old(writeSequence)).1}
    {
      var epoch := if previous then wEpoch - 1 else wEpoch;
      var num := if previous then lastWriteSequence else writeSequence;
      r, len := Record(typ, epoch, num, payload), 0;
      var size := SealedLength(|payload|, previous);
      if maxOut < RT_HEADER_LENGTH || size > maxOut - RT_HEADER_LENGTH {
        return false, r, len;
      }
      var (counted, next) := Bump(num);
      if previous {
        lastWriteSequence := next;
      } else {
        writeSequence := next;
      }
      if !counted || size >= 0x1_0000 {
        return false, r, len;
      }
      return true, r, RT_HEADER_LENGTH + size;
    }

    /** Sealing the flight from `c` on cannot fail: it is stamped with live epochs, both counters have
        numbers left for all of it, and records of `mtu` bytes stay below 2^16. */
    ghost predicate CanSealFrom(c: Cursor, mtu: nat)
      requires InFlight(outgoing, c)
      reads this
    {
      && (forall i | 0 <= i < |outgoing| :: outgoing[i].epoch == wEpoch || outgoing[i].epoch + 1 == wEpoch)
      && writeSequence + Left(outgoing, c) < LIMIT && lastWriteSequence + Left(outgoing, c) < LIMIT
      && mtu < RT_HEADER_LENGTH + 0x1_0000
    }

    ghost predicate CanSeal(mtu: nat)
      requires Valid()
      reads this
    {
      CanSealFrom(At(), mtu)
    }

    /** The transport takes every packet of the flight from `c` on, and the flush. */
    ghost predicate Willing(c: Cursor, answers: seq<bool>, flushed: bool)
      requires InFlight(outgoing, c)
      reads this
    {
      |answers| >= Left(outgoing, c) && (forall i | 0 <= i < |answers| :: answers[i]) && flushed
    }

    /** An empty packet of `mtu` bytes has room for something of every message. */
    ghost predicate HasRoom(mtu: nat)
      reads this
    {
      && RT_HEADER_LENGTH + aead.MaxOverhead() + HM_HEADER_LENGTH + 1 <= mtu
      && RT_HEADER_LENGTH + lastAead.MaxOverhead() + HM_HEADER_LENGTH + 1 <= mtu
    }

    /** What a record of this epoch may take besides its payload. */
    ghost function Around(epoch: nat): nat
      reads this`wEpoch, this`aead, this`lastAead
    {
      13 + (if epoch == wEpoch then aead else lastAead).MaxOverhead()
    }

    /** Nothing of the message fits: not the one byte of a ChangeCipherSpec, or not a fragment header of twelve
        bytes and one more. */
    ghost predicate TooTight(m: Outgoing, space: int)
      reads this`wEpoch, this`aead, this`lastAead
    {
      space < Around(m.epoch) + if m.isCcs then 1 else 13
    }

    /** The length of a record on the wire. */
    ghost function RecordLength(r: Record): nat
      reads this`wEpoch, this`aead, this`lastAead
    {
      var cipher := if r.epoch == wEpoch then aead else lastAead;
      13 + cipher.nonceLen + |r.payload| + cipher.tag(|r.payload|)
    }

    ghost function PacketLength(rs: seq<Record>): nat
      reads this`wEpoch, this`aead, this`lastAead
    {
      if rs == [] then 0 else PacketLength(rs[..|rs| - 1]) + RecordLength(rs[|rs| - 1])
    }

    /** A packet ends with the flight, before a message of which nothing fits, or with a fragment that leaves no
        room for another byte of its message. */
    ghost predicate Full(packet: seq<Record>, mtu: nat)
      reads this
    {
      || outgoingWritten >= |outgoing|
      || (outgoingOffset == 0 && TooTight(outgoing[outgoingWritten], mtu - PacketLength(packet)))
      || (outgoingOffset > 0 && packet != [] &&
            var last := packet[|packet| - 1];
            PacketLength(packet[..|packet| - 1]) + Around(last.epoch) + |last.payload| == mtu)
    }

    /** Counters rise or, at their overflow, go back to zero. */
    ghost predicate Rise(from: (nat, nat), to: (nat, nat)) {
      (from.0 <= to.0 || to.0 == 0) && (from.1 <= to.1 || to.1 == 0)
    }

    /** seal_next_message. */
    method SealNextMessage(maxOut: nat) returns (res: SealResult, r: Record, len: nat)
      requires Valid() && outgoingWritten < |outgoing|
      modifies this`writeSequence, this`lastWriteSequence, this`outgoingOffset
      ensures Moved(res, r, len, maxOut)
      ensures Sized(res, r, len, maxOut)
      ensures res.NoProgress? || res.SealError? ==> outgoingOffset == old(outgoingOffset)
      ensures res.NoProgress? ==> unchanged(this)
      ensures res.NoProgress? ==> !HasRoom(maxOut)
      ensures res.SealError? ==> !old(CanSeal(maxOut)) && Rise(old(Next()), Next())
      ensures res.Complete? ==> outgoingOffset == 0
      ensures writeSequence < LIMIT && lastWriteSequence < LIMIT
    {
      hide Left, SerializeHeader;
      r, len := Record(OtherRecord, 0, 0, []), 0;
      var msg := outgoing[outgoingWritten];
      var previous := false;
      if wEpoch >= 1 && msg.epoch == wEpoch - 1 {
        previous := true;
      } else if msg.epoch != wEpoch {
        return SealError, r, len;
      }
      if msg.isCcs {
        res, r, len := SealChange(previous, maxOut);
      } else {
        res, r, len := SealFragment(previous, maxOut);
      }
    }

    /** A record sealed continues the flight, fits the space, takes the next number, and the cursor
        follows it. */
    twostate predicate Moved(res: SealResult, r: Record, len: nat, maxOut: nat)
      requires old(Valid()) && old(outgoingWritten) < |old(outgoing)| && outgoing == old(outgoing)
      reads this
    {
      res.Partial? || res.Complete? ==>
        && Continues(outgoing, old(At()), r) && RT_HEADER_LENGTH < len <= maxOut
        && After(outgoing, old(At()), r) == Cursor(if res.Complete? then outgoingWritten + 1 else outgoingWritten, outgoingOffset)
        && Numbered([r], wEpoch, old(Next()), Next(), len)
        && writeSequence + lastWriteSequence == old(writeSequence + lastWriteSequence) + 1
        && old(writeSequence) <= writeSequence && old(lastWriteSequence) <= lastWriteSequence
    }

    /** A record takes its own length, a fragment that does not finish its message all the room there is, and
        nothing is sealed only where nothing fits. */
    ghost predicate Sized(res: SealResult, r: Record, len: nat, maxOut: nat)
      requires outgoingWritten < |outgoing|
      reads this
    {
      && (res.Partial? || res.Complete? ==> len == RecordLength(r))
      && (res.Partial? ==> Around(r.epoch) + |r.payload| == maxOut)
      && (res.NoProgress? ==> TooTight(outgoing[outgoingWritten], maxOut))
      && (res.Partial? || res.Complete? ==> !TooTight(outgoing[outgoingWritten], maxOut))
    }

    method SealChange(previous: bool, maxOut: nat) returns (res: SealResult, r: Record, len: nat)
      requires Valid() && outgoingWritten < |outgoing| && outgoing[outgoingWritten].isCcs
      requires if previous then wEpoch >= 1 && outgoing[outgoingWritten].epoch == wEpoch - 1 else outgoing[outgoingWritten].epoch == wEpoch
      modifies this`writeSequence, this`lastWriteSequence
      ensures Moved(res, r, len, maxOut) && !res.Partial?
      ensures Sized(res, r, len, maxOut)
      ensures res.NoProgress? ==> unchanged(this) && !HasRoom(maxOut)
      ensures res.SealError? ==> !old(CanSeal(maxOut)) && Rise(old(Next()), Next())
      ensures writeSequence < LIMIT && lastWriteSequence < LIMIT
    {
      hide Left, SerializeHeader, Numbered, RecordNumbers.Step;
      r, len := Record(OtherRecord, 0, 0, []), 0;
      if maxOut < 1 + RT_HEADER_LENGTH + CipherFor(previous).MaxOverhead() {
        return NoProgress, r, len;
      }
      var ok: bool;
      ok, r, len := SealRecord(ChangeCipherSpecRecord, [1], previous, maxOut);
      return if ok then Complete else SealError, r, len;
    }

    method SealFragment(previous: bool, maxOut: nat) returns (res: SealResult, r: Record, len: nat)
      requires Valid() && outgoingWritten < |outgoing| && !outgoing[outgoingWritten].isCcs
      requires if previous then wEpoch >= 1 && outgoing[outgoingWritten].epoch == wEpoch - 1 else outgoing[outgoingWritten].epoch == wEpoch
      modifies this`writeSequence, this`lastWriteSequence, this`outgoingOffset
      ensures Moved(res, r, len, maxOut)
      ensures Sized(res, r, len, maxOut)
      ensures res.NoProgress? || res.SealError? ==> outgoingOffset == old(outgoingOffset)
      ensures res.NoProgress? ==> unchanged(this) && !HasRoom(maxOut)
      ensures res.SealError? ==> !old(CanSeal(maxOut)) && Rise(old(Next()), Next())
      ensures res.Complete? ==> outgoingOffset == 0
      ensures writeSequence < LIMIT && lastWriteSequence < LIMIT
    {
      hide Left, SerializeHeader, PacketLength, Numbered, RecordNumbers.Step, FragmentPayload;
      r, len := Record(OtherRecord, 0, 0, []), 0;
      var msg := outgoing[outgoingWritten];
      var overhead := RT_HEADER_LENGTH + CipherFor(previous).MaxOverhead();
      var prefix := RT_HEADER_LENGTH + CipherFor(previous).nonceLen;
      var bodyLeft := |msg.body| - outgoingOffset;
      if maxOut < HM_HEADER_LENGTH + 1 + overhead || maxOut < prefix {
        return NoProgress, r, len;
      }
      var todo := bodyLeft;
      if todo > maxOut - HM_HEADER_LENGTH - overhead {
        todo := maxOut - HM_HEADER_LENGTH - overhead;
      }
      var ok: bool;
      PayloadLength(msg, outgoingOffset, todo);
      ok, r, len := SealRecord(HandshakeRecord, FragmentPayload(msg, outgoingOffset, todo), previous, maxOut);
      if !ok {
        return SealError, r, len;
      }
      if todo == bodyLeft {
        outgoingOffset := 0;
        return Complete, r, len;
      }
      outgoingOffset := outgoingOffset + todo;
      return Partial, r, len;
    }

    lemma PayloadLength(m: Outgoing, offset: nat, len: nat)
      requires m.WellFormed() && offset + len <= |m.body|
      ensures |FragmentPayload(m, offset, len)| == 12 + len
    {
    }

    /** seal_next_packet: as many records as fit, at least one. Nothing but a seal failure can
        stop it from making progress in a packet with room. */
    method SealNextPacket(mtu: nat) returns (ok: bool, packet: seq<Record>, total: nat)
      requires Valid() && outgoingWritten < |outgoing|
      modifies this`writeSequence, this`lastWriteSequence, this`outgoingOffset, this`outgoingWritten
      ensures Valid()
      ensures total <= mtu && total == PacketLength(packet) && Tiles(outgoing, old(At()), packet, At())
      ensures ok ==> Full(packet, mtu)
      ensures Rise(old(Next()), Next())
      ensures ok ==> packet != [] && total > 0 && Numbered(packet, wEpoch, old(Next()), Next(), mtu)
      ensures ok ==> Left(outgoing, At()) < old(Left(outgoing, At()))
      ensures ok ==> outgoingWritten > old(outgoingWritten) || (outgoingWritten == old(outgoingWritten) && outgoingOffset > old(outgoingOffset))
      ensures ok && old(CanSeal(mtu)) ==> CanSeal(mtu)
      ensures old(CanSeal(mtu)) && HasRoom(mtu) ==> ok
    {
      hide Tiles, Left, Continues, After, Numbered, InFlight, PacketLength, RecordLength, Around, TooTight, Full;
      packet, total := [], 0;
      NoRecords();
      var maxOut := mtu;
      TilesNothing(outgoing, At());
      NumberedNothing(wEpoch, Next(), mtu);
      while outgoingWritten < |outgoing|
        invariant Valid() && total + maxOut == mtu && (packet == [] <==> total == 0)
        invariant total == PacketLength(packet)
        invariant packet != [] ==> outgoingOffset == 0
        invariant packet == [] ==> At() == old(At())
        invariant old(writeSequence) <= writeSequence && old(lastWriteSequence) <= lastWriteSequence
        invariant Numbered(packet, wEpoch, old(Next()), Next(), mtu)
        invariant Tiles(outgoing, old(At()), packet, At())
        invariant Left(outgoing, At()) + |packet| <= old(Left(outgoing, At()))
        invariant old(CanSeal(mtu)) ==> CanSeal(mtu)
        decreases |outgoing| - outgoingWritten
      {
        ghost var before, numbers := At(), Next();
        var ret, r, len := SealNextMessage(maxOut);
        if ret == SealError {
          return false, packet, total;
        }
        if ret == NoProgress {
          NoneFits(packet, mtu);
          break;
        }
        Advanced(old(At()), before, packet, r);
        NumberedOneMore(packet, r, old(Next()), numbers, Next(), len, mtu);
        LongerBy(packet, r);
        if ret == Partial {
          NoByteFits(packet, r, mtu);
          packet, total, maxOut := packet + [r], total + len, maxOut - len;
          break;
        }
        packet, total, maxOut := packet + [r], total + len, maxOut - len;
        outgoingWritten := outgoingWritten + 1;
      }
      AtItsEnd(packet, mtu);
      TilesInFlight(outgoing, old(At()), packet, At());
      // An MTU too small to make any progress is an error.
      ok := packet != [];
    }

    lemma NoRecords()
      ensures PacketLength([]) == 0
    {
    }

    lemma AtItsEnd(packet: seq<Record>, mtu: nat)
      ensures outgoingWritten >= |outgoing| ==> Full(packet, mtu)
    {
    }

    lemma NoneFits(packet: seq<Record>, mtu: nat)
      requires outgoingWritten < |outgoing| && TooTight(outgoing[outgoingWritten], mtu - PacketLength(packet))
      ensures outgoingOffset == 0 ==> Full(packet, mtu)
    {
    }

    lemma NoByteFits(packet: seq<Record>, r: Record, mtu: nat)
      requires PacketLength(packet) + Around(r.epoch) + |r.payload| == mtu && outgoingOffset > 0
      ensures Full(packet + [r], mtu)
    {
      assert (packet + [r])[..|packet|] == packet;
    }

    lemma LongerBy(packet: seq<Record>, r: Record)
      ensures PacketLength(packet + [r]) == PacketLength(packet) + RecordLength(r)
    {
      assert (packet + [r])[..|packet|] == packet;
    }

    lemma NumberedOneMore(packet: seq<Record>, r: Record, a: (nat, nat), b: (nat, nat), c: (nat, nat), len: nat, mtu: nat)
      requires Numbered(packet, wEpoch, a, b, mtu) && Numbered([r], wEpoch, b, c, len) && len <= mtu
      ensures Numbered(packet + [r], wEpoch, a, c, mtu)
    {
      hide Numbered;
      NumberedWider([r], wEpoch, b, c, len, mtu);
      NumberedAppend(packet, [r], wEpoch, a, b, c, mtu);
    }

    lemma Advanced(start: Cursor, c: Cursor, sent: seq<Record>, r: Record)
      requires InFlight(outgoing, start) && InFlight(outgoing, c) && Tiles(outgoing, start, sent, c)
      requires Continues(outgoing, c, r)
      ensures var next := After(outgoing, c, r);
        && Tiles(outgoing, start, sent + [r], next)
        && Left(outgoing, next) < Left(outgoing, c)
        && (next.written == c.written ==> next.offset > 0)
    {
      var next := After(outgoing, c, r);
      assert Tiles(outgoing, next, [], next);
      assert [r][1..] == [];
      assert Tiles(outgoing, c, [r], next);
      TilesAppend(outgoing, start, sent, c, [r], next);
      AfterLowersLeft(outgoing, c, r);
    }

    /** send_flight, with the transport's answer to each BIO_write and to the final BIO_flush
        given in advance; a write past the end of `answers` would block. A packet the transport
        refused is taken back, so the records on the wire always tile the flight up to the
        cursor, whenever the refusals come. A packet cut short by a seal failure is not: the
        records already in it are `lost`, and the cursor stays past them. `stop` is where the
        counters stood after the last packet sealed, and `packets` is what the transport took. */
    method SendFlight(mtu: nat, answers: seq<bool>, flushed: bool)
      returns (res: SendResult, ghost lost: seq<Record>, ghost stop: (nat, nat), ghost packets: seq<seq<Record>>)
      requires Valid()
      modifies this`writeSequence, this`lastWriteSequence, this`outgoingOffset, this`outgoingWritten, this`onWire
      ensures Valid() && old(onWire) <= onWire
      ensures Tiles(outgoing, old(At()), onWire[|old(onWire)|..] + lost, At()) && (!res.SealFailed? ==> lost == [])
      ensures Numbered(onWire[|old(onWire)|..], wEpoch, old(Next()), stop, mtu) && stop.0 < LIMIT && stop.1 < LIMIT
      ensures Rise(stop, Next()) && (!res.SealFailed? ==> stop == Next())
      ensures onWire == old(onWire) + Flat(packets) && Answered(|packets|, answers, flushed, res)
      ensures AllFit(packets, mtu)
      ensures res.Sent? || res.FlushFailed? ==> At() == Cursor(|outgoing|, 0)
      ensures old(CanSeal(mtu)) && HasRoom(mtu) ==> !res.SealFailed?
      ensures old(CanSeal(mtu)) && HasRoom(mtu) && old(Willing(At(), answers, flushed)) ==> res.Sent?
    {
      hide Tiles, Left, Continues, After, Numbered, InFlight, PacketLength, RecordLength, Full, AllFit, Flat;
      var k := 0;
      packets := [];
      NoPackets(mtu);
      ghost var sent: seq<Record> := [];
      TilesNothing(outgoing, At());
      NumberedNothing(wEpoch, Next(), mtu);
      while outgoingWritten < |outgoing|
        invariant Valid() && onWire == old(onWire) + sent
        invariant sent == Flat(packets) && |packets| == k && AllFit(packets, mtu) && Taken(answers, k)
        invariant Tiles(outgoing, old(At()), sent, At())
        invariant Numbered(sent, wEpoch, old(Next()), Next(), mtu)
        invariant old(CanSeal(mtu)) ==> CanSeal(mtu)
        invariant k + Left(outgoing, At()) <= old(Left(outgoing, At()))
        decreases Left(outgoing, At())
      {
        ghost var numbers := Next();
        var oldWritten, oldOffset := outgoingWritten, outgoingOffset;
        var ok, packet, total := SealNextPacket(mtu);
        TilesAppend(outgoing, old(At()), sent, Cursor(oldWritten, oldOffset), packet, At());
        if !ok {
          return SealFailed, packet, numbers, packets;
        }
        NumberedAppend(sent, packet, wEpoch, old(Next()), numbers, Next(), mtu);
        if k >= |answers| || !answers[k] {
          outgoingWritten, outgoingOffset := oldWritten, oldOffset;
          assert sent + [] == sent;
          return WriteBlocked, [], Next(), packets;
        }
        OneMorePacket(packets, packet, mtu);
        onWire, sent, packets, k := onWire + packet, sent + packet, packets + [packet], k + 1;
      }
      AllWritten();
      assert sent + [] == sent;
      if !flushed {
        return FlushFailed, [], Next(), packets;
      }
      return Sent, [], Next(), packets;
    }

    /** No packet is empty or longer than the path carries. */
    ghost predicate AllFit(packets: seq<seq<Record>>, mtu: nat)
      reads this`wEpoch, this`aead, this`lastAead
    {
      forall p <- packets :: p != [] && PacketLength(p) <= mtu
    }

    lemma NoPackets(mtu: nat)
      ensures AllFit([], mtu) && Flat([]) == []
    {
    }

    lemma OneMorePacket(packets: seq<seq<Record>>, p: seq<Record>, mtu: nat)
      requires AllFit(packets, mtu) && p != [] && PacketLength(p) <= mtu
      ensures AllFit(packets + [p], mtu) && Flat(packets + [p]) == Flat(packets) + p
    {
      FlatOneMore(packets, p);
    }

    lemma AllWritten()
      requires Valid() && outgoingWritten >= |outgoing|
      ensures At() == Cursor(|outgoing|, 0)
    {
    }

    /** dtls1_flush_flight. */
    method FlushFlight(mtu: nat, answers: seq<bool>, flushed: bool)
      returns (res: SendResult, ghost lost: seq<Record>, ghost stop: (nat, nat), ghost packets: seq<seq<Record>>)
      requires Valid()
      modifies this`writeSequence, this`lastWriteSequence, this`outgoingOffset, this`outgoingWritten, this`onWire, this`outgoingComplete
      ensures Valid() && outgoingComplete && old(onWire) <= onWire
      ensures Tiles(outgoing, old(At()), onWire[|old(onWire)|..] + lost, At()) && (!res.SealFailed? ==> lost == [])
      ensures Numbered(onWire[|old(onWire)|..], wEpoch, old(Next()), stop, mtu) && stop.0 < LIMIT && stop.1 < LIMIT
      ensures Rise(stop, Next()) && (!res.SealFailed? ==> stop == Next())
      ensures onWire == old(onWire) + Flat(packets) && Answered(|packets|, answers, flushed, res)
      ensures AllFit(packets, mtu)
      ensures res.Sent? ==> At() == Cursor(|outgoing|, 0)
      ensures old(CanSeal(mtu)) && HasRoom(mtu) ==> !res.SealFailed? && (old(Willing(At(), answers, flushed)) ==> res.Sent?)
    {
      outgoingComplete := true;
      res, lost, stop, packets := SendFlight(mtu, answers, flushed);
    }

    /** dtls1_retransmit_outgoing_messages: the whole flight again, from the start. */
    method Retransmit(mtu: nat, answers: seq<bool>, flushed: bool)
      returns (res: SendResult, ghost lost: seq<Record>, ghost stop: (nat, nat), ghost packets: seq<seq<Record>>)
      requires Valid()
      modifies this`writeSequence, this`lastWriteSequence, this`outgoingOffset, this`outgoingWritten, this`onWire
      ensures Valid() && old(onWire) <= onWire
      ensures Tiles(outgoing, Cursor(0, 0), onWire[|old(onWire)|..] + lost, At()) && (!res.SealFailed? ==> lost == [])
      ensures Numbered(onWire[|old(onWire)|..], wEpoch, old(Next()), stop, mtu) && stop.0 < LIMIT && stop.1 < LIMIT
      ensures Rise(stop, Next()) && (!res.SealFailed? ==> stop == Next())
      ensures onWire == old(onWire) + Flat(packets) && Answered(|packets|, answers, flushed, res)
      ensures AllFit(packets, mtu)
      ensures res.Sent? ==> At() == Cursor(|outgoing|, 0)
      ensures old(CanSealFrom(Cursor(0, 0), mtu)) && HasRoom(mtu) ==>
        !res.SealFailed? && (old(Willing(Cursor(0, 0), answers, flushed)) ==> res.Sent?)
    {
      hide Left, Tiles, Numbered;
      outgoingWritten, outgoingOffset := 0, 0;
      res, lost, stop, packets := SendFlight(mtu, answers, flushed);
    }

    /** add_outgoing: the first message after a completed flight starts a new one. */
    method AddOutgoing(isCcs: bool, typ: byte, body: seq<byte>) returns (ok: bool)
      requires Valid() && handshakeWriteSeq < 0x1_0000 && |body| < 0x100_0000 && (isCcs ==> body == [])
      requires outgoingComplete || (outgoingWritten == 0 && outgoingOffset == 0)
      modifies this`outgoing, this`outgoingComplete, this`outgoingWritten, this`outgoingOffset, this`handshakeWriteSeq
      ensures Valid() && !outgoingComplete && At() == Cursor(0, 0)
      ensures var base := if old(outgoingComplete) then [] else old(outgoing);
        && ok == (|base| < FLIGHT)
        && outgoing == (if ok then base + [Outgoing(isCcs, typ, old(handshakeWriteSeq), body, wEpoch)] else base)
      ensures handshakeWriteSeq == old(handshakeWriteSeq) + if ok && !isCcs then 1 else 0
    {
      if outgoingComplete {
        outgoing, outgoingWritten, outgoingOffset, outgoingComplete := [], 0, 0, false;
      }
      if |outgoing| >= FLIGHT {
        return false;
      }
      outgoing := outgoing + [Outgoing(isCcs, typ, handshakeWriteSeq, body, wEpoch)];
      if !isCcs {
        handshakeWriteSeq := handshakeWriteSeq + 1;
      }
      return true;
    }

    /** dtls1_set_write_state: the old counter and cipher stay behind for retransmissions. */
    method SetWriteState(cipher: Aead)
      requires Valid() && cipher.WellFormed()
      modifies this`wEpoch, this`writeSequence, this`lastWriteSequence, this`aead, this`lastAead
      ensures Valid() && aead == cipher && lastAead == old(aead)
      ensures forall cw, lw :: RecordNumbers.Step(old(Counters(cw, lw)), ChangeWriteState) == (None, Counters(false, cw))
    {
      wEpoch := wEpoch + 1;
      lastWriteSequence, writeSequence := writeSequence, 0;
      lastAead, aead := aead, cipher;
    }
  }
}
