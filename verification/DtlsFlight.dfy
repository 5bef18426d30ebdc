/** A flight of DTLS handshake messages as the sender cuts it up: positions in the flight, and
    which records continue it from a position. */
module DtlsFlight {
  import opened Common
  import opened HandshakeWire
  import opened DtlsReceive

  const RT_HEADER_LENGTH := 13

  /** DTLS_OUTGOING_MESSAGE, with the single fragment it stores already parsed. */
  datatype Outgoing = Outgoing(isCcs: bool, typ: byte, seqNum: nat, body: seq<byte>, epoch: nat) {
    predicate WellFormed() {
      seqNum < 0x1_0000 && |body| < 0x100_0000 && (isCcs ==> body == [])
    }
  }

  /** Where sending stands: messages written, and bytes of the next one. */
  datatype Cursor = Cursor(written: nat, offset: nat)

  predicate InFlight(flight: seq<Outgoing>, c: Cursor) {
    && (forall i | 0 <= i < |flight| :: flight[i].WellFormed())
    && c.written <= |flight|
    && (if c.written == |flight| then c.offset == 0
        else c.offset == 0 || c.offset < |flight[c.written].body|)
  }

  function FragmentPayload(m: Outgoing, offset: nat, len: nat): seq<byte>
    requires m.WellFormed() && offset + len <= |m.body|
  {
    SerializeHeader(Header(m.typ, |m.body|, m.seqNum, offset, len)) + m.body[offset..offset + len]
  }

  /** Record `r` continues the flight at `c`: it is the ChangeCipherSpec due there, or the next
      bytes of the message due there, and it makes progress. */
  predicate Continues(flight: seq<Outgoing>, c: Cursor, r: Record)
    requires InFlight(flight, c)
  {
    && c.written < |flight|
    && var m := flight[c.written];
    && r.epoch == m.epoch
    && if m.isCcs then r.typ == ChangeCipherSpecRecord && r.payload == [1]
       else
         && r.typ == HandshakeRecord && |r.payload| >= HM_HEADER_LENGTH
         && var len := |r.payload| - HM_HEADER_LENGTH;
         && c.offset + len <= |m.body| && (len > 0 || m.body == [])
         && r.payload == FragmentPayload(m, c.offset, len)
  }

  function After(flight: seq<Outgoing>, c: Cursor, r: Record): (next: Cursor)
    requires InFlight(flight, c) && Continues(flight, c, r)
    ensures InFlight(flight, next)
  {
    var m := flight[c.written];
    if m.isCcs || c.offset + |r.payload| - HM_HEADER_LENGTH == |m.body| then Cursor(c.written + 1, 0)
    else Cursor(c.written, c.offset + |r.payload| - HM_HEADER_LENGTH)
  }

  /** The records lead from `c` to `end` with no gap and no overlap. */
  predicate Tiles(flight: seq<Outgoing>, c: Cursor, rs: seq<Record>, end: Cursor)
    requires InFlight(flight, c)
    decreases |rs|
  {
    if rs == [] then c == end
    else Continues(flight, c, rs[0]) && Tiles(flight, After(flight, c, rs[0]), rs[1..], end)
  }

  lemma TilesNothing(flight: seq<Outgoing>, c: Cursor)
    requires InFlight(flight, c)
    ensures Tiles(flight, c, [], c)
  {
  }

  lemma {:induction false} TilesAppend(flight: seq<Outgoing>, c: Cursor, rs: seq<Record>, mid: Cursor, more: seq<Record>, end: Cursor)
    requires InFlight(flight, c) && Tiles(flight, c, rs, mid)
    requires InFlight(flight, mid) && Tiles(flight, mid, more, end)
    ensures Tiles(flight, c, rs + more, end)
    decreases |rs|
  {
    if rs == [] {
      assert rs + more == more;
    } else {
      TilesAppend(flight, After(flight, c, rs[0]), rs[1..], mid, more, end);
      assert (rs + more)[1..] == rs[1..] + more;
    }
  }

  lemma {:induction false} TilesInFlight(flight: seq<Outgoing>, c: Cursor, rs: seq<Record>, end: Cursor)
    requires InFlight(flight, c) && Tiles(flight, c, rs, end)
    ensures InFlight(flight, end)
    ensures c.written < end.written || (c.written == end.written && c.offset <= end.offset)
    decreases |rs|
  {
    if rs != [] {
      TilesInFlight(flight, After(flight, c, rs[0]), rs[1..], end);
    }
  }

  lemma {:induction false} TilesSplit(flight: seq<Outgoing>, c: Cursor, rs: seq<Record>, more: seq<Record>, end: Cursor) returns (mid: Cursor)
    requires InFlight(flight, c) && Tiles(flight, c, rs + more, end)
    ensures InFlight(flight, mid) && Tiles(flight, c, rs, mid) && Tiles(flight, mid, more, end)
    decreases |rs|
  {
    if rs == [] {
      assert rs + more == more;
      mid := c;
    } else {
      assert (rs + more)[1..] == rs[1..] + more;
      mid := TilesSplit(flight, After(flight, c, rs[0]), rs[1..], more, end);
    }
  }

  /** An upper bound on the records still to send; every record lowers it. */
  function Left(flight: seq<Outgoing>, c: Cursor): (n: nat)
    requires InFlight(flight, c)
    ensures c.written < |flight| ==> n > 0
    decreases |flight| - c.written
  {
    if c.written == |flight| then 0
    else |flight[c.written].body| - c.offset + 1 + Left(flight, Cursor(c.written + 1, 0))
  }

  lemma AfterLowersLeft(flight: seq<Outgoing>, c: Cursor, r: Record)
    requires InFlight(flight, c) && Continues(flight, c, r)
    ensures var next := After(flight, c, r);
      && Left(flight, next) < Left(flight, c)
      && (next.written > c.written || (next.written == c.written && next.offset > c.offset))
  {
    var next := After(flight, c, r);
    if next.written == c.written {
      assert Left(flight, next) == |flight[c.written].body| - next.offset + 1 + Left(flight, Cursor(c.written + 1, 0));
    }
  }

  /** Records sealed while the counters of an epoch and its predecessor went from `from` to `to`:
      numbers rise within an epoch, and every payload leaves room for its record header. */
  ghost predicate Numbered(rs: seq<Record>, epoch: nat, from: (nat, nat), to: (nat, nat), mtu: nat) {
    && (forall i | 0 <= i < |rs| ::
          && RT_HEADER_LENGTH + |rs[i].payload| <= mtu
          && (|| (rs[i].epoch == epoch && from.0 <= rs[i].num < to.0)
              || (rs[i].epoch + 1 == epoch && from.1 <= rs[i].num < to.1)))
    && (forall i, j | 0 <= i < j < |rs| && rs[i].epoch == rs[j].epoch :: rs[i].num < rs[j].num)
    && from.0 <= to.0 && from.1 <= to.1
  }

  lemma NumberedAppend(rs: seq<Record>, more: seq<Record>, epoch: nat, a: (nat, nat), b: (nat, nat), c: (nat, nat), mtu: nat)
    requires Numbered(rs, epoch, a, b, mtu) && Numbered(more, epoch, b, c, mtu)
    ensures Numbered(rs + more, epoch, a, c, mtu) && Numbered(rs, epoch, a, c, mtu)
  {
  }

  lemma NumberedNothing(epoch: nat, a: (nat, nat), mtu: nat)
    ensures Numbered([], epoch, a, a, mtu)
  {
  }

  lemma NumberedWider(rs: seq<Record>, epoch: nat, a: (nat, nat), b: (nat, nat), small: nat, mtu: nat)
    requires Numbered(rs, epoch, a, b, small) && small <= mtu
    ensures Numbered(rs, epoch, a, b, mtu)
  {
  }

  // ---- What tiling means ----

  /** The bodies of the records sent for message `i`, in the order they were sent. */
  function Collected(flight: seq<Outgoing>, c: Cursor, rs: seq<Record>, end: Cursor, i: nat): seq<byte>
    requires InFlight(flight, c) && Tiles(flight, c, rs, end)
    decreases |rs|
  {
    if rs == [] then []
    else
      (if c.written == i && rs[0].typ == HandshakeRecord then rs[0].payload[HM_HEADER_LENGTH..] else []) +
      Collected(flight, After(flight, c, rs[0]), rs[1..], end, i)
  }

  lemma {:induction false} NothingBehind(flight: seq<Outgoing>, c: Cursor, rs: seq<Record>, end: Cursor, i: nat)
    requires InFlight(flight, c) && Tiles(flight, c, rs, end) && i < c.written
    ensures Collected(flight, c, rs, end, i) == []
    decreases |rs|
  {
    if rs != [] {
      NothingBehind(flight, After(flight, c, rs[0]), rs[1..], end, i);
    }
  }

  /** The fragments of every message passed on the way tile its body: put end to end they are
      the body from where sending stood, each byte once. */
  lemma {:induction false} TilesRebuild(flight: seq<Outgoing>, c: Cursor, rs: seq<Record>, end: Cursor, i: nat)
    requires InFlight(flight, c) && Tiles(flight, c, rs, end)
    requires c.written <= i < end.written && i < |flight|
    ensures Collected(flight, c, rs, end, i) == flight[i].body[if i == c.written then c.offset else 0..]
    decreases |rs|
  {
    hide SerializeHeader;
    if rs != [] {
      var m, next := flight[c.written], After(flight, c, rs[0]);
      if next.written <= i {
        TilesRebuild(flight, next, rs[1..], end, i);
      } else {
        NothingBehind(flight, next, rs[1..], end, i);
      }
      var tail := Collected(flight, next, rs[1..], end, i);
      if i == c.written && !m.isCcs {
        var len := |rs[0].payload| - HM_HEADER_LENGTH;
        var head := rs[0].payload[HM_HEADER_LENGTH..];
        assert head == m.body[c.offset..c.offset + len];
        assert tail == m.body[c.offset + len..];
        assert m.body[c.offset..] == head + tail;
      } else {
        assert Collected(flight, c, rs, end, i) == [] + tail;
      }
    }
  }
}
