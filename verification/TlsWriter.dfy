/** Writing over a TLS connection: the byte queue of ssl_buffer.cc, the flights of s3_both.cc and the
    application data writes of s3_pkt.cc. Whatever the transport does, what it has been given is a
    prefix of the records sealed, in the order of sealing, and the caller's bytes are sealed once each
    and in order. */
module TlsWriter {
  import opened Common

  // ---- The byte queue ----

  const UINT16_MAX := 0xFFFF

  /** SSL3_ALIGN_PAYLOAD. */
  const ALIGN_PAYLOAD := 8

  /** offset_ is a 16-bit field. */
  function Advanced(offset: nat, len: nat): nat {
    (offset + len) % 0x1_0000
  }

  function Zeros(n: nat): (s: seq<byte>)
    ensures |s| == n && forall i | 0 <= i < n :: s[i] == 0
  {
    seq(n, _ => 0)
  }

  /** What a buffer with these bounds hands out after `len` bytes of its contents were consumed. */
  function Left(memory: seq<byte>, offset: nat, size: nat, len: nat): seq<byte>
    requires offset + size <= |memory| && len <= size
  {
    memory[Advanced(offset, len)..Advanced(offset, len) + size - len]
  }

  /** Consuming part of a buffer keeps its place, whatever the part and whatever the memory holds,
      exactly when the contents end within the first 65536 bytes. */
  lemma ConsumesExactly(offset: nat, size: nat, n: nat)
    requires offset <= UINT16_MAX && size <= UINT16_MAX && offset + size <= n
    ensures (forall memory: seq<byte>, len: nat | |memory| == n && len < size ::
              Left(memory, offset, size, len) == memory[offset..offset + size][len..]) <==> offset + size <= 0x1_0000
  {
    if offset + size > 0x1_0000 {
      LosesItsPlace(offset, size, n);
    } else {
      forall memory: seq<byte>, len: nat | |memory| == n && len < size
        ensures Left(memory, offset, size, len) == memory[offset..offset + size][len..]
      {
        assert Advanced(offset, len) == offset + len;
      }
    }
  }

  lemma LosesItsPlace(offset: nat, size: nat, n: nat)
    requires offset <= UINT16_MAX && size <= UINT16_MAX && 0x1_0000 < offset + size <= n
    ensures exists memory: seq<byte>, len: nat ::
      |memory| == n && len < size && Left(memory, offset, size, len) != memory[offset..offset + size][len..]
  {
    var memory, len := Zeros(n)[0x1_0000 := 1], 0x1_0000 - offset;
    assert Advanced(offset, len) == 0;
    assert Left(memory, offset, size, len)[0] == 0;
    assert memory[offset..offset + size][len..][0] == memory[0x1_0000] == 1;
    assert Left(memory, offset, size, len) != memory[offset..offset + size][len..];
  }

  lemma Cut(s: seq<byte>, i: nat, j: nat, k: nat)
    requires i <= j <= k <= |s|
    ensures s[i..j] + s[j..k] == s[i..k]
  {
  }

  lemma Part(s: seq<byte>, i: nat, n: nat, j: nat, k: nat)
    requires i + n <= |s| && j + k <= n
    ensures s[i..i + n][j..j + k] == s[i + j..i + j + k]
  {
    var x, y, z := s[i..i + j], s[i + j..i + j + k], s[i + j + k..i + n];
    Cut(s, i, i + j, i + j + k);
    Cut(s, i, i + j + k, i + n);
    assert s[i..i + n] == x + y + z;
  }

  /** OPENSSL_memcpy. */
  method Copy(dest: array<byte>, at: nat, b: seq<byte>)
    requires at + |b| <= dest.Length
    modifies dest
    ensures dest[at..at + |b|] == b && dest[..at] == old(dest[..at])
  {
    for i := 0 to |b|
      invariant dest[at..at + i] == b[..i] && dest[..at] == old(dest[..at])
    {
      dest[at + i] := b[i];
    }
  }

  class SslBuffer {
    /** What malloc leaves in the memory it returns. */
    const junk: byte
    var buf: array?<byte>
    var offset: nat
    var size: nat
    var cap: nat

    ghost function Frame(): set<object>
      reads this
    {
      {this} + if buf == null then {} else {buf}
    }

    /** Three 16-bit fields, and every access within the memory; nothing about the right place. */
    ghost predicate Valid()
      reads this
    {
      && size <= cap <= UINT16_MAX && offset <= UINT16_MAX
      && (if buf == null then cap == 0 && offset == 0 else offset + cap <= buf.Length)
    }

    /** No part of the capacity is out of reach of a 16-bit offset. */
    ghost predicate Steady()
      reads this
    {
      offset + cap <= 0x1_0000
    }

    ghost function Contents(): (s: seq<byte>)
      requires Valid()
      reads this, buf
      ensures |s| == size
    {
      if buf == null then [] else buf[offset..offset + size]
    }

    constructor (junk: byte)
      ensures Valid() && Steady() && Contents() == [] && buf == null && size == 0 && this.junk == junk
    {
      this.junk := junk;
      buf, offset, size, cap := null, 0, 0, 0;
    }

    method Clear()
      modifies this
      ensures Valid() && Steady() && Contents() == [] && buf == null
    {
      buf, offset, size, cap := null, 0, 0, 0;
    }

    /** `align` is where the allocator's memory makes the record body aligned. */
    method EnsureCap(align: nat, newCap: nat) returns (ok: bool)
      requires Valid() && align < ALIGN_PAYLOAD
      modifies this
      ensures Valid() && Contents() == old(Contents()) && (buf == old(buf) || fresh(buf))
      ensures ok <==> newCap <= 65535
      ensures if ok && old(cap) < newCap then
          cap == newCap && offset == align && buf != null && fresh(buf) && buf.Length == newCap + ALIGN_PAYLOAD - 1
          && (forall k | 0 <= k < align :: buf[k] == junk)
        else cap == old(cap) && offset == old(offset) && buf == old(buf)
    {
      if newCap > UINT16_MAX {
        return false;
      }
      if cap >= newCap {
        return true;
      }
      Grow(align, newCap);
      ok := true;
    }

    /** Allocate, and copy what there is. */
    method Grow(align: nat, newCap: nat)
      requires Valid() && align < ALIGN_PAYLOAD && cap < newCap <= UINT16_MAX
      modifies this`buf, this`offset, this`cap
      ensures Valid() && Contents() == old(Contents()) && fresh(buf) && buf.Length == newCap + ALIGN_PAYLOAD - 1
      ensures cap == newCap && offset == align && forall k | 0 <= k < align :: buf[k] == junk
    {
      var j := junk;
      var newBuf := new byte[newCap + ALIGN_PAYLOAD - 1](_ => j);
      if buf != null {
        Copy(newBuf, align, buf[offset..offset + size]);
      }
      assert forall k | 0 <= k < align :: newBuf[..align][k] == j;
      buf, offset, cap := newBuf, align, newCap;
    }

    /** Copy into the remaining space, and DidWrite. */
    method Append(b: seq<byte>)
      requires Valid() && |b| <= cap - size && buf != null
      modifies this`size, buf
      ensures Valid() && Contents() == old(Contents()) + b && buf[..offset] == old(buf[..offset])
    {
      ghost var before := Contents();
      Copy(buf, offset + size, b);
      Cut(buf[..], offset, offset + size, offset + size + |b|);
      assert buf[offset..offset + size] == buf[..offset + size][offset..] == before;
      assert buf[..offset] == buf[..offset + size][..offset];
      size := size + |b|;
    }

    /** The rest of the contents is what is left, if the contents end within 65536 bytes; and only
        then whatever the memory holds (ConsumesExactly). */
    method Consume(len: nat)
      requires Valid() && len <= size
      modifies this`offset, this`size, this`cap
      ensures Valid() && offset == Advanced(old(offset), len) && size == old(size) - len && cap == old(cap) - len
      ensures old(offset) + old(size) <= 0x1_0000 ==> Contents() == old(Contents())[len..]
      ensures old(Steady()) ==> Steady()
    {
      if offset + size <= 0x1_0000 && len < size {
        Part(buf[..], offset, size, len, size - len);
        assert Advanced(offset, len) == offset + len;
      }
      offset := Advanced(offset, len);
      size := size - len;
      cap := cap - len;
    }
  }

  /** EnsureCap admits capacities of up to 65535 beside an alignment of up to seven bytes, and such a
      buffer can lose its place: one byte is left, and it hands out another. */
  method LargestBufferLosesItsPlace(b: seq<byte>) returns (q: SslBuffer)
    requires |b| == 65530 && b[65529] != 0
    ensures q.Valid() && q.Contents() == [0] && b[65529..] != [0]
  {
    q := new SslBuffer(0);
    var ok := q.EnsureCap(7, 65530);
    q.Append(b);
    assert q.offset == 7 && q.size == 65530 && q.buf[..7][0] == 0;
    q.Consume(65529);
    assert q.offset == 0 && q.size == 1 && q.buf[0] == 0;
    assert b[65529..] == [b[65529]];
  }

  // ---- Records ----

  /** The AEAD, at a sequence number and for a content type; none if it fails. */
  type Seal = (nat, nat, seq<byte>) -> Option<seq<byte>>

  const CHANGE_CIPHER_SPEC := 20
  const HANDSHAKE := 22
  const APPLICATION_DATA := 23

  const MAX_PLAIN_LENGTH := 16384

  /** A record that was sealed: its content type and its plaintext. */
  datatype Rec = Rec(typ: nat, chunk: seq<byte>)

  function SealedAs(seal: Seal, n: nat, r: Rec): seq<byte> {
    if seal(n, r.typ, r.chunk).Some? then seal(n, r.typ, r.chunk).value else []
  }

  /** The records of a log, sealed with the numbers 0, 1, 2 and so on, one after the other. */
  function Records(seal: Seal, log: seq<Rec>): seq<byte> {
    if log == [] then [] else Records(seal, log[..|log| - 1]) + SealedAs(seal, |log| - 1, log[|log| - 1])
  }

  /** The plaintext of the records of one type. */
  function Plaintext(typ: nat, log: seq<Rec>): seq<byte> {
    if log == [] then []
    else Plaintext(typ, log[..|log| - 1]) + if log[|log| - 1].typ == typ then log[|log| - 1].chunk else []
  }

  lemma OneMore(seal: Seal, typ: nat, log: seq<Rec>, r: Rec)
    ensures Records(seal, log + [r]) == Records(seal, log) + SealedAs(seal, |log|, r)
    ensures Plaintext(typ, log + [r]) == Plaintext(typ, log) + if r.typ == typ then r.chunk else []
  {
    assert (log + [r])[..|log|] == log;
  }

  /** How a message is cut into records: at least one, and none but the last is short. */
  function Pieces(typ: nat, msg: seq<byte>, max: nat): (pieces: seq<Rec>)
    requires max > 0
    ensures pieces != []
  {
    if |msg| <= max then [Rec(typ, msg)] else [Rec(typ, msg[..max])] + Pieces(typ, msg[max..], max)
  }

  lemma FirstPiece(typ: nat, rest: seq<byte>, max: nat, done: seq<Rec>)
    requires max > 0
    ensures if |rest| <= max then Pieces(typ, rest, max) == [Rec(typ, rest[..|rest|])]
      else done + Pieces(typ, rest, max) == done + [Rec(typ, rest[..max])] + Pieces(typ, rest[max..], max)
    ensures Pieces(typ, rest, max)[0] == Rec(typ, rest[..if |rest| > max then max else |rest|])
  {
    assert rest[..|rest|] == rest;
  }

  lemma NotAll(done: seq<Rec>, typ: nat, rest: seq<byte>, max: nat)
    requires max > 0
    ensures done < done + Pieces(typ, rest, max)
  {
  }

  lemma {:induction false} PlaintextConcat(typ: nat, a: seq<Rec>, b: seq<Rec>)
    ensures Plaintext(typ, a + b) == Plaintext(typ, a) + Plaintext(typ, b)
    decreases |b|
  {
    if b == [] {
      assert a + [] == a;
    } else {
      var n := |b| - 1;
      assert (a + b)[..|a + b| - 1] == a + b[..n];
      PlaintextConcat(typ, a, b[..n]);
    }
  }

  /** The pieces are the message: nothing lost, repeated or reordered, and each fits a record. */
  lemma {:induction false} PiecesRebuild(typ: nat, msg: seq<byte>, max: nat)
    requires max > 0
    ensures Plaintext(typ, Pieces(typ, msg, max)) == msg
    ensures forall r <- Pieces(typ, msg, max) :: r.typ == typ && |r.chunk| <= max
    ensures forall k | 0 <= k < |Pieces(typ, msg, max)| - 1 :: |Pieces(typ, msg, max)[k].chunk| == max
    ensures |Pieces(typ, msg, max)| > 1 ==> Pieces(typ, msg, max)[|Pieces(typ, msg, max)| - 1].chunk != []
    decreases |msg|
  {
    hide Plaintext;
    if |msg| <= max {
      OnePiece(typ, msg);
    } else {
      PiecesRebuild(typ, msg[max..], max);
      OnePiece(typ, msg[..max]);
      PlaintextConcat(typ, [Rec(typ, msg[..max])], Pieces(typ, msg[max..], max));
      assert msg[..max] + msg[max..] == msg;
    }
  }

  lemma OnePiece(typ: nat, chunk: seq<byte>)
    ensures Plaintext(typ, [Rec(typ, chunk)]) == chunk
  {
    assert [Rec(typ, chunk)][..0] == [];
  }

  // ---- The write half of a connection ----

  lemma Moved(w: seq<byte>, c: seq<byte>, k: nat, f: seq<byte>)
    requires k <= |c|
    ensures w + c[..k] + c[k..] + f == w + c + f
  {
    assert c[..k] + c[k..] == c;
    assert w + c[..k] + c[k..] == w + (c[..k] + c[k..]);
  }

  lemma MovedFlight(w: seq<byte>, c: seq<byte>, f: seq<byte>, k: nat)
    requires c == [] && k <= |f|
    ensures w + f[..k] + c + f[k..] == w + c + f
  {
    Moved(w, f, k, []);
  }

  lemma Appended(w: seq<byte>, c: seq<byte>, r: seq<byte>)
    ensures w + (c + r) + [] == w + c + [] + r
  {
  }

  lemma Behind(w: seq<byte>, c: seq<byte>, f: seq<byte>, r: seq<byte>)
    ensures w + c + (f + r) == w + c + f + r
  {
  }

  lemma Prefixed(w: seq<byte>, c: seq<byte>, f: seq<byte>)
    requires c == []
    ensures w + (c + f) + [] == w + c + f
  {
  }

  /** A buffer for a record of up to `n` bytes behind `flightLen` is refused, or within reach. */
  predicate Fits(align: nat, n: nat, overhead: nat, flightLen: nat) {
    n + overhead + flightLen <= UINT16_MAX ==> align + n + overhead + flightLen <= 0x1_0000
  }

  /** So is every record, behind what is left of the flight. */
  predicate Roomy(align: nat, maxFragment: nat, overhead: nat, flightLen: nat) {
    forall n | 0 < n <= maxFragment :: Fits(align, n, overhead, flightLen)
  }

  /** Only a flight of nearly 64 KiB in front of application data can be in the way. */
  lemma SmallFlightsAreRoomy(align: nat, maxFragment: nat, overhead: nat, flightLen: nat)
    ensures align + maxFragment + overhead + flightLen <= 0x1_0000 ==> Roomy(align, maxFragment, overhead, flightLen)
  {
  }

  class Writer {
    const writeBuffer: SslBuffer
    const maxFragment: nat
    const maxOverhead: nat
    const partialWrite: bool
    const acceptMovingBuffer: bool
    const seal: Seal
    const bio: nat -> int
    var attempts: nat
    var writeSequence: nat
    var flight: Option<seq<byte>>
    var flightOffset: nat
    var wnum: nat
    var wpendPending: bool
    var wpendTot: nat
    var wpendBuf: nat
    var wpendRet: nat

    /** What the transport has been given, and what has been sealed. */
    ghost var wire: seq<byte>
    ghost var log: seq<Rec>

    constructor (maxFragment: nat, maxOverhead: nat, partialWrite: bool, acceptMovingBuffer: bool, seal: Seal, bio: nat -> int, junk: byte)
      requires 0 < maxFragment <= MAX_PLAIN_LENGTH && maxFragment + maxOverhead + ALIGN_PAYLOAD <= UINT16_MAX
      requires forall n, t, b :: seal(n, t, b).Some? ==> |seal(n, t, b).value| <= |b| + maxOverhead
      ensures Valid() && InOrder() && fresh(writeBuffer) && writeBuffer.buf == null && writeBuffer.size == 0 && wire == [] && log == []
      ensures wnum == 0 && !wpendPending && flight.None? && attempts == 0
      ensures this.maxFragment == maxFragment && this.maxOverhead == maxOverhead && this.partialWrite == partialWrite
      ensures this.acceptMovingBuffer == acceptMovingBuffer && this.seal == seal && this.bio == bio
    {
      writeBuffer := new SslBuffer(junk);
      this.maxFragment, this.maxOverhead, this.partialWrite := maxFragment, maxOverhead, partialWrite;
      this.acceptMovingBuffer, this.seal, this.bio := acceptMovingBuffer, seal, bio;
      attempts, writeSequence, flight, flightOffset := 0, 0, None, 0;
      wnum, wpendPending, wpendTot, wpendBuf, wpendRet := 0, false, 0, 0, 0;
      wire, log := [], [];
    }

    ghost function Frame(): set<object>
      reads this, writeBuffer
    {
      {this} + writeBuffer.Frame()
    }

    ghost function FlightRest(): seq<byte>
      requires flight.Some? ==> flightOffset <= |flight.value|
      reads this`flight, this`flightOffset
    {
      if flight.None? then [] else flight.value[flightOffset..]
    }

    ghost predicate BoundedOverhead() {
      forall n, t, b :: seal(n, t, b).Some? ==> |seal(n, t, b).value| <= |b| + maxOverhead
    }

    lemma RecordFits(n: nat, typ: nat, chunk: seq<byte>)
      requires BoundedOverhead() && seal(n, typ, chunk).Some?
      ensures |seal(n, typ, chunk).value| <= |chunk| + maxOverhead
    {
    }

    ghost predicate Valid()
      reads this, writeBuffer
    {
      && writeBuffer.Valid() && 0 < maxFragment <= MAX_PLAIN_LENGTH && maxFragment + maxOverhead + ALIGN_PAYLOAD <= UINT16_MAX
      && BoundedOverhead() && writeSequence == |log|
      && (flight.Some? ==> flightOffset <= |flight.value|) && (flight.None? ==> flightOffset == 0)
      && (wpendPending ==> wpendTot == wpendRet > 0)
    }

    /** The records sealed have been given to the transport, or are in the write buffer, or in the
        flight after it: in that order; and the write buffer is within reach. */
    ghost predicate InOrder()
      requires writeBuffer.Valid() && (flight.Some? ==> flightOffset <= |flight.value|)
      reads this`log, this`wire, this`flight, this`flightOffset, writeBuffer, writeBuffer.buf
    {
      Records(seal, log) == wire + writeBuffer.Contents() + FlightRest() && writeBuffer.Steady()
    }

    function PendingLength(): nat
      reads this`wpendPending, this`wpendTot
    {
      if wpendPending then wpendTot else 0
    }

    ghost function AppData(): seq<byte>
      reads this`log
    {
      Plaintext(APPLICATION_DATA, log)
    }

    /** What the transport has been given is a prefix of the records, in the order of sealing; and all
        of them once nothing is waiting. */
    lemma WireIsPrefix()
      requires Valid() && InOrder()
      ensures wire <= Records(seal, log)
      ensures writeBuffer.Contents() == [] && flight.None? ==> wire == Records(seal, log)
    {
      assert Records(seal, log)[..|wire|] == wire;
    }

    /** BIO_write: the transport takes none or some of the bytes. */
    method BioWrite(b: seq<byte>) returns (ret: int)
      requires b != []
      modifies this`attempts, this`wire
      ensures ret <= |b| && wire == if ret > 0 then old(wire) + b[..ret] else old(wire)
      ensures attempts == old(attempts) + 1 && ret == if bio(old(attempts)) > |b| then |b| else bio(old(attempts))
    {
      ret := if bio(attempts) > |b| then |b| else bio(attempts);
      attempts := attempts + 1;
      if ret > 0 {
        wire := wire + b[..ret];
      }
    }

    /** What becomes of `n` bytes offered from attempt `a` on: the attempt at which the transport refuses
        or nothing is left, and what is left then. */
    ghost function Drain(a: nat, n: nat): (r: (nat, nat))
      ensures a <= r.0 && r.1 <= n
      decreases n
    {
      if n == 0 || bio(a) <= 0 then (a, n) else Drain(a + 1, if bio(a) >= n then 0 else n - bio(a))
    }

    lemma DrainStep(a: nat, n: nat)
      ensures Drain(a, 0) == (a, 0)
      ensures bio(a) <= 0 ==> Drain(a, n) == (a, n)
      ensures n > 0 && bio(a) > 0 ==> Drain(a, n) == Drain(a + 1, if bio(a) >= n then 0 else n - bio(a))
    {
    }

    lemma {:induction false} DrainMeans(a: nat, n: nat)
      ensures Drain(a, n).1 > 0 ==> bio(Drain(a, n).0) <= 0
      ensures forall k | a <= k < Drain(a, n).0 :: bio(k) > 0
      decreases n
    {
      if n > 0 && bio(a) > 0 {
        DrainMeans(a + 1, if bio(a) >= n then 0 else n - bio(a));
      }
    }

    /** How much of `n` bytes the transport takes at attempt `a`. */
    function Taken(a: nat, n: nat): nat {
      if bio(a) <= 0 then 0 else if bio(a) > n then n else bio(a)
    }

    /** One turn of the loop in tls_write_buffer_flush. */
    method OfferBuffer() returns (ret: int)
      requires Valid() && writeBuffer.size > 0
      modifies this`attempts, this`wire, writeBuffer`offset, writeBuffer`size, writeBuffer`cap
      ensures Valid() && (old(InOrder()) ==> InOrder()) && attempts == old(attempts) + 1
      ensures (ret > 0 <==> bio(old(attempts)) > 0) && writeBuffer.size == old(writeBuffer.size - Taken(attempts, writeBuffer.size))
      ensures |wire| == |old(wire)| + old(writeBuffer.size) - writeBuffer.size
    {
      hide BoundedOverhead, Records;
      ghost var before, contents := wire, writeBuffer.Contents();
      ret := BioWrite(writeBuffer.buf[writeBuffer.offset..writeBuffer.offset + writeBuffer.size]);
      if ret > 0 {
        Moved(before, contents, ret, FlightRest());
        writeBuffer.Consume(ret);
      }
    }

    method ClearBuffer()
      requires Valid() && writeBuffer.size == 0
      modifies writeBuffer
      ensures Valid() && (old(InOrder()) ==> InOrder()) && writeBuffer.buf == null && writeBuffer.size == 0
    {
      hide BoundedOverhead, Records;
      assert writeBuffer.Contents() == [];
      writeBuffer.Clear();
    }

    /** tls_write_buffer_flush: until all is taken or the transport refuses. */
    method FlushBuffer() returns (ret: int)
      requires Valid()
      modifies this`attempts, this`wire, writeBuffer
      ensures Valid() && (writeBuffer.buf == old(writeBuffer.buf) || writeBuffer.buf == null)
      ensures old(InOrder()) ==> InOrder()
      ensures old(writeBuffer.size) > 0 && AllOrNothing() ==>
        attempts == old(attempts) + 1 && (ret > 0 <==> bio(old(attempts)) > 0)
      ensures var (a, left) := old(Drain(attempts, writeBuffer.size));
        && (ret > 0 <==> left == 0) && writeBuffer.size == left && attempts == (if left > 0 then a + 1 else a)
        && |wire| == |old(wire)| + old(writeBuffer.size) - left
    {
      hide BoundedOverhead, Records, Drain, InOrder;
      while writeBuffer.size > 0
        invariant Valid() && writeBuffer.buf == old(writeBuffer.buf) && writeBuffer.size <= old(writeBuffer.size)
        invariant old(InOrder()) ==> InOrder()
        invariant Drain(attempts, writeBuffer.size) == old(Drain(attempts, writeBuffer.size))
        invariant |wire| + writeBuffer.size == |old(wire)| + old(writeBuffer.size)
        invariant AllOrNothing() && old(writeBuffer.size) > 0 ==>
          if writeBuffer.size > 0 then attempts == old(attempts) else attempts == old(attempts) + 1 && bio(old(attempts)) > 0
        decreases writeBuffer.size
      {
        DrainStep(attempts, writeBuffer.size);
        ret := OfferBuffer();
        if ret <= 0 {
          return;
        }
      }
      DrainStep(attempts, 0);
      ClearBuffer();
      ret := 1;
    }

    /** A transport that takes all it is offered, or nothing. */
    ghost predicate AllOrNothing() {
      forall k :: bio(k) <= 0 || bio(k) > UINT16_MAX
    }

    // ---- Flights ----

    /** tls_seal_record, as far as the log is concerned. */
    lemma Logged(r: Rec, before: seq<byte>)
      requires Records(seal, log) == before
      ensures Records(seal, log + [r]) == before + SealedAs(seal, |log|, r)
    {
      OneMore(seal, 0, log, r);
    }

    /** add_record_to_flight; never while the flight is being written out. */
    method AddRecordToFlight(typ: nat, chunk: seq<byte>) returns (ok: bool)
      requires Valid() && flightOffset == 0
      modifies this`flight, this`writeSequence, this`log
      ensures Valid() && flightOffset == 0 && (old(InOrder()) ==> InOrder())
      ensures ok <==> seal(old(writeSequence), typ, chunk).Some?
      ensures log == if ok then old(log) + [Rec(typ, chunk)] else old(log)
      ensures FlightRest() == if ok then old(FlightRest()) + seal(old(writeSequence), typ, chunk).value else old(FlightRest())
    {
      hide BoundedOverhead, Records;
      var before := if flight.None? then [] else flight.value;
      flight := Some(before);
      var record := seal(writeSequence, typ, chunk);
      if record.None? {
        return false;
      }
      Logged(Rec(typ, chunk), Records(seal, log));
      Behind(wire, writeBuffer.Contents(), before, record.value);
      writeSequence := writeSequence + 1;
      flight := Some(before + record.value);
      log := log + [Rec(typ, chunk)];
      ok := true;
    }

    /** Sealing these records one after another, from number `n` on, never fails. */
    ghost predicate AllSeal(n: nat, recs: seq<Rec>) {
      forall k | 0 <= k < |recs| :: seal(n + k, recs[k].typ, recs[k].chunk).Some?
    }

    lemma NothingToSeal(n: nat)
      ensures AllSeal(n, [])
    {
    }

    lemma SealsOneMore(n: nat, done: seq<Rec>, r: Rec)
      requires AllSeal(n, done) && seal(n + |done|, r.typ, r.chunk).Some?
      ensures AllSeal(n, done + [r])
    {
    }

    lemma SealsNoFurther(n: nat, done: seq<Rec>, more: seq<Rec>)
      requires more != [] && seal(n + |done|, more[0].typ, more[0].chunk).None?
      ensures !AllSeal(n, done + more)
    {
      assert (done + more)[|done|] == more[0];
    }

    /** ssl3_add_message: one record per fragment, and one even for an empty message. */
    method AddMessage(msg: seq<byte>) returns (ok: bool)
      requires Valid() && flightOffset == 0
      modifies this`flight, this`writeSequence, this`log
      ensures Valid() && flightOffset == 0 && (old(InOrder()) ==> InOrder())
      ensures old(log) <= log <= old(log) + Pieces(22, msg, maxFragment)
      ensures ok <==> log == old(log) + Pieces(22, msg, maxFragment)
      ensures ok <==> AllSeal(old(|log|), Pieces(22, msg, maxFragment))
    {
      hide BoundedOverhead, InOrder, SslBuffer.Valid, SslBuffer.Contents, Pieces, AllSeal, Records, FlightRest;
      NothingToSeal(|log|);
      var rest := msg;
      ghost var done: seq<Rec> := [];
      ok := true;
      while true
        invariant Valid() && flightOffset == 0 && (old(InOrder()) ==> InOrder())
        invariant log == old(log) + done && Pieces(HANDSHAKE, msg, maxFragment) == done + Pieces(HANDSHAKE, rest, maxFragment)
        invariant AllSeal(old(|log|), done)
        decreases |rest|
      {
        var size := if |rest| > maxFragment then maxFragment else |rest|;
        ok := AddRecordToFlight(HANDSHAKE, rest[..size]);
        FirstPiece(HANDSHAKE, rest, maxFragment, done);
        if !ok {
          NotAll(done, HANDSHAKE, rest, maxFragment);
          SealsNoFurther(old(|log|), done, Pieces(HANDSHAKE, rest, maxFragment));
          return;
        }
        SealsOneMore(old(|log|), done, Rec(HANDSHAKE, rest[..size]));
        done := done + [Rec(HANDSHAKE, rest[..size])];
        if size == |rest| {
          return;
        }
        rest := rest[size..];
      }
    }

    /** ssl3_add_change_cipher_spec. */
    method AddChangeCipherSpec() returns (ok: bool)
      requires Valid() && flightOffset == 0
      modifies this`flight, this`writeSequence, this`log
      ensures Valid() && flightOffset == 0 && (old(InOrder()) ==> InOrder())
      ensures log == if ok then old(log) + [Rec(20, [1])] else old(log)
      ensures ok <==> seal(old(writeSequence), 20, [1]).Some?
    {
      ok := AddRecordToFlight(CHANGE_CIPHER_SPEC, [1]);
    }

    /** One turn of the loop in ssl3_flush_flight. */
    method OfferFlight() returns (ret: int)
      requires Valid() && flight.Some? && writeBuffer.size == 0 && flightOffset < |flight.value|
      modifies this`attempts, this`wire, this`flightOffset
      ensures Valid() && (old(InOrder()) ==> InOrder()) && attempts == old(attempts) + 1 && (ret > 0 <==> bio(old(attempts)) > 0)
      ensures flightOffset == old(flightOffset + Taken(attempts, |flight.value| - flightOffset))
      ensures |wire| == |old(wire)| + flightOffset - old(flightOffset)
    {
      hide BoundedOverhead, SslBuffer.Contents, SslBuffer.Valid, Records;
      ghost var before, from := wire, flightOffset;
      ret := BioWrite(flight.value[flightOffset..]);
      if ret > 0 {
        flightOffset := flightOffset + ret;
        FlightMoved(before, from);
      }
    }

    /** The loop of ssl3_flush_flight: until all is taken or the transport refuses. */
    method WriteFlight() returns (ret: int)
      requires Valid() && flight.Some? && writeBuffer.size == 0
      modifies this`attempts, this`wire, this`flightOffset
      ensures Valid() && (old(InOrder()) ==> InOrder())
      ensures var (a, left) := old(Drain(attempts, |flight.value| - flightOffset));
        && (ret > 0 <==> left == 0) && flightOffset + left == |flight.value| && attempts == (if left > 0 then a + 1 else a)
        && |wire| == |old(wire)| + flightOffset - old(flightOffset)
    {
      hide BoundedOverhead, SslBuffer.Contents, SslBuffer.Valid, Records, Drain, InOrder;
      while flightOffset < |flight.value|
        invariant Valid() && (old(InOrder()) ==> InOrder()) && flightOffset >= old(flightOffset)
        invariant Drain(attempts, |flight.value| - flightOffset) == old(Drain(attempts, |flight.value| - flightOffset))
        invariant |wire| == |old(wire)| + flightOffset - old(flightOffset)
        decreases |flight.value| - flightOffset
      {
        DrainStep(attempts, |flight.value| - flightOffset);
        ret := OfferFlight();
        if ret <= 0 {
          return;
        }
      }
      DrainStep(attempts, 0);
      ret := 1;
    }

    lemma FlightMoved(before: seq<byte>, from: nat)
      requires writeBuffer.Valid() && writeBuffer.size == 0 && flight.Some? && from <= flightOffset <= |flight.value|
      requires wire == before + flight.value[from..][..flightOffset - from]
      ensures Records(seal, log) == before + writeBuffer.Contents() + flight.value[from..] ==>
        Records(seal, log) == wire + writeBuffer.Contents() + FlightRest()
    {
      MovedFlight(before, writeBuffer.Contents(), flight.value[from..], flightOffset - from);
    }

    method DropFlight()
      requires Valid() && writeBuffer.size == 0 && flight.Some? && flightOffset == |flight.value|
      modifies this`flight, this`flightOffset
      ensures Valid() && flight.None? && (old(InOrder()) ==> InOrder() && wire == Records(seal, log))
    {
      hide BoundedOverhead, Records;
      assert writeBuffer.Contents() == [] && FlightRest() == [];
      assert wire + [] + [] == wire;
      flight, flightOffset := None, 0;
    }

    /** The flight behind an empty write buffer, and the transport's own flush. */
    method WriteAndFlush() returns (ret: int)
      requires Valid() && flight.Some? && writeBuffer.size == 0
      modifies this`attempts, this`wire, this`flight, this`flightOffset
      ensures Valid() && (old(InOrder()) ==> InOrder() && (ret > 0 ==> wire == Records(seal, log)))
      ensures Flushed(old(attempts), ret)
    {
      hide BoundedOverhead, SslBuffer.Valid, Records, Drain, InOrder;
      ret := WriteFlight();
      if ret <= 0 {
        return;
      }
      var flushed := bio(attempts);
      attempts := attempts + 1;
      if flushed <= 0 {
        return -1;
      }
      DropFlight();
      ret := 1;
    }

    /** How far a flush of the flight alone got, from attempt `a` on. */
    twostate predicate Flushed(a: nat, ret: int)
      requires old(flight).Some? && old(flightOffset) <= |old(flight).value|
      reads this
    {
      var n := |old(flight).value| - old(flightOffset);
      var (b, rest) := Drain(a, n);
      && attempts == b + 1 && |wire| == |old(wire)| + n - rest && (ret > 0 <==> rest == 0 && bio(b) > 0)
      && (if ret > 0 then flight.None? else flight == old(flight) && flightOffset + rest == |flight.value|)
    }

    /** ssl3_flush_flight: the write buffer first, then the flight, and then the transport's own flush. It
        fails only where the transport refuses, having given it everything up to there. */
    method FlushFlight() returns (ret: int)
      requires Valid()
      modifies this`attempts, this`wire, this`flight, this`flightOffset, writeBuffer
      ensures Valid() && (old(InOrder()) ==> InOrder())
      ensures writeBuffer.buf == old(writeBuffer.buf) || writeBuffer.buf == null
      ensures ret > 0 <==> flight.None?
      ensures ret <= 0 ==> attempts > old(attempts) && bio(attempts - 1) <= 0
      ensures forall k | old(attempts) <= k < attempts - 1 :: bio(k) > 0
      ensures old(flight).Some? ==> FlushedBoth(old(Drain(attempts, writeBuffer.size)), ret)
      ensures ret > 0 && old(flight).Some? && old(InOrder()) ==> wire == Records(seal, log)
    {
      hide BoundedOverhead, SslBuffer.Valid, Records, Drain, InOrder;
      if flight.None? {
        return 1;
      }
      DrainMeans(attempts, writeBuffer.size);
      DrainStep(attempts, writeBuffer.size);
      if writeBuffer.size > 0 {
        ret := FlushBuffer();
        if ret <= 0 {
          return;
        }
      }
      DrainMeans(attempts, |flight.value| - flightOffset);
      ret := WriteAndFlush();
    }

    /** How far a flush got: `buffered` is where the write buffer stopped; the flight comes behind it. */
    twostate predicate FlushedBoth(buffered: (nat, nat), ret: int)
      requires old(flight).Some? && old(flightOffset) <= |old(flight).value|
      reads this, writeBuffer
    {
      var (a, left) := buffered;
      var n := |old(flight).value| - old(flightOffset);
      if left > 0 then
        && ret <= 0 && writeBuffer.size == left && flight == old(flight) && flightOffset == old(flightOffset) && attempts == a + 1
        && |wire| == |old(wire)| + old(writeBuffer.size) - left
      else
        var (b, rest) := Drain(a, n);
        && writeBuffer.size == 0 && attempts == b + 1 && |wire| == |old(wire)| + old(writeBuffer.size) + n - rest
        && (ret > 0 <==> rest == 0 && bio(b) > 0)
        && (ret <= 0 ==> flight == old(flight) && flightOffset + rest == |flight.value|)
    }

    // ---- Application data ----

    /** The pending record is taken up again by this call, and the transport takes all of it. */
    ghost predicate GoesOn(chunk: seq<byte>, bufId: nat)
      reads this`attempts, this`wpendTot, this`wpendBuf, writeBuffer`size
    {
      wpendTot <= |chunk| && (acceptMovingBuffer || wpendBuf == bufId) && Drain(attempts, writeBuffer.size).1 == 0
    }

    /** A new record is sealed into an empty buffer, behind the flight, and the transport takes all of it. */
    ghost predicate GoesOut(chunk: seq<byte>)
      requires flight.Some? ==> flightOffset <= |flight.value|
      reads this`attempts, this`writeSequence, this`flight, this`flightOffset
    {
      && CanSeal(chunk)
      && Drain(attempts, |FlightRest()| + |seal(writeSequence, APPLICATION_DATA, chunk).value|).1 == 0
    }

    ghost predicate CanSeal(chunk: seq<byte>)
      requires flight.Some? ==> flightOffset <= |flight.value|
      reads this`writeSequence, this`flight, this`flightOffset
    {
      |chunk| + maxOverhead + |FlightRest()| <= 65535 && seal(writeSequence, APPLICATION_DATA, chunk).Some?
    }

    /** Nothing stands in the way of writing `len` bytes of which `tot` are done. */
    ghost predicate Willing(len: nat, tot: nat, bufId: nat)
      requires tot <= len && (flight.Some? ==> flightOffset <= |flight.value|)
      reads this`wpendPending, this`wpendTot, this`wpendBuf, this`flight, this`flightOffset, writeBuffer`size
    {
      && (forall k :: bio(k) > 0) && (forall n, t, b :: seal(n, t, b).Some?)
      && maxFragment + maxOverhead + |FlightRest()| <= 65535
      && if wpendPending then wpendTot <= NextPiece(len - tot) && (acceptMovingBuffer || wpendBuf == bufId + tot)
         else writeBuffer.size == 0
    }

    /** ssl3_write_pending. */
    method WritePending(chunk: seq<byte>, bufId: nat) returns (ret: int)
      requires Valid() && wpendPending
      modifies this`attempts, this`wire, this`wpendPending, writeBuffer
      ensures Valid() && (old(InOrder()) ==> InOrder())
      ensures writeBuffer.buf == old(writeBuffer.buf) || writeBuffer.buf == null
      ensures if ret > 0 then !wpendPending && ret == wpendRet <= |chunk| && writeBuffer.size == 0 else wpendPending
      ensures ret > 0 <==> old(GoesOn(chunk, bufId))
      ensures old(writeBuffer.size) > 0 && AllOrNothing() && wpendTot <= |chunk| && (acceptMovingBuffer || wpendBuf == bufId) ==>
        attempts == old(attempts) + 1 && (ret > 0 <==> bio(old(attempts)) > 0) && (ret <= 0 ==> writeBuffer.size > 0)
    {
      hide BoundedOverhead, InOrder;
      if wpendTot > |chunk| || (!acceptMovingBuffer && wpendBuf != bufId) {
        return -1;
      }
      ret := FlushBuffer();
      if ret <= 0 {
        return;
      }
      wpendPending := false;
      ret := wpendRet;
    }

    /** What a call for `chunk` has done: a pending record is only flushed; otherwise the chunk is
        sealed once, unless it is refused, and waits until it is flushed. */
    twostate predicate Wrote(chunk: seq<byte>, ret: int)
      reads this
    {
      if old(wpendPending) then
        && log == old(log) && wpendTot == old(wpendTot) && wpendRet == old(wpendRet)
        && (if ret > 0 then !wpendPending && ret == wpendRet <= |chunk| else wpendPending)
      else if ret > 0 then !wpendPending && ret == |chunk| && log == old(log) + [Rec(23, chunk)]
      else if wpendPending then wpendTot == |chunk| && log == old(log) + [Rec(23, chunk)]
      else log == old(log)
    }

    /** Nothing but the transport stands in the way of a chunk. */
    ghost predicate Smooth()
      reads this`flight, this`wpendPending, writeBuffer`size
    {
      && AllOrNothing() && acceptMovingBuffer && !partialWrite && flight.None? && (wpendPending <==> writeBuffer.size > 0)
      && forall n, t, b :: seal(n, t, b).Some? && seal(n, t, b).value != []
    }

    /** Then one attempt is made, and its outcome is the transport's. */
    twostate predicate Attempted(chunk: seq<byte>, ret: int)
      reads this, writeBuffer
    {
      && attempts == old(attempts) + 1 && (ret > 0 <==> bio(old(attempts)) > 0) && flight.None?
      && (if ret > 0 then writeBuffer.size == 0 else wpendPending && writeBuffer.size > 0)
    }

    /** do_ssl3_write, for application data. */
    method DoWrite(chunk: seq<byte>, bufId: nat, align: nat) returns (ret: int)
      requires Valid() && |chunk| <= maxFragment && align < ALIGN_PAYLOAD
      modifies Frame()
      ensures Valid() && fresh(Frame() - old(Frame())) && wnum == old(wnum) && Wrote(chunk, ret)
      ensures old(InOrder()) && Roomy(align, maxFragment, maxOverhead, old(|FlightRest()|)) ==> InOrder()
      ensures |FlightRest()| == old(|FlightRest()|) || |FlightRest()| == 0
      ensures ret > 0 ==> writeBuffer.size == 0
      ensures old(Smooth()) && 0 < |chunk| && (old(wpendPending) ==> old(wpendTot) <= |chunk|) ==> Attempted(chunk, ret)
      ensures ret > 0 <==> if old(wpendPending) then old(GoesOn(chunk, bufId))
        else chunk != [] && old(writeBuffer.size) == 0 && old(GoesOut(chunk))
    {
      hide BoundedOverhead, Roomy, InOrder;
      if wpendPending {
        ret := WritePending(chunk, bufId);
        return;
      }
      if |chunk| > MAX_PLAIN_LENGTH || writeBuffer.size > 0 {
        return -1;
      }
      if |chunk| == 0 {
        return 0;
      }
      ret := WriteFresh(chunk, bufId, align);
    }

    /** The part of do_ssl3_write that seals a new record. */
    method WriteFresh(chunk: seq<byte>, bufId: nat, align: nat) returns (ret: int)
      requires Valid() && writeBuffer.size == 0 && !wpendPending && 0 < |chunk| <= maxFragment && align < ALIGN_PAYLOAD
      modifies Frame()
      ensures Valid() && fresh(Frame() - old(Frame())) && wnum == old(wnum) && Wrote(chunk, ret)
      ensures old(InOrder()) && Roomy(align, maxFragment, maxOverhead, old(|FlightRest()|)) ==> InOrder()
      ensures |FlightRest()| == old(|FlightRest()|) || |FlightRest()| == 0
      ensures ret > 0 ==> writeBuffer.size == 0
      ensures old(Smooth()) ==> Attempted(chunk, ret)
      ensures ret > 0 <==> old(GoesOut(chunk))
    {
      hide BoundedOverhead, Roomy, InOrder, AllOrNothing, SslBuffer.Valid, Drain;
      var ok := Prepare(chunk, align);
      if !ok {
        return -1;
      }
      ret := WriteNow(chunk, bufId);
    }

    /** The new record waits until it is flushed. */
    method WriteNow(chunk: seq<byte>, bufId: nat) returns (ret: int)
      requires Valid() && !wpendPending && chunk != []
      modifies this`attempts, this`wire, this`wpendPending, this`wpendTot, this`wpendBuf, this`wpendRet, writeBuffer
      ensures Valid() && (old(InOrder()) ==> InOrder())
      ensures writeBuffer.buf == old(writeBuffer.buf) || writeBuffer.buf == null
      ensures if ret > 0 then !wpendPending && ret == |chunk| && writeBuffer.size == 0 else wpendPending && wpendTot == |chunk|
      ensures ret > 0 <==> old(Drain(attempts, writeBuffer.size)).1 == 0
      ensures old(writeBuffer.size) > 0 && AllOrNothing() ==>
        attempts == old(attempts) + 1 && (ret > 0 <==> bio(old(attempts)) > 0) && (ret <= 0 ==> writeBuffer.size > 0)
    {
      hide BoundedOverhead, InOrder, AllOrNothing, Drain, SslBuffer.Valid, Records;
      ghost var inOrder := InOrder();
      wpendTot, wpendBuf, wpendRet, wpendPending := |chunk|, bufId, |chunk|, true;
      assert InOrder() == inOrder;
      ret := WritePending(chunk, bufId);
    }

    /** Everything up to the flush. */
    method Prepare(chunk: seq<byte>, align: nat) returns (ok: bool)
      requires Valid() && writeBuffer.size == 0 && 0 < |chunk| <= maxFragment && align < ALIGN_PAYLOAD
      modifies this`flight, this`flightOffset, this`writeSequence, this`log, writeBuffer, writeBuffer.buf
      ensures Valid() && fresh(Frame() - old(Frame()))
      ensures old(InOrder()) && Roomy(align, maxFragment, maxOverhead, old(|FlightRest()|)) ==> InOrder()
      ensures |FlightRest()| == old(|FlightRest()|) || |FlightRest()| == 0
      ensures log == if ok then old(log) + [Rec(APPLICATION_DATA, chunk)] else old(log)
      ensures old(Smooth()) ==> ok && flight.None? && writeBuffer.size > 0
      ensures ok <==> old(CanSeal(chunk))
      ensures ok ==> writeBuffer.size == old(|FlightRest()| + |seal(writeSequence, APPLICATION_DATA, chunk).value|)
    {
      hide BoundedOverhead, Roomy, InOrder, AllOrNothing;
      ok := MakeRoom(align, |chunk|);
      if ok {
        ok := SealInto(chunk);
      }
    }

    /** EnsureCap, and the unflushed part of the flight as a prefix. */
    method MakeRoom(align: nat, n: nat) returns (ok: bool)
      requires Valid() && writeBuffer.size == 0 && 0 < n <= maxFragment && align < ALIGN_PAYLOAD
      modifies this`flight, this`flightOffset, writeBuffer, writeBuffer.buf
      ensures Valid() && fresh(Frame() - old(Frame()))
      ensures old(InOrder()) && Roomy(align, maxFragment, maxOverhead, old(|FlightRest()|)) ==> InOrder()
      ensures |FlightRest()| == old(|FlightRest()|) || |FlightRest()| == 0
      ensures ok <==> n + maxOverhead + old(|FlightRest()|) <= UINT16_MAX
      ensures ok ==> flight.None? && writeBuffer.buf != null && writeBuffer.cap - writeBuffer.size >= n + maxOverhead
      ensures old(flight).None? ==> flight.None? && writeBuffer.size == 0
      ensures ok ==> writeBuffer.size == old(|FlightRest()|)
    {
      hide BoundedOverhead, Records, SslBuffer.Contents;
      var flightLen := if flight.None? then 0 else |flight.value| - flightOffset;
      ghost var roomy := Roomy(align, maxFragment, maxOverhead, |FlightRest()|);
      assert roomy ==> Fits(align, n, maxOverhead, |FlightRest()|);
      ok := writeBuffer.EnsureCap(align, n + maxOverhead + flightLen);
      if ok && flight.Some? {
        PutFlightFirst();
      }
    }

    method PutFlightFirst()
      requires Valid() && writeBuffer.size == 0 && flight.Some? && writeBuffer.buf != null && |FlightRest()| <= writeBuffer.cap
      modifies this`flight, this`flightOffset, writeBuffer`size, writeBuffer.buf
      ensures Valid() && flight.None? && writeBuffer.size == old(|FlightRest()|) && (old(InOrder()) ==> InOrder())
    {
      hide BoundedOverhead, Records;
      Prefixed(wire, writeBuffer.Contents(), FlightRest());
      writeBuffer.Append(flight.value[flightOffset..]);
      flight, flightOffset := None, 0;
    }

    /** tls_seal_record into the write buffer. */
    method SealInto(chunk: seq<byte>) returns (ok: bool)
      requires Valid() && flight.None? && writeBuffer.buf != null && writeBuffer.cap - writeBuffer.size >= |chunk| + maxOverhead
      modifies this`writeSequence, this`log, writeBuffer`size, writeBuffer.buf
      ensures Valid() && (old(InOrder()) ==> InOrder())
      ensures ok <==> seal(old(writeSequence), APPLICATION_DATA, chunk).Some?
      ensures log == if ok then old(log) + [Rec(APPLICATION_DATA, chunk)] else old(log)
      ensures writeBuffer.size == old(writeBuffer.size) + if ok then |seal(old(writeSequence), APPLICATION_DATA, chunk).value| else 0
    {
      hide BoundedOverhead, Records;
      var record := seal(writeSequence, APPLICATION_DATA, chunk);
      if record.None? {
        return false;
      }
      RecordFits(writeSequence, APPLICATION_DATA, chunk);
      Logged(Rec(APPLICATION_DATA, chunk), Records(seal, log));
      Appended(wire, writeBuffer.Contents(), record.value);
      writeSequence := writeSequence + 1;
      writeBuffer.Append(record.value);
      log := log + [Rec(APPLICATION_DATA, chunk)];
      ok := true;
    }

    /** ssl3_write_app_data, outside early data: what it seals is the next bytes of the input, none
        left out and none twice, from what is sealed already to what it has got to. A call with fewer
        bytes than are done is refused, and forgets how much was done. */
    method WriteAppData(input: seq<byte>, bufId: nat, align: nat) returns (ret: int)
      requires Valid() && align < ALIGN_PAYLOAD
      modifies Frame()
      ensures Valid() && fresh(Frame() - old(Frame()))
      ensures old(InOrder()) && Roomy(align, maxFragment, maxOverhead, old(|FlightRest()|)) ==> InOrder()
      ensures |FlightRest()| == old(|FlightRest()|) || |FlightRest()| == 0
      ensures |input| < old(wnum) ==> ret == -1 && Forgot()
      ensures |input| >= old(wnum) ==>
        SealedPart(old(log), log, input, old(wnum + PendingLength()), if ret > 0 then ret else wnum + PendingLength())
      ensures ret > 0 ==> ret <= |input| && wnum == 0 && !wpendPending && writeBuffer.size == 0
      ensures ret > 0 && !partialWrite ==> ret == |input|
      ensures old(Smooth()) && old(wnum) < |input| && (old(wpendPending) ==> old(wpendTot) == NextPiece(|input| - old(wnum))) ==>
        WentFar(|input|, ret, old(Reach(attempts, wnum, |input|)))
      ensures old(wnum) < |input| && old(Willing(|input|, wnum, bufId)) ==> ret > 0
    {
      hide BoundedOverhead, Roomy, InOrder, SealedPart;
      if |input| < wnum {
        wnum := 0;
        return -1;
      }
      ret := WriteFrom(input, bufId, align);
    }

    /** Only the progress is gone. */
    twostate predicate Forgot()
      reads this, writeBuffer
    {
      && wnum == 0 && log == old(log) && wpendPending == old(wpendPending) && wpendTot == old(wpendTot) && wpendRet == old(wpendRet)
      && wpendBuf == old(wpendBuf) && attempts == old(attempts) && flight == old(flight) && writeBuffer.size == old(writeBuffer.size)
    }

    function NextPiece(n: nat): nat {
      if n > maxFragment then maxFragment else n
    }

    /** How far a smooth call gets: from `tot`, with the transport's answers from the `a`th on. */
    ghost function Reach(a: nat, tot: nat, len: nat): (r: (nat, nat))
      requires maxFragment > 0 && tot <= len
      ensures tot <= r.0 <= len
      decreases len - tot
    {
      if tot == len || bio(a) <= 0 then (tot, a) else Reach(a + 1, tot + NextPiece(len - tot), len)
    }

    /** A smooth call on its way, with `r` before it. */
    ghost predicate Going(tot: nat, len: nat, r: (nat, nat))
      requires maxFragment > 0
      reads this`flight, this`wpendPending, this`wpendTot, this`attempts, writeBuffer`size
    {
      Smooth() && tot < len && (wpendPending ==> wpendTot == NextPiece(len - tot)) && Reach(attempts, tot, len) == r
    }

    lemma SmoothMeans(len: nat, r: (nat, nat))
      requires maxFragment > 0 && wnum <= len && r == Reach(attempts, wnum, len)
      ensures Smooth() && wnum < len && (wpendPending ==> wpendTot == NextPiece(len - wnum)) ==> Going(wnum, len, r)
      ensures Going(wnum, len, r) ==> !partialWrite
    {
    }

    lemma ReachStep(a: nat, tot: nat, len: nat)
      requires maxFragment > 0 && tot <= len
      ensures Reach(a, tot, len) ==
        if tot == len || bio(a) <= 0 then (tot, a) else Reach(a + 1, tot + NextPiece(len - tot), len)
      ensures Reach(a + 1, len, len) == (len, a + 1) && 0 <= NextPiece(len - tot) <= len - tot
    {
    }

    ghost predicate WentFar(len: nat, ret: int, r: (nat, nat))
      requires r.0 <= len
      reads this, writeBuffer
    {
      && Smooth()
      && if r.0 == len then ret == len && wnum == 0 && !wpendPending && attempts == r.1
         else ret <= 0 && wnum == r.0 && wpendPending && wpendTot == NextPiece(len - r.0) && attempts == r.1 + 1
    }

    /** The loop of ssl3_write_app_data. */
    method WriteFrom(input: seq<byte>, bufId: nat, align: nat) returns (ret: int)
      requires Valid() && align < ALIGN_PAYLOAD && wnum <= |input|
      modifies Frame()
      ensures Valid() && fresh(Frame() - old(Frame()))
      ensures old(InOrder()) && Roomy(align, maxFragment, maxOverhead, old(|FlightRest()|)) ==> InOrder()
      ensures |FlightRest()| == old(|FlightRest()|) || |FlightRest()| == 0
      ensures SealedPart(old(log), log, input, old(wnum + PendingLength()), if ret > 0 then ret else wnum + PendingLength())
      ensures ret > 0 ==> ret <= |input| && wnum == 0 && !wpendPending && writeBuffer.size == 0
      ensures ret > 0 && !partialWrite ==> ret == |input|
      ensures old(Smooth()) && old(wnum) < |input| && (old(wpendPending) ==> old(wpendTot) == NextPiece(|input| - old(wnum))) ==>
        WentFar(|input|, ret, old(Reach(attempts, wnum, |input|)))
      ensures old(wnum) < |input| && old(Willing(|input|, wnum, bufId)) ==> ret > 0
    {
      hide BoundedOverhead, Roomy, InOrder, SealedPart, Smooth, Reach, SslBuffer.Valid, Going, Willing;
      ghost var r := Reach(attempts, wnum, |input|);
      ghost var smooth := Going(wnum, |input|, r);
      SmoothMeans(|input|, r);
      ghost var from, flightLen := wnum + PendingLength(), |FlightRest()|;
      var tot: nat := wnum;
      wnum := 0;
      NothingSealed(log, input, from);
      RoomyBehindLess(align, flightLen);
      while true
        invariant Valid() && fresh(Frame() - old(Frame())) && wnum == 0 && tot <= |input|
        invariant old(InOrder()) && Roomy(align, maxFragment, maxOverhead, old(|FlightRest()|)) ==> InOrder()
        invariant |FlightRest()| == flightLen || |FlightRest()| == 0
        invariant SealedPart(old(log), log, input, from, tot + PendingLength())
        invariant smooth ==> Going(tot, |input|, r)
        invariant old(wnum) < |input| && old(Willing(|input|, wnum, bufId)) ==> tot < |input| && Willing(|input|, tot, bufId)
        decreases |input| - tot
      {
        ret := WritePiece(input, tot, bufId, align, old(log), from, r);
        if ret <= 0 {
          wnum := tot;
          return;
        }
        if ret == |input| - tot || partialWrite {
          ret := tot + ret;
          return;
        }
        tot := tot + ret;
      }
    }

    /** A call of do_ssl3_write for the next piece of the input. */
    method WritePiece(input: seq<byte>, tot: nat, bufId: nat, align: nat, ghost before: seq<Rec>, ghost from: nat, ghost r: (nat, nat))
      returns (ret: int)
      requires Valid() && align < ALIGN_PAYLOAD && tot <= |input|
      requires SealedPart(before, log, input, from, tot + PendingLength())
      modifies Frame()
      ensures Valid() && fresh(Frame() - old(Frame())) && wnum == old(wnum)
      ensures old(InOrder()) && Roomy(align, maxFragment, maxOverhead, old(|FlightRest()|)) ==> InOrder()
      ensures |FlightRest()| == old(|FlightRest()|) || |FlightRest()| == 0
      ensures SealedPart(before, log, input, from, tot + (if ret > 0 then ret else 0) + PendingLength())
      ensures ret > 0 ==> !wpendPending && ret <= NextPiece(|input| - tot) && writeBuffer.size == 0
      ensures old(Going(tot, |input|, r)) ==>
        if ret <= 0 then Smooth() && wpendPending && wpendTot == NextPiece(|input| - tot) && r == (tot, attempts - 1)
        else if tot + ret == |input| then Smooth() && r == (|input|, attempts) else Going(tot + ret, |input|, r)
      ensures tot < |input| && old(Willing(|input|, tot, bufId)) ==> ret > 0 && Willing(|input|, tot + ret, bufId)
    {
      hide BoundedOverhead, Roomy, InOrder, SealedPart, AllOrNothing, SslBuffer.Valid, Reach, Drain;
      ReachStep(attempts, tot, |input|);
      if tot < |input| && Willing(|input|, tot, bufId) {
        Drains(input, tot, bufId);
      }
      var nw := NextPiece(|input| - tot);
      if !wpendPending {
        SealedNext(before, log, input, from, tot, nw);
      }
      ret := DoWrite(input[tot..tot + nw], bufId + tot, align);
    }

    lemma Drains(input: seq<byte>, tot: nat, bufId: nat)
      requires Valid() && tot < |input| && Willing(|input|, tot, bufId)
      ensures var chunk := input[tot..tot + NextPiece(|input| - tot)];
        if wpendPending then GoesOn(chunk, bufId + tot) else chunk != [] && GoesOut(chunk)
    {
      var chunk := input[tot..tot + NextPiece(|input| - tot)];
      if wpendPending {
        DrainMeans(attempts, writeBuffer.size);
      } else {
        DrainMeans(attempts, |FlightRest()| + |seal(writeSequence, APPLICATION_DATA, chunk).value|);
      }
    }

    lemma RoomyBehindLess(align: nat, flightLen: nat)
      requires maxFragment + maxOverhead + ALIGN_PAYLOAD <= UINT16_MAX && align < ALIGN_PAYLOAD
      ensures Roomy(align, maxFragment, maxOverhead, 0)
    {
    }
  }

  // ---- What a call seals ----

  /** From `before` to `after` the bytes of the input from `from` to `to` were sealed, as application
      data, each once and in order, and nothing else was. */
  ghost predicate SealedPart(before: seq<Rec>, after: seq<Rec>, input: seq<byte>, from: nat, to: nat) {
    && before <= after && from <= to && (forall k | |before| <= k < |after| :: after[k].typ == APPLICATION_DATA)
    && Plaintext(APPLICATION_DATA, after) == Plaintext(APPLICATION_DATA, before) + (if to <= |input| then input[from..to] else [])
    && (to > |input| ==> to == from)
  }

  lemma NothingSealed(log: seq<Rec>, input: seq<byte>, from: nat)
    ensures SealedPart(log, log, input, from, from)
  {
  }

  lemma SealedNext(before: seq<Rec>, after: seq<Rec>, input: seq<byte>, from: nat, tot: nat, nw: nat)
    requires SealedPart(before, after, input, from, tot) && tot + nw <= |input|
    ensures SealedPart(before, after + [Rec(APPLICATION_DATA, input[tot..tot + nw])], input, from, tot + nw)
  {
    var r := Rec(APPLICATION_DATA, input[tot..tot + nw]);
    OneMore((_, _, _) => None, APPLICATION_DATA, after, r);
    Cut(input, from, tot, tot + nw);
    Assoc(Plaintext(APPLICATION_DATA, before), input[from..tot], r.chunk);
  }

  lemma Assoc(a: seq<byte>, b: seq<byte>, c: seq<byte>)
    ensures a + b + c == a + (b + c)
  {
  }

  // ---- A caller with a stream to write ----

  /** What a caller relies on between calls: of the stream, exactly the bytes reported written, the
      bytes done in the call under way and the pending record have been sealed, once each and in order. */
  ghost predicate ExactlyOnce(stream: seq<byte>, acked: nat, app: seq<byte>, wnum: nat, pending: nat) {
    acked + wnum + pending <= |stream| && app == stream[..acked + wnum + pending]
  }

  /** A call with the next bytes of the stream keeps this exactly if it does not pass fewer bytes than
      are done already. */
  lemma CallKeepsOnce(stream: seq<byte>, acked: nat, before: seq<Rec>, wnum: nat, pending: nat, input: seq<byte>,
                      after: seq<Rec>, ret: int, wnum': nat, pending': nat)
    requires ExactlyOnce(stream, acked, Plaintext(APPLICATION_DATA, before), wnum, pending)
    requires acked + |input| <= |stream| && input == stream[acked..acked + |input|]
    requires ret > 0 ==> wnum' == pending' == 0
    requires if |input| < wnum then ret <= 0 && wnum' == 0 && pending' == pending && after == before
      else SealedPart(before, after, input, wnum + pending, if ret > 0 then ret else wnum' + pending')
    ensures ExactlyOnce(stream, acked + if ret > 0 then ret else 0, Plaintext(APPLICATION_DATA, after), wnum', pending') <==> wnum <= |input|
  {
    if wnum <= |input| {
      var from, to := wnum + pending, if ret > 0 then ret else wnum' + pending';
      if to <= |input| {
        Part(stream, acked, |input|, from, to - from);
        assert stream[..acked + from] + stream[acked + from..acked + to] == stream[..acked + to];
      }
    }
  }

  lemma {:induction false} OtherPlaintext(before: seq<Rec>, after: seq<Rec>)
    requires before <= after && forall k | |before| <= k < |after| :: after[k].typ != APPLICATION_DATA
    ensures Plaintext(APPLICATION_DATA, after) == Plaintext(APPLICATION_DATA, before)
    decreases |after|
  {
    if |before| < |after| {
      OtherPlaintext(before, after[..|after| - 1]);
    } else {
      assert before == after;
    }
  }

  class Caller {
    const w: Writer
    const stream: seq<byte>
    var acked: nat

    ghost predicate Valid()
      reads this, w, w.writeBuffer
    {
      w.Valid() && Once()
    }

    ghost predicate Once()
      reads this, w
    {
      ExactlyOnce(stream, acked, w.AppData(), w.wnum, w.PendingLength())
    }

    constructor (w: Writer, stream: seq<byte>)
      requires w.Valid() && w.log == [] && w.wnum == 0 && !w.wpendPending
      ensures Valid() && this.w == w && this.stream == stream && acked == 0
    {
      this.w, this.stream, acked := w, stream, 0;
    }

    /** Write the next `len` bytes; those reported written are done with. */
    method Write(len: nat, bufId: nat, align: nat) returns (ret: int)
      requires w.Valid() && this !in w.Frame() && Once() && acked + len <= |stream| && align < ALIGN_PAYLOAD
      modifies this`acked, w.Frame()
      ensures w.Valid() && fresh(w.Frame() - old(w.Frame())) && acked == old(acked) + if ret > 0 then ret else 0
      ensures Once() <==> old(w.wnum) <= len
      ensures old(w.InOrder()) && Roomy(align, w.maxFragment, w.maxOverhead, old(|w.FlightRest()|)) ==> w.InOrder()
      ensures |w.FlightRest()| == old(|w.FlightRest()|) || |w.FlightRest()| == 0
    {
      hide Roomy, Writer.InOrder, ExactlyOnce, SealedPart, Writer.WentFar, Writer.Reach, Writer.BoundedOverhead, Plaintext, Writer.Smooth;
      ghost var log, wnum, pending := w.log, w.wnum, w.PendingLength();
      ret := w.WriteAppData(stream[acked..acked + len], bufId, align);
      CallKeepsOnce(stream, acked, log, wnum, pending, stream[acked..acked + len], w.log, ret, w.wnum, w.PendingLength());
      if ret > 0 {
        acked := acked + ret;
      }
    }

    method Queue(msg: seq<byte>)
      requires Valid() && w.InOrder()
      modifies w.Frame()
      ensures Valid() && w.InOrder() && fresh(w.Frame() - old(w.Frame()))
    {
      hide Writer.InOrder, Writer.BoundedOverhead;
      if w.flightOffset == 0 {
        ghost var before := w.log;
        var _ := w.AddMessage(msg);
        PiecesRebuild(HANDSHAKE, msg, w.maxFragment);
        OtherPlaintext(before, w.log);
      }
    }

    method Flush()
      requires Valid() && w.InOrder()
      modifies w.Frame()
      ensures Valid() && w.InOrder() && fresh(w.Frame() - old(w.Frame()))
    {
      hide Writer.InOrder, Writer.BoundedOverhead;
      var _ := w.FlushFlight();
    }

    method WriteSome(len: nat, bufId: nat, align: nat)
      requires Valid() && w.InOrder() && this !in w.Frame()
      modifies this`acked, w.Frame()
      ensures Valid() && w.InOrder() && fresh(w.Frame() - old(w.Frame())) && this !in w.Frame()
    {
      hide Writer.InOrder, Writer.BoundedOverhead, Roomy;
      var waiting := if w.flight.None? then 0 else |w.flight.value| - w.flightOffset;
      if Roomy(align, w.maxFragment, w.maxOverhead, waiting) && w.wnum <= len <= |stream| - acked && align < ALIGN_PAYLOAD {
        var _ := Write(len, bufId, align);
      }
    }

    /** Any run of writes and flights, over any transport, by a caller that does not pass fewer bytes
        than before and, behind a flight not flushed yet, writes only if every record made there stays
        within reach of the offset: what the transport has is a prefix of the records in the order of sealing, and the plaintext of the
        application data records is the stream up to what is done. */
    method Run(ops: seq<Op>)
      requires Valid() && w.InOrder() && this !in w.Frame()
      modifies this`acked, w.Frame()
      ensures Valid() && w.InOrder() && w.wire <= Records(w.seal, w.log)
      ensures w.AppData() == stream[..acked + w.wnum + w.PendingLength()]
    {
      hide Writer.InOrder, Records, Writer.BoundedOverhead;
      for i := 0 to |ops|
        invariant Valid() && w.InOrder() && this !in w.Frame() && fresh(w.Frame() - old(w.Frame()))
      {
        match ops[i]
        case Message(msg) => Queue(msg);
        case Flush => Flush();
        case Write(len, bufId, align) => WriteSome(len, bufId, align);
      }
      w.WireIsPrefix();
    }
  }

  datatype Op = Message(msg: seq<byte>) | Flush | Write(len: nat, bufId: nat, align: nat)

  /** A transport that refuses only its second attempt, and an AEAD that adds one byte: the second
      byte waits, a short call makes the writer forget the first, and the next call seals the second
      byte again. */
  method ShortRetrySealsTwice() returns (w: Writer, stream: seq<byte>)
    ensures stream == [1, 2] && w.AppData() == [1, 2, 2]
  {
    hide Plaintext, Writer.Valid, Writer.InOrder;
    stream := [1, 2];
    w := new Writer(1, 1, false, true, (_, _, b) => Some([0] + b), (k: nat) => if k == 1 then 0 else 0x1_0000, 0);
    NoPlaintext();
    var r := FirstCall(w, stream);
    r := w.WriteAppData([], 0, 0);
    assert w.Reach(2, 0, 2) == (2, 4);
    r := w.WriteAppData(stream, 0, 0);
    assert r == 2 && w.AppData() == [1, 2] + [2];
  }

  method FirstCall(w: Writer, stream: seq<byte>) returns (r: int)
    requires w.Valid() && w.Smooth() && w.maxFragment == 1 && |stream| == 2 && w.log == [] && w.wnum == 0 && !w.wpendPending && w.attempts == 0
    requires w.bio(0) > 0 && w.bio(1) <= 0
    modifies w.Frame()
    ensures w.Valid() && fresh(w.Frame() - old(w.Frame())) && w.Smooth() && w.wnum == w.wpendTot == 1 && w.wpendPending && w.attempts == 2
    ensures w.AppData() == stream && r <= 0
  {
    hide Plaintext, Writer.Valid, Writer.InOrder, Writer.Smooth;
    NoPlaintext();
    assert w.Reach(0, 0, 2) == (1, 1);
    r := w.WriteAppData(stream, 0, 0);
    assert stream[0..2] == stream;
  }

  lemma NoPlaintext()
    ensures Plaintext(APPLICATION_DATA, []) == []
  {
  }
}
