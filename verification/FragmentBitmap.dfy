/** Reassembly of one DTLS handshake message (section 4.2.3 of RFC 6347): the byte mask that
    d1_both.cc keeps in hm_fragment, and the proof that it is a set of offsets. */
module FragmentBitmap {

  import opened Common
  import opened HandshakeWire
  import opened DtlsReceive

  // ---- One byte of the mask ----

  predicate Bit(m: bv8, k: nat)
    requires k < 8
  {
    (m >> k) & 1 == 1
  }

  /** The source computes the mask in 32 bits and truncates it to a byte. */
  function BitRange(start: nat, end: nat): bv8
    requires start <= 8 && end <= 8
  {
    var bits: bv32 := !((1 << start) - 1) & ((1 << end) - 1);
    (bits & 0xFF) as bv8
  }

  lemma BitRangeBit(start: nat, end: nat, k: nat)
    requires start <= 8 && end <= 8 && k < 8
    ensures Bit(BitRange(start, end), k) <==> start <= k < end
  {
  }

  lemma OrBit(a: bv8, b: bv8, k: nat)
    requires k < 8
    ensures Bit(a | b, k) <==> Bit(a, k) || Bit(b, k)
  {
  }

  lemma FullByte(k: nat)
    requires k < 8
    ensures Bit(0xFF, k) && !Bit(0, k)
  {
  }

  lemma SameBits(a: bv8, b: bv8)
    requires forall k: nat | k < 8 :: Bit(a, k) == Bit(b, k)
    ensures a == b
  {
    assert Bit(a, 0) == Bit(b, 0) && Bit(a, 1) == Bit(b, 1) && Bit(a, 2) == Bit(b, 2) && Bit(a, 3) == Bit(b, 3);
    assert Bit(a, 4) == Bit(b, 4) && Bit(a, 5) == Bit(b, 5) && Bit(a, 6) == Bit(b, 6) && Bit(a, 7) == Bit(b, 7);
  }

  // ---- The whole mask as a set of offsets ----

  ghost predicate Represents(mask: seq<bv8>, s: set<nat>) {
    forall i: nat, j: nat | i < |mask| && j < 8 :: Bit(mask[i], j) <==> 8 * i + j in s
  }

  lemma OrByte(mask: seq<bv8>, s: set<nat>, i: nat, start: nat, end: nat)
    requires Represents(mask, s) && i < |mask| && start <= end <= 8
    ensures Represents(mask[i := mask[i] | BitRange(start, end)], s + Range(8 * i + start, 8 * i + end))
  {
    hide Bit, BitRange;
    var wider := mask[i := mask[i] | BitRange(start, end)];
    forall k: nat, j: nat | k < |mask| && j < 8
      ensures Bit(wider[k], j) <==> 8 * k + j in s + Range(8 * i + start, 8 * i + end)
    {
      if k == i {
        OrBit(mask[i], BitRange(start, end), j);
        BitRangeBit(start, end, j);
      }
      assert Bit(mask[k], j) <==> 8 * k + j in s;
    }
  }

  lemma FillByte(mask: seq<bv8>, s: set<nat>, i: nat)
    requires Represents(mask, s) && i < |mask|
    ensures Represents(mask[i := 0xFF], s + Range(8 * i, 8 * i + 8))
  {
    hide Bit;
    var filled := mask[i := 0xFF];
    forall k: nat, j: nat | k < |mask| && j < 8
      ensures Bit(filled[k], j) <==> 8 * k + j in s + Range(8 * i, 8 * i + 8)
    {
      FullByte(j);
      assert Bit(mask[k], j) <==> 8 * k + j in s;
    }
  }

  /** The bytes the completeness test of dtls1_hm_fragment_mark expects. */
  function CompleteByte(msgLen: nat, i: nat): bv8
    requires 8 * i < msgLen
  {
    if i < msgLen / 8 then 0xFF else BitRange(0, msgLen % 8)
  }

  lemma CompleteByteBit(msgLen: nat, i: nat, j: nat)
    requires 8 * i < msgLen && j < 8
    ensures Bit(CompleteByte(msgLen, i), j) <==> 8 * i + j < msgLen
  {
    hide Bit, BitRange;
    FullByte(j);
    BitRangeBit(0, msgLen % 8, j);
  }

  /** One byte passes the completeness test exactly when every offset it covers has arrived. */
  lemma ByteComplete(mask: seq<bv8>, s: set<nat>, msgLen: nat, i: nat)
    requires Represents(mask, s) && i < |mask| && 8 * i < msgLen && s <= Range(0, msgLen)
    ensures mask[i] == CompleteByte(msgLen, i) <==> Range(8 * i, if 8 * i + 8 < msgLen then 8 * i + 8 else msgLen) <= s
  {
    hide Bit, CompleteByte;
    var want := Range(8 * i, if 8 * i + 8 < msgLen then 8 * i + 8 else msgLen);
    forall j: nat | j < 8
      ensures Bit(CompleteByte(msgLen, i), j) <==> 8 * i + j in want
      ensures Bit(mask[i], j) <==> 8 * i + j in s
    {
      CompleteByteBit(msgLen, i, j);
    }
    if want <= s {
      forall j: nat | j < 8
        ensures Bit(mask[i], j) == Bit(CompleteByte(msgLen, i), j)
      {
        if 8 * i + j in s {
          assert 8 * i + j in Range(0, msgLen);
        }
      }
      SameBits(mask[i], CompleteByte(msgLen, i));
    }
    if mask[i] == CompleteByte(msgLen, i) {
      forall k | k in want
        ensures k in s
      {
        var j: nat := k - 8 * i;
        assert Bit(CompleteByte(msgLen, i), j) <==> 8 * i + j in want;
      }
    }
  }

  method OrInto(mask: array<bv8>, ghost s: set<nat>, i: nat, start: nat, end: nat)
    requires Represents(mask[..], s) && i < mask.Length && start <= end <= 8
    modifies mask
    ensures Represents(mask[..], s + Range(8 * i + start, 8 * i + end))
  {
    OrByte(mask[..], s, i, start, end);
    mask[i] := mask[i] | BitRange(start, end);
  }

  // ---- hm_fragment ----

  class HmFragment {
    const typ: byte
    const seqNum: nat
    const msgLen: nat
    /** The message, header included. */
    const data: array<byte>
    /** Null once the message is complete. */
    var reassembly: array?<bv8>
    /** The offsets the mask stands for, and the bytes received at them. */
    ghost var marked: set<nat>
    ghost var got: map<nat, byte>

    ghost function Footprint(): set<object>
      reads this
    {
      {this, data} + if reassembly == null then {} else {reassembly}
    }

    /** The two messages share no storage. */
    ghost predicate Apart(other: HmFragment)
      reads this, other
    {
      && this != other && data != other.data
      && data as object? != other.reassembly && other.data as object? != reassembly
      && (reassembly == null || other.reassembly == null || reassembly != other.reassembly)
    }

    ghost predicate MaskValid()
      reads this, reassembly
    {
      && marked <= Range(0, msgLen)
      && (reassembly == null <==> marked == Range(0, msgLen))
      && (reassembly != null ==>
            reassembly.Length == (msgLen + 7) / 8 && Represents(reassembly[..], marked))
    }

    ghost predicate Valid()
      reads this, data, reassembly
    {
      && MaskValid()
      && data as object? != reassembly
      && got.Keys == marked
      && data.Length == HM_HEADER_LENGTH + msgLen
      && forall k :: k in got ==> data[HM_HEADER_LENGTH + k] == got[k]
    }

    ghost function AsSlot(): Slot
      reads this
    {
      Slot(typ, seqNum, msgLen, got)
    }

    /** dtls1_hm_fragment_new. An empty message is born complete. The source leaves the body bytes
        uninitialised; here they start as zero, and nothing reads one before it has arrived. */
    constructor (h: Header)
      requires h.msgLen < 0x100_0000 && h.seqNum < 0x1_0000
      ensures Valid() && AsSlot() == Slot(h.typ, h.seqNum, h.msgLen, map[])
      ensures data[..HM_HEADER_LENGTH] == SerializeHeader(Header(h.typ, h.msgLen, h.seqNum, 0, h.msgLen))
      ensures fresh(Footprint())
    {
      typ, seqNum, msgLen := h.typ, h.seqNum, h.msgLen;
      var header := SerializeHeader(Header(h.typ, h.msgLen, h.seqNum, 0, h.msgLen));
      data := new byte[HM_HEADER_LENGTH + h.msgLen](i requires 0 <= i => if i < HM_HEADER_LENGTH then header[i] else 0);
      if h.msgLen > 0 {
        reassembly := new bv8[(h.msgLen + 7) / 8](_ => 0);
      } else {
        reassembly := null;
      }
      marked, got := {}, map[];
      new;
      assert forall k: nat | k < 8 :: !Bit(0, k) by {
        forall k: nat | k < 8 ensures !Bit(0, k) { FullByte(k); }
      }
      assert msgLen > 0 ==> 0 in Range(0, msgLen);
    }

    method CopyBody(off: nat, body: seq<byte>)
      requires data.Length == HM_HEADER_LENGTH + msgLen && off + |body| <= msgLen
      modifies data
      ensures forall k | 0 <= k < data.Length ::
        data[k] == if HM_HEADER_LENGTH + off <= k < HM_HEADER_LENGTH + off + |body| then body[k - HM_HEADER_LENGTH - off] else old(data[k])
    {
      for i := 0 to |body|
        invariant forall k | 0 <= k < data.Length ::
          data[k] == if HM_HEADER_LENGTH + off <= k < HM_HEADER_LENGTH + off + i then body[k - HM_HEADER_LENGTH - off] else old(data[k])
      {
        data[HM_HEADER_LENGTH + off + i] := body[i];
      }
    }

    /** Copy a fragment body into place and mark it received. */
    method Receive(off: nat, body: seq<byte>)
      requires Valid() && reassembly != null && off + |body| <= msgLen
      modifies this`reassembly, this`marked, this`got, data, reassembly
      ensures Valid() && got == PutBytes(old(got), off, body)
      ensures reassembly == null || reassembly == old(reassembly)
      ensures data[..HM_HEADER_LENGTH] == old(data[..HM_HEADER_LENGTH])
    {
      hide PutBytes;
      PutBytesAt(got, off, body);
      CopyBody(off, body);
      Mark(off, off + |body|);
      got := PutBytes(got, off, body);
    }

    lemma PutBytesAt(m: map<nat, byte>, off: nat, body: seq<byte>)
      ensures var r := PutBytes(m, off, body);
        && r.Keys == m.Keys + Range(off, off + |body|)
        && forall k :: k in r ==> r[k] == if off <= k < off + |body| then body[k - off] else m[k]
    {
    }

    /** dtls1_hm_fragment_mark: the range is within the message and the mask not yet released.
        Marking adds the range to the set, and releases the mask exactly when the set is full. */
    method Mark(start: nat, end: nat)
      requires MaskValid() && reassembly != null && start <= end <= msgLen
      modifies this`reassembly, this`marked, reassembly
      ensures MaskValid() && marked == old(marked) + Range(start, end)
      ensures reassembly == null || reassembly == old(reassembly)
    {
      if start == end {
        assert Range(start, end) == {};
        return;
      }
      SetBits(start, end);
      assert Range(start, end) <= Range(0, msgLen);
      var complete := AllSet();
      if complete {
        reassembly := null;
      }
    }

    method SetBits(start: nat, end: nat)
      requires reassembly != null && reassembly.Length == (msgLen + 7) / 8 && Represents(reassembly[..], marked)
      requires start < end <= msgLen
      modifies this`marked, reassembly
      ensures marked == old(marked) + Range(start, end) && Represents(reassembly[..], marked)
    {
      hide Bit, BitRange;
      var mask := reassembly;
      ghost var done := marked + Range(start, if start / 8 == end / 8 then end else 8 * (start / 8) + 8);
      assert 8 * (start / 8) + start % 8 == start && 8 * (end / 8) + end % 8 == end;
      if start / 8 == end / 8 {
        OrInto(mask, marked, start / 8, start % 8, end % 8);
        assert Represents(mask[..], done);
      } else {
        OrInto(mask, marked, start / 8, start % 8, 8);
        assert Represents(mask[..], done);
        for i := start / 8 + 1 to end / 8
          invariant marked == old(marked) && done == marked + Range(start, 8 * i)
          invariant Represents(mask[..], done)
        {
          FillByte(mask[..], done, i);
          mask[i] := 0xFF;
          done := done + Range(8 * i, 8 * i + 8);
        }
        if end % 8 != 0 {
          OrInto(mask, done, end / 8, 0, end % 8);
          assert 8 * (end / 8) + 0 == 8 * (end / 8);
          done := done + Range(8 * (end / 8), end);
        }
      }
      assert done == marked + Range(start, end);
      marked := done;
      assert Represents(mask[..], marked);
    }

    method AllSet() returns (complete: bool)
      requires reassembly != null && reassembly.Length == (msgLen + 7) / 8 && Represents(reassembly[..], marked)
      requires marked <= Range(0, msgLen)
      ensures complete <==> marked == Range(0, msgLen)
    {
      hide Bit, BitRange;
      var mask := reassembly;
      for i := 0 to msgLen / 8
        invariant Range(0, 8 * i) <= marked
      {
        ByteComplete(mask[..], marked, msgLen, i);
        if mask[i] != 0xFF {
          return false;
        }
      }
      if msgLen % 8 != 0 {
        ByteComplete(mask[..], marked, msgLen, msgLen / 8);
        if mask[msgLen / 8] != BitRange(0, msgLen % 8) {
          return false;
        }
      }
      assert Range(0, msgLen) <= marked;
      return true;
    }
  }
}
