/** pb_decode.c over its input streams. */
module PbDecode {
  import opened Common
  import opened PbWire
  import opened PbSchema
  import opened PbFields
  import C = PbCodec

  // ---- Input streams ----

  /** pb_istream_t over a buffer that nothing changes. */
  class IStream {
    const source: array<byte>
    ghost const end: nat
    var state: nat
    var bytesLeft: nat

    ghost predicate InBounds()
      reads this
    {
      state + bytesLeft <= end <= source.Length
    }

    /** In bounds, and no part of it lent to a substream. */
    ghost predicate Valid()
      reads this
    {
      state + bytesLeft == end <= source.Length
    }

    /** What is still to be read. */
    ghost function Rest(): (r: seq<byte>)
      requires Valid()
      reads this, source
      ensures |r| == bytesLeft
    {
      source[state..state + bytesLeft]
    }

    /** pb_istream_from_buffer, and the copy a substream starts as. */
    constructor (source: array<byte>, state: nat, size: nat)
      requires state + size <= source.Length
      ensures Valid() && this.source == source && this.state == state && bytesLeft == size && end == state + size
    {
      this.source, this.state, bytesLeft := source, state, size;
      end := state + size;
    }

    /** pb_readbyte. */
    method ReadByte() returns (b: Option<byte>)
      requires Valid()
      modifies this
      ensures Valid()
      ensures old(Rest()) == [] ==> b == None && Rest() == []
      ensures old(Rest()) != [] ==> b == Some(old(Rest())[0]) && Rest() == old(Rest())[1..]
    {
      if bytesLeft == 0 {
        return None;
      }
      b := Some(source[state]);
      state := state + 1;
      bytesLeft := bytesLeft - 1;
    }

    lemma SplitPart(s: seq<byte>, from: nat, end: nat, n: nat)
      requires from + n <= end <= |s|
      ensures s[from..end][..n] == s[from..from + n] && s[from..end][n..] == s[from + n..end]
    {
    }

    /** pb_read, with buf_read as the callback. */
    method Read(count: nat) returns (b: Option<seq<byte>>)
      requires Valid()
      modifies this
      ensures Valid() && (b.Some? <==> count <= |old(Rest())|)
      ensures b.Some? ==> b == Some(old(Rest())[..count]) && Rest() == old(Rest())[count..]
    {
      if bytesLeft < count {
        return None;
      }
      var buf := new byte[count];
      for i := 0 to count
        invariant buf[..i] == source[state..state + i]
        modifies buf
      {
        buf[i] := source[state + i];
      }
      assert buf[..] == buf[..count];
      SplitPart(source[..], state, end, count);
      b := Some(buf[..]);
      state := state + count;
      bytesLeft := bytesLeft - count;
    }

    /** pb_close_string_substream: take over the position, past what the substream did not read. */
    method Close(sub: IStream)
      requires sub.InBounds() && sub != this && sub.source == source && sub.end + bytesLeft == end <= source.Length
      modifies this, sub
      ensures InBounds() && bytesLeft == old(bytesLeft)
      ensures old(sub.Valid()) ==> Valid() && Rest() == source[sub.end..end]
    {
      state := sub.state + sub.bytesLeft;
      sub.state := state;
      sub.bytesLeft := 0;
    }
  }

  // ---- Varints ----

  lemma TailStep(s: seq<byte>, result: nat, bitpos: nat)
    requires result < TWO_32 && bitpos < 0x100 && s != []
    ensures var b := s[0];
      var next := if bitpos >= 32 then result else Merge(result, b, bitpos);
      Dec32Tail(s, result, bitpos) ==
        if bitpos >= 32 && b % 128 != 0 && (result < 0x8000_0000 || b != if bitpos < 63 then 0xFF else 0x01) then None
        else if b >= 128 then Dec32Tail(s[1..], next, (bitpos + 7) % 0x100)
        else if bitpos + 7 == 35 && b / 16 % 8 != 0 then None
        else Some(Got(next, s[1..]))
  {
    hide Merge;
  }

  lemma TailEnds(result: nat, bitpos: nat)
    requires result < TWO_32 && bitpos < 0x100
    ensures Dec32Tail([], result, bitpos) == None
  {
  }

  /** pb_decode_varint32_eof. */
  method DecodeVarint32(s: IStream) returns (r: Option<nat>, eof: bool)
    requires s.Valid()
    modifies s
    ensures s.Valid() && (eof <==> old(s.Rest()) == [])
    ensures Dec32(old(s.Rest())).None? ==> r == None
    ensures Dec32(old(s.Rest())).Some? ==> r == Some(Dec32(old(s.Rest())).value.value) && s.Rest() == Dec32(old(s.Rest())).value.rest
  {
    hide Dec32Tail, Merge;
    var b := s.ReadByte();
    if b.None? {
      return None, true;
    }
    eof := false;
    if b.value < 128 {
      return Some(b.value), false;
    }
    var bitpos: nat := 7;
    var result: nat := b.value - 128;
    var last: byte := b.value;
    while last >= 128
      invariant s.Valid() && result < TWO_32 && bitpos < 0x100
      invariant last >= 128 ==> Dec32(old(s.Rest())) == Dec32Tail(s.Rest(), result, bitpos)
      invariant last < 128 ==>
        Dec32(old(s.Rest())) == if bitpos == 35 && last / 16 % 8 != 0 then None else Some(Got(result, s.Rest()))
      decreases last >= 128, s.bytesLeft
    {
      if s.Rest() == [] {
        TailEnds(result, bitpos);
      } else {
        TailStep(s.Rest(), result, bitpos);
      }
      b := s.ReadByte();
      if b.None? {
        return None, false;
      }
      last := b.value;
      if bitpos >= 32 {
        var signExtension: byte := if bitpos < 63 then 0xFF else 0x01;
        if last % 128 != 0 && (result < 0x8000_0000 || last != signExtension) {
          return None, false;
        }
      } else {
        result := Merge(result, last, bitpos);
      }
      bitpos := (bitpos + 7) % 0x100;
    }
    if bitpos == 35 && last / 16 % 8 != 0 {
      return None, false;
    }
    r := Some(result);
  }

  lemma SevenDoublings(n: nat)
    ensures Pow2(n + 7) == 128 * Pow2(n)
  {
    assert Pow2(n + 7) == 2 * Pow2(n + 6) && Pow2(n + 6) == 2 * Pow2(n + 5) && Pow2(n + 5) == 2 * Pow2(n + 4);
    assert Pow2(n + 4) == 2 * Pow2(n + 3) && Pow2(n + 3) == 2 * Pow2(n + 2) && Pow2(n + 2) == 2 * Pow2(n + 1);
  }

  lemma {:induction false} GroupShift(k: nat)
    ensures Pow2(7 * k) == Pow128(k)
  {
    if k > 0 {
      GroupShift(k - 1);
      SevenDoublings(7 * (k - 1));
    }
  }

  lemma AddModulo64(a: nat, x: nat)
    ensures (a % TWO_64 + x) % TWO_64 == (a + x) % TWO_64
  {
  }

  lemma Accumulate64(read: seq<byte>, b: byte, result: nat)
    requires result == VarintValue(read) % TWO_64
    ensures Merge64(result, b, 7 * |read|) == VarintValue(read + [b]) % TWO_64
  {
    hide VarintValue, Pow2, Pow128;
    var group := b as nat % 128;
    VarintValueAppend(read, b);
    GroupShift(|read|);
    assert group * Pow128(|read|) == Pow128(|read|) * group;
    AddModulo64(VarintValue(read), Pow128(|read|) * group);
  }

  lemma {:induction false} LengthAfter(read: seq<byte>, rest: seq<byte>)
    requires forall i | 0 <= i < |read| :: read[i] >= 128
    ensures VarintLength(read + rest).Some? <==> VarintLength(rest).Some?
    ensures VarintLength(rest).Some? ==> VarintLength(read + rest) == Some(|read| + VarintLength(rest).value)
  {
    if read == [] {
      assert read + rest == rest;
    } else {
      LengthAfter(read[1..], rest);
      assert (read + rest)[1..] == read[1..] + rest;
    }
  }

  function Merge64(result: nat, b: byte, bitpos: nat): (r: nat)
    ensures r < TWO_64
  {
    (result + b as nat % 128 * Pow2(bitpos)) % TWO_64
  }

  lemma TooLongFails(s: seq<byte>)
    ensures VarintLength(s).None? || VarintLength(s).value > 10 ==> Dec64(s) == None
  {
  }

  lemma Complete64(s: seq<byte>, read: seq<byte>, rest: seq<byte>)
    requires s == read + rest && VarintLength(s) == Some(|read|) && |read| <= 10
    ensures Dec64(s) == Some(Got(VarintValue(read) % TWO_64, rest))
  {
    assert s[..|read|] == read && s[|read|..] == rest;
  }

  lemma OneOver(read: seq<byte>, rest: seq<byte>)
    ensures rest != [] ==> read + rest == (read + [rest[0]]) + rest[1..]
  {
  }

  /** pb_decode_varint. */
  method DecodeVarint(s: IStream) returns (r: Option<nat>)
    requires s.Valid()
    modifies s
    ensures s.Valid()
    ensures Dec64(old(s.Rest())).None? ==> r == None
    ensures Dec64(old(s.Rest())).Some? ==> r == Some(Dec64(old(s.Rest())).value.value) && s.Rest() == Dec64(old(s.Rest())).value.rest
  {
    hide VarintValue, Merge64, VarintLength, Dec64;
    ghost var all, read: seq<byte> := s.Rest(), [];
    var bitpos, result: nat := 0, 0;
    var more := true;
    NoGroups();
    while more
      invariant s.Valid() && all == read + s.Rest()
      invariant bitpos == 7 * |read| && result == VarintValue(read) % TWO_64
      invariant more ==> forall i | 0 <= i < |read| :: read[i] >= 128
      invariant !more ==> VarintLength(all) == Some(|read|) && |read| <= 10
      decreases more, s.bytesLeft
    {
      LengthAfter(read, s.Rest());
      FirstByte(s.Rest());
      TooLong(s.Rest(), |read|);
      TooLongFails(all);
      if bitpos >= 64 {
        return None;
      }
      OneOver(read, s.Rest());
      var b := s.ReadByte();
      if b.None? {
        return None;
      }
      Accumulate64(read, b.value, result);
      result := Merge64(result, b.value, bitpos);
      read := read + [b.value];
      bitpos := bitpos + 7;
      more := b.value >= 128;
    }
    Complete64(all, read, s.Rest());
    r := Some(result);
  }

  lemma FirstByte(s: seq<byte>)
    ensures s == [] ==> VarintLength(s) == None
    ensures s != [] && s[0] < 128 ==> VarintLength(s) == Some(1)
  {
  }

  lemma TooLong(s: seq<byte>, n: nat)
    ensures n >= 10 && VarintLength(s).Some? ==> n + VarintLength(s).value > 10
  {
  }

  lemma NoGroups()
    ensures VarintValue([]) == 0
  {
  }

  // ---- Tags, strings and skipping ----

  /** pb_decode_tag. */
  method DecodeTag(s: IStream) returns (r: Option<(nat, nat)>, eof: bool)
    requires s.Valid()
    modifies s
    ensures s.Valid() && (r.None? && eof <==> old(s.Rest()) == [] || DecTag(old(s.Rest())).EndOfMessage?)
    ensures match DecTag(old(s.Rest()))
      case TagError => r == None
      case EndOfMessage(rest) => r == None && s.Rest() == rest
      case Tag(tag, wireType, rest) => r == Some((tag, wireType)) && s.Rest() == rest
  {
    var v;
    v, eof := DecodeVarint32(s);
    if v.None? {
      return None, eof;
    }
    if v.value == 0 {
      return None, true;
    }
    r := Some((v.value / 8, v.value % 8));
  }

  /** pb_make_string_substream: the next bytes become a stream of their own. */
  method MakeSubstream(s: IStream) returns (sub: Option<IStream>)
    requires s.Valid()
    modifies s
    ensures s.InBounds()
    ensures sub.None? <==> C.DecString(old(s.Rest())).None?
    ensures sub.Some? ==>
      && fresh(sub.value) && sub.value.Valid() && sub.value.source == s.source
      && sub.value.end + s.bytesLeft == s.end && sub.value.bytesLeft < old(s.bytesLeft)
      && var b := C.DecString(old(s.Rest())).value;
      && sub.value.Rest() == b.value && s.source[sub.value.end..s.end] == b.rest
  {
    hide Dec32;
    var size, _ := DecodeVarint32(s);
    assert |s.Rest()| == s.bytesLeft;
    if size.None? || s.bytesLeft < size.value {
      return None;
    }
    ghost var rest, cut := s.Rest(), s.state + size.value;
    assert s.source[s.state..cut] == rest[..size.value];
    assert s.source[cut..s.end] == rest[size.value..];
    var part := new IStream(s.source, s.state, size.value);
    s.bytesLeft := s.bytesLeft - size.value;
    sub := Some(part);
  }

  /** pb_skip_varint. */
  method SkipVarint(s: IStream) returns (ok: bool)
    requires s.Valid()
    modifies s
    ensures s.Valid() && ok == C.SkipVarint(old(s.Rest())).Some?
    ensures ok ==> s.Rest() == C.SkipVarint(old(s.Rest())).value
  {
    hide VarintLength;
    ghost var all, read: seq<byte> := s.Rest(), [];
    var more := true;
    while more
      invariant s.Valid() && all == read + s.Rest()
      invariant more ==> forall i | 0 <= i < |read| :: read[i] >= 128
      invariant !more ==> VarintLength(all) == Some(|read|)
      decreases more, s.bytesLeft
    {
      LengthAfter(read, s.Rest());
      FirstByte(s.Rest());
      var b := s.Read(1);
      if b.None? {
        return false;
      }
      read := read + b.value;
      more := b.value[0] >= 128;
    }
    assert all[|read|..] == s.Rest();
    ok := true;
  }

  /** pb_skip_field. */
  method SkipField(s: IStream, wireType: nat) returns (ok: bool)
    requires s.Valid()
    modifies s
    ensures s.Valid() && ok == C.SkipField(wireType, old(s.Rest())).Some?
    ensures ok ==> s.Rest() == C.SkipField(wireType, old(s.Rest())).value
  {
    if wireType == WT_VARINT {
      ok := SkipVarint(s);
    } else if wireType == WT_64BIT {
      var b := s.Read(8);
      ok := b.Some?;
    } else if wireType == WT_STRING {
      var size, _ := DecodeVarint32(s);
      if size.None? {
        return false;
      }
      var b := s.Read(size.value);
      ok := b.Some?;
    } else if wireType == WT_32BIT {
      var b := s.Read(4);
      ok := b.Some?;
    } else {
      ok := false;
    }
  }

  // ---- The field decoders ----

  method DecodeScalar(s: IStream, l: LType) returns (r: Option<Value>)
    requires s.Valid()
    modifies s
    ensures s.Valid()
    ensures C.DecScalar(l, old(s.Rest())).None? ==> r == None
    ensures C.DecScalar(l, old(s.Rest())).Some? ==>
      r == Some(C.DecScalar(l, old(s.Rest())).value.value) && s.Rest() == C.DecScalar(l, old(s.Rest())).value.rest
  {
    hide Dec64, FixedValue;
    match l
    case Fixed32 =>
      var b := s.Read(4);
      r := if b.None? then None else Some(Num(FixedValue(b.value)));
    case Fixed64 =>
      var b := s.Read(8);
      r := if b.None? then None else Some(Num(FixedValue(b.value)));
    case Varint(size) =>
      var v := DecodeVarint(s);
      if v.None? || !IntegerSize(size) {
        return None;
      }
      var x := if size == 8 then C.Signed(v.value, TWO_63) else C.Signed(v.value, 0x8000_0000);
      r := if -SignedBound(size) <= x < SignedBound(size) then Some(Num(x)) else None;
    case UVarint(size) =>
      var v := DecodeVarint(s);
      if v.None? || !IntegerSize(size) || v.value >= 2 * SignedBound(size) {
        return None;
      }
      r := Some(Num(v.value));
    case SVarint(size) =>
      var v := DecodeVarint(s);
      if v.None? || !IntegerSize(size) {
        return None;
      }
      ZigZag64Inverse(0, v.value);
      var x := ZagZig64(v.value);
      r := if -SignedBound(size) <= x < SignedBound(size) then Some(Num(x)) else None;
    case _ => r := None;
  }

  /** The lengths pb_dec_bytes, pb_dec_string and pb_dec_fixed_length_bytes read, with the bytes. */
  method DecodeBytes(s: IStream, low: nat, high: nat) returns (r: Option<seq<byte>>)
    requires s.Valid()
    modifies s
    ensures s.Valid()
    ensures var b := C.DecString(old(s.Rest()));
      if b.None? || !(low <= |b.value.value| <= high) then r == None else r == Some(b.value.value) && s.Rest() == b.value.rest
  {
    var size, _ := DecodeVarint32(s);
    if size.None? || !(low <= size.value <= high) {
      return None;
    }
    r := s.Read(size.value);
  }

  /** The packed loop of decode_static_field. */
  method DecodePacked(sub: IStream, l: LType, vs: seq<Value>, max: nat) returns (r: Option<seq<Value>>)
    requires sub.Valid()
    modifies sub
    ensures sub.Valid() && r == C.DecPacked(l, old(sub.Rest()), vs, max)
  {
    hide C.DecScalar;
    var items := vs;
    while sub.bytesLeft > 0 && |items| < max
      invariant sub.Valid()
      invariant C.DecPacked(l, old(sub.Rest()), vs, max) == C.DecPacked(l, sub.Rest(), items, max)
      decreases sub.bytesLeft
    {
      var v := DecodeScalar(sub, l);
      if v.None? {
        return None;
      }
      items := items + [v.value];
    }
    if sub.bytesLeft != 0 {
      return None;
    }
    r := Some(items);
  }

  // ---- Defaults ----

  function DefaultsBefore(mem: Memory, d: Desc, i: nat): Message {
    map t <- Tags(d) | Has(d, t) && IndexFrom(d.fields, t) < i && Initially(FieldOf(d, t)) :: InitialValue(mem, FieldOf(d, t))
  }

  lemma DefaultsAt(mem: Memory, d: Desc, i: nat, t: nat)
    ensures t in DefaultsBefore(mem, d, i) <==> Has(d, t) && IndexFrom(d.fields, t) < i && Initially(FieldOf(d, t))
    ensures t in DefaultsBefore(mem, d, i) ==> DefaultsBefore(mem, d, i)[t] == InitialValue(mem, FieldOf(d, t))
  {
    hide InitialValue, Initially;
    HasIsTag(d, t);
  }

  lemma DefaultsStep(mem: Memory, d: Desc, i: nat)
    requires Distinct(d) && i < |d.fields|
    ensures var f := d.fields[i];
      DefaultsBefore(mem, d, i + 1)
        == if Initially(f) then DefaultsBefore(mem, d, i)[f.tag := InitialValue(mem, f)] else DefaultsBefore(mem, d, i)
  {
    hide InitialValue, Initially, DefaultsBefore, FieldOf, Has;
    var f := d.fields[i];
    FieldOfIndex(d, i);
    var before := DefaultsBefore(mem, d, i);
    var next := if Initially(f) then before[f.tag := InitialValue(mem, f)] else before;
    forall t: nat
      ensures t in DefaultsBefore(mem, d, i + 1) <==> t in next
      ensures t in next ==> DefaultsBefore(mem, d, i + 1)[t] == next[t]
    {
      DefaultsAt(mem, d, i, t);
      DefaultsAt(mem, d, i + 1, t);
      if IndexFrom(d.fields, t) == i {
        assert t == f.tag;
      }
    }
  }

  /** pb_message_set_to_defaults. */
  method SetToDefaults(mem: Memory, d: Desc) returns (m: Message)
    requires WfDesc(d)
    ensures m == Defaults(mem, d)
    decreases d, 1
  {
    hide InitialValue, Initially, Has;
    m := map[];
    for i := 0 to |d.fields|
      invariant m == DefaultsBefore(mem, d, i)
    {
      DefaultsStep(mem, d, i);
      assert WfField(d.fields[i]);
      if Initially(d.fields[i]) {
        var v := SetFieldToDefault(mem, d.fields[i]);
        m := m[d.fields[i].tag := v];
      }
    }
    AllDefaults(mem, d);
  }

  lemma AllDefaults(mem: Memory, d: Desc)
    ensures DefaultsBefore(mem, d, |d.fields|) == Defaults(mem, d)
  {
  }

  /** pb_field_set_to_default. */
  method SetFieldToDefault(mem: Memory, f: Field) returns (v: Value)
    requires WfField(f)
    ensures v == InitialValue(mem, f)
    decreases f, 0
  {
    if f.h.Repeated? {
      v := List(if FixedCount(f) && StartsZero(mem, f) then ZeroItems(f) else []);
    } else if f.l.Submessage? {
      assert WfType(f.l);
      var m := SetToDefaults(Within(mem, f), f.l.desc);
      v := Msg(m);
    } else {
      v := f.initial;
    }
  }

  // ---- Fields and messages ----

  /** The struct layouts of all descriptors. */
  type Places = Desc -> seq<Place>

  ghost predicate Placed(places: Places) {
    forall d: Desc :: |places(d)| == |d.fields|
  }

  /** PB_DECODERS. `cur` is what the destination holds, in memory `mem`. */
  method DecodeValue(places: Places, mem: Memory, s: IStream, l: LType, cur: Value) returns (r: Option<Value>)
    requires s.Valid() && Placed(places) && WfType(l)
    modifies s
    ensures s.InBounds()
    ensures C.DecValue(mem, l, old(s.Rest()), cur).None? ==> r == None
    ensures C.DecValue(mem, l, old(s.Rest()), cur).Some? ==>
      s.Valid() && r == Some(C.DecValue(mem, l, old(s.Rest()), cur).value.value) && s.Rest() == C.DecValue(mem, l, old(s.Rest()), cur).value.rest
    decreases s.bytesLeft, 0
  {
    hide C.DecString, C.DecScalar, C.CString, Placed;
    match l
    case Bytes(capacity) =>
      var b := DecodeBytes(s, 0, capacity);
      r := if b.None? then None else Some(Blob(b.value));
    case Str(dataSize) =>
      if dataSize == 0 {
        var _, _ := DecodeVarint32(s);
        return None;
      }
      var b := DecodeBytes(s, 0, dataSize - 1);
      r := if b.None? then None else Some(Blob(C.CString(b.value)));
    case FixedBytes(length) =>
      r := DecodeFixedBytes(s, length);
    case Submessage(d) =>
      var sub := MakeSubstream(s);
      if sub.None? {
        return None;
      }
      if !cur.Msg? {
        return None;
      }
      var m := DecodeNoInit(places, mem, sub.value, d, cur.m);
      s.Close(sub.value);
      r := if m.None? then None else Some(Msg(m.value));
    case _ => r := DecodeScalar(s, l);
  }

  /** pb_dec_fixed_length_bytes. */
  method DecodeFixedBytes(s: IStream, length: nat) returns (r: Option<Value>)
    requires s.Valid()
    modifies s
    ensures s.Valid()
    ensures var b := C.DecString(old(s.Rest()));
      if b.None? || !(b.value.value == [] || |b.value.value| == length) then r == None
      else s.Rest() == b.value.rest && r == Some(Blob(if b.value.value == [] then seq(length, _ => 0) else b.value.value))
  {
    hide Dec32;
    var size, _ := DecodeVarint32(s);
    if size.None? {
      return None;
    }
    if size.value == 0 {
      return Some(Blob(seq(length, _ => 0)));
    }
    if size.value != length {
      return None;
    }
    var b := s.Read(length);
    r := if b.None? then None else Some(Blob(b.value));
  }

  /** What decode_static_field decodes an array entry or a oneof member into. */
  method ResetField(mem: Memory, f: Field) returns (v: Value)
    requires WfField(f)
    ensures v == ResetValue(mem, f)
  {
    if f.l.Submessage? {
      assert WfType(f.l);
      var m := SetToDefaults(Within(mem, f), f.l.desc);
      v := Msg(m);
    } else {
      v := f.initial;
    }
  }

  /** decode_static_field. `m` is the struct before, the result the struct after. */
  method DecodeField(places: Places, mem: Memory, s: IStream, d: Desc, f: Field, wireType: nat, m: Message, ghost st: C.Loop)
    returns (r: Option<Message>)
    requires s.Valid() && Placed(places) && WfField(f) && st.m == m
    modifies s
    ensures s.InBounds()
    ensures C.DecField(mem, d, f, wireType, old(s.Rest()), st).None? ==> r == None
    ensures C.DecField(mem, d, f, wireType, old(s.Rest()), st).Some? ==>
      && s.Valid() && r.Some? && C.DecField(mem, d, f, wireType, old(s.Rest()), st).value == Got(st.(m := r.value), s.Rest())
    decreases s.bytesLeft, 1
  {
    hide C.DecString, C.DecPacked, C.DecValue, Placed, WfType, ResetValue;
    match f.h
    case Repeated(n, _) =>
      var vs := C.Elements(m, f.tag);
      if wireType == WT_STRING && Packable(f.l) {
        var sub := MakeSubstream(s);
        if sub.None? {
          return None;
        }
        var items := DecodePacked(sub.value, f.l, vs, n);
        if items.None? {
          return None;
        }
        s.Close(sub.value);
        r := Some(m[f.tag := List(items.value)]);
      } else {
        if |vs| >= n {
          return None;
        }
        var item := ResetField(mem, f);
        var v := DecodeValue(places, Within(mem, f), s, f.l, item);
        r := if v.None? then None else Some(m[f.tag := List(vs + [v.value])]);
      }
    case Oneof(_) =>
      var member := ResetField(mem, f);
      var v := DecodeValue(places, Within(mem, f), s, f.l, member);
      r := if v.None? then None else Some(C.ClearOneof(d, f, m)[f.tag := v.value]);
    case _ =>
      var cur;
      if f.tag in m {
        cur := m[f.tag];
      } else {
        cur := ResetField(mem, f);
      }
      var v := DecodeValue(places, Within(mem, f), s, f.l, cur);
      r := if v.None? then None else Some(m[f.tag := v.value]);
  }

  lemma LoopStep(mem: Memory, d: Desc, s: seq<byte>, st: C.Loop)
    requires s != []
    ensures var t := DecTag(s);
      C.DecLoop(mem, d, s, st) ==
        if t.TagError? then None
        else if t.EndOfMessage? then Some(Got(st, t.rest))
        else if Has(d, t.tag) then
          var f := FieldOf(d, t.tag);
          var entered := C.EnterFixed(d, f, st);
          if entered.None? then None
          else
            var next := C.DecField(mem, d, f, t.wireType, t.rest, C.MarkSeen(d, f, entered.value));
            if next.None? then None else C.DecLoop(mem, d, next.value.rest, next.value.value)
        else if d.fields == [] && t.tag == 0 then None
        else
          var skipped := C.SkipField(t.wireType, t.rest);
          if skipped.None? then None else C.DecLoop(mem, d, skipped.value, st)
  {
    hide C.EnterFixed, C.DecField, C.MarkSeen, C.SkipField, DecTag;
  }

  /** Decoding one field leaves the elements of every other array alone. */
  lemma OtherArraysKept(mem: Memory, d: Desc, f: Field, wireType: nat, s: seq<byte>, st: C.Loop, t: nat)
    requires C.DecField(mem, d, f, wireType, s, st).Some? && Has(d, t) && FieldOf(d, t).h.Repeated? && t != f.tag
    ensures C.Elements(C.DecField(mem, d, f, wireType, s, st).value.value.m, t) == C.Elements(st.m, t)
  {
    hide C.DecValue, C.DecString, C.DecPacked;
  }

  /** fixed_count_size is the number of entries the array being received has so far. */
  ghost predicate CountKept(d: Desc, m: Message, fixed: Option<nat>, size: nat) {
    fixed.Some? ==> Has(d, fixed.value) && FieldOf(d, fixed.value).h.Repeated? && size == |C.Elements(m, fixed.value)|
  }

  /** One field of pb_decode_noinit's loop, once the iterator has found it. */
  method DecodeFound(places: Places, mem: Memory, s: IStream, d: Desc, iter: FieldIter, seen: FieldsSeen,
                     wireType: nat, m: Message, fixed: Option<nat>, fixedSize: nat, ghost st: C.Loop)
    returns (r: Option<(Message, Option<nat>, nat)>)
    requires s.Valid() && Placed(places) && WfDesc(d) && seen.Valid()
    requires s.source as object != seen.words as object
    requires iter.Valid() && iter.table.desc == d && iter.pos < |d.fields|
    requires st == C.Loop(m, fixed, seen.seen) && (forall k <- seen.seen :: k < C.RequiredBefore(d, |d.fields|))
    requires CountKept(d, m, fixed, fixedSize)
    modifies s, seen, seen.words
    ensures s.InBounds() && seen.Valid() && (forall k <- seen.seen :: k < C.RequiredBefore(d, |d.fields|))
    ensures var f := d.fields[iter.pos];
      var entered := C.EnterFixed(d, f, st);
      if entered.None? then r == None
      else
        var next := C.DecField(mem, d, f, wireType, old(s.Rest()), C.MarkSeen(d, f, entered.value));
        if next.None? then r == None
        else
          && s.Valid() && r.Some? && next.value == Got(C.Loop(r.value.0, r.value.1, seen.seen), s.Rest())
          && CountKept(d, r.value.0, r.value.1, r.value.2)
    decreases s.bytesLeft, 2
  {
    hide C.DecField, C.EnterFixed, C.MarkSeen, Placed, WfDesc, WfField, Has, FieldOf, Bit, CountKept, C.Elements;
    var f := d.fields[iter.pos];
    FieldKnown(d, iter.pos);
    var entered := EnterArray(d, f, m, fixed, fixedSize, st);
    if entered.None? {
      return None;
    }
    var (dest, field, size) := entered.value;
    ghost var marked := NoteRequired(d, iter, seen, C.Loop(dest, field, seen.seen));
    ghost var rest := s.Rest();
    var next := DecodeField(places, mem, s, d, f, wireType, dest, marked);
    if next.None? {
      return None;
    }
    CountAfter(mem, d, f, wireType, rest, marked, size);
    if field == Some(f.tag) {
      size := |C.Elements(next.value, f.tag)|;
    }
    r := Some((next.value, field, size));
  }

  lemma FieldKnown(d: Desc, i: nat)
    requires WfDesc(d) && i < |d.fields|
    ensures WfField(d.fields[i]) && Distinct(d) && Has(d, d.fields[i].tag) && FieldOf(d, d.fields[i].tag) == d.fields[i]
  {
    FieldOfIndex(d, i);
  }

  lemma CountAfter(mem: Memory, d: Desc, f: Field, wireType: nat, s: seq<byte>, st: C.Loop, size: nat)
    requires CountKept(d, st.m, st.fixed, size) && C.DecField(mem, d, f, wireType, s, st).Some?
    requires Has(d, f.tag) && FieldOf(d, f.tag) == f
    ensures var next := C.DecField(mem, d, f, wireType, s, st).value.value;
      CountKept(d, next.m, st.fixed, if st.fixed == Some(f.tag) then |C.Elements(next.m, f.tag)| else size)
  {
    hide C.DecField, Has;
    if st.fixed.Some? && st.fixed != Some(f.tag) {
      OtherArraysKept(mem, d, f, wireType, s, st, st.fixed.value);
    }
  }

  /** A fixed-count array other than the one being received may start only when that one is full. */
  method EnterArray(d: Desc, f: Field, m: Message, fixed: Option<nat>, size: nat, ghost st: C.Loop)
    returns (r: Option<(Message, Option<nat>, nat)>)
    requires st.m == m && st.fixed == fixed && CountKept(d, m, fixed, size) && Has(d, f.tag) && FieldOf(d, f.tag) == f
    ensures C.EnterFixed(d, f, st) == if r.None? then None else Some(C.Loop(r.value.0, r.value.1, st.seen))
    ensures r.Some? ==> CountKept(d, r.value.0, r.value.1, r.value.2)
  {
    if f.h.Repeated? && !f.h.counted && fixed != Some(f.tag) {
      if fixed.Some? && size != FieldOf(d, fixed.value).h.arraySize {
        return None;
      }
      return Some((m[f.tag := List([])], Some(f.tag), 0));
    }
    r := Some((m, fixed, size));
  }

  method NoteRequired(d: Desc, iter: FieldIter, seen: FieldsSeen, ghost st: C.Loop) returns (ghost marked: C.Loop)
    requires seen.Valid() && st.seen == seen.seen && (forall k <- seen.seen :: k < C.RequiredBefore(d, |d.fields|))
    requires iter.Valid() && iter.table.desc == d && iter.pos < |d.fields| && Distinct(d) && Has(d, d.fields[iter.pos].tag)
    modifies seen, seen.words
    ensures seen.Valid() && (forall k <- seen.seen :: k < C.RequiredBefore(d, |d.fields|))
    ensures marked == C.MarkSeen(d, d.fields[iter.pos], st) == st.(seen := seen.seen)
  {
    var f := d.fields[iter.pos];
    FieldOfIndex(d, iter.pos);
    if f.h == Required {
      RequiredIndexBelow(d, iter.pos, |d.fields|);
      if iter.requiredIndex < C.MAX_REQUIRED_FIELDS {
        seen.Mark(iter.requiredIndex);
      }
    }
    marked := st.(seen := seen.seen);
  }

  /** One turn of pb_decode_noinit's loop. */
  method DecodeNext(places: Places, mem: Memory, s: IStream, d: Desc, iter: FieldIter, seen: FieldsSeen,
                    m: Message, fixed: Option<nat>, fixedSize: nat, ghost st: C.Loop)
    returns (r: Option<(Message, Option<nat>, nat)>, ended: bool)
    requires s.Valid() && s.bytesLeft > 0 && Placed(places) && WfDesc(d) && seen.Valid()
    requires s.source as object != seen.words as object
    requires iter.Valid() && iter.table.desc == d
    requires st == C.Loop(m, fixed, seen.seen) && (forall k <- seen.seen :: k < C.RequiredBefore(d, |d.fields|))
    requires CountKept(d, m, fixed, fixedSize)
    modifies s, iter, seen, seen.words
    ensures s.InBounds() && iter.Valid() && seen.Valid() && (forall k <- seen.seen :: k < C.RequiredBefore(d, |d.fields|))
    ensures r.None? ==> C.DecLoop(mem, d, old(s.Rest()), st) == None
    ensures r.Some? ==>
      && s.Valid() && s.bytesLeft < old(s.bytesLeft) && CountKept(d, r.value.0, r.value.1, r.value.2)
      && var next := C.Loop(r.value.0, r.value.1, seen.seen);
      && C.DecLoop(mem, d, old(s.Rest()), st) == if ended then Some(Got(next, s.Rest())) else C.DecLoop(mem, d, s.Rest(), next)
    decreases s.bytesLeft, 3
  {
    hide C.DecField, C.DecLoop, C.SkipField, C.EnterFixed, C.MarkSeen, DecTag, WfDesc, Has, Placed;
    LoopStep(mem, d, s.Rest(), st);
    WellFormedDistinct(d);
    var t, eof := DecodeTag(s);
    if t.None? {
      return if eof then Some((m, fixed, fixedSize)) else None, eof;
    }
    ended := false;
    var found := iter.Find(t.value.0);
    if !found {
      var ok := SkipField(s, t.value.1);
      return if ok then Some((m, fixed, fixedSize)) else None, false;
    }
    if |d.fields| == 0 {
      // The zero tag has matched the terminator, whose type is a varint of size zero.
      EmptyHasNone(d, t.value.0);
      var _ := DecodeScalar(s, Varint(0));
      return None, false;
    }
    r := DecodeFound(places, mem, s, d, iter, seen, t.value.1, m, fixed, fixedSize, st);
  }

  lemma EmptyHasNone(d: Desc, tag: nat)
    requires d.fields == []
    ensures !Has(d, tag)
  {
  }

  /** pb_decode_noinit. */
  method DecodeNoInit(places: Places, mem: Memory, s: IStream, d: Desc, dest: Message) returns (r: Option<Message>)
    requires s.Valid() && Placed(places) && WfDesc(d)
    modifies s
    ensures s.InBounds()
    ensures C.DecodeNoInit(mem, d, old(s.Rest()), dest).None? ==> r == None
    ensures C.DecodeNoInit(mem, d, old(s.Rest()), dest).Some? ==>
      && s.Valid() && r == Some(C.DecodeNoInit(mem, d, old(s.Rest()), dest).value.value)
      && s.Rest() == C.DecodeNoInit(mem, d, old(s.Rest()), dest).value.rest
    decreases s.bytesLeft, 4
  {
    hide C.DecLoop;
    assert forall i | 0 <= i < |d.fields| :: WfField(d.fields[i]);
    assert |places(d)| == |d.fields|;
    var seen := new FieldsSeen();
    var iter := new FieldIter(Table(d, places(d)));
    var m, fixed, fixedSize: nat := dest, None, 0;
    var ended := false;
    ghost var start := C.DecLoop(mem, d, s.Rest(), C.Loop(dest, None, {}));
    while s.bytesLeft > 0 && !ended
      invariant s.Valid() && iter.Valid() && seen.Valid()
      invariant forall k <- seen.seen :: k < C.RequiredBefore(d, |d.fields|)
      invariant CountKept(d, m, fixed, fixedSize)
      invariant var st := C.Loop(m, fixed, seen.seen);
        start == if ended then Some(Got(st, s.Rest())) else C.DecLoop(mem, d, s.Rest(), st)
      decreases s.bytesLeft
    {
      var next;
      next, ended := DecodeNext(places, mem, s, d, iter, seen, m, fixed, fixedSize, C.Loop(m, fixed, seen.seen));
      if next.None? {
        return None;
      }
      m, fixed, fixedSize := next.value.0, next.value.1, next.value.2;
    }
    if !ended {
      LoopEnds(mem, d, C.Loop(m, fixed, seen.seen));
    }
    r := FinalChecks(d, iter, seen, m, fixed, fixedSize);
  }

  /** The checks of pb_decode_noinit at the end: a fixed-count array is full, and every required field
      among the first 64 was seen. */
  method FinalChecks(d: Desc, iter: FieldIter, seen: FieldsSeen, m: Message, fixed: Option<nat>, fixedSize: nat) returns (r: Option<Message>)
    requires iter.Valid() && iter.table.desc == d && seen.Valid() && CountKept(d, m, fixed, fixedSize)
    requires forall k <- seen.seen :: k < C.RequiredBefore(d, |d.fields|)
    modifies iter
    ensures r == if C.Finished(d, C.Loop(m, fixed, seen.seen)) then Some(m) else None
  {
    if fixed.Some? && fixedSize != FieldOf(d, fixed.value).h.arraySize {
      return None;
    }
    var required := iter.CountRequired();
    var complete := seen.Complete(required);
    r := if complete then Some(m) else None;
  }

  lemma LoopEnds(mem: Memory, d: Desc, st: C.Loop)
    ensures C.DecLoop(mem, d, [], st) == Some(Got(st, []))
  {
  }

  /** pb_decode. */
  method Decode(places: Places, mem: Memory, s: IStream, d: Desc) returns (r: Option<Message>)
    requires s.Valid() && Placed(places) && WfDesc(d)
    modifies s
    ensures s.InBounds()
    ensures C.Decode(mem, d, old(s.Rest())).None? ==> r == None
    ensures C.Decode(mem, d, old(s.Rest())).Some? ==>
      && s.Valid() && r == Some(C.Decode(mem, d, old(s.Rest())).value.value) && s.Rest() == C.Decode(mem, d, old(s.Rest())).value.rest
  {
    hide C.DecodeNoInit, Placed;
    var m := SetToDefaults(mem, d);
    r := DecodeNoInit(places, mem, s, d, m);
  }
}
