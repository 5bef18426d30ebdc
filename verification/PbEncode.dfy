/** pb_encode.c over its output streams. A stream without a destination only counts: that is the
    sizing pass, and every encoder below runs on both kinds. */
module PbEncode {
  import opened Common
  import opened PbWire
  import opened PbSchema
  import opened PbCodec

  // ---- Output streams ----

  /** pb_ostream_t. `out` is what has been written, or would have been on a sizing stream. */
  class OStream {
    const dest: array?<byte>
    const base: nat
    const maxSize: nat
    var state: nat
    var written: nat
    ghost var out: seq<byte>

    ghost function Frame(): set<object> {
      {this} + if dest == null then {} else {dest}
    }

    ghost predicate Valid()
      reads this, dest
    {
      && |out| == written
      && (dest != null ==>
            && written <= maxSize && base + maxSize <= dest.Length && state == base + written
            && dest[base..state] == out)
    }

    predicate Room(n: nat)
      reads this
    {
      dest == null || written + n <= maxSize
    }

    /** Nothing outside the free part of the stream's own window is touched. */
    twostate predicate Confined()
      reads this, dest
    {
      dest != null ==>
        forall k | 0 <= k < dest.Length && !(base + old(written) <= k < base + maxSize) :: dest[k] == old(dest[k])
    }

    /** The outcome of an encoder that should write `b`: it succeeds exactly when there is such a
        `b` and it fits, and then writes exactly that. */
    twostate predicate Encoded(ok: bool, new b: Option<seq<byte>>)
      reads this, dest
    {
      && Valid() && Confined()
      && (ok <==> b.Some? && old(Room(|b.value|)))
      && (ok ==> out == old(out) + b.value)
    }

    /** pb_ostream_from_buffer, and the substream of pb_encode_submessage. */
    constructor (dest: array<byte>, base: nat, maxSize: nat)
      requires base + maxSize <= dest.Length
      ensures Valid() && this.dest == dest && this.base == base && this.maxSize == maxSize && out == [] && state == base
    {
      this.dest, this.base, this.maxSize := dest, base, maxSize;
      state, written, out := base, 0, [];
    }

    /** PB_OSTREAM_SIZING. */
    constructor Sizing()
      ensures Valid() && dest == null && out == []
    {
      dest, base, maxSize := null, 0, 0;
      state, written, out := 0, 0, [];
    }

    /** pb_write, with buf_write as the callback. */
    method Write(b: seq<byte>) returns (ok: bool)
      requires Valid()
      modifies Frame()
      ensures Encoded(ok, Some(b))
    {
      if dest != null {
        if written + |b| > maxSize {
          return false;
        }
        for i := 0 to |b|
          invariant dest[state..state + i] == b[..i]
          invariant forall k | 0 <= k < dest.Length && !(state <= k < state + i) :: dest[k] == old(dest[k])
          modifies dest
        {
          dest[state + i] := b[i];
        }
        assert dest[base..state] == out;
        assert dest[base..state + |b|] == dest[base..state] + dest[state..state + |b|];
        state := state + |b|;
      }
      written := written + |b|;
      out := out + b;
      return true;
    }

    /** pb_write of `size` bytes without data, on a sizing stream. */
    method Count(size: nat, ghost b: seq<byte>)
      requires Valid() && dest == null && |b| == size
      modifies this
      ensures Valid() && out == old(out) + b
    {
      written := written + size;
      out := out + b;
    }

    /** Take over what a substream on the same buffer has written. */
    method Join(sub: OStream)
      requires Valid() && sub.Valid() && this != sub && dest != null && sub.dest == dest && sub.base == state
      requires written + sub.maxSize <= maxSize
      modifies this
      ensures Valid() && out == old(out) + sub.out
    {
      assert dest[base..sub.state] == dest[base..state] + dest[state..sub.state];
      written := written + sub.written;
      state := sub.state;
      out := out + sub.out;
    }
  }

  // ---- Numbers, tags and strings ----

  lemma NextGroup(value: nat, done: seq<byte>, left: nat)
    requires 0 < value < TWO_64 && left > 0 && EncVarint(value) == done + EncVarint(left)
    ensures |done| < 10
    ensures var more: seq<byte> := done + [left % 128 + 128];
      && more[..|done|] == done
      && EncVarint(value) == if left / 128 > 0 then more + EncVarint(left / 128) else done + [more[|done|] - 128]
  {
    EncVarintAtMostTen(value);
  }

  /** The multi-byte case of pb_encode_varint: groups into a ten-byte buffer, the top bit of the last one cleared. */
  method FillGroups(value: nat) returns (buffer: array<byte>, n: nat)
    requires 0 < value < TWO_64
    ensures n <= buffer.Length && buffer[..n] == EncVarint(value)
  {
    buffer := new byte[10];
    hide EncVarint;
    var left: nat := value;
    ghost var done: seq<byte> := [];
    n := 0;
    EncVarintAtMostTen(value);
    while left != 0
      invariant n == |done| <= 10 && buffer[..n] == done
      invariant left > 0 ==> EncVarint(value) == done + EncVarint(left)
      invariant left == 0 ==> n > 0 && done[n - 1] >= 128 && EncVarint(value) == done[..n - 1] + [done[n - 1] - 128]
      decreases left
    {
      NextGroup(value, done, left);
      buffer[n] := left % 128 + 128;
      assert buffer[..n] == done;
      done := done + [buffer[n]];
      left := left / 128;
      n := n + 1;
    }
    buffer[n - 1] := buffer[n - 1] % 128;
    assert buffer[..n - 1] == done[..n - 1];
    assert buffer[..n] == buffer[..n - 1] + [buffer[n - 1]];
  }

  /** pb_encode_varint. */
  method EncodeVarint(s: OStream, value: nat) returns (ok: bool)
    requires s.Valid() && value < TWO_64
    modifies s.Frame()
    ensures s.Encoded(ok, Some(EncVarint(value)))
  {
    if value <= 0x7F {
      ok := s.Write([value]);
      return;
    }
    var buffer, n := FillGroups(value);
    ok := s.Write(buffer[..n]);
  }

  /** pb_encode_fixed32 and pb_encode_fixed64. */
  method EncodeFixed(s: OStream, value: nat, width: nat) returns (ok: bool)
    requires s.Valid()
    modifies s.Frame()
    ensures s.Encoded(ok, Some(EncFixed(value, width)))
  {
    var bytes := FillBytes(value, width);
    ok := s.Write(bytes[..]);
  }

  method FillBytes(value: nat, width: nat) returns (bytes: array<byte>)
    ensures fresh(bytes) && bytes[..] == EncFixed(value, width)
  {
    bytes := new byte[width];
    var left: nat := value;
    for i := 0 to width
      invariant EncFixed(value, width) == bytes[..i] + EncFixed(left, width - i)
    {
      ghost var before := bytes[..i];
      bytes[i] := left % 256;
      assert bytes[..i + 1] == before + [bytes[i]];
      left := left / 256;
    }
    assert bytes[..] == bytes[..width];
  }

  method EncodeTag(s: OStream, tag: nat, wireType: nat) returns (ok: bool)
    requires s.Valid() && tag < TWO_32 && wireType < 8
    modifies s.Frame()
    ensures s.Encoded(ok, Some(EncTag(tag, wireType)))
  {
    ok := EncodeVarint(s, 8 * tag + wireType);
  }

  method EncodeString(s: OStream, b: seq<byte>) returns (ok: bool)
    requires s.Valid() && |b| < TWO_64
    modifies s.Frame()
    ensures s.Encoded(ok, Some(WithLength(b)))
  {
    ok := EncodeVarint(s, |b|);
    if !ok {
      return;
    }
    ok := s.Write(b);
  }

  // ---- What a C struct can hold ----

  /** The struct holds values of the C types its descriptor names, and no size overflows 64 bits.
      Counts and sizes kept in the struct may still be too large: the encoder checks them. */
  predicate Held(lay: Layout, d: Desc, m: Message)
    decreases d, 1
  {
    forall i | 0 <= i < |d.fields| :: d.fields[i].tag < 0x2000_0000 && HeldField(lay, d.fields[i], m)
  }

  predicate HeldField(lay: Layout, f: Field, m: Message)
    decreases f, 1
  {
    match f.h
    case Repeated(n, counted) =>
      && f.tag in m && m[f.tag].List? && (!counted ==> |m[f.tag].vs| == n)
      && (Packable(f.l) ==> EncPacked(f.l, m[f.tag].vs).Some? && |EncPacked(f.l, m[f.tag].vs).value| < TWO_64)
      && forall k | 0 <= k < |m[f.tag].vs| :: HeldValue(lay, f.l, m[f.tag].vs[k])
    case Required => f.tag in m && HeldValue(lay, f.l, m[f.tag])
    case Optional(false) => f.tag in m && HeldValue(lay, f.l, m[f.tag])
    case _ => f.tag in m ==> HeldValue(lay, f.l, m[f.tag])
  }

  predicate HeldValue(lay: Layout, l: LType, v: Value)
    decreases l, 0
  {
    match l
    case Bytes(_) => v.Blob? && |v.b| < TWO_64
    case Str(n) => v.Blob? && |v.b| <= n < TWO_64 && 0 !in v.b
    case FixedBytes(n) => v.Blob? && |v.b| == n < TWO_64
    case Submessage(d) =>
      v.Msg? && Held(lay, d, v.m) && (EncMessage(lay, d, v.m).Some? ==> |EncMessage(lay, d, v.m).value| < TWO_64)
    case _ => EncScalar(l, v).Some?
  }

  // ---- The field encoders ----

  method EncodeScalar(s: OStream, l: LType, v: Value) returns (ok: bool)
    requires s.Valid() && EncScalar(l, v).Some?
    modifies s.Frame()
    ensures s.Encoded(ok, EncScalar(l, v))
  {
    match l
    case Varint(_) => ok := EncodeVarint(s, if v.n < 0 then v.n + TWO_64 else v.n);
    case UVarint(_) => ok := EncodeVarint(s, v.n);
    case SVarint(_) =>
      ZigZag64Inverse(v.n, 0);
      ok := EncodeVarint(s, ZigZag64(v.n));
    case Fixed32 => ok := EncodeFixed(s, v.n, 4);
    case Fixed64 => ok := EncodeFixed(s, v.n, 8);
  }

  method EncodeTagFor(s: OStream, f: Field) returns (ok: bool)
    requires s.Valid() && f.tag < 0x2000_0000
    modifies s.Frame()
    ensures s.Encoded(ok, Some(EncTagFor(f)))
  {
    var wireType := match f.l
      case Varint(_) => WT_VARINT
      case UVarint(_) => WT_VARINT
      case SVarint(_) => WT_VARINT
      case Fixed32 => WT_32BIT
      case Fixed64 => WT_64BIT
      case _ => WT_STRING;
    ok := EncodeTag(s, f.tag, wireType);
  }

  /** The sizes encode_array knows without a sizing pass. */
  lemma {:induction false} FixedPackedSize(l: LType, vs: seq<Value>)
    requires (l.Fixed32? || l.Fixed64?) && EncPacked(l, vs).Some?
    ensures |EncPacked(l, vs).value| == |vs| * if l.Fixed32? then 4 else 8
  {
    if vs != [] {
      FixedPackedSize(l, vs[1..]);
    }
  }

  lemma PackedStep(l: LType, vs: seq<Value>, i: nat)
    requires i < |vs|
    ensures EncPacked(l, vs[i..]) == Then(EncScalar(l, vs[i]), EncPacked(l, vs[i + 1..]))
  {
    assert vs[i..][0] == vs[i] && vs[i..][1..] == vs[i + 1..];
  }

  lemma NothingPacked(l: LType, vs: seq<Value>)
    requires vs == []
    ensures EncPacked(l, vs) == Some([])
  {
  }

  method EncodeItemsPacked(s: OStream, l: LType, vs: seq<Value>) returns (ok: bool)
    requires s.Valid() && EncPacked(l, vs).Some?
    modifies s.Frame()
    ensures s.Encoded(ok, EncPacked(l, vs))
  {
    hide EncScalar, EncPacked;
    ghost var start, done := s.out, [];
    assert vs[0..] == vs;
    assert start + done == start;
    for i := 0 to |vs|
      invariant s.Valid() && s.Confined() && s.out == start + done
      invariant EncPacked(l, vs[i..]).Some? && EncPacked(l, vs).value == done + EncPacked(l, vs[i..]).value
    {
      PackedStep(l, vs, i);
      ghost var b := EncScalar(l, vs[i]).value;
      ok := EncodeScalar(s, l, vs[i]);
      if !ok {
        return;
      }
      OneMoreItem(start, done, b, vs, i, l);
      done := done + b;
    }
    NothingPacked(l, vs[|vs|..]);
    ok := true;
  }

  lemma OneMoreItem(start: seq<byte>, done: seq<byte>, b: seq<byte>, vs: seq<Value>, i: nat, l: LType)
    requires i < |vs| && EncPacked(l, vs[i..]).Some? && EncPacked(l, vs[i + 1..]).Some?
    requires EncPacked(l, vs[i..]).value == b + EncPacked(l, vs[i + 1..]).value
    ensures start + (done + b) == start + done + b
    ensures done + EncPacked(l, vs[i..]).value == done + b + EncPacked(l, vs[i + 1..]).value
  {
    hide EncPacked;
  }

  method PackedSize(l: LType, vs: seq<Value>) returns (size: nat)
    requires EncPacked(l, vs).Some?
    ensures size == |EncPacked(l, vs).value|
  {
    if l.Fixed32? {
      FixedPackedSize(l, vs);
      size := 4 * |vs|;
    } else if l.Fixed64? {
      FixedPackedSize(l, vs);
      size := 8 * |vs|;
    } else {
      var sizing := new OStream.Sizing();
      var _ := EncodeItemsPacked(sizing, l, vs);
      size := sizing.written;
    }
  }

  /** encode_array. */
  method EncodeArray(lay: Layout, s: OStream, f: Field, vs: seq<Value>) returns (ok: bool)
    requires s.Valid() && f.tag < 0x2000_0000 && f.h.Repeated?
    requires Packable(f.l) ==> EncPacked(f.l, vs).Some? && |EncPacked(f.l, vs).value| < TWO_64
    requires forall k | 0 <= k < |vs| :: HeldValue(lay, f.l, vs[k])
    modifies s.Frame()
    ensures s.Encoded(ok, EncArray(lay, f, vs))
    decreases f, 1
  {
    hide EncPacked, EncItems, EncTag, EncTagFor, EncVarint, HeldValue;
    if |vs| == 0 {
      return true;
    }
    if |vs| > f.h.arraySize {
      return false;
    }
    if Packable(f.l) {
      ok := EncodeTag(s, f.tag, WT_STRING);
      if !ok {
        return;
      }
      var size := PackedSize(f.l, vs);
      ok := EncodeVarint(s, size);
      if !ok {
        return;
      }
      if s.dest == null {
        s.Count(size, EncPacked(f.l, vs).value);
        return true;
      }
      ok := EncodeItemsPacked(s, f.l, vs);
    } else {
      ok := EncodeItems(lay, s, f, vs);
    }
  }

  lemma ThenAfter(done: seq<byte>, a: Option<seq<byte>>, b: Option<seq<byte>>)
    ensures Then(Some([]), b) == b && Then(Some(done), Some([])) == Some(done)
    ensures Then(Some(done), Then(a, b)) == if a.None? then None else Then(Some(done + a.value), b)
  {
    if a.Some? && b.Some? {
      assert done + (a.value + b.value) == done + a.value + b.value;
    }
    if b.Some? {
      assert [] + b.value == b.value;
    }
    assert done + [] == done;
  }

  lemma ItemsStep(lay: Layout, f: Field, vs: seq<Value>, i: nat)
    requires i < |vs|
    ensures EncItems(lay, f, vs[i..]) ==
      Then(if EncValue(lay, f.l, vs[i]).None? then None else Some(EncTagFor(f) + EncValue(lay, f.l, vs[i]).value), EncItems(lay, f, vs[i + 1..]))
  {
    assert vs[i..][0] == vs[i] && vs[i..][1..] == vs[i + 1..];
  }

  lemma NoItems(lay: Layout, f: Field, vs: seq<Value>)
    requires vs == []
    ensures EncItems(lay, f, vs) == Some([])
  {
  }

  method EncodeItems(lay: Layout, s: OStream, f: Field, vs: seq<Value>) returns (ok: bool)
    requires s.Valid() && f.tag < 0x2000_0000
    requires forall k | 0 <= k < |vs| :: HeldValue(lay, f.l, vs[k])
    modifies s.Frame()
    ensures s.Encoded(ok, EncItems(lay, f, vs))
    decreases f, 0
  {
    hide EncValue, EncItems, EncTagFor, HeldValue;
    ghost var start, done := s.out, [];
    assert vs[0..] == vs;
    assert start + done == start;
    ThenAfter([], Some([]), EncItems(lay, f, vs));
    for i := 0 to |vs|
      invariant s.Valid() && s.Confined() && s.out == start + done
      invariant EncItems(lay, f, vs) == Then(Some(done), EncItems(lay, f, vs[i..]))
    {
      ItemsStep(lay, f, vs, i);
      ghost var b := EncValue(lay, f.l, vs[i]);
      ThenAfter(done, if b.None? then None else Some(EncTagFor(f) + b.value), EncItems(lay, f, vs[i + 1..]));
      ok := EncodeTagged(lay, s, f, vs[i]);
      if !ok {
        return;
      }
      done := done + (EncTagFor(f) + EncValue(lay, f.l, vs[i]).value);
    }
    NoItems(lay, f, vs[|vs|..]);
    ThenAfter(done, Some([]), Some([]));
    ok := true;
  }

  /** A tag and a value. */
  method EncodeTagged(lay: Layout, s: OStream, f: Field, v: Value) returns (ok: bool)
    requires s.Valid() && f.tag < 0x2000_0000 && HeldValue(lay, f.l, v)
    modifies s.Frame()
    ensures s.Encoded(ok, if EncValue(lay, f.l, v).None? then None else Some(EncTagFor(f) + EncValue(lay, f.l, v).value))
    decreases f.l, 1
  {
    hide EncValue, EncTagFor, HeldValue;
    ok := EncodeTagFor(s, f);
    if !ok {
      return;
    }
    ok := EncodeValue(lay, s, f.l, v);
  }

  /** PB_ENCODERS. */
  method EncodeValue(lay: Layout, s: OStream, l: LType, v: Value) returns (ok: bool)
    requires s.Valid() && HeldValue(lay, l, v)
    modifies s.Frame()
    ensures s.Encoded(ok, EncValue(lay, l, v))
    decreases l, 0
  {
    match l
    case Bytes(capacity) =>
      if |v.b| > capacity {
        return false;
      }
      ok := EncodeString(s, v.b);
    case Str(_) => ok := EncodeString(s, v.b);
    case FixedBytes(_) => ok := EncodeString(s, v.b);
    case Submessage(d) => ok := EncodeSubmessage(lay, s, d, v.m);
    case _ => ok := EncodeScalar(s, l, v);
  }

  /** pb_encode_submessage: size first, then the length, then the message. */
  method EncodeSubmessage(lay: Layout, s: OStream, d: Desc, m: Message) returns (ok: bool)
    requires s.Valid() && Held(lay, d, m) && (EncMessage(lay, d, m).Some? ==> |EncMessage(lay, d, m).value| < TWO_64)
    modifies s.Frame()
    ensures s.Encoded(ok, if EncMessage(lay, d, m).None? then None else Some(WithLength(EncMessage(lay, d, m).value)))
    decreases d, 6
  {
    hide EncMessage, EncVarint, Held;
    var sizing := new OStream.Sizing();
    ok := Encode(lay, sizing, d, m);
    if !ok {
      return;
    }
    var size := sizing.written;
    ok := EncodeVarint(s, size);
    if !ok {
      return;
    }
    if s.dest == null {
      s.Count(size, EncMessage(lay, d, m).value);
      return true;
    }
    ok := EncodeThrough(lay, s, d, m, size);
  }

  /** The writing pass, through a substream of exactly the size found. It cannot come out differently. */
  method EncodeThrough(lay: Layout, s: OStream, d: Desc, m: Message, size: nat) returns (ok: bool)
    requires s.Valid() && s.dest != null && Held(lay, d, m)
    requires EncMessage(lay, d, m).Some? && |EncMessage(lay, d, m).value| == size
    modifies s.Frame()
    ensures s.Encoded(ok, EncMessage(lay, d, m))
    decreases d, 5
  {
    hide EncMessage, Held;
    if s.written + size > s.maxSize {
      return false;
    }
    var sub := new OStream(s.dest, s.state, size);
    ok := Encode(lay, sub, d, m);
    assert s.dest[s.base..s.state] == s.out;
    s.Join(sub);
    if sub.written != size {
      assert false;
    }
  }

  /** pb_check_proto3_default_value. */
  method CheckDefault(lay: Layout, f: Field, m: Message) returns (zero: bool)
    requires HeldField(lay, f, m)
    ensures zero == ReadsAsDefault(lay, f, m)
    decreases f, 0
  {
    match f.h
    case Required => zero := false;
    case Repeated(_, counted) => zero := if counted then m[f.tag].vs == [] else ReadsAsCountZero(lay, f, m, m[f.tag].vs);
    case Oneof(_) => zero := f.tag !in m;
    case Optional(hasFlag) =>
      if hasFlag {
        return f.tag !in m;
      }
      match f.l
      case FixedBytes(n) => zero := n == 0;
      case Submessage(d) =>
        assert HeldValue(lay, f.l, m[f.tag]) && Held(lay, d, m[f.tag].m);
        for i := 0 to |d.fields|
          invariant forall k | 0 <= k < i :: ReadsAsDefault(lay, d.fields[k], m[f.tag].m)
        {
          var one := CheckDefault(lay, d.fields[i], m[f.tag].m);
          if !one {
            return false;
          }
        }
        zero := true;
      case _ => zero := m[f.tag] == Zero(f.l);
  }

  /** encode_basic_field. */
  method EncodeFieldOf(lay: Layout, s: OStream, f: Field, m: Message) returns (ok: bool)
    requires s.Valid() && f.tag < 0x2000_0000 && HeldField(lay, f, m)
    modifies s.Frame()
    ensures s.Encoded(ok, EncField(lay, f, m))
    decreases f, 2
  {
    hide EncValue, EncArray, EncTagFor, HeldValue, ReadsAsDefault;
    match f.h
    case Required => ok := EncodeTagged(lay, s, f, m[f.tag]);
    case Optional(hasFlag) =>
      var present := f.tag in m;
      if !hasFlag {
        var zero := CheckDefault(lay, f, m);
        present := !zero;
      }
      if !present {
        return true;
      }
      ok := EncodeTagged(lay, s, f, m[f.tag]);
    case Repeated(_, _) => ok := EncodeArray(lay, s, f, m[f.tag].vs);
    case Oneof(_) =>
      if f.tag !in m {
        return true;
      }
      ok := EncodeTagged(lay, s, f, m[f.tag]);
  }

  /** pb_encode. */
  method Encode(lay: Layout, s: OStream, d: Desc, m: Message) returns (ok: bool)
    requires s.Valid() && Held(lay, d, m)
    modifies s.Frame()
    ensures s.Encoded(ok, EncMessage(lay, d, m))
    decreases d, 4
  {
    hide EncField, HeldField;
    ghost var start, done := s.out, [];
    assert start + done == start;
    ThenAfter([], Some([]), EncFields(lay, d, m, 0));
    for i := 0 to |d.fields|
      invariant s.Valid() && s.Confined() && s.out == start + done
      invariant EncMessage(lay, d, m) == Then(Some(done), EncFields(lay, d, m, i))
    {
      ThenAfter(done, EncField(lay, d.fields[i], m), EncFields(lay, d, m, i + 1));
      ok := EncodeFieldOf(lay, s, d.fields[i], m);
      if !ok {
        return;
      }
      done := done + EncField(lay, d.fields[i], m).value;
    }
    ThenAfter(done, Some([]), Some([]));
    ok := true;
  }

  /** pb_encode_nullterminated. */
  method EncodeNullTerminated(lay: Layout, s: OStream, d: Desc, m: Message) returns (ok: bool)
    requires s.Valid() && Held(lay, d, m)
    modifies s.Frame()
    ensures s.Encoded(ok, Then(EncMessage(lay, d, m), Some([0])))
  {
    hide EncMessage, Held;
    ok := Encode(lay, s, d, m);
    if !ok {
      return;
    }
    ok := s.Write([0]);
  }

  /** pb_get_encoded_size. */
  method EncodedSize(lay: Layout, d: Desc, m: Message) returns (size: Option<nat>)
    requires Held(lay, d, m)
    ensures EncMessage(lay, d, m).None? ==> size == None
    ensures EncMessage(lay, d, m).Some? ==> size == Some(|EncMessage(lay, d, m).value|)
  {
    hide EncMessage, Held;
    var sizing := new OStream.Sizing();
    var ok := Encode(lay, sizing, d, m);
    size := if ok then Some(sizing.written) else None;
  }
}
