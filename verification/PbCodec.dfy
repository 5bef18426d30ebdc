/** What nanopb writes for a message and what it reads back, on byte sequences. PbEncode and
    PbDecode do the same over stream objects. */
module PbCodec {
  import opened Common
  import opened PbWire
  import opened PbSchema

  /** Whether bytes that no value determines are zero, among those that are read as the count of the
      fixed-count array in this field of this message (pb_encode.c:225-229): what lies behind a short
      array or a terminator, and how a submessage is laid out. */
  type Layout = (Field, Message) -> bool

  // ---- Encoding ----

  function Unsigned(n: int): nat
    requires -TWO_63 <= n
  {
    if n < 0 then n + TWO_64 else n
  }

  /** A scalar of a packable type: none if the value is not one of its C type. */
  function EncScalar(l: LType, v: Value): (r: Option<seq<byte>>)
    ensures r.Some? ==> |r.value| > 0
  {
    match l
    case Varint(n) =>
      if IntegerSize(n) && v.Num? && -SignedBound(n) <= v.n < SignedBound(n) then Some(EncVarint(Unsigned(v.n))) else None
    case UVarint(n) =>
      if IntegerSize(n) && v.Num? && 0 <= v.n < 2 * SignedBound(n) then Some(EncVarint(v.n)) else None
    case SVarint(n) =>
      if IntegerSize(n) && v.Num? && -SignedBound(n) <= v.n < SignedBound(n) then Some(EncVarint(ZigZag(v.n))) else None
    case Fixed32 => if v.Num? && 0 <= v.n < TWO_32 then Some(EncFixed(v.n, 4)) else None
    case Fixed64 => if v.Num? && 0 <= v.n < TWO_64 then Some(EncFixed(v.n, 8)) else None
    case _ => None
  }

  function WithLength(b: seq<byte>): seq<byte> {
    EncVarint(|b|) + b
  }

  function Then(a: Option<seq<byte>>, b: Option<seq<byte>>): Option<seq<byte>> {
    if a.None? || b.None? then None else Some(a.value + b.value)
  }

  /** The field encoders of PB_ENCODERS. */
  function EncValue(lay: Layout, l: LType, v: Value): Option<seq<byte>>
    decreases l, 0
  {
    match l
    case Bytes(n) => if v.Blob? && |v.b| <= n then Some(WithLength(v.b)) else None
    case Str(n) => if v.Blob? && |v.b| <= n && 0 !in v.b then Some(WithLength(v.b)) else None
    case FixedBytes(n) => if v.Blob? && |v.b| == n then Some(WithLength(v.b)) else None
    case Submessage(d) =>
      if !v.Msg? then None
      else
        var b := EncMessage(lay, d, v.m);
        if b.None? then None else Some(WithLength(b.value))
    case _ => EncScalar(l, v)
  }

  function EncTagFor(f: Field): seq<byte> {
    EncTag(f.tag, WireType(f.l))
  }

  function EncPacked(l: LType, vs: seq<Value>): Option<seq<byte>> {
    if vs == [] then Some([]) else Then(EncScalar(l, vs[0]), EncPacked(l, vs[1..]))
  }

  function EncItems(lay: Layout, f: Field, vs: seq<Value>): Option<seq<byte>>
    decreases f, 0, |vs|
  {
    if vs == [] then Some([])
    else
      var b := EncValue(lay, f.l, vs[0]);
      Then(if b.None? then None else Some(EncTagFor(f) + b.value), EncItems(lay, f, vs[1..]))
  }

  /** encode_array. Arrays are packed whenever the type allows it. */
  function EncArray(lay: Layout, f: Field, vs: seq<Value>): Option<seq<byte>>
    requires f.h.Repeated?
    decreases f, 1
  {
    if vs == [] then Some([])
    else if |vs| > f.h.arraySize then None
    else if Packable(f.l) then
      var b := EncPacked(f.l, vs);
      if b.None? then None else Some(EncTag(f.tag, WT_STRING) + WithLength(b.value))
    else EncItems(lay, f, vs)
  }

  /** The number in its COUNT_SIZE low bytes, which come first. */
  predicate LowWordZero(size: nat, v: Value) {
    v.Num? && if size > COUNT_SIZE then v.n % TWO_32 == 0 else v.n == 0
  }

  /** Whether the first COUNT_SIZE bytes of a fixed-count array are zero, which
      pb_check_proto3_default_value takes for a count of zero. */
  predicate ReadsAsCountZero(lay: Layout, f: Field, m: Message, vs: seq<Value>) {
    match f.l
    case Submessage(_) => lay(f, m)
    case Bytes(_) => vs != [] && vs[0] == Blob([])
    case Str(size) => lay(f, m) && forall k | 0 <= k < |vs| && k * size < COUNT_SIZE :: vs[k] == Blob([])
    case FixedBytes(size) =>
      && (|vs| * size < COUNT_SIZE ==> lay(f, m))
      && forall k | 0 <= k < |vs| && k * size < COUNT_SIZE :: FirstBytesZero(vs[k], COUNT_SIZE - k * size)
    case _ =>
      && (|vs| * SizeOf(f.l) < COUNT_SIZE ==> lay(f, m))
      && forall k | 0 <= k < |vs| && k * SizeOf(f.l) < COUNT_SIZE :: LowWordZero(SizeOf(f.l), vs[k])
  }

  predicate FirstBytesZero(v: Value, n: nat) {
    v.Blob? && forall j | 0 <= j < |v.b| && j < n :: v.b[j] == 0
  }

  /** pb_check_proto3_default_value. For a member of a oneof the source looks at the whole oneof;
      over all fields of a message that comes to the same. */
  predicate ReadsAsDefault(lay: Layout, f: Field, m: Message)
    decreases f, 0
  {
    match f.h
    case Required => false
    case Repeated(n, counted) =>
      f.tag in m && m[f.tag].List? && if counted then m[f.tag].vs == [] else ReadsAsCountZero(lay, f, m, m[f.tag].vs)
    case Oneof(_) => f.tag !in m
    case Optional(true) => f.tag !in m
    case Optional(false) =>
      f.tag in m &&
      match f.l
      case FixedBytes(n) => n == 0
      case Submessage(d) => m[f.tag].Msg? && AllReadAsDefault(lay, d, m[f.tag].m)
      case _ => m[f.tag] == Zero(f.l)
  }

  predicate AllReadAsDefault(lay: Layout, d: Desc, m: Message)
    decreases d, 1
  {
    forall i | 0 <= i < |d.fields| :: ReadsAsDefault(lay, d.fields[i], m)
  }

  /** encode_basic_field for a static field. */
  function EncField(lay: Layout, f: Field, m: Message): Option<seq<byte>>
    decreases f, 2
  {
    match f.h
    case Repeated(n, counted) =>
      if f.tag !in m || !m[f.tag].List? || (!counted && |m[f.tag].vs| != n) then None
      else EncArray(lay, f, m[f.tag].vs)
    case _ =>
      if f.tag !in m then (if f.h == Required || f.h == Optional(false) then None else Some([]))
      else if f.h == Optional(false) && ReadsAsDefault(lay, f, m) then Some([])
      else
        var b := EncValue(lay, f.l, m[f.tag]);
        if b.None? then None else Some(EncTagFor(f) + b.value)
  }

  function EncFields(lay: Layout, d: Desc, m: Message, i: nat): Option<seq<byte>>
    requires i <= |d.fields|
    decreases d, 1, |d.fields| - i
  {
    if i == |d.fields| then Some([])
    else Then(EncField(lay, d.fields[i], m), EncFields(lay, d, m, i + 1))
  }

  /** pb_encode. */
  function EncMessage(lay: Layout, d: Desc, m: Message): Option<seq<byte>>
    decreases d, 2
  {
    EncFields(lay, d, m, 0)
  }

  // ---- Decoding ----

  const MAX_REQUIRED_FIELDS := 64

  /** Two's complement reading of the low `2 * half` values. */
  function Signed(n: nat, half: nat): int
    requires half > 0
  {
    if n % (2 * half) < half then n % (2 * half) else n % (2 * half) - 2 * half
  }

  function DecScalar(l: LType, s: seq<byte>): (r: Option<Got<Value>>)
    ensures r.Some? ==> |r.value.rest| < |s| && r.value.value.Num?
  {
    match l
    case Fixed32 => if |s| < 4 then None else Some(Got(Num(FixedValue(s[..4])), s[4..]))
    case Fixed64 => if |s| < 8 then None else Some(Got(Num(FixedValue(s[..8])), s[8..]))
    case Varint(n) =>
      var v := Dec64(s);
      if v.None? || !IntegerSize(n) then None
      else
        // Up to 32 bits the value is first cut to an int32, whatever its upper half.
        var x := if n == 8 then Signed(v.value.value, TWO_63) else Signed(v.value.value, 0x8000_0000);
        if -SignedBound(n) <= x < SignedBound(n) then Some(Got(Num(x), v.value.rest)) else None
    case UVarint(n) =>
      var v := Dec64(s);
      if v.None? || !IntegerSize(n) || v.value.value >= 2 * SignedBound(n) then None
      else Some(Got(Num(v.value.value), v.value.rest))
    case SVarint(n) =>
      var v := Dec64(s);
      if v.None? || !IntegerSize(n) then None
      else
        var x := ZagZig(v.value.value);
        if -SignedBound(n) <= x < SignedBound(n) then Some(Got(Num(x), v.value.rest)) else None
    case _ => None
  }

  /** pb_make_string_substream: a length and that many bytes. */
  function DecString(s: seq<byte>): (r: Option<Got<seq<byte>>>)
    ensures r.Some? ==> |r.value.value| < |s| && |r.value.rest| < |s|
  {
    var len := Dec32(s);
    if len.None? || len.value.value > |len.value.rest| then None
    else Some(Got(len.value.rest[..len.value.value], len.value.rest[len.value.value..]))
  }

  /** The C string in a char array. */
  function CString(b: seq<byte>): (r: seq<byte>)
    ensures 0 !in b ==> r == b
  {
    if b == [] || b[0] == 0 then [] else [b[0]] + CString(b[1..])
  }

  /** The field decoders of PB_DECODERS. `cur` is what the destination holds: a submessage is
      decoded into it. */
  function DecValue(mem: Memory, l: LType, s: seq<byte>, cur: Value): (r: Option<Got<Value>>)
    ensures r.Some? ==> |r.value.rest| < |s|
    decreases |s|, 0
  {
    match l
    case Bytes(n) =>
      var b := DecString(s);
      if b.None? || |b.value.value| > n then None else Some(Got(Blob(b.value.value), b.value.rest))
    case Str(n) =>
      var b := DecString(s);
      if b.None? || |b.value.value| + 1 > n then None else Some(Got(Blob(CString(b.value.value)), b.value.rest))
    case FixedBytes(n) =>
      var b := DecString(s);
      if b.None? then None
      else if b.value.value == [] then Some(Got(Blob(seq(n, _ => 0)), b.value.rest))
      else if |b.value.value| != n then None
      else Some(Got(Blob(b.value.value), b.value.rest))
    case Submessage(d) =>
      var b := DecString(s);
      if b.None? || !cur.Msg? then None
      else
        var m := DecodeNoInit(mem, d, b.value.value, cur.m);
        if m.None? then None else Some(Got(Msg(m.value.value), b.value.rest))
    case _ => DecScalar(l, s)
  }

  /** pb_skip_varint: any number of continuation bytes. */
  function SkipVarint(s: seq<byte>): (r: Option<seq<byte>>)
    ensures r.Some? ==> |r.value| < |s|
  {
    var n := VarintLength(s);
    if n.None? then None else Some(s[n.value..])
  }

  /** pb_skip_field. */
  function SkipField(wireType: nat, s: seq<byte>): (r: Option<seq<byte>>)
    ensures r.Some? ==> |r.value| <= |s|
  {
    if wireType == WT_VARINT then SkipVarint(s)
    else if wireType == WT_64BIT then (if |s| < 8 then None else Some(s[8..]))
    else if wireType == WT_STRING then
      var b := DecString(s);
      if b.None? then None else Some(b.value.rest)
    else if wireType == WT_32BIT then (if |s| < 4 then None else Some(s[4..]))
    else None
  }

  /** The state of pb_decode_noinit's loop: the message so far, the fixed-count array being
      received, and the indices of the required fields seen. */
  datatype Loop = Loop(m: Message, fixed: Option<nat>, seen: set<nat>)

  function RequiredBefore(d: Desc, i: nat): nat
    requires i <= |d.fields|
  {
    if i == 0 then 0 else RequiredBefore(d, i - 1) + if d.fields[i - 1].h == Required then 1 else 0
  }

  function RequiredIndex(d: Desc, tag: nat): nat
    requires Has(d, tag)
  {
    RequiredBefore(d, IndexFrom(d.fields, tag))
  }

  function Elements(m: Message, tag: nat): seq<Value> {
    if tag in m && m[tag].List? then m[tag].vs else []
  }

  predicate FixedComplete(d: Desc, st: Loop) {
    st.fixed.Some? && Has(d, st.fixed.value) && FieldOf(d, st.fixed.value).h.Repeated? ==>
      |Elements(st.m, st.fixed.value)| == FieldOf(d, st.fixed.value).h.arraySize
  }

  /** Start or continue a fixed-count array: a different one must have been complete. */
  function EnterFixed(d: Desc, f: Field, st: Loop): Option<Loop> {
    if !(f.h.Repeated? && !f.h.counted) || st.fixed == Some(f.tag) then Some(st)
    else if !FixedComplete(d, st) then None
    else Some(Loop(st.m[f.tag := List([])], Some(f.tag), st.seen))
  }

  function MarkSeen(d: Desc, f: Field, st: Loop): Loop
    requires Has(d, f.tag)
  {
    if f.h == Required && RequiredIndex(d, f.tag) < MAX_REQUIRED_FIELDS then
      st.(seen := st.seen + {RequiredIndex(d, f.tag)})
    else st
  }

  function DecPacked(l: LType, s: seq<byte>, vs: seq<Value>, max: nat): Option<seq<Value>>
    decreases |s|
  {
    if s == [] then Some(vs)
    else if |vs| >= max then None
    else
      var v := DecScalar(l, s);
      if v.None? then None else DecPacked(l, v.value.rest, vs + [v.value.value], max)
  }

  function ClearOneof(d: Desc, f: Field, m: Message): Message {
    map t <- m | !(Has(d, t) && FieldOf(d, t).h == f.h && t != f.tag) :: m[t]
  }

  /** decode_static_field: the wire type only decides whether a repeated field is packed. */
  function DecField(mem: Memory, d: Desc, f: Field, wireType: nat, s: seq<byte>, st: Loop): (r: Option<Got<Loop>>)
    ensures r.Some? ==> |r.value.rest| <= |s|
    decreases |s|, 1
  {
    match f.h
    case Repeated(n, _) =>
      var vs := Elements(st.m, f.tag);
      if wireType == WT_STRING && Packable(f.l) then
        var b := DecString(s);
        if b.None? then None
        else
          var items := DecPacked(f.l, b.value.value, vs, n);
          if items.None? then None else Some(Got(st.(m := st.m[f.tag := List(items.value)]), b.value.rest))
      else if |vs| >= n then None
      else
        var v := DecValue(Within(mem, f), f.l, s, ResetValue(mem, f));
        if v.None? then None else Some(Got(st.(m := st.m[f.tag := List(vs + [v.value.value])]), v.value.rest))
    case Oneof(_) =>
      var v := DecValue(Within(mem, f), f.l, s, ResetValue(mem, f));
      if v.None? then None else Some(Got(st.(m := ClearOneof(d, f, st.m)[f.tag := v.value.value]), v.value.rest))
    case _ =>
      var v := DecValue(Within(mem, f), f.l, s, if f.tag in st.m then st.m[f.tag] else ResetValue(mem, f));
      if v.None? then None else Some(Got(st.(m := st.m[f.tag := v.value.value]), v.value.rest))
  }

  /** The loop of pb_decode_noinit. It ends at the end of the stream or at a zero tag. */
  function DecLoop(mem: Memory, d: Desc, s: seq<byte>, st: Loop): (r: Option<Got<Loop>>)
    ensures r.Some? ==> |r.value.rest| <= |s|
    decreases |s|, 2
  {
    if s == [] then Some(Got(st, []))
    else match DecTag(s)
      case TagError => None
      case EndOfMessage(rest) => Some(Got(st, rest))
      case Tag(tag, wireType, rest) =>
        if Has(d, tag) then
          var f := FieldOf(d, tag);
          var entered := EnterFixed(d, f, st);
          if entered.None? then None
          else
            var next := DecField(mem, d, f, wireType, rest, MarkSeen(d, f, entered.value));
            if next.None? then None else DecLoop(mem, d, next.value.rest, next.value.value)
        else if d.fields == [] && tag == 0 then None  // The terminator of an empty descriptor is found, and has no size.
        else
          var skipped := SkipField(wireType, rest);
          if skipped.None? then None else DecLoop(mem, d, skipped.value, st)
  }

  /** The checks after the loop: the array being received, and the first 64 required fields. */
  predicate Finished(d: Desc, st: Loop) {
    FixedComplete(d, st) &&
    forall k | 0 <= k < RequiredBefore(d, |d.fields|) && k < MAX_REQUIRED_FIELDS :: k in st.seen
  }

  /** pb_decode_noinit. */
  function DecodeNoInit(mem: Memory, d: Desc, s: seq<byte>, m: Message): (r: Option<Got<Message>>)
    ensures r.Some? ==> |r.value.rest| <= |s|
    decreases |s|, 3
  {
    var r := DecLoop(mem, d, s, Loop(m, None, {}));
    if r.None? || !Finished(d, r.value.value) then None
    else Some(Got(r.value.value.m, r.value.rest))
  }

  /** pb_decode. */
  function Decode(mem: Memory, d: Desc, s: seq<byte>): Option<Got<Message>> {
    DecodeNoInit(mem, d, s, Defaults(mem, d))
  }
}
