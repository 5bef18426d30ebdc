/** Decoding undoes encoding, for every schema, every well-formed message and every sub-schema the
    reader may have. */
module PbRoundTrip {
  import opened Common
  import opened PbWire
  import opened PbSchema
  import opened PbCodec

  // ---- What the reader sees ----

  /** What decoding under `sub` makes of a message encoded under `d`: the projection onto `sub`,
      except that a proto3 submessage the encoder left out reads as its initial value. */
  function AsRead(lay: Layout, mem: Memory, sub: Desc, d: Desc, m: Message): Message
    decreases sub, 2
  {
    map t <- m | Has(sub, t) && Has(d, t) :: ReadField(lay, mem, FieldOf(sub, t), FieldOf(d, t), m, m[t])
  }

  predicate LeftOut(lay: Layout, f: Field, m: Message) {
    f.h == Optional(false) && ReadsAsDefault(lay, f, m)
  }

  function ReadField(lay: Layout, mem: Memory, g: Field, f: Field, m: Message, v: Value): Value
    decreases g, 1
  {
    if LeftOut(lay, f, m) then InitialValue(mem, g)
    else if v.List? then List(seq(|v.vs|, i requires 0 <= i < |v.vs| => ReadItem(lay, mem, g, f, v.vs[i])))
    else ReadItem(lay, mem, g, f, v)
  }

  function ReadItem(lay: Layout, mem: Memory, g: Field, f: Field, v: Value): Value
    decreases g, 0
  {
    if g.l.Submessage? && f.l.Submessage? && v.Msg? then Msg(AsRead(lay, Within(mem, g), g.l.desc, f.l.desc, v.m)) else v
  }

  // ---- Scalars, strings and packed arrays ----

  lemma SignedUnsigned(n: int, half: nat)
    requires half in {0x8000_0000, TWO_63} && 0 <= n + half < 2 * half
    ensures Signed(Unsigned(n), half) == n
  {
  }

  lemma ScalarDecodes(l: LType, v: Value, rest: seq<byte>)
    requires Packable(l) && WfValue(l, v) && EncScalar(l, v).Some?
    ensures DecScalar(l, EncScalar(l, v).value + rest) == Some(Got(v, rest))
  {
    hide Dec64, EncVarint, EncFixed, FixedValue;
    match l
    case Varint(n) =>
      Dec64Encoded(Unsigned(v.n), rest);
      SignedUnsigned(v.n, if n == 8 then TWO_63 else 0x8000_0000);
    case UVarint(n) => Dec64Encoded(v.n, rest);
    case SVarint(n) =>
      ZigZagInverse(v.n, 0);
      Dec64Encoded(ZigZag(v.n), rest);
    case Fixed32 => FixedDecodes(v.n, 4, rest);
    case Fixed64 => FixedDecodes(v.n, 8, rest);
  }

  lemma FixedDecodes(n: nat, width: nat, rest: seq<byte>)
    requires (width == 4 && n < TWO_32) || (width == 8 && n < TWO_64)
    ensures var s := EncFixed(n, width) + rest;
      |s| >= width && FixedValue(s[..width]) == n && s[width..] == rest
  {
    assert Pow256(4) == TWO_32;
    assert Pow256(8) == 256 * (256 * (256 * (256 * Pow256(4))));
    FixedInverse(n, width);
    assert (EncFixed(n, width) + rest)[..width] == EncFixed(n, width);
  }

  lemma StringDecodes(b: seq<byte>, rest: seq<byte>)
    requires |b| < TWO_32
    ensures DecString(WithLength(b) + rest) == Some(Got(b, rest))
  {
    Dec32Encoded(|b|, b + rest);
    assert WithLength(b) + rest == EncVarint(|b|) + (b + rest);
    assert (b + rest)[..|b|] == b && (b + rest)[|b|..] == rest;
  }

  lemma {:induction false} PackedDecodes(l: LType, vs: seq<Value>, before: seq<Value>, max: nat)
    requires Packable(l) && EncPacked(l, vs).Some? && |before| + |vs| <= max
    requires forall i | 0 <= i < |vs| :: WfValue(l, vs[i])
    ensures DecPacked(l, EncPacked(l, vs).value, before, max) == Some(before + vs)
    decreases |vs|
  {
    hide EncScalar, DecScalar, WfValue;
    if vs == [] {
      assert before + vs == before;
    } else {
      ScalarDecodes(l, vs[0], EncPacked(l, vs[1..]).value);
      PackedDecodes(l, vs[1..], before + [vs[0]], max);
      assert before + [vs[0]] + vs[1..] == before + vs;
    }
  }

  lemma CStringOfNone(b: seq<byte>)
    requires 0 !in b
    ensures CString(b) == b
  {
  }

  // ---- Positions in a message ----

  /** What the reader has for tag `t` once the fields of `d` before `i` have been read. */
  function FieldAt(lay: Layout, mem: Memory, sub: Desc, d: Desc, m: Message, t: nat, i: nat): Option<Value>
    requires Has(sub, t) && Has(d, t)
  {
    if IndexFrom(d.fields, t) < i then
      if t in m then Some(ReadField(lay, mem, FieldOf(sub, t), FieldOf(d, t), m, m[t])) else None
    else if Initially(FieldOf(sub, t)) then Some(InitialValue(mem, FieldOf(sub, t)))
    else None
  }

  function AfterFields(lay: Layout, mem: Memory, sub: Desc, d: Desc, m: Message, i: nat): Message {
    map t <- Tags(sub) | Has(sub, t) && Has(d, t) && FieldAt(lay, mem, sub, d, m, t, i).Some? ::
      FieldAt(lay, mem, sub, d, m, t, i).value
  }

  lemma SubHas(sub: Desc, d: Desc, t: nat)
    requires SubDesc(sub, d) && Has(sub, t)
    ensures Has(d, t) && SubField(FieldOf(sub, t), FieldOf(d, t)) && t in Tags(sub)
  {
    var i := IndexFrom(sub.fields, t);
    assert SubField(sub.fields[i], FieldOf(d, sub.fields[i].tag));
  }

  lemma AfterNone(lay: Layout, mem: Memory, sub: Desc, d: Desc, m: Message)
    requires SubDesc(sub, d)
    ensures AfterFields(lay, mem, sub, d, m, 0) == Defaults(mem, sub)
  {
    hide ReadField, InitialValue, SubDesc, SubField, FieldOf;
    var left, right := AfterFields(lay, mem, sub, d, m, 0), Defaults(mem, sub);
    forall t: nat
      ensures t in left <==> t in right
      ensures t in left ==> left[t] == right[t]
    {
      HasIsTag(sub, t);
      if Has(sub, t) {
        SubHas(sub, d, t);
      }
    }
  }

  lemma AfterAll(lay: Layout, mem: Memory, sub: Desc, d: Desc, m: Message)
    requires SubDesc(sub, d)
    ensures AfterFields(lay, mem, sub, d, m, |d.fields|) == AsRead(lay, mem, sub, d, m)
  {
    forall t | Has(sub, t)
      ensures t in Tags(sub) && Has(d, t)
    {
      SubHas(sub, d, t);
    }
  }

  lemma FieldAtStep(lay: Layout, mem: Memory, sub: Desc, d: Desc, m: Message, t: nat, i: nat)
    requires Has(sub, t) && SubDesc(sub, d) && WfDesc(d) && WfMessage(d, m) && i < |d.fields|
    ensures Has(d, t) && t in Tags(sub)
    ensures var f := d.fields[i];
      FieldAt(lay, mem, sub, d, m, t, i + 1) ==
        if t == f.tag && t in m then Some(ReadField(lay, mem, FieldOf(sub, t), f, m, m[t])) else FieldAt(lay, mem, sub, d, m, t, i)
    ensures t == d.fields[i].tag ==>
      FieldAt(lay, mem, sub, d, m, t, i) == if Initially(FieldOf(sub, t)) then Some(InitialValue(mem, FieldOf(sub, t))) else None
  {
    hide ReadField, InitialValue;
    var f := d.fields[i];
    FieldOfIndex(d, i);
    SubHas(sub, d, t);
    assert WfFieldValue(f, m);
  }

  lemma AfterAt(lay: Layout, mem: Memory, sub: Desc, d: Desc, m: Message, t: nat, i: nat)
    requires SubDesc(sub, d)
    ensures Has(sub, t) ==> Has(d, t)
    ensures var after := AfterFields(lay, mem, sub, d, m, i);
      && (t in after <==> Has(sub, t) && FieldAt(lay, mem, sub, d, m, t, i).Some?)
      && (t in after ==> after[t] == FieldAt(lay, mem, sub, d, m, t, i).value)
  {
    hide FieldAt;
    if Has(sub, t) {
      SubHas(sub, d, t);
    }
  }

  /** Reading field `i` changes the reader's entry for its tag and nothing else. */
  lemma AfterStep(lay: Layout, mem: Memory, sub: Desc, d: Desc, m: Message, i: nat)
    requires SubDesc(sub, d) && WfDesc(d) && WfMessage(d, m) && i < |d.fields|
    ensures var f, before, after := d.fields[i], AfterFields(lay, mem, sub, d, m, i), AfterFields(lay, mem, sub, d, m, i + 1);
      after == if Has(sub, f.tag) && f.tag in m then before[f.tag := ReadField(lay, mem, FieldOf(sub, f.tag), f, m, m[f.tag])] else before
    ensures var f, before := d.fields[i], AfterFields(lay, mem, sub, d, m, i);
      Has(sub, f.tag) ==>
        var g := FieldOf(sub, f.tag);
        if Initially(g) then f.tag in before && before[f.tag] == InitialValue(mem, g) else f.tag !in before
  {
    hide ReadField, InitialValue, FieldAt, AfterFields, WfDesc, WfMessage, SubDesc;
    var f, before, after := d.fields[i], AfterFields(lay, mem, sub, d, m, i), AfterFields(lay, mem, sub, d, m, i + 1);
    var want := if Has(sub, f.tag) && f.tag in m then before[f.tag := ReadField(lay, mem, FieldOf(sub, f.tag), f, m, m[f.tag])] else before;
    forall t: nat
      ensures t in after <==> t in want
      ensures t in after ==> after[t] == want[t]
    {
      AfterAt(lay, mem, sub, d, m, t, i);
      AfterAt(lay, mem, sub, d, m, t, i + 1);
      if Has(sub, t) {
        FieldAtStep(lay, mem, sub, d, m, t, i);
      }
    }
    AfterAt(lay, mem, sub, d, m, f.tag, i);
    if Has(sub, f.tag) {
      FieldAtStep(lay, mem, sub, d, m, f.tag, i);
    }
  }

  // ---- Skipping what the reader does not know ----

  lemma ValueSkips(lay: Layout, l: LType, v: Value, rest: seq<byte>)
    requires EncValue(lay, l, v).Some? && |EncValue(lay, l, v).value| < TWO_32
    ensures SkipField(WireType(l), EncValue(lay, l, v).value + rest) == Some(rest)
  {
    hide EncMessage, DecString, EncVarint, VarintLength, EncFixed, SkipVarint, ZigZag;
    var b := EncValue(lay, l, v).value;
    match l
    case Varint(_) => VarintSkips(Unsigned(v.n), rest);
    case UVarint(_) => VarintSkips(v.n, rest);
    case SVarint(_) => VarintSkips(ZigZag(v.n), rest);
    case Fixed32 => assert (b + rest)[4..] == rest;
    case Fixed64 => assert (b + rest)[8..] == rest;
    case Submessage(d) => StringDecodes(EncMessage(lay, d, v.m).value, rest);
    case _ => StringDecodes(v.b, rest);
  }

  lemma VarintSkips(n: nat, rest: seq<byte>)
    ensures SkipVarint(EncVarint(n) + rest) == Some(rest)
  {
    EncVarintShape(n, rest);
    assert (EncVarint(n) + rest)[|EncVarint(n)|..] == rest;
  }

  /** A tagged value the reader's schema lacks is consumed exactly. */
  lemma UnknownSkipped(lay: Layout, mem: Memory, sub: Desc, f: Field, v: Value, st: Loop, rest: seq<byte>)
    requires WfField(f) && !Has(sub, f.tag)
    requires EncValue(lay, f.l, v).Some? && |EncValue(lay, f.l, v).value| < TWO_32
    ensures DecLoop(mem, sub, EncTagFor(f) + EncValue(lay, f.l, v).value + rest, st) == DecLoop(mem, sub, rest, st)
  {
    hide DecTag, EncTag, SkipField, EncValue;
    var b := EncValue(lay, f.l, v).value;
    DecTagEncoded(f.tag, WireType(f.l), b + rest);
    ValueSkips(lay, f.l, v, rest);
    assert EncTagFor(f) + b + rest == EncTagFor(f) + (b + rest);
    TagNotEmpty(f.tag, WireType(f.l));
  }

  lemma TagNotEmpty(tag: nat, wireType: nat)
    requires wireType < 8
    ensures EncTag(tag, wireType) != []
  {
  }

  lemma PackedSkipped(mem: Memory, sub: Desc, tag: nat, b: seq<byte>, st: Loop, rest: seq<byte>)
    requires 0 < tag < 0x2000_0000 && !Has(sub, tag) && |b| < TWO_32
    ensures DecLoop(mem, sub, EncTag(tag, WT_STRING) + WithLength(b) + rest, st) == DecLoop(mem, sub, rest, st)
  {
    hide DecTag, EncTag, WithLength;
    DecTagEncoded(tag, WT_STRING, WithLength(b) + rest);
    StringDecodes(b, rest);
    assert EncTag(tag, WT_STRING) + WithLength(b) + rest == EncTag(tag, WT_STRING) + (WithLength(b) + rest);
    TagNotEmpty(tag, WT_STRING);
  }

  lemma {:induction false} ItemsSkipped(lay: Layout, mem: Memory, sub: Desc, f: Field, vs: seq<Value>, st: Loop, rest: seq<byte>)
    requires WfField(f) && !Has(sub, f.tag)
    requires EncItems(lay, f, vs).Some? && |EncItems(lay, f, vs).value| < TWO_32
    ensures DecLoop(mem, sub, EncItems(lay, f, vs).value + rest, st) == DecLoop(mem, sub, rest, st)
    decreases |vs|
  {
    if vs == [] {
      assert [] + rest == rest;
    } else {
      var tail := EncItems(lay, f, vs[1..]).value;
      var head := EncTagFor(f) + EncValue(lay, f.l, vs[0]).value;
      assert EncItems(lay, f, vs).value + rest == head + (tail + rest);
      UnknownSkipped(lay, mem, sub, f, vs[0], st, tail + rest);
      ItemsSkipped(lay, mem, sub, f, vs[1..], st, rest);
    }
  }

  // ---- Reading what the reader knows ----

  lemma KnownTag(mem: Memory, sub: Desc, tag: nat, wireType: nat, payload: seq<byte>, st: Loop)
    requires Has(sub, tag) && 0 < tag < 0x2000_0000 && wireType < 8
    ensures var g := FieldOf(sub, tag);
      var entered := EnterFixed(sub, g, st);
      DecLoop(mem, sub, EncTag(tag, wireType) + payload, st) ==
        if entered.None? then None
        else
          var next := DecField(mem, sub, g, wireType, payload, MarkSeen(sub, g, entered.value));
          if next.None? then None else DecLoop(mem, sub, next.value.rest, next.value.value)
  {
    hide DecTag, EncTag, DecField, EnterFixed, MarkSeen;
    DecTagEncoded(tag, wireType, payload);
    TagNotEmpty(tag, wireType);
  }

  /** The encoded message, or nothing, is followed by nothing or by a zero tag. */
  predicate EndsHere(tail: seq<byte>) {
    tail == [] || tail[0] == 0
  }

  function Behind(tail: seq<byte>): seq<byte> {
    if tail == [] then [] else tail[1..]
  }

  /** Every required field of the reader's schema that comes before `i` in the writer's is seen. */
  predicate SeenUpTo(sub: Desc, d: Desc, i: nat, seen: set<nat>) {
    forall j | 0 <= j < |sub.fields| ::
      sub.fields[j].h == Required && IndexFrom(d.fields, sub.fields[j].tag) < i && RequiredBefore(sub, j) < MAX_REQUIRED_FIELDS
      ==> RequiredBefore(sub, j) in seen
  }

  ghost predicate Ready(lay: Layout, mem: Memory, sub: Desc, d: Desc, m: Message, i: nat, st: Loop) {
    && st.m == AfterFields(lay, mem, sub, d, m, i) && FixedComplete(sub, st) && SeenUpTo(sub, d, i, st.seen)
    && (st.fixed.Some? ==> IndexFrom(d.fields, st.fixed.value) < i)
  }

  lemma {:induction false} ValueDecodes(lay: Layout, mem: Memory, g: Field, f: Field, v: Value, rest: seq<byte>)
    requires SubField(g, f) && WfField(g) && WfField(f) && WfValue(f.l, v)
    requires EncValue(lay, f.l, v).Some? && |EncValue(lay, f.l, v).value| < TWO_32
    ensures DecValue(Within(mem, g), g.l, EncValue(lay, f.l, v).value + rest, ResetValue(mem, g)) == Some(Got(ReadItem(lay, mem, g, f, v), rest))
    decreases g, 0
  {
    match f.l
    case Submessage(d) =>
      var b := EncMessage(lay, d, v.m).value;
      StringDecodes(b, rest);
      MessageDecodes(lay, Within(mem, g), g.l.desc, d, v.m, []);
      assert b + [] == b;
    case Bytes(_) => StringDecodes(v.b, rest);
    case Str(_) =>
      StringDecodes(v.b, rest);
      CStringOfNone(v.b);
    case FixedBytes(_) => StringDecodes(v.b, rest);
    case _ => ScalarDecodes(f.l, v, rest);
  }

  /** pb_decode reads a whole encoded message back, up to the end of the stream or to a zero byte,
      with the fields its own schema has. */
  lemma {:induction false} MessageDecodes(lay: Layout, mem: Memory, sub: Desc, d: Desc, m: Message, tail: seq<byte>)
    requires WfDesc(sub) && WfDesc(d) && SubDesc(sub, d) && WfMessage(d, m) && EndsHere(tail)
    requires EncMessage(lay, d, m).Some? && |EncMessage(lay, d, m).value| < TWO_32
    ensures Decode(mem, sub, EncMessage(lay, d, m).value + tail) == Some(Got(AsRead(lay, mem, sub, d, m), Behind(tail)))
    decreases sub, 4
  {
    var st := Loop(Defaults(mem, sub), None, {});
    AfterNone(lay, mem, sub, d, m);
    var end := FieldsDecode(lay, mem, sub, d, m, 0, st, tail);
    AfterAll(lay, mem, sub, d, m);
    AllSeen(sub, d, end.seen);
  }

  lemma AllSeen(sub: Desc, d: Desc, seen: set<nat>)
    requires SubDesc(sub, d) && SeenUpTo(sub, d, |d.fields|, seen)
    ensures forall k | 0 <= k < RequiredBefore(sub, |sub.fields|) && k < MAX_REQUIRED_FIELDS :: k in seen
  {
    forall k | 0 <= k < RequiredBefore(sub, |sub.fields|) && k < MAX_REQUIRED_FIELDS
      ensures k in seen
    {
      var j := RequiredAt(sub, |sub.fields|, k);
      assert Has(d, sub.fields[j].tag);
    }
  }

  lemma {:induction false} RequiredAt(d: Desc, n: nat, k: nat) returns (j: nat)
    requires n <= |d.fields| && k < RequiredBefore(d, n)
    ensures j < n && d.fields[j].h == Required && RequiredBefore(d, j) == k
  {
    if k == RequiredBefore(d, n - 1) {
      j := n - 1;
    } else {
      j := RequiredAt(d, n - 1, k);
    }
  }

  lemma {:induction false} FieldsDecode(lay: Layout, mem: Memory, sub: Desc, d: Desc, m: Message, i: nat, st: Loop, tail: seq<byte>)
    returns (end: Loop)
    requires WfDesc(sub) && WfDesc(d) && SubDesc(sub, d) && WfMessage(d, m) && EndsHere(tail)
    requires i <= |d.fields| && EncFields(lay, d, m, i).Some? && |EncFields(lay, d, m, i).value| < TWO_32
    requires Ready(lay, mem, sub, d, m, i, st)
    ensures DecLoop(mem, sub, EncFields(lay, d, m, i).value + tail, st) == Some(Got(end, Behind(tail)))
    ensures Ready(lay, mem, sub, d, m, |d.fields|, end)
    decreases sub, 3, |d.fields| - i
  {
    hide Ready, WfDesc, WfMessage, SubDesc, EncField;
    if i == |d.fields| {
      assert [] + tail == tail;
      if tail != [] {
        assert Dec32(tail) == Some(Got(0, tail[1..]));
      }
      return st;
    }
    var b, more := EncField(lay, d.fields[i], m).value, EncFields(lay, d, m, i + 1).value;
    assert EncFields(lay, d, m, i).value + tail == b + (more + tail);
    var next := FieldDecodes(lay, mem, sub, d, m, i, st, more + tail);
    end := FieldsDecode(lay, mem, sub, d, m, i + 1, next, tail);
  }

  lemma SeenStep(sub: Desc, d: Desc, i: nat, seen: set<nat>, more: set<nat>)
    requires SubDesc(sub, d) && Distinct(sub) && Distinct(d) && i < |d.fields| && SeenUpTo(sub, d, i, seen) && seen <= more
    requires Has(sub, d.fields[i].tag) && d.fields[i].h == Required && RequiredIndex(sub, d.fields[i].tag) < MAX_REQUIRED_FIELDS
      ==> RequiredIndex(sub, d.fields[i].tag) in more
    ensures SeenUpTo(sub, d, i + 1, more)
  {
    forall j | 0 <= j < |sub.fields| && sub.fields[j].h == Required && IndexFrom(d.fields, sub.fields[j].tag) == i
      ensures RequiredBefore(sub, j) < MAX_REQUIRED_FIELDS ==> RequiredBefore(sub, j) in more
    {
      FieldOfIndex(sub, j);
      SubHas(sub, d, sub.fields[j].tag);
    }
  }

  /** What FieldDecodes asks and promises, for its cases. */
  ghost predicate AtField(lay: Layout, mem: Memory, sub: Desc, d: Desc, m: Message, i: nat, st: Loop) {
    && WfDesc(sub) && WfDesc(d) && SubDesc(sub, d) && WfMessage(d, m) && i < |d.fields|
    && EncField(lay, d.fields[i], m).Some? && |EncField(lay, d.fields[i], m).value| < TWO_32
    && Ready(lay, mem, sub, d, m, i, st)
  }

  lemma {:induction false} FieldDecodes(lay: Layout, mem: Memory, sub: Desc, d: Desc, m: Message, i: nat, st: Loop, rest: seq<byte>)
    returns (next: Loop)
    requires AtField(lay, mem, sub, d, m, i, st)
    ensures DecLoop(mem, sub, EncField(lay, d.fields[i], m).value + rest, st) == DecLoop(mem, sub, rest, next)
    ensures Ready(lay, mem, sub, d, m, i + 1, next)
    decreases sub, 2
  {
    var f := d.fields[i];
    var b := EncField(lay, f, m).value;
    assert WfField(f) && WfFieldValue(f, m);
    if b == [] {
      NothingEncoded(lay, mem, sub, d, m, i, st);
      assert b + rest == rest;
      next := st;
    } else if !Has(sub, f.tag) {
      FieldSkipped(lay, mem, sub, d, m, i, st, rest);
      next := st;
    } else {
      SubHas(sub, d, f.tag);
      FieldOfIndex(d, i);
      if !f.h.Repeated? {
        next := SingleDecodes(lay, mem, sub, d, m, i, st, rest);
      } else if Packable(f.l) {
        next := PackedFieldDecodes(lay, mem, sub, d, m, i, st, rest);
      } else {
        next := ArrayDecodes(lay, mem, sub, d, m, i, st, rest);
      }
    }
  }

  lemma EncTagForNotEmpty(f: Field)
    ensures EncTagFor(f) != []
  {
  }

  lemma FieldWellFormed(d: Desc, m: Message, i: nat)
    requires WfDesc(d) && WfMessage(d, m) && i < |d.fields|
    ensures WfField(d.fields[i]) && WfFieldValue(d.fields[i], m) && Distinct(d)
  {
  }

  lemma ItemsNotEmpty(lay: Layout, f: Field, vs: seq<Value>)
    requires vs != [] && EncItems(lay, f, vs).Some?
    ensures EncItems(lay, f, vs).value != []
  {
    EncTagForNotEmpty(f);
  }

  /** Nothing is written for an absent field, an empty array, and a proto3 field at its default. */
  lemma NothingMeans(lay: Layout, f: Field, m: Message)
    requires WfField(f) && WfFieldValue(f, m) && EncField(lay, f, m) == Some([])
    ensures f.h != Required
    ensures f.tag !in m || (f.h.Repeated? && f.h.counted && m[f.tag] == List([])) || LeftOut(lay, f, m)
    ensures f.tag !in m ==> !f.h.Repeated? && f.h != Optional(false)
  {
    hide EncValue, ReadsAsDefault, EncPacked, WithLength, EncTagFor, EncTag, WfValue;
    EncTagForNotEmpty(f);
    if f.h.Repeated? {
      TagNotEmpty(f.tag, WT_STRING);
      var vs := m[f.tag].vs;
      if vs != [] && !Packable(f.l) {
        ItemsNotEmpty(lay, f, vs);
      }
    }
  }

  lemma NothingEncoded(lay: Layout, mem: Memory, sub: Desc, d: Desc, m: Message, i: nat, st: Loop)
    requires AtField(lay, mem, sub, d, m, i, st) && EncField(lay, d.fields[i], m).value == []
    ensures Ready(lay, mem, sub, d, m, i + 1, st)
  {
    hide EncField, AfterFields, WfDesc, WfMessage, SubDesc, ReadsAsDefault, ReadItem;
    var f, before := d.fields[i], AfterFields(lay, mem, sub, d, m, i);
    AfterStep(lay, mem, sub, d, m, i);
    FieldWellFormed(d, m, i);
    NothingMeans(lay, f, m);
    WellFormedDistinct(sub);
    SeenStep(sub, d, i, st.seen, st.seen);
    if Has(sub, f.tag) {
      SubHas(sub, d, f.tag);
      FieldOfIndex(d, i);
      var g := FieldOf(sub, f.tag);
      if f.tag in m {
        assert ReadField(lay, mem, g, f, m, m[f.tag]) == InitialValue(mem, g);
        assert before[f.tag := before[f.tag]] == before;
      }
    }
  }

  lemma FieldSkipped(lay: Layout, mem: Memory, sub: Desc, d: Desc, m: Message, i: nat, st: Loop, rest: seq<byte>)
    requires AtField(lay, mem, sub, d, m, i, st) && EncField(lay, d.fields[i], m).value != [] && !Has(sub, d.fields[i].tag)
    ensures DecLoop(mem, sub, EncField(lay, d.fields[i], m).value + rest, st) == DecLoop(mem, sub, rest, st)
    ensures Ready(lay, mem, sub, d, m, i + 1, st)
  {
    var f := d.fields[i];
    assert WfField(f) && WfFieldValue(f, m);
    AfterStep(lay, mem, sub, d, m, i);
    SeenStep(sub, d, i, st.seen, st.seen);
    if !f.h.Repeated? {
      UnknownSkipped(lay, mem, sub, f, m[f.tag], st, rest);
    } else if Packable(f.l) {
      PackedSkipped(mem, sub, f.tag, EncPacked(f.l, m[f.tag].vs).value, st, rest);
    } else {
      ItemsSkipped(lay, mem, sub, f, m[f.tag].vs, st, rest);
    }
  }

  /** What the encoder wrote for a field. */
  lemma FieldPieces(lay: Layout, f: Field, m: Message)
    requires WfFieldValue(f, m) && EncField(lay, f, m).Some? && EncField(lay, f, m).value != []
    ensures f.tag in m
    ensures var b := EncField(lay, f, m).value;
      if !f.h.Repeated? then
        !LeftOut(lay, f, m) && WfValue(f.l, m[f.tag])
        && EncValue(lay, f.l, m[f.tag]).Some? && b == EncTagFor(f) + EncValue(lay, f.l, m[f.tag]).value
      else
        && m[f.tag].List? && m[f.tag].vs != [] && |m[f.tag].vs| <= f.h.arraySize
        && (!f.h.counted ==> |m[f.tag].vs| == f.h.arraySize)
        && (forall k | 0 <= k < |m[f.tag].vs| :: WfValue(f.l, m[f.tag].vs[k]))
        && if Packable(f.l) then
          EncPacked(f.l, m[f.tag].vs).Some? && |EncPacked(f.l, m[f.tag].vs).value| <= |b| && b == EncTag(f.tag, WT_STRING) + WithLength(EncPacked(f.l, m[f.tag].vs).value)
        else EncItems(lay, f, m[f.tag].vs) == Some(b)
  {
    hide EncValue, EncItems, EncPacked, EncTag, WfValue, ReadsAsDefault;
  }

  /** A field that is there and is encoded, and that the reader knows. */
  ghost predicate AtKnown(lay: Layout, mem: Memory, sub: Desc, d: Desc, m: Message, i: nat, st: Loop) {
    && AtField(lay, mem, sub, d, m, i, st) && EncField(lay, d.fields[i], m).value != []
    && Distinct(sub) && Distinct(d)
    && var f := d.fields[i];
    && 0 < f.tag < 0x2000_0000 && Has(sub, f.tag) && SubField(FieldOf(sub, f.tag), f) && WfField(f) && WfField(FieldOf(sub, f.tag))
    && WfFieldValue(f, m)
  }

  lemma {:induction false} SingleDecodes(lay: Layout, mem: Memory, sub: Desc, d: Desc, m: Message, i: nat, st: Loop, rest: seq<byte>)
    returns (next: Loop)
    requires AtKnown(lay, mem, sub, d, m, i, st) && !d.fields[i].h.Repeated?
    ensures DecLoop(mem, sub, EncField(lay, d.fields[i], m).value + rest, st) == DecLoop(mem, sub, rest, next)
    ensures Ready(lay, mem, sub, d, m, i + 1, next)
    decreases sub, 1
  {
    hide AfterFields, EncField, EncValue, DecValue, EncTag, ReadItem, WfDesc, WfMessage, WfField, WfFieldValue, SubDesc, DecLoop;
    hide RequiredIndex, ClearOneof, ResetValue, ReadsAsDefault;
    var f := d.fields[i];
    FieldPieces(lay, f, m);
    var g, v := FieldOf(sub, f.tag), m[f.tag];
    var b := EncValue(lay, f.l, v).value;
    AfterStep(lay, mem, sub, d, m, i);
    KnownTag(mem, sub, f.tag, WireType(f.l), b + rest, st);
    assert EncTagFor(f) + b + rest == EncTagFor(f) + (b + rest);
    ValueDecodes(lay, mem, g, f, v, rest);
    if f.h.Oneof? {
      OneofAlone(lay, mem, sub, d, m, i);
    }
    next := MarkSeen(sub, g, st).(m := st.m[f.tag := ReadItem(lay, mem, g, f, v)]);
    SeenStep(sub, d, i, st.seen, next.seen);
  }

  lemma OneofAlone(lay: Layout, mem: Memory, sub: Desc, d: Desc, m: Message, i: nat)
    requires SubDesc(sub, d) && WfDesc(d) && WfMessage(d, m) && i < |d.fields| && d.fields[i].h.Oneof? && d.fields[i].tag in m
    requires Has(sub, d.fields[i].tag)
    ensures var before := AfterFields(lay, mem, sub, d, m, i);
      ClearOneof(sub, FieldOf(sub, d.fields[i].tag), before) == before
  {
    hide ReadField, FieldAt, AfterFields, WfMessage, WfDesc, SubDesc;
    var f, before := d.fields[i], AfterFields(lay, mem, sub, d, m, i);
    SubHas(sub, d, f.tag);
    FieldWellFormed(d, m, i);
    FieldOfIndex(d, i);
    OneofTags(lay, mem, sub, d, m, i);
    assert ClearOneof(sub, FieldOf(sub, f.tag), before).Keys == before.Keys;
  }

  lemma OneofTags(lay: Layout, mem: Memory, sub: Desc, d: Desc, m: Message, i: nat)
    requires SubDesc(sub, d) && WfDesc(d) && WfMessage(d, m) && i < |d.fields| && d.fields[i].h.Oneof? && d.fields[i].tag in m
    ensures forall t | t in AfterFields(lay, mem, sub, d, m, i) :: !(Has(sub, t) && FieldOf(sub, t).h == d.fields[i].h)
  {
    hide ReadField, FieldAt, AfterFields, WfMessage, WfDesc, SubDesc;
    forall t | t in AfterFields(lay, mem, sub, d, m, i)
      ensures !(Has(sub, t) && FieldOf(sub, t).h == d.fields[i].h)
    {
      if Has(sub, t) && FieldOf(sub, t).h == d.fields[i].h {
        SubHas(sub, d, t);
        AfterAt(lay, mem, sub, d, m, t, i);
        EarlierPresent(lay, mem, sub, d, m, t, i);
        OneofExclusive(d, m, IndexFrom(d.fields, t), i);
      }
    }
  }

  lemma EarlierPresent(lay: Layout, mem: Memory, sub: Desc, d: Desc, m: Message, t: nat, i: nat)
    requires Has(sub, t) && Has(d, t) && FieldAt(lay, mem, sub, d, m, t, i).Some? && FieldOf(sub, t).h.Oneof?
    ensures IndexFrom(d.fields, t) < i && t in m
  {
  }

  lemma OneofExclusive(d: Desc, m: Message, j: nat, i: nat)
    requires WfMessage(d, m) && j < i < |d.fields| && d.fields[i].h.Oneof? && d.fields[j].h == d.fields[i].h
    ensures d.fields[j].tag !in m || d.fields[i].tag !in m
  {
    hide WfFieldValue, Has;
  }

  /** Once an array is entered it has no elements. */
  function EnteredAt(f: Field, st: Loop): (r: Loop)
    requires f.h.Repeated?
  {
    Loop(st.m[f.tag := List([])], if f.h.counted then st.fixed else Some(f.tag), st.seen)
  }

  lemma ArrayEntered(lay: Layout, mem: Memory, sub: Desc, d: Desc, m: Message, i: nat, st: Loop)
    requires AtKnown(lay, mem, sub, d, m, i, st) && d.fields[i].h.Repeated?
    ensures var f := d.fields[i];
      && EnterFixed(sub, FieldOf(sub, f.tag), st) == Some(EnteredAt(f, st))
      && MarkSeen(sub, FieldOf(sub, f.tag), EnteredAt(f, st)) == EnteredAt(f, st)
      && EnteredAt(f, st).m[f.tag] == List([])
      && AfterFields(lay, mem, sub, d, m, i + 1) ==
           EnteredAt(f, st).m[f.tag := ReadField(lay, mem, FieldOf(sub, f.tag), f, m, m[f.tag])]
    ensures SeenUpTo(sub, d, i + 1, st.seen)
  {
    hide EncField, WfMessage, WfDesc, SubDesc, ReadItem, ReadsAsDefault, AfterFields, SeenUpTo, WfType, WfValue;
    var f := d.fields[i];
    AfterStep(lay, mem, sub, d, m, i);
    SeenStep(sub, d, i, st.seen, st.seen);
    assert f.h.counted ==> st.m[f.tag := List([])] == st.m;
    FieldOfIndex(d, i);
    assert st.fixed != Some(f.tag);
  }

  lemma {:induction false} PackedFieldDecodes(lay: Layout, mem: Memory, sub: Desc, d: Desc, m: Message, i: nat, st: Loop, rest: seq<byte>)
    returns (next: Loop)
    requires AtKnown(lay, mem, sub, d, m, i, st) && d.fields[i].h.Repeated? && Packable(d.fields[i].l)
    ensures DecLoop(mem, sub, EncField(lay, d.fields[i], m).value + rest, st) == DecLoop(mem, sub, rest, next)
    ensures Ready(lay, mem, sub, d, m, i + 1, next)
    decreases sub, 1
  {
    hide AfterFields, EncField, EncPacked, DecPacked, EncScalar, DecString, EncTag, WithLength, WfDesc, WfMessage, WfField;
    hide WfFieldValue, SubDesc, DecLoop, RequiredIndex, SeenUpTo;
    var f := d.fields[i];
    FieldPieces(lay, f, m);
    var g, vs := FieldOf(sub, f.tag), m[f.tag].vs;
    var b := EncPacked(f.l, vs).value;
    ArrayEntered(lay, mem, sub, d, m, i, st);
    KnownTag(mem, sub, f.tag, WT_STRING, WithLength(b) + rest, st);
    assert EncTag(f.tag, WT_STRING) + WithLength(b) + rest == EncTag(f.tag, WT_STRING) + (WithLength(b) + rest);
    StringDecodes(b, rest);
    PackedDecodes(f.l, vs, [], f.h.arraySize);
    assert [] + vs == vs;
    assert ReadField(lay, mem, g, f, m, m[f.tag]).vs == vs;
    FieldOfIndex(d, i);
    next := EnteredAt(f, st).(m := EnteredAt(f, st).m[f.tag := List(vs)]);
  }

  function ReadItems(lay: Layout, mem: Memory, g: Field, f: Field, vs: seq<Value>): seq<Value> {
    seq(|vs|, i requires 0 <= i < |vs| => ReadItem(lay, mem, g, f, vs[i]))
  }

  lemma {:induction false} ItemsDecode(lay: Layout, mem: Memory, sub: Desc, f: Field, vs: seq<Value>, st: Loop, rest: seq<byte>)
    requires Has(sub, f.tag) && SubField(FieldOf(sub, f.tag), f) && WfField(FieldOf(sub, f.tag)) && WfField(f)
    requires f.h.Repeated? && !Packable(f.l) && vs != [] && forall k | 0 <= k < |vs| :: WfValue(f.l, vs[k])
    requires EncItems(lay, f, vs).Some? && |EncItems(lay, f, vs).value| < TWO_32
    requires EnterFixed(sub, FieldOf(sub, f.tag), st).Some?
    requires var entered := EnterFixed(sub, FieldOf(sub, f.tag), st).value;
      |Elements(entered.m, f.tag)| + |vs| <= f.h.arraySize
    ensures var entered := EnterFixed(sub, FieldOf(sub, f.tag), st).value;
      DecLoop(mem, sub, EncItems(lay, f, vs).value + rest, st) ==
      DecLoop(mem, sub, rest, entered.(m := entered.m[f.tag :=
        List(Elements(entered.m, f.tag) + ReadItems(lay, mem, FieldOf(sub, f.tag), f, vs))]))
    decreases sub, 0, |vs|
  {
    hide ReadItem, EncValue, WfField, WfValue, SubField, DecLoop, EncTagFor, FixedComplete;
    var g := FieldOf(sub, f.tag);
    var entered := EnterFixed(sub, g, st).value;
    var before := Elements(entered.m, f.tag);
    var item := ReadItem(lay, mem, g, f, vs[0]);
    var b, tail := EncValue(lay, f.l, vs[0]).value, EncItems(lay, f, vs[1..]).value;
    ItemDecodes(lay, mem, sub, f, vs[0], st, tail + rest);
    assert EncItems(lay, f, vs).value + rest == EncTagFor(f) + b + (tail + rest);
    var next := entered.(m := entered.m[f.tag := List(before + [item])]);
    assert ReadItems(lay, mem, g, f, vs) == [item] + ReadItems(lay, mem, g, f, vs[1..]);
    if |vs| == 1 {
      assert tail + rest == rest;
      assert before + ReadItems(lay, mem, g, f, vs) == before + [item];
    } else {
      assert EnterFixed(sub, g, next) == Some(next);
      ItemsDecode(lay, mem, sub, f, vs[1..], next, rest);
      var all := List(before + ReadItems(lay, mem, g, f, vs));
      assert next.m[f.tag := all] == entered.m[f.tag := all];
      assert before + ReadItems(lay, mem, g, f, vs) == before + [item] + ReadItems(lay, mem, g, f, vs[1..]);
    }
  }

  lemma {:induction false} ItemDecodes(lay: Layout, mem: Memory, sub: Desc, f: Field, v: Value, st: Loop, rest: seq<byte>)
    requires Has(sub, f.tag) && SubField(FieldOf(sub, f.tag), f) && WfField(FieldOf(sub, f.tag)) && WfField(f)
    requires f.h.Repeated? && !Packable(f.l) && WfValue(f.l, v)
    requires EncValue(lay, f.l, v).Some? && |EncValue(lay, f.l, v).value| < TWO_32
    requires EnterFixed(sub, FieldOf(sub, f.tag), st).Some?
    requires |Elements(EnterFixed(sub, FieldOf(sub, f.tag), st).value.m, f.tag)| < f.h.arraySize
    ensures var entered := EnterFixed(sub, FieldOf(sub, f.tag), st).value;
      DecLoop(mem, sub, EncTagFor(f) + EncValue(lay, f.l, v).value + rest, st) ==
      DecLoop(mem, sub, rest, entered.(m := entered.m[f.tag :=
        List(Elements(entered.m, f.tag) + [ReadItem(lay, mem, FieldOf(sub, f.tag), f, v)])]))
    decreases sub, 0, 0
  {
    hide EncValue, EncTag, DecValue, EnterFixed, Elements, ReadItem, ResetValue, WfValue, DecLoop;
    var g := FieldOf(sub, f.tag);
    var b := EncValue(lay, f.l, v).value;
    KnownTag(mem, sub, f.tag, WireType(f.l), b + rest, st);
    assert EncTagFor(f) + b + rest == EncTagFor(f) + (b + rest);
    ValueDecodes(lay, mem, g, f, v, rest);
    assert MarkSeen(sub, g, EnterFixed(sub, g, st).value) == EnterFixed(sub, g, st).value;
    assert Packable(g.l) == Packable(f.l);
  }

  lemma {:induction false} ArrayDecodes(lay: Layout, mem: Memory, sub: Desc, d: Desc, m: Message, i: nat, st: Loop, rest: seq<byte>)
    returns (next: Loop)
    requires AtKnown(lay, mem, sub, d, m, i, st) && d.fields[i].h.Repeated? && !Packable(d.fields[i].l)
    ensures DecLoop(mem, sub, EncField(lay, d.fields[i], m).value + rest, st) == DecLoop(mem, sub, rest, next)
    ensures Ready(lay, mem, sub, d, m, i + 1, next)
    decreases sub, 1
  {
    hide AfterFields, EncField, WfDesc, WfMessage, EncItems, ReadItem, DecLoop, WfField, WfFieldValue, SubDesc, SeenUpTo;
    var f := d.fields[i];
    FieldPieces(lay, f, m);
    var g, vs := FieldOf(sub, f.tag), m[f.tag].vs;
    ArrayEntered(lay, mem, sub, d, m, i, st);
    ItemsDecode(lay, mem, sub, f, vs, st, rest);
    assert ReadField(lay, mem, g, f, m, m[f.tag]).vs == ReadItems(lay, mem, g, f, vs);
    assert [] + ReadItems(lay, mem, g, f, vs) == ReadItems(lay, mem, g, f, vs);
    FieldOfIndex(d, i);
    next := EnteredAt(f, st).(m := EnteredAt(f, st).m[f.tag := List(ReadItems(lay, mem, g, f, vs))]);
  }
}
