/** What pb_decode leaves in the struct, whatever bytes it is given: every number fits its C type, every
    string and array its place, at most one member of a union is chosen, and the flags say what came. */
module PbAnyInput {
  import opened Common
  import opened PbWire
  import opened PbSchema
  import opened PbCodec

  // ---- A message that fits its struct ----

  predicate FitsType(l: LType, v: Value)
    decreases l, 0
  {
    match l
    case Varint(n) => v.Num? && -SignedBound(n) <= v.n < SignedBound(n)
    case SVarint(n) => v.Num? && -SignedBound(n) <= v.n < SignedBound(n)
    case UVarint(n) => v.Num? && 0 <= v.n < 2 * SignedBound(n)
    case Fixed32 => v.Num? && 0 <= v.n < 0x1_0000_0000
    case Fixed64 => v.Num? && 0 <= v.n < 0x1_0000_0000_0000_0000
    case Bytes(n) => v.Blob? && |v.b| <= n
    case Str(n) => v.Blob? && |v.b| < n && 0 !in v.b
    case FixedBytes(n) => v.Blob? && |v.b| == n
    case Submessage(d) => v.Msg? && FitsStruct(d, v.m, None)
  }

  /** A fixed-count array has all its elements or is untouched, but for the one being received. */
  predicate FitsField(f: Field, m: Message, open: Option<nat>)
    decreases f, 1
  {
    match f.h
    case Repeated(n, counted) =>
      && f.tag in m && m[f.tag].List? && |m[f.tag].vs| <= n
      && (!counted && open != Some(f.tag) ==> |m[f.tag].vs| == n || m[f.tag].vs == [])
      && forall k | 0 <= k < |m[f.tag].vs| :: FitsType(f.l, m[f.tag].vs[k])
    case _ => if f.tag in m then FitsType(f.l, m[f.tag]) else f.h != Required && f.h != Optional(false)
  }

  predicate FitsStruct(d: Desc, m: Message, open: Option<nat>)
    decreases d, 2
  {
    && (forall t <- m :: Has(d, t))
    && (forall i | 0 <= i < |d.fields| :: FitsField(d.fields[i], m, open))
    && OneMember(d, m)
  }

  predicate OneMember(d: Desc, m: Message) {
    forall i, j | 0 <= i < j < |d.fields| && d.fields[i].h.Oneof? && d.fields[i].h == d.fields[j].h ::
      d.fields[i].tag !in m || d.fields[j].tag !in m
  }

  /** The initial values of the schema fit, and a string has room for its end. */
  predicate Startable(d: Desc)
    decreases d, 1
  {
    forall i | 0 <= i < |d.fields| :: StartableField(d.fields[i])
  }

  predicate StartableField(f: Field)
    decreases f, 0
  {
    match f.l
    case Submessage(d) => Startable(d)
    case Str(n) => n > 0 && FitsType(f.l, f.initial)
    case _ => FitsType(f.l, f.initial)
  }

  // ---- What the decoder starts from ----

  lemma {:induction false} ZeroFits(d: Desc)
    requires WfDesc(d) && Startable(d)
    ensures FitsStruct(d, ZeroMessage(d), None)
    decreases d, 1
  {
    hide FitsType, FitsField, ZeroMessage, WfField, StartableField;
    forall i | 0 <= i < |d.fields|
      ensures FitsField(d.fields[i], ZeroMessage(d), None)
    {
      assert WfField(d.fields[i]) && StartableField(d.fields[i]);
      ZeroTypeFits(d.fields[i]);
      ZeroFieldFits(d, i);
    }
    StartKeys(Memory(true, _ => false), d);
    NoneChosen(d, ZeroMessage(d));
  }

  lemma ZeroFieldFits(d: Desc, i: nat)
    requires Distinct(d) && i < |d.fields| && FitsType(d.fields[i].l, Zero(d.fields[i].l))
    ensures FitsField(d.fields[i], ZeroMessage(d), None)
  {
    hide FitsType, Zero;
    var f := d.fields[i];
    FieldOfIndex(d, i);
    HasIsTag(d, f.tag);
    if f.tag in ZeroMessage(d) {
      assert ZeroMessage(d)[f.tag] == ZeroField(f);
      assert f.h.Repeated? ==> forall k | 0 <= k < f.h.arraySize :: ZeroItems(f)[k] == Zero(f.l);
    }
  }

  /** No member of a union is chosen to begin with. */
  lemma NoneChosen(d: Desc, m: Message)
    requires Distinct(d) && forall t <- m :: Has(d, t) && Initially(FieldOf(d, t))
    ensures OneMember(d, m)
  {
    forall i | 0 <= i < |d.fields| && d.fields[i].h.Oneof?
      ensures d.fields[i].tag !in m
    {
      FieldOfIndex(d, i);
    }
  }

  lemma {:induction false} ZeroTypeFits(f: Field)
    requires WfField(f) && StartableField(f)
    ensures FitsType(f.l, Zero(f.l))
    decreases f, 0
  {
    match f.l
    case Submessage(d) =>
      assert WfType(f.l);
      ZeroFits(d);
    case _ =>
  }

  lemma {:induction false} DefaultsFit(mem: Memory, d: Desc)
    requires WfDesc(d) && Startable(d)
    ensures FitsStruct(d, Defaults(mem, d), None)
    decreases d, 2
  {
    hide FitsType, FitsField, Defaults, WfField, StartableField;
    forall i | 0 <= i < |d.fields|
      ensures FitsField(d.fields[i], Defaults(mem, d), None)
    {
      assert WfField(d.fields[i]) && StartableField(d.fields[i]);
      ZeroTypeFits(d.fields[i]);
      ResetFits(mem, d.fields[i]);
      DefaultFieldFits(mem, d, i);
    }
    StartKeys(mem, d);
    NoneChosen(d, Defaults(mem, d));
  }

  lemma DefaultFieldFits(mem: Memory, d: Desc, i: nat)
    requires Distinct(d) && i < |d.fields|
    requires FitsType(d.fields[i].l, Zero(d.fields[i].l)) && FitsType(d.fields[i].l, ResetValue(mem, d.fields[i]))
    ensures FitsField(d.fields[i], Defaults(mem, d), None)
  {
    hide FitsType, Zero, ResetValue, StartsZero;
    FieldOfIndex(d, i);
    HasIsTag(d, d.fields[i].tag);
  }

  lemma StartKeys(mem: Memory, d: Desc)
    ensures forall t <- Defaults(mem, d) :: Has(d, t) && Initially(FieldOf(d, t))
    ensures forall t <- ZeroMessage(d) :: Has(d, t) && Initially(FieldOf(d, t))
  {
  }

  lemma {:induction false} ResetFits(mem: Memory, f: Field)
    requires WfField(f) && StartableField(f)
    ensures FitsType(f.l, ResetValue(mem, f))
    decreases f, 1
  {
    match f.l
    case Submessage(d) =>
      assert WfType(f.l);
      DefaultsFit(Within(mem, f), d);
    case _ =>
  }

  // ---- What it reads ----

  lemma {:induction false} PackedFits(l: LType, s: seq<byte>, vs: seq<Value>, max: nat)
    requires Packable(l) && WfType(l) && |vs| <= max && (forall k | 0 <= k < |vs| :: FitsType(l, vs[k])) && DecPacked(l, s, vs, max).Some?
    ensures var r := DecPacked(l, s, vs, max).value; |r| <= max && forall k | 0 <= k < |r| :: FitsType(l, r[k])
    decreases |s|
  {
    hide DecScalar, FitsType;
    if s != [] {
      var v := DecScalar(l, s).value;
      ScalarFits(l, s);
      PackedFits(l, v.rest, vs + [v.value], max);
    }
  }

  lemma ScalarFits(l: LType, s: seq<byte>)
    requires Packable(l) && WfType(l) && DecScalar(l, s).Some?
    ensures FitsType(l, DecScalar(l, s).value.value)
  {
    hide Dec64;
    match l
    case Fixed32 => FixedFits(s[..4], 4);
    case Fixed64 => FixedFits(s[..8], 8);
    case _ =>
  }

  lemma {:induction false} FixedBound(s: seq<byte>)
    ensures FixedValue(s) < Pow256(|s|)
  {
    if s != [] {
      FixedBound(s[1..]);
    }
  }

  lemma FixedFits(s: seq<byte>, n: nat)
    requires |s| == n && (n == 4 || n == 8)
    ensures FixedValue(s) < if n == 4 then 0x1_0000_0000 else 0x1_0000_0000_0000_0000
  {
    hide FixedValue;
    FixedBound(s);
    assert Pow256(4) == 0x1_0000_0000;
    assert Pow256(8) == 256 * (256 * (256 * (256 * Pow256(4))));
  }

  lemma {:induction false} CStringFits(b: seq<byte>)
    ensures |CString(b)| <= |b| && 0 !in CString(b)
  {
    if b != [] && b[0] != 0 {
      CStringFits(b[1..]);
    }
  }

  lemma {:induction false} ValueFits(mem: Memory, f: Field, s: seq<byte>, cur: Value)
    requires WfField(f) && StartableField(f) && (f.l.Submessage? && cur.Msg? ==> FitsStruct(f.l.desc, cur.m, None))
    requires DecValue(mem, f.l, s, cur).Some?
    ensures FitsType(f.l, DecValue(mem, f.l, s, cur).value.value)
    decreases |s|, 0
  {
    hide DecScalar, DecString, DecodeNoInit, FitsStruct;
    match f.l
    case Str(n) => CStringFits(DecString(s).value.value);
    case Submessage(d) =>
      assert WfType(f.l);
      DecodedFits(mem, d, DecString(s).value.value, cur.m);
    case Bytes(_) =>
    case FixedBytes(_) =>
    case _ => ScalarFits(f.l, s);
  }

  lemma {:induction false} DecodedFits(mem: Memory, d: Desc, s: seq<byte>, m: Message)
    requires WfDesc(d) && Startable(d) && FitsStruct(d, m, None) && DecodeNoInit(mem, d, s, m).Some?
    ensures FitsStruct(d, DecodeNoInit(mem, d, s, m).value.value, None)
    decreases |s|, 4
  {
    hide DecLoop, FitsStruct;
    var st := Loop(m, None, {});
    LoopFits(mem, d, s, st);
    AllReceived(d, DecLoop(mem, d, s, st).value.value);
  }

  /** A complete array needs no exception. */
  lemma AllReceived(d: Desc, st: Loop)
    requires Distinct(d) && FitsStruct(d, st.m, st.fixed) && FixedComplete(d, st)
    ensures FitsStruct(d, st.m, None)
  {
    hide FitsType;
    forall i | 0 <= i < |d.fields|
      ensures FitsField(d.fields[i], st.m, None)
    {
      FieldOfIndex(d, i);
    }
  }

  lemma {:induction false} LoopFits(mem: Memory, d: Desc, s: seq<byte>, st: Loop)
    requires WfDesc(d) && Startable(d) && FitsStruct(d, st.m, st.fixed) && DecLoop(mem, d, s, st).Some?
    ensures var end := DecLoop(mem, d, s, st).value.value; FitsStruct(d, end.m, end.fixed)
    decreases |s|, 3
  {
    hide DecTag, DecField, SkipField, FitsStruct, EnterFixed, WfDesc, Startable, MarkSeen;
    var t := DecTag(s);
    if s != [] && t.Tag? {
      if Has(d, t.tag) {
        var f := FieldOf(d, t.tag);
        var entered := EnterFixed(d, f, st).value;
        Entering(d, f, st);
        var marked := MarkSeen(d, f, entered);
        Marking(d, f, entered);
        FieldFits(mem, d, f, t.wireType, t.rest, marked);
        var next := DecField(mem, d, f, t.wireType, t.rest, marked).value;
        LoopFits(mem, d, next.rest, next.value);
      } else {
        LoopFits(mem, d, SkipField(t.wireType, t.rest).value, st);
      }
    }
  }

  lemma Marking(d: Desc, f: Field, st: Loop)
    requires Has(d, f.tag)
    ensures MarkSeen(d, f, st).m == st.m && MarkSeen(d, f, st).fixed == st.fixed
  {
  }

  /** The struct after field `f` of `d` was stored: any other field is as before, but for the members of
      the same union, which are gone. */
  predicate Stored(d: Desc, f: Field, m: Message, next: Message) {
    && f.tag in next && (forall t <- next | t != f.tag :: t in m && next[t] == m[t])
    && forall t <- m | t !in next :: Has(d, t) && f.h.Oneof? && FieldOf(d, t).h == f.h
  }

  lemma Elsewhere(d: Desc, f: Field, m: Message, next: Message, open: Option<nat>)
    requires Distinct(d) && Has(d, f.tag) && FieldOf(d, f.tag) == f && FitsStruct(d, m, open)
    requires FitsField(f, next, open) && Stored(d, f, m, next)
    requires f.h.Oneof? ==> forall t <- next | t != f.tag && Has(d, t) :: FieldOf(d, t).h != f.h
    ensures FitsStruct(d, next, open)
  {
    hide FitsType, FitsField, Stored;
    forall i | 0 <= i < |d.fields|
      ensures FitsField(d.fields[i], next, open)
    {
      FieldOfIndex(d, i);
      if d.fields[i].tag != f.tag {
        OtherField(d, f, i, m, next, open);
      }
    }
    StillOne(d, f, m, next);
    assert forall t <- next :: Has(d, t) by {
      StoredKeys(d, f, m, next);
    }
  }

  lemma StoredKeys(d: Desc, f: Field, m: Message, next: Message)
    requires Stored(d, f, m, next)
    ensures forall t <- next :: t == f.tag || t in m
  {
  }

  lemma OtherField(d: Desc, f: Field, i: nat, m: Message, next: Message, open: Option<nat>)
    requires Distinct(d) && i < |d.fields| && d.fields[i].tag != f.tag && FitsField(d.fields[i], m, open) && Stored(d, f, m, next)
    ensures FitsField(d.fields[i], next, open)
  {
    hide FitsType;
    FieldOfIndex(d, i);
  }

  lemma StillOne(d: Desc, f: Field, m: Message, next: Message)
    requires Distinct(d) && OneMember(d, m) && Stored(d, f, m, next) && Has(d, f.tag) && FieldOf(d, f.tag) == f
    requires f.h.Oneof? ==> forall t <- next | t != f.tag && Has(d, t) :: FieldOf(d, t).h != f.h
    ensures OneMember(d, next)
  {
    forall i, j | 0 <= i < j < |d.fields| && d.fields[i].h.Oneof? && d.fields[i].h == d.fields[j].h
      ensures d.fields[i].tag !in next || d.fields[j].tag !in next
    {
      FieldOfIndex(d, i);
      FieldOfIndex(d, j);
    }
  }

  lemma Entering(d: Desc, f: Field, st: Loop)
    requires WfDesc(d) && Has(d, f.tag) && FieldOf(d, f.tag) == f && FitsStruct(d, st.m, st.fixed) && EnterFixed(d, f, st).Some?
    ensures var e := EnterFixed(d, f, st).value;
      FitsStruct(d, e.m, e.fixed) && (f.h.Repeated? && !f.h.counted ==> e.fixed == Some(f.tag))
  {
    hide FitsType, WfField;
    var e := EnterFixed(d, f, st).value;
    if e != st {
      AllReceived(d, st);
      OpenIsWeaker(d, st.m, e.fixed);
      FieldIn(d, f);
      Elsewhere(d, f, st.m, e.m, e.fixed);
    }
  }

  lemma FieldIn(d: Desc, f: Field)
    requires WfDesc(d) && Has(d, f.tag) && FieldOf(d, f.tag) == f
    ensures WfField(f) && f in d.fields
  {
  }

  lemma OpenIsWeaker(d: Desc, m: Message, open: Option<nat>)
    requires FitsStruct(d, m, None)
    ensures FitsStruct(d, m, open)
  {
    hide FitsType;
    forall i | 0 <= i < |d.fields|
      ensures FitsField(d.fields[i], m, open)
    {
      assert FitsField(d.fields[i], m, None);
    }
  }

  /** What FieldFits asks, for its cases. */
  predicate AtField(mem: Memory, d: Desc, f: Field, wireType: nat, s: seq<byte>, st: Loop) {
    && WfDesc(d) && Has(d, f.tag) && FieldOf(d, f.tag) == f && WfField(f) && StartableField(f)
    && FitsStruct(d, st.m, st.fixed) && FitsField(f, st.m, st.fixed)
    && (f.h.Repeated? && !f.h.counted ==> st.fixed == Some(f.tag)) && DecField(mem, d, f, wireType, s, st).Some?
  }

  lemma {:induction false} FieldFits(mem: Memory, d: Desc, f: Field, wireType: nat, s: seq<byte>, st: Loop)
    requires WfDesc(d) && Startable(d) && Has(d, f.tag) && FieldOf(d, f.tag) == f && FitsStruct(d, st.m, st.fixed)
    requires f.h.Repeated? && !f.h.counted ==> st.fixed == Some(f.tag)
    requires DecField(mem, d, f, wireType, s, st).Some?
    ensures var next := DecField(mem, d, f, wireType, s, st).value.value; FitsStruct(d, next.m, next.fixed)
    decreases |s|, 2
  {
    hide DecField, WfField, StartableField, FitsStruct, FitsField;
    FieldIn(d, f);
    var i :| 0 <= i < |d.fields| && d.fields[i] == f;
    assert StartableField(f);
    FitsThere(d, i, st.m, st.fixed);
    NewMember(mem, f);
    if f.h.Repeated? {
      ArrayFits(mem, d, f, wireType, s, st);
    } else {
      MemberFits(mem, d, f, wireType, s, st);
    }
  }

  lemma {:induction false} ArrayFits(mem: Memory, d: Desc, f: Field, wireType: nat, s: seq<byte>, st: Loop)
    requires AtField(mem, d, f, wireType, s, st) && f.h.Repeated?
    requires f.l.Submessage? ==> ResetValue(mem, f).Msg? && FitsStruct(f.l.desc, ResetValue(mem, f).m, None)
    ensures var next := DecField(mem, d, f, wireType, s, st).value.value; FitsStruct(d, next.m, next.fixed)
    decreases |s|, 1
  {
    hide DecString, DecPacked, DecValue, FitsType, StartableField, FitsStruct, WfDesc;
    var next := DecField(mem, d, f, wireType, s, st).value.value;
    if wireType == WT_STRING && Packable(f.l) {
      PackedFits(f.l, DecString(s).value.value, Elements(st.m, f.tag), f.h.arraySize);
    } else {
      ValueFits(Within(mem, f), f, s, ResetValue(mem, f));
    }
    WellFormedDistinct(d);
    Elsewhere(d, f, st.m, next.m, st.fixed);
  }

  lemma {:induction false} MemberFits(mem: Memory, d: Desc, f: Field, wireType: nat, s: seq<byte>, st: Loop)
    requires AtField(mem, d, f, wireType, s, st) && !f.h.Repeated?
    requires f.l.Submessage? ==> ResetValue(mem, f).Msg? && FitsStruct(f.l.desc, ResetValue(mem, f).m, None)
    ensures var next := DecField(mem, d, f, wireType, s, st).value.value; FitsStruct(d, next.m, next.fixed)
    decreases |s|, 1
  {
    hide DecValue, FitsType, StartableField, FitsStruct, WfDesc;
    var next := DecField(mem, d, f, wireType, s, st).value.value;
    var cur := if !f.h.Oneof? && f.tag in st.m then st.m[f.tag] else ResetValue(mem, f);
    if !f.h.Oneof? && f.tag in st.m {
      SubmessageFits(f, cur);
    }
    ValueFits(Within(mem, f), f, s, cur);
    WellFormedDistinct(d);
    Elsewhere(d, f, st.m, next.m, st.fixed);
  }

  lemma FitsThere(d: Desc, i: nat, m: Message, open: Option<nat>)
    requires i < |d.fields| && FitsStruct(d, m, open)
    ensures FitsField(d.fields[i], m, open)
  {
  }

  lemma SubmessageFits(f: Field, v: Value)
    requires FitsType(f.l, v)
    ensures f.l.Submessage? ==> v.Msg? && FitsStruct(f.l.desc, v.m, None)
  {
  }

  lemma NewMember(mem: Memory, f: Field)
    requires WfField(f) && StartableField(f)
    ensures FitsType(f.l, ResetValue(mem, f))
    ensures f.l.Submessage? ==> ResetValue(mem, f).Msg? && FitsStruct(f.l.desc, ResetValue(mem, f).m, None)
  {
    ResetFits(mem, f);
    SubmessageFits(f, ResetValue(mem, f));
  }

  /** Whatever the bytes: a message that is accepted fits its struct, at every depth. */
  lemma AcceptedFits(mem: Memory, d: Desc, s: seq<byte>)
    requires WfDesc(d) && Startable(d) && Decode(mem, d, s).Some?
    ensures FitsStruct(d, Decode(mem, d, s).value.value, None)
  {
    hide DecodeNoInit, FitsStruct;
    DefaultsFit(mem, d);
    DecodedFits(mem, d, s, Defaults(mem, d));
  }
}
